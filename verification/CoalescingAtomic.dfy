/** Atomic accesses: lanes that touch the same word must not share a transaction,
    so each segment gets a list of them, filled first fit. */
module CoalescingAtomic {
  import opened Coalescing
  import opened CoalescingProperties
  import opened Helpers

  // ----- the place of a lane

  /** Two accesses of one segment have a byte in common. */
  ghost predicate Clash(r: Request, s: Request, size: nat, seg: nat)
    requires IsSegment(seg)
  {
    Tag(r.addr, seg) == Tag(s.addr, seg) && !(Span(r.addr, size) !! Span(s.addr, size))
  }

  /** The smallest number from `n` on that is not used. */
  ghost function FirstFree(used: set<nat>, n: nat): (k: nat)
    requires forall j: nat :: j < n ==> j in used
    ensures k !in used && forall j: nat :: j < k ==> j in used
    decreases used - Below(n)
  {
    if n !in used then n
    else
      assert n in used - Below(n);
      FirstFree(used, n + 1)
  }

  /** First fit: the first transaction of its segment that no earlier lane with a
      byte in common has joined. */
  ghost function Place(reqs: seq<Request>, i: nat, size: nat, seg: nat): nat
    requires IsSegment(seg) && i < |reqs|
    decreases i, 1
  {
    FirstFree(UsedBefore(reqs, i, size, seg), 0)
  }

  ghost function UsedBefore(reqs: seq<Request>, i: nat, size: nat, seg: nat): set<nat>
    requires IsSegment(seg) && i < |reqs|
    decreases i, 0
  {
    set j: nat | j < i && Clash(reqs[j], reqs[i], size, seg) :: Place(reqs, j, size, seg)
  }

  ghost function Group(reqs: seq<Request>, tag: nat, k: nat, size: nat, seg: nat): (group: set<nat>)
    requires IsSegment(seg)
    ensures AreIndices(reqs, group)
  {
    set i: nat | i < |reqs| && Tag(reqs[i].addr, seg) == tag && Place(reqs, i, size, seg) == k
  }

  /** A request at place `k` has a byte in common with `r`. */
  ghost predicate Taken(reqs: seq<Request>, r: Request, k: nat, size: nat, seg: nat)
    requires IsSegment(seg)
  {
    exists j: nat :: j < |reqs| && Place(reqs, j, size, seg) == k && Clash(reqs[j], r, size, seg)
  }

  lemma {:induction false} PlaceInPrefix(reqs: seq<Request>, more: seq<Request>, i: nat, size: nat, seg: nat)
    requires IsSegment(seg) && i < |reqs| && reqs <= more
    ensures Place(more, i, size, seg) == Place(reqs, i, size, seg)
    decreases i
  {
    hide Clash;
    forall j: nat | j < i ensures more[j] == reqs[j] && Place(more, j, size, seg) == Place(reqs, j, size, seg) {
      PlaceInPrefix(reqs, more, j, size, seg);
    }
    hide Place;
    assert more[i] == reqs[i];
    assert UsedBefore(more, i, size, seg) == UsedBefore(reqs, i, size, seg);
  }

  /** The place of a request is the first that no earlier one has taken. */
  lemma {:induction false} PlaceIsFirstFit(reqs: seq<Request>, r: Request, k: nat, size: nat, seg: nat)
    requires IsSegment(seg)
    ensures k == Place(reqs + [r], |reqs|, size, seg) <==>
            !Taken(reqs, r, k, size, seg) && forall j: nat :: j < k ==> Taken(reqs, r, j, size, seg)
  {
    var more := reqs + [r];
    var used := UsedBefore(more, |reqs|, size, seg);
    assert Place(more, |reqs|, size, seg) == FirstFree(used, 0);
    forall j: nat | j < |reqs| ensures more[j] == reqs[j] && Place(more, j, size, seg) == Place(reqs, j, size, seg) {
      PlaceInPrefix(reqs, more, j, size, seg);
    }
    hide Clash, Place;
    assert forall n: nat :: n in used <==> Taken(reqs, r, n, size, seg);
  }

  lemma {:induction false} GroupOfAdd(reqs: seq<Request>, r: Request, tag: nat, k: nat, size: nat, seg: nat)
    requires IsSegment(seg)
    ensures Group(reqs + [r], tag, k, size, seg) ==
            Group(reqs, tag, k, size, seg)
            + (if Tag(r.addr, seg) == tag && Place(reqs + [r], |reqs|, size, seg) == k then {|reqs|} else {})
  {
    var more := reqs + [r];
    forall i: nat | i < |reqs| ensures more[i] == reqs[i] && Place(more, i, size, seg) == Place(reqs, i, size, seg) {
      PlaceInPrefix(reqs, more, i, size, seg);
    }
    hide Place;
    assert more[|reqs|] == r;
  }

  /** The lists of transactions built so far. */
  ghost predicate Listed(t: map<nat, seq<Info>>, reqs: seq<Request>, size: nat, seg: nat)
    requires IsSegment(seg)
  {
    && t.Keys == Tags(reqs, seg)
    && forall tag :: tag in t ==> ListOk(t[tag], reqs, tag, size, seg)
  }

  ghost predicate ListOk(list: seq<Info>, reqs: seq<Request>, tag: nat, size: nat, seg: nat)
    requires IsSegment(seg)
  {
    && (forall k: nat :: k < |list| ==> list[k] == InfoOf(reqs, Group(reqs, tag, k, size, seg), size))
    && (forall k: nat :: k < |list| <==> Group(reqs, tag, k, size, seg) != {})
  }

  function List(t: map<nat, seq<Info>>, tag: nat): seq<Info> { if tag in t then t[tag] else [] }

  lemma {:induction false} ListIsOk(t: map<nat, seq<Info>>, reqs: seq<Request>, tag: nat, size: nat, seg: nat)
    requires IsSegment(seg) && Listed(t, reqs, size, seg)
    ensures ListOk(List(t, tag), reqs, tag, size, seg)
  {
    hide Tag, Place;
    if tag !in t {
      forall i: nat | i < |reqs| ensures Tag(reqs[i].addr, seg) != tag {
        assert Tag(reqs[i].addr, seg) in Tags(reqs, seg);
      }
    }
  }

  /** The test of the bytes finds a conflict exactly when an earlier lane with a
      byte in common has this place. */
  lemma {:induction false} ConflictIff(list: seq<Info>, reqs: seq<Request>, r: Request, size: nat, seg: nat, k: nat)
    requires IsSegment(seg) && ListOk(list, reqs, Tag(r.addr, seg), size, seg) && k < |list|
    ensures (exists x :: x in list[k].bytes && x in Span(r.addr, size)) <==> Taken(reqs, r, k, size, seg)
  {
    hide Place, Tag;
    var group := Group(reqs, Tag(r.addr, seg), k, size, seg);
    assert list[k].bytes == InfoOf(reqs, group, size).bytes;
    if x :| x in list[k].bytes && x in Span(r.addr, size) {
      var i :| i in group && x in Span(reqs[i].addr, size);
      assert Clash(reqs[i], r, size, seg);
    }
    if Taken(reqs, r, k, size, seg) {
      var j: nat :| j < |reqs| && Place(reqs, j, size, seg) == k && Clash(reqs[j], r, size, seg);
      var x :| x in Span(reqs[j].addr, size) && x in Span(r.addr, size);
      assert j in group;
    }
  }

  /** Only places in the list can be taken. */
  lemma {:induction false} PlaceFitsList(list: seq<Info>, reqs: seq<Request>, r: Request, size: nat, seg: nat)
    requires IsSegment(seg) && ListOk(list, reqs, Tag(r.addr, seg), size, seg)
    ensures Place(reqs + [r], |reqs|, size, seg) <= |list|
    ensures !Taken(reqs, r, |list|, size, seg)
  {
    hide Place, Tag;
    var k := Place(reqs + [r], |reqs|, size, seg);
    PlaceIsFirstFit(reqs, r, k, size, seg);
    forall j: nat | j < |reqs| && Clash(reqs[j], r, size, seg) ensures Place(reqs, j, size, seg) < |list| {
      assert j in Group(reqs, Tag(r.addr, seg), Place(reqs, j, size, seg), size, seg);
    }
    assert !Taken(reqs, r, |list|, size, seg);
  }

  /** Adding a lane at its place keeps the lists as described. */
  lemma {:induction false} ListOne(t: map<nat, seq<Info>>, reqs: seq<Request>, r: Request, size: nat, seg: nat)
    requires IsSegment(seg) && Listed(t, reqs, size, seg)
    ensures var tag := Tag(r.addr, seg); var list := List(t, tag); var k := Place(reqs + [r], |reqs|, size, seg);
            k <= |list| && Listed(t[tag := Placed(list, k, r, size)], reqs + [r], size, seg)
  {
    hide Place, Tag, Add;
    var own, k := Tag(r.addr, seg), Place(reqs + [r], |reqs|, size, seg);
    var list := List(t, own);
    ListIsOk(t, reqs, own, size, seg);
    PlaceFitsList(list, reqs, r, size, seg);
    TagsOfAdd(reqs, r, seg);
    var t' := t[own := Placed(list, k, r, size)];
    forall tag | tag in t' ensures ListOk(t'[tag], reqs + [r], tag, size, seg) {
      if tag == own {
        PlacedIsOk(list, reqs, r, size, seg);
      } else {
        OtherListStays(t[tag], reqs, r, tag, size, seg);
      }
    }
  }

  function Placed(list: seq<Info>, k: nat, r: Request, size: nat): seq<Info>
    requires k <= |list|
  {
    if k < |list| then list[k := Add(list[k], r, size)] else list + [Add(EMPTY, r, size)]
  }

  lemma {:induction false} PlacedIsOk(list: seq<Info>, reqs: seq<Request>, r: Request, size: nat, seg: nat)
    requires IsSegment(seg) && ListOk(list, reqs, Tag(r.addr, seg), size, seg)
    requires Place(reqs + [r], |reqs|, size, seg) <= |list|
    ensures var list' := Placed(list, Place(reqs + [r], |reqs|, size, seg), r, size);
            ListOk(list', reqs + [r], Tag(r.addr, seg), size, seg)
  {
    hide Place, Tag, Add;
    var tag := Tag(r.addr, seg);
    var place := Place(reqs + [r], |reqs|, size, seg);
    var list' := Placed(list, place, r, size);
    forall k: nat
      ensures k < |list'| ==> list'[k] == InfoOf(reqs + [r], Group(reqs + [r], tag, k, size, seg), size)
      ensures k < |list'| <==> Group(reqs + [r], tag, k, size, seg) != {}
    {
      var group := Group(reqs, tag, k, size, seg);
      GroupOfAdd(reqs, r, tag, k, size, seg);
      InfoOfAdd(reqs, group, r, size);
      assert group + {} == group;
      if k == |list| {
        assert group == {};
        assert InfoOf(reqs, group, size) == EMPTY;
      }
    }
  }

  lemma {:induction false} OtherListStays(list: seq<Info>, reqs: seq<Request>, r: Request, tag: nat, size: nat,
                                          seg: nat)
    requires IsSegment(seg) && ListOk(list, reqs, tag, size, seg) && tag != Tag(r.addr, seg)
    ensures ListOk(list, reqs + [r], tag, size, seg)
  {
    hide Place, Tag, Add;
    forall k: nat
      ensures k < |list| ==> list[k] == InfoOf(reqs + [r], Group(reqs + [r], tag, k, size, seg), size)
      ensures Group(reqs + [r], tag, k, size, seg) == Group(reqs, tag, k, size, seg)
    {
      GroupOfAdd(reqs, r, tag, k, size, seg);
      assert Group(reqs, tag, k, size, seg) + {} == Group(reqs, tag, k, size, seg);
      InfoOfAdd(reqs, Group(reqs, tag, k, size, seg), r, size);
    }
  }

  // ----- the loops

  method TestBytes(info: Info, first: nat, last: nat) returns (hit: bool)
    ensures hit <==> exists x :: first <= x <= last && x in info.bytes
  {
    var n := first;
    while n <= last
      invariant first <= n && forall x :: first <= x < n ==> x !in info.bytes
      decreases last + 1 - n
    {
      if n in info.bytes {
        return true;
      }
      n := n + 1;
    }
    return false;
  }

  /** The first transaction of the list without a conflict, or its length. */
  method FirstFit(list: seq<Info>, ghost reqs: seq<Request>, r: Request, size: nat, seg: nat) returns (k: nat)
    requires IsSegment(seg) && IsDataSize(size) && ListOk(list, reqs, Tag(r.addr, seg), size, seg)
    ensures k == Place(reqs + [r], |reqs|, size, seg) && k <= |list|
    ensures k < |list| ==> list[k].bytes !! Span(r.addr, size)
  {
    hide Place, Taken, Tag, ListOk;
    k := 0;
    PlaceFitsList(list, reqs, r, size, seg);
    while k < |list|
      invariant 0 <= k <= |list| && forall j: nat :: j < k ==> Taken(reqs, r, j, size, seg)
    {
      var idx := r.addr % 128;
      var hit := TestBytes(list[k], idx, idx + size - 1);
      ConflictIff(list, reqs, r, size, seg, k);
      if !hit {
        break;
      }
      assert exists x :: x in list[k].bytes && x in Span(r.addr, size);
      k := k + 1;
    }
    PlaceIsFirstFit(reqs, r, k, size, seg);
  }

  /** One lane joins the first transaction it does not conflict with. */
  method Join(w: WarpInst, t: map<nat, seq<Info>>, ghost before: seq<Request>, r: Request)
    returns (t': map<nat, seq<Info>>)
    requires IsDataSize(w.dataSize) && !w.isLocal && InOneSegment(r.addr, w.dataSize, w.Segment())
    requires Listed(t, before, w.dataSize, w.Segment())
    ensures Listed(t', before + [r], w.dataSize, w.Segment())
  {
    hide Listed, ListOk, Tag, Place, Add;
    var seg := w.Segment();
    var tag := Tag(r.addr, seg);
    assert tag == Tag(r.addr + w.dataSize - 1, seg);
    var list := List(t, tag);
    ListIsOk(t, before, tag, w.dataSize, seg);
    var k := FirstFit(list, before, r, w.dataSize, seg);
    if k == |list| {
      list := list + [EMPTY];
    }
    assert list[k].bytes !! Span(r.addr, w.dataSize);
    var info := w.Record(list[k], r);
    ListOne(t, before, r, w.dataSize, seg);
    assert list[k := info] == Placed(List(t, tag), k, r, w.dataSize);
    t' := t[tag := list[k := info]];
  }

  method FindTransactions(w: WarpInst, lo: nat, hi: nat) returns (t: map<nat, seq<Info>>)
    requires w.Valid() && !w.isLocal && lo <= hi <= w.warpSize
    ensures Listed(t, w.Requests(lo, hi), w.dataSize, w.Segment())
  {
    hide Listed, Tag;
    var seg := w.Segment();
    t := map[];
    EmptyListed(w.dataSize, seg);
    var lane := lo;
    while lane < hi
      invariant lo <= lane <= hi && Listed(t, w.Requests(lo, lane), w.dataSize, seg)
    {
      if lane in w.active {
        assert w.LaneOk(lane);
        var r := Request(lane, w.addrs[lane][0]);
        assert w.LaneRequests(lane, 1) == [r];
        assert w.Requests(lo, lane + 1) == w.Requests(lo, lane) + [r];
        assert InOneSegment(r.addr, w.dataSize, seg);
        t := Join(w, t, w.Requests(lo, lane), r);
      } else {
        assert w.Requests(lo, lane + 1) == w.Requests(lo, lane);
      }
      lane := lane + 1;
    }
  }

  lemma {:induction false} EmptyListed(size: nat, seg: nat)
    requires IsSegment(seg)
    ensures Listed(map[], [], size, seg)
  {
  }

  /** What one segment sends: its transactions in the order of their places. */
  ghost predicate ListSent(part: seq<MemAccess>, reqs: seq<Request>, tag: nat, size: nat, seg: nat)
    requires IsSegment(seg)
  {
    && (forall k: nat :: k < |part| <==> Group(reqs, tag, k, size, seg) != {})
    && forall k: nat :: k < |part| ==> Sends(part[k], reqs, Group(reqs, tag, k, size, seg), size, seg, tag)
  }

  /** The segments `done` have sent their transactions, in ascending order. */
  ghost predicate SegmentsSent(sent: seq<seq<MemAccess>>, tags: seq<nat>, done: set<nat>, reqs: seq<Request>,
                               size: nat, seg: nat)
    requires IsSegment(seg)
  {
    && |sent| == |tags| && Elements(tags) == done
    && (forall j, k :: 0 <= j < k < |tags| ==> tags[j] < tags[k])
    && forall n :: 0 <= n < |sent| ==> ListSent(sent[n], reqs, tags[n], size, seg)
  }

  lemma {:induction false} OneMoreSegment(sent: seq<seq<MemAccess>>, tags: seq<nat>, done: set<nat>, reqs: seq<Request>,
                                          size: nat, seg: nat, part: seq<MemAccess>, tag: nat)
    requires IsSegment(seg) && SegmentsSent(sent, tags, done, reqs, size, seg) && ListSent(part, reqs, tag, size, seg)
    requires forall x :: x in done ==> x < tag
    ensures SegmentsSent(sent + [part], tags + [tag], done + {tag}, reqs, size, seg)
  {
    hide ListSent;
    assert Elements(tags + [tag]) == Elements(tags) + {tag};
    assert forall j :: 0 <= j < |tags| ==> tags[j] in Elements(tags);
  }

  ghost predicate AtomicCoalesced(sent: seq<seq<MemAccess>>, tags: seq<nat>, reqs: seq<Request>, size: nat, seg: nat)
    requires IsSegment(seg)
  {
    SegmentsSent(sent, tags, Tags(reqs, seg), reqs, size, seg)
  }

  method SendList(w: WarpInst, list: seq<Info>, tag: nat, ghost reqs: seq<Request>) returns (ghost part: seq<MemAccess>)
    requires IsDataSize(w.dataSize) && ListOk(list, reqs, tag, w.dataSize, w.Segment())
    modifies w`accessq
    ensures w.accessq == old(w.accessq) + part && ListSent(part, reqs, tag, w.dataSize, w.Segment())
  {
    hide IsTightest, Tag, Place;
    var seg := w.Segment();
    part := [];
    var k := 0;
    while k < |list|
      invariant 0 <= k == |part| <= |list| && w.accessq == old(w.accessq) + part
      invariant forall j: nat :: j < k ==>
                  Sends(part[j], reqs, Group(reqs, tag, j, w.dataSize, seg), w.dataSize, seg, tag)
    {
      ChunksOfTouching(reqs, Group(reqs, tag, k, w.dataSize, seg), w.dataSize, seg, tag);
      var m := Reduce(list[k], tag, seg);
      w.accessq := w.accessq + [m];
      part := part + [m];
      k := k + 1;
    }
  }

  method Send(w: WarpInst, t: map<nat, seq<Info>>, ghost reqs: seq<Request>)
    returns (ghost sent: seq<seq<MemAccess>>, ghost tags: seq<nat>)
    requires IsDataSize(w.dataSize) && Listed(t, reqs, w.dataSize, w.Segment())
    modifies w`accessq
    ensures w.accessq == old(w.accessq) + Concat(sent)
    ensures AtomicCoalesced(sent, tags, reqs, w.dataSize, w.Segment())
  {
    hide ListOk, ListSent, Tag, Concat;
    ConcatOne([], []);
    var todo := t.Keys;
    sent, tags := [], [];
    assert SegmentsSent(sent, tags, {}, reqs, w.dataSize, w.Segment());
    hide SegmentsSent;
    while todo != {}
      invariant todo <= t.Keys && w.accessq == old(w.accessq) + Concat(sent)
      invariant SegmentsSent(sent, tags, t.Keys - todo, reqs, w.dataSize, w.Segment())
      invariant forall x, y :: x in t.Keys - todo && y in todo ==> x < y
      decreases todo
    {
      var tag := Smallest(todo);
      ghost var part := SendList(w, t[tag], tag, reqs);
      ConcatOne(sent, part);
      OneMoreSegment(sent, tags, t.Keys - todo, reqs, w.dataSize, w.Segment(), part, tag);
      assert t.Keys - (todo - {tag}) == t.Keys - todo + {tag};
      sent, tags := sent + [part], tags + [tag];
      todo := todo - {tag};
    }
    assert t.Keys - todo == t.Keys;
  }

  lemma {:induction false} ConcatOne(parts: seq<seq<MemAccess>>, part: seq<MemAccess>)
    ensures Concat([]) == []
    ensures Concat(parts + [part]) == Concat(parts) + part
  {
    assert (parts + [part])[..|parts|] == parts;
  }

  /** Everything the subwarps sent, in order. */
  function Sum(sent: seq<seq<seq<MemAccess>>>): seq<MemAccess> {
    if sent == [] then [] else Sum(sent[..|sent| - 1]) + Concat(sent[|sent| - 1])
  }

  ghost predicate SubwarpSent(w: WarpInst, p: nat, sent: seq<seq<MemAccess>>, tags: seq<nat>)
    requires w.Valid()
  {
    && w.Start(p, 2) <= w.Start(p + 1, 2) <= w.warpSize
    && AtomicCoalesced(sent, tags, w.Requests(w.Start(p, 2), w.Start(p + 1, 2)), w.dataSize, w.Segment())
    && OncePerLane(w.Requests(w.Start(p, 2), w.Start(p + 1, 2)))
  }

  /** Atomics always go in two halves of the warp. */
  method Coalesce(w: WarpInst)
    returns (ghost sent: seq<seq<seq<MemAccess>>>, ghost tags: seq<seq<nat>>)
    requires w.Valid() && !w.isLocal
    modifies w`accessq
    ensures |sent| == |tags| == 2 && w.accessq == old(w.accessq) + Sum(sent)
    ensures forall p :: 0 <= p < 2 ==> SubwarpSent(w, p, sent[p], tags[p])
  {
    hide Listed, AtomicCoalesced, OncePerLane, Concat, Tag;
    sent, tags := [], [];
    var p := 0;
    while p < 2
      invariant 0 <= p <= 2 && |sent| == |tags| == p
      invariant w.accessq == old(w.accessq) + Sum(sent)
      invariant forall q :: 0 <= q < p ==> SubwarpSent(w, q, sent[q], tags[q])
    {
      w.SubwarpInWarp(p, 2);
      RequestsComeOnce(w, w.Start(p, 2), w.Start(p + 1, 2));
      var t := FindTransactions(w, w.Start(p, 2), w.Start(p + 1, 2));
      ghost var part, own := Send(w, t, w.Requests(w.Start(p, 2), w.Start(p + 1, 2)));
      assert (sent + [part])[..|sent|] == sent;
      sent, tags := sent + [part], tags + [own];
      p := p + 1;
    }
  }

  /** The lanes of the requests ascend: no lane asks twice. */
  ghost predicate OncePerLane(reqs: seq<Request>) {
    forall i, j :: 0 <= i < j < |reqs| ==> reqs[i].lane < reqs[j].lane
  }

  lemma {:induction false} OneMoreLane(reqs: seq<Request>, r: Request)
    requires OncePerLane(reqs) && forall s :: s in reqs ==> s.lane < r.lane
    ensures OncePerLane(reqs + [r]) && forall s :: s in reqs + [r] ==> s.lane <= r.lane
  {
  }

  lemma {:induction false} RequestsComeOnce(w: WarpInst, lo: nat, hi: nat)
    requires w.Valid() && !w.isLocal && hi <= w.warpSize
    ensures OncePerLane(w.Requests(lo, hi)) && forall r :: r in w.Requests(lo, hi) ==> r.lane < hi
    decreases hi
  {
    if lo < hi {
      var rest := w.Requests(lo, hi - 1);
      RequestsComeOnce(w, lo, hi - 1);
      if hi - 1 in w.active {
        assert w.LaneOk(hi - 1);
        var r := Request(hi - 1, w.addrs[hi - 1][0]);
        assert w.LaneRequests(hi - 1, 1) == [r];
        OneMoreLane(rest, r);
        assert w.Requests(lo, hi) == rest + [r];
      } else {
        assert w.Requests(lo, hi) == rest;
      }
    }
  }

  // ----- what the transactions are worth

  /** Each lane is served by one transaction only: the one of its segment at its
      place. */
  lemma {:induction false} ServedByPlace(sent: seq<seq<MemAccess>>, tags: seq<nat>, reqs: seq<Request>, size: nat,
                                         seg: nat, i: nat)
    returns (n: nat)
    requires IsSegment(seg) && AtomicCoalesced(sent, tags, reqs, size, seg) && OncePerLane(reqs) && i < |reqs|
    ensures n < |sent| && tags[n] == Tag(reqs[i].addr, seg) && Place(reqs, i, size, seg) < |sent[n]|
    ensures var k := Place(reqs, i, size, seg);
            var m, group := sent[n][k], Group(reqs, tags[n], k, size, seg);
            && i in group && Sends(m, reqs, group, size, seg, tags[n])
            && reqs[i].lane in m.lanes && Span(reqs[i].addr, size) <= m.bytes
    ensures forall n', k' :: 0 <= n' < |sent| && 0 <= k' < |sent[n']| && reqs[i].lane in sent[n'][k'].lanes ==>
              n' == n && k' == Place(reqs, i, size, seg)
  {
    hide Place, Tag, IsTightest;
    var tag, k := Tag(reqs[i].addr, seg), Place(reqs, i, size, seg);
    assert tag in Elements(tags);
    n :| n < |tags| && tags[n] == tag;
    var group := Group(reqs, tag, k, size, seg);
    assert ListSent(sent[n], reqs, tag, size, seg) && i in group;
    assert Sends(sent[n][k], reqs, group, size, seg, tag);
    forall n', k' | 0 <= n' < |sent| && 0 <= k' < |sent[n']| && reqs[i].lane in sent[n'][k'].lanes
      ensures n' == n && k' == k
    {
      assert ListSent(sent[n'], reqs, tags[n'], size, seg);
      InGroupOnly(sent[n'][k'], reqs, Group(reqs, tags[n'], k', size, seg), size, seg, tags[n'], i);
    }
  }

  /** When the block of that transaction covers the access. */
  lemma {:induction false} ServedIsCoveredIff(sent: seq<seq<MemAccess>>, tags: seq<nat>, reqs: seq<Request>,
                                              size: nat, seg: nat, i: nat)
    returns (n: nat)
    requires IsSegment(seg) && AtomicCoalesced(sent, tags, reqs, size, seg) && OncePerLane(reqs) && i < |reqs|
    requires IsDataSize(size) && InOneSegment(reqs[i].addr, size, seg) && reqs[i].addr + size <= TAG_LIMIT
    ensures var k := Place(reqs, i, size, seg);
            && n < |sent| && k < |sent[n]| && reqs[i].lane in sent[n][k].lanes
            && var chunks := InfoOf(reqs, Group(reqs, tags[n], k, size, seg), size).chunks;
               Covers(sent[n][k], reqs[i].addr, size) <==>
                 reqs[i].addr % 32 + size <= 32 || ReachesNext(chunks, Chunk(reqs[i].addr))
  {
    hide Place, Tag, IsTightest, Covers, InfoOf, ReachesNext;
    n := ServedByPlace(sent, tags, reqs, size, seg, i);
    var k := Place(reqs, i, size, seg);
    AccessIsCoveredIff(sent[n][k], reqs, Group(reqs, tags[n], k, size, seg), size, seg, tags[n], i);
  }

  lemma {:induction false} InGroupOnly(m: MemAccess, reqs: seq<Request>, group: set<nat>, size: nat, seg: nat,
                                       tag: nat, i: nat)
    requires IsSegment(seg) && AreIndices(reqs, group) && Sends(m, reqs, group, size, seg, tag)
    requires OncePerLane(reqs) && i < |reqs| && reqs[i].lane in m.lanes
    ensures i in group
  {
    hide IsTightest;
    var j :| j in group && reqs[j].lane == reqs[i].lane;
    assert i == j;
  }

  /** The covered lanes of an aligned subwarp: all whose address fits in a tag. */
  lemma {:induction false} AlignedIsCovered(sent: seq<seq<MemAccess>>, tags: seq<nat>, reqs: seq<Request>, size: nat,
                                            seg: nat, i: nat)
    returns (n: nat)
    requires IsSegment(seg) && AtomicCoalesced(sent, tags, reqs, size, seg) && OncePerLane(reqs)
    requires Aligned(reqs, size) && i < |reqs|
    ensures n < |sent| && Rank(reqs, i, seg) < |sent[n]| && reqs[i].lane in sent[n][Rank(reqs, i, seg)].lanes
    ensures Covers(sent[n][Rank(reqs, i, seg)], reqs[i].addr, size) <==> reqs[i].addr < TAG_LIMIT
  {
    hide Place, Rank, Tag;
    n := ServedByPlace(sent, tags, reqs, size, seg, i);
    PlaceIsRank(reqs, i, size, seg);
    AlignedStaysInChunk(reqs[i].addr, size);
    var group := Group(reqs, tags[n], Place(reqs, i, size, seg), size, seg);
    ReachesGroup(sent[n][Place(reqs, i, size, seg)], reqs, group, size, seg, tags[n], i);
  }

  /** No byte is touched by two lanes of one transaction, and a lane passes only
      transactions in which an earlier lane has one of its bytes. */
  lemma {:induction false} LanesDoNotConflict(reqs: seq<Request>, size: nat, seg: nat, i: nat)
    requires IsSegment(seg) && i < |reqs|
    ensures forall j: nat :: j < i && Place(reqs, j, size, seg) == Place(reqs, i, size, seg) ==>
              !Clash(reqs[j], reqs[i], size, seg)
    ensures forall k: nat :: k < Place(reqs, i, size, seg) ==> Taken(reqs[..i], reqs[i], k, size, seg)
  {
    var before := reqs[..i];
    assert reqs[..i + 1] == before + [reqs[i]];
    PlaceInPrefix(reqs[..i + 1], reqs, i, size, seg);
    PlaceIsFirstFit(before, reqs[i], Place(reqs, i, size, seg), size, seg);
    forall j: nat | j < i ensures before[j] == reqs[j] && Place(reqs, j, size, seg) == Place(before, j, size, seg) {
      PlaceInPrefix(before, reqs, j, size, seg);
    }
    hide Place, Clash;
  }

  // ----- aligned lanes: how often a word is touched

  ghost predicate OnWord(r: Request, tag: nat, idx: nat, seg: nat)
    requires IsSegment(seg)
  {
    Tag(r.addr, seg) == tag && r.addr % 128 == idx
  }

  ghost function Users(reqs: seq<Request>, tag: nat, idx: nat, seg: nat): set<nat>
    requires IsSegment(seg)
  {
    set i: nat | i < |reqs| && OnWord(reqs[i], tag, idx, seg)
  }

  /** How many earlier requests touch the same word. */
  ghost function Rank(reqs: seq<Request>, i: nat, seg: nat): nat
    requires IsSegment(seg) && i < |reqs|
  {
    |Users(reqs[..i], Tag(reqs[i].addr, seg), reqs[i].addr % 128, seg)|
  }

  lemma {:induction false} RankStays(reqs: seq<Request>, r: Request, i: nat, seg: nat)
    requires IsSegment(seg) && i < |reqs|
    ensures Rank(reqs + [r], i, seg) == Rank(reqs, i, seg)
  {
    assert (reqs + [r])[..i] == reqs[..i] && (reqs + [r])[i] == reqs[i];
  }

  lemma {:induction false} UsersOfAdd(reqs: seq<Request>, r: Request, tag: nat, idx: nat, seg: nat)
    requires IsSegment(seg)
    ensures Users(reqs + [r], tag, idx, seg) ==
            Users(reqs, tag, idx, seg) + (if OnWord(r, tag, idx, seg) then {|reqs|} else {})
  {
    var more := reqs + [r];
    assert forall i: nat :: i < |reqs| ==> more[i] == reqs[i];
    assert more[|reqs|] == r;
  }

  lemma {:induction false} RankOfLast(reqs: seq<Request>, r: Request, seg: nat)
    requires IsSegment(seg)
    ensures Rank(reqs + [r], |reqs|, seg) == |Users(reqs, Tag(r.addr, seg), r.addr % 128, seg)|
  {
    assert (reqs + [r])[..|reqs|] == reqs;
  }

  /** The ranks of the requests on one word are 0, 1, 2, ... without a gap. */
  lemma {:induction false} RanksAreDense(reqs: seq<Request>, tag: nat, idx: nat, seg: nat, k: nat)
    requires IsSegment(seg)
    ensures k < |Users(reqs, tag, idx, seg)| <==>
            exists i: nat :: i < |reqs| && OnWord(reqs[i], tag, idx, seg) && Rank(reqs, i, seg) == k
  {
    if reqs == [] {
      assert Users(reqs, tag, idx, seg) == {};
    } else {
      var rest, r := reqs[..|reqs| - 1], reqs[|reqs| - 1];
      assert reqs == rest + [r];
      UsersCount(rest, r, tag, idx, seg);
      RankOfLast(rest, r, seg);
      assert OnWord(r, tag, idx, seg) ==> Tag(r.addr, seg) == tag && r.addr % 128 == idx;
      hide Rank, Users, OnWord, Tag;
      RanksAreDense(rest, tag, idx, seg, k);
      forall i: nat | i < |rest| ensures rest[i] == reqs[i] && Rank(rest, i, seg) == Rank(reqs, i, seg) {
        RankStays(rest, r, i, seg);
      }
    }
  }

  lemma {:induction false} UsersCount(reqs: seq<Request>, r: Request, tag: nat, idx: nat, seg: nat)
    requires IsSegment(seg)
    ensures |Users(reqs + [r], tag, idx, seg)| ==
            |Users(reqs, tag, idx, seg)| + (if OnWord(r, tag, idx, seg) then 1 else 0)
  {
    UsersOfAdd(reqs, r, tag, idx, seg);
    assert |reqs| !in Users(reqs, tag, idx, seg);
  }

  lemma {:induction false} AlignedSpans(a: nat, b: nat, size: nat)
    requires IsDataSize(size) && a % size == 0 && b % size == 0
    ensures Span(a, size) !! Span(b, size) <==> a % 128 != b % 128
  {
    AlignedStaysInChunk(a, size);
    AlignedStaysInChunk(b, size);
    MultiplesAreApart(a % 128, b % 128, size);
    if a % 128 == b % 128 {
      assert a % 128 in Span(a, size) && a % 128 in Span(b, size);
    }
  }

  lemma {:induction false} MultiplesAreApart(x: nat, y: nat, size: nat)
    requires IsDataSize(size) && x % size == 0 && y % size == 0
    ensures x == y || x + size <= y || y + size <= x
  {
    if size == 2 {
      ApartBy2(x, y);
    } else if size == 4 {
      ApartBy4(x, y);
    } else if size == 8 {
      ApartBy8(x, y);
    } else if size == 16 {
      ApartBy16(x, y);
    }
  }

  lemma {:induction false} ApartBy2(x: nat, y: nat)
    requires x % 2 == 0 && y % 2 == 0
    ensures x == y || x + 2 <= y || y + 2 <= x
  {
  }

  lemma {:induction false} ApartBy4(x: nat, y: nat)
    requires x % 4 == 0 && y % 4 == 0
    ensures x == y || x + 4 <= y || y + 4 <= x
  {
  }

  lemma {:induction false} ApartBy8(x: nat, y: nat)
    requires x % 8 == 0 && y % 8 == 0
    ensures x == y || x + 8 <= y || y + 8 <= x
  {
  }

  lemma {:induction false} ApartBy16(x: nat, y: nat)
    requires x % 16 == 0 && y % 16 == 0
    ensures x == y || x + 16 <= y || y + 16 <= x
  {
  }

  /** Aligned lanes have bytes in common only on one word, so that the place of a
      lane is the number of earlier lanes on its word. */
  lemma {:induction false} PlaceIsRank(reqs: seq<Request>, i: nat, size: nat, seg: nat)
    requires IsSegment(seg) && Aligned(reqs, size) && i < |reqs|
    ensures Place(reqs, i, size, seg) == Rank(reqs, i, seg)
    decreases i
  {
    var before, r := reqs[..i], reqs[i];
    var tag, idx := Tag(r.addr, seg), r.addr % 128;
    var n, used := Rank(reqs, i, seg), UsedBefore(reqs, i, size, seg);
    assert n == |Users(before, tag, idx, seg)| && Place(reqs, i, size, seg) == FirstFree(used, 0);
    hide Rank, Users, Tag, Clash, Place, OnWord;
    forall j: nat | j < i
      ensures Clash(reqs[j], r, size, seg) <==> OnWord(before[j], tag, idx, seg)
      ensures Place(reqs, j, size, seg) == Rank(before, j, seg)
    {
      AlignedClash(reqs[j], r, size, seg);
      PlaceIsRank(reqs, j, size, seg);
      RankInPrefix(reqs, i, j, seg);
    }
    forall k: nat ensures k in used <==> k < n {
      RanksAreDense(before, tag, idx, seg, k);
    }
    FirstFreeBehind(used, n);
  }

  lemma {:induction false} FirstFreeBehind(used: set<nat>, n: nat)
    requires forall k: nat :: k in used <==> k < n
    ensures FirstFree(used, 0) == n
  {
    assert n !in used && FirstFree(used, 0) !in used;
  }

  lemma {:induction false} RankInPrefix(reqs: seq<Request>, n: nat, i: nat, seg: nat)
    requires IsSegment(seg) && i < n <= |reqs|
    ensures Rank(reqs[..n], i, seg) == Rank(reqs, i, seg)
  {
    var part := reqs[..n];
    assert part[..i] == reqs[..i] && part[i] == reqs[i];
  }

  lemma {:induction false} AlignedClash(r: Request, s: Request, size: nat, seg: nat)
    requires IsSegment(seg) && IsDataSize(size) && r.addr % size == 0 && s.addr % size == 0
    ensures Clash(r, s, size, seg) <==> OnWord(r, Tag(s.addr, seg), s.addr % 128, seg)
  {
    AlignedSpans(r.addr, s.addr, size);
  }

  /** Lanes on one word are served in their own order. */
  lemma {:induction false} WordKeepsOrder(reqs: seq<Request>, size: nat, seg: nat, i: nat, j: nat)
    requires IsSegment(seg) && Aligned(reqs, size) && i < j < |reqs|
    requires Tag(reqs[i].addr, seg) == Tag(reqs[j].addr, seg) && reqs[i].addr % 128 == reqs[j].addr % 128
    ensures Place(reqs, i, size, seg) < Place(reqs, j, size, seg)
  {
    hide Tag, Place;
    PlaceIsRank(reqs, i, size, seg);
    PlaceIsRank(reqs, j, size, seg);
    var tag, idx := Tag(reqs[i].addr, seg), reqs[i].addr % 128;
    var before, after := Users(reqs[..i], tag, idx, seg), Users(reqs[..j], tag, idx, seg);
    assert before + {i} <= after;
    SubsetIsSmaller(before + {i}, after);
  }

  /** Lanes on one word are in different transactions. */
  ghost predicate ConflictFree(reqs: seq<Request>, seg: nat, choice: nat -> nat)
    requires IsSegment(seg)
  {
    forall i: nat, j: nat ::
      i < j < |reqs| && Tag(reqs[i].addr, seg) == Tag(reqs[j].addr, seg) && reqs[i].addr % 128 == reqs[j].addr % 128 ==>
        choice(i) != choice(j)
  }

  /** A segment sends as many transactions as there are lanes on its busiest word,
      and no assignment of lanes to transactions without conflicts needs fewer. */
  lemma {:induction false} FirstFitIsOptimal(part: seq<MemAccess>, reqs: seq<Request>, tag: nat, size: nat,
                                             seg: nat, choice: nat -> nat)
    returns (busiest: nat)
    requires IsSegment(seg) && ListSent(part, reqs, tag, size, seg) && tag in Tags(reqs, seg) && Aligned(reqs, size)
    ensures |Users(reqs, tag, busiest, seg)| == |part| && forall idx :: |Users(reqs, tag, idx, seg)| <= |part|
    ensures ConflictFree(reqs, seg, choice) ==> |part| <= |set i | i in Touching(reqs, tag, seg) :: choice(i)|
  {
    forall idx ensures |Users(reqs, tag, idx, seg)| <= |part| {
      UsersBelow(part, reqs, tag, idx, size, seg);
    }
    busiest := BusiestWord(part, reqs, tag, size, seg);
    if ConflictFree(reqs, seg, choice) {
      var users := Users(reqs, tag, busiest, seg);
      var used := set i | i in users :: choice(i);
      DifferentChoices(users, choice);
      SubsetIsSmaller(used, set i | i in Touching(reqs, tag, seg) :: choice(i));
    }
  }

  lemma {:induction false} UsersBelow(part: seq<MemAccess>, reqs: seq<Request>, tag: nat, idx: nat, size: nat, seg: nat)
    requires IsSegment(seg) && ListSent(part, reqs, tag, size, seg) && Aligned(reqs, size)
    ensures |Users(reqs, tag, idx, seg)| <= |part|
  {
    hide Place, Rank, Users, Tag;
    var n := |Users(reqs, tag, idx, seg)|;
    if n > 0 {
      RanksAreDense(reqs, tag, idx, seg, n - 1);
      var i: nat :| i < |reqs| && OnWord(reqs[i], tag, idx, seg) && Rank(reqs, i, seg) == n - 1;
      PlaceIsRank(reqs, i, size, seg);
      assert i in Group(reqs, tag, n - 1, size, seg);
    }
  }

  lemma {:induction false} BusiestWord(part: seq<MemAccess>, reqs: seq<Request>, tag: nat, size: nat,
                                       seg: nat) returns (idx: nat)
    requires IsSegment(seg) && ListSent(part, reqs, tag, size, seg) && tag in Tags(reqs, seg) && Aligned(reqs, size)
    ensures |Users(reqs, tag, idx, seg)| == |part|
  {
    hide Place, Rank, Users, Tag;
    var i: nat :| i < |reqs| && Tag(reqs[i].addr, seg) == tag;
    assert i in Group(reqs, tag, Place(reqs, i, size, seg), size, seg);
    var k := |part| - 1;
    assert Group(reqs, tag, k, size, seg) != {};
    var j :| j in Group(reqs, tag, k, size, seg);
    PlaceIsRank(reqs, j, size, seg);
    idx := reqs[j].addr % 128;
    assert OnWord(reqs[j], tag, idx, seg);
    RanksAreDense(reqs, tag, idx, seg, k);
    UsersBelow(part, reqs, tag, idx, size, seg);
  }

  lemma {:induction false} DifferentChoices(group: set<nat>, choice: nat -> nat)
    requires forall i, j :: i in group && j in group && i != j ==> choice(i) != choice(j)
    ensures |set i | i in group :: choice(i)| == |group|
    decreases group
  {
    if group != {} {
      var i :| i in group;
      var rest := group - {i};
      DifferentChoices(rest, choice);
      var image := set j | j in rest :: choice(j);
      assert (set j | j in group :: choice(j)) == image + {choice(i)};
      assert choice(i) !in image;
    }
  }

  // ----- lanes that are not aligned

  /** Four lanes that overlap like the links of a chain, the middle ones last. */
  const CHAIN := [Request(0, 0), Request(1, 7), Request(2, 3), Request(3, 4)]

  lemma {:induction false} ClashInFirstBlock(r: Request, s: Request)
    requires r.addr <= 124 && s.addr <= 124
    ensures Clash(r, s, 4, 128) <==> -4 < r.addr - s.addr < 4
  {
    TagOfSmall(r.addr, 128);
    TagOfSmall(s.addr, 128);
    var x := if r.addr < s.addr then s.addr else r.addr;
    assert x in Span(r.addr, 4) && x in Span(s.addr, 4) <==> -4 < r.addr - s.addr < 4;
  }

  lemma {:induction false} ChainClashes()
    ensures forall i: nat, j: nat :: i < j < 4 ==>
              (Clash(CHAIN[i], CHAIN[j], 4, 128) <==> (i == 0 && j == 2) || (i == 1 && j == 3) || (i == 2 && j == 3))
  {
    forall i: nat, j: nat | i < j < 4
      ensures Clash(CHAIN[i], CHAIN[j], 4, 128) <==> (i == 0 && j == 2) || (i == 1 && j == 3) || (i == 2 && j == 3)
    {
      ClashInFirstBlock(CHAIN[i], CHAIN[j]);
    }
  }

  lemma {:induction false} ChainPlaces()
    ensures Place(CHAIN, 0, 4, 128) == 0 && Place(CHAIN, 1, 4, 128) == 0
    ensures Place(CHAIN, 2, 4, 128) == 1 && Place(CHAIN, 3, 4, 128) == 2
  {
    ChainClashes();
    hide Clash;
    assert UsedBefore(CHAIN, 0, 4, 128) == {} && UsedBefore(CHAIN, 1, 4, 128) == {};
    FirstFreeBehind({}, 0);
    assert UsedBefore(CHAIN, 2, 4, 128) == {Place(CHAIN, 0, 4, 128)};
    FirstFreeBehind({0}, 1);
    assert UsedBefore(CHAIN, 3, 4, 128) == {Place(CHAIN, 1, 4, 128), Place(CHAIN, 2, 4, 128)};
    FirstFreeBehind({0, 1}, 2);
  }

  /** Without alignment first fit can send more transactions than needed: three for
      these lanes, although two would do. */
  lemma {:induction false} FirstFitCanBeWorse() returns (choice: nat -> nat)
    ensures forall i :: 0 <= i < |CHAIN| ==> InOneSegment(CHAIN[i].addr, 4, 128)
    ensures Place(CHAIN, 3, 4, 128) == 2 && forall i :: choice(i) < 2
    ensures forall i: nat, j: nat :: i < j < |CHAIN| && Clash(CHAIN[i], CHAIN[j], 4, 128) ==> choice(i) != choice(j)
  {
    hide Clash, Place, InOneSegment;
    choice := i => if i == 0 || i == 3 then 0 else 1;
    ChainClashes();
    ChainPlaces();
    forall i | 0 <= i < |CHAIN| ensures InOneSegment(CHAIN[i].addr, 4, 128) {
      InFirstBlock(CHAIN[i].addr);
    }
  }

  lemma {:induction false} InFirstBlock(addr: nat)
    requires addr <= 124
    ensures InOneSegment(addr, 4, 128)
  {
    TagOfSmall(addr, 128);
    TagOfSmall(addr + 3, 128);
  }
}

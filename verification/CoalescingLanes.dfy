/** From the lanes of a warp to its transactions: every piece of every active lane is
    asked for once, in one subwarp, and served by a transaction in the queue. */
module CoalescingLanes {
  import opened Helpers
  import opened Coalescing
  import opened CoalescingProperties
  import Atomic = CoalescingAtomic

  // ----- the requests of a warp

  /** The pieces of an access make up the whole of it. */
  lemma {:induction false} PiecesMakeAccess(w: WarpInst)
    requires IsDataSize(w.dataSize)
    ensures w.Count() * w.Size() == w.dataSize && IsDataSize(w.Size())
    ensures w.Count() > 1 ==> w.isLocal && w.Size() == 4
  {
  }

  /** The active lanes `lo` up to `hi`. */
  ghost function ActiveLanes(w: WarpInst, lo: nat, hi: nat): set<nat> {
    set lane: nat | lo <= lane < hi && lane in w.active
  }

  lemma {:induction false} ActiveLast(w: WarpInst, lo: nat, hi: nat)
    requires lo < hi
    ensures |ActiveLanes(w, lo, hi)| == |ActiveLanes(w, lo, hi - 1)| + (if hi - 1 in w.active then 1 else 0)
  {
    var rest := ActiveLanes(w, lo, hi - 1);
    assert hi - 1 !in rest;
    assert ActiveLanes(w, lo, hi) == if hi - 1 in w.active then rest + {hi - 1} else rest;
  }

  lemma {:induction false} LaneRequestsAre(w: WarpInst, lane: nat, m: nat)
    requires lane < |w.addrs| && m <= |w.addrs[lane]|
    ensures |w.LaneRequests(lane, m)| == m
    ensures forall n :: 0 <= n < m ==> w.LaneRequests(lane, m)[n] == Request(lane, w.addrs[lane][n])
  {
    if m > 0 {
      LaneRequestsAre(w, lane, m - 1);
    }
  }

  /** Where the request for piece `n` of a lane is found. */
  ghost function PlaceOf(w: WarpInst, lo: nat, lane: nat, n: nat): nat {
    |ActiveLanes(w, lo, lane)| * w.Count() + n
  }

  /** One request for each piece of each active lane, in the order of the lanes and of
      the pieces, and no other. */
  ghost predicate IsExact(w: WarpInst, lo: nat, hi: nat, reqs: seq<Request>)
    requires |w.addrs| == w.warpSize
  {
    && |reqs| == PlaceOf(w, lo, hi, 0)
    && forall lane, n :: lane in ActiveLanes(w, lo, hi) && lane < w.warpSize && 0 <= n < w.Count() ==>
         RequestedAt(w, lane, n, reqs, PlaceOf(w, lo, lane, n))
  }

  ghost predicate RequestedAt(w: WarpInst, lane: nat, n: nat, reqs: seq<Request>, i: nat)
    requires lane < |w.addrs|
  {
    n < |w.addrs[lane]| && i < |reqs| && reqs[i] == Request(lane, w.addrs[lane][n])
  }

  lemma {:induction false} RequestsAreExact(w: WarpInst, lo: nat, hi: nat)
    requires w.Valid() && lo <= hi <= w.warpSize
    ensures IsExact(w, lo, hi, w.Requests(lo, hi))
    decreases hi
  {
    if lo == hi {
      assert ActiveLanes(w, lo, hi) == {};
    } else {
      var last := hi - 1;
      RequestsAreExact(w, lo, last);
      var own := if last in w.active then w.LaneRequests(last, w.Count()) else [];
      if last in w.active {
        assert w.LaneOk(last);
        LaneRequestsAre(w, last, w.Count());
      }
      assert w.Requests(lo, hi) == w.Requests(lo, last) + own;
      OneMoreExact(w, lo, hi, w.Requests(lo, last), own);
    }
  }

  lemma {:induction false} OneMoreExact(w: WarpInst, lo: nat, hi: nat, rest: seq<Request>, own: seq<Request>)
    requires |w.addrs| == w.warpSize && lo < hi <= w.warpSize && IsExact(w, lo, hi - 1, rest)
    requires hi - 1 !in w.active ==> own == []
    requires hi - 1 in w.active ==> |own| == w.Count() <= |w.addrs[hi - 1]|
    requires hi - 1 in w.active ==> forall n :: 0 <= n < |own| ==> own[n] == Request(hi - 1, w.addrs[hi - 1][n])
    ensures IsExact(w, lo, hi, rest + own)
  {
    var last := hi - 1;
    ActiveLast(w, lo, hi);
    OneMoreTimes(|ActiveLanes(w, lo, last)|, w.Count());
    assert |rest + own| == PlaceOf(w, lo, hi, 0);
    forall lane, n | lane in ActiveLanes(w, lo, hi) && lane < w.warpSize && 0 <= n < w.Count()
      ensures RequestedAt(w, lane, n, rest + own, PlaceOf(w, lo, lane, n))
    {
      if lane < last {
        assert lane in ActiveLanes(w, lo, last);
        assert RequestedAt(w, lane, n, rest, PlaceOf(w, lo, lane, n));
      } else {
        assert PlaceOf(w, lo, lane, n) == |rest| + n;
        assert (rest + own)[|rest| + n] == own[n];
      }
    }
  }

  lemma {:induction false} OneMoreTimes(n: nat, m: nat)
    ensures (n + 1) * m == n * m + m
  {
  }

  // ----- subwarps

  /** The subwarps divide the lanes, up to the last whole one, into equal parts. */
  lemma {:induction false} SubwarpOfLane(w: WarpInst, parts: nat, lane: nat) returns (p: nat)
    requires parts > 0 && lane < parts * (w.warpSize / parts)
    ensures p < parts && w.Start(p, parts) <= lane < w.Start(p + 1, parts) <= w.warpSize
    ensures forall q: nat :: w.Start(q, parts) <= lane < w.Start(q + 1, parts) ==> q == p
    ensures w.Start(0, parts) == 0 && w.Start(p + 1, parts) == w.Start(p, parts) + w.warpSize / parts
  {
    var n := w.warpSize / parts;
    p := LaneShare(lane, parts, n);
    w.SubwarpInWarp(p, parts);
    OneMoreTimes(p, n);
    forall q: nat | w.Start(q, parts) <= lane < w.Start(q + 1, parts) ensures q == p {
      OnlyShare(lane, n, p, q);
    }
  }

  lemma {:induction false} LaneShare(lane: nat, parts: nat, n: nat) returns (p: nat)
    requires lane < parts * n
    ensures p < parts && p * n <= lane < (p + 1) * n
  {
    ShareIsPositive(lane, parts, n);
    p := lane / n;
    OneMoreTimes(p, n);
    assert lane == p * n + lane % n;
    if parts <= p {
      ProductGrows(parts, p, n);
    }
  }

  lemma {:induction false} ShareIsPositive(lane: nat, parts: nat, n: nat)
    requires lane < parts * n
    ensures 0 < n
  {
  }

  lemma {:induction false} OnlyShare(lane: nat, n: nat, p: nat, q: nat)
    requires p * n <= lane < (p + 1) * n && q * n <= lane < (q + 1) * n
    ensures p == q
  {
    if p < q {
      ProductGrows(p + 1, q, n);
    } else if q < p {
      ProductGrows(q + 1, p, n);
    }
  }

  lemma {:induction false} InConcat(parts: seq<seq<MemAccess>>, p: nat, k: nat)
    requires p < |parts| && k < |parts[p]|
    ensures parts[p][k] in Concat(parts)
  {
    var n := |parts| - 1;
    if p < n {
      InConcat(parts[..n], p, k);
      assert parts[..n][p] == parts[p];
    }
  }

  lemma {:induction false} FromConcat(parts: seq<seq<MemAccess>>, m: MemAccess) returns (p: nat, k: nat)
    requires m in Concat(parts)
    ensures p < |parts| && k < |parts[p]| && parts[p][k] == m
  {
    var n := |parts| - 1;
    if m in parts[n] {
      p := n;
      k :| k < |parts[n]| && parts[n][k] == m;
    } else {
      p, k := FromConcat(parts[..n], m);
    }
  }

  // ----- what a warp sends

  /** What the coalescing of a whole warp leaves behind. */
  ghost predicate IsSent(w: WarpInst, parts: nat, sent: seq<seq<MemAccess>>, tags: seq<seq<nat>>)
    requires w.Valid() && parts > 0
  {
    |sent| == |tags| == parts && forall p :: 0 <= p < parts ==> w.SubwarpSent(p, parts, sent[p], tags[p])
  }

  /** Every piece of an active lane that stays in its 32-byte chunk is served by a
      transaction in the queue, which has the lane in its mask, covers the piece, and
      comes from the subwarp of the lane. */
  lemma {:induction false} EveryLaneIsServed(w: WarpInst, parts: nat, sent: seq<seq<MemAccess>>, tags: seq<seq<nat>>,
                                             lane: nat, n: nat)
    returns (p: nat, k: nat)
    requires w.Valid() && parts > 0 && IsSent(w, parts, sent, tags)
    requires lane in w.active && lane < parts * (w.warpSize / parts) && lane < |w.addrs| && n < w.Count()
    requires n < |w.addrs[lane]| && w.addrs[lane][n] % 32 + w.Size() <= 32 && w.addrs[lane][n] < TAG_LIMIT
    ensures p < parts && w.Start(p, parts) <= lane < w.Start(p + 1, parts)
    ensures k < |sent[p]| && sent[p][k] in Concat(sent) && lane in sent[p][k].lanes
    ensures Covers(sent[p][k], w.addrs[lane][n], w.Size()) && Span(w.addrs[lane][n], w.Size()) <= sent[p][k].bytes
  {
    p := SubwarpOfLane(w, parts, lane);
    var lo, hi, seg := w.Start(p, parts), w.Start(p + 1, parts), w.Segment();
    var reqs := w.Requests(lo, hi);
    assert w.SubwarpSent(p, parts, sent[p], tags[p]);
    PiecesMakeAccess(w);
    hide IsSent;
    RequestsAreExact(w, lo, hi);
    var i := PlaceOf(w, lo, lane, n);
    assert lane in ActiveLanes(w, lo, hi);
    assert RequestedAt(w, lane, n, reqs, i);
    k := ServedBy(sent[p], tags[p], reqs, w.Size(), seg, i);
    InConcat(sent, p, k);
  }

  /** The transaction that serves a request which stays in its chunk. */
  lemma {:induction false} ServedBy(part: seq<MemAccess>, tags: seq<nat>, reqs: seq<Request>, size: nat,
                                    seg: nat, i: nat)
    returns (k: nat)
    requires IsSegment(seg) && Coalesced(part, tags, reqs, size, seg) && i < |reqs| && 0 < size
    requires reqs[i].addr % 32 + size <= 32 && reqs[i].addr < TAG_LIMIT
    ensures k < |part| && reqs[i].lane in part[k].lanes
    ensures Covers(part[k], reqs[i].addr, size) && Span(reqs[i].addr, size) <= part[k].bytes
  {
    var tag := Tag(reqs[i].addr, seg);
    assert tag in Elements(tags);
    k :| k < |tags| && tags[k] == tag;
    hide Tag, Covers;
    assert Sends(part[k], reqs, Touching(reqs, tag, seg), size, seg, tag);
    ReachesGroup(part[k], reqs, Touching(reqs, tag, seg), size, seg, tag, i);
  }

  /** No transaction serves a lane that is not active. */
  lemma {:induction false} OnlyActiveLanes(w: WarpInst, parts: nat, sent: seq<seq<MemAccess>>, tags: seq<seq<nat>>,
                                           m: MemAccess, lane: nat)
    requires w.Valid() && parts > 0 && IsSent(w, parts, sent, tags) && m in Concat(sent) && lane in m.lanes
    ensures lane in w.active && lane < w.warpSize
  {
    var p, k := FromConcat(sent, m);
    assert w.SubwarpSent(p, parts, sent[p], tags[p]);
    var lo, hi, seg := w.Start(p, parts), w.Start(p + 1, parts), w.Segment();
    var reqs := w.Requests(lo, hi);
    OneTransactionPerSegment(sent[p], tags[p], reqs, w.Size(), seg);
    var i: nat :| i < |reqs| && reqs[i].lane == lane;
    RequestsOfActive(w, lo, hi, i);
  }

  lemma {:induction false} RequestsOfActive(w: WarpInst, lo: nat, hi: nat, i: nat)
    requires w.Valid() && lo <= hi <= w.warpSize && i < |w.Requests(lo, hi)|
    ensures w.Requests(lo, hi)[i].lane in w.active && lo <= w.Requests(lo, hi)[i].lane < hi
    decreases hi
  {
    if lo < hi {
      var last, rest := hi - 1, w.Requests(lo, hi - 1);
      var own := if last in w.active then w.LaneRequests(last, w.Count()) else [];
      assert w.Requests(lo, hi) == rest + own;
      if i < |rest| {
        RequestsOfActive(w, lo, last, i);
      } else {
        assert w.LaneOk(last);
        LaneRequestsAre(w, last, w.Count());
        assert own[i - |rest|].lane == last;
      }
    }
  }

  // ----- atomics

  /** What the coalescing of the atomics of a warp leaves behind. */
  ghost predicate AtomicsAreSent(w: WarpInst, sent: seq<seq<seq<MemAccess>>>, tags: seq<seq<nat>>)
    requires w.Valid()
  {
    |sent| == |tags| == 2 && forall p :: 0 <= p < 2 ==> Atomic.SubwarpSent(w, p, sent[p], tags[p])
  }

  /** The atomic of every active lane is in exactly one transaction of the warp. */
  lemma {:induction false} AtomicIsServedOnce(w: WarpInst, sent: seq<seq<seq<MemAccess>>>, tags: seq<seq<nat>>,
                                              lane: nat)
    returns (p: nat, n: nat, k: nat)
    requires w.Valid() && !w.isLocal && AtomicsAreSent(w, sent, tags)
    requires lane in w.active && lane < 2 * (w.warpSize / 2) && lane < |w.addrs|
    ensures p < 2 && n < |sent[p]| && k < |sent[p][n]| && lane in sent[p][n][k].lanes
    ensures |w.addrs[lane]| > 0 && Span(w.addrs[lane][0], w.dataSize) <= sent[p][n][k].bytes
    ensures sent[p][n][k] in Atomic.Sum(sent)
    ensures forall p': nat, n': nat, k': nat ::
              p' < 2 && n' < |sent[p']| && k' < |sent[p'][n']| && lane in sent[p'][n'][k'].lanes ==>
                p' == p && n' == n && k' == k
  {
    p := SubwarpOfLane(w, 2, lane);
    var lo, hi, seg := w.Start(p, 2), w.Start(p + 1, 2), w.Segment();
    var reqs := w.Requests(lo, hi);
    assert Atomic.SubwarpSent(w, p, sent[p], tags[p]);
    RequestsAreExact(w, lo, hi);
    var i := PlaceOf(w, lo, lane, 0);
    assert lane in ActiveLanes(w, lo, hi) && w.LaneOk(lane);
    assert RequestedAt(w, lane, 0, reqs, i);
    n := Atomic.ServedByPlace(sent[p], tags[p], reqs, w.dataSize, seg, i);
    k := Atomic.Place(reqs, i, w.dataSize, seg);
    InConcat(sent[p], n, k);
    InSum(sent, p, sent[p][n][k]);
    forall p': nat, n': nat, k': nat
      | p' < 2 && n' < |sent[p']| && k' < |sent[p'][n']| && lane in sent[p'][n'][k'].lanes
      ensures p' == p && n' == n && k' == k
    {
      InOwnSubwarp(w, p', sent[p'], tags[p'], n', k', lane);
      assert p' == p;
    }
  }

  lemma {:induction false} InOwnSubwarp(w: WarpInst, p: nat, sent: seq<seq<MemAccess>>, tags: seq<nat>,
                                        n: nat, k: nat, lane: nat)
    requires w.Valid() && Atomic.SubwarpSent(w, p, sent, tags)
    requires n < |sent| && k < |sent[n]| && lane in sent[n][k].lanes
    ensures w.Start(p, 2) <= lane < w.Start(p + 1, 2)
  {
    var lo, hi, seg := w.Start(p, 2), w.Start(p + 1, 2), w.Segment();
    var reqs := w.Requests(lo, hi);
    assert Atomic.ListSent(sent[n], reqs, tags[n], w.dataSize, seg);
    var group := Atomic.Group(reqs, tags[n], k, w.dataSize, seg);
    assert Sends(sent[n][k], reqs, group, w.dataSize, seg, tags[n]);
    var i :| i in group && reqs[i].lane == lane;
    RequestsOfActive(w, lo, hi, i);
  }

  lemma {:induction false} InSum(sent: seq<seq<seq<MemAccess>>>, p: nat, m: MemAccess)
    requires p < |sent| && m in Concat(sent[p])
    ensures m in Atomic.Sum(sent)
  {
    var n := |sent| - 1;
    if p < n {
      InSum(sent[..n], p, m);
    }
  }

  // ----- a full subwarp

  /** Lanes that access one block of memory, each the word behind the last. */
  ghost predicate IsContiguous(reqs: seq<Request>, base: nat, size: nat) {
    && |reqs| == 32 && base % 128 == 0 && base + 32 * size <= TAG_LIMIT
    && forall i :: 0 <= i < 32 ==> reqs[i].addr == base + size * i
  }

  lemma {:induction false} SegmentOfLane(base: nat, size: nat, i: nat)
    requires IsDataSize(size) && base % 128 == 0 && i < 32 && base + 32 * size <= TAG_LIMIT
    ensures var seg := SegmentSize(size);
            Tag(base + size * i, seg) == base + SegmentOffset(size, i)
  {
    var seg, o := SegmentSize(size), size * i;
    assert o < 32 * size;
    TagOfSmall(base + o, seg);
    MultipleOfSegmentSize(base, seg);
    RemainderOfSum(base, o, seg);
  }

  lemma {:induction false} MultipleOfSegmentSize(base: nat, seg: nat)
    requires IsSegment(seg) && base % 128 == 0
    ensures base % seg == 0
  {
    Multiple128(base);
  }

  lemma {:induction false} RemainderOfSum(base: nat, o: nat, seg: nat)
    requires IsSegment(seg) && base % seg == 0
    ensures (base + o) % seg == o % seg
  {
    if seg == 32 {
      RemainderOf32(base, o);
    } else if seg == 64 {
      RemainderOf64(base, o);
    } else {
      RemainderOf128(base, o);
    }
  }

  lemma {:induction false} RemainderOf32(base: nat, o: nat)
    requires base % 32 == 0
    ensures (base + o) % 32 == o % 32
  {
  }

  lemma {:induction false} RemainderOf64(base: nat, o: nat)
    requires base % 64 == 0
    ensures (base + o) % 64 == o % 64
  {
  }

  lemma {:induction false} RemainderOf128(base: nat, o: nat)
    requires base % 128 == 0
    ensures (base + o) % 128 == o % 128
  {
  }

  /** Such a subwarp needs one transaction up to words of four bytes, two for eight
      and four for sixteen: none is wasted. */
  lemma {:induction false} ContiguousNeedsFew(part: seq<MemAccess>, tags: seq<nat>, reqs: seq<Request>,
                                              base: nat, size: nat)
    requires IsDataSize(size) && IsContiguous(reqs, base, size)
    requires Coalesced(part, tags, reqs, size, SegmentSize(size))
    ensures |part| * SegmentSize(size) == 32 * size
  {
    var seg := SegmentSize(size);
    OneTransactionPerSegment(part, tags, reqs, size, seg);
    hide Coalesced;
    ContiguousTags(reqs, base, size);
    ShiftedSize(base, size);
  }

  lemma {:induction false} ContiguousTags(reqs: seq<Request>, base: nat, size: nat)
    requires IsDataSize(size) && IsContiguous(reqs, base, size)
    ensures Tags(reqs, SegmentSize(size)) == Shifted(base, Offsets(size))
  {
    var offsets := seq(32, i requires 0 <= i => SegmentOffset(size, i));
    hide SegmentOffset, Offsets, SegmentSize;
    ContiguousOffsets(reqs, base, size, offsets);
    OffsetsAreAll(size, offsets);
    TagsAreShifted(reqs, SegmentSize(size), base, offsets, Offsets(size));
  }

  lemma {:induction false} ContiguousOffsets(reqs: seq<Request>, base: nat, size: nat, offsets: seq<nat>)
    requires IsDataSize(size) && IsContiguous(reqs, base, size) && |offsets| == 32
    requires forall i :: 0 <= i < 32 ==> offsets[i] == SegmentOffset(size, i)
    ensures forall i :: 0 <= i < 32 ==> Tag(reqs[i].addr, SegmentSize(size)) == base + offsets[i]
  {
    hide Tag, SegmentOffset, SegmentSize;
    forall i | 0 <= i < 32 ensures Tag(reqs[i].addr, SegmentSize(size)) == base + offsets[i] {
      SegmentOfLane(base, size, i);
    }
  }

  lemma {:induction false} OffsetsAreAll(size: nat, offsets: seq<nat>)
    requires IsDataSize(size) && |offsets| == 32
    requires forall i :: 0 <= i < 32 ==> offsets[i] == SegmentOffset(size, i)
    ensures forall o :: o in Offsets(size) <==> o in offsets
  {
    hide SegmentOffset, Offsets;
    FewSegments(size);
    forall o | o in Offsets(size) ensures o in offsets {
      var i: nat :| i < 32 && SegmentOffset(size, i) == o;
      assert offsets[i] == o;
    }
  }

  lemma {:induction false} TagsAreShifted(reqs: seq<Request>, seg: nat, base: nat, offsets: seq<nat>, all: set<nat>)
    requires IsSegment(seg) && |offsets| == |reqs| && (forall o :: o in all <==> o in offsets)
    requires forall i :: 0 <= i < |reqs| ==> Tag(reqs[i].addr, seg) == base + offsets[i]
    ensures Tags(reqs, seg) == Shifted(base, all)
  {
    hide Tag;
    forall t | t in Shifted(base, all) ensures t in Tags(reqs, seg) {
      var o :| o in all && t == base + o;
      var i :| 0 <= i < |offsets| && offsets[i] == o;
      assert Tag(reqs[i].addr, seg) == t;
    }
    forall t | t in Tags(reqs, seg) ensures t in Shifted(base, all) {
      var i: nat :| i < |reqs| && t == Tag(reqs[i].addr, seg);
      assert offsets[i] in offsets;
    }
  }

  function SegmentOffset(size: nat, i: nat): nat
    requires IsDataSize(size)
  {
    size * i - size * i % SegmentSize(size)
  }

  function Offsets(size: nat): set<nat> {
    if size == 8 then {0, 128} else if size == 16 then {0, 128, 256, 384} else {0}
  }

  function Shifted(base: nat, offsets: set<nat>): set<nat> { set o | o in offsets :: base + o }

  lemma {:induction false} ShiftedSize(base: nat, size: nat)
    requires IsDataSize(size)
    ensures |Shifted(base, Offsets(size))| * SegmentSize(size) == 32 * size
  {
    if size == 8 {
      assert Shifted(base, Offsets(size)) == {base, base + 128};
    } else if size == 16 {
      assert Shifted(base, Offsets(size)) == {base, base + 128, base + 256, base + 384};
    } else {
      assert Shifted(base, Offsets(size)) == {base};
    }
  }

  /** The segments that 32 words touch. */
  lemma {:induction false} FewSegments(size: nat)
    requires IsDataSize(size)
    ensures forall i: nat :: i < 32 ==> SegmentOffset(size, i) in Offsets(size)
    ensures forall o :: o in Offsets(size) ==> exists i: nat :: i < 32 && SegmentOffset(size, i) == o
  {
    forall i: nat | i < 32 ensures SegmentOffset(size, i) in Offsets(size) {
      OffsetOfLane(size, i);
    }
    OffsetOfLane(size, 0);
    OffsetOfLane(size, 8);
    OffsetOfLane(size, 16);
    OffsetOfLane(size, 24);
  }

  lemma {:induction false} OffsetOfLane(size: nat, i: nat)
    requires IsDataSize(size) && i < 32
    ensures SegmentOffset(size, i) ==
            if size == 8 then 128 * (i / 16) else if size == 16 then 128 * (i / 8) else 0
  {
    if size == 8 {
      CutTo128(8 * i, i / 16);
    } else if size == 16 {
      CutTo128(16 * i, i / 8);
    }
  }

  lemma {:induction false} CutTo128(o: nat, q: nat)
    requires 128 * q <= o < 128 * q + 128
    ensures o - o % 128 == 128 * q
  {
  }
}

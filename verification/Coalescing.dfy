/** How the memory addresses of a warp become aligned transactions. */
module Coalescing {
  import opened Helpers

  /** One access of one lane. */
  datatype Request = Request(lane: nat, addr: nat)

  /** The 32-byte chunks of a 128-byte block that are used, the bytes used in that
      block, and the lanes served. */
  datatype Info = Info(chunks: set<nat>, bytes: set<nat>, lanes: set<nat>)

  datatype MemAccess = MemAccess(addr: nat, size: nat, lanes: set<nat>, bytes: set<nat>)

  const EMPTY := Info({}, {}, {})

  /** Tags are 32 bits wide although addresses are not. */
  const TAG_LIMIT: nat := 0x1_0000_0000

  predicate IsDataSize(size: nat) { size == 1 || size == 2 || size == 4 || size == 8 || size == 16 }

  predicate IsSegment(seg: nat) { seg == 32 || seg == 64 || seg == 128 }

  function SegmentSize(size: nat): (seg: nat)
    requires IsDataSize(size)
    ensures IsSegment(seg)
  {
    if size == 1 then 32 else if size == 2 then 64 else 128
  }

  function Tag(addr: nat, seg: nat): nat
    requires IsSegment(seg)
  {
    (addr - addr % seg) % TAG_LIMIT
  }

  function Chunk(addr: nat): nat { addr % 128 / 32 }

  /** The bytes of its 128-byte block that an access uses. */
  function Span(addr: nat, size: nat): (bytes: set<nat>)
    ensures forall x :: x in bytes <==> addr % 128 <= x < addr % 128 + size
  {
    if size == 0 then {} else Span(addr, size - 1) + {addr % 128 + size - 1}
  }

  /** The access does not leave its segment, as the code asserts. */
  predicate InOneSegment(addr: nat, size: nat, seg: nat)
    requires IsSegment(seg)
  {
    size > 0 && Tag(addr, seg) == Tag(addr + size - 1, seg)
  }

  // ----- what the lanes in a set of requests ask for

  ghost predicate AreIndices(reqs: seq<Request>, group: set<nat>) { forall i :: i in group ==> i < |reqs| }

  ghost function InfoOf(reqs: seq<Request>, group: set<nat>, size: nat): Info
    requires AreIndices(reqs, group)
  {
    Info(set i | i in group :: Chunk(reqs[i].addr),
         set i, x | i in group && x in Span(reqs[i].addr, size) :: x,
         set i | i in group :: reqs[i].lane)
  }

  function Add(info: Info, r: Request, size: nat): Info {
    Info(info.chunks + {Chunk(r.addr)},
         info.bytes + Span(r.addr, size),
         info.lanes + {r.lane})
  }

  lemma {:induction false} InfoOfAdd(reqs: seq<Request>, group: set<nat>, r: Request, size: nat)
    requires AreIndices(reqs, group)
    ensures InfoOf(reqs + [r], group, size) == InfoOf(reqs, group, size)
    ensures InfoOf(reqs + [r], group + {|reqs|}, size) == Add(InfoOf(reqs, group, size), r, size)
  {
    var more := reqs + [r];
    assert forall i :: i in group ==> more[i] == reqs[i];
    assert more[|reqs|] == r && |reqs| !in group;
  }

  // ----- shrinking a transaction

  /** The block of `size` bytes at `addr` holds all chunks `chunks` of the 128-byte
      block around `tag`. */
  predicate Holds(addr: nat, size: nat, tag: nat, chunks: set<nat>) {
    var base := tag - tag % 128;
    forall q :: q in chunks ==> addr <= base + 32 * q && base + 32 * q + 32 <= addr + size
  }

  /** Of all naturally aligned blocks of 32, 64 or 128 bytes that hold the chunks,
      this one lies inside every other. */
  ghost predicate IsTightest(addr: nat, size: nat, tag: nat, chunks: set<nat>) {
    && IsSegment(size) && addr % size == 0 && Holds(addr, size, tag, chunks)
    && forall addr': nat, size': nat ::
         IsSegment(size') && addr' % size' == 0 && Holds(addr', size', tag, chunks) ==>
           addr' <= addr && addr + size <= addr' + size'
  }

  ghost predicate ChunksOf(tag: nat, seg: nat, chunks: set<nat>)
    requires IsSegment(seg)
  {
    && chunks != {} && tag % seg == 0
    && forall q :: q in chunks ==> q < 4 && tag <= tag - tag % 128 + 32 * q < tag + seg
  }

  /** A block with a used chunk in either half cannot be made smaller or moved. */
  lemma {:induction false} BothHalvesAreTightest(addr: nat, size: nat, tag: nat, chunks: set<nat>, low: nat, high: nat)
    requires IsSegment(size) && addr % size == 0 && Holds(addr, size, tag, chunks) && low in chunks && high in chunks
    requires var base := tag - tag % 128;
             size == 32 || base + 32 * low < addr + size / 2 <= base + 32 * high
    ensures IsTightest(addr, size, tag, chunks)
  {
    var base := tag - tag % 128;
    forall addr': nat, size': nat | IsSegment(size') && addr' % size' == 0 && Holds(addr', size', tag, chunks)
      ensures addr' <= addr && addr + size <= addr' + size'
    {
      InsideAligned(addr, size, addr', size', base + 32 * low, base + 32 * high);
    }
  }

  lemma {:induction false} InsideAligned(addr: nat, size: nat, addr': nat, size': nat, low: nat, high: nat)
    requires IsSegment(size) && addr % size == 0 && IsSegment(size') && addr' % size' == 0
    requires addr <= low && high + 32 <= addr + size && (size == 32 || low < addr + size / 2 <= high)
    requires addr' <= low && low + 32 <= addr' + size' && addr' <= high && high + 32 <= addr' + size'
    ensures addr' <= addr && addr + size <= addr' + size'
  {
    if size <= size' {
      NestedBlocks(addr, size, addr', size');
    } else {
      NestedBlocks(addr', size', addr, size);
      HalfBlocks(addr', size', addr, size);
      assert false;
    }
  }

  function Lowest(chunks: set<nat>): nat {
    if 0 in chunks then 0 else if 1 in chunks then 1 else if 2 in chunks then 2 else 3
  }

  function Highest(chunks: set<nat>): nat {
    if 3 in chunks then 3 else if 2 in chunks then 2 else if 1 in chunks then 1 else 0
  }

  /** From the lowest to the highest used chunk, with either half used. */
  predicate IsFitted(addr: nat, size: nat, tag: nat, chunks: set<nat>) {
    var base := tag - tag % 128;
    var low, high := base + 32 * Lowest(chunks), base + 32 * Highest(chunks);
    && base <= addr <= low && high + 32 <= addr + size && (addr - base) % 32 == 0
    && (size == 32 || (low < addr + size / 2 <= high && (addr == base || addr == base + 64)))
    && (size == 128 ==> addr == base)
  }

  lemma {:induction false} FittedIsTightest(addr: nat, size: nat, tag: nat, seg: nat, chunks: set<nat>)
    requires IsSegment(seg) && ChunksOf(tag, seg, chunks) && IsSegment(size) && IsFitted(addr, size, tag, chunks)
    ensures IsTightest(addr, size, tag, chunks)
  {
    var base := tag - tag % 128;
    assert base % 128 == 0;
    assert Lowest(chunks) in chunks && Highest(chunks) in chunks;
    PlaceInBlock(base, addr - base, size);
    BothHalvesAreTightest(addr, size, tag, chunks, Lowest(chunks), Highest(chunks));
  }

  method Reduce(info: Info, tag: nat, seg: nat) returns (m: MemAccess)
    requires IsSegment(seg) && ChunksOf(tag, seg, info.chunks)
    ensures m == MemAccess(m.addr, m.size, info.lanes, info.bytes)
    ensures IsTightest(m.addr, m.size, tag, info.chunks) && tag <= m.addr && m.addr + m.size <= tag + seg
  {
    hide IsTightest;
    CutToSegment(tag, seg);
    var q := info.chunks;
    var addr, size := tag, seg;
    var lower, upper := false, false;
    if seg == 128 {
      var lowerHalf, upperHalf := 0 in q || 1 in q, 2 in q || 3 in q;
      if lowerHalf && !upperHalf {
        size := 64;
        lower, upper := 0 in q, 1 in q;
      } else if !lowerHalf && upperHalf {
        addr, size := addr + 64, 64;
        lower, upper := 2 in q, 3 in q;
      } else {
        assert lowerHalf && upperHalf;
      }
    } else if seg == 64 {
      if addr % 128 == 0 {
        lower, upper := 0 in q, 1 in q;
      } else {
        assert addr % 128 == 64;
        lower, upper := 2 in q, 3 in q;
      }
    }
    if size == 64 {
      if lower && !upper {
        size := 32;
      } else if !lower && upper {
        addr, size := addr + 32, 32;
      } else {
        assert lower && upper;
      }
    }
    m := MemAccess(addr, size, info.lanes, info.bytes);
    FittedIsTightest(addr, size, tag, seg, q);
  }

  // ----- one transaction per segment

  ghost function Touching(reqs: seq<Request>, tag: nat, seg: nat): (group: set<nat>)
    requires IsSegment(seg)
    ensures AreIndices(reqs, group)
  {
    set i: nat | i < |reqs| && Tag(reqs[i].addr, seg) == tag
  }

  ghost function Tags(reqs: seq<Request>, seg: nat): set<nat>
    requires IsSegment(seg)
  {
    set i: nat | i < |reqs| :: Tag(reqs[i].addr, seg)
  }

  /** The map from segments to transactions holds what the requests ask for. */
  ghost predicate Gathered(t: map<nat, Info>, reqs: seq<Request>, size: nat, seg: nat)
    requires IsSegment(seg)
  {
    && t.Keys == Tags(reqs, seg)
    && forall tag :: tag in t ==> t[tag] == InfoOf(reqs, Touching(reqs, tag, seg), size)
  }

  function Entry(t: map<nat, Info>, tag: nat): Info { if tag in t then t[tag] else EMPTY }

  lemma {:induction false} GatherOne(t: map<nat, Info>, reqs: seq<Request>, r: Request, size: nat, seg: nat)
    requires IsSegment(seg) && Gathered(t, reqs, size, seg)
    ensures var tag := Tag(r.addr, seg);
            Gathered(t[tag := Add(Entry(t, tag), r, size)], reqs + [r], size, seg)
  {
    var own := Tag(r.addr, seg);
    var t' := t[own := Add(Entry(t, own), r, size)];
    TagsOfAdd(reqs, r, seg);
    forall tag | tag in t' ensures t'[tag] == InfoOf(reqs + [r], Touching(reqs + [r], tag, seg), size) {
      GatherEntry(t, reqs, r, size, seg, tag);
    }
  }

  lemma {:induction false} GatherEntry(t: map<nat, Info>, reqs: seq<Request>, r: Request, size: nat, seg: nat, tag: nat)
    requires IsSegment(seg) && Gathered(t, reqs, size, seg)
    ensures InfoOf(reqs + [r], Touching(reqs + [r], tag, seg), size) ==
            if tag == Tag(r.addr, seg) then Add(Entry(t, tag), r, size) else Entry(t, tag)
  {
    hide Tag, Add;
    var group := Touching(reqs, tag, seg);
    EntryIsInfo(t, reqs, size, seg, tag);
    TouchingOfAdd(reqs, r, tag, seg);
    InfoOfAdd(reqs, group, r, size);
    if tag != Tag(r.addr, seg) {
      assert group + {} == group;
    }
  }

  lemma {:induction false} EntryIsInfo(t: map<nat, Info>, reqs: seq<Request>, size: nat, seg: nat, tag: nat)
    requires IsSegment(seg) && Gathered(t, reqs, size, seg)
    ensures Entry(t, tag) == InfoOf(reqs, Touching(reqs, tag, seg), size)
  {
    hide Tag;
    if tag !in t {
      forall i: nat | i < |reqs| ensures Tag(reqs[i].addr, seg) != tag {
        assert Tag(reqs[i].addr, seg) in Tags(reqs, seg);
      }
      assert Touching(reqs, tag, seg) == {};
    }
  }

  lemma {:induction false} TagsOfAdd(reqs: seq<Request>, r: Request, seg: nat)
    requires IsSegment(seg)
    ensures Tags(reqs + [r], seg) == Tags(reqs, seg) + {Tag(r.addr, seg)}
  {
    var more := reqs + [r];
    assert forall i: nat :: i < |reqs| ==> more[i] == reqs[i];
    assert more[|reqs|] == r;
  }

  lemma {:induction false} TouchingOfAdd(reqs: seq<Request>, r: Request, tag: nat, seg: nat)
    requires IsSegment(seg)
    ensures Touching(reqs + [r], tag, seg) ==
            Touching(reqs, tag, seg) + (if Tag(r.addr, seg) == tag then {|reqs|} else {})
  {
    var more := reqs + [r];
    assert forall i: nat :: i < |reqs| ==> more[i] == reqs[i];
    assert more[|reqs|] == r;
  }

  /** The transaction sent for a group of requests of one segment. */
  ghost predicate Sends(m: MemAccess, reqs: seq<Request>, group: set<nat>, size: nat, seg: nat, tag: nat)
    requires IsSegment(seg) && AreIndices(reqs, group)
  {
    var info := InfoOf(reqs, group, size);
    && m == MemAccess(m.addr, m.size, info.lanes, info.bytes)
    && IsTightest(m.addr, m.size, tag, info.chunks) && tag <= m.addr && m.addr + m.size <= tag + seg
  }

  function Elements(tags: seq<nat>): set<nat> { set tag | tag in tags }

  /** What a subwarp sends: one transaction per touched segment, in the order of
      their addresses. */
  ghost predicate Coalesced(part: seq<MemAccess>, tags: seq<nat>, reqs: seq<Request>, size: nat, seg: nat)
    requires IsSegment(seg)
  {
    && |part| == |tags| && Elements(tags) == Tags(reqs, seg)
    && (forall j, k :: 0 <= j < k < |tags| ==> tags[j] < tags[k])
    && forall k :: 0 <= k < |part| ==> Sends(part[k], reqs, Touching(reqs, tags[k], seg), size, seg, tags[k])
  }

  /** A natural alignment: no access leaves its 32-byte chunk. */
  ghost predicate Aligned(reqs: seq<Request>, size: nat) {
    IsDataSize(size) && forall i :: 0 <= i < |reqs| ==> reqs[i].addr % size == 0
  }

  lemma {:induction false} ChunksOfTouching(reqs: seq<Request>, group: set<nat>, size: nat, seg: nat, tag: nat)
    requires IsSegment(seg) && AreIndices(reqs, group) && group != {}
    requires forall i :: i in group ==> Tag(reqs[i].addr, seg) == tag
    ensures ChunksOf(tag, seg, InfoOf(reqs, group, size).chunks)
  {
    var i :| i in group;
    var chunks := InfoOf(reqs, group, size).chunks;
    assert Chunk(reqs[i].addr) in chunks;
    forall q | q in chunks ensures q < 4 && tag % seg == 0 && tag <= tag - tag % 128 + 32 * q < tag + seg {
      var j :| j in group && q == Chunk(reqs[j].addr);
      ChunkInSegment(reqs[j].addr, seg);
    }
  }

  lemma {:induction false} ChunkInSegment(addr: nat, seg: nat)
    requires IsSegment(seg)
    ensures var tag := Tag(addr, seg);
            tag % seg == 0 && tag <= tag - tag % 128 + 32 * Chunk(addr) < tag + seg && Chunk(addr) < 4
  {
    TagInBlock(addr, seg);
  }

  // ----- the loops

  /** A memory instruction of a warp: the addresses of its lanes, and the queue of
      transactions it builds. */
  class WarpInst {
    const warpSize: nat
    const dataSize: nat
    const isLocal: bool
    const active: set<nat>
    const addrs: seq<seq<nat>>
    var accessq: seq<MemAccess>

    constructor (warpSize: nat, dataSize: nat, isLocal: bool, active: set<nat>, addrs: seq<seq<nat>>)
      ensures this.warpSize == warpSize && this.dataSize == dataSize && this.isLocal == isLocal
      ensures this.active == active && this.addrs == addrs && accessq == []
    {
      this.warpSize, this.dataSize, this.isLocal := warpSize, dataSize, isLocal;
      this.active, this.addrs, accessq := active, addrs, [];
    }

    /** Accesses of 4 bytes and more to local memory come in pieces of 4 bytes. */
    function Size(): nat { if isLocal && dataSize >= 4 then 4 else dataSize }

    function Count(): nat { if isLocal && dataSize >= 4 then dataSize / 4 else 1 }

    function Segment(): (seg: nat)
      requires IsDataSize(dataSize)
      ensures IsSegment(seg)
    {
      SegmentSize(dataSize)
    }

    ghost predicate Valid() {
      && IsDataSize(dataSize) && |addrs| == warpSize
      && forall lane: nat :: lane in active && lane < warpSize ==> LaneOk(lane)
    }

    ghost predicate LaneOk(lane: nat)
      requires IsDataSize(dataSize) && lane < |addrs|
    {
      && Count() <= |addrs[lane]|
      && forall n :: 0 <= n < Count() ==> InOneSegment(addrs[lane][n], Size(), Segment())
    }

    /** The accesses of active lanes `lo` up to `hi`, in the order of the loops. */
    ghost function Requests(lo: nat, hi: nat): seq<Request>
      requires Valid() && hi <= warpSize
      decreases hi
    {
      if hi <= lo then []
      else Requests(lo, hi - 1) + (if hi - 1 in active then LaneRequests(hi - 1, Count()) else [])
    }

    ghost function LaneRequests(lane: nat, n: nat): seq<Request>
      requires lane < |addrs| && n <= |addrs[lane]|
    {
      if n == 0 then [] else LaneRequests(lane, n - 1) + [Request(lane, addrs[lane][n - 1])]
    }

    method Record(info: Info, r: Request) returns (info': Info)
      ensures info' == Add(info, r, Size())
    {
      var bytes := info.bytes;
      var n := 0;
      while n < Size()
        invariant 0 <= n <= Size() && bytes == info.bytes + Span(r.addr, n)
      {
        bytes := bytes + {r.addr % 128 + n};
        n := n + 1;
      }
      info' := Info(info.chunks + {Chunk(r.addr)}, bytes, info.lanes + {r.lane});
    }

    method FindTransactions(lo: nat, hi: nat) returns (t: map<nat, Info>)
      requires Valid() && lo <= hi <= warpSize
      ensures Gathered(t, Requests(lo, hi), Size(), Segment())
    {
      var seg := Segment();
      t := map[];
      var lane := lo;
      while lane < hi
        invariant lo <= lane <= hi && Gathered(t, Requests(lo, lane), Size(), seg)
      {
        if lane in active {
          assert LaneOk(lane);
          var n := 0;
          ghost var before := Requests(lo, lane);
          assert before + LaneRequests(lane, 0) == before;
          while n < Count()
            invariant 0 <= n <= Count() && Gathered(t, before + LaneRequests(lane, n), Size(), seg)
          {
            var r := Request(lane, addrs[lane][n]);
            var tag := Tag(r.addr, seg);
            assert tag == Tag(r.addr + Size() - 1, seg);
            var info := Record(Entry(t, tag), r);
            GatherOne(t, before + LaneRequests(lane, n), r, Size(), seg);
            assert before + LaneRequests(lane, n + 1) == before + LaneRequests(lane, n) + [r];
            t := t[tag := info];
            n := n + 1;
          }
        } else {
          assert Requests(lo, lane + 1) == Requests(lo, lane);
        }
        lane := lane + 1;
      }
    }

    /** Sends the transactions of a subwarp in the order of their segments. */
    method Send(t: map<nat, Info>, ghost reqs: seq<Request>) returns (ghost part: seq<MemAccess>, ghost tags: seq<nat>)
      requires IsDataSize(dataSize) && Gathered(t, reqs, Size(), Segment())
      modifies this`accessq
      ensures accessq == old(accessq) + part && Coalesced(part, tags, reqs, Size(), Segment())
    {
      hide IsTightest, Tag;
      var seg := Segment();
      var todo := t.Keys;
      part, tags := [], [];
      while todo != {}
        invariant todo <= t.Keys && Elements(tags) == t.Keys - todo
        invariant accessq == old(accessq) + part && |part| == |tags|
        invariant forall j, k :: 0 <= j < k < |tags| ==> tags[j] < tags[k]
        invariant forall j, tag :: 0 <= j < |tags| && tag in todo ==> tags[j] < tag
        invariant forall k :: 0 <= k < |part| ==>
                    Sends(part[k], reqs, Touching(reqs, tags[k], seg), Size(), seg, tags[k])
        decreases todo
      {
        var tag := Smallest(todo);
        TouchedGroup(reqs, tag, seg, Size());
        var m := Reduce(t[tag], tag, seg);
        accessq := accessq + [m];
        assert Elements(tags + [tag]) == Elements(tags) + {tag};
        part, tags := part + [m], tags + [tag];
        todo := todo - {tag};
      }
    }

    ghost predicate SubwarpSent(p: nat, parts: nat, part: seq<MemAccess>, tags: seq<nat>)
      requires Valid() && parts > 0
    {
      && Start(p, parts) <= Start(p + 1, parts) <= warpSize
      && Coalesced(part, tags, Requests(Start(p, parts), Start(p + 1, parts)), Size(), Segment())
    }

    /** The body of the loop over the subwarps. */
    method CoalesceSubwarp(p: nat, parts: nat) returns (ghost part: seq<MemAccess>, ghost tags: seq<nat>)
      requires Valid() && p < parts
      modifies this`accessq
      ensures accessq == old(accessq) + part && SubwarpSent(p, parts, part, tags)
    {
      hide Coalesced, Gathered, Start;
      SubwarpInWarp(p, parts);
      var t := FindTransactions(Start(p, parts), Start(p + 1, parts));
      part, tags := Send(t, Requests(Start(p, parts), Start(p + 1, parts)));
    }

    /** All subwarps, in order. */
    method Coalesce(parts: nat) returns (ghost sent: seq<seq<MemAccess>>, ghost tags: seq<seq<nat>>)
      requires Valid() && parts > 0
      modifies this`accessq
      ensures |sent| == |tags| == parts && accessq == old(accessq) + Concat(sent)
      ensures forall p :: 0 <= p < parts ==> SubwarpSent(p, parts, sent[p], tags[p])
    {
      sent, tags := [], [];
      var p := 0;
      while p < parts
        invariant 0 <= p <= parts && |sent| == |tags| == p
        invariant accessq == old(accessq) + Concat(sent)
        invariant forall q :: 0 <= q < p ==> SubwarpSent(q, parts, sent[q], tags[q])
      {
        hide SubwarpSent;
        ghost var part, own := CoalesceSubwarp(p, parts);
        assert (sent + [part])[..|sent|] == sent;
        sent, tags := sent + [part], tags + [own];
        p := p + 1;
      }
    }

    /** The first lane of a subwarp. */
    function Start(p: nat, parts: nat): nat
      requires parts > 0
    {
      p * (warpSize / parts)
    }

    lemma {:induction false} SubwarpInWarp(p: nat, parts: nat)
      requires p < parts
      ensures Start(p, parts) <= Start(p + 1, parts) <= warpSize
    {
      var n := warpSize / parts;
      ShareFits(warpSize, parts);
      ProductGrows(p, p + 1, n);
      ProductGrows(p + 1, parts, n);
    }
  }

  function Concat(parts: seq<seq<MemAccess>>): seq<MemAccess> {
    if parts == [] then [] else Concat(parts[..|parts| - 1]) + parts[|parts| - 1]
  }

  lemma {:induction false} TouchedGroup(reqs: seq<Request>, tag: nat, seg: nat, size: nat)
    requires IsSegment(seg) && tag in Tags(reqs, seg)
    ensures ChunksOf(tag, seg, InfoOf(reqs, Touching(reqs, tag, seg), size).chunks)
  {
    var i: nat :| i < |reqs| && Tag(reqs[i].addr, seg) == tag;
    assert i in Touching(reqs, tag, seg);
    ChunksOfTouching(reqs, Touching(reqs, tag, seg), size, seg, tag);
  }

  // ----- arithmetic of blocks inside blocks

  lemma {:induction false} Within128(x: nat)
    ensures x % 128 % 64 == x % 64
  {
  }

  lemma {:induction false} Quarter128(x: nat)
    ensures x % 128 % 32 == x % 32
  {
  }

  lemma {:induction false} WrapKeepsPlace(x: nat)
    ensures x % TAG_LIMIT % 128 == x % 128
  {
  }

  lemma {:induction false} CutToSegment(addr: nat, seg: nat)
    requires IsSegment(seg)
    ensures (addr - addr % seg) % 128 == addr % 128 - addr % 128 % seg
    ensures addr % 128 % seg == addr % seg
  {
    var k, o := addr / 128, addr % 128;
    Within128(addr);
    Quarter128(addr);
    assert addr - addr % seg == 128 * k + (o - o % seg);
  }

  lemma {:induction false} CutIsMultiple(o: nat, seg: nat)
    requires IsSegment(seg) && o < 128
    ensures (o - o % seg) % seg == 0
  {
  }

  lemma {:induction false} Multiple128(b: nat)
    requires b % 128 == 0
    ensures b % 64 == 0 && b % 32 == 0
  {
    var k := b / 128;
    assert b == 64 * (2 * k) && b == 32 * (4 * k);
  }

  lemma {:induction false} Multiple64(b: nat)
    requires b % 64 == 0
    ensures b % 32 == 0
  {
    var k := b / 64;
    assert b == 32 * (2 * k);
  }

  lemma {:induction false} Sum32(a: nat, b: nat)
    requires a % 32 == 0 && b % 32 == 0
    ensures (a + b) % 32 == 0
  {
  }

  lemma {:induction false} Sum64(a: nat, b: nat)
    requires a % 64 == 0 && b % 64 == 0
    ensures (a + b) % 64 == 0
  {
  }

  lemma {:induction false} Sum128(a: nat, b: nat)
    requires a % 128 == 0 && b % 128 == 0
    ensures (a + b) % 128 == 0
  {
  }

  /** Both are multiples of 32. */
  lemma {:induction false} MultipleOfSegment(b: nat, t: nat)
    requires IsSegment(t) && b % t == 0
    ensures b % 32 == 0 && (t >= 64 ==> b % 64 == 0)
  {
    if t == 128 {
      Multiple128(b);
    } else if t == 64 {
      Multiple64(b);
    }
  }

  lemma {:induction false} PlaceInBlock(base: nat, offset: nat, size: nat)
    requires IsSegment(size) && base % 128 == 0 && offset % size == 0
    ensures (base + offset) % size == 0
  {
    Multiple128(base);
    if size == 32 {
      Sum32(base, offset);
    } else if size == 64 {
      Sum64(base, offset);
    } else {
      Sum128(base, offset);
    }
  }

  lemma {:induction false} Apart32(a: nat, b: nat)
    requires a % 32 == 0 && b % 32 == 0 && a < b
    ensures a + 32 <= b
  {
  }

  lemma {:induction false} Apart64(a: nat, b: nat)
    requires a % 64 == 0 && b % 64 == 0 && a < b
    ensures a + 64 <= b
  {
  }

  lemma {:induction false} Apart128(a: nat, b: nat)
    requires a % 128 == 0 && b % 128 == 0 && a < b
    ensures a + 128 <= b
  {
  }

  /** Multiples of a segment size are at least a segment apart. */
  lemma {:induction false} SegmentsAreApart(a: nat, b: nat, s: nat)
    requires IsSegment(s) && a % s == 0 && b % s == 0 && a < b
    ensures a + s <= b
  {
    if s == 32 {
      Apart32(a, b);
    } else if s == 64 {
      Apart64(a, b);
    } else {
      Apart128(a, b);
    }
  }

  /** The ends of a larger block are multiples of the smaller size. */
  lemma {:induction false} EndsAreMultiples(s: nat, b: nat, t: nat)
    requires IsSegment(s) && IsSegment(t) && s <= t && b % t == 0
    ensures b % s == 0 && (b + t) % s == 0
    ensures s < t ==> (b + t / 2) % s == 0
  {
    MultipleOfSegment(b, t);
    if s == 32 {
      Sum32(b, t);
      if s < t {
        Sum32(b, t / 2);
      }
    } else if s == 64 {
      Sum64(b, t);
      if t == 128 {
        Sum64(b, 64);
      }
    } else {
      Sum128(b, t);
    }
  }

  /** Of two aligned blocks that meet, the larger holds the smaller. */
  lemma {:induction false} NestedBlocks(a: nat, s: nat, b: nat, t: nat)
    requires IsSegment(s) && a % s == 0 && IsSegment(t) && b % t == 0 && s <= t && a < b + t && b < a + s
    ensures b <= a && a + s <= b + t
  {
    EndsAreMultiples(s, b, t);
    if a < b {
      SegmentsAreApart(a, b, s);
    }
    SegmentsAreApart(a, b + t, s);
  }

  /** A smaller aligned block inside a larger one lies in one half of it. */
  lemma {:induction false} HalfBlocks(a: nat, s: nat, b: nat, t: nat)
    requires IsSegment(s) && a % s == 0 && IsSegment(t) && b % t == 0 && s < t && b <= a && a + s <= b + t
    ensures a + s <= b + t / 2 || b + t / 2 <= a
  {
    EndsAreMultiples(s, b, t);
    if a < b + t / 2 {
      SegmentsAreApart(a, b + t / 2, s);
    }
  }

  lemma {:induction false} TagOfSmall(addr: nat, seg: nat)
    requires IsSegment(seg) && addr < TAG_LIMIT
    ensures Tag(addr, seg) == addr - addr % seg
  {
    SmallRemainder(addr - addr % seg, TAG_LIMIT);
  }

  lemma {:induction false} SmallRemainder(x: nat, n: nat)
    requires x < n
    ensures x % n == x
  {
  }

  /** The tag keeps the place of the segment in its 128-byte block. */
  lemma {:induction false} TagInBlock(addr: nat, seg: nat)
    requires IsSegment(seg)
    ensures Tag(addr, seg) % 128 == addr % 128 - addr % 128 % seg && Tag(addr, seg) % seg == 0
  {
    CutToSegment(addr, seg);
    WrapKeepsPlace(addr - addr % seg);
    CutIsMultiple(addr % 128, seg);
    CutToSegment(Tag(addr, seg), seg);
  }
}

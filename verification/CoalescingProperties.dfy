/** What the transactions of a subwarp are worth: every access is served by one
    of them, none overlap, and there are no more than there are segments. */
module CoalescingProperties {
  import opened Coalescing

  lemma {:induction false} Within32To2(addr: nat)
    ensures addr % 32 % 2 == addr % 2
  {
  }

  lemma {:induction false} Within128To2(addr: nat)
    ensures addr % 128 % 2 == addr % 2
  {
  }

  lemma {:induction false} Within32To4(addr: nat)
    ensures addr % 32 % 4 == addr % 4
  {
  }

  lemma {:induction false} Within128To4(addr: nat)
    ensures addr % 128 % 4 == addr % 4
  {
  }

  lemma {:induction false} Within32To8(addr: nat)
    ensures addr % 32 % 8 == addr % 8
  {
  }

  lemma {:induction false} Within128To8(addr: nat)
    ensures addr % 128 % 8 == addr % 8
  {
  }

  lemma {:induction false} Within32To16(addr: nat)
    ensures addr % 32 % 16 == addr % 16
  {
  }

  lemma {:induction false} Within128To16(addr: nat)
    ensures addr % 128 % 16 == addr % 16
  {
  }

  /** A naturally aligned access stays in its 32-byte chunk. */
  lemma {:induction false} AlignedStaysInChunk(addr: nat, size: nat)
    requires IsDataSize(size) && addr % size == 0
    ensures addr % 32 + size <= 32 && addr % 128 % size == 0
  {
    SameRemainders(addr, size);
    LastInChunk(addr % 32, size);
  }

  lemma {:induction false} SameRemainders(addr: nat, size: nat)
    requires IsDataSize(size)
    ensures addr % 32 % size == addr % size == addr % 128 % size
  {
    if size == 2 {
      Within32To2(addr);
      Within128To2(addr);
    } else if size == 4 {
      Within32To4(addr);
      Within128To4(addr);
    } else if size == 8 {
      Within32To8(addr);
      Within128To8(addr);
    } else if size == 16 {
      Within32To16(addr);
      Within128To16(addr);
    }
  }

  lemma {:induction false} LastInChunk(o: nat, size: nat)
    requires IsDataSize(size) && o < 32 && o % size == 0
    ensures o + size <= 32
  {
  }

  /** Where the chunk of an address lies, as the transaction sees it. */
  lemma {:induction false} ChunkOfTag(addr: nat, seg: nat)
    requires IsSegment(seg) && addr < TAG_LIMIT
    ensures var tag := Tag(addr, seg);
            tag - tag % 128 + 32 * Chunk(addr) == addr - addr % 32
  {
    TagInBlock(addr, seg);
    CutToSegment(addr, seg);
    Quarter128(addr);
  }

  lemma {:induction false} SegmentBelowLimit(tag: nat, seg: nat)
    requires IsSegment(seg) && tag % seg == 0 && tag < TAG_LIMIT
    ensures tag + seg <= TAG_LIMIT
  {
  }

  predicate Covers(m: MemAccess, addr: nat, size: nat) {
    m.addr <= addr && addr + size <= m.addr + m.size
  }

  /** A transaction reaches the bytes of an access in its group exactly when the
      access stays in the chunks that were recorded, and its address fits in a tag. */
  lemma {:induction false} ReachesGroup(m: MemAccess, reqs: seq<Request>, group: set<nat>, size: nat, seg: nat,
                                        tag: nat, i: nat)
    requires IsSegment(seg) && AreIndices(reqs, group) && Sends(m, reqs, group, size, seg, tag)
    requires i in group && tag == Tag(reqs[i].addr, seg) && 0 < size && reqs[i].addr % 32 + size <= 32
    ensures reqs[i].lane in m.lanes && Span(reqs[i].addr, size) <= m.bytes
    ensures Covers(m, reqs[i].addr, size) <==> reqs[i].addr < TAG_LIMIT
  {
    var addr := reqs[i].addr;
    TagInBlock(addr, seg);
    SegmentBelowLimit(tag, seg);
    assert Chunk(addr) in InfoOf(reqs, group, size).chunks;
    if addr < TAG_LIMIT {
      ChunkOfTag(addr, seg);
    }
  }

  lemma {:induction false} TagOfGroup(part: seq<MemAccess>, tags: seq<nat>, reqs: seq<Request>, size: nat,
                                      seg: nat, k: nat)
    requires IsSegment(seg) && Coalesced(part, tags, reqs, size, seg) && k < |tags|
    ensures tags[k] % seg == 0
  {
    assert tags[k] in Elements(tags);
    var i: nat :| i < |reqs| && Tag(reqs[i].addr, seg) == tags[k];
    TagInBlock(reqs[i].addr, seg);
  }

  /** Transactions of one subwarp never overlap, and come in the order of their
      addresses. */
  lemma {:induction false} TransactionsAreDisjoint(part: seq<MemAccess>, tags: seq<nat>, reqs: seq<Request>,
        size: nat, seg: nat, j: nat, k: nat)
    requires IsSegment(seg) && Coalesced(part, tags, reqs, size, seg) && j < k < |part|
    ensures part[j].addr + part[j].size <= part[k].addr
  {
    TagOfGroup(part, tags, reqs, size, seg, j);
    TagOfGroup(part, tags, reqs, size, seg, k);
    SegmentsAreApart(tags[j], tags[k], seg);
    assert Sends(part[j], reqs, Touching(reqs, tags[j], seg), size, seg, tags[j]);
    assert Sends(part[k], reqs, Touching(reqs, tags[k], seg), size, seg, tags[k]);
  }

  /** Every access of a naturally aligned subwarp is served by exactly one
      transaction, whose lanes, bytes and block include it. */
  lemma {:induction false} EveryAccessIsServedOnce(part: seq<MemAccess>, tags: seq<nat>, reqs: seq<Request>,
        size: nat, seg: nat, i: nat)
    returns (k: nat)
    requires IsSegment(seg) && Coalesced(part, tags, reqs, size, seg) && Aligned(reqs, size) && i < |reqs|
    requires reqs[i].addr < TAG_LIMIT
    ensures k < |part| && Covers(part[k], reqs[i].addr, size)
    ensures reqs[i].lane in part[k].lanes && Span(reqs[i].addr, size) <= part[k].bytes
    ensures forall j :: 0 <= j < |part| && j != k ==>
              reqs[i].addr + size <= part[j].addr || part[j].addr + part[j].size <= reqs[i].addr
  {
    var tag := Tag(reqs[i].addr, seg);
    assert tag in Elements(tags);
    k :| k < |tags| && tags[k] == tag;
    AlignedStaysInChunk(reqs[i].addr, size);
    assert Sends(part[k], reqs, Touching(reqs, tag, seg), size, seg, tag);
    ReachesGroup(part[k], reqs, Touching(reqs, tag, seg), size, seg, tag, i);
    forall j | 0 <= j < |part| && j != k
      ensures reqs[i].addr + size <= part[j].addr || part[j].addr + part[j].size <= reqs[i].addr
    {
      if j < k {
        TransactionsAreDisjoint(part, tags, reqs, size, seg, j, k);
      } else {
        TransactionsAreDisjoint(part, tags, reqs, size, seg, k, j);
      }
    }
  }

  /** There is one transaction per touched segment, and no transaction serves a
      lane that touches no byte of its segment. */
  lemma {:induction false} OneTransactionPerSegment(part: seq<MemAccess>, tags: seq<nat>, reqs: seq<Request>,
        size: nat, seg: nat)
    requires IsSegment(seg) && Coalesced(part, tags, reqs, size, seg)
    ensures |part| == |Tags(reqs, seg)|
    ensures forall k, lane :: 0 <= k < |part| && lane in part[k].lanes ==>
              exists i: nat :: i < |reqs| && reqs[i].lane == lane && Tag(reqs[i].addr, seg) == tags[k]
  {
    AscendingElements(tags);
    forall k, lane | 0 <= k < |part| && lane in part[k].lanes
      ensures exists i: nat :: i < |reqs| && reqs[i].lane == lane && Tag(reqs[i].addr, seg) == tags[k]
    {
      assert Sends(part[k], reqs, Touching(reqs, tags[k], seg), size, seg, tags[k]);
    }
  }

  lemma {:induction false} AscendingElements(tags: seq<nat>)
    requires forall j, k :: 0 <= j < k < |tags| ==> tags[j] < tags[k]
    ensures |Elements(tags)| == |tags|
  {
    if tags != [] {
      var rest, last := tags[..|tags| - 1], tags[|tags| - 1];
      AscendingElements(rest);
      assert Elements(tags) == Elements(rest) + {last};
      assert last !in Elements(rest);
    }
  }

  // ----- without alignment

  /** A chunk that is used and lies behind `c`, or before a `c` that opens the upper
      half, makes the block reach the chunk behind `c`. */
  ghost predicate ReachesNext(chunks: set<nat>, c: nat) {
    || (exists x :: x in chunks && x > c)
    || (c == 2 && exists x :: x in chunks && x < 2)
  }

  /** Without alignment coverage can fail: the code asserts only that an access stays
      in its segment, and records only the chunk of its first byte.  An access is
      covered exactly when it stays in its chunk, or the other lanes of the
      transaction make its block reach the next chunk. */
  lemma {:induction false} AccessIsCoveredIff(m: MemAccess, reqs: seq<Request>, group: set<nat>, size: nat, seg: nat,
                                              tag: nat, i: nat)
    requires IsSegment(seg) && IsDataSize(size) && AreIndices(reqs, group) && Sends(m, reqs, group, size, seg, tag)
    requires forall j :: j in group ==> Tag(reqs[j].addr, seg) == tag
    requires i in group && InOneSegment(reqs[i].addr, size, seg) && reqs[i].addr + size <= TAG_LIMIT
    ensures var addr := reqs[i].addr;
            Covers(m, addr, size) <==>
              addr % 32 + size <= 32 || ReachesNext(InfoOf(reqs, group, size).chunks, Chunk(addr))
  {
    var addr, chunks := reqs[i].addr, InfoOf(reqs, group, size).chunks;
    assert Chunk(addr) in chunks;
    TagInBlock(addr, seg);
    ChunkOfTag(addr, seg);
    ChunksOfTouching(reqs, group, size, seg, tag);
    if addr % 32 + size <= 32 {
      ReachesGroup(m, reqs, group, size, seg, tag, i);
    } else {
      NextChunkInBlock(addr, size, seg);
      hide InfoOf, Tag, Chunk;
      assert IsTightest(m.addr, m.size, tag, chunks);
      var c := Chunk(addr);
      if ReachesNext(chunks, c) {
        BlockReachesNext(m.addr, m.size, tag, chunks, c);
      } else {
        BlockEndsAtChunk(m.addr, m.size, tag, chunks, c);
      }
    }
  }

  lemma {:induction false} NextChunkInBlock(addr: nat, size: nat, seg: nat)
    requires IsSegment(seg) && IsDataSize(size) && InOneSegment(addr, size, seg) && addr + size <= TAG_LIMIT
    requires addr % 32 + size > 32
    ensures Chunk(addr) < 3
  {
    if Chunk(addr) >= 3 {
      LastOfSegment(addr, size, seg);
    }
  }

  /** From the last chunk of a 128-byte block an access would leave its segment. */
  lemma {:induction false} LastOfSegment(addr: nat, size: nat, seg: nat)
    requires IsSegment(seg) && IsDataSize(size) && addr + size <= TAG_LIMIT
    requires addr % 32 + size > 32 && Chunk(addr) >= 3
    ensures !InOneSegment(addr, size, seg)
  {
    hide Tag, Chunk;
    var last := addr + size - 1;
    LeavesBlock(addr, size);
    CutStaysInBlock(addr, seg);
    CutStaysInBlock(last, seg);
    TagOfSmall(addr, seg);
    TagOfSmall(last, seg);
  }

  lemma {:induction false} LeavesBlock(addr: nat, size: nat)
    requires size <= 16 && addr % 32 + size > 32 && Chunk(addr) >= 3
    ensures addr - addr % 128 + 128 <= addr + size - 1 - (addr + size - 1) % 128
  {
    Quarter128(addr);
    LastQuarter(addr % 128);
    NextBlock(addr, size - 1);
  }

  lemma {:induction false} LastQuarter(o: nat)
    requires o < 128 && o / 32 >= 3
    ensures o == 96 + o % 32
  {
  }

  lemma {:induction false} NextBlock(addr: nat, n: nat)
    requires addr % 128 + n >= 128
    ensures addr - addr % 128 + 128 <= addr + n - (addr + n) % 128
  {
  }

  /** The segment of an address starts in the 128-byte block of the address. */
  lemma {:induction false} CutStaysInBlock(addr: nat, seg: nat)
    requires IsSegment(seg)
    ensures addr - addr % 128 <= addr - addr % seg < addr - addr % 128 + 128
  {
    CutToSegment(addr, seg);
    RemainderIsSmaller(addr % 128, seg);
  }

  lemma {:induction false} RemainderIsSmaller(o: nat, seg: nat)
    requires IsSegment(seg)
    ensures o % seg <= o
  {
  }

  lemma {:induction false} BlockReachesNext(at: nat, size: nat, tag: nat, chunks: set<nat>, c: nat)
    requires IsSegment(size) && at % size == 0 && Holds(at, size, tag, chunks) && c in chunks && c < 3
    requires ReachesNext(chunks, c)
    ensures var base := tag - tag % 128; at <= base + 32 * c && base + 32 * (c + 2) <= at + size
  {
    var base := tag - tag % 128;
    if x :| x in chunks && x > c {
    } else {
      var x :| x in chunks && x < 2;
      StraddlesHalves(at, size, base);
    }
  }

  /** Only the whole 128-byte block holds chunks of both its halves. */
  lemma {:induction false} StraddlesHalves(at: nat, size: nat, base: nat)
    requires IsSegment(size) && at % size == 0 && base % 128 == 0
    requires at <= base + 32 && base + 96 <= at + size
    ensures at == base && size == 128
  {
    if size == 64 {
      Multiple128(base);
      SegmentsAreApart(base, at, 64);
      assert false;
    }
    NestedBlocks(at, 128, base, 128);
  }

  lemma {:induction false} BlockEndsAtChunk(at: nat, size: nat, tag: nat, chunks: set<nat>, c: nat)
    requires IsTightest(at, size, tag, chunks) && c in chunks && c < 3 && !ReachesNext(chunks, c)
    ensures at + size <= tag - tag % 128 + 32 * (c + 1)
  {
    var base := tag - tag % 128;
    if c == 1 {
      PlaceInBlock(base, 0, 64);
      assert Holds(base, 64, tag, chunks);
    } else {
      PlaceInBlock(base, 32 * c, 32);
      assert Holds(base + 32 * c, 32, tag, chunks);
    }
  }

  /** A lane on its own is covered exactly when it stays in one chunk. */
  lemma {:induction false} LoneAccessIsCoveredIff(m: MemAccess, r: Request, size: nat, seg: nat)
    requires IsSegment(seg) && IsDataSize(size) && r.addr + size <= TAG_LIMIT && InOneSegment(r.addr, size, seg)
    requires Sends(m, [r], {0}, size, seg, Tag(r.addr, seg))
    ensures Covers(m, r.addr, size) <==> r.addr % 32 + size <= 32
  {
    AccessIsCoveredIff(m, [r], {0}, size, seg, Tag(r.addr, seg), 0);
    assert InfoOf([r], {0}, size).chunks == {Chunk(r.addr)};
  }
}

/** A memory space kept as a map from block numbers to blocks that are allocated
    when first written.  Addresses are 32 bits wide and all arithmetic on them
    wraps, as in the code. */
module BlockedMemory {
  import opened Helpers

  type Byte = x: nat | x < 256

  const LIMIT: nat := 0x1_0000_0000

  predicate IsBlockSize(bsize: nat) { 0 < bsize < LIMIT && LIMIT % bsize == 0 }

  /** Where an address lies when counting from another, all the way round. */
  function Distance(start: nat, addr: nat): nat
    requires start < LIMIT && addr < LIMIT
  {
    if start <= addr then addr - start else addr + LIMIT - start
  }

  /** The 32-bit sum of the offset in a block and a length does not wrap. */
  predicate SumFits(addr: nat, length: nat, bsize: nat)
    requires bsize > 0
  {
    addr % bsize + length < LIMIT
  }

  // ----- one block

  function Splice(block: seq<Byte>, offset: nat, bytes: seq<Byte>): seq<Byte>
    requires offset + |bytes| <= |block|
  {
    block[..offset] + bytes + block[offset + |bytes|..]
  }

  function ByteOf(data: map<nat, seq<Byte>>, bsize: nat, addr: nat): Byte
    requires bsize > 0
  {
    var page, offset := addr / bsize, addr % bsize;
    if page in data && offset < |data[page]| then data[page][offset] else 0
  }

  lemma {:induction false} PlaceOf(addr: nat, bsize: nat, page: nat, offset: nat)
    requires offset < bsize && addr == page * bsize + offset
    ensures addr / bsize == page && addr % bsize == offset
  {
    var q, r := addr / bsize, addr % bsize;
    assert addr == q * bsize + r;
    if q < page {
      ProductGrows(q + 1, page, bsize);
    } else if page < q {
      ProductGrows(page + 1, q, bsize);
    }
  }

  lemma {:induction false} PlaceInPage(addr: nat, bsize: nat)
    requires bsize > 0
    ensures addr == addr / bsize * bsize + addr % bsize && addr % bsize < bsize
  {
  }

  lemma {:induction false} ByteAt(data: map<nat, seq<Byte>>, bsize: nat, page: nat, offset: nat)
    requires offset < bsize
    ensures ByteOf(data, bsize, page * bsize + offset) ==
            if page in data && offset < |data[page]| then data[page][offset] else 0
  {
    PlaceOf(page * bsize + offset, bsize, page, offset);
  }

  /** Where the block after this one starts, in 32-bit arithmetic. */
  function PageEnd(page: nat, bsize: nat): nat { (page + 1) * bsize % LIMIT }

  /** Every block ends where the next one starts, except that the last one seems to
      end at zero. */
  lemma {:induction false} EndOfPage(addr: nat, bsize: nat, page: nat, offset: nat)
    requires IsBlockSize(bsize) && addr < LIMIT && addr == page * bsize + offset && offset < bsize
    ensures addr - offset + bsize <= LIMIT
    ensures addr >= LIMIT - bsize ==> PageEnd(page, bsize) == 0
    ensures addr < LIMIT - bsize ==> PageEnd(page, bsize) == addr - offset + bsize <= LIMIT - bsize
  {
    var pages := LIMIT / bsize;
    PlaceInPage(LIMIT, bsize);
    assert (page + 1) * bsize == page * bsize + bsize;
    PagesBelow(page, pages, bsize);
    if page + 1 < pages {
      ProductGrows(page + 2, pages, bsize);
    }
  }

  lemma {:induction false} PagesBelow(page: nat, pages: nat, bsize: nat)
    requires bsize > 0 && page * bsize < pages * bsize
    ensures page < pages && (page + 1) * bsize <= pages * bsize
  {
    if pages <= page {
      ProductGrows(pages, page, bsize);
    } else {
      ProductGrows(page + 1, pages, bsize);
    }
  }

  /** A write into one block changes exactly the bytes it covers. */
  lemma {:induction false} SpliceChanges(data: map<nat, seq<Byte>>, bsize: nat, page: nat, offset: nat,
                                         bytes: seq<Byte>,
                                         block: seq<Byte>, addr: nat)
    requires bsize > 0 && offset + |bytes| <= bsize == |block|
    requires forall n: nat :: n < bsize ==> block[n] == if page in data && n < |data[page]| then data[page][n] else 0
    ensures var first := page * bsize + offset;
            ByteOf(data[page := Splice(block, offset, bytes)], bsize, addr) ==
              if first <= addr < first + |bytes| then bytes[addr - first] else ByteOf(data, bsize, addr)
  {
    hide ByteOf;
    var q, r := addr / bsize, addr % bsize;
    PlaceInPage(addr, bsize);
    ByteAt(data, bsize, q, r);
    ByteAt(data[page := Splice(block, offset, bytes)], bsize, q, r);
    if q < page {
      ProductGrows(q + 1, page, bsize);
    } else if page < q {
      ProductGrows(page + 1, q, bsize);
    }
  }

  /** `after` is `before` with `bytes` at `first`. */
  ghost predicate PieceWritten(after: map<nat, seq<Byte>>, before: map<nat, seq<Byte>>, bsize: nat, first: nat,
                               bytes: seq<Byte>)
    requires bsize > 0
  {
    forall a: nat :: ByteOf(after, bsize, a) ==
                       if first <= a < first + |bytes| then bytes[a - first] else ByteOf(before, bsize, a)
  }

  /** The same on the circle of 32-bit addresses. */
  ghost predicate Written(after: map<nat, seq<Byte>>, before: map<nat, seq<Byte>>, bsize: nat, addr: nat,
                          bytes: seq<Byte>)
    requires bsize > 0 && addr < LIMIT
  {
    forall a: nat :: a < LIMIT ==>
      ByteOf(after, bsize, a) ==
        if Distance(addr, a) < |bytes| then bytes[Distance(addr, a)] else ByteOf(before, bsize, a)
  }

  lemma {:induction false} BlockWritten(data: map<nat, seq<Byte>>, bsize: nat, page: nat, offset: nat,
                                        bytes: seq<Byte>, block: seq<Byte>)
    requires bsize > 0 && offset + |bytes| <= bsize == |block|
    requires forall n: nat :: n < bsize ==> block[n] == if page in data && n < |data[page]| then data[page][n] else 0
    ensures PieceWritten(data[page := Splice(block, offset, bytes)], data, bsize, page * bsize + offset, bytes)
  {
    hide ByteOf, Splice;
    var data' := data[page := Splice(block, offset, bytes)];
    var first := page * bsize + offset;
    forall a: nat
      ensures ByteOf(data', bsize, a) ==
                if first <= a < first + |bytes| then bytes[a - first] else ByteOf(data, bsize, a)
    {
      SpliceChanges(data, bsize, page, offset, bytes, block, a);
    }
  }

  lemma {:induction false} NothingWritten(data: map<nat, seq<Byte>>, bsize: nat, addr: nat)
    requires bsize > 0 && addr < LIMIT
    ensures Written(data, data, bsize, addr, [])
  {
  }

  lemma {:induction false} OnePiece(after: map<nat, seq<Byte>>, before: map<nat, seq<Byte>>, bsize: nat, addr: nat,
                                    bytes: seq<Byte>)
    requires bsize > 0 && addr + |bytes| <= LIMIT && addr < LIMIT && PieceWritten(after, before, bsize, addr, bytes)
    ensures Written(after, before, bsize, addr, bytes)
  {
    hide ByteOf;
  }

  /** One more piece of a long write. */
  lemma {:induction false} PieceExtends(after: map<nat, seq<Byte>>, middle: map<nat, seq<Byte>>, before: map<nat,
                                        seq<Byte>>,
                                        bsize: nat, addr: nat, bytes: seq<Byte>, source: nat, n: nat, current: nat)
    requires bsize > 0 && addr < LIMIT && source + n <= |bytes| < LIMIT && current < LIMIT && current + n <= LIMIT
    requires current == addr + source || current == addr + source - LIMIT
    requires Written(middle, before, bsize, addr, bytes[..source])
    requires PieceWritten(after, middle, bsize, current, bytes[source..source + n])
    ensures Written(after, before, bsize, addr, bytes[..source + n])
  {
    hide ByteOf;
  }

  function Wrapped(sum: nat): (w: nat)
    ensures w < LIMIT && (sum < LIMIT ==> w == sum) && (sum == LIMIT ==> w == 0)
  {
    sum % LIMIT
  }

  /** The size of the next piece, in 32-bit arithmetic: as much as the block holds,
      or all that remains if the sum wraps. */
  lemma {:induction false} PieceSize(offset: nat, remain: nat, bsize: nat)
    requires offset < bsize < LIMIT && 0 < remain < LIMIT
    ensures var limit := (offset + remain) % LIMIT;
            var n := ((if limit > bsize then bsize else limit) + LIMIT - offset) % LIMIT;
            if offset + remain >= LIMIT then n == remain
            else n == if remain <= bsize - offset then remain else bsize - offset
  {
  }

  class MemorySpace {
    const bsize: nat
    var data: map<nat, seq<Byte>>
    var watch: map<nat, nat>

    constructor (bsize: nat)
      requires IsBlockSize(bsize)
      ensures Valid() && this.bsize == bsize && watch == map[]
      ensures forall addr: nat :: addr < LIMIT ==> At(addr) == 0
    {
      this.bsize, data, watch := bsize, map[], map[];
    }

    ghost predicate Valid()
      reads this
    {
      IsBlockSize(bsize) && forall page :: page in data ==> |data[page]| == bsize
    }

    /** The flat memory behind the blocks. */
    ghost function At(addr: nat): Byte
      requires bsize > 0
      reads this
    {
      ByteOf(data, bsize, addr)
    }

    /** A watchpoint moves to another address if it is set again. */
    method SetWatch(addr: nat, watchpoint: nat)
      requires Valid() && addr < LIMIT
      modifies this`watch
      ensures Valid() && watch == old(watch)[watchpoint := addr]
    {
      watch := watch[watchpoint := addr];
    }

    method WriteBlock(page: nat, offset: nat, bytes: seq<Byte>)
      requires Valid() && offset + |bytes| <= bsize
      modifies this`data
      ensures Valid() && PieceWritten(data, old(data), bsize, page * bsize + offset, bytes)
    {
      var block := if page in data then data[page] else seq(bsize, n => 0);
      BlockWritten(data, bsize, page, offset, bytes, block);
      data := data[page := Splice(block, offset, bytes)];
    }

    /** A write fails, in the assertion of its first block, exactly when the 32-bit
        sum of its offset and length wraps; then it changes nothing. */
    method Write(addr: nat, bytes: seq<Byte>) returns (hits: Option<set<nat>>)
      requires Valid() && addr < LIMIT && |bytes| < LIMIT
      modifies this`data
      ensures Valid() && (hits.Some? <==> SumFits(addr, |bytes|, bsize))
      ensures if hits.Some? then Written(data, old(data), bsize, addr, bytes) else data == old(data)
      ensures hits.Some? ==> hits.value == set i | i in watch && IsWatched(addr, |bytes|, watch[i])
    {
      hide PageEnd, PieceWritten, Written;
      var index, offset := addr / bsize, addr % bsize;
      PlaceInPage(addr, bsize);
      EndOfPage(addr, bsize, index, offset);
      if addr + |bytes| <= PageEnd(index, bsize) {
        WriteBlock(index, offset, bytes);
        OnePiece(data, old(data), bsize, addr, bytes);
      } else {
        var ok := WriteAcross(addr, bytes);
        if !ok {
          return None;
        }
      }
      var found := FindHits(addr, |bytes|);
      hits := Some(found);
    }

    /** The part of a long access that falls into the current block. */
    method NextPiece(current: nat, remain: nat) returns (page: nat, offset: nat, n: nat, next: nat)
      requires IsBlockSize(bsize) && current < LIMIT && 0 < remain < LIMIT
      ensures page == current / bsize && offset == current % bsize && page * bsize + offset == current
      ensures !SumFits(current, remain, bsize) ==> n == remain && offset + n >= LIMIT
      ensures SumFits(current, remain, bsize) ==>
                && 0 < n <= remain && offset + n <= bsize && current + n <= LIMIT
                && next == (if current + n == LIMIT then 0 else current + n)
                && SumFits(next, remain - n, bsize)
    {
      hide PageEnd;
      offset, page := current % bsize, current / bsize;
      PlaceInPage(current, bsize);
      EndOfPage(current, bsize, page, offset);
      PieceSize(offset, remain, bsize);
      var limit := (offset + remain) % LIMIT;
      if limit > bsize {
        limit := bsize;
      }
      n := (limit + LIMIT - offset) % LIMIT;
      next := Wrapped(current + n);
      if SumFits(current, remain, bsize) && n < remain {
        PlaceOf(page * bsize + bsize, bsize, page + 1, 0);
      }
    }

    method WriteAcross(addr: nat, bytes: seq<Byte>) returns (ok: bool)
      requires Valid() && addr < LIMIT && |bytes| < LIMIT
      modifies this`data
      ensures Valid() && (ok <==> SumFits(addr, |bytes|, bsize))
      ensures if ok then Written(data, old(data), bsize, addr, bytes) else data == old(data)
    {
      NothingWritten(data, bsize, addr);
      assert |bytes| == 0 ==> SumFits(addr, |bytes|, bsize);
      hide Written, PieceWritten, SumFits;
      var remain, source, current := |bytes|, 0, addr;
      while remain > 0
        invariant Valid() && 0 <= source && 0 <= remain && remain + source == |bytes| && 0 <= current < LIMIT
        invariant current == addr + source || current == addr + source - LIMIT
        invariant if source == 0 then data == old(data) && current == addr else SumFits(addr, |bytes|, bsize)
        invariant SumFits(addr, |bytes|, bsize) ==> SumFits(current, remain, bsize)
        invariant Written(data, old(data), bsize, addr, bytes[..source])
      {
        var page, offset, n, next := NextPiece(current, remain);
        assert offset < bsize;
        if offset + n > bsize {
          return false;
        }
        label before:
        WriteBlock(page, offset, bytes[source..source + n]);
        PieceExtends(data, old@before(data), old(data), bsize, addr, bytes, source, n, current);
        source, remain := source + n, remain - n;
        current := next;
      }
      assert bytes[..source] == bytes;
      ok := true;
    }

    method ReadBlock(page: nat, addr: nat, length: nat) returns (bytes: Option<seq<Byte>>)
      requires Valid() && addr < LIMIT && page == addr / bsize
      ensures bytes.None? <==> addr + length > PageEnd(page, bsize)
      ensures bytes.Some? ==> IsImage(bytes.value, addr, length)
    {
      if addr + length > PageEnd(page, bsize) {
        return None;
      }
      var offset := addr % bsize;
      PlaceInPage(addr, bsize);
      EndOfPage(addr, bsize, page, offset);
      hide PageEnd, ByteOf;
      var result := if page !in data then seq(length, n => 0) else data[page][offset..offset + length];
      forall n: nat | n < length ensures result[n] == At(addr + n) {
        ByteAt(data, bsize, page, offset + n);
      }
      bytes := Some(result);
    }

    ghost predicate IsImage(bytes: seq<Byte>, addr: nat, length: nat)
      requires bsize > 0
      reads this
    {
      |bytes| == length && forall n: nat :: n < length ==> bytes[n] == At(addr + n)
    }

    /** A read fails exactly when it reaches into the last block of the address
        space, whose end wraps to zero. */
    method Read(addr: nat, length: nat) returns (bytes: Option<seq<Byte>>)
      requires Valid() && addr < LIMIT && length < LIMIT
      ensures bytes.None? <==> length > 0 && addr + length > LIMIT - bsize
      ensures bytes.Some? ==> IsImage(bytes.value, addr, length)
    {
      hide PageEnd, ByteOf;
      var index := addr / bsize;
      PlaceInPage(addr, bsize);
      EndOfPage(addr, bsize, index, addr % bsize);
      if addr + length <= PageEnd(index, bsize) {
        bytes := ReadBlock(index, addr, length);
      } else {
        bytes := ReadAcross(addr, length);
      }
    }

    method ReadAcross(addr: nat, length: nat) returns (bytes: Option<seq<Byte>>)
      requires Valid() && addr < LIMIT && length < LIMIT
      ensures bytes.None? <==> length > 0 && addr + length > LIMIT - bsize
      ensures bytes.Some? ==> IsImage(bytes.value, addr, length)
    {
      hide PageEnd, ByteOf;
      var remain, current := length, addr;
      var result: seq<Byte> := [];
      while remain > 0
        invariant 0 <= remain && remain + |result| == length && current == addr + |result| && current < LIMIT
        invariant |result| > 0 ==> current <= LIMIT - bsize
        invariant IsImage(result, addr, |result|)
      {
        var page, offset, n, next := NextPiece(current, remain);
        EndOfPage(current, bsize, page, offset);
        var piece := ReadBlock(page, current, n);
        if piece.None? {
          return None;
        }
        forall k: nat | k < |result| + n ensures (result + piece.value)[k] == At(addr + k) {
          if k >= |result| {
            assert addr + k == current + (k - |result|) && piece.value[k - |result|] == At(current + (k - |result|));
          }
        }
        result := result + piece.value;
        current := next;
        remain := remain - n;
      }
      bytes := Some(result);
    }

    method FindHits(addr: nat, length: nat) returns (hits: set<nat>)
      ensures hits == set i | i in watch && IsWatched(addr, length, watch[i])
    {
      hits := {};
      var todo := watch.Keys;
      while todo != {}
        invariant todo <= watch.Keys
        invariant hits == set i | i in watch.Keys - todo && IsWatched(addr, length, watch[i])
        decreases todo
      {
        var i :| i in todo;
        if IsWatched(addr, length, watch[i]) {
          hits := hits + {i};
        }
        todo := todo - {i};
      }
    }
  }

  predicate IsWatched(addr: nat, length: nat, wa: nat) {
    (addr <= wa && addr + length > wa) || (addr > wa && addr < (wa + 4) % LIMIT)
  }

  predicate IsIn(a: nat, start: nat, length: nat) { start <= a < start + length }

  /** A watchpoint fires exactly when a byte of its word is written, as long as the
      word does not end with the address space. */
  lemma {:induction false} WatchesItsWord(addr: nat, length: nat, wa: nat)
    requires 0 < length && wa + 4 < LIMIT
    ensures IsWatched(addr, length, wa) <==> exists a: nat :: IsIn(a, addr, length) && IsIn(a, wa, 4)
  {
    if IsWatched(addr, length, wa) {
      var a := if addr <= wa then wa else addr;
      assert IsIn(a, addr, length) && IsIn(a, wa, 4);
    }
  }

  // ----- flat memory over whole histories

  datatype Access = Store(addr: nat, bytes: seq<Byte>) | Load(addr: nat, length: nat)

  predicate InRange(op: Access, bsize: nat) {
    && op.addr < LIMIT && 0 < bsize
    && if op.Store? then SumFits(op.addr, |op.bytes|, bsize) else op.length < LIMIT
  }

  /** The last byte stored at an address, or zero. */
  function LastStored(ops: seq<Access>, a: nat): Byte
    requires a < LIMIT
  {
    if ops == [] then 0
    else
      var op := ops[|ops| - 1];
      if op.Store? && op.addr < LIMIT && Distance(op.addr, a) < |op.bytes| then op.bytes[Distance(op.addr, a)]
      else LastStored(ops[..|ops| - 1], a)
  }

  /** A load that does not touch the last block of the address space sees, byte by
      byte, what was last stored. */
  ghost predicate SeesLastStored(out: Option<seq<Byte>>, ops: seq<Access>, op: Access, bsize: nat) {
    match op
    case Store(_, _) => out.None?
    case Load(addr, length) =>
      && (out.None? <==> length > 0 && addr + length > LIMIT - bsize)
      && (out.Some? ==> IsLastStored(out.value, ops, addr, length))
  }

  ghost predicate IsLastStored(bytes: seq<Byte>, ops: seq<Access>, addr: nat, length: nat) {
    |bytes| == length && forall n: nat :: n < length && addr + n < LIMIT ==> bytes[n] == LastStored(ops, addr + n)
  }

  /** The blocks hold what a history leaves in a flat memory. */
  ghost predicate Flat(data: map<nat, seq<Byte>>, bsize: nat, ops: seq<Access>)
    requires bsize > 0
  {
    forall a: nat :: a < LIMIT ==> ByteOf(data, bsize, a) == LastStored(ops, a)
  }

  lemma {:induction false} StoreKeepsFlat(after: map<nat, seq<Byte>>, before: map<nat, seq<Byte>>, bsize: nat,
                                          ops: seq<Access>, op: Access)
    requires bsize > 0 && Flat(before, bsize, ops) && op.addr < LIMIT
    requires if op.Store? then Written(after, before, bsize, op.addr, op.bytes) else after == before
    ensures Flat(after, bsize, ops + [op])
  {
    hide ByteOf;
    assert (ops + [op])[..|ops|] == ops;
  }

  /** Any sequence of stores and loads on a new memory space. */
  method Replay(bsize: nat, ops: seq<Access>) returns (outs: seq<Option<seq<Byte>>>)
    requires IsBlockSize(bsize) && forall op :: op in ops ==> InRange(op, bsize)
    ensures |outs| == |ops|
    ensures forall i :: 0 <= i < |ops| ==> SeesLastStored(outs[i], ops[..i], ops[i], bsize)
  {
    var m := new MemorySpace(bsize);
    assert Flat(m.data, bsize, ops[..0]) by {
      forall a: nat | a < LIMIT ensures ByteOf(m.data, bsize, a) == 0 {
        assert m.At(a) == 0;
      }
    }
    hide Flat, Written, SeesLastStored;
    outs := [];
    var i := 0;
    while i < |ops|
      invariant 0 <= i == |outs| <= |ops| && m.Valid() && m.bsize == bsize && fresh(m)
      invariant Flat(m.data, bsize, ops[..i])
      invariant forall k :: 0 <= k < i ==> SeesLastStored(outs[k], ops[..k], ops[k], bsize)
      decreases |ops| - i
    {
      var op := ops[i];
      assert op in ops && InRange(op, bsize);
      ghost var before := m.data;
      var out := Perform(m, op, ops[..i]);
      StoreKeepsFlat(m.data, before, bsize, ops[..i], op);
      assert ops[..i] + [op] == ops[..i + 1];
      outs := outs + [out];
      i := i + 1;
    }
  }

  method Perform(m: MemorySpace, op: Access, ghost ops: seq<Access>) returns (out: Option<seq<Byte>>)
    requires m.Valid() && InRange(op, m.bsize) && Flat(m.data, m.bsize, ops)
    modifies m`data
    ensures m.Valid() && SeesLastStored(out, ops, op, m.bsize)
    ensures if op.Store? then Written(m.data, old(m.data), m.bsize, op.addr, op.bytes) else m.data == old(m.data)
  {
    hide Written, ByteOf;
    match op
    case Store(addr, bytes) =>
      var hits := m.Write(addr, bytes);
      assert hits.Some?;
      out := None;
    case Load(addr, length) =>
      out := m.Read(addr, length);
  }

  /** Histories give the same answers on any two block sizes, except for loads that
      touch the last block of one of them. */
  lemma {:induction false} BlockSizeDoesNotMatter(bsize: nat, bsize': nat, ops: seq<Access>, op: Access,
                                                  out: Option<seq<Byte>>, out': Option<seq<Byte>>)
    requires IsBlockSize(bsize) && IsBlockSize(bsize') && InRange(op, bsize) && InRange(op, bsize')
    requires SeesLastStored(out, ops, op, bsize) && SeesLastStored(out', ops, op, bsize')
    ensures op.Store? || op.addr + op.length <= LIMIT - Larger(bsize, bsize') ==> out == out'
  {
    if op.Load? && op.addr + op.length <= LIMIT - Larger(bsize, bsize') {
      forall n: nat | n < op.length ensures out.value[n] == out'.value[n] {
        assert op.addr + n < LIMIT;
      }
      assert out.value == out'.value;
    }
  }

  function Larger(x: nat, y: nat): nat { if x < y then y else x }
}

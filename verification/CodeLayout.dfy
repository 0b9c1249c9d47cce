/** Where assembled functions lie: one table from addresses to instructions for the
    whole program, one instruction memory for each function. */
module CodeLayout {
  import opened Helpers

  /** A line of a function: a label, or an instruction of four or eight bytes. */
  datatype Line = Label(name: nat) | Inst(id: nat, size: nat)

  datatype Code = Code(start: nat, memory: seq<Option<nat>>, lines: seq<Line>)

  const MAX_SIZE := 8

  predicate IsBody(lines: seq<Line>) {
    forall k :: 0 <= k < |lines| && lines[k].Inst? ==> lines[k].size == 4 || lines[k].size == 8
  }

  /** The offset of line `k`: the sizes of the instructions before it. */
  function Offset(lines: seq<Line>, k: nat): nat
    requires k <= |lines|
  {
    if k == 0 then 0 else Offset(lines, k - 1) + (if lines[k - 1].Inst? then lines[k - 1].size else 0)
  }

  lemma {:induction false} OffsetsAscend(lines: seq<Line>, j: nat, k: nat)
    requires IsBody(lines) && j <= k <= |lines|
    ensures Offset(lines, j) <= Offset(lines, k) && Offset(lines, k) % 4 == 0
    ensures j < k && lines[j].Inst? ==> Offset(lines, j) < Offset(lines, k)
    decreases k
  {
    if k > 0 {
      OffsetsAscend(lines, if j < k then j else k - 1, k - 1);
    }
  }

  /** The memory of the first `k` lines: every instruction at its offset, and
      nothing in between. */
  ghost predicate Holds(memory: seq<Option<nat>>, lines: seq<Line>, k: nat)
    requires k <= |lines|
  {
    && |memory| == Offset(lines, k)
    && (forall j :: 0 <= j < k && lines[j].Inst? ==> At(memory, Offset(lines, j)) == Some(lines[j].id))
    && forall p :: 0 <= p < |memory| && memory[p].Some? ==> IsPlace(lines, k, p)
  }

  ghost predicate IsPlace(lines: seq<Line>, k: nat, p: nat)
    requires k <= |lines|
  {
    exists j :: 0 <= j < k && lines[j].Inst? && Offset(lines, j) == p
  }

  function At(memory: seq<Option<nat>>, p: nat): Option<nat> { if p < |memory| then memory[p] else None }

  lemma {:induction false} HoldsOneMore(memory: seq<Option<nat>>, memory': seq<Option<nat>>, lines: seq<Line>, k: nat)
    requires IsBody(lines) && k < |lines| && Holds(memory, lines, k)
    requires if lines[k].Inst? then memory' == memory + Slots(lines[k]) else memory' == memory
    ensures |memory| == Offset(lines, k) && Holds(memory', lines, k + 1)
  {
    forall j | 0 <= j < k + 1 && lines[j].Inst? ensures At(memory', Offset(lines, j)) == Some(lines[j].id) {
      OffsetsAscend(lines, j, k);
    }
    forall p | 0 <= p < |memory'| && memory'[p].Some? ensures IsPlace(lines, k + 1, p) {
      if p < |memory| {
        assert IsPlace(lines, k, p);
      }
    }
  }

  /** An instruction and the empty places behind it. */
  function Slots(line: Line): (slots: seq<Option<nat>>)
    requires line.Inst? && line.size > 0
    ensures |slots| == line.size
  {
    [Some(line.id)] + seq(line.size - 1, _ => None)
  }

  /** The code adds the remainder to align an address: right for multiples of four. */
  lemma {:induction false} PaddingAlignsIff(pc: nat)
    ensures (pc + pc % MAX_SIZE) % MAX_SIZE == 0 <==> pc % 4 == 0
  {
    var q, r := pc / MAX_SIZE, pc % MAX_SIZE;
    assert pc % 4 == r % 4;
    if r < 4 {
      assert pc + r == MAX_SIZE * q + 2 * r;
    } else {
      assert pc + r == MAX_SIZE * (q + 1) + 2 * (r - 4);
    }
  }

  ghost predicate IsPlaced(table: seq<Option<nat>>, f: Code) {
    && IsBody(f.lines) && f.start % MAX_SIZE == 0 && Holds(f.memory, f.lines, |f.lines|)
    && f.start + |f.memory| <= |table| && table[f.start..f.start + |f.memory|] == f.memory
  }

  predicate IsInside(f: Code, pc: nat) { f.start <= pc < f.start + |f.memory| }

  /** Functions lie one behind the other, each aligned, and the table repeats their
      memories and holds nothing else. */
  ghost predicate IsLaidOut(table: seq<Option<nat>>, functions: seq<Code>) {
    && |table| % 4 == 0
    && (forall pc: nat :: pc < |table| && table[pc].Some? ==> IsCovered(functions, pc))
    && (forall i :: 0 <= i < |functions| ==> IsPlaced(table, functions[i]))
    && forall i, j :: 0 <= i < j < |functions| ==> functions[i].start + |functions[i].memory| <= functions[j].start
  }

  ghost predicate IsCovered(functions: seq<Code>, pc: nat) {
    exists i :: 0 <= i < |functions| && IsInside(functions[i], pc)
  }

  lemma {:induction false} PlacedStays(table: seq<Option<nat>>, table': seq<Option<nat>>, f: Code)
    requires IsPlaced(table, f) && table <= table'
    ensures IsPlaced(table', f)
  {
    assert table'[f.start..f.start + |f.memory|] == table[f.start..f.start + |f.memory|];
  }

  /** The labels of the first `k` lines. */
  ghost predicate AreLabels(labels: map<nat, nat>, lines: seq<Line>, k: nat)
    requires k <= |lines|
  {
    && (forall name :: name in labels ==> IsLabelled(lines, k, name, labels[name]))
    && forall j :: 0 <= j < k && lines[j].Label? ==> lines[j].name in labels
  }

  /** The offset of the last line that carries the label: the next instruction. */
  ghost predicate IsLabelled(lines: seq<Line>, k: nat, name: nat, offset: nat)
    requires k <= |lines|
  {
    exists j :: 0 <= j < k && lines[j] == Label(name) && offset == Offset(lines, j)
                && forall i :: j < i < k ==> lines[i] != Label(name)
  }

  lemma {:induction false} LabelsOneMore(labels: map<nat, nat>, lines: seq<Line>, k: nat)
    requires k < |lines| && AreLabels(labels, lines, k)
    ensures AreLabels(if lines[k].Label? then labels[lines[k].name := Offset(lines, k)] else labels, lines, k + 1)
  {
    hide Offset;
    var labels' := if lines[k].Label? then labels[lines[k].name := Offset(lines, k)] else labels;
    forall name | name in labels' ensures IsLabelled(lines, k + 1, name, labels'[name]) {
      if lines[k] == Label(name) {
        assert labels'[name] == Offset(lines, k);
      } else {
        assert IsLabelled(lines, k, name, labels[name]);
      }
    }
  }

  class Assembler {
    var table: seq<Option<nat>>
    var nextPc: nat
    var functions: seq<Code>

    constructor ()
      ensures Valid() && functions == []
    {
      table, nextPc, functions := [], 0, [];
    }

    ghost predicate Valid()
      reads this
    {
      |table| == nextPc && IsLaidOut(table, functions)
    }

    method Assemble(lines: seq<Line>) returns (labels: map<nat, nat>)
      requires Valid() && IsBody(lines)
      modifies this
      ensures Valid() && old(table) <= table && |functions| == |old(functions)| + 1
      ensures functions[..|old(functions)|] == old(functions) && functions[|old(functions)|].lines == lines
      ensures functions[|old(functions)|].start == old(nextPc) + old(nextPc) % MAX_SIZE
      ensures AreLabels(labels, lines, |lines|)
    {
      var gap := seq(nextPc % MAX_SIZE, _ => None);
      var t, memory, pc;
      t, pc, memory, labels := LayLines(table + gap, nextPc + |gap|, lines);
      var f := Code(nextPc + |gap|, memory, lines);
      FunctionAdded(table, t, gap, functions, f);
      hide IsLaidOut, AreLabels;
      assert (functions + [f])[..|functions|] == functions;
      table, nextPc, functions := t, pc, functions + [f];
    }
  }

  method Emit(t: seq<Option<nat>>, pc: nat, memory: seq<Option<nat>>, line: Line)
    returns (t': seq<Option<nat>>, memory': seq<Option<nat>>)
    requires line.Inst? && line.size > 0 && |t| == pc
    ensures t' == t + Slots(line) && memory' == memory + Slots(line)
  {
    t' := t + [Some(line.id)];
    assert t'[pc] == Some(line.id);
    memory' := memory + [Some(line.id)];
    var n := 1;
    while n < line.size
      invariant 1 <= n <= line.size
      invariant t' == t + Slots(line)[..n] && memory' == memory + Slots(line)[..n]
    {
      t', memory' := t' + [None], memory' + [None];
      n := n + 1;
    }
    assert Slots(line)[..n] == Slots(line);
  }

  lemma {:induction false} NothingLaid(lines: seq<Line>)
    ensures Holds([], lines, 0) && AreLabels(map[], lines, 0)
  {
  }

  lemma {:induction false} SizeInBody(lines: seq<Line>, k: nat)
    requires IsBody(lines) && k < |lines|
    ensures lines[k].Inst? ==> lines[k].size > 0
  {
  }

  method LayLines(table: seq<Option<nat>>, start: nat, lines: seq<Line>)
    returns (t: seq<Option<nat>>, pc: nat, memory: seq<Option<nat>>, labels: map<nat, nat>)
    requires |table| == start && IsBody(lines)
    ensures t == table + memory && pc == |t|
    ensures Holds(memory, lines, |lines|) && AreLabels(labels, lines, |lines|)
  {
    var k := 0;
    t, pc, memory, labels := table, start, [], map[];
    NothingLaid(lines);
    hide Holds, AreLabels, Offset, Slots, IsBody;
    while k < |lines|
      invariant 0 <= k <= |lines| && Holds(memory, lines, k) && AreLabels(labels, lines, k)
      invariant t == table + memory && pc == |t|
    {
      ghost var before := memory;
      match lines[k] {
        case Label(name) =>
          HoldsOneMore(before, memory, lines, k);
          LabelsOneMore(labels, lines, k);
          labels := labels[name := |memory|];
        case Inst(id, size) =>
          SizeInBody(lines, k);
          t, memory := Emit(t, pc, memory, lines[k]);
          pc := pc + size;
          HoldsOneMore(before, memory, lines, k);
          LabelsOneMore(labels, lines, k);
      }
      k := k + 1;
    }
  }

  lemma {:induction false} FunctionAdded(table: seq<Option<nat>>, table': seq<Option<nat>>, gap: seq<Option<nat>>,
                                        functions: seq<Code>, f: Code)
    requires IsLaidOut(table, functions) && f.start == |table| + |table| % MAX_SIZE
    requires IsBody(f.lines) && Holds(f.memory, f.lines, |f.lines|)
    requires |gap| == |table| % MAX_SIZE && (forall x :: x in gap ==> x == None) && table' == table + gap + f.memory
    ensures IsLaidOut(table', functions + [f])
  {
    hide Holds;
    forall pc: nat | |table| <= pc < f.start ensures table'[pc] == None {
      assert table'[pc] == gap[pc - |table|] && gap[pc - |table|] in gap;
    }
    forall pc: nat | pc < |table'| && table'[pc].Some? ensures IsCovered(functions + [f], pc) {
      if f.start <= pc {
        assert (functions + [f])[|functions|] == f && IsInside(f, pc);
      } else {
        assert table[pc].Some?;
        var i :| 0 <= i < |functions| && IsInside(functions[i], pc);
        assert (functions + [f])[i] == functions[i];
      }
    }
    assert |f.memory| == Offset(f.lines, |f.lines|) by { HoldsSize(f.memory, f.lines); }
    forall i | 0 <= i < |functions|
      ensures IsPlaced(table', functions[i]) && functions[i].start + |functions[i].memory| <= f.start
    {
      PlacedStays(table, table', functions[i]);
    }
    PaddingAlignsIff(|table|);
    OffsetsAscend(f.lines, 0, |f.lines|);
    EndIsMultiple(f.start, |f.memory|);
  }

  lemma {:induction false} HoldsSize(memory: seq<Option<nat>>, lines: seq<Line>)
    requires Holds(memory, lines, |lines|)
    ensures |memory| == Offset(lines, |lines|)
  {
  }

  lemma {:induction false} EndIsMultiple(start: nat, size: nat)
    requires start % MAX_SIZE == 0 && size % 4 == 0
    ensures (start + size) % 4 == 0
  {
    assert start + size == 4 * (2 * (start / MAX_SIZE) + size / 4);
  }

  // ----- lookups

  /** The two ways to find the instruction at an address of a function. */
  function Lookup(table: seq<Option<nat>>, pc: nat): Option<nat> { if pc < |table| then table[pc] else None }

  function GetInstruction(f: Code, pc: nat): Option<nat> {
    if f.start <= pc then At(f.memory, pc - f.start) else None
  }

  /** Outside all functions nothing is found. */
  lemma {:induction false} NothingOutside(a: Assembler, pc: nat)
    requires a.Valid() && forall i :: 0 <= i < |a.functions| ==> !IsInside(a.functions[i], pc)
    ensures Lookup(a.table, pc).None?
  {
    assert pc < |a.table| && a.table[pc].Some? ==> IsCovered(a.functions, pc);
  }

  /** An address finds an instruction exactly when it is the address of a line of a
      function, both tables agree on it, and no other function holds that address. */
  lemma {:induction false} LookupsAgree(a: Assembler, i: nat, pc: nat)
    requires a.Valid() && i < |a.functions|
    requires var f := a.functions[i]; f.start <= pc < f.start + |f.memory|
    ensures var f := a.functions[i];
            && Lookup(a.table, pc) == GetInstruction(f, pc)
            && (Lookup(a.table, pc).Some? <==> IsPlace(f.lines, |f.lines|, pc - f.start))
            && forall k :: 0 <= k < |f.lines| && f.lines[k].Inst? && pc == f.start + Offset(f.lines, k) ==>
                 Lookup(a.table, pc) == Some(f.lines[k].id)
    ensures forall j :: 0 <= j < |a.functions| && j != i ==>
              !(a.functions[j].start <= pc < a.functions[j].start + |a.functions[j].memory|)
  {
    var f := a.functions[i];
    assert IsPlaced(a.table, f);
    assert a.table[f.start..f.start + |f.memory|][pc - f.start] == a.table[pc];
  }
}

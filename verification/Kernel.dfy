/** Kernels as basic blocks, and what one thread does on its own. */
module Kernels {
  import opened Dominance
  import opened ControlFlow
  import opened Helpers
  import opened SimtStacks

  /** `length` counts the instructions; the last one is described by `end`.
      `barriers` and `fences` hold the offsets of barriers and memory barriers. */
  datatype Block = Block(length: nat, end: Terminator, barriers: set<nat>, fences: set<nat>)

  /** `breakTargets` gives the block each break jumps to; `atZero` says that the
      kernel was assembled first, so that its entry has address 0. */
  datatype Kernel = Kernel(blocks: seq<Block>, breakTargets: map<nat, nat>, atZero: bool)

  function Exit(k: Kernel): nat { |k.blocks| }

  function BreakTarget(k: Kernel, b: nat): Option<nat> {
    if b in k.breakTargets then Some(k.breakTargets[b]) else None
  }

  /** The control-flow graph: the exit block has no successor. */
  function SuccessorGraph(k: Kernel): Graph {
    seq(Exit(k) + 1, b requires 0 <= b <= Exit(k) =>
      if b == Exit(k) then {} else Successors(k.blocks[b].end, Exit(k), BreakTarget(k, b)))
  }

  predicate WellFormedBlock(k: Kernel, b: nat)
    requires b < Exit(k)
  {
    var block := k.blocks[b];
    && 0 < block.length && InRange(block.end, Exit(k))
    && (block.end.Return? && block.end.predicated ==> block.end.after.Some?)
    && (block.end.Break? ==> b in k.breakTargets && k.breakTargets[b] < Exit(k))
    && (block.length - 1 in block.barriers + block.fences ==> block.end.FallThrough?)
  }

  ghost predicate SaneBlocks(k: Kernel) {
    0 < Exit(k) && forall b :: 0 <= b < Exit(k) ==> WellFormedBlock(k, b)
  }

  /** What lockstep execution rests on: no edge leads back to the entry block, as
      the loader asserts, and every block leads to the exit. */
  ghost predicate WellFormed(k: Kernel) {
    && SaneBlocks(k)
    && (forall b :: 0 <= b < Exit(k) ==> 0 !in SuccessorGraph(k)[b])
    && AllReach(SuccessorGraph(k), Exit(k))
  }

  ghost predicate StrictlyPostdominates(k: Kernel, d: nat, b: nat) {
    StrictlyDominates(SuccessorGraph(k), Exit(k), d, b)
  }

  /** A table of immediate post-dominators, as the analysis leaves it. */
  ghost predicate IsIpdomTable(k: Kernel, ipdom: seq<int>) {
    && |ipdom| == Exit(k) + 1
    && forall b: nat :: b < Exit(k) ==>
         0 <= ipdom[b] && IsImmediate(SuccessorGraph(k), Exit(k), ipdom[b], b)
  }

  predicate ValidPc(k: Kernel, pc: Pc) {
    pc.Code? && pc.block < Exit(k) && pc.offset < k.blocks[pc.block].length
  }

  predicate AtEnd(k: Kernel, pc: Pc)
    requires ValidPc(k, pc)
  {
    pc.offset + 1 == k.blocks[pc.block].length
  }

  function OpAt(k: Kernel, pc: Pc): (op: Op)
    requires ValidPc(k, pc)
    ensures op != CallOp
  {
    var block := k.blocks[pc.block];
    if pc.offset in block.barriers then BarrierOp
    else if pc.offset in block.fences then MemoryBarrierOp
    else if !AtEnd(k, pc) then OtherOp
    else match block.end
      case Branch(_, _, _) => BranchOp
      case Return(_, _) => ReturnOp
      case _ => OtherOp
  }

  /** The address in the bottom call frame of a thread that runs a kernel. */
  function ReturnAddress(k: Kernel): Pc {
    if k.atZero then Code(0, 0) else Elsewhere
  }

  /** The reconvergence point decoded with an instruction: only branches have
      one, and it is -2 if it is the exit block. */
  function ConvergePoint(k: Kernel, ipdom: seq<int>, pc: Pc): Pc
    requires ValidPc(k, pc) && |ipdom| == Exit(k) + 1
  {
    if AtEnd(k, pc) && k.blocks[pc.block].end.Branch? then
      var d := ipdom[pc.block];
      if 0 <= d < Exit(k) then Code(d, 0) else ReturnMarker
    else NoPc
  }

  // ----- one thread

  datatype Thread = Thread(pc: Pc, done: bool, steps: nat)

  /** The outcome of the guard of thread `lane` at its `step`-th instruction. */
  type Guards = (nat, nat) -> bool

  /** The thread after the instruction at its program counter. */
  function Execute(k: Kernel, taken: bool, t: Thread): Thread
    requires ValidPc(k, t.pc) && WellFormedBlock(k, t.pc.block)
  {
    var b := t.pc.block;
    if !AtEnd(k, t.pc) then Thread(Code(b, t.pc.offset + 1), false, t.steps + 1)
    else match k.blocks[b].end
      case FallThrough(next) => Thread(Code(next, 0), false, t.steps + 1)
      case Branch(target, predicated, next) =>
        Thread(Code(if !predicated || taken then target else next, 0), false, t.steps + 1)
      case Return(predicated, after) =>
        if !predicated || taken then Thread(NoPc, true, t.steps + 1)
        else Thread(Code(after.value, 0), false, t.steps + 1)
      case Break(predicated, next) =>
        Thread(Code(if !predicated || taken then k.breakTargets[b] else next, 0), false, t.steps + 1)
  }

  ghost predicate ProperThread(k: Kernel, t: Thread) {
    !t.done ==> ValidPc(k, t.pc)
  }

  /** The thread after `n` instructions run by itself from the kernel's entry. */
  ghost function Alone(k: Kernel, guards: Guards, lane: nat, n: nat): (t: Thread)
    requires WellFormed(k)
    ensures ProperThread(k, t)
  {
    if n == 0 then
      assert WellFormedBlock(k, 0);
      Thread(Code(0, 0), false, 0)
    else
      var t := Alone(k, guards, lane, n - 1);
      if t.done then t
      else
        ExecuteLeads(k, guards(lane, t.steps), t);
        Execute(k, guards(lane, t.steps), t)
  }

  // ----- where one instruction leads

  /** Either the next instruction of the block or the start of a successor. */
  ghost predicate Leads(k: Kernel, b: nat, pc: Pc)
    requires b < Exit(k)
  {
    && ValidPc(k, pc)
    && ((pc.block == b && pc.offset > 0) || (pc.offset == 0 && pc.block in SuccessorGraph(k)[b]))
  }

  lemma {:induction false} ExecuteLeads(k: Kernel, taken: bool, t: Thread)
    requires WellFormed(k) && ValidPc(k, t.pc)
    ensures var t' := Execute(k, taken, t);
            && t'.steps == t.steps + 1
            && (t'.done ==> Exit(k) in SuccessorGraph(k)[t.pc.block] && OpAt(k, t.pc) == ReturnOp)
            && (!t'.done ==> Leads(k, t.pc.block, t'.pc))
  {
    assert WellFormedBlock(k, t.pc.block);
    assert SuccessorGraph(k)[t.pc.block]
        == Successors(k.blocks[t.pc.block].end, Exit(k), BreakTarget(k, t.pc.block));
    var t' := Execute(k, taken, t);
    if !t'.done && AtEnd(k, t.pc) {
      assert WellFormedBlock(k, t'.pc.block);
    }
  }

  lemma {:induction false} EntryIsEnteredOnce(k: Kernel, b: nat, pc: Pc)
    requires WellFormed(k) && b < Exit(k) && Leads(k, b, pc)
    ensures pc != Code(0, 0)
  {
  }
}

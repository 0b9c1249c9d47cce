/** What one thread executes: the control-flow graph has exactly the edges that
    execution takes, and the traces of threads are exactly its paths, every block
    of them run from its first instruction to its last. */
module ThreadPaths {
  import opened Dominance
  import opened ControlFlow
  import opened Helpers
  import opened SimtStacks
  import opened Kernels
  import opened Lockstep
  import opened LockstepRuns
  import opened Assembly

  // ----- edges

  /** A thread at the last instruction of `b` goes to `d`, or ends if that is the
      exit. */
  predicate Arrives(k: Kernel, b: nat, taken: bool, d: nat)
    requires b < Exit(k) && WellFormedBlock(k, b)
  {
    var t := Execute(k, taken, Thread(Code(b, k.blocks[b].length - 1), false, 0));
    if t.done then d == Exit(k) else t.pc == Code(d, 0)
  }

  /** The edges of the graph are those that execution takes. */
  lemma {:induction false} EdgesAreTaken(k: Kernel, b: nat, d: nat)
    requires b < Exit(k) && WellFormedBlock(k, b)
    ensures d in SuccessorGraph(k)[b] <==> Arrives(k, b, true, d) || Arrives(k, b, false, d)
  {
    assert SuccessorGraph(k)[b] == Successors(k.blocks[b].end, Exit(k), BreakTarget(k, b));
  }

  predicate IsPredicated(t: Terminator) {
    match t
    case FallThrough(_) => false
    case Branch(_, predicated, _) => predicated
    case Return(predicated, _) => predicated
    case Break(predicated, _) => predicated
  }

  /** The same instruction without its guard. */
  function Unguarded(t: Terminator): Terminator {
    match t
    case FallThrough(_) => t
    case Branch(target, _, next) => Branch(target, false, next)
    case Return(_, after) => Return(false, after)
    case Break(_, next) => Break(false, next)
  }

  /** An instruction that does nothing in the place of a guarded one. */
  function Skipped(t: Terminator): Terminator
    requires t.Return? ==> t.after.Some?
  {
    match t
    case FallThrough(_) => t
    case Branch(_, _, next) => FallThrough(next)
    case Return(_, after) => FallThrough(after.value)
    case Break(_, next) => FallThrough(next)
  }

  function EndingIn(k: Kernel, b: nat, t: Terminator): Kernel
    requires b < Exit(k)
  {
    k.(blocks := k.blocks[b := k.blocks[b].(end := t)])
  }

  /** A guard that holds makes an instruction act as if it had none, and one that
      fails makes it act as if it were not there. */
  lemma {:induction false} GuardDecides(k: Kernel, b: nat, taken: bool, steps: nat)
    requires b < Exit(k) && WellFormedBlock(k, b)
    ensures var end, t := k.blocks[b].end, Thread(Code(b, k.blocks[b].length - 1), false, steps);
            var acts := if taken || !IsPredicated(end) then Unguarded(end) else Skipped(end);
            && WellFormedBlock(EndingIn(k, b, acts), b)
            && forall any :: Execute(k, taken, t) == Execute(EndingIn(k, b, acts), any, t)
  {
  }

  /** Where the unguarded instruction and the skipped one lead. */
  lemma {:induction false} UnguardedLeads(k: Kernel, b: nat, taken: bool, d: nat)
    requires b < Exit(k) && WellFormedBlock(k, b) && !IsPredicated(k.blocks[b].end)
    ensures Arrives(k, b, taken, d) <==>
              (match k.blocks[b].end
               case FallThrough(next) => d == next
               case Branch(target, _, _) => d == target
               case Return(_, _) => d == Exit(k)
               case Break(_, _) => d == k.breakTargets[b])
  {
  }

  /** The kernel with every break replaced by an instruction that does nothing. */
  function IgnoringBreaks(k: Kernel): Kernel {
    k.(blocks := seq(Exit(k), b requires 0 <= b < Exit(k) =>
      if k.blocks[b].end.Break? then k.blocks[b].(end := Skipped(k.blocks[b].end)) else k.blocks[b]))
  }

  /** The graph as first linked has the edges of execution, but for breaks, which
      lead to the next block. */
  lemma {:induction false} FirstEdgesAreTaken(k: Kernel, b: nat, d: nat)
    requires b < Exit(k) && WellFormedBlock(k, b)
    ensures WellFormedBlock(IgnoringBreaks(k), b)
    ensures d in FirstGraph(k)[b] <==> Arrives(IgnoringBreaks(k), b, true, d) || Arrives(IgnoringBreaks(k), b, false, d)
    ensures !k.blocks[b].end.Break? ==>
              (d in FirstGraph(k)[b] <==> Arrives(k, b, true, d) || Arrives(k, b, false, d))
  {
    assert FirstGraph(k)[b] == Successors(k.blocks[b].end, Exit(k), None);
    var k' := IgnoringBreaks(k);
    assert Exit(k') == Exit(k);
    assert SuccessorGraph(k')[b] == Successors(k'.blocks[b].end, Exit(k'), BreakTarget(k', b));
    EdgesAreTaken(k', b, d);
    if !k.blocks[b].end.Break? {
      EdgesAreTaken(k, b, d);
    }
  }

  // ----- one block

  lemma {:induction false} LiveSteps(k: Kernel, guards: Guards, lane: nat, n: nat)
    requires WellFormed(k) && !Alone(k, guards, lane, n).done
    ensures Alone(k, guards, lane, n).steps == n && ValidPc(k, Alone(k, guards, lane, n).pc)
    ensures forall j: nat :: j <= n ==> !Alone(k, guards, lane, j).done
  {
    if n > 0 {
      LiveSteps(k, guards, lane, n - 1);
      ExecuteLeads(k, guards(lane, n - 1), Alone(k, guards, lane, n - 1));
    }
  }

  /** A thread runs through its block in order. */
  lemma {:induction false} BlockRunsInOrder(k: Kernel, guards: Guards, lane: nat, n: nat, b: nat, j: nat)
    requires WellFormed(k) && !Alone(k, guards, lane, n).done && Alone(k, guards, lane, n).pc == Code(b, 0)
    requires j < k.blocks[b].length
    ensures Alone(k, guards, lane, n + j) == Thread(Code(b, j), false, n + j)
  {
    LiveSteps(k, guards, lane, n);
    if j > 0 {
      BlockRunsInOrder(k, guards, lane, n, b, j - 1);
    }
  }

  /** Then it follows an edge of the graph. */
  lemma {:induction false} BlockIsLeft(k: Kernel, guards: Guards, lane: nat, n: nat, b: nat) returns (d: nat)
    requires WellFormed(k) && !Alone(k, guards, lane, n).done && Alone(k, guards, lane, n).pc == Code(b, 0)
    ensures b < Exit(k) && d in SuccessorGraph(k)[b] && d <= Exit(k)
    ensures var last := n + k.blocks[b].length;
            && Arrives(k, b, guards(lane, last - 1), d)
            && Alone(k, guards, lane, last) ==
               if d == Exit(k) then Thread(NoPc, true, last) else Thread(Code(d, 0), false, last)
  {
    assert ProperThread(k, Alone(k, guards, lane, n));
    var length := k.blocks[b].length;
    assert WellFormedBlock(k, b);
    BlockRunsInOrder(k, guards, lane, n, b, length - 1);
    var t := Execute(k, guards(lane, n + length - 1), Thread(Code(b, length - 1), false, n + length - 1));
    assert Alone(k, guards, lane, n + length) == t;
    d := if t.done then Exit(k) else t.pc.block;
    EdgesAreTaken(k, b, d);
    assert Arrives(k, b, guards(lane, n + length - 1), d);
  }

  // ----- whole traces

  /** The instructions of a block. */
  function Instructions(k: Kernel, b: nat): seq<Pc> {
    if b < Exit(k) then seq(k.blocks[b].length, j requires 0 <= j => Code(b, j)) else []
  }

  /** The instructions of the blocks of a path; the exit block has none. */
  function Unrolled(k: Kernel, p: seq<nat>): seq<Pc> {
    if p == [] then [] else Instructions(k, p[0]) + Unrolled(k, p[1..])
  }

  /** The program counters of a thread's instructions `n` up to `m`. */
  ghost function Trace(k: Kernel, guards: Guards, lane: nat, n: nat, m: nat): seq<Pc>
    requires WellFormed(k) && n <= m
  {
    seq(m - n, j requires 0 <= j < m - n => Alone(k, guards, lane, n + j).pc)
  }

  lemma {:induction false} TraceIsAloneTrace(k: Kernel, guards: Guards, lane: nat, m: nat)
    requires WellFormed(k)
    ensures Trace(k, guards, lane, 0, m) == AloneTrace(k, guards, lane, m)
  {
    hide WellFormed, Alone;
    if m > 0 {
      TraceIsAloneTrace(k, guards, lane, m - 1);
      assert Trace(k, guards, lane, 0, m) == Trace(k, guards, lane, 0, m - 1) + [Alone(k, guards, lane, m - 1).pc];
    }
  }

  lemma {:induction false} TraceOfBlock(k: Kernel, guards: Guards, lane: nat, n: nat, b: nat)
    requires WellFormed(k) && !Alone(k, guards, lane, n).done && Alone(k, guards, lane, n).pc == Code(b, 0)
    ensures b < Exit(k) && Trace(k, guards, lane, n, n + k.blocks[b].length) == Instructions(k, b)
  {
    assert ProperThread(k, Alone(k, guards, lane, n));
    forall j: nat | j < k.blocks[b].length ensures Alone(k, guards, lane, n + j).pc == Code(b, j) {
      BlockRunsInOrder(k, guards, lane, n, b, j);
    }
  }

  lemma {:induction false} TraceSplits(k: Kernel, guards: Guards, lane: nat, n: nat, l: nat, m: nat)
    requires WellFormed(k) && n <= l <= m
    ensures Trace(k, guards, lane, n, m) == Trace(k, guards, lane, n, l) + Trace(k, guards, lane, l, m)
  {
  }

  /** From the start of a block, a thread that ends follows a path to the exit. */
  lemma {:induction false} FollowsPath(k: Kernel, guards: Guards, lane: nat, n: nat, b: nat, bound: nat)
    returns (p: seq<nat>, m: nat)
    requires WellFormed(k) && !Alone(k, guards, lane, n).done && Alone(k, guards, lane, n).pc == Code(b, 0)
    requires Alone(k, guards, lane, bound).done
    ensures IsPath(SuccessorGraph(k), Exit(k), p, b) && n <= m
    ensures Alone(k, guards, lane, m) == Thread(NoPc, true, m)
    ensures Trace(k, guards, lane, n, m) == Unrolled(k, p)
    decreases bound - n
  {
    assert n < bound by {
      if bound <= n {
        LiveSteps(k, guards, lane, n);
      }
    }
    hide Alone, Arrives, WellFormed;
    var d := BlockIsLeft(k, guards, lane, n, b);
    var l := n + k.blocks[b].length;
    TraceOfBlock(k, guards, lane, n, b);
    if d == Exit(k) {
      p, m := [b, d], l;
      LastBlock(k, b);
    } else {
      var q;
      BlockIsUsed(k, b);
      q, m := FollowsPath(k, guards, lane, l, d, bound);
      p := [b] + q;
      assert p[1..] == q;
      TraceSplits(k, guards, lane, n, l, m);
    }
  }

  lemma {:induction false} LastBlock(k: Kernel, b: nat)
    ensures Unrolled(k, [b, Exit(k)]) == Instructions(k, b)
  {
    assert [b, Exit(k)][1..] == [Exit(k)] && [Exit(k)][1..] == [];
    assert Unrolled(k, [Exit(k)]) == [];
  }

  lemma {:induction false} BlockIsUsed(k: Kernel, b: nat)
    requires WellFormed(k) && b < Exit(k)
    ensures k.blocks[b].length > 0
  {
    assert WellFormedBlock(k, b);
  }

  /** The trace of every thread that ends is a path from the entry to the exit, with
      every block run from beginning to end. */
  lemma {:induction false} TracesArePaths(k: Kernel, guards: Guards, lane: nat, bound: nat) returns (p: seq<nat>)
    requires WellFormed(k) && Alone(k, guards, lane, bound).done
    ensures IsPath(SuccessorGraph(k), Exit(k), p, 0)
    ensures AloneTrace(k, guards, lane, Alone(k, guards, lane, bound).steps) == Unrolled(k, p)
  {
    var m;
    p, m := FollowsPath(k, guards, lane, 0, 0, bound);
    TraceIsAloneTrace(k, guards, lane, m);
    EndsOnce(k, guards, lane, m, bound);
  }

  lemma {:induction false} EndsOnce(k: Kernel, guards: Guards, lane: nat, m: nat, n: nat)
    requires WellFormed(k) && Alone(k, guards, lane, m).done && Alone(k, guards, lane, n).done
    ensures Alone(k, guards, lane, m) == Alone(k, guards, lane, n)
  {
    if m < n {
      StaysDone(k, guards, lane, m, n);
    } else {
      StaysDone(k, guards, lane, n, m);
    }
  }

  lemma {:induction false} StaysDone(k: Kernel, guards: Guards, lane: nat, n: nat, m: nat)
    requires WellFormed(k) && Alone(k, guards, lane, n).done && n <= m
    ensures Alone(k, guards, lane, m) == Alone(k, guards, lane, n)
  {
    if n < m {
      StaysDone(k, guards, lane, n, m - 1);
    }
  }

  // ----- every path is a trace

  /** The outcomes in a list, and then anything. */
  function Listed(outcomes: seq<bool>): Guards {
    (lane: nat, step: nat) => step < |outcomes| && outcomes[step]
  }

  lemma {:induction false} OnlyPastCounts(k: Kernel, guards: Guards, guards': Guards, lane: nat, n: nat)
    requires WellFormed(k) && forall step: nat :: step < n ==> guards(lane, step) == guards'(lane, step)
    ensures Alone(k, guards, lane, n) == Alone(k, guards', lane, n)
  {
    if n > 0 {
      OnlyPastCounts(k, guards, guards', lane, n - 1);
      if !Alone(k, guards, lane, n - 1).done {
        LiveSteps(k, guards, lane, n - 1);
      }
    }
  }

  /** Outcomes that take a thread from the start of `p` to its end. */
  lemma {:induction false} PathIsFollowed(k: Kernel, lane: nat, p: seq<nat>, b: nat, outcomes: seq<bool>)
    returns (longer: seq<bool>)
    requires WellFormed(k) && IsPath(SuccessorGraph(k), Exit(k), p, b) && b < Exit(k)
    requires Alone(k, Listed(outcomes), lane, |outcomes|) == Thread(Code(b, 0), false, |outcomes|)
    ensures outcomes <= longer && Alone(k, Listed(longer), lane, |longer|) == Thread(NoPc, true, |longer|)
    ensures Trace(k, Listed(longer), lane, |outcomes|, |longer|) == Unrolled(k, p)
    decreases |p|
  {
    hide Alone, Arrives, WellFormed, SuccessorGraph;
    var d, next := OneBlockFollowed(k, lane, p, b, outcomes);
    var n, l := |outcomes|, |next|;
    if d == Exit(k) {
      longer := next;
      ExitEndsPath(k, p, b);
      LastBlock(k, b);
    } else {
      longer := PathIsFollowed(k, lane, p[1..], d, next);
      TraceSplits(k, Listed(longer), lane, n, l, |longer|);
      SameTrace(k, Listed(next), Listed(longer), lane, n, l);
    }
  }

  lemma {:induction false} OneBlockFollowed(k: Kernel, lane: nat, p: seq<nat>, b: nat, outcomes: seq<bool>)
    returns (d: nat, next: seq<bool>)
    requires WellFormed(k) && IsPath(SuccessorGraph(k), Exit(k), p, b) && b < Exit(k)
    requires Alone(k, Listed(outcomes), lane, |outcomes|) == Thread(Code(b, 0), false, |outcomes|)
    ensures |p| > 1 && d == p[1] <= Exit(k) && outcomes <= next && |outcomes| < |next|
    ensures Alone(k, Listed(next), lane, |next|) ==
            if d == Exit(k) then Thread(NoPc, true, |next|) else Thread(Code(d, 0), false, |next|)
    ensures Trace(k, Listed(next), lane, |outcomes|, |next|) == Instructions(k, b)
  {
    hide Alone, Arrives, SuccessorGraph, WellFormed, WellFormedBlock, IsPath, Trace;
    NextOnPath(k, p, b);
    d := p[1];
    BlockIsUsed(k, b);
    SuccessorIsClose(k, b, d);
    var taken := Arrives(k, b, true, d);
    next := outcomes + seq(k.blocks[b].length, _ => taken);
    OnlyPastCounts(k, Listed(outcomes), Listed(next), lane, |outcomes|);
    BlockTaken(k, Listed(next), lane, |outcomes|, b, taken, d);
  }

  lemma {:induction false} NextOnPath(k: Kernel, p: seq<nat>, b: nat)
    requires IsPath(SuccessorGraph(k), Exit(k), p, b) && b < Exit(k)
    ensures |p| > 1 && p[1] in SuccessorGraph(k)[b]
  {
  }

  lemma {:induction false} BlockTaken(k: Kernel, guards: Guards, lane: nat, n: nat, b: nat, taken: bool, d: nat)
    requires WellFormed(k) && b < Exit(k) && WellFormedBlock(k, b) && Arrives(k, b, taken, d)
    requires Alone(k, guards, lane, n) == Thread(Code(b, 0), false, n)
    requires k.blocks[b].length > 0 && guards(lane, n + k.blocks[b].length - 1) == taken
    ensures var l := n + k.blocks[b].length;
            && Alone(k, guards, lane, l) ==
               (if d == Exit(k) then Thread(NoPc, true, l) else Thread(Code(d, 0), false, l))
            && Trace(k, guards, lane, n, l) == Instructions(k, b)
  {
    hide Alone, Arrives, SuccessorGraph, WellFormed, WellFormedBlock, Trace;
    var d' := BlockIsLeft(k, guards, lane, n, b);
    ArrivesOnce(k, b, taken, d, d');
    TraceOfBlock(k, guards, lane, n, b);
  }

  lemma {:induction false} SuccessorIsClose(k: Kernel, b: nat, d: nat)
    requires WellFormed(k) && b < Exit(k) && d in SuccessorGraph(k)[b]
    ensures d <= Exit(k) && WellFormedBlock(k, b) && (Arrives(k, b, true, d) || Arrives(k, b, false, d))
  {
    assert WellFormedBlock(k, b);
    EdgesAreTaken(k, b, d);
  }

  lemma {:induction false} SameTrace(k: Kernel, guards: Guards, guards': Guards, lane: nat, n: nat, m: nat)
    requires WellFormed(k) && n <= m && forall step: nat :: step < m ==> guards(lane, step) == guards'(lane, step)
    ensures Trace(k, guards, lane, n, m) == Trace(k, guards', lane, n, m)
    ensures Alone(k, guards, lane, m) == Alone(k, guards', lane, m)
  {
    forall j: nat | j <= m ensures Alone(k, guards, lane, j) == Alone(k, guards', lane, j) {
      OnlyPastCounts(k, guards, guards', lane, j);
    }
  }

  lemma {:induction false} ArrivesOnce(k: Kernel, b: nat, taken: bool, d: nat, d': nat)
    requires b < Exit(k) && WellFormedBlock(k, b) && Arrives(k, b, taken, d) && Arrives(k, b, taken, d')
    ensures d == d'
  {
  }

  lemma {:induction false} ExitEndsPath(k: Kernel, p: seq<nat>, b: nat)
    requires IsPath(SuccessorGraph(k), Exit(k), p, b) && b < Exit(k) && p[1] == Exit(k)
    ensures p == [b, Exit(k)]
  {
    assert SuccessorGraph(k)[Exit(k)] == {};
  }

  /** Every path from the entry to the exit is the trace of a thread for some
      outcomes of its guards. */
  lemma {:induction false} PathsAreTraces(k: Kernel, lane: nat, p: seq<nat>) returns (guards: Guards, n: nat)
    requires WellFormed(k) && IsPath(SuccessorGraph(k), Exit(k), p, 0)
    ensures Alone(k, guards, lane, n) == Thread(NoPc, true, n)
    ensures AloneTrace(k, guards, lane, n) == Unrolled(k, p)
  {
    var outcomes := PathIsFollowed(k, lane, p, 0, []);
    guards, n := Listed(outcomes), |outcomes|;
    TraceIsAloneTrace(k, guards, lane, n);
  }

  /** So the instructions a warp fetches for a thread that has ended are a path. */
  lemma {:induction false} FetchedIsPath(k: Kernel, ipdom: seq<int>, guards: Guards, ws: seq<Warp>, i: nat)
    returns (p: seq<nat>)
    requires WellFormed(k) && IsIpdomTable(k, ipdom) && IsRun(k, ipdom, guards, ws)
    requires i < |ws[0].threads| && !ws[0].threads[i].done
    ensures |Last(ws).threads| == |ws[0].threads|
    ensures Last(ws).threads[i].done ==>
              IsPath(SuccessorGraph(k), Exit(k), p, 0) && Fetched(ws, i) == Unrolled(k, p)
  {
    assert ws != [];
    hide IsRun, WellFormed, IsIpdomTable, Alone, AloneTrace, IsPath;
    RunFollowsThreads(k, ipdom, guards, ws);
    p := [];
    if Last(ws).threads[i].done {
      p := TracesArePaths(k, guards, i, Last(ws).threads[i].steps);
    }
  }
}

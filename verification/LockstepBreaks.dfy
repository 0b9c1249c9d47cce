/** A run that fails at a predicated break.  Three lanes: one takes the other arm of
    a branch, the two that are left part ways at a break, which has no reconvergence
    point.  When they have finished, the entry they leave behind is uncovered while
    the third lane is still live. */
module LockstepBreaks {
  import opened Dominance
  import opened ControlFlow
  import opened Helpers
  import opened SimtStacks
  import opened SimtShape
  import opened Kernels
  import opened Lockstep
  import opened LockstepRuns
  import opened LockstepExact
  import opened LockstepLimits

  const BREAKING := Kernel(
    [Block(1, Branch(1, true, 2), {}, {}), Block(1, Break(true, 2), {}, {}),
     Block(1, Return(false, None), {}, {}), Block(1, Return(false, None), {}, {})],
    map[1 := 3], false)

  function BreakingGuards(lane: nat, step: nat): bool {
    lane == 0 || (lane == 1 && step == 0)
  }

  lemma {:induction false} BreakingGraph()
    ensures SuccessorGraph(BREAKING) == [{1, 2}, {3, 2}, {4}, {4}, {}]
  {
  }

  lemma {:induction false} BreakingPaths(g: Graph)
    requires g == [{1, 2}, {3, 2}, {4}, {4}, {}]
    ensures Fine(g, 0) && Fine(g, 1) && Fine(g, 2) && Fine(g, 3)
  {
    ShortPath(g, 4, 2);
    ShortPath(g, 4, 3);
    ExitIsImmediate(g, 4, 2, [2, 4], [2, 4]);
    ExitIsImmediate(g, 4, 3, [3, 4], [3, 4]);
    LongerPath(g, 4, 1, 2, [2, 4]);
    LongerPath(g, 4, 1, 3, [3, 4]);
    LongerPath(g, 4, 0, 2, [2, 4]);
    LongerPath(g, 4, 0, 1, [1] + [3, 4]);
    hide Fine;
    BranchIsFine(g, 1, [1] + [2, 4], [1] + [3, 4]);
    BranchIsFine(g, 0, [0] + [2, 4], [0] + ([1] + [3, 4]));
    assert Fine(g, 2) && Fine(g, 3) by {
      ExitFine(g, 2);
      ExitFine(g, 3);
    }
  }

  lemma {:induction false} ExitFine(g: Graph, b: nat)
    requires |g| == 5 && b < 4 && 4 in g[b]
    ensures Fine(g, b)
  {
    ShortPath(g, 4, b);
    ExitIsImmediate(g, 4, b, [b, 4], [b, 4]);
  }

  lemma {:induction false} BreakingIsFine()
    ensures WellFormed(BREAKING) && IsIpdomTable(BREAKING, TABLE)
  {
    var g := SuccessorGraph(BREAKING);
    BreakingGraph();
    BreakingPaths(g);
    assert IsPath(g, 4, [4], 4);
    forall b: nat | b < 5 ensures Reaches(g, 4, b) && (b < 4 ==> Fine(g, b)) {
      assert b == 0 || b == 1 || b == 2 || b == 3 || b == 4;
    }
    forall b: nat | b < 4 ensures 0 <= TABLE[b] && IsImmediate(g, 4, TABLE[b], b) {
      assert Fine(g, b);
    }
  }

  /** What the instructions do. */
  lemma {:induction false} BreakingInstructions(n: nat)
    ensures WellFormedBlock(BREAKING, 0) && WellFormedBlock(BREAKING, 1)
    ensures WellFormedBlock(BREAKING, 2) && WellFormedBlock(BREAKING, 3)
    ensures forall taken :: Execute(BREAKING, taken, Thread(Code(0, 0), false, n))
                         == Thread(Code(if taken then 1 else 2, 0), false, n + 1)
    ensures forall taken :: Execute(BREAKING, taken, Thread(Code(1, 0), false, n))
                         == Thread(Code(if taken then 3 else 2, 0), false, n + 1)
    ensures forall taken :: Execute(BREAKING, taken, Thread(Code(2, 0), false, n)) == Thread(NoPc, true, n + 1)
    ensures forall taken :: Execute(BREAKING, taken, Thread(Code(3, 0), false, n)) == Thread(NoPc, true, n + 1)
    ensures ValidPc(BREAKING, Code(0, 0)) && ConvergePoint(BREAKING, TABLE, Code(0, 0)) == ReturnMarker
    ensures ValidPc(BREAKING, Code(1, 0)) && ConvergePoint(BREAKING, TABLE, Code(1, 0)) == NoPc
    ensures OpAt(BREAKING, Code(0, 0)) == BranchOp && OpAt(BREAKING, Code(1, 0)) == OtherOp
  {
  }

  const ALL := Entry(Code(0, 0), {0, 1, 2}, NoPc, Normal)
  const START := Warp([ALL], [Thread(Code(0, 0), false, 0), Thread(Code(0, 0), false, 0), Thread(Code(0, 0), false, 0)])
  const APART := Warp(
    [ALL.(pc := Elsewhere), Entry(Code(2, 0), {2}, Elsewhere, Normal), Entry(Code(1, 0), {0, 1}, Elsewhere, Normal)],
    [Thread(Code(1, 0), false, 1), Thread(Code(1, 0), false, 1), Thread(Code(2, 0), false, 1)])

  lemma {:induction false} StartThreads()
    ensures SaneBlocks(BREAKING) && CanStep(BREAKING, START)
    ensures Executed(BREAKING, BreakingGuards, START) == APART.threads
  {
    BreakingIsFine();
    BreakingInstructions(0);
    hide Execute, ConvergePoint, OpAt, AllReach, IsIpdomTable;
    assert InSync(START, 0) && InSync(START, 1) && InSync(START, 2);
    ThreadsAre(START, APART.threads);
  }

  lemma {:induction false} ThreadsAre(w: Warp, threads: seq<Thread>)
    requires SaneBlocks(BREAKING) && CanStep(BREAKING, w) && |w.threads| == |threads| == 3
    requires forall i :: 0 <= i < 3 ==>
               threads[i] == if i in Last(w.stack).mask
                             then Execute(BREAKING, BreakingGuards(i, w.threads[i].steps), w.threads[i])
                             else w.threads[i]
    ensures Executed(BREAKING, BreakingGuards, w) == threads
  {
  }

  lemma {:induction false} StartUpdate(op: Op)
    requires op != CallOp
    ensures Updated(START.stack, {}, [Code(1, 0), Code(1, 0), Code(2, 0)], Elsewhere, op) == APART.stack
  {
    var next := [Code(1, 0), Code(1, 0), Code(2, 0)];
    var gs := [Group(Code(2, 0), {2}), Group(Code(1, 0), {0, 1})];
    StartGroups(next);
    KeepsAll(gs, NoPc);
    KeepsAll(gs, Elsewhere);
    hide Groups, Without, SamePc;
    UpdateShape(START.stack, {}, next, Elsewhere, op);
    hide Updated;
    assert gs[0] != Last(gs);
    StartStack(gs);
  }

  lemma {:induction false} StartGroups(next: seq<Pc>)
    requires next == [Code(1, 0), Code(1, 0), Code(2, 0)]
    ensures Groups(ALL.mask - {}, next) == [Group(Code(2, 0), {2}), Group(Code(1, 0), {0, 1})]
  {
    var lanes: set<nat> := {0, 1, 2};
    assert ALL.mask - {} == lanes;
    assert SamePc(lanes, next, next[2]) == {2} && lanes - {2} == {0, 1};
    TwoGroups(lanes, next, 2, {2}, Code(1, 0));
  }

  lemma {:induction false} StartStack(gs: seq<Group>)
    requires gs == [Group(Code(2, 0), {2}), Group(Code(1, 0), {0, 1})]
    ensures ButLast(START.stack) + [ALL.(pc := Elsewhere)] + Fresh(gs, Elsewhere) == APART.stack
  {
    FreshAt(gs, Elsewhere);
    assert Fresh(gs, Elsewhere) == APART.stack[1..];
  }

  lemma {:induction false} StartStep()
    ensures SaneBlocks(BREAKING) && CanStep(BREAKING, START) && Step(BREAKING, TABLE, BreakingGuards, START) == APART
  {
    StartThreads();
    BreakingInstructions(0);
    var ts := APART.threads;
    assert Finished(ts) == {} && NextPcs(ts) == [Code(1, 0), Code(1, 0), Code(2, 0)];
    assert SomeLive(ts) by { assert !ts[0].done; }
    StartUpdate(OpAt(BREAKING, Code(0, 0)));
  }

  const BROKEN := [Thread(Code(3, 0), false, 2), Thread(Code(2, 0), false, 2), Thread(Code(2, 0), false, 1)]

  lemma {:induction false} ApartThreads()
    ensures SaneBlocks(BREAKING) && CanStep(BREAKING, APART) && Executed(BREAKING, BreakingGuards, APART) == BROKEN
  {
    BreakingIsFine();
    BreakingInstructions(1);
    hide Execute, ConvergePoint, OpAt, AllReach, IsIpdomTable;
    assert InSync(APART, 0) && InSync(APART, 1);
    ThreadsAre(APART, BROKEN);
  }

  /** The two lanes part ways at the break, and the third is left behind. */
  lemma {:induction false} BreakLeavesLane()
    ensures SaneBlocks(BREAKING) && CanStep(BREAKING, APART) && !LeavesNoOne(BREAKING, TABLE, BreakingGuards, APART)
  {
    ApartThreads();
    BreakingInstructions(1);
    BrokenGroups();
    var gs := [Group(Code(2, 0), {1}), Group(Code(3, 0), {0})];
    KeepsAll(gs, Elsewhere);
    hide Groups, Without, Executed, CanStep, SaneBlocks, ConvergePoint;
    assert gs[0] != Last(gs);
    assert Recvg(BREAKING, TABLE, BreakingGuards, APART) == NoPc;
    assert Splits(BREAKING, TABLE, BreakingGuards, APART);
    assert !APART.threads[2].done && 2 !in Last(APART.stack).mask;
  }

  lemma {:induction false} BrokenGroups()
    ensures Groups(Last(APART.stack).mask - Finished(BROKEN), NextPcs(BROKEN)) ==
            [Group(Code(2, 0), {1}), Group(Code(3, 0), {0})]
  {
    var next, lanes: set<nat> := [Code(3, 0), Code(2, 0), Code(2, 0)], {0, 1};
    assert NextPcs(BROKEN) == next && Finished(BROKEN) == {} && lanes - {} == lanes;
    assert SamePc(lanes, next, next[1]) == {1} && lanes - {1} == {0};
    TwoGroups(lanes, next, 1, {1}, Code(3, 0));
  }

  /** By itself every thread returns after at most three instructions. */
  lemma {:induction false} ThreadsReturn(lane: nat)
    requires lane < 3
    ensures WellFormed(BREAKING) && Alone(BREAKING, BreakingGuards, lane, 3).done
  {
    BreakingIsFine();
    BreakingInstructions(0);
    BreakingInstructions(1);
    BreakingInstructions(2);
    hide Execute, WellFormed, IsIpdomTable;
    assert Alone(BREAKING, BreakingGuards, lane, 1) == Thread(Code(if lane < 2 then 1 else 2, 0), false, 1);
    assert Alone(BREAKING, BreakingGuards, lane, 2) ==
           if lane == 0 then Thread(Code(3, 0), false, 2) else if lane == 1 then Thread(Code(2, 0), false, 2)
           else Thread(NoPc, true, 2);
  }

  lemma {:induction false} StartIsLaunched()
    ensures IsLaunched(START)
  {
    assert !START.threads[0].done;
    assert {0, 1, 2} == set i: nat | i < |START.threads| && !START.threads[i].done;
  }

  /** The analysis accepts this kernel, every thread ends by itself, and yet a run
      of it comes to a failed check with a live thread. */
  lemma {:induction false} BreakBreaksLockstep() returns (ws: seq<Warp>)
    ensures WellFormed(BREAKING) && IsIpdomTable(BREAKING, TABLE) && IsRun(BREAKING, TABLE, BreakingGuards, ws)
    ensures SomeLive(Last(ws).threads) && !CanStep(BREAKING, Last(ws))
  {
    ws := ThreeStates();
    forall i | 0 <= i < 3 ensures Alone(BREAKING, BreakingGuards, i, 3).done {
      ThreadsReturn(i);
    }
    hide IsRun, CanStep, NoOneLeft, WellFormed, IsIpdomTable, Alone;
    ws := LeavingIsFatal(BREAKING, TABLE, BreakingGuards, ws, 3);
  }

  lemma {:induction false} ThreeStates() returns (ws: seq<Warp>)
    ensures WellFormed(BREAKING) && IsIpdomTable(BREAKING, TABLE) && IsRun(BREAKING, TABLE, BreakingGuards, ws)
    ensures ws[0] == START && !NoOneLeft(BREAKING, TABLE, BreakingGuards, ws)
  {
    BreakingIsFine();
    StartIsLaunched();
    StartStep();
    BreakLeavesLane();
    hide Step, CanStep, LeavesNoOne, WellFormed, IsIpdomTable;
    assert SomeLive(START.threads) by { assert !START.threads[0].done; }
    assert SomeLive(APART.threads) by { assert !APART.threads[0].done; }
    ws := [START, APART, Step(BREAKING, TABLE, BreakingGuards, APART)];
    assert FollowsFrom(BREAKING, TABLE, BreakingGuards, ws[0], ws[1]);
    assert FollowsFrom(BREAKING, TABLE, BreakingGuards, ws[1], ws[2]);
    assert CanStep(BREAKING, ws[1]) && !LeavesNoOne(BREAKING, TABLE, BreakingGuards, ws[1]);
  }
}

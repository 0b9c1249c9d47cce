/** Where the lockstep result stops holding. */
module LockstepLimits {
  import opened Dominance
  import opened ControlFlow
  import opened Helpers
  import opened SimtStacks
  import opened SimtShape
  import opened Kernels
  import opened Lockstep
  import opened Assembly

  // ----- divergence away from a branch

  /** An instruction without a reconvergence point of its own (anything but a
      branch, a predicated break in particular) leaves the top slot waiting at no
      address exactly when there is a pending reconvergence point, and of the groups
      that are not yet there the first is not the last of all groups. */
  lemma {:induction false} StrandedIffDiverged(st: seq<Entry>, done: set<nat>, next: seq<Pc>, op: Op)
    requires st != [] && InWarp(Last(st).mask, next) && Last(st).kind.Normal? && op != CallOp
    requires forall i :: i in Last(st).mask - done ==> next[i] != NoPc
    ensures var st' := Updated(st, done, next, NoPc, op);
            var gs := Groups(Last(st).mask - done, next);
            var kept := Without(gs, Last(st).rp);
            (|st'| >= |st| && st'[|st| - 1].pc == NoPc)
            <==> (kept != [] && kept[0] != Last(gs) && Last(st).rp != NoPc)
  {
    var top, base := Last(st), ButLast(st);
    var gs := Groups(top.mask - done, next);
    var kept := Without(gs, top.rp);
    UpdateShape(st, done, next, NoPc, op);
    GroupsAgreeWithPcs(top.mask - done, next);
    WithoutMembers(gs, top.rp);
    if kept != [] {
      assert kept[0] in gs;
      GroupPcIsNext(kept[0], top.mask - done, next);
      StrandedForm(st, kept, Without(kept, NoPc), kept[0] == Last(gs), Updated(st, done, next, NoPc, op));
    } else {
      StrandedForm(st, kept, [], true, Updated(st, done, next, NoPc, op));
    }
  }

  lemma {:induction false} StrandedForm(st: seq<Entry>, kept: seq<Group>, above: seq<Group>, only: bool,
                                        st': seq<Entry>)
    requires st != [] && (kept != [] ==> kept[0].pc != NoPc)
    requires var top, base := Last(st), ButLast(st);
             st' == if kept == [] || only || NoPc == top.rp then base + Fresh(kept, top.rp)
                    else base + [top.(pc := NoPc)] + Fresh(above, NoPc)
    ensures (|st'| >= |st| && st'[|st| - 1].pc == NoPc) <==> (kept != [] && !only && Last(st).rp != NoPc)
  {
    FreshAt(kept, Last(st).rp);
    FreshAt(above, NoPc);
    hide Fresh;
  }

  lemma {:induction false} GroupPcIsNext(g: Group, lanes: set<nat>, next: seq<Pc>)
    requires InWarp(lanes, next) && g.mask != {} && g.mask <= lanes && forall i :: i in g.mask ==> next[i] == g.pc
    requires forall i :: i in lanes ==> next[i] != NoPc
    ensures g.pc != NoPc
  {
    var i :| i in g.mask;
  }

  // ----- an edge back to the entry of a kernel at address 0

  const LOOPING := Kernel(
    [Block(1, Branch(1, true, 2), {}, {}), Block(1, Return(false, None), {}, {}),
     Block(1, Branch(0, true, 3), {}, {}), Block(1, Return(false, None), {}, {})],
    map[], true)

  const TABLE: seq<int> := [4, 4, 4, 4, -1]

  /** Lane 1 returns at once; lane 0 goes round to the entry. */
  function LoopingGuards(lane: nat, step: nat): bool {
    lane == 1 || step == 1
  }

  lemma {:induction false} LoopingGraph()
    ensures SuccessorGraph(LOOPING) == [{1, 2}, {4}, {0, 3}, {4}, {}]
  {
  }

  lemma {:induction false} ShortPath(g: Graph, root: nat, a: nat)
    requires a < |g| && root < |g| && root in g[a]
    ensures IsPath(g, root, [a, root], a)
  {
    assert [a, root][1..] == [root];
  }

  lemma {:induction false} LongerPath(g: Graph, root: nat, a: nat, b: nat, p: seq<nat>)
    requires a < |g| && b in g[a] && IsPath(g, root, p, b)
    ensures IsPath(g, root, [a] + p, a)
  {
    assert ([a] + p)[1..] == p;
  }

  lemma {:induction false} ExitIsImmediate(g: Graph, root: nat, b: nat, p: seq<nat>, q: seq<nat>)
    requires root < |g| && b != root && IsPath(g, root, p, b) && IsPath(g, root, q, b)
    requires forall x :: x in p && x in q ==> x == b || x == root
    ensures IsImmediate(g, root, root, b) && Reaches(g, root, b)
  {
    forall r | IsPath(g, root, r, b) ensures root in r {
      LastIsRoot(g, root, r, b);
    }
    forall t | StrictlyDominates(g, root, t, b) ensures Dominates(g, root, t, root) {
      assert t == root;
      forall r | IsPath(g, root, r, root) ensures root in r {
        LastIsRoot(g, root, r, root);
      }
    }
  }

  ghost predicate Fine(g: Graph, b: nat) {
    IsImmediate(g, 4, 4, b) && Reaches(g, 4, b)
  }

  lemma {:induction false} FineLeaves(g: Graph)
    requires g == [{1, 2}, {4}, {0, 3}, {4}, {}]
    ensures IsPath(g, 4, [1, 4], 1) && IsPath(g, 4, [3, 4], 3) && Fine(g, 1) && Fine(g, 3)
  {
    ShortPath(g, 4, 1);
    ShortPath(g, 4, 3);
    ExitIsImmediate(g, 4, 1, [1, 4], [1, 4]);
    ExitIsImmediate(g, 4, 3, [3, 4], [3, 4]);
  }

  lemma {:induction false} FineBranches(g: Graph)
    requires g == [{1, 2}, {4}, {0, 3}, {4}, {}]
    ensures Fine(g, 0) && Fine(g, 2)
  {
    FineLeaves(g);
    hide Fine;
    var p0, p2 := [0] + [1, 4], [2] + [3, 4];
    LongerPath(g, 4, 0, 1, [1, 4]);
    LongerPath(g, 4, 2, 3, [3, 4]);
    LongerPath(g, 4, 0, 2, p2);
    LongerPath(g, 4, 2, 0, p0);
    BranchIsFine(g, 0, p0, [0] + p2);
    BranchIsFine(g, 2, p2, [2] + p0);
  }

  lemma {:induction false} BranchIsFine(g: Graph, b: nat, p: seq<nat>, q: seq<nat>)
    requires |g| == 5 && b != 4 && IsPath(g, 4, p, b) && IsPath(g, 4, q, b)
    requires forall x :: x in p && x in q ==> x == b || x == 4
    ensures Fine(g, b)
  {
    ExitIsImmediate(g, 4, b, p, q);
  }

  /** Everything but the condition on the entry block holds of this kernel. */
  lemma {:induction false} LoopingIsOtherwiseFine()
    ensures SaneBlocks(LOOPING) && AllReach(SuccessorGraph(LOOPING), 4) && IsIpdomTable(LOOPING, TABLE)
    ensures EntersEntry(SuccessorGraph(LOOPING))
  {
    var g := SuccessorGraph(LOOPING);
    LoopingGraph();
    FineLeaves(g);
    FineBranches(g);
    assert 0 in g[2];
    assert IsPath(g, 4, [4], 4);
    forall b: nat | b < 5 ensures Reaches(g, 4, b) && (b < 4 ==> Fine(g, b)) {
      assert b == 0 || b == 1 || b == 2 || b == 3 || b == 4;
    }
    forall b: nat | b < 4 ensures 0 <= TABLE[b] && IsImmediate(g, 4, TABLE[b], b) {
      assert Fine(g, b);
    }
  }

  // ----- the three steps to the failure

  lemma {:induction false} OneGroup(lanes: set<nat>, next: seq<Pc>, pc: Pc)
    requires InWarp(lanes, next) && lanes != {} && forall i :: i in lanes ==> next[i] == pc
    ensures Groups(lanes, next) == [Group(pc, lanes)]
  {
    var g := FirstGroup(lanes, next);
    var i :| i in g.mask;
    assert g.mask == lanes;
    assert lanes - g.mask == {};
  }

  /** The group of the highest lane comes first. */
  lemma {:induction false} TwoGroups(lanes: set<nat>, next: seq<Pc>, m: nat, upper: set<nat>, pc: Pc)
    requires InWarp(lanes, next) && m in lanes && (forall i :: i in lanes ==> i <= m)
    requires upper == SamePc(lanes, next, next[m]) && lanes - upper != {}
    requires forall i :: i in lanes - upper ==> next[i] == pc
    ensures Groups(lanes, next) == [Group(next[m], upper), Group(pc, lanes - upper)]
  {
    assert IsHighest(lanes, m) && Highest(lanes) == m;
    OneGroup(lanes - upper, next, pc);
    FirstGroupOf(lanes, next);
  }

  lemma {:induction false} FirstGroupOf(lanes: set<nat>, next: seq<Pc>)
    requires InWarp(lanes, next) && lanes != {}
    ensures var pc := next[Highest(lanes)];
            Groups(lanes, next) == [Group(pc, SamePc(lanes, next, pc))]
              + Groups(lanes - SamePc(lanes, next, pc), next)
  {
  }

  const BOTH := Entry(Code(0, 0), {0, 1}, NoPc, Normal)
  const LAUNCHED := Warp([BOTH], [Thread(Code(0, 0), false, 0), Thread(Code(0, 0), false, 0)])
  const FIRST := Warp([BOTH, Entry(Code(1, 0), {1}, Code(0, 0), Normal), Entry(Code(2, 0), {0}, Code(0, 0), Normal)],
                      [Thread(Code(2, 0), false, 1), Thread(Code(1, 0), false, 1)])
  const SECOND := Warp([BOTH, Entry(Code(1, 0), {1}, Code(0, 0), Normal)],
                       [Thread(Code(0, 0), false, 2), Thread(Code(1, 0), false, 1)])
  const THIRD := Warp([BOTH], [Thread(Code(0, 0), false, 2), Thread(NoPc, true, 2)])

  /** The threads and the arguments of the update after one executed instruction. */
  ghost predicate StepArguments(w: Warp, threads: seq<Thread>, done: set<nat>, next: seq<Pc>, recvg: Pc)
    requires SaneBlocks(LOOPING)
  {
    && CanStep(LOOPING, w) && Last(w.stack).kind.Normal?
    && Executed(LOOPING, LoopingGuards, w) == threads
    && Finished(threads) == done && NextPcs(threads) == next
    && Resolved(LOOPING, ConvergePoint(LOOPING, TABLE, Last(w.stack).pc), threads) == recvg
    && OpAt(LOOPING, Last(w.stack).pc) != CallOp
  }

  /** What the four instructions do. */
  lemma {:induction false} LoopingInstructions(n: nat)
    ensures WellFormedBlock(LOOPING, 0) && WellFormedBlock(LOOPING, 1) && WellFormedBlock(LOOPING, 2)
    ensures forall taken :: Execute(LOOPING, taken, Thread(Code(0, 0), false, n))
                         == Thread(Code(if taken then 1 else 2, 0), false, n + 1)
    ensures forall taken :: Execute(LOOPING, taken, Thread(Code(1, 0), false, n)) == Thread(NoPc, true, n + 1)
    ensures Execute(LOOPING, true, Thread(Code(2, 0), false, n)) == Thread(Code(0, 0), false, n + 1)
    ensures ValidPc(LOOPING, Code(0, 0)) && ConvergePoint(LOOPING, TABLE, Code(0, 0)) == ReturnMarker
    ensures ValidPc(LOOPING, Code(1, 0)) && ConvergePoint(LOOPING, TABLE, Code(1, 0)) == NoPc
    ensures ValidPc(LOOPING, Code(2, 0)) && ConvergePoint(LOOPING, TABLE, Code(2, 0)) == ReturnMarker
    ensures OpAt(LOOPING, Code(0, 0)) == OpAt(LOOPING, Code(2, 0)) == BranchOp && OpAt(LOOPING, Code(1, 0)) == ReturnOp
  {
  }

  lemma {:induction false} ThreadsOf(w: Warp, threads: seq<Thread>)
    requires SaneBlocks(LOOPING) && CanStep(LOOPING, w) && |w.threads| == |threads| == 2
    requires forall i :: 0 <= i < 2 ==>
               threads[i] == if i in Last(w.stack).mask
                             then Execute(LOOPING, LoopingGuards(i, w.threads[i].steps), w.threads[i]) else w.threads[i]
    ensures Executed(LOOPING, LoopingGuards, w) == threads
  {
  }

  lemma {:induction false} FirstThreads()
    ensures SaneBlocks(LOOPING) && StepArguments(LAUNCHED, FIRST.threads, {}, [Code(2, 0), Code(1, 0)], Code(0, 0))
  {
    LoopingIsOtherwiseFine();
    LoopingInstructions(0);
    FirstNext();
    hide SaneBlocks, Execute, ConvergePoint, OpAt, ValidPc, AllReach, IsIpdomTable, EntersEntry, Finished, NextPcs;
    assert SomeLive(FIRST.threads) by { assert !FIRST.threads[0].done; }
    assert InSync(LAUNCHED, 0) && InSync(LAUNCHED, 1) && CanStep(LOOPING, LAUNCHED);
    ThreadsOf(LAUNCHED, FIRST.threads);
  }

  lemma {:induction false} FirstNext()
    ensures Finished(FIRST.threads) == {} && NextPcs(FIRST.threads) == [Code(2, 0), Code(1, 0)]
  {
  }

  lemma {:induction false} FirstSplit(op: Op)
    requires op != CallOp
    ensures Updated(LAUNCHED.stack, {}, [Code(2, 0), Code(1, 0)], Code(0, 0), op) == FIRST.stack
  {
    var next := [Code(2, 0), Code(1, 0)];
    assert BOTH.mask - {} == {0, 1};
    assert SamePc({0, 1}, next, next[1]) == {1} && {0, 1} - {1} == {0};
    TwoGroups({0, 1}, next, 1, {1}, next[0]);
    var gs := [Group(Code(1, 0), {1}), Group(Code(2, 0), {0})];
    KeepsAll(gs, NoPc);
    KeepsAll(gs, Code(0, 0));
    UpdateShape(LAUNCHED.stack, {}, next, Code(0, 0), op);
    hide Updated, Groups, Without;
    assert gs[0] != Last(gs);
    FirstStack(gs);
  }

  lemma {:induction false} FirstStack(gs: seq<Group>)
    requires gs == [Group(Code(1, 0), {1}), Group(Code(2, 0), {0})]
    ensures ButLast(LAUNCHED.stack) + [BOTH.(pc := Code(0, 0))] + Fresh(gs, Code(0, 0)) == FIRST.stack
  {
    FreshAt(gs, Code(0, 0));
  }

  lemma {:induction false} FirstStep()
    ensures SaneBlocks(LOOPING) && CanStep(LOOPING, LAUNCHED)
    ensures Step(LOOPING, TABLE, LoopingGuards, LAUNCHED) == FIRST
  {
    FirstThreads();
    FirstSplit(OpAt(LOOPING, Code(0, 0)));
  }

  lemma {:induction false} SecondThreads()
    ensures SaneBlocks(LOOPING) && StepArguments(FIRST, SECOND.threads, {}, [Code(0, 0), Code(1, 0)], Code(0, 0))
  {
    LoopingIsOtherwiseFine();
    LoopingInstructions(1);
    hide SaneBlocks, Execute, ConvergePoint, OpAt, ValidPc, AllReach, IsIpdomTable, EntersEntry;
    assert SomeLive(SECOND.threads) by { assert !SECOND.threads[0].done; }
    assert InSync(FIRST, 0) && CanStep(LOOPING, FIRST);
    ThreadsOf(FIRST, SECOND.threads);
    assert Finished(SECOND.threads) == {} && NextPcs(SECOND.threads) == [Code(0, 0), Code(1, 0)];
  }

  lemma {:induction false} SecondDrop(op: Op)
    requires op != CallOp
    ensures Updated(FIRST.stack, {}, [Code(0, 0), Code(1, 0)], Code(0, 0), op) == SECOND.stack
  {
    var next := [Code(0, 0), Code(1, 0)];
    assert {0} - {} == {0};
    OneGroup({0}, next, Code(0, 0));
    var g := Group(Code(0, 0), {0});
    assert ButLast([g]) == [] && Without([g], Code(0, 0)) == [];
    UpdateShape(FIRST.stack, {}, next, Code(0, 0), op);
    assert ButLast(FIRST.stack) + [] == SECOND.stack;
  }

  lemma {:induction false} SecondStep()
    ensures SaneBlocks(LOOPING) && CanStep(LOOPING, FIRST)
    ensures Step(LOOPING, TABLE, LoopingGuards, FIRST) == SECOND
  {
    SecondThreads();
    SecondDrop(OpAt(LOOPING, Code(2, 0)));
  }

  lemma {:induction false} ThirdStep()
    ensures SaneBlocks(LOOPING) && CanStep(LOOPING, SECOND)
    ensures Step(LOOPING, TABLE, LoopingGuards, SECOND) == THIRD
  {
    LoopingIsOtherwiseFine();
    var next := [Code(0, 0), NoPc];
    LoopingInstructions(1);
    assert InSync(SECOND, 1) && CanStep(LOOPING, SECOND);
    ThreadsOf(SECOND, THIRD.threads);
    assert Finished(THIRD.threads) == {1} && NextPcs(THIRD.threads) == next;
    assert StepArguments(SECOND, THIRD.threads, {1}, next, NoPc);
    assert {1} - {1} == {};
    assert ButLast(SECOND.stack) == THIRD.stack;
  }

  /** Without the condition on the entry block the result fails: lane 0 is taken
      for reconverged when it reaches address 0 again, and when the entry parked
      there is uncovered the finished lane 1 is still in its mask. */
  lemma {:induction false} EntryLoopBreaksLockstep()
    ensures SaneBlocks(LOOPING) && AllReach(SuccessorGraph(LOOPING), 4) && IsIpdomTable(LOOPING, TABLE)
    ensures IsLaunched(LAUNCHED)
    ensures CanStep(LOOPING, LAUNCHED) && Step(LOOPING, TABLE, LoopingGuards, LAUNCHED) == FIRST
    ensures CanStep(LOOPING, FIRST) && Step(LOOPING, TABLE, LoopingGuards, FIRST) == SECOND
    ensures CanStep(LOOPING, SECOND) && Step(LOOPING, TABLE, LoopingGuards, SECOND) == THIRD
    ensures SomeLive(THIRD.threads) && !CanStep(LOOPING, THIRD)
  {
    LoopingIsOtherwiseFine();
    FirstStep();
    SecondStep();
    ThirdStep();
    hide Step, CanStep;
    assert SomeLive(THIRD.threads) by { assert !THIRD.threads[0].done; }
    LaunchedLooping();
    FinishedLaneStillActive();
  }

  lemma {:induction false} LaunchedLooping()
    ensures IsLaunched(LAUNCHED)
  {
    assert !LAUNCHED.threads[0].done;
    assert {0, 1} == set i: nat | i < |LAUNCHED.threads| && !LAUNCHED.threads[i].done;
  }

  lemma {:induction false} FinishedLaneStillActive()
    ensures !CanStep(LOOPING, THIRD)
  {
    assert 1 in Last(THIRD.stack).mask && !InSync(THIRD, 1);
  }
}

/** When exactly lockstep execution works: a run ends with all threads finished if
    and only if no step left lanes behind.  Kernels whose breaks are taken alike by
    all lanes never do. */
module LockstepExact {
  import opened Dominance
  import opened ControlFlow
  import opened Helpers
  import opened SimtStacks
  import opened SimtShape
  import opened Kernels
  import opened Lockstep
  import opened LockstepRuns

  // ----- a step that leaves lanes behind is never made good

  /** Lane `i` is live below entry `d`, which waits where none of its lanes will
      ever arrive. */
  ghost predicate Doomed(k: Kernel, w: Warp, d: nat, i: nat) {
    && d < |w.stack| && i < |w.threads| && !w.threads[i].done
    && Free(k, w.stack[d].pc)
    && (forall m :: d <= m < |w.stack| ==> i !in w.stack[m].mask)
    && (forall j :: j in w.stack[d].mask && j < |w.threads| && !w.threads[j].done ==> !Free(k, w.threads[j].pc))
  }

  /** Once entry `d` is on top, the check fails. */
  lemma {:induction false} DoomedTopFails(k: Kernel, w: Warp, d: nat, i: nat)
    requires Doomed(k, w, d, i) && d == |w.stack| - 1
    ensures !CanStep(k, w)
  {
  }

  /** Threads that execute an instruction do not arrive where nobody does. */
  lemma {:induction false} NobodyArrives(k: Kernel, guards: Guards, w: Warp, j: nat)
    requires WellFormed(k) && CanStep(k, w) && j < |w.threads| && !Executed(k, guards, w)[j].done
    requires j !in Last(w.stack).mask ==> !Free(k, w.threads[j].pc)
    ensures !Free(k, Executed(k, guards, w)[j].pc)
  {
    ExecutedMoves(k, guards, w);
    if j in Last(w.stack).mask {
      NotReturnAddress(k, Last(w.stack).pc.block, Executed(k, guards, w)[j].pc);
    }
  }

  /** A step keeps the entries below the top, and puts only lanes of the top on or
      above them. */
  lemma {:induction false} StepKeepsBelow(k: Kernel, ipdom: seq<int>, guards: Guards, w: Warp)
    requires WellFormed(k) && IsIpdomTable(k, ipdom) && CanStep(k, w) && Last(w.stack).kind.Normal?
    ensures var st := Step(k, ipdom, guards, w).stack;
            && |st| >= |w.stack| - 1 && (forall j :: 0 <= j < |w.stack| - 1 ==> st[j] == w.stack[j])
            && forall j :: |w.stack| - 1 <= j < |st| ==> st[j].mask <= Last(w.stack).mask && st[j].kind.Normal?
  {
    var threads := Executed(k, guards, w);
    assert InWarp(Last(w.stack).mask, NextPcs(threads));
    var recvg, op := Recvg(k, ipdom, guards, w), OpAt(k, Last(w.stack).pc);
    UpdateKeepsBelow(w.stack, Finished(threads), NextPcs(threads), recvg, op);
  }

  lemma {:induction false} UpdateKeepsBelow(was: seq<Entry>, done: set<nat>, next: seq<Pc>, recvg: Pc, op: Op)
    requires was != [] && InWarp(Last(was).mask, next) && Last(was).kind.Normal? && op != CallOp
    ensures var st := Updated(was, done, next, recvg, op);
            && |st| >= |was| - 1 && (forall j :: 0 <= j < |was| - 1 ==> st[j] == was[j])
            && forall j :: |was| - 1 <= j < |st| ==> st[j].mask <= Last(was).mask && st[j].kind.Normal?
  {
    var top := Last(was);
    var gs := Groups(top.mask - done, next);
    var kept := Without(gs, top.rp);
    UpdateShape(was, done, next, recvg, op);
    GroupsGroup(top.mask - done, next);
    WithoutMembers(gs, top.rp);
    WithoutMembers(kept, recvg);
    FreshMasks(kept, top.rp, top.mask);
    FreshMasks(Without(kept, recvg), recvg, top.mask);
    hide Updated, Groups, Without, Fresh;
    if Updated(was, done, next, recvg, op) == ButLast(was) + Fresh(kept, top.rp) {
      OnBase(was, Fresh(kept, top.rp));
    } else {
      var upper := [top.(pc := recvg)] + Fresh(Without(kept, recvg), recvg);
      assert Updated(was, done, next, recvg, op) == ButLast(was) + upper;
      OnBase(was, upper);
    }
  }

  lemma {:induction false} OnBase(was: seq<Entry>, upper: seq<Entry>)
    requires was != [] && forall e :: e in upper ==> e.mask <= Last(was).mask && e.kind.Normal?
    ensures var st := ButLast(was) + upper;
            && |st| >= |was| - 1 && (forall j :: 0 <= j < |was| - 1 ==> st[j] == was[j])
            && forall j :: |was| - 1 <= j < |st| ==> st[j].mask <= Last(was).mask && st[j].kind.Normal?
  {
    var st := ButLast(was) + upper;
    forall j | |was| - 1 <= j < |st| ensures st[j] in upper {
      assert st[j] == upper[j - (|was| - 1)];
    }
  }

  lemma {:induction false} FreshMasks(gs: seq<Group>, rp: Pc, mask: set<nat>)
    requires forall g :: g in gs ==> g.mask <= mask
    ensures forall e :: e in Fresh(gs, rp) ==> e.mask <= mask && e.kind.Normal?
  {
    FreshAt(gs, rp);
  }

  lemma {:induction false} DoomedStays(k: Kernel, ipdom: seq<int>, guards: Guards, w: Warp, d: nat, i: nat)
    requires WellFormed(k) && IsIpdomTable(k, ipdom) && CanStep(k, w) && Last(w.stack).kind.Normal?
    requires Doomed(k, w, d, i)
    ensures Doomed(k, Step(k, ipdom, guards, w), d, i)
  {
    if d == |w.stack| - 1 {
      DoomedTopFails(k, w, d, i);
    }
    StepKeepsBelow(k, ipdom, guards, w);
    var w' := Step(k, ipdom, guards, w);
    assert w'.threads[i] == w.threads[i];
    forall j | j in w'.stack[d].mask && j < |w'.threads| && !w'.threads[j].done ensures !Free(k, w'.threads[j].pc) {
      if j in Last(w.stack).mask {
        assert InSync(w, j);
      }
      NobodyArrives(k, guards, w, j);
    }
  }

  lemma {:induction false} LeavingDooms(k: Kernel, ipdom: seq<int>, guards: Guards, w: Warp)
    returns (d: nat, i: nat)
    requires WellFormed(k) && IsIpdomTable(k, ipdom) && CanStep(k, w) && Last(w.stack).kind.Normal?
    requires !LeavesNoOne(k, ipdom, guards, w)
    ensures Doomed(k, Step(k, ipdom, guards, w), d, i)
  {
    i :| 0 <= i < |w.threads| && !w.threads[i].done && i !in Last(w.stack).mask;
    d := |w.stack| - 1;
    StepKeepsBelow(k, ipdom, guards, w);
    SplitOutcome(k, ipdom, guards, w);
    var w' := Step(k, ipdom, guards, w);
    assert w'.threads[i] == w.threads[i];
    assert w'.stack[d] == Last(w.stack).(pc := Recvg(k, ipdom, guards, w));
    forall j | j in w'.stack[d].mask && j < |w'.threads| && !w'.threads[j].done ensures !Free(k, w'.threads[j].pc) {
      NobodyArrives(k, guards, w, j);
    }
  }

  // ----- whole runs

  lemma {:induction false} RunKindsNormal(k: Kernel, ipdom: seq<int>, guards: Guards, ws: seq<Warp>)
    requires WellFormed(k) && IsIpdomTable(k, ipdom) && IsRun(k, ipdom, guards, ws)
    ensures forall j :: 0 <= j < |Last(ws).stack| ==> Last(ws).stack[j].kind.Normal?
    decreases |ws|
  {
    if |ws| > 1 {
      PrefixIsRun(k, ipdom, guards, ws);
      RunKindsNormal(k, ipdom, guards, ButLast(ws));
      StepKeepsBelow(k, ipdom, guards, Last(ButLast(ws)));
    }
  }

  /** Once a step of a run has left lanes behind, some thread is live for ever. */
  lemma {:induction false} LeftBehindStaysLive(k: Kernel, ipdom: seq<int>, guards: Guards, ws: seq<Warp>)
    returns (d: nat, i: nat)
    requires WellFormed(k) && IsIpdomTable(k, ipdom) && IsRun(k, ipdom, guards, ws) && !NoOneLeft(k, ipdom, guards, ws)
    ensures Doomed(k, Last(ws), d, i)
    decreases |ws|
  {
    hide Doomed, LeavesNoOne, Step, CanStep;
    var n :| 0 <= n < |ws| - 1 && CanStep(k, ws[n]) && !LeavesNoOne(k, ipdom, guards, ws[n]);
    PrefixIsRun(k, ipdom, guards, ws);
    var w := Last(ButLast(ws));
    if n == |ws| - 2 {
      d, i := LeavingDooms(k, ipdom, guards, w);
    } else {
      assert ButLast(ws)[n] == ws[n];
      d, i := LeftBehindStaysLive(k, ipdom, guards, ButLast(ws));
      DoomedStays(k, ipdom, guards, w, d, i);
    }
  }

  /** The exact condition: a run that can go no further has finished all threads if
      and only if none of its steps left lanes behind.  Otherwise it has come to a
      failed check. */
  lemma {:induction false} RunFinishesIff(k: Kernel, ipdom: seq<int>, guards: Guards, ws: seq<Warp>)
    requires WellFormed(k) && IsIpdomTable(k, ipdom) && IsRun(k, ipdom, guards, ws)
    requires !(SomeLive(Last(ws).threads) && CanStep(k, Last(ws)))
    ensures !SomeLive(Last(ws).threads) <==> NoOneLeft(k, ipdom, guards, ws)
  {
    if NoOneLeft(k, ipdom, guards, ws) {
      LockstepIsFaithful(k, ipdom, guards, ws);
    } else {
      var d, i := LeftBehindStaysLive(k, ipdom, guards, ws);
      assert !Last(ws).threads[i].done;
    }
  }

  /** If every thread finishes by itself, every run can be continued until it can
      go no further. */
  lemma {:induction false} RunToTheEnd(k: Kernel, ipdom: seq<int>, guards: Guards, ws: seq<Warp>, bound: nat)
    returns (longer: seq<Warp>)
    requires WellFormed(k) && IsIpdomTable(k, ipdom) && IsRun(k, ipdom, guards, ws)
    requires forall i :: 0 <= i < |ws[0].threads| && !ws[0].threads[i].done ==> Alone(k, guards, i, bound).done
    requires forall i :: 0 <= i < |ws[0].threads| && ws[0].threads[i].done ==> ws[0].threads[i].steps == 0
    ensures ws <= longer && IsRun(k, ipdom, guards, longer)
    ensures !(SomeLive(Last(longer).threads) && CanStep(k, Last(longer)))
    decreases |ws[0].threads| * bound + 1 - |ws|
  {
    LockstepTerminates(k, ipdom, guards, ws, bound);
    if SomeLive(Last(ws).threads) && CanStep(k, Last(ws)) {
      RunKindsNormal(k, ipdom, guards, ws);
      var next := ws + [Step(k, ipdom, guards, Last(ws))];
      RunExtends(k, ipdom, guards, ws, next);
      LockstepTerminates(k, ipdom, guards, next, bound);
      longer := RunToTheEnd(k, ipdom, guards, next, bound);
    } else {
      longer := ws;
    }
  }

  lemma {:induction false} RunExtends(k: Kernel, ipdom: seq<int>, guards: Guards, ws: seq<Warp>, next: seq<Warp>)
    requires WellFormed(k) && IsIpdomTable(k, ipdom) && IsRun(k, ipdom, guards, ws) && next != []
    requires ButLast(next) == ws && FollowsFrom(k, ipdom, guards, Last(ws), Last(next))
    ensures IsRun(k, ipdom, guards, next)
  {
    hide FollowsFrom;
    forall n | 0 <= n < |next| - 1 ensures FollowsFrom(k, ipdom, guards, next[n], next[n + 1]) {
      assert next[n] == ws[n];
      if n < |ws| - 1 {
        assert next[n + 1] == ws[n + 1];
      }
    }
  }

  /** So a run that has left lanes behind can be continued to a failed check. */
  lemma {:induction false} LeavingIsFatal(k: Kernel, ipdom: seq<int>, guards: Guards, ws: seq<Warp>, bound: nat)
    returns (longer: seq<Warp>)
    requires WellFormed(k) && IsIpdomTable(k, ipdom) && IsRun(k, ipdom, guards, ws) && !NoOneLeft(k, ipdom, guards, ws)
    requires forall i :: 0 <= i < |ws[0].threads| && !ws[0].threads[i].done ==> Alone(k, guards, i, bound).done
    requires forall i :: 0 <= i < |ws[0].threads| && ws[0].threads[i].done ==> ws[0].threads[i].steps == 0
    ensures ws <= longer && IsRun(k, ipdom, guards, longer)
    ensures SomeLive(Last(longer).threads) && !CanStep(k, Last(longer))
  {
    longer := RunToTheEnd(k, ipdom, guards, ws, bound);
    var n :| 0 <= n < |ws| - 1 && CanStep(k, ws[n]) && !LeavesNoOne(k, ipdom, guards, ws[n]);
    assert longer[n] == ws[n];
    RunFinishesIff(k, ipdom, guards, longer);
  }

  // ----- breaks that all lanes take alike

  /** The active lanes leave a predicated break the same way. */
  ghost predicate UniformBreak(k: Kernel, guards: Guards, w: Warp)
    requires CanStep(k, w)
  {
    var top := Last(w.stack);
    AtEnd(k, top.pc) && k.blocks[top.pc.block].end.Break? && k.blocks[top.pc.block].end.predicated ==>
      forall i, j :: i in top.mask && j in top.mask ==>
        guards(i, w.threads[i].steps) == guards(j, w.threads[j].steps)
  }

  /** An entry that reconverges nowhere holds all live lanes. */
  ghost predicate Whole(w: Warp, dead: nat) {
    forall j, i :: dead <= j < |w.stack| && w.stack[j].rp == NoPc && 0 <= i < |w.threads| && !w.threads[i].done ==>
      i in w.stack[j].mask
  }

  /** With uniform breaks, lanes part ways only at branches. */
  lemma {:induction false} UniformPartAtBranch(k: Kernel, ipdom: seq<int>, guards: Guards, w: Warp)
    requires WellFormed(k) && IsIpdomTable(k, ipdom) && CanStep(k, w) && UniformBreak(k, guards, w)
    requires var ts := Executed(k, guards, w);
             |Groups(Last(w.stack).mask - Finished(ts), NextPcs(ts))| > 1
    ensures Recvg(k, ipdom, guards, w) == BranchRecvg(k, ipdom, Last(w.stack).pc.block) != NoPc
  {
    var ts, pc := Executed(k, guards, w), Last(w.stack).pc;
    assert InWarp(Last(w.stack).mask - Finished(ts), NextPcs(ts));
    var i, j := LanesOfTwoGroups(Last(w.stack).mask - Finished(ts), NextPcs(ts));
    hide Groups;
    assert InSync(w, i) && InSync(w, j);
    assert WellFormedBlock(k, pc.block);
    assert ts[i] == Execute(k, guards(i, w.threads[i].steps), w.threads[i]);
    assert ts[j] == Execute(k, guards(j, w.threads[j].steps), w.threads[j]);
    assert !ts[i].done && SomeLive(ts);
  }

  lemma {:induction false} UniformLeavesNoOne(k: Kernel, ipdom: seq<int>, guards: Guards, w: Warp, dead: nat)
    requires WellFormed(k) && IsIpdomTable(k, ipdom) && Sound(k, w, dead) && Whole(w, dead) && dead < |w.stack|
    requires CanStep(k, w) && Last(w.stack).kind.Normal? && UniformBreak(k, guards, w)
    ensures LeavesNoOne(k, ipdom, guards, w)
  {
    if Splits(k, ipdom, guards, w) && Free(k, Recvg(k, ipdom, guards, w)) {
      SplitOutcome(k, ipdom, guards, w);
      UniformPartAtBranch(k, ipdom, guards, w);
      var top := Last(w.stack);
      assert Real(k, top);
      BranchRecvgOk(k, ipdom, top.pc.block);
      PendingBehindNew(k, ipdom, top.rp, top.pc.block);
      assert w.stack[|w.stack| - 1] == top;
    }
  }

  lemma {:induction false} WholeStays(k: Kernel, ipdom: seq<int>, guards: Guards, w: Warp, dead: nat)
    requires WellFormed(k) && IsIpdomTable(k, ipdom) && Whole(w, dead) && dead < |w.stack|
    requires CanStep(k, w) && Last(w.stack).kind.Normal? && UniformBreak(k, guards, w)
    ensures var dead' := if !Splits(k, ipdom, guards, w) then dead
                         else DeadAfter(k, w.stack, dead, Recvg(k, ipdom, guards, w));
            Whole(Step(k, ipdom, guards, w), dead')
  {
    if Splits(k, ipdom, guards, w) {
      SplitWhole(k, ipdom, guards, w, dead);
    } else {
      PlainWhole(k, ipdom, guards, w, dead);
    }
  }

  lemma {:induction false} LiveWasLive(k: Kernel, guards: Guards, w: Warp)
    requires WellFormed(k) && CanStep(k, w)
    ensures forall i :: 0 <= i < |w.threads| && !Executed(k, guards, w)[i].done ==> !w.threads[i].done
  {
    forall i | 0 <= i < |w.threads| && !Executed(k, guards, w)[i].done ensures !w.threads[i].done {
      if i in Last(w.stack).mask {
        assert InSync(w, i);
      }
    }
  }

  lemma {:induction false} SplitWhole(k: Kernel, ipdom: seq<int>, guards: Guards, w: Warp, dead: nat)
    requires WellFormed(k) && IsIpdomTable(k, ipdom) && Whole(w, dead) && dead < |w.stack|
    requires CanStep(k, w) && Last(w.stack).kind.Normal? && UniformBreak(k, guards, w) && Splits(k, ipdom, guards, w)
    ensures Whole(Step(k, ipdom, guards, w), DeadAfter(k, w.stack, dead, Recvg(k, ipdom, guards, w)))
  {
    var top, recvg, ts := Last(w.stack), Recvg(k, ipdom, guards, w), Executed(k, guards, w);
    var gs := Groups(top.mask - Finished(ts), NextPcs(ts));
    var later := Fresh(Without(Without(gs, top.rp), recvg), recvg);
    SplitOutcome(k, ipdom, guards, w);
    UniformPartAtBranch(k, ipdom, guards, w);
    LiveWasLive(k, guards, w);
    FreshAt(Without(Without(gs, top.rp), recvg), recvg);
    var w' := Step(k, ipdom, guards, w);
    hide Step, Groups, Without, Splits, Recvg, Executed, CanStep, UniformBreak, Fresh, Whole;
    assert w'.stack == ButLast(w.stack) + ([top.(pc := recvg)] + later);
    assert forall e :: e in later ==> e.rp == recvg;
    WholeOnBase(w, w', dead, [top.(pc := recvg)] + later);
    WholeAbove(w', dead, DeadAfter(k, w.stack, dead, recvg));
  }

  lemma {:induction false} WholeAbove(w: Warp, dead: nat, dead': nat)
    requires Whole(w, dead) && dead <= dead'
    ensures Whole(w, dead')
  {
  }

  /** New entries that reconverge nowhere must hold what the top held. */
  lemma {:induction false} WholeOnBase(w: Warp, w': Warp, dead: nat, upper: seq<Entry>)
    requires Whole(w, dead) && dead < |w.stack| && |w'.threads| == |w.threads| && w'.stack == ButLast(w.stack) + upper
    requires forall i :: 0 <= i < |w.threads| && !w'.threads[i].done ==> !w.threads[i].done
    requires forall e :: e in upper && e.rp == NoPc ==>
               Last(w.stack).rp == NoPc &&
               forall i :: i in Last(w.stack).mask && i < |w.threads| && !w'.threads[i].done ==> i in e.mask
    ensures Whole(w', dead)
  {
    forall j, i | dead <= j < |w'.stack| && w'.stack[j].rp == NoPc && 0 <= i < |w'.threads| && !w'.threads[i].done
      ensures i in w'.stack[j].mask
    {
      if j < |w.stack| - 1 {
        assert w'.stack[j] == w.stack[j];
      } else {
        assert w'.stack[j] == upper[j - (|w.stack| - 1)];
        assert w.stack[|w.stack| - 1] == Last(w.stack);
      }
    }
  }

  lemma {:induction false} PlainWhole(k: Kernel, ipdom: seq<int>, guards: Guards, w: Warp, dead: nat)
    requires WellFormed(k) && IsIpdomTable(k, ipdom) && Whole(w, dead) && dead < |w.stack|
    requires CanStep(k, w) && Last(w.stack).kind.Normal? && UniformBreak(k, guards, w) && !Splits(k, ipdom, guards, w)
    ensures Whole(Step(k, ipdom, guards, w), dead)
  {
    var top, threads := Last(w.stack), Executed(k, guards, w);
    var lanes, next := top.mask - Finished(threads), NextPcs(threads);
    var kept := Without(Groups(lanes, next), top.rp);
    var w' := Step(k, ipdom, guards, w);
    PlainOutcome(k, ipdom, guards, w);
    LiveWasLive(k, guards, w);
    KeptGroups(lanes, next, top.rp);
    FreshAt(kept, top.rp);
    LivePcs(k, guards, w);
    assert forall m :: m in top.mask ==> m < |threads|;
    hide Step, Groups, Without, Splits, Recvg, CanStep, UniformBreak, Updated, Fresh, Executed, Whole;
    if top.rp == NoPc {
      OnlyGroupHasAll(kept, top.mask, threads);
    }
    WholeOnBase(w, w', dead, Fresh(kept, top.rp));
  }

  lemma {:induction false} OnlyGroupHasAll(kept: seq<Group>, mask: set<nat>, threads: seq<Thread>)
    requires (forall m :: m in mask ==> m < |threads| && (threads[m].done || threads[m].pc != NoPc)) && |kept| <= 1
    requires Grouping(kept, mask - Finished(threads), NextPcs(threads), {NoPc})
    ensures forall e, i :: e in Fresh(kept, NoPc) && i in mask && !threads[i].done ==> i in e.mask
  {
    FreshAt(kept, NoPc);
    forall e, i | e in Fresh(kept, NoPc) && i in mask && !threads[i].done ensures i in e.mask {
      assert NextPcs(threads)[i] != NoPc;
      var g :| g in kept && i in g.mask;
    }
  }

  lemma {:induction false} PlainOutcome(k: Kernel, ipdom: seq<int>, guards: Guards, w: Warp)
    requires WellFormed(k) && IsIpdomTable(k, ipdom)
    requires CanStep(k, w) && Last(w.stack).kind.Normal? && UniformBreak(k, guards, w) && !Splits(k, ipdom, guards, w)
    ensures var top, threads := Last(w.stack), Executed(k, guards, w);
            var kept := Without(Groups(top.mask - Finished(threads), NextPcs(threads)), top.rp);
            && Step(k, ipdom, guards, w) == Warp(ButLast(w.stack) + Fresh(kept, top.rp), threads)
            && (top.rp == NoPc ==> |kept| <= 1)
  {
    var top, threads, recvg := Last(w.stack), Executed(k, guards, w), Recvg(k, ipdom, guards, w);
    var gs := Groups(top.mask - Finished(threads), NextPcs(threads));
    UpdateShape(w.stack, Finished(threads), NextPcs(threads), recvg, OpAt(k, top.pc));
    if |gs| > 1 {
      UniformPartAtBranch(k, ipdom, guards, w);
    }
    WithoutFewer(gs, top.rp);
  }

  lemma {:induction false} WithoutFewer(gs: seq<Group>, pc: Pc)
    ensures |Without(gs, pc)| <= |gs|
  {
    if gs != [] {
      WithoutFewer(ButLast(gs), pc);
    }
  }

  lemma {:induction false} LivePcs(k: Kernel, guards: Guards, w: Warp)
    requires WellFormed(k) && CanStep(k, w)
    ensures forall i :: i in Last(w.stack).mask && !Executed(k, guards, w)[i].done ==>
              Executed(k, guards, w)[i].pc != NoPc
  {
    ExecutedMoves(k, guards, w);
  }

  /** A run all of whose breaks are uniform leaves no one behind. */
  lemma {:induction false} UniformRunIsSound(k: Kernel, ipdom: seq<int>, guards: Guards, ws: seq<Warp>)
    returns (dead: nat)
    requires WellFormed(k) && IsIpdomTable(k, ipdom) && IsRun(k, ipdom, guards, ws)
    requires forall n :: 0 <= n < |ws| && CanStep(k, ws[n]) ==> UniformBreak(k, guards, ws[n])
    ensures Sound(k, Last(ws), dead) && Whole(Last(ws), dead)
    ensures CanStep(k, Last(ws)) && SomeLive(Last(ws).threads) ==> LeavesNoOne(k, ipdom, guards, Last(ws))
    ensures NoOneLeft(k, ipdom, guards, ws)
    decreases |ws|
  {
    hide Sound, LeavesNoOne, Step, CanStep, UniformBreak, Whole;
    if |ws| == 1 {
      LaunchIsSound(k, ws[0]);
      LaunchIsWhole(ws[0]);
      dead := 0;
    } else {
      PrefixIsRun(k, ipdom, guards, ws);
      var before := ButLast(ws);
      dead := UniformRunIsSound(k, ipdom, guards, before);
      var w := Last(before);
      assert UniformBreak(k, guards, w) && LeavesNoOne(k, ipdom, guards, w);
      dead := UniformStep(k, ipdom, guards, w, dead);
      OneMoreLeavesNoOne(k, ipdom, guards, ws);
    }
    if SomeLive(Last(ws).threads) && CanStep(k, Last(ws)) {
      ActiveLanesInSync(k, Last(ws), dead);
      UniformLast(k, ipdom, guards, Last(ws), dead);
    }
  }

  lemma {:induction false} UniformLast(k: Kernel, ipdom: seq<int>, guards: Guards, w: Warp, dead: nat)
    requires WellFormed(k) && IsIpdomTable(k, ipdom) && Sound(k, w, dead) && Whole(w, dead) && dead < |w.stack|
    requires CanStep(k, w) && Real(k, Last(w.stack)) && UniformBreak(k, guards, w)
    ensures LeavesNoOne(k, ipdom, guards, w)
  {
    UniformLeavesNoOne(k, ipdom, guards, w, dead);
  }

  lemma {:induction false} OneMoreLeavesNoOne(k: Kernel, ipdom: seq<int>, guards: Guards, ws: seq<Warp>)
    requires WellFormed(k) && IsIpdomTable(k, ipdom) && |ws| > 1 && NoOneLeft(k, ipdom, guards, ButLast(ws))
    requires CanStep(k, Last(ButLast(ws))) && LeavesNoOne(k, ipdom, guards, Last(ButLast(ws)))
    ensures NoOneLeft(k, ipdom, guards, ws)
  {
    hide LeavesNoOne, CanStep;
    forall n | 0 <= n < |ws| - 1 && CanStep(k, ws[n]) ensures LeavesNoOne(k, ipdom, guards, ws[n]) {
      assert ws[n] == ButLast(ws)[n];
    }
  }

  lemma {:induction false} LaunchIsWhole(w: Warp)
    requires IsLaunched(w)
    ensures Whole(w, 0)
  {
  }

  lemma {:induction false} UniformStep(k: Kernel, ipdom: seq<int>, guards: Guards, w: Warp, dead: nat)
    returns (dead': nat)
    requires WellFormed(k) && IsIpdomTable(k, ipdom) && Sound(k, w, dead) && Whole(w, dead) && SomeLive(w.threads)
    requires CanStep(k, w) && Last(w.stack).kind.Normal?
    requires UniformBreak(k, guards, w) && LeavesNoOne(k, ipdom, guards, w)
    ensures Sound(k, Step(k, ipdom, guards, w), dead') && Whole(Step(k, ipdom, guards, w), dead')
  {
    hide Sound, LeavesNoOne, Step, CanStep, UniformBreak, Whole, Splits, Recvg;
    ActiveLanesInSync(k, w, dead);
    WholeStays(k, ipdom, guards, w, dead);
    if Splits(k, ipdom, guards, w) {
      SplitStep(k, ipdom, guards, w, dead);
      dead' := DeadAfter(k, w.stack, dead, Recvg(k, ipdom, guards, w));
    } else {
      PlainStep(k, ipdom, guards, w, dead);
      dead' := dead;
    }
  }

  /** In particular a kernel without predicated breaks. */
  ghost predicate NoPredicatedBreak(k: Kernel) {
    forall b :: 0 <= b < Exit(k) && k.blocks[b].end.Break? ==> !k.blocks[b].end.predicated
  }

  lemma {:induction false} PlainBreaksLeaveNoOne(k: Kernel, ipdom: seq<int>, guards: Guards, ws: seq<Warp>)
    requires WellFormed(k) && IsIpdomTable(k, ipdom) && IsRun(k, ipdom, guards, ws) && NoPredicatedBreak(k)
    ensures NoOneLeft(k, ipdom, guards, ws)
    ensures CanStep(k, Last(ws)) && SomeLive(Last(ws).threads) ==> LeavesNoOne(k, ipdom, guards, Last(ws))
  {
    forall n | 0 <= n < |ws| && CanStep(k, ws[n]) ensures UniformBreak(k, guards, ws[n]) {
      assert ValidPc(k, Last(ws[n].stack).pc);
    }
    var dead := UniformRunIsSound(k, ipdom, guards, ws);
  }

  // ----- kernels that never leave lanes behind

  /** A state that a warp launched as `start` comes to. */
  ghost predicate Reached(k: Kernel, ipdom: seq<int>, guards: Guards, start: Warp, w: Warp)
    requires WellFormed(k) && IsIpdomTable(k, ipdom)
  {
    exists ws :: IsRun(k, ipdom, guards, ws) && ws[0] == start && Last(ws) == w
  }

  /** Whatever state the warp comes to, its next step leaves no one behind. */
  ghost predicate Reconverges(k: Kernel, ipdom: seq<int>, guards: Guards, start: Warp)
    requires WellFormed(k) && IsIpdomTable(k, ipdom)
  {
    forall w :: Reached(k, ipdom, guards, start, w) && SomeLive(w.threads) && CanStep(k, w) ==>
      LeavesNoOne(k, ipdom, guards, w)
  }

  lemma {:induction false} ReachedAtLaunch(k: Kernel, ipdom: seq<int>, guards: Guards, start: Warp)
    requires WellFormed(k) && IsIpdomTable(k, ipdom) && IsLaunched(start)
    ensures Reached(k, ipdom, guards, start, start)
  {
    assert IsRun(k, ipdom, guards, [start]);
  }

  lemma {:induction false} ReachedOneMore(k: Kernel, ipdom: seq<int>, guards: Guards, start: Warp, w: Warp)
    requires WellFormed(k) && IsIpdomTable(k, ipdom) && Reached(k, ipdom, guards, start, w)
    requires SomeLive(w.threads) && CanStep(k, w) && Last(w.stack).kind.Normal?
    ensures Reached(k, ipdom, guards, start, Step(k, ipdom, guards, w))
  {
    hide Step, CanStep;
    var ws :| IsRun(k, ipdom, guards, ws) && ws[0] == start && Last(ws) == w;
    var next := ws + [Step(k, ipdom, guards, w)];
    assert ButLast(next) == ws;
    RunExtends(k, ipdom, guards, ws, next);
  }

  lemma {:induction false} PlainBreaksReconverge(k: Kernel, ipdom: seq<int>, guards: Guards, start: Warp)
    requires WellFormed(k) && IsIpdomTable(k, ipdom) && NoPredicatedBreak(k)
    ensures Reconverges(k, ipdom, guards, start)
  {
    hide LeavesNoOne, CanStep;
    forall w | Reached(k, ipdom, guards, start, w) && SomeLive(w.threads) && CanStep(k, w)
      ensures LeavesNoOne(k, ipdom, guards, w)
    {
      var ws :| IsRun(k, ipdom, guards, ws) && ws[0] == start && Last(ws) == w;
      PlainBreaksLeaveNoOne(k, ipdom, guards, ws);
    }
  }
}

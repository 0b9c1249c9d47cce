/** What the lockstep invariant means for whole runs of a warp. */
module LockstepRuns {
  import opened Dominance
  import opened ControlFlow
  import opened Helpers
  import opened SimtStacks
  import opened Kernels
  import opened Laminar
  import opened Lockstep

  // ----- the depth of the stack

  lemma {:induction false} NestedMasks(k: Kernel, st: seq<Entry>, dead: nat, j: nat, m: nat)
    requires Linked(k, st, dead) && j < m < |st|
    ensures st[m].mask < st[j].mask || st[m].mask !! st[j].mask
    decreases |st|, m
  {
    if m < |st| - 1 {
      NestedMasks(k, ButLast(st), dead, j, m);
    } else if i :| i in st[m].mask && i in st[j].mask {
      assert Nests(ButLast(st), Last(st));
      OwnerAtLeast(ButLast(st), i, j);
      var o := Owner(ButLast(st), i);
      if o != j {
        NestedMasks(k, ButLast(st), dead, j, o);
      }
    }
  }

  function Masks(st: seq<Entry>): seq<set<nat>> {
    seq(|st|, j requires 0 <= j < |st| => st[j].mask)
  }

  lemma {:induction false} PairwiseIsLaminar(fs: seq<set<nat>>)
    requires forall j, m :: 0 <= j < m < |fs| ==> fs[m] < fs[j] || fs[m] !! fs[j]
    ensures IsLaminar(fs)
  {
    if fs != [] {
      PairwiseIsLaminar(fs[1..]);
    }
  }

  /** The masks on the stack are nested or disjoint and all different, so a warp
      of `n` lanes never needs more than 2n - 1 entries. */
  lemma {:induction false} DepthBound(k: Kernel, w: Warp, dead: nat)
    requires Sound(k, w, dead) && 0 < |w.threads|
    ensures |w.stack| <= 2 * |w.threads| - 1
    ensures forall j, m :: 0 <= j < m < |w.stack| ==>
              w.stack[m].mask < w.stack[j].mask || w.stack[m].mask !! w.stack[j].mask
  {
    var fs, u := Masks(w.stack), Below(|w.threads|);
    forall j, m | 0 <= j < m < |w.stack|
      ensures w.stack[m].mask < w.stack[j].mask || w.stack[m].mask !! w.stack[j].mask
    {
      NestedMasks(k, w.stack, dead, j, m);
    }
    PairwiseIsLaminar(fs);
    forall f | f in fs ensures f != {} && f <= u {
      var j :| 0 <= j < |fs| && fs[j] == f;
      assert w.stack[j] in w.stack;
    }
    AllParts(fs, u);
  }

  // ----- runs

  /** A run from launch: as long as some thread is live and the fetched program
      counter agrees with the lanes it is fetched for, the warp makes a step. */
  ghost predicate IsRun(k: Kernel, ipdom: seq<int>, guards: Guards, ws: seq<Warp>)
    requires WellFormed(k) && IsIpdomTable(k, ipdom)
  {
    && ws != [] && IsLaunched(ws[0])
    && forall n :: 0 <= n < |ws| - 1 ==> FollowsFrom(k, ipdom, guards, ws[n], ws[n + 1])
  }

  ghost predicate FollowsFrom(k: Kernel, ipdom: seq<int>, guards: Guards, w: Warp, w': Warp)
    requires WellFormed(k) && IsIpdomTable(k, ipdom)
  {
    SomeLive(w.threads) && CanStep(k, w) && Last(w.stack).kind.Normal? && w' == Step(k, ipdom, guards, w)
  }

  /** No step of the run leaves lanes behind. */
  ghost predicate NoOneLeft(k: Kernel, ipdom: seq<int>, guards: Guards, ws: seq<Warp>)
    requires WellFormed(k) && IsIpdomTable(k, ipdom)
  {
    forall n :: 0 <= n < |ws| - 1 && CanStep(k, ws[n]) ==> LeavesNoOne(k, ipdom, guards, ws[n])
  }

  lemma {:induction false} PrefixIsRun(k: Kernel, ipdom: seq<int>, guards: Guards, ws: seq<Warp>)
    requires WellFormed(k) && IsIpdomTable(k, ipdom) && IsRun(k, ipdom, guards, ws) && |ws| > 1
    ensures IsRun(k, ipdom, guards, ButLast(ws))
    ensures FollowsFrom(k, ipdom, guards, Last(ButLast(ws)), Last(ws))
    ensures NoOneLeft(k, ipdom, guards, ws) ==>
              NoOneLeft(k, ipdom, guards, ButLast(ws)) && LeavesNoOne(k, ipdom, guards, Last(ButLast(ws)))
  {
    var n := |ws| - 2;
    assert FollowsFrom(k, ipdom, guards, ws[n], ws[n + 1]);
    hide LeavesNoOne, Step, CanStep;
  }

  lemma {:induction false} RunIsSound(k: Kernel, ipdom: seq<int>, guards: Guards, ws: seq<Warp>) returns (dead: nat)
    requires WellFormed(k) && IsIpdomTable(k, ipdom) && IsRun(k, ipdom, guards, ws) && NoOneLeft(k, ipdom, guards, ws)
    ensures Sound(k, Last(ws), dead)
    decreases |ws|
  {
    hide Sound, LeavesNoOne, Step, CanStep;
    if |ws| == 1 {
      LaunchIsSound(k, ws[0]);
      dead := 0;
    } else {
      PrefixIsRun(k, ipdom, guards, ws);
      dead := RunIsSound(k, ipdom, guards, ButLast(ws));
      dead := StepKeepsSound(k, ipdom, guards, Last(ButLast(ws)), dead);
    }
  }

  /** The program counters fetched for lane `i` along a run. */
  ghost function Fetched(ws: seq<Warp>, i: nat): seq<Pc> {
    if |ws| <= 1 then []
    else
      var w := Last(ButLast(ws));
      Fetched(ButLast(ws), i) + (if w.stack != [] && i in Last(w.stack).mask then [Last(w.stack).pc] else [])
  }

  /** The program counters of the first `n` instructions of a thread by itself. */
  ghost function AloneTrace(k: Kernel, guards: Guards, i: nat, n: nat): seq<Pc>
    requires WellFormed(k)
  {
    if n == 0 then [] else AloneTrace(k, guards, i, n - 1) + [Alone(k, guards, i, n - 1).pc]
  }

  /** In every state of every run, every thread of the warp is where it would be
      after as many instructions by itself, and what was fetched for it is exactly
      what it would have executed by itself. */
  lemma {:induction false} RunFollowsThreads(k: Kernel, ipdom: seq<int>, guards: Guards, ws: seq<Warp>)
    requires WellFormed(k) && IsIpdomTable(k, ipdom) && IsRun(k, ipdom, guards, ws)
    ensures |Last(ws).threads| == |ws[0].threads|
    ensures forall i :: 0 <= i < |ws[0].threads| && !ws[0].threads[i].done ==>
              && Last(ws).threads[i] == Alone(k, guards, i, Last(ws).threads[i].steps)
              && Fetched(ws, i) == AloneTrace(k, guards, i, Last(ws).threads[i].steps)
    decreases |ws|
  {
    if |ws| > 1 {
      PrefixIsRun(k, ipdom, guards, ws);
      RunFollowsThreads(k, ipdom, guards, ButLast(ws));
      var w := Last(ButLast(ws));
      forall i | 0 <= i < |ws[0].threads| && !ws[0].threads[i].done
        ensures Last(ws).threads[i] == Alone(k, guards, i, Last(ws).threads[i].steps)
        ensures Fetched(ws, i) == AloneTrace(k, guards, i, Last(ws).threads[i].steps)
      {
        LaneAdvances(k, guards, w, i, w.threads[i].steps);
        assert Fetched(ButLast(ws), i) + [] == Fetched(ButLast(ws), i);
      }
    }
  }

  /** Main theorem.  In every state of every run that leaves no one behind: if some
      thread is live, the warp can step and every active lane passes the check
      that the fetched program counter is its own; every thread is where it would
      be by itself, with the instructions it would have executed by itself; and
      the stack never exceeds its bound. */
  lemma {:induction false} LockstepIsFaithful(k: Kernel, ipdom: seq<int>, guards: Guards, ws: seq<Warp>)
    requires WellFormed(k) && IsIpdomTable(k, ipdom) && IsRun(k, ipdom, guards, ws) && NoOneLeft(k, ipdom, guards, ws)
    ensures SomeLive(Last(ws).threads) ==> CanStep(k, Last(ws)) && Last(Last(ws).stack).kind.Normal?
    ensures |Last(ws).threads| == |ws[0].threads|
    ensures forall i :: 0 <= i < |ws[0].threads| && !ws[0].threads[i].done ==>
              && Last(ws).threads[i] == Alone(k, guards, i, Last(ws).threads[i].steps)
              && Fetched(ws, i) == AloneTrace(k, guards, i, Last(ws).threads[i].steps)
    ensures |Last(ws).stack| <= 2 * |ws[0].threads| - 1
  {
    var dead := RunIsSound(k, ipdom, guards, ws);
    RunFollowsThreads(k, ipdom, guards, ws);
    DepthBound(k, Last(ws), dead);
    if SomeLive(Last(ws).threads) {
      ActiveLanesInSync(k, Last(ws), dead);
    }
  }

  lemma {:induction false} ActiveLane(k: Kernel, guards: Guards, w: Warp, i: nat)
    requires WellFormed(k) && CanStep(k, w) && i in Last(w.stack).mask
    ensures var t := w.threads[i];
            && t.pc == Last(w.stack).pc && ValidPc(k, t.pc) && !t.done
            && Executed(k, guards, w)[i] == Execute(k, guards(i, t.steps), t)
            && Executed(k, guards, w)[i].steps == t.steps + 1
  {
    assert InSync(w, i);
    ExecuteLeads(k, guards(i, w.threads[i].steps), w.threads[i]);
  }

  /** One step takes an active lane exactly one instruction further on its own
      path and leaves the others where they are. */
  lemma {:induction false} LaneAdvances(k: Kernel, guards: Guards, w: Warp, i: nat, n: nat)
    requires WellFormed(k) && CanStep(k, w)
    requires i < |w.threads| && n == w.threads[i].steps && w.threads[i] == Alone(k, guards, i, n)
    ensures var t' := Executed(k, guards, w)[i];
            if i in Last(w.stack).mask then
              && t'.steps == n + 1 && t' == Alone(k, guards, i, n + 1)
              && AloneTrace(k, guards, i, n + 1) == AloneTrace(k, guards, i, n) + [Last(w.stack).pc]
            else t' == w.threads[i]
  {
    if i in Last(w.stack).mask {
      ActiveLane(k, guards, w, i);
      AloneUnfold(k, guards, i, n);
    }
  }

  lemma {:induction false} AloneUnfold(k: Kernel, guards: Guards, i: nat, n: nat)
    requires WellFormed(k) && !Alone(k, guards, i, n).done
    ensures var t := Alone(k, guards, i, n); Alone(k, guards, i, n + 1) == Execute(k, guards(i, t.steps), t)
  {
  }

  // ----- progress

  ghost function TotalSteps(ts: seq<Thread>): nat {
    if ts == [] then 0 else TotalSteps(ButLast(ts)) + Last(ts).steps
  }

  lemma {:induction false} TotalStepsGrows(ts: seq<Thread>, ts': seq<Thread>, i: nat)
    requires |ts| == |ts'| && i < |ts| && ts[i].steps < ts'[i].steps
    requires forall j :: 0 <= j < |ts| ==> ts[j].steps <= ts'[j].steps
    ensures TotalSteps(ts) < TotalSteps(ts')
  {
    if i < |ts| - 1 {
      TotalStepsGrows(ButLast(ts), ButLast(ts'), i);
    } else {
      TotalStepsMonotone(ButLast(ts), ButLast(ts'));
    }
  }

  lemma {:induction false} TotalStepsMonotone(ts: seq<Thread>, ts': seq<Thread>)
    requires |ts| == |ts'| && forall j :: 0 <= j < |ts| ==> ts[j].steps <= ts'[j].steps
    ensures TotalSteps(ts) <= TotalSteps(ts')
  {
    if ts != [] {
      TotalStepsMonotone(ButLast(ts), ButLast(ts'));
    }
  }

  lemma {:induction false} TotalStepsBounded(ts: seq<Thread>, bound: nat)
    requires forall j :: 0 <= j < |ts| ==> ts[j].steps <= bound
    ensures TotalSteps(ts) <= |ts| * bound
  {
    if ts != [] {
      TotalStepsBounded(ButLast(ts), bound);
    }
  }

  lemma {:induction false} StepAdvances(k: Kernel, guards: Guards, w: Warp)
    requires WellFormed(k) && CanStep(k, w)
    ensures TotalSteps(w.threads) < TotalSteps(Executed(k, guards, w))
  {
    var ts := Executed(k, guards, w);
    forall j | 0 <= j < |w.threads|
      ensures ts[j].steps == w.threads[j].steps + (if j in Last(w.stack).mask then 1 else 0)
    {
      if j in Last(w.stack).mask {
        ActiveLane(k, guards, w, j);
      }
    }
    var i :| i in Last(w.stack).mask;
    TotalStepsGrows(w.threads, ts, i);
  }

  /** Every step of the warp advances some thread. */
  lemma {:induction false} RunsAdvance(k: Kernel, ipdom: seq<int>, guards: Guards, ws: seq<Warp>)
    requires WellFormed(k) && IsIpdomTable(k, ipdom) && IsRun(k, ipdom, guards, ws)
    ensures |ws| - 1 <= TotalSteps(Last(ws).threads)
    decreases |ws|
  {
    if |ws| > 1 {
      PrefixIsRun(k, ipdom, guards, ws);
      RunsAdvance(k, ipdom, guards, ButLast(ws));
      var w := Last(ButLast(ws));
      StepAdvances(k, guards, w);
    }
  }

  lemma {:induction false} DoneStaysDone(k: Kernel, guards: Guards, i: nat, m: nat, n: nat)
    requires WellFormed(k) && m <= n && Alone(k, guards, i, m).done
    ensures Alone(k, guards, i, n) == Alone(k, guards, i, m)
    decreases n
  {
    if m < n {
      DoneStaysDone(k, guards, i, m, n - 1);
    }
  }

  lemma {:induction false} AloneStepsBounded(k: Kernel, guards: Guards, i: nat, n: nat)
    requires WellFormed(k)
    ensures Alone(k, guards, i, n).steps <= n
  {
    if n > 0 {
      AloneStepsBounded(k, guards, i, n - 1);
      var t := Alone(k, guards, i, n - 1);
      if !t.done {
        ExecuteLeads(k, guards(i, t.steps), t);
      }
    }
  }

  /** Lockstep cannot hang: if every thread finishes within `bound` instructions
      by itself, no run is longer than one step per such instruction. */
  lemma {:induction false} LockstepTerminates(k: Kernel, ipdom: seq<int>, guards: Guards, ws: seq<Warp>, bound: nat)
    requires WellFormed(k) && IsIpdomTable(k, ipdom) && IsRun(k, ipdom, guards, ws)
    requires forall i :: 0 <= i < |ws[0].threads| && !ws[0].threads[i].done ==> Alone(k, guards, i, bound).done
    requires forall i :: 0 <= i < |ws[0].threads| && ws[0].threads[i].done ==> ws[0].threads[i].steps == 0
    ensures |ws| - 1 <= |ws[0].threads| * bound
  {
    RunFollowsThreads(k, ipdom, guards, ws);
    RunsAdvance(k, ipdom, guards, ws);
    var ts := Last(ws).threads;
    forall i | 0 <= i < |ts| ensures ts[i].steps <= bound {
      if ws[0].threads[i].done {
        AbsentLaneStays(k, ipdom, guards, ws, i);
      } else if ts[i].steps > bound {
        DoneStaysDone(k, guards, i, bound, ts[i].steps);
        AloneStepsBounded(k, guards, i, bound);
      }
    }
    TotalStepsBounded(ts, bound);
  }

  lemma {:induction false} AbsentLaneStays(k: Kernel, ipdom: seq<int>, guards: Guards, ws: seq<Warp>, i: nat)
    requires WellFormed(k) && IsIpdomTable(k, ipdom) && IsRun(k, ipdom, guards, ws)
    requires i < |ws[0].threads| && ws[0].threads[i].done
    ensures i < |Last(ws).threads| && Last(ws).threads[i] == ws[0].threads[i]
    decreases |ws|
  {
    if |ws| > 1 {
      PrefixIsRun(k, ipdom, guards, ws);
      AbsentLaneStays(k, ipdom, guards, ButLast(ws), i);
      var w := Last(ButLast(ws));
      assert forall j :: j in Last(w.stack).mask ==> j < |w.threads| && InSync(w, j);
    }
  }
}

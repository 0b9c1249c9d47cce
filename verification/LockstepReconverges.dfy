/** What the stack is for: lanes that part ways at a branch are together again at its
    immediate post-dominator, and none of them goes past it before the others come. */
module LockstepReconverges {
  import opened Dominance
  import opened ControlFlow
  import opened Helpers
  import opened SimtStacks
  import opened SimtShape
  import opened Kernels
  import opened Lockstep
  import opened LockstepRuns
  import opened LockstepExact

  // ----- the part of the stack that works towards one reconvergence point

  /** An entry on the way to block `d`. */
  ghost predicate Within(k: Kernel, d: nat, e: Entry) {
    && ValidPc(k, e.pc) && StrictlyPostdominates(k, d, e.pc.block)
    && e.rp.Code? && !Free(k, e.rp) && (e.rp.block == d || StrictlyPostdominates(k, d, e.rp.block))
  }

  /** The entry below position `h` waits at block `d` for all lanes above it. */
  ghost predicate Awaited(k: Kernel, st: seq<Entry>, h: nat, d: nat) {
    && 0 < h <= |st| && st[h - 1].pc == Code(d, 0)
    && forall m :: h <= m < |st| ==> Within(k, d, st[m]) && st[m].mask <= st[h - 1].mask
  }

  /** Every entry with a reconvergence point is awaited there. */
  ghost predicate Layered(k: Kernel, st: seq<Entry>, dead: nat) {
    forall j :: dead <= j < |st| && !Free(k, st[j].rp) ==> IsAwaited(k, st, j, dead)
  }

  ghost predicate IsAwaited(k: Kernel, st: seq<Entry>, j: nat, dead: nat)
    requires j < |st|
  {
    st[j].rp.Code? && exists h: nat :: dead < h <= j && st[h - 1].pc == st[j].rp && Awaited(k, st, h, st[j].rp.block)
  }

  lemma {:induction false} StrictIsTransitive(k: Kernel, d: nat, r: nat, b: nat)
    requires WellFormed(k) && b < Exit(k) && r < Exit(k)
    requires StrictlyPostdominates(k, d, r) && StrictlyPostdominates(k, r, b)
    ensures StrictlyPostdominates(k, d, b)
  {
    var g, x := SuccessorGraph(k), Exit(k);
    DominanceIsTransitive(g, x, b, r, d);
    if d == b {
      assert Reaches(g, x, b);
      var p :| IsPath(g, x, p, b);
      Antisymmetric(g, x, b, r, p);
    }
  }

  /** What a real entry whose reconvergence point is on the way to `d` is itself. */
  lemma {:induction false} RealIsWithin(k: Kernel, d: nat, e: Entry)
    requires WellFormed(k) && Real(k, e) && !Free(k, e.rp)
    requires e.rp.Code? && (e.rp.block == d || StrictlyPostdominates(k, d, e.rp.block))
    ensures Within(k, d, e)
  {
    if e.rp.block != d {
      StrictIsTransitive(k, d, e.rp.block, e.pc.block);
    }
  }

  // ----- one step

  /** Entries that take the place of the top keep it awaited. */
  lemma {:induction false} ReplacedAwaited(k: Kernel, st: seq<Entry>, ups: seq<Entry>, h: nat, d: nat)
    requires WellFormed(k) && Awaited(k, st, h, d) && h < |st|
    requires forall u :: u in ups ==> Real(k, u) && u.rp == Last(st).rp && u.mask <= Last(st).mask
    ensures Awaited(k, ButLast(st) + ups, h, d)
  {
    var st' := ButLast(st) + ups;
    assert Within(k, d, Last(st));
    hide Within, Real;
    forall m | h <= m < |st'| ensures Within(k, d, st'[m]) && st'[m].mask <= st'[h - 1].mask {
      if m >= |st| - 1 {
        var u := ups[m - (|st| - 1)];
        assert st'[m] == u && u in ups;
        UpIsWithin(k, d, Last(st), u);
      }
    }
  }

  lemma {:induction false} UpIsWithin(k: Kernel, d: nat, top: Entry, u: Entry)
    requires WellFormed(k) && Within(k, d, top) && Real(k, u) && u.rp == top.rp
    ensures Within(k, d, u)
  {
    RealIsWithin(k, d, u);
  }

  /** So does a new reconvergence entry in its place, with entries above it. */
  lemma {:induction false} PushedAwaited(k: Kernel, st: seq<Entry>, r: nat, ups: seq<Entry>, h: nat, d: nat)
    requires WellFormed(k) && Awaited(k, st, h, d) && h < |st| && !Free(k, Code(r, 0))
    requires Real(k, Last(st).(pc := Code(r, 0)))
    requires forall u :: u in ups ==> Real(k, u) && u.rp == Code(r, 0) && u.mask <= Last(st).mask
    ensures Awaited(k, ButLast(st) + [Last(st).(pc := Code(r, 0))] + ups, h, d)
  {
    var waiting := Last(st).(pc := Code(r, 0));
    var st' := ButLast(st) + [waiting] + ups;
    assert Within(k, d, Last(st));
    UpIsWithin(k, d, Last(st), waiting);
    assert StrictlyPostdominates(k, d, r);
    hide Within, Real;
    forall m | h <= m < |st'| ensures Within(k, d, st'[m]) && st'[m].mask <= st'[h - 1].mask {
      if m >= |st| {
        var u := ups[m - |st|];
        assert st'[m] == u && u in ups;
        RealIsWithinBehind(k, d, r, u);
      } else if m == |st| - 1 {
        assert st'[m] == waiting;
      }
    }
  }

  lemma {:induction false} RealIsWithinBehind(k: Kernel, d: nat, r: nat, u: Entry)
    requires WellFormed(k) && Real(k, u) && u.rp == Code(r, 0) && !Free(k, u.rp) && StrictlyPostdominates(k, d, r)
    ensures Within(k, d, u)
  {
    RealIsWithin(k, d, u);
  }

  /** The new entries wait for each other at the new reconvergence point. */
  lemma {:induction false} NewlyAwaited(k: Kernel, st: seq<Entry>, r: nat, ups: seq<Entry>)
    requires WellFormed(k) && st != [] && !Free(k, Code(r, 0))
    requires forall u :: u in ups ==> Real(k, u) && u.rp == Code(r, 0) && u.mask <= Last(st).mask
    ensures Awaited(k, ButLast(st) + [Last(st).(pc := Code(r, 0))] + ups, |st|, r)
  {
    var st' := ButLast(st) + [Last(st).(pc := Code(r, 0))] + ups;
    hide Real;
    forall m | |st| <= m < |st'| ensures Within(k, r, st'[m]) && st'[m].mask <= st'[|st| - 1].mask {
      var u := ups[m - |st|];
      assert st'[m] == u && u in ups;
      RealIsWithin(k, r, u);
    }
  }

  /** How a step of a warp whose breaks are uniform changes the stack: entries for
      some lanes of the top take its place, or are put above it while it waits. */
  ghost predicate Becomes(k: Kernel, was: seq<Entry>, now: seq<Entry>, ups: seq<Entry>, split: bool, recvg: Pc)
    requires was != []
  {
    && (forall u :: u in ups ==> Real(k, u) && u.mask <= Last(was).mask)
    && if split then
         && now == ButLast(was) + [Last(was).(pc := recvg)] + ups
         && ups != [] && (forall u :: u in ups ==> u.rp == recvg)
         && if Free(k, recvg) then Last(was).rp == NoPc
            else Real(k, Last(was).(pc := recvg)) && recvg == Code(recvg.block, 0)
       else
         now == ButLast(was) + ups && forall u :: u in ups ==> u.rp == Last(was).rp
  }

  ghost predicate Outcome(k: Kernel, ipdom: seq<int>, guards: Guards, w: Warp, dead: nat, ups: seq<Entry>)
    requires WellFormed(k) && IsIpdomTable(k, ipdom) && CanStep(k, w) && Last(w.stack).kind.Normal?
  {
    var w', split, recvg := Step(k, ipdom, guards, w), Splits(k, ipdom, guards, w), Recvg(k, ipdom, guards, w);
    && Becomes(k, w.stack, w'.stack, ups, split, recvg)
    && Sound(k, w', DeadThen(k, w.stack, dead, split, recvg))
    && (split ==> recvg == BranchRecvg(k, ipdom, Last(w.stack).pc.block))
  }

  function DeadThen(k: Kernel, was: seq<Entry>, dead: nat, split: bool, recvg: Pc): nat {
    if split then DeadAfter(k, was, dead, recvg) else dead
  }

  lemma {:induction false} UniformOutcome(k: Kernel, ipdom: seq<int>, guards: Guards, w: Warp, dead: nat)
    returns (ups: seq<Entry>)
    requires WellFormed(k) && IsIpdomTable(k, ipdom) && Sound(k, w, dead) && dead < |w.stack|
    requires CanStep(k, w) && Last(w.stack).kind.Normal? && UniformBreak(k, guards, w)
    requires LeavesNoOne(k, ipdom, guards, w)
    ensures Outcome(k, ipdom, guards, w, dead, ups)
  {
    if Splits(k, ipdom, guards, w) {
      ups := SplitUps(k, ipdom, guards, w, dead);
    } else {
      ups := PlainUps(k, ipdom, guards, w, dead);
    }
  }

  lemma {:induction false} PlainUps(k: Kernel, ipdom: seq<int>, guards: Guards, w: Warp, dead: nat)
    returns (ups: seq<Entry>)
    requires WellFormed(k) && IsIpdomTable(k, ipdom) && Sound(k, w, dead) && dead < |w.stack|
    requires CanStep(k, w) && Last(w.stack).kind.Normal? && UniformBreak(k, guards, w)
    requires !Splits(k, ipdom, guards, w)
    ensures Outcome(k, ipdom, guards, w, dead, ups)
  {
    hide Sound, Step, CanStep, Groups, Without, Fresh, Executed, Splits, Recvg, WellFormed, IsIpdomTable;
    hide UniformBreak, LeavesNoOne, Real, RecvgOk, Free;
    TopInWarp(k, ipdom, guards, w);
    var top, threads := Last(w.stack), Executed(k, guards, w);
    var kept := Without(Groups(top.mask - Finished(threads), NextPcs(threads)), top.rp);
    ups := Fresh(kept, top.rp);
    FreshAt(kept, top.rp);
    PlainStep(k, ipdom, guards, w, dead);
    PlainOutcome(k, ipdom, guards, w);
    StepKeepsBelow(k, ipdom, guards, w);
    NewEntries(k, w, Step(k, ipdom, guards, w), dead, ButLast(w.stack), ups);
  }

  lemma {:induction false} SplitUps(k: Kernel, ipdom: seq<int>, guards: Guards, w: Warp, dead: nat)
    returns (ups: seq<Entry>)
    requires WellFormed(k) && IsIpdomTable(k, ipdom) && Sound(k, w, dead) && dead < |w.stack|
    requires CanStep(k, w) && Last(w.stack).kind.Normal? && UniformBreak(k, guards, w)
    requires Splits(k, ipdom, guards, w) && LeavesNoOne(k, ipdom, guards, w)
    ensures Outcome(k, ipdom, guards, w, dead, ups)
  {
    hide Sound, Step, CanStep, Groups, Without, Fresh, Executed, Splits, Recvg, WellFormed, IsIpdomTable;
    hide UniformBreak, LeavesNoOne, Real, RecvgOk, Free;
    TopInWarp(k, ipdom, guards, w);
    var top, threads, recvg := Last(w.stack), Executed(k, guards, w), Recvg(k, ipdom, guards, w);
    var gs := Groups(top.mask - Finished(threads), NextPcs(threads));
    var kept := Without(Without(gs, top.rp), recvg);
    ups := Fresh(kept, recvg);
    FreshAt(kept, recvg);
    SplitStep(k, ipdom, guards, w, dead);
    SplitOutcome(k, ipdom, guards, w);
    StepKeepsBelow(k, ipdom, guards, w);
    SplitRecvg(k, ipdom, guards, w, dead);
    GroupsAreKept(k, ipdom, guards, w, dead);
    NewEntries(k, w, Step(k, ipdom, guards, w), DeadAfter(k, w.stack, dead, recvg),
               ButLast(w.stack) + [top.(pc := recvg)], ups);
  }

  lemma {:induction false} TopInWarp(k: Kernel, ipdom: seq<int>, guards: Guards, w: Warp)
    requires WellFormed(k) && IsIpdomTable(k, ipdom) && CanStep(k, w)
    ensures SaneBlocks(k) && |ipdom| == Exit(k) + 1 && w.stack != []
    ensures var threads := Executed(k, guards, w); InWarp(Last(w.stack).mask - Finished(threads), NextPcs(threads))
  {
  }

  lemma {:induction false} SplitRecvg(k: Kernel, ipdom: seq<int>, guards: Guards, w: Warp, dead: nat)
    requires WellFormed(k) && IsIpdomTable(k, ipdom) && Sound(k, w, dead) && dead < |w.stack|
    requires CanStep(k, w) && Last(w.stack).kind.Normal? && UniformBreak(k, guards, w) && Splits(k, ipdom, guards, w)
    ensures var top, recvg := Last(w.stack), Recvg(k, ipdom, guards, w);
            && recvg == BranchRecvg(k, ipdom, top.pc.block) != top.rp && RecvgOk(k, top.rp, top.pc.block)
            && if Free(k, recvg) then top.rp == NoPc
               else Real(k, top.(pc := recvg)) && recvg == Code(recvg.block, 0)
  {
    SplitOutcome(k, ipdom, guards, w);
    UniformPartAtBranch(k, ipdom, guards, w);
    var top := Last(w.stack);
    assert Real(k, top);
    hide Groups, Executed, Step, UniformBreak;
    BranchRecvgOk(k, ipdom, top.pc.block);
    PendingBehindNew(k, ipdom, top.rp, top.pc.block);
  }

  /** No lane jumps to the pending point, so the last group is among the kept. */
  lemma {:induction false} GroupsAreKept(k: Kernel, ipdom: seq<int>, guards: Guards, w: Warp, dead: nat)
    requires WellFormed(k) && IsIpdomTable(k, ipdom) && Sound(k, w, dead) && dead < |w.stack|
    requires CanStep(k, w) && Last(w.stack).kind.Normal? && UniformBreak(k, guards, w) && Splits(k, ipdom, guards, w)
    ensures var top, threads, recvg := Last(w.stack), Executed(k, guards, w), Recvg(k, ipdom, guards, w);
            var gs := Groups(top.mask - Finished(threads), NextPcs(threads));
            Fresh(Without(Without(gs, top.rp), recvg), recvg) != []
  {
    var top, threads, recvg := Last(w.stack), Executed(k, guards, w), Recvg(k, ipdom, guards, w);
    var lanes, next := top.mask - Finished(threads), NextPcs(threads);
    SplitRecvg(k, ipdom, guards, w, dead);
    ExecutedMoves(k, guards, w);
    forall i | i in lanes ensures i < |next| && next[i] != top.rp {
      DivergenceMissesPending(k, ipdom, top.rp, top.pc.block, threads[i].pc);
    }
    assert Without(Groups(lanes, next), top.rp) != [];
    hide Executed, CanStep, WellFormed, IsIpdomTable, Moved;
    SomeGroupIsKept(lanes, next, top.rp, recvg);
  }

  lemma {:induction false} NewEntries(k: Kernel, w: Warp, w': Warp, dead: nat, below: seq<Entry>, ups: seq<Entry>)
    requires Sound(k, w', dead) && w.stack != [] && |w.stack| - 1 <= |below| && dead <= |below|
    requires w'.stack == below + ups
    requires forall j :: |w.stack| - 1 <= j < |w'.stack| ==> w'.stack[j].mask <= Last(w.stack).mask
    ensures forall u :: u in ups ==> Real(k, u) && u.mask <= Last(w.stack).mask
  {
    forall u | u in ups ensures Real(k, u) && u.mask <= Last(w.stack).mask {
      var m :| 0 <= m < |ups| && ups[m] == u;
      assert w'.stack[|below| + m] == u;
    }
  }

  /** The groups that split do not all go to the reconvergence point. */
  lemma {:induction false} SomeGroupIsKept(lanes: set<nat>, next: seq<Pc>, rp: Pc, recvg: Pc)
    requires InWarp(lanes, next)
    requires var gs := Groups(lanes, next);
             Without(gs, rp) != [] && Without(gs, rp)[0] != Last(gs) && forall i :: i in lanes ==> next[i] != rp
    ensures Without(Without(Groups(lanes, next), rp), recvg) != []
  {
    var gs := Groups(lanes, next);
    GroupsHaveDistinctPcs(lanes, next);
    GroupsAgreeWithPcs(lanes, next);
    WithoutMembers(gs, rp);
    WithoutMembers(Without(gs, rp), recvg);
    hide Groups;
    var g, h := Without(gs, rp)[0], Last(gs);
    assert g in gs && h in gs && g.pc != h.pc;
    assert h.mask != {} && h in Without(gs, rp) by {
      var i :| i in h.mask;
      assert next[i] == h.pc;
    }
  }

  // ----- the invariant over runs

  lemma {:induction false} StillAwaited(k: Kernel, was: seq<Entry>, now: seq<Entry>, ups: seq<Entry>, split: bool,
                                        recvg: Pc, h: nat, d: nat)
    requires WellFormed(k) && was != [] && Becomes(k, was, now, ups, split, recvg)
    requires Awaited(k, was, h, d) && h < |was|
    ensures h <= |now| && now[..h] == was[..h] && Awaited(k, now, h, d)
    ensures split ==> !Free(k, recvg)
  {
    assert Within(k, d, Last(was));
    if split {
      PushedAwaited(k, was, recvg.block, ups, h, d);
    } else {
      ReplacedAwaited(k, was, ups, h, d);
    }
  }

  lemma {:induction false} StaysLayered(k: Kernel, was: seq<Entry>, now: seq<Entry>, ups: seq<Entry>, split: bool,
                                        recvg: Pc, dead: nat)
    requires WellFormed(k) && was != [] && Becomes(k, was, now, ups, split, recvg)
    requires Layered(k, was, dead) && dead < |was|
    ensures Layered(k, now, DeadThen(k, was, dead, split, recvg))
  {
    hide IsAwaited, Real;
    if split && Free(k, recvg) {
      forall j | |was| <= j < |now| ensures Free(k, now[j].rp) {
        assert now[j] in ups;
      }
    } else {
      forall j | dead <= j < |now| && !Free(k, now[j].rp) ensures IsAwaited(k, now, j, dead) {
        EntryStaysAwaited(k, was, now, ups, split, recvg, dead, j);
      }
    }
  }

  lemma {:induction false} EntryStaysAwaited(k: Kernel, was: seq<Entry>, now: seq<Entry>, ups: seq<Entry>, split: bool,
                                             recvg: Pc, dead: nat, j: nat)
    requires WellFormed(k) && was != [] && Becomes(k, was, now, ups, split, recvg)
    requires Layered(k, was, dead) && dead < |was| && (split ==> !Free(k, recvg))
    requires dead <= j < |now| && !Free(k, now[j].rp)
    ensures IsAwaited(k, now, j, dead)
  {
    var n := |was| - 1;
    hide IsAwaited, Real, Free;
    if j < n {
      assert now[j] == was[j];
      AwaitedAfter(k, was, now, ups, split, recvg, dead, j, j);
    } else if split && j > n {
      assert now[j] in ups;
      NewlyAwaited(k, was, recvg.block, ups);
      AwaitedAt(k, now, j, dead, n + 1);
    } else {
      assert !split ==> now[j] in ups;
      AwaitedAfter(k, was, now, ups, split, recvg, dead, n, j);
    }
  }

  lemma {:induction false} AwaitedAt(k: Kernel, st: seq<Entry>, j: nat, dead: nat, h: nat)
    requires j < |st| && dead < h <= j && st[j].rp.Code? && st[h - 1].pc == st[j].rp
    requires Awaited(k, st, h, st[j].rp.block)
    ensures IsAwaited(k, st, j, dead)
  {
  }

  /** What an entry was awaited at it is awaited at, and so is one in its place. */
  lemma {:induction false} AwaitedAfter(k: Kernel, was: seq<Entry>, now: seq<Entry>, ups: seq<Entry>, split: bool,
                                        recvg: Pc, dead: nat, j: nat, j': nat)
    requires WellFormed(k) && was != [] && Becomes(k, was, now, ups, split, recvg)
    requires j < |was| && j <= j' < |now| && IsAwaited(k, was, j, dead) && now[j'].rp == was[j].rp
    ensures IsAwaited(k, now, j', dead)
  {
    var h: nat :| dead < h <= j && was[h - 1].pc == was[j].rp && Awaited(k, was, h, was[j].rp.block);
    hide Awaited, Becomes;
    StillAwaited(k, was, now, ups, split, recvg, h, was[j].rp.block);
    assert now[h - 1] == now[..h][h - 1] == was[h - 1];
    AwaitedAt(k, now, j', dead, h);
  }

  /** Every state of a run with uniform breaks. */
  ghost predicate UniformRun(k: Kernel, ipdom: seq<int>, guards: Guards, ws: seq<Warp>)
    requires WellFormed(k) && IsIpdomTable(k, ipdom)
  {
    IsRun(k, ipdom, guards, ws) && forall n :: 0 <= n < |ws| && CanStep(k, ws[n]) ==> UniformBreak(k, guards, ws[n])
  }

  lemma {:induction false} UniformPrefix(k: Kernel, ipdom: seq<int>, guards: Guards, ws: seq<Warp>, n: nat)
    requires WellFormed(k) && IsIpdomTable(k, ipdom) && UniformRun(k, ipdom, guards, ws) && n < |ws|
    ensures UniformRun(k, ipdom, guards, ws[..n + 1]) && Last(ws[..n + 1]) == ws[n]
  {
    hide UniformBreak, CanStep, FollowsFrom;
    var part := ws[..n + 1];
    forall m | 0 <= m < |part| - 1 ensures FollowsFrom(k, ipdom, guards, part[m], part[m + 1]) {
      assert FollowsFrom(k, ipdom, guards, ws[m], ws[m + 1]);
    }
  }

  lemma {:induction false} RunIsLayered(k: Kernel, ipdom: seq<int>, guards: Guards, ws: seq<Warp>) returns (dead: nat)
    requires WellFormed(k) && IsIpdomTable(k, ipdom) && UniformRun(k, ipdom, guards, ws)
    ensures Sound(k, Last(ws), dead) && Layered(k, Last(ws).stack, dead)
    decreases |ws|
  {
    if |ws| == 1 {
      LaunchIsSound(k, ws[0]);
      dead := 0;
    } else {
      var n := |ws| - 2;
      UniformPrefix(k, ipdom, guards, ws, n);
      PrefixIsRun(k, ipdom, guards, ws);
      hide Sound, Layered, LeavesNoOne, Step, CanStep, UniformBreak, IsRun;
      dead := RunIsLayered(k, ipdom, guards, ws[..n + 1]);
      var ups;
      dead, ups := OneStep(k, ipdom, guards, ws, n, dead);
    }
  }

  lemma {:induction false} OneStep(k: Kernel, ipdom: seq<int>, guards: Guards, ws: seq<Warp>, n: nat, dead: nat)
    returns (dead': nat, ups: seq<Entry>)
    requires WellFormed(k) && IsIpdomTable(k, ipdom) && UniformRun(k, ipdom, guards, ws) && n + 1 < |ws|
    requires Sound(k, ws[n], dead)
    ensures CanStep(k, ws[n]) && Last(ws[n].stack).kind.Normal? && dead < |ws[n].stack|
    ensures ws[n + 1] == Step(k, ipdom, guards, ws[n]) && Outcome(k, ipdom, guards, ws[n], dead, ups)
    ensures dead' == DeadThen(k, ws[n].stack, dead, Splits(k, ipdom, guards, ws[n]), Recvg(k, ipdom, guards, ws[n]))
    ensures Sound(k, ws[n + 1], dead') && (Layered(k, ws[n].stack, dead) ==> Layered(k, ws[n + 1].stack, dead'))
  {
    assert FollowsFrom(k, ipdom, guards, ws[n], ws[n + 1]);
    hide Sound, Layered, LeavesNoOne, Step, UniformBreak;
    UniformPrefix(k, ipdom, guards, ws, n);
    var d := UniformRunIsSound(k, ipdom, guards, ws[..n + 1]);
    ActiveLanesInSync(k, ws[n], dead);
    ups := UniformOutcome(k, ipdom, guards, ws[n], dead);
    var split, recvg := Splits(k, ipdom, guards, ws[n]), Recvg(k, ipdom, guards, ws[n]);
    dead' := DeadThen(k, ws[n].stack, dead, split, recvg);
    if Layered(k, ws[n].stack, dead) {
      StaysLayered(k, ws[n].stack, ws[n + 1].stack, ups, split, recvg, dead);
    }
  }

  // ----- lanes meet

  /** Only lanes of `mask` run, at a block on the way to `d`, which is another. */
  ghost predicate OnTheWay(k: Kernel, w: Warp, mask: set<nat>, d: nat) {
    && w.stack != [] && Last(w.stack).mask <= mask
    && Last(w.stack).pc.Code? && StrictlyPostdominates(k, d, Last(w.stack).pc.block)
  }

  lemma {:induction false} TopIsLive(k: Kernel, w: Warp, dead: nat)
    requires Sound(k, w, dead) && dead < |w.stack|
    ensures SomeLive(w.threads)
  {
    var top := Last(w.stack);
    assert top in w.stack;
    var i :| i in top.mask;
    assert LaneOk(w, dead, i);
  }

  lemma {:induction false} Meeting(k: Kernel, ipdom: seq<int>, guards: Guards, ws: seq<Warp>, n: nat,
                                   h: nat, d: nat, dead: nat)
    returns (m: nat)
    requires WellFormed(k) && IsIpdomTable(k, ipdom) && UniformRun(k, ipdom, guards, ws)
    requires n < |ws| && !SomeLive(Last(ws).threads)
    requires Sound(k, ws[n], dead) && dead < h < |ws[n].stack| && Awaited(k, ws[n].stack, h, d)
    ensures n < m < |ws| && ws[m].stack == ws[n].stack[..h] && CanStep(k, ws[m])
    ensures forall j :: n <= j < m ==> OnTheWay(k, ws[j], ws[n].stack[h - 1].mask, d)
    decreases |ws| - n
  {
    hide Sound, Layered, Step, CanStep, Awaited, Outcome, UniformRun, OnTheWay, WellFormed, IsIpdomTable, SomeLive;
    OneMoreOnTheWay(k, ipdom, guards, ws, n, h, d, dead);
    if |ws[n + 1].stack| == h {
      m := n + 1;
      TopIsLive(k, ws[m], dead);
      ActiveLanesInSync(k, ws[m], dead);
      assert ws[m].stack[..h] == ws[m].stack;
    } else {
      m := Meeting(k, ipdom, guards, ws, n + 1, h, d, dead);
    }
  }

  lemma {:induction false} OneMoreOnTheWay(k: Kernel, ipdom: seq<int>, guards: Guards, ws: seq<Warp>, n: nat,
                                           h: nat, d: nat, dead: nat)
    requires WellFormed(k) && IsIpdomTable(k, ipdom) && UniformRun(k, ipdom, guards, ws)
    requires n < |ws| && !SomeLive(Last(ws).threads)
    requires Sound(k, ws[n], dead) && dead < h < |ws[n].stack| && Awaited(k, ws[n].stack, h, d)
    ensures n + 1 < |ws| && Sound(k, ws[n + 1], dead) && OnTheWay(k, ws[n], ws[n].stack[h - 1].mask, d)
    ensures var st := ws[n + 1].stack;
            h <= |st| && st[..h] == ws[n].stack[..h] && st[h - 1] == ws[n].stack[h - 1] && Awaited(k, st, h, d)
  {
    TopIsLive(k, ws[n], dead);
    assert n + 1 < |ws|;
    assert Within(k, d, Last(ws[n].stack));
    hide Sound, Layered, Step, CanStep, Awaited, Splits, Recvg, Becomes, UniformRun, WellFormed, IsIpdomTable, SomeLive;
    var dead', ups := OneStep(k, ipdom, guards, ws, n, dead);
    var split, recvg := Splits(k, ipdom, guards, ws[n]), Recvg(k, ipdom, guards, ws[n]);
    assert Becomes(k, ws[n].stack, ws[n + 1].stack, ups, split, recvg);
    StillAwaited(k, ws[n].stack, ws[n + 1].stack, ups, split, recvg, h, d);
    assert dead' == dead;
    assert ws[n + 1].stack[h - 1] == ws[n + 1].stack[..h][h - 1];
  }

  /** In a run that finishes, the lanes that run under a reconvergence point are
      together when they get there, in one entry, and until then nobody else runs
      and none of them passes that point. */
  lemma {:induction false} LanesMeet(k: Kernel, ipdom: seq<int>, guards: Guards, ws: seq<Warp>, n: nat)
    returns (m: nat)
    requires WellFormed(k) && IsIpdomTable(k, ipdom) && UniformRun(k, ipdom, guards, ws)
    requires n < |ws| && SomeLive(ws[n].threads) && !SomeLive(Last(ws).threads)
    ensures ws[n].stack != []
    ensures var top := Last(ws[n].stack);
            !Free(k, top.rp) ==>
              && n < m < |ws| && CanStep(k, ws[m]) && top.rp.Code?
              && Last(ws[m].stack).pc == top.rp && top.mask <= Last(ws[m].stack).mask
              && forall j :: n <= j < m ==> OnTheWay(k, ws[j], Last(ws[m].stack).mask, top.rp.block)
  {
    hide Sound, CanStep, Real, UniformRun, OnTheWay, WellFormed, IsIpdomTable, SomeLive, Awaited;
    UniformPrefix(k, ipdom, guards, ws, n);
    var dead := RunIsLayered(k, ipdom, guards, ws[..n + 1]);
    ActiveLanesInSync(k, ws[n], dead);
    var top, l := Last(ws[n].stack), |ws[n].stack| - 1;
    m := 0;
    if !Free(k, top.rp) {
      assert IsAwaited(k, ws[n].stack, l, dead);
      MaskIsAwaited(k, ws[n].stack);
      var h: nat :| dead < h <= l && ws[n].stack[h - 1].pc == top.rp && Awaited(k, ws[n].stack, h, top.rp.block);
      m := Meeting(k, ipdom, guards, ws, n, h, top.rp.block, dead);
      assert Last(ws[m].stack) == ws[n].stack[h - 1];
    }
  }

  /** Lanes that part ways at a branch meet at its immediate post-dominator, unless
      that is the exit: all lanes of the branch are there in one entry, and none of
      them has been there before. */
  lemma {:induction false} PartedLanesMeet(k: Kernel, ipdom: seq<int>, guards: Guards, ws: seq<Warp>,
                                           n: nat, i: nat, j: nat)
    returns (m: nat)
    requires WellFormed(k) && IsIpdomTable(k, ipdom) && UniformRun(k, ipdom, guards, ws)
    requires n + 1 < |ws| && !SomeLive(Last(ws).threads)
    requires ws[n].stack != [] && i in Last(ws[n].stack).mask && j in Last(ws[n].stack).mask
    requires i < |ws[n + 1].threads| && j < |ws[n + 1].threads|
    requires !ws[n + 1].threads[i].done && !ws[n + 1].threads[j].done
    requires ws[n + 1].threads[i].pc != ws[n + 1].threads[j].pc
    ensures var pc := Last(ws[n].stack).pc;
            && ValidPc(k, pc) && k.blocks[pc.block].end.Branch?
            && var d := ipdom[pc.block];
               (0 <= d < Exit(k) ==>
                  && n < m < |ws| && CanStep(k, ws[m])
                  && Last(ws[m].stack).pc == Code(d, 0) && Last(ws[n].stack).mask <= Last(ws[m].stack).mask
                  && forall l :: n < l < m ==> OnTheWay(k, ws[l], Last(ws[m].stack).mask, d))
  {
    UniformPrefix(k, ipdom, guards, ws, n);
    var dead := RunIsLayered(k, ipdom, guards, ws[..n + 1]);
    var dead', ups := OneStep(k, ipdom, guards, ws, n, dead);
    var w, top := ws[n], Last(ws[n].stack);
    PartAtBranch(k, ipdom, guards, w, i, j);
    BranchRecvgOk(k, ipdom, top.pc.block);
    m := 0;
    var recvg := Recvg(k, ipdom, guards, w);
    hide Sound, Layered, CanStep, Step, Splits, Recvg, UniformRun, OnTheWay, WellFormed, IsIpdomTable, Executed;
    if ipdom[top.pc.block] < Exit(k) {
      if Splits(k, ipdom, guards, w) {
        m := NewMeeting(k, ipdom, guards, ws, n, dead, ups);
      } else {
        InPlaceAtPending(k, ipdom, guards, w, dead, i, j);
        m := LanesMeet(k, ipdom, guards, ws, n);
      }
    }
  }

  lemma {:induction false} NewMeeting(k: Kernel, ipdom: seq<int>, guards: Guards, ws: seq<Warp>, n: nat,
                                      dead: nat, ups: seq<Entry>)
    returns (m: nat)
    requires WellFormed(k) && IsIpdomTable(k, ipdom) && UniformRun(k, ipdom, guards, ws)
    requires n + 1 < |ws| && !SomeLive(Last(ws).threads) && CanStep(k, ws[n]) && Last(ws[n].stack).kind.Normal?
    requires ws[n + 1] == Step(k, ipdom, guards, ws[n]) && dead < |ws[n].stack|
    requires Outcome(k, ipdom, guards, ws[n], dead, ups) && Splits(k, ipdom, guards, ws[n])
    requires ipdom[Last(ws[n].stack).pc.block] < Exit(k)
    ensures var top, d := Last(ws[n].stack), ipdom[Last(ws[n].stack).pc.block];
            && 0 <= d && n < m < |ws| && CanStep(k, ws[m])
            && Last(ws[m].stack) == top.(pc := Code(d, 0))
            && forall l :: n < l < m ==> OnTheWay(k, ws[l], top.mask, d)
  {
    var w, top, h := ws[n], Last(ws[n].stack), |ws[n].stack|;
    BranchRecvgOk(k, ipdom, top.pc.block);
    var d: nat := ipdom[top.pc.block];
    hide Sound, CanStep, Step, Splits, Recvg, UniformRun, OnTheWay, WellFormed, IsIpdomTable, Awaited;
    NewlyAwaited(k, w.stack, d, ups);
    m := Meeting(k, ipdom, guards, ws, n + 1, h, d, dead);
    assert ws[n + 1].stack[h - 1] == top.(pc := Code(d, 0));
  }

  lemma {:induction false} MaskIsAwaited(k: Kernel, st: seq<Entry>)
    ensures forall h: nat, d :: st != [] && h < |st| && Awaited(k, st, h, d) ==> Last(st).mask <= st[h - 1].mask
  {
  }

  lemma {:induction false} PartAtBranch(k: Kernel, ipdom: seq<int>, guards: Guards, w: Warp, i: nat, j: nat)
    requires WellFormed(k) && IsIpdomTable(k, ipdom) && CanStep(k, w) && UniformBreak(k, guards, w)
    requires i in Last(w.stack).mask && j in Last(w.stack).mask
    requires var ts := Executed(k, guards, w); !ts[i].done && !ts[j].done && ts[i].pc != ts[j].pc
    ensures k.blocks[Last(w.stack).pc.block].end.Branch?
    ensures Recvg(k, ipdom, guards, w) == BranchRecvg(k, ipdom, Last(w.stack).pc.block)
  {
    var pc, ts := Last(w.stack).pc, Executed(k, guards, w);
    assert InSync(w, i) && InSync(w, j) && WellFormedBlock(k, pc.block);
    assert ts[i] == Execute(k, guards(i, w.threads[i].steps), w.threads[i]);
    assert ts[j] == Execute(k, guards(j, w.threads[j].steps), w.threads[j]);
    assert SomeLive(ts);
  }

  /** Lanes that part ways without a new entry do so where the pending point is
      that of the branch. */
  lemma {:induction false} InPlaceAtPending(k: Kernel, ipdom: seq<int>, guards: Guards, w: Warp, dead: nat,
                                            i: nat, j: nat)
    requires WellFormed(k) && IsIpdomTable(k, ipdom) && CanStep(k, w) && Sound(k, w, dead) && dead < |w.stack|
    requires i in Last(w.stack).mask && j in Last(w.stack).mask
    requires var ts := Executed(k, guards, w); !ts[i].done && !ts[j].done && ts[i].pc != ts[j].pc
    requires Recvg(k, ipdom, guards, w) == BranchRecvg(k, ipdom, Last(w.stack).pc.block)
    requires !Splits(k, ipdom, guards, w)
    ensures Last(w.stack).rp == Recvg(k, ipdom, guards, w)
  {
    var top, ts := Last(w.stack), Executed(k, guards, w);
    var lanes, next := top.mask - Finished(ts), NextPcs(ts);
    assert Real(k, top);
    ExecutedMoves(k, guards, w);
    if Recvg(k, ipdom, guards, w) != top.rp {
      forall l | l in lanes ensures l < |next| && next[l] != top.rp {
        DivergenceMissesPending(k, ipdom, top.rp, top.pc.block, ts[l].pc);
      }
      assert next[i] != next[j];
      hide Executed, CanStep, WellFormed, IsIpdomTable, Moved, Sound;
      AllAreKept(lanes, next, top.rp, i, j);
      assert false;
    }
  }

  lemma {:induction false} AllAreKept(lanes: set<nat>, next: seq<Pc>, rp: Pc, i: nat, j: nat)
    requires InWarp(lanes, next) && i in lanes && j in lanes && next[i] != next[j]
    requires forall l :: l in lanes ==> next[l] != rp
    ensures var gs := Groups(lanes, next);
            gs != [] && Without(gs, rp) != [] && Without(gs, rp)[0] != Last(gs)
  {
    var gs := Groups(lanes, next);
    GroupsHaveDistinctPcs(lanes, next);
    GroupsAgreeWithPcs(lanes, next);
    GroupsCoverLanes(lanes, next);
    hide Groups;
    var g :| g in gs && i in g.mask;
    var h :| h in gs && j in h.mask;
    assert g.pc != h.pc;
    forall x | x in gs ensures x.pc != rp {
      var l :| l in x.mask;
    }
    KeepsAll(gs, rp);
  }
}

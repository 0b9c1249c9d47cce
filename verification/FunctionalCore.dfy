/** Functional execution of one thread block: all warps round by round, with the
    block-wide barrier. */
module FunctionalCores {
  import opened ControlFlow
  import opened Helpers
  import opened SimtStacks
  import opened Kernels
  import opened Lockstep
  import opened LockstepRuns
  import opened LockstepExact

  ghost function LiveCount(ts: seq<Thread>): nat {
    if ts == [] then 0 else LiveCount(ButLast(ts)) + (if Last(ts).done then 0 else 1)
  }

  lemma {:induction false} LiveCountAppend(ts: seq<Thread>, t: Thread)
    ensures LiveCount([]) == 0 && LiveCount(ts + [t]) == LiveCount(ts) + (if t.done then 0 else 1)
  {
    assert ButLast(ts + [t]) == ts;
  }

  lemma {:induction false} LiveCountUpdate(ts: seq<Thread>, i: nat, t: Thread)
    requires i < |ts| && !ts[i].done
    ensures LiveCount(ts[i := t]) == LiveCount(ts) - (if t.done then 1 else 0)
  {
    var ts' := ts[i := t];
    if i < |ts| - 1 {
      LiveCountUpdate(ButLast(ts), i, t);
      assert ButLast(ts') == ButLast(ts)[i := t];
    } else {
      assert ButLast(ts') == ButLast(ts);
    }
  }

  lemma {:induction false} LiveCountPositive(ts: seq<Thread>)
    ensures LiveCount(ts) > 0 <==> SomeLive(ts)
  {
    if ts != [] {
      LiveCountPositive(ButLast(ts));
      if SomeLive(ts) && Last(ts).done {
        var i :| 0 <= i < |ts| && !ts[i].done;
        assert !ButLast(ts)[i].done;
      }
    }
  }

  /** A barrier or a memory barrier, at which the warp waits for the block. */
  predicate IsBarrier(k: Kernel, pc: Pc) {
    pc.Code? && pc.block < Exit(k) && pc.offset in k.blocks[pc.block].barriers + k.blocks[pc.block].fences
  }

  /** How many of these instructions were barriers. */
  ghost function BarrierCount(k: Kernel, pcs: seq<Pc>): nat {
    if pcs == [] then 0 else BarrierCount(k, ButLast(pcs)) + (if IsBarrier(k, Last(pcs)) then 1 else 0)
  }

  lemma {:induction false} BarrierCountAppend(k: Kernel, pcs: seq<Pc>, pc: Pc)
    ensures BarrierCount(k, []) == 0
    ensures BarrierCount(k, pcs + [pc]) == BarrierCount(k, pcs) + (if IsBarrier(k, pc) then 1 else 0)
  {
    assert ButLast(pcs + [pc]) == pcs;
  }

  /** The operations at which the code makes a warp wait are those of barriers. */
  lemma {:induction false} WaitsAtBarrier(k: Kernel, pc: Pc)
    requires ValidPc(k, pc)
    ensures (OpAt(k, pc) == BarrierOp || OpAt(k, pc) == MemoryBarrierOp) <==> IsBarrier(k, pc)
  {
  }

  /** Guard outcomes per warp. */
  type BlockGuards = nat -> Guards

  /** Every present thread of a warp is where it would be by itself. */
  ghost predicate RunAlone(k: Kernel, guards: Guards, ts: seq<Thread>, present: nat)
    requires WellFormed(k)
  {
    forall i: nat :: i < |ts| ==>
      if i >= present then ts[i].done && ts[i].steps == 0
      else ts[i] == Alone(k, guards, i, ts[i].steps)
  }

  /** A warp of `n` lanes at launch, of which the first `present` hold threads. */
  function LaunchWarp(n: nat, present: nat): Warp {
    Warp([Entry(Code(0, 0), Below(if present < n then present else n), NoPc, Normal)],
         seq(n, i => Thread(if i < present then Code(0, 0) else NoPc, i >= present, 0)))
  }

  ghost predicate WarpSound(k: Kernel, ipdom: seq<int>, guards: Guards, w: Warp, dead: nat, live: nat, present: nat)
    requires WellFormed(k) && IsIpdomTable(k, ipdom)
  {
    && Sound(k, w, dead) && live == LiveCount(w.threads) && RunAlone(k, guards, w.threads, present)
    && Reached(k, ipdom, guards, LaunchWarp(|w.threads|, present), w)
  }

  /** No warp launched with `present` threads ever leaves lanes behind. */
  ghost predicate LaunchReconverges(k: Kernel, ipdom: seq<int>, guards: Guards, n: nat, present: nat)
    requires WellFormed(k) && IsIpdomTable(k, ipdom)
  {
    Reconverges(k, ipdom, guards, LaunchWarp(n, present))
  }

  /** Runs the fetched instruction on every active lane, and counts down the live
      threads as they finish. */
  method ExecuteLanes(k: Kernel, guards: Guards, ghost w: Warp, threads: seq<Thread>, mask: set<nat>, liveBefore: nat)
    returns (ts: seq<Thread>, live: nat)
    requires WellFormed(k) && CanStep(k, w) && threads == w.threads && mask == Last(w.stack).mask
    requires liveBefore == LiveCount(threads)
    ensures ts == Executed(k, guards, w) && live == LiveCount(ts)
  {
    assert forall b: nat :: b < Exit(k) ==> WellFormedBlock(k, b);
    hide WellFormed, WellFormedBlock, Execute, LiveCount;
    ts, live := threads, liveBefore;
    var t := 0;
    while t < |threads|
      invariant t <= |threads| == |ts| && live == LiveCount(ts)
      invariant forall i :: 0 <= i < t ==> ts[i] == Executed(k, guards, w)[i]
      invariant forall i :: t <= i < |threads| ==> ts[i] == threads[i]
    {
      if t in mask {
        assert InSync(w, t);
        var after := Execute(k, guards(t, ts[t].steps), ts[t]);
        LiveCountUpdate(ts, t, after);
        ts := ts[t := after];
        if after.done {
          live := live - 1;
        }
      }
      t := t + 1;
    }
    assert ts == Executed(k, guards, w);
  }

  /** Collects the finished threads and the next program counters, and resolves a
      reconvergence point at the return address. */
  method CollectThreads(k: Kernel, ts: seq<Thread>, recvgPc: Pc) returns (done: set<nat>, next: seq<Pc>, recvg: Pc)
    ensures done == Finished(ts) && next == NextPcs(ts) && recvg == Resolved(k, recvgPc, ts)
  {
    recvg, done, next := recvgPc, {}, [];
    var i := 0;
    while i < |ts|
      invariant i <= |ts| && |next| == i
      invariant forall j :: 0 <= j < i ==> next[j] == NextPcs(ts)[j]
      invariant forall j: nat :: j in done <==> j < i && ts[j].done
      invariant recvg == if recvgPc == ReturnMarker && exists j :: 0 <= j < i && !ts[j].done
                         then ReturnAddress(k) else recvgPc
    {
      if ts[i].done {
        done := done + {i};
        next := next + [NoPc];
      } else {
        if recvg == ReturnMarker {
          recvg := ReturnAddress(k);
        }
        next := next + [ts[i].pc];
      }
      i := i + 1;
    }
    assert next == NextPcs(ts) && done == Finished(ts);
  }

  /** Fetches at the top of a warp's stack, executes, and updates the stack. */
  method RunInstruction(k: Kernel, ipdom: seq<int>, guards: Guards, stack: SimtStack, threads: seq<Thread>,
                        liveBefore: nat, ghost dead: nat, ghost present: nat)
    returns (op: Op, ts: seq<Thread>, live: nat, ghost dead': nat)
    requires WellFormed(k) && IsIpdomTable(k, ipdom) && stack.warpSize == |threads|
    requires WarpSound(k, ipdom, guards, Warp(stack.stack, threads), dead, liveBefore, present) && liveBefore > 0
    requires CanStep(k, Warp(stack.stack, threads)) ==> LeavesNoOne(k, ipdom, guards, Warp(stack.stack, threads))
    modifies stack
    ensures WarpSound(k, ipdom, guards, Warp(stack.stack, ts), dead', live, present) && |ts| == |threads|
    ensures var w := Warp(old(stack.stack), threads);
            && CanStep(k, w) && Last(w.stack).kind.Normal?
            && Warp(stack.stack, ts) == Step(k, ipdom, guards, w)
            && op == OpAt(k, Last(w.stack).pc)
    ensures live == LiveCount(ts)
  {
    hide WarpSound, Updated, LiveCount, LeavesNoOne, ConvergePoint, OpAt, SaneBlocks, AllReach;
    ghost var w := Warp(stack.stack, threads);
    dead' := SoundStep(k, ipdom, guards, w, dead, liveBefore, present);
    var pc, mask := stack.TopPc(), stack.ActiveMask();
    op := OpAt(k, pc);
    ts, live := ExecuteLanes(k, guards, w, threads, mask, liveBefore);
    var done, next, recvg := CollectThreads(k, ts, ConvergePoint(k, ipdom, pc));
    stack.Update(done, next, recvg, op);
  }

  /** All that a block knows of one warp. */
  datatype WarpState = WarpState(warp: Warp, fetched: seq<Pc>, live: nat, atBarrier: bool)

  /** A warp's turn: exactly one step if it may run, and nothing if it may not. */
  ghost predicate Turned(k: Kernel, ipdom: seq<int>, guards: Guards, was: WarpState, now: WarpState)
    requires SaneBlocks(k) && |ipdom| == Exit(k) + 1
  {
    if was.atBarrier || was.live == 0 then now == was
    else
      && CanStep(k, was.warp) && Last(was.warp.stack).kind.Normal?
      && var pc := Last(was.warp.stack).pc;
      && now.warp == Step(k, ipdom, guards, was.warp) && now.fetched == was.fetched + [pc]
      && now.live == LiveCount(now.warp.threads) && now.atBarrier == IsBarrier(k, pc)
  }

  lemma {:induction false} TurnAdvances(k: Kernel, ipdom: seq<int>, guards: Guards, was: WarpState, now: WarpState)
    requires WellFormed(k) && |ipdom| == Exit(k) + 1 && Turned(k, ipdom, guards, was, now)
    requires was.live == LiveCount(was.warp.threads)
    ensures |now.warp.threads| == |was.warp.threads|
    ensures if was.atBarrier || was.live == 0 then now == was
            else TotalSteps(now.warp.threads) > TotalSteps(was.warp.threads)
    ensures now.live > 0 ==> was.live > 0
  {
    if !was.atBarrier && was.live > 0 {
      StepAdvances(k, guards, was.warp);
    }
  }

  class FunctionalCore {
    const kernel: Kernel
    const ipdom: seq<int>
    const guards: BlockGuards
    const warpSize: nat
    ghost const present: seq<nat>
    var stacks: seq<SimtStack>
    var threads: seq<seq<Thread>>
    var liveThreadCount: seq<nat>
    var warpAtBarrier: seq<bool>
    ghost var dead: seq<nat>
    /** The program counters each warp has fetched, and the barriers opened so far. */
    ghost var fetched: seq<seq<Pc>>
    ghost var epoch: nat

    ghost predicate Shape()
      reads this
    {
      && WellFormed(kernel) && IsIpdomTable(kernel, ipdom)
      && |stacks| == |threads| == |liveThreadCount| == |warpAtBarrier| == |dead| == |fetched| == |present|
      && (forall v, w :: 0 <= v < w < |stacks| ==> stacks[v] != stacks[w])
      && (forall w :: 0 <= w < |threads| ==> |threads[w]| == warpSize)
    }

    ghost predicate WarpOk(w: nat)
      requires Shape() && w < |stacks|
      reads this, stacks[w]
    {
      && stacks[w].warpSize == warpSize
      && WarpSound(kernel, ipdom, guards(w), Warp(stacks[w].stack, threads[w]), dead[w], liveThreadCount[w], present[w])
    }

    /** The barriers a warp has executed. */
    ghost function Barriers(w: nat): nat
      requires w < |fetched|
      reads this
    {
      BarrierCount(kernel, fetched[w])
    }

    /** A live warp has executed as many barriers as the block has passed, and one
        more while it waits. */
    ghost predicate BarrierOk(w: nat)
      requires Shape() && w < |stacks|
      reads this
    {
      liveThreadCount[w] > 0 ==> Barriers(w) == epoch + (if warpAtBarrier[w] then 1 else 0)
    }

    ghost predicate Valid()
      reads this, stacks
    {
      && Shape()
      && forall w :: 0 <= w < |stacks| ==> WarpOk(w) && BarrierOk(w)
    }

    predicate MayRun(w: nat)
      requires w < |liveThreadCount| == |warpAtBarrier|
      reads this
    {
      !warpAtBarrier[w] && liveThreadCount[w] != 0
    }

    /** A warp that may run has passed no barrier that a live warp has not
        executed. */
    ghost predicate BarrierSafe()
      requires Shape()
      reads this
    {
      forall v, w :: 0 <= v < |stacks| && 0 <= w < |stacks| && MayRun(v) && liveThreadCount[w] > 0 ==>
        Barriers(v) <= Barriers(w)
    }

    lemma ValidIsBarrierSafe()
      requires Valid()
      ensures BarrierSafe()
    {
      forall v, w | 0 <= v < |stacks| && 0 <= w < |stacks| && MayRun(v) && liveThreadCount[w] > 0
        ensures Barriers(v) <= Barriers(w)
      {
        assert BarrierOk(v) && BarrierOk(w);
      }
    }

    ghost function Look(w: nat): WarpState
      requires Shape() && w < |stacks|
      reads this, stacks[w]
    {
      WarpState(Warp(stacks[w].stack, threads[w]), fetched[w], liveThreadCount[w], warpAtBarrier[w])
    }

    ghost predicate LosesNoOne(w: nat)
      requires Shape() && w < |stacks|
      reads this, stacks[w]
    {
      var warp := Warp(stacks[w].stack, threads[w]);
      CanStep(kernel, warp) ==> LeavesNoOne(kernel, ipdom, guards(w), warp)
    }

    /** Whatever a warp of the block comes to, it leaves no one behind. */
    ghost predicate BlockReconverges()
      requires Shape()
      reads this
    {
      forall w :: 0 <= w < |stacks| ==> LaunchReconverges(kernel, ipdom, guards(w), warpSize, present[w])
    }

    /** Fetches at the top of the stack of a running warp, executes, updates. */
    method StepWarp(w: nat) returns (op: Op, ghost pc: Pc)
      requires Shape() && w < |stacks| && WarpOk(w) && LosesNoOne(w) && MayRun(w)
      modifies this`threads, this`liveThreadCount, this`dead, stacks[w]
      ensures Shape() && WarpOk(w)
      ensures dead == old(dead)[w := dead[w]]
      ensures threads == old(threads)[w := threads[w]]
      ensures liveThreadCount == old(liveThreadCount)[w := liveThreadCount[w]]
      ensures var warp := old(Warp(stacks[w].stack, threads[w]));
              && CanStep(kernel, warp) && Last(warp.stack).kind.Normal?
              && Warp(stacks[w].stack, threads[w]) == Step(kernel, ipdom, guards(w), warp)
              && pc == Last(warp.stack).pc && ValidPc(kernel, pc) && op == OpAt(kernel, pc)
      ensures liveThreadCount[w] == LiveCount(threads[w])
    {
      hide WarpSound, WellFormed, LeavesNoOne, IsIpdomTable, Step, OpAt, CanStep;
      var now := Warp(stacks[w].stack, threads[w]);
      assert WarpSound(kernel, ipdom, guards(w), now, dead[w], liveThreadCount[w], present[w]);
      var ts, live;
      ghost var deadAfter;
      op, ts, live, deadAfter := RunInstruction(kernel, ipdom, guards(w), stacks[w], threads[w], liveThreadCount[w],
                                                  dead[w], present[w]);
      threads := threads[w := ts];
      liveThreadCount := liveThreadCount[w := live];
      dead := dead[w := deadAfter];
      StepIsValid(kernel, now);
      pc := Last(now.stack).pc;
    }

    lemma StepIsValid(k: Kernel, w: Warp)
      requires CanStep(k, w)
      ensures w.stack != [] && ValidPc(k, Last(w.stack).pc)
    {
    }

    twostate lemma UntouchedWarp(v: nat)
      requires old(Shape()) && Shape() && v < |stacks| && stacks == old(stacks) && unchanged(stacks[v])
      requires threads[v] == old(threads[v]) && dead[v] == old(dead[v])
      requires liveThreadCount[v] == old(liveThreadCount[v]) && warpAtBarrier[v] == old(warpAtBarrier[v])
      requires fetched[v] == old(fetched[v]) && epoch == old(epoch)
      requires old(WarpOk(v)) && old(BarrierOk(v))
      ensures WarpOk(v) && BarrierOk(v)
    {
    }

    /** The turn of a warp that may run: one step, and the barrier flag. */
    method RunWarp(w: nat)
      requires Valid() && w < |stacks| && LosesNoOne(w) && MayRun(w)
      modifies this`threads, this`liveThreadCount, this`warpAtBarrier, this`dead, this`fetched, stacks[w]
      ensures Valid()
      ensures threads == old(threads)[w := threads[w]]
      ensures fetched == old(fetched)[w := fetched[w]]
      ensures liveThreadCount == old(liveThreadCount)[w := liveThreadCount[w]]
      ensures warpAtBarrier == old(warpAtBarrier)[w := warpAtBarrier[w]]
      ensures Turned(kernel, ipdom, guards(w), old(Look(w)), Look(w))
    {
      hide WarpSound, Step, OpAt, CanStep, IsIpdomTable, LeavesNoOne, WellFormed;
      assert BarrierOk(w);
      var op;
      ghost var pc;
      op, pc := StepWarp(w);
      BarrierCountAppend(kernel, fetched[w], pc);
      fetched := fetched[w := fetched[w] + [pc]];
      WaitsAtBarrier(kernel, pc);
      if op == BarrierOp || op == MemoryBarrierOp {
        warpAtBarrier := warpAtBarrier[w := true];
      }
      forall v | 0 <= v < |stacks| && v != w ensures WarpOk(v) && BarrierOk(v) {
        UntouchedWarp(v);
      }
    }

    /** One warp's turn in a round. */
    method ExecuteWarp(w: nat, allAtBarrier: bool, someOneLive: bool)
      returns (allAtBarrier': bool, someOneLive': bool)
      requires Valid() && w < |stacks| && (MayRun(w) ==> LosesNoOne(w))
      modifies this`threads, this`liveThreadCount, this`warpAtBarrier, this`dead, this`fetched, stacks[w]
      ensures Valid()
      ensures Turned(kernel, ipdom, guards(w), old(Look(w)), Look(w))
      ensures threads == old(threads)[w := threads[w]] && fetched == old(fetched)[w := fetched[w]]
      ensures liveThreadCount == old(liveThreadCount)[w := liveThreadCount[w]]
      ensures warpAtBarrier == old(warpAtBarrier)[w := warpAtBarrier[w]]
      ensures someOneLive' <==> someOneLive || liveThreadCount[w] > 0
      ensures allAtBarrier' <==> allAtBarrier && !MayRun(w)
    {
      allAtBarrier', someOneLive' := allAtBarrier, someOneLive;
      if !warpAtBarrier[w] && liveThreadCount[w] != 0 {
        RunWarp(w);
      }
      if liveThreadCount[w] > 0 {
        someOneLive' := true;
      }
      if !warpAtBarrier[w] && liveThreadCount[w] > 0 {
        allAtBarrier' := false;
      }
    }

    /** `count` threads in warps of `warpSize`; the last warp may be partial. */
    constructor (kernel: Kernel, ipdom: seq<int>, guards: BlockGuards, warpSize: nat, count: nat)
      requires WellFormed(kernel) && IsIpdomTable(kernel, ipdom) && 0 < warpSize
      ensures Valid() && this.kernel == kernel && this.ipdom == ipdom
      ensures this.guards == guards && this.warpSize == warpSize
      ensures fresh(stacks) && |stacks| == (count + warpSize - 1) / warpSize
      ensures forall w :: 0 <= w < |stacks| ==> MayRun(w)
      ensures forall w :: 0 <= w < |stacks| ==> 0 < present[w] == count - w * warpSize
      ensures epoch == 0 && forall w :: 0 <= w < |stacks| ==> fetched[w] == []
    {
      hide WellFormed, IsIpdomTable, WarpSound;
      var n := (count + warpSize - 1) / warpSize;
      var sts: seq<SimtStack> := [];
      var ths: seq<seq<Thread>> := [];
      var lives: seq<nat> := [];
      ghost var pres: seq<nat> := [];
      var w := 0;
      while w < n
        invariant w <= n && |sts| == |ths| == |lives| == |pres| == w
        invariant forall v :: 0 <= v < w ==> fresh(sts[v]) && sts[v].warpSize == warpSize == |ths[v]|
        invariant forall u, v :: 0 <= u < v < w ==> sts[u] != sts[v]
        invariant forall v :: 0 <= v < w ==> 0 < pres[v] == count - v * warpSize && lives[v] > 0
        invariant forall v :: 0 <= v < w ==>
                    WarpSound(kernel, ipdom, guards(v), Warp(sts[v].stack, ths[v]), 0, lives[v], pres[v])
      {
        LastWarpIsUsed(count, warpSize, w);
        var stack, ts, live := CreateWarp(kernel, ipdom, guards(w), warpSize, count - w * warpSize);
        sts, ths, lives, pres := sts + [stack], ths + [ts], lives + [live], pres + [count - w * warpSize];
        w := w + 1;
      }
      this.kernel, this.ipdom, this.guards, this.warpSize, this.present := kernel, ipdom, guards, warpSize, pres;
      stacks, threads, liveThreadCount := sts, ths, lives;
      warpAtBarrier := seq(n, _ => false);
      dead, fetched, epoch := seq(n, _ => 0), seq(n, _ => []), 0;
    }

    /** One pass over all warps: each has its turn once. */
    method PassOverWarps() returns (allAtBarrier: bool, someOneLive: bool)
      requires Valid() && BlockReconverges()
      modifies this`threads, this`liveThreadCount, this`warpAtBarrier, this`dead, this`fetched, stacks
      ensures Valid()
      ensures someOneLive <==> AnyLive(liveThreadCount, |stacks|)
      ensures allAtBarrier <==> !AnyMayRun(liveThreadCount, warpAtBarrier, |stacks|)
      ensures old(AnyMayRun(liveThreadCount, warpAtBarrier, |stacks|)) ==>
                BlockSteps(threads) > BlockSteps(old(threads))
      ensures someOneLive ==> old(AnyLive(liveThreadCount, |stacks|))
      ensures forall v: nat :: v < |stacks| ==> Turned(kernel, ipdom, guards(v), old(Look(v)), Look(v))
    {
      allAtBarrier, someOneLive := true, false;
      ghost var ran := false;
      ghost var live, flags := liveThreadCount, warpAtBarrier;
      hide WarpOk, BarrierOk, Turned;
      var w := 0;
      while w < |stacks|
        invariant w <= |stacks| && Valid() && epoch == old(epoch)
        invariant |liveThreadCount| == |warpAtBarrier| == |live| == |flags| == |stacks|
        invariant someOneLive <==> AnyLive(liveThreadCount, w)
        invariant allAtBarrier <==> !AnyMayRun(liveThreadCount, warpAtBarrier, w)
        invariant forall v :: w <= v < |stacks| ==> liveThreadCount[v] == live[v] && warpAtBarrier[v] == flags[v]
        invariant if ran then BlockSteps(threads) > BlockSteps(old(threads)) else threads == old(threads)
        invariant AnyMayRun(live, flags, w) ==> ran
        invariant forall v :: 0 <= v < w && liveThreadCount[v] > 0 ==> live[v] > 0
        invariant forall v: nat :: v < w ==> Turned(kernel, ipdom, guards(v), old(Look(v)), Look(v))
        invariant forall v: nat :: w <= v < |stacks| ==> Look(v) == old(Look(v))
      {
        ghost var runs := MayRun(w);
        ghost var before := threads;
        allAtBarrier, someOneLive := TakeTurn(w, allAtBarrier, someOneLive);
        ran := ran || runs;
        w := w + 1;
      }
    }

    method TakeTurn(w: nat, allBefore: bool, someBefore: bool) returns (allAtBarrier: bool, someOneLive: bool)
      requires Valid() && BlockReconverges() && w < |stacks|
      requires someBefore <==> AnyLive(liveThreadCount, w)
      requires allBefore <==> !AnyMayRun(liveThreadCount, warpAtBarrier, w)
      modifies this`threads, this`liveThreadCount, this`warpAtBarrier, this`dead, this`fetched, stacks[w]
      ensures Valid()
      ensures someOneLive <==> AnyLive(liveThreadCount, w + 1)
      ensures allAtBarrier <==> !AnyMayRun(liveThreadCount, warpAtBarrier, w + 1)
      ensures forall v :: 0 <= v < |stacks| && v != w ==>
                liveThreadCount[v] == old(liveThreadCount[v]) && warpAtBarrier[v] == old(warpAtBarrier[v])
      ensures liveThreadCount[w] > 0 ==> old(liveThreadCount[w]) > 0
      ensures if old(MayRun(w)) then BlockSteps(threads) > BlockSteps(old(threads)) else threads == old(threads)
      ensures Turned(kernel, ipdom, guards(w), old(Look(w)), Look(w))
      ensures forall v: nat :: v < |stacks| && v != w ==> Look(v) == old(Look(v))
    {
      hide Turned, WarpOk, BarrierOk, WellFormed, IsIpdomTable, LosesNoOne, BlockReconverges, LiveCount;
      if MayRun(w) {
        RunningLosesNoOne(w);
      }
      ghost var was, runs := Look(w), MayRun(w);
      WarpStateOk(w);
      allAtBarrier, someOneLive := ExecuteWarp(w, allBefore, someBefore);
      TurnAdvances(kernel, ipdom, guards(w), was, Look(w));
      if runs {
        BlockStepsUpdate(old(threads), w, threads[w]);
      }
      AnyAfterUpdate(old(liveThreadCount), old(warpAtBarrier), w, liveThreadCount[w], warpAtBarrier[w]);
    }

    lemma WarpStateOk(w: nat)
      requires Shape() && w < |stacks| && WarpOk(w)
      ensures WellFormed(kernel) && |ipdom| == Exit(kernel) + 1 && liveThreadCount[w] == LiveCount(threads[w])
    {
      hide Sound, RunAlone, Reached;
    }

    lemma RunningLosesNoOne(w: nat)
      requires Shape() && w < |stacks| && WarpOk(w) && MayRun(w) && BlockReconverges()
      ensures LosesNoOne(w)
    {
      hide LeavesNoOne, CanStep;
      LiveCountPositive(threads[w]);
      assert LaunchReconverges(kernel, ipdom, guards(w), warpSize, present[w]);
    }

    /** One round: a pass over all warps, and the barrier opens if no warp may run. */
    method Round() returns (someOneLive: bool)
      requires Valid() && BlockReconverges()
      requires AnyLive(liveThreadCount, |stacks|) ==> AnyMayRun(liveThreadCount, warpAtBarrier, |stacks|)
      modifies this`threads, this`liveThreadCount, this`warpAtBarrier, this`dead, this`fetched, this`epoch, stacks
      ensures Valid()
      ensures someOneLive <==> AnyLive(liveThreadCount, |stacks|)
      ensures someOneLive ==> AnyMayRun(liveThreadCount, warpAtBarrier, |stacks|)
      ensures someOneLive ==> BlockSteps(threads) > BlockSteps(old(threads))
    {
      var allAtBarrier;
      allAtBarrier, someOneLive := PassOverWarps();
      if someOneLive && allAtBarrier {
        OpenBarrier();
      }
    }

    method OpenBarrier()
      requires Valid() && !AnyMayRun(liveThreadCount, warpAtBarrier, |stacks|) && AnyLive(liveThreadCount, |stacks|)
      modifies this`warpAtBarrier, this`epoch
      ensures Valid() && AnyMayRun(liveThreadCount, warpAtBarrier, |stacks|) && epoch == old(epoch) + 1
    {
      hide WarpSound;
      forall v | 0 <= v < |stacks| && liveThreadCount[v] > 0 ensures Barriers(v) == epoch + 1 {
        assert BarrierOk(v);
      }
      warpAtBarrier := seq(|stacks|, _ => false);
      epoch := epoch + 1;
      forall v | 0 <= v < |stacks| ensures WarpOk(v) && BarrierOk(v) {
        assert old(WarpOk(v));
      }
    }

    /** Every present thread finishes by itself within `bound` instructions. */
    ghost predicate FinishAlone(bound: nat)
      requires Shape()
      reads this
    {
      forall w, i: nat :: 0 <= w < |stacks| && i < warpSize && i < present[w] ==>
        Alone(kernel, guards(w), i, bound).done
    }

    /** Runs the block to the end.  If every thread finishes by itself, so does the
        block, and every thread ends exactly as it would by itself. */
    method Execute(ghost bound: nat)
      requires Valid() && BlockReconverges() && FinishAlone(bound)
      requires AnyLive(liveThreadCount, |stacks|) ==> AnyMayRun(liveThreadCount, warpAtBarrier, |stacks|)
      modifies this`threads, this`liveThreadCount, this`warpAtBarrier, this`dead, this`fetched, this`epoch, stacks
      ensures Valid()
      ensures forall w, i: nat :: 0 <= w < |stacks| && i < warpSize && i < present[w] ==>
                threads[w][i].done && threads[w][i] == Alone(kernel, guards(w), i, bound)
    {
      hide Limit, WarpOk, BarrierOk, Alone, BlockSteps;
      BlockBounded(bound);
      while true
        invariant Valid() && BlockSteps(threads) <= Limit(|stacks|, warpSize, bound)
        invariant AnyLive(liveThreadCount, |stacks|) ==> AnyMayRun(liveThreadCount, warpAtBarrier, |stacks|)
        decreases Limit(|stacks|, warpSize, bound) - BlockSteps(threads)
      {
        var someOneLive := Round();
        BlockBounded(bound);
        if !someOneLive {
          break;
        }
      }
      BlockFinished(bound);
    }

    lemma BlockFinished(bound: nat)
      requires Valid() && FinishAlone(bound) && !AnyLive(liveThreadCount, |stacks|)
      ensures forall w, i: nat :: 0 <= w < |stacks| && i < warpSize && i < present[w] ==>
                threads[w][i].done && threads[w][i] == Alone(kernel, guards(w), i, bound)
    {
      forall w, i: nat | 0 <= w < |stacks| && i < warpSize && i < present[w]
        ensures threads[w][i].done && threads[w][i] == Alone(kernel, guards(w), i, bound)
      {
        assert WarpOk(w);
        LiveCountPositive(threads[w]);
        FinishedAsAlone(kernel, guards(w), i, threads[w][i].steps, bound);
      }
    }

    lemma BlockBounded(bound: nat)
      requires Valid() && FinishAlone(bound)
      ensures BlockSteps(threads) <= Limit(|stacks|, warpSize, bound)
    {
      forall w | 0 <= w < |threads| ensures TotalSteps(threads[w]) <= warpSize * bound {
        assert WarpOk(w);
        forall i | 0 <= i < warpSize ensures threads[w][i].steps <= bound {
          if i < present[w] {
            AloneWithin(kernel, guards(w), i, threads[w][i].steps, bound);
          }
        }
        TotalStepsBounded(threads[w], bound);
      }
      BlockStepsBounded(threads, warpSize * bound);
    }
  }

  ghost function Limit(warps: nat, warpSize: nat, bound: nat): nat { warps * (warpSize * bound) }

  ghost predicate AnyLive(live: seq<nat>, n: nat)
    requires n <= |live|
  {
    exists v :: 0 <= v < n && live[v] > 0
  }

  ghost predicate AnyMayRun(live: seq<nat>, flags: seq<bool>, n: nat)
    requires n <= |live| == |flags|
  {
    exists v :: 0 <= v < n && live[v] > 0 && !flags[v]
  }

  lemma {:induction false} AnyAfterUpdate(live: seq<nat>, flags: seq<bool>, w: nat, l: nat, f: bool)
    requires w < |live| == |flags|
    ensures AnyLive(live[w := l], w + 1) <==> AnyLive(live, w) || l > 0
    ensures AnyMayRun(live[w := l], flags[w := f], w + 1) <==> AnyMayRun(live, flags, w) || (l > 0 && !f)
  {
    var live', flags' := live[w := l], flags[w := f];
    assert forall v :: 0 <= v < w ==> live'[v] == live[v] && flags'[v] == flags[v];
    assert live'[w] == l && flags'[w] == f;
    if v :| 0 <= v < w && live[v] > 0 {
      assert live'[v] > 0;
    }
    if v :| 0 <= v < w && live[v] > 0 && !flags[v] {
      assert live'[v] > 0 && !flags'[v];
    }
  }

  ghost function BlockSteps(threads: seq<seq<Thread>>): nat {
    if threads == [] then 0 else BlockSteps(ButLast(threads)) + TotalSteps(Last(threads))
  }

  lemma {:induction false} BlockStepsUpdate(threads: seq<seq<Thread>>, w: nat, ts: seq<Thread>)
    requires w < |threads|
    ensures BlockSteps(threads[w := ts]) == BlockSteps(threads) - TotalSteps(threads[w]) + TotalSteps(ts)
  {
    var after := threads[w := ts];
    if w < |threads| - 1 {
      BlockStepsUpdate(ButLast(threads), w, ts);
      assert ButLast(after) == ButLast(threads)[w := ts];
    } else {
      assert ButLast(after) == ButLast(threads);
    }
  }

  lemma {:induction false} BlockStepsBounded(threads: seq<seq<Thread>>, bound: nat)
    requires forall w :: 0 <= w < |threads| ==> TotalSteps(threads[w]) <= bound
    ensures BlockSteps(threads) <= |threads| * bound
  {
    if threads != [] {
      BlockStepsBounded(ButLast(threads), bound);
      var n := |threads| - 1;
      assert (n + 1) * bound == n * bound + bound;
    }
  }

  /** A thread that has executed `n` instructions has not executed more than it
      needs by itself. */
  lemma {:induction false} AloneWithin(k: Kernel, guards: Guards, i: nat, n: nat, bound: nat)
    requires WellFormed(k) && Alone(k, guards, i, n).steps == n && Alone(k, guards, i, bound).done
    ensures n <= bound
  {
    if n > bound {
      DoneStaysDone(k, guards, i, bound, n);
      AloneStepsBounded(k, guards, i, bound);
    }
  }

  lemma {:induction false} FinishedAsAlone(k: Kernel, guards: Guards, i: nat, n: nat, bound: nat)
    requires WellFormed(k) && Alone(k, guards, i, n).steps == n
    requires Alone(k, guards, i, n).done && Alone(k, guards, i, bound).done
    ensures Alone(k, guards, i, n) == Alone(k, guards, i, bound)
  {
    if n <= bound {
      DoneStaysDone(k, guards, i, n, bound);
    } else {
      DoneStaysDone(k, guards, i, bound, n);
    }
  }

  lemma LastWarpIsUsed(count: nat, warpSize: nat, w: nat)
    requires 0 < warpSize && w < (count + warpSize - 1) / warpSize
    ensures w * warpSize < count
  {
    var n := (count + warpSize - 1) / warpSize;
    ShareFits(count + warpSize - 1, warpSize);
    ProductGrows(w + 1, n, warpSize);
  }

  /** Threads of one warp at launch: `present` of them or a full warp. */
  method CreateWarp(k: Kernel, ghost ipdom: seq<int>, guards: Guards, warpSize: nat, present: nat)
    returns (stack: SimtStack, ts: seq<Thread>, live: nat)
    requires WellFormed(k) && IsIpdomTable(k, ipdom) && 0 < warpSize && 0 < present
    ensures fresh(stack) && stack.warpSize == warpSize == |ts| && live > 0
    ensures WarpSound(k, ipdom, guards, Warp(stack.stack, ts), 0, live, present)
  {
    hide WellFormed, WarpSound, LiveCount;
    LiveCountAppend([], Thread(NoPc, true, 0));
    ts, live := [], 0;
    var initial: set<nat> := {};
    var i := 0;
    while i < warpSize
      invariant i <= warpSize && |ts| == i && live == LiveCount(ts)
      invariant forall j :: 0 <= j < i ==> ts[j] == Thread(if j < present then Code(0, 0) else NoPc, j >= present, 0)
      invariant forall j: nat :: j in initial <==> j < i && j < present
      invariant i > 0 ==> live > 0
    {
      if i < present {
        LiveCountAppend(ts, Thread(Code(0, 0), false, 0));
        ts := ts + [Thread(Code(0, 0), false, 0)];
        initial := initial + {i};
        live := live + 1;
      } else {
        LiveCountAppend(ts, Thread(NoPc, true, 0));
        ts := ts + [Thread(NoPc, true, 0)];
      }
      i := i + 1;
    }
    stack := new SimtStack(warpSize);
    stack.Launch(ts[0].pc, initial);
    IsLaunchWarp(Warp(stack.stack, ts), present);
    hide LaunchWarp;
    LaunchedWarp(k, ipdom, guards, Warp(stack.stack, ts), live, present);
  }

  lemma {:induction false} IsLaunchWarp(w: Warp, present: nat)
    requires forall j :: 0 <= j < |w.threads| ==>
               w.threads[j] == Thread(if j < present then Code(0, 0) else NoPc, j >= present, 0)
    requires |w.stack| == 1 && w.stack[0] == Entry(Code(0, 0), w.stack[0].mask, NoPc, Normal)
    requires forall j: nat :: j in w.stack[0].mask <==> j < |w.threads| && j < present
    ensures w == LaunchWarp(|w.threads|, present)
  {
    var n := |w.threads|;
    assert w.stack[0].mask == Below(if present < n then present else n);
    assert w.threads == LaunchWarp(n, present).threads;
  }

  lemma {:induction false} LaunchedWarp(k: Kernel, ipdom: seq<int>, guards: Guards, w: Warp, live: nat, present: nat)
    requires WellFormed(k) && IsIpdomTable(k, ipdom) && w.threads != [] && 0 < present && live == LiveCount(w.threads)
    requires w == LaunchWarp(|w.threads|, present)
    ensures WarpSound(k, ipdom, guards, w, 0, live, present)
  {
    assert !w.threads[0].done;
    assert w.stack[0].mask == set j: nat | j < |w.threads| && !w.threads[j].done;
    hide WellFormed, IsIpdomTable, Sound, Reached;
    LaunchIsSound(k, w);
    ReachedAtLaunch(k, ipdom, guards, w);
  }

  lemma {:induction false} StepKeepsRunAlone(k: Kernel, guards: Guards, w: Warp, present: nat)
    requires WellFormed(k) && CanStep(k, w) && RunAlone(k, guards, w.threads, present)
    ensures RunAlone(k, guards, Executed(k, guards, w), present)
  {
    var ts := Executed(k, guards, w);
    forall i: nat | i < |ts|
      ensures if i >= present then ts[i].done && ts[i].steps == 0 else ts[i] == Alone(k, guards, i, ts[i].steps)
    {
      if i >= present {
        assert i in Last(w.stack).mask ==> InSync(w, i);
      } else {
        LaneAdvances(k, guards, w, i, w.threads[i].steps);
      }
    }
  }

  /** What one turn of a sound warp needs and leaves. */
  lemma {:induction false} SoundStep(k: Kernel, ipdom: seq<int>, guards: Guards, w: Warp, dead: nat, live: nat,
                                     present: nat) returns (dead': nat)
    requires WellFormed(k) && IsIpdomTable(k, ipdom) && WarpSound(k, ipdom, guards, w, dead, live, present) && live > 0
    requires CanStep(k, w) ==> LeavesNoOne(k, ipdom, guards, w)
    ensures CanStep(k, w) && Last(w.stack).kind.Normal? && live == LiveCount(w.threads)
    ensures var ts := Executed(k, guards, w);
            && WarpSound(k, ipdom, guards, Step(k, ipdom, guards, w), dead', LiveCount(ts), present)
            && forall i :: 0 <= i < |ts| && !ts[i].done ==> ts[i].pc != NoPc
  {
    LiveCountPositive(w.threads);
    dead' := StepKeepsSound(k, ipdom, guards, w, dead);
    ReachedOneMore(k, ipdom, guards, LaunchWarp(|w.threads|, present), w);
    StepKeepsRunAlone(k, guards, w, present);
    LivePcsAreCode(k, guards, Executed(k, guards, w), present);
  }

  lemma {:induction false} LivePcsAreCode(k: Kernel, guards: Guards, ts: seq<Thread>, present: nat)
    requires WellFormed(k) && RunAlone(k, guards, ts, present)
    ensures forall i :: 0 <= i < |ts| && !ts[i].done ==> ValidPc(k, ts[i].pc)
  {
    forall i | 0 <= i < |ts| && !ts[i].done ensures ValidPc(k, ts[i].pc) {
      assert ProperThread(k, Alone(k, guards, i, ts[i].steps));
    }
  }
}

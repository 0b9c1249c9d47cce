/** From the loader to the end of a thread block: the passes over the control-flow
    graph produce the reconvergence points with which the block is then run. */
module KernelRuns {
  import opened ControlFlow
  import opened Helpers
  import opened Kernels
  import opened LockstepExact
  import opened FunctionalCores
  import opened Assembly

  /** Lane `i` of warp `w` holds one of `count` threads. */
  predicate HoldsThread(count: nat, warpSize: nat, w: nat, i: nat) {
    i < warpSize && i < count - w * warpSize
  }

  ghost predicate AllFinishAlone(k: Kernel, guards: BlockGuards, warpSize: nat, count: nat, bound: nat)
    requires WellFormed(k)
  {
    forall w: nat, i: nat :: HoldsThread(count, warpSize, w, i) ==> Alone(k, guards(w), i, bound).done
  }

  /** With the reconvergence points of the analysis no warp leaves lanes behind. */
  ghost predicate AllReconverge(k: Kernel, guards: BlockGuards, warpSize: nat, count: nat)
    requires WellFormed(k)
  {
    forall ipdom, w: nat :: IsIpdomTable(k, ipdom) && HoldsThread(count, warpSize, w, 0) ==>
      LaunchReconverges(k, ipdom, guards(w), warpSize, count - w * warpSize)
  }

  /** Lane `i` of warp `w` is done, and in exactly the state it comes to by itself. */
  ghost predicate EndsAsAlone(k: Kernel, guards: BlockGuards, threads: seq<seq<Thread>>, bound: nat, w: nat, i: nat)
    requires WellFormed(k)
  {
    && w < |threads| && i < |threads[w]| && threads[w][i].done
    && threads[w][i] == Alone(k, guards(w), i, bound)
  }

  /** Loads a kernel and runs a block of it.  The kernel is turned down exactly if
      an edge enters its entry block; otherwise every thread ends as it would by
      itself. */
  method RunBlock(k: Kernel, guards: BlockGuards, warpSize: nat, count: nat, ghost bound: nat)
    returns (core: FunctionalCore?)
    requires SaneBlocks(k) && AllReach(SuccessorGraph(k), Exit(k)) && 0 < warpSize
    requires WellFormed(k) ==>
               AllReconverge(k, guards, warpSize, count) && AllFinishAlone(k, guards, warpSize, count, bound)
    ensures core == null <==> EntersEntry(FirstGraph(k)) || EntersEntry(SuccessorGraph(k))
    ensures core != null ==>
              && WellFormed(k) && core.Valid() && |core.threads| == (count + warpSize - 1) / warpSize
              && forall t: nat :: t < count ==> EndsAsAlone(k, guards, core.threads, bound, t / warpSize, t % warpSize)
  {
    core := null;
    var f, entryOk, exitOk := AnalyseKernel(k);
    if entryOk {
      assert exitOk;
      AcceptedIsWellFormed(k);
      core := RunAnalysed(k, f.immediatePostdominator, guards, warpSize, count, bound);
      hide WellFormed, AllReach, AllReconverge, AllFinishAlone, EndsAsAlone;
      forall t: nat | t < count ensures EndsAsAlone(k, guards, core.threads, bound, t / warpSize, t % warpSize) {
        ThreadIsHeld(count, warpSize, t);
      }
    }
  }

  /** Thread `t` of a block is lane `t % warpSize` of warp `t / warpSize`. */
  lemma {:induction false} ThreadIsHeld(count: nat, warpSize: nat, t: nat)
    requires 0 < warpSize && t < count
    ensures t / warpSize < (count + warpSize - 1) / warpSize
    ensures HoldsThread(count, warpSize, t / warpSize, t % warpSize)
  {
    var w, n := t / warpSize, (count + warpSize - 1) / warpSize;
    assert t == w * warpSize + t % warpSize;
    assert count + warpSize - 1 == n * warpSize + (count + warpSize - 1) % warpSize;
    if n <= w {
      ProductGrows(n, w, warpSize);
    }
  }

  method RunAnalysed(k: Kernel, ipdom: seq<int>, guards: BlockGuards, warpSize: nat, count: nat, ghost bound: nat)
    returns (core: FunctionalCore)
    requires WellFormed(k) && IsIpdomTable(k, ipdom) && 0 < warpSize
    requires AllReconverge(k, guards, warpSize, count) && AllFinishAlone(k, guards, warpSize, count, bound)
    ensures core.Valid() && |core.threads| == (count + warpSize - 1) / warpSize
    ensures forall w: nat, i: nat :: w < |core.threads| && HoldsThread(count, warpSize, w, i) ==>
              EndsAsAlone(k, guards, core.threads, bound, w, i)
  {
    hide WellFormed, IsIpdomTable, WarpSound, LaunchReconverges, Alone, AllReconverge, AllFinishAlone;
    core := new FunctionalCore(k, ipdom, guards, warpSize, count);
    forall w | 0 <= w < |core.stacks| ensures LaunchReconverges(k, ipdom, guards(w), warpSize, core.present[w]) {
      OneReconverges(k, ipdom, guards, warpSize, count, w, core.present[w]);
    }
    assert core.BlockReconverges();
    forall w, i: nat | 0 <= w < |core.stacks| && i < warpSize && i < core.present[w]
      ensures Alone(k, guards(w), i, bound).done
    {
      OneFinishes(k, guards, warpSize, count, bound, w, i);
    }
    assert core.FinishAlone(bound);
    assert |core.stacks| > 0 ==> core.MayRun(0);
    core.Execute(bound);
  }

  lemma {:induction false} OneReconverges(k: Kernel, ipdom: seq<int>, guards: BlockGuards, warpSize: nat, count: nat,
                                          w: nat, present: nat)
    requires WellFormed(k) && IsIpdomTable(k, ipdom) && AllReconverge(k, guards, warpSize, count)
    requires 0 < warpSize && 0 < present == count - w * warpSize
    ensures LaunchReconverges(k, ipdom, guards(w), warpSize, present)
  {
    hide LaunchReconverges, WellFormed, IsIpdomTable;
    assert HoldsThread(count, warpSize, w, 0);
  }

  lemma {:induction false} OneFinishes(k: Kernel, guards: BlockGuards, warpSize: nat, count: nat, bound: nat,
                                       w: nat, i: nat)
    requires WellFormed(k) && AllFinishAlone(k, guards, warpSize, count, bound)
    requires i < warpSize && i < count - w * warpSize
    ensures Alone(k, guards(w), i, bound).done
  {
    hide WellFormed, Alone;
    assert HoldsThread(count, warpSize, w, i);
  }

  /** Kernels without predicated breaks need no such condition. */
  lemma {:induction false} PlainBreaksAllReconverge(k: Kernel, guards: BlockGuards, warpSize: nat, count: nat)
    requires WellFormed(k) && NoPredicatedBreak(k)
    ensures AllReconverge(k, guards, warpSize, count)
  {
    hide WellFormed, IsIpdomTable, NoPredicatedBreak, Reconverges;
    forall ipdom, w: nat | IsIpdomTable(k, ipdom) && HoldsThread(count, warpSize, w, 0)
      ensures LaunchReconverges(k, ipdom, guards(w), warpSize, count - w * warpSize)
    {
      PlainBreaksReconverge(k, ipdom, guards(w), LaunchWarp(warpSize, count - w * warpSize));
    }
  }
}

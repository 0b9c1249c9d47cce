/** The analysis run when a kernel is loaded, and what the execution model may
    rely on afterwards. */
module Assembly {
  import opened Dominance
  import opened ControlFlow
  import opened Helpers
  import opened SimtStacks
  import opened Kernels

  function Terminators(k: Kernel): seq<Terminator> {
    seq(|k.blocks|, b requires 0 <= b < |k.blocks| => k.blocks[b].end)
  }

  /** The graph with breaks still linked to the next block (before any round) or
      to their targets. */
  ghost predicate LinkedAs(k: Kernel, succ: Graph, broken: bool) {
    && |succ| == Exit(k) + 1 && succ[Exit(k)] == {}
    && forall b :: 0 <= b < Exit(k) ==>
         succ[b] == Successors(k.blocks[b].end, Exit(k), if broken then BreakTarget(k, b) else None)
  }

  /** The graph as first linked, breaks leading to the next block. */
  function FirstGraph(k: Kernel): Graph {
    seq(Exit(k) + 1, b requires 0 <= b <= Exit(k) =>
      if b == Exit(k) then {} else Successors(k.blocks[b].end, Exit(k), None))
  }

  ghost predicate EntersEntry(g: Graph) {
    exists b :: 0 <= b < |g| && 0 in g[b]
  }

  /** Links the blocks, finds dominators and rewires breaks until nothing changes,
      then finds post-dominators.  The results say whether the assertions that end
      the two immediate passes held, in every round. */
  method AnalyseKernel(k: Kernel) returns (f: FunctionInfo, entryOk: bool, exitOk: bool)
    requires SaneBlocks(k)
    ensures f.Valid() && f.successors == SuccessorGraph(k)
    ensures CleanedDominators(f.predecessors, f.dominators)
    ensures ExactDominators(f.successors, Exit(k), f.postdominators)
    ensures entryOk <==> !EntersEntry(FirstGraph(k)) && !EntersEntry(SuccessorGraph(k))
    ensures exitOk <==> forall b: nat :: b < Exit(k) ==> Settles(SuccessorGraph(k), Exit(k), b)
    ensures AllReach(SuccessorGraph(k), Exit(k)) ==> exitOk && IsIpdomTable(k, f.immediatePostdominator)
  {
    hide Settles, CleanedDominators, ExactDominators, Inverse, IsImmediate, EntersEntry, LinkedAs, AllReach;
    SaneTerminators(k);
    f := new FunctionInfo(Terminators(k));
    f.ConnectBasicBlocks();
    FirstLinked(k, f.successors);
    entryOk := true;
    var modified := true;
    ghost var linked := false;
    while modified
      invariant fresh(f) && f.Valid() && f.terminators == Terminators(k)
      invariant LinkedAs(k, f.successors, linked)
      invariant !modified ==> linked && CleanedDominators(f.predecessors, f.dominators)
      invariant !modified ==> (entryOk <==> !EntersEntry(FirstGraph(k)) && !EntersEntry(SuccessorGraph(k)))
      invariant modified && linked ==> (entryOk <==> !EntersEntry(FirstGraph(k)))
      invariant !linked ==> entryOk && modified
      decreases !linked, modified
    {
      f.FindDominators();
      var ok := f.FindIdominators();
      entryOk := entryOk && ok;
      EntryPredecessors(f.successors, f.predecessors);
      GraphWhenLinked(k, f.successors, linked);
      ghost var before, preds := f.successors, f.predecessors;
      modified := f.ConnectBreakTargets(k.breakTargets);
      BreaksLinked(k, before, linked, f.successors);
      GraphWhenLinked(k, f.successors, true);
      if before == f.successors {
        SamePredecessors(f.successors, preds, f.predecessors);
      }
      linked := true;
    }
    GraphWhenLinked(k, f.successors, true);
    f.FindPostdominators();
    exitOk := f.FindIpostdominators();
    TableWhenAllReach(k, f.successors, f.immediatePostdominator);
  }

  lemma {:induction false} SaneTerminators(k: Kernel)
    requires SaneBlocks(k)
    ensures 0 < |Terminators(k)| == Exit(k)
    ensures forall b :: 0 <= b < Exit(k) ==> InRange(Terminators(k)[b], Exit(k))
    ensures forall b :: 0 <= b < Exit(k) && Terminators(k)[b].Break? ==>
              b in k.breakTargets && k.breakTargets[b] < Exit(k)
  {
    forall b | 0 <= b < Exit(k)
      ensures InRange(Terminators(k)[b], Exit(k))
      ensures Terminators(k)[b].Break? ==> b in k.breakTargets && k.breakTargets[b] < Exit(k)
    {
      assert WellFormedBlock(k, b);
    }
  }

  lemma {:induction false} FirstLinked(k: Kernel, succ: Graph)
    requires |succ| == Exit(k) + 1 && succ[Exit(k)] == {}
    requires forall b :: 0 <= b < Exit(k) ==> succ[b] == Successors(Terminators(k)[b], Exit(k), None)
    ensures LinkedAs(k, succ, false)
  {
    forall b | 0 <= b < Exit(k) ensures Terminators(k)[b] == k.blocks[b].end {
    }
  }

  lemma {:induction false} GraphWhenLinked(k: Kernel, succ: Graph, broken: bool)
    requires SaneBlocks(k) && LinkedAs(k, succ, broken)
    ensures succ == if broken then SuccessorGraph(k) else FirstGraph(k)
  {
    var g := if broken then SuccessorGraph(k) else FirstGraph(k);
    forall b | 0 <= b < |g| ensures succ[b] == g[b] {
    }
  }

  lemma {:induction false} TableWhenAllReach(k: Kernel, succ: Graph, ipdom: seq<int>)
    requires succ == SuccessorGraph(k) && |ipdom| == Exit(k) + 1
    requires forall b: nat :: b < Exit(k) && Reaches(succ, Exit(k), b) ==>
               0 <= ipdom[b] && IsImmediate(succ, Exit(k), ipdom[b], b)
    ensures AllReach(succ, Exit(k)) ==> IsIpdomTable(k, ipdom)
  {
  }

  /** What the loader has accepted is what the execution model asks for. */
  lemma {:induction false} AcceptedIsWellFormed(k: Kernel)
    requires SaneBlocks(k) && !EntersEntry(SuccessorGraph(k)) && AllReach(SuccessorGraph(k), Exit(k))
    ensures WellFormed(k)
  {
    forall b | 0 <= b < Exit(k) ensures 0 !in SuccessorGraph(k)[b] {
    }
  }

  lemma {:induction false} BreaksLinked(k: Kernel, before: Graph, linked: bool, after: Graph)
    requires SaneBlocks(k) && LinkedAs(k, before, linked) && |after| == |before|
    requires forall b :: 0 <= b < Exit(k) && k.blocks[b].end.Break? ==>
               b in k.breakTargets && after[b] == Successors(k.blocks[b].end, Exit(k), Some(k.breakTargets[b]))
    requires forall b :: 0 <= b <= Exit(k) && !(b < Exit(k) && k.blocks[b].end.Break?) ==> after[b] == before[b]
    ensures LinkedAs(k, after, true) && (linked ==> after == before)
  {
    forall b | 0 <= b < Exit(k)
      ensures after[b] == Successors(k.blocks[b].end, Exit(k), BreakTarget(k, b))
    {
      assert WellFormedBlock(k, b);
    }
  }

  /** The predecessor column is determined by the successor column. */
  lemma {:induction false} SamePredecessors(succ: Graph, pred: Graph, pred': Graph)
    requires Inverse(succ, pred) && Inverse(succ, pred')
    ensures pred == pred'
  {
    forall b | 0 <= b < |pred| ensures pred[b] == pred'[b] {
      forall a: nat ensures a in pred[b] <==> a in pred'[b] {
        if a < |succ| {
          assert a in pred[b] <==> b in succ[a];
        }
      }
    }
  }

  lemma {:induction false} EntryPredecessors(succ: Graph, pred: Graph)
    requires Inverse(succ, pred) && 0 < |succ|
    ensures pred[0] == {} <==> !EntersEntry(succ)
  {
    if a :| a in pred[0] {
      assert 0 in succ[a];
    }
  }
}

/** Control-flow graph construction and the dominator passes of one function.

    The table of basic blocks is kept as one field per column; block ids are
    positions, block 0 is the entry and the last block is the exit block, which
    holds no instruction. */
module ControlFlow {
  import opened Dominance
  import opened DominatorSets
  import opened Helpers

  /** The instruction that ends a block, with its label already resolved to a
      block.  `next` is the block of the instruction that follows.  For a
      predicated return or exit, `after` is the block found at the looked-up
      slot, `None` if the slot is empty. */
  datatype Terminator =
    | FallThrough(next: nat)
    | Branch(target: nat, predicated: bool, next: nat)
    | Return(predicated: bool, after: Option<nat>)
    | Break(predicated: bool, next: nat)

  /** The successors of a block ended by `t`; `target` is the target of a break
      once it is known. */
  function Successors(t: Terminator, exit: nat, target: Option<nat>): set<nat> {
    match t
    case FallThrough(next) => {next}
    case Branch(dest, predicated, next) => if predicated then {dest, next} else {dest}
    case Return(predicated, after) => if predicated && after.Some? then {exit, after.value} else {exit}
    case Break(predicated, next) =>
      if target.None? then {next} else if predicated then {target.value, next} else {target.value}
  }

  predicate InRange(t: Terminator, exit: nat) {
    match t
    case FallThrough(next) => next < exit
    case Branch(dest, predicated, next) => dest < exit && (predicated ==> next < exit)
    case Return(_, after) => after.Some? ==> after.value < exit
    case Break(_, next) => next < exit
  }

  /** `pred` lists exactly the edges of `succ`, backwards. */
  ghost predicate Inverse(succ: Graph, pred: Graph) {
    && |succ| == |pred|
    && ClosedGraph(succ) && ClosedGraph(pred)
    && forall a: nat, b: nat {:trigger b in succ[a]} {:trigger a in pred[b]} ::
         a < |succ| && b < |succ| ==> (b in succ[a] <==> a in pred[b])
  }

  /** What the cleaned dominator sets hold: nothing for a block other than the
      entry that has no predecessor, and the path-based dominators elsewhere. */
  ghost predicate CleanedDominators(pred: Graph, sol: seq<set<nat>>) {
    && |sol| == |pred|
    && forall b: nat, d: nat {:trigger d in sol[b]} {:trigger Dominates(pred, 0, d, b)} ::
         b < |pred| ==> (d in sol[b] <==> (b == 0 || pred[b] != {}) && Dominates(pred, 0, d, b))
  }

  ghost predicate AllReach(g: Graph, root: nat) {
    forall b: nat :: b < |g| ==> Reaches(g, root, b)
  }

  class FunctionInfo {
    const terminators: seq<Terminator>
    var successors: seq<set<nat>>
    var predecessors: seq<set<nat>>
    var dominators: seq<set<nat>>
    var postdominators: seq<set<nat>>
    var tmp: seq<set<nat>>
    var immediateDominator: seq<int>
    var immediatePostdominator: seq<int>

    ghost predicate Shape()
      reads this
    {
      && 0 < |terminators|
      && (forall b :: 0 <= b < |terminators| ==> InRange(terminators[b], |terminators|))
      && |successors| == |predecessors| == |dominators| == |postdominators| == |tmp| == Size()
      && |immediateDominator| == |immediatePostdominator| == Size()
      && Inverse(successors, predecessors)
    }

    ghost predicate Valid()
      reads this
    {
      && Shape()
      && successors[Exit()] == {}
      && dominators[0] <= {0} && postdominators[Exit()] <= {Exit()}
      && forall b: nat, d: nat :: b < Size() && (d in dominators[b] || d in postdominators[b]) ==> d < Size()
    }

    function Exit(): nat { |terminators| }

    function Size(): nat { |terminators| + 1 }

    constructor (terminators: seq<Terminator>)
      requires 0 < |terminators|
      requires forall b :: 0 <= b < |terminators| ==> InRange(terminators[b], |terminators|)
      ensures Valid() && this.terminators == terminators
      ensures forall b :: 0 <= b < Size() ==> successors[b] == {}
    {
      this.terminators := terminators;
      var empty := seq(|terminators| + 1, _ => {});
      successors, predecessors := empty, empty;
      dominators, postdominators, tmp := empty, empty, empty;
      immediateDominator := seq(|terminators| + 1, _ => -1);
      immediatePostdominator := seq(|terminators| + 1, _ => -1);
    }

    /** Adds the edge from `a` to `b` to both columns. */
    method Link(a: nat, b: nat)
      requires Shape() && a < Size() && b < Size()
      modifies this`successors, this`predecessors
      ensures Shape()
      ensures successors == old(successors)[a := old(successors)[a] + {b}]
    {
      successors := successors[a := successors[a] + {b}];
      predecessors := predecessors[b := predecessors[b] + {a}];
    }

    /** Removes every edge out of `a` from both columns. */
    method Unlink(a: nat)
      requires Shape() && a < Size()
      modifies this`successors, this`predecessors
      ensures Shape()
      ensures successors == old(successors)[a := {}]
    {
      var todo := successors[a];
      while todo != {}
        invariant successors == old(successors) && todo <= successors[a]
        invariant |predecessors| == Size() && ClosedGraph(predecessors)
        invariant forall x: nat, b: nat {:trigger x in predecessors[b]} :: x < Size() && b < Size() ==>
                    (x in predecessors[b] <==> b in successors[x] && (x != a || b in todo))
        decreases todo
      {
        var s :| s in todo;
        predecessors := predecessors[s := predecessors[s] - {a}];
        todo := todo - {s};
      }
      successors := successors[a := {}];
    }

    method ConnectBasicBlocks()
      requires Valid() && forall b :: 0 <= b < Size() ==> successors[b] == {}
      modifies this`successors, this`predecessors
      ensures Valid()
      ensures forall b :: 0 <= b < Exit() ==> successors[b] == Successors(terminators[b], Exit(), None)
    {
      var b := 0;
      while b < Exit()
        invariant b <= Exit() && Shape()
        invariant forall c :: 0 <= c < b ==> successors[c] == Successors(terminators[c], Exit(), None)
        invariant forall c :: b <= c < Size() ==> successors[c] == {}
      {
        match terminators[b] {
          case Return(predicated, after) =>
            Link(b, Exit());
            if predicated && after.Some? {
              Link(b, after.value);
            }
          case Branch(target, predicated, next) =>
            Link(b, target);
            if predicated {
              Link(b, next);
            }
          case FallThrough(next) =>
            Link(b, next);
          case Break(_, next) =>
            Link(b, next);
        }
        b := b + 1;
      }
    }

    /** Rewires one break; the result says whether its successors changed. */
    method Relink(b: nat, target: nat) returns (changed: bool)
      requires Shape() && b < Exit() && terminators[b].Break? && target < Exit()
      modifies this`successors, this`predecessors
      ensures Shape()
      ensures successors == old(successors)[b := Successors(terminators[b], Exit(), Some(target))]
      ensures changed <==> successors[b] != old(successors)[b]
    {
      hide Inverse;
      var original := successors[b];
      Unlink(b);
      Link(b, target);
      if terminators[b].predicated {
        Link(b, terminators[b].next);
      }
      assert successors[b] == Successors(terminators[b], Exit(), Some(target));
      changed := original != successors[b];
    }

    /** Rewires every break to the target found for it in this round. */
    method ConnectBreakTargets(targets: map<nat, nat>) returns (modified: bool)
      requires Valid()
      requires forall b :: 0 <= b < Exit() && terminators[b].Break? ==> b in targets && targets[b] < Exit()
      modifies this`successors, this`predecessors
      ensures Valid()
      ensures forall b :: 0 <= b < Exit() && terminators[b].Break? ==>
                successors[b] == Successors(terminators[b], Exit(), Some(targets[b]))
      ensures forall b :: 0 <= b < Size() && !(b < Exit() && terminators[b].Break?) ==>
                successors[b] == old(successors)[b]
      ensures modified <==> successors != old(successors)
    {
      modified := false;
      var b := 0;
      while b < Exit()
        invariant b <= Exit() && Shape()
        invariant forall c :: 0 <= c < b && terminators[c].Break? ==>
                    successors[c] == Successors(terminators[c], Exit(), Some(targets[c]))
        invariant forall c :: 0 <= c < Size() && !(c < b && terminators[c].Break?) ==>
                    successors[c] == old(successors)[c]
        invariant modified <==> exists c :: 0 <= c < b && successors[c] != old(successors)[c]
      {
        if terminators[b].Break? {
          var changed := Relink(b, targets[b]);
          modified := modified || changed;
        }
        b := b + 1;
      }
    }

    /** Dominators on the predecessor edges; afterwards the sets of blocks
        without predecessors are emptied, except the entry's. */
    method FindDominators()
      requires Valid()
      modifies this`dominators
      ensures Valid() && CleanedDominators(predecessors, dominators)
    {
      assert ClosedGraph(predecessors) by { InverseIsClosed(successors, predecessors); }
      var n := Size();
      dominators := StartUp(predecessors, dominators);
      dominators := IterateUp(predecessors, dominators);
      ghost var exact := dominators;
      var b := 1;
      while b < n
        invariant 1 <= b <= n == |dominators| && dominators[0] == exact[0]
        invariant forall c :: 1 <= c < n ==>
                    dominators[c] == if c < b && predecessors[c] == {} then {} else exact[c]
      {
        if predecessors[b] == {} {
          dominators := dominators[b := {}];
        }
        b := b + 1;
      }
    }

    /** Post-dominators on the successor edges. */
    method FindPostdominators()
      requires Valid()
      modifies this`postdominators
      ensures Valid() && ExactDominators(successors, Exit(), postdominators)
    {
      assert ClosedGraph(successors) by { InverseIsClosed(successors, predecessors); }
      postdominators := StartDown(successors, postdominators);
      postdominators := IterateDown(successors, postdominators);
    }

    /** Starts the candidate sets as all strict (post-)dominators. */
    method StartCandidates(sol: seq<set<nat>>)
      requires |tmp| == |sol| == Size()
      modifies this`tmp
      ensures |tmp| == Size() && forall c :: 0 <= c < Size() ==> tmp[c] == sol[c] - {c}
    {
      var b := 0;
      while b < Size()
        invariant b <= Size() == |tmp|
        invariant forall c :: 0 <= c < b ==> tmp[c] == sol[c] - {c}
      {
        tmp := tmp[b := sol[b] - {b}];
        b := b + 1;
      }
    }

    method ReduceDown(n: nat)
      requires n == Size() == |tmp| == |postdominators| && ClosedGraph(successors) && |successors| == n
      requires ExactDominators(successors, n - 1, postdominators)
      requires forall b: nat, d: nat :: b < n && d in postdominators[b] ==> d < n
      requires forall c :: 0 <= c < n ==> tmp[c] == postdominators[c] - {c}
      modifies this`tmp
      ensures |tmp| == n && tmp[n - 1] == postdominators[n - 1] - {n - 1}
      ensures forall c: nat :: c < Exit() ==> IsLeft(successors, Exit(), tmp[c], c)
    {
      hide ExactDominators, Reaches, IsLeft;
      var h := n - 2;
      while h >= 0
        invariant -1 <= h <= n - 2 && |tmp| == n
        invariant forall c :: 0 <= c <= h || c == n - 1 ==> tmp[c] == postdominators[c] - {c}
        invariant forall c: nat :: h < c < Exit() ==> IsLeft(successors, Exit(), tmp[c], c)
      {
        var kept := KeepNearest(tmp[h], postdominators);
        ReducedIsLeft(successors, n - 1, postdominators, h, kept);
        tmp := tmp[h := kept];
        h := h - 1;
      }
    }

    /** Returns whether the closing assertions hold: no block is left with two
        candidates, and every block but one has an immediate post-dominator. */
    method FindIpostdominators() returns (ok: bool)
      requires Valid() && ExactDominators(successors, Exit(), postdominators)
      modifies this`tmp, this`immediatePostdominator
      ensures Valid()
      ensures forall b: nat :: b < Exit() && Reaches(successors, Exit(), b) ==>
                0 <= immediatePostdominator[b] && IsImmediate(successors, Exit(), immediatePostdominator[b], b)
      ensures ok <==> forall b: nat :: b < Exit() ==> Settles(successors, Exit(), b)
      ensures AllReach(successors, Exit()) ==> ok
    {
      RootSetIsSingleton(successors, Exit(), postdominators);
      hide ExactDominators, Reaches, IsImmediate, Inverse, InRange, Settles, SettleAbove, IsLeft, AllReach;
      var n := Size();
      StartCandidates(postdominators);
      ReduceDown(n);
      ghost var reduced := tmp;
      ok := true;
      var found := 0;
      var h := n - 1;
      while h >= 0
        invariant -1 <= h <= n - 1 && |immediatePostdominator| == n && tmp == reduced
        invariant forall c: nat :: h < c < n - 1 && Reaches(successors, n - 1, c) ==>
                    0 <= immediatePostdominator[c] && IsImmediate(successors, n - 1, immediatePostdominator[c], c)
        invariant ok <==> SettleAbove(successors, Exit(), h)
        invariant found == if h == n - 1 then 0 else n - 2 - h
      {
        assert if h < Exit() then IsLeft(successors, Exit(), reduced[h], h) else reduced[h] == {};
        if h < Exit() {
          LeftMeans(successors, Exit(), reduced[h], h);
        }
        SettleOneMore(successors, Exit(), h);
        ok := ok && |tmp[h]| <= 1;
        if tmp[h] != {} {
          var first := Smallest(tmp[h]);
          immediatePostdominator := immediatePostdominator[h := first];
          found := found + 1;
        }
        h := h - 1;
      }
      ok := ok && found == n - 1;
      AllSettle(successors, Exit(), h);
    }

    method ReduceUp(n: nat)
      requires n == Size() == |tmp| == |predecessors| == |dominators| && ClosedGraph(predecessors)
      requires CleanedDominators(predecessors, dominators)
      requires forall b: nat, d: nat :: b < n && d in dominators[b] ==> d < n
      requires forall c :: 0 <= c < n ==> tmp[c] == dominators[c] - {c}
      modifies this`tmp
      ensures |tmp| == n
      ensures forall c: nat :: 0 < c < n && Reaches(predecessors, 0, c) ==>
                IsSingletonImmediate(predecessors, 0, tmp[c], c)
      ensures forall c: nat :: c < n ==> (tmp[c] != {} <==> c != 0 && predecessors[c] != {})
    {
      var h := 0;
      while h < n
        invariant 0 <= h <= n == |tmp|
        invariant forall c :: h <= c < n ==> tmp[c] == dominators[c] - {c}
        invariant forall c: nat :: 0 < c < h && Reaches(predecessors, 0, c) ==>
                    IsSingletonImmediate(predecessors, 0, tmp[c], c)
        invariant forall c: nat :: c < h ==> (tmp[c] != {} <==> c != 0 && predecessors[c] != {})
      {
        CandidatesWhenLinked(predecessors, dominators, h);
        if h != 0 && Reaches(predecessors, 0, h) {
          CleanedSetHasNearest(predecessors, dominators, h);
        }
        var kept := KeepNearest(tmp[h], dominators);
        tmp := tmp[h := kept];
        h := h + 1;
      }
    }

    /** Returns whether the closing assertion holds: the blocks without an
        immediate dominator are exactly those without predecessors. */
    method FindIdominators() returns (ok: bool)
      requires Valid() && CleanedDominators(predecessors, dominators)
      modifies this`tmp, this`immediateDominator
      ensures Valid()
      ensures forall b: nat :: 0 < b < Size() && Reaches(predecessors, 0, b) ==>
                0 <= immediateDominator[b] && IsImmediate(predecessors, 0, immediateDominator[b], b)
      ensures ok <==> predecessors[0] == {}
    {
      hide CleanedDominators, Reaches, IsImmediate, Inverse, InRange;
      var n := Size();
      assert ClosedGraph(predecessors) by { InverseIsClosed(successors, predecessors); }
      StartCandidates(dominators);
      ReduceUp(n);
      ghost var reduced := tmp;
      var found, orphans := 0, 0;
      var h := 0;
      while h < n
        invariant 0 <= h <= n == |immediateDominator| && tmp == reduced
        invariant forall c: nat :: 0 < c < h && Reaches(predecessors, 0, c) ==>
                    0 <= immediateDominator[c] && IsImmediate(predecessors, 0, immediateDominator[c], c)
        invariant found + orphans == h - (if h > 0 && predecessors[0] != {} then 1 else 0)
      {
        if tmp[h] != {} {
          var first := Smallest(tmp[h]);
          immediateDominator := immediateDominator[h := first];
          found := found + 1;
        } else if predecessors[h] == {} {
          orphans := orphans + 1;
        }
        h := h + 1;
      }
      ok := found == n - orphans;
    }
  }

  lemma InverseIsClosed(succ: Graph, pred: Graph)
    requires Inverse(succ, pred)
    ensures ClosedGraph(succ) && ClosedGraph(pred)
  {
  }

  /** A block that reaches the exit settles on one candidate.  One that does not
      does so too if another block does not, or if some block is post-dominated
      by every block that reaches the exit. */
  ghost predicate Settles(g: Graph, root: nat, b: nat) {
    || Reaches(g, root, b)
    || (exists i: nat :: i < |g| && i != b && !Reaches(g, root, i))
    || (exists i: nat :: IsFirst(g, root, i))
  }

  ghost predicate IsFirst(g: Graph, root: nat, i: nat) {
    i < |g| && Reaches(g, root, i) && forall t: nat :: t < |g| && Reaches(g, root, t) ==> Dominates(g, root, t, i)
  }

  /** The candidates left for a block other than the exit. */
  ghost predicate IsLeft(g: Graph, root: nat, s: set<nat>, b: nat) {
    && s != {} && (|s| <= 1 <==> Settles(g, root, b))
    && (Reaches(g, root, b) ==> IsSingletonImmediate(g, root, s, b))
  }

  lemma {:induction false} LeftMeans(g: Graph, root: nat, s: set<nat>, b: nat)
    requires IsLeft(g, root, s, b)
    ensures s != {} && (|s| <= 1 <==> Settles(g, root, b))
    ensures forall x :: x in s && Reaches(g, root, b) ==> IsImmediate(g, root, x, b)
  {
  }

  ghost predicate SettleAbove(g: Graph, root: nat, h: int) {
    forall c: nat :: h < c < root ==> Settles(g, root, c)
  }

  lemma {:induction false} SettleOneMore(g: Graph, root: nat, h: nat)
    ensures h >= root ==> SettleAbove(g, root, h)
    ensures SettleAbove(g, root, h - 1) <==> SettleAbove(g, root, h) && (h < root ==> Settles(g, root, h))
  {
    hide Settles;
  }

  lemma {:induction false} AllSettle(g: Graph, root: nat, h: int)
    requires root + 1 == |g| && h < 0
    ensures SettleAbove(g, root, h) <==> forall b: nat :: b < root ==> Settles(g, root, b)
    ensures AllReach(g, root) ==> SettleAbove(g, root, h)
  {
  }

  lemma {:induction false} ReducedIsLeft(g: Graph, root: nat, sol: seq<set<nat>>, b: nat, r: set<nat>)
    requires ClosedGraph(g) && ExactDominators(g, root, sol) && root < |g| && b < |g| && b != root
    requires (forall c :: c in sol[b] ==> c < |sol|) && IsReduced(r, sol[b] - {b}, sol)
    ensures IsLeft(g, root, r, b)
  {
    assert root in sol[b] - {b} by {
      forall p | IsPath(g, root, p, b) ensures root in p {
        LastIsRoot(g, root, p, b);
      }
    }
    if Reaches(g, root, b) {
      ExactSetHasNearest(g, root, sol, b);
      var i: nat :| Nearest(sol[b] - {b}, sol, i) && IsImmediate(g, root, i, b);
      assert r == {i};
    } else {
      ExactIsTransitive(g, root, sol, sol[b] - {b});
      if other: nat :| other < |g| && other != b && !Reaches(g, root, other) {
        OneOfManyIsLeft(g, root, sol, b, r, other);
      } else {
        OnlyStrayIsLeftIff(g, root, sol, b, r);
      }
    }
  }

  lemma {:induction false} ExactIsTransitive(g: Graph, root: nat, sol: seq<set<nat>>, c: set<nat>)
    requires ExactDominators(g, root, sol) && forall s :: s in c ==> s < |sol|
    ensures Transitive(c, sol)
  {
    forall x, y, z | x in c && y in c && y in sol[x] && z in sol[y] ensures z in sol[x] {
      assert Dominates(g, root, y, x) && Dominates(g, root, z, y);
      DominanceIsTransitive(g, root, x, y, z);
    }
  }

  /** Every block dominates one that does not reach the root. */
  lemma {:induction false} StrayHasAll(g: Graph, root: nat, sol: seq<set<nat>>, b: nat)
    requires ExactDominators(g, root, sol) && b < |g| && !Reaches(g, root, b)
    ensures forall d: nat :: d < |g| ==> d in sol[b]
  {
    forall d: nat | d < |g| ensures d in sol[b] {
      assert Dominates(g, root, d, b);
    }
  }

  lemma {:induction false} OneOfManyIsLeft(g: Graph, root: nat, sol: seq<set<nat>>, b: nat, r: set<nat>, other: nat)
    requires ExactDominators(g, root, sol) && b < |g| && !Reaches(g, root, b)
    requires (forall c :: c in sol[b] ==> c < |sol|) && IsReduced(r, sol[b] - {b}, sol) && Transitive(sol[b] - {b}, sol)
    requires other < |g| && other != b && !Reaches(g, root, other)
    ensures |r| == 1
  {
    StrayHasAll(g, root, sol, b);
    var x := other;
    if other !in r {
      assert Covered(r, sol, other);
      x :| x in r && x < |sol| && other in sol[x];
      assert Dominates(g, root, other, x);
      if Reaches(g, root, x) {
        DominatorReaches(g, root, other, x);
      }
    }
    StrayHasAll(g, root, sol, x);
    assert r == {x};
  }

  lemma {:induction false} OnlyStrayIsLeftIff(g: Graph, root: nat, sol: seq<set<nat>>, b: nat, r: set<nat>)
    requires ExactDominators(g, root, sol) && b < |g| && !Reaches(g, root, b)
    requires forall i: nat :: i < |g| && i != b ==> Reaches(g, root, i)
    requires (forall c :: c in sol[b] ==> c < |sol|) && IsReduced(r, sol[b] - {b}, sol) && Transitive(sol[b] - {b}, sol)
    requires sol[b] - {b} != {}
    ensures |r| <= 1 <==> Settles(g, root, b)
  {
    StrayHasAll(g, root, sol, b);
    if i: nat :| IsFirst(g, root, i) {
      FirstIsNearest(g, root, sol, b, i);
      assert r == {i};
    }
    if |r| <= 1 {
      var x :| x in r;
      Singleton(r, x);
      forall t: nat | t < |g| && Reaches(g, root, t) ensures Dominates(g, root, t, x) {
        if t != x {
          assert Covered(r, sol, t);
          assert t in sol[x];
        } else {
          assert forall p :: IsPath(g, root, p, x) ==> p[0] in p;
        }
      }
      assert IsFirst(g, root, x);
    }
  }

  lemma {:induction false} FirstIsNearest(g: Graph, root: nat, sol: seq<set<nat>>, b: nat, i: nat)
    requires ExactDominators(g, root, sol) && b < |g| && !Reaches(g, root, b) && IsFirst(g, root, i)
    requires forall s: nat :: s < |g| && s != b ==> Reaches(g, root, s)
    requires forall d: nat :: d in sol[b] <==> d < |g|
    ensures Nearest(sol[b] - {b}, sol, i)
  {
    forall s | s in sol[b] - {b} && s != i ensures i !in sol[s] {
      if i in sol[s] {
        assert Reaches(g, root, s) && Dominates(g, root, i, s);
        var p :| IsPath(g, root, p, s);
        Antisymmetric(g, root, s, i, p);
      }
    }
  }

  lemma {:induction false} Singleton(r: set<nat>, x: nat)
    requires |r| <= 1 && x in r
    ensures r == {x}
  {
    SubsetIsSmaller({x}, r);
  }

  ghost predicate IsSingletonImmediate(g: Graph, root: nat, s: set<nat>, b: nat) {
    exists i: nat :: s == {i} && IsImmediate(g, root, i, b)
  }

  lemma {:induction false} RootSetIsSingleton(g: Graph, root: nat, sol: seq<set<nat>>)
    requires root < |g| && ExactDominators(g, root, sol)
    ensures sol[root] == {root}
  {
    forall d | d in sol[root] ensures d == root {
      RootHasNoStrictDominator(g, root, d);
    }
  }

  /** The strict dominators of a block that reaches the root have a nearest one,
      as soon as the sets of all of them are exact. */
  lemma {:induction false} StrictSetHasNearest(g: Graph, root: nat, sol: seq<set<nat>>, b: nat, c: set<nat>)
    requires root < |g| == |sol| && b < |g| && b != root && Reaches(g, root, b)
    requires forall d: nat :: d in c <==> StrictlyDominates(g, root, d, b)
    requires forall s: nat, d: nat :: s in c ==> s < |sol| && (d in sol[s] <==> Dominates(g, root, d, s))
    ensures exists i: nat :: Nearest(c, sol, i) && IsImmediate(g, root, i, b)
  {
    var i := ImmediateExists(g, root, b);
    forall s | s in c && s != i ensures i !in sol[s] {
      if i in sol[s] {
        StrictDominatorHasEdgeIn(g, root, s, b);
        var p :| IsPath(g, root, p, s);
        Antisymmetric(g, root, s, i, p);
      }
    }
    assert Nearest(c, sol, i);
  }

  lemma {:induction false} ExactSetHasNearest(g: Graph, root: nat, sol: seq<set<nat>>, b: nat)
    requires ClosedGraph(g) && ExactDominators(g, root, sol) && root < |g|
    requires b < |g| && b != root && Reaches(g, root, b)
    ensures exists i: nat :: Nearest(sol[b] - {b}, sol, i) && IsImmediate(g, root, i, b)
  {
    StrictSetHasNearest(g, root, sol, b, sol[b] - {b});
  }

  lemma {:induction false} ReachableHasNeighbour(g: Graph, root: nat, b: nat)
    requires Reaches(g, root, b) && b != root
    ensures b < |g| && g[b] != {}
  {
    var p :| IsPath(g, root, p, b);
  }

  lemma {:induction false} CleanedSetHasNearest(pred: Graph, sol: seq<set<nat>>, b: nat)
    requires ClosedGraph(pred) && CleanedDominators(pred, sol) && 0 < b < |pred| && Reaches(pred, 0, b)
    ensures exists i: nat :: Nearest(sol[b] - {b}, sol, i) && IsImmediate(pred, 0, i, b)
  {
    var c := sol[b] - {b};
    ReachableHasNeighbour(pred, 0, b);
    forall s: nat, d: nat | s in c ensures d in sol[s] <==> Dominates(pred, 0, d, s) {
      StrictDominatorHasEdgeIn(pred, 0, s, b);
      if s != 0 {
        ReachableHasNeighbour(pred, 0, s);
      }
    }
    StrictSetHasNearest(pred, 0, sol, b, c);
  }

  /** Outside the entry, a block has a strict-dominator candidate exactly when it
      has a predecessor. */
  lemma {:induction false} CandidatesWhenLinked(pred: Graph, sol: seq<set<nat>>, b: nat)
    requires ClosedGraph(pred) && CleanedDominators(pred, sol) && b < |pred|
    ensures sol[b] - {b} != {} <==> b != 0 && pred[b] != {}
  {
    if b == 0 {
      forall d | d in sol[0] - {0} ensures false {
        RootHasNoStrictDominator(pred, 0, d);
      }
    } else if pred[b] != {} {
      forall p | IsPath(pred, 0, p, b) ensures 0 in p {
        LastIsRoot(pred, 0, p, b);
      }
      assert 0 in sol[b] - {b};
    }
  }
}

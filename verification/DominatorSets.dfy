/** The set computations shared by the dominator and post-dominator passes:
    intersecting, comparing, one equation, and the reduction of a set of strict
    dominators to the immediate one. */
module DominatorSets {
  import opened Dominance
  import opened Helpers

  // ----- the set helpers

  /** Erases from `a` what is not in `b`. */
  method Intersect(a: set<nat>, b: set<nat>) returns (r: set<nat>)
    ensures r == a * b
  {
    r := a;
    var todo := a;
    while todo != {}
      invariant todo <= r <= a
      invariant forall x :: x in a ==> (x in r <==> x in todo || x in b)
      decreases todo
    {
      var x :| x in todo;
      if x !in b {
        r := r - {x};
      }
      todo := todo - {x};
    }
  }

  lemma {:induction false} SubsetOfSameSize(b: set<nat>, a: set<nat>)
    requires b <= a && |b| == |a|
    ensures b == a
  {
    assert a == (a - b) + b;
    assert |a| == |a - b| + |b|;
  }

  method IsEqual(a: set<nat>, b: set<nat>) returns (r: bool)
    ensures r <==> a == b
  {
    if |a| != |b| {
      return false;
    }
    var todo := b;
    while todo != {}
      invariant todo <= b && b - todo <= a
      decreases todo
    {
      var x :| x in todo;
      if x !in a {
        return false;
      }
      todo := todo - {x};
    }
    SubsetOfSameSize(b, a);
    return true;
  }

  /** The right-hand side of the equation for block `b`. */
  method MeetOver(g: Graph, sol: seq<set<nat>>, b: nat) returns (t: set<nat>)
    requires ClosedGraph(g) && |sol| == |g| && b < |g|
    ensures t == Meet(g, sol, b)
  {
    t := Below(|g|);
    var todo := g[b];
    while todo != {}
      invariant todo <= g[b]
      invariant forall d: nat :: d in t <==> d < |g| && forall s :: s in g[b] - todo ==> d in sol[s]
      decreases todo
    {
      var s :| s in todo;
      var seen := g[b] - todo;
      var before := t;
      t := Intersect(t, sol[s]);
      todo := todo - {s};
      assert g[b] - todo == seen + {s};
    }
    assert g[b] - todo == g[b];
    t := t + {b};
  }

  // ----- a descending iteration

  ghost predicate Descending(g: Graph, root: nat, sol: seq<set<nat>>) {
    && ClosedGraph(g) && root < |g|
    && AboveDominators(g, root, sol)
    && sol[root] == {root}
    && forall b :: 0 <= b < |g| && b != root ==> Meet(g, sol, b) <= sol[b]
  }

  ghost function TotalSize(sol: seq<set<nat>>): nat {
    if sol == [] then 0 else |sol[0]| + TotalSize(sol[1..])
  }

  lemma {:induction false} TotalSizeUpdate(sol: seq<set<nat>>, b: nat, t: set<nat>)
    requires b < |sol|
    ensures TotalSize(sol[b := t]) == TotalSize(sol) - |sol[b]| + |t|
  {
    if b == 0 {
      assert sol[0 := t][1..] == sol[1..];
    } else {
      TotalSizeUpdate(sol[1..], b - 1, t);
      assert sol[b := t][1..] == sol[1..][b - 1 := t];
    }
  }

  /** Replacing one set by its equation keeps the iteration descending, and
      shrinks the total size when it changes anything. */
  lemma {:induction false} DescendingStep(g: Graph, root: nat, sol: seq<set<nat>>, b: nat)
    requires Descending(g, root, sol) && b < |g| && b != root
    ensures Descending(g, root, sol[b := Meet(g, sol, b)])
    ensures TotalSize(sol[b := Meet(g, sol, b)]) <= TotalSize(sol)
    ensures Meet(g, sol, b) != sol[b] ==> TotalSize(sol[b := Meet(g, sol, b)]) < TotalSize(sol)
  {
    var t := Meet(g, sol, b);
    var sol' := sol[b := t];
    TotalSizeUpdate(sol, b, t);
    if t != sol[b] {
      SubsetIsSmaller(t, sol[b]);
    }
    forall c, d | 0 <= c < |g| && Dominates(g, root, d, c)
      ensures d in sol'[c]
    {
      if c == b {
        MeetStaysAbove(g, root, sol, b, d);
      }
    }
    forall c | 0 <= c < |g| && c != root
      ensures Meet(g, sol', c) <= sol'[c]
    {
      assert Meet(g, sol', c) <= Meet(g, sol, c);
    }
  }

  lemma {:induction false} FullSetsDescend(g: Graph, root: nat, sol: seq<set<nat>>)
    requires ClosedGraph(g) && root < |g| == |sol| && sol[root] == {root}
    requires forall b :: 0 <= b < |g| && b != root ==> sol[b] == Below(|g|)
    ensures Descending(g, root, sol)
  {
    forall d | Dominates(g, root, d, root) ensures d in sol[root] {
      RootHasNoStrictDominator(g, root, d);
    }
  }

  /** One pass over all blocks but the first, upwards. */
  method SweepUp(g: Graph, start: seq<set<nat>>) returns (sol: seq<set<nat>>, change: bool)
    requires Descending(g, 0, start)
    ensures Descending(g, 0, sol)
    ensures if change then TotalSize(sol) < TotalSize(start) else sol == start && SolvesEquations(g, 0, sol)
  {
    sol, change := start, false;
    var h := 1;
    while h < |g|
      invariant 1 <= h <= |g| && Descending(g, 0, sol)
      invariant if change then TotalSize(sol) < TotalSize(start) else sol == start
      invariant !change ==> forall c :: 1 <= c < h ==> sol[c] == Meet(g, sol, c)
    {
      DescendingStep(g, 0, sol, h);
      var t := MeetOver(g, sol, h);
      var same := IsEqual(t, sol[h]);
      if !same {
        change := true;
        sol := sol[h := t];
      }
      h := h + 1;
    }
  }

  /** One pass over all blocks but the last, downwards. */
  method SweepDown(g: Graph, start: seq<set<nat>>) returns (sol: seq<set<nat>>, change: bool)
    requires 0 < |g| && Descending(g, |g| - 1, start)
    ensures Descending(g, |g| - 1, sol)
    ensures if change then TotalSize(sol) < TotalSize(start)
            else sol == start && SolvesEquations(g, |g| - 1, sol)
  {
    sol, change := start, false;
    var h := |g| - 2;
    while h >= 0
      invariant -1 <= h <= |g| - 2 && Descending(g, |g| - 1, sol)
      invariant if change then TotalSize(sol) < TotalSize(start) else sol == start
      invariant !change ==> forall c :: h < c < |g| - 1 ==> sol[c] == Meet(g, sol, c)
    {
      DescendingStep(g, |g| - 1, sol, h);
      var t := MeetOver(g, sol, h);
      var same := IsEqual(t, sol[h]);
      if !same {
        change := true;
        sol := sol[h := t];
      }
      h := h - 1;
    }
  }

  // ----- the two passes

  /** The root starts with itself, every other block with all blocks. */
  method StartUp(g: Graph, start: seq<set<nat>>) returns (sol: seq<set<nat>>)
    requires ClosedGraph(g) && 0 < |g| == |start| && start[0] <= {0}
    requires forall c: nat, d: nat :: c < |g| && d in start[c] ==> d < |g|
    ensures Descending(g, 0, sol) && |sol| == |g|
  {
    sol := start[0 := start[0] + {0}];
    var b := 1;
    while b < |g|
      invariant 1 <= b <= |g| == |sol| && sol[0] == {0}
      invariant forall c :: 1 <= c < b ==> sol[c] == Below(|g|)
      invariant forall c: nat, d: nat :: b <= c < |g| && d in sol[c] ==> d < |g|
    {
      sol := sol[b := sol[b] + Below(|g|)];
      b := b + 1;
    }
    FullSetsDescend(g, 0, sol);
  }

  method StartDown(g: Graph, start: seq<set<nat>>) returns (sol: seq<set<nat>>)
    requires ClosedGraph(g) && 0 < |g| == |start| && start[|g| - 1] <= {|g| - 1}
    requires forall c: nat, d: nat :: c < |g| && d in start[c] ==> d < |g|
    ensures Descending(g, |g| - 1, sol) && |sol| == |g|
  {
    var n := |g|;
    sol := start[n - 1 := start[n - 1] + {n - 1}];
    var b := n - 1;
    while b > 0
      invariant 0 <= b < n == |sol| && sol[n - 1] == {n - 1}
      invariant forall c :: b <= c < n - 1 ==> sol[c] == Below(n)
      invariant forall c: nat, d: nat :: c < b && d in sol[c] ==> d < n
    {
      b := b - 1;
      sol := sol[b := sol[b] + Below(n)];
    }
    FullSetsDescend(g, n - 1, sol);
  }

  /** Sweeps until nothing changes. */
  method IterateUp(g: Graph, start: seq<set<nat>>) returns (sol: seq<set<nat>>)
    requires Descending(g, 0, start)
    ensures ExactDominators(g, 0, sol)
  {
    hide ExactDominators, SolvesEquations;
    sol := start;
    var change := true;
    while change
      invariant Descending(g, 0, sol) && (!change ==> SolvesEquations(g, 0, sol))
      decreases TotalSize(sol), change
    {
      sol, change := SweepUp(g, sol);
    }
    FixpointIsExact(g, 0, sol);
  }

  method IterateDown(g: Graph, start: seq<set<nat>>) returns (sol: seq<set<nat>>)
    requires 0 < |g| && Descending(g, |g| - 1, start)
    ensures ExactDominators(g, |g| - 1, sol)
  {
    hide ExactDominators, SolvesEquations;
    sol := start;
    var change := true;
    while change
      invariant Descending(g, |g| - 1, sol) && (!change ==> SolvesEquations(g, |g| - 1, sol))
      decreases TotalSize(sol), change
    {
      sol, change := SweepDown(g, sol);
    }
    FixpointIsExact(g, |g| - 1, sol);
  }

  // ----- from all strict dominators to the immediate one

  ghost predicate Nearest(candidates: set<nat>, sol: seq<set<nat>>, i: nat) {
    && i in candidates && i < |sol|
    && (forall t :: t in candidates && t != i ==> t in sol[i])
    && (forall s :: s in candidates && s != i ==> s < |sol| && i !in sol[s])
  }

  ghost predicate Transitive(candidates: set<nat>, sol: seq<set<nat>>)
    requires forall c :: c in candidates ==> c < |sol|
  {
    forall a, b, c :: a in candidates && b in candidates && b in sol[a] && c in sol[b] ==> c in sol[a]
  }

  /** Some remaining candidate is dominated by `t`. */
  ghost predicate Covered(r: set<nat>, sol: seq<set<nat>>, t: nat) {
    exists x :: x in r && x < |sol| && t in sol[x]
  }

  lemma {:induction false} RemovalKeepsCovered(candidates: set<nat>, sol: seq<set<nat>>, before: set<nat>,
                                               r: set<nat>, s: nat)
    requires (forall c :: c in candidates ==> c < |sol|) && Transitive(candidates, sol)
    requires r <= before <= candidates && s in r
    requires forall x :: x in before - r ==> x in sol[s]
    requires forall t :: t in candidates - before ==> Covered(before, sol, t)
    ensures forall t :: t in candidates - r ==> Covered(r, sol, t)
  {
    forall t | t in candidates - r ensures Covered(r, sol, t) {
      if t in before {
        assert t in sol[s];
      } else {
        assert Covered(before, sol, t);
        var x :| x in before && x < |sol| && t in sol[x];
        if x !in r {
          assert x in sol[s] && t in sol[s];
        }
      }
    }
  }

  /** What the scan leaves of the candidates. */
  ghost predicate IsReduced(r: set<nat>, candidates: set<nat>, sol: seq<set<nat>>)
    requires forall c :: c in candidates ==> c < |sol|
  {
    && r <= candidates && (candidates != {} ==> r != {})
    && (forall i: nat :: Nearest(candidates, sol, i) ==> r == {i})
    && (forall s, t :: s in r && t in r && s != t ==> t !in sol[s])
    && (Transitive(candidates, sol) ==> forall t :: t in candidates - r ==> Covered(r, sol, t))
  }

  /** Both immediate passes edit the candidate set while scanning it in
      increasing order: a candidate `s` that is still there removes every other
      candidate that dominates it.  If one candidate is dominated by all the
      others and dominates none of them, exactly that one is left. */
  method KeepNearest(candidates: set<nat>, sol: seq<set<nat>>) returns (r: set<nat>)
    requires forall c :: c in candidates ==> c < |sol|
    ensures IsReduced(r, candidates, sol)
  {
    r := candidates;
    var s := 0;
    while s < |sol|
      invariant s <= |sol| && r <= candidates && (candidates != {} ==> r != {})
      invariant forall i: nat :: Nearest(candidates, sol, i) ==> i in r
      invariant forall i: nat :: Nearest(candidates, sol, i) && i < s ==> r == {i}
      invariant forall a, t :: a in r && t in r && a < s && a != t ==> t !in sol[a]
      invariant Transitive(candidates, sol) ==> forall t :: t in candidates - r ==> Covered(r, sol, t)
    {
      if s in r {
        var before := r;
        var t := 0;
        while t < |sol|
          invariant t <= |sol| && s in r && r <= before
          invariant forall x :: x in before ==> (x in r <==> x >= t || x == s || x !in sol[s])
        {
          if t in r && t != s && t in sol[s] {
            r := r - {t};
          }
          t := t + 1;
        }
        forall i: nat | Nearest(candidates, sol, i)
          ensures i in r && (i <= s ==> r == {i})
        {
        }
        if Transitive(candidates, sol) {
          RemovalKeepsCovered(candidates, sol, before, r, s);
        }
      }
      s := s + 1;
    }
  }
}

/** Path-based dominance on a finite graph, and the fixpoint equations solved by
    the dominator and post-dominator passes.

    `g[b]` holds the neighbours of block `b` one edge nearer to `root`: the
    successors for post-dominance (root = exit block), the predecessors for
    dominance (root = entry block).  A path runs from a block to the root. */
module Dominance {

  type Graph = seq<set<nat>>

  ghost predicate ClosedGraph(g: Graph) {
    forall b, s :: 0 <= b < |g| && s in g[b] ==> s < |g|
  }

  ghost predicate IsPath(g: Graph, root: nat, p: seq<nat>, b: nat) {
    && 0 < |p| && p[0] == b < |g|
    && (if |p| == 1 then b == root else p[1] in g[b] && IsPath(g, root, p[1..], p[1]))
  }

  ghost predicate Reaches(g: Graph, root: nat, b: nat) {
    exists p :: IsPath(g, root, p, b)
  }

  /** `d` is a block on every path from `b` to the root; in particular every
      block dominates a block from which no path leads to the root. */
  ghost predicate Dominates(g: Graph, root: nat, d: nat, b: nat) {
    d < |g| && forall p :: IsPath(g, root, p, b) ==> d in p
  }

  ghost predicate StrictlyDominates(g: Graph, root: nat, d: nat, b: nat) {
    d != b && Dominates(g, root, d, b)
  }

  /** The strict dominator nearest to `b`: every other one also dominates `i`. */
  ghost predicate IsImmediate(g: Graph, root: nat, i: nat, b: nat) {
    && StrictlyDominates(g, root, i, b)
    && forall t :: StrictlyDominates(g, root, t, b) ==> Dominates(g, root, t, i)
  }

  // ----- splicing and cutting paths

  lemma {:induction false} SuffixIsPath(g: Graph, root: nat, p: seq<nat>, b: nat, k: nat)
    requires IsPath(g, root, p, b) && k < |p|
    ensures IsPath(g, root, p[k..], p[k])
    decreases k
  {
    if k == 0 {
      assert p[0..] == p;
    } else {
      SuffixIsPath(g, root, p[1..], p[1], k - 1);
      assert p[1..][k - 1..] == p[k..];
    }
  }

  /** Leaving path `p` at position `k` along path `q`. */
  lemma {:induction false} SpliceIsPath(g: Graph, root: nat, p: seq<nat>, b: nat, k: nat, q: seq<nat>)
    requires IsPath(g, root, p, b) && k < |p| && IsPath(g, root, q, p[k])
    ensures IsPath(g, root, p[..k] + q, b)
    decreases k
  {
    if k == 0 {
      assert p[..0] + q == q;
    } else {
      SpliceIsPath(g, root, p[1..], p[1], k - 1, q);
      var r := p[..k] + q;
      assert r[1..] == p[1..][..k - 1] + q;
    }
  }

  // ----- dominators of a block that reaches the root

  /** Two different blocks on a path to the root never dominate each other. */
  lemma {:induction false} Antisymmetric(g: Graph, root: nat, a: nat, b: nat, p: seq<nat>)
    requires a != b && IsPath(g, root, p, a)
    requires Dominates(g, root, a, b) && Dominates(g, root, b, a)
    ensures false
    decreases |p|
  {
    var k :| 0 <= k < |p| && p[k] == b;
    SuffixIsPath(g, root, p, a, k);
    var m :| 0 <= m < |p[k..]| && p[k..][m] == a;
    SuffixIsPath(g, root, p[k..], b, m);
    Antisymmetric(g, root, a, b, p[k..][m..]);
  }

  lemma {:induction false} DominanceIsTransitive(g: Graph, root: nat, a: nat, b: nat, c: nat)
    requires Dominates(g, root, b, a) && Dominates(g, root, c, b)
    ensures Dominates(g, root, c, a)
  {
    forall p | IsPath(g, root, p, a) ensures c in p {
      var k :| 0 <= k < |p| && p[k] == b;
      SuffixIsPath(g, root, p, a, k);
      assert c in p[k..];
    }
  }

  /** What dominates a block that reaches the root reaches it too. */
  lemma {:induction false} DominatorReaches(g: Graph, root: nat, d: nat, b: nat)
    requires Reaches(g, root, b) && Dominates(g, root, d, b)
    ensures Reaches(g, root, d)
  {
    var p :| IsPath(g, root, p, b);
    var k :| 0 <= k < |p| && p[k] == d;
    SuffixIsPath(g, root, p, b, k);
  }

  /** The first strict dominator met along a path is the immediate one. */
  lemma {:induction false} FirstIsImmediate(g: Graph, root: nat, b: nat, p: seq<nat>, k: nat)
    requires IsPath(g, root, p, b) && k < |p| && StrictlyDominates(g, root, p[k], b)
    requires forall j :: 0 <= j < k ==> !StrictlyDominates(g, root, p[j], b)
    ensures IsImmediate(g, root, p[k], b)
  {
    forall t | StrictlyDominates(g, root, t, b)
      ensures Dominates(g, root, t, p[k])
    {
      forall q | IsPath(g, root, q, p[k])
        ensures t in q
      {
        SpliceIsPath(g, root, p, b, k, q);
        assert t in p[..k] + q;
        assert t !in p[..k];
      }
    }
  }

  lemma {:induction false} FirstStrictDominator(g: Graph, root: nat, b: nat, p: seq<nat>, from: nat)
    returns (k: nat)
    requires IsPath(g, root, p, b) && from <= |p|
    requires forall j :: 0 <= j < from ==> !StrictlyDominates(g, root, p[j], b)
    requires exists j :: from <= j < |p| && StrictlyDominates(g, root, p[j], b)
    ensures k < |p| && StrictlyDominates(g, root, p[k], b)
    ensures forall j :: 0 <= j < k ==> !StrictlyDominates(g, root, p[j], b)
    decreases |p| - from
  {
    if StrictlyDominates(g, root, p[from], b) {
      k := from;
    } else {
      k := FirstStrictDominator(g, root, b, p, from + 1);
    }
  }

  lemma {:induction false} LastIsRoot(g: Graph, root: nat, p: seq<nat>, b: nat)
    requires IsPath(g, root, p, b)
    ensures p[|p| - 1] == root
  {
    if |p| > 1 {
      LastIsRoot(g, root, p[1..], p[1]);
    }
  }

  /** A block other than the root that reaches the root has exactly one
      immediate dominator. */
  lemma {:induction false} ImmediateExists(g: Graph, root: nat, b: nat) returns (i: nat)
    requires root < |g| && b != root && Reaches(g, root, b)
    ensures IsImmediate(g, root, i, b)
    ensures forall j :: IsImmediate(g, root, j, b) ==> j == i
  {
    var p :| IsPath(g, root, p, b);
    forall q | IsPath(g, root, q, b) ensures root in q {
      LastIsRoot(g, root, q, b);
    }
    LastIsRoot(g, root, p, b);
    assert StrictlyDominates(g, root, p[|p| - 1], b);
    var k := FirstStrictDominator(g, root, b, p, 0);
    FirstIsImmediate(g, root, b, p, k);
    i := p[k];
    SuffixIsPath(g, root, p, b, k);
    forall j | IsImmediate(g, root, j, b) ensures j == i {
      if j != i {
        Antisymmetric(g, root, i, j, p[k..]);
      }
    }
  }

  // ----- dominance and single edges

  /** Crossing an edge keeps every strict dominator except one just reached. */
  lemma {:induction false} StepKeepsDominator(g: Graph, root: nat, d: nat, b: nat, s: nat)
    requires b < |g| && StrictlyDominates(g, root, d, b) && s in g[b]
    ensures Dominates(g, root, d, s)
  {
    forall p | IsPath(g, root, p, s) ensures d in p {
      assert ([b] + p)[1..] == p;
      assert IsPath(g, root, [b] + p, b);
      assert d in [b] + p;
    }
  }

  /** If an edge of `b` leads to one of its strict dominators, that one is the
      immediate dominator. */
  lemma {:induction false} EdgeToDominatorIsImmediate(g: Graph, root: nat, d: nat, i: nat, b: nat)
    requires b < |g| && d in g[b] && Reaches(g, root, d)
    requires StrictlyDominates(g, root, d, b) && IsImmediate(g, root, i, b)
    ensures d == i
  {
    if d != i {
      StepKeepsDominator(g, root, i, b, d);
      var p :| IsPath(g, root, p, d);
      Antisymmetric(g, root, d, i, p);
    }
  }

  /** Only the root itself strictly dominates a neighbour of the root. */
  lemma {:induction false} NextToRoot(g: Graph, root: nat, d: nat, b: nat)
    requires b < |g| && root < |g| && root in g[b] && StrictlyDominates(g, root, d, b)
    ensures d == root
  {
    assert IsPath(g, root, [root], root);
    assert [b, root][1..] == [root];
    assert IsPath(g, root, [b, root], b);
  }

  lemma {:induction false} RootHasNoStrictDominator(g: Graph, root: nat, d: nat)
    requires root < |g| && Dominates(g, root, d, root)
    ensures d == root
  {
    assert IsPath(g, root, [root], root);
  }

  /** A strict dominator of a block that reaches the root is entered by an edge. */
  lemma {:induction false} StrictDominatorHasEdgeIn(g: Graph, root: nat, d: nat, b: nat)
    requires StrictlyDominates(g, root, d, b) && Reaches(g, root, b)
    ensures exists a :: 0 <= a < |g| && d in g[a]
    ensures Reaches(g, root, d)
  {
    var p :| IsPath(g, root, p, b);
    var k :| 0 <= k < |p| && p[k] == d;
    SuffixIsPath(g, root, p, b, k);
    SuffixIsPath(g, root, p, b, k - 1);
    assert p[k - 1..][1] == d;
  }

  // ----- the fixpoint equations

  /** One round of the equations: `b` itself, and whatever is in the sets of all
      neighbours (everything when there is no neighbour). */
  ghost function Meet(g: Graph, sol: seq<set<nat>>, b: nat): set<nat>
    requires |sol| == |g| && b < |g| && ClosedGraph(g)
  {
    set d: nat | d < |g| && SurvivesMeet(g, sol, b, d)
  }

  ghost predicate SurvivesMeet(g: Graph, sol: seq<set<nat>>, b: nat, d: nat)
    requires |sol| == |g| && b < |g| && ClosedGraph(g)
  {
    d == b || forall s :: s in g[b] ==> d in sol[s]
  }

  ghost predicate AboveDominators(g: Graph, root: nat, sol: seq<set<nat>>) {
    && |sol| == |g|
    && forall b, d :: 0 <= b < |g| && Dominates(g, root, d, b) ==> d in sol[b]
  }

  ghost predicate SolvesEquations(g: Graph, root: nat, sol: seq<set<nat>>)
    requires ClosedGraph(g)
  {
    && |sol| == |g|
    && (root < |g| ==> sol[root] == {root})
    && forall b :: 0 <= b < |g| && b != root ==> sol[b] == Meet(g, sol, b)
  }

  ghost predicate ExactDominators(g: Graph, root: nat, sol: seq<set<nat>>) {
    && |sol| == |g|
    && forall b, d {:trigger d in sol[b]} {:trigger Dominates(g, root, d, b)} ::
         0 <= b < |g| && 0 <= d ==> (d in sol[b] <==> Dominates(g, root, d, b))
  }

  /** An over-approximation stays one under the equations. */
  lemma {:induction false} MeetStaysAbove(g: Graph, root: nat, sol: seq<set<nat>>, b: nat, d: nat)
    requires ClosedGraph(g) && AboveDominators(g, root, sol)
    requires b < |g| && Dominates(g, root, d, b)
    ensures d in Meet(g, sol, b)
  {
    if d != b {
      forall s | s in g[b] ensures d in sol[s] {
        StepKeepsDominator(g, root, d, b, s);
      }
    }
  }

  lemma {:induction false} SolutionOnPath(g: Graph, root: nat, sol: seq<set<nat>>, b: nat, d: nat, p: seq<nat>)
    requires ClosedGraph(g) && SolvesEquations(g, root, sol)
    requires IsPath(g, root, p, b) && d in sol[b]
    ensures d in p
    decreases |p|
  {
    if |p| > 1 && d != b {
      assert b == root || d in Meet(g, sol, b);
      SolutionOnPath(g, root, sol, p[1], d, p[1..]);
    }
  }

  /** Every solution of the equations that lies above the dominators equals
      them: the fixpoint is the meet over all paths. */
  lemma {:induction false} FixpointIsExact(g: Graph, root: nat, sol: seq<set<nat>>)
    requires ClosedGraph(g) && root < |g|
    requires SolvesEquations(g, root, sol) && AboveDominators(g, root, sol)
    ensures ExactDominators(g, root, sol)
  {
    forall b, d: nat | 0 <= b < |g| && d in sol[b]
      ensures Dominates(g, root, d, b)
    {
      assert b == root || d in Meet(g, sol, b);
      forall p | IsPath(g, root, p, b) ensures d in p {
        SolutionOnPath(g, root, sol, b, d, p);
      }
    }
  }
}

/** A family of nested or disjoint sets, listed outermost first, is small. */
module Laminar {

  /** Each set is disjoint from every earlier one or a proper part of it. */
  ghost predicate IsLaminar(fs: seq<set<nat>>) {
    fs == [] || ((forall f :: f in fs[1..] ==> f < fs[0] || f !! fs[0]) && IsLaminar(fs[1..]))
  }

  ghost predicate NonEmptyWithin(fs: seq<set<nat>>, u: set<nat>) {
    forall f :: f in fs ==> f != {} && f <= u
  }

  function Inside(fs: seq<set<nat>>, a: set<nat>): seq<set<nat>> {
    if fs == [] then []
    else (if fs[0] < a then [fs[0]] else []) + Inside(fs[1..], a)
  }

  function Outside(fs: seq<set<nat>>, a: set<nat>): seq<set<nat>> {
    if fs == [] then []
    else (if fs[0] < a then [] else [fs[0]]) + Outside(fs[1..], a)
  }

  lemma {:induction false} SplitMembers(fs: seq<set<nat>>, a: set<nat>)
    ensures |Inside(fs, a)| + |Outside(fs, a)| == |fs|
    ensures forall f :: f in Inside(fs, a) ==> f in fs && f < a
    ensures forall f :: f in Outside(fs, a) ==> f in fs && !(f < a)
  {
    if fs != [] {
      SplitMembers(fs[1..], a);
    }
  }

  lemma {:induction false} SplitLaminar(fs: seq<set<nat>>, a: set<nat>)
    requires IsLaminar(fs)
    ensures IsLaminar(Inside(fs, a)) && IsLaminar(Outside(fs, a))
  {
    if fs != [] {
      SplitLaminar(fs[1..], a);
      SplitMembers(fs[1..], a);
      ConsLaminar(fs[0], Inside(fs[1..], a));
      ConsLaminar(fs[0], Outside(fs[1..], a));
    }
  }

  lemma {:induction false} ConsLaminar(f: set<nat>, fs: seq<set<nat>>)
    requires IsLaminar(fs) && forall g :: g in fs ==> g < f || g !! f
    ensures IsLaminar([f] + fs) && [] + fs == fs
  {
    assert ([f] + fs)[1..] == fs;
  }

  lemma {:induction false} ProperPartIsSmaller(a: set<nat>, u: set<nat>)
    requires a < u
    ensures |u| == |a| + |u - a| && u - a != {}
  {
    assert u == a + (u - a);
    var x :| x in u && x !in a;
    assert x in u - a;
  }

  lemma {:induction false} TailWithin(fs: seq<set<nat>>, u: set<nat>)
    requires NonEmptyWithin(fs, u) && fs != []
    ensures fs[0] in fs && NonEmptyWithin(fs[1..], u)
    ensures forall f :: f in fs <==> f == fs[0] || f in fs[1..]
  {
    assert fs == [fs[0]] + fs[1..];
    forall f | f in fs[1..] ensures f in fs && f != {} && f <= u {
      var i :| 0 <= i < |fs[1..]| && fs[1..][i] == f;
      assert fs[i + 1] == f;
    }
  }

  /** Proper non-empty parts of `u`: at most 2|u| - 2 of them. */
  lemma {:induction false} ProperParts(fs: seq<set<nat>>, u: set<nat>)
    requires IsLaminar(fs) && NonEmptyWithin(fs, u) && u != {}
    requires forall f :: f in fs ==> f != u
    ensures |fs| <= 2 * |u| - 2
    decreases |u|, 0
  {
    if fs != [] {
      var a := fs[0];
      TailWithin(fs, u);
      assert a < u;
      ProperPartIsSmaller(a, u);
      SplitMembers(fs[1..], a);
      SplitLaminar(fs[1..], a);
      ProperParts(Inside(fs[1..], a), a);
      var rest := Outside(fs[1..], a);
      forall f | f in rest ensures f <= u - a {
        assert f in fs[1..];
      }
      AllParts(rest, u - a);
    }
  }

  /** Non-empty parts of a non-empty `u`: at most 2|u| - 1 of them. */
  lemma {:induction false} AllParts(fs: seq<set<nat>>, u: set<nat>)
    requires IsLaminar(fs) && NonEmptyWithin(fs, u) && u != {}
    ensures |fs| <= 2 * |u| - 1
    decreases |u|, 1
  {
    if fs != [] && fs[0] == u {
      TailWithin(fs, u);
      ProperParts(fs[1..], u);
    } else {
      if fs != [] {
        TailWithin(fs, u);
      }
      ProperParts(fs, u);
    }
  }
}

/** Small notions that several parts of the model share. */
module Helpers {

  datatype Option<+T> = None | Some(value: T)

  // ----- sets of numbers

  function Below(n: nat): (s: set<nat>)
    ensures |s| == n && forall i: nat :: i in s <==> i < n
  {
    if n == 0 then {}
    else
      var rest := Below(n - 1);
      assert n - 1 !in rest;
      rest + {n - 1}
  }

  lemma {:induction false} SubsetIsSmaller(a: set<nat>, b: set<nat>)
    requires a <= b
    ensures |a| <= |b| && (a != b ==> |a| < |b|)
  {
    assert b == a + (b - a);
  }

  method Smallest(s: set<nat>) returns (m: nat)
    requires s != {}
    ensures m in s && forall x :: x in s ==> m <= x
  {
    m :| m in s;
    var todo := s - {m};
    while todo != {}
      invariant todo <= s && m in s
      invariant forall y :: y in s ==> y in todo || m <= y
      decreases todo
    {
      var x :| x in todo;
      if x < m {
        m := x;
      }
      todo := todo - {x};
    }
  }

  // ----- products

  lemma {:induction false} ProductGrows(p: nat, q: nat, n: nat)
    requires p <= q
    ensures p * n <= q * n && (p - 1) * n == p * n - n
  {
    assert q * n == p * n + (q - p) * n;
  }

  lemma {:induction false} ShareFits(total: nat, parts: nat)
    requires parts > 0
    ensures parts * (total / parts) <= total
  {
  }
}

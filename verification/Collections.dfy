/** Sequences seen as sets of their elements, and sets walked in no particular
    order, which is how the database and the sets of the service yield them. */
module Collections {

  ghost function Elems<T>(xs: seq<T>): set<T> {
    set x | x in xs
  }

  ghost predicate Distinct<T>(xs: seq<T>) {
    forall i, j :: 0 <= i < j < |xs| ==> xs[i] != xs[j]
  }

  lemma {:induction false} ElemsSnoc<T>(xs: seq<T>, x: T)
    ensures Elems(xs + [x]) == Elems(xs) + {x}
    ensures Distinct(xs) && x !in xs ==> Distinct(xs + [x])
  {
  }

  lemma {:induction false} ElemsPrefix<T>(xs: seq<T>, i: nat)
    requires i < |xs|
    ensures Elems(xs[..i + 1]) == Elems(xs[..i]) + {xs[i]}
    ensures Distinct(xs) ==> xs[i] !in Elems(xs[..i])
  {
  }

  method Enumerate<T(==)>(s: set<T>) returns (xs: seq<T>)
    ensures Elems(xs) == s && Distinct(xs) && |xs| == |s|
  {
    xs := [];
    var todo := s;
    while todo != {}
      invariant todo <= s && Elems(xs) == s - todo && |xs| == |s| - |todo| && Distinct(xs)
      decreases todo
    {
      var x :| x in todo;
      ElemsSnoc(xs, x);
      xs, todo := xs + [x], todo - {x};
    }
  }

  lemma {:induction false} DistinctSize<T>(xs: seq<T>)
    requires Distinct(xs)
    ensures |Elems(xs)| == |xs|
  {
    if xs != [] {
      var front := xs[..|xs| - 1];
      DistinctSize(front);
      assert front + [xs[|xs| - 1]] == xs;
      ElemsSnoc(front, xs[|xs| - 1]);
    }
  }

  lemma {:induction false} SubsetSize<T>(a: set<T>, b: set<T>)
    requires a <= b
    ensures |a| <= |b|
  {
    assert b == a + (b - a);
  }

  lemma {:induction false} ElemsAtMost<T>(xs: seq<T>)
    ensures |Elems(xs)| <= |xs|
  {
    if xs != [] {
      var front := xs[..|xs| - 1];
      ElemsAtMost(front);
      assert xs == front + [xs[|xs| - 1]];
      ElemsSnoc(front, xs[|xs| - 1]);
    }
  }

  /** The numbers below `n`. */
  function UpTo(n: nat): set<nat> {
    if n == 0 then {} else UpTo(n - 1) + {n - 1}
  }

  lemma {:induction false} UpToFacts(n: nat)
    ensures |UpTo(n)| == n && forall p: nat :: p in UpTo(n) <==> p < n
  {
    if n > 0 {
      UpToFacts(n - 1);
      assert n - 1 !in UpTo(n - 1);
    }
  }
}

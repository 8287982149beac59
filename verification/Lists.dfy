/** Lists without repetition and the sets they list. */
module Lists {

  ghost predicate Distinct<T>(xs: seq<T>) {
    forall i, j :: 0 <= i < j < |xs| ==> xs[i] != xs[j]
  }

  function ToSet<T>(xs: seq<T>): set<T> {
    set x | x in xs
  }

  lemma ToSetSnoc<T>(xs: seq<T>, x: T)
    ensures ToSet(xs + [x]) == ToSet(xs) + {x}
  {
    assert forall y :: y in xs + [x] <==> y in xs || y == x;
  }

  lemma {:induction false} DistinctSize<T>(xs: seq<T>)
    requires Distinct(xs)
    ensures |ToSet(xs)| == |xs|
  {
    if xs != [] {
      var last := |xs| - 1;
      DistinctSize(xs[..last]);
      ToSetSnoc(xs[..last], xs[last]);
      assert xs == xs[..last] + [xs[last]];
    }
  }

  lemma {:induction false} ListedSize<T>(xs: seq<T>)
    ensures |ToSet(xs)| <= |xs|
  {
    if xs != [] {
      var last := |xs| - 1;
      ListedSize(xs[..last]);
      ToSetSnoc(xs[..last], xs[last]);
      assert xs == xs[..last] + [xs[last]];
    }
  }

  lemma SubsetSize<T>(x: set<T>, y: set<T>)
    requires x <= y
    ensures |x| <= |y|
    ensures x != y ==> |x| < |y|
  {
    assert |y| == |x| + |y - x| by { assert y == x + (y - x); }
    if x != y {
      assert y - x != {};
    }
  }

  // Lists a set in some order.
  method ListOf<T(==)>(s: set<T>) returns (xs: seq<T>)
    ensures ToSet(xs) == s && Distinct(xs) && |xs| == |s|
  {
    xs := [];
    var rest := s;
    while rest != {}
      invariant Distinct(xs) && rest <= s && ToSet(xs) == s - rest
      decreases rest
    {
      var x :| x in rest;
      assert x !in ToSet(xs);
      ToSetSnoc(xs, x);
      xs := xs + [x];
      rest := rest - {x};
    }
    DistinctSize(xs);
  }
}

/** Sums of a real-valued function over a sequence. */
module Sums {

  function Sum<T>(xs: seq<T>, f: T -> real): real {
    if xs == [] then 0.0 else Sum(xs[..|xs| - 1], f) + f(xs[|xs| - 1])
  }

  function Without<T>(xs: seq<T>, k: nat): seq<T>
    requires k < |xs|
  {
    xs[..k] + xs[k + 1..]
  }

  lemma {:induction false} SumAppended<T>(xs: seq<T>, x: T, f: T -> real)
    ensures Sum(xs + [x], f) == Sum(xs, f) + f(x)
  {
    assert (xs + [x])[..|xs|] == xs;
  }

  lemma {:induction false} SumWithout<T>(xs: seq<T>, k: nat, f: T -> real)
    requires k < |xs|
    ensures Sum(xs, f) == Sum(Without(xs, k), f) + f(xs[k])
    decreases |xs|
  {
    var (init, last) := (xs[..|xs| - 1], xs[|xs| - 1]);
    if k == |xs| - 1 {
      assert Without(xs, k) == init;
    } else {
      SumWithout(init, k, f);
      assert Without(xs, k) == Without(init, k) + [last];
      SumAppended(Without(init, k), last, f);
    }
  }

  lemma MultisetWithout<T>(xs: seq<T>, k: nat)
    requires k < |xs|
    ensures multiset(Without(xs, k)) == multiset(xs) - multiset{xs[k]}
  {
    assert xs == xs[..k] + [xs[k]] + xs[k + 1..];
  }

  /** A sum does not depend on the order of its terms. */
  lemma {:induction false} SumPermuted<T>(a: seq<T>, b: seq<T>, f: T -> real)
    requires multiset(a) == multiset(b)
    ensures Sum(a, f) == Sum(b, f)
    decreases |a|
  {
    if a == [] {
      NoneLeft(b);
    } else {
      hide Sum, Without;
      var k := Occurrence(a, b);
      SameWithout(a, b, |a| - 1, k);
      SumWithout(a, |a| - 1, f);
      SumWithout(b, k, f);
      ShorterWithout(a, |a| - 1);
      SumPermuted(Without(a, |a| - 1), Without(b, k), f);
    }
  }

  lemma {:induction false} NoneLeft<T>(b: seq<T>)
    requires multiset([]) == multiset(b)
    ensures b == []
  {
    assert |multiset(b)| == |b|;
  }

  lemma {:induction false} Occurrence<T>(a: seq<T>, b: seq<T>) returns (k: nat)
    requires multiset(a) == multiset(b) && a != []
    ensures k < |b| && b[k] == a[|a| - 1]
  {
    assert a[|a| - 1] in multiset(a);
    k :| k < |b| && b[k] == a[|a| - 1];
  }

  lemma SameWithout<T>(a: seq<T>, b: seq<T>, i: nat, k: nat)
    requires multiset(a) == multiset(b) && i < |a| && k < |b| && a[i] == b[k]
    ensures multiset(Without(a, i)) == multiset(Without(b, k))
  {
    hide Without;
    MultisetWithout(a, i);
    MultisetWithout(b, k);
  }

  lemma ShorterWithout<T>(xs: seq<T>, k: nat)
    requires k < |xs|
    ensures |Without(xs, k)| == |xs| - 1
  {
  }

  predicate BetweenMultiples(lo: real, x: real, hi: real, n: real) {
    lo * n <= x <= hi * n
  }

  /** Terms that lie between multiples of other terms add up to a sum between the multiples. */
  lemma {:induction false} SumBetween<T>(xs: seq<T>, f: T -> real, g: T -> real, lo: real, hi: real)
    requires forall k :: 0 <= k < |xs| ==> BetweenMultiples(lo, f(xs[k]), hi, g(xs[k]))
    ensures BetweenMultiples(lo, Sum(xs, f), hi, Sum(xs, g))
  {
    if xs == [] {
    } else {
      hide BetweenMultiples;
      var (init, last) := (xs[..|xs| - 1], xs[|xs| - 1]);
      SumBetween(init, f, g, lo, hi);
      BetweenAdds(lo, hi, Sum(init, f), Sum(init, g), f(last), g(last));
    }
  }

  lemma BetweenAdds(lo: real, hi: real, u: real, v: real, x: real, y: real)
    requires BetweenMultiples(lo, u, hi, v) && BetweenMultiples(lo, x, hi, y)
    ensures BetweenMultiples(lo, u + x, hi, v + y)
  {
    assert lo * (v + y) == lo * v + lo * y && hi * (v + y) == hi * v + hi * y;
  }

  lemma QuotientBetween(lo: real, w: real, hi: real, n: real)
    requires n > 0.0 && lo * n <= w <= hi * n
    ensures lo <= w / n <= hi
  {
    assert lo == lo * n / n && hi == hi * n / n;
  }
}

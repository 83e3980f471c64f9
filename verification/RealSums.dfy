/** Finite sums of reals. */
module RealSums {
  ghost function Sum<T>(xs: seq<T>, v: T -> real): real {
    if xs == [] then 0.0 else Sum(xs[..|xs| - 1], v) + v(xs[|xs| - 1])
  }

  ghost function Abs(x: real): real {
    if x < 0.0 then -x else x
  }

  ghost predicate Distinct<T>(xs: seq<T>) {
    forall i, j :: 0 <= i < j < |xs| ==> xs[i] != xs[j]
  }

  lemma SumNext<T>(xs: seq<T>, v: T -> real, k: nat)
    requires k < |xs|
    ensures Sum(xs[..k + 1], v) == Sum(xs[..k], v) + v(xs[k])
  {
    assert xs[..k + 1][..k] == xs[..k];
  }

  lemma {:induction false} SumCongruent<T(!new)>(xs: seq<T>, v: T -> real, w: T -> real)
    requires forall x :: x in xs ==> v(x) == w(x)
    ensures Sum(xs, v) == Sum(xs, w)
  {
    if xs != [] {
      SumCongruent(xs[..|xs| - 1], v, w);
    }
  }

  lemma {:induction false} SumAtMost<T(!new)>(xs: seq<T>, v: T -> real, w: T -> real)
    requires forall x :: x in xs ==> v(x) <= w(x)
    ensures Sum(xs, v) <= Sum(xs, w)
  {
    if xs != [] {
      SumAtMost(xs[..|xs| - 1], v, w);
    }
  }

  lemma {:induction false} SumZero<T(!new)>(xs: seq<T>, v: T -> real)
    requires forall x :: x in xs ==> v(x) == 0.0
    ensures Sum(xs, v) == 0.0
  {
    if xs != [] {
      SumZero(xs[..|xs| - 1], v);
    }
  }

  lemma SumNonNegative<T(!new)>(xs: seq<T>, v: T -> real)
    requires forall x :: x in xs ==> v(x) >= 0.0
    ensures Sum(xs, v) >= 0.0
  {
    SumZero(xs, x => 0.0);
    SumAtMost(xs, x => 0.0, v);
  }

  lemma {:induction false} SumPlus<T(!new)>(xs: seq<T>, v: T -> real, w: T -> real, u: T -> real)
    requires forall x :: x in xs ==> u(x) == v(x) + w(x)
    ensures Sum(xs, u) == Sum(xs, v) + Sum(xs, w)
  {
    if xs != [] {
      SumPlus(xs[..|xs| - 1], v, w, u);
    }
  }

  lemma {:induction false} SumTimes<T(!new)>(xs: seq<T>, c: real, v: T -> real, u: T -> real)
    requires forall x :: x in xs ==> u(x) == c * v(x)
    ensures Sum(xs, u) == c * Sum(xs, v)
  {
    if xs != [] {
      SumTimes(xs[..|xs| - 1], c, v, u);
    }
  }

  lemma {:induction false} SumAbs<T(!new)>(xs: seq<T>, v: T -> real, e: T -> real)
    requires forall x :: x in xs ==> e(x) == Abs(v(x))
    ensures Abs(Sum(xs, v)) <= Sum(xs, e)
  {
    if xs != [] {
      SumAbs(xs[..|xs| - 1], v, e);
    }
  }

  /** A sum of non-negative terms is zero only if every term is. */
  lemma {:induction false} SumVanishes<T(!new)>(xs: seq<T>, v: T -> real, x: T)
    requires (forall y :: y in xs ==> v(y) >= 0.0) && Sum(xs, v) <= 0.0 && x in xs
    ensures v(x) == 0.0
  {
    var init, last := xs[..|xs| - 1], xs[|xs| - 1];
    SumNonNegative(init, v);
    if x in init {
      SumVanishes(init, v, x);
    } else {
      assert xs == init + [last];
    }
  }

  ghost function Across<S, T>(m: (S, T) -> real, x: S): T -> real {
    y => m(x, y)
  }

  ghost function Down<S, T>(m: (S, T) -> real, y: T): S -> real {
    x => m(x, y)
  }

  /** The order of summation does not matter. */
  lemma {:induction false} SumSwap<S(!new), T(!new)>(xs: seq<S>, ys: seq<T>, m: (S, T) -> real, rows: S -> real, columns: T -> real)
    requires forall x :: x in xs ==> rows(x) == Sum(ys, Across(m, x))
    requires forall y :: y in ys ==> columns(y) == Sum(xs, Down(m, y))
    ensures Sum(xs, rows) == Sum(ys, columns)
  {
    if xs == [] {
      SumZero(ys, columns);
    } else {
      var init, last := xs[..|xs| - 1], xs[|xs| - 1];
      var partial := y => Sum(init, Down(m, y));
      SumSwap(init, ys, m, rows, partial);
      SumPlus(ys, partial, Across(m, last), columns);
    }
  }

  ghost function Indicator<T>(s: set<T>, c: real): T -> real {
    x => if x in s then c else 0.0
  }

  ghost function Scaled(c: real, n: nat): real {
    c * n as real
  }

  lemma SumLast<T>(init: seq<T>, last: T, v: T -> real)
    ensures Sum(init + [last], v) == Sum(init, v) + v(last)
  {
    assert (init + [last])[..|init|] == init;
  }

  /** A constant on a subset of distinct elements. */
  lemma {:induction false} SumOfSubset<T(!new)>(xs: seq<T>, s: set<T>, c: real)
    requires Distinct(xs) && forall x :: x in s ==> x in xs
    ensures Sum(xs, Indicator(s, c)) == Scaled(c, |s|)
  {
    hide Sum, Indicator, Scaled, Distinct;
    if xs == [] {
      NoTerms(xs, s, c);
    } else {
      var init, last := xs[..|xs| - 1], xs[|xs| - 1];
      assert xs == init + [last];
      DistinctInit(init, last);
      forall x | x in s - {last} ensures x in init {
        assert x in xs;
      }
      SumOfSubset(init, s - {last}, c);
      SubsetStep(init, last, s, c);
    }
  }

  lemma NoTerms<T(!new)>(xs: seq<T>, s: set<T>, c: real)
    requires xs == [] && forall x :: x in s ==> x in xs
    ensures Sum(xs, Indicator(s, c)) == Scaled(c, |s|)
  {
    assert s == {};
  }

  lemma DistinctInit<T>(init: seq<T>, last: T)
    requires Distinct(init + [last])
    ensures Distinct(init) && last !in init
  {
    var xs := init + [last];
    assert forall i :: 0 <= i < |init| ==> xs[i] == init[i];
    assert xs[|init|] == last;
  }

  lemma SubsetStep<T(!new)>(init: seq<T>, last: T, s: set<T>, c: real)
    requires last !in init && Sum(init, Indicator(s - {last}, c)) == Scaled(c, |s - {last}|)
    ensures Sum(init + [last], Indicator(s, c)) == Scaled(c, |s|)
  {
    hide Sum, Scaled;
    SumLast(init, last, Indicator(s, c));
    SumCongruent(init, Indicator(s, c), Indicator(s - {last}, c));
    Removed(s, last);
    OneMore(c, |s - {last}|);
  }

  lemma Removed<T>(s: set<T>, x: T)
    ensures |s| == |s - {x}| + if x in s then 1 else 0
  {
    if x in s {
      assert s == s - {x} + {x};
    } else {
      assert s == s - {x};
    }
  }

  lemma OneMore(c: real, n: nat)
    ensures Scaled(c, n + 1) == Scaled(c, n) + c
  {
  }
}

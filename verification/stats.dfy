/** Column statistics with pandas' missing-value policy: sums and means skip
    missing entries (`skipna=True`), a sum of nothing is 0, a mean of nothing is
    missing. Also the integer power, Python's `int()` truncation and the centred
    rolling window that the pipeline and the calculators share. */
module Stats {
  import opened Wrappers

  /** True when some entry of the column is present (`notna().any()`). */
  predicate AnyPresent(xs: seq<Option<real>>) {
    exists i :: 0 <= i < |xs| && xs[i].Some?
  }

  /** Sum of the present entries; a missing entry contributes nothing. */
  function SumPresent(xs: seq<Option<real>>): real {
    if |xs| == 0 then 0.0 else SumPresent(xs[..|xs| - 1]) + xs[|xs| - 1].GetOr(0.0)
  }

  /** Number of present entries (`count()`), as a real so that means stay in
      real arithmetic. */
  function CountPresent(xs: seq<Option<real>>): (c: real)
    ensures c >= 0.0
  {
    if |xs| == 0 then 0.0
    else CountPresent(xs[..|xs| - 1]) + (if xs[|xs| - 1].Some? then 1.0 else 0.0)
  }

  /** A column has a positive count exactly when some entry is present. */
  lemma {:induction false} CountPositive(xs: seq<Option<real>>)
    ensures CountPresent(xs) > 0.0 <==> AnyPresent(xs)
  {
    if |xs| > 0 {
      var n := |xs| - 1;
      CountPositive(xs[..n]);
      if AnyPresent(xs[..n]) {
        var i :| 0 <= i < n && xs[..n][i].Some?;
        assert xs[i].Some?;
      }
      if AnyPresent(xs) && xs[n].None? {
        var i :| 0 <= i < |xs| && xs[i].Some?;
        assert xs[..n][i].Some?;
      }
    }
  }

  /** Mean of the present entries, missing when there is none (`Series.mean()`). */
  function MeanPresent(xs: seq<Option<real>>): (m: Option<real>)
    ensures m.Some? <==> AnyPresent(xs)
  {
    CountPositive(xs);
    if CountPresent(xs) == 0.0 then None else Some(SumPresent(xs) / CountPresent(xs))
  }

  /** `(xs * ws).sum()`: sum of the products over positions where both are present. */
  function WeightedSum(xs: seq<Option<real>>, ws: seq<Option<real>>): real
    requires |xs| == |ws|
  {
    if |xs| == 0 then 0.0
    else
      var n := |xs| - 1;
      WeightedSum(xs[..n], ws[..n])
        + (if xs[n].Some? && ws[n].Some? then xs[n].value * ws[n].value else 0.0)
  }

  /** q is x / y: y times q is x. */
  predicate IsQuotient(q: real, x: real, y: real) {
    q * y == x
  }

  /** x / y. */
  function Quotient(x: real, y: real): (q: real)
    requires y != 0.0
    ensures IsQuotient(q, x, y)
  {
    x / y
  }

  /** Every present entry lies in [lo, hi]. */
  predicate AllPresentWithin(xs: seq<Option<real>>, lo: real, hi: real) {
    forall i :: 0 <= i < |xs| && xs[i].Some? ==> lo <= xs[i].value <= hi
  }

  /** The largest present entry, or d when it is larger: an upper bound of
      the column that is itself one of its entries or d. */
  function MaxPresent(xs: seq<Option<real>>, d: real): (m: real)
    ensures forall i :: 0 <= i < |xs| && xs[i].Some? ==> xs[i].value <= m
    ensures m == d || exists i :: 0 <= i < |xs| && xs[i] == Some(m)
  {
    if |xs| == 0 then d
    else
      var n := |xs| - 1;
      var m0 := MaxPresent(xs[..n], d);
      assert forall i :: 0 <= i < n ==> xs[..n][i] == xs[i];
      if xs[n].Some? && xs[n].value > m0 then xs[n].value else m0
  }

  lemma SumAppend(xs: seq<Option<real>>, x: Option<real>)
    ensures SumPresent(xs + [x]) == SumPresent(xs) + x.GetOr(0.0)
  {
    assert (xs + [x])[..|xs|] == xs;
  }

  /** s lies between lo*t and hi*t: the sum of t units of weight, each carrying
      a value in [lo, hi]. Kept as a predicate so that the products stay out of
      sight of the solver except in the small lemmas below. */
  predicate Between(lo: real, hi: real, t: real, s: real) {
    lo * t <= s <= hi * t
  }

  lemma BetweenStart(lo: real, hi: real)
    ensures Between(lo, hi, 0.0, 0.0)
  {
  }

  /** Adding weight w with a value x in [lo, hi] keeps a sum between its bounds. */
  lemma BetweenStep(lo: real, hi: real, x: real, w: real, t: real, s: real)
    requires lo <= x <= hi && w >= 0.0
    requires Between(lo, hi, t, s)
    ensures Between(lo, hi, t + w, s + x * w)
  {
    assert lo * (t + w) == lo * t + lo * w;
    assert hi * (t + w) == hi * t + hi * w;
    assert lo * w <= x * w <= hi * w;
  }

  /** Dividing by a positive total weight turns the bounds into bounds of the mean. */
  lemma BetweenMean(lo: real, hi: real, t: real, s: real)
    requires t > 0.0 && Between(lo, hi, t, s)
    ensures lo <= s / t <= hi
  {
    assert s / t * t == s;
  }

  /** The sum of the present entries of a column whose entries lie in [lo, hi]
      lies between lo and hi times their number. */
  lemma {:induction false} SumBounds(xs: seq<Option<real>>, lo: real, hi: real)
    requires AllPresentWithin(xs, lo, hi)
    ensures Between(lo, hi, CountPresent(xs), SumPresent(xs))
  {
    if |xs| == 0 {
      BetweenStart(lo, hi);
    } else {
      var n := |xs| - 1;
      assert AllPresentWithin(xs[..n], lo, hi);
      SumBounds(xs[..n], lo, hi);
      if xs[n].Some? {
        BetweenStep(lo, hi, xs[n].value, 1.0, CountPresent(xs[..n]), SumPresent(xs[..n]));
      }
    }
  }

  /** A mean lies between the bounds of the entries it averages. */
  lemma MeanBounds(xs: seq<Option<real>>, lo: real, hi: real)
    requires AllPresentWithin(xs, lo, hi)
    requires AnyPresent(xs)
    ensures lo <= MeanPresent(xs).value <= hi
  {
    SumBounds(xs, lo, hi);
    CountPositive(xs);
    BetweenMean(lo, hi, CountPresent(xs), SumPresent(xs));
  }

  /** The mean of a column whose present entries all equal c is c. */
  lemma MeanConstant(xs: seq<Option<real>>, c: real)
    requires AllPresentWithin(xs, c, c)
    requires AnyPresent(xs)
    ensures MeanPresent(xs) == Some(c)
  {
    MeanBounds(xs, c, c);
  }

  /** A sum of non-negative entries is non-negative. */
  lemma {:induction false} SumNonnegative(xs: seq<Option<real>>)
    requires forall i :: 0 <= i < |xs| && xs[i].Some? ==> xs[i].value >= 0.0
    ensures SumPresent(xs) >= 0.0
  {
    if |xs| > 0 {
      var n := |xs| - 1;
      assert forall i :: 0 <= i < n && xs[..n][i].Some? ==> xs[..n][i].value >= 0.0 by {
        forall i | 0 <= i < n ensures xs[..n][i] == xs[i] { }
      }
      SumNonnegative(xs[..n]);
    }
  }

  /** A column with nothing present sums to 0. */
  lemma {:induction false} SumOfNothing(xs: seq<Option<real>>)
    requires !AnyPresent(xs)
    ensures SumPresent(xs) == 0.0
  {
    if |xs| > 0 {
      var n := |xs| - 1;
      assert !AnyPresent(xs[..n]) by {
        forall i | 0 <= i < n ensures xs[..n][i] == xs[i] { }
      }
      SumOfNothing(xs[..n]);
    }
  }

  /** Every weighted position carries a value, and weights are non-negative. */
  predicate WeightsCovered(xs: seq<Option<real>>, ws: seq<Option<real>>)
    requires |xs| == |ws|
  {
    forall i :: 0 <= i < |ws| && ws[i].Some? ==> ws[i].value >= 0.0 && xs[i].Some?
  }

  /** A weighted sum with non-negative weights over values in [lo, hi] lies
      between lo and hi times the total weight. */
  lemma {:induction false} WeightedBounds(xs: seq<Option<real>>, ws: seq<Option<real>>, lo: real, hi: real)
    requires |xs| == |ws|
    requires WeightsCovered(xs, ws)
    requires AllPresentWithin(xs, lo, hi)
    ensures Between(lo, hi, SumPresent(ws), WeightedSum(xs, ws))
  {
    if |xs| == 0 {
      BetweenStart(lo, hi);
    } else {
      var n := |xs| - 1;
      assert WeightsCovered(xs[..n], ws[..n]);
      assert AllPresentWithin(xs[..n], lo, hi);
      WeightedBounds(xs[..n], ws[..n], lo, hi);
      if ws[n].Some? {
        assert xs[n].Some?;
        BetweenStep(lo, hi, xs[n].value, ws[n].value, SumPresent(ws[..n]), WeightedSum(xs[..n], ws[..n]));
      }
    }
  }

  /** x raised to a natural power. */
  function Pow(x: real, e: nat): real {
    if e == 0 then 1.0 else x * Pow(x, e - 1)
  }

  lemma {:induction false} PowNonnegative(x: real, e: nat)
    requires x >= 0.0
    ensures Pow(x, e) >= 0.0
  {
    if e > 0 {
      PowNonnegative(x, e - 1);
      ProductNonnegative(x, Pow(x, e - 1));
    }
  }

  lemma ProductNonnegative(a: real, b: real)
    requires a >= 0.0 && b >= 0.0
    ensures a * b >= 0.0
  {
  }

  /** 0 <= a < b and 0 <= c <= d with d > 0 give a*c < b*d. */
  lemma ProductStrict(a: real, b: real, c: real, d: real)
    requires 0.0 <= a < b && 0.0 <= c <= d
    requires d > 0.0
    ensures a * c < b * d
  {
    assert a * c <= a * d;
    assert a * d < b * d;
  }

  /** On non-negative reals, raising to a positive power is strictly increasing. */
  lemma {:induction false} PowStrictlyIncreasing(x: real, y: real, e: nat)
    requires 0.0 <= x < y
    requires e >= 1
    ensures Pow(x, e) < Pow(y, e)
  {
    if e == 1 {
      assert Pow(x, 0) == 1.0 && Pow(y, 0) == 1.0;
    } else {
      PowStrictlyIncreasing(x, y, e - 1);
      PowNonnegative(x, e - 1);
      ProductStrict(x, y, Pow(x, e - 1), Pow(y, e - 1));
    }
  }

  /** Non-negative reals with equal positive powers are equal. */
  lemma PowInjective(x: real, y: real, e: nat)
    requires x >= 0.0 && y >= 0.0 && e >= 1
    requires Pow(x, e) == Pow(y, e)
    ensures x == y
  {
    if x < y {
      PowStrictlyIncreasing(x, y, e);
    } else if y < x {
      PowStrictlyIncreasing(y, x, e);
    }
  }

  /** On non-negative reals, raising to a power is monotone. */
  lemma PowMonotone(x: real, y: real, e: nat)
    requires 0.0 <= x <= y
    ensures Pow(x, e) <= Pow(y, e)
  {
    if x < y && e >= 1 {
      PowStrictlyIncreasing(x, y, e);
    }
  }

  /** Python's `int(x)` on a float: truncation toward zero. */
  function Trunc(x: real): (t: int)
    ensures x >= 0.0 ==> t as real <= x < t as real + 1.0
    ensures x < 0.0 ==> t as real - 1.0 < x <= t as real
  {
    if x >= 0.0 then x.Floor else -((-x).Floor)
  }

  /** `max(1, int(span / step))`: the number of samples a window of `span`
      seconds covers when samples are `step` seconds apart, at least one. */
  function WindowPoints(span: real, step: real): (k: nat)
    requires step != 0.0
    ensures k >= 1
    ensures span / step >= 1.0 ==> k as real <= span / step < k as real + 1.0
    ensures span / step < 2.0 ==> k == 1
  {
    var t := Trunc(span / step);
    if t < 1 then 1 else t
  }

  /** First index covered by a pandas centred rolling window of width w at
      position i (`center=True`), clipped to the column. */
  function WindowLo(w: nat, i: nat): (lo: nat)
    requires w >= 1
    ensures lo <= i
  {
    var off := (w - 1) / 2;
    if i + 1 + off >= w then i + 1 + off - w else 0
  }

  /** One past the last index covered by the same window, clipped to n. */
  function WindowHi(n: nat, w: nat, i: nat): (hi: nat)
    requires w >= 1 && i < n
    ensures i < hi <= n
  {
    var off := (w - 1) / 2;
    if i + off + 1 <= n then i + off + 1 else n
  }

  /** True when the window at i lies entirely inside the column (no clipping). */
  /** The centred window at i: (w - 1) / 2 positions after i and the rest
      before it, clipped to the column; it is complete exactly when it holds
      all w positions. */
  lemma CentredWindow(n: nat, w: nat, i: nat)
    requires w >= 1 && i < n
    ensures WindowLo(w, i) <= i < WindowHi(n, w, i)
    ensures WindowHi(n, w, i) == n || WindowHi(n, w, i) - 1 - i == (w - 1) / 2
    ensures WindowLo(w, i) == 0 || i - WindowLo(w, i) == w - 1 - (w - 1) / 2
    ensures WindowComplete(n, w, i) <==> WindowHi(n, w, i) - WindowLo(w, i) == w
  {
  }

  predicate WindowComplete(n: nat, w: nat, i: nat)
    requires w >= 1 && i < n
  {
    var off := (w - 1) / 2;
    i + 1 + off >= w && i + off + 1 <= n
  }

  /** The column restricted to the rows the mask keeps (`df[mask][col]`):
      dropped rows read as missing, so sums, counts and means over the result
      are those over the kept rows. */
  function Mask(xs: seq<Option<real>>, keep: seq<bool>): (ys: seq<Option<real>>)
    requires |xs| == |keep|
    ensures |ys| == |xs|
    ensures forall i :: 0 <= i < |xs| ==> ys[i] == (if keep[i] then xs[i] else None)
  {
    seq(|xs|, i requires 0 <= i < |xs| => if keep[i] then xs[i] else None)
  }

  /** Number of rows a mask keeps. */
  function CountTrue(bs: seq<bool>): (c: nat)
    ensures c <= |bs|
    ensures c == 0 <==> forall i :: 0 <= i < |bs| ==> !bs[i]
  {
    if |bs| == 0 then 0
    else
      var n := |bs| - 1;
      assert forall i :: 0 <= i < n ==> bs[..n][i] == bs[i];
      CountTrue(bs[..n]) + (if bs[n] then 1 else 0)
  }
}

/** Linear gap filling on a column with missing entries, as pandas'
    `Series.interpolate(method='linear', limit=g)` does it: positions are
    equally spaced, gaps are filled forward from the last present value, at
    most g entries per gap, a gap before the first present value is kept,
    and a gap after the last present value takes that value. */
module Interpolation {
  import opened Wrappers

  /** The last present position before j, if any. */
  function PrevPresent(xs: seq<Option<real>>, j: nat): (p: Option<nat>)
    requires j <= |xs|
    ensures p.Some? ==> p.value < j && xs[p.value].Some?
    ensures p.Some? ==> forall k :: p.value < k < j ==> xs[k].None?
    ensures p.None? ==> forall k :: 0 <= k < j ==> xs[k].None?
  {
    if j == 0 then None
    else if xs[j - 1].Some? then Some(j - 1)
    else PrevPresent(xs, j - 1)
  }

  /** The first present position after j, if any. */
  function NextPresent(xs: seq<Option<real>>, j: nat): (q: Option<nat>)
    requires j < |xs|
    ensures q.Some? ==> j < q.value < |xs| && xs[q.value].Some?
    ensures q.Some? ==> forall k :: j < k < q.value ==> xs[k].None?
    ensures q.None? ==> forall k :: j < k < |xs| ==> xs[k].None?
    decreases |xs| - j
  {
    if j + 1 == |xs| then None
    else if xs[j + 1].Some? then Some(j + 1)
    else NextPresent(xs, j + 1)
  }

  /** The point at position j on the line through (p, a) and (q, b). */
  function Lerp(a: real, b: real, p: int, j: int, q: int): real
    requires p < q
  {
    a + (b - a) * ((j - p) as real / (q - p) as real)
  }

  /** Between its two ends the line stays between their values. */
  lemma LerpBetween(a: real, b: real, p: int, j: int, q: int)
    requires p < j < q
    ensures a <= b ==> a <= Lerp(a, b, p, j, q) <= b
    ensures b <= a ==> b <= Lerp(a, b, p, j, q) <= a
  {
    var t := (j - p) as real / (q - p) as real;
    assert 0.0 < t < 1.0;
    var d := b - a;
    assert Lerp(a, b, p, j, q) == a + d * t;
    ScaleBetween(d, t);
    assert a <= b ==> 0.0 <= d * t <= d;
    assert b <= a ==> d <= d * t <= 0.0;
  }

  /** Scaling by a fraction t in (0, 1) moves a number toward 0 but not past it. */
  lemma ScaleBetween(d: real, t: real)
    requires 0.0 < t < 1.0
    ensures d >= 0.0 ==> 0.0 <= d * t <= d
    ensures d <= 0.0 ==> d <= d * t <= 0.0
  {
    var u := 1.0 - t;
    assert d - d * t == d * u;
    if d >= 0.0 {
      assert d * t >= 0.0 && d * u >= 0.0;
    } else {
      var e := -d;
      assert e * t >= 0.0 && e * u >= 0.0;
      assert d * t == -(e * t) && d * u == -(e * u);
    }
  }

  /** The entry at j after filling. */
  function FillAt(xs: seq<Option<real>>, limit: Option<nat>, j: nat): Option<real>
    requires j < |xs|
  {
    if xs[j].Some? then xs[j]
    else
      match PrevPresent(xs, j)
      case None => None
      case Some(p) =>
        if limit.Some? && j - p > limit.value then None
        else
          match NextPresent(xs, j)
          case None => xs[p]
          case Some(q) => Some(Lerp(xs[p].value, xs[q].value, p, j, q))
  }

  /** The filled column. `limit` is `None` for no limit. */
  function Interpolate(xs: seq<Option<real>>, limit: Option<nat>): (ys: seq<Option<real>>)
    ensures |ys| == |xs|
    ensures forall j :: 0 <= j < |xs| && xs[j].Some? ==> ys[j] == xs[j]
    ensures forall j :: 0 <= j < |xs| ==>
      (ys[j].Some? <==>
        (xs[j].Some? ||
         (PrevPresent(xs, j).Some? && (limit.None? || j - PrevPresent(xs, j).value <= limit.value))))
  {
    seq(|xs|, j requires 0 <= j < |xs| => FillAt(xs, limit, j))
  }

  /** A gap before the first present value stays missing. */
  lemma LeadingGapKept(xs: seq<Option<real>>, limit: Option<nat>, j: nat)
    requires j < |xs|
    requires forall k :: 0 <= k <= j ==> xs[k].None?
    ensures Interpolate(xs, limit)[j].None?
  {
  }

  /** A filled entry inside a gap lies between the present values that
      bracket the gap. */
  lemma InteriorBetween(xs: seq<Option<real>>, limit: Option<nat>, p: nat, j: nat, q: nat)
    requires p < j < q < |xs|
    requires xs[p].Some? && xs[q].Some?
    requires forall k :: p < k < q ==> xs[k].None?
    requires Interpolate(xs, limit)[j].Some?
    ensures xs[p].value <= xs[q].value ==>
      xs[p].value <= Interpolate(xs, limit)[j].value <= xs[q].value
    ensures xs[q].value <= xs[p].value ==>
      xs[q].value <= Interpolate(xs, limit)[j].value <= xs[p].value
  {
    var pp := PrevPresent(xs, j);
    assert pp.Some? by { assert xs[p].Some?; }
    assert pp.value == p;
    var nq := NextPresent(xs, j);
    assert nq.Some? by { assert xs[q].Some?; }
    assert nq.value == q;
    LerpBetween(xs[p].value, xs[q].value, p, j, q);
  }

  /** Filling never leaves the range of the present values: if every present
      entry lies in [lo, hi], so does every entry after filling. */
  lemma FilledWithin(xs: seq<Option<real>>, limit: Option<nat>, lo: real, hi: real)
    requires forall k :: 0 <= k < |xs| && xs[k].Some? ==> lo <= xs[k].value <= hi
    ensures forall j :: 0 <= j < |xs| && Interpolate(xs, limit)[j].Some? ==>
      lo <= Interpolate(xs, limit)[j].value <= hi
  {
    var ys := Interpolate(xs, limit);
    forall j | 0 <= j < |xs| && ys[j].Some?
      ensures lo <= ys[j].value <= hi
    {
      if xs[j].None? {
        var p := PrevPresent(xs, j).value;
        var nq := NextPresent(xs, j);
        if nq.Some? {
          LerpBetween(xs[p].value, xs[nq.value].value, p, j, nq.value);
        }
      }
    }
  }
}

/** The speed-variability stage (`CalculateSpeedVariability`, preprocess.py):
    a centred rolling sample standard deviation of the speed in km/h over a
    window sized from the mean time difference, with the gaps it leaves filled
    from the next value, then the previous one, then 0. The square root is a
    parameter of the model. */
module Variability {
  import opened Wrappers
  import opened Stats
  import opened Config
  import opened Models
  import opened Interpolation

  const StdKey := "speed_rolling_std_kmh"

  function SumReals(vs: seq<real>): real {
    if |vs| == 0 then 0.0 else SumReals(vs[..|vs| - 1]) + vs[|vs| - 1]
  }

  /** Sum of squared deviations from m. */
  function SquaredDeviations(vs: seq<real>, m: real): (q: real)
    ensures q >= 0.0
  {
    if |vs| == 0 then 0.0
    else
      var d := vs[|vs| - 1] - m;
      SquaredDeviations(vs[..|vs| - 1], m) + d * d
  }

  /** The sample variance (one degree of freedom removed). */
  function SampleVariance(vs: seq<real>): (v: real)
    requires |vs| >= 2
    ensures v >= 0.0
  {
    var m := SumReals(vs) / |vs| as real;
    SquaredDeviations(vs, m) / (|vs| - 1) as real
  }

  lemma {:induction false} SumConstant(vs: seq<real>, c: real)
    requires forall i :: 0 <= i < |vs| ==> vs[i] == c
    ensures SumReals(vs) == |vs| as real * c
  {
    if |vs| > 0 {
      var n := |vs| - 1;
      SumConstant(vs[..n], c);
      assert (n + 1) as real * c == n as real * c + c;
    }
  }

  lemma {:induction false} NoDeviation(vs: seq<real>, c: real)
    requires forall i :: 0 <= i < |vs| ==> vs[i] == c
    ensures SquaredDeviations(vs, c) == 0.0
  {
    if |vs| > 0 {
      NoDeviation(vs[..|vs| - 1], c);
    }
  }

  /** Identical values have no variance. */
  lemma ConstantVariance(vs: seq<real>, c: real)
    requires |vs| >= 2
    requires forall i :: 0 <= i < |vs| ==> vs[i] == c
    ensures SampleVariance(vs) == 0.0
  {
    SumConstant(vs, c);
    assert SumReals(vs) / |vs| as real == c;
    NoDeviation(vs, c);
  }

  /** The present values of a column none of whose entries is missing. */
  function Values(xs: seq<Option<real>>): (vs: seq<real>)
    requires forall k :: 0 <= k < |xs| ==> xs[k].Some?
    ensures |vs| == |xs|
    ensures forall k :: 0 <= k < |xs| ==> vs[k] == xs[k].value
  {
    seq(|xs|, k requires 0 <= k < |xs| => xs[k].value)
  }

  /** The rolling standard deviation at i (`rolling(w, center=True).std()`):
      present only when the window lies inside the column, holds at least
      two values and none of them is missing. */
  function RawStd(xs: seq<Option<real>>, w: nat, i: nat, sqrt: real -> real): (s: Option<real>)
    requires w >= 1 && i < |xs|
    ensures s.Some? <==>
      && w >= 2
      && WindowComplete(|xs|, w, i)
      && forall k :: WindowLo(w, i) <= k < WindowHi(|xs|, w, i) ==> xs[k].Some?
  {
    var lo := WindowLo(w, i);
    var hi := WindowHi(|xs|, w, i);
    if w >= 2 && WindowComplete(|xs|, w, i) && forall k :: lo <= k < hi ==> xs[k].Some? then
      var window := xs[lo..hi];
      assert forall k :: 0 <= k < |window| ==> window[k].Some?;
      Some(sqrt(SampleVariance(Values(window))))
    else None
  }

  function RawStds(xs: seq<Option<real>>, w: nat, sqrt: real -> real): (ss: seq<Option<real>>)
    requires w >= 1
    ensures |ss| == |xs|
    ensures forall i :: 0 <= i < |xs| ==> ss[i] == RawStd(xs, w, i, sqrt)
  {
    seq(|xs|, i requires 0 <= i < |xs| => RawStd(xs, w, i, sqrt))
  }

  /** `bfill().ffill().fillna(0)` at one position. */
  function FillValue(raw: seq<Option<real>>, i: nat): real
    requires i < |raw|
  {
    if raw[i].Some? then raw[i].value
    else
      match NextPresent(raw, i)
      case Some(q) => raw[q].value
      case None =>
        match PrevPresent(raw, i)
        case Some(p) => raw[p].value
        case None => 0.0
  }

  /** The filled column: computed values kept, each gap taking a computed
      value from the column, and all 0 when no window produced a value. */
  function FillGaps(raw: seq<Option<real>>): (out: seq<real>)
    ensures |out| == |raw|
    ensures forall i :: 0 <= i < |raw| && raw[i].Some? ==> out[i] == raw[i].value
    ensures !AnyPresent(raw) ==> forall i :: 0 <= i < |raw| ==> out[i] == 0.0
    ensures AnyPresent(raw) ==> forall i :: 0 <= i < |raw| ==>
      exists j :: 0 <= j < |raw| && raw[j] == Some(out[i])
  {
    FillValuesFromRaw(raw);
    seq(|raw|, i requires 0 <= i < |raw| => FillValue(raw, i))
  }

  /** Once some value was computed, every filled value is one of them. */
  lemma FillValuesFromRaw(raw: seq<Option<real>>)
    ensures AnyPresent(raw) ==> forall i :: 0 <= i < |raw| ==>
      exists j :: 0 <= j < |raw| && raw[j] == Some(FillValue(raw, i))
  {
    if AnyPresent(raw) {
      forall i | 0 <= i < |raw|
        ensures exists j :: 0 <= j < |raw| && raw[j] == Some(FillValue(raw, i))
      {
        var j :| 0 <= j < |raw| && raw[j].Some?;
        if raw[i].Some? {
          assert raw[i] == Some(FillValue(raw, i));
        } else if j > i || NextPresent(raw, i).Some? {
          var q := NextPresent(raw, i).value;
          assert raw[q] == Some(FillValue(raw, i));
        } else {
          var p := PrevPresent(raw, i).value;
          assert raw[p] == Some(FillValue(raw, i));
        }
      }
    }
  }

  /** The mean time difference, 1 s when it is not positive. */
  function MeanDt(rs: seq<Record>): (m: real)
    ensures m > 0.0
    ensures MeanPresent(Column(rs, TimeDiffOf)).Some? && MeanPresent(Column(rs, TimeDiffOf)).value > 0.0 ==>
      m == MeanPresent(Column(rs, TimeDiffOf)).value
  {
    var mean := MeanPresent(Column(rs, TimeDiffOf));
    if mean.None? || mean.value <= 0.0 then 1.0 else mean.value
  }

  /** The configured length of the rolling window, in seconds. */
  function RollingSeconds(conf: Conf): real
    requires NumericOrAbsent(conf, RollingStdKey)
  {
    NumberOr(conf, RollingStdKey, RollingWindowSpeedStd as real)
  }

  /** Number of samples in the rolling window: the whole number of mean
      spacings that fit in the configured seconds, and at least one. */
  function StdWindow(rs: seq<Record>, conf: Conf): (w: nat)
    requires NumericOrAbsent(conf, RollingStdKey)
    ensures w >= 1
    ensures RollingSeconds(conf) / MeanDt(rs) >= 1.0 ==>
      w as real <= RollingSeconds(conf) / MeanDt(rs) < w as real + 1.0
    ensures RollingSeconds(conf) / MeanDt(rs) < 2.0 ==> w == 1
  {
    WindowPoints(RollingSeconds(conf), MeanDt(rs))
  }

  /** The filled rolling deviations of the ride. */
  function Deviations(rs: seq<Record>, conf: Conf, sqrt: real -> real): (ds: seq<real>)
    requires NumericOrAbsent(conf, RollingStdKey)
    ensures |ds| == |rs|
  {
    FillGaps(RawStds(Column(rs, SpeedKmhOf), StdWindow(rs, conf), sqrt))
  }

  /** The stage. A KeyError when no record has a time difference, then when
      none has a speed in km/h; otherwise every record gains its filled
      rolling deviation, and nothing else changes. */
  function SpeedVariability(rs: seq<Record>, conf: Conf, sqrt: real -> real): (r: Result<seq<Record>>)
    requires NumericOrAbsent(conf, RollingStdKey)
    ensures !HasColumn(rs, TimeDiffOf) ==> r == Err(KeyError("time_diff_seconds"))
    ensures HasColumn(rs, TimeDiffOf) && !HasColumn(rs, SpeedKmhOf) ==> r == Err(KeyError("speed_kmh"))
    ensures r.Ok? <==> HasColumn(rs, TimeDiffOf) && HasColumn(rs, SpeedKmhOf)
    ensures r.Ok? ==> |r.value| == |rs|
    ensures r.Ok? ==> forall i :: 0 <= i < |rs| ==>
      r.value[i] == WithExtra(rs[i], StdKey, Some(Deviations(rs, conf, sqrt)[i]))
  {
    if !HasColumn(rs, TimeDiffOf) then Err(KeyError("time_diff_seconds"))
    else if !HasColumn(rs, SpeedKmhOf) then Err(KeyError("speed_kmh"))
    else
      var ds := Deviations(rs, conf, sqrt);
      Ok(seq(|rs|, i requires 0 <= i < |rs| => WithExtra(rs[i], StdKey, Some(ds[i]))))
  }

  /** The stored deviation of a record. */
  function StdOf(r: Record): Option<real> {
    ExtraNum(r, StdKey)
  }

  /** After the stage no record lacks a deviation. */
  lemma DeviationsPresent(rs: seq<Record>, conf: Conf, sqrt: real -> real)
    requires NumericOrAbsent(conf, RollingStdKey)
    requires SpeedVariability(rs, conf, sqrt).Ok?
    ensures forall i :: 0 <= i < |rs| ==> StdOf(SpeedVariability(rs, conf, sqrt).value[i]).Some?
  {
  }

  /** At constant speed, with a square root that maps 0 to 0, every
      deviation is 0. */
  lemma ConstantSpeedNoVariability(rs: seq<Record>, conf: Conf, sqrt: real -> real, c: real)
    requires NumericOrAbsent(conf, RollingStdKey)
    requires sqrt(0.0) == 0.0
    requires forall i :: 0 <= i < |rs| ==> rs[i].speedKmh == Some(c)
    ensures forall i :: 0 <= i < |rs| ==> Deviations(rs, conf, sqrt)[i] == 0.0
  {
    var xs := Column(rs, SpeedKmhOf);
    var w := StdWindow(rs, conf);
    var raw := RawStds(xs, w, sqrt);
    forall i | 0 <= i < |raw| && raw[i].Some?
      ensures raw[i].value == 0.0
    {
      var lo := WindowLo(w, i);
      var hi := WindowHi(|xs|, w, i);
      var vs := Values(xs[lo..hi]);
      assert forall k :: 0 <= k < |vs| ==> vs[k] == c;
      ConstantVariance(vs, c);
    }
    var out := FillGaps(raw);
    forall i | 0 <= i < |raw|
      ensures out[i] == 0.0
    {
      if AnyPresent(raw) {
        var j :| 0 <= j < |raw| && raw[j] == Some(out[i]);
      }
    }
  }
}

/** The non-cruising stage (`MarkNonCruising`, preprocess.py): a sample stays
    cruising only if it was cruising, does not accelerate harder than the
    threshold, does not vary in speed much more than the cruising samples
    usually do, and is not slower than the minimum cruising speed. A missing
    reading never takes a sample out (comparisons with NaN are false). */
module NonCruising {
  import opened Wrappers
  import opened Stats
  import opened Config
  import opened Models
  import opened Variability

  /** Fallback average deviation when there is none to average. */
  const FallbackStd: real := 0.5
  /** Below this average deviation the factor alone is the threshold. */
  const MinUsefulStd: real := 0.01

  function Abs(x: real): real {
    if x < 0.0 then -x else x
  }

  /** The deviations of the samples that are cruising so far, or of all
      samples when none is. */
  function BaselineColumn(rs: seq<Record>): (xs: seq<Option<real>>)
    ensures |xs| == |rs|
  {
    var flags := CruisingFlags(rs);
    if CountTrue(flags) > 0 then Mask(Column(rs, StdOf), flags) else Column(rs, StdOf)
  }

  /** The average deviation of the cruising samples, with its fallbacks. */
  function BaselineStd(rs: seq<Record>): (a: real)
    ensures AnyPresent(BaselineColumn(rs)) ==> a == MeanPresent(BaselineColumn(rs)).value
    ensures !AnyPresent(BaselineColumn(rs)) ==> a == FallbackStd
  {
    MeanPresent(BaselineColumn(rs)).GetOr(FallbackStd)
  }

  /** The deviation above which a sample is too erratic to be cruising. */
  function StdThreshold(avg: real, factor: real): (t: real)
    ensures avg > MinUsefulStd ==> t == avg * factor
    ensures avg <= MinUsefulStd ==> t == factor
  {
    if avg > MinUsefulStd then avg * factor else factor
  }

  /** The three tests that take a sample out of cruising. */
  predicate Accelerating(r: Record, accThr: real) {
    r.acceleration.Some? && Abs(r.acceleration.value) > accThr
  }

  predicate Erratic(r: Record, stdThr: real) {
    StdOf(r).Some? && StdOf(r).value > stdThr
  }

  predicate TooSlow(r: Record, minSpeed: real) {
    r.speedKmh.Some? && r.speedKmh.value < minSpeed
  }

  predicate ConfTyped(conf: Conf) {
    NumericOrAbsent(conf, AccelerationKey) && NumericOrAbsent(conf, StdFactorKey)
      && NumericOrAbsent(conf, MinCruisingSpeedKey)
  }

  function AccThreshold(conf: Conf): real
    requires ConfTyped(conf)
  {
    NumberOr(conf, AccelerationKey, AccelerationThresholdMps2)
  }

  function StdFactor(conf: Conf): real
    requires ConfTyped(conf)
  {
    NumberOr(conf, StdFactorKey, SpeedStdDevThresholdFactor)
  }

  function MinSpeed(conf: Conf): real
    requires ConfTyped(conf)
  {
    NumberOr(conf, MinCruisingSpeedKey, MinCruisingSpeedKmh)
  }

  /** Whether sample r keeps its cruising flag, given the ride's thresholds. */
  predicate KeepsCruising(r: Record, accThr: real, stdThr: real, minSpeed: real) {
    r.isCruising && !Accelerating(r, accThr) && !Erratic(r, stdThr) && !TooSlow(r, minSpeed)
  }

  /** The stage. A KeyError for an empty ride, then for a missing deviation,
      acceleration or km/h speed column, in the order the stage reads them.
      Otherwise only the cruising flags change, each kept exactly when the
      sample passes all three tests against the ride's thresholds. */
  function MarkNonCruising(rs: seq<Record>, conf: Conf): (r: Result<seq<Record>>)
    requires ConfTyped(conf)
    ensures |rs| == 0 ==> r == Err(KeyError("is_cruising"))
    ensures |rs| > 0 && !HasColumn(rs, StdOf) ==> r == Err(KeyError(StdKey))
    ensures |rs| > 0 && HasColumn(rs, StdOf) && !HasColumn(rs, AccelerationOf) ==>
      r == Err(KeyError("acceleration"))
    ensures |rs| > 0 && HasColumn(rs, StdOf) && HasColumn(rs, AccelerationOf) && !HasColumn(rs, SpeedKmhOf) ==>
      r == Err(KeyError("speed_kmh"))
    ensures r.Ok? <==> |rs| > 0 && HasColumn(rs, StdOf) && HasColumn(rs, AccelerationOf) && HasColumn(rs, SpeedKmhOf)
    ensures r.Ok? ==> |r.value| == |rs|
    ensures r.Ok? ==> forall i :: 0 <= i < |rs| ==> r.value[i] == rs[i].(isCruising := r.value[i].isCruising)
    ensures r.Ok? ==> forall i :: 0 <= i < |rs| ==>
      (r.value[i].isCruising <==> KeepsCruising(rs[i], AccThreshold(conf),
        StdThreshold(BaselineStd(rs), StdFactor(conf)), MinSpeed(conf)))
  {
    if |rs| == 0 then Err(KeyError("is_cruising"))
    else if !HasColumn(rs, StdOf) then Err(KeyError(StdKey))
    else if !HasColumn(rs, AccelerationOf) then Err(KeyError("acceleration"))
    else if !HasColumn(rs, SpeedKmhOf) then Err(KeyError("speed_kmh"))
    else
      var accThr := AccThreshold(conf);
      var stdThr := StdThreshold(BaselineStd(rs), StdFactor(conf));
      var minSpeed := MinSpeed(conf);
      Ok(seq(|rs|, i requires 0 <= i < |rs| =>
        rs[i].(isCruising := KeepsCruising(rs[i], accThr, stdThr, minSpeed))))
  }

  /** The stage only takes samples out of cruising, never back in. */
  lemma OnlyClears(rs: seq<Record>, conf: Conf, i: nat)
    requires ConfTyped(conf)
    requires MarkNonCruising(rs, conf).Ok? && i < |rs|
    requires MarkNonCruising(rs, conf).value[i].isCruising
    ensures rs[i].isCruising
    ensures !TooSlow(rs[i], MinSpeed(conf)) && !Accelerating(rs[i], AccThreshold(conf))
  {
  }

  /** When some sample is cruising and every sample has the same deviation
      c, the average deviation is c. */
  lemma SteadyBaseline(rs: seq<Record>, c: real)
    requires exists i :: 0 <= i < |rs| && rs[i].isCruising
    requires forall i :: 0 <= i < |rs| ==> StdOf(rs[i]) == Some(c)
    ensures BaselineStd(rs) == c
  {
    var flags := CruisingFlags(rs);
    var k :| 0 <= k < |rs| && rs[k].isCruising;
    assert CountTrue(flags) > 0 by { assert flags[k]; }
    var xs := BaselineColumn(rs);
    assert xs[k] == Some(c);
    assert AllPresentWithin(xs, c, c);
    MeanConstant(xs, c);
  }

  /** So with a factor of at least 1 the variability test takes no sample out. */
  lemma SteadyVariationNotErratic(rs: seq<Record>, conf: Conf, c: real)
    requires ConfTyped(conf) && StdFactor(conf) >= 1.0 && c >= 0.0
    requires exists i :: 0 <= i < |rs| && rs[i].isCruising
    requires forall i :: 0 <= i < |rs| ==> StdOf(rs[i]) == Some(c)
    ensures forall i :: 0 <= i < |rs| ==> !Erratic(rs[i], StdThreshold(BaselineStd(rs), StdFactor(conf)))
  {
    SteadyBaseline(rs, c);
    var f := StdFactor(conf);
    if c > MinUsefulStd {
      assert c * f >= c * 1.0;
    }
  }

  /** The average deviation lies within the range of the deviations it
      averages, when there are any. */
  lemma BaselineWithin(rs: seq<Record>, lo: real, hi: real)
    requires forall i :: 0 <= i < |rs| && StdOf(rs[i]).Some? ==> lo <= StdOf(rs[i]).value <= hi
    requires AnyPresent(BaselineColumn(rs))
    ensures lo <= BaselineStd(rs) <= hi
  {
    var xs := BaselineColumn(rs);
    assert AllPresentWithin(xs, lo, hi);
    MeanBounds(xs, lo, hi);
  }
}

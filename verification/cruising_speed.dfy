/** The cruising-speed calculator (`CruisingSpeedCalculator`, compute.py): the
    time-weighted mean speed over the samples still flagged cruising, with
    time-weighted means of power, cadence and heart rate when the cruising
    samples carry them. Printed warnings are left out; the columns the
    debugging printout reads still raise their KeyErrors. */
module CruisingSpeed {
  import opened Wrappers
  import opened Stats
  import opened Models
  import Config
  import Parser
  import NonCruising

  /** Heart rate is not a declared field; the parser stores it in `extra`. */
  function HeartRateOf(r: Record): Option<real> { ExtraNum(r, Parser.HeartRateKey) }

  /** The calculator's answer: the two failures it reports with a message,
      or the metrics of a success. */
  datatype Outcome =
    | NoCruisingData
    | AbnormalCruisingTime(avgSpeed: Option<real>)
    | Cruising(speed: real, avgSpeed: Option<real>, cruisingPoints: nat, totalPoints: nat,
               cruisingTime: real, avgPower: Option<real>, avgCadence: Option<real>,
               avgHeartRate: Option<real>)
  {
    predicate Success() { Cruising? }

    function Message(): (m: Option<string>)
      ensures m.None? <==> Success()
    {
      match this
      case NoCruisingData => Some("No cruising data identified")
      case AbnormalCruisingTime(_) => Some("Abnormal total cruising time")
      case Cruising(_, _, _, _, _, _, _, _) => None
    }
  }

  /** Some sample is still flagged cruising. */
  predicate AnyCruising(rs: seq<Record>) {
    exists i :: 0 <= i < |rs| && rs[i].isCruising
  }

  /** A column restricted to the cruising samples (`cruising_data[col]`). */
  function CruisingColumn(rs: seq<Record>, f: Record -> Option<real>): (xs: seq<Option<real>>)
    ensures |xs| == |rs|
    ensures forall i :: 0 <= i < |rs| ==> xs[i] == (if rs[i].isCruising then f(rs[i]) else None)
  {
    Mask(Column(rs, f), CruisingFlags(rs))
  }

  /** Total cruising time: the time differences of the cruising samples summed. */
  function CruisingTime(rs: seq<Record>): real {
    SumPresent(CruisingColumn(rs, TimeDiffOf))
  }

  /** A channel averaged over the cruising samples, each weighted by its time
      difference, over the total cruising time. */
  function TimeWeightedMean(rs: seq<Record>, f: Record -> Option<real>): (m: real)
    requires CruisingTime(rs) > 0.0
    ensures IsQuotient(m, WeightedSum(CruisingColumn(rs, f), CruisingColumn(rs, TimeDiffOf)), CruisingTime(rs))
  {
    Quotient(WeightedSum(CruisingColumn(rs, f), CruisingColumn(rs, TimeDiffOf)), CruisingTime(rs))
  }

  /** An optional metric: reported exactly when some cruising sample carries
      the channel. */
  function OptionalMetric(rs: seq<Record>, f: Record -> Option<real>): (m: Option<real>)
    requires CruisingTime(rs) > 0.0
    ensures m.Some? <==> exists i :: 0 <= i < |rs| && rs[i].isCruising && f(rs[i]).Some?
    ensures m.Some? ==> m.value == TimeWeightedMean(rs, f)
  {
    var xs := CruisingColumn(rs, f);
    if AnyPresent(xs) then Some(TimeWeightedMean(rs, f))
    else
      assert forall i :: 0 <= i < |rs| && rs[i].isCruising ==> xs[i] == f(rs[i]);
      None
  }

  /** The number of cruising samples is positive exactly when one exists. */
  lemma CruisingCount(rs: seq<Record>)
    ensures CountTrue(CruisingFlags(rs)) >= 1 <==> AnyCruising(rs)
  {
    var flags := CruisingFlags(rs);
    if AnyCruising(rs) {
      var i :| 0 <= i < |rs| && rs[i].isCruising;
      assert flags[i];
    }
  }

  /** What the calculator reports once every column it reads is there: no
      cruising data, an abnormal cruising time, or the metrics. */
  function Summary(rs: seq<Record>): (o: Outcome)
    ensures o.NoCruisingData? <==> !AnyCruising(rs)
    ensures o.AbnormalCruisingTime? <==> AnyCruising(rs) && CruisingTime(rs) <= 0.0
    ensures !o.NoCruisingData? ==> o.avgSpeed == MeanPresent(CruisingColumn(rs, SpeedKmhOf))
    ensures o.Cruising? ==>
      && o.cruisingTime == CruisingTime(rs) > 0.0
      && o.speed == TimeWeightedMean(rs, SpeedKmhOf)
      && 1 <= o.cruisingPoints == CountTrue(CruisingFlags(rs)) <= o.totalPoints == |rs|
      && o.avgPower == OptionalMetric(rs, PowerOf)
      && o.avgCadence == OptionalMetric(rs, CadenceOf)
      && o.avgHeartRate == OptionalMetric(rs, HeartRateOf)
  {
    CruisingCount(rs);
    if !AnyCruising(rs) then NoCruisingData
    else
      var avgSpeed := MeanPresent(CruisingColumn(rs, SpeedKmhOf));
      var t := CruisingTime(rs);
      if t <= 0.0 then AbnormalCruisingTime(avgSpeed)
      else
        Cruising(TimeWeightedMean(rs, SpeedKmhOf), avgSpeed, CountTrue(CruisingFlags(rs)), |rs|, t,
          OptionalMetric(rs, PowerOf), OptionalMetric(rs, CadenceOf), OptionalMetric(rs, HeartRateOf))
  }

  /** The calculator. A KeyError for an empty ride (no `is_cruising` column).
      With no cruising sample, the debugging printout reads the km/h speed and
      acceleration columns; otherwise the calculator reads the time-difference
      and km/h columns. A KeyError for the first of these that is missing,
      else the summary. */
  function Calculate(rs: seq<Record>): (r: Result<Outcome>)
    ensures |rs| == 0 ==> r == Err(KeyError("is_cruising"))
    ensures |rs| > 0 && !AnyCruising(rs) && !HasColumn(rs, SpeedKmhOf) ==> r == Err(KeyError("speed_kmh"))
    ensures |rs| > 0 && !AnyCruising(rs) && HasColumn(rs, SpeedKmhOf) && !HasColumn(rs, AccelerationOf) ==>
      r == Err(KeyError("acceleration"))
    ensures AnyCruising(rs) && !HasColumn(rs, TimeDiffOf) ==> r == Err(KeyError("time_diff_seconds"))
    ensures AnyCruising(rs) && HasColumn(rs, TimeDiffOf) && !HasColumn(rs, SpeedKmhOf) ==>
      r == Err(KeyError("speed_kmh"))
    ensures r.Ok? <==>
      |rs| > 0 && HasColumn(rs, SpeedKmhOf)
      && (if AnyCruising(rs) then HasColumn(rs, TimeDiffOf) else HasColumn(rs, AccelerationOf))
    ensures r.Ok? ==> r.value == Summary(rs)
  {
    if |rs| == 0 then Err(KeyError("is_cruising"))
    else if !AnyCruising(rs) then
      if !HasColumn(rs, SpeedKmhOf) then Err(KeyError("speed_kmh"))
      else if !HasColumn(rs, AccelerationOf) then Err(KeyError("acceleration"))
      else Ok(Summary(rs))
    else if !HasColumn(rs, TimeDiffOf) then Err(KeyError("time_diff_seconds"))
    else if !HasColumn(rs, SpeedKmhOf) then Err(KeyError("speed_kmh"))
    else Ok(Summary(rs))
  }

  /** On the cruising samples: time differences are non-negative, every
      sample that carries weight has a value of the channel, and every value
      lies in [lo, hi]. */
  predicate WeightedWithin(rs: seq<Record>, f: Record -> Option<real>, lo: real, hi: real) {
    forall i :: 0 <= i < |rs| && rs[i].isCruising ==>
      && (rs[i].timeDiff.Some? ==> rs[i].timeDiff.value >= 0.0 && f(rs[i]).Some?)
      && (f(rs[i]).Some? ==> lo <= f(rs[i]).value <= hi)
  }

  /** A time-weighted mean over such samples lies within the range of their
      values. */
  lemma TimeWeightedWithin(rs: seq<Record>, f: Record -> Option<real>, lo: real, hi: real)
    requires CruisingTime(rs) > 0.0
    requires WeightedWithin(rs, f, lo, hi)
    ensures lo <= TimeWeightedMean(rs, f) <= hi
  {
    var xs := CruisingColumn(rs, f);
    var ws := CruisingColumn(rs, TimeDiffOf);
    assert WeightsCovered(xs, ws);
    assert AllPresentWithin(xs, lo, hi);
    WeightedBounds(xs, ws, lo, hi);
    BetweenMean(lo, hi, SumPresent(ws), WeightedSum(xs, ws));
  }

  /** So, when the cruising time is positive and every cruising sample with a
      time difference carries the channel, the metric is reported and lies
      within the range of the channel's values. */
  lemma MetricWithin(rs: seq<Record>, f: Record -> Option<real>, lo: real, hi: real)
    requires CruisingTime(rs) > 0.0
    requires WeightedWithin(rs, f, lo, hi)
    ensures OptionalMetric(rs, f).Some?
    ensures lo <= OptionalMetric(rs, f).value <= hi
  {
    var ws := CruisingColumn(rs, TimeDiffOf);
    if !AnyPresent(ws) {
      SumOfNothing(ws);
    }
    var i :| 0 <= i < |ws| && ws[i].Some?;
    assert rs[i].isCruising && f(rs[i]).Some?;
    TimeWeightedWithin(rs, f, lo, hi);
  }

  /** The cruising speed lies within the range of the cruising speeds that
      carry weight, and so does the plain average speed. */
  lemma CruisingSpeedWithin(rs: seq<Record>, lo: real, hi: real)
    requires Summary(rs).Cruising?
    requires WeightedWithin(rs, SpeedKmhOf, lo, hi)
    ensures lo <= Summary(rs).speed <= hi
    ensures Summary(rs).avgSpeed.Some?
    ensures lo <= Summary(rs).avgSpeed.value <= hi
  {
    MetricWithin(rs, SpeedKmhOf, lo, hi);
    var xs := CruisingColumn(rs, SpeedKmhOf);
    assert AllPresentWithin(xs, lo, hi);
    MeanBounds(xs, lo, hi);
  }

  /** Riding at one constant speed gives that speed as the cruising speed
      and as the average speed. */
  lemma ConstantCruisingSpeed(rs: seq<Record>, c: real)
    requires Summary(rs).Cruising?
    requires forall i :: 0 <= i < |rs| && rs[i].isCruising ==>
      rs[i].speedKmh == Some(c) && (rs[i].timeDiff.Some? ==> rs[i].timeDiff.value >= 0.0)
    ensures Summary(rs).speed == c
    ensures Summary(rs).avgSpeed == Some(c)
  {
    CruisingSpeedWithin(rs, c, c);
  }

  /** Rides of the same length with the same flags that agree on every
      cruising sample have the same cruising columns. */
  lemma SameCruisingColumns(rs: seq<Record>, ss: seq<Record>, f: Record -> Option<real>)
    requires |rs| == |ss|
    requires forall i :: 0 <= i < |rs| ==> rs[i].isCruising == ss[i].isCruising
    requires forall i :: 0 <= i < |rs| && rs[i].isCruising ==> rs[i] == ss[i]
    ensures CruisingColumn(rs, f) == CruisingColumn(ss, f)
  {
  }

  /** Only the cruising samples matter: two rides of the same length with the
      same flags that agree on every cruising sample have the same summary. */
  lemma OnlyCruisingSamplesCount(rs: seq<Record>, ss: seq<Record>)
    requires |rs| == |ss|
    requires forall i :: 0 <= i < |rs| ==> rs[i].isCruising == ss[i].isCruising
    requires forall i :: 0 <= i < |rs| && rs[i].isCruising ==> rs[i] == ss[i]
    ensures Summary(rs) == Summary(ss)
  {
    assert CruisingFlags(rs) == CruisingFlags(ss);
    SameCruisingColumns(rs, ss, TimeDiffOf);
    SameCruisingColumns(rs, ss, SpeedKmhOf);
    SameCruisingColumns(rs, ss, PowerOf);
    SameCruisingColumns(rs, ss, CadenceOf);
    SameCruisingColumns(rs, ss, HeartRateOf);
    assert AnyCruising(rs) == AnyCruising(ss) by {
      CruisingCount(rs);
      CruisingCount(ss);
    }
    assert CruisingTime(rs) == CruisingTime(ss);
    if CruisingTime(rs) > 0.0 {
      assert TimeWeightedMean(rs, SpeedKmhOf) == TimeWeightedMean(ss, SpeedKmhOf);
      assert OptionalMetric(rs, PowerOf) == OptionalMetric(ss, PowerOf);
      assert OptionalMetric(rs, CadenceOf) == OptionalMetric(ss, CadenceOf);
      assert OptionalMetric(rs, HeartRateOf) == OptionalMetric(ss, HeartRateOf);
    }
  }

  /** A sample the non-cruising stage leaves cruising kept its time
      difference and speed, and is not slower than the minimum speed. */
  lemma KeptNotTooSlow(rs: seq<Record>, conf: Config.Conf)
    requires NonCruising.ConfTyped(conf) && NonCruising.MarkNonCruising(rs, conf).Ok?
    ensures var out := NonCruising.MarkNonCruising(rs, conf).value;
      forall i :: 0 <= i < |out| && out[i].isCruising ==>
        && out[i].timeDiff == rs[i].timeDiff && out[i].speedKmh == rs[i].speedKmh
        && !NonCruising.TooSlow(out[i], NonCruising.MinSpeed(conf))
  {
    var out := NonCruising.MarkNonCruising(rs, conf).value;
    forall i | 0 <= i < |out| && out[i].isCruising
      ensures out[i].timeDiff == rs[i].timeDiff && out[i].speedKmh == rs[i].speedKmh
      ensures !NonCruising.TooSlow(out[i], NonCruising.MinSpeed(conf))
    {
      NonCruising.OnlyClears(rs, conf, i);
    }
  }

  /** After the non-cruising stage, a ride whose time differences are
      non-negative and come with a km/h speed cruises no slower than the
      minimum cruising speed. */
  lemma CruisingAtLeastMinSpeed(rs: seq<Record>, conf: Config.Conf)
    requires NonCruising.ConfTyped(conf) && NonCruising.MarkNonCruising(rs, conf).Ok?
    requires forall i :: 0 <= i < |rs| && rs[i].timeDiff.Some? ==>
      rs[i].timeDiff.value >= 0.0 && rs[i].speedKmh.Some?
    requires Summary(NonCruising.MarkNonCruising(rs, conf).value).Cruising?
    ensures Summary(NonCruising.MarkNonCruising(rs, conf).value).speed >= NonCruising.MinSpeed(conf)
  {
    var out := NonCruising.MarkNonCruising(rs, conf).value;
    var lo := NonCruising.MinSpeed(conf);
    var hi := MaxPresent(Column(out, SpeedKmhOf), lo);
    KeptNotTooSlow(rs, conf);
    assert |out| == |rs|;
    assert WeightedWithin(out, SpeedKmhOf, lo, hi);
    CruisingSpeedWithin(out, lo, hi);
  }
}

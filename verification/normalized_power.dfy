/** The Normalized Power calculator (`NormalizedPowerCalculator`,
    compute.py): a centred rolling mean of power over a window of about
    `np_window_size_seconds`, each rolling mean raised to the exponent, the
    mean of those powers, and its root of the same order. The root is a
    parameter of the model; lemmas require it to be exact only at the one point
    they need. */
module NormalizedPower {
  import opened Wrappers
  import opened Stats
  import opened Config
  import opened Models

  /** The calculator's answer: no power channel, a ride shorter than the
      window (with the average power and the window size the message quotes),
      or the metrics. */
  datatype Outcome =
    | NoPowerData
    | RideTooShort(avgPower: real, windowSize: real)
    | Normalized(np: real, avgPower: real, intensityFactor: Option<real>, npToAvgRatio: Option<real>)
  {
    predicate Success() { Normalized? }
  }

  /** The calculator's configuration holds a numeric window size, a positive
      integer exponent and an FTP that is a number or None, when present. */
  predicate NpConfTyped(conf: Conf) {
    && NumericOrAbsent(conf, NpWindowKey)
    && (NpExponentKey in conf ==> conf[NpExponentKey].Int? && conf[NpExponentKey].i >= 1)
    && (FtpKey in conf ==> IsNumber(conf[FtpKey]) || conf[FtpKey].NoneValue?)
  }

  /** The window length in seconds, 30 by default. */
  function WindowSize(conf: Conf): real
    requires NpConfTyped(conf)
  {
    NumberOr(conf, NpWindowKey, NpWindowSizeSeconds as real)
  }

  /** The exponent, 4 by default. */
  function Exponent(conf: Conf): (e: nat)
    requires NpConfTyped(conf)
    ensures e >= 1
    ensures NpExponentKey !in conf ==> e == NpExponent
  {
    if NpExponentKey in conf then conf[NpExponentKey].i else NpExponent
  }

  /** The rider's FTP, when it is configured, not None and positive. */
  function Ftp(conf: Conf): (f: Option<real>)
    requires NpConfTyped(conf)
    ensures f.Some? <==> FtpKey in conf && IsNumber(conf[FtpKey]) && AsReal(conf[FtpKey]) > 0.0
    ensures f.Some? ==> f.value == AsReal(conf[FtpKey])
  {
    if FtpKey in conf && conf[FtpKey] != NoneValue && AsReal(conf[FtpKey]) > 0.0
    then Some(AsReal(conf[FtpKey])) else None
  }

  /** The average power of the ride: weighted by time difference when the
      time differences sum to a positive total, else the plain mean. A ride
      without time differences sums them to 0 and takes the plain mean. */
  function AveragePower(rs: seq<Record>): (a: real)
    requires HasColumn(rs, PowerOf)
    ensures SumPresent(Column(rs, TimeDiffOf)) > 0.0 ==>
      IsQuotient(a, WeightedSum(Column(rs, PowerOf), Column(rs, TimeDiffOf)), SumPresent(Column(rs, TimeDiffOf)))
    ensures SumPresent(Column(rs, TimeDiffOf)) <= 0.0 ==> a == MeanPresent(Column(rs, PowerOf)).value
  {
    var dts := Column(rs, TimeDiffOf);
    var total := SumPresent(dts);
    if total > 0.0 then Quotient(WeightedSum(Column(rs, PowerOf), dts), total)
    else MeanPresent(Column(rs, PowerOf)).value
  }

  /** The sample spacing the window is sized with: the mean time difference,
      or 1 s for a ride without time differences. */
  function MeanTimeDiff(rs: seq<Record>): (m: real)
    ensures HasColumn(rs, TimeDiffOf) ==> Some(m) == MeanPresent(Column(rs, TimeDiffOf))
    ensures !HasColumn(rs, TimeDiffOf) ==> m == 1.0
  {
    if HasColumn(rs, TimeDiffOf) then MeanPresent(Column(rs, TimeDiffOf)).value else 1.0
  }

  /** The calculator reaches the window computation: the ride has power and
      is not shorter than the window. */
  predicate ReachesWindow(rs: seq<Record>, conf: Conf)
    requires NpConfTyped(conf)
  {
    HasColumn(rs, PowerOf) && |rs| as real >= WindowSize(conf)
  }

  /** Where the window is computed, the sample spacing is not zero (a zero
      mean spacing makes the window size infinite and the conversion to an
      integer fails). */
  predicate WindowDefined(rs: seq<Record>, conf: Conf)
    requires NpConfTyped(conf)
  {
    ReachesWindow(rs, conf) ==> MeanTimeDiff(rs) != 0.0
  }

  /** The centred rolling mean at i with `min_periods=1`: the mean of the
      present values in the window clipped to the column, missing when the
      window holds none. */
  function RollingMean(xs: seq<Option<real>>, w: nat, i: nat): (m: Option<real>)
    requires w >= 1 && i < |xs|
    ensures xs[i].Some? ==> m.Some?
    ensures m.Some? <==> exists k :: WindowLo(w, i) <= k < WindowHi(|xs|, w, i) && xs[k].Some?
  {
    var window := xs[WindowLo(w, i)..WindowHi(|xs|, w, i)];
    assert xs[i].Some? ==> window[i - WindowLo(w, i)] == xs[i];
    MeanPresent(window)
  }

  function RollingMeans(xs: seq<Option<real>>, w: nat): (ms: seq<Option<real>>)
    requires w >= 1
    ensures |ms| == |xs|
    ensures forall i :: 0 <= i < |xs| ==> ms[i] == RollingMean(xs, w, i)
  {
    seq(|xs|, i requires 0 <= i < |xs| => RollingMean(xs, w, i))
  }

  /** Each present entry raised to the exponent; missing stays missing. */
  function Powered(xs: seq<Option<real>>, e: nat): (ys: seq<Option<real>>)
    ensures |ys| == |xs|
    ensures forall i :: 0 <= i < |xs| ==> ys[i] == (if xs[i].Some? then Some(Pow(xs[i].value, e)) else None)
  {
    seq(|xs|, i requires 0 <= i < |xs| => if xs[i].Some? then Some(Pow(xs[i].value, e)) else None)
  }

  /** Number of samples the rolling window spans: the whole number of mean
      spacings that fit in the window seconds, and at least one. */
  function WindowPointsOf(rs: seq<Record>, conf: Conf): (w: nat)
    requires NpConfTyped(conf) && ReachesWindow(rs, conf) && WindowDefined(rs, conf)
    ensures w >= 1
    ensures WindowSize(conf) / MeanTimeDiff(rs) >= 1.0 ==>
      w as real <= WindowSize(conf) / MeanTimeDiff(rs) < w as real + 1.0
    ensures WindowSize(conf) / MeanTimeDiff(rs) < 2.0 ==> w == 1
  {
    WindowPoints(WindowSize(conf), MeanTimeDiff(rs))
  }

  /** The rolling mean powers of the ride, each raised to the exponent. */
  function PoweredRolling(rs: seq<Record>, conf: Conf): (ys: seq<Option<real>>)
    requires NpConfTyped(conf) && ReachesWindow(rs, conf) && WindowDefined(rs, conf)
    ensures |ys| == |rs|
    ensures AnyPresent(ys)
  {
    var xs := Column(rs, PowerOf);
    var ms := RollingMeans(xs, WindowPointsOf(rs, conf));
    var i :| 0 <= i < |xs| && xs[i].Some?;
    var ys := Powered(ms, Exponent(conf));
    assert ys[i].Some?;
    ys
  }

  /** The mean of the powered rolling means, whose root is the Normalized
      Power. */
  function PoweredMean(rs: seq<Record>, conf: Conf): real
    requires NpConfTyped(conf) && ReachesWindow(rs, conf) && WindowDefined(rs, conf)
  {
    MeanPresent(PoweredRolling(rs, conf)).value
  }

  /** The calculator. "No power data available" without a power channel; a
      ride with fewer samples than the window length in seconds is too short;
      otherwise the Normalized Power, the average power, the intensity factor
      against a configured positive FTP and the ratio to a positive average
      power. */
  function Calculate(rs: seq<Record>, conf: Conf, root: (real, nat) -> real): (o: Outcome)
    requires NpConfTyped(conf) && WindowDefined(rs, conf)
    ensures o.NoPowerData? <==> !HasColumn(rs, PowerOf)
    ensures o.RideTooShort? <==> HasColumn(rs, PowerOf) && (|rs| as real) < WindowSize(conf)
    ensures o.Normalized? <==> ReachesWindow(rs, conf)
    ensures !o.NoPowerData? ==> o.avgPower == AveragePower(rs)
    ensures o.RideTooShort? ==> o.windowSize == WindowSize(conf)
    ensures o.Normalized? ==> o.np == root(PoweredMean(rs, conf), Exponent(conf))
    ensures o.Normalized? ==> (o.intensityFactor.Some? <==> Ftp(conf).Some?)
    ensures o.Normalized? && o.intensityFactor.Some? ==> IsQuotient(o.intensityFactor.value, o.np, Ftp(conf).value)
    ensures o.Normalized? ==> (o.npToAvgRatio.Some? <==> o.avgPower > 0.0)
    ensures o.Normalized? && o.npToAvgRatio.Some? ==> IsQuotient(o.npToAvgRatio.value, o.np, o.avgPower)
  {
    if !HasColumn(rs, PowerOf) then NoPowerData
    else
      var avg := AveragePower(rs);
      if (|rs| as real) < WindowSize(conf) then RideTooShort(avg, WindowSize(conf))
      else
        var np := root(PoweredMean(rs, conf), Exponent(conf));
        var ftp := Ftp(conf);
        Normalized(np, avg,
          if ftp.Some? then Some(Quotient(np, ftp.value)) else None,
          if avg > 0.0 then Some(Quotient(np, avg)) else None)
  }

  /** A root of order e that is exact at x: a non-negative number whose e-th
      power is x. */
  predicate RootAt(root: (real, nat) -> real, x: real, e: nat) {
    root(x, e) >= 0.0 && Pow(root(x, e), e) == x
  }

  /** Rolling means of values in [lo, hi] lie in [lo, hi]. */
  lemma RollingWithin(xs: seq<Option<real>>, w: nat, lo: real, hi: real)
    requires w >= 1
    requires AllPresentWithin(xs, lo, hi)
    ensures AllPresentWithin(RollingMeans(xs, w), lo, hi)
  {
    forall i | 0 <= i < |xs| && RollingMean(xs, w, i).Some?
      ensures lo <= RollingMean(xs, w, i).value <= hi
    {
      var window := xs[WindowLo(w, i)..WindowHi(|xs|, w, i)];
      assert AllPresentWithin(window, lo, hi);
      MeanBounds(window, lo, hi);
    }
  }

  /** Raising non-negative values in [lo, hi] to a power keeps them within
      the powered bounds. */
  lemma PoweredWithin(xs: seq<Option<real>>, e: nat, lo: real, hi: real)
    requires 0.0 <= lo
    requires AllPresentWithin(xs, lo, hi)
    ensures AllPresentWithin(Powered(xs, e), Pow(lo, e), Pow(hi, e))
  {
    forall i | 0 <= i < |xs| && xs[i].Some?
      ensures Pow(lo, e) <= Pow(xs[i].value, e) <= Pow(hi, e)
    {
      PowMonotone(lo, xs[i].value, e);
      PowMonotone(xs[i].value, hi, e);
    }
  }

  /** Normalized Power lies within the range of the ride's power readings,
      when these are non-negative and the root is exact where it is taken. */
  lemma NpWithinPowerRange(rs: seq<Record>, conf: Conf, root: (real, nat) -> real, lo: real, hi: real)
    requires NpConfTyped(conf) && WindowDefined(rs, conf) && ReachesWindow(rs, conf)
    requires 0.0 <= lo
    requires forall i :: 0 <= i < |rs| && rs[i].power.Some? ==> lo <= rs[i].power.value <= hi
    requires RootAt(root, PoweredMean(rs, conf), Exponent(conf))
    ensures lo <= Calculate(rs, conf, root).np <= hi
  {
    var e := Exponent(conf);
    var xs := Column(rs, PowerOf);
    var ms := RollingMeans(xs, WindowPointsOf(rs, conf));
    assert AllPresentWithin(xs, lo, hi);
    RollingWithin(xs, WindowPointsOf(rs, conf), lo, hi);
    PoweredWithin(ms, e, lo, hi);
    var ys := PoweredRolling(rs, conf);
    MeanBounds(ys, Pow(lo, e), Pow(hi, e));
    var np := root(PoweredMean(rs, conf), e);
    if np < lo {
      PowStrictlyIncreasing(np, lo, e);
    }
    if hi < np {
      assert 0.0 <= hi;
      PowStrictlyIncreasing(hi, np, e);
    }
  }

  /** At a constant non-negative power p, with a root that is exact at p to
      the e-th, Normalized Power is p; so is the average power when every time
      difference is non-negative. */
  lemma ConstantPowerNp(rs: seq<Record>, conf: Conf, root: (real, nat) -> real, p: real)
    requires NpConfTyped(conf) && WindowDefined(rs, conf) && ReachesWindow(rs, conf)
    requires p >= 0.0
    requires forall i :: 0 <= i < |rs| ==> rs[i].power == Some(p)
    requires forall i :: 0 <= i < |rs| && rs[i].timeDiff.Some? ==> rs[i].timeDiff.value >= 0.0
    requires root(Pow(p, Exponent(conf)), Exponent(conf)) == p
    ensures Calculate(rs, conf, root).np == p
    ensures Calculate(rs, conf, root).avgPower == p
  {
    var e := Exponent(conf);
    var xs := Column(rs, PowerOf);
    var ms := RollingMeans(xs, WindowPointsOf(rs, conf));
    assert AllPresentWithin(xs, p, p);
    RollingWithin(xs, WindowPointsOf(rs, conf), p, p);
    PoweredWithin(ms, e, p, p);
    MeanConstant(PoweredRolling(rs, conf), Pow(p, e));
    AveragePowerWithin(rs, p, p);
  }

  /** The average power lies within the range of the power readings when
      time differences are non-negative and every sample with one has power. */
  lemma AveragePowerWithin(rs: seq<Record>, lo: real, hi: real)
    requires HasColumn(rs, PowerOf)
    requires forall i :: 0 <= i < |rs| && rs[i].timeDiff.Some? ==>
      rs[i].timeDiff.value >= 0.0 && rs[i].power.Some?
    requires forall i :: 0 <= i < |rs| && rs[i].power.Some? ==> lo <= rs[i].power.value <= hi
    ensures lo <= AveragePower(rs) <= hi
  {
    var xs := Column(rs, PowerOf);
    var ws := Column(rs, TimeDiffOf);
    assert AllPresentWithin(xs, lo, hi);
    if SumPresent(ws) > 0.0 {
      assert WeightsCovered(xs, ws);
      WeightedBounds(xs, ws, lo, hi);
      BetweenMean(lo, hi, SumPresent(ws), WeightedSum(xs, ws));
    } else {
      MeanBounds(xs, lo, hi);
    }
  }
}

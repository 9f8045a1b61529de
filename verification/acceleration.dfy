/** The acceleration stage (`CalculateAcceleration`, preprocess.py): the speed
    change since the previous sample and its rate, 0 wherever the time
    difference is missing or not positive. */
module Acceleration {
  import opened Wrappers
  import opened Models

  const SpeedDiffKey := "speed_diff_mps"

  /** Speed change since the previous sample in m/s; 0 for the first. */
  function SpeedDiff(rs: seq<Record>, i: nat): (dv: real)
    requires i < |rs|
    ensures i == 0 ==> dv == 0.0
    ensures i > 0 ==> rs[i - 1].speed + dv == rs[i].speed
  {
    if i == 0 then 0.0 else rs[i].speed - rs[i - 1].speed
  }

  /** The rate of a speed change over a time difference, guarded: 0 unless
      the difference is present and positive. */
  function Rate(dv: real, dt: Option<real>): (a: real)
    ensures dt.Some? && dt.value > 0.0 ==> a * dt.value == dv
    ensures !(dt.Some? && dt.value > 0.0) ==> a == 0.0
  {
    if dt.Some? && dt.value > 0.0 then dv / dt.value else 0.0
  }

  /** The record with its speed change and acceleration written. */
  function Accelerated(rs: seq<Record>, i: nat): (r: Record)
    requires i < |rs|
    ensures r.acceleration == Some(Rate(SpeedDiff(rs, i), rs[i].timeDiff))
    ensures ExtraNum(r, SpeedDiffKey) == Some(SpeedDiff(rs, i))
    ensures forall k :: k != SpeedDiffKey ==> ExtraNum(r, k) == ExtraNum(rs[i], k)
    ensures r == rs[i].(acceleration := r.acceleration, extra := r.extra)
  {
    WithExtra(rs[i], SpeedDiffKey, Some(SpeedDiff(rs, i)))
      .(acceleration := Some(Rate(SpeedDiff(rs, i), rs[i].timeDiff)))
  }

  /** The stage. A KeyError for an empty ride (no speed column) and for a
      ride where no record has a time difference; otherwise every record
      gains an acceleration and a speed change, and nothing else changes. */
  function CalculateAcceleration(rs: seq<Record>): (r: Result<seq<Record>>)
    ensures |rs| == 0 ==> r == Err(KeyError("speed"))
    ensures |rs| > 0 && !HasColumn(rs, TimeDiffOf) ==> r == Err(KeyError("time_diff_seconds"))
    ensures r.Ok? <==> |rs| > 0 && HasColumn(rs, TimeDiffOf)
    ensures r.Ok? ==> |r.value| == |rs| && forall i :: 0 <= i < |rs| ==> r.value[i] == Accelerated(rs, i)
  {
    if |rs| == 0 then Err(KeyError("speed"))
    else if !HasColumn(rs, TimeDiffOf) then Err(KeyError("time_diff_seconds"))
    else Ok(seq(|rs|, i requires 0 <= i < |rs| => Accelerated(rs, i)))
  }

  /** The first sample never accelerates, nor does one without a positive
      time difference. */
  lemma NoRateWithoutTime(rs: seq<Record>, i: nat)
    requires CalculateAcceleration(rs).Ok? && i < |rs|
    requires i == 0 || !(rs[i].timeDiff.Some? && rs[i].timeDiff.value > 0.0)
    ensures CalculateAcceleration(rs).value[i].acceleration == Some(0.0)
  {
  }

  /** At constant speed there is no acceleration anywhere. */
  lemma ConstantSpeedNoAcceleration(rs: seq<Record>)
    requires CalculateAcceleration(rs).Ok?
    requires forall i :: 0 <= i < |rs| ==> rs[i].speed == rs[0].speed
    ensures forall i :: 0 <= i < |rs| ==> CalculateAcceleration(rs).value[i].acceleration == Some(0.0)
  {
    forall i | 0 <= i < |rs|
      ensures CalculateAcceleration(rs).value[i].acceleration == Some(0.0)
    {
      assert SpeedDiff(rs, i) == 0.0;
    }
  }

  /** A speed gain shows as a positive acceleration and a loss as a negative
      one, wherever the time difference is positive. */
  lemma AccelerationSign(rs: seq<Record>, i: nat)
    requires CalculateAcceleration(rs).Ok? && 0 < i < |rs|
    requires rs[i].timeDiff.Some? && rs[i].timeDiff.value > 0.0
    ensures rs[i].speed > rs[i - 1].speed ==> CalculateAcceleration(rs).value[i].acceleration.value > 0.0
    ensures rs[i].speed < rs[i - 1].speed ==> CalculateAcceleration(rs).value[i].acceleration.value < 0.0
  {
    var a := Rate(SpeedDiff(rs, i), rs[i].timeDiff);
    var dt := rs[i].timeDiff.value;
    assert a * dt == SpeedDiff(rs, i);
    if a <= 0.0 {
      assert a * dt <= 0.0;
    }
    if a >= 0.0 {
      assert a * dt >= 0.0;
    }
  }
}

/** The stop stage (`MarkStops`, preprocess.py): a multi-signal stop flag, then
    stop hysteresis — a run of consecutive stopped samples is taken out of
    cruising, retroactively from its first sample, as soon as the time it has
    lasted reaches the minimum stop duration. */
module Stops {
  import opened Wrappers
  import opened Stats
  import opened Config
  import opened Models

  /** Cadence and power stand-in for a missing reading (`fillna(1000)`). */
  const MissingReading: real := 1000.0
  /** Below this cadence a sample may be stopped. */
  const StopCadence: real := 10.0
  /** Below this power a sample may be stopped. */
  const StopPower: real := 30.0

  /** The stop flag of one sample: slow, and also pedalling slowly when the
      ride has any cadence reading, and also producing little power when it
      has any power reading. A missing speed compares as false. */
  predicate StoppedAt(r: Record, thr: real, anyCadence: bool, anyPower: bool) {
    && r.speedKmh.Some? && r.speedKmh.value < thr
    && (anyCadence ==> r.cadence.GetOr(MissingReading) < StopCadence)
    && (anyPower ==> r.power.GetOr(MissingReading) < StopPower)
  }

  function StopFlags(rs: seq<Record>, thr: real): (stopped: seq<bool>)
    ensures |stopped| == |rs|
    ensures forall i :: 0 <= i < |rs| ==>
      (stopped[i] <==> StoppedAt(rs[i], thr, HasColumn(rs, CadenceOf), HasColumn(rs, PowerOf)))
  {
    var anyCadence := HasColumn(rs, CadenceOf);
    var anyPower := HasColumn(rs, PowerOf);
    seq(|rs|, i requires 0 <= i < |rs| => StoppedAt(rs[i], thr, anyCadence, anyPower))
  }

  /** Positions j..k are all stopped. */
  predicate StoppedThrough(stopped: seq<bool>, j: int, k: int)
    requires 0 <= j && k < |stopped|
  {
    forall m :: j <= m <= k ==> stopped[m]
  }

  /** The first position of the run of stopped samples that holds j. */
  function RunStart(stopped: seq<bool>, j: nat): (s: nat)
    requires j < |stopped| && stopped[j]
    ensures s <= j && StoppedThrough(stopped, s, j)
    ensures s == 0 || !stopped[s - 1]
  {
    if j > 0 && stopped[j - 1] then RunStart(stopped, j - 1) else j
  }

  /** The last position of the run of stopped samples that holds j. */
  function RunEnd(stopped: seq<bool>, j: nat): (e: nat)
    requires j < |stopped| && stopped[j]
    ensures j <= e < |stopped| && StoppedThrough(stopped, j, e)
    ensures e == |stopped| - 1 || !stopped[e + 1]
    decreases |stopped| - j
  {
    if j + 1 < |stopped| && stopped[j + 1] then RunEnd(stopped, j + 1) else j
  }

  /** Time accumulated over positions s..k, a missing difference counting 0. */
  function RunDuration(dts: seq<Option<real>>, s: nat, k: nat): real
    requires s <= k < |dts|
  {
    SumPresent(dts[s..k + 1])
  }

  /** Position j is taken out of cruising once the pass reaches position
      limit - 1: it is stopped, and for some k from j to limit - 1 the run
      through k is unbroken and its duration up to k reaches D. */
  predicate MarkedBefore(stopped: seq<bool>, dts: seq<Option<real>>, d: real, j: nat, limit: nat)
    requires |dts| == |stopped| && j < |stopped| && limit <= |stopped|
  {
    stopped[j] &&
    exists k :: j <= k < limit && StoppedThrough(stopped, j, k) && RunDuration(dts, RunStart(stopped, j), k) >= d
  }

  /** The reference: position j ends up out of cruising. */
  predicate Marked(stopped: seq<bool>, dts: seq<Option<real>>, d: real, j: nat)
    requires |dts| == |stopped| && j < |stopped|
  {
    MarkedBefore(stopped, dts, d, j, |stopped|)
  }

  /** Every position of an unbroken stopped stretch that starts a run has
      that start as its run start. */
  lemma {:induction false} RunStartOf(stopped: seq<bool>, s: nat, j: nat)
    requires s <= j < |stopped| && StoppedThrough(stopped, s, j)
    requires s == 0 || !stopped[s - 1]
    ensures RunStart(stopped, j) == s
    decreases j
  {
    if j > s {
      RunStartOf(stopped, s, j - 1);
    }
  }

  /** A stretch that ends at a stopped position i is unbroken from j exactly
      when j is not before the start of i's run. */
  lemma ThroughIffAfterStart(stopped: seq<bool>, j: nat, i: nat)
    requires j <= i < |stopped| && stopped[i]
    ensures StoppedThrough(stopped, j, i) <==> RunStart(stopped, i) <= j
  {
    var s := RunStart(stopped, i);
    if j < s {
      assert !stopped[s - 1];
    }
  }

  lemma DurationStep(dts: seq<Option<real>>, s: nat, i: nat)
    requires s < i < |dts|
    ensures RunDuration(dts, s, i) == RunDuration(dts, s, i - 1) + dts[i].GetOr(0.0)
  {
    assert dts[s..i + 1] == dts[s..i] + [dts[i]];
    SumAppend(dts[s..i], dts[i]);
  }

  lemma DurationFirst(dts: seq<Option<real>>, i: nat)
    requires i < |dts|
    ensures RunDuration(dts, i, i) == dts[i].GetOr(0.0)
  {
    assert dts[i..i + 1] == [] + [dts[i]];
    SumAppend([], dts[i]);
  }

  /** The flags with positions s..e cleared. */
  function ClearRange(flags: seq<bool>, s: nat, e: nat): (out: seq<bool>)
    ensures |out| == |flags|
    ensures forall m :: 0 <= m < |flags| ==> out[m] == (flags[m] && !(s <= m <= e))
  {
    seq(|flags|, m requires 0 <= m < |flags| => flags[m] && !(s <= m <= e))
  }

  /** Reaching position i marks j exactly when i is stopped, j lies in i's
      run and the run has lasted at least d by i. */
  lemma MarkedExtend(stopped: seq<bool>, dts: seq<Option<real>>, d: real, j: nat, i: nat, start: int, duration: real)
    requires |dts| == |stopped| && j <= i < |stopped|
    requires stopped[i] ==> 0 <= start <= i && start == RunStart(stopped, i) && duration == RunDuration(dts, start, i)
    ensures MarkedBefore(stopped, dts, d, j, i + 1) <==>
      MarkedBefore(stopped, dts, d, j, i) || (stopped[i] && start <= j && duration >= d)
  {
    var hit := stopped[j] && StoppedThrough(stopped, j, i)
      && RunDuration(dts, RunStart(stopped, j), i) >= d;
    if stopped[i] {
      ThroughIffAfterStart(stopped, j, i);
      if StoppedThrough(stopped, j, i) {
        RunStartOf(stopped, start, j);
      }
    }
    assert hit <==> stopped[i] && start <= j && duration >= d;
    if MarkedBefore(stopped, dts, d, j, i + 1) && !hit {
      var k :| j <= k < i + 1 && StoppedThrough(stopped, j, k) && RunDuration(dts, RunStart(stopped, j), k) >= d;
      assert k < i;
    }
  }

  /** One step of the pass: with the run state correct at stopped position
      i, clearing the run when its duration reaches d (and doing nothing at a
      moving position) extends the marking from the first i positions to the
      first i + 1. */
  lemma MarkStep(stopped: seq<bool>, dts: seq<Option<real>>, d: real, i: nat, start: int, duration: real,
                 before: seq<bool>, after: seq<bool>)
    requires |dts| == |stopped| == |before| && i < |stopped|
    requires forall j :: 0 <= j < i ==> (before[j] <==> !MarkedBefore(stopped, dts, d, j, i))
    requires forall j :: i <= j < |stopped| ==> before[j]
    requires stopped[i] ==> 0 <= start <= i && start == RunStart(stopped, i) && duration == RunDuration(dts, start, i)
    requires after == if stopped[i] && duration >= d then ClearRange(before, start, i) else before
    ensures forall j :: 0 <= j <= i ==> (after[j] <==> !MarkedBefore(stopped, dts, d, j, i + 1))
  {
    forall j | 0 <= j <= i
      ensures after[j] <==> !MarkedBefore(stopped, dts, d, j, i + 1)
    {
      MarkedExtend(stopped, dts, d, j, i, start, duration);
    }
  }

  /** The state machine of the stage: one pass over the samples keeping
      whether a stop is under way, where it started and how long it has
      lasted; whenever that duration reaches d, every sample from the start
      of the stop to the current one leaves cruising. */
  method MarkStopRuns(stopped: seq<bool>, dts: seq<Option<real>>, d: real) returns (cruising: seq<bool>)
    requires |dts| == |stopped|
    ensures |cruising| == |stopped|
    ensures forall j :: 0 <= j < |stopped| ==> (cruising[j] <==> !Marked(stopped, dts, d, j))
  {
    var n := |stopped|;
    cruising := seq(n, _ => true);
    var active := false;
    var duration := 0.0;
    var start: int := -1;
    var i := 0;
    while i < n
      invariant 0 <= i <= n && |cruising| == n
      invariant active <==> i > 0 && stopped[i - 1]
      invariant active ==> start == RunStart(stopped, i - 1) && duration == RunDuration(dts, start, i - 1)
      invariant forall j :: i <= j < n ==> cruising[j]
      invariant forall j :: 0 <= j < i ==> (cruising[j] <==> !MarkedBefore(stopped, dts, d, j, i))
    {
      ghost var before := cruising;
      if stopped[i] {
        if !active {
          active := true;
          start := i;
          duration := dts[i].GetOr(0.0);
          DurationFirst(dts, i);
        } else {
          DurationStep(dts, start, i);
          duration := duration + dts[i].GetOr(0.0);
        }
        RunStartOf(stopped, start, i);
        if duration >= d {
          cruising := ClearRange(cruising, start, i);
        }
      } else {
        if active {
          active := false;
          duration := 0.0;
          start := -1;
        }
      }
      MarkStep(stopped, dts, d, i, start, duration, before, cruising);
      i := i + 1;
    }
  }

  /** With no negative time difference, the duration of a run only grows. */
  lemma {:induction false} DurationMonotone(dts: seq<Option<real>>, s: nat, k: nat, e: nat)
    requires s <= k <= e < |dts|
    requires forall m :: 0 <= m < |dts| && dts[m].Some? ==> dts[m].value >= 0.0
    ensures RunDuration(dts, s, k) <= RunDuration(dts, s, e)
    decreases e - k
  {
    if k < e {
      DurationMonotone(dts, s, k, e - 1);
      DurationStep(dts, s, e);
    }
  }

  /** With no negative time difference, a stopped sample leaves cruising
      exactly when the whole run holding it lasts at least d. */
  lemma WholeRun(stopped: seq<bool>, dts: seq<Option<real>>, d: real, j: nat)
    requires |dts| == |stopped| && j < |stopped| && stopped[j]
    requires forall m :: 0 <= m < |dts| && dts[m].Some? ==> dts[m].value >= 0.0
    ensures Marked(stopped, dts, d, j) <==>
      RunDuration(dts, RunStart(stopped, j), RunEnd(stopped, j)) >= d
  {
    var s := RunStart(stopped, j);
    var e := RunEnd(stopped, j);
    if Marked(stopped, dts, d, j) {
      var k :| j <= k < |stopped| && StoppedThrough(stopped, j, k) && RunDuration(dts, s, k) >= d;
      DurationMonotone(dts, s, k, e);
    }
  }

  /** With no negative time difference, the samples of one run share their
      verdict. */
  lemma SameRunSameVerdict(stopped: seq<bool>, dts: seq<Option<real>>, d: real, j: nat, j2: nat)
    requires |dts| == |stopped| && j <= j2 < |stopped| && StoppedThrough(stopped, j, j2)
    requires forall m :: 0 <= m < |dts| && dts[m].Some? ==> dts[m].value >= 0.0
    ensures Marked(stopped, dts, d, j) <==> Marked(stopped, dts, d, j2)
  {
    var s := RunStart(stopped, j);
    RunStartOf(stopped, s, j2);
    var e := RunEnd(stopped, j2);
    RunEndOf(stopped, j, e);
    WholeRun(stopped, dts, d, j);
    WholeRun(stopped, dts, d, j2);
  }

  /** Every position of an unbroken stopped stretch that ends a run has that
      end as its run end. */
  lemma {:induction false} RunEndOf(stopped: seq<bool>, j: nat, e: nat)
    requires j <= e < |stopped| && StoppedThrough(stopped, j, e)
    requires e == |stopped| - 1 || !stopped[e + 1]
    ensures RunEnd(stopped, j) == e
    decreases e - j
  {
    if j < e {
      RunEndOf(stopped, j + 1, e);
    }
  }

  /** The stop threshold in km/h and the minimum stop duration. */
  function StopThreshold(conf: Conf): real
    requires NumericOrAbsent(conf, StopSpeedKey)
  {
    NumberOr(conf, StopSpeedKey, StopSpeedThresholdKmh)
  }

  function StopDuration(conf: Conf): real
    requires NumericOrAbsent(conf, StopDurationKey)
  {
    NumberOr(conf, StopDurationKey, StopDurationSeconds as real)
  }

  /** The stage. A KeyError when no record has a speed in km/h, or when some
      sample is stopped but no record has a time difference. Otherwise each
      record gets its stop flag, and its cruising flag is reset to true and
      then cleared exactly when the reference marks it. */
  function MarkStops(rs: seq<Record>, conf: Conf): (r: Result<seq<Record>>)
    requires NumericOrAbsent(conf, StopSpeedKey) && NumericOrAbsent(conf, StopDurationKey)
    ensures !HasColumn(rs, SpeedKmhOf) ==> r == Err(KeyError("speed_kmh"))
    ensures HasColumn(rs, SpeedKmhOf) ==>
      (r.Err? <==> !HasColumn(rs, TimeDiffOf) && exists i :: 0 <= i < |rs| && StopFlags(rs, StopThreshold(conf))[i])
    ensures r.Err? ==> r.error.KeyError?
    ensures r.Ok? ==> |r.value| == |rs|
    ensures r.Ok? ==> forall i :: 0 <= i < |rs| ==>
      r.value[i] == rs[i].(isStopped := r.value[i].isStopped, isCruising := r.value[i].isCruising)
    ensures r.Ok? ==> forall i :: 0 <= i < |rs| ==>
      r.value[i].isStopped == StopFlags(rs, StopThreshold(conf))[i]
    ensures r.Ok? ==> forall i :: 0 <= i < |rs| ==>
      (r.value[i].isCruising <==>
        !Marked(StopFlags(rs, StopThreshold(conf)), Column(rs, TimeDiffOf), StopDuration(conf), i))
  {
    if !HasColumn(rs, SpeedKmhOf) then Err(KeyError("speed_kmh"))
    else
      var stopped := StopFlags(rs, StopThreshold(conf));
      if !HasColumn(rs, TimeDiffOf) && exists i :: 0 <= i < |rs| && stopped[i] then
        Err(KeyError("time_diff_seconds"))
      else
        var dts := Column(rs, TimeDiffOf);
        var d := StopDuration(conf);
        Ok(seq(|rs|, i requires 0 <= i < |rs| =>
          rs[i].(isStopped := stopped[i], isCruising := !Marked(stopped, dts, d, i))))
  }

  /** A sample that is not stopped is cruising after the stage. */
  lemma MovingIsCruising(rs: seq<Record>, conf: Conf, i: nat)
    requires NumericOrAbsent(conf, StopSpeedKey) && NumericOrAbsent(conf, StopDurationKey)
    requires MarkStops(rs, conf).Ok? && i < |rs|
    requires !MarkStops(rs, conf).value[i].isStopped
    ensures MarkStops(rs, conf).value[i].isCruising
  {
  }

  /** A sample at or above the stop threshold is never stopped. */
  lemma FastNeverStopped(rs: seq<Record>, conf: Conf, i: nat)
    requires NumericOrAbsent(conf, StopSpeedKey) && NumericOrAbsent(conf, StopDurationKey)
    requires MarkStops(rs, conf).Ok? && i < |rs|
    requires rs[i].speedKmh.Some? && rs[i].speedKmh.value >= StopThreshold(conf)
    ensures !MarkStops(rs, conf).value[i].isStopped
  {
  }
}

/** The preprocessing pipeline (`PreProcessingPipeline`, preprocess.py): an
    ordered list of stages run one after another on the ride, each with the
    same configuration. A stage that raises stops the run; the model returns
    its error. The square root used by the variability stage is a parameter. */
module Pipeline {
  import opened Wrappers
  import opened Sorting
  import opened Config
  import opened Models
  import Convert
  import Timing
  import PowerValidation
  import Stops
  import Acceleration
  import Variability
  import NonCruising

  /** The processors of preprocess.py, one constructor each. */
  datatype Stage =
    | ConvertSpeedStage
    | SortStage
    | PowerStage
    | StopStage
    | AccelerationStage
    | VariabilityStage
    | NonCruisingStage

  datatype Pipeline = Pipeline(processors: seq<Stage>)

  /** Runs one stage. */
  function RunStage(st: Stage, rs: seq<Record>, conf: Conf, sqrt: real -> real): Result<seq<Record>>
    requires PipelineTyped(conf)
  {
    match st
    case ConvertSpeedStage => Ok(Convert.ConvertSpeed(rs))
    case SortStage => Timing.SortAndTimeDiff(rs)
    case PowerStage => PowerValidation.ValidatePower(rs, conf)
    case StopStage => Stops.MarkStops(rs, conf)
    case AccelerationStage => Acceleration.CalculateAcceleration(rs)
    case VariabilityStage => Variability.SpeedVariability(rs, conf, sqrt)
    case NonCruisingStage => NonCruising.MarkNonCruising(rs, conf)
  }

  /** Runs the stages in order, each on the previous one's output, stopping
      at the first error. */
  function RunStages(stages: seq<Stage>, rs: seq<Record>, conf: Conf, sqrt: real -> real): (r: Result<seq<Record>>)
    requires PipelineTyped(conf)
    ensures |stages| == 0 ==> r == Ok(rs)
    ensures |stages| > 0 && RunStage(stages[0], rs, conf, sqrt).Err? ==> r == RunStage(stages[0], rs, conf, sqrt)
    ensures r.Ok? ==> |stages| == 0 || RunStage(stages[0], rs, conf, sqrt).Ok?
    decreases |stages|
  {
    if |stages| == 0 then Ok(rs)
    else
      var next :- RunStage(stages[0], rs, conf, sqrt);
      RunStages(stages[1..], next, conf, sqrt)
  }

  /** The configuration a run uses: the one given, or the defaults when none is. */
  function EffectiveConfig(conf: Option<Conf>): (c: Conf)
    requires conf.Some? ==> PipelineTyped(conf.value)
    ensures PipelineTyped(c)
    ensures conf.None? ==> c == DefaultConfig()
    ensures conf.Some? ==> c == conf.value
  {
    DefaultsTyped(map[]);
    if conf.None? then DefaultConfig() else conf.value
  }

  /** `process(data, conf)`. The given configuration is used as it is, not
      merged with the defaults: a stage falls back to its module constant for
      a key the configuration lacks. */
  function Process(p: Pipeline, rs: seq<Record>, conf: Option<Conf>, sqrt: real -> real): (r: Result<seq<Record>>)
    requires conf.Some? ==> PipelineTyped(conf.value)
    ensures |p.processors| == 0 ==> r == Ok(rs)
  {
    RunStages(p.processors, rs, EffectiveConfig(conf), sqrt)
  }

  /** `add_processor`: the stage goes last. */
  function AddProcessor(p: Pipeline, st: Stage): (q: Pipeline)
    ensures |q.processors| == |p.processors| + 1
    ensures q.processors[..|p.processors|] == p.processors && q.processors[|p.processors|] == st
  {
    Pipeline(p.processors + [st])
  }

  const DefaultStages: seq<Stage> := [
    ConvertSpeedStage, SortStage, PowerStage, StopStage,
    AccelerationStage, VariabilityStage, NonCruisingStage
  ]

  /** `create_default_pipeline()`. */
  function DefaultPipeline(): (p: Pipeline)
    ensures |p.processors| == 7
  {
    Pipeline(DefaultStages)
  }

  /** Running a + b is running a, then b on its output. */
  lemma {:induction false} RunStagesAppend(a: seq<Stage>, b: seq<Stage>, rs: seq<Record>, conf: Conf, sqrt: real -> real)
    requires PipelineTyped(conf)
    ensures RunStages(a + b, rs, conf, sqrt) ==
      (match RunStages(a, rs, conf, sqrt)
       case Err(e) => Err(e)
       case Ok(v) => RunStages(b, v, conf, sqrt))
    decreases |a|
  {
    if |a| == 0 {
      assert a + b == b;
    } else {
      assert (a + b)[0] == a[0];
      assert (a + b)[1..] == a[1..] + b;
      var first := RunStage(a[0], rs, conf, sqrt);
      if first.Ok? {
        RunStagesAppend(a[1..], b, first.value, conf, sqrt);
      }
    }
  }

  /** A pipeline with one more stage runs that stage on the old pipeline's
      output, when the old pipeline succeeds. */
  lemma AddProcessorRunsLast(p: Pipeline, st: Stage, rs: seq<Record>, conf: Option<Conf>, sqrt: real -> real)
    requires conf.Some? ==> PipelineTyped(conf.value)
    ensures Process(AddProcessor(p, st), rs, conf, sqrt) ==
      (match Process(p, rs, conf, sqrt)
       case Err(e) => Err(e)
       case Ok(v) => RunStage(st, v, EffectiveConfig(conf), sqrt))
  {
    var c := EffectiveConfig(conf);
    RunStagesAppend(p.processors, [st], rs, c, sqrt);
    var first := RunStages(p.processors, rs, c, sqrt);
    if first.Ok? {
      assert [st][1..] == [];
    }
  }

  /** Timestamps, speeds in km/h and time differences agree position by position. */
  predicate Keeps(a: seq<Record>, b: seq<Record>) {
    |a| == |b| &&
    forall i :: 0 <= i < |a| ==>
      b[i].timestamp == a[i].timestamp && b[i].speedKmh == a[i].speedKmh && b[i].timeDiff == a[i].timeDiff
  }

  /** The stages after sorting leave timestamps, speeds and time differences alone. */
  lemma LaterStageKeeps(st: Stage, rs: seq<Record>, conf: Conf, sqrt: real -> real)
    requires PipelineTyped(conf)
    requires st != ConvertSpeedStage && st != SortStage
    requires RunStage(st, rs, conf, sqrt).Ok?
    ensures Keeps(rs, RunStage(st, rs, conf, sqrt).value)
  {
  }

  /** Running a non-empty list of stages is running its first stage, then
      the rest on that stage's output. */
  lemma RunStagesCons(stages: seq<Stage>, rs: seq<Record>, conf: Conf, sqrt: real -> real)
    requires PipelineTyped(conf) && |stages| > 0
    ensures RunStages(stages, rs, conf, sqrt) ==
      (match RunStage(stages[0], rs, conf, sqrt)
       case Err(e) => Err(e)
       case Ok(v) => RunStages(stages[1..], v, conf, sqrt))
  {
  }

  /** The default stages after conversion and sorting. */
  const LaterStages: seq<Stage> := [PowerStage, StopStage, AccelerationStage, VariabilityStage, NonCruisingStage]

  /** The default stages convert and sort, then run the later stages. */
  lemma DefaultSplit(rs: seq<Record>, conf: Conf, sqrt: real -> real)
    requires PipelineTyped(conf)
    ensures Timing.SortAndTimeDiff(Convert.ConvertSpeed(rs)).Err? ==>
      RunStages(DefaultStages, rs, conf, sqrt) == Timing.SortAndTimeDiff(Convert.ConvertSpeed(rs))
    ensures Timing.SortAndTimeDiff(Convert.ConvertSpeed(rs)).Ok? ==>
      RunStages(DefaultStages, rs, conf, sqrt) ==
        RunStages(LaterStages, Timing.SortAndTimeDiff(Convert.ConvertSpeed(rs)).value, conf, sqrt)
  {
    RunStagesCons(DefaultStages, rs, conf, sqrt);
    assert DefaultStages[1..][0] == SortStage && DefaultStages[1..][1..] == LaterStages;
    RunStagesCons(DefaultStages[1..], Convert.ConvertSpeed(rs), conf, sqrt);
  }

  /** Stages that neither convert nor sort keep timestamps, speeds and time
      differences, however many run. */
  lemma {:induction false} LaterStagesKeep(stages: seq<Stage>, rs: seq<Record>, conf: Conf, sqrt: real -> real)
    requires PipelineTyped(conf)
    requires forall k :: 0 <= k < |stages| ==> stages[k] != ConvertSpeedStage && stages[k] != SortStage
    requires RunStages(stages, rs, conf, sqrt).Ok?
    ensures Keeps(rs, RunStages(stages, rs, conf, sqrt).value)
    decreases |stages|
  {
    if |stages| > 0 {
      RunStagesCons(stages, rs, conf, sqrt);
      var next := RunStage(stages[0], rs, conf, sqrt).value;
      LaterStageKeeps(stages[0], rs, conf, sqrt);
      LaterStagesKeep(stages[1..], next, conf, sqrt);
    }
  }

  /** The configuration lets power clean-up through: interpolation is off
      or its gap limit is accepted. */
  predicate PowerAccepted(conf: Conf) {
    !(PowerValidation.InterpolationOn(conf) && PowerValidation.ConfLimit(conf).Err?)
  }

  /** The first record carries a speed in km/h and a time difference. */
  predicate FirstTimed(rs: seq<Record>) {
    |rs| > 0 && rs[0].speedKmh.Some? && rs[0].timeDiff.Some?
  }

  lemma NonCruisingSucceeds(v: seq<Record>, conf: Conf, sqrt: real -> real)
    requires PipelineTyped(conf) && FirstTimed(v)
    requires v[0].acceleration.Some? && Variability.StdOf(v[0]).Some?
    ensures RunStages([NonCruisingStage], v, conf, sqrt).Ok?
  {
    RunStagesCons([NonCruisingStage], v, conf, sqrt);
    assert Column(v, Variability.StdOf)[0].Some?;
    assert Column(v, AccelerationOf)[0].Some?;
    assert Column(v, SpeedKmhOf)[0].Some?;
  }

  /** The variability stage succeeds on a timed, accelerated ride and its
      first record keeps those columns and gains a deviation. */
  lemma VariabilityKeepsFirst(a: seq<Record>, conf: Conf, sqrt: real -> real)
    requires PipelineTyped(conf) && FirstTimed(a) && a[0].acceleration.Some?
    ensures Variability.SpeedVariability(a, conf, sqrt).Ok?
    ensures var v := Variability.SpeedVariability(a, conf, sqrt).value;
      FirstTimed(v) && v[0].acceleration.Some? && Variability.StdOf(v[0]).Some?
  {
    assert Column(a, SpeedKmhOf)[0].Some?;
    assert Column(a, TimeDiffOf)[0].Some?;
    Variability.DeviationsPresent(a, conf, sqrt);
  }

  /** The variability stage tag runs the variability stage. */
  lemma RunVariabilityStage(st: Stage, rs: seq<Record>, conf: Conf, sqrt: real -> real)
    requires PipelineTyped(conf) && st == VariabilityStage
    ensures RunStage(st, rs, conf, sqrt) == Variability.SpeedVariability(rs, conf, sqrt)
  {
  }

  /** A run succeeds when its first stage does and the rest succeed on
      that stage's output. */
  lemma ConsSucceeds(stages: seq<Stage>, rs: seq<Record>, conf: Conf, sqrt: real -> real)
    requires PipelineTyped(conf) && |stages| > 0
    requires RunStage(stages[0], rs, conf, sqrt).Ok?
    requires RunStages(stages[1..], RunStage(stages[0], rs, conf, sqrt).value, conf, sqrt).Ok?
    ensures RunStages(stages, rs, conf, sqrt).Ok?
  {
  }

  lemma VariabilityOnwardSucceeds(a: seq<Record>, conf: Conf, sqrt: real -> real)
    requires PipelineTyped(conf) && FirstTimed(a) && a[0].acceleration.Some?
    ensures RunStages([VariabilityStage, NonCruisingStage], a, conf, sqrt).Ok?
  {
    VariabilityKeepsFirst(a, conf, sqrt);
    RunVariabilityStage(VariabilityStage, a, conf, sqrt);
    var v := Variability.SpeedVariability(a, conf, sqrt).value;
    NonCruisingSucceeds(v, conf, sqrt);
    var stages := [VariabilityStage, NonCruisingStage];
    assert stages[1..] == [NonCruisingStage];
    ConsSucceeds(stages, a, conf, sqrt);
  }

  lemma AccelerationOnwardSucceeds(m: seq<Record>, conf: Conf, sqrt: real -> real)
    requires PipelineTyped(conf) && FirstTimed(m)
    ensures RunStages([AccelerationStage, VariabilityStage, NonCruisingStage], m, conf, sqrt).Ok?
  {
    RunStagesCons([AccelerationStage, VariabilityStage, NonCruisingStage], m, conf, sqrt);
    assert Column(m, TimeDiffOf)[0].Some?;
    assert [AccelerationStage, VariabilityStage, NonCruisingStage][1..] == [VariabilityStage, NonCruisingStage];
    VariabilityOnwardSucceeds(Acceleration.CalculateAcceleration(m).value, conf, sqrt);
  }

  lemma StopsOnwardSucceeds(p: seq<Record>, conf: Conf, sqrt: real -> real)
    requires PipelineTyped(conf) && FirstTimed(p)
    ensures RunStages(LaterStages[1..], p, conf, sqrt).Ok?
  {
    RunStagesCons(LaterStages[1..], p, conf, sqrt);
    assert Column(p, SpeedKmhOf)[0].Some?;
    assert Column(p, TimeDiffOf)[0].Some?;
    assert LaterStages[1..][1..] == [AccelerationStage, VariabilityStage, NonCruisingStage];
    AccelerationOnwardSucceeds(Stops.MarkStops(p, conf).value, conf, sqrt);
  }

  /** The later stages succeed on a sorted ride whose first record is timed. */
  lemma LaterStagesSucceed(t: seq<Record>, conf: Conf, sqrt: real -> real)
    requires PipelineTyped(conf) && PowerAccepted(conf) && FirstTimed(t)
    ensures RunStages(LaterStages, t, conf, sqrt).Ok?
  {
    RunStagesCons(LaterStages, t, conf, sqrt);
    StopsOnwardSucceeds(PowerValidation.ValidatePower(t, conf).value, conf, sqrt);
  }

  /** A lone record without a time difference.  */
  predicate LoneUntimed(rs: seq<Record>) {
    |rs| == 1 && rs[0].timeDiff.None?
  }

  lemma AccelerationOnwardFails(m: seq<Record>, conf: Conf, sqrt: real -> real)
    requires PipelineTyped(conf) && LoneUntimed(m)
    ensures RunStages(LaterStages[2..], m, conf, sqrt).Err?
  {
    RunStagesCons(LaterStages[2..], m, conf, sqrt);
    assert !HasColumn(m, TimeDiffOf) by { assert Column(m, TimeDiffOf)[0].None?; }
  }

  lemma StopsOnwardFails(p: seq<Record>, conf: Conf, sqrt: real -> real)
    requires PipelineTyped(conf) && LoneUntimed(p)
    ensures RunStages(LaterStages[1..], p, conf, sqrt).Err?
  {
    RunStagesCons(LaterStages[1..], p, conf, sqrt);
    var m := Stops.MarkStops(p, conf);
    if m.Ok? {
      LaterStageKeeps(StopStage, p, conf, sqrt);
      assert LaterStages[1..][1..] == LaterStages[2..];
      AccelerationOnwardFails(m.value, conf, sqrt);
    }
  }

  /** The later stages fail on a lone record without a time difference. */
  lemma LaterStagesFail(t: seq<Record>, conf: Conf, sqrt: real -> real)
    requires PipelineTyped(conf) && LoneUntimed(t)
    ensures RunStages(LaterStages, t, conf, sqrt).Err?
  {
    RunStagesCons(LaterStages, t, conf, sqrt);
    var p := PowerValidation.ValidatePower(t, conf);
    if p.Ok? {
      LaterStageKeeps(PowerStage, t, conf, sqrt);
      StopsOnwardFails(p.value, conf, sqrt);
    }
  }

  /** After conversion and sorting every record has a speed in km/h; the
      first has a time difference exactly when there are two or more. */
  lemma SortedConverted(rs: seq<Record>)
    requires |rs| > 0
    ensures Timing.SortAndTimeDiff(Convert.ConvertSpeed(rs)).Ok?
    ensures forall i :: 0 <= i < |rs| ==> Timing.SortAndTimeDiff(Convert.ConvertSpeed(rs)).value[i].speedKmh.Some?
    ensures |rs| > 1 ==> FirstTimed(Timing.SortAndTimeDiff(Convert.ConvertSpeed(rs)).value)
    ensures |rs| == 1 ==> LoneUntimed(Timing.SortAndTimeDiff(Convert.ConvertSpeed(rs)).value)
  {
    var c := Convert.ConvertSpeed(rs);
    var t := Timing.SortAndTimeDiff(c).value;
    forall i | 0 <= i < |rs|
      ensures t[i].speedKmh.Some?
    {
      SortedFromOriginal(c, TimestampOf, i);
      assert Timing.Retimed(t[i], SortBy(c, TimestampOf)[i]);
    }
    if |rs| > 1 {
      Timing.DiffsPresent(c);
    }
  }

  /** With the stages' thresholds numeric and the power gap limit accepted,
      the default stages succeed exactly on rides of two or more records: an
      empty ride has no timestamp column, and a lone record has no time
      difference, which the acceleration stage (or, for a stopped record,
      the stop stage) requires. */
  lemma DefaultSucceedsIffTwoRecords(rs: seq<Record>, conf: Conf, sqrt: real -> real)
    requires PipelineTyped(conf) && PowerAccepted(conf)
    ensures RunStages(DefaultStages, rs, conf, sqrt).Ok? <==> |rs| >= 2
  {
    DefaultSplit(rs, conf, sqrt);
    if |rs| > 0 {
      SortedConverted(rs);
      var t := Timing.SortAndTimeDiff(Convert.ConvertSpeed(rs)).value;
      if |rs| == 1 {
        LaterStagesFail(t, conf, sqrt);
      } else {
        LaterStagesSucceed(t, conf, sqrt);
      }
    }
  }

  /** The default pipeline with the default configuration succeeds exactly
      on rides of two or more records. */
  lemma DefaultPipelineSucceeds(rs: seq<Record>, sqrt: real -> real)
    ensures Process(DefaultPipeline(), rs, None, sqrt).Ok? <==> |rs| >= 2
  {
    var c := DefaultConfig();
    assert InterpolateKey !in c;
    assert PowerGapKey !in c;
    DefaultsTyped(map[]);
    DefaultSucceedsIffTwoRecords(rs, c, sqrt);
  }

  /** A successful default run keeps every record and leaves them in
      timestamp order. */
  lemma DefaultOutputSorted(rs: seq<Record>, conf: Conf, sqrt: real -> real)
    requires PipelineTyped(conf)
    requires RunStages(DefaultStages, rs, conf, sqrt).Ok?
    ensures |RunStages(DefaultStages, rs, conf, sqrt).value| == |rs|
    ensures SortedBy(RunStages(DefaultStages, rs, conf, sqrt).value, TimestampOf)
  {
    DefaultSplit(rs, conf, sqrt);
    var s := Timing.SortAndTimeDiff(Convert.ConvertSpeed(rs));
    assert s.Ok?;
    var t := s.value;
    assert |t| == |rs| && SortedBy(t, TimestampOf);
    LaterStagesAreLater();
    LaterStagesKeepOrder(LaterStages, t, conf, sqrt);
  }

  /** None of the later default stages converts or sorts. */
  lemma LaterStagesAreLater()
    ensures forall k :: 0 <= k < |LaterStages| ==> LaterStages[k] != ConvertSpeedStage && LaterStages[k] != SortStage
  {
  }

  /** Stages that neither convert nor sort keep every record and the
      timestamp order. */
  lemma LaterStagesKeepOrder(stages: seq<Stage>, t: seq<Record>, conf: Conf, sqrt: real -> real)
    requires PipelineTyped(conf)
    requires forall k :: 0 <= k < |stages| ==> stages[k] != ConvertSpeedStage && stages[k] != SortStage
    requires SortedBy(t, TimestampOf) && RunStages(stages, t, conf, sqrt).Ok?
    ensures |RunStages(stages, t, conf, sqrt).value| == |t|
    ensures SortedBy(RunStages(stages, t, conf, sqrt).value, TimestampOf)
  {
    LaterStagesKeep(stages, t, conf, sqrt);
    KeepsOrder(t, RunStages(stages, t, conf, sqrt).value);
  }

  lemma KeepsOrder(a: seq<Record>, b: seq<Record>)
    requires Keeps(a, b) && SortedBy(a, TimestampOf)
    ensures SortedBy(b, TimestampOf)
  {
    forall i, j | 0 <= i < j < |b|
      ensures TimestampOf(b[i]) <= TimestampOf(b[j])
    {
      assert TimestampOf(a[i]) <= TimestampOf(a[j]);
    }
  }
}

# Ride segmentation and ride metrics, modelled in Dafny

This project models the core of a cycling-ride analyser. A ride is a list
of sensor samples: a timestamp and a speed, plus optional power, cadence,
distance and extra channels such as heart rate. The preprocessing pipeline
runs seven stages over the samples in order:

1. convert the speed to km/h;
2. sort by timestamp, then compute the time differences and the cumulative time;
3. clean the power readings;
4. flag stops, with hysteresis over stop events;
5. compute the acceleration;
6. compute a rolling speed standard deviation;
7. take samples out of cruising when they accelerate, vary too much or are
   too slow.

Two calculators then read the result:

- the **time-weighted cruising speed**, which also reports average power,
  cadence and heart rate;
- **Normalized Power**, which also reports the intensity factor and the
  ratio of NP to average power.

The model also covers:

- the configuration dictionary and its merge;
- record field access;
- turning decoded FIT messages into records;
- the two factories.

Modelling conventions:

- **Values.** A sample is a `Models.Record`. A missing value is
  `Wrappers.Option.None`. Numbers are unbounded `real`s.
- **Columns.** The model follows pandas' missing-value policy, as the
  source relies on it:
  - A table column exists exactly when some record holds a non-missing
    value for it (`Models.HasColumn`), because records become table rows
    with their missing fields dropped.
  - Reading a column that does not exist is a `KeyError`, modelled as a
    `Wrappers.Result` error.
  - Sums and means skip missing entries (`Stats`).
  - A comparison with a missing value is false.
- **Stages.** Each stage is a pure function from records (and a
  configuration) to `Result<seq<Record>>`. The pipeline is a fold over a
  list of stage tags (`Pipeline.RunStages`).
- **Roots.** The square root (rolling standard deviation) and the e-th
  root (Normalized Power) are function parameters. Lemmas that need them
  require exactness only at the point they use.

Modules and files:

- `wrappers.dfy` — Option and Result.
- `stats.dfy` — sums, means, weighted sums, powers, truncation, centred windows.
- `sorting.dfy` — sort by key, median.
- `config.dfy` — config.py.
- `models.dfy` — models.py.
- `parser.dfy` — parser.py.
- `convert.dfy`, `timing.dfy`, `power.dfy` with `interpolation.dfy`,
  `stops.dfy`, `acceleration.dfy`, `variability.dfy`, `noncruising.dfy` —
  one module per stage of preprocess.py.
- `pipeline.dfy` — the pipeline.
- `cruising_speed.dfy`, `normalized_power.dfy`, `calculators.dfy` —
  compute.py.

Behaviour of the code that a reader might not expect:

- **Truncation.** Window sizes in samples are `max(1, int(seconds / mean
  spacing))`, which truncates rather than rounds (preprocess.py:181,
  compute.py:178).
- **Single record.** The first record's time difference is filled only
  when the ride has more than one record (preprocess.py:66). A one-record
  ride keeps it missing. The default pipeline then fails with a KeyError
  in the stop or acceleration stage (`Pipeline.DefaultPipelineSucceeds`).
- **Empty ride.** An empty ride fails in the sort stage with
  `KeyError('timestamp')`. It does not pass through silently.
- **Short-ride check.** The Normalized Power short-ride check compares
  the number of samples with the window length in seconds
  (compute.py:168).
- **Zero mean spacing.** The Normalized Power mean spacing has no
  fallback (compute.py:177). A negative mean gives a one-sample window, and
  a zero mean cannot be converted to an integer. The model requires it to
  be non-zero where it is used.
- **Stop stage resets cruising.** The stop stage first sets every sample
  back to cruising (preprocess.py:105), then takes qualifying stops out.
- **Gap limit.** `max_power_gap_seconds` is passed to pandas as a limit on
  the number of consecutive missing samples, not on seconds
  (preprocess.py:258-260).
- **Parser drop rule.** The parser keeps a message only when it has both
  a timestamp and a speed (parser.py:61).
- **Cruising-speed KeyErrors.** With no cruising sample, the
  cruising-speed calculator prints debugging output. That printout reads
  the km/h speed and acceleration columns, so a ride without them raises a
  KeyError instead of returning "No cruising data identified"
  (compute.py:104-114).

## Model

| member | source | states |
|---|---|---|
| Config.DefaultConfig | config.py:24-37 | the default configuration holds exactly the ten documented keys |
| Config.MergeConfig | config.py:39-58 | no override gives the base; otherwise every override key wins, every other base key survives, and no key is lost or invented |
| Config.MergeEmpty | config.py:39-58 | merging an empty override changes nothing |
| Config.MergeIdempotent | config.py:39-58 | merging the same override twice is the same as merging it once |
| Config.MergeSequential | config.py:39-58 | merging o1 then o2 equals merging the single override "o1 overridden by o2" |
| Config.DefaultsTyped | config.py:24-37 | every threshold the stages compare against is numeric in the defaults, and stays numeric after merging a well-typed override |
| Models.NewRecord | models.py:12-31 | a new record has its timestamp and speed, no optional readings, is not stopped, is cruising, and has no extras |
| Models.FieldOf | models.py:35-36 | a key resolves to a declared field exactly when some field has that name |
| Models.GetItem | models.py:33-37 | `record[key]` gives the declared field's value when the key names one, otherwise the extra entry, otherwise None |
| Models.SetItem | models.py:39-44 | assigning to an undeclared key only adds that key to `extra`; assigning a declared field leaves `extra` alone |
| Models.GetAfterSet | models.py:33-44 | reading a key right after assigning it gives the assigned value |
| Models.SetLeavesOthers | models.py:33-44 | assigning one key leaves every other key's value unchanged, except the pairs of `"extra"` with an undeclared key, which are two views of the same dictionary and change together |
| Models.RideData.Length | models.py:95-96 | the length of a ride is its number of records |
| Models.WithExtra | models.py:66-93 | storing a derived column in `extra` sets that column and leaves every other extra column and every declared field unchanged |
| Parser.GetFieldValue | parser.py:12-25 | a stored value is returned as is; a missing one gives the default |
| Parser.ChosenSpeed | parser.py:55-58 | the enhanced speed when present, otherwise the plain speed |
| Parser.ExtraOf | parser.py:70-78 | extras hold exactly the heart rate, altitude and temperature values that are present |
| Parser.ToRecord | parser.py:61-78 | a usable message becomes a record with its timestamp, chosen speed, power, cadence, distance and extras, in its initial state |
| Parser.Collect | parser.py:51-80 | every collected record is the record of some usable message; there are never more records than messages, and exactly as many when every message is usable |
| Parser.CollectAppend | parser.py:48-80 | collecting records distributes over concatenation of the message list |
| Parser.CollectSingle | parser.py:48-80 | one message yields its record exactly when it has a timestamp and a speed |
| Parser.CollectEmpty | parser.py:48-83 | no record is collected exactly when no message is usable |
| Parser.ParseMessages | parser.py:43-85 | a decode failure or a list with no usable message gives no ride; otherwise the ride holds the collected records |
| Parser.CreateParser | parser.py:106-109 | the FIT parser exactly when the type lower-cases to "fit"; otherwise a ValueError |
| Parser.CreateAnyCase | parser.py:106-109 | every upper/lower-case spelling of "fit" is accepted |
| Convert.ConvertSpeed | preprocess.py:41-45 | every record gains speed × 3.6 in km/h and nothing else changes |
| Convert.ConvertIdempotent | preprocess.py:41-45 | converting twice is the same as converting once |
| Convert.ConvertedHasKmh | preprocess.py:41-45 | after conversion the km/h column exists exactly when the ride is non-empty |
| Sorting.SortBy | preprocess.py:60 | the result is ordered by the key and is a permutation of the input |
| Sorting.SortedFromOriginal | preprocess.py:60 | every sorted record comes from the input |
| Sorting.MedianWithin | preprocess.py:67 | the median lies within any bounds of the values |
| Sorting.MedianConstant | preprocess.py:67 | the median of equal values is that value |
| Timing.FirstDiff | preprocess.py:66-68 | the first time difference exists exactly when there are two or more records, and it is positive |
| Timing.Diffs | preprocess.py:63-68 | every later record's time difference is the gap to its predecessor |
| Timing.Cumulative | preprocess.py:71 | a missing difference gives a total of 0, and the first total is the first difference |
| Timing.CumulativeStep | preprocess.py:71 | the cumulative time grows by each record's time difference |
| Timing.CumulativeMonotone | preprocess.py:71 | on a column of non-negative differences the cumulative time never decreases |
| Timing.RetimeSortedGaps | preprocess.py:63-71 | on sorted records every later difference is the non-negative gap to the predecessor |
| Timing.RetimedSorted | preprocess.py:60-73 | writing the time columns keeps the timestamp order |
| Timing.SortAndTimeDiff | preprocess.py:55-73 | `KeyError('timestamp')` exactly for an empty ride; otherwise a timestamp-ordered permutation with gaps, the first difference and the running totals written |
| Timing.CumulativeNondecreasing | preprocess.py:71 | after the stage the cumulative time never decreases along the ride |
| Timing.RegularFirstDiff | preprocess.py:66-68 | at a regular positive spacing c the first record's difference is c |
| Timing.FirstDiffWithinGaps | preprocess.py:66-68 | the filled first difference lies within positive bounds of the gaps |
| Timing.DiffsPresent | preprocess.py:63-68 | with two or more records every record has a time difference |
| PowerValidation.GapLimit | preprocess.py:258-260 | None means unlimited, a positive integer is a limit, anything else is a ValueError |
| PowerValidation.Clean | preprocess.py:250-254 | readings in [0, max] are kept, negative readings become 0, readings above max become missing; a kept reading lies in [0, max] |
| PowerValidation.CleanIdempotent | preprocess.py:250-254 | cleaning twice is the same as cleaning once |
| PowerValidation.ValidatePower | preprocess.py:241-262 | no power at all returns the ride unchanged; otherwise only power changes, valid readings survive, every reading ends in [0, max], and a rejected gap limit is a ValueError |
| Interpolation.Interpolate | preprocess.py:260 | present values are kept, and a gap position is filled exactly when some earlier value exists within the limit |
| Interpolation.LeadingGapKept | preprocess.py:260 | positions before the first reading stay missing |
| Interpolation.InteriorBetween | preprocess.py:260 | a filled interior gap value lies between the two readings around it |
| Interpolation.FilledWithin | preprocess.py:260 | interpolation never leaves the range of the readings |
| Stops.StopFlags | preprocess.py:93-102 | a sample is stopped exactly when it is slow, and also under 10 rpm (missing as 1000) when the ride has cadence, and also under 30 W (missing as 1000) when it has power |
| Stops.ClearRange | preprocess.py:123 | exactly the positions from start to i are taken out of cruising |
| Stops.MarkedExtend | preprocess.py:112-128 | one more loop step marks a position exactly when the current run began at or before it and has lasted long enough |
| Stops.MarkStep | preprocess.py:112-128 | one loop iteration keeps the invariant "cruising exactly when not yet marked" |
| Stops.MarkStopRuns | preprocess.py:107-128 | the hysteresis loop leaves a sample cruising exactly when no prefix of its stop run reaching the sample lasted the minimum duration |
| Stops.DurationMonotone | preprocess.py:117-119 | with non-negative differences a run's accumulated duration never decreases |
| Stops.WholeRun | preprocess.py:107-128 | a stopped sample is taken out exactly when its whole run lasts at least the minimum duration, retroactively from the run's start |
| Stops.SameRunSameVerdict | preprocess.py:121-123 | all samples of one stop run share the same verdict |
| Stops.MarkStops | preprocess.py:83-130 | KeyErrors for missing km/h speed, and for missing time differences once a sample is stopped; otherwise only the two flags change, as the reference definition says |
| Stops.MovingIsCruising | preprocess.py:104-128 | a sample that is not stopped stays cruising |
| Stops.FastNeverStopped | preprocess.py:94 | a sample at or above the stop speed is never stopped |
| Acceleration.SpeedDiff | preprocess.py:145 | the previous speed plus the change gives the current speed; the first change is 0 |
| Acceleration.Rate | preprocess.py:148-152 | rate × dt is the speed change when dt is present and positive; otherwise the rate is 0 |
| Acceleration.Accelerated | preprocess.py:144-156 | each record gains its acceleration and speed change and keeps every other field and extra |
| Acceleration.CalculateAcceleration | preprocess.py:140-158 | KeyErrors for an empty ride and for a ride with no time differences; otherwise each record is accelerated |
| Acceleration.NoRateWithoutTime | preprocess.py:148-152 | the first sample and samples without a positive time difference have acceleration 0 |
| Acceleration.ConstantSpeedNoAcceleration | preprocess.py:145-152 | at constant speed the acceleration is 0 everywhere |
| Acceleration.AccelerationSign | preprocess.py:148-152 | a speed gain gives a positive acceleration and a loss a negative one |
| Variability.SampleVariance | preprocess.py:184-187 | the sample variance is non-negative |
| Variability.ConstantVariance | preprocess.py:184-187 | identical speeds have zero variance |
| Variability.RawStd | preprocess.py:184-186 | a rolling deviation exists exactly when its window is complete, holds at least two samples and has no missing speed |
| Stats.WindowPoints | preprocess.py:181 | the window is the whole part of span / spacing when that ratio is at least 1, and 1 otherwise |
| Stats.WindowLo | preprocess.py:184-186 | the centred window never starts after its centre |
| Stats.WindowHi | preprocess.py:184-186 | the centred window ends after its centre and within the column |
| Stats.CentredWindow | preprocess.py:184-186 | the centred window holds (w - 1) / 2 positions after the centre and the rest before it, clipped to the column, and is complete exactly when it holds all w positions |
| Variability.StdWindow | preprocess.py:177-181 | the window is the whole number of mean spacings in the configured seconds, at least 1 |
| Variability.FillGaps | preprocess.py:187 | computed deviations are kept; every gap takes one of the computed values, or 0 when none was computed |
| Variability.MeanDt | preprocess.py:177-179 | the spacing is the mean time difference when positive, else 1 s |
| Variability.SpeedVariability | preprocess.py:168-189 | KeyErrors for missing time differences, then km/h speed; otherwise each record gains its filled deviation and nothing else changes |
| Variability.DeviationsPresent | preprocess.py:184-187 | after the stage every record has a deviation |
| Variability.ConstantSpeedNoVariability | preprocess.py:184-187 | at constant speed every deviation is 0 |
| NonCruising.BaselineStd | preprocess.py:211-218 | the mean deviation of the cruising samples, or of all samples when none cruises, else 0.5 |
| NonCruising.StdThreshold | preprocess.py:225 | the factor scales the baseline above 0.01, otherwise the factor alone is the threshold |
| NonCruising.MarkNonCruising | preprocess.py:199-231 | KeyErrors in read order; otherwise only the cruising flag changes, and it stays set exactly when the sample passes the acceleration, deviation and minimum-speed tests |
| NonCruising.OnlyClears | preprocess.py:221-229 | a sample that is cruising afterwards was cruising before, is not too slow and does not accelerate too hard |
| NonCruising.SteadyBaseline | preprocess.py:211-218 | with some cruising sample and a constant deviation c, the baseline is c |
| NonCruising.SteadyVariationNotErratic | preprocess.py:225-226 | with a factor of at least 1, a constant deviation takes no sample out |
| NonCruising.BaselineWithin | preprocess.py:211-218 | the baseline lies within the range of the deviations it averages |
| Pipeline.RunStages | preprocess.py:308-312 | no stage returns the input; a failing first stage is the result; a success means the first stage succeeded |
| Pipeline.EffectiveConfig | preprocess.py:305-306 | no configuration means the defaults; a given one is used as is, without merging |
| Pipeline.Process | preprocess.py:294-312 | an empty pipeline returns the ride unchanged |
| Pipeline.AddProcessor | preprocess.py:281-292 | the stage is appended after the existing ones |
| Pipeline.DefaultPipeline | preprocess.py:315-325 | the default pipeline has seven stages |
| Pipeline.RunStagesAppend | preprocess.py:308-312 | running a + b is running a, then b on its output, with the first error propagated |
| Pipeline.AddProcessorRunsLast | preprocess.py:281-312 | an added stage runs last, on the result of the others |
| Pipeline.LaterStageKeeps | preprocess.py:137-262 | stages after sorting leave timestamps, km/h speeds and time differences unchanged |
| Pipeline.RunStagesCons | preprocess.py:308-312 | running a list is running its first stage, then the rest |
| Pipeline.DefaultSplit | preprocess.py:315-325 | the default pipeline is convert-and-sort followed by the five later stages |
| Pipeline.LaterStagesKeep | preprocess.py:308-312 | any list of later stages keeps timestamps, speeds and time differences |
| Pipeline.NonCruisingSucceeds | preprocess.py:199-231 | the last stage succeeds when the first record carries all the columns it reads |
| Pipeline.VariabilityOnwardSucceeds | preprocess.py:168-231 | the last two stages succeed on a ride whose first record is timed and accelerated |
| Pipeline.AccelerationOnwardSucceeds | preprocess.py:140-231 | the last three stages succeed on a ride whose first record is timed |
| Pipeline.StopsOnwardSucceeds | preprocess.py:83-231 | the last four stages succeed on a ride whose first record is timed |
| Pipeline.LaterStagesSucceed | preprocess.py:83-262 | the five later stages succeed on a timed ride when the power configuration is accepted |
| Pipeline.AccelerationOnwardFails | preprocess.py:140-158 | a lone untimed record makes the acceleration stage fail |
| Pipeline.StopsOnwardFails | preprocess.py:83-158 | a lone untimed record makes the stages from the stop stage on fail |
| Pipeline.LaterStagesFail | preprocess.py:83-262 | a lone untimed record makes the later stages fail |
| Pipeline.SortedConverted | preprocess.py:41-73 | converting and sorting a non-empty ride succeeds; with two records or more the first is timed, with one it is not |
| Pipeline.DefaultSucceedsIffTwoRecords | preprocess.py:315-325 | with an accepted configuration the default stages succeed exactly when the ride has at least two records |
| Pipeline.DefaultPipelineSucceeds | preprocess.py:294-325 | the default pipeline with the default configuration succeeds exactly when the ride has at least two records |
| Pipeline.DefaultOutputSorted | preprocess.py:55-73 | the default pipeline's output has the input's length and is in timestamp order |
| Pipeline.LaterStagesKeepOrder | preprocess.py:137-262 | later stages keep a timestamp-ordered ride ordered |
| CruisingSpeed.CruisingColumn | compute.py:38 | a channel restricted to the cruising samples: other samples read as missing |
| CruisingSpeed.TimeWeightedMean | compute.py:62-64 | the mean times the total cruising time is the time-weighted sum of the channel |
| CruisingSpeed.OptionalMetric | compute.py:81-102 | a metric is reported exactly when some cruising sample carries the channel |
| CruisingSpeed.Summary | compute.py:37-79 | no cruising sample, a non-positive cruising time, or the metrics, with the cruising count between 1 and the ride length |
| CruisingSpeed.Calculate | compute.py:25-79 | KeyErrors for an empty ride and for each column read before the answer; otherwise the summary |
| CruisingSpeed.TimeWeightedWithin | compute.py:62-64 | with non-negative time differences a time-weighted mean lies within the channel's range |
| CruisingSpeed.MetricWithin | compute.py:86-102 | a channel every weighted cruising sample carries is reported and lies within its range |
| CruisingSpeed.CruisingSpeedWithin | compute.py:62-69 | the cruising speed and the average speed lie within the range of the cruising speeds |
| CruisingSpeed.ConstantCruisingSpeed | compute.py:62-69 | at one constant speed the cruising speed and the average speed are that speed |
| CruisingSpeed.OnlyCruisingSamplesCount | compute.py:38-102 | rides that agree on the cruising samples and their flags give the same summary |
| CruisingSpeed.KeptNotTooSlow | preprocess.py:229 | a sample left cruising by the non-cruising stage is not below the minimum speed |
| CruisingSpeed.CruisingAtLeastMinSpeed | compute.py:62-64 | after the non-cruising stage the cruising speed is at least the minimum cruising speed |
| NormalizedPower.Exponent | compute.py:159 | the exponent is positive, 4 by default |
| NormalizedPower.Ftp | compute.py:198 | the FTP is used exactly when it is configured, not None and positive |
| NormalizedPower.AveragePower | compute.py:162-165 | time-weighted when the time differences sum to a positive total, else the plain mean |
| NormalizedPower.MeanTimeDiff | compute.py:177 | the mean time difference, or 1 s without time differences |
| NormalizedPower.WindowPointsOf | compute.py:177-178 | the window is the whole number of mean spacings in the window seconds, at least 1 |
| NormalizedPower.RollingMean | compute.py:181-185 | the mean exists exactly when its clipped centred window holds some reading, so always around a present reading |
| NormalizedPower.RollingMeans | compute.py:181-185 | one rolling mean per sample, each the centred mean at that sample |
| NormalizedPower.PoweredRolling | compute.py:178-188 | some powered rolling mean is present whenever the ride has power |
| NormalizedPower.Calculate | compute.py:137-210 | no power, too short (sample count below the window seconds) or the metrics; IF × FTP = NP exactly when FTP is positive, and ratio × average = NP exactly when the average is positive |
| NormalizedPower.RollingWithin | compute.py:181-185 | rolling means stay within the range of the readings |
| NormalizedPower.PoweredWithin | compute.py:188 | powering keeps non-negative values within the powered bounds |
| NormalizedPower.NpWithinPowerRange | compute.py:176-194 | Normalized Power lies within the range of non-negative power readings |
| NormalizedPower.ConstantPowerNp | compute.py:162-194 | at constant power p both Normalized Power and average power are p |
| NormalizedPower.AveragePowerWithin | compute.py:162-165 | the average power lies within the range of the readings when every timed sample has power |
| Calculators.CreateCalculator | compute.py:214-230 | one of the two calculators, keeping the given or an empty configuration; any other name is a ValueError naming it |
| Calculators.Run | compute.py:214-230 | a created calculator computes what its calculator's definition computes |
| Calculators.DefaultKindCruises | compute.py:214-226 | the default kind creates the cruising-speed calculator |
| Calculators.CruisingIgnoresConfig | compute.py:16-23 | the cruising-speed calculator's result does not depend on its configuration |
| Calculators.PowerCalculatorDefaults | compute.py:128-159 | without a configuration, NP uses a 30 s window, the fourth power and no FTP |

## Left out

- **FIT decoding.** `fitparse` decoding and file reading (parser.py:43-46, 112-130) are left out. The decoder's output is a parameter of `Parser.ParseMessages`, and a decode failure is `None`.
- **Printed output.** Printed warnings and the debugging printout are not modelled. Only the KeyErrors the printout can raise are kept.
- **Processor descriptions.** The processors' description strings are not modelled.
- **Floating point.** Numbers are exact reals. NaN is a missing value. The replacement of infinite accelerations (preprocess.py:156) cannot arise, because the division is guarded.
- **Roots.** The square root and the e-th root are parameters, not computed.
- **Timestamps.** Timestamps are seconds as reals, not datetimes.
- **Table round trip.** The record-to-table round trip is modelled only by its effect:
  - missing values are dropped;
  - derived columns land in `extra`;
  - dtype changes (ints to floats, object columns) are not modelled.
- **Config types.** A configuration value that is not a number, where a stage compares against it, would raise a TypeError in Python. The requires clauses `PipelineTyped`, `NonCruising.ConfTyped` and `NormalizedPower.NpConfTyped` exclude such values. This includes booleans, which Python would accept as 0 or 1.
- Sorting.SortBy: this is a stable insertion sort. pandas' default sort is not stable, so records with equal timestamps may come out in another order in the source.
- NormalizedPower.Exponent: only positive integer exponents are modelled. Python also accepts a real exponent, and raises ZeroDivisionError for 0.
- NormalizedPower.Calculate: requires a non-zero mean time difference where the window is computed (`WindowDefined`). In Python a zero mean raises an OverflowError at compute.py:178.
- CruisingSpeed.HeartRateOf: a heart-rate extra that is not a number reads as missing.
- Models.SetItem: requires the value to fit the declared field's type. Python would store any value.
- Config.DefaultConfig: its contract states the key set. The values are the module constants and are visible in the definition.
- **In-place updates.** The stages are pure functions. In the source, the speed conversion writes `speed_kmh` into the caller's own records and returns the same object (preprocess.py:43-45). Power validation returns the input object itself when there is no power column (preprocess.py:246-247). `add_processor` appends to the pipeline's own list and returns the pipeline (preprocess.py:290-292). Aliasing between the caller's ride and the result is not modelled: after a run, the caller's input in the source carries `speed_kmh`.
- **Closed stage set.** `Pipeline.Stage` lists only the seven processors of preprocess.py. The source's `add_processor` accepts any `Processor` subclass; user-defined processors are not modelled.
- **Message text.** The text of the "Ride too short" message is not built. `NormalizedPower.Outcome.RideTooShort` carries the window size it quotes.

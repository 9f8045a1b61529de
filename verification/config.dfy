/** The adjustable parameters (config.py): module constants, the default
    configuration dictionary and the merge of an override into a base. */
module Config {
  import opened Wrappers

  /** A configuration value as Python holds it. */
  datatype ConfValue = Int(i: int) | Real(r: real) | Bool(b: bool) | NoneValue

  /** A configuration dictionary. */
  type Conf = map<string, ConfValue>

  // Module constants (config.py:5-20).
  const StopSpeedThresholdKmh: real := 2.0
  const StopDurationSeconds: int := 5
  const AccelerationThresholdMps2: real := 1.5
  const RollingWindowAccel: int := 3
  const MinCruisingSpeedKmh: real := 10.0
  const RollingWindowSpeedStd: int := 5
  const SpeedStdDevThresholdFactor: real := 1.5
  const NpWindowSizeSeconds: int := 30
  const NpExponent: int := 4
  const MaxPowerThreshold: int := 3000

  // Dictionary keys.
  const StopSpeedKey := "stop_speed_threshold_kmh"
  const StopDurationKey := "stop_duration_seconds"
  const AccelerationKey := "acceleration_threshold_mps2"
  const MinCruisingSpeedKey := "min_cruising_speed_kmh"
  const RollingAccelKey := "rolling_window_accel"
  const RollingStdKey := "rolling_window_speed_std"
  const StdFactorKey := "speed_std_dev_threshold_factor"
  const NpWindowKey := "np_window_size_seconds"
  const NpExponentKey := "np_exponent"
  const MaxPowerKey := "max_power_threshold"
  const InterpolateKey := "interpolate_power_gaps"
  const PowerGapKey := "max_power_gap_seconds"
  const FtpKey := "ftp"

  /** The ten keys of the default configuration. */
  const DefaultKeys: set<string> := {
    StopSpeedKey, StopDurationKey, AccelerationKey, MinCruisingSpeedKey, RollingAccelKey,
    RollingStdKey, StdFactorKey, NpWindowKey, NpExponentKey, MaxPowerKey
  }

  /** `get_default_config()`: each key mapped to its module constant. */
  function DefaultConfig(): (c: Conf)
    ensures c.Keys == DefaultKeys
  {
    map[
      StopSpeedKey := Real(StopSpeedThresholdKmh),
      StopDurationKey := Int(StopDurationSeconds),
      AccelerationKey := Real(AccelerationThresholdMps2),
      MinCruisingSpeedKey := Real(MinCruisingSpeedKmh),
      RollingAccelKey := Int(RollingWindowAccel),
      RollingStdKey := Int(RollingWindowSpeedStd),
      StdFactorKey := Real(SpeedStdDevThresholdFactor),
      NpWindowKey := Int(NpWindowSizeSeconds),
      NpExponentKey := Int(NpExponent),
      MaxPowerKey := Int(MaxPowerThreshold)
    ]
  }

  /** `merge_config(base, override)`: a fresh dictionary holding every key of
      either, the override winning on shared keys; no override means a copy of base. */
  function MergeConfig(base: Conf, override: Option<Conf>): (m: Conf)
    ensures override.None? ==> m == base
    ensures override.Some? ==> m.Keys == base.Keys + override.value.Keys
    ensures override.Some? ==> forall k :: k in override.value ==> m[k] == override.value[k]
    ensures override.Some? ==> forall k :: k in base && k !in override.value ==> m[k] == base[k]
  {
    match override
    case None => base
    case Some(o) => base + o
  }

  /** Merging an empty override gives back the base. */
  lemma MergeEmpty(base: Conf)
    ensures MergeConfig(base, Some(map[])) == base
  {
  }

  /** Merging twice with the same override changes nothing the second time. */
  lemma MergeIdempotent(base: Conf, o: Conf)
    ensures MergeConfig(MergeConfig(base, Some(o)), Some(o)) == MergeConfig(base, Some(o))
  {
  }

  /** Merging overrides one after the other equals merging their merge. */
  lemma MergeSequential(base: Conf, o1: Conf, o2: Conf)
    ensures MergeConfig(MergeConfig(base, Some(o1)), Some(o2))
         == MergeConfig(base, Some(MergeConfig(o1, Some(o2))))
  {
  }

  /** `conf.get(key, default)`. */
  function Get(conf: Conf, key: string, default: ConfValue): ConfValue {
    if key in conf then conf[key] else default
  }

  predicate IsNumber(v: ConfValue) {
    v.Int? || v.Real?
  }

  function AsReal(v: ConfValue): real
    requires IsNumber(v)
  {
    if v.Int? then v.i as real else v.r
  }

  /** Python truthiness of a configuration value. */
  predicate Truthy(v: ConfValue) {
    match v
    case Int(i) => i != 0
    case Real(r) => r != 0.0
    case Bool(b) => b
    case NoneValue => false
  }

  /** The key is absent or holds a number, so that comparing against it cannot
      raise a TypeError. */
  predicate NumericOrAbsent(conf: Conf, key: string) {
    key in conf ==> IsNumber(conf[key])
  }

  /** `conf.get(key, default)` read as a number. */
  function NumberOr(conf: Conf, key: string, default: real): (x: real)
    requires NumericOrAbsent(conf, key)
    ensures key !in conf ==> x == default
  {
    if key in conf then AsReal(conf[key]) else default
  }

  /** The thresholds the preprocessing stages compare against are numbers. */
  predicate PipelineTyped(conf: Conf) {
    && NumericOrAbsent(conf, StopSpeedKey)
    && NumericOrAbsent(conf, StopDurationKey)
    && NumericOrAbsent(conf, AccelerationKey)
    && NumericOrAbsent(conf, MinCruisingSpeedKey)
    && NumericOrAbsent(conf, RollingStdKey)
    && NumericOrAbsent(conf, StdFactorKey)
    && NumericOrAbsent(conf, MaxPowerKey)
  }

  /** The default configuration is well typed, and merging a well-typed
      override into it keeps it so. */
  lemma DefaultsTyped(o: Conf)
    requires PipelineTyped(o)
    ensures PipelineTyped(DefaultConfig())
    ensures PipelineTyped(MergeConfig(DefaultConfig(), Some(o)))
  {
  }
}

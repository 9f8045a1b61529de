/** The calculator factory (`create_calculator`, compute.py) and the dispatch
    of a created calculator's `calculate` to the two calculators. */
module Calculators {
  import opened Wrappers
  import opened Config
  import opened Models
  import CruisingSpeed
  import NormalizedPower

  /** A created calculator with the configuration it keeps (an empty one when
      none was given). */
  datatype Calculator =
    | CruisingSpeedCalculator(config: Conf)
    | NormalizedPowerCalculator(config: Conf)

  /** The kind the factory creates when none is named. */
  const DefaultKind := "cruising_speed"

  /** The factory: the cruising-speed or Normalized Power calculator by
      name, keeping the given configuration or an empty one; a ValueError
      naming any other kind. */
  function CreateCalculator(kind: string, conf: Option<Conf>): (r: Result<Calculator>)
    ensures r.Ok? <==> kind == "cruising_speed" || kind == "normalized_power"
    ensures r.Ok? ==> r.value.config == conf.GetOr(map[])
    ensures r.Ok? ==> (r.value.CruisingSpeedCalculator? <==> kind == "cruising_speed")
    ensures r.Err? ==> r.error == ValueError("Unsupported calculator type: " + kind)
  {
    var c := conf.GetOr(map[]);
    if kind == "cruising_speed" then Ok(CruisingSpeedCalculator(c))
    else if kind == "normalized_power" then Ok(NormalizedPowerCalculator(c))
    else Err(ValueError("Unsupported calculator type: " + kind))
  }

  /** What a calculator reports. */
  datatype Report =
    | CruisingReport(cruising: Result<CruisingSpeed.Outcome>)
    | PowerReport(power: NormalizedPower.Outcome)

  /** The calculator's configuration can be read without a TypeError, and the
      Normalized Power window is well defined on this ride. */
  predicate CanRun(calculator: Calculator, rs: seq<Record>) {
    calculator.NormalizedPowerCalculator? ==>
      NormalizedPower.NpConfTyped(calculator.config) && NormalizedPower.WindowDefined(rs, calculator.config)
  }

  /** `calculator.calculate(data)`: each calculator on the ride, the Normalized
      Power one with its own configuration. */
  function Run(calculator: Calculator, rs: seq<Record>, root: (real, nat) -> real): (r: Report)
    requires CanRun(calculator, rs)
    ensures calculator.CruisingSpeedCalculator? ==> r == CruisingReport(CruisingSpeed.Calculate(rs))
    ensures calculator.NormalizedPowerCalculator? ==>
      r == PowerReport(NormalizedPower.Calculate(rs, calculator.config, root))
  {
    match calculator
    case CruisingSpeedCalculator(_) => CruisingReport(CruisingSpeed.Calculate(rs))
    case NormalizedPowerCalculator(conf) => PowerReport(NormalizedPower.Calculate(rs, conf, root))
  }

  /** The default kind creates the cruising-speed calculator, and a created
      calculator forgets nothing of its configuration. */
  lemma DefaultKindCruises(conf: Option<Conf>)
    ensures CreateCalculator(DefaultKind, conf).Ok?
    ensures CreateCalculator(DefaultKind, conf).value == CruisingSpeedCalculator(conf.GetOr(map[]))
  {
  }

  /** The cruising-speed calculator ignores its configuration: created with
      any configuration it reports what the calculation gives. */
  lemma CruisingIgnoresConfig(a: Option<Conf>, b: Option<Conf>, rs: seq<Record>, root: (real, nat) -> real)
    ensures Run(CreateCalculator("cruising_speed", a).value, rs, root)
         == Run(CreateCalculator("cruising_speed", b).value, rs, root)
  {
  }

  /** A Normalized Power calculator created without a configuration uses the
      defaults: a 30 s window and the fourth power. */
  lemma PowerCalculatorDefaults()
    ensures var calculator := CreateCalculator("normalized_power", None).value;
      && NormalizedPower.NpConfTyped(calculator.config)
      && NormalizedPower.WindowSize(calculator.config) == 30.0
      && NormalizedPower.Exponent(calculator.config) == 4
      && NormalizedPower.Ftp(calculator.config).None?
  {
  }
}

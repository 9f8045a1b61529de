/** The power clean-up stage (`ValidatePowerData`, preprocess.py): negative
    readings become 0, readings above the maximum become missing, and, unless
    switched off, short gaps are filled by linear interpolation. */
module PowerValidation {
  import opened Wrappers
  import opened Config
  import opened Models
  import opened Interpolation

  /** The interpolation limit from the `max_power_gap_seconds` setting: `None`
      means no limit; anything but a positive integer is rejected, as pandas
      rejects it. The setting counts samples, not seconds. */
  function GapLimit(v: ConfValue): (r: Result<Option<nat>>)
    ensures r.Ok? <==> v.NoneValue? || (v.Int? && v.i >= 1)
    ensures v.NoneValue? ==> r == Ok(None)
    ensures v.Int? && v.i >= 1 ==> r == Ok(Some(v.i))
    ensures r.Err? ==> r.error.ValueError?
  {
    match v
    case NoneValue => Ok(None)
    case Int(g) => if g >= 1 then Ok(Some(g)) else Err(ValueError("Limit must be greater than 0"))
    case _ => Err(ValueError("Limit must be an integer"))
  }

  /** The maximum plausible power. */
  function MaxPower(conf: Conf): real
    requires NumericOrAbsent(conf, MaxPowerKey)
  {
    NumberOr(conf, MaxPowerKey, MaxPowerThreshold as real)
  }

  /** One reading after clamping: negative to 0, then above the maximum to missing. */
  function Clean(x: Option<real>, maxP: real): (y: Option<real>)
    ensures x.None? ==> y.None?
    ensures x.Some? && 0.0 <= x.value <= maxP ==> y == x
    ensures x.Some? && x.value < 0.0 && maxP >= 0.0 ==> y == Some(0.0)
    ensures x.Some? && x.value > maxP ==> y.None?
    ensures y.Some? ==> 0.0 <= y.value <= maxP
  {
    match x
    case None => None
    case Some(p) =>
      var q := if p < 0.0 then 0.0 else p;
      if q > maxP then None else Some(q)
  }

  function CleanColumn(rs: seq<Record>, maxP: real): (ps: seq<Option<real>>)
    ensures |ps| == |rs|
    ensures forall i :: 0 <= i < |rs| ==> ps[i] == Clean(rs[i].power, maxP)
  {
    seq(|rs|, i requires 0 <= i < |rs| => Clean(rs[i].power, maxP))
  }

  /** The records with their power column replaced. */
  function WithPower(rs: seq<Record>, ps: seq<Option<real>>): (out: seq<Record>)
    requires |ps| == |rs|
    ensures |out| == |rs|
    ensures forall i :: 0 <= i < |rs| ==> out[i] == rs[i].(power := ps[i])
    ensures Column(out, PowerOf) == ps
  {
    var out := seq(|rs|, i requires 0 <= i < |rs| => rs[i].(power := ps[i]));
    assert Column(out, PowerOf) == ps;
    out
  }

  /** Interpolation is on (`interpolate_power_gaps`, default true). */
  predicate InterpolationOn(conf: Conf) {
    Truthy(Get(conf, InterpolateKey, Bool(true)))
  }

  /** The gap limit the configuration asks for (default 5). */
  function ConfLimit(conf: Conf): Result<Option<nat>> {
    GapLimit(Get(conf, PowerGapKey, Int(5)))
  }

  /** The stage. With no power reading at all the ride is returned as it
      came. Otherwise only the power column changes: readings already in
      [0, max] are kept, a cleaned reading is kept, and every present reading
      ends in [0, max]. A rejected gap limit is a ValueError. */
  function ValidatePower(rs: seq<Record>, conf: Conf): (r: Result<seq<Record>>)
    requires NumericOrAbsent(conf, MaxPowerKey)
    ensures !HasColumn(rs, PowerOf) ==> r == Ok(rs)
    ensures r.Err? <==> HasColumn(rs, PowerOf) && InterpolationOn(conf) && ConfLimit(conf).Err?
    ensures r.Err? ==> r.error.ValueError?
    ensures r.Ok? ==> |r.value| == |rs|
    ensures r.Ok? ==> forall i :: 0 <= i < |rs| ==> r.value[i] == rs[i].(power := r.value[i].power)
    ensures r.Ok? ==> forall i :: 0 <= i < |rs| && rs[i].power.Some? && 0.0 <= rs[i].power.value <= MaxPower(conf) ==>
      r.value[i].power == rs[i].power
    ensures r.Ok? && HasColumn(rs, PowerOf) ==> forall i :: 0 <= i < |rs| && Clean(rs[i].power, MaxPower(conf)).Some? ==>
      r.value[i].power == Clean(rs[i].power, MaxPower(conf))
    ensures r.Ok? && HasColumn(rs, PowerOf) ==> forall i :: 0 <= i < |rs| && r.value[i].power.Some? ==>
      0.0 <= r.value[i].power.value <= MaxPower(conf)
    ensures r.Ok? && HasColumn(rs, PowerOf) && !InterpolationOn(conf) ==>
      Column(r.value, PowerOf) == CleanColumn(rs, MaxPower(conf))
    ensures r.Ok? && HasColumn(rs, PowerOf) && InterpolationOn(conf) ==>
      Column(r.value, PowerOf) == Interpolate(CleanColumn(rs, MaxPower(conf)), ConfLimit(conf).value)
  {
    if !HasColumn(rs, PowerOf) then Ok(rs)
    else
      var maxP := MaxPower(conf);
      var cleaned := CleanColumn(rs, maxP);
      if InterpolationOn(conf) then
        var limit :- ConfLimit(conf);
        var filled := Interpolate(cleaned, limit);
        FilledWithin(cleaned, limit, 0.0, maxP);
        Ok(WithPower(rs, filled))
      else
        Ok(WithPower(rs, cleaned))
  }

  /** Cleaning twice with the same maximum is cleaning once. */
  lemma CleanIdempotent(x: Option<real>, maxP: real)
    ensures Clean(Clean(x, maxP), maxP) == Clean(x, maxP)
  {
  }
}

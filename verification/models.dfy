/** The ride's data structures (models.py): one sample record with declared
    fields and a free-form `extra` dictionary, accessible by key like a
    dictionary, and the ride as an ordered list of records. */
module Models {
  import opened Wrappers
  import opened Stats

  /** A value read from or written to a record by key. */
  datatype Value = Null | Num(n: real) | Flag(b: bool) | Dict(entries: map<string, Value>)

  /** One sample. Timestamps are seconds on a common clock. */
  datatype Record = Record(
    timestamp: real,
    speed: real,                      // m/s
    power: Option<real>,              // W
    cadence: Option<real>,            // rpm
    distance: Option<real>,           // m
    speedKmh: Option<real>,
    timeDiff: Option<real>,           // s since the previous sample
    acceleration: Option<real>,       // m/s^2
    isStopped: bool,
    isCruising: bool,
    extra: map<string, Value>)

  /** A fresh record: every optional field missing, not stopped, cruising,
      no extra entries. */
  function NewRecord(timestamp: real, speed: real): (r: Record)
    ensures r.timestamp == timestamp && r.speed == speed
    ensures r.power.None? && r.cadence.None? && r.distance.None?
    ensures r.speedKmh.None? && r.timeDiff.None? && r.acceleration.None?
    ensures !r.isStopped && r.isCruising
    ensures r.extra == map[]
  {
    Record(timestamp, speed, None, None, None, None, None, None, false, true, map[])
  }

  /** The declared fields of a record. */
  datatype Field =
    | Timestamp | Speed | Power | Cadence | Distance | SpeedKmh | TimeDiff
    | Acceleration | IsStopped | IsCruising | Extra

  /** The attribute name of a declared field. */
  function KeyOf(f: Field): string {
    match f
    case Timestamp => "timestamp"
    case Speed => "speed"
    case Power => "power"
    case Cadence => "cadence"
    case Distance => "distance"
    case SpeedKmh => "speed_kmh"
    case TimeDiff => "time_diff_seconds"
    case Acceleration => "acceleration"
    case IsStopped => "is_stopped"
    case IsCruising => "is_cruising"
    case Extra => "extra"
  }

  /** The declared field a key names, if any (`hasattr(record, key)`). */
  function FieldOf(key: string): (f: Option<Field>)
    ensures f.Some? ==> KeyOf(f.value) == key
    ensures f.None? ==> forall g: Field :: KeyOf(g) != key
  {
    if key == "timestamp" then Some(Timestamp)
    else if key == "speed" then Some(Speed)
    else if key == "power" then Some(Power)
    else if key == "cadence" then Some(Cadence)
    else if key == "distance" then Some(Distance)
    else if key == "speed_kmh" then Some(SpeedKmh)
    else if key == "time_diff_seconds" then Some(TimeDiff)
    else if key == "acceleration" then Some(Acceleration)
    else if key == "is_stopped" then Some(IsStopped)
    else if key == "is_cruising" then Some(IsCruising)
    else if key == "extra" then Some(Extra)
    else None
  }

  function OptValue(o: Option<real>): Value {
    if o.Some? then Num(o.value) else Null
  }

  /** The value of a declared field. */
  function FieldValue(r: Record, f: Field): Value {
    match f
    case Timestamp => Num(r.timestamp)
    case Speed => Num(r.speed)
    case Power => OptValue(r.power)
    case Cadence => OptValue(r.cadence)
    case Distance => OptValue(r.distance)
    case SpeedKmh => OptValue(r.speedKmh)
    case TimeDiff => OptValue(r.timeDiff)
    case Acceleration => OptValue(r.acceleration)
    case IsStopped => Flag(r.isStopped)
    case IsCruising => Flag(r.isCruising)
    case Extra => Dict(r.extra)
  }

  /** `record[key]`: a declared field by name, otherwise the `extra` entry,
      `None` when there is none. */
  function GetItem(r: Record, key: string): (v: Value)
    ensures FieldOf(key).Some? ==> v == FieldValue(r, FieldOf(key).value)
    ensures key == "extra" ==> v == Dict(r.extra)
    ensures FieldOf(key).None? && key !in r.extra ==> v == Null
    ensures FieldOf(key).None? && key in r.extra ==> v == r.extra[key]
  {
    match FieldOf(key)
    case Some(f) => FieldValue(r, f)
    case None => if key in r.extra then r.extra[key] else Null
  }

  /** The value has the shape the declared field expects; undeclared keys
      take anything. */
  predicate Fits(key: string, v: Value) {
    match FieldOf(key)
    case None => true
    case Some(f) =>
      match f
      case Timestamp => v.Num?
      case Speed => v.Num?
      case IsStopped => v.Flag?
      case IsCruising => v.Flag?
      case Extra => v.Dict?
      case _ => v.Num? || v.Null?
  }

  function AsOpt(v: Value): Option<real> {
    if v.Num? then Some(v.n) else None
  }

  /** `record[key] = v`: a declared field is overwritten, any other key goes
      into `extra`. */
  function SetItem(r: Record, key: string, v: Value): (s: Record)
    requires Fits(key, v)
    ensures FieldOf(key).None? ==> s == r.(extra := r.extra[key := v])
    ensures FieldOf(key).Some? && key != "extra" ==> s.extra == r.extra
  {
    match FieldOf(key)
    case None => r.(extra := r.extra[key := v])
    case Some(f) =>
      match f
      case Timestamp => r.(timestamp := v.n)
      case Speed => r.(speed := v.n)
      case Power => r.(power := AsOpt(v))
      case Cadence => r.(cadence := AsOpt(v))
      case Distance => r.(distance := AsOpt(v))
      case SpeedKmh => r.(speedKmh := AsOpt(v))
      case TimeDiff => r.(timeDiff := AsOpt(v))
      case Acceleration => r.(acceleration := AsOpt(v))
      case IsStopped => r.(isStopped := v.b)
      case IsCruising => r.(isCruising := v.b)
      case Extra => r.(extra := v.entries)
  }

  /** Reading a key right after setting it returns the value just set. */
  lemma GetAfterSet(r: Record, key: string, v: Value)
    requires Fits(key, v)
    ensures GetItem(SetItem(r, key, v), key) == v
  {
  }

  /** Setting one key leaves every other key reading as before, except that
      `extra` and the undeclared keys are two views of the same dictionary. */
  lemma SetLeavesOthers(r: Record, key: string, v: Value, other: string)
    requires Fits(key, v)
    requires other != key
    requires !(key == "extra" && FieldOf(other).None?)
    requires !(other == "extra" && FieldOf(key).None?)
    ensures GetItem(SetItem(r, key, v), other) == GetItem(r, other)
  {
    match FieldOf(other)
    case None =>
    case Some(g) =>
      if FieldOf(key).Some? {
        SetOtherField(r, key, v, g);
      }
  }

  /** Setting a declared field leaves every other declared field as it was. */
  lemma SetOtherField(r: Record, key: string, v: Value, g: Field)
    requires Fits(key, v) && FieldOf(key).Some? && KeyOf(g) != key
    ensures FieldValue(SetItem(r, key, v), g) == FieldValue(r, g)
  {
    var f := FieldOf(key).value;
    assert f != g;
    match g
    case Timestamp =>
    case Speed =>
    case Power =>
    case Cadence =>
    case Distance =>
    case SpeedKmh =>
    case TimeDiff =>
    case Acceleration =>
    case IsStopped =>
    case IsCruising =>
    case Extra =>
  }

  /** The ride: records in time order once sorted. */
  datatype RideData = RideData(records: seq<Record>) {
    /** `len(ride)`. */
    function Length(): (n: nat)
      ensures n == |records|
    {
      |records|
    }
  }

  /** One column of the ride's table. */
  function Column(rs: seq<Record>, f: Record -> Option<real>): (c: seq<Option<real>>)
    ensures |c| == |rs|
    ensures forall i :: 0 <= i < |rs| ==> c[i] == f(rs[i])
  {
    seq(|rs|, i requires 0 <= i < |rs| => f(rs[i]))
  }

  /** The `is_cruising` column, which every record holds. */
  function CruisingFlags(rs: seq<Record>): (fs: seq<bool>)
    ensures |fs| == |rs|
    ensures forall i :: 0 <= i < |rs| ==> fs[i] == rs[i].isCruising
  {
    seq(|rs|, i requires 0 <= i < |rs| => rs[i].isCruising)
  }

  /** An undeclared numeric column stored in `extra`; any non-number reads as missing. */
  function ExtraNum(r: Record, key: string): Option<real> {
    if key in r.extra && r.extra[key].Num? then Some(r.extra[key].n) else None
  }

  /** Store an optional number under an undeclared key: a missing value leaves
      no entry, as rebuilding records from a table drops missing cells. */
  function WithExtra(r: Record, key: string, x: Option<real>): (s: Record)
    ensures ExtraNum(s, key) == x
    ensures forall k :: k != key ==> ExtraNum(s, k) == ExtraNum(r, k)
    ensures s == r.(extra := s.extra)
  {
    if x.Some? then r.(extra := r.extra[key := Num(x.value)])
    else r.(extra := r.extra - {key})
  }

  // Columns read by the stages.
  function PowerOf(r: Record): Option<real> { r.power }
  function CadenceOf(r: Record): Option<real> { r.cadence }
  function SpeedOf(r: Record): Option<real> { Some(r.speed) }
  function SpeedKmhOf(r: Record): Option<real> { r.speedKmh }
  function TimeDiffOf(r: Record): Option<real> { r.timeDiff }
  function AccelerationOf(r: Record): Option<real> { r.acceleration }
  function TimestampOf(r: Record): real { r.timestamp }

  /** The table has the column: some record holds a value for it (records
      holding a missing value contribute no cell). */
  predicate HasColumn(rs: seq<Record>, f: Record -> Option<real>) {
    AnyPresent(Column(rs, f))
  }
}

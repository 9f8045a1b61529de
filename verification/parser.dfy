/** Turning decoded FIT `record` messages into ride records (parser.py). The
    binary decoder is outside the model: its output is a list of messages, each
    a map from field name to an optional number, or nothing when decoding failed. */
module Parser {
  import opened Wrappers
  import opened Models

  /** One decoded `record` message. A field the message lacks reads as missing. */
  type Message = map<string, Option<real>>

  const HeartRateKey := "heart_rate"
  const AltitudeKey := "altitude"
  const TemperatureKey := "temperature"

  /** `record_msg.get_value(name)`. */
  function GetValue(msg: Message, name: string): Option<real> {
    if name in msg then msg[name] else None
  }

  /** `get_field_value(msg, name, default)`: the stored value, or the default
      when the stored value is missing. */
  function GetFieldValue(msg: Message, name: string, default: Option<real>): (v: Option<real>)
    ensures GetValue(msg, name).Some? ==> v == GetValue(msg, name)
    ensures GetValue(msg, name).None? ==> v == default
  {
    var x := GetValue(msg, name);
    if x.Some? then x else default
  }

  /** `enhanced_speed` when the message has it, otherwise `speed`. */
  function ChosenSpeed(msg: Message): (s: Option<real>)
    ensures GetValue(msg, "enhanced_speed").Some? ==> s == GetValue(msg, "enhanced_speed")
    ensures GetValue(msg, "enhanced_speed").None? ==> s == GetValue(msg, "speed")
  {
    var e := GetFieldValue(msg, "enhanced_speed", None);
    if e.Some? then e else GetFieldValue(msg, "speed", None)
  }

  /** The message carries both a timestamp and a speed. */
  predicate Usable(msg: Message) {
    GetValue(msg, "timestamp").Some? && ChosenSpeed(msg).Some?
  }

  /** The `extra` dictionary of a parsed record: the non-missing values of
      heart rate, altitude and temperature. */
  function ExtraOf(msg: Message): (e: map<string, Value>)
    ensures forall k :: k in e <==> k in {HeartRateKey, AltitudeKey, TemperatureKey} && GetValue(msg, k).Some?
    ensures forall k :: k in e ==> e[k] == Num(GetValue(msg, k).value)
  {
    var hr := GetValue(msg, HeartRateKey);
    var alt := GetValue(msg, AltitudeKey);
    var temp := GetValue(msg, TemperatureKey);
    var e0: map<string, Value> := map[];
    var e1 := if hr.Some? then e0[HeartRateKey := Num(hr.value)] else e0;
    var e2 := if alt.Some? then e1[AltitudeKey := Num(alt.value)] else e1;
    if temp.Some? then e2[TemperatureKey := Num(temp.value)] else e2
  }

  /** The record built from a usable message. */
  function ToRecord(msg: Message): (r: Record)
    requires Usable(msg)
    ensures r.timestamp == GetValue(msg, "timestamp").value
    ensures r.speed == ChosenSpeed(msg).value
    ensures r.power == GetValue(msg, "power")
    ensures r.cadence == GetValue(msg, "cadence")
    ensures r.distance == GetValue(msg, "distance")
    ensures r.speedKmh.None? && r.timeDiff.None? && r.acceleration.None?
    ensures !r.isStopped && r.isCruising
    ensures r.extra == ExtraOf(msg)
  {
    var r := NewRecord(GetValue(msg, "timestamp").value, ChosenSpeed(msg).value);
    r.(power := GetFieldValue(msg, "power", None),
       cadence := GetFieldValue(msg, "cadence", None),
       distance := GetFieldValue(msg, "distance", None),
       extra := ExtraOf(msg))
  }

  /** The record loop of `parse_bytes`: usable messages become records, in
      message order; the others are skipped. */
  function Collect(msgs: seq<Message>): (rs: seq<Record>)
    ensures |rs| <= |msgs|
    ensures forall j :: 0 <= j < |rs| ==>
      exists k :: 0 <= k < |msgs| && Usable(msgs[k]) && rs[j] == ToRecord(msgs[k])
    ensures (forall k :: 0 <= k < |msgs| ==> Usable(msgs[k])) ==> |rs| == |msgs|
  {
    if |msgs| == 0 then []
    else
      var rest := Collect(msgs[..|msgs| - 1]);
      var m := msgs[|msgs| - 1];
      if Usable(m) then rest + [ToRecord(m)] else rest
  }

  /** Collecting a concatenation collects each part in order. */
  lemma {:induction false} CollectAppend(a: seq<Message>, b: seq<Message>)
    ensures Collect(a + b) == Collect(a) + Collect(b)
  {
    if |b| == 0 {
      assert a + b == a;
    } else {
      var n := |b| - 1;
      assert (a + b)[..|a + b| - 1] == a + b[..n];
      CollectAppend(a, b[..n]);
    }
  }

  /** One message yields one record exactly when it is usable. */
  lemma CollectSingle(m: Message)
    ensures Usable(m) ==> Collect([m]) == [ToRecord(m)]
    ensures !Usable(m) ==> Collect([m]) == []
  {
    assert [m][..0] == [];
  }

  /** Collecting yields no record exactly when no message is usable. */
  lemma {:induction false} CollectEmpty(msgs: seq<Message>)
    ensures Collect(msgs) == [] <==> forall i :: 0 <= i < |msgs| ==> !Usable(msgs[i])
  {
    if |msgs| > 0 {
      var n := |msgs| - 1;
      CollectEmpty(msgs[..n]);
      assert forall i :: 0 <= i < n ==> msgs[..n][i] == msgs[i];
    }
  }

  /** `FitParser.parse_bytes`: nothing when decoding failed or when no message
      carried both a timestamp and a speed, otherwise the collected records. */
  function ParseMessages(decoded: Option<seq<Message>>): (ride: Option<RideData>)
    ensures decoded.None? ==> ride.None?
    ensures decoded.Some? ==>
      (ride.None? <==> forall i :: 0 <= i < |decoded.value| ==> !Usable(decoded.value[i]))
    ensures ride.Some? ==> ride.value.records == Collect(decoded.value)
  {
    match decoded
    case None => None
    case Some(msgs) =>
      CollectEmpty(msgs);
      var rs := Collect(msgs);
      if |rs| == 0 then None else Some(RideData(rs))
  }

  /** The parsers the factory can build. */
  datatype ParserKind = FitParser

  /** ASCII lower-casing of one character. */
  function LowerChar(c: char): (d: char)
    ensures 'A' <= c <= 'Z' ==> 'a' <= d <= 'z'
    ensures !('A' <= c <= 'Z') ==> d == c
  {
    if 'A' <= c <= 'Z' then (c as int - 'A' as int + 'a' as int) as char else c
  }

  function Lower(s: string): (t: string)
    ensures |t| == |s|
    ensures forall i :: 0 <= i < |s| ==> t[i] == LowerChar(s[i])
  {
    seq(|s|, i requires 0 <= i < |s| => LowerChar(s[i]))
  }

  /** `ParserFactory.create(file_type)`: the FIT parser for "fit" in any
      letter case, a ValueError for anything else. */
  function CreateParser(fileType: string): (p: Result<ParserKind>)
    ensures p.Ok? <==> Lower(fileType) == "fit"
    ensures p.Err? ==> p.error.ValueError?
  {
    if Lower(fileType) == "fit" then Ok(FitParser)
    else Err(ValueError("Unsupported file type: " + fileType))
  }

  /** Every spelling of "fit" is accepted. */
  lemma CreateAnyCase(fileType: string)
    requires |fileType| == 3
    requires fileType[0] in {'f', 'F'} && fileType[1] in {'i', 'I'} && fileType[2] in {'t', 'T'}
    ensures CreateParser(fileType) == Ok(FitParser)
  {
    assert Lower(fileType) == "fit";
  }
}

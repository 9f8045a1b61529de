/** The unit-conversion stage (`ConvertSpeedToKmh`, preprocess.py). */
module Convert {
  import opened Wrappers
  import opened Models

  /** km/h per m/s. */
  const KmhPerMps: real := 3.6

  /** Every record gains `speed_kmh = 3.6 * speed`; nothing else changes. */
  function ConvertSpeed(rs: seq<Record>): (out: seq<Record>)
    ensures |out| == |rs|
    ensures forall i :: 0 <= i < |rs| ==> out[i].speedKmh == Some(KmhPerMps * rs[i].speed)
    ensures forall i :: 0 <= i < |rs| ==> out[i].(speedKmh := rs[i].speedKmh) == rs[i]
  {
    seq(|rs|, i requires 0 <= i < |rs| => rs[i].(speedKmh := Some(KmhPerMps * rs[i].speed)))
  }

  /** Converting twice is converting once. */
  lemma ConvertIdempotent(rs: seq<Record>)
    ensures ConvertSpeed(ConvertSpeed(rs)) == ConvertSpeed(rs)
  {
  }

  /** After conversion every record carries a speed in km/h, so the table has
      that column exactly when it has a row. */
  lemma ConvertedHasKmh(rs: seq<Record>)
    ensures HasColumn(ConvertSpeed(rs), SpeedKmhOf) <==> |rs| > 0
  {
    var out := ConvertSpeed(rs);
    if |rs| > 0 {
      assert Column(out, SpeedKmhOf)[0].Some?;
    }
  }
}

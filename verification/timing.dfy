/** The sorting stage (`SortAndCalculateTimeDiff`, preprocess.py): records in
    timestamp order, the time since the previous record, and the running
    total of those times. */
module Timing {
  import opened Wrappers
  import opened Stats
  import opened Sorting
  import opened Models

  const CumulativeKey := "cumulative_time_seconds"

  function Timestamps(rs: seq<Record>): (ts: seq<real>)
    ensures |ts| == |rs|
    ensures forall i :: 0 <= i < |rs| ==> ts[i] == rs[i].timestamp
  {
    seq(|rs|, i requires 0 <= i < |rs| => rs[i].timestamp)
  }

  /** The gaps between consecutive timestamps. */
  function Gaps(ts: seq<real>): (g: seq<real>)
    requires |ts| > 0
    ensures |g| == |ts| - 1
    ensures forall i :: 0 <= i < |g| ==> g[i] == ts[i + 1] - ts[i]
  {
    seq(|ts| - 1, i requires 0 <= i < |ts| - 1 => ts[i + 1] - ts[i])
  }

  /** The first record's time difference: with more than one record, the
      median gap when it is positive and 1 s otherwise; a lone record has none. */
  function FirstDiff(ts: seq<real>): (d: Option<real>)
    ensures d.Some? <==> |ts| > 1
    ensures d.Some? ==> d.value > 0.0
  {
    if |ts| > 1 then
      var m := Median(Gaps(ts));
      Some(if m > 0.0 then m else 1.0)
    else None
  }

  /** The time from record i - 1 to record i. */
  function Gap(ts: seq<real>, i: nat): real
    requires 0 < i < |ts|
  {
    ts[i] - ts[i - 1]
  }

  /** Time since the previous record, with the first record's given. */
  function Diffs(ts: seq<real>, first: Option<real>): (ds: seq<Option<real>>)
    ensures |ds| == |ts|
    ensures forall i :: 0 < i < |ts| ==> ds[i] == Some(Gap(ts, i))
    ensures |ts| > 0 ==> ds[0] == first
  {
    seq(|ts|, i requires 0 <= i < |ts| => if i == 0 then first else Some(Gap(ts, i)))
  }

  /** `cumsum().fillna(0)`: the sum of the present differences so far, 0 where
      the difference itself is missing. */
  function Cumulative(ds: seq<Option<real>>): (cs: seq<real>)
    ensures |cs| == |ds|
    ensures forall i :: 0 <= i < |ds| && ds[i].None? ==> cs[i] == 0.0
    ensures |ds| > 0 && ds[0].Some? ==> cs[0] == ds[0].value
  {
    assert |ds| > 0 ==> |ds[..1][..0]| == 0 && SumPresent(ds[..1][..0]) == 0.0;
    seq(|ds|, i requires 0 <= i < |ds| => if ds[i].None? then 0.0 else SumPresent(ds[..i + 1]))
  }

  /** The cumulative column grows by each present difference. */
  lemma CumulativeStep(ds: seq<Option<real>>, i: nat)
    requires 0 < i < |ds| && ds[i].Some? && ds[i - 1].Some?
    ensures Cumulative(ds)[i] == Cumulative(ds)[i - 1] + ds[i].value
  {
    assert ds[..i + 1] == ds[..i] + [ds[i]];
    SumAppend(ds[..i], ds[i]);
  }

  /** A column of time differences that is present after the first entry and
      never negative where present. */
  predicate DiffColumn(ds: seq<Option<real>>) {
    forall j :: 0 <= j < |ds| ==> (j > 0 ==> ds[j].Some?) && (ds[j].Some? ==> ds[j].value >= 0.0)
  }

  /** On such a column the cumulative time never decreases. */
  lemma CumulativeMonotone(ds: seq<Option<real>>, i: nat)
    requires DiffColumn(ds)
    requires 0 < i < |ds|
    ensures Cumulative(ds)[i - 1] <= Cumulative(ds)[i]
  {
    var before := ds[..i];
    assert forall j :: 0 <= j < |before| && before[j].Some? ==> before[j].value >= 0.0 by {
      forall j | 0 <= j < |before| ensures before[j] == ds[j] { }
    }
    SumNonnegative(before);
    assert ds[..i + 1] == before + [ds[i]];
    SumAppend(before, ds[i]);
    assert Cumulative(ds)[i] == SumPresent(before) + ds[i].value;
    assert Cumulative(ds)[i - 1] <= SumPresent(before);
  }

  /** The stored record differs from the sorted one only in its time difference
      and its cumulative time. */
  predicate Retimed(out: Record, src: Record) {
    && out == src.(timeDiff := out.timeDiff, extra := out.extra)
    && CumulativeKey in out.extra
    && out.extra == src.extra[CumulativeKey := out.extra[CumulativeKey]]
  }

  /** The cumulative time stored on each record. */
  function CumulativeOf(r: Record): Option<real> {
    ExtraNum(r, CumulativeKey)
  }

  /** Writes the two computed columns onto the sorted records. */
  function Retime(s: seq<Record>, ds: seq<Option<real>>): (out: seq<Record>)
    requires |ds| == |s|
    ensures |out| == |s|
    ensures forall i :: 0 <= i < |s| ==> Retimed(out[i], s[i])
    ensures forall i :: 0 <= i < |s| ==> out[i].timeDiff == ds[i]
    ensures forall i :: 0 <= i < |s| ==> out[i].timestamp == s[i].timestamp
    ensures forall i :: 0 <= i < |s| ==> CumulativeOf(out[i]) == Some(Cumulative(ds)[i])
  {
    var cs := Cumulative(ds);
    seq(|s|, i requires 0 <= i < |s| =>
      s[i].(timeDiff := ds[i], extra := s[i].extra[CumulativeKey := Num(cs[i])]))
  }

  /** The i-th record's time difference is the gap since the record before it. */
  predicate DiffIsGap(out: seq<Record>, i: nat)
    requires 0 < i < |out|
  {
    out[i].timeDiff == Some(out[i].timestamp - out[i - 1].timestamp)
  }

  /** The time columns of an already sorted, non-empty ride, given the first
      record's time difference. */
  function RetimeSorted(s: seq<Record>, first: Option<real>): (out: seq<Record>)
    requires |s| > 0
    ensures |out| == |s|
    ensures forall i :: 0 <= i < |s| ==> Retimed(out[i], s[i])
    ensures Column(out, TimeDiffOf) == Diffs(Timestamps(s), first)
    ensures forall i :: 0 <= i < |s| ==>
      CumulativeOf(out[i]) == Some(Cumulative(Column(out, TimeDiffOf))[i])
  {
    var out := Retime(s, Diffs(Timestamps(s), first));
    assert Column(out, TimeDiffOf) == Diffs(Timestamps(s), first);
    out
  }

  /** On a sorted ride the written differences are the gaps, present and
      non-negative after the first. */
  lemma RetimeSortedGaps(s: seq<Record>, first: Option<real>)
    requires |s| > 0 && SortedBy(s, TimestampOf)
    requires first.Some? ==> first.value > 0.0
    ensures forall i :: 0 < i < |s| ==> DiffIsGap(RetimeSorted(s, first), i)
    ensures DiffColumn(Column(RetimeSorted(s, first), TimeDiffOf))
  {
    var out := RetimeSorted(s, first);
    var ts := Timestamps(s);
    var ds := Diffs(ts, first);
    forall i | 0 < i < |s|
      ensures DiffIsGap(out, i) && ds[i].value >= 0.0
    {
      assert Column(out, TimeDiffOf)[i] == ds[i];
      assert out[i].timeDiff == ds[i] == Some(Gap(ts, i));
      assert out[i].timestamp == ts[i] && out[i - 1].timestamp == ts[i - 1];
      assert TimestampOf(s[i - 1]) <= TimestampOf(s[i]);
    }
  }

  /** Records that differ only in their time columns keep the order of their
      timestamps. */
  lemma RetimedSorted(out: seq<Record>, s: seq<Record>)
    requires |out| == |s| && SortedBy(s, TimestampOf)
    requires forall i :: 0 <= i < |s| ==> Retimed(out[i], s[i])
    ensures SortedBy(out, TimestampOf)
  {
    assert forall i :: 0 <= i < |s| ==> out[i].timestamp == s[i].timestamp;
  }

  /** The stage: a KeyError on an empty ride (the table has no timestamp
      column); otherwise the records in ascending timestamp order, each with
      its time difference and the running total of the differences. */
  function SortAndTimeDiff(rs: seq<Record>): (r: Result<seq<Record>>)
    ensures r.Err? <==> |rs| == 0
    ensures r.Err? ==> r.error == KeyError("timestamp")
    ensures r.Ok? ==> |r.value| == |rs|
    ensures r.Ok? ==> SortedBy(r.value, TimestampOf)
    ensures r.Ok? ==> forall i :: 0 <= i < |rs| ==> Retimed(r.value[i], SortBy(rs, TimestampOf)[i])
    ensures r.Ok? ==> forall i :: 0 < i < |rs| ==> DiffIsGap(r.value, i)
    ensures r.Ok? ==> r.value[0].timeDiff == FirstDiff(Timestamps(SortBy(rs, TimestampOf)))
    ensures r.Ok? ==> DiffColumn(Column(r.value, TimeDiffOf))
    ensures r.Ok? ==> forall i :: 0 <= i < |rs| ==>
      CumulativeOf(r.value[i]) == Some(Cumulative(Column(r.value, TimeDiffOf))[i])
  {
    if |rs| == 0 then Err(KeyError("timestamp"))
    else
      var s := SortBy(rs, TimestampOf);
      var out := RetimeSorted(s, FirstDiff(Timestamps(s)));
      RetimeSortedGaps(s, FirstDiff(Timestamps(s)));
      RetimedSorted(out, s);
      assert Column(out, TimeDiffOf)[0] == out[0].timeDiff;
      Ok(out)
  }

  /** Cumulative time never decreases along the sorted ride. */
  lemma CumulativeNondecreasing(rs: seq<Record>, i: nat)
    requires SortAndTimeDiff(rs).Ok?
    requires 0 < i < |rs|
    ensures CumulativeOf(SortAndTimeDiff(rs).value[i - 1]).value
         <= CumulativeOf(SortAndTimeDiff(rs).value[i]).value
  {
    CumulativeMonotone(Column(SortAndTimeDiff(rs).value, TimeDiffOf), i);
  }

  /** When every gap is the same positive c, the first record's time
      difference is c as well. */
  lemma RegularFirstDiff(ts: seq<real>, c: real)
    requires |ts| > 1 && c > 0.0
    requires forall i :: 0 < i < |ts| ==> ts[i] - ts[i - 1] == c
    ensures FirstDiff(ts) == Some(c)
  {
    var g := Gaps(ts);
    assert forall i :: 0 <= i < |g| ==> g[i] == ts[i + 1] - ts[i];
    MedianConstant(g, c);
  }

  /** The first record's time difference lies between the smallest and the
      largest gap whenever the gaps are positive. */
  lemma FirstDiffWithinGaps(ts: seq<real>, lo: real, hi: real)
    requires |ts| > 1 && lo > 0.0
    requires forall i :: 0 < i < |ts| ==> lo <= ts[i] - ts[i - 1] <= hi
    ensures lo <= FirstDiff(ts).value <= hi
  {
    var g := Gaps(ts);
    assert forall i :: 0 <= i < |g| ==> lo <= g[i] <= hi by {
      forall i | 0 <= i < |g| ensures lo <= g[i] <= hi {
        assert g[i] == ts[i + 1] - ts[i];
      }
    }
    MedianWithin(g, lo, hi);
  }

  /** With two or more records every time difference is present, so the table
      has the time-difference column in full. */
  lemma DiffsPresent(rs: seq<Record>)
    requires |rs| > 1
    ensures forall i :: 0 <= i < |rs| ==> SortAndTimeDiff(rs).value[i].timeDiff.Some?
  {
  }
}

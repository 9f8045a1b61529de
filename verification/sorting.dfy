/** Sorting by a real-valued key (`sort_values`) and the median (`Series.median()`). */
module Sorting {

  /** Ascending by key. */
  predicate SortedBy<T>(s: seq<T>, key: T -> real) {
    forall i, j :: 0 <= i < j < |s| ==> key(s[i]) <= key(s[j])
  }

  /** Inserts x in front of the first element whose key is not below x's, so that
      an element keeps its place before later elements with an equal key. */
  function Insert<T>(x: T, s: seq<T>, key: T -> real): (r: seq<T>)
    requires SortedBy(s, key)
    ensures SortedBy(r, key)
    ensures multiset(r) == multiset(s) + multiset{x}
  {
    if |s| == 0 || key(x) <= key(s[0]) then [x] + s
    else
      var t := Insert(x, s[1..], key);
      assert s == [s[0]] + s[1..];
      HeadBelowInserted(x, s, t, key);
      ConsSorted(s[0], t, key);
      [s[0]] + t
  }

  /** The first element of a sorted sequence has the least key. */
  lemma HeadIsLeast<T>(s: seq<T>, key: T -> real, y: T)
    requires SortedBy(s, key) && y in multiset(s)
    ensures key(s[0]) <= key(y)
  {
    var i :| 0 <= i < |s| && s[i] == y;
  }

  /** Inserting x, whose key is above the head's, into the tail keeps every
      element at or above the head. */
  lemma HeadBelowInserted<T>(x: T, s: seq<T>, t: seq<T>, key: T -> real)
    requires SortedBy(s, key) && |s| > 0 && key(s[0]) <= key(x)
    requires multiset(t) == multiset(s[1..]) + multiset{x}
    ensures forall j :: 0 <= j < |t| ==> key(s[0]) <= key(t[j])
  {
    assert s == [s[0]] + s[1..];
    forall j | 0 <= j < |t|
      ensures key(s[0]) <= key(t[j])
    {
      assert t[j] in multiset(t);
      if t[j] != x {
        assert t[j] in multiset(s);
        HeadIsLeast(s, key, t[j]);
      }
    }
  }

  /** A sorted sequence stays sorted behind an element whose key is at most
      all of its keys. */
  lemma ConsSorted<T>(h: T, t: seq<T>, key: T -> real)
    requires SortedBy(t, key)
    requires forall j :: 0 <= j < |t| ==> key(h) <= key(t[j])
    ensures SortedBy([h] + t, key)
  {
    var r := [h] + t;
    assert forall j :: 0 < j < |r| ==> r[j] == t[j - 1];
  }

  /** Insertion sort: an ascending rearrangement of s. */
  function SortBy<T>(s: seq<T>, key: T -> real): (r: seq<T>)
    ensures SortedBy(r, key)
    ensures multiset(r) == multiset(s)
    ensures |r| == |s|
  {
    if |s| == 0 then []
    else
      assert s == [s[0]] + s[1..];
      Insert(s[0], SortBy(s[1..], key), key)
  }

  function Identity(x: real): real {
    x
  }

  /** The median of a non-empty list of reals: the middle element once sorted,
      or the mean of the two middle elements when the length is even. */
  function Median(xs: seq<real>): real
    requires |xs| > 0
  {
    Middle(SortBy(xs, Identity))
  }

  /** The middle element of an ordered list, or the mean of the two middle
      ones when the length is even. */
  function Middle(t: seq<real>): real
    requires |t| > 0
  {
    var k := |t| / 2;
    if |t| % 2 == 1 then t[k] else (t[k - 1] + t[k]) / 2.0
  }

  /** The middle lies within any bounds of the list. */
  lemma MiddleWithin(t: seq<real>, lo: real, hi: real)
    requires |t| > 0
    requires forall i :: 0 <= i < |t| ==> lo <= t[i] <= hi
    ensures lo <= Middle(t) <= hi
  {
    var k := |t| / 2;
    assert lo <= t[k] <= hi;
    if |t| % 2 == 0 {
      assert lo <= t[k - 1] <= hi;
    }
  }

  /** Every element of a sorted copy comes from the original. */
  lemma SortedFromOriginal<T>(s: seq<T>, key: T -> real, j: int)
    requires 0 <= j < |s|
    ensures SortBy(s, key)[j] in s
  {
    var t := SortBy(s, key);
    assert t[j] in multiset(t);
  }

  /** The median lies within any bounds that hold for every element. */
  lemma MedianWithin(xs: seq<real>, lo: real, hi: real)
    requires |xs| > 0
    requires forall i :: 0 <= i < |xs| ==> lo <= xs[i] <= hi
    ensures lo <= Median(xs) <= hi
  {
    var t := SortBy(xs, Identity);
    forall j | 0 <= j < |t|
      ensures lo <= t[j] <= hi
    {
      ElementWithin(xs, lo, hi, j);
    }
    MiddleWithin(t, lo, hi);
  }

  /** Each element of the sorted copy lies within the original's bounds. */
  lemma ElementWithin(xs: seq<real>, lo: real, hi: real, j: int)
    requires 0 <= j < |xs|
    requires forall i :: 0 <= i < |xs| ==> lo <= xs[i] <= hi
    ensures lo <= SortBy(xs, Identity)[j] <= hi
  {
    SortedFromOriginal(xs, Identity, j);
    var i :| 0 <= i < |xs| && xs[i] == SortBy(xs, Identity)[j];
  }

  /** The median of a constant list is that constant. */
  lemma MedianConstant(xs: seq<real>, c: real)
    requires |xs| > 0
    requires forall i :: 0 <= i < |xs| ==> xs[i] == c
    ensures Median(xs) == c
  {
    MedianWithin(xs, c, c);
  }
}

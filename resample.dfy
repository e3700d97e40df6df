/**
 * Daily resampling (`resample('D').max()`) followed by the sum across
 * locations (`sum(axis=1)`).
 *
 * Column labels have already been turned into calendar day numbers; several
 * columns may fall on the same day and their order is arbitrary. The daily
 * index runs from the earliest to the latest day with no gaps; each location's
 * entry for a day is the largest of its readings on that day, or missing when
 * it has none, and a missing entry adds 0 to the day's total.
 */
module Resample {
  import opened Wrappers

  /** One entry of a daily series: a calendar day number and its value. */
  datatype Entry<+V> = Entry(day: int, value: V)

  /** A cell matrix: `m` rows of `width` cells each. */
  predicate Rect(m: seq<seq<Option<nat>>>, width: nat) {
    forall k :: 0 <= k < |m| ==> |m[k]| == width
  }

  /** No two columns fall on the same calendar day. */
  predicate DistinctDays(days: seq<int>) {
    forall j, k :: 0 <= j < k < |days| ==> days[j] != days[k]
  }

  function MinOf(xs: seq<int>): (m: int)
    requires |xs| > 0
    ensures m in xs && forall j :: 0 <= j < |xs| ==> m <= xs[j]
  {
    if |xs| == 1 then xs[0]
    else
      var rest := MinOf(xs[1..]);
      if xs[0] <= rest then xs[0] else rest
  }

  function MaxOf(xs: seq<int>): (m: int)
    requires |xs| > 0
    ensures m in xs && forall j :: 0 <= j < |xs| ==> xs[j] <= m
  {
    if |xs| == 1 then xs[0]
    else
      var rest := MaxOf(xs[1..]);
      if xs[0] >= rest then xs[0] else rest
  }

  /**
   * The daily index: one entry per calendar day from the earliest column's day
   * to the latest, strictly ascending with no gaps; empty without columns.
   */
  function DayIndex(days: seq<int>): (r: seq<int>)
    ensures |days| == 0 <==> r == []
    ensures |days| > 0 ==> r[0] in days && r[|r| - 1] in days
    ensures forall j :: 0 <= j < |days| ==> days[j] in r
    ensures forall i :: 0 <= i < |r| ==> r[0] <= r[i] <= r[|r| - 1]
    ensures forall j :: 0 <= j < |days| ==> r[0] <= days[j] <= r[|r| - 1]
    ensures forall i :: 0 < i < |r| ==> r[i] == r[i - 1] + 1
  {
    if days == [] then []
    else
      var lo, hi := MinOf(days), MaxOf(days);
      var r := Span(lo, hi);
      SpanCovers(days, lo, hi);
      r
  }

  /** The consecutive days `lo..hi`. */
  function Span(lo: int, hi: int): (r: seq<int>)
    requires lo <= hi
    ensures |r| == hi - lo + 1 && forall i :: 0 <= i < |r| ==> r[i] == lo + i
  {
    seq(hi - lo + 1, i requires 0 <= i <= hi - lo => lo + i)
  }

  lemma SpanCovers(days: seq<int>, lo: int, hi: int)
    requires forall j :: 0 <= j < |days| ==> lo <= days[j] <= hi
    requires lo <= hi
    ensures forall j :: 0 <= j < |days| ==> days[j] in Span(lo, hi)
  {
    var r := Span(lo, hi);
    forall j | 0 <= j < |days| ensures days[j] in r {
      assert r[days[j] - lo] == days[j];
    }
  }

  /** The largest present reading of one location on day `d`, or missing when there is none. */
  function DayMax(days: seq<int>, cells: seq<Option<nat>>, d: int): (r: Option<nat>)
    requires |cells| == |days|
    ensures r.None? <==> forall j :: 0 <= j < |days| && days[j] == d ==> cells[j].None?
    ensures r.Some? ==> exists j :: 0 <= j < |days| && days[j] == d && cells[j] == r
    ensures r.Some? ==> forall j :: 0 <= j < |days| && days[j] == d && cells[j].Some? ==> cells[j].value <= r.value
  {
    if days == [] then None
    else
      var rest := DayMax(days[1..], cells[1..], d);
      if days[0] != d || cells[0].None? then rest
      else if rest.Some? && rest.value >= cells[0].value then rest
      else cells[0]
  }

  /** The day's total across locations after resampling: the sum of each location's daily maximum, missing counted as 0. */
  function DaySum(days: seq<int>, m: seq<seq<Option<nat>>>, d: int): (r: nat)
    requires Rect(m, |days|)
    ensures forall k :: 0 <= k < |m| ==> DayMax(days, m[k], d).GetOr(0) <= r
    ensures (forall k :: 0 <= k < |m| ==> DayMax(days, m[k], d).None?) ==> r == 0
  {
    if m == [] then 0 else DayMax(days, m[0], d).GetOr(0) + DaySum(days, m[1..], d)
  }

  /** The total of column `j` across locations, missing counted as 0. */
  function ColumnTotal(m: seq<seq<Option<nat>>>, j: nat): nat
    requires forall k :: 0 <= k < |m| ==> j < |m[k]|
  {
    if m == [] then 0 else m[0][j].GetOr(0) + ColumnTotal(m[1..], j)
  }

  /** Resample every location to daily and sum across locations: one entry per day of the daily index. */
  function DailyTotals(days: seq<int>, m: seq<seq<Option<nat>>>): (r: seq<Entry<nat>>)
    requires Rect(m, |days|)
    ensures |r| == |DayIndex(days)|
    ensures forall i :: 0 <= i < |r| ==> r[i].day == DayIndex(days)[i]
    ensures forall i :: 0 <= i < |r| ==> r[i].value == DaySum(days, m, r[i].day)
  {
    var idx := DayIndex(days);
    seq(|idx|, i requires 0 <= i < |idx| => Entry(idx[i], DaySum(days, m, idx[i])))
  }

  /**
   * `s` is a daily series over the column days `days`: empty exactly when there
   * are no columns, one entry per consecutive day, starting and ending on a
   * column's day, and every column's day has an entry.
   */
  ghost predicate DailyOver<V>(s: seq<Entry<V>>, days: seq<int>) {
    && (|s| == 0 <==> |days| == 0)
    && (forall i :: 0 < i < |s| ==> s[i].day == s[i - 1].day + 1)
    && (|s| > 0 ==> exists j :: 0 <= j < |days| && days[j] == s[0].day)
    && (|s| > 0 ==> exists j :: 0 <= j < |days| && days[j] == s[|s| - 1].day)
    && (forall j :: 0 <= j < |days| ==> exists i :: 0 <= i < |s| && s[i].day == days[j])
  }

  /** Days of a daily series strictly ascend. */
  lemma DailyAscending<V>(s: seq<Entry<V>>, days: seq<int>, i: nat, k: nat)
    requires DailyOver(s, days) && i < k < |s|
    ensures s[i].day < s[k].day
    decreases k - i
  {
    if k > i + 1 {
      DailyAscending(s, days, i, k - 1);
    }
  }

  /** A series whose days are the daily index is a daily series over the column days. */
  lemma IndexedDaily<V>(s: seq<Entry<V>>, days: seq<int>)
    requires |s| == |DayIndex(days)|
    requires forall i :: 0 <= i < |s| ==> s[i].day == DayIndex(days)[i]
    ensures DailyOver(s, days)
  {
    var idx := DayIndex(days);
    forall j | 0 <= j < |days| ensures exists i :: 0 <= i < |s| && s[i].day == days[j] {
      var i :| 0 <= i < |idx| && idx[i] == days[j];
      assert s[i].day == days[j];
    }
    forall i | 0 < i < |s| ensures s[i].day == s[i - 1].day + 1 {
      assert s[i].day == idx[i] && s[i - 1].day == idx[i - 1];
    }
    if |s| > 0 {
      IndexEnds(s, days);
    }
  }

  lemma IndexEnds<V>(s: seq<Entry<V>>, days: seq<int>)
    requires |s| == |DayIndex(days)| && |s| > 0
    requires forall i :: 0 <= i < |s| ==> s[i].day == DayIndex(days)[i]
    ensures exists j :: 0 <= j < |days| && days[j] == s[0].day
    ensures exists j :: 0 <= j < |days| && days[j] == s[|s| - 1].day
  {
    var idx := DayIndex(days);
    var j0 :| 0 <= j0 < |days| && days[j0] == idx[0];
    var j1 :| 0 <= j1 < |days| && days[j1] == idx[|idx| - 1];
    assert days[j0] == s[0].day && days[j1] == s[|s| - 1].day;
  }

  /** The resampled totals form a daily series over the column days. */
  lemma DailyTotalsDaily(days: seq<int>, m: seq<seq<Option<nat>>>)
    requires Rect(m, |days|)
    ensures DailyOver(DailyTotals(days, m), days)
  {
    IndexedDaily(DailyTotals(days, m), days);
  }

  /** When columns are distinct days, the daily maximum on a column's day is that column's cell. */
  lemma DayMaxAtColumn(days: seq<int>, cells: seq<Option<nat>>, j: nat)
    requires |cells| == |days| && DistinctDays(days) && j < |days|
    ensures DayMax(days, cells, days[j]) == cells[j]
  {
  }

  /** With distinct days, a column's day total is the column total. */
  lemma {:induction false} DaySumAtColumn(days: seq<int>, m: seq<seq<Option<nat>>>, j: nat)
    requires Rect(m, |days|) && DistinctDays(days) && j < |days|
    ensures DaySum(days, m, days[j]) == ColumnTotal(m, j)
  {
    if m != [] {
      DayMaxAtColumn(days, m[0], j);
      DaySumAtColumn(days, m[1..], j);
    }
  }

  /** When the columns are already one per consecutive day, resampling keeps them: entry `i` is column `i`'s total. */
  lemma DailyTotalsOfDailyColumns(days: seq<int>, m: seq<seq<Option<nat>>>)
    requires Rect(m, |days|) && DistinctDays(days) && DayIndex(days) == days
    ensures |DailyTotals(days, m)| == |days|
    ensures forall i :: 0 <= i < |days| ==> DailyTotals(days, m)[i] == Entry(days[i], ColumnTotal(m, i))
  {
    var r := DailyTotals(days, m);
    forall i | 0 <= i < |days| ensures r[i] == Entry(days[i], ColumnTotal(m, i)) {
      DaySumAtColumn(days, m, i);
    }
  }

  /** A day with no column gets total 0 (the whole-NaN row sums to 0), not a carried-over value. */
  lemma {:induction false} DaySumNoColumn(days: seq<int>, m: seq<seq<Option<nat>>>, d: int)
    requires Rect(m, |days|) && forall j :: 0 <= j < |days| ==> days[j] != d
    ensures DaySum(days, m, d) == 0
  {
    if m != [] {
      DaySumNoColumn(days, m[1..], d);
    }
  }

  lemma {:induction false} DaySumAppend(days: seq<int>, a: seq<seq<Option<nat>>>, b: seq<seq<Option<nat>>>, d: int)
    requires Rect(a, |days|) && Rect(b, |days|)
    ensures Rect(a + b, |days|)
    ensures DaySum(days, a + b, d) == DaySum(days, a, d) + DaySum(days, b, d)
  {
    if a != [] {
      assert (a + b)[0] == a[0];
      assert (a + b)[1..] == a[1..] + b;
      DaySumAppend(days, a[1..], b, d);
    } else {
      assert a + b == b;
    }
  }

  lemma MultisetRemoveFirst<T>(a: seq<T>, b: seq<T>, k: nat)
    requires multiset(a) == multiset(b) && |a| > 0 && k < |b| && b[k] == a[0]
    ensures multiset(a[1..]) == multiset(b[..k] + b[k + 1..])
  {
    assert a == [a[0]] + a[1..];
    assert b == b[..k] + [b[k]] + b[k + 1..];
    calc {
      multiset(a[1..]);
      multiset(a) - multiset{a[0]};
      multiset(b) - multiset{b[k]};
      multiset(b[..k]) + multiset(b[k + 1..]);
      multiset(b[..k] + b[k + 1..]);
    }
  }

  lemma DaySumRemove(days: seq<int>, b: seq<seq<Option<nat>>>, k: nat, d: int)
    requires Rect(b, |days|) && k < |b|
    ensures Rect(b[..k] + b[k + 1..], |days|)
    ensures DaySum(days, b, d) == DayMax(days, b[k], d).GetOr(0) + DaySum(days, b[..k] + b[k + 1..], d)
  {
    assert b == b[..k] + ([b[k]] + b[k + 1..]);
    DaySumAppend(days, b[..k], [b[k]] + b[k + 1..], d);
    assert ([b[k]] + b[k + 1..])[1..] == b[k + 1..];
    DaySumAppend(days, b[..k], b[k + 1..], d);
  }

  /** The day total does not depend on the order of the locations. */
  lemma {:induction false} DaySumPermutation(days: seq<int>, a: seq<seq<Option<nat>>>, b: seq<seq<Option<nat>>>, d: int)
    requires Rect(a, |days|) && Rect(b, |days|) && multiset(a) == multiset(b)
    ensures DaySum(days, a, d) == DaySum(days, b, d)
  {
    if a != [] {
      assert a[0] in multiset(b);
      var k :| 0 <= k < |b| && b[k] == a[0];
      MultisetRemoveFirst(a, b, k);
      DaySumRemove(days, b, k, d);
      DaySumPermutation(days, a[1..], b[..k] + b[k + 1..], d);
    } else {
      assert |b| == |multiset(b)| == 0;
    }
  }
}

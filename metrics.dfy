/**
 * The derived series of `plot_growth_stats`: the day-over-day change of a
 * cumulative series (`diff`) and the fatality ratio `deaths / confirmed * 100`.
 */
module Metrics {
  import opened Wrappers
  import opened Resample

  /**
   * `Series.diff()`: the first entry is undefined (no previous day); each
   * later entry is the change from the previous entry, negative on a dip.
   */
  function Delta(s: seq<Entry<int>>): (r: seq<Entry<Option<int>>>)
    ensures |r| == |s|
    ensures forall i :: 0 <= i < |r| ==> r[i].day == s[i].day
    ensures |r| > 0 ==> r[0].value.None?
    ensures forall i :: 0 < i < |r| ==> r[i].value.Some? && s[i - 1].value + r[i].value.value == s[i].value
  {
    seq(|s|, i requires 0 <= i < |s| =>
      Entry(s[i].day, if i == 0 then None else Some(s[i].value - s[i - 1].value)))
  }

  /** The changes of a series of changes-with-days, in order. */
  function Changes(r: seq<Entry<Option<int>>>): (c: seq<Option<int>>)
    ensures |c| == |r|
  {
    seq(|r|, i requires 0 <= i < |r| => r[i].value)
  }

  /** The cumulative value at position `i` rebuilt from a first value and the later changes. */
  function Rebuild(first: int, changes: seq<Option<int>>, i: nat): int
    requires i < |changes|
  {
    if i == 0 then first else Rebuild(first, changes, i - 1) + changes[i].GetOr(0)
  }

  /** The delta is an inverse of the running total: the first value plus the changes up to a day rebuild that day's value. */
  lemma {:induction false} DeltaRoundTrip(s: seq<Entry<int>>, i: nat)
    requires i < |s|
    ensures Rebuild(s[0].value, Changes(Delta(s)), i) == s[i].value
  {
    if i > 0 {
      DeltaRoundTrip(s, i - 1);
    }
  }

  /** `deaths / confirmed * 100` for one day; undefined when confirmed is 0. */
  function Percent(deaths: int, confirmed: int): (q: Option<real>)
    ensures q.None? <==> confirmed == 0
    ensures q.Some? ==> q.value * (confirmed as real) == (deaths as real) * 100.0
  {
    if confirmed == 0 then None else Some((deaths as real) * 100.0 / (confirmed as real))
  }

  /** The ratio is a percentage when the deaths are a part of the confirmed cases. */
  lemma PercentBound(deaths: int, confirmed: int)
    requires 0 <= deaths <= confirmed && confirmed > 0
    ensures Percent(deaths, confirmed).Some?
    ensures 0.0 <= Percent(deaths, confirmed).value <= 100.0
  {
    var q := Percent(deaths, confirmed).value;
    var c := confirmed as real;
    assert q * c == (deaths as real) * 100.0;
    assert (100.0 - q) * c == c * 100.0 - (deaths as real) * 100.0 >= 0.0;
    assert q * c >= 0.0;
  }

  /** The ratio of two optional counts: undefined when either is missing or confirmed is 0. */
  function Divide(deaths: Option<int>, confirmed: Option<int>): Option<real> {
    if deaths.Some? && confirmed.Some? then Percent(deaths.value, confirmed.value) else None
  }

  /** The days of `s` strictly ascend. */
  ghost predicate Ascending<V>(s: seq<Entry<V>>) {
    forall i, k :: 0 <= i < k < |s| ==> s[i].day < s[k].day
  }

  /** The days that have an entry in `s`. */
  ghost function DaysOf<V>(s: seq<Entry<V>>): set<int> {
    set k | 0 <= k < |s| :: s[k].day
  }

  /** The value `s` holds for `day`, or missing when it has no entry for that day. */
  function ValueOn(s: seq<Entry<int>>, day: int): (v: Option<int>)
    ensures v.None? <==> day !in DaysOf(s)
    ensures v.Some? ==> Entry(day, v.value) in s
  {
    if s == [] then None
    else if s[0].day == day then Some(s[0].value)
    else
      DaysOfCons(s[0], s[1..]);
      assert s == [s[0]] + s[1..];
      ValueOn(s[1..], day)
  }

  lemma DaysOfCons<V>(e: Entry<V>, s: seq<Entry<V>>)
    ensures DaysOf([e] + s) == {e.day} + DaysOf(s)
  {
    forall x | x in DaysOf([e] + s) ensures x in {e.day} + DaysOf(s) {
      var k :| 0 <= k < |[e] + s| && ([e] + s)[k].day == x;
      if k > 0 { assert s[k - 1].day == x; }
    }
    forall x | x in DaysOf(s) ensures x in DaysOf([e] + s) {
      var k :| 0 <= k < |s| && s[k].day == x;
      assert ([e] + s)[k + 1].day == x;
    }
    assert ([e] + s)[0].day == e.day;
  }

  /** In an ascending series every later day exceeds the first. */
  lemma AfterFirst<V>(s: seq<Entry<V>>)
    requires |s| > 0 && Ascending(s)
    ensures Ascending(s[1..])
    ensures forall x :: x in DaysOf(s[1..]) ==> s[0].day < x
    ensures forall x :: x in DaysOf(s) ==> s[0].day <= x
  {
    forall x | x in DaysOf(s[1..]) ensures s[0].day < x {
      var k :| 0 <= k < |s[1..]| && s[1..][k].day == x;
      assert s[k + 1].day == x;
    }
    forall x | x in DaysOf(s) ensures s[0].day <= x {
      var k :| 0 <= k < |s| && s[k].day == x;
    }
  }

  lemma AscendingCons<V>(e: Entry<V>, s: seq<Entry<V>>)
    requires Ascending(s) && forall x :: x in DaysOf(s) ==> e.day < x
    ensures Ascending([e] + s)
  {
    forall i, k | 0 <= i < k < |[e] + s| ensures ([e] + s)[i].day < ([e] + s)[k].day {
      assert ([e] + s)[k] == s[k - 1];
      assert s[k - 1].day in DaysOf(s);
      if i > 0 { assert ([e] + s)[i] == s[i - 1]; }
    }
  }

  /**
   * `deaths / confirmed * 100` on two date-indexed series: a merge over the
   * union of their days; a day missing from either side has no ratio.
   */
  function Fatality(deaths: seq<Entry<int>>, confirmed: seq<Entry<int>>): (r: seq<Entry<Option<real>>>)
    ensures |deaths| <= |r| && |confirmed| <= |r| && |r| <= |deaths| + |confirmed|
    decreases |deaths| + |confirmed|
  {
    if deaths == [] && confirmed == [] then []
    else if confirmed == [] || (deaths != [] && deaths[0].day < confirmed[0].day) then
      [Entry(deaths[0].day, None)] + Fatality(deaths[1..], confirmed)
    else if deaths == [] || confirmed[0].day < deaths[0].day then
      [Entry(confirmed[0].day, None)] + Fatality(deaths, confirmed[1..])
    else
      [Entry(deaths[0].day, Divide(Some(deaths[0].value), Some(confirmed[0].value)))]
        + Fatality(deaths[1..], confirmed[1..])
  }

  /** Each entry of `r` holds the ratio of the two series' counts on its day. */
  ghost predicate AlignedRatio(r: seq<Entry<Option<real>>>, deaths: seq<Entry<int>>, confirmed: seq<Entry<int>>) {
    forall i :: 0 <= i < |r| ==> r[i].value == Divide(ValueOn(deaths, r[i].day), ValueOn(confirmed, r[i].day))
  }

  lemma ValueOnTail(s: seq<Entry<int>>, x: int)
    requires s != [] && s[0].day != x
    ensures ValueOn(s, x) == ValueOn(s[1..], x)
  {
  }

  /** One merge step: an entry earlier than everything after it, put in front of an aligned rest. */
  lemma Prepend(deaths: seq<Entry<int>>, confirmed: seq<Entry<int>>, d': seq<Entry<int>>, c': seq<Entry<int>>,
                e: Entry<Option<real>>, rest: seq<Entry<Option<real>>>)
    requires Ascending(rest) && AlignedRatio(rest, d', c')
    requires forall x :: x in DaysOf(rest) ==> e.day < x
    requires forall x :: e.day < x ==> ValueOn(deaths, x) == ValueOn(d', x) && ValueOn(confirmed, x) == ValueOn(c', x)
    requires e.value == Divide(ValueOn(deaths, e.day), ValueOn(confirmed, e.day))
    ensures Ascending([e] + rest) && AlignedRatio([e] + rest, deaths, confirmed)
    ensures DaysOf([e] + rest) == {e.day} + DaysOf(rest)
  {
    AscendingCons(e, rest);
    DaysOfCons(e, rest);
    var r := [e] + rest;
    forall i | 0 < i < |r| ensures r[i].value == Divide(ValueOn(deaths, r[i].day), ValueOn(confirmed, r[i].day)) {
      assert r[i] == rest[i - 1];
      assert rest[i - 1].day in DaysOf(rest);
    }
  }

  /** Dropping an earlier first entry does not change the value on a later day. */
  lemma LaterValues(s: seq<Entry<int>>, day: int)
    requires |s| > 0 && s[0].day <= day
    ensures forall x :: day < x ==> ValueOn(s, x) == ValueOn(s[1..], x)
  {
    forall x | day < x ensures ValueOn(s, x) == ValueOn(s[1..], x) {
      ValueOnTail(s, x);
    }
  }

  /**
   * The ratio series is aligned on the union of the two inputs' days, in
   * ascending order, and each day's value is the ratio of that day's counts:
   * undefined when either series has no entry for the day or confirmed is 0.
   */
  lemma {:induction false} FatalityAligned(deaths: seq<Entry<int>>, confirmed: seq<Entry<int>>)
    requires Ascending(deaths) && Ascending(confirmed)
    ensures DaysOf(Fatality(deaths, confirmed)) == DaysOf(deaths) + DaysOf(confirmed)
    ensures Ascending(Fatality(deaths, confirmed))
    ensures AlignedRatio(Fatality(deaths, confirmed), deaths, confirmed)
    decreases |deaths| + |confirmed|, 1
  {
    if deaths == [] && confirmed == [] {
    } else if confirmed == [] || (deaths != [] && deaths[0].day < confirmed[0].day) {
      DeathsFirst(deaths, confirmed);
    } else if deaths == [] || confirmed[0].day < deaths[0].day {
      ConfirmedFirst(deaths, confirmed);
    } else {
      SameDayFirst(deaths, confirmed);
    }
  }

  /** The merge step that takes the deaths' earlier day: it has no ratio. */
  lemma {:induction false} DeathsFirst(deaths: seq<Entry<int>>, confirmed: seq<Entry<int>>)
    requires Ascending(deaths) && Ascending(confirmed) && deaths != []
    requires confirmed == [] || deaths[0].day < confirmed[0].day
    ensures DaysOf(Fatality(deaths, confirmed)) == DaysOf(deaths) + DaysOf(confirmed)
    ensures Ascending(Fatality(deaths, confirmed))
    ensures AlignedRatio(Fatality(deaths, confirmed), deaths, confirmed)
    decreases |deaths| + |confirmed|, 0
  {
    var e: Entry<Option<real>> := Entry(deaths[0].day, None);
    var rest := Fatality(deaths[1..], confirmed);
    assert Fatality(deaths, confirmed) == [e] + rest;
    FatalityAligned(deaths[1..], confirmed);
    AfterFirst(deaths);
    if confirmed != [] { AfterFirst(confirmed); }
    assert deaths == [deaths[0]] + deaths[1..];
    DaysOfCons(deaths[0], deaths[1..]);
    assert e.day !in DaysOf(confirmed);
    LaterValues(deaths, e.day);
    Prepend(deaths, confirmed, deaths[1..], confirmed, e, rest);
  }

  /** The merge step that takes the confirmed series' earlier day: it has no ratio. */
  lemma {:induction false} ConfirmedFirst(deaths: seq<Entry<int>>, confirmed: seq<Entry<int>>)
    requires Ascending(deaths) && Ascending(confirmed) && confirmed != []
    requires deaths == [] || confirmed[0].day < deaths[0].day
    ensures DaysOf(Fatality(deaths, confirmed)) == DaysOf(deaths) + DaysOf(confirmed)
    ensures Ascending(Fatality(deaths, confirmed))
    ensures AlignedRatio(Fatality(deaths, confirmed), deaths, confirmed)
    decreases |deaths| + |confirmed|, 0
  {
    var e: Entry<Option<real>> := Entry(confirmed[0].day, None);
    var rest := Fatality(deaths, confirmed[1..]);
    assert Fatality(deaths, confirmed) == [e] + rest;
    FatalityAligned(deaths, confirmed[1..]);
    AfterFirst(confirmed);
    if deaths != [] { AfterFirst(deaths); }
    assert confirmed == [confirmed[0]] + confirmed[1..];
    DaysOfCons(confirmed[0], confirmed[1..]);
    assert e.day !in DaysOf(deaths);
    LaterValues(confirmed, e.day);
    Prepend(deaths, confirmed, deaths, confirmed[1..], e, rest);
  }

  /** The merge step where both series have the earliest day: that day gets the ratio of the two counts. */
  lemma {:induction false} SameDayFirst(deaths: seq<Entry<int>>, confirmed: seq<Entry<int>>)
    requires Ascending(deaths) && Ascending(confirmed) && deaths != [] && confirmed != []
    requires deaths[0].day == confirmed[0].day
    ensures DaysOf(Fatality(deaths, confirmed)) == DaysOf(deaths) + DaysOf(confirmed)
    ensures Ascending(Fatality(deaths, confirmed))
    ensures AlignedRatio(Fatality(deaths, confirmed), deaths, confirmed)
    decreases |deaths| + |confirmed|, 0
  {
    var e := Entry(deaths[0].day, Divide(Some(deaths[0].value), Some(confirmed[0].value)));
    var rest := Fatality(deaths[1..], confirmed[1..]);
    assert Fatality(deaths, confirmed) == [e] + rest;
    FatalityAligned(deaths[1..], confirmed[1..]);
    EarliestOfBoth(deaths, confirmed);
    LaterValues(deaths, e.day);
    LaterValues(confirmed, e.day);
    assert ValueOn(deaths, e.day) == Some(deaths[0].value);
    assert ValueOn(confirmed, e.day) == Some(confirmed[0].value);
    Prepend(deaths, confirmed, deaths[1..], confirmed[1..], e, rest);
  }

  lemma EarliestOfBoth(deaths: seq<Entry<int>>, confirmed: seq<Entry<int>>)
    requires Ascending(deaths) && Ascending(confirmed) && deaths != [] && confirmed != []
    requires deaths[0].day == confirmed[0].day
    ensures Ascending(deaths[1..]) && Ascending(confirmed[1..])
    ensures forall x :: x in DaysOf(deaths[1..]) + DaysOf(confirmed[1..]) ==> deaths[0].day < x
    ensures DaysOf(deaths) + DaysOf(confirmed) == {deaths[0].day} + (DaysOf(deaths[1..]) + DaysOf(confirmed[1..]))
  {
    AfterFirst(deaths);
    AfterFirst(confirmed);
    assert deaths == [deaths[0]] + deaths[1..] && confirmed == [confirmed[0]] + confirmed[1..];
    DaysOfCons(deaths[0], deaths[1..]);
    DaysOfCons(confirmed[0], confirmed[1..]);
  }

  /** Where both series have the day and the deaths are part of the confirmed cases, the ratio lies in [0, 100]. */
  lemma FatalityBound(deaths: seq<Entry<int>>, confirmed: seq<Entry<int>>, i: nat)
    requires Ascending(deaths) && Ascending(confirmed) && i < |Fatality(deaths, confirmed)|
    requires ValueOn(deaths, Fatality(deaths, confirmed)[i].day).Some?
    requires ValueOn(confirmed, Fatality(deaths, confirmed)[i].day).Some?
    requires 0 <= ValueOn(deaths, Fatality(deaths, confirmed)[i].day).value
                <= ValueOn(confirmed, Fatality(deaths, confirmed)[i].day).value
    ensures Fatality(deaths, confirmed)[i].value.Some? <==> ValueOn(confirmed, Fatality(deaths, confirmed)[i].day).value != 0
    ensures Fatality(deaths, confirmed)[i].value.Some? ==> 0.0 <= Fatality(deaths, confirmed)[i].value.value <= 100.0
  {
    FatalityAligned(deaths, confirmed);
    var day := Fatality(deaths, confirmed)[i].day;
    var c := ValueOn(confirmed, day).value;
    if c != 0 {
      PercentBound(ValueOn(deaths, day).value, c);
    }
  }

  /**
   * When both series have the same days, as two `cum_data` results over the
   * same date columns do, the ratio is taken index by index.
   */
  lemma {:induction false} FatalitySameDays(deaths: seq<Entry<int>>, confirmed: seq<Entry<int>>)
    requires |deaths| == |confirmed|
    requires forall i :: 0 <= i < |deaths| ==> deaths[i].day == confirmed[i].day
    ensures |Fatality(deaths, confirmed)| == |deaths|
    ensures forall i :: 0 <= i < |deaths| ==>
      Fatality(deaths, confirmed)[i] == Entry(deaths[i].day, Percent(deaths[i].value, confirmed[i].value))
  {
    if deaths != [] {
      FatalitySameDays(deaths[1..], confirmed[1..]);
      var r := Fatality(deaths, confirmed);
      assert r == [Entry(deaths[0].day, Percent(deaths[0].value, confirmed[0].value))]
        + Fatality(deaths[1..], confirmed[1..]);
      forall i | 0 < i < |deaths|
        ensures r[i] == Entry(deaths[i].day, Percent(deaths[i].value, confirmed[i].value))
      {
        assert r[i] == Fatality(deaths[1..], confirmed[1..])[i - 1];
      }
    }
  }

  /** A daily series, as both aggregation modes return, meets the ordering the ratio's alignment relies on. */
  lemma DailyIsAscending<V>(s: seq<Entry<V>>, days: seq<int>)
    requires DailyOver(s, days)
    ensures Ascending(s)
  {
    forall i, k | 0 <= i < k < |s| ensures s[i].day < s[k].day {
      DailyAscending(s, days, i, k);
    }
  }
}

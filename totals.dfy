/**
 * What the two aggregation modes compute, and how they fit together: the
 * region series counts only the region's rows, the rest-of-world series
 * counts exactly the other rows, and when every date column is its own
 * calendar day the two add up to the whole table.
 */
module Totals {
  import opened Wrappers
  import opened Tables
  import opened Fill
  import opened Resample
  import opened Order
  import opened Aggregate

  /** The countries that have a group column. */
  function CountrySet(gs: seq<Group>): set<string> {
    set k | 0 <= k < |gs| :: gs[k].country
  }

  lemma CountrySetCons(g: Group, gs: seq<Group>)
    ensures CountrySet([g] + gs) == {g.country} + CountrySet(gs)
  {
    forall x | x in CountrySet([g] + gs) ensures x in {g.country} + CountrySet(gs) {
      var k :| 0 <= k < |[g] + gs| && ([g] + gs)[k].country == x;
      if k > 0 { assert gs[k - 1].country == x; }
    }
    forall x | x in CountrySet(gs) ensures x in CountrySet([g] + gs) {
      var k :| 0 <= k < |gs| && gs[k].country == x;
      assert ([g] + gs)[k + 1].country == x;
    }
    assert ([g] + gs)[0].country == g.country;
  }

  lemma {:induction false} SumInUnion(rows: seq<Row>, w: nat, s: set<string>, t: set<string>, j: nat)
    requires Width(rows, w) && j < w && s !! t
    ensures SumIn(rows, s + t, j) == SumIn(rows, s, j) + SumIn(rows, t, j)
  {
    if rows != [] {
      SumInUnion(rows[1..], w, s, t, j);
    }
  }

  lemma {:induction false} SumInEmpty(rows: seq<Row>, w: nat, j: nat)
    requires Width(rows, w) && j < w
    ensures SumIn(rows, {}, j) == 0
  {
    if rows != [] {
      SumInEmpty(rows[1..], w, j);
    }
  }

  /** The column totals of the groups add up to the rows of the countries they stand for. */
  lemma {:induction false} GroupsTotal(gs: seq<Group>, rows: seq<Row>, w: nat, j: nat)
    requires Width(rows, w) && j < w
    requires GroupsOf(gs, rows, w) && GroupWidth(gs, w)
    requires forall k, l :: 0 <= k < l < |gs| ==> gs[k].country != gs[l].country
    ensures Rect(GroupCells(gs), w)
    ensures ColumnTotal(GroupCells(gs), j) == SumIn(rows, CountrySet(gs), j)
  {
    GroupCellsWidth(gs, w);
    if gs == [] {
      assert CountrySet(gs) == {};
      SumInEmpty(rows, w, j);
    } else {
      GroupsTotal(gs[1..], rows, w, j);
      assert gs == [gs[0]] + gs[1..];
      var m := GroupCells(gs);
      assert m == [gs[0].cells] + GroupCells(gs[1..]);
      assert ColumnTotal(m, j) == gs[0].cells[j].GetOr(0) + ColumnTotal(GroupCells(gs[1..]), j);
      CountrySetCons(gs[0], gs[1..]);
      assert gs[0].country !in CountrySet(gs[1..]);
      SumInUnion(rows, w, {gs[0].country}, CountrySet(gs[1..]), j);
    }
  }

  /** The region's rows total exactly the rows of that one country. */
  lemma {:induction false} MatchingTotal(rows: seq<Row>, w: nat, region: string, j: nat)
    requires Width(rows, w) && j < w
    ensures Rect(Cells(Matching(rows, region)), w)
    ensures ColumnTotal(Cells(Matching(rows, region)), j) == SumIn(rows, {region}, j)
  {
    MatchingWidth(rows, region, w);
    CellsWidth(Matching(rows, region), w);
    if rows != [] {
      MatchingTotal(rows[1..], w, region, j);
      var m := Matching(rows[1..], region);
      if rows[0].country == region {
        assert Matching(rows, region) == [rows[0]] + m;
        assert ([rows[0]] + m)[1..] == m;
      } else {
        assert Matching(rows, region) == m;
      }
    }
  }

  /** The other rows total the rows of any set of countries that holds every country but the region. */
  lemma {:induction false} OthersTotal(rows: seq<Row>, w: nat, region: string, s: set<string>, j: nat)
    requires Width(rows, w) && j < w
    requires forall i :: 0 <= i < |rows| ==> (rows[i].country in s <==> rows[i].country != region)
    ensures Rect(Cells(Others(rows, region)), w)
    ensures ColumnTotal(Cells(Others(rows, region)), j) == SumIn(rows, s, j)
  {
    OthersWidth(rows, region, w);
    CellsWidth(Others(rows, region), w);
    if rows != [] {
      OthersTotal(rows[1..], w, region, s, j);
      var m := Others(rows[1..], region);
      if rows[0].country != region {
        assert Others(rows, region) == [rows[0]] + m;
        assert ([rows[0]] + m)[1..] == m;
      } else {
        assert Others(rows, region) == m;
      }
    }
  }

  /** Splitting the rows into the region's and everybody else's loses and duplicates nothing. */
  lemma {:induction false} PartitionTotal(rows: seq<Row>, w: nat, region: string, j: nat)
    requires Width(rows, w) && j < w
    ensures Rect(Cells(rows), w) && Rect(Cells(Matching(rows, region)), w) && Rect(Cells(Others(rows, region)), w)
    ensures ColumnTotal(Cells(Matching(rows, region)), j) + ColumnTotal(Cells(Others(rows, region)), j)
         == ColumnTotal(Cells(rows), j)
  {
    CellsWidth(rows, w);
    MatchingWidth(rows, region, w);
    CellsWidth(Matching(rows, region), w);
    OthersWidth(rows, region, w);
    CellsWidth(Others(rows, region), w);
    if rows != [] {
      PartitionTotal(rows[1..], w, region, j);
      var m, o := Matching(rows[1..], region), Others(rows[1..], region);
      if rows[0].country == region {
        assert Matching(rows, region) == [rows[0]] + m;
        assert ([rows[0]] + m)[1..] == m;
        assert Others(rows, region) == o;
      } else {
        assert Others(rows, region) == [rows[0]] + o;
        assert ([rows[0]] + o)[1..] == o;
        assert Matching(rows, region) == m;
      }
    }
  }

  lemma {:induction false} InsertTotal(days: seq<int>, g: Group, gs: seq<Group>, d: int)
    requires |g.cells| == |days| && GroupWidth(gs, |days|) && SortedByCountry(gs)
    ensures GroupWidth(Insert(g, gs), |days|)
    ensures Rect(GroupCells(Insert(g, gs)), |days|) && Rect(GroupCells(gs), |days|)
    ensures DaySum(days, GroupCells(Insert(g, gs)), d)
         == DayMax(days, g.cells, d).GetOr(0) + DaySum(days, GroupCells(gs), d)
  {
    var r := Insert(g, gs);
    forall k | 0 <= k < |r| ensures |r[k].cells| == |days| {
      assert r[k] in multiset(gs) + multiset{g};
    }
    GroupCellsWidth(r, |days|);
    GroupCellsWidth(gs, |days|);
    if gs != [] && !LexLe(g.country, gs[0].country) {
      InsertTotal(days, g, gs[1..], d);
    }
  }

  /** `sort_index(axis=1)` does not change any day's total. */
  lemma {:induction false} SortKeepsTotals(days: seq<int>, gs: seq<Group>, d: int)
    requires GroupWidth(gs, |days|)
    ensures GroupWidth(SortByCountry(gs), |days|)
    ensures Rect(GroupCells(SortByCountry(gs)), |days|) && Rect(GroupCells(gs), |days|)
    ensures DaySum(days, GroupCells(SortByCountry(gs)), d) == DaySum(days, GroupCells(gs), d)
  {
    GroupCellsWidth(gs, |days|);
    if gs != [] {
      var tail := SortByCountry(gs[1..]);
      SortKeepsTotals(days, gs[1..], d);
      InsertTotal(days, gs[0], tail, d);
      assert SortByCountry(gs) == Insert(gs[0], tail);
      assert GroupCells(gs) == [gs[0].cells] + GroupCells(gs[1..]);
      assert DaySum(days, GroupCells(gs), d)
          == DayMax(days, gs[0].cells, d).GetOr(0) + DaySum(days, GroupCells(gs[1..]), d);
    }
  }

  lemma {:induction false} FillMatchingCommute(rows: seq<Row>, region: string)
    ensures FillRows(Matching(rows, region)) == Matching(FillRows(rows), region)
  {
    if rows != [] {
      FillMatchingCommute(rows[1..], region);
      var f := FillRows(rows);
      assert f[1..] == FillRows(rows[1..]);
      assert f[0].country == rows[0].country;
      var m := Matching(rows[1..], region);
      if rows[0].country == region {
        assert Matching(rows, region) == [rows[0]] + m;
        FillRowsCons(rows[0], m);
        assert f[0] == Row(rows[0].province, rows[0].country, ForwardFill(rows[0].cells));
      } else {
        assert Matching(rows, region) == m;
      }
    }
  }

  lemma FillRowsCons(r: Row, rest: seq<Row>)
    ensures FillRows([r] + rest) == [Row(r.province, r.country, ForwardFill(r.cells))] + FillRows(rest)
  {
    var a, b := FillRows([r] + rest), [Row(r.province, r.country, ForwardFill(r.cells))] + FillRows(rest);
    assert |a| == |b|;
    forall i | 0 <= i < |a| ensures a[i] == b[i] {
      if i > 0 {
        assert ([r] + rest)[i] == rest[i - 1];
      }
    }
  }

  lemma FillRowsIdempotent(rows: seq<Row>)
    ensures FillRows(FillRows(rows)) == FillRows(rows)
  {
    forall i | 0 <= i < |rows| ensures FillRows(FillRows(rows))[i] == FillRows(rows)[i] {
      ForwardFillIdempotent(rows[i].cells);
    }
  }

  lemma FillRowsCountries(rows: seq<Row>, c: string)
    ensures HasRowOf(FillRows(rows), c) <==> HasRowOf(rows, c)
  {
    if HasRowOf(rows, c) {
      var i :| 0 <= i < |rows| && rows[i].country == c;
      assert FillRows(rows)[i].country == c;
    }
  }

  /** Dropping a column keeps the others' sums and removes exactly that country. */
  lemma {:induction false} DropKeepsGroups(gs: seq<Group>, rows: seq<Row>, w: nat, c: string)
    requires Width(rows, w) && GroupsOf(gs, rows, w) && GroupWidth(gs, w)
    requires forall k, l :: 0 <= k < l < |gs| ==> gs[k].country != gs[l].country
    ensures GroupsOf(DropCountry(gs, c), rows, w) && GroupWidth(DropCountry(gs, c), w)
    ensures forall k, l :: 0 <= k < l < |DropCountry(gs, c)| ==>
      DropCountry(gs, c)[k].country != DropCountry(gs, c)[l].country
    ensures CountrySet(DropCountry(gs, c)) == CountrySet(gs) - {c}
  {
    if gs != [] {
      DropKeepsGroups(gs[1..], rows, w, c);
      var d := DropCountry(gs[1..], c);
      assert gs == [gs[0]] + gs[1..];
      CountrySetCons(gs[0], gs[1..]);
      if gs[0].country != c {
        assert DropCountry(gs, c) == [gs[0]] + d;
        assert gs[0].country !in CountrySet(gs[1..]);
        CountrySetCons(gs[0], d);
      } else {
        assert DropCountry(gs, c) == d;
      }
    }
  }

  /** After the region's column is dropped, the group columns total exactly the rows of the other countries. */
  lemma DroppedTotal(rows: seq<Row>, w: nat, region: string, j: nat)
    requires Width(rows, w) && j < w
    ensures GroupWidth(DropCountry(GroupByCountry(rows, w), region), w)
    ensures Rect(GroupCells(DropCountry(GroupByCountry(rows, w), region)), w)
    ensures Rect(Cells(Others(rows, region)), w)
    ensures ColumnTotal(GroupCells(DropCountry(GroupByCountry(rows, w), region)), j)
         == ColumnTotal(Cells(Others(rows, region)), j)
  {
    var groups := GroupByCountry(rows, w);
    var dropped := DropCountry(groups, region);
    DropKeepsGroups(groups, rows, w, region);
    GroupsTotal(dropped, rows, w, j);
    forall k | 0 <= k < |rows|
      ensures rows[k].country in CountrySet(dropped) <==> rows[k].country != region
    {
      assert HasRowOf(rows, rows[k].country);
      assert HasCountry(groups, rows[k].country);
    }
    OthersTotal(rows, w, region, CountrySet(dropped), j);
  }

  /** The rest-of-world value of a day is the day total of the remaining columns, whatever their order. */
  lemma WorldValue(dt: DatedTable, region: string, i: nat)
    requires WellFormedDated(dt) && HasRowOf(dt.rows, region)
    requires i < |DayIndex(dt.days)|
    ensures Width(FillRows(dt.rows), |dt.days|)
    ensures GroupWidth(DropCountry(GroupByCountry(FillRows(dt.rows), |dt.days|), region), |dt.days|)
    ensures Rect(GroupCells(DropCountry(GroupByCountry(FillRows(dt.rows), |dt.days|), region)), |dt.days|)
    ensures AggregateWorld(dt, region).Ok? && i < |AggregateWorld(dt, region).value|
    ensures AggregateWorld(dt, region).value[i].day == DayIndex(dt.days)[i]
    ensures AggregateWorld(dt, region).value[i].value
         == DaySum(dt.days, GroupCells(DropCountry(GroupByCountry(FillRows(dt.rows), |dt.days|), region)), DayIndex(dt.days)[i])
  {
    WorldFailsIff(dt, region);
    var w := |dt.days|;
    FillRowsWidth(dt.rows, w);
    var groups := GroupByCountry(FillRows(dt.rows), w);
    var dropped := DropCountry(groups, region);
    DropWidth(groups, region, w);
    GroupCellsWidth(dropped, w);
    SortKeepsTotals(dt.days, dropped, DayIndex(dt.days)[i]);
  }

  /**
   * Region mode, when every date column is its own day: a day with a column
   * totals the filled cells of that column over the region's rows (a missing
   * cell counts 0); a day without a column totals 0.
   */
  lemma RegionTotal(dt: DatedTable, region: string, i: nat)
    requires WellFormedDated(dt) && DistinctDays(dt.days)
    requires i < |AggregateRegion(dt, region)|
    ensures Rect(Cells(Matching(FillRows(dt.rows), region)), |dt.days|)
    ensures forall j :: 0 <= j < |dt.days| && dt.days[j] == AggregateRegion(dt, region)[i].day ==>
      AggregateRegion(dt, region)[i].value == ColumnTotal(Cells(Matching(FillRows(dt.rows), region)), j)
    ensures (forall j :: 0 <= j < |dt.days| ==> dt.days[j] != AggregateRegion(dt, region)[i].day) ==>
      AggregateRegion(dt, region)[i].value == 0
  {
    var w := |dt.days|;
    FillMatchingCommute(dt.rows, region);
    FillRowsWidth(dt.rows, w);
    MatchingWidth(FillRows(dt.rows), region, w);
    var m := Cells(Matching(FillRows(dt.rows), region));
    CellsWidth(Matching(FillRows(dt.rows), region), w);
    var d := AggregateRegion(dt, region)[i].day;
    forall j | 0 <= j < w && dt.days[j] == d
      ensures AggregateRegion(dt, region)[i].value == ColumnTotal(m, j)
    {
      DaySumAtColumn(dt.days, m, j);
    }
    if forall j :: 0 <= j < w ==> dt.days[j] != d {
      DaySumNoColumn(dt.days, m, d);
    }
  }

  /** Rest-of-world mode fails exactly when the region has no row, so there is no column to drop. */
  lemma WorldFailsIff(dt: DatedTable, region: string)
    requires WellFormedDated(dt)
    ensures AggregateWorld(dt, region).Err? <==> !HasRowOf(dt.rows, region)
  {
    FillRowsWidth(dt.rows, |dt.days|);
    FillRowsCountries(dt.rows, region);
  }

  /**
   * Rest-of-world mode, when every date column is its own day: grouping by
   * country, dropping the region's column and sorting the rest equals summing
   * the filled cells directly over every row of another country.
   */
  lemma WorldTotal(dt: DatedTable, region: string, i: nat)
    requires WellFormedDated(dt) && DistinctDays(dt.days) && HasRowOf(dt.rows, region)
    requires i < |DayIndex(dt.days)|
    ensures AggregateWorld(dt, region).Ok? && i < |AggregateWorld(dt, region).value|
    ensures Rect(Cells(Others(FillRows(dt.rows), region)), |dt.days|)
    ensures forall j :: 0 <= j < |dt.days| && dt.days[j] == AggregateWorld(dt, region).value[i].day ==>
      AggregateWorld(dt, region).value[i].value == ColumnTotal(Cells(Others(FillRows(dt.rows), region)), j)
    ensures (forall j :: 0 <= j < |dt.days| ==> dt.days[j] != AggregateWorld(dt, region).value[i].day) ==>
      AggregateWorld(dt, region).value[i].value == 0
  {
    WorldValue(dt, region, i);
    var w := |dt.days|;
    var rows := FillRows(dt.rows);
    var dropped := DropCountry(GroupByCountry(rows, w), region);
    var v := AggregateWorld(dt, region).value[i];
    OthersWidth(rows, region, w);
    CellsWidth(Others(rows, region), w);
    forall j | 0 <= j < w && dt.days[j] == v.day
      ensures v.value == ColumnTotal(Cells(Others(rows, region)), j)
    {
      DaySumAtColumn(dt.days, GroupCells(dropped), j);
      DroppedTotal(rows, w, region, j);
    }
    if forall j :: 0 <= j < w ==> dt.days[j] != v.day {
      DaySumNoColumn(dt.days, GroupCells(dropped), v.day);
    }
  }

  /**
   * Total preservation: when every date column is its own day and the region
   * has rows, the region series plus the rest-of-world series equals, day by
   * day, the region-mode computation over the whole table.
   */
  lemma TotalPreserved(dt: DatedTable, region: string, i: nat)
    requires WellFormedDated(dt) && DistinctDays(dt.days) && HasRowOf(dt.rows, region)
    requires i < |DayIndex(dt.days)|
    ensures AggregateWorld(dt, region).Ok?
    ensures Rect(Cells(FillRows(dt.rows)), |dt.days|)
    ensures AggregateRegion(dt, region)[i].day == AggregateWorld(dt, region).value[i].day
    ensures AggregateRegion(dt, region)[i].value + AggregateWorld(dt, region).value[i].value
         == DaySum(dt.days, Cells(FillRows(dt.rows)), AggregateRegion(dt, region)[i].day)
  {
    var w := |dt.days|;
    var rows := FillRows(dt.rows);
    FillRowsWidth(dt.rows, w);
    CellsWidth(rows, w);
    RegionTotal(dt, region, i);
    WorldTotal(dt, region, i);
    var d := AggregateRegion(dt, region)[i].day;
    if j :| 0 <= j < w && dt.days[j] == d {
      PartitionTotal(rows, w, region, j);
      DaySumAtColumn(dt.days, Cells(rows), j);
    } else {
      DaySumNoColumn(dt.days, Cells(rows), d);
    }
  }

  /** Aggregating a table whose rows are already forward-filled gives the same region series. */
  lemma RegionAfterFill(dt: DatedTable, region: string)
    requires WellFormedDated(dt)
    ensures WellFormedDated(DatedTable(dt.days, FillRows(dt.rows)))
    ensures AggregateRegion(DatedTable(dt.days, FillRows(dt.rows)), region) == AggregateRegion(dt, region)
  {
    FillRowsWidth(dt.rows, |dt.days|);
    FillMatchingCommute(dt.rows, region);
    FillMatchingCommute(FillRows(dt.rows), region);
    FillRowsIdempotent(dt.rows);
    FillRowsIdempotent(Matching(dt.rows, region));
  }

  /** Aggregating a table whose rows are already forward-filled gives the same rest-of-world result. */
  lemma WorldAfterFill(dt: DatedTable, region: string)
    requires WellFormedDated(dt)
    ensures WellFormedDated(DatedTable(dt.days, FillRows(dt.rows)))
    ensures AggregateWorld(DatedTable(dt.days, FillRows(dt.rows)), region) == AggregateWorld(dt, region)
  {
    FillRowsWidth(dt.rows, |dt.days|);
    FillRowsIdempotent(dt.rows);
  }

  lemma {:induction false} MatchingAppend(a: seq<Row>, b: seq<Row>, region: string)
    ensures Matching(a + b, region) == Matching(a, region) + Matching(b, region)
  {
    if a != [] {
      MatchingAppend(a[1..], b, region);
      assert (a + b)[1..] == a[1..] + b;
    } else {
      assert a + b == b;
    }
  }

  lemma {:induction false} MatchingNone(rows: seq<Row>, region: string)
    requires forall i :: 0 <= i < |rows| ==> rows[i].country != region
    ensures Matching(rows, region) == []
  {
    if rows != [] {
      MatchingNone(rows[1..], region);
    }
  }

  lemma WidthAppend(x: seq<Row>, y: seq<Row>, w: nat)
    requires Width(x, w) && Width(y, w)
    ensures Width(x + y, w)
  {
    forall i | 0 <= i < |x + y| ensures |(x + y)[i].cells| == w {
      if i >= |x| { assert (x + y)[i] == y[i - |x|]; }
    }
  }

  lemma MatchingSkipsOthers(a: seq<Row>, b: seq<Row>, extra: seq<Row>, region: string)
    requires forall i :: 0 <= i < |extra| ==> extra[i].country != region
    ensures Matching(a + extra + b, region) == Matching(a + b, region)
  {
    MatchingAppend(a + extra, b, region);
    MatchingAppend(a, extra, region);
    MatchingAppend(a, b, region);
    MatchingNone(extra, region);
  }

  /** Rows of other countries, inserted anywhere, never change the region series. */
  lemma RegionIgnoresOthers(days: seq<int>, a: seq<Row>, b: seq<Row>, extra: seq<Row>, region: string)
    requires Width(a, |days|) && Width(b, |days|) && Width(extra, |days|)
    requires forall i :: 0 <= i < |extra| ==> extra[i].country != region
    ensures WellFormedDated(DatedTable(days, a + b)) && WellFormedDated(DatedTable(days, a + extra + b))
    ensures AggregateRegion(DatedTable(days, a + extra + b), region) == AggregateRegion(DatedTable(days, a + b), region)
  {
    WidthAppend(a, b, |days|);
    WidthAppend(a, extra, |days|);
    WidthAppend(a + extra, b, |days|);
    MatchingSkipsOthers(a, b, extra, region);
  }

  /** Region mode on a region with no rows: every day of the index totals 0, the series is not empty. */
  lemma RegionWithoutRows(dt: DatedTable, region: string, i: nat)
    requires WellFormedDated(dt) && !HasRowOf(dt.rows, region)
    requires i < |AggregateRegion(dt, region)|
    ensures AggregateRegion(dt, region)[i].value == 0
  {
    MatchingNone(dt.rows, region);
    assert FillRows([]) == [];
  }

  lemma CumDataCases(t: RawTable, dayOf: string -> int, region: string, regionMode: bool)
    requires WellFormed(t)
    ensures regionMode ==> CumData(t, dayOf, region, regionMode).Ok?
    ensures !regionMode ==> (CumData(t, dayOf, region, regionMode).Err? <==> !HasRowOf(t.rows, region))
    ensures CumData(t, dayOf, region, regionMode).Err? ==>
      CumData(t, dayOf, region, regionMode).error == MissingColumn(region)
  {
    var f := FilterColumns(t);
    var dt := Parse(f, dayOf);
    WorldFailsIff(dt, region);
    assert HasRowOf(f.rows, region) <==> HasRowOf(t.rows, region) by {
      if HasRowOf(t.rows, region) {
        var i :| 0 <= i < |t.rows| && t.rows[i].country == region;
        assert f.rows[i].country == region;
      }
    }
  }

  /**
   * `cum_data` yields a series with one entry per calendar day, with no gaps,
   * from the earliest to the latest date column kept by the column filter.
   */
  lemma CumDataDaily(t: RawTable, dayOf: string -> int, region: string, regionMode: bool)
    requires WellFormed(t)
    ensures CumData(t, dayOf, region, regionMode).Ok? ==>
      DailyOver(CumData(t, dayOf, region, regionMode).value, Parse(FilterColumns(t), dayOf).days)
  {
    var dt := Parse(FilterColumns(t), dayOf);
    if regionMode {
      IndexedDaily(AggregateRegion(dt, region), dt.days);
    } else if AggregateWorld(dt, region).Ok? {
      IndexedDaily(AggregateWorld(dt, region).value, dt.days);
    }
  }
}

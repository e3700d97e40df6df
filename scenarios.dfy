/** Worked examples of the pipeline on small concrete tables. */
module Scenarios {
  import opened Wrappers
  import opened Tables
  import opened Resample
  import opened Fill
  import opened Aggregate
  import opened Totals
  import opened Metrics

  /** Two provinces of the region over three days; the second day of the first province is missing. */
  function ExampleTable(): RawTable {
    RawTable(["Lat", "Long", "d1", "d2", "d3"],
      [Row("Hubei", "Mainland China", [Some(30), Some(112), Some(5), None, Some(10)]),
       Row("Guangdong", "Mainland China", [Some(23), Some(113), Some(1), Some(2), Some(3)])])
  }

  function ExampleDay(name: string): int {
    if name == "d1" then 1 else if name == "d2" then 2 else 3
  }

  /** The rows after the filter: only the three date columns remain. */
  function ExampleRows(): seq<Row> {
    [Row("Hubei", "Mainland China", [Some(5), None, Some(10)]),
     Row("Guangdong", "Mainland China", [Some(1), Some(2), Some(3)])]
  }

  /** Which names of the example header the filter drops. */
  lemma ExampleNames()
    ensures Dropped("Lat") && Dropped("Long")
    ensures !Dropped("d1") && !Dropped("d2") && !Dropped("d3")
  {
    assert "Lat"[..3] == "Lat";
    assert "Long"[..3] == "Lon";
  }

  /** The filter removes the latitude and longitude columns and keeps the three dates in order. */
  lemma ExampleFiltered(t: RawTable)
    requires t == ExampleTable()
    ensures FilterColumns(t).header == ["d1", "d2", "d3"]
  {
    FilterKeepsOrder(t);
    ExampleHeader(t.header);
  }

  lemma ExampleHeader(h: seq<string>)
    requires h == ["Lat", "Long", "d1", "d2", "d3"]
    ensures WithoutDropped(h) == ["d1", "d2", "d3"]
  {
    ExampleNames();
    WithoutDroppedStep(h, 0);
    WithoutDroppedStep(h, 1);
    WithoutDroppedStep(h, 2);
    WithoutDroppedStep(h, 3);
    WithoutDroppedStep(h, 4);
    assert h[0..] == h && h[5..] == [];
  }

  /** Selecting the region keeps both rows; the forward fill carries 5 into the missing second day. */
  lemma ExampleFilled(rows: seq<Row>)
    requires rows == ExampleRows()
    ensures Cells(FillRows(Matching(rows, "Mainland China")))
         == [[Some(5), Some(5), Some(10)], [Some(1), Some(2), Some(3)]]
  {
    assert rows[1..][1..] == [];
    assert Matching(rows, "Mainland China") == rows;
    assert ForwardFill([Some(5), None, Some(10)]) == [Some(5), Some(5), Some(10)];
    assert ForwardFill([Some(1), Some(2), Some(3)]) == [Some(1), Some(2), Some(3)];
    var f := FillRows(rows);
    assert f[1..][1..] == [];
    assert Cells(f) == [f[0].cells, f[1].cells];
  }

  lemma ExampleIndex(days: seq<int>)
    requires days == [1, 2, 3]
    ensures DayIndex(days) == days && DistinctDays(days)
  {
    assert MinOf(days) == 1 && MaxOf(days) == 3;
  }

  lemma ExampleColumns(m: seq<seq<Option<nat>>>)
    requires m == [[Some(5), Some(5), Some(10)], [Some(1), Some(2), Some(3)]]
    ensures ColumnTotal(m, 0) == 6 && ColumnTotal(m, 1) == 7 && ColumnTotal(m, 2) == 13
  {
    assert m[1..] == [m[1]] && m[1..][1..] == [];
    forall j | 0 <= j < 3
      ensures ColumnTotal(m, j) == m[0][j].GetOr(0) + m[1][j].GetOr(0)
    {
      assert ColumnTotal(m[1..], j) == m[1][j].GetOr(0) + ColumnTotal(m[1..][1..], j);
    }
  }

  lemma ExampleSeries(days: seq<int>, m: seq<seq<Option<nat>>>, r: seq<Entry<nat>>)
    requires Rect(m, 3) && days == [1, 2, 3]
    requires |r| == 3 && forall i :: 0 <= i < 3 ==> r[i] == Entry(days[i], ColumnTotal(m, i))
    requires ColumnTotal(m, 0) == 6 && ColumnTotal(m, 1) == 7 && ColumnTotal(m, 2) == 13
    ensures r == [Entry(1, 6), Entry(2, 7), Entry(3, 13)]
  {
  }

  lemma ExampleResampled(days: seq<int>, m: seq<seq<Option<nat>>>)
    requires days == [1, 2, 3] && Rect(m, 3)
    requires ColumnTotal(m, 0) == 6 && ColumnTotal(m, 1) == 7 && ColumnTotal(m, 2) == 13
    ensures DailyTotals(days, m) == [Entry(1, 6), Entry(2, 7), Entry(3, 13)]
  {
    ExampleIndex(days);
    DailyTotalsOfDailyColumns(days, m);
    ExampleSeries(days, m, DailyTotals(days, m));
  }

  /** Region mode: 5 + 1, then 5 (carried forward) + 2, then 10 + 3. */
  lemma RegionExample(dt: DatedTable)
    requires dt == DatedTable([1, 2, 3], ExampleRows())
    ensures AggregateRegion(dt, "Mainland China") == [Entry(1, 6), Entry(2, 7), Entry(3, 13)]
  {
    ExampleFilled(dt.rows);
    var m := Cells(FillRows(Matching(dt.rows, "Mainland China")));
    ExampleColumns(m);
    ExampleResampled(dt.days, m);
  }

  /** The filter keeps positions 2, 3 and 4 of the example header. */
  lemma ExampleKept(h: seq<string>)
    requires h == ["Lat", "Long", "d1", "d2", "d3"]
    ensures Kept(h) == [2, 3, 4]
  {
    ExampleNames();
    assert KeptFrom(h, 5) == [];
    assert KeptFrom(h, 4) == [4];
    assert KeptFrom(h, 3) == [3, 4];
    assert KeptFrom(h, 2) == [2, 3, 4];
    assert KeptFrom(h, 1) == [2, 3, 4];
  }

  /** Projecting a five-column row on positions 2, 3, 4 keeps its last three cells. */
  lemma ProjectLastThree<T>(cells: seq<T>, keep: seq<nat>)
    requires |cells| == 5 && keep == [2, 3, 4]
    ensures Project(cells, keep) == cells[2..]
  {
  }

  /** The whole example table after the filter: the three dates and the provinces' counts on them. */
  lemma ExampleFilterTable(t: RawTable, r: RawTable)
    requires t == ExampleTable() && r == FilterColumns(t)
    ensures r == RawTable(["d1", "d2", "d3"], ExampleRows())
  {
    var keep := Kept(t.header);
    ExampleKept(t.header);
    ProjectLastThree(t.header, keep);
    ProjectLastThree(t.rows[0].cells, keep);
    ProjectLastThree(t.rows[1].cells, keep);
    assert r.rows[0] == Row("Hubei", "Mainland China", t.rows[0].cells[2..]);
    assert r.rows[1] == Row("Guangdong", "Mainland China", t.rows[1].cells[2..]);
    assert r.rows == [r.rows[0], r.rows[1]];
  }

  /** Parsing the filtered labels gives the days 1, 2, 3. */
  lemma ExampleParse(t: RawTable)
    requires t == RawTable(["d1", "d2", "d3"], ExampleRows())
    ensures Parse(t, ExampleDay) == DatedTable([1, 2, 3], ExampleRows())
  {
    assert Parse(t, ExampleDay).days == [1, 2, 3];
  }

  /** `cum_data` in region mode on the example table, from the raw columns to the series 6, 7, 13. */
  lemma CumDataExample(t: RawTable)
    requires t == ExampleTable()
    ensures CumData(t, ExampleDay, "Mainland China", true) == Ok([Entry(1, 6), Entry(2, 7), Entry(3, 13)])
  {
    var f := FilterColumns(t);
    ExampleFilterTable(t, f);
    ExampleParse(f);
    RegionExample(Parse(f, ExampleDay));
  }

  /** Rest-of-world mode fails when the region has no row, as dropping its column raises. */
  lemma MissingRegionExample(t: RawTable)
    requires t == ExampleTable()
    ensures CumData(t, ExampleDay, "Italy", false) == Err(MissingColumn("Italy"))
  {
    assert !HasRowOf(t.rows, "Italy") by {
      assert forall i :: 0 <= i < |t.rows| ==> t.rows[i].country == "Mainland China";
    }
    NoRowFails(t, ExampleDay, "Italy");
  }

  lemma NoRowFails(t: RawTable, dayOf: string -> int, region: string)
    requires WellFormed(t) && !HasRowOf(t.rows, region)
    ensures CumData(t, dayOf, region, false) == Err(MissingColumn(region))
  {
    CumDataCases(t, dayOf, region, false);
  }

  /** A calendar day with no column totals 0: the daily maximum is empty there and the sum counts it as 0. */
  lemma GapExample(days: seq<int>, m: seq<seq<Option<nat>>>)
    requires days == [1, 3] && m == [[Some(5), Some(7)]]
    ensures DailyTotals(days, m) == [Entry(1, 5), Entry(2, 0), Entry(3, 7)]
  {
    GapIndex(days);
    assert m[1..] == [];
    assert ColumnTotal(m[1..], 0) == 0 && ColumnTotal(m[1..], 1) == 0;
    assert ColumnTotal(m, 0) == 5 && ColumnTotal(m, 1) == 7;
    DaySumAtColumn(days, m, 0);
    DaySumAtColumn(days, m, 1);
    DaySumNoColumn(days, m, 2);
    var r := DailyTotals(days, m);
    assert r[0] == Entry(1, 5) && r[1] == Entry(2, 0) && r[2] == Entry(3, 7);
  }

  lemma GapIndex(days: seq<int>)
    requires days == [1, 3]
    ensures DayIndex(days) == [1, 2, 3]
  {
    assert MinOf(days) == 1 && MaxOf(days) == 3;
  }

  /** Deltas and ratio of a confirmed series with a malformed zero after nonzero counts. */
  lemma GrowthExample()
    ensures Delta([Entry(1, 10), Entry(2, 20), Entry(3, 0)])
         == [Entry(1, None), Entry(2, Some(10)), Entry(3, Some(-20))]
    ensures Fatality([Entry(1, 1), Entry(2, 2), Entry(3, 2)], [Entry(1, 10), Entry(2, 20), Entry(3, 0)])
         == [Entry(1, Some(10.0)), Entry(2, Some(10.0)), Entry(3, None)]
  {
  }
}

/**
 * `cum_data`: one wide table turned into one daily series, either for the
 * region of interest (region mode) or for every other country together
 * (rest-of-world mode).
 */
module Aggregate {
  import opened Wrappers
  import opened Tables
  import opened Fill
  import opened Resample
  import opened Order

  /** The failure of rest-of-world mode: the region has no column to drop (pandas raises `KeyError`). */
  datatype Error = MissingColumn(name: string)

  /** The filtered table with its column labels parsed to calendar day numbers. */
  datatype DatedTable = DatedTable(days: seq<int>, rows: seq<Row>)

  /** Every row has exactly one cell per date column. */
  predicate WellFormedDated(dt: DatedTable) {
    Width(dt.rows, |dt.days|)
  }

  /** `pd.to_datetime` on the column labels; the label-to-day parser is given, not modelled. */
  function Parse(t: RawTable, dayOf: string -> int): (dt: DatedTable)
    requires WellFormed(t)
    ensures WellFormedDated(dt) && |dt.days| == |t.header| && dt.rows == t.rows
    ensures forall j :: 0 <= j < |t.header| ==> dt.days[j] == dayOf(t.header[j])
  {
    DatedTable(seq(|t.header|, j requires 0 <= j < |t.header| => dayOf(t.header[j])), t.rows)
  }

  /** Forward-fill every row along the date columns. */
  function FillRows(rows: seq<Row>): (r: seq<Row>)
    ensures |r| == |rows|
    ensures forall i :: 0 <= i < |r| ==>
      r[i].province == rows[i].province && r[i].country == rows[i].country &&
      r[i].cells == ForwardFill(rows[i].cells)
  {
    seq(|rows|, i requires 0 <= i < |rows| =>
      Row(rows[i].province, rows[i].country, ForwardFill(rows[i].cells)))
  }

  /** The rows whose country is `region`, in order (`df[df['Country/Region'] == region]`). */
  function Matching(rows: seq<Row>, region: string): (r: seq<Row>)
    ensures |r| <= |rows|
    ensures forall i :: 0 <= i < |r| ==> r[i].country == region
    ensures forall k :: 0 <= k < |rows| && rows[k].country == region ==> rows[k] in r
  {
    if rows == [] then []
    else (if rows[0].country == region then [rows[0]] else []) + Matching(rows[1..], region)
  }

  /** The rows whose country is not `region`, in order. */
  function Others(rows: seq<Row>, region: string): (r: seq<Row>)
    ensures |r| <= |rows|
    ensures forall i :: 0 <= i < |r| ==> r[i].country != region
    ensures forall k :: 0 <= k < |rows| && rows[k].country != region ==> rows[k] in r
  {
    if rows == [] then []
    else (if rows[0].country != region then [rows[0]] else []) + Others(rows[1..], region)
  }

  /**
   * The selection keeps every row of the region exactly as often as the table
   * has it, and no other row.
   */
  lemma {:induction false} MatchingCounts(rows: seq<Row>, region: string)
    ensures forall x :: multiset(Matching(rows, region))[x] == (if x.country == region then multiset(rows)[x] else 0)
  {
    if rows != [] {
      MatchingCounts(rows[1..], region);
      assert rows == [rows[0]] + rows[1..];
    }
  }

  /** The rows of the other countries, each exactly as often as the table has it. */
  lemma {:induction false} OthersCounts(rows: seq<Row>, region: string)
    ensures forall x :: multiset(Others(rows, region))[x] == (if x.country != region then multiset(rows)[x] else 0)
  {
    if rows != [] {
      OthersCounts(rows[1..], region);
      assert rows == [rows[0]] + rows[1..];
    }
  }

  /** The cell matrix of some rows. */
  function Cells(rows: seq<Row>): (m: seq<seq<Option<nat>>>)
    ensures |m| == |rows|
    ensures forall k :: 0 <= k < |rows| ==> m[k] == rows[k].cells
  {
    if rows == [] then [] else [rows[0].cells] + Cells(rows[1..])
  }

  lemma {:induction false} CellsWidth(rows: seq<Row>, w: nat)
    requires Width(rows, w)
    ensures Rect(Cells(rows), w)
  {
    if rows != [] {
      CellsWidth(rows[1..], w);
    }
  }

  lemma {:induction false} MatchingWidth(rows: seq<Row>, region: string, w: nat)
    requires Width(rows, w)
    ensures Width(Matching(rows, region), w)
  {
    if rows != [] {
      MatchingWidth(rows[1..], region, w);
    }
  }

  lemma {:induction false} OthersWidth(rows: seq<Row>, region: string, w: nat)
    requires Width(rows, w)
    ensures Width(Others(rows, region), w)
  {
    if rows != [] {
      OthersWidth(rows[1..], region, w);
    }
  }

  /** Every row has `w` cells. */
  predicate Width(rows: seq<Row>, w: nat) {
    forall i :: 0 <= i < |rows| ==> |rows[i].cells| == w
  }

  /** The total of column `j` over the rows whose country is in `s`, missing counted as 0. */
  function SumIn(rows: seq<Row>, s: set<string>, j: nat): (r: nat)
    requires forall i :: 0 <= i < |rows| ==> j < |rows[i].cells|
    ensures forall i :: 0 <= i < |rows| && rows[i].country in s ==> rows[i].cells[j].GetOr(0) <= r
    ensures (forall i :: 0 <= i < |rows| ==> rows[i].country !in s) ==> r == 0
  {
    if rows == [] then 0
    else (if rows[0].country in s then rows[0].cells[j].GetOr(0) else 0) + SumIn(rows[1..], s, j)
  }

  /** The countries of `xs`, each once, in order of first appearance. */
  function Distinct(xs: seq<string>): (r: seq<string>)
    ensures forall i, k :: 0 <= i < k < |r| ==> r[i] != r[k]
    ensures forall x :: x in r <==> x in xs
  {
    if xs == [] then []
    else
      var d := Distinct(xs[..|xs| - 1]);
      assert xs == xs[..|xs| - 1] + [xs[|xs| - 1]];
      if xs[|xs| - 1] in d then d else d + [xs[|xs| - 1]]
  }

  function CountriesOf(rows: seq<Row>): (r: seq<string>)
    ensures |r| == |rows| && forall i :: 0 <= i < |r| ==> r[i] == rows[i].country
  {
    seq(|rows|, i requires 0 <= i < |rows| => rows[i].country)
  }

  /** `groupby('Country/Region').sum()`: one column per country, each cell the sum over that country's rows. */
  function GroupByCountry(rows: seq<Row>, w: nat): (gs: seq<Group>)
    requires Width(rows, w)
    ensures forall k, l :: 0 <= k < l < |gs| ==> gs[k].country != gs[l].country
    ensures forall c :: HasCountry(gs, c) <==> HasRowOf(rows, c)
    ensures GroupsOf(gs, rows, w) && GroupWidth(gs, w)
  {
    var cs := Distinct(CountriesOf(rows));
    var gs := seq(|cs|, k requires 0 <= k < |cs| =>
      Group(cs[k], seq(w, j requires 0 <= j < w => Some(SumIn(rows, {cs[k]}, j)))));
    assert forall k :: 0 <= k < |gs| ==> gs[k].country == cs[k];
    forall c ensures HasCountry(gs, c) <==> c in cs {
      if c in cs {
        var k :| 0 <= k < |cs| && cs[k] == c;
        assert gs[k].country == c;
      }
    }
    assert forall c :: HasRowOf(rows, c) <==> c in CountriesOf(rows);
    gs
  }

  /** Some row belongs to country `c`. */
  predicate HasRowOf(rows: seq<Row>, c: string) {
    exists i :: 0 <= i < |rows| && rows[i].country == c
  }

  /** Every group has `w` cells. */
  predicate GroupWidth(gs: seq<Group>, w: nat) {
    forall k :: 0 <= k < |gs| ==> |gs[k].cells| == w
  }

  lemma SortKeepsWidth(gs: seq<Group>, w: nat)
    requires GroupWidth(gs, w)
    ensures GroupWidth(SortByCountry(gs), w)
  {
    var r := SortByCountry(gs);
    forall k | 0 <= k < |r| ensures |r[k].cells| == w {
      assert r[k] in multiset(gs);
    }
  }

  /** Each group carries, for every column, the sum of its country's rows. */
  predicate GroupsOf(gs: seq<Group>, rows: seq<Row>, w: nat)
    requires Width(rows, w)
  {
    forall k :: 0 <= k < |gs| ==>
      |gs[k].cells| == w && forall j :: 0 <= j < w ==> gs[k].cells[j] == Some(SumIn(rows, {gs[k].country}, j))
  }

  /** Some group is the column of country `c`. */
  predicate HasCountry(gs: seq<Group>, c: string) {
    exists k :: 0 <= k < |gs| && gs[k].country == c
  }

  /** `drop(c, axis=1)`: the groups without the column of country `c`. */
  function DropCountry(gs: seq<Group>, c: string): (r: seq<Group>)
    ensures |r| <= |gs|
    ensures forall k :: 0 <= k < |r| ==> r[k].country != c
  {
    if gs == [] then []
    else (if gs[0].country != c then [gs[0]] else []) + DropCountry(gs[1..], c)
  }

  lemma {:induction false} DropWidth(gs: seq<Group>, c: string, w: nat)
    requires GroupWidth(gs, w)
    ensures GroupWidth(DropCountry(gs, c), w)
  {
    if gs != [] {
      DropWidth(gs[1..], c, w);
    }
  }

  function GroupCells(gs: seq<Group>): (m: seq<seq<Option<nat>>>)
    ensures |m| == |gs|
    ensures forall k :: 0 <= k < |gs| ==> m[k] == gs[k].cells
  {
    if gs == [] then [] else [gs[0].cells] + GroupCells(gs[1..])
  }

  lemma {:induction false} GroupCellsWidth(gs: seq<Group>, w: nat)
    requires GroupWidth(gs, w)
    ensures Rect(GroupCells(gs), w)
  {
    if gs != [] {
      GroupCellsWidth(gs[1..], w);
    }
  }

  lemma FillRowsWidth(rows: seq<Row>, w: nat)
    requires Width(rows, w)
    ensures Width(FillRows(rows), w)
  {
  }

  /** Region mode: that region's rows only, each forward-filled, resampled to daily maxima, summed across provinces. */
  function AggregateRegion(dt: DatedTable, region: string): (r: seq<Entry<nat>>)
    requires WellFormedDated(dt)
    ensures |r| == |DayIndex(dt.days)|
    ensures forall i :: 0 <= i < |r| ==> r[i].day == DayIndex(dt.days)[i]
  {
    var w := |dt.days|;
    MatchingWidth(dt.rows, region, w);
    FillRowsWidth(Matching(dt.rows, region), w);
    CellsWidth(FillRows(Matching(dt.rows, region)), w);
    DailyTotals(dt.days, Cells(FillRows(Matching(dt.rows, region))))
  }

  /**
   * Rest-of-world mode: every row forward-filled, summed per country, the
   * region's column dropped (an error if it has none), the rest sorted by name,
   * resampled to daily maxima and summed across countries.
   */
  function AggregateWorld(dt: DatedTable, region: string): (r: Result<seq<Entry<nat>>, Error>)
    requires WellFormedDated(dt)
    ensures r.Err? ==> r.error == MissingColumn(region)
    ensures r.Ok? ==> |r.value| == |DayIndex(dt.days)|
    ensures r.Ok? ==> forall i :: 0 <= i < |r.value| ==> r.value[i].day == DayIndex(dt.days)[i]
  {
    FillRowsWidth(dt.rows, |dt.days|);
    var groups := GroupByCountry(FillRows(dt.rows), |dt.days|);
    if !HasCountry(groups, region) then Err(MissingColumn(region))
    else
      var w := |dt.days|;
      var dropped := DropCountry(groups, region);
      DropWidth(groups, region, w);
      SortKeepsWidth(dropped, w);
      var kept := SortByCountry(dropped);
      GroupCellsWidth(kept, w);
      Ok(DailyTotals(dt.days, GroupCells(kept)))
  }

  /** `cum_data(dataset, china)` on an already read table, with the region of interest as a parameter. */
  function CumData(t: RawTable, dayOf: string -> int, region: string, regionMode: bool): (r: Result<seq<Entry<nat>>, Error>)
    requires WellFormed(t)
    ensures regionMode ==> r.Ok?
    ensures r.Err? ==> r.error == MissingColumn(region)
    ensures r.Ok? ==> |r.value| == |DayIndex(Parse(FilterColumns(t), dayOf).days)|
    ensures r.Ok? ==> forall i :: 0 <= i < |r.value| ==> r.value[i].day == DayIndex(Parse(FilterColumns(t), dayOf).days)[i]
  {
    var dt := Parse(FilterColumns(t), dayOf);
    if regionMode then Ok(AggregateRegion(dt, region)) else AggregateWorld(dt, region)
  }
}

/**
 * The wide case-count table and its column filter.
 *
 * A raw table is one header of column names plus one row per location. Each
 * row identifies its location by two named fields (province and country) and
 * holds one optional count per header column. `FilterColumns` drops the index,
 * latitude and longitude artefacts, keeping the other columns in order.
 */
module Tables {
  import opened Wrappers

  /** One location: its identifiers and one optional count per column. */
  datatype Row = Row(province: string, country: string, cells: seq<Option<nat>>)

  /** One country's column after `groupby('Country/Region').sum()`: its counts per date column. */
  datatype Group = Group(country: string, cells: seq<Option<nat>>)

  /** A wide table as read from a CSV file, identifier columns excluded. */
  datatype RawTable = RawTable(header: seq<string>, rows: seq<Row>)

  /** Every row has exactly one cell per header column. */
  predicate WellFormed(t: RawTable) {
    forall i :: 0 <= i < |t.rows| ==> |t.rows[i].cells| == |t.header|
  }

  /** Python's `pat in s` on strings: `pat` is a contiguous piece of `s`. */
  predicate Contains(s: string, pat: string)
    decreases |s|
  {
    if |pat| > |s| then false
    else s[..|pat|] == pat || (|s| > 0 && Contains(s[1..], pat))
  }

  /** `pat` starts at position `k` of `s`. */
  ghost predicate OccursAt(s: string, pat: string, k: nat) {
    k + |pat| <= |s| && s[k..k + |pat|] == pat
  }

  lemma {:induction false} ContainsIff(s: string, pat: string)
    ensures Contains(s, pat) <==> exists k: nat :: OccursAt(s, pat, k)
    decreases |s|
  {
    if |pat| > |s| {
      forall k: nat ensures !OccursAt(s, pat, k) { }
    } else if s[..|pat|] == pat {
      assert OccursAt(s, pat, 0);
    } else {
      ContainsIff(s[1..], pat);
      if Contains(s[1..], pat) {
        var k: nat :| OccursAt(s[1..], pat, k);
        assert s[1..][k..k + |pat|] == s[k + 1..k + 1 + |pat|];
        assert OccursAt(s, pat, k + 1);
      } else {
        forall k: nat | OccursAt(s, pat, k) ensures false {
          assert k > 0;
          assert s[1..][k - 1..k - 1 + |pat|] == s[k..k + |pat|];
          assert OccursAt(s[1..], pat, k - 1);
        }
      }
    }
  }

  /** The column-name test of the filter: an unnamed index, a latitude or a longitude column. */
  predicate Dropped(name: string): (b: bool)
    ensures b <==> exists k: nat ::
      OccursAt(name, "Unnamed", k) || OccursAt(name, "Lat", k) || OccursAt(name, "Lon", k)
  {
    ContainsIff(name, "Unnamed");
    ContainsIff(name, "Lat");
    ContainsIff(name, "Lon");
    Contains(name, "Unnamed") || Contains(name, "Lat") || Contains(name, "Lon")
  }

  /** Positions `i..` of `h` whose name survives the filter, in ascending order. */
  function KeptFrom(h: seq<string>, i: nat): (r: seq<nat>)
    requires i <= |h|
    ensures forall j :: 0 <= j < |r| ==> i <= r[j] < |h| && !Dropped(h[r[j]])
    ensures forall j, k :: 0 <= j < k < |r| ==> r[j] < r[k]
    ensures forall c :: i <= c < |h| && !Dropped(h[c]) ==> c in r
    decreases |h| - i
  {
    if i == |h| then []
    else if Dropped(h[i]) then KeptFrom(h, i + 1)
    else [i] + KeptFrom(h, i + 1)
  }

  /** The positions of the columns the filter keeps. */
  function Kept(h: seq<string>): seq<nat> {
    KeptFrom(h, 0)
  }

  /** The elements of `s` at the positions `idx`, in that order. */
  function Project<T>(s: seq<T>, idx: seq<nat>): (r: seq<T>)
    requires forall j :: 0 <= j < |idx| ==> idx[j] < |s|
    ensures |r| == |idx|
  {
    seq(|idx|, j requires 0 <= j < |idx| => s[idx[j]])
  }

  /** Reference definition: the header with every dropped name removed, order kept. */
  function WithoutDropped(h: seq<string>): seq<string> {
    if h == [] then []
    else (if Dropped(h[0]) then [] else [h[0]]) + WithoutDropped(h[1..])
  }

  /** Drops every column whose name contains `Unnamed`, `Lat` or `Lon`, in the header and in every row. */
  function FilterColumns(t: RawTable): (r: RawTable)
    requires WellFormed(t)
    ensures WellFormed(r)
    ensures |r.rows| == |t.rows|
    ensures forall j :: 0 <= j < |r.header| ==> !Dropped(r.header[j])
    ensures |r.header| == |Kept(t.header)|
    ensures forall i :: 0 <= i < |r.rows| ==>
      r.rows[i].province == t.rows[i].province && r.rows[i].country == t.rows[i].country
    ensures forall j :: 0 <= j < |r.header| ==>
      Kept(t.header)[j] < |t.header| && r.header[j] == t.header[Kept(t.header)[j]]
    ensures forall i, j :: 0 <= i < |r.rows| && 0 <= j < |r.header| ==>
      r.rows[i].cells[j] == t.rows[i].cells[Kept(t.header)[j]]
  {
    var keep := Kept(t.header);
    RawTable(Project(t.header, keep),
             seq(|t.rows|, i requires 0 <= i < |t.rows| =>
               Row(t.rows[i].province, t.rows[i].country, Project(t.rows[i].cells, keep))))
  }

  lemma {:induction false} KeptFromIsWithoutDropped(h: seq<string>, i: nat)
    requires i <= |h|
    ensures Project(h, KeptFrom(h, i)) == WithoutDropped(h[i..])
    decreases |h| - i
  {
    if i < |h| {
      KeptFromIsWithoutDropped(h, i + 1);
      WithoutDroppedStep(h, i);
      if !Dropped(h[i]) {
        ProjectCons(h, i, KeptFrom(h, i + 1));
      }
    }
  }

  lemma WithoutDroppedStep(h: seq<string>, i: nat)
    requires i < |h|
    ensures WithoutDropped(h[i..]) == (if Dropped(h[i]) then [] else [h[i]]) + WithoutDropped(h[i + 1..])
  {
    assert h[i..][1..] == h[i + 1..];
  }

  lemma ProjectCons<T>(s: seq<T>, i: nat, rest: seq<nat>)
    requires i < |s| && forall j :: 0 <= j < |rest| ==> rest[j] < |s|
    ensures Project(s, [i] + rest) == [s[i]] + Project(s, rest)
  {
  }

  /** The filtered header is exactly the original header with the dropped names removed, in the original order. */
  lemma FilterKeepsOrder(t: RawTable)
    requires WellFormed(t)
    ensures FilterColumns(t).header == WithoutDropped(t.header)
  {
    KeptFromIsWithoutDropped(t.header, 0);
    assert t.header[0..] == t.header;
  }

  /** A column survives the filter exactly when its name avoids all three markers. */
  lemma FilterKeepsExactly(t: RawTable, c: nat)
    requires WellFormed(t) && c < |t.header|
    ensures c in Kept(t.header) <==>
      (forall k: nat :: !OccursAt(t.header[c], "Unnamed", k) && !OccursAt(t.header[c], "Lat", k) && !OccursAt(t.header[c], "Lon", k))
  {
    ContainsIff(t.header[c], "Unnamed");
    ContainsIff(t.header[c], "Lat");
    ContainsIff(t.header[c], "Lon");
  }
}

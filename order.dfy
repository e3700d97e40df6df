/**
 * `sort_index(axis=1)`: the country columns ordered by name, comparing
 * strings character by character as Python does.
 */
module Order {
  import opened Tables

  /**
   * Lexicographic `a <= b` on strings, as Python compares them: `a` is a prefix
   * of `b`, or at the first position where they differ `a` has the smaller code point.
   */
  predicate LexLe(a: string, b: string): (r: bool)
    ensures r <==> a <= b || FirstDiffLess(a, b)
    decreases |a|
  {
    if |a| == 0 then true
    else if |b| == 0 then false
    else if a[0] < b[0] then
      assert a[..0] == b[..0];
      true
    else if a[0] > b[0] then
      assert !FirstDiffLess(a, b) by {
        forall k | 0 <= k < |a| && k < |b| && a[..k] == b[..k] ensures a[k] >= b[k] {
          if k > 0 { assert false; }
        }
      }
      false
    else
      CommonFirst(a, b);
      LexLe(a[1..], b[1..])
  }

  /** At the first position where `a` and `b` differ, `a` has the smaller character. */
  ghost predicate FirstDiffLess(a: string, b: string) {
    exists k :: 0 <= k < |a| && k < |b| && a[..k] == b[..k] && a[k] < b[k]
  }

  /** A shared first character changes neither the prefix relation nor the first difference. */
  lemma CommonFirst(a: string, b: string)
    requires |a| > 0 && |b| > 0 && a[0] == b[0]
    ensures a <= b <==> a[1..] <= b[1..]
    ensures FirstDiffLess(a, b) <==> FirstDiffLess(a[1..], b[1..])
  {
    assert a == [a[0]] + a[1..] && b == [b[0]] + b[1..];
    if FirstDiffLess(a, b) {
      var k :| 0 <= k < |a| && k < |b| && a[..k] == b[..k] && a[k] < b[k];
      assert k > 0;
      assert a[1..][..k - 1] == a[..k][1..] && b[1..][..k - 1] == b[..k][1..];
      assert a[1..][k - 1] == a[k] && b[1..][k - 1] == b[k];
    }
    if FirstDiffLess(a[1..], b[1..]) {
      var k :| 0 <= k < |a[1..]| && k < |b[1..]| && a[1..][..k] == b[1..][..k] && a[1..][k] < b[1..][k];
      assert a[..k + 1] == [a[0]] + a[1..][..k] && b[..k + 1] == [b[0]] + b[1..][..k];
      assert a[k + 1] < b[k + 1];
    }
  }

  lemma {:induction false} LexLeTotal(a: string, b: string)
    ensures LexLe(a, b) || LexLe(b, a)
    decreases |a|
  {
    if |a| > 0 && |b| > 0 && a[0] == b[0] {
      LexLeTotal(a[1..], b[1..]);
    }
  }

  lemma {:induction false} LexLeTransitive(a: string, b: string, c: string)
    requires LexLe(a, b) && LexLe(b, c)
    ensures LexLe(a, c)
    decreases |a|
  {
    if |a| > 0 && a[0] == b[0] && b[0] == c[0] {
      LexLeTransitive(a[1..], b[1..], c[1..]);
    }
  }

  lemma {:induction false} LexLeAntisymmetric(a: string, b: string)
    requires LexLe(a, b) && LexLe(b, a)
    ensures a == b
    decreases |a|
  {
    if |a| > 0 {
      LexLeAntisymmetric(a[1..], b[1..]);
      assert a == [a[0]] + a[1..] && b == [b[0]] + b[1..];
    }
  }

  /** The groups are in ascending order of country name. */
  ghost predicate SortedByCountry(gs: seq<Group>) {
    forall i, j :: 0 <= i < j < |gs| ==> LexLe(gs[i].country, gs[j].country)
  }

  /** Putting in front a group that precedes every other keeps the order. */
  lemma SortedCons(x: Group, xs: seq<Group>)
    requires SortedByCountry(xs) && forall j :: 0 <= j < |xs| ==> LexLe(x.country, xs[j].country)
    ensures SortedByCountry([x] + xs)
  {
    var ys := [x] + xs;
    forall i, j | 0 <= i < j < |ys| ensures LexLe(ys[i].country, ys[j].country) {
      assert ys[j] == xs[j - 1];
      if i > 0 {
        assert ys[i] == xs[i - 1];
      }
    }
  }

  /** The first group of a sorted sequence precedes the rest, and the rest is sorted. */
  lemma SortedTail(gs: seq<Group>)
    requires SortedByCountry(gs) && gs != []
    ensures SortedByCountry(gs[1..])
    ensures forall j :: 0 <= j < |gs[1..]| ==> LexLe(gs[0].country, gs[1..][j].country)
  {
    forall j | 0 <= j < |gs[1..]| ensures LexLe(gs[0].country, gs[1..][j].country) {
      assert gs[1..][j] == gs[j + 1];
    }
  }

  /** A lower bound of `xs` and of `g` bounds every permutation of `xs` with `g` added. */
  lemma LowerBoundKept(x: Group, xs: seq<Group>, g: Group, ys: seq<Group>)
    requires forall j :: 0 <= j < |xs| ==> LexLe(x.country, xs[j].country)
    requires LexLe(x.country, g.country) && multiset(ys) == multiset(xs) + multiset{g}
    ensures forall j :: 0 <= j < |ys| ==> LexLe(x.country, ys[j].country)
  {
    forall j | 0 <= j < |ys| ensures LexLe(x.country, ys[j].country) {
      assert ys[j] in multiset(ys);
      if ys[j] != g {
        assert ys[j] in multiset(xs);
        var k :| 0 <= k < |xs| && xs[k] == ys[j];
      }
    }
  }

  /** Inserts `g` into the sorted `gs` before the first group that does not precede it. */
  function Insert(g: Group, gs: seq<Group>): (r: seq<Group>)
    requires SortedByCountry(gs)
    ensures SortedByCountry(r)
    ensures multiset(r) == multiset(gs) + multiset{g}
  {
    if gs == [] then [g]
    else if LexLe(g.country, gs[0].country) then
      SortedTail(gs);
      assert forall j :: 0 <= j < |gs| ==> LexLe(g.country, gs[j].country) by {
        forall j | 0 <= j < |gs| ensures LexLe(g.country, gs[j].country) {
          if j > 0 {
            LexLeTransitive(g.country, gs[0].country, gs[j].country);
          }
        }
      }
      SortedCons(g, gs);
      [g] + gs
    else
      LexLeTotal(g.country, gs[0].country);
      SortedTail(gs);
      var tail := Insert(g, gs[1..]);
      LowerBoundKept(gs[0], gs[1..], g, tail);
      SortedCons(gs[0], tail);
      assert gs == [gs[0]] + gs[1..];
      [gs[0]] + tail
  }

  /** Insertion sort of the country columns by name: sorted, and a permutation of its input. */
  function SortByCountry(gs: seq<Group>): (r: seq<Group>)
    ensures SortedByCountry(r)
    ensures multiset(r) == multiset(gs)
  {
    if gs == [] then []
    else
      assert gs == [gs[0]] + gs[1..];
      Insert(gs[0], SortByCountry(gs[1..]))
  }

  /** No two groups are columns of the same country, as after `groupby`. */
  predicate DistinctCountries(gs: seq<Group>) {
    forall i, j :: 0 <= i < j < |gs| ==> gs[i].country != gs[j].country
  }

  /** No group is the column of country `c`. */
  ghost predicate NoCountry(gs: seq<Group>, c: string) {
    forall k :: 0 <= k < |gs| ==> gs[k].country != c
  }

  /** A country absent from `xs` and from `g` is absent from every permutation of `xs` with `g` added. */
  lemma NoCountryKept(c: string, xs: seq<Group>, g: Group, ys: seq<Group>)
    requires NoCountry(xs, c) && g.country != c && multiset(ys) == multiset(xs) + multiset{g}
    ensures NoCountry(ys, c)
  {
    forall k | 0 <= k < |ys| ensures ys[k].country != c {
      assert ys[k] in multiset(ys);
      if ys[k] != g {
        assert ys[k] in multiset(xs);
        var l :| 0 <= l < |xs| && xs[l] == ys[k];
      }
    }
  }

  lemma {:induction false} InsertDistinct(g: Group, gs: seq<Group>)
    requires SortedByCountry(gs) && DistinctCountries(gs) && NoCountry(gs, g.country)
    ensures DistinctCountries(Insert(g, gs))
  {
    if gs != [] && !LexLe(g.country, gs[0].country) {
      SortedTail(gs);
      InsertDistinct(g, gs[1..]);
      var tail := Insert(g, gs[1..]);
      NoCountryKept(gs[0].country, gs[1..], g, tail);
      var r := [gs[0]] + tail;
      forall i, j | 0 <= i < j < |r| ensures r[i].country != r[j].country {
        assert r[j] == tail[j - 1];
        if i > 0 { assert r[i] == tail[i - 1]; }
      }
    }
  }

  /** Sorting keeps the countries distinct. */
  lemma {:induction false} SortDistinct(gs: seq<Group>)
    requires DistinctCountries(gs)
    ensures DistinctCountries(SortByCountry(gs))
  {
    if gs != [] {
      SortDistinct(gs[1..]);
      var sorted := SortByCountry(gs[1..]);
      forall k | 0 <= k < |sorted| ensures sorted[k].country != gs[0].country {
        assert sorted[k] in multiset(gs[1..]);
        var l :| 0 <= l < |gs[1..]| && gs[1..][l] == sorted[k];
        assert gs[l + 1] == sorted[k];
      }
      InsertDistinct(gs[0], sorted);
    }
  }

  /** Two sorted orderings of the same columns with distinct countries start with the same column. */
  lemma SortedSameFirst(xs: seq<Group>, ys: seq<Group>)
    requires SortedByCountry(xs) && SortedByCountry(ys) && xs != [] && ys != []
    requires multiset(xs) == multiset(ys) && DistinctCountries(xs)
    ensures xs[0] == ys[0]
  {
    assert xs[0] in multiset(ys);
    var k :| 0 <= k < |ys| && ys[k] == xs[0];
    assert ys[0] in multiset(xs);
    var m :| 0 <= m < |xs| && xs[m] == ys[0];
    assert LexLe(ys[0].country, xs[0].country) by {
      if k > 0 { assert LexLe(ys[0].country, ys[k].country); }
    }
    assert LexLe(xs[0].country, ys[0].country) by {
      if m > 0 { assert LexLe(xs[0].country, xs[m].country); }
    }
    LexLeAntisymmetric(xs[0].country, ys[0].country);
    assert m == 0;
  }

  /** Removing the same first element leaves equal multisets. */
  lemma SameRest(xs: seq<Group>, ys: seq<Group>)
    requires xs != [] && ys != [] && xs[0] == ys[0] && multiset(xs) == multiset(ys)
    ensures multiset(xs[1..]) == multiset(ys[1..])
  {
    assert xs == [xs[0]] + xs[1..] && ys == [ys[0]] + ys[1..];
    assert multiset(xs) == multiset{xs[0]} + multiset(xs[1..]);
    assert multiset(ys) == multiset{xs[0]} + multiset(ys[1..]);
    assert multiset(xs[1..]) == multiset(xs) - multiset{xs[0]};
    assert multiset(ys[1..]) == multiset(ys) - multiset{xs[0]};
  }

  lemma DistinctTail(xs: seq<Group>)
    requires xs != [] && DistinctCountries(xs)
    ensures DistinctCountries(xs[1..])
  {
    forall i, j | 0 <= i < j < |xs[1..]| ensures xs[1..][i].country != xs[1..][j].country {
      assert xs[1..][i] == xs[i + 1] && xs[1..][j] == xs[j + 1];
    }
  }

  /** Two sorted orderings of the same columns with distinct countries are the same sequence. */
  lemma {:induction false} SortedUnique(xs: seq<Group>, ys: seq<Group>)
    requires SortedByCountry(xs) && SortedByCountry(ys)
    requires multiset(xs) == multiset(ys) && DistinctCountries(xs)
    ensures xs == ys
    decreases |xs|
  {
    if xs == [] {
      assert |multiset(ys)| == 0;
    } else {
      assert ys != [] by {
        assert xs[0] in multiset(ys);
      }
      SortedSameFirst(xs, ys);
      SameRest(xs, ys);
      SortedTail(xs);
      SortedTail(ys);
      DistinctTail(xs);
      SortedUnique(xs[1..], ys[1..]);
      assert xs == [xs[0]] + xs[1..] && ys == [ys[0]] + ys[1..];
    }
  }

  /**
   * `sort_index(axis=1)` gives one column order whatever order the columns
   * arrive in, as long as no country has two columns.
   */
  lemma SortUnique(a: seq<Group>, b: seq<Group>)
    requires multiset(a) == multiset(b) && DistinctCountries(a)
    ensures SortByCountry(a) == SortByCountry(b)
  {
    SortDistinct(a);
    SortedUnique(SortByCountry(a), SortByCountry(b));
  }
}

/**
 * Forward-fill of one location's series along the date axis: a missing cell
 * takes the last earlier present value of the same row ("no new report means
 * the same as before"); cells before the first report stay missing.
 */
module Fill {
  import opened Wrappers

  /** `a` if present, otherwise `b`. */
  function Or(a: Option<nat>, b: Option<nat>): Option<nat> {
    if a.Some? then a else b
  }

  /** Reference definition: the latest present cell at or before position `i`, scanning backwards. */
  ghost function LastPresent(s: seq<Option<nat>>, i: nat): Option<nat>
    requires i < |s|
  {
    if s[i].Some? then s[i] else if i == 0 then None else LastPresent(s, i - 1)
  }

  /** Left-to-right scan carrying the last present value seen so far. */
  function FillFrom(s: seq<Option<nat>>, last: Option<nat>): (r: seq<Option<nat>>)
    ensures |r| == |s|
  {
    if s == [] then []
    else
      var v := Or(s[0], last);
      [v] + FillFrom(s[1..], v)
  }

  /** `fillna(method='ffill')` on one row. */
  function ForwardFill(s: seq<Option<nat>>): (r: seq<Option<nat>>)
    ensures |r| == |s|
  {
    FillFrom(s, None)
  }

  lemma {:induction false} LastPresentShift(s: seq<Option<nat>>, i: nat)
    requires 0 < i < |s|
    ensures LastPresent(s, i) == Or(LastPresent(s[1..], i - 1), LastPresent(s, 0))
  {
    if s[i].None? && i > 1 {
      LastPresentShift(s, i - 1);
    }
  }

  lemma {:induction false} FillFromIsLastPresent(s: seq<Option<nat>>, last: Option<nat>, i: nat)
    requires i < |s|
    ensures FillFrom(s, last)[i] == Or(LastPresent(s, i), last)
    decreases |s|
  {
    if i > 0 {
      FillFromIsLastPresent(s[1..], Or(s[0], last), i - 1);
      LastPresentShift(s, i);
    }
  }

  /** The scan agrees with the backward reference definition at every position. */
  lemma ForwardFillIsLastPresent(s: seq<Option<nat>>, i: nat)
    requires i < |s|
    ensures ForwardFill(s)[i] == LastPresent(s, i)
  {
    FillFromIsLastPresent(s, None, i);
  }

  lemma {:induction false} LastPresentMeaning(s: seq<Option<nat>>, i: nat)
    requires i < |s|
    ensures LastPresent(s, i).None? <==> forall k :: 0 <= k <= i ==> s[k].None?
    ensures LastPresent(s, i).Some? ==>
      exists k :: 0 <= k <= i && s[k] == LastPresent(s, i) && forall m :: k < m <= i ==> s[m].None?
  {
    if s[i].None? && i > 0 {
      LastPresentMeaning(s, i - 1);
      if LastPresent(s, i).Some? {
        var k :| 0 <= k <= i - 1 && s[k] == LastPresent(s, i - 1) && forall m :: k < m <= i - 1 ==> s[m].None?;
        assert forall m :: k < m <= i ==> s[m].None?;
      }
    }
  }

  /**
   * Fill correctness: a present cell is unchanged; a filled cell is missing
   * exactly when no cell up to it is present (leading gaps stay missing);
   * otherwise it is the nearest earlier present value of the same row.
   */
  lemma ForwardFillCorrect(s: seq<Option<nat>>, i: nat)
    requires i < |s|
    ensures s[i].Some? ==> ForwardFill(s)[i] == s[i]
    ensures ForwardFill(s)[i].None? <==> forall k :: 0 <= k <= i ==> s[k].None?
    ensures ForwardFill(s)[i].Some? ==>
      exists k :: 0 <= k <= i && s[k] == ForwardFill(s)[i] && forall m :: k < m <= i ==> s[m].None?
  {
    ForwardFillIsLastPresent(s, i);
    LastPresentMeaning(s, i);
  }

  lemma {:induction false} FillFromIdempotent(s: seq<Option<nat>>, last: Option<nat>)
    ensures FillFrom(FillFrom(s, last), last) == FillFrom(s, last)
  {
    if s != [] {
      var v := Or(s[0], last);
      FillFromIdempotent(s[1..], v);
      assert FillFrom(s, last)[1..] == FillFrom(s[1..], v);
      assert Or(v, last) == v;
    }
  }

  /** Filling an already filled row changes nothing. */
  lemma ForwardFillIdempotent(s: seq<Option<nat>>)
    ensures ForwardFill(ForwardFill(s)) == ForwardFill(s)
  {
    FillFromIdempotent(s, None);
  }
}

/**
 * `plot_growth_stats` on top of `cum_data`: the confirmed and deaths series
 * are built the same way from tables with the same date columns, so they
 * share their days and the ratio lines them up index by index.
 */
module Growth {
  import opened Wrappers
  import opened Tables
  import opened Resample
  import opened Aggregate
  import opened Totals
  import opened Metrics

  /**
   * Two `cum_data` results over tables with the same columns succeed (rest-of-world mode needs a
   * row of the region in each) and have the same days in the same order.
   */
  lemma SeriesShareDays(t1: RawTable, t2: RawTable, dayOf: string -> int, region: string, regionMode: bool)
    requires WellFormed(t1) && WellFormed(t2) && t1.header == t2.header
    requires !regionMode ==> HasRowOf(t1.rows, region) && HasRowOf(t2.rows, region)
    ensures CumData(t1, dayOf, region, regionMode).Ok? && CumData(t2, dayOf, region, regionMode).Ok?
    ensures |CumData(t1, dayOf, region, regionMode).value| == |CumData(t2, dayOf, region, regionMode).value|
    ensures forall i :: 0 <= i < |CumData(t1, dayOf, region, regionMode).value| ==>
      CumData(t1, dayOf, region, regionMode).value[i].day == CumData(t2, dayOf, region, regionMode).value[i].day
  {
    CumDataCases(t1, dayOf, region, regionMode);
    CumDataCases(t2, dayOf, region, regionMode);
  }

  /**
   * The fatality ratio of two such results: entry `i` is day `i`'s deaths
   * times 100 over its confirmed count, undefined where that count is 0.
   */
  lemma GrowthRatio(deathsTable: RawTable, confirmedTable: RawTable, dayOf: string -> int, region: string, regionMode: bool,
                    deaths: Result<seq<Entry<nat>>, Error>, confirmed: Result<seq<Entry<nat>>, Error>)
    requires WellFormed(deathsTable) && WellFormed(confirmedTable) && deathsTable.header == confirmedTable.header
    requires !regionMode ==> HasRowOf(deathsTable.rows, region) && HasRowOf(confirmedTable.rows, region)
    requires deaths == CumData(deathsTable, dayOf, region, regionMode)
    requires confirmed == CumData(confirmedTable, dayOf, region, regionMode)
    ensures deaths.Ok? && confirmed.Ok?
    ensures |Fatality(deaths.value, confirmed.value)| == |deaths.value|
    ensures forall i :: 0 <= i < |deaths.value| ==>
      Fatality(deaths.value, confirmed.value)[i]
      == Entry(deaths.value[i].day, Percent(deaths.value[i].value, confirmed.value[i].value))
  {
    SeriesShareDays(deathsTable, confirmedTable, dayOf, region, regionMode);
    FatalitySameDays(deaths.value, confirmed.value);
  }
}

/**
 * What the `/prices` handler does with the calendar it received: expand
 * every record into `data`, sort `data` in place, and answer with it.
 */
module Endpoint {
  import opened Prices
  import opened Rates
  import opened RateSort

  /**
   * The answer for a calendar: sorted by start instant, holding exactly
   * the rates of the expansion (no rate lost, none added), two per valid
   * record, each a non-empty interval.
   */
  method PricesResponse(records: seq<Record>, prices: PriceTable) returns (rates: seq<Rate>)
    ensures SortedByStart(rates)
    ensures multiset(rates) == multiset(ExpandAll(records, prices))
    ensures |rates| == 2 * |ValidRecords(records)|
    ensures forall k :: 0 <= k < |rates| ==> rates[k].start < rates[k].end
  {
    var data := ExpandRecords(records, prices);
    var a := new Rate[|data|](i requires 0 <= i < |data| => data[i]);
    assert a[..] == data;
    SortByStart(a);
    rates := a[..];
    ExpandedIntervals(records, prices);
    forall k | 0 <= k < |rates| ensures rates[k].start < rates[k].end {
      assert rates[k] in multiset(data);
      var n :| 0 <= n < |data| && data[n] == rates[k];
    }
    assert |rates| == |multiset(rates)| == |multiset(data)| == |data|;
  }
}

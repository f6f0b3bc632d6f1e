/**
 * The rate expansion of the `/prices` handler: each calendar record whose
 * colour is one of the three Tempo labels becomes a peak rate (from its
 * start + 6 h to start + 22 h) and an off-peak rate (from start + 22 h to
 * start + 30 h), priced from the start-up table; records with any other
 * label are dropped. On a 24-hour day these bounds are 06:00, 22:00 and
 * 06:00 of the next day on the local clock.
 *
 * Instants are whole seconds. Go's `Local()` and `UTC()` only change how a
 * `time.Time` is displayed and `Add` adds an absolute duration, so every
 * bound is the record's start instant plus a fixed number of hours.
 */
module Rates {
  import opened Text
  import opened Prices

  const Hour: int := 3600

  /** Offsets from the record's start instant. */
  const PeakStartOffset: int := 6 * Hour
  const PeakEndOffset: int := 22 * Hour
  const OffPeakEndOffset: int := 30 * Hour

  /** One entry of the upstream calendar; `endDate` is carried but never read. */
  datatype Record = Record(startDate: int, endDate: int, value: string)

  /** One output rate: the half-open interval [start, end) at price `value`. */
  datatype Rate = Rate(start: int, end: int, value: Amount)

  lemma TempoLabelsLowered()
    ensures ToLower("BLUE") == "blue" && ToLower("WHITE") == "white" && ToLower("RED") == "red"
  {
    assert ToLower("BLUE")[0] == 'b';
    assert ToLower("WHITE")[0] == 'w';
    assert ToLower("RED")[0] == 'r';
  }

  /**
   * `validTempoValue`: a label is accepted exactly when it is written in
   * upper case and names a colour of the start-up table.
   */
  function ValidTempoValue(lookup: string): (b: bool)
    ensures b <==> AllUpper(lookup) && ToLower(lookup) in PriceKeys
  {
    UpperCaseColours(lookup);
    lookup == "BLUE" || lookup == "WHITE" || lookup == "RED"
  }

  /** The three labels are the upper-case texts that lower to a table key. */
  lemma UpperCaseColours(s: string)
    ensures (s == "BLUE" || s == "WHITE" || s == "RED") <==> AllUpper(s) && ToLower(s) in PriceKeys
  {
    TempoLabelsLowered();
    assert AllUpper("BLUE") && AllUpper("WHITE") && AllUpper("RED");
    if AllUpper(s) && ToLower(s) in PriceKeys {
      var l := ToLower(s);
      if l == "blue" {
        ToLowerInjectiveOnUpper(s, "BLUE");
      } else if l == "white" {
        ToLowerInjectiveOnUpper(s, "WHITE");
      } else {
        ToLowerInjectiveOnUpper(s, "RED");
      }
    }
  }

  /** The comparison is case-sensitive: no lower-cased text is a valid label. */
  lemma LowerCaseRejected(s: string)
    ensures !ValidTempoValue(ToLower(s))
  {
    var t := ToLower(s);
    if t != [] {
      assert !IsUpper(t[0]);
      assert t[0] != 'B' && t[0] != 'W' && t[0] != 'R';
    }
  }

  /** The configured prices of a valid label's colour. */
  function LabelPrice(c: PriceConfig, tag: string): Price
    requires ValidTempoValue(tag)
  {
    if tag == "BLUE" then c.blue else if tag == "WHITE" then c.white else c.red
  }

  /** With the start-up table, the lookup of a valid label always hits its own colour. */
  lemma ConfiguredLookup(c: PriceConfig, tag: string)
    requires ValidTempoValue(tag)
    ensures ToLower(tag) in ColorTable(c)
    ensures Lookup(ColorTable(c), ToLower(tag)) == LabelPrice(c, tag)
  {
    TempoLabelsLowered();
  }

  /** The peak rate of a record: 16 hours, from 6 hours after the record's start. */
  function PeakRate(r: Record, prices: PriceTable): (rate: Rate)
    ensures r.startDate < rate.start < rate.end
    ensures rate.start - r.startDate == 6 * Hour && rate.end - rate.start == 16 * Hour
  {
    Rate(r.startDate + PeakStartOffset, r.startDate + PeakEndOffset, Lookup(prices, ToLower(r.value)).peak)
  }

  /** The off-peak rate of a record: 8 hours, from the end of its peak rate. */
  function OffPeakRate(r: Record, prices: PriceTable): (rate: Rate)
    ensures rate.start == PeakRate(r, prices).end
    ensures rate.start < rate.end && rate.end - rate.start == 8 * Hour
  {
    Rate(r.startDate + PeakEndOffset, r.startDate + OffPeakEndOffset, Lookup(prices, ToLower(r.value)).offPeak)
  }

  /**
   * The rates one loop iteration appends for a record: none for an unknown
   * label, otherwise the peak rate and then the off-peak rate, which together
   * cover the 24 hours from 6 hours after the record's start.
   */
  function Expand(r: Record, prices: PriceTable): (rates: seq<Rate>)
    ensures |rates| == if ValidTempoValue(r.value) then 2 else 0
    ensures |rates| == 2 ==>
              && rates[0].start == r.startDate + 6 * Hour
              && rates[0].end == rates[1].start
              && rates[1].end == rates[0].start + 24 * Hour
    ensures forall k :: 0 <= k < |rates| ==> rates[k].start < rates[k].end
  {
    if ValidTempoValue(r.value) then [PeakRate(r, prices), OffPeakRate(r, prices)] else []
  }

  /**
   * The rates the loop has appended after visiting `rs`, in order, each a
   * non-empty interval.
   */
  function ExpandAll(rs: seq<Record>, prices: PriceTable): (rates: seq<Rate>)
    ensures |rates| <= 2 * |rs|
    ensures forall k :: 0 <= k < |rates| ==> rates[k].start < rates[k].end
  {
    if rs == [] then [] else ExpandAll(rs[..|rs| - 1], prices) + Expand(rs[|rs| - 1], prices)
  }

  /** The records the loop keeps, in input order. */
  function ValidRecords(rs: seq<Record>): (v: seq<Record>)
    ensures |v| <= |rs|
    ensures forall j :: 0 <= j < |v| ==> ValidTempoValue(v[j].value)
  {
    if rs == [] then []
    else if ValidTempoValue(rs[|rs| - 1].value) then ValidRecords(rs[..|rs| - 1]) + [rs[|rs| - 1]]
    else ValidRecords(rs[..|rs| - 1])
  }

  /** Filtering commutes with concatenation: it keeps the input order. */
  lemma {:induction false} ValidRecordsAppend(a: seq<Record>, b: seq<Record>)
    ensures ValidRecords(a + b) == ValidRecords(a) + ValidRecords(b)
  {
    if b != [] {
      InitOfAppend(a, b);
      ValidRecordsAppend(a, b[..|b| - 1]);
    } else {
      assert a + b == a;
    }
  }

  /** A record is kept exactly when its label is valid. */
  lemma ValidRecordsSingle(r: Record)
    ensures ValidRecords([r]) == if ValidTempoValue(r.value) then [r] else []
  {
    assert [r][..0] == [];
  }

  /**
   * Expansion commutes with concatenation: the rates of `a` come before
   * those of `b`.
   */
  lemma {:induction false} ExpandAllAppend(a: seq<Record>, b: seq<Record>, prices: PriceTable)
    ensures ExpandAll(a + b, prices) == ExpandAll(a, prices) + ExpandAll(b, prices)
  {
    if b == [] {
      assert a + b == a;
    } else {
      var ab, init, last := a + b, b[..|b| - 1], b[|b| - 1];
      var ea, ei, el := ExpandAll(a, prices), ExpandAll(init, prices), Expand(last, prices);
      assert ExpandAll(ab, prices) == ExpandAll(ab[..|ab| - 1], prices) + Expand(ab[|ab| - 1], prices);
      InitOfAppend(a, b);
      assert ExpandAll(b, prices) == ei + el;
      assert ExpandAll(a + init, prices) == ea + ei by {
        ExpandAllAppend(a, init, prices);
      }
      RatesAssociate(ea, ei, el);
    }
  }

  /** The last record of a concatenation and what comes before it. */
  lemma InitOfAppend(a: seq<Record>, b: seq<Record>)
    requires b != []
    ensures (a + b)[..|a + b| - 1] == a + b[..|b| - 1]
    ensures (a + b)[|a + b| - 1] == b[|b| - 1]
  {
  }

  /** Concatenation of rate lists is associative. */
  lemma RatesAssociate(x: seq<Rate>, y: seq<Rate>, z: seq<Rate>)
    ensures (x + y) + z == x + (y + z)
  {
  }

  /**
   * The shape of the expansion: two rates per valid record and none for
   * any other, in input order, the peak rate first and the off-peak rate
   * second.
   */
  lemma {:induction false} ExpandAllShape(rs: seq<Record>, prices: PriceTable)
    ensures |ExpandAll(rs, prices)| == 2 * |ValidRecords(rs)|
    ensures forall j :: 0 <= j < |ValidRecords(rs)| ==>
              ExpandAll(rs, prices)[2 * j] == PeakRate(ValidRecords(rs)[j], prices) &&
              ExpandAll(rs, prices)[2 * j + 1] == OffPeakRate(ValidRecords(rs)[j], prices)
  {
    if rs != [] {
      var init, last := rs[..|rs| - 1], rs[|rs| - 1];
      ExpandAllShape(init, prices);
      var e, v := ExpandAll(init, prices), ValidRecords(init);
      if ValidTempoValue(last.value) {
        assert ValidRecords(rs) == v + [last];
        assert ExpandAll(rs, prices) == e + [PeakRate(last, prices), OffPeakRate(last, prices)];
      } else {
        assert ValidRecords(rs) == v;
        assert ExpandAll(rs, prices) == e;
      }
    }
  }

  /**
   * Each pair of rates tiles its day: the peak rate lasts 16 hours, the
   * off-peak rate 8 hours, the off-peak rate starts where the peak rate
   * ends, and every rate is a non-empty interval.
   */
  lemma ExpandedIntervals(rs: seq<Record>, prices: PriceTable)
    ensures |ExpandAll(rs, prices)| == 2 * |ValidRecords(rs)|
    ensures forall k :: 0 <= k < |ExpandAll(rs, prices)| ==>
              ExpandAll(rs, prices)[k].start < ExpandAll(rs, prices)[k].end
    ensures forall j :: 0 <= j < |ValidRecords(rs)| ==>
              var peak, offPeak := ExpandAll(rs, prices)[2 * j], ExpandAll(rs, prices)[2 * j + 1];
              && peak.start == ValidRecords(rs)[j].startDate + 6 * Hour
              && peak.end == offPeak.start
              && peak.end - peak.start == 16 * Hour
              && offPeak.end - offPeak.start == 8 * Hour
  {
    ExpandAllShape(rs, prices);
    var e, v := ExpandAll(rs, prices), ValidRecords(rs);
    forall j | 0 <= j < |v|
      ensures && e[2 * j].start == v[j].startDate + 6 * Hour
              && e[2 * j].end == e[2 * j + 1].start
              && e[2 * j].end - e[2 * j].start == 16 * Hour
              && e[2 * j + 1].end - e[2 * j + 1].start == 8 * Hour
    {
      assert e[2 * j] == PeakRate(v[j], prices) && e[2 * j + 1] == OffPeakRate(v[j], prices);
    }
  }

  /**
   * With the start-up table, each peak rate carries the peak price and each
   * off-peak rate the off-peak price configured for the record's colour.
   */
  lemma ExpandedPrices(rs: seq<Record>, c: PriceConfig)
    ensures |ExpandAll(rs, ColorTable(c))| == 2 * |ValidRecords(rs)|
    ensures forall j :: 0 <= j < |ValidRecords(rs)| ==>
              ExpandAll(rs, ColorTable(c))[2 * j].value == LabelPrice(c, ValidRecords(rs)[j].value).peak &&
              ExpandAll(rs, ColorTable(c))[2 * j + 1].value == LabelPrice(c, ValidRecords(rs)[j].value).offPeak
  {
    ExpandAllShape(rs, ColorTable(c));
    forall j | 0 <= j < |ValidRecords(rs)| ensures ValidTempoValue(ValidRecords(rs)[j].value) {
    }
    forall j | 0 <= j < |ValidRecords(rs)|
      ensures Lookup(ColorTable(c), ToLower(ValidRecords(rs)[j].value)) == LabelPrice(c, ValidRecords(rs)[j].value)
    {
      ConfiguredLookup(c, ValidRecords(rs)[j].value);
    }
  }

  /**
   * A red day of January 2024 in Paris (local midnight 23:00 UTC the day
   * before): peak from 05:00 to 21:00 UTC, off-peak from 21:00 to 05:00 UTC
   * the next morning, at the configured red prices.
   */
  lemma RedDayExample(c: PriceConfig)
    requires c.red == Price(0.7562, 0.1369)
    ensures ExpandAll([Record(1705273200, 1705359600, "RED")], ColorTable(c))
              == [Rate(1705294800, 1705352400, 0.7562), Rate(1705352400, 1705381200, 0.1369)]
  {
    var rs := [Record(1705273200, 1705359600, "RED")];
    assert rs[..0] == [];
    ConfiguredLookup(c, "RED");
  }

  /** The expansion loop: appends the rates of every valid record to `data`. */
  method ExpandRecords(records: seq<Record>, prices: PriceTable) returns (data: seq<Rate>)
    ensures data == ExpandAll(records, prices)
  {
    data := [];
    for i := 0 to |records|
      invariant data == ExpandAll(records[..i], prices)
    {
      var r := records[i];
      assert records[..i + 1][..i] == records[..i];
      if ValidTempoValue(r.value) {
        var peakPrice := Lookup(prices, ToLower(r.value)).peak;
        var offPeakPrice := Lookup(prices, ToLower(r.value)).offPeak;
        var arPeak := Rate(r.startDate + PeakStartOffset, r.startDate + PeakEndOffset, peakPrice);
        data := data + [arPeak];
        var arOffPeak := Rate(r.startDate + PeakEndOffset, r.startDate + OffPeakEndOffset, offPeakPrice);
        data := data + [arOffPeak];
      }
    }
    assert records[..|records|] == records;
  }
}

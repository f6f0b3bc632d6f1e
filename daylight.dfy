/**
 * The rate bounds on days when the local clock changes.
 *
 * The handler adds 6, 22 and 30 hours to the record's start instant, which
 * is 06:00, 22:00 and 06:00 of the next day on the local clock only when the
 * day is 24 hours long. On the 23-hour day of the spring change the off-peak
 * rate runs one hour into the next day's peak rate; on the 25-hour day of
 * the autumn change an hour is left without a rate. Here both the bounds as
 * the handler computes them and bounds computed on the local clock are
 * stated, for a time zone given by its UTC offset.
 */
module Daylight {
  import opened Prices
  import opened Rates
  import opened Text

  /**
   * A time zone: `offset(t)` is the local clock's lead over UTC at instant
   * `t`, and `toUtc(w)` is the instant at which the local clock shows `w`
   * (both in seconds).
   */
  datatype Zone = Zone(offset: int -> int, toUtc: int -> int)

  /** The local clock reading at instant `t`. */
  function Wall(z: Zone, t: int): int {
    t + z.offset(t)
  }

  /**
   * A zone whose clock changes are at most two hours: readings of the local
   * clock are reached in order, up to two hours, however far apart they are.
   */
  ghost predicate ValidZone(z: Zone) {
    forall w1, w2 :: w1 <= w2 ==> z.toUtc(w2) - z.toUtc(w1) >= w2 - w1 - 2 * Hour
  }

  /**
   * The rates of a record with every bound found on the local clock; in a
   * zone whose clock changes are at most two hours, both are non-empty.
   */
  function LocalExpand(r: Record, z: Zone, prices: PriceTable): (rates: seq<Rate>)
    ensures |rates| == if ValidTempoValue(r.value) then 2 else 0
    ensures |rates| == 2 ==> rates[0].end == rates[1].start
    ensures ValidZone(z) && |rates| == 2 ==>
              rates[0].start < rates[0].end && rates[1].start < rates[1].end
  {
    var midnight := Wall(z, r.startDate);
    var price := Lookup(prices, ToLower(r.value));
    if ValidTempoValue(r.value) then
      [Rate(z.toUtc(midnight + PeakStartOffset), z.toUtc(midnight + PeakEndOffset), price.peak),
       Rate(z.toUtc(midnight + PeakEndOffset), z.toUtc(midnight + OffPeakEndOffset), price.offPeak)]
    else []
  }

  /**
   * On the local clock, the day after always picks up where the day before
   * left off: the off-peak rate of one day ends where the peak rate of the
   * next begins, whatever the length of the day.
   */
  lemma LocalDaysContiguous(r1: Record, r2: Record, z: Zone, prices: PriceTable)
    requires ValidTempoValue(r1.value) && ValidTempoValue(r2.value)
    requires Wall(z, r2.startDate) == Wall(z, r1.startDate) + 24 * Hour
    ensures LocalExpand(r1, z, prices)[1].end == LocalExpand(r2, z, prices)[0].start
  {
  }

  /** Paris on 31 March 2024: the clocks go from 02:00 CET to 03:00 CEST at 01:00 UTC. */
  const SpringChange: int := 1711846800

  function ParisSpring2024(): Zone {
    Zone(t => if t < SpringChange then Hour else 2 * Hour,
         w => if w < SpringChange + Hour then w - Hour else w - 2 * Hour)
  }

  /** The spring change moves the local clock one hour forward. */
  lemma SpringZoneValid()
    ensures ValidZone(ParisSpring2024())
  {
    var z := ParisSpring2024();
    forall w1, w2 | w1 <= w2 ensures z.toUtc(w2) - z.toUtc(w1) >= w2 - w1 - 2 * Hour {
      assert z.toUtc(w2) - z.toUtc(w1) >= w2 - w1 - Hour;
    }
  }

  /** The records of 31 March and 1 April 2024, both local midnights. */
  const March31: Record := Record(1711839600, 1711922400, "BLUE")
  const April1: Record := Record(1711922400, 1712008800, "BLUE")

  /**
   * As the handler computes them, the off-peak rate of 31 March ends at
   * 05:00 UTC on 1 April, an hour after the peak rate of 1 April begins:
   * the two overlap although the records are of consecutive local days.
   */
  lemma AbsoluteOffsetsOverlap(prices: PriceTable)
    ensures Wall(ParisSpring2024(), April1.startDate) == Wall(ParisSpring2024(), March31.startDate) + 24 * Hour
    ensures OffPeakRate(March31, prices).end == PeakRate(April1, prices).start + Hour
    ensures Wall(ParisSpring2024(), PeakRate(March31, prices).start) == Wall(ParisSpring2024(), March31.startDate) + 7 * Hour
  {
  }

  /** Paris on 27 October 2024: the clocks go from 03:00 CEST back to 02:00 CET at 01:00 UTC. */
  const AutumnChange: int := 1729990800

  function ParisAutumn2024(): Zone {
    Zone(t => if t < AutumnChange then 2 * Hour else Hour,
         w => if w < AutumnChange + 2 * Hour then w - 2 * Hour else w - Hour)
  }

  /** The autumn change moves the local clock one hour back. */
  lemma AutumnZoneValid()
    ensures ValidZone(ParisAutumn2024())
  {
    var z := ParisAutumn2024();
    forall w1, w2 | w1 <= w2 ensures z.toUtc(w2) - z.toUtc(w1) >= w2 - w1 - 2 * Hour {
      assert z.toUtc(w2) - z.toUtc(w1) >= w2 - w1;
    }
  }

  /** The records of 27 and 28 October 2024, both local midnights. */
  const October27: Record := Record(1729980000, 1730070000, "WHITE")
  const October28: Record := Record(1730070000, 1730156400, "WHITE")

  /**
   * As the handler computes them, the off-peak rate of 27 October ends at
   * 04:00 UTC on 28 October and the peak rate of 28 October begins at 05:00
   * UTC: an hour of consecutive local days is left without a rate.
   */
  lemma AbsoluteOffsetsLeaveGap(prices: PriceTable)
    ensures Wall(ParisAutumn2024(), October28.startDate) == Wall(ParisAutumn2024(), October27.startDate) + 24 * Hour
    ensures PeakRate(October28, prices).start == OffPeakRate(October27, prices).end + Hour
  {
  }

  /**
   * On the local clock the same two days meet at 04:00 UTC, 06:00 CEST, and
   * the peak rate of 31 March starts at 06:00 local time.
   */
  lemma LocalOffsetsMeet(prices: PriceTable)
    ensures |LocalExpand(March31, ParisSpring2024(), prices)| == 2
    ensures |LocalExpand(April1, ParisSpring2024(), prices)| == 2
    ensures LocalExpand(March31, ParisSpring2024(), prices)[1].end == LocalExpand(April1, ParisSpring2024(), prices)[0].start
    ensures LocalExpand(April1, ParisSpring2024(), prices)[0].start == 1711944000
    ensures Wall(ParisSpring2024(), LocalExpand(March31, ParisSpring2024(), prices)[0].start)
              == Wall(ParisSpring2024(), March31.startDate) + 6 * Hour
  {
    assert ValidTempoValue("BLUE");
    LocalDaysContiguous(March31, April1, ParisSpring2024(), prices);
  }
}

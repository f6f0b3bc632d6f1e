/**
 * The calendar query of the `/prices` handler: a window of whole days
 * around today, and the query string that carries its two bounds with every
 * `+` of the formatted timestamps written as `%2B`.
 */
module Query {
  import opened Text

  /** A window of days, from `startDay` (inclusive) to `endDay` (exclusive). */
  datatype Window = Window(startDay: int, endDay: int)

  /**
   * The window asked for on day `today`: from the beginning of yesterday to
   * the beginning of the day after tomorrow, so that it covers yesterday,
   * today and tomorrow and nothing more.
   */
  function QueryWindow(today: int): (w: Window)
    ensures w.startDay <= today - 1 && today + 1 < w.endDay
    ensures w.endDay - w.startDay == 3
  {
    Window(today - 1, today + 2)
  }

  /** The three days are exactly yesterday, today and tomorrow. */
  lemma QueryWindowExact(today: int, d: int)
    ensures QueryWindow(today).startDay <= d < QueryWindow(today).endDay <==> today - 1 <= d <= today + 1
  {
  }

  /** The fixed parts of the query string; none holds `+` or `%`. */
  const StartKey: string := "?start_date="
  const EndKey: string := "&end_date="
  const FallbackFlag: string := "&fallback_status=true"

  /**
   * The query string for the window, given the two bounds as formatted
   * timestamps; the base address is kept as it is. Only the bounds are
   * escaped, so a `+` can remain only where the base address has one.
   */
  function CalendarUri(base: string, startText: string, endText: string): (u: string)
    ensures '+' !in u <==> '+' !in base
    ensures |u| >= |base| + |startText| + |endText| + |StartKey| + |EndKey| + |FallbackFlag|
  {
    base + StartKey + EscapePlus(startText) + EndKey + EscapePlus(endText) + FallbackFlag
  }

  /**
   * The query carries no literal `+` (which a server would read as a space)
   * when the base address has none, and a server that decodes `%2B` reads
   * the query with both bounds exactly as they were formatted.
   */
  lemma CalendarUriEscaped(base: string, startText: string, endText: string)
    requires '+' !in base && '%' !in base
    requires '%' !in startText && '%' !in endText
    ensures '+' !in CalendarUri(base, startText, endText)
    ensures UnescapePlus(CalendarUri(base, startText, endText))
              == base + StartKey + startText + EndKey + endText + FallbackFlag
  {
    assert '+' !in StartKey && '%' !in StartKey;
    assert '+' !in EndKey && '%' !in EndKey;
    assert '+' !in FallbackFlag && '%' !in FallbackFlag;
    var tail := EndKey + (EscapePlus(endText) + FallbackFlag);
    KeyThenBound(EndKey, endText, FallbackFlag);
    UnescapedLiteral(FallbackFlag);
    KeyThenBound(StartKey, startText, tail);
    UnescapedLiteralThen(base, StartKey + (EscapePlus(startText) + tail));
    Regroup(base, StartKey, EscapePlus(startText), EndKey, EscapePlus(endText), FallbackFlag);
    Regroup(base, StartKey, startText, EndKey, endText, FallbackFlag);
  }

  /** Decoding a fixed part followed by an escaped bound and a tail. */
  lemma KeyThenBound(k: string, s: string, tail: string)
    requires '+' !in k && '%' !in k && '%' !in s
    ensures UnescapePlus(k + (EscapePlus(s) + tail)) == k + (s + UnescapePlus(tail))
  {
    UnescapedLiteralThen(k, EscapePlus(s) + tail);
    UnescapeEscapedThen(s, tail);
  }

  /** Six texts in a row, grouped from the left or from the right. */
  lemma Regroup(a: string, b: string, c: string, d: string, e: string, f: string)
    ensures a + b + c + d + e + f == a + (b + (c + (d + (e + f))))
  {
    var ef := e + f;
    var def := d + ef;
    var cdef := c + def;
    assert a + b + c + d + e + f == a + b + c + d + ef;
    assert a + b + c + d + ef == a + b + c + def;
    assert a + b + c + def == a + b + cdef;
    assert a + b + cdef == a + (b + cdef);
  }

  /** A text with neither `+` nor `%` is decoded as itself, whatever follows. */
  lemma UnescapedLiteralThen(lit: string, tail: string)
    requires '+' !in lit && '%' !in lit
    ensures UnescapePlus(lit + tail) == lit + UnescapePlus(tail)
  {
    UnescapeEscapedThen(lit, tail);
  }

  /** A text with neither `+` nor `%` is decoded as itself. */
  lemma UnescapedLiteral(lit: string)
    requires '+' !in lit && '%' !in lit
    ensures UnescapePlus(lit) == lit
  {
    UnescapedLiteralThen(lit, []);
    assert lit + [] == lit;
  }
}

/**
 * The few string operations of Go's `strings` package that the adapter uses:
 * `ToLower` (on the colour labels and the configuration's field names),
 * `HasPrefix` (on error messages) and `ReplaceAll(s, "+", "%2B")` (on the
 * formatted timestamps of the calendar query).
 */
module Text {

  /** True when `c` is an ASCII upper-case letter. */
  predicate IsUpper(c: char) {
    'A' <= c <= 'Z'
  }

  /** Lower-cases one ASCII letter; every other character is kept. */
  function ToLowerChar(c: char): (d: char)
    ensures !IsUpper(d)
    ensures IsUpper(c) ==> d as int == c as int + 32
    ensures !IsUpper(c) ==> d == c
  {
    if IsUpper(c) then (c as int + 32) as char else c
  }

  /** `strings.ToLower`, restricted to the ASCII case mapping. */
  function ToLower(s: string): (r: string)
    ensures |r| == |s|
    ensures forall i :: 0 <= i < |s| ==> r[i] == ToLowerChar(s[i])
  {
    if s == [] then [] else [ToLowerChar(s[0])] + ToLower(s[1..])
  }

  /** Lower-casing leaves no upper-case letter behind. */
  lemma ToLowerHasNoUpper(s: string)
    ensures forall i :: 0 <= i < |ToLower(s)| ==> !IsUpper(ToLower(s)[i])
  {
  }

  /** Lower-casing twice is lower-casing once. */
  lemma {:induction false} ToLowerIdempotent(s: string)
    ensures ToLower(ToLower(s)) == ToLower(s)
  {
    if s != [] {
      ToLowerIdempotent(s[1..]);
      assert ToLower(s)[1..] == ToLower(s[1..]);
    }
  }

  /** True when every character of `s` is an ASCII upper-case letter. */
  predicate AllUpper(s: string) {
    forall i :: 0 <= i < |s| ==> IsUpper(s[i])
  }

  /** Two upper-case texts with the same lower-case form are equal. */
  lemma ToLowerInjectiveOnUpper(s: string, u: string)
    requires AllUpper(s) && AllUpper(u)
    requires ToLower(s) == ToLower(u)
    ensures s == u
  {
    assert |s| == |u|;
    forall i | 0 <= i < |s| ensures s[i] == u[i] {
      assert ToLower(s)[i] == ToLower(u)[i];
    }
  }

  /**
   * `strings.HasPrefix`: `s` begins with `prefix`, character by character,
   * and is then `prefix` followed by the rest of `s`.
   */
  function HasPrefix(s: string, prefix: string): (b: bool)
    ensures b <==> |prefix| <= |s| && forall i :: 0 <= i < |prefix| ==> s[i] == prefix[i]
    ensures b ==> s == prefix + s[|prefix|..]
  {
    |prefix| <= |s| && s[..|prefix|] == prefix
  }

  /** Every text begins with itself, whatever follows. */
  lemma HasPrefixOfAppend(prefix: string, rest: string)
    ensures HasPrefix(prefix + rest, prefix)
  {
    assert (prefix + rest)[..|prefix|] == prefix;
  }

  /** The escape sequence that stands for `+` in a query string. */
  const EscapedPlus: string := "%2B"

  /** `strings.ReplaceAll(s, "+", "%2B")`: every `+` becomes `%2B`. */
  function EscapePlus(s: string): (r: string)
    ensures '+' !in r
    ensures '+' !in s ==> r == s
    ensures |r| >= |s|
  {
    if s == [] then []
    else if s[0] == '+' then EscapedPlus + EscapePlus(s[1..])
    else [s[0]] + EscapePlus(s[1..])
  }

  /** Reads `%2B` back as `+`; this is the decoding a server applies to the query. */
  function UnescapePlus(s: string): string
  {
    if s == [] then []
    else if HasPrefix(s, EscapedPlus) then "+" + UnescapePlus(s[|EscapedPlus|..])
    else [s[0]] + UnescapePlus(s[1..])
  }

  /** Decoding turns a leading `%2B` back into `+`. */
  lemma UnescapeLeadingEscape(t: string)
    ensures UnescapePlus(EscapedPlus + t) == "+" + UnescapePlus(t)
  {
    HasPrefixOfAppend(EscapedPlus, t);
    assert (EscapedPlus + t)[|EscapedPlus|..] == t;
  }

  /** Decoding keeps a leading character other than `%`. */
  lemma UnescapeLeadingChar(c: char, t: string)
    requires c != '%'
    ensures UnescapePlus([c] + t) == [c] + UnescapePlus(t)
  {
    var e := [c] + t;
    assert e[0] == c;
    assert !HasPrefix(e, EscapedPlus);
    assert e[1..] == t;
  }

  /**
   * Decoding reads an escaped text without `%` back as the original and
   * then goes on with what follows it.
   */
  lemma {:induction false} UnescapeEscapedThen(s: string, tail: string)
    requires '%' !in s
    ensures UnescapePlus(EscapePlus(s) + tail) == s + UnescapePlus(tail)
  {
    if s == [] {
      assert EscapePlus(s) + tail == tail;
    } else {
      var rest := EscapePlus(s[1..]);
      var head := if s[0] == '+' then EscapedPlus else [s[0]];
      assert EscapePlus(s) + tail == head + (rest + tail) by {
        assert EscapePlus(s) == head + rest;
      }
      assert UnescapePlus(head + (rest + tail)) == [s[0]] + UnescapePlus(rest + tail) by {
        if s[0] == '+' {
          UnescapeLeadingEscape(rest + tail);
        } else {
          UnescapeLeadingChar(s[0], rest + tail);
        }
      }
      assert UnescapePlus(rest + tail) == s[1..] + UnescapePlus(tail) by {
        assert '%' !in s[1..];
        UnescapeEscapedThen(s[1..], tail);
      }
      calc {
        UnescapePlus(EscapePlus(s) + tail);
        UnescapePlus(head + (rest + tail));
        [s[0]] + UnescapePlus(rest + tail);
        [s[0]] + (s[1..] + UnescapePlus(tail));
        { assert s == [s[0]] + s[1..]; }
        s + UnescapePlus(tail);
      }
    }
  }

  /**
   * Escaping loses nothing: a text without `%` (an RFC 3339 timestamp has
   * none) is recovered from its escaped form.
   */
  lemma EscapePlusRoundTrip(s: string)
    requires '%' !in s
    ensures UnescapePlus(EscapePlus(s)) == s
  {
    UnescapeEscapedThen(s, []);
    assert EscapePlus(s) + [] == EscapePlus(s);
    assert s + [] == s;
  }
}

/** Printing and parsing of the unsigned numbers that travel in headers. */
module Numerals {
  import opened Bytes
  import opened Text

  const U64_LIMIT: nat := 0x1_0000_0000_0000_0000

  predicate IsDigit(c: char) {
    '0' <= c <= '9' || 'a' <= c <= 'f'
  }

  function Digit(d: nat): (c: char)
    requires d < 16
    ensures IsDigit(c) && DigitValue(c) == Some(d)
  {
    (if d < 10 then ('0' as int) + d else ('a' as int) + d - 10) as char
  }

  function DigitValue(c: char): (v: Option<nat>)
    ensures v.Some? ==> v.value < 16
  {
    if '0' <= c <= '9' then Some((c as int) - ('0' as int))
    else if 'a' <= c <= 'f' then Some((c as int) - ('a' as int) + 10)
    else None
  }

  /** One division step, with the base fixed in each branch. */
  function Split(n: nat, base: nat): (r: (nat, nat))
    requires base == 10 || base == 16
    ensures r.1 < base && r.0 * base + r.1 == n
    ensures base <= n ==> r.0 < n
  {
    if base == 10 then (n / 10, n % 10) else (n / 16, n % 16)
  }

  /** `n` written in `base` without leading zeros: `{}` for ten, `{:x}` for sixteen. */
  function Numeral(n: nat, base: nat): (s: string)
    requires base == 10 || base == 16
    ensures |s| > 0 && forall i :: 0 <= i < |s| ==> IsDigit(s[i])
  {
    if n < base then [Digit(n)]
    else
      var (high, low) := Split(n, base);
      Numeral(high, base) + [Digit(low)]
  }

  function ParseNumeral(s: string, base: nat): Option<nat>
    requires base == 10 || base == 16
  {
    if s == [] then None
    else
      var last := DigitValue(s[|s| - 1]);
      if last.None? || last.value >= base then None
      else if |s| == 1 then last
      else
        var front := ParseNumeral(s[..|s| - 1], base);
        if front.None? then None else Some(front.value * base + last.value)
  }

  lemma {:induction false} NumeralRoundTrip(n: nat, base: nat)
    requires base == 10 || base == 16
    ensures ParseNumeral(Numeral(n, base), base) == Some(n)
  {
    if n >= base {
      var s := Numeral(n, base);
      var (high, low) := Split(n, base);
      NumeralRoundTrip(high, base);
      assert s[..|s| - 1] == Numeral(high, base) && s[|s| - 1] == Digit(low);
    }
  }

  lemma NumeralInjective(a: nat, b: nat, base: nat)
    requires base == 10 || base == 16
    requires Numeral(a, base) == Numeral(b, base)
    ensures a == b
  {
    NumeralRoundTrip(a, base);
    NumeralRoundTrip(b, base);
  }

  /** `str::parse::<u64>`: an optional plus sign, at least one digit, no overflow. */
  function ParseU64(s: string): (r: Option<nat>)
    ensures r.Some? ==> r.value < U64_LIMIT
  {
    var digits := if |s| > 1 && s[0] == '+' then s[1..] else s;
    var v := ParseNumeral(digits, 10);
    if v.Some? && v.value < U64_LIMIT then v else None
  }

  lemma ParseU64RoundTrip(n: nat)
    requires n < U64_LIMIT
    ensures ParseU64(Numeral(n, 10)) == Some(n)
  {
    NumeralRoundTrip(n, 10);
    assert IsDigit(Numeral(n, 10)[0]);
  }

  predicate IsBlank(c: char) {
    c == ' ' || c == '\t'
  }

  /** Header text is visible ASCII, blanks and tabs, so these are the only whitespace in it. */
  function Trim(s: string): string {
    if s != [] && IsBlank(s[0]) then Trim(s[1..])
    else if s != [] && IsBlank(s[|s| - 1]) then Trim(s[..|s| - 1])
    else s
  }

  // ---------- Content-Range ----------

  function ContentRangeText(start: nat, last: nat, size: nat): string {
    "bytes " + (Numeral(start, 10) + ['-'] + (Numeral(last, 10) + ['/'] + Numeral(size, 10)))
  }

  /** The offset the sendfile path reads back out of a `Content-Range` header. */
  function RangeStart(value: string): Option<nat> {
    var rest := StripPrefix(value, "bytes ");
    if rest.None? then None else
      var parts := SplitOnce(rest.value, '-');
      if parts.None? then None else ParseU64(Trim(parts.value.0))
  }

  lemma NoDash(n: nat)
    ensures '-' !in Numeral(n, 10)
  {
    var s := Numeral(n, 10);
    forall i | 0 <= i < |s| ensures s[i] != '-' {
      assert IsDigit(s[i]);
    }
  }

  lemma TrimNumeral(n: nat)
    ensures Trim(Numeral(n, 10)) == Numeral(n, 10)
  {
    var s := Numeral(n, 10);
    assert IsDigit(s[0]) && IsDigit(s[|s| - 1]);
  }

  lemma RangeStartReadsBack(start: nat, last: nat, size: nat)
    requires start < U64_LIMIT
    ensures RangeStart(ContentRangeText(start, last, size)) == Some(start)
  {
    var first, after := Numeral(start, 10), Numeral(last, 10) + ['/'] + Numeral(size, 10);
    var text := ContentRangeText(start, last, size);
    assert text[|"bytes "|..] == first + ['-'] + after;
    NoDash(start);
    SplitOnceAt(first, '-', after);
    TrimNumeral(start);
    ParseU64RoundTrip(start);
  }

  /** All three numbers of a `Content-Range`, as a client reads them (RFC 9110, section 14.4). */
  function ReadContentRange(value: string): Option<(nat, nat, nat)> {
    var rest := StripPrefix(value, "bytes ");
    if rest.None? then None else
      var first := SplitOnce(rest.value, '-');
      if first.None? then None else
        var last := SplitOnce(first.value.1, '/');
        if last.None? then None else
          var a, b := ParseNumeral(first.value.0, 10), ParseNumeral(last.value.0, 10);
          var c := ParseNumeral(last.value.1, 10);
          if a.Some? && b.Some? && c.Some? then Some((a.value, b.value, c.value)) else None
  }

  lemma NoSlash(n: nat)
    ensures '/' !in Numeral(n, 10)
  {
    var s := Numeral(n, 10);
    forall i | 0 <= i < |s| ensures s[i] != '/' {
      assert IsDigit(s[i]);
    }
  }

  /** The whole header comes back, not only the offset. */
  lemma ContentRangeReadsBack(start: nat, last: nat, size: nat)
    ensures ReadContentRange(ContentRangeText(start, last, size)) == Some((start, last, size))
  {
    var first, after := Numeral(start, 10), Numeral(last, 10) + ['/'] + Numeral(size, 10);
    var text := ContentRangeText(start, last, size);
    assert text[|"bytes "|..] == first + ['-'] + after;
    NoDash(start);
    NoSlash(last);
    SplitOnceAt(first, '-', after);
    SplitOnceAt(Numeral(last, 10), '/', Numeral(size, 10));
    NumeralRoundTrip(start, 10);
    NumeralRoundTrip(last, 10);
    NumeralRoundTrip(size, 10);
  }
}

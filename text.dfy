/**
 * The pieces of Rust's standard library that the status parser relies on,
 * written out over `string` (a sequence of Unicode scalar values):
 * `str::split` with a one-character pattern, `str::trim`, `str::ends_with`,
 * `u16::to_string`, `i64::from_str` and the syntax accepted by `f64::from_str`.
 */
module Text {
  import opened Wrappers

  const I64Min: int := -0x8000_0000_0000_0000
  const I64Max: int := 0x7fff_ffff_ffff_ffff

  // ---------------------------------------------------------------------------
  // Splitting on one character
  // ---------------------------------------------------------------------------

  /** Position of the first occurrence of `c` in `s`. */
  function IndexOf(s: string, c: char): (i: nat)
    requires c in s
    ensures i < |s| && s[i] == c && c !in s[..i]
  {
    if s[0] == c then 0 else 1 + IndexOf(s[1..], c)
  }

  /** The pieces glued back together with `sep` between neighbours. */
  function Join(parts: seq<string>, sep: char): string
    requires |parts| >= 1
  {
    if |parts| == 1 then parts[0] else parts[0] + [sep] + Join(parts[1..], sep)
  }

  /**
   * `s.split(sep)`: the maximal runs between separators, empty runs included,
   * so that there is always at least one piece and gluing them back gives `s`.
   */
  function Split(s: string, sep: char): (parts: seq<string>)
    ensures |parts| >= 1
    ensures forall i :: 0 <= i < |parts| ==> sep !in parts[i]
    ensures Join(parts, sep) == s
    decreases |s|
  {
    if sep !in s then [s]
    else
      var i := IndexOf(s, sep);
      var rest := Split(s[i + 1..], sep);
      assert ([s[..i]] + rest)[1..] == rest;
      assert s == s[..i] + [sep] + s[i + 1..];
      [s[..i]] + rest
  }

  /** Splitting a text that starts with a separator-free piece and a separator. */
  lemma SplitCons(p: string, sep: char, t: string)
    requires sep !in p
    ensures Split(p + [sep] + t, sep) == [p] + Split(t, sep)
  {
    var s := p + [sep] + t;
    assert s[|p|] == sep;
    assert forall k :: 0 <= k < |p| ==> s[k] == p[k];
    var i := IndexOf(s, sep);
    assert s[..i] == p;
    assert s[i + 1..] == t;
  }

  /** Splitting undoes joining, for pieces that do not contain the separator. */
  lemma {:induction false} SplitJoin(parts: seq<string>, sep: char)
    requires |parts| >= 1
    requires forall i :: 0 <= i < |parts| ==> sep !in parts[i]
    ensures Split(Join(parts, sep), sep) == parts
    decreases |parts|
  {
    if |parts| == 1 {
      assert Join(parts, sep) == parts[0];
      assert parts == [parts[0]];
    } else {
      assert Join(parts, sep) == parts[0] + [sep] + Join(parts[1..], sep);
      SplitCons(parts[0], sep, Join(parts[1..], sep));
      SplitJoin(parts[1..], sep);
      assert parts == [parts[0]] + parts[1..];
    }
  }

  /** `s.split(':').next()`: the text before the first colon, or all of `s`. */
  function HostPart(s: string): (h: string)
    ensures h <= s
    ensures ':' !in h
    ensures |h| < |s| ==> s[|h|] == ':'
  {
    var parts := Split(s, ':');
    assert parts[0] == s || s == parts[0] + [':'] + Join(parts[1..], ':');
    parts[0]
  }

  /** The host part of `host:rest` is `host` whenever `host` has no colon. */
  lemma HostPartOf(host: string, rest: string)
    requires ':' !in host
    ensures HostPart(host + [':'] + rest) == host
  {
    var s := host + [':'] + rest;
    assert s[|host|] == ':';
    assert forall k :: 0 <= k < |host| ==> s[k] == host[k] && s[k] != ':';
  }

  // ---------------------------------------------------------------------------
  // Trimming and suffixes
  // ---------------------------------------------------------------------------

  /** Rust's `char::is_whitespace`: the Unicode White_Space property. */
  predicate IsWhitespace(c: char) {
    var n := c as int;
    (0x09 <= n <= 0x0d) || n == 0x20 || n == 0x85 || n == 0xa0 || n == 0x1680
    || (0x2000 <= n <= 0x200a) || n == 0x2028 || n == 0x2029 || n == 0x202f
    || n == 0x205f || n == 0x3000
  }

  /** `s.trim_end()`. */
  function TrimEnd(s: string): string {
    if |s| > 0 && IsWhitespace(s[|s| - 1]) then TrimEnd(s[..|s| - 1]) else s
  }

  /** `s.trim_start()`. */
  function TrimStart(s: string): string {
    if |s| > 0 && IsWhitespace(s[0]) then TrimStart(s[1..]) else s
  }

  /** `s.trim()`. */
  function Trim(s: string): string {
    TrimStart(TrimEnd(s))
  }

  /** `trim_end` removes exactly the trailing run of whitespace. */
  lemma {:induction false} TrimEndRemovesTrailingWhitespace(s: string)
    ensures var r := TrimEnd(s);
      && r <= s
      && (|r| > 0 ==> !IsWhitespace(r[|r| - 1]))
      && forall i :: |r| <= i < |s| ==> IsWhitespace(s[i])
  {
    if |s| > 0 && IsWhitespace(s[|s| - 1]) {
      TrimEndRemovesTrailingWhitespace(s[..|s| - 1]);
    }
  }

  /** `trim_start` removes exactly the leading run of whitespace. */
  lemma {:induction false} TrimStartRemovesLeadingWhitespace(s: string)
    ensures var r := TrimStart(s);
      && |r| <= |s| && r == s[|s| - |r|..]
      && (|r| > 0 ==> !IsWhitespace(r[0]))
      && forall i :: 0 <= i < |s| - |r| ==> IsWhitespace(s[i])
  {
    if |s| > 0 && IsWhitespace(s[0]) {
      TrimStartRemovesLeadingWhitespace(s[1..]);
    }
  }

  /** `s.ends_with(suffix)`. */
  predicate EndsWith(s: string, suffix: string) {
    |suffix| <= |s| && s[|s| - |suffix|..] == suffix
  }

  // ---------------------------------------------------------------------------
  // Decimal integers
  // ---------------------------------------------------------------------------

  predicate IsDigit(c: char) {
    '0' <= c <= '9'
  }

  predicate AllDigits(s: string) {
    forall i :: 0 <= i < |s| ==> IsDigit(s[i])
  }

  /** The value of a run of decimal digits, most significant first. */
  function DigitsValue(s: string): (v: nat)
    requires AllDigits(s)
  {
    if s == [] then 0
    else DigitsValue(s[..|s| - 1]) * 10 + (s[|s| - 1] as int - '0' as int)
  }

  /** `n.to_string()` for an unsigned integer: its decimal digits, no leading zero. */
  function DecimalString(n: nat): (s: string)
    ensures |s| >= 1 && AllDigits(s)
    ensures |s| > 1 ==> s[0] != '0'
  {
    if n < 10 then ['0' + n as char]
    else DecimalString(n / 10) + ['0' + (n % 10) as char]
  }

  /** Reading back the digits of `DecimalString(n)` gives `n`. */
  lemma {:induction false} DecimalStringValue(n: nat)
    ensures DigitsValue(DecimalString(n)) == n
  {
    if n >= 10 {
      var s := DecimalString(n);
      assert s[..|s| - 1] == DecimalString(n / 10);
      DecimalStringValue(n / 10);
    }
  }

  /** An `i64` rendered as Rust's `to_string` does: a minus sign for negatives. */
  function IntString(v: int): (s: string)
    ensures |s| >= 1 && forall i :: 0 <= i < |s| ==> IsDigit(s[i]) || s[i] == '-'
  {
    if v < 0 then "-" + DecimalString(-v) else DecimalString(v)
  }

  /**
   * `s.parse::<i64>()`: an optional `+` or `-`, then one or more ASCII digits,
   * and a value inside the `i64` range; anything else is an error.
   */
  function ParseI64(s: string): (r: Option<int>)
    ensures r.Some? ==> I64Min <= r.value <= I64Max
    ensures r.Some? ==> |s| >= 1 && AllDigits(if s[0] == '+' || s[0] == '-' then s[1..] else s)
  {
    if |s| == 0 then None
    else
      var negative := s[0] == '-';
      var digits := if s[0] == '+' || s[0] == '-' then s[1..] else s;
      if |digits| == 0 || !AllDigits(digits) then None
      else
        var v: int := if negative then 0 - DigitsValue(digits) else DigitsValue(digits);
        if I64Min <= v <= I64Max then Some(v) else None
  }

  /** Rendering an `i64` and parsing it back gives the same value. */
  lemma IntStringRoundTrip(v: int)
    requires I64Min <= v <= I64Max
    ensures ParseI64(IntString(v)) == Some(v)
  {
    var s := IntString(v);
    if v < 0 {
      assert s[1..] == DecimalString(-v);
      DecimalStringValue(-v);
    } else {
      assert IsDigit(s[0]);
      DecimalStringValue(v);
    }
  }

  // ---------------------------------------------------------------------------
  // The syntax of `f64::from_str`
  // ---------------------------------------------------------------------------

  /** ASCII lower-casing; the float grammar is matched case-insensitively. */
  function LowerAscii(s: string): (r: string)
    ensures |r| == |s|
  {
    seq(|s|, i requires 0 <= i < |s| => if 'A' <= s[i] <= 'Z' then (s[i] as int + 32) as char else s[i])
  }

  /** `Digit+ | Digit+ '.' Digit* | Digit* '.' Digit+`. */
  predicate IsMantissa(m: string) {
    if '.' in m then
      var i := IndexOf(m, '.');
      AllDigits(m[..i]) && AllDigits(m[i + 1..]) && |m| >= 2
    else |m| >= 1 && AllDigits(m)
  }

  /** `Sign? Digit+`, the part after the exponent marker. */
  predicate IsExponent(x: string) {
    var d := if |x| > 0 && (x[0] == '+' || x[0] == '-') then x[1..] else x;
    |d| >= 1 && AllDigits(d)
  }

  /** `Mantissa ('e' Exponent)?` over lower-cased text. */
  predicate IsNumber(s: string) {
    if 'e' in s then
      var i := IndexOf(s, 'e');
      IsMantissa(s[..i]) && IsExponent(s[i + 1..])
    else IsMantissa(s)
  }

  /**
   * The texts for which `s.parse::<f64>()` succeeds: an optional sign, then
   * `inf`, `infinity`, `nan` or a decimal number with an optional exponent,
   * compared case-insensitively; surrounding whitespace is an error.
   */
  predicate IsFloatText(s: string) {
    var body := if |s| > 0 && (s[0] == '+' || s[0] == '-') then s[1..] else s;
    var lower := LowerAscii(body);
    lower == "inf" || lower == "infinity" || lower == "nan" || IsNumber(lower)
  }
}

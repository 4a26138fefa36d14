/**
 * String helpers the source takes from its host: `Array.prototype.join`,
 * the decimal rendering of a non-negative integer, and string quoting as
 * done by `JSON.stringify` (section 7 of RFC 8259).
 */
module Strings {
  import opened Wrappers

  /** `parts.join(sep)`. */
  function Join(parts: seq<string>, sep: string): (r: string)
    ensures |parts| == 0 ==> r == ""
    ensures |parts| == 1 ==> r == parts[0]
  {
    if |parts| == 0 then ""
    else if |parts| == 1 then parts[0]
    else parts[0] + sep + Join(parts[1..], sep)
  }

  lemma {:induction false} JoinAppend(parts: seq<string>, last: string, sep: string)
    requires |parts| > 0
    ensures Join(parts + [last], sep) == Join(parts, sep) + sep + last
  {
    if |parts| == 1 {
      assert parts + [last] == [parts[0], last];
    } else {
      assert (parts + [last])[1..] == parts[1..] + [last];
      JoinAppend(parts[1..], last, sep);
    }
  }

  // ---------------------------------------------------------------------
  // Decimal numbers

  predicate IsDigit(c: char) {
    '0' <= c <= '9'
  }

  function DigitChar(d: nat): (c: char)
    requires d < 10
    ensures IsDigit(c)
  {
    "0123456789"[d]
  }

  function DigitValue(c: char): (d: nat)
    requires IsDigit(c)
    ensures d < 10
  {
    (c as int - '0' as int) as nat
  }

  /** The decimal rendering `String(n)` of a non-negative integer. */
  function NatToString(n: nat): (r: string)
    ensures |r| > 0
    ensures forall k :: 0 <= k < |r| ==> IsDigit(r[k])
    ensures |r| > 1 ==> r[0] != '0'
  {
    if n < 10 then [DigitChar(n)] else NatToString(n / 10) + [DigitChar(n % 10)]
  }

  /** Reads a non-empty run of decimal digits back into a number. */
  function DigitsValue(s: string): nat
    requires forall k :: 0 <= k < |s| ==> IsDigit(s[k])
  {
    if |s| == 0 then 0 else DigitsValue(s[..|s| - 1]) * 10 + DigitValue(s[|s| - 1])
  }

  lemma {:induction false} NatToStringRoundTrip(n: nat)
    ensures DigitsValue(NatToString(n)) == n
  {
    var r := NatToString(n);
    if n < 10 {
      assert r[..0] == [];
      assert DigitValue(DigitChar(n)) == n;
    } else {
      NatToStringRoundTrip(n / 10);
      assert r[..|r| - 1] == NatToString(n / 10);
      assert DigitValue(DigitChar(n % 10)) == n % 10;
    }
  }

  /** Distinct numbers render differently. */
  lemma NatToStringInjective(m: nat, n: nat)
    requires NatToString(m) == NatToString(n)
    ensures m == n
  {
    NatToStringRoundTrip(m);
    NatToStringRoundTrip(n);
  }

  // ---------------------------------------------------------------------
  // JSON string quoting

  function HexDigit(d: nat): (c: char)
    requires d < 16
  {
    "0123456789abcdef"[d]
  }

  function HexValue(c: char): Option<nat> {
    if '0' <= c <= '9' then Some(c as int - '0' as int)
    else if 'a' <= c <= 'f' then Some(c as int - 'a' as int + 10)
    else None
  }

  const Backspace: char := 8 as char
  const FormFeed: char := 12 as char

  /** The escape `JSON.stringify` writes for one character of a string. */
  function JsonEscapeChar(c: char): (r: string)
    ensures |r| >= 1
    ensures |r| == 1 <==> (c != '"' && c != '\\' && c as int >= 0x20)
    ensures |r| > 1 ==> r[0] == '\\'
  {
    if c == '"' then "\\\""
    else if c == '\\' then "\\\\"
    else if c == Backspace then "\\b"
    else if c == FormFeed then "\\f"
    else if c == '\n' then "\\n"
    else if c == '\r' then "\\r"
    else if c == '\t' then "\\t"
    else if c as int < 0x20 then ['\\', 'u', '0', '0', HexDigit(c as int / 16), HexDigit(c as int % 16)]
    else [c]
  }

  function JsonEscape(s: string): string {
    if |s| == 0 then "" else JsonEscapeChar(s[0]) + JsonEscape(s[1..])
  }

  /** A string with no quote, backslash or control character is its own escape. */
  lemma {:induction false} JsonEscapePlain(s: string)
    requires forall i :: 0 <= i < |s| ==> s[i] != '"' && s[i] != '\\' && s[i] as int >= 0x20
    ensures JsonEscape(s) == s
    decreases |s|
  {
    if |s| > 0 {
      JsonEscapePlain(s[1..]);
      assert JsonEscapeChar(s[0]) == [s[0]];
    }
  }

  /** `JSON.stringify(s)` for a string `s`: the quoted, escaped literal. */
  function JsonQuote(s: string): (r: string)
    ensures |r| >= 2 && r[0] == '"' && r[|r| - 1] == '"'
  {
    "\"" + JsonEscape(s) + "\""
  }

  /** Reads back the body of a JSON string literal: the reference decoder. */
  function JsonUnescape(t: string): Option<string>
    decreases |t|
  {
    if |t| == 0 then Some("")
    else if t[0] == '"' then None
    else if t[0] != '\\' then
      match JsonUnescape(t[1..])
      case None => None
      case Some(rest) => Some([t[0]] + rest)
    else if |t| < 2 then None
    else
      var e := t[1];
      if e == 'u' then
        if |t| < 6 then None
        else
          match (HexValue(t[2]), HexValue(t[3]), HexValue(t[4]), HexValue(t[5]))
          case (Some(a), Some(b), Some(c), Some(d)) =>
            var code := ((a * 16 + b) * 16 + c) * 16 + d;
            if code < 0x20 then
              match JsonUnescape(t[6..])
              case None => None
              case Some(rest) => Some([code as char] + rest)
            else None
          case _ => None
      else
        var c :=
          if e == '"' then Some('"') else if e == '\\' then Some('\\')
          else if e == 'b' then Some(Backspace) else if e == 'f' then Some(FormFeed)
          else if e == 'n' then Some('\n') else if e == 'r' then Some('\r')
          else if e == 't' then Some('\t') else None;
        match c
        case None => None
        case Some(ch) =>
          match JsonUnescape(t[2..])
          case None => None
          case Some(rest) => Some([ch] + rest)
  }

  function JsonUnquote(t: string): Option<string> {
    if |t| >= 2 && t[0] == '"' && t[|t| - 1] == '"' then JsonUnescape(t[1..|t| - 1]) else None
  }

  lemma HexRoundTrip(d: nat)
    requires d < 16
    ensures HexValue(HexDigit(d)) == Some(d)
  {
  }

  lemma {:induction false} JsonEscapeCharRoundTrip(c: char, rest: string, tail: string)
    requires JsonUnescape(rest) == Some(tail)
    ensures JsonUnescape(JsonEscapeChar(c) + rest) == Some([c] + tail)
  {
    var t := JsonEscapeChar(c) + rest;
    if c as int < 0x20 && c != Backspace && c != FormFeed && c != '\n' && c != '\r' && c != '\t' {
      var n := c as int;
      HexRoundTrip(n / 16);
      HexRoundTrip(n % 16);
      HexRoundTrip(0);
      assert t[0] == '\\' && t[1] == 'u';
      assert t[2..6] == ['0', '0', HexDigit(n / 16), HexDigit(n % 16)];
      assert t[6..] == rest;
      assert ((0 * 16 + 0) * 16 + n / 16) * 16 + n % 16 == n;
    } else if |JsonEscapeChar(c)| == 2 {
      assert t[2..] == rest;
    } else {
      assert t[1..] == rest;
    }
  }

  lemma {:induction false} JsonEscapeRoundTrip(s: string)
    ensures JsonUnescape(JsonEscape(s)) == Some(s)
  {
    if |s| > 0 {
      JsonEscapeRoundTrip(s[1..]);
      JsonEscapeCharRoundTrip(s[0], JsonEscape(s[1..]), s[1..]);
      assert [s[0]] + s[1..] == s;
    }
  }

  /** Quoting is undone by the reference decoder, so distinct strings quote differently. */
  lemma JsonQuoteRoundTrip(s: string)
    ensures JsonUnquote(JsonQuote(s)) == Some(s)
  {
    var r := JsonQuote(s);
    assert r[1..|r| - 1] == JsonEscape(s);
    JsonEscapeRoundTrip(s);
  }
}

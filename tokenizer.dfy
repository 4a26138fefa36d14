/**
 * The pattern tokenizer: one left-to-right scan over a route pattern that
 * reports variables, alternation brackets and separators, wildcards, raw
 * regular expressions, quoted and unquoted text and path separators, and
 * returns how many characters it consumed.
 *
 * The reference semantics is the pure scanner `ScanFrom`; the class
 * `Tokenizer` runs the same scan imperatively, with the two module-level
 * variables of the source (`lastText`, `lastGroupCount`) as its fields.
 */
module Tokenizer {
  import opened Wrappers

  /** An event reported to the tokenize handler, with its token span. */
  datatype Token =
    | Variable(name: string, start: nat, end: nat)
    | AltStart(start: nat, end: nat)
    | AltEnd(start: nat, end: nat)
    | AltSeparator(start: nat, end: nat)
    | Wildcard(greedy: bool, start: nat, end: nat)
    | RegExp(pattern: string, groupCount: nat, start: nat, end: nat)
    | Text(value: string, start: nat, end: nat)
    | PathSeparator(start: nat, end: nat)

  /** Result codes of the takers. */
  const NoMatch: int := -1
  const ErrorCode: int := -2

  // ---------------------------------------------------------------------
  // Character classes

  predicate IsSpaceChar(c: char) {
    c == ' ' || c == '\t' || c == '\r' || c == '\n'
  }

  predicate IsVariableNameStartChar(c: char) {
    ('a' <= c <= 'z') || ('A' <= c <= 'Z') || c == '$' || c == '_'
  }

  predicate IsVariableNameChar(c: char) {
    IsVariableNameStartChar(c) || ('0' <= c <= '9')
  }

  predicate IsQuote(c: char) {
    c == '"' || c == '\''
  }

  /** A character that starts no token and is not white space: unquoted text. */
  predicate IsPlainChar(c: char) {
    !IsSpaceChar(c) && c !in ":{},*/(\"'"
  }

  // ---------------------------------------------------------------------
  // Takers built from the combinators `all`, `char` and `seq`

  /** `all(char(isSpaceChar))`: the end of the run of white space at `i`. */
  function SpaceEnd(str: string, i: nat): (j: nat)
    requires i <= |str|
    ensures i <= j <= |str|
    ensures forall k :: i <= k < j ==> IsSpaceChar(str[k])
    ensures j == |str| || !IsSpaceChar(str[j])
    decreases |str| - i
  {
    if i < |str| && IsSpaceChar(str[i]) then SpaceEnd(str, i + 1) else i
  }

  /** `all(char(isVariableNameChar))`. */
  function NameCharsEnd(str: string, i: nat): (j: nat)
    requires i <= |str|
    ensures i <= j <= |str|
    ensures forall k :: i <= k < j ==> IsVariableNameChar(str[k])
    ensures j == |str| || !IsVariableNameChar(str[j])
    decreases |str| - i
  {
    if i < |str| && IsVariableNameChar(str[i]) then NameCharsEnd(str, i + 1) else i
  }

  /** `seq(char(isVariableNameStartChar), all(char(isVariableNameChar)))`. */
  function VariableNameEnd(str: string, i: nat): (r: Option<nat>)
    requires i <= |str|
    ensures r.None? <==> (i == |str| || !IsVariableNameStartChar(str[i]))
  {
    if i < |str| && IsVariableNameStartChar(str[i]) then Some(NameCharsEnd(str, i + 1)) else None
  }

  // ---------------------------------------------------------------------
  // Reference definitions of the two looping takers

  /**
   * Quoted text from index `i` (just after the opening quote `q`): a
   * backslash is dropped and the character after it is kept whatever it is;
   * the first other `q` closes the text. Gives the text read and the offset
   * just past the closing quote, or None when the quote is never closed.
   */
  function QuotedScan(str: string, q: char, i: nat, acc: string): (r: Option<(string, nat)>)
    requires i <= |str|
    ensures r.Some? ==> i < r.value.1 <= |str| && str[r.value.1 - 1] == q
    decreases |str| - i
  {
    if i == |str| then None
    else if str[i] == q then Some((acc, i + 1))
    else if str[i] == '\\' then
      if i + 1 < |str| then QuotedScan(str, q, i + 2, acc + [str[i + 1]]) else None
    else QuotedScan(str, q, i + 1, acc + [str[i]])
  }

  /**
   * A raw regular expression from index `i` (inside the opening paren),
   * at nesting `depth` with `count` groups opened so far. A backslash skips
   * the next character. Gives the offset just past the closing paren and the
   * group count, or None when the parens are never closed.
   */
  function RegExpScan(str: string, i: nat, depth: nat, count: nat): (r: Option<(nat, nat)>)
    requires i <= |str|
    ensures r.Some? ==> i < r.value.0 <= |str| && str[r.value.0 - 1] == ')' && r.value.1 >= count
    decreases |str| - i
  {
    if i == |str| then None
    else if str[i] == '(' then RegExpScan(str, i + 1, depth + 1, count + 1)
    else if str[i] == ')' then
      if depth == 0 then Some((i + 1, count)) else RegExpScan(str, i + 1, depth - 1, count)
    else if str[i] == '\\' then
      if i + 1 < |str| then RegExpScan(str, i + 2, depth, count) else None
    else RegExpScan(str, i + 1, depth, count)
  }

  /** The number of `(` in `s` that are not escaped by a backslash. */
  function CountOpen(s: string): nat {
    if |s| == 0 then 0
    else if s[0] == '\\' then (if |s| >= 2 then CountOpen(s[2..]) else 0)
    else (if s[0] == '(' then 1 else 0) + CountOpen(s[1..])
  }

  /** Drops each backslash and keeps the character after it. */
  function Unescape(s: string): string {
    if |s| == 0 then ""
    else if s[0] == '\\' then (if |s| >= 2 then [s[1]] + Unescape(s[2..]) else "")
    else [s[0]] + Unescape(s[1..])
  }

  // ---------------------------------------------------------------------
  // The scanner

  /** What the token takers find at a non-space offset. */
  datatype Step = Found(token: Token, next: nat) | Malformed | Plain

  /** Tries the takers in the source's order at offset `i`. */
  function NextToken(str: string, i: nat): (s: Step)
    requires i < |str|
    ensures s.Found? ==> i < s.next <= |str| && s.token.start == i && s.token.end == s.next
  {
    var c := str[i];
    if c == ':' then
      match VariableNameEnd(str, i + 1)
      case None => Malformed
      case Some(j) => Found(Variable(str[i + 1..j], i, j), j)
    else if c == '{' then Found(AltStart(i, i + 1), i + 1)
    else if c == '}' then Found(AltEnd(i, i + 1), i + 1)
    else if c == ',' then Found(AltSeparator(i, i + 1), i + 1)
    else if c == '*' && i + 1 < |str| && str[i + 1] == '*' then Found(Wildcard(true, i, i + 2), i + 2)
    else if c == '*' then Found(Wildcard(false, i, i + 1), i + 1)
    else if c == '/' then Found(PathSeparator(i, i + 1), i + 1)
    else if IsQuote(c) then
      match QuotedScan(str, c, i + 1, "")
      case None => Malformed
      case Some((v, j)) => Found(Text(v, i, j), j)
    else if c == '(' then
      match RegExpScan(str, i + 1, 0, 0)
      case None => Malformed
      case Some((j, n)) => Found(RegExp(str[i + 1..j - 1], n, i, j), j)
    else Plain
  }

  /** The text event for a pending unquoted run `[textStart, i)`, if any. */
  function Flush(str: string, textStart: Option<nat>, i: int): seq<Token>
    requires textStart.Some? ==> textStart.value < i <= |str|
  {
    if textStart.Some? then [Text(str[textStart.value..i], textStart.value, i)] else []
  }

  /**
   * The events reported from offset `i` on, with an unquoted run pending
   * from `textStart`, and the offset where the scan stops.
   */
  function ScanFrom(str: string, i: nat, textStart: Option<nat>): (r: (seq<Token>, nat))
    requires i <= |str|
    requires textStart.Some? ==> textStart.value < i
    ensures i <= r.1 <= |str|
    decreases |str| - i
  {
    if i == |str| then (Flush(str, textStart, i), i)
    else if IsSpaceChar(str[i]) then
      var rest := ScanFrom(str, SpaceEnd(str, i), None);
      (Flush(str, textStart, i) + rest.0, rest.1)
    else
      match NextToken(str, i)
      case Malformed => ([], i)
      case Found(tok, j) =>
        var rest := ScanFrom(str, j, None);
        (Flush(str, textStart, i) + [tok] + rest.0, rest.1)
      case Plain => ScanFrom(str, i + 1, if textStart.None? then Some(i) else textStart)
  }

  /** `tokenizePattern(str, handler)`: the events in order and the return value. */
  function Tokenize(str: string): (seq<Token>, nat) {
    ScanFrom(str, 0, None)
  }

  // ---------------------------------------------------------------------
  // Properties of the scan

  /** What an event says about the characters of its span. */
  predicate WellFormedToken(str: string, t: Token) {
    t.start < t.end <= |str| &&
    match t
    case Variable(name, s, e) =>
      str[s] == ':' && name == str[s + 1..e] && |name| > 0 && IsVariableNameStartChar(name[0]) &&
      (forall k :: 0 <= k < |name| ==> IsVariableNameChar(name[k])) &&
      (e == |str| || !IsVariableNameChar(str[e]))
    case AltStart(s, e) => e == s + 1 && str[s] == '{'
    case AltEnd(s, e) => e == s + 1 && str[s] == '}'
    case AltSeparator(s, e) => e == s + 1 && str[s] == ','
    case Wildcard(greedy, s, e) =>
      str[s] == '*' &&
      if greedy then e == s + 2 && str[s + 1] == '*' else e == s + 1 && (e == |str| || str[e] != '*')
    case RegExp(pattern, groupCount, s, e) =>
      s + 2 <= e && str[s] == '(' && str[e - 1] == ')' &&
      pattern == str[s + 1..e - 1] && groupCount == CountOpen(pattern)
    case Text(value, s, e) =>
      if IsQuote(str[s]) then
        s + 2 <= e && str[e - 1] == str[s] && value == Unescape(str[s + 1..e - 1])
      else
        value == str[s..e] && (forall k :: s <= k < e ==> IsPlainChar(str[k])) &&
        (e == |str| || !IsPlainChar(str[e]))
    case PathSeparator(s, e) => e == s + 1 && str[s] == '/'
  }

  /** Events in order, with non-overlapping spans inside `[lo, hi]`. */
  predicate Chained(ev: seq<Token>, lo: nat, hi: nat) {
    if |ev| == 0 then lo <= hi
    else lo <= ev[0].start < ev[0].end && Chained(ev[1..], ev[0].end, hi)
  }

  lemma {:induction false} ChainedSpans(ev: seq<Token>, lo: nat, hi: nat)
    requires Chained(ev, lo, hi)
    ensures forall k :: 0 <= k < |ev| ==> lo <= ev[k].start < ev[k].end <= hi
    ensures forall k :: 0 <= k < |ev| - 1 ==> ev[k].end <= ev[k + 1].start
  {
    if |ev| > 0 {
      ChainedSpans(ev[1..], ev[0].end, hi);
      assert forall k :: 1 <= k < |ev| ==> ev[k] == ev[1..][k - 1];
    }
  }

  /** The text read from a quoted literal is its body with each escaping backslash dropped. */
  lemma {:induction false} QuotedScanUnescapes(str: string, q: char, i: nat, acc: string)
    requires i <= |str|
    requires QuotedScan(str, q, i, acc).Some?
    ensures QuotedScan(str, q, i, acc).value.0 == acc + Unescape(str[i..QuotedScan(str, q, i, acc).value.1 - 1])
    decreases |str| - i
  {
    var e := QuotedScan(str, q, i, acc).value.1;
    if str[i] == q {
      assert str[i..e - 1] == [];
    } else if str[i] == '\\' {
      QuotedScanUnescapes(str, q, i + 2, acc + [str[i + 1]]);
      assert str[i..e - 1][2..] == str[i + 2..e - 1];
    } else {
      QuotedScanUnescapes(str, q, i + 1, acc + [str[i]]);
      assert str[i..e - 1][1..] == str[i + 1..e - 1];
    }
  }

  /** A raw regular expression's group count is the number of unescaped `(` in its body. */
  lemma {:induction false} RegExpScanCounts(str: string, i: nat, depth: nat, count: nat)
    requires i <= |str|
    requires RegExpScan(str, i, depth, count).Some?
    ensures RegExpScan(str, i, depth, count).value.1 ==
      count + CountOpen(str[i..RegExpScan(str, i, depth, count).value.0 - 1])
    decreases |str| - i
  {
    var r := RegExpScan(str, i, depth, count).value;
    if str[i] == ')' && depth == 0 {
      assert str[i..r.0 - 1] == [];
    } else {
      var i', depth', count' :=
        if str[i] == '(' then i + 1 else if str[i] == '\\' then i + 2 else i + 1,
        if str[i] == '(' then depth + 1 else if str[i] == ')' then depth - 1 else depth,
        if str[i] == '(' then count + 1 else count;
      assert RegExpScan(str, i, depth, count) == RegExpScan(str, i', depth', count');
      RegExpScanCounts(str, i', depth', count');
      CountOpenSlice(str, i, r.0 - 1);
    }
  }

  /** One step of `CountOpen` on a slice of `str`. */
  lemma CountOpenSlice(str: string, i: nat, e: nat)
    requires i < e <= |str|
    ensures CountOpen(str[i..e]) ==
      if str[i] == '\\' then (if e - i >= 2 then CountOpen(str[i + 2..e]) else 0)
      else (if str[i] == '(' then 1 else 0) + CountOpen(str[i + 1..e])
  {
    var s := str[i..e];
    assert s[0] == str[i];
    assert s[1..] == str[i + 1..e];
    if e - i >= 2 {
      assert s[2..] == str[i + 2..e];
    }
  }

  lemma VariableWellFormed(str: string, i: nat)
    requires i < |str| && str[i] == ':' && NextToken(str, i).Found?
    ensures WellFormedToken(str, NextToken(str, i).token)
  {
    var j := VariableNameEnd(str, i + 1).value;
    var name := str[i + 1..j];
    forall k | 0 <= k < |name| ensures IsVariableNameChar(name[k]) {
      assert name[k] == str[i + 1 + k];
    }
  }

  lemma QuotedWellFormed(str: string, i: nat)
    requires i < |str| && IsQuote(str[i]) && NextToken(str, i).Found?
    ensures WellFormedToken(str, NextToken(str, i).token)
  {
    QuotedScanUnescapes(str, str[i], i + 1, "");
  }

  lemma RegExpWellFormed(str: string, i: nat)
    requires i < |str| && str[i] == '(' && NextToken(str, i).Found?
    ensures WellFormedToken(str, NextToken(str, i).token)
  {
    RegExpScanCounts(str, i + 1, 0, 0);
  }

  /** Every token the takers find is well formed, and starts at a character that is not plain text. */
  lemma NextTokenWellFormed(str: string, i: nat)
    requires i < |str|
    ensures NextToken(str, i).Found? ==> WellFormedToken(str, NextToken(str, i).token) && !IsPlainChar(str[i])
    ensures NextToken(str, i).Plain? <==> IsPlainChar(str[i]) || IsSpaceChar(str[i])
  {
    var c := str[i];
    if NextToken(str, i).Found? {
      if c == ':' {
        VariableWellFormed(str, i);
      } else if IsQuote(c) {
        QuotedWellFormed(str, i);
      } else if c == '(' {
        RegExpWellFormed(str, i);
      }
    }
  }

  lemma {:induction false} ChainedWeaken(ev: seq<Token>, lo: nat, lo': nat, hi: nat)
    requires Chained(ev, lo, hi) && lo' <= lo
    ensures Chained(ev, lo', hi)
  {
  }

  /**
   * The scan from `i` with a plain-text run pending from `textStart`: every
   * event is well formed, the events are ordered with non-overlapping spans
   * up to the stop offset, and a stop short of the end is a malformed token.
   */
  lemma {:induction false} ScanFromFacts(str: string, i: nat, textStart: Option<nat>)
    requires i <= |str|
    requires textStart.Some? ==> textStart.value < i
    requires textStart.Some? ==> forall k :: textStart.value <= k < i ==> IsPlainChar(str[k])
    ensures var r := ScanFrom(str, i, textStart);
      (forall t :: t in r.0 ==> WellFormedToken(str, t)) &&
      Chained(r.0, textStart.GetOr(i), r.1) &&
      (r.1 < |str| ==> !IsSpaceChar(str[r.1]) && NextToken(str, r.1).Malformed?)
    decreases |str| - i, 1
  {
    if i == |str| {
    } else if IsSpaceChar(str[i]) {
      ScanSpaceFacts(str, i, textStart);
    } else {
      NextTokenWellFormed(str, i);
      ScanToken(str, i, textStart);
      match NextToken(str, i)
      case Malformed =>
      case Found(tok, j) =>
        ScanFoundFacts(str, i, textStart);
      case Plain =>
        ScanFromFacts(str, i + 1, if textStart.None? then Some(i) else textStart);
    }
  }

  /** `ScanFromFacts` when white space ends the pending run. */
  lemma {:induction false} ScanSpaceFacts(str: string, i: nat, textStart: Option<nat>)
    requires i < |str| && IsSpaceChar(str[i])
    requires textStart.Some? ==> textStart.value < i
    requires textStart.Some? ==> forall k :: textStart.value <= k < i ==> IsPlainChar(str[k])
    ensures var r := ScanFrom(str, i, textStart);
      (forall t :: t in r.0 ==> WellFormedToken(str, t)) &&
      Chained(r.0, textStart.GetOr(i), r.1) &&
      (r.1 < |str| ==> !IsSpaceChar(str[r.1]) && NextToken(str, r.1).Malformed?)
    decreases |str| - i, 0
  {
    var lo := textStart.GetOr(i);
    var j := SpaceEnd(str, i);
    ScanFromFacts(str, j, None);
    var rest := ScanFrom(str, j, None);
    ChainedWeaken(rest.0, j, i, rest.1);
    ScanSpace(str, i, textStart);
    if textStart.Some? {
      var ev := Flush(str, textStart, i) + rest.0;
      assert ev[1..] == rest.0;
      assert Chained(ev, lo, rest.1);
    } else {
      assert Flush(str, textStart, i) + rest.0 == rest.0;
    }
  }

  /** `ScanFromFacts` when a token is taken at `i`. */
  lemma {:induction false} ScanFoundFacts(str: string, i: nat, textStart: Option<nat>)
    requires i < |str| && !IsSpaceChar(str[i]) && NextToken(str, i).Found?
    requires textStart.Some? ==> textStart.value < i
    requires textStart.Some? ==> forall k :: textStart.value <= k < i ==> IsPlainChar(str[k])
    ensures var r := ScanFrom(str, i, textStart);
      (forall t :: t in r.0 ==> WellFormedToken(str, t)) &&
      Chained(r.0, textStart.GetOr(i), r.1) &&
      (r.1 < |str| ==> !IsSpaceChar(str[r.1]) && NextToken(str, r.1).Malformed?)
    decreases |str| - i, 0
  {
    NextTokenWellFormed(str, i);
    ScanToken(str, i, textStart);
    var tok, j := NextToken(str, i).token, NextToken(str, i).next;
    ScanFromFacts(str, j, None);
    var rest := ScanFrom(str, j, None);
    var ev := Flush(str, textStart, i) + [tok] + rest.0;
    if textStart.Some? {
      assert ev[1..][1..] == rest.0;
      assert ev[1..][0] == tok;
    } else {
      assert ev[1..] == rest.0;
    }
  }

  /**
   * `tokenizePattern` returns at most `str.length`; a shorter result is the
   * offset of a malformed token, the events are well formed, and they come
   * in source order with non-overlapping spans inside `[0, stop]`.
   */
  lemma TokenizeFacts(str: string)
    ensures var (ev, stop) := Tokenize(str);
      stop <= |str| &&
      (stop < |str| ==> NextToken(str, stop).Malformed?) &&
      (forall k :: 0 <= k < |ev| ==> WellFormedToken(str, ev[k])) &&
      (forall k :: 0 <= k < |ev| ==> ev[k].start < ev[k].end <= stop) &&
      (forall k :: 0 <= k < |ev| - 1 ==> ev[k].end <= ev[k + 1].start)
  {
    ScanFromFacts(str, 0, None);
    var r := Tokenize(str);
    ChainedSpans(r.0, 0, r.1);
    assert forall k :: 0 <= k < |r.0| ==> r.0[k] in r.0;
  }

  /** A malformed token stops the scan at its first character, dropping any pending text. */
  lemma ScanStopsAtMalformed(str: string, i: nat, textStart: Option<nat>)
    requires i < |str|
    requires textStart.Some? ==> textStart.value < i
    requires
      (str[i] == ':' && (i + 1 == |str| || !IsVariableNameStartChar(str[i + 1]))) ||
      (IsQuote(str[i]) && QuotedScan(str, str[i], i + 1, "").None?) ||
      (str[i] == '(' && RegExpScan(str, i + 1, 0, 0).None?)
    ensures ScanFrom(str, i, textStart) == ([], i)
  {
  }

  /** A character that starts no token is never reported on its own: it joins a text run. */
  lemma ScanPlainJoinsRun(str: string, i: nat, textStart: Option<nat>)
    requires i < |str| && IsPlainChar(str[i])
    requires textStart.Some? ==> textStart.value < i
    ensures ScanFrom(str, i, textStart) == ScanFrom(str, i + 1, Some(textStart.GetOr(i)))
  {
    NextTokenWellFormed(str, i);
  }

  /** White space ends a pending text run and is itself never reported. */
  lemma ScanSpaceEndsRun(str: string, i: nat, t: nat)
    requires i < |str| && IsSpaceChar(str[i]) && t < i
    ensures ScanFrom(str, i, Some(t)).0 ==
      [Text(str[t..i], t, i)] + ScanFrom(str, SpaceEnd(str, i), None).0
  {
  }

  // ---------------------------------------------------------------------
  // The imperative tokenizer

  /** The pending run of the source's `textStart`, where -1 means none. */
  function Pending(textStart: int): Option<nat> {
    if textStart < 0 then None else Some(textStart as nat)
  }

  /** What the main loop has reported so far, plus what is left to report, is the whole scan. */
  ghost predicate ScanInvariant(str: string, events: seq<Token>, i: nat, textStart: int, target: (seq<Token>, nat))
  {
    i <= |str| && (textStart >= 0 ==> textStart < i) &&
    var rest := ScanFrom(str, i, Pending(textStart));
    events + rest.0 == target.0 && rest.1 == target.1
  }

  lemma ScanPlainStep(str: string, events: seq<Token>, i: nat, textStart: int, target: (seq<Token>, nat))
    requires ScanInvariant(str, events, i, textStart, target) && textStart >= -1
    requires i < |str| && !IsSpaceChar(str[i]) && NextToken(str, i).Plain?
    ensures ScanInvariant(str, events, i + 1, if textStart == -1 then i else textStart, target)
  {
    ScanToken(str, i, Pending(textStart));
  }

  lemma ScanFoundStep(str: string, events: seq<Token>, i: nat, textStart: int, target: (seq<Token>, nat))
    requires ScanInvariant(str, events, i, textStart, target) && textStart >= -1
    requires i < |str| && !IsSpaceChar(str[i]) && NextToken(str, i).Found?
    ensures ScanInvariant(str, events + Flush(str, Pending(textStart), i) + [NextToken(str, i).token],
      NextToken(str, i).next, -1, target)
  {
    ScanToken(str, i, Pending(textStart));
  }

  lemma ScanSpaceStep(str: string, events: seq<Token>, i: nat, textStart: int, target: (seq<Token>, nat))
    requires ScanInvariant(str, events, i, textStart, target) && textStart >= -1
    requires i < |str| && IsSpaceChar(str[i])
    ensures ScanInvariant(str, events + Flush(str, Pending(textStart), i), SpaceEnd(str, i), -1, target)
  {
    ScanSpace(str, i, Pending(textStart));
  }

  lemma ScanEnd(str: string, events: seq<Token>, textStart: int, target: (seq<Token>, nat))
    requires ScanInvariant(str, events, |str|, textStart, target) && textStart >= -1
    ensures events + Flush(str, Pending(textStart), |str|) == target.0 && |str| == target.1
  {
  }

  lemma ScanMalformed(str: string, events: seq<Token>, i: nat, textStart: int, target: (seq<Token>, nat))
    requires ScanInvariant(str, events, i, textStart, target) && textStart >= -1
    requires i < |str| && !IsSpaceChar(str[i]) && NextToken(str, i).Malformed?
    ensures events == target.0 && i == target.1
  {
    ScanToken(str, i, Pending(textStart));
    assert events + [] == events;
  }

  lemma ScanSpace(str: string, i: nat, textStart: Option<nat>)
    requires i < |str| && IsSpaceChar(str[i])
    requires textStart.Some? ==> textStart.value < i
    ensures ScanFrom(str, i, textStart) ==
      (Flush(str, textStart, i) + ScanFrom(str, SpaceEnd(str, i), None).0, ScanFrom(str, SpaceEnd(str, i), None).1)
  {
  }

  lemma ScanToken(str: string, i: nat, textStart: Option<nat>)
    requires i < |str| && !IsSpaceChar(str[i])
    requires textStart.Some? ==> textStart.value < i
    ensures NextToken(str, i).Malformed? ==> ScanFrom(str, i, textStart) == ([], i)
    ensures NextToken(str, i).Found? ==>
      var rest := ScanFrom(str, NextToken(str, i).next, None);
      ScanFrom(str, i, textStart) == (Flush(str, textStart, i) + [NextToken(str, i).token] + rest.0, rest.1)
    ensures NextToken(str, i).Plain? ==>
      ScanFrom(str, i, textStart) == ScanFrom(str, i + 1, if textStart.None? then Some(i) else textStart)
  {
  }

  class Tokenizer {
    /** Text of the last quoted text taken (`lastText`). */
    var lastText: string
    /** Group count of the last raw regular expression taken (`lastGroupCount`). */
    var lastGroupCount: nat

    constructor ()
      ensures lastText == "" && lastGroupCount == 0
    {
      lastText := "";
      lastGroupCount := 0;
    }

    /** `takeQuotedText`. */
    method TakeQuotedText(str: string, i0: nat) returns (r: int)
      requires i0 <= |str|
      modifies this`lastText
      ensures i0 == |str| || !IsQuote(str[i0]) ==> r == NoMatch && lastText == old(lastText)
      ensures i0 < |str| && IsQuote(str[i0]) ==>
        match QuotedScan(str, str[i0], i0 + 1, "")
        case None => r == ErrorCode && lastText == ""
        case Some((v, j)) => r == j && lastText == v
    {
      if i0 == |str| || !IsQuote(str[i0]) {
        return NoMatch;
      }
      var quote := str[i0];
      var i := i0 + 1;
      var n := |str|;
      var j := i;
      lastText := "";
      assert lastText + str[j..i] == "";
      while i < n
        invariant i0 < j <= i <= n + 1
        invariant j <= n
        invariant i <= n ==>
          QuotedScan(str, quote, i, lastText + str[j..i]) == QuotedScan(str, quote, i0 + 1, "")
        invariant i == n + 1 ==> QuotedScan(str, quote, i0 + 1, "") == None
        decreases n + 1 - i
      {
        ghost var acc := lastText + str[j..i];
        if str[i] == quote {
          lastText := lastText + str[j..i];
          return i + 1;
        } else if str[i] == '\\' {
          lastText := lastText + str[j..i];
          i := i + 1;
          j := i;
          if i < n {
            assert lastText + str[j..i + 1] == acc + [str[i]];
          }
        } else {
          assert lastText + str[j..i + 1] == acc + [str[i]];
        }
        i := i + 1;
      }
      lastText := "";
      return ErrorCode;
    }

    /** `takeRegExp`. */
    method TakeRegExp(str: string, i0: nat) returns (r: int)
      requires i0 <= |str|
      modifies this`lastGroupCount
      ensures i0 == |str| || str[i0] != '(' ==> r == NoMatch && lastGroupCount == old(lastGroupCount)
      ensures i0 < |str| && str[i0] == '(' ==>
        match RegExpScan(str, i0 + 1, 0, 0)
        case None => r == ErrorCode && lastGroupCount == 0
        case Some((j, n)) => r == j && lastGroupCount == n
    {
      if i0 == |str| || str[i0] != '(' {
        return NoMatch;
      }
      var i := i0 + 1;
      var n := |str|;
      var groupDepth: nat := 0;
      lastGroupCount := 0;
      while i < n
        invariant i0 < i <= n + 1
        invariant i <= n ==>
          RegExpScan(str, i, groupDepth, lastGroupCount) == RegExpScan(str, i0 + 1, 0, 0)
        invariant i == n + 1 ==> RegExpScan(str, i0 + 1, 0, 0) == None
        decreases n + 1 - i
      {
        if str[i] == '(' {
          lastGroupCount := lastGroupCount + 1;
          groupDepth := groupDepth + 1;
        } else if str[i] == ')' {
          if groupDepth == 0 {
            return i + 1;
          }
          groupDepth := groupDepth - 1;
        } else if str[i] == '\\' {
          i := i + 1;
        }
        i := i + 1;
      }
      lastGroupCount := 0;
      return ErrorCode;
    }

    /** `takeVariable`: the end of `:name`, NoMatch, or ErrorCode. */
    static method TakeVariable(str: string, i: nat) returns (r: int)
      requires i <= |str|
      ensures i == |str| || str[i] != ':' ==> r == NoMatch
      ensures i < |str| && str[i] == ':' ==>
        match VariableNameEnd(str, i + 1)
        case None => r == ErrorCode
        case Some(j) => r == j
    {
      if i == |str| || str[i] != ':' {
        return NoMatch;
      }
      var j := VariableNameEnd(str, i + 1);
      return if j.Some? && j.value > i then j.value else ErrorCode;
    }

    /** Dispatches the takers at a non-space offset, as the body of the main loop does. */
    method Next(str: string, i: nat) returns (s: Step)
      requires i < |str|
      modifies this
      ensures s == NextToken(str, i)
      ensures lastText == if !IsQuote(str[i]) then old(lastText) else if s.Found? then s.token.value else ""
      ensures lastGroupCount == if str[i] != '(' then old(lastGroupCount) else if s.Found? then s.token.groupCount else 0
    {
      var j := TakeVariable(str, i);
      if j >= 0 {
        return Found(Variable(str[i + 1..j], i, j), j);
      } else if j == ErrorCode {
        return Malformed;
      }
      if str[i] == '{' {
        return Found(AltStart(i, i + 1), i + 1);
      }
      if str[i] == '}' {
        return Found(AltEnd(i, i + 1), i + 1);
      }
      if str[i] == ',' {
        return Found(AltSeparator(i, i + 1), i + 1);
      }
      if i + 1 < |str| && str[i..i + 2] == "**" {
        return Found(Wildcard(true, i, i + 2), i + 2);
      }
      if str[i] == '*' {
        return Found(Wildcard(false, i, i + 1), i + 1);
      }
      if str[i] == '/' {
        return Found(PathSeparator(i, i + 1), i + 1);
      }
      j := TakeQuotedText(str, i);
      if j >= 0 {
        return Found(Text(lastText, i, j), j);
      } else if j == ErrorCode {
        return Malformed;
      }
      j := TakeRegExp(str, i);
      if j >= 0 {
        return Found(RegExp(str[i + 1..j - 1], lastGroupCount, i, j), j);
      } else if j == ErrorCode {
        return Malformed;
      }
      return Plain;
    }

    /** `emitText`: reports the pending unquoted run, if any, and clears it. */
    static method EmitText(str: string, events: seq<Token>, textStart: int, textEnd: int)
      returns (events': seq<Token>, textStart': int)
      requires textStart >= -1
      requires textStart >= 0 ==> textStart < textEnd <= |str|
      ensures events' == events + Flush(str, Pending(textStart), textEnd)
      ensures textStart' == -1
    {
      if textStart != -1 {
        return events + [Text(str[textStart..textEnd], textStart, textEnd)], -1;
      }
      assert events + [] == events;
      return events, -1;
    }

    /** `tokenizePattern`: the events reported, in order, and the offset returned. */
    method TokenizePattern(str: string) returns (events: seq<Token>, stop: nat)
      modifies this
      ensures (events, stop) == Tokenize(str)
    {
      ghost var target := Tokenize(str);
      var n := |str|;
      var textStart: int := -1;
      var textEnd: int := -1;
      var i: nat := 0;
      events := [];
      while i < n
        invariant -1 <= textStart < i <= n
        invariant textStart != -1 ==> textEnd == i
        invariant ScanInvariant(str, events, i, textStart, target)
        decreases n - i
      {
        textEnd := i;
        var j := SpaceEnd(str, i);
        if j != i {
          ScanSpaceStep(str, events, i, textStart, target);
          events, textStart := EmitText(str, events, textStart, textEnd);
          i := j;
        }
        if i == n {
          ScanEnd(str, events, textStart, target);
          assert events + [] == events;
          return events, i;
        }
        var step := Next(str, i);
        match step {
          case Malformed =>
            ScanMalformed(str, events, i, textStart, target);
            return events, i;
          case Found(tok, next) =>
            ScanFoundStep(str, events, i, textStart, target);
            events, textStart := EmitText(str, events, textStart, textEnd);
            events := events + [tok];
            i := next;
          case Plain =>
            ScanPlainStep(str, events, i, textStart, target);
            if textStart == -1 {
              textStart := i;
            }
            i := i + 1;
            textEnd := i;
        }
      }
      ScanEnd(str, events, textStart, target);
      events, textStart := EmitText(str, events, textStart, textEnd);
      return events, i;
    }
  }
}

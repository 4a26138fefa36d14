/**
 * `escapeRegExp`: a backslash in front of every regular-expression
 * metacharacter, other characters copied as they are.
 */
module EscapeRegExp {

  /** The characters of the class `[\\^$.*+?()[\]{}|]`. */
  predicate IsMetaChar(c: char) {
    c == '\\' || c == '^' || c == '$' || c == '.' || c == '*' || c == '+' || c == '?' ||
    c == '(' || c == ')' || c == '[' || c == ']' || c == '{' || c == '}' || c == '|'
  }

  /** `reTestChar.test(str)`. */
  predicate HasMetaChar(s: string) {
    exists k :: 0 <= k < |s| && IsMetaChar(s[k])
  }

  function MetaCount(s: string): nat {
    if |s| == 0 then 0 else (if IsMetaChar(s[0]) then 1 else 0) + MetaCount(s[1..])
  }

  /** `str.replace(reChar, '\\$&')`: every match of the class gets a backslash in front. */
  function ReplaceMeta(s: string): (r: string)
    ensures |r| == |s| + MetaCount(s)
  {
    if |s| == 0 then ""
    else (if IsMetaChar(s[0]) then ['\\', s[0]] else [s[0]]) + ReplaceMeta(s[1..])
  }

  /** `escapeRegExp(str)`: the string is left alone when the test finds no metacharacter. */
  function Escape(s: string): (r: string)
    ensures |r| == |s| + MetaCount(s)
  {
    if HasMetaChar(s) then ReplaceMeta(s) else NoMetaCount(s); s
  }

  /** Reads an escaped string back: a backslash is dropped and the character after it kept. */
  function Unescape(s: string): string {
    if |s| == 0 then ""
    else if s[0] == '\\' && |s| > 1 then [s[1]] + Unescape(s[2..])
    else [s[0]] + Unescape(s[1..])
  }

  lemma {:induction false} NoMetaCount(s: string)
    requires !HasMetaChar(s)
    ensures MetaCount(s) == 0
  {
    if |s| > 0 {
      assert !HasMetaChar(s[1..]) by {
        forall k | 0 <= k < |s[1..]| ensures !IsMetaChar(s[1..][k]) {
          assert s[1..][k] == s[k + 1];
        }
      }
      NoMetaCount(s[1..]);
    }
  }

  /** The test is only a shortcut: without a metacharacter the replacement changes nothing. */
  lemma {:induction false} ReplaceWithoutMeta(s: string)
    requires !HasMetaChar(s)
    ensures ReplaceMeta(s) == s
  {
    if |s| > 0 {
      assert !IsMetaChar(s[0]);
      assert !HasMetaChar(s[1..]) by {
        forall k | 0 <= k < |s[1..]| ensures !IsMetaChar(s[1..][k]) {
          assert s[1..][k] == s[k + 1];
        }
      }
      ReplaceWithoutMeta(s[1..]);
      assert [s[0]] + s[1..] == s;
    }
  }

  lemma EscapeIsReplace(s: string)
    ensures Escape(s) == ReplaceMeta(s)
  {
    if !HasMetaChar(s) {
      ReplaceWithoutMeta(s);
    }
  }

  /** Escaping works character by character, in order. */
  lemma {:induction false} ReplaceAppend(a: string, b: string)
    ensures ReplaceMeta(a + b) == ReplaceMeta(a) + ReplaceMeta(b)
  {
    if |a| == 0 {
      assert a + b == b;
    } else {
      assert (a + b)[0] == a[0];
      assert (a + b)[1..] == a[1..] + b;
      ReplaceAppend(a[1..], b);
    }
  }

  /** A metacharacter gets exactly one backslash; any other character is copied. */
  lemma EscapeChar(c: char)
    ensures Escape([c]) == if IsMetaChar(c) then ['\\', c] else [c]
  {
    EscapeIsReplace([c]);
    assert [c][1..] == [];
  }

  lemma EscapeAppend(a: string, b: string)
    ensures Escape(a + b) == Escape(a) + Escape(b)
  {
    EscapeIsReplace(a + b);
    EscapeIsReplace(a);
    EscapeIsReplace(b);
    ReplaceAppend(a, b);
  }

  /** Deleting each inserted backslash gives the input back. */
  lemma {:induction false} ReplaceRoundTrip(s: string)
    ensures Unescape(ReplaceMeta(s)) == s
  {
    if |s| > 0 {
      ReplaceRoundTrip(s[1..]);
      var r := ReplaceMeta(s);
      if IsMetaChar(s[0]) {
        assert r[0] == '\\' && r[1] == s[0] && r[2..] == ReplaceMeta(s[1..]);
      } else {
        assert r[0] == s[0] && r[1..] == ReplaceMeta(s[1..]);
      }
      assert [s[0]] + s[1..] == s;
    }
  }

  lemma EscapeRoundTrip(s: string)
    ensures Unescape(Escape(s)) == s
  {
    EscapeIsReplace(s);
    ReplaceRoundTrip(s);
  }
}

/**
 * The path-builder compiler's own AST: concatenations, selections between
 * alternatives, params, wildcards, raw regular expressions and strings.
 * A param's name is optional because the legacy transformation builds
 * unnamed params for bare regular expressions.
 */
module CompilerAst {
  import opened Wrappers

  datatype Node =
    | Concat(children: seq<Node>)
    | Select(children: seq<Node>)
    | Param(name: Option<string>, constraint: Option<Node>)
    | Wildcard(greedy: bool)
    | RegExp(pattern: string)
    | String(value: string)
  {
    /** `isTerminalNode`: a node with nothing below it that can hold a param. */
    predicate IsTerminal() {
      Wildcard? || String? || RegExp?
    }
  }

  // ---------------------------------------------------------------------
  // The normal form the transformations produce

  /** The children of a concatenation as the transformations leave them: no nested concatenation, no two strings in a row. */
  predicate Spliced(cs: seq<Node>) {
    && (forall i :: 0 <= i < |cs| ==> !cs[i].Concat?)
    && (forall i :: 0 <= i < |cs| - 1 ==> !(cs[i].String? && cs[i + 1].String?))
  }

  predicate AllFlat(cs: seq<Node>)
    decreases cs, 1
  {
    forall i :: 0 <= i < |cs| ==> Flat(cs[i])
  }

  /** Concatenations and selections have at least two children, are not nested in their own kind, and strings are merged. */
  predicate Flat(n: Node)
    decreases n, 2
  {
    match n
    case Concat(cs) => |cs| >= 2 && Spliced(cs) && AllFlat(cs)
    case Select(cs) => |cs| >= 2 && (forall i :: 0 <= i < |cs| ==> !cs[i].Select?) && AllFlat(cs)
    case Param(_, c) => c.Some? ==> Flat(c.value)
    case Wildcard(_) => true
    case RegExp(_) => true
    case String(_) => true
  }

  // ---------------------------------------------------------------------
  // What a node stands for, read left to right

  /** A character of a literal, or a node that contributes something other than literal text. */
  datatype Atom = Char(c: char) | Hole(node: Node)

  function Chars(s: string): (r: seq<Atom>)
    ensures |r| == |s| && forall i :: 0 <= i < |s| ==> r[i] == Char(s[i])
  {
    if |s| == 0 then [] else Chars(s[..|s| - 1]) + [Char(s[|s| - 1])]
  }

  /** A string is its characters, a concatenation the expansions of its children in order, anything else one hole. */
  function Expand(n: Node): seq<Atom>
    decreases n, 1
  {
    match n
    case String(v) => Chars(v)
    case Concat(cs) => ExpandAll(cs)
    case Select(_) => [Hole(n)]
    case Param(_, _) => [Hole(n)]
    case Wildcard(_) => [Hole(n)]
    case RegExp(_) => [Hole(n)]
  }

  function ExpandAll(cs: seq<Node>): seq<Atom>
    decreases cs, 0
  {
    if |cs| == 0 then [] else ExpandAll(cs[..|cs| - 1]) + Expand(cs[|cs| - 1])
  }

  lemma CharsAppend(a: string, b: string)
    ensures Chars(a + b) == Chars(a) + Chars(b)
  {
  }

  lemma {:induction false} ExpandAllAppend(a: seq<Node>, b: seq<Node>)
    ensures ExpandAll(a + b) == ExpandAll(a) + ExpandAll(b)
    decreases |b|
  {
    if |b| > 0 {
      var b' := b[..|b| - 1];
      assert (a + b)[..|a + b| - 1] == a + b';
      assert (a + b)[|a + b| - 1] == b[|b| - 1];
      ExpandAllAppend(a, b');
    } else {
      assert a + b == a;
    }
  }

  lemma ExpandOne(n: Node)
    ensures ExpandAll([n]) == Expand(n)
  {
    assert [n][..0] == [];
  }
}

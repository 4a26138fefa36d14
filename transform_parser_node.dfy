/**
 * `transformParserNode`: rewrites the pattern AST into the compiler's AST.
 * Text becomes a string, a wildcard outside a constraint an empty string;
 * the children of a path or segment are concatenated with adjacent strings
 * merged and nested concatenations spliced in, a selection among them is
 * cut after its first string branch, and an alternation becomes a
 * selection with nested selections flattened.
 *
 * The separator `sep` is the source's `pathSeparator` parameter, which
 * defaults to `/` (`DefaultSeparator`); every member takes it explicitly.
 *
 * The parser's `parent` link is used only to ask whether a segment is a
 * later child of a path; the caller passes that answer down as a
 * `Position`.
 */
module TransformParserNode {
  import opened Wrappers
  import P = PatternAst
  import opened CompilerAst

  /** The default of `pathSeparator`. */
  const DefaultSeparator: string := "/"

  /** Where a node sits: as the first or a later child of a path, or anywhere else. */
  datatype Position = InPath(first: bool) | Elsewhere

  /** The separator string an absolute path, or a segment after the first of its path, starts with. */
  function Leading(node: P.Node, sep: string, pos: Position): (r: seq<Node>)
    ensures r == [] || r == [String(sep)]
  {
    if (node.Path? && node.absolute) || (node.Segment? && pos == InPath(false)) then [String(sep)] else []
  }

  /** The index of the first string among `cs[from..|cs| - 1]`: the last child is never a candidate. */
  function FirstString(cs: seq<Node>, from: nat): (r: Option<nat>)
    ensures r.Some? ==> from <= r.value < |cs| - 1 && cs[r.value].String?
    ensures r.Some? ==> forall j :: from <= j < r.value ==> !cs[j].String?
    ensures r.None? ==> forall j :: from <= j < |cs| - 1 ==> !cs[j].String?
    decreases |cs| - from
  {
    if from + 1 >= |cs| then None
    else if cs[from].String? then Some(from)
    else FirstString(cs, from + 1)
  }

  /**
   * A selection met among a path's children is cut after its first string
   * branch (not counting the last branch): to that branch alone when it is
   * the first one.
   */
  function TruncateSelect(cs: seq<Node>): (r: Node)
    ensures r.Select? ==> r.children <= cs
    ensures r.Select? ==> forall j :: 0 <= j < |r.children| - 1 ==> !r.children[j].String?
    ensures r.Select? && |r.children| < |cs| ==> |r.children| >= 2 && r.children[|r.children| - 1].String?
    ensures !r.Select? ==> |cs| >= 2 && r == cs[0] && cs[0].String?
  {
    match FirstString(cs, 0)
    case None => assert cs[..|cs|] == cs; Select(cs)
    case Some(i) => if i == 0 then cs[0] else Select(cs[..i + 1])
  }

  function Truncate(child: Node): Node {
    if child.Select? then TruncateSelect(child.children) else child
  }

  /** Appends one transformed child: merged into a preceding string, spliced when it is a concatenation. */
  function PushChild(children: seq<Node>, child: Node): seq<Node> {
    var n := |children|;
    if n > 0 && children[n - 1].String? && child.String? then
      children[..n - 1] + [String(children[n - 1].value + child.value)]
    else if !child.Concat? then
      children + [child]
    else if n > 0 && children[n - 1].String? && |child.children| > 0 && child.children[0].String? then
      children[..n - 1] + [String(children[n - 1].value + child.children[0].value)] + child.children[1..]
    else
      children + child.children
  }

  /** One child or a concatenation of them. */
  function Collapse(cs: seq<Node>): Node {
    if |cs| == 1 then cs[0] else Concat(cs)
  }

  function ChildPosition(inPath: bool, i: nat): Position {
    if inPath then InPath(i == 0) else Elsewhere
  }

  function Transform(node: P.Node, sep: string, pos: Position): Node
    decreases node, 2
  {
    match node
    case Text(value, _, _) => String(value)
    case Wildcard(_, _, _) => String("")
    case Variable(name, constraint, _, _) =>
      Param(Some(name),
        if constraint.None? then None
        else if constraint.value.Wildcard? then Some(Wildcard(constraint.value.greedy))
        else Some(Transform(constraint.value, sep, Elsewhere)))
    case RegExp(pattern, _, _, _) => RegExp(pattern)
    case Path(children, _, _, _) =>
      if |children| == 0 then String("") else Collapse(Collect(children, Leading(node, sep, pos), sep, true))
    case Segment(children, _, _) =>
      if |children| == 0 then String("") else Collapse(Collect(children, Leading(node, sep, pos), sep, false))
    case Alt(children, _, _) =>
      if |children| == 0 then String("")
      else
        var alts := Branches(children, sep);
        if |alts| == 1 then alts[0] else Select(alts)
  }

  /** The children of a path (`inPath`) or segment pushed one by one after `lead`. */
  function Collect(kids: seq<P.Node>, lead: seq<Node>, sep: string, inPath: bool): seq<Node>
    decreases kids, 1
  {
    if |kids| == 0 then lead
    else
      var n := |kids| - 1;
      PushChild(Collect(kids[..n], lead, sep, inPath), Truncate(Transform(kids[n], sep, ChildPosition(inPath, n))))
  }

  /** The branches of an alternation, a nested selection contributing its own branches. */
  function Branches(kids: seq<P.Node>, sep: string): seq<Node>
    decreases kids, 1
  {
    if |kids| == 0 then []
    else
      var c := Transform(kids[|kids| - 1], sep, Elsewhere);
      Branches(kids[..|kids| - 1], sep) + (if c.Select? then c.children else [c])
  }

  // ---------------------------------------------------------------------
  // The result is in normal form

  lemma TruncateFlat(c: Node)
    requires Flat(c)
    ensures Flat(Truncate(c)) && !Truncate(c).Concat? == !c.Concat?
  {
    if c.Select? {
      var r := TruncateSelect(c.children);
      if r.Select? {
        assert forall j :: 0 <= j < |r.children| ==> r.children[j] == c.children[j];
      } else {
        assert Flat(c.children[0]);
      }
    }
  }

  /** Pushing a normal-form child onto spliced normal-form children keeps them so, and leaves at least one. */
  lemma PushChildFlat(xs: seq<Node>, c: Node)
    requires Spliced(xs) && AllFlat(xs) && Flat(c)
    ensures var r := PushChild(xs, c); Spliced(r) && AllFlat(r) && |r| >= 1
  {
    var n := |xs|;
    if n > 0 && xs[n - 1].String? && c.String? {
    } else if !c.Concat? {
    } else if n > 0 && xs[n - 1].String? && |c.children| > 0 && c.children[0].String? {
      var cc := c.children;
      var r := xs[..n - 1] + [String(xs[n - 1].value + cc[0].value)] + cc[1..];
      assert forall i :: n <= i < |r| ==> r[i] == cc[i - n + 1];
      assert forall i :: 0 <= i < n - 1 ==> r[i] == xs[i];
      assert AllFlat(cc);
    } else {
      var cc := c.children;
      var r := xs + cc;
      assert forall i :: n <= i < |r| ==> r[i] == cc[i - n];
      assert AllFlat(cc);
    }
  }

  lemma {:induction false} TransformFlat(node: P.Node, sep: string, pos: Position)
    ensures Flat(Transform(node, sep, pos))
    decreases node, 2
  {
    match node
    case Text(_, _, _) =>
    case Wildcard(_, _, _) =>
    case Variable(_, constraint, _, _) =>
      if constraint.Some? && !constraint.value.Wildcard? {
        TransformFlat(constraint.value, sep, Elsewhere);
      }
    case RegExp(_, _, _, _) =>
    case Path(children, _, _, _) =>
      if |children| > 0 {
        CollectFlat(children, Leading(node, sep, pos), sep, true);
      }
    case Segment(children, _, _) =>
      if |children| > 0 {
        CollectFlat(children, Leading(node, sep, pos), sep, false);
      }
    case Alt(children, _, _) =>
      if |children| > 0 {
        BranchesFlat(children, sep);
      }
  }

  lemma {:induction false} CollectFlat(kids: seq<P.Node>, lead: seq<Node>, sep: string, inPath: bool)
    requires lead == [] || lead == [String(sep)]
    requires |kids| > 0
    ensures var r := Collect(kids, lead, sep, inPath); Spliced(r) && AllFlat(r) && |r| >= 1
    decreases kids, 1
  {
    var n := |kids| - 1;
    var c := Transform(kids[n], sep, ChildPosition(inPath, n));
    TransformFlat(kids[n], sep, ChildPosition(inPath, n));
    TruncateFlat(c);
    if n > 0 {
      CollectFlat(kids[..n], lead, sep, inPath);
    } else {
      assert kids[..n] == [];
    }
    PushChildFlat(Collect(kids[..n], lead, sep, inPath), Truncate(c));
  }

  lemma {:induction false} BranchesFlat(kids: seq<P.Node>, sep: string)
    ensures var r := Branches(kids, sep); AllFlat(r) && (forall i :: 0 <= i < |r| ==> !r[i].Select?)
    ensures |kids| > 0 ==> |Branches(kids, sep)| >= 1
    decreases kids, 1
  {
    if |kids| > 0 {
      var init := kids[..|kids| - 1];
      var c := Transform(kids[|kids| - 1], sep, Elsewhere);
      BranchesFlat(init, sep);
      TransformFlat(kids[|kids| - 1], sep, Elsewhere);
      var a := Branches(init, sep);
      var b := if c.Select? then c.children else [c];
      assert AllFlat(b);
      assert forall i :: 0 <= i < |b| ==> !b[i].Select?;
      assert forall i :: |a| <= i < |a + b| ==> (a + b)[i] == b[i - |a|];
    }
  }

  // ---------------------------------------------------------------------
  // Merging and splicing keep what the children spell

  /** What the children of a path or segment spell, each read on its own. */
  function Pieces(kids: seq<P.Node>, sep: string, inPath: bool): seq<Atom>
    decreases kids
  {
    if |kids| == 0 then []
    else
      var n := |kids| - 1;
      Pieces(kids[..n], sep, inPath) + Expand(Truncate(Transform(kids[n], sep, ChildPosition(inPath, n))))
  }

  /** Merging `b` into a string `a` that ends `init` spells the same as keeping them apart. */
  lemma {:induction false} MergeExpand(init: seq<Node>, a: string, b: string, rest: seq<Node>)
    ensures ExpandAll(init + [String(a + b)] + rest) == ExpandAll(init + [String(a)]) + Chars(b) + ExpandAll(rest)
  {
    ExpandAllAppend(init + [String(a + b)], rest);
    StringExpand(init, a + b);
    StringExpand(init, a);
    CharsAppend(a, b);
    AppendAssoc(ExpandAll(init), Chars(a), Chars(b), ExpandAll(rest));
  }

  lemma AppendAssoc(x: seq<Atom>, y: seq<Atom>, z: seq<Atom>, w: seq<Atom>)
    ensures x + (y + z) + w == x + y + z + w
  {
  }

  lemma {:induction false} StringExpand(init: seq<Node>, a: string)
    ensures ExpandAll(init + [String(a)]) == ExpandAll(init) + Chars(a)
  {
    var xs := init + [String(a)];
    assert xs[..|xs| - 1] == init;
  }

  lemma {:induction false} PushChildExpand(xs: seq<Node>, c: Node)
    ensures ExpandAll(PushChild(xs, c)) == ExpandAll(xs) + Expand(c)
  {
    var n := |xs|;
    if n > 0 && xs[n - 1].String? && c.String? {
      assert xs == xs[..n - 1] + [String(xs[n - 1].value)];
      MergeExpand(xs[..n - 1], xs[n - 1].value, c.value, []);
      assert xs[..n - 1] + [String(xs[n - 1].value + c.value)] + [] == PushChild(xs, c);
    } else if !c.Concat? {
      ExpandAllAppend(xs, [c]);
      ExpandOne(c);
    } else if n > 0 && xs[n - 1].String? && |c.children| > 0 && c.children[0].String? {
      SpliceMergeExpand(xs, c.children);
    } else {
      ExpandAllAppend(xs, c.children);
    }
  }

  lemma {:induction false} SpliceMergeExpand(xs: seq<Node>, cc: seq<Node>)
    requires |xs| > 0 && xs[|xs| - 1].String? && |cc| > 0 && cc[0].String?
    ensures var n := |xs|;
      ExpandAll(xs[..n - 1] + [String(xs[n - 1].value + cc[0].value)] + cc[1..]) == ExpandAll(xs) + ExpandAll(cc)
  {
    var n := |xs|;
    assert xs == xs[..n - 1] + [String(xs[n - 1].value)];
    MergeExpand(xs[..n - 1], xs[n - 1].value, cc[0].value, cc[1..]);
    SplitFirst(cc);
  }

  lemma {:induction false} SplitFirst(cc: seq<Node>)
    requires |cc| > 0 && cc[0].String?
    ensures ExpandAll(cc) == Chars(cc[0].value) + ExpandAll(cc[1..])
  {
    assert cc == [cc[0]] + cc[1..];
    ExpandAllAppend([cc[0]], cc[1..]);
    ExpandOne(cc[0]);
  }

  lemma {:induction false} CollectExpand(kids: seq<P.Node>, lead: seq<Node>, sep: string, inPath: bool)
    ensures ExpandAll(Collect(kids, lead, sep, inPath)) == ExpandAll(lead) + Pieces(kids, sep, inPath)
    decreases kids
  {
    if |kids| > 0 {
      var n := |kids| - 1;
      var prev, c := Collect(kids[..n], lead, sep, inPath), Truncate(Transform(kids[n], sep, ChildPosition(inPath, n)));
      assert Collect(kids, lead, sep, inPath) == PushChild(prev, c);
      assert Pieces(kids, sep, inPath) == Pieces(kids[..n], sep, inPath) + Expand(c);
      CollectExpand(kids[..n], lead, sep, inPath);
      PushChildExpand(prev, c);
    }
  }

  /**
   * A non-empty path or segment spells its leading separator, if any, then
   * what each of its children spells, in order: merging strings and
   * splicing concatenations loses and adds nothing.
   */
  lemma TransformSpells(node: P.Node, sep: string, pos: Position)
    requires (node.Path? || node.Segment?) && |node.children| > 0
    ensures Expand(Transform(node, sep, pos)) == ExpandAll(Leading(node, sep, pos)) + Pieces(node.children, sep, node.Path?)
  {
    var cs := Collect(node.children, Leading(node, sep, pos), sep, node.Path?);
    CollectExpand(node.children, Leading(node, sep, pos), sep, node.Path?);
    if |cs| == 1 {
      ExpandOne(cs[0]);
    }
  }

  /** An absolute path, and a segment after the first of its path, spell the separator first. */
  lemma LeadingSeparator(node: P.Node, sep: string, pos: Position)
    requires (node.Path? && node.absolute) || (node.Segment? && pos == InPath(false))
    requires |node.children| > 0
    ensures Chars(sep) <= Expand(Transform(node, sep, pos))
  {
    TransformSpells(node, sep, pos);
    ExpandOne(String(sep));
  }

  /** An empty path, segment or alternation is the empty string; the leaves map one to one. */
  lemma EmptyAndLeaves(node: P.Node, sep: string, pos: Position)
    ensures node.IsContainer() && |node.children| == 0 ==> Transform(node, sep, pos) == String("")
    ensures node.Text? ==> Transform(node, sep, pos) == String(node.value)
    ensures node.Wildcard? ==> Transform(node, sep, pos) == String("")
    ensures node.RegExp? ==> Transform(node, sep, pos) == RegExp(node.pattern)
    ensures node.Variable? && node.constraint.Some? && node.constraint.value.Wildcard? ==>
      Transform(node, sep, pos) == Param(Some(node.name), Some(Wildcard(node.constraint.value.greedy)))
  {
  }

  // ---------------------------------------------------------------------
  // The transformation as the source runs it

  method TransformParserNode(node: P.Node, sep: string, pos: Position) returns (r: Node)
    ensures r == Transform(node, sep, pos)
    decreases node, 2
  {
    match node
    case Text(value, _, _) => r := String(value);
    case Wildcard(_, _, _) => r := String("");
    case Variable(name, constraint, _, _) =>
      var c: Option<Node> := None;
      if constraint.Some? {
        if constraint.value.Wildcard? {
          c := Some(Wildcard(constraint.value.greedy));
        } else {
          var t := TransformParserNode(constraint.value, sep, Elsewhere);
          c := Some(t);
        }
      }
      r := Param(Some(name), c);
    case RegExp(pattern, _, _, _) => r := RegExp(pattern);
    case Path(children, _, _, _) =>
      if |children| == 0 {
        r := String("");
      } else {
        var cs := CollectChildren(children, Leading(node, sep, pos), sep, true);
        r := if |cs| == 1 then cs[0] else Concat(cs);
      }
    case Segment(children, _, _) =>
      if |children| == 0 {
        r := String("");
      } else {
        var cs := CollectChildren(children, Leading(node, sep, pos), sep, false);
        r := if |cs| == 1 then cs[0] else Concat(cs);
      }
    case Alt(children, _, _) =>
      if |children| == 0 {
        r := String("");
      } else {
        var alts := CollectBranches(children, sep);
        r := if |alts| == 1 then alts[0] else Select(alts);
      }
  }

  /** The path/segment loop: transform, cut a selection, merge or splice. */
  method CollectChildren(kids: seq<P.Node>, lead: seq<Node>, sep: string, inPath: bool) returns (children: seq<Node>)
    ensures children == Collect(kids, lead, sep, inPath)
    decreases kids, 1
  {
    children := lead;
    var i := 0;
    while i < |kids|
      invariant 0 <= i <= |kids|
      invariant children == Collect(kids[..i], lead, sep, inPath)
    {
      assert kids[..i + 1][..i] == kids[..i];
      var child := TransformParserNode(kids[i], sep, ChildPosition(inPath, i));
      if child.Select? {
        child := TruncateSelectLoop(child.children);
      }
      var n := |children|;
      if n > 0 && children[n - 1].String? && child.String? {
        children := children[..n - 1] + [String(children[n - 1].value + child.value)];
      } else if !child.Concat? {
        children := children + [child];
      } else if n > 0 && children[n - 1].String? && |child.children| > 0 && child.children[0].String? {
        children := children[..n - 1] + [String(children[n - 1].value + child.children[0].value)] + child.children[1..];
      } else {
        children := children + child.children;
      }
      i := i + 1;
    }
    assert kids[..|kids|] == kids;
  }

  /** The truncation loop: the first string branch before the last ends the selection. */
  method TruncateSelectLoop(cs: seq<Node>) returns (r: Node)
    ensures r == TruncateSelect(cs)
  {
    r := Select(cs);
    var i := 0;
    while i + 1 < |cs|
      invariant 0 <= i <= |cs|
      invariant FirstString(cs, 0) == FirstString(cs, i)
      decreases |cs| - i
    {
      if !cs[i].String? {
        i := i + 1;
        continue;
      }
      if i == 0 {
        r := cs[0];
      } else {
        r := Select(cs[..i + 1]);
      }
      return;
    }
  }

  /** The alternation loop: nested selections contribute their branches. */
  method CollectBranches(kids: seq<P.Node>, sep: string) returns (children: seq<Node>)
    ensures children == Branches(kids, sep)
    decreases kids, 1
  {
    children := [];
    var i := 0;
    while i < |kids|
      invariant 0 <= i <= |kids|
      invariant children == Branches(kids[..i], sep)
    {
      assert kids[..i + 1][..i] == kids[..i];
      var child := TransformParserNode(kids[i], sep, Elsewhere);
      if child.Select? {
        children := children + child.children;
      } else {
        children := children + [child];
      }
      i := i + 1;
    }
    assert kids[..|kids|] == kids;
  }
}

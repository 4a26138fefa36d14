/**
 * `transformNode`, the older rewrite of the pattern AST into the compiler's
 * AST. Unlike `transformParserNode` it drops wildcards (`null`), lets a
 * variable whose constraint becomes a string stand for that string, turns
 * a regular expression outside a constraint into an unnamed param, always
 * separates with `/`, and stops an alternation after the first branch that
 * ends in a string.
 *
 * The source reads a regular expression's and a segment's `parent` link.
 * The caller passes down what that link is. The parser sets a regular
 * expression's parent to the node under its cursor at the time. Within a
 * segment that is still a variable when the variable has no constraint or
 * an alternation for one, and when only alternations follow it:
 * closing an alternation puts the cursor back where the alternation was
 * opened. `AtVariable` replays that cursor over the siblings before a
 * child, and `ChildParent` gives a regular expression pushed there a
 * variable parent, as the parser leaves it.
 */
module TransformNode {
  import opened Wrappers
  import P = PatternAst
  import opened CompilerAst
  import TransformParserNode

  /** What a node's `parent` link points at. */
  datatype Parent = PathParent(first: bool) | VariableParent | OtherParent

  /**
   * Whether the parser's cursor is on a variable, not on the segment, once
   * it has pushed the children `before` of a segment: a variable with no
   * constraint or an alternation for one keeps it, an alternation leaves it
   * where it was, any other child moves it to the segment.
   */
  predicate AtVariable(before: seq<P.Node>)
    decreases |before|
  {
    if |before| == 0 then false
    else if KeepsCursor(before[|before| - 1]) then true
    else before[|before| - 1].Alt? && AtVariable(before[..|before| - 1])
  }

  /** A variable the cursor stays on once it is pushed: one with no constraint or an alternation for one. */
  predicate KeepsCursor(node: P.Node) {
    node.Variable? && (node.constraint.None? || node.constraint.value.Alt?)
  }

  /** The parent link of the `i`-th child of a path (`inPath`) or segment. */
  function ChildParent(kids: seq<P.Node>, i: nat, inPath: bool): (r: Parent)
    requires i < |kids|
    ensures r.PathParent? <==> inPath
    ensures inPath ==> r.first == (i == 0)
    ensures r == VariableParent <==>
      (!inPath && kids[i].RegExp? && exists j :: 0 <= j < i && KeepsCursor(kids[j]) && forall k :: j < k < i ==> kids[k].Alt?)
  {
    AtVariableIff(kids[..i]);
    assert forall m :: 0 <= m < i ==> kids[..i][m] == kids[m];
    if inPath then PathParent(i == 0)
    else if kids[i].RegExp? && AtVariable(kids[..i]) then VariableParent
    else OtherParent
  }

  function Collapse(cs: seq<Node>): Option<Node> {
    if |cs| == 0 then None else if |cs| == 1 then Some(cs[0]) else Some(Concat(cs))
  }

  function Transform(node: P.Node, parent: Parent): Option<Node>
    decreases node, 2
  {
    match node
    case Text(value, _, _) => Some(String(value))
    case Wildcard(_, _, _) => None
    case Variable(name, constraint, _, _) =>
      var c := if constraint.Some? then Transform(constraint.value, VariableParent) else None;
      if c.Some? && c.value.String? then c else Some(Param(Some(name), c))
    case RegExp(_, _, _, _) => if parent == VariableParent then None else Some(Param(None, None))
    case Path(children, absolute, _, _) =>
      Collapse(Collect(children, if absolute then [String("/")] else [], true))
    case Segment(children, _, _) =>
      Collapse(Collect(children, if parent == PathParent(false) then [String("/")] else [], false))
    case Alt(children, _, _) =>
      var b := Branches(children);
      if |b.children| == 0 then None else if |b.children| == 1 then Some(b.children[0]) else Some(Select(b.children))
  }

  /** The path or segment loop: skip `null`, merge strings, splice concatenations. */
  function Collect(kids: seq<P.Node>, lead: seq<Node>, inPath: bool): seq<Node>
    decreases kids, 1
  {
    if |kids| == 0 then lead
    else
      var n := |kids| - 1;
      var init := Collect(kids[..n], lead, inPath);
      match Transform(kids[n], ChildParent(kids, n, inPath))
      case None => init
      case Some(c) => TransformParserNode.PushChild(init, c)
  }

  /** The alternation loop's state: the branches so far, and whether it has broken out. */
  datatype AltState = AltState(children: seq<Node>, stopped: bool)

  function BranchStep(s: AltState, c: Option<Node>): AltState {
    if s.stopped || c.None? then s
    else
      var children := s.children + (if c.value.Select? then c.value.children else [c.value]);
      AltState(children, |children| > 0 && children[|children| - 1].String?)
  }

  function Branches(kids: seq<P.Node>): AltState
    decreases kids, 1
  {
    if |kids| == 0 then AltState([], false)
    else BranchStep(Branches(kids[..|kids| - 1]), Transform(kids[|kids| - 1], OtherParent))
  }

  // ---------------------------------------------------------------------
  // Reference: every branch, with nothing cut

  function AllBranches(kids: seq<P.Node>): seq<Node>
    decreases kids
  {
    if |kids| == 0 then []
    else
      var c := Transform(kids[|kids| - 1], OtherParent);
      AllBranches(kids[..|kids| - 1]) + (if c.None? then [] else if c.value.Select? then c.value.children else [c.value])
  }

  /** What the children of a path or segment spell, each on its own; a dropped child spells nothing. */
  function Pieces(kids: seq<P.Node>, inPath: bool): seq<Atom>
    decreases kids
  {
    if |kids| == 0 then []
    else
      var n := |kids| - 1;
      var c := Transform(kids[n], ChildParent(kids, n, inPath));
      Pieces(kids[..n], inPath) + (if c.Some? then Expand(c.value) else [])
  }

  // ---------------------------------------------------------------------
  // Properties

  /**
   * An alternation keeps the branches in order up to and including the
   * first one that leaves a string last, and drops the rest.
   */
  lemma {:induction false} BranchesCut(kids: seq<P.Node>)
    ensures Branches(kids).children <= AllBranches(kids)
    ensures !Branches(kids).stopped ==> Branches(kids).children == AllBranches(kids)
    ensures Branches(kids).stopped ==> |Branches(kids).children| > 0 && Branches(kids).children[|Branches(kids).children| - 1].String?
    decreases kids
  {
    if |kids| > 0 {
      BranchesCut(kids[..|kids| - 1]);
    }
  }

  /** Once an alternation has stopped, later branches change nothing. */
  lemma {:induction false} BranchesStop(kids: seq<P.Node>, more: seq<P.Node>)
    requires Branches(kids).stopped
    ensures Branches(kids + more) == Branches(kids)
    decreases |more|
  {
    if |more| > 0 {
      var all := kids + more;
      assert all[..|all| - 1] == kids + more[..|more| - 1];
      BranchesStop(kids, more[..|more| - 1]);
    } else {
      assert kids + more == kids;
    }
  }

  lemma {:induction false} CollectExpand(kids: seq<P.Node>, lead: seq<Node>, inPath: bool)
    ensures ExpandAll(Collect(kids, lead, inPath)) == ExpandAll(lead) + Pieces(kids, inPath)
    decreases kids
  {
    if |kids| > 0 {
      var n := |kids| - 1;
      var prev, c := Collect(kids[..n], lead, inPath), Transform(kids[n], ChildParent(kids, n, inPath));
      assert Pieces(kids, inPath) == Pieces(kids[..n], inPath) + (if c.Some? then Expand(c.value) else []);
      CollectExpand(kids[..n], lead, inPath);
      if c.Some? {
        assert Collect(kids, lead, inPath) == TransformParserNode.PushChild(prev, c.value);
        TransformParserNode.PushChildExpand(prev, c.value);
      } else {
        assert Collect(kids, lead, inPath) == prev;
      }
    }
  }

  /**
   * A path or segment that keeps anything spells its leading `/`, if any,
   * then what its children spell in order; wildcards spell nothing.
   */
  lemma TransformSpells(node: P.Node, parent: Parent)
    requires node.Path? || node.Segment?
    requires Transform(node, parent).Some?
    ensures var lead := if (node.Path? && node.absolute) || (node.Segment? && parent == PathParent(false)) then [String("/")] else [];
      Expand(Transform(node, parent).value) == ExpandAll(lead) + Pieces(node.children, node.Path?)
  {
    var lead := if (node.Path? && node.absolute) || (node.Segment? && parent == PathParent(false)) then [String("/")] else [];
    var cs := Collect(node.children, lead, node.Path?);
    CollectExpand(node.children, lead, node.Path?);
    if |cs| == 1 {
      ExpandOne(cs[0]);
    }
  }

  /**
   * The cursor is on a variable exactly when some child keeps it there and
   * every later child is an alternation.
   */
  lemma {:induction false} AtVariableIff(before: seq<P.Node>)
    ensures AtVariable(before) <==>
      exists j :: 0 <= j < |before| && KeepsCursor(before[j]) && forall k :: j < k < |before| ==> before[k].Alt?
    decreases |before|
  {
    if |before| > 0 {
      var n := |before| - 1;
      var init := before[..n];
      AtVariableIff(init);
      if !KeepsCursor(before[n]) && before[n].Alt? {
        if AtVariable(init) {
          var j :| 0 <= j < n && KeepsCursor(init[j]) && forall k :: j < k < n ==> init[k].Alt?;
          assert before[j] == init[j];
          assert forall k :: j < k < |before| ==> before[k].Alt? by {
            forall k | j < k < |before| ensures before[k].Alt? {
              if k < n {
                assert before[k] == init[k];
              }
            }
          }
        } else {
          forall j | 0 <= j < |before| && KeepsCursor(before[j])
            ensures !forall k :: j < k < |before| ==> before[k].Alt?
          {
            assert j < n && before[j] == init[j];
            assert !forall k :: j < k < n ==> init[k].Alt?;
            var k :| j < k < n && !init[k].Alt?;
            assert before[k] == init[k];
          }
        }
      } else if !KeepsCursor(before[n]) {
        forall j | 0 <= j < |before| && KeepsCursor(before[j])
          ensures !forall k :: j < k < |before| ==> before[k].Alt?
        {
          assert j < n && !before[n].Alt?;
        }
      }
    }
  }

  /**
   * In the segment of `:a{x}{y}(re)` the regular expression's parent is the
   * variable `a`: the cursor returned to it after each alternation. It is
   * therefore dropped, like a constraint.
   */
  lemma {:induction false} StaleParentExample(x: P.Node, y: P.Node, re: P.Node)
    requires x.Alt? && y.Alt? && re.RegExp?
    ensures var kids := [P.Variable("a", Some(x), 1, 5), y, re];
      ChildParent(kids, 2, false) == VariableParent && Transform(re, ChildParent(kids, 2, false)).None?
  {
    var kids := [P.Variable("a", Some(x), 1, 5), y, re];
    assert kids[..2][..1] == kids[..1];
    assert AtVariable(kids[..1]);
  }

  /** The leaves: text is a string, a wildcard is dropped, a regular expression is dropped only as a constraint. */
  lemma Leaves(node: P.Node, parent: Parent)
    ensures node.Text? ==> Transform(node, parent) == Some(String(node.value))
    ensures node.Wildcard? ==> Transform(node, parent).None?
    ensures node.RegExp? ==> (Transform(node, parent).None? <==> parent == VariableParent)
    ensures node.RegExp? && parent != VariableParent ==> Transform(node, parent) == Some(Param(None, None))
  {
  }

  /** A variable stands for its constraint when that becomes a string, and is otherwise a param holding what its constraint becomes. */
  lemma VariableForm(node: P.Node, parent: Parent)
    requires node.Variable?
    ensures var c := if node.constraint.Some? then Transform(node.constraint.value, VariableParent) else None;
      && (c.Some? && c.value.String? ==> Transform(node, parent) == c)
      && (!(c.Some? && c.value.String?) ==> Transform(node, parent) == Some(Param(Some(node.name), c)))
      && Transform(node, parent).Some?
  {
  }

  /** The result is in the same normal form as `transformParserNode`'s. */
  lemma {:induction false} TransformFlat(node: P.Node, parent: Parent)
    ensures Transform(node, parent).Some? ==> Flat(Transform(node, parent).value)
    decreases node, 2
  {
    match node
    case Text(_, _, _) =>
    case Wildcard(_, _, _) =>
    case Variable(_, constraint, _, _) =>
      if constraint.Some? {
        TransformFlat(constraint.value, VariableParent);
      }
    case RegExp(_, _, _, _) =>
    case Path(children, absolute, _, _) =>
      CollectFlat(children, if absolute then [String("/")] else [], true);
    case Segment(children, _, _) =>
      CollectFlat(children, if parent == PathParent(false) then [String("/")] else [], false);
    case Alt(children, _, _) =>
      BranchesFlat(children);
  }

  lemma {:induction false} CollectFlat(kids: seq<P.Node>, lead: seq<Node>, inPath: bool)
    requires lead == [] || lead == [String("/")]
    ensures var r := Collect(kids, lead, inPath); Spliced(r) && AllFlat(r)
    decreases kids, 1
  {
    if |kids| > 0 {
      var n := |kids| - 1;
      CollectFlat(kids[..n], lead, inPath);
      var c := Transform(kids[n], ChildParent(kids, n, inPath));
      TransformFlat(kids[n], ChildParent(kids, n, inPath));
      if c.Some? {
        TransformParserNode.PushChildFlat(Collect(kids[..n], lead, inPath), c.value);
      }
    }
  }

  lemma {:induction false} BranchesFlat(kids: seq<P.Node>)
    ensures var r := Branches(kids).children; AllFlat(r) && (forall i :: 0 <= i < |r| ==> !r[i].Select?)
    decreases kids, 1
  {
    if |kids| > 0 {
      var init := kids[..|kids| - 1];
      BranchesFlat(init);
      var c := Transform(kids[|kids| - 1], OtherParent);
      TransformFlat(kids[|kids| - 1], OtherParent);
      var s := Branches(init);
      if !s.stopped && c.Some? {
        var a := s.children;
        var b := if c.value.Select? then c.value.children else [c.value];
        assert AllFlat(b);
        assert forall i :: 0 <= i < |b| ==> !b[i].Select?;
        assert forall i :: |a| <= i < |a + b| ==> (a + b)[i] == b[i - |a|];
      }
    }
  }

  // ---------------------------------------------------------------------
  // The transformation as the source runs it

  method TransformNode(node: P.Node, parent: Parent) returns (r: Option<Node>)
    ensures r == Transform(node, parent)
    decreases node, 2
  {
    match node
    case Text(value, _, _) => r := Some(String(value));
    case Wildcard(_, _, _) => r := None;
    case Variable(name, constraint, _, _) =>
      var c: Option<Node> := None;
      if constraint.Some? {
        c := TransformNode(constraint.value, VariableParent);
        if c.Some? && c.value.String? {
          return c;
        }
      }
      r := Some(Param(Some(name), c));
    case RegExp(_, _, _, _) =>
      if parent == VariableParent {
        return None;
      }
      r := Some(Param(None, None));
    case Path(children, absolute, _, _) =>
      var cs := CollectChildren(children, if absolute then [String("/")] else [], true);
      r := Collapse(cs);
    case Segment(children, _, _) =>
      var cs := CollectChildren(children, if parent == PathParent(false) then [String("/")] else [], false);
      r := Collapse(cs);
    case Alt(children, _, _) =>
      var cs := CollectBranches(children);
      r := if |cs| == 0 then None else if |cs| == 1 then Some(cs[0]) else Some(Select(cs));
  }

  method CollectChildren(kids: seq<P.Node>, lead: seq<Node>, inPath: bool) returns (children: seq<Node>)
    ensures children == Collect(kids, lead, inPath)
    decreases kids, 1
  {
    children := lead;
    var i := 0;
    while i < |kids|
      invariant 0 <= i <= |kids|
      invariant children == Collect(kids[..i], lead, inPath)
    {
      var prefix := kids[..i + 1];
      assert prefix[..i] == kids[..i];
      assert ChildParent(prefix, i, inPath) == ChildParent(kids, i, inPath) by {
        assert prefix[i] == kids[i];
      }
      var compilerNode := TransformNode(kids[i], ChildParent(kids, i, inPath));
      if compilerNode.None? {
        i := i + 1;
        continue;
      }
      var c := compilerNode.value;
      var n := |children|;
      if c.String? && n > 0 && children[n - 1].String? {
        children := children[..n - 1] + [String(children[n - 1].value + c.value)];
      } else if c.Concat? {
        if |c.children| > 0 && c.children[0].String? && n > 0 && children[n - 1].String? {
          children := children[..n - 1] + [String(children[n - 1].value + c.children[0].value)] + c.children[1..];
        } else {
          children := children + c.children;
        }
      } else {
        children := children + [c];
      }
      i := i + 1;
    }
    assert kids[..|kids|] == kids;
  }

  /** The alternation loop, which breaks once the last branch collected is a string. */
  method CollectBranches(kids: seq<P.Node>) returns (children: seq<Node>)
    ensures children == Branches(kids).children
    decreases kids, 1
  {
    children := [];
    var i := 0;
    while i < |kids|
      invariant 0 <= i <= |kids|
      invariant Branches(kids[..i]) == AltState(children, false)
    {
      assert kids[..i + 1][..i] == kids[..i];
      var compilerNode := TransformNode(kids[i], OtherParent);
      if compilerNode.None? {
        i := i + 1;
        continue;
      }
      if compilerNode.value.Select? {
        children := children + compilerNode.value.children;
      } else {
        children := children + [compilerNode.value];
      }
      if |children| > 0 && children[|children| - 1].String? {
        BranchesStop(kids[..i + 1], kids[i + 1..]);
        assert kids[..i + 1] + kids[i + 1..] == kids;
        return;
      }
      i := i + 1;
    }
    assert kids[..|kids|] == kids;
  }
}

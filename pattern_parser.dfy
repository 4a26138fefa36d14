/**
 * The parser's mutable state, as `parsePattern` keeps it in local variables
 * and `createPatternParser` in its closure: the tree of nodes being built
 * (an arena of cells), the cursor `parentNode` and the counter `altDepth`.
 * Every handler updates that state in place and is proved to leave exactly
 * the state the step function of `ParsePattern` computes.
 */
module PatternParser {
  import opened Wrappers
  import Tokenizer
  import PatternAst
  import opened ParsePattern

  /** `setEnd` from a cell just appended whose `end` already is `e` is `setEnd` from its owner. */
  lemma SetEndFromNew(cells: seq<Cell>, p: nat, c: Cell)
    requires ParentsBelow(cells) && p < |cells| && cells[p].CanAdopt()
    requires c.parent == Some(p) && c.WithEnd(c.end) == c
    ensures SetEnd(Attach(cells, p, c), |cells|, c.end) == AppendTo(cells, p, c)
  {
    var a := Attach(cells, p, c);
    assert a[|cells| := a[|cells|].WithEnd(c.end)] == a;
  }

  /** `variable` as the close of a variable at the cursor, then `pushNode` of the new variable, which becomes the cursor. */
  lemma {:induction false} OnVariableSteps(s: State, name: string, start: nat, end: nat, s': State)
    requires Valid(s)
    requires var s1 := CloseVariable(s); var pushed := ParsePattern.PushNode(s1, VariableCell(Some(s1.cursor), start, end, name, None)).value;
      s' == State(pushed.0.cells, pushed.1, pushed.0.altDepth)
    ensures ParsePattern.OnVariable(s, name, start, end) == s'
  {
  }

  /** `altStart` as `pushNode` of the ALT, with the depth raised, and then its first branch. */
  lemma {:induction false} OnAltStartSteps(s: State, start: nat, end: nat, s': State, k: nat)
    requires Valid(s)
    requires var pushed := ParsePattern.PushNode(State(s.cells, s.cursor, s.altDepth + 1), AltCell(Some(s.cursor), start, end, [])).value;
      s' == pushed.0 && k == pushed.1
    requires Tree(s'.cells) && k < |s'.cells| && s'.cells[k].AltCell?
    ensures ParsePattern.OnAltStart(s, start, end) == FirstBranch(s', k, end)
  {
  }

  /** `pushNode` of an ALT leaves a tree whose new cell is that ALT. */
  lemma {:induction false} PushedAlt(s: State, node: Cell)
    requires Valid(s) && Pushable(node) && node.parent == Some(s.cursor) && node.AltCell?
    ensures var r := ParsePattern.PushNode(s, node).value;
      Tree(r.0.cells) && r.1 < |r.0.cells| && r.0.cells[r.1].AltCell?
  {
  }

  /** `altEnd` as the walk to the nearest ALT, `setEnd` from it, and its parent as the cursor. */
  lemma {:induction false} OnAltEndSteps(s: State, start: nat, end: nat, s': State)
    requires Valid(s) && NearestAlt(s.cells, s.cursor).Some?
    requires var a := NearestAlt(s.cells, s.cursor).value;
      a > 0 && s.cells[a].parent.Some? && s' == State(SetEnd(s.cells, a, end), s.cells[a].parent.value, s.altDepth - 1)
    ensures ParsePattern.OnAltEnd(s, start, end) == Success(s')
  {
  }

  /** `altSeparator` as the walk to the nearest ALT and a new branch appended there. */
  lemma {:induction false} OnAltSeparatorSteps(s: State, start: nat, end: nat, s': State)
    requires Valid(s) && NearestAlt(s.cells, s.cursor).Some?
    requires var a := NearestAlt(s.cells, s.cursor).value;
      s' == State(AppendTo(s.cells, a, PathCell(Some(a), end, end, [], false)), |s.cells|, s.altDepth)
    ensures ParsePattern.OnAltSeparator(s, start, end) == Success(s')
  {
  }

  /** `pathSeparator` as the walk to the nearest PATH, the absolute flag, and a new SEGMENT appended there. */
  lemma {:induction false} OnPathSeparatorSteps(s: State, start: nat, end: nat, s': State)
    requires Valid(s)
    requires var p := NearestPath(s.cells, s.cursor);
      s' == State(AppendTo(MarkAbsolute(s.cells, p, start), p, SegmentCell(Some(p), start, end, [])), |s.cells|, s.altDepth)
    ensures ParsePattern.OnPathSeparator(s, start, end) == s'
  {
  }

  class Parser {
    /** The nodes built so far; cell 0 is the root PATH. */
    var cells: seq<Cell>
    /** `parentNode`: the cell new nodes go into. */
    var cursor: nat
    var altDepth: int
    /**
     * Whether variable events reach the variable handler. `parsePattern`
     * registers it as `variable`; `createPatternParser` registers it as
     * `param`, a key the tokenizer never calls.
     */
    const handlesVariables: bool

    function Snapshot(): State
      reads this
    {
      State(cells, cursor, altDepth)
    }

    constructor (handlesVariables: bool)
      ensures Snapshot() == Init && this.handlesVariables == handlesVariables
    {
      this.handlesVariables := handlesVariables;
      cells := [Root];
      cursor := 0;
      altDepth := 0;
    }

    /** `setEnd(end)`: the loop up the parent links from the cursor. */
    method SetEndAtCursor(e: nat)
      requires ParentsBelow(cells) && cursor < |cells|
      modifies this`cells
      ensures cells == SetEnd(old(cells), cursor, e)
    {
      var node: Option<nat> := Some(cursor);
      while node.Some?
        invariant ParentsBelow(cells) && |cells| == |old(cells)|
        invariant node.Some? ==> node.value < |cells| && SetEnd(cells, node.value, e) == SetEnd(old(cells), cursor, e)
        invariant node.None? ==> cells == SetEnd(old(cells), cursor, e)
        decreases if node.Some? then node.value + 1 else 0
      {
        var m := node.value;
        cells := cells[m := cells[m].WithEnd(e)];
        node := cells[m].parent;
      }
    }

    /** `pushNode(node)`; returns the arena index `node` gets. */
    method PushNode(ghost s: State, node: Cell) returns (k: nat)
      requires Valid(s) && Snapshot() == s && Pushable(node) && node.parent == Some(cursor)
      requires node.VariableCell? ==> !cells[cursor].VariableCell?
      modifies this`cells, this`cursor
      ensures var r := ParsePattern.PushNode(s, node).value;
        Snapshot() == r.0 && k == r.1
    {
      var cur := cells[cursor];
      if cur.VariableCell? && cur.constraint.Some? {
        k := PushSibling(s, node);
      } else if cur.VariableCell? {
        k := PushConstraint(s, node);
      } else if cur.PathCell? {
        k := PushSegment(s, node);
      } else {
        // The cursor is a SEGMENT: `die('Unexpected syntax')` is never reached.
        k := PushChild(s, node);
      }
    }

    /** `pushNode` at a variable that already has its constraint: `node` becomes its sibling. */
    method PushSibling(ghost s: State, node: Cell) returns (k: nat)
      requires Valid(s) && Snapshot() == s && Pushable(node) && node.parent == Some(cursor) && !node.VariableCell?
      requires cells[cursor].VariableCell? && cells[cursor].constraint.Some?
      modifies this`cells, this`cursor
      ensures var r := ParsePattern.PushNode(s, node).value;
        Snapshot() == r.0 && k == r.1
    {
      assert cursor > 0;
      PushNodeIntoParent(s, node);
      cursor := cells[cursor].parent.value;
      ghost var s1 := Snapshot();
      assert s1 == State(s.cells, s.cells[s.cursor].parent.value, s.altDepth);
      k := PushIntoSegment(node);
    }

    /** `pushNode` at a variable with no constraint. */
    method PushConstraint(ghost s: State, node: Cell) returns (k: nat)
      requires Valid(s) && Snapshot() == s && Pushable(node) && node.parent == Some(cursor) && !node.VariableCell?
      requires cells[cursor].VariableCell? && cells[cursor].constraint.None?
      modifies this`cells, this`cursor
      ensures var r := ParsePattern.PushNode(s, node).value;
        Snapshot() == r.0 && k == r.1
    {
      assert cursor > 0;
      PushNodeIntoVariable(s, node);
      k := Constrain(node);
    }

    /** `pushNode` at a PATH. */
    method PushSegment(ghost s: State, node: Cell) returns (k: nat)
      requires Valid(s) && Snapshot() == s && Pushable(node) && node.parent == Some(cursor)
      requires cells[cursor].PathCell?
      modifies this`cells, this`cursor
      ensures var r := ParsePattern.PushNode(s, node).value;
        Snapshot() == r.0 && k == r.1
    {
      PushNodeIntoPath(s, node);
      k := PushIntoPath(node);
    }

    /** `pushNode` at a SEGMENT. */
    method PushChild(ghost s: State, node: Cell) returns (k: nat)
      requires Valid(s) && Snapshot() == s && Pushable(node) && node.parent == Some(cursor)
      requires cells[cursor].SegmentCell?
      modifies this`cells, this`cursor
      ensures var r := ParsePattern.PushNode(s, node).value;
        Snapshot() == r.0 && k == r.1
    {
      PushNodeIntoSegment(s, node);
      k := PushIntoSegment(node);
    }

    /** `node` becomes the constraint of the variable at the cursor, whose parent becomes the cursor. */
    method Constrain(node: Cell) returns (k: nat)
      requires ParentsBelow(cells) && 0 < cursor < |cells| && cells[cursor].VariableCell? && cells[cursor].constraint.None?
      requires cells[cursor].parent.Some? && node.parent == Some(cursor)
      modifies this`cells, this`cursor
      ensures cells == AppendTo(old(cells), old(cursor), node) && cursor == old(cells)[old(cursor)].parent.value
      ensures k == |old(cells)|
    {
      var cur := cells[cursor];
      k := AppendAtCursor(node);
      cursor := cur.parent.value;
    }

    /** A new SEGMENT holding `node` goes into the PATH at the cursor and becomes the cursor. */
    method PushIntoPath(node: Cell) returns (k: nat)
      requires ParentsBelow(cells) && cursor < |cells| && cells[cursor].PathCell? && node.parent.Some?
      modifies this`cells, this`cursor
      ensures cells == OpenSegment(old(cells), old(cursor), node) && cursor == |old(cells)| && k == |old(cells)| + 1
    {
      var p := cursor;
      if |cells[p].children| == 0 {
        cells := cells[p := cells[p].WithStart(node.start)];
      }
      var n := |cells|;
      cells := cells[p := cells[p].Adopt(n)] + [SegmentCell(Some(p), node.start, 0, [])];
      cursor := n;
      k := AppendAtCursor(node.WithParent(n));
    }

    /** `node` goes into the SEGMENT at the cursor. */
    method PushIntoSegment(node: Cell) returns (k: nat)
      requires ParentsBelow(cells) && cursor < |cells| && cells[cursor].SegmentCell?
      requires node.parent.Some? && node.parent.value < |cells|
      modifies this`cells
      ensures cells == AppendTo(old(cells), cursor, node) && k == |old(cells)|
    {
      k := AppendAtCursor(node);
    }

    /** Appends `c` to the cursor's children (or as its constraint), then `setEnd(c.end)`. */
    method AppendAtCursor(c: Cell) returns (k: nat)
      requires ParentsBelow(cells) && cursor < |cells| && cells[cursor].CanAdopt()
      requires c.parent.Some? && c.parent.value < |cells|
      modifies this`cells
      ensures k == |old(cells)| && cells == AppendTo(old(cells), cursor, c)
    {
      k := |cells|;
      cells := cells[cursor := cells[cursor].Adopt(k)] + [c];
      SetEndAtCursor(c.end);
    }

    /** `variable(name, start, end)`. */
    method OnVariable(ghost s: State, name: string, start: nat, end: nat)
      requires Valid(s) && Snapshot() == s
      modifies this`cells, this`cursor
      ensures Snapshot() == ParsePattern.OnVariable(s, name, start, end)
    {
      if cells[cursor].VariableCell? {
        assert cursor > 0;
        cursor := cells[cursor].parent.value;
      }
      ghost var s1 := Snapshot();
      assert s1 == CloseVariable(s);
      var k := PushNode(s1, VariableCell(Some(cursor), start, end, name, None));
      cursor := k;
      ghost var s2 := Snapshot();
      OnVariableSteps(s, name, start, end, s2);
    }

    /** `altStart(start, end)`. */
    method OnAltStart(ghost s: State, start: nat, end: nat)
      requires Valid(s) && Snapshot() == s
      modifies this
      ensures Snapshot() == ParsePattern.OnAltStart(s, start, end)
    {
      altDepth := altDepth + 1;
      ghost var s1 := Snapshot();
      assert s1 == State(s.cells, s.cursor, s.altDepth + 1);
      var node := AltCell(Some(cursor), start, end, []);
      var k := PushNode(s1, node);
      ghost var s2 := Snapshot();
      PushedAlt(s1, node);
      EnterFirstBranch(s2, k, end);
      ghost var s3 := Snapshot();
      OnAltStartSteps(s, start, end, s2, k);
    }

    /** The ALT at `a` gets its first branch, an empty PATH, which becomes the cursor. */
    method EnterFirstBranch(ghost s: State, a: nat, end: nat)
      requires Tree(s.cells) && a < |s.cells| && s.cells[a].AltCell? && Snapshot() == s
      modifies this`cells, this`cursor
      ensures Snapshot() == FirstBranch(s, a, end)
    {
      var n := |cells|;
      cells := cells[a := cells[a].Adopt(n)] + [PathCell(Some(a), end, end, [], false)];
      cursor := n;
    }

    /**
     * `altEnd(start, end)`. On an error the walk has reached the root,
     * which stays the cursor, and nothing else changed.
     */
    method OnAltEnd(ghost s: State, start: nat, end: nat) returns (err: Option<ParseError>)
      requires Valid(s) && Snapshot() == s
      modifies this
      ensures var r := ParsePattern.OnAltEnd(s, start, end);
        && (err.None? <==> r.Success?)
        && (r.Success? ==> Snapshot() == r.value)
        && (r.Failure? ==> err == Some(r.error) && cells == old(cells) && cursor == 0 && altDepth == old(altDepth) - 1)
    {
      altDepth := altDepth - 1;
      var found := WalkToAlt();
      if !found {
        return Some(SyntaxError("Unexpected alternation end", start));
      }
      assert cursor > 0;
      var q := cells[cursor].parent.value;
      SetEndAtCursor(end);
      cursor := q;
      ghost var s1 := Snapshot();
      OnAltEndSteps(s, start, end, s1);
      return None;
    }

    /** `altSeparator(start, end)`; on an error, as for `altEnd`. */
    method OnAltSeparator(ghost s: State, start: nat, end: nat) returns (err: Option<ParseError>)
      requires Valid(s) && Snapshot() == s
      modifies this`cells, this`cursor
      ensures var r := ParsePattern.OnAltSeparator(s, start, end);
        && (err.None? <==> r.Success?)
        && (r.Success? ==> Snapshot() == r.value)
        && (r.Failure? ==> err == Some(r.error) && cells == old(cells) && cursor == 0)
    {
      var found := WalkToAlt();
      if !found {
        return Some(SyntaxError("Unexpected alternation separator", start));
      }
      AppendAndEnter(PathCell(Some(cursor), end, end, [], false));
      ghost var s1 := Snapshot();
      OnAltSeparatorSteps(s, start, end, s1);
      return None;
    }

    /**
     * The cell `c` goes into the cursor's children and becomes the cursor;
     * then `setEnd(c.end)`, which starts at `c` itself.
     */
    method AppendAndEnter(c: Cell)
      requires ParentsBelow(cells) && cursor < |cells| && cells[cursor].CanAdopt()
      requires c.parent == Some(cursor) && c.WithEnd(c.end) == c
      modifies this`cells, this`cursor
      ensures cells == AppendTo(old(cells), old(cursor), c) && cursor == |old(cells)|
    {
      var n := |cells|;
      SetEndFromNew(cells, cursor, c);
      cells := cells[cursor := cells[cursor].Adopt(n)] + [c];
      cursor := n;
      SetEndAtCursor(c.end);
    }

    /** The loop `while (parentNode.nodeType !== ALT) parentNode = parentNode.parent || die(...)`. */
    method WalkToAlt() returns (found: bool)
      requires Tree(cells) && cursor < |cells|
      modifies this`cursor
      ensures found <==> NearestAlt(cells, old(cursor)).Some?
      ensures found ==> cursor == NearestAlt(cells, old(cursor)).value
      ensures !found ==> cursor == 0
    {
      while !cells[cursor].AltCell?
        invariant cursor < |cells| && NearestAlt(cells, cursor) == NearestAlt(cells, old(cursor))
        decreases cursor
      {
        match cells[cursor].parent
        case None =>
          // Only the root has no parent.
          return false;
        case Some(p) =>
          cursor := p;
      }
      return true;
    }

    /** The loop `while (parentNode.nodeType !== PATH) parentNode = parentNode.parent || die()`. */
    method WalkToPath()
      requires Tree(cells) && cursor < |cells|
      modifies this`cursor
      ensures cursor == NearestPath(cells, old(cursor))
    {
      while !cells[cursor].PathCell?
        invariant cursor < |cells| && NearestPath(cells, cursor) == NearestPath(cells, old(cursor))
        decreases cursor
      {
        // The root is a PATH, so `die()` is never reached.
        assert cursor > 0;
        cursor := cells[cursor].parent.value;
      }
    }

    /** `pathSeparator(start, end)`. */
    method OnPathSeparator(ghost s: State, start: nat, end: nat)
      requires Valid(s) && Snapshot() == s
      modifies this`cells, this`cursor
      ensures Snapshot() == ParsePattern.OnPathSeparator(s, start, end)
    {
      WalkToPath();
      MarkAbsoluteAtCursor(start);
      AppendAndEnter(SegmentCell(Some(cursor), start, end, []));
      ghost var s1 := Snapshot();
      OnPathSeparatorSteps(s, start, end, s1);
    }

    /** A PATH at the cursor with no children yet becomes absolute and starts at `start`. */
    method MarkAbsoluteAtCursor(start: nat)
      requires ParentsBelow(cells) && cursor < |cells| && cells[cursor].PathCell?
      modifies this`cells
      ensures cells == MarkAbsolute(old(cells), cursor, start)
    {
      if |cells[cursor].children| == 0 {
        var path := cells[cursor];
        cells := cells[cursor := PathCell(path.parent, start, path.end, [], true)];
      }
    }

    /** `wildcard`, `regExp` and `text`: `pushNode` of a leaf. */
    method OnLeaf(ghost s: State, leaf: Cell)
      requires Valid(s) && Snapshot() == s && Pushable(leaf) && !leaf.VariableCell? && !leaf.AltCell? && leaf.parent == Some(cursor)
      modifies this`cells, this`cursor
      ensures Snapshot() == ParsePattern.OnLeaf(s, leaf)
    {
      var _ := PushNode(s, leaf);
    }

    /** One event, dispatched to its handler; a handler that is not registered ignores it. */
    method Apply(ghost s: State, t: Tokenizer.Token) returns (err: Option<ParseError>)
      requires Valid(s) && Snapshot() == s
      modifies this
      ensures var r := ParsePattern.Apply(s, t, handlesVariables);
        && (err.None? <==> r.Success?)
        && (r.Success? ==> Snapshot() == r.value)
        && (r.Failure? ==> err == Some(r.error))
    {
      if t.AltStart? || t.AltEnd? || t.AltSeparator? {
        err := ApplyAlt(s, t);
      } else {
        ApplyOther(s, t);
        err := None;
      }
    }

    /** The events that open, separate or close an ALT: only the last two can fail. */
    method ApplyAlt(ghost s: State, t: Tokenizer.Token) returns (err: Option<ParseError>)
      requires Valid(s) && Snapshot() == s && (t.AltStart? || t.AltEnd? || t.AltSeparator?)
      modifies this
      ensures var r := ParsePattern.Apply(s, t, handlesVariables);
        && (err.None? <==> r.Success?)
        && (r.Success? ==> Snapshot() == r.value)
        && (r.Failure? ==> err == Some(r.error))
    {
      match t
      case AltStart(start, end) =>
        OnAltStart(s, start, end);
        err := None;
      case AltEnd(start, end) => err := OnAltEnd(s, start, end);
      case AltSeparator(start, end) => err := OnAltSeparator(s, start, end);
    }

    /** The events that never fail. */
    method ApplyOther(ghost s: State, t: Tokenizer.Token)
      requires Valid(s) && Snapshot() == s && !(t.AltStart? || t.AltEnd? || t.AltSeparator?)
      modifies this
      ensures var r := ParsePattern.Apply(s, t, handlesVariables); r.Success? && Snapshot() == r.value
    {
      match t
      case Variable(name, start, end) =>
        if handlesVariables {
          OnVariable(s, name, start, end);
        }
      case PathSeparator(start, end) => OnPathSeparator(s, start, end);
      case Wildcard(greedy, start, end) => OnLeaf(s, WildcardCell(Some(cursor), start, end, greedy));
      case RegExp(pattern, groupCount, start, end) => OnLeaf(s, RegExpCell(Some(cursor), start, end, pattern, groupCount));
      case Text(value, start, end) => OnLeaf(s, TextCell(Some(cursor), start, end, value));
    }

    /**
     * One parse: a fresh root PATH and `altDepth = 0`, the tokenizer's
     * events replayed in order, then the checks on the stop offset and on
     * `altDepth`. Nothing an earlier call left in the fields reaches the
     * result.
     */
    method Parse(str: string) returns (r: Result<PatternAst.Node, ParseError>)
      modifies this
      ensures r == ParsePattern.Parse(str, handlesVariables)
    {
      cells := [Root];
      cursor := 0;
      altDepth := 0;
      InitValid();
      var tokenizer := new Tokenizer.Tokenizer();
      var events, stop := tokenizer.TokenizePattern(str);
      ghost var target := Run(Init, events, handlesVariables);
      var i := 0;
      while i < |events|
        invariant 0 <= i <= |events| && Valid(Snapshot())
        invariant Run(Snapshot(), events[i..], handlesVariables) == target
      {
        assert events[i..][0] == events[i] && events[i..][1..] == events[i + 1..];
        var err := Apply(Snapshot(), events[i]);
        if err.Some? {
          return Failure(err.value);
        }
        i := i + 1;
      }
      if stop != |str| {
        return Failure(SyntaxError("Unexpected syntax", stop));
      }
      if altDepth != 0 {
        return Failure(SyntaxError("Unterminated alternation", stop));
      }
      return Success(ToNode(cells, 0));
    }
  }

  /** `parsePattern(str)`: a parser of its own for one string. */
  method ParsePatternString(str: string) returns (r: Result<PatternAst.Node, ParseError>)
    ensures r == ParsePattern.Parse(str, true)
  {
    var parser := new Parser(true);
    r := parser.Parse(str);
  }
}

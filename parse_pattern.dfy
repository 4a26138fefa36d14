/**
 * The pattern parser: it replays the tokenizer's events against a cursor in
 * a tree of mutable nodes. The nodes live in an arena (`seq<Cell>`), each
 * cell naming its parent and children by index, so that the parser's
 * in-place updates (appending children, setting a constraint, the absolute
 * flag and start of a PATH, and `end` along the ancestor chain) and its
 * parent links, including the ones it leaves stale, are modelled exactly.
 *
 * The pure step functions (`PushNode`, `OnVariable`, ...) are the reference
 * semantics; the class `PatternParser.Parser` runs the same steps in place and is
 * proved equal to them.
 */
module ParsePattern {
  import opened Wrappers
  import Tokenizer
  import PatternAst
  import Strings

  /** A node of the tree being built; `parent` and the children are arena indices. */
  datatype Cell =
    | PathCell(parent: Option<nat>, start: nat, end: nat, children: seq<nat>, absolute: bool)
    | SegmentCell(parent: Option<nat>, start: nat, end: nat, children: seq<nat>)
    | AltCell(parent: Option<nat>, start: nat, end: nat, children: seq<nat>)
    | VariableCell(parent: Option<nat>, start: nat, end: nat, name: string, constraint: Option<nat>)
    | WildcardCell(parent: Option<nat>, start: nat, end: nat, greedy: bool)
    | RegExpCell(parent: Option<nat>, start: nat, end: nat, pattern: string, groupCount: nat)
    | TextCell(parent: Option<nat>, start: nat, end: nat, value: string)
  {
    predicate HasChildren() {
      PathCell? || SegmentCell? || AltCell?
    }

    function Kind(): Kind {
      if PathCell? then PathKind
      else if SegmentCell? then SegmentKind
      else if AltCell? then AltKind
      else if VariableCell? then VariableKind
      else LeafKind
    }

    /** The cells this one owns: its children, or a variable's constraint. */
    function Refs(): seq<nat> {
      if HasChildren() then children
      else if VariableCell? && constraint.Some? then [constraint.value]
      else []
    }

    /** A container, or a variable that has no constraint yet. */
    predicate CanAdopt() {
      HasChildren() || (VariableCell? && constraint.None?)
    }

    /** The cell with `n` appended to its children, or taken as its constraint. */
    function Adopt(n: nat): (r: Cell)
      requires CanAdopt()
      ensures r.Kind() == Kind() && r.parent == parent && r.Refs() == Refs() + [n]
      ensures r.start == start && r.end == end && r.IsCursor() == IsCursor()
      ensures HasChildren() ==> r.children == children + [n]
      ensures PathCell? ==> r.absolute == absolute
    {
      if PathCell? then PathCell(parent, start, end, children + [n], absolute)
      else if SegmentCell? then SegmentCell(parent, start, end, children + [n])
      else if AltCell? then AltCell(parent, start, end, children + [n])
      else VariableCell(parent, start, end, name, Some(n))
    }

    function WithStart(st: nat): (r: Cell)
      ensures r.Kind() == Kind() && r.parent == parent && r.Refs() == Refs() && r.CanAdopt() == CanAdopt()
      ensures r.start == st && r.end == end && (PathCell? ==> r.absolute == absolute)
    {
      match this
      case PathCell(parent, _, end, children, absolute) => PathCell(parent, st, end, children, absolute)
      case SegmentCell(parent, _, end, children) => SegmentCell(parent, st, end, children)
      case AltCell(parent, _, end, children) => AltCell(parent, st, end, children)
      case VariableCell(parent, _, end, name, constraint) => VariableCell(parent, st, end, name, constraint)
      case WildcardCell(parent, _, end, greedy) => WildcardCell(parent, st, end, greedy)
      case RegExpCell(parent, _, end, pattern, groupCount) => RegExpCell(parent, st, end, pattern, groupCount)
      case TextCell(parent, _, end, value) => TextCell(parent, st, end, value)
    }

    function WithEnd(e: nat): (r: Cell)
      ensures r.Kind() == Kind() && r.parent == parent && r.Refs() == Refs() && r.CanAdopt() == CanAdopt()
      ensures r.end == e && r.start == start && r.IsCursor() == IsCursor()
      ensures HasChildren() ==> r.children == children
      ensures PathCell? ==> r.absolute == absolute
    {
      match this
      case PathCell(parent, start, _, children, absolute) => PathCell(parent, start, e, children, absolute)
      case SegmentCell(parent, start, _, children) => SegmentCell(parent, start, e, children)
      case AltCell(parent, start, _, children) => AltCell(parent, start, e, children)
      case VariableCell(parent, start, _, name, constraint) => VariableCell(parent, start, e, name, constraint)
      case WildcardCell(parent, start, _, greedy) => WildcardCell(parent, start, e, greedy)
      case RegExpCell(parent, start, _, pattern, groupCount) => RegExpCell(parent, start, e, pattern, groupCount)
      case TextCell(parent, start, _, value) => TextCell(parent, start, e, value)
    }

    function WithParent(p: nat): (r: Cell)
      ensures r.Kind() == Kind() && r.parent == Some(p) && r.Refs() == Refs() && r.CanAdopt() == CanAdopt()
      ensures r.start == start && r.end == end && (PathCell? ==> r.absolute == absolute)
    {
      match this
      case PathCell(_, start, end, children, absolute) => PathCell(Some(p), start, end, children, absolute)
      case SegmentCell(_, start, end, children) => SegmentCell(Some(p), start, end, children)
      case AltCell(_, start, end, children) => AltCell(Some(p), start, end, children)
      case VariableCell(_, start, end, name, constraint) => VariableCell(Some(p), start, end, name, constraint)
      case WildcardCell(_, start, end, greedy) => WildcardCell(Some(p), start, end, greedy)
      case RegExpCell(_, start, end, pattern, groupCount) => RegExpCell(Some(p), start, end, pattern, groupCount)
      case TextCell(_, start, end, value) => TextCell(Some(p), start, end, value)
    }

    /** The cell without its `end` and without what it owns. */
    function Bare(): Cell {
      match this
      case PathCell(parent, start, _, _, absolute) => PathCell(parent, start, 0, [], absolute)
      case SegmentCell(parent, start, _, _) => SegmentCell(parent, start, 0, [])
      case AltCell(parent, start, _, _) => AltCell(parent, start, 0, [])
      case VariableCell(parent, start, _, name, _) => VariableCell(parent, start, 0, name, None)
      case WildcardCell(parent, start, _, greedy) => WildcardCell(parent, start, 0, greedy)
      case RegExpCell(parent, start, _, pattern, groupCount) => RegExpCell(parent, start, 0, pattern, groupCount)
      case TextCell(parent, start, _, value) => TextCell(parent, start, 0, value)
    }

    /** The kinds of node the cursor `parentNode` can point at. */
    predicate IsCursor() {
      PathCell? || SegmentCell? || VariableCell?
    }
  }

  datatype Kind = PathKind | SegmentKind | AltKind | VariableKind | LeafKind

  /** The kind of parent link the parser gives a node of kind `child`. */
  predicate ParentOk(parent: Kind, child: Kind) {
    match child
    case PathKind => parent == AltKind
    case SegmentKind => parent == PathKind
    case VariableKind => parent == SegmentKind
    case _ => parent == SegmentKind || parent == VariableKind
  }

  /** The kinds of node a node of kind `owner` holds as children or as its constraint. */
  predicate RefOk(owner: Kind, child: Kind) {
    match owner
    case PathKind => child == SegmentKind
    case AltKind => child == PathKind
    case SegmentKind => child != PathKind && child != SegmentKind
    case VariableKind => child == AltKind || child == LeafKind
    case LeafKind => false
  }

  /** The parser's mutable state: the arena, the cursor `parentNode` and `altDepth`. */
  datatype State = State(cells: seq<Cell>, cursor: nat, altDepth: int)

  /** `die(message, offset)`: a `SyntaxError` whose text is `message + ' at ' + offset`. */
  datatype ParseError = SyntaxError(message: string, offset: nat)
  {
    function Text(): string {
      message + " at " + Strings.NatToString(offset)
    }
  }

  const Root: Cell := PathCell(None, 0, 0, [], false)
  const Init: State := State([Root], 0, 0)

  // ---------------------------------------------------------------------
  // Shape of the arena

  predicate ParentsBelow(cells: seq<Cell>) {
    forall k :: 0 <= k < |cells| && cells[k].parent.Some? ==> cells[k].parent.value < k
  }

  /** The arena is a tree rooted at cell 0, with the links the parser creates. */
  predicate Tree(cells: seq<Cell>) {
    && |cells| > 0
    && cells[0].PathCell? && cells[0].parent.None?
    && ParentsBelow(cells)
    && (forall k :: 0 < k < |cells| ==>
          cells[k].parent.Some? && ParentOk(cells[cells[k].parent.value].Kind(), cells[k].Kind()))
    && (forall k, j :: 0 <= k < |cells| && 0 <= j < |cells[k].Refs()| ==>
          k < cells[k].Refs()[j] < |cells| && RefOk(cells[k].Kind(), cells[cells[k].Refs()[j]].Kind()))
  }

  predicate Valid(s: State) {
    Tree(s.cells) && s.cursor < |s.cells| && s.cells[s.cursor].IsCursor()
  }

  /** Every ALT has at least one PATH branch. */
  predicate AltsNonEmpty(cells: seq<Cell>) {
    forall k :: 0 <= k < |cells| && cells[k].AltCell? ==> |cells[k].children| > 0
  }

  /** Every cell `b` adds to `a` that is an ALT, except perhaps `k`, has a branch. */
  predicate NewAltsBranched(a: seq<Cell>, b: seq<Cell>, k: int) {
    forall m :: |a| <= m < |b| && m != k && b[m].AltCell? ==> |b[m].children| > 0
  }

  /** The two arenas have the same kinds of cell with the same links. */
  predicate SameLinks(a: seq<Cell>, b: seq<Cell>) {
    |a| == |b| &&
    forall m :: 0 <= m < |a| ==> a[m].Kind() == b[m].Kind() && a[m].parent == b[m].parent && a[m].Refs() == b[m].Refs()
  }

  /** `cells` with `c` appended as a new cell, adopted by cell `p`. */
  function Attach(cells: seq<Cell>, p: nat, c: Cell): (r: seq<Cell>)
    requires ParentsBelow(cells) && p < |cells| && cells[p].CanAdopt()
    requires c.parent.Some? && c.parent.value < |cells|
    ensures |r| == |cells| + 1 && r[|cells|] == c && ParentsBelow(r)
  {
    cells[p := cells[p].Adopt(|cells|)] + [c]
  }

  /** A cell a handler creates and hands to `pushNode`. */
  predicate Pushable(node: Cell) {
    !node.PathCell? && !node.SegmentCell? && node.Refs() == []
  }

  // ---------------------------------------------------------------------
  // Walking up the parent links

  /** The cell `k` and all its ancestors. */
  function Chain(cells: seq<Cell>, k: nat): (r: set<nat>)
    requires ParentsBelow(cells) && k < |cells|
    ensures k in r && forall m :: m in r ==> m <= k
    decreases k
  {
    match cells[k].parent
    case None => {k}
    case Some(p) => {k} + Chain(cells, p)
  }

  /** The nearest ALT at or above `k`, found by following parent links. */
  function NearestAlt(cells: seq<Cell>, k: nat): (r: Option<nat>)
    requires ParentsBelow(cells) && k < |cells|
    ensures r.Some? ==> r.value <= k && cells[r.value].AltCell? && r.value in Chain(cells, k)
    decreases k
  {
    if cells[k].AltCell? then Some(k)
    else match cells[k].parent
      case None => None
      case Some(p) => NearestAlt(cells, p)
  }

  /** The nearest PATH at or above `k`; the root is one, so there always is one. */
  function NearestPath(cells: seq<Cell>, k: nat): (r: nat)
    requires Tree(cells) && k < |cells|
    ensures r <= k && cells[r].PathCell? && r in Chain(cells, k)
    decreases k
  {
    if cells[k].PathCell? then k else NearestPath(cells, cells[k].parent.value)
  }

  lemma {:induction false} ChainSameParents(a: seq<Cell>, b: seq<Cell>, k: nat)
    requires ParentsBelow(a) && |a| == |b| && k < |a|
    requires forall m :: 0 <= m < |a| ==> a[m].parent == b[m].parent
    ensures ParentsBelow(b) && Chain(a, k) == Chain(b, k)
    decreases k
  {
    if a[k].parent.Some? {
      ChainSameParents(a, b, a[k].parent.value);
    }
  }

  /** `setEnd(end)` from cell `k`: exactly `k` and its ancestors get `end == e`. */
  function SetEnd(cells: seq<Cell>, k: nat, e: nat): (r: seq<Cell>)
    requires ParentsBelow(cells) && k < |cells|
    ensures |r| == |cells| && ParentsBelow(r)
    ensures forall m :: 0 <= m < |cells| ==>
      r[m] == if m in Chain(cells, k) then cells[m].WithEnd(e) else cells[m]
    decreases k
  {
    var updated := cells[k := cells[k].WithEnd(e)];
    match cells[k].parent
    case None => updated
    case Some(p) =>
      ChainSameParents(cells, updated, p);
      SetEnd(updated, p, e)
  }

  // ---------------------------------------------------------------------
  // Appending a cell and setting ends keep the arena a tree

  lemma {:induction false} LinksTree(a: seq<Cell>, b: seq<Cell>)
    requires SameLinks(a, b) && Tree(a)
    ensures Tree(b)
  {
    assert b[0].Kind() == a[0].Kind();
    forall k | 0 < k < |b|
      ensures b[k].parent.Some? && ParentOk(b[b[k].parent.value].Kind(), b[k].Kind())
    {
      assert a[k].parent.value < k;
    }
  }

  lemma {:induction false} SetEndLinks(cells: seq<Cell>, k: nat, e: nat)
    requires ParentsBelow(cells) && k < |cells|
    ensures SameLinks(cells, SetEnd(cells, k, e))
  {
  }

  lemma {:induction false} SetEndTree(cells: seq<Cell>, k: nat, e: nat)
    requires Tree(cells) && k < |cells|
    ensures Tree(SetEnd(cells, k, e))
  {
    SetEndLinks(cells, k, e);
    LinksTree(cells, SetEnd(cells, k, e));
  }

  lemma {:induction false} AttachTree(cells: seq<Cell>, p: nat, c: Cell)
    requires Tree(cells) && p < |cells| && cells[p].CanAdopt()
    requires c.Refs() == [] && c.parent.Some? && c.parent.value < |cells|
    requires ParentOk(cells[c.parent.value].Kind(), c.Kind()) && RefOk(cells[p].Kind(), c.Kind())
    ensures Tree(Attach(cells, p, c))
  {
    AttachParents(cells, p, c);
    AttachRefs(cells, p, c);
  }

  lemma {:induction false} AttachParents(cells: seq<Cell>, p: nat, c: Cell)
    requires Tree(cells) && p < |cells| && cells[p].CanAdopt()
    requires c.parent.Some? && c.parent.value < |cells|
    requires ParentOk(cells[c.parent.value].Kind(), c.Kind())
    ensures var r := Attach(cells, p, c);
      forall k :: 0 < k < |r| ==> r[k].parent.Some? && ParentOk(r[r[k].parent.value].Kind(), r[k].Kind())
  {
    var r := Attach(cells, p, c);
    var n := |cells|;
    forall k | 0 < k < |r|
      ensures r[k].parent.Some? && ParentOk(r[r[k].parent.value].Kind(), r[k].Kind())
    {
      if k < n {
        assert r[k].parent == cells[k].parent && r[k].Kind() == cells[k].Kind();
        assert r[cells[k].parent.value].Kind() == cells[cells[k].parent.value].Kind();
      } else {
        assert r[c.parent.value].Kind() == cells[c.parent.value].Kind();
      }
    }
  }

  lemma {:induction false} AttachRefs(cells: seq<Cell>, p: nat, c: Cell)
    requires Tree(cells) && p < |cells| && cells[p].CanAdopt()
    requires c.Refs() == [] && c.parent.Some? && c.parent.value < |cells|
    requires RefOk(cells[p].Kind(), c.Kind())
    ensures var r := Attach(cells, p, c);
      forall k, j :: 0 <= k < |r| && 0 <= j < |r[k].Refs()| ==>
        k < r[k].Refs()[j] < |r| && RefOk(r[k].Kind(), r[r[k].Refs()[j]].Kind())
  {
    var r := Attach(cells, p, c);
    var n := |cells|;
    forall k, j | 0 <= k < |r| && 0 <= j < |r[k].Refs()|
      ensures k < r[k].Refs()[j] < |r| && RefOk(r[k].Kind(), r[r[k].Refs()[j]].Kind())
    {
      if k == p {
        assert r[k].Refs() == cells[k].Refs() + [n];
        if j < |cells[k].Refs()| {
          var q := cells[k].Refs()[j];
          assert r[k].Refs()[j] == q && q < n;
          assert r[q].Kind() == cells[q].Kind();
        } else {
          assert r[k].Refs()[j] == n;
        }
      } else {
        assert k < n && r[k] == cells[k];
        var q := cells[k].Refs()[j];
        assert r[q].Kind() == cells[q].Kind();
      }
    }
  }

  // ---------------------------------------------------------------------
  // The parser only ever adds to the tree

  /**
   * `y` is `x` after parser steps: what `x` owns is only appended to, and
   * apart from that and its `end` the cell is unchanged, except that an
   * empty PATH may get a new `start` and the absolute flag. An ALT gets new
   * branches only when `branched`.
   */
  predicate CellGrows(x: Cell, y: Cell, branched: bool) {
    && y.Kind() == x.Kind() && y.parent == x.parent
    && |x.Refs()| <= |y.Refs()| && y.Refs()[..|x.Refs()|] == x.Refs()
    && ((x.PathCell? && |x.children| == 0) || y.Bare() == x.Bare())
    && (x.AltCell? && !branched ==> y.children == x.children)
    && (x.PathCell? && x.absolute ==> y.absolute)
  }

  /** Cells of `a` keep growing in `b`; only the ALTs in `branched` get new branches. */
  predicate Grows(a: seq<Cell>, b: seq<Cell>, branched: set<nat>) {
    |a| <= |b| && forall m :: 0 <= m < |a| ==> CellGrows(a[m], b[m], m in branched)
  }

  lemma {:induction false} GrowsRefl(a: seq<Cell>)
    ensures Grows(a, a, {})
  {
    forall m | 0 <= m < |a|
      ensures CellGrows(a[m], a[m], false)
    {
      assert a[m].Refs()[..|a[m].Refs()|] == a[m].Refs();
    }
  }

  lemma {:induction false} GrowsTrans(a: seq<Cell>, b: seq<Cell>, c: seq<Cell>, x: set<nat>, y: set<nat>)
    requires Grows(a, b, x) && Grows(b, c, y)
    ensures Grows(a, c, x + y)
  {
    forall m | 0 <= m < |a|
      ensures CellGrows(a[m], c[m], m in x + y)
    {
      var r1, r2, r3 := a[m].Refs(), b[m].Refs(), c[m].Refs();
      assert r3[..|r1|] == r3[..|r2|][..|r1|];
    }
  }

  lemma {:induction false} SetEndGrows(cells: seq<Cell>, k: nat, e: nat)
    requires ParentsBelow(cells) && k < |cells|
    ensures Grows(cells, SetEnd(cells, k, e), {})
  {
    var r := SetEnd(cells, k, e);
    forall m | 0 <= m < |cells|
      ensures CellGrows(cells[m], r[m], false)
    {
      assert r[m].Refs()[..|cells[m].Refs()|] == r[m].Refs();
    }
  }

  lemma {:induction false} AttachGrows(cells: seq<Cell>, p: nat, c: Cell)
    requires ParentsBelow(cells) && p < |cells| && cells[p].CanAdopt()
    requires c.parent.Some? && c.parent.value < |cells|
    ensures Grows(cells, Attach(cells, p, c), if cells[p].AltCell? then {p} else {})
  {
    var r := Attach(cells, p, c);
    forall m | 0 <= m < |cells|
      ensures CellGrows(cells[m], r[m], m in (if cells[p].AltCell? then {p} else {}))
    {
      if m == p {
        assert r[m].Refs()[..|cells[m].Refs()|] == cells[m].Refs();
      } else {
        assert r[m] == cells[m];
        assert r[m].Refs()[..|cells[m].Refs()|] == r[m].Refs();
      }
    }
  }

  lemma {:induction false} GrowsNarrow(a: seq<Cell>, b: seq<Cell>, x: set<nat>, y: set<nat>)
    requires Grows(a, b, x) && forall m :: m in x && m < |a| ==> m in y
    ensures Grows(a, b, y)
  {
    forall m | 0 <= m < |a|
      ensures CellGrows(a[m], b[m], m in y)
    {
      assert CellGrows(a[m], b[m], m in x);
    }
  }

  /** A PATH that has no children may change anything but its links, and may become absolute. */
  lemma {:induction false} RestartGrows(cells: seq<Cell>, p: nat, c: Cell)
    requires p < |cells| && cells[p].PathCell? && |cells[p].children| == 0
    requires c.PathCell? && c.parent == cells[p].parent && c.children == []
    requires cells[p].absolute ==> c.absolute
    ensures Grows(cells, cells[p := c], {})
  {
    var r := cells[p := c];
    forall m | 0 <= m < |cells|
      ensures CellGrows(cells[m], r[m], false)
    {
      if m != p {
        assert r[m] == cells[m];
        assert r[m].Refs()[..|cells[m].Refs()|] == r[m].Refs();
      }
    }
  }

  // ---------------------------------------------------------------------
  // The handlers; each keeps the state `Valid` and only adds to the tree

  lemma {:induction false} SetEndChain(cells: seq<Cell>, k: nat, e: nat)
    requires ParentsBelow(cells) && k < |cells|
    ensures Chain(SetEnd(cells, k, e), k) == Chain(cells, k)
    ensures forall m :: m in Chain(SetEnd(cells, k, e), k) ==> SetEnd(cells, k, e)[m].end == e
  {
    ChainSameParents(cells, SetEnd(cells, k, e), k);
  }

  /** `c` appended below `p`, then `setEnd(c.end)` from `p`. */
  function AppendTo(cells: seq<Cell>, p: nat, c: Cell): (r: seq<Cell>)
    requires ParentsBelow(cells) && p < |cells| && cells[p].CanAdopt()
    requires c.parent.Some? && c.parent.value < |cells|
    ensures |r| == |cells| + 1 && ParentsBelow(r)
  {
    SetEnd(Attach(cells, p, c), p, c.end)
  }

  lemma {:induction false} AppendToFacts(cells: seq<Cell>, p: nat, c: Cell)
    requires ParentsBelow(cells) && p < |cells| && cells[p].CanAdopt()
    requires c.parent.Some? && c.parent.value < |cells|
    ensures AppendTo(cells, p, c)[|cells|] == c
    ensures AppendTo(cells, p, c)[p] == cells[p].Adopt(|cells|).WithEnd(c.end)
    ensures EndsAt(AppendTo(cells, p, c), p, c.end)
  {
    var a := Attach(cells, p, c);
    SetEndChain(a, p, c.end);
    assert p in Chain(a, p);
  }

  lemma {:induction false} AppendToTree(cells: seq<Cell>, p: nat, c: Cell)
    requires Tree(cells) && p < |cells| && cells[p].CanAdopt()
    requires c.Refs() == [] && c.parent.Some? && c.parent.value < |cells|
    requires ParentOk(cells[c.parent.value].Kind(), c.Kind()) && RefOk(cells[p].Kind(), c.Kind())
    ensures Tree(AppendTo(cells, p, c))
  {
    AttachTree(cells, p, c);
    SetEndTree(Attach(cells, p, c), p, c.end);
  }

  lemma {:induction false} AppendToGrows(cells: seq<Cell>, p: nat, c: Cell)
    requires ParentsBelow(cells) && p < |cells| && cells[p].CanAdopt()
    requires c.parent.Some? && c.parent.value < |cells|
    ensures Grows(cells, AppendTo(cells, p, c), if cells[p].AltCell? then {p} else {})
  {
    var a := Attach(cells, p, c);
    AttachGrows(cells, p, c);
    SetEndGrows(a, p, c.end);
    GrowsTrans(cells, a, SetEnd(a, p, c.end), if cells[p].AltCell? then {p} else {}, {});
    assert (if cells[p].AltCell? then {p} else {}) + {} == if cells[p].AltCell? then {p} else {};
  }

  lemma {:induction false} AppendToPushed(cells: seq<Cell>, p: nat, c: Cell)
    requires Tree(cells) && p < |cells| && cells[p].CanAdopt()
    requires c.Refs() == [] && c.parent.Some? && c.parent.value < |cells|
    requires ParentOk(cells[c.parent.value].Kind(), c.Kind()) && RefOk(cells[p].Kind(), c.Kind())
    ensures Tree(AppendTo(cells, p, c))
    ensures Grows(cells, AppendTo(cells, p, c), if cells[p].AltCell? then {p} else {})
    ensures AppendTo(cells, p, c)[|cells|] == c
    ensures AppendTo(cells, p, c)[p] == cells[p].Adopt(|cells|).WithEnd(c.end)
    ensures EndsAt(AppendTo(cells, p, c), p, c.end)
  {
    AppendToFacts(cells, p, c);
    AppendToTree(cells, p, c);
    AppendToGrows(cells, p, c);
  }

  /** What `pushNode` leaves: a valid tree that grew, with a copy of `node`, possibly re-parented, as the last cell `k`. */
  predicate Pushed(s: State, node: Cell, s': State, k: nat) {
    && Valid(s') && Grows(s.cells, s'.cells, {})
    && |s.cells| <= k && |s'.cells| == k + 1 && k > 0 && s'.altDepth == s.altDepth
    && s'.cells[k].Kind() == node.Kind() && s'.cells[k].Refs() == []
    && s'.cells[k].start == node.start && s'.cells[k].end == node.end
  }

  /** All of `owner` and its ancestors end where `node` ends. */
  predicate EndsAt(cells: seq<Cell>, owner: nat, e: nat)
    requires ParentsBelow(cells) && owner < |cells|
  {
    forall m :: m in Chain(cells, owner) ==> cells[m].end == e
  }

  /** The PATH `p` restarted at `start` when it has no children yet. */
  function Restart(cells: seq<Cell>, p: nat, start: nat): (r: seq<Cell>)
    requires ParentsBelow(cells) && p < |cells| && cells[p].PathCell?
    ensures |r| == |cells| && ParentsBelow(r) && r[p].PathCell?
  {
    if |cells[p].children| == 0 then cells[p := cells[p].WithStart(start)] else cells
  }

  lemma {:induction false} RestartTree(cells: seq<Cell>, p: nat, start: nat)
    requires Tree(cells) && p < |cells| && cells[p].PathCell?
    ensures Tree(Restart(cells, p, start)) && Grows(cells, Restart(cells, p, start), {})
    ensures Restart(cells, p, start)[p].children == cells[p].children
    ensures Restart(cells, p, start)[p].start == if |cells[p].children| == 0 then start else cells[p].start
  {
    var r := Restart(cells, p, start);
    assert SameLinks(cells, r);
    LinksTree(cells, r);
    if |cells[p].children| == 0 {
      RestartGrows(cells, p, cells[p].WithStart(start));
    } else {
      GrowsRefl(cells);
    }
  }

  /**
   * A new SEGMENT holding `c` appended to the PATH `p`, which restarts at
   * `c`'s start when empty; then `setEnd(c.end)` from the SEGMENT.
   */
  function OpenSegment(cells: seq<Cell>, p: nat, c: Cell): (r: seq<Cell>)
    requires ParentsBelow(cells) && p < |cells| && cells[p].PathCell? && c.parent.Some?
    ensures |r| == |cells| + 2 && ParentsBelow(r)
  {
    var n := |cells|;
    var cells1 := Restart(cells, p, c.start);
    var cells2 := Attach(cells1, p, SegmentCell(Some(p), c.start, 0, []));
    AppendTo(cells2, n, c.WithParent(n))
  }

  lemma {:induction false} OpenSegmentTree(cells: seq<Cell>, p: nat, c: Cell)
    requires Tree(cells) && p < |cells| && cells[p].PathCell? && Pushable(c) && c.parent.Some?
    ensures Tree(OpenSegment(cells, p, c))
  {
    var n := |cells|;
    RestartTree(cells, p, c.start);
    var cells1 := Restart(cells, p, c.start);
    var segment := SegmentCell(Some(p), c.start, 0, []);
    AttachTree(cells1, p, segment);
    var cells2 := Attach(cells1, p, segment);
    AppendToTree(cells2, n, c.WithParent(n));
  }

  lemma {:induction false} OpenSegmentGrows(cells: seq<Cell>, p: nat, c: Cell)
    requires Tree(cells) && p < |cells| && cells[p].PathCell? && c.parent.Some?
    ensures Grows(cells, OpenSegment(cells, p, c), {})
  {
    var n := |cells|;
    RestartTree(cells, p, c.start);
    var cells1 := Restart(cells, p, c.start);
    var segment := SegmentCell(Some(p), c.start, 0, []);
    AttachGrows(cells1, p, segment);
    var cells2 := Attach(cells1, p, segment);
    GrowsTrans(cells, cells1, cells2, {}, {});
    AppendToGrows(cells2, n, c.WithParent(n));
    GrowsTrans(cells, cells2, AppendTo(cells2, n, c.WithParent(n)), {}, {});
  }

  lemma {:induction false} OpenSegmentFacts(cells: seq<Cell>, p: nat, c: Cell)
    requires Tree(cells) && p < |cells| && cells[p].PathCell? && c.parent.Some?
    ensures OpenSegment(cells, p, c)[|cells|] == SegmentCell(Some(p), c.start, c.end, [|cells| + 1])
    ensures OpenSegment(cells, p, c)[|cells| + 1] == c.WithParent(|cells|)
    ensures OpenSegment(cells, p, c)[p].children == cells[p].children + [|cells|]
    ensures OpenSegment(cells, p, c)[p].start == if |cells[p].children| == 0 then c.start else cells[p].start
    ensures EndsAt(OpenSegment(cells, p, c), |cells|, c.end)
  {
    OpenSegmentNew(cells, p, c);
    OpenSegmentPath(cells, p, c);
  }

  lemma {:induction false} OpenSegmentNew(cells: seq<Cell>, p: nat, c: Cell)
    requires Tree(cells) && p < |cells| && cells[p].PathCell? && c.parent.Some?
    ensures OpenSegment(cells, p, c)[|cells|] == SegmentCell(Some(p), c.start, c.end, [|cells| + 1])
    ensures OpenSegment(cells, p, c)[|cells| + 1] == c.WithParent(|cells|)
    ensures EndsAt(OpenSegment(cells, p, c), |cells|, c.end)
  {
    var n := |cells|;
    var cells1 := Restart(cells, p, c.start);
    var segment := SegmentCell(Some(p), c.start, 0, []);
    var cells2 := Attach(cells1, p, segment);
    AppendToFacts(cells2, n, c.WithParent(n));
    assert cells2[n] == segment;
  }

  lemma {:induction false} OpenSegmentPath(cells: seq<Cell>, p: nat, c: Cell)
    requires Tree(cells) && p < |cells| && cells[p].PathCell? && c.parent.Some?
    ensures OpenSegment(cells, p, c)[p].children == cells[p].children + [|cells|]
    ensures OpenSegment(cells, p, c)[p].start == if |cells[p].children| == 0 then c.start else cells[p].start
  {
    var n := |cells|;
    RestartTree(cells, p, c.start);
    var cells1 := Restart(cells, p, c.start);
    var segment := SegmentCell(Some(p), c.start, 0, []);
    var cells2 := Attach(cells1, p, segment);
    var r := AppendTo(cells2, n, c.WithParent(n));
    assert p in Chain(cells2, n);
    assert r[p] == cells2[p].WithEnd(c.end);
    assert cells2[p] == cells1[p].Adopt(n);
  }

  /**
   * `pushNode` at a PATH: a new SEGMENT holding `node` is appended to the
   * PATH and becomes the cursor.
   */
  function PushIntoPath(s: State, node: Cell): (r: (State, nat))
    requires Tree(s.cells) && s.cursor < |s.cells| && s.cells[s.cursor].PathCell? && Pushable(node)
    requires node.parent.Some?
    ensures Pushed(s, node, r.0, r.1)
    ensures r.1 == |s.cells| + 1 && r.0.cursor == |s.cells| && r.0.cells == OpenSegment(s.cells, s.cursor, node)
    ensures NewAltsBranched(s.cells, r.0.cells, r.1)
  {
    OpenSegmentPushed(s, node);
    (State(OpenSegment(s.cells, s.cursor, node), |s.cells|, s.altDepth), |s.cells| + 1)
  }

  lemma {:induction false} OpenSegmentPushed(s: State, node: Cell)
    requires Tree(s.cells) && s.cursor < |s.cells| && s.cells[s.cursor].PathCell? && Pushable(node)
    requires node.parent.Some?
    ensures Pushed(s, node, State(OpenSegment(s.cells, s.cursor, node), |s.cells|, s.altDepth), |s.cells| + 1)
    ensures NewAltsBranched(s.cells, OpenSegment(s.cells, s.cursor, node), |s.cells| + 1)
  {
    OpenSegmentTree(s.cells, s.cursor, node);
    OpenSegmentGrows(s.cells, s.cursor, node);
    OpenSegmentNew(s.cells, s.cursor, node);
  }

  /** `pushNode` at a SEGMENT: `node` is appended to it. */
  function PushIntoSegment(s: State, node: Cell): (r: (State, nat))
    requires Tree(s.cells) && s.cursor < |s.cells| && s.cells[s.cursor].SegmentCell? && Pushable(node)
    requires node.parent.Some? && node.parent.value < |s.cells|
    requires ParentOk(s.cells[node.parent.value].Kind(), node.Kind())
    ensures Pushed(s, node, r.0, r.1)
    ensures r.1 == |s.cells| && r.0.cursor == s.cursor && r.0.cells == AppendTo(s.cells, s.cursor, node)
    ensures NewAltsBranched(s.cells, r.0.cells, r.1)
  {
    AppendToPushed(s.cells, s.cursor, node);
    assert !s.cells[s.cursor].AltCell?;
    (State(AppendTo(s.cells, s.cursor, node), s.cursor, s.altDepth), |s.cells|)
  }

  /** `pushNode` at a variable with no constraint: `node` becomes the constraint, the cursor its parent. */
  function Constrain(s: State, node: Cell): (r: (State, nat))
    requires Valid(s) && s.cells[s.cursor].VariableCell? && s.cells[s.cursor].constraint.None?
    requires Pushable(node) && !node.VariableCell? && node.parent == Some(s.cursor)
    ensures Pushed(s, node, r.0, r.1)
    ensures r.1 == |s.cells| && r.0.cursor == s.cells[s.cursor].parent.value
    ensures r.0.cells == AppendTo(s.cells, s.cursor, node)
    ensures NewAltsBranched(s.cells, r.0.cells, r.1)
  {
    var cur := s.cells[s.cursor];
    assert s.cursor > 0 && cur.parent.Some?;
    AppendToPushed(s.cells, s.cursor, node);
    (State(AppendTo(s.cells, s.cursor, node), cur.parent.value, s.altDepth), |s.cells|)
  }

  /** The two branches of `pushNode` that append `node` below the cursor. */
  function PushInto(s: State, node: Cell): (r: Result<(State, nat), ParseError>)
    requires Tree(s.cells) && s.cursor < |s.cells| && Pushable(node)
    requires node.parent.Some? && node.parent.value < |s.cells|
    requires s.cells[s.cursor].SegmentCell? ==> ParentOk(s.cells[node.parent.value].Kind(), node.Kind())
    ensures r.Success? <==> s.cells[s.cursor].PathCell? || s.cells[s.cursor].SegmentCell?
    ensures r.Failure? ==> r.error == SyntaxError("Unexpected syntax", node.start)
  {
    var cur := s.cells[s.cursor];
    if cur.PathCell? then Success(PushIntoPath(s, node))
    else if cur.SegmentCell? then Success(PushIntoSegment(s, node))
    else Failure(SyntaxError("Unexpected syntax", node.start))
  }

  /** The cell `pushNode` appends to: the parent of a constrained variable at the cursor, else the cursor. */
  function PushTarget(s: State): (t: nat)
    requires Valid(s)
    ensures t < |s.cells| && s.cells[t].IsCursor()
    ensures s.cells[t].VariableCell? ==> s.cells[t].constraint.None?
  {
    var cur := s.cells[s.cursor];
    assert s.cursor > 0 ==> cur.parent.Some?;
    if cur.VariableCell? && cur.constraint.Some? then cur.parent.value else s.cursor
  }

  /**
   * `pushNode(node)`: gives the new state and the arena index of `node`.
   * An unconstrained variable at the cursor takes `node` as its constraint;
   * from a constrained one the cursor moves to its parent, which takes
   * `node` as a sibling of the variable. The cursor a handler leaves is
   * never an ALT or a leaf, so the "Unexpected syntax" branch is never taken.
   */
  function PushNode(s: State, node: Cell): (r: Result<(State, nat), ParseError>)
    requires Valid(s) && Pushable(node) && node.parent == Some(s.cursor)
    requires node.VariableCell? ==> !s.cells[s.cursor].VariableCell?
    ensures r.Success? && Pushed(s, node, r.value.0, r.value.1)
    ensures r.value.0.cursor == PushedCursor(s) && NewAltsBranched(s.cells, r.value.0.cells, r.value.1)
    ensures r.value.1 == |s.cells| || r.value.1 == |s.cells| + 1
  {
    var cur := s.cells[s.cursor];
    assert s.cursor > 0 ==> cur.parent.Some?;
    if cur.VariableCell? && cur.constraint.Some? then
      var s1 := State(s.cells, cur.parent.value, s.altDepth);
      assert s.cells[s1.cursor].SegmentCell?;
      Success(PushIntoSegment(s1, node))
    else if cur.VariableCell? then
      Success(Constrain(s, node))
    else if cur.PathCell? then
      Success(PushIntoPath(s, node))
    else
      Success(PushIntoSegment(s, node))
  }

  /** The state `pushNode` leaves, case by case: the sibling of a constrained variable. */
  lemma {:induction false} PushNodeIntoParent(s: State, node: Cell)
    requires Valid(s) && Pushable(node) && node.parent == Some(s.cursor) && !node.VariableCell?
    requires s.cells[s.cursor].VariableCell? && s.cells[s.cursor].constraint.Some?
    ensures var q, r := s.cells[s.cursor].parent.value, PushNode(s, node).value;
      && s.cells[q].SegmentCell?
      && r.0.cells == AppendTo(s.cells, q, node) && r.0.cursor == q && r.0.altDepth == s.altDepth && r.1 == |s.cells|
  {
  }

  /** The constraint of an unconstrained variable. */
  lemma {:induction false} PushNodeIntoVariable(s: State, node: Cell)
    requires Valid(s) && Pushable(node) && node.parent == Some(s.cursor) && !node.VariableCell?
    requires s.cells[s.cursor].VariableCell? && s.cells[s.cursor].constraint.None?
    ensures var r := PushNode(s, node).value;
      && r.0.cells == AppendTo(s.cells, s.cursor, node) && r.0.cursor == s.cells[s.cursor].parent.value
      && r.0.altDepth == s.altDepth && r.1 == |s.cells|
  {
  }

  /** A new SEGMENT of a PATH. */
  lemma {:induction false} PushNodeIntoPath(s: State, node: Cell)
    requires Valid(s) && Pushable(node) && node.parent == Some(s.cursor) && s.cells[s.cursor].PathCell?
    ensures var r := PushNode(s, node).value;
      && r.0.cells == OpenSegment(s.cells, s.cursor, node) && r.0.cursor == |s.cells|
      && r.0.altDepth == s.altDepth && r.1 == |s.cells| + 1
  {
  }

  /** A child of a SEGMENT. */
  lemma {:induction false} PushNodeIntoSegment(s: State, node: Cell)
    requires Valid(s) && Pushable(node) && node.parent == Some(s.cursor) && s.cells[s.cursor].SegmentCell?
    ensures var r := PushNode(s, node).value;
      && r.0.cells == AppendTo(s.cells, s.cursor, node) && r.0.cursor == s.cursor
      && r.0.altDepth == s.altDepth && r.1 == |s.cells|
  {
  }

  /**
   * Where `pushNode` leaves the cursor: at the new SEGMENT when the target
   * is a PATH, at the parent of a variable that took a constraint, else
   * at the target.
   */
  function PushedCursor(s: State): nat
    requires Valid(s)
  {
    var t := PushTarget(s);
    if s.cells[t].PathCell? then |s.cells|
    else if s.cells[t].VariableCell? then s.cells[t].parent.value
    else t
  }

  /** `variable(name, start, end)`: a new variable, a sibling of a variable at the cursor, becomes the cursor. */
  function OnVariable(s: State, name: string, start: nat, end: nat): (r: State)
    requires Valid(s)
    ensures Valid(r) && Grows(s.cells, r.cells, {}) && r.altDepth == s.altDepth
    ensures r.cursor == |r.cells| - 1 && r.cells[r.cursor].VariableCell? && NewAltsBranched(s.cells, r.cells, -1)
  {
    var s1 := CloseVariable(s);
    var pushed := PushNode(s1, VariableCell(Some(s1.cursor), start, end, name, None)).value;
    BranchedWithout(s.cells, pushed.0.cells, pushed.1);
    State(pushed.0.cells, pushed.1, pushed.0.altDepth)
  }

  /** A variable at the cursor is closed first: the cursor moves to its parent. */
  function CloseVariable(s: State): (r: State)
    requires Valid(s)
    ensures Valid(r) && r.cells == s.cells && r.altDepth == s.altDepth && !r.cells[r.cursor].VariableCell?
  {
    var cur := s.cells[s.cursor];
    assert s.cursor > 0 ==> cur.parent.Some?;
    if cur.VariableCell? then State(s.cells, cur.parent.value, s.altDepth) else s
  }

  /**
   * `altStart(start, end)`: a new ALT with one empty PATH branch, which
   * becomes the cursor.
   */
  function OnAltStart(s: State, start: nat, end: nat): (r: State)
    requires Valid(s)
    ensures Valid(r) && Grows(s.cells, r.cells, {}) && r.altDepth == s.altDepth + 1
    ensures |r.cells| == |s.cells| + 2 || |r.cells| == |s.cells| + 3
    ensures r.cursor == |r.cells| - 1 && OneBranch(r.cells, r.cursor - 1, r.cursor)
    ensures NewAltsBranched(s.cells, r.cells, -1)
  {
    var pushed := PushNode(State(s.cells, s.cursor, s.altDepth + 1), AltCell(Some(s.cursor), start, end, [])).value;
    var k := pushed.1;
    FirstBranchOne(pushed.0, k, end);
    FirstBranchGrows(s.cells, pushed.0, k, end);
    FirstBranchBranched(s.cells, pushed.0, k, end);
    FirstBranch(pushed.0, k, end)
  }

  /** A new ALT, the last cell, gets its only branch. */
  lemma {:induction false} FirstBranchOne(s: State, a: nat, end: nat)
    requires Tree(s.cells) && a + 1 == |s.cells| && s.cells[a].Kind() == AltKind && s.cells[a].Refs() == []
    ensures s.cells[a].AltCell? && OneBranch(FirstBranch(s, a, end).cells, a, a + 1)
    ensures FirstBranch(s, a, end).cursor == a + 1
  {
    assert s.cells[a].AltCell? && s.cells[a].children == [];
  }

  /** Cell `a` is an ALT whose only branch is the PATH `b`, with no children yet. */
  predicate OneBranch(cells: seq<Cell>, a: int, b: nat) {
    0 <= a < b < |cells| && cells[a].AltCell? && cells[a].children == [b]
    && cells[b].PathCell? && cells[b].parent == Some(a) && cells[b].children == [] && !cells[b].absolute
  }

  /** The ALT at `a` gets its first branch, an empty PATH, which becomes the cursor. */
  function FirstBranch(s: State, a: nat, end: nat): (r: State)
    requires Tree(s.cells) && a < |s.cells| && s.cells[a].AltCell?
    ensures Valid(r) && r.altDepth == s.altDepth && r.cursor == |s.cells|
    ensures r.cells == Attach(s.cells, a, PathCell(Some(a), end, end, [], false))
    ensures |r.cells| == |s.cells| + 1 && r.cells[|s.cells|] == PathCell(Some(a), end, end, [], false)
    ensures && r.cells[a].children == s.cells[a].children + [|s.cells|]
      && r.cells[a].start == s.cells[a].start && r.cells[a].end == s.cells[a].end
  {
    AttachTree(s.cells, a, PathCell(Some(a), end, end, [], false));
    State(Attach(s.cells, a, PathCell(Some(a), end, end, [], false)), |s.cells|, s.altDepth)
  }

  lemma {:induction false} FirstBranchGrows(old_cells: seq<Cell>, s: State, a: nat, end: nat)
    requires Tree(s.cells) && a < |s.cells| && s.cells[a].AltCell? && |old_cells| <= a
    requires Grows(old_cells, s.cells, {})
    ensures Grows(old_cells, FirstBranch(s, a, end).cells, {})
  {
    var path := PathCell(Some(a), end, end, [], false);
    AttachGrows(s.cells, a, path);
    GrowsTrans(old_cells, s.cells, Attach(s.cells, a, path), {}, {a});
    GrowsNarrow(old_cells, Attach(s.cells, a, path), {a}, {});
  }

  lemma {:induction false} FirstBranchBranched(old_cells: seq<Cell>, s: State, a: nat, end: nat)
    requires Tree(s.cells) && a < |s.cells| && s.cells[a].AltCell? && NewAltsBranched(old_cells, s.cells, a)
    ensures NewAltsBranched(old_cells, FirstBranch(s, a, end).cells, -1)
  {
    var r := FirstBranch(s, a, end).cells;
    forall m | |old_cells| <= m < |r| && r[m].AltCell?
      ensures |r[m].children| > 0
    {
      if m < |s.cells| && m != a {
        assert r[m] == s.cells[m];
      }
    }
  }

  /** `altEnd(start, end)`: closes the nearest ALT, or fails when there is none. */
  function OnAltEnd(s: State, start: nat, end: nat): (r: Result<State, ParseError>)
    requires Valid(s)
    ensures r.Success? <==> NearestAlt(s.cells, s.cursor).Some?
    ensures r.Failure? ==> r.error == SyntaxError("Unexpected alternation end", start)
    ensures r.Success? ==> Valid(r.value) && Grows(s.cells, r.value.cells, {}) && r.value.altDepth == s.altDepth - 1
    ensures r.Success? ==> |r.value.cells| == |s.cells|
  {
    match NearestAlt(s.cells, s.cursor)
    case None => Failure(SyntaxError("Unexpected alternation end", start))
    case Some(a) => Success(CloseAlt(s, a, end))
  }

  /** `setEnd(end)` from the ALT `a`, whose parent becomes the cursor. */
  function CloseAlt(s: State, a: nat, end: nat): (r: State)
    requires Tree(s.cells) && a < |s.cells| && s.cells[a].AltCell?
    ensures Valid(r) && Grows(s.cells, r.cells, {}) && r.altDepth == s.altDepth - 1 && |r.cells| == |s.cells|
  {
    CloseAltFacts(s.cells, a, end);
    State(SetEnd(s.cells, a, end), s.cells[a].parent.value, s.altDepth - 1)
  }

  lemma {:induction false} CloseAltFacts(cells: seq<Cell>, a: nat, end: nat)
    requires Tree(cells) && a < |cells| && cells[a].AltCell?
    ensures a > 0 && cells[a].parent.Some?
    ensures Tree(SetEnd(cells, a, end)) && Grows(cells, SetEnd(cells, a, end), {})
    ensures SetEnd(cells, a, end)[cells[a].parent.value].IsCursor()
  {
    assert a > 0 && cells[a].parent.Some?;
    var q := cells[a].parent.value;
    SetEndTree(cells, a, end);
    SetEndGrows(cells, a, end);
    assert SetEnd(cells, a, end)[q].Kind() == cells[q].Kind();
  }

  /**
   * `altSeparator(start, end)`: a new PATH branch of the nearest ALT becomes
   * the cursor, or fails when there is none. `setEnd` from the new branch
   * only sets its own end, which already is `end`, and the ALT's chain.
   */
  function OnAltSeparator(s: State, start: nat, end: nat): (r: Result<State, ParseError>)
    requires Valid(s)
    ensures r.Success? <==> NearestAlt(s.cells, s.cursor).Some?
    ensures r.Failure? ==> r.error == SyntaxError("Unexpected alternation separator", start)
    ensures r.Success? ==> (&& Valid(r.value) && r.value.altDepth == s.altDepth
                            && Grows(s.cells, r.value.cells, {NearestAlt(s.cells, s.cursor).value})
                            && NewAltsBranched(s.cells, r.value.cells, -1))
  {
    match NearestAlt(s.cells, s.cursor)
    case None => Failure(SyntaxError("Unexpected alternation separator", start))
    case Some(a) =>
      AltSeparatorFacts(s.cells, a, end);
      Success(State(AppendTo(s.cells, a, PathCell(Some(a), end, end, [], false)), |s.cells|, s.altDepth))
  }

  lemma {:induction false} AltSeparatorFacts(cells: seq<Cell>, a: nat, end: nat)
    requires Tree(cells) && a < |cells| && cells[a].AltCell?
    ensures var r := AppendTo(cells, a, PathCell(Some(a), end, end, [], false));
      && Tree(r) && Grows(cells, r, {a}) && NewAltsBranched(cells, r, -1) && r[|cells|].IsCursor()
  {
    var path := PathCell(Some(a), end, end, [], false);
    AppendToPushed(cells, a, path);
    OneNewCell(cells, AppendTo(cells, a, path), -1);
  }

  /**
   * `pathSeparator(start, end)`: a new SEGMENT of the nearest PATH becomes
   * the cursor; a PATH with no children yet becomes absolute and starts at
   * the separator. `setEnd` from the new SEGMENT only sets its own end,
   * which already is `end`, and the PATH's chain.
   */
  function OnPathSeparator(s: State, start: nat, end: nat): (r: State)
    requires Valid(s)
    ensures Valid(r) && Grows(s.cells, r.cells, {}) && r.altDepth == s.altDepth
    ensures NewAltsBranched(s.cells, r.cells, -1)
  {
    var p := NearestPath(s.cells, s.cursor);
    PathSeparatorFacts(s.cells, p, start, end);
    State(AppendTo(MarkAbsolute(s.cells, p, start), p, SegmentCell(Some(p), start, end, [])), |s.cells|, s.altDepth)
  }

  lemma {:induction false} PathSeparatorFacts(cells: seq<Cell>, p: nat, start: nat, end: nat)
    requires Tree(cells) && p < |cells| && cells[p].PathCell?
    ensures var r := AppendTo(MarkAbsolute(cells, p, start), p, SegmentCell(Some(p), start, end, []));
      && Tree(r) && Grows(cells, r, {}) && NewAltsBranched(cells, r, -1) && r[|cells|].IsCursor()
  {
    var segment := SegmentCell(Some(p), start, end, []);
    MarkAbsoluteTree(cells, p, start);
    var cells1 := MarkAbsolute(cells, p, start);
    AppendToPushed(cells1, p, segment);
    GrowsTrans(cells, cells1, AppendTo(cells1, p, segment), {}, {});
    OneNewCell(cells, AppendTo(cells1, p, segment), -1);
  }

  /** When the exempt cell `k` is no ALT without a branch, no cell is exempt. */
  lemma {:induction false} BranchedWithout(a: seq<Cell>, b: seq<Cell>, k: int)
    requires NewAltsBranched(a, b, k)
    requires 0 <= k < |b| ==> b[k].Kind() != AltKind
    ensures NewAltsBranched(a, b, -1)
  {
    assert forall m :: |a| <= m < |b| && b[m].AltCell? ==> m != k;
  }

  /** An arena that adds one cell, `k` or not an ALT, adds no other ALT without a branch. */
  lemma {:induction false} OneNewCell(a: seq<Cell>, b: seq<Cell>, k: int)
    requires |b| == |a| + 1 && (k == |a| || !b[|a|].AltCell?)
    ensures NewAltsBranched(a, b, k)
  {
  }

  /** The PATH `p` made absolute and restarted at `start` when it has no children yet. */
  function MarkAbsolute(cells: seq<Cell>, p: nat, start: nat): (r: seq<Cell>)
    requires ParentsBelow(cells) && p < |cells| && cells[p].PathCell?
    ensures |r| == |cells| && ParentsBelow(r) && r[p].PathCell?
  {
    var path := cells[p];
    if |path.children| == 0 then cells[p := PathCell(path.parent, start, path.end, [], true)] else cells
  }

  lemma {:induction false} MarkAbsoluteTree(cells: seq<Cell>, p: nat, start: nat)
    requires Tree(cells) && p < |cells| && cells[p].PathCell?
    ensures Tree(MarkAbsolute(cells, p, start)) && Grows(cells, MarkAbsolute(cells, p, start), {})
  {
    var r := MarkAbsolute(cells, p, start);
    assert SameLinks(cells, r);
    LinksTree(cells, r);
    if |cells[p].children| == 0 {
      RestartGrows(cells, p, r[p]);
    } else {
      GrowsRefl(cells);
    }
  }

  /** `wildcard`, `regExp` and `text`: a leaf is pushed. */
  function OnLeaf(s: State, leaf: Cell): (r: State)
    requires Valid(s) && Pushable(leaf) && !leaf.VariableCell? && !leaf.AltCell? && leaf.parent == Some(s.cursor)
    ensures Valid(r) && Grows(s.cells, r.cells, {}) && r.altDepth == s.altDepth
    ensures NewAltsBranched(s.cells, r.cells, -1)
  {
    var r := PushNode(s, leaf).value;
    BranchedWithout(s.cells, r.0.cells, r.1);
    r.0
  }

  /**
   * One event. A handler that was not registered ignores its event; the
   * reusable parser registers its variable handler under a key the
   * tokenizer never calls, which `handlesVariables == false` stands for.
   */
  function Apply(s: State, t: Tokenizer.Token, handlesVariables: bool): (r: Result<State, ParseError>)
    requires Valid(s)
    ensures r.Failure? <==> (t.AltEnd? || t.AltSeparator?) && NearestAlt(s.cells, s.cursor).None?
    ensures r.Success? ==> Valid(r.value) && Grows(s.cells, r.value.cells, Alts(s.cells))
  {
    ApplyGrows(s, t, handlesVariables);
    match t
    case Variable(name, start, end) => Success(if handlesVariables then OnVariable(s, name, start, end) else s)
    case AltStart(start, end) => Success(OnAltStart(s, start, end))
    case AltEnd(start, end) => OnAltEnd(s, start, end)
    case AltSeparator(start, end) => OnAltSeparator(s, start, end)
    case Wildcard(greedy, start, end) => Success(OnLeaf(s, WildcardCell(Some(s.cursor), start, end, greedy)))
    case RegExp(pattern, groupCount, start, end) =>
      Success(OnLeaf(s, RegExpCell(Some(s.cursor), start, end, pattern, groupCount)))
    case Text(value, start, end) => Success(OnLeaf(s, TextCell(Some(s.cursor), start, end, value)))
    case PathSeparator(start, end) => Success(OnPathSeparator(s, start, end))
  }

  /** The ALTs of an arena. */
  function Alts(cells: seq<Cell>): set<nat> {
    set m | 0 <= m < |cells| && cells[m].AltCell?
  }

  lemma {:induction false} ApplyGrows(s: State, t: Tokenizer.Token, handlesVariables: bool)
    requires Valid(s)
    ensures t.Variable? ==> Grows(s.cells, (if handlesVariables then OnVariable(s, t.name, t.start, t.end) else s).cells, Alts(s.cells))
    ensures t.AltStart? ==> Grows(s.cells, OnAltStart(s, t.start, t.end).cells, Alts(s.cells))
    ensures t.AltEnd? && NearestAlt(s.cells, s.cursor).Some? ==> Grows(s.cells, OnAltEnd(s, t.start, t.end).value.cells, Alts(s.cells))
    ensures t.AltSeparator? && NearestAlt(s.cells, s.cursor).Some? ==>
      Grows(s.cells, OnAltSeparator(s, t.start, t.end).value.cells, Alts(s.cells))
    ensures t.PathSeparator? ==> Grows(s.cells, OnPathSeparator(s, t.start, t.end).cells, Alts(s.cells))
    ensures forall leaf :: Pushable(leaf) && !leaf.VariableCell? && !leaf.AltCell? && leaf.parent == Some(s.cursor) ==>
      Grows(s.cells, OnLeaf(s, leaf).cells, Alts(s.cells))
  {
  }

  // ---------------------------------------------------------------------
  // What each handler does to the tree

  /** A separator appends one empty SEGMENT to the nearest PATH, which becomes absolute exactly when it was empty. */
  lemma {:induction false} PathSeparatorAppends(s: State, start: nat, end: nat)
    requires Valid(s)
    ensures var p, r := NearestPath(s.cells, s.cursor), OnPathSeparator(s, start, end);
      && r.cursor == |s.cells| && r.cells[r.cursor] == SegmentCell(Some(p), start, end, [])
      && r.cells[p].children == s.cells[p].children + [|s.cells|]
      && (r.cells[p].absolute <==> s.cells[p].absolute || |s.cells[p].children| == 0)
      && r.cells[p].start == if |s.cells[p].children| == 0 then start else s.cells[p].start
  {
    var p := NearestPath(s.cells, s.cursor);
    var segment := SegmentCell(Some(p), start, end, []);
    var cells1 := MarkAbsolute(s.cells, p, start);
    AppendToFacts(cells1, p, segment);
  }

  /** With no ALT at or above `k`, and only then, there is no ALT to close or to branch. */
  lemma {:induction false} NearestAltNone(cells: seq<Cell>, k: nat)
    requires ParentsBelow(cells) && k < |cells|
    ensures NearestAlt(cells, k).None? <==> forall m :: m in Chain(cells, k) ==> !cells[m].AltCell?
    decreases k
  {
    if !cells[k].AltCell? && cells[k].parent.Some? {
      NearestAltNone(cells, cells[k].parent.value);
    }
  }

  /** An unconstrained variable at the cursor takes the pushed node as its constraint. */
  lemma {:induction false} PushNodeConstrains(s: State, node: Cell)
    requires Valid(s) && Pushable(node) && node.parent == Some(s.cursor) && !node.VariableCell?
    requires s.cells[s.cursor].VariableCell? && s.cells[s.cursor].constraint.None?
    ensures var r := PushNode(s, node).value;
      && r.1 == |s.cells| && r.0.cells[r.1] == node
      && r.0.cells[s.cursor].constraint == Some(r.1)
      && r.0.cells[s.cursor].name == s.cells[s.cursor].name
      && r.0.cursor == s.cells[s.cursor].parent.value
  {
    AppendToFacts(s.cells, s.cursor, node);
  }

  /**
   * From a constrained variable at the cursor the node goes to the
   * variable's parent SEGMENT, after it; the variable itself is untouched.
   */
  lemma {:induction false} PushNodeSibling(s: State, node: Cell)
    requires Valid(s) && Pushable(node) && node.parent == Some(s.cursor) && !node.VariableCell?
    requires s.cells[s.cursor].VariableCell? && s.cells[s.cursor].constraint.Some?
    ensures var r, q := PushNode(s, node).value, s.cells[s.cursor].parent.value;
      && r.1 == |s.cells| && r.0.cells[r.1] == node && r.0.cursor == q
      && r.0.cells[q].children == s.cells[q].children + [|s.cells|]
      && r.0.cells[s.cursor] == s.cells[s.cursor]
  {
    var q := s.cells[s.cursor].parent.value;
    AppendToFacts(s.cells, q, node);
    var a := Attach(s.cells, q, node);
    ChainSameParents(a, AppendTo(s.cells, q, node), q);
    assert s.cursor !in Chain(a, q);
  }

  /** `:a:b`: a variable at the cursor is closed, and the new one becomes its sibling in the same SEGMENT. */
  lemma {:induction false} VariableSiblings(s: State, name: string, start: nat, end: nat)
    requires Valid(s) && s.cells[s.cursor].VariableCell?
    ensures var r, q, n := OnVariable(s, name, start, end), s.cells[s.cursor].parent.value, |s.cells|;
      && r.cursor == n && r.cells[n] == VariableCell(Some(q), start, end, name, None)
      && r.cells[q].children == s.cells[q].children + [n]
      && r.cells[s.cursor] == s.cells[s.cursor]
  {
    var q := s.cells[s.cursor].parent.value;
    var node := VariableCell(Some(q), start, end, name, None);
    var s1 := CloseVariable(s);
    assert s1 == State(s.cells, q, s.altDepth);
    PushNodeIntoSegment(s1, node);
    AppendToFacts(s.cells, q, node);
    var a := Attach(s.cells, q, node);
    ChainSameParents(a, AppendTo(s.cells, q, node), q);
    assert s.cursor !in Chain(a, q);
  }

  /** `,`: the nearest ALT gets one more branch, an empty PATH at the comma's end, which becomes the cursor. */
  lemma {:induction false} AltSeparatorAppends(s: State, start: nat, end: nat)
    requires Valid(s) && NearestAlt(s.cells, s.cursor).Some?
    ensures var a, r := NearestAlt(s.cells, s.cursor).value, OnAltSeparator(s, start, end).value;
      && r.cursor == |s.cells| && r.cells[r.cursor] == PathCell(Some(a), end, end, [], false)
      && r.cells[a].children == s.cells[a].children + [|s.cells|]
  {
    var a := NearestAlt(s.cells, s.cursor).value;
    AppendToFacts(s.cells, a, PathCell(Some(a), end, end, [], false));
  }

  /** `}`: the nearest ALT and its ancestors end at the brace's end, and the ALT's parent becomes the cursor. */
  lemma {:induction false} AltEndCloses(s: State, start: nat, end: nat)
    requires Valid(s) && NearestAlt(s.cells, s.cursor).Some?
    ensures var a, r := NearestAlt(s.cells, s.cursor).value, OnAltEnd(s, start, end).value;
      && s.cells[a].parent.Some? && r.cursor == s.cells[a].parent.value && EndsAt(r.cells, a, end)
  {
    var a := NearestAlt(s.cells, s.cursor).value;
    SetEndChain(s.cells, a, end);
  }

  // ---------------------------------------------------------------------
  // The whole parse

  lemma {:induction false} InitValid()
    ensures Valid(Init)
  {
  }

  /** The events replayed in order; the first handler error ends the parse. */
  function Run(s: State, events: seq<Tokenizer.Token>, handlesVariables: bool): (r: Result<State, ParseError>)
    requires Valid(s)
    ensures r.Success? ==> Valid(r.value) && Grows(s.cells, r.value.cells, Alts(s.cells))
    decreases |events|
  {
    if |events| == 0 then
      GrowsRefl(s.cells);
      GrowsNarrow(s.cells, s.cells, {}, Alts(s.cells));
      Success(s)
    else match Apply(s, events[0], handlesVariables)
      case Failure(e) => Failure(e)
      case Success(s') =>
        var r := Run(s', events[1..], handlesVariables);
        if r.Success? then GrowsAlts(s.cells, s'.cells, r.value.cells); r else r
  }

  /** Old ALTs keep their branches as the arena grows; so if the new ALTs have one, every ALT has one. */
  lemma {:induction false} AltsKept(a: seq<Cell>, b: seq<Cell>, branched: set<nat>)
    requires AltsNonEmpty(a) && Grows(a, b, branched) && NewAltsBranched(a, b, -1)
    ensures AltsNonEmpty(b)
  {
    forall m | 0 <= m < |b| && b[m].AltCell?
      ensures |b[m].children| > 0
    {
      if m < |a| {
        assert CellGrows(a[m], b[m], m in branched);
      }
    }
  }

  /** No event leaves an ALT without a PATH branch. */
  lemma {:induction false} ApplyAltsNonEmpty(s: State, t: Tokenizer.Token, handlesVariables: bool)
    requires Valid(s) && AltsNonEmpty(s.cells)
    ensures Apply(s, t, handlesVariables).Success? ==> AltsNonEmpty(Apply(s, t, handlesVariables).value.cells)
  {
    match t
    case Variable(name, start, end) =>
      if handlesVariables {
        AltsKept(s.cells, OnVariable(s, name, start, end).cells, {});
      }
    case AltStart(start, end) =>
      AltsKept(s.cells, OnAltStart(s, start, end).cells, {});
    case AltEnd(start, end) =>
      if NearestAlt(s.cells, s.cursor).Some? {
        AltsKept(s.cells, OnAltEnd(s, start, end).value.cells, {});
      }
    case AltSeparator(start, end) =>
      if NearestAlt(s.cells, s.cursor).Some? {
        AltsKept(s.cells, OnAltSeparator(s, start, end).value.cells, {NearestAlt(s.cells, s.cursor).value});
      }
    case PathSeparator(start, end) =>
      AltsKept(s.cells, OnPathSeparator(s, start, end).cells, {});
    case Wildcard(greedy, start, end) =>
      AltsKept(s.cells, OnLeaf(s, WildcardCell(Some(s.cursor), start, end, greedy)).cells, {});
    case RegExp(pattern, groupCount, start, end) =>
      AltsKept(s.cells, OnLeaf(s, RegExpCell(Some(s.cursor), start, end, pattern, groupCount)).cells, {});
    case Text(value, start, end) =>
      AltsKept(s.cells, OnLeaf(s, TextCell(Some(s.cursor), start, end, value)).cells, {});
  }

  lemma {:induction false} RunAltsNonEmpty(s: State, events: seq<Tokenizer.Token>, handlesVariables: bool)
    requires Valid(s) && AltsNonEmpty(s.cells)
    ensures Run(s, events, handlesVariables).Success? ==> AltsNonEmpty(Run(s, events, handlesVariables).value.cells)
    decreases |events|
  {
    if |events| > 0 {
      ApplyAltsNonEmpty(s, events[0], handlesVariables);
      var a := Apply(s, events[0], handlesVariables);
      if a.Success? {
        RunAltsNonEmpty(a.value, events[1..], handlesVariables);
      }
    }
  }

  lemma {:induction false} GrowsAlts(a: seq<Cell>, b: seq<Cell>, c: seq<Cell>)
    requires Grows(a, b, Alts(a)) && Grows(b, c, Alts(b))
    ensures Grows(a, c, Alts(a))
  {
    GrowsTrans(a, b, c, Alts(a), Alts(b));
    forall m | m in Alts(a) + Alts(b) && m < |a|
      ensures m in Alts(a)
    {
      assert CellGrows(a[m], b[m], m in Alts(a));
    }
    GrowsNarrow(a, c, Alts(a) + Alts(b), Alts(a));
  }

  /**
   * The parse: the tokenizer's events are replayed from a fresh root; then
   * input the tokenizer did not consume, and after it an open ALT, are
   * errors at the tokenizer's stop offset.
   */
  function ParseState(str: string, handlesVariables: bool): (r: Result<State, ParseError>)
    ensures r.Success? ==> Valid(r.value) && AltsNonEmpty(r.value.cells) && r.value.altDepth == 0
    ensures r.Success? ==> r.value.cells[0].PathCell?
  {
    var (events, stop) := Tokenizer.Tokenize(str);
    InitValid();
    RunAltsNonEmpty(Init, events, handlesVariables);
    match Run(Init, events, handlesVariables)
    case Failure(e) => Failure(e)
    case Success(s) =>
      assert CellGrows(Init.cells[0], s.cells[0], 0 in Alts(Init.cells));
      if stop != |str| then Failure(SyntaxError("Unexpected syntax", stop))
      else if s.altDepth != 0 then Failure(SyntaxError("Unterminated alternation", stop))
      else Success(s)
  }

  lemma {:induction false} RefsAbove(cells: seq<Cell>, k: nat)
    requires Tree(cells) && k < |cells|
    ensures cells[k].HasChildren() ==> forall j :: 0 <= j < |cells[k].children| ==> k < cells[k].children[j] < |cells|
    ensures cells[k].VariableCell? && cells[k].constraint.Some? ==> k < cells[k].constraint.value < |cells|
  {
    if cells[k].VariableCell? && cells[k].constraint.Some? {
      assert cells[k].Refs()[0] == cells[k].constraint.value;
    }
  }

  /** The node at `k` read out of the arena as a value, parent links dropped. */
  function ToNode(cells: seq<Cell>, k: nat): PatternAst.Node
    requires Tree(cells) && k < |cells|
    decreases |cells| - k, 1
  {
    RefsAbove(cells, k);
    match cells[k]
    case PathCell(_, start, end, children, absolute) => PatternAst.Path(ToNodes(cells, k, children), absolute, start, end)
    case SegmentCell(_, start, end, children) => PatternAst.Segment(ToNodes(cells, k, children), start, end)
    case AltCell(_, start, end, children) => PatternAst.Alt(ToNodes(cells, k, children), start, end)
    case VariableCell(_, start, end, name, constraint) =>
      PatternAst.Variable(name, if constraint.Some? then Some(ToNode(cells, constraint.value)) else None, start, end)
    case WildcardCell(_, start, end, greedy) => PatternAst.Wildcard(greedy, start, end)
    case RegExpCell(_, start, end, pattern, groupCount) => PatternAst.RegExp(pattern, groupCount, start, end)
    case TextCell(_, start, end, value) => PatternAst.Text(value, start, end)
  }

  function ToNodes(cells: seq<Cell>, k: nat, ids: seq<nat>): (r: seq<PatternAst.Node>)
    requires Tree(cells) && forall i :: 0 <= i < |ids| ==> k < ids[i] < |cells|
    ensures |r| == |ids|
    decreases |cells| - k, 0, |ids|
  {
    if |ids| == 0 then [] else [ToNode(cells, ids[0])] + ToNodes(cells, k, ids[1..])
  }

  /** `parsePattern(str)`: the root PATH, or the `SyntaxError` it throws. */
  function Parse(str: string, handlesVariables: bool): (r: Result<PatternAst.Node, ParseError>)
    ensures r.Success? ==> r.value.Path?
  {
    match ParseState(str, handlesVariables)
    case Failure(e) => Failure(e)
    case Success(s) => Success(ToNode(s.cells, 0))
  }

  /**
   * How a parse ends: an event's own error; else "Unexpected syntax" where the
   * tokenizer met a malformed token; else "Unterminated alternation" at the end
   * of the input when an ALT was left open; else success.
   */
  lemma {:induction false} ParseOutcome(str: string, handlesVariables: bool)
    ensures var (events, stop) := Tokenizer.Tokenize(str);
      var run := Run(Init, events, handlesVariables);
      var r := ParseState(str, handlesVariables);
      && (run.Failure? ==> r == Failure(run.error))
      && (run.Success? && stop < |str| ==>
            r == Failure(SyntaxError("Unexpected syntax", stop)) && Tokenizer.NextToken(str, stop).Malformed?)
      && (run.Success? && stop == |str| && run.value.altDepth != 0 ==>
            r == Failure(SyntaxError("Unterminated alternation", |str|)))
      && (r.Success? <==> run.Success? && stop == |str| && run.value.altDepth == 0)
  {
    Tokenizer.TokenizeFacts(str);
  }

  // ---------------------------------------------------------------------
  // Only a separator makes a PATH absolute

  /**
   * The cells of `a` that are PATHs are those of `b` below `|a|`; each, unless it is `x`, keeps its
   * `absolute` flag; every PATH `b` adds is relative.
   */
  predicate KeepsAbsolute(a: seq<Cell>, b: seq<Cell>, x: int) {
    && |a| <= |b|
    && (forall m :: 0 <= m < |a| ==> b[m].PathCell? == a[m].PathCell?)
    && (forall m :: 0 <= m < |a| && m != x && a[m].PathCell? ==> b[m].PathCell? && b[m].absolute == a[m].absolute)
    && (forall m :: |a| <= m < |b| && b[m].PathCell? ==> !b[m].absolute)
  }

  lemma {:induction false} KeepsTrans(a: seq<Cell>, b: seq<Cell>, c: seq<Cell>, x: int)
    requires KeepsAbsolute(a, b, x) && KeepsAbsolute(b, c, -1)
    ensures KeepsAbsolute(a, c, x)
  {
    forall m | |a| <= m < |c| && c[m].PathCell?
      ensures !c[m].absolute
    {
      if m < |b| {
        assert b[m].PathCell? && !b[m].absolute;
      }
    }
  }

  lemma {:induction false} SetEndKeeps(cells: seq<Cell>, k: nat, e: nat)
    requires ParentsBelow(cells) && k < |cells|
    ensures KeepsAbsolute(cells, SetEnd(cells, k, e), -1)
  {
    var r := SetEnd(cells, k, e);
    forall m | 0 <= m < |cells|
      ensures r[m].PathCell? == cells[m].PathCell? && (cells[m].PathCell? ==> r[m].absolute == cells[m].absolute)
    {
      if m in Chain(cells, k) {
        assert r[m] == cells[m].WithEnd(e);
      }
    }
  }

  lemma {:induction false} AttachKeeps(cells: seq<Cell>, p: nat, c: Cell)
    requires ParentsBelow(cells) && p < |cells| && cells[p].CanAdopt()
    requires c.parent.Some? && c.parent.value < |cells| && (c.PathCell? ==> !c.absolute)
    ensures KeepsAbsolute(cells, Attach(cells, p, c), -1)
  {
    var r := Attach(cells, p, c);
    assert r[p] == cells[p].Adopt(|cells|);
  }

  lemma {:induction false} AppendToKeeps(cells: seq<Cell>, p: nat, c: Cell)
    requires ParentsBelow(cells) && p < |cells| && cells[p].CanAdopt()
    requires c.parent.Some? && c.parent.value < |cells| && (c.PathCell? ==> !c.absolute)
    ensures KeepsAbsolute(cells, AppendTo(cells, p, c), -1)
  {
    AttachKeeps(cells, p, c);
    SetEndKeeps(Attach(cells, p, c), p, c.end);
    KeepsTrans(cells, Attach(cells, p, c), AppendTo(cells, p, c), -1);
  }

  lemma {:induction false} OpenSegmentKeeps(cells: seq<Cell>, p: nat, c: Cell)
    requires ParentsBelow(cells) && p < |cells| && cells[p].PathCell? && c.parent.Some? && !c.PathCell?
    ensures KeepsAbsolute(cells, OpenSegment(cells, p, c), -1)
  {
    var n := |cells|;
    var cells1 := Restart(cells, p, c.start);
    assert KeepsAbsolute(cells, cells1, -1) by {
      if |cells[p].children| == 0 {
        assert cells1[p] == cells[p].WithStart(c.start);
      }
    }
    var segment := SegmentCell(Some(p), c.start, 0, []);
    AttachKeeps(cells1, p, segment);
    KeepsTrans(cells, cells1, Attach(cells1, p, segment), -1);
    var cells2 := Attach(cells1, p, segment);
    AppendToKeeps(cells2, n, c.WithParent(n));
    KeepsTrans(cells, cells2, OpenSegment(cells, p, c), -1);
  }

  /** `pushNode` adds no absolute PATH and changes no flag. */
  lemma {:induction false} PushNodeKeeps(s: State, node: Cell)
    requires Valid(s) && Pushable(node) && node.parent == Some(s.cursor)
    requires node.VariableCell? ==> !s.cells[s.cursor].VariableCell?
    ensures KeepsAbsolute(s.cells, PushNode(s, node).value.0.cells, -1)
  {
    var cur := s.cells[s.cursor];
    if cur.VariableCell? && cur.constraint.Some? {
      AppendToKeeps(s.cells, cur.parent.value, node);
    } else if cur.VariableCell? || cur.SegmentCell? {
      AppendToKeeps(s.cells, s.cursor, node);
    } else {
      OpenSegmentKeeps(s.cells, s.cursor, node);
    }
  }

  lemma {:induction false} AltStartKeeps(s: State, start: nat, end: nat)
    requires Valid(s)
    ensures KeepsAbsolute(s.cells, OnAltStart(s, start, end).cells, -1)
  {
    var s1 := State(s.cells, s.cursor, s.altDepth + 1);
    var node := AltCell(Some(s.cursor), start, end, []);
    PushNodeKeeps(s1, node);
    var pushed := PushNode(s1, node).value;
    AttachKeeps(pushed.0.cells, pushed.1, PathCell(Some(pushed.1), end, end, [], false));
    KeepsTrans(s.cells, pushed.0.cells, OnAltStart(s, start, end).cells, -1);
  }

  lemma {:induction false} VariableKeeps(s: State, name: string, start: nat, end: nat)
    requires Valid(s)
    ensures KeepsAbsolute(s.cells, OnVariable(s, name, start, end).cells, -1)
  {
    var s1 := CloseVariable(s);
    PushNodeKeeps(s1, VariableCell(Some(s1.cursor), start, end, name, None));
  }

  lemma {:induction false} AltEndKeeps(s: State, start: nat, end: nat)
    requires Valid(s) && NearestAlt(s.cells, s.cursor).Some?
    ensures KeepsAbsolute(s.cells, OnAltEnd(s, start, end).value.cells, -1)
  {
    SetEndKeeps(s.cells, NearestAlt(s.cells, s.cursor).value, end);
  }

  lemma {:induction false} AltSeparatorKeeps(s: State, start: nat, end: nat)
    requires Valid(s) && NearestAlt(s.cells, s.cursor).Some?
    ensures KeepsAbsolute(s.cells, OnAltSeparator(s, start, end).value.cells, -1)
  {
    var a := NearestAlt(s.cells, s.cursor).value;
    AppendToKeeps(s.cells, a, PathCell(Some(a), end, end, [], false));
  }

  lemma {:induction false} PathSeparatorKeeps(s: State, start: nat, end: nat)
    requires Valid(s)
    ensures KeepsAbsolute(s.cells, OnPathSeparator(s, start, end).cells, NearestPath(s.cells, s.cursor))
  {
    var p := NearestPath(s.cells, s.cursor);
    var cells1 := MarkAbsolute(s.cells, p, start);
    AppendToKeeps(cells1, p, SegmentCell(Some(p), start, end, []));
    KeepsTrans(s.cells, cells1, OnPathSeparator(s, start, end).cells, p);
  }

  lemma {:induction false} LeafKeeps(s: State, leaf: Cell)
    requires Valid(s) && Pushable(leaf) && !leaf.VariableCell? && !leaf.AltCell? && leaf.parent == Some(s.cursor)
    ensures KeepsAbsolute(s.cells, OnLeaf(s, leaf).cells, -1)
  {
    PushNodeKeeps(s, leaf);
  }

  /**
   * Every event but a separator keeps every PATH's `absolute` flag and adds
   * only relative PATHs; a separator changes the flag of the nearest PATH
   * only.
   */
  lemma {:induction false} ApplyKeepsAbsolute(s: State, t: Tokenizer.Token, handlesVariables: bool)
    requires Valid(s)
    ensures var r := Apply(s, t, handlesVariables);
      r.Success? ==> KeepsAbsolute(s.cells, r.value.cells, if t.PathSeparator? then NearestPath(s.cells, s.cursor) else -1)
  {
    match t
    case Variable(name, start, end) =>
      if handlesVariables {
        VariableKeeps(s, name, start, end);
      }
    case AltStart(start, end) =>
      AltStartKeeps(s, start, end);
    case AltEnd(start, end) =>
      if NearestAlt(s.cells, s.cursor).Some? {
        AltEndKeeps(s, start, end);
      }
    case AltSeparator(start, end) =>
      if NearestAlt(s.cells, s.cursor).Some? {
        AltSeparatorKeeps(s, start, end);
      }
    case PathSeparator(start, end) =>
      PathSeparatorKeeps(s, start, end);
    case Wildcard(greedy, start, end) =>
      LeafKeeps(s, WildcardCell(Some(s.cursor), start, end, greedy));
    case RegExp(pattern, groupCount, start, end) =>
      LeafKeeps(s, RegExpCell(Some(s.cursor), start, end, pattern, groupCount));
    case Text(value, start, end) =>
      LeafKeeps(s, TextCell(Some(s.cursor), start, end, value));
  }

  /** Events without a separator keep every flag and add only relative PATHs. */
  lemma {:induction false} RunKeepsAbsolute(s: State, events: seq<Tokenizer.Token>, handlesVariables: bool)
    requires Valid(s) && forall i :: 0 <= i < |events| ==> !events[i].PathSeparator?
    ensures Run(s, events, handlesVariables).Success? ==> KeepsAbsolute(s.cells, Run(s, events, handlesVariables).value.cells, -1)
    decreases |events|
  {
    if |events| > 0 {
      ApplyKeepsAbsolute(s, events[0], handlesVariables);
      var a := Apply(s, events[0], handlesVariables);
      if a.Success? {
        RunKeepsAbsolute(a.value, events[1..], handlesVariables);
        if Run(a.value, events[1..], handlesVariables).Success? {
          KeepsTrans(s.cells, a.value.cells, Run(a.value, events[1..], handlesVariables).value.cells, -1);
        }
      }
    }
  }

  /** A pattern the tokenizer reads without a separator parses to PATHs that are all relative. */
  lemma {:induction false} RelativeWithoutSeparator(str: string, handlesVariables: bool)
    requires forall i :: 0 <= i < |Tokenizer.Tokenize(str).0| ==> !Tokenizer.Tokenize(str).0[i].PathSeparator?
    ensures var r := ParseState(str, handlesVariables);
      r.Success? ==> forall m :: 0 <= m < |r.value.cells| && r.value.cells[m].PathCell? ==> !r.value.cells[m].absolute
  {
    InitValid();
    RunKeepsAbsolute(Init, Tokenizer.Tokenize(str).0, handlesVariables);
  }
}

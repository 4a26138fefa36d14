/**
 * `visitNode` over the pattern AST: a callback per node kind, where a
 * container's callback receives a continuation `next` that visits what is
 * below it. Callbacks are pure here, so a callback is described by how many
 * times it calls `next`, and a visit is described by its trace: the nodes
 * whose callback was invoked, in invocation order.
 */
module PatternVisitor {
  import opened Wrappers
  import opened PatternAst

  /**
   * `INodeVisitor`. A container callback is `Some(f)`, where `f(node)` is how
   * many times it calls `next`; a leaf callback just is or is not there.
   */
  datatype NodeVisitor = NodeVisitor(
    path: Option<Node -> nat>,
    segment: Option<Node -> nat>,
    alt: Option<Node -> nat>,
    variable: Option<Node -> nat>,
    wildcard: bool,
    regExp: bool,
    text: bool)

  /** Whether the callback for `node`'s kind is there, and how often it calls `next` (never, for a leaf). */
  function Calls(v: NodeVisitor, node: Node): Option<nat> {
    match node
    case Path(_, _, _, _) => if v.path.Some? then Some(v.path.value(node)) else None
    case Segment(_, _, _) => if v.segment.Some? then Some(v.segment.value(node)) else None
    case Alt(_, _, _) => if v.alt.Some? then Some(v.alt.value(node)) else None
    case Variable(_, _, _, _) => if v.variable.Some? then Some(v.variable.value(node)) else None
    case Wildcard(_, _, _) => if v.wildcard then Some(0) else None
    case RegExp(_, _, _, _) => if v.regExp then Some(0) else None
    case Text(_, _, _) => if v.text then Some(0) else None
  }

  function Repeat(s: seq<Node>, k: nat): seq<Node> {
    if k == 0 then [] else s + Repeat(s, k - 1)
  }

  /** `visitNode(node, visitor)`: the callback, then whatever its calls of `next` visit. */
  function Visit(node: Node, v: NodeVisitor): seq<Node>
    decreases node, 1
  {
    match Calls(v, node)
    case None => []
    case Some(k) => [node] + Repeat(Next(node, v), k)
  }

  /** What one call of `next` visits: the children, or a variable's constraint. */
  function Next(node: Node, v: NodeVisitor): seq<Node>
    decreases node, 0
  {
    match node
    case Path(children, _, _, _) => VisitAll(children, v)
    case Segment(children, _, _) => VisitAll(children, v)
    case Alt(children, _, _) => VisitAll(children, v)
    case Variable(_, constraint, _, _) => if constraint.Some? then Visit(constraint.value, v) else []
    case Wildcard(_, _, _) => []
    case RegExp(_, _, _, _) => []
    case Text(_, _, _) => []
  }

  /** `visitChildren(nodes, visitor)`. */
  function VisitAll(nodes: seq<Node>, v: NodeVisitor): seq<Node>
    decreases nodes, 2
  {
    if |nodes| == 0 then [] else VisitAll(nodes[..|nodes| - 1], v) + Visit(nodes[|nodes| - 1], v)
  }

  /** `visitNode` on `null` or `undefined` calls nothing. */
  function VisitOpt(node: Option<Node>, v: NodeVisitor): (r: seq<Node>)
    ensures node.None? ==> r == []
    ensures node.Some? ==> r == Visit(node.value, v)
  {
    if node.Some? then Visit(node.value, v) else []
  }

  // ---------------------------------------------------------------------
  // Reference: every node, in pre-order

  function PreOrder(node: Node): seq<Node>
    decreases node, 1
  {
    match node
    case Path(children, _, _, _) => [node] + PreOrderAll(children)
    case Segment(children, _, _) => [node] + PreOrderAll(children)
    case Alt(children, _, _) => [node] + PreOrderAll(children)
    case Variable(_, constraint, _, _) => [node] + (if constraint.Some? then PreOrder(constraint.value) else [])
    case Wildcard(_, _, _) => [node]
    case RegExp(_, _, _, _) => [node]
    case Text(_, _, _) => [node]
  }

  function PreOrderAll(nodes: seq<Node>): seq<Node>
    decreases nodes, 0
  {
    if |nodes| == 0 then [] else PreOrderAll(nodes[..|nodes| - 1]) + PreOrder(nodes[|nodes| - 1])
  }

  /** Every callback is there, and every container callback calls `next` exactly once. */
  ghost predicate Complete(v: NodeVisitor) {
    && v.path.Some? && v.segment.Some? && v.alt.Some? && v.variable.Some?
    && v.wildcard && v.regExp && v.text
    && (forall n :: v.path.value(n) == 1)
    && (forall n :: v.segment.value(n) == 1)
    && (forall n :: v.alt.value(n) == 1)
    && (forall n :: v.variable.value(n) == 1)
  }

  // ---------------------------------------------------------------------
  // Properties

  lemma RepeatOnce(s: seq<Node>)
    ensures Repeat(s, 1) == s
  {
    assert Repeat(s, 0) == [];
  }

  /** A missing callback skips the whole subtree; one that never calls `next` sees only its own node. */
  lemma Skips(node: Node, v: NodeVisitor)
    ensures Calls(v, node).None? ==> Visit(node, v) == []
    ensures Calls(v, node) == Some(0) ==> Visit(node, v) == [node]
    ensures Calls(v, node).Some? ==> |Visit(node, v)| > 0 && Visit(node, v)[0] == node
  {
  }

  /** Leaves get no continuation: their trace is the node alone, or nothing. */
  lemma LeafVisit(node: Node, v: NodeVisitor)
    requires !node.IsContainer() && !node.Variable?
    ensures Visit(node, v) == (if Calls(v, node).Some? then [node] else [])
    ensures Next(node, v) == []
  {
  }

  /** Children are visited left to right: the trace of a list splits where the list does. */
  lemma {:induction false} VisitAllAppend(a: seq<Node>, b: seq<Node>, v: NodeVisitor)
    ensures VisitAll(a + b, v) == VisitAll(a, v) + VisitAll(b, v)
    decreases |b|
  {
    if |b| == 0 {
      assert a + b == a;
    } else {
      var b' := b[..|b| - 1];
      assert (a + b)[..|a + b| - 1] == a + b';
      assert (a + b)[|a + b| - 1] == b[|b| - 1];
      VisitAllAppend(a, b', v);
    }
  }

  /** The first child's trace comes first, and the rest follow it. */
  lemma VisitAllCons(nodes: seq<Node>, v: NodeVisitor)
    requires |nodes| > 0
    ensures VisitAll(nodes, v) == Visit(nodes[0], v) + VisitAll(nodes[1..], v)
  {
    assert nodes == [nodes[0]] + nodes[1..];
    VisitAllAppend([nodes[0]], nodes[1..], v);
    assert [nodes[0]][..0] == [];
  }

  /** With every callback there and calling `next` once, the visit is exactly the pre-order walk. */
  lemma {:induction false} CompleteVisit(node: Node, v: NodeVisitor)
    requires Complete(v)
    ensures Visit(node, v) == PreOrder(node)
    decreases node, 1
  {
    match node
    case Path(children, _, _, _) =>
      CompleteVisitAll(children, v);
      RepeatOnce(Next(node, v));
    case Segment(children, _, _) =>
      CompleteVisitAll(children, v);
      RepeatOnce(Next(node, v));
    case Alt(children, _, _) =>
      CompleteVisitAll(children, v);
      RepeatOnce(Next(node, v));
    case Variable(_, constraint, _, _) =>
      if constraint.Some? {
        CompleteVisit(constraint.value, v);
      }
      RepeatOnce(Next(node, v));
    case Wildcard(_, _, _) =>
    case RegExp(_, _, _, _) =>
    case Text(_, _, _) =>
  }

  lemma {:induction false} CompleteVisitAll(nodes: seq<Node>, v: NodeVisitor)
    requires Complete(v)
    ensures VisitAll(nodes, v) == PreOrderAll(nodes)
    decreases nodes, 2
  {
    if |nodes| > 0 {
      CompleteVisitAll(nodes[..|nodes| - 1], v);
      CompleteVisit(nodes[|nodes| - 1], v);
    }
  }

  lemma {:induction false} RepeatWithin(s: seq<Node>, k: nat, x: Node)
    requires x in Repeat(s, k)
    ensures x in s
  {
    if k > 0 {
      if x !in s {
        RepeatWithin(s, k - 1, x);
      }
    }
  }

  /** A visit only ever reaches nodes of the subtree, whatever the callbacks do. */
  lemma {:induction false} VisitWithin(node: Node, v: NodeVisitor, x: Node)
    requires x in Visit(node, v)
    ensures x in PreOrder(node)
    decreases node, 1
  {
    var k := Calls(v, node).value;
    if x != node {
      RepeatWithin(Next(node, v), k, x);
      match node
      case Path(children, _, _, _) => VisitAllWithin(children, v, x);
      case Segment(children, _, _) => VisitAllWithin(children, v, x);
      case Alt(children, _, _) => VisitAllWithin(children, v, x);
      case Variable(_, constraint, _, _) => VisitWithin(constraint.value, v, x);
    }
  }

  lemma {:induction false} VisitAllWithin(nodes: seq<Node>, v: NodeVisitor, x: Node)
    requires x in VisitAll(nodes, v)
    ensures x in PreOrderAll(nodes)
    decreases nodes, 2
  {
    var init := nodes[..|nodes| - 1];
    if x in VisitAll(init, v) {
      VisitAllWithin(init, v, x);
    } else {
      VisitWithin(nodes[|nodes| - 1], v, x);
    }
  }

  // ---------------------------------------------------------------------
  // The loop

  /** `visitNode(node, visitor)`, with the callback's calls of `next` replayed `k` times. */
  method VisitNode(node: Option<Node>, v: NodeVisitor) returns (trace: seq<Node>)
    ensures trace == VisitOpt(node, v)
    decreases if node.Some? then node.value else Segment([], 0, 0), 2
  {
    trace := [];
    if node.Some? {
      var calls := Calls(v, node.value);
      if calls.Some? {
        trace := [node.value];
        if calls.value > 0 {
          var nextTrace := CallNext(node.value, v);
          trace := trace + Repeat(nextTrace, calls.value);
        }
      }
    }
  }

  /** The continuation a container callback receives. */
  method CallNext(node: Node, v: NodeVisitor) returns (trace: seq<Node>)
    ensures trace == Next(node, v)
    decreases node, 1
  {
    match node
    case Path(children, _, _, _) => trace := VisitChildren(children, v);
    case Segment(children, _, _) => trace := VisitChildren(children, v);
    case Alt(children, _, _) => trace := VisitChildren(children, v);
    case Variable(_, constraint, _, _) =>
      trace := [];
      if constraint.Some? {
        trace := VisitNode(constraint, v);
      }
    case Wildcard(_, _, _) => trace := [];
    case RegExp(_, _, _, _) => trace := [];
    case Text(_, _, _) => trace := [];
  }

  /** `visitChildren(nodes, visitor)`: an index loop over the children. */
  method VisitChildren(nodes: seq<Node>, v: NodeVisitor) returns (trace: seq<Node>)
    ensures trace == VisitAll(nodes, v)
    decreases nodes, 3
  {
    trace := [];
    var i := 0;
    while i < |nodes|
      invariant 0 <= i <= |nodes|
      invariant trace == VisitAll(nodes[..i], v)
    {
      assert nodes[..i + 1][..i] == nodes[..i];
      var t := VisitNode(Some(nodes[i]), v);
      trace := trace + t;
      i := i + 1;
    }
    assert nodes[..|nodes|] == nodes;
  }
}

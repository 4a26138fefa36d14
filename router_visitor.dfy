/**
 * `visitNode` over route nodes: a callback per node type, where a container
 * callback receives continuations that visit what is below it. Callbacks are
 * pure here: a container callback is described by the continuations it calls,
 * in order, and a visit by its trace, the nodes whose callback was invoked.
 */
module RouterVisitor {
  import opened Wrappers
  import opened RouterDsl

  /**
   * `INodeVisitor`. `partialRoute`, `index` and `meta` give how many times
   * they call `next`; `iif` gives the order of its calls of `nextThen`
   * (`true`) and `nextElse` (`false`); `route` gets no continuation.
   */
  datatype RouterVisitor<!R, !C, !M> = RouterVisitor(
    route: bool,
    partialRoute: Option<RouterNode<R, C, M> -> nat>,
    index: Option<RouterNode<R, C, M> -> nat>,
    iif: Option<RouterNode<R, C, M> -> seq<bool>>,
    meta: Option<RouterNode<R, C, M> -> nat>)

  function Repeat<T>(s: seq<T>, k: nat): seq<T> {
    if k == 0 then [] else s + Repeat(s, k - 1)
  }

  /** The IF callback's continuation calls, each replaced by what it visits. */
  function Branches<T>(calls: seq<bool>, thenTrace: seq<T>, elseTrace: seq<T>): seq<T> {
    if |calls| == 0 then [] else (if calls[0] then thenTrace else elseTrace) + Branches(calls[1..], thenTrace, elseTrace)
  }

  /** `visitNode(node, visitor)`. */
  function Visit<R, C, M>(node: RouterNode<R, C, M>, v: RouterVisitor<R, C, M>): seq<RouterNode<R, C, M>>
    requires node.Valid()
    decreases node.height, 4
  {
    match node.payload
    case RoutePayload(_, _, _, _) => if v.route then [node] else []
    case PartialRoutePayload(_, _, _, children) =>
      if v.partialRoute.Some? then [node] + Repeat(VisitAll(children, v, node.height), v.partialRoute.value(node)) else []
    case IndexPayload(children) =>
      if v.index.Some? then [node] + Repeat(VisitAll(children, v, node.height), v.index.value(node)) else []
    case IfPayload(_, thenNode, elseNode) =>
      if v.iif.Some? then [node] + Branches(v.iif.value(node), VisitOpt(thenNode, v, node.height), VisitOpt(elseNode, v, node.height)) else []
    case MetaPayload(_, child) =>
      if v.meta.Some? then [node] + Repeat(Visit(child, v), v.meta.value(node)) else []
  }

  /** `visitNode` on `null` calls nothing. */
  function VisitOpt<R, C, M>(node: RouterNode?<R, C, M>, v: RouterVisitor<R, C, M>, ghost bound: nat): (r: seq<RouterNode<R, C, M>>)
    requires node != null ==> node.Valid() && node.height < bound
    ensures node == null ==> r == []
    decreases bound, 3
  {
    if node == null then [] else Visit(node, v)
  }

  /** `visitChildren(nodes, visitor)`; `bound` is above every child's height. */
  function VisitAll<R, C, M>(nodes: seq<RouterNode<R, C, M>>, v: RouterVisitor<R, C, M>, ghost bound: nat): seq<RouterNode<R, C, M>>
    requires forall c :: c in nodes ==> c.Valid() && c.height < bound
    decreases bound, 2, |nodes|
  {
    if |nodes| == 0 then [] else VisitAll(nodes[..|nodes| - 1], v, bound) + Visit(nodes[|nodes| - 1], v)
  }

  // ---------------------------------------------------------------------
  // Reference: every node, in pre-order

  ghost function PreOrder<R, C, M>(node: RouterNode<R, C, M>): seq<RouterNode<R, C, M>>
    requires node.Valid()
    decreases node.height, 1
  {
    [node] + PreOrderAll(node.payload.Below(), node.height)
  }

  ghost function PreOrderAll<R, C, M>(nodes: seq<RouterNode<R, C, M>>, bound: nat): seq<RouterNode<R, C, M>>
    requires forall c :: c in nodes ==> c.Valid() && c.height < bound
    decreases bound, 0, |nodes|
  {
    if |nodes| == 0 then [] else PreOrderAll(nodes[..|nodes| - 1], bound) + PreOrder(nodes[|nodes| - 1])
  }

  /**
   * Every callback is there and, for node `n`, calls `next` once, or, for an
   * IF, `nextThen` and then `nextElse`. A complete visitor is one for which
   * this holds at every node.
   */
  ghost predicate CallsOnce<R, C, M>(v: RouterVisitor<R, C, M>, n: RouterNode<R, C, M>) {
    && v.route && v.partialRoute.Some? && v.index.Some? && v.iif.Some? && v.meta.Some?
    && v.partialRoute.value(n) == 1 && v.index.value(n) == 1 && v.iif.value(n) == [true, false] && v.meta.value(n) == 1
  }

  // ---------------------------------------------------------------------
  // Properties

  lemma RepeatOnce<T>(s: seq<T>)
    ensures Repeat(s, 1) == s
  {
    assert Repeat(s, 0) == [];
  }

  /** A ROUTE gets no continuation: its trace is the node alone, or nothing. */
  lemma RouteVisit<R, C, M>(node: RouterNode<R, C, M>, v: RouterVisitor<R, C, M>)
    requires node.Valid() && node.payload.RoutePayload?
    ensures Visit(node, v) == (if v.route then [node] else [])
  {
  }

  /** An absent IF branch's continuation visits nothing, however often it is called. */
  lemma {:induction false} AbsentBranch<T>(calls: seq<bool>, thenTrace: seq<T>, elseTrace: seq<T>)
    ensures thenTrace == [] ==> Branches(calls, thenTrace, elseTrace) == Repeat(elseTrace, |calls| - CountTrue(calls))
    ensures elseTrace == [] ==> Branches(calls, thenTrace, elseTrace) == Repeat(thenTrace, CountTrue(calls))
  {
    if |calls| > 0 {
      AbsentBranch(calls[1..], thenTrace, elseTrace);
    }
  }

  function CountTrue(calls: seq<bool>): (n: nat)
    ensures n <= |calls|
  {
    if |calls| == 0 then 0 else (if calls[0] then 1 else 0) + CountTrue(calls[1..])
  }

  /** Children are visited in order: the trace of a list splits where the list does. */
  lemma {:induction false} VisitAllAppend<R, C, M>(a: seq<RouterNode<R, C, M>>, b: seq<RouterNode<R, C, M>>, v: RouterVisitor<R, C, M>, bound: nat)
    requires forall c :: c in a + b ==> c.Valid() && c.height < bound
    ensures VisitAll(a + b, v, bound) == VisitAll(a, v, bound) + VisitAll(b, v, bound)
    decreases |b|
  {
    if |b| == 0 {
      assert a + b == a;
    } else {
      var b' := b[..|b| - 1];
      assert (a + b)[..|a + b| - 1] == a + b';
      assert (a + b)[|a + b| - 1] == b[|b| - 1];
      VisitAllAppend(a, b', v, bound);
    }
  }

  /** With every callback there and each continuation called once, in order, the visit is the pre-order walk. */
  lemma {:induction false} CompleteVisit<R, C, M>(node: RouterNode<R, C, M>, v: RouterVisitor<R, C, M>)
    requires node.Valid() && forall n :: CallsOnce(v, n)
    ensures Visit(node, v) == PreOrder(node)
    decreases node.height, 1
  {
    assert CallsOnce(v, node);
    match node.payload
    case RoutePayload(_, _, _, _) =>
    case PartialRoutePayload(_, _, _, children) =>
      CompleteVisitAll(children, v, node.height);
      RepeatOnce(VisitAll(children, v, node.height));
    case IndexPayload(children) =>
      CompleteVisitAll(children, v, node.height);
      RepeatOnce(VisitAll(children, v, node.height));
    case IfPayload(_, thenNode, elseNode) =>
      if thenNode != null {
        CompleteVisit(thenNode, v);
      }
      if elseNode != null {
        CompleteVisit(elseNode, v);
      }
      CompleteVisitIf(node, v);
    case MetaPayload(_, child) =>
      CompleteVisit(child, v);
      RepeatOnce(Visit(child, v));
      PreOrderOne(child, node.height);
  }

  /** The IF step: `nextThen` then `nextElse` visits the then branch's walk, then the else branch's. */
  lemma CompleteVisitIf<R, C, M>(node: RouterNode<R, C, M>, v: RouterVisitor<R, C, M>)
    requires node.Valid() && node.payload.IfPayload? && CallsOnce(v, node)
    requires node.payload.thenNode != null ==> Visit(node.payload.thenNode, v) == PreOrder(node.payload.thenNode)
    requires node.payload.elseNode != null ==> Visit(node.payload.elseNode, v) == PreOrder(node.payload.elseNode)
    ensures Visit(node, v) == PreOrder(node)
  {
    var thenNode, elseNode := node.payload.thenNode, node.payload.elseNode;
    var t := VisitOpt(thenNode, v, node.height);
    var e := VisitOpt(elseNode, v, node.height);
    assert Branches([true, false], t, e) == t + e by {
      assert [true, false][1..] == [false];
      assert [false][1..] == [];
      assert Branches([false], t, e) == e + Branches([], t, e);
    }
    if thenNode != null && elseNode != null {
      assert node.payload.Below() == [thenNode, elseNode];
      PreOrderTwo(thenNode, elseNode, node.height);
    } else if thenNode != null {
      assert node.payload.Below() == [thenNode];
      PreOrderOne(thenNode, node.height);
    } else if elseNode != null {
      assert node.payload.Below() == [elseNode];
      PreOrderOne(elseNode, node.height);
    }
  }

  lemma PreOrderOne<R, C, M>(a: RouterNode<R, C, M>, bound: nat)
    requires a.Valid() && a.height < bound
    ensures PreOrderAll([a], bound) == PreOrder(a)
  {
    assert [a][..0] == [];
  }

  lemma PreOrderTwo<R, C, M>(a: RouterNode<R, C, M>, b: RouterNode<R, C, M>, bound: nat)
    requires a.Valid() && a.height < bound && b.Valid() && b.height < bound
    ensures PreOrderAll([a, b], bound) == PreOrder(a) + PreOrder(b)
  {
    assert [a, b][..1] == [a];
    PreOrderOne(a, bound);
  }

  lemma {:induction false} CompleteVisitAll<R, C, M>(nodes: seq<RouterNode<R, C, M>>, v: RouterVisitor<R, C, M>, bound: nat)
    requires forall c :: c in nodes ==> c.Valid() && c.height < bound
    requires forall n :: CallsOnce(v, n)
    ensures VisitAll(nodes, v, bound) == PreOrderAll(nodes, bound)
    decreases bound, 0, |nodes|
  {
    if |nodes| > 0 {
      CompleteVisitAll(nodes[..|nodes| - 1], v, bound);
      CompleteVisit(nodes[|nodes| - 1], v);
    }
  }

  // ---------------------------------------------------------------------
  // The loop

  /** `visitNode(node, visitor)`, replaying the callback's continuation calls. */
  method VisitNode<R, C, M>(node: RouterNode?<R, C, M>, v: RouterVisitor<R, C, M>, ghost bound: nat) returns (trace: seq<RouterNode<R, C, M>>)
    requires node != null ==> node.Valid() && node.height < bound
    ensures trace == VisitOpt(node, v, bound)
    decreases bound, 3
  {
    if node == null {
      return [];
    }
    match node.payload
    case RoutePayload(_, _, _, _) =>
      trace := if v.route then [node] else [];
    case PartialRoutePayload(_, _, _, children) =>
      trace := [];
      if v.partialRoute.Some? {
        var next := VisitChildren(children, v, node.height);
        trace := [node] + Repeat(next, v.partialRoute.value(node));
      }
    case IndexPayload(children) =>
      trace := [];
      if v.index.Some? {
        var next := VisitChildren(children, v, node.height);
        trace := [node] + Repeat(next, v.index.value(node));
      }
    case IfPayload(_, thenNode, elseNode) =>
      trace := [];
      if v.iif.Some? {
        var nextThen := VisitNode(thenNode, v, node.height);
        var nextElse := VisitNode(elseNode, v, node.height);
        trace := [node] + Branches(v.iif.value(node), nextThen, nextElse);
      }
    case MetaPayload(_, child) =>
      trace := [];
      if v.meta.Some? {
        var next := VisitNode(child, v, node.height);
        trace := [node] + Repeat(next, v.meta.value(node));
      }
  }

  /** `visitChildren(nodes, visitor)`: an index loop over the children. */
  method VisitChildren<R, C, M>(nodes: seq<RouterNode<R, C, M>>, v: RouterVisitor<R, C, M>, ghost bound: nat) returns (trace: seq<RouterNode<R, C, M>>)
    requires forall c :: c in nodes ==> c.Valid() && c.height < bound
    ensures trace == VisitAll(nodes, v, bound)
    decreases bound, 4
  {
    trace := [];
    var i := 0;
    while i < |nodes|
      invariant 0 <= i <= |nodes|
      invariant trace == VisitAll(nodes[..i], v, bound)
    {
      assert nodes[..i + 1][..i] == nodes[..i];
      var t := VisitNode(nodes[i], v, bound);
      trace := trace + t;
      i := i + 1;
    }
    assert nodes[..|nodes|] == nodes;
  }
}

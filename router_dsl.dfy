/**
 * The route-tree DSL: `route`, `iif`, `index` and `meta` build route nodes
 * and link each child back to the node that holds it through its mutable
 * `parent`. A node's other fields never change after it is built, so they
 * are constants here, held in one payload per node type.
 */
module RouterDsl {
  import opened Wrappers
  import PatternAst
  import ParsePattern
  import PatternParser
  import ConvertNodeToRegExp

  /** `RouterCallback`: the variables and the context to a result. */
  type RouterCallback<R, !C> = (map<string, string>, C) -> R

  /** The fields of each node type that are fixed at construction. */
  datatype Payload<R, !C, M> =
    | RoutePayload(rawPath: string, path: PatternAst.Node, re: ConvertNodeToRegExp.CompiledRegExp, cb: RouterCallback<R, C>)
    | PartialRoutePayload(rawPath: string, path: PatternAst.Node, re: ConvertNodeToRegExp.CompiledRegExp, children: seq<RouterNode<R, C, M>>)
    | IndexPayload(children: seq<RouterNode<R, C, M>>)
    | IfPayload(condition: RouterCallback<bool, C>, thenNode: RouterNode?<R, C, M>, elseNode: RouterNode?<R, C, M>)
    | MetaPayload(meta: M, child: RouterNode<R, C, M>)
  {
    /** The nodes this one holds, in order. */
    function Below(): seq<RouterNode<R, C, M>> {
      match this
      case RoutePayload(_, _, _, _) => []
      case PartialRoutePayload(_, _, _, children) => children
      case IndexPayload(children) => children
      case IfPayload(_, thenNode, elseNode) =>
        (if thenNode != null then [thenNode] else []) + (if elseNode != null then [elseNode] else [])
      case MetaPayload(_, child) => [child]
    }
  }

  ghost function MaxHeight<R, C, M>(nodes: seq<RouterNode<R, C, M>>): (h: nat)
    ensures forall i :: 0 <= i < |nodes| ==> nodes[i].height <= h
  {
    if |nodes| == 0 then 0
    else
      var rest := MaxHeight(nodes[1..]);
      assert forall i :: 1 <= i < |nodes| ==> nodes[i] == nodes[1..][i - 1];
      if nodes[0].height > rest then nodes[0].height else rest
  }

  class RouterNode<R, !C, M> {
    /** `parent`, assigned by the node that takes this one as a child. */
    var parent: RouterNode?<R, C, M>
    const payload: Payload<R, C, M>
    /** One more than the height of any node below; nodes are built bottom-up, so this is finite. */
    ghost const height: nat

    /** A node is well-founded when every node below it is lower and well-founded too. */
    ghost predicate Valid()
      decreases height
    {
      forall c :: c in payload.Below() ==> c.height < height && c.Valid()
    }

    constructor (payload: Payload<R, C, M>)
      requires forall c :: c in payload.Below() ==> c.Valid()
      ensures this.payload == payload && parent == null && Valid()
    {
      this.payload := payload;
      parent := null;
      height := 1 + MaxHeight(payload.Below());
    }
  }

  /** Every node in `nodes` now names `parent` as its parent. */
  ghost predicate LinkedTo<R, C, M>(nodes: seq<RouterNode<R, C, M>>, parent: RouterNode<R, C, M>)
    reads set c | c in nodes
  {
    forall c :: c in nodes ==> c.parent == parent
  }

  /** `for (const child of children) child.parent = node`. */
  method LinkChildren<R, C, M>(node: RouterNode<R, C, M>, children: seq<RouterNode<R, C, M>>)
    modifies set c | c in children
    ensures LinkedTo(children, node)
  {
    var i := 0;
    while i < |children|
      invariant 0 <= i <= |children|
      invariant forall j :: 0 <= j < i ==> children[j].parent == node
    {
      children[i].parent := node;
      i := i + 1;
    }
  }

  /** The pattern compiled the way `route` compiles it: default options. */
  function DefaultOptions(): ConvertNodeToRegExp.ConverterOptions {
    ConvertNodeToRegExp.ConverterOptions(false, None, None, None, None)
  }

  /**
   * `route(path, children)`: a partial route. The pattern is parsed and
   * compiled before anything is built, so a syntax error leaves every child
   * as it was.
   */
  method RouteWithChildren<R, C, M>(path: string, children: seq<RouterNode<R, C, M>>) returns (r: Result<RouterNode<R, C, M>, ParsePattern.ParseError>)
    requires forall c :: c in children ==> c.Valid()
    modifies set c | c in children
    ensures r.Failure? <==> ParsePattern.Parse(path, true).Failure?
    ensures r.Failure? ==> r.error == ParsePattern.Parse(path, true).error && forall c :: c in children ==> c.parent == old(c.parent)
    ensures r.Success? ==>
      var ast := ParsePattern.Parse(path, true).value;
      && fresh(r.value) && r.value.Valid() && r.value.parent == null
      && r.value.payload == PartialRoutePayload(path, ast, ConvertNodeToRegExp.Convert(ast, DefaultOptions()), children)
      && LinkedTo(children, r.value)
  {
    var parsed := PatternParser.ParsePatternString(path);
    if parsed.Failure? {
      return Failure(parsed.error);
    }
    var node := PartialRoute(path, parsed.value, children);
    return Success(node);
  }

  /** The partial route built once its pattern has parsed. */
  method PartialRoute<R, C, M>(path: string, ast: PatternAst.Node, children: seq<RouterNode<R, C, M>>) returns (node: RouterNode<R, C, M>)
    requires forall c :: c in children ==> c.Valid()
    modifies set c | c in children
    ensures fresh(node) && node.Valid() && node.parent == null
    ensures node.payload == PartialRoutePayload(path, ast, ConvertNodeToRegExp.Convert(ast, DefaultOptions()), children)
    ensures LinkedTo(children, node)
  {
    var re := ConvertNodeToRegExp.ConvertNodeToRegExp(ast, DefaultOptions());
    node := new RouterNode(PartialRoutePayload(path, ast, re, children));
    LinkChildren(node, children);
  }

  /** `route(path, cb)`: a content route, with no parent yet. */
  method RouteWithCallback<R, C, M>(path: string, cb: RouterCallback<R, C>) returns (r: Result<RouterNode<R, C, M>, ParsePattern.ParseError>)
    ensures r.Failure? <==> ParsePattern.Parse(path, true).Failure?
    ensures r.Failure? ==> r.error == ParsePattern.Parse(path, true).error
    ensures r.Success? ==>
      var ast := ParsePattern.Parse(path, true).value;
      && fresh(r.value) && r.value.Valid() && r.value.parent == null
      && r.value.payload == RoutePayload(path, ast, ConvertNodeToRegExp.Convert(ast, DefaultOptions()), cb)
  {
    var parsed := PatternParser.ParsePatternString(path);
    if parsed.Failure? {
      return Failure(parsed.error);
    }
    var re := ConvertNodeToRegExp.ConvertNodeToRegExp(parsed.value, DefaultOptions());
    var node := new RouterNode(RoutePayload(path, parsed.value, re, cb));
    return Success(node);
  }

  /** `iif(condition, thenNode = null, elseNode = null)`: the branches' parents are left alone. */
  method Iif<R, C, M>(condition: RouterCallback<bool, C>, thenNode: RouterNode?<R, C, M>, elseNode: RouterNode?<R, C, M>) returns (node: RouterNode<R, C, M>)
    requires thenNode != null ==> thenNode.Valid()
    requires elseNode != null ==> elseNode.Valid()
    ensures fresh(node) && node.Valid() && node.parent == null
    ensures node.payload == IfPayload(condition, thenNode, elseNode)
  {
    node := new RouterNode(IfPayload(condition, thenNode, elseNode));
  }

  /** `index(children)`: the children in the given order, each linked back to the new node. */
  method Index<R, C, M>(children: seq<RouterNode<R, C, M>>) returns (node: RouterNode<R, C, M>)
    requires forall c :: c in children ==> c.Valid()
    modifies set c | c in children
    ensures fresh(node) && node.Valid() && node.parent == null
    ensures node.payload == IndexPayload(children)
    ensures LinkedTo(children, node)
  {
    node := new RouterNode(IndexPayload(children));
    LinkChildren(node, children);
  }

  /** `meta(meta, child)`: `child.parent` becomes the new node, which is returned. */
  method Meta<R, C, M>(meta: M, child: RouterNode<R, C, M>) returns (node: RouterNode<R, C, M>)
    requires child.Valid()
    modifies child
    ensures fresh(node) && node.Valid() && node.parent == null
    ensures node.payload == MetaPayload(meta, child) && child.parent == node
  {
    node := new RouterNode(MetaPayload(meta, child));
    child.parent := node;
  }
}

/**
 * `resolveRoute`: a first-match-wins search of the route tree for the node
 * whose pattern consumes the path, threading the remaining path and the
 * variables captured so far. The compiled pattern of a node is a matcher
 * given as a function value; what it matches is not modelled. Route
 * callbacks and conditions are function values of the variables and the
 * context.
 */
module ResolveRoute {
  import opened Wrappers

  /** A variables map; a key may hold `undefined` (`None`) when its group did not take part in the match. */
  type Vars = map<string, Option<string>>

  /** What `exec` returns on a match: `match[0]`, then the groups `match[1..]`. */
  datatype Match = Match(whole: string, groups: seq<Option<string>>) {
    /** `match.length`. */
    function Length(): nat {
      1 + |groups|
    }

    /** `match[i]`, `undefined` past the end. */
    function At(i: nat): Option<string> {
      if i == 0 then Some(whole) else if i - 1 < |groups| then groups[i - 1] else None
    }
  }

  type Matcher = string -> Option<Match>

  /**
   * The node shape the resolver reads: a ROUTE, an INDEX whose pattern is
   * optional (a partial route is an INDEX with one), an IF and a META.
   * `varMap` maps a variable name to its group index.
   */
  datatype RouteNode<R, !C> =
    | Route(re: Matcher, varMap: map<string, nat>, cb: (Vars, C) -> R)
    | Index(indexRe: Option<Matcher>, varMap: map<string, nat>, children: seq<RouteNode<R, C>>)
    | If(condition: (Vars, C) -> bool, thenNode: Option<RouteNode<R, C>>, elseNode: Option<RouteNode<R, C>>)
    | Meta(childNode: RouteNode<R, C>)

  datatype Resolution<R> = Resolution(result: R, vars: Vars)

  /** `vars = {...vars}` followed by `vars[key] = match[varMap[key]]` for every key. */
  function Bind(vars: Vars, varMap: map<string, nat>, m: Match): (r: Vars)
    ensures forall k :: k in r <==> k in vars || k in varMap
    ensures forall k :: k in varMap ==> r[k] == m.At(varMap[k])
  {
    map k | k in vars.Keys + varMap.Keys :: if k in varMap then m.At(varMap[k]) else vars[k]
  }

  /** The variables are only copied and written when the match has a group. */
  function Capture(vars: Vars, varMap: map<string, nat>, m: Match): Vars {
    if m.Length() > 1 then Bind(vars, varMap, m) else vars
  }

  /** `path.substring(n)`, which gives `""` past the end. */
  function Substring(path: string, n: nat): (r: string)
    ensures n <= |path| ==> r == path[n..]
  {
    if n <= |path| then path[n..] else ""
  }

  /** `resolveRoute(node, path, context, vars)`; `null` is `None`. */
  function Resolve<R, C>(node: RouteNode<R, C>, path: string, ctx: C, vars: Vars): Option<Resolution<R>>
    decreases node, 1
  {
    match node
    case Route(re, varMap, cb) =>
      var m := re(path);
      if m.None? || m.value.whole != path then None
      else
        var vars' := Capture(vars, varMap, m.value);
        Some(Resolution(cb(vars', ctx), vars'))
    case Index(re, varMap, children) =>
      if re.Some? then
        var m := re.value(path);
        if m.None? then None
        else FirstMatch(children, Substring(path, |m.value.whole|), ctx, Capture(vars, varMap, m.value))
      else FirstMatch(children, path, ctx, vars)
    case If(condition, thenNode, elseNode) =>
      if condition(vars, ctx) then
        (if thenNode.Some? then Resolve(thenNode.value, path, ctx, vars) else None)
      else
        (if elseNode.Some? then Resolve(elseNode.value, path, ctx, vars) else None)
    case Meta(childNode) => Resolve(childNode, path, ctx, vars)
  }

  /** The children tried in order with the same path and variables; the first result wins. */
  function FirstMatch<R, C>(children: seq<RouteNode<R, C>>, path: string, ctx: C, vars: Vars): Option<Resolution<R>>
    decreases children, 0
  {
    if |children| == 0 then None
    else
      var r := Resolve(children[0], path, ctx, vars);
      if r.Some? then r else FirstMatch(children[1..], path, ctx, vars)
  }

  // ---------------------------------------------------------------------
  // Properties

  /** A ROUTE resolves exactly when its pattern matches the whole remaining path, and then calls back. */
  lemma RouteResolves<R, C>(re: Matcher, varMap: map<string, nat>, cb: (Vars, C) -> R, path: string, ctx: C, vars: Vars)
    ensures var r := Resolve(Route(re, varMap, cb), path, ctx, vars);
      && (r.Some? <==> re(path).Some? && re(path).value.whole == path)
      && (r.Some? ==> r.value.vars == Capture(vars, varMap, re(path).value) && r.value.result == cb(r.value.vars, ctx))
  {
  }

  /** The copied variables: every mapped name gets its group, every other name keeps its value. */
  lemma BindKeeps(vars: Vars, varMap: map<string, nat>, m: Match, k: string)
    requires k in vars && k !in varMap
    ensures k in Bind(vars, varMap, m) && Bind(vars, varMap, m)[k] == vars[k]
  {
  }

  /** Nothing follows a successful child: the first child that resolves gives the result. */
  lemma {:induction false} FirstMatchFirst<R, C>(children: seq<RouteNode<R, C>>, path: string, ctx: C, vars: Vars, i: nat)
    requires i < |children| && Resolve(children[i], path, ctx, vars).Some?
    requires forall j :: 0 <= j < i ==> Resolve(children[j], path, ctx, vars).None?
    ensures FirstMatch(children, path, ctx, vars) == Resolve(children[i], path, ctx, vars)
    decreases i
  {
    if i > 0 {
      assert Resolve(children[0], path, ctx, vars).None?;
      var rest := children[1..];
      assert rest[i - 1] == children[i];
      forall j | 0 <= j < i - 1
        ensures Resolve(rest[j], path, ctx, vars).None?
      {
        assert rest[j] == children[j + 1];
      }
      FirstMatchFirst(rest, path, ctx, vars, i - 1);
    }
  }

  /** A container gives `null` exactly when every child does. */
  lemma {:induction false} FirstMatchNone<R, C>(children: seq<RouteNode<R, C>>, path: string, ctx: C, vars: Vars)
    ensures FirstMatch(children, path, ctx, vars).None? <==> forall i :: 0 <= i < |children| ==> Resolve(children[i], path, ctx, vars).None?
    decreases |children|
  {
    if |children| > 0 {
      var rest := children[1..];
      FirstMatchNone(rest, path, ctx, vars);
      assert forall i :: 1 <= i < |children| ==> children[i] == rest[i - 1];
    }
  }

  /** The children after the one that resolves are never consulted. */
  lemma {:induction false} FirstMatchIgnoresRest<R, C>(a: seq<RouteNode<R, C>>, b: seq<RouteNode<R, C>>, path: string, ctx: C, vars: Vars)
    requires FirstMatch(a, path, ctx, vars).Some?
    ensures FirstMatch(a + b, path, ctx, vars) == FirstMatch(a, path, ctx, vars)
    decreases |a|
  {
    assert (a + b)[0] == a[0];
    if Resolve(a[0], path, ctx, vars).None? {
      assert (a + b)[1..] == a[1..] + b;
      FirstMatchIgnoresRest(a[1..], b, path, ctx, vars);
    }
  }

  /** A container without a pattern passes the path and variables through unchanged. */
  lemma IndexWithoutPattern<R, C>(varMap: map<string, nat>, children: seq<RouteNode<R, C>>, path: string, ctx: C, vars: Vars)
    ensures Resolve(Index(None, varMap, children), path, ctx, vars) == FirstMatch(children, path, ctx, vars)
  {
  }

  /** A container with a pattern: no match gives `null`, otherwise its children see the path after the match. */
  lemma IndexWithPattern<R, C>(re: Matcher, varMap: map<string, nat>, children: seq<RouteNode<R, C>>, path: string, ctx: C, vars: Vars)
    ensures var r := Resolve(Index(Some(re), varMap, children), path, ctx, vars);
      && (re(path).None? ==> r.None?)
      && (re(path).Some? && |re(path).value.whole| <= |path| ==>
            r == FirstMatch(children, path[|re(path).value.whole|..], ctx, Capture(vars, varMap, re(path).value)))
  {
  }

  /** An IF selects by its condition, and an absent selected branch gives `null` with no fall-through. */
  lemma IfSelects<R, C>(condition: (Vars, C) -> bool, thenNode: Option<RouteNode<R, C>>, elseNode: Option<RouteNode<R, C>>, path: string, ctx: C, vars: Vars)
    ensures var r := Resolve(If(condition, thenNode, elseNode), path, ctx, vars);
      && (condition(vars, ctx) ==> r == if thenNode.Some? then Resolve(thenNode.value, path, ctx, vars) else None)
      && (!condition(vars, ctx) ==> r == if elseNode.Some? then Resolve(elseNode.value, path, ctx, vars) else None)
  {
  }

  /** Resolving never drops a variable the caller passed in. */
  lemma {:induction false} ResolveKeepsKeys<R, C>(node: RouteNode<R, C>, path: string, ctx: C, vars: Vars)
    ensures var r := Resolve(node, path, ctx, vars); r.Some? ==> vars.Keys <= r.value.vars.Keys
    decreases node, 1
  {
    match node
    case Route(_, _, _) =>
    case Index(re, varMap, children) =>
      if re.Some? {
        var m := re.value(path);
        if m.Some? {
          FirstMatchKeepsKeys(children, Substring(path, |m.value.whole|), ctx, Capture(vars, varMap, m.value));
        }
      } else {
        FirstMatchKeepsKeys(children, path, ctx, vars);
      }
    case If(condition, thenNode, elseNode) =>
      if condition(vars, ctx) && thenNode.Some? {
        ResolveKeepsKeys(thenNode.value, path, ctx, vars);
      } else if !condition(vars, ctx) && elseNode.Some? {
        ResolveKeepsKeys(elseNode.value, path, ctx, vars);
      }
    case Meta(childNode) => ResolveKeepsKeys(childNode, path, ctx, vars);
  }

  lemma {:induction false} FirstMatchKeepsKeys<R, C>(children: seq<RouteNode<R, C>>, path: string, ctx: C, vars: Vars)
    ensures var r := FirstMatch(children, path, ctx, vars); r.Some? ==> vars.Keys <= r.value.vars.Keys
    decreases children, 0
  {
    if |children| > 0 {
      ResolveKeepsKeys(children[0], path, ctx, vars);
      FirstMatchKeepsKeys(children[1..], path, ctx, vars);
    }
  }

  // ---------------------------------------------------------------------
  // The resolver as a program

  /** The `for...in` loop over the variable map, writing into a copy of the variables. */
  method CopyVars(vars: Vars, varMap: map<string, nat>, m: Match) returns (r: Vars)
    ensures r == Bind(vars, varMap, m)
  {
    r := vars;
    var keys := varMap.Keys;
    while keys != {}
      invariant keys <= varMap.Keys
      invariant forall k :: k in r <==> k in vars || (k in varMap && k !in keys)
      invariant forall k :: k in varMap && k !in keys ==> r[k] == m.At(varMap[k])
      invariant forall k :: k in vars && (k !in varMap || k in keys) ==> r[k] == vars[k]
      decreases |keys|
    {
      var key :| key in keys;
      r := r[key := m.At(varMap[key])];
      keys := keys - {key};
    }
  }

  /** `resolveRoute`, with the early-return loop over a container's children. */
  method ResolveRoute<R, C>(node: RouteNode<R, C>, path: string, ctx: C, vars: Vars) returns (r: Option<Resolution<R>>)
    ensures r == Resolve(node, path, ctx, vars)
    decreases node
  {
    match node
    case Route(re, varMap, cb) =>
      var m := re(path);
      if m.None? || m.value.whole != path {
        return None;
      }
      var vars' := vars;
      if m.value.Length() > 1 {
        vars' := CopyVars(vars, varMap, m.value);
      }
      return Some(Resolution(cb(vars', ctx), vars'));
    case Index(re, varMap, children) =>
      var path', vars' := path, vars;
      if re.Some? {
        var m := re.value(path);
        if m.None? {
          return None;
        }
        path' := Substring(path, |m.value.whole|);
        if m.value.Length() > 1 {
          vars' := CopyVars(vars, varMap, m.value);
        }
      }
      var i := 0;
      while i < |children|
        invariant 0 <= i <= |children|
        invariant FirstMatch(children[i..], path', ctx, vars') == Resolve(node, path, ctx, vars)
      {
        assert children[i..][1..] == children[i + 1..];
        var result := ResolveRoute(children[i], path', ctx, vars');
        if result.Some? {
          return result;
        }
        i := i + 1;
      }
      return None;
    case If(condition, thenNode, elseNode) =>
      if condition(vars, ctx) {
        if thenNode.Some? {
          r := ResolveRoute(thenNode.value, path, ctx, vars);
        } else {
          r := None;
        }
      } else {
        if elseNode.Some? {
          r := ResolveRoute(elseNode.value, path, ctx, vars);
        } else {
          r := None;
        }
      }
    case Meta(childNode) =>
      r := ResolveRoute(childNode, path, ctx, vars);
  }
}

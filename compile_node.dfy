/**
 * `compileNode`: the compiler AST to the source text of an expression that
 * builds a path. Strings become JSON string literals, concatenations and
 * selections become `concat(...)` and `select(...)` calls, and each param
 * becomes whatever the caller's `provideParamVarName` returns for it. The
 * function throws on a regular expression that is not a param constraint;
 * here that is the `Failure` case.
 */
module CompileNode {
  import opened Wrappers
  import opened CompilerAst
  import Strings

  /** `provideParamVarName(node, optional)`: the expression that reads a param. */
  type Provide = (Node, bool) -> string

  const RegExpError := "Expected regular expression to be a param constraint"

  /** A param whose constraint is absent, terminal, or a selection of terminals reads as the param alone. */
  predicate Simple(constraint: Option<Node>) {
    || constraint.None?
    || constraint.value.IsTerminal()
    || (constraint.value.Select? && forall i :: 0 <= i < |constraint.value.children| ==> constraint.value.children[i].IsTerminal())
  }

  function Compile(node: Node, optional: bool, provide: Provide): Result<string, string>
    decreases node, 1
  {
    match node
    case Concat(cs) =>
      var parts :- CompileAll(cs, optional, provide);
      Success("concat(" + Strings.Join(parts, ",") + ")")
    case Select(cs) =>
      var parts :- CompileAll(cs, true, provide);
      Success("select(" + Strings.Join(parts, ",") + ")")
    case Param(_, constraint) =>
      if Simple(constraint) then Success(provide(node, optional))
      else
        var inner :- Compile(constraint.value, true, provide);
        Success(provide(node, true) + "??" + inner)
    case Wildcard(_) => Success("\"\"")
    case RegExp(_) => Failure(RegExpError)
    case String(value) => Success(Strings.JsonQuote(value))
  }

  /** `children.map(...)`: compiled left to right, the first throw ending it. */
  function CompileAll(cs: seq<Node>, optional: bool, provide: Provide): Result<seq<string>, string>
    decreases cs, 0
  {
    if |cs| == 0 then Success([])
    else
      var init :- CompileAll(cs[..|cs| - 1], optional, provide);
      var last :- Compile(cs[|cs| - 1], optional, provide);
      Success(init + [last])
  }

  /** The calls of `provideParamVarName`, in the order they are made. */
  function Calls(node: Node, optional: bool): seq<(Node, bool)>
    decreases node, 1
  {
    match node
    case Concat(cs) => CallsAll(cs, optional)
    case Select(cs) => CallsAll(cs, true)
    case Param(_, constraint) =>
      if Simple(constraint) then [(node, optional)] else [(node, true)] + Calls(constraint.value, true)
    case Wildcard(_) => []
    case RegExp(_) => []
    case String(_) => []
  }

  function CallsAll(cs: seq<Node>, optional: bool): seq<(Node, bool)>
    decreases cs, 0
  {
    if |cs| == 0 then [] else CallsAll(cs[..|cs| - 1], optional) + Calls(cs[|cs| - 1], optional)
  }

  // ---------------------------------------------------------------------
  // Reference: when compiling succeeds

  /** No regular expression is reached except as a param's simple constraint. */
  predicate Compilable(node: Node)
    decreases node, 1
  {
    match node
    case Concat(cs) => AllCompilable(cs)
    case Select(cs) => AllCompilable(cs)
    case Param(_, constraint) => Simple(constraint) || Compilable(constraint.value)
    case Wildcard(_) => true
    case RegExp(_) => false
    case String(_) => true
  }

  predicate AllCompilable(cs: seq<Node>)
    decreases cs, 0
  {
    forall i :: 0 <= i < |cs| ==> Compilable(cs[i])
  }

  // ---------------------------------------------------------------------
  // Properties

  /** Compiling throws exactly when a regular expression is reached outside a simple constraint, and then always with the same message. */
  lemma {:induction false} CompileSucceeds(node: Node, optional: bool, provide: Provide)
    ensures Compile(node, optional, provide).Success? <==> Compilable(node)
    ensures Compile(node, optional, provide).Failure? ==> Compile(node, optional, provide).error == RegExpError
    decreases node, 1
  {
    match node
    case Concat(cs) => CompileAllSucceeds(cs, optional, provide);
    case Select(cs) => CompileAllSucceeds(cs, true, provide);
    case Param(_, constraint) =>
      if !Simple(constraint) {
        CompileSucceeds(constraint.value, true, provide);
      }
    case Wildcard(_) =>
    case RegExp(_) =>
    case String(_) =>
  }

  lemma {:induction false} CompileAllSucceeds(cs: seq<Node>, optional: bool, provide: Provide)
    ensures CompileAll(cs, optional, provide).Success? <==> AllCompilable(cs)
    ensures CompileAll(cs, optional, provide).Failure? ==> CompileAll(cs, optional, provide).error == RegExpError
    ensures CompileAll(cs, optional, provide).Success? ==> |CompileAll(cs, optional, provide).value| == |cs|
    ensures CompileAll(cs, optional, provide).Success? ==> forall i :: 0 <= i < |cs| ==>
      Compile(cs[i], optional, provide).Success? && CompileAll(cs, optional, provide).value[i] == Compile(cs[i], optional, provide).value
    decreases cs, 0
  {
    if |cs| > 0 {
      var init := cs[..|cs| - 1];
      CompileAllSucceeds(init, optional, provide);
      CompileSucceeds(cs[|cs| - 1], optional, provide);
      assert forall i :: 0 <= i < |init| ==> init[i] == cs[i];
    }
  }

  /** Two callbacks return the same text at each of `calls`. */
  predicate Agree(p: Provide, q: Provide, calls: seq<(Node, bool)>) {
    forall k :: 0 <= k < |calls| ==> p(calls[k].0, calls[k].1) == q(calls[k].0, calls[k].1)
  }

  lemma AgreeSplit(p: Provide, q: Provide, a: seq<(Node, bool)>, b: seq<(Node, bool)>)
    requires Agree(p, q, a + b)
    ensures Agree(p, q, a) && Agree(p, q, b)
  {
    assert forall k :: 0 <= k < |a| ==> a[k] == (a + b)[k];
    assert forall k :: 0 <= k < |b| ==> b[k] == (a + b)[k + |a|];
  }

  /**
   * The callback is consulted only at the calls listed by `Calls`: two
   * callbacks that agree there compile a node to the same text.
   */
  lemma {:induction false} OnlyCallsMatter(node: Node, optional: bool, p: Provide, q: Provide)
    requires Agree(p, q, Calls(node, optional))
    ensures Compile(node, optional, p) == Compile(node, optional, q)
    decreases node, 1
  {
    match node
    case Concat(cs) => OnlyCallsMatterAll(cs, optional, p, q);
    case Select(cs) => OnlyCallsMatterAll(cs, true, p, q);
    case Param(_, constraint) =>
      if !Simple(constraint) {
        AgreeSplit(p, q, [(node, true)], Calls(constraint.value, true));
        OnlyCallsMatter(constraint.value, true, p, q);
        assert [(node, true)][0] == (node, true);
      } else {
        assert Calls(node, optional)[0] == (node, optional);
      }
    case Wildcard(_) =>
    case RegExp(_) =>
    case String(_) =>
  }

  lemma {:induction false} OnlyCallsMatterAll(cs: seq<Node>, optional: bool, p: Provide, q: Provide)
    requires Agree(p, q, CallsAll(cs, optional))
    ensures CompileAll(cs, optional, p) == CompileAll(cs, optional, q)
    decreases cs, 0
  {
    if |cs| > 0 {
      var init := cs[..|cs| - 1];
      AgreeSplit(p, q, CallsAll(init, optional), Calls(cs[|cs| - 1], optional));
      OnlyCallsMatterAll(init, optional, p, q);
      OnlyCallsMatter(cs[|cs| - 1], optional, p, q);
    }
  }

  /** Every call is made for a param, and below an optional position every call is optional too. */
  lemma {:induction false} CallsAreParams(node: Node, optional: bool)
    ensures forall k :: 0 <= k < |Calls(node, optional)| ==> Calls(node, optional)[k].0.Param?
    ensures optional ==> forall k :: 0 <= k < |Calls(node, optional)| ==> Calls(node, optional)[k].1
    decreases node, 1
  {
    match node
    case Concat(cs) => CallsAllAreParams(cs, optional);
    case Select(cs) => CallsAllAreParams(cs, true);
    case Param(_, constraint) =>
      if !Simple(constraint) {
        CallsAreParams(constraint.value, true);
        var rest := Calls(constraint.value, true);
        assert forall k :: 1 <= k < |Calls(node, optional)| ==> Calls(node, optional)[k] == rest[k - 1];
      }
    case Wildcard(_) =>
    case RegExp(_) =>
    case String(_) =>
  }

  lemma {:induction false} CallsAllAreParams(cs: seq<Node>, optional: bool)
    ensures forall k :: 0 <= k < |CallsAll(cs, optional)| ==> CallsAll(cs, optional)[k].0.Param?
    ensures optional ==> forall k :: 0 <= k < |CallsAll(cs, optional)| ==> CallsAll(cs, optional)[k].1
    decreases cs, 0
  {
    if |cs| > 0 {
      var init := cs[..|cs| - 1];
      CallsAllAreParams(init, optional);
      CallsAreParams(cs[|cs| - 1], optional);
    }
  }

  /** A string compiles to a JSON literal that reads back as the string; a wildcard to the empty one. */
  lemma StringLiteral(value: string, greedy: bool, optional: bool, provide: Provide)
    ensures Compile(String(value), optional, provide).Success?
    ensures Strings.JsonUnquote(Compile(String(value), optional, provide).value) == Some(value)
    ensures Strings.JsonUnquote(Compile(Wildcard(greedy), optional, provide).value) == Some("")
  {
    Strings.JsonQuoteRoundTrip(value);
    Strings.JsonQuoteRoundTrip("");
  }

  /** A param with a constraint that is not simple reads as the optional param, falling back to its constraint. */
  lemma ParamFallback(name: Option<string>, constraint: Node, optional: bool, provide: Provide)
    requires !Simple(Some(constraint)) && Compilable(constraint)
    ensures Compile(Param(name, Some(constraint)), optional, provide).Success?
    ensures Compile(Param(name, Some(constraint)), optional, provide).value ==
      provide(Param(name, Some(constraint)), true) + "??" + Compile(constraint, true, provide).value
  {
    CompileSucceeds(constraint, true, provide);
  }
}

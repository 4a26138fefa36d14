/**
 * `compileFunction`: the source text of a TypeScript function that builds a
 * path from a params object, preceded by the interface of that object when
 * the pattern has params. Compiling the node calls `provideParamVarName`
 * once per param occurrence; that callback records the param's name,
 * whether it is optional, and its type in `paramTypeMap`, and returns the
 * expression that reads it.
 */
module CompileFunction {
  import opened Wrappers
  import opened CompilerAst
  import CompileNode
  import Strings

  /** `IFunctionCompilerOptions`. */
  datatype Options = Options(
    functionName: string,
    interfaceName: string,
    paramsVarName: string,
    renameParam: Option<string> -> string)

  /** One entry of `paramTypeMap`: the renamed param, its type text, and whether it is optional. */
  datatype ParamType = ParamType(name: string, typeText: string, optional: bool)

  /** `isStringNode`. */
  predicate IsString(node: Option<Node>) {
    node.Some? && node.value.String?
  }

  predicate AllStrings(cs: seq<Node>) {
    forall i :: 0 <= i < |cs| ==> cs[i].String?
  }

  /** The JSON-quoted values of string nodes, in order. */
  function QuotedValues(cs: seq<Node>): (r: seq<string>)
    requires AllStrings(cs)
    ensures |r| == |cs| && forall i :: 0 <= i < |cs| ==> r[i] == Strings.JsonQuote(cs[i].value)
  {
    if |cs| == 0 then [] else QuotedValues(cs[..|cs| - 1]) + [Strings.JsonQuote(cs[|cs| - 1].value)]
  }

  /** The type of a param constrained by a selection of strings: the union of their literal types. */
  function UnionType(cs: seq<Node>): string
    requires AllStrings(cs)
  {
    Strings.Join(QuotedValues(cs), "|")
  }

  /** The type of a param constrained by one string: its literal type. */
  function StringType(value: string): string {
    Strings.JsonQuote(value)
  }

  /** `JSON.stringify` of a STRING node object, `{nodeType, value}` in that key order. */
  function NodeJson(value: string): string {
    "{\"nodeType\":\"STRING\",\"value\":" + Strings.JsonQuote(value) + "}"
  }

  /** How one call updates a param's type (the two `if`s after the `||=`). */
  function ConstraintType(constraint: Option<Node>, current: string): string {
    if constraint.Some? && constraint.value.Select? && AllStrings(constraint.value.children) then
      UnionType(constraint.value.children)
    else if IsString(constraint) then StringType(constraint.value.value)
    else current
  }

  /** The same update as the source writes it: the whole node is stringified for a string constraint. */
  function AsWrittenConstraintType(constraint: Option<Node>, current: string): string {
    if constraint.Some? && constraint.value.Select? && AllStrings(constraint.value.children) then
      UnionType(constraint.value.children)
    else if IsString(constraint) then NodeJson(constraint.value.value)
    else current
  }

  function ParamName(node: Node, opts: Options): string {
    opts.renameParam(if node.Param? then node.name else None)
  }

  function ParamConstraint(node: Node): Option<Node> {
    if node.Param? then node.constraint else None
  }

  /** What `provideParamVarName` returns: the params object's property. */
  function Reference(opts: Options, node: Node): string {
    opts.paramsVarName + "." + ParamName(node, opts)
  }

  function ReferenceProvider(opts: Options): CompileNode.Provide {
    (node: Node, optional: bool) => Reference(opts, node)
  }

  function Names(entries: seq<ParamType>): (r: seq<string>)
    ensures |r| == |entries| && forall i :: 0 <= i < |entries| ==> r[i] == entries[i].name
  {
    if |entries| == 0 then [] else Names(entries[..|entries| - 1]) + [entries[|entries| - 1].name]
  }

  /** The position of `name` among the entries' names, if it is there. */
  function IndexOf(entries: seq<ParamType>, name: string): (r: Option<nat>)
    ensures r.Some? ==> r.value < |entries| && entries[r.value].name == name
    ensures r.None? ==> forall i :: 0 <= i < |entries| ==> entries[i].name != name
  {
    if |entries| == 0 then None
    else if entries[|entries| - 1].name == name then Some(|entries| - 1)
    else
      var r := IndexOf(entries[..|entries| - 1], name);
      assert forall i :: 0 <= i < |entries| - 1 ==> entries[..|entries| - 1][i] == entries[i];
      r
  }

  /** One call of `provideParamVarName(node, optional)` on the map. */
  function Provided(entries: seq<ParamType>, node: Node, optional: bool, opts: Options): seq<ParamType> {
    var name := ParamName(node, opts);
    match IndexOf(entries, name)
    case None => entries + [ParamType(name, ConstraintType(ParamConstraint(node), "string"), optional)]
    case Some(i) => entries[i := entries[i].(typeText := ConstraintType(ParamConstraint(node), entries[i].typeText))]
  }

  /** The map after `calls`, in order. */
  function ProvidedAll(calls: seq<(Node, bool)>, opts: Options): seq<ParamType> {
    if |calls| == 0 then []
    else
      var last := calls[|calls| - 1];
      Provided(ProvidedAll(calls[..|calls| - 1], opts), last.0, last.1, opts)
  }

  function EntryText(e: ParamType): string {
    e.name + (if e.optional then "?:" else ":") + e.typeText + ";"
  }

  function EntriesText(entries: seq<ParamType>): string {
    if |entries| == 0 then "" else EntriesText(entries[..|entries| - 1]) + EntryText(entries[|entries| - 1])
  }

  function FunctionText(opts: Options, hasParams: bool, src: string): string {
    "export function " + opts.functionName + "(" + (if hasParams then opts.paramsVarName + ":" + opts.interfaceName else "")
      + "):string|null{" + "return " + src + ";" + "}"
  }

  function InterfaceText(opts: Options, entries: seq<ParamType>): string {
    "export interface " + opts.interfaceName + "{" + EntriesText(entries) + "}"
  }

  /** `compileFunction(node, options)`; a throw from `compileNode` is the `Failure`. */
  function Compile(node: Node, opts: Options): Result<string, string> {
    var src :- CompileNode.Compile(node, false, ReferenceProvider(opts));
    var entries := ProvidedAll(CompileNode.Calls(node, false), opts);
    var fn := FunctionText(opts, |entries| > 0, src);
    Success(if |entries| == 0 then fn else InterfaceText(opts, entries) + fn)
  }

  // ---------------------------------------------------------------------
  // Reference: one param's story across the calls

  function NameOf(call: (Node, bool), opts: Options): string {
    ParamName(call.0, opts)
  }

  /** The renamed names of the calls, each kept at its first occurrence. */
  function FirstSeen(calls: seq<(Node, bool)>, opts: Options): seq<string> {
    if |calls| == 0 then []
    else
      var init := FirstSeen(calls[..|calls| - 1], opts);
      var name := NameOf(calls[|calls| - 1], opts);
      if name in init then init else init + [name]
  }

  /** The optional flag of the first call for `name`. */
  function FirstOptional(calls: seq<(Node, bool)>, name: string, opts: Options): Option<bool> {
    if |calls| == 0 then None
    else
      var init := FirstOptional(calls[..|calls| - 1], name, opts);
      if init.Some? then init
      else if NameOf(calls[|calls| - 1], opts) == name then Some(calls[|calls| - 1].1)
      else None
  }

  /** The type of `name` after the calls: `string`, updated by each call for that name in turn. */
  function TypeOf(calls: seq<(Node, bool)>, name: string, opts: Options): string {
    if |calls| == 0 then "string"
    else
      var init := TypeOf(calls[..|calls| - 1], name, opts);
      var last := calls[|calls| - 1];
      if NameOf(last, opts) == name then ConstraintType(ParamConstraint(last.0), init) else init
  }

  /** Each entry is its name's first-seen position, its first call's flag and its type so far. */
  ghost predicate Describes(entries: seq<ParamType>, calls: seq<(Node, bool)>, opts: Options) {
    && Names(entries) == FirstSeen(calls, opts)
    && (forall i :: 0 <= i < |entries| ==> FirstOptional(calls, entries[i].name, opts) == Some(entries[i].optional))
    && (forall i :: 0 <= i < |entries| ==> entries[i].typeText == TypeOf(calls, entries[i].name, opts))
  }

  // ---------------------------------------------------------------------
  // Properties

  lemma {:induction false} FirstSeenHas(calls: seq<(Node, bool)>, name: string, opts: Options)
    ensures name in FirstSeen(calls, opts) <==> FirstOptional(calls, name, opts).Some?
  {
    if |calls| > 0 {
      FirstSeenHas(calls[..|calls| - 1], name, opts);
    }
  }

  lemma {:induction false} TypeOfUntouched(calls: seq<(Node, bool)>, name: string, opts: Options)
    requires FirstOptional(calls, name, opts).None?
    ensures TypeOf(calls, name, opts) == "string"
  {
    if |calls| > 0 {
      TypeOfUntouched(calls[..|calls| - 1], name, opts);
    }
  }

  /** One more call keeps the map a description of the calls so far. */
  lemma {:induction false} DescribesStep(entries: seq<ParamType>, calls: seq<(Node, bool)>, call: (Node, bool), opts: Options)
    requires Describes(entries, calls, opts)
    ensures Describes(Provided(entries, call.0, call.1, opts), calls + [call], opts)
  {
    var all := calls + [call];
    assert all[..|all| - 1] == calls;
    match IndexOf(entries, NameOf(call, opts))
    case None => DescribesNew(entries, calls, call, opts);
    case Some(k) => DescribesUpdate(entries, calls, call, k, opts);
  }

  /** A first call for a name appends its entry. */
  lemma {:induction false} DescribesNew(entries: seq<ParamType>, calls: seq<(Node, bool)>, call: (Node, bool), opts: Options)
    requires Describes(entries, calls, opts) && IndexOf(entries, NameOf(call, opts)).None?
    ensures Describes(Provided(entries, call.0, call.1, opts), calls + [call], opts)
  {
    var all := calls + [call];
    assert all[..|all| - 1] == calls;
    var name := NameOf(call, opts);
    var r := Provided(entries, call.0, call.1, opts);
    assert name !in FirstSeen(calls, opts) by {
      assert forall i :: 0 <= i < |entries| ==> Names(entries)[i] != name;
    }
    FirstSeenHas(calls, name, opts);
    TypeOfUntouched(calls, name, opts);
    assert Names(r) == Names(entries) + [name] by {
      assert r[..|r| - 1] == entries;
    }
    assert forall i :: 0 <= i < |entries| ==> r[i] == entries[i] && r[i].name != name;
  }

  /** A later call for a name updates only its entry's type. */
  lemma {:induction false} DescribesUpdate(entries: seq<ParamType>, calls: seq<(Node, bool)>, call: (Node, bool), k: nat, opts: Options)
    requires Describes(entries, calls, opts) && IndexOf(entries, NameOf(call, opts)) == Some(k)
    ensures Describes(Provided(entries, call.0, call.1, opts), calls + [call], opts)
  {
    var all := calls + [call];
    assert all[..|all| - 1] == calls;
    var name := NameOf(call, opts);
    var r := Provided(entries, call.0, call.1, opts);
    assert name in FirstSeen(calls, opts) by {
      assert Names(entries)[k] == name;
    }
    assert Names(r) == Names(entries) by {
      assert forall i :: 0 <= i < |r| ==> r[i].name == entries[i].name;
    }
    assert forall i :: 0 <= i < |r| && i != k ==> r[i] == entries[i] && r[i].name != name by {
      NamesDistinct(calls, opts);
      assert forall i :: 0 <= i < |entries| ==> entries[i].name == FirstSeen(calls, opts)[i];
    }
  }

  predicate Distinct(s: seq<string>) {
    forall i, j :: 0 <= i < j < |s| ==> s[i] != s[j]
  }

  /** The first-seen names are distinct. */
  lemma {:induction false} NamesDistinct(calls: seq<(Node, bool)>, opts: Options)
    ensures Distinct(FirstSeen(calls, opts))
  {
    if |calls| > 0 {
      var init := FirstSeen(calls[..|calls| - 1], opts);
      var name := NameOf(calls[|calls| - 1], opts);
      NamesDistinct(calls[..|calls| - 1], opts);
      if name !in init {
        var s := init + [name];
        assert s == FirstSeen(calls, opts);
        forall i, j | 0 <= i < j < |s|
          ensures s[i] != s[j]
        {
          assert s[i] == init[i];
          if j < |init| {
            assert s[j] == init[j];
          } else {
            assert s[j] == name;
          }
        }
      } else {
        assert init == FirstSeen(calls, opts);
      }
    }
  }

  /**
   * `paramTypeMap` after compiling: one entry per distinct renamed name in
   * first-seen order, the optional flag of the first occurrence, and the
   * type left by the calls for that name.
   */
  lemma {:induction false} ProvidedDescribes(calls: seq<(Node, bool)>, opts: Options)
    ensures Describes(ProvidedAll(calls, opts), calls, opts)
  {
    if |calls| > 0 {
      var init, last := calls[..|calls| - 1], calls[|calls| - 1];
      assert init + [last] == calls;
      ProvidedDescribes(init, opts);
      DescribesStep(ProvidedAll(init, opts), init, last, opts);
    }
  }

  /** A name whose calls never carry a string or union constraint keeps the type `string`. */
  lemma {:induction false} TypeStaysString(calls: seq<(Node, bool)>, name: string, opts: Options)
    requires forall k :: 0 <= k < |calls| && NameOf(calls[k], opts) == name ==>
      var c := ParamConstraint(calls[k].0);
      !IsString(c) && !(c.Some? && c.value.Select? && AllStrings(c.value.children))
    ensures TypeOf(calls, name, opts) == "string"
  {
    if |calls| > 0 {
      var init := calls[..|calls| - 1];
      assert forall k :: 0 <= k < |init| ==> init[k] == calls[k];
      TypeStaysString(init, name, opts);
    }
  }

  /** The last call for a name decides its type when its constraint is a string or a union of strings. */
  lemma LastCallTypes(calls: seq<(Node, bool)>, call: (Node, bool), opts: Options)
    requires var c := ParamConstraint(call.0); c.Some? && c.value.Select? && AllStrings(c.value.children)
    ensures TypeOf(calls + [call], NameOf(call, opts), opts) == UnionType(ParamConstraint(call.0).value.children)
  {
    var all := calls + [call];
    assert all[..|all| - 1] == calls;
  }

  lemma ProvidedAllEmpty(calls: seq<(Node, bool)>, opts: Options)
    ensures |ProvidedAll(calls, opts)| == 0 <==> |calls| == 0
  {
    if |calls| > 0 {
      var init := calls[..|calls| - 1];
      var last := calls[|calls| - 1];
      var r := ProvidedAll(calls, opts);
      var prev := ProvidedAll(init, opts);
      match IndexOf(prev, NameOf(last, opts))
      case None =>
      case Some(_) =>
    }
  }

  /** A helper of `InterfaceIffParams`: the function text without params, written out. */
  lemma FunctionTextWithout(opts: Options, src: string)
    ensures FunctionText(opts, false, src) == "export function " + opts.functionName + "():string|null{return " + src + ";}"
  {
    var f := opts.functionName;
    assert FunctionText(opts, false, src) == "export function " + f + "(" + "" + "):string|null{" + "return " + src + ";" + "}";
    assert "(" + "" + "):string|null{" + "return " == "():string|null{return ";
    assert ";" + "}" == ";}";
  }

  /** Without params the text is the function alone, taking no argument; with them the interface of the params object comes first. */
  lemma InterfaceIffParams(node: Node, opts: Options)
    requires Compile(node, opts).Success?
    ensures var src := CompileNode.Compile(node, false, ReferenceProvider(opts)).value;
      var entries := ProvidedAll(CompileNode.Calls(node, false), opts);
      && (|CompileNode.Calls(node, false)| == 0 ==>
            Compile(node, opts).value == "export function " + opts.functionName + "():string|null{return " + src + ";}")
      && (|CompileNode.Calls(node, false)| > 0 ==>
            |entries| > 0 && Compile(node, opts).value == InterfaceText(opts, entries) + FunctionText(opts, true, src))
  {
    ProvidedAllEmpty(CompileNode.Calls(node, false), opts);
    FunctionTextWithout(opts, CompileNode.Compile(node, false, ReferenceProvider(opts)).value);
  }

  /** A simple param compiles to a read of the params object's renamed property. */
  lemma ParamReference(name: Option<string>, constraint: Option<Node>, optional: bool, opts: Options)
    requires CompileNode.Simple(constraint)
    ensures CompileNode.Compile(Param(name, constraint), optional, ReferenceProvider(opts)) == Success(opts.paramsVarName + "." + opts.renameParam(name))
  {
  }

  /** Two STRING branches give their quoted values joined by a single `|`. */
  lemma UnionOfTwo(x: string, y: string)
    ensures UnionType([String(x), String(y)]) == Strings.JsonQuote(x) + "|" + Strings.JsonQuote(y)
  {
    var q := [Strings.JsonQuote(x), Strings.JsonQuote(y)];
    assert QuotedValues([String(x), String(y)]) == q;
    assert q[1..] == [q[1]];
  }

  /**
   * An illustration, after the repository's test of `/:foo{bar/baz,qux}`:
   * the branches `bar/baz` and `qux` give the type `"bar/baz"|"qux"`.
   */
  lemma UnionTypeExample(x: string, y: string)
    requires x == "bar/baz" && y == "qux"
    ensures UnionType([String(x), String(y)]) == "\"bar/baz\"|\"qux\""
  {
    UnionOfTwo(x, y);
    QuotedPlain(x);
    QuotedPlain(y);
  }

  /** A plain string is quoted as itself between double quotes. */
  lemma QuotedPlain(v: string)
    requires forall i :: 0 <= i < |v| ==> v[i] != '"' && v[i] != '\\' && v[i] as int >= 0x20
    ensures Strings.JsonQuote(v) == "\"" + v + "\""
  {
    Strings.JsonEscapePlain(v);
  }

  // ---------------------------------------------------------------------
  // The string-constraint type

  /** As written, a string constraint's type is an object text, not the literal type of the string. */
  lemma AsWrittenStringType(value: string, current: string)
    ensures AsWrittenConstraintType(Some(String(value)), current) == NodeJson(value)
    ensures NodeJson(value)[0] == '{' && Strings.JsonUnquote(NodeJson(value)).None?
    ensures NodeJson(value) != StringType(value)
    ensures forall c: Option<Node> :: !IsString(c) ==> AsWrittenConstraintType(c, current) == ConstraintType(c, current)
  {
  }

  /**
   * Corrected, a string constraint is typed as its literal type, the same
   * type as a union of that one string, and the literal reads back as the
   * string.
   */
  lemma StringTypeIsLiteral(value: string, current: string)
    ensures ConstraintType(Some(String(value)), current) == StringType(value)
    ensures StringType(value) == UnionType([String(value)])
    ensures Strings.JsonUnquote(StringType(value)) == Some(value)
  {
    assert QuotedValues([String(value)]) == [Strings.JsonQuote(value)];
    Strings.JsonQuoteRoundTrip(value);
  }

  // ---------------------------------------------------------------------
  // The source's shape: a map the callback updates in place

  class ParamTypeMap {
    var entries: seq<ParamType>

    constructor ()
      ensures entries == []
    {
      entries := [];
    }

    /** `provideParamVarName(node, optional)`. */
    method Provide(node: Node, optional: bool, opts: Options) returns (reference: string)
      modifies this
      ensures entries == Provided(old(entries), node, optional, opts)
      ensures reference == Reference(opts, node)
    {
      var name := ParamName(node, opts);
      var constraint := ParamConstraint(node);
      var index := IndexOf(entries, name);
      if index.None? {
        entries := entries + [ParamType(name, "string", optional)];
        index := Some(|entries| - 1);
      }
      var i := index.value;
      if constraint.Some? && constraint.value.Select? && AllStrings(constraint.value.children) {
        entries := entries[i := entries[i].(typeText := UnionType(constraint.value.children))];
      }
      if IsString(constraint) {
        entries := entries[i := entries[i].(typeText := StringType(constraint.value.value))];
      }
      reference := opts.paramsVarName + "." + name;
    }
  }

  /**
   * `compileFunction(node, options)`. The references the callback returns do
   * not depend on the map, so the text is compiled first and the calls are
   * then replayed on the map in the order `compileNode` makes them.
   */
  method CompileFunction(node: Node, opts: Options) returns (r: Result<string, string>)
    ensures r == Compile(node, opts)
  {
    var compiled := CompileNode.Compile(node, false, ReferenceProvider(opts));
    if compiled.Failure? {
      return Failure(compiled.error);
    }
    var paramTypeMap := new ParamTypeMap();
    var calls := CompileNode.Calls(node, false);
    var k := 0;
    while k < |calls|
      invariant 0 <= k <= |calls|
      invariant paramTypeMap.entries == ProvidedAll(calls[..k], opts)
    {
      assert calls[..k + 1][..k] == calls[..k];
      var _ := paramTypeMap.Provide(calls[k].0, calls[k].1, opts);
      k := k + 1;
    }
    assert calls[..|calls|] == calls;
    var entries := paramTypeMap.entries;
    var src := FunctionText(opts, |entries| > 0, compiled.value);
    if |entries| > 0 {
      src := InterfaceText(opts, entries) + src;
    }
    return Success(src);
  }
}

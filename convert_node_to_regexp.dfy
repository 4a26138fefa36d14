/**
 * `convertNodeToRegExp`: the pattern AST becomes the source of a regular
 * expression, and every variable becomes a numbered capturing group whose
 * (name, group index) pair is recorded. The host's regular-expression engine
 * is not modelled: a match is given as a value, and only the rule that
 * copies the captures of variables into the `groups` map is.
 */
module ConvertNodeToRegExp {
  import opened Wrappers
  import PatternAst
  import EscapeRegExp
  import Strings

  /** `INodeToRegExpConverterOptions`; an absent pattern is `None`, an absent `caseSensitive` is `false`. */
  datatype ConverterOptions = ConverterOptions(
    caseSensitive: bool,
    pathSeparatorPattern: Option<string>,
    wildcardPattern: Option<string>,
    greedyWildcardPattern: Option<string>,
    unconstrainedParamPattern: Option<string>)

  /** The sub-patterns the converter emits, once the defaults are filled in. */
  datatype Patterns = Patterns(pathSeparator: string, wildcard: string, greedyWildcard: string, unconstrainedParam: string)

  function WithDefaults(o: ConverterOptions): Patterns {
    Patterns(
      o.pathSeparatorPattern.GetOr("/"),
      o.wildcardPattern.GetOr("[^/?#]*"),
      o.greedyWildcardPattern.GetOr("[^?#]*"),
      o.unconstrainedParamPattern.GetOr("[^/?#]*"))
  }

  /** The source emitted for a node, the group counter after it, and the pairs it recorded. */
  datatype Emitted = Emitted(src: string, count: nat, pairs: seq<(string, nat)>)

  // ---------------------------------------------------------------------
  // Reference definitions: what the slots must come out as

  /** The capturing groups a node contributes: one per variable, plus a raw expression's own. */
  function Groups(node: PatternAst.Node): nat
    decreases node, 1
  {
    match node
    case Path(children, _, _, _) => GroupsAll(children)
    case Segment(children, _, _) => GroupsAll(children)
    case Alt(children, _, _) => GroupsAll(children)
    case Variable(_, constraint, _, _) => 1 + (if constraint.Some? then Groups(constraint.value) else 0)
    case Wildcard(_, _, _) => 0
    case RegExp(_, groupCount, _, _) => groupCount
    case Text(_, _, _) => 0
  }

  function GroupsAll(nodes: seq<PatternAst.Node>): nat
    decreases nodes, 0
  {
    if |nodes| == 0 then 0 else GroupsAll(nodes[..|nodes| - 1]) + Groups(nodes[|nodes| - 1])
  }

  /** The names of the variables in pre-order, a variable before its constraint. */
  function VariableNames(node: PatternAst.Node): seq<string>
    decreases node, 1
  {
    match node
    case Path(children, _, _, _) => VariableNamesAll(children)
    case Segment(children, _, _) => VariableNamesAll(children)
    case Alt(children, _, _) => VariableNamesAll(children)
    case Variable(name, constraint, _, _) => [name] + (if constraint.Some? then VariableNames(constraint.value) else [])
    case Wildcard(_, _, _) => []
    case RegExp(_, _, _, _) => []
    case Text(_, _, _) => []
  }

  function VariableNamesAll(nodes: seq<PatternAst.Node>): seq<string>
    decreases nodes, 0
  {
    if |nodes| == 0 then [] else VariableNamesAll(nodes[..|nodes| - 1]) + VariableNames(nodes[|nodes| - 1])
  }

  function PairNames(pairs: seq<(string, nat)>): (r: seq<string>)
    ensures |r| == |pairs| && forall i :: 0 <= i < |pairs| ==> r[i] == pairs[i].0
  {
    if |pairs| == 0 then [] else PairNames(pairs[..|pairs| - 1]) + [pairs[|pairs| - 1].0]
  }

  /** Group indices strictly increase and lie in `(lo, hi]`. */
  predicate SlotsIn(pairs: seq<(string, nat)>, lo: nat, hi: nat) {
    && (forall i :: 0 <= i < |pairs| ==> lo < pairs[i].1 <= hi)
    && (forall i, j :: 0 <= i < j < |pairs| ==> pairs[i].1 < pairs[j].1)
  }

  lemma SlotsConcat(a: seq<(string, nat)>, b: seq<(string, nat)>, lo: nat, mid: nat, hi: nat)
    requires lo <= mid <= hi
    requires SlotsIn(a, lo, mid) && SlotsIn(b, mid, hi)
    ensures SlotsIn(a + b, lo, hi)
  {
    var c := a + b;
    forall i | 0 <= i < |c|
      ensures lo < c[i].1 <= hi
    {
      if i >= |a| {
        assert c[i] == b[i - |a|];
      }
    }
    forall i, j | 0 <= i < j < |c|
      ensures c[i].1 < c[j].1
    {
      if j < |a| {
      } else if i < |a| {
        assert c[i] == a[i] && c[j] == b[j - |a|];
      } else {
        assert c[i] == b[i - |a|] && c[j] == b[j - |a|];
      }
    }
  }

  lemma PairNamesConcat(a: seq<(string, nat)>, b: seq<(string, nat)>)
    ensures PairNames(a + b) == PairNames(a) + PairNames(b)
  {
  }

  // ---------------------------------------------------------------------
  // The conversion

  /** `createRegExpPattern(node, options)` entered with the group counter at `count`. */
  function Emit(node: PatternAst.Node, p: Patterns, count: nat): Emitted
    decreases node, 1
  {
    match node
    case Path(children, absolute, _, _) =>
      var e := EmitAll(children, p.pathSeparator, p, count);
      Emitted((if absolute then p.pathSeparator else "") + e.src, e.count, e.pairs)
    case Segment(children, _, _) => EmitAll(children, "", p, count)
    case Variable(name, constraint, _, _) =>
      var slot := count + 1;
      var inner := if constraint.Some? then Emit(constraint.value, p, slot) else Emitted(p.unconstrainedParam, slot, []);
      Emitted("(" + inner.src + ")", inner.count, [(name, slot)] + inner.pairs)
    case Alt(children, _, _) =>
      var e := EmitAll(children, "|", p, count);
      Emitted("(?:" + e.src + ")", e.count, e.pairs)
    case Wildcard(greedy, _, _) => Emitted(if greedy then p.greedyWildcard else p.wildcard, count, [])
    case RegExp(pattern, groupCount, _, _) => Emitted("(?:" + pattern + ")", count + groupCount, [])
    case Text(value, _, _) => Emitted(EscapeRegExp.Escape(value), count, [])
  }

  /** `concatRegExpPatterns(nodes, separator, options)`: the nodes converted in order, `sep` between them. */
  function EmitAll(nodes: seq<PatternAst.Node>, sep: string, p: Patterns, count: nat): Emitted
    decreases nodes, 0
  {
    if |nodes| == 0 then Emitted("", count, [])
    else
      var init := EmitAll(nodes[..|nodes| - 1], sep, p, count);
      var last := Emit(nodes[|nodes| - 1], p, init.count);
      Emitted((if |nodes| == 1 then "" else init.src + sep) + last.src, last.count, init.pairs + last.pairs)
  }

  /**
   * What a node records: one group per variable plus a raw expression's own,
   * the variables' names in pre-order, and group indices that increase
   * from just past the counter it was entered with.
   */
  predicate Records(r: Emitted, count: nat, groups: nat, names: seq<string>) {
    r.count == count + groups && PairNames(r.pairs) == names && SlotsIn(r.pairs, count, r.count)
  }

  lemma {:induction false} EmitRecords(node: PatternAst.Node, p: Patterns, count: nat)
    ensures Records(Emit(node, p, count), count, Groups(node), VariableNames(node))
    decreases node, 1
  {
    match node
    case Path(children, _, _, _) => EmitAllRecords(children, p.pathSeparator, p, count);
    case Segment(children, _, _) => EmitAllRecords(children, "", p, count);
    case Alt(children, _, _) => EmitAllRecords(children, "|", p, count);
    case Variable(name, constraint, start, end) =>
      if constraint.Some? {
        EmitRecords(constraint.value, p, count + 1);
      }
      VariableRecords(name, constraint, start, end, p, count);
    case Wildcard(_, _, _) =>
    case RegExp(_, _, _, _) =>
    case Text(_, _, _) =>
  }

  lemma {:induction false} VariableRecords(name: string, constraint: Option<PatternAst.Node>, start: nat, end: nat, p: Patterns, count: nat)
    requires constraint.Some? ==> Records(Emit(constraint.value, p, count + 1), count + 1, Groups(constraint.value), VariableNames(constraint.value))
    ensures var node := PatternAst.Variable(name, constraint, start, end);
      Records(Emit(node, p, count), count, Groups(node), VariableNames(node))
  {
    var slot := count + 1;
    var inner := if constraint.Some? then Emit(constraint.value, p, slot) else Emitted(p.unconstrainedParam, slot, []);
    var node := PatternAst.Variable(name, constraint, start, end);
    assert Emit(node, p, count) == Emitted("(" + inner.src + ")", inner.count, [(name, slot)] + inner.pairs);
    assert Groups(node) == 1 + (if constraint.Some? then Groups(constraint.value) else 0);
    assert VariableNames(node) == [name] + (if constraint.Some? then VariableNames(constraint.value) else []);
    assert SlotsIn([(name, slot)], count, slot);
    SlotsConcat([(name, slot)], inner.pairs, count, slot, inner.count);
    PairNamesConcat([(name, slot)], inner.pairs);
  }

  lemma {:induction false} EmitAllRecords(nodes: seq<PatternAst.Node>, sep: string, p: Patterns, count: nat)
    ensures Records(EmitAll(nodes, sep, p, count), count, GroupsAll(nodes), VariableNamesAll(nodes))
    decreases nodes, 0
  {
    if |nodes| > 0 {
      var init := EmitAll(nodes[..|nodes| - 1], sep, p, count);
      var last := Emit(nodes[|nodes| - 1], p, init.count);
      EmitAllRecords(nodes[..|nodes| - 1], sep, p, count);
      EmitRecords(nodes[|nodes| - 1], p, init.count);
      SlotsConcat(init.pairs, last.pairs, count, init.count, last.count);
      PairNamesConcat(init.pairs, last.pairs);
    }
  }

  /** Appending one node to a list: the list's conversion, then the node's from where it left the counter. */
  lemma EmitAllSnoc(nodes: seq<PatternAst.Node>, i: nat, sep: string, p: Patterns, count: nat)
    requires i < |nodes|
    ensures var init := EmitAll(nodes[..i], sep, p, count);
      var last := Emit(nodes[i], p, init.count);
      EmitAll(nodes[..i + 1], sep, p, count) ==
        Emitted((if i == 0 then "" else init.src + sep) + last.src, last.count, init.pairs + last.pairs)
  {
    assert nodes[..i + 1][..i] == nodes[..i];
  }

  /** The source of each node, each converted with the counter its predecessors left. */
  function Pieces(nodes: seq<PatternAst.Node>, p: Patterns, count: nat): (r: seq<string>)
    ensures |r| == |nodes|
  {
    if |nodes| == 0 then []
    else Pieces(nodes[..|nodes| - 1], p, count) + [Emit(nodes[|nodes| - 1], p, count + GroupsAll(nodes[..|nodes| - 1])).src]
  }

  /** The nodes' sources joined by the separator, as `Array.prototype.join` would. */
  lemma {:induction false} EmitAllJoins(nodes: seq<PatternAst.Node>, sep: string, p: Patterns, count: nat)
    ensures EmitAll(nodes, sep, p, count).src == Strings.Join(Pieces(nodes, p, count), sep)
  {
    if |nodes| > 0 {
      EmitAllRecords(nodes[..|nodes| - 1], sep, p, count);
    }
    if |nodes| > 1 {
      var init := nodes[..|nodes| - 1];
      EmitAllJoins(init, sep, p, count);
      Strings.JoinAppend(Pieces(init, p, count), Emit(nodes[|nodes| - 1], p, count + GroupsAll(init)).src, sep);
    }
  }

  /** A PATH: the separator pattern if absolute, then its children joined by the separator pattern. */
  lemma PathPattern(children: seq<PatternAst.Node>, absolute: bool, start: nat, end: nat, p: Patterns, count: nat)
    ensures Emit(PatternAst.Path(children, absolute, start, end), p, count).src ==
      (if absolute then p.pathSeparator else "") + Strings.Join(Pieces(children, p, count), p.pathSeparator)
  {
    EmitAllJoins(children, p.pathSeparator, p, count);
  }

  /** A SEGMENT: its children with nothing between them. */
  lemma SegmentPattern(children: seq<PatternAst.Node>, start: nat, end: nat, p: Patterns, count: nat)
    ensures Emit(PatternAst.Segment(children, start, end), p, count).src == Strings.Join(Pieces(children, p, count), "")
  {
    EmitAllJoins(children, "", p, count);
  }

  /** An ALT: a non-capturing group of its branches separated by `|`, with no slot of its own. */
  lemma AltPattern(children: seq<PatternAst.Node>, start: nat, end: nat, p: Patterns, count: nat)
    ensures var r := Emit(PatternAst.Alt(children, start, end), p, count);
      && r.src == "(?:" + Strings.Join(Pieces(children, p, count), "|") + ")"
      && r.pairs == EmitAll(children, "|", p, count).pairs
  {
    EmitAllJoins(children, "|", p, count);
  }

  /** A variable takes the next slot, recorded before any slot of its constraint. */
  lemma VariableSlot(name: string, constraint: Option<PatternAst.Node>, start: nat, end: nat, p: Patterns, count: nat)
    ensures var r := Emit(PatternAst.Variable(name, constraint, start, end), p, count);
      && |r.pairs| > 0 && r.pairs[0] == (name, count + 1)
      && (forall i :: 1 <= i < |r.pairs| ==> count + 1 < r.pairs[i].1)
  {
    EmitRecords(PatternAst.Variable(name, constraint, start, end), p, count);
  }

  /** Leaves: a wildcard its configured sub-pattern, a raw expression its groups without a pair, text escaped. */
  lemma LeafPatterns(node: PatternAst.Node, p: Patterns, count: nat)
    requires node.Wildcard? || node.RegExp? || node.Text?
    ensures var r := Emit(node, p, count);
      && r.pairs == []
      && (node.Wildcard? ==> r.src == (if node.greedy then p.greedyWildcard else p.wildcard) && r.count == count)
      && (node.RegExp? ==> r.src == "(?:" + node.pattern + ")" && r.count == count + node.groupCount)
      && (node.Text? ==> r.src == EscapeRegExp.Escape(node.value) && r.count == count)
  {
  }

  // ---------------------------------------------------------------------
  // The regular expression and its `exec`

  /** What `convertNodeToRegExp` builds: a source, its flags, and the recorded pairs. */
  datatype CompiledRegExp = CompiledRegExp(source: string, ignoreCase: bool, groupCount: nat, paramGroupIndices: seq<(string, nat)>)

  /** `convertNodeToRegExp(node, options)`. */
  function Convert(node: PatternAst.Node, options: ConverterOptions): (r: CompiledRegExp)
    ensures |r.source| > 0 && r.source[0] == '^'
    ensures r.ignoreCase <==> !options.caseSensitive
    ensures r.groupCount == Groups(node) && PairNames(r.paramGroupIndices) == VariableNames(node)
    ensures SlotsIn(r.paramGroupIndices, 0, r.groupCount)
  {
    var e := Emit(node, WithDefaults(options), 0);
    EmitRecords(node, WithDefaults(options), 0);
    CompiledRegExp("^" + e.src, !options.caseSensitive, e.count, e.pairs)
  }

  /** A match: the capture array (index 0 the whole match; `None` is `undefined`) and the native `groups`. */
  datatype MatchArray = MatchArray(captures: seq<Option<string>>, groups: Option<map<string, Option<string>>>)

  /** JavaScript truthiness of a capture: `undefined` and `""` are falsy. */
  predicate Truthy(v: Option<string>) {
    v.Some? && v.value != ""
  }

  function Lookup(g: map<string, Option<string>>, name: string): Option<string> {
    if name in g then g[name] else None
  }

  function Capture(captures: seq<Option<string>>, i: nat): Option<string> {
    if i < |captures| then captures[i] else None
  }

  /** `groups[name] ||= arr[groupIndex]` for every pair, in order. */
  function Merge(g: map<string, Option<string>>, captures: seq<Option<string>>, pairs: seq<(string, nat)>): (r: map<string, Option<string>>)
    ensures forall name :: name in g ==> name in r
    decreases |pairs|
  {
    if |pairs| == 0 then g
    else
      var (name, i) := pairs[0];
      Merge(if Truthy(Lookup(g, name)) then g else g[name := Capture(captures, i)], captures, pairs[1..])
  }

  /** The wrapped `exec`: with no capturing group at all, the native `exec` is left as it is. */
  function Exec(re: CompiledRegExp, arr: Option<MatchArray>): (r: Option<MatchArray>)
    ensures r.None? <==> arr.None?
    ensures re.groupCount == 0 ==> r == arr
    ensures r.Some? ==> r.value.captures == arr.value.captures
    ensures re.groupCount > 0 && r.Some? ==> r.value.groups.Some?
  {
    if re.groupCount == 0 then arr
    else match arr
      case None => None
      case Some(a) => Some(MatchArray(a.captures, Some(Merge(a.groups.GetOr(map[]), a.captures, re.paramGroupIndices))))
  }

  /** A truthy native group is never overwritten. */
  lemma {:induction false} MergeKeepsTruthy(g: map<string, Option<string>>, captures: seq<Option<string>>, pairs: seq<(string, nat)>, name: string)
    requires Truthy(Lookup(g, name))
    ensures Lookup(Merge(g, captures, pairs), name) == Lookup(g, name)
    decreases |pairs|
  {
    if |pairs| > 0 {
      var (n, i) := pairs[0];
      var g' := if Truthy(Lookup(g, n)) then g else g[n := Capture(captures, i)];
      assert Lookup(g', name) == Lookup(g, name);
      MergeKeepsTruthy(g', captures, pairs[1..], name);
    }
  }

  /** A name no pair mentions keeps its native value. */
  lemma {:induction false} MergeOthers(g: map<string, Option<string>>, captures: seq<Option<string>>, pairs: seq<(string, nat)>, name: string)
    requires forall i :: 0 <= i < |pairs| ==> pairs[i].0 != name
    ensures (name in Merge(g, captures, pairs) <==> name in g)
    ensures Lookup(Merge(g, captures, pairs), name) == Lookup(g, name)
    decreases |pairs|
  {
    if |pairs| > 0 {
      var (n, i) := pairs[0];
      var g' := if Truthy(Lookup(g, n)) then g else g[n := Capture(captures, i)];
      MergeOthers(g', captures, pairs[1..], name);
    }
  }

  /**
   * Without a truthy native value, a name gets the capture of the first
   * pair for it whose capture is truthy: earlier variables of the same
   * name win.
   */
  lemma {:induction false} MergeFirstTruthy(g: map<string, Option<string>>, captures: seq<Option<string>>, pairs: seq<(string, nat)>, name: string, k: nat)
    requires !Truthy(Lookup(g, name))
    requires k < |pairs| && pairs[k].0 == name && Truthy(Capture(captures, pairs[k].1))
    requires forall j :: 0 <= j < k && pairs[j].0 == name ==> !Truthy(Capture(captures, pairs[j].1))
    ensures Lookup(Merge(g, captures, pairs), name) == Capture(captures, pairs[k].1)
    decreases |pairs|
  {
    var (n, i) := pairs[0];
    var g' := if Truthy(Lookup(g, n)) then g else g[n := Capture(captures, i)];
    if k == 0 {
      assert Lookup(g', name) == Capture(captures, pairs[k].1);
      MergeKeepsTruthy(g', captures, pairs[1..], name);
    } else {
      assert !Truthy(Lookup(g', name));
      MergeFirstTruthy(g', captures, pairs[1..], name, k - 1);
    }
  }

  /** When neither the native value nor any capture for it is truthy, the name stays falsy. */
  lemma {:induction false} MergeAllFalsy(g: map<string, Option<string>>, captures: seq<Option<string>>, pairs: seq<(string, nat)>, name: string)
    requires !Truthy(Lookup(g, name))
    requires forall j :: 0 <= j < |pairs| && pairs[j].0 == name ==> !Truthy(Capture(captures, pairs[j].1))
    ensures !Truthy(Lookup(Merge(g, captures, pairs), name))
    decreases |pairs|
  {
    if |pairs| > 0 {
      var (n, i) := pairs[0];
      var g' := if Truthy(Lookup(g, n)) then g else g[n := Capture(captures, i)];
      assert !Truthy(Lookup(g', name));
      MergeAllFalsy(g', captures, pairs[1..], name);
    }
  }

  // ---------------------------------------------------------------------
  // The in-place conversion

  /** `IRegExpPatternOptions`: the in-out group counter and pair list, and the sub-patterns. */
  class RegExpPatternOptions {
    var groupCount: nat
    var paramGroupIndices: seq<(string, nat)>
    const patterns: Patterns

    constructor (patterns: Patterns)
      ensures groupCount == 0 && paramGroupIndices == [] && this.patterns == patterns
    {
      groupCount := 0;
      paramGroupIndices := [];
      this.patterns := patterns;
    }

    /** `createRegExpPattern(node, options)`. */
    method CreateRegExpPattern(node: PatternAst.Node) returns (src: string)
      modifies this
      ensures var e := Emit(node, patterns, old(groupCount));
        src == e.src && groupCount == e.count && paramGroupIndices == old(paramGroupIndices) + e.pairs
      decreases node, 1
    {
      match node
      case Path(children, absolute, _, _) =>
        var rest := ConcatRegExpPatterns(children, patterns.pathSeparator);
        src := (if absolute then patterns.pathSeparator else "") + rest;
      case Segment(children, _, _) =>
        src := ConcatRegExpPatterns(children, "");
      case Variable(name, constraint, _, _) =>
        groupCount := groupCount + 1;
        paramGroupIndices := paramGroupIndices + [(name, groupCount)];
        var inner := patterns.unconstrainedParam;
        if constraint.Some? {
          inner := CreateRegExpPattern(constraint.value);
        }
        src := "(" + inner + ")";
      case Alt(children, _, _) =>
        var branches := ConcatRegExpPatterns(children, "|");
        src := "(?:" + branches + ")";
      case Wildcard(greedy, _, _) =>
        src := if greedy then patterns.greedyWildcard else patterns.wildcard;
      case RegExp(pattern, count, _, _) =>
        groupCount := groupCount + count;
        src := "(?:" + pattern + ")";
      case Text(value, _, _) =>
        src := EscapeRegExp.Escape(value);
    }

    /** `concatRegExpPatterns(nodes, separator, options)`. */
    method ConcatRegExpPatterns(nodes: seq<PatternAst.Node>, sep: string) returns (src: string)
      modifies this
      ensures var e := EmitAll(nodes, sep, patterns, old(groupCount));
        src == e.src && groupCount == e.count && paramGroupIndices == old(paramGroupIndices) + e.pairs
      decreases nodes, 0
    {
      ghost var count0, pairs0 := groupCount, paramGroupIndices;
      ghost var acc := Emitted("", groupCount, []);
      src := "";
      var i := 0;
      while i < |nodes|
        invariant 0 <= i <= |nodes|
        invariant acc == EmitAll(nodes[..i], sep, patterns, count0)
        invariant src == acc.src && groupCount == acc.count && paramGroupIndices == pairs0 + acc.pairs
      {
        EmitAllSnoc(nodes, i, sep, patterns, count0);
        ghost var last := Emit(nodes[i], patterns, groupCount);
        if i > 0 {
          src := src + sep;
        }
        var piece := CreateRegExpPattern(nodes[i]);
        src := src + piece;
        assert paramGroupIndices == pairs0 + (acc.pairs + last.pairs);
        acc := Emitted(src, groupCount, acc.pairs + last.pairs);
        i := i + 1;
      }
      assert nodes[..|nodes|] == nodes;
    }
  }

  /** `convertNodeToRegExp(node, options)`, with the counter and pairs kept in an options object. */
  method ConvertNodeToRegExp(node: PatternAst.Node, options: ConverterOptions) returns (re: CompiledRegExp)
    ensures re == Convert(node, options)
  {
    var patternOptions := new RegExpPatternOptions(WithDefaults(options));
    var pattern := patternOptions.CreateRegExpPattern(node);
    re := CompiledRegExp("^" + pattern, !options.caseSensitive, patternOptions.groupCount, patternOptions.paramGroupIndices);
  }

  /** The `exec` wrapper's loop over the recorded pairs. */
  method MergeGroups(g: map<string, Option<string>>, captures: seq<Option<string>>, pairs: seq<(string, nat)>)
    returns (groups: map<string, Option<string>>)
    ensures groups == Merge(g, captures, pairs)
  {
    groups := g;
    var i := 0;
    while i < |pairs|
      invariant 0 <= i <= |pairs|
      invariant Merge(groups, captures, pairs[i..]) == Merge(g, captures, pairs)
    {
      var (name, groupIndex) := pairs[i];
      assert pairs[i..][1..] == pairs[i + 1..];
      if !Truthy(Lookup(groups, name)) {
        groups := groups[name := Capture(captures, groupIndex)];
      }
      i := i + 1;
    }
  }
}

/**
 * The pattern AST produced by the parser: a PATH of SEGMENTs holding
 * variables, alternations, wildcards, raw regular expressions and text.
 * Variables are the node kind tagged PARAM in the type declarations and
 * VARIABLE in the parser; both spellings are this one kind. Parent links
 * are not part of this value; the parser's arena keeps them.
 */
module PatternAst {
  import opened Wrappers

  datatype Node =
    | Path(children: seq<Node>, absolute: bool, start: nat, end: nat)
    | Segment(children: seq<Node>, start: nat, end: nat)
    | Alt(children: seq<Node>, start: nat, end: nat)
    | Variable(name: string, constraint: Option<Node>, start: nat, end: nat)
    | Wildcard(greedy: bool, start: nat, end: nat)
    | RegExp(pattern: string, groupCount: nat, start: nat, end: nat)
    | Text(value: string, start: nat, end: nat)
  {
    predicate IsContainer() {
      Path? || Segment? || Alt?
    }
  }
}

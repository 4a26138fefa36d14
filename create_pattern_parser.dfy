/**
 * `createPatternParser`: one parser object reused for many strings. Its
 * state is reset at the start of every call (`Parser.Parse` proves that no
 * earlier call reaches the result). As written, its variable handler is
 * registered under the key `param`, which the tokenizer never calls, so
 * variable events are dropped.
 */
module CreatePatternParser {
  import opened Wrappers
  import Tokenizer
  import PatternAst
  import opened ParsePattern
  import opened PatternParser

  /** `createPatternParser()` as written: variable events reach no handler. */
  method CreatePatternParser() returns (parser: Parser)
    ensures fresh(parser) && !parser.handlesVariables
  {
    parser := new Parser(false);
  }

  /** The parser the code evidently intends: the same handlers as `parsePattern`. */
  method CreatePatternParserFixed() returns (parser: Parser)
    ensures fresh(parser) && parser.handlesVariables
  {
    parser := new Parser(true);
  }

  /** Every call of the intended parser gives what `parsePattern` gives. */
  method ParseWithFixed(parser: Parser, str: string) returns (r: Result<PatternAst.Node, ParseError>)
    requires parser.handlesVariables
    modifies parser
    ensures r == ParsePattern.Parse(str, true)
  {
    r := parser.Parse(str);
  }

  lemma TokenizeColonA()
    ensures Tokenizer.Tokenize(":a") == ([Tokenizer.Variable("a", 0, 2)], 2)
  {
    var str := ":a";
    var tok := Tokenizer.Variable("a", 0, 2);
    assert !Tokenizer.IsSpaceChar(str[0]);
    assert Tokenizer.NextToken(str, 0) == Tokenizer.Found(tok, 2);
    assert Tokenizer.ScanFrom(str, 2, None) == ([], 2);
    assert Tokenizer.Flush(str, None, 0) == [];
    var rest := Tokenizer.ScanFrom(str, 2, None);
    assert Tokenizer.ScanFrom(str, 0, None) == (Tokenizer.Flush(str, None, 0) + [tok] + rest.0, rest.1);
    assert Tokenizer.Tokenize(str) == Tokenizer.ScanFrom(str, 0, None);
    assert Tokenizer.Flush(str, None, 0) + [tok] + rest.0 == [tok];
  }

  /** As written, the reusable parser reads `:a` as an empty root PATH. */
  lemma AsWrittenDropsVariable()
    ensures Parse(":a", false) == Success(PatternAst.Path([], false, 0, 0))
  {
    TokenizeColonA();
    var ev := [Tokenizer.Variable("a", 0, 2)];
    assert Run(Init, ev, false) == Success(Init) by {
      assert ev[1..] == [];
    }
  }

  /** With the variable handler reached, `:a` gives a root PATH with one SEGMENT. */
  lemma FixedKeepsVariable()
    ensures Parse(":a", true).Success? && Parse(":a", true).value.Path? && |Parse(":a", true).value.children| == 1
  {
    TokenizeColonA();
    var ev := [Tokenizer.Variable("a", 0, 2)];
    var v := VariableCell(Some(0), 0, 2, "a", None);
    PushNodeIntoPath(Init, v);
    OpenSegmentPath(Init.cells, 0, v);
    var s := OnVariable(Init, "a", 0, 2);
    assert s.cells[0].children == [1];
    assert Run(Init, ev, true) == Success(s) by {
      assert ev[1..] == [];
    }
  }
}

# tiny-router, modelled in Dafny

This project models the core of tiny-router, a TypeScript router whose
routes are written as path patterns such as `/users/:id{,/edit}`. It covers
four connected pieces.

- **The pattern tokenizer and parser.** `tokenizePattern` scans a pattern
  into events: text, variable, wildcard, raw regular expression,
  alternation start/end/separator and path separator. `parsePattern` and
  the reusable `createPatternParser` replay those events against a cursor.
  The cursor moves through a tree of PATH, SEGMENT, ALT, VARIABLE,
  WILDCARD, REG_EXP and TEXT nodes.
- **The AST-to-regular-expression compiler.** `convertNodeToRegExp` and
  `escapeRegExp` produce the regular-expression source text. They also
  produce the ordered (variable name, capture group) pairs. Beside them
  sits the rule that merges captures into the match's `groups`.
- **The route tree and its resolver.** This covers the `route`, `iif`,
  `index` and `meta` constructors, the first-match `resolveRoute`, and the
  continuation-passing visitors over both kinds of tree.
- **The path-builder compiler.** `transformParserNode` and the older
  `transformNode` rewrite the pattern AST into the compiler's AST.
  `compileNode` and `compileFunction` turn that AST into TypeScript source
  text.

Each source file has one Dafny module.

- **Pure code** becomes functions with lemmas: the regexp emitter's
  reference semantics, the resolver, the compilers and the visitors.
- **Code that changes state step by step** keeps that form.
  - The tokenizer is a class. Its fields `lastText` and `lastGroupCount`
    are updated by looping methods.
  - The parser is a class with the fields `cells`, `cursor` and
    `altDepth`. `cells` is an arena of nodes that name their parent and
    children by index, so in-place appends, the constraint link, the
    absolute flag, span propagation and stale parent links are all
    represented.
  - The route nodes are objects whose `parent` field is assigned.
  - The regexp emitter keeps the group counter and the pairs it collects
    as fields.
- **Each imperative method** is proved equal to a pure reference function.
  The properties the source promises are then proved about that function.

Regular-expression matching is an oracle: a function from the path to an
optional match. Callbacks and conditions are function parameters.
`jsonStringify` is modelled as JSON string quoting as defined in section 7
of RFC 8259, with an unquoting function proved to be its inverse.

## Model

| member | source | states |
|---|---|---|
| Tokenizer.SpaceEnd | packages/pattern-parser/src/main/tokenizePattern.ts:6-22 | the end of the run of spaces, tabs, CRs and LFs starting at `i`; every character before it is space and the one at it is not |
| Tokenizer.NameCharsEnd | packages/pattern-parser/src/main/tokenizePattern.ts:18-24 | the end of the run of variable-name characters (letters, digits, `$`, `_`) starting at `i` |
| Tokenizer.VariableNameEnd | packages/pattern-parser/src/main/tokenizePattern.ts:12-24 | no name starts at `i` exactly when the input ends there or the character is not a letter, `$` or `_` |
| Tokenizer.QuotedScan | packages/pattern-parser/src/main/tokenizePattern.ts:50-81 | when the text is closed, the scan ends just after a quote of the kind that opened it, inside the input |
| Tokenizer.RegExpScan | packages/pattern-parser/src/main/tokenizePattern.ts:85-120 | when the body is closed, the scan ends just after a `)` inside the input, and the group count never drops |
| Tokenizer.NextToken | packages/pattern-parser/src/main/tokenizePattern.ts:222-298 | the takers tried in the source's order (variable, `{`, `}`, `,`, `**`, `*`, `/`, quoted text, regexp); a found token spans exactly from `i` to the next offset |
| Tokenizer.Tokenize | packages/pattern-parser/src/main/tokenizePattern.ts:181-310 | the reference scan, from offset 0 with no pending text: spaces end a pending run, each found token is reported after the pending run, a malformed token stops the scan at its offset, and plain characters extend the run; its properties are `TokenizeFacts`, `ScanStopsAtMalformed`, `ScanPlainJoinsRun` and `ScanSpaceEndsRun`, and `TokenizePattern` computes it |
| Tokenizer.ScanFrom | packages/pattern-parser/src/main/tokenizePattern.ts:208-309 | the main loop never stops before where it started nor past the end of the input |
| Tokenizer.QuotedScanUnescapes | packages/pattern-parser/src/main/tokenizePattern.ts:50-81 | the quoted value is the text between the quotes with each backslash dropped and the character after it kept literally, closing quote included |
| Tokenizer.RegExpScanCounts | packages/pattern-parser/src/main/tokenizePattern.ts:85-120 | the group count is the number of unescaped `(` in the body; an escaped paren changes neither the depth nor the count |
| Tokenizer.VariableWellFormed | packages/pattern-parser/src/main/tokenizePattern.ts:38-46 | a variable event is `:` followed by a maximal name that starts with a letter, `$` or `_` |
| Tokenizer.QuotedWellFormed | packages/pattern-parser/src/main/tokenizePattern.ts:280-288 | a quoted text event spans both quotes and carries the unescaped inner text |
| Tokenizer.RegExpWellFormed | packages/pattern-parser/src/main/tokenizePattern.ts:290-298 | a regexp event's pattern is the text strictly between its outer parens, and its group count counts the unescaped `(` inside |
| Tokenizer.NextTokenWellFormed | packages/pattern-parser/src/main/tokenizePattern.ts:222-305 | every found token is well formed; `**` gives a greedy wildcard and a lone `*` not followed by `*` a non-greedy one; the character is plain text or space exactly when no taker applies |
| Tokenizer.ScanFromFacts | packages/pattern-parser/src/main/tokenizePattern.ts:198-309 | from any state of the loop, the events are well formed and in order with non-overlapping spans, and a stop before the end is at a malformed token |
| Tokenizer.ScanSpaceFacts | packages/pattern-parser/src/main/tokenizePattern.ts:211-215 | the same facts for the loop step that skips spaces |
| Tokenizer.ScanFoundFacts | packages/pattern-parser/src/main/tokenizePattern.ts:222-298 | the same facts for the loop step that emits a token |
| Tokenizer.TokenizeFacts | packages/pattern-parser/src/main/tokenizePattern.ts:181-310 | the returned offset never exceeds the input length; when it is short, a malformed token starts there; the events are well formed, in source order, with non-overlapping spans inside `[0, offset]` |
| Tokenizer.ScanStopsAtMalformed | packages/pattern-parser/src/main/tokenizePattern.ts:222-298 | a `:` without a name start, an unclosed quote or an unclosed `(` stops the scan at its own offset, emitting nothing for it and dropping the pending text |
| Tokenizer.ScanPlainJoinsRun | packages/pattern-parser/src/main/tokenizePattern.ts:300-305 | a plain character extends the pending unquoted text run, or starts one |
| Tokenizer.ScanSpaceEndsRun | packages/pattern-parser/src/main/tokenizePattern.ts:209-215 | whitespace is never emitted and it ends the pending unquoted text run as one text event |
| Tokenizer.ScanSpace | packages/pattern-parser/src/main/tokenizePattern.ts:211-215 | a space step flushes the pending text and carries on after the run of spaces |
| Tokenizer.ScanToken | packages/pattern-parser/src/main/tokenizePattern.ts:222-305 | a malformed token ends the scan; a found token flushes the pending text and then emits itself; a plain character joins the run |
| Tokenizer.ScanPlainStep | packages/pattern-parser/src/main/tokenizePattern.ts:300-305 | the loop invariant of `TokenizePattern` survives a plain character |
| Tokenizer.ScanFoundStep | packages/pattern-parser/src/main/tokenizePattern.ts:222-298 | the loop invariant survives an emitted token |
| Tokenizer.ScanSpaceStep | packages/pattern-parser/src/main/tokenizePattern.ts:211-215 | the loop invariant survives a run of spaces |
| Tokenizer.ScanEnd | packages/pattern-parser/src/main/tokenizePattern.ts:308-309 | at the end of the input, the final flush gives exactly the reference events and offset |
| Tokenizer.ScanMalformed | packages/pattern-parser/src/main/tokenizePattern.ts:228-229 | an early return gives exactly the reference events and offset |
| Tokenizer.Tokenizer.TakeQuotedText | packages/pattern-parser/src/main/tokenizePattern.ts:50-81 | no match unless the character is a quote; otherwise the end offset and `lastText` the reference scan gives, or the error code with `lastText` cleared |
| Tokenizer.Tokenizer.TakeRegExp | packages/pattern-parser/src/main/tokenizePattern.ts:85-120 | no match unless the character is `(`; otherwise the end offset and `lastGroupCount` the reference scan gives, or the error code with the count reset |
| Tokenizer.Tokenizer.TakeVariable | packages/pattern-parser/src/main/tokenizePattern.ts:38-46 | no match unless the character is `:`; otherwise the end of the name, or the error code when there is no name |
| Tokenizer.Tokenizer.Next | packages/pattern-parser/src/main/tokenizePattern.ts:222-305 | the takers run in the source's order and give the reference step; afterwards `lastText` holds the quoted text taken (`""` after a malformed one) and `lastGroupCount` the group count of the regexp taken (0 after a malformed one), each unchanged unless the character at `i` opens that token |
| Tokenizer.Tokenizer.EmitText | packages/pattern-parser/src/main/tokenizePattern.ts:198-203 | the pending text, if any, is appended as one event and the run is cleared |
| Tokenizer.Tokenizer.TokenizePattern | packages/pattern-parser/src/main/tokenizePattern.ts:181-310 | the events and the returned offset are those of the reference scan `Tokenize` |
| ParsePattern.SetEnd | packages/pattern-parser/src/main/parsePattern.ts:68-72 | exactly the node and its ancestors get the new end; every other node is unchanged |
| ParsePattern.SetEndChain | packages/pattern-parser/src/main/parsePattern.ts:68-72 | the ancestor chain is unchanged, and every node on it ends at the new end |
| ParsePattern.SetEndTree | packages/pattern-parser/src/main/parsePattern.ts:68-72 | setting ends keeps the tree well formed |
| ParsePattern.NearestAlt | packages/pattern-parser/src/main/parsePattern.ts:120-131 | the walk up through `parent` for an ALT finds, when it finds one, an ALT on the cursor's ancestor chain |
| ParsePattern.NearestAltNone | packages/pattern-parser/src/main/parsePattern.ts:120-131 | the walk finds no ALT exactly when no node on the ancestor chain is an ALT |
| ParsePattern.NearestPath | packages/pattern-parser/src/main/parsePattern.ts:179-181 | the walk up for a PATH always ends at a PATH on the ancestor chain, since the root is one |
| ParsePattern.PushInto | packages/pattern-parser/src/main/parsePattern.ts:39-65 | pushing fails exactly when the target is neither a PATH nor a SEGMENT, and then with "Unexpected syntax" at the node's start |
| ParsePattern.PushIntoPath | packages/pattern-parser/src/main/parsePattern.ts:39-57 | into a PATH, the node goes into a new SEGMENT that becomes the cursor, and the tree stays well formed |
| ParsePattern.PushIntoSegment | packages/pattern-parser/src/main/parsePattern.ts:59-63 | into a SEGMENT, the node is appended as its last child and the cursor stays |
| ParsePattern.Constrain | packages/pattern-parser/src/main/parsePattern.ts:28-32 | the node after an unconstrained variable becomes its constraint, and the cursor moves to the variable's parent |
| ParsePattern.PushNode | packages/pattern-parser/src/main/parsePattern.ts:26-66 | pushing a node from a handler always succeeds; the tree grows by the node (and a SEGMENT when the target is a PATH), the node keeps its kind and span, and the cursor moves as the source moves it |
| ParsePattern.PushNodeIntoParent | packages/pattern-parser/src/main/parsePattern.ts:33-37 | after a constrained variable, the node is appended to the variable's SEGMENT parent, which becomes the cursor |
| ParsePattern.PushNodeIntoVariable | packages/pattern-parser/src/main/parsePattern.ts:28-32 | after an unconstrained variable, the node is attached as its constraint |
| ParsePattern.PushNodeIntoPath | packages/pattern-parser/src/main/parsePattern.ts:39-57 | under a PATH cursor, a new SEGMENT holding the node is opened and becomes the cursor |
| ParsePattern.PushNodeIntoSegment | packages/pattern-parser/src/main/parsePattern.ts:59-63 | under a SEGMENT cursor, the node is appended and the cursor stays |
| ParsePattern.PushNodeConstrains | packages/pattern-parser/src/main/parsePattern.ts:28-32 | the new node becomes the variable's constraint; the variable's name is kept; the cursor moves to the variable's parent |
| ParsePattern.PushNodeSibling | packages/pattern-parser/src/main/parsePattern.ts:33-37 | once a constraint is set, the next node becomes a sibling and the variable itself is left unchanged, so its constraint is never replaced |
| ParsePattern.OnVariable | packages/pattern-parser/src/main/parsePattern.ts:76-91 | the tree stays well formed and only grows; the new VARIABLE is the last node and the cursor; `altDepth` is unchanged |
| ParsePattern.CloseVariable | packages/pattern-parser/src/main/parsePattern.ts:77-79 | a variable cursor is left for its parent; nothing else changes |
| ParsePattern.VariableSiblings | packages/pattern-parser/src/main/parsePattern.ts:76-91 | a variable arriving while the cursor is a variable is appended to the same parent and leaves the first variable unchanged, so `:foo:bar` gives two siblings |
| ParsePattern.OnAltStart | packages/pattern-parser/src/main/parsePattern.ts:93-116 | a new ALT opens with exactly one empty PATH branch, which becomes the cursor; `altDepth` grows by one |
| ParsePattern.FirstBranch | packages/pattern-parser/src/main/parsePattern.ts:103-115 | the first branch is an empty PATH at the ALT's end, appended as the ALT's only new child |
| ParsePattern.OnAltEnd | packages/pattern-parser/src/main/parsePattern.ts:118-126 | `}` succeeds exactly when there is an enclosing ALT, and otherwise fails with "Unexpected alternation end" at its start; on success `altDepth` drops by one and no node is added |
| ParsePattern.CloseAlt | packages/pattern-parser/src/main/parsePattern.ts:123-125 | closing an ALT keeps the tree well formed, adds no node, only moves ends, and lowers `altDepth` by one |
| ParsePattern.AltEndCloses | packages/pattern-parser/src/main/parsePattern.ts:118-126 | after `}` the cursor is the ALT's parent and the ALT and every ancestor end at the token's end |
| ParsePattern.OnAltSeparator | packages/pattern-parser/src/main/parsePattern.ts:128-145 | `,` succeeds exactly when there is an enclosing ALT, and otherwise fails with "Unexpected alternation separator" at its start; only that ALT gains a branch |
| ParsePattern.AltSeparatorAppends | packages/pattern-parser/src/main/parsePattern.ts:128-145 | each separator appends exactly one new empty PATH branch to the nearest ALT and moves the cursor into it |
| ParsePattern.OnPathSeparator | packages/pattern-parser/src/main/parsePattern.ts:178-199 | the tree stays well formed, only grows, and `altDepth` is unchanged |
| ParsePattern.PathSeparatorAppends | packages/pattern-parser/src/main/parsePattern.ts:178-199 | `/` appends one new empty SEGMENT to the nearest PATH and makes it the cursor; the PATH becomes absolute exactly when it was already absolute or had no children, and then its start moves to the separator |
| ParsePattern.OnLeaf | packages/pattern-parser/src/main/parsePattern.ts:147-176 | a wildcard, regexp or text node is pushed; the tree stays well formed and only grows |
| ParsePattern.Apply | packages/pattern-parser/src/main/parsePattern.ts:76-199 | an event fails exactly when it is `}` or `,` with no enclosing ALT; otherwise the tree stays well formed and only grows |
| ParsePattern.ApplyGrows | packages/pattern-parser/src/main/parsePattern.ts:76-199 | every handler only extends the tree: kinds, parents and existing children are kept, and an absolute PATH stays absolute; that only a separator makes a PATH absolute is `ApplyKeepsAbsolute` |
| ParsePattern.InitValid | packages/pattern-parser/src/main/parsePattern.ts:14-21 | the initial state, a root PATH as the cursor, is well formed |
| ParsePattern.Run | packages/pattern-parser/src/main/parsePattern.ts:14-199 | replaying the events from a well-formed state keeps it well formed and only grows the tree |
| ParsePattern.AltsKept | packages/pattern-parser/src/main/parsePattern.ts:93-145 | a step that gives every new ALT a branch keeps every ALT non-empty |
| ParsePattern.ApplyAltsNonEmpty | packages/pattern-parser/src/main/parsePattern.ts:93-145 | every event keeps every ALT with at least one branch |
| ParsePattern.RunAltsNonEmpty | packages/pattern-parser/src/main/parsePattern.ts:93-145 | after any run of events, every ALT has at least one PATH branch |
| ParsePattern.PathSeparatorKeeps | packages/pattern-parser/src/main/parsePattern.ts:178-199 | a separator changes no PATH's `absolute` flag except the nearest PATH's, keeps every PATH a PATH, and adds only relative PATHs |
| ParsePattern.ApplyKeepsAbsolute | packages/pattern-parser/src/main/parsePattern.ts:76-199 | every event other than a separator keeps the `absolute` flag of every PATH and adds only relative PATHs; only `pathSeparator` sets the flag (line 183) |
| ParsePattern.RunKeepsAbsolute | packages/pattern-parser/src/main/parsePattern.ts:76-199 | a run of events with no separator keeps every PATH's flag and adds only relative PATHs |
| ParsePattern.RelativeWithoutSeparator | packages/pattern-parser/src/main/parsePattern.ts:14-209 | a pattern the tokenizer reads without a `/` parses to a tree whose PATHs are all relative |
| ParsePattern.ParseState | packages/pattern-parser/src/main/parsePattern.ts:14-209 | a successful parse leaves a well-formed tree whose root is a PATH, every ALT non-empty and `altDepth` at zero |
| ParsePattern.ToNodes | packages/pattern-parser/src/main/parsePattern.ts:209 | the arena read back as AST nodes gives one node per child index |
| ParsePattern.Parse | packages/pattern-parser/src/main/parsePattern.ts:14-209 | a successful parse returns a PATH root |
| ParsePattern.ParseOutcome | packages/pattern-parser/src/main/parsePattern.ts:202-207 | a handler's error wins; otherwise unconsumed input gives "Unexpected syntax" at the stop offset (a malformed token starts there); otherwise a non-zero `altDepth` gives "Unterminated alternation" at the length; the parse succeeds exactly when none of these applies |
| PatternParser.OnVariableSteps | packages/pattern-parser/src/main/parsePattern.ts:76-91 | the in-place variable handler's steps (close the variable, push, enter) compose to the reference step |
| PatternParser.OnAltStartSteps | packages/pattern-parser/src/main/parsePattern.ts:93-116 | the in-place ALT-start steps compose to the reference step |
| PatternParser.OnAltEndSteps | packages/pattern-parser/src/main/parsePattern.ts:118-126 | the in-place ALT-end steps compose to the reference step |
| PatternParser.OnAltSeparatorSteps | packages/pattern-parser/src/main/parsePattern.ts:128-145 | the in-place separator steps compose to the reference step |
| PatternParser.OnPathSeparatorSteps | packages/pattern-parser/src/main/parsePattern.ts:178-199 | the in-place path-separator steps compose to the reference step |
| PatternParser.Parser.constructor | packages/pattern-parser/src/main/parsePattern.ts:14-21 | a new parser holds the initial state |
| PatternParser.Parser.SetEndAtCursor | packages/pattern-parser/src/main/parsePattern.ts:68-72 | the loop up the parent links sets exactly the reference `SetEnd` |
| PatternParser.Parser.PushNode | packages/pattern-parser/src/main/parsePattern.ts:26-66 | the in-place push leaves exactly the reference state and index |
| PatternParser.Parser.PushSibling | packages/pattern-parser/src/main/parsePattern.ts:33-37 | the sibling case of the push in place |
| PatternParser.Parser.PushConstraint | packages/pattern-parser/src/main/parsePattern.ts:28-32 | the constraint case of the push in place |
| PatternParser.Parser.PushSegment | packages/pattern-parser/src/main/parsePattern.ts:39-57 | the PATH case of the push in place |
| PatternParser.Parser.PushChild | packages/pattern-parser/src/main/parsePattern.ts:59-63 | the SEGMENT case of the push in place |
| PatternParser.Parser.Constrain | packages/pattern-parser/src/main/parsePattern.ts:28-32 | sets the constraint and moves to the variable's parent |
| PatternParser.Parser.PushIntoPath | packages/pattern-parser/src/main/parsePattern.ts:39-57 | opens a SEGMENT in the PATH and enters it |
| PatternParser.Parser.PushIntoSegment | packages/pattern-parser/src/main/parsePattern.ts:59-63 | appends to the SEGMENT and propagates the end |
| PatternParser.Parser.AppendAtCursor | packages/pattern-parser/src/main/parsePattern.ts:55-62 | appends a child to the cursor and propagates its end up the ancestors |
| PatternParser.Parser.OnVariable | packages/pattern-parser/src/main/parsePattern.ts:76-91 | the variable handler in place equals the reference step |
| PatternParser.Parser.OnAltStart | packages/pattern-parser/src/main/parsePattern.ts:93-116 | the ALT-start handler in place equals the reference step |
| PatternParser.Parser.EnterFirstBranch | packages/pattern-parser/src/main/parsePattern.ts:103-115 | opening the first branch in place equals the reference step |
| PatternParser.Parser.OnAltEnd | packages/pattern-parser/src/main/parsePattern.ts:118-126 | the ALT-end handler in place equals the reference step, including its error; on error the walk has reached the root |
| PatternParser.Parser.OnAltSeparator | packages/pattern-parser/src/main/parsePattern.ts:128-145 | the separator handler in place equals the reference step, including its error |
| PatternParser.Parser.AppendAndEnter | packages/pattern-parser/src/main/parsePattern.ts:136-144 | appends a node to the cursor and makes it the new cursor |
| PatternParser.Parser.WalkToAlt | packages/pattern-parser/src/main/parsePattern.ts:120-122 | the `while` up the parent links stops at the nearest ALT exactly when there is one, and otherwise at the root |
| PatternParser.Parser.WalkToPath | packages/pattern-parser/src/main/parsePattern.ts:179-181 | the `while` up the parent links stops at the nearest PATH |
| PatternParser.Parser.OnPathSeparator | packages/pattern-parser/src/main/parsePattern.ts:178-199 | the path-separator handler in place equals the reference step |
| PatternParser.Parser.MarkAbsoluteAtCursor | packages/pattern-parser/src/main/parsePattern.ts:182-186 | marks an empty PATH absolute and moves its start |
| PatternParser.Parser.OnLeaf | packages/pattern-parser/src/main/parsePattern.ts:147-176 | the leaf handlers in place equal the reference step |
| PatternParser.Parser.Apply | packages/pattern-parser/src/main/parsePattern.ts:76-199 | each event's handler in place equals the reference step, and it reports the reference error |
| PatternParser.Parser.ApplyAlt | packages/pattern-parser/src/main/parsePattern.ts:93-145 | the alternation handlers, the only ones that can fail |
| PatternParser.Parser.ApplyOther | packages/pattern-parser/src/main/parsePattern.ts:76-91 | the other handlers, which never fail |
| PatternParser.Parser.Parse | packages/pattern-parser/src/main/parsePattern.ts:14-209 | tokenizing and replaying the events in place gives exactly the reference parse, error or tree |
| PatternParser.ParsePatternString | packages/pattern-parser/src/main/parsePattern.ts:14-209 | `parsePattern(str)` equals the reference parse with variables handled |
| CreatePatternParser.CreatePatternParser | packages/pattern-parser/src/main/createPatternParser.ts:61-212 | the returned parser, as written, does not handle variable events |
| CreatePatternParser.CreatePatternParserFixed | packages/pattern-parser/src/main/createPatternParser.ts:61-212 | the corrected parser handles variable events |
| CreatePatternParser.ParseWithFixed | packages/pattern-parser/src/main/createPatternParser.ts:189-212 | whatever earlier calls left in the parser, each call resets it and returns exactly what `parsePattern` returns |
| CreatePatternParser.TokenizeColonA | packages/pattern-parser/src/main/tokenizePattern.ts:222-227 | `:a` is one variable event named `a` |
| CreatePatternParser.AsWrittenDropsVariable | packages/pattern-parser/src/main/createPatternParser.ts:63 | as written, `:a` parses to an empty relative PATH: the variable is lost |
| CreatePatternParser.FixedKeepsVariable | packages/pattern-parser/src/main/createPatternParser.ts:63-78 | corrected, `:a` parses to a PATH with one child |
| EscapeRegExp.ReplaceMeta | packages/pattern-parser/src/main/escapeRegExp.ts:1-5 | the output is longer than the input by the number of metacharacters |
| EscapeRegExp.Escape | packages/pattern-parser/src/main/escapeRegExp.ts:4-6 | output length is input length plus the number of metacharacters |
| EscapeRegExp.NoMetaCount | packages/pattern-parser/src/main/escapeRegExp.ts:1-2 | a string without metacharacters has none to count |
| EscapeRegExp.ReplaceWithoutMeta | packages/pattern-parser/src/main/escapeRegExp.ts:1-5 | replacing in a string with no metacharacter changes nothing |
| EscapeRegExp.EscapeIsReplace | packages/pattern-parser/src/main/escapeRegExp.ts:2-5 | the shortcut through `reTestChar.test` gives the same result as always replacing; a string with no metacharacter is returned unchanged |
| EscapeRegExp.ReplaceAppend | packages/pattern-parser/src/main/escapeRegExp.ts:1-5 | replacement works character by character: it distributes over concatenation |
| EscapeRegExp.EscapeChar | packages/pattern-parser/src/main/escapeRegExp.ts:1-5 | each of `\ ^ $ . * + ? ( ) [ ] { } \|` gets exactly one backslash in front; any other character is copied unchanged |
| EscapeRegExp.EscapeAppend | packages/pattern-parser/src/main/escapeRegExp.ts:4-6 | escaping distributes over concatenation, so characters keep their order |
| EscapeRegExp.ReplaceRoundTrip | packages/pattern-parser/src/main/escapeRegExp.ts:1-5 | deleting each inserted backslash recovers the input |
| EscapeRegExp.EscapeRoundTrip | packages/pattern-parser/src/main/escapeRegExp.ts:4-6 | unescaping the escaped string recovers it |
| ConvertNodeToRegExp.Emit | packages/pattern-parser/src/main/convertNodeToRegExp.ts:121-147 | the reference `createRegExpPattern` with the group counter threaded through; its properties are `EmitRecords`, `PathPattern`, `SegmentPattern`, `AltPattern`, `VariableSlot` and `LeafPatterns` |
| ConvertNodeToRegExp.EmitAll | packages/pattern-parser/src/main/convertNodeToRegExp.ts:152-161 | the reference `concatRegExpPatterns`: the nodes emitted in order, the counter passed along, the separator between consecutive patterns; see `EmitAllRecords` and `EmitAllJoins` |
| ConvertNodeToRegExp.EmitRecords | packages/pattern-parser/src/main/convertNodeToRegExp.ts:121-147 | emitting a node advances the counter by its groups (one per variable plus each regexp's group count) and records its variables' names in pre-order, each at an increasing slot inside the counter's range |
| ConvertNodeToRegExp.VariableRecords | packages/pattern-parser/src/main/convertNodeToRegExp.ts:130-132 | a variable takes slot counter + 1, before its constraint's slots |
| ConvertNodeToRegExp.EmitAllRecords | packages/pattern-parser/src/main/convertNodeToRegExp.ts:152-161 | the children's records concatenate in order |
| ConvertNodeToRegExp.EmitAllJoins | packages/pattern-parser/src/main/convertNodeToRegExp.ts:152-161 | `concatRegExpPatterns` is the children's patterns joined by the separator |
| ConvertNodeToRegExp.PathPattern | packages/pattern-parser/src/main/convertNodeToRegExp.ts:124-125 | a PATH is the separator pattern if absolute, then its children joined by the separator pattern |
| ConvertNodeToRegExp.SegmentPattern | packages/pattern-parser/src/main/convertNodeToRegExp.ts:127-128 | a SEGMENT is its children concatenated without a separator |
| ConvertNodeToRegExp.AltPattern | packages/pattern-parser/src/main/convertNodeToRegExp.ts:134-135 | an ALT is `(?:`, its branches joined by `\|`, then `)`, and it records no slot of its own |
| ConvertNodeToRegExp.VariableSlot | packages/pattern-parser/src/main/convertNodeToRegExp.ts:130-132 | a variable's first pair is its own name at slot counter + 1, and every pair of its constraint comes after |
| ConvertNodeToRegExp.LeafPatterns | packages/pattern-parser/src/main/convertNodeToRegExp.ts:137-145 | leaves record no pair; a wildcard emits the greedy or non-greedy pattern; a regexp is wrapped in `(?:…)` and advances the counter by its group count; text is escaped |
| ConvertNodeToRegExp.Convert | packages/pattern-parser/src/main/convertNodeToRegExp.ts:57-81 | the source starts with `^`; the `i` flag is set exactly when not case-sensitive; the group count and pairs are those of the whole tree, with slots in range and increasing |
| ConvertNodeToRegExp.Exec | packages/pattern-parser/src/main/convertNodeToRegExp.ts:79-96 | with no groups the match is returned as is; otherwise the captures are kept and a groups map is always present |
| ConvertNodeToRegExp.Merge | packages/pattern-parser/src/main/convertNodeToRegExp.ts:88-94 | every native group name is kept |
| ConvertNodeToRegExp.MergeKeepsTruthy | packages/pattern-parser/src/main/convertNodeToRegExp.ts:91-93 | a name already holding a truthy value keeps it: native groups win |
| ConvertNodeToRegExp.MergeOthers | packages/pattern-parser/src/main/convertNodeToRegExp.ts:91-93 | a name with no pair is untouched |
| ConvertNodeToRegExp.MergeFirstTruthy | packages/pattern-parser/src/main/convertNodeToRegExp.ts:91-93 | a falsy name takes the capture of its first pair whose capture is truthy: earlier same-named variables win |
| ConvertNodeToRegExp.MergeAllFalsy | packages/pattern-parser/src/main/convertNodeToRegExp.ts:91-93 | when every capture for a name is falsy, the name stays falsy |
| ConvertNodeToRegExp.RegExpPatternOptions.CreateRegExpPattern | packages/pattern-parser/src/main/convertNodeToRegExp.ts:121-147 | the recursive emitter in place gives the reference pattern and advances `groupCount` and `paramGroupIndices` exactly as the reference does |
| ConvertNodeToRegExp.RegExpPatternOptions.ConcatRegExpPatterns | packages/pattern-parser/src/main/convertNodeToRegExp.ts:152-161 | the join loop in place gives the reference pattern and state |
| ConvertNodeToRegExp.ConvertNodeToRegExp | packages/pattern-parser/src/main/convertNodeToRegExp.ts:65-81 | the converter with its options and defaults equals `Convert` |
| ConvertNodeToRegExp.MergeGroups | packages/pattern-parser/src/main/convertNodeToRegExp.ts:88-94 | the `exec` wrapper's loop computes exactly `Merge` |
| PatternVisitor.Visit | packages/pattern-parser/src/main/visitNode.ts:29-60 | the reference visit: a node whose callback is missing visits nothing; otherwise the node, then what each call of `next` visits; its properties are `Skips`, `CompleteVisit` and `VisitWithin` |
| PatternVisitor.VisitOpt | packages/pattern-parser/src/main/visitNode.ts:29-30 | a null node invokes no callback |
| PatternVisitor.Skips | packages/pattern-parser/src/main/visitNode.ts:32-45 | a node without a callback invokes nothing, not even in its subtree; a callback that never calls `next` is the only one invoked; any invoked callback comes first |
| PatternVisitor.LeafVisit | packages/pattern-parser/src/main/visitNode.ts:48-58 | WILDCARD, REG_EXP and TEXT are leaves: their callback gets no continuation |
| PatternVisitor.VisitAllAppend | packages/pattern-parser/src/main/visitNode.ts:62-66 | visiting children is sequential: it distributes over concatenation |
| PatternVisitor.VisitAllCons | packages/pattern-parser/src/main/visitNode.ts:62-66 | the first child is visited before the rest |
| PatternVisitor.CompleteVisit | packages/pattern-parser/src/main/visitNode.ts:29-66 | with every callback present and calling `next` once, the visit is the pre-order traversal: containers visit their children left to right, a variable only its constraint |
| PatternVisitor.CompleteVisitAll | packages/pattern-parser/src/main/visitNode.ts:62-66 | the same for a list of children |
| PatternVisitor.VisitWithin | packages/pattern-parser/src/main/visitNode.ts:29-60 | whatever the callbacks do, only nodes of the subtree are visited |
| PatternVisitor.VisitAllWithin | packages/pattern-parser/src/main/visitNode.ts:62-66 | the same for a list of children |
| PatternVisitor.VisitNode | packages/pattern-parser/src/main/visitNode.ts:29-60 | the visitor equals the reference visit |
| PatternVisitor.CallNext | packages/pattern-parser/src/main/visitNode.ts:33-45 | the continuation visits the children, or the constraint, as the reference does |
| PatternVisitor.VisitChildren | packages/pattern-parser/src/main/visitNode.ts:62-66 | the children loop equals the reference visit |
| ResolveRoute.Resolve | src/main/resolveRoute.ts:7-66 | the reference resolver: a ROUTE needs a match of the whole path, an INDEX strips its optional pattern's match, binds its vars and tries its children, IF picks a branch by its condition, a META defers to its child; its properties are `RouteResolves`, `IndexWithPattern`, `IndexWithoutPattern`, `IfSelects` and `ResolveKeepsKeys` |
| ResolveRoute.FirstMatch | src/main/resolveRoute.ts:46-53 | the children tried in order on the same path and vars, the first result winning; see `FirstMatchFirst`, `FirstMatchNone` and `FirstMatchIgnoresRest` |
| ResolveRoute.Bind | src/main/resolveRoute.ts:17-23 | the copied vars keep every incoming key and add the route's; each route key holds the capture at its index |
| ResolveRoute.BindKeeps | src/main/resolveRoute.ts:17-23 | a key the route does not capture keeps its incoming value |
| ResolveRoute.Substring | src/main/resolveRoute.ts:36 | the remaining path is the suffix after the matched prefix |
| ResolveRoute.RouteResolves | src/main/resolveRoute.ts:10-26 | a ROUTE resolves exactly when its pattern matches the entire remaining path, and then to `cb(vars', context)` with the copied vars |
| ResolveRoute.FirstMatchFirst | src/main/resolveRoute.ts:46-52 | the first child that resolves decides the result |
| ResolveRoute.FirstMatchNone | src/main/resolveRoute.ts:46-53 | a container gives null exactly when every child does |
| ResolveRoute.FirstMatchIgnoresRest | src/main/resolveRoute.ts:46-52 | once a child resolves, later children cannot change the result |
| ResolveRoute.IndexWithoutPattern | src/main/resolveRoute.ts:28-53 | a container without a pattern passes the path and vars through unchanged |
| ResolveRoute.IndexWithPattern | src/main/resolveRoute.ts:29-45 | a container with a pattern gives null on no match; otherwise its children all see the path with the matched prefix removed and the same captured vars |
| ResolveRoute.IfSelects | src/main/resolveRoute.ts:56-62 | IF takes the then-branch on a true condition and the else-branch otherwise; an absent selected branch gives null with no fall-through |
| ResolveRoute.ResolveKeepsKeys | src/main/resolveRoute.ts:7-66 | a resolution's vars hold every key the caller passed in |
| ResolveRoute.FirstMatchKeepsKeys | src/main/resolveRoute.ts:46-52 | the same for a container's children |
| ResolveRoute.CopyVars | src/main/resolveRoute.ts:17-23 | the copy loop computes exactly `Bind` |
| ResolveRoute.ResolveRoute | src/main/resolveRoute.ts:7-67 | the resolver, with its early-return loop, equals the reference `Resolve` |
| RouterDsl.LinkChildren | src/main/router-dsl.ts:48-50 | every child's parent becomes the new node |
| RouterDsl.RouteWithChildren | src/main/router-dsl.ts:35-52 | the pattern is parsed first: a syntax error is the parse's error and leaves the children's parents unchanged; otherwise a partial route holds the raw path, the AST and the compiled matcher, keeps the children in order, links each to it, and has no parent |
| RouterDsl.PartialRoute | src/main/router-dsl.ts:39-51 | a partial route with the compiled matcher, its children linked to it |
| RouterDsl.RouteWithCallback | src/main/router-dsl.ts:35-61 | a syntax error is the parse's error; otherwise a content route with the raw path, AST, matcher and callback, and no parent |
| RouterDsl.Iif | src/main/router-dsl.ts:75-83 | an IF node holding the condition and both branches, missing ones null; the branches' parent links are not touched |
| RouterDsl.Index | src/main/router-dsl.ts:93-103 | an INDEX node keeping the children in order, each linked to it |
| RouterDsl.Meta | src/main/router-dsl.ts:118-125 | the new META node holds the child, and the child's parent is set to it |
| RouterVisitor.Visit | packages/router/src/main/visitNode.ts:17-40 | the reference visit: a node whose callback is missing visits nothing; otherwise the node, then what each continuation call visits, IF's two continuations visiting its then- and else-branch; its properties are `CompleteVisit`, `CompleteVisitIf` and `AbsentBranch` |
| RouterVisitor.VisitOpt | packages/router/src/main/visitNode.ts:17-18 | a null node invokes nothing |
| RouterVisitor.RouteVisit | packages/router/src/main/visitNode.ts:20-22 | a ROUTE's callback gets no continuation |
| RouterVisitor.AbsentBranch | packages/router/src/main/visitNode.ts:32-33 | an absent IF branch's continuation is a no-op, however often it is called |
| RouterVisitor.VisitAllAppend | packages/router/src/main/visitNode.ts:42-46 | visiting children is sequential: it distributes over concatenation |
| RouterVisitor.CompleteVisit | packages/router/src/main/visitNode.ts:17-46 | with every callback calling each continuation once, the visit is the pre-order traversal: children in order, then before else, a META's single child |
| RouterVisitor.CompleteVisitIf | packages/router/src/main/visitNode.ts:32-33 | IF's separate continuations visit the then-branch, then the else-branch |
| RouterVisitor.CompleteVisitAll | packages/router/src/main/visitNode.ts:42-46 | the same for a list of children |
| RouterVisitor.VisitNode | packages/router/src/main/visitNode.ts:17-40 | the visitor equals the reference visit |
| RouterVisitor.VisitChildren | packages/router/src/main/visitNode.ts:42-46 | the children loop equals the reference visit |
| TransformParserNode.Transform | packages/pattern-compiler/src/main/transformParserNode.ts:8-150 | the reference transformation: TEXT to STRING, WILDCARD to an empty STRING (a WILDCARD node as a constraint), VARIABLE to a named PARAM, REG_EXP to REG_EXP, empty containers to an empty STRING, PATH and SEGMENT through `Collect`, ALT through `Branches`; its properties are `TransformFlat`, `TransformSpells`, `LeadingSeparator` and `EmptyAndLeaves` |
| TransformParserNode.Collect | packages/pattern-compiler/src/main/transformParserNode.ts:69-111 | the reference children loop: each child transformed, a SELECT truncated, then pushed with `PushChild`; see `CollectFlat` and `CollectExpand` |
| TransformParserNode.Branches | packages/pattern-compiler/src/main/transformParserNode.ts:132-141 | the reference ALT loop: each branch transformed, a SELECT contributing its own branches; see `BranchesFlat` |
| TransformParserNode.PushChild | packages/pattern-compiler/src/main/transformParserNode.ts:89-110 | one child appended: a STRING merged into a preceding STRING, a CONCAT spliced in with its first STRING merged likewise; see `PushChildFlat` and `PushChildExpand` |
| TransformParserNode.Leading | packages/pattern-compiler/src/main/transformParserNode.ts:62-67 | the leading part is nothing or one separator STRING |
| TransformParserNode.FirstString | packages/pattern-compiler/src/main/transformParserNode.ts:72-87 | the first STRING among the branches, not counting the last one |
| TransformParserNode.TruncateSelect | packages/pattern-compiler/src/main/transformParserNode.ts:72-87 | a SELECT under a PATH or SEGMENT is cut right after its first STRING branch among the non-last branches, keeping a prefix of its branches, and becomes that STRING when it is the first branch |
| TransformParserNode.TruncateFlat | packages/pattern-compiler/src/main/transformParserNode.ts:72-87 | truncation keeps the normal form |
| TransformParserNode.PushChildFlat | packages/pattern-compiler/src/main/transformParserNode.ts:89-110 | merging and splicing leave no nested CONCAT and no two STRINGs in a row |
| TransformParserNode.TransformFlat | packages/pattern-compiler/src/main/transformParserNode.ts:10-149 | the result is in normal form: adjacent STRINGs merged, no CONCAT inside a CONCAT, no SELECT inside a SELECT, and every CONCAT and SELECT has at least two children, since a single child collapses |
| TransformParserNode.CollectFlat | packages/pattern-compiler/src/main/transformParserNode.ts:69-111 | the children loop leaves at least one child, in normal form |
| TransformParserNode.BranchesFlat | packages/pattern-compiler/src/main/transformParserNode.ts:132-141 | an ALT flattens nested SELECT branches into its own list |
| TransformParserNode.PushChildExpand | packages/pattern-compiler/src/main/transformParserNode.ts:89-110 | merging a STRING and splicing a CONCAT keep what the children spell, left to right |
| TransformParserNode.CollectExpand | packages/pattern-compiler/src/main/transformParserNode.ts:69-111 | the children loop spells the leading part, then each child's transformation, in order |
| TransformParserNode.TransformSpells | packages/pattern-compiler/src/main/transformParserNode.ts:49-119 | a non-empty PATH or SEGMENT spells its leading separator and then what its children spell: merging loses and adds nothing |
| TransformParserNode.LeadingSeparator | packages/pattern-compiler/src/main/transformParserNode.ts:62-67 | an absolute PATH, and a SEGMENT after the first child of its PATH, start with the separator |
| TransformParserNode.EmptyAndLeaves | packages/pattern-compiler/src/main/transformParserNode.ts:10-57 | an empty PATH, SEGMENT or ALT is an empty STRING; TEXT is a STRING of the same value; a wildcard outside a constraint is an empty STRING; a wildcard constraint stays a WILDCARD with its greedy flag |
| TransformParserNode.TransformParserNode | packages/pattern-compiler/src/main/transformParserNode.ts:8-150 | the recursive transformation equals the reference `Transform` |
| TransformParserNode.CollectChildren | packages/pattern-compiler/src/main/transformParserNode.ts:69-111 | the children loop equals the reference `Collect` |
| TransformParserNode.TruncateSelectLoop | packages/pattern-compiler/src/main/transformParserNode.ts:72-87 | the truncation loop equals `TruncateSelect` |
| TransformParserNode.CollectBranches | packages/pattern-compiler/src/main/transformParserNode.ts:132-141 | the ALT loop equals the reference `Branches` |
| CompilerAst.Chars | packages/pattern-compiler/src/main/compileNode.ts:36-37 | the characters of a STRING, one atom each, in order |
| CompilerAst.ExpandAllAppend | packages/pattern-compiler/src/main/compileNode.ts:13-14 | what a sequence of children spells distributes over concatenation |
| CompileNode.Compile | packages/pattern-compiler/src/main/compileNode.ts:8-39 | the reference compiler: CONCAT and SELECT to `concat(...)` and `select(...)` with SELECT branches optional, a simple PARAM to the callback's text and any other to the optional param `??` its constraint, WILDCARD to `""`, STRING to its JSON literal, REG_EXP to a throw; its properties are `CompileSucceeds`, `OnlyCallsMatter`, `StringLiteral` and `ParamFallback` |
| CompileNode.CompileSucceeds | packages/pattern-compiler/src/main/compileNode.ts:8-39 | compiling throws exactly when a REG_EXP is reached other than as a param's simple constraint, and then always with the same message |
| CompileNode.CompileAllSucceeds | packages/pattern-compiler/src/main/compileNode.ts:13-17 | the children compile exactly when each does, to one text per child in order, and a failure is always the regexp error |
| CompileNode.OnlyCallsMatter | packages/pattern-compiler/src/main/compileNode.ts:8-39 | the output depends on `provideParamVarName` only at the calls it makes: two callbacks that agree there give the same text |
| CompileNode.OnlyCallsMatterAll | packages/pattern-compiler/src/main/compileNode.ts:13-17 | the same for a list of children |
| CompileNode.CallsAreParams | packages/pattern-compiler/src/main/compileNode.ts:16-28 | every call is for a PARAM, and below a SELECT or a PARAM's constraint every call is optional |
| CompileNode.CallsAllAreParams | packages/pattern-compiler/src/main/compileNode.ts:13-17 | the same for a list of children |
| CompileNode.StringLiteral | packages/pattern-compiler/src/main/compileNode.ts:30-37 | a STRING compiles to a JSON literal that reads back as its value; a WILDCARD compiles to the empty literal |
| CompileNode.ParamFallback | packages/pattern-compiler/src/main/compileNode.ts:19-28 | a PARAM whose constraint is not simple reads as the optional param, `??`, then its constraint compiled as optional |
| CompileFunction.Compile | packages/pattern-compiler/src/main/compileFunction.ts:16-59 | the reference `compileFunction`: the node compiled with `provideParamVarName`, the map built by its calls, then the interface when the map is not empty and the function text; see `InterfaceIffParams` and `ProvidedDescribes` |
| CompileFunction.Provided | packages/pattern-compiler/src/main/compileFunction.ts:28-42 | one call of `provideParamVarName` on the map: a new name is appended with type `string` updated by its constraint and the call's optional flag; a known name keeps its place and flag and has its type updated; see `DescribesNew` and `DescribesUpdate` |
| CompileFunction.ConstraintType | packages/pattern-compiler/src/main/compileFunction.ts:34-39 | the type update, with line 38 corrected: a SELECT of only STRINGs gives their union, a STRING its literal type, anything else keeps the current type; see `LastCallTypes`, `TypeStaysString` and `StringTypeIsLiteral` |
| CompileFunction.QuotedValues | packages/pattern-compiler/src/main/compileFunction.ts:35 | the JSON-quoted values of the STRING branches, one per branch, in order |
| CompileFunction.IndexOf | packages/pattern-compiler/src/main/compileFunction.ts:32 | `paramTypeMap[name]`: the entry for the name when there is one, and none otherwise |
| CompileFunction.FirstSeenHas | packages/pattern-compiler/src/main/compileFunction.ts:32 | a name is in the map exactly when some call was for it |
| CompileFunction.TypeOfUntouched | packages/pattern-compiler/src/main/compileFunction.ts:32 | a name never called keeps the type `string` |
| CompileFunction.DescribesStep | packages/pattern-compiler/src/main/compileFunction.ts:28-42 | one more call keeps the map a description of the calls so far |
| CompileFunction.DescribesNew | packages/pattern-compiler/src/main/compileFunction.ts:32 | a call for a name not yet in the map appends an entry and keeps the map a description of the calls so far |
| CompileFunction.DescribesUpdate | packages/pattern-compiler/src/main/compileFunction.ts:32-39 | a call for a name already in the map updates that entry in place and keeps the map a description of the calls so far: the first call's optional flag, the latest type |
| CompileFunction.NamesDistinct | packages/pattern-compiler/src/main/compileFunction.ts:32 | the map holds each renamed name once |
| CompileFunction.ProvidedDescribes | packages/pattern-compiler/src/main/compileFunction.ts:24-43 | after compiling, the map has one entry per distinct renamed name in first-seen order, the first occurrence's optional flag, and the type the calls for that name leave |
| CompileFunction.TypeStaysString | packages/pattern-compiler/src/main/compileFunction.ts:32 | a name whose calls never carry a STRING constraint or a SELECT of only STRINGs keeps the type `string` |
| CompileFunction.LastCallTypes | packages/pattern-compiler/src/main/compileFunction.ts:34-36 | a param constrained by a SELECT of only STRINGs gets their JSON-quoted values joined by `\|` as its type |
| CompileFunction.ProvidedAllEmpty | packages/pattern-compiler/src/main/compileFunction.ts:45 | the map is empty exactly when no call was made |
| CompileFunction.InterfaceIffParams | packages/pattern-compiler/src/main/compileFunction.ts:45-56 | with no params the output is `export function F():string\|null{return SRC;}` and no interface; with params the interface of the params object comes first |
| CompileFunction.ParamReference | packages/pattern-compiler/src/main/compileFunction.ts:41 | each simple param reads as `paramsVarName + "." + renamed name` |
| CompileFunction.UnionOfTwo | packages/pattern-compiler/src/main/compileFunction.ts:34-36 | two STRING branches give their JSON-quoted values joined by one `\|` |
| CompileFunction.UnionTypeExample | packages/pattern-compiler/src/test/compileFunction.test.ts:46-55 | an illustration after the test of `/:foo{bar/baz,qux}`: the branches `bar/baz` and `qux` give the type `"bar/baz"\|"qux"` (compileFunction.ts:34-36) |
| CompileFunction.AsWrittenStringType | packages/pattern-compiler/src/main/compileFunction.ts:37-39 | as written, a STRING constraint's type is the JSON text of the node object, not the literal type of its value |
| CompileFunction.StringTypeIsLiteral | packages/pattern-compiler/src/main/compileFunction.ts:37-39 | corrected, a STRING constraint's type is the literal type of its value, the same as a union of that one string, and it reads back as the value |
| CompileFunction.ParamTypeMap.Provide | packages/pattern-compiler/src/main/compileFunction.ts:28-42 | `provideParamVarName` updates the map as the reference step does and returns the param's reference |
| CompileFunction.CompileFunction | packages/pattern-compiler/src/main/compileFunction.ts:16-59 | compiling the node, recording each call in the map, and writing the interface and function text equals the reference `Compile` |
| TransformNode.Transform | packages/pattern-compiler/src/main/transformNode.ts:4-158 | the reference transformation: TEXT to STRING, WILDCARD to null, a VARIABLE to its transformed constraint when that is a STRING and else to a PARAM, a REG_EXP to null under a VARIABLE and else to an unnamed PARAM, PATH and SEGMENT through `Collect` with `/` leading an absolute PATH and every later SEGMENT, an ALT through `Branches`; its properties are `Leaves`, `VariableForm`, `TransformFlat` and `TransformSpells` |
| TransformNode.Collect | packages/pattern-compiler/src/main/transformNode.ts:48-68 | the reference children loop: null children skipped, the rest pushed as `transformParserNode` pushes them; see `CollectFlat` and `CollectExpand` |
| TransformNode.Branches | packages/pattern-compiler/src/main/transformNode.ts:126-143 | the reference ALT loop: null branches skipped, nested SELECTs flattened, stopping once the last branch kept is a STRING; see `BranchesCut` and `BranchesStop` |
| TransformNode.ChildParent | packages/pattern-compiler/src/main/transformNode.ts:32-85 | the parent link a child reads: inside a PATH the PATH, telling the first child apart (line 85); inside a SEGMENT a REG_EXP's parent is a VARIABLE exactly when some earlier sibling is a VARIABLE with no constraint or an ALT for one and only ALTs come between them (line 32) |
| TransformNode.AtVariableIff | packages/pattern-parser/src/main/parsePattern.ts:26-125 | the parser's cursor within a SEGMENT is on a VARIABLE exactly when some child left it there and only ALTs followed, since closing an ALT returns the cursor to the ALT's parent |
| TransformNode.StaleParentExample | packages/pattern-parser/src/main/parsePattern.ts:121-125 | in `:a{x}{y}(re)` the regexp's parent is the variable `a`, so `transformNode` drops it |
| TransformNode.BranchesCut | packages/pattern-compiler/src/main/transformNode.ts:126-143 | the ALT loop keeps a prefix of all branches; when it breaks, the last branch kept is a STRING |
| TransformNode.BranchesStop | packages/pattern-compiler/src/main/transformNode.ts:140-142 | once the ALT loop has broken, later children are not looked at |
| TransformNode.CollectExpand | packages/pattern-compiler/src/main/transformNode.ts:48-68 | the children loop spells the leading part, then each child's transformation, with null children skipped |
| TransformNode.TransformSpells | packages/pattern-compiler/src/main/transformNode.ts:41-124 | a PATH or SEGMENT spells `/` when absolute or not the first segment of its PATH, then what its children spell |
| TransformNode.Leaves | packages/pattern-compiler/src/main/transformNode.ts:7-39 | TEXT becomes a STRING; a WILDCARD becomes null and is dropped; a REG_EXP is null exactly under a VARIABLE and is an unnamed PARAM elsewhere |
| TransformNode.VariableForm | packages/pattern-compiler/src/main/transformNode.ts:16-29 | a VARIABLE whose constraint becomes a STRING is replaced by that STRING, and otherwise becomes a PARAM holding its transformed constraint |
| TransformNode.TransformFlat | packages/pattern-compiler/src/main/transformNode.ts:41-155 | any result is in the same normal form as `transformParserNode`'s: adjacent STRINGs merged, no CONCAT inside a CONCAT, no SELECT inside a SELECT, and at least two children in every CONCAT and SELECT |
| TransformNode.CollectFlat | packages/pattern-compiler/src/main/transformNode.ts:48-68 | adjacent STRINGs are merged and nested CONCATs are spliced |
| TransformNode.BranchesFlat | packages/pattern-compiler/src/main/transformNode.ts:129-143 | an ALT flattens nested SELECTs into its own list |
| TransformNode.TransformNode | packages/pattern-compiler/src/main/transformNode.ts:4-158 | the recursive transformation equals the reference `Transform` |
| TransformNode.CollectChildren | packages/pattern-compiler/src/main/transformNode.ts:48-68 | the children loop equals the reference `Collect` |
| TransformNode.CollectBranches | packages/pattern-compiler/src/main/transformNode.ts:129-143 | the ALT loop, which breaks once the last branch collected is a STRING, equals the reference |
| Strings.JoinAppend | packages/pattern-parser/src/main/convertNodeToRegExp.ts:152-161 | joining one more part adds the separator and the part |
| Strings.NatToStringInjective | packages/pattern-parser/src/main/parsePattern.ts:203-206 | distinct offsets in an error message print differently |
| Strings.JsonQuote | packages/pattern-compiler/src/main/compileNode.ts:36-37 | `JSON.stringify` of a string is a double-quoted literal; that it reads back is `JsonQuoteRoundTrip` |
| Strings.JsonQuoteRoundTrip | packages/pattern-compiler/src/main/compileNode.ts:36-37 | a JSON string literal reads back as the string it quotes |

## Left out

- The regular-expression engine: what a source matches, `RegExp` construction and how the `exec` method is replaced on the object are not modelled. A match is an oracle value: captures plus an optional native groups map for the merge rule, and the matched prefix and captures for the resolver.
- `convertPatternToRegExp`, `compileParserNode` and `compilerParserNode` are one-line compositions of modelled operations. `compileParserNode` and `compilerParserNode` also call `compileNode` with the wrong number of arguments.
- The `tokenizer-dsl` combinators (`all`, `char`, `seq`, `text`) are written out directly. Only the takers they build are modelled.
- `jsonStringify` (from the compiler's `misc.ts`, which is not part of this model) is taken to be `JSON.stringify` of a string. The second finding also assumes it stringifies objects as `JSON.stringify` does.
- The callbacks of `resolveRoute`, the visitors and `renameParam` are pure functions. Side effects and exceptions inside them are not modelled. A visitor callback is modelled by how many times it calls its continuation.
- `resolveRoute` is modelled on its own node shape: `varMap`, `thenNode`, `elseNode`, `childNode`, and an INDEX with an optional pattern. The DSL nodes built by `router-dsl.ts` carry a different shape, and how one becomes the other is not part of this model.
- ParsePattern.RunAltsNonEmpty: every ALT is proved to have at least one branch. That the number of branches is one more than the number of separators the ALT received is proved only step by step: `OnAltStart` opens exactly one branch and `AltSeparatorAppends` adds exactly one. It is not proved as a statement about a whole parse.
- ParsePattern.PushNode: requires that a VARIABLE is never pushed while the cursor is a VARIABLE. Every handler guarantees this, because the variable handler first leaves a variable cursor.
- ParsePattern.PushNode: the "Unexpected syntax" throw of `pushNode` (parsePattern.ts:65) cannot be reached from any handler. `PushInto` models that branch and its error, and `PushNode` is proved never to take it.
- TransformNode.ChildParent: `transformNode` reads the parser's `parent` links, which the model's AST does not carry. They are rebuilt from the siblings by replaying the parser's cursor (`AtVariableIff`). No lemma ties this replay to the links in the `ParsePattern` arena, and an AST the parser cannot build gets the link the replay gives.
- TransformNode (`TransformNode.TransformNode`) inherits this: it equals `Transform` with the rebuilt links.
- CollectChildren (`TransformNode.CollectChildren`) inherits it likewise: it equals `Collect` with the rebuilt links.
- The tests of `resolveRoute` use a `params` key, but the code returns `vars`; the model follows the code. A trailing-slash test contradicts the full-match check at `resolveRoute.ts:13`; the model follows the check. Some tests of `convertNodeToRegExp` expect defaults of `[^/]*` and `.*`; the model uses the defaults in the code (lines 57-63).
- The PARAM/VARIABLE renaming halfway through the repository: both tags are one node kind here.
- TokenizePattern (`Tokenizer.Tokenizer.TokenizePattern`): offsets count Unicode scalar values (Dafny `char`s), while JavaScript counts UTF-16 code units. For the pattern `😀(` the scan stops at the unclosed `(`: at 1 in the model, at 2 in JavaScript. Every offset differs after a character outside the Basic Multilingual Plane.
- ParseOutcome (`ParsePattern.ParseOutcome`): the error offsets inherit the same unit, so `😀(` fails with "Unexpected syntax at 1" in the model and "Unexpected syntax at 2" in JavaScript.
- ConstraintType (`CompileFunction.ConstraintType`) is the corrected type update of the second finding. For `:foo"bar"` the source as written declares the type `{"nodeType":"STRING","value":"bar"}`, as `AsWrittenConstraintType` and `AsWrittenStringType` state.
- Compile (`CompileFunction.Compile`) uses `ConstraintType`, so a param with a STRING constraint gets the corrected literal type, not the as-written object text.
- Provide (`CompileFunction.ParamTypeMap.Provide`) uses `ConstraintType` too, with the same consequence.
- CompileFunction (`CompileFunction.CompileFunction`) equals `Compile`, so it has the same consequence.
- ProvidedDescribes (`CompileFunction.ProvidedDescribes`): its STRING types are the corrected ones, as for `Compile`. Also, the interface lists the params in the order they were first seen. `Object.entries` puts keys that are canonical array indices (`"0"`, `"1"`, …) first, in ascending order. A `renameParam` that returns such names gives a different order in the source.
- Integer widths: offsets, counters and group indices are unbounded naturals. JavaScript numbers only exceed 2^53 on inputs no string can reach.

## Findings

| source | as written | input that shows it | evidently intended | confidence | as-written member | corrected member |
|---|---|---|---|---|---|---|
| packages/pattern-parser/src/main/createPatternParser.ts:63 | the handler given to `tokenizePattern` names its variable callback `param`; the tokenizer calls `variable` (tokenizePattern.ts:225), so every variable event is ignored | `:a` parses to an empty relative PATH | the callback is named `variable`, as in `parsePattern`, so `:a` gives a PATH holding one variable | not executed | CreatePatternParser.AsWrittenDropsVariable | CreatePatternParser.FixedKeepsVariable |
| packages/pattern-compiler/src/main/compileFunction.ts:38 | a STRING constraint's type is `jsonStringify(nodeConstraint)`, the JSON text of the whole node object | a param whose constraint is the string `foo bar` gets the type `{"nodeType":…,"value":"foo bar"}` | `jsonStringify(nodeConstraint.value)`: the literal type `"foo bar"`, as the SELECT case builds for each branch | not executed; assumes `jsonStringify` behaves as `JSON.stringify` | CompileFunction.AsWrittenStringType | CompileFunction.StringTypeIsLiteral |

# SCXQ2-ES in Dafny

This project models the core of SCXQ2-ES and proves properties of the model. SCXQ2-ES compiles a
small expression language into Elasticsearch Painless scripts. It protects both compiled
expressions and block programs with one pattern: put each input in canonical form, hash each part,
compose a versioned ABI envelope, and compile or run only when that envelope matches.

The model covers:

- **The expression compiler.**
  - The regex-driven scanner (`Lexer`).
  - The recursive-descent parser with its mutable cursor (`Parser`). It is a class whose methods
    are proved against one specification function per grammar rule.
  - The structural emitter with its arity-checked call templates and single-quote escaping
    (`Emitter`).
  - `compilePainless` (`Compiler`).
- **The policy walker** over the syntax tree's object form (`Policy`).
- **The two canonical serialisers**: `stableStringify` (`StableStringify`) and
  `canonicalJSONStringify` (`CanonicalJson`).
- **The two ABI profiles.**
  - The expression profile: symbol table, policy/AST/envelope hashes (`SymbolTableV1`, `AbiV1`).
  - The program profile: policy and program normalisers, capability hash, envelope
    (`AbiMatrix`).
- **The verifiers.**
  - `verifyAbiResult` and `verifyGoldenVectors` (`AbiVerifyV1`).
  - `verifyAbi`, the admission gate and the conformance runner (`MatrixVerify`).
- **The block interpreter** (`Vm`) and the in-memory IDB plugin it runs against (`IdbMemory`).
  The plugin is a class whose store table and write log are updated in place.
- **The KUHUL adapter** (`KuhulAdapter`).

The JavaScript semantics these depend on are modelled explicitly:

- a value datatype with `undefined`, symbols, functions, BigInt and non-plain objects;
- `typeof`, truthiness, `??`, property reads, `String(x)` and `Number(x)`;
- `===` and `Set.has`;
- `Array.prototype.sort` with its default comparator, and `JSON.stringify`.

These live in `JsValue`, `JsNumber`, `JsText`, `JsSort` and `JsJson`. Every thrown error is a
`Result` error (`Errors`).

SHA-256 is a parameter `h: string -> string` of every function that hashes. Nothing is assumed
about it, so every property below holds for any hash function.

## Model

| member | source | states |
|---|---|---|
| Lexer.Tokenize | src/lower_painless_v1.js:6-13 | the scanning loop returns exactly the token sequence `TokensOf` describes: at each position the first matching alternative, unmatched characters skipped |
| Lexer.Run | src/lower_painless_v1.js:9 | a character-class run is the longest prefix whose characters all satisfy the class |
| Lexer.Lexeme | src/lower_painless_v1.js:9 | a match at a position has length between 1 and what is left of the input |
| Lexer.LexemeIsToken | src/lower_painless_v1.js:9 | every lexeme the alternation matches is a token of one of its forms (punctuator, operator, name, quoted string, numeral) |
| Lexer.NameLexeme | src/lower_painless_v1.js:9 | the name alternative `@?[A-Za-z_][A-Za-z0-9_]*` yields a name token |
| Lexer.QuotedLexeme | src/lower_painless_v1.js:9 | a closed quote alternative yields a quoted token with no inner quote |
| Lexer.NumeralLexeme | src/lower_painless_v1.js:9 | input starting with a digit always yields a numeral token |
| Lexer.TokensAreTokens | src/lower_painless_v1.js:6-13 | every token the scanner returns is drawn from the alternation |
| Lexer.TokensAreNonEmpty | src/lower_painless_v1.js:6-13 | no token is empty or starts with whitespace |
| Lexer.TokensInOrder | src/lower_painless_v1.js:6-13 | the tokens come in source order: each is the slice of the text at its start, starts increase, and no two tokens overlap |
| Lexer.ShiftSlices | src/lower_painless_v1.js:6-13 | slices of the rest of the text are slices of the whole, moved by the offset |
| Lexer.ConsSlice | src/lower_painless_v1.js:6-13 | the token matched first goes in front of the later slices |
| Lexer.Shift | src/lower_painless_v1.js:6-13 | moving every start by the offset keeps their count |
| Lexer.TokenIsVisible | src/lower_painless_v1.js:9 | a token of any form is non-empty and starts with a non-whitespace character |
| Lexer.NoCoalesceToken | src/lower_painless_v1.js:9 | because `[()?:,]` is tried before `\?\?`, the scanner never returns a `??` token |
| Lexer.NoDotToken | src/lower_painless_v1.js:9 | `.` is never a token on its own |
| Lexer.WhitespaceOnly | src/lower_painless_v1.js:11 | an all-whitespace input scans to no tokens |
| Lexer.RunPrefix | src/lower_painless_v1.js:9 | cutting the input after a run ends does not change the run |
| Lexer.RunAll | src/lower_painless_v1.js:9 | a string of class characters is one run |
| Ast.AstToValue | src/lower_painless_v1.js:29 | each node's object form starts with its `type` property |
| Ast.ArgsToValues | src/lower_painless_v1.js:129 | the argument list's object form is the element-wise object form of the arguments |
| Ast.AstToValueInjective | src/lower_painless_v1.js:22-148 | distinct trees have distinct object forms, so hashing the object form identifies the tree |
| Ast.ArgsInjective | src/lower_painless_v1.js:120-129 | distinct argument lists have distinct object forms |
| Parser.LevelOp | src/lower_painless_v1.js:34-86 | a level recognises an operator only when there is a next token |
| Parser.QuoteBody | src/lower_painless_v1.js:133 | the string literal's value is the token without its first and last character |
| Parser.ExprAt | src/lower_painless_v1.js:22-32 | a successful expression parse moves the cursor forward and at most one past the end |
| Parser.OperandAt | src/lower_painless_v1.js:35 | an operand of a level is parsed by the next tighter level and advances the cursor |
| Parser.LevelAt | src/lower_painless_v1.js:34-86 | a binary level advances the cursor on success |
| Parser.LevelRestAt | src/lower_painless_v1.js:36-39 | the operator loop never moves the cursor backwards |
| Parser.LevelFirst | src/lower_painless_v1.js:34-41 | a level reads its first operand, then runs its loop from where that operand ended, and fails with that operand's error |
| Parser.LevelRestStep | src/lower_painless_v1.js:36-39 | one loop turn consumes the operator, parses the next operand and folds both into a left-nested `bin` node |
| Parser.UnaryAt | src/lower_painless_v1.js:88-93 | a unary parse advances the cursor |
| Parser.PostfixAt | src/lower_painless_v1.js:95-104 | a postfix parse advances the cursor |
| Parser.PrimaryAt | src/lower_painless_v1.js:106-148 | a primary parse consumes at least one token |
| Parser.ParenAt | src/lower_painless_v1.js:109-113 | a parenthesised expression consumes through its `)` |
| Parser.AtomAt | src/lower_painless_v1.js:132-147 | an atom never moves the cursor backwards |
| Parser.ParamAt | src/lower_painless_v1.js:141-145 | `params . name` consumes exactly two more tokens and builds a `param` node |
| Parser.CallRestAt | src/lower_painless_v1.js:117-130 | a call consumes through its closing `)` |
| Parser.CallArgsAt | src/lower_painless_v1.js:120-127 | an argument list never moves the cursor backwards |
| Parser.ArgsAt | src/lower_painless_v1.js:123-126 | the `,` loop keeps the arguments read so far as a prefix of its result |
| Parser.Parser.constructor | src/lower_painless_v1.js:17-18 | a new parser holds the tokens with its cursor at 0 |
| Parser.Parser.PeekToken | src/lower_painless_v1.js:19 | `peek` returns the token under the cursor, or nothing past the end |
| Parser.Parser.NextToken | src/lower_painless_v1.js:20 | `next` returns the token under the cursor and advances the cursor by one, even past the end |
| Parser.Parser.ParseExpr | src/lower_painless_v1.js:22-32 | the method's result and final cursor are those of the expression rule |
| Parser.Parser.ParseOperand | src/lower_painless_v1.js:35 | result and final cursor are those of the operand rule |
| Parser.Parser.ParseLevel | src/lower_painless_v1.js:34-86 | result and final cursor are those of the binary-level rule |
| Parser.Parser.ParseLevelStep | src/lower_painless_v1.js:36-39 | one loop turn of a level matches the rule's step |
| Parser.Parser.ParseUnary | src/lower_painless_v1.js:88-93 | result and final cursor are those of the unary rule |
| Parser.Parser.ParsePostfix | src/lower_painless_v1.js:95-104 | result and final cursor are those of the postfix rule |
| Parser.Parser.ParsePrimary | src/lower_painless_v1.js:106-148 | result and final cursor are those of the primary rule |
| Parser.Parser.ParseParen | src/lower_painless_v1.js:109-113 | result and final cursor are those of the parenthesis rule |
| Parser.Parser.ParseAtom | src/lower_painless_v1.js:132-147 | result and final cursor are those of the atom rule |
| Parser.Parser.ParseParam | src/lower_painless_v1.js:141-147 | result and final cursor are those of the param rule |
| Parser.Parser.ParseCall | src/lower_painless_v1.js:117-130 | result and final cursor are those of the call rule |
| Parser.Parser.ParseCallArgs | src/lower_painless_v1.js:120-127 | result and final cursor are those of the argument-list rule |
| Parser.Parse | src/lower_painless_v1.js:17-153 | `parse` on a token list returns what the grammar functions describe, including the leftover-tokens error |
| ParserProperties.NumeralIsNumber | src/lower_painless_v1.js:136 | `isNaN` is false on every numeral token |
| ParserProperties.NumeralIsFinite | src/lower_painless_v1.js:136 | every numeral token converts to a finite number |
| ParserProperties.NameIsNaN | src/lower_painless_v1.js:136 | every name token except `Infinity` is not a number |
| ParserProperties.NumeralStart | src/lower_painless_v1.js:9 | a numeral starts with a digit or `.` |
| ParserProperties.PrimaryNumeral | src/lower_painless_v1.js:136-138 | a numeral token parses as a `number` node holding its own text |
| ParserProperties.UnaryNumeral | src/lower_painless_v1.js:88-104 | a numeral not followed by `??` is a complete unary operand |
| ParserProperties.LevelNumeral | src/lower_painless_v1.js:34-86 | a numeral followed by no operator of the level or looser is the whole level |
| ParserProperties.ExprNumeral | src/lower_painless_v1.js:22-32 | a numeral followed by no operator and no `?` is the whole expression |
| ParserProperties.LevelsDisjoint | src/lower_painless_v1.js:34-86 | no operator token belongs to two precedence levels |
| ParserProperties.OperatorEnds | src/lower_painless_v1.js:34-86 | an operator of one level ends every tighter level |
| ParserProperties.OperandNumeral | src/lower_painless_v1.js:34-86 | a numeral followed by an operator of the level is that level's operand |
| ParserProperties.LastOperand | src/lower_painless_v1.js:34-86 | a trailing numeral is a complete operand that reaches the end |
| ParserProperties.LiftToTop | src/lower_painless_v1.js:22-86 | a tree that one level parses up to the end is also what the loosest level parses |
| ParserProperties.ParseLevelWhole | src/lower_painless_v1.js:150-152 | a level that consumes every token is the whole parse |
| ParserProperties.BinaryOfNumerals | src/lower_painless_v1.js:34-86 | `x op y` parses to one `bin` node with the level's canonical operator |
| ParserProperties.OrAndSpellings | src/lower_painless_v1.js:36-47 | `|` and `||` both build op `"||"`; `&` and `&&` both build op `"&&"` |
| ParserProperties.LevelChain | src/lower_painless_v1.js:34-86 | a level's `while` loop over any chain of its operators and operands folds the chain to the left |
| ParserProperties.LevelFold | src/lower_painless_v1.js:34-86 | a whole binary level over any such chain is the left fold of its operands |
| ParserProperties.LeftAssociative | src/lower_painless_v1.js:34-86 | for any operands `a`, `b`, `c` the level reads, `a o1 b o2 c` parses as `(a o1 b) o2 c` |
| ParserProperties.LeftAssociativeNumerals | src/lower_painless_v1.js:34-86 | an instance: `x o1 y o2 z` on numerals parses as `(x o1 y) o2 z` |
| ParserProperties.PunctuatorEnds | src/lower_painless_v1.js:22-86 | `?`, `:`, `,` and `)` end every binary level |
| ParserProperties.NumeralTernary | src/lower_painless_v1.js:22-32 | `a ? b : rest` builds a ternary whose else-branch is a full expression |
| ParserProperties.TernaryAt | src/lower_painless_v1.js:22-32 | any condition, `?`, then-branch, `:` and else-branch the parser reads build one `ternary` node ending where the else-branch ends |
| ParserProperties.TernaryNeedsColon | src/lower_painless_v1.js:22-32 | a then-branch not followed by `:` fails with "Expected ':'" |
| ParserProperties.TernaryNestsRight | src/lower_painless_v1.js:22-32 | for any sub-expressions, `a ? b : c ? d : e` nests to the right as `a ? b : (c ? d : e)` |
| ParserProperties.TernaryNestsRightNumerals | src/lower_painless_v1.js:22-32 | an instance on numerals |
| ParserProperties.PrimaryErrorPropagates | src/lower_painless_v1.js:106-148 | a failing primary makes every level fail with the same error |
| ParserProperties.ExprErrorFromPrimary | src/lower_painless_v1.js:150 | a failing first primary is the error of the whole parse |
| ParserProperties.ParenCloses | src/lower_painless_v1.js:109-112 | after `(`, the primary succeeds exactly when its expression is followed by `)`, giving that expression; otherwise "Expected ')'" |
| ParserProperties.UnclosedParen | src/lower_painless_v1.js:109-112 | a leading `(` whose expression is not followed by `)` fails the parse with "Expected ')'" |
| ParserProperties.UnclosedParenNumeral | src/lower_painless_v1.js:109-112 | an instance: `( x` |
| ParserProperties.CallCloses | src/lower_painless_v1.js:117-130 | after `@name`, the call succeeds exactly when `(`, an argument list and `)` follow; a missing `(` is "Expected '('", an unclosed list "Expected ')'" |
| ParserProperties.UnclosedCall | src/lower_painless_v1.js:117-130 | a leading `@name` without `(`, or with an argument list not closed by `)`, fails the parse with that error |
| ParserProperties.UnclosedCallNumeral | src/lower_painless_v1.js:117-130 | an instance: `@f x` and `@f ( x` |
| ParserProperties.LeftoverTokens | src/lower_painless_v1.js:150-152 | an expression that stops before the last token fails with "Unexpected tokens at end", and one that reaches the end is the result |
| ParserProperties.LeftoverNumerals | src/lower_painless_v1.js:150-152 | an instance: two numerals in a row |
| ParserProperties.BareWordRejected | src/lower_painless_v1.js:136-147 | a bare name other than `_score`, `params` and `Infinity` is an unexpected token |
| ParserProperties.KeywordsRejected | src/lower_painless_v1.js:136-147 | `true`, `false` and `null` are unexpected tokens |
| ParserProperties.ExprPlain | src/lower_painless_v1.js:22-32 | from tokens without `??` and `.`, an expression contains no coalesce and no named param |
| ParserProperties.OperandPlain | src/lower_painless_v1.js:35 | the same for an operand |
| ParserProperties.LevelPlain | src/lower_painless_v1.js:34-86 | the same for a binary level |
| ParserProperties.LevelRestPlain | src/lower_painless_v1.js:36-39 | the same for a level's operator loop |
| ParserProperties.UnaryPlain | src/lower_painless_v1.js:88-93 | the same for a unary operand |
| ParserProperties.PostfixPlain | src/lower_painless_v1.js:95-104 | the same for a postfix operand |
| ParserProperties.PrimaryPlain | src/lower_painless_v1.js:106-148 | the same for a primary |
| ParserProperties.CallRestPlain | src/lower_painless_v1.js:117-130 | the same for a call |
| ParserProperties.CallArgsPlain | src/lower_painless_v1.js:120-127 | the same for every call argument |
| ParserProperties.ArgsPlain | src/lower_painless_v1.js:123-126 | the same for the `,` loop's arguments |
| ParserProperties.SourceTextIsPlain | src/lower_painless_v1.js:6-153 | no source text parses to a tree with a coalesce node or a named `params.x` |
| Emitter.Arity | src/lower_painless_v1.js:194-248 | every supported call takes between 1 and 3 arguments |
| Emitter.SupportedCallsAreTheTable | src/lower_painless_v1.js:197-247 | the names `emitCall` handles are exactly the supported-call list |
| Emitter.EnsureArity | src/lower_painless_v1.js:188-192 | the arity check passes exactly when the count is within [min, max], and otherwise reports name, bounds and count |
| Emitter.EmitCall | src/lower_painless_v1.js:194-248 | a call lowers exactly when its name is supported and its argument count fits; an unknown name reports "Unsupported call" and a bad count the arity error |
| Emitter.ReplaceChar | src/lower_painless_v1.js:185 | replacing a character by text that lacks it removes it |
| Emitter.ReplaceCharAppend | src/lower_painless_v1.js:185 | global replacement distributes over concatenation |
| Emitter.TwoPassesAreOne | src/lower_painless_v1.js:183-186 | the two `replace` passes equal one per-character escape, because the first pass only adds backslashes |
| Emitter.UnescapeEscapeChars | src/lower_painless_v1.js:183-186 | reading back the per-character escape returns the original string |
| Emitter.EscapeRoundTrip | src/lower_painless_v1.js:183-186 | un-escaping `escapeSingleQuoted(s)` gives back `s`, and no unescaped `'` ends the literal early |
| Emitter.Emit | src/lower_painless_v1.js:157-181 | a tree lowers exactly when every call in it is supported with a fitting arity |
| Emitter.EmitArgs | src/lower_painless_v1.js:195 | the arguments lower exactly when each does, one text per argument |
| Emitter.Parenthesised | src/lower_painless_v1.js:169-175 | `bin`, `ternary` and `coalesce` lower to text wrapped in parentheses |
| Emitter.CoalesceRepeatsLeft | src/lower_painless_v1.js:173-175 | coalesce lowers to `(L != null ? L : R)`, with the left operand's text twice |
| Emitter.FieldDefault | src/lower_painless_v1.js:198-200 | `@v(k)` lowers as `@v(k, 0.0)` |
| Emitter.ClampIsMinOfMax | src/lower_painless_v1.js:206-216 | `@clamp(x, lo, hi)` lowers to `@min(hi, @max(lo, x))` |
| Compiler.OptionsOf | src/lower_painless_v1.js:262 | the `{}` default replaces only a missing options argument |
| Compiler.Program | src/lower_painless_v1.js:271 | the program text is `return `, the body, then `;` |
| Compiler.CompileSucceeds | src/lower_painless_v1.js:262-296 | compiling succeeds exactly when the tokens parse, the tree passes the policy, it lowers, and the policy hash exists whenever the ABI is wanted |
| Compiler.CompiledCode | src/lower_painless_v1.js:262-296 | a compiled result holds the parsed tree, passed the policy, and its text is `return ` + `emit(ast)` + `;` |
| Compiler.WithAbiSucceeds | src/lower_painless_v1.js:273-295 | attaching the ABI fails only when it is wanted and the policy cannot be hashed |
| Compiler.AbiPart | src/lower_painless_v1.js:273-295 | the ABI is present exactly when `includeAbi ?? true` is truthy, and then it is the envelope and hash of the tree under the options' policy |
| Compiler.EnforceReadsOnly | src/lower_painless_v1.js:267 | the policy check reads only `maxDepth`, `fields` and `params` from the options |
| Compiler.CompileString | src/lower_painless_v1.js:262-263 | a string input is compiled as it is |
| Compiler.DefaultedOptions | src/lower_painless_v1.js:262 | passing `{}` explicitly is the same as passing nothing |
| Compiler.DefaultOptions | src/lower_painless_v1.js:273-283 | with no options the ABI is included and the policy is depth 32 with empty allowlists |
| Compiler.OptionsDefaultInPolicy | src/lower_painless_v1.js:267 | missing options give the policy check its own defaults |
| Policy.AllowedCallsAreLowered | src/policy_v1.js:39-52 | `ALLOWED_CALLS` is exactly the set of names `emitCall` handles |
| Policy.SetElements | src/policy_v1.js:3-4 | `new Set(x ?? [])` takes an array's items, no items from nullish, and throws on non-iterables |
| Policy.ExceedsMonotone | src/policy_v1.js:7 | once a depth exceeds the bound, every greater depth does too |
| Policy.Report | src/policy_v1.js:13-29 | each denied node reports the message of its rule, naming the node |
| Policy.StringSetHas | src/policy_v1.js:14 | membership in a set of strings holds exactly for string names in the list |
| Policy.CallSetHas | src/policy_v1.js:14 | a call name is in `ALLOWED_CALLS` exactly when `emitCall` handles it |
| Policy.NamedPropIsProp | src/policy_v1.js:13-27 | reading `type` or `name` is an ordinary property read |
| Policy.NodeChecks | src/policy_v1.js:13-29 | a node passes its own checks exactly when a `call`, `field` or `param` node's name is in the matching set, and a failing check names the node |
| Policy.Thrown | src/policy_v1.js:7-9 | going too deep throws "expression too deep" |
| Policy.Walk | src/policy_v1.js:6-34 | a value beyond the depth bound fails before its type is inspected; non-objects pass; a failing node check fails before any child is visited |
| Policy.EnforcePolicy | src/policy_v1.js:1-37 | a `null` options object throws |
| Policy.Defaults | src/policy_v1.js:2-4 | with no options the walk uses depth 32, `ALLOWED_CALLS` and empty allowlists |
| Policy.Height | src/policy_v1.js:31-33 | every value has height at least 1 |
| Policy.ItemsHeight | src/policy_v1.js:31-33 | an item list has height 0 exactly when it is empty |
| Policy.MembersHeight | src/policy_v1.js:31-33 | a member list has height 0 exactly when it is empty |
| Policy.WalkOk | src/policy_v1.js:6-34 | the walk returns normally exactly when the value's deepest point is within the bound and every node passes its checks |
| Policy.WalkArray | src/policy_v1.js:31-33 | the same for an array, given it for the items one level down |
| Policy.WalkObject | src/policy_v1.js:31-33 | the same for an object, given it for the members one level down |
| Policy.WalkItemsOk | src/policy_v1.js:31-33 | walking a list succeeds exactly when its deepest item fits and every item passes |
| Policy.WalkMembersOk | src/policy_v1.js:31-33 | the same for an object's members |
| Policy.Descend | src/policy_v1.js:6-34 | a node's check followed by its children's walk succeeds exactly when both hold one level deeper |
| Policy.Sequence | src/policy_v1.js:31-33 | two sibling walks succeed exactly when the deeper of the two fits |
| Policy.DeeperOfTwo | src/policy_v1.js:31-33 | the deeper of two siblings fits exactly when both fit |
| Policy.NodeHeight | src/lower_painless_v1.js:22-148 | every tree's object form is at least two levels deep |
| Policy.MembersOkAll | src/policy_v1.js:31-33 | every member passes exactly when each member's value passes |
| Policy.LeafHeight | src/policy_v1.js:31-33 | a leaf's object form has the leaf's height |
| Policy.UnaryHeight | src/policy_v1.js:31-33 | a `unary` node's object form has the node's height |
| Policy.BinHeight | src/policy_v1.js:31-33 | a `bin` node's object form has the node's height |
| Policy.TernaryHeight | src/policy_v1.js:31-33 | a `ternary` node's object form has the node's height |
| Policy.CoalesceHeight | src/policy_v1.js:31-33 | a `coalesce` node's object form has the node's height |
| Policy.CallHeight | src/policy_v1.js:31-33 | a `call` node's object form has the node's height |
| Policy.AstHeight | src/policy_v1.js:31-33 | the height the walk sees equals the tree's height |
| Policy.ArgsHeightOf | src/policy_v1.js:31-33 | the argument list's height equals that of the arguments |
| Policy.TypeOfAst | src/policy_v1.js:13-25 | every tree node's `type` property is its kind name |
| Policy.NodeCheckOfAst | src/policy_v1.js:13-29 | a tree node passes its check exactly when a call's name is allowed and a param's name is allowed; no tree node is a `field` node |
| Policy.ObjectNodesOk | src/policy_v1.js:13-33 | an object passes exactly when it passes its own check and its members pass |
| Policy.LeafNodesOk | src/policy_v1.js:13-29 | a leaf passes exactly when the tree-level check allows it |
| Policy.UnaryNodesOk | src/policy_v1.js:13-33 | the same for `unary` |
| Policy.BinNodesOk | src/policy_v1.js:13-33 | the same for `bin` |
| Policy.TernaryNodesOk | src/policy_v1.js:13-33 | the same for `ternary` |
| Policy.CoalesceNodesOk | src/policy_v1.js:13-33 | the same for `coalesce` |
| Policy.CallNodesOk | src/policy_v1.js:13-33 | the same for `call` |
| Policy.AstNodesOk | src/policy_v1.js:13-33 | every node of the object form passes exactly when every call and param in the tree is allowed |
| Policy.ArgsNodesOk | src/policy_v1.js:13-33 | the same for an argument list |
| Policy.PolicyAdmits | src/policy_v1.js:6-36 | the policy admits a tree exactly when the tree's depth is within `maxDepth` and every call and param name is allowed |
| Policy.WalkFromTop | src/policy_v1.js:36 | the walk from depth 0 succeeds exactly when the height minus one fits and every node passes |
| Policy.NumberWithinOne | src/policy_v1.js:6-33 | with `maxDepth` 1 a `number` node passes: its scalar properties sit at depth 1 |
| Policy.BinBeyondOne | src/policy_v1.js:6-33 | with `maxDepth` 1 every `bin` node fails, because depth grows with every property, scalars included |
| StableStringify.StringifyItems | src/stable_stringify.js:30 | encoding an array's items keeps their count |
| StableStringify.PrependAllAppend | src/stable_stringify.js:36-42 | prefixing in two steps is prefixing once with the joined prefix |
| StableStringify.PrependTextAppend | src/stable_stringify.js:36-42 | the same for the text accumulated so far |
| StableStringify.StringifyValue | src/stable_stringify.js:5-49 | the imperative encoder returns exactly what the recursive encoding describes |
| StableStringify.StringifyObject | src/stable_stringify.js:33-46 | the object branch's loop, with its patch and closing brace, returns the object's specified encoding |
| StableStringify.AppendMember | src/stable_stringify.js:37-41 | one loop turn skips an undefined member, or appends `"key":value` and a comma unless it is the last key, or stops with the member's error |
| StableStringify.MembersTextSkip | src/stable_stringify.js:39 | undefined or absent members are skipped |
| StableStringify.MembersTextError | src/stable_stringify.js:40 | a member whose value cannot be encoded makes the object fail with that error |
| StableStringify.MembersTextMember | src/stable_stringify.js:40-41 | an encodable member contributes `"key":value` |
| StableStringify.ObjectTextOfLoop | src/stable_stringify.js:35-45 | once the loop has consumed every key, the object's text is the patched accumulator plus `}` |
| StableStringify.ScalarText | src/stable_stringify.js:6-16 | `null`, `true` and `false` encode literally, `-0` encodes as `0`, and a number encodes exactly when it is finite |
| StableStringify.StringText | src/stable_stringify.js:18 | a string encodes as its JSON string literal, which decodes back to the string |
| StableStringify.IllegalKinds | src/stable_stringify.js:20-27 | `undefined`, functions, symbols and BigInt values throw their own messages |
| StableStringify.ItemsText | src/stable_stringify.js:29-31 | an array encodes exactly when every element does, each element in its place |
| StableStringify.StringifyOk | src/stable_stringify.js:5-49 | a value encodes exactly when it contains no non-finite number and no illegal kind outside an object member |
| StableStringify.ItemsOk | src/stable_stringify.js:29-31 | the same for an array's items |
| StableStringify.ObjectOk | src/stable_stringify.js:33-46 | an object encodes exactly when each member is undefined or encodable |
| StableStringify.MembersOk | src/stable_stringify.js:36-42 | the member loop succeeds exactly when each visited member is undefined or encodable |
| StableStringify.StringifyEquivalent | src/stable_stringify.js:34 | values that differ only in object key order encode identically |
| StableStringify.ItemsEquivalent | src/stable_stringify.js:30 | the same for arrays, position by position |
| StableStringify.ObjectEquivalent | src/stable_stringify.js:34-45 | objects with the same members in any order encode identically |
| StableStringify.MembersEquivalent | src/stable_stringify.js:36-42 | the member loop reads only the values of the visited keys |
| StableStringify.TrailingComma | src/stable_stringify.js:39-45 | an undefined last sorted key leaves a trailing comma: `{"a":1,"b":undefined}` encodes as `{"a":1,}` |
| StableStringify.TwoMembers | src/stable_stringify.js:34-45 | a defined first key and an undefined second key give the accumulator `{"k":v,`, which the patch does not touch |
| StableStringify.TwoMembersText | src/stable_stringify.js:36-42 | that member loop yields `"k":v,` |
| StableStringify.ObjectTextOf | src/stable_stringify.js:34-45 | an object's text is the patched `{` + member text, then `}` |
| StableStringify.NestedTrailingComma | src/stable_stringify.js:39-45 | the trailing comma also survives inside a nested object |
| StableStringify.OneMember | src/stable_stringify.js:34-45 | a one-member object encodes as `{"k":v}` |
| StableStringify.PatchComma | src/stable_stringify.js:44 | the patch removes a `,` right before a final `}` |
| StableStringify.PatchOnlyBrace | src/stable_stringify.js:44 | text that does not end in `}` is left alone by the patch |
| CanonicalJson.NormalizeNumber | dist/lib/canonical_json.js:5-10 | finite numbers pass with `-0` turned into `0`, and non-finite numbers throw |
| CanonicalJson.Scalars | dist/lib/canonical_json.js:12-28 | `null`, strings and booleans are unchanged; `-0` becomes `0`; non-finite numbers, `undefined`, functions, symbols, BigInt and non-plain objects throw |
| CanonicalJson.ItemsMapped | dist/lib/canonical_json.js:19 | arrays are canonicalised element-wise, keeping length and order |
| CanonicalJson.MembersRebuilt | dist/lib/canonical_json.js:21-26 | the rebuilt object has exactly the given keys in that order, each holding its canonical value |
| CanonicalJson.CanonicalizeCanonical | dist/lib/canonical_json.js:12-29 | the result is in canonical form: strictly sorted keys, integer numbers, no illegal kinds |
| CanonicalJson.ObjectCanonical | dist/lib/canonical_json.js:21-26 | a plain object canonicalises to one with strictly sorted keys |
| CanonicalJson.UniqueSortedKeys | dist/lib/canonical_json.js:23 | sorting distinct keys keeps them distinct |
| CanonicalJson.CanonicalFixpoint | dist/lib/canonical_json.js:12-29 | a value already in canonical form canonicalises to itself |
| CanonicalJson.ItemsFixpoint | dist/lib/canonical_json.js:19 | the same for arrays |
| CanonicalJson.MembersFixpoint | dist/lib/canonical_json.js:21-26 | the same for the members of a sorted object |
| CanonicalJson.MemberAt | dist/lib/canonical_json.js:24 | in a sorted object each key reads its own member |
| CanonicalJson.MembersStep | dist/lib/canonical_json.js:24 | one loop turn adds the key with its canonical value in front of the rest |
| CanonicalJson.MembersStepOk | dist/lib/canonical_json.js:24 | a successful rebuild reads every key and canonicalises its value |
| CanonicalJson.ObjectStep | dist/lib/canonical_json.js:21-26 | objects with the same sorted keys and the same rebuilt members canonicalise identically |
| CanonicalJson.SortedKeysUnique | dist/lib/canonical_json.js:23 | strictly sorted keys are distinct |
| CanonicalJson.Idempotent | dist/lib/canonical_json.js:12-29 | canonicalising twice is canonicalising once |
| CanonicalJson.CanonicalizeEquivalent | dist/lib/canonical_json.js:21-26 | values equal up to key order canonicalise identically |
| CanonicalJson.ItemsEquivalent | dist/lib/canonical_json.js:19 | the same for arrays, position by position |
| CanonicalJson.ObjectEquivalent | dist/lib/canonical_json.js:21-26 | objects with the same members in any order canonicalise identically |
| CanonicalJson.SameKeys | dist/lib/canonical_json.js:23-24 | objects with the same multiset of keys have the same keys present |
| CanonicalJson.KeyPresent | dist/lib/canonical_json.js:24 | a key reads a member exactly when it is among the object's keys |
| CanonicalJson.MembersEquivalent | dist/lib/canonical_json.js:24 | the rebuild reads only the values of the given keys |
| CanonicalJson.CanonicalText | dist/lib/canonical_json.js:31-33 | values equal up to key order have the same canonical text, and a successful result is always text |
| CanonicalJson.CanonicalizeKind | dist/lib/canonical_json.js:12-29 | a canonical result is never `undefined`, a function or a symbol |
| SymbolTableV1.CallEntries | src/abi_v1.js:33-61 | the calls table has one entry per declared call, in order |
| SymbolTableV1.CallSymbolNames | src/abi_v1.js:33-61 | the declared calls are, in order, the names of `ALLOWED_CALLS` |
| SymbolTableV1.CallSymbolArity | src/abi_v1.js:33-61 | each declared `arity_min`/`arity_max` equals the bounds `emitCall` checks |
| SymbolTableV1.EntryBounds | src/abi_v1.js:33-61 | each entry's `arity_min` and `arity_max` properties hold the declared bounds |
| SymbolTableV1.DeclaredArityIsEmitterArity | src/abi_v1.js:33-61 | the arity the table declares for any name is the arity the emitter enforces |
| SymbolTableV1.FlatEncodable | src/abi_v1.js:20-62 | an object of string and integer properties always encodes |
| SymbolTableV1.EntriesEncodable | src/abi_v1.js:33-61 | every calls-table entry encodes |
| SymbolTableV1.EntriesUnique | src/abi_v1.js:33-61 | the calls table has distinct keys |
| SymbolTableV1.SymbolTableEncodable | src/abi_v1.js:20-62 | `SYMBOL_TABLE_V1` encodes, so its hash always exists |
| AbiV1.SortedCopy | src/abi_v1.js:82-83 | the sorted copy of a list is an array |
| AbiV1.Envelope | src/abi_v1.js:93-104 | a computed envelope is an object |
| AbiV1.EnvelopeKeysUnique | src/abi_v1.js:98-103 | the envelope's keys are distinct |
| AbiV1.EnvelopeKeysOf | src/abi_v1.js:98-103 | the envelope holds the four `SCXQ2_ES_ABI_V1` constants followed by the three hashes |
| AbiV1.SymbolsHashField | src/abi_v1.js:100 | the envelope's `symbols_hash` is the given symbols hash |
| AbiV1.PolicyHashField | src/abi_v1.js:101 | the envelope's `policy_hash` is the given policy hash |
| AbiV1.AstHashField | src/abi_v1.js:102 | the envelope's `ast_hash` is the given tree hash |
| AbiV1.EnvelopeShape | src/abi_v1.js:93-104 | the envelope exists exactly when the policy and tree hash, and then holds exactly the constants plus the three hashes |
| AbiV1.AllowedCallsDistinct | src/policy_v1.js:39-52 | `ALLOWED_CALLS` has no duplicates |
| AbiV1.SortedAllowedCallsOrdered | src/abi_v1.js:73 | the sorted call list is in ascending order |
| AbiV1.SortedAllowedCallsAreAllowed | src/abi_v1.js:73 | the sorted call list has the same elements as `ALLOWED_CALLS`, without duplicates |
| AbiV1.SortedAllowedCallsOf | src/abi_v1.js:73 | every duplicate-free enumeration of `ALLOWED_CALLS` sorts to the same list, so the symbols hash does not depend on iteration order |
| AbiV1.BindingEncodable | src/abi_v1.js:71-74 | the symbol-table binding always encodes |
| AbiV1.SymbolsHashDefined | src/abi_v1.js:69-76 | the symbol-table hash always exists |
| AbiV1.NormalizedStringPolicy | src/abi_v1.js:80-84 | a policy of string lists normalises to sorted copies of those lists |
| AbiV1.SortedCopyStrings | src/abi_v1.js:82-83 | a string list's sorted copy is the sorted list |
| AbiV1.PolicyHashPermutation | src/abi_v1.js:78-86 | the policy hash does not change when `fields` or `params` are permuted |
| AbiV1.PolicyHashOfStrings | src/abi_v1.js:78-86 | a policy of string lists always has a hash |
| AbiV1.PolicyProps | src/abi_v1.js:80-84 | the policy object holds its `maxDepth`, `fields` and `params` |
| AbiV1.PolicyHashDefaultDepth | src/abi_v1.js:81 | a missing `maxDepth` hashes as 32 |
| AbiV1.NormalizedPolicyParts | src/abi_v1.js:80-84 | the normalised policy is `maxDepth ?? 32` with sorted copies of `fields ?? []` and `params ?? []` |
| AbiV1.SortedCopyOrdered | src/abi_v1.js:82-83 | a sorted copy is a permutation of the list with defined values in order and undefined ones last |
| AbiV1.AstHashEquivalent | src/abi_v1.js:88-91 | trees equal up to key order have the same hash |
| AbiV1.EnvelopeDeterministic | src/abi_v1.js:93-108 | equal trees up to key order and permuted allowlists give the same envelope |
| AbiV1.EnvelopeCongruent | src/abi_v1.js:93-104 | the envelope depends on the tree and policy only through their hashes |
| AbiV1.ObjectEncodable | src/stable_stringify.js:33-46 | an object with distinct keys whose values are undefined or encodable encodes |
| AbiV1.AstKeysUnique | src/lower_painless_v1.js:29-144 | every tree node's object form has distinct keys |
| AbiV1.AstEncodable | src/abi_v1.js:88-91 | every syntax tree encodes, so its hash always exists |
| AbiV1.UnaryEncodable | src/lower_painless_v1.js:90 | a `unary` object with an encodable operand encodes |
| AbiV1.BinEncodable | src/lower_painless_v1.js:38 | a `bin` object with encodable operands encodes |
| AbiV1.TernaryEncodable | src/lower_painless_v1.js:29 | a `ternary` object with encodable parts encodes |
| AbiV1.CoalesceEncodable | src/lower_painless_v1.js:101 | a `coalesce` object with encodable operands encodes |
| AbiV1.CallEncodable | src/lower_painless_v1.js:129 | a `call` object with encodable arguments encodes |
| AbiV1.ArgsEncodable | src/lower_painless_v1.js:120-129 | every argument of a call encodes |
| AbiV1.AstHashDefined | src/abi_v1.js:88-91 | the tree hash always exists |
| AbiV1.AbiHashDefined | src/abi_v1.js:106-108 | a computed envelope always has a hash |
| AbiV1.EnvelopeEncodable | src/abi_v1.js:98-103 | an envelope of hash strings always encodes |
| AbiMatrix.CanonHash | src/lib/hash.js:8-10 | hashing succeeds exactly when canonical JSON does, and is the hash of that text |
| AbiMatrix.PolicyValue | src/abi.js:35-51 | the normalised policy object has its twelve properties |
| AbiMatrix.ArrayCopy | src/abi.js:46-50 | `Array.isArray(x) ? [...x] : []` |
| AbiMatrix.NormalizePolicyV1 | src/abi.js:32-65 | a missing policy or a version other than 1 throws; a normalised `max_depth` is in [1, 4096] |
| AbiMatrix.BlockValues | src/abi.js:91 | the blocks' object forms, one per block |
| AbiMatrix.ProgramValue | src/abi.js:80-94 | the normalised program is an object |
| AbiMatrix.BlockError | src/abi.js:86-90 | a block is accepted exactly when it is an object with a non-empty string `op` and an own `args` that is a non-null, non-array object |
| AbiMatrix.NormalizeBlocks | src/abi.js:85-92 | blocks normalise exactly when each is accepted, keeping count, order, `op` and `args`; otherwise the first bad block's error is thrown |
| AbiMatrix.NormalizeProgramV1 | src/abi.js:71-97 | a missing pack or a wrong `format` throws |
| AbiMatrix.SpreadItems | src/abi.js:123 | spreading an array gives its items |
| AbiMatrix.MatrixEnvelopeOf | src/abi.js:136-150 | the envelope object has eleven properties |
| AbiMatrix.TargetOrDefault | src/abi.js:135 | a given target is kept |
| AbiMatrix.MatrixEnvelope | src/abi.js:135-153 | a computed envelope is an object |
| AbiMatrix.PolicyDepth | src/abi.js:37-62 | normalisation succeeds exactly when the version is 1, the parts are valid and `Number(max_depth ?? 64)` is an integer in [1, 4096]; an out-of-range depth throws "out of bounds" |
| AbiMatrix.DefaultDepth | src/abi.js:37 | a missing `max_depth` normalises to 64 |
| AbiMatrix.SwitchesCoerced | src/abi.js:39-44 | each capability switch is the truthiness of its input, so a missing one is false |
| AbiMatrix.SortedCopy | src/abi.js:46-57 | a sorted allowlist is a permutation of the input array, or empty for a non-array, in default sort order |
| AbiMatrix.NormalizedLists | src/abi.js:46-57 | the four allowlists are sorted copies of the input arrays |
| AbiMatrix.AllowlistsSorted | src/abi.js:46-57 | each of the four allowlists is a sorted copy of its input |
| AbiMatrix.PolicyValueProps | src/abi.js:35-51 | the policy object's properties are the normalised values |
| AbiMatrix.NormalizePolicyIdempotent | src/abi.js:32-65 | normalising an already normalised policy returns it unchanged |
| AbiMatrix.PolicyValueNormal | src/abi.js:32-65 | a normalised policy's object form normalises back to itself |
| AbiMatrix.DepthRoundTrip | src/abi.js:37 | an integer depth in range converts back to itself |
| AbiMatrix.NormalizesTo | src/abi.js:32-65 | an input whose parts match a normalised policy normalises to it |
| AbiMatrix.ProgramShapeErrors | src/abi.js:73-75 | a missing program and non-array blocks throw their own messages |
| AbiMatrix.ProgramKept | src/abi.js:80-96 | a normalised program keeps block count, order, `op` and `args`, and stringifies `name` and `entry` |
| AbiMatrix.BlockValueProps | src/abi.js:91 | a block object holds its `op` and its own `args` |
| AbiMatrix.ProgramValueProps | src/abi.js:80-94 | the program object holds its format, name, entry and blocks |
| AbiMatrix.NormalizeProgramIdempotent | src/abi.js:71-97 | normalising an already normalised program returns it unchanged |
| AbiMatrix.BlocksBack | src/abi.js:85-92 | normalising the object forms of valid blocks gives the blocks back |
| AbiMatrix.StringFailure | src/abi.js:123 | `String(x)` fails only on a symbol |
| AbiMatrix.ItemsFailure | src/abi.js:123 | joining array items fails only on a symbol |
| AbiMatrix.StringsOfFailure | src/abi.js:123 | `map(String)` fails only on a symbol |
| AbiMatrix.CapabilitiesPermutation | src/abi.js:122-125 | the capabilities hash does not change when the plugin list is permuted |
| AbiMatrix.EnvelopeProps | src/abi.js:136-150 | the envelope's properties are the constants, the target and the six hashes |
| AbiMatrix.EnvelopeFields | src/abi.js:135-153 | the envelope has `abi` `"matrix"`, `abi_version` 1, `surface` `"matrix.v1"`, `timestamp` 0, `target` defaulting to `"host_agnostic"`, and each hash of its part |
| AbiMatrix.FixedHashesShared | src/abi.js:142-146 | the symbols, transpiler and IO-schema hashes are the same for every input |
| AbiVerifyV1.Raise | src/abi_verify_v1.js:34-53 | an error message with interpolated values is the intended error unless interpolating one of them throws |
| AbiVerifyV1.VectorOptions | src/abi_verify_v1.js:81 | the compile options of a vector always ask for the ABI |
| AbiVerifyV1.AllPass | src/abi_verify_v1.js:80-107 | checking every vector succeeds exactly when each vector passes |
| AbiVerifyV1.FirstFailure | src/abi_verify_v1.js:80-105 | the first failing vector, in order, decides the error |
| AbiVerifyV1.GoldenHeaderOk | src/abi_verify_v1.js:69-78 | the golden header passes exactly when it is an object of the right format with a `vectors` array and the current symbols hash |
| AbiVerifyV1.ObjectTest | src/abi_verify_v1.js:16 | `!x \|\| typeof x !== "object"` is exactly "not an object" |
| AbiVerifyV1.HeaderFirst | src/abi_verify_v1.js:69-78 | a bad header fails before any vector is looked at |
| AbiVerifyV1.GoldenPasses | src/abi_verify_v1.js:68-108 | the golden check returns true exactly when every vector passes |
| AbiVerifyV1.GoldenFirstFailure | src/abi_verify_v1.js:80-105 | the golden check fails with the first failing vector's error |
| AbiVerifyV1.CompareVectorSound | src/abi_verify_v1.js:87-104 | a passing vector has the expected painless text, hash and envelope JSON |
| AbiVerifyV1.CompareResultSound | src/abi_verify_v1.js:87-104 | the same, read on a compiled result |
| AbiVerifyV1.VerifiedHasAbi | src/abi_verify_v1.js:18 | a result that verifies carries an ABI |
| AbiVerifyV1.VectorSound | src/abi_verify_v1.js:80-104 | a passing vector compiles, verifies, and matches its expected painless, hash and envelope |
| AbiVerifyV1.CompareRecorded | src/abi_verify_v1.js:87-104 | a vector recorded from a result compares equal to it |
| AbiVerifyV1.RecordedOptions | src/abi_verify_v1.js:81 | a recorded vector's options are its own plus `includeAbi: true` |
| AbiVerifyV1.VectorReachesCompare | src/abi_verify_v1.js:80-104 | once compilation and ABI verification pass, the vector's outcome is the comparison |
| AbiVerifyV1.CompiledEnvelopeJson | src/abi_verify_v1.js:100 | a compiled envelope always has JSON text |
| AbiVerifyV1.RecordedVectorPasses | src/abi_verify_v1.js:80-104 | a vector recorded from the compiler's own output passes |
| AbiVerifyV1.RecordedVerifies | src/abi_verify_v1.js:84 | a recorded vector's result verifies |
| AbiVerifyV1.RecordedCompares | src/abi_verify_v1.js:87-104 | a recorded vector's comparison passes |
| AbiVerifyV1.RecordedGoldenPasses | src/abi_verify_v1.js:68-108 | a golden file recorded with the current symbols hash and passing vectors verifies |
| AbiVerifyV1.RecordedHeader | src/abi_verify_v1.js:69-78 | a recorded golden file's header passes |
| AbiVerifyV1.FlatMembersJson | src/abi_verify_v1.js:38-39 | an object of strings and integers has JSON text |
| AbiVerifyV1.FlatObjectJson | src/abi_verify_v1.js:38-39 | the same for the object itself |
| AbiVerifyV1.EnvelopeJson | src/abi_verify_v1.js:39 | an envelope always has JSON text |
| AbiVerifyV1.StrictEqStr | src/abi_verify_v1.js:46-52 | `=== "s"` holds exactly for that string |
| AbiVerifyV1.PartHashesSound | src/abi_verify_v1.js:44-54 | passing the extra guards means the envelope's policy and symbols hashes are the recomputed ones |
| AbiVerifyV1.CompareAbiSound | src/abi_verify_v1.js:33-54 | passing the comparisons means the hash equals the recomputed one, the envelope JSON matches, and both part hashes match |
| AbiVerifyV1.RecomputeSound | src/abi_verify_v1.js:26-54 | passing means the result matches the envelope and hash recomputed from the tree and policy |
| AbiVerifyV1.VerifyAbiSound | src/abi_verify_v1.js:15-56 | a verified result is an object with a tree, an envelope and a hash, and matches the recomputation |
| AbiVerifyV1.PartHashesOfOwn | src/abi_verify_v1.js:44-54 | a freshly built envelope passes the extra guards |
| AbiVerifyV1.EnvelopeOfOwn | src/abi_verify_v1.js:37-42 | an envelope compared with itself passes the JSON check |
| AbiVerifyV1.CompareOwnAbi | src/abi_verify_v1.js:33-54 | a freshly built envelope and hash pass every comparison |
| AbiVerifyV1.ResultProps | src/lower_painless_v1.js:276-295 | the result object holds its painless text and tree, and no `abi` when there is none |
| AbiVerifyV1.ResultAbiProp | src/lower_painless_v1.js:291-294 | the result's `abi` is the `{ envelope, hash }` object |
| AbiVerifyV1.AbiProps | src/lower_painless_v1.js:291-294 | the `abi` object holds the envelope and the hash |
| AbiVerifyV1.RecomputeOwn | src/abi_verify_v1.js:26-56 | an `abi` holding the recomputed envelope and hash verifies |
| AbiVerifyV1.VerifyReachesRecompute | src/abi_verify_v1.js:15-26 | once the presence checks pass, the outcome is the recomputation under `maxDepth ?? 32`, `fields ?? []` and `params ?? []` |
| AbiVerifyV1.VerifyResultObject | src/abi_verify_v1.js:15-56 | a well-formed result object verifies exactly when its envelope and hash are the recomputed ones |
| AbiVerifyV1.VerifyBuilt | src/abi_verify_v1.js:15-56 | a result built from the recomputed envelope and hash verifies |
| AbiVerifyV1.VerifyOwnResult | src/abi_verify_v1.js:15-56 | a compiled result with its ABI verifies under the options it was compiled with |
| AbiVerifyV1.VerifyCompiled | src/abi_verify_v1.js:15-56 | round trip: `verifyAbiResult(compilePainless(s, opts), opts)` returns true whenever compilation produced an ABI |
| AbiVerifyV1.VerifyEnforced | src/abi_verify_v1.js:15-56 | a result that passed the policy and carries its ABI verifies |
| AbiVerifyV1.RecomputeForgedHash | src/abi_verify_v1.js:33-35 | a wrong hash fails with the hash mismatch naming the expected hash |
| AbiVerifyV1.ForgedHashRejected | src/abi_verify_v1.js:33-35 | a result with a forged hash fails with the hash mismatch, whatever its envelope, so the hash is checked before the envelope |
| AbiVerifyV1.RecomputeForgedEnvelope | src/abi_verify_v1.js:37-42 | the right hash with a different envelope JSON fails with the envelope mismatch |
| AbiVerifyV1.EnvelopeTextsDiffer | src/abi_verify_v1.js:38-41 | different envelope JSON texts fail with the envelope mismatch |
| AbiVerifyV1.BuiltEnvelopeJson | src/abi_verify_v1.js:39 | a recomputed envelope always has JSON text |
| AbiVerifyV1.ForgedEnvelopeRejected | src/abi_verify_v1.js:37-42 | a result with the right hash and a different envelope fails with the envelope mismatch |
| AbiVerifyV1.VerifyReadsOnly | src/abi_verify_v1.js:20-24 | verification reads only `maxDepth`, `fields` and `params` from its options |
| MatrixVerify.PluginsOrDefault | src/verify.js:8 | a given plugin list is kept |
| MatrixVerify.FirstDenied | src/verify.js:30-36 | the first block, in program order, whose op is not an allowed route, or none exactly when every op is allowed |
| MatrixVerify.AdmitProgram | src/verify.js:27-38 | the admission loop returns the admission outcome |
| MatrixVerify.FirstDeniedAt | src/verify.js:30-36 | a block that is the first denied one is the one found |
| MatrixVerify.Fail | src/verify.js:78-97 | a vector failure is always an error |
| MatrixVerify.SameJson | src/verify.js:80-96 | the comparison passes exactly when both sides have the same JSON text |
| MatrixVerify.VerifyVector | src/verify.js:53-101 | checking one vector returns the specified outcome, running the VM against a fresh seeded plugin |
| MatrixVerify.VerifyVectorSet | src/verify.js:49-104 | the conformance runner returns the specified outcome |
| MatrixVerify.CheckVectors | src/verify.js:53-101 | the vector loop stops at the first failing vector and otherwise returns true |
| MatrixVerify.AbiMismatchIff | src/verify.js:15-19 | `verifyAbi` throws `ABI_MISMATCH` exactly when an expected hash is given and differs, and otherwise returns the computed ABI |
| MatrixVerify.AbiOwnHash | src/verify.js:8-22 | with no expected hash the result's hash is the envelope's own hash |
| MatrixVerify.AbiReturnsNorms | src/verify.js:9-21 | `verifyAbi` returns exactly the normalised policy and program it hashed |
| MatrixVerify.ComputedParts | src/verify.js:9-13 | the envelope is built from the normalised policy and program, the given plugins and target `"host_agnostic"` |
| MatrixVerify.AdmissionIff | src/verify.js:27-38 | admission succeeds exactly when every block's op is an allowed route |
| MatrixVerify.AdmissionDeniesFirst | src/verify.js:30-36 | a failing admission throws `POLICY_DENY` for the first denied block in program order |
| MatrixVerify.AdmissionRouteOrder | src/verify.js:27-38 | admission does not depend on the order of the allowed routes |
| MatrixVerify.ReplyIgnoredUnlessExpected | src/verify.js:76-83 | the reply is compared only when one is expected |
| MatrixVerify.ExpectationsIff | src/verify.js:76-101 | the expectations pass exactly when the expected reply input, the emits and the writes match as JSON and the computed ABI hash is non-empty |
| MatrixVerify.VectorSetShape | src/verify.js:50-51 | a wrong format and a missing `vectors` array throw their own messages |
| MatrixVerify.VectorSetAll | src/verify.js:53-104 | the runner returns true exactly when every vector passes, and otherwise fails with the first failing vector's error |
| MatrixVerify.AdmissionBeforeRun | src/verify.js:61-73 | a denied program fails with the admission error before the VM runs |
| Vm.Body | src/vm.js:38-44 | the body is `last` when `body_from === "last"`, else `args.body`, else `{}` |
| Vm.EventRecord | src/vm.js:39-45 | an event record holds the event, `v` 1 and the body |
| Vm.Exec | src/vm.js:19-50 | one block changes the plugin and the context as the step function says |
| Vm.RunProgram | src/vm.js:8-54 | the block loop leaves the plugin in the specified state and returns the specified result |
| Vm.RunLast | src/vm.js:18 | running the blocks is running all but the last, then the last unless an error stopped the run |
| Vm.RunPrefix | src/vm.js:18 | block `i` runs from where the blocks before it left off, unless they threw |
| Vm.RunStopped | src/vm.js:18-50 | once a block has thrown, the rest of the blocks change nothing |
| Vm.RunAppend | src/vm.js:18 | blocks run strictly in order: running `a + b` is running `a`, then `b` from where `a` left off |
| Vm.CountOp | src/vm.js:18 | a count of blocks with one op is at most the number of blocks |
| Vm.EmitsCount | src/vm.js:42-46 | a successful run appends one record with `v` 1 per `event.emit` block, after the emits that were there before |
| Vm.ReplyShape | src/vm.js:35-40 | after a successful run the reply is unchanged when there was no `event.reply` block, and otherwise is a record with a truthy event and `v` 1 |
| Vm.ReplyNull | src/vm.js:8-54 | on success `reply` is null exactly when there was no `event.reply` block, and `emits` has one entry per `event.emit` block |
| Vm.OnlyIdbTouchesLast | src/vm.js:20-47 | blocks that are not IDB ops change neither `last` nor the plugin |
| Vm.StepDisabled | src/vm.js:20-34 | with `allow_idb` false an IDB op throws `IDB_DISABLED` before calling the plugin, and no block changes the plugin |
| Vm.IdbDisabledKeepsState | src/vm.js:20-34 | with `allow_idb` false the plugin is never touched |
| Vm.IdbDisabledFails | src/vm.js:20-34 | with `allow_idb` false any program containing an IDB op fails |
| Vm.StepUnknown | src/vm.js:48-49 | an unknown op throws `UNSUPPORTED_OP` and changes nothing |
| Vm.UnknownOpFails | src/vm.js:48-49 | any program containing an unknown op fails, so no result is returned |
| IdbMemory.StoreKeyOf | dist/plugins/idb_memory.js:22 | a store name is a string or symbol key, and only an array whose items cannot be stringified fails |
| IdbMemory.Ensured | dist/plugins/idb_memory.js:21-24 | `ensure` leaves the store present, holding its rows or an empty list |
| IdbMemory.EnsuredOthers | dist/plugins/idb_memory.js:21-24 | `ensure` leaves every other store as it was |
| IdbMemory.SeedEntries | dist/plugins/idb_memory.js:13-17 | a `null` seed throws, and an object seed gives its entries |
| IdbMemory.SeedRows | dist/plugins/idb_memory.js:18 | an array seed gives one row per item |
| IdbMemory.MemoryIdb.constructor | dist/plugins/idb_memory.js:13-19 | a new plugin holds the seeded stores and no writes |
| IdbMemory.MemoryIdb.Ensure | dist/plugins/idb_memory.js:21-24 | `ensure` creates a missing store, returns its rows, and never touches the write log |
| IdbMemory.MemoryIdb.Get | dist/plugins/idb_memory.js:36-39 | `get` changes the plugin and answers as the specification says |
| IdbMemory.MemoryIdb.Put | dist/plugins/idb_memory.js:41-48 | `put` changes the plugin and answers as the specification says |
| IdbMemory.MemoryIdb.Query | dist/plugins/idb_memory.js:50-56 | `query` changes the plugin and answers as the specification says |
| IdbMemory.FindRow | dist/plugins/idb_memory.js:38 | `find` returns the first row whose `id` is `===` the key, or none exactly when no row matches |
| IdbMemory.FindFirst | dist/plugins/idb_memory.js:38 | the search loop returns the first match |
| IdbMemory.FindRowFirst | dist/plugins/idb_memory.js:38 | the first matching row is the one found |
| IdbMemory.FindValue | dist/plugins/idb_memory.js:38 | the search returns the found row, or `null` |
| IdbMemory.GetReads | dist/plugins/idb_memory.js:36-39 | `get` on an ensured store returns the found row and only creates the store |
| IdbMemory.WriteEntry | dist/plugins/idb_memory.js:46 | a write entry is an object |
| IdbMemory.PutStores | dist/plugins/idb_memory.js:41-48 | `put` appends the new row to its store and one entry to the write log, and returns the row |
| IdbMemory.FieldItems | dist/plugins/idb_memory.js:26-28 | the fields to project are an array's items, and only a non-iterable throws |
| IdbMemory.Project | dist/plugins/idb_memory.js:26-31 | the projection loop returns the specified projection |
| IdbMemory.ProjectLoop | dist/plugins/idb_memory.js:28-30 | the field loop returns the specified projection of the listed fields, stopping at the first field that cannot be named |
| IdbMemory.ProjectFieldsStep | dist/plugins/idb_memory.js:28-30 | one loop turn skips a symbol field, throws on a field that cannot be named, and otherwise copies `row[f]` into `out[f]` |
| IdbMemory.ProjectAll | dist/plugins/idb_memory.js:54 | projecting every row stops at the first failing row |
| IdbMemory.RunQuery | dist/plugins/idb_memory.js:51-55 | the query loop returns the specified rows |
| IdbMemory.RowsObject | dist/plugins/idb_memory.js:55 | the answer is an object |
| IdbMemory.QueryLimit | dist/plugins/idb_memory.js:53 | a missing `LIMIT` is the number of rows |
| IdbMemory.QueryFields | dist/plugins/idb_memory.js:52 | missing `SELECT.fields` is the empty list |
| IdbMemory.SeedLastWins | dist/plugins/idb_memory.js:17-19 | a seed entry not repeated later gives its store its shallow-copied rows |
| IdbMemory.SeedKeys | dist/plugins/idb_memory.js:17-19 | the seeded stores are exactly the seed's keys |
| IdbMemory.SeedRowsCopy | dist/plugins/idb_memory.js:18 | each seeded row is a copy of the seed object's properties |
| IdbMemory.PutFails | dist/plugins/idb_memory.js:41-48 | `put` fails exactly when the store name is bad or the store is inherited, and then changes nothing |
| IdbMemory.PutAppends | dist/plugins/idb_memory.js:41-48 | `put` appends exactly one row to its store and one entry to `_writes`, and leaves every other store unchanged |
| IdbMemory.PutId | dist/plugins/idb_memory.js:43-44 | the stored row keeps a truthy `id`, or gets `String(rows.length + 1)`; its other properties are the value's |
| IdbMemory.NewRowId | dist/plugins/idb_memory.js:43-44 | the new row's `id` is always truthy, and every other property is copied |
| IdbMemory.GetFails | dist/plugins/idb_memory.js:36-39 | `get` fails exactly when the store name is bad or the store is inherited |
| IdbMemory.GetFirst | dist/plugins/idb_memory.js:36-39 | `get` returns the first row whose `id` is `===` the key, or `null` when none is |
| IdbMemory.ReadsKeepRows | dist/plugins/idb_memory.js:36-56 | `get` and `query` never change stored rows or the write log |
| IdbMemory.PutThenGet | dist/plugins/idb_memory.js:36-48 | reading back a stored row's `id` finds a row with that `id` and changes nothing |
| IdbMemory.QueryInherited | dist/plugins/idb_memory.js:50-51 | a query on an inherited store name fails and changes nothing |
| IdbMemory.QueryPrefix | dist/plugins/idb_memory.js:50-56 | `query` returns at most `LIMIT` rows, a projected prefix of the store in order, and all rows when `LIMIT` is missing |
| IdbMemory.QueryAll | dist/plugins/idb_memory.js:50-56 | with no fields and no limit, `query` returns copies of every row |
| IdbMemory.ProjectFieldsKeys | dist/plugins/idb_memory.js:29-30 | projection sets exactly each listed field to the row's value and leaves other keys alone |
| IdbMemory.ProjectNames | dist/plugins/idb_memory.js:26-31 | projection with a non-empty field list yields exactly the listed fields with the row's values |
| IdbMemory.ProjectFieldsOrder | dist/plugins/idb_memory.js:28-29 | assigning the fields into a fresh `{}` leaves array-index keys first in ascending order and the other fields after them in field-list order |
| IdbMemory.ProjectOrder | dist/plugins/idb_memory.js:26-31 | a projected row keeps an ordinary object's property order |
| IdbMemory.ProjectIndexFirst | dist/plugins/idb_memory.js:28-29 | selecting `["name", "1"]` gives `{"1": row["1"], "name": row["name"]}`, index key first |
| IdbMemory.IndexBeforeName | dist/plugins/idb_memory.js:29 | a new index key goes in front of a lone non-index key |
| KuhulAdapter.CheckTarget | src/kuhul_adapter.js:10-50 | the target is accepted exactly when its string form names a property of the targets table; an unknown name throws naming it |
| KuhulAdapter.Candidates | src/kuhul_adapter.js:27-37 | there are five candidate source fields |
| KuhulAdapter.FirstString | src/kuhul_adapter.js:27-39 | the first string among the candidates, or none exactly when none is a string |
| KuhulAdapter.ExtractSource | src/kuhul_adapter.js:18-40 | a string input is its own source, a non-object input throws, and the only errors are those two messages |
| KuhulAdapter.ExtractSourcePriority | src/kuhul_adapter.js:27-39 | an object's source is the first string among `source`, `scxq2`, `@scxq2`, `script.source` and `body`, and it throws when there is none |
| KuhulAdapter.FirstOfFive | src/kuhul_adapter.js:27-37 | the priority order spelled out for five candidates |
| KuhulAdapter.SourceFieldFirst | src/kuhul_adapter.js:27 | a string `source` field wins over every other field |
| KuhulAdapter.ScriptSourceUsed | src/kuhul_adapter.js:34 | `script.source` is used when it is the first string candidate |
| KuhulAdapter.UnknownTargetFirst | src/kuhul_adapter.js:48-52 | an unknown target throws before the input or the options are looked at |
| KuhulAdapter.TargetExamples | src/kuhul_adapter.js:49 | `es_painless` is known, an inherited name such as `toString` is accepted too, and `es` is unknown |
| KuhulAdapter.AdapterIsCompiler | src/kuhul_adapter.js:48-61 | with a known target, routing succeeds exactly when a source is found and compiles, and returns that compilation's painless, tree and ABI under the given target |
| KuhulAdapter.RoutedValue | src/kuhul_adapter.js:54-59 | the routed result is an object |
| KuhulAdapter.AbiNullIff | src/kuhul_adapter.js:58 | the result's `abi` is null exactly when compilation produced none |
| KuhulAdapter.DescriptorMatchesIdentity | src/kuhul_adapter.js:10-16 | the target descriptor agrees with the expression profile's ABI identity |
| JsValue.Keys | src/stable_stringify.js:34 | `Object.keys` lists each own property's key in order |
| JsValue.Lookup | src/stable_stringify.js:38 | a key reads a value exactly when some member has that key |
| JsValue.LookupFirst | src/stable_stringify.js:38 | a key reads its first member |
| JsValue.PropAt | src/stable_stringify.js:38 | a property read returns the first member with that key |
| JsValue.LookupMember | src/stable_stringify.js:38 | with distinct keys each member is read by its key |
| JsValue.NullishOr | src/abi_v1.js:81 | `x ?? d` is `x` unless `x` is nullish |
| JsValue.PropOf | src/policy_v1.js:1-4 | reading a property of `null` or `undefined` throws; otherwise it is the property |
| JsValue.SetHasString | src/policy_v1.js:14 | a string is in a set exactly when it is one of the elements |
| JsValue.Entries | dist/plugins/idb_memory.js:17 | the entries of an object are its members |
| JsValue.SpreadCopy | dist/plugins/idb_memory.js:43 | `{ ...x }` copies an object's own members |
| JsValue.SetField | dist/plugins/idb_memory.js:29 | assigning a property sets that key and keeps every other key; an existing key keeps its place, a new key adds exactly one member, and a new key that is not an array index goes last |
| JsValue.SetFieldFront | dist/plugins/idb_memory.js:29 | a new index key placed in front sets that key and keeps the others |
| JsValue.SetFieldOrder | dist/plugins/idb_memory.js:29 | assignment keeps an ordinary object's property order: array-index keys first and ascending, then the others |
| JsValue.OrderSameKeys | dist/plugins/idb_memory.js:29 | overwriting a key keeps the order |
| JsValue.OrderFront | dist/plugins/idb_memory.js:29 | an index key below the first index key may go in front |
| JsValue.OrderCons | dist/plugins/idb_memory.js:29 | a member preceding every index key may go in front |
| JsValue.FirstBeforeTail | dist/plugins/idb_memory.js:29 | a member not displaced by the new key precedes every index key after it |
| JsValue.FirstBeforeLater | dist/plugins/idb_memory.js:29 | in an ordered object the first member precedes every later index key |
| JsValue.IndexValueInjective | dist/plugins/idb_memory.js:29 | two array-index keys naming the same position are the same key |
| JsValue.CanonicalDigits | dist/plugins/idb_memory.js:29 | a digit run without a leading zero is `String` of its value |
| JsValue.LeadingDigitPositive | dist/plugins/idb_memory.js:29 | a digit run with a non-zero first digit is positive |
| JsValue.SetFieldHead | dist/plugins/idb_memory.js:29 | assigning the first member's key replaces that member |
| JsValue.SetFieldTail | dist/plugins/idb_memory.js:29 | assigning a later key keeps the first member |
| JsValue.SetFieldOther | dist/plugins/idb_memory.js:44 | assigning one property leaves every other property as it was |
| JsNumber.Trim | src/abi.js:37 | trimming never lengthens the text |
| JsNumber.TrimStrips | src/abi.js:37 | the trimmed text has no leading or trailing whitespace and is a slice of the input |
| JsNumber.DigitPrefixLength | src/lower_painless_v1.js:136 | the digit prefix is the longest run of digits at the start |
| JsNumber.ToNumber | src/abi.js:37 | `Number(x)` throws only on a symbol, or an array holding one |
| JsNumber.DecimalSyntaxIff | src/lower_painless_v1.js:136 | a text reads as an unsigned decimal exactly when it has decimal syntax |
| JsNumber.RadixSyntaxIff | src/lower_painless_v1.js:136 | a text reads in a radix exactly when it is a non-empty run of that radix's digits |
| JsNumber.IsNaNStringMeaning | src/lower_painless_v1.js:136 | `isNaN(t)` holds exactly when `Number(t)` is NaN |
| JsNumber.SliceEnd | dist/plugins/idb_memory.js:54 | the end of `slice(0, limit)` is within the list |
| JsNumber.SliceEndNat | dist/plugins/idb_memory.js:54 | a natural limit takes the smaller of the limit and the length |
| JsNumber.DecimalLiteralIsNumber | src/lower_painless_v1.js:136 | `digits[.digits]` is a finite number |
| JsNumber.UnsignedDecimalIsNumber | src/lower_painless_v1.js:136 | an unsigned decimal is a finite number |
| JsJson.JsonStringify | src/verify.js:80-96 | `JSON.stringify` returns no text exactly for `undefined`, functions and symbols |
| JsSort.Insert | src/abi.js:54-57 | inserting adds one element |
| JsSort.InsertPermutes | src/abi.js:54-57 | inserting adds exactly that element |
| JsSort.InsertSorted | src/abi.js:54-57 | inserting into a sorted list keeps it sorted |
| JsSort.SortBy | src/abi.js:54-57 | sorting keeps the length |
| JsSort.SortByPermutes | src/abi.js:54-57 | sorting is a permutation |
| JsSort.SortBySorted | src/abi.js:54-57 | sorting yields a sorted list |
| JsSort.SortBySortedInput | src/abi.js:54-57 | a sorted list sorts to itself |
| JsSort.SortedStringsUnique | src/abi_v1.js:82-83 | two sorted permutations of one list of strings are equal |
| JsSort.SortStringsPermutation | src/abi_v1.js:82-83 | permuting the input does not change the sorted strings |
| JsSort.SortStringsIdempotent | src/abi_v1.js:82-83 | sorting twice is sorting once |
| JsSort.DistinctSameElements | src/abi_v1.js:73 | duplicate-free lists with the same elements are permutations of each other |
| JsSort.ChainIsSorted | src/abi_v1.js:73 | a list ordered pair by pair is sorted |
| JsSort.StringForms | src/abi.js:54-57 | the default comparator works exactly when every element can be stringified |
| JsSort.DefaultSort | src/abi.js:54-57 | the default sort succeeds exactly when there is at most one defined element or every defined element can be stringified |
| JsSort.DefaultSortResult | src/abi.js:54-57 | the default sort orders the defined elements by their string form and puts every `undefined` last |
| JsSort.DefaultSortOrdered | src/abi.js:54-57 | the default sort is a permutation with defined elements sorted first and `undefined` after |
| JsSort.DefaultSortStrings | src/abi.js:54-57 | on strings the default sort is the string sort |
| JsSort.DefaultSortIdempotent | src/abi.js:54-57 | sorting a sorted list again changes nothing |
| JsSort.SortedKeys | src/stable_stringify.js:34 | the sorted keys are the object's keys |
| JsText.NatToDecimal | dist/plugins/idb_memory.js:44 | `String(n)` for a natural is a non-empty string of digits |
| JsText.NatToDecimalRoundTrip | dist/plugins/idb_memory.js:44 | the decimal text reads back as the number |
| JsText.StrLeTotal | src/stable_stringify.js:34 | the default sort order compares any two strings |
| JsText.StrLeTrans | src/stable_stringify.js:34 | the default sort order is transitive |
| JsText.StrLeAntisym | src/stable_stringify.js:34 | the default sort order is antisymmetric |
| JsText.JsonEscapeRoundTrip | src/stable_stringify.js:18 | reading back the escaped body of a JSON string literal gives the string |
| JsText.JsonQuoteRoundTrip | src/stable_stringify.js:18 | a JSON string literal decodes to the string it encodes |
| Wrappers.MapAll | src/abi.js:85-92 | `map` with a throwing callback succeeds exactly when every call does, giving each call's result in place, and otherwise throws the first failing call's error |
| Wrappers.MapAllPermutation | src/abi.js:122-125 | mapping a permutation gives a permutation of the results |

## Left out

- Number formatting is left out. Numbers in values are integers, `-0`, `NaN` or the infinities; non-integer
  numbers and `String(n)` for them are floating point and are not modelled. Numbers read from text
  (`Number(x)`, `isNaN`) are exact rationals, with no double rounding. Syntax-tree numbers are kept
  as their source text, as the parser keeps them.
- CanonicalJson.Canonicalize: rebuilds an object with its keys in sorted string order. The source
  assigns `out[k]` in that order (dist/lib/canonical_json.js:24), and a JavaScript object lists
  array-index keys such as `"1"` first, in ascending numeric order, so `JSON.stringify` (line 32)
  writes those keys first. The canonical text and hash of an object with such keys differ from the
  source's; the proved properties (idempotence, independence from key order) hold in both orders.
  Elsewhere, `JsJson.JsonStringify` writes members in the order the object holds them, and
  `JsValue.SetField` puts a new array-index key where JavaScript does, so projected rows
  (`IdbMemory.Project`, `IdbMemory.ProjectLoop`) have the source's key order. Objects that come in
  as inputs are taken to hold their members in JavaScript's order already.
- `src/lib/canonical_json.js`, which `src/lib/hash.js` imports, is not part of this model. The hashes
  use the `dist/lib/canonical_json.js` serialiser in its place.
- String order compares code points, not UTF-16 code units. No whitespace set beyond the one
  `JsText.IsJsWhitespace` lists is modelled.
- Prototypes are not modelled. Objects are lists of own members. Inherited properties appear only
  as the names the IDB plugin and the target table would find on `Object.prototype`, symbol keys
  only as plugin store names, and `toJSON` not at all. Assigning the key `__proto__`
  (`out[f]` at dist/plugins/idb_memory.js:29, `out[k]` at dist/lib/canonical_json.js:24) changes
  the object's prototype in JavaScript and creates no own property; `JsValue.SetField` and
  `CanonicalJson.Canonicalize` add an ordinary `__proto__` member instead.
- `===` on objects is modelled as always false, because every compared object in these paths is a
  distinct reference. Object identity and aliasing are not modelled otherwise.
- SHA-256 is a parameter with no collision axiom. So "same envelope ⇒ same hash" is proved, but
  "different inputs ⇒ different hashes" is not.
- The in-place `sort()` calls (src/abi.js:54-57, src/abi_v1.js:82-83) are modelled as functions on
  values. The copies they sort are fresh, so no caller's array can change.
- `runProgramWithPlugins` is modelled with the plugin fixed to the in-memory IDB plugin, the one the
  conformance runner passes. Its `inputEvent` is kept in the context but never read, as in the
  source.
- `loadGoldenVectorsFromFile`, the command-line tools, the HTTP/servlet/shell adapters,
  `src/scxq2cc_adapter.js`, the build scripts, `tools/binary_pack.py`, the `dist` compiler stub,
  the grammar text, `src/index.js` and `src/selftest.js` do file, process or network I/O, or
  only re-export, and are not part of this model.
- Policy.Thrown: its contract states only the depth error. Denied nodes are described by
  `Policy.Report` and `Policy.NodeChecks`.
- Policy.EnforcePolicy: its own contract states only the `null` options error. What it admits is
  stated by `Policy.Defaults`, `Policy.WalkOk` and `Policy.PolicyAdmits`.
- Parser.ExprAt, Parser.LevelAt and the other grammar functions: their contracts state only how
  the cursor moves. Their results are described by the parser-property lemmas, and the parser
  class's methods are proved equal to them. Left association (`ParserProperties.LevelFold`,
  `ParserProperties.LeftAssociative`), ternary shape and right nesting
  (`ParserProperties.TernaryAt`, `ParserProperties.TernaryNestsRight`), closing brackets
  (`ParserProperties.ParenCloses`, `ParserProperties.CallCloses`) and leftover tokens
  (`ParserProperties.LeftoverTokens`) are proved for arbitrary sub-parses; the lemmas whose names
  end in `Numerals` or `Numeral` are instances on numeral tokens. Precedence is carried by
  `Parser.OperandAt`: each operand of a level is a parse of the next tighter level.
- AbiMatrix.NormalizeProgramV1: its contract states only the format error. The other errors and
  what is kept are stated by `AbiMatrix.ProgramShapeErrors`, `AbiMatrix.NormalizeBlocks` and
  `AbiMatrix.ProgramKept`.
- IdbMemory.MemoryIdb.Get, IdbMemory.MemoryIdb.Put and IdbMemory.MemoryIdb.Query are proved equal
  to specification functions. What those functions promise is stated by the `IdbMemory` lemmas
  (`GetFirst`, `PutAppends`, `PutId`, `QueryPrefix`, …).

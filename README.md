# Lun grammar in Dafny

A model of the tree-sitter grammar of the Lun language (`grammar.js`) and
proofs about it. tree-sitter turns the grammar into a generated LR parser;
this project states the same language as a deterministic lexer and parser
written as pure Dafny functions, and proves what the grammar's rules
promise.

- `tokens.dfy` (module `LunTokens`): characters, words, integer literals,
  string pieces, operators and the lexemes of `extras`, `comment`,
  `identifier`, `integer_lit`, `string_lit` and `escape_sequence`.
- `lexer.dfy` (`LunLexer`): one scanner per token rule and the
  longest-match loop over them. It is lossless: the lexemes concatenate
  back to the input text, and every lexeme is a well-formed instance of
  its rule.
- `ast.dfy` (`LunAst`): the `PREC` table, the binary-operator table, the
  syntax tree (one constructor per named rule reachable from
  `source_file`), and the shape restrictions the rules impose on trees.
- `parser.dfy` (`LunParser`): precedence climbing for expressions and
  recursive descent for blocks, statements, types and items. Each of
  tree-sitter's shift/reduce choices becomes an operator context
  `Ctx(level, right)`. Every parse function proves that it consumes input
  and that it yields a tree of the shape its rule allows.
- `printer.dfy` (`LunPrinter`): a printer from trees back to tokens. It
  also defines the trees that print with no parentheses missing
  (`Printable`).
- `layout.dfy` (`LunLayout`): where the parts of a printed tree lie in a
  token stream, and which tokens may follow a printed tree without being
  read as part of it.
- `steps.dfy` (`LunSteps`): single steps of the parser, each unfolding one
  parse function once.
- `roundtrip.dfy` (`LunRoundTrip`): the parser reads every printable
  expression, block, statement, type and definition back from its printed
  tokens and stops right after them. The proof goes by induction on the
  tree, one lemma per form.
- `soundness.dfy` (`LunSoundness`): the converse of the round trip. The
  tokens the parser accepts are the print of the tree it returns, up to
  the spellings the printer does not write (`&&` for two prefix `&`, `::`
  for `: :` after a definition's name, a trailing `,` before `)`, and a
  `;` after a with-block definition value).
- `properties.dfy` (`LunProperties`): what follows from the round trip.
  - The whole-input round trips for expressions, blocks and source files,
    and the injectivity of the printer.
  - The statement rules: a with-block statement takes no `;`, a
    without-block statement needs one, and a with-block definition value
    takes an optional one.
  - The associativity and relative precedence of every pair of operators,
    stated over arbitrary operands.
  - The reading of `field_expr` and `right_unary_expr` as grammar.js writes
    them.

## Model

| member | source | states |
|---|---|---|
| LunLexer.WordAt | grammar.js:370 | an `identifier` lexeme is a maximal run of identifier characters starting with a letter or `_` |
| LunLexer.RadixAt | grammar.js:326-334 | a `0b`/`0o`/`0x` form is chosen only when a digit of its alphabet follows the prefix |
| LunLexer.IntAt | grammar.js:326-334 | the scanned `integer_lit` is well formed (nonempty digits of its radix, optional `'tag` of identifier characters) and spells exactly the consumed text |
| LunLexer.EscapeAt | grammar.js:346-367 | an accepted escape is one of `\0nrtvabe\\`, `\x` with two hex digits, or `\u{...}` with at least one hex digit |
| LunLexer.WordExact | grammar.js:370 | the converse of `WordAt`: an identifier followed by a non-identifier character, or by the end, is read whole |
| LunLexer.IntExact | grammar.js:326-334 | the converse of `IntAt`: the text of any well-formed literal, followed by neither an identifier character nor a quote, reads back as that literal |
| LunLexer.EscapeExact | grammar.js:346-367 | reading from a backslash ends at `j` if and only if the text up to `j` is an `escape_sequence` |
| LunLexer.StrBody | grammar.js:336-344 | the pieces scanned up to the closing quote are well-formed escapes and content runs, no two runs adjacent, that spell the consumed text |
| LunLexer.StrExact | grammar.js:336-344 | the converse of `StrBody`: any well-formed list of pieces followed by the closing quote is read back as those pieces |
| LunLexer.LineCommentEnd | grammar.js:321 | a line comment stops at a newline no backslash run escapes, at the end of the text, or before a single backslash that ends the text |
| LunLexer.LineCommentLongest | grammar.js:321 | the body read is the longest text from its start that the line comment's pattern matches |
| LunLexer.BlockCommentEnd | grammar.js:323 | a block comment ends just after the first `*/`, and an unterminated one is no comment |
| LunLexer.PunctAt | grammar.js:181-231 | the operator read is one whose text starts at the position, and no longer operator text starts there; none is read only when no operator text starts there |
| LunLexer.LexemeAt | grammar.js:46-49 | each lexeme spells exactly the text it covers and is well formed for its kind |
| LunLexer.LexFrom | grammar.js:46-49 | lexing from any position is lossless, and an error names a position inside the text |
| LunLexer.Lex | grammar.js:46-49 | the lexemes concatenate back to the input, and each is well formed |
| LunAst.BinLevel | grammar.js:181-202 | every binary operator sits between `PREC.logor` and `PREC.factor` |
| LunAst.BinOpOf | grammar.js:181-202 | an infix token reads as the binary operator that prints as that token |
| LunParser.Parser.ParseExpr | grammar.js:108-231 | a parsed expression consumes tokens, has the shape its rules allow, and is a label only where labels may start |
| LunParser.Parser.ParseInfix | grammar.js:181-231 | the climbing loop keeps a well-formed left operand well formed, and never wraps a labeled expression |
| LunParser.Parser.ParseArgs | grammar.js:226 | `arguments` consume tokens and yield well-formed expressions |
| LunParser.Parser.ParsePrefix | grammar.js:139-156 | a primary or prefix expression consumes tokens and is well formed |
| LunParser.Parser.ParseSymPrefix | grammar.js:168-172 | prefix operators, parentheses and blocks yield a well-formed expression that is never a label |
| LunParser.Parser.ParseWordPrefix | grammar.js:128-179 | keyword forms, tagged strings, labels and paths yield well-formed expressions |
| LunParser.Parser.ParsePathTail | grammar.js:174-179 | a path keeps its root and extends the segments read so far |
| LunParser.Parser.ParseBreak | grammar.js:267-287 | `break_expr` with an optional `: label` and an optional operand is a well-formed `break` |
| LunParser.Parser.ParseIf | grammar.js:233-241 | `if_expr` yields an `if` whose `else` branch is another `if` or a block |
| LunParser.Parser.ParseWhile | grammar.js:243-247 | `while_expr` yields a well-formed `while` |
| LunParser.Parser.ParseFor | grammar.js:249-255 | `for_expr` yields a `for` with a well-formed iterator and body |
| LunParser.Parser.ParseLabeled | grammar.js:128-137 | `labeled_expr` wraps only a block, `while`, `for` or `loop` |
| LunParser.Parser.ParseBlock | grammar.js:306-311 | a block runs from `{` to its matching `}` and holds well-formed statements |
| LunParser.Parser.ParseStmts | grammar.js:306-316 | the statements read so far are kept, and the block ends at `}` |
| LunParser.Parser.ParseType | grammar.js:76-104 | a type is a primitive type keyword, or an expression that does not begin with a label and whose operators, `||` included, bind more tightly than `=` |
| LunParser.Parser.ParseItemValue | grammar.js:65-74 | the value of a definition is a well-formed expression |
| LunParser.Parser.ParseItem | grammar.js:65-74 | `global_def_item` yields a well-formed definition |
| LunParser.Parser.ParseItems | grammar.js:59 | `source_file` reads items up to the end of the tokens and keeps those read so far |
| LunParser.ParseSource | grammar.js:59 | the whole pipeline yields well-formed items |
| LunPrinter.PrintableWf | grammar.js:108-231 | every printable expression is well formed |
| LunPrinter.FirstToken | grammar.js:139-231 | a printable expression begins with a token that can begin an expression |
| LunRoundTrip.ExprRT | grammar.js:139-231 | a printable expression printed anywhere, followed by a token that closes its context, parses back to itself |
| LunRoundTrip.Lead | grammar.js:139-231 | once a printed operand is read, the climbing loop goes on from the token right after it |
| LunRoundTrip.LeadBinary | grammar.js:181-202 | a printed binary expression reads back with its operator and operands, grouped by the precedence table |
| LunRoundTrip.LeadAssign | grammar.js:204-208 | a printed assignment reads back, its right side grouped to the right |
| LunRoundTrip.LeadCall | grammar.js:228-231 | a printed call reads back with its callee and arguments |
| LunRoundTrip.LeadField | grammar.js:300-304 | a printed field access reads back with its operand and field name |
| LunRoundTrip.LeadDeref | grammar.js:215-218 | a printed dereference reads back with its operand |
| LunRoundTrip.PrefixRT | grammar.js:139-179 | every primary or prefix form reads back from its printed tokens |
| LunRoundTrip.ParenRT | grammar.js:168-172 | `( e )` reads back as the parenthesized `e` |
| LunRoundTrip.UnaryRT | grammar.js:210-213 | `-e` and `!e` read back with their operand |
| LunRoundTrip.BorrowRT | grammar.js:220-224 | `&e` and `&mut e` read back with their operand and mutability |
| LunRoundTrip.AtomRT | grammar.js:158-166 | `true`, `false`, `null`, integer and string literals read back as themselves |
| LunRoundTrip.PathRT | grammar.js:174-179 | a path, rooted at `orb` or a name, reads back with all its segments |
| LunRoundTrip.ReturnRT | grammar.js:262-265 | `return` reads back with its operand if it has one, and without one when nothing that starts an expression follows |
| LunRoundTrip.BreakRT | grammar.js:267-287 | `break` reads back with its optional label and its optional operand |
| LunRoundTrip.ContinueRT | grammar.js:289-292 | `continue` reads back with its optional label |
| LunRoundTrip.BlockERT | grammar.js:124-126 | a block in expression position reads back as that block |
| LunRoundTrip.LoopRT | grammar.js:257-260 | `loop` reads back with its body |
| LunRoundTrip.WhileRT | grammar.js:243-247 | `while` reads back with its condition and body |
| LunRoundTrip.ForRT | grammar.js:249-255 | `for` reads back with its variable, iterator and body |
| LunRoundTrip.IfRT | grammar.js:233-241 | `if` reads back with its condition, its `then` block and its optional `else` part |
| LunRoundTrip.ElseRT | grammar.js:237-240 | the `else` part reads back as another `if` or as a block |
| LunRoundTrip.LabeledRT | grammar.js:128-137 | a label reads back with the block, `while`, `for` or `loop` it names |
| LunRoundTrip.BlockRT | grammar.js:306-311 | a printed block reads back from `{` to its `}` |
| LunRoundTrip.StmtsRT | grammar.js:306-316 | the statements from any index on, the last expression and `}` read back, keeping the statements already read |
| LunRoundTrip.WithStmtRT | grammar.js:315 | a with-block statement reads back with no `;` after it |
| LunRoundTrip.SemiStmtRT | grammar.js:314 | a without-block statement reads back up to its `;` |
| LunRoundTrip.EndRT | grammar.js:309-310 | the optional last expression and `}` read back |
| LunRoundTrip.TypeRT | grammar.js:76-104 | a printed type reads back as the same primitive type or expression |
| LunRoundTrip.ValueRT | grammar.js:70-73 | a printed definition value reads back with its terminator |
| LunRoundTrip.ItemRT | grammar.js:65-74 | a printed definition reads back with its name, optional type, kind and value |
| LunRoundTrip.ItemsRT | grammar.js:59 | printed definitions read back to the end of the tokens, after the ones already read |
| LunRoundTrip.ArgsRT | grammar.js:226 | printed arguments parse back to themselves |
| LunRoundTrip.PathTailRT | grammar.js:174-179 | printed path segments parse back to themselves |
| LunSoundness.ExprSound | grammar.js:108-231 | the tokens an accepted expression spans are the print of the tree returned |
| LunSoundness.InfixSound | grammar.js:181-231 | each operator, call, field access and dereference the climbing loop applies adds exactly its printed tokens |
| LunSoundness.ArgsSound | grammar.js:226 | the arguments read are the printed argument list and `)`, with an optional trailing `,` |
| LunSoundness.PrefixSound | grammar.js:139-179 | the tokens of an accepted primary or prefix form are its print |
| LunSoundness.SymPrefixSound | grammar.js:168-172 | prefix operators, parentheses and blocks read are their print |
| LunSoundness.BorrowSound | grammar.js:220-224 | `&`, `&mut` and `&&` read are the printed borrows |
| LunSoundness.WordPrefixSound | grammar.js:128-179 | keyword forms, literals, tagged strings, labels and paths read are their print |
| LunSoundness.PathTailSound | grammar.js:174-179 | the `::` segments read are the printed segments added to the path |
| LunSoundness.BreakSound | grammar.js:267-287 | a `break` read, with its label and operand, is its print |
| LunSoundness.IfSound | grammar.js:233-241 | an `if` read, with its `else` part, is its print |
| LunSoundness.WhileSound | grammar.js:243-247 | a `while` read is its print |
| LunSoundness.ForSound | grammar.js:249-255 | a `for` read is its print |
| LunSoundness.LabeledSound | grammar.js:128-137 | a labeled expression read is its print |
| LunSoundness.BlockSound | grammar.js:306-311 | the tokens from `{` to `}` of an accepted block are the printed block |
| LunSoundness.StmtsSound | grammar.js:306-316 | the statements read, each with `;` exactly when it has no block, then the last expression and `}`, are their print |
| LunSoundness.TypeSound | grammar.js:76-104 | the tokens of an accepted type are its print |
| LunSoundness.ItemValueSound | grammar.js:65-74 | a definition value read is its print and its `;`, or, after a with-block value, its print with or without `;` |
| LunSoundness.ItemSound | grammar.js:65-74 | an accepted definition is its print, with `::` for the two colons of a definition with no type |
| LunSoundness.ItemsSound | grammar.js:59 | the definitions read to the end of the tokens are their print, the ones already read kept in front |
| LunSoundness.SourceSound | grammar.js:46-74 | for every text the pipeline accepts, the lexemes spell the text and their tokens are the print of the definitions returned |
| LunSoundness.NoExtras | grammar.js:70-73 | with no `;` kept after a with-block value, the definitions as read are exactly the printer's output |
| LunProperties.RoundTrip | grammar.js:139-231 | parsing the printed tokens of any printable expression gives the expression back, consuming all of them |
| LunProperties.PrintInjective | grammar.js:139-231 | distinct printable expressions print differently, so the grammar is unambiguous on them |
| LunProperties.ArgsRoundTrip | grammar.js:226 | `sep(_expression, ',')` then `)` reads back the same arguments, with or without a trailing comma |
| LunProperties.BlockRoundTrip | grammar.js:306-316 | parsing the printed tokens of any printable block gives the block back, consuming all of them |
| LunProperties.SourceRoundTrip | grammar.js:59-74 | parsing the printed tokens of any printable list of definitions gives the list back, consuming all of them |
| LunProperties.SourceInjective | grammar.js:59-74 | distinct printable sources print differently |
| LunProperties.WithBlockIsLast | grammar.js:306-316 | a with-block expression right before `}` is the block's last expression, not a statement |
| LunProperties.NothingAtSemi | grammar.js:313-316 | no statement begins with `;` |
| LunProperties.NoSemiAfterWithBlock | grammar.js:313-316 | a block whose with-block statement is followed by `;` is rejected |
| LunProperties.MissingSemi | grammar.js:313-316 | `{ a b }` is rejected at `b`: a without-block statement needs its `;` |
| LunProperties.MissingSemiBetween | grammar.js:313-316 | any printed without-block statement directly followed by a printed expression that cannot extend it is rejected where that expression begins |
| LunProperties.ValueOptionalSemi | grammar.js:70-73 | a with-block definition value reads the same with and without its `;` |
| LunProperties.LeftAssociative | grammar.js:181-202 | two binary operators of one level group to the left |
| LunProperties.TighterOnRight | grammar.js:10-41 | a higher-precedence operator on the right takes the middle operand |
| LunProperties.TighterOnLeft | grammar.js:10-41 | a higher-precedence operator on the left takes the middle operand |
| LunProperties.AssignRightAssociative | grammar.js:204-208 | `a = b = c` assigns `b = c` to `a` |
| LunProperties.AssignLoosest | grammar.js:204-208 | assignment binds more loosely than every binary operator |
| LunProperties.PrefixOverBinary | grammar.js:210-213 | a prefix `-` or `!` binds more tightly than every binary operator |
| LunProperties.FieldOverPrefix | grammar.js:300-304 | at `PREC.field`, `-a.f` negates the field access |
| LunProperties.CallOverPrefix | grammar.js:228-231 | at `PREC.call`, `-f(x)` negates the call |
| LunProperties.FieldOverBinary | grammar.js:300-304 | at `PREC.field`, `a + b.f` accesses the field of `b` only |
| LunProperties.DerefOverBinary | grammar.js:215-218 | at `PREC.field`, `a + b.*` dereferences `b` only |
| LunProperties.FieldAsWritten | grammar.js:300-304 | with no precedence, `a + b.c` accesses the field of the sum |
| LunProperties.DerefAsWritten | grammar.js:215-218 | with no precedence, `a + b.*` dereferences the sum |

## Left out

- tree-sitter's GLR fallback and error recovery: the parser is deterministic and stops at the first error.
- Trivia between tokens: the lexer produces whitespace and comments, and the parser's input is the token stream without them.
- `fundef_expr` (grammar.js:296-298) is referenced by no rule, so no tree can contain it; `fun` is an ordinary word.
- Integer literals keep their digits and tag; their numeric value is not computed.
- Keyword extraction is modelled by position: every word lexes as a word, and the parser reads it as a keyword where that keyword is valid.
- The lexer has no parser feedback: `&&` in prefix position is read as two borrows, and `::` right after an item's name as two colons.
- The round trip covers the printable trees: those the printer writes with no parentheses missing. It does not cover a tree that would need parentheses to print, because the printer adds none. Among these are a `return` or `break` with an operand inside an operand (`a + return b`, `-return x`, `a + break b`): the operand would swallow the rest of the expression.
- The soundness lemmas hold up to four spellings the printer does not produce: `&&` for two prefix `&`, `::` for `: :` after a definition's name, a trailing `,` before `)`, and the optional `;` after a with-block definition value. LunSoundness.SourceSound names each kept `;`.
- LunLexer.StrBody: after a newline inside a string literal only whitespace and the closing quote are read. A comment or an escape sequence there, which `extras` (grammar.js:46-49) would let through before the non-immediate `"` and `escape_sequence`, makes the literal an error.
- The printer writes no `;` after a with-block definition value. LunProperties.ValueOptionalSemi covers the form with the `;`.
- `for_expr` appears in grammar.js only inside `labeled_expr`, so an unlabeled `for` is no expression. The model follows that.
- LunParser.Parser.ParseExpr: states well-formedness and progress; what it parses is pinned down by the round trip on printable expressions and by LunSoundness.ExprSound on every accepted input.
- Bindings, the package manifest and the generated parser tables are not part of this model.

## Findings

| source | as written | input that shows it | evidently intended | confidence | as-written member | corrected member |
|---|---|---|---|---|---|---|
| grammar.js:300-304, 215-218 | `field_expr` and `right_unary_expr` carry no `prec`, so the LR choice reduces the operand first (level 0) | `a + b.c` is read as `(a + b).c`; `a + b.*` as `(a + b).*` | `PREC.field` (13) is declared and unused; the field access and the dereference bind to `b` | not executed | LunProperties.FieldAsWritten, LunProperties.DerefAsWritten | LunProperties.FieldOverBinary, LunProperties.DerefOverBinary |

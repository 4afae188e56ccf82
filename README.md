# NextGenToDoApp compiler core in Dafny

NextGenToDoApp contains a small compiler that turns a program text into JavaScript text:

1. the lexer scans the text into tokens;
2. a grammar-as-data Pratt parser builds one expression tree from the tokens;
3. the type checker annotates the tree with types and built-in symbols;
4. the code generator prints the tree as JavaScript.

This project models those four stages and their composition and proves properties of the model.

| module | file | models |
|---|---|---|
| `Wrappers` | Wrappers.dfy | `Option` and `Result` |
| `Lexer` | Lexer.dfy | `TokenType`, `Token`, the pattern table, `SkipWhitespace`, `Tokenize` |
| `Types` | Types.dfy | the `IType` records, `Types`, `Symbols` |
| `Parser` | Parser.dfy | `ParseNode`, the grammar records, `Grammar`, both dispatch maps, `ParseState`, every parsing procedure, `GetPossibleFirstTokenTypes` |
| `TypeChecker` | TypeChecker.dfy | `NamesToSymbols` and both `CheckType` overloads |
| `JSCodeGenerator` | JSCodeGenerator.dfy | `Generate`, branch by branch |
| `Compiler` | Compiler.dfy | `Compiler.Compile`: the four stages in sequence |

## How the code is modelled

Each stage takes the same form as the C#.

**Lexer.** The scanner is a method with the source's loops. It is proved equal to the function `LexFrom`. The regular expressions become character predicates and maximal scans.

**Parser.** `ParseState` is a class, and its field `nextTokenIndex` is updated in place. Each parsing procedure is a method on it. Each method is proved to deliver the result and the final index of a function over the token sequence (`ParseExpressionAt`, `ParseRuleAt` and so on). The dispatch maps are literal constants. Ghost functions derive them from `Grammar` by way of FIRST sets, as the static initialisers do, and lemmas prove the derivation gives exactly those constants.

**Type checker.** The source writes `Type` and `Symbol` into the nodes. The model instead returns an annotated copy of the tree, and `Check` is the recursive method with the source's loop over the children.

**Generator.** The generator is a recursive function. The one branch that loops, over a `StringBuilder`, is also a method, `GenerateProgram`, proved equal to the function.

**Errors.** Each exception becomes an error value: `LexError`, `ParseError`, `CheckError`, `GenError` and, for the whole pipeline, `CompileError`.

**Node kinds.** The C# files do not agree on which node kinds exist. The parser's enum declares five. The type checker and the generator use ten more, and a `Symbol` field that `ParseNode` does not declare. `NodeKind` is the union of all fifteen, and the node carries an optional symbol.

**External parts.** `IsExpression()` on node kinds is not in the modelled files, so it is a parameter. So is the line terminator `AppendLine` writes.

## What the model shows about the code as written

The stages are out of step with each other, and the model makes this explicit:

- The parser builds only `StringLiteral`, `Identifier` and `FunctionCall` nodes (`Parser.IsExpressionNode`, `Parser.ExpressionShape`).
  - The generator has no branch for `StringLiteral`.
  - It requires an `ArgumentTuple` child of a `FunctionCall`, which the parser never builds.
  - So a program compiles exactly when its first token names a built-in symbol and is not followed by `(`. The output is then that name (`Compiler.CompileSucceedsExactly`).
- `exec_JS`, the name of the built-in function, cannot be lexed: `_` is not an identifier character (`Lexer.ExecJsDoesNotLex`).
- A `Binding` does not make its name visible to later siblings. A name is looked up only in the fixed built-in table (`TypeChecker.BindingAddsNoName`).
- Calling `exec_JS` yields the type `TypeArgumentType("TReturn")`, because type arguments are never substituted (`TypeChecker.ExecJSReturnsTypeArgument`).
- Input that ends in white space fails. After skipping to the end nothing matches, and the error message indexes one past the end (`Lexer.TrailingWhiteSpaceFails`).
- A ListLiteral node with no children fails the check, because `Children[0]` fails on it (`TypeChecker.OtherKindsCheckAllChildren`). The parser never builds a ListLiteral, so which children a list literal would have is not known.

## Model

| member | source | states |
|---|---|---|
| Lexer.AlnumRun | NextGenToDoApp/Lexer.cs:22 | the run after an identifier's first letter is all ASCII letters and digits and cannot be extended |
| Lexer.NonQuoteRun | NextGenToDoApp/Lexer.cs:28 | the run inside a string literal holds no `"` and stops at a `"` or at the end |
| Lexer.IsWhiteSpace | NextGenToDoApp/Lexer.cs:69 | `char.IsWhiteSpace` as the list of characters it accepts; `SkipWhiteSpace`, `MatchedTextShape` and `TokensHoldNoWhiteSpace` state what follows from it |
| Lexer.MatchPattern | NextGenToDoApp/Lexer.cs:20-29 | every pattern that matches consumes at least one character and stays within the source |
| Lexer.TokenPatterns | NextGenToDoApp/Lexer.cs:20-29 | the pattern table in declaration order; `PatternOrderIrrelevant` shows any order of it gives the same match |
| Lexer.FirstMatch | NextGenToDoApp/Lexer.cs:46-57 | reference definition of the pattern loop; `FirstMatchIsAMatch`, `PatternOrderIrrelevant` and `Lexer.MatchAt` state its properties |
| Lexer.SkipWhiteSpace | NextGenToDoApp/Lexer.cs:67-73 | skips exactly the white space at the scan position, stopping at the end or at the first non-white-space character |
| Lexer.LexFrom | NextGenToDoApp/Lexer.cs:31-65 | reference definition of the scanner from a position; `Tokenize`, `TokenizeLayout`, `TokensHoldNoWhiteSpace`, `TrailingWhiteSpaceFails` and `UnexpectedCharacterIsReal` state its properties |
| Lexer.Tokenize | NextGenToDoApp/Lexer.cs:31-65 | the scanner loop computes `LexFrom` on the whole source |
| Lexer.SkipWhitespace | NextGenToDoApp/Lexer.cs:67-73 | the local loop stops exactly where `SkipWhiteSpace` says |
| Lexer.MatchAt | NextGenToDoApp/Lexer.cs:46-57 | the loop over the pattern table returns the first pattern that matches, with its length, or nothing |
| Lexer.LexUnfold | NextGenToDoApp/Lexer.cs:41-56 | after a match, the result from the scan position is the matched token followed by the result after the match, or that result's error |
| Lexer.LexCons | NextGenToDoApp/Lexer.cs:39-57 | a successful scan is one white-space gap, one token matched there by its own pattern, and a successful scan of the rest |
| Lexer.StartsUnfold | NextGenToDoApp/Lexer.cs:41-56 | after a match, the token start positions from the scan position are the match position followed by the starts after the match |
| Lexer.LexNoMatch | NextGenToDoApp/Lexer.cs:59-62 | an iteration where no pattern matches fails at the scan position, or with an index error at the end |
| Lexer.AlnumRunUnique | NextGenToDoApp/Lexer.cs:22 | any maximal letter-or-digit run from a position is the one `AlnumRun` finds |
| Lexer.NonQuoteRunUnique | NextGenToDoApp/Lexer.cs:28 | any maximal quote-free run from a position is the one `NonQuoteRun` finds |
| Lexer.IdentifierMaximalMunch | NextGenToDoApp/Lexer.cs:22 | the identifier pattern matches n characters if and only if they are a letter, then letters or digits, and the next character is neither |
| Lexer.StringLiteralToNextQuote | NextGenToDoApp/Lexer.cs:28 | the string pattern matches n characters if and only if they run from a `"` to the next `"` inclusive |
| Lexer.UnterminatedStringMatchesNothing | NextGenToDoApp/Lexer.cs:28 | a `"` with no closing `"` after it is matched by no pattern |
| Lexer.AtMostOnePatternMatches | NextGenToDoApp/Lexer.cs:20-29 | at any position at most one pattern matches, since their first characters are disjoint |
| Lexer.FirstMatchIsAMatch | NextGenToDoApp/Lexer.cs:46-56 | the pattern loop returns a kind and length if and only if that kind is in the table and matches that length |
| Lexer.MatchInTable | NextGenToDoApp/Lexer.cs:46-53 | the match the loop takes is the matching pattern's own match |
| Lexer.PatternOrderIrrelevant | NextGenToDoApp/Lexer.cs:33-34 | trying the patterns in any order that contains all of them gives the same match, so the dictionary's iteration order does not matter |
| Lexer.MatchedTextShape | NextGenToDoApp/Lexer.cs:22-28 | a match never ends in white space, and only a string literal can contain white space |
| Lexer.TokenizeLayout | NextGenToDoApp/Lexer.cs:39-57 | the source is white-space gaps, each followed by a token whose text is the source substring at its start and is matched there by its kind's pattern |
| Lexer.TokensHoldNoWhiteSpace | NextGenToDoApp/Lexer.cs:41-53 | every token text is non-empty, and only string literals contain white space |
| Lexer.TrailingWhiteSpaceFails | NextGenToDoApp/Lexer.cs:39-61 | empty input gives no tokens, and non-empty input that ends in white space fails |
| Lexer.WhiteSpaceOnlyFails | NextGenToDoApp/Lexer.cs:39-61 | non-empty input of white space only fails with the past-the-end index error |
| Lexer.NothingMatchesAtEnd | NextGenToDoApp/Lexer.cs:44-57 | no pattern matches the empty rest of the source |
| Lexer.UnexpectedCharacterIsReal | NextGenToDoApp/Lexer.cs:59-62 | a reported unexpected character is really at its index, is not white space, and starts no pattern |
| Lexer.ExecJsDoesNotLex | NextGenToDoApp/Lexer.cs:22 | `exec_JS` fails at index 4 on `_` |
| Lexer.IdentifierMatchesFirst | NextGenToDoApp/Lexer.cs:22-29 | at a letter the pattern loop takes the identifier pattern, over the letter and the letter-or-digit run after it |
| Lexer.NoPatternMatches | NextGenToDoApp/Lexer.cs:20-29 | at a character that is not a letter, a bracket, a parenthesis, a comma or `"`, the pattern loop finds no match |
| Parser.RulesFor | NextGenToDoApp/Parser.cs:102 | the rules selected for a kind are rules of the list and have that kind |
| Parser.SingleRule | NextGenToDoApp/Parser.cs:102 | `Grammar.Single` returns a rule of the grammar with the requested kind |
| Parser.Grammar | NextGenToDoApp/Parser.cs:63-73 | the three rules as data; `RulesForGrammar` and `GrammarWellFormed` state their properties |
| Parser.RulesForGrammar | NextGenToDoApp/Parser.cs:63-73 | the grammar has exactly one rule for StringLiteral, Identifier and FunctionCall, and none for any other kind |
| Parser.GrammarWellFormed | NextGenToDoApp/Parser.cs:63-73 | every rule has a non-empty right-hand side beginning with a terminal or with Expression |
| Parser.PrefixTableShape | NextGenToDoApp/Parser.cs:79-82 | every prefix entry is a prefix rule whose right-hand side is exactly its key's terminal |
| Parser.PostfixTableShape | NextGenToDoApp/Parser.cs:84-87 | every postfix entry is a four-symbol postfix rule whose second symbol is its key's terminal |
| Parser.FirstOfSymbol | NextGenToDoApp/Parser.cs:170-183 | reference definition of FIRST of a symbol; `FirstSets` states its values |
| Parser.FirstOfRule | NextGenToDoApp/Parser.cs:170-183 | reference definition of FIRST of a rule, from its first symbol; `FirstSets` states its values |
| Parser.BuildPrefixMap | NextGenToDoApp/Parser.cs:75-82 | reference definition of the prefix map's static initialiser; `PrefixTableDerived` states its result |
| Parser.PrefixTable | NextGenToDoApp/Parser.cs:75-82 | the prefix map as a literal; `PrefixTableShape` and `PrefixTableDerived` state its properties |
| Parser.BuildPostfixMap | NextGenToDoApp/Parser.cs:84-87 | reference definition of the postfix map's static initialiser; `PostfixTableDerived` states its result |
| Parser.PostfixTable | NextGenToDoApp/Parser.cs:84-87 | the postfix map as a literal; `PostfixTableShape` and `PostfixTableDerived` state its properties |
| Parser.FirstSets | NextGenToDoApp/Parser.cs:170-183 | FIRST of a terminal is its kind; FIRST of StringLiteral and Identifier is their token; FIRST of Expression fails at `Single`, and so does FIRST of FunctionCall |
| Parser.PrefixTableDerived | NextGenToDoApp/Parser.cs:75-82 | deriving the prefix map from the grammar's FIRST sets gives StringLiteral→StringLiteral rule and Identifier→Identifier rule |
| Parser.PostfixTableDerived | NextGenToDoApp/Parser.cs:84-87 | deriving the postfix map gives LeftParen→FunctionCall rule, with left binding power 12 |
| Parser.ParseExpressionAt | NextGenToDoApp/Parser.cs:138-143 | a successful expression parse consumes at least one token and stays within the input |
| Parser.ParsePrefixAt | NextGenToDoApp/Parser.cs:145-150 | a successful prefix parse consumes at least one token |
| Parser.ParsePostfixAt | NextGenToDoApp/Parser.cs:152-168 | postfix extension never moves the index backwards |
| Parser.ParseNonterminalAt | NextGenToDoApp/Parser.cs:95-104 | a successful nonterminal parse consumes at least one token |
| Parser.ParseRuleAt | NextGenToDoApp/Parser.cs:106-131 | a rule parse never moves backwards, and consumes a token when symbols remain |
| Parser.ParseSymbolsAt | NextGenToDoApp/Parser.cs:110-128 | parsing a symbol list yields one child per symbol and consumes a token per non-empty list |
| Parser.ParseSymbolAt | NextGenToDoApp/Parser.cs:112-127 | a terminal reads exactly one token of its kind and yields a childless Token node carrying it |
| Parser.ParseTokens | NextGenToDoApp/Parser.cs:89-93 | reference definition behind `Parser.Parse`; `ParseYield`, `Compiler.ParsedShape`, `EmptyInputFails` and `TrailingTokensIgnored` state its properties |
| Parser.ParseState.constructor | NextGenToDoApp/Parser.cs:51-55 | the state holds the given tokens and index |
| Parser.ParseState.TryPeekToken | NextGenToDoApp/Parser.cs:185-188 | yields the next token exactly when one is left |
| Parser.ParseState.PeekToken | NextGenToDoApp/Parser.cs:190-193 | yields the next token, or fails with end of input at the current index |
| Parser.ParseState.ReadToken | NextGenToDoApp/Parser.cs:195-200 | returns what a peek returns, and advances the index by one exactly when that succeeds |
| Parser.ParseState.ParseExpression | NextGenToDoApp/Parser.cs:138-143 | result and final index are those of `ParseExpressionAt` |
| Parser.ParseState.ParsePrefixExpression | NextGenToDoApp/Parser.cs:145-150 | result and final index are those of `ParsePrefixAt` |
| Parser.ParseState.ParsePostfixAndInfixExpressions | NextGenToDoApp/Parser.cs:152-168 | result and final index are those of `ParsePostfixAt` |
| Parser.ParseState.ParseNonterminal | NextGenToDoApp/Parser.cs:95-104 | result and final index are those of `ParseNonterminalAt` |
| Parser.ParseState.ParseNonterminalRule | NextGenToDoApp/Parser.cs:106-131 | the loop over the remaining symbols delivers `ParseRuleAt` |
| Parser.ParseState.ParseSymbol | NextGenToDoApp/Parser.cs:112-127 | one symbol of the loop delivers `ParseSymbolAt` |
| Parser.SymbolStep | NextGenToDoApp/Parser.cs:110-128 | parsing one more symbol either fails with that symbol's error or appends its node and continues after it |
| Parser.RuleStep | NextGenToDoApp/Parser.cs:110-128 | the same step at the next symbol of a rule's right-hand side |
| Parser.FinishStep | NextGenToDoApp/Parser.cs:120-130 | appending a parsed child and then the rest builds the same node as the whole list |
| Parser.Parse | NextGenToDoApp/Parser.cs:89-93 | a fresh state at index 0 computes `ParseTokens` |
| Parser.LeavesOfAppend | NextGenToDoApp/Parser.cs:120-130 | the token leaves of concatenated child lists concatenate |
| Parser.ExpressionYield | NextGenToDoApp/Parser.cs:138-143 | the token leaves of a parsed expression are exactly the tokens it consumed |
| Parser.PrefixYield | NextGenToDoApp/Parser.cs:145-150 | the same for a prefix expression |
| Parser.PostfixYield | NextGenToDoApp/Parser.cs:152-168 | the same for postfix extension: the left node's leaves, then the tokens consumed |
| Parser.PostfixStep | NextGenToDoApp/Parser.cs:160-167 | one application of the call rule moves past the current token, leaves the final result unchanged, and adds exactly the tokens it consumed to the leaves |
| Parser.NonterminalYield | NextGenToDoApp/Parser.cs:95-104 | the same for a nonterminal |
| Parser.RuleYield | NextGenToDoApp/Parser.cs:106-131 | the same for a rule with pre-parsed children |
| Parser.SymbolsYield | NextGenToDoApp/Parser.cs:110-128 | the same for a symbol list |
| Parser.SymbolYield | NextGenToDoApp/Parser.cs:114-124 | the same for one symbol |
| Parser.ParseYield | NextGenToDoApp/Parser.cs:89-93 | a successful parse consumes a non-empty prefix of the tokens, and the tree's leaves are exactly that prefix |
| Parser.PrefixExpressionIsOneToken | NextGenToDoApp/Parser.cs:145-150 | a prefix expression is one Identifier or StringLiteral token wrapped in its node; end of input and every other token kind fail |
| Parser.PostfixStops | NextGenToDoApp/Parser.cs:152-164 | extension returns the left node untouched at end of input, before a token other than `(`, or when the minimum binding power exceeds 12; otherwise it fails or consumes tokens |
| Parser.BindingPowerGate | NextGenToDoApp/Parser.cs:161-164 | above binding power 12 an expression is its prefix alone |
| Parser.ExpressionShape | NextGenToDoApp/Parser.cs:138-143 | every parsed expression is an unannotated StringLiteral or Identifier over one token, or a four-child FunctionCall |
| Parser.PostfixShape | NextGenToDoApp/Parser.cs:152-168 | postfix extension keeps that shape |
| Parser.CallShape | NextGenToDoApp/Parser.cs:166 | applying the call rule gives a FunctionCall whose first child is the left node |
| Parser.CallRule | NextGenToDoApp/Parser.cs:106-131 | the call rule reads `(`, an argument at binding power 0, then `)`; each failure is the first one met, and success builds callee, `(`, argument, `)` |
| Parser.EmptyInputFails | NextGenToDoApp/Parser.cs:190-193 | parsing no tokens fails peeking index 0 |
| Parser.TrailingTokensIgnored | NextGenToDoApp/Parser.cs:89-93 | `x y` parses as `x`, leaving `y` unread |
| Parser.CallsNestLeft | NextGenToDoApp/Parser.cs:152-168 | `f(a)(b)` is the call of `f(a)` on `b` |
| Parser.CommaIsUnexpected | NextGenToDoApp/Parser.cs:114-119 | `f(a, b)` fails expecting `)` and finding `,` |
| Parser.EmptyArgumentFails | NextGenToDoApp/Parser.cs:145-149 | `f()` fails because no prefix rule starts with `)` |
| Parser.UnclosedCallFails | NextGenToDoApp/Parser.cs:195-200 | `f(a` fails reading index 3 |
| TypeChecker.ToDictionary | NextGenToDoApp/TypeChecker.cs:59-60 | a successful `ToDictionary` maps every symbol's name to a symbol with that name |
| Types.AllSymbols | NextGenToDoApp/TypeChecker.cs:47-52 | `Symbols.All`, the four built-in symbols; `NamesToSymbolsDerived` shows the name table built from it |
| TypeChecker.NamesToSymbolsDerived | NextGenToDoApp/TypeChecker.cs:47-60 | building the dictionary from `Symbols.All` succeeds and gives `NamesToSymbols` |
| TypeChecker.NamesToSymbols | NextGenToDoApp/TypeChecker.cs:47-60 | the name table as a literal; `NamesToSymbolsDerived` shows it is what `ToDictionary` builds from `Symbols.All` |
| TypeChecker.CheckType | NextGenToDoApp/TypeChecker.cs:62-107 | checking changes only annotations: the tree without them and its size are unchanged |
| TypeChecker.CheckChildren | NextGenToDoApp/TypeChecker.cs:88-91 | checking the children keeps their count and every child's shape |
| TypeChecker.ChildrenStep | NextGenToDoApp/TypeChecker.cs:88-91 | one iteration of the child loop fails with that child's error or adds the checked child |
| TypeChecker.CheckEach | NextGenToDoApp/TypeChecker.cs:88-91 | the child loop computes `CheckChildren` |
| TypeChecker.Check | NextGenToDoApp/TypeChecker.cs:62-107 | the recursive checking method computes `CheckType` |
| TypeChecker.ReturnTypeOf | NextGenToDoApp/TypeChecker.cs:96 | `as FunctionType)?.ReturnType` gives a type exactly for a function type, and then its return type |
| TypeChecker.CheckTwice | NextGenToDoApp/TypeChecker.cs:62-107 | checking a checked tree gives the same tree: annotation is idempotent |
| TypeChecker.CheckChildrenTwice | NextGenToDoApp/TypeChecker.cs:88-91 | the same for a list of children |
| TypeChecker.CheckChildrenElements | NextGenToDoApp/TypeChecker.cs:88-91 | the child loop succeeds if and only if every child checks, and then yields each checked child in place |
| TypeChecker.CheckChildrenFirstError | NextGenToDoApp/TypeChecker.cs:88-91 | a failing child loop reports the error of the first child that fails |
| TypeChecker.BindingChecksLastChild | NextGenToDoApp/TypeChecker.cs:64-85 | a Binding or ParameterDefinition checks only its last child; it and its first child get that child's type, and the other children are untouched; no children fails |
| TypeChecker.OtherKindsCheckAllChildren | NextGenToDoApp/TypeChecker.cs:86-106 | any other kind checks all children first; then Expression takes its first child's type, FunctionCall its callee's return type or none, ListLiteral the list of its first child's type, TextLiteral Text, Identifier its symbol's type, the rest none |
| TypeChecker.IdentifierLookup | NextGenToDoApp/TypeChecker.cs:99-118 | an Identifier looks up its first child's token text: a missing child, token or name fails, and a found name records the symbol and returns its type |
| TypeChecker.TokenLeafChecks | NextGenToDoApp/TypeChecker.cs:86-106 | a childless Token node checks to itself |
| TypeChecker.ExecJSReturnsTypeArgument | NextGenToDoApp/TypeChecker.cs:38-45 | a call of `exec_JS` has type `TypeArgumentType("TReturn")` |
| TypeChecker.BindingAddsNoName | NextGenToDoApp/TypeChecker.cs:59-74 | a program whose Binding checks, binding a name that is not built in, fails with that name unknown when a later sibling uses it |
| JSCodeGenerator.FirstOfKind | NextGenToDoApp/JSCodeGenerator.cs:22 | `First(c => kind)` finds the least index of that kind, or reports none exists |
| JSCodeGenerator.Generate | NextGenToDoApp/JSCodeGenerator.cs:7-89 | reference definition of the generator; the `…Output` lemmas state each branch, and `GenerateIgnoresAnnotations` and `UnknownKindIsReal` state properties of the whole |
| JSCodeGenerator.GenerateChildren | NextGenToDoApp/JSCodeGenerator.cs:35-40 | reference definition of the filtered child walks (also lines 53 and 63-72); `ChildrenAreFiltered` and `ChildrenTexts` state what it computes |
| JSCodeGenerator.Join | NextGenToDoApp/JSCodeGenerator.cs:39 | `string.Join`, also used at line 68; `ParameterTupleOutput` and `ListLiteralOutput` state the outputs built with it |
| JSCodeGenerator.Lines | NextGenToDoApp/JSCodeGenerator.cs:9-19 | the texts each followed by the line terminator; `LinesConcat` and `ProgramOutput` state its properties |
| JSCodeGenerator.LastExpression | NextGenToDoApp/JSCodeGenerator.cs:23 | `Last(c => IsExpression())` finds the greatest index of an expression kind, or reports none exists |
| JSCodeGenerator.SingleTokenText | NextGenToDoApp/JSCodeGenerator.cs:61 | `Children.Single().Token!.Text` succeeds exactly for one child with a token, and yields its text |
| JSCodeGenerator.LeadingQuotes | NextGenToDoApp/JSCodeGenerator.cs:75 | counts the maximal run of `"` at the start |
| JSCodeGenerator.TrailingQuotes | NextGenToDoApp/JSCodeGenerator.cs:75 | counts the maximal run of `"` at the end |
| JSCodeGenerator.TrimQuotes | NextGenToDoApp/JSCodeGenerator.cs:75 | the trimmed text neither starts nor ends with `"` |
| JSCodeGenerator.Kept | NextGenToDoApp/JSCodeGenerator.cs:37 | `Where` keeps only children of the selected kinds |
| JSCodeGenerator.Skip | NextGenToDoApp/JSCodeGenerator.cs:53 | `Skip(1)`: the children from an index on; `ChildrenAreFiltered` states the walk as `Skip`, then `Where`, then `Select` |
| JSCodeGenerator.TextsOf | NextGenToDoApp/JSCodeGenerator.cs:39 | `Select(Generate)` made eager by `ToList` (also lines 54 and 68); `TextsOfEach` and `TextsOfFirstError` state its properties |
| JSCodeGenerator.ProgramStep | NextGenToDoApp/JSCodeGenerator.cs:13-16 | one iteration of the Program loop fails with the child's error or appends its text |
| JSCodeGenerator.GenerateProgram | NextGenToDoApp/JSCodeGenerator.cs:9-19 | the StringBuilder loop computes the Program branch of `Generate` |
| JSCodeGenerator.ChildrenAreFiltered | NextGenToDoApp/JSCodeGenerator.cs:53 | walking children from an index with a filter is generating the skipped and filtered children |
| JSCodeGenerator.TextsOfEach | NextGenToDoApp/JSCodeGenerator.cs:39 | `Select(Generate)` succeeds if and only if every node generates, and yields their texts in order |
| JSCodeGenerator.TextsOfFirstError | NextGenToDoApp/JSCodeGenerator.cs:54 | `Select(Generate).ToList()` fails with the error of the first node that fails |
| JSCodeGenerator.ChildrenTexts | NextGenToDoApp/JSCodeGenerator.cs:37-39 | the filtered children walk succeeds if and only if every selected child generates, and yields their texts in child order |
| JSCodeGenerator.KeptAll | NextGenToDoApp/JSCodeGenerator.cs:13 | a filter that accepts every kind keeps all children |
| JSCodeGenerator.ProgramOutput | NextGenToDoApp/JSCodeGenerator.cs:9-19 | a Program outputs every child's text followed by the line terminator, in child order, and fails exactly when a child fails |
| JSCodeGenerator.LinesConcat | NextGenToDoApp/JSCodeGenerator.cs:11-18 | the lines of two text lists concatenate |
| JSCodeGenerator.BindingOutput | NextGenToDoApp/JSCodeGenerator.cs:20-26 | a Binding outputs `const <first Identifier child> = <last expression child>;`, failing when either is missing or fails |
| JSCodeGenerator.FunctionDefinitionDropsReturnType | NextGenToDoApp/JSCodeGenerator.cs:27-34 | replacing the return-type child by any other return type leaves the output unchanged |
| JSCodeGenerator.FirstOfKindSameKinds | NextGenToDoApp/JSCodeGenerator.cs:22 | the first index of a kind depends only on the children's kinds |
| JSCodeGenerator.FunctionDefinitionOutput | NextGenToDoApp/JSCodeGenerator.cs:27-34 | a FunctionDefinition needs a ParameterTuple and a return type, and outputs `<parameters> => <last child>` |
| JSCodeGenerator.SameFunctionDefinitionParts | NextGenToDoApp/JSCodeGenerator.cs:27-34 | two FunctionDefinitions that agree on the positions of their parameter tuple and return type, on the parameter tuple and on the last child generate the same output |
| JSCodeGenerator.ParameterTupleOutput | NextGenToDoApp/JSCodeGenerator.cs:35-40 | a ParameterTuple succeeds if and only if each of its ParameterDefinition children does, and outputs their texts, in order, joined by `, ` in parentheses |
| JSCodeGenerator.ParameterDefinitionOutput | NextGenToDoApp/JSCodeGenerator.cs:41-47 | a ParameterDefinition outputs the single token text under its first Identifier child, and fails when it has none |
| JSCodeGenerator.FunctionCallOutput | NextGenToDoApp/JSCodeGenerator.cs:48-58 | a FunctionCall with no children fails, one without an ArgumentTuple fails, one whose tuple holds an expression child after its first that fails to generate fails with the first such child's error, one whose tuple has other than one expression after its first child fails, and otherwise it outputs `window.<callee>(<arg>)` |
| JSCodeGenerator.ListLiteralOutput | NextGenToDoApp/JSCodeGenerator.cs:63-72 | a ListLiteral outputs its expression children joined by `, ` in brackets, and `[]` when it has none |
| JSCodeGenerator.RawTextOutput | NextGenToDoApp/JSCodeGenerator.cs:59-84 | Identifier and SingleLineComment output their single child's token text, and a Token node its own, each failing exactly without that token |
| JSCodeGenerator.TrimQuotesParts | NextGenToDoApp/JSCodeGenerator.cs:75 | the text is a run of `"`, then the trimmed text, then another run of `"` |
| JSCodeGenerator.TrimQuotesQuoted | NextGenToDoApp/JSCodeGenerator.cs:75 | quoting a text that does not start or end with `"` and trimming gives it back |
| JSCodeGenerator.TrimQuotesIdempotent | NextGenToDoApp/JSCodeGenerator.cs:75 | trimming twice is trimming once |
| JSCodeGenerator.TextLiteralOutput | NextGenToDoApp/JSCodeGenerator.cs:73-76 | a TextLiteral outputs its token text with the surrounding quotes normalised to one pair, and trimming the output gives back the trimmed text |
| JSCodeGenerator.UnknownKindIsReal | NextGenToDoApp/JSCodeGenerator.cs:85-88 | a kind without a branch fails with "Unknown node type", and that error, from anywhere in the tree, never names a kind that has a branch |
| JSCodeGenerator.UnknownKindIsRealBelow | NextGenToDoApp/JSCodeGenerator.cs:37-68 | the same for the walks over children |
| JSCodeGenerator.LastExpressionSameKinds | NextGenToDoApp/JSCodeGenerator.cs:23 | the last expression index depends only on the children's kinds |
| JSCodeGenerator.GenerateIgnoresAnnotations | NextGenToDoApp/JSCodeGenerator.cs:7-89 | the output does not depend on the types and symbols the checker attaches |
| JSCodeGenerator.ChildrenIgnoreAnnotations | NextGenToDoApp/JSCodeGenerator.cs:37-39 | the same for the walks over children |
| JSCodeGenerator.ParsedExpressionOutput | NextGenToDoApp/JSCodeGenerator.cs:48-88 | on a tree the parser builds, an Identifier outputs its token text, a StringLiteral fails as an unknown node type, and a FunctionCall fails for lack of an ArgumentTuple |
| Compiler.Compile | NextGenToDoApp/Compiler.cs:5-12 | running the stage methods in sequence computes `CompileSource` |
| Compiler.CompileSource | NextGenToDoApp/Compiler.cs:5-12 | reference definition of the pipeline; `Compiler.Compile` computes it and `CompileSucceedsExactly` characterises it |
| Compiler.CompileTokens | NextGenToDoApp/Compiler.cs:8-11 | reference definition of the stages after tokenizing; `TokensCompileExactly` characterises it |
| Compiler.CompileTree | NextGenToDoApp/Compiler.cs:9-11 | reference definition of the stages after parsing; `TreeCompilesExactly` characterises it |
| Compiler.CheckedTreeGeneratesAsParsed | NextGenToDoApp/Compiler.cs:9-10 | generating the checked tree gives the same output as generating the parsed tree |
| Compiler.CompileSucceedsExactly | NextGenToDoApp/Compiler.cs:5-12 | compilation succeeds if and only if the first token is a built-in name not followed by `(`, and then outputs that name |
| Compiler.TokensCompileExactly | NextGenToDoApp/Compiler.cs:8-11 | the same, stated for the token sequence the lexer produced |
| Compiler.ParsedShape | NextGenToDoApp/Compiler.cs:8 | a successful parse of non-empty tokens is an expression tree, and it is an Identifier over the first token if and only if that token is an identifier not followed by `(` |
| Compiler.TreeCompilesExactly | NextGenToDoApp/Compiler.cs:9-11 | an expression tree checks and generates if and only if it is an Identifier naming a built-in symbol, and then outputs that name |
| Compiler.CompileBuiltInName | NextGenToDoApp/Compiler.cs:5-12 | `Text` compiles to `Text` |
| Compiler.CompileCallFails | NextGenToDoApp/Compiler.cs:5-12 | `Text(Text)` does not compile |
| Compiler.CallLexesToParen | NextGenToDoApp/Lexer.cs:39-57 | if `Text(Text)` lexes, its second token is `(` |

## Left out

- Source text is a Dafny `string`, indexed by Unicode scalar value, while C# indexes a string by UTF-16 code unit. After a character outside the Basic Multilingual Plane, the index in an unexpected-character error differs from the source's. When the unexpected character itself lies outside that plane, the source reports its high surrogate and the model the whole character. Text with unpaired surrogates cannot be written. Token texts and success or failure are unaffected.
- ListLiteral nodes: the parser builds none, so the model assumes no particular shape for them. The check and generator branches for them are modelled as written for any children.
- The type checker's update in place is modelled on values, because a returned annotated copy keeps the proofs small. The model therefore does not capture aliasing between the tree the caller holds and the annotated one. It also does not capture the partial annotations left behind when checking throws part-way.
- `IsExpression()` on node kinds is not in the modelled files. It is a parameter of the generator, so every property holds for any choice of it.
- `Environment.NewLine` is platform-dependent and is a parameter.
- Exception types and message texts become error values. The index error raised while formatting the lexer's message is one value (`IndexOutOfRange`).
- The .NET `Regex` engine is not modelled. The seven anchored patterns become character predicates and maximal scans, and `char.IsWhiteSpace` becomes the list of characters it accepts.
- Parser.FirstOfSymbol: the FIRST-set recursion carries a fuel bound equal to the number of rules. On a cyclic grammar, where the source recurses without end, the model reports `CyclicGrammar` instead. The source's grammar is not cyclic.
- Parser.ParseState.constructor requires the start index to be within the tokens. The source's only caller passes 0.
- Symbols other than `BuiltInSymbol` are not modelled, because the source declares none. The null branch of the second `CheckType` overload therefore cannot arise.
- The `functionSymbol` read at the start of the FunctionCall branch of `Generate` is unused. Only its effect is modelled, the index error on a call with no children.
- NextGenToDoApp/Interpreter.cs is not part of this model: its behaviour is console output.
- NextGenToDoApp/Program.cs, NextGenToDoApp.Compiler/Program.cs and NextGenToDoApp.Client/wwwroot/App.js are not part of this model: they are file I/O, process entry points and browser code.
- NextGenToDoApp.Tests/CompilerTests.cs is not part of this model: it has no assertions.

/** NextGenToDoApp/Compiler.cs: the four stages run one after another, the
    first failure ending the compilation. */
module Compiler {
  import opened Wrappers
  import Lexer
  import Parser
  import TypeChecker
  import JSCodeGenerator

  /** The stage that failed, with that stage's error. */
  datatype CompileError =
    | LexFailed(lexError: Lexer.LexError)
    | ParseFailed(parseError: Parser.ParseError)
    | CheckFailed(checkError: TypeChecker.CheckError)
    | GenerateFailed(generateError: JSCodeGenerator.GenError)

  /** `Compile(sourceCode)`: tokenize, parse, annotate, then generate from the
      annotated tree. */
  function CompileSource(source: string, isExpression: Parser.NodeKind -> bool, newline: string): Result<string, CompileError> {
    match Lexer.LexFrom(source, 0)
    case Err(e) => Err(LexFailed(e))
    case Ok(tokens) => CompileTokens(tokens, isExpression, newline)
  }

  /** The stages after tokenizing. */
  function CompileTokens(tokens: seq<Lexer.Token>, isExpression: Parser.NodeKind -> bool, newline: string): Result<string, CompileError> {
    match Parser.ParseTokens(tokens)
    case Err(e) => Err(ParseFailed(e))
    case Ok(tree) => CompileTree(tree, isExpression, newline)
  }

  /** The stages after parsing. */
  function CompileTree(tree: Parser.Node, isExpression: Parser.NodeKind -> bool, newline: string): Result<string, CompileError> {
    match TypeChecker.CheckType(tree)
    case Err(e) => Err(CheckFailed(e))
    case Ok(checked) =>
      match JSCodeGenerator.Generate(checked, isExpression, newline)
      case Err(e) => Err(GenerateFailed(e))
      case Ok(js) => Ok(js)
  }

  /** The compiler as the source runs it, stage method after stage method. */
  method Compile(source: string, isExpression: Parser.NodeKind -> bool, newline: string) returns (r: Result<string, CompileError>)
    ensures r == CompileSource(source, isExpression, newline)
  {
    var tokens := Lexer.Tokenize(source);
    if tokens.Err? {
      return Err(LexFailed(tokens.error));
    }
    var tree := Parser.Parse(tokens.value);
    if tree.Err? {
      return Err(ParseFailed(tree.error));
    }
    var checked := TypeChecker.Check(tree.value);
    if checked.Err? {
      return Err(CheckFailed(checked.error));
    }
    var js := JSCodeGenerator.Generate(checked.value, isExpression, newline);
    if js.Err? {
      return Err(GenerateFailed(js.error));
    }
    r := Ok(js.value);
  }

  /** The type annotations never reach the output: generating the checked
      tree is generating the parsed tree. */
  lemma CheckedTreeGeneratesAsParsed(tree: Parser.Node, isExpression: Parser.NodeKind -> bool, newline: string)
    requires TypeChecker.CheckType(tree).Ok?
    ensures JSCodeGenerator.Generate(TypeChecker.CheckType(tree).value, isExpression, newline)
      == JSCodeGenerator.Generate(tree, isExpression, newline)
  {
    JSCodeGenerator.GenerateIgnoresAnnotations(TypeChecker.CheckType(tree).value, isExpression, newline);
    JSCodeGenerator.GenerateIgnoresAnnotations(tree, isExpression, newline);
  }

  /** The source as it stands compiles a program exactly when its first token
      is the name of a built-in symbol not followed by "(": a string literal
      has no generator branch and a call has no ArgumentTuple child. The
      output is then that name. */
  lemma CompileSucceedsExactly(source: string, isExpression: Parser.NodeKind -> bool, newline: string)
    ensures var r := CompileSource(source, isExpression, newline);
      var lexed := Lexer.LexFrom(source, 0);
      && (r.Ok? <==>
            && lexed.Ok? && |lexed.value| > 0
            && lexed.value[0].kind == Lexer.Identifier
            && lexed.value[0].text in TypeChecker.NamesToSymbols
            && (|lexed.value| == 1 || lexed.value[1].kind != Lexer.LeftParen))
      && (r.Ok? ==> r.value == lexed.value[0].text)
  {
    var lexed := Lexer.LexFrom(source, 0);
    if lexed.Ok? {
      TokensCompileExactly(lexed.value, isExpression, newline);
    }
  }

  /** CompileSucceedsExactly for the tokens. */
  lemma TokensCompileExactly(tokens: seq<Lexer.Token>, isExpression: Parser.NodeKind -> bool, newline: string)
    ensures var r := CompileTokens(tokens, isExpression, newline);
      && (r.Ok? <==>
            && |tokens| > 0
            && tokens[0].kind == Lexer.Identifier
            && tokens[0].text in TypeChecker.NamesToSymbols
            && (|tokens| == 1 || tokens[1].kind != Lexer.LeftParen))
      && (r.Ok? ==> r.value == tokens[0].text)
  {
    if |tokens| > 0 {
      ParsedShape(tokens);
      var parsed := Parser.ParseTokens(tokens);
      if parsed.Ok? {
        TreeCompilesExactly(parsed.value, isExpression, newline);
      }
    }
  }

  /** The parse of non-empty tokens is an expression, and it is a bare
      identifier exactly when the first token is one not followed by "(". */
  lemma ParsedShape(tokens: seq<Lexer.Token>)
    requires |tokens| > 0
    ensures var parsed := Parser.ParseTokens(tokens);
      && (parsed.Ok? ==> Parser.IsExpressionNode(parsed.value))
      && (tokens[0].kind == Lexer.Identifier && (|tokens| == 1 || tokens[1].kind != Lexer.LeftParen) ==>
            parsed.Ok? && parsed.value.kind == Parser.Identifier)
      && (parsed.Ok? && parsed.value.kind == Parser.Identifier ==>
            && tokens[0].kind == Lexer.Identifier && (|tokens| == 1 || tokens[1].kind != Lexer.LeftParen)
            && parsed.value.children[0].token == Some(tokens[0]))
  {
    Parser.PrefixExpressionIsOneToken(tokens, 0);
    var parsed := Parser.ParseExpressionAt(tokens, 0, 0);
    if tokens[0].kind == Lexer.Identifier {
      var ident := Parser.ParsePrefixAt(tokens, 0).value.node;
      Parser.PostfixStops(tokens, ident, 1, 0);
    }
    if parsed.Ok? {
      var tree := parsed.value.node;
      Parser.ExpressionShape(tokens, 0, 0);
      Parser.ParseYield(tokens);
      if tree.kind == Parser.Identifier {
        var leaf := tree.children[0];
        assert Parser.LeavesOf(tree.children) == Parser.Leaves(leaf) + Parser.LeavesOf(tree.children[1..]);
        assert Parser.Leaves(tree) == [leaf.token.value];
        assert tokens[..parsed.value.next][0] == tokens[0];
      }
    }
  }

  /** An expression tree compiles exactly when it is a built-in's name, and
      then to that name. */
  lemma TreeCompilesExactly(tree: Parser.Node, isExpression: Parser.NodeKind -> bool, newline: string)
    requires Parser.IsExpressionNode(tree)
    ensures var r := CompileTree(tree, isExpression, newline);
      && (r.Ok? <==> tree.kind == Parser.Identifier && tree.children[0].token.value.text in TypeChecker.NamesToSymbols)
      && (r.Ok? ==> r.value == tree.children[0].token.value.text)
  {
    var checked := TypeChecker.CheckType(tree);
    if tree.kind == Parser.Identifier {
      assert TypeChecker.CheckType(tree.children[0]).Ok?;
      TypeChecker.IdentifierLookup(tree);
    }
    if checked.Ok? {
      CheckedTreeGeneratesAsParsed(tree, isExpression, newline);
      JSCodeGenerator.ParsedExpressionOutput(tree, isExpression, newline);
    }
  }

  /** The name of a built-in compiles to itself. */
  lemma CompileBuiltInName(isExpression: Parser.NodeKind -> bool, newline: string)
    ensures CompileSource("Text", isExpression, newline) == Ok("Text")
  {
    var s := "Text";
    assert Lexer.SkipWhiteSpace(s, 0) == 0;
    assert Lexer.AlnumRun(s, 1) == 3;
    assert Lexer.FirstMatch(Lexer.TokenPatterns, s, 0) == Some((Lexer.Identifier, 4));
    assert s[0..4] == s;
    assert Lexer.LexFrom(s, 4) == Ok([]);
    assert [Lexer.Token(Lexer.Identifier, s)] + [] == [Lexer.Token(Lexer.Identifier, s)];
    assert Lexer.LexFrom(s, 0) == Ok([Lexer.Token(Lexer.Identifier, s)]);
    CompileSucceedsExactly("Text", isExpression, newline);
  }

  /** A call cannot be compiled, even of a known function on a known name. */
  lemma CompileCallFails(isExpression: Parser.NodeKind -> bool, newline: string)
    ensures CompileSource("Text(Text)", isExpression, newline).Err?
  {
    CallLexesToParen();
    CompileSucceedsExactly("Text(Text)", isExpression, newline);
  }

  /** The second token of `Text(Text)`, if it lexes, is "(". */
  lemma CallLexesToParen()
    ensures var lexed := Lexer.LexFrom("Text(Text)", 0);
      lexed.Ok? ==> |lexed.value| >= 2 && lexed.value[1].kind == Lexer.LeftParen
  {
    var s := "Text(Text)";
    CallFirstToken();
    CallSecondToken();
    var rest := Lexer.LexFrom(s, 5);
    if rest.Ok? {
      var t1 := Lexer.Token(Lexer.LeftParen, s[4..5]);
      var tokens := [Lexer.Token(Lexer.Identifier, s[0..4])] + ([t1] + rest.value);
      assert Lexer.LexFrom(s, 0) == Ok(tokens);
      assert tokens[1] == t1;
    }
  }

  /** `Text` is the first token of `Text(Text)`. */
  lemma {:induction false} CallFirstToken()
    ensures Lexer.LexFrom("Text(Text)", 0)
      == Lexer.Prepend([Lexer.Token(Lexer.Identifier, "Text(Text)"[0..4])], Lexer.LexFrom("Text(Text)", 4))
  {
    var s := "Text(Text)";
    assert Lexer.SkipWhiteSpace(s, 0) == 0;
    assert Lexer.AlnumRun(s, 1) == 3;
    Lexer.IdentifierMatchesFirst(s, 0);
    Lexer.LexUnfold(s, 0, 0, Lexer.Identifier, 4, 4);
  }

  /** "(" follows it. */
  lemma {:induction false} CallSecondToken()
    ensures Lexer.LexFrom("Text(Text)", 4)
      == Lexer.Prepend([Lexer.Token(Lexer.LeftParen, "Text(Text)"[4..5])], Lexer.LexFrom("Text(Text)", 5))
  {
    var s := "Text(Text)";
    assert Lexer.SkipWhiteSpace(s, 4) == 4;
    assert Lexer.FirstMatch(Lexer.TokenPatterns, s, 4) == Some((Lexer.LeftParen, 1));
    Lexer.LexUnfold(s, 4, 4, Lexer.LeftParen, 1, 5);
  }
}

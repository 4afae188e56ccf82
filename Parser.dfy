/** The grammar-as-data Pratt parser of NextGenToDoApp/Parser.cs.

    The parsing procedures are specified by functions over the immutable token
    list and an index (ParseExpressionAt and its companions); the class
    ParseState holds the one mutable index, NextTokenIndex, and its methods
    mirror the source's procedures and are proved to deliver exactly what the
    functions say. */
module Parser {
  import opened Wrappers
  import opened Types
  import Lexer

  /** The union of the node kinds the parser, the type checker and the code
      generator refer to. */
  datatype NodeKind =
    | Expression
    | FunctionCall
    | StringLiteral
    | Identifier
    | Token
    | Program
    | Binding
    | FunctionDefinition
    | ParameterTuple
    | ParameterDefinition
    | ExplicitReturnType
    | ArgumentTuple
    | ListLiteral
    | TextLiteral
    | SingleLineComment

  /** A parse node. `ty` and `sym` are the annotations the type checker fills
      in; the parser leaves both empty. */
  datatype Node = Node(
    kind: NodeKind,
    children: seq<Node>,
    token: Option<Lexer.Token>,
    ty: Option<Type>,
    sym: Option<Symbol>)

  // ---------------------------------------------------------------------
  // Tree measures
  // ---------------------------------------------------------------------

  /** Number of nodes in a tree. */
  function Size(n: Node): nat
    decreases n
  {
    1 + SizeOf(n.children)
  }

  function SizeOf(ns: seq<Node>): nat
    decreases ns
  {
    if ns == [] then 0 else Size(ns[0]) + SizeOf(ns[1..])
  }

  lemma {:induction false} ElementSize(ns: seq<Node>, i: nat)
    requires i < |ns|
    ensures Size(ns[i]) <= SizeOf(ns)
    decreases i
  {
    if i > 0 {
      ElementSize(ns[1..], i - 1);
    }
  }

  lemma {:induction false} SizeOfPointwise(a: seq<Node>, b: seq<Node>)
    requires |a| == |b|
    requires forall i :: 0 <= i < |a| ==> Size(a[i]) == Size(b[i])
    ensures SizeOf(a) == SizeOf(b)
    decreases |a|
  {
    if a != [] {
      SizeOfPointwise(a[1..], b[1..]);
    }
  }

  /** The tree with every annotation removed: what the parser built. */
  function Erase(n: Node): (e: Node)
    ensures e.kind == n.kind && e.token == n.token && |e.children| == |n.children|
    decreases n
  {
    Node(n.kind, seq(|n.children|, i requires 0 <= i < |n.children| => Erase(n.children[i])), n.token, None, None)
  }

  /** The ParseNode constructor: no annotations yet. */
  function NewNode(kind: NodeKind, children: seq<Node>, token: Option<Lexer.Token>): Node {
    Node(kind, children, token, None, None)
  }

  datatype GrammarSymbol =
    | Terminal(tokenType: Lexer.TokenType)
    | Nonterminal(nodeKind: NodeKind)

  /** NonterminalDefinition and its two derived records. */
  datatype Rule =
    | Sequence(kind: NodeKind, rhs: seq<GrammarSymbol>)
    | Prefix(kind: NodeKind, rhs: seq<GrammarSymbol>)
    | Postfix(kind: NodeKind, rhs: seq<GrammarSymbol>, leftBindingPower: int)

  const StringLiteralRule: Rule := Prefix(StringLiteral, [Terminal(Lexer.StringLiteral)])
  const IdentifierRule: Rule := Prefix(Identifier, [Terminal(Lexer.Identifier)])
  const FunctionCallRule: Rule :=
    Postfix(
      FunctionCall,
      [Nonterminal(Expression), Terminal(Lexer.LeftParen), Nonterminal(Expression), Terminal(Lexer.RightParen)],
      12)

  const Grammar: seq<Rule> := [StringLiteralRule, IdentifierRule, FunctionCallRule]

  datatype ParseError =
    /** "Expected token type ... but got ..." */
    | UnexpectedToken(expected: Lexer.TokenType, got: Lexer.TokenType)
    /** The prefix dictionary has no entry for the next token. */
    | NoPrefixRule(tokenType: Lexer.TokenType)
    /** Reading or peeking past the last token. */
    | EndOfInput(index: nat)
    /** `Grammar.Single(...)` finds no rule, or several, for a node kind. */
    | NoUniqueRule(kind: NodeKind)
    /** `RHS.First()` or `RHS[1]` on a right-hand side that is too short. */
    | EmptyRule(kind: NodeKind)
    /** A postfix rule's operator FIRST set is not a singleton (`Single()`). */
    | NotSingleFirst(kind: NodeKind)
    /** `ToDictionary` meets a key twice. */
    | DuplicateKey(tokenType: Lexer.TokenType)
    /** FIRST-set recursion deeper than the grammar has rules: only a cyclic
        grammar gets here, where the source recurses without end. */
    | CyclicGrammar(kind: NodeKind)

  // ---------------------------------------------------------------------
  // The grammar and its dispatch tables
  // ---------------------------------------------------------------------

  function RulesFor(rules: seq<Rule>, kind: NodeKind): (rs: seq<Rule>)
    ensures forall r :: r in rs ==> r in rules && r.kind == kind
  {
    if rules == [] then []
    else (if rules[0].kind == kind then [rules[0]] else []) + RulesFor(rules[1..], kind)
  }

  /** `Grammar.Single(r => r.ParseNodeType == kind)`. */
  function SingleRule(kind: NodeKind): (r: Result<Rule, ParseError>)
    ensures r.Ok? ==> r.value in Grammar && r.value.kind == kind
  {
    var rs := RulesFor(Grammar, kind);
    if |rs| == 1 then Ok(rs[0]) else Err(NoUniqueRule(kind))
  }

  /** Each node kind with a rule has exactly one; Expression has none. */
  lemma RulesForGrammar(kind: NodeKind)
    ensures RulesFor(Grammar, kind) ==
      (if kind == StringLiteral then [StringLiteralRule] else [])
      + (if kind == Identifier then [IdentifierRule] else [])
      + (if kind == FunctionCall then [FunctionCallRule] else [])
  {
    var g := Grammar;
    assert g[1..] == [IdentifierRule, FunctionCallRule];
    assert g[1..][1..] == [FunctionCallRule];
    assert g[1..][1..][1..] == [];
    assert RulesFor(g[1..][1..][1..], kind) == [];
    assert RulesFor(g[1..][1..], kind) == if kind == FunctionCall then [FunctionCallRule] else [];
  }

  /** Every rule of the grammar starts with a terminal or an Expression, so a
      nonterminal lookup always consumes a token before it recurses. */
  lemma GrammarWellFormed()
    ensures forall r :: r in Grammar ==>
      r.rhs != [] && (r.rhs[0].Terminal? || r.rhs[0] == Nonterminal(Expression))
  {
  }

  /** FIRST set of a grammar symbol (GetPossibleFirstTokenTypes); `fuel`
      bounds the nonterminal chain. */
  ghost function FirstOfSymbol(sym: GrammarSymbol, fuel: nat): Result<set<Lexer.TokenType>, ParseError>
    decreases fuel, 1
  {
    match sym
    case Terminal(t) => Ok({t})
    case Nonterminal(k) =>
      if fuel == 0 then Err(CyclicGrammar(k))
      else
        var rule :- SingleRule(k);
        FirstOfRule(rule, fuel - 1)
  }

  /** FIRST set of a rule: that of the first symbol of its right-hand side. */
  ghost function FirstOfRule(rule: Rule, fuel: nat): Result<set<Lexer.TokenType>, ParseError>
    decreases fuel, 2
  {
    if rule.rhs == [] then Err(EmptyRule(rule.kind)) else FirstOfSymbol(rule.rhs[0], fuel)
  }

  ghost function FirstSet(sym: GrammarSymbol): Result<set<Lexer.TokenType>, ParseError> {
    FirstOfSymbol(sym, |Grammar|)
  }

  /** TokenTypeToPrefixExpressionDefinitions as derived: every prefix rule
      keyed by each token of its FIRST set, a repeated key failing. */
  ghost function BuildPrefixMap(rules: seq<Rule>): Result<map<Lexer.TokenType, Rule>, ParseError>
    decreases |rules|
  {
    if rules == [] then Ok(map[])
    else
      var m :- BuildPrefixMap(rules[..|rules| - 1]);
      var rule := rules[|rules| - 1];
      if !rule.Prefix? then Ok(m)
      else
        var firsts :- FirstOfRule(rule, |Grammar|);
        if firsts * m.Keys != {} then
          var t :| t in firsts * m.Keys; Err(DuplicateKey(t))
        else
          Ok(m + map t | t in firsts :: rule)
  }

  /** TokenTypeAfterExpressionToPostfixExpressionDefinitions as derived: every
      postfix rule keyed by the single token that can start its second symbol. */
  ghost function BuildPostfixMap(rules: seq<Rule>): Result<map<Lexer.TokenType, Rule>, ParseError>
    decreases |rules|
  {
    if rules == [] then Ok(map[])
    else
      var m :- BuildPostfixMap(rules[..|rules| - 1]);
      var rule := rules[|rules| - 1];
      if !rule.Postfix? then Ok(m)
      else if |rule.rhs| < 2 then Err(EmptyRule(rule.kind))
      else
        var firsts :- FirstSet(rule.rhs[1]);
        if |firsts| != 1 then Err(NotSingleFirst(rule.kind))
        else
          var t :| t in firsts;
          if t in m then Err(DuplicateKey(t)) else Ok(m[t := rule])
  }

  /** The prefix dispatch table the parser uses. */
  const PrefixTable: map<Lexer.TokenType, Rule> :=
    map[Lexer.StringLiteral := StringLiteralRule, Lexer.Identifier := IdentifierRule]

  /** The postfix dispatch table the parser uses. */
  const PostfixTable: map<Lexer.TokenType, Rule> := map[Lexer.LeftParen := FunctionCallRule]

  lemma PrefixTableShape()
    ensures forall t :: t in PrefixTable ==> PrefixTable[t].Prefix? && PrefixTable[t].rhs == [Terminal(t)]
  {
  }

  lemma PostfixTableShape()
    ensures forall t :: t in PostfixTable ==>
      PostfixTable[t].Postfix? && |PostfixTable[t].rhs| == 4 && PostfixTable[t].rhs[1] == Terminal(t)
  {
  }

  /** The FIRST set of a terminal is its own kind; that of a nonterminal is the
      FIRST set of its unique rule's first symbol. Expression has no rule of its
      own, so its FIRST set (and that of FunctionCall, which starts with an
      Expression) is a failed lookup. */
  lemma FirstSets()
    ensures forall t :: FirstSet(Terminal(t)) == Ok({t})
    ensures FirstSet(Nonterminal(StringLiteral)) == Ok({Lexer.StringLiteral})
    ensures FirstSet(Nonterminal(Identifier)) == Ok({Lexer.Identifier})
    ensures FirstSet(Nonterminal(Expression)) == Err(NoUniqueRule(Expression))
    ensures FirstSet(Nonterminal(FunctionCall)) == Err(NoUniqueRule(Expression))
  {
    RulesForGrammar(StringLiteral);
    RulesForGrammar(Identifier);
    RulesForGrammar(Expression);
    RulesForGrammar(FunctionCall);
    assert SingleRule(StringLiteral) == Ok(StringLiteralRule);
    assert SingleRule(Identifier) == Ok(IdentifierRule);
    assert SingleRule(FunctionCall) == Ok(FunctionCallRule);
    assert SingleRule(Expression) == Err(NoUniqueRule(Expression));
    assert FirstOfRule(StringLiteralRule, 2) == Ok({Lexer.StringLiteral});
    assert FirstOfRule(IdentifierRule, 2) == Ok({Lexer.Identifier});
    assert FirstOfSymbol(Nonterminal(Expression), 2) == Err(NoUniqueRule(Expression));
    assert FirstOfRule(FunctionCallRule, 2) == Err(NoUniqueRule(Expression));
  }

  /** The prefix table is what the FIRST-set derivation yields:
      StringLiteral to the StringLiteral rule, Identifier to the Identifier rule. */
  lemma PrefixTableDerived()
    ensures BuildPrefixMap(Grammar) == Ok(PrefixTable)
  {
    var g := Grammar;
    assert g[..2][..1] == [StringLiteralRule];
    assert g[..2][..1][..0] == [];
    assert FirstOfRule(StringLiteralRule, |Grammar|) == Ok({Lexer.StringLiteral});
    assert FirstOfRule(IdentifierRule, |Grammar|) == Ok({Lexer.Identifier});
    var m1 := map[Lexer.StringLiteral := StringLiteralRule];
    var f1: set<Lexer.TokenType> := {Lexer.StringLiteral};
    var f2: set<Lexer.TokenType> := {Lexer.Identifier};
    var c1 := map t | t in f1 :: StringLiteralRule;
    assert c1.Keys == f1;
    assert c1 == m1;
    assert BuildPrefixMap(g[..2][..1][..0]) == Ok(map[]);
    var empty: map<Lexer.TokenType, Rule> := map[];
    assert f1 * empty.Keys == {};
    assert empty + c1 == m1;
    assert BuildPrefixMap(g[..2][..1]) == Ok(m1);
    assert m1.Keys == f1;
    assert f2 * f1 == {};
    assert m1 + (map t | t in f2 :: IdentifierRule) == PrefixTable;
    assert BuildPrefixMap(g[..2]) == Ok(PrefixTable);
  }

  /** The postfix table is what the derivation yields: LeftParen to the
      FunctionCall rule, with left binding power 12. */
  lemma PostfixTableDerived()
    ensures BuildPostfixMap(Grammar) == Ok(PostfixTable)
    ensures PostfixTable[Lexer.LeftParen].leftBindingPower == 12
  {
    FirstSets();
    var g := Grammar;
    assert g[..2][..1] == [StringLiteralRule];
    assert g[..2][..1][..0] == [];
    assert BuildPostfixMap(g[..2][..1]) == Ok(map[]);
    assert BuildPostfixMap(g[..2]) == Ok(map[]);
    assert FirstSet(FunctionCallRule.rhs[1]) == Ok({Lexer.LeftParen});
  }

  // ---------------------------------------------------------------------
  // Parsing, as functions of the token list and the next index
  // ---------------------------------------------------------------------

  datatype Parsed = Parsed(node: Node, next: nat)
  datatype ParsedSeq = ParsedSeq(nodes: seq<Node>, next: nat)

  /** Termination ranks: within one token index, each procedure calls only
      procedures of lower rank. */
  function SymbolRank(sym: GrammarSymbol): nat {
    match sym
    case Terminal(_) => 0
    case Nonterminal(k) => if k == Expression then 10 else 20
  }

  function RuleRank(rule: Rule, skip: nat): nat {
    (if skip < |rule.rhs| then SymbolRank(rule.rhs[skip]) else 0) + 2
  }

  function NonterminalRank(kind: NodeKind): nat {
    if kind == Expression then 5 else 15
  }

  /** `RHS.Skip(count)`. */
  function Remaining(rule: Rule, count: nat): seq<GrammarSymbol> {
    if count <= |rule.rhs| then rule.rhs[count..] else []
  }

  function Cons(first: Parsed, rest: Result<ParsedSeq, ParseError>): Result<ParsedSeq, ParseError> {
    match rest
    case Ok(ps) => Ok(ParsedSeq([first.node] + ps.nodes, ps.next))
    case Err(e) => Err(e)
  }

  function Finish(kind: NodeKind, children: seq<Node>, rest: Result<ParsedSeq, ParseError>): Result<Parsed, ParseError> {
    match rest
    case Ok(ps) => Ok(Parsed(NewNode(kind, children + ps.nodes, None), ps.next))
    case Err(e) => Err(e)
  }

  /** ParseExpression(state, minBindingPower): a prefix expression, then
      postfix extensions binding at least as tightly as minBindingPower. */
  function ParseExpressionAt(tokens: seq<Lexer.Token>, pos: nat, minBindingPower: int): (r: Result<Parsed, ParseError>)
    requires pos <= |tokens|
    ensures r.Ok? ==> pos < r.value.next <= |tokens|
    decreases |tokens| - pos, 4
  {
    var prefix :- ParsePrefixAt(tokens, pos);
    ParsePostfixAt(tokens, prefix.node, prefix.next, minBindingPower)
  }

  /** ParsePrefixExpression: dispatch on the next token through the prefix table. */
  function ParsePrefixAt(tokens: seq<Lexer.Token>, pos: nat): (r: Result<Parsed, ParseError>)
    requires pos <= |tokens|
    ensures r.Ok? ==> pos < r.value.next <= |tokens|
    decreases |tokens| - pos, 3
  {
    if pos == |tokens| then Err(EndOfInput(pos))
    else if tokens[pos].kind !in PrefixTable then Err(NoPrefixRule(tokens[pos].kind))
    else
      PrefixTableShape();
      ParseRuleAt(tokens, PrefixTable[tokens[pos].kind], [], pos)
  }

  /** ParsePostfixAndInfixExpressions: extend `left` while the next token has a
      postfix rule whose left binding power is at least minBindingPower. */
  function ParsePostfixAt(tokens: seq<Lexer.Token>, left: Node, pos: nat, minBindingPower: int): (r: Result<Parsed, ParseError>)
    requires pos <= |tokens|
    ensures r.Ok? ==> pos <= r.value.next <= |tokens|
    decreases |tokens| - pos, 3
  {
    if pos == |tokens| then Ok(Parsed(left, pos))
    else
      var t := tokens[pos].kind;
      PostfixTableShape();
      if t !in PostfixTable || PostfixTable[t].leftBindingPower < minBindingPower then Ok(Parsed(left, pos))
      else
        var postfix :- ParseRuleAt(tokens, PostfixTable[t], [left], pos);
        ParsePostfixAt(tokens, postfix.node, postfix.next, minBindingPower)
  }

  /** ParseNonterminal(state, nodeType): Expression goes to ParseExpression
      with binding power 0, any other kind to its unique rule. */
  function ParseNonterminalAt(tokens: seq<Lexer.Token>, kind: NodeKind, pos: nat): (r: Result<Parsed, ParseError>)
    requires pos <= |tokens|
    ensures r.Ok? ==> pos < r.value.next <= |tokens|
    decreases |tokens| - pos, NonterminalRank(kind)
  {
    if kind == Expression then ParseExpressionAt(tokens, pos, 0)
    else
      var rule :- SingleRule(kind);
      GrammarWellFormed();
      ParseRuleAt(tokens, rule, [], pos)
  }

  /** ParseNonterminal(state, definition, parsedChildren): the symbols of the
      rule after those already parsed, in order, under one new node. */
  function ParseRuleAt(tokens: seq<Lexer.Token>, rule: Rule, parsed: seq<Node>, pos: nat): (r: Result<Parsed, ParseError>)
    requires pos <= |tokens|
    ensures r.Ok? ==> pos <= r.value.next <= |tokens|
    ensures r.Ok? && |parsed| < |rule.rhs| ==> pos < r.value.next
    decreases |tokens| - pos, RuleRank(rule, |parsed|)
  {
    Finish(rule.kind, parsed, ParseSymbolsAt(tokens, Remaining(rule, |parsed|), pos))
  }

  function ParseSymbolsAt(tokens: seq<Lexer.Token>, syms: seq<GrammarSymbol>, pos: nat): (r: Result<ParsedSeq, ParseError>)
    requires pos <= |tokens|
    ensures r.Ok? ==> |r.value.nodes| == |syms| && pos <= r.value.next <= |tokens|
    ensures r.Ok? && syms != [] ==> pos < r.value.next
    decreases |tokens| - pos, if syms == [] then 0 else SymbolRank(syms[0]) + 1
  {
    if syms == [] then Ok(ParsedSeq([], pos))
    else
      var first :- ParseSymbolAt(tokens, syms[0], pos);
      Cons(first, ParseSymbolsAt(tokens, syms[1..], first.next))
  }

  /** One symbol of a right-hand side: a terminal reads one token, which must
      be of its kind, into a childless Token node. */
  function ParseSymbolAt(tokens: seq<Lexer.Token>, sym: GrammarSymbol, pos: nat): (r: Result<Parsed, ParseError>)
    requires pos <= |tokens|
    ensures r.Ok? ==> pos < r.value.next <= |tokens|
    ensures r.Ok? && sym.Terminal? ==>
      && r.value.next == pos + 1
      && tokens[pos].kind == sym.tokenType
      && r.value.node == NewNode(Token, [], Some(tokens[pos]))
    decreases |tokens| - pos, SymbolRank(sym)
  {
    match sym
    case Terminal(tt) =>
      if pos == |tokens| then Err(EndOfInput(pos))
      else if tokens[pos].kind != tt then Err(UnexpectedToken(tt, tokens[pos].kind))
      else Ok(Parsed(NewNode(Token, [], Some(tokens[pos])), pos + 1))
    case Nonterminal(k) => ParseNonterminalAt(tokens, k, pos)
  }

  /** Parse(tokens): one expression from the first token on. */
  function ParseTokens(tokens: seq<Lexer.Token>): Result<Node, ParseError> {
    var p :- ParseExpressionAt(tokens, 0, 0);
    Ok(p.node)
  }

  // ---------------------------------------------------------------------
  // The mutable parse state
  // ---------------------------------------------------------------------

  class ParseState {
    const tokens: seq<Lexer.Token>
    var nextTokenIndex: nat

    constructor (tokens: seq<Lexer.Token>, nextTokenIndex: nat)
      requires nextTokenIndex <= |tokens|
      ensures this.tokens == tokens && this.nextTokenIndex == nextTokenIndex
    {
      this.tokens := tokens;
      this.nextTokenIndex := nextTokenIndex;
    }

    /** A parsing method's result and final index agree with its specification. */
    ghost predicate Delivers(r: Result<Node, ParseError>, spec: Result<Parsed, ParseError>)
      reads this
    {
      && nextTokenIndex <= |tokens|
      && match spec
         case Ok(p) => r == Ok(p.node) && nextTokenIndex == p.next
         case Err(e) => r == Err(e)
    }

    function TryPeekToken(): (t: Option<Lexer.Token>)
      reads this
      ensures t.Some? <==> nextTokenIndex < |tokens|
      ensures t.Some? ==> t.value == tokens[nextTokenIndex]
    {
      if nextTokenIndex < |tokens| then Some(tokens[nextTokenIndex]) else None
    }

    function PeekToken(): (t: Result<Lexer.Token, ParseError>)
      reads this
      ensures t.Ok? <==> nextTokenIndex < |tokens|
      ensures t.Ok? ==> t.value == tokens[nextTokenIndex]
      ensures t.Err? ==> t.error == EndOfInput(nextTokenIndex)
    {
      if nextTokenIndex < |tokens| then Ok(tokens[nextTokenIndex]) else Err(EndOfInput(nextTokenIndex))
    }

    /** Reads the next token and advances the index by exactly one. */
    method ReadToken() returns (r: Result<Lexer.Token, ParseError>)
      requires nextTokenIndex <= |tokens|
      modifies this
      ensures r == old(PeekToken())
      ensures nextTokenIndex == if r.Ok? then old(nextTokenIndex) + 1 else old(nextTokenIndex)
    {
      r := PeekToken();
      if r.Ok? {
        nextTokenIndex := nextTokenIndex + 1;
      }
    }

    method ParseExpression(minBindingPower: int) returns (r: Result<Node, ParseError>)
      requires nextTokenIndex <= |tokens|
      modifies this
      ensures Delivers(r, ParseExpressionAt(tokens, old(nextTokenIndex), minBindingPower))
      decreases |tokens| - nextTokenIndex, 4
    {
      var prefixExpression := ParsePrefixExpression();
      if prefixExpression.Err? {
        r := Err(prefixExpression.error);
        return;
      }
      r := ParsePostfixAndInfixExpressions(prefixExpression.value, minBindingPower);
    }

    method ParsePrefixExpression() returns (r: Result<Node, ParseError>)
      requires nextTokenIndex <= |tokens|
      modifies this
      ensures Delivers(r, ParsePrefixAt(tokens, old(nextTokenIndex)))
      decreases |tokens| - nextTokenIndex, 3
    {
      var nextToken := PeekToken();
      if nextToken.Err? {
        r := Err(nextToken.error);
        return;
      }
      if nextToken.value.kind !in PrefixTable {
        r := Err(NoPrefixRule(nextToken.value.kind));
        return;
      }
      PrefixTableShape();
      r := ParseNonterminalRule(PrefixTable[nextToken.value.kind], []);
    }

    method ParsePostfixAndInfixExpressions(left: Node, minBindingPower: int) returns (r: Result<Node, ParseError>)
      requires nextTokenIndex <= |tokens|
      modifies this
      ensures Delivers(r, ParsePostfixAt(tokens, left, old(nextTokenIndex), minBindingPower))
      decreases |tokens| - nextTokenIndex, 3
    {
      var nextToken := TryPeekToken();
      if nextToken.None? {
        r := Ok(left);
        return;
      }
      var t := nextToken.value.kind;
      PostfixTableShape();
      if t !in PostfixTable || PostfixTable[t].leftBindingPower < minBindingPower {
        r := Ok(left);
        return;
      }
      var postfixExpression := ParseNonterminalRule(PostfixTable[t], [left]);
      if postfixExpression.Err? {
        r := Err(postfixExpression.error);
        return;
      }
      r := ParsePostfixAndInfixExpressions(postfixExpression.value, minBindingPower);
    }

    method ParseNonterminal(kind: NodeKind) returns (r: Result<Node, ParseError>)
      requires nextTokenIndex <= |tokens|
      modifies this
      ensures Delivers(r, ParseNonterminalAt(tokens, kind, old(nextTokenIndex)))
      decreases |tokens| - nextTokenIndex, NonterminalRank(kind)
    {
      if kind == Expression {
        r := ParseExpression(0);
        return;
      }
      var rule := SingleRule(kind);
      if rule.Err? {
        r := Err(rule.error);
        return;
      }
      GrammarWellFormed();
      r := ParseNonterminalRule(rule.value, []);
    }

    /** The `foreach` over the right-hand side after the parsed children,
        appending one child per symbol. */
    method ParseNonterminalRule(rule: Rule, parsedChildren: seq<Node>) returns (r: Result<Node, ParseError>)
      requires nextTokenIndex <= |tokens|
      modifies this
      ensures Delivers(r, ParseRuleAt(tokens, rule, parsedChildren, old(nextTokenIndex)))
      decreases |tokens| - nextTokenIndex, RuleRank(rule, |parsedChildren|)
    {
      ghost var start := nextTokenIndex;
      var children := parsedChildren;
      var i := |parsedChildren|;
      while i < |rule.rhs|
        invariant |parsedChildren| <= i
        invariant i <= |rule.rhs| || i == |parsedChildren|
        invariant start <= nextTokenIndex <= |tokens|
        invariant i > |parsedChildren| ==> start < nextTokenIndex
        invariant ParseRuleAt(tokens, rule, parsedChildren, start)
          == Finish(rule.kind, children, ParseSymbolsAt(tokens, Remaining(rule, i), nextTokenIndex))
        decreases |rule.rhs| - i
      {
        ghost var first := ParseSymbolAt(tokens, rule.rhs[i], nextTokenIndex);
        RuleStep(tokens, rule, children, i, nextTokenIndex);
        var child := ParseSymbol(rule.rhs[i]);
        if child.Err? {
          r := Err(child.error);
          return;
        }
        assert first.Ok? && child.value == first.value.node && nextTokenIndex == first.value.next;
        children := children + [child.value];
        i := i + 1;
      }
      assert Remaining(rule, i) == [];
      assert children + [] == children;
      r := Ok(NewNode(rule.kind, children, None));
    }

    /** One step of that `foreach`: read a terminal, or recurse into a nonterminal. */
    method ParseSymbol(sym: GrammarSymbol) returns (r: Result<Node, ParseError>)
      requires nextTokenIndex <= |tokens|
      modifies this
      ensures Delivers(r, ParseSymbolAt(tokens, sym, old(nextTokenIndex)))
      decreases |tokens| - nextTokenIndex, SymbolRank(sym)
    {
      match sym {
        case Terminal(tokenType) =>
          var token := ReadToken();
          if token.Err? {
            r := Err(token.error);
            return;
          }
          if token.value.kind != tokenType {
            r := Err(UnexpectedToken(tokenType, token.value.kind));
            return;
          }
          r := Ok(NewNode(Token, [], Some(token.value)));
        case Nonterminal(nodeKind) =>
          r := ParseNonterminal(nodeKind);
      }
    }
  }

  /** Parsing the first of the remaining symbols either fails, failing the
      whole rule, or appends one child and moves on to the rest. */
  lemma SymbolStep(tokens: seq<Lexer.Token>, kind: NodeKind, children: seq<Node>, sym: GrammarSymbol, rest: seq<GrammarSymbol>, pos: nat)
    requires pos <= |tokens|
    ensures var first := ParseSymbolAt(tokens, sym, pos);
      Finish(kind, children, ParseSymbolsAt(tokens, [sym] + rest, pos)) ==
        if first.Err? then Err(first.error)
        else Finish(kind, children + [first.value.node], ParseSymbolsAt(tokens, rest, first.value.next))
  {
    assert ([sym] + rest)[0] == sym;
    assert ([sym] + rest)[1..] == rest;
    var first := ParseSymbolAt(tokens, sym, pos);
    if first.Ok? {
      FinishStep(kind, children, first.value, ParseSymbolsAt(tokens, rest, first.value.next));
    }
  }

  /** SymbolStep at the i-th symbol of a rule. */
  lemma RuleStep(tokens: seq<Lexer.Token>, rule: Rule, children: seq<Node>, i: nat, pos: nat)
    requires pos <= |tokens| && i < |rule.rhs|
    ensures var first := ParseSymbolAt(tokens, rule.rhs[i], pos);
      Finish(rule.kind, children, ParseSymbolsAt(tokens, Remaining(rule, i), pos)) ==
        if first.Err? then Err(first.error)
        else Finish(rule.kind, children + [first.value.node], ParseSymbolsAt(tokens, Remaining(rule, i + 1), first.value.next))
  {
    assert Remaining(rule, i) == [rule.rhs[i]] + Remaining(rule, i + 1);
    SymbolStep(tokens, rule.kind, children, rule.rhs[i], Remaining(rule, i + 1), pos);
  }

  lemma FinishStep(kind: NodeKind, children: seq<Node>, first: Parsed, rest: Result<ParsedSeq, ParseError>)
    ensures Finish(kind, children, Cons(first, rest)) == Finish(kind, children + [first.node], rest)
  {
    if rest.Ok? {
      assert children + ([first.node] + rest.value.nodes) == (children + [first.node]) + rest.value.nodes;
    }
  }

  /** Parse(tokens): a fresh state at index 0, then one expression. */
  method Parse(tokens: seq<Lexer.Token>) returns (r: Result<Node, ParseError>)
    ensures r == ParseTokens(tokens)
  {
    var state := new ParseState(tokens, 0);
    r := state.ParseExpression(0);
  }

  // ---------------------------------------------------------------------
  // Properties of the parser
  // ---------------------------------------------------------------------

  /** The tokens a node was built from, left to right. */
  function Leaves(n: Node): seq<Lexer.Token>
    decreases n
  {
    if n.kind == Token && n.token.Some? then [n.token.value] else LeavesOf(n.children)
  }

  function LeavesOf(ns: seq<Node>): seq<Lexer.Token>
    decreases ns
  {
    if ns == [] then [] else Leaves(ns[0]) + LeavesOf(ns[1..])
  }

  lemma {:induction false} LeavesOfAppend(a: seq<Node>, b: seq<Node>)
    ensures LeavesOf(a + b) == LeavesOf(a) + LeavesOf(b)
    decreases |a|
  {
    if a == [] {
      assert a + b == b;
    } else {
      assert (a + b)[0] == a[0];
      assert (a + b)[1..] == a[1..] + b;
      LeavesOfAppend(a[1..], b);
    }
  }

  /** Nothing is dropped or reordered: an expression parsed from `pos` has
      exactly the consumed tokens as its leaves. */
  lemma {:induction false} ExpressionYield(tokens: seq<Lexer.Token>, pos: nat, minBindingPower: int)
    requires pos <= |tokens|
    requires ParseExpressionAt(tokens, pos, minBindingPower).Ok?
    ensures var p := ParseExpressionAt(tokens, pos, minBindingPower).value;
      Leaves(p.node) == tokens[pos..p.next]
    decreases |tokens| - pos, 4
  {
    var prefix := ParsePrefixAt(tokens, pos).value;
    PrefixYield(tokens, pos);
    PostfixYield(tokens, prefix.node, prefix.next, minBindingPower);
    var p := ParseExpressionAt(tokens, pos, minBindingPower).value;
    assert tokens[pos..p.next] == tokens[pos..prefix.next] + tokens[prefix.next..p.next];
  }

  lemma {:induction false} PrefixYield(tokens: seq<Lexer.Token>, pos: nat)
    requires pos <= |tokens|
    requires ParsePrefixAt(tokens, pos).Ok?
    ensures var p := ParsePrefixAt(tokens, pos).value;
      Leaves(p.node) == tokens[pos..p.next]
    decreases |tokens| - pos, 3
  {
    PrefixTableShape();
    RuleYield(tokens, PrefixTable[tokens[pos].kind], [], pos);
  }

  lemma {:induction false} PostfixYield(tokens: seq<Lexer.Token>, left: Node, pos: nat, minBindingPower: int)
    requires pos <= |tokens|
    requires ParsePostfixAt(tokens, left, pos, minBindingPower).Ok?
    ensures var p := ParsePostfixAt(tokens, left, pos, minBindingPower).value;
      Leaves(p.node) == Leaves(left) + tokens[pos..p.next]
    decreases |tokens| - pos, 3, 1
  {
    PostfixTableShape();
    if pos == |tokens| || tokens[pos].kind !in PostfixTable
      || PostfixTable[tokens[pos].kind].leftBindingPower < minBindingPower {
      assert tokens[pos..pos] == [];
    } else {
      var postfix := PostfixStep(tokens, left, pos, minBindingPower);
      PostfixYield(tokens, postfix.node, postfix.next, minBindingPower);
      var p := ParsePostfixAt(tokens, left, pos, minBindingPower).value;
      SlicesJoin(tokens, Leaves(left), Leaves(postfix.node), Leaves(p.node), pos, postfix.next, p.next);
    }
  }

  lemma SlicesJoin<T>(s: seq<T>, front: seq<T>, middle: seq<T>, whole: seq<T>, i: nat, j: nat, k: nat)
    requires i <= j <= k <= |s|
    requires middle == front + s[i..j] && whole == middle + s[j..k]
    ensures whole == front + s[i..k]
  {
    assert s[i..k] == s[i..j] + s[j..k];
  }

  /** One application of a postfix rule, and the tokens it covers. */
  lemma PostfixStep(tokens: seq<Lexer.Token>, left: Node, pos: nat, minBindingPower: int) returns (postfix: Parsed)
    requires pos < |tokens| && tokens[pos].kind in PostfixTable
    requires PostfixTable[tokens[pos].kind].leftBindingPower >= minBindingPower
    requires ParsePostfixAt(tokens, left, pos, minBindingPower).Ok?
    ensures pos < postfix.next <= |tokens|
    ensures ParsePostfixAt(tokens, postfix.node, postfix.next, minBindingPower).Ok?
    ensures ParsePostfixAt(tokens, left, pos, minBindingPower) == ParsePostfixAt(tokens, postfix.node, postfix.next, minBindingPower)
    ensures Leaves(postfix.node) == Leaves(left) + tokens[pos..postfix.next]
    decreases |tokens| - pos, 3, 0
  {
    PostfixTableShape();
    var rule := PostfixTable[tokens[pos].kind];
    postfix := ParseRuleAt(tokens, rule, [left], pos).value;
    RuleYield(tokens, rule, [left], pos);
    assert LeavesOf([left]) == Leaves(left) + LeavesOf([]);
  }

  lemma {:induction false} NonterminalYield(tokens: seq<Lexer.Token>, kind: NodeKind, pos: nat)
    requires pos <= |tokens|
    requires ParseNonterminalAt(tokens, kind, pos).Ok?
    ensures var p := ParseNonterminalAt(tokens, kind, pos).value;
      Leaves(p.node) == tokens[pos..p.next]
    decreases |tokens| - pos, NonterminalRank(kind)
  {
    if kind == Expression {
      ExpressionYield(tokens, pos, 0);
    } else {
      GrammarWellFormed();
      RuleYield(tokens, SingleRule(kind).value, [], pos);
    }
  }

  lemma {:induction false} RuleYield(tokens: seq<Lexer.Token>, rule: Rule, parsed: seq<Node>, pos: nat)
    requires pos <= |tokens|
    requires ParseRuleAt(tokens, rule, parsed, pos).Ok?
    ensures var p := ParseRuleAt(tokens, rule, parsed, pos).value;
      Leaves(p.node) == LeavesOf(parsed) + tokens[pos..p.next]
    decreases |tokens| - pos, RuleRank(rule, |parsed|)
  {
    var rest := ParseSymbolsAt(tokens, Remaining(rule, |parsed|), pos).value;
    SymbolsYield(tokens, Remaining(rule, |parsed|), pos);
    LeavesOfAppend(parsed, rest.nodes);
  }

  lemma {:induction false} SymbolsYield(tokens: seq<Lexer.Token>, syms: seq<GrammarSymbol>, pos: nat)
    requires pos <= |tokens|
    requires ParseSymbolsAt(tokens, syms, pos).Ok?
    ensures var p := ParseSymbolsAt(tokens, syms, pos).value;
      LeavesOf(p.nodes) == tokens[pos..p.next]
    decreases |tokens| - pos, if syms == [] then 0 else SymbolRank(syms[0]) + 1
  {
    if syms != [] {
      var first := ParseSymbolAt(tokens, syms[0], pos).value;
      var rest := ParseSymbolsAt(tokens, syms[1..], first.next).value;
      SymbolYield(tokens, syms[0], pos);
      SymbolsYield(tokens, syms[1..], first.next);
      var nodes := [first.node] + rest.nodes;
      assert nodes[0] == first.node && nodes[1..] == rest.nodes;
      assert tokens[pos..rest.next] == tokens[pos..first.next] + tokens[first.next..rest.next];
    }
  }

  lemma {:induction false} SymbolYield(tokens: seq<Lexer.Token>, sym: GrammarSymbol, pos: nat)
    requires pos <= |tokens|
    requires ParseSymbolAt(tokens, sym, pos).Ok?
    ensures var p := ParseSymbolAt(tokens, sym, pos).value;
      Leaves(p.node) == tokens[pos..p.next]
    decreases |tokens| - pos, SymbolRank(sym)
  {
    match sym
    case Terminal(_) =>
    case Nonterminal(k) => NonterminalYield(tokens, k, pos);
  }

  /** Parse consumes a prefix of the tokens: the tree's leaves are exactly the
      first `next` tokens, and anything after them is left unread. */
  lemma ParseYield(tokens: seq<Lexer.Token>)
    requires ParseExpressionAt(tokens, 0, 0).Ok?
    ensures var p := ParseExpressionAt(tokens, 0, 0).value;
      0 < p.next <= |tokens| && Leaves(p.node) == tokens[..p.next]
  {
    ExpressionYield(tokens, 0, 0);
  }

  /** A childless Token node holding a token of kind `tt`. */
  ghost predicate IsTokenNode(n: Node, tt: Lexer.TokenType) {
    n.token.Some? && n == NewNode(Token, [], n.token) && n.token.value.kind == tt
  }

  /** The trees this grammar yields: an unannotated StringLiteral or
      Identifier node over one token, or a FunctionCall node with exactly
      four children — callee, "(", argument, ")". */
  ghost predicate IsExpressionNode(n: Node)
    decreases n
  {
    && n.token.None? && n.ty.None? && n.sym.None?
    && match n.kind
       case StringLiteral => |n.children| == 1 && IsTokenNode(n.children[0], Lexer.StringLiteral)
       case Identifier => |n.children| == 1 && IsTokenNode(n.children[0], Lexer.Identifier)
       case FunctionCall =>
         && |n.children| == 4
         && IsExpressionNode(n.children[0])
         && IsTokenNode(n.children[1], Lexer.LeftParen)
         && IsExpressionNode(n.children[2])
         && IsTokenNode(n.children[3], Lexer.RightParen)
       case _ => false
  }

  /** A prefix expression is exactly one StringLiteral or Identifier token;
      the end of input and any other token kind fail. */
  lemma PrefixExpressionIsOneToken(tokens: seq<Lexer.Token>, pos: nat)
    requires pos <= |tokens|
    ensures pos == |tokens| ==> ParsePrefixAt(tokens, pos) == Err(EndOfInput(pos))
    ensures pos < |tokens| && tokens[pos].kind == Lexer.Identifier ==>
      ParsePrefixAt(tokens, pos) == Ok(Parsed(NewNode(Identifier, [NewNode(Token, [], Some(tokens[pos]))], None), pos + 1))
    ensures pos < |tokens| && tokens[pos].kind == Lexer.StringLiteral ==>
      ParsePrefixAt(tokens, pos) == Ok(Parsed(NewNode(StringLiteral, [NewNode(Token, [], Some(tokens[pos]))], None), pos + 1))
    ensures pos < |tokens| && tokens[pos].kind !in {Lexer.Identifier, Lexer.StringLiteral} ==>
      ParsePrefixAt(tokens, pos) == Err(NoPrefixRule(tokens[pos].kind))
  {
    if pos < |tokens| && tokens[pos].kind in PrefixTable {
      var rule := PrefixTable[tokens[pos].kind];
      var syms := Remaining(rule, 0);
      assert syms == [Terminal(tokens[pos].kind)];
      assert syms[1..] == [];
      var leaf := NewNode(Token, [], Some(tokens[pos]));
      assert ParseSymbolAt(tokens, syms[0], pos) == Ok(Parsed(leaf, pos + 1));
      assert ParseSymbolsAt(tokens, syms[1..], pos + 1) == Ok(ParsedSeq([], pos + 1));
      assert [leaf] + [] == [leaf];
      assert ParseSymbolsAt(tokens, syms, pos) == Ok(ParsedSeq([leaf], pos + 1));
      assert [] + [leaf] == [leaf];
    }
  }

  /** Postfix extension stops, returning `left` untouched, exactly at the end
      of input, before a token other than "(", or when the minimum binding
      power exceeds the call's 12; otherwise it consumes tokens or fails. */
  lemma PostfixStops(tokens: seq<Lexer.Token>, left: Node, pos: nat, minBindingPower: int)
    requires pos <= |tokens|
    ensures var stop := pos == |tokens| || tokens[pos].kind != Lexer.LeftParen || 12 < minBindingPower;
      var r := ParsePostfixAt(tokens, left, pos, minBindingPower);
      && (stop ==> r == Ok(Parsed(left, pos)))
      && (!stop ==> r.Err? || pos < r.value.next)
  {
    if pos < |tokens| && tokens[pos].kind == Lexer.LeftParen && minBindingPower <= 12 {
      assert ParseRuleAt(tokens, FunctionCallRule, [left], pos).Ok? ==>
        pos < ParseRuleAt(tokens, FunctionCallRule, [left], pos).value.next;
    }
  }

  /** A minimum binding power above 12 admits no call: the expression is its
      prefix alone. */
  lemma BindingPowerGate(tokens: seq<Lexer.Token>, pos: nat, minBindingPower: int)
    requires pos <= |tokens| && 12 < minBindingPower
    ensures ParseExpressionAt(tokens, pos, minBindingPower) == ParsePrefixAt(tokens, pos)
  {
    var prefix := ParsePrefixAt(tokens, pos);
    if prefix.Ok? {
      PostfixStops(tokens, prefix.value.node, prefix.value.next, minBindingPower);
    }
  }

  /** Every parsed expression has the shape IsExpressionNode describes. */
  lemma {:induction false} ExpressionShape(tokens: seq<Lexer.Token>, pos: nat, minBindingPower: int)
    requires pos <= |tokens|
    requires ParseExpressionAt(tokens, pos, minBindingPower).Ok?
    ensures IsExpressionNode(ParseExpressionAt(tokens, pos, minBindingPower).value.node)
    decreases |tokens| - pos, 4
  {
    var prefix := ParsePrefixAt(tokens, pos).value;
    PrefixExpressionIsOneToken(tokens, pos);
    PostfixShape(tokens, prefix.node, prefix.next, minBindingPower);
  }

  lemma {:induction false} PostfixShape(tokens: seq<Lexer.Token>, left: Node, pos: nat, minBindingPower: int)
    requires pos <= |tokens|
    requires IsExpressionNode(left)
    requires ParsePostfixAt(tokens, left, pos, minBindingPower).Ok?
    ensures IsExpressionNode(ParsePostfixAt(tokens, left, pos, minBindingPower).value.node)
    decreases |tokens| - pos, 3
  {
    PostfixStops(tokens, left, pos, minBindingPower);
    if pos < |tokens| && tokens[pos].kind == Lexer.LeftParen && minBindingPower <= 12 {
      var call := CallShape(tokens, left, pos);
      PostfixShape(tokens, call.node, call.next, minBindingPower);
    }
  }

  /** One application of the call rule to `left`: "(" Expression ")". */
  lemma {:induction false} CallShape(tokens: seq<Lexer.Token>, left: Node, pos: nat) returns (call: Parsed)
    requires pos < |tokens| && tokens[pos].kind == Lexer.LeftParen
    requires IsExpressionNode(left)
    requires ParseRuleAt(tokens, FunctionCallRule, [left], pos).Ok?
    ensures call == ParseRuleAt(tokens, FunctionCallRule, [left], pos).value
    ensures IsExpressionNode(call.node) && call.node.kind == FunctionCall && call.node.children[0] == left
    decreases |tokens| - pos, 2
  {
    call := ParseRuleAt(tokens, FunctionCallRule, [left], pos).value;
    var syms := Remaining(FunctionCallRule, 1);
    assert syms == [Terminal(Lexer.LeftParen), Nonterminal(Expression), Terminal(Lexer.RightParen)];
    var all := ParseSymbolsAt(tokens, syms, pos);
    assert all.Ok?;
    var open := ParseSymbolAt(tokens, syms[0], pos).value;
    var rest1 := ParseSymbolsAt(tokens, syms[1..], open.next);
    assert rest1.Ok?;
    var arg := ParseSymbolAt(tokens, syms[1], open.next).value;
    assert ParseSymbolAt(tokens, syms[1], open.next) == ParseExpressionAt(tokens, open.next, 0);
    ExpressionShape(tokens, open.next, 0);
    var rest2 := ParseSymbolsAt(tokens, syms[1..][1..], arg.next);
    assert rest2.Ok?;
    var close := ParseSymbolAt(tokens, syms[2], arg.next).value;
    assert syms[1..][1..] == [syms[2]];
    assert syms[1..][1..][1..] == [];
    assert rest2.value.nodes == [close.node];
    assert rest1.value.nodes == [arg.node, close.node];
    assert all.value.nodes == [open.node, arg.node, close.node];
    assert call.node.children == [left, open.node, arg.node, close.node];
  }

  /** The call rule in full: after "(", an argument expression at binding
      power 0 and then ")"; each failure is the first one met. */
  lemma CallRule(tokens: seq<Lexer.Token>, left: Node, pos: nat)
    requires pos < |tokens| && tokens[pos].kind == Lexer.LeftParen
    ensures var arg := ParseExpressionAt(tokens, pos + 1, 0);
      var r := ParseRuleAt(tokens, FunctionCallRule, [left], pos);
      && (arg.Err? ==> r == Err(arg.error))
      && (arg.Ok? && arg.value.next == |tokens| ==> r == Err(EndOfInput(|tokens|)))
      && (arg.Ok? && arg.value.next < |tokens| && tokens[arg.value.next].kind != Lexer.RightParen ==>
            r == Err(UnexpectedToken(Lexer.RightParen, tokens[arg.value.next].kind)))
      && (arg.Ok? && arg.value.next < |tokens| && tokens[arg.value.next].kind == Lexer.RightParen ==>
            r == Ok(Parsed(
              NewNode(FunctionCall,
                [left, NewNode(Token, [], Some(tokens[pos])), arg.value.node, NewNode(Token, [], Some(tokens[arg.value.next]))],
                None),
              arg.value.next + 1)))
  {
    var syms := Remaining(FunctionCallRule, 1);
    assert syms == [Terminal(Lexer.LeftParen), Nonterminal(Expression), Terminal(Lexer.RightParen)];
    var s1 := syms[1..];
    var s2 := s1[1..];
    assert s1[0] == Nonterminal(Expression) && s2 == [Terminal(Lexer.RightParen)] && s2[1..] == [];
    var open := NewNode(Token, [], Some(tokens[pos]));
    assert ParseSymbolAt(tokens, syms[0], pos) == Ok(Parsed(open, pos + 1));
    assert ParseSymbolsAt(tokens, syms, pos) == Cons(Parsed(open, pos + 1), ParseSymbolsAt(tokens, s1, pos + 1));
    var arg := ParseExpressionAt(tokens, pos + 1, 0);
    assert ParseSymbolAt(tokens, s1[0], pos + 1) == arg;
    if arg.Err? {
      assert ParseSymbolsAt(tokens, s1, pos + 1) == Err(arg.error);
    } else {
      var n := arg.value.next;
      assert ParseSymbolsAt(tokens, s1, pos + 1) == Cons(arg.value, ParseSymbolsAt(tokens, s2, n));
      if n < |tokens| && tokens[n].kind == Lexer.RightParen {
        var close := NewNode(Token, [], Some(tokens[n]));
        assert ParseSymbolAt(tokens, s2[0], n) == Ok(Parsed(close, n + 1));
        assert ParseSymbolsAt(tokens, s2[1..], n + 1) == Ok(ParsedSeq([], n + 1));
        assert [close] + [] == [close];
        assert ParseSymbolsAt(tokens, s2, n) == Ok(ParsedSeq([close], n + 1));
        assert [arg.value.node] + [close] == [arg.value.node, close];
        assert [open] + [arg.value.node, close] == [open, arg.value.node, close];
        assert [left] + [open, arg.value.node, close] == [left, open, arg.value.node, close];
      }
    }
  }

  const TokF: Lexer.Token := Lexer.Token(Lexer.Identifier, "f")
  const TokA: Lexer.Token := Lexer.Token(Lexer.Identifier, "a")
  const TokB: Lexer.Token := Lexer.Token(Lexer.Identifier, "b")
  const TokOpen: Lexer.Token := Lexer.Token(Lexer.LeftParen, "(")
  const TokClose: Lexer.Token := Lexer.Token(Lexer.RightParen, ")")
  const TokComma: Lexer.Token := Lexer.Token(Lexer.Comma, ",")

  function Leaf(t: Lexer.Token): Node {
    NewNode(Token, [], Some(t))
  }

  function Ident(t: Lexer.Token): Node {
    NewNode(Identifier, [Leaf(t)], None)
  }

  /** Nothing to parse: the first peek fails. */
  lemma EmptyInputFails()
    ensures ParseTokens([]) == Err(EndOfInput(0))
  {
    PrefixExpressionIsOneToken([], 0);
  }

  /** Parse reads one expression and ignores what follows it: "x y" yields
      the identifier x alone. */
  lemma TrailingTokensIgnored()
    ensures ParseTokens([TokA, TokB]) == Ok(Ident(TokA))
  {
    var tokens := [TokA, TokB];
    PrefixExpressionIsOneToken(tokens, 0);
    assert ParsePrefixAt(tokens, 0) == Ok(Parsed(Ident(TokA), 1));
    PostfixStops(tokens, Ident(TokA), 1, 0);
    assert ParsePostfixAt(tokens, Ident(TokA), 1, 0) == Ok(Parsed(Ident(TokA), 1));
    assert ParseExpressionAt(tokens, 0, 0) == Ok(Parsed(Ident(TokA), 1));
  }

  /** Calls nest to the left: f(a)(b) is the call of f(a) with argument b. */
  lemma CallsNestLeft()
    ensures ParseTokens([TokF, TokOpen, TokA, TokClose, TokOpen, TokB, TokClose]) ==
      Ok(NewNode(FunctionCall,
        [NewNode(FunctionCall, [Ident(TokF), Leaf(TokOpen), Ident(TokA), Leaf(TokClose)], None),
         Leaf(TokOpen), Ident(TokB), Leaf(TokClose)],
        None))
  {
    var tokens := [TokF, TokOpen, TokA, TokClose, TokOpen, TokB, TokClose];
    var inner := NewNode(FunctionCall, [Ident(TokF), Leaf(TokOpen), Ident(TokA), Leaf(TokClose)], None);
    var outer := NewNode(FunctionCall, [inner, Leaf(TokOpen), Ident(TokB), Leaf(TokClose)], None);
    PrefixExpressionIsOneToken(tokens, 2);
    PostfixStops(tokens, Ident(TokA), 3, 0);
    assert ParseExpressionAt(tokens, 2, 0) == Ok(Parsed(Ident(TokA), 3));
    CallRule(tokens, Ident(TokF), 1);
    assert ParseRuleAt(tokens, FunctionCallRule, [Ident(TokF)], 1) == Ok(Parsed(inner, 4));
    PrefixExpressionIsOneToken(tokens, 5);
    PostfixStops(tokens, Ident(TokB), 6, 0);
    assert ParseExpressionAt(tokens, 5, 0) == Ok(Parsed(Ident(TokB), 6));
    CallRule(tokens, inner, 4);
    assert ParseRuleAt(tokens, FunctionCallRule, [inner], 4) == Ok(Parsed(outer, 7));
    PostfixStops(tokens, outer, 7, 0);
    assert ParsePostfixAt(tokens, inner, 4, 0) == Ok(Parsed(outer, 7));
    assert ParsePostfixAt(tokens, Ident(TokF), 1, 0) == Ok(Parsed(outer, 7));
    PrefixExpressionIsOneToken(tokens, 0);
    assert ParseExpressionAt(tokens, 0, 0) == Ok(Parsed(outer, 7));
  }

  /** The grammar has no argument lists: "f(a, b)" fails at the comma. */
  lemma CommaIsUnexpected()
    ensures ParseTokens([TokF, TokOpen, TokA, TokComma, TokB, TokClose]) ==
      Err(UnexpectedToken(Lexer.RightParen, Lexer.Comma))
  {
    var tokens := [TokF, TokOpen, TokA, TokComma, TokB, TokClose];
    PrefixExpressionIsOneToken(tokens, 2);
    PostfixStops(tokens, Ident(TokA), 3, 0);
    assert ParseExpressionAt(tokens, 2, 0) == Ok(Parsed(Ident(TokA), 3));
    CallRule(tokens, Ident(TokF), 1);
    assert ParsePostfixAt(tokens, Ident(TokF), 1, 0) == Err(UnexpectedToken(Lexer.RightParen, Lexer.Comma));
    PrefixExpressionIsOneToken(tokens, 0);
    assert ParseExpressionAt(tokens, 0, 0) == Err(UnexpectedToken(Lexer.RightParen, Lexer.Comma));
  }

  /** An empty argument fails: in "f()" no prefix rule starts with ")". */
  lemma EmptyArgumentFails()
    ensures ParseTokens([TokF, TokOpen, TokClose]) == Err(NoPrefixRule(Lexer.RightParen))
  {
    var tokens := [TokF, TokOpen, TokClose];
    PrefixExpressionIsOneToken(tokens, 2);
    assert ParseExpressionAt(tokens, 2, 0) == Err(NoPrefixRule(Lexer.RightParen));
    CallRule(tokens, Ident(TokF), 1);
    assert ParsePostfixAt(tokens, Ident(TokF), 1, 0) == Err(NoPrefixRule(Lexer.RightParen));
    PrefixExpressionIsOneToken(tokens, 0);
    assert ParseExpressionAt(tokens, 0, 0) == Err(NoPrefixRule(Lexer.RightParen));
  }

  /** An unclosed call runs out of tokens: "f(a" fails reading index 3. */
  lemma UnclosedCallFails()
    ensures ParseTokens([TokF, TokOpen, TokA]) == Err(EndOfInput(3))
  {
    var tokens := [TokF, TokOpen, TokA];
    PrefixExpressionIsOneToken(tokens, 2);
    PostfixStops(tokens, Ident(TokA), 3, 0);
    assert ParseExpressionAt(tokens, 2, 0) == Ok(Parsed(Ident(TokA), 3));
    CallRule(tokens, Ident(TokF), 1);
    assert ParsePostfixAt(tokens, Ident(TokF), 1, 0) == Err(EndOfInput(3));
    PrefixExpressionIsOneToken(tokens, 0);
    assert ParseExpressionAt(tokens, 0, 0) == Err(EndOfInput(3));
  }
}

/** The scanner of NextGenToDoApp/Lexer.cs: source text to a flat list of tokens.
    The seven anchored regular expressions of the pattern table are modelled as
    character predicates and maximal scans; `char.IsWhiteSpace` as the fixed set
    of characters .NET classifies as white space. */
module Lexer {
  import opened Wrappers

  datatype TokenType =
    | Identifier
    | LeftParen
    | RightParen
    | LeftSquareBracket
    | RightSquareBracket
    | Comma
    | StringLiteral

  datatype Token = Token(kind: TokenType, text: string)

  datatype LexError =
    /** "Unexpected character at index i: 'c'" */
    | UnexpectedCharacter(index: nat, c: char)
    /** The error message itself indexes one past the end of the source. */
    | IndexOutOfRange

  /** The pattern table, in declaration order. */
  const TokenPatterns: seq<TokenType> :=
    [Identifier, LeftParen, RightParen, LeftSquareBracket, RightSquareBracket, Comma, StringLiteral]

  predicate IsAsciiLetter(c: char) {
    'a' <= c <= 'z' || 'A' <= c <= 'Z'
  }

  predicate IsAsciiLetterOrDigit(c: char) {
    IsAsciiLetter(c) || '0' <= c <= '9'
  }

  /** The characters `char.IsWhiteSpace` accepts: the Unicode separators and
      the controls U+0009..U+000D and U+0085. */
  predicate IsWhiteSpace(c: char) {
    || '\U{9}' <= c <= '\U{D}'
    || c == ' '
    || c == '\U{85}'
    || c == '\U{A0}'
    || c == '\U{1680}'
    || '\U{2000}' <= c <= '\U{200A}'
    || c == '\U{2028}'
    || c == '\U{2029}'
    || c == '\U{202F}'
    || c == '\U{205F}'
    || c == '\U{3000}'
  }

  /** Length of the longest run of ASCII letters and digits starting at i
      (the `[a-zA-Z0-9]*` part of the identifier pattern). */
  function AlnumRun(s: string, i: nat): (n: nat)
    requires i <= |s|
    ensures i + n <= |s|
    ensures forall k :: i <= k < i + n ==> IsAsciiLetterOrDigit(s[k])
    ensures i + n == |s| || !IsAsciiLetterOrDigit(s[i + n])
    decreases |s| - i
  {
    if i < |s| && IsAsciiLetterOrDigit(s[i]) then 1 + AlnumRun(s, i + 1) else 0
  }

  /** Length of the longest run of characters other than '"' starting at i
      (the `[^"]*` part of the string-literal pattern). */
  function NonQuoteRun(s: string, i: nat): (n: nat)
    requires i <= |s|
    ensures i + n <= |s|
    ensures forall k :: i <= k < i + n ==> s[k] != '"'
    ensures i + n == |s| || s[i + n] == '"'
    decreases |s| - i
  {
    if i < |s| && s[i] != '"' then 1 + NonQuoteRun(s, i + 1) else 0
  }

  /** The length of the match of `kind`'s pattern anchored at index i, if any. */
  function MatchPattern(kind: TokenType, s: string, i: nat): (m: Option<nat>)
    requires i <= |s|
    ensures m.Some? ==> 1 <= m.value && i + m.value <= |s|
  {
    if i == |s| then None
    else
      match kind
      case Identifier =>
        if IsAsciiLetter(s[i]) then Some(1 + AlnumRun(s, i + 1)) else None
      case LeftParen => if s[i] == '(' then Some(1) else None
      case RightParen => if s[i] == ')' then Some(1) else None
      case LeftSquareBracket => if s[i] == '[' then Some(1) else None
      case RightSquareBracket => if s[i] == ']' then Some(1) else None
      case Comma => if s[i] == ',' then Some(1) else None
      case StringLiteral =>
        if s[i] == '"' then
          var n := NonQuoteRun(s, i + 1);
          if i + 1 + n < |s| then Some(n + 2) else None
        else None
  }

  /** The first pattern of `order` that matches at i (the `foreach` that breaks
      on the first match). */
  function FirstMatch(order: seq<TokenType>, s: string, i: nat): Option<(TokenType, nat)>
    requires i <= |s|
  {
    if order == [] then None
    else
      match MatchPattern(order[0], s, i)
      case Some(n) => Some((order[0], n))
      case None => FirstMatch(order[1..], s, i)
  }

  /** The index SkipWhitespace stops at. */
  function SkipWhiteSpace(s: string, i: nat): (j: nat)
    requires i <= |s|
    ensures i <= j <= |s|
    ensures forall k :: i <= k < j ==> IsWhiteSpace(s[k])
    ensures j == |s| || !IsWhiteSpace(s[j])
    decreases |s| - i
  {
    if i < |s| && IsWhiteSpace(s[i]) then SkipWhiteSpace(s, i + 1) else i
  }

  /** What Tokenize computes from index i on. */
  function LexFrom(s: string, i: nat): Result<seq<Token>, LexError>
    requires i <= |s|
    decreases |s| - i
  {
    if i == |s| then Ok([])
    else
      var j := SkipWhiteSpace(s, i);
      match FirstMatch(TokenPatterns, s, j)
      case None => Err(if j < |s| then UnexpectedCharacter(j, s[j]) else IndexOutOfRange)
      case Some((kind, n)) =>
        MatchInTable(kind, s, j);
        Prepend([Token(kind, s[j..j + n])], LexFrom(s, j + n))
  }

  /** One iteration of the scanner loop, in terms of LexFrom. */
  lemma {:induction false} PrependTwice(before: seq<Token>, t: Token, after: seq<Token>, r: Result<seq<Token>, LexError>)
    requires after == before + [t]
    ensures Prepend(before, Prepend([t], r)) == Prepend(after, r)
  {
    if r.Ok? {
      assert before + ([t] + r.value) == after + r.value;
    }
  }

  /** LexFrom at i in terms of LexFrom after the first token. */
  lemma {:induction false} LexUnfold(s: string, i: nat, j: nat, kind: TokenType, n: nat, next: nat)
    requires i < |s| && j == SkipWhiteSpace(s, i)
    requires FirstMatch(TokenPatterns, s, j) == Some((kind, n))
    requires next == j + n && next <= |s|
    ensures LexFrom(s, i) == Prepend([Token(kind, s[j..next])], LexFrom(s, next))
  {
    MatchInTable(kind, s, j);
  }

  /** The failing iteration of the scanner loop. */
  lemma {:induction false} LexNoMatch(s: string, i: nat, j: nat)
    requires i < |s| && j == SkipWhiteSpace(s, i)
    requires FirstMatch(TokenPatterns, s, j) == None
    ensures LexFrom(s, i) == Err(if j < |s| then UnexpectedCharacter(j, s[j]) else IndexOutOfRange)
  {
  }

  function Prepend(tokens: seq<Token>, r: Result<seq<Token>, LexError>): Result<seq<Token>, LexError> {
    match r
    case Ok(rest) => Ok(tokens + rest)
    case Err(e) => Err(e)
  }

  /** The local SkipWhitespace: advance past white space. */
  method SkipWhitespace(sourceCode: string, start: nat) returns (nextCharIndex: nat)
    requires start <= |sourceCode|
    ensures nextCharIndex == SkipWhiteSpace(sourceCode, start)
  {
    nextCharIndex := start;
    while nextCharIndex < |sourceCode| && IsWhiteSpace(sourceCode[nextCharIndex])
      invariant start <= nextCharIndex <= |sourceCode|
      invariant SkipWhiteSpace(sourceCode, start) == SkipWhiteSpace(sourceCode, nextCharIndex)
    {
      nextCharIndex := nextCharIndex + 1;
    }
  }

  /** The loop over the pattern table: the first pattern that matches at j. */
  method MatchAt(sourceCode: string, j: nat) returns (m: Option<(TokenType, nat)>)
    requires j <= |sourceCode|
    ensures m == FirstMatch(TokenPatterns, sourceCode, j)
  {
    var p := 0;
    while p < |TokenPatterns|
      invariant p <= |TokenPatterns|
      invariant FirstMatch(TokenPatterns, sourceCode, j) == FirstMatch(TokenPatterns[p..], sourceCode, j)
    {
      var kind := TokenPatterns[p];
      var n := MatchPattern(kind, sourceCode, j);
      assert TokenPatterns[p..] == [kind] + TokenPatterns[p + 1..];
      if n.Some? {
        return Some((kind, n.value));
      }
      p := p + 1;
    }
    assert TokenPatterns[p..] == [];
    return None;
  }

  /** The scanner loop: skip white space, try the patterns in table order,
      append the first match, or fail. */
  method Tokenize(sourceCode: string) returns (r: Result<seq<Token>, LexError>)
    ensures r == LexFrom(sourceCode, 0)
  {
    var nextCharIndex := 0;
    var tokens: seq<Token> := [];
    ghost var whole := LexFrom(sourceCode, 0);
    if whole.Ok? {
      assert tokens + whole.value == whole.value;
    }

    while nextCharIndex < |sourceCode|
      invariant nextCharIndex <= |sourceCode|
      invariant LexFrom(sourceCode, 0) == Prepend(tokens, LexFrom(sourceCode, nextCharIndex))
      decreases |sourceCode| - nextCharIndex
    {
      var start := nextCharIndex;
      nextCharIndex := SkipWhitespace(sourceCode, start);
      var m := MatchAt(sourceCode, nextCharIndex);
      if m.None? {
        LexNoMatch(sourceCode, start, nextCharIndex);
        if nextCharIndex < |sourceCode| {
          r := Err(UnexpectedCharacter(nextCharIndex, sourceCode[nextCharIndex]));
        } else {
          r := Err(IndexOutOfRange);
        }
        return;
      }
      var (kind, n) := m.value;
      MatchInTable(kind, sourceCode, nextCharIndex);
      var next := nextCharIndex + n;
      var t := Token(kind, sourceCode[nextCharIndex..next]);
      LexUnfold(sourceCode, start, nextCharIndex, kind, n, next);
      PrependTwice(tokens, t, tokens + [t], LexFrom(sourceCode, next));
      tokens, nextCharIndex := tokens + [t], next;
    }
    assert tokens + [] == tokens;
    r := Ok(tokens);
  }

  // ---------------------------------------------------------------------
  // The patterns
  // ---------------------------------------------------------------------

  /** Letter or digit runs are unique: any run bounded by a non-alphanumeric
      character (or the end) is the one AlnumRun finds. */
  lemma {:induction false} AlnumRunUnique(s: string, i: nat, n: nat)
    requires i + n <= |s|
    requires forall k :: i <= k < i + n ==> IsAsciiLetterOrDigit(s[k])
    requires i + n == |s| || !IsAsciiLetterOrDigit(s[i + n])
    ensures AlnumRun(s, i) == n
    decreases n
  {
    if n > 0 {
      AlnumRunUnique(s, i + 1, n - 1);
    }
  }

  lemma {:induction false} NonQuoteRunUnique(s: string, i: nat, n: nat)
    requires i + n <= |s|
    requires forall k :: i <= k < i + n ==> s[k] != '"'
    requires i + n == |s| || s[i + n] == '"'
    ensures NonQuoteRun(s, i) == n
    decreases n
  {
    if n > 0 {
      NonQuoteRunUnique(s, i + 1, n - 1);
    }
  }

  /** An identifier token is an ASCII letter followed by the longest run of
      ASCII letters and digits (maximal munch), and nothing else matches. */
  lemma {:induction false} IdentifierMaximalMunch(s: string, i: nat, n: nat)
    requires i <= |s|
    ensures MatchPattern(Identifier, s, i) == Some(n) <==>
      && 1 <= n && i + n <= |s|
      && IsAsciiLetter(s[i])
      && (forall k :: i < k < i + n ==> IsAsciiLetterOrDigit(s[k]))
      && (i + n == |s| || !IsAsciiLetterOrDigit(s[i + n]))
  {
    if && 1 <= n && i + n <= |s| && IsAsciiLetter(s[i])
       && (forall k :: i < k < i + n ==> IsAsciiLetterOrDigit(s[k]))
       && (i + n == |s| || !IsAsciiLetterOrDigit(s[i + n]))
    {
      AlnumRunUnique(s, i + 1, n - 1);
    }
  }

  /** A string-literal token runs from a '"' to the next '"' inclusive, with no
      escapes. */
  lemma {:induction false} StringLiteralToNextQuote(s: string, i: nat, n: nat)
    requires i <= |s|
    ensures MatchPattern(StringLiteral, s, i) == Some(n) <==>
      && 2 <= n && i + n <= |s|
      && s[i] == '"' && s[i + n - 1] == '"'
      && (forall k :: i < k < i + n - 1 ==> s[k] != '"')
  {
    if && 2 <= n && i + n <= |s| && s[i] == '"' && s[i + n - 1] == '"'
       && (forall k :: i < k < i + n - 1 ==> s[k] != '"')
    {
      NonQuoteRunUnique(s, i + 1, n - 2);
    }
  }

  /** An opening quote with no closing quote after it matches no pattern. */
  lemma {:induction false} UnterminatedStringMatchesNothing(s: string, i: nat, kind: TokenType)
    requires i < |s| && s[i] == '"'
    requires forall k :: i < k < |s| ==> s[k] != '"'
    ensures MatchPattern(kind, s, i) == None
  {
    if kind == StringLiteral {
      NonQuoteRunUnique(s, i + 1, |s| - i - 1);
    }
  }

  /** The patterns are told apart by their first character. */
  lemma {:induction false} AtMostOnePatternMatches(s: string, i: nat, k1: TokenType, k2: TokenType)
    requires i <= |s|
    requires MatchPattern(k1, s, i).Some? && MatchPattern(k2, s, i).Some?
    ensures k1 == k2
  {
  }

  lemma {:induction false} FirstMatchIsAMatch(order: seq<TokenType>, s: string, i: nat, kind: TokenType, n: nat)
    requires i <= |s|
    ensures FirstMatch(order, s, i) == Some((kind, n)) <==> kind in order && MatchPattern(kind, s, i) == Some(n)
    decreases order
  {
    if order != [] {
      FirstMatchIsAMatch(order[1..], s, i, kind, n);
      if MatchPattern(order[0], s, i).Some? && MatchPattern(kind, s, i).Some? {
        AtMostOnePatternMatches(s, i, order[0], kind);
      }
    }
  }

  lemma {:induction false} MatchInTable(kind: TokenType, s: string, i: nat)
    requires i <= |s|
    requires FirstMatch(TokenPatterns, s, i).Some? && FirstMatch(TokenPatterns, s, i).value.0 == kind
    ensures MatchPattern(kind, s, i) == Some(FirstMatch(TokenPatterns, s, i).value.1)
  {
    FirstMatchIsAMatch(TokenPatterns, s, i, kind, FirstMatch(TokenPatterns, s, i).value.1);
  }

  /** The result of the pattern loop does not depend on the order in which the
      dictionary yields its patterns: any order listing every pattern agrees
      with the table's declaration order. */
  lemma {:induction false} PatternOrderIrrelevant(order: seq<TokenType>, s: string, i: nat)
    requires i <= |s|
    requires forall k: TokenType :: k in order
    ensures FirstMatch(order, s, i) == FirstMatch(TokenPatterns, s, i)
  {
    var a, b := FirstMatch(order, s, i), FirstMatch(TokenPatterns, s, i);
    if a.Some? {
      FirstMatchIsAMatch(order, s, i, a.value.0, a.value.1);
      FirstMatchIsAMatch(TokenPatterns, s, i, a.value.0, a.value.1);
    } else if b.Some? {
      FirstMatchIsAMatch(order, s, i, b.value.0, b.value.1);
      FirstMatchIsAMatch(TokenPatterns, s, i, b.value.0, b.value.1);
    }
  }

  /** Each pattern consumes at least one character and the last character of a
      match is never white space; only a string literal can contain white space. */
  lemma {:induction false} MatchedTextShape(kind: TokenType, s: string, i: nat)
    requires i <= |s| && MatchPattern(kind, s, i).Some?
    ensures var n := MatchPattern(kind, s, i).value;
      && !IsWhiteSpace(s[i + n - 1])
      && (kind != StringLiteral ==> forall k :: i <= k < i + n ==> !IsWhiteSpace(s[k]))
  {
  }

  // ---------------------------------------------------------------------
  // The scan as a whole
  // ---------------------------------------------------------------------

  predicate AllWhiteSpace(t: string) {
    forall k :: 0 <= k < |t| ==> IsWhiteSpace(t[k])
  }

  /** s[i..] is a sequence of white-space gaps each followed by a token: the
      token's text is the source substring at its start, which the token's
      pattern matches there in full. Nothing follows the last token. */
  ghost predicate Layout(s: string, i: nat, toks: seq<Token>, starts: seq<nat>)
    requires i <= |s|
    decreases |toks|
  {
    && |starts| == |toks|
    && if toks == [] then i == |s|
       else
         var st, t := starts[0], toks[0];
         && i <= st && st + |t.text| <= |s|
         && AllWhiteSpace(s[i..st])
         && s[st..st + |t.text|] == t.text
         && MatchPattern(t.kind, s, st) == Some(|t.text|)
         && Layout(s, st + |t.text|, toks[1..], starts[1..])
  }

  /** The start index of every token LexFrom produces. */
  ghost function TokenStarts(s: string, i: nat): seq<nat>
    requires i <= |s|
    decreases |s| - i
  {
    if i == |s| then []
    else
      var j := SkipWhiteSpace(s, i);
      match FirstMatch(TokenPatterns, s, j)
      case None => []
      case Some((kind, n)) =>
        MatchInTable(kind, s, j);
        [j] + TokenStarts(s, j + n)
  }

  lemma {:induction false} LayoutCons(s: string, i: nat, st: nat, t: Token, next: nat, rest: seq<Token>, restStarts: seq<nat>, toks: seq<Token>, starts: seq<nat>)
    requires i <= st && next == st + |t.text| && next <= |s|
    requires AllWhiteSpace(s[i..st]) && t.text == s[st..next]
    requires MatchPattern(t.kind, s, st) == Some(|t.text|)
    requires Layout(s, next, rest, restStarts)
    requires toks == [t] + rest && starts == [st] + restStarts
    ensures Layout(s, i, toks, starts)
  {
    assert toks[1..] == rest && starts[1..] == restStarts;
  }

  /** Each token's text is exactly the source substring at its scan position,
      matched there by its own pattern, and the tokens interleaved with white
      space rebuild the source. */
  lemma {:induction false} TokenizeLayout(s: string, i: nat, toks: seq<Token>, starts: seq<nat>)
    requires i <= |s|
    requires LexFrom(s, i) == Ok(toks)
    requires TokenStarts(s, i) == starts
    ensures Layout(s, i, toks, starts)
    decreases |s| - i
  {
    if i < |s| {
      var j, t, next, rest, restStarts := LexCons(s, i);
      TokenizeLayout(s, next, rest, restStarts);
      LayoutCons(s, i, j, t, next, rest, restStarts, toks, starts);
    }
  }

  /** TokenStarts at i in terms of TokenStarts after the first token. */
  lemma {:induction false} StartsUnfold(s: string, i: nat, j: nat, kind: TokenType, n: nat, next: nat)
    requires i < |s| && j == SkipWhiteSpace(s, i)
    requires FirstMatch(TokenPatterns, s, j) == Some((kind, n))
    requires next == j + n && next <= |s|
    ensures TokenStarts(s, i) == [j] + TokenStarts(s, next)
  {
    MatchInTable(kind, s, j);
  }

  /** A successful scan from i is one white-space gap, one token and a
      successful scan of the rest. */
  lemma {:induction false} LexCons(s: string, i: nat) returns (j: nat, t: Token, next: nat, rest: seq<Token>, restStarts: seq<nat>)
    requires i < |s| && LexFrom(s, i).Ok?
    ensures i <= j && next == j + |t.text| && next <= |s| && next > i
    ensures AllWhiteSpace(s[i..j]) && t.text == s[j..next] && MatchPattern(t.kind, s, j) == Some(|t.text|)
    ensures LexFrom(s, next) == Ok(rest) && TokenStarts(s, next) == restStarts
    ensures LexFrom(s, i) == Ok([t] + rest)
    ensures TokenStarts(s, i) == [j] + restStarts
  {
    j := SkipWhiteSpace(s, i);
    var m := FirstMatch(TokenPatterns, s, j);
    var kind, n := m.value.0, m.value.1;
    MatchInTable(kind, s, j);
    next := j + n;
    t := Token(kind, s[j..next]);
    LexUnfold(s, i, j, kind, n, next);
    StartsUnfold(s, i, j, kind, n, next);
    rest, restStarts := LexFrom(s, next).value, TokenStarts(s, next);
  }

  /** No token but a string literal contains white space, and no token is empty. */
  lemma {:induction false} TokensHoldNoWhiteSpace(s: string, i: nat, toks: seq<Token>, starts: seq<nat>)
    requires i <= |s| && Layout(s, i, toks, starts)
    ensures forall t :: t in toks ==> |t.text| >= 1
    ensures forall t, c :: t in toks && t.kind != StringLiteral && c in t.text ==> !IsWhiteSpace(c)
    decreases |toks|
  {
    if toks != [] {
      var st, t := starts[0], toks[0];
      MatchedTextShape(t.kind, s, st);
      TokensHoldNoWhiteSpace(s, st + |t.text|, toks[1..], starts[1..]);
      assert toks == [t] + toks[1..];
    }
  }

  /** Empty input gives no tokens; input ending in white space (white space only
      included) fails, whatever comes before. */
  lemma {:induction false} TrailingWhiteSpaceFails(s: string, i: nat)
    requires i <= |s|
    ensures i == |s| ==> LexFrom(s, i) == Ok([])
    ensures i < |s| && IsWhiteSpace(s[|s| - 1]) ==> LexFrom(s, i).Err?
    decreases |s| - i
  {
    if i < |s| && IsWhiteSpace(s[|s| - 1]) {
      var j := SkipWhiteSpace(s, i);
      var m := FirstMatch(TokenPatterns, s, j);
      if m.Some? {
        var kind, n := m.value.0, m.value.1;
        MatchInTable(kind, s, j);
        MatchedTextShape(kind, s, j);
        var next := j + n;
        LexUnfold(s, i, j, kind, n, next);
        TrailingWhiteSpaceFails(s, next);
      }
    }
  }

  /** White space alone fails in the error branch's own indexing past the end. */
  lemma {:induction false} WhiteSpaceOnlyFails(s: string)
    requires |s| > 0 && AllWhiteSpace(s)
    ensures LexFrom(s, 0) == Err(IndexOutOfRange)
  {
    assert SkipWhiteSpace(s, 0) == |s|;
    NothingMatchesAtEnd(TokenPatterns, s);
  }

  lemma {:induction false} NothingMatchesAtEnd(order: seq<TokenType>, s: string)
    ensures FirstMatch(order, s, |s|) == None
    decreases order
  {
    if order != [] {
      NothingMatchesAtEnd(order[1..], s);
    }
  }

  /** An "Unexpected character" failure names a non-white-space character that
      starts no pattern. */
  lemma {:induction false} UnexpectedCharacterIsReal(s: string, i: nat, j: nat, c: char)
    requires i <= |s| && LexFrom(s, i) == Err(UnexpectedCharacter(j, c))
    ensures j < |s| && s[j] == c && !IsWhiteSpace(c)
    ensures forall kind :: MatchPattern(kind, s, j) == None
    decreases |s| - i
  {
    var k := SkipWhiteSpace(s, i);
    var m := FirstMatch(TokenPatterns, s, k);
    if m.Some? {
      MatchInTable(m.value.0, s, k);
      var next := k + m.value.1;
      LexUnfold(s, i, k, m.value.0, m.value.1, next);
      UnexpectedCharacterIsReal(s, next, j, c);
    } else {
      forall kind ensures MatchPattern(kind, s, j) == None {
        if MatchPattern(kind, s, j).Some? {
          FirstMatchIsAMatch(TokenPatterns, s, j, kind, MatchPattern(kind, s, j).value);
        }
      }
    }
  }

  /** The built-in name "exec_JS" cannot be written in source text: the
      identifier pattern has no underscore. */
  lemma {:induction false} ExecJsDoesNotLex()
    ensures LexFrom("exec_JS", 0) == Err(UnexpectedCharacter(4, '_'))
  {
    ExecJsFirstToken();
    ExecJsStopsAtUnderscore();
  }

  /** "exec" is the first token of "exec_JS". */
  lemma {:induction false} ExecJsFirstToken()
    ensures LexFrom("exec_JS", 0) == Prepend([Token(Identifier, "exec_JS"[0..4])], LexFrom("exec_JS", 4))
  {
    var s := "exec_JS";
    assert SkipWhiteSpace(s, 0) == 0;
    assert AlnumRun(s, 1) == 3;
    IdentifierMatchesFirst(s, 0);
    LexUnfold(s, 0, 0, Identifier, 4, 4);
  }

  /** No pattern starts at the underscore. */
  lemma {:induction false} ExecJsStopsAtUnderscore()
    ensures LexFrom("exec_JS", 4) == Err(UnexpectedCharacter(4, '_'))
  {
    var s := "exec_JS";
    assert SkipWhiteSpace(s, 4) == 4;
    assert s[4] == '_';
    NoPatternMatches(s, 4);
    LexNoMatch(s, 4, 4);
  }

  /** A letter starts an identifier, whatever follows. */
  lemma {:induction false} IdentifierMatchesFirst(s: string, i: nat)
    requires i < |s| && IsAsciiLetter(s[i])
    ensures FirstMatch(TokenPatterns, s, i) == Some((Identifier, 1 + AlnumRun(s, i + 1)))
  {
  }

  /** When no pattern matches at i, neither does the table's loop. */
  lemma {:induction false} NoPatternMatches(s: string, i: nat)
    requires i < |s|
    requires !IsAsciiLetter(s[i]) && s[i] !in "()[],\""
    ensures FirstMatch(TokenPatterns, s, i) == None
  {
    var m := FirstMatch(TokenPatterns, s, i);
    if m.Some? {
      MatchInTable(m.value.0, s, i);
    }
  }
}

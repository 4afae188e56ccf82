/** The JavaScript generator of NextGenToDoApp/JSCodeGenerator.cs: one output
    template per node kind, filled in by generating chosen children.

    `IsExpression()` on node kinds is not defined in the source files this
    model covers, so it is a parameter; so is the line terminator that
    `AppendLine` writes. */
module JSCodeGenerator {
  import opened Wrappers
  import opened Parser

  datatype GenError =
    /** `Children[0]` on a node without children. */
    | IndexOutOfRange
    /** `First(c => c.ParseNodeType == kind)` finds no such child. */
    | NoSuchChild(kind: NodeKind)
    /** `Last(c => c.ParseNodeType.IsExpression())` finds no expression child. */
    | NoExpressionChild
    /** `Single()` on a sequence whose length is not one. */
    | NotSingle(count: nat)
    /** `Token!` on a node without a token. */
    | NullToken
    /** "Unknown node type". */
    | UnknownNodeType(kind: NodeKind)

  // ---------------------------------------------------------------------
  // Child selection and text helpers
  // ---------------------------------------------------------------------

  /** Index of the first node of the given kind. */
  function FirstOfKind(ns: seq<Node>, kind: NodeKind): (r: Option<nat>)
    ensures r.Some? ==> r.value < |ns| && ns[r.value].kind == kind
    ensures r.Some? ==> forall j :: 0 <= j < r.value ==> ns[j].kind != kind
    ensures r.None? ==> forall j :: 0 <= j < |ns| ==> ns[j].kind != kind
    decreases |ns|
  {
    if ns == [] then None
    else if ns[0].kind == kind then Some(0)
    else
      match FirstOfKind(ns[1..], kind)
      case None => None
      case Some(i) => Some(i + 1)
  }

  /** Index of the last node whose kind is an expression kind. */
  function LastExpression(ns: seq<Node>, isExpression: NodeKind -> bool): (r: Option<nat>)
    ensures r.Some? ==> r.value < |ns| && isExpression(ns[r.value].kind)
    ensures r.Some? ==> forall j :: r.value < j < |ns| ==> !isExpression(ns[j].kind)
    ensures r.None? ==> forall j :: 0 <= j < |ns| ==> !isExpression(ns[j].kind)
    decreases |ns|
  {
    if ns == [] then None
    else if isExpression(ns[|ns| - 1].kind) then Some(|ns| - 1)
    else LastExpression(ns[..|ns| - 1], isExpression)
  }

  function Need(o: Option<nat>, e: GenError): Result<nat, GenError> {
    match o
    case Some(i) => Ok(i)
    case None => Err(e)
  }

  /** `Children.Single().Token!.Text`. */
  function SingleTokenText(n: Node): (r: Result<string, GenError>)
    ensures r.Ok? <==> |n.children| == 1 && n.children[0].token.Some?
    ensures r.Ok? ==> r.value == n.children[0].token.value.text
    ensures |n.children| != 1 ==> r == Err(NotSingle(|n.children|))
  {
    if |n.children| != 1 then Err(NotSingle(|n.children|))
    else if n.children[0].token.None? then Err(NullToken)
    else Ok(n.children[0].token.value.text)
  }

  /** `string.Join(separator, parts)`. */
  function Join(separator: string, parts: seq<string>): string
    decreases |parts|
  {
    if parts == [] then ""
    else if |parts| == 1 then parts[0]
    else parts[0] + separator + Join(separator, parts[1..])
  }

  /** What a StringBuilder holds after `AppendLine(t)` for each text in turn. */
  function Lines(texts: seq<string>, newline: string): string
    decreases |texts|
  {
    if texts == [] then "" else Lines(texts[..|texts| - 1], newline) + texts[|texts| - 1] + newline
  }

  function LeadingQuotes(s: string): (k: nat)
    ensures k <= |s|
    ensures forall j :: 0 <= j < k ==> s[j] == '"'
    ensures k < |s| ==> s[k] != '"'
    decreases |s|
  {
    if s != [] && s[0] == '"' then 1 + LeadingQuotes(s[1..]) else 0
  }

  function TrailingQuotes(s: string): (k: nat)
    ensures k <= |s|
    ensures forall j :: |s| - k <= j < |s| ==> s[j] == '"'
    ensures k < |s| ==> s[|s| - k - 1] != '"'
    decreases |s|
  {
    if s != [] && s[|s| - 1] == '"' then 1 + TrailingQuotes(s[..|s| - 1]) else 0
  }

  /** `Trim('"')`: every leading and every trailing double quote removed. */
  function TrimQuotes(s: string): (r: string)
    ensures |r| <= |s|
    ensures r == [] || (r[0] != '"' && r[|r| - 1] != '"')
  {
    var rest := s[LeadingQuotes(s)..];
    rest[..|rest| - TrailingQuotes(rest)]
  }

  function AnyKind(kind: NodeKind): bool {
    true
  }

  function IsParameterDefinition(kind: NodeKind): bool {
    kind == ParameterDefinition
  }

  // ---------------------------------------------------------------------
  // Generate
  // ---------------------------------------------------------------------

  /** `Generate(parseNode)`, branch by branch. */
  function Generate(n: Node, isExpression: NodeKind -> bool, newline: string): Result<string, GenError>
    decreases n, |n.children| + 1
  {
    match n.kind
    case Program =>
      var texts :- GenerateChildren(n, 0, AnyKind, isExpression, newline);
      Ok(Lines(texts, newline))
    case Binding =>
      var ident :- Need(FirstOfKind(n.children, Identifier), NoSuchChild(Identifier));
      var value :- Need(LastExpression(n.children, isExpression), NoExpressionChild);
      var identText :- Generate(n.children[ident], isExpression, newline);
      var valueText :- Generate(n.children[value], isExpression, newline);
      Ok("const " + identText + " = " + valueText + ";")
    case FunctionDefinition =>
      var parameters :- Need(FirstOfKind(n.children, ParameterTuple), NoSuchChild(ParameterTuple));
      var _ :- Need(FirstOfKind(n.children, ExplicitReturnType), NoSuchChild(ExplicitReturnType));
      // `Children.Last()` cannot fail here: the parameter tuple is a child.
      var parametersText :- Generate(n.children[parameters], isExpression, newline);
      var bodyText :- Generate(n.children[|n.children| - 1], isExpression, newline);
      Ok(parametersText + " => " + bodyText)
    case ParameterTuple =>
      var definitions :- GenerateChildren(n, 0, IsParameterDefinition, isExpression, newline);
      Ok("(" + Join(", ", definitions) + ")")
    case ParameterDefinition =>
      var name :- Need(FirstOfKind(n.children, Identifier), NoSuchChild(Identifier));
      SingleTokenText(n.children[name])
    case FunctionCall =>
      if n.children == [] then Err(IndexOutOfRange)
      else
        var tuple :- Need(FirstOfKind(n.children, ArgumentTuple), NoSuchChild(ArgumentTuple));
        var args :- GenerateChildren(n.children[tuple], 1, isExpression, isExpression, newline);
        if |args| != 1 then Err(NotSingle(|args|))
        else
          var callee :- Generate(n.children[0], isExpression, newline);
          Ok("window." + callee + "(" + args[0] + ")")
    case Identifier => SingleTokenText(n)
    case ListLiteral =>
      var items :- GenerateChildren(n, 0, isExpression, isExpression, newline);
      Ok("[" + Join(", ", items) + "]")
    case TextLiteral =>
      var text :- SingleTokenText(n);
      Ok("\"" + TrimQuotes(text) + "\"")
    case SingleLineComment => SingleTokenText(n)
    case Token =>
      if n.token.None? then Err(NullToken) else Ok(n.token.value.text)
    case _ => Err(UnknownNodeType(n.kind))
  }

  /** The generated texts of the children from index `from` on whose kind
      `keep` selects, in order; the first failure ends the walk. */
  function GenerateChildren(n: Node, from: nat, keep: NodeKind -> bool, isExpression: NodeKind -> bool, newline: string)
    : Result<seq<string>, GenError>
    decreases n, |n.children| - from
  {
    if from >= |n.children| then Ok([])
    else if keep(n.children[from].kind) then
      var text :- Generate(n.children[from], isExpression, newline);
      var rest :- GenerateChildren(n, from + 1, keep, isExpression, newline);
      Ok([text] + rest)
    else GenerateChildren(n, from + 1, keep, isExpression, newline)
  }

  function Prepend(done: seq<string>, rest: Result<seq<string>, GenError>): Result<seq<string>, GenError> {
    match rest
    case Ok(texts) => Ok(done + texts)
    case Err(e) => Err(e)
  }

  lemma ProgramStep(n: Node, i: nat, done: seq<string>, isExpression: NodeKind -> bool, newline: string)
    requires i < |n.children|
    ensures var text := Generate(n.children[i], isExpression, newline);
      Prepend(done, GenerateChildren(n, i, AnyKind, isExpression, newline)) ==
        if text.Err? then Err(text.error)
        else Prepend(done + [text.value], GenerateChildren(n, i + 1, AnyKind, isExpression, newline))
  {
    var text := Generate(n.children[i], isExpression, newline);
    var rest := GenerateChildren(n, i + 1, AnyKind, isExpression, newline);
    if text.Ok? && rest.Ok? {
      assert done + ([text.value] + rest.value) == (done + [text.value]) + rest.value;
    }
  }

  /** The `Program` branch as the source runs it: a StringBuilder to which each
      child's text is appended as a line, in child order. */
  method GenerateProgram(n: Node, isExpression: NodeKind -> bool, newline: string) returns (r: Result<string, GenError>)
    requires n.kind == Program
    ensures r == Generate(n, isExpression, newline)
  {
    var sb := "";
    ghost var texts: seq<string> := [];
    var i := 0;
    assert GenerateChildren(n, 0, AnyKind, isExpression, newline).Ok? ==>
      [] + GenerateChildren(n, 0, AnyKind, isExpression, newline).value
        == GenerateChildren(n, 0, AnyKind, isExpression, newline).value;
    while i < |n.children|
      invariant i <= |n.children|
      invariant sb == Lines(texts, newline)
      invariant GenerateChildren(n, 0, AnyKind, isExpression, newline)
        == Prepend(texts, GenerateChildren(n, i, AnyKind, isExpression, newline))
    {
      ProgramStep(n, i, texts, isExpression, newline);
      var text := Generate(n.children[i], isExpression, newline);
      if text.Err? {
        return Err(text.error);
      }
      sb := sb + text.value + newline;
      assert (texts + [text.value])[..|texts|] == texts;
      texts := texts + [text.value];
      i := i + 1;
    }
    assert texts + [] == texts;
    r := Ok(sb);
  }

  // ---------------------------------------------------------------------
  // Properties of Generate
  // ---------------------------------------------------------------------

  /** `Skip(from)`. */
  function Skip(ns: seq<Node>, from: nat): seq<Node> {
    if from <= |ns| then ns[from..] else []
  }

  /** `Where(c => keep(c.ParseNodeType))`. */
  function Kept(ns: seq<Node>, keep: NodeKind -> bool): (r: seq<Node>)
    ensures forall c :: c in r ==> c in ns && keep(c.kind)
    decreases |ns|
  {
    if ns == [] then []
    else (if keep(ns[0].kind) then [ns[0]] else []) + Kept(ns[1..], keep)
  }

  /** Each node's text in turn, the first failure ending the walk. */
  function TextsOf(ns: seq<Node>, isExpression: NodeKind -> bool, newline: string): Result<seq<string>, GenError>
    decreases |ns|
  {
    if ns == [] then Ok([])
    else
      var text :- Generate(ns[0], isExpression, newline);
      var rest :- TextsOf(ns[1..], isExpression, newline);
      Ok([text] + rest)
  }

  /** Walking the children with a filter is generating the filtered children. */
  lemma {:induction false} ChildrenAreFiltered(n: Node, from: nat, keep: NodeKind -> bool, isExpression: NodeKind -> bool, newline: string)
    ensures GenerateChildren(n, from, keep, isExpression, newline)
      == TextsOf(Kept(Skip(n.children, from), keep), isExpression, newline)
    decreases |n.children| - from
  {
    if from < |n.children| {
      ChildrenAreFiltered(n, from + 1, keep, isExpression, newline);
      var skipped := Skip(n.children, from);
      assert skipped[0] == n.children[from] && skipped[1..] == Skip(n.children, from + 1);
      var rest := Kept(Skip(n.children, from + 1), keep);
      if keep(n.children[from].kind) {
        assert Kept(skipped, keep) == [n.children[from]] + rest;
        assert ([n.children[from]] + rest)[1..] == rest;
      } else {
        assert Kept(skipped, keep) == rest;
      }
    }
  }

  /** Generating a list of nodes succeeds exactly when each node generates,
      and yields their texts in order. */
  lemma {:induction false} TextsOfEach(ns: seq<Node>, isExpression: NodeKind -> bool, newline: string)
    ensures var r := TextsOf(ns, isExpression, newline);
      && (r.Ok? <==> forall k :: 0 <= k < |ns| ==> Generate(ns[k], isExpression, newline).Ok?)
      && (r.Ok? ==> |r.value| == |ns|)
      && (r.Ok? ==> forall k :: 0 <= k < |ns| ==> r.value[k] == Generate(ns[k], isExpression, newline).value)
    decreases |ns|
  {
    if ns != [] {
      TextsOfEach(ns[1..], isExpression, newline);
      assert forall k :: 1 <= k < |ns| ==> ns[k] == ns[1..][k - 1];
      var r := TextsOf(ns, isExpression, newline);
      if r.Ok? {
        var rest := TextsOf(ns[1..], isExpression, newline).value;
        assert r.value == [Generate(ns[0], isExpression, newline).value] + rest;
        assert forall k :: 1 <= k < |ns| ==> r.value[k] == rest[k - 1];
      }
    }
  }

  /** `Select(Generate).ToList()` is eager: it fails with the error of the
      first node that fails. */
  lemma {:induction false} TextsOfFirstError(ns: seq<Node>, i: nat, isExpression: NodeKind -> bool, newline: string)
    requires i < |ns| && Generate(ns[i], isExpression, newline).Err?
    requires forall k :: 0 <= k < i ==> Generate(ns[k], isExpression, newline).Ok?
    ensures TextsOf(ns, isExpression, newline) == Err(Generate(ns[i], isExpression, newline).error)
    decreases i
  {
    if i > 0 {
      assert forall k :: 0 <= k < i - 1 ==> ns[1..][k] == ns[k + 1];
      TextsOfFirstError(ns[1..], i - 1, isExpression, newline);
    }
  }

  /** The children walk succeeds exactly when every selected child generates,
      and then yields their texts in child order. */
  lemma ChildrenTexts(n: Node, from: nat, keep: NodeKind -> bool, isExpression: NodeKind -> bool, newline: string)
    ensures var kept := Kept(Skip(n.children, from), keep);
      var r := GenerateChildren(n, from, keep, isExpression, newline);
      && (r.Ok? <==> forall k :: 0 <= k < |kept| ==> Generate(kept[k], isExpression, newline).Ok?)
      && (r.Ok? ==> |r.value| == |kept|)
      && (r.Ok? ==> forall k :: 0 <= k < |kept| ==> r.value[k] == Generate(kept[k], isExpression, newline).value)
  {
    ChildrenAreFiltered(n, from, keep, isExpression, newline);
    TextsOfEach(Kept(Skip(n.children, from), keep), isExpression, newline);
  }

  lemma {:induction false} KeptAll(ns: seq<Node>)
    ensures Kept(ns, AnyKind) == ns
    decreases |ns|
  {
    if ns != [] {
      KeptAll(ns[1..]);
    }
  }

  /** A Program outputs every child's text followed by the line terminator, in
      child order, and fails exactly when some child fails. */
  lemma ProgramOutput(n: Node, isExpression: NodeKind -> bool, newline: string)
    requires n.kind == Program
    ensures var r := Generate(n, isExpression, newline);
      && (r.Ok? <==> forall j :: 0 <= j < |n.children| ==> Generate(n.children[j], isExpression, newline).Ok?)
      && (r.Ok? ==>
            var texts := GenerateChildren(n, 0, AnyKind, isExpression, newline).value;
            && |texts| == |n.children|
            && (forall j :: 0 <= j < |n.children| ==> texts[j] == Generate(n.children[j], isExpression, newline).value)
            && r.value == Lines(texts, newline))
  {
    ChildrenTexts(n, 0, AnyKind, isExpression, newline);
    assert Skip(n.children, 0) == n.children;
    KeptAll(n.children);
  }

  /** Appending lines is associative: the output of a program is the output
      of its first children followed by that of the rest. */
  lemma {:induction false} LinesConcat(a: seq<string>, b: seq<string>, newline: string)
    ensures Lines(a + b, newline) == Lines(a, newline) + Lines(b, newline)
    decreases |b|
  {
    if b == [] {
      assert a + b == a;
    } else {
      var c := b[..|b| - 1];
      LinesConcat(a, c, newline);
      assert (a + b)[..|a + b| - 1] == a + c;
      assert (a + b)[|a + b| - 1] == b[|b| - 1];
    }
  }

  /** A Binding outputs `const <first Identifier child> = <last expression child>;`. */
  lemma BindingOutput(n: Node, isExpression: NodeKind -> bool, newline: string)
    requires n.kind == Binding
    ensures var ident := FirstOfKind(n.children, Identifier);
      var value := LastExpression(n.children, isExpression);
      var r := Generate(n, isExpression, newline);
      && (ident.None? ==> r == Err(NoSuchChild(Identifier)))
      && (ident.Some? && value.None? ==> r == Err(NoExpressionChild))
      && (ident.Some? && value.Some? ==>
            var identText := Generate(n.children[ident.value], isExpression, newline);
            var valueText := Generate(n.children[value.value], isExpression, newline);
            && (identText.Err? ==> r == identText)
            && (identText.Ok? && valueText.Err? ==> r == valueText)
            && (identText.Ok? && valueText.Ok? ==>
                  r == Ok("const " + identText.value + " = " + valueText.value + ";")))
  {
  }

  /** A FunctionDefinition outputs `<parameter tuple> => <last child>`; the
      return-type child must exist but is never generated, so any two return
      types give the same output. */
  lemma FunctionDefinitionDropsReturnType(n: Node, k: nat, returnType: Node, isExpression: NodeKind -> bool, newline: string)
    requires n.kind == FunctionDefinition
    requires k < |n.children| - 1 && n.children[k].kind == ExplicitReturnType && returnType.kind == ExplicitReturnType
    ensures Generate(n.(children := n.children[k := returnType]), isExpression, newline) == Generate(n, isExpression, newline)
  {
    var m := n.(children := n.children[k := returnType]);
    assert forall j :: 0 <= j < |n.children| ==> m.children[j].kind == n.children[j].kind;
    FirstOfKindSameKinds(n.children, m.children, ParameterTuple);
    FirstOfKindSameKinds(n.children, m.children, ExplicitReturnType);
    var p := FirstOfKind(n.children, ParameterTuple);
    if p.Some? {
      assert m.children[p.value] == n.children[p.value];
    }
    assert m.children[|m.children| - 1] == n.children[|n.children| - 1];
    SameFunctionDefinitionParts(m, n, isExpression, newline);
  }

  /** Two function definitions generate alike when they agree on which
      children are the parameter tuple and the return type, on the parameter
      tuple itself and on the last child. */
  lemma SameFunctionDefinitionParts(m: Node, n: Node, isExpression: NodeKind -> bool, newline: string)
    requires m.kind == FunctionDefinition && n.kind == FunctionDefinition
    requires |m.children| == |n.children|
    requires FirstOfKind(m.children, ParameterTuple) == FirstOfKind(n.children, ParameterTuple)
    requires FirstOfKind(m.children, ExplicitReturnType) == FirstOfKind(n.children, ExplicitReturnType)
    requires var p := FirstOfKind(n.children, ParameterTuple); p.Some? ==> m.children[p.value] == n.children[p.value]
    requires |n.children| > 0 ==> m.children[|m.children| - 1] == n.children[|n.children| - 1]
    ensures Generate(m, isExpression, newline) == Generate(n, isExpression, newline)
  {
    FunctionDefinitionOutput(m, isExpression, newline);
    FunctionDefinitionOutput(n, isExpression, newline);
  }

  lemma {:induction false} FirstOfKindSameKinds(a: seq<Node>, b: seq<Node>, kind: NodeKind)
    requires |a| == |b| && forall j :: 0 <= j < |a| ==> a[j].kind == b[j].kind
    ensures FirstOfKind(a, kind) == FirstOfKind(b, kind)
    decreases |a|
  {
    if a != [] {
      FirstOfKindSameKinds(a[1..], b[1..], kind);
    }
  }

  lemma FunctionDefinitionOutput(n: Node, isExpression: NodeKind -> bool, newline: string)
    requires n.kind == FunctionDefinition
    ensures var parameters := FirstOfKind(n.children, ParameterTuple);
      var r := Generate(n, isExpression, newline);
      && (parameters.None? ==> r == Err(NoSuchChild(ParameterTuple)))
      && (parameters.Some? && FirstOfKind(n.children, ExplicitReturnType).None? ==> r == Err(NoSuchChild(ExplicitReturnType)))
      && (parameters.Some? && FirstOfKind(n.children, ExplicitReturnType).Some? ==>
            var p := Generate(n.children[parameters.value], isExpression, newline);
            var body := Generate(n.children[|n.children| - 1], isExpression, newline);
            && (p.Err? ==> r == p)
            && (p.Ok? && body.Err? ==> r == body)
            && (p.Ok? && body.Ok? ==> r == Ok(p.value + " => " + body.value)))
  {
  }

  /** A ParameterTuple outputs its ParameterDefinition children's texts joined
      by ", " inside parentheses. */
  lemma ParameterTupleOutput(n: Node, isExpression: NodeKind -> bool, newline: string)
    requires n.kind == ParameterTuple
    ensures var defs := Kept(n.children, IsParameterDefinition);
      var r := Generate(n, isExpression, newline);
      && (r.Ok? <==> forall k :: 0 <= k < |defs| ==> Generate(defs[k], isExpression, newline).Ok?)
      && (r.Ok? ==>
            var texts := GenerateChildren(n, 0, IsParameterDefinition, isExpression, newline).value;
            && |texts| == |defs|
            && (forall k :: 0 <= k < |defs| ==> texts[k] == Generate(defs[k], isExpression, newline).value)
            && r.value == "(" + Join(", ", texts) + ")")
  {
    ChildrenTexts(n, 0, IsParameterDefinition, isExpression, newline);
    assert Skip(n.children, 0) == n.children;
  }

  /** A ParameterDefinition outputs the token text of its first Identifier
      child's single child. */
  lemma ParameterDefinitionOutput(n: Node, isExpression: NodeKind -> bool, newline: string)
    requires n.kind == ParameterDefinition
    ensures var name := FirstOfKind(n.children, Identifier);
      && (name.None? ==> Generate(n, isExpression, newline) == Err(NoSuchChild(Identifier)))
      && (name.Some? ==> Generate(n, isExpression, newline) == SingleTokenText(n.children[name.value]))
  {
  }

  /** A FunctionCall needs an ArgumentTuple child whose expression children
      after its first all generate, the first failing one's error ending the
      call, and of which there is exactly one; it then outputs
      `window.<callee>(<arg>)`. */
  lemma FunctionCallOutput(n: Node, isExpression: NodeKind -> bool, newline: string)
    requires n.kind == FunctionCall
    ensures n.children == [] ==> Generate(n, isExpression, newline) == Err(IndexOutOfRange)
    ensures n.children != [] && FirstOfKind(n.children, ArgumentTuple).None? ==>
      Generate(n, isExpression, newline) == Err(NoSuchChild(ArgumentTuple))
    ensures n.children != [] && FirstOfKind(n.children, ArgumentTuple).Some? ==>
      var tuple := n.children[FirstOfKind(n.children, ArgumentTuple).value];
      var args := Kept(Skip(tuple.children, 1), isExpression);
      var r := Generate(n, isExpression, newline);
      && (forall k :: 0 <= k < |args| ==> Generate(args[k], isExpression, newline).Ok?) ==>
           && (|args| != 1 ==> r == Err(NotSingle(|args|)))
           && (|args| == 1 ==>
                 var callee := Generate(n.children[0], isExpression, newline);
                 && (callee.Err? ==> r == callee)
                 && (callee.Ok? ==>
                       r == Ok("window." + callee.value + "(" + Generate(args[0], isExpression, newline).value + ")")))
    ensures n.children != [] && FirstOfKind(n.children, ArgumentTuple).Some? ==>
      var tuple := n.children[FirstOfKind(n.children, ArgumentTuple).value];
      var args := Kept(Skip(tuple.children, 1), isExpression);
      forall i ::
        (&& 0 <= i < |args| && Generate(args[i], isExpression, newline).Err?
         && (forall k :: 0 <= k < i ==> Generate(args[k], isExpression, newline).Ok?)) ==>
        Generate(n, isExpression, newline) == Err(Generate(args[i], isExpression, newline).error)
  {
    if n.children != [] && FirstOfKind(n.children, ArgumentTuple).Some? {
      var tuple := n.children[FirstOfKind(n.children, ArgumentTuple).value];
      ChildrenTexts(tuple, 1, isExpression, isExpression, newline);
      var args := Kept(Skip(tuple.children, 1), isExpression);
      forall i | 0 <= i < |args| && Generate(args[i], isExpression, newline).Err? &&
          (forall k :: 0 <= k < i ==> Generate(args[k], isExpression, newline).Ok?)
        ensures Generate(n, isExpression, newline) == Err(Generate(args[i], isExpression, newline).error)
      {
        ChildrenAreFiltered(tuple, 1, isExpression, isExpression, newline);
        TextsOfFirstError(args, i, isExpression, newline);
      }
    }
  }

  /** A ListLiteral outputs its expression children's texts joined by ", "
      inside brackets; with no expression children it outputs `[]`. */
  lemma ListLiteralOutput(n: Node, isExpression: NodeKind -> bool, newline: string)
    requires n.kind == ListLiteral
    ensures var items := Kept(n.children, isExpression);
      var r := Generate(n, isExpression, newline);
      && (r.Ok? <==> forall k :: 0 <= k < |items| ==> Generate(items[k], isExpression, newline).Ok?)
      && (r.Ok? ==>
            var texts := GenerateChildren(n, 0, isExpression, isExpression, newline).value;
            && |texts| == |items|
            && (forall k :: 0 <= k < |items| ==> texts[k] == Generate(items[k], isExpression, newline).value)
            && r.value == "[" + Join(", ", texts) + "]")
      && (items == [] ==> r == Ok("[]"))
  {
    ChildrenTexts(n, 0, isExpression, isExpression, newline);
    assert Skip(n.children, 0) == n.children;
    assert "[" + Join(", ", []) + "]" == "[]";
  }

  /** Identifier and SingleLineComment output the text of their single
      child's token, a Token node its own token's text; each fails exactly
      when that token is not there. */
  lemma RawTextOutput(n: Node, isExpression: NodeKind -> bool, newline: string)
    ensures n.kind in {Identifier, SingleLineComment} ==>
      && (Generate(n, isExpression, newline).Ok? <==> |n.children| == 1 && n.children[0].token.Some?)
      && (Generate(n, isExpression, newline).Ok? ==> Generate(n, isExpression, newline).value == n.children[0].token.value.text)
    ensures n.kind == Token ==>
      && (Generate(n, isExpression, newline).Ok? <==> n.token.Some?)
      && (n.token.Some? ==> Generate(n, isExpression, newline) == Ok(n.token.value.text))
  {
  }

  // ---------------------------------------------------------------------
  // Text literals and quote trimming
  // ---------------------------------------------------------------------

  /** `Trim('"')` removes only quotes: the input is a run of quotes, then the
      result, then another run of quotes. */
  lemma TrimQuotesParts(s: string)
    ensures var a := LeadingQuotes(s);
      var r := TrimQuotes(s);
      && a + |r| <= |s|
      && s[a..a + |r|] == r
      && (forall j :: 0 <= j < a ==> s[j] == '"')
      && (forall j :: a + |r| <= j < |s| ==> s[j] == '"')
  {
    var a := LeadingQuotes(s);
    var rest := s[a..];
    var b := TrailingQuotes(rest);
    var r := rest[..|rest| - b];
    assert |r| + b == |rest| && a + |rest| == |s|;
    forall j | a + |r| <= j < |s|
      ensures s[j] == '"'
    {
      assert s[j] == rest[j - a];
    }
  }

  /** A text without a quote at either end comes back unchanged from
      quoting and trimming. */
  lemma TrimQuotesQuoted(t: string)
    requires t == [] || (t[0] != '"' && t[|t| - 1] != '"')
    ensures TrimQuotes("\"" + t + "\"") == t
  {
    var s := "\"" + t + "\"";
    if t == [] {
      assert s == "\"\"";
      assert s[1..] == "\"" && s[1..][1..] == "";
      assert LeadingQuotes(s) == 2;
    } else {
      assert s[1..] == t + "\"";
      assert LeadingQuotes(s[1..]) == 0;
      var rest := s[1..];
      assert rest[..|rest| - 1] == t;
      assert TrailingQuotes(t) == 0;
      assert TrailingQuotes(rest) == 1;
    }
  }

  /** Trimming twice is trimming once. */
  lemma TrimQuotesIdempotent(s: string)
    ensures TrimQuotes(TrimQuotes(s)) == TrimQuotes(s)
  {
    var r := TrimQuotes(s);
    if r != [] {
      assert LeadingQuotes(r) == 0;
      assert r[0..] == r;
      assert TrailingQuotes(r) == 0;
    }
  }

  /** A TextLiteral outputs its single token's text with the surrounding
      quotes normalised to exactly one on each side; trimming the output gives
      back the trimmed token text. */
  lemma TextLiteralOutput(n: Node, isExpression: NodeKind -> bool, newline: string)
    requires n.kind == TextLiteral
    ensures var r := Generate(n, isExpression, newline);
      && (r.Ok? <==> |n.children| == 1 && n.children[0].token.Some?)
      && (r.Ok? ==>
            var text := n.children[0].token.value.text;
            && r.value == "\"" + TrimQuotes(text) + "\""
            && TrimQuotes(r.value) == TrimQuotes(text))
  {
    if |n.children| == 1 && n.children[0].token.Some? {
      TrimQuotesQuoted(TrimQuotes(n.children[0].token.value.text));
    }
  }

  // ---------------------------------------------------------------------
  // Which node kinds Generate knows
  // ---------------------------------------------------------------------

  /** The node kinds Generate has a branch for. */
  predicate Handled(kind: NodeKind) {
    kind in {Program, Binding, FunctionDefinition, ParameterTuple, ParameterDefinition,
             FunctionCall, Identifier, ListLiteral, TextLiteral, SingleLineComment, Token}
  }

  /** An "Unknown node type" error that names a kind Generate does handle. */
  predicate FalseUnknown(e: GenError) {
    e.UnknownNodeType? && Handled(e.kind)
  }

  /** A node of a kind Generate has no branch for fails with "Unknown node
      type", and that error, raised anywhere below a node, always names a
      kind without a branch. */
  lemma {:induction false} UnknownKindIsReal(n: Node, isExpression: NodeKind -> bool, newline: string)
    ensures !Handled(n.kind) ==> Generate(n, isExpression, newline) == Err(UnknownNodeType(n.kind))
    ensures Generate(n, isExpression, newline).Err? ==> !FalseUnknown(Generate(n, isExpression, newline).error)
    decreases n, |n.children| + 1
  {
    forall i | 0 <= i < |n.children|
      ensures Generate(n.children[i], isExpression, newline).Err? ==>
        !FalseUnknown(Generate(n.children[i], isExpression, newline).error)
    {
      UnknownKindIsReal(n.children[i], isExpression, newline);
    }
    match n.kind {
      case Program => UnknownKindIsRealBelow(n, 0, AnyKind, isExpression, newline);
      case ParameterTuple => UnknownKindIsRealBelow(n, 0, IsParameterDefinition, isExpression, newline);
      case ListLiteral => UnknownKindIsRealBelow(n, 0, isExpression, isExpression, newline);
      case FunctionCall =>
        if n.children != [] && FirstOfKind(n.children, ArgumentTuple).Some? {
          UnknownKindIsRealBelow(n.children[FirstOfKind(n.children, ArgumentTuple).value], 1, isExpression, isExpression, newline);
        }
      case _ =>
    }
  }

  lemma {:induction false} UnknownKindIsRealBelow(n: Node, from: nat, keep: NodeKind -> bool, isExpression: NodeKind -> bool, newline: string)
    ensures GenerateChildren(n, from, keep, isExpression, newline).Err? ==>
      !FalseUnknown(GenerateChildren(n, from, keep, isExpression, newline).error)
    decreases n, |n.children| - from
  {
    if from < |n.children| {
      UnknownKindIsReal(n.children[from], isExpression, newline);
      UnknownKindIsRealBelow(n, from + 1, keep, isExpression, newline);
    }
  }

  // ---------------------------------------------------------------------
  // Annotations do not matter
  // ---------------------------------------------------------------------

  lemma {:induction false} LastExpressionSameKinds(a: seq<Node>, b: seq<Node>, isExpression: NodeKind -> bool)
    requires |a| == |b| && forall j :: 0 <= j < |a| ==> a[j].kind == b[j].kind
    ensures LastExpression(a, isExpression) == LastExpression(b, isExpression)
    decreases |a|
  {
    if a != [] {
      LastExpressionSameKinds(a[..|a| - 1], b[..|b| - 1], isExpression);
    }
  }

  /** Two nodes of the same kind and token whose children agree in kind, in
      output and in token text. */
  ghost predicate Alike(e: Node, n: Node, isExpression: NodeKind -> bool, newline: string) {
    && e.kind == n.kind && e.token == n.token && |e.children| == |n.children|
    && (forall j :: 0 <= j < |n.children| ==> e.children[j].kind == n.children[j].kind)
    && (forall j :: 0 <= j < |n.children| ==>
          Generate(e.children[j], isExpression, newline) == Generate(n.children[j], isExpression, newline))
    && (forall j :: 0 <= j < |n.children| ==> SingleTokenText(e.children[j]) == SingleTokenText(n.children[j]))
  }

  lemma AlikeBinding(e: Node, n: Node, isExpression: NodeKind -> bool, newline: string)
    requires Alike(e, n, isExpression, newline) && n.kind == Binding
    ensures Generate(e, isExpression, newline) == Generate(n, isExpression, newline)
  {
    FirstOfKindSameKinds(e.children, n.children, Identifier);
    LastExpressionSameKinds(e.children, n.children, isExpression);
  }

  lemma AlikeFunctionDefinition(e: Node, n: Node, isExpression: NodeKind -> bool, newline: string)
    requires Alike(e, n, isExpression, newline) && n.kind == FunctionDefinition
    ensures Generate(e, isExpression, newline) == Generate(n, isExpression, newline)
  {
    FirstOfKindSameKinds(e.children, n.children, ParameterTuple);
    FirstOfKindSameKinds(e.children, n.children, ExplicitReturnType);
  }

  lemma AlikeParameterDefinition(e: Node, n: Node, isExpression: NodeKind -> bool, newline: string)
    requires Alike(e, n, isExpression, newline) && n.kind == ParameterDefinition
    ensures Generate(e, isExpression, newline) == Generate(n, isExpression, newline)
  {
    FirstOfKindSameKinds(e.children, n.children, Identifier);
  }

  lemma AlikeCall(e: Node, n: Node, isExpression: NodeKind -> bool, newline: string)
    requires Alike(e, n, isExpression, newline) && n.kind == FunctionCall
    requires forall j :: 0 <= j < |n.children| ==>
      GenerateChildren(e.children[j], 1, isExpression, isExpression, newline)
        == GenerateChildren(n.children[j], 1, isExpression, isExpression, newline)
    ensures Generate(e, isExpression, newline) == Generate(n, isExpression, newline)
  {
    FirstOfKindSameKinds(e.children, n.children, ArgumentTuple);
  }

  lemma AlikeWalk(e: Node, n: Node, isExpression: NodeKind -> bool, newline: string)
    requires e.kind == n.kind && n.kind in {Program, ParameterTuple, ListLiteral}
    requires GenerateChildren(e, 0, AnyKind, isExpression, newline) == GenerateChildren(n, 0, AnyKind, isExpression, newline)
    requires GenerateChildren(e, 0, IsParameterDefinition, isExpression, newline)
      == GenerateChildren(n, 0, IsParameterDefinition, isExpression, newline)
    requires GenerateChildren(e, 0, isExpression, isExpression, newline) == GenerateChildren(n, 0, isExpression, isExpression, newline)
    ensures Generate(e, isExpression, newline) == Generate(n, isExpression, newline)
  {
  }

  lemma AlikeLeaf(e: Node, n: Node, isExpression: NodeKind -> bool, newline: string)
    requires e.kind == n.kind && e.token == n.token && |e.children| == |n.children|
    requires n.kind !in {Program, ParameterTuple, ListLiteral, Binding, FunctionDefinition, ParameterDefinition, FunctionCall}
    requires |n.children| == 1 ==> e.children[0].token == n.children[0].token
    ensures Generate(e, isExpression, newline) == Generate(n, isExpression, newline)
  {
  }

  lemma ErasedTokens(c: Node)
    ensures forall j :: 0 <= j < |c.children| ==> Erase(c).children[j].token == c.children[j].token
    ensures SingleTokenText(Erase(c)) == SingleTokenText(c)
  {
    assert forall j :: 0 <= j < |c.children| ==> Erase(c).children[j] == Erase(c.children[j]);
  }

  /** The output never depends on the types and symbols the checker attaches:
      generating an annotated tree is generating the tree the parser built. */
  lemma {:induction false} GenerateIgnoresAnnotations(n: Node, isExpression: NodeKind -> bool, newline: string)
    ensures Generate(Erase(n), isExpression, newline) == Generate(n, isExpression, newline)
    decreases n, |n.children| + 1
  {
    var e := Erase(n);
    assert forall j :: 0 <= j < |n.children| ==> e.children[j] == Erase(n.children[j]);
    forall j | 0 <= j < |n.children|
      ensures Generate(e.children[j], isExpression, newline) == Generate(n.children[j], isExpression, newline)
      ensures SingleTokenText(e.children[j]) == SingleTokenText(n.children[j])
      ensures e.children[j].token == n.children[j].token
    {
      GenerateIgnoresAnnotations(n.children[j], isExpression, newline);
      ErasedTokens(n.children[j]);
    }
    if n.kind == Binding {
      AlikeBinding(e, n, isExpression, newline);
    } else if n.kind == FunctionDefinition {
      AlikeFunctionDefinition(e, n, isExpression, newline);
    } else if n.kind == ParameterDefinition {
      AlikeParameterDefinition(e, n, isExpression, newline);
    } else if n.kind == FunctionCall {
      forall j | 0 <= j < |n.children|
        ensures GenerateChildren(e.children[j], 1, isExpression, isExpression, newline)
          == GenerateChildren(n.children[j], 1, isExpression, isExpression, newline)
      {
        ChildrenIgnoreAnnotations(n.children[j], 1, isExpression, isExpression, newline);
      }
      AlikeCall(e, n, isExpression, newline);
    } else if n.kind in {Program, ParameterTuple, ListLiteral} {
      ChildrenIgnoreAnnotations(n, 0, AnyKind, isExpression, newline);
      ChildrenIgnoreAnnotations(n, 0, IsParameterDefinition, isExpression, newline);
      ChildrenIgnoreAnnotations(n, 0, isExpression, isExpression, newline);
      AlikeWalk(e, n, isExpression, newline);
    } else {
      AlikeLeaf(e, n, isExpression, newline);
    }
  }

  lemma {:induction false} ChildrenIgnoreAnnotations(n: Node, from: nat, keep: NodeKind -> bool, isExpression: NodeKind -> bool, newline: string)
    ensures GenerateChildren(Erase(n), from, keep, isExpression, newline) == GenerateChildren(n, from, keep, isExpression, newline)
    decreases n, |n.children| - from
  {
    if from < |n.children| {
      assert Erase(n).children[from] == Erase(n.children[from]);
      GenerateIgnoresAnnotations(n.children[from], isExpression, newline);
      ChildrenIgnoreAnnotations(n, from + 1, keep, isExpression, newline);
    }
  }

  // ---------------------------------------------------------------------
  // Generating what the parser builds
  // ---------------------------------------------------------------------

  /** Of the expression trees the parser builds, only identifiers generate:
      a string literal has no generator branch, and a call has no
      ArgumentTuple child. */
  lemma ParsedExpressionOutput(n: Node, isExpression: NodeKind -> bool, newline: string)
    requires IsExpressionNode(n)
    ensures n.kind == Identifier ==> Generate(n, isExpression, newline) == Ok(n.children[0].token.value.text)
    ensures n.kind == StringLiteral ==> Generate(n, isExpression, newline) == Err(UnknownNodeType(StringLiteral))
    ensures n.kind == FunctionCall ==> Generate(n, isExpression, newline) == Err(NoSuchChild(ArgumentTuple))
  {
    if n.kind == FunctionCall {
      assert n.children[0].kind in {StringLiteral, Identifier, FunctionCall};
      assert n.children[2].kind in {StringLiteral, Identifier, FunctionCall};
      assert n.children == n.children[..1] + n.children[1..];
      assert FirstOfKind(n.children[3..], ArgumentTuple) == None;
      assert FirstOfKind(n.children[2..], ArgumentTuple) == None;
      assert FirstOfKind(n.children[1..], ArgumentTuple) == None;
    }
  }
}

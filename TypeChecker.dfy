/** The type annotator of NextGenToDoApp/TypeChecker.cs.

    The source writes `Type` and `Symbol` onto the nodes of the parse tree in
    place. Here a check returns the annotated copy of the tree instead; the
    returned node's `ty` is the type the source returns. */
module TypeChecker {
  import opened Wrappers
  import opened Types
  import opened Parser
  import Lexer

  datatype CheckError =
    /** `Children[0]` or `Children.Last()` on a node without children. */
    | MissingChild(kind: NodeKind)
    /** `Token!` on a child that carries no token. */
    | NullToken
    /** `NamesToSymbols[name]` for a name not in the table. */
    | UnknownName(name: string)

  /** `ToDictionary(s => s.Name)`: each symbol under its name, in order; a
      repeated name is the exception `ToDictionary` throws, here None. */
  function ToDictionary(symbols: seq<Symbol>): (m: Option<map<string, Symbol>>)
    ensures m.Some? ==> forall s :: s in symbols ==> s.name in m.value
    ensures m.Some? ==> forall k :: k in m.value ==> m.value[k] in symbols && m.value[k].name == k
    decreases |symbols|
  {
    if symbols == [] then Some(map[])
    else
      var last := symbols[|symbols| - 1];
      match ToDictionary(symbols[..|symbols| - 1])
      case None => None
      case Some(m) =>
        if last.name in m then None
        else
          assert forall s :: s in symbols ==> s == last || s in symbols[..|symbols| - 1];
          Some(m[last.name := last])
  }

  /** The name table of the built-in symbols. */
  const NamesToSymbols: map<string, Symbol> := map[
    "Nothing" := NothingSymbol,
    "Text" := TextSymbol,
    "HtmlNode" := HtmlNodeSymbol,
    "exec_JS" := ExecJSSymbol]

  /** Building the table from `Symbols.All` meets no repeated name and gives
      exactly NamesToSymbols. */
  lemma NamesToSymbolsDerived()
    ensures ToDictionary(AllSymbols) == Some(NamesToSymbols)
  {
    var all := AllSymbols;
    assert all[..3][..2][..1][..0] == [];
    assert all[..3][..2][..1] == [NothingSymbol];
    assert all[..3][..2] == [NothingSymbol, TextSymbol];
    assert all[..3] == [NothingSymbol, TextSymbol, HtmlNodeSymbol];
    assert ToDictionary(all[..3][..2][..1]) == Some(map["Nothing" := NothingSymbol]);
    assert ToDictionary(all[..3][..2]) == Some(map["Nothing" := NothingSymbol, "Text" := TextSymbol]);
    assert ToDictionary(all[..3]) ==
      Some(map["Nothing" := NothingSymbol, "Text" := TextSymbol, "HtmlNode" := HtmlNodeSymbol]);
  }

  /** Two trees that differ only in annotations, child by child. */
  ghost predicate SameShapes(a: seq<Node>, b: seq<Node>) {
    |a| == |b| && forall i :: 0 <= i < |a| ==> Erase(a[i]) == Erase(b[i]) && Size(a[i]) == Size(b[i])
  }

  lemma ReplaceChildren(n: Node, children: seq<Node>, ty: Option<Type>, sym: Option<Symbol>)
    requires SameShapes(children, n.children)
    ensures Erase(n.(children := children, ty := ty, sym := sym)) == Erase(n)
    ensures Size(n.(children := children, ty := ty, sym := sym)) == Size(n)
  {
    SizeOfPointwise(children, n.children);
    var m := n.(children := children, ty := ty, sym := sym);
    assert Erase(m).children == Erase(n).children;
  }

  // ---------------------------------------------------------------------
  // CheckType
  // ---------------------------------------------------------------------

  /** `CheckType(parseNode)`: the tree with its annotations written, whose root
      `ty` is the returned type.

      Binding and ParameterDefinition check only their last child and copy its
      type onto their first child and themselves. Every other node checks all
      its children in order, then computes its own type by kind; the kinds that
      look at `Children[0]` check that (already checked) child once more, as
      the source does. */
  function CheckType(n: Node): (r: Result<Node, CheckError>)
    ensures r.Ok? ==> Erase(r.value) == Erase(n) && Size(r.value) == Size(n)
    decreases Size(n), 0
  {
    if n.kind == Binding || n.kind == ParameterDefinition then
      if n.children == [] then Err(MissingChild(n.kind))
      else
        var last := |n.children| - 1;
        ElementSize(n.children, last);
        var value :- CheckType(n.children[last]);
        var withValue := n.children[last := value];
        var children := withValue[0 := withValue[0].(ty := value.ty)];
        assert Erase(withValue[0].(ty := value.ty)) == Erase(withValue[0]);
        ReplaceChildren(n, children, value.ty, n.sym);
        Ok(n.(children := children, ty := value.ty))
    else
      var children :- CheckChildren(n.children);
      if n.kind in {Expression, FunctionCall, ListLiteral} then
        if children == [] then Err(MissingChild(n.kind))
        else
          ElementSize(n.children, 0);
          var first :- CheckType(children[0]);
          var children := children[0 := first];
          var ty :=
            match n.kind
            case Expression => first.ty
            case FunctionCall => ReturnTypeOf(first.ty)
            case _ => Some(ListType(first.ty));
          ReplaceChildren(n, children, ty, n.sym);
          Ok(n.(children := children, ty := ty))
      else if n.kind == Identifier then
        if children == [] then Err(MissingChild(n.kind))
        else if children[0].token.None? then Err(NullToken)
        else
          var name := children[0].token.value.text;
          if name !in NamesToSymbols then Err(UnknownName(name))
          else
            var symbol := NamesToSymbols[name];
            ReplaceChildren(n, children, Some(symbol.ty), Some(symbol));
            Ok(n.(children := children, ty := Some(symbol.ty), sym := Some(symbol)))
      else
        var ty := if n.kind == TextLiteral then Some(Text) else None;
        ReplaceChildren(n, children, ty, n.sym);
        Ok(n.(children := children, ty := ty))
  }

  /** The `foreach` over the children: each checked in order, the first
      failure ending the walk. */
  function CheckChildren(ns: seq<Node>): (r: Result<seq<Node>, CheckError>)
    ensures r.Ok? ==> SameShapes(r.value, ns)
    decreases SizeOf(ns), 1
  {
    if ns == [] then Ok([])
    else
      var first :- CheckType(ns[0]);
      var rest :- CheckChildren(ns[1..]);
      Ok([first] + rest)
  }

  function Glue(done: seq<Node>, rest: Result<seq<Node>, CheckError>): Result<seq<Node>, CheckError> {
    match rest
    case Ok(cs) => Ok(done + cs)
    case Err(e) => Err(e)
  }

  lemma ChildrenStep(ns: seq<Node>, i: nat, done: seq<Node>)
    requires i < |ns|
    ensures var first := CheckType(ns[i]);
      Glue(done, CheckChildren(ns[i..])) ==
        if first.Err? then Err(first.error) else Glue(done + [first.value], CheckChildren(ns[i + 1..]))
  {
    assert ns[i..][0] == ns[i] && ns[i..][1..] == ns[i + 1..];
    var rest := CheckChildren(ns[i + 1..]);
    if CheckType(ns[i]).Ok? && rest.Ok? {
      assert done + ([CheckType(ns[i]).value] + rest.value) == (done + [CheckType(ns[i]).value]) + rest.value;
    }
  }

  /** The `foreach` over the children as a loop that stops at the first failure. */
  method CheckEach(ns: seq<Node>) returns (r: Result<seq<Node>, CheckError>)
    ensures r == CheckChildren(ns)
    decreases SizeOf(ns), 1
  {
    var children: seq<Node> := [];
    var i := 0;
    assert ns[0..] == ns;
    assert CheckChildren(ns).Ok? ==> [] + CheckChildren(ns).value == CheckChildren(ns).value;
    while i < |ns|
      invariant i <= |ns|
      invariant CheckChildren(ns) == Glue(children, CheckChildren(ns[i..]))
    {
      ElementSize(ns, i);
      ChildrenStep(ns, i, children);
      var child := Check(ns[i]);
      if child.Err? {
        return Err(child.error);
      }
      children := children + [child.value];
      i := i + 1;
    }
    assert ns[i..] == [];
    assert children + [] == children;
    r := Ok(children);
  }

  /** CheckType as the source runs it: the `foreach` over the children is a
      loop that stops at the first failure. */
  method Check(n: Node) returns (r: Result<Node, CheckError>)
    ensures r == CheckType(n)
    decreases Size(n), 0
  {
    if n.kind == Binding || n.kind == ParameterDefinition {
      if |n.children| == 0 {
        return Err(MissingChild(n.kind));
      }
      var last := |n.children| - 1;
      ElementSize(n.children, last);
      var value := Check(n.children[last]);
      if value.Err? {
        return Err(value.error);
      }
      var children := n.children[last := value.value];
      children := children[0 := children[0].(ty := value.value.ty)];
      return Ok(n.(children := children, ty := value.value.ty));
    }
    var checked := CheckEach(n.children);
    if checked.Err? {
      return Err(checked.error);
    }
    var children := checked.value;
    var ty: Option<Type> := None;
    var sym := n.sym;
    if n.kind in {Expression, FunctionCall, ListLiteral} {
      if |children| == 0 {
        return Err(MissingChild(n.kind));
      }
      ElementSize(n.children, 0);
      var first := Check(children[0]);
      if first.Err? {
        return Err(first.error);
      }
      children := children[0 := first.value];
      if n.kind == Expression {
        ty := first.value.ty;
      } else if n.kind == FunctionCall {
        ty := ReturnTypeOf(first.value.ty);
      } else {
        ty := Some(ListType(first.value.ty));
      }
    } else if n.kind == Identifier {
      if |children| == 0 {
        return Err(MissingChild(n.kind));
      }
      if children[0].token.None? {
        return Err(NullToken);
      }
      var name := children[0].token.value.text;
      if name !in NamesToSymbols {
        return Err(UnknownName(name));
      }
      sym := Some(NamesToSymbols[name]);
      ty := Some(NamesToSymbols[name].ty);
    } else if n.kind == TextLiteral {
      ty := Some(Text);
    }
    r := Ok(n.(children := children, ty := ty, sym := sym));
  }

  /** `(type as FunctionType)?.ReturnType`. */
  function ReturnTypeOf(t: Option<Type>): (r: Option<Type>)
    ensures r.Some? <==> t.Some? && t.value.FunctionType?
    ensures r.Some? ==> r.value == t.value.returnType
  {
    if t.Some? && t.value.FunctionType? then Some(t.value.returnType) else None
  }

  // ---------------------------------------------------------------------
  // Properties of CheckType
  // ---------------------------------------------------------------------

  /** Checking is idempotent: a checked tree checks to itself. In particular
      the second check of `Children[0]` (Expression, FunctionCall, ListLiteral)
      changes nothing and returns the type the first check found. */
  lemma {:induction false} CheckTwice(n: Node)
    requires CheckType(n).Ok?
    ensures CheckType(CheckType(n).value) == CheckType(n)
    decreases Size(n), 1
  {
    if n.kind == Binding || n.kind == ParameterDefinition {
      CheckTwiceLast(n);
    } else {
      CheckTwiceChildren(n);
    }
  }

  /** CheckTwice for Binding and ParameterDefinition. */
  lemma {:induction false} CheckTwiceLast(n: Node)
    requires n.kind == Binding || n.kind == ParameterDefinition
    requires CheckType(n).Ok?
    ensures CheckType(CheckType(n).value) == CheckType(n)
    decreases Size(n), 0
  {
    var c := CheckType(n).value;
    var last := |n.children| - 1;
    ElementSize(n.children, last);
    CheckTwice(n.children[last]);
    var v := CheckType(n.children[last]).value;
    var w := n.children[last := v];
    var cs := w[0 := w[0].(ty := v.ty)];
    assert c == n.(children := cs, ty := v.ty);
    assert v.(ty := v.ty) == v;
    assert cs[last] == v;
    assert cs[last := v] == cs;
    assert cs[0].(ty := v.ty) == cs[0];
    assert cs[0 := cs[0]] == cs;
  }

  /** CheckTwice for the kinds whose children are all checked. */
  lemma {:induction false} CheckTwiceChildren(n: Node)
    requires n.kind != Binding && n.kind != ParameterDefinition
    requires CheckType(n).Ok?
    ensures CheckType(CheckType(n).value) == CheckType(n)
    decreases Size(n), 0
  {
    var cs := CheckChildren(n.children).value;
    CheckChildrenTwice(n.children);
    if n.kind in {Expression, FunctionCall, ListLiteral} {
      ElementSize(n.children, 0);
      CheckTwice(n.children[0]);
      assert cs[0] == CheckType(n.children[0]).value;
      assert cs[0 := cs[0]] == cs;
    }
  }

  lemma {:induction false} CheckChildrenTwice(ns: seq<Node>)
    requires CheckChildren(ns).Ok?
    ensures CheckChildren(CheckChildren(ns).value) == CheckChildren(ns)
    decreases SizeOf(ns), 2
  {
    if ns != [] {
      var cs := CheckChildren(ns).value;
      CheckTwice(ns[0]);
      CheckChildrenTwice(ns[1..]);
      assert cs[0] == CheckType(ns[0]).value;
      assert cs[1..] == CheckChildren(ns[1..]).value;
    }
  }

  /** The children walk succeeds exactly when every child checks, and then
      yields each child's own check. */
  lemma {:induction false} CheckChildrenElements(ns: seq<Node>)
    ensures CheckChildren(ns).Ok? <==> forall i :: 0 <= i < |ns| ==> CheckType(ns[i]).Ok?
    ensures CheckChildren(ns).Ok? ==>
      forall i :: 0 <= i < |ns| ==> CheckChildren(ns).value[i] == CheckType(ns[i]).value
    decreases |ns|
  {
    if ns != [] {
      CheckChildrenElements(ns[1..]);
      assert forall i :: 1 <= i < |ns| ==> ns[i] == ns[1..][i - 1];
    }
  }

  /** A failed walk reports the error of the first child that fails. */
  lemma {:induction false} CheckChildrenFirstError(ns: seq<Node>) returns (i: nat)
    requires CheckChildren(ns).Err?
    ensures i < |ns| && CheckType(ns[i]) == Err(CheckChildren(ns).error)
    ensures forall j :: 0 <= j < i ==> CheckType(ns[j]).Ok?
    decreases |ns|
  {
    if CheckType(ns[0]).Err? {
      i := 0;
    } else {
      var k := CheckChildrenFirstError(ns[1..]);
      i := k + 1;
      assert ns[i] == ns[1..][k];
      forall j | 0 <= j < i
        ensures CheckType(ns[j]).Ok?
      {
        if j > 0 {
          assert ns[j] == ns[1..][j - 1];
        }
      }
    }
  }

  /** Binding and ParameterDefinition: only the last child is checked; the
      node and its first child get that child's type, which is returned; the
      children in between are left as they were. */
  lemma BindingChecksLastChild(n: Node)
    requires n.kind == Binding || n.kind == ParameterDefinition
    ensures n.children == [] ==> CheckType(n) == Err(MissingChild(n.kind))
    ensures n.children != [] ==>
      var last := |n.children| - 1;
      var value := CheckType(n.children[last]);
      && (value.Err? ==> CheckType(n) == Err(value.error))
      && (value.Ok? ==>
            var c := CheckType(n).value;
            && CheckType(n).Ok?
            && c.ty == value.value.ty
            && c.sym == n.sym
            && c.children[0].ty == value.value.ty
            && c.children[last] == value.value
            && (last > 0 ==> c.children[0] == n.children[0].(ty := value.value.ty))
            && forall i :: 0 < i < last ==> c.children[i] == n.children[i])
  {
  }

  /** Every other kind checks all its children, and its type is determined by
      its kind and its first child's own check: an Expression has its child's
      type, a FunctionCall its callee's return type when the callee has a
      function type and none otherwise, a ListLiteral the list of its first
      element's type, a TextLiteral Text, an Identifier its built-in symbol's
      type, and any other kind none. */
  lemma OtherKindsCheckAllChildren(n: Node)
    requires n.kind != Binding && n.kind != ParameterDefinition
    requires CheckType(n).Ok?
    ensures var c := CheckType(n).value;
      && |c.children| == |n.children|
      && (forall i :: 0 <= i < |n.children| ==> CheckType(n.children[i]).Ok? && c.children[i] == CheckType(n.children[i]).value)
      && (n.kind in {Expression, FunctionCall, ListLiteral, Identifier} ==> n.children != [])
      && (n.kind == Expression ==> c.ty == CheckType(n.children[0]).value.ty)
      && (n.kind == FunctionCall ==> c.ty == ReturnTypeOf(CheckType(n.children[0]).value.ty))
      && (n.kind == ListLiteral ==> c.ty == Some(ListType(CheckType(n.children[0]).value.ty)))
      && (n.kind == TextLiteral ==> c.ty == Some(Text))
      && (n.kind == Identifier ==>
            && n.children[0].token.Some?
            && n.children[0].token.value.text in NamesToSymbols
            && c.sym == Some(NamesToSymbols[n.children[0].token.value.text])
            && c.ty == Some(NamesToSymbols[n.children[0].token.value.text].ty))
      && (n.kind !in {Expression, FunctionCall, ListLiteral, TextLiteral, Identifier} ==> c.ty.None? && c.sym == n.sym)
  {
    var cs := CheckChildren(n.children).value;
    CheckChildrenElements(n.children);
    if n.kind in {Expression, FunctionCall, ListLiteral} {
      CheckTwice(n.children[0]);
      assert cs[0 := cs[0]] == cs;
    }
    if n.kind == Identifier {
      assert Erase(cs[0]) == Erase(n.children[0]);
    }
  }

  /** An Identifier is looked up by its token's text: checking fails exactly
      when a child fails, the child is missing, it has no token, or the name is
      not a built-in. */
  lemma IdentifierLookup(n: Node)
    requires n.kind == Identifier
    requires forall i :: 0 <= i < |n.children| ==> CheckType(n.children[i]).Ok?
    ensures n.children == [] ==> CheckType(n) == Err(MissingChild(Identifier))
    ensures n.children != [] && n.children[0].token.None? ==> CheckType(n) == Err(NullToken)
    ensures n.children != [] && n.children[0].token.Some? ==>
      var name := n.children[0].token.value.text;
      && (name !in NamesToSymbols ==> CheckType(n) == Err(UnknownName(name)))
      && (name in NamesToSymbols ==>
            CheckType(n).Ok? && CheckType(n).value.sym == Some(NamesToSymbols[name])
            && CheckType(n).value.ty == Some(NamesToSymbols[name].ty))
  {
    CheckChildrenElements(n.children);
    if n.children != [] {
      assert Erase(CheckChildren(n.children).value[0]) == Erase(n.children[0]);
    }
  }

  /** No substitution of type arguments: a checked call of exec_JS has the
      declared return type TypeArgumentType("TReturn") whatever its argument. */
  lemma ExecJSReturnsTypeArgument(n: Node)
    requires n.kind == FunctionCall && n.children != []
    requires n.children[0].kind == Identifier && n.children[0].children != []
    requires n.children[0].children[0].token == Some(Lexer.Token(Lexer.Identifier, "exec_JS"))
    requires CheckType(n).Ok?
    ensures CheckType(n).value.ty == Some(TypeArgumentType("TReturn"))
  {
    OtherKindsCheckAllChildren(n);
    OtherKindsCheckAllChildren(n.children[0]);
  }

  /** A token leaf checks to itself: it has no children and its kind gets no
      type. */
  lemma TokenLeafChecks(t: Lexer.Token)
    ensures CheckType(Leaf(t)) == Ok(Leaf(t))
  {
    assert CheckChildren([]) == Ok([]);
  }

  /** A Binding records a type but adds no name: in a program that binds a
      name that is not a built-in and then uses it, the use is an unknown
      name. */
  lemma BindingAddsNoName(binding: Node, name: string)
    requires binding.kind == Binding && CheckType(binding).Ok?
    requires binding.children != [] && binding.children[0] == NewNode(Identifier, [Leaf(Lexer.Token(Lexer.Identifier, name))], None)
    requires name !in NamesToSymbols
    ensures var use := NewNode(Identifier, [Leaf(Lexer.Token(Lexer.Identifier, name))], None);
      CheckType(NewNode(Program, [binding, use], None)) == Err(UnknownName(name))
  {
    var leaf := Leaf(Lexer.Token(Lexer.Identifier, name));
    var use := NewNode(Identifier, [leaf], None);
    TokenLeafChecks(Lexer.Token(Lexer.Identifier, name));
    IdentifierLookup(use);
    assert [binding, use][0] == binding && [binding, use][1..] == [use];
    assert CheckChildren([use]) == Err(UnknownName(name));
    assert CheckChildren([binding, use]) == Err(UnknownName(name));
  }
}

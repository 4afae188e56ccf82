/** The `IType` records and the built-in symbol table of
    NextGenToDoApp/TypeChecker.cs. The model compares types
    structurally; the core never compares them. */
module Types {
  import opened Wrappers

  datatype Type =
    | BuiltInType(name: string)
      /** The element type is nullable: a list literal whose first element has
          no type gets `new ListType(null!)`. */
    | ListType(elementType: Option<Type>)
    | FunctionType(typeArgNames: seq<string>, paramTypes: seq<Type>, returnType: Type)
    | TypeArgumentType(name: string)

  const Nothing: Type := BuiltInType("Nothing")
  const Text: Type := BuiltInType("Text")
  const HtmlNode: Type := BuiltInType("HtmlNode")

  /** `ISymbol` has one implementation, `BuiltInSymbol`. */
  datatype Symbol = BuiltInSymbol(name: string, ty: Type)

  const NothingSymbol: Symbol := BuiltInSymbol("Nothing", Nothing)
  const TextSymbol: Symbol := BuiltInSymbol("Text", Text)
  const HtmlNodeSymbol: Symbol := BuiltInSymbol("HtmlNode", HtmlNode)
  const ExecJSSymbol: Symbol :=
    BuiltInSymbol("exec_JS", FunctionType(["TReturn"], [BuiltInType("Text")], TypeArgumentType("TReturn")))

  /** `Symbols.All`, in declaration order. */
  const AllSymbols: seq<Symbol> := [NothingSymbol, TextSymbol, HtmlNodeSymbol, ExecJSSymbol]
}

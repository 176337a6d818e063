/** The records of the symbol index: what the fuzzy searcher returns. */
module Items {
  import opened Wrappers

  /** The kind of an indexed symbol of the standard library. */
  datatype DenoItemType =
    | Class
    | Enum
    | File
    | Function
    | Import
    | Variable
    | Interface
    | Namespace
    | TypeAlias

  /** One searchable symbol: its name, the extension and path of its file, its kind and,
      for symbols inside a file, the line it is declared on. */
  datatype SearchItem = SearchItem(
    name: string,
    extension: string,
    path: string,
    kind: DenoItemType,
    lineNumber: Option<int>)

  /** The string value each enum member carries. */
  function TypeName(t: DenoItemType): (s: string)
    ensures |s| > 0
    ensures '-' !in s && '@' !in s
  {
    match t
    case Class => "class"
    case Enum => "enum"
    case File => "file"
    case Function => "function"
    case Import => "import"
    case Variable => "variable"
    case Interface => "interface"
    case Namespace => "namespace"
    case TypeAlias => "typeAlias"
  }

  /** The enum member whose string value is `s`, if any. */
  function ParseTypeName(s: string): (r: Option<DenoItemType>)
    ensures r.Some? ==> TypeName(r.value) == s
  {
    if s == "class" then Some(Class)
    else if s == "enum" then Some(Enum)
    else if s == "file" then Some(File)
    else if s == "function" then Some(Function)
    else if s == "import" then Some(Import)
    else if s == "variable" then Some(Variable)
    else if s == "interface" then Some(Interface)
    else if s == "namespace" then Some(Namespace)
    else if s == "typeAlias" then Some(TypeAlias)
    else None
  }

  /** Every member's string value reads back as that member, so distinct kinds have
      distinct string values. */
  lemma TypeNameRoundTrip(t: DenoItemType)
    ensures ParseTypeName(TypeName(t)) == Some(t)
  {
  }

  lemma TypeNameInjective(a: DenoItemType, b: DenoItemType)
    requires TypeName(a) == TypeName(b)
    ensures a == b
  {
    TypeNameRoundTrip(a);
    TypeNameRoundTrip(b);
  }
}

/** The slice of .NET reflection the generator reads: type shapes, their namespaces, the C# text
    `CSharpCodeProvider.GetTypeOutput` prints for them, and the declared members of models and enums. */
module ClrTypes {
  import opened Strings

  /** The CLR types CodeDom prints as C# keywords (and `DateTime`): the fifteen the Angular renderer
      treats as built-in ("default") types, plus `void` and `char`, which it does not. */
  datatype PrimKind =
    | Int | UInt | Long | ULong | Byte | SByte | Short | UShort | Float | Double | Decimal
    | Bool | Object | DateTime | String | Void | Char

  /** A CLR type reference.
      - `Nullable(t)` is `System.Nullable<t>`;
      - `Generic` is a constructed generic type; its type arguments are `first` followed by `rest`
        (a constructed generic type has at least one), `name` is the definition's name without the
        arity suffix, `isEnumerable` says it implements `IEnumerable`, and `isTaskOrActionResult`
        says it is assignable to `Task` or to `ActionResult`;
      - `Named` is any other class, struct, interface or enum, whose members the `Schema` describes;
      - `GenericParam` is an open type parameter such as `T`, with the namespace of its declarer. */
  datatype Type =
    | Prim(kind: PrimKind)
    | Nullable(underlying: Type)
    | Array(element: Type)
    | Generic(ns: string, name: string, first: Type, rest: seq<Type>,
              isEnumerable: bool, isTaskOrActionResult: bool)
    | Named(ns: string, name: string)
    | GenericParam(ns: string, name: string)
  {
    /** `Type.IsGenericType`. */
    predicate IsGenericType() {
      Nullable? || Generic?
    }

    /** `Type.GenericTypeArguments` of a constructed generic type. */
    function GenericArguments(): (args: seq<Type>)
      requires IsGenericType()
      ensures |args| > 0
    {
      if Nullable? then [underlying] else [first] + rest
    }
  }

  const AspNetHttp := "Microsoft.AspNetCore.Http"
  const AspNetMvc := "Microsoft.AspNetCore.Mvc"
  const Tasks := "System.Threading.Tasks"

  /** `typeof(IFormFile)`, the ASP.NET Core upload type. */
  const IFormFile: Type := Named(AspNetHttp, "IFormFile")
  const ActionResult: Type := Named(AspNetMvc, "ActionResult")
  const IActionResult: Type := Named(AspNetMvc, "IActionResult")
  /** The non-generic `System.Threading.Tasks.Task`. */
  const Task: Type := Named(Tasks, "Task")

  /** `Task<t>`. */
  function TaskOf(t: Type): Type {
    Generic(Tasks, "Task", t, [], false, true)
  }

  /** The C# keyword (or qualified name) CodeDom prints for a built-in type. */
  function PrimOutput(k: PrimKind): string {
    match k
    case Int => "int"
    case UInt => "uint"
    case Long => "long"
    case ULong => "ulong"
    case Byte => "byte"
    case SByte => "sbyte"
    case Short => "short"
    case UShort => "ushort"
    case Float => "float"
    case Double => "double"
    case Decimal => "decimal"
    case Bool => "bool"
    case Object => "object"
    case DateTime => "System.DateTime"
    case String => "string"
    case Void => "void"
    case Char => "char"
  }

  /** `Type.Name` of a built-in type: its simple CLR name. */
  function PrimName(k: PrimKind): string {
    match k
    case Int => "Int32"
    case UInt => "UInt32"
    case Long => "Int64"
    case ULong => "UInt64"
    case Byte => "Byte"
    case SByte => "SByte"
    case Short => "Int16"
    case UShort => "UInt16"
    case Float => "Single"
    case Double => "Double"
    case Decimal => "Decimal"
    case Bool => "Boolean"
    case Object => "Object"
    case DateTime => "DateTime"
    case String => "String"
    case Void => "Void"
    case Char => "Char"
  }

  /** `Type.Namespace`: an array lives in its element's namespace. */
  function Namespace(t: Type): string {
    match t
    case Prim(_) => "System"
    case Nullable(_) => "System"
    case Array(e) => Namespace(e)
    case Generic(ns, _, _, _, _, _) => ns
    case Named(ns, _) => ns
    case GenericParam(ns, _) => ns
  }

  /** `CSharpCodeProvider.GetTypeOutput(new CodeTypeReference(t))`: the fully qualified C# spelling,
      with keywords for built-in types and `<a, b>` for type arguments. */
  function TypeOutput(t: Type): string
    decreases t
  {
    match t
    case Prim(k) => PrimOutput(k)
    case Nullable(u) => "System.Nullable<" + TypeOutput(u) + ">"
    case Array(e) => TypeOutput(e) + "[]"
    case Generic(ns, n, f, r, _, _) => ns + "." + n + "<" + TypeOutput(f) + OutputList(r) + ">"
    case Named(ns, n) => ns + "." + n
    case GenericParam(_, n) => n
  }

  /** The `, arg` tail of a type-argument list. */
  function OutputList(ts: seq<Type>): string
    decreases ts
  {
    if |ts| == 0 then "" else ", " + TypeOutput(ts[0]) + OutputList(ts[1..])
  }

  /** A public instance property of a model class; `jsonName` is the `PropertyName` of its JSON
      property attribute, the empty string when there is none. */
  datatype Property = Property(name: string, jsonName: string, propType: Type)

  /** What reflection reports about a named type: an enum's member names in the order
      `Type.GetEnumNames` returns them (by the unsigned value of their constants), or a
      class's type parameters (empty unless it is a generic definition) and public properties. */
  datatype Definition =
    | EnumDef(members: seq<string>)
    | ClassDef(typeParams: seq<string>, props: seq<Property>)

  /** Definitions keyed by the simple type name (for a generic definition, its name without the
      arity suffix), the key the Angular renderer uses for its rendered-model list. */
  type Schema = map<string, Definition>

  /** The definition reflection yields for `name`; an undescribed type is a class without properties. */
  function DefinitionOf(schema: Schema, name: string): Definition {
    if name in schema then schema[name] else ClassDef([], [])
  }
}

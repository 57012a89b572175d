/** `SharpApiRenderer`: one C# service class per rendered controller, and the copied runtime file
    with its namespace token substituted. */
module SharpRenderer {
  import opened Wrappers
  import opened Seqs
  import opened Strings
  import opened Ordering
  import opened ClrTypes
  import opened ApiParameters
  import opened ApiActions
  import opened ApiControllers
  import opened ApiRenderers

  /** `GetTypeName`: the CodeDom spelling of the type, with each generic argument's spelling
      replaced by its own name, and the type's namespace prefix cut off. A `Nullable<T>` is a
      generic type with the single argument `T`. `None` is an exception thrown on the way. */
  function GetTypeName(t: Type): Option<string>
    decreases t, 0
  {
    var name :-
      if t.Generic? then
        var n :- ReplaceArgument(TypeOutput(t), t.first);
        ReplaceArguments(n, t.rest)
      else if t.Nullable? then
        ReplaceArgument(TypeOutput(t), t.underlying)
      else
        Some(TypeOutput(t));
    StripNamespace(name, Namespace(t))
  }

  /** One turn of the argument loop: every occurrence of the argument's spelling is replaced by its
      name; an empty spelling makes `Replace` throw. */
  function ReplaceArgument(name: string, a: Type): Option<string>
    decreases a, 1
  {
    var n := TypeOutput(a);
    if |n| == 0 then None
    else if Contains(name, n) then
      var r :- GetTypeName(a);
      Some(Replace(name, n, r))
    else Some(name)
  }

  function ReplaceArguments(name: string, args: seq<Type>): Option<string>
    decreases args, 2
  {
    if |args| == 0 then Some(name)
    else
      var n :- ReplaceArgument(name, args[0]);
      ReplaceArguments(n, args[1..])
  }

  lemma KeywordOutsideSystem(k: PrimKind, suffix: string)
    requires k != DateTime
    ensures !StartsWith(PrimOutput(k) + suffix, "System")
  {
    assert (PrimOutput(k) + suffix)[0] != 'S';
  }

  /** Built-in types keep their C# keyword; `System.DateTime` loses its namespace. */
  lemma BuiltInTypeName(k: PrimKind)
    ensures k != DateTime ==> GetTypeName(Prim(k)) == Some(PrimOutput(k))
    ensures k == DateTime ==> GetTypeName(Prim(k)) == Some("DateTime")
  {
    if k != DateTime {
      KeywordOutsideSystem(k, "");
      assert PrimOutput(k) + "" == PrimOutput(k);
    } else {
      StripQualifiedName("System", "DateTime");
    }
  }

  /** A model, and an array of models, is named without its namespace. */
  lemma NamedTypeName(ns: string, n: string)
    ensures GetTypeName(Named(ns, n)) == Some(n)
    ensures GetTypeName(Array(Named(ns, n))) == Some(n + "[]")
  {
    StripQualifiedName(ns, n);
    StripQualifiedName(ns, n + "[]");
    assert ns + "." + n + "[]" == ns + "." + (n + "[]");
  }

  /** A built-in argument leaves a name that spells it unchanged. */
  lemma BuiltInArgumentKept(k: PrimKind, name: string)
    requires k != DateTime
    requires Contains(name, PrimOutput(k))
    ensures ReplaceArgument(name, Prim(k)) == Some(name)
  {
    BuiltInTypeName(k);
    ReplaceIdentity(name, PrimOutput(k));
  }

  /** A nullable built-in type other than DateTime is spelled `Nullable<keyword>`. */
  lemma NullableBuiltInTypeName(k: PrimKind)
    requires k != DateTime
    ensures GetTypeName(Nullable(Prim(k))) == Some("Nullable<" + PrimOutput(k) + ">")
  {
    var kw := PrimOutput(k);
    var inner := "Nullable<" + kw + ">";
    var full := "System" + "." + inner;
    assert TypeOutput(Nullable(Prim(k))) == full;
    assert IsSubstringAt(full, kw, 16);
    BuiltInArgumentKept(k, full);
    StripQualifiedName("System", inner);
  }

  /** `GetParameterTypeName`: an upload is an `ApiFile`. */
  function GetParameterTypeName(p: ApiParameter): (r: Option<string>)
    ensures p.IsFile() ==> r == Some("ApiFile")
    ensures !p.IsFile() ==> r == GetTypeName(p.paramType)
  {
    if p.IsFile() then Some("ApiFile") else GetTypeName(p.paramType)
  }

  const AsyncSuffix := "Async"

  /** `GetActionName`: "Async" is appended unless the name already ends with it, ignoring case. */
  function GetActionName(methodName: string): (r: string)
    ensures EndsWithIgnoreCase(r, AsyncSuffix)
    ensures StartsWith(r, methodName)
    ensures EndsWithIgnoreCase(methodName, AsyncSuffix) ==> r == methodName
    ensures !EndsWithIgnoreCase(methodName, AsyncSuffix) ==> r == methodName + AsyncSuffix
  {
    if EndsWithIgnoreCase(methodName, AsyncSuffix) then methodName
    else
      var r := methodName + AsyncSuffix;
      assert r[|r| - |AsyncSuffix|..] == AsyncSuffix;
      r
  }

  /** Naming an action twice is naming it once. */
  lemma ActionNameIdempotent(methodName: string)
    ensures GetActionName(GetActionName(methodName)) == GetActionName(methodName)
  {
  }

  /** The namespaces of a list of types, in order. */
  function Namespaces(ts: seq<Type>): (r: seq<string>)
    ensures |r| == |ts|
    ensures forall i :: 0 <= i < |ts| ==> r[i] == Namespace(ts[i])
  {
    if |ts| == 0 then [] else [Namespace(ts[0])] + Namespaces(ts[1..])
  }

  /** The `using` lines: the distinct namespaces of the controller's types, in ascending order. */
  function Usings(types: seq<Type>): (r: seq<string>)
    ensures forall x :: x in r <==> x in Namespaces(types)
    ensures forall i, j :: 0 <= i < j < |r| ==> Lt(r[i], r[j])
  {
    var distinct := AddDistinct([], Namespaces(types));
    var r := SortBy(Identity, distinct);
    PermutationMembers(distinct, r);
    NoDupPermutation(distinct, r);
    SortedDistinctAscending(r);
    r
  }

  /** A sorted list without duplicates is strictly ascending. */
  lemma SortedDistinctAscending(r: seq<string>)
    requires SortedBy(Identity, r) && NoDup(r)
    ensures forall i, j :: 0 <= i < j < |r| ==> Lt(r[i], r[j])
  {
    forall i, j | 0 <= i < j < |r|
      ensures Lt(r[i], r[j])
    {
      assert Le(Identity(r[i]), Identity(r[j]));
      if Le(r[j], r[i]) {
        LeAntisymmetric(r[i], r[j]);
      }
    }
  }

  /** The URL: '/' and the templates joined with '/', each with its '?' markers removed; route
      placeholders stay as they are and become C# interpolation holes. */
  function ServiceUrl(templates: seq<string>): string {
    "/" + Join("/", WithoutMarkers(templates))
  }

  function WithoutMarkers(templates: seq<string>): (r: seq<string>)
    ensures |r| == |templates|
    ensures forall i :: 0 <= i < |templates| ==> r[i] == Replace(templates[i], "?", "")
  {
    if |templates| == 0 then [] else [Replace(templates[0], "?", "")] + WithoutMarkers(templates[1..])
  }

  /** A path parameter of a parsed action appears in the URL as its `{name}` placeholder. */
  lemma PathParameterVerbatim(m: MethodInfo, controllerTemplates: seq<string>, i: int)
    requires 0 <= i < |m.parameters|
    requires ParseAction(m, controllerTemplates).parameters[i].location == Path
    ensures Contains(ServiceUrl(ParseAction(m, controllerTemplates).templates), "{" + m.parameters[i].name + "}")
    ensures Contains(RenderAction(ParseAction(m, controllerTemplates)).url, "{" + m.parameters[i].name + "}")
  {
    var a := ParseAction(m, controllerTemplates);
    var name := m.parameters[i].name;
    assert a.parameters[i].location == LocationOf(m.parameters[i], a.templates);
    assert HasPlaceholder(a.templates, name);
    var k :| 0 <= k < |a.templates| && Contains(Replace(a.templates[k], "?", ""), "{" + name + "}");
    var parts := WithoutMarkers(a.templates);
    ContainsInJoin("/", parts, k, "{" + name + "}");
    ContainsInContext("/", Join("/", parts), "", "{" + name + "}");
    assert "/" + Join("/", parts) + "" == ServiceUrl(a.templates);
  }

  /** The C# builder call for one parameter, on its own line. */
  function CallText(c: BuilderCall): string {
    match c
    case FileParam(n) => "\n                .AddFormParam(\"" + n + "\", " + n + ")"
    case BodyParam(n) => "\n                .AddBodyParam(" + n + ")"
    case QueryParam(n) => "\n                .AddQueryParam(\"" + n + "\", " + n + ")"
  }

  /** The call text determines the call: kind and parameter name can be read back. */
  lemma CallTextInjective(a: BuilderCall, b: BuilderCall)
    requires CallText(a) == CallText(b)
    ensures a == b
  {
    assert CallText(a)[21] == CallText(b)[21];
    match a
    case FileParam(n) => TwiceEnclosedInjective("\n                .AddFormParam(\"", "\", ", ")", n, b.name);
    case BodyParam(n) => EnclosedInjective("\n                .AddBodyParam(", ")", n, b.name);
    case QueryParam(n) => TwiceEnclosedInjective("\n                .AddQueryParam(\"", "\", ", ")", n, b.name);
  }

  /** `Type name` in a service method's parameter list. */
  datatype ServiceParam = ServiceParam(typeName: Option<string>, name: string)

  /** One service method: its name, parameters, `ApiTask` type, URL, verb and builder calls. */
  datatype ServiceMethod = ServiceMethod(
    name: string,
    params: seq<ServiceParam>,
    returnType: Option<string>,
    url: string,
    verb: string,
    calls: seq<string>)

  /** `<name>Service.cs`: its usings, its namespace and one method per action. */
  datatype ServiceFile = ServiceFile(controller: string, usings: seq<string>, ns: string, methods: seq<ServiceMethod>)

  function ServiceParams(ps: seq<ApiParameter>): (r: seq<ServiceParam>)
    ensures |r| == |ps|
    ensures forall i :: 0 <= i < |ps| ==> r[i] == ServiceParam(GetParameterTypeName(ps[i]), ps[i].name)
  {
    if |ps| == 0 then [] else [ServiceParam(GetParameterTypeName(ps[0]), ps[0].name)] + ServiceParams(ps[1..])
  }

  /** One action of `RenderController`: parameters in order (an upload typed `ApiFile`), one
      builder call per parameter that is not in the path. */
  function RenderAction(a: ApiAction): (r: ServiceMethod)
    ensures |r.params| == |a.parameters|
    ensures forall i :: 0 <= i < |a.parameters| ==>
      r.params[i].name == a.parameters[i].name
      && (a.parameters[i].IsFile() ==> r.params[i].typeName == Some("ApiFile"))
      && (!a.parameters[i].IsFile() ==> r.params[i].typeName == GetTypeName(a.parameters[i].paramType))
    ensures |r.calls| == |Filter(NeedsCall, a.parameters)|
    ensures forall j :: 0 <= j < |r.calls| ==> r.calls[j] == CallText(CallOf(Filter(NeedsCall, a.parameters)[j]))
    ensures EndsWithIgnoreCase(r.name, AsyncSuffix) && r.verb == a.verb
    // named, typed and addressed as the naming functions say
    ensures r.name == GetActionName(a.methodInfo.name)
    ensures r.returnType == GetTypeName(a.returnType)
    ensures r.url == ServiceUrl(a.templates)
  {
    ServiceMethod(
      GetActionName(a.methodInfo.name),
      ServiceParams(a.parameters),
      GetTypeName(a.returnType),
      ServiceUrl(a.templates),
      a.verb,
      Map(CallText, BuilderCalls(a.parameters)))
  }

  function RenderActions(actions: seq<ApiAction>): (r: seq<ServiceMethod>)
    ensures |r| == |actions|
    ensures forall i :: 0 <= i < |actions| ==> r[i] == RenderAction(actions[i])
  {
    if |actions| == 0 then [] else [RenderAction(actions[0])] + RenderActions(actions[1..])
  }

  /** `RenderController`: usings, the `<root>.Services` namespace and one method per action. */
  function RenderController(c: ApiController, rootNamespace: string): (r: ServiceFile)
    ensures r.controller == ControllerName(c)
    ensures r.ns == rootNamespace + ".Services"
    ensures r.methods == RenderActions(c.actions)
    // the usings are exactly the namespaces of the controller's types, each once, ascending
    ensures r.usings == Usings(c.types)
    ensures forall x :: x in r.usings <==> x in Namespaces(c.types)
  {
    ServiceFile(ControllerName(c), Usings(c.types), rootNamespace + ".Services", RenderActions(c.actions))
  }

  /** `SharpApiRenderer.Render`: one service file per controller that passes the ignore list, in
      assembly order. */
  function Render(controllers: seq<ApiController>, ignore: Option<seq<string>>, rootNamespace: string): (r: seq<ServiceFile>)
    ensures |r| == |Scheduled(controllers, ignore)|
    ensures forall i :: 0 <= i < |r| ==> r[i] == RenderController(Scheduled(controllers, ignore)[i], rootNamespace)
  {
    RenderAll(Scheduled(controllers, ignore), rootNamespace)
  }

  function RenderAll(cs: seq<ApiController>, rootNamespace: string): (r: seq<ServiceFile>)
    ensures |r| == |cs|
    ensures forall i :: 0 <= i < |cs| ==> r[i] == RenderController(cs[i], rootNamespace)
  {
    if |cs| == 0 then [] else [RenderController(cs[0], rootNamespace)] + RenderAll(cs[1..], rootNamespace)
  }

  const NamespaceToken := "ApiServiceNamespace"

  /** `CopyService`: every occurrence of the token in the runtime file becomes the root namespace. */
  function CopyService(code: string, rootNamespace: string): string {
    Replace(code, NamespaceToken, rootNamespace)
  }

  /** A runtime file made of token-free pieces separated by the token comes out with the root
      namespace in each of those places and the pieces themselves untouched. */
  lemma CopyServiceSubstitutes(pieces: seq<string>, rootNamespace: string)
    requires forall i :: 0 <= i < |pieces| ==> !Contains(pieces[i], NamespaceToken)
    ensures CopyService(Join(NamespaceToken, pieces), rootNamespace) == Join(rootNamespace, pieces)
  {
    UniqueHeadBorderFree(NamespaceToken);
    ReplaceJoin(NamespaceToken, rootNamespace, pieces);
  }

  /** Without the token the runtime file is copied unchanged. */
  lemma CopyServiceWithoutToken(code: string, rootNamespace: string)
    requires !Contains(code, NamespaceToken)
    ensures CopyService(code, rootNamespace) == code
  {
    ReplaceAbsent(code, NamespaceToken, rootNamespace);
  }
}

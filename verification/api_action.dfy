/** `ApiAction`: the contract of one controller method (clean return type, HTTP verb, route
    templates, parameter locations and the types it refers to). */
module ApiActions {
  import opened Seqs
  import opened Strings
  import opened ClrTypes
  import opened ApiParameters

  /** The model-binding attributes (`IBindingSourceMetadata`) a parameter can carry. */
  datatype BindingSource = FromBody | FromQuery | FromRoute | FromForm | FromHeader | FromServices

  /** Reflection data of one method parameter; `bindingSources` lists its binding attributes in the
      order reflection returns them. */
  datatype ParameterInfo = ParameterInfo(name: string, paramType: Type, bindingSources: seq<BindingSource>)

  /** Reflection data of one controller method: `routeTemplates` holds the `Template` of every
      route-template attribute on it (the empty string for a null template), and `httpMethods` the
      `HttpMethods` list of every `HttpMethodAttribute` on it. */
  datatype MethodInfo = MethodInfo(
    name: string,
    returnType: Type,
    parameters: seq<ParameterInfo>,
    routeTemplates: seq<string>,
    httpMethods: seq<seq<string>>)

  /** A built action. */
  datatype ApiAction = ApiAction(
    methodInfo: MethodInfo,
    returnType: Type,
    verb: string,
    templates: seq<string>,
    parameters: seq<ApiParameter>,
    types: seq<Type>)

  /** A generic type assignable to `Task` or `ActionResult`, which the return type is unwrapped from. */
  predicate IsWrapper(t: Type) {
    t.Generic? && t.isTaskOrActionResult
  }

  /** `r` is reached from `t` by repeatedly taking the first type argument of a wrapper. */
  predicate UnwrapsTo(t: Type, r: Type)
    decreases t
  {
    t == r || (IsWrapper(t) && UnwrapsTo(t.first, r))
  }

  /** `SetCleanReturnType`: strips `Task<..>` / `ActionResult<..>` layers until the type is not a wrapper. */
  function CleanReturnType(t: Type): (r: Type)
    ensures !IsWrapper(r)
    ensures UnwrapsTo(t, r)
    decreases t
  {
    if IsWrapper(t) then CleanReturnType(t.first) else t
  }

  /** The cleaned type is the only non-wrapper that unwrapping can reach, and cleaning is idempotent. */
  lemma {:induction false} CleanReturnTypeUnique(t: Type, r: Type)
    requires UnwrapsTo(t, r) && !IsWrapper(r)
    ensures r == CleanReturnType(t)
    ensures CleanReturnType(r) == r
    decreases t
  {
    if t != r {
      CleanReturnTypeUnique(t.first, r);
    }
  }

  /** The verb of the method's first `HttpMethodAttribute`, or "" when there is none. */
  function ExplicitVerb(m: MethodInfo): string {
    if |m.httpMethods| > 0 && |m.httpMethods[0]| > 0 then m.httpMethods[0][0] else ""
  }

  /** The HTTP method of an action: an explicit attribute wins; otherwise "POST" when the method
      name starts or ends with "Post" (ordinal), else "GET". */
  function InferVerb(m: MethodInfo): (verb: string)
    ensures verb != ""
    ensures ExplicitVerb(m) != "" ==> verb == ExplicitVerb(m)
    ensures ExplicitVerb(m) == "" ==>
      (verb == "POST" <==> StartsWith(m.name, "Post") || EndsWith(m.name, "Post"))
    ensures ExplicitVerb(m) == "" ==> verb == "POST" || verb == "GET"
  {
    var explicit := ExplicitVerb(m);
    if explicit != "" then explicit
    else if StartsWith(m.name, "Post") || EndsWith(m.name, "Post") then "POST"
    else "GET"
  }

  predicate NonEmpty(s: string) {
    s != ""
  }

  /** Some route template, with every '?' removed, contains the placeholder `{name}`. */
  predicate HasPlaceholder(templates: seq<string>, name: string) {
    exists i | 0 <= i < |templates| :: Contains(Replace(templates[i], "?", ""), "{" + name + "}")
  }

  /** The location of one parameter, by precedence: upload, then `[FromBody]` as the first binding
      attribute, then a matching route placeholder, else the query string. */
  function LocationOf(p: ParameterInfo, templates: seq<string>): Location {
    if p.paramType == IFormFile then Body
    else if |p.bindingSources| > 0 && p.bindingSources[0] == FromBody then Body
    else if HasPlaceholder(templates, p.name) then Path
    else Query
  }

  function ParseParameters(ps: seq<ParameterInfo>, templates: seq<string>): (r: seq<ApiParameter>)
    ensures |r| == |ps|
    ensures forall i :: 0 <= i < |ps| ==>
      r[i] == ApiParameter(ps[i].name, ps[i].paramType, LocationOf(ps[i], templates))
  {
    if |ps| == 0 then []
    else
      [ApiParameter(ps[0].name, ps[0].paramType, LocationOf(ps[0], templates))]
      + ParseParameters(ps[1..], templates)
  }

  /** A parameter other than an upload: its type enters `Types`. */
  predicate NotUpload(p: ParameterInfo) {
    p.paramType != IFormFile
  }

  function ParamTypeOf(p: ParameterInfo): Type {
    p.paramType
  }

  /** The declared types of the parameters that are not uploads, in order and with repeats, as the
      `Types.Add` calls of the parameter loop append them. */
  function NonFileTypes(ps: seq<ParameterInfo>): (r: seq<Type>)
    ensures r == Map(ParamTypeOf, Filter(NotUpload, ps))
  {
    if |ps| == 0 then []
    else
      var tail := NonFileTypes(ps[1..]);
      if ps[0].paramType == IFormFile then tail
      else
        assert ([ps[0]] + Filter(NotUpload, ps[1..]))[1..] == Filter(NotUpload, ps[1..]);
        [ps[0].paramType] + tail
  }

  /** No upload type is in the list, every other parameter's type is, and nothing else is. */
  lemma NonFileTypesMembers(ps: seq<ParameterInfo>)
    ensures IFormFile !in NonFileTypes(ps)
    ensures forall i :: 0 <= i < |ps| && ps[i].paramType != IFormFile ==> ps[i].paramType in NonFileTypes(ps)
    ensures forall t :: t in NonFileTypes(ps) ==> exists i :: 0 <= i < |ps| && ps[i].paramType == t
  {
    var kept := Filter(NotUpload, ps);
    TypesOfKept(kept, NonFileTypes(ps));
    forall i | 0 <= i < |ps| && ps[i].paramType != IFormFile
      ensures ps[i].paramType in NonFileTypes(ps)
    {
      assert NotUpload(ps[i]);
      assert ps[i] in kept;
    }
  }

  /** The types of kept parameters: each one is a kept parameter's type, and every kept parameter's
      type is there. */
  lemma TypesOfKept(kept: seq<ParameterInfo>, r: seq<Type>)
    requires r == Map(ParamTypeOf, kept)
    ensures forall t :: t in r ==> exists p :: p in kept && p.paramType == t
    ensures forall p :: p in kept ==> p.paramType in r
  {
    forall p | p in kept
      ensures p.paramType in r
    {
      var j :| 0 <= j < |kept| && kept[j] == p;
      assert r[j] == p.paramType;
    }
    forall t | t in r
      ensures exists p :: p in kept && p.paramType == t
    {
      var j :| 0 <= j < |r| && r[j] == t;
      assert kept[j] in kept;
    }
  }

  /** `ApiAction.Parse`: builds the action of method `m` under the controller's route templates. */
  function ParseAction(m: MethodInfo, controllerTemplates: seq<string>): (a: ApiAction)
    ensures a.methodInfo == m
    // the return type is cleaned of wrappers and heads the type list
    ensures a.returnType == CleanReturnType(m.returnType) && !IsWrapper(a.returnType)
    ensures |a.types| > 0 && a.types[0] == a.returnType
    // controller templates first, then the method's, empty ones dropped
    ensures a.templates == Filter(NonEmpty, controllerTemplates) + Filter(NonEmpty, m.routeTemplates)
    ensures "" !in a.templates
    ensures a.verb == InferVerb(m)
    // one parameter per declared parameter, same name and type, in declaration order
    ensures |a.parameters| == |m.parameters|
    ensures forall i :: 0 <= i < |m.parameters| ==>
      a.parameters[i].name == m.parameters[i].name && a.parameters[i].paramType == m.parameters[i].paramType
    ensures forall i :: 0 <= i < |m.parameters| ==> a.parameters[i].location == LocationOf(m.parameters[i], a.templates)
    // uploads never enter the type list; every other parameter type does, in declaration order
    ensures a.types[1..] == Map(ParamTypeOf, Filter(NotUpload, m.parameters))
    ensures IFormFile !in a.types[1..]
    ensures forall i :: 0 <= i < |m.parameters| && !a.parameters[i].IsFile() ==> a.parameters[i].paramType in a.types
    ensures forall t :: t in a.types[1..] ==> exists i :: 0 <= i < |m.parameters| && a.parameters[i].paramType == t
  {
    var templates := Filter(NonEmpty, controllerTemplates) + Filter(NonEmpty, m.routeTemplates);
    var ret := CleanReturnType(m.returnType);
    var params := ParseParameters(m.parameters, templates);
    var types := [ret] + NonFileTypes(m.parameters);
    assert types[1..] == NonFileTypes(m.parameters);
    NonFileTypesMembers(m.parameters);
    ApiAction(m, ret, InferVerb(m), templates, params, types)
  }
}

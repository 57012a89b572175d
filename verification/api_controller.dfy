/** `ApiController`: the actions of one controller type and the union of the types they use. */
module ApiControllers {
  import opened Seqs
  import opened ClrTypes
  import opened ApiActions

  /** A method as `Type.GetMethods` reports it. `declaredHere` says its declaring type is the
      controller type itself rather than a base class. */
  datatype MethodDecl = MethodDecl(info: MethodInfo, isPublic: bool, isStatic: bool, declaredHere: bool)

  /** An exported type of the server assembly: `routeTemplates` are the templates of its
      route-template attributes, `methods` its methods in reflection order. */
  datatype ControllerType = ControllerType(
    ns: string,
    name: string,
    isSubclassOfController: bool,
    isAbstract: bool,
    routeTemplates: seq<string>,
    methods: seq<MethodDecl>)

  /** A built controller: its type, its actions, the distinct types they use (first use first),
      and its route templates (kept verbatim, empty ones included). */
  datatype ApiController = ApiController(
    controllerType: ControllerType,
    actions: seq<ApiAction>,
    types: seq<Type>,
    templates: seq<string>)

  /** `GetMethods(BindingFlags.Public | BindingFlags.Instance)` restricted to `DeclaringType == Type`. */
  predicate IsConsidered(m: MethodDecl) {
    m.isPublic && !m.isStatic && m.declaredHere
  }

  /** Return types that carry no payload and make a method produce no action. */
  predicate IsExcludedReturnType(t: Type) {
    t == ActionResult || t == IActionResult || t == Task
    || t == TaskOf(IActionResult) || t == TaskOf(ActionResult)
  }

  /** The method becomes an action. */
  predicate YieldsAction(m: MethodDecl) {
    IsConsidered(m) && !IsExcludedReturnType(m.info.returnType)
  }

  /** One action per method that yields one, in method order. */
  function BuildActions(ms: seq<MethodDecl>, templates: seq<string>): (r: seq<ApiAction>)
    ensures |r| == |Filter(YieldsAction, ms)|
    ensures forall i :: 0 <= i < |r| ==> r[i] == ParseAction(Filter(YieldsAction, ms)[i].info, templates)
  {
    if |ms| == 0 then []
    else
      var rest := BuildActions(ms[1..], templates);
      if YieldsAction(ms[0]) then
        var kept := Filter(YieldsAction, ms[1..]);
        assert Filter(YieldsAction, ms) == [ms[0]] + kept;
        var r := [ParseAction(ms[0].info, templates)] + rest;
        assert forall i :: 0 < i < |r| ==> r[i] == rest[i - 1] && ([ms[0]] + kept)[i] == kept[i - 1];
        r
      else
        rest
  }

  /** The type lists of the actions, concatenated in order. */
  function AllTypes(actions: seq<ApiAction>): (r: seq<Type>)
    ensures forall t :: t in r <==> exists j :: 0 <= j < |actions| && t in actions[j].types
  {
    if |actions| == 0 then []
    else
      var tail := AllTypes(actions[1..]);
      assert forall j :: 1 <= j < |actions| ==> actions[j] == actions[1..][j - 1];
      actions[0].types + tail
  }

  /** `ApiController.Parse` for a controller type. The source appends, after each new action, the
      action's types that the list does not hold yet (the `Where` filter runs lazily inside
      `AddRange`, so a type repeated within one action is also added once): that is `AddDistinct`
      over all action types in order. */
  function ParseController(ct: ControllerType): (c: ApiController)
    ensures c.controllerType == ct && c.templates == ct.routeTemplates
    // exactly one action per considered method with a payload-carrying return type, in order
    ensures |c.actions| == |Filter(YieldsAction, ct.methods)|
    ensures forall i :: 0 <= i < |c.actions| ==>
      c.actions[i] == ParseAction(Filter(YieldsAction, ct.methods)[i].info, ct.routeTemplates)
    // the type list holds each type of each action, once
    ensures NoDup(c.types)
    ensures forall t :: t in c.types <==> exists j :: 0 <= j < |c.actions| && t in c.actions[j].types
  {
    var actions := BuildActions(ct.methods, ct.routeTemplates);
    ApiController(ct, actions, AddDistinct([], AllTypes(actions)), ct.routeTemplates)
  }

  /** Every action of a controller comes from a public instance method the controller itself
      declares, whose return type is not one of the excluded payload-free types, and it gets the
      controller's non-empty templates as its route prefix. */
  lemma {:induction false} ActionsComeFromOwnMethods(ct: ControllerType, i: int)
    requires 0 <= i < |ParseController(ct).actions|
    ensures var a := ParseController(ct).actions[i];
      && (exists m :: m in ct.methods && IsConsidered(m) && m.info == a.methodInfo)
      && !IsExcludedReturnType(a.methodInfo.returnType)
      && a.templates[..|Filter(ApiActions.NonEmpty, ct.routeTemplates)|] == Filter(ApiActions.NonEmpty, ct.routeTemplates)
  {
    var kept := Filter(YieldsAction, ct.methods);
    var a := ParseController(ct).actions[i];
    assert kept[i] in kept;
    assert a.methodInfo == kept[i].info;
    var f := Filter(ApiActions.NonEmpty, ct.routeTemplates);
    assert a.templates == f + Filter(ApiActions.NonEmpty, kept[i].info.routeTemplates);
    assert a.templates[..|f|] == f;
  }
}

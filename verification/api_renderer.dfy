/** `ApiRenderer`: which controllers a renderer renders and in which order, plus the request-builder
    calls both target renderers emit for an action's parameters. */
module ApiRenderers {
  import opened Wrappers
  import opened Seqs
  import opened Strings
  import opened ApiParameters
  import opened ApiControllers

  const ControllerSuffix := "Controller"

  /** `name.Replace("Controller", "")`. */
  function StripController(name: string): string {
    Replace(name, ControllerSuffix, "")
  }

  /** `GetControllerName`: the controller type's name with every "Controller" removed. */
  function ControllerName(c: ApiController): string {
    StripController(c.controllerType.name)
  }

  lemma ControllerSuffixBorderFree()
    ensures BorderFree(ControllerSuffix)
  {
    UniqueHeadBorderFree(ControllerSuffix);
  }

  /** Removing "Controller" from `x + "Controller"` gives back `x` when `x` has no "Controller". */
  lemma StripControllerSuffix(x: string)
    requires !Contains(x, ControllerSuffix)
    ensures StripController(x + ControllerSuffix) == x
  {
    ControllerSuffixBorderFree();
    var parts := [x, ""];
    assert !Contains("", ControllerSuffix) by {
      assert forall i :: !IsSubstringAt("", ControllerSuffix, i);
    }
    ReplaceJoin(ControllerSuffix, "", parts);
    assert Join(ControllerSuffix, parts) == x + ControllerSuffix + "";
    assert x + ControllerSuffix + "" == x + ControllerSuffix;
    assert Join("", parts) == x;
  }

  /** `ShouldRenderController`: `ignore` is `ControllersToIgnore`, `None` when it is null. */
  predicate ShouldRenderController(c: ApiController, ignore: Option<seq<string>>) {
    ignore.None? || ControllerName(c) !in ignore.value
  }

  /** The controllers `Render` hands to `RenderController`. */
  function Scheduled(controllers: seq<ApiController>, ignore: Option<seq<string>>): seq<ApiController> {
    Filter((c: ApiController) => ShouldRenderController(c, ignore), controllers)
  }

  /** `ApiRenderer.Render`: visits the controllers in assembly order and returns, in order, those
      it renders. */
  method Render(controllers: seq<ApiController>, ignore: Option<seq<string>>) returns (visited: seq<ApiController>)
    ensures visited == Scheduled(controllers, ignore)
    ensures forall c :: c in visited <==> c in controllers && ShouldRenderController(c, ignore)
    ensures ignore.None? ==> visited == controllers
  {
    var keep := (c: ApiController) => ShouldRenderController(c, ignore);
    visited := [];
    var i := 0;
    while i < |controllers|
      invariant 0 <= i <= |controllers|
      invariant visited == Filter(keep, controllers[..i])
      invariant ignore.None? ==> visited == controllers[..i]
    {
      assert controllers[..i + 1] == controllers[..i] + [controllers[i]];
      FilterSnoc(keep, controllers[..i], controllers[i]);
      if keep(controllers[i]) {
        visited := visited + [controllers[i]];
      }
      i := i + 1;
    }
    assert controllers[..i] == controllers;
  }

  /** A request-builder call attached for one parameter. */
  datatype BuilderCall = FileParam(name: string) | BodyParam(name: string) | QueryParam(name: string)

  /** The parameter gets a builder call: uploads always, otherwise every location but `Path`. */
  predicate NeedsCall(p: ApiParameter) {
    p.IsFile() || p.location != Path
  }

  /** The call for a parameter that needs one. */
  function CallOf(p: ApiParameter): BuilderCall {
    if p.IsFile() then FileParam(p.name)
    else if p.location == Body then BodyParam(p.name)
    else QueryParam(p.name)
  }

  /** The `foreach` over an action's parameters: uploads get a file call, then the `switch` on
      the location gives a body call or a query call, and a path parameter gets none. */
  function BuilderCalls(ps: seq<ApiParameter>): (calls: seq<BuilderCall>)
    ensures |calls| == |Filter(NeedsCall, ps)|
    ensures forall j :: 0 <= j < |calls| ==> calls[j] == CallOf(Filter(NeedsCall, ps)[j])
  {
    if |ps| == 0 then []
    else
      var p := ps[0];
      var head :=
        if p.IsFile() then [FileParam(p.name)]
        else match p.location
          case Body => [BodyParam(p.name)]
          case Query => [QueryParam(p.name)]
          case Path => [];
      head + BuilderCalls(ps[1..])
  }

  /** `if (name.StartsWith(ns)) name = name.Substring(ns.Length + 1)`, shared by both renderers'
      `GetTypeName`. `Substring` throws when `name` is exactly `ns` (`None`). */
  function StripNamespace(name: string, ns: string): (r: Option<string>)
    ensures !StartsWith(name, ns) ==> r == Some(name)
    ensures StartsWith(name, ns) && |name| > |ns| ==> r == Some(name[|ns| + 1..])
    ensures r.None? <==> name == ns
  {
    if StartsWith(name, ns) then
      if |name| == |ns| then None else Some(name[|ns| + 1..])
    else Some(name)
  }

  /** A name qualified by its namespace loses exactly the namespace and the dot. */
  lemma StripQualifiedName(ns: string, n: string)
    ensures StripNamespace(ns + "." + n, ns) == Some(n)
  {
    assert (ns + "." + n)[..|ns|] == ns;
    assert (ns + "." + n)[|ns| + 1..] == n;
  }
}

/** `AngularApiRenderer.RenderController` and the rendering pass over an assembly: one service file
    per rendered controller, the model files its imports pull in, and the lists the module and
    index files are written from. */
module AngularRenderer {
  import opened Wrappers
  import opened Seqs
  import opened Strings
  import opened Ordering
  import opened ClrTypes
  import opened ApiParameters
  import opened ApiActions
  import opened ApiControllers
  import opened ApiRenderers
  import opened AngularNames
  import opened AngularImports

  /** `name: Type` in a service method's parameter list. */
  datatype ServiceParam = ServiceParam(name: string, typeName: Option<string>)

  /** One service method: its name, parameters, `Observable` type, URL template, HTTP verb and the
      builder calls chained after `request`. */
  datatype ServiceMethod = ServiceMethod(
    name: string,
    params: seq<ServiceParam>,
    returnType: Option<string>,
    url: string,
    verb: string,
    calls: seq<string>)

  /** `services/<name>.service.ts`: the class `<name>Service`, its model imports and its methods. */
  datatype ServiceFile = ServiceFile(controller: string, imports: seq<string>, methods: seq<ServiceMethod>)

  /** A service file and the model state after writing it. */
  datatype ServiceStep = ServiceStep(file: ServiceFile, models: Models)

  /** Everything a rendering pass leaves behind: the service files, `_renderedControllers` (from
      which `api.module.ts` and `index.ts` list the services) and the models (`index.ts` exports
      every rendered model). */
  datatype Output = Output(services: seq<ServiceFile>, controllers: seq<string>, models: Models)

  /** The TypeScript builder call for one parameter. */
  function CallText(c: BuilderCall): string {
    match c
    case FileParam(n) => ".addFileParam('" + n + "', " + n + ")"
    case BodyParam(n) => ".addBodyParam(" + n + ")"
    case QueryParam(n) => ".addQueryParam('" + n + "', " + n + ")"
  }

  /** The call text determines the call: kind and parameter name can be read back. */
  lemma CallTextInjective(a: BuilderCall, b: BuilderCall)
    requires CallText(a) == CallText(b)
    ensures a == b
  {
    assert CallText(a)[4] == CallText(b)[4];
    match a
    case FileParam(n) => TwiceEnclosedInjective(".addFileParam('", "', ", ")", n, b.name);
    case BodyParam(n) => EnclosedInjective(".addBodyParam(", ")", n, b.name);
    case QueryParam(n) => TwiceEnclosedInjective(".addQueryParam('", "', ", ")", n, b.name);
  }

  function ServiceParams(ps: seq<ApiParameter>): (r: seq<ServiceParam>)
    ensures |r| == |ps|
    ensures forall i :: 0 <= i < |ps| ==> r[i] == ServiceParam(ps[i].name, GetParameterTypeName(ps[i]))
  {
    if |ps| == 0 then [] else [ServiceParam(ps[0].name, GetParameterTypeName(ps[0]))] + ServiceParams(ps[1..])
  }

  /** One action of `RenderController`: the method keeps the action's parameters in order (an
      upload typed `Blob`), and attaches one builder call per parameter that is not in the path. */
  function RenderAction(a: ApiAction): (r: ServiceMethod)
    ensures |r.params| == |a.parameters|
    ensures forall i :: 0 <= i < |a.parameters| ==>
      r.params[i].name == a.parameters[i].name
      && (a.parameters[i].IsFile() ==> r.params[i].typeName == Some("Blob"))
      && (!a.parameters[i].IsFile() ==> r.params[i].typeName == GetTypeName(a.parameters[i].paramType))
    ensures |r.calls| == |Filter(NeedsCall, a.parameters)|
    ensures forall j :: 0 <= j < |r.calls| ==> r.calls[j] == CallText(CallOf(Filter(NeedsCall, a.parameters)[j]))
    ensures r.verb == a.verb
    // named, typed and addressed as the naming functions say
    ensures r.name == GetActionName(a.methodInfo.name)
    ensures r.returnType == GetTypeName(a.returnType)
    ensures r.url == ServiceUrl(a.templates)
  {
    ServiceMethod(
      GetActionName(a.methodInfo.name),
      ServiceParams(a.parameters),
      GetTypeName(a.returnType),
      ServiceUrl(a.templates),
      a.verb,
      Map(CallText, BuilderCalls(a.parameters)))
  }

  function RenderActions(actions: seq<ApiAction>): (r: seq<ServiceMethod>)
    ensures |r| == |actions|
    ensures forall i :: 0 <= i < |actions| ==> r[i] == RenderAction(actions[i])
  {
    if |actions| == 0 then [] else [RenderAction(actions[0])] + RenderActions(actions[1..])
  }

  /** `RenderController`: the controller's types are walked for imports (rendering the models they
      need), the imports are written sorted, and one method follows per action in order. The import
      lines are exactly the models and generic definitions the types refer to, each once, and each
      is a rendered model afterwards. */
  function RenderController(schema: Schema, c: ApiController, m: Models): (r: ServiceStep)
    ensures r.file.controller == ControllerName(c)
    ensures r.file.methods == RenderActions(c.actions)
    ensures SortedBy(Identity, r.file.imports) && NoDup(r.file.imports)
    ensures forall x :: x in r.file.imports <==> x in RefsAll(c.types)
    ensures forall x :: x in r.file.imports ==> x in r.models.rendered
    ensures Advances(schema, m, r.models)
  {
    var w := ArgsWalk(schema, c.types, [], m);
    ArgsWalkSpec(schema, c.types, [], m);
    var imports := SortBy(Identity, w.imports);
    NoDupPermutation(w.imports, imports);
    assert forall x :: x in imports <==> x in multiset(w.imports);
    ServiceStep(ServiceFile(ControllerName(c), imports, RenderActions(c.actions)), w.models)
  }

  /** The service file rendered for controller `c`: named after it, one method per action, and
      importing exactly what its types refer to. */
  ghost predicate Serves(f: ServiceFile, c: ApiController) {
    && f.controller == ControllerName(c)
    && f.methods == RenderActions(c.actions)
    && (forall x :: x in f.imports <==> x in RefsAll(c.types))
  }

  /** The `Render` loop over the controllers that pass the ignore list. */
  function RenderServices(schema: Schema, cs: seq<ApiController>, out: Output): (r: Output)
    ensures |r.services| == |out.services| + |cs|
    ensures r.controllers == out.controllers + Map(ControllerName, cs)
    decreases |cs|
  {
    if |cs| == 0 then out
    else
      var next := RenderNext(schema, cs[0], out);
      MapCons(ControllerName, cs);
      ConcatAssoc(out.controllers, [ControllerName(cs[0])], Map(ControllerName, cs[1..]));
      RenderServices(schema, cs[1..], next)
  }

  /** The loop only appends: the files written before it are left in place. */
  lemma {:induction false} RenderServicesPrefix(schema: Schema, cs: seq<ApiController>, out: Output)
    ensures RenderServices(schema, cs, out).services[..|out.services|] == out.services
    decreases |cs|
  {
    if |cs| > 0 {
      var next := RenderNext(schema, cs[0], out);
      RenderServicesUnfold(schema, cs, out);
      RenderServicesPrefix(schema, cs[1..], next);
      PrefixOfPrefix(out.services, next.services, RenderServices(schema, cs[1..], next).services);
    }
  }

  lemma PrefixOfPrefix<T>(a: seq<T>, b: seq<T>, c: seq<T>)
    requires |a| <= |b| <= |c| && b[..|a|] == a && c[..|b|] == b
    ensures c[..|a|] == a
  {
    assert c[..|a|] == c[..|b|][..|a|];
  }

  /** One turn of the loop: the controller's service file is written and its name recorded. */
  function RenderNext(schema: Schema, c: ApiController, out: Output): (r: Output)
    ensures r.services == out.services + [RenderController(schema, c, out.models).file]
    ensures r.controllers == out.controllers + [ControllerName(c)]
    ensures r.models == RenderController(schema, c, out.models).models
  {
    var step := RenderController(schema, c, out.models);
    Output(out.services + [step.file], out.controllers + [ControllerName(c)], step.models)
  }

  lemma RenderControllerServes(schema: Schema, c: ApiController, m: Models)
    ensures Serves(RenderController(schema, c, m).file, c)
  {
  }

  /** The first file the loop appends serves the first controller. */
  lemma RenderServicesHead(schema: Schema, cs: seq<ApiController>, out: Output)
    requires |cs| > 0
    ensures Serves(RenderServices(schema, cs, out).services[|out.services|], cs[0])
  {
    var next := RenderNext(schema, cs[0], out);
    var r := RenderServices(schema, cs[1..], next);
    assert RenderServices(schema, cs, out) == r;
    var f := RenderController(schema, cs[0], out.models).file;
    RenderControllerServes(schema, cs[0], out.models);
    assert next.services == out.services + [f];
    assert next.services[|out.services|] == f;
    RenderServicesPrefix(schema, cs[1..], next);
    assert r.services[|out.services|] == r.services[..|next.services|][|out.services|];
  }

  /** From position `base` on, the service files serve `cs` in order. */
  ghost predicate ServesFrom(services: seq<ServiceFile>, base: nat, cs: seq<ApiController>) {
    base + |cs| <= |services| && forall k | 0 <= k < |cs| :: Serves(services[base + k], cs[k])
  }

  lemma ServesFromCons(services: seq<ServiceFile>, base: nat, cs: seq<ApiController>)
    requires |cs| > 0 && base < |services| && Serves(services[base], cs[0])
    requires ServesFrom(services, base + 1, cs[1..])
    ensures ServesFrom(services, base, cs)
  {
    forall k | 0 < k < |cs|
      ensures Serves(services[base + k], cs[k])
    {
      assert cs[1..][k - 1] == cs[k];
      assert base + 1 + (k - 1) == base + k;
    }
  }

  /** The loop appends, for each controller in turn, the service file that serves it. */
  lemma {:induction false} RenderServicesServe(schema: Schema, cs: seq<ApiController>, out: Output)
    ensures ServesFrom(RenderServices(schema, cs, out).services, |out.services|, cs)
    decreases |cs|
  {
    if |cs| > 0 {
      var next := RenderNext(schema, cs[0], out);
      var rest := RenderServices(schema, cs[1..], next);
      RenderServicesUnfold(schema, cs, out);
      RenderServicesHead(schema, cs, out);
      RenderServicesServe(schema, cs[1..], next);
      ServesFromCons(rest.services, |out.services|, cs);
    }
  }

  /** One turn of the loop, then the rest. */
  lemma RenderServicesUnfold(schema: Schema, cs: seq<ApiController>, out: Output)
    requires |cs| > 0
    ensures RenderServices(schema, cs, out) == RenderServices(schema, cs[1..], RenderNext(schema, cs[0], out))
    ensures |RenderNext(schema, cs[0], out).services| == |out.services| + 1
  {
  }

  /** A finished rendering state: consistent, no model half-written, and every service import
      names a rendered model. */
  predicate Complete(out: Output) {
    && Consistent(out.models)
    && Pending(out.models) == {}
    && (forall i, x :: 0 <= i < |out.services| && x in out.services[i].imports ==> x in out.models.rendered)
  }

  lemma {:induction false} RenderServicesComplete(schema: Schema, cs: seq<ApiController>, out: Output)
    requires Complete(out)
    ensures Complete(RenderServices(schema, cs, out))
    decreases |cs|
  {
    if |cs| > 0 {
      var step := RenderController(schema, cs[0], out.models);
      var next := RenderNext(schema, cs[0], out);
      ArgsWalkKeeps(schema, cs[0].types, [], out.models);
      PrefixSubset(out.models.rendered, step.models.rendered);
      assert Complete(next) by {
        forall i, x | 0 <= i < |next.services| && x in next.services[i].imports
          ensures x in next.models.rendered
        {
          if i < |out.services| {
            assert next.services[i] == out.services[i];
          }
        }
      }
      RenderServicesComplete(schema, cs[1..], next);
    }
  }

  /** `AngularApiRenderer.Render` after the output directories are recreated: every controller that
      passes the ignore list gets a service file, in assembly order. */
  function Render(schema: Schema, controllers: seq<ApiController>, ignore: Option<seq<string>>): (r: Output)
    ensures r.controllers == Map(ControllerName, Scheduled(controllers, ignore))
    ensures |r.services| == |Scheduled(controllers, ignore)|
    ensures forall i :: 0 <= i < |r.services| ==> Serves(r.services[i], Scheduled(controllers, ignore)[i])
  {
    var r := RenderServices(schema, Scheduled(controllers, ignore), Output([], [], Models([], [])));
    RenderServicesServe(schema, Scheduled(controllers, ignore), Output([], [], Models([], [])));
    r
  }

  /** After a rendering pass each rendered model has exactly one model file and no model is
      rendered twice; every import of every service file and every model file names a rendered
      model, so the generated client refers only to files it contains. */
  lemma RenderIsClosed(schema: Schema, controllers: seq<ApiController>, ignore: Option<seq<string>>)
    ensures var r := Render(schema, controllers, ignore);
      && NoDup(r.models.rendered)
      && NoDup(FileNames(r.models.files))
      && (forall x :: x in r.models.rendered <==> x in FileNames(r.models.files))
      && (forall i, x :: 0 <= i < |r.services| && x in r.services[i].imports ==> x in r.models.rendered)
      && Closed(r.models)
  {
    var empty := Output([], [], Models([], []));
    assert Complete(empty);
    RenderServicesComplete(schema, Scheduled(controllers, ignore), empty);
    var r := Render(schema, controllers, ignore);
    forall x | x in r.models.rendered
      ensures x in FileNames(r.models.files)
    {
      assert x !in Pending(r.models);
    }
  }

  /** A path parameter of a parsed action, named by word characters, appears in the service URL
      as `${encodeURIComponent(String(name))}`. */
  lemma PathParameterInterpolated(m: MethodInfo, controllerTemplates: seq<string>, i: int)
    requires 0 <= i < |m.parameters|
    requires ParseAction(m, controllerTemplates).parameters[i].location == Path
    requires IsWord(m.parameters[i].name)
    ensures Contains(ServiceUrl(ParseAction(m, controllerTemplates).templates), Expansion(m.parameters[i].name))
    ensures Contains(RenderAction(ParseAction(m, controllerTemplates)).url, Expansion(m.parameters[i].name))
  {
    var a := ParseAction(m, controllerTemplates);
    var name := m.parameters[i].name;
    assert a.parameters[i].location == LocationOf(m.parameters[i], a.templates);
    assert HasPlaceholder(a.templates, name);
    var k :| 0 <= k < |a.templates| && Contains(Replace(a.templates[k], "?", ""), "{" + name + "}");
    var t := Replace(a.templates[k], "?", "");
    var j :| 0 <= j <= |t| - |"{" + name + "}"| && IsSubstringAt(t, "{" + name + "}", j);
    InterpolateExposesPlaceholder(t, name, j);
    var parts := InterpolatedTemplates(a.templates);
    ContainsInJoin("/", parts, k, Expansion(name));
    ContainsInContext("/", Join("/", parts), "", Expansion(name));
    assert "/" + Join("/", parts) + "" == ServiceUrl(a.templates);
  }

  /** The class a controller's service file declares. */
  function ServiceClass(controller: string): string {
    controller + "Service"
  }

  /** The module path of a controller's service file, relative to the output directory. */
  function ServicePath(controller: string): string {
    "./services/" + LowerAll(controller) + ".service"
  }

  function ServiceImport(controller: string): string {
    "import { " + ServiceClass(controller) + " } from '" + ServicePath(controller) + "';"
  }

  function ServiceProvider(controller: string): string {
    "        " + ServiceClass(controller) + ","
  }

  function ServiceExport(controller: string): string {
    "export { " + ServiceClass(controller) + " } from '" + ServicePath(controller) + "';"
  }

  function ModelExport(model: string): string {
    "export { " + model + " } from './models/" + model + "';"
  }

  /** The fixed lines of `api.module.ts` before the service imports. */
  const ModuleHeader: seq<string> := [
    "import { NgModule } from '@angular/core';",
    "import { HttpClientModule } from '@angular/common/http';",
    "import { ApiService } from './api.service';",
    ""]

  /** The fixed lines between the service imports and the providers. */
  const ModuleDecorator: seq<string> := [
    "",
    "@NgModule({",
    "    imports: [HttpClientModule],",
    "    declarations: [],",
    "    exports: [],",
    "    providers: ["]

  /** The fixed lines after the providers. */
  const ModuleFooter: seq<string> := [
    "        ApiService",
    "    ]",
    "})",
    "export class ApiModule {",
    "}"]

  /** Where the service imports, the providers and the fixed lines sit in `api.module.ts`. */
  lemma ModuleLayout(imports: seq<string>, providers: seq<string>)
    requires |imports| == |providers|
    ensures var lines := ModuleHeader + imports + ModuleDecorator + providers + ModuleFooter;
      var n := |imports|;
      |lines| == 2 * n + 15
      && lines[4..4 + n] == imports && lines[10 + n..10 + 2 * n] == providers
      && lines[6 + n] == "    imports: [HttpClientModule],"
      && lines[9 + n] == "    providers: [" && lines[10 + 2 * n] == "        ApiService"
  {
    var n := |imports|;
    var lines := ModuleHeader + imports + ModuleDecorator + providers + ModuleFooter;
    FiveParts(ModuleHeader, imports, ModuleDecorator, providers, ModuleFooter);
    assert lines[4 + n..10 + n] == ModuleDecorator;
    assert lines[4 + n..10 + n][2] == lines[6 + n];
    assert lines[4 + n..10 + n][5] == lines[9 + n];
    assert lines[10 + 2 * n..] == ModuleFooter;
    assert lines[10 + 2 * n..][0] == lines[10 + 2 * n];
  }

  /** Every service import and every provider is a line of `api.module.ts`. */
  lemma ModuleLayoutMembers(imports: seq<string>, providers: seq<string>)
    ensures var lines := ModuleHeader + imports + ModuleDecorator + providers + ModuleFooter;
      (forall x :: x in imports ==> x in lines) && (forall x :: x in providers ==> x in lines)
  {
  }

  /** `RenderModule`: the lines of `api.module.ts`. Every rendered controller's service is
      imported after the fixed imports and listed among the providers, in controller order, after
      `HttpClientModule` and before `ApiService`. */
  function RenderModule(controllers: seq<string>): (lines: seq<string>)
    ensures forall c :: c in controllers ==> ServiceImport(c) in lines && ServiceProvider(c) in lines
    ensures "        ApiService" in lines && "    imports: [HttpClientModule]," in lines
    ensures |lines| == 2 * |controllers| + 15
    ensures lines[4..4 + |controllers|] == Map(ServiceImport, controllers)
    ensures lines[10 + |controllers|..10 + 2 * |controllers|] == Map(ServiceProvider, controllers)
    ensures lines[9 + |controllers|] == "    providers: ["
    ensures lines[10 + 2 * |controllers|] == "        ApiService"
  {
    var imports := Map(ServiceImport, controllers);
    var providers := Map(ServiceProvider, controllers);
    ModuleLayout(imports, providers);
    ModuleLayoutMembers(imports, providers);
    ModuleHeader + imports + ModuleDecorator + providers + ModuleFooter
  }

  /** `RenderIndex`: the lines of `index.ts`. It re-exports the module, every rendered controller's
      service and every rendered model. */
  function RenderIndex(controllers: seq<string>, models: seq<string>): (lines: seq<string>)
    ensures |lines| > 0 && lines[0] == "export { ApiModule } from './api.module';"
    ensures forall c :: c in controllers ==> ServiceExport(c) in lines
    ensures forall m :: m in models ==> ModelExport(m) in lines
    ensures |lines| == |controllers| + |models| + 3
  {
    var services := Map(ServiceExport, controllers);
    var exports := Map(ModelExport, models);
    var head := ["export { ApiModule } from './api.module';", ""];
    var lines := head + services + [""] + exports;
    forall c | c in controllers
      ensures ServiceExport(c) in services
    {
      var i :| 0 <= i < |controllers| && controllers[i] == c;
      assert services[i] in services;
    }
    forall m | m in models
      ensures ModelExport(m) in exports
    {
      var i :| 0 <= i < |models| && models[i] == m;
      assert exports[i] in exports;
    }
    assert lines[0] == head[0];
    lines
  }

  /** After a rendering pass `index.ts` exports every service file and every model file written,
      and `api.module.ts` provides every service. */
  lemma IndexExportsEveryFile(schema: Schema, controllers: seq<ApiController>, ignore: Option<seq<string>>)
    ensures var r := Render(schema, controllers, ignore);
      var index := RenderIndex(r.controllers, r.models.rendered);
      var providers := RenderModule(r.controllers);
      && (forall i :: 0 <= i < |r.services| ==>
            ServiceExport(r.services[i].controller) in index && ServiceProvider(r.services[i].controller) in providers)
      && (forall i :: 0 <= i < |r.models.files| ==> ModelExport(r.models.files[i].name) in index)
  {
    var r := Render(schema, controllers, ignore);
    var cs := Scheduled(controllers, ignore);
    forall i | 0 <= i < |r.services|
      ensures r.services[i].controller in r.controllers
    {
      assert Serves(r.services[i], cs[i]);
      assert r.controllers[i] == ControllerName(cs[i]);
    }
    RenderIsClosed(schema, controllers, ignore);
    forall i | 0 <= i < |r.models.files|
      ensures r.models.files[i].name in r.models.rendered
    {
      assert FileNames(r.models.files)[i] == r.models.files[i].name;
    }
  }
}

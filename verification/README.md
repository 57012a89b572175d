# Sharpness API client generator, publish diff and web logger gate, in Dafny

This project models the core of Sharpness, a set of .NET tools.

The centre of the model is the **API client code generator** (`Sharpness.Codegen`):
- It reads an ASP.NET Core server assembly and builds `ApiAssembly`, `ApiController`, `ApiAction` and `ApiParameter` definitions. The definitions record each action's cleaned return type, HTTP verb, route templates and parameter locations.
- `AngularApiRenderer` turns them into a TypeScript client: one `*.service.ts` file per controller, one model file per referenced server type, an `api.module.ts` and an `index.ts`.
- `SharpApiRenderer` turns them into a C# client: one `*Service.cs` per controller and a copied `ApiService.cs` runtime file.

Two smaller pieces are modelled beside it:
- the comparison step of `RemoteMachine.PublishDirectory` (`Sharpness.Publish`), which decides which files to upload and which remote files to delete;
- the level gate and write-or-drop decision of `WebLogger` (`Sharpness.Logging.Aspnet`).

Reflection results are data here. A `ClrTypes.Type` describes a CLR type:
- a built-in type;
- `Nullable<T>`;
- an array;
- a constructed generic type, with flags for "assignable to `IEnumerable`" and "is a `Task`/`ActionResult` wrapper";
- a named model type;
- a generic parameter.

`ClrTypes.TypeOutput` is the C# spelling CodeDom prints. A `Schema` maps a model type's simple name to its enum members or its properties. Text output is modelled as the values written into each file: imports, fields, method names, URLs and builder calls. Exceptions become `None` in an `Option`. A `None` type name is carried into the rendered value rather than stopping the pass (see "## Left out").

Modules, one per file:
- **Support modules.**
  - `Wrappers`: `Option`.
  - `Seqs`: filter, map, distinct append.
  - `Strings`: `Replace`, `Join`, ASCII case.
  - `Ordering`: ordinal string order and a stable insertion sort.
- **`ClrTypes`**: the type and schema data.
- **Definitions.** `ApiParameters`, `ApiActions`, `ApiControllers`, `ApiAssemblies` and `ApiRenderers` (the shared base class).
- **Angular renderer.**
  - `AngularNames`: type names, action names and URL interpolation.
  - `AngularImports`: the recursive `FillImports`/`RenderModel` walk.
  - `AngularRenderer`: service files, module and index.
- **`SharpRenderer`**: the C# renderer.
- **`PublishDiff`**: the comparison step of the publisher.
- **`WebLogging`**: the logger gate.

## Model

| member | source | states |
|---|---|---|
| ApiActions.CleanReturnType | Sharpness.Codegen/Definitions/ApiAction.cs:33-45 | The recorded return type is not a generic `Task`/`ActionResult`. It is reached from the declared return type by repeatedly taking the first type argument of such a wrapper. |
| ApiActions.CleanReturnTypeUnique | Sharpness.Codegen/Definitions/ApiAction.cs:33-45 | That non-wrapper is the only one unwrapping can reach, and cleaning an already clean type changes nothing. |
| ApiActions.InferVerb | Sharpness.Codegen/Definitions/ApiAction.cs:64-81 | The verb of the first `HttpMethodAttribute` wins. Without one, the verb is "POST" exactly when the method name starts or ends with "Post", otherwise "GET". It is never empty. |
| ApiActions.NonFileTypes | Sharpness.Codegen/Definitions/ApiAction.cs:83-99 | The recorded types are the declared types of the non-upload parameters, in declaration order and with repeats, as the `Types.Add` calls append them. |
| ApiActions.NonFileTypesMembers | Sharpness.Codegen/Definitions/ApiAction.cs:83-99 | No `IFormFile` is recorded, every other parameter type is, and nothing else is. |
| ApiActions.ParseParameters | Sharpness.Codegen/Definitions/ApiAction.cs:83-119 | One parameter per declared parameter, in order, with its name and type. Its location is `Body` for uploads or a first `[FromBody]`, `Path` when a '?'-free template contains `{name}`, otherwise `Query`. |
| ApiActions.ParseAction | Sharpness.Codegen/Definitions/ApiAction.cs:47-120 | Templates are the non-empty controller templates followed by the non-empty action templates. The types list starts with the clean return type, followed by the non-upload parameter types in declaration order, repeats included. Verb and parameters are as above. |
| ApiControllers.BuildActions | Sharpness.Codegen/Definitions/ApiController.cs:36-53 | One action per own public instance method whose return type carries a payload, in method order, parsed under the controller's templates. |
| ApiControllers.AllTypes | Sharpness.Codegen/Definitions/ApiController.cs:55 | A type is collected exactly when some action uses it. |
| ApiControllers.ParseController | Sharpness.Codegen/Definitions/ApiController.cs:30-57 | The controller keeps its templates. Its actions are as above. Its types list is free of duplicates and holds exactly the types its actions use. |
| ApiControllers.ActionsComeFromOwnMethods | Sharpness.Codegen/Definitions/ApiController.cs:36-51 | Every action comes from a method the controller declares itself, with a return type other than the five excluded ones. |
| ApiAssemblies.ParseAssembly | Sharpness.Codegen/Definitions/ApiAssembly.cs:23-32 | One controller per exported non-abstract `Controller` subclass, in export order, and no other. |
| ApiRenderers.StripControllerSuffix | Sharpness.Codegen/Definitions/ApiRenderer.cs:34-37 | Removing "Controller" from `X` + "Controller" gives back `X` when `X` contains no "Controller". |
| ApiRenderers.Render | Sharpness.Codegen/Definitions/ApiRenderer.cs:17-32 | The loop renders, in assembly order, exactly the controllers whose stripped name is not in the ignore list. With no ignore list it renders all of them. |
| ApiRenderers.BuilderCalls | Sharpness.Codegen/Renderers/AngularApiRenderer.cs:283-301 | One builder call per parameter that is an upload (a file call) or lies in the body or query (a body or query call). Path parameters get none. |
| ApiRenderers.StripNamespace | Sharpness.Codegen/Renderers/AngularApiRenderer.cs:119-122 | A name that starts with the namespace loses it and the following character. Other names stay. The cut throws exactly when the name is the namespace itself. |
| ApiRenderers.StripQualifiedName | Sharpness.Codegen/Renderers/SharpApiRenderer.cs:41-44 | A name qualified as `ns.n` comes out as `n`. |
| AngularNames.DefaultTypeNames | Sharpness.Codegen/Renderers/AngularApiRenderer.cs:30-94 | The eleven numeric types are named "number". bool, DateTime, object and string are named "boolean", "Date", "object" and "string". A nullable default type gets "\|null" appended. `void` and `char` are not default types and keep their C# keyword. |
| AngularNames.NullableTypeName | Sharpness.Codegen/Renderers/AngularApiRenderer.cs:52-128 | `Nullable<T>` is named after `T` with "\|null" appended, and fails exactly when `T`'s name fails. |
| AngularNames.NamedTypeName | Sharpness.Codegen/Renderers/AngularApiRenderer.cs:96-122 | A model type is named without its namespace. |
| AngularNames.EnumerableTypeName | Sharpness.Codegen/Renderers/AngularApiRenderer.cs:101-104 | An enumerable generic type is named after its first argument followed by "[]", provided that text does not start with the collection's namespace. Line 119 cuts that prefix without checking for a dot, so a collection in namespace `App` over a model `Apple` would come out as `le[]`. |
| AngularNames.ArrayOfBuiltInAsWritten | Sharpness.Codegen/Renderers/AngularApiRenderer.cs:96-122 | As written, an array of a built-in type keeps its C# spelling, such as `int[]` (see Findings). |
| AngularNames.ArrayTypeName | Sharpness.Codegen/Renderers/AngularApiRenderer.cs:101-104 | Corrected: an array is named like an enumerable, after its element type followed by "[]", so `int[]` becomes `number[]`. |
| AngularNames.GetParameterTypeName | Sharpness.Codegen/Renderers/AngularApiRenderer.cs:133-140 | An upload is typed `Blob`. Every other parameter gets its type's name. |
| AngularNames.ActionNameSpec | Sharpness.Codegen/Renderers/AngularApiRenderer.cs:142-148 | The action name is the method name with its first letter lower-cased and one trailing "Async" removed. |
| AngularNames.InterpolateExposesPlaceholder | Sharpness.Codegen/Renderers/AngularApiRenderer.cs:268-272 | Every `{word}` placeholder in a template appears in the rewritten template as `${encodeURIComponent(String(word))}`. |
| AngularNames.InterpolatePlain | Sharpness.Codegen/Renderers/AngularApiRenderer.cs:268-272 | A template without '{' is left as it is. |
| AngularNames.InterpolatedTemplates | Sharpness.Codegen/Renderers/AngularApiRenderer.cs:268-272 | Each template has its '?' removed and is then interpolated, in order. |
| AngularImports.FieldName | Sharpness.Codegen/Renderers/AngularApiRenderer.cs:364-373 | Corrected behaviour (see Findings): a field is named by its JSON property name when that is non-empty, otherwise by the property name with its first character lower-cased. |
| AngularImports.Fields | Sharpness.Codegen/Renderers/AngularApiRenderer.cs:360-378 | One field per property, in the given order, with its name and its property type's name. |
| AngularImports.RenderModel | Sharpness.Codegen/Renderers/AngularApiRenderer.cs:314-384 | Rendering a model marks it rendered and only appends marks and files. The number of described models still unrendered never rises, so the walk terminates. |
| AngularImports.RenderModelAsWritten | Sharpness.Codegen/Renderers/AngularApiRenderer.cs:356-367 | As written, rendering fails exactly for a class model with at least one property. Any other model is written as the corrected renderer writes it (see Findings). |
| AngularImports.PropertyModelThrows | Sharpness.Codegen/Renderers/AngularApiRenderer.cs:356-378 | On a class `Point` with one `int` property `X`, the as-written renderer fails. The corrected one writes the interface `Point` with the single field `x: number`. |
| AngularImports.ModelImports | Sharpness.Codegen/Renderers/AngularApiRenderer.cs:351 | A model file imports the walk's names except its own, in ascending order. |
| AngularImports.ModelImportsNoDup | Sharpness.Codegen/Renderers/AngularApiRenderer.cs:351 | The model file's import list repeats no name. |
| AngularImports.FillImportsSpec | Sharpness.Codegen/Renderers/AngularApiRenderer.cs:150-206 | After the walk over a type, the import list is the old one extended, still without duplicates. It holds exactly the old names plus the models the type refers to. Each of those models has been rendered. |
| AngularImports.ArgsWalkSpec | Sharpness.Codegen/Renderers/AngularApiRenderer.cs:184-187 | The same for a list of types: the imports gained are exactly the models the list refers to, and all are rendered. |
| AngularImports.PropsWalkSpec | Sharpness.Codegen/Renderers/AngularApiRenderer.cs:343-349 | The same for a class's properties, skipping those typed by one of the class's own generic parameters. |
| AngularImports.ReferenceSpec | Sharpness.Codegen/Renderers/AngularApiRenderer.cs:192-203 | A referenced model is rendered, and its name is added to the imports unless it is already there. |
| AngularImports.DefinitionWalkSpec | Sharpness.Codegen/Renderers/AngularApiRenderer.cs:170-187 | A non-enumerable generic type imports its definition and then whatever its arguments refer to. |
| AngularImports.FillImportsKeeps | Sharpness.Codegen/Renderers/AngularApiRenderer.cs:150-206 | The walk keeps the model state consistent. No model is marked twice and no file is written twice. Every file belongs to a marked model, and every model-file import names a marked model. Every model the walk starts is finished. |
| AngularImports.RenderModelKeeps | Sharpness.Codegen/Renderers/AngularApiRenderer.cs:314-384 | Rendering one model keeps the state consistent and writes its file before returning. |
| AngularImports.RenderClassKeeps | Sharpness.Codegen/Renderers/AngularApiRenderer.cs:329-381 | Rendering a class writes its interface file, whose imports are all marked models. |
| AngularRenderer.CallTextInjective | Sharpness.Codegen/Renderers/AngularApiRenderer.cs:283-301 | Two builder-call lines are equal only for the same kind of call on the same parameter. |
| AngularRenderer.RenderAction | Sharpness.Codegen/Renderers/AngularApiRenderer.cs:264-307 | A service method has one parameter per action parameter, with uploads typed `Blob` and every other parameter named by its type. It has one builder-call line per parameter not in the path, in order, and uses the action's verb. Its name is the action name (`ActionNameSpec`), its return type is the return type's name, and its URL is the interpolated template URL (`PathParameterInterpolated`). |
| AngularRenderer.RenderController | Sharpness.Codegen/Renderers/AngularApiRenderer.cs:230-312 | The service file is named after the controller. Its imports are sorted and distinct, and hold exactly the models its types refer to. Each of those models is rendered. It has one method per action. |
| AngularRenderer.RenderServicesServe | Sharpness.Codegen/Renderers/AngularApiRenderer.cs:230-312 | The i-th service file of the pass serves the i-th rendered controller. |
| AngularRenderer.RenderServicesPrefix | Sharpness.Codegen/Renderers/AngularApiRenderer.cs:230-312 | Rendering further controllers only appends service files; the files already written stay as they were. |
| AngularRenderer.Render | Sharpness.Codegen/Renderers/AngularApiRenderer.cs:218-228 | The pass writes one service file per controller that passes the ignore list, in order, and records their names for the module and the index. |
| AngularRenderer.RenderIsClosed | Sharpness.Codegen/Renderers/AngularApiRenderer.cs:150-206 | After the pass, each rendered model has exactly one file, and no model is rendered twice. Every import of every service or model file names a rendered model. |
| AngularRenderer.PathParameterInterpolated | Sharpness.Codegen/Renderers/AngularApiRenderer.cs:268-272 | A path parameter with a word-character name reaches the service method's URL as its `encodeURIComponent` interpolation. |
| AngularRenderer.RenderModule | Sharpness.Codegen/Renderers/AngularApiRenderer.cs:386-424 | `api.module.ts` imports every rendered controller's service in order after the three fixed imports. It then lists them as providers in the same order, after `providers: [` and just before `ApiService`, in 2n+15 lines. |
| AngularRenderer.RenderIndex | Sharpness.Codegen/Renderers/AngularApiRenderer.cs:426-447 | `index.ts` exports the module, every rendered controller's service and every rendered model. |
| AngularRenderer.IndexExportsEveryFile | Sharpness.Codegen/Renderers/AngularApiRenderer.cs:426-447 | After a pass, every service file and every model file written is exported from `index.ts`, and every service is provided by the module. |
| SharpRenderer.BuiltInTypeName | Sharpness.Codegen/Renderers/SharpApiRenderer.cs:24-47 | A built-in type keeps its C# keyword. `System.DateTime` becomes `DateTime`. |
| SharpRenderer.NamedTypeName | Sharpness.Codegen/Renderers/SharpApiRenderer.cs:41-44 | A model type, and an array of one, is named without its namespace. |
| SharpRenderer.NullableBuiltInTypeName | Sharpness.Codegen/Renderers/SharpApiRenderer.cs:28-44 | A nullable built-in type other than DateTime is named `Nullable<keyword>`. |
| SharpRenderer.GetParameterTypeName | Sharpness.Codegen/Renderers/SharpApiRenderer.cs:49-56 | An upload is typed `ApiFile`. Every other parameter gets its type's name. |
| SharpRenderer.GetActionName | Sharpness.Codegen/Renderers/SharpApiRenderer.cs:58-68 | A name that already ends with "Async", ignoring case, is unchanged. Any other name gets "Async" appended. Either way the result starts with the method name and ends with "Async", ignoring case. |
| SharpRenderer.ActionNameIdempotent | Sharpness.Codegen/Renderers/SharpApiRenderer.cs:58-68 | Naming an action twice is naming it once. |
| SharpRenderer.Usings | Sharpness.Codegen/Renderers/SharpApiRenderer.cs:77-83 | The `using` lines name exactly the namespaces of the controller's types, each once, in strictly ascending order. |
| SharpRenderer.PathParameterVerbatim | Sharpness.Codegen/Renderers/SharpApiRenderer.cs:99-100 | A path parameter's `{name}` placeholder survives into the service method's URL, where it becomes a C# interpolation hole. |
| SharpRenderer.CallTextInjective | Sharpness.Codegen/Renderers/SharpApiRenderer.cs:108-126 | Two builder-call texts are equal only for the same kind of call on the same parameter. |
| SharpRenderer.RenderAction | Sharpness.Codegen/Renderers/SharpApiRenderer.cs:92-132 | A service method has one parameter per action parameter, with uploads typed `ApiFile` and every other parameter named by its type. It has one builder call per parameter not in the path and the action's verb. Its name is `GetActionName` of the method name, its return type is the return type's name, and its URL is the template URL (`PathParameterVerbatim`). |
| SharpRenderer.RenderController | Sharpness.Codegen/Renderers/SharpApiRenderer.cs:70-137 | The service file is named after the controller, sits in `<root>.Services`, and has one method per action. Its usings are exactly the namespaces of the controller's types, each once, in ascending order (`Usings`). |
| SharpRenderer.Render | Sharpness.Codegen/Renderers/SharpApiRenderer.cs:139-143 | One service file per controller that passes the ignore list, in assembly order. |
| SharpRenderer.CopyServiceSubstitutes | Sharpness.Codegen/Renderers/SharpApiRenderer.cs:145-153 | Every `ApiServiceNamespace` token in the runtime file becomes the root namespace, and the rest of the file is untouched. |
| SharpRenderer.CopyServiceWithoutToken | Sharpness.Codegen/Renderers/SharpApiRenderer.cs:150-151 | A runtime file without the token is copied unchanged. |
| PublishDiff.Compare | Sharpness.Publish/RemoteMachine.cs:181-209 | The two comparison loops produce exactly the reference lists: local files sifted by verdict, and the remote files missing locally, in enumeration order. |
| PublishDiff.DiffMembers | Sharpness.Publish/RemoteMachine.cs:181-209 | Created files are local only and not `.DS_Store` (ignoring case). Changed files are on both sides with different hashes, and kept files with equal hashes. Removed files are remote only. |
| PublishDiff.DiffPartition | Sharpness.Publish/RemoteMachine.cs:181-209 | No file lands in two lists. Kept and changed together are exactly the files present on both sides. |
| PublishDiff.DiffDistinct | Sharpness.Publish/RemoteMachine.cs:181-209 | Each list names a file at most once. |
| PublishDiff.Publish | Sharpness.Publish/RemoteMachine.cs:216-275 | Deletion happens only when asked and when some file was removed. The archive holds created then changed files, and is sent only when that list is non-empty. The publish changed something exactly when either happened. |
| PublishDiff.DeleteCommandNamesRemoved | Sharpness.Publish/RemoteMachine.cs:218-227 | The delete command names every removed file as a quoted `"remoteDir/file"`. |
| PublishDiff.InSyncPublishesNothing | Sharpness.Publish/RemoteMachine.cs:181-275 | Against an identical remote copy, every file is kept and nothing is published. |
| WebLogging.IsEnabled | Sharpness.Logging.Aspnet/Internal/WebLogger.cs:43-50 | A level passes exactly when it is one of the real levels (not `None`) at or above a minimum that is not `None`. So a `None` request or a `None` minimum disables logging, a level equal to a real minimum passes, and `Trace` passes only a `Trace` minimum. |
| WebLogging.IsEnabledMonotone | Sharpness.Logging.Aspnet/Internal/WebLogger.cs:45-47 | Raising the requested level, short of `None`, never disables a message. |
| WebLogging.IsEnabledAntitone | Sharpness.Logging.Aspnet/Internal/WebLogger.cs:111-114 | Raising the minimum never enables a message. |
| WebLogging.SetLogLevel | Sharpness.Logging.Aspnet/Internal/WebLogger.cs:111-114 | Afterwards the logger passes exactly the real levels from the new minimum up, whatever the old minimum was. Category and scopes stay. |
| WebLogging.WriteMessage | Sharpness.Logging.Aspnet/Internal/WebLogger.cs:83-105 | The entry carries the logger's category and scopes and the call's level, event id, message and exception. |
| WebLogging.Log | Sharpness.Logging.Aspnet/Internal/WebLogger.cs:52-77 | A disabled level is dropped. An enabled level with a null formatter throws. Otherwise an entry is enqueued exactly when the message is non-empty or an exception is given, and that entry is what `WriteMessage` builds. |
| WebLogging.DisabledIgnoresFormatter | Sharpness.Logging.Aspnet/Internal/WebLogger.cs:61-69 | A disabled level is dropped before the formatter is checked, so even a null formatter does not throw. |
| WebLogging.EnqueuedLevelEnabled | Sharpness.Logging.Aspnet/Internal/WebLogger.cs:61-76 | Every enqueued entry has a real level at or above the minimum, and this logger's category. |

## Left out

- Reflection, `AssemblyResolver` and the command-line program: assemblies, exported types, methods, attributes and properties are given as data (`ControllerType`, `MethodInfo`, `Schema`). Attribute order is the order `GetCustomAttributes` returns, which is taken as given.
- File and directory I/O: output paths, `RecreateDirectory`, writers, the embedded `TypeScript.txt` resource and `ApiService.cs` on disk. The model returns the values each file is written from, not the exact text layout (indentation, braces, blank lines). The Angular `CopyService` copies a resource verbatim and is not modelled.
- `OrderBy` with the default string comparer is culture-sensitive. The model sorts by ordinal character order.
- `ToLowerInvariant`, `StringComparison.InvariantCultureIgnoreCase` and the regex class `\w` are modelled on ASCII only.
- The schema holds one definition per simple type name. Two model types with the same simple name in different namespaces are not told apart, and neither does the source, since it keys rendered models by `Type.Name`.
- A generic definition is keyed by its name without the arity suffix (the source cuts at the back-tick).
- Types in the global namespace (`Type.Namespace` is null, so `StartsWith(null)` throws) are not modelled. Every type has a namespace string.
- `WebLogger`: the time stamp (`DateTime.UtcNow`), `BeginScope`, `SetScopeProvider`, the background processor, the SignalR writer, the provider and the options classes. Scopes are the values `ForEachScope` would yield, given as a list.
- `RemoteMachine`: SSH and SFTP connections, MD5 hashing of local and remote files, the zip archive's bytes, console output and the exception handler. The two listings are given as dictionaries with their enumeration order.
- `Sharpness.Build` (git, Slack, build commands) is not part of this model.
- `StartsWith`/`EndsWith` with `StringComparison.InvariantCulture` are linguistic comparisons. They are used for the Post prefix and suffix (ApiAction.cs:72-73) and for the namespace prefix (AngularApiRenderer.cs:119, SharpApiRenderer.cs:41). The model compares them ordinally, character by character.
- FieldName (AngularImports.FieldName): models the intended naming, which uses the JSON property name when one is declared. As written, line 362 throws first (see Findings). The lookup at lines 364-367 asks for the serializer's contract class, so it could never find a name either.
- Fields (AngularImports.Fields): builds fields with the corrected FieldName. It names property types with the corrected array naming, where `int[]` becomes `number[]` (see Findings). As written, no field is ever written, because line 362 throws.
- RenderModel (AngularImports.RenderModel): models the corrected renderer, which writes an interface for every class model. As written, a class with properties throws. RenderModelAsWritten states that failure for a single model. It is not carried up through the walk, the service files or `Render`.
- RenderController (AngularRenderer.RenderController): its import walk renders models with the corrected RenderModel, and its types use the corrected array naming (see Findings). As written, the walk throws at the first class model with properties that it renders.
- Render (AngularRenderer.Render): the pass is modelled with the corrected model rendering and array naming. As written, the pass throws as soon as any reachable class model has a property. The pass then stops with the files written so far.
- RenderAction (AngularRenderer.RenderAction): return and parameter types use the corrected array naming, so `int[]` is `number[]`. The code as written emits `int[]` (see Findings).
- GetParameterTypeName (AngularNames.GetParameterTypeName): a non-upload parameter is named with the corrected array naming, so `int[]` is `number[]`. The code as written gives `int[]` (see Findings).
- `EnumDef.members` is taken in the order `Type.GetEnumNames` returns the names, which is by the unsigned value of their constants and not declaration order. Reflection is not modelled, so the model does not compute that order.
- A type name that cannot be computed (`None`, where the source's `Substring` throws) does not stop a pass. It is carried into a method's return type, its parameter types or a model's fields, whereas the source's exception escapes `Render`. No real CLR type hits this case: it needs a CodeDom name equal to its namespace, or an empty spelling.
- ApiRenderers.Render: the source code decides without any zero-action check. A controller with no actions is still rendered, and the model follows the code.

## Findings

| source | as written | input that shows it | evidently intended | confidence | as-written member | corrected member |
|---|---|---|---|---|---|---|
| Sharpness.Codegen/Renderers/AngularApiRenderer.cs:96-122 | An array is not a generic type, so its name is the CodeDom spelling with the namespace cut off. An array of a built-in type keeps its C# keyword. | a property or return type `int[]` is named `int[]` in TypeScript | named like `List<int>`, as `number[]` | not executed | AngularNames.ArrayOfBuiltInAsWritten | AngularNames.ArrayTypeName |
| Sharpness.Codegen/Renderers/AngularApiRenderer.cs:362-367 | The file imports only `Newtonsoft.Json.Serialization`, so `typeof(JsonProperty)` is the serializer's contract class and not an attribute type. `Attribute.IsDefined` therefore throws `ArgumentException` for each property. The lookup that follows could never find a JSON name either. | any class model with a property, such as `Point { int X }`, reached from a controller's types | look up `JsonPropertyAttribute` and name the field by its `PropertyName` when it is set, otherwise by the lower-cased property name | not executed | AngularImports.PropertyModelThrows | AngularImports.FieldName |

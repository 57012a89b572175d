/** The Angular renderer's import walk (`FillImports`) and the model files it renders on the way.
    `_renderedModels` memoises the walk: a model is written the first time any service or model
    refers to it, and never again. */
module AngularImports {
  import opened Wrappers
  import opened Seqs
  import opened Strings
  import opened Ordering
  import opened ClrTypes
  import opened AngularNames

  /** One line `name: type;` of a model interface; `None` is a type name that throws. */
  datatype Field = Field(name: string, typeName: Option<string>)

  /** A file under `models/`: an enum (each member valued by its own name) or an interface with its
      generic parameters, its imports and its fields. */
  datatype ModelFile =
    | EnumFile(name: string, members: seq<string>)
    | InterfaceFile(name: string, typeParams: seq<string>, imports: seq<string>, fields: seq<Field>)

  /** `_renderedModels` and the model files written so far, in writing order. */
  datatype Models = Models(rendered: seq<string>, files: seq<ModelFile>)

  /** The import list of the file being written, and the renderer's model state. */
  datatype Walk = Walk(imports: seq<string>, models: Models)

  function FileNames(files: seq<ModelFile>): (r: seq<string>)
    ensures |r| == |files|
    ensures forall i :: 0 <= i < |files| ==> r[i] == files[i].name
  {
    if |files| == 0 then [] else [files[0].name] + FileNames(files[1..])
  }

  /** Models marked as rendered whose file is still being written (the walk is inside them). */
  function Pending(m: Models): set<string> {
    (set x | x in m.rendered) - (set x | x in FileNames(m.files))
  }

  /** Every import of every model file names a rendered model. */
  predicate Closed(m: Models) {
    forall i, x :: 0 <= i < |m.files| && m.files[i].InterfaceFile? && x in m.files[i].imports ==>
      x in m.rendered
  }

  /** No model is marked twice, no file is written twice, every file belongs to a marked model and
      every import in a model file refers to a marked model. */
  predicate Consistent(m: Models) {
    && NoDup(m.rendered)
    && NoDup(FileNames(m.files))
    && (forall x :: x in FileNames(m.files) ==> x in m.rendered)
    && Closed(m)
  }

  /** Models only ever grow: marks and files are appended. */
  predicate Extends(m: Models, r: Models) {
    m.rendered <= r.rendered && m.files <= r.files
  }

  /** What the walk's termination rests on: marks are only appended, so the budget never rises. */
  predicate Advances(schema: Schema, m: Models, r: Models) {
    Extends(m, r) && Budget(schema, r) <= Budget(schema, m)
  }

  /** An import list only grows, and stays free of duplicates. */
  predicate Grows(imports: seq<string>, r: seq<string>) {
    imports <= r && (NoDup(imports) ==> NoDup(r))
  }

  /** Described models not yet rendered; each render of a described model uses one up. */
  function Budget(schema: Schema, m: Models): nat {
    |schema.Keys - (set x | x in m.rendered)|
  }

  lemma SubsetCard<T>(a: set<T>, b: set<T>)
    requires a <= b
    ensures |a| <= |b|
    decreases |b|
  {
    if a != {} {
      var x :| x in a;
      SubsetCard(a - {x}, b - {x});
    }
  }

  lemma BudgetMonotone(schema: Schema, m: Models, r: Models)
    requires m.rendered <= r.rendered
    ensures Budget(schema, r) <= Budget(schema, m)
  {
    SubsetCard(schema.Keys - (set x | x in r.rendered), schema.Keys - (set x | x in m.rendered));
  }

  lemma BudgetDrops(schema: Schema, m: Models, name: string, r: Models)
    requires name in schema && name !in m.rendered && r.rendered == m.rendered + [name]
    ensures Budget(schema, r) < Budget(schema, m)
  {
    var before := schema.Keys - (set x | x in m.rendered);
    var after := schema.Keys - (set x | x in r.rendered);
    assert after == before - {name};
  }

  /** The names a type makes its file import, read off the type alone: every model and every generic
      definition in it, except the element of an enumerable generic, where only the first type
      argument is looked at. `void` and `char` are not default types, so they count as models under
      their CLR names. */
  function Refs(t: Type): set<string>
    decreases t
  {
    match t
    case Prim(k) => if IsDefaultKind(k) then {} else {PrimName(k)}
    case GenericParam(_, _) => {}
    case Array(e) => Refs(e)
    case Nullable(u) => Refs(u)
    case Named(_, n) => {n}
    case Generic(_, n, first, rest, en, _) =>
      if en then Refs(first) else {n} + Refs(first) + RefsAll(rest)
  }

  function RefsAll(ts: seq<Type>): set<string>
    decreases ts
  {
    if |ts| == 0 then {} else Refs(ts[0]) + RefsAll(ts[1..])
  }

  /** A property whose type is one of its class's own generic parameters imports nothing. */
  predicate IsOwnTypeParam(p: Property, typeParams: seq<string>) {
    p.propType.GenericParam? && p.propType.name in typeParams
  }

  function PropsRefs(typeParams: seq<string>, props: seq<Property>): set<string> {
    if |props| == 0 then {}
    else
      var head := if IsOwnTypeParam(props[0], typeParams) then {} else Refs(props[0].propType);
      head + PropsRefs(typeParams, props[1..])
  }

  function PropName(p: Property): string {
    p.name
  }

  /** The JSON name when the property declares a non-empty one, otherwise the property name with
      its first character lower-cased. */
  function FieldName(p: Property): (r: string)
    ensures p.jsonName != "" ==> r == p.jsonName
    ensures p.jsonName == "" ==> r == LowerFirst(p.name)
  {
    if p.jsonName != "" then p.jsonName else LowerFirst(p.name)
  }

  function Fields(props: seq<Property>): (r: seq<Field>)
    ensures |r| == |props|
    ensures forall i :: 0 <= i < |props| ==>
      r[i] == Field(FieldName(props[i]), GetTypeName(props[i].propType))
  {
    if |props| == 0 then []
    else [Field(FieldName(props[0]), GetTypeName(props[0].propType))] + Fields(props[1..])
  }

  /** `FillImports`: walks a type, renders every model and generic definition it meets that is not
      yet rendered, and appends to `imports` every such name it does not hold yet. Generic
      parameters and the fifteen default types contribute nothing; arrays, `Nullable` and enumerable generics
      are walked through to their (first) argument. */
  function FillImports(schema: Schema, t: Type, imports: seq<string>, m: Models): (r: Walk)
    ensures Advances(schema, m, r.models)
    decreases Budget(schema, m), 2, t, 1
  {
    match t
    case Prim(k) => if IsDefaultKind(k) then Walk(imports, m) else Reference(schema, PrimName(k), imports, m)
    case GenericParam(_, _) => Walk(imports, m)
    case Array(e) => FillImports(schema, e, imports, m)
    case Nullable(u) => FillImports(schema, u, imports, m)
    case Named(_, n) => Reference(schema, n, imports, m)
    case Generic(_, _, first, _, en, _) =>
      if en then FillImports(schema, first, imports, m) else DefinitionWalk(schema, t, imports, m)
  }

  /** A constructed generic that is not a collection: its definition is referenced, then every type
      argument is walked. */
  function DefinitionWalk(schema: Schema, t: Type, imports: seq<string>, m: Models): (r: Walk)
    requires t.Generic? && !t.isEnumerable
    ensures Advances(schema, m, r.models)
    decreases Budget(schema, m), 2, t, 0
  {
    var w := Reference(schema, t.name, imports, m);
    var w1 := FillImports(schema, t.first, w.imports, w.models);
    var r := ArgsWalk(schema, t.rest, w1.imports, w1.models);
    AdvancesTransitive(schema, m, w.models, w1.models);
    AdvancesTransitive(schema, m, w1.models, r.models);
    r
  }

  /** The step shared by models and generic definitions: render `name` unless it is rendered
      already, then import it unless it is imported already. */
  function Reference(schema: Schema, name: string, imports: seq<string>, m: Models): (r: Walk)
    ensures Advances(schema, m, r.models)
    ensures name in r.models.rendered
    decreases Budget(schema, m), 1, 1, 0
  {
    var m1 := if name in m.rendered then m else RenderModel(schema, name, m);
    Walk(if name in imports then imports else imports + [name], m1)
  }

  /** The `foreach (var a in type.GenericTypeArguments)` loop, and the same loop over a
      controller's types. */
  function ArgsWalk(schema: Schema, ts: seq<Type>, imports: seq<string>, m: Models): (r: Walk)
    ensures Advances(schema, m, r.models)
    decreases Budget(schema, m), 2, ts, 0
  {
    if |ts| == 0 then Walk(imports, m)
    else
      var w := FillImports(schema, ts[0], imports, m);
      ArgsWalk(schema, ts[1..], w.imports, w.models)
  }

  /** The property loop of `RenderModel`: every property whose type is not one of the class's own
      type parameters is walked, in the order given. */
  function PropsWalk(schema: Schema, typeParams: seq<string>, props: seq<Property>,
                     imports: seq<string>, m: Models): (r: Walk)
    ensures Advances(schema, m, r.models)
    decreases Budget(schema, m), 3, props, 0
  {
    if |props| == 0 then Walk(imports, m)
    else
      var w := PropWalk(schema, typeParams, props[0], imports, m);
      PropsWalk(schema, typeParams, props[1..], w.imports, w.models)
  }

  function PropWalk(schema: Schema, typeParams: seq<string>, p: Property,
                    imports: seq<string>, m: Models): (r: Walk)
    ensures Advances(schema, m, r.models)
    decreases Budget(schema, m), 2, p, 2
  {
    if IsOwnTypeParam(p, typeParams) then Walk(imports, m)
    else FillImports(schema, p.propType, imports, m)
  }

  /** `RenderModel`, entered once `name` is marked rendered: an enum lists its members in
      the order `Type.GetEnumNames` returns them (by unsigned value); a class walks its properties sorted by name, imports what they reference
      (except itself) in sorted order, and declares one field per property in the same order. */
  function RenderModel(schema: Schema, name: string, m: Models): (r: Models)
    requires name !in m.rendered
    ensures Advances(schema, m, r)
    ensures name in r.rendered
    decreases Budget(schema, m), 1, 0, 0
  {
    var m1 := Models(m.rendered + [name], m.files);
    assert m.rendered <= m1.rendered;
    BudgetMonotone(schema, m, m1);
    assert Advances(schema, m, m1);
    if name !in schema then
      ModelDone(m1, InterfaceFile(name, [], [], []))
    else
      BudgetDrops(schema, m, name, m1);
      match schema[name]
      case EnumDef(members) => ModelDone(m1, EnumFile(name, members))
      case ClassDef(typeParams, props) =>
        var r := RenderClass(schema, name, typeParams, props, m1);
        AdvancesTransitive(schema, m, m1, r);
        r
  }

  lemma AdvancesTransitive(schema: Schema, a: Models, b: Models, c: Models)
    requires Advances(schema, a, b) && Advances(schema, b, c)
    ensures Advances(schema, a, c)
  {
  }

  /** The interface of a class model already marked rendered. */
  function RenderClass(schema: Schema, name: string, typeParams: seq<string>, props: seq<Property>,
                       m: Models): (r: Models)
    requires name in m.rendered
    ensures Advances(schema, m, r)
    ensures name in r.rendered
    decreases Budget(schema, m), 4, 0, 0
  {
    var sorted := SortBy(PropName, props);
    var w := PropsWalk(schema, typeParams, sorted, [], m);
    PrefixMember(m.rendered, w.models.rendered, name);
    ModelDone(w.models, InterfaceFile(name, typeParams, ModelImports(name, w.imports), Fields(sorted)))
  }

  /** The class model `name` declares at least one property. */
  predicate HasProperties(schema: Schema, name: string) {
    name in schema && schema[name].ClassDef? && |schema[name].props| > 0
  }

  /** `RenderModel` as written. For each property, line 362 calls `Attribute.IsDefined` with
      `typeof(JsonProperty)`; with only `Newtonsoft.Json.Serialization` imported, that is the
      serializer's contract class, not an attribute type, and the call throws `ArgumentException`.
      So every class model with a property fails (`None`) once its imports are walked; enums and
      classes without properties are written as `RenderModel` writes them. */
  function RenderModelAsWritten(schema: Schema, name: string, m: Models): (r: Option<Models>)
    requires name !in m.rendered
    ensures r.None? <==> HasProperties(schema, name)
    ensures r.Some? ==> name in r.value.rendered && Advances(schema, m, r.value)
    // off the failing case, the model is written as the corrected renderer writes it
    ensures r.Some? ==> r.value == RenderModel(schema, name, m)
  {
    if HasProperties(schema, name) then None else Some(RenderModel(schema, name, m))
  }

  /** The class `Point { int X }`: one property, no JSON name. */
  const PointProps := [Property("X", "", Prim(Int))]
  const PointSchema: Schema := map["Point" := ClassDef([], PointProps)]
  const PointFile := InterfaceFile("Point", [], [], [Field("x", Some("number"))])

  /** On `Point` the as-written renderer throws, where the intended one writes the interface
      `Point` with the single field `x: number`. */
  lemma PropertyModelThrows()
    ensures RenderModelAsWritten(PointSchema, "Point", Models([], [])).None?
    ensures RenderModel(PointSchema, "Point", Models([], [])).files == [PointFile]
  {
    var m1 := Models(["Point"], []);
    PointClassRendered(m1);
    assert PointSchema["Point"] == ClassDef([], PointProps);
    assert Models([], []).rendered + ["Point"] == ["Point"];
    assert RenderModel(PointSchema, "Point", Models([], [])) == RenderClass(PointSchema, "Point", [], PointProps, m1);
  }

  lemma PointClassRendered(m1: Models)
    requires m1 == Models(["Point"], [])
    ensures RenderClass(PointSchema, "Point", [], PointProps, m1) == ModelDone(m1, PointFile)
  {
    assert SortBy(PropName, PointProps) == PointProps;
    assert FillImports(PointSchema, Prim(Int), [], m1) == Walk([], m1);
    assert PropWalk(PointSchema, [], PointProps[0], [], m1) == Walk([], m1);
    assert PointProps[1..] == [];
    assert PropsWalk(PointSchema, [], PointProps, [], m1) == Walk([], m1);
    assert ModelImports("Point", []) == [];
    PointFields();
  }

  lemma PointFields()
    ensures Fields(PointProps) == [Field("x", Some("number"))]
  {
    DefaultTypeNames(Int);
    assert LowerFirst("X") == "x";
  }

  /** The import lines of model `name`: what its properties reference, except itself, sorted. */
  function ModelImports(name: string, imports: seq<string>): (r: seq<string>)
    ensures SortedBy(Identity, r)
    ensures forall x :: x in r <==> x in imports && x != name
  {
    var kept := Filter(s => s != name, imports);
    var r := SortBy(Identity, kept);
    assert forall x :: x in r <==> x in multiset(kept);
    r
  }

  /** A model file imports nothing twice when its property walk imported nothing twice. */
  lemma ModelImportsNoDup(name: string, imports: seq<string>)
    requires NoDup(imports)
    ensures NoDup(ModelImports(name, imports))
  {
    FilterNoDup(s => s != name, imports);
    NoDupPermutation(Filter(s => s != name, imports), ModelImports(name, imports));
  }

  function ModelDone(m: Models, f: ModelFile): (r: Models)
    ensures r.rendered == m.rendered && r.files == m.files + [f]
  {
    Models(m.rendered, m.files + [f])
  }

  /** What `FillImports` adds to an import list is read off the type alone (`Refs`), independently
      of which models happen to be rendered already; it never adds a name twice, and every name it
      imports is a rendered model afterwards. */
  lemma {:induction false} FillImportsSpec(schema: Schema, t: Type, imports: seq<string>, m: Models)
    ensures var r := FillImports(schema, t, imports, m);
      && Grows(imports, r.imports)
      && (forall x :: x in r.imports <==> x in imports || x in Refs(t))
      && (forall x :: x in Refs(t) ==> x in r.models.rendered)
    decreases t, 1
  {
    match t
    case Prim(k) =>
      if !IsDefaultKind(k) {
        ReferenceSpec(schema, PrimName(k), imports, m);
      }
    case GenericParam(_, _) =>
    case Array(e) => FillImportsSpec(schema, e, imports, m);
    case Nullable(u) => FillImportsSpec(schema, u, imports, m);
    case Named(_, n) => ReferenceSpec(schema, n, imports, m);
    case Generic(_, _, first, _, en, _) =>
      if en {
        FillImportsSpec(schema, first, imports, m);
      } else {
        DefinitionWalkSpec(schema, t, imports, m);
      }
  }

  lemma ReferenceSpec(schema: Schema, name: string, imports: seq<string>, m: Models)
    ensures var r := Reference(schema, name, imports, m);
      && Grows(imports, r.imports)
      && (forall x :: x in r.imports <==> x in imports || x == name)
      && name in r.models.rendered
  {
    var r := Reference(schema, name, imports, m);
    if name !in imports {
      assert NoDup(imports) ==> NoDup(imports + [name]);
    }
  }

  lemma {:induction false} DefinitionWalkSpec(schema: Schema, t: Type, imports: seq<string>, m: Models)
    requires t.Generic? && !t.isEnumerable
    ensures var r := DefinitionWalk(schema, t, imports, m);
      && Grows(imports, r.imports)
      && (forall x :: x in r.imports <==> x in imports || x in Refs(t))
      && (forall x :: x in Refs(t) ==> x in r.models.rendered)
    decreases t, 0
  {
    var w := Reference(schema, t.name, imports, m);
    var w1 := FillImports(schema, t.first, w.imports, w.models);
    var r := ArgsWalk(schema, t.rest, w1.imports, w1.models);
    ReferenceSpec(schema, t.name, imports, m);
    FillImportsSpec(schema, t.first, w.imports, w.models);
    ArgsWalkSpec(schema, t.rest, w1.imports, w1.models);
    PrefixSubset(w.models.rendered, w1.models.rendered);
    PrefixSubset(w1.models.rendered, r.models.rendered);
  }

  /** The same for a list of types, such as a controller's `Types`. */
  lemma {:induction false} ArgsWalkSpec(schema: Schema, ts: seq<Type>, imports: seq<string>, m: Models)
    ensures var r := ArgsWalk(schema, ts, imports, m);
      && Grows(imports, r.imports)
      && (forall x :: x in r.imports <==> x in imports || x in RefsAll(ts))
      && (forall x :: x in RefsAll(ts) ==> x in r.models.rendered)
    decreases ts, 0
  {
    if |ts| > 0 {
      var w := FillImports(schema, ts[0], imports, m);
      var r := ArgsWalk(schema, ts[1..], w.imports, w.models);
      FillImportsSpec(schema, ts[0], imports, m);
      ArgsWalkSpec(schema, ts[1..], w.imports, w.models);
      PrefixSubset(w.models.rendered, r.models.rendered);
    }
  }

  /** The same for a model's properties, skipping those typed by the model's own parameters. */
  lemma {:induction false} PropsWalkSpec(schema: Schema, typeParams: seq<string>, props: seq<Property>,
                                         imports: seq<string>, m: Models)
    ensures var r := PropsWalk(schema, typeParams, props, imports, m);
      && Grows(imports, r.imports)
      && (forall x :: x in r.imports <==> x in imports || x in PropsRefs(typeParams, props))
      && (forall x :: x in PropsRefs(typeParams, props) ==> x in r.models.rendered)
  {
    if |props| > 0 {
      var w := PropWalk(schema, typeParams, props[0], imports, m);
      var r := PropsWalk(schema, typeParams, props[1..], w.imports, w.models);
      if !IsOwnTypeParam(props[0], typeParams) {
        FillImportsSpec(schema, props[0].propType, imports, m);
      }
      PropsWalkSpec(schema, typeParams, props[1..], w.imports, w.models);
      PrefixSubset(w.models.rendered, r.models.rendered);
    }
  }

  /** Marking a model rendered keeps the state consistent and leaves it pending. */
  lemma MarkRendered(m: Models, name: string)
    requires Consistent(m) && name !in m.rendered
    ensures var m1 := Models(m.rendered + [name], m.files);
      Consistent(m1) && Pending(m1) == Pending(m) + {name}
  {
    var m1 := Models(m.rendered + [name], m.files);
    assert name !in FileNames(m.files);
    PrefixSubset(m.rendered, m1.rendered);
  }

  /** Writing the file of a pending model keeps the state consistent and finishes the model. */
  lemma FileWritten(m: Models, f: ModelFile)
    requires Consistent(m) && f.name in Pending(m)
    requires f.InterfaceFile? ==> forall x :: x in f.imports ==> x in m.rendered
    ensures Consistent(ModelDone(m, f)) && Pending(ModelDone(m, f)) == Pending(m) - {f.name}
  {
    var r := ModelDone(m, f);
    assert FileNames(r.files) == FileNames(m.files) + [f.name];
    assert Closed(r) by {
      forall i, x | 0 <= i < |r.files| && r.files[i].InterfaceFile? && x in r.files[i].imports
        ensures x in r.rendered
      {
        if i < |m.files| {
          assert r.files[i] == m.files[i];
        }
      }
    }
  }

  /** The walk keeps the model state consistent (no model marked or written twice, every written
      file belongs to a marked model, every model-file import names a marked model) and finishes
      every model it starts: the pending set is the same before and after. */
  lemma {:induction false} FillImportsKeeps(schema: Schema, t: Type, imports: seq<string>, m: Models)
    requires Consistent(m)
    ensures var r := FillImports(schema, t, imports, m).models;
      Consistent(r) && Pending(r) == Pending(m)
    decreases Budget(schema, m), 2, t, 1
  {
    match t
    case Prim(k) =>
      if !IsDefaultKind(k) {
        ReferenceKeeps(schema, PrimName(k), imports, m);
      }
    case GenericParam(_, _) =>
    case Array(e) => FillImportsKeeps(schema, e, imports, m);
    case Nullable(u) => FillImportsKeeps(schema, u, imports, m);
    case Named(_, n) => ReferenceKeeps(schema, n, imports, m);
    case Generic(_, _, first, _, en, _) =>
      if en {
        FillImportsKeeps(schema, first, imports, m);
      } else {
        DefinitionWalkKeeps(schema, t, imports, m);
      }
  }

  lemma {:induction false} DefinitionWalkKeeps(schema: Schema, t: Type, imports: seq<string>, m: Models)
    requires Consistent(m) && t.Generic? && !t.isEnumerable
    ensures var r := DefinitionWalk(schema, t, imports, m).models;
      Consistent(r) && Pending(r) == Pending(m)
    decreases Budget(schema, m), 2, t, 0
  {
    var w := Reference(schema, t.name, imports, m);
    var w1 := FillImports(schema, t.first, w.imports, w.models);
    ReferenceKeeps(schema, t.name, imports, m);
    FillImportsKeeps(schema, t.first, w.imports, w.models);
    ArgsWalkKeeps(schema, t.rest, w1.imports, w1.models);
  }

  lemma {:induction false} ReferenceKeeps(schema: Schema, name: string, imports: seq<string>, m: Models)
    requires Consistent(m)
    ensures var r := Reference(schema, name, imports, m).models;
      Consistent(r) && Pending(r) == Pending(m)
    decreases Budget(schema, m), 1, 1, 0
  {
    if name !in m.rendered {
      RenderModelKeeps(schema, name, m);
    }
  }

  lemma {:induction false} ArgsWalkKeeps(schema: Schema, ts: seq<Type>, imports: seq<string>, m: Models)
    requires Consistent(m)
    ensures var r := ArgsWalk(schema, ts, imports, m).models;
      Consistent(r) && Pending(r) == Pending(m)
    decreases Budget(schema, m), 2, ts, 0
  {
    if |ts| > 0 {
      var w := FillImports(schema, ts[0], imports, m);
      FillImportsKeeps(schema, ts[0], imports, m);
      ArgsWalkKeeps(schema, ts[1..], w.imports, w.models);
    }
  }

  lemma {:induction false} PropsWalkKeeps(schema: Schema, typeParams: seq<string>, props: seq<Property>,
                                          imports: seq<string>, m: Models)
    requires Consistent(m)
    ensures var r := PropsWalk(schema, typeParams, props, imports, m).models;
      Consistent(r) && Pending(r) == Pending(m)
    decreases Budget(schema, m), 3, props, 0
  {
    if |props| > 0 {
      var w := PropWalk(schema, typeParams, props[0], imports, m);
      if !IsOwnTypeParam(props[0], typeParams) {
        FillImportsKeeps(schema, props[0].propType, imports, m);
      }
      PropsWalkKeeps(schema, typeParams, props[1..], w.imports, w.models);
    }
  }

  lemma {:induction false} RenderModelKeeps(schema: Schema, name: string, m: Models)
    requires Consistent(m) && name !in m.rendered
    ensures var r := RenderModel(schema, name, m);
      Consistent(r) && Pending(r) == Pending(m)
    decreases Budget(schema, m), 1, 0, 0
  {
    var m1 := Models(m.rendered + [name], m.files);
    MarkRendered(m, name);
    if name !in schema {
      FileWritten(m1, InterfaceFile(name, [], [], []));
    } else {
      BudgetDrops(schema, m, name, m1);
      match schema[name]
      case EnumDef(members) =>
        FileWritten(m1, EnumFile(name, members));
      case ClassDef(typeParams, props) =>
        RenderClassKeeps(schema, name, typeParams, props, m1);
    }
  }

  lemma {:induction false} RenderClassKeeps(schema: Schema, name: string, typeParams: seq<string>,
                                            props: seq<Property>, m: Models)
    requires Consistent(m) && name in Pending(m)
    ensures var r := RenderClass(schema, name, typeParams, props, m);
      Consistent(r) && Pending(r) == Pending(m) - {name}
    decreases Budget(schema, m), 4, 0, 0
  {
    var sorted := SortBy(PropName, props);
    var w := PropsWalk(schema, typeParams, sorted, [], m);
    PropsWalkKeeps(schema, typeParams, sorted, [], m);
    PropsWalkSpec(schema, typeParams, sorted, [], m);
    FileWritten(w.models, InterfaceFile(name, typeParams, ModelImports(name, w.imports), Fields(sorted)));
  }
}

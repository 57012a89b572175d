/** Names the Angular (TypeScript) renderer prints: type names, parameter types, method names and
    the URL template of a service method. */
module AngularNames {
  import opened Wrappers
  import opened Seqs
  import opened Strings
  import opened ClrTypes
  import opened ApiParameters
  import opened ApiRenderers

  /** The fifteen built-in types `IsDefaultType` lists: every keyword type but `void` and `char`. */
  predicate IsDefaultKind(k: PrimKind) {
    !(k.Void? || k.Char?)
  }

  /** `IsDefaultType`: the fifteen built-in types, which need no model file. */
  predicate IsDefaultType(t: Type) {
    t.Prim? && IsDefaultKind(t.kind)
  }

  predicate IsNumeric(k: PrimKind) {
    IsDefaultKind(k) && !(k.Bool? || k.DateTime? || k.Object? || k.String?)
  }

  /** The TypeScript spelling of a built-in type. */
  function DefaultTypeName(k: PrimKind): string
    requires IsDefaultKind(k)
  {
    match k
    case Bool => "boolean"
    case DateTime => "Date"
    case Object => "object"
    case String => "string"
    case _ => "number"
  }

  /** `GetTypeName` as the renderer uses it: arrays are named like enumerable generics. */
  function GetTypeName(t: Type): Option<string> {
    TypeName(true, t)
  }

  /** `GetTypeName` exactly as written, where an array keeps its C# spelling (`int[]`). */
  function GetTypeNameAsWritten(t: Type): Option<string> {
    TypeName(false, t)
  }

  /** A `Nullable<T>` is named after `T` with "|null" appended; everything else goes through
      `NameOf`. `None` is an exception thrown on the way. With `elementArrays`, an array is named
      after its element type followed by "[]". */
  function TypeName(elementArrays: bool, t: Type): Option<string>
    decreases t, 1
  {
    var ty := if t.Nullable? then t.underlying else t;
    var name :- NameOf(elementArrays, ty);
    Some(if t.Nullable? then name + "|null" else name)
  }

  /** The name of a type once its `Nullable` layer is removed: built-in types map to TypeScript
      primitives; an enumerable generic becomes `element[]`; any other generic has each type
      argument's C# spelling replaced in the CodeDom name; the namespace prefix is then cut off. */
  function NameOf(elementArrays: bool, ty: Type): Option<string>
    decreases ty, 0
  {
    if IsDefaultType(ty) then Some(DefaultTypeName(ty.kind))
    else if elementArrays && ty.Array? then
      var e :- TypeName(elementArrays, ty.element);
      Some(e + "[]")
    else
      var name :-
        if ty.Generic? && ty.isEnumerable then
          var e :- TypeName(elementArrays, ty.first);
          Some(e + "[]")
        else if ty.Generic? then
          var n :- ReplaceArgument(elementArrays, TypeOutput(ty), ty.first);
          ReplaceArguments(elementArrays, n, ty.rest)
        else if ty.Nullable? then
          ReplaceArgument(elementArrays, TypeOutput(ty), ty.underlying)
        else
          Some(TypeOutput(ty));
      StripNamespace(name, Namespace(ty))
  }

  /** One turn of the type-argument loop: when the name contains the argument's C# spelling, every
      occurrence is replaced by the argument's TypeScript name. An empty spelling is contained in
      every string, and `Replace` throws for it. */
  function ReplaceArgument(elementArrays: bool, name: string, a: Type): Option<string>
    decreases a, 2
  {
    var n := TypeOutput(a);
    if |n| == 0 then None
    else if Contains(name, n) then
      var r :- TypeName(elementArrays, a);
      Some(Replace(name, n, r))
    else Some(name)
  }

  function ReplaceArguments(elementArrays: bool, name: string, args: seq<Type>): Option<string>
    decreases args, 3
  {
    if |args| == 0 then Some(name)
    else
      var n :- ReplaceArgument(elementArrays, name, args[0]);
      ReplaceArguments(elementArrays, n, args[1..])
  }

  /** As written, an array of a built-in type other than DateTime keeps the C# keyword, which is
      not a TypeScript type: `int[]` is printed as "int[]" where "number[]" is meant. */
  lemma ArrayOfBuiltInAsWritten(k: PrimKind)
    requires k != DateTime
    ensures GetTypeNameAsWritten(Array(Prim(k))) == Some(PrimOutput(k) + "[]")
  {
    assert !StartsWith(PrimOutput(k) + "[]", "System") by {
      assert (PrimOutput(k) + "[]")[0] != 'S';
    }
    assert NameOf(false, Array(Prim(k))) == Some(PrimOutput(k) + "[]");
  }

  /** With arrays named like enumerable generics, an array is its element's name followed by "[]",
      so `int[]` becomes "number[]" and `Foo[]` becomes "Foo[]". */
  lemma ArrayTypeName(e: Type)
    ensures GetTypeName(Array(e)).Some? <==> GetTypeName(e).Some?
    ensures GetTypeName(e).Some? ==> GetTypeName(Array(e)) == Some(GetTypeName(e).value + "[]")
    ensures GetTypeName(Array(Prim(Int))) == Some("number[]")
  {
    assert GetTypeName(Array(e)) == NameOf(true, Array(e));
    DefaultTypeNames(Int);
    assert TypeName(true, Prim(Int)) == Some("number");
    assert NameOf(true, Array(Prim(Int))) == Some("number" + "[]");
    assert "number" + "[]" == "number[]";
    assert GetTypeName(Array(Prim(Int))) == NameOf(true, Array(Prim(Int)));
  }

  /** The eleven numeric CLR types print as "number"; bool, DateTime, object and string as
      "boolean", "Date", "object" and "string", with or without a `Nullable` wrapper ("|null"). */
  lemma DefaultTypeNames(k: PrimKind)
    ensures IsNumeric(k) ==> GetTypeName(Prim(k)) == Some("number")
    ensures k == Bool ==> GetTypeName(Prim(k)) == Some("boolean")
    ensures k == DateTime ==> GetTypeName(Prim(k)) == Some("Date")
    ensures k == Object ==> GetTypeName(Prim(k)) == Some("object")
    ensures k == String ==> GetTypeName(Prim(k)) == Some("string")
    ensures IsDefaultKind(k) ==> GetTypeName(Nullable(Prim(k))) == Some(DefaultTypeName(k) + "|null")
    // `void` and `char` are not default types: their C# keyword is printed as it is
    ensures !IsDefaultKind(k) ==> GetTypeName(Prim(k)) == Some(PrimOutput(k))
  {
  }

  /** `Nullable<T>` is named `T`'s name followed by "|null", and fails exactly when `T` fails. */
  lemma NullableTypeName(u: Type)
    requires !u.Nullable?
    ensures GetTypeName(Nullable(u)).Some? <==> GetTypeName(u).Some?
    ensures GetTypeName(u).Some? ==> GetTypeName(Nullable(u)) == Some(GetTypeName(u).value + "|null")
  {
  }

  /** A model or enum is named by its simple name. */
  lemma NamedTypeName(ns: string, n: string)
    ensures GetTypeName(Named(ns, n)) == Some(n)
  {
    StripQualifiedName(ns, n);
    assert GetTypeName(Named(ns, n)) == NameOf(true, Named(ns, n));
  }

  /** An enumerable generic is named after its element type with "[]" appended (unless that text
      happens to start with the collection's namespace, which would then be cut off). */
  lemma EnumerableTypeName(g: Type, e: string)
    requires g.Generic? && g.isEnumerable
    requires GetTypeName(g.first) == Some(e) && !StartsWith(e + "[]", g.ns)
    ensures GetTypeName(g) == Some(e + "[]")
  {
    assert GetTypeName(g) == NameOf(true, g);
  }

  /** `GetParameterTypeName`: an upload is a `Blob`. */
  function GetParameterTypeName(p: ApiParameter): (r: Option<string>)
    ensures p.IsFile() ==> r == Some("Blob")
    ensures !p.IsFile() ==> r == GetTypeName(p.paramType)
  {
    if p.IsFile() then Some("Blob") else GetTypeName(p.paramType)
  }

  const AsyncSuffix := "Async"

  /** `Regex.Replace(s, "Async$", "")`: drops one trailing "Async". */
  function StripTrailingAsync(s: string): string {
    if EndsWith(s, AsyncSuffix) then s[..|s| - |AsyncSuffix|] else s
  }

  /** `GetActionName`: the method name with its first character lower-cased and one trailing
      "Async" removed. */
  function GetActionName(methodName: string): string {
    StripTrailingAsync(LowerFirst(methodName))
  }

  /** Lower-casing the first character never creates or destroys a trailing "Async" unless the
      name is "Async" itself, so the action name is the lower-cased name without its suffix. */
  lemma ActionNameSpec(x: string)
    ensures EndsWith(x, AsyncSuffix) && |x| > |AsyncSuffix| ==>
      GetActionName(x) == LowerFirst(x[..|x| - |AsyncSuffix|])
    ensures !(EndsWith(x, AsyncSuffix) && |x| > |AsyncSuffix|) ==> GetActionName(x) == LowerFirst(x)
  {
    var l := LowerFirst(x);
    if |x| > |AsyncSuffix| {
      assert l[|l| - 5..] == x[|x| - 5..];
      if EndsWith(x, AsyncSuffix) {
        assert l[..|l| - 5] == LowerFirst(x[..|x| - 5]);
      }
    } else if |x| == |AsyncSuffix| {
      assert l[0] != 'A';
      assert l[..] != AsyncSuffix;
    }
  }

  /** Word characters of the `\w` regex class (ASCII letters, digits and the underscore). */
  predicate IsWordChar(c: char) {
    'a' <= c <= 'z' || 'A' <= c <= 'Z' || '0' <= c <= '9' || c == '_'
  }

  predicate IsWord(s: string) {
    |s| > 0 && forall i :: 0 <= i < |s| ==> IsWordChar(s[i])
  }

  /** Length of the longest prefix of `s` made of word characters. */
  function WordRun(s: string): (k: nat)
    ensures k <= |s|
    ensures forall i :: 0 <= i < k ==> IsWordChar(s[i])
    ensures k < |s| ==> !IsWordChar(s[k])
  {
    if |s| == 0 || !IsWordChar(s[0]) then 0 else 1 + WordRun(s[1..])
  }

  /** The TypeScript interpolation that replaces the placeholder `{x}`. */
  function Expansion(x: string): string {
    "${encodeURIComponent(String(" + x + "))}"
  }

  /** `Regex.Replace(s, "{(\\w+)}", "${encodeURIComponent(String($1))}")`: scanning left to right,
      each `{word}` becomes its interpolation; every other character is copied. */
  function Interpolate(s: string): string
    decreases |s|
  {
    if |s| == 0 then ""
    else if s[0] == '{' then
      var k := WordRun(s[1..]);
      if k > 0 && k + 1 < |s| && s[k + 1] == '}' then Expansion(s[1..k + 1]) + Interpolate(s[k + 2..])
      else "{" + Interpolate(s[1..])
    else [s[0]] + Interpolate(s[1..])
  }

  /** Text without braces passes through unchanged. */
  lemma {:induction false} InterpolatePlain(s: string)
    requires '{' !in s
    ensures Interpolate(s) == s
    decreases |s|
  {
    if |s| > 0 {
      InterpolatePlain(s[1..]);
      assert [s[0]] + s[1..] == s;
    }
  }

  /** A template that starts with a placeholder `{x}` interpolates it first. */
  lemma InterpolateAtPlaceholder(s: string, x: string)
    requires IsWord(x)
    requires StartsWith(s, "{" + x + "}")
    ensures Interpolate(s) == Expansion(x) + Interpolate(s[|x| + 2..])
  {
    assert s[..|x| + 2] == "{" + x + "}";
    assert s[1..][..|x|] == x;
    assert s[1..][|x|] == '}';
    WordRunExact(s[1..], |x|);
  }

  /** The word run is exactly `n` long when `n` word characters are followed by another one. */
  lemma {:induction false} WordRunExact(t: string, n: nat)
    requires n < |t| && !IsWordChar(t[n])
    requires forall j :: 0 <= j < n ==> IsWordChar(t[j])
    ensures WordRun(t) == n
  {
    if n > 0 {
      WordRunExact(t[1..], n - 1);
    }
  }

  /** A placeholder after a consumed match starts only once that match is over. */
  lemma PlaceholderAfterMatch(s: string, x: string, i: int)
    requires |s| > 0 && s[0] == '{'
    requires IsSubstringAt(s, "{" + x + "}", i) && 0 < i
    requires WordRun(s[1..]) + 1 < |s| && s[WordRun(s[1..]) + 1] == '}'
    ensures i >= WordRun(s[1..]) + 2
  {
    var k := WordRun(s[1..]);
    forall j | 1 <= j <= k
      ensures s[j] != '{'
    {
      assert s[j] == s[1..][j - 1];
    }
    assert s[i..i + |x| + 2] == "{" + x + "}";
    assert s[i] == s[i..i + |x| + 2][0];
  }

  lemma SubstringAfterDrop(s: string, p: string, i: int, d: nat)
    requires IsSubstringAt(s, p, i) && d <= i
    ensures IsSubstringAt(s[d..], p, i - d)
  {
    assert s[d..][i - d..i - d + |p|] == s[i..i + |p|];
  }

  /** Every placeholder `{x}` of the template shows up as its interpolation in the rendered URL:
      the scan never consumes the opening brace of a placeholder as part of another match. */
  lemma {:induction false} InterpolateExposesPlaceholder(s: string, x: string, i: int)
    requires IsWord(x)
    requires IsSubstringAt(s, "{" + x + "}", i)
    ensures Contains(Interpolate(s), Expansion(x))
    decreases |s|
  {
    if i == 0 {
      InterpolateAtPlaceholder(s, x);
      assert IsSubstringAt(Interpolate(s), Expansion(x), 0);
    } else {
      var k := WordRun(s[1..]);
      var d := if s[0] == '{' && k > 0 && k + 1 < |s| && s[k + 1] == '}' then k + 2 else 1;
      if d == k + 2 {
        PlaceholderAfterMatch(s, x, i);
      }
      SubstringAfterDrop(s, "{" + x + "}", i, d);
      InterpolateExposesPlaceholder(s[d..], x, i - d);
      var head := if d == 1 then [s[0]] else Expansion(s[1..k + 1]);
      assert Interpolate(s) == head + Interpolate(s[d..]) + "";
      ContainsInContext(head, Interpolate(s[d..]), "", Expansion(x));
    }
  }

  /** Each template with its '?' markers removed and its placeholders interpolated. */
  function InterpolatedTemplates(templates: seq<string>): (r: seq<string>)
    ensures |r| == |templates|
    ensures forall i :: 0 <= i < |templates| ==> r[i] == Interpolate(Replace(templates[i], "?", ""))
  {
    if |templates| == 0 then []
    else [Interpolate(Replace(templates[0], "?", ""))] + InterpolatedTemplates(templates[1..])
  }

  /** The `url` constant of a service method: '/' followed by the templates joined with '/'. */
  function ServiceUrl(templates: seq<string>): string {
    "/" + Join("/", InterpolatedTemplates(templates))
  }
}

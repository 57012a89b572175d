/** `ApiAssembly`: the controllers of the server assembly. */
module ApiAssemblies {
  import opened Seqs
  import opened ApiControllers

  /** `t.IsSubclassOf(typeof(Controller)) && !t.IsAbstract`. */
  predicate IsControllerType(t: ControllerType) {
    t.isSubclassOfController && !t.isAbstract
  }

  /** `ApiAssembly.Parse` over the exported types, in the order the assembly lists them. */
  function ParseAssembly(exported: seq<ControllerType>): (cs: seq<ApiController>)
    // one controller per eligible type, in the order of the exported types, and no others
    ensures |cs| == |Filter(IsControllerType, exported)|
    ensures forall i :: 0 <= i < |cs| ==> cs[i] == ParseController(Filter(IsControllerType, exported)[i])
    ensures forall c :: c in cs ==> c.controllerType in exported
    ensures forall c :: c in cs ==> c.controllerType.isSubclassOfController && !c.controllerType.isAbstract
    ensures forall t :: t in exported && IsControllerType(t) ==> exists c :: c in cs && c.controllerType == t
  {
    var kept := Filter(IsControllerType, exported);
    var cs := Map(ParseController, kept);
    forall t | t in exported && IsControllerType(t)
      ensures exists c :: c in cs && c.controllerType == t
    {
      var i :| 0 <= i < |kept| && kept[i] == t;
      assert cs[i] in cs;
    }
    forall c | c in cs
      ensures c.controllerType in kept
    {
      var i :| 0 <= i < |cs| && cs[i] == c;
      assert kept[i] in kept;
    }
    cs
  }
}

/** The table of variables met so far. */
module Variables {
  import opened Outcomes

  /** A variable's parity, its name and the number of its diagram node. */
  datatype AugVar = AugVar(primed: bool, name: string, node: nat)

  ghost predicate DistinctNames(vars: seq<AugVar>) {
    forall i, j :: 0 <= i < j < |vars| ==> vars[i].name != vars[j].name
  }

  function NamesOf(vars: seq<AugVar>): set<string> {
    set v | v in vars :: v.name
  }

  method Find(key: string, vars: seq<AugVar>) returns (found: Option<AugVar>)
    ensures found.None? <==> key !in NamesOf(vars)
    ensures found.Some? ==> found.value in vars && found.value.name == key
  {
    for j := 0 to |vars|
      invariant forall i :: 0 <= i < j ==> vars[i].name != key
    {
      if vars[j].name == key { return Some(vars[j]); }
    }
    return None;
  }
}

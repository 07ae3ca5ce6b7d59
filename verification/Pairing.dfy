/** Matching every unprimed variable with its primed counterpart. */
module Pairing {
  import opened BoolFunctions
  import opened Formulas
  import opened Outcomes
  import opened Variables
  import opened BddFromPrefixes

  function WithParity(vars: seq<AugVar>, primed: bool): seq<AugVar> {
    if vars == [] then []
    else
      var front := WithParity(vars[..|vars| - 1], primed);
      var last := vars[|vars| - 1];
      if last.primed == primed then front + [last] else front
  }

  function NodesOf(vars: seq<AugVar>): (nodes: seq<nat>)
    ensures |nodes| == |vars| && forall i :: 0 <= i < |vars| ==> nodes[i] == vars[i].node
  {
    seq(|vars|, i requires 0 <= i < |vars| => vars[i].node)
  }

  function Primed(name: string): string { name + "'" }

  lemma {:induction false} ParityMembers(vars: seq<AugVar>, primed: bool)
    ensures forall v :: v in WithParity(vars, primed) <==> v in vars && v.primed == primed
  {
    if vars != [] {
      ParityMembers(vars[..|vars| - 1], primed);
      assert vars == vars[..|vars| - 1] + [vars[|vars| - 1]];
    }
  }

  lemma {:induction false} ParityIncreasing(w: nat, vars: seq<AugVar>, primed: bool)
    requires TableOk(w, vars)
    ensures forall i, j :: 0 <= i < j < |WithParity(vars, primed)| ==>
      WithParity(vars, primed)[i].node < WithParity(vars, primed)[j].node
  {
    if vars != [] {
      ParityIncreasing(w, vars[..|vars| - 1], primed);
      ParityMembers(vars[..|vars| - 1], primed);
    }
  }

  /** Every unprimed variable has a primed counterpart, and there are as many of each. */
  ghost predicate Paired(vars: seq<AugVar>) {
    && |WithParity(vars, true)| == |WithParity(vars, false)|
    && forall v :: v in vars && !v.primed ==> Primed(v.name) in NamesOf(vars)
  }

  /** The i-th entries of the two arrays belong to the same variable. */
  ghost predicate Counterparts(vars: seq<AugVar>, primed: seq<nat>, unprimed: seq<nat>) {
    && unprimed == NodesOf(WithParity(vars, false))
    && |primed| == |unprimed|
    && forall i :: 0 <= i < |primed| ==>
         primed[i] < |vars| && vars[primed[i]].name == Primed(WithParity(vars, false)[i].name)
  }

  /** The unprimed variables are copied, the primed ones are counted. */
  method CopyUnprimed(vars: seq<AugVar>) returns (unprimedVars: seq<AugVar>, numPrimed: nat)
    ensures unprimedVars == WithParity(vars, false) && numPrimed == |WithParity(vars, true)|
  {
    unprimedVars, numPrimed := [], 0;
    for i := 0 to |vars|
      invariant unprimedVars == WithParity(vars[..i], false) && numPrimed == |WithParity(vars[..i], true)|
    {
      assert vars[..i + 1][..i] == vars[..i];
      if !vars[i].primed {
        unprimedVars := unprimedVars + [vars[i]];
      } else {
        numPrimed := numPrimed + 1;
      }
    }
    assert vars[..|vars|] == vars;
  }

  method PairVariables(vars: seq<AugVar>, ghost w: nat) returns (r: Result<(seq<nat>, seq<nat>)>)
    requires TableOk(w, vars)
    ensures r.Ok? <==> Paired(vars)
    ensures r.Ok? ==> Counterparts(vars, r.value.0, r.value.1)
  {
    hide WithParity, Primed, NamesOf;
    var unprimedVars, numPrimed := CopyUnprimed(vars);
    if numPrimed != |unprimedVars| { return Err(Unpaired); }
    ParityMembers(vars, false);
    var primed: seq<nat> := [];
    for i := 0 to |unprimedVars|
      invariant |primed| == i
      invariant forall k :: 0 <= k < i ==> primed[k] < |vars| && vars[primed[k]].name == Primed(unprimedVars[k].name)
      invariant forall k :: 0 <= k < i ==> Primed(unprimedVars[k].name) in NamesOf(vars)
    {
      var found := Find(Primed(unprimedVars[i].name), vars);
      assert unprimedVars[i] in vars;
      if found.None? { return Err(MissingCounterpart); }
      primed := primed + [found.value.node];
    }
    return Ok((primed, NodesOf(unprimedVars)));
  }

  function Elements(xs: seq<nat>): set<nat> { set x | x in xs }

  lemma {:induction false} DistinctCount(xs: seq<nat>)
    requires Distinct(xs)
    ensures |Elements(xs)| == |xs|
  {
    if xs == [] {
      assert Elements(xs) == {};
    } else {
      var front, last := xs[..|xs| - 1], xs[|xs| - 1];
      DistinctCount(front);
      assert xs == front + [last] && last !in Elements(front);
      assert Elements(xs) == Elements(front) + {last};
    }
  }

  lemma PrimedNamesDiffer(a: string, b: string)
    requires Primed(a) == Primed(b)
    ensures a == b
  {
    assert a == Primed(a)[..|a|] && b == Primed(b)[..|b|];
  }

  /** The nodes of the variables of one parity, each of them once. */
  lemma ParityNodes(w: nat, vars: seq<AugVar>, primed: bool)
    requires TableOk(w, vars)
    ensures var nodes := NodesOf(WithParity(vars, primed));
      && Distinct(nodes) && (forall v :: v in nodes ==> v < |vars| && vars[v].primed == primed)
      && forall i :: 0 <= i < |vars| && vars[i].primed == primed ==> i in nodes
  {
    hide WithParity, DistinctNames;
    var vs := WithParity(vars, primed);
    var nodes := NodesOf(vs);
    ParityMembers(vars, primed);
    ParityIncreasing(w, vars, primed);
    forall v | v in nodes ensures v < |vars| && vars[v].primed == primed {
      var k :| 0 <= k < |nodes| && nodes[k] == v;
      assert vs[k] in vs;
    }
    forall i | 0 <= i < |vars| && vars[i].primed == primed ensures i in nodes {
      assert vars[i] in vs;
      var k :| 0 <= k < |vs| && vs[k] == vars[i];
      assert nodes[k] == i;
    }
  }

  /** The primed array holds nodes of primed variables, none of them twice. */
  lemma CounterpartsDistinct(w: nat, vars: seq<AugVar>, primed: seq<nat>, unprimed: seq<nat>)
    requires TableOk(w, vars) && Counterparts(vars, primed, unprimed)
    ensures Distinct(primed) && forall v :: v in primed ==> v < |vars| && vars[v].primed
  {
    hide WithParity, DistinctNames;
    var us := WithParity(vars, false);
    ParityMembers(vars, false);
    ParityIncreasing(w, vars, false);
    forall i | 0 <= i < |primed| ensures vars[primed[i]].primed { assert IsPrimed(Primed(us[i].name)); }
    forall i, j | 0 <= i < j < |primed| ensures primed[i] != primed[j] {
      if primed[i] == primed[j] { PrimedNamesDiffer(us[i].name, us[j].name); }
      SameName(w, vars, us[i], us[j]);
    }
  }

  lemma SameName(w: nat, vars: seq<AugVar>, u: AugVar, v: AugVar)
    requires TableOk(w, vars) && u in vars && v in vars && u.node != v.node
    ensures u.name != v.name
  {
  }

  /** The arrays hold each variable's node exactly once. */
  lemma CounterpartsCover(w: nat, vars: seq<AugVar>, primed: seq<nat>, unprimed: seq<nat>)
    requires TableOk(w, vars) && Paired(vars) && Counterparts(vars, primed, unprimed)
    ensures Distinct(primed) && Distinct(unprimed) && Below(primed, w) && Below(unprimed, w)
    ensures forall v :: v in primed ==> v < |vars| && vars[v].primed
    ensures forall v :: v in unprimed ==> v < |vars| && !vars[v].primed
    ensures forall i :: 0 <= i < |vars| ==> if vars[i].primed then i in primed else i in unprimed
  {
    hide WithParity, DistinctNames;
    ParityNodes(w, vars, false);
    CounterpartsDistinct(w, vars, primed, unprimed);
    PrimedCovered(w, vars, primed);
    assert forall i :: 0 <= i < |unprimed| ==> unprimed[i] in unprimed;
  }

  lemma SameSize(some: set<nat>, all: set<nat>)
    requires some <= all && |some| == |all|
    ensures some == all
  {
    assert all == some + (all - some);
  }

  /** Equally many primed variables as entries, all distinct: none is left out. */
  lemma PrimedCovered(w: nat, vars: seq<AugVar>, primed: seq<nat>)
    requires TableOk(w, vars) && Distinct(primed) && |primed| == |WithParity(vars, true)|
    requires forall v :: v in primed ==> v < |vars| && vars[v].primed
    ensures forall i :: 0 <= i < |vars| && vars[i].primed ==> i in primed
  {
    hide WithParity, DistinctNames;
    var nodes := NodesOf(WithParity(vars, true));
    ParityNodes(w, vars, true);
    DistinctCount(nodes);
    DistinctCount(primed);
    SameSize(Elements(primed), Elements(nodes));
    assert forall i :: i in nodes <==> i in Elements(nodes);
  }
}

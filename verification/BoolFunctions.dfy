/** Boolean functions over the assignments of a fixed number of variables.

    A decision diagram is modelled by the set of assignments that satisfy it,
    and each library call by the operation it performs on that set.  Two
    diagrams are then equivalent exactly when the two sets are equal. */
module BoolFunctions {

  datatype Bit = Zero | One

  /** One truth value per variable of the manager, indexed by variable number. */
  type Env = seq<Bit>

  type Bdd = set<Env>

  function Pow2(n: nat): nat {
    if n == 0 then 1 else 2 * Pow2(n - 1)
  }

  function Extended(envs: set<Env>, b: Bit): (r: set<Env>)
    ensures forall e :: e in r <==> |e| > 0 && e[|e| - 1] == b && e[..|e| - 1] in envs
  {
    var r := set e | e in envs :: e + [b];
    assert forall e: Env | |e| > 0 && e[|e| - 1] == b && e[..|e| - 1] in envs :: e == e[..|e| - 1] + [b];
    r
  }

  function AllEnvs(w: nat): (all: set<Env>)
    ensures forall e :: e in all <==> |e| == w
  {
    if w == 0 then {[]}
    else Extended(AllEnvs(w - 1), Zero) + Extended(AllEnvs(w - 1), One)
  }

  lemma {:induction false} AllEnvsCount(w: nat)
    ensures |AllEnvs(w)| == Pow2(w)
  {
    if w == 0 {
      assert AllEnvs(0) == {[]};
    } else {
      AllEnvsCount(w - 1);
      DisjointCount(Extended(AllEnvs(w - 1), Zero), Extended(AllEnvs(w - 1), One));
      ExtendedCount(AllEnvs(w - 1), Zero);
      ExtendedCount(AllEnvs(w - 1), One);
    }
  }

  lemma {:induction false} ExtendedCount(envs: set<Env>, b: Bit)
    ensures |Extended(envs, b)| == |envs|
  {
    if envs != {} {
      var x :| x in envs;
      ExtendedCount(envs - {x}, b);
      assert (x + [b])[..|x|] == x;
      assert Extended(envs, b) == Extended(envs - {x}, b) + {x + [b]};
    }
  }

  lemma DisjointCount(a: set<Env>, b: set<Env>)
    requires a !! b
    ensures |a + b| == |a| + |b|
  {
  }

  function Not(w: nat, f: Bdd): Bdd { AllEnvs(w) - f }

  function And(f: Bdd, g: Bdd): Bdd { f * g }

  function Or(f: Bdd, g: Bdd): Bdd { f + g }

  function Xor(f: Bdd, g: Bdd): Bdd { (f - g) + (g - f) }

  /** The projection function of variable v. */
  function Var(w: nat, v: nat): Bdd
    requires v < w
  {
    set e | e in AllEnvs(w) && e[v] == One
  }

  /** Existential abstraction of one variable. */
  function Exists(w: nat, f: Bdd, v: nat): Bdd
    requires v < w
  {
    set e | e in AllEnvs(w) && (e[v := Zero] in f || e[v := One] in f)
  }

  function IndexOf(xs: seq<nat>, v: nat): (i: nat)
    requires v in xs
    ensures i < |xs| && xs[i] == v
  {
    if xs[0] == v then 0 else 1 + IndexOf(xs[1..], v)
  }

  ghost predicate Distinct(xs: seq<nat>) {
    forall i, j :: 0 <= i < j < |xs| ==> xs[i] != xs[j]
  }

  ghost predicate Below(xs: seq<nat>, w: nat) {
    forall i :: 0 <= i < |xs| ==> xs[i] < w
  }

  lemma IndexOfUnique(xs: seq<nat>, i: nat)
    requires Distinct(xs) && i < |xs|
    ensures IndexOf(xs, xs[i]) == i
  {
  }

  /** The values an assignment gives to a list of variables. */
  function Read(vars: seq<nat>, e: Env): (r: seq<Bit>)
    requires Below(vars, |e|)
    ensures |r| == |vars| && forall i :: 0 <= i < |vars| ==> r[i] == e[vars[i]]
  {
    seq(|vars|, i requires 0 <= i < |vars| => e[vars[i]])
  }

  /** The assignment changed so that the variables of the list have the given values. */
  function Write(vars: seq<nat>, e: Env, values: seq<Bit>): (r: Env)
    requires |values| == |vars|
    ensures |r| == |e|
    ensures forall v :: 0 <= v < |e| && v !in vars ==> r[v] == e[v]
    ensures Below(vars, |e|) && Distinct(vars) ==> Read(vars, r) == values
  {
    var r := seq(|e|, v requires 0 <= v < |e| => if v in vars then values[IndexOf(vars, v)] else e[v]);
    assert Below(vars, |e|) && Distinct(vars) ==> Read(vars, r) == values by {
      if Below(vars, |e|) && Distinct(vars) {
        forall i | 0 <= i < |vars| ensures r[vars[i]] == values[i] { IndexOfUnique(vars, i); }
      }
    }
    r
  }

  /** The variable read in the place of v when xs[i] and ys[i] change places. */
  function SwapVar(xs: seq<nat>, ys: seq<nat>, v: nat): (r: nat)
    requires |xs| == |ys|
    ensures r == v || r in xs || r in ys
  {
    if v in xs then ys[IndexOf(xs, v)]
    else if v in ys then xs[IndexOf(ys, v)]
    else v
  }

  function SwapEnv(xs: seq<nat>, ys: seq<nat>, e: Env): (r: Env)
    requires |xs| == |ys| && Below(xs, |e|) && Below(ys, |e|)
    ensures |r| == |e| && forall v :: 0 <= v < |e| ==> r[v] == e[SwapVar(xs, ys, v)]
  {
    seq(|e|, v requires 0 <= v < |e| => e[SwapVar(xs, ys, v)])
  }

  /** Exchange of the variables xs[i] and ys[i], for every i. */
  function Swap(w: nat, f: Bdd, xs: seq<nat>, ys: seq<nat>): Bdd
    requires |xs| == |ys| && Below(xs, w) && Below(ys, w)
  {
    set e | e in AllEnvs(w) && SwapEnv(xs, ys, e) in f
  }
}

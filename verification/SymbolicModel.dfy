/** The correspondence between diagrams over primed and unprimed variables and
    the explicit transition graph they stand for. */
module SymbolicModel {
  import opened BoolFunctions
  import opened CtlSemantics

  /** The part of the checker's context that the temporal operators read: the
      width of the assignments, the transition diagram, and the two arrays in
      which primed[i] is the primed counterpart of unprimed[i]. */
  datatype Context = Context(width: nat, transition: Bdd, primed: seq<nat>, unprimed: seq<nat>)

  ghost predicate AgreeOutside(e: Env, e': Env, vars: seq<nat>) {
    |e| == |e'| && forall v :: 0 <= v < |e| && v !in vars ==> e[v] == e'[v]
  }

  /** The pairing of the variables: pairwise distinct variables, all in range. */
  ghost predicate PairingOk(c: Context) {
    && |c.primed| == |c.unprimed|
    && Distinct(c.primed) && Distinct(c.unprimed)
    && (forall v :: v in c.primed ==> v !in c.unprimed)
    && Below(c.primed, c.width) && Below(c.unprimed, c.width)
  }

  // ----- Assignments and pairs of states -----

  function StateOf(c: Context, e: Env): State
    requires Below(c.unprimed, |e|)
  {
    Read(c.unprimed, e)
  }

  function NextOf(c: Context, e: Env): State
    requires Below(c.primed, |e|)
  {
    Read(c.primed, e)
  }

  ghost function SetState(c: Context, e: Env, s: State): (r: Env)
    requires PairingOk(c) && |e| == c.width && |s| == |c.unprimed|
    ensures |r| == c.width && StateOf(c, r) == s && NextOf(c, r) == NextOf(c, e) && AgreeOutside(e, r, c.unprimed)
  {
    Write(c.unprimed, e, s)
  }

  ghost function SetNext(c: Context, e: Env, t: State): (r: Env)
    requires PairingOk(c) && |e| == c.width && |t| == |c.primed|
    ensures |r| == c.width && NextOf(c, r) == t && StateOf(c, r) == StateOf(c, e) && AgreeOutside(e, r, c.primed)
  {
    Write(c.primed, e, t)
  }

  /** The assignment that gives s to the unprimed and t to the primed variables. */
  ghost function Place(c: Context, s: State, t: State): (e: Env)
    requires PairingOk(c) && |s| == |t| == |c.unprimed|
    ensures |e| == c.width && StateOf(c, e) == s && NextOf(c, e) == t
  {
    SetNext(c, SetState(c, seq(c.width, _ => Zero), s), t)
  }

  ghost function Steps(c: Context): set<(State, State)>
    requires PairingOk(c) && c.transition <= AllEnvs(c.width)
  {
    set e | e in c.transition :: (StateOf(c, e), NextOf(c, e))
  }

  /** The paired variables alone decide membership in the transition diagram. */
  ghost predicate ContextOk(c: Context) {
    && PairingOk(c)
    && c.transition <= AllEnvs(c.width)
    && c.transition == set e | e in AllEnvs(c.width) && (StateOf(c, e), NextOf(c, e)) in Steps(c)
  }

  ghost function GraphOf(c: Context): (g: Graph)
    requires ContextOk(c)
    ensures WellFormed(g)
  {
    Graph(AllEnvs(|c.unprimed|), Steps(c))
  }

  /** The diagram whose assignments are those with a state in x. */
  ghost function Lift(c: Context, x: set<State>): Bdd
    requires Below(c.unprimed, c.width)
  {
    set e | e in AllEnvs(c.width) && StateOf(c, e) in x
  }

  /** The states of a diagram's assignments. */
  ghost function States(c: Context, f: Bdd): set<State>
    requires Below(c.unprimed, c.width) && f <= AllEnvs(c.width)
  {
    set e | e in f :: StateOf(c, e)
  }

  /** The diagram is a function of the unprimed variables. */
  ghost predicate OverUnprimed(c: Context, f: Bdd)
    requires Below(c.unprimed, c.width)
  {
    f <= AllEnvs(c.width) && f == Lift(c, States(c, f))
  }

  lemma LiftStates(c: Context, x: set<State>)
    requires PairingOk(c) && x <= AllEnvs(|c.unprimed|)
    ensures Lift(c, x) <= AllEnvs(c.width) && States(c, Lift(c, x)) == x && OverUnprimed(c, Lift(c, x))
  {
    forall s | s in x ensures s in States(c, Lift(c, x)) {
      assert Place(c, s, s) in Lift(c, x);
    }
  }

  lemma OrDenotes(c: Context, f: Bdd, g: Bdd)
    requires PairingOk(c) && OverUnprimed(c, f) && OverUnprimed(c, g)
    ensures OverUnprimed(c, Or(f, g)) && States(c, Or(f, g)) == States(c, f) + States(c, g)
  {
    assert Or(f, g) == Lift(c, States(c, f) + States(c, g));
    LiftStates(c, States(c, f) + States(c, g));
  }

  lemma AndDenotes(c: Context, f: Bdd, g: Bdd)
    requires PairingOk(c) && OverUnprimed(c, f) && OverUnprimed(c, g)
    ensures OverUnprimed(c, And(f, g)) && States(c, And(f, g)) == States(c, f) * States(c, g)
  {
    assert And(f, g) == Lift(c, States(c, f) * States(c, g));
    LiftStates(c, States(c, f) * States(c, g));
  }

  lemma NotDenotes(c: Context, f: Bdd)
    requires PairingOk(c) && OverUnprimed(c, f)
    ensures OverUnprimed(c, Not(c.width, f)) && States(c, Not(c.width, f)) == AllEnvs(|c.unprimed|) - States(c, f)
  {
    assert Not(c.width, f) == Lift(c, AllEnvs(|c.unprimed|) - States(c, f));
    LiftStates(c, AllEnvs(|c.unprimed|) - States(c, f));
  }

  lemma XorDenotes(c: Context, f: Bdd, g: Bdd)
    requires PairingOk(c) && OverUnprimed(c, f) && OverUnprimed(c, g)
    ensures OverUnprimed(c, Xor(f, g))
    ensures States(c, Xor(f, g)) == (States(c, f) - States(c, g)) + (States(c, g) - States(c, f))
  {
    var x, y := States(c, f), States(c, g);
    assert Xor(f, g) == Lift(c, (x - y) + (y - x));
    LiftStates(c, (x - y) + (y - x));
  }

  lemma SameStatesSameDiagram(c: Context, f: Bdd, g: Bdd)
    requires PairingOk(c) && OverUnprimed(c, f) && OverUnprimed(c, g)
    ensures f == g <==> States(c, f) == States(c, g)
  {
  }

  // ----- Diagrams over both kinds of variables -----

  /** The pairs of current and next state of a diagram's assignments. */
  ghost function Pairs(c: Context, f: Bdd): set<(State, State)>
    requires PairingOk(c) && f <= AllEnvs(c.width)
  {
    set e | e in f :: (StateOf(c, e), NextOf(c, e))
  }

  /** The diagram whose assignments are those with a pair in r. */
  ghost function LiftPairs(c: Context, r: set<(State, State)>): Bdd
    requires PairingOk(c)
  {
    set e | e in AllEnvs(c.width) && (StateOf(c, e), NextOf(c, e)) in r
  }

  /** The diagram is a function of the paired variables. */
  ghost predicate OverPairs(c: Context, f: Bdd)
    requires PairingOk(c)
  {
    f <= AllEnvs(c.width) && f == LiftPairs(c, Pairs(c, f))
  }

  ghost predicate InStates(n: nat, r: set<(State, State)>) {
    forall s, t :: (s, t) in r ==> |s| == |t| == n
  }

  /** The pairs whose first state is in x. */
  ghost function From(n: nat, x: set<State>): (r: set<(State, State)>)
    ensures forall s, t :: (s, t) in r <==> s in x && |t| == n
  {
    set s, t | s in x && t in AllEnvs(n) :: (s, t)
  }

  lemma PairsOfLift(c: Context, r: set<(State, State)>)
    requires PairingOk(c) && InStates(|c.unprimed|, r)
    ensures LiftPairs(c, r) <= AllEnvs(c.width) && Pairs(c, LiftPairs(c, r)) == r && OverPairs(c, LiftPairs(c, r))
  {
    forall p | p in r ensures p in Pairs(c, LiftPairs(c, r)) {
      assert (p.0, p.1) in r;
      assert Place(c, p.0, p.1) in LiftPairs(c, r);
    }
  }

  /** A diagram over unprimed variables says nothing about the next state. */
  lemma StatesAsPairs(c: Context, f: Bdd)
    requires PairingOk(c) && OverUnprimed(c, f)
    ensures OverPairs(c, f) && Pairs(c, f) == From(|c.unprimed|, States(c, f))
  {
    assert f == LiftPairs(c, From(|c.unprimed|, States(c, f)));
    PairsOfLift(c, From(|c.unprimed|, States(c, f)));
  }

  lemma PairsAsStates(c: Context, f: Bdd, x: set<State>)
    requires PairingOk(c) && x <= AllEnvs(|c.unprimed|) && OverPairs(c, f) && Pairs(c, f) == From(|c.unprimed|, x)
    ensures OverUnprimed(c, f) && States(c, f) == x
  {
    assert f == Lift(c, x);
    LiftStates(c, x);
  }

  lemma OrPairs(c: Context, f: Bdd, g: Bdd)
    requires PairingOk(c) && OverPairs(c, f) && OverPairs(c, g)
    ensures OverPairs(c, Or(f, g)) && Pairs(c, Or(f, g)) == Pairs(c, f) + Pairs(c, g)
  {
    assert Or(f, g) == LiftPairs(c, Pairs(c, f) + Pairs(c, g));
    PairsOfLift(c, Pairs(c, f) + Pairs(c, g));
  }

  lemma AndPairs(c: Context, f: Bdd, g: Bdd)
    requires PairingOk(c) && OverPairs(c, f) && OverPairs(c, g)
    ensures OverPairs(c, And(f, g)) && Pairs(c, And(f, g)) == Pairs(c, f) * Pairs(c, g)
  {
    assert And(f, g) == LiftPairs(c, Pairs(c, f) * Pairs(c, g));
    PairsOfLift(c, Pairs(c, f) * Pairs(c, g));
  }

  lemma SamePairsSameDiagram(c: Context, f: Bdd, g: Bdd)
    requires PairingOk(c) && OverPairs(c, f) && OverPairs(c, g)
    ensures f == g <==> Pairs(c, f) == Pairs(c, g)
  {
  }

  lemma SwapExchangesStates(c: Context, e: Env)
    requires PairingOk(c) && |e| == c.width
    ensures StateOf(c, SwapEnv(c.primed, c.unprimed, e)) == NextOf(c, e)
    ensures NextOf(c, SwapEnv(c.primed, c.unprimed, e)) == StateOf(c, e)
  {
    var e' := SwapEnv(c.primed, c.unprimed, e);
    forall i | 0 <= i < |c.primed| ensures e'[c.unprimed[i]] == e[c.primed[i]] && e'[c.primed[i]] == e[c.unprimed[i]] {
      IndexOfUnique(c.primed, i);
      IndexOfUnique(c.unprimed, i);
    }
  }

  // ----- Abstracting one variable after another -----

  function AbstractAll(w: nat, f: Bdd, vars: seq<nat>): Bdd
    requires Below(vars, w)
  {
    if vars == [] then f else Exists(w, AbstractAll(w, f, vars[..|vars| - 1]), vars[|vars| - 1])
  }

  lemma AbstractOneMore(w: nat, f: Bdd, vars: seq<nat>, i: nat)
    requires i < |vars| && Below(vars, w)
    ensures AbstractAll(w, f, vars[..i + 1]) == Exists(w, AbstractAll(w, f, vars[..i]), vars[i])
  {
    assert vars[..i + 1][..i] == vars[..i];
  }

  lemma ExistsElim(w: nat, f: Bdd, v: nat, e: Env) returns (b: Bit)
    requires v < w && e in Exists(w, f, v)
    ensures |e| == w && e[v := b] in f
  {
    b := if e[v := Zero] in f then Zero else One;
  }

  /** An abstraction holds only where changing the abstracted variables can make f hold ... */
  lemma {:induction false} AbstractElim(w: nat, f: Bdd, vars: seq<nat>, e: Env) returns (e': Env)
    requires Below(vars, w) && |e| == w && e in AbstractAll(w, f, vars)
    ensures e' in f && AgreeOutside(e, e', vars)
  {
    if vars == [] {
      e' := e;
    } else {
      var n := |vars| - 1;
      hide Exists;
      var b := ExistsElim(w, AbstractAll(w, f, vars[..n]), vars[n], e);
      e' := AbstractElim(w, f, vars[..n], e[vars[n] := b]);
      forall v | 0 <= v < w && v !in vars ensures e[v] == e'[v] {
        assert v != vars[n] && v !in vars[..n];
      }
    }
  }

  /** ... and everywhere there. */
  lemma {:induction false} AbstractIntro(w: nat, f: Bdd, vars: seq<nat>, e: Env, e': Env)
    requires Below(vars, w) && |e| == w && e' in f && AgreeOutside(e, e', vars)
    ensures e in AbstractAll(w, f, vars)
  {
    if vars == [] {
      assert e == e';
    } else {
      var n := |vars| - 1;
      var e'' := e[vars[n] := e'[vars[n]]];
      forall v | 0 <= v < w && v !in vars[..n] ensures e''[v] == e'[v] {
        if v != vars[n] { assert v !in vars; }
      }
      AbstractIntro(w, f, vars[..n], e'', e');
      if e'[vars[n]] == Zero { assert e'' == e[vars[n] := Zero]; } else { assert e'' == e[vars[n] := One]; }
    }
  }

  /** Abstracting the primed variables of "transition and p about the next
      state" leaves the states with a successor in p. */
  lemma PreImage(c: Context, p: Bdd)
    requires ContextOk(c) && OverUnprimed(c, p)
    ensures AbstractAll(c.width, And(c.transition, Swap(c.width, p, c.primed, c.unprimed)), c.primed)
            == Lift(c, EXSet(GraphOf(c), States(c, p)))
  {
    var pre := AbstractAll(c.width, And(c.transition, Swap(c.width, p, c.primed, c.unprimed)), c.primed);
    AbstractInRange(c.width, And(c.transition, Swap(c.width, p, c.primed, c.unprimed)), c.primed);
    forall e | |e| == c.width ensures e in pre <==> StateOf(c, e) in EXSet(GraphOf(c), States(c, p)) {
      PreImageAt(c, p, e);
    }
  }

  lemma AbstractInRange(w: nat, f: Bdd, vars: seq<nat>)
    requires Below(vars, w) && f <= AllEnvs(w)
    ensures AbstractAll(w, f, vars) <= AllEnvs(w)
  {
  }

  lemma StepIntoAt(c: Context, p: Bdd, e: Env)
    requires ContextOk(c) && OverUnprimed(c, p) && |e| == c.width
    ensures e in And(c.transition, Swap(c.width, p, c.primed, c.unprimed))
            <==> (StateOf(c, e), NextOf(c, e)) in GraphOf(c).step && NextOf(c, e) in States(c, p)
  {
    SwapExchangesStates(c, e);
    assert SwapEnv(c.primed, c.unprimed, e) in p <==> SwapEnv(c.primed, c.unprimed, e) in Lift(c, States(c, p));
  }

  lemma SameReading(vars: seq<nat>, others: seq<nat>, e: Env, e': Env)
    requires AgreeOutside(e, e', others) && Below(vars, |e|) && forall v :: v in vars ==> v !in others
    ensures Read(vars, e') == Read(vars, e)
  {
  }

  lemma PreImageAt(c: Context, p: Bdd, e: Env)
    requires ContextOk(c) && OverUnprimed(c, p) && |e| == c.width
    ensures e in AbstractAll(c.width, And(c.transition, Swap(c.width, p, c.primed, c.unprimed)), c.primed)
            <==> HoldsEX(GraphOf(c), States(c, p), StateOf(c, e))
  {
    var conj := And(c.transition, Swap(c.width, p, c.primed, c.unprimed));
    if e in AbstractAll(c.width, conj, c.primed) {
      var e' := AbstractElim(c.width, conj, c.primed, e);
      StepIntoAt(c, p, e');
      SameReading(c.unprimed, c.primed, e, e');
    }
    forall t | (StateOf(c, e), t) in GraphOf(c).step && t in States(c, p)
      ensures e in AbstractAll(c.width, conj, c.primed)
    {
      StepIntoAt(c, p, SetNext(c, e, t));
      AbstractIntro(c.width, conj, c.primed, e, SetNext(c, e, t));
    }
  }

  ghost function ImageSet(g: Graph, x: set<State>): set<State> {
    set t | t in g.states && exists s :: s in x && (s, t) in g.step
  }

  /** Abstracting the unprimed variables of "transition from p" and renaming
      leaves the successors of p. */
  lemma ForwardImage(c: Context, p: Bdd)
    requires ContextOk(c) && OverUnprimed(c, p)
    ensures Swap(c.width, AbstractAll(c.width, And(p, c.transition), c.unprimed), c.primed, c.unprimed)
            == Lift(c, ImageSet(GraphOf(c), States(c, p)))
  {
    forall e | |e| == c.width
      ensures SwapEnv(c.primed, c.unprimed, e) in AbstractAll(c.width, And(p, c.transition), c.unprimed)
              <==> StateOf(c, e) in ImageSet(GraphOf(c), States(c, p))
    {
      SwapExchangesStates(c, e);
      ImageAt(c, p, SwapEnv(c.primed, c.unprimed, e));
    }
  }

  /** The states that a step of the graph enters whose pair is in r. */
  ghost function PairImage(g: Graph, r: set<(State, State)>): set<State> {
    set t | t in g.states && exists s :: (s, t) in r && (s, t) in g.step
  }

  lemma ImageOfStates(g: Graph, n: nat, x: set<State>)
    requires WellFormed(g) && g.states == AllEnvs(n)
    ensures PairImage(g, From(n, x)) == ImageSet(g, x)
  {
  }

  /** For a diagram over both kinds of variables that leaves the next states of
      the steps whose pair it holds: forward images in the graph of those steps. */
  lemma ForwardPairImage(c: Context, p: Bdd)
    requires ContextOk(c) && OverPairs(c, p)
    ensures Swap(c.width, AbstractAll(c.width, And(p, c.transition), c.unprimed), c.primed, c.unprimed)
            == Lift(c, PairImage(GraphOf(c), Pairs(c, p)))
  {
    assert OverPairs(c, c.transition);
    AndPairs(c, p, c.transition);
    var some := c.(transition := And(p, c.transition));
    SameLift(c, some);
    AllStates(some);
    ForwardImage(some, AllEnvs(c.width));
    assert And(AllEnvs(c.width), some.transition) == And(p, c.transition);
    assert PairImage(GraphOf(c), Pairs(c, p)) == ImageSet(GraphOf(some), AllEnvs(|c.unprimed|));
  }

  lemma SameLift(c: Context, some: Context)
    requires ContextOk(c) && c.(transition := some.transition) == some && OverPairs(c, some.transition)
    ensures ContextOk(some) && Steps(some) == Pairs(c, some.transition)
    ensures forall x :: Lift(some, x) == Lift(c, x)
  {
  }

  lemma AllStates(c: Context)
    requires PairingOk(c)
    ensures OverUnprimed(c, AllEnvs(c.width)) && States(c, AllEnvs(c.width)) == AllEnvs(|c.unprimed|)
  {
    assert AllEnvs(c.width) == Lift(c, AllEnvs(|c.unprimed|));
    LiftStates(c, AllEnvs(|c.unprimed|));
  }

  lemma StepFromAt(c: Context, p: Bdd, e: Env)
    requires ContextOk(c) && OverUnprimed(c, p) && |e| == c.width
    ensures e in And(p, c.transition)
            <==> (StateOf(c, e), NextOf(c, e)) in GraphOf(c).step && StateOf(c, e) in States(c, p)
  {
    assert e in p <==> e in Lift(c, States(c, p));
  }

  lemma ImageAt(c: Context, p: Bdd, e: Env)
    requires ContextOk(c) && OverUnprimed(c, p) && |e| == c.width
    ensures e in AbstractAll(c.width, And(p, c.transition), c.unprimed)
            <==> NextOf(c, e) in ImageSet(GraphOf(c), States(c, p))
  {
    var conj := And(p, c.transition);
    if e in AbstractAll(c.width, conj, c.unprimed) {
      var e' := AbstractElim(c.width, conj, c.unprimed, e);
      StepFromAt(c, p, e');
      SameReading(c.primed, c.unprimed, e, e');
    }
    forall s | (s, NextOf(c, e)) in GraphOf(c).step && s in States(c, p)
      ensures e in AbstractAll(c.width, conj, c.unprimed)
    {
      StepFromAt(c, p, SetState(c, e, s));
      AbstractIntro(c.width, conj, c.unprimed, e, SetState(c, e, s));
    }
  }
}

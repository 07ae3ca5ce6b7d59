/** The temporal operators of the checker: one symbolic pre-image and six
    fixpoint loops, each proved to compute the set its path semantics denotes,
    within the number of pre-images the lattice of state sets allows. */
module CtlOperators {
  import opened BoolFunctions
  import opened CtlSemantics
  import opened SymbolicModel

  method EX(p: Bdd, c: Context) returns (preExist: Bdd)
    requires ContextOk(c) && OverUnprimed(c, p)
    ensures OverUnprimed(c, preExist) && States(c, preExist) == EXSet(GraphOf(c), States(c, p))
  {
    var primedStates := Swap(c.width, p, c.primed, c.unprimed);
    var conj := And(c.transition, primedStates);
    preExist := conj;
    for i := 0 to |c.unprimed|
      invariant preExist == AbstractAll(c.width, conj, c.primed[..i])
    {
      AbstractOneMore(c.width, conj, c.primed, i);
      preExist := Exists(c.width, preExist, c.primed[i]);
    }
    assert c.primed[..|c.unprimed|] == c.primed;
    PreImage(c, p);
    LiftStates(c, EXSet(GraphOf(c), States(c, p)));
  }

  method AX(p: Bdd, c: Context) returns (r: Bdd)
    requires ContextOk(c) && OverUnprimed(c, p)
    ensures OverUnprimed(c, r) && States(c, r) == AXSet(GraphOf(c), States(c, p))
  {
    NotDenotes(c, p);
    var ex := EX(Not(c.width, p), c);
    NotDenotes(c, ex);
    AXDual(GraphOf(c), States(c, p));
    r := Not(c.width, ex);
  }

  // ----- Size of the lattice -----

  lemma SubsetCount(x: set<State>, y: set<State>)
    requires x <= y
    ensures |x| <= |y| && (|x| == |y| ==> x == y)
  {
    var d := y - x;
    assert y == x + d;
    assert |y| == |x| + |d|;
  }

  lemma StrictGrowth(c: Context, prev: Bdd, current: Bdd)
    requires ContextOk(c) && OverUnprimed(c, prev) && OverUnprimed(c, current)
    requires prev != current && States(c, prev) <= States(c, current)
    ensures |States(c, prev)| < |States(c, current)| <= Pow2(|c.unprimed|)
  {
    SameStatesSameDiagram(c, prev, current);
    SubsetCount(States(c, prev), States(c, current));
    StatesBounded(c, current);
  }

  lemma StatesBounded(c: Context, f: Bdd)
    requires ContextOk(c) && OverUnprimed(c, f)
    ensures States(c, f) <= GraphOf(c).states && |States(c, f)| <= Pow2(|c.unprimed|)
  {
    AllEnvsCount(|c.unprimed|);
    SubsetCount(States(c, f), AllEnvs(|c.unprimed|));
  }

  // ----- Approximations -----

  /** An operator computed by a loop, with its operands as sets of states. */
  datatype Operator =
    | Until(universal: bool, before: set<State>, finally: set<State>)
    | Globally(universal: bool, always: set<State>)

  /** The set that the path semantics gives to the operator. */
  ghost function Target(g: Graph, op: Operator): set<State> {
    match op
    case Until(universal, b, q) => if universal then AUSet(g, b, q) else EUSet(g, b, q)
    case Globally(universal, p) => if universal then AGSet(g, p) else EGSet(g, p)
  }

  /** One round of the operator's loop, on sets of states. */
  ghost function Round(g: Graph, op: Operator, x: set<State>): set<State> {
    match op
    case Until(universal, b, q) => if universal then StepAU(g, b, q, x) else StepEU(g, b, q, x)
    case Globally(universal, p) => if universal then StepAG(g, p, x) else StepEG(g, p, x)
  }

  ghost function Start(op: Operator): set<State> {
    if op.Until? then op.finally else op.always
  }

  /** What every loop knows: prev and current are consecutive approximations of
      the target, from below for the until operators, from above for the others. */
  ghost predicate Approximating(c: Context, op: Operator, prev: Bdd, current: Bdd)
    requires ContextOk(c)
  {
    && OverUnprimed(c, prev) && OverUnprimed(c, current)
    && States(c, current) == Round(GraphOf(c), op, States(c, prev))
    && (op.Until? ==> States(c, prev) <= States(c, current) <= Target(GraphOf(c), op))
    && (op.Globally? ==> Target(GraphOf(c), op) <= States(c, current) <= States(c, prev))
  }

  lemma RoundKeepsBelow(g: Graph, op: Operator, x: set<State>)
    requires WellFormed(g) && op.Until? && op.finally <= g.states && x <= Target(g, op)
    ensures Round(g, op, x) <= Target(g, op)
  {
    if op.universal { AUUnfold(g, op.before, op.finally, x); } else { EUUnfold(g, op.before, op.finally, x); }
  }

  lemma RoundKeepsAbove(g: Graph, op: Operator, x: set<State>)
    requires WellFormed(g) && op.Globally? && Target(g, op) <= x
    ensures Target(g, op) <= Round(g, op, x)
  {
    if op.universal { AGUnfold(g, op.always, x); } else { EGUnfold(g, op.always, x); }
  }

  lemma RoundMonotone(g: Graph, op: Operator, x: set<State>, y: set<State>)
    requires x <= y
    ensures Round(g, op, x) <= Round(g, op, y)
  {
  }

  /** A fixed point that approximates the target is the target. */
  lemma FixedPointIsTarget(g: Graph, op: Operator, z: set<State>)
    requires WellFormed(g) && z <= g.states && Round(g, op, z) == z
    requires if op.Until? then z <= Target(g, op) else op.always <= g.states && Target(g, op) <= z
    ensures z == Target(g, op)
  {
    match op
    case Until(true, b, q) => AULeast(g, b, q, z);
    case Until(false, b, q) => EULeast(g, b, q, z);
    case Globally(true, p) => AGGreatest(g, p, z);
    case Globally(false, p) => EGGreatest(g, p, z);
  }

  lemma FirstRound(c: Context, op: Operator, prev: Bdd, current: Bdd)
    requires ContextOk(c) && OverUnprimed(c, prev) && OverUnprimed(c, current)
    requires States(c, prev) == Start(op) && States(c, current) == Round(GraphOf(c), op, States(c, prev))
    ensures Approximating(c, op, prev, current)
  {
    var g := GraphOf(c);
    StatesBounded(c, prev);
    if op.Until? {
      RoundKeepsBelow(g, op, {});
      RoundKeepsBelow(g, op, op.finally);
    } else {
      TargetInStart(g, op);
      RoundKeepsAbove(g, op, op.always);
    }
  }

  lemma TargetInStart(g: Graph, op: Operator)
    requires op.Globally?
    ensures Target(g, op) <= op.always
  {
    forall s | s in Target(g, op) ensures s in op.always {
      if op.universal {
        assert FinitePath(g, s, [s]);
      } else {
        var path: nat -> State :| InfinitePath(g, s, path) && forall i: nat :: path(i) in op.always;
        assert path(0) in op.always;
      }
    }
  }

  lemma NextRound(c: Context, op: Operator, prev: Bdd, current: Bdd, next: Bdd)
    requires ContextOk(c) && Approximating(c, op, prev, current) && prev != current
    requires op.Until? ==> op.finally <= GraphOf(c).states
    requires OverUnprimed(c, next) && States(c, next) == Round(GraphOf(c), op, States(c, current))
    ensures Approximating(c, op, current, next)
    ensures op.Until? ==> |States(c, prev)| < |States(c, current)| <= Pow2(|c.unprimed|)
    ensures op.Globally? ==> |States(c, current)| < |States(c, prev)|
  {
    var g := GraphOf(c);
    if op.Until? {
      StrictGrowth(c, prev, current);
      RoundMonotone(g, op, States(c, prev), States(c, current));
      RoundKeepsBelow(g, op, States(c, current));
    } else {
      StrictGrowth(c, current, prev);
      RoundMonotone(g, op, States(c, current), States(c, prev));
      RoundKeepsAbove(g, op, States(c, current));
    }
  }

  lemma LastRound(c: Context, op: Operator, current: Bdd)
    requires ContextOk(c) && Approximating(c, op, current, current)
    requires op.Globally? ==> op.always <= GraphOf(c).states
    ensures States(c, current) == Target(GraphOf(c), op)
    ensures |States(c, current)| <= Pow2(|c.unprimed|)
  {
    StatesBounded(c, current);
    FixedPointIsTarget(GraphOf(c), op, States(c, current));
  }

  // ----- The loops -----

  /** The diagrams a round of an until loop builds denote that round. */
  lemma UntilJoin(c: Context, op: Operator, before: Bdd, finally: Bdd, pre: Bdd, x: set<State>)
    requires ContextOk(c) && op.Until? && OverUnprimed(c, before) && OverUnprimed(c, finally) && OverUnprimed(c, pre)
    requires op.finally == States(c, finally) && op.before == States(c, before)
    requires States(c, pre) == if op.universal then AXSet(GraphOf(c), x) else EXSet(GraphOf(c), x)
    ensures OverUnprimed(c, Or(finally, And(before, pre)))
    ensures States(c, Or(finally, And(before, pre))) == Round(GraphOf(c), op, x)
  {
    AndDenotes(c, before, pre);
    OrDenotes(c, finally, And(before, pre));
  }

  /** The loops for EF and AF leave out the conjunction with "before", which is then true. */
  lemma EventuallyJoin(c: Context, op: Operator, finally: Bdd, pre: Bdd, x: set<State>)
    requires ContextOk(c) && op.Until? && OverUnprimed(c, finally) && OverUnprimed(c, pre)
    requires op.finally == States(c, finally) && op.before == GraphOf(c).states
    requires States(c, pre) == if op.universal then AXSet(GraphOf(c), x) else EXSet(GraphOf(c), x)
    ensures OverUnprimed(c, Or(finally, pre)) && States(c, Or(finally, pre)) == Round(GraphOf(c), op, x)
  {
    OrDenotes(c, finally, pre);
    StatesBounded(c, pre);
    assert op.before * States(c, pre) == States(c, pre);
  }

  method EF(p: Bdd, c: Context) returns (current: Bdd, ghost calls: nat)
    requires ContextOk(c) && OverUnprimed(c, p)
    ensures OverUnprimed(c, current) && States(c, current) == EFSet(GraphOf(c), States(c, p))
    ensures 1 <= calls <= Pow2(|c.unprimed|) - |States(c, p)| + 1
  {
    hide States, GraphOf, Round;
    ghost var op := Until(false, GraphOf(c).states, States(c, p));
    StatesBounded(c, p);
    EFIsEU(GraphOf(c), States(c, p));
    var prev := p;
    var pre := EX(p, c);
    EventuallyJoin(c, op, p, pre, States(c, p));
    current := Or(p, pre);
    calls := 1;
    FirstRound(c, op, prev, current);
    while prev != current
      invariant Approximating(c, op, prev, current)
      invariant calls >= 1 && |States(c, prev)| >= |States(c, p)| + calls - 1
      decreases Pow2(|c.unprimed|) - |States(c, prev)|
    {
      ghost var last := prev;
      prev := current;
      pre := EX(current, c);
      EventuallyJoin(c, op, p, pre, States(c, current));
      current := Or(p, pre);
      calls := calls + 1;
      NextRound(c, op, last, prev, current);
    }
    LastRound(c, op, current);
  }

  method AF(p: Bdd, c: Context) returns (current: Bdd, ghost calls: nat)
    requires ContextOk(c) && OverUnprimed(c, p)
    ensures OverUnprimed(c, current) && States(c, current) == AFSet(GraphOf(c), States(c, p))
    ensures 1 <= calls <= Pow2(|c.unprimed|) - |States(c, p)| + 1
  {
    hide States, GraphOf, Round;
    ghost var op := Until(true, GraphOf(c).states, States(c, p));
    StatesBounded(c, p);
    AFIsAU(GraphOf(c), States(c, p));
    var prev := p;
    var pre := AX(p, c);
    EventuallyJoin(c, op, p, pre, States(c, p));
    current := Or(p, pre);
    calls := 1;
    FirstRound(c, op, prev, current);
    while prev != current
      invariant Approximating(c, op, prev, current)
      invariant calls >= 1 && |States(c, prev)| >= |States(c, p)| + calls - 1
      decreases Pow2(|c.unprimed|) - |States(c, prev)|
    {
      ghost var last := prev;
      prev := current;
      pre := AX(current, c);
      EventuallyJoin(c, op, p, pre, States(c, current));
      current := Or(p, pre);
      calls := calls + 1;
      NextRound(c, op, last, prev, current);
    }
    LastRound(c, op, current);
  }

  method EG(p: Bdd, c: Context) returns (current: Bdd, ghost calls: nat)
    requires ContextOk(c) && OverUnprimed(c, p)
    ensures OverUnprimed(c, current) && States(c, current) == EGSet(GraphOf(c), States(c, p))
    ensures 1 <= calls <= |States(c, p)| + 1
  {
    hide States, GraphOf;
    ghost var op := Globally(false, States(c, p));
    StatesBounded(c, p);
    var prev := p;
    var pre := EX(p, c);
    AndDenotes(c, p, pre);
    current := And(p, pre);
    calls := 1;
    FirstRound(c, op, prev, current);
    while prev != current
      invariant Approximating(c, op, prev, current)
      invariant calls >= 1 && |States(c, prev)| <= |States(c, p)| - calls + 1
      decreases |States(c, prev)|
    {
      ghost var last := prev;
      prev := current;
      pre := EX(current, c);
      AndDenotes(c, p, pre);
      current := And(p, pre);
      calls := calls + 1;
      NextRound(c, op, last, prev, current);
    }
    LastRound(c, op, current);
  }

  method AG(p: Bdd, c: Context) returns (current: Bdd, ghost calls: nat)
    requires ContextOk(c) && OverUnprimed(c, p)
    ensures OverUnprimed(c, current) && States(c, current) == AGSet(GraphOf(c), States(c, p))
    ensures 1 <= calls <= |States(c, p)| + 1
  {
    hide States, GraphOf;
    ghost var op := Globally(true, States(c, p));
    StatesBounded(c, p);
    var prev := p;
    var pre := AX(p, c);
    AndDenotes(c, p, pre);
    current := And(p, pre);
    calls := 1;
    FirstRound(c, op, prev, current);
    while prev != current
      invariant Approximating(c, op, prev, current)
      invariant calls >= 1 && |States(c, prev)| <= |States(c, p)| - calls + 1
      decreases |States(c, prev)|
    {
      ghost var last := prev;
      prev := current;
      pre := AX(current, c);
      AndDenotes(c, p, pre);
      current := And(p, pre);
      calls := calls + 1;
      NextRound(c, op, last, prev, current);
    }
    LastRound(c, op, current);
  }

  method EU(before: Bdd, finally: Bdd, c: Context) returns (current: Bdd, ghost calls: nat)
    requires ContextOk(c) && OverUnprimed(c, before) && OverUnprimed(c, finally)
    ensures OverUnprimed(c, current) && States(c, current) == EUSet(GraphOf(c), States(c, before), States(c, finally))
    ensures 1 <= calls <= Pow2(|c.unprimed|) - |States(c, finally)| + 1
  {
    hide States, GraphOf, Round;
    ghost var op := Until(false, States(c, before), States(c, finally));
    StatesBounded(c, finally);
    var prev := finally;
    var pre := EX(finally, c);
    UntilJoin(c, op, before, finally, pre, States(c, finally));
    current := Or(finally, And(before, pre));
    calls := 1;
    FirstRound(c, op, prev, current);
    while prev != current
      invariant Approximating(c, op, prev, current)
      invariant calls >= 1 && |States(c, prev)| >= |States(c, finally)| + calls - 1
      decreases Pow2(|c.unprimed|) - |States(c, prev)|
    {
      ghost var last := prev;
      prev := current;
      pre := EX(current, c);
      UntilJoin(c, op, before, finally, pre, States(c, current));
      current := Or(finally, And(before, pre));
      calls := calls + 1;
      NextRound(c, op, last, prev, current);
    }
    LastRound(c, op, current);
  }

  method AU(before: Bdd, finally: Bdd, c: Context) returns (current: Bdd, ghost calls: nat)
    requires ContextOk(c) && OverUnprimed(c, before) && OverUnprimed(c, finally)
    ensures OverUnprimed(c, current) && States(c, current) == AUSet(GraphOf(c), States(c, before), States(c, finally))
    ensures 1 <= calls <= Pow2(|c.unprimed|) - |States(c, finally)| + 1
  {
    hide States, GraphOf, Round;
    ghost var op := Until(true, States(c, before), States(c, finally));
    StatesBounded(c, finally);
    var prev := finally;
    var pre := AX(finally, c);
    UntilJoin(c, op, before, finally, pre, States(c, finally));
    current := Or(finally, And(before, pre));
    calls := 1;
    FirstRound(c, op, prev, current);
    while prev != current
      invariant Approximating(c, op, prev, current)
      invariant calls >= 1 && |States(c, prev)| >= |States(c, finally)| + calls - 1
      decreases Pow2(|c.unprimed|) - |States(c, prev)|
    {
      ghost var last := prev;
      prev := current;
      pre := AX(current, c);
      UntilJoin(c, op, before, finally, pre, States(c, current));
      current := Or(finally, And(before, pre));
      calls := calls + 1;
      NextRound(c, op, last, prev, current);
    }
    LastRound(c, op, current);
  }
}

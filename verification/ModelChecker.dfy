/** The program: build the model, find its reachable states, check a property
    and compare with what is expected. */
module ModelChecker {
  import opened BoolFunctions
  import opened CtlSemantics
  import opened SymbolicModel
  import opened CtlOperators
  import opened CtlChecker
  import opened Formulas
  import opened Outcomes
  import opened Tokenisation
  import opened Variables
  import opened BddFromPrefixes
  import opened Pairing

  // ----- Reachability -----

  /** For a set of states those that its steps enter, for a diagram over both
      kinds of variables those that the steps it holds enter. */
  method TranslatedImage(states: Bdd, c: Context) returns (image: Bdd)
    requires ContextOk(c) && OverPairs(c, states)
    ensures Denotes(c, image, PairImage(GraphOf(c), Pairs(c, states)))
    ensures OverUnprimed(c, states) ==> Denotes(c, image, ImageSet(GraphOf(c), States(c, states)))
  {
    var conj := And(states, c.transition);
    image := conj;
    for i := 0 to |c.unprimed|
      invariant image == AbstractAll(c.width, conj, c.unprimed[..i])
    {
      AbstractOneMore(c.width, conj, c.unprimed, i);
      image := Exists(c.width, image, c.unprimed[i]);
    }
    assert c.unprimed[..|c.unprimed|] == c.unprimed;
    image := Swap(c.width, image, c.primed, c.unprimed);
    ForwardPairImage(c, states);
    LiftStates(c, PairImage(GraphOf(c), Pairs(c, states)));
    if OverUnprimed(c, states) { ImageDenotes(c, states); }
  }

  lemma ImageDenotes(c: Context, states: Bdd)
    requires ContextOk(c) && OverUnprimed(c, states)
    ensures OverPairs(c, states) && PairImage(GraphOf(c), Pairs(c, states)) == ImageSet(GraphOf(c), States(c, states))
  {
    StatesAsPairs(c, states);
    ImageOfStates(GraphOf(c), |c.unprimed|, States(c, states));
  }

  /** The states on finite paths that start in x. */
  ghost function ReachableSet(g: Graph, x: set<State>): set<State> {
    set t | t in g.states && exists s, path :: s in x && FinitePath(g, s, path) && path[|path| - 1] == t
  }

  lemma ReachableUnfold(g: Graph, x: set<State>, y: set<State>)
    requires WellFormed(g) && x <= g.states && y <= ReachableSet(g, x)
    ensures x <= ReachableSet(g, x) && ImageSet(g, y) <= ReachableSet(g, x)
  {
    forall s | s in x ensures s in ReachableSet(g, x) { assert FinitePath(g, s, [s]); }
    forall t | t in ImageSet(g, y) ensures t in ReachableSet(g, x) {
      var u :| u in y && (u, t) in g.step;
      var s, path :| s in x && FinitePath(g, s, path) && path[|path| - 1] == u;
      var longer := path + [t];
      forall i | 0 <= i < |longer| - 1 ensures (longer[i], longer[i + 1]) in g.step {
        if i < |path| - 1 { assert (path[i], path[i + 1]) in g.step; }
      }
      assert FinitePath(g, s, longer);
    }
  }

  lemma ReachableLeast(g: Graph, x: set<State>, z: set<State>)
    requires WellFormed(g) && x <= z && ImageSet(g, z) <= z
    ensures ReachableSet(g, x) <= z
  {
    forall t | t in ReachableSet(g, x) ensures t in z {
      var s, path :| s in x && FinitePath(g, s, path) && path[|path| - 1] == t;
      PathStaysInside(g, z, s, path, |path| - 1);
    }
  }

  lemma {:induction false} PathStaysInside(g: Graph, z: set<State>, s: State, path: seq<State>, i: nat)
    requires WellFormed(g) && ImageSet(g, z) <= z && FinitePath(g, s, path) && s in z && i < |path|
    ensures path[i] in z
  {
    if i > 0 {
      PathStaysInside(g, z, s, path, i - 1);
      assert (path[i - 1], path[i - 1 + 1]) in g.step;
      assert path[i] in ImageSet(g, z);
    }
  }

  /** What the reachability loop knows; x are the states entered by a first
      step.  Each round takes the image of the last image only. */
  ghost predicate Frontier(g: Graph, x: set<State>, prev: set<State>, image: set<State>, reached: set<State>) {
    && x <= reached && reached == prev + image && ImageSet(g, prev) <= reached
    && reached <= ReachableSet(g, x) && reached <= g.states
  }

  lemma FirstFrontier(g: Graph, x: set<State>)
    requires WellFormed(g) && x <= g.states
    ensures Frontier(g, x, {}, x, x)
  {
    ReachableUnfold(g, x, {});
    assert {} + x == x && ImageSet(g, {}) == {};
  }

  lemma NextFrontier(g: Graph, x: set<State>, prev: set<State>, image: set<State>, reached: set<State>)
    requires WellFormed(g) && x <= g.states && Frontier(g, x, prev, image, reached)
    ensures Frontier(g, x, reached, ImageSet(g, image), reached + ImageSet(g, image))
  {
    ReachableUnfold(g, x, image);
    assert ImageSet(g, reached) == ImageSet(g, prev) + ImageSet(g, image);
  }

  /** The loop stops when the last image adds no pair.  A state of it that had
      not been reached is then one all of whose pairs are in the first diagram, so
      that its successors are entered by a first step. */
  lemma LastFrontier(c: Context, initial: Bdd, prev: set<State>, image: set<State>, reached: set<State>)
    requires ContextOk(c) && OverPairs(c, initial)
    requires Frontier(GraphOf(c), PairImage(GraphOf(c), Pairs(c, initial)), prev, image, reached)
    requires Or(initial, Lift(c, prev)) == Or(initial, Lift(c, reached))
    ensures reached == ReachableSet(GraphOf(c), PairImage(GraphOf(c), Pairs(c, initial)))
  {
    hide ReachableSet;
    var g := GraphOf(c);
    var x := PairImage(g, Pairs(c, initial));
    forall t | t in ImageSet(g, reached) ensures t in reached {
      var s :| s in reached && (s, t) in g.step;
      if s !in prev {
        var e := Place(c, s, t);
        assert e in Lift(c, reached) && e !in Lift(c, prev);
        assert (s, t) in Pairs(c, initial);
      }
    }
    ReachableLeast(g, x, reached);
    assert reached <= ReachableSet(g, x) <= reached;
  }

  /** The diagram that the loop ends with: the initial one, and all states reached by one step or more. */
  ghost function Closure(c: Context, initial: Bdd): Bdd
    requires ContextOk(c) && OverPairs(c, initial)
  {
    Or(initial, Lift(c, ReachableSet(GraphOf(c), PairImage(GraphOf(c), Pairs(c, initial)))))
  }

  /** Where the initial diagram is one of states, it denotes the states reachable from them. */
  lemma ClosureOfStates(c: Context, initial: Bdd)
    requires ContextOk(c) && OverUnprimed(c, initial)
    ensures OverPairs(c, initial) && Denotes(c, Closure(c, initial), ReachableSet(GraphOf(c), States(c, initial)))
  {
    hide ReachableSet, Lift, States, ImageSet, PairImage;
    var g, x := GraphOf(c), States(c, initial);
    StatesBounded(c, initial);
    ImageDenotes(c, initial);
    ReachableFromImage(g, x);
    LiftStates(c, ReachableSet(g, ImageSet(g, x)));
    OrDenotes(c, initial, Lift(c, ReachableSet(g, ImageSet(g, x))));
  }

  lemma ReachableFromImage(g: Graph, x: set<State>)
    requires WellFormed(g) && x <= g.states
    ensures ReachableSet(g, x) == x + ReachableSet(g, ImageSet(g, x))
    ensures ReachableSet(g, ImageSet(g, x)) <= g.states
  {
    hide ReachableSet;
    var y, all := ReachableSet(g, ImageSet(g, x)), ReachableSet(g, x);
    ReachableUnfold(g, x, {});
    ReachableUnfold(g, x, x);
    ReachableInGraph(g, x);
    ReachableInGraph(g, ImageSet(g, x));
    ReachableUnfold(g, x, all);
    ReachableLeast(g, ImageSet(g, x), all);
    ReachableUnfold(g, ImageSet(g, x), y);
    assert ImageSet(g, x + y) == ImageSet(g, x) + ImageSet(g, y);
    ReachableLeast(g, x, x + y);
  }

  lemma ReachableInGraph(g: Graph, x: set<State>)
    ensures ReachableSet(g, x) <= g.states
  {
  }

  lemma MoreAssignments(c: Context, f: Bdd, g: Bdd)
    requires f < g && g <= AllEnvs(c.width)
    ensures |f| < |g| <= |AllEnvs(c.width)|
  {
    SubsetSize(f, g);
    SubsetSize(g, AllEnvs(c.width));
  }

  lemma SubsetSize(f: Bdd, g: Bdd)
    requires f <= g
    ensures |f| <= |g| && (f != g ==> |f| < |g|)
  {
    assert g == f + (g - f);
    assert |g| == |f| + |g - f|;
  }

  /** One more image on top of what has been reached. */
  lemma Grown(c: Context, initial: Bdd, reached: set<State>, image: Bdd)
    requires PairingOk(c) && OverUnprimed(c, image)
    ensures Or(Or(initial, Lift(c, reached)), image) == Or(initial, Lift(c, reached + States(c, image)))
  {
    assert Lift(c, reached + States(c, image)) == Lift(c, reached) + Lift(c, States(c, image));
  }

  method Reach(initial: Bdd, c: Context) returns (reachable: Bdd)
    requires ContextOk(c) && OverPairs(c, initial)
    ensures reachable == Closure(c, initial)
    ensures OverUnprimed(c, initial) ==> Denotes(c, reachable, ReachableSet(GraphOf(c), States(c, initial)))
  {
    hide ReachableSet, Lift, States, GraphOf, ImageSet, PairImage, Frontier, Pairs, LiftPairs;
    ghost var g := GraphOf(c);
    ghost var x := PairImage(g, Pairs(c, initial));
    ghost var prev, reached := {}, x;
    EnteredStates(c, initial);
    FirstFrontier(g, x);
    NothingLifted(c, initial);
    var prevReachable := initial;
    var image := TranslatedImage(initial, c);
    Grown(c, initial, {}, image);
    reachable := Or(initial, image);
    while prevReachable != reachable
      invariant prevReachable == Or(initial, Lift(c, prev)) && reachable == Or(initial, Lift(c, reached))
      invariant image <= AllEnvs(c.width) && OverUnprimed(c, image) && Frontier(g, x, prev, States(c, image), reached)
      invariant prevReachable <= reachable <= AllEnvs(c.width)
      decreases |AllEnvs(c.width)| - |prevReachable|
    {
      MoreAssignments(c, prevReachable, reachable);
      NextFrontier(g, x, prev, States(c, image), reached);
      prevReachable := reachable;
      prev := reached;
      ImageDenotes(c, image);
      image := TranslatedImage(image, c);
      Grown(c, initial, reached, image);
      reachable := Or(reachable, image);
      reached := reached + States(c, image);
    }
    LastFrontier(c, initial, prev, States(c, image), reached);
    if OverUnprimed(c, initial) { ClosureOfStates(c, initial); }
  }

  lemma NothingLifted(c: Context, initial: Bdd)
    requires PairingOk(c)
    ensures Or(initial, Lift(c, {})) == initial
  {
    assert Lift(c, {}) == {};
  }

  lemma EnteredStates(c: Context, initial: Bdd)
    requires ContextOk(c) && OverPairs(c, initial)
    ensures PairImage(GraphOf(c), Pairs(c, initial)) <= GraphOf(c).states
    ensures forall x: set<State> :: {} + x == x
  {
  }

  // ----- From formulas to the transition graph -----

  /** The unprimed names that are true in a state. */
  ghost function UnprimedTrue(c: Context, vars: seq<AugVar>, s: State): set<string>
    requires |s| == |c.unprimed|
  {
    set v | v in vars && v.node in c.unprimed && s[IndexOf(c.unprimed, v.node)] == One :: v.name
  }

  /** The primed names that are true when the next state is t. */
  ghost function PrimedTrue(c: Context, vars: seq<AugVar>, t: State): set<string>
    requires |t| == |c.primed|
  {
    set v | v in vars && v.node in c.primed && t[IndexOf(c.primed, v.node)] == One :: v.name
  }

  /** A context whose arrays pair the variables of the table. */
  ghost predicate TablePaired(c: Context, vars: seq<AugVar>) {
    TableOk(c.width, vars) && Paired(vars) && Counterparts(vars, c.primed, c.unprimed)
  }

  lemma PairedOk(c: Context, vars: seq<AugVar>)
    requires TablePaired(c, vars)
    ensures PairingOk(c)
    ensures forall v :: v in vars ==> v.node < c.width && if v.primed then v.node in c.primed else v.node in c.unprimed
  {
    CounterpartsCover(c.width, vars, c.primed, c.unprimed);
  }

  lemma TrueNamesOfState(c: Context, vars: seq<AugVar>, e: Env)
    requires TablePaired(c, vars) && |e| == c.width
    ensures PairingOk(c)
    ensures TrueNames(vars, e) == UnprimedTrue(c, vars, StateOf(c, e)) + PrimedTrue(c, vars, NextOf(c, e))
  {
    PairedOk(c, vars);
  }

  /** The pairs of states in which a formula holds. */
  ghost function PairsHolding(c: Context, vars: seq<AugVar>, f: Formula): (r: set<(State, State)>)
    requires |c.primed| == |c.unprimed|
    ensures forall s, t :: (s, t) in r <==>
      |s| == |c.unprimed| == |t| && Holds(f, UnprimedTrue(c, vars, s) + PrimedTrue(c, vars, t))
  {
    set s, t | s in AllEnvs(|c.unprimed|) && t in AllEnvs(|c.unprimed|)
      && Holds(f, UnprimedTrue(c, vars, s) + PrimedTrue(c, vars, t)) :: (s, t)
  }

  /** The diagram of a formula decides by the paired variables, and its pairs
      are those in which the formula holds. */
  lemma PairMeaning(c: Context, vars: seq<AugVar>, f: Formula)
    requires TablePaired(c, vars)
    ensures PairingOk(c) && OverPairs(c, DiagramOf(c.width, vars, f))
    ensures Pairs(c, DiagramOf(c.width, vars, f)) == PairsHolding(c, vars, f)
  {
    hide TableOk, Counterparts, Holds, UnprimedTrue, PrimedTrue, TrueNames;
    PairedOk(c, vars);
    forall e | e in AllEnvs(c.width)
      ensures e in DiagramOf(c.width, vars, f) <==> (StateOf(c, e), NextOf(c, e)) in PairsHolding(c, vars, f)
    {
      TrueNamesOfState(c, vars, e);
    }
    assert DiagramOf(c.width, vars, f) == LiftPairs(c, PairsHolding(c, vars, f));
    PairsOfLift(c, PairsHolding(c, vars, f));
  }

  /** The steps of the graph are the pairs of states that satisfy the transition formula. */
  lemma TransitionMeaning(c: Context, vars: seq<AugVar>, f: Formula)
    requires TablePaired(c, vars) && c.transition == DiagramOf(c.width, vars, f)
    ensures ContextOk(c) && GraphOf(c).step == PairsHolding(c, vars, f)
  {
    PairMeaning(c, vars, f);
    assert Steps(c) == Pairs(c, c.transition);
  }

  ghost predicate StateNames(names: set<string>) {
    forall n :: n in names ==> !IsPrimed(n)
  }

  lemma PrimedTruePrimed(c: Context, vars: seq<AugVar>, t: State, n: string)
    requires TablePaired(c, vars) && |t| == |c.primed| && n in PrimedTrue(c, vars, t)
    ensures IsPrimed(n)
  {
    CounterpartsCover(c.width, vars, c.primed, c.unprimed);
  }

  lemma StateNamesDecide(c: Context, vars: seq<AugVar>, f: Formula, s: State, t: State)
    requires TablePaired(c, vars) && StateNames(FormulaNames(f)) && |s| == |c.unprimed| == |t| == |c.primed|
    ensures Holds(f, UnprimedTrue(c, vars, s) + PrimedTrue(c, vars, t)) <==> Holds(f, UnprimedTrue(c, vars, s))
  {
    forall n | n in PrimedTrue(c, vars, t) ensures n !in FormulaNames(f) {
      PrimedTruePrimed(c, vars, t, n);
    }
    HoldsDependsOnNames(f, UnprimedTrue(c, vars, s) + PrimedTrue(c, vars, t), UnprimedTrue(c, vars, s));
  }

  ghost function StatesHolding(c: Context, vars: seq<AugVar>, f: Formula): set<State> {
    set s | s in AllEnvs(|c.unprimed|) && Holds(f, UnprimedTrue(c, vars, s))
  }

  lemma StatePairs(c: Context, vars: seq<AugVar>, f: Formula)
    requires TablePaired(c, vars) && StateNames(FormulaNames(f))
    ensures PairsHolding(c, vars, f) == From(|c.unprimed|, StatesHolding(c, vars, f))
  {
    hide Holds, TablePaired, UnprimedTrue, PrimedTrue, FormulaNames, StateNames;
    SameLength(c, vars);
    forall s, t | |s| == |c.unprimed| == |t|
      ensures (s, t) in PairsHolding(c, vars, f) <==> s in StatesHolding(c, vars, f)
    {
      StateNamesDecide(c, vars, f, s, t);
    }
    assert forall p :: p in PairsHolding(c, vars, f) ==> (p.0, p.1) in PairsHolding(c, vars, f);
  }

  lemma SameLength(c: Context, vars: seq<AugVar>)
    requires TablePaired(c, vars)
    ensures |c.primed| == |c.unprimed|
  {
  }

  /** A formula over unprimed names denotes the states in which it holds. */
  lemma StateMeaning(c: Context, vars: seq<AugVar>, f: Formula)
    requires TablePaired(c, vars) && StateNames(FormulaNames(f))
    ensures PairingOk(c) && OverUnprimed(c, DiagramOf(c.width, vars, f))
    ensures States(c, DiagramOf(c.width, vars, f)) == StatesHolding(c, vars, f)
  {
    hide Holds, TablePaired, UnprimedTrue, DiagramOf, PairsHolding, StateNames, OverPairs;
    PairMeaning(c, vars, f);
    StatePairs(c, vars, f);
    PairsAsStates(c, DiagramOf(c.width, vars, f), StatesHolding(c, vars, f));
  }

  /** A formula without temporal operators. */
  predicate IsBoolean(f: Formula) {
    match f
    case Name(_) => true
    case Apply1(op, a) => op == NOT && IsBoolean(a)
    case Apply2(op, a, b) => op != EU && op != AU && IsBoolean(a) && IsBoolean(b)
  }

  /** The property language and the transition language give such a formula the same meaning. */
  lemma {:induction false} MeaningOfBoolean(c: Context, vars: seq<AugVar>, f: Formula)
    requires TablePaired(c, vars) && ModelOk(c, vars) && IsBoolean(f) && StateNames(FormulaNames(f))
    ensures Meaning(c, vars, f) == StatesHolding(c, vars, f)
  {
    hide TablePaired, UnprimedTrue, Labelling, IsPrimed;
    forall s | s in AllEnvs(|c.unprimed|) ensures s in Meaning(c, vars, f) <==> Holds(f, UnprimedTrue(c, vars, s)) {
      match f {
        case Name(n) => NameMeaning(c, vars, n, s);
        case Apply1(op, a) => MeaningOfBoolean(c, vars, a);
        case Apply2(op, a, b) => MeaningOfBoolean(c, vars, a); MeaningOfBoolean(c, vars, b);
      }
    }
    MeaningInGraph(c, vars, f);
  }

  lemma NameMeaning(c: Context, vars: seq<AugVar>, n: string, s: State)
    requires TablePaired(c, vars) && ModelOk(c, vars) && !IsPrimed(n) && |s| == |c.unprimed|
    ensures s in Meaning(c, vars, Name(n)) <==> n in UnprimedTrue(c, vars, s)
  {
    PairedOk(c, vars);
    hide TablePaired;
    if n in NamesOf(vars) {
      var v :| v in vars && v.name == n;
      OneOfName(vars, v);
    }
  }

  lemma OneOfName(vars: seq<AugVar>, v: AugVar)
    requires DistinctNames(vars) && v in vars
    ensures forall u :: u in vars && u.name == v.name ==> u == v
  {
  }

  lemma MeaningInGraph(c: Context, vars: seq<AugVar>, f: Formula)
    requires ModelOk(c, vars)
    ensures Meaning(c, vars, f) <= AllEnvs(|c.unprimed|)
  {
    SatInGraph(GraphOf(c), Labelling(c, vars), f);
  }

  // ----- The program -----

  datatype Verdict = Verdict(expectedMatches: bool, initialSatisfies: bool)

  datatype Model = Model(vars: seq<AugVar>, width: nat, initial: Bdd, transition: Bdd, expected: Bdd)

  ghost predicate Readable(text: string) {
    AllFit(Split(text)) && Parse(Boolean, Split(text)).Ok?
  }

  /** The formula of a readable text. */
  ghost function Read(text: string): Formula
    requires Readable(text)
  {
    Parse(Boolean, Split(text)).value
  }

  lemma NamesAreTokens(text: string)
    requires Readable(text)
    ensures FormulaNames(Read(text)) == NameTokens(Split(text))
  {
    ParseIffPostfix(Boolean, Split(text), Read(text));
    PostfixNames(Read(text));
  }

  lemma {:induction false} PostfixNames(f: Formula)
    requires InLanguage(Boolean, f)
    ensures FormulaNames(f) == NameTokens(Postfix(f))
  {
    match f
    case Name(n) => assert n in Postfix(f);
    case Apply1(op, a) =>
      PostfixNames(a);
      NameTokensConcat(Postfix(a), [Symbol1(op)]);
      NameTokenSingle(Symbol1(op));
    case Apply2(op, a, b) =>
      PostfixNames(a);
      PostfixNames(b);
      NameTokensConcat(Postfix(a) + Postfix(b), [Symbol2(op)]);
      NameTokensConcat(Postfix(a), Postfix(b));
      NameTokenSingle(Symbol2(op));
  }

  lemma NameTokensConcat(s: seq<string>, t: seq<string>)
    ensures NameTokens(s + t) == NameTokens(s) + NameTokens(t)
  {
  }

  lemma UniqCount(tokens: seq<string>, uniq: seq<string>)
    requires forall i, j :: 0 <= i < j < |uniq| ==> uniq[i] != uniq[j]
    requires (set t | t in uniq) == OperandTokens(tokens)
    ensures |OperandTokens(tokens)| == |uniq|
  {
    DistinctStrings(uniq);
  }

  lemma {:induction false} DistinctStrings(uniq: seq<string>)
    requires forall i, j :: 0 <= i < j < |uniq| ==> uniq[i] != uniq[j]
    ensures |set t | t in uniq| == |uniq|
  {
    if uniq == [] {
      assert (set t | t in uniq) == {};
    } else {
      var front, last := uniq[..|uniq| - 1], uniq[|uniq| - 1];
      DistinctStrings(front);
      assert uniq == front + [last];
      assert (set t | t in uniq) == (set t | t in front) + {last};
    }
  }

  /** What building the model from three readable texts gives. */
  ghost predicate ModelOf(m: Model, initForm: string, transForm: string, expectedForm: string) {
    && Readable(initForm) && Readable(transForm) && Readable(expectedForm)
    && TableOk(m.width, m.vars)
    && NamesOf(m.vars) == DeclaredNames(initForm, transForm)
    && m.initial == DiagramOf(m.width, m.vars, Read(initForm))
    && m.transition == DiagramOf(m.width, m.vars, Read(transForm))
    && m.expected == DiagramOf(m.width, m.vars, Read(expectedForm))
  }

  ghost function DeclaredNames(initForm: string, transForm: string): set<string> {
    NameTokens(Split(initForm)) + NameTokens(Split(transForm))
  }

  /** The variable array, which is not checked for its end, has room for the names that are read.
      Its size is counted on the tokens of the first two texts that are no operator of either language. */
  ghost predicate RoomFor(initForm: string, transForm: string, expectedForm: string) {
    AllFit(Split(initForm)) && AllFit(Split(transForm)) ==>
      RoomIn(|OperandTokens(Split(initForm))| + |OperandTokens(Split(transForm))|, initForm, transForm, expectedForm)
  }

  /** What cannot be read ends the program, so that nothing more is asked of the array. */
  ghost predicate RoomIn(room: nat, initForm: string, transForm: string, expectedForm: string) {
    var x, y, z := NamesRead(Split(initForm)), NamesRead(Split(transForm)), NamesRead(Split(expectedForm));
    && |x| <= room
    && (Readable(initForm) ==> |x + y| <= room && (Readable(transForm) && AllFit(Split(expectedForm)) ==> |x + y + z| <= room))
  }

  /** All names of a readable text are read. */
  lemma ReadNames(text: string)
    requires AllFit(Split(text)) && Parse(Boolean, Split(text)).Ok?
    ensures Readable(text) && NamesRead(Split(text)) == NameTokens(Split(text))
  {
    AllNamesRead([], Split(text));
  }

  /** The three texts can be read, and the expected states bring no new variable. */
  ghost predicate Buildable(initForm: string, transForm: string, expectedForm: string) {
    && Readable(initForm) && Readable(transForm) && Readable(expectedForm)
    && NameTokens(Split(expectedForm)) <= DeclaredNames(initForm, transForm)
  }

  /** Three evaluations share one table; the earlier diagrams keep their meaning. */
  method BuildModel(initForm: string, transForm: string, expectedForm: string) returns (r: Result<Model>)
    requires RoomFor(initForm, transForm, expectedForm)
    ensures r.Ok? <==> Buildable(initForm, transForm, expectedForm)
    ensures r.Ok? ==> ModelOf(r.value, initForm, transForm, expectedForm)
  {
    hide TableOk, DiagramOf, NameTokens, NamesRead, OperandTokens, Holds, NamesOf, StackHolds, DistinctNames, Parse, Split, AllFit, ReadFrom;
    var initTokens := Tokenize(initForm);
    if initTokens.Err? { return Err(initTokens.error); }
    var transTokens := Tokenize(transForm);
    if transTokens.Err? { return Err(transTokens.error); }
    var uniqInitVars := GetUniqVars(initTokens.value);
    var uniqTransVars := GetUniqVars(transTokens.value);
    UniqCount(Split(initForm), uniqInitVars);
    UniqCount(Split(transForm), uniqTransVars);
    var env := new Environment(|uniqInitVars| + |uniqTransVars|);
    NoNames();
    assert {} + NameTokens(Split(initForm)) == NameTokens(Split(initForm)) && {} + NamesRead(Split(initForm)) == NamesRead(Split(initForm));
    var initial := BddFromPrefix(initTokens.value, env);
    if initial.Err? { return Err(initial.error); }
    ReadNames(initForm);
    ghost var vars1 := env.seenVars;
    var transition := BddFromPrefix(transTokens.value, env);
    if transition.Err? { return Err(transition.error); }
    ReadNames(transForm);
    ghost var vars2 := env.seenVars;
    var expectedTokens := Tokenize(expectedForm);
    if expectedTokens.Err? { return Err(expectedTokens.error); }
    var known := |env.seenVars|;
    var expected := BddFromPrefix(expectedTokens.value, env);
    if expected.Err? { return Err(expected.error); }
    SameCountSameNames(env.width, vars2, env.seenVars, NameTokens(expectedTokens.value));
    if known != |env.seenVars| { return Err(NewVariable); }
    StackStable(env.width, vars1, env.seenVars, [initial.value], [Read(initForm)]);
    StackStable(env.width, vars2, env.seenVars, [transition.value], [Read(transForm)]);
    StackOfOne(env.width, env.seenVars, initial.value, Read(initForm));
    StackOfOne(env.width, env.seenVars, transition.value, Read(transForm));
    StackOfOne(env.width, env.seenVars, expected.value, Read(expectedForm));
    return Ok(Model(env.seenVars, env.width, initial.value, transition.value, expected.value));
  }

  /** The number of variables stays the same if and only if there are no new names. */
  lemma SameCountSameNames(w: nat, vars: seq<AugVar>, longer: seq<AugVar>, names: set<string>)
    requires vars <= longer && TableOk(w, longer) && NamesOf(longer) == NamesOf(vars) + names
    ensures |vars| == |longer| <==> names <= NamesOf(vars)
    ensures |vars| == |longer| ==> NamesOf(longer) == NamesOf(vars)
  {
    NamesCount(vars);
    NamesCount(longer);
    if |vars| == |longer| { assert vars == longer; }
    if NamesOf(longer) <= NamesOf(vars) { assert NamesOf(longer) == NamesOf(vars); }
  }

  lemma NoNames()
    ensures NamesOf([]) == {}
  {
  }

  lemma StackOfOne(w: nat, vars: seq<AugVar>, d: Bdd, f: Formula)
    requires StackHolds(w, vars, [d], [f])
    ensures d == DiagramOf(w, vars, f)
  {
    assert [d][0] == d && [f][0] == f;
  }

  /** Everything the program demands of its four texts to reach a verdict. */
  ghost predicate Accepted(vars: seq<AugVar>, propForm: string) {
    Paired(vars) && AllFit(Split(propForm)) && Parse(LanguageOf(vars), Split(propForm)).Ok?
  }

  /** The verdicts about formulas over both kinds of names: the initial pairs and
      those of states reached from them in one step or more are compared. */
  ghost predicate Correct(v: Verdict, c: Context, m: Model, initial: Formula, expected: Formula, property: Formula)
    requires ModelOk(c, m.vars)
  {
    var g, n := GraphOf(c), |c.unprimed|;
    var first := PairsHolding(c, m.vars, initial);
    var satisfying := From(n, Meaning(c, m.vars, property));
    && (v.initialSatisfies <==> first <= satisfying)
    && (v.expectedMatches <==>
         (first + From(n, ReachableSet(g, PairImage(g, first)))) * satisfying == PairsHolding(c, m.vars, expected))
  }

  /** The verdicts about formulas over unprimed names are about states. */
  ghost predicate CorrectForStates(v: Verdict, c: Context, m: Model, initial: Formula, expected: Formula, property: Formula)
    requires ModelOk(c, m.vars)
  {
    var sat := Meaning(c, m.vars, property);
    && (v.initialSatisfies <==> StatesHolding(c, m.vars, initial) <= sat)
    && (v.expectedMatches <==>
         ReachableSet(GraphOf(c), StatesHolding(c, m.vars, initial)) * sat == StatesHolding(c, m.vars, expected))
  }

  lemma FromOrder(n: nat, x: set<State>, y: set<State>)
    requires x <= AllEnvs(n)
    ensures From(n, x) <= From(n, y) <==> x <= y
  {
    if From(n, x) <= From(n, y) {
      forall s | s in x ensures s in y { assert (s, s) in From(n, x); }
    }
  }

  lemma FromAlgebra(n: nat, x: set<State>, y: set<State>, z: set<State>)
    ensures (From(n, x) + From(n, y)) * From(n, z) == From(n, (x + y) * z)
  {
  }

  lemma VerdictsAboutStates(v: Verdict, c: Context, m: Model, initial: Formula, expected: Formula, property: Formula)
    requires ModelOk(c, m.vars) && TablePaired(c, m.vars) && Correct(v, c, m, initial, expected, property)
    requires StateNames(FormulaNames(initial)) && StateNames(FormulaNames(expected))
    ensures CorrectForStates(v, c, m, initial, expected, property)
  {
    hide ReachableSet, Meaning, PairsHolding, StatesHolding, TablePaired, From, PairImage, ImageSet, StateNames, FormulaNames;
    var g, n, x, sat := GraphOf(c), |c.unprimed|, StatesHolding(c, m.vars, initial), Meaning(c, m.vars, property);
    StatePairs(c, m.vars, initial);
    StatePairs(c, m.vars, expected);
    HoldingInGraph(c, m.vars, initial);
    HoldingInGraph(c, m.vars, expected);
    FromOrder(n, x, sat);
    ImageOfStates(g, n, x);
    ReachableFromImage(g, x);
    ReachableInGraph(g, x);
    FromAlgebra(n, x, ReachableSet(g, ImageSet(g, x)), sat);
    FromOrder(n, ReachableSet(g, x) * sat, StatesHolding(c, m.vars, expected));
    FromOrder(n, StatesHolding(c, m.vars, expected), ReachableSet(g, x) * sat);
  }

  /** Some path to t starts in a state in which the formula holds. */
  ghost predicate OnPathFrom(c: Context, vars: seq<AugVar>, initial: Formula, t: State)
    requires ContextOk(c)
  {
    exists s: State, path ::
      |s| == |c.unprimed| && Holds(initial, UnprimedTrue(c, vars, s)) && FinitePath(GraphOf(c), s, path) && path[|path| - 1] == t
  }

  /** What the verdicts say state by state and path by path. */
  lemma VerdictsMean(v: Verdict, c: Context, m: Model, initial: Formula, expected: Formula, property: Formula)
    requires ModelOk(c, m.vars) && CorrectForStates(v, c, m, initial, expected, property)
    ensures v.initialSatisfies <==>
      forall s: State :: |s| == |c.unprimed| && Holds(initial, UnprimedTrue(c, m.vars, s)) ==> s in Meaning(c, m.vars, property)
    ensures v.expectedMatches <==>
      forall t: State :: |t| == |c.unprimed| ==>
        (Holds(expected, UnprimedTrue(c, m.vars, t)) <==> t in Meaning(c, m.vars, property) && OnPathFrom(c, m.vars, initial, t))
  {
    hide Meaning, Holds, UnprimedTrue, GraphOf, ReachableSet, OnPathFrom;
    var init, sat := StatesHolding(c, m.vars, initial), Meaning(c, m.vars, property);
    var reach, exp := ReachableSet(GraphOf(c), init), StatesHolding(c, m.vars, expected);
    forall t: State | |t| == |c.unprimed| ensures t in reach <==> OnPathFrom(c, m.vars, initial, t) {
      ReachedIs(c, m.vars, initial, t);
    }
    MeaningInGraph(c, m.vars, property);
    forall t: State | |t| == |c.unprimed| ensures t in exp <==> Holds(expected, UnprimedTrue(c, m.vars, t)) {
      assert t in AllEnvs(|c.unprimed|);
    }
    if v.expectedMatches {
      assert reach * sat == exp;
    } else {
      var t :| t in reach * sat <==> t !in exp;
      assert |t| == |c.unprimed|;
    }
  }

  lemma ReachedIs(c: Context, vars: seq<AugVar>, initial: Formula, t: State)
    requires ModelOk(c, vars) && |t| == |c.unprimed|
    ensures t in ReachableSet(GraphOf(c), StatesHolding(c, vars, initial)) <==> OnPathFrom(c, vars, initial, t)
  {
    hide Holds, UnprimedTrue, FinitePath;
    assert GraphOf(c).states == AllEnvs(|c.unprimed|);
  }

  lemma HoldingInGraph(c: Context, vars: seq<AugVar>, f: Formula)
    requires ContextOk(c)
    ensures StatesHolding(c, vars, f) <= AllEnvs(|c.unprimed|) && GraphOf(c).states == AllEnvs(|c.unprimed|)
  {
  }

  lemma ModelContextOk(c: Context, m: Model, transition: Formula)
    requires TablePaired(c, m.vars) && c.transition == DiagramOf(c.width, m.vars, transition)
    ensures ModelOk(c, m.vars)
  {
    TransitionMeaning(c, m.vars, transition);
    PairedOk(c, m.vars);
  }

  /** What comparing the diagrams says about the pairs of states they hold. */
  lemma Compare(c: Context, m: Model, satisfying: Bdd, initial: Formula, expected: Formula, property: Formula)
    requires ModelOk(c, m.vars) && TablePaired(c, m.vars) && c.width == m.width
    requires m.initial == DiagramOf(m.width, m.vars, initial) && m.expected == DiagramOf(m.width, m.vars, expected)
    requires OverPairs(c, m.initial) && Denotes(c, satisfying, Meaning(c, m.vars, property))
    ensures Correct(Verdict(And(satisfying, Closure(c, m.initial)) == m.expected, m.initial == And(m.initial, satisfying)), c, m, initial, expected, property)
  {
    hide DiagramOf, OverUnprimed, LiftPairs, TablePaired, ReachableSet, Meaning, PairImage, From, PairsHolding, States, Lift, Pairs, And, Or;
    var g, n := GraphOf(c), |c.unprimed|;
    var later := ReachableSet(g, PairImage(g, Pairs(c, m.initial)));
    PairMeaning(c, m.vars, initial);
    PairMeaning(c, m.vars, expected);
    StatesAsPairs(c, satisfying);
    ReachableInGraph(g, PairImage(g, Pairs(c, m.initial)));
    LiftStates(c, later);
    StatesAsPairs(c, Lift(c, later));
    OrPairs(c, m.initial, Lift(c, later));
    AndPairs(c, satisfying, Closure(c, m.initial));
    AndPairs(c, m.initial, satisfying);
    SamePairsSameDiagram(c, And(satisfying, Closure(c, m.initial)), m.expected);
    SamePairsSameDiagram(c, m.initial, And(m.initial, satisfying));
    SetLaws(Pairs(c, m.initial), Pairs(c, satisfying), Pairs(c, Closure(c, m.initial)));
  }

  lemma SetLaws(first: set<(State, State)>, satisfying: set<(State, State)>, closure: set<(State, State)>)
    ensures first == first * satisfying <==> first <= satisfying
    ensures satisfying * closure == closure * satisfying
  {
  }

  /** Pair the variables, find the reachable states, check, compare. */
  method Judge(m: Model, initForm: string, transForm: string, expectedForm: string, propForm: string)
    returns (r: Result<Verdict>, c: Context)
    requires ModelOf(m, initForm, transForm, expectedForm)
    ensures r.Ok? <==> Accepted(m.vars, propForm)
    ensures r.Ok? ==>
      && c.width == m.width && c.transition == m.transition && TablePaired(c, m.vars) && ModelOk(c, m.vars)
      && Correct(r.value, c, m, Read(initForm), Read(expectedForm), Parse(LanguageOf(m.vars), Split(propForm)).value)
  {
    hide TableOk, DiagramOf, Holds, ContextOk, StatesHolding, OverUnprimed, Paired, Counterparts, Correct, Denotes, Meaning, StateNames;
    c := Context(m.width, m.transition, [], []);
    var pairs := PairVariables(m.vars, m.width);
    if pairs.Err? { return Err(pairs.error), c; }
    c := Context(m.width, m.transition, pairs.value.0, pairs.value.1);
    ModelContextOk(c, m, Read(transForm));
    PairMeaning(c, m.vars, Read(initForm));
    var reachable := Reach(m.initial, c);
    var satisfying := Check(propForm, c, m.vars);
    if satisfying.Err? { return Err(satisfying.error), c; }
    Compare(c, m, satisfying.value, Read(initForm), Read(expectedForm), Parse(LanguageOf(m.vars), Split(propForm)).value);
    var alsoReachable := And(satisfying.value, reachable);
    var alsoInitial := And(m.initial, satisfying.value);
    return Ok(Verdict(alsoReachable == m.expected, m.initial == alsoInitial)), c;
  }

  /** Only unprimed names in the two texts: the verdicts are about states. */
  ghost predicate AboutStates(initForm: string, expectedForm: string) {
    StateNames(NameTokens(Split(initForm))) && StateNames(NameTokens(Split(expectedForm)))
  }

  lemma WithStateNames(v: Verdict, c: Context, m: Model, initForm: string, expectedForm: string, property: Formula)
    requires Readable(initForm) && Readable(expectedForm) && ModelOk(c, m.vars) && TablePaired(c, m.vars)
    requires Correct(v, c, m, Read(initForm), Read(expectedForm), property)
    ensures AboutStates(initForm, expectedForm) ==> CorrectForStates(v, c, m, Read(initForm), Read(expectedForm), property)
  {
    hide ModelOk, TablePaired, Correct, CorrectForStates, Readable, StateNames, FormulaNames, NameTokens, Split;
    NamesAreTokens(initForm);
    NamesAreTokens(expectedForm);
    if AboutStates(initForm, expectedForm) {
      VerdictsAboutStates(v, c, m, Read(initForm), Read(expectedForm), property);
    }
  }

  /** What the program's answer means. */
  ghost predicate Answers(v: Verdict, m: Model, c: Context, initForm: string, transForm: string, propForm: string, expectedForm: string)
    requires ModelOf(m, initForm, transForm, expectedForm) && Accepted(m.vars, propForm)
  {
    var property := Parse(LanguageOf(m.vars), Split(propForm)).value;
    && TablePaired(c, m.vars) && ModelOk(c, m.vars)
    && GraphOf(c).step == PairsHolding(c, m.vars, Read(transForm))
    && Correct(v, c, m, Read(initForm), Read(expectedForm), property)
    && (AboutStates(initForm, expectedForm) ==> CorrectForStates(v, c, m, Read(initForm), Read(expectedForm), property))
  }

  /** The program as a whole, on the texts of the initial states, the transition
      relation, the property and the expected states. */
  method Run(initForm: string, transForm: string, propForm: string, expectedForm: string)
    returns (r: Result<Verdict>, m: Model, c: Context)
    requires RoomFor(initForm, transForm, expectedForm)
    ensures Buildable(initForm, transForm, expectedForm) ==> ModelOf(m, initForm, transForm, expectedForm)
    ensures r.Ok? <==> Buildable(initForm, transForm, expectedForm) && Accepted(m.vars, propForm)
    ensures r.Ok? ==> Answers(r.value, m, c, initForm, transForm, propForm, expectedForm)
  {
    hide TableOk, DiagramOf, Holds, ContextOk, StatesHolding, OverUnprimed, Paired, Counterparts, Correct, CorrectForStates, PairsHolding, AboutStates, GraphOf, Buildable, Readable, RoomFor, Split, Parse, NamesOf, DeclaredNames;
    m, c := Model([], 0, {}, {}, {}), Context(0, {}, [], []);
    var built := BuildModel(initForm, transForm, expectedForm);
    if built.Err? { return Err(built.error), m, c; }
    m := built.value;
    r, c := Judge(m, initForm, transForm, expectedForm, propForm);
    if r.Err? { return; }
    TransitionMeaning(c, m.vars, Read(transForm));
    WithStateNames(r.value, c, m, initForm, expectedForm, Parse(LanguageOf(m.vars), Split(propForm)).value);
  }
}

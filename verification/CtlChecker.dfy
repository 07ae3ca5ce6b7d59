/** Evaluation of a CTL formula, given as text in postfix notation, over a
    symbolic model. */
module CtlChecker {
  import opened BoolFunctions
  import opened CtlSemantics
  import opened SymbolicModel
  import Op = CtlOperators
  import opened DdStacks
  import opened Formulas
  import opened Outcomes
  import opened Tokenisation
  import opened Variables

  // ----- Denotation of formulas -----

  /** The states of g in which a formula holds, given the states in which each name holds. */
  ghost function Sat(g: Graph, labels: map<string, set<State>>, f: Formula): set<State> {
    match f
    case Name(n) => if n in labels then labels[n] else {}
    case Apply1(op, a) => Denote1(g, op, Sat(g, labels, a))
    case Apply2(op, a, b) => Denote2(g, op, Sat(g, labels, a), Sat(g, labels, b))
  }

  ghost function Denote1(g: Graph, op: Unary, x: set<State>): set<State> {
    match op
    case NOT => g.states - x
    case EX => EXSet(g, x)
    case AX => AXSet(g, x)
    case EF => EFSet(g, x)
    case AF => AFSet(g, x)
    case EG => EGSet(g, x)
    case AG => AGSet(g, x)
  }

  ghost function Denote2(g: Graph, op: Binary, x: set<State>, y: set<State>): set<State> {
    match op
    case OR => x + y
    case AND => x * y
    case XOR => (x - y) + (y - x)
    case IFF => g.states - ((x - y) + (y - x))
    case EU => EUSet(g, x, y)
    case AU => AUSet(g, x, y)
  }

  /** A temporal formula with one operand holds where the paths say so. */
  lemma SatisfiedUnary(g: Graph, labels: map<string, set<State>>, a: Formula, s: State)
    requires s in g.states
    ensures var x := Sat(g, labels, a);
      && (s in Sat(g, labels, Apply1(NOT, a)) <==> s !in x)
      && (s in Sat(g, labels, Apply1(EX, a)) <==> exists t :: (s, t) in g.step && t in x)
      && (s in Sat(g, labels, Apply1(AX, a)) <==> forall t :: (s, t) in g.step ==> t in x)
      && (s in Sat(g, labels, Apply1(EF, a)) <==> exists path :: FinitePath(g, s, path) && path[|path| - 1] in x)
      && (s in Sat(g, labels, Apply1(AG, a)) <==> forall path :: FinitePath(g, s, path) ==> path[|path| - 1] in x)
      && (s in Sat(g, labels, Apply1(EG, a)) <==>
            exists path: nat -> State :: InfinitePath(g, s, path) && forall i: nat :: path(i) in x)
      && (s in Sat(g, labels, Apply1(AF, a)) <==>
            forall path: nat -> State :: InfinitePath(g, s, path) ==> exists i: nat :: path(i) in x)
  {
  }

  /** So does one with two operands. */
  lemma SatisfiedBinary(g: Graph, labels: map<string, set<State>>, a: Formula, b: Formula, s: State)
    requires s in g.states
    ensures var x, y := Sat(g, labels, a), Sat(g, labels, b);
      && (s in Sat(g, labels, Apply2(OR, a, b)) <==> s in x || s in y)
      && (s in Sat(g, labels, Apply2(AND, a, b)) <==> s in x && s in y)
      && (s in Sat(g, labels, Apply2(XOR, a, b)) <==> (s in x <==> s !in y))
      && (s in Sat(g, labels, Apply2(IFF, a, b)) <==> (s in x <==> s in y))
      && (s in Sat(g, labels, Apply2(EU, a, b)) <==>
            exists path :: FinitePath(g, s, path) && path[|path| - 1] in y && forall i :: 0 <= i < |path| - 1 ==> path[i] in x)
      && (s in Sat(g, labels, Apply2(AU, a, b)) <==>
            && (forall path :: FinitePath(g, s, path) && Deadlocked(g, path[|path| - 1]) ==>
                  || (exists k :: 0 <= k < |path| && path[k] in y && forall i :: 0 <= i < k ==> path[i] in x)
                  || forall i :: 0 <= i < |path| ==> path[i] in x)
            && forall path: nat -> State :: InfinitePath(g, s, path) ==>
                 exists k: nat :: path(k) in y && forall i: nat :: i < k ==> path(i) in x)
  {
  }

  lemma {:induction false} SatInGraph(g: Graph, labels: map<string, set<State>>, f: Formula)
    requires forall n :: n in labels ==> labels[n] <= g.states
    ensures Sat(g, labels, f) <= g.states
  {
    match f
    case Name(n) =>
    case Apply1(op, a) => SatInGraph(g, labels, a);
    case Apply2(op, a, b) => SatInGraph(g, labels, a); SatInGraph(g, labels, b);
  }

  // ----- The model -----

  /** The checker's context together with the table of declared variables. */
  ghost predicate ModelOk(c: Context, vars: seq<AugVar>) {
    && ContextOk(c) && DistinctNames(vars)
    && forall v :: v in vars ==> v.primed == IsPrimed(v.name) && (!v.primed ==> v.node in c.unprimed)
  }

  /** The states in which the unprimed variable of the given name is true. */
  ghost function Labelling(c: Context, vars: seq<AugVar>): map<string, set<State>>
    requires ModelOk(c, vars)
  {
    map n | n in NamesOf(vars) && !IsPrimed(n) :: VariableStates(c, vars, n)
  }

  ghost function VariableStates(c: Context, vars: seq<AugVar>, n: string): set<State>
    requires ModelOk(c, vars) && n in NamesOf(vars) && !IsPrimed(n)
  {
    var v :| v in vars && v.name == n;
    set s | s in AllEnvs(|c.unprimed|) && s[IndexOf(c.unprimed, v.node)] == One
  }

  lemma VariableDenotes(c: Context, vars: seq<AugVar>, v: AugVar)
    requires ModelOk(c, vars) && v in vars && !v.primed
    ensures v.node < c.width && OverUnprimed(c, Var(c.width, v.node))
    ensures v.name in Labelling(c, vars) && States(c, Var(c.width, v.node)) == Labelling(c, vars)[v.name]
  {
    var x := VariableStates(c, vars, v.name);
    assert Var(c.width, v.node) == Lift(c, x);
    LiftStates(c, x);
  }

  // ----- The evaluator -----

  ghost predicate Denotes(c: Context, f: Bdd, x: set<State>)
    requires ContextOk(c)
  {
    OverUnprimed(c, f) && States(c, f) == x
  }

  /** Every diagram on the stack denotes the formula at the same height. */
  ghost predicate StackDenotes(c: Context, vars: seq<AugVar>, diagrams: seq<Bdd>, formulas: seq<Formula>)
    requires ModelOk(c, vars)
  {
    |diagrams| == |formulas|
    && forall i :: 0 <= i < |formulas| ==> Denotes(c, diagrams[i], Sat(GraphOf(c), Labelling(c, vars), formulas[i]))
  }

  method Unary(op: Formulas.Unary, a: Bdd, c: Context) returns (r: Bdd)
    requires ContextOk(c) && OverUnprimed(c, a)
    ensures Denotes(c, r, Denote1(GraphOf(c), op, States(c, a)))
  {
    ghost var calls: nat;
    match op
    case NOT => NotDenotes(c, a); r := Not(c.width, a);
    case EX => r := Op.EX(a, c);
    case AX => r := Op.AX(a, c);
    case EF => r, calls := Op.EF(a, c);
    case AF => r, calls := Op.AF(a, c);
    case EG => r, calls := Op.EG(a, c);
    case AG => r, calls := Op.AG(a, c);
  }

  /** a is popped first, so it is the right operand. */
  method Binary(op: Formulas.Binary, a: Bdd, b: Bdd, c: Context) returns (r: Bdd)
    requires ContextOk(c) && OverUnprimed(c, a) && OverUnprimed(c, b)
    ensures Denotes(c, r, Denote2(GraphOf(c), op, States(c, b), States(c, a)))
  {
    ghost var calls: nat;
    match op
    case OR => OrDenotes(c, a, b); r := Or(a, b);
    case AND => AndDenotes(c, a, b); r := And(a, b);
    case XOR => XorDenotes(c, a, b); r := Xor(a, b);
    case IFF => XorDenotes(c, a, b); NotDenotes(c, Xor(a, b)); r := Not(c.width, Xor(a, b));
    case EU => r, calls := Op.EU(b, a, c);
    case AU => r, calls := Op.AU(b, a, c);
  }

  ghost function Meaning(c: Context, vars: seq<AugVar>, f: Formula): set<State>
    requires ModelOk(c, vars)
  {
    Sat(GraphOf(c), Labelling(c, vars), f)
  }

  lemma PushDenotes(c: Context, vars: seq<AugVar>, diagrams: seq<Bdd>, formulas: seq<Formula>, r: Bdd, f: Formula)
    requires ModelOk(c, vars) && StackDenotes(c, vars, diagrams, formulas) && Denotes(c, r, Meaning(c, vars, f))
    ensures StackDenotes(c, vars, diagrams + [r], formulas + [f])
  {
  }

  lemma PopDenotes(c: Context, vars: seq<AugVar>, diagrams: seq<Bdd>, formulas: seq<Formula>, n: nat)
    requires ModelOk(c, vars) && StackDenotes(c, vars, diagrams, formulas) && n <= |formulas|
    ensures StackDenotes(c, vars, diagrams[..n], formulas[..n])
    ensures forall i :: n <= i < |formulas| ==> Denotes(c, diagrams[i], Meaning(c, vars, formulas[i]))
  {
  }

  ghost function LanguageOf(vars: seq<AugVar>): Language {
    Temporal(NamesOf(vars))
  }

  /** The diagrams left on the stack and the one to be pushed denote the
      formulas that reading the token leaves. */
  ghost predicate EvaluatedTo(c: Context, vars: seq<AugVar>, token: string, formulas: seq<Formula>, left: seq<Bdd>, r: Result<Bdd>)
    requires ModelOk(c, vars) && token != ""
  {
    match ReadToken(LanguageOf(vars), formulas, token)
    case Err(e) => r == Err(e)
    case Ok(next) => r.Ok? && StackDenotes(c, vars, left + [r.value], next)
  }

  /** The diagram of an operator applied to operands popped from the stack. */
  method EvaluateBinary(op: Formulas.Binary, stack: DdStack, c: Context, vars: seq<AugVar>, ghost formulas: seq<Formula>)
    returns (r: Result<Bdd>)
    requires ModelOk(c, vars) && stack.Valid() && StackDenotes(c, vars, stack.Contents(), formulas)
    modifies stack
    ensures stack.Valid() && stack.top <= old(stack.top)
    ensures var n := |formulas|;
      if n < 2 then r == Err(Underflow)
      else r.Ok? && StackDenotes(c, vars, stack.Contents() + [r.value], formulas[..n - 2] + [Apply2(op, formulas[n - 2], formulas[n - 1])])
  {
    hide ContextOk, OverUnprimed, Labelling, Denote2;
    ghost var n, before := |formulas|, stack.Contents();
    var a := stack.Pop();
    if a.None? { return Err(Underflow); }
    var b := stack.Pop();
    if b.None? { return Err(Underflow); }
    PopDenotes(c, vars, before, formulas, n - 2);
    var node := Binary(op, a.value, b.value, c);
    PushDenotes(c, vars, before[..n - 2], formulas[..n - 2], node, Apply2(op, formulas[n - 2], formulas[n - 1]));
    assert stack.Contents() == before[..n - 2];
    return Ok(node);
  }

  method EvaluateUnary(op: Formulas.Unary, stack: DdStack, c: Context, vars: seq<AugVar>, ghost formulas: seq<Formula>)
    returns (r: Result<Bdd>)
    requires ModelOk(c, vars) && stack.Valid() && StackDenotes(c, vars, stack.Contents(), formulas)
    modifies stack
    ensures stack.Valid() && stack.top <= old(stack.top)
    ensures var n := |formulas|;
      if n < 1 then r == Err(Underflow)
      else r.Ok? && StackDenotes(c, vars, stack.Contents() + [r.value], formulas[..n - 1] + [Apply1(op, formulas[n - 1])])
  {
    hide ContextOk, OverUnprimed, Labelling, Denote1;
    ghost var n, before := |formulas|, stack.Contents();
    var a := stack.Pop();
    if a.None? { return Err(Underflow); }
    PopDenotes(c, vars, before, formulas, n - 1);
    var node := Unary(op, a.value, c);
    PushDenotes(c, vars, before[..n - 1], formulas[..n - 1], node, Apply1(op, formulas[n - 1]));
    assert stack.Contents() == before[..n - 1];
    return Ok(node);
  }

  /** One token: pop its operands, compute the diagram to be pushed. */
  method Evaluate(token: string, stack: DdStack, c: Context, vars: seq<AugVar>, ghost formulas: seq<Formula>)
    returns (r: Result<Bdd>)
    requires ModelOk(c, vars) && token != "" && stack.Valid()
    requires StackDenotes(c, vars, stack.Contents(), formulas)
    modifies stack
    ensures stack.Valid() && stack.top <= old(stack.top)
    ensures EvaluatedTo(c, vars, token, formulas, stack.Contents(), r)
  {
    hide ContextOk, OverUnprimed, StackDenotes, Sat;
    if token[|token| - 1] == '\'' { return Err(PrimedVariable); }
    match Classify(Temporal(NamesOf(vars)), token) {
      case BinaryToken(op) =>
        r := EvaluateBinary(op, stack, c, vars, formulas);
      case UnaryToken(op) =>
        r := EvaluateUnary(op, stack, c, vars, formulas);
      case NameToken =>
        var v := Find(token, vars);
        if v.None? { return Err(UndeclaredVariable); }
        r := EvaluateName(v.value, stack, c, vars, formulas);
    }
  }

  method EvaluateName(v: AugVar, stack: DdStack, c: Context, vars: seq<AugVar>, ghost formulas: seq<Formula>)
    returns (r: Result<Bdd>)
    requires ModelOk(c, vars) && v in vars && !v.primed && stack.Valid()
    requires StackDenotes(c, vars, stack.Contents(), formulas)
    ensures r.Ok? && StackDenotes(c, vars, stack.Contents() + [r.value], formulas + [Name(v.name)])
  {
    VariableDenotes(c, vars, v);
    var node := Var(c.width, v.node);
    PushDenotes(c, vars, stack.Contents(), formulas, node, Name(v.name));
    return Ok(node);
  }

  lemma ReadOne(l: Language, formulas: seq<Formula>, tokens: seq<string>, i: nat)
    requires NonEmptyTokens(tokens) && i < |tokens|
    ensures ReadFrom(l, formulas, tokens[i..]) ==
      match ReadToken(l, formulas, tokens[i]) case Err(e) => Err(e) case Ok(next) => ReadFrom(l, next, tokens[i + 1..])
  {
    assert tokens[i..][0] == tokens[i] && tokens[i..][1..] == tokens[i + 1..];
  }

  lemma ReadAll(l: Language, formulas: seq<Formula>, tokens: seq<string>)
    requires NonEmptyTokens(tokens) && ReadFrom(l, [], tokens) == ReadFrom(l, formulas, [])
    ensures Parse(l, tokens) == if |formulas| == 1 then Ok(formulas[0]) else Err(Malformed)
  {
  }

  lemma OneDenotes(c: Context, vars: seq<AugVar>, diagrams: seq<Bdd>, formulas: seq<Formula>)
    requires ModelOk(c, vars) && StackDenotes(c, vars, diagrams, formulas)
    ensures |diagrams| == |formulas| && (|formulas| == 1 ==> Denotes(c, diagrams[0], Meaning(c, vars, formulas[0])))
  {
  }

  method CheckTokens(tokens: seq<string>, c: Context, vars: seq<AugVar>) returns (r: Result<Bdd>)
    requires ModelOk(c, vars) && NonEmptyTokens(tokens)
    ensures match Parse(LanguageOf(vars), tokens)
      case Err(e) => r == Err(e)
      case Ok(f) => r.Ok? && Denotes(c, r.value, Meaning(c, vars, f))
  {
    hide OverUnprimed, Labelling, ReadToken, ReadFrom, StackDenotes, Denotes, LanguageOf, Meaning, Sat;
    ghost var formulas: seq<Formula> := [];
    var stack := new DdStack(|tokens|);
    var recentNode: Bdd := {};
    assert tokens[0..] == tokens;
    NothingDenotes(c, vars);
    for i := 0 to |tokens|
      invariant stack.Valid() && fresh(stack) && fresh(stack.slots) && stack.slots.Length == |tokens|
      invariant stack.top <= i && (i > 0 ==> stack.top > 0 && recentNode == stack.Contents()[stack.top - 1])
      invariant ReadFrom(LanguageOf(vars), formulas, tokens[i..]) == ReadFrom(LanguageOf(vars), [], tokens)
      invariant StackDenotes(c, vars, stack.Contents(), formulas)
    {
      ReadOne(LanguageOf(vars), formulas, tokens, i);
      var node := Evaluate(tokens[i], stack, c, vars, formulas);
      if node.Err? { return Err(node.error); }
      recentNode := node.value;
      formulas := ReadToken(LanguageOf(vars), formulas, tokens[i]).value;
      var pushed := stack.Push(recentNode);
    }
    assert tokens[|tokens|..] == [];
    ReadAll(LanguageOf(vars), formulas, tokens);
    OneDenotes(c, vars, stack.Contents(), formulas);
    if stack.top != 1 { return Err(Malformed); }
    return Ok(recentNode);
  }

  lemma NothingDenotes(c: Context, vars: seq<AugVar>)
    requires ModelOk(c, vars)
    ensures StackDenotes(c, vars, [], [])
  {
  }

  /** The checker on the text of a formula. */
  method Check(propForm: string, c: Context, vars: seq<AugVar>) returns (r: Result<Bdd>)
    requires ModelOk(c, vars)
    ensures if !AllFit(Split(propForm)) then r == Err(TooLongSymbol) else
      match Parse(LanguageOf(vars), Split(propForm))
      case Err(e) => r == Err(e)
      case Ok(f) => r.Ok? && Denotes(c, r.value, Meaning(c, vars, f))
  {
    var tokens := Tokenize(propForm);
    if tokens.Err? { return Err(tokens.error); }
    r := CheckTokens(tokens.value, c, vars);
  }

  /** Names that survive tokenisation: short and without a space. */
  ghost predicate Printable(f: Formula) {
    match f
    case Name(n) => ProperToken(n) && |n| < MAX_VAR_LEN
    case Apply1(op, a) => Printable(a)
    case Apply2(op, a, b) => Printable(a) && Printable(b)
  }

  /** Postfix notation with any spacing reads back as the formula it prints. */
  lemma PrintedFormulaReadsBack(vars: seq<AugVar>, f: Formula, lead: nat, gaps: seq<nat>)
    requires InLanguage(LanguageOf(vars), f) && Printable(f)
    requires |gaps| == |Postfix(f)| && forall i :: 0 <= i < |gaps| - 1 ==> gaps[i] > 0
    ensures var text := Spaces(lead) + Render(Postfix(f), gaps);
      AllFit(Split(text)) && Parse(LanguageOf(vars), Split(text)) == Ok(f)
  {
    PrintableTokens(f);
    SplitRender(Postfix(f), lead, gaps);
    ParseIffPostfix(LanguageOf(vars), Postfix(f), f);
  }

  lemma SymbolsProper(op1: Formulas.Unary, op2: Formulas.Binary)
    ensures ProperToken(Symbol1(op1)) && |Symbol1(op1)| < MAX_VAR_LEN
    ensures ProperToken(Symbol2(op2)) && |Symbol2(op2)| < MAX_VAR_LEN
  {
  }

  lemma {:induction false} PrintableTokens(f: Formula)
    requires Printable(f)
    ensures forall t :: t in Postfix(f) ==> ProperToken(t) && |t| < MAX_VAR_LEN
  {
    match f
    case Name(n) =>
    case Apply1(op, a) => PrintableTokens(a); SymbolsProper(op, OR);
    case Apply2(op, a, b) => PrintableTokens(a); PrintableTokens(b); SymbolsProper(NOT, op);
  }
}

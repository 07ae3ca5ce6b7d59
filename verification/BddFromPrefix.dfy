/** Building the diagrams of boolean formulas over a growing table of variables. */
module BddFromPrefixes {
  import opened BoolFunctions
  import opened DdStacks
  import opened Formulas
  import opened Outcomes
  import opened Variables

  // ----- What a boolean formula means -----

  /** Truth of a formula when exactly the given names are true. */
  predicate Holds(f: Formula, names: set<string>) {
    match f
    case Name(n) => n in names
    case Apply1(op, a) => op == NOT && !Holds(a, names)
    case Apply2(op, a, b) =>
      match op
      case OR => Holds(a, names) || Holds(b, names)
      case AND => Holds(a, names) && Holds(b, names)
      case XOR => Holds(a, names) != Holds(b, names)
      case IFF => Holds(a, names) == Holds(b, names)
      case _ => false
  }

  function FormulaNames(f: Formula): set<string> {
    match f
    case Name(n) => {n}
    case Apply1(op, a) => FormulaNames(a)
    case Apply2(op, a, b) => FormulaNames(a) + FormulaNames(b)
  }

  /** What the operators say of truth values. */
  lemma HoldsIs(x: set<string>, n: string, a: Formula, b: Formula)
    ensures Holds(Name(n), x) <==> n in x
    ensures Holds(Apply1(NOT, a), x) <==> !Holds(a, x)
    ensures Holds(Apply2(OR, a, b), x) <==> Holds(a, x) || Holds(b, x)
    ensures Holds(Apply2(AND, a, b), x) <==> Holds(a, x) && Holds(b, x)
    ensures Holds(Apply2(XOR, a, b), x) <==> (Holds(a, x) <==> !Holds(b, x))
    ensures Holds(Apply2(IFF, a, b), x) <==> (Holds(a, x) <==> Holds(b, x))
  {
  }

  /** The variables an assignment makes true. */
  ghost function TrueNames(vars: seq<AugVar>, e: Env): set<string> {
    set v | v in vars && v.node < |e| && e[v.node] == One :: v.name
  }

  /** Assignments under which the formula holds. */
  ghost function DiagramOf(w: nat, vars: seq<AugVar>, f: Formula): Bdd {
    set e | e in AllEnvs(w) && Holds(f, TrueNames(vars, e))
  }

  // ----- The table -----

  /** Pairwise distinct names, each with a node of its own. */
  ghost predicate TableOk(w: nat, vars: seq<AugVar>) {
    && |vars| <= w && DistinctNames(vars)
    && forall i :: 0 <= i < |vars| ==> vars[i].node == i && vars[i].primed == IsPrimed(vars[i].name)
  }

  lemma {:induction false} NamesCount(vars: seq<AugVar>)
    requires DistinctNames(vars)
    ensures |NamesOf(vars)| == |vars|
  {
    if vars == [] {
      assert NamesOf(vars) == {};
    } else {
      var front, last := vars[..|vars| - 1], vars[|vars| - 1];
      NamesCount(front);
      assert NamesOf(vars) == NamesOf(front) + {last.name};
      assert last.name !in NamesOf(front);
    }
  }

  /** Room for one more name when the names to come fit as well. */
  lemma RoomForName(w: nat, vars: seq<AugVar>, n: string, all: set<string>)
    requires TableOk(w, vars) && n !in NamesOf(vars) && NamesOf(vars) + {n} <= all && |all| <= w
    ensures |vars| < w
  {
    NamesCount(vars);
    var rest := all - (NamesOf(vars) + {n});
    assert all == (NamesOf(vars) + {n}) + rest;
    assert |all| == |NamesOf(vars) + {n}| + |rest|;
  }

  lemma AddedVariable(w: nat, vars: seq<AugVar>, v: AugVar)
    requires TableOk(w, vars) && |vars| < w && v.name !in NamesOf(vars)
    requires v.node == |vars| && v.primed == IsPrimed(v.name)
    ensures TableOk(w, vars + [v]) && NamesOf(vars + [v]) == NamesOf(vars) + {v.name}
  {
    forall i | 0 <= i < |vars| ensures vars[i].name != v.name {
      assert vars[i] in vars;
    }
    forall x | x in NamesOf(vars) + {v.name} ensures x in NamesOf(vars + [v]) {
      if x == v.name { assert (vars + [v])[|vars|] == v; }
      else { var u :| u in vars && u.name == x; assert u in vars + [v]; }
    }
  }

  /** Earlier diagrams keep their meaning when the table grows. */
  lemma {:induction false} MeaningStable(w: nat, vars: seq<AugVar>, more: seq<AugVar>, f: Formula)
    requires TableOk(w, vars + more) && FormulaNames(f) <= NamesOf(vars)
    ensures DiagramOf(w, vars + more, f) == DiagramOf(w, vars, f)
  {
    forall e ensures Holds(f, TrueNames(vars + more, e)) <==> Holds(f, TrueNames(vars, e)) {
      forall n | n in NamesOf(vars) ensures n in TrueNames(vars + more, e) <==> n in TrueNames(vars, e) {
        SameNode(w, vars, more, e, n);
      }
      HoldsDependsOnNames(f, TrueNames(vars + more, e), TrueNames(vars, e));
    }
  }

  lemma SameNode(w: nat, vars: seq<AugVar>, more: seq<AugVar>, e: Env, n: string)
    requires TableOk(w, vars + more) && n in NamesOf(vars)
    ensures n in TrueNames(vars + more, e) <==> n in TrueNames(vars, e)
  {
    var all := vars + more;
    forall v | v in all && v.name == n ensures v in vars {
      var i :| 0 <= i < |all| && all[i] == v;
      var u :| u in vars && u.name == n;
      var j :| 0 <= j < |vars| && vars[j] == u;
      assert all[j] == u;
      assert all[i].name == all[j].name;
      assert i == j;
    }
  }

  lemma {:induction false} HoldsDependsOnNames(f: Formula, x: set<string>, y: set<string>)
    requires forall n :: n in FormulaNames(f) ==> (n in x <==> n in y)
    ensures Holds(f, x) <==> Holds(f, y)
  {
    match f
    case Name(n) =>
    case Apply1(op, a) => HoldsDependsOnNames(a, x, y);
    case Apply2(op, a, b) => HoldsDependsOnNames(a, x, y); HoldsDependsOnNames(b, x, y);
  }

  // ----- The evaluator -----

  ghost function NameTokens(tokens: seq<string>): set<string> {
    set t | t in tokens && Classify(Boolean, t) == NameToken
  }

  /** The names read before the text ends, or turns out not to be a formula. */
  ghost function NamesReadFrom(formulas: seq<Formula>, tokens: seq<string>): set<string>
    requires NonEmptyTokens(tokens)
    decreases |tokens|
  {
    if tokens == [] then {} else
      match ReadToken(Boolean, formulas, tokens[0])
      case Err(_) => NameTokens([tokens[0]])
      case Ok(next) => NameTokens([tokens[0]]) + NamesReadFrom(next, tokens[1..])
  }

  ghost function NamesRead(tokens: seq<string>): set<string>
    requires NonEmptyTokens(tokens)
  {
    NamesReadFrom([], tokens)
  }

  lemma {:induction false} AllNamesRead(formulas: seq<Formula>, tokens: seq<string>)
    requires NonEmptyTokens(tokens)
    ensures NamesReadFrom(formulas, tokens) <= NameTokens(tokens)
    ensures ReadFrom(Boolean, formulas, tokens).Ok? ==> NamesReadFrom(formulas, tokens) == NameTokens(tokens)
    decreases |tokens|
  {
    if tokens != [] {
      assert tokens == [tokens[0]] + tokens[1..];
      if ReadToken(Boolean, formulas, tokens[0]).Ok? { AllNamesRead(ReadToken(Boolean, formulas, tokens[0]).value, tokens[1..]); }
    }
  }

  ghost predicate StackHolds(w: nat, vars: seq<AugVar>, diagrams: seq<Bdd>, formulas: seq<Formula>) {
    |diagrams| == |formulas|
    && forall i :: 0 <= i < |formulas| ==>
         FormulaNames(formulas[i]) <= NamesOf(vars) && diagrams[i] == DiagramOf(w, vars, formulas[i])
  }

  class Environment {
    /** How many variables the table has room for; assignments are this wide. */
    const width: nat
    var seenVars: seq<AugVar>

    ghost predicate Valid()
      reads this
    {
      TableOk(width, seenVars)
    }

    constructor (capacity: nat)
      ensures Valid() && seenVars == [] && width == capacity
    {
      width := capacity;
      seenVars := [];
    }

    /** The node of a name, which is entered in the table when it is new. */
    method Node(name: string, ghost all: set<string>) returns (node: nat)
      requires Valid() && NamesOf(seenVars) + {name} <= all && |all| <= width
      modifies this
      ensures Valid() && old(seenVars) <= seenVars && NamesOf(seenVars) == old(NamesOf(seenVars)) + {name}
      ensures node < |seenVars| <= width && seenVars[node].name == name
    {
      for j := 0 to |seenVars|
        invariant seenVars == old(seenVars)
        invariant forall i :: 0 <= i < j ==> seenVars[i].name != name
      {
        if seenVars[j].name == name {
          assert seenVars[j] in seenVars;
          return seenVars[j].node;
        }
      }
      RoomForName(width, seenVars, name, all);
      var v := AugVar(IsPrimed(name), name, |seenVars|);
      AddedVariable(width, seenVars, v);
      seenVars := seenVars + [v];
      return v.node;
    }
  }

  method Combine(op: Binary, a: Bdd, b: Bdd, w: nat) returns (r: Bdd)
    requires Reads2(Boolean, op)
    ensures r == match op
      case OR => a + b case AND => a * b case XOR => Xor(a, b) case _ => AllEnvs(w) - Xor(a, b)
  {
    match op
    case OR => r := Or(a, b);
    case AND => r := And(a, b);
    case XOR => r := Xor(a, b);
    case _ => r := Not(w, Xor(a, b));
  }

  lemma CombineHolds(op: Binary, w: nat, vars: seq<AugVar>, f: Formula, g: Formula)
    requires Reads2(Boolean, op)
    ensures var a, b := DiagramOf(w, vars, f), DiagramOf(w, vars, g);
      DiagramOf(w, vars, Apply2(op, f, g)) == match op
      case OR => b + a case AND => b * a case XOR => Xor(b, a) case _ => AllEnvs(w) - Xor(b, a)
  {
  }

  lemma NodeHolds(w: nat, vars: seq<AugVar>, i: nat)
    requires TableOk(w, vars) && i < |vars|
    ensures Var(w, i) == DiagramOf(w, vars, Name(vars[i].name))
  {
    forall e | e in AllEnvs(w) ensures e[i] == One <==> vars[i].name in TrueNames(vars, e) {
      if vars[i].name in TrueNames(vars, e) {
        var v :| v in vars && v.node < |e| && e[v.node] == One && v.name == vars[i].name;
        var j :| 0 <= j < |vars| && vars[j] == v;
        assert i == j;
      }
      assert vars[i] in vars;
    }
  }

  /** A longer table leaves the diagrams on the stack as they are. */
  lemma StackStable(w: nat, vars: seq<AugVar>, longer: seq<AugVar>, diagrams: seq<Bdd>, formulas: seq<Formula>)
    requires TableOk(w, longer) && vars <= longer && StackHolds(w, vars, diagrams, formulas)
    ensures StackHolds(w, longer, diagrams, formulas)
  {
    var more := longer[|vars|..];
    assert longer == vars + more;
    forall n | n in NamesOf(vars) ensures n in NamesOf(longer) {
      var v :| v in vars && v.name == n;
      assert v in longer;
    }
    forall i | 0 <= i < |formulas| ensures diagrams[i] == DiagramOf(w, longer, formulas[i]) {
      MeaningStable(w, vars, more, formulas[i]);
    }
  }

  method EvaluateBinary(op: Binary, stack: DdStack, w: nat, ghost vars: seq<AugVar>, ghost formulas: seq<Formula>)
    returns (r: Result<Bdd>)
    requires stack.Valid() && Reads2(Boolean, op) && StackHolds(w, vars, stack.Contents(), formulas)
    modifies stack
    ensures stack.Valid() && stack.top <= old(stack.top)
    ensures var n := |formulas|;
      if n < 2 then r == Err(Underflow)
      else r.Ok? && StackHolds(w, vars, stack.Contents() + [r.value], formulas[..n - 2] + [Apply2(op, formulas[n - 2], formulas[n - 1])])
  {
    hide DiagramOf;
    ghost var n, before := |formulas|, stack.Contents();
    var a := stack.Pop();
    if a.None? { return Err(Underflow); }
    var b := stack.Pop();
    if b.None? { return Err(Underflow); }
    var node := Combine(op, a.value, b.value, w);
    CombineHolds(op, w, vars, formulas[n - 2], formulas[n - 1]);
    assert stack.Contents() == before[..n - 2];
    return Ok(node);
  }

  method EvaluateNot(stack: DdStack, w: nat, ghost vars: seq<AugVar>, ghost formulas: seq<Formula>)
    returns (r: Result<Bdd>)
    requires stack.Valid() && StackHolds(w, vars, stack.Contents(), formulas)
    modifies stack
    ensures stack.Valid() && stack.top <= old(stack.top)
    ensures var n := |formulas|;
      if n < 1 then r == Err(Underflow)
      else r.Ok? && StackHolds(w, vars, stack.Contents() + [r.value], formulas[..n - 1] + [Apply1(NOT, formulas[n - 1])])
  {
    hide DiagramOf;
    ghost var n, before := |formulas|, stack.Contents();
    var a := stack.Pop();
    if a.None? { return Err(Underflow); }
    NotHolds(w, vars, formulas[n - 1]);
    assert stack.Contents() == before[..n - 1];
    return Ok(Not(w, a.value));
  }

  method EvaluateName(name: string, stack: DdStack, env: Environment, ghost formulas: seq<Formula>, ghost all: set<string>)
    returns (r: Bdd)
    requires stack.Valid() && env.Valid() && StackHolds(env.width, env.seenVars, stack.Contents(), formulas)
    requires NamesOf(env.seenVars) + {name} <= all && |all| <= env.width
    modifies env
    ensures env.Valid() && old(env.seenVars) <= env.seenVars
    ensures NamesOf(env.seenVars) == old(NamesOf(env.seenVars)) + {name}
    ensures StackHolds(env.width, env.seenVars, stack.Contents() + [r], formulas + [Name(name)])
  {
    hide TableOk, DiagramOf;
    ghost var vars := env.seenVars;
    var node := env.Node(name, all);
    StackStable(env.width, vars, env.seenVars, stack.Contents(), formulas);
    NodeHolds(env.width, env.seenVars, node);
    r := Var(env.width, node);
  }

  /** One token: pop its operands, or look up its name; compute the diagram to be pushed. */
  method Evaluate(token: string, stack: DdStack, env: Environment, ghost formulas: seq<Formula>, ghost all: set<string>)
    returns (r: Result<Bdd>)
    requires stack.Valid() && env.Valid() && token != "" && StackHolds(env.width, env.seenVars, stack.Contents(), formulas)
    requires NamesOf(env.seenVars) + NameTokens([token]) <= all && |all| <= env.width
    modifies stack, env
    ensures stack.Valid() && env.Valid() && stack.top <= old(stack.top)
    ensures old(env.seenVars) <= env.seenVars
    ensures NamesOf(env.seenVars) == old(NamesOf(env.seenVars)) + NameTokens([token])
    ensures match ReadToken(Boolean, formulas, token)
      case Err(e) => r == Err(e)
      case Ok(next) => r.Ok? && StackHolds(env.width, env.seenVars, stack.Contents() + [r.value], next)
  {
    hide TableOk, StackHolds, NamesOf;
    NameTokenSingle(token);
    match Classify(Boolean, token) {
      case BinaryToken(op) => r := EvaluateBinary(op, stack, env.width, env.seenVars, formulas);
      case UnaryToken(op) => r := EvaluateNot(stack, env.width, env.seenVars, formulas);
      case NameToken =>
        var node := EvaluateName(token, stack, env, formulas, all);
        r := Ok(node);
    }
  }

  lemma NameTokenSingle(token: string)
    ensures NameTokens([token]) == if Classify(Boolean, token) == NameToken then {token} else {}
  {
    assert token in [token];
  }

  lemma NotHolds(w: nat, vars: seq<AugVar>, f: Formula)
    ensures DiagramOf(w, vars, Apply1(NOT, f)) == Not(w, DiagramOf(w, vars, f))
  {
  }

  method BddFromPrefix(tokens: seq<string>, env: Environment) returns (r: Result<Bdd>)
    requires env.Valid() && NonEmptyTokens(tokens)
    requires |NamesOf(env.seenVars) + NamesRead(tokens)| <= env.width
    modifies env
    ensures env.Valid() && old(env.seenVars) <= env.seenVars
    ensures match Parse(Boolean, tokens)
      case Err(e) => r == Err(e)
      case Ok(f) => r.Ok? && StackHolds(env.width, env.seenVars, [r.value], [f])
    ensures r.Ok? ==> NamesOf(env.seenVars) == old(NamesOf(env.seenVars)) + NameTokens(tokens)
  {
    hide TableOk, DiagramOf, NamesOf, NameTokens, ReadToken;
    NoNameTokens();
    ghost var formulas: seq<Formula> := [];
    ghost var all := NamesOf(env.seenVars) + NamesRead(tokens);
    var stack := new DdStack(|tokens|);
    var recentNode: Bdd := {};
    assert tokens[0..] == tokens && tokens[..0] == [];
    for i := 0 to |tokens|
      invariant stack.Valid() && fresh(stack) && fresh(stack.slots) && stack.slots.Length == |tokens|
      invariant stack.top <= i && (i > 0 ==> stack.top > 0 && recentNode == stack.Contents()[stack.top - 1])
      invariant env.Valid() && old(env.seenVars) <= env.seenVars
      invariant NamesOf(env.seenVars) == old(NamesOf(env.seenVars)) + NameTokens(tokens[..i])
      invariant NamesOf(env.seenVars) + NamesReadFrom(formulas, tokens[i..]) <= all
      invariant ReadFrom(Boolean, formulas, tokens[i..]) == ReadFrom(Boolean, [], tokens)
      invariant StackHolds(env.width, env.seenVars, stack.Contents(), formulas)
    {
      assert tokens[i..][0] == tokens[i] && tokens[i..][1..] == tokens[i + 1..];
      NameTokensSplit(tokens, i);
      var node := Evaluate(tokens[i], stack, env, formulas, all);
      if node.Err? { return Err(node.error); }
      recentNode := node.value;
      formulas := ReadToken(Boolean, formulas, tokens[i]).value;
      var pushed := stack.Push(recentNode);
    }
    assert tokens[..|tokens|] == tokens;
    if stack.top != 1 { return Err(Malformed); }
    return Ok(recentNode);
  }

  lemma NoNameTokens()
    ensures NameTokens([]) == {}
  {
  }

  lemma NameTokensSplit(tokens: seq<string>, i: nat)
    requires i < |tokens|
    ensures NameTokens(tokens[..i + 1]) == NameTokens(tokens[..i]) + NameTokens([tokens[i]])
    ensures NameTokens(tokens[..i + 1]) <= NameTokens(tokens)
  {
    assert tokens[..i + 1] == tokens[..i] + [tokens[i]];
  }
}

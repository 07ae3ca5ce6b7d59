/** Formulas in postfix notation, as a boolean language for the model and a
    temporal one for its properties. */
module Formulas {
  import opened Outcomes

  datatype Unary = NOT | EX | AX | EF | AF | EG | AG
  datatype Binary = OR | AND | XOR | IFF | EU | AU

  datatype Formula =
    | Name(name: string)
    | Apply1(op1: Unary, arg: Formula)
    | Apply2(op2: Binary, left: Formula, right: Formula)

  /** Boolean formulas read the temporal operators as names; temporal formulas
      admit no primed names and only declared ones. */
  datatype Language = Boolean | Temporal(declared: set<string>)

  function Symbol1(op: Unary): string {
    match op
    case NOT => "!"
    case EX => "EX" case AX => "AX" case EF => "EF" case AF => "AF" case EG => "EG" case AG => "AG"
  }

  function Symbol2(op: Binary): string {
    match op
    case OR => "+" case AND => "." case XOR => "^" case IFF => "="
    case EU => "EU" case AU => "AU"
  }

  predicate Reads1(l: Language, op: Unary) { l.Temporal? || op == NOT }

  predicate Reads2(l: Language, op: Binary) { l.Temporal? || (op != EU && op != AU) }

  datatype Token = UnaryToken(op1: Unary) | BinaryToken(op2: Binary) | NameToken

  /** The order of the comparisons does not matter: the symbols are distinct. */
  function Classify(l: Language, t: string): (r: Token)
    ensures forall op :: Reads1(l, op) && t == Symbol1(op) <==> r == UnaryToken(op)
    ensures forall op :: Reads2(l, op) && t == Symbol2(op) <==> r == BinaryToken(op)
  {
    if t == "+" then BinaryToken(OR)
    else if t == "." then BinaryToken(AND)
    else if t == "^" then BinaryToken(XOR)
    else if t == "=" then BinaryToken(IFF)
    else if t == "!" then UnaryToken(NOT)
    else if l.Boolean? then NameToken
    else if t == "EX" then UnaryToken(EX)
    else if t == "AX" then UnaryToken(AX)
    else if t == "EF" then UnaryToken(EF)
    else if t == "AF" then UnaryToken(AF)
    else if t == "EG" then UnaryToken(EG)
    else if t == "AG" then UnaryToken(AG)
    else if t == "EU" then BinaryToken(EU)
    else if t == "AU" then BinaryToken(AU)
    else NameToken
  }

  predicate IsPrimed(name: string) {
    name != "" && name[|name| - 1] == '\''
  }

  // ----- Printing -----

  function Postfix(f: Formula): seq<string> {
    match f
    case Name(n) => [n]
    case Apply1(op, a) => Postfix(a) + [Symbol1(op)]
    case Apply2(op, a, b) => Postfix(a) + Postfix(b) + [Symbol2(op)]
  }

  function PostfixAll(fs: seq<Formula>): seq<string> {
    if fs == [] then [] else PostfixAll(fs[..|fs| - 1]) + Postfix(fs[|fs| - 1])
  }

  predicate NameAllowed(l: Language, n: string) {
    n != "" && Classify(l, n) == NameToken && (l.Temporal? ==> !IsPrimed(n) && n in l.declared)
  }

  predicate InLanguage(l: Language, f: Formula) {
    match f
    case Name(n) => NameAllowed(l, n)
    case Apply1(op, a) => Reads1(l, op) && InLanguage(l, a)
    case Apply2(op, a, b) => Reads2(l, op) && InLanguage(l, a) && InLanguage(l, b)
  }

  // ----- Reading: a stack machine over formulas -----

  function ReadToken(l: Language, stack: seq<Formula>, t: string): Result<seq<Formula>>
    requires t != ""
  {
    var n := |stack|;
    if l.Temporal? && IsPrimed(t) then Err(PrimedVariable)
    else match Classify(l, t)
      case BinaryToken(op) =>
        if n < 2 then Err(Underflow) else Ok(stack[..n - 2] + [Apply2(op, stack[n - 2], stack[n - 1])])
      case UnaryToken(op) =>
        if n < 1 then Err(Underflow) else Ok(stack[..n - 1] + [Apply1(op, stack[n - 1])])
      case NameToken =>
        if l.Temporal? && t !in l.declared then Err(UndeclaredVariable) else Ok(stack + [Name(t)])
  }

  predicate NonEmptyTokens(tokens: seq<string>) {
    forall i :: 0 <= i < |tokens| ==> tokens[i] != ""
  }

  function ReadFrom(l: Language, stack: seq<Formula>, tokens: seq<string>): Result<seq<Formula>>
    requires NonEmptyTokens(tokens)
    decreases |tokens|
  {
    if tokens == [] then Ok(stack)
    else
      var next :- ReadToken(l, stack, tokens[0]);
      ReadFrom(l, next, tokens[1..])
  }

  function Parse(l: Language, tokens: seq<string>): Result<Formula>
    requires NonEmptyTokens(tokens)
  {
    var stack :- ReadFrom(l, [], tokens);
    if |stack| == 1 then Ok(stack[0]) else Err(Malformed)
  }

  lemma ShortUnary(l: Language, op: Unary, a: string)
    requires NameAllowed(l, a) && Reads1(l, op)
    ensures Symbol1(op) != "" && Parse(l, [a, Symbol1(op)]) == Ok(Apply1(op, Name(a)))
  {
    hide Parse, NameAllowed, Symbol1;
    SymbolsUnprimed(op, OR);
    PostfixNonEmpty(l, Apply1(op, Name(a)));
    assert Postfix(Name(a)) == [a] && InLanguage(l, Name(a));
    assert Postfix(Apply1(op, Name(a))) == [a, Symbol1(op)];
    ParseIffPostfix(l, [a, Symbol1(op)], Apply1(op, Name(a)));
  }

  lemma ShortBinary(l: Language, op: Binary, a: string, b: string)
    requires NameAllowed(l, a) && NameAllowed(l, b) && Reads2(l, op)
    ensures Symbol2(op) != "" && Parse(l, [a, b, Symbol2(op)]) == Ok(Apply2(op, Name(a), Name(b)))
  {
    hide Parse, NameAllowed, Symbol2;
    SymbolsUnprimed(NOT, op);
    PostfixNonEmpty(l, Apply2(op, Name(a), Name(b)));
    assert Postfix(Name(a)) == [a] && InLanguage(l, Name(a)) && Postfix(Name(b)) == [b] && InLanguage(l, Name(b));
    assert Postfix(Apply2(op, Name(a), Name(b))) == [a, b, Symbol2(op)];
    ParseIffPostfix(l, [a, b, Symbol2(op)], Apply2(op, Name(a), Name(b)));
  }

  /** What short texts are read as: the symbols of the boolean operators, in either language. */
  lemma ShortTexts(l: Language, a: string, b: string)
    requires NameAllowed(l, a) && NameAllowed(l, b)
    ensures Parse(l, [a]) == Ok(Name(a)) && Parse(l, [a, "!"]) == Ok(Apply1(NOT, Name(a)))
    ensures Parse(l, [a, b, "+"]) == Ok(Apply2(OR, Name(a), Name(b))) && Parse(l, [a, b, "."]) == Ok(Apply2(AND, Name(a), Name(b)))
    ensures Parse(l, [a, b, "^"]) == Ok(Apply2(XOR, Name(a), Name(b))) && Parse(l, [a, b, "="]) == Ok(Apply2(IFF, Name(a), Name(b)))
  {
    hide Parse, Classify;
    ParseIffPostfix(l, [a], Name(a));
    ShortUnary(l, NOT, a);
    ShortBinary(l, OR, a, b);
    ShortBinary(l, AND, a, b);
    ShortBinary(l, XOR, a, b);
    ShortBinary(l, IFF, a, b);
  }

  /** The symbols of the temporal operators, and primed names, in the language of properties. */
  lemma ShortProperties(l: Language, a: string, b: string)
    requires l.Temporal? && NameAllowed(l, a) && NameAllowed(l, b)
    ensures Parse(l, [a, "EX"]) == Ok(Apply1(EX, Name(a))) && Parse(l, [a, "AX"]) == Ok(Apply1(AX, Name(a)))
    ensures Parse(l, [a, "EF"]) == Ok(Apply1(EF, Name(a))) && Parse(l, [a, "AF"]) == Ok(Apply1(AF, Name(a)))
    ensures Parse(l, [a, "EG"]) == Ok(Apply1(EG, Name(a))) && Parse(l, [a, "AG"]) == Ok(Apply1(AG, Name(a)))
    ensures Parse(l, [a, b, "EU"]) == Ok(Apply2(EU, Name(a), Name(b))) && Parse(l, [a, b, "AU"]) == Ok(Apply2(AU, Name(a), Name(b)))
    ensures Parse(l, [a + "'"]) == Err(PrimedVariable)
  {
    hide Parse, Classify;
    ShortUnary(l, EX, a);
    ShortUnary(l, AX, a);
    ShortUnary(l, EF, a);
    ShortUnary(l, AF, a);
    ShortUnary(l, EG, a);
    ShortUnary(l, AG, a);
    ShortBinary(l, EU, a, b);
    ShortBinary(l, AU, a, b);
    PrimedText(l, a);
  }

  lemma PrimedText(l: Language, a: string)
    requires l.Temporal?
    ensures Parse(l, [a + "'"]) == Err(PrimedVariable)
  {
    hide Classify;
    assert ReadToken(l, [], a + "'") == Err(PrimedVariable);
  }

  // ----- Reading and printing are inverse -----

  lemma {:induction false} PostfixNonEmpty(l: Language, f: Formula)
    requires InLanguage(l, f)
    ensures NonEmptyTokens(Postfix(f))
  {
    match f
    case Name(n) =>
    case Apply1(op, a) => PostfixNonEmpty(l, a);
    case Apply2(op, a, b) => PostfixNonEmpty(l, a); PostfixNonEmpty(l, b);
  }

  lemma SymbolsUnprimed(op1: Unary, op2: Binary)
    ensures !IsPrimed(Symbol1(op1)) && !IsPrimed(Symbol2(op2)) && Symbol1(op1) != "" && Symbol2(op2) != ""
  {
  }

  /** Reading a printed formula pushes exactly that formula. */
  lemma {:induction false} ReadPostfix(l: Language, stack: seq<Formula>, f: Formula, rest: seq<string>)
    requires InLanguage(l, f) && NonEmptyTokens(rest)
    ensures NonEmptyTokens(Postfix(f) + rest)
    ensures ReadFrom(l, stack, Postfix(f) + rest) == ReadFrom(l, stack + [f], rest)
    decreases f
  {
    PostfixNonEmpty(l, f);
    match f
    case Name(n) =>
      assert (Postfix(f) + rest)[1..] == rest;
    case Apply1(op, a) =>
      var tail := [Symbol1(op)] + rest;
      assert Postfix(f) + rest == Postfix(a) + tail;
      ReadPostfix(l, stack, a, tail);
      ReadUnary(l, stack, a, op, rest);
    case Apply2(op, a, b) =>
      var tail := [Symbol2(op)] + rest;
      PostfixNonEmpty(l, b);
      assert Postfix(f) + rest == Postfix(a) + (Postfix(b) + tail);
      ReadPostfix(l, stack, a, Postfix(b) + tail);
      ReadPostfix(l, stack + [a], b, tail);
      ReadBinary(l, stack, a, b, op, rest);
  }

  lemma ReadUnary(l: Language, stack: seq<Formula>, a: Formula, op: Unary, rest: seq<string>)
    requires Reads1(l, op) && NonEmptyTokens([Symbol1(op)] + rest) && NonEmptyTokens(rest)
    ensures ReadFrom(l, stack + [a], [Symbol1(op)] + rest) == ReadFrom(l, stack + [Apply1(op, a)], rest)
  {
    SymbolsUnprimed(op, OR);
    hide Classify, Symbol1;
    var tail := [Symbol1(op)] + rest;
    assert tail[1..] == rest && (stack + [a])[..|stack|] == stack;
  }

  lemma ReadBinary(l: Language, stack: seq<Formula>, a: Formula, b: Formula, op: Binary, rest: seq<string>)
    requires Reads2(l, op) && NonEmptyTokens([Symbol2(op)] + rest) && NonEmptyTokens(rest)
    ensures ReadFrom(l, stack + [a] + [b], [Symbol2(op)] + rest) == ReadFrom(l, stack + [Apply2(op, a, b)], rest)
  {
    SymbolsUnprimed(NOT, op);
    hide Classify, Symbol2;
    var tail, full := [Symbol2(op)] + rest, stack + [a] + [b];
    assert tail[1..] == rest && full[..|full| - 2] == stack;
  }

  /** Whatever is read, printing the stack gives back the tokens consumed. */
  lemma {:induction false} PrintRead(l: Language, stack: seq<Formula>, tokens: seq<string>)
    requires NonEmptyTokens(tokens) && forall f :: f in stack ==> InLanguage(l, f)
    ensures ReadFrom(l, stack, tokens).Ok? ==>
      PostfixAll(ReadFrom(l, stack, tokens).value) == PostfixAll(stack) + tokens
      && forall f :: f in ReadFrom(l, stack, tokens).value ==> InLanguage(l, f)
    decreases |tokens|
  {
    if tokens == [] {
      assert PostfixAll(stack) + tokens == PostfixAll(stack);
    } else if ReadToken(l, stack, tokens[0]).Ok? {
      var next := ReadToken(l, stack, tokens[0]).value;
      PrintReadToken(l, stack, tokens[0]);
      PrintRead(l, next, tokens[1..]);
      assert PostfixAll(stack) + tokens == PostfixAll(stack) + [tokens[0]] + tokens[1..];
    }
  }

  /** What pushing a formula adds to the printed stack. */
  lemma PrintPush(stack: seq<Formula>, f: Formula)
    ensures PostfixAll(stack + [f]) == PostfixAll(stack) + Postfix(f)
  {
    assert (stack + [f])[..|stack|] == stack;
  }

  lemma PrintUnary(base: seq<Formula>, a: Formula, op: Unary)
    ensures PostfixAll(base + [Apply1(op, a)]) == PostfixAll(base + [a]) + [Symbol1(op)]
  {
    hide PostfixAll, Symbol1;
    PrintPush(base, Apply1(op, a));
    PrintPush(base, a);
    Regroup(PostfixAll(base), Postfix(a), [], [Symbol1(op)]);
  }

  lemma PrintBinary(base: seq<Formula>, a: Formula, b: Formula, op: Binary)
    ensures PostfixAll(base + [Apply2(op, a, b)]) == PostfixAll(base + [a] + [b]) + [Symbol2(op)]
  {
    hide PostfixAll, Symbol2;
    PrintPush(base, Apply2(op, a, b));
    PrintPush(base, a);
    PrintPush(base + [a], b);
    Regroup(PostfixAll(base), Postfix(a), Postfix(b), [Symbol2(op)]);
  }

  lemma Regroup(p: seq<string>, a: seq<string>, b: seq<string>, s: seq<string>)
    ensures p + (a + b + s) == p + a + b + s && p + (a + s) == p + a + s
  {
  }

  lemma PrintReadToken(l: Language, stack: seq<Formula>, t: string)
    requires t != "" && (forall f :: f in stack ==> InLanguage(l, f)) && ReadToken(l, stack, t).Ok?
    ensures PostfixAll(ReadToken(l, stack, t).value) == PostfixAll(stack) + [t]
    ensures forall f :: f in ReadToken(l, stack, t).value ==> InLanguage(l, f)
  {
    hide Classify, Symbol1, Symbol2, PostfixAll;
    var n := |stack|;
    match Classify(l, t)
    case NameToken =>
      PrintPush(stack, Name(t));
    case UnaryToken(op) =>
      assert stack == stack[..n - 1] + [stack[n - 1]] && stack[n - 1] in stack;
      PrintUnary(stack[..n - 1], stack[n - 1], op);
    case BinaryToken(op) =>
      assert stack == stack[..n - 2] + [stack[n - 2]] + [stack[n - 1]] && stack[n - 1] in stack && stack[n - 2] in stack;
      PrintBinary(stack[..n - 2], stack[n - 2], stack[n - 1], op);
  }

  lemma ParsePrinted(l: Language, f: Formula)
    requires InLanguage(l, f)
    ensures NonEmptyTokens(Postfix(f)) && Parse(l, Postfix(f)) == Ok(f)
  {
    PostfixNonEmpty(l, f);
    hide InLanguage, Postfix, ReadToken;
    ReadPostfix(l, [], f, []);
    assert Postfix(f) + [] == Postfix(f) && [] + [f] == [f];
    assert ReadFrom(l, [f], []) == Ok([f]);
  }

  lemma PrintParsed(l: Language, tokens: seq<string>, f: Formula)
    requires NonEmptyTokens(tokens) && Parse(l, tokens) == Ok(f)
    ensures InLanguage(l, f) && tokens == Postfix(f)
  {
    hide InLanguage, Postfix, ReadFrom, PostfixAll;
    PrintRead(l, [], tokens);
    var stack := ReadFrom(l, [], tokens).value;
    assert stack == [f] && f in stack;
    PrintOne(f);
    assert PostfixAll([]) + tokens == tokens;
  }

  lemma PrintOne(f: Formula)
    ensures PostfixAll([f]) == Postfix(f) && PostfixAll([]) == []
  {
    PrintPush([], f);
    assert [] + [f] == [f];
  }

  /** The tokens that parse are exactly the printed formulas of the language. */
  lemma ParseIffPostfix(l: Language, tokens: seq<string>, f: Formula)
    requires NonEmptyTokens(tokens)
    ensures Parse(l, tokens) == Ok(f) <==> InLanguage(l, f) && tokens == Postfix(f)
  {
    hide Parse, InLanguage, Postfix;
    if InLanguage(l, f) && tokens == Postfix(f) { ParsePrinted(l, f); }
    if Parse(l, tokens) == Ok(f) { PrintParsed(l, tokens, f); }
  }
}

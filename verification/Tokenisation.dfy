/** Splitting a formula at its spaces, in two passes over the text. */
module Tokenisation {
  import opened Formulas
  import opened Outcomes

  const MAX_VAR_LEN: nat := 6

  // ----- Specification: the maximal runs of characters other than a space -----

  function Skip(s: string): (r: string)
    ensures |r| <= |s| && (r != "" ==> r[0] != ' ')
  {
    if s != "" && s[0] == ' ' then Skip(s[1..]) else s
  }

  function Word(s: string): (r: string)
    ensures |r| <= |s| && (s != "" && s[0] != ' ' ==> r != "")
  {
    if s == "" || s[0] == ' ' then "" else [s[0]] + Word(s[1..])
  }

  function Split(s: string): (tokens: seq<string>)
    ensures forall i :: 0 <= i < |tokens| ==> tokens[i] != ""
    decreases |s|
  {
    var t := Skip(s);
    if t == "" then [] else [Word(t)] + Split(t[|Word(t)|..])
  }

  ghost predicate ProperToken(t: string) {
    t != "" && forall i :: 0 <= i < |t| ==> t[i] != ' '
  }

  lemma {:induction false} SplitsIntoProperTokens(s: string)
    ensures forall t :: t in Split(s) ==> ProperToken(t)
    decreases |s|
  {
    var t := Skip(s);
    if t != "" {
      WordHasNoSpace(t);
      SplitsIntoProperTokens(t[|Word(t)|..]);
    }
  }

  lemma WordHasNoSpace(s: string)
    ensures forall i :: 0 <= i < |Word(s)| ==> Word(s)[i] != ' '
  {
  }

  // ----- Printing with any amount of space -----

  function Spaces(n: nat): (r: string)
    ensures |r| == n && forall i :: 0 <= i < n ==> r[i] == ' '
  {
    seq(n, _ => ' ')
  }

  /** The tokens, the i-th followed by gaps[i] spaces. */
  function Render(tokens: seq<string>, gaps: seq<nat>): string
    requires |gaps| == |tokens|
  {
    if tokens == [] then "" else tokens[0] + Spaces(gaps[0]) + Render(tokens[1..], gaps[1..])
  }

  lemma {:induction false} SkipSpaces(n: nat, s: string)
    ensures Skip(Spaces(n) + s) == Skip(s)
  {
    if n == 0 {
      assert Spaces(0) + s == s;
    } else {
      assert (Spaces(n) + s)[1..] == Spaces(n - 1) + s;
      SkipSpaces(n - 1, s);
    }
  }

  lemma {:induction false} WordOfToken(t: string, rest: string)
    requires forall i :: 0 <= i < |t| ==> t[i] != ' '
    requires rest == "" || rest[0] == ' '
    ensures Word(t + rest) == t
  {
    if t == "" {
      assert t + rest == rest;
    } else {
      assert (t + rest)[1..] == t[1..] + rest;
      WordOfToken(t[1..], rest);
    }
  }

  /** Splitting undoes printing, whatever the spacing. */
  lemma {:induction false} SplitRender(tokens: seq<string>, lead: nat, gaps: seq<nat>)
    requires |gaps| == |tokens| && forall t :: t in tokens ==> ProperToken(t)
    requires forall i :: 0 <= i < |gaps| - 1 ==> gaps[i] > 0
    ensures Split(Spaces(lead) + Render(tokens, gaps)) == tokens
  {
    var text := Render(tokens, gaps);
    SkipSpaces(lead, text);
    if tokens != [] {
      var t, rest := tokens[0], Spaces(gaps[0]) + Render(tokens[1..], gaps[1..]);
      assert ProperToken(t);
      assert text == t + rest && Skip(text) == text;
      WordOfToken(t, rest);
      SplitRender(tokens[1..], gaps[0], gaps[1..]);
      assert text[|t|..] == rest;
    }
  }

  // ----- The two passes -----

  /** The number of words that start in s, when the character before s is a space or not. */
  function WordStarts(s: string, outside: bool): nat {
    if s == "" then 0
    else if outside && s[0] != ' ' then 1 + WordStarts(s[1..], false)
    else if !outside && s[0] == ' ' then WordStarts(s[1..], true)
    else WordStarts(s[1..], outside)
  }

  lemma {:induction false} WordStartsCount(s: string)
    ensures WordStarts(s, true) == |Split(s)|
    ensures WordStarts(s, false) == |Split(s[|Word(s)|..])|
    decreases |s|
  {
    if s != "" {
      WordStartsCount(s[1..]);
      if s[0] == ' ' {
        assert s[|Word(s)|..] == s;
      } else {
        assert s[|Word(s)|..] == s[1..][|Word(s[1..])|..];
      }
    }
  }

  /** First pass: the number of tokens, counted where a word starts. */
  method CountTokens(text: string) returns (count: nat)
    ensures count == |Split(text)|
  {
    count := 0;
    var outside := true;
    for i := 0 to |text|
      invariant count + WordStarts(text[i..], outside) == WordStarts(text, true)
    {
      assert text[i..][1..] == text[i + 1..];
      if outside && text[i] != ' ' {
        count := count + 1;
        outside := false;
      } else if !outside && text[i] == ' ' {
        outside := true;
      }
    }
    WordStartsCount(text);
  }

  method SkipBlanks(s: string, pos: nat) returns (start: nat)
    requires pos <= |s|
    ensures pos <= start <= |s| && Skip(s[pos..]) == s[start..]
  {
    start := pos;
    while start < |s| && s[start] == ' '
      invariant pos <= start <= |s| && Skip(s[pos..]) == Skip(s[start..])
    {
      assert s[start..][1..] == s[start + 1..];
      start := start + 1;
    }
  }

  method ScanWord(s: string, start: nat) returns (end: nat)
    requires start <= |s|
    ensures start <= end <= |s| && Word(s[start..]) == s[start..end]
  {
    hide Word;
    end := start;
    while end < |s| && s[end] != ' '
      invariant start <= end <= |s| && Word(s[start..]) == s[start..end] + Word(s[end..])
    {
      WordGoesOn(s, start, end);
      end := end + 1;
    }
    WordEnds(s[end..]);
  }

  lemma WordGoesOn(s: string, start: nat, end: nat)
    requires start <= end < |s| && s[end] != ' '
    ensures s[start..end] + Word(s[end..]) == s[start..end + 1] + Word(s[end + 1..])
  {
    assert s[end..][1..] == s[end + 1..];
    assert s[start..end + 1] == s[start..end] + [s[end]];
  }

  lemma WordEnds(s: string)
    requires s == "" || s[0] == ' '
    ensures Word(s) == ""
  {
  }

  /** One call of strtok: the token that starts at or after pos, and where it ends. */
  method NextToken(s: string, pos: nat) returns (token: string, end: nat)
    requires pos <= |s| && Split(s[pos..]) != []
    ensures end <= |s| && Split(s[pos..]) == [token] + Split(s[end..])
  {
    var start := SkipBlanks(s, pos);
    end := ScanWord(s, start);
    token := s[start..end];
    assert s[start..][|token|..] == s[end..];
  }

  predicate AllFit(tokens: seq<string>) {
    forall t :: t in tokens ==> |t| < MAX_VAR_LEN
  }

  /** Second pass: copy the tokens one by one, unless one is too long. */
  method Tokenize(text: string) returns (r: Result<seq<string>>)
    ensures r == if AllFit(Split(text)) then Ok(Split(text)) else Err(TooLongSymbol)
    ensures r.Err? <==> exists t :: t in Split(text) && |t| >= 6
  {
    hide Split, Skip, Word;
    var count := CountTokens(text);
    var tokens: seq<string> := [];
    var pos: nat := 0;
    ghost var all := Split(text);
    ghost var rest := all;
    assert text[0..] == text;
    for i := 0 to count
      invariant pos <= |text| && |tokens| == i && rest == Split(text[pos..])
      invariant all == tokens + rest && AllFit(tokens)
    {
      var token, end := NextToken(text, pos);
      if |token| >= MAX_VAR_LEN {
        assert all[i] == token && !AllFit(all);
        return Err(TooLongSymbol);
      }
      assert all == (tokens + [token]) + rest[1..];
      tokens := tokens + [token];
      pos := end;
      rest := rest[1..];
    }
    assert all == tokens;
    return Ok(tokens);
  }

  // ----- The variables of a formula -----

  function IsOperator(t: string): bool {
    Classify(Temporal({}), t) != NameToken
  }

  function OperandTokens(tokens: seq<string>): set<string> {
    set t | t in tokens && !IsOperator(t)
  }

  method GetUniqVars(tokens: seq<string>) returns (uniqVars: seq<string>)
    ensures forall i, j :: 0 <= i < j < |uniqVars| ==> uniqVars[i] != uniqVars[j]
    ensures (set t | t in uniqVars) == OperandTokens(tokens)
  {
    uniqVars := [];
    for i := 0 to |tokens|
      invariant forall k, j :: 0 <= k < j < |uniqVars| ==> uniqVars[k] != uniqVars[j]
      invariant forall t :: t in uniqVars <==> t in tokens[..i] && !IsOperator(t)
    {
      assert tokens[..i + 1] == tokens[..i] + [tokens[i]];
      if !IsOperator(tokens[i]) {
        var known := false;
        for j := 0 to |uniqVars|
          invariant known <==> tokens[i] in uniqVars[..j]
        {
          assert uniqVars[..j + 1] == uniqVars[..j] + [uniqVars[j]];
          if uniqVars[j] == tokens[i] {
            known := true;
            break;
          }
        }
        if !known {
          uniqVars := uniqVars + [tokens[i]];
        }
      }
    }
    assert tokens[..|tokens|] == tokens;
  }
}

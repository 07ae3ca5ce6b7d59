/** Path semantics of CTL over a finite transition graph whose transition
    relation need not be total.  Nothing here mentions how the checker works. */
module CtlSemantics {
  import opened BoolFunctions

  /** The truth values of the unprimed variables. */
  type State = seq<Bit>

  datatype Graph = Graph(states: set<State>, step: set<(State, State)>)

  ghost predicate WellFormed(g: Graph) {
    forall s, t :: (s, t) in g.step ==> s in g.states && t in g.states
  }

  ghost predicate Deadlocked(g: Graph, s: State) {
    forall t :: (s, t) !in g.step
  }

  // ----- Paths -----

  ghost predicate FinitePath(g: Graph, s: State, path: seq<State>) {
    && |path| > 0 && path[0] == s && s in g.states
    && forall i :: 0 <= i < |path| - 1 ==> (path[i], path[i + 1]) in g.step
  }

  ghost predicate InfinitePath(g: Graph, s: State, path: nat -> State) {
    path(0) == s && forall i: nat :: (path(i), path(i + 1)) in g.step
  }

  /** All states of a finite path but its last one satisfy p. */
  ghost predicate AllButLast(path: seq<State>, p: set<State>) {
    forall i :: 0 <= i < |path| - 1 ==> path[i] in p
  }

  // ----- The temporal operators, state by state -----

  ghost predicate HoldsEX(g: Graph, p: set<State>, s: State) {
    exists t :: (s, t) in g.step && t in p
  }

  ghost predicate HoldsAX(g: Graph, p: set<State>, s: State) {
    forall t :: (s, t) in g.step ==> t in p
  }

  ghost predicate HoldsEF(g: Graph, p: set<State>, s: State) {
    exists path :: FinitePath(g, s, path) && path[|path| - 1] in p
  }

  ghost predicate HoldsAG(g: Graph, p: set<State>, s: State) {
    forall path :: FinitePath(g, s, path) ==> path[|path| - 1] in p
  }

  ghost predicate HoldsEG(g: Graph, p: set<State>, s: State) {
    exists path: nat -> State :: InfinitePath(g, s, path) && forall i: nat :: path(i) in p
  }

  /** Vacuous on the paths that end in a deadlock. */
  ghost predicate HoldsAF(g: Graph, p: set<State>, s: State) {
    forall path: nat -> State :: InfinitePath(g, s, path) ==> exists i: nat :: path(i) in p
  }

  ghost predicate HoldsEU(g: Graph, b: set<State>, q: set<State>, s: State) {
    exists path :: FinitePath(g, s, path) && path[|path| - 1] in q && AllButLast(path, b)
  }

  /** q is reached at some position of the path, and b holds before it. */
  ghost predicate UntilOnFinite(path: seq<State>, b: set<State>, q: set<State>) {
    exists k :: 0 <= k < |path| && path[k] in q && forall i :: 0 <= i < k ==> path[i] in b
  }

  ghost predicate UntilOnInfinite(path: nat -> State, b: set<State>, q: set<State>) {
    exists k: nat :: path(k) in q && forall i: nat :: i < k ==> path(i) in b
  }

  /** On every maximal path b holds until q does; a path that is cut short by a
      deadlock also passes when b holds on all of it. */
  ghost predicate HoldsAU(g: Graph, b: set<State>, q: set<State>, s: State) {
    && (forall path :: FinitePath(g, s, path) && Deadlocked(g, path[|path| - 1]) ==>
          UntilOnFinite(path, b, q) || forall i :: 0 <= i < |path| ==> path[i] in b)
    && (forall path: nat -> State :: InfinitePath(g, s, path) ==> UntilOnInfinite(path, b, q))
  }

  // ----- The sets of states the operators denote -----

  ghost function EXSet(g: Graph, p: set<State>): set<State> { set s | s in g.states && HoldsEX(g, p, s) }
  ghost function AXSet(g: Graph, p: set<State>): set<State> { set s | s in g.states && HoldsAX(g, p, s) }
  ghost function EFSet(g: Graph, p: set<State>): set<State> { set s | s in g.states && HoldsEF(g, p, s) }
  ghost function AFSet(g: Graph, p: set<State>): set<State> { set s | s in g.states && HoldsAF(g, p, s) }
  ghost function EGSet(g: Graph, p: set<State>): set<State> { set s | s in g.states && HoldsEG(g, p, s) }
  ghost function AGSet(g: Graph, p: set<State>): set<State> { set s | s in g.states && HoldsAG(g, p, s) }
  ghost function EUSet(g: Graph, b: set<State>, q: set<State>): set<State> { set s | s in g.states && HoldsEU(g, b, q, s) }
  ghost function AUSet(g: Graph, b: set<State>, q: set<State>): set<State> { set s | s in g.states && HoldsAU(g, b, q, s) }

  // ----- Deadlocks -----

  lemma LeavesOnPath(g: Graph, s: State, path: seq<State>)
    requires FinitePath(g, s, path) && |path| > 1
    ensures !Deadlocked(g, s)
  {
    assert (path[0], path[0 + 1]) in g.step;
  }

  lemma StuckPaths(g: Graph, s: State)
    requires s in g.states && Deadlocked(g, s)
    ensures FinitePath(g, s, [s]) && forall path :: FinitePath(g, s, path) ==> path == [s]
    ensures forall path: nat -> State :: !InfinitePath(g, s, path)
  {
    forall path | FinitePath(g, s, path) ensures path == [s] {
      if |path| > 1 { LeavesOnPath(g, s, path); }
    }
    forall path: nat -> State ensures !InfinitePath(g, s, path) {
      assert (path(0), path(0 + 1)) !in g.step || path(0) != s;
    }
  }

  /** No infinite path avoids p where there is none: a deadlocked state satisfies AF p, and never EG p. */
  lemma DeadlockInAF(g: Graph, p: set<State>, s: State)
    requires s in g.states && Deadlocked(g, s)
    ensures s in AFSet(g, p) && s !in EGSet(g, p)
  {
    StuckPaths(g, s);
  }

  /** A deadlocked state satisfies AU already if the left side holds there. */
  lemma DeadlockInAU(g: Graph, b: set<State>, q: set<State>, s: State)
    requires s in g.states && Deadlocked(g, s)
    ensures s in AUSet(g, b, q) <==> s in b || s in q
  {
    StuckPaths(g, s);
    assert [s][|[s]| - 1] == s && [s][0] == s;
    assert s in q ==> UntilOnFinite([s], b, q);
  }

  // ----- Finite paths -----

  lemma ExtendFront(g: Graph, s: State, t: State, path: seq<State>)
    requires s in g.states && (s, t) in g.step && FinitePath(g, t, path)
    ensures FinitePath(g, s, [s] + path)
    ensures ([s] + path)[|path|] == path[|path| - 1]
  {
    var longer := [s] + path;
    forall i | 0 <= i < |longer| - 1 ensures (longer[i], longer[i + 1]) in g.step {
      if i > 0 { assert longer[i] == path[i - 1]; }
    }
  }

  lemma TailOfPath(g: Graph, s: State, path: seq<State>)
    requires WellFormed(g) && FinitePath(g, s, path) && |path| > 1
    ensures (s, path[1]) in g.step && FinitePath(g, path[1], path[1..])
  {
    forall i | 0 <= i < |path[1..]| - 1 ensures (path[1..][i], path[1..][i + 1]) in g.step {
      assert (path[i + 1], path[i + 2]) in g.step;
    }
    assert (path[0], path[1]) in g.step;
  }

  // ----- Infinite paths -----

  /** From a set in which every state has a successor in the set, keep choosing one. */
  ghost function Walk(g: Graph, z: set<State>, s: State, i: nat): (t: State)
    requires s in z && forall x :: x in z ==> HoldsEX(g, z, x)
    ensures t in z
  {
    if i == 0 then s
    else
      var before := Walk(g, z, s, i - 1);
      var t :| (before, t) in g.step && t in z;
      t
  }

  lemma WalkStep(g: Graph, z: set<State>, s: State, i: nat)
    requires s in z && forall x :: x in z ==> HoldsEX(g, z, x)
    ensures (Walk(g, z, s, i), Walk(g, z, s, i + 1)) in g.step
  {
  }

  /** A set in which every state has a successor in the set carries infinite paths. */
  lemma StayForever(g: Graph, z: set<State>, p: set<State>, s: State)
    requires s in z && z <= p && forall x :: x in z ==> HoldsEX(g, z, x)
    ensures HoldsEG(g, p, s)
  {
    var path: nat -> State := (i: nat) => Walk(g, z, s, i);
    forall i: nat ensures (path(i), path(i + 1)) in g.step { WalkStep(g, z, s, i); }
    assert InfinitePath(g, s, path);
  }

  ghost function Drop(path: nat -> State): nat -> State {
    (i: nat) => path(i + 1)
  }

  lemma DropPath(g: Graph, s: State, path: nat -> State)
    requires InfinitePath(g, s, path)
    ensures (s, path(1)) in g.step && InfinitePath(g, path(1), Drop(path))
  {
    forall i: nat ensures (Drop(path)(i), Drop(path)(i + 1)) in g.step {
      assert (path(i + 1), path(i + 1 + 1)) in g.step;
    }
    assert (path(0), path(0 + 1)) in g.step;
  }

  // ----- Fixpoint characterisations -----

  ghost function StepEU(g: Graph, b: set<State>, q: set<State>, x: set<State>): set<State> { q + (b * EXSet(g, x)) }
  ghost function StepEG(g: Graph, p: set<State>, x: set<State>): set<State> { p * EXSet(g, x) }

  lemma EUUnfold(g: Graph, b: set<State>, q: set<State>, x: set<State>)
    requires WellFormed(g) && q <= g.states && x <= EUSet(g, b, q)
    ensures StepEU(g, b, q, x) <= EUSet(g, b, q)
  {
    forall s | s in StepEU(g, b, q, x) ensures HoldsEU(g, b, q, s) {
      if s in q {
        assert FinitePath(g, s, [s]);
      } else {
        var t :| (s, t) in g.step && t in x;
        var path :| FinitePath(g, t, path) && path[|path| - 1] in q && AllButLast(path, b);
        ExtendFront(g, s, t, path);
        assert AllButLast([s] + path, b);
      }
    }
  }

  lemma EULeast(g: Graph, b: set<State>, q: set<State>, z: set<State>)
    requires WellFormed(g) && StepEU(g, b, q, z) <= z
    ensures EUSet(g, b, q) <= z
  {
    forall s | s in EUSet(g, b, q) ensures s in z {
      var path :| FinitePath(g, s, path) && path[|path| - 1] in q && AllButLast(path, b);
      EUPathInside(g, b, q, z, s, path);
    }
  }

  lemma {:induction false} EUPathInside(g: Graph, b: set<State>, q: set<State>, z: set<State>, s: State, path: seq<State>)
    requires WellFormed(g) && StepEU(g, b, q, z) <= z
    requires FinitePath(g, s, path) && path[|path| - 1] in q && AllButLast(path, b)
    ensures s in z
    decreases |path|
  {
    if |path| > 1 {
      TailOfPath(g, s, path);
      assert AllButLast(path[1..], b) by {
        forall i | 0 <= i < |path[1..]| - 1 ensures path[1..][i] in b { assert path[i + 1] in b; }
      }
      EUPathInside(g, b, q, z, path[1], path[1..]);
      assert s in b && s in EXSet(g, z);
    }
  }

  lemma EGUnfold(g: Graph, p: set<State>, x: set<State>)
    requires WellFormed(g) && EGSet(g, p) <= x
    ensures EGSet(g, p) <= StepEG(g, p, x)
  {
    forall s | s in EGSet(g, p) ensures s in StepEG(g, p, x) {
      var path: nat -> State :| InfinitePath(g, s, path) && forall i: nat :: path(i) in p;
      DropPath(g, s, path);
      assert HoldsEG(g, p, path(1)) by {
        assert forall i: nat :: Drop(path)(i) in p;
      }
      assert path(0) in p;
    }
  }

  lemma EGGreatest(g: Graph, p: set<State>, z: set<State>)
    requires p <= g.states && z <= StepEG(g, p, z)
    ensures z <= EGSet(g, p)
  {
    forall s | s in z ensures s in EGSet(g, p) {
      StayForever(g, z, p, s);
    }
  }

  // ----- Dualities between the separately defined operators -----

  lemma AXDual(g: Graph, p: set<State>)
    requires WellFormed(g)
    ensures AXSet(g, p) == g.states - EXSet(g, g.states - p)
  {
  }

  lemma EFIsEU(g: Graph, p: set<State>)
    ensures EFSet(g, p) == EUSet(g, g.states, p)
    requires WellFormed(g)
  {
    forall s | s in EFSet(g, p) ensures HoldsEU(g, g.states, p, s) {
      var path :| FinitePath(g, s, path) && path[|path| - 1] in p;
      assert AllButLast(path, g.states) by {
        forall i | 0 <= i < |path| - 1 ensures path[i] in g.states {
          assert (path[i], path[i + 1]) in g.step;
        }
      }
    }
  }

  lemma AGDual(g: Graph, p: set<State>)
    requires WellFormed(g)
    ensures AGSet(g, p) == g.states - EFSet(g, g.states - p)
  {
    forall s, path | FinitePath(g, s, path) ensures path[|path| - 1] in g.states {
      if |path| > 1 { assert (path[|path| - 2], path[|path| - 2 + 1]) in g.step; }
    }
  }

  lemma AFDual(g: Graph, p: set<State>)
    requires WellFormed(g)
    ensures AFSet(g, p) == g.states - EGSet(g, g.states - p)
  {
    forall s, path: nat -> State, i: nat | InfinitePath(g, s, path) ensures path(i) in g.states {
      assert (path(i), path(i + 1)) in g.step;
    }
  }

  /** The states from which some path refutes "b until q". */
  ghost function UntilRefuted(g: Graph, b: set<State>, q: set<State>): set<State> {
    EUSet(g, g.states - q, g.states - b - q) + EGSet(g, g.states - q)
  }

  lemma AUDual(g: Graph, b: set<State>, q: set<State>)
    requires WellFormed(g)
    ensures AUSet(g, b, q) == g.states - UntilRefuted(g, b, q)
  {
    forall s | s in g.states ensures s in AUSet(g, b, q) <==> s !in UntilRefuted(g, b, q) {
      if s in UntilRefuted(g, b, q) {
        RefutedFailsAU(g, b, q, s);
      } else {
        UnrefutedHoldsAU(g, b, q, s);
      }
    }
  }

  lemma PathInGraph(g: Graph, s: State, path: seq<State>, i: nat)
    requires WellFormed(g) && FinitePath(g, s, path) && i < |path|
    ensures path[i] in g.states
  {
    if i > 0 { assert (path[i - 1], path[i - 1 + 1]) in g.step; }
  }

  /** The first position of a path that is in q, if there is one. */
  lemma {:induction false} FirstHit(path: seq<State>, q: set<State>, n: nat) returns (k: nat)
    requires n <= |path|
    ensures k <= n && (forall i :: 0 <= i < k ==> path[i] !in q) && (k < n ==> path[k] in q)
  {
    if n == 0 { return 0; }
    k := FirstHit(path, q, n - 1);
    if k == n - 1 && path[k] !in q { k := n; }
  }

  /** Along a path from a state that cannot refute, b holds as long as q has not. */
  lemma UnrefutedPrefix(g: Graph, b: set<State>, q: set<State>, s: State, path: seq<State>, i: nat)
    requires WellFormed(g) && FinitePath(g, s, path) && i < |path| && s !in UntilRefuted(g, b, q)
    requires forall j :: 0 <= j <= i ==> path[j] !in q
    ensures path[i] in b
  {
    if path[i] !in b {
      var prefix := path[..i + 1];
      forall j | 0 <= j < |prefix| - 1 ensures (prefix[j], prefix[j + 1]) in g.step {
        assert (path[j], path[j + 1]) in g.step;
      }
      forall j | 0 <= j <= i ensures prefix[j] in g.states { PathInGraph(g, s, path, j); }
      assert AllButLast(prefix, g.states - q);
      assert prefix[|prefix| - 1] in g.states - b - q;
      assert FinitePath(g, s, prefix);
    }
  }

  lemma UnrefutedHoldsAU(g: Graph, b: set<State>, q: set<State>, s: State)
    requires WellFormed(g) && s in g.states && s !in UntilRefuted(g, b, q)
    ensures HoldsAU(g, b, q, s)
  {
    forall path | FinitePath(g, s, path) && Deadlocked(g, path[|path| - 1])
      ensures UntilOnFinite(path, b, q) || forall i :: 0 <= i < |path| ==> path[i] in b
    {
      var k := FirstHit(path, q, |path|);
      forall i | 0 <= i < k ensures path[i] in b { UnrefutedPrefix(g, b, q, s, path, i); }
    }
    forall path: nat -> State | InfinitePath(g, s, path) ensures UntilOnInfinite(path, b, q) {
      if forall i: nat :: path(i) !in q {
        forall i: nat ensures path(i) in g.states - q { assert (path(i), path(i + 1)) in g.step; }
        assert false;
      }
      var n: nat :| path(n) in q;
      var start := seq(n + 1, i requires 0 <= i <= n => path(i));
      assert FinitePath(g, s, start) by {
        forall i | 0 <= i < n ensures (start[i], start[i + 1]) in g.step { assert (path(i), path(i + 1)) in g.step; }
        assert (path(0), path(0 + 1)) in g.step;
      }
      var k := FirstHit(start, q, n + 1);
      forall i: nat | i < k ensures path(i) in b {
        UnrefutedPrefix(g, b, q, s, start, i);
        assert start[i] == path(i);
      }
      assert path(k) in q by { assert start[n] == path(n); assert start[k] == path(k); }
    }
  }

  /** Every state starts a finite path into a deadlock or an infinite path. */
  lemma MaximalPath(g: Graph, s: State) returns (stuck: bool, finite: seq<State>, infinite: nat -> State)
    requires WellFormed(g) && s in g.states
    ensures stuck ==> FinitePath(g, s, finite) && Deadlocked(g, finite[|finite| - 1])
    ensures !stuck ==> InfinitePath(g, s, infinite)
  {
    finite, infinite := [], (i: nat) => [];
    var dead := set d | d in g.states && Deadlocked(g, d);
    stuck := HoldsEU(g, g.states, dead, s);
    if stuck {
      finite :| FinitePath(g, s, finite) && finite[|finite| - 1] in dead && AllButLast(finite, g.states);
    } else {
      var z := g.states - EUSet(g, g.states, dead);
      forall x | x in z ensures HoldsEX(g, z, x) {
        assert x !in dead by {
          if x in dead { assert FinitePath(g, x, [x]) && AllButLast([x], g.states); }
        }
        var t :| (x, t) in g.step;
        EUUnfold(g, g.states, dead, EUSet(g, g.states, dead));
        assert x !in EXSet(g, EUSet(g, g.states, dead));
      }
      StayForever(g, z, z, s);
      infinite :| InfinitePath(g, s, infinite) && forall i: nat :: infinite(i) in z;
    }
  }

  lemma RefutedFailsAU(g: Graph, b: set<State>, q: set<State>, s: State)
    requires WellFormed(g) && s in UntilRefuted(g, b, q)
    ensures !HoldsAU(g, b, q, s)
  {
    if s in EGSet(g, g.states - q) {
      var path: nat -> State :| InfinitePath(g, s, path) && forall i: nat :: path(i) in g.states - q;
      assert !UntilOnInfinite(path, b, q);
    } else {
      var path :| FinitePath(g, s, path) && path[|path| - 1] in g.states - b - q && AllButLast(path, g.states - q);
      var n := |path| - 1;
      forall i | 0 <= i <= n ensures path[i] !in q { assert i < n ==> path[i] in g.states - q; }
      var stuck, finite, infinite := MaximalPath(g, path[n]);
      if stuck {
        FiniteRefutation(g, b, q, s, path, finite);
      } else {
        InfiniteRefutation(g, b, q, s, path, infinite);
      }
    }
  }

  lemma FiniteRefutation(g: Graph, b: set<State>, q: set<State>, s: State, path: seq<State>, rest: seq<State>)
    requires FinitePath(g, s, path) && (forall i :: 0 <= i < |path| ==> path[i] !in q) && path[|path| - 1] !in b
    requires FinitePath(g, path[|path| - 1], rest) && Deadlocked(g, rest[|rest| - 1])
    ensures !HoldsAU(g, b, q, s)
  {
    var n := |path| - 1;
    var whole := path[..n] + rest;
    forall i | 0 <= i < |whole| - 1 ensures (whole[i], whole[i + 1]) in g.step {
      if i < n { assert (path[i], path[i + 1]) in g.step; }
      else { assert (rest[i - n], rest[i - n + 1]) in g.step; }
    }
    assert FinitePath(g, s, whole) && whole[|whole| - 1] == rest[|rest| - 1];
    assert forall i :: 0 <= i <= n ==> whole[i] == path[i];
    assert !UntilOnFinite(whole, b, q) && whole[n] !in b;
  }

  lemma InfiniteRefutation(g: Graph, b: set<State>, q: set<State>, s: State, path: seq<State>, rest: nat -> State)
    requires FinitePath(g, s, path) && (forall i :: 0 <= i < |path| ==> path[i] !in q) && path[|path| - 1] !in b
    requires InfinitePath(g, path[|path| - 1], rest)
    ensures !HoldsAU(g, b, q, s)
  {
    var n := |path| - 1;
    var whole: nat -> State := (i: nat) => if i < n then path[i] else rest(i - n);
    forall i: nat ensures (whole(i), whole(i + 1)) in g.step {
      if i < n { assert (path[i], path[i + 1]) in g.step; }
      else { assert (rest(i - n), rest(i - n + 1)) in g.step; }
    }
    assert InfinitePath(g, s, whole);
    forall i: nat | i <= n ensures whole(i) == path[i] {}
    assert whole(n) !in b;
    assert !UntilOnInfinite(whole, b, q);
  }

  // ----- Fixpoint characterisations of the universal operators -----

  ghost function StepAU(g: Graph, b: set<State>, q: set<State>, x: set<State>): set<State> { q + (b * AXSet(g, x)) }
  ghost function StepAG(g: Graph, p: set<State>, x: set<State>): set<State> { p * AXSet(g, x) }

  lemma AUUnfold(g: Graph, b: set<State>, q: set<State>, x: set<State>)
    requires WellFormed(g) && q <= g.states && x <= AUSet(g, b, q)
    ensures StepAU(g, b, q, x) <= AUSet(g, b, q)
  {
    AUDual(g, b, q);
    forall s | s in StepAU(g, b, q, x) ensures s !in UntilRefuted(g, b, q) {
      EGUnfold(g, g.states - q, EGSet(g, g.states - q));
      if s in EUSet(g, g.states - q, g.states - b - q) {
        var path :| FinitePath(g, s, path) && path[|path| - 1] in g.states - b - q && AllButLast(path, g.states - q);
        if |path| > 1 {
          TailOfPath(g, s, path);
          assert path[0] in g.states - q;
          assert AllButLast(path[1..], g.states - q) by {
            forall i | 0 <= i < |path[1..]| - 1 ensures path[1..][i] in g.states - q { assert path[i + 1] in g.states - q; }
          }
        }
      }
    }
  }

  lemma AULeast(g: Graph, b: set<State>, q: set<State>, z: set<State>)
    requires WellFormed(g) && StepAU(g, b, q, z) <= z
    ensures AUSet(g, b, q) <= z
  {
    AUDual(g, b, q);
    var out := g.states - z;
    var escape := EUSet(g, out, out - b);
    forall s | s in out ensures s in UntilRefuted(g, b, q) {
      if s in escape {
        var path :| FinitePath(g, s, path) && path[|path| - 1] in out - b && AllButLast(path, out);
        assert AllButLast(path, g.states - q) by {
          forall i | 0 <= i < |path| - 1 ensures path[i] in g.states - q { assert path[i] in out; }
        }
        assert s in EUSet(g, g.states - q, g.states - b - q);
      } else {
        forall x | x in out - escape ensures HoldsEX(g, out - escape, x) {
          assert x in b by {
            if x !in b { assert FinitePath(g, x, [x]) && AllButLast([x], out); }
          }
          assert x !in AXSet(g, z);
          var t :| (x, t) in g.step && t !in z;
          EUUnfold(g, out, out - b, escape);
          assert x !in EXSet(g, escape);
        }
        StayForever(g, out - escape, g.states - q, s);
      }
    }
  }

  lemma AFIsAU(g: Graph, p: set<State>)
    requires WellFormed(g) && p <= g.states
    ensures AFSet(g, p) == AUSet(g, g.states, p)
  {
    AFDual(g, p);
    AUDual(g, g.states, p);
    assert g.states - g.states - p == {};
    assert EUSet(g, g.states - p, {}) == {};
  }

  lemma AGUnfold(g: Graph, p: set<State>, x: set<State>)
    requires WellFormed(g) && AGSet(g, p) <= x
    ensures AGSet(g, p) <= StepAG(g, p, x)
  {
    AGDual(g, p);
    EFIsEU(g, g.states - p);
    var bad := EUSet(g, g.states, g.states - p);
    EUUnfold(g, g.states, g.states - p, bad);
    forall s | s in AGSet(g, p) ensures s in StepAG(g, p, x) {
      assert s !in EXSet(g, bad);
    }
  }

  lemma AGGreatest(g: Graph, p: set<State>, z: set<State>)
    requires WellFormed(g) && z <= g.states && z <= StepAG(g, p, z)
    ensures z <= AGSet(g, p)
  {
    AGDual(g, p);
    EFIsEU(g, g.states - p);
    EULeast(g, g.states, g.states - p, g.states - z);
  }
}

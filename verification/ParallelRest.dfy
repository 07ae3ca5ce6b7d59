/** What it means that the number of active threads has come back to 0: there is no work
    left for good, and it rises again only if a thread has yet to begin. */
module ParallelRest {
  import opened ObjectGraph
  import opened ParallelMark

  // ----- Who will raise the first nonempty position -----

  /** An active thread that does not go on past an outdated first nonempty position: if its
      compare-and-swap has failed, another one has raised the position as far. */
  predicate Leads(s: State, t: Helper) {
    IsActive(t) && match t.pc
      case Compare(seen) => seen == s.firstNonempty || t.first <= seen
      case ReadTop => t.first <= s.firstNonempty
      case WantLock => t.first <= s.firstNonempty
      case _ => true
  }

  ghost predicate SomeoneLeads(s: State) {
    exists k :: 0 <= k < |s.helpers| && Leads(s, s.helpers[k])
  }

  /** What a thread has read of the position is not beyond it.  As long as a thread is active,
      the position is that of the top, or one of them leads. */
  ghost predicate Led(s: State) {
    && (forall k :: 0 <= k < |s.helpers| && s.helpers[k].pc.Compare? ==> s.helpers[k].pc.seen <= s.firstNonempty)
    && (s.active > 0 && s.firstNonempty != |s.slots| ==> SomeoneLeads(s))
  }

  lemma MoverLeads(s: State, s': State, i: nat)
    requires Led(s) && i < |s.helpers| == |s'.helpers| && s'.helpers == s.helpers[i := s'.helpers[i]] && s'.firstNonempty >= s.firstNonempty
    requires Leads(s', s'.helpers[i])
    requires s'.helpers[i].pc.Compare? ==> s'.helpers[i].pc.seen <= s'.firstNonempty
    ensures Led(s')
  {
  }

  /** The moving thread need not lead if it did not before, and position and top are as they were. */
  lemma OthersLead(s: State, s': State, i: nat)
    requires Led(s) && i < |s.helpers| == |s'.helpers| && s'.helpers == s.helpers[i := s'.helpers[i]]
    requires s'.firstNonempty == s.firstNonempty && s'.slots == s.slots && !s'.helpers[i].pc.Compare?
    requires s'.active > 0 ==> s.active > 0
    requires Leads(s, s.helpers[i]) ==> Leads(s', s'.helpers[i]) || s.firstNonempty == |s.slots|
    ensures Led(s')
  {
    if s'.active > 0 && s'.firstNonempty != |s'.slots| {
      var k :| 0 <= k < |s.helpers| && Leads(s, s.helpers[k]);
      assert Leads(s', s'.helpers[k]);
    }
  }

  lemma LedReads(s: State, i: nat)
    requires Led(s) && i < |s.helpers|
    ensures s.helpers[i].pc.Compare? ==> s.helpers[i].pc.seen <= s.firstNonempty
  {
  }

  lemma LedCompare(s: State, s': State, i: nat)
    requires Led(s) && CompareFirst(s, s', i)
    ensures Led(s')
  {
    hide Led;
    LedReads(s, i);
    var t := s.helpers[i];
    if t.first <= t.pc.seen || s.firstNonempty == t.pc.seen { MoverLeads(s, s', i); } else { OthersLead(s, s', i); }
  }

  lemma LedOther(s: State, s': State, i: nat)
    requires Led(s) && (Join(s, s', i) || Exit(s, s', i) || LoadTop(s, s', i) || Recheck(s, s', i))
    requires s.firstNonempty <= |s.slots| && s.active >= 0
    ensures Led(s')
  {
    hide Led;
    OthersLead(s, s', i);
  }

  lemma LedControl(s: State, s': State, i: nat)
    requires Led(s) && ControlStep(s, s', i) && s.active == CountActive(s.helpers)
    requires s.firstNonempty <= |s.slots|
    ensures Led(s')
  {
    hide Led;
    CountsUp(s.helpers);
    if CompareFirst(s, s', i) {
      LedCompare(s, s', i);
    } else if Activate(s, s', i) || Wake(s, s', i) || ReadFirst(s, s', i) {
      MoverLeads(s, s', i);
    } else {
      LedOther(s, s', i);
    }
  }

  lemma {:induction false} CountsUp(ts: seq<Helper>)
    ensures CountActive(ts) >= 0
  {
  }

  /** What a step of marking does apart from the work itself. */
  ghost predicate Worked(s: State, s': State, i: nat) {
    && i < |s.helpers| == |s'.helpers| && s'.helpers == s.helpers[i := s'.helpers[i]]
    && s'.firstNonempty == s.firstNonempty && s'.active == s.active
    && IsWorking(s.helpers[i]) && (IsWorking(s'.helpers[i]) || s'.helpers[i].pc.LoopTop?)
  }

  lemma TakingWorks(h: Heap, z: Sizes, s: State, s': State, i: nat)
    requires LoadDescr(s, s', i) || TakeEntry(s, s', i) || DivideTop(z, s, s', i) || PopTop(s, s', i)
    ensures Worked(s, s', i)
  {
  }

  lemma LookingWorks(h: Heap, z: Sizes, s: State, s': State, i: nat)
    requires (exists a :: LookAt(h, s, s', i, a)) || SetMark(h, s, s', i) || PushMarked(h, z, s, s', i)
    ensures Worked(s, s', i)
  {
    hide Overflows;
  }

  lemma ReturningWorks(h: Heap, z: Sizes, s: State, s': State, i: nat)
    requires ScanDone(s, s', i) || LocalDone(s, s', i) || ReturnAll(z, s, s', i) || ShareHalf(z, s, s', i)
    ensures Worked(s, s', i)
  {
  }

  lemma WorkWorks(h: Heap, z: Sizes, s: State, s': State, i: nat)
    requires WorkStep(h, z, s, s', i)
    ensures Worked(s, s', i)
  {
    hide Worked, LoadDescr, TakeEntry, DivideTop, PopTop, LookAt, SetMark, PushMarked, ScanDone, LocalDone, ReturnAll, ShareHalf;
    if LoadDescr(s, s', i) || TakeEntry(s, s', i) || DivideTop(z, s, s', i) || PopTop(s, s', i) {
      TakingWorks(h, z, s, s', i);
    } else if ScanDone(s, s', i) || LocalDone(s, s', i) || ReturnAll(z, s, s', i) || ShareHalf(z, s, s', i) {
      ReturningWorks(h, z, s, s', i);
    } else {
      LookingWorks(h, z, s, s', i);
    }
  }

  lemma LedWork(s: State, s': State, i: nat)
    requires Led(s) && Worked(s, s', i)
    ensures Led(s')
  {
    MoverLeads(s, s', i);
  }

  lemma LedStep(h: Heap, z: Sizes, s: State, s': State)
    requires Led(s) && Step(h, z, s, s') && s.active == CountActive(s.helpers) && s.firstNonempty <= |s.slots|
    ensures Led(s')
  {
    hide ControlStep, WorkStep, Leads, Worked;
    if StopHelp(s, s') {
      if s'.active > 0 && s'.firstNonempty != |s'.slots| {
        var k :| 0 <= k < |s.helpers| && Leads(s, s.helpers[k]);
        SamePositions(s, s', s.helpers[k]);
      }
    } else {
      var i: nat :| i < |s.helpers| && (ControlStep(s, s', i) || WorkStep(h, z, s, s', i));
      if ControlStep(s, s', i) { LedControl(s, s', i); } else { WorkWorks(h, z, s, s', i); LedWork(s, s', i); }
    }
  }

  lemma SamePositions(s: State, s': State, t: Helper)
    requires s'.firstNonempty == s.firstNonempty
    ensures Leads(s, t) <==> Leads(s', t)
  {
  }

  lemma {:induction false} LedInRun(h: Heap, z: Sizes, live: set<Obj>, run: seq<State>, n: nat)
    requires HeapOk(h) && Closed(h, live) && Run(h, z, run) && Start(h, z, live, run[0]) && n < |run|
    ensures Led(run[n])
  {
    hide NoWorkLost, OnlyLive, HeapOk, Step;
    if n > 0 {
      LedInRun(h, z, live, run, n - 1);
      RunKeeps(h, z, live, run, n - 1);
      LedStep(h, z, run[n - 1], run[n - 1 + 1]);
    }
  }

  // ----- The active count comes back to 0 -----

  /** The step by which the last active thread becomes inactive. */
  lemma LastActive(h: Heap, z: Sizes, live: set<Obj>, s: State, s': State)
    requires Inv(h, z, live, s) && Step(h, z, s, s') && s.active > 0 && s'.active == 0
    ensures exists i: nat :: i < |s.helpers| && Recheck(s, s', i) && s'.helpers[i].pc.Waiting?
  {
    hide NoWorkLost, OnlyLive, ControlStep, WorkStep;
    var i: nat :| i < |s.helpers| && (ControlStep(s, s', i) || WorkStep(h, z, s, s', i));
    if WorkStep(h, z, s, s', i) { WorkWorks(h, z, s, s', i); }
    OneLess(s, s', i);
  }

  lemma OneLess(s: State, s': State, i: nat)
    requires i < |s.helpers| && ControlStep(s, s', i) && s'.active < s.active
    ensures Recheck(s, s', i) && s'.helpers[i].pc.Waiting?
  {
    assert Recheck(s, s', i);
  }

  lemma OnlyOneActive(ts: seq<Helper>, i: nat, k: nat)
    requires i < |ts| && k < |ts| && IsActive(ts[i]) && IsActive(ts[k]) && CountActive(ts) == 1
    ensures i == k
  {
    if i != k {
      CountUpdate(ts, i, ts[i].(pc := Waiting));
      CountZero(ts[i := ts[i].(pc := Waiting)], k);
    }
  }

  ghost predicate NothingLeft(h: Heap, s: State) {
    && s.firstNonempty == |s.slots| && (forall j :: 0 <= j < |s.slots| ==> !s.slots[j].full)
    && forall k :: 0 <= k < |s.helpers| ==> s.helpers[k].stack == [] && HelperWords(h, s.helpers[k]) == {}
  }

  /** When no thread is active any more, there is no work: all stacks are empty, no thread has words
      in its hands, and the first nonempty position is behind the top. */
  lemma NoneActiveMeansDone(h: Heap, z: Sizes, live: set<Obj>, run: seq<State>, n: nat)
    requires HeapOk(h) && Closed(h, live) && Run(h, z, run) && Start(h, z, live, run[0]) && n + 1 < |run|
    requires run[n].active > 0 && run[n + 1].active == 0
    ensures Quiet(run[n + 1]) && NothingLeft(h, run[n + 1])
  {
    var s, s' := run[n], run[n + 1];
    RunKeeps(h, z, live, run, n);
    RunKeeps(h, z, live, run, n + 1);
    LedInRun(h, z, live, run, n);
    LastActive(h, z, live, s, s');
    LastLeaves(z, s, s');
    InactiveQuiet(h, z, s');
  }

  lemma LastLeaves(z: Sizes, s: State, s': State)
    requires Bookkeeping(z, s) && Led(s) && s'.active == 0
    requires exists i: nat :: i < |s.helpers| && Recheck(s, s', i) && s'.helpers[i].pc.Waiting?
    ensures s'.firstNonempty == |s'.slots| && EmptyBelow(s', |s'.slots|)
  {
    var i: nat :| i < |s.helpers| && Recheck(s, s', i) && s'.helpers[i].pc.Waiting?;
    assert HelperOk(s, s.helpers[i]);
    if s.firstNonempty != |s.slots| {
      var k :| 0 <= k < |s.helpers| && Leads(s, s.helpers[k]);
      OnlyOneActive(s.helpers, i, k);
    }
  }

  lemma InactiveQuiet(h: Heap, z: Sizes, s: State)
    requires Bookkeeping(z, s) && s.active == 0 && s.firstNonempty == |s.slots| && EmptyBelow(s, |s.slots|)
    ensures Quiet(s) && NothingLeft(h, s)
  {
    forall k | 0 <= k < |s.helpers| ensures HelperQuiet(s, s.helpers[k]) && HelperWords(h, s.helpers[k]) == {} {
      CountZero(s.helpers, k);
      assert HelperOk(s, s.helpers[k]);
    }
  }

  /** Once there is no work there never is any again, and no mark is set. */
  lemma QuietKept(h: Heap, z: Sizes, live: set<Obj>, s: State, s': State)
    requires Inv(h, z, live, s) && Quiet(s) && Step(h, z, s, s')
    ensures Quiet(s') && s'.marked == s.marked && s'.slots == s.slots
  {
    hide NoWorkLost, OnlyLive, ControlStep, WorkStep;
    if StopHelp(s, s') {
      forall k | 0 <= k < |s'.helpers| ensures HelperQuiet(s', s'.helpers[k]) { assert HelperQuiet(s, s.helpers[k]); }
    } else {
      var i: nat :| i < |s.helpers| && (ControlStep(s, s', i) || WorkStep(h, z, s, s', i));
      assert HelperOk(s, s.helpers[i]) && HelperQuiet(s, s.helpers[i]);
      if ControlStep(s, s', i) {
        CountsUp(s.helpers);
        QuietControl(s, s', i);
        ControlMoves(s, s', i);
        QuietStep(s, s', i, s'.helpers[i]);
      } else {
        WorkWorks(h, z, s, s', i);
        assert false;
      }
    }
  }

  lemma {:induction false} QuietForGood(h: Heap, z: Sizes, live: set<Obj>, run: seq<State>, n: nat, m: nat)
    requires HeapOk(h) && Closed(h, live) && Run(h, z, run) && Inv(h, z, live, run[0]) && n <= m < |run| && Quiet(run[n])
    ensures Quiet(run[m]) && run[m].marked == run[n].marked && run[m].slots == run[n].slots
    decreases m
  {
    hide HeapOk, Inv, Quiet, Step;
    if n < m {
      QuietForGood(h, z, live, run, n, m - 1);
      InvInRun(h, z, live, run, m - 1);
      QuietKept(h, z, live, run[m - 1], run[m - 1 + 1]);
    }
  }

  lemma {:induction false} InvInRun(h: Heap, z: Sizes, live: set<Obj>, run: seq<State>, n: nat)
    requires HeapOk(h) && Closed(h, live) && Run(h, z, run) && Inv(h, z, live, run[0]) && n < |run|
    ensures Inv(h, z, live, run[n])
  {
    hide HeapOk, Inv, Step;
    if n > 0 {
      InvInRun(h, z, live, run, n - 1);
      StepKeeps(h, z, live, run[n - 1], run[n - 1 + 1]);
    }
  }

  // ----- Whether it rises again -----

  /** A thread has joined but not begun, or may still join. */
  ghost predicate SomeoneMayBegin(s: State) {
    exists k :: 0 <= k < |s.helpers| && (s.helpers[k].pc.Joined? || (s.helpWanted && s.helpers[k].pc.Idle?))
  }

  ghost predicate MayRise(h: Heap, z: Sizes, s: State) {
    exists run: seq<State> :: Run(h, z, run) && run[0] == s && run[|run| - 1].active > 0
  }

  lemma Rises(h: Heap, z: Sizes, s: State)
    requires s.active == 0 && SomeoneMayBegin(s)
    ensures MayRise(h, z, s)
  {
    var k: nat :| k < |s.helpers| && (s.helpers[k].pc.Joined? || (s.helpWanted && s.helpers[k].pc.Idle?));
    if s.helpers[k].pc.Joined? {
      var s1 := Begun(s, k);
      BeginStep(h, z, s, k);
      assert Run(h, z, [s, s1]) && [s, s1][0] == s;
    } else {
      var s1 := Move(s.(helperCount := s.helperCount + 1), k, s.helpers[k].(pc := Joined));
      var s2 := Begun(s1, k);
      BeginStep(h, z, s1, k);
      assert Join(s, s1, k);
      ControlIsStep(h, z, s, s1, k);
      assert Run(h, z, [s, s1, s2]) && [s, s1, s2][0] == s;
    }
  }

  ghost function Begun(s: State, k: nat): State
    requires k < |s.helpers|
  {
    Move(s.(active := s.active + 1), k, s.helpers[k].(pc := LoopTop, first := s.firstNonempty))
  }

  lemma ControlIsStep(h: Heap, z: Sizes, s: State, s': State, i: nat)
    requires i < |s.helpers| && ControlStep(s, s', i)
    ensures Step(h, z, s, s')
  {
    hide ControlStep, WorkStep, StopHelp;
  }

  lemma BeginStep(h: Heap, z: Sizes, s: State, k: nat)
    requires k < |s.helpers| && s.helpers[k].pc.Joined?
    ensures Step(h, z, s, Begun(s, k))
  {
    assert Activate(s, Begun(s, k), k);
    ControlIsStep(h, z, s, Begun(s, k), k);
  }

  lemma StaysZero(h: Heap, z: Sizes, live: set<Obj>, s: State, s': State)
    requires Inv(h, z, live, s) && Quiet(s) && s.active == 0 && !SomeoneMayBegin(s) && Step(h, z, s, s')
    ensures s'.active == 0 && !SomeoneMayBegin(s')
  {
    hide NoWorkLost, OnlyLive, ControlStep, WorkStep;
    if !StopHelp(s, s') {
      var i: nat :| i < |s.helpers| && (ControlStep(s, s', i) || WorkStep(h, z, s, s', i));
      CountZero(s.helpers, i);
      if WorkStep(h, z, s, s', i) {
        WorkWorks(h, z, s, s', i);
        assert false;
      }
      JustLeaves(s, s', i);
    }
  }

  lemma JustLeaves(s: State, s': State, i: nat)
    requires i < |s.helpers| && ControlStep(s, s', i) && !IsActive(s.helpers[i]) && s.firstNonempty == |s.slots| && !SomeoneMayBegin(s)
    ensures s'.active == s.active && !SomeoneMayBegin(s')
  {
    assert Exit(s, s', i);
  }

  lemma {:induction false} StaysZeroInRun(h: Heap, z: Sizes, live: set<Obj>, run: seq<State>, n: nat)
    requires HeapOk(h) && Closed(h, live) && Run(h, z, run) && Inv(h, z, live, run[0]) && n < |run|
    requires Quiet(run[0]) && run[0].active == 0 && !SomeoneMayBegin(run[0])
    ensures run[n].active == 0 && !SomeoneMayBegin(run[n])
  {
    hide HeapOk, Inv, Quiet, Step, SomeoneMayBegin;
    if n > 0 {
      StaysZeroInRun(h, z, live, run, n - 1);
      InvInRun(h, z, live, run, n - 1);
      QuietForGood(h, z, live, run, 0, n - 1);
      StaysZero(h, z, live, run[n - 1], run[n - 1 + 1]);
    }
  }

  /** From a state without active threads and without work, the number of active threads can
      rise again if and only if a thread has yet to begin, or may still join. */
  lemma RisesIff(h: Heap, z: Sizes, live: set<Obj>, s: State)
    requires HeapOk(h) && Closed(h, live) && Inv(h, z, live, s) && Quiet(s) && s.active == 0
    ensures MayRise(h, z, s) <==> SomeoneMayBegin(s)
  {
    hide HeapOk, Inv, Quiet, Step, SomeoneMayBegin;
    if SomeoneMayBegin(s) {
      Rises(h, z, s);
    } else if run: seq<State> :| Run(h, z, run) && run[0] == s && run[|run| - 1].active > 0 {
      StaysZeroInRun(h, z, live, run, |run| - 1);
      assert false;
    }
  }

  /** The same in any run in which the number has come back to 0. */
  lemma RisesAgainIff(h: Heap, z: Sizes, live: set<Obj>, run: seq<State>, n: nat)
    requires HeapOk(h) && Closed(h, live) && Run(h, z, run) && Start(h, z, live, run[0]) && n + 1 < |run|
    requires run[n].active > 0 && run[n + 1].active == 0
    ensures MayRise(h, z, run[n + 1]) <==> SomeoneMayBegin(run[n + 1])
  {
    hide HeapOk, Inv, Quiet, Step, SomeoneMayBegin, Start, MayRise, NoWorkLost, OnlyLive;
    NoneActiveMeansDone(h, z, live, run, n);
    RunKeeps(h, z, live, run, n + 1);
    RisesIff(h, z, live, run[n + 1]);
  }

  ghost function Gone(s: State, i: nat): State
    requires i < |s.helpers|
  {
    Move(s.(helperCount := s.helperCount - 1), i, s.helpers[i].(pc := Exited))
  }

  /** The thread that has become inactive last leaves before it gives up the lock.  That does not
      change whether the number can rise. */
  lemma LeavingFirst(h: Heap, z: Sizes, live: set<Obj>, s: State, i: nat)
    requires HeapOk(h) && Closed(h, live) && Inv(h, z, live, s) && Quiet(s) && s.active == 0
    requires i < |s.helpers| && s.helpers[i].pc.Waiting?
    ensures Step(h, z, s, Gone(s, i)) && (MayRise(h, z, Gone(s, i)) <==> MayRise(h, z, s))
  {
    hide HeapOk, Step, MayRise, NoWorkLost, OnlyLive, WorkStep;
    var s' := Gone(s, i);
    assert Exit(s, s', i);
    ControlIsStep(h, z, s, s', i);
    StepKeeps(h, z, live, s, s');
    QuietKept(h, z, live, s, s');
    SameBeginners(s, s', i);
    RisesIff(h, z, live, s);
    RisesIff(h, z, live, s');
  }

  lemma SameBeginners(s: State, s': State, i: nat)
    requires Exit(s, s', i)
    ensures SomeoneMayBegin(s') <==> SomeoneMayBegin(s)
  {
    if k: nat :| k < |s.helpers| && (s.helpers[k].pc.Joined? || (s.helpWanted && s.helpers[k].pc.Idle?)) {
      assert s'.helpers[k] == s.helpers[k];
    }
    if k: nat :| k < |s'.helpers| && (s'.helpers[k].pc.Joined? || (s'.helpWanted && s'.helpers[k].pc.Idle?)) {
      assert s'.helpers[k] == s.helpers[k];
    }
  }

  // ----- A run in which it does -----

  /** One root range is on the stack; its only word points to no object. */
  ghost predicate OneRoot(h: Heap, e: Entry) {
    h.rootRanges == [e] && e.descr == Length(1) && e.start !in h.memory
  }

  function Before(e: Entry, count: int, active: int, t: Helper, u: Helper): State {
    State([Slot(true, e)], 0, false, active, count, true, {}, [t, u])
  }

  function After(e: Entry, first: nat, count: int, active: int, t: Helper, u: Helper): State {
    State([Slot(false, e)], first, false, active, count, true, {}, [t, u])
  }

  function Other(): Helper { Helper(Joined, 0, []) }

  /** The states until the entry has been taken, from then on until the first thread is inactive
      and has left, and the one in which the second thread has begun. */
  ghost function RunOfTwo(e: Entry): seq<State> {
    [Before(e, 1, 0, Helper(Joined, 0, []), Helper(Idle, 0, [])),
     Before(e, 2, 0, Helper(Joined, 0, []), Other()),
     Before(e, 2, 1, Helper(LoopTop, 0, []), Other()),
     Before(e, 2, 1, Helper(Compare(0), 0, []), Other()),
     Before(e, 2, 1, Helper(ReadTop, 0, []), Other()),
     Before(e, 2, 1, Helper(Found(0, 1, 0, 1), 0, []), Other()),
     Before(e, 2, 1, Helper(Stealing(0, 1, 0, 1), 0, []), Other()),
     After(e, 0, 2, 1, Helper(Found(1, 1, 1, 1), 0, [e]), Other()),
     After(e, 0, 2, 1, Helper(Marking, 1, [e]), Other()),
     After(e, 0, 2, 1, Helper(Scanning({e.start}), 1, []), Other()),
     After(e, 0, 2, 1, Helper(Scanning({}), 1, []), Other()),
     After(e, 0, 2, 1, Helper(Marking, 1, []), Other()),
     After(e, 0, 2, 1, Helper(LoopTop, 1, []), Other()),
     After(e, 0, 2, 1, Helper(Compare(0), 1, []), Other()),
     After(e, 1, 2, 1, Helper(ReadTop, 1, []), Other()),
     After(e, 1, 2, 1, Helper(WantLock, 1, []), Other()),
     After(e, 1, 2, 0, Helper(Waiting, 1, []), Other()),
     After(e, 1, 1, 0, Helper(Exited, 1, []), Other()),
     After(e, 1, 1, 1, Helper(Exited, 1, []), Helper(LoopTop, 1, []))]
  }

  lemma FirstSteps(h: Heap, z: Sizes, e: Entry, n: nat)
    requires n < 5
    ensures Step(h, z, RunOfTwo(e)[n], RunOfTwo(e)[n + 1])
  {
    hide WorkStep, StopHelp;
    var s, s' := RunOfTwo(e)[n], RunOfTwo(e)[n + 1];
    assert ControlStep(s, s', if n == 0 then 1 else 0) by {
      assert n == 0 ==> Join(s, s', 1);
      assert n == 1 ==> Activate(s, s', 0);
      assert n == 2 ==> ReadFirst(s, s', 0);
      assert n == 3 ==> CompareFirst(s, s', 0);
      assert n == 4 ==> LoadTop(s, s', 0);
    }
    ControlIsStep(h, z, s, s', if n == 0 then 1 else 0);
  }

  lemma WorkIsStep(h: Heap, z: Sizes, s: State, s': State)
    requires 0 < |s.helpers| && WorkStep(h, z, s, s', 0)
    ensures Step(h, z, s, s')
  {
    hide ControlStep, WorkStep, StopHelp;
  }

  lemma StealSteps(h: Heap, z: Sizes, e: Entry, n: nat)
    requires OneRoot(h, e) && 5 <= n < 8
    ensures Step(h, z, RunOfTwo(e)[n], RunOfTwo(e)[n + 1])
  {
    hide ControlStep, StopHelp;
    var s, s' := RunOfTwo(e)[n], RunOfTwo(e)[n + 1];
    assert WorkStep(h, z, s, s', 0) by {
      assert [] + [e] == [e];
      assert n == 5 ==> LoadDescr(s, s', 0);
      assert n == 6 ==> TakeEntry(s, s', 0);
      assert n == 7 ==> LoadDescr(s, s', 0);
    }
    WorkIsStep(h, z, s, s');
  }

  lemma MarkSteps(h: Heap, z: Sizes, e: Entry, n: nat)
    requires OneRoot(h, e) && 8 <= n < 12
    ensures Step(h, z, RunOfTwo(e)[n], RunOfTwo(e)[n + 1])
  {
    hide ControlStep, StopHelp;
    var s, s' := RunOfTwo(e)[n], RunOfTwo(e)[n + 1];
    assert WorkStep(h, z, s, s', 0) by {
      assert WordsOf(e) == {e.start} && [e][..0] == [] && {e.start} - {e.start} == {};
      assert n == 8 ==> PopTop(s, s', 0);
      assert n == 9 ==> LookAt(h, s, s', 0, e.start);
      assert n == 10 ==> ScanDone(s, s', 0);
      assert n == 11 ==> LocalDone(s, s', 0);
    }
    WorkIsStep(h, z, s, s');
  }

  lemma LastSteps(h: Heap, z: Sizes, e: Entry, n: nat)
    requires 12 <= n < 18
    ensures Step(h, z, RunOfTwo(e)[n], RunOfTwo(e)[n + 1])
  {
    hide WorkStep, StopHelp;
    var s, s' := RunOfTwo(e)[n], RunOfTwo(e)[n + 1];
    assert ControlStep(s, s', if n == 17 then 1 else 0) by {
      assert n == 12 ==> ReadFirst(s, s', 0);
      assert n == 13 ==> CompareFirst(s, s', 0);
      assert n == 14 ==> LoadTop(s, s', 0);
      assert n == 15 ==> Recheck(s, s', 0);
      assert n == 16 ==> Exit(s, s', 0);
      assert n == 17 ==> Activate(s, s', 1);
    }
    ControlIsStep(h, z, s, s', if n == 17 then 1 else 0);
  }

  lemma RootIsPending(h: Heap, z: Sizes, e: Entry)
    requires OneRoot(h, e) && SizesOk(z) && z.capacity > 0
    ensures Start(h, z, {}, RunOfTwo(e)[0])
  {
    var s := RunOfTwo(e)[0];
    assert WordsOf(e) == {e.start};
    assert [e][..0] == [] && PendingWords([e]) == PendingWords([]) + WordsOf(e);
  }

  /** The number of active threads goes back to 0, and rises when the thread that was last has left. */
  ghost predicate FallsAndRises(run: seq<State>) {
    && |run| == 19 && run[15].active == 1 && run[16].active == 0 && run[17].active == 0 && run[18].active == 1
    && run[17].helpers == [Helper(Exited, 1, []), Other()]
  }

  /** The root range has been marked from and the number of active threads is back at 0.  It rises
      again: a thread that was counted as a helper early starts when the first one has left. */
  lemma ActiveMayRiseAgain(h: Heap, z: Sizes, e: Entry) returns (run: seq<State>)
    requires OneRoot(h, e) && SizesOk(z) && z.capacity > 0
    ensures Run(h, z, run) && Start(h, z, {}, run[0]) && run[0].slots == [Slot(true, e)]
    ensures FallsAndRises(run)
  {
    hide Step, Start, OneRoot;
    RootIsPending(h, z, e);
    run := RunOfTwo(e);
    forall n: nat | n < |run| - 1 ensures Step(h, z, run[n], run[n + 1]) {
      if n < 5 { FirstSteps(h, z, e, n); }
      else if n < 8 { StealSteps(h, z, e, n); }
      else if n < 12 { MarkSteps(h, z, e, n); }
      else { LastSteps(h, z, e, n); }
    }
  }
}

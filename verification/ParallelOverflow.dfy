/** When a parallel mark run becomes invalid, told by the heights of the stacks, and that no
    state of a run is stuck. */
module ParallelOverflow {
  import opened ObjectGraph
  import opened ParallelMark

  // ----- What makes a state invalid -----

  /** Thread k pushes an object with pointers although its stack holds as many entries as it can. */
  ghost predicate PushesTooMany(h: Heap, z: Sizes, s: State, s': State, k: nat)
    requires k < |s.helpers| == |s'.helpers|
  {
    var t := s.helpers[k];
    && t.pc.Pushing? && t.pc.t in Objects(h) && DescrOf(h, t.pc.t) != Length(0)
    && s'.helpers[k].pc.Scanning? && |t.stack| >= z.localSize
  }

  /** Thread k, between two entries, gives back more entries than there is room for on the global stack. */
  ghost predicate GivesBackTooMany(z: Sizes, s: State, s': State, k: nat)
    requires k < |s.helpers| == |s'.helpers|
  {
    var t, t' := s.helpers[k], s'.helpers[k];
    && t.pc.Marking? && !t'.pc.Scanning? && |t'.stack| < |t.stack|
    && |t.stack| - |t'.stack| > z.capacity - |s.slots|
  }

  ghost predicate SomeStackFull(h: Heap, z: Sizes, s: State, s': State)
    requires |s.helpers| == |s'.helpers|
  {
    exists k :: 0 <= k < |s.helpers| && (PushesTooMany(h, z, s, s', k) || GivesBackTooMany(z, s, s', k))
  }

  /** Only thread i moves, so only for it there can be no room. */
  lemma OnlyMover(h: Heap, z: Sizes, s: State, s': State, i: nat)
    requires i < |s.helpers| == |s'.helpers| && s'.helpers == s.helpers[i := s'.helpers[i]]
    ensures SomeStackFull(h, z, s, s') <==> PushesTooMany(h, z, s, s', i) || GivesBackTooMany(z, s, s', i)
  {
    forall k | 0 <= k < |s.helpers| && k != i ensures !PushesTooMany(h, z, s, s', k) && !GivesBackTooMany(z, s, s', k) {
      assert s'.helpers[k] == s.helpers[k];
    }
  }

  lemma ControlInvalid(h: Heap, z: Sizes, s: State, s': State, i: nat)
    requires ControlStep(s, s', i)
    ensures |s'.helpers| == |s.helpers| && s'.invalid == s.invalid && !SomeStackFull(h, z, s, s')
  {
    hide SomeStackFull;
    OnlyMover(h, z, s, s', i);
  }

  lemma StackInvalid(h: Heap, z: Sizes, s: State, s': State, i: nat)
    requires LoadDescr(s, s', i) || TakeEntry(s, s', i) || DivideTop(z, s, s', i) || PopTop(s, s', i)
    ensures |s'.helpers| == |s.helpers| && s'.invalid == s.invalid && !SomeStackFull(h, z, s, s')
  {
    hide SomeStackFull, Covers;
    OnlyMover(h, z, s, s', i);
  }

  lemma ScanInvalid(h: Heap, z: Sizes, s: State, s': State, i: nat)
    requires (exists a :: LookAt(h, s, s', i, a)) || SetMark(h, s, s', i) || ScanDone(s, s', i) || LocalDone(s, s', i)
    ensures |s'.helpers| == |s.helpers| && s'.invalid == s.invalid && !SomeStackFull(h, z, s, s')
  {
    hide SomeStackFull, Covers;
    OnlyMover(h, z, s, s', i);
  }

  lemma PushInvalid(h: Heap, z: Sizes, s: State, s': State, i: nat)
    requires PushMarked(h, z, s, s', i)
    ensures |s'.helpers| == |s.helpers| && (s'.invalid <==> s.invalid || SomeStackFull(h, z, s, s'))
  {
    hide SomeStackFull;
    OnlyMover(h, z, s, s', i);
  }

  lemma ReturnInvalid(h: Heap, z: Sizes, s: State, s': State, i: nat)
    requires ReturnAll(z, s, s', i) || ShareHalf(z, s, s', i)
    ensures |s'.helpers| == |s.helpers| && (s'.invalid <==> s.invalid || SomeStackFull(h, z, s, s'))
  {
    hide SomeStackFull;
    OnlyMover(h, z, s, s', i);
  }

  /** A step makes a valid state invalid exactly if a thread finds no room for what it pushes or gives back. */
  lemma InvalidStep(h: Heap, z: Sizes, s: State, s': State)
    requires Step(h, z, s, s')
    ensures |s'.helpers| == |s.helpers| && (s'.invalid <==> s.invalid || SomeStackFull(h, z, s, s'))
  {
    hide ControlStep, PushMarked, ReturnAll, ShareHalf, SomeStackFull, LookAt, SetMark, ScanDone, LocalDone, LoadDescr, TakeEntry, DivideTop, PopTop;
    if StopHelp(s, s') {
      OnlyMover(h, z, s, s', 0);
    } else {
      var i: nat :| i < |s.helpers| && (ControlStep(s, s', i) || WorkStep(h, z, s, s', i));
      if ControlStep(s, s', i) { ControlInvalid(h, z, s, s', i); }
      else if PushMarked(h, z, s, s', i) { PushInvalid(h, z, s, s', i); }
      else if ReturnAll(z, s, s', i) || ShareHalf(z, s, s', i) { ReturnInvalid(h, z, s, s', i); }
      else if LoadDescr(s, s', i) || TakeEntry(s, s', i) || DivideTop(z, s, s', i) || PopTop(s, s', i) { StackInvalid(h, z, s, s', i); }
      else { ScanInvalid(h, z, s, s', i); }
    }
  }

  /** Some step before the n-th state finds no room. */
  ghost predicate NoRoomBefore(h: Heap, z: Sizes, run: seq<State>, n: nat)
    requires n < |run|
  {
    exists m :: 0 <= m < n && |run[m].helpers| == |run[m + 1].helpers| && SomeStackFull(h, z, run[m], run[m + 1])
  }

  ghost predicate SomeReturnFails(z: Sizes, s: State, s': State) {
    |s'.helpers| == |s.helpers| && exists k :: 0 <= k < |s.helpers| && GivesBackTooMany(z, s, s', k)
  }

  /** Some entries given back did not fit on the global stack. */
  ghost predicate EntriesDropped(z: Sizes, run: seq<State>) {
    exists m :: 0 <= m < |run| - 1 && SomeReturnFails(z, run[m], run[m + 1])
  }

  lemma DroppedInvalid(h: Heap, z: Sizes, run: seq<State>)
    requires Run(h, z, run) && !run[0].invalid && EntriesDropped(z, run)
    ensures run[|run| - 1].invalid
  {
    hide Step, GivesBackTooMany;
    var m :| 0 <= m < |run| - 1 && SomeReturnFails(z, run[m], run[m + 1]);
    assert SomeStackFull(h, z, run[m], run[m + 1]);
    InvalidIff(h, z, run, |run| - 1);
  }

  /** In a run that starts valid, a state is invalid if and only if at some earlier step a thread has pushed an
      object with pointers onto a full stack, or has given back more entries than fit. */
  lemma {:induction false} InvalidIff(h: Heap, z: Sizes, run: seq<State>, n: nat)
    requires Run(h, z, run) && n < |run| && !run[0].invalid
    ensures run[n].invalid <==> NoRoomBefore(h, z, run, n)
  {
    hide Step, SomeStackFull;
    if n > 0 {
      InvalidIff(h, z, run, n - 1);
      InvalidStep(h, z, run[n - 1], run[n - 1 + 1]);
      if m :| 0 <= m < n - 1 && |run[m].helpers| == |run[m + 1].helpers| && SomeStackFull(h, z, run[m], run[m + 1]) {
        assert NoRoomBefore(h, z, run, n);
      }
      if m :| 0 <= m < n && |run[m].helpers| == |run[m + 1].helpers| && SomeStackFull(h, z, run[m], run[m + 1]) && m != n - 1 {
        assert NoRoomBefore(h, z, run, n - 1);
      }
    }
  }

  /** A push onto a full stack makes room by giving up the entries on top. */
  lemma PushHeight(h: Heap, z: Sizes, s: State, s': State, i: nat)
    requires PushMarked(h, z, s, s', i) && SizesOk(z) && DescrOf(h, s.helpers[i].pc.t) != Length(0)
    ensures |s'.helpers| == |s.helpers|
    ensures var stack, stack' := s.helpers[i].stack, s'.helpers[i].stack; var kept := |stack'| - 1;
      && kept >= 0 && stack' == stack[..kept] + [Entry(s.helpers[i].pc.t, DescrOf(h, s.helpers[i].pc.t))]
      && kept == if |stack| < z.localSize then |stack| else z.localSize - z.discards
  {
  }

  // ----- What a thread may do besides marking -----

  /** The first n entries of thread i's stack have gone to the end of the global stack. */
  ghost predicate GaveBack(s: State, s': State, i: nat, n: nat)
    requires i < |s.helpers| == |s'.helpers| && n <= |s.helpers[i].stack|
  {
    && |s'.slots| == |s.slots| + n && s'.slots[..|s.slots|] == s.slots && s'.helpers[i].stack == s.helpers[i].stack[n..]
    && forall j :: 0 <= j < n ==> s'.slots[|s.slots| + j] == Slot(true, s.helpers[i].stack[j])
  }

  /** Thread i can give back n entries and go on at pc. */
  ghost predicate MayGiveBack(h: Heap, z: Sizes, s: State, i: nat, n: nat, pc: Pc)
    requires i < |s.helpers| && n <= |s.helpers[i].stack|
  {
    exists s' :: Step(h, z, s, s') && |s'.helpers| == |s.helpers| && s'.helpers[i].pc == pc && s'.invalid == s.invalid && GaveBack(s, s', i, n)
  }

  lemma GivesBack(h: Heap, z: Sizes, s: State, s': State, i: nat, n: nat)
    requires i < |s.helpers| && n <= |s.helpers[i].stack| && |s.slots| + n <= z.capacity
    requires |s'.helpers| == |s.helpers| && s'.helpers[i].stack == s.helpers[i].stack[n..]
    requires |Returned(z, s, s.helpers[i], n).helpers| == |s.helpers| && s' == Move(Returned(z, s, s.helpers[i], n), i, s'.helpers[i])
    requires WorkStep(h, z, s, s', i)
    ensures MayGiveBack(h, z, s, i, n, s'.helpers[i].pc)
  {
    hide WorkStep, ControlStep;
    assert Step(h, z, s, s') && GaveBack(s, s', i, n);
  }

  /** Between two entries a thread whose stack is more than half full can give back all of it, and one with more
      than two entries the lower half, if there is room; an idle one can join while help is wanted. */
  lemma MayShare(h: Heap, z: Sizes, s: State, i: nat)
    requires i < |s.helpers|
    ensures var t := s.helpers[i]; var n := |t.stack|;
      t.pc.Marking? && n > z.localSize / 2 && n <= z.capacity - |s.slots| ==> MayGiveBack(h, z, s, i, n, LoopTop)
    ensures var t := s.helpers[i]; var n := |t.stack|;
      t.pc.Marking? && n > 2 && (n - 1) / 2 <= z.capacity - |s.slots| ==> MayGiveBack(h, z, s, i, (n - 1) / 2, Marking)
    ensures s.helpers[i].pc.Idle? && s.helpWanted ==> CanMove(h, z, s, i)
  {
    hide MayGiveBack, Returned;
    var t := s.helpers[i]; var n := |t.stack|;
    if t.pc.Marking? && n > z.localSize / 2 && n <= z.capacity - |s.slots| {
      SameHelpers(z, s, t, n);
      var s' := Move(Returned(z, s, t, n), i, t.(pc := LoopTop, stack := []));
      assert ReturnAll(z, s, s', i);
      GivesBack(h, z, s, s', i, n);
    }
    if t.pc.Marking? && n > 2 && (n - 1) / 2 <= z.capacity - |s.slots| {
      SameHelpers(z, s, t, (n - 1) / 2);
      var s' := Move(Returned(z, s, t, (n - 1) / 2), i, t.(stack := t.stack[(n - 1) / 2..]));
      assert ShareHalf(z, s, s', i);
      GivesBack(h, z, s, s', i, (n - 1) / 2);
    }
    if t.pc.Idle? && s.helpWanted {
      var s' := Move(s.(helperCount := s.helperCount + 1), i, t.(pc := Joined));
      assert s'.helpers[i] != t;
      assert Join(s, s', i);
      Moves(h, z, s, s', i);
    }
  }

  lemma SameHelpers(z: Sizes, s: State, t: Helper, n: nat)
    requires n <= |t.stack|
    ensures Returned(z, s, t, n).helpers == s.helpers
  {
  }

  // ----- No state is stuck -----

  /** Thread i can take a step. */
  ghost predicate CanMove(h: Heap, z: Sizes, s: State, i: nat)
    requires i < |s.helpers|
  {
    exists s' :: s' != s && (ControlStep(s, s', i) || WorkStep(h, z, s, s', i))
  }

  lemma Moves(h: Heap, z: Sizes, s: State, s': State, i: nat)
    requires i < |s.helpers| && s' != s && (ControlStep(s, s', i) || WorkStep(h, z, s, s', i))
    ensures CanMove(h, z, s, i)
  {
    hide ControlStep, WorkStep;
  }

  lemma ControlCanMove(h: Heap, z: Sizes, s: State, i: nat)
    requires i < |s.helpers| && HelperOk(s, s.helpers[i]) && s.firstNonempty <= |s.slots|
    requires var pc := s.helpers[i].pc; pc.Joined? || pc.LoopTop? || pc.Compare? || pc.ReadTop? || pc.WantLock?
    ensures CanMove(h, z, s, i)
  {
    hide CanMove;
    var t, n := s.helpers[i], |s.slots|;
    match t.pc
    case Joined =>
      var s' := Move(s.(active := s.active + 1), i, t.(pc := LoopTop, first := s.firstNonempty));
      assert s'.helpers[i] != t;
      assert Activate(s, s', i);
      Moves(h, z, s, s', i);
    case LoopTop =>
      var s' := Move(s, i, t.(pc := Compare(s.firstNonempty)));
      assert s'.helpers[i] != t;
      assert ReadFirst(s, s', i);
      Moves(h, z, s, s', i);
    case Compare(seen) =>
      var s' := if t.first < seen then Move(s, i, t.(pc := ReadTop, first := seen))
             else if seen < t.first && s.firstNonempty == seen then Move(s.(firstNonempty := t.first), i, t.(pc := ReadTop))
             else Move(s, i, t.(pc := ReadTop));
      assert s'.helpers[i] != t;
      assert CompareFirst(s, s', i);
      Moves(h, z, s, s', i);
    case ReadTop =>
      var s' := Move(s, i, t.(pc := if n == t.first then WantLock else Found(t.first, n, 0, Quota(n - t.first))));
      assert s'.helpers[i] != t;
      assert LoadTop(s, s', i);
      Moves(h, z, s, s', i);
    case WantLock =>
      var s' := if n == t.first then Move(s.(active := s.active - 1), i, t.(pc := Waiting))
                else Move(s, i, t.(pc := Found(t.first, n, 0, Quota(n - t.first))));
      assert s'.helpers[i] != t;
      assert Recheck(s, s', i);
      Moves(h, z, s, s', i);
  }

  lemma StealCanMove(h: Heap, z: Sizes, s: State, i: nat)
    requires i < |s.helpers| && HelperOk(s, s.helpers[i]) && (s.helpers[i].pc.Found? || s.helpers[i].pc.Stealing?)
    ensures CanMove(h, z, s, i)
  {
    hide CanMove;
    var t := s.helpers[i]; var pc := t.pc;
    if pc.Stealing? {
      var e := s.slots[pc.p].entry;
      var s' := Move(s.(slots := s.slots[pc.p := Slot(false, e)]), i, t.(pc := Found(pc.p + 1, pc.end, pc.taken + Cost(e), pc.max), stack := t.stack + [e]));
      assert s'.helpers[i] != t;
      assert TakeEntry(s, s', i);
      Moves(h, z, s, s', i);
    } else if pc.p == pc.end || pc.taken > pc.max {
      var s' := Move(s, i, t.(pc := Marking, first := pc.p));
      assert s'.helpers[i] != t;
      assert LoadDescr(s, s', i);
      Moves(h, z, s, s', i);
    } else {
      var s' := Move(s, i, t.(pc := if s.slots[pc.p].full then Stealing(pc.p, pc.end, pc.taken, pc.max)
                                      else Found(pc.p + 1, pc.end, pc.taken, pc.max)));
      assert s'.helpers[i] != t;
      assert LoadDescr(s, s', i);
      Moves(h, z, s, s', i);
    }
  }

  lemma MarkingCanMove(h: Heap, z: Sizes, s: State, i: nat)
    requires i < |s.helpers| && s.helpers[i].pc.Marking?
    ensures CanMove(h, z, s, i)
  {
    hide CanMove;
    var t := s.helpers[i];
    if t.stack == [] {
      var s' := Move(s, i, t.(pc := LoopTop));
      assert s'.helpers[i] != t;
      assert LocalDone(s, s', i);
      Moves(h, z, s, s', i);
    } else {
      var s' := Move(s, i, Popped(t));
      assert s'.helpers[i] != t;
      assert PopTop(s, s', i);
      Moves(h, z, s, s', i);
    }
  }

  /** Where the object that a thread is about to mark or to push is. */
  ghost predicate Aimed(h: Heap, t: Helper) {
    && (t.pc.Unmarked? ==> t.pc.a in h.memory)
    && (t.pc.Pushing? ==> t.pc.t in Objects(h))
  }

  lemma ScanCanMove(h: Heap, z: Sizes, s: State, i: nat)
    requires i < |s.helpers| && Aimed(h, s.helpers[i])
    requires var pc := s.helpers[i].pc; pc.Scanning? || pc.Unmarked? || pc.Pushing?
    ensures CanMove(h, z, s, i)
  {
    hide CanMove;
    var t := s.helpers[i];
    match t.pc
    case Scanning(todo) =>
      if todo == {} {
        var s' := Move(s, i, t.(pc := Marking));
        assert s'.helpers[i] != t;
        assert ScanDone(s, s', i);
        Moves(h, z, s, s', i);
      } else {
        var a :| a in todo;
        var s' := if a in h.memory && h.memory[a] !in s.marked then Move(s, i, t.(pc := Unmarked(a, todo)))
             else Move(s, i, t.(pc := Scanning(todo - {a})));
        assert s'.helpers[i] != t;
        assert LookAt(h, s, s', i, a);
        Moves(h, z, s, s', i);
      }
    case Unmarked(a, todo) =>
      var s' := Move(s.(marked := s.marked + {h.memory[a]}), i, t.(pc := Pushing(h.memory[a], todo - {a})));
      assert s'.helpers[i] != t;
      assert SetMark(h, s, s', i);
      Moves(h, z, s, s', i);
    case Pushing(o, todo) =>
      var s' := Move(s.(invalid := s.invalid || Overflows(h, z, t)), i, Pushed(h, z, t));
      assert s'.helpers[i] != t;
      assert PushMarked(h, z, s, s', i);
      Moves(h, z, s, s', i);
  }

  /** A waiting thread can leave when nobody is active, and go on when there may be entries. */
  lemma WaitingCanMove(h: Heap, z: Sizes, s: State, i: nat)
    requires i < |s.helpers| && s.helpers[i].pc.Waiting?
    ensures CanMove(h, z, s, i) <==> s.firstNonempty < |s.slots| || s.active == 0
  {
    hide CanMove;
    var t := s.helpers[i];
    if s.firstNonempty < |s.slots| {
      var s' := Move(s.(active := s.active + 1), i, t.(pc := LoopTop));
      assert s'.helpers[i] != t;
      assert Wake(s, s', i);
      Moves(h, z, s, s', i);
    } else if s.active == 0 {
      var s' := Move(s.(helperCount := s.helperCount - 1), i, t.(pc := Exited));
      assert s'.helpers[i] != t;
      assert Exit(s, s', i);
      Moves(h, z, s, s', i);
    } else {
      Waits(h, z, s, i);
    }
  }

  lemma Waits(h: Heap, z: Sizes, s: State, i: nat)
    requires i < |s.helpers| && s.helpers[i].pc.Waiting? && s.firstNonempty >= |s.slots| && s.active != 0
    ensures !CanMove(h, z, s, i)
  {
  }

  lemma CanMoveIsStep(h: Heap, z: Sizes, s: State, i: nat)
    requires i < |s.helpers| && CanMove(h, z, s, i)
    ensures exists s' :: s' != s && Step(h, z, s, s')
  {
    hide ControlStep, WorkStep;
    var s' :| s' != s && (ControlStep(s, s', i) || WorkStep(h, z, s, s', i));
    assert Step(h, z, s, s');
  }

  ghost predicate AllAimed(h: Heap, s: State) {
    |s.helpers| > 0 && !s.helpers[0].pc.Idle? && forall k :: 0 <= k < |s.helpers| ==> Aimed(h, s.helpers[k])
  }

  lemma AimedControl(h: Heap, s: State, s': State, i: nat)
    requires i < |s.helpers| && ControlStep(s, s', i)
    ensures |s'.helpers| == |s.helpers| && s'.helpers == s.helpers[i := s'.helpers[i]]
    ensures Aimed(h, s'.helpers[i]) && !s'.helpers[i].pc.Idle?
  {
    hide Objects;
  }

  lemma AimedStack(h: Heap, z: Sizes, s: State, s': State, i: nat)
    requires LoadDescr(s, s', i) || TakeEntry(s, s', i) || DivideTop(z, s, s', i) || PopTop(s, s', i) || ReturnAll(z, s, s', i) || ShareHalf(z, s, s', i)
    ensures i < |s.helpers| == |s'.helpers| && s'.helpers == s.helpers[i := s'.helpers[i]]
    ensures Aimed(h, s'.helpers[i]) && !s'.helpers[i].pc.Idle?
  {
    hide Objects, Covers;
  }

  lemma AimedScan(h: Heap, z: Sizes, s: State, s': State, i: nat)
    requires forall a :: a in h.memory ==> h.memory[a] in Objects(h)
    requires (exists a :: LookAt(h, s, s', i, a)) || SetMark(h, s, s', i) || PushMarked(h, z, s, s', i) || ScanDone(s, s', i) || LocalDone(s, s', i)
    ensures i < |s.helpers| == |s'.helpers| && s'.helpers == s.helpers[i := s'.helpers[i]]
    ensures Aimed(h, s'.helpers[i]) && !s'.helpers[i].pc.Idle?
  {
    hide Objects, DescrOf;
  }

  lemma AimedWork(h: Heap, z: Sizes, s: State, s': State, i: nat)
    requires HeapOk(h) && WorkStep(h, z, s, s', i)
    ensures i < |s.helpers| == |s'.helpers| && s'.helpers == s.helpers[i := s'.helpers[i]]
    ensures Aimed(h, s'.helpers[i]) && !s'.helpers[i].pc.Idle?
  {
    hide Objects, Aimed, HeapOk, LookAt, SetMark, ScanDone, LocalDone, LoadDescr, TakeEntry, DivideTop, PopTop, PushMarked, ReturnAll, ShareHalf;
    ObjectsBehind(h);
    if LoadDescr(s, s', i) || TakeEntry(s, s', i) || DivideTop(z, s, s', i) || PopTop(s, s', i) || ReturnAll(z, s, s', i) || ShareHalf(z, s, s', i) {
      AimedStack(h, z, s, s', i);
    } else {
      AimedScan(h, z, s, s', i);
    }
  }

  lemma AimedStep(h: Heap, z: Sizes, s: State, s': State)
    requires HeapOk(h) && Step(h, z, s, s') && AllAimed(h, s)
    ensures AllAimed(h, s')
  {
    hide ControlStep, WorkStep, HeapOk;
    if StopHelp(s, s') {
      assert s'.helpers == s.helpers;
    } else {
      var i: nat :| i < |s.helpers| && (ControlStep(s, s', i) || WorkStep(h, z, s, s', i));
      if ControlStep(s, s', i) { AimedControl(h, s, s', i); } else { AimedWork(h, z, s, s', i); }
      forall k | 0 <= k < |s'.helpers| && k != i ensures s'.helpers[k] == s.helpers[k] { }
    }
  }

  lemma ObjectsBehind(h: Heap)
    requires HeapOk(h)
    ensures forall a :: a in h.memory ==> h.memory[a] in Objects(h)
  {
  }

  lemma {:induction false} AimedInRun(h: Heap, z: Sizes, live: set<Obj>, run: seq<State>, n: nat)
    requires HeapOk(h) && Run(h, z, run) && Start(h, z, live, run[0]) && n < |run|
    ensures AllAimed(h, run[n])
  {
    hide Step, HeapOk;
    if n > 0 {
      AimedInRun(h, z, live, run, n - 1);
      AimedStep(h, z, run[n - 1], run[n - 1 + 1]);
    }
  }

  /** In every state of every run each thread that helps can go on, unless it waits while others are active
      and the global stack is empty. */
  lemma ThreadsGoOn(h: Heap, z: Sizes, live: set<Obj>, run: seq<State>, n: nat, i: nat)
    requires HeapOk(h) && Closed(h, live) && Run(h, z, run) && Start(h, z, live, run[0]) && n < |run| && i < |run[n].helpers|
    ensures IsHelper(run[n].helpers[i]) ==>
      (CanMove(h, z, run[n], i) <==> !(run[n].helpers[i].pc.Waiting? && run[n].active > 0 && run[n].firstNonempty >= |run[n].slots|))
  {
    hide HeapOk, Run, Start, CanMove, Step, NoWorkLost, OnlyLive;
    RunKeeps(h, z, live, run, n);
    AimedInRun(h, z, live, run, n);
    var s := run[n];
    ActiveCounts(h, z, live, s, i);
    match s.helpers[i].pc {
      case Idle => case Exited =>
      case Waiting => WaitingCanMove(h, z, s, i);
      case Found(_, _, _, _) => StealCanMove(h, z, s, i);
      case Stealing(_, _, _, _) => StealCanMove(h, z, s, i);
      case Marking => MarkingCanMove(h, z, s, i);
      case Scanning(_) => ScanCanMove(h, z, s, i);
      case Unmarked(_, _) => ScanCanMove(h, z, s, i);
      case Pushing(_, _) => ScanCanMove(h, z, s, i);
      case _ => ControlCanMove(h, z, s, i);
    }
  }

  lemma ActiveCounts(h: Heap, z: Sizes, live: set<Obj>, s: State, i: nat)
    requires Inv(h, z, live, s) && i < |s.helpers|
    ensures s.active >= 0 && HelperOk(s, s.helpers[i]) && s.firstNonempty <= |s.slots|
  {
  }

  /** No run gets stuck: in every state but a finished one a step can be taken. */
  lemma NeverStuck(h: Heap, z: Sizes, live: set<Obj>, run: seq<State>, n: nat)
    requires HeapOk(h) && Closed(h, live) && Run(h, z, run) && Start(h, z, live, run[0]) && n < |run|
    ensures !Finished(run[n]) ==> exists s' :: s' != run[n] && Step(h, z, run[n], s')
  {
    hide HeapOk, Run, Start, ControlStep, WorkStep, NoWorkLost, OnlyLive, HelperOk, Quiet;
    RunKeeps(h, z, live, run, n);
    AimedInRun(h, z, live, run, n);
    var s := run[n];
    if !Finished(s) {
      if k :| 0 <= k < |s.helpers| && IsActive(s.helpers[k]) {
        ThreadsGoOn(h, z, live, run, n, k);
        CanMoveIsStep(h, z, s, k);
      } else {
        NoneActive(s.helpers);
        if k :| 0 <= k < |s.helpers| && IsHelper(s.helpers[k]) {
          ThreadsGoOn(h, z, live, run, n, k);
          CanMoveIsStep(h, z, s, k);
        } else {
          NoneHelp(s.helpers);
          var s' := s.(helpWanted := false);
          assert !IsHelper(s.helpers[0]);
          assert StopHelp(s, s');
          assert s' != s && Step(h, z, s, s');
        }
      }
    }
  }

  lemma {:induction false} NoneActive(ts: seq<Helper>)
    requires forall k :: 0 <= k < |ts| ==> !IsActive(ts[k])
    ensures CountActive(ts) == 0
  {
    if ts != [] { NoneActive(ts[..|ts| - 1]); }
  }

  lemma {:induction false} NoneHelp(ts: seq<Helper>)
    requires forall k :: 0 <= k < |ts| ==> !IsHelper(ts[k])
    ensures CountHelpers(ts) == 0
  {
    if ts != [] { NoneHelp(ts[..|ts| - 1]); }
  }
}

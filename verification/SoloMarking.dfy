/** The parallel protocol run by the initiating thread alone: with large enough stacks it comes to
    an end, and the state stays valid.  The run takes the choices that the program takes: long
    ranges are divided, and since the local stack is never half full and nobody waits, no
    entries are given back. */
module SoloMarking {
  import opened ObjectGraph
  import opened ParallelMark

  // ----- Heights -----

  ghost function WithPointers(h: Heap): set<Obj> {
    set o | o in Objects(h) && DescrOf(h, o) != Length(0)
  }

  /** The number of entries that a range may come to on the stack, when it is divided. */
  function Pieces(d: Descr): nat {
    if d.Length? && d.words > SHARE_WORDS then d.words - (SHARE_WORDS - 1) else 1
  }

  function Total(stack: seq<Entry>): nat {
    if stack == [] then 0 else Total(stack[..|stack| - 1]) + Pieces(stack[|stack| - 1].descr)
  }

  lemma TotalPush(stack: seq<Entry>, e: Entry)
    ensures Total(stack + [e]) == Total(stack) + Pieces(e.descr)
  {
    assert (stack + [e])[..|stack|] == stack;
  }

  lemma {:induction false} TotalHeight(stack: seq<Entry>)
    ensures |stack| <= Total(stack)
  {
    if stack != [] { TotalHeight(stack[..|stack| - 1]); }
  }

  lemma {:induction false} TotalSmall(stack: seq<Entry>, m: nat)
    requires forall j :: 0 <= j < |stack| ==> Pieces(stack[j].descr) <= m
    ensures Total(stack) <= |stack| * m
  {
    if stack != [] {
      TotalSmall(stack[..|stack| - 1], m);
      assert |stack| * m == (|stack| - 1) * m + m;
    }
  }

  // ----- Effort -----

  /** More than looking at all words of the entry takes, also if it has to be divided. */
  function Effort(d: Descr): nat {
    3 * Span(d) + 3 + if d.Length? && d.words > SPLIT_WORDS then 20 * (d.words - SPLIT_WORDS) else 0
  }

  function Efforts(stack: seq<Entry>): nat {
    if stack == [] then 0 else Efforts(stack[..|stack| - 1]) + Effort(stack[|stack| - 1].descr)
  }

  lemma EffortsPush(stack: seq<Entry>, e: Entry)
    ensures Efforts(stack + [e]) == Efforts(stack) + Effort(e.descr)
  {
    assert (stack + [e])[..|stack|] == stack;
  }

  lemma {:induction false} CountWords(words: set<nat>, start: nat, n: nat)
    requires forall a :: a in words ==> start <= a < start + n
    ensures |words| <= n
  {
    if n == 0 {
      assert words == {};
    } else {
      var last := start + n - 1;
      CountWords(words - {last}, start, n - 1);
      if last in words { assert words == (words - {last}) + {last}; } else { assert words == words - {last}; }
    }
  }

  // ----- The state of a run by one thread -----

  /** The other threads have not joined, and the counters count the first one. */
  ghost predicate Alone(s: State) {
    && |s.helpers| > 0 && (forall k :: 0 < k < |s.helpers| ==> s.helpers[k].pc.Idle?)
    && var t := s.helpers[0];
       && !t.pc.Idle? && !s.invalid && (s.helpWanted || t.pc.Exited?)
       && s.active == (if IsActive(t) then 1 else 0) && s.helperCount == (if t.pc.Exited? then 0 else 1)
  }

  ghost predicate SmallEntries(stack: seq<Entry>, m: nat) {
    forall j :: 0 <= j < |stack| ==> Pieces(stack[j].descr) <= m
  }

  /** The stack has room for what is on it, when divided, and for all unmarked objects. */
  ghost predicate Roomy(h: Heap, m: nat, marked: set<Obj>, stack: seq<Entry>, more: nat) {
    Total(stack) + m * |WithPointers(h) - marked| + more <= (6 + |WithPointers(h)|) * m
  }

  /** What the thread knows, and what its stack may come to. */
  ghost predicate InPlace(h: Heap, m: nat, s: State, t: Helper) {
    var n, from := |s.slots|, s.firstNonempty;
    match t.pc
    case Idle => false
    case Joined => t.stack == [] && from <= n
    case LoopTop => t.stack == [] && from <= t.first <= n
    case Compare(seen) => t.stack == [] && seen == from <= t.first <= n
    case ReadTop => t.stack == [] && from == t.first <= n
    case WantLock => t.stack == [] && from == t.first == n
    case Waiting => t.stack == [] && from == t.first == n
    case Exited => t.stack == []
    case Found(p, end, taken, max) =>
      && end == n && from <= t.first <= p <= n && max <= ENTRIES_TO_GET && |t.stack| <= taken && |t.stack| <= max + 1
      && SmallEntries(t.stack, m) && (p == t.first ==> p < n && taken == 0)
    case Stealing(p, end, taken, max) =>
      && end == n && from <= t.first <= p < n && |t.stack| <= taken <= max <= ENTRIES_TO_GET
      && SmallEntries(t.stack, m)
    case Marking => from <= t.first <= n && Roomy(h, m, s.marked, t.stack, 0)
    case Scanning(todo) => from <= t.first <= n && Roomy(h, m, s.marked, t.stack, 0)
    case Unmarked(a, todo) =>
      from <= t.first <= n && Roomy(h, m, s.marked, t.stack, 0) && a in todo && a in h.memory && h.memory[a] !in s.marked
    case Pushing(o, todo) =>
      from <= t.first <= n && o in Objects(h) && Roomy(h, m, s.marked, t.stack, if o in WithPointers(h) then m else 0)
  }

  ghost predicate Solo(h: Heap, m: nat, s: State) {
    && Alone(s) && s.marked <= Objects(h) && InPlace(h, m, s, s.helpers[0])
    && forall j :: 0 <= j < |s.slots| ==> Pieces(s.slots[j].entry.descr) <= m
  }

  /** Local stacks are never half full, and entries are short. */
  ghost predicate Large(h: Heap, z: Sizes, m: nat) {
    && HeapOk(h) && m > 0 && z.localSize > 2 * ((6 + |WithPointers(h)|) * m)
    && forall o :: o in Objects(h) ==> Pieces(DescrOf(h, o)) <= m
  }

  // ----- Progress -----

  ghost function Unseen(h: Heap, s: State): nat {
    |Objects(h) - s.marked|
  }

  ghost function BeforePush(s: State): nat {
    if |s.helpers| > 0 && s.helpers[0].pc.Pushing? then 1 else 0
  }

  ghost function SlotsLeft(s: State): nat {
    if |s.helpers| == 0 then 0 else
      var t := s.helpers[0];
      var at := match t.pc case Found(p, _, _, _) => p case Stealing(p, _, _, _) => p case Joined => 0 case _ => t.first;
      if at <= |s.slots| then |s.slots| - at else 0
  }

  ghost function Phase(s: State): nat {
    if |s.helpers| == 0 then 0 else
      var t := s.helpers[0]; var e := Efforts(t.stack);
      match t.pc
      case Idle => 0
      case Joined => 9
      case LoopTop => 7
      case Compare(_) => 6
      case ReadTop => 5
      case WantLock => 4
      case Waiting => 3
      case Exited => if s.helpWanted then 2 else 1
      case Found(p, _, _, _) => if p == t.first then 4 else 10 + e
      case Stealing(p, _, _, _) => if p == t.first then 3 else 9 + e
      case Marking => 8 + e
      case Scanning(todo) => 9 + e + 2 * |todo|
      case Unmarked(_, todo) => 8 + e + 2 * |todo|
      case Pushing(_, _) => 0
  }

  ghost predicate Nearer(h: Heap, s': State, s: State) {
    if Unseen(h, s') != Unseen(h, s) then Unseen(h, s') < Unseen(h, s)
    else if BeforePush(s') != BeforePush(s) then BeforePush(s') < BeforePush(s)
    else if SlotsLeft(s') != SlotsLeft(s) then SlotsLeft(s') < SlotsLeft(s)
    else Phase(s') < Phase(s)
  }

  /** A step of the thread that keeps the state as it should be and comes nearer to the end. */
  ghost predicate GoodStep(h: Heap, z: Sizes, m: nat, s: State, s': State) {
    Step(h, z, s, s') && Solo(h, m, s') && Nearer(h, s', s)
  }

  lemma FirstMoves(h: Heap, z: Sizes, s: State, s': State)
    requires |s.helpers| > 0 && (ControlStep(s, s', 0) || WorkStep(h, z, s, s', 0))
    ensures Step(h, z, s, s')
  {
    hide ControlStep, WorkStep;
  }

  lemma StillAlone(s: State, s0: State, t': Helper)
    requires Alone(s) && s0.helpers == s.helpers && !s0.invalid && s0.helpWanted && !t'.pc.Idle?
    requires s0.active == (if IsActive(t') then 1 else 0) && s0.helperCount == (if t'.pc.Exited? then 0 else 1)
    ensures |s.helpers| > 0 && Alone(Move(s0, 0, t')) && Move(s0, 0, t').helpers[0] == t'
  {
  }

  /** A step that marks nothing. */
  lemma Unmarking(h: Heap, z: Sizes, m: nat, s: State, s0: State, t': Helper)
    requires Solo(h, m, s) && !t'.pc.Pushing? && !t'.pc.Idle? && s0.helpWanted
    requires s0 == s.(active := s0.active, helperCount := s0.helperCount, firstNonempty := s0.firstNonempty, slots := s0.slots)
    requires forall j :: 0 <= j < |s0.slots| ==> Pieces(s0.slots[j].entry.descr) <= m
    requires s0.active == (if IsActive(t') then 1 else 0) && s0.helperCount == (if t'.pc.Exited? then 0 else 1)
    requires InPlace(h, m, s0, t')
    ensures var s' := Move(s0, 0, t'); Solo(h, m, s') && Unseen(h, s') == Unseen(h, s) && BeforePush(s') <= BeforePush(s)
  {
    hide HeapOk, Objects, Roomy, WithPointers, SmallEntries;
    StillAlone(s, s0, t');
  }

  lemma StartNext(h: Heap, z: Sizes, m: nat, s: State) returns (s': State)
    requires Solo(h, m, s) && var pc := s.helpers[0].pc; pc.Joined? || pc.LoopTop? || pc.Compare?
    ensures GoodStep(h, z, m, s, s')
  {
    hide HeapOk, Objects, Roomy, WithPointers, WorkStep, Unseen, BeforePush;
    var t := s.helpers[0];
    var s0 := match t.pc
      case Joined => s.(active := s.active + 1)
      case Compare(seen) => s.(firstNonempty := t.first)
      case _ => s;
    var t' := match t.pc
      case Joined => t.(pc := LoopTop, first := s.firstNonempty)
      case LoopTop => t.(pc := Compare(s.firstNonempty))
      case _ => t.(pc := ReadTop);
    s' := Move(s0, 0, t');
    Unmarking(h, z, m, s, s0, t');
    assert ControlStep(s, s', 0);
    FirstMoves(h, z, s, s');
  }

  lemma TopNext(h: Heap, z: Sizes, m: nat, s: State) returns (s': State)
    requires Solo(h, m, s) && var pc := s.helpers[0].pc; pc.ReadTop? || pc.WantLock? || pc.Waiting?
    ensures GoodStep(h, z, m, s, s')
  {
    hide HeapOk, Objects, Roomy, WithPointers, WorkStep, Unseen, BeforePush;
    var t, n := s.helpers[0], |s.slots|;
    var s0 := match t.pc
      case WantLock => s.(active := s.active - 1)
      case Waiting => s.(helperCount := s.helperCount - 1)
      case _ => s;
    var t' := match t.pc
      case ReadTop => t.(pc := if n == t.first then WantLock else Found(t.first, n, 0, Quota(n - t.first)))
      case WantLock => t.(pc := Waiting)
      case _ => t.(pc := Exited);
    s' := Move(s0, 0, t');
    Unmarking(h, z, m, s, s0, t');
    assert ControlStep(s, s', 0);
    FirstMoves(h, z, s, s');
  }

  lemma AloneFacts(s: State)
    requires Alone(s)
    ensures |s.helpers| > 0 && var t := s.helpers[0];
       && !t.pc.Idle? && !s.invalid && (s.helpWanted || t.pc.Exited?)
       && s.active == (if IsActive(t) then 1 else 0) && s.helperCount == (if t.pc.Exited? then 0 else 1)
  {
  }

  // ----- Stealing -----

  lemma TimesMonotone(m: nat, x: nat, y: nat)
    requires x <= y
    ensures m * x <= m * y && x * m <= y * m && m * x == x * m && m * y == y * m
  {
  }

  lemma FewerObjects(x: set<Obj>, y: set<Obj>)
    ensures |x - y| <= |x|
  {
    assert x == (x - y) + (x * y);
  }

  /** Few entries are stolen at a time. */
  lemma StolenFits(h: Heap, m: nat, marked: set<Obj>, stack: seq<Entry>)
    requires |stack| <= 6 && SmallEntries(stack, m)
    ensures Roomy(h, m, marked, stack, 0)
  {
    hide WithPointers;
    var p := |WithPointers(h)|;
    TotalSmall(stack, m);
    TimesMonotone(m, |stack|, 6);
    FewerObjects(WithPointers(h), marked);
    TimesMonotone(m, |WithPointers(h) - marked|, p);
    assert (6 + p) * m == 6 * m + m * p;
  }

  lemma FoundNext(h: Heap, z: Sizes, m: nat, s: State) returns (s': State)
    requires Solo(h, m, s) && s.helpers[0].pc.Found?
    ensures GoodStep(h, z, m, s, s')
  {
    hide HeapOk, Objects, Roomy, WithPointers, ControlStep, Unseen, BeforePush;
    var t := s.helpers[0]; var pc := t.pc;
    var t';
    if pc.p == pc.end || pc.taken > pc.max {
      t' := t.(pc := Marking, first := pc.p);
      StolenFits(h, m, s.marked, t.stack);
    } else {
      t' := t.(pc := if s.slots[pc.p].full then Stealing(pc.p, pc.end, pc.taken, pc.max) else Found(pc.p + 1, pc.end, pc.taken, pc.max));
    }
    s' := Move(s, 0, t');
    Unmarking(h, z, m, s, s, t');
    assert LoadDescr(s, s', 0);
    FirstMoves(h, z, s, s');
  }

  lemma StealingNext(h: Heap, z: Sizes, m: nat, s: State) returns (s': State)
    requires Solo(h, m, s) && s.helpers[0].pc.Stealing?
    ensures GoodStep(h, z, m, s, s')
  {
    hide HeapOk, Objects, Roomy, WithPointers, ControlStep, Unseen, BeforePush;
    var t := s.helpers[0]; var pc := t.pc;
    var e := s.slots[pc.p].entry;
    var s0 := s.(slots := s.slots[pc.p := Slot(false, e)]);
    var t' := t.(pc := Found(pc.p + 1, pc.end, pc.taken + Cost(e), pc.max), stack := t.stack + [e]);
    s' := Move(s0, 0, t');
    Unmarking(h, z, m, s, s0, t');
    assert TakeEntry(s, s', 0);
    FirstMoves(h, z, s, s');
  }

  // ----- Marking from the local stack -----

  lemma DividedFits(t: Helper)
    requires t.stack != [] && Top(t).descr.Length? && Top(t).descr.words > SHARE_WORDS
    ensures Total(Divided(t).stack) <= Total(t.stack) && Efforts(Divided(t).stack) < Efforts(t.stack)
  {
    hide Total, Efforts, Pieces, Effort;
    var e := Top(t); var half := e.descr.words / 2;
    var lower, upper := Entry(e.start, Length(half + 1)), Entry(e.start + half, Length(e.descr.words - half));
    assert Below(t) + [e] == t.stack;
    TotalPush(Below(t), e);
    EffortsPush(Below(t), e);
    TotalPush(Below(t), lower);
    TotalPush(Below(t) + [lower], upper);
    EffortsPush(Below(t), lower);
    EffortsPush(Below(t) + [lower], upper);
    Halves(e.descr.words, half);
  }

  lemma Halves(n: nat, half: nat)
    requires n > SHARE_WORDS && half == n / 2
    ensures Pieces(Length(half + 1)) + Pieces(Length(n - half)) <= Pieces(Length(n))
    ensures Effort(Length(half + 1)) + Effort(Length(n - half)) < Effort(Length(n))
  {
  }

  lemma PoppedFits(t: Helper)
    requires t.stack != [] && (Top(t).descr.Length? ==> Top(t).descr.words <= SHARE_WORDS)
    ensures Popped(t).pc.Scanning? && Popped(t).first == t.first && Total(Popped(t).stack) <= Total(t.stack)
    ensures 9 + Efforts(Popped(t).stack) + 2 * |Popped(t).pc.todo| < 8 + Efforts(t.stack)
  {
    var e := Top(t); var first := SPLIT_WORDS - 1;
    hide Covers;
    if e.descr.Length? && e.descr.words >= SPLIT_WORDS {
      var rest := Entry(e.start + first, Length(e.descr.words - first));
      TotalPush(Below(t), rest);
      EffortsPush(Below(t), rest);
      FewWords(Entry(e.start, Length(first)));
    } else {
      FewWords(e);
    }
  }

  lemma FewWords(e: Entry)
    ensures |WordsOf(e)| <= Span(e.descr)
  {
    CountWords(WordsOf(e), e.start, Span(e.descr));
  }

  /** With so large a stack there is room for one more entry. */
  lemma RoomLeft(h: Heap, z: Sizes, m: nat, marked: set<Obj>, stack: seq<Entry>, more: nat)
    requires Large(h, z, m) && Roomy(h, m, marked, stack, more)
    ensures |stack| <= z.localSize / 2 && |stack| < z.localSize
  {
    hide WithPointers, HeapOk;
    TotalHeight(stack);
    TimesMonotone(m, 0, |WithPointers(h) - marked|);
  }

  lemma LowerStack(h: Heap, m: nat, marked: set<Obj>, stack: seq<Entry>, stack': seq<Entry>)
    requires Roomy(h, m, marked, stack, 0) && Total(stack') <= Total(stack)
    ensures Roomy(h, m, marked, stack', 0)
  {
    hide WithPointers;
  }

  lemma MarkingNext(h: Heap, z: Sizes, m: nat, s: State) returns (s': State)
    requires Large(h, z, m) && Solo(h, m, s) && s.helpers[0].pc.Marking?
    ensures GoodStep(h, z, m, s, s')
  {
    hide HeapOk, Objects, Roomy, WithPointers, ControlStep, Unseen, BeforePush, Divided, Popped, Total, Efforts, Large;
    var t := s.helpers[0];
    var t';
    RoomLeft(h, z, m, s.marked, t.stack, 0);
    if t.stack == [] {
      t' := t.(pc := LoopTop);
    } else if Top(t).descr.Length? && Top(t).descr.words > SHARE_WORDS {
      t' := Divided(t);
      DividedFits(t);
      DividedKeeps(t);
      LowerStack(h, m, s.marked, t.stack, t'.stack);
    } else {
      t' := Popped(t);
      PoppedFits(t);
      LowerStack(h, m, s.marked, t.stack, t'.stack);
    }
    s' := Move(s, 0, t');
    Unmarking(h, z, m, s, s, t');
    assert LocalDone(s, s', 0) || DivideTop(z, s, s', 0) || PopTop(s, s', 0);
    FirstMoves(h, z, s, s');
  }

  lemma DividedKeeps(t: Helper)
    requires t.stack != [] && Top(t).descr.Length?
    ensures Divided(t).pc == t.pc && Divided(t).first == t.first
  {
  }

  // ----- Looking at words -----

  lemma ScanningNext(h: Heap, z: Sizes, m: nat, s: State) returns (s': State)
    requires Solo(h, m, s) && s.helpers[0].pc.Scanning?
    ensures GoodStep(h, z, m, s, s')
  {
    hide HeapOk, Objects, Roomy, WithPointers, ControlStep, Unseen, BeforePush, Efforts;
    var t := s.helpers[0]; var todo := t.pc.todo;
    var t';
    if todo == {} {
      t' := t.(pc := Marking);
      s' := Move(s, 0, t');
      assert ScanDone(s, s', 0);
    } else {
      var a :| a in todo;
      assert |todo - {a}| == |todo| - 1;
      t' := if a in h.memory && h.memory[a] !in s.marked then t.(pc := Unmarked(a, todo)) else t.(pc := Scanning(todo - {a}));
      s' := Move(s, 0, t');
      assert LookAt(h, s, s', 0, a);
    }
    Unmarking(h, z, m, s, s, t');
    FirstMoves(h, z, s, s');
  }

  /** Marking an object moves its share from the unmarked objects to the push to come. */
  lemma ShareMoves(h: Heap, m: nat, marked: set<Obj>, stack: seq<Entry>, o: Obj)
    requires Roomy(h, m, marked, stack, 0) && o in Objects(h) && o !in marked
    ensures Roomy(h, m, marked + {o}, stack, if o in WithPointers(h) then m else 0)
    ensures |Objects(h) - (marked + {o})| < |Objects(h) - marked|
  {
    hide WithPointers, Objects;
    assert Objects(h) - marked == (Objects(h) - (marked + {o})) + {o};
    if o in WithPointers(h) {
      var rest := WithPointers(h) - (marked + {o});
      assert WithPointers(h) - marked == rest + {o};
      assert m * (|rest| + 1) == m * |rest| + m;
    } else {
      assert WithPointers(h) - marked == WithPointers(h) - (marked + {o});
    }
  }

  lemma UnmarkedNext(h: Heap, z: Sizes, m: nat, s: State) returns (s': State)
    requires HeapOk(h) && Solo(h, m, s) && s.helpers[0].pc.Unmarked?
    ensures GoodStep(h, z, m, s, s')
  {
    hide Objects, Roomy, WithPointers, ControlStep;
    var t := s.helpers[0]; var a, todo := t.pc.a, t.pc.todo; var o := h.memory[a];
    assert o in Objects(h);
    ShareMoves(h, m, s.marked, t.stack, o);
    var s0, t' := s.(marked := s.marked + {o}), t.(pc := Pushing(o, todo - {a}));
    s' := Move(s0, 0, t');
    StillAlone(s, s0, t');
    assert SetMark(h, s, s', 0);
    FirstMoves(h, z, s, s');
  }

  lemma PushFits(h: Heap, m: nat, marked: set<Obj>, stack: seq<Entry>, e: Entry)
    requires Roomy(h, m, marked, stack, m) && Pieces(e.descr) <= m
    ensures Roomy(h, m, marked, stack + [e], 0)
  {
    hide WithPointers;
    TotalPush(stack, e);
  }

  lemma PushingNext(h: Heap, z: Sizes, m: nat, s: State) returns (s': State)
    requires Large(h, z, m) && Solo(h, m, s) && s.helpers[0].pc.Pushing?
    ensures GoodStep(h, z, m, s, s')
  {
    hide HeapOk, Objects, Roomy, ControlStep, DescrOf;
    var t := s.helpers[0]; var o, todo := t.pc.t, t.pc.todo;
    var d := DescrOf(h, o);
    RoomLeft(h, z, m, s.marked, t.stack, if o in WithPointers(h) then m else 0);
    if !PointerFree(d) { PushFits(h, m, s.marked, t.stack, Entry(o, d)); }
    var t' := Pushed(h, z, t);
    s' := Move(s, 0, t');
    StillAlone(s, s, t');
    assert !Overflows(h, z, t);
    assert PushMarked(h, z, s, s', 0);
    FirstMoves(h, z, s, s');
  }

  lemma ExitedNext(h: Heap, z: Sizes, m: nat, s: State) returns (s': State)
    requires Solo(h, m, s) && s.helpers[0].pc.Exited? && s.helpWanted
    ensures GoodStep(h, z, m, s, s')
  {
    s' := s.(helpWanted := false);
    assert StopHelp(s, s');
  }

  lemma Next(h: Heap, z: Sizes, m: nat, s: State) returns (s': State)
    requires Large(h, z, m) && Solo(h, m, s) && !Finished(s)
    ensures GoodStep(h, z, m, s, s')
  {
    hide GoodStep, InPlace, Large;
    AloneFacts(s);
    match s.helpers[0].pc
    case Idle =>
    case Found(_, _, _, _) => s' := FoundNext(h, z, m, s);
    case Stealing(_, _, _, _) => s' := StealingNext(h, z, m, s);
    case Marking => s' := MarkingNext(h, z, m, s);
    case Scanning(_) => s' := ScanningNext(h, z, m, s);
    case Unmarked(_, _) => LargeHeap(h, z, m); s' := UnmarkedNext(h, z, m, s);
    case Pushing(_, _) => s' := PushingNext(h, z, m, s);
    case Exited => s' := ExitedNext(h, z, m, s);
    case ReadTop => s' := TopNext(h, z, m, s);
    case WantLock => s' := TopNext(h, z, m, s);
    case Waiting => s' := TopNext(h, z, m, s);
    case _ => s' := StartNext(h, z, m, s);
  }

  lemma LargeHeap(h: Heap, z: Sizes, m: nat)
    requires Large(h, z, m)
    ensures HeapOk(h)
  {
  }

  /** The run from a state on. */
  lemma {:induction false} Complete(h: Heap, z: Sizes, m: nat, s: State) returns (run: seq<State>)
    requires Large(h, z, m) && Solo(h, m, s)
    ensures Run(h, z, run) && run[0] == s && Finished(run[|run| - 1]) && !run[|run| - 1].invalid
    decreases Unseen(h, s), BeforePush(s), SlotsLeft(s), Phase(s)
  {
    hide Solo, Large, Step, Unseen, BeforePush, SlotsLeft, Phase;
    if Finished(s) {
      SoloValid(h, m, s);
      run := [s];
    } else {
      var s' := Next(h, z, m, s);
      var rest := Complete(h, z, m, s');
      run := [s] + rest;
      forall n | 0 <= n < |run| - 1 ensures Step(h, z, run[n], run[n + 1]) {
        if n > 0 { assert Step(h, z, rest[n - 1], rest[n - 1 + 1]); }
      }
    }
  }

  lemma SoloValid(h: Heap, m: nat, s: State)
    requires Solo(h, m, s)
    ensures !s.invalid
  {
  }
}

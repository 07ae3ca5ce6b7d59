/** Parallel marking with work stealing, as a state machine over the atomic steps
    of the initiating thread and of any number of helpers.

    What happens while the mark lock is held is one step; loads, stores and the
    compare-and-swap outside of it are steps of their own.  Only becoming inactive and
    what comes of it, which the lock holds together when nobody else is active, are two
    steps, so that the model allows more interleavings there than the program. */
module ParallelMark {
  import opened ObjectGraph

  /** An entry of the global mark stack; a stolen entry has its descriptor cleared. */
  datatype Slot = Slot(full: bool, entry: Entry)

  datatype Pc =
    | Idle                                            // not helping
    | Joined                                          // counted as a helper
    | LoopTop                                         // about to read the first nonempty position
    | Compare(seen: nat)                              // has read it
    | ReadTop                                         // about to read the top of the global stack
    | Found(p: nat, end: nat, taken: nat, max: nat)   // stealing: about to load the descriptor at p
    | Stealing(p: nat, end: nat, taken: nat, max: nat)// has loaded a nonzero descriptor at p
    | WantLock                                        // saw nothing to steal, about to look again under the lock
    | Waiting                                         // inactive
    | Marking                                         // between two entries of the local stack
    | Scanning(todo: set<nat>)                        // words of an entry still to be looked at
    | Unmarked(a: nat, todo: set<nat>)                // has found the object behind word a unmarked
    | Pushing(t: Obj, todo: set<nat>)                 // has marked t, about to push it
    | Exited                                          // no longer counted as a helper

  /** A thread: its program position, the position below which it knows the global
      stack to be empty, and its local mark stack. */
  datatype Helper = Helper(pc: Pc, first: nat, stack: seq<Entry>)

  datatype State = State(
    slots: seq<Slot>,       // the global mark stack; it only grows
    firstNonempty: nat,
    invalid: bool,          // the mark state is MS_INVALID
    active: int,
    helperCount: int,
    helpWanted: bool,
    marked: set<Obj>,
    helpers: seq<Helper>)   // thread 0 is the initiating one

  /** Sizes of the two kinds of stacks, and the number of entries lost when a local one overflows. */
  datatype Sizes = Sizes(capacity: nat, localSize: nat, discards: nat)

  const ENTRIES_TO_GET: nat := 5
  const SHARE_WORDS: nat := 256
  const SPLIT_WORDS: nat := 128

  // ----- What is still to be done -----

  /** The words a thread has taken charge of. */
  ghost function HelperWords(h: Heap, t: Helper): set<nat> {
    PendingWords(t.stack) + match t.pc
      case Scanning(todo) => todo
      case Unmarked(a, todo) => todo
      case Pushing(o, todo) => todo + (if o in Objects(h) then Fields(h, o) else {})
      case _ => {}
  }

  ghost predicate OnGlobal(s: State, a: nat) {
    exists j :: 0 <= j < |s.slots| && s.slots[j].full && a in WordsOf(s.slots[j].entry)
  }

  ghost predicate WithHelper(h: Heap, s: State, a: nat) {
    exists k :: 0 <= k < |s.helpers| && a in HelperWords(h, s.helpers[k])
  }

  /** Word a points to no object, or to a marked one, or somebody still has to look at it. */
  ghost predicate WordSafe(h: Heap, s: State, a: nat) {
    a in h.memory ==> h.memory[a] in s.marked || OnGlobal(s, a) || WithHelper(h, s, a)
  }

  /** No work is lost: unless the state is invalid, every word of a root range
      and of a marked object is safe. */
  ghost predicate NoWorkLost(h: Heap, s: State) {
    !s.invalid ==>
      && (forall a :: a in RootWords(h) ==> WordSafe(h, s, a))
      && (forall o, a :: o in s.marked && o in Objects(h) && a in Fields(h, o) ==> WordSafe(h, s, a))
  }

  ghost predicate LiveWords(h: Heap, live: set<Obj>, words: set<nat>) {
    forall a :: a in words && a in h.memory ==> h.memory[a] in live
  }

  /** Nothing unreachable is marked or about to be. */
  ghost predicate OnlyLive(h: Heap, live: set<Obj>, s: State) {
    && s.marked <= live
    && (forall j :: 0 <= j < |s.slots| ==> LiveWords(h, live, WordsOf(s.slots[j].entry)))
    && (forall k :: 0 <= k < |s.helpers| ==> HelperLive(h, live, s.helpers[k]))
  }

  ghost predicate HelperLive(h: Heap, live: set<Obj>, t: Helper) {
    LiveWords(h, live, HelperWords(h, t)) && (t.pc.Pushing? ==> t.pc.t in live)
  }

  // ----- Counting threads -----

  predicate IsActive(t: Helper) {
    !t.pc.Idle? && !t.pc.Joined? && !t.pc.Waiting? && !t.pc.Exited?
  }

  predicate IsHelper(t: Helper) {
    !t.pc.Idle? && !t.pc.Exited?
  }

  function CountActive(ts: seq<Helper>): nat {
    if ts == [] then 0 else CountActive(ts[..|ts| - 1]) + if IsActive(ts[|ts| - 1]) then 1 else 0
  }

  function CountHelpers(ts: seq<Helper>): nat {
    if ts == [] then 0 else CountHelpers(ts[..|ts| - 1]) + if IsHelper(ts[|ts| - 1]) then 1 else 0
  }

  lemma {:induction false} CountUpdate(ts: seq<Helper>, i: nat, t: Helper)
    requires i < |ts|
    ensures CountActive(ts[i := t]) == CountActive(ts) - (if IsActive(ts[i]) then 1 else 0) + (if IsActive(t) then 1 else 0)
    ensures CountHelpers(ts[i := t]) == CountHelpers(ts) - (if IsHelper(ts[i]) then 1 else 0) + (if IsHelper(t) then 1 else 0)
  {
    var n := |ts| - 1;
    if i == n {
      assert ts[i := t][..n] == ts[..n];
    } else {
      CountUpdate(ts[..n], i, t);
      assert ts[i := t][..n] == ts[..n][i := t];
    }
  }

  lemma {:induction false} CountZero(ts: seq<Helper>, i: nat)
    requires i < |ts|
    ensures CountActive(ts) == 0 ==> !IsActive(ts[i])
    ensures CountHelpers(ts) == 0 ==> !IsHelper(ts[i])
  {
    if i < |ts| - 1 { CountZero(ts[..|ts| - 1], i); }
  }

  // ----- The invariant -----

  /** Every slot below position k has been emptied. */
  ghost predicate EmptyBelow(s: State, k: nat) {
    k <= |s.slots| && forall j :: 0 <= j < k ==> !s.slots[j].full
  }

  /** What each thread knows about the global stack, and when its own is empty. */
  ghost predicate HelperOk(s: State, t: Helper) {
    match t.pc
    case Idle => t.stack == []
    case Joined => t.stack == []
    case Exited => t.stack == []
    case LoopTop => t.stack == [] && EmptyBelow(s, t.first)
    case Compare(seen) => t.stack == [] && EmptyBelow(s, t.first) && EmptyBelow(s, seen)
    case ReadTop => t.stack == [] && EmptyBelow(s, t.first)
    case WantLock => t.stack == [] && EmptyBelow(s, t.first)
    case Waiting => t.stack == [] && EmptyBelow(s, t.first)
    case Found(p, end, taken, max) => EmptyBelow(s, p) && p <= end <= |s.slots|
    case Stealing(p, end, taken, max) => EmptyBelow(s, p) && p < end <= |s.slots|
    case Unmarked(a, todo) => EmptyBelow(s, t.first) && a in todo
    case _ => EmptyBelow(s, t.first)
  }

  /** There is no work anywhere, and no thread is about to find any. */
  ghost predicate Quiet(s: State) {
    && EmptyBelow(s, |s.slots|) && s.firstNonempty == |s.slots|
    && forall k :: 0 <= k < |s.helpers| ==> HelperQuiet(s, s.helpers[k])
  }

  ghost predicate HelperQuiet(s: State, t: Helper) {
    t.stack == [] && match t.pc
      case Idle => true
      case Joined => true
      case LoopTop => true
      case Waiting => true
      case Exited => true
      case Compare(seen) => seen == |s.slots|
      case ReadTop => t.first == |s.slots|
      case WantLock => t.first == |s.slots|
      case _ => false
  }

  /** A local stack never outgrows its array; stealing takes few entries. */
  ghost predicate StackFits(z: Sizes, t: Helper) {
    && |t.stack| <= z.localSize
    && (t.pc.Found? ==> |t.stack| <= t.pc.taken && |t.stack| <= t.pc.max + 1 && t.pc.max <= ENTRIES_TO_GET)
    && (t.pc.Stealing? ==> |t.stack| <= t.pc.taken <= t.pc.max <= ENTRIES_TO_GET)
  }

  ghost predicate SizesOk(z: Sizes) {
    1 <= z.discards <= z.localSize && ENTRIES_TO_GET < z.localSize
  }

  /** The stacks fit, the counters count, and a thread has left, or nobody may
      join any more, only when there is no work. */
  ghost predicate Bookkeeping(z: Sizes, s: State) {
    && |s.helpers| > 0 && |s.slots| <= z.capacity && SizesOk(z)
    && (forall k :: 0 <= k < |s.helpers| ==> StackFits(z, s.helpers[k]))
    && s.active == CountActive(s.helpers) && s.helperCount == CountHelpers(s.helpers)
    && EmptyBelow(s, s.firstNonempty)
    && (forall k :: 0 <= k < |s.helpers| ==> HelperOk(s, s.helpers[k]))
    && ((exists k :: 0 <= k < |s.helpers| && s.helpers[k].pc.Exited?) ==> Quiet(s))
    && (!s.helpWanted ==> s.helpers[0].pc.Exited?)
  }

  ghost predicate Inv(h: Heap, z: Sizes, live: set<Obj>, s: State) {
    Bookkeeping(z, s) && s.marked <= Objects(h) && NoWorkLost(h, s) && OnlyLive(h, live, s)
  }

  // ----- Steps -----

  /** Thread i moves to t; the rest of the state is given by s0. */
  ghost function Move(s0: State, i: nat, t: Helper): State
    requires i < |s0.helpers|
  {
    s0.(helpers := s0.helpers[i := t])
  }

  /** How much of its quota stealing an entry uses up. */
  function Cost(e: Entry): nat {
    1 + if e.descr.Length? then e.descr.words * 8 / 256 else 0
  }

  /** GC_help_marker: a thread joins while help is wanted. */
  ghost predicate Join(s: State, s': State, i: nat) {
    && i < |s.helpers| && s.helpers[i].pc.Idle? && s.helpWanted
    && s' == Move(s.(helperCount := s.helperCount + 1), i, s.helpers[i].(pc := Joined))
  }

  /** The start of GC_mark_local. */
  ghost predicate Activate(s: State, s': State, i: nat) {
    && i < |s.helpers| && s.helpers[i].pc.Joined?
    && s' == Move(s.(active := s.active + 1), i, s.helpers[i].(pc := LoopTop, first := s.firstNonempty))
  }

  ghost predicate ReadFirst(s: State, s': State, i: nat) {
    && i < |s.helpers| && s.helpers[i].pc.LoopTop?
    && s' == Move(s, i, s.helpers[i].(pc := Compare(s.firstNonempty)))
  }

  /** Adopt the global position if it is larger; else try to raise it with a
      compare-and-swap, which fails if it has changed since it was read. */
  ghost predicate CompareFirst(s: State, s': State, i: nat) {
    && i < |s.helpers| && s.helpers[i].pc.Compare?
    && var t := s.helpers[i]; var seen := t.pc.seen;
       s' == if t.first < seen then Move(s, i, t.(pc := ReadTop, first := seen))
             else if seen < t.first && s.firstNonempty == seen then Move(s.(firstNonempty := t.first), i, t.(pc := ReadTop))
             else Move(s, i, t.(pc := ReadTop))
  }

  ghost function Quota(available: nat): nat {
    if available < 2 * ENTRIES_TO_GET then 1 else ENTRIES_TO_GET
  }

  ghost predicate LoadTop(s: State, s': State, i: nat) {
    && i < |s.helpers| && s.helpers[i].pc.ReadTop?
    && var t := s.helpers[i]; var n := |s.slots|;
       t.first <= n
       && s' == Move(s, i, t.(pc := if n == t.first then WantLock else Found(t.first, n, 0, Quota(n - t.first))))
  }

  /** Look again under the lock; with nothing there, become inactive. */
  ghost predicate Recheck(s: State, s': State, i: nat) {
    && i < |s.helpers| && s.helpers[i].pc.WantLock?
    && var t := s.helpers[i]; var n := |s.slots|;
       t.first <= n
       && s' == if n == t.first then Move(s.(active := s.active - 1), i, t.(pc := Waiting))
                else Move(s, i, t.(pc := Found(t.first, n, 0, Quota(n - t.first))))
  }

  /** A waiting thread finds that the stack may have entries. */
  ghost predicate Wake(s: State, s': State, i: nat) {
    && i < |s.helpers| && s.helpers[i].pc.Waiting?
    && s.firstNonempty < |s.slots|
    && s' == Move(s.(active := s.active + 1), i, s.helpers[i].(pc := LoopTop))
  }

  /** A waiting thread finds nobody active and the stack empty. */
  ghost predicate Exit(s: State, s': State, i: nat) {
    && i < |s.helpers| && s.helpers[i].pc.Waiting?
    && s.active == 0 && s.firstNonempty >= |s.slots|
    && s' == Move(s.(helperCount := s.helperCount - 1), i, s.helpers[i].(pc := Exited))
  }

  /** GC_steal_mark_stack, the load of a descriptor: done, or skip, or go on to take it. */
  ghost predicate LoadDescr(s: State, s': State, i: nat) {
    && i < |s.helpers| && s.helpers[i].pc.Found?
    && var t := s.helpers[i]; var pc := t.pc;
       if pc.p == pc.end || pc.taken > pc.max then
         s' == Move(s, i, t.(pc := Marking, first := pc.p))
       else
         pc.p < |s.slots|
         && s' == Move(s, i, t.(pc := if s.slots[pc.p].full then Stealing(pc.p, pc.end, pc.taken, pc.max)
                                      else Found(pc.p + 1, pc.end, pc.taken, pc.max)))
  }

  /** The store that clears the descriptor, and the copy to the local stack.
      Another thread may have taken the same entry in between. */
  ghost predicate TakeEntry(s: State, s': State, i: nat) {
    && i < |s.helpers| && s.helpers[i].pc.Stealing?
    && var t := s.helpers[i]; var pc := t.pc;
       pc.p < |s.slots|
       && var e := s.slots[pc.p].entry;
          s' == Move(s.(slots := s.slots[pc.p := Slot(false, e)]), i,
                     t.(pc := Found(pc.p + 1, pc.end, pc.taken + Cost(e), pc.max), stack := t.stack + [e]))
  }

  function Top(t: Helper): Entry
    requires t.stack != []
  {
    t.stack[|t.stack| - 1]
  }

  function Below(t: Helper): seq<Entry>
    requires t.stack != []
  {
    t.stack[..|t.stack| - 1]
  }

  /** The range on top divided in two halves, the lower one with one more word. */
  function Divided(t: Helper): Helper
    requires t.stack != [] && Top(t).descr.Length?
  {
    var e := Top(t); var half := e.descr.words / 2;
    t.(stack := Below(t) + [Entry(e.start, Length(half + 1))] + [Entry(e.start + half, Length(e.descr.words - half))])
  }

  /** The entry on top, or the first words of a long range, taken to be scanned. */
  function Popped(t: Helper): Helper
    requires t.stack != []
  {
    var e := Top(t);
    if e.descr.Length? && e.descr.words >= SPLIT_WORDS then
      var first := SPLIT_WORDS - 1;
      Helper(Scanning(WordsOf(Entry(e.start, Length(first)))), t.first,
             Below(t) + [Entry(e.start + first, Length(e.descr.words - first))])
    else Helper(Scanning(WordsOf(e)), t.first, Below(t))
  }

  /** GC_mark_from: a long range is divided so that it can be shared. */
  ghost predicate DivideTop(z: Sizes, s: State, s': State, i: nat) {
    && i < |s.helpers| && s.helpers[i].pc.Marking? && s.helpers[i].stack != []
    && var t := s.helpers[i];
       Top(t).descr.Length? && Top(t).descr.words > SHARE_WORDS && |t.stack| < z.localSize
       && s' == Move(s, i, Divided(t))
  }

  /** GC_mark_from: take an entry, or the first words of a long range. */
  ghost predicate PopTop(s: State, s': State, i: nat) {
    && i < |s.helpers| && s.helpers[i].pc.Marking? && s.helpers[i].stack != []
    && s' == Move(s, i, Popped(s.helpers[i]))
  }

  /** Read word a and the mark bit of the object it points to. */
  ghost predicate LookAt(h: Heap, s: State, s': State, i: nat, a: nat) {
    && i < |s.helpers| && s.helpers[i].pc.Scanning? && a in s.helpers[i].pc.todo
    && var t := s.helpers[i]; var todo := t.pc.todo;
       s' == if a in h.memory && h.memory[a] !in s.marked then Move(s, i, t.(pc := Unmarked(a, todo)))
             else Move(s, i, t.(pc := Scanning(todo - {a})))
  }

  /** Set the mark bit.  Another thread may have set it in between. */
  ghost predicate SetMark(h: Heap, s: State, s': State, i: nat) {
    && i < |s.helpers| && s.helpers[i].pc.Unmarked?
    && var t := s.helpers[i]; var pc := t.pc;
       pc.a in h.memory
       && s' == Move(s.(marked := s.marked + {h.memory[pc.a]}), i, t.(pc := Pushing(h.memory[pc.a], pc.todo - {pc.a})))
  }

  /** The object just marked is pushed unless it is pointer-free; a full stack loses entries. */
  function Pushed(h: Heap, z: Sizes, t: Helper): Helper
    requires t.pc.Pushing? && t.pc.t in Objects(h)
  {
    var d := DescrOf(h, t.pc.t); var e := Entry(t.pc.t, d);
    var kept := if |t.stack| >= z.localSize >= z.discards then t.stack[..z.localSize - z.discards] else t.stack;
    Helper(Scanning(t.pc.todo), t.first, if PointerFree(d) then t.stack else kept + [e])
  }

  predicate Overflows(h: Heap, z: Sizes, t: Helper)
    requires t.pc.Pushing? && t.pc.t in Objects(h)
  {
    !PointerFree(DescrOf(h, t.pc.t)) && |t.stack| >= z.localSize
  }

  /** Push the object just marked; an overflow makes the state invalid. */
  ghost predicate PushMarked(h: Heap, z: Sizes, s: State, s': State, i: nat) {
    && i < |s.helpers| && s.helpers[i].pc.Pushing? && s.helpers[i].pc.t in Objects(h)
    && var t := s.helpers[i];
       s' == Move(s.(invalid := s.invalid || Overflows(h, z, t)), i, Pushed(h, z, t))
  }

  ghost predicate ScanDone(s: State, s': State, i: nat) {
    && i < |s.helpers| && s.helpers[i].pc.Scanning? && s.helpers[i].pc.todo == {}
    && s' == Move(s, i, s.helpers[i].(pc := Marking))
  }

  /** GC_do_local_mark: the local stack is empty. */
  ghost predicate LocalDone(s: State, s': State, i: nat) {
    && i < |s.helpers| && s.helpers[i].pc.Marking? && s.helpers[i].stack == []
    && s' == Move(s, i, s.helpers[i].(pc := LoopTop))
  }

  /** GC_return_mark_stack: the first n local entries go back to the global stack,
      or are dropped for want of room. */
  ghost function Returned(z: Sizes, s: State, t: Helper, n: nat): State
    requires n <= |t.stack|
  {
    if |s.slots| + n > z.capacity then s.(invalid := true)
    else s.(slots := s.slots + seq(n, k requires 0 <= k < n => Slot(true, t.stack[k])))
  }

  /** The local stack is at least half full: return all of it. */
  ghost predicate ReturnAll(z: Sizes, s: State, s': State, i: nat) {
    && i < |s.helpers| && s.helpers[i].pc.Marking?
    && var t := s.helpers[i]; var n := |t.stack|;
       n > z.localSize / 2
       && s' == Move(Returned(z, s, t, n), i, t.(pc := LoopTop, stack := []))
  }

  /** Others seem to be waiting for work: return the lower half. */
  ghost predicate ShareHalf(z: Sizes, s: State, s': State, i: nat) {
    && i < |s.helpers| && s.helpers[i].pc.Marking? && |s.helpers[i].stack| > 2
    && var t := s.helpers[i]; var n := (|t.stack| - 1) / 2;
       s' == Move(Returned(z, s, t, n), i, t.(stack := t.stack[n..]))
  }

  /** GC_do_parallel_mark, after its own marking: no more threads may join. */
  ghost predicate StopHelp(s: State, s': State) {
    |s.helpers| > 0 && s.helpers[0].pc.Exited? && s' == s.(helpWanted := false)
  }

  ghost predicate ControlStep(s: State, s': State, i: nat) {
    || Join(s, s', i) || Activate(s, s', i) || ReadFirst(s, s', i) || CompareFirst(s, s', i)
    || LoadTop(s, s', i) || Recheck(s, s', i) || Wake(s, s', i) || Exit(s, s', i)
  }

  ghost predicate WorkStep(h: Heap, z: Sizes, s: State, s': State, i: nat) {
    || LoadDescr(s, s', i) || TakeEntry(s, s', i)
    || DivideTop(z, s, s', i) || PopTop(s, s', i)
    || (exists a :: LookAt(h, s, s', i, a)) || SetMark(h, s, s', i) || PushMarked(h, z, s, s', i)
    || ScanDone(s, s', i) || LocalDone(s, s', i) || ReturnAll(z, s, s', i) || ShareHalf(z, s, s', i)
  }

  ghost predicate Step(h: Heap, z: Sizes, s: State, s': State) {
    StopHelp(s, s') || exists i: nat :: i < |s.helpers| && (ControlStep(s, s', i) || WorkStep(h, z, s, s', i))
  }

  // ----- Preservation: what a step has to show -----

  /** Slots are only ever emptied or added at the end. */
  ghost predicate SlotsGrow(s: State, s': State) {
    |s.slots| <= |s'.slots|
    && forall j :: 0 <= j < |s.slots| ==> s'.slots[j].entry == s.slots[j].entry && (s'.slots[j].full ==> s.slots[j].full)
  }

  lemma CoverStep(h: Heap, s: State, s': State, i: nat, t': Helper)
    requires NoWorkLost(h, s) && i < |s.helpers| && s'.helpers == s.helpers[i := t'] && s.marked <= s'.marked
    requires SlotsGrow(s, s') && (s.invalid ==> s'.invalid)
    requires !s'.invalid ==> forall a :: a in HelperWords(h, s.helpers[i]) && a in h.memory ==>
      h.memory[a] in s'.marked || OnGlobal(s', a) || a in HelperWords(h, t')
    requires forall j :: 0 <= j < |s.slots| && s.slots[j].full && !s'.slots[j].full ==>
      WordsOf(s.slots[j].entry) <= HelperWords(h, t')
    requires forall o :: o in s'.marked && o !in s.marked && o in Objects(h) ==> Fields(h, o) <= HelperWords(h, t')
    ensures NoWorkLost(h, s')
  {
    if !s'.invalid {
      forall a | WordSafe(h, s, a) ensures WordSafe(h, s', a) { WordStep(h, s, s', i, t', a); }
      forall o, a | o in s'.marked && o in Objects(h) && a in Fields(h, o) ensures WordSafe(h, s', a) {
        if o !in s.marked { assert s'.helpers[i] == t' && a in HelperWords(h, t'); }
      }
    }
  }

  lemma WordStep(h: Heap, s: State, s': State, i: nat, t': Helper, a: nat)
    requires i < |s.helpers| && s'.helpers == s.helpers[i := t'] && s.marked <= s'.marked && SlotsGrow(s, s')
    requires a in HelperWords(h, s.helpers[i]) && a in h.memory ==>
      h.memory[a] in s'.marked || OnGlobal(s', a) || a in HelperWords(h, t')
    requires forall j :: 0 <= j < |s.slots| && s.slots[j].full && !s'.slots[j].full ==>
      WordsOf(s.slots[j].entry) <= HelperWords(h, t')
    requires WordSafe(h, s, a)
    ensures WordSafe(h, s', a)
  {
    assert s'.helpers[i] == t';
    if a in h.memory && h.memory[a] !in s'.marked {
      if OnGlobal(s, a) {
        var j :| 0 <= j < |s.slots| && s.slots[j].full && a in WordsOf(s.slots[j].entry);
        if s'.slots[j].full { assert OnGlobal(s', a); }
      } else {
        var k :| 0 <= k < |s.helpers| && a in HelperWords(h, s.helpers[k]);
        if k != i { assert s'.helpers[k] == s.helpers[k]; }
      }
    }
  }

  lemma LiveStep(h: Heap, live: set<Obj>, s: State, s': State, i: nat, t': Helper)
    requires OnlyLive(h, live, s) && i < |s.helpers| && s'.helpers == s.helpers[i := t'] && s'.marked <= live
    requires SlotsGrow(s, s') && HelperLive(h, live, t')
    requires forall j :: |s.slots| <= j < |s'.slots| ==> LiveWords(h, live, WordsOf(s'.slots[j].entry))
    ensures OnlyLive(h, live, s')
  {
    forall k | 0 <= k < |s'.helpers| ensures HelperLive(h, live, s'.helpers[k]) {
      if k != i { assert s'.helpers[k] == s.helpers[k]; }
    }
    forall j | 0 <= j < |s'.slots| ensures LiveWords(h, live, WordsOf(s'.slots[j].entry)) {
      if j < |s.slots| { assert LiveWords(h, live, WordsOf(s.slots[j].entry)); }
    }
  }

  lemma KnowStep(s: State, s': State, t: Helper)
    requires SlotsGrow(s, s') && HelperOk(s, t)
    ensures HelperOk(s', t)
  {
  }

  lemma BookkeepingStep(z: Sizes, s: State, s': State, i: nat, t': Helper)
    requires Bookkeeping(z, s) && i < |s.helpers| && s'.helpers == s.helpers[i := t'] && s'.helpWanted == s.helpWanted
    requires SlotsGrow(s, s') && |s'.slots| <= z.capacity && EmptyBelow(s', s'.firstNonempty)
    requires StackFits(z, t') && HelperOk(s', t')
    requires s'.active == s.active - (if IsActive(s.helpers[i]) then 1 else 0) + (if IsActive(t') then 1 else 0)
    requires s'.helperCount == s.helperCount - (if IsHelper(s.helpers[i]) then 1 else 0) + (if IsHelper(t') then 1 else 0)
    requires t'.pc.Exited? || Quiet(s) ==> Quiet(s')
    requires s.helpers[i].pc.Exited? ==> t'.pc.Exited?
    ensures Bookkeeping(z, s')
  {
    CountUpdate(s.helpers, i, t');
    forall k | 0 <= k < |s'.helpers| ensures StackFits(z, s'.helpers[k]) && HelperOk(s', s'.helpers[k]) {
      if k != i {
        assert s'.helpers[k] == s.helpers[k];
        KnowStep(s, s', s.helpers[k]);
      }
    }
    if k :| 0 <= k < |s'.helpers| && s'.helpers[k].pc.Exited? && k != i { assert s.helpers[k].pc.Exited?; }
  }

  lemma QuietStep(s: State, s': State, i: nat, t': Helper)
    requires Quiet(s) && i < |s.helpers| && s'.helpers == s.helpers[i := t']
    requires s'.slots == s.slots && s'.firstNonempty == s.firstNonempty && HelperQuiet(s', t')
    ensures Quiet(s')
  {
    forall k | 0 <= k < |s'.helpers| ensures HelperQuiet(s', s'.helpers[k]) {
      if k != i { assert s'.helpers[k] == s.helpers[k] && HelperQuiet(s, s.helpers[k]); }
    }
  }

  // ----- Preservation, step by step -----

  /** A control step moves no work. */
  lemma ControlWork(h: Heap, live: set<Obj>, s: State, s': State, i: nat, t': Helper)
    requires NoWorkLost(h, s) && OnlyLive(h, live, s)
    requires i < |s.helpers| && s'.helpers == s.helpers[i := t'] && s.helpers[i].stack == [] == t'.stack
    requires HelperWords(h, s.helpers[i]) == {} == HelperWords(h, t') && !t'.pc.Pushing?
    requires s'.slots == s.slots && s'.marked == s.marked && s'.invalid == s.invalid
    ensures NoWorkLost(h, s') && OnlyLive(h, live, s')
  {
    CoverStep(h, s, s', i, t');
    LiveStep(h, live, s, s', i, t');
  }

  /** What a control step does to the moving thread and the counters. */
  ghost predicate Controlled(s: State, s': State, i: nat, t': Helper) {
    && i < |s.helpers| && |s'.helpers| == |s.helpers|
    && s' == Move(s.(active := s'.active, helperCount := s'.helperCount, firstNonempty := s'.firstNonempty), i, t')
    && s.helpers[i].stack == [] == t'.stack && HelperOk(s', t') && EmptyBelow(s', s'.firstNonempty)
    && !IsWorking(s.helpers[i]) && (IsWorking(t') ==> t'.pc.Found? && t'.pc.taken == 0 && t'.pc.max <= ENTRIES_TO_GET)
    && s'.active == s.active - (if IsActive(s.helpers[i]) then 1 else 0) + (if IsActive(t') then 1 else 0)
    && s'.helperCount == s.helperCount - (if IsHelper(s.helpers[i]) then 1 else 0) + (if IsHelper(t') then 1 else 0)
    && !s.helpers[i].pc.Exited?
  }

  predicate IsWorking(t: Helper) {
    t.pc.Found? || t.pc.Stealing? || t.pc.Marking? || t.pc.Scanning? || t.pc.Unmarked? || t.pc.Pushing?
  }

  lemma SameSlots(s: State, s': State)
    requires s'.slots == s.slots
    ensures forall k :: EmptyBelow(s, k) <==> EmptyBelow(s', k)
  {
  }

  lemma CountMoves(s: State, s': State, i: nat)
    requires i < |s.helpers| && HelperOk(s, s.helpers[i]) && EmptyBelow(s, s.firstNonempty)
    requires Join(s, s', i) || Activate(s, s', i) || Wake(s, s', i) || Exit(s, s', i)
    ensures Controlled(s, s', i, s'.helpers[i])
  {
    SameSlots(s, s');
    hide EmptyBelow;
  }

  lemma ReadMoves(s: State, s': State, i: nat)
    requires i < |s.helpers| && HelperOk(s, s.helpers[i]) && EmptyBelow(s, s.firstNonempty)
    requires ReadFirst(s, s', i) || CompareFirst(s, s', i)
    ensures Controlled(s, s', i, s'.helpers[i])
  {
    SameSlots(s, s');
    hide EmptyBelow;
  }

  lemma TopMoves(s: State, s': State, i: nat)
    requires i < |s.helpers| && HelperOk(s, s.helpers[i]) && EmptyBelow(s, s.firstNonempty)
    requires LoadTop(s, s', i) || Recheck(s, s', i)
    ensures Controlled(s, s', i, s'.helpers[i])
  {
    SameSlots(s, s');
    hide EmptyBelow;
  }

  lemma ControlMoves(s: State, s': State, i: nat)
    requires i < |s.helpers| && HelperOk(s, s.helpers[i]) && EmptyBelow(s, s.firstNonempty) && ControlStep(s, s', i)
    ensures Controlled(s, s', i, s'.helpers[i])
    ensures s'.helpers[i].pc.Exited? ==> Exit(s, s', i)
  {
    hide EmptyBelow, HelperOk, Controlled;
    if Join(s, s', i) || Activate(s, s', i) || Wake(s, s', i) || Exit(s, s', i) {
      CountMoves(s, s', i);
    } else if ReadFirst(s, s', i) || CompareFirst(s, s', i) {
      ReadMoves(s, s', i);
    } else {
      TopMoves(s, s', i);
    }
  }

  lemma QuietControl(s: State, s': State, i: nat)
    requires Quiet(s) && i < |s.helpers| && HelperOk(s, s.helpers[i]) && s.active >= 0 && ControlStep(s, s', i)
    ensures s'.firstNonempty == s.firstNonempty && HelperQuiet(s', s'.helpers[i])
  {
    assert HelperQuiet(s, s.helpers[i]);
  }

  lemma ControlKeeps(h: Heap, z: Sizes, live: set<Obj>, s: State, s': State, i: nat)
    requires Inv(h, z, live, s) && i < |s.helpers| && ControlStep(s, s', i)
    ensures Inv(h, z, live, s')
  {
    hide NoWorkLost, OnlyLive, ControlStep, HelperOk, Quiet, HelperQuiet;
    assert HelperOk(s, s.helpers[i]) && StackFits(z, s.helpers[i]);
    ControlMoves(s, s', i);
    var t' := s'.helpers[i];
    ControlWork(h, live, s, s', i, t');
    if Quiet(s) {
      QuietControl(s, s', i);
      QuietStep(s, s', i, t');
    } else if t'.pc.Exited? {
      NobodyActive(s, s', i);
    }
    BookkeepingStep(z, s, s', i, t');
  }

  /** The last inactive thread to leave finds nobody active, so there is no work. */
  lemma NobodyActive(s: State, s': State, i: nat)
    requires EmptyBelow(s, s.firstNonempty) && Exit(s, s', i) && s.active == CountActive(s.helpers)
    requires forall k :: 0 <= k < |s.helpers| ==> HelperOk(s, s.helpers[k])
    ensures Quiet(s')
  {
    forall k | 0 <= k < |s'.helpers| ensures HelperQuiet(s', s'.helpers[k]) {
      CountZero(s.helpers, k);
      assert HelperOk(s, s.helpers[k]);
      if k != i { assert s'.helpers[k] == s.helpers[k]; }
    }
  }

  /** While a thread works there is work, so nobody has left. */
  lemma WorkerNotQuiet(s: State, i: nat)
    requires i < |s.helpers| && (s.helpers[i].stack != [] || !HelperQuiet(s, s.helpers[i]))
    ensures !Quiet(s)
  {
  }

  lemma LoadDescrKeeps(h: Heap, z: Sizes, live: set<Obj>, s: State, s': State, i: nat)
    requires Inv(h, z, live, s) && LoadDescr(s, s', i)
    ensures Inv(h, z, live, s')
  {
    var t' := s'.helpers[i];
    assert HelperOk(s, s.helpers[i]) && StackFits(z, s.helpers[i]) && HelperLive(h, live, s.helpers[i]);
    CoverStep(h, s, s', i, t');
    LiveStep(h, live, s, s', i, t');
    WorkerNotQuiet(s, i);
    BookkeepingStep(z, s, s', i, t');
  }

  lemma TakeEntryKeeps(h: Heap, z: Sizes, live: set<Obj>, s: State, s': State, i: nat)
    requires Inv(h, z, live, s) && TakeEntry(s, s', i)
    ensures Inv(h, z, live, s')
  {
    var t, t' := s.helpers[i], s'.helpers[i];
    assert HelperOk(s, t) && StackFits(z, t) && HelperLive(h, live, t);
    PendingPush(t.stack, s.slots[t.pc.p].entry);
    assert LiveWords(h, live, WordsOf(s.slots[t.pc.p].entry));
    CoverStep(h, s, s', i, t');
    LiveStep(h, live, s, s', i, t');
    WorkerNotQuiet(s, i);
    BookkeepingStep(z, s, s', i, t');
  }

  /** A step of the marker's own loop: it works on the local stack and the mark bits only. */
  lemma LocalKeeps(h: Heap, z: Sizes, live: set<Obj>, s: State, s': State, i: nat, t': Helper)
    requires Inv(h, z, live, s) && i < |s.helpers| && s'.helpers == s.helpers[i := t']
    requires IsActive(s.helpers[i]) && IsActive(t') && !HelperQuiet(s, s.helpers[i])
    requires s' == s.(helpers := s'.helpers, marked := s'.marked, invalid := s'.invalid)
    requires s.marked <= s'.marked <= Objects(h) && s'.marked <= live && (s.invalid ==> s'.invalid)
    requires StackFits(z, t') && HelperOk(s', t') && HelperLive(h, live, t')
    requires !s'.invalid ==> forall a :: a in HelperWords(h, s.helpers[i]) && a in h.memory ==>
      h.memory[a] in s'.marked || a in HelperWords(h, t')
    requires forall o :: o in s'.marked && o !in s.marked && o in Objects(h) ==> Fields(h, o) <= HelperWords(h, t')
    ensures Inv(h, z, live, s')
  {
    hide HelperWords, HelperOk, StackFits;
    CoverStep(h, s, s', i, t');
    LiveStep(h, live, s, s', i, t');
    WorkerNotQuiet(s, i);
    BookkeepingStep(z, s, s', i, t');
  }

  lemma MoverOk(h: Heap, z: Sizes, live: set<Obj>, s: State, i: nat)
    requires Inv(h, z, live, s) && i < |s.helpers|
    ensures HelperOk(s, s.helpers[i]) && StackFits(z, s.helpers[i]) && HelperLive(h, live, s.helpers[i])
    ensures SizesOk(z) && s.marked <= live && s.marked <= Objects(h)
  {
  }

  /** The first m words of a range and those from k <= m on make up the range. */
  lemma RangeSplit(e: Entry, m: nat, k: nat)
    requires e.descr.Length? && k <= m <= e.descr.words
    ensures WordsOf(e) == WordsOf(Entry(e.start, Length(m))) + WordsOf(Entry(e.start + k, Length(e.descr.words - k)))
  {
  }

  lemma DividedWords(h: Heap, t: Helper)
    requires t.stack != [] && t.pc.Marking? && Top(t).descr.Length? && Top(t).descr.words > SHARE_WORDS
    ensures HelperWords(h, Divided(t)) == HelperWords(h, t)
  {
    var e := Top(t); var half := e.descr.words / 2;
    PendingPush(Below(t), Entry(e.start, Length(half + 1)));
    PendingPush(Below(t) + [Entry(e.start, Length(half + 1))], Entry(e.start + half, Length(e.descr.words - half)));
    RangeSplit(e, half + 1, half);
  }

  lemma DivideTopKeeps(h: Heap, z: Sizes, live: set<Obj>, s: State, s': State, i: nat)
    requires Inv(h, z, live, s) && DivideTop(z, s, s', i)
    ensures Inv(h, z, live, s')
  {
    MoverOk(h, z, live, s, i);
    SameSlots(s, s');
    DividedWords(h, s.helpers[i]);
    hide Inv, EmptyBelow, HelperWords;
    LocalKeeps(h, z, live, s, s', i, s'.helpers[i]);
  }

  lemma PoppedWords(h: Heap, t: Helper)
    requires t.stack != [] && t.pc.Marking?
    ensures HelperWords(h, Popped(t)) == HelperWords(h, t)
  {
    var e := Top(t); var first := SPLIT_WORDS - 1;
    assert PendingWords(t.stack) == PendingWords(Below(t)) + WordsOf(e);
    hide PendingWords, WordsOf;
    if e.descr.Length? && e.descr.words >= SPLIT_WORDS {
      PendingPush(Below(t), Entry(e.start + first, Length(e.descr.words - first)));
      RangeSplit(e, first, first);
    }
  }

  lemma PopTopKeeps(h: Heap, z: Sizes, live: set<Obj>, s: State, s': State, i: nat)
    requires Inv(h, z, live, s) && PopTop(s, s', i)
    ensures Inv(h, z, live, s')
  {
    MoverOk(h, z, live, s, i);
    SameSlots(s, s');
    PoppedWords(h, s.helpers[i]);
    hide Inv, EmptyBelow, HelperWords, WordsOf;
    LocalKeeps(h, z, live, s, s', i, s'.helpers[i]);
  }

  lemma LookAtKeeps(h: Heap, z: Sizes, live: set<Obj>, s: State, s': State, i: nat, a: nat)
    requires Inv(h, z, live, s) && LookAt(h, s, s', i, a)
    ensures Inv(h, z, live, s')
  {
    var t, t' := s.helpers[i], s'.helpers[i];
    MoverOk(h, z, live, s, i);
    SameSlots(s, s');
    hide Inv, EmptyBelow, Covers;
    LocalKeeps(h, z, live, s, s', i, t');
  }

  lemma SetMarkKeeps(h: Heap, z: Sizes, live: set<Obj>, s: State, s': State, i: nat)
    requires HeapOk(h) && Closed(h, live) && Inv(h, z, live, s) && SetMark(h, s, s', i)
    ensures Inv(h, z, live, s')
  {
    var t, t' := s.helpers[i], s'.helpers[i];
    MoverOk(h, z, live, s, i);
    SameSlots(s, s');
    hide Inv, EmptyBelow, Covers;
    LocalKeeps(h, z, live, s, s', i, t');
  }

  lemma PushedWords(h: Heap, z: Sizes, t: Helper)
    requires SizesOk(z) && t.pc.Pushing? && t.pc.t in Objects(h)
    ensures HelperWords(h, Pushed(h, z, t)) <= HelperWords(h, t)
    ensures !Overflows(h, z, t) ==> HelperWords(h, Pushed(h, z, t)) == HelperWords(h, t)
  {
    hide PendingWords, DescrOf;
    var e := Entry(t.pc.t, DescrOf(h, t.pc.t));
    assert PointerFree(e.descr) ==> WordsOf(e) == {};
    hide WordsOf;
    assert HelperWords(h, t) == PendingWords(t.stack) + (t.pc.todo + WordsOf(e));
    assert HelperWords(h, Pushed(h, z, t)) == PendingWords(Pushed(h, z, t).stack) + t.pc.todo;
    if Overflows(h, z, t) {
      PendingPrefix(t.stack, z.localSize - z.discards);
      PendingPush(t.stack[..z.localSize - z.discards], e);
    } else {
      PendingPush(t.stack, e);
    }
  }

  lemma PushMarkedKeeps(h: Heap, z: Sizes, live: set<Obj>, s: State, s': State, i: nat)
    requires Inv(h, z, live, s) && PushMarked(h, z, s, s', i)
    ensures Inv(h, z, live, s')
  {
    MoverOk(h, z, live, s, i);
    SameSlots(s, s');
    PushedWords(h, z, s.helpers[i]);
    hide Inv, EmptyBelow, HelperWords;
    LocalKeeps(h, z, live, s, s', i, s'.helpers[i]);
  }

  lemma {:induction false} PendingSplit(stack: seq<Entry>, n: nat)
    requires n <= |stack|
    ensures PendingWords(stack) == PendingWords(stack[..n]) + PendingWords(stack[n..])
  {
    if n == |stack| {
      assert stack[..n] == stack;
    } else {
      var m := |stack| - 1;
      PendingSplit(stack[..m], n);
      assert stack[..m][..n] == stack[..n] && stack[..m][n..] == stack[n..][..m - n];
    }
  }

  lemma {:induction false} PendingEntry(stack: seq<Entry>, a: nat) returns (k: nat)
    requires a in PendingWords(stack)
    ensures k < |stack| && a in WordsOf(stack[k])
  {
    var m := |stack| - 1;
    if a in WordsOf(stack[m]) { k := m; } else { k := PendingEntry(stack[..m], a); }
  }

  lemma ReturnedWords(h: Heap, z: Sizes, live: set<Obj>, s: State, t: Helper, n: nat)
    requires n <= |t.stack| && LiveWords(h, live, PendingWords(t.stack)) && EmptyBelow(s, s.firstNonempty)
    ensures SlotsGrow(s, Returned(z, s, t, n)) && EmptyBelow(Returned(z, s, t, n), s.firstNonempty)
    ensures !Returned(z, s, t, n).invalid ==> forall a :: a in PendingWords(t.stack[..n]) ==> OnGlobal(Returned(z, s, t, n), a)
    ensures forall j :: |s.slots| <= j < |Returned(z, s, t, n).slots| ==>
      LiveWords(h, live, WordsOf(Returned(z, s, t, n).slots[j].entry))
  {
    var s1 := Returned(z, s, t, n);
    forall a | !s1.invalid && a in PendingWords(t.stack[..n]) ensures OnGlobal(s1, a) {
      var k := PendingEntry(t.stack[..n], a);
      assert s1.slots[|s.slots| + k] == Slot(true, t.stack[k]);
    }
    forall j | |s.slots| <= j < |s1.slots| ensures LiveWords(h, live, WordsOf(s1.slots[j].entry)) {
      PendingMember(t.stack, j - |s.slots|);
    }
  }

  /** Giving the first n local entries back loses nothing unless the state becomes invalid. */
  lemma ReturnKeeps(h: Heap, z: Sizes, live: set<Obj>, s: State, s': State, i: nat, n: nat, t': Helper)
    requires Inv(h, z, live, s) && i < |s.helpers| && s.helpers[i].pc.Marking? && 0 < n <= |s.helpers[i].stack|
    requires t'.stack == s.helpers[i].stack[n..] && t'.first == s.helpers[i].first
    requires t'.pc.Marking? || (t'.pc.LoopTop? && t'.stack == [])
    requires s' == Move(Returned(z, s, s.helpers[i], n), i, t')
    ensures Inv(h, z, live, s')
  {
    hide SlotsGrow, OnGlobal, NoWorkLost, OnlyLive, EmptyBelow, HelperOk, HelperWords, Returned, LiveWords;
    var t := s.helpers[i];
    MoverOk(h, z, live, s, i);
    ReturnedHelper(h, z, live, s, s', i, n, t');
    CoverStep(h, s, s', i, t');
    LiveStep(h, live, s, s', i, t');
    WorkerNotQuiet(s, i);
    BookkeepingStep(z, s, s', i, t');
  }

  /** What the step has to show: the thread knows what it knew, and its words are with it or on the global stack. */
  lemma ReturnedHelper(h: Heap, z: Sizes, live: set<Obj>, s: State, s': State, i: nat, n: nat, t': Helper)
    requires EmptyBelow(s, s.firstNonempty) && i < |s.helpers| && s.helpers[i].pc.Marking? && n <= |s.helpers[i].stack|
    requires HelperOk(s, s.helpers[i]) && HelperLive(h, live, s.helpers[i]) && |s.slots| <= z.capacity
    requires t'.stack == s.helpers[i].stack[n..] && t'.first == s.helpers[i].first
    requires t'.pc.Marking? || (t'.pc.LoopTop? && t'.stack == [])
    requires s' == Move(Returned(z, s, s.helpers[i], n), i, t')
    ensures SlotsGrow(s, s') && HelperOk(s', t') && EmptyBelow(s', s'.firstNonempty) && HelperLive(h, live, t')
    ensures s'.helpers == s.helpers[i := t'] && |s'.slots| <= z.capacity && s'.firstNonempty == s.firstNonempty && s'.marked == s.marked && (s.invalid ==> s'.invalid)
    ensures s'.active == s.active && s'.helperCount == s.helperCount && s'.helpWanted == s.helpWanted
    ensures !s'.invalid ==> forall a :: a in HelperWords(h, s.helpers[i]) ==> OnGlobal(s', a) || a in HelperWords(h, t')
    ensures forall j :: 0 <= j < |s.slots| ==> s'.slots[j] == s.slots[j]
    ensures forall j :: |s.slots| <= j < |s'.slots| ==> LiveWords(h, live, WordsOf(s'.slots[j].entry))
  {
    var t := s.helpers[i];
    PendingSplit(t.stack, n);
    ReturnedWords(h, z, live, s, t, n);
    assert forall a :: OnGlobal(Returned(z, s, t, n), a) ==> OnGlobal(s', a);
    KnowStep(s, s', t);
  }

  lemma WorkKeeps(h: Heap, z: Sizes, live: set<Obj>, s: State, s': State, i: nat)
    requires HeapOk(h) && Closed(h, live) && Inv(h, z, live, s) && WorkStep(h, z, s, s', i)
    ensures Inv(h, z, live, s')
  {
    hide Inv, LookAt, DivideTop, PopTop, SetMark, PushMarked, LoadDescr, TakeEntry;
    if LoadDescr(s, s', i) { LoadDescrKeeps(h, z, live, s, s', i); }
    else if TakeEntry(s, s', i) { TakeEntryKeeps(h, z, live, s, s', i); }
    else if DivideTop(z, s, s', i) { DivideTopKeeps(h, z, live, s, s', i); }
    else if PopTop(s, s', i) { PopTopKeeps(h, z, live, s, s', i); }
    else if a :| LookAt(h, s, s', i, a) { LookAtKeeps(h, z, live, s, s', i, a); }
    else if SetMark(h, s, s', i) { SetMarkKeeps(h, z, live, s, s', i); }
    else if PushMarked(h, z, s, s', i) { PushMarkedKeeps(h, z, live, s, s', i); }
    else if ReturnAll(z, s, s', i) { ReturnKeeps(h, z, live, s, s', i, |s.helpers[i].stack|, s'.helpers[i]); }
    else if ShareHalf(z, s, s', i) { ReturnKeeps(h, z, live, s, s', i, (|s.helpers[i].stack| - 1) / 2, s'.helpers[i]); }
    else { DoneKeeps(h, z, live, s, s', i); }
  }

  lemma DoneKeeps(h: Heap, z: Sizes, live: set<Obj>, s: State, s': State, i: nat)
    requires Inv(h, z, live, s) && (ScanDone(s, s', i) || LocalDone(s, s', i))
    ensures Inv(h, z, live, s')
  {
    var t, t' := s.helpers[i], s'.helpers[i];
    MoverOk(h, z, live, s, i);
    SameSlots(s, s');
    hide Inv, EmptyBelow, Covers;
    LocalKeeps(h, z, live, s, s', i, t');
  }

  lemma StepKeeps(h: Heap, z: Sizes, live: set<Obj>, s: State, s': State)
    requires HeapOk(h) && Closed(h, live) && Inv(h, z, live, s) && Step(h, z, s, s')
    ensures Inv(h, z, live, s')
  {
    hide ControlStep, WorkStep;
    if StopHelp(s, s') {
      assert NoWorkLost(h, s') by {
        forall a | WordSafe(h, s, a) ensures WordSafe(h, s', a) {
          if a in h.memory && h.memory[a] !in s.marked && !OnGlobal(s, a) {
            var k :| 0 <= k < |s.helpers| && a in HelperWords(h, s.helpers[k]);
            assert a in HelperWords(h, s'.helpers[k]);
          }
        }
      }
      forall k | 0 <= k < |s'.helpers| ensures HelperOk(s', s'.helpers[k]) { KnowStep(s, s', s.helpers[k]); }
      assert Quiet(s) && forall k :: 0 <= k < |s.helpers| ==> HelperQuiet(s, s.helpers[k]);
    } else {
      var i: nat :| i < |s.helpers| && (ControlStep(s, s', i) || WorkStep(h, z, s, s', i));
      if ControlStep(s, s', i) { ControlKeeps(h, z, live, s, s', i); } else { WorkKeeps(h, z, live, s, s', i); }
    }
  }

  // ----- Whole runs -----

  /** GC_do_parallel_mark at its start: the caller is the only helper, and every
      word that may need marking is on the global stack or points to a marked object. */
  ghost predicate Start(h: Heap, z: Sizes, live: set<Obj>, s: State) {
    && |s.helpers| > 0 && |s.slots| <= z.capacity && SizesOk(z)
    && (forall k :: 0 <= k < |s.helpers| ==>
          s.helpers[k].stack == [] && (if k == 0 then s.helpers[k].pc.Joined? else s.helpers[k].pc.Idle?))
    && s.firstNonempty == 0 && s.active == 0 && s.helperCount == 1 && s.helpWanted
    && s.marked <= Objects(h) && NoWorkLost(h, s) && OnlyLive(h, live, s)
  }

  ghost predicate Run(h: Heap, z: Sizes, run: seq<State>) {
    |run| > 0 && forall n :: 0 <= n < |run| - 1 ==> Step(h, z, run[n], run[n + 1])
  }

  /** GC_do_parallel_mark may return. */
  predicate Finished(s: State) {
    !s.helpWanted && s.helperCount == 0
  }

  lemma {:induction false} StartCounts(ts: seq<Helper>)
    requires forall k :: 0 <= k < |ts| ==> if k == 0 then ts[k].pc.Joined? else ts[k].pc.Idle?
    ensures CountActive(ts) == 0 && CountHelpers(ts) == (if ts == [] then 0 else 1)
  {
    if ts != [] { StartCounts(ts[..|ts| - 1]); }
  }

  lemma {:induction false} RunKeeps(h: Heap, z: Sizes, live: set<Obj>, run: seq<State>, n: nat)
    requires HeapOk(h) && Closed(h, live) && Run(h, z, run) && Start(h, z, live, run[0]) && n < |run|
    ensures Inv(h, z, live, run[n])
  {
    if n == 0 {
      StartCounts(run[0].helpers);
    } else {
      RunKeeps(h, z, live, run, n - 1);
      StepKeeps(h, z, live, run[n - 1], run[n - 1 + 1]);
    }
  }

  /** In every interleaving, as long as the state is not invalid, work that is not
      done is in an active helper's hands or at a position from firstNonempty on. */
  lemma NoWorkLostInAnyRun(h: Heap, z: Sizes, live: set<Obj>, run: seq<State>, n: nat, a: nat)
    requires HeapOk(h) && Closed(h, live) && Run(h, z, run) && Start(h, z, live, run[0]) && n < |run|
    requires !run[n].invalid && a in h.memory && h.memory[a] !in run[n].marked
    requires a in RootWords(h) || exists o :: o in run[n].marked && o in Objects(h) && a in Fields(h, o)
    ensures (exists k :: 0 <= k < |run[n].helpers| && IsActive(run[n].helpers[k]) && a in HelperWords(h, run[n].helpers[k]))
         || exists j :: run[n].firstNonempty <= j < |run[n].slots| && run[n].slots[j].full && a in WordsOf(run[n].slots[j].entry)
  {
    RunKeeps(h, z, live, run, n);
    var s := run[n];
    assert WordSafe(h, s, a);
    if k :| 0 <= k < |s.helpers| && a in HelperWords(h, s.helpers[k]) { assert HelperOk(s, s.helpers[k]); }
  }

  /** When GC_do_parallel_mark returns nothing is left to do: all threads have left
      or never came, no stack holds an entry, and the marks are closed under
      pointers and cover the roots - unless the state has become invalid. */
  lemma FinishedMeansDone(h: Heap, z: Sizes, live: set<Obj>, run: seq<State>, n: nat)
    requires HeapOk(h) && Closed(h, live) && Run(h, z, run) && Start(h, z, live, run[0]) && n < |run|
    requires Finished(run[n])
    ensures forall k :: 0 <= k < |run[n].helpers| ==> !IsHelper(run[n].helpers[k]) && run[n].helpers[k].stack == []
    ensures forall j :: 0 <= j < |run[n].slots| ==> !run[n].slots[j].full
    ensures run[n].marked <= live
    ensures !run[n].invalid ==> Closed(h, run[n].marked)
    ensures !run[n].invalid ==> forall a :: a in RootWords(h) && a in h.memory ==> h.memory[a] in run[n].marked
  {
    RunKeeps(h, z, live, run, n);
    var s := run[n];
    forall k | 0 <= k < |s.helpers| ensures !IsHelper(s.helpers[k]) && s.helpers[k].stack == [] && HelperWords(h, s.helpers[k]) == {} {
      CountZero(s.helpers, k);
      assert HelperQuiet(s, s.helpers[k]);
    }
    if !s.invalid {
      forall a | WordSafe(h, s, a) && a in h.memory ensures h.memory[a] in s.marked { }
    }
  }

  lemma StepMarksGrow(h: Heap, z: Sizes, s: State, s': State)
    requires Step(h, z, s, s')
    ensures s.marked <= s'.marked
  {
    hide Divided, Popped, Pushed, Overflows;
  }

  lemma {:induction false} MarksGrow(h: Heap, z: Sizes, run: seq<State>, n: nat)
    requires Run(h, z, run) && n < |run|
    ensures run[0].marked <= run[n].marked
  {
    hide Step;
    if n > 0 {
      MarksGrow(h, z, run, n - 1);
      StepMarksGrow(h, z, run[n - 1], run[n - 1 + 1]);
    }
  }

  /** Started with the root ranges on the global stack and the stack roots marked,
      a run that ends without becoming invalid has marked exactly what is
      reachable from the roots and from what was marked at its start. */
  lemma FinishedIsExact(h: Heap, z: Sizes, run: seq<State>, n: nat)
    requires HeapOk(h) && Run(h, z, run) && n < |run| && Finished(run[n]) && !run[n].invalid
    requires forall o :: o in h.stackRoots ==> o in run[0].marked
    requires Start(h, z, Reach(h, run[0].marked + RootObjects(h)), run[0])
    ensures run[n].marked == Reach(h, run[0].marked + RootObjects(h))
  {
    var seeds := run[0].marked + RootObjects(h);
    ReachIsClosed(h, seeds);
    FinishedMeansDone(h, z, Reach(h, seeds), run, n);
    MarksGrow(h, z, run, n);
    ReachLeast(h, seeds, run[n].marked);
  }
}

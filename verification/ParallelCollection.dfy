/** The marker's state machine with several threads: once the roots are pushed, marking from
    them is left to the parallel protocol. */
module ParallelCollection {
  import opened ObjectGraph
  import opened Marker
  import P = ParallelMark
  import O = ParallelOverflow
  import Solo = SoloMarking

  function Slots(stack: seq<Entry>): (slots: seq<P.Slot>)
    ensures |slots| == |stack| && forall j :: 0 <= j < |stack| ==> slots[j] == P.Slot(true, stack[j])
  {
    seq(|stack|, j requires 0 <= j < |stack| => P.Slot(true, stack[j]))
  }

  /** The whole mark stack is handed to the threads, the first of which is the caller. */
  function Handed(stack: seq<Entry>, marked: set<Obj>, others: nat): P.State {
    P.State(Slots(stack), 0, false, 0, 1, true, marked, [P.Helper(P.Joined, 0, [])] + seq(others, _ => P.Helper(P.Idle, 0, [])))
  }

  lemma {:induction false} PendingOnGlobal(stack: seq<Entry>, s: P.State, a: nat)
    requires |stack| <= |s.slots| && forall j :: 0 <= j < |stack| ==> s.slots[j] == P.Slot(true, stack[j])
    ensures a in PendingWords(stack) ==> P.OnGlobal(s, a)
  {
    if stack != [] {
      var n := |stack| - 1;
      PendingOnGlobal(stack[..n], s, a);
      if a in WordsOf(stack[n]) { assert s.slots[n].full && a in WordsOf(s.slots[n].entry); }
    }
  }

  /** What is pending for the state machine is on the global stack for the threads. */
  lemma NothingLost(h: Heap, stack: seq<Entry>, s: P.State)
    requires s.slots == Slots(stack) && s.marked <= Objects(h)
    requires forall a :: a in RootWords(h) && a in h.memory ==> h.memory[a] in s.marked || a in PendingWords(stack)
    requires forall o, a :: o in s.marked && a in Fields(h, o) && a in h.memory ==> h.memory[a] in s.marked || a in PendingWords(stack)
    ensures P.NoWorkLost(h, s)
  {
    hide PendingWords, Objects, Fields, RootWords, P.OnGlobal;
    forall a ensures a in PendingWords(stack) ==> P.OnGlobal(s, a) { PendingOnGlobal(stack, s, a); }
  }

  lemma AllLive(h: Heap, live: set<Obj>, stack: seq<Entry>, s: P.State)
    requires s.slots == Slots(stack) && s.marked <= live
    requires forall a :: a in PendingWords(stack) && a in h.memory ==> h.memory[a] in live
    requires forall k :: 0 <= k < |s.helpers| ==> s.helpers[k].stack == [] && (s.helpers[k].pc.Joined? || s.helpers[k].pc.Idle?)
    ensures P.OnlyLive(h, live, s)
  {
    hide PendingWords, P.HelperWords;
    forall j | 0 <= j < |s.slots| ensures P.LiveWords(h, live, WordsOf(s.slots[j].entry)) { PendingMember(stack, j); }
    forall k | 0 <= k < |s.helpers| ensures P.HelperLive(h, live, s.helpers[k]) { NoWords(h, s.helpers[k]); }
  }

  /** With the roots pushed, the parallel protocol may start: no work is lost and nothing unreachable is about to be marked. */
  lemma RootsPushedIsStart(m: MarkMachine, z: P.Sizes, others: nat)
    requires m.Inv() && m.state == ROOTS_PUSHED && z.capacity == m.capacity && P.SizesOk(z)
    ensures P.Start(m.heap, z, m.Live(), Handed(m.stack, m.marked, others))
  {
    hide HeapOk, PendingWords, Objects, Fields, RootWords, Reach, P.NoWorkLost, P.OnlyLive;
    var s := Handed(m.stack, m.marked, others);
    NothingLost(m.heap, m.stack, s);
    AllLive(m.heap, m.Live(), m.stack, s);
  }

  lemma NoWords(h: Heap, t: P.Helper)
    requires t.stack == [] && (t.pc.Joined? || t.pc.Idle?)
    ensures P.HelperWords(h, t) == {}
  {
  }

  lemma SameGoal(m: MarkMachine)
    requires m.Shape() && m.Sound() && m.goal == m.start + RootObjects(m.heap)
    ensures Reach(m.heap, m.marked + RootObjects(m.heap)) == m.Live()
  {
    hide Reach, HeapOk;
    ReachMonotone(m.heap, m.goal, m.marked + RootObjects(m.heap));
    ReachIsClosed(m.heap, m.goal);
    RootsInHeap(m.heap);
    SeedsReached(m.heap, RootObjects(m.heap));
    ReachMonotone(m.heap, RootObjects(m.heap), m.goal);
    ReachLeast(m.heap, m.marked + RootObjects(m.heap), m.Live());
  }

  lemma RootsInHeap(h: Heap)
    requires HeapOk(h)
    ensures RootObjects(h) <= Objects(h)
  {
  }

  /** What the end of a run says about the marks. */
  lemma RunOutcome(m: MarkMachine, z: P.Sizes, others: nat, run: seq<P.State>)
    requires m.Inv() && m.state == ROOTS_PUSHED && z.capacity == m.capacity && P.SizesOk(z)
    requires |run| > 0 && P.Run(m.heap, z, run) && run[0] == Handed(m.stack, m.marked, others) && P.Finished(run[|run| - 1])
    ensures var last := run[|run| - 1]; m.marked <= last.marked <= m.Live() && (!last.invalid ==> last.marked == m.Live())
  {
    hide Reach, HeapOk, P.Start, P.Run, RootObjects;
    var n := |run| - 1;
    RootsPushedIsStart(m, z, others);
    ReachIsClosed(m.heap, m.goal);
    P.FinishedMeansDone(m.heap, z, m.Live(), run, n);
    P.MarksGrow(m.heap, z, run, n);
    if !run[n].invalid {
      SameGoal(m);
      P.FinishedIsExact(m.heap, z, run, n);
    }
  }

  /** Stacks so large that, whatever is pushed and divided, none becomes half full: no entry and no object has
      more words than `longest`. */
  ghost predicate LargeStacks(h: Heap, z: P.Sizes, stack: seq<Entry>, longest: nat) {
    && longest > 0 && z.localSize > 2 * ((6 + |Solo.WithPointers(h)|) * longest)
    && (forall j :: 0 <= j < |stack| ==> Span(stack[j].descr) <= longest)
    && forall o :: o in Objects(h) ==> Span(DescrOf(h, o)) <= longest
  }

  /** With large enough stacks there is a run that ends and stays valid. */
  lemma ValidRunExists(h: Heap, z: P.Sizes, stack: seq<Entry>, marked: set<Obj>, others: nat, longest: nat) returns (run: seq<P.State>)
    requires HeapOk(h) && marked <= Objects(h) && LargeStacks(h, z, stack, longest)
    ensures |run| > 0 && P.Run(h, z, run) && run[0] == Handed(stack, marked, others)
    ensures P.Finished(run[|run| - 1]) && !run[|run| - 1].invalid
  {
    hide HeapOk, Objects, Solo.WithPointers;
    run := Solo.Complete(h, z, longest, Handed(stack, marked, others));
  }

  /** So the protocol can do what it is for: some run marks exactly the live objects. */
  lemma ExactRunExists(m: MarkMachine, z: P.Sizes, others: nat, longest: nat) returns (run: seq<P.State>)
    requires m.Inv() && m.state == ROOTS_PUSHED && z.capacity == m.capacity && P.SizesOk(z) && LargeStacks(m.heap, z, m.stack, longest)
    ensures |run| > 0 && P.Run(m.heap, z, run) && run[0] == Handed(m.stack, m.marked, others) && P.Finished(run[|run| - 1])
    ensures run[|run| - 1].marked == m.Live() && !O.NoRoomBefore(m.heap, z, run, |run| - 1)
  {
    hide HeapOk, Reach, P.Run, Objects, LargeStacks, O.NoRoomBefore;
    run := ValidRunExists(m.heap, z, m.stack, m.marked, others, longest);
    RunOutcome(m, z, others, run);
    O.InvalidIff(m.heap, z, run, |run| - 1);
  }

  /** GC_mark_some in state MS_ROOTS_PUSHED, with parallel marking.  run is what the threads have done;
      dropped is the request for a larger stack, made where entries given back did not fit. */
  method MarkInParallel(m: MarkMachine, z: P.Sizes, others: nat, run: seq<P.State>, dropped: bool, granted: bool) returns (p: Progress)
    requires m.Inv() && m.state == ROOTS_PUSHED && z.capacity == m.capacity && P.SizesOk(z)
    requires |run| > 0 && P.Run(m.heap, z, run) && run[0] == Handed(m.stack, m.marked, others) && P.Finished(run[|run| - 1])
    requires dropped <==> O.EntriesDropped(z, run)
    modifies m`state, m`stack, m`capacity, m`tooSmall, m`objectsAreMarked, m`marked
    ensures m.Inv() && m.stack == [] && old(m.marked) <= m.marked
    ensures p == if O.NoRoomBefore(m.heap, z, run, |run| - 1) then More else Finished
    ensures p == Finished ==> m.marked == m.Live() && m.state == NONE
    ensures p == More ==> m.state == INVALID && m.marked == run[|run| - 1].marked
    ensures !m.tooSmall && m.capacity == if (old(m.tooSmall) || dropped) && granted then 2 * old(m.capacity) else old(m.capacity)
  {
    hide HeapOk, Reach, P.Run, P.Finished, P.Step, Objects, PendingWords, Fields, RootObjects, RootWords, MarkMachine.ObjectsFrom, MarkMachine.UncollectableFrom, O.NoRoomBefore, O.EntriesDropped;
    O.InvalidIff(m.heap, z, run, |run| - 1);
    if dropped { O.DroppedInvalid(m.heap, z, run); }
    RunOutcome(m, z, others, run);
    var last := run[|run| - 1];
    LiveInHeap(m);
    NothingPending(m);
    m.marked := last.marked;
    m.stack := [];
    m.objectsAreMarked := true;
    if last.invalid { m.state := INVALID; }
    if dropped { m.tooSmall := true; }
    if m.tooSmall { m.AllocMarkStack(2 * m.capacity, granted); }
    if m.state == ROOTS_PUSHED {
      m.state := NONE;
      AllTraced(m);
      return Finished;
    }
    return More;
  }

  lemma LiveInHeap(m: MarkMachine)
    ensures m.Live() <= Objects(m.heap)
  {
  }

  lemma NothingPending(m: MarkMachine)
    ensures PendingWords([]) == {}
  {
  }

  lemma AllTraced(m: MarkMachine)
    requires HeapOk(m.heap) && m.marked == m.Live() && m.marked <= Objects(m.heap)
    ensures m.Covered({}, {}, {})
  {
    ReachIsClosed(m.heap, m.goal);
  }
}

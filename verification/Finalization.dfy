/** Finalization order by marking: from every registered object that is not marked
    its contents are marked; those that are still not marked are queued. */
module Finalization {
  import opened ObjectGraph
  import opened MarkDrain
  import opened FinalMarking
  import opened Marker

  /** A finalizable object and the size of the record's object. */
  datatype Fo = Fo(base: Obj, size: nat)

  // ----- Marking from one finalizable object -----

  /** Between collections: nothing is pending, the roots are marked and the marks closed under pointers. */
  ghost predicate Ready(m: MarkMachine)
    reads m
  {
    m.Shape() && m.state == NONE && m.stack == [] && Closed(m.heap, m.marked) && RootObjects(m.heap) <= m.marked
  }

  ghost predicate HeapObject(m: MarkMachine, u: Obj) {
    u in Objects(m.heap)
  }

  /** What marking from the finalizable object u starts from. */
  method Aim(m: MarkMachine, u: Obj)
    requires Ready(m) && HeapObject(m, u)
    modifies m`goal, m`start
    ensures m.goal == m.marked + TargetsOf(m.heap, {u}) && m.start == {}
    ensures m.Shape() && m.Sound() && m.Covered({}, {}, {})
    ensures forall a :: a in Fields(m.heap, u) && a in m.heap.memory ==> m.heap.memory[a] in m.Live()
  {
    hide Reach, Objects, RootObjects;
    AimLemma(m.heap, m.marked, u);
    m.start := {};
    m.goal := m.marked + TargetsOf(m.heap, {u});
  }

  lemma AimLemma(h: Heap, marked: set<Obj>, u: Obj)
    requires HeapOk(h) && marked <= Objects(h) && u in Objects(h)
    ensures marked + TargetsOf(h, {u}) <= Reach(h, marked + TargetsOf(h, {u}))
    ensures forall a :: a in Fields(h, u) && a in h.memory ==> h.memory[a] in TargetsOf(h, {u})
  {
    TargetsAreObjects(h, {u});
    SeedsReached(h, marked + TargetsOf(h, {u}));
  }

  /** GC_normal_finalize_mark_proc. */
  method PushContentsOf(m: MarkMachine, u: Obj)
    requires m.Shape() && m.Sound() && m.Covered({}, {}, {}) && m.state == NONE && m.stack == [] && HeapObject(m, u)
    requires forall a :: a in Fields(m.heap, u) && a in m.heap.memory ==> m.heap.memory[a] in m.Live()
    modifies m`stack, m`state, m`tooSmall
    ensures m.Shape() && m.Sound() && m.Covered({}, Fields(m.heap, u), {}) && m.state == NONE
    ensures m.stack == Pushed(m.heap, u)
  {
    PendingPush([], EntryOf(m.heap, u));
    assert [] + Pushed(m.heap, u) == Pushed(m.heap, u);
    m.PushObj(u);
  }

  /** Mark from the stack until it is empty: an overflow happens if and only if the stack gets too high. */
  method EmptyStack(m: MarkMachine, u: Obj)
    requires m.Shape() && m.Sound() && HeapObject(m, u) && m.Covered({}, Fields(m.heap, u), {}) && m.state == NONE
    modifies m`stack, m`state, m`tooSmall, m`marked, m`objectsAreMarked
    ensures m.Shape() && m.Sound() && m.Covered({}, Fields(m.heap, u), {}) && m.stack == []
    ensures old(m.marked) <= m.marked && (m.state == NONE || m.state == INVALID)
    ensures m.state == INVALID ==> m.objectsAreMarked && m.tooSmall
    ensures m.state == INVALID <==> Peak(m.heap, old(m.Now())) > m.capacity
  {
    hide Reach, HeapOk, Fields, Objects, PendingWords, Weight, Round;
    if m.stack == [] { return; }
    ghost var d := m.Now();
    m.MarkFrom({}, Fields(m.heap, u));
    while m.stack != []
      invariant m.Shape() && m.Sound() && m.Covered({}, Fields(m.heap, u), {}) && m.objectsAreMarked
      invariant old(m.marked) <= m.marked && (m.state == NONE || m.state == INVALID)
      invariant m.OnCourse(d, NONE) && (m.state == INVALID ==> m.tooSmall)
      decreases |Objects(m.heap) - m.marked|, Weight(m.stack)
    {
      ghost var before := m.marked;
      m.MarkFrom({}, Fields(m.heap, u));
      FewerLeft(before, m.marked, Objects(m.heap));
    }
  }

  /** With nothing left on the stack and no overflow, exactly what u leads to has been added. */
  lemma MarkedFrom(m: MarkMachine, u: Obj, before: set<Obj>)
    requires m.Shape() && m.Sound() && HeapObject(m, u) && m.Covered({}, Fields(m.heap, u), {}) && m.stack == [] && m.state == NONE
    requires before <= m.marked && m.goal == before + TargetsOf(m.heap, {u}) && RootObjects(m.heap) <= before
    ensures m.marked == Reach(m.heap, before + TargetsOf(m.heap, {u})) && Ready(m)
  {
    assert PendingWords(m.stack) == {};
    assert Closed(m.heap, m.marked);
    assert TargetsOf(m.heap, {u}) <= m.marked;
    ReachLeast(m.heap, m.goal, m.marked);
  }

  /** GC_MARK_FO with the normal mark procedure.  After an overflow u itself is marked, and the
      marking is redone from all marked objects; this comes to an end if memory is granted from some step on. */
  method MarkFo(m: MarkMachine, u: Obj, grants: Grants) returns (done: bool, overflow: bool)
    requires Ready(m) && HeapObject(m, u)
    modifies m
    ensures done ==> Ready(m) && m.marked == Reach(m.heap, old(m.marked) + if overflow then {u} else TargetsOf(m.heap, {u}))
    ensures overflow <==> DrainPeak(m.heap, old(m.marked), u) > old(m.capacity)
    ensures (!overflow ==> done && m.capacity == old(m.capacity)) && old(m.marked) <= m.marked
    ensures old(m.capacity) <= m.capacity && (NoneGranted(grants) ==> m.capacity == old(m.capacity))
    ensures grants.patient && RootsFit(m.heap, old(m.capacity), m.Limit()) ==> done
    ensures AllGranted(grants) && overflow && done ==> m.capacity >= 2 * old(m.capacity)
  {
    hide Reach, HeapOk, Fields, Objects, PendingWords, RootObjects, TargetsOf, Peak, m.Limit;
    ghost var before := m.marked;
    Aim(m, u);
    PushContentsOf(m, u);
    EmptyStack(m, u);
    if m.state == NONE {
      MarkedFrom(m, u, before);
      return true, false;
    }
    overflow := true;
    SetMarkBit(m, u, before);
    done := Recover(m, u, before, grants);
  }

  /** Pushing the root ranges cannot fail: there are none, or the mark stack is large enough for everything. */
  ghost predicate RootsFit(h: Heap, size: nat, limit: nat) {
    h.rootRanges == [] || size >= limit
  }

  /** After an overflow the mark of u keeps its contents from being forgotten. */
  method SetMarkBit(m: MarkMachine, u: Obj, ghost before: set<Obj>)
    requires m.Shape() && m.Sound() && HeapObject(m, u) && m.stack == [] && m.state == INVALID && m.objectsAreMarked
    requires before <= m.marked && m.goal == before + TargetsOf(m.heap, {u}) && RootObjects(m.heap) <= before
    modifies m`marked, m`start, m`goal
    ensures m.Inv() && m.state == INVALID && m.marked == old(m.marked) + {u} && m.start == m.marked
    ensures Reach(m.heap, m.goal) == Reach(m.heap, before + {u})
  {
    hide Reach, Objects, RootObjects, TargetsOf;
    RootsAreObjects(m.heap);
    SeedsReached(m.heap, m.marked + {u} + RootObjects(m.heap));
    RestartedGoal(m.heap, u, before, m.marked + {u} + RootObjects(m.heap));
    m.marked := m.marked + {u};
    m.start := m.marked;
    m.goal := m.start + RootObjects(m.heap);
  }

  lemma RootsAreObjects(h: Heap)
    requires HeapOk(h)
    ensures RootObjects(h) <= Objects(h)
  {
  }

  lemma RestartedGoal(h: Heap, u: Obj, before: set<Obj>, goal: set<Obj>)
    requires HeapOk(h) && u in Objects(h) && before <= Objects(h) && before + {u} <= goal
    requires goal <= Reach(h, before + TargetsOf(h, {u})) + {u} + before
    ensures Reach(h, goal) == Reach(h, before + {u})
  {
    hide HeapOk, Reach, Objects;
    ReachMonotone(h, before + {u}, goal);
    ReachIsClosed(h, before + {u});
    SeedsReached(h, before + {u});
    ClosedTargets(h, {u}, Reach(h, before + {u}));
    ReachLeast(h, before + TargetsOf(h, {u}), Reach(h, before + {u}));
    ReachLeast(h, goal, Reach(h, before + {u}));
  }

  method Recover(m: MarkMachine, u: Obj, ghost before: set<Obj>, grants: Grants) returns (done: bool)
    requires m.Inv() && m.state == INVALID && HeapObject(m, u) && before + {u} <= m.start
    requires RootObjects(m.heap) <= before && Reach(m.heap, m.goal) == Reach(m.heap, before + {u})
    modifies m`state, m`scan, m`stack, m`capacity, m`tooSmall, m`objectsAreMarked, m`marked
    ensures done ==> Ready(m) && m.marked == Reach(m.heap, before + {u})
    ensures old(m.marked) <= m.marked
    ensures old(m.capacity) <= m.capacity && (NoneGranted(grants) ==> m.capacity == old(m.capacity))
    ensures grants.patient && RootsFit(m.heap, old(m.capacity), m.Limit()) ==> done
    ensures AllGranted(grants) && old(m.Pressed()) && done ==> m.capacity >= 2 * old(m.capacity)
  {
    hide Reach, HeapOk, Objects, RootObjects, m.Limit, m.Left;
    for i := 0 to |grants.first|
      invariant m.Inv() && m.state != NONE && m.Paced() && old(m.marked) <= m.marked && old(m.capacity) <= m.capacity
      invariant NoneGranted(grants) ==> m.capacity == old(m.capacity)
      invariant AllGranted(grants) && old(m.Pressed()) ==> m.Pressed() || m.capacity >= 2 * old(m.capacity)
    {
      assert grants.first[i] in grants.first;
      var p := m.MarkSome(grants.first[i]);
      if p == Finished { RecoveredIsReady(m, before, u); return true; }
      if p == Aborted { return false; }
    }
    if !grants.patient { return false; }
    done := m.MarkOn();
    if done { RecoveredIsReady(m, before, u); }
  }

  lemma RecoveredIsReady(m: MarkMachine, before: set<Obj>, u: Obj)
    requires m.Inv() && m.state == NONE && m.marked == m.Live() && before + {u} <= m.start && RootObjects(m.heap) <= before
    requires Reach(m.heap, m.goal) == Reach(m.heap, before + {u})
    ensures Ready(m)
  {
    ReachIsClosed(m.heap, m.goal);
  }

  // ----- The table of finalizable objects -----

  /** The objects registered in the entries before the k-th one of chain i. */
  ghost function Visited(chains: seq<seq<Fo>>, i: nat, k: nat): set<Obj> {
    set p, q | 0 <= p < |chains| && 0 <= q < |chains[p]| && (p < i || (p == i && q < k)) :: chains[p][q].base
  }

  ghost function Bases(chains: seq<seq<Fo>>): set<Obj> {
    set p, q | 0 <= p < |chains| && 0 <= q < |chains[p]| :: chains[p][q].base
  }

  lemma VisitedNext(chains: seq<seq<Fo>>, i: nat, k: nat)
    requires i < |chains| && k < |chains[i]|
    ensures Visited(chains, i, k + 1) == Visited(chains, i, k) + {chains[i][k].base}
  {
  }

  lemma VisitedChain(chains: seq<seq<Fo>>, i: nat)
    ensures i < |chains| ==> Visited(chains, i, |chains[i]|) == Visited(chains, i + 1, 0)
    ensures Visited(chains, 0, 0) == {} && Visited(chains, |chains|, 0) == Bases(chains)
  {
  }

  /** No object is registered twice. */
  ghost predicate Distinct(chains: seq<seq<Fo>>) {
    forall i, j, k, l | 0 <= i < |chains| && 0 <= j < |chains[i]| && 0 <= k < |chains| && 0 <= l < |chains[k]| ::
      chains[i][j].base == chains[k][l].base ==> i == k && j == l
  }

  /** The entries of a chain that stay, and those that are queued, last one first. */
  function Stays(chain: seq<Fo>, marked: set<Obj>): seq<Fo> {
    if chain == [] then [] else
      var last := chain[|chain| - 1];
      Stays(chain[..|chain| - 1], marked) + if last.base in marked then [last] else []
  }

  function Leaves(chain: seq<Fo>, marked: set<Obj>): seq<Fo> {
    if chain == [] then [] else
      var last := chain[|chain| - 1];
      (if last.base in marked then [] else [last]) + Leaves(chain[..|chain| - 1], marked)
  }

  /** The entries of all chains that are queued, in the order of the queue. */
  function AllLeave(chains: seq<seq<Fo>>, marked: set<Obj>): seq<Fo> {
    if chains == [] then [] else
      Leaves(chains[|chains| - 1], marked) + AllLeave(chains[..|chains| - 1], marked)
  }

  function Total(chains: seq<seq<Fo>>): nat {
    if chains == [] then 0 else Total(chains[..|chains| - 1]) + |chains[|chains| - 1]|
  }

  function Bytes(queue: seq<Fo>, foSize: nat): nat {
    if queue == [] then 0 else queue[0].size + foSize + Bytes(queue[1..], foSize)
  }

  ghost function BaseSet(queue: seq<Fo>): set<Obj> {
    set j | 0 <= j < |queue| :: queue[j].base
  }

  lemma {:induction false} LeavesAre(chain: seq<Fo>, marked: set<Obj>)
    ensures BaseSet(Leaves(chain, marked)) == BaseSet(chain) - marked
    ensures BaseSet(Stays(chain, marked)) == BaseSet(chain) * marked
    ensures |Stays(chain, marked)| + |Leaves(chain, marked)| == |chain|
  {
    if chain != [] {
      var n := |chain| - 1;
      LeavesAre(chain[..n], marked);
      var last := chain[n];
      assert chain == chain[..n] + [last];
      BaseSetSum(chain[..n], [last]);
      BaseSetSum(Stays(chain[..n], marked), if last.base in marked then [last] else []);
      BaseSetSum(if last.base in marked then [] else [last], Leaves(chain[..n], marked));
    }
  }

  lemma BaseSetSum(s: seq<Fo>, t: seq<Fo>)
    ensures BaseSet(s + t) == BaseSet(s) + BaseSet(t)
    ensures BaseSet([]) == {} && forall fo :: BaseSet([fo]) == {fo.base}
  {
    forall b | b in BaseSet(t) ensures b in BaseSet(s + t) {
      var j :| 0 <= j < |t| && t[j].base == b;
      assert (s + t)[|s| + j].base == b;
    }
    forall b | b in BaseSet(s) ensures b in BaseSet(s + t) {
      var j :| 0 <= j < |s| && s[j].base == b;
      assert (s + t)[j].base == b;
    }
    forall fo: Fo ensures BaseSet([fo]) == {fo.base} {
      assert [fo][0].base in BaseSet([fo]);
    }
  }

  lemma {:induction false} AllLeaveAre(chains: seq<seq<Fo>>, marked: set<Obj>)
    ensures BaseSet(AllLeave(chains, marked)) == Bases(chains) - marked
  {
    if chains == [] {
      BaseSetSum([], []);
    } else {
      var n := |chains| - 1;
      AllLeaveAre(chains[..n], marked);
      LeavesAre(chains[n], marked);
      BaseSetSum(Leaves(chains[n], marked), AllLeave(chains[..n], marked));
      BasesSplit(chains);
    }
  }

  lemma BasesSplit(chains: seq<seq<Fo>>)
    requires chains != []
    ensures Bases(chains) == Bases(chains[..|chains| - 1]) + BaseSet(chains[|chains| - 1])
  {
    var n := |chains| - 1;
    forall b | b in Bases(chains[..n]) ensures b in Bases(chains) {
      var p, q :| 0 <= p < n && 0 <= q < |chains[..n][p]| && chains[..n][p][q].base == b;
      assert chains[p][q].base == b;
    }
    forall b | b in Bases(chains) ensures b in Bases(chains[..n]) + BaseSet(chains[n]) {
      var p, q :| 0 <= p < |chains| && 0 <= q < |chains[p]| && chains[p][q].base == b;
      if p < n { assert chains[..n][p][q].base == b; }
    }
  }

  /** The registered objects in the order in which they are visited. */
  ghost function Order(chains: seq<seq<Fo>>): seq<Obj> {
    if chains == [] then [] else Order(chains[..|chains| - 1]) + ChainOrder(chains[|chains| - 1])
  }

  ghost function ChainOrder(chain: seq<Fo>): (order: seq<Obj>)
    ensures |order| == |chain| && forall k :: 0 <= k < |chain| ==> order[k] == chain[k].base
  {
    seq(|chain|, k requires 0 <= k < |chain| => chain[k].base)
  }

  lemma {:induction false} OrderedBases(chains: seq<seq<Fo>>)
    ensures Elements(Order(chains)) == Bases(chains)
  {
    if chains != [] {
      var n := |chains| - 1;
      OrderedBases(chains[..n]);
      BasesSplit(chains);
      var last := ChainOrder(chains[n]);
      forall b | b in BaseSet(chains[n]) ensures b in last {
        var j :| 0 <= j < |chains[n]| && chains[n][j].base == b;
        assert last[j] == b;
      }
      forall b | b in last ensures b in BaseSet(chains[n]) {
        var j :| 0 <= j < |last| && last[j] == b;
        assert chains[n][j].base == b;
      }
    }
  }

  lemma NoOrder(chains: seq<seq<Fo>>)
    ensures Order(chains[..0]) == []
  {
  }

  lemma OrderDone(chains: seq<seq<Fo>>)
    ensures Order(chains[..|chains|]) == Order(chains)
  {
    assert chains[..|chains|] == chains;
  }

  lemma ChainDone(chains: seq<seq<Fo>>, i: nat)
    requires i < |chains|
    ensures Order(chains[..i + 1]) == Order(chains[..i]) + ChainOrder(chains[i])[..|chains[i]|]
  {
    assert chains[..i + 1][..i] == chains[..i];
    assert ChainOrder(chains[i])[..|chains[i]|] == ChainOrder(chains[i]);
  }

  lemma {:induction false} OrderNext(chains: seq<seq<Fo>>, i: nat, k: nat)
    requires i < |chains| && k < |chains[i]|
    ensures Order(chains[..i]) + ChainOrder(chains[i])[..k + 1] <= Order(chains)
    decreases |chains|
  {
    var n := |chains| - 1;
    if i < n {
      OrderNext(chains[..n], i, k);
      assert chains[..n][..i] == chains[..i];
    }
  }

  // ----- GC_finalize -----

  class Finalizer {
    const machine: MarkMachine
    const foSize: nat               // sizeof(struct finalizable_object)
    var chains: seq<seq<Fo>>        // GC_fo_head and fo_next
    var entries: nat                // GC_fo_entries
    var queue: seq<Fo>              // GC_finalize_now
    var bytesFinalized: nat

    ghost predicate Valid()
      reads this`chains, this`entries
    {
      Distinct(chains) && Bases(chains) <= Objects(machine.heap) && entries == Total(chains)
    }

    constructor (machine: MarkMachine, foSize: nat, chains: seq<seq<Fo>>, queue: seq<Fo>)
      requires Distinct(chains) && Bases(chains) <= Objects(machine.heap)
      ensures Valid() && this.machine == machine && this.foSize == foSize && this.chains == chains && this.queue == queue
    {
      this.machine, this.foSize, this.chains, this.queue := machine, foSize, chains, queue;
      entries, bytesFinalized := Total(chains), 0;
    }

    /** Mark all objects reachable by chains of one or more pointers from finalizable objects.
        v says which objects were visited, and at which of them the mark stack overflowed. */
    method MarkFromObjects(grants: Grants) returns (done: bool, ghost v: Visit)
      requires Valid() && Ready(machine)
      modifies machine
      ensures old(machine.marked) <= machine.marked
      ensures Tracked(machine.heap, old(machine.marked), old(machine.capacity), grants, v)
      ensures if done then v.order == Order(chains) else v.order <= Order(chains) && v.overflowed != {}
      ensures done ==> Ready(machine) && machine.marked == MarksAfter(machine.heap, old(machine.marked), Bases(chains), v.overflowed)
      ensures grants.patient && RootsFit(machine.heap, old(machine.capacity), machine.Limit()) ==> done
      ensures AllGranted(grants) ==> FewOverflows(machine.heap, old(machine.capacity), v.overflowed)
    {
      hide Reach, HeapOk, Objects, MarksAfter, Closed, Bases, TargetsOf, RootObjects, Tracked, DrainPeak, Overflows, NoneGranted, Order, AllGranted, WithPointers;
      ghost var h, marked0, size0, bases := machine.heap, machine.marked, machine.capacity, Bases(chains);
      v := Visit([], [], {});
      NothingVisited(h, marked0);
      assert Elements([]) == {};
      TrackedNothing(h, marked0, size0, grants);
      NoOrder(chains);
      for i := 0 to |chains|
        invariant Ready(machine) && marked0 <= machine.marked && v.order == Order(chains[..i])
        invariant Tracked(h, marked0, size0, grants, v) && machine.marked == MarksAfter(h, marked0, Elements(v.order), v.overflowed)
        invariant machine.capacity >= size0 && (v.overflowed == {} || NoneGranted(grants) ==> machine.capacity == size0)
        invariant Spent(h, size0, grants, v, machine.capacity)
      {
        for k := 0 to |chains[i]|
          invariant Ready(machine) && marked0 <= machine.marked && v.order == Order(chains[..i]) + ChainOrder(chains[i])[..k]
          invariant Tracked(h, marked0, size0, grants, v) && machine.marked == MarksAfter(h, marked0, Elements(v.order), v.overflowed)
          invariant machine.capacity >= size0 && (v.overflowed == {} || NoneGranted(grants) ==> machine.capacity == size0)
          invariant Spent(h, size0, grants, v, machine.capacity)
        invariant Spent(h, size0, grants, v, machine.capacity)
        {
          InBases(chains, i, k);
          ghost var v0 := v;
          done, v := Visiting(chains[i][k].base, grants, marked0, size0, v);
          OrderNext(chains, i, k);
          assert Order(chains[..i]) + ChainOrder(chains[i])[..k + 1] == v0.order + [chains[i][k].base];
          if !done { return; }
        }
        ChainDone(chains, i);
      }
      OrderDone(chains);
      OrderedBases(chains);
      done := true;
    }

    /** Visit one object: mark from it unless it is marked. */
    method Visiting(u: Obj, grants: Grants, ghost marked0: set<Obj>, ghost size0: nat, ghost v0: Visit)
      returns (done: bool, ghost v: Visit)
      requires Ready(machine) && HeapObject(machine, u) && Tracked(machine.heap, marked0, size0, grants, v0)
      requires machine.marked == MarksAfter(machine.heap, marked0, Elements(v0.order), v0.overflowed)
      requires machine.capacity >= size0 && (v0.overflowed == {} || NoneGranted(grants) ==> machine.capacity == size0)
      requires Spent(machine.heap, size0, grants, v0, machine.capacity)
      modifies machine
      ensures old(machine.marked) <= machine.marked && v.order == v0.order + [u]
      ensures Tracked(machine.heap, marked0, size0, grants, v) && (!done ==> v.overflowed != {})
      ensures done ==> Ready(machine) && machine.marked == MarksAfter(machine.heap, marked0, Elements(v.order), v.overflowed)
      ensures machine.capacity >= size0 && (v.overflowed == {} || NoneGranted(grants) ==> machine.capacity == size0)
      ensures grants.patient && RootsFit(machine.heap, old(machine.capacity), machine.Limit()) ==> done
      ensures (done ==> Spent(machine.heap, size0, grants, v, machine.capacity))
        && (AllGranted(grants) ==> FewOverflows(machine.heap, size0, v.overflowed))
    {
      hide Reach, HeapOk, Objects, MarksAfter, Closed, TargetsOf, RootObjects, Tracked, DrainPeak, Overflows, WithPointers, Spent, FewOverflows;
      ghost var before, size := machine.marked, machine.capacity;
      var overflow := false;
      done := true;
      if u !in machine.marked {
        done, overflow := MarkFo(machine, u, grants);
      }
      TrackedNext(machine.heap, marked0, size0, grants, v0, u, size, overflow);
      OverflowedMarked(machine.heap, marked0, v0, before);
      SpentNext(machine.heap, before, size0, grants, v0, u, size, overflow, machine.capacity);
      v := Next(v0, u, size, overflow);
      if done {
        MarksStep(machine.heap, marked0, Elements(v0.order), v0.overflowed, before, u, machine.marked, overflow);
        assert Elements(v.order) == Elements(v0.order) + {u};
      }
    }

    lemma OverflowedMarked(h: Heap, marked0: set<Obj>, v: Visit, now: set<Obj>)
      requires now == MarksAfter(h, marked0, Elements(v.order), v.overflowed)
      ensures v.overflowed <= now
    {
    }

    /** Mark the object of the j-th entry of chain i and move the entry to the queue. */
    method DeleteAndQueue(i: nat, j: nat)
      requires i < |chains| && j < |chains[i]| && entries > 0
      modifies this`chains, this`entries, this`queue, this`bytesFinalized, machine`marked
      ensures |chains| == old(|chains|) && chains[i] == Cut(old(chains)[i], j)
      ensures forall p :: 0 <= p < |chains| && p != i ==> chains[p] == old(chains)[p]
      ensures entries == old(entries) - 1 && queue == [old(chains)[i][j]] + old(queue)
      ensures bytesFinalized == old(bytesFinalized) + old(chains)[i][j].size + foSize
      ensures machine.marked == old(machine.marked) + {old(chains)[i][j].base}
    {
      var fo := chains[i][j];
      machine.marked := machine.marked + {fo.base};
      chains := chains[i := Cut(chains[i], j)];
      entries := entries - 1;
      queue := [fo] + queue;
      bytesFinalized := bytesFinalized + fo.size + foSize;
    }

    /** The first k entries of what was chain i have been dealt with. */
    ghost predicate PartQueued(chain: seq<Fo>, k: nat, now: seq<Fo>, marked1: set<Obj>, queue0: seq<Fo>, entries0: nat, bytes0: nat, marked0: set<Obj>)
      reads this`queue, this`entries, this`bytesFinalized, machine`marked
    {
      && k <= |chain| && now == Stays(chain[..k], marked1) + chain[k..] && queue == Leaves(chain[..k], marked1) + queue0
      && entries == entries0 - |Leaves(chain[..k], marked1)|
      && bytesFinalized == bytes0 + Bytes(Leaves(chain[..k], marked1), foSize)
      && machine.marked == marked0 + BaseSet(chain[..k])
    }

    /** Deal with the j-th entry of chain i: return the position of the next one. */
    method Consider(i: nat, j: nat, ghost chain: seq<Fo>, ghost k: nat, ghost marked1: set<Obj>,
                    ghost queue0: seq<Fo>, ghost entries0: nat, ghost bytes0: nat, ghost marked0: set<Obj>) returns (j': nat)
      requires i < |chains| && j < |chains[i]| && k < |chain| <= entries0 && j == |Stays(chain[..k], marked1)|
      requires PartQueued(chain, k, chains[i], marked1, queue0, entries0, bytes0, marked0)
      requires forall k :: 0 <= k < |chain| ==> (chain[k].base in marked0 <==> chain[k].base in marked1)
      requires forall k, l :: 0 <= k < |chain| && 0 <= l < |chain| && chain[k].base == chain[l].base ==> k == l
      modifies this`chains, this`entries, this`queue, this`bytesFinalized, machine`marked
      ensures |chains| == old(|chains|) && forall p :: 0 <= p < |chains| && p != i ==> chains[p] == old(chains)[p]
      ensures PartQueued(chain, k + 1, chains[i], marked1, queue0, entries0, bytes0, marked0) && j' == |Stays(chain[..k + 1], marked1)|
    {
      hide Stays, Leaves, BaseSet, Bytes, Cut;
      var fo := chains[i][j];
      ChainStep(chain, marked1, k, foSize, queue0);
      if fo.base !in machine.marked {
        DeleteAndQueue(i, j);
        j' := j;
      } else {
        j' := j + 1;
      }
    }

    /** Queue the entries of chain i whose objects are not marked, and mark those. */
    method EnqueueChain(i: nat, ghost marked1: set<Obj>)
      requires i < |chains| && |chains[i]| <= entries
      requires forall k :: 0 <= k < |chains[i]| ==> (chains[i][k].base in machine.marked <==> chains[i][k].base in marked1)
      requires forall k, l :: 0 <= k < |chains[i]| && 0 <= l < |chains[i]| && chains[i][k].base == chains[i][l].base ==> k == l
      modifies this`chains, this`entries, this`queue, this`bytesFinalized, machine`marked
      ensures |chains| == old(|chains|) && chains[i] == Stays(old(chains)[i], marked1)
      ensures forall p :: 0 <= p < |chains| && p != i ==> chains[p] == old(chains)[p]
      ensures queue == Leaves(old(chains)[i], marked1) + old(queue)
      ensures entries == old(entries) - |Leaves(old(chains)[i], marked1)|
      ensures bytesFinalized == old(bytesFinalized) + Bytes(Leaves(old(chains)[i], marked1), foSize)
      ensures machine.marked == old(machine.marked) + BaseSet(old(chains)[i])
    {
      hide Stays, Leaves, BaseSet, Bytes;
      ghost var chain, queue0, entries0, bytes0, marked0 := chains[i], queue, entries, bytesFinalized, machine.marked;
      var j := 0;
      ghost var k := 0;
      ChainStart(chain, marked1, foSize);
      assert chain[0..] == chain;
      while j < |chains[i]|
        invariant |chains| == old(|chains|) && forall p :: 0 <= p < |chains| && p != i ==> chains[p] == old(chains)[p]
        invariant PartQueued(chain, k, chains[i], marked1, queue0, entries0, bytes0, marked0) && j == |Stays(chain[..k], marked1)|
        decreases |chain| - k
      {
        j := Consider(i, j, chain, k, marked1, queue0, entries0, bytes0, marked0);
        k := k + 1;
      }
      StaysAll(chain, marked1, k);
    }

    /** Enqueue for finalization all objects that are still unreachable. */
    method EnqueueAll()
      requires Valid()
      modifies this`chains, this`entries, this`queue, this`bytesFinalized, machine`marked
      ensures Remaining(chains, old(chains), old(machine.marked)) && queue == AllLeave(old(chains), old(machine.marked)) + old(queue)
      ensures entries == old(entries) - |AllLeave(old(chains), old(machine.marked))|
      ensures bytesFinalized == Bytes(AllLeave(old(chains), old(machine.marked)), foSize)
      ensures machine.marked == old(machine.marked) + Bases(old(chains))
    {
      hide Stays, Leaves, BaseSet, Bytes, Distinct, Total, Visited, Bases, AllLeave;
      bytesFinalized := 0;
      ghost var chains0, marked1, queue0, entries0 := chains, machine.marked, queue, entries;
      VisitedChain(chains0, 0);
      NoneLeft(marked1, foSize);
      assert chains0[..0] == [];
      for i := 0 to |chains|
        invariant |chains| == |chains0| && (forall p :: 0 <= p < i ==> chains[p] == Stays(chains0[p], marked1))
        invariant forall p :: i <= p < |chains| ==> chains[p] == chains0[p]
        invariant queue == AllLeave(chains0[..i], marked1) + queue0 && entries == entries0 - |AllLeave(chains0[..i], marked1)|
        invariant bytesFinalized == Bytes(AllLeave(chains0[..i], marked1), foSize) && machine.marked == marked1 + Visited(chains0, i, 0)
      {
        AllLeaveNext(chains0, marked1, i, queue0, foSize);
        OthersVisited(chains0, i);
        VisitedChain(chains0, i);
        EnqueueChain(i, marked1);
      }
      assert chains0[..|chains0|] == chains0;
      VisitedChain(chains0, |chains0|);
    }

    /** GC_finalize, with Java finalization off and only normal mark procedures.  queued are the
        new queue entries, overflowed the objects whose marking overflowed the mark stack, and
        sizes[k] is the size of that stack when the k-th registered object was visited. */
    method Finalize(grants: Grants) returns (done: bool, ghost overflowed: set<Obj>, ghost queued: seq<Fo>, ghost sizes: seq<nat>)
      requires Valid() && Ready(machine)
      modifies this`chains, this`entries, this`queue, this`bytesFinalized, machine
      ensures done ==> Valid() && Ready(machine) && queue == queued + old(queue) && bytesFinalized == Bytes(queued, foSize)
      ensures done ==> BaseSet(queued) == Unreached(machine.heap, old(machine.marked), Bases(old(chains))) - overflowed
      ensures done ==> Bases(chains) == Bases(old(chains)) - BaseSet(queued) && entries == old(entries) - |queued|
      ensures done ==> EntriesMoved(chains, old(chains), queued)
      ensures done ==> machine.marked == Reach(machine.heap, old(machine.marked) + Bases(old(chains)))
      ensures !done ==> chains == old(chains) && queue == old(queue)
      ensures Visits(machine.heap, old(machine.marked), Order(old(chains)))
      ensures Predicted(machine.heap, old(machine.marked), Order(old(chains)), old(machine.capacity), overflowed)
      ensures overflowed == {} || (grants.patient && RootsFit(machine.heap, old(machine.capacity), machine.Limit())) ==> done
      ensures var h, marked, size, order := machine.heap, old(machine.marked), old(machine.capacity), Order(old(chains));
        var right := BaseSet(queued) == Unreached(h, marked, Bases(old(chains)));
        done ==>
          && SizesFrom(sizes, |order|, size) && RightIff(h, marked, order, sizes, right)
          && (Calm(h, marked, order, size) || NoneGranted(grants) ==> RightIff(h, marked, order, Same(|order|, size), right))
      ensures Ample(machine.heap, old(machine.marked), old(machine.capacity)) ==> overflowed == {}
      ensures AllGranted(grants) ==> FewOverflows(machine.heap, old(machine.capacity), overflowed)
    {
      hide Reach, HeapOk, Objects, MarksAfter, Ample, Bases, TargetsOf, RootObjects, Unreached, BaseSet, Stays, AllLeave,
        Distinct, Total, Remaining, Bytes, Overflows, NoneGranted, FirstOverflow, Order, Peak, DrainPeak, Calm, Predicted, Tracked, RightIff, Elements, Visits, FewOverflows, AllGranted, EntriesMoved;
      ghost var h, marked0, chains0, size0 := machine.heap, machine.marked, chains, machine.capacity;
      ghost var v: Visit;
      VisitsRegistered(chains0);
      done, v := MarkFromObjects(grants);
      overflowed, sizes, queued := v.overflowed, v.sizes, [];
      OrderedBases(chains0);
      TrackedWhole(h, marked0, size0, grants, v, Order(chains0));
      if Ample(h, marked0, size0) { AmpleOutcome(h, marked0, size0, overflowed, Order(chains0)); }
      if !done { return; }
      ghost var known := machine.marked;
      queued := AllLeave(chains0, known);
      EnqueueAll();
      AllLeaveAre(chains0, known);
      OverflowsAreUnmarked(h, marked0, v.order, v.sizes);
      FinalMarks(h, marked0, Bases(chains0), overflowed);
      RemainingValid(chains, chains0, known);
      RemainingMoved(chains, chains0, known);
      QueueIsRight(h, marked0, size0, grants, v, Order(chains0), BaseSet(queued));
      StillReady(machine, marked0 + Bases(chains0));
    }

    lemma VisitsRegistered(chains0: seq<seq<Fo>>)
      requires HeapOk(machine.heap) && machine.marked <= Objects(machine.heap) && Bases(chains0) <= Objects(machine.heap)
      ensures Visits(machine.heap, machine.marked, Order(chains0))
    {
      OrderedBases(chains0);
    }

    /** The marks are closed again, and nothing else has changed. */
    lemma StillReady(m: MarkMachine, seeds: set<Obj>)
      requires m.heap == machine.heap && m.Shape() && m.state == NONE && m.stack == [] && RootObjects(m.heap) <= m.marked
      requires m.marked == Reach(m.heap, seeds)
      ensures Ready(m)
    {
      ReachIsClosed(m.heap, seeds);
    }
  }

  lemma {:induction false} RemainingBases(chains: seq<seq<Fo>>, chains0: seq<seq<Fo>>, marked: set<Obj>)
    requires Remaining(chains, chains0, marked)
    ensures Bases(chains) == Bases(chains0) * marked && Total(chains) + |AllLeave(chains0, marked)| == Total(chains0)
  {
    if chains != [] {
      var n := |chains| - 1;
      RemainingBases(chains[..n], chains0[..n], marked);
      LeavesAre(chains0[n], marked);
      BasesSplit(chains);
      BasesSplit(chains0);
    }
  }

  /** Where an entry that stays was before. */
  lemma {:induction false} StaysFrom(chain: seq<Fo>, marked: set<Obj>, k: nat) returns (q: nat)
    requires k < |Stays(chain, marked)|
    ensures q < |chain| && Stays(chain, marked)[k] == chain[q]
  {
    var n := |chain| - 1;
    if k < |Stays(chain[..n], marked)| {
      q := StaysFrom(chain[..n], marked, k);
    } else {
      q := n;
    }
  }

  lemma {:induction false} StaysApart(chain: seq<Fo>, marked: set<Obj>, k: nat, l: nat)
    requires forall k, l :: 0 <= k < |chain| && 0 <= l < |chain| && chain[k].base == chain[l].base ==> k == l
    requires k < l < |Stays(chain, marked)|
    ensures Stays(chain, marked)[k].base != Stays(chain, marked)[l].base
  {
    var n := |chain| - 1;
    if l < |Stays(chain[..n], marked)| {
      StaysApart(chain[..n], marked, k, l);
    } else {
      var q := StaysFrom(chain[..n], marked, k);
      assert chain[q].base != chain[n].base;
    }
  }

  lemma RemainingDistinct(chains: seq<seq<Fo>>, chains0: seq<seq<Fo>>, marked: set<Obj>)
    requires Remaining(chains, chains0, marked) && Distinct(chains0)
    ensures Distinct(chains)
  {
    forall i, j, k, l | 0 <= i < |chains| && 0 <= j < |chains[i]| && 0 <= k < |chains| && 0 <= l < |chains[k]|
      ensures chains[i][j].base == chains[k][l].base ==> i == k && j == l
    {
      var q := StaysFrom(chains0[i], marked, j);
      var r := StaysFrom(chains0[k], marked, l);
      assert chains0[i][q].base == chains0[k][r].base ==> i == k && q == r;
      if i == k && j < l { StaysApart(chains0[i], marked, j, l); }
      if i == k && l < j { StaysApart(chains0[i], marked, l, j); }
    }
  }

  lemma RemainingValid(chains: seq<seq<Fo>>, chains0: seq<seq<Fo>>, marked: set<Obj>)
    requires Remaining(chains, chains0, marked) && Distinct(chains0)
    ensures Distinct(chains) && Bases(chains) == Bases(chains0) * marked
    ensures Total(chains) + |AllLeave(chains0, marked)| == Total(chains0)
  {
    RemainingDistinct(chains, chains0, marked);
    RemainingBases(chains, chains0, marked);
  }

  /** Every chain keeps the entries whose objects were marked. */
  ghost predicate Remaining(chains: seq<seq<Fo>>, chains0: seq<seq<Fo>>, marked: set<Obj>) {
    |chains| == |chains0| && forall p :: 0 <= p < |chains| ==> chains[p] == Stays(chains0[p], marked)
  }

  /** Every entry of a chain stays in that chain or is queued, and no other entry is. */
  ghost predicate EntriesMoved(chains: seq<seq<Fo>>, chains0: seq<seq<Fo>>, queued: seq<Fo>) {
    && |chains| == |chains0|
    && (forall i, e :: 0 <= i < |chains| && e in chains[i] ==> e in chains0[i])
    && (forall i, e :: 0 <= i < |chains| && e in chains0[i] ==> e in chains[i] || e in queued)
    && (forall e :: e in queued ==> exists i :: 0 <= i < |chains0| && e in chains0[i])
  }

  lemma {:induction false} StaysOrLeaves(chain: seq<Fo>, marked: set<Obj>, e: Fo)
    ensures e in Stays(chain, marked) <==> e in chain && e.base in marked
    ensures e in Leaves(chain, marked) <==> e in chain && e.base !in marked
  {
    if chain != [] {
      var n := |chain| - 1;
      assert chain == chain[..n] + [chain[n]];
      StaysOrLeaves(chain[..n], marked, e);
    }
  }

  ghost predicate Unmarked(chains: seq<seq<Fo>>, marked: set<Obj>, e: Fo) {
    exists i :: 0 <= i < |chains| && e in chains[i] && e.base !in marked
  }

  lemma UnmarkedSplit(chains: seq<seq<Fo>>, marked: set<Obj>, e: Fo)
    requires chains != []
    ensures var n := |chains| - 1; Unmarked(chains, marked, e) <==> Unmarked(chains[..n], marked, e) || (e in chains[n] && e.base !in marked)
  {
    var n := |chains| - 1;
    if Unmarked(chains[..n], marked, e) {
      var i :| 0 <= i < n && e in chains[..n][i];
      assert e in chains[i];
    }
    if Unmarked(chains, marked, e) {
      var i :| 0 <= i < |chains| && e in chains[i];
      if i < n { assert e in chains[..n][i]; }
    }
  }

  lemma {:induction false} LeavesSome(chains: seq<seq<Fo>>, marked: set<Obj>, e: Fo)
    ensures e in AllLeave(chains, marked) <==> Unmarked(chains, marked, e)
  {
    hide Leaves, Stays;
    if chains != [] {
      hide Unmarked;
      var n := |chains| - 1;
      LeavesSome(chains[..n], marked, e);
      StaysOrLeaves(chains[n], marked, e);
      UnmarkedSplit(chains, marked, e);
    }
  }

  lemma RemainingMoved(chains: seq<seq<Fo>>, chains0: seq<seq<Fo>>, marked: set<Obj>)
    requires Remaining(chains, chains0, marked)
    ensures EntriesMoved(chains, chains0, AllLeave(chains0, marked))
  {
    hide Stays, Leaves, AllLeave;
    var queued := AllLeave(chains0, marked);
    forall i, e | 0 <= i < |chains| && e in chains[i] ensures e in chains0[i] { StaysOrLeaves(chains0[i], marked, e); }
    forall i, e | 0 <= i < |chains| && e in chains0[i] ensures e in chains[i] || e in queued {
      StaysOrLeaves(chains0[i], marked, e);
      LeavesSome(chains0, marked, e);
    }
    forall e | e in queued ensures exists i :: 0 <= i < |chains0| && e in chains0[i] { LeavesSome(chains0, marked, e); }
  }

  lemma NoneLeft(marked: set<Obj>, foSize: nat)
    ensures AllLeave([], marked) == [] && Bytes([], foSize) == 0
  {
  }

  lemma {:induction false} BytesSum(s: seq<Fo>, t: seq<Fo>, foSize: nat)
    ensures Bytes(s + t, foSize) == Bytes(s, foSize) + Bytes(t, foSize)
  {
    if s == [] {
      assert s + t == t;
    } else {
      BytesSum(s[1..], t, foSize);
      assert (s + t)[1..] == s[1..] + t;
    }
  }

  lemma {:induction false} LeaveCount(chains: seq<seq<Fo>>, marked: set<Obj>, i: nat)
    requires i < |chains|
    ensures |AllLeave(chains[..i], marked)| + |chains[i]| <= Total(chains)
  {
    var n := |chains| - 1;
    if i < n {
      LeaveCount(chains[..n], marked, i);
      assert chains[..n][..i] == chains[..i];
    } else {
      LeaveTotal(chains[..n], marked);
    }
  }

  lemma {:induction false} LeaveTotal(chains: seq<seq<Fo>>, marked: set<Obj>)
    ensures |AllLeave(chains, marked)| <= Total(chains)
  {
    if chains != [] {
      LeaveTotal(chains[..|chains| - 1], marked);
      LeavesAre(chains[|chains| - 1], marked);
    }
  }

  lemma AllLeaveNext(chains: seq<seq<Fo>>, marked: set<Obj>, i: nat, queue: seq<Fo>, foSize: nat)
    requires i < |chains|
    ensures AllLeave(chains[..i + 1], marked) == Leaves(chains[i], marked) + AllLeave(chains[..i], marked)
    ensures AllLeave(chains[..i + 1], marked) + queue == Leaves(chains[i], marked) + (AllLeave(chains[..i], marked) + queue)
    ensures Bytes(AllLeave(chains[..i + 1], marked), foSize) ==
      Bytes(Leaves(chains[i], marked), foSize) + Bytes(AllLeave(chains[..i], marked), foSize)
    ensures |AllLeave(chains[..i], marked)| + |chains[i]| <= Total(chains)
  {
    assert chains[..i + 1][..i] == chains[..i];
    LeaveCount(chains, marked, i);
    BytesSum(Leaves(chains[i], marked), AllLeave(chains[..i], marked), foSize);
  }

  /** The entries of a chain are not among those visited before. */
  lemma OthersVisited(chains: seq<seq<Fo>>, i: nat)
    requires Distinct(chains) && i < |chains|
    ensures forall k :: 0 <= k < |chains[i]| ==> chains[i][k].base !in Visited(chains, i, 0)
    ensures forall k, l :: 0 <= k < |chains[i]| && 0 <= l < |chains[i]| && chains[i][k].base == chains[i][l].base ==> k == l
    ensures Visited(chains, i + 1, 0) == Visited(chains, i, 0) + BaseSet(chains[i])
  {
    forall b | b in Visited(chains, i + 1, 0) ensures b in Visited(chains, i, 0) + BaseSet(chains[i]) {
      var p, q :| 0 <= p < |chains| && 0 <= q < |chains[p]| && p < i + 1 && chains[p][q].base == b;
    }
  }

  function Cut(chain: seq<Fo>, j: nat): seq<Fo>
    requires j < |chain|
  {
    chain[..j] + chain[j + 1..]
  }

  lemma ChainStart(chain: seq<Fo>, marked: set<Obj>, foSize: nat)
    ensures Stays(chain[..0], marked) == Leaves(chain[..0], marked) == [] && BaseSet(chain[..0]) == {} && Bytes([], foSize) == 0
  {
    BaseSetSum([], []);
  }

  lemma StaysAll(chain: seq<Fo>, marked: set<Obj>, k: nat)
    requires k <= |chain| && |Stays(chain[..k], marked) + chain[k..]| <= |Stays(chain[..k], marked)|
    ensures chain[..k] == chain && Stays(chain[..k], marked) + chain[k..] == Stays(chain, marked)
  {
    assert k == |chain| && chain[..k] == chain;
  }

  /** What one more entry of a chain adds. */
  lemma ChainHead(chain: seq<Fo>, marked: set<Obj>, k: nat)
    requires k < |chain|
    ensures chain[..k + 1][..k] == chain[..k] && chain[..k + 1] == chain[..k] + [chain[k]] && chain[k..] == [chain[k]] + chain[k + 1..]
  {
  }

  lemma BytesStep(chain: seq<Fo>, marked: set<Obj>, k: nat, foSize: nat, queue: seq<Fo>)
    requires k < |chain|
    ensures var rest := Leaves(chain[..k], marked); var added := if chain[k].base in marked then [] else [chain[k]];
      && Leaves(chain[..k + 1], marked) == added + rest && added + rest + queue == added + (rest + queue)
      && Bytes(added + rest, foSize) == Bytes(rest, foSize) + if chain[k].base in marked then 0 else chain[k].size + foSize
  {
    ChainHead(chain, marked, k);
    var rest := Leaves(chain[..k], marked);
    assert ([chain[k]] + rest)[1..] == rest && [] + rest == rest;
  }

  lemma StaysStep(chain: seq<Fo>, marked: set<Obj>, k: nat)
    requires k < |chain|
    ensures var stays, rest := Stays(chain[..k], marked), chain[k..]; var j := |stays|;
      && (stays + rest)[j] == chain[k] && Stays(chain[..k + 1], marked) == stays + (if chain[k].base in marked then [chain[k]] else [])
      && Stays(chain[..k + 1], marked) + chain[k + 1..] == if chain[k].base in marked then stays + rest else Cut(stays + rest, j)
  {
    ChainHead(chain, marked, k);
    var stays := Stays(chain[..k], marked);
    hide Stays;
    assert stays + [chain[k]] + chain[k + 1..] == stays + chain[k..];
    assert (stays + chain[k..])[|stays| + 1..] == chain[k + 1..] && (stays + chain[k..])[..|stays|] == stays;
  }

  lemma ChainStep(chain: seq<Fo>, marked: set<Obj>, k: nat, foSize: nat, queue: seq<Fo>)
    requires k < |chain| && |Stays(chain[..k], marked)| < |Stays(chain[..k], marked) + chain[k..]|
    requires forall l, n :: 0 <= l < |chain| && 0 <= n < |chain| && chain[l].base == chain[n].base ==> l == n
    ensures var fo := chain[k];
      && (Stays(chain[..k], marked) + chain[k..])[|Stays(chain[..k], marked)|] == fo && chain[k..] == [fo] + chain[k + 1..]
      && Stays(chain[..k + 1], marked) == Stays(chain[..k], marked) + (if fo.base in marked then [fo] else [])
      && Leaves(chain[..k + 1], marked) == (if fo.base in marked then [] else [fo]) + Leaves(chain[..k], marked)
      && BaseSet(chain[..k + 1]) == BaseSet(chain[..k]) + {fo.base} && fo.base !in BaseSet(chain[..k])
    ensures |Leaves(chain[..k + 1], marked)| <= |chain|
    ensures Leaves(chain[..k + 1], marked) + queue ==
      (if chain[k].base in marked then [] else [chain[k]]) + (Leaves(chain[..k], marked) + queue)
    ensures Bytes(Leaves(chain[..k + 1], marked), foSize) ==
      Bytes(Leaves(chain[..k], marked), foSize) + if chain[k].base in marked then 0 else chain[k].size + foSize
    ensures var stays, rest := Stays(chain[..k], marked), chain[k..]; var j := |stays|;
      Stays(chain[..k + 1], marked) + chain[k + 1..] == if chain[k].base in marked then stays + rest else Cut(stays + rest, j)
  {
    hide Stays, Leaves, Bytes, Cut;
    ChainHead(chain, marked, k);
    BytesStep(chain, marked, k, foSize, queue);
    StaysStep(chain, marked, k);
    BaseSetSum(chain[..k], [chain[k]]);
    LeavesAre(chain[..k + 1], marked);
  }

  lemma InBases(chains: seq<seq<Fo>>, i: nat, k: nat)
    requires i < |chains| && k < |chains[i]|
    ensures chains[i][k].base in Bases(chains)
  {
  }
}

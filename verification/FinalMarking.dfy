/** Which objects are marked when everything that finalizable objects lead to has been
    marked, and at which of them the mark stack overflows. */
module FinalMarking {
  import opened ObjectGraph
  import opened MarkDrain

  // ----- How the marks grow -----

  /** Marks on entry, everything that the visited objects lead to, and the objects at which an overflow happened. */
  ghost function MarksAfter(h: Heap, marked: set<Obj>, visited: set<Obj>, overflowed: set<Obj>): set<Obj> {
    marked + Reach(h, TargetsOf(h, visited)) + overflowed
  }

  lemma NothingVisited(h: Heap, marked: set<Obj>)
    ensures MarksAfter(h, marked, {}, {}) == marked
  {
    assert TargetsOf(h, {}) == {};
    ReachLeast(h, {}, {});
  }

  lemma TargetsSum(h: Heap, s: set<Obj>, t: set<Obj>)
    ensures TargetsOf(h, s + t) == TargetsOf(h, s) + TargetsOf(h, t)
  {
  }

  /** One more object has been visited: it was marked, or its contents were marked from. */
  lemma MarksStep(h: Heap, marked: set<Obj>, visited: set<Obj>, overflowed: set<Obj>, now: set<Obj>, u: Obj, after: set<Obj>, overflow: bool)
    requires HeapOk(h) && u in Objects(h) && now == MarksAfter(h, marked, visited, overflowed)
    requires now <= Objects(h) && Closed(h, now)
    requires if u in now then after == now && !overflow
             else after == Reach(h, now + if overflow then {u} else TargetsOf(h, {u}))
    ensures after == MarksAfter(h, marked, visited + {u}, if overflow then overflowed + {u} else overflowed)
  {
    hide HeapOk, Reach, Objects, TargetsOf, Closed;
    TargetsSum(h, visited, {u});
    TargetsAreObjects(h, visited);
    TargetsAreObjects(h, {u});
    ReachUnion(h, TargetsOf(h, visited), TargetsOf(h, {u}));
    ReachOfClosed(h, now);
    if u in now {
      ClosedTargets(h, {u}, now);
      ReachLeast(h, TargetsOf(h, {u}), now);
    } else {
      ReachUnion(h, now, if overflow then {u} else TargetsOf(h, {u}));
      ReachThrough(h, {u});
    }
  }

  /** The registered unmarked objects that no registered unmarked object leads to by one or more pointers. */
  ghost function Unreached(h: Heap, marked: set<Obj>, registered: set<Obj>): set<Obj> {
    registered - marked - Reach(h, TargetsOf(h, registered - marked))
  }

  lemma FinalMarks(h: Heap, marked: set<Obj>, registered: set<Obj>, overflowed: set<Obj>)
    requires HeapOk(h) && marked <= Objects(h) && registered <= Objects(h) && Closed(h, marked) && overflowed <= registered - marked
    ensures registered - MarksAfter(h, marked, registered, overflowed) == Unreached(h, marked, registered) - overflowed
    ensures MarksAfter(h, marked, registered, overflowed) + registered == Reach(h, marked + registered)
  {
    hide HeapOk, Reach, Objects, TargetsOf, Closed;
    var unmarked, known := registered - marked, registered * marked;
    assert registered == unmarked + known;
    TargetsSum(h, unmarked, known);
    TargetsAreObjects(h, unmarked);
    TargetsAreObjects(h, known);
    ReachUnion(h, TargetsOf(h, unmarked), TargetsOf(h, known));
    ClosedTargets(h, known, marked);
    ReachLeast(h, TargetsOf(h, known), marked);
    ReachOfClosed(h, marked);
    ReachUnion(h, marked, registered);
    ReachThrough(h, registered);
  }

  // ----- Where the mark stack overflows -----

  ghost function Elements(order: seq<Obj>): set<Obj> {
    set o | o in order
  }

  lemma MarksInHeap(h: Heap, marked: set<Obj>, visited: set<Obj>, overflowed: set<Obj>)
    requires marked <= Objects(h) && overflowed <= Objects(h)
    ensures MarksAfter(h, marked, visited, overflowed) <= Objects(h)
  {
    hide Objects;
  }

  /** With the given marks, marking from u needs a higher stack than there is. */
  ghost predicate OverflowsAt(h: Heap, marked: set<Obj>, u: Obj, size: nat)
    requires HeapOk(h) && marked <= Objects(h) && u in Objects(h)
  {
    u !in marked && DrainPeak(h, marked, u) > size
  }

  ghost predicate Visits(h: Heap, marked: set<Obj>, order: seq<Obj>) {
    HeapOk(h) && marked <= Objects(h) && Elements(order) <= Objects(h)
  }

  /** The objects at which the stack overflows when those in order are visited one after the
      other, sizes[k] being the size of the mark stack when the k-th is. */
  ghost function Overflows(h: Heap, marked: set<Obj>, order: seq<Obj>, sizes: seq<nat>): (o: set<Obj>)
    requires Visits(h, marked, order) && |sizes| == |order|
    ensures o <= Elements(order)
    decreases |order|
  {
    if order == [] then {} else
      var n := |order| - 1;
      var before := Overflows(h, marked, order[..n], sizes[..n]);
      MarksInHeap(h, marked, Elements(order[..n]), before);
      if OverflowsAt(h, MarksAfter(h, marked, Elements(order[..n]), before), order[n], sizes[n]) then before + {order[n]} else before
  }

  ghost function Same(n: nat, size: nat): (sizes: seq<nat>)
    ensures |sizes| == n && forall k :: 0 <= k < n ==> sizes[k] == size
  {
    seq(n, _ => size)
  }

  /** A mark stack of the given size does not overflow. */
  ghost predicate Calm(h: Heap, marked: set<Obj>, order: seq<Obj>, size: nat)
    requires Visits(h, marked, order)
  {
    Overflows(h, marked, order, Same(|order|, size)) == {}
  }

  /** The k-th object is the first one at which it does. */
  ghost predicate FirstOverflow(h: Heap, marked: set<Obj>, order: seq<Obj>, size: nat, k: nat)
    requires Visits(h, marked, order)
  {
    k < |order| && Calm(h, marked, order[..k], size) && !Calm(h, marked, order[..k + 1], size)
  }

  lemma OverflowsNext(h: Heap, marked: set<Obj>, order: seq<Obj>, sizes: seq<nat>, u: Obj, size: nat)
    requires Visits(h, marked, order) && |sizes| == |order| && u in Objects(h)
    ensures Visits(h, marked, order + [u]) && Elements(order + [u]) == Elements(order) + {u}
    ensures var before := Overflows(h, marked, order, sizes); var now := MarksAfter(h, marked, Elements(order), before);
      && now <= Objects(h)
      && Overflows(h, marked, order + [u], sizes + [size]) == if OverflowsAt(h, now, u, size) then before + {u} else before
  {
    hide HeapOk, Objects, MarksAfter, OverflowsAt;
    assert (order + [u])[..|order|] == order && (sizes + [size])[..|order|] == sizes;
    MarksInHeap(h, marked, Elements(order), Overflows(h, marked, order, sizes));
  }

  lemma SameNext(n: nat, size: nat)
    ensures Same(n + 1, size) == Same(n, size) + [size]
  {
  }

  lemma {:induction false} OverflowsGrow(h: Heap, marked: set<Obj>, order: seq<Obj>, n: nat, size: nat)
    requires Visits(h, marked, order) && n <= |order|
    ensures Visits(h, marked, order[..n]) && (Calm(h, marked, order, size) ==> Calm(h, marked, order[..n], size))
    decreases |order|
  {
    hide HeapOk, Objects, Overflows;
    if n < |order| {
      var m := |order| - 1;
      OverflowsGrow(h, marked, order[..m], n, size);
      assert order[..m][..n] == order[..n] && order == order[..m] + [order[m]];
      SameNext(m, size);
      OverflowsNext(h, marked, order[..m], Same(m, size), order[m], size);
    } else {
      assert order[..n] == order;
    }
  }

  /** The mark stack can hold every object with pointers that is not marked yet, and one more. */
  ghost predicate Ample(h: Heap, marked: set<Obj>, size: nat) {
    size > |WithPointers(h, Objects(h))| - |WithPointers(h, marked)|
  }

  /** A stack that can hold all that is to be marked does not overflow. */
  lemma {:induction false} AmpleIsCalm(h: Heap, marked: set<Obj>, order: seq<Obj>, size: nat)
    requires Visits(h, marked, order) && Ample(h, marked, size)
    ensures Calm(h, marked, order, size)
    decreases |order|
  {
    hide HeapOk, Objects, Overflows, WithPointers;
    if order != [] {
      var n := |order| - 1;
      AmpleIsCalm(h, marked, order[..n], size);
      assert order == order[..n] + [order[n]];
      SameNext(n, size);
      OverflowsNext(h, marked, order[..n], Same(n, size), order[n], size);
      AmpleForOne(h, marked, MarksAfter(h, marked, Elements(order[..n]), {}), order[n], size);
    } else {
      assert Overflows(h, marked, [], Same(0, size)) == {} by { NoVisits(h, marked, Same(0, size)); }
    }
  }

  lemma NoVisits(h: Heap, marked: set<Obj>, sizes: seq<nat>)
    requires Visits(h, marked, []) && sizes == []
    ensures Overflows(h, marked, [], sizes) == {}
  {
  }

  lemma AmpleForOne(h: Heap, marked: set<Obj>, now: set<Obj>, u: Obj, size: nat)
    requires HeapOk(h) && marked <= now <= Objects(h) && u in Objects(h) && Ample(h, marked, size)
    ensures !OverflowsAt(h, now, u, size)
  {
    hide HeapOk, Objects, Peak;
    PeakBounded(h, Drain(Pushed(h, u), now));
    SubsetCount(WithPointers(h, marked), WithPointers(h, now));
  }

  // ----- What the visits have led to so far -----

  /** How the first requests for memory during a recovery are answered, one for each step; after
      that all are granted, or else the recovery is given up. */
  datatype Grants = Grants(first: seq<bool>, patient: bool)

  ghost predicate NoneGranted(grants: Grants) {
    !grants.patient && forall g :: g in grants.first ==> !g
  }

  ghost predicate AllGranted(grants: Grants) {
    grants.patient && forall g :: g in grants.first ==> g
  }

  /** A stack that has been doubled n times. */
  function Doubled(size: nat, n: nat): nat {
    if n == 0 then size else 2 * Doubled(size, n - 1)
  }

  datatype Visit = Visit(order: seq<Obj>, sizes: seq<nat>, overflowed: set<Obj>)

  /** The objects in v.order have been visited, starting with a stack of the given size. */
  ghost predicate Tracked(h: Heap, marked: set<Obj>, size: nat, grants: Grants, v: Visit) {
    && Visits(h, marked, v.order) && |v.sizes| == |v.order|
    && v.overflowed == Overflows(h, marked, v.order, v.sizes)
    && (forall k :: 0 <= k < |v.order| ==> v.sizes[k] >= size)
    && (v.overflowed == {} || NoneGranted(grants) ==> v.sizes == Same(|v.order|, size))
    && (v.overflowed == {} <==> Calm(h, marked, v.order, size))
    && (forall k: nat :: FirstOverflow(h, marked, v.order, size, k) ==> k < |v.order| && v.order[k] in v.overflowed)
  }

  ghost function Next(v: Visit, u: Obj, size: nat, overflow: bool): Visit {
    Visit(v.order + [u], v.sizes + [size], if overflow then v.overflowed + {u} else v.overflowed)
  }

  /** The number of overflows is about the logarithm of the number of objects with pointers, at most. */
  ghost predicate FewOverflows(h: Heap, size: nat, overflowed: set<Obj>) {
    overflowed == {} || Doubled(size, |overflowed| - 1) <= |WithPointers(h, Objects(h))|
  }

  /** Every overflow has doubled the stack, if memory is granted. */
  ghost predicate Spent(h: Heap, size: nat, grants: Grants, v: Visit, now: nat) {
    AllGranted(grants) ==> now >= Doubled(size, |v.overflowed|) && FewOverflows(h, size, v.overflowed)
  }

  lemma SpentNext(h: Heap, marks: set<Obj>, size: nat, grants: Grants, v: Visit, u: Obj, before: nat, overflow: bool, after: nat)
    requires HeapOk(h) && marks <= Objects(h) && u in Objects(h) && Spent(h, size, grants, v, before)
    requires if overflow then u !in v.overflowed && DrainPeak(h, marks, u) > before else after == before
    ensures AllGranted(grants) ==> FewOverflows(h, size, Next(v, u, before, overflow).overflowed)
    ensures (AllGranted(grants) && overflow ==> after >= 2 * before) ==> Spent(h, size, grants, Next(v, u, before, overflow), after)
  {
    hide HeapOk, Objects, Peak, WithPointers, AllGranted;
    if overflow {
      PeakBounded(h, Drain(Pushed(h, u), marks));
      assert |v.overflowed + {u}| == |v.overflowed| + 1;
    }
  }

  lemma TrackedNothing(h: Heap, marked: set<Obj>, size: nat, grants: Grants)
    requires HeapOk(h) && marked <= Objects(h)
    ensures Tracked(h, marked, size, grants, Visit([], [], {}))
  {
    hide HeapOk, Objects;
  }

  lemma PrefixFirst(h: Heap, marked: set<Obj>, order: seq<Obj>, longer: seq<Obj>, size: nat, k: nat)
    requires Visits(h, marked, longer) && Visits(h, marked, order) && order <= longer
    requires FirstOverflow(h, marked, longer, size, k) && !Calm(h, marked, order, size)
    ensures FirstOverflow(h, marked, order, size, k) && order[k] == longer[k]
  {
    hide HeapOk, Objects, Overflows, Elements, Calm;
    if k < |order| {
      assert longer[..k] == order[..k] && longer[..k + 1] == order[..k + 1];
    } else {
      assert longer[..k][..|order|] == order;
      OverflowsGrow(h, marked, longer, k, size);
      OverflowsGrow(h, marked, longer[..k], |order|, size);
      assert false;
    }
  }

  lemma FirstIsLast(h: Heap, marked: set<Obj>, order: seq<Obj>, u: Obj, size: nat, k: nat)
    requires Visits(h, marked, order) && Visits(h, marked, order + [u]) && Calm(h, marked, order, size)
    requires FirstOverflow(h, marked, order + [u], size, k)
    ensures k == |order| && !Calm(h, marked, order + [u], size)
  {
    hide HeapOk, Objects, Overflows, Elements, Calm;
    if k < |order| {
      assert (order + [u])[..k + 1] == order[..k + 1];
      OverflowsGrow(h, marked, order, k + 1, size);
      assert false;
    }
    assert (order + [u])[..k + 1] == order + [u];
  }

  lemma CalmNext(h: Heap, marked: set<Obj>, order: seq<Obj>, u: Obj, size: nat)
    requires Visits(h, marked, order) && u in Objects(h)
    ensures Visits(h, marked, order + [u]) && (!Calm(h, marked, order, size) ==> !Calm(h, marked, order + [u], size))
    ensures Calm(h, marked, order, size) ==>
      var m := MarksAfter(h, marked, Elements(order), {});
      m <= Objects(h) && (Calm(h, marked, order + [u], size) <==> !OverflowsAt(h, m, u, size))
  {
    hide HeapOk, Objects, Overflows, OverflowsAt, MarksAfter, Elements;
    OverflowsNext(h, marked, order, Same(|order|, size), u, size);
    SameNext(|order|, size);
  }

  lemma TrackedNext(h: Heap, marked: set<Obj>, size: nat, grants: Grants, v: Visit, u: Obj, now: nat, overflow: bool)
    requires Tracked(h, marked, size, grants, v) && u in Objects(h) && now >= size
    requires v.overflowed == {} || NoneGranted(grants) ==> now == size
    requires var m := MarksAfter(h, marked, Elements(v.order), v.overflowed);
      m <= Objects(h) && (overflow <==> OverflowsAt(h, m, u, now))
    ensures Tracked(h, marked, size, grants, Next(v, u, now, overflow))
  {
    hide HeapOk, Objects, MarksAfter, OverflowsAt, Overflows, NoneGranted, Elements, Calm, FirstOverflow, Visits;
    var v' := Next(v, u, now, overflow);
    OverflowsNext(h, marked, v.order, v.sizes, u, now);
    CalmNext(h, marked, v.order, u, size);
    SameNext(|v.order|, size);
    forall k: nat | FirstOverflow(h, marked, v'.order, size, k) ensures k < |v'.order| && v'.order[k] in v'.overflowed {
      FirstInside(h, marked, v'.order, size, k);
      if Calm(h, marked, v.order, size) {
        FirstIsLast(h, marked, v.order, u, size, k);
      } else {
        PrefixFirst(h, marked, v.order, v'.order, size, k);
        FirstInside(h, marked, v.order, size, k);
      }
    }
  }

  /** Where an overflow has happened, it happens for whatever else would be visited. */
  lemma TrackedPrefix(h: Heap, marked: set<Obj>, size: nat, grants: Grants, v: Visit, order: seq<Obj>)
    requires Tracked(h, marked, size, grants, v) && v.overflowed != {} && v.order <= order && Visits(h, marked, order)
    ensures Predicted(h, marked, order, size, v.overflowed)
  {
    hide HeapOk, Objects, Overflows, NoneGranted, Elements, Calm, FirstOverflow, Visits;
    assert order[..|v.order|] == v.order;
    OverflowsGrow(h, marked, order, |v.order|, size);
    forall k: nat | FirstOverflow(h, marked, order, size, k) ensures k < |order| && order[k] in v.overflowed {
      PrefixFirst(h, marked, v.order, order, size, k);
      FirstInside(h, marked, order, size, k);
      FirstInside(h, marked, v.order, size, k);
    }
  }

  lemma FirstInside(h: Heap, marked: set<Obj>, order: seq<Obj>, size: nat, k: nat)
    requires Visits(h, marked, order) && FirstOverflow(h, marked, order, size, k)
    ensures k < |order|
  {
  }

  /** What can be told of the overflows before the visits. */
  ghost predicate Predicted(h: Heap, marked: set<Obj>, order: seq<Obj>, size: nat, overflowed: set<Obj>)
    requires Visits(h, marked, order)
  {
    && (overflowed == {} <==> Calm(h, marked, order, size))
    && (forall k: nat :: FirstOverflow(h, marked, order, size, k) ==> k < |order| && order[k] in overflowed)
  }

  /** What is known when the visits have come to an end, or have been given up. */
  lemma TrackedWhole(h: Heap, marked: set<Obj>, size: nat, grants: Grants, v: Visit, order: seq<Obj>)
    requires Tracked(h, marked, size, grants, v) && Visits(h, marked, order)
    requires v.order == order || (v.order <= order && v.overflowed != {})
    ensures Predicted(h, marked, order, size, v.overflowed)
    ensures v.order == order ==> SizesFrom(v.sizes, |order|, size) && v.overflowed == Overflows(h, marked, order, v.sizes)
    ensures v.order == order && (Calm(h, marked, order, size) || NoneGranted(grants)) ==> v.sizes == Same(|order|, size)
  {
    hide HeapOk, Objects, Overflows, NoneGranted, Elements, Calm, FirstOverflow, Visits;
    if v.overflowed != {} { TrackedPrefix(h, marked, size, grants, v, order); }
    forall k: nat | FirstOverflow(h, marked, order, size, k) ensures k < |order| { FirstInside(h, marked, order, size, k); }
  }

  lemma AmpleOutcome(h: Heap, marked: set<Obj>, size: nat, overflowed: set<Obj>, order: seq<Obj>)
    requires Visits(h, marked, order) && Ample(h, marked, size) && Predicted(h, marked, order, size, overflowed)
    ensures overflowed == {}
  {
    AmpleIsCalm(h, marked, order, size);
  }

  /** The mark stack never shrinks. */
  ghost predicate SizesFrom(sizes: seq<nat>, n: nat, size: nat) {
    |sizes| == n && forall k :: 0 <= k < n ==> sizes[k] >= size
  }

  lemma {:induction false} OverflowsAreUnmarked(h: Heap, marked: set<Obj>, order: seq<Obj>, sizes: seq<nat>)
    requires Visits(h, marked, order) && |sizes| == |order|
    ensures Overflows(h, marked, order, sizes) <= Elements(order) - marked
    decreases |order|
  {
    hide HeapOk, Objects;
    if order != [] {
      var n := |order| - 1;
      OverflowsAreUnmarked(h, marked, order[..n], sizes[..n]);
    }
  }

  /** The right objects are queued if and only if none of them is among those at which the stack overflows. */
  ghost predicate RightIff(h: Heap, marked: set<Obj>, order: seq<Obj>, sizes: seq<nat>, right: bool)
    requires Visits(h, marked, order) && |sizes| == |order|
  {
    right <==> Overflows(h, marked, order, sizes) !! Unreached(h, marked, Elements(order))
  }

  lemma RightQueue(spec: set<Obj>, overflowed: set<Obj>)
    ensures spec - overflowed == spec <==> overflowed !! spec
  {
  }

  /** What is queued is right as far as the overflows allow. */
  lemma QueueIsRight(h: Heap, marked: set<Obj>, size: nat, grants: Grants, v: Visit, order: seq<Obj>, queued: set<Obj>)
    requires Tracked(h, marked, size, grants, v) && Visits(h, marked, order) && v.order == order
    requires queued == Unreached(h, marked, Elements(order)) - v.overflowed
    ensures SizesFrom(v.sizes, |order|, size)
    ensures RightIff(h, marked, order, v.sizes, queued == Unreached(h, marked, Elements(order)))
    ensures Calm(h, marked, order, size) || NoneGranted(grants) ==>
      RightIff(h, marked, order, Same(|order|, size), queued == Unreached(h, marked, Elements(order)))
  {
    hide HeapOk, Objects, Overflows, NoneGranted, Elements, Calm, FirstOverflow, Visits, Unreached;
    RightQueue(Unreached(h, marked, Elements(order)), v.overflowed);
    TrackedWhole(h, marked, size, grants, v, order);
  }
}

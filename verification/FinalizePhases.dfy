/** GC_finalize as a whole: short links disappear, what finalizable objects lead to is
    marked, the others are queued, dangling links are dropped, long links disappear. */
module FinalizePhases {
  import opened ObjectGraph
  import opened MarkDrain
  import opened FinalMarking
  import opened Marker
  import opened Finalization
  import opened DisappearingLinks

  /** Links are byte addresses, the heap is addressed in words. */
  const WORD_BYTES: nat := 8

  function Word(link: nat): nat { link / WORD_BYTES }

  type Links = map<nat, nat>

  /** The links whose objects are not marked. */
  function Dying(links: Links, marked: set<Obj>): set<nat> {
    set l | l in links && links[l] !in marked
  }

  /** The links whose objects are marked, and which do not lie in an unmarked object. */
  function Staying(links: Links, objects: set<Obj>, holders: set<Obj>, baseOf: map<nat, Obj>): Links {
    map l | l in links && links[l] in objects && (l in baseOf ==> baseOf[l] in holders) :: links[l]
  }

  // ----- Clearing words -----

  /** The heap in which the given links have been set to 0. */
  function Without(h: Heap, links: set<nat>): Heap {
    var words := set l | l in links :: Word(l);
    h.(memory := h.memory - words, plausible := h.plausible - words)
  }

  lemma WithoutOk(h: Heap, links: set<nat>)
    requires HeapOk(h)
    ensures HeapOk(Without(h, links)) && Objects(Without(h, links)) == Objects(h)
    ensures RootObjects(Without(h, links)) <= RootObjects(h)
  {
  }

  /** Fewer pointers: what was closed under them still is. */
  lemma WithoutClosed(h: Heap, links: set<nat>, s: set<Obj>)
    requires HeapOk(h) && Closed(h, s)
    ensures Closed(Without(h, links), s)
  {
    var h' := Without(h, links);
    forall o, a | o in s && o in Objects(h') && a in Fields(h', o) && a in h'.memory ensures h'.memory[a] in s {
      assert o in Objects(h) && a in Fields(h, o) && a in h.memory;
    }
  }

  // ----- The phases together -----

  /** Heap, marks and the two tables of links, before and after. */
  datatype World = World(heap: Heap, marked: set<Obj>, short: Links, long: Links)

  /** What GC_finalize does to them; registered are the finalizable objects. */
  ghost predicate Finalized(w: World, w': World, registered: set<Obj>, baseOf: map<nat, Obj>) {
    var middle := Without(w.heap, Dying(w.short, w.marked));
    && w'.marked == Reach(middle, w.marked + registered)
    && w'.heap == Without(middle, Dying(w.long, w'.marked))
    && w'.short == Staying(w.short, w.marked, w'.marked, baseOf)
    && w'.long == Staying(w.long, w'.marked, w'.marked, baseOf)
  }

  ghost predicate WorldOk(w: World, registered: set<Obj>) {
    && HeapOk(w.heap) && w.marked <= Objects(w.heap) && registered <= Objects(w.heap)
    && Closed(w.heap, w.marked) && RootObjects(w.heap) <= w.marked
  }

  ghost function Middle(w: World): Heap {
    Without(w.heap, Dying(w.short, w.marked))
  }

  lemma MiddleOk(w: World, registered: set<Obj>)
    requires WorldOk(w, registered)
    ensures WorldOk(w.(heap := Middle(w)), registered) && Objects(Middle(w)) == Objects(w.heap)
  {
    hide HeapOk, Objects, RootObjects, Closed;
    WithoutOk(w.heap, Dying(w.short, w.marked));
    WithoutClosed(w.heap, Dying(w.short, w.marked), w.marked);
  }

  /** What survives: all that was marked, the registered objects, and what they lead to. */
  lemma Survivors(w: World, w': World, registered: set<Obj>, baseOf: map<nat, Obj>)
    requires WorldOk(w, registered) && Finalized(w, w', registered, baseOf)
    ensures WorldOk(w', registered) && w.marked + registered <= w'.marked
  {
    hide HeapOk, Objects, RootObjects, Closed, Reach;
    MiddleOk(w, registered);
    SeedsReached(Middle(w), w.marked + registered);
    ReachIsClosed(Middle(w), w.marked + registered);
    WithoutOk(Middle(w), Dying(w.long, w'.marked));
    WithoutClosed(Middle(w), Dying(w.long, w'.marked), w'.marked);
  }

  lemma Zero(h: Heap, links: set<nat>, l: nat)
    requires l in links
    ensures Word(l) !in Without(h, links).memory
  {
  }

  /** No link outlives its object: if that does not survive, the link has been set to 0 and is
      forgotten.  No link is remembered that lies in an object that does not survive. */
  lemma NoDanglingLink(w: World, w': World, registered: set<Obj>, baseOf: map<nat, Obj>, l: nat)
    requires WorldOk(w, registered) && Finalized(w, w', registered, baseOf)
    ensures l in w.short && w.short[l] !in w'.marked ==> Word(l) !in w'.heap.memory && l !in w'.short
    ensures l in w.long && w.long[l] !in w'.marked ==> Word(l) !in w'.heap.memory && l !in w'.long
    ensures l in w'.short || l in w'.long ==> l in baseOf ==> baseOf[l] in w'.marked
  {
    hide HeapOk, Objects, RootObjects, Closed, Reach, WorldOk, Word;
    Survivors(w, w', registered, baseOf);
    if l in w.short && w.short[l] !in w'.marked { Zero(w.heap, Dying(w.short, w.marked), l); }
    if l in w.long && w.long[l] !in w'.marked { Zero(Middle(w), Dying(w.long, w'.marked), l); }
  }

  /** A short link to an object that is to be queued disappears, although the object survives.
      A long one stays, unless the object it lies in dies. */
  lemma LinksToQueued(w: World, w': World, registered: set<Obj>, baseOf: map<nat, Obj>, o: Obj, l: nat)
    requires WorldOk(w, registered) && Finalized(w, w', registered, baseOf)
    requires o in Unreached(Middle(w), w.marked, registered)
    ensures o in w'.marked
    ensures l in w.short && w.short[l] == o ==> Word(l) !in w'.heap.memory && l !in w'.short
    ensures l in w.long && w.long[l] == o ==> (l in w'.long <==> l !in baseOf || baseOf[l] in w'.marked)
  {
    hide HeapOk, Objects, RootObjects, Closed, Reach, WorldOk, Word;
    Survivors(w, w', registered, baseOf);
    if l in w.short && w.short[l] == o { Zero(w.heap, Dying(w.short, w.marked), l); }
  }

  /** A short link in an object that a registered one leads to stays if its object was marked. */
  lemma LinksInReached(w: World, w': World, registered: set<Obj>, baseOf: map<nat, Obj>, l: nat)
    requires WorldOk(w, registered) && Finalized(w, w', registered, baseOf)
    requires l in w.short && l in baseOf && baseOf[l] in Reach(Middle(w), registered)
    ensures baseOf[l] in w'.marked && (l in w'.short <==> w.short[l] in w.marked)
  {
    hide HeapOk, Objects, RootObjects, Closed, Reach, WorldOk;
    ReachMonotone(Middle(w), registered, w.marked + registered);
  }

  lemma ReachLess(h: Heap, links: set<nat>, seeds: set<Obj>)
    requires HeapOk(h) && seeds <= Objects(h)
    ensures Reach(Without(h, links), seeds) <= Reach(h, seeds)
  {
    hide HeapOk, Objects, Reach, Closed;
    ReachIsClosed(h, seeds);
    WithoutClosed(h, links, Reach(h, seeds));
    SeedsReached(h, seeds);
    ReachLeast(Without(h, links), seeds, Reach(h, seeds));
  }

  /** Disappearing links keep nothing from being queued: their words are 0 before marking begins. */
  lemma ClearingQueuesMore(w: World, registered: set<Obj>)
    requires WorldOk(w, registered)
    ensures Unreached(w.heap, w.marked, registered) <= Unreached(Middle(w), w.marked, registered)
  {
    hide HeapOk, Objects, Reach, RootObjects, Closed;
    var some, links := registered - w.marked, Dying(w.short, w.marked);
    WithoutOk(w.heap, links);
    TargetsAreObjects(w.heap, some);
    FewerTargets(w.heap, links, some);
    TargetsAreObjects(Middle(w), some);
    ReachMonotone(Middle(w), TargetsOf(Middle(w), some), TargetsOf(w.heap, some));
    ReachLess(w.heap, links, TargetsOf(w.heap, some));
  }

  lemma FewerTargets(h: Heap, links: set<nat>, s: set<Obj>)
    requires HeapOk(h)
    ensures TargetsOf(Without(h, links), s) <= TargetsOf(h, s)
  {
    var h' := Without(h, links);
    forall u, a | u in s && u in Objects(h') && a in Fields(h', u) && a in h'.memory ensures h'.memory[a] in TargetsOf(h, s) {
      assert u in Objects(h) && a in Fields(h, u) && a in h.memory;
    }
  }

  // ----- The same byte by byte and pointer by pointer -----

  lemma WordIs(l: nat, a: nat)
    ensures Word(l) == a <==> 8 * a <= l < 8 * a + 8
  {
  }

  /** None of the links is kept in the word at address a. */
  ghost predicate NoLinkAt(links: Links, alive: set<Obj>, a: nat) {
    forall l :: l in links && links[l] !in alive ==> !(8 * a <= l < 8 * a + 8)
  }

  lemma ClearedWord(h: Heap, links: Links, alive: set<Obj>, a: nat)
    ensures var h' := Without(h, Dying(links, alive));
      && (a in h'.memory <==> a in h.memory && NoLinkAt(links, alive, a))
      && (a in h'.memory ==> h'.memory[a] == h.memory[a])
      && (a in h'.plausible <==> a in h.plausible && NoLinkAt(links, alive, a))
  {
    forall l: nat ensures Word(l) == a <==> 8 * a <= l < 8 * a + 8 { WordIs(l, a); }
    if !NoLinkAt(links, alive, a) {
      var l :| l in links && links[l] !in alive && 8 * a <= l < 8 * a + 8;
      assert l in Dying(links, alive) && Word(l) == a;
    }
  }

  /** A word leads to an object afterwards exactly if it did before and none of its eight bytes is the
      address of a link that was cleared, and it leads to the same object.  Nothing else of the heap changes. */
  ghost predicate OnlyLinksCleared(w: World, w': World) {
    && (forall a :: a in w'.heap.memory <==>
          a in w.heap.memory && NoLinkAt(w.short, w.marked, a) && NoLinkAt(w.long, w'.marked, a))
    && (forall a :: a in w'.heap.memory ==> a in w.heap.memory && w'.heap.memory[a] == w.heap.memory[a])
    && (forall a :: a in w'.heap.plausible <==>
          a in w.heap.plausible && NoLinkAt(w.short, w.marked, a) && NoLinkAt(w.long, w'.marked, a))
    && w'.heap.blocks == w.heap.blocks && w'.heap.rootRanges == w.heap.rootRanges && w'.heap.stackRoots == w.heap.stackRoots
  }

  /** A link is forgotten exactly if it was cleared or the object that holds it dies. */
  ghost predicate OnlyLinksForgotten(w: World, w': World, baseOf: map<nat, Obj>) {
    && (forall l :: l in w'.short <==> l in w.short && w.short[l] in w.marked && (l !in baseOf || baseOf[l] in w'.marked))
    && (forall l :: l in w'.short ==> l in w.short && w'.short[l] == w.short[l])
    && (forall l :: l in w'.long <==> l in w.long && w.long[l] in w'.marked && (l !in baseOf || baseOf[l] in w'.marked))
    && (forall l :: l in w'.long ==> l in w.long && w'.long[l] == w.long[l])
  }

  /** words[i] is a word of path[i] that leads to the next object, and holds no short link that is cleared. */
  ghost predicate Threads(w: World, path: seq<Obj>, words: seq<nat>) {
    && |path| == |words| + 1
    && forall i :: 0 <= i < |words| ==>
         && path[i] in Objects(w.heap) && words[i] in Fields(w.heap, path[i])
         && words[i] in w.heap.memory && w.heap.memory[words[i]] == path[i + 1]
         && NoLinkAt(w.short, w.marked, words[i])
  }

  /** Such words, n or more of them, lead from one of the seeds to the object. */
  ghost predicate Led(w: World, seeds: set<Obj>, n: nat, o: Obj) {
    exists path, words :: Threads(w, path, words) && |words| >= n && path[0] in seeds && path[|path| - 1] == o
  }

  /** An object is marked exactly if the words that keep their contents lead to it from a marked or a registered one. */
  ghost predicate MarkedIsLed(w: World, w': World, registered: set<Obj>) {
    forall o :: o in w'.marked <==> Led(w, w.marked + registered, 0, o)
  }

  lemma ClearedOnlyLinks(w: World, w': World, registered: set<Obj>, baseOf: map<nat, Obj>)
    requires Finalized(w, w', registered, baseOf)
    ensures OnlyLinksCleared(w, w') && OnlyLinksForgotten(w, w', baseOf)
  {
    hide Dying, NoLinkAt;
    forall a: nat
      ensures a in w'.heap.memory <==> a in w.heap.memory && NoLinkAt(w.short, w.marked, a) && NoLinkAt(w.long, w'.marked, a)
      ensures a in w'.heap.memory ==> w'.heap.memory[a] == w.heap.memory[a]
      ensures a in w'.heap.plausible <==> a in w.heap.plausible && NoLinkAt(w.short, w.marked, a) && NoLinkAt(w.long, w'.marked, a)
    {
      ClearedWord(w.heap, w.short, w.marked, a);
      ClearedWord(Middle(w), w.long, w'.marked, a);
    }
  }

  /** The words of a pointer path in the heap whose short links are cleared. */
  lemma {:induction false} PathThreads(w: World, path: seq<Obj>) returns (words: seq<nat>)
    requires PointerPath(Middle(w), path)
    ensures Threads(w, path, words)
  {
    hide NoLinkAt, Points, Without, Objects, Fields;
    if |path| == 1 { return []; }
    var n := |path| - 1;
    ShorterPath(Middle(w), path);
    words := PathThreads(w, path[..n]);
    assert Points(Middle(w), path[n - 1], path[n - 1 + 1]);
    var a := PointingWord(w, path[n - 1], path[n]);
    words := words + [a];
  }

  lemma ShorterPath(h: Heap, path: seq<Obj>)
    requires PointerPath(h, path) && |path| > 1
    ensures PointerPath(h, path[..|path| - 1])
  {
    hide Points;
    var n := |path| - 1;
    forall i | 0 <= i < n - 1 ensures Points(h, path[..n][i], path[..n][i + 1]) { assert Points(h, path[i], path[i + 1]); }
  }

  lemma PointingWord(w: World, o: Obj, t: Obj) returns (a: nat)
    requires Points(Middle(w), o, t)
    ensures o in Objects(w.heap) && a in Fields(w.heap, o)
    ensures a in w.heap.memory && w.heap.memory[a] == t && NoLinkAt(w.short, w.marked, a)
  {
    a :| a in Fields(Middle(w), o) && a in Middle(w).memory && Middle(w).memory[a] == t;
    ClearedWord(w.heap, w.short, w.marked, a);
  }

  lemma ThreadsPath(w: World, path: seq<Obj>, words: seq<nat>)
    requires Threads(w, path, words)
    ensures PointerPath(Middle(w), path)
  {
    hide NoLinkAt, Fields;
    forall i | 0 <= i < |path| - 1 ensures Points(Middle(w), path[i], path[i + 1]) {
      ClearedWord(w.heap, w.short, w.marked, words[i]);
      SameFields(w, path[i]);
    }
  }

  lemma SameFields(w: World, o: Obj)
    requires o in Objects(w.heap)
    ensures o in Objects(Middle(w)) && Fields(Middle(w), o) == Fields(w.heap, o)
  {
  }

  lemma MarksAreLed(w: World, w': World, registered: set<Obj>, baseOf: map<nat, Obj>)
    requires WorldOk(w, registered) && Finalized(w, w', registered, baseOf)
    ensures MarkedIsLed(w, w', registered)
  {
    hide WorldOk, Without, Threads, NoLinkAt, Reach, Dying, Staying, Finalized;
    forall o | o in w'.marked ensures Led(w, w.marked + registered, 0, o) {
      MarkedLed(w, w', registered, baseOf, o);
    }
    forall o | Led(w, w.marked + registered, 0, o) ensures o in w'.marked {
      LedMarked(w, w', registered, baseOf, o);
    }
  }

  lemma MarkedLed(w: World, w': World, registered: set<Obj>, baseOf: map<nat, Obj>, o: Obj)
    requires Finalized(w, w', registered, baseOf) && o in w'.marked
    ensures Led(w, w.marked + registered, 0, o)
  {
    hide Threads, NoLinkAt, Points, Without, Staying, Dying;
    var path :| PointerPath(Middle(w), path) && path[0] in w.marked + registered && path[|path| - 1] == o;
    var words := PathThreads(w, path);
  }

  lemma LedMarked(w: World, w': World, registered: set<Obj>, baseOf: map<nat, Obj>, o: Obj)
    requires WorldOk(w, registered) && Finalized(w, w', registered, baseOf) && Led(w, w.marked + registered, 0, o)
    ensures o in w'.marked
  {
    hide HeapOk, Objects, RootObjects, Closed, Without, NoLinkAt, Reach, Points, Staying, Dying;
    MiddleOk(w, registered);
    ReachIsClosed(Middle(w), w.marked + registered);
    SeedsReached(Middle(w), w.marked + registered);
    var path, words :| Threads(w, path, words) && path[0] in w.marked + registered && path[|path| - 1] == o;
    ThreadsPath(w, path, words);
    PathInClosed(Middle(w), w'.marked, path, |path| - 1);
  }

  /** What has been queued are the registered unmarked objects that no such object leads to. */
  ghost predicate QueuedAreNotLed(w: World, registered: set<Obj>, queued: set<Obj>) {
    forall o :: o in queued <==> o in registered && o !in w.marked && !Led(w, registered - w.marked, 1, o)
  }

  lemma UnreachedAreNotLed(w: World, registered: set<Obj>)
    requires WorldOk(w, registered)
    ensures QueuedAreNotLed(w, registered, Unreached(Middle(w), w.marked, registered))
  {
    hide WorldOk, HeapOk, Objects, Threads, NoLinkAt, Reach, TargetsOf;
    var seeds := registered - w.marked;
    forall o ensures o in Reach(Middle(w), TargetsOf(Middle(w), seeds)) <==> Led(w, seeds, 1, o) { BeyondIsLed(w, registered, seeds, o); }
  }

  lemma BeyondIsLed(w: World, registered: set<Obj>, seeds: set<Obj>, o: Obj)
    requires WorldOk(w, registered)
    ensures o in Reach(Middle(w), TargetsOf(Middle(w), seeds)) <==> Led(w, seeds, 1, o)
  {
    hide HeapOk, Objects, NoLinkAt, Reach, TargetsOf, Points, Without;
    MiddleOk(w, registered);
    BeyondIs(Middle(w), seeds, o);
    if path :| PointerPath(Middle(w), path) && |path| > 1 && path[0] in seeds && path[|path| - 1] == o {
      var words := PathThreads(w, path);
    }
    if path, words :| Threads(w, path, words) && |words| >= 1 && path[0] in seeds && path[|path| - 1] == o {
      ThreadsPath(w, path, words);
    }
  }

  // ----- The call -----

  ghost function WorldOf(m: MarkMachine, short: DlTable, long: DlTable): World
    reads m, short, long
  {
    World(m.heap, m.marked, short.content, long.content)
  }

  /** A finalizer for the heap in which the short links are cleared. */
  method AfterClearing(f: Finalizer, links: set<nat>) returns (f': Finalizer)
    requires f.Valid() && Ready(f.machine)
    ensures fresh(f') && fresh(f'.machine) && f'.Valid() && Ready(f'.machine)
    ensures f'.machine.heap == Without(f.machine.heap, links) && f'.machine.heap.rootRanges == f.machine.heap.rootRanges
    ensures f'.machine.marked == f.machine.marked
    ensures f'.machine.capacity == f.machine.capacity && f'.chains == f.chains && f'.queue == f.queue && f'.foSize == f.foSize
  {
    var m := f.machine;
    WithoutOk(m.heap, links);
    WithoutClosed(m.heap, links, m.marked);
    var m' := new MarkMachine(Without(m.heap, links), m.discards, m.workLimit, m.capacity, m.marked);
    f' := new Finalizer(m', f.foSize, f.chains, f.queue);
  }

  /** Links whose objects are not marked are cleared and forgotten. */
  method Disappear(table: DlTable, marked: set<Obj>) returns (links: set<nat>)
    requires table.Valid()
    modifies table
    ensures table.Valid() && links == Dying(old(table.content), marked)
    ensures table.content == map l | l in old(table.content) && old(table.content)[l] in marked :: old(table.content)[l]
  {
    var cleared := table.MakeDisappear(marked, map[]);
    links := cleared.Keys;
  }

  /** The middle phases: mark, and queue. */
  method Enqueue(f: Finalizer, grants: Grants) returns (done: bool, ghost overflowed: set<Obj>, ghost queued: seq<Fo>)
    requires f.Valid() && Ready(f.machine)
    modifies f`chains, f`entries, f`queue, f`bytesFinalized, f.machine
    ensures done ==> f.Valid() && Ready(f.machine) && f.queue == queued + old(f.queue)
    ensures done ==> BaseSet(queued) == Unreached(f.machine.heap, old(f.machine.marked), Bases(old(f.chains))) - overflowed
    ensures done ==> f.machine.marked == Reach(f.machine.heap, old(f.machine.marked) + Bases(old(f.chains)))
    ensures done ==> Bases(f.chains) == Bases(old(f.chains)) - BaseSet(queued) && EntriesMoved(f.chains, old(f.chains), queued)
    ensures Visits(f.machine.heap, old(f.machine.marked), Order(old(f.chains)))
    ensures Predicted(f.machine.heap, old(f.machine.marked), Order(old(f.chains)), old(f.machine.capacity), overflowed)
    ensures overflowed == {} || (grants.patient && f.machine.heap.rootRanges == []) ==> done
  {
    hide HeapOk, Objects, Reach, Closed, RootObjects, Bases, BaseSet, Unreached, Visits, Predicted, RightIff, SizesFrom, Calm, Ample, Order, EntriesMoved;
    ghost var sizes;
    done, overflowed, queued, sizes := f.Finalize(grants);
  }

  /** The last phases: dangling short links, then the long links. */
  method SweepLinks(short: DlTable, long: DlTable, heap: Heap, marked: set<Obj>, baseOf: map<nat, Obj>, ghost before: Links, ghost early: set<Obj>)
    returns (heap': Heap)
    requires short.Valid() && long.Valid() && short != long
    requires short.content == map l | l in before && before[l] in early :: before[l]
    modifies short, long
    ensures short.Valid() && short.content == Staying(before, early, marked, baseOf)
    ensures long.Valid() && long.content == Staying(old(long.content), marked, marked, baseOf)
    ensures heap' == Without(heap, Dying(old(long.content), marked))
  {
    hide DlTable.Valid, Without;
    ghost var links := long.content;
    short.RemoveDangling(baseOf, marked);
    StayingTwice(before, early, marked, baseOf);
    var late := Disappear(long, marked);
    long.RemoveDangling(baseOf, marked);
    StayingTwice(links, marked, marked, baseOf);
    heap' := Without(heap, late);
  }

  lemma StayingTwice(links: Links, objects: set<Obj>, holders: set<Obj>, baseOf: map<nat, Obj>)
    ensures var some := map l | l in links && links[l] in objects :: links[l];
      (map l | l in some && (l in baseOf ==> baseOf[l] in holders) :: some[l]) == Staying(links, objects, holders, baseOf)
  {
  }

  lemma WorldIsOk(f: Finalizer, short: DlTable, long: DlTable)
    requires f.Valid() && Ready(f.machine)
    ensures WorldOk(WorldOf(f.machine, short, long), Bases(f.chains))
  {
    hide HeapOk, Objects, RootObjects, Closed, Bases;
  }

  /** GC_finalize.  The heap of a machine does not change, so f' is the finalizer afterwards; heap is
      the heap when the long links have been cleared too. */
  method GcFinalize(f: Finalizer, short: DlTable, long: DlTable, baseOf: map<nat, Obj>, grants: Grants)
    returns (f': Finalizer, heap: Heap, done: bool, ghost overflowed: set<Obj>, ghost queued: seq<Fo>)
    requires f.Valid() && Ready(f.machine) && short.Valid() && long.Valid() && short != long
    modifies short, long
    ensures done ==> f'.Valid() && Ready(f'.machine) && short.Valid() && long.Valid() && f'.queue == queued + old(f.queue)
    ensures done ==>
      Finalized(old(WorldOf(f.machine, short, long)), World(heap, f'.machine.marked, short.content, long.content), Bases(old(f.chains)), baseOf)
    ensures var w := old(WorldOf(f.machine, short, long));
      done ==> BaseSet(queued) == Unreached(Middle(w), w.marked, Bases(old(f.chains))) - overflowed
    ensures var w := old(WorldOf(f.machine, short, long)); var order := Order(old(f.chains));
      Visits(Middle(w), w.marked, order) && Predicted(Middle(w), w.marked, order, f.machine.capacity, overflowed)
    ensures overflowed == {} || (grants.patient && f.machine.heap.rootRanges == []) ==> done
    ensures var w := old(WorldOf(f.machine, short, long)); var w' := World(heap, f'.machine.marked, short.content, long.content);
      done ==> OnlyLinksCleared(w, w') && OnlyLinksForgotten(w, w', baseOf) && MarkedIsLed(w, w', Bases(old(f.chains)))
    ensures done ==> Bases(f'.chains) == Bases(old(f.chains)) - BaseSet(queued) && EntriesMoved(f'.chains, old(f.chains), queued)
    ensures var w := old(WorldOf(f.machine, short, long));
      done && overflowed == {} ==> QueuedAreNotLed(w, Bases(old(f.chains)), BaseSet(queued))
  {
    hide HeapOk, Objects, Reach, Closed, RootObjects, Bases, BaseSet, Unreached, Visits, Predicted, Order, Staying, Dying, Without, Distinct, Total,
      DlTable.Valid, Finalizer.Valid, Ready, OnlyLinksCleared, OnlyLinksForgotten, MarkedIsLed, QueuedAreNotLed, WorldOk, EntriesMoved;
    ghost var w := WorldOf(f.machine, short, long);
    ghost var registered := Bases(f.chains);
    WorldIsOk(f, short, long);
    UnreachedAreNotLed(w, registered);
    var cleared := Disappear(short, f.machine.marked);
    f' := AfterClearing(f, cleared);
    done, overflowed, queued := Enqueue(f', grants);
    heap := f'.machine.heap;
    if done {
      heap := SweepLinks(short, long, heap, f'.machine.marked, baseOf, w.short, w.marked);
      ghost var w' := World(heap, f'.machine.marked, short.content, long.content);
      ClearedOnlyLinks(w, w', registered, baseOf);
      MarksAreLed(w, w', registered, baseOf);
      if overflowed == {} { assert BaseSet(queued) == Unreached(Middle(w), w.marked, registered); }
    }
  }
}

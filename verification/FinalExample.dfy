/** A linked list that delays its own finalizer, whatever the size of the mark stack. */
module FinalizationExample {
  import opened ObjectGraph
  import opened MarkDrain
  import opened FinalMarking
  import opened Marker
  import opened Finalization

  /** The number of words in a heap block. */
  const BLOCK_WORDS: nat := 512

  /** The k-th node of the list, and the data it points to, two words each in a block of their own. */
  function Node(k: nat): Obj { BLOCK_WORDS * (k + 1) }

  function Data(k: nat): Obj { BLOCK_WORDS * (k + 1) + 2 }

  /** A list of n + 1 nodes; the first word of each leads to its data, the second one to the next node.
      Data may hold pointers but does not.  Nothing points to the first node. */
  function ListHeap(n: nat): Heap {
    Heap(ListBlocks(n), ListMemory(n), ListMemory(n).Keys, [], [])
  }

  function ListBlocks(n: nat): (blocks: seq<Block>)
    ensures |blocks| == n + 1
    ensures forall k :: 0 <= k <= n ==> blocks[k] == Block(k + 1, 1, Collectable, Length(2), [Node(k), Data(k)])
  {
    seq(n + 1, k requires 0 <= k => Block(k + 1, 1, Collectable, Length(2), [Node(k), Data(k)]))
  }

  function ListMemory(n: nat): map<nat, Obj> {
    map a | BLOCK_WORDS <= a < BLOCK_WORDS * (n + 1) && a % BLOCK_WORDS <= 1 ::
      if a % BLOCK_WORDS == 0 then a + 2 else a - 1 + BLOCK_WORDS
  }

  lemma Words(n: nat, k: nat)
    requires k < n
    ensures Node(k) in ListMemory(n) && ListMemory(n)[Node(k)] == Data(k)
    ensures Node(k) + 1 in ListMemory(n) && ListMemory(n)[Node(k) + 1] == Node(k + 1)
  {
    assert Node(k) % BLOCK_WORDS == 0 && (Node(k) + 1) % BLOCK_WORDS == 1;
  }

  /** The first words of a list's block are a node, and the two that follow its data. */
  lemma Apart(j: nat, k: nat)
    ensures Node(j) != Data(k) && (j != k ==> Node(j) != Node(k) && Data(j) != Data(k))
  {
  }

  lemma ListDisjoint(n: nat)
    ensures forall i, j, x :: 0 <= i < j < |ListBlocks(n)| && x in ListBlocks(n)[i].objs ==> x !in ListBlocks(n)[j].objs
  {
    forall i, j, x | 0 <= i < j < |ListBlocks(n)| && x in ListBlocks(n)[i].objs ensures x !in ListBlocks(n)[j].objs {
      Apart(i, j);
      Apart(j, i);
    }
  }

  lemma NodeObjects(n: nat, k: nat)
    requires k <= n
    ensures Node(k) in Objects(ListHeap(n)) && EntryOf(ListHeap(n), Node(k)) == Entry(Node(k), Length(2))
    ensures Data(k) in Objects(ListHeap(n)) && EntryOf(ListHeap(n), Data(k)) == Entry(Data(k), Length(2))
  {
    hide Objects, ObjectsIn, ListBlocks;
    ListDisjoint(n);
    assert ListBlocks(n)[k].objs == [Node(k), Data(k)] && Node(k) in ListBlocks(n)[k].objs && Data(k) in ListBlocks(n)[k].objs;
    DescrOfBlock(ListBlocks(n), k, Node(k));
    DescrOfBlock(ListBlocks(n), k, Data(k));
    ObjectsAre(ListHeap(n));
  }

  lemma ObjectsAre(h: Heap)
    ensures Objects(h) == ObjectsIn(h.blocks)
  {
  }

  lemma Pointers(n: nat, a: nat)
    requires a in ListMemory(n)
    ensures ListMemory(n)[a] in Objects(ListHeap(n)) && ListMemory(n)[a] != Node(0)
  {
    hide Objects, ListHeap;
    var k := a / BLOCK_WORDS - 1;
    assert a == BLOCK_WORDS * (k + 1) + a % BLOCK_WORDS && 0 <= k < n;
    NodeObjects(n, k);
    NodeObjects(n, k + 1);
  }

  lemma ListHeapOk(n: nat)
    ensures HeapOk(ListHeap(n)) && RootObjects(ListHeap(n)) == {} && ListHeap(n).rootRanges == []
  {
    hide ListMemory, Objects;
    forall a | a in ListMemory(n) ensures ListMemory(n)[a] in Objects(ListHeap(n)) { Pointers(n, a); }
    ListDisjoint(n);
    assert RootWords(ListHeap(n)) == {};
  }

  // ----- How high the stack gets -----

  function DataEntries(k: nat): (stack: seq<Entry>)
    ensures |stack| == k
  {
    if k == 0 then [] else DataEntries(k - 1) + [Entry(Data(k - 1), Length(2))]
  }

  /** What is marked when the k-th node is on top: the data before it, and the nodes up to it but the first. */
  ghost function MarkedAt(k: nat): set<Obj> {
    (set i | 0 <= i < k :: Data(i)) + (set i | 1 <= i <= k :: Node(i))
  }

  ghost function At(k: nat): Drain {
    Drain(DataEntries(k) + [Entry(Node(k), Length(2))], MarkedAt(k))
  }

  lemma MarkedNext(k: nat)
    ensures MarkedAt(k + 1) == MarkedAt(k) + {Data(k)} + {Node(k + 1)}
    ensures Data(k) !in MarkedAt(k) && Node(k + 1) !in MarkedAt(k) + {Data(k)}
  {
    hide Node, Data;
    forall i: nat, j: nat ensures Node(i) != Data(j) && (i != j ==> Node(i) != Node(j) && Data(i) != Data(j)) { Apart(i, j); }
  }

  /** In a round the data is pushed below the next node. */
  lemma ListRound(n: nat, k: nat)
    requires k < n && HeapOk(ListHeap(n))
    ensures Round(ListHeap(n), At(k)) == At(k + 1)
  {
    hide HeapOk, Objects, DescrOf, Round, MarkedAt;
    var h, a := ListHeap(n), Node(k);
    var below := Drain(DataEntries(k), MarkedAt(k));
    RoundFrom(h, DataEntries(k), Entry(a, Length(2)), MarkedAt(k));
    RangeNext(h, below, a, a);
    RangeNext(h, below, a, a + 1);
    Words(n, k);
    NodeObjects(n, k);
    NodeObjects(n, k + 1);
    MarkedNext(k);
    var one := LookAt(h, below, a);
    assert one == Drain(DataEntries(k + 1), MarkedAt(k) + {Data(k)});
    assert LookAt(h, one, a + 1) == Drain(DataEntries(k + 1) + [Entry(Node(k + 1), Length(2))], MarkedAt(k + 1));
  }

  lemma MarkedIsHeap(n: nat, k: nat)
    requires k <= n
    ensures MarkedAt(k) <= Objects(ListHeap(n))
  {
    forall i: nat | i <= n ensures Node(i) in Objects(ListHeap(n)) && Data(i) in Objects(ListHeap(n)) { NodeObjects(n, i); }
  }

  lemma {:induction false} ListPeak(n: nat, k: nat)
    requires k <= n && HeapOk(ListHeap(n))
    ensures At(k).marked <= Objects(ListHeap(n)) && Peak(ListHeap(n), At(k)) > n
    decreases n - k
  {
    hide HeapOk, Objects, Round, MarkedAt;
    MarkedIsHeap(n, k);
    if k < n {
      ListRound(n, k);
      ListPeak(n, k + 1);
    }
  }

  /** Marking from the first node of a list that is longer than the mark stack overflows it. */
  lemma ListOverflows(n: nat)
    requires HeapOk(ListHeap(n)) && Node(0) in Objects(ListHeap(n))
    ensures DrainPeak(ListHeap(n), {}, Node(0)) > n
  {
    hide HeapOk, Objects, DescrOf, Peak;
    ListPeak(n, 0);
    NodeObjects(n, 0);
    assert MarkedAt(0) == {};
    assert At(0) == Drain([Entry(Node(0), Length(2))], {});
    assert Pushed(ListHeap(n), Node(0)) == [Entry(Node(0), Length(2))];
  }

  // ----- The finalizer of the list -----

  /** Nothing leads to the first node, so it is what should be queued. */
  lemma HeadUnreached(n: nat)
    requires HeapOk(ListHeap(n))
    ensures Unreached(ListHeap(n), {}, {Node(0)}) == {Node(0)}
  {
    hide HeapOk, Objects, ListMemory, ListBlocks;
    var h := ListHeap(n);
    var others := Objects(h) - {Node(0)};
    assert {Node(0)} - {} == {Node(0)};
    forall a | a in h.memory ensures h.memory[a] in others { Pointers(n, a); }
    assert Closed(h, others);
    ReachLeast(h, TargetsOf(h, {Node(0)}), others);
  }

  lemma HeadRegistered()
    ensures Order([[Fo(Node(0), 2)]]) == [Node(0)] && Bases([[Fo(Node(0), 2)]]) == {Node(0)} && Distinct([[Fo(Node(0), 2)]])
  {
    var chains: seq<seq<Fo>> := [[Fo(Node(0), 2)]];
    assert chains[0][0].base in Bases(chains);
    assert Order(chains[..0]) == [] && ChainOrder(chains[0]) == [Node(0)];
  }

  lemma HeadOverflows(h: Heap, u: Obj, size: nat)
    requires HeapOk(h) && u in Objects(h) && DrainPeak(h, {}, u) > size
    ensures Visits(h, {}, [u]) && FirstOverflow(h, {}, [u], size, 0)
  {
    hide HeapOk, Objects, DrainPeak;
    NothingVisited(h, {});
    NoVisits(h, {}, Same(0, size));
    SameNext(0, size);
    OverflowsNext(h, {}, [], Same(0, size), u, size);
    assert [] + [u] == [u] && [u][..0] == [] && [u][..1] == [u] && Elements([]) == {};
  }

  /** For every size of the mark stack: the list is registered and nothing is marked, so its first
      node is what should be queued.  The stack overflows there and it is not queued; it is marked when
      the call finishes, and the call does finish if memory is granted in the end. */
  method ListIsDelayed(capacity: nat, discards: nat, workLimit: nat, foSize: nat, grants: Grants)
    returns (finalizer: Finalizer, done: bool, ghost overflowed: set<Obj>)
    requires 1 <= discards <= capacity
    ensures finalizer.machine.heap == ListHeap(capacity) && Unreached(ListHeap(capacity), {}, {Node(0)}) == {Node(0)}
    ensures Node(0) in overflowed && finalizer.queue == []
    ensures done ==> finalizer.Valid() && Node(0) in finalizer.machine.marked
    ensures grants.patient ==> done
  {
    hide HeapOk, Objects, Reach, Peak, DrainPeak, Overflows, Calm, Unreached, Bases, Order, Distinct, BaseSet, FirstOverflow, Visits,
      Predicted, RightIff, Total, Remaining, AllLeave, RootObjects, Closed, DescrOf, ListHeap;
    var h := ListHeap(capacity);
    ListHeapOk(capacity);
    NodeObjects(capacity, 0);
    HeadUnreached(capacity);
    HeadRegistered();
    ListOverflows(capacity);
    HeadOverflows(h, Node(0), capacity);
    var machine := new MarkMachine(h, discards, workLimit, capacity, {});
    NothingMarked(machine);
    finalizer := new Finalizer(machine, foSize, [[Fo(Node(0), 2)]], []);
    ghost var queued, sizes;
    done, overflowed, queued, sizes := finalizer.Finalize(grants);
    PredictedFirst(h, [Node(0)], capacity, overflowed);
    if done { ReachSeed(h, {} + {Node(0)}, Node(0)); }
    EmptyQueue(queued);
  }

  lemma PredictedFirst(h: Heap, order: seq<Obj>, size: nat, overflowed: set<Obj>)
    requires Visits(h, {}, order) && Predicted(h, {}, order, size, overflowed) && FirstOverflow(h, {}, order, size, 0)
    ensures |order| > 0 && order[0] in overflowed
  {
  }

  lemma NothingMarked(m: MarkMachine)
    requires m.Shape() && m.state == NONE && m.stack == [] && m.marked == {} && RootObjects(m.heap) == {}
    ensures Ready(m)
  {
  }

  lemma EmptyQueue(queue: seq<Fo>)
    ensures BaseSet(queue) == {} ==> queue == []
  {
    if queue != [] { assert queue[0].base in BaseSet(queue); }
  }
}

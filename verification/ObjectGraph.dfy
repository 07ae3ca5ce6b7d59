/** The collected heap as the marker sees it: blocks of equal objects, and for
    every word the object it points to, if it points to one. */
module ObjectGraph {

  /** An object is named by the address of its first word. */
  type Obj = nat

  /** Which words behind a start address may hold pointers: a number of
      consecutive words, or those picked by a bit map. */
  datatype Descr = Length(words: nat) | Bitmap(bits: seq<bool>)

  /** A mark stack entry: a start address and a descriptor. */
  datatype Entry = Entry(start: nat, descr: Descr)

  datatype Kind = Collectable | Uncollectable | AtomicUncollectable

  /** An allocated block: its address and size in heap blocks, the kind of its
      objects, their common descriptor, and the objects in address order. */
  datatype Block = Block(addr: nat, size: nat, kind: Kind, descr: Descr, objs: seq<Obj>)

  /** memory[a] is the object that the word at address a points to; words that
      merely look like heap addresses are plausible as well.  The roots are
      ranges of words and objects found by scanning stacks and registers. */
  datatype Heap = Heap(blocks: seq<Block>, memory: map<nat, Obj>, plausible: set<nat>,
                       rootRanges: seq<Entry>, stackRoots: seq<Obj>)

  function Span(d: Descr): nat {
    match d
    case Length(n) => n
    case Bitmap(bits) => |bits|
  }

  predicate Covers(e: Entry, a: nat) {
    e.start <= a < e.start + Span(e.descr) && (e.descr.Bitmap? ==> e.descr.bits[a - e.start])
  }

  function WordsOf(e: Entry): (words: set<nat>)
    ensures forall a :: a in words <==> Covers(e, a)
  {
    set a | e.start <= a < e.start + Span(e.descr) && Covers(e, a)
  }

  function PendingWords(stack: seq<Entry>): set<nat> {
    if stack == [] then {} else PendingWords(stack[..|stack| - 1]) + WordsOf(stack[|stack| - 1])
  }

  /** Pointer-free objects have an empty descriptor and are never pushed. */
  predicate PointerFree(d: Descr) {
    d == Length(0)
  }

  ghost predicate HeapOk(h: Heap) {
    && (forall i :: 0 <= i < |h.blocks| ==> h.blocks[i].addr > 0 && h.blocks[i].size > 0)
    && (forall i :: 0 <= i < |h.blocks| && h.blocks[i].kind == AtomicUncollectable ==> PointerFree(h.blocks[i].descr))
    && (forall i, j :: 0 <= i < j < |h.blocks| ==> h.blocks[i].addr + h.blocks[i].size <= h.blocks[j].addr)
    && (forall i, j, x :: 0 <= i < j < |h.blocks| && x in h.blocks[i].objs ==> x !in h.blocks[j].objs)
    && (forall a :: a in h.memory ==> h.memory[a] in Objects(h) && a in h.plausible)
    && (forall i :: 0 <= i < |h.rootRanges| ==> h.rootRanges[i].descr.Length?)
    && (forall o :: o in h.stackRoots ==> o in Objects(h))
  }

  function ObjectsIn(blocks: seq<Block>): set<Obj> {
    set b, o | b in blocks && o in b.objs :: o
  }

  function Objects(h: Heap): set<Obj> {
    ObjectsIn(h.blocks)
  }

  function DescrOf(h: Heap, o: Obj): Descr
    requires o in Objects(h)
  {
    DescrIn(h.blocks, o)
  }

  function DescrIn(blocks: seq<Block>, o: Obj): Descr
    requires o in ObjectsIn(blocks)
  {
    if o in blocks[0].objs then blocks[0].descr else DescrIn(blocks[1..], o)
  }

  lemma {:induction false} DescrOfBlock(blocks: seq<Block>, i: nat, o: Obj)
    requires i < |blocks| && o in blocks[i].objs
    requires forall k, j, x :: 0 <= k < j < |blocks| && x in blocks[k].objs ==> x !in blocks[j].objs
    ensures o in ObjectsIn(blocks) && DescrIn(blocks, o) == blocks[i].descr
  {
    assert blocks[i] in blocks;
    if i > 0 {
      assert o !in blocks[0].objs;
      DescrOfBlock(blocks[1..], i - 1, o);
    }
  }

  /** The words of an object that are traced. */
  function Fields(h: Heap, o: Obj): set<nat>
    requires o in Objects(h)
  {
    WordsOf(Entry(o, DescrOf(h, o)))
  }

  /** The words of the root ranges. */
  function RootWords(h: Heap): set<nat> {
    PendingWords(h.rootRanges)
  }

  function RootObjects(h: Heap): set<Obj> {
    (set a | a in RootWords(h) && a in h.memory :: h.memory[a]) + (set o | o in h.stackRoots)
  }

  /** Found on a stack, or pointed to by a word of a root range. */
  ghost predicate IsRoot(h: Heap, o: Obj) {
    o in h.stackRoots || exists a :: a in h.memory && h.memory[a] == o && InRootRange(h, a)
  }

  ghost predicate InRootRange(h: Heap, a: nat) {
    exists i :: 0 <= i < |h.rootRanges| && h.rootRanges[i].start <= a < h.rootRanges[i].start + Span(h.rootRanges[i].descr)
  }

  lemma {:induction false} PendingIs(stack: seq<Entry>, a: nat)
    ensures a in PendingWords(stack) <==> exists i :: 0 <= i < |stack| && Covers(stack[i], a)
  {
    if stack != [] {
      var n := |stack| - 1;
      PendingIs(stack[..n], a);
      if i :| 0 <= i < n && Covers(stack[..n][i], a) { assert Covers(stack[i], a); }
      if i :| 0 <= i < |stack| && Covers(stack[i], a) && i < n { assert Covers(stack[..n][i], a); }
    }
  }

  lemma RootIs(h: Heap, o: Obj)
    requires HeapOk(h)
    ensures o in RootObjects(h) <==> IsRoot(h, o)
  {
    forall a ensures a in RootWords(h) <==> InRootRange(h, a) { PendingIs(h.rootRanges, a); }
  }

  // ----- Reachability -----

  ghost predicate Points(h: Heap, o: Obj, t: Obj) {
    o in Objects(h) && exists a :: a in Fields(h, o) && a in h.memory && h.memory[a] == t
  }

  lemma FieldsAre(h: Heap, b: Block, o: Obj, a: nat)
    requires HeapOk(h) && b in h.blocks && o in b.objs
    ensures o in Objects(h) && (a in Fields(h, o) <==> o <= a && PickedBy(b.descr, a - o))
  {
    var i :| 0 <= i < |h.blocks| && h.blocks[i] == b;
    DescrOfBlock(h.blocks, i, o);
  }

  /** One object points to another exactly by a word that its block's descriptor picks. */
  lemma PointsIff(h: Heap, b: Block, o: Obj, t: Obj)
    requires HeapOk(h) && b in h.blocks && o in b.objs
    ensures Points(h, o, t) <==> exists a :: a in h.memory && h.memory[a] == t && o <= a && PickedBy(b.descr, a - o)
  {
    hide HeapOk, Objects, Fields, PickedBy;
    FieldsAre(h, b, o, o);
    forall a: nat ensures a in Fields(h, o) <==> o <= a && PickedBy(b.descr, a - o) { FieldsAre(h, b, o, a); }
  }

  /** The k-th word: one of the first ones, or one with its bit set. */
  predicate PickedBy(d: Descr, k: nat) {
    match d
    case Length(n) => k < n
    case Bitmap(bits) => k < |bits| && bits[k]
  }

  ghost predicate PointerPath(h: Heap, path: seq<Obj>) {
    |path| > 0 && forall i :: 0 <= i < |path| - 1 ==> Points(h, path[i], path[i + 1])
  }

  /** The objects at the ends of pointer paths from the seeds. */
  ghost function Reach(h: Heap, seeds: set<Obj>): set<Obj> {
    set o | o in Objects(h) && Reaches(h, seeds, o)
  }

  ghost predicate Reaches(h: Heap, seeds: set<Obj>, o: Obj) {
    exists path :: PointerPath(h, path) && path[0] in seeds && path[|path| - 1] == o
  }

  lemma ReachSeed(h: Heap, seeds: set<Obj>, o: Obj)
    requires o in seeds && o in Objects(h)
    ensures o in Reach(h, seeds)
  {
    assert PointerPath(h, [o]);
  }

  lemma ReachStep(h: Heap, seeds: set<Obj>, o: Obj, a: nat)
    requires HeapOk(h) && o in Reach(h, seeds) && a in Fields(h, o) && a in h.memory
    ensures h.memory[a] in Reach(h, seeds)
  {
    var path :| PointerPath(h, path) && path[0] in seeds && path[|path| - 1] == o;
    var longer := path + [h.memory[a]];
    forall i | 0 <= i < |longer| - 1 ensures Points(h, longer[i], longer[i + 1]) {
      if i < |path| - 1 { assert Points(h, path[i], path[i + 1]); }
    }
    assert PointerPath(h, longer) && longer[0] in seeds && longer[|longer| - 1] == h.memory[a];
  }

  /** A set that is closed under pointers. */
  ghost predicate Closed(h: Heap, s: set<Obj>) {
    forall o, a :: o in s && o in Objects(h) && a in Fields(h, o) && a in h.memory ==> h.memory[a] in s
  }

  lemma ReachLeast(h: Heap, seeds: set<Obj>, s: set<Obj>)
    requires seeds <= s && Closed(h, s)
    ensures Reach(h, seeds) <= s
  {
    forall o | o in Reach(h, seeds) ensures o in s {
      var path :| PointerPath(h, path) && path[0] in seeds && path[|path| - 1] == o;
      PathInClosed(h, s, path, |path| - 1);
    }
  }

  lemma {:induction false} PathInClosed(h: Heap, s: set<Obj>, path: seq<Obj>, i: nat)
    requires PointerPath(h, path) && path[0] in s && Closed(h, s) && i < |path|
    ensures path[i] in s
  {
    if i > 0 {
      PathInClosed(h, s, path, i - 1);
      assert Points(h, path[i - 1], path[i - 1 + 1]);
    }
  }

  lemma ReachIsClosed(h: Heap, seeds: set<Obj>)
    requires HeapOk(h)
    ensures Closed(h, Reach(h, seeds))
  {
    forall o, a | o in Reach(h, seeds) && o in Objects(h) && a in Fields(h, o) && a in h.memory
      ensures h.memory[a] in Reach(h, seeds)
    {
      ReachStep(h, seeds, o, a);
    }
  }

  lemma ReachOfClosed(h: Heap, s: set<Obj>)
    requires Closed(h, s) && s <= Objects(h)
    ensures Reach(h, s) == s
  {
    ReachLeast(h, s, s);
    forall o | o in s ensures o in Reach(h, s) { ReachSeed(h, s, o); }
  }

  lemma ReachMonotone(h: Heap, s: set<Obj>, t: set<Obj>)
    requires s <= t
    ensures Reach(h, s) <= Reach(h, t)
  {
    forall o | o in Reach(h, s) ensures o in Reach(h, t) {
      var path :| PointerPath(h, path) && path[0] in s && path[|path| - 1] == o;
      assert path[0] in t;
    }
  }

  lemma ReachUnion(h: Heap, s: set<Obj>, t: set<Obj>)
    requires HeapOk(h) && s <= Objects(h) && t <= Objects(h)
    ensures Reach(h, s + t) == Reach(h, s) + Reach(h, t)
  {
    hide HeapOk, Objects, Reach;
    ReachIsClosed(h, s);
    ReachIsClosed(h, t);
    SeedsReached(h, s);
    SeedsReached(h, t);
    ReachLeast(h, s + t, Reach(h, s) + Reach(h, t));
    ReachMonotone(h, s, s + t);
    ReachMonotone(h, t, s + t);
  }

  lemma SeedsReached(h: Heap, s: set<Obj>)
    requires s <= Objects(h)
    ensures s <= Reach(h, s) <= Objects(h)
  {
    forall o | o in s ensures o in Reach(h, s) { ReachSeed(h, s, o); }
  }

  /** The objects that the objects in s point to. */
  ghost function TargetsOf(h: Heap, s: set<Obj>): set<Obj> {
    set u, a | u in s && u in Objects(h) && a in Fields(h, u) && a in h.memory :: h.memory[a]
  }

  lemma TargetsAreObjects(h: Heap, s: set<Obj>)
    requires HeapOk(h)
    ensures TargetsOf(h, s) <= Objects(h)
  {
  }

  /** Following at least one pointer, and following any number. */
  lemma ReachThrough(h: Heap, s: set<Obj>)
    requires HeapOk(h) && s <= Objects(h)
    ensures Reach(h, s) == s + Reach(h, TargetsOf(h, s))
  {
    hide HeapOk, Reach, Objects;
    var t := TargetsOf(h, s);
    TargetsAreObjects(h, s);
    SeedsReached(h, s);
    SeedsReached(h, t);
    ReachIsClosed(h, t);
    ReachIsClosed(h, s);
    assert Closed(h, s + Reach(h, t)) by { ThroughIsClosed(h, s); }
    ReachLeast(h, s, s + Reach(h, t));
    assert t <= Reach(h, s) by { ClosedTargets(h, s, Reach(h, s)); }
    ReachLeast(h, t, Reach(h, s));
  }

  /** The objects beyond s are those at the ends of paths of one pointer or more. */
  lemma BeyondIs(h: Heap, s: set<Obj>, o: Obj)
    requires HeapOk(h)
    ensures o in Reach(h, TargetsOf(h, s)) <==>
      exists path :: PointerPath(h, path) && |path| > 1 && path[0] in s && path[|path| - 1] == o
  {
    hide HeapOk, Objects, Fields;
    if o in Reach(h, TargetsOf(h, s)) {
      var path :| PointerPath(h, path) && path[0] in TargetsOf(h, s) && path[|path| - 1] == o;
      var u, a :| u in s && u in Objects(h) && a in Fields(h, u) && a in h.memory && h.memory[a] == path[0];
      var longer := [u] + path;
      forall i | 0 <= i < |longer| - 1 ensures Points(h, longer[i], longer[i + 1]) {
        if i > 0 { assert Points(h, path[i - 1], path[i - 1 + 1]); }
      }
      assert PointerPath(h, longer) && longer[|longer| - 1] == o;
    }
    if path :| PointerPath(h, path) && |path| > 1 && path[0] in s && path[|path| - 1] == o {
      assert Points(h, path[0], path[0 + 1]);
      var n := |path| - 1;
      forall i | 0 <= i < n - 1 ensures Points(h, path[1..][i], path[1..][i + 1]) { assert Points(h, path[i + 1], path[i + 1 + 1]); }
      assert PointerPath(h, path[1..]) && path[1..][n - 1] == o;
      assert Points(h, path[n - 1], path[n - 1 + 1]);
      PointedIsObject(h, path[n - 1], o);
    }
  }

  lemma PointedIsObject(h: Heap, o: Obj, t: Obj)
    requires HeapOk(h) && Points(h, o, t)
    ensures t in Objects(h)
  {
  }

  lemma ThroughIsClosed(h: Heap, s: set<Obj>)
    requires HeapOk(h)
    ensures Closed(h, s + Reach(h, TargetsOf(h, s)))
  {
    TargetsAreObjects(h, s);
    ReachIsClosed(h, TargetsOf(h, s));
    SeedsReached(h, TargetsOf(h, s));
    hide HeapOk, Reach;
    forall o, a | o in s && o in Objects(h) && a in Fields(h, o) && a in h.memory ensures h.memory[a] in TargetsOf(h, s) { }
  }

  lemma ClosedTargets(h: Heap, s: set<Obj>, t: set<Obj>)
    requires Closed(h, t) && s <= t
    ensures TargetsOf(h, s) <= t
  {
  }

  // ----- Pending words of a stack -----

  lemma PendingPush(stack: seq<Entry>, e: Entry)
    ensures PendingWords(stack + [e]) == PendingWords(stack) + WordsOf(e)
  {
    assert (stack + [e])[..|stack|] == stack;
  }

  lemma {:induction false} PendingPrefix(stack: seq<Entry>, n: nat)
    requires n <= |stack|
    ensures PendingWords(stack[..n]) <= PendingWords(stack)
  {
    if n < |stack| {
      PendingPrefix(stack[..|stack| - 1], n);
      assert stack[..|stack| - 1][..n] == stack[..n];
    } else {
      assert stack[..n] == stack;
    }
  }

  lemma {:induction false} PendingMember(stack: seq<Entry>, i: nat)
    requires i < |stack|
    ensures WordsOf(stack[i]) <= PendingWords(stack)
  {
    if i < |stack| - 1 {
      PendingMember(stack[..|stack| - 1], i);
    }
  }
}

/** What emptying a mark stack does, and how high the stack gets meanwhile, if there is
    always room.  The order in which words are looked at decides the height. */
module MarkDrain {
  import opened ObjectGraph

  /** A piece of a range longer than this many words is left on the stack. */
  const SPLIT_RANGE_WORDS: nat := 128

  /** A mark stack without a limit, and the marks. */
  datatype Drain = Drain(stack: seq<Entry>, marked: set<Obj>)

  function EntryOf(h: Heap, u: Obj): Entry
    requires u in Objects(h)
  {
    Entry(u, DescrOf(h, u))
  }

  /** What is pushed for an object: nothing if it holds no pointers. */
  function Pushed(h: Heap, u: Obj): seq<Entry>
    requires u in Objects(h)
  {
    if PointerFree(DescrOf(h, u)) then [] else [EntryOf(h, u)]
  }

  /** An object is marked and pushed, unless it is marked already. */
  function MarkOne(h: Heap, d: Drain, t: Obj): Drain
    requires t in Objects(h)
  {
    if t in d.marked then d else Drain(d.stack + Pushed(h, t), d.marked + {t})
  }

  /** The same for the object behind the word at address a. */
  function LookAt(h: Heap, d: Drain, a: nat): Drain
    requires HeapOk(h)
  {
    if a in h.memory then MarkOne(h, d, h.memory[a]) else d
  }

  /** The words lo, lo + 1, ..., hi - 1 one after the other. */
  function LookAtRange(h: Heap, d: Drain, lo: nat, hi: nat): Drain
    requires HeapOk(h)
  {
    if lo >= hi then d else LookAt(h, LookAtRange(h, d, lo, hi - 1), hi - 1)
  }

  /** The words that the first n bits pick, one after the other. */
  function LookAtBits(h: Heap, d: Drain, lo: nat, bits: seq<bool>, n: nat): Drain
    requires HeapOk(h) && n <= |bits|
  {
    if n == 0 then d else
      var before := LookAtBits(h, d, lo, bits, n - 1);
      if bits[n - 1] then LookAt(h, before, lo + n - 1) else before
  }

  /** Words that point to no object make no difference. */
  lemma {:induction false} NoTargets(h: Heap, d: Drain, lo: nat, mid: nat, hi: nat)
    requires HeapOk(h) && lo <= mid <= hi && forall a :: mid <= a < hi ==> a !in h.memory
    ensures LookAtRange(h, d, lo, mid) == LookAtRange(h, d, lo, hi)
  {
    hide HeapOk;
    if mid < hi { NoTargets(h, d, lo, mid, hi - 1); }
  }

  lemma RangeNext(h: Heap, d: Drain, lo: nat, a: nat)
    requires HeapOk(h) && lo <= a
    ensures LookAtRange(h, d, lo, a + 1) == LookAt(h, LookAtRange(h, d, lo, a), a)
    ensures LookAtRange(h, d, lo, lo) == d
  {
    hide HeapOk;
  }

  predicate IsLong(e: Entry) {
    e.descr.Length? && e.descr.words >= SPLIT_RANGE_WORDS
  }

  function RestOf(e: Entry): Entry
    requires IsLong(e)
  {
    Entry(e.start + SPLIT_RANGE_WORDS - 1, Length(e.descr.words - (SPLIT_RANGE_WORDS - 1)))
  }

  /** What is left on the stack while the top entry is dealt with. */
  function Below(d: Drain): Drain
    requires d.stack != []
  {
    var n := |d.stack| - 1;
    Drain(d.stack[..n] + (if IsLong(d.stack[n]) then [RestOf(d.stack[n])] else []), d.marked)
  }

  /** The top entry, or the first words of a long one, is dealt with. */
  function Round(h: Heap, d: Drain): Drain
    requires HeapOk(h) && d.stack != []
  {
    var e := d.stack[|d.stack| - 1];
    match e.descr
    case Bitmap(bits) => LookAtBits(h, Below(d), e.start, bits, |bits|)
    case Length(n) => LookAtRange(h, Below(d), e.start, e.start + if IsLong(e) then SPLIT_RANGE_WORDS - 1 else n)
  }

  /** What a round does with entry e on top of a stack. */
  lemma RoundFrom(h: Heap, stack: seq<Entry>, e: Entry, marked: set<Obj>)
    requires HeapOk(h)
    ensures Round(h, Drain(stack + [e], marked)) ==
      if e.descr.Bitmap? then LookAtBits(h, Drain(stack, marked), e.start, e.descr.bits, |e.descr.bits|)
      else if IsLong(e) then LookAtRange(h, Drain(stack + [RestOf(e)], marked), e.start, e.start + SPLIT_RANGE_WORDS - 1)
      else LookAtRange(h, Drain(stack, marked), e.start, e.start + e.descr.words)
    ensures e.descr == Length(0) ==> Round(h, Drain(stack + [e], marked)) == Drain(stack, marked)
  {
    hide HeapOk;
    assert (stack + [e])[..|stack|] == stack && stack + [] == stack;
  }

  /** The words that are looked at in a round. */
  function RoundWords(e: Entry): set<nat> {
    if IsLong(e) then WordsOf(Entry(e.start, Length(SPLIT_RANGE_WORDS - 1))) else WordsOf(e)
  }

  /** What is left to look at, as far as it can be told from the stack. */
  ghost function Weight(stack: seq<Entry>): nat {
    if stack == [] then 0 else Weight(stack[..|stack| - 1]) + 1 + Span(stack[|stack| - 1].descr)
  }

  lemma WeightPush(stack: seq<Entry>, e: Entry)
    ensures Weight(stack + [e]) == Weight(stack) + 1 + Span(e.descr)
  {
    assert (stack + [e])[..|stack|] == stack;
  }

  // ----- How marks and stack grow in a round -----

  ghost function WithPointers(h: Heap, objs: set<Obj>): set<Obj> {
    set o | o in objs && o in Objects(h) && !PointerFree(DescrOf(h, o))
  }

  /** The objects that the words point to. */
  ghost function TargetsAt(h: Heap, words: set<nat>): set<Obj> {
    set a | a in words && a in h.memory :: h.memory[a]
  }

  /** Looking at the words has marked just their targets, and pushed the new ones with pointers. */
  ghost predicate Looked(h: Heap, d: Drain, words: set<nat>, d': Drain) {
    && d'.marked == d.marked + TargetsAt(h, words)
    && d.stack <= d'.stack && |d'.stack| == |d.stack| + |WithPointers(h, TargetsAt(h, words) - d.marked)|
  }

  lemma SubsetCount(s: set<nat>, t: set<nat>)
    requires s <= t
    ensures |s| <= |t|
  {
    assert t == s + (t - s);
  }

  lemma FewerLeft(before: set<nat>, after: set<nat>, all: set<nat>)
    requires before <= after <= all
    ensures before < after ==> |all - after| < |all - before|
    ensures before == after ==> |all - after| == |all - before|
  {
    if before < after {
      var x :| x in after && x !in before;
      SubsetCount(all - after, all - before - {x});
    }
  }

  lemma LookedNothing(h: Heap, d: Drain)
    ensures Looked(h, d, {}, d)
  {
    assert WithPointers(h, TargetsAt(h, {}) - d.marked) == {};
  }

  lemma TargetIsObject(h: Heap, a: nat)
    requires HeapOk(h) && a in h.memory
    ensures h.memory[a] in Objects(h)
  {
  }

  lemma WordAdded(h: Heap, words: set<nat>, a: nat)
    ensures TargetsAt(h, words + {a}) == TargetsAt(h, words) + if a in h.memory then {h.memory[a]} else {}
  {
  }

  lemma NewTarget(h: Heap, objs: set<Obj>, t: Obj)
    requires t in Objects(h) && t !in objs
    ensures |WithPointers(h, objs + {t})| == |WithPointers(h, objs)| + |Pushed(h, t)|
  {
    hide Objects, DescrOf;
    assert WithPointers(h, objs + {t}) == WithPointers(h, objs) + if PointerFree(DescrOf(h, t)) then {} else {t};
  }

  lemma LookedAt(h: Heap, d: Drain, words: set<nat>, d': Drain, a: nat)
    requires HeapOk(h) && Looked(h, d, words, d')
    ensures Looked(h, d, words + {a}, LookAt(h, d', a))
  {
    hide HeapOk, Objects, DescrOf, WithPointers, TargetsAt, Pushed;
    WordAdded(h, words, a);
    var before := TargetsAt(h, words);
    if a in h.memory {
      var t := h.memory[a];
      TargetIsObject(h, a);
      if t in d'.marked {
        assert before + {t} - d.marked == before - d.marked;
      } else {
        assert before + {t} - d.marked == before - d.marked + {t};
        NewTarget(h, before - d.marked, t);
      }
    } else {
      assert before + {} == before;
    }
  }

  lemma {:induction false} RangeLooked(h: Heap, d: Drain, lo: nat, hi: nat)
    requires HeapOk(h) && lo <= hi
    ensures Looked(h, d, WordsOf(Entry(lo, Length(hi - lo))), LookAtRange(h, d, lo, hi))
  {
    hide Looked, LookAt, HeapOk;
    if lo == hi {
      assert WordsOf(Entry(lo, Length(0))) == {};
      LookedNothing(h, d);
    } else {
      RangeLooked(h, d, lo, hi - 1);
      var words := WordsOf(Entry(lo, Length(hi - 1 - lo)));
      LookedAt(h, d, words, LookAtRange(h, d, lo, hi - 1), hi - 1);
      assert WordsOf(Entry(lo, Length(hi - lo))) == words + {hi - 1};
    }
  }

  lemma {:induction false} BitsLooked(h: Heap, d: Drain, lo: nat, bits: seq<bool>, n: nat)
    requires HeapOk(h) && n <= |bits|
    ensures Looked(h, d, WordsOf(Entry(lo, Bitmap(bits[..n]))), LookAtBits(h, d, lo, bits, n))
  {
    hide Looked, LookAt, HeapOk;
    if n == 0 {
      assert WordsOf(Entry(lo, Bitmap(bits[..0]))) == {};
      LookedNothing(h, d);
    } else {
      BitsLooked(h, d, lo, bits, n - 1);
      var words := WordsOf(Entry(lo, Bitmap(bits[..n - 1])));
      LookedAt(h, d, words, LookAtBits(h, d, lo, bits, n - 1), lo + n - 1);
      assert WordsOf(Entry(lo, Bitmap(bits[..n]))) == words + if bits[n - 1] then {lo + n - 1} else {};
      assert words + {} == words;
    }
  }

  /** A round marks exactly the targets of the words looked at.  It leaves the other entries, the
      rest of a long range, and an entry for each new target with pointers. */
  lemma RoundLooked(h: Heap, d: Drain)
    requires HeapOk(h) && d.stack != []
    ensures Looked(h, Below(d), RoundWords(d.stack[|d.stack| - 1]), Round(h, d))
  {
    hide Looked, LookAtRange, LookAtBits, HeapOk;
    var e := d.stack[|d.stack| - 1];
    match e.descr
    case Bitmap(bits) =>
      BitsLooked(h, Below(d), e.start, bits, |bits|);
      assert bits[..|bits|] == bits;
    case Length(n) =>
      RangeLooked(h, Below(d), e.start, e.start + if IsLong(e) then SPLIT_RANGE_WORDS - 1 else n);
  }

  lemma TargetsInHeap(h: Heap, words: set<nat>)
    requires HeapOk(h)
    ensures TargetsAt(h, words) <= Objects(h)
  {
  }

  lemma BelowWeight(d: Drain)
    requires d.stack != []
    ensures Weight(Below(d).stack) < Weight(d.stack) && |Below(d).stack| <= |d.stack|
  {
    var n := |d.stack| - 1;
    assert d.stack == d.stack[..n] + [d.stack[n]];
    WeightPush(d.stack[..n], d.stack[n]);
    if IsLong(d.stack[n]) { WeightPush(d.stack[..n], RestOf(d.stack[n])); }
    assert d.stack[..n] + [] == d.stack[..n];
  }

  lemma RoundProgress(h: Heap, d: Drain)
    requires HeapOk(h) && d.stack != [] && d.marked <= Objects(h)
    ensures var d' := Round(h, d);
      && d.marked <= d'.marked <= Objects(h)
      && (|Objects(h) - d'.marked| < |Objects(h) - d.marked|
          || (d'.marked == d.marked && Weight(d'.stack) < Weight(d.stack)))
  {
    hide HeapOk, Objects, DescrOf, TargetsAt, Round, Weight, RoundWords;
    var d', words := Round(h, d), RoundWords(d.stack[|d.stack| - 1]);
    RoundLooked(h, d);
    TargetsInHeap(h, words);
    FewerLeft(d.marked, d'.marked, Objects(h));
    BelowWeight(d);
    if d'.marked == d.marked {
      assert TargetsAt(h, words) - d.marked == {};
      assert WithPointers(h, {}) == {};
      assert d'.stack == d'.stack[..|Below(d).stack|] == Below(d).stack;
    }
  }

  /** The greatest height of the stack until it is empty. */
  ghost function Peak(h: Heap, d: Drain): (peak: nat)
    requires HeapOk(h) && d.marked <= Objects(h)
    ensures peak >= |d.stack|
    decreases |Objects(h) - d.marked|, Weight(d.stack)
  {
    if d.stack == [] then 0 else
      RoundProgress(h, d);
      var later := Peak(h, Round(h, d));
      if later > |d.stack| then later else |d.stack|
  }

  /** The greatest height when everything that object u leads to is marked from an empty stack. */
  ghost function DrainPeak(h: Heap, marked: set<Obj>, u: Obj): nat
    requires HeapOk(h) && marked <= Objects(h) && u in Objects(h)
  {
    Peak(h, Drain(Pushed(h, u), marked))
  }

  lemma CountWithPointers(h: Heap, marked: set<Obj>, more: set<Obj>)
    ensures |WithPointers(h, marked + more)| == |WithPointers(h, marked)| + |WithPointers(h, more - marked)|
  {
    hide Objects, DescrOf;
    assert WithPointers(h, marked + more) == WithPointers(h, marked) + WithPointers(h, more - marked);
  }

  lemma RoundCount(h: Heap, d: Drain)
    requires HeapOk(h) && d.stack != []
    ensures var d' := Round(h, d);
      |d'.stack| - |WithPointers(h, d'.marked)| <= |d.stack| - |WithPointers(h, d.marked)|
  {
    hide HeapOk, Objects, TargetsAt, Round, RoundWords, WithPointers;
    RoundLooked(h, d);
    BelowWeight(d);
    CountWithPointers(h, d.marked, TargetsAt(h, RoundWords(d.stack[|d.stack| - 1])));
  }

  lemma MarkOneCount(h: Heap, d: Drain, t: Obj)
    requires t in Objects(h)
    ensures var d' := MarkOne(h, d, t);
      |d'.stack| - |WithPointers(h, d'.marked)| <= |d.stack| - |WithPointers(h, d.marked)|
  {
    hide Objects, DescrOf, WithPointers, Pushed;
    if t !in d.marked { NewTarget(h, d.marked, t); }
  }

  /** There is never more than one entry for every new object with pointers besides those of the start. */
  lemma {:induction false} PeakBounded(h: Heap, d: Drain)
    requires HeapOk(h) && d.marked <= Objects(h)
    ensures Peak(h, d) <= |d.stack| + |WithPointers(h, Objects(h))| - |WithPointers(h, d.marked)|
    decreases |Objects(h) - d.marked|, Weight(d.stack)
  {
    hide HeapOk, Objects, Round, WithPointers, Weight;
    assert |WithPointers(h, d.marked)| <= |WithPointers(h, Objects(h))| by { PointersBounded(h, d.marked); }
    if d.stack != [] {
      RoundProgress(h, d);
      RoundCount(h, d);
      PeakBounded(h, Round(h, d));
    }
  }

  lemma PointersBounded(h: Heap, marked: set<Obj>)
    requires marked <= Objects(h)
    ensures |WithPointers(h, marked)| <= |WithPointers(h, Objects(h))|
  {
    SubsetCount(WithPointers(h, marked), WithPointers(h, Objects(h)));
  }
}

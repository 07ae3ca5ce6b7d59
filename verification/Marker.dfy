/** The stop-the-world marker: a state machine over a bounded mark stack that may
    overflow, lose entries and be rebuilt by rescanning the marked objects. */
module Marker {
  import opened ObjectGraph
  import opened MarkDrain

  datatype MarkState = NONE | PUSH_UNCOLLECTABLE | ROOTS_PUSHED | PARTIALLY_INVALID | INVALID

  /** The work a bit map entry is taken to stand for, in words. */
  const BITMAP_CREDIT: nat := 32

  /** What a step reports: marking goes on, has just finished, or the program
      stopped because a root range did not fit. */
  datatype Progress = More | Finished | Aborted

  /** From one height to another by at most so much, with an overflow only if the limit did not allow for it. */
  ghost predicate Rose(height: int, more: nat, was: MarkState, height': int, state: MarkState, limit: nat) {
    was != INVALID ==>
      (height + more <= limit ==> state != INVALID) && (state != INVALID ==> height' <= height + more)
  }

  lemma RoseTwice(h0: int, a: nat, s0: MarkState, h1: int, s1: MarkState, b: nat, h2: int, s2: MarkState, limit: nat)
    requires Rose(h0, a, s0, h1, s1, limit) && Rose(h1, b, s1, h2, s2, limit) && (s1 == INVALID ==> s2 == INVALID)
    ensures Rose(h0, a + b, s0, h2, s2, limit)
  {
  }

  /** How many blocks lie before an address. */
  function BlocksBefore(blocks: seq<Block>, h: nat): (n: nat)
    ensures n <= |blocks|
  {
    if blocks == [] || blocks[0].addr >= h then 0 else 1 + BlocksBefore(blocks[1..], h)
  }

  lemma {:induction false} BlocksBeforeIs(blocks: seq<Block>, h: nat, i: nat)
    requires i <= |blocks| && (forall j :: 0 <= j < i ==> blocks[j].addr < h) && (i < |blocks| ==> h <= blocks[i].addr)
    ensures BlocksBefore(blocks, h) == i
  {
    if i > 0 { BlocksBeforeIs(blocks[1..], h, i - 1); }
  }

  /** How many objects the first n blocks have. */
  function Members(blocks: seq<Block>, n: nat): nat
    requires n <= |blocks|
  {
    if n == 0 then 0 else Members(blocks, n - 1) + |blocks[n - 1].objs|
  }

  lemma {:induction false} MembersGrow(blocks: seq<Block>, m: nat, n: nat)
    requires m <= n <= |blocks|
    ensures Members(blocks, m) <= Members(blocks, n)
  {
    if m < n { MembersGrow(blocks, m, n - 1); }
  }

  lemma RoseMore(h0: int, a: nat, s0: MarkState, h1: int, s1: MarkState, limit: nat, b: nat)
    requires Rose(h0, a, s0, h1, s1, limit) && a <= b
    ensures Rose(h0, b, s0, h1, s1, limit)
  {
  }

  /** What is still to be done, the most important part first. */
  datatype Rank = Rank(missing: nat, phase: nat, ahead: nat, unmarked: nat, weight: nat)

  predicate Less(r: Rank, than: Rank) {
    r.missing < than.missing || (r.missing == than.missing &&
      (r.phase < than.phase || (r.phase == than.phase &&
        (r.ahead < than.ahead || (r.ahead == than.ahead &&
          (r.unmarked < than.unmarked || (r.unmarked == than.unmarked && r.weight < than.weight)))))))
  }

  lemma LessTwice(r: Rank, mid: Rank, than: Rank)
    requires Less(r, mid) && Less(mid, than)
    ensures Less(r, than)
  {
  }

  class MarkMachine {
    const heap: Heap
    /** The number of entries lost in an overflow, besides the one being pushed. */
    const discards: nat
    /** The amount of work, in words, that one call of MarkFrom is meant to do. */
    const workLimit: nat

    var state: MarkState
    var scan: nat
    var stack: seq<Entry>
    var capacity: nat
    var tooSmall: bool
    var objectsAreMarked: bool
    var marked: set<Obj>

    /** The objects whose marks survived the clearing at the start. */
    ghost var start: set<Obj>
    /** The objects that marking starts from. */
    ghost var goal: set<Obj>

    // ----- Invariants -----

    ghost predicate Shape()
      reads this`stack, this`capacity, this`marked, this`start, this`goal
    {
      && HeapOk(heap) && 1 <= discards <= capacity
      && |stack| <= capacity
      && marked <= Objects(heap) && start <= marked && RootObjects(heap) <= goal
    }

    ghost function Live(): set<Obj>
      reads this`goal
    {
      Reach(heap, goal)
    }

    /** Only reachable objects are marked or about to be. */
    ghost predicate Sound()
      reads this`stack, this`marked, this`goal
    {
      && marked <= Live()
      && forall a :: a in PendingWords(stack) && a in heap.memory ==> heap.memory[a] in Live()
    }

    /** The words of o lead to marked objects, or are on the stack, or are among the extra words. */
    ghost predicate Traced(words: set<nat>, extra: set<nat>)
      reads this`stack, this`marked
    {
      forall a :: a in words && a in heap.memory ==>
        heap.memory[a] in marked || a in PendingWords(stack) || a in extra
    }

    /** Unless an overflow has happened, all marked objects but the exempt ones
        are traced, and so are the given words. */
    ghost predicate Covered(exempt: set<Obj>, words: set<nat>, extra: set<nat>)
      reads this`state, this`stack, this`marked
      requires marked <= Objects(heap)
    {
      state != INVALID ==>
        (forall o :: o in marked && o !in exempt ==> Traced(Fields(heap, o), extra)) && Traced(words, extra)
    }

    // ----- How full the stack gets -----

    ghost function Now(): Drain
      reads this`stack, this`marked
    {
      Drain(stack, marked)
    }

    /** An overflow has happened if and only if d does not fit; otherwise stack and marks are those of d. */
    ghost predicate Exact(d: Drain, was: MarkState)
      reads this`state, this`stack, this`marked, this`capacity
    {
      was != INVALID ==> (state == INVALID <==> |d.stack| > capacity) && (state != INVALID ==> Now() == d)
    }

    /** An overflow has happened only if marking from d had to come to it; otherwise it is still
        to come if and only if it had to. */
    ghost predicate OnCourse(d: Drain, was: MarkState)
      reads this`state, this`stack, this`marked, this`capacity
      requires HeapOk(heap) && d.marked <= Objects(heap) && marked <= Objects(heap)
    {
      was != INVALID ==>
        if state == INVALID then Peak(heap, d) > capacity
        else (Peak(heap, d) > capacity <==> Peak(heap, Now()) > capacity)
    }

    /** The height of the stack if an entry were added for every object with pointers that is not marked yet. */
    ghost function Height(): int
      reads this`stack, this`marked
    {
      |stack| + |WithPointers(heap, Objects(heap))| - |WithPointers(heap, marked)|
    }

    /** What has been done adds at most so much to that height, and overflows only if that is too much. */
    ghost predicate Higher(height: int, more: nat, was: MarkState)
      reads this`state, this`stack, this`marked, this`capacity
    {
      Rose(height, more, was, Height(), state, capacity)
    }

    lemma HeightBounds()
      requires marked <= Objects(heap)
      ensures |stack| <= Height() <= |stack| + |WithPointers(heap, Objects(heap))|
    {
      PointersBounded(heap, marked);
    }

    /** Pushing the contents of one object adds one entry at most. */
    lemma PushHeight(before: seq<Entry>, o: Obj, was: MarkState)
      requires marked <= Objects(heap) && o in Objects(heap) && Exact(Drain(before + Pushed(heap, o), marked), was)
      ensures Higher(|before| + |WithPointers(heap, Objects(heap))| - |WithPointers(heap, marked)|, 1, was)
    {
      PointersBounded(heap, marked);
    }

    lemma NotHigher()
      ensures Higher(Height(), 0, state)
    {
    }

    /** Marking does not add to it. */
    lemma DrainHeight(d: Drain, d': Drain, was: MarkState)
      requires |d'.stack| - |WithPointers(heap, d'.marked)| <= |d.stack| - |WithPointers(heap, d.marked)|
      requires Exact(d', was)
      requires HeapOk(heap) && d'.marked <= Objects(heap)
      ensures Higher(|d.stack| + |WithPointers(heap, Objects(heap))| - |WithPointers(heap, d.marked)|, 0, was)
    {
      PointersBounded(heap, d'.marked);
    }

    // ----- Pushing -----

    /** Push the contents of an object; on overflow drop entries and say so. */
    method PushObj(o: Obj)
      requires Shape() && o in Objects(heap)
      modifies this`stack, this`state, this`tooSmall
      ensures Shape() && (old(state) == INVALID ==> state == INVALID)
      ensures old(tooSmall) || (old(state) != INVALID && state == INVALID) ==> tooSmall
      ensures state == INVALID || (state == old(state) && PendingWords(stack) == old(PendingWords(stack)) + Fields(heap, o))
      ensures state != INVALID ==> stack == old(stack) + if PointerFree(DescrOf(heap, o)) then [] else [Entry(o, DescrOf(heap, o))]
      ensures Exact(Drain(old(stack) + Pushed(heap, o), marked), old(state))
      ensures PendingWords(stack) <= old(PendingWords(stack)) + Fields(heap, o)
    {
      hide PendingWords, HeapOk, DescrOf;
      PointerFreeWords(o);
      var descr := DescrOf(heap, o);
      if !PointerFree(descr) {
        ghost var before := stack;
        var e := Entry(o, descr);
        PendingPush(stack, e);
        if |stack| >= capacity {
          state := INVALID;
          tooSmall := true;
          OverflowWords(stack, capacity - discards, e);
          stack := stack[..capacity - discards] + [e];
        } else {
          stack := stack + [e];
        }
      }
    }

    lemma PointerFreeWords(o: Obj)
      requires o in Objects(heap)
      ensures Fields(heap, o) == WordsOf(Entry(o, DescrOf(heap, o)))
      ensures PointerFree(DescrOf(heap, o)) ==> Fields(heap, o) == {}
    {
    }

    lemma OverflowWords(stack: seq<Entry>, n: nat, e: Entry)
      requires n <= |stack|
      ensures PendingWords(stack[..n] + [e]) <= PendingWords(stack) + WordsOf(e)
    {
      PendingPrefix(stack, n);
      PendingPush(stack[..n], e);
    }

    /** Look at the word at address a: mark and push the object it points to. */
    method PushContents(a: nat, ghost exempt: set<Obj>, ghost words: set<nat>, ghost extra: set<nat>)
      requires Shape() && Sound() && Covered(exempt, words, extra + {a})
      requires a in heap.memory ==> heap.memory[a] in Live()
      modifies this`stack, this`state, this`tooSmall, this`marked
      ensures Shape() && Sound() && Covered(exempt, words, extra)
      ensures Later(old(marked), old(state), old(tooSmall)) && Exact(LookAt(heap, old(Now()), a), old(state))
      ensures (a in heap.memory ==> heap.memory[a] in marked) && (marked == old(marked) ==> stack == old(stack))
    {
      hide Sound, Live, PendingWords, HeapOk;
      if a in heap.memory {
        MarkAndPush(heap.memory[a], exempt, words, extra + {a});
      }
    }

    /** Mark an object that is not marked yet and push it. */
    method MarkAndPush(t: Obj, ghost exempt: set<Obj>, ghost words: set<nat>, ghost extra: set<nat>)
      requires Shape() && Sound() && Covered(exempt, words, extra) && t in Live()
      modifies this`stack, this`state, this`tooSmall, this`marked
      ensures Shape() && Sound() && Covered(exempt, words, extra) && t in marked
      ensures Later(old(marked), old(state), old(tooSmall)) && Exact(MarkOne(heap, old(Now()), t), old(state))
      ensures marked == old(marked) ==> stack == old(stack)
    {
      hide Live, PendingWords, HeapOk, Reach, Fields, RootObjects;
      if t !in marked {
        FieldsLive(t);
        marked := marked + {t};
        PushObj(t);
      }
    }

    lemma FieldsLive(t: Obj)
      requires HeapOk(heap) && t in Live()
      ensures t in Objects(heap)
      ensures forall a :: a in Fields(heap, t) && a in heap.memory ==> heap.memory[a] in Live()
    {
      ReachIsClosed(heap, goal);
    }

    /** Marks only grow, and the state stays or becomes invalid, which asks for a larger stack. */
    ghost predicate Later(before: set<Obj>, was: MarkState, asked: bool)
      reads this`state, this`marked, this`tooSmall
    {
      && before <= marked && (state == was || state == INVALID)
      && (asked || (was != INVALID && state == INVALID) ==> tooSmall)
    }

    lemma LaterGrows(before: set<Obj>, was: MarkState, asked: bool)
      requires Later(before, was, asked)
      ensures before <= marked
    {
    }

    lemma LaterNow()
      ensures Later(marked, state, tooSmall)
    {
    }

    // ----- Marking from the stack -----

    lemma NarrowExtra(exempt: set<Obj>, words: set<nat>, extra: set<nat>, less: set<nat>)
      requires marked <= Objects(heap) && Covered(exempt, words, extra)
      requires forall a :: a in extra && a in heap.memory ==> a in less
      ensures Covered(exempt, words, less)
    {
    }

    ghost predicate TargetsMarked(words: set<nat>)
      reads this`marked
    {
      forall a :: a in words && a in heap.memory ==> heap.memory[a] in marked
    }

    /** The last plausible word of a range is fetched first and looked at last: where the range may end. */
    method FindDeferred(lo: nat, hi: nat) returns (limit: nat)
      requires HeapOk(heap) && lo < hi
      ensures lo <= limit <= hi && forall a :: limit <= a < hi ==> a !in heap.memory
    {
      limit := hi;
      while lo < limit && limit - 1 !in heap.plausible
        invariant lo <= limit <= hi
        invariant forall a :: limit <= a < hi ==> a !in heap.memory
      {
        limit := limit - 1;
      }
    }

    /** Look at the words lo, lo + 1, ..., hi - 1. */
    method ScanRange(lo: nat, hi: nat, ghost exempt: set<Obj>, ghost words: set<nat>)
      requires Shape() && Sound() && lo < hi && Covered(exempt, words, RangeWords(lo, hi))
      requires forall a :: a in RangeWords(lo, hi) && a in heap.memory ==> heap.memory[a] in Live()
      modifies this`stack, this`state, this`tooSmall, this`marked
      ensures Shape() && Sound() && Covered(exempt, words, {})
      ensures Later(old(marked), old(state), old(tooSmall)) && Exact(LookAtRange(heap, old(Now()), lo, hi), old(state))
      ensures TargetsMarked(RangeWords(lo, hi)) && (marked == old(marked) ==> stack == old(stack))
    {
      hide Covered, Sound, PendingWords, Objects, Live, HeapOk, LookAtRange, Exact, RangeWords, LookAt, RootObjects;
      ghost var d := Now();
      var limit := FindDeferred(lo, hi);
      NoTargets(heap, d, lo, limit, hi);
      RangeNext(heap, d, lo, lo);
      ExactNow();
      if limit == lo {
        NarrowExtra(exempt, words, RangeWords(lo, hi), {});
        return;
      }
      var deferred := limit - 1;
      NarrowExtra(exempt, words, RangeWords(lo, hi), RangeWords(lo, limit));
      var current := lo;
      while current < deferred
        invariant lo <= current <= deferred
        invariant Shape() && Sound() && Covered(exempt, words, RangeWords(current, limit))
        invariant Later(old(marked), old(state), old(tooSmall)) && Exact(LookAtRange(heap, d, lo, current), old(state))
        invariant TargetsMarked(RangeWords(lo, current)) && (marked == old(marked) ==> stack == old(stack))
      {
        NarrowExtra(exempt, words, RangeWords(current, limit), RangeWords(current + 1, limit) + {current});
        ScanWord(current, exempt, words, RangeWords(current + 1, limit), LookAtRange(heap, d, lo, current), old(state));
        RangeNext(heap, d, lo, current);
        current := current + 1;
      }
      NarrowExtra(exempt, words, RangeWords(deferred, limit), {} + {deferred});
      ScanWord(deferred, exempt, words, {}, LookAtRange(heap, d, lo, deferred), old(state));
      RangeNext(heap, d, lo, deferred);
    }

    /** A stack that has not overflowed is as high as it may be. */
    lemma ExactNow()
      requires |stack| <= capacity
      ensures Exact(Now(), state)
    {
    }

    /** Look at one word if its contents might be an address; d is what the words before it have led to. */
    method ScanWord(a: nat, ghost exempt: set<Obj>, ghost words: set<nat>, ghost extra: set<nat>, ghost d: Drain, ghost was: MarkState)
      requires Shape() && Sound() && Covered(exempt, words, extra + {a}) && Exact(d, was) && (state == was || state == INVALID)
      requires a in heap.memory ==> heap.memory[a] in Live()
      modifies this`stack, this`state, this`tooSmall, this`marked
      ensures Shape() && Sound() && Covered(exempt, words, extra) && Exact(LookAt(heap, d, a), was)
      ensures Later(old(marked), old(state), old(tooSmall)) && (marked == old(marked) ==> stack == old(stack))
      ensures a in heap.memory ==> heap.memory[a] in marked
    {
      hide Covered, Sound, PendingWords, Objects, Live, Pushed;
      if a in heap.plausible {
        PushContents(a, exempt, words, extra);
      } else {
        NarrowExtra(exempt, words, extra + {a}, extra);
      }
    }

    /** Look at the words that the bits pick. */
    method ScanBitmap(lo: nat, bits: seq<bool>, ghost exempt: set<Obj>, ghost words: set<nat>)
      requires Shape() && Sound() && Covered(exempt, words, WordsOf(Entry(lo, Bitmap(bits))))
      requires forall a :: a in WordsOf(Entry(lo, Bitmap(bits))) && a in heap.memory ==> heap.memory[a] in Live()
      modifies this`stack, this`state, this`tooSmall, this`marked
      ensures Shape() && Sound() && Covered(exempt, words, {})
      ensures Later(old(marked), old(state), old(tooSmall)) && Exact(LookAtBits(heap, old(Now()), lo, bits, |bits|), old(state))
      ensures TargetsMarked(WordsOf(Entry(lo, Bitmap(bits)))) && (marked == old(marked) ==> stack == old(stack))
    {
      hide Covered, Sound, PendingWords, Objects, Live, HeapOk, Exact;
      ghost var d, todo := Now(), WordsOf(Entry(lo, Bitmap(bits)));
      ExactNow();
      for i := 0 to |bits|
        invariant Shape() && Sound() && Covered(exempt, words, todo)
        invariant todo <= WordsOf(Entry(lo, Bitmap(bits))) && forall a :: a in todo ==> lo + i <= a
        invariant Later(old(marked), old(state), old(tooSmall)) && Exact(LookAtBits(heap, d, lo, bits, i), old(state))
        invariant TargetsMarked(WordsOf(Entry(lo, Bitmap(bits))) - todo) && (marked == old(marked) ==> stack == old(stack))
      {
        ghost var rest := todo - {lo + i};
        if bits[i] {
          NarrowExtra(exempt, words, todo, rest + {lo + i});
          ScanWord(lo + i, exempt, words, rest, LookAtBits(heap, d, lo, bits, i), old(state));
        } else {
          NarrowExtra(exempt, words, todo, rest);
        }
        todo := rest;
      }
      NarrowExtra(exempt, words, todo, {});
    }

    /** Take the top entry off the stack: its words still have to be looked at. */
    method PopEntry(ghost exempt: set<Obj>, ghost words: set<nat>) returns (e: Entry)
      requires Shape() && Sound() && Covered(exempt, words, {}) && stack != []
      modifies this`stack
      ensures Shape() && Sound() && Covered(exempt, words, WordsOf(e))
      ensures old(stack) == stack + [e]
      ensures forall a :: a in WordsOf(e) && a in heap.memory ==> heap.memory[a] in Live()
    {
      hide Live, Objects, Fields, HeapOk;
      e := stack[|stack| - 1];
      assert PendingWords(stack) == PendingWords(stack[..|stack| - 1]) + WordsOf(e);
      stack := stack[..|stack| - 1];
    }

    /** Put the rest of a long range back on the stack; its first words come next. */
    method PushRest(e: Entry, ghost exempt: set<Obj>, ghost words: set<nat>)
      requires Shape() && Sound() && Covered(exempt, words, WordsOf(e)) && |stack| < capacity
      requires e.descr.Length? && e.descr.words >= SPLIT_RANGE_WORDS
      requires forall a :: a in WordsOf(e) && a in heap.memory ==> heap.memory[a] in Live()
      modifies this`stack
      ensures Shape() && Sound() && Covered(exempt, words, RangeWords(e.start, e.start + SPLIT_RANGE_WORDS - 1))
      ensures stack == old(stack) + [RestOf(e)]
    {
      var rest := RestOf(e);
      PendingPush(stack, rest);
      assert WordsOf(rest) <= WordsOf(e);
      assert forall a :: a in WordsOf(e) ==>
        a in WordsOf(rest) || a in RangeWords(e.start, e.start + SPLIT_RANGE_WORDS - 1);
      stack := stack + [rest];
    }

    /** Mark from the entries of the stack until it is empty or enough is done. */
    method MarkFrom(ghost exempt: set<Obj>, ghost words: set<nat>)
      requires Shape() && Sound() && Covered(exempt, words, {})
      modifies this`stack, this`state, this`tooSmall, this`marked, this`objectsAreMarked
      ensures Shape() && Sound() && Covered(exempt, words, {})
      ensures Later(old(marked), old(state), old(tooSmall)) && objectsAreMarked && OnCourse(old(Now()), old(state))
      ensures Higher(old(Height()), 0, old(state))
      ensures old(stack) != [] ==> old(marked) < marked || (marked == old(marked) && Weight(stack) < old(Weight(stack)))
    {
      hide Covered, Sound, PendingWords, Objects, Live, Weight, Peak, Round, Rose, WithPointers;
      var credit: int := workLimit;
      objectsAreMarked := true;
      if stack == [] { NotHigher(); return; }
      credit := MarkFromTop(credit, exempt, words);
      while stack != [] && credit >= 0
        invariant Shape() && Sound() && Covered(exempt, words, {})
        invariant Later(old(marked), old(state), old(tooSmall)) && objectsAreMarked && OnCourse(old(Now()), old(state))
        invariant Higher(old(Height()), 0, old(state))
        invariant old(marked) < marked || (marked == old(marked) && Weight(stack) < old(Weight(stack)))
        decreases |Objects(heap) - marked|, Weight(stack)
      {
        ghost var before, height, was := marked, Height(), state;
        credit := MarkFromTop(credit, exempt, words);
        FewerLeft(before, marked, Objects(heap));
        RoseTwice(old(Height()), 0, old(state), height, was, 0, Height(), state, capacity);
      }
    }

    /** Look at the words of an entry that has been taken off, or at the first words of a long one. */
    method MarkFromEntry(e: Entry, credit0: int, ghost exempt: set<Obj>, ghost words: set<nat>) returns (credit: int)
      requires Shape() && Sound() && Covered(exempt, words, WordsOf(e)) && |stack| < capacity
      requires forall a :: a in WordsOf(e) && a in heap.memory ==> heap.memory[a] in Live()
      modifies this`stack, this`state, this`tooSmall, this`marked
      ensures Shape() && Sound() && Covered(exempt, words, {}) && Later(old(marked), old(state), old(tooSmall))
      ensures Exact(Round(heap, Drain(old(stack) + [e], old(marked))), old(state))
      ensures marked == old(marked) ==> stack == old(stack) + if IsLong(e) then [RestOf(e)] else []
    {
      hide Covered, Sound, PendingWords, Objects, Live, Round, LookAtRange, LookAtBits, Later, Rose, WithPointers;
      credit := credit0;
      LaterNow();
      RoundFrom(heap, stack, e, marked);
      ExactNow();
      match e.descr {
        case Bitmap(bits) =>
          credit := credit - BITMAP_CREDIT;
          ScanBitmap(e.start, bits, exempt, words);
        case Length(n) =>
          if n >= SPLIT_RANGE_WORDS {
            PushRest(e, exempt, words);
            credit := credit - (SPLIT_RANGE_WORDS - 1);
            ScanRange(e.start, e.start + SPLIT_RANGE_WORDS - 1, exempt, words);
          } else if n == 0 {
            NarrowExtra(exempt, words, WordsOf(e), {});
          } else {
            credit := credit - n;
            NarrowExtra(exempt, words, WordsOf(e), RangeWords(e.start, e.start + n));
            ScanRange(e.start, e.start + n, exempt, words);
          }
      }
    }

    /** One round of MarkFrom: deal with the top entry, or with the first words of a long range. */
    method MarkFromTop(credit0: int, ghost exempt: set<Obj>, ghost words: set<nat>) returns (credit: int)
      requires Shape() && Sound() && Covered(exempt, words, {}) && stack != []
      modifies this`stack, this`state, this`tooSmall, this`marked
      ensures Shape() && Sound() && Covered(exempt, words, {})
      ensures Later(old(marked), old(state), old(tooSmall)) && Exact(Round(heap, old(Now())), old(state)) && OnCourse(old(Now()), old(state))
      ensures Higher(old(Height()), 0, old(state))
      ensures old(marked) < marked || (marked == old(marked) && Weight(stack) < old(Weight(stack)))
    {
      hide Covered, Sound, PendingWords, Objects, Live, Peak, Round, OnCourse, Later, Rose, WithPointers, Weight, Exact;
      var e := PopEntry(exempt, words);
      assert old(stack) == stack + [e] && old(Now()) == Drain(stack + [e], marked);
      BelowWeight(old(Now()));
      credit := MarkFromEntry(e, credit0, exempt, words);
      RoundOnCourse(old(Now()), old(state));
      LaterGrows(old(marked), old(state), old(tooSmall));
    }

    /** A round comes to an overflow if and only if it has to. */
    lemma RoundOnCourse(d: Drain, was: MarkState)
      requires HeapOk(heap) && d.stack != [] && d.marked <= Objects(heap) && marked <= Objects(heap)
      requires |d.stack| <= capacity && Exact(Round(heap, d), was)
      ensures OnCourse(d, was)
      ensures Higher(|d.stack| + |WithPointers(heap, Objects(heap))| - |WithPointers(heap, d.marked)|, 0, was)
    {
      hide HeapOk, Objects, Round, WithPointers;
      RoundProgress(heap, d);
      RoundCount(heap, d);
      DrainHeight(d, Round(heap, d), was);
    }

    // ----- Rescanning marked objects -----

    /** The objects of the blocks from an address on. */
    ghost function ObjectsFrom(addr: nat): set<Obj> {
      set b, o | b in heap.blocks && addr <= b.addr && o in b.objs :: o
    }

    ghost function UncollectableFrom(addr: nat): set<Obj> {
      set b, o | b in heap.blocks && addr <= b.addr && b.kind == Uncollectable && o in b.objs :: o
    }

    /** An exempt object that is traced after all need not be exempt. */
    lemma DropExemption(exempt: set<Obj>, words: set<nat>, less: set<Obj>)
      requires marked <= Objects(heap) && Covered(exempt, words, {})
      requires state != INVALID ==> forall o :: o in exempt && o in marked && o !in less ==> Traced(Fields(heap, o), {})
      ensures Covered(less, words, {})
    {
    }

    /** Push an object that is marked; what is pending stays pending. */
    method PushIfMarked(o: Obj, ghost exempt: set<Obj>)
      requires Shape() && Sound() && o in Objects(heap) && Covered(exempt, {}, {})
      modifies this`stack, this`state, this`tooSmall
      ensures Shape() && Sound() && Covered(exempt, {}, {}) && Later(old(marked), old(state), old(tooSmall))
      ensures state != INVALID ==> old(PendingWords(stack)) <= PendingWords(stack)
      ensures state != INVALID && o in marked ==> Fields(heap, o) <= PendingWords(stack)
      ensures Higher(old(Height()), 1, old(state))
    {
      hide WithPointers;
      if o in marked {
        FieldsLive(o);
        PushObj(o);
        PushHeight(old(stack), o, old(state));
      }
    }

    /** Objects without pointers, or that are not marked, need not be pushed. */
    lemma NothingPushed(exempt: set<Obj>, objs: set<Obj>)
      requires marked <= Objects(heap) && Covered(exempt, {}, {}) && objs <= Objects(heap)
      requires forall o :: o in objs && o in marked ==> PointerFree(DescrOf(heap, o))
      ensures Covered(exempt - objs, {}, {})
    {
      DropExemption(exempt, {}, exempt - objs);
    }

    lemma AllPushed(objs: seq<Obj>)
      requires marked <= Objects(heap) && state != INVALID ==>
        forall j :: 0 <= j < |objs| && objs[j] in marked ==> Fields(heap, objs[j]) <= PendingWords(stack)
      requires marked <= Objects(heap)
      ensures state != INVALID ==> forall o :: o in objs && o in marked ==> Traced(Fields(heap, o), {})
    {
    }

    /** Push every marked object of a block.  Afterwards they are traced. */
    method PushMarked(i: nat, ghost exempt: set<Obj>)
      requires Shape() && Sound() && i < |heap.blocks| && Covered(exempt, {}, {})
      modifies this`stack, this`state, this`tooSmall, this`objectsAreMarked
      ensures Shape() && Sound() && Covered(exempt - (set o | o in heap.blocks[i].objs), {}, {})
      ensures Later(old(marked), old(state), old(tooSmall)) && Higher(old(Height()), |heap.blocks[i].objs|, old(state))
      ensures objectsAreMarked || (old(stack) == stack && old(state) == state && !old(objectsAreMarked))
    {
      hide Sound, PendingWords, Live, Covered, WithPointers, Rose, Fields;
      NotHigher();
      var b := heap.blocks[i];
      ghost var objs := set o | o in b.objs;
      forall o | o in objs ensures o in Objects(heap) && DescrOf(heap, o) == b.descr {
        DescrOfBlock(heap.blocks, i, o);
      }
      if PointerFree(b.descr) || forall o :: o in b.objs ==> o !in marked {
        RoseMore(Height(), 0, state, Height(), state, capacity, |b.objs|);
        NothingPushed(exempt, objs);
        return;
      }
      objectsAreMarked := true;
      for k := 0 to |b.objs|
        invariant Shape() && Sound() && Later(old(marked), old(state), old(tooSmall)) && objectsAreMarked
        invariant Covered(exempt, {}, {}) && Higher(old(Height()), k, old(state))
        invariant state != INVALID ==>
          forall j :: 0 <= j < k && b.objs[j] in marked ==> Fields(heap, b.objs[j]) <= PendingWords(stack)
      {
        ghost var height, was := Height(), state;
        PushIfMarked(b.objs[k], exempt);
        RoseTwice(old(Height()), k, old(state), height, was, 1, Height(), state, capacity);
      }
      AllPushed(b.objs);
      DropExemption(exempt, {}, exempt - objs);
    }

    /** The first block at or above an address. */
    method NextUsedBlock(h: nat) returns (i: nat)
      ensures i <= |heap.blocks|
      ensures forall j :: 0 <= j < i ==> heap.blocks[j].addr < h
      ensures i < |heap.blocks| ==> h <= heap.blocks[i].addr
      ensures i == BlocksBefore(heap.blocks, h)
    {
      i := 0;
      while i < |heap.blocks| && heap.blocks[i].addr < h
        invariant i <= |heap.blocks| && forall j :: 0 <= j < i ==> heap.blocks[j].addr < h
      {
        i := i + 1;
      }
      BlocksBeforeIs(heap.blocks, h, i);
    }

    /** Behind block i there is one more block before the address. */
    lemma BlockBehind(i: nat)
      requires HeapOk(heap) && i < |heap.blocks|
      ensures BlocksBefore(heap.blocks, heap.blocks[i].addr + heap.blocks[i].size) == i + 1
      ensures heap.blocks[i].addr + heap.blocks[i].size > 0
      ensures Members(heap.blocks, i + 1) == Members(heap.blocks, i) + |heap.blocks[i].objs| <= Members(heap.blocks, |heap.blocks|)
    {
      var next := heap.blocks[i].addr + heap.blocks[i].size;
      forall j | 0 <= j <= i ensures heap.blocks[j].addr < next { }
      BlocksBeforeIs(heap.blocks, next, i + 1);
      MembersGrow(heap.blocks, i + 1, |heap.blocks|);
    }

    /** A scan has got from one address to the next one, or to its end, which is 0. */
    ghost predicate Passed(from: nat, next: nat) {
      next != 0 ==> BlocksBefore(heap.blocks, from) < BlocksBefore(heap.blocks, next)
    }

    ghost function MembersBetween(from: nat, next: nat): nat
      requires Passed(from, next)
    {
      MembersGrow(heap.blocks, BlocksBefore(heap.blocks, from), if next == 0 then |heap.blocks| else BlocksBefore(heap.blocks, next));
      if next == 0 then 0 else
        Members(heap.blocks, BlocksBefore(heap.blocks, next)) - Members(heap.blocks, BlocksBefore(heap.blocks, from))
    }

    /** The blocks from h on are block i, the first one there, and those after it. */
    lemma BlocksFrom(h: nat, i: nat)
      requires HeapOk(heap) && i <= |heap.blocks|
      requires forall j :: 0 <= j < i ==> heap.blocks[j].addr < h
      requires i < |heap.blocks| ==> h <= heap.blocks[i].addr
      ensures i == |heap.blocks| ==> ObjectsFrom(h) == {} && UncollectableFrom(h) == {}
      ensures i < |heap.blocks| ==>
        var b := heap.blocks[i];
        ObjectsFrom(h) - (set o | o in b.objs) <= ObjectsFrom(b.addr + b.size)
        && UncollectableFrom(h) - (set o | o in b.objs) <= UncollectableFrom(b.addr + b.size)
        && (b.kind != Uncollectable ==> UncollectableFrom(h) <= UncollectableFrom(b.addr + b.size))
    {
    }

    lemma WidenExemption(exempt: set<Obj>, words: set<nat>, more: set<Obj>)
      requires marked <= Objects(heap) && Covered(exempt, words, {}) && exempt <= more
      ensures Covered(more, words, {})
    {
    }

    /** The exemption of a scan that has got as far as the given address; 0 means
        that there is nothing left. */
    ghost function LeftFrom(next: nat): set<Obj> {
      if next == 0 then {} else ObjectsFrom(next)
    }

    ghost function UncollectableLeft(next: nat): set<Obj> {
      if next == 0 then {} else UncollectableFrom(next)
    }

    /** Push the marked objects of the next block; return the address after it, or 0. */
    method PushNextMarked(h: nat) returns (next: nat)
      requires Shape() && Sound() && Covered(ObjectsFrom(h), {}, {})
      modifies this`stack, this`state, this`tooSmall, this`objectsAreMarked
      ensures Shape() && Sound() && Covered(LeftFrom(next), {}, {})
      ensures Later(old(marked), old(state), old(tooSmall))
      ensures objectsAreMarked || (old(stack) == stack && old(state) == state && !old(objectsAreMarked))
      ensures Passed(h, next) && Higher(old(Height()), MembersBetween(h, next), old(state)) && (next == 0 ==> state == old(state))
    {
      hide Covered, Sound, Live, Objects, PendingWords, ObjectsFrom, WithPointers, BlocksBefore, Members;
      var i := NextUsedBlock(h);
      BlocksFrom(h, i);
      if i == |heap.blocks| { NotHigher(); return 0; }
      PushMarked(i, ObjectsFrom(h));
      BlockBehind(i);
      next := heap.blocks[i].addr + heap.blocks[i].size;
      WidenExemption(ObjectsFrom(h) - (set o | o in heap.blocks[i].objs), {}, ObjectsFrom(next));
    }

    /** The same for the next block of uncollectable objects. */
    method PushNextMarkedUncollectable(from: nat) returns (next: nat)
      requires Shape() && Sound() && Covered(UncollectableFrom(from), {}, {})
      modifies this`stack, this`state, this`tooSmall, this`objectsAreMarked
      ensures Shape() && Sound() && Covered(UncollectableLeft(next), {}, {})
      ensures Later(old(marked), old(state), old(tooSmall))
      ensures objectsAreMarked || (old(stack) == stack && old(state) == state && !old(objectsAreMarked))
      ensures Passed(from, next) && Higher(old(Height()), MembersBetween(from, next), old(state)) && (next == 0 ==> state == old(state))
    {
      hide Covered, Sound, Live, Objects, PendingWords, UncollectableFrom, ObjectsFrom, WithPointers, BlocksBefore, Members;
      var h: nat := from;
      var i := NextUsedBlock(h);
      while true
        invariant Shape() && Sound() && i <= |heap.blocks| && Covered(UncollectableFrom(h), {}, {})
        invariant unchanged(this)
        invariant forall j :: 0 <= j < i ==> heap.blocks[j].addr < h
        invariant i < |heap.blocks| ==> h <= heap.blocks[i].addr
        invariant BlocksBefore(heap.blocks, from) <= BlocksBefore(heap.blocks, h) == i
        decreases |heap.blocks| - i
      {
        BlocksFrom(h, i);
        if i == |heap.blocks| { NotHigher(); return 0; }
        BlockBehind(i);
        MembersGrow(heap.blocks, BlocksBefore(heap.blocks, from), i);
        next := heap.blocks[i].addr + heap.blocks[i].size;
        if heap.blocks[i].kind == Uncollectable {
          PushMarked(i, UncollectableFrom(h));
          RoseMore(old(Height()), |heap.blocks[i].objs|, old(state), Height(), state, capacity, MembersBetween(from, next));
          WidenExemption(UncollectableFrom(h) - (set o | o in heap.blocks[i].objs), {}, UncollectableFrom(next));
          return;
        }
        WidenExemption(UncollectableFrom(h), {}, UncollectableFrom(next));
        h := next;
        i := NextUsedBlock(h);
      }
    }

    // ----- Roots -----

    ghost predicate StackRootsMarked()
      reads this`marked
    {
      forall o :: o in heap.stackRoots ==> o in marked
    }

    /** Push the root ranges, then mark and push what stacks and registers point to. */
    method PushRoots(ghost exempt: set<Obj>) returns (aborted: bool)
      requires Shape() && Sound() && Covered(exempt, {}, {})
      modifies this`stack, this`state, this`tooSmall, this`marked
      ensures Shape() && Sound() && Later(old(marked), old(state), old(tooSmall))
      ensures !aborted ==> Covered(exempt, RootWords(heap), {}) && StackRootsMarked()
      ensures !aborted ==> Higher(old(Height()), |heap.rootRanges|, old(state))
      ensures aborted ==> old(Height()) + |heap.rootRanges| > capacity && heap.rootRanges != []
    {
      hide Covered, Sound, Live, WithPointers, Objects;
      HeightBounds();
      for i := 0 to |heap.rootRanges|
        invariant Shape() && Sound() && state == old(state) && marked == old(marked) && tooSmall == old(tooSmall)
        invariant Covered(exempt, PendingWords(heap.rootRanges[..i]), {}) && old(|stack|) <= |stack| <= old(|stack|) + i
      {
        var e := heap.rootRanges[i];
        assert heap.rootRanges[..i + 1][..i] == heap.rootRanges[..i];
        PendingMember(heap.rootRanges, i);
        if e.descr.words == 0 {
          assert WordsOf(e) == {};
          assert PendingWords(heap.rootRanges[..i + 1]) == PendingWords(heap.rootRanges[..i]);
        } else {
          if |stack| >= capacity { return true; }
          PushRootRange(e, exempt, PendingWords(heap.rootRanges[..i]));
        }
      }
      assert heap.rootRanges[..|heap.rootRanges|] == heap.rootRanges;
      for i := 0 to |heap.stackRoots|
        invariant Shape() && Sound() && Later(old(marked), old(state), old(tooSmall))
        invariant Covered(exempt, RootWords(heap), {}) && Higher(old(Height()), |heap.rootRanges|, old(state))
        invariant forall k :: 0 <= k < i ==> heap.stackRoots[k] in marked
      {
        ghost var d, height, was := Now(), Height(), state;
        StackRootLive(heap.stackRoots[i]);
        MarkAndPush(heap.stackRoots[i], exempt, RootWords(heap), {});
        MarkOneCount(heap, d, heap.stackRoots[i]);
        DrainHeight(d, MarkOne(heap, d, heap.stackRoots[i]), was);
        RoseTwice(old(Height()), |heap.rootRanges|, old(state), height, was, 0, Height(), state, capacity);
      }
      return false;
    }

    lemma StackRootLive(o: Obj)
      requires HeapOk(heap) && o in heap.stackRoots && RootObjects(heap) <= goal
      ensures o in Live()
    {
      ReachSeed(heap, goal, o);
    }

    method PushRootRange(e: Entry, ghost exempt: set<Obj>, ghost words: set<nat>)
      requires Shape() && Sound() && Covered(exempt, words, {}) && |stack| < capacity
      requires WordsOf(e) <= RootWords(heap)
      modifies this`stack
      ensures Shape() && Sound() && Covered(exempt, words + WordsOf(e), {}) && stack == old(stack) + [e]
    {
      forall a | a in WordsOf(e) && a in heap.memory ensures heap.memory[a] in Live() {
        ReachSeed(heap, goal, heap.memory[a]);
      }
      PendingPush(stack, e);
      stack := stack + [e];
    }

    // ----- The state machine -----

    /** What holds between any two steps. */
    ghost predicate Inv()
      reads this
    {
      && Shape() && Sound() && goal == start + RootObjects(heap)
      && (match state
          case INVALID => objectsAreMarked || (scan == 0 && stack == [] && OnlyUncollectable())
          case PARTIALLY_INVALID => objectsAreMarked && Covered(ObjectsFrom(scan), {}, {})
          case PUSH_UNCOLLECTABLE => Covered(UncollectableFrom(scan), {}, {})
          case ROOTS_PUSHED => Covered({}, RootWords(heap), {}) && StackRootsMarked()
          case NONE => Covered({}, {}, {}) && stack == [])
    }

    /** Marked objects with pointers are all in blocks of uncollectable objects. */
    ghost predicate OnlyUncollectable()
      reads this`marked
    {
      forall o :: o in marked && o in Objects(heap) ==> o in UncollectableFrom(0) || Fields(heap, o) == {}
    }

    /** Reallocate the mark stack, which must be empty; this may fail silently. */
    method AllocMarkStack(n: nat, granted: bool)
      requires Shape() && stack == [] && n >= capacity
      modifies this`tooSmall, this`capacity
      ensures Shape() && !tooSmall && capacity == if granted then n else old(capacity)
    {
      tooSmall := false;
      if granted { capacity := n; }
    }

    /** An empty stack and covered roots mean that exactly the live objects are marked. */
    lemma FinishedIsExact()
      requires Shape() && Sound() && stack == [] && state == ROOTS_PUSHED
      requires Covered({}, RootWords(heap), {}) && StackRootsMarked() && goal == start + RootObjects(heap)
      ensures marked == Live()
    {
      assert PendingWords(stack) == {};
      assert Closed(heap, marked);
      assert RootObjects(heap) <= marked;
      ReachLeast(heap, goal, marked);
    }

    /** An overflow has asked for a larger stack, and marking is to be redone. */
    ghost predicate Pressed()
      reads this`state, this`tooSmall, this`objectsAreMarked
    {
      state == INVALID && tooSmall && objectsAreMarked
    }

    // ----- Whether it comes to an end -----

    /** A mark stack of this size never overflows. */
    ghost function Limit(): nat {
      |WithPointers(heap, Objects(heap))| + Members(heap.blocks, |heap.blocks|) + |heap.rootRanges|
    }

    /** How high the stack may get, as long as no overflow has happened. */
    ghost predicate Paced()
      reads this`state, this`scan, this`stack, this`marked
    {
      match state
      case PUSH_UNCOLLECTABLE => Height() <= |WithPointers(heap, Objects(heap))| + Members(heap.blocks, BlocksBefore(heap.blocks, scan))
      case PARTIALLY_INVALID => Height() <= |WithPointers(heap, Objects(heap))| + Members(heap.blocks, |heap.blocks|)
      case ROOTS_PUSHED => Height() <= Limit()
      case _ => true
    }

    /** An overflow leads to a larger stack; without one the scan, then the marking from the roots comes to an end. */
    ghost function Left(): Rank
      reads this
    {
      var behind := |heap.blocks| - BlocksBefore(heap.blocks, scan);
      Rank(
        if capacity < Limit() then Limit() - capacity else 0,
        match state
          case NONE => 0
          case ROOTS_PUSHED => 2
          case PARTIALLY_INVALID => 3
          case PUSH_UNCOLLECTABLE => 4
          case INVALID => if !objectsAreMarked then 6 else if tooSmall && capacity < Limit() then 1 else 5,
        match state
          case INVALID => if scan == 0 then 0 else 1 + behind
          case NONE => 0
          case ROOTS_PUSHED => 0
          case _ => behind,
        |Objects(heap) - marked|,
        Weight(stack))
    }

    /** Marking from the stack brings the end nearer. */
    twostate lemma MarkingIsProgress()
      requires old(marked) <= Objects(heap) && marked <= Objects(heap) && old(Paced()) && old(state) != NONE
      requires Later(old(marked), old(state), old(tooSmall)) && Higher(old(Height()), 0, old(state))
      requires objectsAreMarked && scan == old(scan) && capacity == old(capacity)
      requires old(state) == INVALID || old(state) == PARTIALLY_INVALID ==> old(objectsAreMarked)
      requires old(marked) < marked || (marked == old(marked) && Weight(stack) < old(Weight(stack)))
      ensures state != NONE && Paced() && Less(Left(), old(Left()))
    {
      hide Objects, WithPointers, Members, Weight;
      FewerLeft(old(marked), marked, Objects(heap));
      MembersGrow(heap.blocks, BlocksBefore(heap.blocks, scan), |heap.blocks|);
      assert old(state) != INVALID ==> old(Height()) <= Limit();
    }

    /** So does pushing the marked objects of the next block. */
    twostate lemma ScanIsProgress()
      requires old(Paced()) && old(state) != NONE && old(state) != ROOTS_PUSHED && Passed(old(scan), scan)
      requires Later(old(marked), old(state), old(tooSmall)) && Higher(old(Height()), MembersBetween(old(scan), scan), old(state))
      requires old(state) == INVALID ==> old(scan) != 0
      requires old(state) != INVALID ==> scan != 0
      requires old(state) == PARTIALLY_INVALID ==> old(stack) == [] && old(marked) <= Objects(heap)
      requires objectsAreMarked || (state == old(state) && !old(objectsAreMarked))
      requires old(state) == INVALID || old(state) == PARTIALLY_INVALID ==> old(objectsAreMarked)
      requires capacity == old(capacity)
      ensures state != NONE && Paced() && Less(Left(), old(Left()))
    {
      hide Objects, WithPointers, Members, Weight;
      if old(state) == PARTIALLY_INVALID { PointersBounded(heap, old(marked)); }
      MembersGrow(heap.blocks, 0, BlocksBefore(heap.blocks, old(scan)));
      MembersGrow(heap.blocks, BlocksBefore(heap.blocks, scan), |heap.blocks|);
    }

    /** And so does pushing the roots when the scan has come to its end. */
    twostate lemma RootsAreProgress()
      requires old(Paced()) && (old(state) == PARTIALLY_INVALID || old(state) == PUSH_UNCOLLECTABLE)
      requires old(state) == PARTIALLY_INVALID ==> old(objectsAreMarked)
      requires objectsAreMarked && (state == ROOTS_PUSHED || state == INVALID) && (state == INVALID ==> tooSmall)
      requires Higher(old(Height()), |heap.rootRanges|, old(state)) && capacity == old(capacity)
      ensures state != NONE && Paced() && Less(Left(), old(Left()))
    {
      hide Objects, WithPointers, Members, Weight;
      MembersGrow(heap.blocks, BlocksBefore(heap.blocks, old(scan)), |heap.blocks|);
    }

    lemma RootsDoNotFit()
      requires Paced() && (state == PARTIALLY_INVALID || state == PUSH_UNCOLLECTABLE)
      ensures Height() + |heap.rootRanges| > capacity ==> capacity < Limit()
    {
      hide Objects, WithPointers, Members;
      MembersGrow(heap.blocks, BlocksBefore(heap.blocks, scan), |heap.blocks|);
    }

    /** Perform a small amount of marking.  granted says whether memory for a
        larger mark stack can be had, should it be asked for. */
    method MarkSome(granted: bool) returns (p: Progress)
      requires Inv()
      modifies this`state, this`scan, this`stack, this`capacity, this`tooSmall, this`objectsAreMarked, this`marked
      ensures p != Aborted ==> Inv()
      ensures Shape() && Sound() && old(marked) <= marked
      ensures p == Finished <==> old(state) == ROOTS_PUSHED && old(stack) == []
      ensures p == Finished ==> marked == Live() && state == NONE
      ensures old(capacity) <= capacity && (!granted ==> capacity == old(capacity))
      ensures old(Pressed()) && granted ==> Pressed() || capacity >= 2 * old(capacity)
      ensures old(Paced()) && p == More && old(state) != NONE ==> state != NONE && Paced() && (granted ==> Less(Left(), old(Left())))
      ensures old(Paced()) && p == Aborted ==> capacity < Limit() && heap.rootRanges != []
    {
      hide Covered, Sound, OnlyUncollectable, ObjectsFrom, UncollectableFrom, Objects, HeapOk, Live, WithPointers, Members, Weight;
      if state == NONE {
        p := More;
      } else if state == PUSH_UNCOLLECTABLE {
        p := MarkUncollectable();
      } else if state == ROOTS_PUSHED {
        p := MarkFromRoots(granted);
      } else if !objectsAreMarked {
        StartWithUncollectable();
        p := More;
      } else {
        p := MarkFromMarked(granted);
      }
    }

    method MarkUncollectable() returns (p: Progress)
      requires Inv() && state == PUSH_UNCOLLECTABLE
      modifies this`state, this`scan, this`stack, this`tooSmall, this`objectsAreMarked, this`marked
      ensures p == More || p == Aborted
      ensures Shape() && Sound() && old(marked) <= marked && (p == More ==> Inv())
      ensures old(Paced()) && p == More ==> state != NONE && Paced() && Less(Left(), old(Left()))
      ensures old(Paced()) && p == Aborted ==> capacity < Limit() && heap.rootRanges != []
    {
      hide Covered, Sound, OnlyUncollectable, ObjectsFrom, UncollectableFrom, Objects, HeapOk, Live, WithPointers, Members, Weight, Less, Left, Paced, Passed, Limit, BlocksBefore;
      if |stack| > capacity / 4 {
        MarkFrom(UncollectableFrom(scan), {});
        if old(Paced()) { MarkingIsProgress(); }
        return More;
      }
      if Paced() { RootsDoNotFit(); }
      var next := PushNextMarkedUncollectable(scan);
      if next == 0 {
        scan := 0;
        p := RootsNext();
        if old(Paced()) && p == More { RootsAreProgress(); }
      } else {
        scan := next;
        if old(Paced()) { ScanIsProgress(); }
        p := More;
      }
    }

    method MarkFromRoots(granted: bool) returns (p: Progress)
      requires Inv() && state == ROOTS_PUSHED
      modifies this`state, this`stack, this`capacity, this`tooSmall, this`objectsAreMarked, this`marked
      ensures p != Aborted && Inv() && old(marked) <= marked
      ensures old(capacity) <= capacity && (!granted ==> capacity == old(capacity))
      ensures p == Finished <==> old(stack) == []
      ensures p == Finished ==> marked == Live() && state == NONE
      ensures old(Paced()) && p == More ==> state != NONE && Paced() && Less(Left(), old(Left()))
    {
      hide Sound, Objects, HeapOk, Live, WithPointers, Members, Weight, Less, Left, Paced, Rose, Limit;
      if stack != [] {
        MarkFrom({}, RootWords(heap));
        if old(Paced()) { MarkingIsProgress(); }
        return More;
      }
      FinishedIsExact();
      state := NONE;
      if tooSmall { AllocMarkStack(2 * capacity, granted); }
      return Finished;
    }

    method StartWithUncollectable()
      requires Inv() && (state == INVALID || state == PARTIALLY_INVALID) && !objectsAreMarked
      modifies this`state
      ensures Inv() && state == PUSH_UNCOLLECTABLE && Paced() && Less(Left(), old(Left()))
    {
      state := PUSH_UNCOLLECTABLE;
    }

    method MarkFromMarked(granted: bool) returns (p: Progress)
      requires Inv() && (state == INVALID || state == PARTIALLY_INVALID) && objectsAreMarked
      modifies this`state, this`scan, this`stack, this`capacity, this`tooSmall, this`objectsAreMarked, this`marked
      ensures p == More || p == Aborted
      ensures Shape() && Sound() && old(marked) <= marked && (p == More ==> Inv())
      ensures old(capacity) <= capacity && (!granted ==> capacity == old(capacity))
      ensures old(Pressed()) && granted ==> Pressed() || capacity >= 2 * old(capacity)
      ensures old(Paced()) && p == More ==> state != NONE && Paced() && (granted ==> Less(Left(), old(Left())))
      ensures old(Paced()) && p == Aborted ==> capacity < Limit() && heap.rootRanges != []
    {
      hide Sound, OnlyUncollectable, ObjectsFrom, UncollectableFrom, Objects, HeapOk, Live, WithPointers, Members, Weight, Less, Left, Paced, Passed, Limit, BlocksBefore;
      if stack != [] {
        MarkFrom(ObjectsFrom(scan), {});
        if old(Paced()) { MarkingIsProgress(); }
        return More;
      }
      if scan == 0 && state == INVALID {
        Rescan(granted);
        ghost var left := Left();
        p := ScanOn();
        if p == More && granted { LessTwice(Left(), left, old(Left())); }
      } else {
        p := ScanOn();
      }
    }

    /** About to start a scan for marked objects, with an empty stack. */
    method Rescan(granted: bool)
      requires Inv() && state == INVALID && objectsAreMarked && scan == 0 && stack == []
      modifies this`state, this`capacity, this`tooSmall
      ensures Inv() && state == PARTIALLY_INVALID && Paced() && (granted ==> Less(Left(), old(Left())))
      ensures old(capacity) <= capacity && (!granted ==> capacity == old(capacity))
      ensures old(tooSmall) && granted ==> capacity == 2 * old(capacity)
    {
      hide Sound, ObjectsFrom, Objects, HeapOk, Live, WithPointers, Members, Weight;
      HeightBounds();
      if tooSmall { AllocMarkStack(2 * capacity, granted); }
      state := PARTIALLY_INVALID;
      AllExempt();
    }

    /** Push the marked objects of the next block; behind the last one push the roots. */
    method ScanOn() returns (p: Progress)
      requires Inv() && objectsAreMarked && stack == [] && (state == PARTIALLY_INVALID || (state == INVALID && scan != 0))
      modifies this`state, this`scan, this`stack, this`tooSmall, this`objectsAreMarked, this`marked
      ensures p == More || p == Aborted
      ensures Shape() && Sound() && old(marked) <= marked && (p == More ==> Inv())
      ensures old(Pressed()) ==> Pressed()
      ensures old(Paced()) && p == More ==> state != NONE && Paced() && Less(Left(), old(Left()))
      ensures old(Paced()) && p == Aborted ==> capacity < Limit() && heap.rootRanges != []
    {
      hide Sound, OnlyUncollectable, ObjectsFrom, UncollectableFrom, Objects, HeapOk, Live, WithPointers, Members, Weight, Less, Left, Paced, Passed, Limit, BlocksBefore;
      if Paced() && state == PARTIALLY_INVALID { RootsDoNotFit(); }
      scan := PushNextMarked(scan);
      if scan == 0 && state == PARTIALLY_INVALID {
        p := RootsNext();
        if old(Paced()) && p == More { RootsAreProgress(); }
      } else {
        if old(Paced()) { ScanIsProgress(); }
        p := More;
      }
    }

    /** The end of a scan: push the roots and start marking from them. */
    method RootsNext() returns (p: Progress)
      requires Shape() && Sound() && Covered({}, {}, {}) && goal == start + RootObjects(heap)
      modifies this`stack, this`state, this`tooSmall, this`marked, this`objectsAreMarked
      ensures p == More || p == Aborted
      ensures Shape() && Sound() && old(marked) <= marked && (p == More ==> Inv())
      ensures p == More ==> (state == ROOTS_PUSHED || (state == INVALID && (old(state) != INVALID ==> tooSmall)))
      ensures p == More ==> objectsAreMarked && Higher(old(Height()), |heap.rootRanges|, old(state))
      ensures p == Aborted ==> old(Height()) + |heap.rootRanges| > capacity && heap.rootRanges != []
    {
      hide Covered, Sound, WithPointers;
      var aborted := PushRoots({});
      if aborted { return Aborted; }
      objectsAreMarked := true;
      if state != INVALID { RootsPushed(); }
      return More;
    }

    method RootsPushed()
      requires Shape() && Sound() && Covered({}, RootWords(heap), {}) && StackRootsMarked() && state != INVALID
      requires goal == start + RootObjects(heap)
      modifies this`state
      ensures Inv() && state == ROOTS_PUSHED
    {
      state := ROOTS_PUSHED;
    }

    lemma AllExempt()
      requires Shape()
      ensures Covered(ObjectsFrom(0), {}, {})
    {
      forall o | o in Objects(heap) ensures o in ObjectsFrom(0) {}
    }

    // ----- A whole collection -----

    /** A mark stack and marks of a heap in which no marking is going on. */
    constructor (heap: Heap, discards: nat, workLimit: nat, capacity: nat, marked: set<Obj>)
      requires HeapOk(heap) && 1 <= discards <= capacity && marked <= Objects(heap)
      ensures Shape() && this.heap == heap && this.marked == marked && state == NONE && stack == []
      ensures this.discards == discards && this.workLimit == workLimit && this.capacity == capacity
    {
      this.heap, this.discards, this.workLimit, this.capacity, this.marked := heap, discards, workLimit, capacity, marked;
      state, scan, stack, tooSmall, objectsAreMarked := NONE, 0, [], false, false;
      start, goal := {}, RootObjects(heap);
    }

    /** The objects whose marks are never cleared. */
    ghost function Kept(): set<Obj> {
      set b, o | b in heap.blocks && b.kind != Collectable && o in b.objs :: o
    }

    /** Clear the marks of all collectable objects and declare the state invalid. */
    method ClearMarks()
      requires HeapOk(heap) && 1 <= discards <= capacity && marked <= Objects(heap) && stack == []
      modifies this`marked, this`objectsAreMarked, this`state, this`scan, this`start, this`goal
      ensures Inv() && state == INVALID && marked == start == old(marked) * Kept()
      ensures forall b, o :: b in heap.blocks && o in b.objs ==>
        (o in start <==> o in old(marked) && (b.kind == Uncollectable || b.kind == AtomicUncollectable))
    {
      hide HeapOk, Sound, OnlyUncollectable, Covered, UncollectableFrom, ObjectsFrom, RootObjects, Fields, PendingWords;
      ghost var before := marked;
      for i := 0 to |heap.blocks|
        invariant marked <= before
        invariant forall o :: o in before && o in Kept() ==> o in marked
        invariant forall k, o :: 0 <= k < i && heap.blocks[k].kind == Collectable && o in heap.blocks[k].objs ==> o !in marked
      {
        var b := heap.blocks[i];
        if b.kind == Collectable {
          KeptElsewhere(i);
          marked := marked - (set o | o in b.objs);
        }
      }
      forall o | o in marked ensures o in Kept() {
        var b :| b in heap.blocks && o in b.objs;
      }
      objectsAreMarked := false;
      state := INVALID;
      scan := 0;
      start := marked;
      goal := start + RootObjects(heap);
      ClearedState();
      forall b, o | b in heap.blocks && o in b.objs ensures o in Kept() <==> b.kind == Uncollectable || b.kind == AtomicUncollectable {
        KeptOf(b, o);
      }
    }

    /** An object is kept for its own block's kind. */
    lemma KeptOf(b: Block, o: Obj)
      requires HeapOk(heap) && b in heap.blocks && o in b.objs
      ensures o in Kept() <==> b.kind == Uncollectable || b.kind == AtomicUncollectable
    {
      var i :| 0 <= i < |heap.blocks| && heap.blocks[i] == b;
      if b.kind == Collectable { KeptElsewhere(i); }
    }

    lemma KeptElsewhere(i: nat)
      requires HeapOk(heap) && i < |heap.blocks| && heap.blocks[i].kind == Collectable
      ensures forall o :: o in heap.blocks[i].objs ==> o !in Kept()
    {
      forall o, b | o in heap.blocks[i].objs && b in heap.blocks && o in b.objs ensures b.kind == Collectable {
        var j :| 0 <= j < |heap.blocks| && heap.blocks[j] == b;
        assert i == j;
      }
    }

    lemma ClearedState()
      requires HeapOk(heap) && marked <= Objects(heap) && marked == start && marked <= Kept() && stack == []
      requires goal == start + RootObjects(heap)
      ensures Sound() && OnlyUncollectable()
    {
      forall o | o in marked ensures o in Live() && (o in UncollectableFrom(0) || Fields(heap, o) == {}) {
        ReachSeed(heap, goal, o);
        var b :| b in heap.blocks && b.kind != Collectable && o in b.objs;
        var i :| 0 <= i < |heap.blocks| && heap.blocks[i] == b;
        DescrOfBlock(heap.blocks, i, o);
      }
    }

    /** Throw away what is on the mark stack; marks can no longer be relied on. */
    method InvalidateMarkState()
      modifies this`state, this`stack
      ensures state == INVALID && stack == []
    {
      state := INVALID;
      stack := [];
    }

    /** Step until marking has finished or a root range does not fit, with memory granted whenever
        it is asked for.  It comes to that. */
    method MarkOn() returns (finished: bool)
      requires Inv() && state != NONE && Paced()
      modifies this`state, this`scan, this`stack, this`capacity, this`tooSmall, this`objectsAreMarked, this`marked
      ensures Shape() && Sound() && old(marked) <= marked && old(capacity) <= capacity
      ensures finished ==> Inv() && marked == Live() && state == NONE
      ensures heap.rootRanges == [] || old(capacity) >= Limit() ==> finished
      ensures old(Pressed()) && finished ==> capacity >= 2 * old(capacity)
    {
      hide Sound, Covered, Objects, HeapOk, Kept, Live, Limit, OnlyUncollectable, Paced, Left, RootObjects;
      while true
        invariant Inv() && state != NONE && Paced() && old(marked) <= marked && old(capacity) <= capacity
        invariant old(Pressed()) ==> Pressed() || capacity >= 2 * old(capacity)
        decreases Left().missing, Left().phase, Left().ahead, Left().unmarked, Left().weight
      {
        var p := MarkSome(true);
        if p != More { return p == Finished; }
      }
    }

    /** Step until marking has finished, a root range does not fit, or the stop function, asked before
        every step, says so.  The stop function and the requests for memory have the given answers;
        then, if patient, the stop function is silent and memory is granted. */
    method MarkUntilStopped(stops: seq<bool>, grants: seq<bool>, patient: bool) returns (finished: bool)
      requires Inv() && state != NONE && Paced() && |grants| == |stops|
      modifies this`state, this`scan, this`stack, this`capacity, this`tooSmall, this`objectsAreMarked, this`marked
      ensures start <= marked <= Live() && (finished ==> marked == Live() && state == NONE)
      ensures patient && (forall i :: 0 <= i < |stops| ==> !stops[i]) && (heap.rootRanges == [] || old(capacity) >= Limit()) ==> finished
    {
      hide Sound, Covered, Objects, HeapOk, Kept, Limit, Live, RootObjects;
      for i := 0 to |stops|
        invariant Inv() && state != NONE && Paced() && old(capacity) <= capacity
      {
        if stops[i] { SoundMarks(); return false; }
        var p := MarkSome(grants[i]);
        if p != More { SoundMarks(); return p == Finished; }
      }
      if patient { finished := MarkOn(); } else { finished := false; }
      SoundMarks();
    }

    /** A full collection's marking. */
    method StoppedMark(stops: seq<bool>, grants: seq<bool>, patient: bool) returns (finished: bool)
      requires HeapOk(heap) && 1 <= discards <= capacity && marked <= Objects(heap) && |grants| == |stops|
      modifies this
      ensures start == old(marked) * Kept() && start <= marked <= Reach(heap, start + RootObjects(heap))
      ensures finished ==> marked == Reach(heap, start + RootObjects(heap)) && state == NONE
      ensures forall b, o :: b in heap.blocks && o in b.objs && o in old(marked) && (b.kind == Uncollectable || b.kind == AtomicUncollectable) ==> o in marked
      ensures forall b, o :: b in heap.blocks && o in b.objs ==>
        (o in marked ==> LedTo(heap, old(marked), o)) && (finished && LedTo(heap, old(marked), o) ==> o in marked)
      ensures patient && (forall i :: 0 <= i < |stops| ==> !stops[i]) && (heap.rootRanges == [] || old(capacity) >= Limit()) ==> finished
    {
      hide Sound, Covered, Objects, HeapOk, Kept, Limit, LedTo, Reach, RootObjects;
      ghost var before := marked;
      InvalidateMarkState();
      ClearMarks();
      LedToIff(heap, before, start);
      finished := MarkUntilStopped(stops, grants, patient);
      forall b, o | b in heap.blocks && o in b.objs ensures o in Objects(heap) { InHeap(heap, b, o); }
    }

    lemma SoundMarks()
      requires Shape() && Sound()
      ensures start <= marked <= Live()
    {
    }
  }

  /** A pointer path leads to the object from a root, or from a marked object that is never collected. */
  ghost predicate LedTo(h: Heap, marked: set<Obj>, o: Obj) {
    exists path :: PointerPath(h, path) && path[|path| - 1] == o && (IsRoot(h, path[0]) || MarkedForGood(h, marked, path[0]))
  }

  ghost predicate MarkedForGood(h: Heap, marked: set<Obj>, o: Obj) {
    o in marked && exists b :: b in h.blocks && o in b.objs && (b.kind == Uncollectable || b.kind == AtomicUncollectable)
  }

  lemma InHeap(h: Heap, b: Block, o: Obj)
    requires b in h.blocks && o in b.objs
    ensures o in Objects(h)
  {
  }

  lemma LedToIff(h: Heap, marked: set<Obj>, start: set<Obj>)
    requires HeapOk(h) && marked <= Objects(h)
    requires start <= marked && forall b, o :: b in h.blocks && o in b.objs ==>
      (o in start <==> o in marked && (b.kind == Uncollectable || b.kind == AtomicUncollectable))
    ensures forall o :: o in Objects(h) ==> (o in Reach(h, start + RootObjects(h)) <==> LedTo(h, marked, o))
  {
    hide HeapOk;
    forall o ensures o in start <==> MarkedForGood(h, marked, o) {
      if o in marked { var b :| b in h.blocks && o in b.objs; }
    }
    forall o ensures o in RootObjects(h) <==> IsRoot(h, o) { RootIs(h, o); }
  }

  ghost function RangeWords(lo: nat, hi: nat): (r: set<nat>)
    requires lo <= hi
    ensures forall a: nat :: a in r <==> lo <= a < hi
  {
    WordsOf(Entry(lo, Length(hi - lo)))
  }
}

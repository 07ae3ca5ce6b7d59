/** Single bits of a machine word. */
module WordBits {

  /** Bit k, counted from the low end. */
  predicate BitSet(word: bv64, k: nat)
    requires k < 64
  {
    (word >> k) & 1 == 1
  }

  lemma NarrowBack(k: nat)
    requires k < 64
    ensures (k as bv8) as nat == k
  {
  }

  lemma NarrowLess(k: nat)
    requires k < 64
    ensures (k as bv8) < 64
  {
  }

  lemma NarrowLeft(k: nat)
    requires k < 64
    ensures (1 as bv64) << k == (1 as bv64) << (k as bv8)
  {
  }

  lemma NarrowRight(word: bv64, k: nat)
    requires k < 64
    ensures (word >> k) & 1 == 1 <==> (word >> (k as bv8)) & 1 == 1
  {
  }

  lemma OneBitNarrow(x: bv8, y: bv8)
    requires x < 64 && y < 64
    ensures (((1 as bv64) << x) >> y) & 1 == 1 <==> x == y
  {
  }

  lemma OneBit(k: nat, m: nat)
    requires k < 64 && m < 64
    ensures BitSet(1 << k, m) <==> m == k
  {
    var word: bv64 := 1 << k;
    NarrowLeft(k);
    NarrowRight(word, m);
    NarrowLess(k);
    NarrowLess(m);
    OneBitNarrow(k as bv8, m as bv8);
    NarrowBack(k);
    NarrowBack(m);
  }
}

/** The hash tables of black-listed heap blocks and the word-skipping range test. */
module BlackLists {
  import opened WordBits

  const WORDSZ: nat := 64

  /** The bit tables: blocks that stack words, or heap words, falsely seem to point to,
      as found by the last collection and by the one under way. */
  datatype Tables = Tables(oldStack: seq<bv64>, newStack: seq<bv64>, oldNormal: seq<bv64>, newNormal: seq<bv64>, allInterior: bool) {
    predicate Ok() {
      |oldStack| == |newStack| == |oldNormal| == |newNormal| > 0
    }
  }

  /** PHT_HASH of a block number. */
  function Hash(t: Tables, h: nat): (i: nat)
    requires t.Ok()
    ensures i < |t.oldStack| * WORDSZ
  {
    h % (|t.oldStack| * WORDSZ)
  }

  /** get_pht_entry_from_index. */
  predicate Bit(table: seq<bv64>, i: nat)
    requires i / WORDSZ < |table|
  {
    BitSet(table[i / WORDSZ], i % WORDSZ)
  }

  predicate StackListed(t: Tables, h: nat)
    requires t.Ok()
  {
    var i := Hash(t, h);
    WordBounds(t, h);
    Bit(t.oldStack, i) || Bit(t.newStack, i)
  }

  predicate NormalListed(t: Tables, h: nat)
    requires t.Ok()
  {
    var i := Hash(t, h);
    WordBounds(t, h);
    Bit(t.oldNormal, i) || Bit(t.newNormal, i)
  }

  lemma WordBounds(t: Tables, h: nat)
    requires t.Ok()
    ensures Hash(t, h) / WORDSZ < |t.oldStack|
  {
  }

  ghost predicate NoneListed(t: Tables, from: nat, to: nat)
    requires t.Ok()
  {
    forall s: nat :: from <= s < to ==> !StackListed(t, s)
  }

  /** The first stack-listed block among s, ..., end - 1, as the candidate behind it; or 0. */
  function BehindFirst(t: Tables, s: nat, end: nat): nat
    requires t.Ok()
    decreases end - s
  {
    if s >= end then 0 else if StackListed(t, s) then s + 1 else BehindFirst(t, s + 1, end)
  }

  /** The plain form of the test, block by block. */
  function BlackListed(t: Tables, h: nat, n: nat): nat
    requires t.Ok()
  {
    if !t.allInterior && NormalListed(t, h) then h + 1 else BehindFirst(t, h, h + n)
  }

  lemma {:induction false} BehindFirstIs(t: Tables, s: nat, end: nat)
    requires t.Ok()
    ensures BehindFirst(t, s, end) == 0 <==> NoneListed(t, s, end)
    ensures var r := BehindFirst(t, s, end); r != 0 ==> s < r <= end && StackListed(t, r - 1) && NoneListed(t, s, r - 1)
    decreases end - s
  {
    hide StackListed;
    if s < end && !StackListed(t, s) { BehindFirstIs(t, s + 1, end); }
  }

  // ----- Which bit belongs to which block -----

  /** All words are zero, except that word q may have bit k, and no other. */
  ghost predicate OnlyBit(table: seq<bv64>, q: nat, k: nat) {
    k < 64 && forall j :: 0 <= j < |table| ==> table[j] == 0 || (j == q && table[j] == 1 << k)
  }

  lemma SamePlace(q: nat, k: nat, i: nat)
    requires k < 64
    ensures i == 64 * q + k <==> i / WORDSZ == q && i % WORDSZ == k
  {
  }

  lemma BitOf(table: seq<bv64>, q: nat, k: nat, i: nat)
    requires OnlyBit(table, q, k) && q < |table| && i < 64 * |table|
    ensures i / WORDSZ < |table| && (Bit(table, i) <==> i == 64 * q + k && table[q] != 0)
  {
    hide BitSet;
    SamePlace(q, k, i);
    if table[i / WORDSZ] == 0 {
      ZeroBit(table, i);
    } else {
      OneBit(k, i % WORDSZ);
    }
  }

  /** Bit k, counted from the low end, of word q stands for block 64 * q + k, and for those a table size further. */
  lemma ListedByOneBit(t: Tables, q: nat, k: nat, h: nat)
    requires t.Ok() && q < |t.oldStack| && h < 64 * |t.oldStack|
    requires OnlyBit(t.oldStack, q, k) && OnlyBit(t.newStack, q, k) && OnlyBit(t.oldNormal, q, k) && OnlyBit(t.newNormal, q, k)
    ensures StackListed(t, h) <==> h == 64 * q + k && (t.oldStack[q] != 0 || t.newStack[q] != 0)
    ensures NormalListed(t, h) <==> h == 64 * q + k && (t.oldNormal[q] != 0 || t.newNormal[q] != 0)
    ensures StackListed(t, h + 64 * |t.oldStack|) == StackListed(t, h) && NormalListed(t, h + 64 * |t.oldStack|) == NormalListed(t, h)
  {
    hide Bit, OnlyBit;
    var m := 64 * |t.oldStack|;
    RemainderIs(h, m, 0, h);
    RemainderIs(h + m, m, 1, h);
    WordBounds(t, h);
    BitOf(t.oldStack, q, k, h);
    BitOf(t.newStack, q, k, h);
    BitOf(t.oldNormal, q, k, h);
    BitOf(t.newNormal, q, k, h);
  }

  /** 0 means that no block of the range is stack listed and, unless all interior pointers count,
      that the first one is not listed for heap words.  Otherwise every earlier start of an
      equally long range than the one returned is black listed as well. */
  lemma BlackListedIs(t: Tables, h: nat, n: nat)
    requires t.Ok() && n > 0
    ensures BlackListed(t, h, n) == 0 <==> NoneListed(t, h, h + n) && (t.allInterior || !NormalListed(t, h))
    ensures var r := BlackListed(t, h, n); r != 0 ==> h < r <= h + n
    ensures forall s: nat :: h <= s < BlackListed(t, h, n) ==> BlackListed(t, s, n) != 0
  {
    hide StackListed, NormalListed;
    BehindFirstIs(t, h, h + n);
    var r := BlackListed(t, h, n);
    forall s: nat | h <= s < r ensures BlackListed(t, s, n) != 0 {
      BehindFirstIs(t, s, s + n);
      assert s > h ==> StackListed(t, r - 1);
    }
  }

  lemma {:induction false} SkipClear(t: Tables, s: nat, end: nat, s': nat)
    requires t.Ok() && s <= s' && NoneListed(t, s, s')
    ensures BehindFirst(t, s, end) == BehindFirst(t, s', end)
    decreases s' - s
  {
    hide StackListed;
    if s < s' { SkipClear(t, s + 1, end, s'); }
  }

  /** Blocks whose hash values follow one another in a word of zeros are not listed. */
  lemma ClearWord(t: Tables, h: nat, d: nat)
    requires t.Ok() && var i := Hash(t, h); i / WORDSZ < |t.oldStack| && t.oldStack[i / WORDSZ] == 0 && t.newStack[i / WORDSZ] == 0
    requires d < WORDSZ - Hash(t, h) % WORDSZ
    ensures !StackListed(t, h + d)
  {
    var i := Hash(t, h);
    HashNext(t, h, d);
    assert (i + d) / WORDSZ == i / WORDSZ;
    ZeroBit(t.oldStack, i + d);
    ZeroBit(t.newStack, i + d);
  }

  lemma HashNext(t: Tables, h: nat, d: nat)
    requires t.Ok() && Hash(t, h) + d < |t.oldStack| * WORDSZ
    ensures Hash(t, h + d) == Hash(t, h) + d
  {
    var m := |t.oldStack| * WORDSZ;
    var q := h / m;
    Remainder(h, m);
    RemainderIs(h + d, m, q, h % m + d);
  }

  lemma Remainder(x: nat, m: nat)
    requires m > 0
    ensures x == (x / m) * m + x % m
  {
  }

  lemma Multiple(d: nat, m: nat)
    requires d > 0
    ensures d * m >= m
  {
  }

  lemma RemainderIs(x: nat, m: nat, q: nat, r: nat)
    requires r < m && x == q * m + r
    ensures x % m == r
  {
    Remainder(x, m);
    var k := x / m;
    assert (q - k) * m == q * m - k * m;
    if q > k { Multiple(q - k, m); }
    if q < k { Multiple(k - q, m); }
  }

  lemma ZeroBit(table: seq<bv64>, i: nat)
    requires i / WORDSZ < |table| && table[i / WORDSZ] == 0
    ensures !Bit(table, i)
  {
  }

  lemma SameSizes(t: Tables)
    requires t.Ok()
    ensures |t.oldStack| == |t.newStack| == |t.oldNormal| == |t.newNormal|
  {
  }

  /** GC_is_black_listed: skip words of zeros. */
  method IsBlackListed(t: Tables, h: nat, n: nat) returns (r: nat)
    requires t.Ok() && n > 0
    ensures r == BlackListed(t, h, n)
  {
    hide StackListed, Hash, Bit, Tables.Ok;
    var index := Hash(t, h);
    WordBounds(t, h);
    SameSizes(t);
    if !t.allInterior && (Bit(t.oldNormal, index) || Bit(t.newNormal, index)) {
      return h + 1;
    }
    var i := 0;
    while true
      invariant i < n && index == Hash(t, h + i) && index / WORDSZ < |t.oldStack|
      invariant BlackListed(t, h, n) == BehindFirst(t, h + i, h + n)
      decreases n - i
    {
      if t.oldStack[index / WORDSZ] == 0 && t.newStack[index / WORDSZ] == 0 {
        var skip := WORDSZ - index % WORDSZ;
        ClearWords(t, h + i, skip);
        SkipClear(t, h + i, h + n, h + i + skip);
        i := i + skip;
      } else {
        IsListed(t, h + i);
        if Bit(t.oldStack, index) || Bit(t.newStack, index) {
          return h + i + 1;
        }
        i := i + 1;
      }
      if i >= n { break; }
      index := Hash(t, h + i);
      WordBounds(t, h + i);
    }
    return 0;
  }

  lemma IsListed(t: Tables, h: nat)
    requires t.Ok()
    ensures var i := Hash(t, h); i / WORDSZ < |t.oldStack| && (StackListed(t, h) <==> Bit(t.oldStack, i) || Bit(t.newStack, i))
  {
    WordBounds(t, h);
  }

  lemma ClearWords(t: Tables, h: nat, n: nat)
    requires t.Ok() && var i := Hash(t, h); i / WORDSZ < |t.oldStack| && t.oldStack[i / WORDSZ] == 0 && t.newStack[i / WORDSZ] == 0
    requires n <= WORDSZ - Hash(t, h) % WORDSZ
    ensures NoneListed(t, h, h + n)
  {
    hide StackListed, Hash;
    forall s: nat | h <= s < h + n ensures !StackListed(t, s) { ClearWord(t, h, s - h); }
  }
}

/** The two-level map from heap block numbers to headers: bottom indices of equal
    size, found through a hash table and linked in address order. */
module HeaderIndices {
  import opened BlockIndexes

  /** A word of a bottom index: nothing, or a header or forwarding count. */
  datatype Slot = Empty | Full(entry: Entry)

  /** A possibly missing bottom index, named by its key. */
  datatype Ref = Nil | To(key: nat)

  type Pos = n: nat | n > 0 witness 1

  // ----- Keys and offsets -----

  function KeyOf(bsz: nat, a: nat): nat
    requires bsz > 0
  {
    a / bsz
  }

  function OffsetOf(bsz: nat, a: nat): (j: nat)
    requires bsz > 0
    ensures j < bsz
  {
    a % bsz
  }

  function Address(bsz: nat, key: nat, j: int): (a: int)
    ensures j >= 0 ==> a >= 0
  {
    key * bsz + j
  }

  lemma Split(bsz: nat, a: nat)
    requires bsz > 0
    ensures Address(bsz, KeyOf(bsz, a), OffsetOf(bsz, a)) == a
  {
  }

  lemma Joined(bsz: nat, key: nat, j: nat)
    requires j < bsz
    ensures KeyOf(bsz, Address(bsz, key, j)) == key && OffsetOf(bsz, Address(bsz, key, j)) == j
  {
    var a := Address(bsz, key, j);
    Split(bsz, a);
    var k, o := KeyOf(bsz, a), OffsetOf(bsz, a);
    assert (key - k) * bsz == o - j;
    assert (k - key) * bsz == j - o;
    if key > k { Multiple(key - k, bsz); }
    if key < k { Multiple(k - key, bsz); }
  }

  lemma Multiple(d: nat, b: nat)
    requires d > 0
    ensures d * b >= b
  {
  }

  lemma KeysOrdered(bsz: nat, a: nat, b: nat)
    requires bsz > 0
    ensures KeyOf(bsz, a) < KeyOf(bsz, b) ==> a < b
    ensures KeyOf(bsz, a) == KeyOf(bsz, b) ==> b - a == OffsetOf(bsz, b) - OffsetOf(bsz, a)
    ensures a <= b ==> KeyOf(bsz, a) <= KeyOf(bsz, b)
  {
    Split(bsz, a);
    Split(bsz, b);
    var k, l := KeyOf(bsz, a), KeyOf(bsz, b);
    assert k * bsz + OffsetOf(bsz, a) == a && l * bsz + OffsetOf(bsz, b) == b;
    if k < l { assert (l - k) * bsz == l * bsz - k * bsz; Multiple(l - k, bsz); }
    if l < k { assert (k - l) * bsz == k * bsz - l * bsz; Multiple(k - l, bsz); }
  }

  /** Which block numbers have a given key. */
  lemma KeyBounds(bsz: nat, a: nat, key: nat)
    requires bsz > 0
    ensures KeyOf(bsz, a) < key <==> a < Address(bsz, key, 0)
    ensures KeyOf(bsz, a) > key <==> a >= Address(bsz, key, bsz)
  {
    Split(bsz, a);
    var k := KeyOf(bsz, a);
    if k < key { assert (key - k) * bsz == key * bsz - k * bsz; Multiple(key - k, bsz); }
    if k > key { assert (k - key) * bsz == k * bsz - key * bsz; Multiple(k - key, bsz); }
  }

  /** Two block numbers that are not further apart than a bottom index is long have the
      only keys that occur between them. */
  lemma KeysBetween(bsz: nat, v: nat, w: nat, d: nat)
    requires bsz > 0 && v <= d <= w <= v + bsz
    ensures KeyOf(bsz, d) == KeyOf(bsz, v) || KeyOf(bsz, d) == KeyOf(bsz, w)
  {
    KeysOrdered(bsz, v, d);
    KeysOrdered(bsz, d, w);
    Split(bsz, v);
    KeyBounds(bsz, w, KeyOf(bsz, v) + 1);
    assert Address(bsz, KeyOf(bsz, v) + 1, bsz) == Address(bsz, KeyOf(bsz, v), 0) + bsz + bsz;
  }

  // ----- The lists of bottom indices -----

  function At(keys: seq<nat>, j: int): Ref {
    if 0 <= j < |keys| then To(keys[j]) else Nil
  }

  ghost predicate Ascending(order: seq<nat>) {
    forall i, j :: 0 <= i < j < |order| ==> order[i] < order[j]
  }

  ghost predicate OrderNode(asc: map<nat, Ref>, desc: map<nat, Ref>, order: seq<nat>, j: nat)
    requires j < |order|
  {
    order[j] in asc && order[j] in desc && asc[order[j]] == At(order, j + 1) && desc[order[j]] == At(order, j - 1)
  }

  ghost predicate Ordered(first: Ref, last: Ref, asc: map<nat, Ref>, desc: map<nat, Ref>, order: seq<nat>) {
    && Ascending(order) && first == At(order, 0) && last == At(order, |order| - 1)
    && forall j :: 0 <= j < |order| ==> OrderNode(asc, desc, order, j)
  }

  ghost predicate ChainNode(link: map<nat, Ref>, chain: seq<nat>, j: nat)
    requires j < |chain|
  {
    chain[j] in link && link[chain[j]] == At(chain, j + 1)
  }

  ghost predicate Chained(head: Ref, link: map<nat, Ref>, chain: seq<nat>) {
    head == At(chain, 0) && forall j :: 0 <= j < |chain| ==> ChainNode(link, chain, j)
  }

  /** TL_HASH. */
  function Bucket(k: nat, n: nat): (i: nat)
    requires n > 0
    ensures i < n
  {
    k % n
  }

  ghost predicate InBucket(chains: seq<seq<nat>>, keys: set<nat>, i: nat, j: nat)
    requires i < |chains| && j < |chains[i]|
  {
    chains[i][j] in keys && Bucket(chains[i][j], |chains|) == i
  }

  ghost predicate Hashed(top: seq<Ref>, link: map<nat, Ref>, chains: seq<seq<nat>>, keys: set<nat>) {
    && |top| == |chains| > 0
    && (forall i :: 0 <= i < |top| ==> Chained(top[i], link, chains[i]))
    && (forall i, j :: 0 <= i < |chains| && 0 <= j < |chains[i]| ==> InBucket(chains, keys, i, j))
    && (forall k :: k in keys ==> k in chains[Bucket(k, |top|)])
  }

  function Inserted(order: seq<nat>, pos: nat, k: nat): (r: seq<nat>)
    requires pos <= |order|
    ensures |r| == |order| + 1 && forall j :: 0 <= j < |r| ==> r[j] == if j < pos then order[j] else if j == pos then k else order[j - 1]
  {
    order[..pos] + [k] + order[pos..]
  }

  lemma InsertedAscending(order: seq<nat>, pos: nat, k: nat)
    requires Ascending(order) && pos <= |order| && forall j :: 0 <= j < |order| ==> if j < pos then order[j] < k else order[j] > k
    ensures Ascending(Inserted(order, pos, k))
  {
  }

  lemma InsertedNode(asc: map<nat, Ref>, desc: map<nat, Ref>, order: seq<nat>, pos: nat, k: nat, j: nat)
    requires pos <= |order| && forall j :: 0 <= j < |order| ==> OrderNode(asc, desc, order, j)
    requires forall i, j :: 0 <= i < j < |order| ==> order[i] != order[j]
    requires j <= |order| && forall j :: 0 <= j < |order| ==> order[j] != k
    ensures OrderNode(AscWith(asc, order, pos, k), DescWith(desc, order, pos, k), Inserted(order, pos, k), j)
  {
    if j != pos { assert OrderNode(asc, desc, order, if j < pos then j else j - 1); }
  }

  /** The links after key k has been put at position pos. */
  function AscWith(asc: map<nat, Ref>, order: seq<nat>, pos: nat, k: nat): map<nat, Ref>
    requires pos <= |order|
  {
    if pos == 0 then asc[k := At(order, pos)] else asc[k := At(order, pos)][order[pos - 1] := To(k)]
  }

  function DescWith(desc: map<nat, Ref>, order: seq<nat>, pos: nat, k: nat): map<nat, Ref>
    requires pos <= |order|
  {
    if pos == |order| then desc[k := At(order, pos - 1)] else desc[k := At(order, pos - 1)][order[pos] := To(k)]
  }

  lemma OrderedInsert(first: Ref, last: Ref, asc: map<nat, Ref>, desc: map<nat, Ref>, order: seq<nat>, pos: nat, k: nat)
    requires Ordered(first, last, asc, desc, order) && pos <= |order|
    requires forall j :: 0 <= j < |order| ==> if j < pos then order[j] < k else order[j] > k
    ensures Ordered(if pos == 0 then To(k) else first, if pos == |order| then To(k) else last,
                    AscWith(asc, order, pos, k), DescWith(desc, order, pos, k), Inserted(order, pos, k))
  {
    hide AscWith, DescWith, OrderNode;
    InsertedAscending(order, pos, k);
    forall j | 0 <= j <= |order|
      ensures OrderNode(AscWith(asc, order, pos, k), DescWith(desc, order, pos, k), Inserted(order, pos, k), j)
    {
      InsertedNode(asc, desc, order, pos, k, j);
    }
  }

  lemma ChainPush(head: Ref, link: map<nat, Ref>, chain: seq<nat>, k: nat)
    requires Chained(head, link, chain) && k !in chain
    ensures Chained(To(k), link[k := head], [k] + chain)
  {
    var chain', link' := [k] + chain, link[k := head];
    forall j | 0 <= j < |chain'| ensures ChainNode(link', chain', j) {
      if j > 0 { assert ChainNode(link, chain, j - 1); }
    }
  }

  lemma ChainFrame(head: Ref, link: map<nat, Ref>, chain: seq<nat>, k: nat, r: Ref)
    requires Chained(head, link, chain) && k !in chain
    ensures Chained(head, link[k := r], chain)
  {
    var link' := link[k := r];
    forall j | 0 <= j < |chain| ensures ChainNode(link', chain, j) { assert ChainNode(link, chain, j); }
  }

  lemma NewKey(top: seq<Ref>, link: map<nat, Ref>, chains: seq<seq<nat>>, keys: set<nat>, k: nat, i: nat)
    requires Hashed(top, link, chains, keys) && k !in keys && i < |chains|
    ensures k !in chains[i]
  {
    forall j | 0 <= j < |chains[i]| ensures chains[i][j] != k { assert InBucket(chains, keys, i, j); }
  }

  lemma HashedInsert(top: seq<Ref>, link: map<nat, Ref>, chains: seq<seq<nat>>, keys: set<nat>, k: nat)
    requires Hashed(top, link, chains, keys) && k !in keys
    ensures var i := Bucket(k, |top|);
      Hashed(top[i := To(k)], link[k := top[i]], chains[i := [k] + chains[i]], keys + {k})
  {
    hide Bucket, Chained;
    var i := Bucket(k, |top|);
    var top', link', chains' := top[i := To(k)], link[k := top[i]], chains[i := [k] + chains[i]];
    forall l | 0 <= l < |top'| ensures Chained(top'[l], link', chains'[l]) {
      NewKey(top, link, chains, keys, k, l);
      if l == i { ChainPush(top[i], link, chains[i], k); } else { ChainFrame(top[l], link, chains[l], k, top[i]); }
    }
    forall l, j | 0 <= l < |chains'| && 0 <= j < |chains'[l]| ensures InBucket(chains', keys + {k}, l, j) {
      if l != i { assert InBucket(chains, keys, l, j); }
      else if j > 0 { assert InBucket(chains, keys, l, j - 1) && chains'[l][j] == chains[l][j - 1]; }
    }
    forall d | d in keys + {k} ensures d in chains'[Bucket(d, |top'|)] {
      if d != k { assert d in chains[Bucket(d, |top|)]; }
    }
  }

  // ----- The index -----

  function Look(bsz: nat, bottoms: map<nat, seq<Slot>>, a: nat): Slot
    requires bsz > 0 && forall k :: k in bottoms ==> |bottoms[k]| == bsz
  {
    if KeyOf(bsz, a) in bottoms then bottoms[KeyOf(bsz, a)][OffsetOf(bsz, a)] else Empty
  }

  function FlatLook(flat: Index, a: nat): Slot {
    if a in flat then Full(flat[a]) else Empty
  }

  /** The two levels and the flat map agree. */
  ghost predicate Agrees(bsz: nat, bottoms: map<nat, seq<Slot>>, flat: Index) {
    && bsz > 0 && (forall k :: k in bottoms ==> |bottoms[k]| == bsz)
    && forall a: nat :: Look(bsz, bottoms, a) == FlatLook(flat, a)
  }

  lemma AgreesNew(bsz: nat, bottoms: map<nat, seq<Slot>>, flat: Index, k: nat)
    requires Agrees(bsz, bottoms, flat) && k !in bottoms
    ensures Agrees(bsz, bottoms[k := seq(bsz, _ => Empty)], flat)
  {
  }

  lemma AgreesSet(bsz: nat, bottoms: map<nat, seq<Slot>>, flat: Index, a: nat, s: Slot)
    requires Agrees(bsz, bottoms, flat) && KeyOf(bsz, a) in bottoms
    ensures var k := KeyOf(bsz, a);
      Agrees(bsz, bottoms[k := bottoms[k][OffsetOf(bsz, a) := s]], if s.Full? then flat[a := s.entry] else flat - {a})
  {
    var k := KeyOf(bsz, a);
    var bottoms' := bottoms[k := bottoms[k][OffsetOf(bsz, a) := s]];
    forall d: nat ensures Look(bsz, bottoms', d) == if d == a then s else Look(bsz, bottoms, d) {
      Split(bsz, d);
      Split(bsz, a);
    }
  }

  lemma NotThere(bsz: nat, bottoms: map<nat, seq<Slot>>, flat: Index, a: nat)
    requires Agrees(bsz, bottoms, flat) && KeyOf(bsz, a) !in bottoms
    ensures flat - {a} == flat
  {
    assert Look(bsz, bottoms, a) == FlatLook(flat, a);
  }

  lemma BottomSizes(bsz: nat, bottoms: map<nat, seq<Slot>>, flat: Index)
    requires Agrees(bsz, bottoms, flat)
    ensures bsz > 0 && forall k :: k in bottoms ==> |bottoms[k]| == bsz
  {
  }

  ghost predicate AllNil(bsz: nat, nils: seq<Slot>) {
    |nils| == bsz && forall j :: 0 <= j < bsz ==> nils[j] == Empty
  }

  class HeaderIndex {
    const bsz: Pos                          // BOTTOM_SZ
    var bottoms: map<nat, seq<Slot>>
    var nils: seq<Slot>                     // GC_all_nils, in the place of all bottom indices that are missing
    var asc: map<nat, Ref>                  // asc_link and desc_link of the bottom indices
    var desc: map<nat, Ref>
    var first: Ref                          // GC_all_bottom_indices and GC_all_bottom_indices_end
    var last: Ref
    var top: seq<Ref>                       // GC_top_index
    var link: map<nat, Ref>                 // hash_link
    ghost var order: seq<nat>
    ghost var chains: seq<seq<nat>>
    ghost var flat: Index

    ghost predicate Valid()
      reads this
    {
      && Agrees(bsz, bottoms, flat) && Ordered(first, last, asc, desc, order) && Hashed(top, link, chains, bottoms.Keys)
      && (forall k :: k in order <==> k in bottoms) && AllNil(bsz, nils)
    }

    /** GC_init_headers. */
    constructor (bsz: Pos, topSize: nat)
      requires topSize > 0
      ensures Valid() && flat == map[] && this.bsz == bsz
    {
      this.bsz := bsz;
      bottoms, nils, asc, desc, first, last := map[], seq(bsz, _ => Empty), map[], map[], Nil, Nil;
      top, link := seq(topSize, _ => Nil), map[];
      order, chains, flat := [], seq(topSize, _ => []), map[];
    }

    /** GET_BI: is there a bottom index for these high-order bits? */
    method HasBottom(hi: nat) returns (found: bool)
      requires Hashed(top, link, chains, bottoms.Keys)
      ensures found <==> hi in bottoms
    {
      hide Bucket;
      ghost var chain := chains[Bucket(hi, |top|)];
      var p := top[Bucket(hi, |top|)];
      ghost var j: nat := 0;
      while p != Nil && p.key != hi
        invariant j <= |chain| && p == At(chain, j)
        invariant forall l :: 0 <= l < j ==> chain[l] != hi
        decreases |chain| - j
      {
        assert ChainNode(link, chain, j);
        p := link[p.key];
        j := j + 1;
      }
      found := p != Nil;
      if found { assert InBucket(chains, bottoms.Keys, Bucket(hi, |top|), j); }
    }

    /** get_index: make sure that there is a bottom index for block number a. */
    method GetIndex(a: nat)
      requires Valid()
      modifies this
      ensures Valid() && flat == old(flat) && bottoms.Keys == old(bottoms.Keys) + {KeyOf(bsz, a)}
    {
      hide KeyOf, OffsetOf, Hashed, Ordered, Look;
      var hi := KeyOf(bsz, a);
      var found := HasBottom(hi);
      if found { return; }
      InsertHash(hi);
      InsertOrdered(hi);
      AgreesNew(bsz, bottoms, flat, hi);
      assert bottoms[hi := seq(bsz, _ => Empty)].Keys == bottoms.Keys + {hi};
      bottoms := bottoms[hi := seq(bsz, _ => Empty)];
    }

    method InsertHash(hi: nat)
      requires Hashed(top, link, chains, bottoms.Keys) && hi !in bottoms
      modifies this`top, this`link, this`chains
      ensures Hashed(top, link, chains, bottoms.Keys + {hi})
    {
      hide Bucket;
      HashedInsert(top, link, chains, bottoms.Keys, hi);
      var i := Bucket(hi, |top|);
      link := link[hi := top[i]];
      top := top[i := To(hi)];
      chains := chains[i := [hi] + chains[i]];
    }

    /** Add a bottom index to the list in ascending order. */
    method InsertOrdered(hi: nat)
      requires Ordered(first, last, asc, desc, order) && hi !in order
      modifies this`first, this`last, this`asc, this`desc, this`order
      ensures Ordered(first, last, asc, desc, order) && forall k :: k in order <==> k in old(order) || k == hi
    {
      var pi, p := Nil, first;
      ghost var pos: nat := 0;
      while p != Nil && p.key < hi
        invariant pos <= |order| && p == At(order, pos) && pi == At(order, pos - 1)
        invariant forall j :: 0 <= j < pos ==> order[j] < hi
        decreases |order| - pos
      {
        assert OrderNode(asc, desc, order, pos);
        pi := p;
        p := asc[p.key];
        pos := pos + 1;
      }
      assert forall j :: pos <= j < |order| ==> order[j] > hi by {
        if pos < |order| { assert order[pos] in order; }
      }
      OrderedInsert(first, last, asc, desc, order, pos, hi);
      LinkIn(hi, pi, p, pos);
    }

    method LinkIn(hi: nat, pi: Ref, p: Ref, ghost pos: nat)
      requires pos <= |order| && pi == At(order, pos - 1) && p == At(order, pos)
      modifies this`first, this`last, this`asc, this`desc, this`order
      ensures first == (if pos == 0 then To(hi) else old(first)) && last == (if pos == |old(order)| then To(hi) else old(last))
      ensures asc == AscWith(old(asc), old(order), pos, hi) && desc == DescWith(old(desc), old(order), pos, hi)
      ensures order == Inserted(old(order), pos, hi) && forall k :: k in order <==> k in old(order) || k == hi
    {
      desc := desc[hi := pi];
      if p == Nil {
        last := To(hi);
      } else {
        desc := desc[p.key := To(hi)];
      }
      asc := asc[hi := p];
      if pi == Nil {
        first := To(hi);
      } else {
        asc := asc[pi.key := To(hi)];
      }
      assert order == order[..pos] + order[pos..];
      order := Inserted(order, pos, hi);
    }

    /** HDR. */
    method Hdr(a: nat) returns (s: Slot)
      requires Valid()
      ensures s == FlatLook(flat, a)
    {
      hide KeyOf, OffsetOf;
      var found := HasBottom(KeyOf(bsz, a));
      assert Look(bsz, bottoms, a) == FlatLook(flat, a);
      s := if found then bottoms[KeyOf(bsz, a)][OffsetOf(bsz, a)] else nils[OffsetOf(bsz, a)];
    }

    /** SET_HDR.  Where there is no bottom index the store goes to the shared one, which is all right for 0. */
    method SetHdr(a: nat, s: Slot)
      requires Valid() && (KeyOf(bsz, a) in bottoms || s == Empty)
      modifies this`bottoms, this`nils, this`flat
      ensures Valid() && bottoms.Keys == old(bottoms.Keys)
      ensures flat == if s.Full? then old(flat)[a := s.entry] else old(flat) - {a}
    {
      hide KeyOf, OffsetOf, Agrees, Hashed, Ordered;
      var k := KeyOf(bsz, a);
      var found := HasBottom(k);
      if found {
        AgreesSet(bsz, bottoms, flat, a, s);
        assert |bottoms[k]| == bsz by { BottomSizes(bsz, bottoms, flat); }
        assert bottoms[k := bottoms[k][OffsetOf(bsz, a) := s]].Keys == bottoms.Keys;
        bottoms := bottoms[k := bottoms[k][OffsetOf(bsz, a) := s]];
      } else {
        NotThere(bsz, bottoms, flat, a);
        nils := nils[OffsetOf(bsz, a) := s];
      }
      flat := if s.Full? then flat[a := s.entry] else flat - {a};
    }

    /** GC_install_header. */
    method InstallHeader(a: nat, e: Entry)
      requires Valid()
      modifies this
      ensures Valid() && flat == old(flat)[a := e] && bottoms.Keys == old(bottoms.Keys) + {KeyOf(bsz, a)}
    {
      hide KeyOf;
      GetIndex(a);
      SetHdr(a, Full(e));
    }

    /** GC_remove_header. */
    method RemoveHeader(a: nat)
      requires Valid()
      modifies this`bottoms, this`nils, this`flat
      ensures Valid() && flat == old(flat) - {a} && bottoms.Keys == old(bottoms.Keys)
    {
      SetHdr(a, Empty);
    }

    /** There are bottom indices for n block numbers from h on. */
    ghost predicate Covered(h: nat, n: nat)
      reads this`bottoms
    {
      forall d: nat :: h <= d < h + n ==> KeyOf(bsz, d) in bottoms
    }

    /** GC_install_counts, the bottom indices: it is enough to ask for every bsz-th block and the last one. */
    method CoverBlock(h: nat, n: nat)
      requires Valid() && n > 0
      modifies this
      ensures Valid() && flat == old(flat) && old(bottoms.Keys) <= bottoms.Keys && Covered(h, n)
    {
      hide KeyOf;
      var a := h;
      while a < h + n
        invariant Valid() && flat == old(flat) && old(bottoms.Keys) <= bottoms.Keys && h <= a
        invariant a > h ==> a >= h + bsz && Covered(h, a - bsz - h + 1)
        invariant a > h ==> a - bsz < h + n
        decreases h + n - a
      {
        if a > h { forall d: nat | a - bsz <= d <= a ensures KeyOf(bsz, d) in {KeyOf(bsz, a - bsz), KeyOf(bsz, a)} { KeysBetween(bsz, a - bsz, a, d); } }
        GetIndex(a);
        a := a + bsz;
      }
      var v, w := a - bsz, h + n - 1;
      forall d: nat | v <= d <= w ensures KeyOf(bsz, d) in {KeyOf(bsz, v), KeyOf(bsz, w)} { KeysBetween(bsz, v, w, d); }
      GetIndex(w);
    }

    /** GC_install_counts: forwarding counts for the n blocks at h. */
    method InstallCounts(c: Config, h: nat, n: nat)
      requires Valid() && n > 0
      modifies this
      ensures Valid() && flat == old(flat) + Counts(c, h, n) && Covered(h, n)
    {
      hide KeyOf, Agrees, Hashed, Ordered, Counts;
      CoverBlock(h, n);
      var a := h + 1;
      CountsNext(flat, c, h, 0);
      while a < h + n
        invariant h < a <= h + n && Valid() && Covered(h, n)
        invariant flat == old(flat) + Counts(c, h, a - h)
      {
        CountsNext(old(flat), c, h, a - h);
        SetHdr(a, Full(Forward(Min(a - h, c.maxJump))));
        a := a + 1;
      }
    }

    /** GC_remove_counts, also for a new section, which need not have bottom indices yet. */
    method RemoveCounts(h: nat, n: nat)
      requires Valid() && n > 0
      modifies this`bottoms, this`nils, this`flat
      ensures Valid() && flat == old(flat) - Inside(h, n) && bottoms.Keys == old(bottoms.Keys)
    {
      hide KeyOf, Agrees, Hashed, Ordered;
      var a := h + 1;
      while a < h + n
        invariant h < a <= h + n && Valid() && bottoms.Keys == old(bottoms.Keys)
        invariant flat == old(flat) - Inside(h, a - h)
      {
        SetHdr(a, Empty);
        a := a + 1;
      }
    }

    // ----- Scans -----

    /** The block number of a flat entry has a bottom index at some place of the list. */
    lemma Place(a: nat) returns (q: nat)
      requires Valid() && a in flat
      ensures q < |order| && order[q] == KeyOf(bsz, a)
    {
      assert Look(bsz, bottoms, a) == FlatLook(flat, a);
      q :| 0 <= q < |order| && order[q] == KeyOf(bsz, a);
    }

    /** What a bottom index holds is what the flat map holds. */
    lemma SlotIs(key: nat, j: nat)
      requires Valid() && key in bottoms && j < bsz
      ensures bottoms[key][j] == FlatLook(flat, Address(bsz, key, j)) && |bottoms[key]| == bsz
    {
      Joined(bsz, key, j);
      assert Look(bsz, bottoms, Address(bsz, key, j)) == FlatLook(flat, Address(bsz, key, j));
    }

    /** Every block that is wanted and not before h is at or behind position j of the pos-th bottom index. */
    ghost predicate Ahead(wanted: set<nat>, h: nat, pos: nat, j: nat)
      reads this`order
    {
      forall b :: b in wanted && b >= h ==> pos < |order| && b >= Address(bsz, order[pos], j)
    }

    lemma AheadNext(wanted: set<nat>, h: nat, pos: nat, j: nat)
      requires Valid() && wanted <= flat.Keys && pos < |order| && j >= bsz && Ahead(wanted, h, pos, j)
      ensures Ahead(wanted, h, pos + 1, 0)
    {
      forall b | b in wanted && b >= h ensures pos + 1 < |order| && b >= Address(bsz, order[pos + 1], 0) {
        var q := Place(b);
        KeyBounds(bsz, b, order[pos]);
        assert q > pos;
        KeyBounds(bsz, b, order[pos + 1]);
      }
    }

    lemma AheadStart(wanted: set<nat>, h: nat, pos: nat)
      requires Valid() && wanted <= flat.Keys && pos <= |order|
      requires forall q :: 0 <= q < pos ==> order[q] < KeyOf(bsz, h)
      requires pos < |order| ==> order[pos] > KeyOf(bsz, h)
      ensures Ahead(wanted, h, pos, 0) && (pos < |order| ==> Address(bsz, order[pos], 0) >= h)
    {
      if pos < |order| { KeyBounds(bsz, h, order[pos]); }
      forall b | b in wanted && b >= h ensures pos < |order| && b >= Address(bsz, order[pos], 0) {
        var q := Place(b);
        KeysOrdered(bsz, h, b);
        assert q >= pos;
        KeyBounds(bsz, b, order[pos]);
      }
    }

    /** GC_next_used_block: where the scan starts. */
    method StartAt(h: nat, ghost wanted: set<nat>) returns (bi: Ref, j: nat, ghost pos: nat)
      requires Valid() && wanted <= flat.Keys
      ensures pos <= |order| && bi == At(order, pos) && Ahead(wanted, h, pos, j)
      ensures bi != Nil ==> j < bsz && Address(bsz, bi.key, j) >= h
    {
      hide KeyOf, OffsetOf, Agrees, Hashed;
      var hi := KeyOf(bsz, h);
      var found := HasBottom(hi);
      if found {
        pos :| 0 <= pos < |order| && order[pos] == hi;
        Split(bsz, h);
        return To(hi), OffsetOf(bsz, h), pos;
      }
      bi := first;
      pos := 0;
      while bi != Nil && bi.key < hi
        invariant pos <= |order| && bi == At(order, pos) && forall q :: 0 <= q < pos ==> order[q] < hi
        decreases |order| - pos
      {
        assert OrderNode(asc, desc, order, pos);
        bi := asc[bi.key];
        pos := pos + 1;
      }
      assert pos < |order| ==> order[pos] in order;
      AheadStart(wanted, h, pos);
      j := 0;
    }

    /** Where to go on in a bottom index: an allocated block, or the next position to look at. */
    method LookForUsed(key: nat, j: nat, ghost c: Config, ghost owner: Owner) returns (found: bool, j': nat)
      requires Valid() && key in bottoms && j < bsz && Shape(c, flat, owner)
      ensures found ==> j' == j && Address(bsz, key, j) in UsedBlocks(flat)
      ensures !found ==> j' > j && forall b :: b in UsedBlocks(flat) ==> !(Address(bsz, key, j) <= b < Address(bsz, key, j'))
    {
      SlotIs(key, j);
      hide Agrees, Hashed, Ordered;
      var s := bottoms[key][j];
      if s == Empty || s.entry.Forward? { return false, j + 1; }
      if s.entry.Used? { return true, j; }
      NoneInFree(c, flat, owner, Address(bsz, key, j));
      return false, j + s.entry.blocks;
    }

    /** GC_next_used_block: the first allocated block from position j of one bottom index on, if there is one. */
    method ScanUsed(h: nat, key: nat, j0: nat, ghost pos: nat, ghost c: Config, ghost owner: Owner) returns (found: bool, j: nat)
      requires Valid() && Shape(c, flat, owner) && pos < |order| && order[pos] == key
      requires Ahead(UsedBlocks(flat), h, pos, j0) && Address(bsz, key, j0) >= h
      ensures Ahead(UsedBlocks(flat), h, pos, j) && Address(bsz, key, j) >= h
      ensures if found then Address(bsz, key, j) in UsedBlocks(flat) && Address(bsz, key, j) > 0 else j >= bsz
    {
      hide KeyOf, OffsetOf, Agrees, Hashed, Shape, UsedBlocks;
      assert key in order;
      j := j0;
      while j < bsz
        invariant Ahead(UsedBlocks(flat), h, pos, j) && Address(bsz, key, j) >= h
      {
        found, j := LookForUsed(key, j, c, owner);
        if found { UsedPositive(c, flat, owner, Address(bsz, key, j)); return; }
      }
      found := false;
    }

    /** GC_next_used_block: the first allocated block at or behind h, or 0. */
    method NextUsedBlock(h: nat, ghost c: Config, ghost owner: Owner) returns (r: nat)
      requires Valid() && Shape(c, flat, owner)
      ensures r != 0 ==> r >= h && r in UsedBlocks(flat) && forall b :: b in UsedBlocks(flat) && b >= h ==> b >= r
      ensures r == 0 ==> forall b :: b in UsedBlocks(flat) ==> b < h
    {
      hide KeyOf, OffsetOf, Agrees, Hashed, Shape;
      var bi: Ref, j: nat;
      ghost var pos: nat;
      bi, j, pos := StartAt(h, UsedBlocks(flat));
      while bi != Nil
        invariant pos <= |order| && bi == At(order, pos) && Ahead(UsedBlocks(flat), h, pos, j)
        invariant bi != Nil ==> Address(bsz, bi.key, j) >= h && Address(bsz, bi.key, bsz) >= h
        decreases |order| - pos
      {
        var found;
        found, j := ScanUsed(h, bi.key, j, pos, c, owner);
        if found { return Address(bsz, bi.key, j); }
        AheadNext(UsedBlocks(flat), h, pos, j);
        NextStart(h, pos);
        assert OrderNode(asc, desc, order, pos);
        bi := asc[bi.key];
        pos := pos + 1;
        j := 0;
      }
      r := 0;
    }

    /** Later bottom indices hold later block numbers. */
    lemma NextStart(h: nat, pos: nat)
      requires Valid() && pos < |order| && Address(bsz, order[pos], bsz) >= h
      ensures pos + 1 < |order| ==> Address(bsz, order[pos + 1], 0) >= h && Address(bsz, order[pos + 1], bsz) >= h
    {
      if pos + 1 < |order| {
        assert order[pos + 1] > order[pos];
        assert (order[pos + 1] - order[pos]) * bsz == order[pos + 1] * bsz - order[pos] * bsz;
        Multiple(order[pos + 1] - order[pos], bsz);
      }
    }

    /** Every header that is not behind h is at or before position j of the pos-th bottom index. */
    ghost predicate Behind(wanted: set<nat>, h: nat, pos: int, j: int)
      reads this`order
    {
      forall b :: b in wanted && b <= h ==> 0 <= pos < |order| && b <= Address(bsz, order[pos], j)
    }

    lemma BehindNext(wanted: set<nat>, h: nat, pos: nat, j: int)
      requires Valid() && wanted <= flat.Keys && pos < |order| && j < 0 && Behind(wanted, h, pos, j)
      ensures Behind(wanted, h, pos - 1, bsz - 1)
    {
      forall b | b in wanted && b <= h ensures 0 <= pos - 1 && b <= Address(bsz, order[pos - 1], bsz - 1) {
        var q := Place(b);
        KeyBounds(bsz, b, order[pos]);
        assert q < pos;
        KeyBounds(bsz, b, order[pos - 1]);
      }
    }

    lemma BehindStart(wanted: set<nat>, h: nat, pos: int)
      requires Valid() && wanted <= flat.Keys && -1 <= pos < |order|
      requires forall q :: pos < q < |order| ==> order[q] > KeyOf(bsz, h)
      requires pos >= 0 ==> order[pos] < KeyOf(bsz, h)
      ensures Behind(wanted, h, pos, bsz - 1) && (pos >= 0 ==> Address(bsz, order[pos], bsz - 1) <= h)
    {
      if pos >= 0 { KeyBounds(bsz, h, order[pos]); }
      forall b | b in wanted && b <= h ensures 0 <= pos && b <= Address(bsz, order[pos], bsz - 1) {
        var q := Place(b);
        KeysOrdered(bsz, b, h);
        assert q <= pos;
        KeyBounds(bsz, b, order[pos]);
      }
    }

    /** GC_prev_block: where the scan starts. */
    method StartBefore(h: nat, ghost wanted: set<nat>) returns (bi: Ref, j: int, ghost pos: int)
      requires Valid() && wanted <= flat.Keys
      ensures -1 <= pos < |order| && bi == At(order, pos) && Behind(wanted, h, pos, j) && 0 <= j < bsz
      ensures bi != Nil ==> Address(bsz, bi.key, j) <= h
    {
      hide KeyOf, OffsetOf, Agrees, Hashed;
      var hi := KeyOf(bsz, h);
      var found := HasBottom(hi);
      if found {
        pos :| 0 <= pos < |order| && order[pos] == hi;
        Split(bsz, h);
        return To(hi), OffsetOf(bsz, h), pos;
      }
      bi := last;
      pos := |order| - 1;
      while bi != Nil && bi.key > hi
        invariant -1 <= pos < |order| && bi == At(order, pos) && forall q :: pos < q < |order| ==> order[q] > hi
        decreases pos
      {
        assert OrderNode(asc, desc, order, pos);
        bi := desc[bi.key];
        pos := pos - 1;
      }
      assert pos >= 0 ==> order[pos] in order;
      BehindStart(wanted, h, pos);
      j := bsz - 1;
    }

    /** Where to go on in a bottom index: a header, or the next position to look at. */
    method LookForHeader(key: nat, j: nat, ghost c: Config, ghost owner: Owner) returns (found: bool, j': int)
      requires Valid() && key in bottoms && j < bsz && Shape(c, flat, owner)
      ensures found ==> j' == j && Address(bsz, key, j) in Headers(flat) && Address(bsz, key, j) > 0
      ensures !found ==> j' < j && forall b :: b in Headers(flat) ==> !(Address(bsz, key, j') < b <= Address(bsz, key, j))
    {
      SlotIs(key, j);
      hide Agrees, Hashed, Ordered;
      var s := bottoms[key][j];
      if s == Empty { return false, j - 1; }
      if s.entry.Forward? {
        NoneSkipped(c, flat, owner, Address(bsz, key, j));
        return false, j - s.entry.jump;
      }
      HeadersPositive(c, flat, owner, Address(bsz, key, j));
      return true, j;
    }

    /** GC_prev_block: the last header up to position j0 of one bottom index, if there is one. */
    method ScanBack(h: nat, key: nat, j0: int, ghost pos: nat, ghost c: Config, ghost owner: Owner) returns (found: bool, j: int)
      requires Valid() && Shape(c, flat, owner) && pos < |order| && order[pos] == key && j0 < bsz
      requires Behind(Headers(flat), h, pos, j0) && Address(bsz, key, j0) <= h
      ensures Behind(Headers(flat), h, pos, j) && Address(bsz, key, j) <= h
      ensures if found then Address(bsz, key, j) in Headers(flat) && Address(bsz, key, j) > 0 else j < 0
    {
      hide KeyOf, OffsetOf, Agrees, Hashed, Shape, Headers;
      assert key in order;
      j := j0;
      while j >= 0
        invariant j < bsz && Behind(Headers(flat), h, pos, j) && Address(bsz, key, j) <= h
      {
        found, j := LookForHeader(key, j, c, owner);
        if found { return; }
      }
      found := false;
    }

    /** GC_prev_block: the last block, free or allocated, that starts at or before h, or 0. */
    method PrevBlock(h: nat, ghost c: Config, ghost owner: Owner) returns (r: nat)
      requires Valid() && Shape(c, flat, owner)
      ensures r != 0 ==> r <= h && r in Headers(flat) && forall b :: b in Headers(flat) && b <= h ==> b <= r
      ensures r == 0 ==> forall b :: b in Headers(flat) ==> b > h
    {
      hide KeyOf, OffsetOf, Agrees, Hashed, Shape;
      var bi: Ref, j: int;
      ghost var pos: int;
      bi, j, pos := StartBefore(h, Headers(flat));
      while bi != Nil
        invariant -1 <= pos < |order| && bi == At(order, pos) && Behind(Headers(flat), h, pos, j) && j < bsz
        invariant bi != Nil ==> Address(bsz, bi.key, j) <= h && Address(bsz, bi.key, 0) <= h
        decreases pos
      {
        var found;
        found, j := ScanBack(h, bi.key, j, pos, c, owner);
        if found { return Address(bsz, bi.key, j); }
        BehindNext(Headers(flat), h, pos, j);
        PrevStart(h, pos);
        assert OrderNode(asc, desc, order, pos);
        bi := desc[bi.key];
        pos := pos - 1;
        j := bsz - 1;
      }
      r := 0;
    }

    lemma PrevStart(h: nat, pos: nat)
      requires Valid() && pos < |order| && Address(bsz, order[pos], 0) <= h
      ensures pos > 0 ==> Address(bsz, order[pos - 1], bsz - 1) <= h && Address(bsz, order[pos - 1], 0) <= h
    {
      if pos > 0 {
        assert order[pos] > order[pos - 1];
        assert (order[pos] - order[pos - 1]) * bsz == order[pos] * bsz - order[pos - 1] * bsz;
        Multiple(order[pos] - order[pos - 1], bsz);
      }
    }

    /** The allocated blocks of the bottom indices before the pos-th, and those of the pos-th behind position j. */
    ghost predicate VisitedUpTo(visited: seq<nat>, pos: nat, j: int)
      reads this`order, this`flat
    {
      && (forall k, l :: 0 <= k < l < |visited| ==> visited[k] != visited[l])
      && forall b :: b in visited <==> b in UsedBlocks(flat) && DoneWith(b, pos, j)
    }

    ghost predicate DoneWith(b: nat, pos: nat, j: int)
      reads this`order
    {
      || (pos < |order| && KeyOf(bsz, b) < order[pos]) || pos >= |order|
      || (pos < |order| && KeyOf(bsz, b) == order[pos] && b > Address(bsz, order[pos], j))
    }

    lemma VisitedSame(visited: seq<nat>, pos: nat, j: int, pos': nat, j': int)
      requires VisitedUpTo(visited, pos, j)
      requires forall b :: b in UsedBlocks(flat) ==> (DoneWith(b, pos, j) <==> DoneWith(b, pos', j'))
      ensures VisitedUpTo(visited, pos', j')
    {
    }

    /** At the end of a bottom index the next one begins. */
    lemma DoneNext(pos: nat, j: int, b: nat)
      requires Valid() && pos < |order| && j < 0 && b in flat
      ensures DoneWith(b, pos, j) <==> DoneWith(b, pos + 1, bsz - 1)
    {
      var q := Place(b);
      hide KeyOf;
      KeyBounds(bsz, b, order[pos]);
      if pos + 1 < |order| { KeyBounds(bsz, b, order[pos + 1]); }
    }

    lemma DoneFirst(b: nat)
      requires Valid() && b in flat
      ensures !DoneWith(b, 0, bsz - 1)
    {
      var q := Place(b);
      hide KeyOf;
      KeyBounds(bsz, b, order[0]);
    }

    /** Between two positions of a bottom index nothing is allocated, or just the block at the first one. */
    lemma DoneStep(pos: nat, j: nat, j': int, b: nat)
      requires Valid() && pos < |order| && j < bsz && j' < j && b in UsedBlocks(flat)
      requires !(Address(bsz, order[pos], j') < b < Address(bsz, order[pos], j))
      ensures b != Address(bsz, order[pos], j) ==> (DoneWith(b, pos, j) <==> DoneWith(b, pos, j'))
      ensures b == Address(bsz, order[pos], j) ==> !DoneWith(b, pos, j) && DoneWith(b, pos, j')
    {
      hide KeyOf;
      Joined(bsz, order[pos], j);
    }

    /** GC_apply_to_all_blocks, one bottom index: fn is applied to the blocks added to `visited`. */
    method VisitBottom(key: nat, visited0: seq<nat>, ghost pos: nat, ghost c: Config, ghost owner: Owner) returns (visited: seq<nat>)
      requires Valid() && Shape(c, flat, owner) && pos < |order| && order[pos] == key && VisitedUpTo(visited0, pos, bsz - 1)
      ensures VisitedUpTo(visited, pos + 1, bsz - 1)
    {
      hide KeyOf, Agrees, Hashed, Shape, DoneWith, UsedBlocks;
      assert key in order;
      visited := visited0;
      var j: int := bsz - 1;
      while j >= 0
        invariant j < bsz && VisitedUpTo(visited, pos, j)
      {
        visited, j := VisitSlot(key, j, visited, pos, c, owner);
      }
      forall b | b in UsedBlocks(flat) ensures DoneWith(b, pos, j) <==> DoneWith(b, pos + 1, bsz - 1) {
        UsedIsFlat(flat, b);
        DoneNext(pos, j, b);
      }
      VisitedSame(visited, pos, j, pos + 1, bsz - 1);
    }

    method VisitSlot(key: nat, j: nat, visited0: seq<nat>, ghost pos: nat, ghost c: Config, ghost owner: Owner) returns (visited: seq<nat>, j': int)
      requires Valid() && Shape(c, flat, owner) && pos < |order| && order[pos] == key && key in bottoms && j < bsz
      requires VisitedUpTo(visited0, pos, j)
      ensures VisitedUpTo(visited, pos, j') && j' < j
    {
      hide KeyOf, Agrees, Hashed, Shape, DoneWith, Ordered, Headers;
      var a := Address(bsz, key, j);
      SlotIs(key, j);
      var s := bottoms[key][j];
      visited := visited0;
      if s != Empty && !s.entry.Forward? {
        j' := j - 1;
        DoneSteps(pos, j, j');
        if s.entry.Used? {
          VisitedAdd(visited, pos, j, j');
          visited := visited + [a];
          return;
        }
      } else if s == Empty {
        j' := j - 1;
        DoneSteps(pos, j, j');
      } else {
        NoneSkipped(c, flat, owner, a);
        j' := j - s.entry.jump;
        UsedAreHeaders(flat);
        DoneSteps(pos, j, j');
      }
      assert a !in UsedBlocks(flat);
      VisitedSame(visited, pos, j, pos, j');
    }

    lemma VisitedAdd(visited: seq<nat>, pos: nat, j: nat, j': int)
      requires VisitedUpTo(visited, pos, j) && pos < |order| && Address(bsz, order[pos], j) in UsedBlocks(flat)
      requires forall b :: b in UsedBlocks(flat) ==> if b == Address(bsz, order[pos], j) then !DoneWith(b, pos, j) && DoneWith(b, pos, j')
                                                     else (DoneWith(b, pos, j) <==> DoneWith(b, pos, j'))
      ensures VisitedUpTo(visited + [Address(bsz, order[pos], j)], pos, j')
    {
      hide DoneWith, UsedBlocks;
      var a := Address(bsz, order[pos], j);
      assert a !in visited;
      assert forall b :: b in visited + [a] <==> b in visited || b == a;
    }

    lemma DoneSteps(pos: nat, j: nat, j': int)
      requires Valid() && pos < |order| && j < bsz && j' < j
      requires forall b :: b in UsedBlocks(flat) ==> !(Address(bsz, order[pos], j') < b < Address(bsz, order[pos], j))
      ensures forall b :: b in UsedBlocks(flat) ==> if b == Address(bsz, order[pos], j) then !DoneWith(b, pos, j) && DoneWith(b, pos, j')
                                                     else (DoneWith(b, pos, j) <==> DoneWith(b, pos, j'))
    {
      hide Valid, DoneWith, UsedBlocks, KeyOf;
      forall b | b in UsedBlocks(flat)
        ensures if b == Address(bsz, order[pos], j) then !DoneWith(b, pos, j) && DoneWith(b, pos, j')
                else (DoneWith(b, pos, j) <==> DoneWith(b, pos, j'))
      {
        DoneStep(pos, j, j', b);
      }
    }

    /** GC_apply_to_all_blocks: the blocks that fn is applied to, in this order. */
    method ApplyToAllBlocks(ghost c: Config, ghost owner: Owner) returns (visited: seq<nat>)
      requires Valid() && Shape(c, flat, owner)
      ensures forall k, l :: 0 <= k < l < |visited| ==> visited[k] != visited[l]
      ensures forall b :: b in visited <==> b in UsedBlocks(flat)
    {
      hide KeyOf, Agrees, Hashed, Shape, UsedBlocks;
      visited := [];
      var bi := first;
      ghost var pos: nat := 0;
      forall b | b in UsedBlocks(flat) ensures !DoneWith(b, 0, bsz - 1) || |order| == 0 {
        UsedIsFlat(flat, b);
        DoneFirst(b);
      }
      forall b | b in UsedBlocks(flat) ensures |order| > 0 { UsedIsFlat(flat, b); var q := Place(b); }
      while bi != Nil
        invariant pos <= |order| && bi == At(order, pos) && VisitedUpTo(visited, pos, bsz - 1)
        decreases |order| - pos
      {
        visited := VisitBottom(bi.key, visited, pos, c, owner);
        assert OrderNode(asc, desc, order, pos);
        bi := asc[bi.key];
        pos := pos + 1;
      }
    }
  }

  lemma UsedIsFlat(index: Index, b: nat)
    requires b in UsedBlocks(index)
    ensures b in index
  {
  }

  lemma UsedAreHeaders(index: Index)
    ensures UsedBlocks(index) <= Headers(index)
  {
  }

  ghost function Headers(index: Index): set<nat> {
    set b | b in index && !index[b].Forward?
  }

  /** A forwarding count skips no header. */
  lemma NoneSkipped(c: Config, index: Index, owner: Owner, a: nat)
    requires Shape(c, index, owner) && a in index && index[a].Forward?
    ensures index[a].jump > 0 && forall b :: b in Headers(index) ==> !(a - index[a].jump < b <= a)
  {
    assert CellOk(c, index, owner, a) && HeaderOk(c, index, owner, owner[a]);
    forall b | b in Headers(index) ensures !(a - index[a].jump < b <= a) {
      assert HeaderOk(c, index, owner, b);
    }
  }

  lemma HeadersPositive(c: Config, index: Index, owner: Owner, a: nat)
    requires Shape(c, index, owner) && a in index && !index[a].Forward?
    ensures a > 0 && a in Headers(index)
  {
    assert HeaderOk(c, index, owner, a);
  }

  lemma CountsNext(before: Index, c: Config, h: nat, n: nat)
    ensures Counts(c, h, 1) == map[]
    ensures n > 0 ==> before + Counts(c, h, n + 1) == (before + Counts(c, h, n))[h + n := Forward(Min(n, c.maxJump))]
  {
  }

  lemma NoneInFree(c: Config, index: Index, owner: Owner, a: nat)
    requires Shape(c, index, owner) && IsFree(index, a)
    ensures index[a].blocks > 0 && forall b :: b in UsedBlocks(index) ==> !(a <= b < a + index[a].blocks)
  {
    assert HeaderOk(c, index, owner, a);
    forall b | b in UsedBlocks(index) ensures !(a <= b < a + index[a].blocks) {
      assert HeaderOk(c, index, owner, b);
    }
  }

  lemma UsedPositive(c: Config, index: Index, owner: Owner, a: nat)
    requires Shape(c, index, owner) && a in UsedBlocks(index)
    ensures a > 0
  {
    assert HeaderOk(c, index, owner, a);
  }
}

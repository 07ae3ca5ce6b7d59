/** From an address inside an object to the object's base. */
module ObjectBases {
  import opened BlockIndexes
  import opened HeaderIndices

  /** Objects are aligned to words of this many bytes. */
  const WORD: nat := 8

  /** The number of the heap block that contains an address, and the first address of a block. */
  function BlockNo(c: Config, p: nat): nat
    requires c.Ok()
  {
    p / c.hblkSize
  }

  function StartOf(c: Config, h: nat): nat {
    h * c.hblkSize
  }

  function Rem(x: nat, n: nat): nat
    requires n > 0
  {
    x % n
  }

  /** An object with base o in allocated block h: a large one at its start, or one
      of the small ones that fit into it without crossing its end. */
  ghost predicate ObjectAt(c: Config, index: Index, h: nat, o: nat)
    requires c.Ok()
  {
    && h in index && index[h].Used? && index[h].bytes > 0
    && var sz := index[h].bytes;
       if sz > c.hblkSize then o == StartOf(c, h)
       else o >= StartOf(c, h) && Rem(o - StartOf(c, h), sz) == 0 && o + sz <= StartOf(c, h) + c.hblkSize
  }

  /** The same in plain numbers: a multiple of the object's size behind the start of the block. */
  lemma ObjectAtIs(c: Config, index: Index, h: nat, o: nat)
    requires c.Ok() && h in index && index[h].Used? && index[h].bytes > 0
    ensures var start, sz := h * c.hblkSize, index[h].bytes;
      ObjectAt(c, index, h, o) <==>
        if sz > c.hblkSize then o == start else exists k: nat :: o == start + k * sz && o + sz <= start + c.hblkSize
  {
    var start, sz := h * c.hblkSize, index[h].bytes;
    if o >= start { Quotient(o - start, sz); }
    if k: nat :| o == start + k * sz && o + sz <= start + c.hblkSize { QuotientIs(o - start, sz, k); }
  }

  ghost predicate Contains(c: Config, index: Index, h: nat, o: nat, p: nat)
    requires c.Ok()
  {
    ObjectAt(c, index, h, o) && o <= p < o + index[h].bytes
  }

  ghost predicate WordSized(c: Config, index: Index) {
    c.hblkSize % WORD == 0 && forall h :: h in index && index[h].Used? ==> index[h].bytes > 0 && index[h].bytes % WORD == 0
  }

  // ----- Arithmetic -----

  lemma Quotient(p: nat, b: nat)
    requires b > 0
    ensures (p / b) * b <= p < (p / b) * b + b && p % b == p - (p / b) * b
  {
  }

  lemma QuotientIs(p: nat, b: nat, q: nat)
    requires b > 0 && q * b <= p < q * b + b
    ensures p / b == q
  {
    Quotient(p, b);
    assert (q - p / b) * b == q * b - (p / b) * b;
    if p / b < q { Multiple(q - p / b, b); }
    if q < p / b { Multiple(p / b - q, b); }
  }

  lemma BlockNoBounds(c: Config, p: nat)
    requires c.Ok()
    ensures StartOf(c, BlockNo(c, p)) <= p < StartOf(c, BlockNo(c, p)) + c.hblkSize
    ensures Rem(p, c.hblkSize) == p - StartOf(c, BlockNo(c, p))
  {
    Quotient(p, c.hblkSize);
  }

  lemma BlockNoIs(c: Config, p: nat, h: nat)
    requires c.Ok() && StartOf(c, h) <= p < StartOf(c, h) + c.hblkSize
    ensures BlockNo(c, p) == h
  {
    QuotientIs(p, c.hblkSize, h);
  }

  lemma StartOrder(c: Config, h: nat, n: nat)
    requires c.Ok()
    ensures StartOf(c, h + n) == StartOf(c, h) + n * c.hblkSize
    ensures n > 0 ==> n * c.hblkSize >= c.hblkSize
  {
    if n > 0 { Multiple(n, c.hblkSize); }
  }

  lemma BlockNoWithin(c: Config, p: nat, h: nat, n: nat)
    requires c.Ok() && StartOf(c, h) <= p < StartOf(c, h + n)
    ensures h <= BlockNo(c, p) < h + n
  {
    hide BlockNo, StartOf;
    BlockNoBounds(c, p);
    var q := BlockNo(c, p);
    if q < h { StartOrder(c, q, h - q); }
    if q >= h + n { StartOrder(c, h + n, q - h - n); }
  }

  lemma StartWords(c: Config, h: nat)
    requires c.hblkSize % WORD == 0
    ensures StartOf(c, h) % WORD == 0
  {
    var m := c.hblkSize / WORD;
    assert c.hblkSize == WORD * m && h * (WORD * m) == WORD * (h * m);
  }

  lemma RemBounds(x: nat, n: nat)
    requires n > 0
    ensures Rem(x, n) < n && Rem(x, n) <= x && (x < n ==> Rem(x, n) == x)
    ensures Rem(x - Rem(x, n), n) == 0
  {
    Quotient(x, n);
    if x < n { QuotientIs(x, n, 0); }
    QuotientIs((x / n) * n, n, x / n);
    Quotient((x / n) * n, n);
  }

  lemma RemWords(x: nat, n: nat)
    requires n > 0 && Rem(x, n) == 0 && n % WORD == 0
    ensures x % WORD == 0
  {
    Quotient(x, n);
    var m := n / WORD;
    assert n == WORD * m && x == (x / n) * n;
    assert (x / n) * (WORD * m) == WORD * ((x / n) * m);
  }

  lemma MultiplesApart(x: nat, y: nat, n: nat)
    requires n > 0 && Rem(x, n) == 0 && Rem(y, n) == 0 && x < y + n && y < x + n
    ensures x == y
  {
    Quotient(x, n);
    Quotient(y, n);
    var i, j := x / n, y / n;
    assert i * n == x && j * n == y && (j - i) * n == y - x;
    if j > i { Multiple(j - i, n); }
    if j < i { Multiple(i - j, n); }
  }

  // ----- Objects and blocks -----

  /** Where objects lie: inside their block. */
  lemma ObjectInside(c: Config, index: Index, h: nat, o: nat, p: nat)
    requires c.Ok() && Contains(c, index, h, o, p)
    ensures StartOf(c, h) <= p < StartOf(c, h + Blocks(c, index[h].bytes))
    ensures index[h].bytes <= c.hblkSize ==> p < StartOf(c, h) + c.hblkSize
  {
    BlocksPositive(c, index[h].bytes);
    var n := Blocks(c, index[h].bytes);
    hide Blocks, StartOf, Rem;
    StartOrder(c, h, n);
  }

  lemma BlockCell(c: Config, index: Index, owner: Owner, h: nat, a: nat)
    requires Shape(c, index, owner) && h in index && index[h].Used? && h <= a < h + Blocks(c, index[h].bytes)
    ensures a in owner && owner[a] == h
  {
    hide Blocks;
    assert HeaderOk(c, index, owner, h);
  }

  /** The block number of an address inside an object belongs to the object's block. */
  lemma InObjectsBlock(c: Config, index: Index, owner: Owner, h: nat, o: nat, p: nat)
    requires Shape(c, index, owner) && Contains(c, index, h, o, p)
    ensures BlockNo(c, p) in owner && owner[BlockNo(c, p)] == h && h in index && index[h].Used?
    ensures index[h].bytes <= c.hblkSize ==> BlockNo(c, p) == h
  {
    hide Shape, Blocks, BlockNo, StartOf, Rem;
    ShapeConfig(c, index, owner);
    ObjectInside(c, index, h, o, p);
    BlockNoWithin(c, p, h, Blocks(c, index[h].bytes));
    BlockCell(c, index, owner, h, BlockNo(c, p));
    if index[h].bytes <= c.hblkSize { BlockNoIs(c, p, h); }
  }

  /** No address is in two objects. */
  lemma UniqueObject(c: Config, index: Index, owner: Owner, h: nat, o: nat, h': nat, o': nat, p: nat)
    requires Shape(c, index, owner) && Contains(c, index, h, o, p) && Contains(c, index, h', o', p)
    ensures h == h' && o == o'
  {
    hide Shape, BlockNo, StartOf, Rem;
    InObjectsBlock(c, index, owner, h, o, p);
    InObjectsBlock(c, index, owner, h', o', p);
    if index[h].bytes <= c.hblkSize {
      MultiplesApart(o - StartOf(c, h), o' - StartOf(c, h), index[h].bytes);
    }
  }

  lemma UsedCell(c: Config, index: Index, owner: Owner, a: nat)
    requires Shape(c, index, owner) && a in owner && owner[a] in index && index[owner[a]].Used?
    ensures a in index && !index[a].Free?
  {
    assert CellOk(c, index, owner, a) && HeaderOk(c, index, owner, owner[a]);
  }

  /** Block numbers that are not part of an allocated block are not part of an object. */
  lemma NoObject(c: Config, index: Index, owner: Owner, p: nat)
    requires Shape(c, index, owner) && (BlockNo(c, p) !in index || index[BlockNo(c, p)].Free?)
    ensures forall h, o :: !Contains(c, index, h, o, p)
  {
    hide Shape, Contains, BlockNo;
    ShapeConfig(c, index, owner);
    forall h, o ensures Contains(c, index, h, o, p) ==> BlockNo(c, p) in index && !index[BlockNo(c, p)].Free? {
      if h >= 0 && o >= 0 && Contains(c, index, h, o, p) {
        InObjectsBlock(c, index, owner, h, o, p);
        UsedCell(c, index, owner, BlockNo(c, p));
      }
    }
  }

  // ----- GC_base -----

  /** Follow forwarding counts from block number a inside an allocated block. */
  method FollowForward(x: HeaderIndex, a: nat, ghost c: Config, ghost owner: Owner) returns (h: nat, s: Slot)
    requires x.Valid() && Shape(c, x.flat, owner)
    ensures s == FlatLook(x.flat, h) && (s.Full? ==> !s.entry.Forward?) && h <= a
    ensures h == a || (a in owner && owner[a] == h && s.Full? && s.entry.Used?)
  {
    hide Shape;
    h := a;
    s := x.Hdr(h);
    while s.Full? && s.entry.Forward?
      invariant h <= a && s == FlatLook(x.flat, h)
      invariant h == a || (a in owner && h in owner && owner[h] == owner[a] && h in x.flat && owner[a] in x.flat && x.flat[owner[a]].Used?)
      decreases h
    {
      Backward(c, x.flat, owner, h);
      h := h - s.entry.jump;
      s := x.Hdr(h);
    }
    if h < a { OwnBlock(c, x.flat, owner, h); }
  }

  lemma Backward(c: Config, index: Index, owner: Owner, a: nat)
    requires Shape(c, index, owner) && a in index && index[a].Forward?
    ensures 0 < index[a].jump <= a && a in owner && owner[a] in index && index[owner[a]].Used?
    ensures var d := a - index[a].jump; d in index && d in owner && owner[d] == owner[a]
  {
    OwnHeader(c, index, owner, a);
    hide Shape;
    InsideBlock(c, index, owner, owner[a], a);
  }

  lemma OwnHeader(c: Config, index: Index, owner: Owner, a: nat)
    requires Shape(c, index, owner) && a in index
    ensures a in owner && CellOk(c, index, owner, a) && HeaderOk(c, index, owner, owner[a])
  {
  }

  /** A count inside a block leads to an earlier number of it. */
  lemma InsideBlock(c: Config, index: Index, owner: Owner, b: nat, a: nat)
    requires c.Ok() && a in index && index[a].Forward? && Header(index, b) && HeaderOk(c, index, owner, b)
    requires b <= a < b + Extent(c, index[b])
    ensures index[b].Used? && 0 < index[a].jump <= a - b
    ensures var d := a - index[a].jump; d in index && d in owner && owner[d] == b
  {
  }

  lemma OwnBlock(c: Config, index: Index, owner: Owner, h: nat)
    requires Shape(c, index, owner) && Header(index, h)
    ensures h in owner && owner[h] == h && h > 0
  {
    assert HeaderOk(c, index, owner, h);
  }

  /** A block with more than one block number holds one large object. */
  lemma LongBlock(c: Config, index: Index, owner: Owner, h: nat, a: nat)
    requires Shape(c, index, owner) && h in index && index[h].Used? && a in owner && owner[a] == h && a > h
    ensures index[h].bytes > c.hblkSize
  {
    assert CellOk(c, index, owner, a);
    if index[h].bytes <= c.hblkSize { OneBlock(c, index[h].bytes); }
  }

  lemma OneBlock(c: Config, sz: nat)
    requires c.Ok() && sz <= c.hblkSize
    ensures Blocks(c, sz) <= 1
  {
    var n := Blocks(c, sz);
    if n > 1 { Multiple(n - 1, c.hblkSize); }
  }

  /** What GC_base computes from the address it has moved to and the object size it has found. */
  function BaseFrom(c: Config, start: nat, sz: nat): nat
    requires c.Ok() && sz > 0
  {
    var aligned := start - start % WORD;
    RemBounds(aligned, c.hblkSize);
    RemBounds(Rem(aligned, c.hblkSize), sz);
    aligned - Rem(Rem(aligned, c.hblkSize), sz)
  }

  predicate Fits(c: Config, h: nat, base: nat, sz: nat, p: nat) {
    !(base + sz > StartOf(c, h) + c.hblkSize && sz <= c.hblkSize) && p < base + sz
  }

  /** GC_base: the base of the object that contains p, or 0.  block is the object's block. */
  method Base(x: HeaderIndex, c: Config, p: nat, ghost owner: Owner) returns (r: nat, ghost block: nat)
    requires x.Valid() && Shape(c, x.flat, owner) && WordSized(c, x.flat)
    ensures c.Ok() && (r != 0 ==> Contains(c, x.flat, block, r, p))
    ensures r == 0 ==> forall h, o :: !Contains(c, x.flat, h, o, p)
  {
    hide Shape, Contains, BaseFrom, Fits, BlockNo, StartOf;
    ShapeConfig(c, x.flat, owner);
    r, block := 0, 0;
    var a := BlockNo(c, p);
    var h, s := FollowForward(x, a, c, owner);
    if s == Empty || s.entry.Free? {
      NoObject(c, x.flat, owner, p);
      return;
    }
    var sz := s.entry.bytes;
    var base := BaseFrom(c, if h == a then p else StartOf(c, h), sz);
    if h == a {
      NearStart(c, x.flat, owner, h, p);
    } else {
      LongBlock(c, x.flat, owner, h, a);
      FarInside(c, x.flat, owner, h, p);
    }
    if Fits(c, h, base, sz, p) {
      BasePositive(c, x.flat, owner, h, base, p);
      r, block := base, h;
    }
  }

  lemma BasePositive(c: Config, index: Index, owner: Owner, h: nat, o: nat, p: nat)
    requires Shape(c, index, owner) && Contains(c, index, h, o, p)
    ensures o > 0
  {
    OwnBlock(c, index, owner, h);
    Multiple(h, c.hblkSize);
  }

  /** The address is in the first block number of the object's block. */
  lemma NearBase(c: Config, h: nat, sz: nat, p: nat)
    requires c.Ok() && sz > 0 && c.hblkSize % WORD == 0 && sz % WORD == 0 && h == BlockNo(c, p)
    ensures var base := BaseFrom(c, p, sz); var start := StartOf(c, h);
      && start <= base <= p && Rem(base - start, sz) == 0 && (sz > c.hblkSize ==> base == start)
      && p < start + c.hblkSize && p - p % WORD < base + sz
  {
    hide StartOf, BlockNo, Rem;
    var aligned := p - p % WORD;
    BlockNoBounds(c, p);
    StartWords(c, h);
    BlockNoIs(c, aligned, h);
    BlockNoBounds(c, aligned);
    RemBounds(aligned - StartOf(c, h), sz);
  }

  /** An object in block h that contains p starts where GC_base says. */
  lemma NearUnique(c: Config, h: nat, sz: nat, p: nat, o: nat)
    requires c.Ok() && sz > 0 && c.hblkSize % WORD == 0 && sz % WORD == 0 && h == BlockNo(c, p)
    requires o >= StartOf(c, h) && Rem(o - StartOf(c, h), sz) == 0 && o <= p < o + sz
    ensures o == BaseFrom(c, p, sz)
  {
    hide StartOf, BlockNo, Rem, BaseFrom;
    NearBase(c, h, sz, p);
    RemWords(o - StartOf(c, h), sz);
    StartWords(c, h);
    MultiplesApart(o - StartOf(c, h), BaseFrom(c, p, sz) - StartOf(c, h), sz);
  }

  lemma NearStart(c: Config, index: Index, owner: Owner, h: nat, p: nat)
    requires Shape(c, index, owner) && WordSized(c, index) && h == BlockNo(c, p) && h in index && index[h].Used?
    ensures var base := BaseFrom(c, p, index[h].bytes); var fits := Fits(c, h, base, index[h].bytes, p);
      (fits ==> Contains(c, index, h, base, p)) && (!fits ==> forall g, o :: !Contains(c, index, g, o, p))
  {
    hide Shape, BaseFrom, StartOf, BlockNo, Rem;
    ShapeConfig(c, index, owner);
    OwnBlock(c, index, owner, h);
    var sz := index[h].bytes;
    var base := BaseFrom(c, p, sz);
    NearBase(c, h, sz, p);
    forall g, o ensures Contains(c, index, g, o, p) ==> Fits(c, h, base, sz, p) {
      if g >= 0 && o >= 0 && Contains(c, index, g, o, p) {
        InObjectsBlock(c, index, owner, g, o, p);
        if sz <= c.hblkSize { NearUnique(c, h, sz, p, o); }
      }
    }
  }

  lemma FarBase(c: Config, h: nat, sz: nat)
    requires c.Ok() && c.hblkSize % WORD == 0 && sz > 0
    ensures BaseFrom(c, StartOf(c, h), sz) == StartOf(c, h)
  {
    hide StartOf, BlockNo, Rem;
    StartWords(c, h);
    BlockNoIs(c, StartOf(c, h), h);
    BlockNoBounds(c, StartOf(c, h));
    RemBounds(0, sz);
  }

  /** The address is behind the first block number of a large object's block. */
  lemma FarInside(c: Config, index: Index, owner: Owner, h: nat, p: nat)
    requires Shape(c, index, owner) && WordSized(c, index) && h in index && index[h].Used? && index[h].bytes > c.hblkSize
    requires var a := BlockNo(c, p); h < a && a in owner && owner[a] == h
    ensures var base := BaseFrom(c, StartOf(c, h), index[h].bytes); var fits := Fits(c, h, base, index[h].bytes, p);
      (fits ==> Contains(c, index, h, base, p)) && (!fits ==> forall g, o :: !Contains(c, index, g, o, p))
  {
    hide Shape, BaseFrom, StartOf, BlockNo, Rem;
    ShapeConfig(c, index, owner);
    FarBase(c, h, index[h].bytes);
    BlockNoBounds(c, p);
    StartOrder(c, h, BlockNo(c, p) - h);
    forall g, o ensures Contains(c, index, g, o, p) ==> Fits(c, h, StartOf(c, h), index[h].bytes, p) {
      if g >= 0 && o >= 0 && Contains(c, index, g, o, p) { InObjectsBlock(c, index, owner, g, o, p); }
    }
  }
}

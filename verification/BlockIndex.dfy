/** The address map of the block allocator: for every heap block number a header,
    a forwarding count leading towards one, or nothing. */
module BlockIndexes {

  /** A header says how many heap blocks are free here, or the size in bytes of the
      objects (or the one large object) in an allocated block.  A forwarding count
      says how far back to look for the header of an allocated block. */
  datatype Entry = Forward(jump: nat) | Free(blocks: nat) | Used(bytes: nat)

  /** HBLKSIZE in bytes and the largest forwarding count. */
  datatype Config = Config(hblkSize: nat, maxJump: nat) {
    predicate Ok() { hblkSize > 0 && maxJump > 0 }
  }

  type Index = map<nat, Entry>

  /** The block each block number of the heap belongs to. */
  type Owner = map<nat, nat>

  /** OBJ_SZ_TO_BLOCKS. */
  function Blocks(c: Config, bytes: nat): (n: nat)
    requires c.Ok()
    ensures bytes <= n * c.hblkSize && (n > 0 ==> (n - 1) * c.hblkSize < bytes)
  {
    var n := (bytes + c.hblkSize - 1) / c.hblkSize;
    QuotientBounds(bytes + c.hblkSize - 1, c.hblkSize);
    n
  }

  lemma QuotientBounds(a: nat, b: nat)
    requires b > 0
    ensures (a / b) * b <= a < (a / b) * b + b
  {
  }

  lemma BlocksPositive(c: Config, bytes: nat)
    requires c.Ok() && bytes > 0
    ensures Blocks(c, bytes) > 0
  {
  }

  lemma MultipleOrder(a: nat, b: nat, k: nat)
    requires k > 0
    ensures a * k <= b * k ==> a <= b
    ensures (a - 1) * k < (b - 1) * k ==> a < b
  {
    if b < a {
      assert a * k == b * k + (a - b) * k && (a - b) * k > 0;
    }
    if b <= a {
      assert (a - 1) * k == (b - 1) * k + (a - b) * k && (a - b) * k >= 0;
    }
  }

  /** A whole number of blocks is that number of blocks. */
  lemma BlocksExact(c: Config, n: nat)
    requires c.Ok()
    ensures Blocks(c, n * c.hblkSize) == n
  {
    var m, k := Blocks(c, n * c.hblkSize), c.hblkSize;
    MultipleOrder(n, m, k);
    if m > 0 { MultipleOrder(m, n + 1, k); }
  }

  function Extent(c: Config, e: Entry): nat
    requires c.Ok()
  {
    match e
    case Forward(_) => 0
    case Free(n) => n
    case Used(bytes) => Blocks(c, bytes)
  }

  function Min(a: nat, b: nat): nat {
    if a < b then a else b
  }

  predicate Header(index: Index, b: nat) {
    b in index && !index[b].Forward?
  }

  // ----- The shape of the map -----

  /** Block numbers of a block all belong to it; inside an allocated block they
      hold capped forwarding counts, inside a free one nothing. */
  ghost predicate HeaderOk(c: Config, index: Index, owner: Owner, b: nat)
    requires c.Ok() && Header(index, b)
  {
    && b > 0 && Extent(c, index[b]) > 0
    && (forall a :: b <= a < b + Extent(c, index[b]) ==> a in owner && owner[a] == b)
    && (forall a :: b < a < b + Extent(c, index[b]) ==>
          if index[b].Used? then a in index && index[a] == Forward(Min(a - b, c.maxJump)) else a !in index)
  }

  /** Block number a belongs to a block. */
  ghost predicate CellOk(c: Config, index: Index, owner: Owner, a: nat)
    requires c.Ok() && a in owner
  {
    Header(index, owner[a]) && owner[a] <= a < owner[a] + Extent(c, index[owner[a]])
  }

  /** The blocks tile the heap, which consists of the block numbers in owner. */
  ghost predicate Shape(c: Config, index: Index, owner: Owner) {
    && c.Ok()
    && (forall b :: Header(index, b) ==> HeaderOk(c, index, owner, b))
    && (forall a :: a in owner ==> CellOk(c, index, owner, a))
    && (forall a :: a in index ==> a in owner)
  }

  function IsFree(index: Index, b: nat): bool {
    b in index && index[b].Free?
  }

  ghost function FreeCells(index: Index, owner: Owner): set<nat> {
    set a | a in owner && IsFree(index, owner[a])
  }

  predicate Within(a: nat, b: nat, n: nat) {
    b <= a < b + n
  }

  function Cells(b: nat, n: nat): (cells: set<nat>)
    ensures forall a :: a in cells <==> Within(a, b, n)
  {
    set a: nat | b <= a < b + n && Within(a, b, n)
  }

  lemma {:induction false} CellsCount(b: nat, n: nat)
    ensures |Cells(b, n)| == n
  {
    if n > 0 {
      CellsCount(b, n - 1);
      assert Cells(b, n) == Cells(b, n - 1) + {b + n - 1};
    }
  }

  /** The allocated blocks. */
  ghost function UsedBlocks(index: Index): set<nat> {
    set b | b in index && index[b].Used?
  }

  /** Free block d starts where free block b ends. */
  ghost predicate Meet(index: Index, b: nat, d: nat) {
    IsFree(index, b) && IsFree(index, d) && b + index[b].blocks == d
  }

  /** No two free blocks are next to each other. */
  ghost predicate Coalesced(index: Index) {
    forall b, d :: !Meet(index, b, d)
  }

  /** Two blocks that share a block number are the same. */
  lemma SameBlock(c: Config, index: Index, owner: Owner, b: nat, d: nat, a: nat)
    requires Shape(c, index, owner) && Header(index, b) && Header(index, d)
    requires b <= a < b + Extent(c, index[b]) && d <= a < d + Extent(c, index[d])
    ensures b == d
  {
    assert HeaderOk(c, index, owner, b) && HeaderOk(c, index, owner, d);
  }

  // ----- How operations change the map -----

  /** Nothing changes outside the n block numbers from h on, which are whole blocks before. */
  ghost predicate SameOutside(index: Index, owner: Owner, index': Index, owner': Owner, h: nat, n: nat) {
    && (forall a: nat :: !Within(a, h, n) ==> (a in index <==> a in index') && (a in owner <==> a in owner'))
    && (forall a :: a in index && !Within(a, h, n) ==> index'[a] == index[a])
    && (forall a :: a in owner && !Within(a, h, n) ==> owner'[a] == owner[a])
    && (forall a :: a in owner ==> (Within(a, h, n) <==> Within(owner[a], h, n)))
  }

  ghost predicate ShapeWithin(c: Config, index: Index, owner: Owner, h: nat, n: nat) {
    && c.Ok()
    && (forall b :: Header(index, b) && Within(b, h, n) ==> HeaderOk(c, index, owner, b))
    && (forall a :: a in owner && Within(a, h, n) ==> CellOk(c, index, owner, a))
    && (forall a :: a in index && Within(a, h, n) ==> a in owner)
  }

  lemma LocalChange(c: Config, index: Index, owner: Owner, index': Index, owner': Owner, h: nat, n: nat)
    requires Shape(c, index, owner) && SameOutside(index, owner, index', owner', h, n) && ShapeWithin(c, index', owner', h, n)
    ensures Shape(c, index', owner')
    ensures FreeCells(index', owner') - Cells(h, n) == FreeCells(index, owner) - Cells(h, n)
  {
    hide HeaderOk, CellOk, Within, IsFree;
    forall b | Header(index', b) ensures HeaderOk(c, index', owner', b) {
      if !Within(b, h, n) { HeaderKept(c, index, owner, index', owner', h, n, b); }
    }
    forall a | a in owner' ensures CellOk(c, index', owner', a) {
      if !Within(a, h, n) { CellKept(c, index, owner, index', owner', h, n, a); }
    }
    forall a | a in owner && !Within(a, h, n) ensures IsFree(index', owner'[a]) == IsFree(index, owner[a]) {
      CellKept(c, index, owner, index', owner', h, n, a);
    }
  }

  lemma CellKept(c: Config, index: Index, owner: Owner, index': Index, owner': Owner, h: nat, n: nat, a: nat)
    requires Shape(c, index, owner) && SameOutside(index, owner, index', owner', h, n)
    requires a in owner && !Within(a, h, n)
    ensures a in owner' && owner'[a] == owner[a] && CellOk(c, index', owner', a) && IsFree(index', owner[a]) == IsFree(index, owner[a])
  {
    hide HeaderOk;
    assert CellOk(c, index, owner, a);
  }

  lemma HeaderKept(c: Config, index: Index, owner: Owner, index': Index, owner': Owner, h: nat, n: nat, b: nat)
    requires Shape(c, index, owner) && SameOutside(index, owner, index', owner', h, n)
    requires Header(index, b) && !Within(b, h, n)
    ensures Header(index', b) && HeaderOk(c, index', owner', b)
  {
    assert HeaderOk(c, index, owner, b);
    forall a: nat | Within(a, b, Extent(c, index[b])) ensures a in owner && owner[a] == b && !Within(a, h, n) { }
    forall a: nat | b < a < b + Extent(c, index'[b])
      ensures if index'[b].Used? then a in index' && index'[a] == Forward(Min(a - b, c.maxJump)) else a !in index'
    {
      assert Within(a, b, Extent(c, index[b]));
    }
  }

  lemma FreeRange(index: Index, owner: Owner, h: nat, n: nat, b: nat)
    requires OwnedBy(owner, h, n, b)
    ensures IsFree(index, b) ==> Cells(h, n) <= FreeCells(index, owner)
    ensures !IsFree(index, b) ==> Cells(h, n) !! FreeCells(index, owner)
  {
  }

  ghost predicate OwnedBy(owner: Owner, h: nat, n: nat, b: nat) {
    forall a: nat :: Within(a, h, n) ==> a in owner && owner[a] == b
  }

  lemma SetsAgree(s: set<nat>, t: set<nat>, part: set<nat>)
    requires s - part == t - part
    ensures part <= s && part <= t ==> s == t
    ensures part <= s && part !! t ==> s == t + part && t == s - part
  {
    assert part <= s ==> s == (s - part) + part;
    assert part <= t ==> t == (t - part) + part;
    assert part !! t ==> t == t - part;
  }

  /** The block numbers of a block are whole blocks, and there is nothing but it there. */
  lemma BlockIsWhole(c: Config, index: Index, owner: Owner, b: nat)
    requires Shape(c, index, owner) && Header(index, b)
    ensures HeaderOk(c, index, owner, b) && OwnedBy(owner, b, Extent(c, index[b]), b)
    ensures forall a :: a in owner ==> (Within(a, b, Extent(c, index[b])) <==> owner[a] == b)
    ensures forall a :: a in owner ==> (Within(owner[a], b, Extent(c, index[b])) <==> owner[a] == b)
  {
    assert HeaderOk(c, index, owner, b);
    forall a | a in owner
      ensures Within(a, b, Extent(c, index[b])) <==> owner[a] == b
      ensures Within(owner[a], b, Extent(c, index[b])) <==> owner[a] == b
    {
      assert CellOk(c, index, owner, a);
      if Within(owner[a], b, Extent(c, index[b])) { SameBlock(c, index, owner, b, owner[a], owner[a]); }
    }
  }

  /** A change of the n block numbers from h on that keeps the shape. */
  ghost predicate Local(c: Config, index: Index, owner: Owner, index': Index, owner': Owner, h: nat, n: nat) {
    SameOutside(index, owner, index', owner', h, n) && ShapeWithin(c, index', owner', h, n)
  }

  /** Block numbers b to b + n - 1 of the heap now belong to block `to`. */
  ghost function Reowned(owner: Owner, b: nat, n: nat, to: nat): Owner {
    map a | a in owner :: if Within(a, b, n) then to else owner[a]
  }

  // ----- A free block is divided -----

  ghost function Divided(index: Index, h: nat, k: nat): Index
    requires IsFree(index, h) && 0 < k < index[h].blocks
  {
    index[h := Free(k)][h + k := Free(index[h].blocks - k)]
  }

  lemma DividedWithin(c: Config, index: Index, owner: Owner, h: nat, k: nat)
    requires c.Ok() && IsFree(index, h) && 0 < k < index[h].blocks && HeaderOk(c, index, owner, h)
    requires OwnedBy(owner, h, index[h].blocks, h)
    ensures ShapeWithin(c, Divided(index, h, k), Reowned(owner, h + k, index[h].blocks - k, h + k), h, index[h].blocks)
  {
    var t := index[h].blocks;
    var index', owner' := Divided(index, h, k), Reowned(owner, h + k, t - k, h + k);
    assert Extent(c, index[h]) == t && Extent(c, index'[h]) == k && Extent(c, index'[h + k]) == t - k;
    assert forall a :: h < a < h + t && a != h + k ==> a !in index';
    assert HeaderOk(c, index', owner', h) && HeaderOk(c, index', owner', h + k);
    forall a | a in owner' && Within(a, h, t) ensures CellOk(c, index', owner', a) {
      assert owner'[a] == if a < h + k then h else h + k;
    }
  }

  lemma DividedOutside(c: Config, index: Index, owner: Owner, h: nat, k: nat)
    requires IsFree(index, h) && 0 < k < index[h].blocks && OwnedBy(owner, h, index[h].blocks, h)
    requires forall a :: a in owner ==> (Within(owner[a], h, index[h].blocks) <==> owner[a] == h)
    requires forall a :: a in owner ==> (Within(a, h, index[h].blocks) <==> owner[a] == h)
    ensures SameOutside(index, owner, Divided(index, h, k), Reowned(owner, h + k, index[h].blocks - k, h + k), h, index[h].blocks)
  {
  }

  lemma DividedLocal(c: Config, index: Index, owner: Owner, h: nat, k: nat)
    requires Shape(c, index, owner) && IsFree(index, h) && 0 < k < index[h].blocks
    ensures var t := index[h].blocks; var owner' := Reowned(owner, h + k, t - k, h + k);
      && h + k !in index && Local(c, index, owner, Divided(index, h, k), owner', h, t)
      && OwnedBy(owner, h, t, h) && OwnedBy(owner', h, k, h) && OwnedBy(owner', h + k, t - k, h + k)
  {
    hide Shape, FreeCells, ShapeWithin, Divided;
    BlockIsWhole(c, index, owner, h);
    ShapeConfig(c, index, owner);
    assert Within(h + k, h, index[h].blocks);
    DividedWithin(c, index, owner, h, k);
    DividedOutside(c, index, owner, h, k);
  }

  lemma ShapeConfig(c: Config, index: Index, owner: Owner)
    requires Shape(c, index, owner)
    ensures c.Ok()
  {
  }

  lemma DividedShape(c: Config, index: Index, owner: Owner, h: nat, k: nat)
    requires Shape(c, index, owner) && IsFree(index, h) && 0 < k < index[h].blocks
    ensures h + k !in index
    ensures Shape(c, Divided(index, h, k), Reowned(owner, h + k, index[h].blocks - k, h + k))
    ensures FreeCells(Divided(index, h, k), Reowned(owner, h + k, index[h].blocks - k, h + k)) == FreeCells(index, owner)
  {
    hide Shape, FreeCells, SameOutside, ShapeWithin, Reowned, OwnedBy;
    var t := index[h].blocks;
    var index', owner' := Divided(index, h, k), Reowned(owner, h + k, t - k, h + k);
    DividedLocal(c, index, owner, h, k);
    LocalChange(c, index, owner, index', owner', h, t);
    FreeRange(index, owner, h, t, h);
    FreeRange(index', owner', h, k, h);
    FreeRange(index', owner', h + k, t - k, h + k);
    assert Cells(h, t) == Cells(h, k) + Cells(h + k, t - k);
    SetsAgree(FreeCells(index, owner), FreeCells(index', owner'), Cells(h, t));
  }

  // ----- Two free blocks are merged -----

  ghost function Merged(index: Index, b: nat): Index
    requires IsFree(index, b)
    requires IsFree(index, b + index[b].blocks)
  {
    var d := b + index[b].blocks;
    (index - {d})[b := Free(index[b].blocks + index[d].blocks)]
  }

  lemma MergedWithin(c: Config, index: Index, owner: Owner, b: nat, n: nat, d: nat, m: nat)
    requires c.Ok() && IsFree(index, b) && IsFree(index, d) && index[b] == Free(n) && d == b + n && index[d] == Free(m)
    requires HeaderOk(c, index, owner, b) && HeaderOk(c, index, owner, d)
    ensures ShapeWithin(c, Merged(index, b), Reowned(owner, d, m, b), b, n + m)
  {
    var index', owner' := Merged(index, b), Reowned(owner, d, m, b);
    assert HeaderOk(c, index', owner', b);
    assert forall e :: Header(index', e) && Within(e, b, n + m) ==> e == b;
    assert forall a :: a in owner' && Within(a, b, n + m) ==> CellOk(c, index', owner', a);
  }

  lemma MergedOutside(index: Index, owner: Owner, b: nat, n: nat, d: nat, m: nat)
    requires IsFree(index, b) && IsFree(index, d) && index[b] == Free(n) && d == b + n && index[d] == Free(m) && n > 0 && m > 0
    requires OwnedBy(owner, b, n, b) && OwnedBy(owner, d, m, d)
    requires forall a :: a in owner ==> (Within(a, b, n) <==> owner[a] == b) && (Within(a, d, m) <==> owner[a] == d)
    requires forall a :: a in owner ==> (Within(owner[a], b, n) <==> owner[a] == b) && (Within(owner[a], d, m) <==> owner[a] == d)
    ensures SameOutside(index, owner, Merged(index, b), Reowned(owner, d, m, b), b, n + m)
  {
    assert forall a: nat :: Within(a, b, n + m) <==> Within(a, b, n) || Within(a, d, m);
  }

  lemma MergedLocal(c: Config, index: Index, owner: Owner, b: nat, n: nat, d: nat, m: nat)
    requires IsFree(index, b) && IsFree(index, d) && index[b] == Free(n) && d == b + n && index[d] == Free(m)
    requires Shape(c, index, owner)
    ensures d != b && Local(c, index, owner, Merged(index, b), Reowned(owner, d, m, b), b, n + m)
    ensures OwnedBy(owner, b, n, b) && OwnedBy(owner, d, m, d) && OwnedBy(Reowned(owner, d, m, b), b, n + m, b)
  {
    hide Shape, FreeCells, ShapeWithin, Merged;
    ShapeConfig(c, index, owner);
    BlockIsWhole(c, index, owner, b);
    BlockIsWhole(c, index, owner, d);
    assert forall a: nat :: Within(a, b, n + m) <==> Within(a, b, n) || Within(a, d, m);
    MergedWithin(c, index, owner, b, n, d, m);
    MergedOutside(index, owner, b, n, d, m);
  }

  lemma MergedShape(c: Config, index: Index, owner: Owner, b: nat, n: nat, d: nat, m: nat)
    requires IsFree(index, b) && IsFree(index, d) && index[b] == Free(n) && d == b + n && index[d] == Free(m)
    requires Shape(c, index, owner)
    ensures d != b && Shape(c, Merged(index, b), Reowned(owner, d, m, b))
    ensures FreeCells(Merged(index, b), Reowned(owner, d, m, b)) == FreeCells(index, owner)
  {
    hide Shape, FreeCells, SameOutside, ShapeWithin, Reowned, OwnedBy;
    var index', owner' := Merged(index, b), Reowned(owner, d, m, b);
    MergedLocal(c, index, owner, b, n, d, m);
    LocalChange(c, index, owner, index', owner', b, n + m);
    FreeRange(index', owner', b, n + m, b);
    FreeRange(index, owner, b, n, b);
    FreeRange(index, owner, d, m, d);
    assert Cells(b, n + m) == Cells(b, n) + Cells(d, m);
    SetsAgree(FreeCells(index, owner), FreeCells(index', owner'), Cells(b, n + m));
  }

  // ----- A free block is allocated -----

  ghost function Inside(h: nat, n: nat): (cells: set<nat>)
    ensures forall a :: a in cells <==> a != h && Within(a, h, n)
  {
    Cells(h, n) - {h}
  }

  /** The forwarding counts inside a block of n blocks at h. */
  ghost function Counts(c: Config, h: nat, n: nat): Index {
    map a | a in Inside(h, n) :: Forward(Min(a - h, c.maxJump))
  }

  ghost function Allocated(c: Config, index: Index, h: nat, bytes: nat): Index
    requires c.Ok()
  {
    (index + Counts(c, h, Blocks(c, bytes)))[h := Used(bytes)]
  }

  lemma AllocatedWithin(c: Config, index: Index, owner: Owner, h: nat, bytes: nat, n: nat)
    requires c.Ok() && n == Blocks(c, bytes) && index == index + map[h := Free(n)] && HeaderOk(c, index, owner, h)
    requires forall a :: a in owner ==> (Within(a, h, n) <==> owner[a] == h)
    ensures ShapeWithin(c, Allocated(c, index, h, bytes), owner, h, n)
  {
    hide Blocks;
    var index' := Allocated(c, index, h, bytes);
    assert forall a: nat :: Within(a, h, n) && a != h ==> index'[a] == Forward(Min(a - h, c.maxJump));
    assert HeaderOk(c, index', owner, h);
    assert forall b :: Header(index', b) && Within(b, h, n) ==> b == h;
  }

  lemma AllocatedOutside(c: Config, index: Index, owner: Owner, h: nat, bytes: nat, n: nat)
    requires c.Ok() && n == Blocks(c, bytes) && n > 0 && h in index
    requires forall a :: a in owner ==> (Within(a, h, n) <==> owner[a] == h) && (Within(owner[a], h, n) <==> owner[a] == h)
    ensures SameOutside(index, owner, Allocated(c, index, h, bytes), owner, h, n)
  {
    hide Blocks;
  }

  lemma AllocatedLocal(c: Config, index: Index, owner: Owner, h: nat, bytes: nat)
    requires Shape(c, index, owner) && IsFree(index, h) && index[h].blocks == Blocks(c, bytes)
    ensures Local(c, index, owner, Allocated(c, index, h, bytes), owner, h, Blocks(c, bytes))
    ensures OwnedBy(owner, h, Blocks(c, bytes), h)
  {
    hide Shape, FreeCells, Blocks, ShapeWithin, SameOutside, Allocated;
    ShapeConfig(c, index, owner);
    var n := Blocks(c, bytes);
    BlockIsWhole(c, index, owner, h);
    AllocatedWithin(c, index, owner, h, bytes, n);
    AllocatedOutside(c, index, owner, h, bytes, n);
  }

  lemma AllocatedShape(c: Config, index: Index, owner: Owner, h: nat, bytes: nat)
    requires Shape(c, index, owner) && IsFree(index, h) && index[h].blocks == Blocks(c, bytes)
    ensures Shape(c, Allocated(c, index, h, bytes), owner)
    ensures FreeCells(Allocated(c, index, h, bytes), owner) == FreeCells(index, owner) - Cells(h, Blocks(c, bytes))
    ensures Cells(h, Blocks(c, bytes)) <= FreeCells(index, owner)
  {
    ShapeConfig(c, index, owner);
    hide Shape, FreeCells, SameOutside, ShapeWithin, OwnedBy, Blocks;
    var n := Blocks(c, bytes);
    var index' := Allocated(c, index, h, bytes);
    AllocatedLocal(c, index, owner, h, bytes);
    LocalChange(c, index, owner, index', owner, h, n);
    FreeRange(index, owner, h, n, h);
    FreeRange(index', owner, h, n, h);
    SetsAgree(FreeCells(index, owner), FreeCells(index', owner), Cells(h, n));
  }

  // ----- An allocated block is freed -----

  ghost function Freed(c: Config, index: Index, h: nat): Index
    requires c.Ok() && h in index && index[h].Used?
  {
    (index - Inside(h, Blocks(c, index[h].bytes)))[h := Free(Blocks(c, index[h].bytes))]
  }

  lemma FreedWithin(c: Config, index: Index, owner: Owner, h: nat, n: nat)
    requires c.Ok() && h in index && index[h].Used? && n == Blocks(c, index[h].bytes) && HeaderOk(c, index, owner, h)
    requires forall a :: a in owner ==> (Within(a, h, n) <==> owner[a] == h)
    ensures ShapeWithin(c, Freed(c, index, h), owner, h, n)
  {
    hide Blocks;
    var index' := Freed(c, index, h);
    assert HeaderOk(c, index', owner, h);
    assert forall b :: Header(index', b) && Within(b, h, n) ==> b == h;
    assert forall a :: a in owner && Within(a, h, n) ==> CellOk(c, index', owner, a);
  }

  lemma FreedLocal(c: Config, index: Index, owner: Owner, h: nat)
    requires Shape(c, index, owner) && h in index && index[h].Used?
    ensures Local(c, index, owner, Freed(c, index, h), owner, h, Blocks(c, index[h].bytes))
    ensures OwnedBy(owner, h, Blocks(c, index[h].bytes), h)
  {
    hide Shape, FreeCells, Blocks, ShapeWithin;
    ShapeConfig(c, index, owner);
    BlockIsWhole(c, index, owner, h);
    FreedWithin(c, index, owner, h, Blocks(c, index[h].bytes));
  }

  lemma FreedShape(c: Config, index: Index, owner: Owner, h: nat)
    requires Shape(c, index, owner) && h in index && index[h].Used?
    ensures Shape(c, Freed(c, index, h), owner)
    ensures FreeCells(Freed(c, index, h), owner) == FreeCells(index, owner) + Cells(h, Blocks(c, index[h].bytes))
    ensures FreeCells(index, owner) !! Cells(h, Blocks(c, index[h].bytes))
  {
    ShapeConfig(c, index, owner);
    hide Shape, FreeCells, SameOutside, ShapeWithin, OwnedBy, Blocks;
    var n := Blocks(c, index[h].bytes); var index' := Freed(c, index, h);
    FreedLocal(c, index, owner, h);
    LocalChange(c, index, owner, index', owner, h, n);
    FreeRange(index, owner, h, n, h);
    FreeRange(index', owner, h, n, h);
    SetsAgree(FreeCells(index', owner), FreeCells(index, owner), Cells(h, n));
  }

  // ----- A section is added -----

  ghost function Added(owner: Owner, p: nat, n: nat): Owner {
    owner + map a | a in Cells(p, n) :: p
  }

  lemma AddedLocal(c: Config, index: Index, owner: Owner, p: nat, n: nat)
    requires Shape(c, index, owner) && n > 0 && p > 0 && owner.Keys !! Cells(p, n)
    ensures p !in index && Local(c, index, owner, index[p := Free(n)], Added(owner, p, n), p, n)
    ensures OwnedBy(Added(owner, p, n), p, n, p)
  {
    hide Shape, FreeCells;
    var index', owner' := index[p := Free(n)], Added(owner, p, n);
    assert Within(p, p, n);
    OutsideHeap(c, index, owner, p, n);
    ShapeConfig(c, index, owner);
    assert HeaderOk(c, index', owner', p);
    assert forall b :: Header(index', b) && Within(b, p, n) ==> b == p;
    assert forall a :: a in owner' && Within(a, p, n) ==> CellOk(c, index', owner', a);
  }

  lemma OutsideHeap(c: Config, index: Index, owner: Owner, p: nat, n: nat)
    requires Shape(c, index, owner) && owner.Keys !! Cells(p, n)
    ensures forall a :: a in owner ==> !Within(owner[a], p, n) && !Within(a, p, n)
    ensures forall a :: a in index ==> !Within(a, p, n)
  {
    forall a | a in owner ensures !Within(owner[a], p, n) {
      assert CellOk(c, index, owner, a);
    }
  }

  lemma AddedShape(c: Config, index: Index, owner: Owner, p: nat, n: nat)
    requires Shape(c, index, owner) && n > 0 && p > 0 && owner.Keys !! Cells(p, n)
    ensures Shape(c, index[p := Free(n)], Added(owner, p, n)) && p !in index
    ensures FreeCells(index[p := Free(n)], Added(owner, p, n)) == FreeCells(index, owner) + Cells(p, n)
    ensures FreeCells(index, owner) !! Cells(p, n)
  {
    assert FreeCells(index, owner) !! Cells(p, n);
    hide Shape, FreeCells, SameOutside, ShapeWithin, OwnedBy, Added;
    var index', owner' := index[p := Free(n)], Added(owner, p, n);
    AddedLocal(c, index, owner, p, n);
    LocalChange(c, index, owner, index', owner', p, n);
    FreeRange(index', owner', p, n, p);
    SetsAgree(FreeCells(index', owner'), FreeCells(index, owner), Cells(p, n));
  }

  // ----- A free block is dropped in single blocks -----

  ghost function Singles(c: Config, h: nat, n: nat): Index {
    map a | a in Cells(h, n) :: Used(c.hblkSize)
  }

  ghost function SelfOwned(owner: Owner, h: nat, n: nat): Owner {
    owner + map a | a in Cells(h, n) :: a
  }

  lemma SingleOk(c: Config, index: Index, owner: Owner, h: nat, n: nat, b: nat)
    requires c.Ok() && Blocks(c, c.hblkSize) == 1 && h > 0 && Within(b, h, n)
    ensures var index' := index + Singles(c, h, n); var owner' := SelfOwned(owner, h, n);
      Header(index', b) && HeaderOk(c, index', owner', b) && b in owner' && CellOk(c, index', owner', b)
  {
    hide Blocks;
    var index', owner' := index + Singles(c, h, n), SelfOwned(owner, h, n);
    assert index'[b] == Used(c.hblkSize) && owner'[b] == b;
  }

  lemma SinglesWithin(c: Config, index: Index, owner: Owner, h: nat, n: nat)
    requires c.Ok() && Blocks(c, c.hblkSize) == 1 && h > 0
    ensures ShapeWithin(c, index + Singles(c, h, n), SelfOwned(owner, h, n), h, n)
  {
    hide Blocks, HeaderOk, CellOk;
    forall b: nat | Within(b, h, n)
      ensures var index' := index + Singles(c, h, n); var owner' := SelfOwned(owner, h, n);
        Header(index', b) && HeaderOk(c, index', owner', b) && b in owner' && CellOk(c, index', owner', b)
    {
      SingleOk(c, index, owner, h, n, b);
    }
  }

  lemma DroppedLocal(c: Config, index: Index, owner: Owner, h: nat, n: nat)
    requires Shape(c, index, owner) && IsFree(index, h) && index[h] == Free(n) && Blocks(c, c.hblkSize) == 1
    ensures Local(c, index, owner, index + Singles(c, h, n), SelfOwned(owner, h, n), h, n) && OwnedBy(owner, h, n, h)
  {
    hide Shape, FreeCells, Blocks, ShapeWithin;
    ShapeConfig(c, index, owner);
    BlockIsWhole(c, index, owner, h);
    SinglesWithin(c, index, owner, h, n);
  }

  lemma DroppedShape(c: Config, index: Index, owner: Owner, h: nat, n: nat)
    requires Shape(c, index, owner) && IsFree(index, h) && index[h] == Free(n)
    ensures Shape(c, index + Singles(c, h, n), SelfOwned(owner, h, n)) && SelfOwned(owner, h, n).Keys == owner.Keys
    ensures FreeCells(index + Singles(c, h, n), SelfOwned(owner, h, n)) == FreeCells(index, owner) - Cells(h, n)
    ensures Cells(h, n) <= FreeCells(index, owner)
  {
    hide Shape, FreeCells, SameOutside, ShapeWithin, Blocks;
    ShapeConfig(c, index, owner);
    BlocksExact(c, 1);
    DroppedLocal(c, index, owner, h, n);
    LocalChange(c, index, owner, index + Singles(c, h, n), SelfOwned(owner, h, n), h, n);
    FreeRange(index, owner, h, n, h);
    DroppedCells(c, index, owner, h, n);
    SetsAgree(FreeCells(index, owner), FreeCells(index + Singles(c, h, n), SelfOwned(owner, h, n)), Cells(h, n));
  }

  lemma DroppedCells(c: Config, index: Index, owner: Owner, h: nat, n: nat)
    ensures Cells(h, n) !! FreeCells(index + Singles(c, h, n), SelfOwned(owner, h, n))
  {
  }
}

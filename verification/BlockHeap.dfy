/** The heap block allocator: blocks are taken from segregated, doubly linked free
    lists, split where they are too long, and merged with their free neighbours
    when they are given back. */
module BlockHeaps {
  import opened BlockIndexes
  import opened FreeLists
  import BlackLists

  datatype Kind = PtrFree | Normal | Uncollectable | AtomicUncollectable

  /** What an allocation depends on besides the heap: GC_is_black_listed, BL_LIMIT
      in blocks, and the leak-finding mode. */
  datatype BlackList = BlackList(next: (nat, nat) -> nat, limit: nat, findLeak: bool) {
    /** A block that is black listed comes with a later candidate, at most behind the range asked about,
        all starts before that are black listed too, and asking for fewer blocks does no harm. */
    ghost predicate Ok() {
      && (forall h: nat, n: nat :: next(h, n) == 0 || next(h, n) > h)
      && (forall h: nat, n: nat :: n > 0 ==> next(h, n) <= h + n)
      && (forall h: nat, n: nat, s: nat :: n > 0 && h <= s < next(h, n) ==> next(s, n) != 0)
      && (forall h: nat, n: nat, m: nat :: 0 < m <= n && next(h, n) == 0 ==> next(h, m) == 0)
    }
  }

  /** The black list as the bit tables give it. */
  function FromTables(t: BlackLists.Tables, limit: nat, findLeak: bool): BlackList
    requires t.Ok()
  {
    BlackList((h: nat, n: nat) => if t.Ok() then BlackLists.BlackListed(t, h, n) else 0, limit, findLeak)
  }

  /** It always names later candidates, and a block that it does not object to holds no
      stack-listed block number. */
  lemma FromTablesOk(t: BlackLists.Tables, limit: nat, findLeak: bool)
    requires t.Ok()
    ensures FromTables(t, limit, findLeak).Ok()
    ensures forall h: nat, n: nat :: n > 0 && FromTables(t, limit, findLeak).next(h, n) == 0 ==> BlackLists.NoneListed(t, h, h + n)
  {
    forall h: nat, n: nat ensures BlackLists.BlackListed(t, h, n) == 0 || BlackLists.BlackListed(t, h, n) > h {
      if n > 0 { BlackLists.BlackListedIs(t, h, n); }
    }
    forall h: nat, n: nat | n > 0 ensures BlackLists.BlackListed(t, h, n) <= h + n { BlackLists.BlackListedIs(t, h, n); }
    forall h: nat, n: nat, s: nat | n > 0 && h <= s < BlackLists.BlackListed(t, h, n) ensures BlackLists.BlackListed(t, s, n) != 0 {
      BlackLists.BlackListedIs(t, h, n);
    }
    forall h: nat, n: nat, m: nat | 0 < m <= n && BlackLists.BlackListed(t, h, n) == 0
      ensures BlackLists.BlackListed(t, h, m) == 0 && BlackLists.NoneListed(t, h, h + n)
    {
      BlackLists.BlackListedIs(t, h, n);
      BlackLists.BlackListedIs(t, h, m);
    }
  }

  /** No block of the range is listed for stack words and, unless all interior pointers count, the first one not for heap words. */
  ghost predicate PlaceUnlisted(t: BlackLists.Tables, s: nat, n: nat)
    requires t.Ok()
  {
    BlackLists.NoneListed(t, s, s + n) && (t.allInterior || !BlackLists.NormalListed(t, s))
  }

  /** In no free block n blocks can be placed so that the first m of them are not listed. */
  ghost predicate NoPlace(index: Index, t: BlackLists.Tables, n: nat, m: nat)
    requires t.Ok()
  {
    forall b: nat :: IsFree(index, b) ==> forall s: nat :: b <= s && s + n <= b + index[b].blocks ==> !PlaceUnlisted(t, s, m)
  }

  /** A free block of exactly n blocks, the first m of them not listed unless that does not matter. */
  ghost predicate ExactPlace(index: Index, t: BlackLists.Tables, n: nat, m: nat, anywhere: bool)
    requires t.Ok()
  {
    exists b: nat :: IsFree(index, b) && index[b].blocks == n && (anywhere || PlaceUnlisted(t, b, m))
  }

  lemma TablesSay(t: BlackLists.Tables, limit: nat, findLeak: bool, s: nat, n: nat)
    requires t.Ok() && n > 0
    ensures FromTables(t, limit, findLeak).next(s, n) == 0 <==> PlaceUnlisted(t, s, n)
  {
    BlackLists.BlackListedIs(t, s, n);
  }

  const MAX_BLACK_LIST_ALLOC: nat := 2

  /** Kinds of objects that may be put on black-listed blocks. */
  predicate Exempt(kind: Kind, needed: nat) {
    kind == Uncollectable || kind == AtomicUncollectable || (kind == PtrFree && needed <= MAX_BLACK_LIST_ALLOC)
  }

  /** A request: the number of blocks, whether black lists matter, and how many blocks they are asked about. */
  datatype Wanted = Wanted(blocks: nat, exempt: bool, effective: nat) {
    predicate Ok() {
      0 < effective <= blocks
    }
  }

  function WantedFor(c: Config, bytes: nat, kind: Kind, ignoreOffPage: bool): Wanted
    requires c.Ok()
  {
    var n := Blocks(c, bytes);
    Wanted(n, Exempt(kind, n), if ignoreOffPage then 1 else n)
  }

  // ----- No two free blocks are adjacent: how operations keep it -----

  /** Only at block h may two free blocks meet. */
  ghost predicate CoalescedBut(index: Index, h: nat) {
    forall b, d :: Meet(index, b, d) ==> b == h || d == h
  }

  lemma FreedMeets(c: Config, index: Index, h: nat)
    requires c.Ok() && Coalesced(index) && h in index && index[h].Used?
    ensures CoalescedBut(Freed(c, index, h), h)
  {
    forall b, d | Meet(Freed(c, index, h), b, d) ensures b == h || d == h {
      assert !Meet(index, b, d);
    }
  }

  lemma MergedNextMeets(index: Index, h: nat, n: nat, d: nat, m: nat)
    requires IsFree(index, h) && IsFree(index, d) && index[h] == Free(n) && d == h + n && index[d] == Free(m) && n > 0
    requires CoalescedBut(index, h)
    ensures CoalescedBut(Merged(index, h), h) && forall e :: !Meet(Merged(index, h), h, e)
  {
    var index' := Merged(index, h);
    forall b, e ensures Meet(index', b, e) ==> b != h && e == h {
      assert Meet(index', b, e) ==> Meet(index, if b == h then d else b, e);
    }
  }

  lemma MergedPrevMeets(index: Index, p: nat, n: nat, h: nat, m: nat)
    requires IsFree(index, p) && IsFree(index, h) && index[p] == Free(n) && h == p + n && index[h] == Free(m) && n > 0
    requires CoalescedBut(index, h) && forall e :: !Meet(index, h, e)
    ensures Coalesced(Merged(index, p))
  {
    var index' := Merged(index, p);
    forall b, e ensures !Meet(index', b, e) {
      assert Meet(index', b, e) ==> Meet(index, if b == p then h else b, e);
    }
  }

  /** Block b of index' is a part of block h of index, or was free there. */
  ghost predicate PartFree(index: Index, index': Index, h: nat, k: nat, n: nat, t: nat, b: nat) {
    IsFree(index', b) && var e := index'[b];
      || (b == h && k > 0 && e == Free(k))
      || (b == h + k + n && k + n < t && e == Free(t - k - n))
      || (b != h && b != h + k && (k + n < t ==> b != h + k + n) && IsFree(index, b) && e == index[b])
  }

  /** What is free after part of block h has been taken. */
  lemma CarvedFree(c: Config, index: Index, h: nat, k: nat, bytes: nat, b: nat)
    requires Carvable(c, index, h, k, bytes) && IsFree(Carved(c, index, h, k, bytes), b)
    ensures PartFree(index, Carved(c, index, h, k, bytes), h, k, Blocks(c, bytes), index[h].blocks, b)
  {
    hide Blocks;
  }

  lemma EndsOutside(c: Config, index: Index, owner: Owner, h: nat, b: nat)
    requires Shape(c, index, owner) && IsFree(index, h) && IsFree(index, b) && b != h
    ensures index[b].blocks > 0 && !Within(b + index[b].blocks - 1, h, index[h].blocks)
  {
    assert HeaderOk(c, index, owner, h) && HeaderOk(c, index, owner, b);
  }

  lemma PartsApart(c: Config, index: Index, owner: Owner, index': Index, h: nat, k: nat, n: nat, b: nat, d: nat)
    requires Shape(c, index, owner) && Coalesced(index) && IsFree(index, h) && n > 0 && k + n <= index[h].blocks
    requires PartFree(index, index', h, k, n, index[h].blocks, b) && PartFree(index, index', h, k, n, index[h].blocks, d)
    ensures !Meet(index', b, d)
  {
    if b != h && IsFree(index, b) { EndsOutside(c, index, owner, h, b); }
    hide Shape;
    assert !Meet(index, b, d) && !Meet(index, h, d) && !Meet(index, b, h);
  }

  /** Using part of a free block leaves no two free blocks adjacent. */
  lemma CarvedMeets(c: Config, index: Index, owner: Owner, h: nat, k: nat, bytes: nat)
    requires Shape(c, index, owner) && Coalesced(index) && Carvable(c, index, h, k, bytes)
    ensures Coalesced(Carved(c, index, h, k, bytes))
  {
    hide Shape, Blocks, Carved, PartFree;
    var index' := Carved(c, index, h, k, bytes);
    forall b, d ensures !Meet(index', b, d) {
      if Meet(index', b, d) {
        CarvedFree(c, index, h, k, bytes, b);
        CarvedFree(c, index, h, k, bytes, d);
        PartsApart(c, index, owner, index', h, k, Blocks(c, bytes), b, d);
      }
    }
  }

  /** Block h is free and long enough for `bytes` from its k-th block on. */
  ghost predicate Carvable(c: Config, index: Index, h: nat, k: nat, bytes: nat) {
    && c.Ok() && IsFree(index, h) && Blocks(c, bytes) > 0 && k + Blocks(c, bytes) <= index[h].blocks
    && (k > 0 ==> h + k !in index)
    && (k + Blocks(c, bytes) < index[h].blocks ==> h + k + Blocks(c, bytes) !in index)
  }

  ghost function Prepared(c: Config, index: Index, h: nat, k: nat, n: nat): Index
    requires IsFree(index, h) && 0 < n && k + n <= index[h].blocks
  {
    var t := index[h].blocks;
    var i := if k == 0 then index else Divided(index, h, k);
    if k + n == t then i else Divided(i, h + k, n)
  }

  ghost function Carved(c: Config, index: Index, h: nat, k: nat, bytes: nat): Index
    requires Carvable(c, index, h, k, bytes)
  {
    Allocated(c, Prepared(c, index, h, k, Blocks(c, bytes)), h + k, bytes)
  }

  ghost function PreparedOwner(owner: Owner, h: nat, k: nat, n: nat, t: nat): Owner
    requires k + n <= t
  {
    var o := if k == 0 then owner else Reowned(owner, h + k, t - k, h + k);
    if k + n == t then o else Reowned(o, h + k + n, t - k - n, h + k + n)
  }

  lemma PreparedShape(c: Config, index: Index, owner: Owner, h: nat, k: nat, n: nat, t: nat)
    requires IsFree(index, h) && index[h] == Free(t) && 0 < n && k + n <= t && Shape(c, index, owner)
    ensures var index' := Prepared(c, index, h, k, n); var owner' := PreparedOwner(owner, h, k, n, t);
      && Shape(c, index', owner') && FreeCells(index', owner') == FreeCells(index, owner) && owner'.Keys == owner.Keys
      && IsFree(index', h + k) && index'[h + k] == Free(n)
    ensures (k > 0 ==> h + k !in index) && (k + n < t ==> h + k + n !in index)
  {
    hide Shape, FreeCells;
    if k > 0 { DividedShape(c, index, owner, h, k); }
    if k + n < t {
      var i := if k == 0 then index else Divided(index, h, k);
      DividedShape(c, i, if k == 0 then owner else Reowned(owner, h + k, t - k, h + k), h + k, n);
    }
  }

  /** Allocated blocks stay as they are. */
  ghost predicate UsedKept(index: Index, index': Index) {
    forall b :: b in index && index[b].Used? ==> b in index' && index'[b] == index[b]
  }

  lemma CarvedShape(c: Config, index: Index, owner: Owner, h: nat, k: nat, bytes: nat, n: nat, t: nat)
    requires Carvable(c, index, h, k, bytes) && n == Blocks(c, bytes) && t == index[h].blocks && Shape(c, index, owner)
    ensures var index' := Carved(c, index, h, k, bytes); var owner' := PreparedOwner(owner, h, k, n, t);
      && Shape(c, index', owner') && FreeCells(index', owner') == FreeCells(index, owner) - Cells(h + k, n)
      && owner'.Keys == owner.Keys && Cells(h + k, n) <= FreeCells(index, owner)
  {
    hide Shape, FreeCells, Blocks, Prepared, PreparedOwner, Allocated;
    PreparedShape(c, index, owner, h, k, n, t);
    AllocatedShape(c, Prepared(c, index, h, k, n), PreparedOwner(owner, h, k, n, t), h + k, bytes);
  }

  lemma NothingInside(c: Config, index: Index, owner: Owner, h: nat)
    requires Shape(c, index, owner) && IsFree(index, h)
    ensures forall a :: a in Inside(h, index[h].blocks) ==> a !in index
  {
    assert HeaderOk(c, index, owner, h);
  }

  lemma CarvedUsed(c: Config, index: Index, owner: Owner, h: nat, k: nat, bytes: nat)
    requires Carvable(c, index, h, k, bytes)
    requires forall a :: a in Inside(h, index[h].blocks) ==> a !in index
    ensures UsedKept(index, Carved(c, index, h, k, bytes))
    ensures UsedBlocks(Carved(c, index, h, k, bytes)) == UsedBlocks(index) + {h + k}
    ensures h + k in Carved(c, index, h, k, bytes) && Carved(c, index, h, k, bytes)[h + k] == Used(bytes)
  {
    hide Blocks;
    var n := Blocks(c, bytes);
    forall a | a in Inside(h + k, n) ensures a in Inside(h, index[h].blocks) { }
  }

  // ----- The heap -----

  class BlockHeap {
    const c: Config
    var index: Index               // headers and forwarding counts
    var next: map<nat, nat>        // hb_next and hb_prev of the headers of free blocks
    var prev: map<nat, nat>
    var heads: seq<nat>            // GC_hblkfreelist
    var freeBlocks: seq<nat>       // GC_free_bytes, in blocks
    var largeFree: nat             // GC_large_free_bytes, in blocks
    var heapSize: nat              // GC_heapsize, in blocks
    var dropped: nat               // GC_bytes_dropped, in blocks
    var dropCount: nat
    ghost var owner: Owner
    ghost var lists: seq<seq<nat>>

    /** The free lists are as they should be, except for the blocks that are moving. */
    ghost predicate Lists(moving: set<nat>)
      reads this`index, this`next, this`prev, this`heads, this`freeBlocks, this`lists
    {
      AllLinked(heads, next, prev, lists) && Listed(index, lists, moving) && Counted(index, freeBlocks, lists)
    }

    ghost predicate Valid()
      reads this`index, this`next, this`prev, this`heads, this`freeBlocks, this`lists, this`owner, this`largeFree, this`heapSize
    {
      && Shape(c, index, owner) && Lists({}) && Coalesced(index)
      && largeFree == |FreeCells(index, owner)| && heapSize == |owner|
    }

    ghost function FreeNow(): set<nat>
      reads this`index, this`owner
    {
      FreeCells(index, owner)
    }

    ghost function Now(): Snapshot
      reads this`index, this`owner, this`lists, this`freeBlocks, this`dropped, this`dropCount
    {
      Snapshot(index, FreeNow(), lists, freeBlocks, dropped, dropCount)
    }

    constructor (c: Config)
      requires c.Ok()
      ensures Valid() && this.c == c && owner == map[] && index == map[]
    {
      this.c := c;
      index, next, prev := map[], map[], map[];
      heads, freeBlocks := seq(N_HBLK_FLS + 1, _ => 0), seq(N_HBLK_FLS + 1, _ => 0);
      largeFree, heapSize, dropped, dropCount := 0, 0, 0, 0;
      owner, lists := map[], seq(N_HBLK_FLS + 1, _ => []);
    }

    /** GC_remove_from_fl_at.  Block b is the j-th on list i. */
    method RemoveFromFlAt(b: nat, i: nat, ghost j: nat, ghost moving: set<nat>)
      requires Lists(moving) && i < |lists| && j < |lists[i]| && lists[i][j] == b
      modifies this`heads, this`next, this`prev, this`freeBlocks, this`lists
      ensures Lists(moving + {b}) && OnNoList(lists, b)
      ensures lists == old(lists)[i := Without(old(lists[i]), j)] && Fewer(freeBlocks, old(freeBlocks))
    {
      UnlinkKeeps(heads, next, prev, lists, i, j);
      ListedUnlink(index, lists, moving, i, j);
      SizeSumWithout(index, lists[i], j);
      ListedAreFree(index, lists, moving);
      var p, n := prev[b], next[b];
      if p == 0 {
        heads := heads[i := n];
      } else {
        next := next[p := n];
      }
      freeBlocks := freeBlocks[i := freeBlocks[i] - index[b].blocks];
      if n != 0 {
        prev := prev[n := p];
      }
      lists := lists[i := Without(lists[i], j)];
    }

    /** GC_remove_from_fl. */
    method RemoveFromFl(b: nat, ghost moving: set<nat>)
      requires Lists(moving) && IsFree(index, b) && b !in moving
      modifies this`heads, this`next, this`prev, this`freeBlocks, this`lists
      ensures Lists(moving + {b}) && OnNoList(lists, b)
      ensures forall d :: OnNoList(old(lists), d) ==> OnNoList(lists, d)
    {
      ghost var list := lists[ListFor(index[b].blocks)];
      ghost var j: nat :| j < |list| && list[j] == b;
      RemoveFromFlAt(b, ListFor(index[b].blocks), j, moving);
    }

    /** GC_add_to_fl. */
    method AddToFl(b: nat, ghost moving: set<nat>)
      requires Lists(moving) && IsFree(index, b) && OnNoList(lists, b) && b != 0
      modifies this`heads, this`next, this`prev, this`freeBlocks, this`lists
      ensures Lists(moving - {b}) && IsFirst(index, lists, b)
      ensures lists == old(lists)[ListFor(index[b].blocks) := [b] + old(lists)[ListFor(index[b].blocks)]]
      ensures forall d :: d != b && OnNoList(old(lists), d) ==> OnNoList(lists, d)
    {
      var i := ListFor(index[b].blocks);
      PushKeeps(heads, next, prev, lists, i, b);
      ListedPush(index, lists, moving, b);
      var second := heads[i];
      heads := heads[i := b];
      freeBlocks := freeBlocks[i := freeBlocks[i] + index[b].blocks];
      next := next[b := second];
      prev := prev[b := 0];
      if second != 0 {
        prev := prev[second := b];
      }
      lists := lists[i := [b] + lists[i]];
    }

    /** GC_install_counts: forwarding counts for the n blocks at h. */
    method InstallCounts(h: nat, n: nat)
      requires c.Ok()
      modifies this`index
      ensures index == old(index) + Counts(c, h, n)
    {
      var a := h + 1;
      while a < h + n
        invariant h < a && (n > 0 ==> a <= h + n) && (n == 0 ==> a == h + 1)
        invariant index == old(index) + Counts(c, h, a - h)
      {
        index := index[a := Forward(Min(a - h, c.maxJump))];
        a := a + 1;
      }
    }

    /** GC_remove_counts. */
    method RemoveCounts(h: nat, n: nat)
      modifies this`index
      ensures index == old(index) - Inside(h, n)
    {
      var a := h + 1;
      while a < h + n
        invariant h < a && (n > 0 ==> a <= h + n) && (n == 0 ==> a == h + 1)
        invariant index == old(index) - Inside(h, a - h)
      {
        index := map b | b in index && b != a :: index[b];
        a := a + 1;
      }
    }

    /** GC_prev_block: the last block that starts at or before h, or 0. */
    method PrevBlock(h: nat) returns (r: nat)
      requires Shape(c, index, owner)
      ensures r != 0 ==> r <= h && Header(index, r)
      ensures forall b: nat :: Header(index, b) && b <= h ==> b <= r && r != 0
    {
      r := h;
      while r > 0
        invariant forall b: nat :: Header(index, b) && b <= h ==> b <= r && r != 0
        invariant 0 <= r <= h
      {
        if r !in index {
          r := r - 1;
        } else if index[r].Forward? {
          ForwardInside(c, index, owner, r);
          r := r - index[r].jump;
        } else {
          return;
        }
      }
    }

    /** From a block number inside an allocated block, forwarding counts lead to its header. */
    method FollowForward(a: nat) returns (r: nat)
      requires Shape(c, index, owner)
      ensures !(a in index && index[a].Forward?) ==> r == a
      ensures a in index && index[a].Forward? ==> 0 < r < a && a in owner && r == owner[a] && r in index && index[r].Used?
    {
      r := a;
      while r in index && index[r].Forward?
        invariant r == a || (0 < r < a && a in owner && r in index && r in owner && owner[r] == owner[a])
        invariant r < a ==> a in index && index[a].Forward? && owner[a] in index && index[owner[a]].Used?
        decreases r
      {
        ForwardInside(c, index, owner, r);
        r := r - index[r].jump;
      }
      if r < a { OwnHeader(c, index, owner, r); }
    }

    /** GC_free_block_ending_at: the free block that ends where block h starts, or 0. */
    method FreeBlockEndingAt(h: nat) returns (r: nat)
      requires Shape(c, index, owner) && Header(index, h)
      ensures r != 0 ==> IsFree(index, r) && r + index[r].blocks == h
      ensures r == 0 ==> forall b: nat :: IsFree(index, b) ==> b + index[b].blocks != h
    {
      HeaderNotInside(c, index, owner, h);
      hide Shape;
      if h == 1 {
        return 0;
      }
      r := FollowForward(h - 1);
      if r in index {
        if !index[r].Free? { r := 0; }
      } else {
        r := PrevBlock(h - 1);
        if r != 0 && !(index[r].Free? && r + index[r].blocks == h) { r := 0; }
      }
    }

    /** GC_freehblk, the merge of block h of n blocks with a free successor d of m blocks. */
    method MergeNext(h: nat, n: nat, d: nat, m: nat)
      requires IsFree(index, h) && IsFree(index, d) && index[h] == Free(n) && index[d] == Free(m) && d == h + n
      requires Shape(c, index, owner) && Lists({h}) && OnNoList(lists, h) && CoalescedBut(index, h)
      modifies this`index, this`next, this`prev, this`heads, this`freeBlocks, this`lists, this`owner
      ensures Shape(c, index, owner) && Lists({h}) && OnNoList(lists, h) && CoalescedBut(index, h)
      ensures index == (old(index) - {d})[h := Free(n + m)] && forall e :: !Meet(index, h, e)
      ensures FreeCells(index, owner) == old(FreeCells(index, owner)) && owner.Keys == old(owner.Keys)
    {
      hide Shape, FreeCells, AllLinked;
      HeaderPositive(c, index, owner, h);
      MergedShape(c, index, owner, h, n, d, m);
      MergedNextMeets(index, h, n, d, m);
      RemoveFromFl(d, {h});
      ListedMerge(index, freeBlocks, lists, h, d);
      index := (index - {d})[h := Free(n + m)];
      owner := Reowned(owner, d, m, h);
    }

    /** GC_freehblk, the merge of block h of m blocks with a free predecessor p of n blocks. */
    method MergePrev(p: nat, n: nat, h: nat, m: nat)
      requires IsFree(index, p) && IsFree(index, h) && index[p] == Free(n) && index[h] == Free(m) && h == p + n
      requires Shape(c, index, owner) && Lists({h}) && OnNoList(lists, h)
      requires CoalescedBut(index, h) && forall e :: !Meet(index, h, e)
      modifies this`index, this`next, this`prev, this`heads, this`freeBlocks, this`lists, this`owner
      ensures Shape(c, index, owner) && Lists({p}) && OnNoList(lists, p) && Coalesced(index)
      ensures index == (old(index) - {h})[p := Free(n + m)]
      ensures FreeCells(index, owner) == old(FreeCells(index, owner)) && owner.Keys == old(owner.Keys)
    {
      hide Shape, FreeCells, AllLinked;
      HeaderPositive(c, index, owner, p);
      MergedShape(c, index, owner, p, n, h, m);
      MergedPrevMeets(index, p, n, h, m);
      RemoveFromFl(p, {h});
      ListedMerge(index, freeBlocks, lists, p, h);
      index := (index - {h})[p := Free(n + m)];
      owner := Reowned(owner, h, m, p);
    }

    /** GC_freehblk: the header of h says free, but it is on no list yet. */
    method MarkFree(h: nat)
      requires Freeable(c, index, owner, h) && Lists({}) && Coalesced(index)
      modifies this`index
      ensures Shape(c, index, owner) && Lists({h}) && OnNoList(lists, h) && CoalescedBut(index, h)
      ensures h in index && index[h] == Free(Blocks(c, old(index)[h].bytes))
      ensures FreeCells(index, owner) == old(FreeCells(index, owner)) + Cells(h, Blocks(c, old(index)[h].bytes))
      ensures |FreeCells(index, owner)| == |old(FreeCells(index, owner))| + Blocks(c, old(index)[h].bytes)
      ensures UsedBlocks(index) == old(UsedBlocks(index)) - {h} && UsedKept(index, old(index))
    {
      hide Shape, FreeCells, AllLinked, Blocks;
      var size := Blocks(c, index[h].bytes);
      FreedMeets(c, index, h);
      FreedLists(c, index, freeBlocks, lists, h);
      FreedUsed(c, index, owner, h);
      CellsCount(h, size);
      RemoveCounts(h, size);
      index := index[h := Free(size)];
      assert index == Freed(c, old(index), h);
    }

    /** GC_freehblk: merge free block h with its free neighbours. */
    method Coalesce(h: nat) returns (b: nat)
      requires Shape(c, index, owner) && Lists({h}) && OnNoList(lists, h) && CoalescedBut(index, h) && IsFree(index, h)
      modifies this`index, this`next, this`prev, this`heads, this`freeBlocks, this`lists, this`owner
      ensures Shape(c, index, owner) && Lists({b}) && OnNoList(lists, b) && Coalesced(index) && IsFree(index, b) && b > 0
      ensures b <= h < b + index[b].blocks
      ensures FreeCells(index, owner) == old(FreeCells(index, owner)) && owner.Keys == old(owner.Keys)
      ensures UsedBlocks(index) == old(UsedBlocks(index)) && UsedKept(index, old(index))
    {
      hide Shape, FreeCells, Lists;
      HeaderPositive(c, index, owner, h);
      var size := index[h].blocks;
      var d := h + size;
      var p := FreeBlockEndingAt(h);
      if p != 0 { HeaderPositive(c, index, owner, p); }
      b := h;
      if d in index && index[d].Free? {
        var m := index[d].blocks;
        MergeNext(h, size, d, m);
        size := size + m;
      }
      if p != 0 {
        MergePrev(p, index[p].blocks, h, size);
        b := p;
      } else {
        NobodyBefore(index, h);
      }
    }

    /** GC_freehblk.  The block that h has become part of is put first on its list. */
    method Freehblk(h: nat) returns (ghost b: nat)
      requires Freeable(c, index, owner, h) && Lists({}) && Coalesced(index) && largeFree == |FreeCells(index, owner)|
      modifies this`index, this`next, this`prev, this`heads, this`freeBlocks, this`largeFree, this`lists, this`owner
      ensures Shape(c, index, owner) && Lists({}) && Coalesced(index) && largeFree == |FreeCells(index, owner)|
      ensures FreeCells(index, owner) == old(FreeCells(index, owner)) + Cells(h, Blocks(c, old(index)[h].bytes))
      ensures owner.Keys == old(owner.Keys) && FirstOnList(index, lists, b, h)
      ensures UsedBlocks(index) == old(UsedBlocks(index)) - {h} && UsedKept(index, old(index))
    {
      hide Shape, FreeCells, Lists, Blocks;
      var size := Blocks(c, index[h].bytes);
      MarkFree(h);
      var merged := Coalesce(h);
      b := merged;
      largeFree := largeFree + size;
      AddToFl(merged, {merged});
      assert {b} - {b} == {};
    }

    /** GC_add_to_heap, once the section is trimmed. */
    method AddSection(p: nat, n: nat) returns (ghost b: nat)
      requires Valid() && n > 0 && p > 0 && owner.Keys !! Cells(p, n)
      modifies this`index, this`next, this`prev, this`heads, this`freeBlocks, this`largeFree, this`heapSize, this`lists, this`owner
      ensures Valid()
      ensures owner.Keys == old(owner.Keys) + Cells(p, n) && FirstOnList(index, lists, b, p)
      ensures FreeCells(index, owner) == old(FreeCells(index, owner)) + Cells(p, n)
      ensures UsedBlocks(index) == old(UsedBlocks(index)) && UsedKept(index, old(index))
    {
      hide Shape, FreeCells, AllLinked, Listed, Counted, Blocks, Freeable, Coalesced, UsedKept, UsedBlocks, Added;
      ShapeConfig(c, index, owner);
      BlocksExact(c, n);
      var bytes := n * c.hblkSize;
      NewSection(c, index, owner, freeBlocks, lists, p, n, bytes);
      index := index[p := Used(bytes)];
      owner := Added(owner, p, n);
      b := Freehblk(p);
      UsedStep(old(index), old(index)[p := Used(bytes)], index, p);
      heapSize := heapSize + n;
      assert |owner| == |owner.Keys|;
    }

    /** GC_add_to_heap: n0 > 0 blocks from p0 on, all below the end `top` of the address space. */
    method AddToHeap(p0: nat, n0: nat, top: nat) returns (ghost b: nat)
      requires Valid() && n0 > 0 && p0 + n0 <= top && owner.Keys !! Cells(p0, n0)
      modifies this`index, this`next, this`prev, this`heads, this`freeBlocks, this`largeFree, this`heapSize, this`lists, this`owner
      ensures Valid()
      ensures owner.Keys == old(owner.Keys) + Usable(p0, n0, top)
      ensures forall a :: a in owner <==> a in old(owner) || (p0 <= a < p0 + n0 && 2 <= a && a + 1 < top)
      ensures Usable(p0, n0, top) != {} ==> FirstOnList(index, lists, b, if p0 < 2 then 2 else p0)
      ensures FreeCells(index, owner) == old(FreeCells(index, owner)) + Usable(p0, n0, top)
      ensures UsedBlocks(index) == old(UsedBlocks(index)) && UsedKept(index, old(index))
    {
      hide Valid, FreeCells;
      b := 0;
      var p, n := p0, n0;
      while p <= 1
        invariant p0 <= p <= p0 + n0 && n == p0 + n0 - p && n > 0 && (p > p0 ==> p <= 2)
      {
        p := p + 1;
        n := n - 1;
        if n == 0 { return; }
      }
      if p + n >= top {
        n := n - 1;
        if n == 0 { return; }
      }
      assert Cells(p, n) == Usable(p0, n0, top);
      b := AddSection(p, n);
    }

    /** GC_split_block, the links: n takes the place of h, the j-th block on list i. */
    method ReplaceOnList(h: nat, n: nat, i: nat, ghost j: nat)
      requires AllLinked(heads, next, prev, lists) && Apart(lists) && i < |lists| && j < |lists[i]| && lists[i][j] == h
      requires n != 0 && OnNoList(lists, n)
      modifies this`next, this`prev, this`heads, this`lists
      ensures AllLinked(heads, next, prev, lists) && lists == old(lists)[i := Swapped(old(lists)[i], j, n)]
    {
      SwapKeeps(heads, next, prev, lists, i, j, n);
      var p, s := prev[h], next[h];
      prev := prev[n := p];
      next := next[n := s];
      if p != 0 {
        next := next[p := n];
      } else {
        heads := heads[i := n];
      }
      if s != 0 {
        prev := prev[s := n];
      }
      lists := lists[i := Swapped(lists[i], j, n)];
    }

    /** GC_split_block: block h, the j-th on list i, is divided at n, which takes its place. */
    method SplitBlock(h: nat, n: nat, i: nat, ghost j: nat) returns (ghost j': nat)
      requires Lists({}) && i < |lists| && j < |lists[i]| && lists[i][j] == h && 0 < h
      requires IsFree(index, h) && h < n < h + index[h].blocks && n !in index
      modifies this`index, this`next, this`prev, this`heads, this`freeBlocks, this`lists
      ensures Lists({n}) && i < |lists| && j' < |lists[i]| && lists[i][j'] == n
      ensures index == old(index)[h := Free(n - h)][n := Free(h + old(index)[h].blocks - n)]
    {
      hide AllLinked, Listed, Counted;
      var total, hSize := index[h].blocks, n - h;
      SplitLists(index, lists, i, j, h, hSize);
      SplitCounts(index, freeBlocks, lists, i, j, h, hSize);
      ListsApart(index, lists, {});
      LengthsAgree(heads, next, prev, lists, index, freeBlocks);
      ReplaceOnList(h, n, i, j);
      freeBlocks := freeBlocks[i := freeBlocks[i] - hSize];
      index := index[h := Free(hSize)][n := Free(total - hSize)];
      AddToFl(h, {h, n});
      assert {h, n} - {h} == {n};
      j' := if ListFor(hSize) == i then j + 1 else j;
    }

    /** GC_get_first_part: the first k blocks of h are taken off list i, the others go to their list. */
    method GetFirstPart(h: nat, k: nat, i: nat, ghost j: nat, ghost moving: set<nat>)
      requires Lists(moving) && moving <= {h} && i < |lists| && j < |lists[i]| && lists[i][j] == h && h > 0
      requires IsFree(index, h) && 0 < k <= index[h].blocks && (k < index[h].blocks ==> h + k !in index)
      modifies this`index, this`next, this`prev, this`heads, this`freeBlocks, this`lists
      ensures Lists({h}) && OnNoList(lists, h)
      ensures index == if k == old(index)[h].blocks then old(index) else old(index)[h + k := Free(old(index)[h].blocks - k)]
    {
      hide AllLinked, Listed, Counted;
      var total := index[h].blocks;
      RemoveFromFlAt(h, i, j, moving);
      assert moving + {h} == {h};
      if total == k { return; }
      var rest := h + k;
      RestLists(index, freeBlocks, lists, h, rest, total - k);
      index := index[rest := Free(total - k)];
      AddToFl(rest, {h, rest});
      assert {h, rest} - {rest} == {h};
    }

    /** GC_allochblk_nth, once a block is found: n blocks from `last` on are taken out
        of block h, the j-th on list i, what is before and behind them stays free. */
    method AllocateAt(h: nat, last: nat, i: nat, ghost j: nat, bytes: nat)
      requires Valid() && i < |lists| && j < |lists[i]| && lists[i][j] == h && h <= last && bytes > 0
      requires IsFree(index, h) && last - h + Blocks(c, bytes) <= index[h].blocks
      modifies this`index, this`next, this`prev, this`heads, this`freeBlocks, this`largeFree, this`lists, this`owner
      ensures Valid() && owner.Keys == old(owner.Keys)
      ensures Served(c, old(index), old(FreeNow()), index, FreeNow(), last, bytes, {})
    {
      hide Shape, FreeCells, AllLinked, Listed, Counted, Blocks, Carved, Prepared, PreparedOwner, Served, Allocated, Carvable;
      CarvableInside(c, index, owner, h, last - h, bytes);
      var n, k := Blocks(c, bytes), last - h;
      ghost var before := index;
      assert h + k == last;
      CarvedFacts(c, index, owner, h, k, bytes, n, index[h].blocks);
      owner := PreparedOwner(owner, h, k, n, index[h].blocks);
      CutOut(h, last, i, j, n);
      assert index[last := Free(n)] == Prepared(c, before, h, k, n);
      PreparedAllocated(c, before, index, h, k, last, n, bytes);
      AllocatedLists(c, index, freeBlocks, lists, last, bytes);
      SetUp(last, n, bytes);
      assert |owner| == |owner.Keys| == old(|owner.Keys|) == old(|owner|);
    }

    /** GC_allochblk_nth: the blocks to be allocated leave the free lists. */
    method CutOut(h: nat, last: nat, i: nat, ghost j: nat, n: nat)
      requires Lists({}) && i < |lists| && j < |lists[i]| && lists[i][j] == h && 0 < h <= last
      requires IsFree(index, h) && 0 < n && last - h + n <= index[h].blocks
      requires (last > h ==> last !in index) && (last - h + n < index[h].blocks ==> last + n !in index)
      modifies this`index, this`next, this`prev, this`heads, this`freeBlocks, this`lists
      ensures Lists({last}) && OnNoList(lists, last)
      ensures last in index && index[last := Free(n)] == Prepared(c, old(index), h, last - h, n)
    {
      hide AllLinked, Listed, Counted;
      ghost var j' := j;
      if last != h {
        j' := SplitBlock(h, last, i, j);
      }
      GetFirstPart(last, n, i, j', if last == h then {} else {last});
    }

    /** GC_install_counts and setup_header. */
    method SetUp(h: nat, n: nat, bytes: nat)
      requires c.Ok() && n == Blocks(c, bytes) && n <= largeFree
      modifies this`index, this`largeFree
      ensures index == Allocated(c, old(index), h, bytes) && largeFree == old(largeFree) - n
    {
      InstallCounts(h, n);
      index := index[h := Used(bytes)];
      largeFree := largeFree - n;
    }

    /** GC_allochblk_nth: a block that is black listed from end to end, the j-th on list i, is
        given away in single blocks for the time being.  Returns its predecessor on the list. */
    method DropBlock(h: nat, i: nat, ghost j: nat, ghost bytes: nat) returns (p: nat)
      requires Valid() && i < |lists| && j < |lists[i]| && lists[i][j] == h && IsFree(index, h)
      modifies this`index, this`next, this`prev, this`heads, this`freeBlocks, this`largeFree, this`dropped, this`lists, this`owner
      ensures Valid() && owner.Keys == old(owner.Keys)
      ensures lists == old(lists)[i := Without(old(lists)[i], j)] && p == At(old(lists)[i], j - 1)
      ensures FreeBut(old(index), index, h) && Fewer(freeBlocks, old(freeBlocks))
      ensures Served(c, old(index), old(FreeNow()), index, FreeNow(), 0, bytes, Cells(h, old(index)[h].blocks))
      ensures dropped == old(dropped) + old(index)[h].blocks
    {
      hide Shape, FreeCells, AllLinked, Listed, Counted, Coalesced, Served, Singles, SelfOwned, Fewer, FreeBut, ListFor, Taken, WholeRuns, UsedKept, UsedBlocks, OnNoList, At;
      var total := index[h].blocks;
      HeaderPositive(c, index, owner, h);
      DroppedFacts(c, index, owner, h, total, bytes);
      DroppedFree(c, index, h, total);
      ghost var singles := index + Singles(c, h, total);
      largeFree := largeFree - total;
      dropped := dropped + total;
      p := TakeOff(h, i, j);
      DroppedLists(c, index, freeBlocks, lists, h, total);
      MakeSingles(h, total);
      assert index == singles;
      owner := SelfOwned(owner, h, total);
      assert |owner| == |owner.Keys| == old(|owner.Keys|) == old(|owner|);
    }

    method TakeOff(h: nat, i: nat, ghost j: nat) returns (p: nat)
      requires Lists({}) && i < |lists| && j < |lists[i]| && lists[i][j] == h
      modifies this`next, this`prev, this`heads, this`freeBlocks, this`lists
      ensures Lists({h}) && OnNoList(lists, h) && p == At(old(lists)[i], j - 1)
      ensures lists == old(lists)[i := Without(old(lists)[i], j)] && Fewer(freeBlocks, old(freeBlocks))
    {
      p := PreviousOnList(h, i, j);
      RemoveFromFlAt(h, i, j, {});
      assert {} + {h} == {h};
    }

    method MakeSingles(h: nat, n: nat)
      modifies this`index
      ensures index == old(index) + Singles(c, h, n)
    {
      var a := h;
      while a < h + n
        invariant h <= a <= h + n
        invariant index == old(index) + Singles(c, h, a - h)
      {
        index := index[a := Used(c.hblkSize)];
        a := a + 1;
      }
    }

    /** hb_prev of a block on a list. */
    method PreviousOnList(h: nat, i: nat, ghost j: nat) returns (p: nat)
      requires Lists({}) && i < |lists| && j < |lists[i]| && lists[i][j] == h
      ensures p == At(lists[i], j - 1)
    {
      assert NodeOk(next, prev, lists[i], j);
      p := prev[h];
    }

    /** hb_next of a block on a list. */
    method NextOnList(h: nat, i: nat, ghost j: nat) returns (n: nat)
      requires Lists({}) && i < |lists| && j < |lists[i]| && lists[i][j] == h
      ensures n == At(lists[i], j + 1)
    {
      assert NodeOk(next, prev, lists[i], j);
      n := next[h];
    }

    /** GC_allochblk_nth: the first start in a block of `avail` blocks that is not black listed,
        or one for which there is no room. */
    method FirstStart(h: nat, avail: nat, w: Wanted, bl: BlackList) returns (last: nat)
      requires bl.Ok() && w.Ok() && w.blocks <= avail
      ensures last >= h && (last <= h + avail - w.blocks ==> bl.next(last, w.effective) == 0)
      ensures forall s: nat :: h <= s < last ==> bl.next(s, w.effective) != 0
      ensures last <= h + avail - w.blocks + w.effective
    {
      last := h;
      while last <= h + avail - w.blocks && bl.next(last, w.effective) != 0
        invariant h <= last <= h + avail - w.blocks + w.effective
        invariant forall s: nat :: h <= s < last ==> bl.next(s, w.effective) != 0
        decreases h + avail - last
      {
        last := bl.next(last, w.effective);
      }
    }

    /** GC_allochblk_nth: the successor on the list is obviously better. */
    method SuccessorBetter(h: nat, avail: nat, w: Wanted, i: nat, ghost j: nat, bl: BlackList) returns (better: bool)
      requires Lists({}) && i < |lists| && j < |lists[i]| && lists[i][j] == h && bl.Ok() && w.Ok()
      ensures better <==> j + 1 < |lists[i]| && BetterBlock(index, lists[i][j + 1], avail, w, bl)
      ensures better ==> Good(index, lists[i][j + 1], w, bl, true)
    {
      var s := NextOnList(h, i, j);
      if s == 0 {
        assert j + 1 < |lists[i]| ==> NodeOk(next, prev, lists[i], j + 1);
        return false;
      }
      ListedAreFree(index, lists, {});
      better := index[s].blocks < avail && index[s].blocks >= w.blocks && bl.next(s, w.blocks) == 0;
      assert better ==> bl.next(s, w.effective) == 0;
    }

    /** GC_allochblk_nth: what to do with block h, the j-th on list i. */
    method Judge(h: nat, w: Wanted, i: nat, ghost j: nat, maySplit: bool, bl: BlackList) returns (d: Decision)
      requires Lists({}) && i < |lists| && j < |lists[i]| && lists[i][j] == h && IsFree(index, h) && bl.Ok() && w.Ok()
      modifies this`dropCount
      ensures WellJudged(index, lists[i], j, w, maySplit, bl, d)
      ensures Judged(index, lists[i], j, w, maySplit, bl, old(dropCount), d, dropCount)
    {
      hide AllLinked, Counted;
      ListedAreFree(index, lists, {});
      var avail := index[h].blocks;
      if avail < w.blocks { return Skip; }
      if avail != w.blocks {
        if !maySplit { return Skip; }
        var better := SuccessorBetter(h, avail, w, i, j, bl);
        if better { return Skip; }
      }
      if w.exempt { return Take(h); }
      var last := FirstStart(h, avail, w, bl);
      var left: int := avail - (last - h);
      if left >= w.blocks { return Take(last); }
      if w.blocks > bl.limit && avail - w.blocks > bl.limit { return Take(h); }
      if left == 0 && w.blocks == 1 && !bl.findLeak {
        dropCount := dropCount + 1;
        if dropCount % 4 == 0 { return Drop; }
      }
      return Skip;
    }

    /** The loop goes on from the predecessor of the block that is dropped. */
    method DropAndGoOn(h: nat, i: nat, ghost j: nat, bytes: nat, lost: set<nat>, ghost s0: Snapshot, ghost s1: Snapshot,
                       ghost w: Wanted, ghost bl: BlackList, ghost maySplit: bool)
      returns (p: nat, lost': set<nat>)
      requires Valid() && c.Ok() && w.Ok() && i < |lists| && j < |lists[i]| && lists[i][j] == h && IsFree(index, h)
      requires Now() == s1.(dropCount := dropCount) && Going(c, s0, s1, bytes, lost, w, bl, i) && NoneBefore(index, lists[i], j, w, bl, maySplit)
      requires WellJudged(index, lists[i], j, w, maySplit, bl, Drop) && Judged(index, lists[i], j, w, maySplit, bl, s1.dropCount, Drop, dropCount)
      modifies this`index, this`next, this`prev, this`heads, this`freeBlocks, this`largeFree, this`dropped, this`lists, this`owner
      ensures Valid() && owner.Keys == old(owner.Keys) && lost' != {} && Going(c, s0, Now(), bytes, lost', w, bl, i)
      ensures lists == old(lists)[i := Without(old(lists)[i], j)] && p == At(old(lists)[i], j - 1)
      ensures NoneBefore(index, lists[i], j, w, bl, maySplit)
    {
      hide Valid, Served, FreeCells, Good, Going, NoneBefore, Fewer, FreeBut, Judged, WellJudged;
      ghost var s := Now();
      var cells := Cells(h, index[h].blocks);
      FreeNonempty(h);
      p := DropBlock(h, i, j, bytes);
      GoingDropped(c, s0, s1, Now(), bytes, lost, h, w, bl, i, j, maySplit);
      lost' := lost + cells;
    }

    lemma ListsAre(i: nat)
      requires Valid() && i <= N_HBLK_FLS
      ensures |lists| == |heads| == N_HBLK_FLS + 1 && heads[i] == At(lists[i], 0) && c.Ok() && Lists({})
      ensures forall j :: 0 <= j < |lists[i]| ==> lists[i][j] != 0 && IsFree(index, lists[i][j]) && ListFor(index[lists[i][j]].blocks) == i
    {
      ListedAreFree(index, lists, {});
      assert Linked(heads[i], next, prev, lists[i]);
      forall j | 0 <= j < |lists[i]| ensures lists[i][j] != 0 && ListFor(index[lists[i][j]].blocks) == i {
        assert NodeOk(next, prev, lists[i], j) && PlaceOk(index, lists[i][j], i, {});
      }
    }

    /** Move on to the next block of list i. */
    method Advance(h: nat, i: nat, ghost j: nat) returns (n: nat)
      requires Valid() && i < |lists| && j < |lists[i]| && lists[i][j] == h
      ensures n == At(lists[i], j + 1)
    {
      n := NextOnList(h, i, j);
    }

    /** GC_allochblk_nth: search list i for `bytes` bytes.  The block numbers in `lost` were
        dropped on the way. */
    method AllochblkNth(bytes: nat, kind: Kind, ignoreOffPage: bool, i: nat, maySplit: bool, bl: BlackList)
      returns (r: nat, lost: set<nat>)
      requires Valid() && bytes > 0 && i <= N_HBLK_FLS && bl.Ok()
      modifies this`index, this`next, this`prev, this`heads, this`freeBlocks, this`largeFree, this`dropped, this`dropCount, this`lists, this`owner
      ensures Valid() && owner.Keys == old(owner.Keys) && |lists| == N_HBLK_FLS + 1
      ensures Served(c, old(index), old(FreeNow()), index, FreeNow(), r, bytes, lost)
      ensures var w := WantedFor(c, bytes, kind, ignoreOffPage);
        && Searched(old(index), old(lists), index, lists, r, lost, w, bl, i, maySplit)
        && (!w.exempt && r != 0 && w.blocks <= bl.limit ==> bl.next(r, w.effective) == 0)
      ensures r == 0 ==> Fewer(freeBlocks, old(freeBlocks))
      ensures DropsCounted(bl, lost, old(dropped), dropped, old(dropCount), dropCount)
      decreases |lists[i]|
    {
      hide Valid, Served, FreeCells, Suits, Good, Searched, Going, NoneBefore, Blocks, Exempt, Fewer, FreeBut, DropsCounted, Judged, WellJudged, HasStart, ListFor, BlackList.Ok, Lists;
      ListsAre(i);
      WantedOk(c, bytes, kind, ignoreOffPage);
      var w := WantedFor(c, bytes, kind, ignoreOffPage);
      var h := heads[i];
      ghost var j: nat := 0;
      r, lost := 0, {};
      ghost var s0 := Now();
      GoingNothing(c, s0, bytes, w, bl, i);
      NoneBeforeFirst(index, lists[i], w, bl, maySplit);
      while h != 0
        invariant Valid() && owner.Keys == old(owner.Keys) && |lists| == N_HBLK_FLS + 1 && j <= |lists[i]| && h == At(lists[i], j)
        invariant r == 0 && Going(c, s0, Now(), bytes, lost, w, bl, i) && |lists[i]| <= |s0.lists[i]|
        invariant NoneBefore(index, lists[i], j, w, bl, maySplit)
        decreases |lists[i]| - j
      {
        ListsAre(i);
        ghost var s1 := Now();
        var d := Judge(h, w, i, j, maySplit, bl);
        if d.Take? {
          WellTaken(index, lists[i], j, w, maySplit, bl, d.start);
          AllocateAt(h, d.start, i, j, bytes);
          ListsAre(i);
          GoingTaken(c, s0, s1, Now(), bytes, d.start, h, j, lost, w, bl, i, maySplit);
          return d.start, lost;
        } else if d.Drop? {
          h, lost := DropAndGoOn(h, i, j, bytes, lost, s0, s1, w, bl, maySplit);
          if h == 0 {
            ghost var s2 := Now();
            var more;
            r, more := AllochblkNth(bytes, kind, ignoreOffPage, i, maySplit, bl);
            GoingThen(c, s0, s2, Now(), bytes, r, lost, more, w, bl, i, maySplit);
            lost := lost + more;
            return;
          }
          j := j - 1;
        } else {
          NoneBeforeNext(index, lists[i], j, w, bl, maySplit);
          GoingSkipped(c, s0, s1, Now(), bytes, j, lost, w, bl, i, maySplit);
        }
        h := Advance(h, i, j);
        j := j + 1;
      }
      ListsAre(i);
      GoingEnds(c, s0, Now(), bytes, lost, w, bl, i, maySplit);
    }

    /** GC_enough_large_bytes_left: the last list from which on the free blocks, together
        with the large ones in use, make up as many as were ever in use; or 0. */
    method EnoughLargeBytesLeft(inUse: nat, everInUse: nat) returns (n: nat)
      requires |freeBlocks| == N_HBLK_FLS + 1
      ensures n == LastEnough(freeBlocks, inUse, everInUse, N_HBLK_FLS)
    {
      var sum := inUse;
      n := N_HBLK_FLS + 1;
      while n > 0
        invariant n <= N_HBLK_FLS + 1 && sum == inUse + SumFrom(freeBlocks, n)
        invariant LastEnough(freeBlocks, inUse, everInUse, N_HBLK_FLS) == if n == 0 then 0 else LastEnough(freeBlocks, inUse, everInUse, n - 1)
      {
        n := n - 1;
        sum := sum + freeBlocks[n];
        if sum >= everInUse { return; }
      }
    }

    /** GC_allochblk: the last list whose blocks are split. */
    method SplitUpTo(use: HeapUse) returns (splitLimit: nat)
      requires |freeBlocks| == N_HBLK_FLS + 1
      ensures splitLimit == SplitLimit(use, freeBlocks) <= N_HBLK_FLS
    {
      splitLimit := N_HBLK_FLS;
      if !use.wholeHeap {
        if use.finalizersFreedMuch {
          splitLimit := 0;
        } else {
          splitLimit := EnoughLargeBytesLeft(use.largeInUse, use.largeEverInUse);
        }
      }
    }

    lemma CountsAre()
      requires Valid()
      ensures |freeBlocks| == |lists| == N_HBLK_FLS + 1 && Listed(index, lists, {}) && Counted(index, freeBlocks, lists) && c.Ok()
    {
    }

    lemma FreeNonempty(h: nat)
      requires Valid() && IsFree(index, h)
      ensures Cells(h, index[h].blocks) != {} && index[h].blocks > 0
    {
      HeaderPositive(c, index, owner, h);
      assert h in Cells(h, index[h].blocks);
    }

    /** GC_allochblk.  Every block of the initial state that would have done is considered, also if
        others are dropped meanwhile.  limit is the last list whose blocks are split: it is computed
        after the exact-size search, and only single blocks dropped in that search can lower it. */
    method Allochblk(bytes: nat, kind: Kind, ignoreOffPage: bool, use: HeapUse, bl: BlackList)
      returns (r: nat, lost: set<nat>, ghost limit: nat)
      requires Valid() && bytes > 0 && bl.Ok()
      modifies this`index, this`next, this`prev, this`heads, this`freeBlocks, this`largeFree, this`dropped, this`dropCount, this`lists, this`owner
      ensures Valid() && owner.Keys == old(owner.Keys) && c.Ok()
      ensures Served(c, old(index), old(FreeNow()), index, FreeNow(), r, bytes, lost)
      ensures var w := WantedFor(c, bytes, kind, ignoreOffPage); var exact := HasExact(old(index), w, bl);
        && (lost != {} ==> !w.exempt && w.blocks == 1)
        && (r == 0 && lost == {} ==> index == old(index))
        && (exact ==> r in old(index) && old(index)[r] == Free(w.blocks))
        && (r == 0 ==> !exact && NoneFits(old(index), w, bl, limit))
        && (Heeded(w, bl) ==> (r == 0 <==> !exact && NoneFits(old(index), w, bl, limit)))
        && (!w.exempt && r != 0 && Heeded(w, bl) ==> bl.next(r, w.effective) == 0)
      ensures limit <= SplitLimit(use, old(freeBlocks)) && (r == 0 ==> SplitLimit(use, freeBlocks) <= limit)
      ensures lost == {} || use.wholeHeap ==> limit == SplitLimit(use, old(freeBlocks))
      ensures DropsCounted(bl, lost, old(dropped), dropped, old(dropCount), dropCount)
    {
      hide Valid, Served, FreeCells, Suits, Good, Searched, Untouched, Kept, Blocks, Exempt, NoneFits, HasExact, NoneOnLists,
        Listed, Counted, LastEnough, Fewer, SplitLimit, DropsCounted;
      CountsAre();
      ghost var counts0 := freeBlocks;
      WantedOk(c, bytes, kind, ignoreOffPage);
      ghost var w := WantedFor(c, bytes, kind, ignoreOffPage);
      var start := ListFor(Blocks(c, bytes));
      ghost var first, index0, lists0 := start, index, lists;
      limit := SplitLimit(use, counts0);
      r, lost := AllochblkNth(bytes, kind, ignoreOffPage, start, false, bl);
      CountsAre();
      FirstSearch(index0, lists0, index, lists, r, lost, w, bl);
      if r != 0 { return; }
      var splitLimit := SplitUpTo(use);
      limit := splitLimit;
      ghost var counts1 := freeBlocks;
      if lost == {} { CountsDetermined(index, lists, counts0, counts1); }
      FewerNothing(counts1);
      LimitShrinks(use, counts1, counts0);
      if use.wholeHeap { WholeHeapLimit(use, counts0, counts1); }
      if start < UNIQUE_THRESHOLD {
        start := start + 1;
      }
      ghost var s0 := Snapshot(index0, old(FreeNow()), lists0, counts1, old(dropped), old(dropCount));
      r, lost := SplitSearch(bytes, kind, ignoreOffPage, start, splitLimit, bl, lost, s0, first);
      if r != 0 { return; }
      CountsAre();
      LimitShrinks(use, freeBlocks, counts1);
      SoFarNone(c, s0, Now(), bytes, lost, w, bl, start, splitLimit);
    }

    /** GC_allochblk, the second loop: the lists from `from` to the limit, whose blocks are split.
        s0 and lost0 tell what has happened before. */
    method SplitSearch(bytes: nat, kind: Kind, ignoreOffPage: bool, from: nat, splitLimit: nat, bl: BlackList, lost0: set<nat>,
                       ghost s0: Snapshot, ghost first: nat)
      returns (r: nat, lost: set<nat>)
      requires Valid() && bytes > 0 && bl.Ok() && c.Ok() && splitLimit <= N_HBLK_FLS
      requires SoFar(c, s0, Now(), bytes, lost0, WantedFor(c, bytes, kind, ignoreOffPage), bl, first, from)
      modifies this`index, this`next, this`prev, this`heads, this`freeBlocks, this`largeFree, this`dropped, this`dropCount, this`lists, this`owner
      ensures Valid() && owner.Keys == old(owner.Keys)
      ensures lost0 <= lost && Served(c, s0.index, s0.free, index, FreeNow(), r, bytes, lost)
      ensures DropsCounted(bl, lost, s0.dropped, dropped, s0.dropCount, dropCount)
      ensures var w := WantedFor(c, bytes, kind, ignoreOffPage);
        && (lost != {} ==> !w.exempt && w.blocks == 1)
        && (r == 0 ==> SoFar(c, s0, Now(), bytes, lost, w, bl, first, if from <= splitLimit then splitLimit + 1 else from))
        && (r != 0 && Heeded(w, bl) ==> !NoneFits(s0.index, w, bl, splitLimit) && (!w.exempt ==> bl.next(r, w.effective) == 0))
    {
      hide Valid, Served, FreeCells, Suits, Good, Searched, Untouched, Kept, Blocks, Exempt, NoneFits, HasExact, NoneOnLists,
        Listed, Counted, Fewer, DropsCounted, SoFar;
      ghost var w := WantedFor(c, bytes, kind, ignoreOffPage);
      var start := from;
      r, lost := 0, lost0;
      SoFarServed(c, s0, Now(), bytes, lost, w, bl, first, start);
      while start <= splitLimit
        invariant Valid() && owner.Keys == old(owner.Keys) && lost0 <= lost
        invariant if from <= splitLimit then from <= start <= splitLimit + 1 else start == from
        invariant r == 0 && SoFar(c, s0, Now(), bytes, lost, w, bl, first, start)
      {
        ghost var s1 := Now();
        var more;
        CountsAre();
        r, more := AllochblkNth(bytes, kind, ignoreOffPage, start, true, bl);
        CountsAre();
        SoFarNext(c, s0, s1, Now(), bytes, r, lost, more, w, bl, first, start);
        lost := lost + more;
        if r != 0 {
          if Heeded(w, bl) { FitsFurther(s0.index, w, bl, start, splitLimit); }
          return;
        }
        start := start + 1;
      }
      SoFarServed(c, s0, Now(), bytes, lost, w, bl, first, start);
    }

    /** GC_allochblk with the bit tables, kind by kind: an ordinary request avoids the blocks that are listed,
        and finds a place if there is one; a request for uncollectable or for little pointer-free memory does not
        look at the tables. */
    method AllochblkByTables(bytes: nat, kind: Kind, ignoreOffPage: bool, use: HeapUse, t: BlackLists.Tables, limit: nat, findLeak: bool)
      returns (r: nat, lost: set<nat>)
      requires Valid() && bytes > 0 && t.Ok()
      modifies this`index, this`next, this`prev, this`heads, this`freeBlocks, this`largeFree, this`dropped, this`dropCount, this`lists, this`owner
      ensures Valid() && owner.Keys == old(owner.Keys) && c.Ok()
      ensures Served(c, old(index), old(FreeNow()), index, FreeNow(), r, bytes, lost)
      ensures var n := Blocks(c, bytes); (kind == Normal || (kind == PtrFree && n > 2)) && n <= limit ==>
        && (r != 0 ==> PlaceUnlisted(t, r, if ignoreOffPage then 1 else n))
        && (use.wholeHeap ==> (r == 0 <==> NoPlace(old(index), t, n, if ignoreOffPage then 1 else n)))
      ensures var n := Blocks(c, bytes); kind == Uncollectable || kind == AtomicUncollectable || (kind == PtrFree && n <= 2) ==>
        && lost == {}
        && (use.wholeHeap ==> (r == 0 <==> forall b :: IsFree(old(index), b) ==> old(index)[b].blocks < n))
      ensures var n := Blocks(c, bytes);
        ExactPlace(old(index), t, n, if ignoreOffPage then 1 else n, kind == Uncollectable || kind == AtomicUncollectable || (kind == PtrFree && n <= 2)) ==>
          r in old(index) && old(index)[r] == Free(n)
      ensures !use.wholeHeap && use.finalizersFreedMuch && r != 0 && (Blocks(c, bytes) <= limit || kind == Uncollectable || kind == AtomicUncollectable) ==>
        r in old(index) && old(index)[r] == Free(Blocks(c, bytes))
      ensures lost != {} ==> !findLeak && Blocks(c, bytes) == 1 && forall s :: s in lost ==> !PlaceUnlisted(t, s, 1)
    {
      hide Valid, Served, FreeCells, Blocks, HasExact, NoneFits, LastEnough, DropsCounted, FromTables, PlaceUnlisted, NoPlace, ExactPlace, WantedFor;
      var bl := FromTables(t, limit, findLeak);
      FromTablesOk(t, limit, findLeak);
      ghost var index0, reached := index, 0;
      r, lost, reached := Allochblk(bytes, kind, ignoreOffPage, use, bl);
      ByKind(c, index0, bytes, kind, ignoreOffPage, use, t, limit, findLeak, r, lost, reached);
      DroppedListed(t, limit, findLeak, lost, old(dropped), dropped, old(dropCount), dropCount);
    }

    /** GC_freehblk for an allocated block. */
    method Release(h: nat)
      requires Valid() && h in index && index[h].Used?
      modifies this`index, this`next, this`prev, this`heads, this`freeBlocks, this`largeFree, this`lists, this`owner
      ensures Valid() && owner.Keys == old(owner.Keys) && c.Ok()
      ensures FreeNow() == old(FreeNow()) + Cells(h, Blocks(c, old(index)[h].bytes))
      ensures UsedBlocks(index) == old(UsedBlocks(index)) - {h} && UsedKept(index, old(index))
    {
      hide Shape, FreeCells, AllLinked, Listed, Counted, Coalesced, UsedKept, UsedBlocks, Blocks, Freeable;
      UsedFreeable(c, index, owner, h);
      ShapeConfig(c, index, owner);
      ghost var b := Freehblk(h);
      assert |owner| == |owner.Keys| == old(|owner.Keys|) == old(|owner|);
    }

    /** Allocating and giving back at once restores the address map, whatever was split and merged,
        if and only if no black-listed block was dropped on the way. */
    method AllocateAndRelease(bytes: nat, kind: Kind, ignoreOffPage: bool, use: HeapUse, bl: BlackList)
      returns (lost: set<nat>)
      requires Valid() && bytes > 0 && bl.Ok()
      modifies this`index, this`next, this`prev, this`heads, this`freeBlocks, this`largeFree, this`dropped, this`dropCount, this`lists, this`owner
      ensures Valid() && owner.Keys == old(owner.Keys) && FreeNow() == old(FreeNow()) - lost && lost <= old(FreeNow())
      ensures index == old(index) <==> lost == {}
      ensures Exempt(kind, Blocks(c, bytes)) ==> lost == {}
    {
      hide Exempt, HasExact, NoneFits, Good, Blocks, Shape, FreeCells, Coalesced, Valid, Served, UsedBlocks, UsedKept, SplitLimit, Heeded, DropsCounted;
      MapIs();
      ghost var index0, owner0, free0 := index, owner, FreeNow();
      ghost var limit: nat;
      var r: nat;
      r, lost, limit := Allochblk(bytes, kind, ignoreOffPage, use, bl);
      ghost var index1, free1 := index, FreeNow();
      if r == 0 {
        UsedSame(index1);
        ServedLost(c, index0, free0, index1, free1, index1, r, bytes, lost);
      } else {
        BlocksPositive(c, bytes);
        ServedBlock(c, index0, free0, index1, free1, r, bytes, lost);
        Release(r);
        ServedLost(c, index0, free0, index1, free1, index, r, bytes, lost);
      }
      MapIs();
      if lost == {} { MapDetermined(c, index0, owner0, index, owner); }
    }

    lemma MapIs()
      requires Valid()
      ensures Shape(c, index, owner) && Coalesced(index) && largeFree == |FreeNow()| && FreeNow() == FreeCells(index, owner) && c.Ok()
      ensures FreeNow() !! UsedBlocks(index)
    {
      forall b | b in UsedBlocks(index) ensures b !in FreeNow() { OwnHeader(c, index, owner, b); }
    }
  }

  lemma ServedBlock(c: Config, index: Index, free: set<nat>, index': Index, free': set<nat>, r: nat, bytes: nat, lost: set<nat>)
    requires c.Ok() && Served(c, index, free, index', free', r, bytes, lost) && r != 0
    ensures r in index' && index'[r] == Used(bytes) && free' + Cells(r, Blocks(c, bytes)) == free - lost
  {
    hide Blocks;
  }

  // ----- The order of the free lists -----

  /** Free block b is the first one on the list for its size. */
  ghost predicate IsFirst(index: Index, lists: seq<seq<nat>>, b: nat) {
    && IsFree(index, b) && ListFor(index[b].blocks) < |lists|
    && var list := lists[ListFor(index[b].blocks)]; |list| > 0 && list[0] == b
  }

  /** Block number h is part of it. */
  ghost predicate FirstOnList(index: Index, lists: seq<seq<nat>>, b: nat, h: nat) {
    IsFirst(index, lists, b) && b <= h < b + index[b].blocks
  }

  /** A free block number between two that are not free is a free block of its own. */
  lemma SingleFree(c: Config, index: Index, owner: Owner, a: nat)
    requires Shape(c, index, owner) && a in FreeCells(index, owner)
    requires a - 1 !in FreeCells(index, owner) && a + 1 !in FreeCells(index, owner)
    ensures IsFree(index, a) && index[a] == Free(1)
  {
    hide Shape;
    OwnerBounds(c, index, owner, a);
    var b: nat := owner[a];
    BlockIsWhole(c, index, owner, b);
    FreeRange(index, owner, b, Extent(c, index[b]), b);
    var n := Extent(c, index[b]);
    assert b <= a - 1 <==> a - 1 in Cells(b, n);
    assert a + 1 < b + n <==> a + 1 in Cells(b, n);
  }

  /** Two sections, the second one behind the first and apart from it: their blocks are on the
      list for single blocks, the higher one first. */
  method ListsOutOfOrder(c: Config) returns (heap: BlockHeap)
    requires c.Ok()
    ensures heap.Valid() && |heap.lists| > 1 && !Ascending(heap.lists[1])
    ensures |heap.lists[1]| > 0 && heap.lists[1][0] == 4 && 2 in heap.lists[1]
  {
    hide Shape, FreeCells, BlockHeap.Valid, UsedKept, UsedBlocks, FirstOnList, Ascending;
    heap := new BlockHeap(c);
    heap.MapIs();
    NothingFree();
    Sections();
    ghost var b := heap.AddToHeap(2, 1, 10);
    b := heap.AddToHeap(4, 1, 10);
    heap.MapIs();
    heap.CountsAre();
    assert FreeCells(heap.index, heap.owner) == {2, 4};
    SingleFree(c, heap.index, heap.owner, 2);
    SingleFree(c, heap.index, heap.owner, 4);
    TwoOnList(c, heap.index, heap.owner, heap.lists, b);
  }

  lemma NothingFree()
    ensures FreeCells(map[], map[]) == {}
  {
  }

  lemma Sections()
    ensures Usable(2, 1, 10) == {2} == Cells(2, 1) && Usable(4, 1, 10) == {4} == Cells(4, 1)
  {
  }

  lemma TwoOnList(c: Config, index: Index, owner: Owner, lists: seq<seq<nat>>, b: nat)
    requires Shape(c, index, owner) && Listed(index, lists, {}) && FirstOnList(index, lists, b, 4)
    requires IsFree(index, 2) && index[2] == Free(1) && IsFree(index, 4) && index[4] == Free(1)
    ensures |lists| > 1 && |lists[1]| > 0 && lists[1][0] == 4 && 2 in lists[1] && !Ascending(lists[1])
  {
    hide Shape;
    SameBlock(c, index, owner, b, 4, 4);
    assert ListFor(1) == 1 && 2 in lists[1];
  }

  lemma UsedSame(index: Index)
    ensures UsedKept(index, index)
  {
  }

  /** Once the block found has been freed again, only dropped ones are missing. */
  lemma ServedLost(c: Config, index: Index, free: set<nat>, index': Index, free': set<nat>, index'': Index, r: nat, bytes: nat, lost: set<nat>)
    requires c.Ok() && Served(c, index, free, index', free', r, bytes, lost) && free !! UsedBlocks(index) && Blocks(c, bytes) > 0
    requires UsedBlocks(index'') == UsedBlocks(index') - (if r == 0 then {} else {r}) && UsedKept(index'', index')
    ensures lost <= free && (r == 0 ==> free' == free - lost)
    ensures UsedBlocks(index'') == UsedBlocks(index) + lost
    ensures lost == {} ==> UsedKept(index, index'')
    ensures lost != {} ==> UsedBlocks(index'') != UsedBlocks(index)
  {
    hide Blocks;
    if r != 0 { assert r in Cells(r, Blocks(c, bytes)); }
    if lost == {} { UsedBack(index, index', index''); }
    if lost != {} {
      var b :| b in lost;
      assert b in UsedBlocks(index'') && b !in UsedBlocks(index);
    }
  }

  /** The allocated blocks and the free block numbers determine the whole map: free
      blocks are as long as they can be. */
  lemma MapDetermined(c: Config, index: Index, owner: Owner, index': Index, owner': Owner)
    requires Shape(c, index, owner) && Coalesced(index) && Shape(c, index', owner') && Coalesced(index')
    requires owner.Keys == owner'.Keys && FreeCells(index, owner) == FreeCells(index', owner')
    requires UsedBlocks(index) == UsedBlocks(index') && UsedKept(index, index')
    ensures index == index'
  {
    hide Shape, Coalesced, FreeCells, UsedBlocks, UsedKept;
    forall a ensures a in index ==> a in index' && index'[a] == index[a] {
      if a in index { EntryDetermined(c, index, owner, index', owner', a); }
    }
    UsedBothWays(index, index');
    forall a ensures a in index' ==> a in index {
      if a in index' { EntryDetermined(c, index', owner', index, owner, a); }
    }
  }

  lemma UsedBack(index: Index, index1: Index, index2: Index)
    requires UsedKept(index, index1) && UsedKept(index2, index1) && UsedBlocks(index2) == UsedBlocks(index)
    ensures UsedKept(index, index2)
  {
    forall b | b in index && index[b].Used? ensures b in index2 && index2[b] == index[b] { assert b in UsedBlocks(index2); }
  }

  lemma UsedBothWays(index: Index, index': Index)
    requires UsedBlocks(index) == UsedBlocks(index') && UsedKept(index, index')
    ensures UsedKept(index', index)
  {
    forall b | b in index' && index'[b].Used? ensures b in index && index[b] == index'[b] { assert b in UsedBlocks(index'); }
  }

  lemma EntryDetermined(c: Config, index: Index, owner: Owner, index': Index, owner': Owner, a: nat)
    requires Shape(c, index, owner) && Coalesced(index) && Shape(c, index', owner') && Coalesced(index')
    requires owner.Keys == owner'.Keys && FreeCells(index, owner) == FreeCells(index', owner')
    requires UsedKept(index, index') && a in index
    ensures a in index' && index'[a] == index[a]
  {
    if index[a].Forward? {
      ForwardInside(c, index, owner, a);
      var b := owner[a];
      SameForward(c, index, owner, index', owner', b, a);
    } else if index[a].Free? {
      FreeStart(c, index, owner, index', owner', a);
      FreeEnd(c, index, owner, index', owner', a);
      FreeEnd(c, index', owner', index, owner, a);
    }
  }

  lemma SameForward(c: Config, index: Index, owner: Owner, index': Index, owner': Owner, b: nat, a: nat)
    requires Shape(c, index, owner) && Shape(c, index', owner') && UsedKept(index, index')
    requires b in index && index[b].Used? && a in owner && owner[a] == b && a != b && a in index
    ensures a in index' && index'[a] == index[a]
  {
    assert HeaderOk(c, index, owner, b) && CellOk(c, index, owner, a);
    assert HeaderOk(c, index', owner', b);
  }

  /** A free block number just before a free block belongs to one that meets it. */
  lemma FreeBefore(c: Config, index: Index, owner: Owner, a: nat)
    requires Shape(c, index, owner) && IsFree(index, a) && a > 0 && a - 1 in FreeCells(index, owner)
    ensures Meet(index, owner[a - 1], a)
  {
    hide Shape;
    OwnHeader(c, index, owner, a);
    OwnerBounds(c, index, owner, a - 1);
    BlockIsWhole(c, index, owner, owner[a - 1]);
  }

  /** A free block number just behind a free block starts one. */
  lemma FreeBehind(c: Config, index: Index, owner: Owner, a: nat)
    requires Shape(c, index, owner) && IsFree(index, a) && a + index[a].blocks in FreeCells(index, owner)
    ensures Meet(index, a, a + index[a].blocks)
  {
    hide Shape;
    var e := a + index[a].blocks;
    OwnHeader(c, index, owner, a);
    OwnerBounds(c, index, owner, e);
    OwnHeader(c, index, owner, owner[e]);
    BlockIsWhole(c, index, owner, a);
    BlockIsWhole(c, index, owner, owner[e]);
  }

  /** A free block starts where one starts in the other map. */
  lemma FreeStart(c: Config, index: Index, owner: Owner, index': Index, owner': Owner, a: nat)
    requires Shape(c, index, owner) && Coalesced(index) && Shape(c, index', owner')
    requires FreeCells(index, owner) == FreeCells(index', owner') && IsFree(index, a)
    ensures IsFree(index', a)
  {
    hide Shape;
    OwnHeader(c, index, owner, a);
    assert a in FreeCells(index, owner);
    OwnerBounds(c, index', owner', a);
    if owner'[a] < a {
      InBlock(c, index', owner', owner'[a], a - 1);
      FreeBefore(c, index, owner, a);
    }
  }

  /** ... and is no shorter than in the other map. */
  lemma FreeEnd(c: Config, index: Index, owner: Owner, index': Index, owner': Owner, a: nat)
    requires Shape(c, index, owner) && Coalesced(index) && Shape(c, index', owner')
    requires FreeCells(index, owner) == FreeCells(index', owner') && IsFree(index, a) && IsFree(index', a)
    ensures index[a].blocks >= index'[a].blocks
  {
    hide Shape;
    if index[a].blocks < index'[a].blocks {
      InBlock(c, index', owner', a, a + index[a].blocks);
      FreeBehind(c, index, owner, a);
    }
  }

  lemma OwnerBounds(c: Config, index: Index, owner: Owner, a: nat)
    requires Shape(c, index, owner) && a in owner
    ensures Header(index, owner[a]) && c.Ok() && owner[a] <= a < owner[a] + Extent(c, index[owner[a]])
  {
    assert CellOk(c, index, owner, a);
  }

  lemma InBlock(c: Config, index: Index, owner: Owner, b: nat, a: nat)
    requires Shape(c, index, owner) && Header(index, b) && b <= a < b + Extent(c, index[b])
    ensures a in owner && owner[a] == b
  {
    assert HeaderOk(c, index, owner, b);
  }

  /** Some free block of exactly the wanted size would do. */
  ghost predicate HasExact(index: Index, w: Wanted, bl: BlackList) {
    exists b :: Good(index, b, w, bl, false)
  }

  /** Nothing on lists `from` to `to` - 1 would do. */
  ghost predicate NoneOnLists(index: Index, lists: seq<seq<nat>>, from: nat, to: nat, w: Wanted, bl: BlackList) {
    forall k, l | 0 <= k < |lists| && from <= k < to && 0 <= l < |lists[k]| :: !Good(index, lists[k][l], w, bl, true)
  }

  /** On a list for a single size splitting makes no difference. */
  lemma UniqueList(index: Index, lists: seq<seq<nat>>, w: Wanted, bl: BlackList)
    requires Listed(index, lists, {}) && ListFor(w.blocks) < UNIQUE_THRESHOLD
    requires forall l :: 0 <= l < |lists[ListFor(w.blocks)]| ==> !Good(index, lists[ListFor(w.blocks)][l], w, bl, false)
    ensures NoneOnLists(index, lists, ListFor(w.blocks), ListFor(w.blocks) + 1, w, bl)
  {
    var first := ListFor(w.blocks);
    forall k, l | 0 <= k < |lists| && first <= k < first + 1 && 0 <= l < |lists[k]|
      ensures Good(index, lists[k][l], w, bl, true) ==> Good(index, lists[k][l], w, bl, false)
    {
      assert PlaceOk(index, lists[k][l], k, {});
      ListOrder(w.blocks, index[lists[k][l]].blocks);
    }
  }

  /** The search for an exact match fails only if there is none that would do. */
  lemma FirstSearch(index: Index, lists: seq<seq<nat>>, index': Index, lists': seq<seq<nat>>, r: nat, lost: set<nat>, w: Wanted, bl: BlackList)
    requires Listed(index, lists, {}) && Listed(index', lists', {}) && ListFor(w.blocks) < |lists|
    requires Searched(index, lists, index', lists', r, lost, w, bl, ListFor(w.blocks), false)
    ensures var first := ListFor(w.blocks);
      && (lost != {} ==> !w.exempt && w.blocks == 1)
      && (r != 0 ==> r in index && index[r] == Free(w.blocks) && (Heeded(w, bl) ==> HasExact(index, w, bl)))
      && (r == 0 ==>
           && Kept(index, index', w, bl) && (lost == {} ==> index' == index && lists' == lists)
           && !HasExact(index, w, bl) && NoneOnLists(index', lists', first, first, w, bl)
           && (first < UNIQUE_THRESHOLD ==> NoneOnLists(index', lists', first, first + 1, w, bl)))
  {
    if r == 0 {
      forall b ensures !Good(index, b, w, bl, false) {
        if Good(index, b, w, bl, false) { ExactIsSearched(index, index', lists', b, w, bl); }
      }
      if ListFor(w.blocks) < UNIQUE_THRESHOLD { UniqueList(index', lists', w, bl); }
    }
  }

  /** A block that would do is still there, and on the list for its size. */
  lemma ExactIsSearched(index: Index, index': Index, lists': seq<seq<nat>>, b: nat, w: Wanted, bl: BlackList)
    requires Kept(index, index', w, bl) && Listed(index', lists', {}) && Good(index, b, w, bl, false)
    ensures var first := ListFor(w.blocks); first < |lists'| && exists l :: 0 <= l < |lists'[first]| && Good(index', lists'[first][l], w, bl, false)
  {
    assert Good(index, b, w, bl, true) && IsFree(index', b) && index'[b] == index[b];
    var l :| 0 <= l < |lists'[ListFor(w.blocks)]| && lists'[ListFor(w.blocks)][l] == b;
  }

  lemma NextSearch(index0: Index, index: Index, lists: seq<seq<nat>>, index': Index, lists': seq<seq<nat>>,
                   r: nat, lost: set<nat>, w: Wanted, bl: BlackList, first: nat, i: nat)
    requires i < |lists| && Searched(index, lists, index', lists', r, lost, w, bl, i, true) && Kept(index0, index, w, bl)
    requires NoneOnLists(index, lists, first, i, w, bl) && Listed(index', lists', {})
    ensures lost != {} ==> !w.exempt && w.blocks == 1
    ensures r != 0 && Heeded(w, bl) ==> !NoneFits(index0, w, bl, i)
    ensures r == 0 ==> Kept(index0, index', w, bl) && NoneOnLists(index', lists', first, i + 1, w, bl)
    ensures r == 0 && lost == {} ==> index' == index && lists' == lists
  {
    if r == 0 {
      KeptThen(index0, index, index', w, bl);
      forall k, l | 0 <= k < |lists'| && first <= k < i + 1 && 0 <= l < |lists'[k]| ensures !Good(index', lists'[k][l], w, bl, true) {
        if Good(index', lists'[k][l], w, bl, true) && k != i { GoodBefore(index, index', lists'[k][l], w, bl, true); }
      }
    } else if Heeded(w, bl) {
      var b :| Good(index, b, w, bl, true) && ListFor(index[b].blocks) <= i;
      GoodBefore(index0, index, b, w, bl, true);
    }
  }

  /** Blocks that would do can only be on the lists that were searched, or behind them. */
  lemma NoListNoBlock(index: Index, lists: seq<seq<nat>>, w: Wanted, bl: BlackList, end: nat, limit: nat)
    requires Listed(index, lists, {}) && NoneOnLists(index, lists, ListFor(w.blocks), end, w, bl) && limit < end
    ensures NoneFits(index, w, bl, limit)
  {
    forall b | IsFree(index, b) && ListFor(index[b].blocks) <= limit ensures !Good(index, b, w, bl, true) {
      var i := ListFor(index[b].blocks);
      var l :| 0 <= l < |lists[i]| && lists[i][l] == b;
      ListOrder(w.blocks, index[b].blocks);
      assert i >= ListFor(w.blocks) ==> !Good(index, lists[i][l], w, bl, true);
    }
  }

  lemma FitsFurther(index: Index, w: Wanted, bl: BlackList, limit: nat, limit': nat)
    requires !NoneFits(index, w, bl, limit) && limit <= limit'
    ensures !NoneFits(index, w, bl, limit')
  {
    hide Good;
  }

  lemma NoneFitsBefore(index: Index, index': Index, w: Wanted, bl: BlackList, limit: nat)
    requires Kept(index, index', w, bl) && NoneFits(index', w, bl, limit)
    ensures NoneFits(index, w, bl, limit)
  {
    forall b | IsFree(index, b) && ListFor(index[b].blocks) <= limit ensures !Good(index, b, w, bl, true) {
      if Good(index, b, w, bl, true) { assert IsFree(index', b) && Good(index', b, w, bl, true); }
    }
  }

  /** With the whole heap to be used, NoneFits is about all free blocks; for exempt requests, about their lengths. */
  lemma WholeHeapFits(index: Index, w: Wanted, bl: BlackList)
    ensures NoneFits(index, w, bl, N_HBLK_FLS) <==>
      forall b :: IsFree(index, b) && index[b].blocks >= w.blocks ==> !w.exempt && !HasStart(bl, b, index[b].blocks, w)
  {
    hide HasStart;
    forall b | IsFree(index, b)
      ensures Good(index, b, w, bl, true) <==> index[b].blocks >= w.blocks && (w.exempt || HasStart(bl, b, index[b].blocks, w)) {}
  }

  lemma WholeHeapLimit(use: HeapUse, counts: seq<nat>, counts': seq<nat>)
    requires use.wholeHeap
    ensures SplitLimit(use, counts) == SplitLimit(use, counts')
  {
  }

  // ----- Fewer free blocks -----

  ghost predicate Fewer(counts: seq<nat>, counts': seq<nat>) {
    |counts| == |counts'| && forall k :: 0 <= k < |counts| ==> counts[k] <= counts'[k]
  }

  lemma FewerNothing(counts: seq<nat>)
    ensures Fewer(counts, counts)
  {
  }

  lemma FewerThen(counts: seq<nat>, counts': seq<nat>, counts'': seq<nat>)
    requires Fewer(counts, counts') && Fewer(counts', counts'')
    ensures Fewer(counts, counts'')
  {
  }

  lemma {:induction false} SumShrinks(counts: seq<nat>, counts': seq<nat>, n: nat)
    requires Fewer(counts, counts')
    ensures SumFrom(counts, n) <= SumFrom(counts', n)
    decreases |counts| - n
  {
    if n < |counts| { SumShrinks(counts, counts', n + 1); }
  }

  /** With fewer free blocks no longer ones are split than before. */
  lemma LimitShrinks(use: HeapUse, counts: seq<nat>, counts': seq<nat>)
    requires Fewer(counts, counts')
    ensures SplitLimit(use, counts) <= SplitLimit(use, counts')
  {
    var r := LastEnough(counts, use.largeInUse, use.largeEverInUse, N_HBLK_FLS);
    SumShrinks(counts, counts', r);
  }

  lemma CountsDetermined(index: Index, lists: seq<seq<nat>>, counts: seq<nat>, counts': seq<nat>)
    requires Counted(index, counts, lists) && Counted(index, counts', lists)
    ensures counts == counts'
  {
  }

  /** What GC_allochblk's readiness to split depends on: use the whole heap, hold back
      because finalizers freed much, and how many large blocks are, and ever were, in use. */
  datatype HeapUse = HeapUse(wholeHeap: bool, finalizersFreedMuch: bool, largeInUse: nat, largeEverInUse: nat)

  /** The last list, up to the n-th, from which on there is enough; or 0. */
  ghost function LastEnough(counts: seq<nat>, inUse: nat, everInUse: nat, n: nat): (r: nat)
    ensures r <= n && (r > 0 ==> inUse + SumFrom(counts, r) >= everInUse)
    ensures forall m :: r < m <= n ==> inUse + SumFrom(counts, m) < everInUse
  {
    if n == 0 || inUse + SumFrom(counts, n) >= everInUse then n else LastEnough(counts, inUse, everInUse, n - 1)
  }

  /** The last list whose blocks GC_allochblk splits. */
  ghost function SplitLimit(use: HeapUse, counts: seq<nat>): nat {
    if use.wholeHeap then N_HBLK_FLS
    else if use.finalizersFreedMuch then 0
    else LastEnough(counts, use.largeInUse, use.largeEverInUse, N_HBLK_FLS)
  }

  lemma SplitLimitIs(use: HeapUse, counts: seq<nat>)
    requires |counts| == N_HBLK_FLS + 1
    ensures use.wholeHeap ==> SplitLimit(use, counts) == 60
    ensures !use.wholeHeap && use.finalizersFreedMuch ==> SplitLimit(use, counts) == 0
    ensures !use.wholeHeap && !use.finalizersFreedMuch ==>
      var last := SplitLimit(use, counts);
      && (last > 0 ==> use.largeInUse + SumFrom(counts, last) >= use.largeEverInUse)
      && forall m :: last < m <= 60 ==> use.largeInUse + SumFrom(counts, m) < use.largeEverInUse
  {
  }

  ghost function SumFrom(counts: seq<nat>, n: nat): nat
    decreases |counts| - n
  {
    if n >= |counts| then 0 else counts[n] + SumFrom(counts, n + 1)
  }

  datatype Decision = Skip | Take(start: nat) | Drop

  /** Block b would be taken for n blocks, if need be by splitting it. */
  predicate Suits(index: Index, b: nat, n: nat, maySplit: bool) {
    IsFree(index, b) && (index[b].blocks == n || (maySplit && index[b].blocks > n))
  }

  /** What an allocation changes: the blocks of the result, if there is one, and the
      dropped ones are allocated and no longer free; nothing else changes hands. */
  ghost predicate Served(c: Config, index: Index, free: set<nat>, index': Index, free': set<nat>, r: nat, bytes: nat, lost: set<nat>)
    requires c.Ok()
  {
    && lost <= free && Taken(c, r, bytes) <= free - lost && free' == free - lost - Taken(c, r, bytes)
    && UsedKept(index, index') && UsedBlocks(index') == UsedBlocks(index) + lost + (if r == 0 then {} else {r})
    && (r != 0 ==> r in index' && index'[r] == Used(bytes))
    && (forall b :: b in lost ==> b in index' && index'[b] == Used(c.hblkSize))
    && WholeRuns(free, lost)
  }

  /** With a block number its free neighbours are lost too: whole free blocks are. */
  ghost predicate WholeRuns(free: set<nat>, lost: set<nat>) {
    forall a, b :: a in lost && b in free && (b == a + 1 || a == b + 1) ==> b in lost
  }

  /** A place in block b of `avail` blocks that is not black listed. */
  ghost predicate HasStart(bl: BlackList, b: nat, avail: nat, w: Wanted) {
    exists s: nat :: b <= s && s + w.blocks <= b + avail && bl.next(s, w.effective) == 0
  }

  /** Block b would do for the request. */
  ghost predicate Good(index: Index, b: nat, w: Wanted, bl: BlackList, maySplit: bool) {
    Suits(index, b, w.blocks, maySplit) && (w.exempt || HasStart(bl, b, index[b].blocks, w))
  }

  /** A block shorter than `avail`, long enough, and not black listed from its start. */
  ghost predicate BetterBlock(index: Index, s: nat, avail: nat, w: Wanted, bl: BlackList) {
    IsFree(index, s) && w.blocks <= index[s].blocks < avail && bl.next(s, w.blocks) == 0
  }

  /** Block j of a list is long enough, may be split if it is longer, and its successor is no better choice. */
  ghost predicate Candidate(index: Index, list: seq<nat>, j: nat, w: Wanted, maySplit: bool, bl: BlackList)
    requires j < |list| && IsFree(index, list[j])
  {
    var avail := index[list[j]].blocks;
    || avail == w.blocks
    || (avail > w.blocks && maySplit && !(j + 1 < |list| && BetterBlock(index, list[j + 1], avail, w, bl)))
  }

  /** A decision loses nothing that would do: only what fits is taken, only what would not do is dropped,
      and what would do is passed by only for a successor that would do too. */
  ghost predicate WellJudged(index: Index, list: seq<nat>, j: nat, w: Wanted, maySplit: bool, bl: BlackList, d: Decision)
    requires j < |list| && IsFree(index, list[j])
  {
    var h := list[j];
    && (d.Take? ==> h <= d.start && d.start - h + w.blocks <= index[h].blocks && (maySplit || index[h].blocks == w.blocks))
    && (d.Take? && w.exempt ==> d.start == h)
    && (d.Take? && !w.exempt && w.blocks <= bl.limit ==> bl.next(d.start, w.effective) == 0)
    && (d.Drop? ==> !w.exempt && w.blocks == 1 && !Good(index, h, w, bl, true))
    && (d.Skip? && Good(index, h, w, bl, maySplit) ==> j + 1 < |list| && Good(index, list[j + 1], w, bl, maySplit))
  }

  lemma WellTaken(index: Index, list: seq<nat>, j: nat, w: Wanted, maySplit: bool, bl: BlackList, r: nat)
    requires j < |list| && IsFree(index, list[j]) && WellJudged(index, list, j, w, maySplit, bl, Take(r))
    ensures list[j] <= r && r - list[j] + w.blocks <= index[list[j]].blocks && (maySplit || index[list[j]].blocks == w.blocks)
  {
    hide Good;
  }

  /** The decision about block j of a list, case by case: a usable block is taken from its first start that
      is not black listed.  If there is none, the request is refused, unless it is exempt or very long; and
      every fourth such block that is met in a request for a single block is dropped. */
  ghost predicate Judged(index: Index, list: seq<nat>, j: nat, w: Wanted, maySplit: bool, bl: BlackList, count: nat, d: Decision, count': nat)
    requires j < |list| && IsFree(index, list[j])
  {
    var h, avail := list[j], index[list[j]].blocks;
    if !Candidate(index, list, j, w, maySplit, bl) then d == Skip && count' == count
    else if w.exempt then d == Take(h) && count' == count
    else if HasStart(bl, h, avail, w) then
      && d.Take? && count' == count && h <= d.start && bl.next(d.start, w.effective) == 0
      && forall s: nat :: h <= s < d.start ==> bl.next(s, w.effective) != 0
    else if w.blocks > bl.limit && avail - w.blocks > bl.limit then d == Take(h) && count' == count
    else if w.blocks == 1 && !bl.findLeak then count' == count + 1 && d == if count' % 4 == 0 then Drop else Skip
    else d == Skip && count' == count
  }

  /** What has been given away: all of it is black listed, it is accounted for, and that happens
      exactly if the count of blocks without a start passes a multiple of four. */
  ghost predicate DropsCounted(bl: BlackList, lost: set<nat>, dropped: nat, dropped': nat, count: nat, count': nat) {
    && dropped' == dropped + |lost| && (forall s :: s in lost ==> bl.next(s, 1) != 0)
    && count <= count' && (lost == {} <==> count' / 4 == count / 4) && (bl.findLeak ==> count' == count)
  }

  lemma DropsNothing(bl: BlackList, dropped: nat, count: nat)
    ensures DropsCounted(bl, {}, dropped, dropped, count, count)
  {
  }

  lemma DropsThen(bl: BlackList, lost: set<nat>, more: set<nat>, dropped: nat, dropped1: nat, dropped': nat, count: nat, count1: nat, count': nat)
    requires DropsCounted(bl, lost, dropped, dropped1, count, count1) && DropsCounted(bl, more, dropped1, dropped', count1, count') && lost !! more
    ensures DropsCounted(bl, lost + more, dropped, dropped', count, count')
  {
    assert |lost + more| == |lost| + |more|;
  }

  lemma DroppedListed(t: BlackLists.Tables, limit: nat, findLeak: bool, lost: set<nat>, dropped: nat, dropped': nat, count: nat, count': nat)
    requires t.Ok() && DropsCounted(FromTables(t, limit, findLeak), lost, dropped, dropped', count, count')
    ensures (findLeak ==> lost == {}) && forall s :: s in lost ==> !PlaceUnlisted(t, s, 1)
  {
    hide PlaceUnlisted;
    forall s | s in lost ensures !PlaceUnlisted(t, s, 1) { TablesSay(t, limit, findLeak, s, 1); }
  }

  /** The contract of GC_allochblk, spelt out for each kind of request. */
  lemma ByKind(c: Config, index: Index, bytes: nat, kind: Kind, ignoreOffPage: bool, use: HeapUse, t: BlackLists.Tables, limit: nat, findLeak: bool,
               r: nat, lost: set<nat>, reached: nat)
    requires c.Ok() && bytes > 0 && t.Ok()
    requires var bl := FromTables(t, limit, findLeak); var w := WantedFor(c, bytes, kind, ignoreOffPage); var exact := HasExact(index, w, bl);
      && (lost != {} ==> !w.exempt && w.blocks == 1)
      && (r == 0 ==> !exact && NoneFits(index, w, bl, reached))
      && (Heeded(w, bl) ==> (r == 0 <==> !exact && NoneFits(index, w, bl, reached)))
      && (!w.exempt && r != 0 && Heeded(w, bl) ==> bl.next(r, w.effective) == 0)
      && (use.wholeHeap ==> reached == N_HBLK_FLS) && (!use.wholeHeap && use.finalizersFreedMuch ==> reached == 0)
      && (exact ==> r in index && index[r] == Free(w.blocks))
    ensures var n := Blocks(c, bytes); (kind == Normal || (kind == PtrFree && n > 2)) && n <= limit ==>
      && (r != 0 ==> PlaceUnlisted(t, r, if ignoreOffPage then 1 else n))
      && (use.wholeHeap ==> (r == 0 <==> NoPlace(index, t, n, if ignoreOffPage then 1 else n)))
    ensures var n := Blocks(c, bytes); kind == Uncollectable || kind == AtomicUncollectable || (kind == PtrFree && n <= 2) ==>
      lost == {} && (use.wholeHeap ==> (r == 0 <==> forall b :: IsFree(index, b) ==> index[b].blocks < n))
    ensures lost != {} ==> Blocks(c, bytes) == 1
    ensures !use.wholeHeap && use.finalizersFreedMuch && r != 0 && (Blocks(c, bytes) <= limit || kind == Uncollectable || kind == AtomicUncollectable) ==>
      r in index && index[r] == Free(Blocks(c, bytes))
    ensures var n := Blocks(c, bytes);
      ExactPlace(index, t, n, if ignoreOffPage then 1 else n, kind == Uncollectable || kind == AtomicUncollectable || (kind == PtrFree && n <= 2)) ==>
        r in index && index[r] == Free(n)
  {
    hide Blocks, NoneFits, HasExact, PlaceUnlisted, ExactPlace;
    ExactIs(index, t, limit, findLeak, WantedFor(c, bytes, kind, ignoreOffPage));
    var bl, w := FromTables(t, limit, findLeak), WantedFor(c, bytes, kind, ignoreOffPage);
    BlocksPositive(c, bytes);
    NothingShort(index, w, bl);
    if w.exempt || w.blocks <= limit { WholeHeapExact(index, w, bl); }
    forall s: nat ensures bl.next(s, w.effective) == 0 <==> PlaceUnlisted(t, s, w.effective) { TablesSay(t, limit, findLeak, s, w.effective); }
  }

  lemma ExactIs(index: Index, t: BlackLists.Tables, limit: nat, findLeak: bool, w: Wanted)
    requires t.Ok() && (w.blocks > 0 ==> w.Ok())
    ensures w.blocks > 0 && ExactPlace(index, t, w.blocks, w.effective, w.exempt) ==> HasExact(index, w, FromTables(t, limit, findLeak))
  {
    hide PlaceUnlisted;
    var bl := FromTables(t, limit, findLeak);
    if w.blocks > 0 && ExactPlace(index, t, w.blocks, w.effective, w.exempt) {
      var b: nat :| IsFree(index, b) && index[b].blocks == w.blocks && (w.exempt || PlaceUnlisted(t, b, w.effective));
      TablesSay(t, limit, findLeak, b, w.effective);
      assert w.exempt || (b <= b && b + w.blocks <= b + index[b].blocks && bl.next(b, w.effective) == 0);
      assert Good(index, b, w, bl, false);
    }
  }

  lemma NothingShort(index: Index, w: Wanted, bl: BlackList)
    requires w.Ok()
    ensures NoneFits(index, w, bl, 0)
  {
  }

  /** An exact match is a free block that would do. */
  lemma WholeHeapExact(index: Index, w: Wanted, bl: BlackList)
    ensures !HasExact(index, w, bl) && NoneFits(index, w, bl, N_HBLK_FLS) <==>
      forall b :: IsFree(index, b) && index[b].blocks >= w.blocks ==> !w.exempt && !HasStart(bl, b, index[b].blocks, w)
  {
    hide HasStart;
    WholeHeapFits(index, w, bl);
    if HasExact(index, w, bl) {
      var b :| Good(index, b, w, bl, false);
      assert IsFree(index, b) && index[b].blocks >= w.blocks;
    }
  }

  /** A block without a start for a single block is black listed from end to end. */
  lemma JudgedDrop(index: Index, list: seq<nat>, j: nat, w: Wanted, maySplit: bool, bl: BlackList, dropped: nat, count: nat, count': nat)
    requires j < |list| && IsFree(index, list[j]) && index[list[j]].blocks > 0 && w.Ok()
    requires Judged(index, list, j, w, maySplit, bl, count, Drop, count')
    ensures DropsCounted(bl, Cells(list[j], index[list[j]].blocks), dropped, dropped + index[list[j]].blocks, count, count')
  {
    var h, avail := list[j], index[list[j]].blocks;
    CellsCount(h, avail);
    assert h in Cells(h, avail);
    forall s | s in Cells(h, avail) ensures bl.next(s, 1) != 0 { }
  }

  lemma JudgedOther(index: Index, list: seq<nat>, j: nat, w: Wanted, maySplit: bool, bl: BlackList, d: Decision,
                    lost: set<nat>, dropped: nat, dropped': nat, count: nat, count1: nat, count': nat)
    requires j < |list| && IsFree(index, list[j]) && Judged(index, list, j, w, maySplit, bl, count1, d, count') && !d.Drop?
    requires DropsCounted(bl, lost, dropped, dropped', count, count1)
    ensures DropsCounted(bl, lost, dropped, dropped', count, count')
  {
    hide Candidate, HasStart;
  }

  /** Very long requests are served from black-listed blocks rather than not at all. */
  predicate Heeded(w: Wanted, bl: BlackList) {
    w.exempt || w.blocks <= bl.limit
  }

  /** No free block that belongs on one of the lists up to the given one would do. */
  ghost predicate NoneFits(index: Index, w: Wanted, bl: BlackList, limit: nat) {
    forall b :: IsFree(index, b) && ListFor(index[b].blocks) <= limit ==> !Good(index, b, w, bl, true)
  }

  /** No free block is new, and those that would do are all there. */
  ghost predicate Kept(index: Index, index': Index, w: Wanted, bl: BlackList) {
    && (forall b :: IsFree(index', b) ==> IsFree(index, b) && index'[b] == index[b])
    && (forall b :: IsFree(index, b) && !IsFree(index', b) ==> !Good(index, b, w, bl, true))
  }

  /** The same, and no list but the i-th has changed. */
  ghost predicate Untouched(index: Index, lists: seq<seq<nat>>, index': Index, lists': seq<seq<nat>>, w: Wanted, bl: BlackList, i: nat) {
    && Kept(index, index', w, bl) && |lists'| == |lists|
    && forall k :: 0 <= k < |lists| && k != i ==> lists'[k] == lists[k]
  }

  /** Just block h is not free any more. */
  ghost predicate FreeBut(index: Index, index': Index, h: nat) {
    && (forall b :: IsFree(index', b) <==> IsFree(index, b) && b != h)
    && forall b :: IsFree(index', b) ==> index'[b] == index[b]
  }

  /** What the search of list i comes to.  If nothing is found, nothing on the list would do;
      if something is found, something would do.  Only requests for single blocks drop any. */
  ghost predicate Searched(index: Index, lists: seq<seq<nat>>, index': Index, lists': seq<seq<nat>>,
                           r: nat, lost: set<nat>, w: Wanted, bl: BlackList, i: nat, maySplit: bool)
  {
    && (lost != {} ==> !w.exempt && w.blocks == 1)
    && (r == 0 ==>
         && Untouched(index, lists, index', lists', w, bl, i) && (lost == {} ==> index' == index && lists' == lists)
         && i < |lists'| && forall l :: 0 <= l < |lists'[i]| ==> !Good(index', lists'[i][l], w, bl, maySplit))
    && (r != 0 ==> Found(index, r, w, bl, i, maySplit))
  }

  /** Without splitting the block is used as a whole. */
  ghost predicate Found(index: Index, r: nat, w: Wanted, bl: BlackList, i: nat, maySplit: bool) {
    && (!maySplit ==> r in index && index[r] == Free(w.blocks))
    && (Heeded(w, bl) ==> !NoneFits(index, w, bl, i) && (!maySplit ==> Good(index, r, w, bl, false)))
  }

  lemma WantedOk(c: Config, bytes: nat, kind: Kind, ignoreOffPage: bool)
    requires c.Ok() && bytes > 0
    ensures WantedFor(c, bytes, kind, ignoreOffPage).Ok()
  {
    BlocksPositive(c, bytes);
  }

  lemma KeptThen(index: Index, index': Index, index'': Index, w: Wanted, bl: BlackList)
    requires Kept(index, index', w, bl) && Kept(index', index'', w, bl)
    ensures Kept(index, index'', w, bl)
  {
    forall b | IsFree(index, b) && !IsFree(index'', b) ensures !Good(index, b, w, bl, true) {
      if IsFree(index', b) { assert !Good(index', b, w, bl, true) && index'[b] == index[b]; }
    }
  }

  lemma UntouchedNothing(index: Index, lists: seq<seq<nat>>, w: Wanted, bl: BlackList, i: nat)
    ensures Untouched(index, lists, index, lists, w, bl, i)
  {
  }

  lemma UntouchedThen(index: Index, lists: seq<seq<nat>>, index': Index, lists': seq<seq<nat>>, index'': Index, lists'': seq<seq<nat>>,
                      w: Wanted, bl: BlackList, i: nat)
    requires Untouched(index, lists, index', lists', w, bl, i) && Untouched(index', lists', index'', lists'', w, bl, i)
    ensures Untouched(index, lists, index'', lists'', w, bl, i)
  {
    hide Kept;
    KeptThen(index, index', index'', w, bl);
  }

  /** A block that would do now would have done before. */
  lemma GoodBefore(index: Index, index': Index, b: nat, w: Wanted, bl: BlackList, maySplit: bool)
    requires Kept(index, index', w, bl) && Good(index', b, w, bl, maySplit)
    ensures IsFree(index, b) && IsFree(index', b) && index'[b] == index[b]
    ensures Good(index, b, w, bl, maySplit) && Good(index, b, w, bl, true)
  {
    hide HasStart;
  }

  /** Dropping the j-th block of list i, which would not do, and none before it. */
  lemma DroppedUntouched(index: Index, lists: seq<seq<nat>>, index': Index, lists': seq<seq<nat>>, w: Wanted, bl: BlackList,
                         i: nat, j: nat, maySplit: bool)
    requires i < |lists| && j < |lists[i]| && lists' == lists[i := Without(lists[i], j)] && FreeBut(index, index', lists[i][j])
    requires !Good(index, lists[i][j], w, bl, true)
    requires forall l :: 0 <= l < j && Good(index, lists[i][l], w, bl, maySplit) ==> Good(index, lists[i][j], w, bl, maySplit)
    ensures Untouched(index, lists, index', lists', w, bl, i)
    ensures forall l :: 0 <= l < j ==> !Good(index', lists'[i][l], w, bl, maySplit)
  {
    hide HasStart;
    assert Kept(index, index', w, bl);
    forall l | 0 <= l < j ensures !Good(index', lists'[i][l], w, bl, maySplit) {
      assert lists'[i][l] == lists[i][l];
      if Good(index', lists'[i][l], w, bl, maySplit) { GoodBefore(index, index', lists[i][l], w, bl, maySplit); }
    }
  }

  lemma FoundHere(index: Index, lists: seq<seq<nat>>, index1: Index, lists1: seq<seq<nat>>,
                  r: nat, h: nat, w: Wanted, bl: BlackList, i: nat, maySplit: bool)
    requires Untouched(index, lists, index1, lists1, w, bl, i) && IsFree(index1, h) && ListFor(index1[h].blocks) == i
    requires h <= r && r - h + w.blocks <= index1[h].blocks && (maySplit || index1[h].blocks == w.blocks)
    requires !w.exempt && Heeded(w, bl) ==> bl.next(r, w.effective) == 0
    ensures Found(index, r, w, bl, i, maySplit)
  {
    if Heeded(w, bl) {
      assert w.exempt || HasStart(bl, h, index1[h].blocks, w);
      GoodBefore(index, index1, h, w, bl, maySplit);
    }
  }

  /** What a search of the lists depends on and changes. */
  datatype Snapshot = Snapshot(index: Index, free: set<nat>, lists: seq<seq<nat>>, counts: seq<nat>, dropped: nat, dropCount: nat)

  /** From s0 to s nothing has been found, and just the block numbers in `lost` have been dropped. */
  ghost predicate Going(c: Config, s0: Snapshot, s: Snapshot, bytes: nat, lost: set<nat>, w: Wanted, bl: BlackList, i: nat)
    requires c.Ok()
  {
    && Served(c, s0.index, s0.free, s.index, s.free, 0, bytes, lost)
    && Untouched(s0.index, s0.lists, s.index, s.lists, w, bl, i) && Fewer(s.counts, s0.counts)
    && DropsCounted(bl, lost, s0.dropped, s.dropped, s0.dropCount, s.dropCount)
    && if lost == {} then s.index == s0.index && s.lists == s0.lists else !w.exempt && w.blocks == 1
  }

  /** If any of the first j blocks of a list would do, the next one would too. */
  ghost predicate NoneBefore(index: Index, list: seq<nat>, j: nat, w: Wanted, bl: BlackList, maySplit: bool) {
    j <= |list| && forall l :: 0 <= l < j && Good(index, list[l], w, bl, maySplit) ==> j < |list| && Good(index, list[j], w, bl, maySplit)
  }

  lemma NoneBeforeFirst(index: Index, list: seq<nat>, w: Wanted, bl: BlackList, maySplit: bool)
    ensures NoneBefore(index, list, 0, w, bl, maySplit)
  {
  }

  lemma NoneBeforeNext(index: Index, list: seq<nat>, j: nat, w: Wanted, bl: BlackList, maySplit: bool)
    requires NoneBefore(index, list, j, w, bl, maySplit) && j < |list|
    requires IsFree(index, list[j]) && WellJudged(index, list, j, w, maySplit, bl, Skip)
    ensures NoneBefore(index, list, j + 1, w, bl, maySplit)
  {
    hide Good;
  }

  lemma GoingNothing(c: Config, s: Snapshot, bytes: nat, w: Wanted, bl: BlackList, i: nat)
    requires c.Ok()
    ensures Going(c, s, s, bytes, {}, w, bl, i)
  {
    hide Served, Untouched, Fewer, DropsCounted;
    DropsNothing(bl, s.dropped, s.dropCount);
    ServedNothing(c, s.index, s.free, bytes);
    UntouchedNothing(s.index, s.lists, w, bl, i);
    FewerNothing(s.counts);
  }

  /** Block h, the j-th on list i, is taken from r on. */
  lemma GoingTaken(c: Config, s0: Snapshot, s: Snapshot, s': Snapshot, bytes: nat, r: nat, h: nat, j: nat, lost: set<nat>,
                   w: Wanted, bl: BlackList, i: nat, maySplit: bool)
    requires c.Ok() && Going(c, s0, s, bytes, lost, w, bl, i) && Served(c, s.index, s.free, s'.index, s'.free, r, bytes, {}) && r != 0
    requires IsFree(s.index, h) && ListFor(s.index[h].blocks) == i && i < |s.lists| && j < |s.lists[i]| && s.lists[i][j] == h
    requires WellJudged(s.index, s.lists[i], j, w, maySplit, bl, Take(r))
    requires s'.dropped == s.dropped && Judged(s.index, s.lists[i], j, w, maySplit, bl, s.dropCount, Take(r), s'.dropCount)
    ensures Served(c, s0.index, s0.free, s'.index, s'.free, r, bytes, lost)
    ensures Searched(s0.index, s0.lists, s'.index, s'.lists, r, lost, w, bl, i, maySplit)
    ensures DropsCounted(bl, lost, s0.dropped, s'.dropped, s0.dropCount, s'.dropCount)
    ensures !w.exempt && w.blocks <= bl.limit ==> bl.next(r, w.effective) == 0
  {
    hide Served, Untouched, Found, Fewer, Judged, Good;
    FoundHere(s0.index, s0.lists, s.index, s.lists, r, h, w, bl, i, maySplit);
    ServedThen(c, s0.index, s0.free, s.index, s.free, s'.index, s'.free, r, bytes, lost, {});
    assert lost + {} == lost;
    JudgedOther(s.index, s.lists[i], j, w, maySplit, bl, Take(r), lost, s0.dropped, s.dropped, s0.dropCount, s.dropCount, s'.dropCount);
  }

  /** Block j of list i is left alone. */
  lemma GoingSkipped(c: Config, s0: Snapshot, s: Snapshot, s': Snapshot, bytes: nat, j: nat, lost: set<nat>,
                     w: Wanted, bl: BlackList, i: nat, maySplit: bool)
    requires c.Ok() && Going(c, s0, s, bytes, lost, w, bl, i) && s' == s.(dropCount := s'.dropCount)
    requires i < |s.lists| && j < |s.lists[i]| && IsFree(s.index, s.lists[i][j])
    requires Judged(s.index, s.lists[i], j, w, maySplit, bl, s.dropCount, Skip, s'.dropCount)
    ensures Going(c, s0, s', bytes, lost, w, bl, i)
  {
    hide Served, Untouched, Fewer, Judged;
    JudgedOther(s.index, s.lists[i], j, w, maySplit, bl, Skip, lost, s0.dropped, s.dropped, s0.dropCount, s.dropCount, s'.dropCount);
  }

  /** Block h, the j-th on list i, is dropped. */
  lemma GoingDropped(c: Config, s0: Snapshot, s: Snapshot, s': Snapshot, bytes: nat, lost: set<nat>, h: nat,
                     w: Wanted, bl: BlackList, i: nat, j: nat, maySplit: bool)
    requires c.Ok() && w.Ok() && i < |s.lists| && j < |s.lists[i]| && s.lists[i][j] == h && IsFree(s.index, h) && s.index[h].blocks > 0
    requires Going(c, s0, s, bytes, lost, w, bl, i)
    requires Served(c, s.index, s.free, s'.index, s'.free, 0, bytes, Cells(h, s.index[h].blocks))
    requires s'.lists == s.lists[i := Without(s.lists[i], j)]
    requires FreeBut(s.index, s'.index, h) && Fewer(s'.counts, s.counts)
    requires WellJudged(s.index, s.lists[i], j, w, maySplit, bl, Drop)
    requires NoneBefore(s.index, s.lists[i], j, w, bl, maySplit) && s'.dropped == s.dropped + s.index[h].blocks
    requires Judged(s.index, s.lists[i], j, w, maySplit, bl, s.dropCount, Drop, s'.dropCount)
    ensures var cells := Cells(h, s.index[h].blocks);
      cells != {} && Going(c, s0, s', bytes, lost + cells, w, bl, i) && NoneBefore(s'.index, s'.lists[i], j, w, bl, maySplit)
  {
    hide Served, Untouched, Fewer, Good, FreeBut, Judged, DropsCounted;
    var cells := Cells(h, s.index[h].blocks);
    assert h in cells;
    JudgedDrop(s.index, s.lists[i], j, w, maySplit, bl, s.dropped, s.dropCount, s'.dropCount);
    ServedApart(c, s0.index, s0.free, s.index, s.free, s'.index, s'.free, 0, bytes, lost, cells);
    DropsThen(bl, lost, cells, s0.dropped, s.dropped, s'.dropped, s0.dropCount, s.dropCount, s'.dropCount);
    FewerThen(s'.counts, s.counts, s0.counts);
    ServedThen(c, s0.index, s0.free, s.index, s.free, s'.index, s'.free, 0, bytes, lost, cells);
    DroppedUntouched(s.index, s.lists, s'.index, s'.lists, w, bl, i, j, maySplit);
    UntouchedThen(s0.index, s0.lists, s.index, s.lists, s'.index, s'.lists, w, bl, i);
  }

  lemma GoingThen(c: Config, s0: Snapshot, s: Snapshot, s': Snapshot, bytes: nat, r: nat, lost: set<nat>, more: set<nat>,
                  w: Wanted, bl: BlackList, i: nat, maySplit: bool)
    requires c.Ok() && Going(c, s0, s, bytes, lost, w, bl, i) && lost != {}
    requires Served(c, s.index, s.free, s'.index, s'.free, r, bytes, more)
    requires Searched(s.index, s.lists, s'.index, s'.lists, r, more, w, bl, i, maySplit)
    requires r == 0 ==> Fewer(s'.counts, s.counts)
    requires DropsCounted(bl, more, s.dropped, s'.dropped, s.dropCount, s'.dropCount)
    ensures Served(c, s0.index, s0.free, s'.index, s'.free, r, bytes, lost + more)
    ensures Searched(s0.index, s0.lists, s'.index, s'.lists, r, lost + more, w, bl, i, maySplit)
    ensures r == 0 ==> Fewer(s'.counts, s0.counts)
    ensures DropsCounted(bl, lost + more, s0.dropped, s'.dropped, s0.dropCount, s'.dropCount)
  {
    hide Served, Untouched, Fewer, Searched, DropsCounted;
    ServedThen(c, s0.index, s0.free, s.index, s.free, s'.index, s'.free, r, bytes, lost, more);
    SearchedThen(s0.index, s0.lists, s.index, s.lists, s'.index, s'.lists, r, lost, more, w, bl, i, maySplit);
    if r == 0 { FewerThen(s'.counts, s.counts, s0.counts); }
    ServedApart(c, s0.index, s0.free, s.index, s.free, s'.index, s'.free, r, bytes, lost, more);
    DropsThen(bl, lost, more, s0.dropped, s.dropped, s'.dropped, s0.dropCount, s.dropCount, s'.dropCount);
  }

  lemma GoingEnds(c: Config, s0: Snapshot, s: Snapshot, bytes: nat, lost: set<nat>, w: Wanted, bl: BlackList, i: nat, maySplit: bool)
    requires c.Ok() && Going(c, s0, s, bytes, lost, w, bl, i) && i < |s.lists|
    requires NoneBefore(s.index, s.lists[i], |s.lists[i]|, w, bl, maySplit)
    ensures Served(c, s0.index, s0.free, s.index, s.free, 0, bytes, lost) && Fewer(s.counts, s0.counts)
    ensures Searched(s0.index, s0.lists, s.index, s.lists, 0, lost, w, bl, i, maySplit)
    ensures DropsCounted(bl, lost, s0.dropped, s.dropped, s0.dropCount, s.dropCount)
  {
    hide Served, Untouched, Fewer, Good, DropsCounted;
  }

  lemma SearchedThen(index: Index, lists: seq<seq<nat>>, index1: Index, lists1: seq<seq<nat>>, index': Index, lists': seq<seq<nat>>,
                     r: nat, lost: set<nat>, more: set<nat>, w: Wanted, bl: BlackList, i: nat, maySplit: bool)
    requires !w.exempt && w.blocks == 1 && lost != {} && Untouched(index, lists, index1, lists1, w, bl, i)
    requires Searched(index1, lists1, index', lists', r, more, w, bl, i, maySplit)
    ensures Searched(index, lists, index', lists', r, lost + more, w, bl, i, maySplit)
  {
    if r == 0 {
      UntouchedThen(index, lists, index1, lists1, index', lists', w, bl, i);
    } else if Heeded(w, bl) {
      var b :| Good(index1, b, w, bl, true) && ListFor(index1[b].blocks) <= i;
      GoodBefore(index, index1, b, w, bl, true);
      if !maySplit { GoodBefore(index, index1, r, w, bl, false); }
    }
  }

  lemma ServedNothing(c: Config, index: Index, free: set<nat>, bytes: nat)
    requires c.Ok()
    ensures Served(c, index, free, index, free, 0, bytes, {})
  {
  }

  lemma ServedThen(c: Config, index: Index, free: set<nat>, index1: Index, free1: set<nat>, index2: Index, free2: set<nat>,
                   r: nat, bytes: nat, lost: set<nat>, more: set<nat>)
    requires c.Ok() && Served(c, index, free, index1, free1, 0, bytes, lost) && Served(c, index1, free1, index2, free2, r, bytes, more)
    ensures Served(c, index, free, index2, free2, r, bytes, lost + more)
  {
    hide Blocks, WholeRuns;
    var taken := Taken(c, r, bytes);
    assert free1 == free - lost;
    RunsThen(free, lost, more);
    assert taken <= free - (lost + more) && free2 == free - (lost + more) - taken;
    forall b | b in lost ensures b in index2 && index2[b] == Used(c.hblkSize) { assert index1[b].Used?; }
  }

  /** From s0 to s nothing has been found, on none of the lists from `first` to `end` - 1 anything would do, and just `lost` was dropped. */
  ghost predicate SoFar(c: Config, s0: Snapshot, s: Snapshot, bytes: nat, lost: set<nat>, w: Wanted, bl: BlackList, first: nat, end: nat)
    requires c.Ok()
  {
    && Served(c, s0.index, s0.free, s.index, s.free, 0, bytes, lost)
    && Kept(s0.index, s.index, w, bl) && NoneOnLists(s.index, s.lists, first, end, w, bl) && Fewer(s.counts, s0.counts)
    && DropsCounted(bl, lost, s0.dropped, s.dropped, s0.dropCount, s.dropCount)
    && if lost == {} then s.index == s0.index && s.lists == s0.lists else !w.exempt && w.blocks == 1
  }

  lemma SoFarServed(c: Config, s0: Snapshot, s: Snapshot, bytes: nat, lost: set<nat>, w: Wanted, bl: BlackList, first: nat, end: nat)
    requires c.Ok() && SoFar(c, s0, s, bytes, lost, w, bl, first, end)
    ensures Served(c, s0.index, s0.free, s.index, s.free, 0, bytes, lost) && Fewer(s.counts, s0.counts)
    ensures lost != {} ==> !w.exempt && w.blocks == 1
    ensures DropsCounted(bl, lost, s0.dropped, s.dropped, s0.dropCount, s.dropCount)
  {
    hide Served, Kept, NoneOnLists, Fewer, DropsCounted;
  }

  lemma SoFarNext(c: Config, s0: Snapshot, s: Snapshot, s': Snapshot, bytes: nat, r: nat, lost: set<nat>, more: set<nat>,
                  w: Wanted, bl: BlackList, first: nat, i: nat)
    requires c.Ok() && SoFar(c, s0, s, bytes, lost, w, bl, first, i) && Served(c, s.index, s.free, s'.index, s'.free, r, bytes, more)
    requires i < |s.lists| && Searched(s.index, s.lists, s'.index, s'.lists, r, more, w, bl, i, true) && Listed(s'.index, s'.lists, {})
    requires r == 0 ==> Fewer(s'.counts, s.counts)
    requires DropsCounted(bl, more, s.dropped, s'.dropped, s.dropCount, s'.dropCount)
    ensures DropsCounted(bl, lost + more, s0.dropped, s'.dropped, s0.dropCount, s'.dropCount)
    ensures Served(c, s0.index, s0.free, s'.index, s'.free, r, bytes, lost + more)
    ensures lost + more != {} ==> !w.exempt && w.blocks == 1
    ensures r == 0 ==> SoFar(c, s0, s', bytes, lost + more, w, bl, first, i + 1)
    ensures r != 0 && Heeded(w, bl) ==> !NoneFits(s0.index, w, bl, i)
  {
    hide Served, Kept, NoneOnLists, Fewer, Searched, Listed, NoneFits, DropsCounted;
    ServedThen(c, s0.index, s0.free, s.index, s.free, s'.index, s'.free, r, bytes, lost, more);
    ServedApart(c, s0.index, s0.free, s.index, s.free, s'.index, s'.free, r, bytes, lost, more);
    DropsThen(bl, lost, more, s0.dropped, s.dropped, s'.dropped, s0.dropCount, s.dropCount, s'.dropCount);
    NextSearch(s0.index, s.index, s.lists, s'.index, s'.lists, r, more, w, bl, first, i);
    if r == 0 { FewerThen(s'.counts, s.counts, s0.counts); }
  }

  lemma SoFarNone(c: Config, s0: Snapshot, s: Snapshot, bytes: nat, lost: set<nat>, w: Wanted, bl: BlackList, from: nat, limit: nat)
    requires c.Ok() && SoFar(c, s0, s, bytes, lost, w, bl, ListFor(w.blocks), if from <= limit then limit + 1 else from)
    requires Listed(s.index, s.lists, {})
    ensures NoneFits(s0.index, w, bl, limit) && Fewer(s.counts, s0.counts) && (lost == {} ==> s.index == s0.index)
  {
    hide Served, Kept, NoneOnLists, Fewer, Listed, NoneFits;
    NoListNoBlock(s.index, s.lists, w, bl, if from <= limit then limit + 1 else from, limit);
    NoneFitsBefore(s0.index, s.index, w, bl, limit);
  }

  lemma ServedApart(c: Config, index: Index, free: set<nat>, index1: Index, free1: set<nat>, index2: Index, free2: set<nat>,
                    r: nat, bytes: nat, lost: set<nat>, more: set<nat>)
    requires c.Ok() && Served(c, index, free, index1, free1, 0, bytes, lost) && Served(c, index1, free1, index2, free2, r, bytes, more)
    ensures lost !! more
  {
    assert free1 == free - lost;
  }

  lemma RunsThen(free: set<nat>, lost: set<nat>, more: set<nat>)
    requires WholeRuns(free, lost) && WholeRuns(free - lost, more)
    ensures WholeRuns(free, lost + more)
  {
  }

  /** A free block is as long as it can be. */
  lemma BlockIsRun(c: Config, index: Index, owner: Owner, h: nat, n: nat)
    requires Shape(c, index, owner) && Coalesced(index) && IsFree(index, h) && index[h] == Free(n) && h > 0
    ensures WholeRuns(FreeCells(index, owner), Cells(h, n))
  {
    hide Shape, FreeCells;
    forall a, b | a in Cells(h, n) && b in FreeCells(index, owner) && (b == a + 1 || a == b + 1) ensures b in Cells(h, n) {
      if b == h + n { FreeBehind(c, index, owner, h); }
      if b + 1 == h { FreeBefore(c, index, owner, h); }
    }
  }

  ghost function Taken(c: Config, r: nat, bytes: nat): set<nat>
    requires c.Ok()
  {
    if r == 0 then {} else Cells(r, Blocks(c, bytes))
  }

  lemma DroppedFacts(c: Config, index: Index, owner: Owner, h: nat, n: nat, bytes: nat)
    requires Shape(c, index, owner) && Coalesced(index) && IsFree(index, h) && index[h] == Free(n)
    ensures var index' := index + Singles(c, h, n); var owner' := SelfOwned(owner, h, n);
      && Shape(c, index', owner') && owner'.Keys == owner.Keys && Coalesced(index')
      && |FreeCells(index', owner')| + n == |FreeCells(index, owner)|
      && Served(c, index, FreeCells(index, owner), index', FreeCells(index', owner'), 0, bytes, Cells(h, n))
    ensures forall a :: a in Inside(h, n) ==> a !in index
  {
    hide Shape, FreeCells, Coalesced, UsedKept, UsedBlocks, Singles, SelfOwned, WholeRuns;
    DroppedShape(c, index, owner, h, n);
    CellsCount(h, n);
    NothingInside(c, index, owner, h);
    HeaderPositive(c, index, owner, h);
    BlockIsRun(c, index, owner, h, n);
    DroppedMeets(c, index, h, n);
    DroppedUsed(c, index, h, n);
  }

  lemma DroppedFree(c: Config, index: Index, h: nat, n: nat)
    requires n > 0 && IsFree(index, h) && forall a :: a in Inside(h, n) ==> a !in index
    ensures FreeBut(index, index + Singles(c, h, n), h)
  {
  }

  lemma DroppedMeets(c: Config, index: Index, h: nat, n: nat)
    requires Coalesced(index)
    ensures Coalesced(index + Singles(c, h, n))
  {
    var index' := index + Singles(c, h, n);
    forall b, d ensures !Meet(index', b, d) { assert !Meet(index, b, d); }
  }

  lemma DroppedUsed(c: Config, index: Index, h: nat, n: nat)
    requires n > 0 && IsFree(index, h) && forall a :: a in Inside(h, n) ==> a !in index
    ensures UsedKept(index, index + Singles(c, h, n)) && UsedBlocks(index + Singles(c, h, n)) == UsedBlocks(index) + Cells(h, n)
    ensures forall b :: b in Cells(h, n) ==> b in index + Singles(c, h, n) && (index + Singles(c, h, n))[b] == Used(c.hblkSize)
  {
  }

  lemma CarvableInside(c: Config, index: Index, owner: Owner, h: nat, k: nat, bytes: nat)
    requires Shape(c, index, owner) && IsFree(index, h) && bytes > 0 && k + Blocks(c, bytes) <= index[h].blocks
    ensures Carvable(c, index, h, k, bytes) && c.Ok() && Blocks(c, bytes) > 0
  {
    BlocksPositive(c, bytes);
    NothingInside(c, index, owner, h);
    hide Shape, Blocks;
    assert forall a: nat :: h < a < h + index[h].blocks ==> a in Inside(h, index[h].blocks);
  }

  lemma CarvableFits(c: Config, index: Index, h: nat, k: nat, bytes: nat)
    requires Carvable(c, index, h, k, bytes)
    ensures c.Ok() && IsFree(index, h) && index[h].blocks >= k + Blocks(c, bytes) && Blocks(c, bytes) > 0
  {
  }

  /** All that changes when part of block h is allocated, apart from the lists. */
  lemma CarvedFacts(c: Config, index: Index, owner: Owner, h: nat, k: nat, bytes: nat, n: nat, t: nat)
    requires Carvable(c, index, h, k, bytes) && n == Blocks(c, bytes) && t == index[h].blocks
    requires Shape(c, index, owner) && Coalesced(index)
    ensures h > 0 && (k > 0 ==> h + k !in index) && (k + n < t ==> h + k + n !in index)
    ensures forall a :: a in Inside(h + k, n) ==> a !in Prepared(c, index, h, k, n)
    ensures var index' := Carved(c, index, h, k, bytes); var owner' := PreparedOwner(owner, h, k, n, t);
      && Shape(c, index', owner') && |FreeCells(index', owner')| + n == |FreeCells(index, owner)|
      && owner'.Keys == owner.Keys && Coalesced(index')
      && Served(c, index, FreeCells(index, owner), index', FreeCells(index', owner'), h + k, bytes, {})
  {
    hide Shape, FreeCells, Blocks, Carved, Prepared, PreparedOwner, UsedKept, UsedBlocks, Allocated, Carvable, Coalesced;
    CarvableFits(c, index, h, k, bytes);
    PreparedShape(c, index, owner, h, k, n, t);
    NothingInside(c, Prepared(c, index, h, k, n), PreparedOwner(owner, h, k, n, t), h + k);
    NothingInside(c, index, owner, h);
    CarvedShape(c, index, owner, h, k, bytes, n, t);
    CarvedUsed(c, index, owner, h, k, bytes);
    CarvedMeets(c, index, owner, h, k, bytes);
    CellsCount(h + k, n);
    HeaderPositive(c, index, owner, h);
  }

  lemma PreparedAllocated(c: Config, index: Index, cut: Index, h: nat, k: nat, last: nat, n: nat, bytes: nat)
    requires Carvable(c, index, h, k, bytes) && n == Blocks(c, bytes) && last == h + k
    requires last in cut && cut[last := Free(n)] == Prepared(c, index, h, k, n)
    ensures Allocated(c, cut, last, bytes) == Carved(c, index, h, k, bytes)
    ensures forall a :: a in cut <==> a in Prepared(c, index, h, k, n)
  {
    hide Prepared, Blocks;
    assert Allocated(c, cut, last, bytes) == Allocated(c, cut[last := Free(n)], last, bytes);
  }

  lemma ListsApart(index: Index, lists: seq<seq<nat>>, moving: set<nat>)
    requires Listed(index, lists, moving)
    ensures Apart(lists) && |lists| == N_HBLK_FLS + 1
  {
  }

  lemma LengthsAgree(heads: seq<nat>, next: map<nat, nat>, prev: map<nat, nat>, lists: seq<seq<nat>>, index: Index, freeBlocks: seq<nat>)
    requires AllLinked(heads, next, prev, lists) && Counted(index, freeBlocks, lists)
    ensures |heads| == |freeBlocks| == |lists|
  {
  }

  lemma NewSection(c: Config, index: Index, owner: Owner, freeBlocks: seq<nat>, lists: seq<seq<nat>>, p: nat, n: nat, bytes: nat)
    requires c.Ok() && Blocks(c, bytes) == n && n > 0 && p > 0
    requires Shape(c, index, owner) && owner.Keys !! Cells(p, n)
    requires Listed(index, lists, {}) && Counted(index, freeBlocks, lists) && Coalesced(index)
    ensures var index' := index[p := Used(bytes)]; var owner' := Added(owner, p, n);
      && p !in index && Freeable(c, index', owner', p) && FreeCells(index', owner') == FreeCells(index, owner)
      && Listed(index', lists, {}) && Counted(index', freeBlocks, lists) && Coalesced(index')
      && owner'.Keys == owner.Keys + Cells(p, n) && |owner'.Keys| == |owner| + n
      && UsedBlocks(index') - {p} == UsedBlocks(index)
  {
    hide Shape, FreeCells, Listed, Counted, Blocks, Freeable, Coalesced, UsedBlocks;
    NewFreeable(c, index, owner, p, n, bytes);
    NewListed(index, freeBlocks, lists, p, bytes);
    NewMeets(index, p, bytes);
    KeysCount(owner, Added(owner, p, n), p, n);
  }

  lemma UsedStep(index: Index, index1: Index, index2: Index, p: nat)
    requires p !in index && p in index1 && index1 == index[p := index1[p]] && UsedKept(index2, index1) && p !in UsedBlocks(index2)
    ensures UsedKept(index2, index)
  {
    assert forall b :: b in index2 && index2[b].Used? ==> b in UsedBlocks(index2);
  }

  lemma KeysCount(owner: Owner, owner': Owner, p: nat, n: nat)
    requires owner.Keys !! Cells(p, n) && owner'.Keys == owner.Keys + Cells(p, n)
    ensures |owner'.Keys| == |owner| + n
  {
    CellsCount(p, n);
    assert |owner| == |owner.Keys|;
  }

  /** A new section, given a header as if it had been one large object, may be freed. */
  lemma NewFreeable(c: Config, index: Index, owner: Owner, p: nat, n: nat, bytes: nat)
    requires c.Ok() && Blocks(c, bytes) == n && n > 0 && p > 0
    requires Shape(c, index, owner) && owner.Keys !! Cells(p, n)
    ensures p !in index && Freeable(c, index[p := Used(bytes)], Added(owner, p, n), p)
    ensures FreeCells(index[p := Used(bytes)], Added(owner, p, n)) == FreeCells(index, owner)
  {
    hide Shape, Blocks, FreeCells;
    OutsideHeap(c, index, owner, p, n);
    AddedShape(c, index, owner, p, n);
    NewCells(index, owner, p, n, bytes);
    var index1 := index[p := Used(bytes)];
    assert Freed(c, index1, p) == index[p := Free(n)];
  }

  lemma NewCells(index: Index, owner: Owner, p: nat, n: nat, bytes: nat)
    requires owner.Keys !! Cells(p, n) && p !in index && forall a :: a in owner ==> !Within(owner[a], p, n)
    requires n > 0
    ensures FreeCells(index[p := Used(bytes)], Added(owner, p, n)) == FreeCells(index, owner)
  {
    assert Within(p, p, n);
  }

  /** The block numbers of a section that can be used: not those next to address
      zero, and not the last one of the address space, whose end wraps around. */
  ghost function Usable(p: nat, n: nat, top: nat): set<nat> {
    set a | a in Cells(p, n) && 2 <= a < top - 1
  }

  lemma NewListed(index: Index, freeBlocks: seq<nat>, lists: seq<seq<nat>>, p: nat, bytes: nat)
    requires p !in index && Listed(index, lists, {}) && Counted(index, freeBlocks, lists)
    ensures Listed(index[p := Used(bytes)], lists, {}) && Counted(index[p := Used(bytes)], freeBlocks, lists)
  {
    ListedAreFree(index, lists, {});
    ListedChange(index, index[p := Used(bytes)], lists, {}, {});
    CountedSame(index, index[p := Used(bytes)], freeBlocks, lists);
  }

  lemma NewMeets(index: Index, p: nat, bytes: nat)
    requires p !in index && Coalesced(index)
    ensures Coalesced(index[p := Used(bytes)])
    ensures UsedBlocks(index[p := Used(bytes)]) - {p} == UsedBlocks(index)
  {
    var index' := index[p := Used(bytes)];
    forall b, d ensures !Meet(index', b, d) { assert !Meet(index, b, d); }
  }

  lemma HeaderPositive(c: Config, index: Index, owner: Owner, b: nat)
    requires Shape(c, index, owner) && IsFree(index, b)
    ensures b > 0 && index[b].blocks > 0
  {
    assert HeaderOk(c, index, owner, b);
  }

  /** A block that may be given back: an allocated one, or a section that is new. */
  ghost predicate Freeable(c: Config, index: Index, owner: Owner, h: nat) {
    && c.Ok() && h in index && index[h].Used? && Shape(c, Freed(c, index, h), owner)
    && var n := Blocks(c, index[h].bytes);
       && (forall a :: a in Inside(h, n) ==> !IsFree(index, a) && !(a in index && index[a].Used?))
       && FreeCells(Freed(c, index, h), owner) == FreeCells(index, owner) + Cells(h, n)
       && FreeCells(index, owner) !! Cells(h, n)
  }

  lemma FreedUsed(c: Config, index: Index, owner: Owner, h: nat)
    requires Freeable(c, index, owner, h)
    ensures UsedBlocks(Freed(c, index, h)) == UsedBlocks(index) - {h} && UsedKept(Freed(c, index, h), index)
  {
    hide Shape, FreeCells, Blocks;
  }

  /** No free block ends at h and none starts where h ends, so all is coalesced. */
  lemma NobodyBefore(index: Index, h: nat)
    requires CoalescedBut(index, h) && (forall e :: !Meet(index, h, e)) && forall b :: !Meet(index, b, h)
    ensures Coalesced(index)
  {
  }

  lemma UsedFreeable(c: Config, index: Index, owner: Owner, h: nat)
    requires Shape(c, index, owner) && h in index && index[h].Used?
    ensures Freeable(c, index, owner, h)
  {
    FreedShape(c, index, owner, h);
    assert HeaderOk(c, index, owner, h);
    hide Shape, FreeCells, Blocks;
  }

  lemma OwnHeader(c: Config, index: Index, owner: Owner, b: nat)
    requires Shape(c, index, owner) && Header(index, b)
    ensures b in owner && owner[b] == b
  {
    assert HeaderOk(c, index, owner, b);
  }

  /** What can be found just before a header. */
  lemma HeaderNotInside(c: Config, index: Index, owner: Owner, h: nat)
    requires Shape(c, index, owner) && Header(index, h)
    ensures h > 0
    ensures IsFree(index, h - 1) ==> index[h - 1].blocks == 1
    ensures forall b: nat :: IsFree(index, b) && b + index[b].blocks == h ==>
      0 < b < h && h - 1 in owner && owner[h - 1] == b && (b < h - 1 ==> h - 1 !in index)
        && forall d: nat :: Header(index, d) && d < h ==> d <= b
  {
    assert HeaderOk(c, index, owner, h);
    if IsFree(index, h - 1) { assert HeaderOk(c, index, owner, h - 1); }
    forall b: nat | IsFree(index, b) && b + index[b].blocks == h
      ensures 0 < b < h && h - 1 in owner && owner[h - 1] == b && (b < h - 1 ==> h - 1 !in index)
      ensures forall d: nat :: Header(index, d) && d < h ==> d <= b
    {
      assert HeaderOk(c, index, owner, b);
    }
  }

  /** A forwarding count leads back within its allocated block, and skips no header. */
  lemma ForwardInside(c: Config, index: Index, owner: Owner, a: nat)
    requires Shape(c, index, owner) && a in index && index[a].Forward?
    ensures 0 < index[a].jump <= a && a in owner && index[a].jump <= a - owner[a] && a - index[a].jump > 0
    ensures a - index[a].jump in owner && owner[a - index[a].jump] == owner[a] && a - index[a].jump in index
    ensures Header(index, owner[a]) && index[owner[a]].Used?
    ensures forall b: nat :: Header(index, b) ==> !(a - index[a].jump < b <= a)
  {
    assert CellOk(c, index, owner, a) && HeaderOk(c, index, owner, owner[a]);
    assert forall b :: Header(index, b) ==> HeaderOk(c, index, owner, b);
  }

  // ----- Nothing gets lost -----

  ghost function UsedSum(c: Config, index: Index, order: seq<nat>): nat
    requires c.Ok() && forall j :: 0 <= j < |order| ==> order[j] in index
  {
    if order == [] then 0 else Extent(c, index[order[0]]) + UsedSum(c, index, order[1..])
  }

  ghost function CellsOfBlocks(c: Config, index: Index, order: seq<nat>): set<nat>
    requires c.Ok() && forall j :: 0 <= j < |order| ==> order[j] in index
  {
    if order == [] then {} else Cells(order[0], Extent(c, index[order[0]])) + CellsOfBlocks(c, index, order[1..])
  }

  lemma {:induction false} InCellsOfBlocks(c: Config, index: Index, owner: Owner, order: seq<nat>, a: nat)
    requires Shape(c, index, owner) && forall j :: 0 <= j < |order| ==> Header(index, order[j])
    ensures a in CellsOfBlocks(c, index, order) <==> a in owner && owner[a] in order
  {
    if order != [] {
      InCellsOfBlocks(c, index, owner, order[1..], a);
      BlockIsWhole(c, index, owner, order[0]);
      assert order == [order[0]] + order[1..];
    }
  }

  lemma {:induction false} CountCellsOfBlocks(c: Config, index: Index, owner: Owner, order: seq<nat>)
    requires Shape(c, index, owner) && forall j :: 0 <= j < |order| ==> Header(index, order[j])
    requires forall k, l :: 0 <= k < |order| && 0 <= l < |order| && order[k] == order[l] ==> k == l
    ensures |CellsOfBlocks(c, index, order)| == UsedSum(c, index, order)
  {
    if order != [] {
      CountCellsOfBlocks(c, index, owner, order[1..]);
      CellsCount(order[0], Extent(c, index[order[0]]));
      BlockIsWhole(c, index, owner, order[0]);
      forall a | a in Cells(order[0], Extent(c, index[order[0]])) ensures a !in CellsOfBlocks(c, index, order[1..]) {
        InCellsOfBlocks(c, index, owner, order[1..], a);
      }
    }
  }

  /** GC_check_blocks: in whatever order the allocated blocks are visited, their sizes and
      the free bytes add up to the heap size, and so do the counts of the free lists. */
  lemma CheckBlocks(heap: BlockHeap, order: seq<nat>)
    requires heap.Valid()
    requires forall b :: b in order <==> b in UsedBlocks(heap.index)
    requires forall k, l :: 0 <= k < |order| && 0 <= l < |order| && order[k] == order[l] ==> k == l
    ensures heap.c.Ok() && (forall j :: 0 <= j < |order| ==> order[j] in heap.index)
    ensures UsedSum(heap.c, heap.index, order) + heap.largeFree == heap.heapSize
    ensures Sum(heap.freeBlocks) == heap.largeFree
  {
    forall j | 0 <= j < |order| ensures Header(heap.index, order[j]) { assert order[j] in order; }
    CountCellsOfBlocks(heap.c, heap.index, heap.owner, order);
    ListsCountFree(heap.c, heap.index, heap.owner, heap.freeBlocks, heap.lists);
    AllCells(heap.c, heap.index, heap.owner, order);
  }

  /** A block number of the heap belongs to an allocated block or is free. */
  lemma UsedOrFree(c: Config, index: Index, owner: Owner, order: seq<nat>, a: nat)
    requires Shape(c, index, owner) && forall j :: 0 <= j < |order| ==> Header(index, order[j])
    requires forall b :: b in order <==> b in UsedBlocks(index)
    ensures a in CellsOfBlocks(c, index, order) <==> a in owner && a !in FreeCells(index, owner)
  {
    hide CellsOfBlocks, Shape, Blocks;
    InCellsOfBlocks(c, index, owner, order, a);
    if a in owner { OwnerBounds(c, index, owner, a); }
  }

  lemma TwoParts(used: set<nat>, free: set<nat>, all: set<nat>)
    requires free <= all && forall a: nat :: a in used <==> a in all && a !in free
    ensures |used| + |free| == |all|
  {
    assert used == all - free;
  }

  lemma AllCells(c: Config, index: Index, owner: Owner, order: seq<nat>)
    requires Shape(c, index, owner) && forall j :: 0 <= j < |order| ==> Header(index, order[j])
    requires forall b :: b in order <==> b in UsedBlocks(index)
    ensures |CellsOfBlocks(c, index, order)| + |FreeCells(index, owner)| == |owner|
  {
    hide CellsOfBlocks, Shape, Blocks, UsedBlocks;
    ShapeConfig(c, index, owner);
    var used, free := CellsOfBlocks(c, index, order), FreeCells(index, owner);
    forall a: nat ensures a in used <==> a in owner.Keys && a !in free {
      UsedOrFree(c, index, owner, order, a);
    }
    TwoParts(used, free, owner.Keys);
    assert |owner| == |owner.Keys|;
  }
}

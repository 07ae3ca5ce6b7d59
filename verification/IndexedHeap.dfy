/** The block allocator on its two-level index: every operation leaves there the map that
    `BlockHeaps` has as a flat one. */
module IndexedHeaps {
  import opened BlockIndexes
  import opened BlockHeaps
  import H = HeaderIndices

  /** Change the header of a block that has one. */
  method ChangeHeader(hi: H.HeaderIndex, a: nat, e: Entry)
    requires hi.Valid() && a in hi.flat
    modifies hi
    ensures hi.Valid() && hi.flat == old(hi.flat)[a := e]
  {
    assert H.Look(hi.bsz, hi.bottoms, a) == H.FlatLook(hi.flat, a);
    hi.SetHdr(a, H.Full(e));
  }

  // ----- Giving a block back -----

  /** From a block number inside an allocated block, forwarding counts lead to its header. */
  method FollowForward(hi: H.HeaderIndex, a: nat, ghost c: Config, ghost owner: Owner) returns (r: nat, s: H.Slot)
    requires hi.Valid() && Shape(c, hi.flat, owner)
    ensures s == H.FlatLook(hi.flat, r) && !(s.Full? && s.entry.Forward?)
    ensures !(a in hi.flat && hi.flat[a].Forward?) ==> r == a
    ensures a in hi.flat && hi.flat[a].Forward? ==> s.Full? && s.entry.Used?
  {
    hide H.HeaderIndex.Valid;
    r := a;
    s := hi.Hdr(r);
    while s.Full? && s.entry.Forward?
      invariant hi.Valid() && s == H.FlatLook(hi.flat, r)
      invariant r == a || (r < a && r in hi.flat && r in owner && a in owner && owner[r] == owner[a])
      invariant r < a ==> a in hi.flat && hi.flat[a].Forward? && owner[a] in hi.flat && hi.flat[owner[a]].Used?
      decreases r
    {
      ForwardInside(c, hi.flat, owner, r);
      r := r - s.entry.jump;
      s := hi.Hdr(r);
    }
    if r < a { OwnHeader(c, hi.flat, owner, r); }
  }

  /** No free block ends where block h starts. */
  ghost predicate NoneEnds(index: Index, h: nat) {
    forall b: nat :: IsFree(index, b) ==> b + index[b].blocks != h
  }

  /** What the entry before a header says about the block that ends there. */
  lemma EntryBefore(c: Config, index: Index, owner: Owner, h: nat)
    requires Shape(c, index, owner) && Header(index, h)
    ensures h == 1 ==> NoneEnds(index, h)
    ensures h > 1 && h - 1 in index && !index[h - 1].Free? ==> NoneEnds(index, h)
    ensures h > 1 && IsFree(index, h - 1) ==> h - 1 + index[h - 1].blocks == h
  {
    HeaderNotInside(c, index, owner, h);
  }

  /** The header before it is that of the block that ends there, or there is none. */
  lemma HeaderBefore(c: Config, index: Index, owner: Owner, h: nat, r: nat)
    requires Shape(c, index, owner) && Header(index, h) && h > 1
    requires if r != 0 then r <= h - 1 && r in H.Headers(index) && forall b :: b in H.Headers(index) && b <= h - 1 ==> b <= r
             else forall b :: b in H.Headers(index) ==> b > h - 1
    ensures r == 0 || !(IsFree(index, r) && r + index[r].blocks == h) ==> NoneEnds(index, h)
  {
    HeaderNotInside(c, index, owner, h);
    forall b: nat | IsFree(index, b) && b + index[b].blocks == h ensures r != 0 && b == r {
      assert b in H.Headers(index) && b < h;
      assert r in H.Headers(index) ==> Header(index, r);
    }
  }

  /** GC_free_block_ending_at. */
  method FreeBlockEndingAt(hi: H.HeaderIndex, h: nat, ghost c: Config, ghost owner: Owner) returns (r: nat)
    requires hi.Valid() && Shape(c, hi.flat, owner) && Header(hi.flat, h) && h > 0
    ensures r != 0 ==> IsFree(hi.flat, r) && r + hi.flat[r].blocks == h
    ensures r == 0 ==> NoneEnds(hi.flat, h)
  {
    EntryBefore(c, hi.flat, owner, h);
    hide Shape, H.HeaderIndex.Valid, H.Headers, NoneEnds;
    if h == 1 { return 0; }
    var s;
    r, s := FollowForward(hi, h - 1, c, owner);
    if s.Full? {
      if !s.entry.Free? { r := 0; }
    } else {
      r := hi.PrevBlock(h - 1, c, owner);
      HeaderBefore(c, hi.flat, owner, h, r);
      if r != 0 {
        var t := hi.Hdr(r);
        if !(t.Full? && t.entry.Free? && r + t.entry.blocks == h) { r := 0; }
      }
    }
  }

  /** The header of block h says free; its counts are gone. */
  method MarkFree(hi: H.HeaderIndex, c: Config, ghost owner: Owner, h: nat) returns (n: nat)
    requires hi.Valid() && Freeable(c, hi.flat, owner, h) && Blocks(c, hi.flat[h].bytes) > 0
    modifies hi
    ensures hi.Valid() && hi.flat == Freed(c, old(hi.flat), h) && n == Blocks(c, old(hi.flat)[h].bytes)
  {
    hide Shape, FreeCells, Blocks, H.HeaderIndex.Valid;
    var s := hi.Hdr(h);
    n := Blocks(c, s.entry.bytes);
    hi.RemoveCounts(h, n);
    ChangeHeader(hi, h, Free(n));
  }

  /** Free blocks b and d, which starts where b ends, become one. */
  method Merge(hi: H.HeaderIndex, b: nat, n: nat, d: nat, m: nat)
    requires hi.Valid() && IsFree(hi.flat, b) && hi.flat[b] == Free(n) && d == b + n && n > 0
    requires IsFree(hi.flat, d) && hi.flat[d] == Free(m)
    modifies hi
    ensures hi.Valid() && hi.flat == Merged(old(hi.flat), b)
  {
    hide H.HeaderIndex.Valid;
    hi.RemoveHeader(d);
    ChangeHeader(hi, b, Free(n + m));
  }

  /** What giving back block h is to do to the map. */
  ghost predicate GivenBack(c: Config, index: Index, owner: Owner, index': Index, owner': Owner, h: nat, n: nat) {
    && Shape(c, index', owner') && Coalesced(index') && owner'.Keys == owner.Keys
    && FreeCells(index', owner') == FreeCells(index, owner) + Cells(h, n)
    && UsedBlocks(index') == UsedBlocks(index) - {h} && UsedKept(index', index)
  }

  lemma MergedUsed(index: Index, b: nat, n: nat, d: nat, m: nat)
    requires IsFree(index, b) && index[b] == Free(n) && d == b + n && IsFree(index, d) && index[d] == Free(m) && n > 0
    ensures UsedBlocks(Merged(index, b)) == UsedBlocks(index)
    ensures forall index0 :: UsedKept(index, index0) ==> UsedKept(Merged(index, b), index0)
  {
  }

  /** Merge with the free successor, if there is one. */
  method MergeNext(hi: H.HeaderIndex, h: nat, n: nat, ghost c: Config, ghost owner: Owner) returns (size: nat, ghost owner': Owner)
    requires hi.Valid() && Shape(c, hi.flat, owner) && IsFree(hi.flat, h) && hi.flat[h] == Free(n) && n > 0 && CoalescedBut(hi.flat, h)
    modifies hi
    ensures hi.Valid() && Shape(c, hi.flat, owner') && IsFree(hi.flat, h) && hi.flat[h] == Free(size) && size > 0
    ensures CoalescedBut(hi.flat, h) && forall e :: !Meet(hi.flat, h, e)
    ensures FreeCells(hi.flat, owner') == FreeCells(old(hi.flat), owner) && owner'.Keys == owner.Keys
    ensures UsedBlocks(hi.flat) == UsedBlocks(old(hi.flat))
    ensures forall index0 :: UsedKept(old(hi.flat), index0) ==> UsedKept(hi.flat, index0)
    ensures forall b: nat :: IsFree(hi.flat, b) && b < h ==> IsFree(old(hi.flat), b) && old(hi.flat)[b] == hi.flat[b]
    ensures forall b: nat :: IsFree(old(hi.flat), b) && b < h ==> IsFree(hi.flat, b) && old(hi.flat)[b] == hi.flat[b]
  {
    hide Shape, FreeCells, UsedBlocks, UsedKept, H.HeaderIndex.Valid;
    var t := hi.Hdr(h + n);
    size, owner' := n, owner;
    if t.Full? && t.entry.Free? {
      var m := t.entry.blocks;
      MergedShape(c, hi.flat, owner, h, n, h + n, m);
      MergedNextMeets(hi.flat, h, n, h + n, m);
      MergedUsed(hi.flat, h, n, h + n, m);
      Merge(hi, h, n, h + n, m);
      size, owner' := n + m, Reowned(owner, h + n, m, h);
    }
  }

  /** GC_freehblk. */
  method FreeBlock(hi: H.HeaderIndex, c: Config, ghost owner: Owner, h: nat) returns (ghost owner': Owner)
    requires hi.Valid() && Freeable(c, hi.flat, owner, h) && Coalesced(hi.flat) && Blocks(c, hi.flat[h].bytes) > 0
    modifies hi
    ensures hi.Valid() && GivenBack(c, old(hi.flat), owner, hi.flat, owner', h, Blocks(c, old(hi.flat)[h].bytes))
  {
    hide Shape, FreeCells, UsedBlocks, UsedKept, Blocks, H.HeaderIndex.Valid, Freed;
    FreedMeets(c, hi.flat, h);
    FreedUsed(c, hi.flat, owner, h);
    var size := MarkFree(hi, c, owner, h);
    FreedEntry(c, old(hi.flat), h);
    HeaderPositive(c, hi.flat, owner, h);
    var p := FreeBlockEndingAt(hi, h, c, owner);
    ghost var middle := hi.flat;
    size, owner' := MergeNext(hi, h, size, c, owner);
    if p != 0 {
      HeaderPositive(c, middle, owner, p);
      var s := hi.Hdr(p);
      var n := s.entry.blocks;
      MergedShape(c, hi.flat, owner', p, n, h, size);
      MergedPrevMeets(hi.flat, p, n, h, size);
      MergedUsed(hi.flat, p, n, h, size);
      Merge(hi, p, n, h, size);
      owner' := Reowned(owner', h, size, p);
    } else {
      NobodyEnds(middle, hi.flat, h);
    }
  }

  lemma FreedEntry(c: Config, index: Index, h: nat)
    requires c.Ok() && h in index && index[h].Used?
    ensures IsFree(Freed(c, index, h), h) && Freed(c, index, h)[h] == Free(Blocks(c, index[h].bytes))
  {
    hide Blocks;
  }

  lemma NobodyEnds(before: Index, index: Index, h: nat)
    requires NoneEnds(before, h) && CoalescedBut(index, h) && (forall e :: !Meet(index, h, e))
    requires forall b: nat :: IsFree(index, b) && b < h ==> IsFree(before, b) && before[b] == index[b]
    requires IsFree(index, h) && index[h].blocks > 0
    ensures Coalesced(index)
  {
    forall b: nat ensures !Meet(index, b, h) { }
    NobodyBefore(index, h);
  }

  // ----- Taking a block -----

  /** GC_split_block and GC_get_first_part: free block h is divided behind its first k blocks. */
  method Divide(hi: H.HeaderIndex, h: nat, t: nat, k: nat)
    requires hi.Valid() && IsFree(hi.flat, h) && hi.flat[h] == Free(t) && 0 < k < t
    modifies hi
    ensures hi.Valid() && hi.flat == Divided(old(hi.flat), h, k)
  {
    hide H.HeaderIndex.Valid;
    hi.InstallHeader(h + k, Free(t - k));
    ChangeHeader(hi, h, Free(k));
  }

  /** GC_install_counts and setup_header. */
  method SetUp(hi: H.HeaderIndex, c: Config, h: nat, n: nat, bytes: nat)
    requires hi.Valid() && c.Ok() && n == Blocks(c, bytes) && n > 0 && h in hi.flat
    modifies hi
    ensures hi.Valid() && hi.flat == Allocated(c, old(hi.flat), h, bytes)
  {
    hide H.HeaderIndex.Valid, Blocks, Counts;
    hi.InstallCounts(c, h, n);
    ChangeHeader(hi, h, Used(bytes));
  }

  /** The blocks for `bytes` bytes from `last` on are cut out of free block h and allocated. */
  method CarveBlock(hi: H.HeaderIndex, c: Config, h: nat, last: nat, bytes: nat)
    requires hi.Valid() && h <= last && Carvable(c, hi.flat, h, last - h, bytes)
    modifies hi
    ensures hi.Valid() && hi.flat == Carved(c, old(hi.flat), h, last - h, bytes)
  {
    hide H.HeaderIndex.Valid, Blocks, Allocated;
    var n, k := Blocks(c, bytes), last - h;
    var s := hi.Hdr(h);
    var t := s.entry.blocks;
    if k > 0 { Divide(hi, h, t, k); }
    if k + n < t { Divide(hi, last, t - k, n); }
    SetUp(hi, c, last, n, bytes);
  }

  /** Every block number of free block h gets a header of its own. */
  method DropBlock(hi: H.HeaderIndex, c: Config, h: nat, n: nat)
    requires hi.Valid()
    modifies hi
    ensures hi.Valid() && hi.flat == old(hi.flat) + Singles(c, h, n)
  {
    hide H.HeaderIndex.Valid;
    var a := h;
    while a < h + n
      invariant h <= a <= h + n && hi.Valid() && hi.flat == old(hi.flat) + Singles(c, h, a - h)
    {
      hi.InstallHeader(a, Used(c.hblkSize));
      a := a + 1;
    }
  }

  /** The block that a free block number belongs to. */
  method BlockAround(hi: H.HeaderIndex, a: nat, ghost c: Config, ghost owner: Owner) returns (h: nat, n: nat)
    requires hi.Valid() && Shape(c, hi.flat, owner) && a in FreeCells(hi.flat, owner)
    ensures IsFree(hi.flat, h) && hi.flat[h] == Free(n) && h == owner[a] && 0 < h <= a < h + n
  {
    OwnerBounds(c, hi.flat, owner, a);
    HeaderPositive(c, hi.flat, owner, owner[a]);
    h := hi.PrevBlock(a, c, owner);
    assert owner[a] in H.Headers(hi.flat);
    PrevIsOwner(c, hi.flat, owner, a, h);
    var s := hi.Hdr(h);
    n := s.entry.blocks;
  }

  lemma PrevIsOwner(c: Config, index: Index, owner: Owner, a: nat, h: nat)
    requires Shape(c, index, owner) && a in FreeCells(index, owner) && owner[a] <= h <= a && h in H.Headers(index)
    ensures h == owner[a]
  {
    OwnerBounds(c, index, owner, a);
    InBlock(c, index, owner, owner[a], h);
    OwnHeader(c, index, owner, h);
  }

  lemma {:induction false} RunUpwards(free: set<nat>, lost: set<nat>, a: nat, n: nat)
    requires WholeRuns(free, lost) && a in lost && n > 0 && Cells(a, n) <= free
    ensures Cells(a, n) <= lost
  {
    if n > 1 {
      assert Cells(a, n - 1) <= Cells(a, n);
      RunUpwards(free, lost, a, n - 1);
      assert a + n - 2 in Cells(a, n - 1) && a + n - 1 in Cells(a, n);
    }
  }

  lemma {:induction false} RunDownwards(free: set<nat>, lost: set<nat>, h: nat, a: nat)
    requires WholeRuns(free, lost) && a in lost && h <= a && Cells(h, a - h) <= free
    ensures h in lost
    decreases a - h
  {
    if h < a {
      assert a - 1 in Cells(h, a - h);
      assert Cells(h, a - 1 - h) <= Cells(h, a - h);
      RunDownwards(free, lost, h, a - 1);
    }
  }

  /** A block of which one number is lost is lost as a whole. */
  lemma BlockLost(free: set<nat>, lost: set<nat>, h: nat, n: nat, a: nat)
    requires WholeRuns(free, lost) && a in lost && h <= a < h + n && Cells(h, n) <= free
    ensures Cells(h, n) <= lost
  {
    assert Cells(h, a - h) <= Cells(h, n);
    RunDownwards(free, lost, h, a);
    RunUpwards(free, lost, h, n);
  }

  lemma RunsLeft(free: set<nat>, lost: set<nat>, cells: set<nat>)
    requires WholeRuns(free, lost) && WholeRuns(free, cells) && cells <= lost
    ensures WholeRuns(free - cells, lost - cells)
  {
  }

  lemma ServedNothing(c: Config, index: Index, free: set<nat>)
    requires c.Ok()
    ensures Served(c, index, free, index, free, 0, 0, {})
  {
    assert free - {} - {} == free;
  }

  /** Blocks that are black listed are dropped one after the other. */
  method DropAll(hi: H.HeaderIndex, c: Config, ghost owner0: Owner, lost: set<nat>) returns (ghost owner: Owner)
    requires hi.Valid() && Shape(c, hi.flat, owner0) && Coalesced(hi.flat)
    requires lost <= FreeCells(hi.flat, owner0) && WholeRuns(FreeCells(hi.flat, owner0), lost)
    modifies hi
    ensures hi.Valid() && c.Ok() && Shape(c, hi.flat, owner) && Coalesced(hi.flat) && owner.Keys == owner0.Keys
    ensures Served(c, old(hi.flat), FreeCells(old(hi.flat), owner0), hi.flat, FreeCells(hi.flat, owner), 0, 0, lost)
  {
    hide Shape, FreeCells, Coalesced, Served, WholeRuns, Singles, SelfOwned, H.HeaderIndex.Valid;
    ShapeConfig(c, hi.flat, owner0);
    ghost var index0, free0 := hi.flat, FreeCells(hi.flat, owner0);
    owner := owner0;
    var rest := lost;
    ServedNothing(c, index0, free0);
    assert lost - rest == {};
    while rest != {}
      invariant hi.Valid() && Shape(c, hi.flat, owner) && Coalesced(hi.flat) && owner.Keys == owner0.Keys && rest <= lost
      invariant Served(c, index0, free0, hi.flat, FreeCells(hi.flat, owner), 0, 0, lost - rest)
      invariant rest <= FreeCells(hi.flat, owner) && WholeRuns(FreeCells(hi.flat, owner), rest)
      decreases |rest|
    {
      var a :| a in rest;
      var h, n := BlockAround(hi, a, c, owner);
      ghost var index1, free1 := hi.flat, FreeCells(hi.flat, owner);
      DropFacts(c, index1, owner, h, n, a, rest);
      DropBlock(hi, c, h, n);
      owner := SelfOwned(owner, h, n);
      ServedThen(c, index0, free0, index1, free1, hi.flat, FreeCells(hi.flat, owner), 0, 0, lost - rest, Cells(h, n));
      assert lost - (rest - Cells(h, n)) == (lost - rest) + Cells(h, n);
      LessLost(rest, Cells(h, n), a);
      rest := rest - Cells(h, n);
    }
    assert lost - rest == lost;
  }

  lemma LessLost(rest: set<nat>, cells: set<nat>, a: nat)
    requires a in rest && a in cells
    ensures |rest - cells| < |rest|
  {
    assert rest == (rest - cells) + (rest * cells) && a in rest * cells;
    assert |rest| == |rest - cells| + |rest * cells|;
  }

  lemma DropFacts(c: Config, index: Index, owner: Owner, h: nat, n: nat, a: nat, rest: set<nat>)
    requires Shape(c, index, owner) && Coalesced(index) && IsFree(index, h) && index[h] == Free(n) && 0 < h <= a < h + n && a in rest
    requires rest <= FreeCells(index, owner) && WholeRuns(FreeCells(index, owner), rest)
    ensures c.Ok() && a in Cells(h, n)
    ensures var index' := index + Singles(c, h, n); var owner' := SelfOwned(owner, h, n);
      && Shape(c, index', owner') && owner'.Keys == owner.Keys && Coalesced(index')
      && Served(c, index, FreeCells(index, owner), index', FreeCells(index', owner'), 0, 0, Cells(h, n))
      && rest - Cells(h, n) <= FreeCells(index', owner') && WholeRuns(FreeCells(index', owner'), rest - Cells(h, n))
      && Cells(h, n) <= rest
  {
    hide Shape, FreeCells, Coalesced, Singles, SelfOwned, WholeRuns, UsedKept, UsedBlocks;
    ShapeConfig(c, index, owner);
    DroppedFacts(c, index, owner, h, n, 0);
    BlockLost(FreeCells(index, owner), rest, h, n, a);
    RunsLeft(FreeCells(index, owner), rest, Cells(h, n));
    var free' := FreeCells(index + Singles(c, h, n), SelfOwned(owner, h, n));
    assert free' == FreeCells(index, owner) - Cells(h, n);
  }

  /** Free numbers in a row belong to one block. */
  lemma InOneBlock(c: Config, index: Index, owner: Owner, h: nat, n: nat, r: nat, m: nat)
    requires Shape(c, index, owner) && Coalesced(index) && IsFree(index, h) && index[h] == Free(n)
    requires h <= r < h + n && Cells(r, m) <= FreeCells(index, owner)
    ensures r + m <= h + n
  {
    if r + m > h + n {
      assert h + n in Cells(r, m);
      FreeBehind(c, index, owner, h);
    }
  }

  /** The blocks for `bytes` bytes from r on, which are free, are taken. */
  method TakeBlock(hi: H.HeaderIndex, c: Config, ghost owner0: Owner, r: nat, bytes: nat) returns (ghost owner: Owner)
    requires hi.Valid() && Shape(c, hi.flat, owner0) && Coalesced(hi.flat) && bytes > 0
    requires Cells(r, Blocks(c, bytes)) <= FreeCells(hi.flat, owner0)
    modifies hi
    ensures hi.Valid() && c.Ok() && Shape(c, hi.flat, owner) && Coalesced(hi.flat) && owner.Keys == owner0.Keys
    ensures Served(c, old(hi.flat), FreeCells(old(hi.flat), owner0), hi.flat, FreeCells(hi.flat, owner), r, bytes, {})
  {
    hide Shape, FreeCells, Coalesced, Served, Carved, Carvable, Blocks, PreparedOwner, Prepared, H.HeaderIndex.Valid;
    ShapeConfig(c, hi.flat, owner0);
    var m := Blocks(c, bytes);
    BlocksPositive(c, bytes);
    assert r in Cells(r, m);
    var h, n := BlockAround(hi, r, c, owner0);
    InOneBlock(c, hi.flat, owner0, h, n, r, m);
    CarvableInside(c, hi.flat, owner0, h, r - h, bytes);
    CarvedFacts(c, hi.flat, owner0, h, r - h, bytes, m, n);
    CarveBlock(hi, c, h, r, bytes);
    owner := PreparedOwner(owner0, h, r - h, m, n);
    assert h + (r - h) == r;
  }

  // ----- The allocator on its index -----

  /** What is left of a section: the first two block numbers and the last one of the address space are not used. */
  method Trim(p0: nat, n0: nat, top: nat) returns (p: nat, n: nat)
    requires n0 > 0 && p0 + n0 <= top
    ensures Cells(p, n) == Usable(p0, n0, top) && (n > 0 ==> p > 1)
  {
    p := if p0 < 2 then 2 else p0;
    var end := if p0 + n0 >= top then p0 + n0 - 1 else p0 + n0;
    n := if p < end then end - p else 0;
  }

  /** Two outcomes of one allocation are the same map. */
  lemma SameServed(c: Config, index: Index, free: set<nat>, index1: Index, owner1: Owner, index2: Index, owner2: Owner, r: nat, bytes: nat, lost: set<nat>)
    requires Shape(c, index1, owner1) && Coalesced(index1) && Shape(c, index2, owner2) && Coalesced(index2) && owner1.Keys == owner2.Keys
    requires c.Ok() && Served(c, index, free, index1, FreeCells(index1, owner1), r, bytes, lost)
    requires Served(c, index, free, index2, FreeCells(index2, owner2), r, bytes, lost)
    ensures index1 == index2
  {
    hide Shape, Coalesced, FreeCells, WholeRuns, Taken;
    forall b | b in index1 && index1[b].Used? ensures b in index2 && index2[b] == index1[b] {
      assert b in UsedBlocks(index1);
      if b in UsedBlocks(index) { assert b in index && index[b].Used?; }
    }
    MapDetermined(c, index1, owner1, index2, owner2);
  }

  /** Two ways of giving back, or of adding, the same blocks lead to the same map. */
  lemma SameGivenBack(c: Config, index0: Index, index1: Index, owner1: Owner, index2: Index, owner2: Owner)
    requires Shape(c, index1, owner1) && Coalesced(index1) && Shape(c, index2, owner2) && Coalesced(index2) && owner1.Keys == owner2.Keys
    requires FreeCells(index1, owner1) == FreeCells(index2, owner2) && UsedBlocks(index1) == UsedBlocks(index2)
    requires UsedKept(index1, index0) && UsedKept(index2, index0)
    ensures index1 == index2
  {
    hide Shape, Coalesced, FreeCells;
    forall b | b in index1 && index1[b].Used? ensures b in index2 && index2[b] == index1[b] { assert b in UsedBlocks(index2); }
    MapDetermined(c, index1, owner1, index2, owner2);
  }

  /** The allocator with free lists and a flat map, and the two-level index that stands for the map. */
  class IndexedHeap {
    const heap: BlockHeap
    const headers: H.HeaderIndex

    ghost predicate Valid()
      reads this, heap, headers
    {
      heap.Valid() && headers.Valid() && headers.flat == heap.index
    }

    constructor (c: Config, bsz: H.Pos, topSize: nat)
      requires c.Ok() && topSize > 0
      ensures Valid() && fresh(heap) && fresh(headers) && heap.c == c && heap.index == map[]
    {
      heap := new BlockHeap(c);
      headers := new H.HeaderIndex(bsz, topSize);
    }

    /** GC_freehblk for an allocated block. */
    method Release(h: nat)
      requires Valid() && h in heap.index && heap.index[h].Used?
      modifies heap, headers
      ensures Valid() && heap.owner.Keys == old(heap.owner.Keys)
      ensures heap.FreeNow() == old(heap.FreeNow()) + Cells(h, Blocks(heap.c, old(heap.index)[h].bytes))
      ensures UsedBlocks(heap.index) == old(UsedBlocks(heap.index)) - {h} && UsedKept(heap.index, old(heap.index))
    {
      hide Shape, FreeCells, Coalesced, UsedBlocks, UsedKept, Blocks, Freeable, H.HeaderIndex.Valid;
      ghost var index0, owner0 := heap.index, heap.owner;
      heap.MapIs();
      UsedFreeable(heap.c, index0, owner0, h);
      UsedSize(heap.c, index0, owner0, h);
      heap.Release(h);
      heap.MapIs();
      ghost var owner := FreeBlock(headers, heap.c, owner0, h);
      SameGivenBack(heap.c, index0, headers.flat, owner, heap.index, heap.owner);
    }

    /** GC_add_to_heap. */
    method AddToHeap(p0: nat, n0: nat, top: nat)
      requires Valid() && n0 > 0 && p0 + n0 <= top && heap.owner.Keys !! Cells(p0, n0)
      modifies heap, headers
      ensures Valid() && heap.owner.Keys == old(heap.owner.Keys) + Usable(p0, n0, top)
      ensures heap.FreeNow() == old(heap.FreeNow()) + Usable(p0, n0, top)
      ensures UsedBlocks(heap.index) == old(UsedBlocks(heap.index)) && UsedKept(heap.index, old(heap.index))
    {
      hide Shape, FreeCells, Coalesced, UsedBlocks, UsedKept, Usable, H.HeaderIndex.Valid;
      ghost var index0, owner0 := heap.index, heap.owner;
      heap.MapIs();
      var p, n := Trim(p0, n0, top);
      UsableInside(p0, n0, top);
      ghost var b := heap.AddToHeap(p0, n0, top);
      heap.MapIs();
      ghost var owner := owner0;
      if n > 0 {
        owner := AddSection(headers, heap.c, owner0, p, n);
      } else {
        NoCells(p);
        UsedSame(index0);
        assert owner0.Keys + {} == owner0.Keys && old(heap.FreeNow()) + {} == old(heap.FreeNow());
      }
      SameGivenBack(heap.c, index0, headers.flat, owner, heap.index, heap.owner);
    }

    /** GC_allochblk.  Black-listed blocks are dropped before the block found is taken. */
    method Allochblk(bytes: nat, kind: Kind, ignoreOffPage: bool, use: HeapUse, bl: BlackList)
      returns (r: nat, lost: set<nat>, ghost limit: nat)
      requires Valid() && bytes > 0 && bl.Ok()
      modifies heap, headers
      ensures Valid() && heap.owner.Keys == old(heap.owner.Keys) && heap.c.Ok()
      ensures Served(heap.c, old(heap.index), old(heap.FreeNow()), heap.index, heap.FreeNow(), r, bytes, lost)
      ensures var w := WantedFor(heap.c, bytes, kind, ignoreOffPage);
        Heeded(w, bl) ==> (r == 0 <==> !HasExact(old(heap.index), w, bl) && NoneFits(old(heap.index), w, bl, limit))
    {
      hide Shape, FreeCells, Coalesced, Served, WholeRuns, HasExact, NoneFits, Heeded, SplitLimit, Blocks, H.HeaderIndex.Valid;
      ghost var index0, owner0 := heap.index, heap.owner;
      heap.MapIs();
      r, lost, limit := heap.Allochblk(bytes, kind, ignoreOffPage, use, bl);
      heap.MapIs();
      ServedCells(heap.c, index0, FreeCells(index0, owner0), heap.index, heap.FreeNow(), r, bytes, lost);
      ghost var owner := TakeServed(headers, heap.c, owner0, r, bytes, lost);
      SameServed(heap.c, index0, FreeCells(index0, owner0), headers.flat, owner, heap.index, heap.owner, r, bytes, lost);
    }
  }

  lemma NoCells(p: nat)
    ensures Cells(p, 0) == {}
  {
  }

  lemma UsableInside(p0: nat, n0: nat, top: nat)
    ensures Usable(p0, n0, top) <= Cells(p0, n0)
  {
  }

  /** GC_add_to_heap, once the section is trimmed: it is given a header and freed. */
  method AddSection(hi: H.HeaderIndex, c: Config, ghost owner0: Owner, p: nat, n: nat) returns (ghost owner: Owner)
    requires hi.Valid() && Shape(c, hi.flat, owner0) && Coalesced(hi.flat) && n > 0 && p > 0 && owner0.Keys !! Cells(p, n)
    modifies hi
    ensures hi.Valid() && Shape(c, hi.flat, owner) && Coalesced(hi.flat) && owner.Keys == owner0.Keys + Cells(p, n)
    ensures FreeCells(hi.flat, owner) == FreeCells(old(hi.flat), owner0) + Cells(p, n)
    ensures UsedBlocks(hi.flat) == UsedBlocks(old(hi.flat)) && UsedKept(hi.flat, old(hi.flat))
  {
    hide Shape, FreeCells, Coalesced, UsedBlocks, UsedKept, Blocks, Freeable, H.HeaderIndex.Valid;
    ShapeConfig(c, hi.flat, owner0);
    BlocksExact(c, n);
    var bytes := n * c.hblkSize;
    ghost var index0 := hi.flat;
    NewFreeable(c, index0, owner0, p, n, bytes);
    NewMeets(index0, p, bytes);
    hi.InstallHeader(p, Used(bytes));
    owner := FreeBlock(hi, c, Added(owner0, p, n), p);
    UsedGone(index0[p := Used(bytes)], hi.flat, p);
    UsedStep(index0, index0[p := Used(bytes)], hi.flat, p);
  }

  lemma UsedGone(index: Index, index': Index, p: nat)
    requires UsedBlocks(index') == UsedBlocks(index) - {p}
    ensures p !in UsedBlocks(index')
  {
  }

  lemma ServedCells(c: Config, index: Index, free: set<nat>, index': Index, free': set<nat>, r: nat, bytes: nat, lost: set<nat>)
    requires c.Ok() && Served(c, index, free, index', free', r, bytes, lost)
    ensures lost <= free && WholeRuns(free, lost) && (r != 0 ==> Cells(r, Blocks(c, bytes)) <= free - lost)
  {
  }

  lemma DroppedLeft(c: Config, index: Index, free: set<nat>, index': Index, free': set<nat>, lost: set<nat>)
    requires c.Ok() && Served(c, index, free, index', free', 0, 0, lost)
    ensures free' == free - lost
    ensures forall bytes: nat :: Served(c, index, free, index', free', 0, bytes, lost)
  {
    hide WholeRuns;
  }

  /** The dropped blocks and the block found. */
  method TakeServed(hi: H.HeaderIndex, c: Config, ghost owner0: Owner, r: nat, bytes: nat, lost: set<nat>) returns (ghost owner: Owner)
    requires hi.Valid() && Shape(c, hi.flat, owner0) && Coalesced(hi.flat) && bytes > 0
    requires lost <= FreeCells(hi.flat, owner0) && WholeRuns(FreeCells(hi.flat, owner0), lost)
    requires r != 0 ==> c.Ok() && Cells(r, Blocks(c, bytes)) <= FreeCells(hi.flat, owner0) - lost
    modifies hi
    ensures hi.Valid() && c.Ok() && Shape(c, hi.flat, owner) && Coalesced(hi.flat) && owner.Keys == owner0.Keys
    ensures Served(c, old(hi.flat), FreeCells(old(hi.flat), owner0), hi.flat, FreeCells(hi.flat, owner), r, bytes, lost)
  {
    hide Shape, FreeCells, Coalesced, Served, WholeRuns, Blocks, H.HeaderIndex.Valid;
    ghost var index0, free0 := hi.flat, FreeCells(hi.flat, owner0);
    owner := DropAll(hi, c, owner0, lost);
    ghost var index1, free1 := hi.flat, FreeCells(hi.flat, owner);
    DroppedLeft(c, index0, free0, index1, free1, lost);
    if r != 0 {
      owner := TakeBlock(hi, c, owner, r, bytes);
      ServedThen(c, index0, free0, index1, free1, hi.flat, FreeCells(hi.flat, owner), r, bytes, lost, {});
      assert lost + {} == lost;
    }
  }

  lemma UsedSize(c: Config, index: Index, owner: Owner, h: nat)
    requires Shape(c, index, owner) && h in index && index[h].Used?
    ensures Blocks(c, index[h].bytes) > 0
  {
    assert HeaderOk(c, index, owner, h);
  }
}

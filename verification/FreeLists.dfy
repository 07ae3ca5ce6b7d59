/** The segregated free lists of heap blocks: which sizes go where, the double
    links, and what a change of one list leaves alone. */
module FreeLists {
  import opened BlockIndexes

  const UNIQUE_THRESHOLD: nat := 32
  const HUGE_THRESHOLD: nat := 256
  const FL_COMPRESSION: nat := 8
  const N_HBLK_FLS: nat := (HUGE_THRESHOLD - UNIQUE_THRESHOLD) / FL_COMPRESSION + UNIQUE_THRESHOLD

  /** GC_hblk_fl_from_blocks. */
  function ListFor(blocks: nat): (i: nat)
    ensures i <= N_HBLK_FLS
  {
    if blocks <= UNIQUE_THRESHOLD then blocks
    else if blocks >= HUGE_THRESHOLD then N_HBLK_FLS
    else (blocks - UNIQUE_THRESHOLD) / FL_COMPRESSION + UNIQUE_THRESHOLD
  }

  /** The lists in numbers: one size each up to 32 blocks, then eight sizes each, and one list for 256 blocks or more. */
  lemma ListForIs(blocks: nat)
    ensures var i := ListFor(blocks);
      if blocks <= 32 then i == blocks else if blocks < 256 then 8 * (i - 32) <= blocks - 32 < 8 * (i - 31) else i == 60 == N_HBLK_FLS
  {
  }

  /** Larger blocks are on later lists, and the lists before the UNIQUE_THRESHOLD
      one hold blocks of a single size. */
  lemma ListOrder(m: nat, n: nat)
    ensures m <= n ==> ListFor(m) <= ListFor(n)
    ensures ListFor(m) == ListFor(n) < UNIQUE_THRESHOLD ==> m == n
  {
  }

  // ----- Links -----

  /** Element j of a list, 0 beyond both its ends. */
  function At(list: seq<nat>, j: int): nat {
    if 0 <= j < |list| then list[j] else 0
  }

  ghost predicate NodeOk(next: map<nat, nat>, prev: map<nat, nat>, list: seq<nat>, j: nat)
    requires j < |list|
  {
    var b := list[j];
    b != 0 && b in next && b in prev && next[b] == At(list, j + 1) && prev[b] == At(list, j - 1)
  }

  ghost predicate Linked(head: nat, next: map<nat, nat>, prev: map<nat, nat>, list: seq<nat>) {
    head == At(list, 0) && forall j :: 0 <= j < |list| ==> NodeOk(next, prev, list, j)
  }

  ghost predicate AllLinked(heads: seq<nat>, next: map<nat, nat>, prev: map<nat, nat>, lists: seq<seq<nat>>) {
    |heads| == |lists| && forall i :: 0 <= i < |lists| ==> Linked(heads[i], next, prev, lists[i])
  }

  /** No block is at two places. */
  ghost predicate Apart(lists: seq<seq<nat>>) {
    forall i, j, k, l | 0 <= i < |lists| && 0 <= j < |lists[i]| && 0 <= k < |lists| && 0 <= l < |lists[k]| ::
      lists[i][j] == lists[k][l] ==> i == k && j == l
  }

  ghost predicate OnNoList(lists: seq<seq<nat>>, b: nat) {
    forall i, j :: 0 <= i < |lists| && 0 <= j < |lists[i]| ==> lists[i][j] != b
  }

  function Without(list: seq<nat>, j: nat): seq<nat>
    requires j < |list|
  {
    list[..j] + list[j + 1..]
  }

  // ----- The order of addresses -----

  predicate Ascending(list: seq<nat>) {
    forall j, k :: 0 <= j < k < |list| ==> list[j] < list[k]
  }

  /** Inserting at the head keeps a list in address order only if the block comes before all others. */
  lemma AscendingPush(list: seq<nat>, b: nat)
    ensures Ascending([b] + list) <==> Ascending(list) && (list == [] || b < list[0])
  {
    var longer := [b] + list;
    if Ascending(longer) {
      forall j, k | 0 <= j < k < |list| ensures list[j] < list[k] { assert longer[j + 1] < longer[k + 1]; }
      assert list != [] ==> longer[0] < longer[1];
    }
    if Ascending(list) && (list == [] || b < list[0]) {
      forall j, k | 0 <= j < k < |longer| ensures longer[j] < longer[k] {
        assert longer[k] == list[k - 1] && list[0] <= list[k - 1];
      }
    }
  }

  /** Taking blocks off and dividing them does no harm to the order. */
  lemma AscendingKept(list: seq<nat>, j: nat, n: nat)
    requires Ascending(list) && j < |list|
    ensures Ascending(Without(list, j))
    ensures list[j] <= n && (j + 1 < |list| ==> n < list[j + 1]) ==> Ascending(Swapped(list, j, n))
  {
  }

  ghost predicate SameLinks(next: map<nat, nat>, prev: map<nat, nat>, next': map<nat, nat>, prev': map<nat, nat>, b: nat) {
    && (b in next ==> b in next' && next'[b] == next[b])
    && (b in prev ==> b in prev' && prev'[b] == prev[b])
  }

  lemma LinkedFrame(head: nat, next: map<nat, nat>, prev: map<nat, nat>, next': map<nat, nat>, prev': map<nat, nat>, list: seq<nat>)
    requires Linked(head, next, prev, list)
    requires forall j :: 0 <= j < |list| ==> SameLinks(next, prev, next', prev', list[j])
    ensures Linked(head, next', prev', list)
  {
    forall j | 0 <= j < |list| ensures NodeOk(next', prev', list, j) {
      assert NodeOk(next, prev, list, j);
    }
  }

  /** What taking block b out of the list starting at `head` does to the links. */
  function HeadWithout(head: nat, next: map<nat, nat>, prev: map<nat, nat>, b: nat): nat
    requires b in next && b in prev
  {
    if prev[b] == 0 then next[b] else head
  }

  function NextWithout(next: map<nat, nat>, prev: map<nat, nat>, b: nat): map<nat, nat>
    requires b in next && b in prev
  {
    if prev[b] == 0 then next else next[prev[b] := next[b]]
  }

  function PrevWithout(next: map<nat, nat>, prev: map<nat, nat>, b: nat): map<nat, nat>
    requires b in next && b in prev
  {
    if next[b] == 0 then prev else prev[next[b] := prev[b]]
  }

  lemma UnlinkOne(head: nat, next: map<nat, nat>, prev: map<nat, nat>, list: seq<nat>, j: nat)
    requires Linked(head, next, prev, list) && j < |list|
    requires forall k, l :: 0 <= k < |list| && 0 <= l < |list| && list[k] == list[l] ==> k == l
    ensures NodeOk(next, prev, list, j)
    ensures Linked(HeadWithout(head, next, prev, list[j]), NextWithout(next, prev, list[j]), PrevWithout(next, prev, list[j]), Without(list, j))
  {
    assert NodeOk(next, prev, list, j);
    var b := list[j];
    var next', prev', list' := NextWithout(next, prev, b), PrevWithout(next, prev, b), Without(list, j);
    forall k | 0 <= k < |list'| ensures NodeOk(next', prev', list', k) {
      assert NodeOk(next, prev, list, if k < j then k else k + 1);
    }
    if j > 0 { assert NodeOk(next, prev, list, j - 1); }
  }

  lemma UnlinkKeeps(heads: seq<nat>, next: map<nat, nat>, prev: map<nat, nat>, lists: seq<seq<nat>>, i: nat, j: nat)
    requires AllLinked(heads, next, prev, lists) && Apart(lists) && i < |lists| && j < |lists[i]|
    ensures NodeOk(next, prev, lists[i], j)
    ensures var b := lists[i][j];
      AllLinked(heads[i := HeadWithout(heads[i], next, prev, b)], NextWithout(next, prev, b), PrevWithout(next, prev, b),
                lists[i := Without(lists[i], j)])
  {
    var b := lists[i][j];
    UnlinkOne(heads[i], next, prev, lists[i], j);
    forall l | 0 <= l < |lists| && l != i
      ensures Linked(heads[l], NextWithout(next, prev, b), PrevWithout(next, prev, b), lists[l])
    {
      LinkedFrame(heads[l], next, prev, NextWithout(next, prev, b), PrevWithout(next, prev, b), lists[l]);
    }
  }

  /** The links after block b is put in front of the list starting at `head`. */
  function PrevWith(prev: map<nat, nat>, head: nat, b: nat): map<nat, nat> {
    if head == 0 then prev[b := 0] else prev[b := 0][head := b]
  }

  lemma PushKeeps(heads: seq<nat>, next: map<nat, nat>, prev: map<nat, nat>, lists: seq<seq<nat>>, i: nat, b: nat)
    requires AllLinked(heads, next, prev, lists) && Apart(lists) && i < |lists| && b != 0 && OnNoList(lists, b)
    ensures AllLinked(heads[i := b], next[b := heads[i]], PrevWith(prev, heads[i], b), lists[i := [b] + lists[i]])
  {
    var next', prev' := next[b := heads[i]], PrevWith(prev, heads[i], b);
    forall l | 0 <= l < |lists| && l != i ensures Linked(heads[l], next', prev', lists[l]) {
      LinkedFrame(heads[l], next, prev, next', prev', lists[l]);
    }
    assert Linked(heads[i], next, prev, lists[i]);
    var list' := [b] + lists[i];
    forall k | 0 <= k < |list'| ensures NodeOk(next', prev', list', k) {
      if k > 0 { assert NodeOk(next, prev, lists[i], k - 1); }
    }
  }

  function Swapped(list: seq<nat>, j: nat, n: nat): seq<nat>
    requires j < |list|
  {
    list[j := n]
  }

  /** The links after block n takes the place of block h. */
  function HeadSwapped(head: nat, prev: map<nat, nat>, h: nat, n: nat): nat
    requires h in prev
  {
    if prev[h] == 0 then n else head
  }

  function NextSwapped(next: map<nat, nat>, prev: map<nat, nat>, h: nat, n: nat): map<nat, nat>
    requires h in next && h in prev
  {
    if prev[h] == 0 then next[n := next[h]] else next[n := next[h]][prev[h] := n]
  }

  function PrevSwapped(next: map<nat, nat>, prev: map<nat, nat>, h: nat, n: nat): map<nat, nat>
    requires h in next && h in prev
  {
    if next[h] == 0 then prev[n := prev[h]] else prev[n := prev[h]][next[h] := n]
  }

  lemma SwapKeeps(heads: seq<nat>, next: map<nat, nat>, prev: map<nat, nat>, lists: seq<seq<nat>>, i: nat, j: nat, n: nat)
    requires AllLinked(heads, next, prev, lists) && Apart(lists) && i < |lists| && j < |lists[i]| && n != 0 && OnNoList(lists, n)
    ensures NodeOk(next, prev, lists[i], j)
    ensures var h := lists[i][j];
      AllLinked(heads[i := HeadSwapped(heads[i], prev, h, n)], NextSwapped(next, prev, h, n), PrevSwapped(next, prev, h, n),
                lists[i := Swapped(lists[i], j, n)])
  {
    var h := lists[i][j];
    assert Linked(heads[i], next, prev, lists[i]);
    assert NodeOk(next, prev, lists[i], j);
    if j > 0 { assert NodeOk(next, prev, lists[i], j - 1); }
    var next', prev' := NextSwapped(next, prev, h, n), PrevSwapped(next, prev, h, n);
    forall l | 0 <= l < |lists| && l != i ensures Linked(heads[l], next', prev', lists[l]) {
      LinkedFrame(heads[l], next, prev, next', prev', lists[l]);
    }
    var list' := Swapped(lists[i], j, n);
    forall k | 0 <= k < |list'| ensures NodeOk(next', prev', list', k) {
      assert NodeOk(next, prev, lists[i], k);
    }
  }

  // ----- What is on the lists -----

  /** The lists hold free blocks only, none twice; except for the blocks in `moving`
      every free block is on a list, and every block on a list is on the one for its size. */
  ghost predicate Listed(index: Index, lists: seq<seq<nat>>, moving: set<nat>) {
    && |lists| == N_HBLK_FLS + 1 && Apart(lists)
    && (forall i, j :: 0 <= i < |lists| && 0 <= j < |lists[i]| ==> PlaceOk(index, lists[i][j], i, moving))
    && (forall b :: IsFree(index, b) && b !in moving ==> b in lists[ListFor(index[b].blocks)])
  }

  ghost predicate PlaceOk(index: Index, b: nat, i: nat, moving: set<nat>) {
    IsFree(index, b) && (b !in moving ==> i == ListFor(index[b].blocks))
  }

  lemma ListedUnlink(index: Index, lists: seq<seq<nat>>, moving: set<nat>, i: nat, j: nat)
    requires Listed(index, lists, moving) && i < |lists| && j < |lists[i]|
    ensures var lists' := lists[i := Without(lists[i], j)];
      Listed(index, lists', moving + {lists[i][j]}) && OnNoList(lists', lists[i][j])
  {
    var b := lists[i][j];
    var lists' := lists[i := Without(lists[i], j)];
    forall k, l | 0 <= k < |lists'| && 0 <= l < |lists'[k]|
      ensures var l' := if k == i && l >= j then l + 1 else l;
        l' < |lists[k]| && lists'[k][l] == lists[k][l'] && lists'[k][l] != b && PlaceOk(index, lists'[k][l], k, moving + {b})
    {
      var l' := if k == i && l >= j then l + 1 else l;
      assert lists'[k][l] == lists[k][l'];
      assert PlaceOk(index, lists[k][l'], k, moving);
    }
    forall d | IsFree(index, d) && d !in moving + {b} ensures d in lists'[ListFor(index[d].blocks)] {
      var k := ListFor(index[d].blocks);
      var l :| 0 <= l < |lists[k]| && lists[k][l] == d;
      if k == i { assert lists'[k][if l < j then l else l - 1] == d; }
    }
  }

  lemma ListedPush(index: Index, lists: seq<seq<nat>>, moving: set<nat>, b: nat)
    requires Listed(index, lists, moving) && IsFree(index, b) && OnNoList(lists, b)
    ensures var i := ListFor(index[b].blocks); Listed(index, lists[i := [b] + lists[i]], moving - {b})
  {
    var i := ListFor(index[b].blocks);
    var lists' := lists[i := [b] + lists[i]];
    forall k, l | 0 <= k < |lists'| && 0 <= l < |lists'[k]| ensures PlaceOk(index, lists'[k][l], k, moving - {b}) {
      if k != i || l > 0 {
        var l' := if k == i then l - 1 else l;
        assert lists'[k][l] == lists[k][l'];
        assert PlaceOk(index, lists[k][l'], k, moving);
      }
    }
    forall d | IsFree(index, d) && d !in moving - {b} ensures d in lists'[ListFor(index[d].blocks)] {
      if d != b { assert d in lists[ListFor(index[d].blocks)]; }
    }
  }

  /** A change of the map that does not touch the blocks on the lists. */
  lemma ListedChange(index: Index, index': Index, lists: seq<seq<nat>>, moving: set<nat>, moving': set<nat>)
    requires Listed(index, lists, moving)
    requires forall i, j :: 0 <= i < |lists| && 0 <= j < |lists[i]| ==>
      IsFree(index', lists[i][j]) && index'[lists[i][j]] == index[lists[i][j]] && (lists[i][j] in moving ==> lists[i][j] in moving')
    requires forall b :: IsFree(index', b) && b !in moving' ==> b !in moving && IsFree(index, b) && index'[b] == index[b]
    ensures Listed(index', lists, moving')
  {
    forall i, j | 0 <= i < |lists| && 0 <= j < |lists[i]| ensures PlaceOk(index', lists[i][j], i, moving') {
      assert PlaceOk(index, lists[i][j], i, moving);
    }
  }

  // ----- Sizes -----

  function SizeOf(index: Index, b: nat): nat {
    if IsFree(index, b) then index[b].blocks else 0
  }

  /** The blocks on a list, counted. */
  ghost function SizeSum(index: Index, list: seq<nat>): nat {
    if list == [] then 0 else SizeOf(index, list[0]) + SizeSum(index, list[1..])
  }

  ghost predicate Counted(index: Index, freeBlocks: seq<nat>, lists: seq<seq<nat>>) {
    |freeBlocks| == |lists| && forall i :: 0 <= i < |lists| ==> freeBlocks[i] == SizeSum(index, lists[i])
  }

  lemma {:induction false} SizeSumWithout(index: Index, list: seq<nat>, j: nat)
    requires j < |list|
    ensures SizeSum(index, list) == SizeSum(index, Without(list, j)) + SizeOf(index, list[j])
  {
    if j == 0 {
      assert Without(list, 0) == list[1..];
    } else {
      SizeSumWithout(index, list[1..], j - 1);
      assert Without(list, j)[1..] == Without(list[1..], j - 1);
    }
  }

  lemma {:induction false} SizeSumSame(index: Index, index': Index, list: seq<nat>)
    requires forall j :: 0 <= j < |list| ==> SizeOf(index', list[j]) == SizeOf(index, list[j])
    ensures SizeSum(index', list) == SizeSum(index, list)
  {
    if list != [] { SizeSumSame(index, index', list[1..]); }
  }

  // ----- The sum over all lists is the free part of the heap -----

  ghost function Sum(counts: seq<nat>): nat {
    if counts == [] then 0 else Sum(counts[..|counts| - 1]) + counts[|counts| - 1]
  }

  /** The block numbers of the free blocks on a list, and on several lists. */
  ghost function CellsOfList(index: Index, list: seq<nat>): set<nat> {
    if list == [] then {} else Cells(list[0], SizeOf(index, list[0])) + CellsOfList(index, list[1..])
  }

  ghost function CellsOfLists(index: Index, lists: seq<seq<nat>>): set<nat> {
    if lists == [] then {} else CellsOfLists(index, lists[..|lists| - 1]) + CellsOfList(index, lists[|lists| - 1])
  }

  /** Block number a belongs to one of the blocks on a list. */
  lemma {:induction false} InCellsOfList(c: Config, index: Index, owner: Owner, list: seq<nat>, a: nat)
    requires Shape(c, index, owner) && forall j :: 0 <= j < |list| ==> IsFree(index, list[j])
    ensures a in CellsOfList(index, list) <==> a in owner && owner[a] in list
  {
    if list != [] {
      InCellsOfList(c, index, owner, list[1..], a);
      BlockIsWhole(c, index, owner, list[0]);
      assert list == [list[0]] + list[1..];
    }
  }

  lemma {:induction false} CountCellsOfList(c: Config, index: Index, owner: Owner, list: seq<nat>)
    requires Shape(c, index, owner) && forall j :: 0 <= j < |list| ==> IsFree(index, list[j])
    requires forall k, l :: 0 <= k < |list| && 0 <= l < |list| && list[k] == list[l] ==> k == l
    ensures |CellsOfList(index, list)| == SizeSum(index, list)
  {
    if list != [] {
      CountCellsOfList(c, index, owner, list[1..]);
      CellsCount(list[0], SizeOf(index, list[0]));
      BlockIsWhole(c, index, owner, list[0]);
      forall a | a in Cells(list[0], SizeOf(index, list[0])) ensures a !in CellsOfList(index, list[1..]) {
        InCellsOfList(c, index, owner, list[1..], a);
      }
    }
  }

  lemma {:induction false} InCellsOfLists(c: Config, index: Index, owner: Owner, lists: seq<seq<nat>>, a: nat)
    requires Shape(c, index, owner) && forall i, j :: 0 <= i < |lists| && 0 <= j < |lists[i]| ==> IsFree(index, lists[i][j])
    ensures a in CellsOfLists(index, lists) <==> a in owner && !OnNoList(lists, owner[a])
  {
    hide Shape, IsFree, CellsOfList, OnNoList;
    if lists != [] {
      var n := |lists| - 1;
      InCellsOfLists(c, index, owner, lists[..n], a);
      InCellsOfList(c, index, owner, lists[n], a);
      if a in owner { OnLastList(lists, owner[a]); }
    } else if a in owner {
      OnNothing(owner[a]);
    }
  }

  lemma OnNothing(b: nat)
    ensures OnNoList([], b)
  {
  }

  lemma OnLastList(lists: seq<seq<nat>>, b: nat)
    requires lists != []
    ensures OnNoList(lists, b) <==> OnNoList(lists[..|lists| - 1], b) && b !in lists[|lists| - 1]
  {
    var n := |lists| - 1;
    if OnNoList(lists[..n], b) && b !in lists[n] {
      forall i, j | 0 <= i < |lists| && 0 <= j < |lists[i]| ensures lists[i][j] != b {
        if i < n { assert lists[..n][i][j] != b; }
      }
    }
    if OnNoList(lists, b) {
      forall i, j | 0 <= i < n && 0 <= j < |lists[..n][i]| ensures lists[..n][i][j] != b { assert lists[i][j] != b; }
    }
  }

  lemma {:induction false} CountCellsOfLists(c: Config, index: Index, owner: Owner, freeBlocks: seq<nat>, lists: seq<seq<nat>>)
    requires Shape(c, index, owner) && Apart(lists) && Counted(index, freeBlocks, lists)
    requires forall i, j :: 0 <= i < |lists| && 0 <= j < |lists[i]| ==> IsFree(index, lists[i][j])
    ensures |CellsOfLists(index, lists)| == Sum(freeBlocks)
  {
    if lists != [] {
      var n := |lists| - 1;
      LastApart(lists);
      hide Shape, IsFree, CellsOfList, OnNoList, Apart;
      CountCellsOfLists(c, index, owner, freeBlocks[..n], lists[..n]);
      CountCellsOfList(c, index, owner, lists[n]);
      forall a | a in CellsOfList(index, lists[n]) ensures a !in CellsOfLists(index, lists[..n]) {
        InCellsOfLists(c, index, owner, lists[..n], a);
        InCellsOfList(c, index, owner, lists[n], a);
      }
    }
  }

  ghost predicate NoneOn(lists: seq<seq<nat>>, blocks: seq<nat>) {
    forall b :: b in blocks ==> OnNoList(lists, b)
  }

  lemma LastApart(lists: seq<seq<nat>>)
    requires Apart(lists) && lists != []
    ensures Apart(lists[..|lists| - 1]) && NoneOn(lists[..|lists| - 1], lists[|lists| - 1])
    ensures var last := lists[|lists| - 1];
      forall k, l :: 0 <= k < |last| && 0 <= l < |last| && last[k] == last[l] ==> k == l
  {
  }

  lemma ListedAreFree(index: Index, lists: seq<seq<nat>>, moving: set<nat>)
    requires Listed(index, lists, moving)
    ensures forall i, j :: 0 <= i < |lists| && 0 <= j < |lists[i]| ==> IsFree(index, lists[i][j])
  {
    forall i, j | 0 <= i < |lists| && 0 <= j < |lists[i]| ensures IsFree(index, lists[i][j]) {
      assert PlaceOk(index, lists[i][j], i, moving);
    }
  }

  lemma FreeIsListed(index: Index, lists: seq<seq<nat>>, b: nat)
    requires Listed(index, lists, {})
    ensures IsFree(index, b) <==> !OnNoList(lists, b)
  {
    if IsFree(index, b) {
      var i := ListFor(index[b].blocks);
      var j :| 0 <= j < |lists[i]| && lists[i][j] == b;
    } else {
      ListedAreFree(index, lists, {});
    }
  }

  lemma CellIsListed(c: Config, index: Index, owner: Owner, lists: seq<seq<nat>>, a: nat)
    requires Shape(c, index, owner) && Listed(index, lists, {})
    ensures a in CellsOfLists(index, lists) <==> a in FreeCells(index, owner)
  {
    hide Shape, Listed, OnNoList, CellsOfLists;
    ListedAreFree(index, lists, {});
    InCellsOfLists(c, index, owner, lists, a);
    if a in owner { FreeIsListed(index, lists, owner[a]); }
  }

  /** The counts of all lists add up to the free part of the heap. */
  lemma ListsCountFree(c: Config, index: Index, owner: Owner, freeBlocks: seq<nat>, lists: seq<seq<nat>>)
    requires Shape(c, index, owner) && Listed(index, lists, {}) && Counted(index, freeBlocks, lists)
    ensures Sum(freeBlocks) == |FreeCells(index, owner)|
  {
    hide Shape, OnNoList, CellsOfLists, Apart, Counted, PlaceOk, FreeCells;
    ListedAreFree(index, lists, {});
    CountCellsOfLists(c, index, owner, freeBlocks, lists);
    forall a: nat ensures a in CellsOfLists(index, lists) <==> a in FreeCells(index, owner) {
      CellIsListed(c, index, owner, lists, a);
    }
    assert CellsOfLists(index, lists) == FreeCells(index, owner);
  }

  lemma CountedSame(index: Index, index': Index, freeBlocks: seq<nat>, lists: seq<seq<nat>>)
    requires Counted(index, freeBlocks, lists)
    requires forall i, j :: 0 <= i < |lists| && 0 <= j < |lists[i]| ==> SizeOf(index', lists[i][j]) == SizeOf(index, lists[i][j])
    ensures Counted(index', freeBlocks, lists)
  {
    forall i | 0 <= i < |lists| ensures freeBlocks[i] == SizeSum(index', lists[i]) {
      SizeSumSame(index, index', lists[i]);
    }
  }

  /** Merging blocks b and d, neither of which is on a list. */
  lemma ListedMerge(index: Index, freeBlocks: seq<nat>, lists: seq<seq<nat>>, b: nat, d: nat)
    requires Listed(index, lists, {b, d}) && Counted(index, freeBlocks, lists) && OnNoList(lists, b) && OnNoList(lists, d)
    requires IsFree(index, b) && IsFree(index, d) && d == b + index[b].blocks && b != d
    ensures Listed(Merged(index, b), lists, {b}) && Counted(Merged(index, b), freeBlocks, lists)
  {
    ListedAreFree(index, lists, {b, d});
    ListedChange(index, Merged(index, b), lists, {b, d}, {b});
    CountedSame(index, Merged(index, b), freeBlocks, lists);
  }

  lemma FreedLists(c: Config, index: Index, freeBlocks: seq<nat>, lists: seq<seq<nat>>, h: nat)
    requires c.Ok() && h in index && index[h].Used? && Listed(index, lists, {}) && Counted(index, freeBlocks, lists)
    requires forall a :: a in Inside(h, Blocks(c, index[h].bytes)) ==> !IsFree(index, a)
    ensures Listed(Freed(c, index, h), lists, {h}) && Counted(Freed(c, index, h), freeBlocks, lists) && OnNoList(lists, h)
  {
    hide Blocks;
    ListedAreFree(index, lists, {});
    ListedChange(index, Freed(c, index, h), lists, {}, {h});
    CountedSame(index, Freed(c, index, h), freeBlocks, lists);
  }

  /** Block h, the j-th on list i, is divided k blocks in: its second part n takes its place. */
  lemma SplitLists(index: Index, lists: seq<seq<nat>>, i: nat, j: nat, h: nat, k: nat)
    requires i < |lists| && j < |lists[i]| && lists[i][j] == h && IsFree(index, h) && 0 < k < index[h].blocks
    requires Listed(index, lists, {}) && h + k !in index
    ensures var lists' := lists[i := Swapped(lists[i], j, h + k)];
      Listed(Divided(index, h, k), lists', {h, h + k}) && OnNoList(lists', h) && OnNoList(lists, h + k)
  {
    var index', n := Divided(index, h, k), h + k;
    var lists' := lists[i := Swapped(lists[i], j, n)];
    ListedAreFree(index, lists, {});
    forall k', l | 0 <= k' < |lists'| && 0 <= l < |lists'[k']|
      ensures lists'[k'][l] != h && PlaceOk(index', lists'[k'][l], k', {h, n})
    {
      assert PlaceOk(index, lists[k'][l], k', {});
    }
    forall b | IsFree(index', b) && b !in {h, n} ensures b in lists'[ListFor(index'[b].blocks)] {
      var i' := ListFor(index[b].blocks);
      var l :| 0 <= l < |lists[i']| && lists[i'][l] == b;
      assert lists'[i'][l] == b;
    }
  }

  lemma SplitCounts(index: Index, freeBlocks: seq<nat>, lists: seq<seq<nat>>, i: nat, j: nat, h: nat, k: nat)
    requires i < |lists| && j < |lists[i]| && lists[i][j] == h && IsFree(index, h) && 0 < k < index[h].blocks
    requires Listed(index, lists, {}) && Counted(index, freeBlocks, lists) && h + k !in index
    ensures freeBlocks[i] >= k && Counted(Divided(index, h, k), freeBlocks[i := freeBlocks[i] - k], lists[i := Swapped(lists[i], j, h + k)])
  {
    hide ListFor, SizeSum, Divided, Swapped;
    var index' := Divided(index, h, k);
    ListedAreFree(index, lists, {});
    SplitCount(index, lists[i], j, h, k);
    forall l | 0 <= l < |lists| && l != i ensures SizeSum(index', lists[l]) == SizeSum(index, lists[l]) {
      OtherCount(index, lists[l], h, k);
    }
  }

  /** The list whose block is replaced by its second part holds k blocks less. */
  lemma SplitCount(index: Index, list: seq<nat>, j: nat, h: nat, k: nat)
    requires j < |list| && list[j] == h && IsFree(index, h) && 0 < k < index[h].blocks && h + k !in index
    requires (forall l :: 0 <= l < |list| ==> IsFree(index, list[l])) && forall l :: 0 <= l < |list| && l != j ==> list[l] != h
    ensures SizeSum(Divided(index, h, k), Swapped(list, j, h + k)) == SizeSum(index, list) - k
  {
    var index', n := Divided(index, h, k), h + k;
    var list' := Swapped(list, j, n);
    SizeSumWithout(index, list, j);
    SizeSumWithout(index', list', j);
    assert Without(list', j) == Without(list, j);
    forall l | 0 <= l < |Without(list, j)| ensures SizeOf(index', Without(list, j)[l]) == SizeOf(index, Without(list, j)[l]) {
      assert Without(list, j)[l] == list[if l < j then l else l + 1];
    }
    SizeSumSame(index, index', Without(list, j));
  }

  lemma OtherCount(index: Index, list: seq<nat>, h: nat, k: nat)
    requires IsFree(index, h) && 0 < k < index[h].blocks && h + k !in index
    requires forall l :: 0 <= l < |list| ==> IsFree(index, list[l]) && list[l] != h
    ensures SizeSum(Divided(index, h, k), list) == SizeSum(index, list)
  {
    SizeSumSame(index, Divided(index, h, k), list);
  }

  /** A new free block at `rest`, not yet on a list. */
  lemma RestLists(index: Index, freeBlocks: seq<nat>, lists: seq<seq<nat>>, h: nat, rest: nat, m: nat)
    requires Listed(index, lists, {h}) && Counted(index, freeBlocks, lists) && rest !in index
    ensures Listed(index[rest := Free(m)], lists, {h, rest}) && Counted(index[rest := Free(m)], freeBlocks, lists)
    ensures OnNoList(lists, rest)
  {
    ListedAreFree(index, lists, {h});
    ListedChange(index, index[rest := Free(m)], lists, {h}, {h, rest});
    CountedSame(index, index[rest := Free(m)], freeBlocks, lists);
  }

  /** Block h, which is on no list, is allocated. */
  lemma AllocatedLists(c: Config, index: Index, freeBlocks: seq<nat>, lists: seq<seq<nat>>, h: nat, bytes: nat)
    requires c.Ok() && Listed(index, lists, {h}) && Counted(index, freeBlocks, lists) && OnNoList(lists, h)
    requires forall a :: a in Inside(h, Blocks(c, bytes)) ==> a !in index
    ensures Listed(Allocated(c, index, h, bytes), lists, {}) && Counted(Allocated(c, index, h, bytes), freeBlocks, lists)
  {
    hide Blocks;
    ListedAreFree(index, lists, {h});
    ListedChange(index, Allocated(c, index, h, bytes), lists, {h}, {});
    CountedSame(index, Allocated(c, index, h, bytes), freeBlocks, lists);
  }

  /** Block h of n blocks, which is on no list, is dropped. */
  lemma DroppedLists(c: Config, index: Index, freeBlocks: seq<nat>, lists: seq<seq<nat>>, h: nat, n: nat)
    requires Listed(index, lists, {h}) && Counted(index, freeBlocks, lists) && OnNoList(lists, h)
    requires forall a :: a in Inside(h, n) ==> a !in index
    requires n > 0
    ensures Listed(index + Singles(c, h, n), lists, {}) && Counted(index + Singles(c, h, n), freeBlocks, lists)
  {
    ListedAreFree(index, lists, {h});
    ListedChange(index, index + Singles(c, h, n), lists, {h}, {});
    CountedSame(index, index + Singles(c, h, n), freeBlocks, lists);
  }
}

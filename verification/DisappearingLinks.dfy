/** The table of disappearing links: hash chains in an array that doubles as it fills. */
module DisappearingLinks {

  /** A link, by its address, and the object whose collection clears it. */
  datatype Dl = Dl(link: nat, obj: nat)

  datatype Answer = Success | Duplicate | NotFound | NoMemory | Abort

  // ----- Hashing -----

  function Pow2(n: nat): (r: nat)
    ensures r > 0
  {
    if n == 0 then 1 else 2 * Pow2(n - 1)
  }

  function Xor(a: nat, b: nat): nat {
    if a == 0 && b == 0 then 0 else (a % 2 + b % 2) % 2 + 2 * Xor(a / 2, b / 2)
  }

  function Shifted(a: nat, n: nat): nat
    requires n > 0
  {
    a / n
  }

  /** The bits kept by a mask of n - 1, for n a power of two. */
  function Masked(a: nat, n: nat): (r: nat)
    requires n > 0
    ensures r < n
  {
    a % n
  }

  /** HASH2 for a table of 2^log chains. */
  function Hash(link: nat, log: nat): (i: nat)
    ensures i < Pow2(log)
  {
    Masked(Xor(link / 8, Shifted(link / 8, Pow2(log))), Pow2(log))
  }

  // ----- Chains -----

  /** No link is in the table twice, and each is in its own chain. */
  ghost predicate InChains(chains: seq<seq<Dl>>, log: nat) {
    && |chains| == Pow2(log)
    && (forall i, j :: 0 <= i < |chains| && 0 <= j < |chains[i]| ==> Hash(chains[i][j].link, log) == i)
    && (forall i :: 0 <= i < |chains| ==> Apart(chains[i]))
  }

  ghost predicate Apart(chain: seq<Dl>) {
    forall j, k :: 0 <= j < |chain| && 0 <= k < |chain| && chain[j].link == chain[k].link ==> j == k
  }

  /** The chains hold the entries of the map and no others. */
  ghost predicate Holds(chains: seq<seq<Dl>>, content: map<nat, nat>) {
    && (forall i, j :: 0 <= i < |chains| && 0 <= j < |chains[i]| ==> EntryIn(chains[i][j], content))
    && (forall l :: l in content ==> Found(chains, Dl(l, content[l])))
  }

  ghost predicate EntryIn(e: Dl, content: map<nat, nat>) {
    e.link in content && content[e.link] == e.obj
  }

  ghost predicate Found(chains: seq<seq<Dl>>, e: Dl) {
    exists i :: 0 <= i < |chains| && e in chains[i]
  }

  /** Where link l is in a chain, or the length of the chain. */
  method FindIn(chain: seq<Dl>, l: nat) returns (j: nat)
    ensures j <= |chain| && (forall k :: 0 <= k < j ==> chain[k].link != l) && (j < |chain| ==> chain[j].link == l)
  {
    j := 0;
    while j < |chain| && chain[j].link != l
      invariant j <= |chain| && forall k :: 0 <= k < j ==> chain[k].link != l
    {
      j := j + 1;
    }
  }

  lemma NotInChain(chains: seq<seq<Dl>>, log: nat, content: map<nat, nat>, l: nat)
    requires InChains(chains, log) && Holds(chains, content)
    ensures l in content <==> exists j :: 0 <= j < |chains[Hash(l, log)]| && chains[Hash(l, log)][j].link == l
  {
    var i := Hash(l, log);
    if l in content {
      var k :| 0 <= k < |chains| && Dl(l, content[l]) in chains[k];
      var j :| 0 <= j < |chains[k]| && chains[k][j] == Dl(l, content[l]);
      assert Hash(chains[k][j].link, log) == k;
    }
    if j :| 0 <= j < |chains[i]| && chains[i][j].link == l { assert EntryIn(chains[i][j], content); }
  }

  /** One chain changes: what it now holds beside the others. */
  lemma ChainChange(chains: seq<seq<Dl>>, log: nat, content: map<nat, nat>, i: nat, chain: seq<Dl>, content': map<nat, nat>)
    requires InChains(chains, log) && Holds(chains, content) && i < |chains| && Apart(chain)
    requires forall j :: 0 <= j < |chain| ==> Hash(chain[j].link, log) == i && EntryIn(chain[j], content')
    requires forall l :: l in content' && Hash(l, log) == i ==> Dl(l, content'[l]) in chain
    requires forall l :: Hash(l, log) != i ==> (l in content <==> l in content') && (l in content ==> content'[l] == content[l])
    ensures InChains(chains[i := chain], log) && Holds(chains[i := chain], content')
  {
    var chains': seq<seq<Dl>> := chains[i := chain];
    forall k, j | 0 <= k < |chains'| && 0 <= j < |chains'[k]|
      ensures Hash(chains'[k][j].link, log) == k && EntryIn(chains'[k][j], content')
    {
      if k != i { assert EntryIn(chains[k][j], content) && Hash(chains[k][j].link, log) == k; }
    }
    forall l | l in content' ensures Found(chains', Dl(l, content'[l])) {
      if Hash(l, log) == i {
        assert Dl(l, content'[l]) in chains'[i];
      } else {
        var k :| 0 <= k < |chains| && Dl(l, content[l]) in chains[k];
        var j :| 0 <= j < |chains[k]| && chains[k][j] == Dl(l, content[l]);
        assert Hash(chains[k][j].link, log) == k;
        assert Dl(l, content'[l]) in chains'[k];
      }
    }
  }

  /** The links of the entries before the j-th one of chain i. */
  ghost function Visited(chains: seq<seq<Dl>>, i: nat, j: nat): set<nat> {
    set p, q | 0 <= p < |chains| && 0 <= q < |chains[p]| && (p < i || (p == i && q < j)) :: chains[p][q].link
  }

  lemma VisitedNext(chains: seq<seq<Dl>>, log: nat, i: nat, j: nat)
    requires InChains(chains, log) && i < |chains| && j < |chains[i]|
    ensures Visited(chains, i, j + 1) == Visited(chains, i, j) + {chains[i][j].link} && chains[i][j].link !in Visited(chains, i, j)
  {
    forall p, q | 0 <= p < |chains| && 0 <= q < |chains[p]| && (p < i || (p == i && q < j)) ensures chains[p][q].link != chains[i][j].link {
      assert Hash(chains[p][q].link, log) == p && Hash(chains[i][j].link, log) == i;
    }
  }

  lemma VisitedChain(chains: seq<seq<Dl>>, i: nat)
    ensures i < |chains| ==> Visited(chains, i, |chains[i]|) == Visited(chains, i + 1, 0)
    ensures Visited(chains, 0, 0) == {}
  {
  }

  lemma AllVisited(chains: seq<seq<Dl>>, log: nat, content: map<nat, nat>)
    requires InChains(chains, log) && Holds(chains, content)
    ensures Visited(chains, |chains|, 0) == content.Keys
  {
    forall l | l in content ensures l in Visited(chains, |chains|, 0) {
      var k :| 0 <= k < |chains| && Dl(l, content[l]) in chains[k];
      var j :| 0 <= j < |chains[k]| && chains[k][j] == Dl(l, content[l]);
      assert chains[k][j].link in Visited(chains, |chains|, 0);
    }
    forall p, q | 0 <= p < |chains| && 0 <= q < |chains[p]| ensures chains[p][q].link in content { assert EntryIn(chains[p][q], content); }
  }

  /** A new entry in front of its chain. */
  lemma Pushed(chains: seq<seq<Dl>>, log: nat, content: map<nat, nat>, e: Dl)
    requires InChains(chains, log) && Holds(chains, content) && e.link !in content
    ensures var i := Hash(e.link, log);
      InChains(chains[i := [e] + chains[i]], log) && Holds(chains[i := [e] + chains[i]], content[e.link := e.obj])
  {
    var i := Hash(e.link, log);
    var chain := [e] + chains[i];
    forall j | 0 <= j < |chain| ensures Hash(chain[j].link, log) == i && EntryIn(chain[j], content[e.link := e.obj]) {
      if j > 0 { assert chain[j] == chains[i][j - 1] && EntryIn(chains[i][j - 1], content); }
    }
    forall j, k | 0 <= j < |chain| && 0 <= k < |chain| && chain[j].link == chain[k].link ensures j == k {
      if j > 0 { assert EntryIn(chains[i][j - 1], content); }
      if k > 0 { assert EntryIn(chains[i][k - 1], content); }
    }
    forall l | l in content[e.link := e.obj] && Hash(l, log) == i ensures Dl(l, content[e.link := e.obj][l]) in chain {
      if l != e.link { InOwnChain(chains, log, content, l); }
    }
    ChainChange(chains, log, content, i, chain, content[e.link := e.obj]);
  }

  lemma InOwnChain(chains: seq<seq<Dl>>, log: nat, content: map<nat, nat>, l: nat)
    requires InChains(chains, log) && Holds(chains, content) && l in content
    ensures Dl(l, content[l]) in chains[Hash(l, log)]
  {
    var k :| 0 <= k < |chains| && Dl(l, content[l]) in chains[k];
    var j :| 0 <= j < |chains[k]| && chains[k][j] == Dl(l, content[l]);
    assert Hash(chains[k][j].link, log) == k;
  }

  function Cut(chain: seq<Dl>, j: nat): (r: seq<Dl>)
    requires j < |chain|
    ensures |r| == |chain| - 1 && forall k :: 0 <= k < |r| ==> r[k] == chain[if k < j then k else k + 1]
  {
    chain[..j] + chain[j + 1..]
  }

  /** An entry is taken out of its chain. */
  lemma CutOut(chains: seq<seq<Dl>>, log: nat, content: map<nat, nat>, i: nat, j: nat)
    requires InChains(chains, log) && Holds(chains, content) && i < |chains| && j < |chains[i]|
    ensures InChains(chains[i := Cut(chains[i], j)], log) && Holds(chains[i := Cut(chains[i], j)], content - {chains[i][j].link})
    ensures chains[i][j].link in content && content[chains[i][j].link] == chains[i][j].obj
  {
    var chain, content' := Cut(chains[i], j), content - {chains[i][j].link};
    assert EntryIn(chains[i][j], content);
    forall k | 0 <= k < |chain| ensures Hash(chain[k].link, log) == i && EntryIn(chain[k], content') {
      assert EntryIn(chains[i][if k < j then k else k + 1], content);
    }
    forall l | l in content' && Hash(l, log) == i ensures Dl(l, content'[l]) in chain {
      InOwnChain(chains, log, content, l);
      var k :| 0 <= k < |chains[i]| && chains[i][k] == Dl(l, content[l]);
      assert chain[if k < j then k else k - 1] == Dl(l, content[l]);
    }
    ChainChange(chains, log, content, i, chain, content');
  }

  /** The object of an entry is replaced. */
  lemma Replaced(chains: seq<seq<Dl>>, log: nat, content: map<nat, nat>, i: nat, j: nat, obj: nat)
    requires InChains(chains, log) && Holds(chains, content) && i < |chains| && j < |chains[i]|
    ensures var l := chains[i][j].link; var chain := chains[i][j := Dl(l, obj)];
      InChains(chains[i := chain], log) && Holds(chains[i := chain], content[l := obj]) && l in content
  {
    var l := chains[i][j].link;
    var chain := chains[i][j := Dl(l, obj)];
    var content' := content[l := obj];
    assert EntryIn(chains[i][j], content);
    forall k | 0 <= k < |chain| ensures Hash(chain[k].link, log) == i && EntryIn(chain[k], content') {
      assert EntryIn(chains[i][k], content);
    }
    assert Apart(chain) by {
      forall k, m | 0 <= k < |chain| && 0 <= m < |chain| && chain[k].link == chain[m].link ensures k == m {
        assert chains[i][k].link == chains[i][m].link;
      }
    }
    forall d | d in content' && Hash(d, log) == i ensures Dl(d, content'[d]) in chain {
      if d == l { assert chain[j] == Dl(l, obj); } else {
        InOwnChain(chains, log, content, d);
        var k :| 0 <= k < |chains[i]| && chains[i][k] == Dl(d, content[d]);
        assert chain[k] == Dl(d, content[d]);
      }
    }
    ChainChange(chains, log, content, i, chain, content');
  }

  lemma EmptyChains(log: nat)
    ensures InChains(seq(Pow2(log), _ => []), log) && Holds(seq(Pow2(log), _ => []), map[])
  {
  }

  lemma MapMinus(content: map<nat, nat>, l: nat)
    requires l in content
    ensures |content - {l}| == |content| - 1
  {
    assert (content - {l}).Keys == content.Keys - {l};
    assert |content| == |content.Keys| && |content - {l}| == |(content - {l}).Keys|;
  }

  lemma MapPlus(content: map<nat, nat>, l: nat, v: nat)
    ensures |content[l := v]| == |content| + if l in content then 0 else 1
  {
    assert content[l := v].Keys == content.Keys + {l};
    assert |content| == |content.Keys| && |content[l := v]| == |content[l := v].Keys|;
  }

  // ----- The table -----

  class DlTable {
    var chains: seq<seq<Dl>>       // head
    var logSize: int               // log_size, -1 before the first registration
    var entries: nat
    ghost var content: map<nat, nat>

    ghost predicate Valid()
      reads this
    {
      && logSize >= -1 && entries == |content|
      && if logSize == -1 then chains == [] && content == map[] else InChains(chains, logSize) && Holds(chains, content)
    }

    constructor ()
      ensures Valid() && content == map[]
    {
      chains, logSize, entries, content := [], -1, 0, map[];
    }

    /** GC_grow_table: twice as many chains; the entries are dealt out again. */
    method GrowTable(granted: bool) returns (ok: bool)
      requires Valid()
      modifies this`chains, this`logSize
      ensures Valid() && ok == granted && logSize == old(logSize) + if granted then 1 else 0
    {
      if !granted { return false; }
      hide Hash, Pow2, InChains, Holds;
      var log := logSize + 1;
      chains := DealOutAll(log);
      logSize := log;
      ok := true;
    }

    method DealOutAll(log: nat) returns (dealt: seq<seq<Dl>>)
      requires Valid()
      ensures InChains(dealt, log) && Holds(dealt, content)
    {
      hide Hash, Pow2, InChains, Holds, Valid;
      dealt := seq(Pow2(log), _ => []);
      ghost var moved: map<nat, nat> := map[];
      EmptyChains(log);
      VisitedChain(chains, 0);
      for i := 0 to |chains|
        invariant InChains(dealt, log) && Holds(dealt, moved) && moved.Keys == Visited(chains, i, 0)
        invariant forall l :: l in moved ==> l in content && moved[l] == content[l]
      {
        dealt, moved := DealOut(i, dealt, log, moved);
      }
      AllMoved();
      assert moved == content;
    }

    lemma AllMoved()
      requires Valid()
      ensures Visited(chains, |chains|, 0) == content.Keys
    {
      if logSize >= 0 { AllVisited(chains, logSize, content); } else { VisitedChain(chains, 0); }
    }

    /** GC_grow_table: the entries of chain i go to their new chains. */
    method DealOut(i: nat, chains0: seq<seq<Dl>>, log: nat, ghost moved0: map<nat, nat>) returns (dealt: seq<seq<Dl>>, ghost moved: map<nat, nat>)
      requires Valid() && i < |chains| && InChains(chains0, log) && Holds(chains0, moved0) && moved0.Keys == Visited(chains, i, 0)
      requires forall l :: l in moved0 ==> l in content && moved0[l] == content[l]
      ensures InChains(dealt, log) && Holds(dealt, moved) && moved.Keys == Visited(chains, i + 1, 0)
      ensures forall l :: l in moved ==> l in content && moved[l] == content[l]
    {
      hide Hash, Pow2, InChains, Holds;
      dealt, moved := chains0, moved0;
      for j := 0 to |chains[i]|
        invariant InChains(dealt, log) && Holds(dealt, moved) && moved.Keys == Visited(chains, i, j)
        invariant forall l :: l in moved ==> l in content && moved[l] == content[l]
      {
        var e := chains[i][j];
        VisitedNext(chains, logSize, i, j);
        HeldEntry(chains, content, i, j);
        Pushed(dealt, log, moved, e);
        ChainCount(dealt, log);
        dealt := dealt[Hash(e.link, log) := [e] + dealt[Hash(e.link, log)]];
        moved := moved[e.link := e.obj];
      }
      VisitedChain(chains, i);
    }

    /** GC_register_disappearing_link_inner; the grants say whether memory can be had. */
    method Register(link: nat, obj: nat, growGranted: bool, granted: bool) returns (a: Answer)
      requires Valid()
      modifies this
      ensures Valid() && (a == Abort <==> old(logSize) == -1 && !growGranted)
      ensures a == Duplicate <==> link in old(content)
      ensures a == Success || a == Duplicate ==> content == old(content)[link := obj]
      ensures a == NoMemory || a == Abort ==> content == old(content) && link !in content && !(growGranted && granted)
      ensures a == NoMemory <==> a != Abort && link !in old(content) && !granted
      ensures logSize == old(logSize) + if growGranted && (old(logSize) == -1 || |old(content)| > Pow2(old(logSize))) then 1 else 0
    {
      hide Hash, Pow2, InChains, Holds;
      if logSize == -1 || entries > Pow2(logSize) {
        var ok := GrowTable(growGranted);
        if !ok && logSize == -1 { return Abort; }
      }
      ChainCount(chains, logSize);
      NotInChain(chains, logSize, content, link);
      var index := Hash(link, logSize);
      var j := FindIn(chains[index], link);
      MapPlus(content, link, obj);
      if j < |chains[index]| {
        Replaced(chains, logSize, content, index, j, obj);
        chains := chains[index := chains[index][j := Dl(link, obj)]];
        content := content[link := obj];
        return Duplicate;
      }
      if !granted { return NoMemory; }
      Pushed(chains, logSize, content, Dl(link, obj));
      chains := chains[index := [Dl(link, obj)] + chains[index]];
      entries := entries + 1;
      content := content[link := obj];
      return Success;
    }

    /** GC_unregister_disappearing_link_inner, once anything has been registered. */
    method Unregister(link: nat) returns (found: bool)
      requires Valid() && logSize >= 0
      modifies this`chains, this`entries, this`content
      ensures Valid() && (found <==> link in old(content)) && content == old(content) - {link}
    {
      hide Hash, Pow2, InChains, Holds;
      ChainCount(chains, logSize);
      NotInChain(chains, logSize, content, link);
      var index := Hash(link, logSize);
      var j := FindIn(chains[index], link);
      found := j < |chains[index]|;
      if found { Remove(index, j); }
      assert !found ==> content == content - {link};
    }

    /** Take the j-th entry out of chain i. */
    method Remove(i: nat, j: nat)
      requires Valid() && logSize >= 0 && i < |chains| && j < |chains[i]|
      modifies this`chains, this`entries, this`content
      ensures Valid() && |chains| == old(|chains|) && chains[i] == Cut(old(chains)[i], j)
      ensures forall k :: 0 <= k < |chains| && k != i ==> chains[k] == old(chains)[k]
      ensures content == old(content) - {old(chains)[i][j].link}
      ensures EntryIn(old(chains)[i][j], old(content))
    {
      hide Hash, Pow2, InChains, Holds;
      CutOut(chains, logSize, content, i, j);
      MapMinus(content, chains[i][j].link);
      content := content - {chains[i][j].link};
      chains := chains[i := Cut(chains[i], j)];
      entries := entries - 1;
    }

    /** GC_move_disappearing_link_inner, once anything has been registered. */
    method Move(link: nat, newLink: nat) returns (a: Answer)
      requires Valid() && logSize >= 0
      modifies this`chains, this`entries, this`content
      ensures Valid() && (a == NotFound <==> link !in old(content))
      ensures a == Duplicate <==> link in old(content) && link != newLink && newLink in old(content)
      ensures a == Success || a == NotFound || a == Duplicate
      ensures a == Success ==> content == (old(content) - {link})[newLink := old(content)[link]]
      ensures a != Success ==> content == old(content)
    {
      hide Hash, Pow2, InChains, Holds;
      ChainCount(chains, logSize);
      NotInChain(chains, logSize, content, link);
      NotInChain(chains, logSize, content, newLink);
      var index := Hash(link, logSize);
      var j := FindIn(chains[index], link);
      if j == |chains[index]| { return NotFound; }
      HeldEntry(chains, content, index, j);
      var obj := chains[index][j].obj;
      if link == newLink {
        assert content == (content - {link})[newLink := content[link]];
        return Success;
      }
      var newIndex := Hash(newLink, logSize);
      var k := FindIn(chains[newIndex], newLink);
      if k < |chains[newIndex]| { return Duplicate; }
      Remove(index, j);
      MapPlus(content, newLink, obj);
      Pushed(chains, logSize, content, Dl(newLink, obj));
      chains := chains[newIndex := [Dl(newLink, obj)] + chains[newIndex]];
      entries := entries + 1;
      content := content[newLink := obj];
      return Success;
    }

    // ----- Sweeps -----

    /** Delete the dead entries of chain i, perhaps clearing their links. */
    method SweepChain(i: nat, dead: Dl -> bool, clear: bool, memory: map<nat, nat>) returns (memory': map<nat, nat>)
      requires Valid() && logSize >= 0 && i < |chains|
      modifies this`chains, this`entries, this`content
      ensures Valid() && |chains| == old(|chains|) && forall k :: 0 <= k < |chains| && k != i ==> chains[k] == old(chains)[k]
      ensures forall j :: 0 <= j < |chains[i]| ==> !dead(chains[i][j])
      ensures OnlyDead(dead, old(content), content) && memory' == Cleared(memory, old(content), content, clear)
    {
      hide InChains, Holds;
      var j := 0;
      memory' := memory;
      assert Cleared(memory, content, content, clear) == memory;
      while j < |chains[i]|
        invariant Valid() && logSize >= 0 && |chains| == old(|chains|) && forall k :: 0 <= k < |chains| && k != i ==> chains[k] == old(chains)[k]
        invariant j <= |chains[i]| && forall k :: 0 <= k < j ==> !dead(chains[i][k])
        invariant OnlyDead(dead, old(content), content) && memory' == Cleared(memory, old(content), content, clear)
        decreases |chains[i]| - j
      {
        var e := chains[i][j];
        if dead(e) {
          ghost var before := content;
          Remove(i, j);
          if clear { memory' := memory'[e.link := 0]; }
          ClearedStep(memory, old(content), before, e, clear);
        } else {
          j := j + 1;
        }
      }
    }

    method Sweep(dead: Dl -> bool, clear: bool, memory: map<nat, nat>) returns (memory': map<nat, nat>)
      requires Valid()
      modifies this`chains, this`entries, this`content
      ensures Valid() && content == Alive(dead, old(content)) && memory' == Cleared(memory, old(content), content, clear)
    {
      hide InChains, Holds;
      memory' := memory;
      assert Cleared(memory, content, content, clear) == memory;
      if logSize == -1 { return; }
      for i := 0 to |chains|
        invariant Valid() && logSize >= 0 && |chains| == old(|chains|)
        invariant forall k, j :: 0 <= k < i && 0 <= j < |chains[k]| ==> !dead(chains[k][j])
        invariant OnlyDead(dead, old(content), content) && memory' == Cleared(memory, old(content), content, clear)
      {
        ghost var before := content;
        var m := memory';
        memory' := SweepChain(i, dead, clear, m);
        ClearedTwice(memory, old(content), before, content, clear);
      }
      AllAlive(chains, content, dead);
      assert content == Alive(dead, old(content));
    }

    /** GC_make_disappearing_links_disappear: the links whose objects are not marked are cleared and forgotten. */
    method MakeDisappear(marked: set<nat>, memory: map<nat, nat>) returns (memory': map<nat, nat>)
      requires Valid()
      modifies this`chains, this`entries, this`content
      ensures Valid() && content == map l | l in old(content) && old(content)[l] in marked :: old(content)[l]
      ensures memory' == memory + map l | l in old(content) && old(content)[l] !in marked :: 0
    {
      hide InChains, Holds;
      AliveMarked(memory, content, marked);
      memory' := Sweep((e: Dl) => e.obj !in marked, true, memory);
    }

    /** GC_remove_dangling_disappearing_links: links inside objects that are not marked are forgotten. */
    method RemoveDangling(baseOf: map<nat, nat>, marked: set<nat>)
      requires Valid()
      modifies this`chains, this`entries, this`content
      ensures Valid() && content == map l | l in old(content) && (l in baseOf ==> baseOf[l] in marked) :: old(content)[l]
    {
      var m := Sweep((e: Dl) => e.link in baseOf && baseOf[e.link] !in marked, false, map[]);
    }
  }

  ghost predicate OnlyDead(dead: Dl -> bool, before: map<nat, nat>, after: map<nat, nat>) {
    && (forall l :: l in after ==> l in before && after[l] == before[l])
    && forall l :: l in before && l !in after ==> dead(Dl(l, before[l]))
  }

  ghost function Alive(dead: Dl -> bool, content: map<nat, nat>): map<nat, nat> {
    map l | l in content && !dead(Dl(l, content[l])) :: content[l]
  }

  ghost function Cleared(memory: map<nat, nat>, before: map<nat, nat>, after: map<nat, nat>, clear: bool): map<nat, nat> {
    if clear then memory + map l | l in before && l !in after :: 0 else memory
  }

  lemma AliveMarked(memory: map<nat, nat>, content: map<nat, nat>, marked: set<nat>)
    ensures var alive := map l | l in content && content[l] in marked :: content[l];
      && Alive((e: Dl) => e.obj !in marked, content) == alive
      && Cleared(memory, content, alive, true) == memory + map l | l in content && content[l] !in marked :: 0
  {
    var alive := map l | l in content && content[l] in marked :: content[l];
    assert forall l :: l in content ==> (l !in alive <==> content[l] !in marked);
  }

  lemma ClearedStep(memory: map<nat, nat>, before: map<nat, nat>, now: map<nat, nat>, e: Dl, clear: bool)
    requires e.link in before && forall l :: l in now ==> l in before
    ensures Cleared(memory, before, now - {e.link}, clear) ==
      if clear then Cleared(memory, before, now, clear)[e.link := 0] else Cleared(memory, before, now, clear)
  {
  }

  lemma ClearedTwice(memory: map<nat, nat>, before: map<nat, nat>, now: map<nat, nat>, after: map<nat, nat>, clear: bool)
    requires (forall l :: l in now ==> l in before) && forall l :: l in after ==> l in now
    ensures Cleared(Cleared(memory, before, now, clear), now, after, clear) == Cleared(memory, before, after, clear)
  {
  }

  lemma AllAlive(chains: seq<seq<Dl>>, content: map<nat, nat>, dead: Dl -> bool)
    requires Holds(chains, content) && forall k, j :: 0 <= k < |chains| && 0 <= j < |chains[k]| ==> !dead(chains[k][j])
    ensures forall l :: l in content ==> !dead(Dl(l, content[l]))
  {
    forall l | l in content ensures !dead(Dl(l, content[l])) {
      var k :| 0 <= k < |chains| && Dl(l, content[l]) in chains[k];
      var j :| 0 <= j < |chains[k]| && chains[k][j] == Dl(l, content[l]);
    }
  }

  lemma HeldEntry(chains: seq<seq<Dl>>, content: map<nat, nat>, i: nat, j: nat)
    requires (chains == [] || Holds(chains, content)) && i < |chains| && j < |chains[i]|
    ensures EntryIn(chains[i][j], content)
  {
  }

  lemma ChainCount(chains: seq<seq<Dl>>, log: nat)
    requires InChains(chains, log)
    ensures |chains| == Pow2(log)
  {
  }
}

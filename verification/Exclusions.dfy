/** The ordered table of address ranges that are excluded from the static roots. */
module Exclusions {

  datatype Range = Range(start: nat, end: nat)

  /** What registering a range comes to. */
  datatype Outcome = Done | Overlap | TooMany

  predicate In(r: Range, a: nat) {
    r.start <= a < r.end
  }

  /** Ascending, disjoint, and no range is empty. */
  ghost predicate Ordered(table: seq<Range>) {
    && (forall i :: 0 <= i < |table| ==> table[i].start < table[i].end)
    && forall i, j :: 0 <= i < j < |table| ==> table[i].end <= table[j].start
  }

  ghost predicate Covered(table: seq<Range>, a: nat) {
    exists i :: 0 <= i < |table| && In(table[i], a)
  }

  class ExclusionTable {
    const max: nat               // MAX_EXCLUSIONS
    var table: seq<Range>        // the entries in use of GC_excl_table

    ghost predicate Valid()
      reads this
    {
      Ordered(table) && |table| <= max
    }

    constructor (max: nat)
      ensures Valid() && table == [] && this.max == max
    {
      this.max, table := max, [];
    }

    /** GC_next_exclusion: the first range that includes an address not below a. */
    method NextExclusion(a: nat) returns (next: nat)
      requires Valid() && table != []
      ensures next <= |table| && (forall i :: 0 <= i < next ==> table[i].end <= a)
      ensures forall i :: next <= i < |table| ==> table[i].end > a
    {
      var low, high := 0, |table| - 1;
      while high > low
        invariant 0 <= low <= high < |table|
        invariant forall i :: 0 <= i < low ==> table[i].end <= a
        invariant forall i :: high < i < |table| ==> table[i].end > a
        invariant high < |table| - 1 ==> table[high].end > a
      {
        var mid := (low + high) / 2;
        if table[mid].end <= a {
          low := mid + 1;
        } else {
          high := mid;
        }
      }
      next := if table[low].end <= a then |table| else low;
    }

    /** GC_exclude_static_roots_inner. */
    method Exclude(start: nat, finish: nat) returns (o: Outcome)
      requires Valid() && start < finish
      modifies this`table
      ensures Valid() && (o != Done ==> table == old(table))
      ensures o == Overlap <==> exists a: nat :: start <= a < finish && Covered(old(table), a)
      ensures o == TooMany <==> o != Overlap && |old(table)| == max && !exists i :: 0 <= i < |old(table)| && old(table)[i].start == finish
      ensures o == Done ==> forall a: nat :: Covered(table, a) <==> Covered(old(table), a) || start <= a < finish
    {
      var next := |table|;
      if table != [] {
        next := NextExclusion(start);
      }
      if next < |table| {
        if table[next].start < finish {
          var a := if table[next].start < start then start else table[next].start;
          assert In(table[next], a) && Covered(table, a);
          return Overlap;
        }
        if table[next].start == finish {
          Extended(table, next, start);
          table := table[next := Range(start, table[next].end)];
          return Done;
        }
      }
      NothingBetween(table, next, start, finish);
      if |table| == max { return TooMany; }
      Inserted(table, next, start, finish);
      table := With(table, next, Range(start, finish));
      return Done;
    }

    /** GC_push_conditional_with_exclusions: the ranges that are pushed. */
    method PushWithExclusions(bottom0: nat, top: nat) returns (pushed: seq<Range>)
      requires Valid() && table != []
      ensures Ordered(pushed)
      ensures forall a: nat :: Covered(pushed, a) <==> bottom0 <= a < top && !Covered(table, a)
    {
      var bottom := bottom0;
      pushed := [];
      while bottom < top
        invariant bottom >= bottom0 && Ordered(pushed) && (bottom > bottom0 ==> exists i :: 0 <= i < |table| && table[i].end == bottom)
        invariant forall i :: 0 <= i < |pushed| ==> pushed[i].end <= bottom
        invariant forall a: nat :: Covered(pushed, a) <==> bottom0 <= a < top && a < bottom && !Covered(table, a)
        decreases top - bottom
      {
        var next := NextExclusion(bottom);
        if next == |table| || table[next].start >= top {
          Appended(table, pushed, bottom, top, next);
          pushed := pushed + [Range(bottom, top)];
          return;
        }
        if table[next].start > bottom {
          Appended(table, pushed, bottom, table[next].start, next);
          pushed := pushed + [Range(bottom, table[next].start)];
        }
        Skipped(table, bottom, next);
        bottom := table[next].end;
      }
    }
  }

  /** Between the ranges before `next`, which end by `start`, and `next`, which starts
      at `finish` or later, nothing is covered. */
  lemma NothingBetween(table: seq<Range>, next: nat, start: nat, finish: nat)
    requires Ordered(table) && next <= |table| && forall i :: 0 <= i < next ==> table[i].end <= start
    requires next < |table| ==> table[next].start >= finish
    ensures forall a: nat :: start <= a < finish ==> !Covered(table, a)
  {
    forall i, a | 0 <= i < |table| && start <= a < finish ensures !In(table[i], a) {
      if i > next { assert table[next].end <= table[i].start; }
    }
  }

  function With(table: seq<Range>, next: nat, r: Range): (t: seq<Range>)
    requires next <= |table|
    ensures |t| == |table| + 1
    ensures forall i :: 0 <= i < |t| ==> t[i] == if i < next then table[i] else if i == next then r else table[i - 1]
  {
    table[..next] + [r] + table[next..]
  }

  lemma WithCovers(table: seq<Range>, next: nat, r: Range, a: nat)
    requires next <= |table|
    ensures Covered(With(table, next, r), a) <==> Covered(table, a) || In(r, a)
  {
    var t := With(table, next, r);
    if Covered(table, a) {
      var i :| 0 <= i < |table| && In(table[i], a);
      assert In(t[if i < next then i else i + 1], a);
    }
    if In(r, a) { assert In(t[next], a); }
    if Covered(t, a) {
      var i :| 0 <= i < |t| && In(t[i], a);
      if i != next { assert In(table[if i < next then i else i - 1], a); }
    }
  }

  lemma Inserted(table: seq<Range>, next: nat, start: nat, finish: nat)
    requires Ordered(table) && next <= |table| && start < finish && forall i :: 0 <= i < next ==> table[i].end <= start
    requires next < |table| ==> table[next].start >= finish
    ensures Ordered(With(table, next, Range(start, finish)))
    ensures forall a: nat :: Covered(With(table, next, Range(start, finish)), a) <==> Covered(table, a) || start <= a < finish
  {
    forall a: nat ensures Covered(With(table, next, Range(start, finish)), a) <==> Covered(table, a) || start <= a < finish {
      WithCovers(table, next, Range(start, finish), a);
    }
    InsertedOrder(table, next, Range(start, finish));
  }

  lemma InsertedOrder(table: seq<Range>, next: nat, r: Range)
    requires Ordered(table) && next <= |table| && r.start < r.end && forall i :: 0 <= i < next ==> table[i].end <= r.start
    requires next < |table| ==> table[next].start >= r.end
    ensures Ordered(With(table, next, r))
  {
    assert forall i :: next < i < |table| ==> table[next].end <= table[i].start;
  }

  lemma Extended(table: seq<Range>, next: nat, start: nat)
    requires Ordered(table) && next < |table| && start < table[next].start && forall i :: 0 <= i < next ==> table[i].end <= start
    ensures var t := table[next := Range(start, table[next].end)];
      Ordered(t) && forall a: nat :: Covered(t, a) <==> Covered(table, a) || start <= a < table[next].start
    ensures forall a: nat :: start <= a < table[next].start ==> !Covered(table, a)
  {
    var t := table[next := Range(start, table[next].end)];
    NothingBetween(table, next, start, table[next].start);
    forall a: nat ensures Covered(t, a) <==> Covered(table, a) || start <= a < table[next].start {
      if Covered(table, a) {
        var i :| 0 <= i < |table| && In(table[i], a);
        assert In(t[i], a);
      }
      if start <= a < table[next].start { assert In(t[next], a); }
      if Covered(t, a) {
        var i :| 0 <= i < |t| && In(t[i], a);
        if i != next || a >= table[next].start { assert In(table[i], a); }
      }
    }
  }

  /** A range up to the next exclusion, or to the top, is pushed. */
  lemma Appended(table: seq<Range>, pushed: seq<Range>, bottom: nat, end: nat, next: nat)
    requires Ordered(table) && Ordered(pushed) && bottom < end && next <= |table|
    requires forall i :: 0 <= i < next ==> table[i].end <= bottom
    requires next < |table| ==> table[next].start >= end
    requires forall i :: 0 <= i < |pushed| ==> pushed[i].end <= bottom
    ensures Ordered(pushed + [Range(bottom, end)])
    ensures forall a: nat :: Covered(pushed + [Range(bottom, end)], a) <==> Covered(pushed, a) || bottom <= a < end
    ensures forall a: nat :: bottom <= a < end ==> !Covered(table, a)
  {
    NothingBetween(table, next, bottom, end);
    assert With(pushed, |pushed|, Range(bottom, end)) == pushed + [Range(bottom, end)];
    forall a: nat ensures Covered(pushed + [Range(bottom, end)], a) <==> Covered(pushed, a) || bottom <= a < end {
      WithCovers(pushed, |pushed|, Range(bottom, end), a);
    }
  }

  lemma Skipped(table: seq<Range>, bottom: nat, next: nat)
    requires Ordered(table) && next < |table|
    ensures forall a: nat :: table[next].start <= a < table[next].end ==> Covered(table, a)
  {
    forall a: nat | table[next].start <= a < table[next].end ensures Covered(table, a) { assert In(table[next], a); }
  }
}

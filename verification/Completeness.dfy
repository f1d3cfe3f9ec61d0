/**
 When is a lazily restored image complete? The bitmap counts the pages that were materialised on
 demand; pages of the checkpoint base that no newer segment claims are counted by a k-way merge.
 */
module Completeness {
  import opened Prelude
  import opened PageBitmap

  /** One task per segment with a known page set; page sets are strictly increasing. */
  ghost predicate Sorted(tasks: seq<seq<nat>>) {
    forall t :: 0 <= t < |tasks| ==> StrictlyIncreasing(tasks[t])
  }

  ghost predicate Claimed(tasks: seq<seq<nat>>, p: nat) {
    exists t :: 0 <= t < |tasks| && p in tasks[t]
  }

  ghost function ClaimedUpTo(tasks: seq<seq<nat>>, limit: int): set<nat> {
    set p: nat | 1 <= p <= limit && Claimed(tasks, p)
  }

  ghost function Unclaimed(tasks: seq<seq<nat>>, limit: nat): set<nat> {
    set p: nat | 1 <= p <= limit && !Claimed(tasks, p)
  }

  /** Task t has emitted exactly its pages up to a bound. */
  ghost predicate CutAt(pages: seq<nat>, cursor: nat, bound: int) {
    && cursor <= |pages|
    && (forall i :: 0 <= i < cursor ==> pages[i] <= bound)
    && (forall i :: cursor <= i < |pages| ==> pages[i] > bound)
  }

  ghost predicate Cut(tasks: seq<seq<nat>>, cursors: seq<nat>, bound: int) {
    |cursors| == |tasks| && forall t :: 0 <= t < |tasks| ==> CutAt(tasks[t], cursors[t], bound)
  }

  /** The smallest page not yet emitted. */
  method Smallest(tasks: seq<seq<nat>>, cursor: array<nat>, ghost bound: int) returns (best: Option<nat>)
    requires Sorted(tasks) && Cut(tasks, cursor[..], bound)
    ensures best.None? ==> forall p: nat :: p > bound ==> !Claimed(tasks, p)
    ensures best.Some? ==> best.value > bound && Claimed(tasks, best.value)
    ensures best.Some? ==> forall p: nat :: bound < p < best.value ==> !Claimed(tasks, p)
  {
    best := None;
    var t := 0;
    while t < |tasks|
      invariant 0 <= t <= |tasks|
      invariant best.Some? ==> best.value > bound && Claimed(tasks, best.value)
      invariant forall u, p :: 0 <= u < t && p in tasks[u] && p > bound ==> best.Some? && best.value <= p
    {
      assert CutAt(tasks[t], cursor[t], bound);
      if cursor[t] < |tasks[t]| {
        var v := tasks[t][cursor[t]];
        assert v in tasks[t];
        forall p | p in tasks[t] && p > bound ensures v <= p {
          var i :| 0 <= i < |tasks[t]| && tasks[t][i] == p;
        }
        if best.None? || v < best.value {
          best := Some(v);
        }
      }
      t := t + 1;
    }
  }

  /** Move every cursor past a page. */
  method Advance(tasks: seq<seq<nat>>, cursor: array<nat>, ghost bound: int, best: nat)
    requires Sorted(tasks) && Cut(tasks, cursor[..], bound) && best > bound
    requires forall p: nat :: bound < p < best ==> !Claimed(tasks, p)
    modifies cursor
    ensures Cut(tasks, cursor[..], best)
  {
    var t := 0;
    while t < |tasks|
      invariant 0 <= t <= |tasks|
      invariant forall u :: 0 <= u < t ==> CutAt(tasks[u], cursor[u], best)
      invariant forall u :: t <= u < |tasks| ==> CutAt(tasks[u], cursor[u], bound)
    {
      NextCut(tasks, t, cursor[t], bound, best);
      if cursor[t] < |tasks[t]| && tasks[t][cursor[t]] == best {
        cursor[t] := cursor[t] + 1;
      }
      t := t + 1;
    }
  }

  lemma NextCut(tasks: seq<seq<nat>>, t: nat, cursor: nat, bound: int, best: nat)
    requires t < |tasks| && StrictlyIncreasing(tasks[t]) && CutAt(tasks[t], cursor, bound) && best > bound
    requires forall p: nat :: bound < p < best ==> !Claimed(tasks, p)
    ensures CutAt(tasks[t], if cursor < |tasks[t]| && tasks[t][cursor] == best then cursor + 1 else cursor, best)
  {
    if cursor < |tasks[t]| {
      assert tasks[t][cursor] in tasks[t];
      assert Claimed(tasks, tasks[t][cursor]);
    }
  }

  /** Count the pages up to a limit that no task claims. */
  method CountUnclaimed(tasks: seq<seq<nat>>, limit: nat) returns (unclaimed: nat)
    requires Sorted(tasks)
    ensures unclaimed == |Unclaimed(tasks, limit)|
  {
    ghost var bound := -1;
    var claimed: nat, previous: nat := 0, 0;
    var cursor := new nat[|tasks|](_ => 0);
    while true
      invariant -1 <= bound <= limit && Cut(tasks, cursor[..], bound)
      invariant claimed == |ClaimedUpTo(tasks, bound)| && previous <= bound + 1 && (bound >= 0 ==> previous == bound)
      decreases limit - bound
    {
      var best := Smallest(tasks, cursor, bound);
      if best.None? || best.value > limit {
        assert ClaimedUpTo(tasks, limit) == ClaimedUpTo(tasks, bound);
        break;
      }
      OneMore(tasks, bound, best.value);
      if best.value > previous {
        claimed := claimed + 1;
        previous := best.value;
      }
      Advance(tasks, cursor, bound, best.value);
      bound := best.value;
    }
    Split(tasks, limit);
    unclaimed := limit - claimed;
  }

  lemma OneMore(tasks: seq<seq<nat>>, bound: int, best: nat)
    requires -1 <= bound < best && Claimed(tasks, best)
    requires forall p: nat :: bound < p < best ==> !Claimed(tasks, p)
    ensures |ClaimedUpTo(tasks, best)| == |ClaimedUpTo(tasks, bound)| + (if best > 0 then 1 else 0)
  {
    assert ClaimedUpTo(tasks, best) == ClaimedUpTo(tasks, bound) + (if best > 0 then {best} else {});
  }

  lemma Split(tasks: seq<seq<nat>>, limit: nat)
    ensures |Unclaimed(tasks, limit)| == limit - |ClaimedUpTo(tasks, limit)|
  {
    assert UpTo(limit) == Unclaimed(tasks, limit) + ClaimedUpTo(tasks, limit);
    assert Unclaimed(tasks, limit) !! ClaimedUpTo(tasks, limit);
  }

  // ---- what completeness means ----

  /** Pages the checkpoint base holds in their newest state. */
  ghost function BasePages(tasks: seq<seq<nat>>, covered: nat, pages: nat): set<nat> {
    Unclaimed(tasks, if covered < pages then covered else pages)
  }

  /** Every page is materialised, on demand or by the base. */
  ghost predicate Complete(marked: set<nat>, base: set<nat>, pages: nat) {
    forall p :: 1 <= p <= pages ==> p in marked || p in base
  }

  /** The test the restore makes. */
  predicate IsComplete(marked: nat, baseComplete: nat, pages: nat) {
    marked + baseComplete >= pages
  }

  ghost predicate Within(s: set<nat>, pages: nat) {
    forall p :: p in s ==> 1 <= p <= pages
  }

  lemma Counted(marked: set<nat>, base: set<nat>, pages: nat)
    requires Within(marked, pages) && Within(base, pages)
    ensures |marked + base| == |marked| + |base| - |marked * base|
    ensures |marked + base| <= pages
    ensures Complete(marked, base, pages) <==> |marked + base| == pages
  {
    var all := UpTo(pages);
    assert marked + base <= all;
    Fits(marked + base, all);
    if Complete(marked, base, pages) {
      assert marked + base == all;
    }
    if |marked + base| == pages {
      forall p | 1 <= p <= pages ensures p in marked || p in base {
        assert p in marked + base;
      }
    }
  }

  lemma {:induction false} Fits(small: set<nat>, large: set<nat>)
    requires small <= large
    ensures |small| <= |large|
    ensures |small| == |large| ==> small == large
  {
    assert large == small + (large - small);
    assert |large| == |small| + |large - small|;
  }

  /** The test is right about a set of marked pages. */
  ghost predicate Judges(marked: set<nat>, base: set<nat>, pages: nat) {
    IsComplete(|marked|, |base|, pages) <==> Complete(marked, base, pages)
  }

  /** The test never misses a complete image, and is right while no base page was marked on demand. */
  lemma CompletenessSound(marked: set<nat>, base: set<nat>, pages: nat)
    requires Within(marked, pages) && Within(base, pages)
    ensures Complete(marked, base, pages) ==> IsComplete(|marked|, |base|, pages)
    ensures marked * base == {} ==> Judges(marked, base, pages)
  {
    Counted(marked, base, pages);
  }

  /** The test is right about every image exactly when the base holds no page or all of them. */
  lemma CompletenessExact(base: set<nat>, pages: nat)
    requires Within(base, pages)
    ensures (forall marked :: Within(marked, pages) ==> Judges(marked, base, pages)) <==>
      base == {} || base == UpTo(pages)
  {
    if base == {} || base == UpTo(pages) {
      forall marked | Within(marked, pages) ensures Judges(marked, base, pages) {
        Counted(marked, base, pages);
        CompletenessSound(marked, base, pages);
      }
    } else {
      var b :| b in base;
      assert exists q :: q in UpTo(pages) && q !in base;
      var q :| q in UpTo(pages) && q !in base;
      OneForAnother(base, pages, b, q);
    }
  }

  /** A page of the base was read instead of another page: as many pages, but not all. */
  lemma OneForAnother(base: set<nat>, pages: nat, b: nat, q: nat)
    requires Within(base, pages) && b in base && q in UpTo(pages) && q !in base
    ensures var marked := UpTo(pages) - base - {q} + {b}; Within(marked, pages) && !Judges(marked, base, pages)
  {
    var marked := UpTo(pages) - base - {q} + {b};
    Fits(base, UpTo(pages));
    assert base + (UpTo(pages) - base) == UpTo(pages);
    assert |marked| == pages - |base|;
  }

  /** Without a checkpoint base the test is exact: every page is set. */
  lemma CompleteWithoutBase(marked: set<nat>, tasks: seq<seq<nat>>, pages: nat)
    requires Within(marked, pages)
    ensures IsComplete(|marked|, |BasePages(tasks, 0, pages)|, pages) <==> marked == UpTo(pages)
  {
    assert BasePages(tasks, 0, pages) == {};
    Counted(marked, {}, pages);
    assert marked + {} == marked;
    Fits(marked, UpTo(pages));
  }

  /** Two pages, the first in the base, the second claimed by a segment: reading the first one is enough. */
  lemma CompletenessMisjudges()
    ensures var base := BasePages([[2]], 1, 2);
      && base == {1}
      && IsComplete(|{1}|, |base|, 2) && !Complete({1}, base, 2)
  {
    var base := BasePages([[2]], 1, 2);
    assert forall p: nat :: p in [2] <==> p == 2;
    assert !Claimed([[2]], 1);
    assert base == {1};
    assert 2 !in base;
  }
}

/**
 Telling a stale writer whether the commits that overtook it touch its pages.
 */
module ConflictDetection {
  import opened Prelude
  import opened CommitChain
  import opened PublishProtocol
  import opened ResolveCommit

  // ---- two sorted page lists ----

  /** Merge-compares two sorted page lists for a common page. */
  method SortedAnyIntersect(a: seq<nat>, b: seq<nat>) returns (common: bool)
    requires StrictlyIncreasing(a) && StrictlyIncreasing(b)
    ensures common <==> exists p :: p in a && p in b
  {
    var i, j := 0, 0;
    while i < |a| && j < |b|
      invariant 0 <= i <= |a| && 0 <= j <= |b|
      invariant forall x, y :: 0 <= x < |a| && 0 <= y < |b| && (x < i || y < j) ==> a[x] != b[y]
      decreases |a| - i + |b| - j
    {
      if a[i] < b[j] {
        i := i + 1;
      } else if b[j] < a[i] {
        j := j + 1;
      } else {
        assert a[i] in a && a[i] in b;
        return true;
      }
    }
    return false;
  }

  /** The pages of a request, and whether it declares all of them. */
  predicate PagesKnown(r: Request) {
    forall i :: 0 <= i < |r.segments| ==> r.segments[i].pages.Some?
  }

  ghost predicate SharesPage(r: Request, ref: SegmentRef)
    requires PagesKnown(r)
  {
    exists i, p :: 0 <= i < |r.segments| && p in r.segments[i].pages.value && p in ref.pages
  }

  /** A commit overlaps a request if it may touch one of its pages; an undeclared page set may touch any. */
  ghost predicate Overlaps(r: Request, m: Manifest)
    requires PagesKnown(r)
  {
    exists k :: 0 <= k < |m.segments| && (m.segments[k].pages == [] || SharesPage(r, m.segments[k]))
  }

  method RequestOverlaps(r: Request, m: Manifest) returns (overlap: bool)
    requires PagesKnown(r) && WellFormed(r)
    ensures overlap <==> Overlaps(r, m)
  {
    for k := 0 to |m.segments|
      invariant forall x :: 0 <= x < k ==> m.segments[x].pages != [] && !SharesPage(r, m.segments[x])
    {
      if m.segments[k].pages == [] {
        return true;
      }
      for i := 0 to |r.segments|
        invariant forall x, p :: 0 <= x < i && p in r.segments[x].pages.value ==> p !in m.segments[k].pages
      {
        var hit := SortedAnyIntersect(r.segments[i].pages.value, m.segments[k].pages);
        if hit {
          assert SharesPage(r, m.segments[k]);
          return true;
        }
      }
    }
    return false;
  }

  // ---- the walk ----

  /** Some commit above the parent's generation, among the first n of the chain, may touch the request's pages. */
  ghost predicate OverlapsFirst(r: Request, chain: seq<Manifest>, n: nat)
    requires PagesKnown(r)
  {
    exists i :: 0 <= i < n && i < |chain| && Overlaps(r, chain[i])
  }

  lemma OverlapsNext(r: Request, chain: seq<Manifest>, n: nat)
    requires PagesKnown(r) && n < |chain|
    ensures OverlapsFirst(r, chain, n + 1) <==> OverlapsFirst(r, chain, n) || Overlaps(r, chain[n])
  {
  }

  /** How many commits were published on top of the request's parent. */
  ghost function Interleaved(chain: seq<Manifest>, parent: nat): nat {
    if |chain| > parent then |chain| - parent else 0
  }

  /** HEAD is sound and every commit above the parent's generation is there at its GET. */
  ghost predicate Sound(view: View, parent: nat) {
    HeadSound(view(0)) && ReadableFrom(view, parent + 1)
  }

  /** How many commits above the parent's generation the walk reads, from position i on, before one is missing. */
  ghost function SeenFrom(view: View, parent: nat, i: nat): (n: nat)
    requires HeadSound(view(0))
    ensures n >= i
    decreases Interleaved(Chain(view(0)), parent) - i
  {
    if i < Interleaved(Chain(view(0)), parent) && ReadableAt(view, i) then SeenFrom(view, parent, i + 1) else i
  }

  ghost function Seen(view: View, parent: nat): nat
    requires HeadSound(view(0))
  {
    SeenFrom(view, parent, 0)
  }

  lemma {:induction false} SeenUpTo(view: View, parent: nat, i: nat, n: nat)
    requires HeadSound(view(0)) && i <= n <= Interleaved(Chain(view(0)), parent)
    requires forall j :: i <= j < n ==> ReadableAt(view, j)
    requires n < Interleaved(Chain(view(0)), parent) ==> !ReadableAt(view, n)
    ensures SeenFrom(view, parent, i) == n
    decreases n - i
  {
    if i < n {
      SeenUpTo(view, parent, i + 1, n);
    }
  }

  /** On readable history the walk sees every commit that overtook the request. */
  lemma SeenAll(view: View, parent: nat)
    requires Sound(view, parent)
    ensures Seen(view, parent) == Interleaved(Chain(view(0)), parent)
  {
    var n := Interleaved(Chain(view(0)), parent);
    forall j | 0 <= j < n ensures ReadableAt(view, j) {
      ChainPosition(view(0), j);
    }
    SeenUpTo(view, parent, 0, n);
  }

  /** On swept history it sees those from the covered generation on. */
  lemma SeenSwept(view: View, parent: nat, covered: nat)
    requires HeadSound(view(0)) && Swept(view, covered) && parent + 1 < covered
    ensures Seen(view, parent) == |Chain(view(0))| - covered + 1
  {
    var n := |Chain(view(0))| - covered + 1;
    forall j | 0 <= j < n ensures ReadableAt(view, j) {
      ChainPosition(view(0), j);
    }
    SeenUpTo(view, parent, 0, n);
  }

  /** So after a sweep it sees them all if and only if the checkpoint is at most one above the parent. */
  lemma SeenExact(view: View, parent: nat, covered: nat)
    requires HeadSound(view(0)) && Swept(view, covered)
    ensures Seen(view, parent) == Interleaved(Chain(view(0)), parent) <==> covered <= parent + 1
  {
    if parent + 1 < covered {
      SeenSwept(view, parent, covered);
    } else {
      assert ReadableFrom(view, parent + 1);
      SeenAll(view, parent);
    }
  }

  /** The walk stands at position i of the chain, above the parent's generation. */
  ghost predicate Tracks(store: Store, parent: nat, c: Cursor, i: nat)
    requires HeadSound(store)
  {
    i < |Chain(store)| && c == CursorAt(Chain(store)[i]) && c.generation == |Chain(store)| - i > parent
  }

  lemma TrackStep(view: View, parent: nat, c: Cursor, i: nat)
    requires HeadSound(view(0)) && Tracks(view(0), parent, c, i)
    ensures var read := ReadManifest(view(i + 1), c.key, c.sha);
      && (read.Read? <==> ReadableAt(view, i))
      && (read.Read? ==> read.manifest == Chain(view(0))[i])
    ensures Chain(view(0))[i].parentGeneration + 1 == c.generation
    ensures Chain(view(0))[i].parentGeneration > parent ==>
      Tracks(view(0), parent, ParentCursor(Chain(view(0))[i]), i + 1)
  {
    ChainPosition(view(0), i);
    BoundRead(view(i + 1), Chain(view(0))[i]);
    if i + 1 < |Chain(view(0))| {
      ChainPosition(view(0), i + 1);
    }
  }

  /** What is true at the start of a turn, if HEAD is sound. */
  ghost predicate Collected(view: View, r: Request, c: Cursor, steps: nat, overlap: bool) {
    HeadSound(view(0)) ==>
      && Tracks(view(0), ParentGeneration(r), c, steps)
      && SeenFrom(view, ParentGeneration(r), steps) == Seen(view, ParentGeneration(r))
      && (PagesKnown(r) ==> (overlap <==> OverlapsFirst(r, Chain(view(0)), steps)))
  }

  /** What the flag says at the end. */
  ghost predicate Reported(view: View, r: Request, overlap: bool) {
    HeadSound(view(0)) && PagesKnown(r) ==>
      (overlap <==> OverlapsFirst(r, Chain(view(0)), Seen(view, ParentGeneration(r))))
  }

  lemma CollectedFirst(view: View, r: Request, head: Head, overlap: bool)
    requires HeadKey in view(0) && view(0)[HeadKey] == HeadObject(head) && head.generation > ParentGeneration(r)
    requires overlap == !PagesKnown(r)
    ensures Collected(view, r, HeadCursor(head), 0, overlap)
  {
    if HeadSound(view(0)) {
      HeadAtFront(view(0));
    }
  }

  lemma CollectedMissing(view: View, r: Request, c: Cursor, steps: nat, overlap: bool)
    requires Collected(view, r, c, steps, overlap) && ReadManifest(view(steps + 1), c.key, c.sha).Failed?
    ensures Reported(view, r, overlap)
  {
    if HeadSound(view(0)) {
      TrackStep(view, ParentGeneration(r), c, steps);
    }
  }

  lemma CollectedNext(view: View, r: Request, c: Cursor, steps: nat, overlap: bool, m: Manifest, more: bool)
    requires Collected(view, r, c, steps, overlap) && ReadManifest(view(steps + 1), c.key, c.sha) == Read(m)
    requires PagesKnown(r) ==> (more <==> overlap || Overlaps(r, m))
    ensures HeadSound(view(0)) ==> m.parentGeneration >= ParentGeneration(r)
    ensures m.parentGeneration > ParentGeneration(r) ==> Collected(view, r, ParentCursor(m), steps + 1, more)
    ensures m.parentGeneration == ParentGeneration(r) ==> Reported(view, r, more)
  {
    if HeadSound(view(0)) {
      TrackStep(view, ParentGeneration(r), c, steps);
      if PagesKnown(r) {
        OverlapsNext(r, Chain(view(0)), steps);
      }
    }
  }

  /** Whether a manifest adds an overlap. */
  method AddOverlap(r: Request, m: Manifest, overlap: bool) returns (more: bool)
    requires WellFormed(r)
    ensures PagesKnown(r) ==> (more <==> overlap || Overlaps(r, m))
    ensures !PagesKnown(r) ==> more == overlap
  {
    more := overlap;
    if PagesKnown(r) {
      var hit := RequestOverlaps(r, m);
      more := overlap || hit;
    }
  }

  /** The walk from HEAD towards the parent, collecting overlaps on the way. */
  method WalkConflict(view: View, r: Request, head: Head) returns (out: Outcome, overlap: bool)
    requires WellFormed(r) && HeadKey in view(0) && view(0)[HeadKey] == HeadObject(head)
    requires head.generation > ParentGeneration(r)
    ensures out == Walk(view, head.generation, r.commitId, ParentGeneration(r), HeadCursor(head), 0)
    ensures !out.state.NotCommitted?
    ensures !PagesKnown(r) && !out.state.Committed? ==> overlap
    ensures out.state.Superseded? ==> Reported(view, r, overlap)
  {
    var parent := ParentGeneration(r);
    overlap := !PagesKnown(r);
    CollectedFirst(view, r, head, overlap);
    var c := HeadCursor(head);
    var steps := 0;
    ghost var result := Walk(view, head.generation, r.commitId, parent, c, steps);
    while c.generation > parent
      invariant Walk(view, head.generation, r.commitId, parent, c, steps) == result
      invariant !PagesKnown(r) ==> overlap
      invariant Collected(view, r, c, steps, overlap)
      decreases c.generation
    {
      steps := steps + 1;
      if steps >= MAX_COMMITS {
        return Outcome(Invalid, Unknown), overlap;
      }
      if c.id == r.commitId {
        return Outcome(JournalOk, Committed), false;
      }
      var read := ReadManifest(view(steps), c.key, c.sha);
      if read.Failed? {
        CollectedMissing(view, r, c, steps - 1, overlap);
        if read.rc.NotFound? {
          return MissingOutcome(view, steps + 1, head.generation, c.generation), overlap;
        }
        return Outcome(read.rc, Unknown), overlap;
      }
      var m := read.manifest;
      if m.generation != c.generation || m.commitId != c.id {
        return Outcome(Invalid, Unknown), overlap;
      }
      var more := AddOverlap(r, m, overlap);
      CollectedNext(view, r, c, steps - 1, overlap, m, more);
      overlap := more;
      if m.parentGeneration < parent {
        break;
      }
      if m.parentGeneration == parent {
        return Outcome(JournalOk, if m.parentCommitId == r.commitId then Committed else Superseded), overlap;
      }
      if m.parentCommitId == "" {
        break;
      }
      c := ParentCursor(m);
    }
    out := Outcome(JournalOk, Superseded);
  }

  /**
   The state verdict is the one Resolve gives, whatever happens between the reads. When it is SUPERSEDED,
   overlap is false exactly when all page sets are known and the commits that could be read above the
   parent are disjoint from the request's; on readable history those are all commits above the parent.
   */
  method DetectConflict(view: View, r: Request) returns (out: Outcome, overlap: bool)
    ensures !WellFormed(r) ==> out == Outcome(Invalid, Unknown)
    ensures WellFormed(r) ==> out == Resolution(view, r.commitId, ParentGeneration(r))
    ensures WellFormed(r) && !PagesKnown(r) && out.state in {NotCommitted, Superseded} ==> overlap
    ensures WellFormed(r) && PagesKnown(r) && out.state.NotCommitted? ==> !overlap
    ensures WellFormed(r) && out.state.Superseded? ==> Reported(view, r, overlap)
    ensures WellFormed(r) && PagesKnown(r) && out.state.Superseded? && Sound(view, ParentGeneration(r)) ==>
      (overlap <==> OverlapsFirst(r, Chain(view(0)), Interleaved(Chain(view(0)), ParentGeneration(r))))
  {
    if !WellFormed(r) {
      return Outcome(Invalid, Unknown), false;
    }
    overlap := !PagesKnown(r);
    var first := view(0);
    if HeadKey !in first {
      return Outcome(JournalOk, NotCommitted), overlap;
    }
    if !first[HeadKey].HeadObject? {
      return Outcome(Invalid, Unknown), overlap;
    }
    var head := first[HeadKey].head;
    if head.commitId == r.commitId {
      return Outcome(JournalOk, Committed), false;
    }
    if head.generation <= ParentGeneration(r) {
      return Outcome(JournalOk, NotCommitted), overlap;
    }
    out, overlap := WalkConflict(view, r, head);
    if Sound(view, ParentGeneration(r)) {
      SeenAll(view, ParentGeneration(r));
    }
  }

  lemma HeadAtFront(store: Store)
    requires HeadSound(store) && HeadKey in store
    ensures var h := store[HeadKey].head;
      |Chain(store)| == h.generation > 0 && forall parent :: 0 <= parent < h.generation ==>
        Tracks(store, parent, HeadCursor(h), 0)
  {
    HistoryShape(store[HeadKey].head.commitSha.preimage.manifest);
  }

  /** On swept history the report is about the commits from the covered generation on and no others. */
  lemma SweptReport(view: View, r: Request, covered: nat, overlap: bool)
    requires HeadSound(view(0)) && Swept(view, covered) && ParentGeneration(r) + 1 < covered && PagesKnown(r)
    requires Reported(view, r, overlap)
    ensures overlap <==> exists m :: m in Chain(view(0)) && m.generation >= covered && Overlaps(r, m)
  {
    var chain := Chain(view(0));
    var n := |chain| - covered + 1;
    SeenSwept(view, ParentGeneration(r), covered);
    forall i | 0 <= i < |chain| ensures chain[i].generation >= covered <==> i < n {
      ChainPosition(view(0), i);
    }
    if m :| m in chain && m.generation >= covered && Overlaps(r, m) {
      var i :| 0 <= i < |chain| && chain[i] == m;
      assert OverlapsFirst(r, chain, n);
    }
  }

  // ---- what "no overlap" is good for ----

  /** Writing a commit's pages over an image. */
  function Apply<P>(image: map<nat, P>, writes: map<nat, P>): map<nat, P> {
    image + writes
  }

  function ApplyAll<P>(image: map<nat, P>, commits: seq<map<nat, P>>): map<nat, P>
    decreases |commits|
  {
    if commits == [] then image else ApplyAll(Apply(image, commits[0]), commits[1..])
  }

  /** A batch of writes belongs to a commit whose declared page sets cover it. */
  ghost predicate WritesOf<P>(writes: map<nat, P>, m: Manifest) {
    forall p :: p in writes ==> exists k :: 0 <= k < |m.segments| && p in m.segments[k].pages
  }

  ghost predicate WritesOfRequest<P>(writes: map<nat, P>, r: Request)
    requires PagesKnown(r)
  {
    forall p :: p in writes ==> exists i :: 0 <= i < |r.segments| && p in r.segments[i].pages.value
  }

  lemma {:induction false} DisjointCommutes<P>(image: map<nat, P>, mine: map<nat, P>, theirs: seq<map<nat, P>>)
    requires forall i :: 0 <= i < |theirs| ==> mine.Keys !! theirs[i].Keys
    ensures ApplyAll(Apply(image, mine), theirs) == Apply(ApplyAll(image, theirs), mine)
    decreases |theirs|
  {
    if theirs != [] {
      assert Apply(Apply(image, mine), theirs[0]) == Apply(Apply(image, theirs[0]), mine);
      DisjointCommutes(Apply(image, theirs[0]), mine, theirs[1..]);
    }
  }

  lemma NoOverlapCommutes<P>(r: Request, commits: seq<Manifest>, image: map<nat, P>, mine: map<nat, P>,
                             theirs: seq<map<nat, P>>)
    requires PagesKnown(r) && |commits| == |theirs|
    requires forall i :: 0 <= i < |commits| ==> !Overlaps(r, commits[i])
    requires WritesOfRequest(mine, r)
    requires forall i :: 0 <= i < |commits| ==> WritesOf(theirs[i], commits[i])
    ensures ApplyAll(Apply(image, mine), theirs) == Apply(ApplyAll(image, theirs), mine)
  {
    forall i, p | 0 <= i < |theirs| && p in mine ensures p !in theirs[i] {
      assert !Overlaps(r, commits[i]);
    }
    DisjointCommutes(image, mine, theirs);
  }

  /** The commits above a parent's generation, oldest first: the order in which they are replayed. */
  ghost function ReplayOrder(chain: seq<Manifest>, parent: nat): (commits: seq<Manifest>)
    ensures |commits| == Interleaved(chain, parent)
  {
    var n := Interleaved(chain, parent);
    seq(n, i requires 0 <= i < n => chain[n - 1 - i])
  }

  /**
   What a report of "superseded, no overlap" is good for: the request's pages can be applied before or
   after the commits that overtook it, which are replayed oldest first.
   */
  lemma ReportedCommutes<P>(view: View, r: Request, image: map<nat, P>, mine: map<nat, P>, theirs: seq<map<nat, P>>)
    requires Sound(view, ParentGeneration(r)) && PagesKnown(r) && WritesOfRequest(mine, r)
    requires !OverlapsFirst(r, Chain(view(0)), Interleaved(Chain(view(0)), ParentGeneration(r)))
    requires |theirs| == Interleaved(Chain(view(0)), ParentGeneration(r))
    requires forall i :: 0 <= i < |theirs| ==> WritesOf(theirs[i], ReplayOrder(Chain(view(0)), ParentGeneration(r))[i])
    ensures ApplyAll(Apply(image, mine), theirs) == Apply(ApplyAll(image, theirs), mine)
  {
    var chain, commits := Chain(view(0)), ReplayOrder(Chain(view(0)), ParentGeneration(r));
    forall i | 0 <= i < |commits| ensures !Overlaps(r, commits[i]) {
      assert commits[i] == chain[|commits| - 1 - i];
    }
    NoOverlapCommutes(r, commits, image, mine, theirs);
  }

  /** The report and what it is good for in one call. */
  method DetectAndRebase<P>(view: View, r: Request, ghost image: map<nat, P>, ghost mine: map<nat, P>,
                            ghost theirs: seq<map<nat, P>>) returns (clean: bool)
    requires WellFormed(r) && PagesKnown(r) && Sound(view, ParentGeneration(r)) && WritesOfRequest(mine, r)
    requires |theirs| == Interleaved(Chain(view(0)), ParentGeneration(r))
    requires forall i :: 0 <= i < |theirs| ==> WritesOf(theirs[i], ReplayOrder(Chain(view(0)), ParentGeneration(r))[i])
    ensures clean <==>
      (Resolution(view, r.commitId, ParentGeneration(r)).state == Superseded &&
       !OverlapsFirst(r, Chain(view(0)), Interleaved(Chain(view(0)), ParentGeneration(r))))
    ensures clean ==> ApplyAll(Apply(image, mine), theirs) == Apply(ApplyAll(image, theirs), mine)
  {
    var out, overlap := DetectConflict(view, r);
    clean := out.state.Superseded? && !overlap;
    if clean {
      ReportedCommutes(view, r, image, mine, theirs);
    }
  }
}

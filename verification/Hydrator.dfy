/**
 The lazy hydrator: pages of the local image are fetched when they are read. Each method is one
 region under the hydrator's mutex; while a reader waits, any worker steps may happen.
 Results of fetches, writes and decodes are chosen freely.
 */
module Hydrator {
  import opened Prelude
  import opened RecencyList
  import opened PageReplay
  import opened ResolvePage
  import RangeCoalescing

  datatype TaskState = Idle | Fetching | Fetched | Applied | Failed
  datatype JobState = Pending | InFlight | Done | Dropped

  /** A read-ahead window: consecutive pages of one segment, and how fetching them went once that is known. */
  datatype Job = Job(ordinal: nat, first: nat, last: nat, state: JobState, outcome: Option<bool>)

  const MAX_PAGES: nat := 0xFFFF_FFFF

  // ---- what has to hold ----

  /**
   The segments in task order, the checkpoint image, the size of the database, and whether the store serves
   byte ranges.
   */
  datatype Setup<P> = Setup(tasks: seq<Segment<P>>, base: map<nat, P>, pages: nat, ranges: bool)

  /**
   The local file, the set pages, the cached pages, what the session wrote and nothing has replaced,
   and whether applying a segment failed half way.
   */
  datatype View<P> = View(file: map<nat, P>, marked: set<nat>, cached: Entries<P>, session: map<nat, P>, broken: bool)

  ghost predicate WfSetup<P>(c: Setup<P>) {
    WfSegments(c.tasks)
  }

  /** The segment's frames are fetched one by one; otherwise the segment is fetched whole and applied in order. */
  predicate Ranged<P>(c: Setup<P>, ordinal: nat)
    requires ordinal < |c.tasks|
  {
    c.ranges && c.tasks[ordinal].ranged
  }

  /** The bytes a reader must see: what the session wrote, else what the chain says. */
  ghost function Expected<P>(c: Setup<P>, session: map<nat, P>, p: nat): Option<P>
    requires WfSetup(c)
  {
    if p in session then Some(session[p]) else Wanted(c.tasks, c.base, p)
  }

  ghost predicate RightAt<P>(c: Setup<P>, v: View<P>, p: nat)
    requires WfSetup(c)
  {
    Lookup(v.file, p) == Expected(c, v.session, p)
  }

  /** Pages that are set, written by the session or claimed by no segment hold what they must. */
  ghost predicate ImageRight<P>(c: Setup<P>, v: View<P>)
    requires WfSetup(c)
  {
    forall p :: p in v.marked || p in v.session || Claimant(c.tasks, p).None? ==> RightAt(c, v, p)
  }

  /** A cached page is claimed, holds its owner's bytes, and was not written by the session. */
  ghost predicate EntryRight<P>(c: Setup<P>, session: map<nat, P>, entry: (nat, P))
    requires WfSetup(c)
  {
    && entry.0 !in session && Claimant(c.tasks, entry.0).Some?
    && Frame(c.tasks[Claimant(c.tasks, entry.0).value], entry.0) == entry.1
  }

  ghost predicate CacheRight<P>(c: Setup<P>, v: View<P>)
    requires WfSetup(c)
  {
    forall e :: e in v.cached ==> EntryRight(c, v.session, e)
  }

  /** The segment that owns a page is fetched whole and is still to be applied. */
  ghost predicate OwnerPending<P>(c: Setup<P>, next: nat, p: nat) {
    var owner := Claimant(c.tasks, p);
    owner.Some? && !Ranged(c, owner.value) && owner.value >= next
  }

  /**
   A page is only set once its owner was applied or the session wrote it, and only cached once its owner was
   applied.
   */
  ghost predicate AppliedFirst<P>(c: Setup<P>, v: View<P>, next: nat) {
    && (forall p :: p in v.marked ==> !OwnerPending(c, next, p) || p in v.session)
    && (forall e :: e in v.cached ==> !OwnerPending(c, next, e.0))
  }

  /** Applying a segment sets every page it owns. */
  ghost predicate OwnedSet<P>(c: Setup<P>, marked: set<nat>, ordinal: nat) {
    forall p :: 1 <= p <= c.pages && Claimant(c.tasks, p) == Some(ordinal) ==> p in marked
  }

  ghost predicate AppliedSet<P>(c: Setup<P>, marked: set<nat>, next: nat) {
    forall i :: 0 <= i < next && i < |c.tasks| && !Ranged(c, i) ==> OwnedSet(c, marked, i)
  }

  /** The pages whose writes are followed: those of the database, and those that no segment has. */
  ghost predicate Tracked<P>(c: Setup<P>, p: nat) {
    1 <= p <= c.pages || Claimant(c.tasks, p).None?
  }

  /** What the session wrote is set, or no segment has it. */
  ghost predicate WroteSafely<P>(c: Setup<P>, v: View<P>) {
    forall p :: p in v.session ==> p in v.marked || Claimant(c.tasks, p).None?
  }

  /** A set page is one of the database and has bytes to show: written, claimed, or in the checkpoint image. */
  ghost predicate MarkedKnown<P>(c: Setup<P>, v: View<P>) {
    forall p :: p in v.marked ==> 1 <= p <= c.pages && (p in v.session || Claimant(c.tasks, p).Some? || p in c.base)
  }

  /**
   All of it. Of the segments fetched whole, those below `done` were applied, and no page of one from `next`
   on is set.
   */
  ghost predicate Sound<P>(c: Setup<P>, v: View<P>, next: nat, done: nat) {
    && WfSetup(c) && WroteSafely(c, v) && MarkedKnown(c, v) && CacheRight(c, v)
    && (!v.broken ==> ImageRight(c, v) && AppliedFirst(c, v, next) && AppliedSet(c, v.marked, done))
  }

  /** A set page can be read and shows what it must. */
  lemma Readable<P>(c: Setup<P>, v: View<P>, next: nat, done: nat, p: nat)
    requires Sound(c, v, next, done) && !v.broken && p in v.marked
    ensures p in v.file && RightAt(c, v, p)
  {
  }

  // ---- what each step keeps ----

  lemma FrameAt<P>(s: Segment<P>, k: nat)
    requires WfSegment(s) && k < |s.pages|
    ensures s.pages[k] in s.pages && Frame(s, s.pages[k]) == s.data[k]
  {
    assert Position(s.pages, s.pages[k]) == k;
  }

  ghost predicate CachedFrom<P>(cached: Entries<P>, entry: (nat, P), from: Entries<P>) {
    forall e :: e in cached ==> e == entry || e in from
  }

  /** What the RAM cache does is among what the hydrator allows for. */
  lemma RamCacheFits<P>(l: Entries<P>, page: nat, data: P, pageSize: nat, budget: nat, capacity: nat)
    requires Distinct(l) && |l| <= capacity && capacity > 0
    ensures CachedFrom(Stored(l, page, data, pageSize, budget, capacity), (page, data), l)
    ensures CachedFrom(Touched(l, page), (page, data), l)
    ensures forall e :: e in Removed(l, page) ==> e in l && e.0 != page
  {
    StoredFrom(l, page, data, pageSize, budget, capacity);
    TouchedFrom(l, page);
    RemovedFrom(l, page);
  }

  lemma SetGrows<P>(c: Setup<P>, marked: set<nat>, more: set<nat>, next: nat)
    requires AppliedSet(c, marked, next) && marked <= more
    ensures AppliedSet(c, more, next)
  {
    forall i | 0 <= i < next && i < |c.tasks| && !Ranged(c, i) ensures OwnedSet(c, more, i) {
      assert OwnedSet(c, marked, i);
    }
  }

  /** A page receives the bytes of its owner, in place of what the session wrote if it did. */
  lemma PlaceSound<P>(c: Setup<P>, v: View<P>, next: nat, done: nat, p: nat, data: P, w: View<P>)
    requires Sound(c, v, next, done) && EntryRight(c, w.session, (p, data)) && !OwnerPending(c, next, p)
    requires w.file == v.file[p := data] && w.session == v.session - {p} && w.broken == v.broken
    requires w.marked == v.marked || (w.marked == v.marked + {p} && 1 <= p <= c.pages)
    requires p in v.session ==> p in w.marked
    requires CachedFrom(w.cached, (p, data), v.cached)
    ensures Sound(c, w, next, done)
  {
    forall e | e in w.cached ensures EntryRight(c, w.session, e) {
      assert e != (p, data) ==> EntryRight(c, v.session, e);
    }
    if !v.broken {
      SetGrows(c, v.marked, w.marked, done);
      forall q | q in w.marked || q in w.session || Claimant(c.tasks, q).None? ensures RightAt(c, w, q) {
        assert q != p ==> RightAt(c, v, q);
      }
    }
  }

  /** The same for a page that the session did not write. */
  lemma PlaceUnwritten<P>(c: Setup<P>, v: View<P>, next: nat, done: nat, p: nat, data: P, w: View<P>)
    requires Sound(c, v, next, done) && EntryRight(c, v.session, (p, data)) && !OwnerPending(c, next, p)
    requires w.file == v.file[p := data] && w.session == v.session && w.broken == v.broken
    requires w.marked == if 1 <= p <= c.pages then v.marked + {p} else v.marked
    requires CachedFrom(w.cached, (p, data), v.cached)
    ensures Sound(c, w, next, done)
  {
    assert v.session - {p} == v.session;
    PlaceSound(c, v, next, done, p, data, w);
  }

  /** An unset page of a segment is lost to a failed write. */
  lemma LoseSound<P>(c: Setup<P>, v: View<P>, next: nat, done: nat, p: nat)
    requires Sound(c, v, next, done) && p !in v.marked && p !in v.session && Claimant(c.tasks, p).Some?
    ensures Sound(c, v.(file := v.file - {p}), next, done)
  {
    var w := v.(file := v.file - {p});
    if !v.broken {
      forall q | q in w.marked || q in w.session || Claimant(c.tasks, q).None? ensures RightAt(c, w, q) {
        assert RightAt(c, v, q);
      }
    }
  }

  lemma BaseSound<P>(c: Setup<P>, v: View<P>, next: nat, done: nat, p: nat, w: View<P>)
    requires Sound(c, v, next, done) && Claimant(c.tasks, p).None? && p in c.base
    requires w == v.(marked := w.marked)
    requires w.marked == v.marked || (w.marked == v.marked + {p} && 1 <= p <= c.pages)
    ensures Sound(c, w, next, done)
  {
    if !v.broken {
      SetGrows(c, v.marked, w.marked, done);
      forall q | q in w.marked || q in w.session || Claimant(c.tasks, q).None? ensures RightAt(c, w, q) {
        assert RightAt(c, v, q);
      }
    }
  }

  /** The session writes a page. */
  lemma WriteSound<P>(c: Setup<P>, v: View<P>, next: nat, done: nat, p: nat, data: P, w: View<P>)
    requires Sound(c, v, next, done)
    requires w.file == v.file[p := data] && w.broken == v.broken
    requires w.session == if Tracked(c, p) then v.session[p := data] else v.session
    requires w.marked == if 1 <= p <= c.pages then v.marked + {p} else v.marked
    requires forall e :: e in w.cached ==> e in v.cached && e.0 != p
    ensures Sound(c, w, next, done)
  {
    forall e | e in w.cached ensures EntryRight(c, w.session, e) {
      assert EntryRight(c, v.session, e);
    }
    if !v.broken {
      SetGrows(c, v.marked, w.marked, done);
      forall q | q in w.marked || q in w.session || Claimant(c.tasks, q).None? ensures RightAt(c, w, q) {
        assert q != p ==> RightAt(c, v, q);
      }
    }
  }

  /** The next segment's turn: of its pages none is cached, and only those the session wrote are set. */
  lemma TurnSound<P>(c: Setup<P>, v: View<P>, next: nat)
    requires Sound(c, v, next, next) && !v.broken
    ensures Sound(c, v, next + 1, next)
    ensures next < |c.tasks| && !Ranged(c, next) ==>
      forall p :: Claimant(c.tasks, p) == Some(next) ==>
        (p in v.marked ==> p in v.session) && forall e :: e in v.cached ==> e.0 != p
  {
    forall p | !OwnerPending(c, next, p) ensures !OwnerPending(c, next + 1, p) {
    }
    if next < |c.tasks| && !Ranged(c, next) {
      forall p | Claimant(c.tasks, p) == Some(next) ensures OwnerPending(c, next, p) {
      }
    }
  }

  lemma AppliedSound<P>(c: Setup<P>, v: View<P>, next: nat)
    requires Sound(c, v, next + 1, next) && !v.broken
    requires next < |c.tasks| && !Ranged(c, next) ==> OwnedSet(c, v.marked, next)
    ensures Sound(c, v, next + 1, next + 1)
  {
  }

  // ---- applying a whole segment ----

  /** The image after applying a segment: its bytes on every page of which it is the newest claimant. */
  ghost predicate AppliedTo<P>(c: Setup<P>, before: map<nat, P>, after: map<nat, P>, ordinal: nat)
    requires WfSetup(c)
  {
    forall p :: Lookup(after, p) ==
      if Claimant(c.tasks, p) == Some(ordinal) then Some(Frame(c.tasks[ordinal], p)) else Lookup(before, p)
  }

  /** The first k frames of the segment were looked at. */
  ghost predicate AppliedUpTo<P>(c: Setup<P>, before: map<nat, P>, after: map<nat, P>, ordinal: nat, k: nat)
    requires WfSetup(c) && ordinal < |c.tasks| && k <= |c.tasks[ordinal].pages|
  {
    forall p :: Lookup(after, p) ==
      if p in c.tasks[ordinal].pages[..k] && Claimant(c.tasks, p) == Some(ordinal)
      then Some(Frame(c.tasks[ordinal], p)) else Lookup(before, p)
  }

  /** The pages of the first k frames are set, where the segment owns them. */
  ghost predicate SetUpTo<P>(c: Setup<P>, marked: set<nat>, ordinal: nat, k: nat)
    requires ordinal < |c.tasks| && k <= |c.tasks[ordinal].pages|
  {
    forall j :: 0 <= j < k ==> FrameSet(c, marked, ordinal, c.tasks[ordinal].pages[j])
  }

  lemma SetMore<P>(c: Setup<P>, marked: set<nat>, more: set<nat>, ordinal: nat, k: nat)
    requires ordinal < |c.tasks| && k < |c.tasks[ordinal].pages| && SetUpTo(c, marked, ordinal, k) && marked <= more
    requires FrameSet(c, more, ordinal, c.tasks[ordinal].pages[k])
    ensures SetUpTo(c, more, ordinal, k + 1)
  {
    forall j | 0 <= j < k ensures FrameSet(c, more, ordinal, c.tasks[ordinal].pages[j]) {
      assert FrameSet(c, marked, ordinal, c.tasks[ordinal].pages[j]);
    }
  }

  lemma AllSet<P>(c: Setup<P>, marked: set<nat>, ordinal: nat)
    requires ordinal < |c.tasks| && SetUpTo(c, marked, ordinal, |c.tasks[ordinal].pages|)
    ensures OwnedSet(c, marked, ordinal)
  {
    forall p | 1 <= p <= c.pages && Claimant(c.tasks, p) == Some(ordinal) ensures p in marked {
      var j :| 0 <= j < |c.tasks[ordinal].pages| && c.tasks[ordinal].pages[j] == p;
      assert FrameSet(c, marked, ordinal, c.tasks[ordinal].pages[j]);
    }
  }

  lemma AppliedStep<P>(c: Setup<P>, before: map<nat, P>, mid: map<nat, P>, ordinal: nat, k: nat)
    requires WfSetup(c) && ordinal < |c.tasks| && k < |c.tasks[ordinal].pages| &&
      AppliedUpTo(c, before, mid, ordinal, k)
    ensures var p := c.tasks[ordinal].pages[k];
      var after := if Claimant(c.tasks, p) == Some(ordinal) then mid[p := c.tasks[ordinal].data[k]] else mid;
      AppliedUpTo(c, before, after, ordinal, k + 1)
  {
    var pages := c.tasks[ordinal].pages;
    FrameAt(c.tasks[ordinal], k);
    assert pages[..k + 1] == pages[..k] + [pages[k]];
  }

  lemma AppliedAll<P>(c: Setup<P>, before: map<nat, P>, after: map<nat, P>, ordinal: nat)
    requires WfSetup(c) && ordinal < |c.tasks| && AppliedUpTo(c, before, after, ordinal, |c.tasks[ordinal].pages|)
    ensures AppliedTo(c, before, after, ordinal)
  {
    assert c.tasks[ordinal].pages[..|c.tasks[ordinal].pages|] == c.tasks[ordinal].pages;
  }

  /** What is left of the session's writes after the segment's turn: all but those to pages it owns. */
  ghost predicate Spared<P>(c: Setup<P>, before: map<nat, P>, after: map<nat, P>, ordinal: nat) {
    forall p :: Lookup(after, p) == if Claimant(c.tasks, p) == Some(ordinal) then None else Lookup(before, p)
  }

  ghost predicate SparedUpTo<P>(c: Setup<P>, before: map<nat, P>, after: map<nat, P>, ordinal: nat, k: nat)
    requires ordinal < |c.tasks| && k <= |c.tasks[ordinal].pages|
  {
    forall p :: Lookup(after, p) ==
      if p in c.tasks[ordinal].pages[..k] && Claimant(c.tasks, p) == Some(ordinal) then None else Lookup(before, p)
  }

  lemma SparedStep<P>(c: Setup<P>, before: map<nat, P>, mid: map<nat, P>, ordinal: nat, k: nat)
    requires ordinal < |c.tasks| && k < |c.tasks[ordinal].pages| && SparedUpTo(c, before, mid, ordinal, k)
    ensures var p := c.tasks[ordinal].pages[k];
      var after := if Claimant(c.tasks, p) == Some(ordinal) then mid - {p} else mid;
      SparedUpTo(c, before, after, ordinal, k + 1)
  {
    var pages := c.tasks[ordinal].pages;
    assert pages[..k + 1] == pages[..k] + [pages[k]];
  }

  lemma SparedAll<P>(c: Setup<P>, before: map<nat, P>, after: map<nat, P>, ordinal: nat)
    requires ordinal < |c.tasks| && SparedUpTo(c, before, after, ordinal, |c.tasks[ordinal].pages|)
    ensures Spared(c, before, after, ordinal)
  {
    assert c.tasks[ordinal].pages[..|c.tasks[ordinal].pages|] == c.tasks[ordinal].pages;
  }

  /** The owner of the page had its turn. */
  ghost predicate TurnTaken<P>(c: Setup<P>, from: nat, to: nat, p: nat) {
    OwnerPending(c, from, p) && !OwnerPending(c, to, p)
  }

  /** The session's writes after some turns: exactly those to pages whose owner had its turn are gone. */
  ghost predicate Remains<P>(c: Setup<P>, before: map<nat, P>, after: map<nat, P>, from: nat, to: nat) {
    forall p :: Lookup(after, p) == if TurnTaken(c, from, to, p) then None else Lookup(before, p)
  }

  lemma RemainsTurn<P>(c: Setup<P>, before: map<nat, P>, after: map<nat, P>, ordinal: nat)
    requires ordinal < |c.tasks| && !Ranged(c, ordinal) && Spared(c, before, after, ordinal)
    ensures Remains(c, before, after, ordinal, ordinal + 1)
  {
    assert forall p :: TurnTaken(c, ordinal, ordinal + 1, p) <==> Claimant(c.tasks, p) == Some(ordinal);
  }

  lemma RemainsSkip<P>(c: Setup<P>, session: map<nat, P>, ordinal: nat)
    requires ordinal < |c.tasks| && Ranged(c, ordinal)
    ensures Remains(c, session, session, ordinal, ordinal + 1)
  {
    var next := ordinal + 1;
    assert forall p :: !TurnTaken(c, ordinal, next, p);
  }

  lemma RemainsThen<P>(c: Setup<P>, a: map<nat, P>, b: map<nat, P>, d: map<nat, P>, i: nat, j: nat, k: nat)
    requires i <= j <= k && Remains(c, a, b, i, j) && Remains(c, b, d, j, k)
    ensures Remains(c, a, d, i, k)
  {
    assert forall p :: TurnTaken(c, i, k, p) <==> TurnTaken(c, i, j, p) || TurnTaken(c, j, k, p);
  }

  lemma RemainsSame<P>(c: Setup<P>, session: map<nat, P>, i: nat)
    ensures Remains(c, session, session, i, i)
  {
  }

  // ---- demand reads ----

  /** An active window of the segment holds the page. */
  predicate WindowHas(job: Job, ordinal: nat, p: nat) {
    job.ordinal == ordinal && (job.state == Pending || job.state == InFlight) && job.first <= p <= job.last
  }

  ghost predicate InWindow(jobs: seq<Job>, ordinal: nat, p: nat) {
    exists j :: 0 <= j < |jobs| && WindowHas(jobs[j], ordinal, p)
  }

  /** A request asks the newest claimant of its page, a segment fetched by byte range. */
  ghost predicate Owns<P>(c: Setup<P>, r: RangeCoalescing.Request) {
    Claimant(c.tasks, r.page) == Some(r.ordinal) && Ranged(c, r.ordinal)
  }

  /**
   Nothing to fetch by byte range for this page: it is set, or its owner is not such a segment, or a window
   has it.
   */
  ghost predicate Settled<P>(c: Setup<P>, marked: set<nat>, jobs: seq<Job>, aware: bool, p: nat) {
    var owner := Claimant(c.tasks, p);
    p in marked || owner.None? || !Ranged(c, owner.value) || (aware && InWindow(jobs, owner.value, p))
  }

  ghost predicate Asked(requests: seq<RangeCoalescing.Request>, p: nat) {
    exists r :: r in requests && r.page == p
  }

  /** Requests for pages of a range that are not set. */
  ghost predicate Unset(requests: seq<RangeCoalescing.Request>, marked: set<nat>, first: nat, last: nat) {
    forall i :: 0 <= i < |requests| ==> first <= requests[i].page <= last && requests[i].page !in marked
  }

  /** Requests below a page, in page order. */
  ghost predicate Collected<P>(c: Setup<P>, requests: seq<RangeCoalescing.Request>, page: nat) {
    && (forall i :: 0 <= i < |requests| ==> Owns(c, requests[i]) && requests[i].page < page)
    && (forall i, j :: 0 <= i < j < |requests| ==> requests[i].page < requests[j].page)
  }

  lemma AskMore<P>(c: Setup<P>, requests: seq<RangeCoalescing.Request>, ordinal: nat, page: nat)
    requires Collected(c, requests, page) && Owns(c, RangeCoalescing.Request(ordinal, page))
    ensures var more := requests + [RangeCoalescing.Request(ordinal, page)];
      Collected(c, more, page + 1) && Asked(more, page) && forall p :: Asked(requests, p) ==> Asked(more, p)
  {
    var r := RangeCoalescing.Request(ordinal, page);
    var more := requests + [r];
    assert r in more && r.page == page;
    forall p | Asked(requests, p) ensures Asked(more, p) {
      var q :| q in requests && q.page == p;
      assert q in more;
    }
  }

  /** The page is set if the segment owns it. */
  ghost predicate FrameSet<P>(c: Setup<P>, marked: set<nat>, ordinal: nat, p: nat) {
    1 <= p <= c.pages && Claimant(c.tasks, p) == Some(ordinal) ==> p in marked
  }

  ghost predicate RunSet<P>(c: Setup<P>, marked: set<nat>, indexes: seq<RangeCoalescing.Index>,
          run: RangeCoalescing.Run) {
    && RangeCoalescing.WfRun(indexes, run)
    && forall k :: run.lo <= k < run.hi ==> FrameSet(c, marked, run.ordinal, indexes[run.ordinal].pages[k])
  }

  /** The first n runs are set. */
  ghost predicate RunsSet<P>(c: Setup<P>, marked: set<nat>, indexes: seq<RangeCoalescing.Index>,
          runs: seq<RangeCoalescing.Run>, n: nat)
    requires n <= |runs|
  {
    forall i :: 0 <= i < n ==> RunSet(c, marked, indexes, runs[i])
  }

  /** Every run is of a segment that is fetched by byte range. */
  ghost predicate Appliable<P>(c: Setup<P>, indexes: seq<RangeCoalescing.Index>, runs: seq<RangeCoalescing.Run>) {
    forall i :: 0 <= i < |runs| ==>
      RangeCoalescing.WfRun(indexes, runs[i]) && runs[i].ordinal < |c.tasks| && Ranged(c, runs[i].ordinal)
  }

  lemma RunsAppliable<P>(c: Setup<P>, indexes: seq<RangeCoalescing.Index>, runs: seq<RangeCoalescing.Run>,
          requests: seq<RangeCoalescing.Request>)
    requires RangeCoalescing.WfRuns(indexes, runs)
    requires RangeCoalescing.OnlyOf(runs, RangeCoalescing.Segments(requests)) && |indexes| == |c.tasks|
    requires forall i :: 0 <= i < |requests| ==> Owns(c, requests[i])
    ensures Appliable(c, indexes, runs)
  {
    forall i | 0 <= i < |runs|
      ensures RangeCoalescing.WfRun(indexes, runs[i]) && runs[i].ordinal < |c.tasks| && Ranged(c, runs[i].ordinal)
    {
      assert runs[i].ordinal in RangeCoalescing.Segments(requests);
    }
  }

  /** The first blocks of a run. */
  ghost function Prefix(indexes: seq<RangeCoalescing.Index>, run: RangeCoalescing.Run, k: nat): RangeCoalescing.Run
    requires RangeCoalescing.WfRun(indexes, run) && run.lo < k <= run.hi
  {
    run.(hi := k, to := RangeCoalescing.Offset(indexes[run.ordinal], k))
  }

  lemma PrefixSet<P>(c: Setup<P>, marked: set<nat>, more: set<nat>, indexes: seq<RangeCoalescing.Index>,
          run: RangeCoalescing.Run, k: nat)
    requires RangeCoalescing.WfRun(indexes, run) && run.lo <= k < run.hi && marked <= more
    requires run.lo < k ==> RunSet(c, marked, indexes, Prefix(indexes, run, k))
    requires FrameSet(c, more, run.ordinal, indexes[run.ordinal].pages[k])
    ensures RunSet(c, more, indexes, Prefix(indexes, run, k + 1))
    ensures Prefix(indexes, run, run.hi) == run
  {
    forall i | run.lo <= i < k ensures FrameSet(c, more, run.ordinal, indexes[run.ordinal].pages[i]) {
      assert FrameSet(c, marked, run.ordinal, indexes[run.ordinal].pages[i]);
    }
  }

  lemma StaySet<P>(c: Setup<P>, marked: set<nat>, more: set<nat>, indexes: seq<RangeCoalescing.Index>,
          runs: seq<RangeCoalescing.Run>, n: nat)
    requires marked <= more && n <= |runs| && RunsSet(c, marked, indexes, runs, n)
    ensures RunsSet(c, more, indexes, runs, n)
  {
    forall i | 0 <= i < n ensures RunSet(c, more, indexes, runs[i]) {
      forall k | runs[i].lo <= k < runs[i].hi
        ensures FrameSet(c, more, runs[i].ordinal, indexes[runs[i].ordinal].pages[k]) {
        assert FrameSet(c, marked, runs[i].ordinal, indexes[runs[i].ordinal].pages[k]);
      }
    }
  }

  lemma ServedIsSet<P>(c: Setup<P>, marked: set<nat>, indexes: seq<RangeCoalescing.Index>,
          runs: seq<RangeCoalescing.Run>, q: RangeCoalescing.Request)
    requires RangeCoalescing.WfRuns(indexes, runs) && RangeCoalescing.Served(indexes, runs, q) && Owns(c, q) &&
      1 <= q.page <= c.pages
    requires RunsSet(c, marked, indexes, runs, |runs|)
    ensures q.page in marked
  {
    var i :| 0 <= i < |runs| && RangeCoalescing.Serves(indexes, runs[i], q);
    var pages := indexes[runs[i].ordinal].pages;
    var k :| 0 <= k < |pages[runs[i].lo..runs[i].hi]| && pages[runs[i].lo..runs[i].hi][k] == q.page;
    assert FrameSet(c, marked, runs[i].ordinal, pages[runs[i].lo + k]);
  }

  lemma RequestsSet<P>(c: Setup<P>, marked: set<nat>, indexes: seq<RangeCoalescing.Index>,
          runs: seq<RangeCoalescing.Run>, requests: seq<RangeCoalescing.Request>)
    requires RangeCoalescing.WfRuns(indexes, runs) && RunsSet(c, marked, indexes, runs, |runs|)
    requires forall i :: 0 <= i < |requests| ==> RangeCoalescing.ServedOnce(indexes, runs, requests[i])
    requires forall i :: 0 <= i < |requests| ==> Owns(c, requests[i])
    ensures forall i :: 0 <= i < |requests| && 1 <= requests[i].page <= c.pages ==> requests[i].page in marked
  {
    forall i | 0 <= i < |requests| && 1 <= requests[i].page <= c.pages ensures requests[i].page in marked {
      assert RangeCoalescing.ServedOnce(indexes, runs, requests[i]);
      ServedIsSet(c, marked, indexes, runs, requests[i]);
    }
  }

  lemma RightRequests<P>(c: Setup<P>, indexes: seq<RangeCoalescing.Index>, requests: seq<RangeCoalescing.Request>,
          n: nat)
    requires Collected(c, requests, n) && |indexes| == |c.tasks|
    requires forall i :: 0 <= i < |c.tasks| && Ranged(c, i) ==> indexes[i].pages == c.tasks[i].pages
    ensures RangeCoalescing.WfRequests(indexes, requests)
  {
    forall i | 0 <= i < |requests|
      ensures requests[i].ordinal < |indexes| && requests[i].page in indexes[requests[i].ordinal].pages {
      assert Owns(c, requests[i]);
    }
  }

  lemma StaySettled<P>(c: Setup<P>, marked: set<nat>, more: set<nat>, jobs: seq<Job>, jobs': seq<Job>, aware: bool)
    requires marked <= more && jobs <= jobs'
    ensures forall p :: Settled(c, marked, jobs, aware, p) ==> Settled(c, more, jobs', aware, p)
  {
    forall p | Settled(c, marked, jobs, aware, p) ensures Settled(c, more, jobs', aware, p) {
      var owner := Claimant(c.tasks, p);
      if owner.Some? && InWindow(jobs, owner.value, p) {
        var j :| 0 <= j < |jobs| && WindowHas(jobs[j], owner.value, p);
        assert jobs'[j] == jobs[j];
      }
    }
  }

  /** Every page of a range is settled or asked for. */
  ghost predicate Gathered<P>(c: Setup<P>, marked: set<nat>, jobs: seq<Job>, aware: bool,
          requests: seq<RangeCoalescing.Request>, first: nat, end: nat) {
    forall p :: first <= p < end ==> Settled(c, marked, jobs, aware, p) || Asked(requests, p)
  }

  /** The requests with one for the page, if it has to be fetched. */
  function Asking(requests: seq<RangeCoalescing.Request>, owner: Option<nat>, page: nat): seq<RangeCoalescing.Request> {
    if owner.Some? then requests + [RangeCoalescing.Request(owner.value, page)] else requests
  }

  lemma UnsetNext(requests: seq<RangeCoalescing.Request>, owner: Option<nat>, page: nat, marked: set<nat>, first: nat,
          last: nat)
    requires Unset(requests, marked, first, last) && (owner.Some? ==> first <= page <= last && page !in marked)
    ensures Unset(Asking(requests, owner, page), marked, first, last)
  {
  }

  lemma GatheredNext<P>(c: Setup<P>, marked: set<nat>, more: set<nat>, jobs: seq<Job>, jobs': seq<Job>, aware: bool,
          requests: seq<RangeCoalescing.Request>, first: nat, page: nat, owner: Option<nat>)
    requires marked <= more && jobs <= jobs' && Collected(c, requests, page)
    requires Gathered(c, marked, jobs, aware, requests, first, page)
    requires owner.None? ==> Settled(c, more, jobs', aware, page)
    requires owner.Some? ==> Owns(c, RangeCoalescing.Request(owner.value, page))
    ensures var asked := Asking(requests, owner, page);
      Collected(c, asked, page + 1) && Gathered(c, more, jobs', aware, asked, first, page + 1)
  {
    StaySettled(c, marked, more, jobs, jobs', aware);
    if owner.Some? {
      AskMore(c, requests, owner.value, page);
    }
  }

  // ---- read-ahead windows ----

  /** A window lies in the database and its segment, one that is fetched by byte range, owns all of it. */
  ghost predicate Eligible<P>(c: Setup<P>, job: Job) {
    && job.ordinal < |c.tasks| && Ranged(c, job.ordinal) && 1 <= job.first <= job.last <= c.pages
    && forall p :: job.first <= p <= job.last ==> Claimant(c.tasks, p) == Some(job.ordinal)
  }

  ghost predicate WindowSet(marked: set<nat>, job: Job) {
    forall p :: job.first <= p <= job.last ==> p in marked
  }

  /** A window that was fetched has all its pages set. */
  ghost predicate JobRight<P>(c: Setup<P>, marked: set<nat>, job: Job) {
    && Eligible(c, job) && (job.state == Done ==> job.outcome == Some(true))
    && (job.outcome == Some(true) ==> WindowSet(marked, job))
  }

  ghost predicate JobsRight<P>(c: Setup<P>, marked: set<nat>, jobs: seq<Job>) {
    forall j :: 0 <= j < |jobs| ==> JobRight(c, marked, jobs[j])
  }

  /** Windows were scheduled. */
  ghost predicate Scheduled<P>(c: Setup<P>, before: seq<Job>, after: seq<Job>) {
    && before <= after
    && forall j :: |before| <= j < |after| ==>
      Eligible(c, after[j]) && after[j].state == Pending && after[j].outcome.None?
  }

  lemma ScheduledMore<P>(c: Setup<P>, before: seq<Job>, jobs: seq<Job>, job: Job)
    requires Scheduled(c, before, jobs) && Eligible(c, job) && job.state == Pending && job.outcome.None?
    ensures Scheduled(c, before, jobs + [job])
  {
  }

  /** The frames of a range of pages were applied. */
  ghost predicate FramesSet<P>(c: Setup<P>, marked: set<nat>, ordinal: nat, first: nat, end: nat) {
    forall p :: first <= p < end ==> FrameSet(c, marked, ordinal, p)
  }

  lemma FramesMore<P>(c: Setup<P>, marked: set<nat>, more: set<nat>, ordinal: nat, first: nat, end: nat)
    requires FramesSet(c, marked, ordinal, first, end) && marked <= more && FrameSet(c, more, ordinal, end)
    ensures FramesSet(c, more, ordinal, first, end + 1)
  {
    forall p | first <= p < end ensures FrameSet(c, more, ordinal, p) {
      assert FrameSet(c, marked, ordinal, p);
    }
  }

  /** The pages of a window are its own: its frames set them all. */
  lemma WindowApplied<P>(c: Setup<P>, marked: set<nat>, job: Job)
    requires Eligible(c, job) && FramesSet(c, marked, job.ordinal, job.first, job.last + 1)
    ensures WindowSet(marked, job)
  {
    forall p | job.first <= p <= job.last ensures p in marked {
      assert FrameSet(c, marked, job.ordinal, p);
    }
  }

  lemma JobsStayRight<P>(c: Setup<P>, marked: set<nat>, more: set<nat>, jobs: seq<Job>, jobs': seq<Job>)
    requires JobsRight(c, marked, jobs) && marked <= more && Scheduled(c, jobs, jobs')
    ensures JobsRight(c, more, jobs')
  {
    forall j | 0 <= j < |jobs'| ensures JobRight(c, more, jobs'[j]) {
      assert j < |jobs| ==> jobs'[j] == jobs[j] && JobRight(c, marked, jobs[j]);
    }
  }

  /** No window was dropped. */
  ghost predicate NoneDropped(before: seq<Job>, after: seq<Job>) {
    && |before| <= |after|
    && forall j :: 0 <= j < |before| ==>
      && after[j].ordinal == before[j].ordinal && after[j].first == before[j].first && after[j].last == before[j].last
      && (after[j].state == Dropped ==> before[j].state == Dropped)
  }

  lemma NoneDroppedThen(a: seq<Job>, b: seq<Job>, d: seq<Job>)
    requires NoneDropped(a, b) && NoneDropped(b, d)
    ensures NoneDropped(a, d)
  {
    forall j | 0 <= j < |a|
      ensures d[j].ordinal == a[j].ordinal && d[j].first == a[j].first && d[j].last == a[j].last
      ensures d[j].state == Dropped ==> a[j].state == Dropped
    {
      assert b[j].ordinal == a[j].ordinal && d[j].ordinal == b[j].ordinal;
    }
  }

  /** A window of the segment that was not dropped holds the page. */
  predicate Keeps(job: Job, ordinal: nat, p: nat) {
    job.ordinal == ordinal && job.state != Dropped && job.first <= p <= job.last
  }

  ghost predicate Handled(jobs: seq<Job>, ordinal: nat, p: nat) {
    exists j :: 0 <= j < |jobs| && Keeps(jobs[j], ordinal, p)
  }

  lemma WindowHandles(jobs: seq<Job>, ordinal: nat, p: nat)
    requires InWindow(jobs, ordinal, p)
    ensures Handled(jobs, ordinal, p)
  {
    var j :| 0 <= j < |jobs| && WindowHas(jobs[j], ordinal, p);
    assert Keeps(jobs[j], ordinal, p);
  }

  /** An unset page of such a window: the window is still under way. */
  lemma StillActive<P>(c: Setup<P>, marked: set<nat>, jobs: seq<Job>, ordinal: nat, p: nat)
    requires JobsRight(c, marked, jobs) && Handled(jobs, ordinal, p) && p !in marked
    ensures InWindow(jobs, ordinal, p)
  {
    var j :| 0 <= j < |jobs| && Keeps(jobs[j], ordinal, p);
    assert JobRight(c, marked, jobs[j]);
    assert WindowHas(jobs[j], ordinal, p);
  }

  /** The page is set, or its owner is not fetched by byte range, or a window that was not dropped has it. */
  ghost predicate Taken<P>(c: Setup<P>, marked: set<nat>, jobs: seq<Job>, p: nat) {
    var owner := Claimant(c.tasks, p);
    p in marked || owner.None? || !Ranged(c, owner.value) || Handled(jobs, owner.value, p)
  }

  lemma SettledIsTaken<P>(c: Setup<P>, marked: set<nat>, jobs: seq<Job>, aware: bool, p: nat)
    requires Settled(c, marked, jobs, aware, p)
    ensures Taken(c, marked, jobs, p)
  {
    var owner := Claimant(c.tasks, p);
    if owner.Some? && InWindow(jobs, owner.value, p) {
      WindowHandles(jobs, owner.value, p);
    }
  }

  lemma StaysTaken<P>(c: Setup<P>, marked: set<nat>, more: set<nat>, jobs: seq<Job>, jobs': seq<Job>, p: nat)
    requires Taken(c, marked, jobs, p) && marked <= more && NoneDropped(jobs, jobs')
    ensures Taken(c, more, jobs', p)
  {
    var owner := Claimant(c.tasks, p);
    if owner.Some? && Handled(jobs, owner.value, p) {
      var j :| 0 <= j < |jobs| && Keeps(jobs[j], owner.value, p);
      assert Keeps(jobs'[j], owner.value, p);
    }
  }

  lemma NotInRow(pages: seq<nat>, at: nat, first: nat, b: nat)
    requires StrictlyIncreasing(pages) && at < |pages| && pages[at] == first
    requires at + b >= |pages| || pages[at + b] != first + b
    ensures exists p :: first <= p <= first + b && p !in pages
  {
    if forall p :: first <= p <= first + b ==> p in pages {
      RangeCoalescing.Neighbours(pages, at, b);
    }
  }

  // ---- from one moment to a later one ----

  datatype Moment<P> = Moment(marked: set<nat>, jobs: seq<Job>, session: map<nat, P>, next: nat, failed: bool,
    broken: bool)

  /** Pages were set, each owned by a segment or covered by the checkpoint. */
  ghost predicate Grown<P>(c: Setup<P>, covered: nat, before: set<nat>, after: set<nat>) {
    before <= after && forall p :: p in after && p !in before ==> p <= covered || Claimant(c.tasks, p).Some?
  }

  /**
   What was set stays set and a failure is for good; of the session's writes exactly those whose owner had
   its turn are gone; and unless there was a fault no window was dropped and nothing failed.
   */
  ghost predicate Since<P>(c: Setup<P>, covered: nat, a: Moment<P>, b: Moment<P>, fault: bool) {
    && Grown(c, covered, a.marked, b.marked) && (a.failed ==> b.failed) && a.next <= b.next
    && (!b.broken ==> Remains(c, a.session, b.session, a.next, b.next))
    && (!fault ==> NoneDropped(a.jobs, b.jobs) && b.failed == a.failed)
  }

  lemma SinceThen<P>(c: Setup<P>, covered: nat, a: Moment<P>, b: Moment<P>, d: Moment<P>, f: bool, g: bool)
    requires Since(c, covered, a, b, f) && Since(c, covered, b, d, g) && (b.broken ==> d.broken)
    ensures Since(c, covered, a, d, f || g)
  {
    if !d.broken {
      RemainsThen(c, a.session, b.session, d.session, a.next, b.next, d.next);
    }
    if !f && !g {
      NoneDroppedThen(a.jobs, b.jobs, d.jobs);
    }
  }

  /** A stretch without turns. */
  lemma SinceQuiet<P>(c: Setup<P>, covered: nat, a: Moment<P>, b: Moment<P>, fault: bool)
    requires Grown(c, covered, a.marked, b.marked) && (a.failed ==> b.failed) && a.next == b.next
    requires a.session == b.session && (!fault ==> NoneDropped(a.jobs, b.jobs) && b.failed == a.failed)
    ensures Since(c, covered, a, b, fault)
  {
    RemainsSame(c, a.session, a.next);
  }

  class Hydrator<P> {
    const chain: Chain<P>
    const tasks: seq<Segment<P>>
    const base: map<nat, P>
    const pages: nat
    const covered: nat
    const ranges: bool
    /** The block positions of the segments that have them, and the byte window for merging requests. */
    const indexes: seq<RangeCoalescing.Index>
    const window: nat
    var file: map<nat, P>
    var marked: set<nat>
    var cached: Entries<P>
    var states: seq<TaskState>
    var nextApply: nat
    var jobs: seq<Job>
    var failed: bool
    /** What the session wrote and nothing has replaced, and whether applying a segment failed half way. */
    ghost var session: map<nat, P>
    ghost var broken: bool

    ghost function Given(): Setup<P> {
      Setup(tasks, base, pages, ranges)
    }

    ghost function Seen(): View<P>
      reads this
    {
      View(file, marked, cached, session, broken)
    }

    ghost predicate Holds(next: nat, done: nat)
      reads this
    {
      && WfChain(chain) && tasks == Tasks(chain) && |states| == |tasks|
      && Sound(Given(), Seen(), next, done) && JobsRight(Given(), marked, jobs)
    }

    ghost predicate Indexed() {
      && (forall p :: 1 <= p <= covered ==> p in base)
      && |indexes| == |tasks| && RangeCoalescing.WfIndexes(indexes)
      && forall i :: 0 <= i < |tasks| && Ranged(Given(), i) ==> indexes[i].pages == tasks[i].pages
    }

    /** Only segments whose turn has passed count as applied. */
    ghost predicate InTurn()
      reads this
    {
      forall i :: nextApply <= i < |states| ==> states[i] != Applied
    }

    /** A segment that could not be fetched has failed the hydrator. */
    ghost predicate FailureKnown()
      reads this
    {
      forall i :: 0 <= i < |states| && states[i] == TaskState.Failed ==> failed
    }

    ghost predicate Intact()
      reads this
    {
      Indexed() && Holds(nextApply, nextApply) && InTurn() && FailureKnown()
    }

    /** Whenever the mutex is free: an apply that failed half way has failed the hydrator for good. */
    ghost predicate Valid()
      reads this
    {
      Intact() && (broken ==> failed)
    }

    ghost function Now(): Moment<P>
      reads this
    {
      Moment(marked, jobs, session, nextApply, failed, broken)
    }

    /** Set already, or in the checkpoint image and owned by no segment: nothing has to be fetched. */
    ghost predicate Ready(present: set<nat>, p: nat) {
      p in present || (Claimant(tasks, p).None? && p <= covered)
    }

    /** There is nowhere to take the page from. */
    ghost predicate Missing(present: set<nat>, p: nat) {
      p !in present && Claimant(tasks, p).None? && p > covered
    }

    constructor (chain: Chain<P>, tasks: seq<Segment<P>>, base: map<nat, P>, pages: nat, covered: nat, ranges: bool,
                 indexes: seq<RangeCoalescing.Index>, window: nat)
      requires WfChain(chain) && tasks == Tasks(chain) && WfSegments(tasks)
      requires |indexes| == |tasks| && RangeCoalescing.WfIndexes(indexes) && forall p :: 1 <= p <= covered ==> p in base
      requires forall i :: 0 <= i < |tasks| && tasks[i].ranged ==> indexes[i].pages == tasks[i].pages
      ensures Valid() && this.chain == chain && this.pages == pages && this.base == base
      ensures this.tasks == tasks && this.ranges == ranges && nextApply == 0 && !broken
      ensures file == base && marked == {} && session == map[] && jobs == [] && !failed
    {
      this.chain, this.tasks, this.base, this.pages := chain, tasks, base, pages;
      this.covered, this.ranges, this.indexes, this.window := covered, ranges, indexes, window;
      file, marked, cached, states, nextApply, jobs, failed := base, {}, [], seq(|tasks|, _ => Idle), 0, [], false;
      session, broken := map[], false;
    }

    /** Store a page in the RAM cache; which pages are evicted for it is left open. */
    method CacheStore(p: nat, data: P)
      modifies `cached
      ensures CachedFrom(cached, (p, data), old(cached))
    {
      var kept := [];
      for i := 0 to |cached|
        invariant forall e :: e in kept ==> e in cached
      {
        if * {
          kept := kept + [cached[i]];
        }
      }
      if * {
        kept := [(p, data)] + kept;
      }
      cached := kept;
    }

    /** Write a page of the local image; a failed write leaves the page unreadable. */
    method WritePage(p: nat, data: P) returns (ok: bool, ghost fault: bool)
      modifies `file
      ensures file == if ok then old(file)[p := data] else old(file) - {p}
      ensures ok <==> !fault
    {
      ok :| true;
      fault := !ok;
      file := if ok then file[p := data] else file - {p};
    }

    method Mark(p: nat)
      modifies `marked
      ensures marked == if 1 <= p <= pages then old(marked) + {p} else old(marked)
    {
      if 1 <= p <= pages {
        marked := marked + {p};
      }
    }

    /** Does the segment own every page of a range? */
    method OwnsAll(ordinal: nat, first: nat, last: nat) returns (all: bool)
      requires WfChain(chain) && tasks == Tasks(chain)
      ensures all <==> forall p :: first <= p <= last ==> Claimant(tasks, p) == Some(ordinal)
    {
      var p := first;
      while p <= last
        invariant first <= p && forall q :: first <= q < p ==> Claimant(tasks, q) == Some(ordinal)
      {
        var owner := Resolve(chain, p);
        if owner != Some(ordinal) {
          return false;
        }
        p := p + 1;
      }
      all := true;
    }

    /** Windows of pages that one segment owns may be scheduled after a miss; which ones is left open. */
    method NoteMiss()
      requires WfChain(chain) && tasks == Tasks(chain)
      modifies `jobs
      ensures Scheduled(Given(), old(jobs), jobs)
    {
      var n: nat :| true;
      for i := 0 to n
        invariant Scheduled(Given(), old(jobs), jobs)
      {
        var ordinal: nat, first: nat, last: nat :| true;
        if ordinal < |tasks| && ranges && tasks[ordinal].ranged && 1 <= first <= last <= pages {
          var all := OwnsAll(ordinal, first, last);
          if all {
            var job := Job(ordinal, first, last, Pending, None);
            ScheduledMore(Given(), old(jobs), jobs, job);
            jobs := jobs + [job];
          }
        }
      }
    }

    method Missed()
      requires Valid()
      modifies `jobs
      ensures Valid() && old(jobs) <= jobs
    {
      NoteMiss();
      JobsStayRight(Given(), marked, marked, old(jobs), jobs);
    }

    method Install(p: nat, data: P)
      modifies `marked, `cached
      ensures marked == if 1 <= p <= pages then old(marked) + {p} else old(marked)
      ensures CachedFrom(cached, (p, data), old(cached))
    {
      Mark(p);
      CacheStore(p, data);
    }

    /** Put a frame of the segment that owns an unset page in place. */
    method Place(ordinal: nat, k: nat) returns (ok: bool, ghost fault: bool)
      requires Valid() && ordinal < |tasks| && k < |tasks[ordinal].pages| && Ranged(Given(), ordinal)
      requires tasks[ordinal].pages[k] !in marked && Claimant(tasks, tasks[ordinal].pages[k]) == Some(ordinal)
      modifies `file, `marked, `cached
      ensures Valid()
      ensures var p := tasks[ordinal].pages[k];
        marked == if ok && 1 <= p <= pages then old(marked) + {p} else old(marked)
      ensures ok <==> !fault
    {
      ghost var v := Seen();
      var p, data := tasks[ordinal].pages[k], tasks[ordinal].data[k];
      FrameAt(tasks[ordinal], k);
      ok, fault := WritePage(p, data);
      if ok {
        Install(p, data);
        JobsStayRight(Given(), v.marked, marked, jobs, jobs);
        PlaceUnwritten(Given(), v, nextApply, nextApply, p, data, Seen());
      } else {
        LoseSound(Given(), v, nextApply, nextApply, p);
      }
    }

    /** A frame fetched by byte range is applied if its page is unset and the segment is still its newest claimant. */
    method ApplyFrame(ordinal: nat, k: nat) returns (ok: bool, ghost fault: bool)
      requires Valid() && ordinal < |tasks| && k < |tasks[ordinal].pages| && Ranged(Given(), ordinal)
      modifies `file, `marked, `cached
      ensures Valid() && Grown(Given(), covered, old(marked), marked)
      ensures ok ==> FrameSet(Given(), marked, ordinal, tasks[ordinal].pages[k])
      ensures ok <==> !fault
    {
      var p := tasks[ordinal].pages[k];
      var owner := Resolve(chain, p);
      ok, fault := true, false;
      if p !in marked && owner == Some(ordinal) {
        ok, fault := Place(ordinal, k);
      }
    }

    // ---- segments fetched whole ----

    /** Set a page that was written; if it was not set before, it is a miss and goes to the cache. */
    method MarkWritten(p: nat, data: P)
      requires WfChain(chain) && tasks == Tasks(chain)
      modifies `marked, `cached, `jobs
      ensures marked == if 1 <= p <= pages then old(marked) + {p} else old(marked)
      ensures CachedFrom(cached, (p, data), old(cached)) && Scheduled(Given(), old(jobs), jobs)
    {
      var miss := p !in marked;
      Mark(p);
      if miss {
        NoteMiss();
        CacheStore(p, data);
      }
    }

    /** Write one frame of a segment; the bitmap is not asked, and what the session wrote there is gone. */
    method Rewrite(ordinal: nat, k: nat) returns (ok: bool, ghost fault: bool)
      requires Holds(ordinal + 1, ordinal) && !broken && ordinal < |tasks| && k < |tasks[ordinal].pages|
      requires Claimant(tasks, tasks[ordinal].pages[k]) == Some(ordinal)
      modifies `file, `marked, `cached, `jobs, `broken, `session
      ensures Holds(ordinal + 1, ordinal) && (ok <==> !broken) && Grown(Given(), covered, old(marked), marked)
      ensures (ok <==> !fault) && old(jobs) <= jobs
      ensures var p := tasks[ordinal].pages[k]; ok && 1 <= p <= pages ==> p in marked
      ensures k < |tasks[ordinal].data| && (ok ==> file == old(file)[tasks[ordinal].pages[k] := tasks[ordinal].data[k]])
      ensures ok ==> session == old(session) - {tasks[ordinal].pages[k]}
    {
      ghost var v := Seen();
      var p, data := tasks[ordinal].pages[k], tasks[ordinal].data[k];
      FrameAt(tasks[ordinal], k);
      ok, fault := WritePage(p, data);
      if !ok {
        broken := true;
        return;
      }
      session := session - {p};
      ghost var js := jobs;
      MarkWritten(p, data);
      JobsStayRight(Given(), v.marked, marked, js, jobs);
      PlaceSound(Given(), v, ordinal + 1, ordinal, p, data, Seen());
    }

    /** One frame of the next segment: written if the segment is the newest claimant of its page. */
    method ApplyOne(ordinal: nat, k: nat, ghost before: map<nat, P>, ghost written: map<nat, P>)
      returns (ok: bool, ghost fault: bool)
      requires Holds(ordinal + 1, ordinal) && !broken && ordinal < |tasks| && k < |tasks[ordinal].pages|
      requires AppliedUpTo(Given(), before, file, ordinal, k) && SparedUpTo(Given(), written, session, ordinal, k)
      modifies `file, `marked, `cached, `jobs, `broken, `session
      ensures Holds(ordinal + 1, ordinal) && (ok <==> !broken) && Grown(Given(), covered, old(marked), marked)
      ensures (ok <==> !fault) && old(jobs) <= jobs
      ensures ok ==> AppliedUpTo(Given(), before, file, ordinal, k + 1)
      ensures ok ==> SparedUpTo(Given(), written, session, ordinal, k + 1)
      ensures ok ==> FrameSet(Given(), marked, ordinal, tasks[ordinal].pages[k])
    {
      var owner := Resolve(chain, tasks[ordinal].pages[k]);
      AppliedStep(Given(), before, file, ordinal, k);
      SparedStep(Given(), written, session, ordinal, k);
      ok, fault := true, false;
      if owner == Some(ordinal) {
        ok, fault := Rewrite(ordinal, k);
      }
    }

    /** Apply the next segment: every page of which it is the newest claimant. */
    method ApplySegment(ordinal: nat) returns (ok: bool, ghost fault: bool)
      requires Valid() && !broken && ordinal == nextApply < |tasks| && !Ranged(Given(), ordinal)
      modifies `file, `marked, `cached, `jobs, `broken, `session
      ensures ok ==> !broken && Holds(ordinal + 1, ordinal + 1) && AppliedTo(Given(), old(file), file, ordinal)
      ensures ok ==> Spared(Given(), old(session), session, ordinal)
      ensures !ok ==> broken && Holds(ordinal, ordinal)
      ensures Grown(Given(), covered, old(marked), marked) && (ok <==> !fault) && old(jobs) <= jobs
    {
      TurnSound(Given(), Seen(), ordinal);
      var decoded: bool :| true;
      ok, fault := decoded, !decoded;
      if !decoded {
        broken := true;
        return;
      }
      for k := 0 to |tasks[ordinal].pages|
        invariant Holds(ordinal + 1, ordinal) && !broken && Grown(Given(), covered, old(marked), marked)
        invariant ok && !fault && old(jobs) <= jobs
        invariant AppliedUpTo(Given(), old(file), file, ordinal, k)
        invariant SparedUpTo(Given(), old(session), session, ordinal, k)
        invariant SetUpTo(Given(), marked, ordinal, k)
      {
        ghost var m := marked;
        ok, fault := ApplyOne(ordinal, k, old(file), old(session));
        if !ok {
          return;
        }
        SetMore(Given(), m, marked, ordinal, k);
      }
      AllSet(Given(), marked, ordinal);
      AppliedSound(Given(), Seen(), ordinal);
      AppliedAll(Given(), old(file), file, ordinal);
      SparedAll(Given(), old(session), session, ordinal);
    }

    // ---- read-ahead ----

    /** Where a window's frames lie in its segment, if they are there one after another. */
    method FindWindow(ordinal: nat, first: nat, last: nat) returns (lo: Option<nat>)
      requires ordinal < |tasks| && WfSegment(tasks[ordinal])
      ensures lo.Some? <==> first <= last && forall p :: first <= p <= last ==> p in tasks[ordinal].pages
      ensures lo.Some? ==> lo.value + (last - first) < |tasks[ordinal].pages|
      ensures lo.Some? ==> forall j :: lo.value <= j <= lo.value + (last - first) ==>
        tasks[ordinal].pages[j] == first + (j - lo.value)
    {
      var segment := tasks[ordinal].pages;
      var at := LowerBound(segment, first);
      if first > last || at >= |segment| || segment[at] != first {
        assert first <= last ==> first !in segment;
        return None;
      }
      if at + (last - first) >= |segment| {
        NotInRow(segment, at, first, last - first);
        return None;
      }
      for b := 0 to last - first + 1
        invariant forall j :: at <= j < at + b ==> segment[j] == first + (j - at)
      {
        if segment[at + b] != first + b {
          NotInRow(segment, at, first, b);
          return None;
        }
      }
      forall p | first <= p <= last ensures p in segment {
        assert segment[at + (p - first)] == p;
      }
      lo := Some(at);
    }

    /**
     Fetch and apply a window: frames of set pages and of pages with a newer owner are skipped. Only a fault
     or a window that is not in its segment stops it.
     */
    method ApplyWindow(ordinal: nat, first: nat, last: nat) returns (ok: bool, ghost fault: bool)
      requires Valid() && ordinal < |tasks|
      modifies `file, `marked, `cached
      ensures Valid() && Grown(Given(), covered, old(marked), marked)
      ensures ok ==> FramesSet(Given(), marked, ordinal, first, last + 1)
      ensures !ok ==> fault || !Ranged(Given(), ordinal) || first > last ||
                      exists p :: first <= p <= last && p !in tasks[ordinal].pages
    {
      ok, fault := false, false;
      if !(ranges && tasks[ordinal].ranged) {
        return;
      }
      var lo := FindWindow(ordinal, first, last);
      if lo.None? {
        return;
      }
      var fetched: bool :| true;
      ok, fault := fetched, !fetched;
      if !fetched {
        return;
      }
      for b := 0 to last - first + 1
        invariant Valid() && Grown(Given(), covered, old(marked), marked) && ok && !fault
        invariant FramesSet(Given(), marked, ordinal, first, first + b)
      {
        ok, fault := ApplyBlock(ordinal, lo.value + b, first);
        if !ok {
          return;
        }
      }
    }

    /** One block of a fetched window. */
    method ApplyBlock(ordinal: nat, k: nat, ghost first: nat) returns (ok: bool, ghost fault: bool)
      requires Valid() && ordinal < |tasks| && k < |tasks[ordinal].pages| && Ranged(Given(), ordinal)
      requires FramesSet(Given(), marked, ordinal, first, tasks[ordinal].pages[k])
      modifies `file, `marked, `cached
      ensures Valid() && Grown(Given(), covered, old(marked), marked)
      ensures ok ==> FramesSet(Given(), marked, ordinal, first, tasks[ordinal].pages[k] + 1)
      ensures ok <==> !fault
    {
      var decoded: bool :| true;
      if failed || !decoded {
        return false, true;
      }
      ok, fault := ApplyFrame(ordinal, k);
      if ok {
        FramesMore(Given(), old(marked), marked, ordinal, first, tasks[ordinal].pages[k]);
      }
    }

    // ---- what other threads do ----

    /** One step of a worker: fetch a whole segment, or fetch and apply a read-ahead window. */
    method WorkerStep() returns (ghost fault: bool)
      requires Valid()
      modifies `file, `marked, `cached, `states, `jobs, `failed
      ensures Valid() && Since(Given(), covered, old(Now()), Now(), fault)
    {
      var i: nat, j: nat :| true;
      fault := false;
      if i < |states| {
        fault := TaskStep(i);
      } else if j < |jobs| && jobs[j].state == Pending && !failed {
        Turn(j, jobs[j].(state := InFlight));
      } else if j < |jobs| && jobs[j].state == InFlight {
        fault := JobStep(j);
      }
      SinceQuiet(Given(), covered, old(Now()), Now(), fault);
    }

    /** A worker begins to fetch a segment, or is back with it. */
    method TaskStep(i: nat) returns (ghost fault: bool)
      requires Valid() && i < |states|
      modifies `states, `failed
      ensures Valid() && (old(failed) ==> failed) && (!fault ==> failed == old(failed))
    {
      fault := false;
      if states[i] == Idle && !failed {
        states := states[i := Fetching];
      } else if states[i] == Fetching {
        var ok: bool :| true;
        states := states[i := if ok then Fetched else TaskState.Failed];
        failed := failed || !ok;
        fault := !ok;
      }
    }

    /** A window changes its state. */
    method Turn(j: nat, job: Job)
      requires Valid() && j < |jobs| && JobRight(Given(), marked, job)
      modifies `jobs
      ensures Valid() && jobs == old(jobs)[j := job]
    {
      jobs := jobs[j := job];
    }

    /** The worker of a window in flight applies what it fetched, or reports how that went. */
    method JobStep(j: nat) returns (ghost fault: bool)
      requires Valid() && j < |jobs| && jobs[j].state == InFlight
      modifies `file, `marked, `cached, `jobs
      ensures Valid() && Grown(Given(), covered, old(marked), marked)
      ensures !fault ==> NoneDropped(old(jobs), jobs)
    {
      var job := jobs[j];
      fault := false;
      assert JobRight(Given(), marked, job);
      if job.outcome.None? {
        var ok, _ := ApplyWindow(job.ordinal, job.first, job.last);
        if ok {
          WindowApplied(Given(), marked, job);
        }
        Turn(j, job.(outcome := Some(ok)));
      } else {
        fault := !job.outcome.value;
        Turn(j, job.(state := if job.outcome.value then Done else Dropped));
      }
    }

    /** The mutex is released: any number of worker steps. */
    method Wait() returns (ghost fault: bool)
      requires Valid()
      modifies `file, `marked, `cached, `states, `jobs, `failed
      ensures Valid() && Since(Given(), covered, old(Now()), Now(), fault)
    {
      var n: nat :| true;
      fault := false;
      SinceQuiet(Given(), covered, Now(), Now(), false);
      for i := 0 to n
        invariant Valid() && session == old(session) && nextApply == old(nextApply)
        invariant Since(Given(), covered, old(Now()), Now(), fault)
      {
        ghost var mid := Now();
        ghost var f := WorkerStep();
        SinceThen(Given(), covered, old(Now()), mid, Now(), fault, f);
        fault := fault || f;
      }
    }

    /** Wait for a segment, or fetch it here if there are no workers. */
    method AwaitTask(i: nat, sync: bool) returns (ok: bool, ghost fault: bool)
      requires Valid() && i < |tasks|
      modifies `file, `marked, `cached, `states, `jobs, `failed
      ensures Valid() && Since(Given(), covered, old(Now()), Now(), fault)
      ensures ok ==> states[i] == Fetched || states[i] == Applied
      ensures !ok ==> fault || old(failed)
    {
      fault := false;
      if sync {
        if states[i] == Idle || states[i] == Fetching {
          var fetched: bool :| true;
          fault := !fetched;
          states := states[i := if fetched then Fetched else TaskState.Failed];
          failed := failed || !fetched;
        }
        SinceQuiet(Given(), covered, old(Now()), Now(), fault);
        ok := states[i] == Fetched || states[i] == Applied;
        return;
      }
      fault := Wait();
      // The wait ends when the segment is there, when the hydrator fails, or when it is stopped.
      var stopped: bool :| true;
      stopped := stopped || !(failed || states[i] == Fetched || states[i] == Applied);
      fault := fault || stopped;
      ok := !failed && !stopped && (states[i] == Fetched || states[i] == Applied);
    }

    /** A page that no segment claims is marked: the checkpoint image has it. */
    method MarkBase(p: nat)
      requires Valid() && Claimant(tasks, p).None? && p in base && p <= covered
      modifies `marked
      ensures Valid() && marked == if 1 <= p <= pages then old(marked) + {p} else old(marked)
    {
      ghost var v := Seen();
      Mark(p);
      JobsStayRight(Given(), v.marked, marked, jobs, jobs);
      BaseSound(Given(), v, nextApply, nextApply, p, Seen());
    }

    /** A page in the RAM cache needs no fetch; it is written back if it is not set. */
    method ResolveCached(p: nat) returns (hit: bool)
      requires Valid() && !broken && 1 <= p <= pages
      modifies `file, `marked, `jobs
      ensures Valid() && Grown(Given(), covered, old(marked), marked) && old(jobs) <= jobs && (hit ==> p in marked)
    {
      if i: nat :| i < |cached| && cached[i].0 == p {
        var data := cached[i].1;
        assert cached[i] in cached && cached[i] == (p, data);
        if p in marked {
          return true;
        }
        hit := WriteBack(p, data);
      } else {
        hit := false;
      }
    }

    /** Bytes of the cache go to the file, and the page is set. */
    method WriteBack(p: nat, data: P) returns (ok: bool)
      requires Valid() && !broken && 1 <= p <= pages && (p, data) in cached && p !in marked
      modifies `file, `marked, `jobs
      ensures Valid() && Grown(Given(), covered, old(marked), marked) && old(jobs) <= jobs && (ok ==> p in marked)
    {
      ghost var v, js := Seen(), jobs;
      ghost var fault;
      ok, fault := WritePage(p, data);
      if ok {
        Mark(p);
        NoteMiss();
        JobsStayRight(Given(), v.marked, marked, js, jobs);
        PlaceUnwritten(Given(), v, nextApply, nextApply, p, data, Seen());
      } else {
        LoseSound(Given(), v, nextApply, nextApply, p);
      }
    }

    /**
     SQLite writes a page, read before or not: its bytes are in the file, the page is set, and the cache
     forgets it.
     */
    method SessionWrite(p: nat, data: P)
      requires Valid()
      modifies `file, `marked, `cached, `session
      ensures Valid() && file == old(file)[p := data]
      ensures session == if Tracked(Given(), p) then old(session)[p := data] else old(session)
      ensures marked == if 1 <= p <= pages then old(marked) + {p} else old(marked)
    {
      ghost var v := Seen();
      Overwrite(p, data);
      JobsStayRight(Given(), v.marked, marked, jobs, jobs);
      WriteSound(Given(), v, nextApply, nextApply, p, data, Seen());
    }

    method Overwrite(p: nat, data: P)
      modifies `file, `marked, `cached, `session
      ensures file == old(file)[p := data]
      ensures session == if Tracked(Given(), p) then old(session)[p := data] else old(session)
      ensures marked == if 1 <= p <= pages then old(marked) + {p} else old(marked)
      ensures forall e :: e in cached ==> e in old(cached) && e.0 != p
    {
      file := file[p := data];
      session := if Tracked(Given(), p) then session[p := data] else session;
      Mark(p);
      CacheRemove(p);
    }

    method CacheRemove(p: nat)
      modifies `cached
      ensures forall e :: e in cached ==> e in old(cached) && e.0 != p
    {
      var kept := [];
      for i := 0 to |cached|
        invariant forall e :: e in kept ==> e in cached && e.0 != p
      {
        if cached[i].0 != p {
          kept := kept + [cached[i]];
        }
      }
      cached := kept;
    }

    // ---- demand reads ----

    /** Is a page inside an active read-ahead window of its segment? */
    method Covered(ordinal: nat, p: nat) returns (yes: bool)
      ensures yes <==> InWindow(jobs, ordinal, p)
    {
      for j := 0 to |jobs|
        invariant forall k :: 0 <= k < j ==> !WindowHas(jobs[k], ordinal, p)
      {
        if WindowHas(jobs[j], ordinal, p) {
          return true;
        }
      }
      yes := false;
    }

    /** The segment a missing page is to be fetched from by byte range, if it has to be. */
    method Probe(page: nat, aware: bool) returns (owner: Option<nat>)
      requires Valid() && !broken && 1 <= page <= pages
      modifies `file, `marked, `jobs
      ensures Valid() && Grown(Given(), covered, old(marked), marked) && old(jobs) <= jobs
      ensures owner.None? ==> Settled(Given(), marked, jobs, aware, page)
      ensures owner.Some? ==> Owns(Given(), RangeCoalescing.Request(owner.value, page)) && page !in marked
    {
      var hit := ResolveCached(page);
      if hit || page in marked {
        return None;
      }
      owner := Resolve(chain, page);
      if owner.None? || !(ranges && tasks[owner.value].ranged) {
        return None;
      }
      var busy := Covered(owner.value, page);
      if aware && busy {
        return None;
      }
    }

    /** The missing pages of a range that are fetched by byte range, in page order. */
    method Collect(first: nat, last: nat, aware: bool) returns (requests: seq<RangeCoalescing.Request>)
      requires Valid() && !broken && 1 <= first && last <= pages
      modifies `file, `marked, `jobs
      ensures Valid() && Grown(Given(), covered, old(marked), marked) && old(jobs) <= jobs
      ensures Collected(Given(), requests, first + last + 1)
      ensures forall p :: first <= p <= last ==> Settled(Given(), marked, jobs, aware, p) || Asked(requests, p)
      ensures Unset(requests, old(marked), first, last)
    {
      requests := [];
      var page := first;
      while page <= last
        invariant first <= page <= first + last + 1 && Valid() && old(jobs) <= jobs
        invariant Grown(Given(), covered, old(marked), marked) && Collected(Given(), requests, page)
        invariant Gathered(Given(), marked, jobs, aware, requests, first, page)
        invariant Unset(requests, old(marked), first, last)
      {
        requests := CollectPage(requests, page, aware, first, last, old(marked));
        page := page + 1;
      }
    }

    method CollectPage(requests: seq<RangeCoalescing.Request>, page: nat, aware: bool, ghost first: nat,
        ghost last: nat, ghost before: set<nat>) returns (asked: seq<RangeCoalescing.Request>)
      requires Valid() && !broken && 1 <= first <= page <= last <= pages && before <= marked
      requires Collected(Given(), requests, page) && Gathered(Given(), marked, jobs, aware, requests, first, page)
      requires Unset(requests, before, first, last)
      modifies `file, `marked, `jobs
      ensures Valid() && Grown(Given(), covered, old(marked), marked) && old(jobs) <= jobs
      ensures Collected(Given(), asked, page + 1) && Gathered(Given(), marked, jobs, aware, asked, first, page + 1)
      ensures Unset(asked, before, first, last)
    {
      ghost var m, js := marked, jobs;
      var owner := Probe(page, aware);
      GatheredNext(Given(), m, marked, js, jobs, aware, requests, first, page, owner);
      UnsetNext(requests, owner, page, before, first, last);
      asked := Asking(requests, owner, page);
    }

    /** Fetch and apply one byte range: every frame is checked, and placed if it may be. */
    method ApplyRun(run: RangeCoalescing.Run) returns (ok: bool, ghost fault: bool)
      requires Valid() && RangeCoalescing.WfRun(indexes, run) && run.ordinal < |tasks| && Ranged(Given(), run.ordinal)
      modifies `file, `marked, `cached, `jobs
      ensures Valid() && Grown(Given(), covered, old(marked), marked) && old(jobs) <= jobs
      ensures ok ==> RunSet(Given(), marked, indexes, run)
      ensures ok <==> !fault
    {
      var fetched: bool :| true;
      ok, fault := fetched, !fetched;
      if !fetched {
        return;
      }
      for k := run.lo to run.hi
        invariant Valid() && Grown(Given(), covered, old(marked), marked) && old(jobs) <= jobs
        invariant run.lo < k ==> RunSet(Given(), marked, indexes, Prefix(indexes, run, k))
        invariant ok && !fault
      {
        var decoded: bool :| true;
        if !decoded {
          return false, true;
        }
        ghost var m := marked;
        ok, fault := ApplyFrame(run.ordinal, k);
        if !ok {
          return;
        }
        Missed();
        PrefixSet(Given(), m, marked, indexes, run, k);
      }
    }

    /** Fetch and apply byte ranges, one after the other. */
    method ApplyRuns(runs: seq<RangeCoalescing.Run>) returns (ok: bool, ghost fault: bool)
      requires Valid() && Appliable(Given(), indexes, runs)
      modifies `file, `marked, `cached, `jobs
      ensures Valid() && Grown(Given(), covered, old(marked), marked) && old(jobs) <= jobs
      ensures ok ==> RunsSet(Given(), marked, indexes, runs, |runs|)
      ensures (ok <==> !fault) && (runs == [] ==> ok)
    {
      ok, fault := true, false;
      for r := 0 to |runs|
        invariant Valid() && Grown(Given(), covered, old(marked), marked) && old(jobs) <= jobs
        invariant RunsSet(Given(), marked, indexes, runs, r) && ok && !fault
      {
        ok, fault := ApplyNext(runs, r);
        if !ok {
          return;
        }
      }
    }

    method ApplyNext(runs: seq<RangeCoalescing.Run>, r: nat) returns (ok: bool, ghost fault: bool)
      requires Valid() && Appliable(Given(), indexes, runs) && r < |runs| && RunsSet(Given(), marked, indexes, runs, r)
      modifies `file, `marked, `cached, `jobs
      ensures Valid() && Grown(Given(), covered, old(marked), marked) && old(jobs) <= jobs
      ensures ok ==> RunsSet(Given(), marked, indexes, runs, r + 1)
      ensures ok <==> !fault
    {
      ghost var m := marked;
      ok, fault := ApplyRun(runs[r]);
      StaySet(Given(), m, marked, indexes, runs, r);
    }

    /** Fetch missing pages with as few byte ranges as the window allows. */
    method FetchPages(requests: seq<RangeCoalescing.Request>) returns (ok: bool, ghost fault: bool)
      requires Valid() && RangeCoalescing.WfRequests(indexes, requests) && forall i :: 0 <= i < |requests| ==>
        Owns(Given(), requests[i])
      modifies `file, `marked, `cached, `jobs
      ensures Valid() && Grown(Given(), covered, old(marked), marked) && old(jobs) <= jobs
      ensures ok ==> forall i :: 0 <= i < |requests| && 1 <= requests[i].page <= pages ==> requests[i].page in marked
      ensures (ok <==> !fault) && (requests == [] ==> ok)
    {
      var runs := RangeCoalescing.Coalesce(indexes, window, requests);
      RunsAppliable(Given(), indexes, runs, requests);
      if runs != [] {
        assert runs[0].ordinal in RangeCoalescing.Segments(requests);
      }
      ok, fault := ApplyRuns(runs);
      if ok {
        RequestsSet(Given(), marked, indexes, runs, requests);
      }
    }

    /** Fetch the missing pages of a range that are served by byte range. */
    method HydrateInline(first: nat, last: nat, aware: bool) returns (ok: bool, ghost fault: bool)
      requires Valid() && !broken && 1 <= first && last <= pages
      modifies `file, `marked, `cached, `jobs
      ensures Valid() && Grown(Given(), covered, old(marked), marked) && old(jobs) <= jobs
      ensures ok ==> forall p :: first <= p <= last ==> Settled(Given(), marked, jobs, aware, p)
      ensures ok <==> !fault
      ensures AllReady(old(marked), first, last) ==> ok
    {
      if !ranges || tasks == [] {
        return true, false;
      }
      var requests := Collect(first, last, aware);
      RightRequests(Given(), indexes, requests, first + last + 1);
      ghost var m, js := marked, jobs;
      if requests != [] {
        assert Owns(Given(), requests[0]);
        assert requests[0].page !in old(marked);
        assert !Ready(old(marked), requests[0].page);
      }
      ok, fault := FetchPages(requests);
      StaySettled(Given(), m, marked, js, jobs, aware);
      forall p | ok && first <= p <= last ensures Settled(Given(), marked, jobs, aware, p) {
        if Asked(requests, p) {
          var i :| 0 <= i < |requests| && requests[i].page == p;
        }
      }
    }

    /** Pass the turn of a segment that is fetched by byte range. */
    method SkipTurn()
      requires Valid() && !broken && nextApply < |tasks| && Ranged(Given(), nextApply)
      modifies `nextApply
      ensures Valid() && nextApply == old(nextApply) + 1 && Since(Given(), covered, old(Now()), Now(), false)
    {
      RemainsSkip(Given(), session, nextApply);
      TurnSound(Given(), Seen(), nextApply);
      AppliedSound(Given(), Seen(), nextApply);
      nextApply := nextApply + 1;
    }

    /** Apply the segment whose turn it is, once it was fetched. */
    method TakeTurn(sync: bool) returns (ok: bool, ghost fault: bool)
      requires Valid() && !broken && nextApply < |tasks| && !Ranged(Given(), nextApply)
      modifies `file, `marked, `cached, `states, `jobs, `failed, `broken, `nextApply, `session
      ensures Intact() && (broken ==> !ok)
      ensures Since(Given(), covered, old(Now()), Now(), fault)
      ensures ok ==> nextApply == old(nextApply) + 1
      ensures !ok ==> fault || old(failed)
    {
      var i := nextApply;
      fault := false;
      SinceQuiet(Given(), covered, Now(), Now(), false);
      if states[i] == Idle || states[i] == Fetching {
        ok, fault := AwaitTask(i, sync);
        if !ok {
          return;
        }
      }
      if states[i] != Fetched {
        ok := false;
        return;
      }
      ghost var mid, f := Now(), fault;
      ok, fault := FinishTurn();
      SinceThen(Given(), covered, old(Now()), mid, Now(), f, fault);
      fault := f || fault;
    }

    /** Apply a segment that was fetched. */
    method FinishTurn() returns (ok: bool, ghost fault: bool)
      requires Valid() && !broken && nextApply < |tasks| && !Ranged(Given(), nextApply) && states[nextApply] == Fetched
      modifies `file, `marked, `cached, `states, `jobs, `broken, `nextApply, `session
      ensures Intact() && (broken ==> !ok) && (ok <==> !fault)
      ensures Since(Given(), covered, old(Now()), Now(), fault)
      ensures ok ==> nextApply == old(nextApply) + 1
    {
      var i := nextApply;
      ok, fault := ApplySegment(i);
      if !ok {
        return;
      }
      states := states[i := Applied];
      nextApply := i + 1;
      RemainsTurn(Given(), old(session), session, i);
    }

    /** Apply every segment up to an ordinal, in order. */
    method ApplyUpTo(ordinal: nat, sync: bool) returns (ok: bool, ghost fault: bool)
      requires Valid() && !broken && ordinal < |tasks|
      modifies `file, `marked, `cached, `states, `jobs, `failed, `broken, `nextApply, `session
      ensures Intact() && (broken ==> !ok)
      ensures Since(Given(), covered, old(Now()), Now(), fault)
      ensures ok ==> ordinal < nextApply
      ensures !ok ==> fault || old(failed)
    {
      ok, fault := true, false;
      SinceQuiet(Given(), covered, Now(), Now(), false);
      while nextApply <= ordinal
        invariant Valid() && !broken && ok && Since(Given(), covered, old(Now()), Now(), fault)
        decreases ordinal - nextApply
      {
        ghost var mid, f := Now(), false;
        if ranges && tasks[nextApply].ranged {
          SkipTurn();
        } else {
          ok, f := TakeTurn(sync);
        }
        SinceThen(Given(), covered, old(Now()), mid, Now(), fault, f);
        fault := fault || f;
        if !ok {
          return;
        }
      }
    }

    /** Make one page of the image readable. */
    method HydratePage(page: nat, sync: bool) returns (ok: bool, ghost fault: bool)
      requires Valid() && !broken && 1 <= page <= pages
      modifies `file, `marked, `cached, `states, `jobs, `failed, `broken, `nextApply, `session
      ensures Intact() && (broken ==> !ok)
      ensures Since(Given(), covered, old(Now()), Now(), fault)
      ensures ok ==> page in marked
      ensures Ready(old(marked), page) ==> ok && !fault
      ensures !ok && Taken(Given(), old(marked), old(jobs), page) ==>
        fault || old(failed) || Missing(old(marked), page)
    {
      fault := false;
      if !ranges {
        ok := ResolveCached(page);
        if ok {
          SinceQuiet(Given(), covered, old(Now()), Now(), false);
          return;
        }
      }
      SinceQuiet(Given(), covered, old(Now()), Now(), false);
      ok := page in marked;
      if ok {
        return;
      }
      ghost var mid := Now();
      ok, fault := HydrateUnset(page, sync);
      SinceThen(Given(), covered, old(Now()), mid, Now(), false, fault);
      if Taken(Given(), old(marked), old(jobs), page) {
        StaysTaken(Given(), old(marked), mid.marked, old(jobs), mid.jobs, page);
      }
    }

    /** A page that is not set: from the checkpoint image or from its owner. */
    method HydrateUnset(page: nat, sync: bool) returns (ok: bool, ghost fault: bool)
      requires Valid() && !broken && 1 <= page <= pages
      modifies `file, `marked, `cached, `states, `jobs, `failed, `broken, `nextApply, `session
      ensures Intact() && (broken ==> !ok)
      ensures Since(Given(), covered, old(Now()), Now(), fault)
      ensures ok ==> page in marked
      ensures Claimant(tasks, page).None? ==> !fault && (ok <==> page <= covered)
      ensures !ok && Taken(Given(), old(marked), old(jobs), page) ==>
        fault || old(failed) || Claimant(tasks, page).None?
    {
      var owner := Resolve(chain, page);
      if owner.None? {
        fault := false;
        ok := HydrateBase(page);
        SinceQuiet(Given(), covered, old(Now()), Now(), false);
      } else {
        ok, fault := HydrateOwned(page, owner.value, sync);
      }
    }

    /** A page that no segment claims comes with the checkpoint image or not at all. */
    method HydrateBase(page: nat) returns (ok: bool)
      requires Valid() && 1 <= page <= pages && Claimant(tasks, page).None?
      modifies `marked, `jobs
      ensures Valid() && Grown(Given(), covered, old(marked), marked) && old(jobs) <= jobs
      ensures (ok <==> page <= covered) && (ok ==> page in marked)
    {
      if covered != 0 && page <= covered {
        MarkBase(page);
        Missed();
        return true;
      }
      return false;
    }

    /** A page of a segment, whichever way the segment is fetched. */
    method HydrateOwned(page: nat, owner: nat, sync: bool) returns (ok: bool, ghost fault: bool)
      requires Valid() && !broken && 1 <= page <= pages && Claimant(tasks, page) == Some(owner)
      modifies `file, `marked, `cached, `states, `jobs, `failed, `broken, `nextApply, `session
      ensures Intact() && (broken ==> !ok)
      ensures Since(Given(), covered, old(Now()), Now(), fault)
      ensures ok ==> page in marked
      ensures !ok && Taken(Given(), old(marked), old(jobs), page) ==> fault || old(failed)
    {
      if ranges && tasks[owner].ranged {
        ok, fault := HydrateRanged(page, owner);
      } else {
        ok, fault := HydrateWhole(page, owner, sync);
      }
    }

    /** A page of a segment that is fetched whole: apply every segment up to it. */
    method HydrateWhole(page: nat, owner: nat, sync: bool) returns (ok: bool, ghost fault: bool)
      requires Valid() && !broken && 1 <= page <= pages && Claimant(tasks, page) == Some(owner) &&
        !Ranged(Given(), owner)
      modifies `file, `marked, `cached, `states, `jobs, `failed, `broken, `nextApply, `session
      ensures Intact() && (broken ==> !ok)
      ensures Since(Given(), covered, old(Now()), Now(), fault)
      ensures ok ==> page in marked
      ensures !ok ==> fault || old(failed)
    {
      ok, fault := AwaitTask(owner, sync);
      if ok {
        ghost var mid, f := Now(), fault;
        ok, fault := ApplyUpTo(owner, sync);
        SinceThen(Given(), covered, old(Now()), mid, Now(), f, fault);
        fault := f || fault;
        if ok {
          assert OwnedSet(Given(), marked, owner);
        }
      }
    }

    /**
     A page of a read-ahead window: wait for the window, then fetch the page itself if it is still covered.
     An unset page that no window covers any more is not fetched: the read fails.
     */
    method HydrateRanged(page: nat, owner: nat) returns (ok: bool, ghost fault: bool)
      requires Valid() && !broken && 1 <= page <= pages && Claimant(tasks, page) == Some(owner) &&
        Ranged(Given(), owner)
      modifies `file, `marked, `cached, `states, `jobs, `failed
      ensures Valid() && !broken && Since(Given(), covered, old(Now()), Now(), fault)
      ensures ok ==> page in marked
      ensures !ok ==> fault || !Taken(Given(), old(marked), old(jobs), page)
      ensures page !in old(marked) && !InWindow(old(jobs), owner, page) ==> !ok
    {
      fault := false;
      SinceQuiet(Given(), covered, Now(), Now(), false);
      var busy := Covered(owner, page);
      if busy {
        fault := Wait();
      }
      ok := page in marked;
      if ok {
        return;
      }
      if !fault && Taken(Given(), old(marked), old(jobs), page) {
        StaysTaken(Given(), old(marked), marked, old(jobs), jobs, page);
        StillActive(Given(), marked, jobs, owner, page);
      }
      busy := Covered(owner, page);
      if busy {
        ghost var mid, f := Now(), fault;
        ok, fault := FetchCovered(page, owner);
        SinceThen(Given(), covered, old(Now()), mid, Now(), f, fault);
        fault := f || fault;
      }
    }

    /** Fetch one page, whether a window has it or not. */
    method FetchCovered(page: nat, owner: nat) returns (ok: bool, ghost fault: bool)
      requires Valid() && !broken && 1 <= page <= pages && Claimant(tasks, page) == Some(owner) &&
        Ranged(Given(), owner)
      modifies `file, `marked, `cached, `jobs
      ensures Valid() && Since(Given(), covered, old(Now()), Now(), fault)
      ensures (ok <==> !fault) && (ok ==> page in marked)
    {
      ok, fault := HydrateInline(page, page, false);
      SinceQuiet(Given(), covered, old(Now()), Now(), fault);
      assert ok ==> Settled(Given(), marked, jobs, false, page);
      ok := ok && page in marked;
    }

    /** Make the pages of a range readable, one after the other. */
    method HydratePages(first: nat, last: nat, sync: bool) returns (ok: bool, ghost fault: bool)
      requires Valid() && !broken && 1 <= first && last <= pages
      modifies `file, `marked, `cached, `states, `jobs, `failed, `broken, `nextApply, `session
      ensures Intact() && (broken ==> !ok)
      ensures Since(Given(), covered, old(Now()), Now(), fault)
      ensures ok ==> RangeSet(marked, first, last + 1)
      ensures Explained(old(Now()), first, last, ok, fault)
    {
      ok, fault := true, false;
      var page := first;
      SinceQuiet(Given(), covered, Now(), Now(), false);
      while page <= last
        invariant first <= page && Valid() && !broken && ok && RangeSet(marked, first, page)
        invariant Since(Given(), covered, old(Now()), Now(), fault)
        invariant Explained(old(Now()), first, last, true, fault)
      {
        ok, fault := HydrateNext(page, sync, old(Now()), first, last, fault);
        if !ok {
          return;
        }
        page := page + 1;
      }
    }

    /** The next page of a range that was begun at an earlier moment. */
    method HydrateNext(page: nat, sync: bool, ghost start: Moment<P>, ghost first: nat, ghost last: nat, ghost f: bool)
      returns (ok: bool, ghost fault: bool)
      requires Valid() && !broken && 1 <= page <= pages && first <= page <= last
      requires Since(Given(), covered, start, Now(), f) && Explained(start, first, last, true, f)
      requires RangeSet(marked, first, page)
      modifies `file, `marked, `cached, `states, `jobs, `failed, `broken, `nextApply, `session
      ensures Intact() && (broken ==> !ok)
      ensures Since(Given(), covered, start, Now(), fault)
      ensures ok ==> RangeSet(marked, first, page + 1)
      ensures Explained(start, first, last, ok, fault)
    {
      ok, fault := HydratePage(page, sync);
      SinceThen(Given(), covered, start, old(Now()), Now(), f, fault);
      WhyNot(start, old(Now()), first, last, page, f, fault, ok);
      fault := f || fault;
    }

    ghost predicate RangeSet(present: set<nat>, first: nat, end: nat) {
      forall p :: first <= p < end ==> p in present
    }

    ghost predicate AllReady(present: set<nat>, first: nat, last: nat) {
      forall p :: first <= p <= last ==> Ready(present, p)
    }

    ghost predicate AllTaken(at: Moment<P>, first: nat, last: nat) {
      forall p :: first <= p <= last ==> Taken(Given(), at.marked, at.jobs, p)
    }

    ghost predicate SomeMissing(present: set<nat>, first: nat, last: nat) {
      exists p :: first <= p <= last && Missing(present, p)
    }

    /**
     What a range that was begun at a given moment may come to: where all is ready it succeeds without a fault,
     and where every page was taken care of it only fails for one, for an earlier failure or for a missing page.
     */
    ghost predicate Explained(start: Moment<P>, first: nat, last: nat, ok: bool, fault: bool) {
      && (AllReady(start.marked, first, last) ==> ok && !fault)
      && (!ok && AllTaken(start, first, last) ==> fault || start.failed || SomeMissing(start.marked, first, last))
    }

    /** What became of a page, traced back to the beginning. */
    lemma WhyNot(start: Moment<P>, mid: Moment<P>, first: nat, last: nat, page: nat, f: bool, fault: bool, ok: bool)
      requires Since(Given(), covered, start, mid, f) && first <= page <= last && Explained(start, first, last, true, f)
      requires Ready(mid.marked, page) ==> ok && !fault
      requires !ok && Taken(Given(), mid.marked, mid.jobs, page) ==> fault || mid.failed || Missing(mid.marked, page)
      ensures Explained(start, first, last, ok, f || fault)
    {
      assert Ready(start.marked, page) ==> Ready(mid.marked, page);
      if !ok && AllTaken(start, first, last) && !f && !fault && !start.failed {
        StaysTaken(Given(), start.marked, mid.marked, start.jobs, mid.jobs, page);
        assert Missing(start.marked, page);
      }
    }

    /**
     Make a range of pages readable. On success every page of the range, clamped to the database,
     is set and holds the session's bytes or those of the chain. Of the session's writes exactly those
     to pages whose owner had its turn are gone. Without a fault the call succeeds exactly when every page
     was set, or has an owner, or is covered by the checkpoint.
     */
    method HydrateRange(from: nat, to: nat, sync: bool) returns (ok: bool, ghost fault: bool)
      requires Valid()
      modifies `file, `marked, `cached, `states, `jobs, `failed, `broken, `nextApply, `session
      ensures Valid() && Grown(Given(), covered, old(marked), marked) && (old(failed) ==> failed)
      ensures ok ==> forall p :: from <= p <= to && 1 <= p <= pages ==>
        p in marked && p in file && RightAt(Given(), Seen(), p)
      ensures old(nextApply) <= nextApply &&
        (!broken ==> Remains(Given(), old(session), session, old(nextApply), nextApply))
      ensures var first, last := First(from), Last(to);
        && (first > to ==> ok)
        && (first <= to && (old(failed) || pages >= MAX_PAGES) ==> !ok)
        && (first <= to && !old(failed) && pages < MAX_PAGES ==>
            && (ok ==> !SomeMissing(old(marked), first, last))
            && (!ok ==> fault || SomeMissing(old(marked), first, last))
            && (AllReady(old(marked), first, last) ==> ok))
    {
      var first := First(from);
      fault := false;
      SinceQuiet(Given(), covered, Now(), Now(), false);
      if first > to {
        return true, fault;
      }
      if failed || pages >= MAX_PAGES {
        return false, fault;
      }
      ok, fault := HydrateClamped(first, Last(to), sync);
      if !ok {
        failed := true;
      }
      forall p | ok && from <= p <= to && 1 <= p <= pages ensures p in file && RightAt(Given(), Seen(), p) {
        Readable(Given(), Seen(), nextApply, nextApply, p);
      }
    }

    /** Pages are counted from one, and the range ends with the database. */
    function First(from: nat): nat { if from == 0 then 1 else from }

    function Last(to: nat): nat { if to > pages then pages else to }

    /** The byte ranges first, then page by page. */
    method HydrateClamped(first: nat, last: nat, sync: bool) returns (ok: bool, ghost fault: bool)
      requires Valid() && !failed && 1 <= first && last <= pages
      modifies `file, `marked, `cached, `states, `jobs, `failed, `broken, `nextApply, `session
      ensures Intact() && (broken ==> !ok)
      ensures Since(Given(), covered, old(Now()), Now(), fault)
      ensures ok ==> RangeSet(marked, first, last + 1)
      ensures AllReady(old(marked), first, last) ==> ok && !fault
      ensures !ok ==> fault || SomeMissing(old(marked), first, last)
    {
      ok, fault := HydrateInline(first, last, true);
      SinceQuiet(Given(), covered, old(Now()), Now(), fault);
      if ok {
        ghost var mid := Now();
        forall p | first <= p <= last ensures Taken(Given(), marked, jobs, p) {
          SettledIsTaken(Given(), marked, jobs, true, p);
        }
        ok, fault := HydratePages(first, last, sync);
        SinceThen(Given(), covered, old(Now()), mid, Now(), false, fault);
        MissingBefore(old(marked), mid.marked, first, last);
      }
    }

    lemma MissingBefore(before: set<nat>, after: set<nat>, first: nat, last: nat)
      requires before <= after
      ensures SomeMissing(after, first, last) ==> SomeMissing(before, first, last)
      ensures AllReady(before, first, last) ==> AllReady(after, first, last)
    {
      if SomeMissing(after, first, last) {
        var p :| first <= p <= last && Missing(after, p);
        assert Missing(before, p);
      }
      forall p | AllReady(before, first, last) && first <= p <= last ensures Ready(after, p) {
        assert Ready(before, p);
      }
    }

    /**
     A reader of a set page sees what the session wrote there, and otherwise what replaying the whole
     chain over the checkpoint image gives, exactly where the chain is unambiguous.
     */
    lemma ReadsReplay(p: nat)
      requires Valid() && !broken && p in marked
      ensures p in file
      ensures p in session ==> file[p] == session[p]
      ensures p !in session ==> (Lookup(Replay(chain, base), p) == Some(file[p]) <==> Unambiguous(chain, p))
    {
      Readable(Given(), Seen(), nextApply, nextApply, p);
      LookupIsReplay(chain, base, p);
    }
  }

  // ---- what becomes of a write ----

  lemma WriteFate<P>(c: Setup<P>, v: View<P>, written: map<nat, P>, from: nat, to: nat, p: nat, data: P)
    requires Sound(c, v, to, to) && !v.broken && p in v.marked && p in written && written[p] == data
    requires Remains(c, written, v.session, from, to)
    requires Claimant(c.tasks, p).Some? && Frame(c.tasks[Claimant(c.tasks, p).value], p) != data
    ensures Lookup(v.file, p) == Some(data) <==> !TurnTaken(c, from, to, p)
  {
    Readable(c, v, to, to, p);
    assert Lookup(v.session, p) == if TurnTaken(c, from, to, p) then None else Some(data);
  }

  /**
   The session writes bytes that are not the owner's, and then the owner has its turn: the write is
   still there if and only if the owner was not pending when it was made.
   */
  method WriteThenTurn<P>(h: Hydrator<P>, p: nat, data: P, sync: bool) returns (ok: bool, ghost fault: bool)
    requires h.Valid() && !h.broken && 1 <= p <= h.pages && Claimant(h.tasks, p).Some?
    requires Frame(h.tasks[Claimant(h.tasks, p).value], p) != data
    modifies h
    ensures ok ==> (Lookup(h.file, p) == Some(data) <==> !old(OwnerPending(h.Given(), h.nextApply, p)))
    ensures !ok ==> fault || old(h.failed)
  {
    h.SessionWrite(p, data);
    ghost var written, from := h.session, h.nextApply;
    var owner := Resolve(h.chain, p);
    ok, fault := h.ApplyUpTo(owner.value, sync);
    if ok {
      WriteFate(h.Given(), h.Seen(), written, from, h.nextApply, p, data);
    }
  }

  /** A page that was never read is written, and its segment is applied: the segment's bytes are there. */
  method BlindWriteIsLost() returns (ok: bool, shown: Option<char>, ghost fault: bool)
    ensures ok ==> shown == Some('s')
    ensures ok <==> !fault
  {
    var s := Segment([1], ['s'], false);
    FrameAt(s, 0);
    assert Known([s]) == [s];
    assert [[s]][1..] == [] && Tasks([[s]]) == [s];
    var h := new Hydrator([[s]], [s], map[], 1, 0, false, [RangeCoalescing.Index([1], [0], 1)], 0);
    assert Claimant(h.tasks, 1) == Some(0);
    h.SessionWrite(1, 'w');
    ok, fault := h.ApplySegment(0);
    shown := if 1 in h.file then Some(h.file[1]) else None;
  }

  /**
   No window has the page any more, as after a window was dropped: the read fails, although a fetch of the
   page, made next, succeeds unless it meets a fault.
   */
  method DroppedIsNotFetched() returns (ok: bool, fetched: bool, ghost fault: bool)
    ensures !ok && (fetched <==> !fault)
  {
    var s := Segment([1], ['s'], true);
    FrameAt(s, 0);
    assert Known([s]) == [s];
    assert [[s]][1..] == [] && Tasks([[s]]) == [s];
    var h := new Hydrator([[s]], [s], map[], 1, 0, true, [RangeCoalescing.Index([1], [0], 1)], 0);
    assert Claimant(h.tasks, 1) == Some(0);
    ghost var dropped;
    ok, dropped := h.HydrateRanged(1, 0);
    fetched, fault := h.HydrateInline(1, 1, false);
  }
}

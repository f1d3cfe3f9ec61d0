/**
 Verdicts about commits, over whole runs of the publish protocol. A call reads the stores of states
 that follow one another, with any steps of anybody in between.
 */
module ResolveTheorems {
  import opened Prelude
  import opened CommitChain
  import opened PublishProtocol
  import opened PublishSafety
  import opened PublishTheorems
  import opened PublishRuns
  import R = ResolveCommit
  import C = ConflictDetection

  /** The states at the GETs of a call, in order. */
  type States = nat -> State

  ghost predicate Ordered(states: States) {
    Reachable(states(0)) && forall m, n :: 0 <= m <= n ==> Reaches(states(m), states(n))
  }

  ghost function Stores(states: States): R.View {
    (n: nat) => states(n).store
  }

  /** Where the commit of a manifest can be on a chain when every id has one generation: right above its parent. */
  lemma OnlyAbove(chain: seq<Manifest>, built: set<Manifest>, m: Manifest, i: nat)
    requires Linked(chain) && ChainBuilt(chain, built) && OneGenerationPerId(built) && m in built
    requires i < |chain| && chain[i].commitId == m.commitId
    ensures chain[i].generation == m.generation == |chain| - i
  {
    assert LinkedAt(chain, i);
  }

  /** With one generation per id, being on the chain is being at one particular place. */
  ghost predicate InPlace(chain: seq<Manifest>, m: Manifest) {
    1 <= m.generation <= |chain| && chain[|chain| - m.generation].commitId == m.commitId
  }

  lemma OnChainInPlace(chain: seq<Manifest>, built: set<Manifest>, m: Manifest, parent: nat)
    requires Linked(chain) && ChainBuilt(chain, built) && OneGenerationPerId(built) && m in built
    requires m.generation == parent + 1
    ensures R.OnChain(chain, m.commitId, parent) <==> InPlace(chain, m)
  {
    if R.OnChain(chain, m.commitId, parent) {
      var i :| R.OnChainAt(chain, m.commitId, parent, i);
      OnlyAbove(chain, built, m, i);
    }
    if InPlace(chain, m) {
      assert LinkedAt(chain, |chain| - m.generation);
      assert R.OnChainAt(chain, m.commitId, parent, |chain| - m.generation);
    }
  }

  lemma PlaceKept(longer: seq<Manifest>, tail: seq<Manifest>, m: Manifest)
    requires EndsWith(longer, tail)
    ensures InPlace(tail, m) ==> InPlace(longer, m)
    ensures 1 <= m.generation <= |tail| && InPlace(longer, m) ==> InPlace(tail, m)
  {
    if 1 <= m.generation <= |tail| {
      EndsWithAt(longer, tail, |tail| - m.generation);
    }
  }

  lemma AttemptPlace(s: State, a: nat, r: Request)
    requires Reachable(s) && s.uniqueIds && a in s.attempts && r == s.attempts[a].request
    ensures R.OnChain(s.chain, r.commitId, ParentGeneration(r)) <==> InPlace(s.chain, ManifestOf(r))
    ensures ManifestOf(r).generation == ParentGeneration(r) + 1
  {
    ReachableInv(s);
    AttemptBuilt(s, a);
    OnChainInPlace(s.chain, s.built, ManifestOf(r), ParentGeneration(r));
  }

  lemma AttemptStays(s: State, t: State, a: nat)
    requires Reachable(s) && Reaches(s, t) && a in s.attempts
    ensures a in t.attempts && t.attempts[a].request == s.attempts[a].request && t.uniqueIds == s.uniqueIds
    ensures Reachable(t)
  {
    ReachableThen(s, t);
    ReachableInv(s);
    ReachesKeeps(s, t);
  }

  /** The truth about a commit, once it is committed or superseded, never changes. */
  lemma VerdictsArePermanent(s: State, t: State, a: nat)
    requires Reachable(s) && Reaches(s, t) && s.uniqueIds && a in s.attempts
    ensures HeadSound(s.store) && HeadSound(t.store)
    ensures var r := s.attempts[a].request;
      var before := R.Verdict(Chain(s.store), r.commitId, ParentGeneration(r));
      var after := R.Verdict(Chain(t.store), r.commitId, ParentGeneration(r));
      before.NotCommitted? || after == before
  {
    var r := s.attempts[a].request;
    Spelled(s, t);
    AttemptStays(s, t, a);
    AttemptPlace(s, a, r);
    AttemptPlace(t, a, r);
    PlaceKept(t.chain, s.chain, ManifestOf(r));
  }

  lemma AttemptBuilt(s: State, a: nat)
    requires Inv(s) && a in s.attempts
    ensures var r := s.attempts[a].request;
      ValidRequest(r) && ManifestOf(r) in s.built && ManifestOf(r).generation == ParentGeneration(r) + 1 &&
        ManifestOf(r).commitId == r.commitId
  {
    assert RequestSound(s.chain, s.built, s.attempts[a].request);
  }

  lemma OnChainKept(longer: seq<Manifest>, tail: seq<Manifest>, id: string, parent: nat)
    requires EndsWith(longer, tail) && Linked(tail) && parent <= |tail| && R.OnChain(tail, id, parent)
    ensures R.OnChain(longer, id, parent)
  {
    var i :| R.OnChainAt(tail, id, parent, i);
    assert LinkedAt(tail, i);
    EndsWithAt(longer, tail, i);
    assert R.OnChainAt(longer, id, parent, |longer| - |tail| + i);
  }

  /** What the call reported about an attempt that had begun before. */
  ghost predicate Reports(states: States, a: nat, state: R.CommitState) {
    && Ordered(states) && a in states(0).attempts
    && var r := states(0).attempts[a].request;
       R.Resolution(Stores(states), r.commitId, ParentGeneration(r)).state == state
  }

  /** A reported COMMITTED is true when HEAD was read, and true for ever, whatever happened between the reads. */
  lemma CommittedIsForever(states: States, t: State, a: nat)
    requires Reports(states, a, R.Committed) && Reaches(states(0), t)
    ensures HeadSound(t.store)
    ensures var r := states(0).attempts[a].request; R.OnChain(Chain(t.store), r.commitId, ParentGeneration(r))
  {
    var s := states(0);
    var r := s.attempts[a].request;
    Spelled(s, t);
    assert r.commitId != "" && ParentGeneration(r) <= |s.chain| && Linked(s.chain) by {
      ReachableInv(s);
      assert RequestSound(s.chain, s.built, r);
    }
    R.ResolutionJustified(Stores(states), r.commitId, ParentGeneration(r));
    OnChainKept(t.chain, s.chain, r.commitId, ParentGeneration(r));
  }

  /** Both stores spell out the recorded chains, and the earlier one is a tail of the later. */
  lemma Spelled(s: State, t: State)
    requires Reachable(s) && Reaches(s, t)
    ensures HeadSound(s.store) && Chain(s.store) == s.chain && HeadSound(t.store) && Chain(t.store) == t.chain
    ensures EndsWith(t.chain, s.chain)
  {
    ReachableInv(s);
    ReachesKeeps(s, t);
    StoreSpellsChain(s);
    StoreSpellsChain(t);
  }

  /** A writer that was reported SUPERSEDED never gets its HEAD swap in later, whatever was swept or is published. */
  lemma SupersededNeverLands(states: States, t: State, a: nat)
    requires Reports(states, a, R.Superseded) && Reaches(states(0), t)
    ensures !CanDeliver(t, Put(a, HeadPart))
  {
    var s := states(0);
    var r := s.attempts[a].request;
    Spelled(s, t);
    assert r.commitId != "" by { ReachableInv(s); AttemptBuilt(s, a); }
    R.ResolutionJustified(Stores(states), r.commitId, ParentGeneration(r));
    assert Stale(s, r.parent) by {
      ReachableInv(s);
      HeadGeneration(s.store, s.chain);
    }
    OvertakenNeverLands(s, t, a);
  }

  /** The guard a caller has: no intact checkpoint it could read is more than two above the parent. */
  ghost predicate Uncovered(view: R.View, parent: nat)
    requires HeadSound(view(0))
  {
    forall n: nat :: R.ResolveCovered(view, n, |Chain(view(0))|).Some? ==>
      R.ResolveCovered(view, n, |Chain(view(0))|).value <= parent + 2
  }

  /** A commit that landed above its parent is not hidden from a walk under that guard. */
  lemma LandedNotHidden(view: R.View, m: Manifest, parent: nat, i: nat)
    requires HeadSound(view(0)) && Uncovered(view, parent) && R.DistinctIds(Chain(view(0)))
    requires i < |Chain(view(0))| && Chain(view(0))[i] == m && m.generation == parent + 1
    ensures R.OnChain(Chain(view(0)), m.commitId, parent) && !R.Hidden(view, m.commitId, parent)
  {
    assert R.OnChainAt(Chain(view(0)), m.commitId, parent, i);
    forall j: nat | R.OnChainAt(Chain(view(0)), m.commitId, parent, j) ensures j == i {
    }
  }

  lemma ReachableIds(s: State)
    requires Inv(s)
    ensures R.DistinctIds(s.chain)
  {
    forall i | 0 <= i < |s.chain| ensures s.chain[i].commitId != "" {
      assert s.chain[i] in s.built;
    }
    forall i, j | 0 <= i < j < |s.chain| ensures s.chain[i].commitId != s.chain[j].commitId {
      IdsDistinct(s, i, j);
    }
  }

  lemma PlaceTaken(longer: seq<Manifest>, tail: seq<Manifest>, m: Manifest)
    requires EndsWith(longer, tail) && Linked(longer) && m in longer && m.generation <= |tail|
    ensures m in tail
  {
    var i :| 0 <= i < |longer| && longer[i] == m;
    assert LinkedAt(longer, i);
    EndsWithAt(longer, tail, |tail| - m.generation);
  }

  /**
   A reported SUPERSEDED is true, and true for ever, if no intact checkpoint is more than two above
   the parent: the manifest is on no later chain, and with one generation per id neither is the id.
   */
  lemma SupersededIsForever(states: States, t: State, a: nat)
    requires Reports(states, a, R.Superseded) && Reaches(states(0), t) && HeadSound(states(0).store)
    requires Uncovered(Stores(states), ParentGeneration(states(0).attempts[a].request))
    ensures HeadSound(t.store) && ManifestOf(states(0).attempts[a].request) !in Chain(t.store)
    ensures states(0).uniqueIds ==>
      var r := states(0).attempts[a].request; !R.OnChain(Chain(t.store), r.commitId, ParentGeneration(r))
  {
    var s := states(0);
    var r := s.attempts[a].request;
    var m, parent := ManifestOf(r), ParentGeneration(r);
    Spelled(s, t);
    assert r.commitId != "" && m.generation == parent + 1 && m.commitId == r.commitId && R.DistinctIds(s.chain) by {
      ReachableInv(s);
      AttemptBuilt(s, a);
      ReachableIds(s);
    }
    R.ResolutionJustified(Stores(states), r.commitId, parent);
    if i: nat :| i < |s.chain| && s.chain[i] == m {
      LandedNotHidden(Stores(states), m, parent, i);
    }
    assert Linked(t.chain) by {
      ReachableInv(s);
      ReachesKeeps(s, t);
    }
    if m in t.chain {
      PlaceTaken(t.chain, s.chain, m);
    }
    if s.uniqueIds {
      SupersededId(states, t, a);
    }
  }

  lemma SupersededId(states: States, t: State, a: nat)
    requires Reports(states, a, R.Superseded) && Reaches(states(0), t) && HeadSound(states(0).store)
    requires Uncovered(Stores(states), ParentGeneration(states(0).attempts[a].request)) && states(0).uniqueIds
    ensures HeadSound(t.store)
    ensures var r := states(0).attempts[a].request; !R.OnChain(Chain(t.store), r.commitId, ParentGeneration(r))
  {
    var s := states(0);
    var r := s.attempts[a].request;
    Spelled(s, t);
    assert r.commitId != "" by { ReachableInv(s); AttemptBuilt(s, a); }
    VerdictsArePermanent(s, t, a);
    R.ResolutionJustified(Stores(states), r.commitId, ParentGeneration(r));
    assert !R.Hidden(Stores(states), r.commitId, ParentGeneration(r)) by {
      ReachableInv(s);
      NotHidden(states, a);
    }
  }

  /** The commit of an attempt is not hidden from a walk under the guard. */
  lemma NotHidden(states: States, a: nat)
    requires Inv(states(0)) && states(0).uniqueIds && a in states(0).attempts
    requires HeadSound(states(0).store) && Chain(states(0).store) == states(0).chain
    requires Uncovered(Stores(states), ParentGeneration(states(0).attempts[a].request))
    ensures var r := states(0).attempts[a].request; !R.Hidden(Stores(states), r.commitId, ParentGeneration(r))
  {
    var s := states(0);
    var r := s.attempts[a].request;
    AttemptBuilt(s, a);
    forall i: nat | R.OnChainAt(s.chain, r.commitId, ParentGeneration(r), i)
      ensures s.chain[i].generation == ParentGeneration(r) + 1
    {
      OnlyAbove(s.chain, s.built, ManifestOf(r), i);
    }
  }

  /** A manifest of the chain that was read is there at every later state without sweeps above its generation. */
  lemma StillPresent(s: State, t: State, i: nat)
    requires Reachable(s) && Reaches(s, t) && i < |s.chain| && s.chain[i].generation >= t.swept
    ensures R.Readable(t.store, s.chain[i])
  {
    Spelled(s, t);
    EndsWithAt(t.chain, s.chain, i);
    assert ChainStored(t.store, t.chain, t.swept) by {
      ReachableInv(s);
      ReachesKeeps(s, t);
    }
    assert Present(t.store, s.chain[i]);
  }

  /** While no checkpoint covers more than the parent's next generation, the reported verdict is the exact one. */
  lemma ReachableResolutionExact(states: States, id: string, parent: nat)
    requires Ordered(states) && id != "" && |states(0).chain| - parent < R.MAX_COMMITS
    requires forall n: nat :: states(n).swept <= parent + 1
    ensures HeadSound(states(0).store)
    ensures R.Resolution(Stores(states), id, parent) ==
            R.Outcome(JournalOk, R.Verdict(Chain(states(0).store), id, parent))
  {
    var s, view := states(0), Stores(states);
    Spelled(s, s);
    forall i | 0 <= i < |s.chain| && s.chain[i].generation >= parent + 1 ensures R.ReadableAt(view, i) {
      StillPresent(s, states(i + 1), i);
    }
    R.ResolutionExact(view, id, parent);
  }

  // ---- what a sweep hides ----

  lemma SweptStore(store: Store, chain: seq<Manifest>, w: nat)
    requires ChainStored(store, chain, w) && 2 <= w <= |chain|
    requires Points(store, At(chain, w)) && At(chain, w).generation == w
    requires ManifestKey(At(chain, w - 1).commitId) !in store && HeadSound(store) && Chain(store) == chain
    ensures R.Swept(R.Still(store), w)
  {
    var view := R.Still(store);
    forall i | 0 <= i < |chain| && chain[i].generation >= w ensures R.ReadableAt(view, i) {
      assert Present(store, chain[i]);
    }
  }

  /** On swept history a commit that landed below the generation under the covered one is reported superseded. */
  lemma HiddenCommit(store: Store, h: nat, w: nat)
    requires HeadSound(store) && R.Swept(R.Still(store), w) && R.DistinctIds(Chain(store)) && 1 <= h && h + 2 <= w
    requires |Chain(store)| - (h - 1) < R.MAX_COMMITS
    ensures var id := At(Chain(store), h).commitId;
      && R.Verdict(Chain(store), id, h - 1) == R.Committed
      && R.Resolution(R.Still(store), id, h - 1) == R.Outcome(JournalOk, R.Superseded)
  {
    var chain := Chain(store);
    var i := |chain| - h;
    R.ChainPosition(store, i);
    R.SweptCommit(R.Still(store), h - 1, w, i);
    assert R.OnChainAt(chain, chain[i].commitId, h - 1, i);
  }

  lemma SweptState(s: State, t: State, w: nat)
    requires Reachable(s) && Reaches(s, t) && 2 <= w <= |s.chain| && SweptBelow(s, t, w)
    ensures HeadSound(t.store) && Chain(t.store) == s.chain && R.Swept(R.Still(t.store), w) && R.DistinctIds(s.chain)
  {
    Spelled(s, t);
    assert ChainStored(t.store, t.chain, t.swept) && R.DistinctIds(t.chain) && At(t.chain, w).generation == w by {
      ReachableInv(s);
      ReachesKeeps(s, t);
      ReachableIds(t);
      AtGeneration(t.chain, t.built, w);
    }
    SweptStore(t.store, t.chain, w);
  }

  /** From every state: a commit two or more generations below one not yet covered can be hidden although it landed. */
  lemma LandedIsMisjudged(s: State, h: nat, w: nat, k: nat) returns (t: State)
    requires Reachable(s) && s.uniqueIds && 1 <= h && h + 2 <= w <= |s.chain| && s.swept < w
    requires k !in s.sweeps && |s.chain| - (h - 1) < R.MAX_COMMITS
    ensures Reaches(s, t) && HeadSound(t.store) && Chain(t.store) == s.chain
    ensures R.Verdict(Chain(t.store), At(s.chain, h).commitId, h - 1) == R.Committed
    ensures R.Resolution(R.Still(t.store), At(s.chain, h).commitId, h - 1) == R.Outcome(JournalOk, R.Superseded)
  {
    t := SweepHappens(s, w, k);
    SweptState(s, t, w);
    HiddenCommit(t.store, h, w);
  }

  /** There is a reachable state in which a commit that landed is reported superseded. */
  lemma SweptMisjudges() returns (t: State, m: Manifest)
    ensures Reachable(t) && HeadSound(t.store) && m in Chain(t.store)
    ensures R.Verdict(Chain(t.store), m.commitId, m.parentGeneration) == R.Committed
    ensures R.Resolution(R.Still(t.store), m.commitId, m.parentGeneration) == R.Outcome(JournalOk, R.Superseded)
  {
    var s := ChainsExist([[1], [1], [1]]);
    m := At(s.chain, 1);
    assert m.parentGeneration == 0 by {
      ReachableInv(s);
      assert LinkedAt(s.chain, 2);
    }
    t := LandedIsMisjudged(s, 1, 3, 0);
    ReachableThen(s, t);
  }

  /** A request for page 1 on the first commit of a chain. */
  function LateRequest(base: Manifest): Request {
    Request(Some(HeadFor(base)), Id(9), [SegmentInput([], Some([1]))])
  }

  /** It shares its page with the second commit and not with the third. */
  lemma LateOverlaps(chain: seq<Manifest>, base: Manifest)
    requires Touches(chain, [[1], [1], [2]])
    ensures C.PagesKnown(LateRequest(base))
    ensures C.Overlaps(LateRequest(base), chain[1]) && !C.Overlaps(LateRequest(base), chain[0])
  {
    var r := LateRequest(base);
    assert TouchesAt(chain, [[1], [1], [2]], 1) && TouchesAt(chain, [[1], [1], [2]], 2);
    assert 1 in r.segments[0].pages.value && 1 in chain[1].segments[0].pages;
    assert C.SharesPage(r, chain[1].segments[0]);
  }

  lemma LateIsAbsent(chain: seq<Manifest>, base: Manifest)
    requires forall m :: m in chain ==> |m.commitId| <= 3
    ensures !R.OnChain(chain, LateRequest(base).commitId, 2)
  {
    forall i | 0 <= i < |chain| ensures chain[i].commitId != LateRequest(base).commitId {
      assert chain[i] in chain;
    }
  }

  /** With the first two of three commits swept, the walk is over before it comes to the one that overlaps. */
  lemma LateIsMissed(store: Store, base: Manifest)
    requires HeadSound(store) && R.Swept(R.Still(store), 3) && Touches(Chain(store), [[1], [1], [2]])
    requires base.generation == 1 && forall m :: m in Chain(store) ==> |m.commitId| <= 3
    ensures var r, view := LateRequest(base), R.Still(store);
      && C.PagesKnown(r) && R.Resolution(view, r.commitId, ParentGeneration(r)) == R.Outcome(JournalOk, R.Superseded)
      && (forall overlap :: C.Reported(view, r, overlap) ==> !overlap)
      && C.OverlapsFirst(r, Chain(store), C.Interleaved(Chain(store), ParentGeneration(r)))
  {
    LateOverlaps(Chain(store), base);
    LateIsAbsent(Chain(store), base);
    R.SweptResolution(R.Still(store), LateRequest(base).commitId, 1, 3);
    C.SeenSwept(R.Still(store), 1, 3);
  }

  lemma ThreeCommits() returns (t: State, base: Manifest)
    ensures Reachable(t) && HeadSound(t.store) && R.Swept(R.Still(t.store), 3)
    ensures Touches(Chain(t.store), [[1], [1], [2]]) && base.generation == 1 && base.commitId != ""
    ensures forall m :: m in Chain(t.store) ==> |m.commitId| <= 3
  {
    var s := ChainsExist([[1], [1], [2]]);
    base := At(s.chain, 1);
    t := SweepHappens(s, 3, 0);
    SweptState(s, t, 3);
    ReachableThen(s, t);
    assert base.generation == 1 && base.commitId != "" && forall m :: m in s.chain ==> |m.commitId| <= 3 by {
      ReachableInv(s);
      AtGeneration(s.chain, s.built, 1);
    }
  }

  /**
   There is a reachable state in which a request is reported SUPERSEDED without overlap although a
   commit that overtook it touches its page: that commit was swept.
   */
  lemma OverlapIsMissed() returns (t: State, r: Request)
    ensures Reachable(t) && HeadSound(t.store) && ValidRequest(r) && C.PagesKnown(r)
    ensures R.Resolution(R.Still(t.store), r.commitId, ParentGeneration(r)) == R.Outcome(JournalOk, R.Superseded)
    ensures forall overlap :: C.Reported(R.Still(t.store), r, overlap) ==> !overlap
    ensures C.OverlapsFirst(r, Chain(t.store), C.Interleaved(Chain(t.store), ParentGeneration(r)))
  {
    var base;
    t, base := ThreeCommits();
    LateIsMissed(t.store, base);
    r := LateRequest(base);
  }
}

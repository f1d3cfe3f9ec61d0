/**
 What the publish protocol guarantees over whole runs, in terms of what is in the store:
 the chain of HEAD only grows at its front, its generations are contiguous, its commit ids
 are distinct, everything it needs is stored, no two attempts built on one parent both
 succeed, and a writer whose parent was overtaken never succeeds later.
 */
module PublishTheorems {
  import opened Prelude
  import opened CommitChain
  import opened PublishProtocol
  import opened PublishSafety

  ghost predicate Reachable(s: State) {
    exists uniqueIds :: Reaches(Initial(uniqueIds), s)
  }

  // ---- runs ----

  /** What only ever grows: the chain at its front, the covered generation, and the set of attempts. */
  ghost predicate Later(s: State, t: State) {
    && EndsWith(t.chain, s.chain)
    && s.swept <= t.swept && s.uniqueIds == t.uniqueIds
    && forall a :: a in s.attempts ==> a in t.attempts && t.attempts[a].request == s.attempts[a].request
  }

  lemma {:induction false} RunKeeps(s: State, steps: seq<Step>, t: State)
    requires Inv(s) && Run(s, steps, t)
    ensures Inv(t) && Later(s, t)
    decreases |steps|
  {
    if steps != [] {
      var u := Do(s, steps[0]);
      StepKeeps(s, steps[0]);
      StepExtends(s, steps[0]);
      RunKeeps(u, steps[1..], t);
      EndsWithTransitive(s.chain, u.chain, t.chain);
    }
  }

  lemma ReachableInv(s: State)
    requires Reachable(s)
    ensures Inv(s)
  {
    var uniqueIds :| Reaches(Initial(uniqueIds), s);
    var steps :| Run(Initial(uniqueIds), steps, s);
    InitialInv(uniqueIds);
    RunKeeps(Initial(uniqueIds), steps, s);
  }

  lemma ReachesKeeps(s: State, t: State)
    requires Inv(s) && Reaches(s, t)
    ensures Inv(t) && Later(s, t)
  {
    var steps :| Run(s, steps, t);
    RunKeeps(s, steps, t);
  }

  // ---- the recorded history is the chain the store spells out ----

  lemma {:induction false} LinkedIsHistory(c: seq<Manifest>)
    requires Linked(c) && c != []
    ensures WellLinked(c[0]) && History(c[0]) == c
    decreases |c|
  {
    assert LinkedAt(c, 0);
    if |c| > 1 {
      forall i | 0 <= i < |c[1..]| ensures LinkedAt(c[1..], i) {
        assert LinkedAt(c, i + 1);
      }
      LinkedIsHistory(c[1..]);
      assert LinkedAt(c, 1);
    }
  }

  /** Following digests from the stored HEAD yields exactly the commits that were ever HEAD. */
  lemma StoreSpellsChain(s: State)
    requires Inv(s)
    ensures HeadSound(s.store) && Chain(s.store) == s.chain
  {
    if s.chain != [] {
      LinkedIsHistory(s.chain);
    }
  }

  lemma IdsDistinct(s: State, i: nat, j: nat)
    requires Inv(s) && i < j < |s.chain|
    ensures s.chain[i].commitId != s.chain[j].commitId
  {
    assert LinkedAt(s.chain, i) && LinkedAt(s.chain, j);
    if !s.uniqueIds {
      assert Present(s.store, s.chain[i]) && Present(s.store, s.chain[j]);
    }
  }

  // ---- theorems ----

  /** The shape of the chain in every reachable state. */
  lemma ChainShape(s: State)
    requires Reachable(s)
    ensures HeadSound(s.store)
    ensures forall i :: 0 <= i < |Chain(s.store)| ==> Chain(s.store)[i].generation == |Chain(s.store)| - i
    ensures forall i, j :: 0 <= i < j < |Chain(s.store)| ==> Chain(s.store)[i].commitId != Chain(s.store)[j].commitId
    ensures forall m :: m in Chain(s.store) && m.generation >= s.swept ==> Present(s.store, m)
  {
    ReachableInv(s);
    StoreSpellsChain(s);
    forall i | 0 <= i < |s.chain| ensures s.chain[i].generation == |s.chain| - i {
      assert LinkedAt(s.chain, i);
    }
    forall i, j | 0 <= i < j < |s.chain| ensures s.chain[i].commitId != s.chain[j].commitId {
      IdsDistinct(s, i, j);
    }
  }

  /** Whatever happens later, the chain of now stays a tail of the chain. */
  lemma ChainOnlyGrows(s: State, t: State)
    requires Reachable(s) && Reaches(s, t)
    ensures HeadSound(s.store) && HeadSound(t.store)
    ensures EndsWith(Chain(t.store), Chain(s.store))
  {
    ReachableInv(s);
    ReachesKeeps(s, t);
    StoreSpellsChain(s);
    StoreSpellsChain(t);
  }

  /** Two attempts built on the same parent never both return OK. */
  lemma OneWinnerPerParent(s: State, a: nat, b: nat)
    requires Reachable(s)
    requires a in s.attempts && b in s.attempts && a != b
    requires s.attempts[a].phase == Finished(JournalOk) && s.attempts[b].phase == Finished(JournalOk)
    ensures s.attempts[a].request.parent != s.attempts[b].request.parent
  {
    ReachableInv(s);
    assert a in s.landed && b in s.landed;
  }

  lemma TailMember<T>(longer: seq<T>, tail: seq<T>, x: T)
    requires EndsWith(longer, tail) && x in tail
    ensures x in longer
  {
    var i :| 0 <= i < |tail| && tail[i] == x;
    EndsWithAt(longer, tail, i);
  }

  /** A publish that returned OK is on the chain, now and in every later state. */
  lemma OkIsDurable(s: State, a: nat, t: State)
    requires Reachable(s) && Reaches(s, t)
    requires a in s.attempts && s.attempts[a].phase == Finished(JournalOk)
    ensures HeadSound(t.store) && ManifestOf(s.attempts[a].request) in Chain(t.store)
  {
    ReachableInv(s);
    ReachesKeeps(s, t);
    StoreSpellsChain(t);
    TailMember(t.chain, s.chain, ManifestOf(s.attempts[a].request));
  }

  /** A manifest says what a request asked for: its id, the parent it read, and its page sets in their order. */
  ghost predicate Describes(m: Manifest, r: Request) {
    && m.commitId == r.commitId && m.generation == m.parentGeneration + 1
    && (match r.parent
        case None => m.parentGeneration == 0 && m.parentCommitId == "" && m.parentSha.None?
        case Some(h) =>
          m.parentGeneration == h.generation && m.parentCommitId == h.commitId && m.parentSha == Some(h.commitSha))
    && |m.segments| == |r.segments|
    && forall i :: 0 <= i < |r.segments| ==>
         m.segments[i].pages == if r.segments[i].pages.Some? then r.segments[i].pages.value else []
  }

  /** What is stored for a manifest's segments is the request's payloads, in their order, under its id. */
  ghost predicate StoresData(store: Store, m: Manifest, r: Request) {
    && |m.segments| == |r.segments|
    && forall i :: 0 <= i < |r.segments| ==>
         && SegmentKey(m.segments[i].digest) in store
         && store[SegmentKey(m.segments[i].digest)] == SegmentObject(r.commitId, r.segments[i].payload)
  }

  lemma DescribesRequest(r: Request)
    requires ValidRequest(r)
    ensures Describes(ManifestOf(r), r)
  {
  }

  lemma PresentData(store: Store, r: Request)
    requires Present(store, ManifestOf(r))
    ensures StoresData(store, ManifestOf(r), r)
  {
  }

  /**
   A publish that returned OK is on the chain, now and in every later state, with the parent, the page
   sets and the payloads that were asked for: what is stored for its segments is the request's data,
   unless a checkpoint has covered a later generation since.
   */
  lemma OkStoresData(s: State, a: nat, t: State) returns (m: Manifest)
    requires Reachable(s) && Reaches(s, t)
    requires a in s.attempts && s.attempts[a].phase == Finished(JournalOk)
    ensures HeadSound(t.store) && m in Chain(t.store) && Describes(m, s.attempts[a].request)
    ensures ManifestKey(m.commitId) in t.store || m.generation < t.swept
    ensures m.generation >= t.swept ==> StoresData(t.store, m, s.attempts[a].request)
  {
    var r := s.attempts[a].request;
    m := ManifestOf(r);
    OkIsDurable(s, a, t);
    assert ValidRequest(r) by {
      ReachableInv(s);
      assert RequestSound(s.chain, s.built, r);
    }
    DescribesRequest(r);
    if m.generation >= t.swept {
      assert Present(t.store, m) by {
        ReachableInv(s);
        ReachesKeeps(s, t);
        StoreSpellsChain(t);
      }
      PresentData(t.store, r);
    }
  }

  /** The HEAD a stale writer expects: it is on the chain, but no longer at its front. */
  ghost predicate Stale(s: State, parent: Option<Head>)
    requires HeadSound(s.store)
  {
    parent != (if Chain(s.store) == [] then None else Some(HeadFor(Chain(s.store)[0])))
  }

  /** The stored HEAD carries the length of the chain as its generation. */
  lemma HeadGeneration(store: Store, chain: seq<Manifest>)
    requires Linked(chain) && HeadTied(store, chain)
    ensures chain != [] ==> HeadKey in store && store[HeadKey].HeadObject? && store[HeadKey].head.generation == |chain|
    ensures forall g :: 1 <= g <= |chain| ==> At(chain, g).generation == g
  {
    forall g | 1 <= g <= |chain| ensures At(chain, g).generation == g {
      assert LinkedAt(chain, |chain| - g);
    }
    if chain != [] {
      assert LinkedAt(chain, 0);
    }
  }

  /** Once a HEAD was replaced, that HEAD never comes back, whatever the ETags are. */
  lemma HeadNeverRecurs(s: State, t: State, i: nat)
    requires Reachable(s) && Reaches(s, t)
    requires HeadSound(s.store) && 0 < i < |Chain(s.store)|
    ensures HeadKey in t.store
    ensures t.store[HeadKey] != HeadObject(HeadFor(Chain(s.store)[i]))
  {
    ReachableInv(s);
    ReachesKeeps(s, t);
    StoreSpellsChain(s);
    HeadGeneration(s.store, s.chain);
    HeadGeneration(t.store, t.chain);
    assert At(s.chain, |s.chain| - i) == s.chain[i];
  }

  /** A writer whose parent is not the current HEAD cannot swap HEAD. */
  lemma StaleCannotDeliver(t: State, a: nat, g: nat)
    requires Inv(t) && a in t.attempts && g == ParentGeneration(t.attempts[a].request) && g < |t.chain|
    ensures !CanDeliver(t, Put(a, HeadPart))
  {
    HeadGeneration(t.store, t.chain);
  }

  /** An anchored parent is stale exactly when its generation is below HEAD's. */
  lemma StaleMeansBelow(s: State, r: Request)
    requires Inv(s) && RequestSound(s.chain, s.built, r) && HeadSound(s.store) && Chain(s.store) == s.chain
    requires Stale(s, r.parent)
    ensures ParentGeneration(r) < |s.chain|
  {
    HeadGeneration(s.store, s.chain);
  }

  /** A conditional swap whose expected HEAD was overtaken can never take effect later. */
  lemma OvertakenNeverLands(s: State, t: State, a: nat)
    requires Reachable(s) && Reaches(s, t) && a in s.attempts
    requires HeadSound(s.store) && Stale(s, s.attempts[a].request.parent)
    ensures !CanDeliver(t, Put(a, HeadPart))
  {
    ReachableInv(s);
    ReachesKeeps(s, t);
    StoreSpellsChain(s);
    StaleMeansBelow(s, s.attempts[a].request);
    StaleCannotDeliver(t, a, ParentGeneration(t.attempts[a].request));
  }

  // ---- garbage collection ----

  /**
   At every reachable state, hence at every crash point of every sweep: HEAD and the checkpoint
   objects are untouched by a sweep step, every commit from the highest covered generation on is
   complete in the store, and so is every commit from the stored pointer on unless it has gone back.
   */
  lemma SweepIsSafe(s: State, k: nat, effective: bool)
    requires Reachable(s) && CanSweepDelete(s, k)
    ensures var t := AfterSweepDelete(s, k, effective);
      && (HeadKey in t.store <==> HeadKey in s.store)
      && (HeadKey in s.store ==> t.store[HeadKey] == s.store[HeadKey])
      && (CheckpointKey in t.store <==> CheckpointKey in s.store)
      && (CheckpointKey in s.store ==> t.store[CheckpointKey] == s.store[CheckpointKey])
      && (forall key: Key :: key.CheckpointManifestKey? && key in s.store ==>
            key in t.store && t.store[key] == s.store[key])
      && HeadSound(t.store) && HeadSound(s.store) && Chain(t.store) == Chain(s.store)
      && (forall m :: m in Chain(t.store) && m.generation >= s.swept ==> Present(t.store, m))
      && (Pointer(s.store) >= s.swept ==>
            forall m :: m in Chain(t.store) && m.generation >= Pointer(t.store) ==> Present(t.store, m))
  {
    ReachableInv(s);
    var t := AfterSweepDelete(s, k, effective);
    SweepDeleteKeeps(s, k, effective, t);
    StoreSpellsChain(s);
    StoreSpellsChain(t);
  }

  /** The deletes a sweep still owes to the manifest it has read. */
  ghost function SweepLeft(w: Sweep): int
    requires w.Sweeping?
  {
    if w.doomed.None? then 0 else |w.doomed.value.segments| + 1 - w.deleted
  }

  /** The manifest a sweep read is of the generation the sweep is at. */
  lemma DoomedGeneration(chain: seq<Manifest>, built: set<Manifest>, swept: nat, w: Sweep)
    requires Linked(chain) && ChainBuilt(chain, built) && BuiltSound(built, chain) && OneGenerationPerId(built)
    requires SweepSound(chain, built, swept, w) && w.Sweeping? && w.doomed.Some?
    ensures w.doomed.value.generation == w.generation == w.doomed.value.parentGeneration + 1
  {
    AtGeneration(chain, built, w.generation);
    assert Decodes(ManifestObject(w.doomed.value));
  }

  ghost predicate Nearer(v: Sweep, w: Sweep)
    requires v.Sweeping? && w.Sweeping?
  {
    || v.generation < w.generation
    || (v.generation == w.generation && w.doomed.None? && v.doomed.Some?)
    || (v.generation == w.generation && w.doomed.Some? && v.doomed == w.doomed && 0 <= SweepLeft(v) < SweepLeft(w))
  }

  /** First the three reads, then the generations, then the deletes of one manifest. */
  ghost predicate Decreases(v: Sweep, w: Sweep) {
    match w
    case Pointed(_, _, _) => v.Based?
    case Based(_, _) => v.Sweeping?
    case Sweeping(_, _, _, _) => v.Sweeping? && Nearer(v, w)
  }

  lemma AdvanceDecreases(w: Sweep)
    requires Deleting(w) && w.generation == w.doomed.value.parentGeneration + 1
    ensures Decreases(SweepAdvance(w), w)
  {
  }

  /** Every step of a sweep makes progress, so each sweep ends after finitely many steps of its own. */
  lemma SweepTerminates(s: State, k: nat, effective: bool)
    requires Reachable(s)
    ensures CanSweepRead(s, k) && k in AfterSweepRead(s, k).sweeps ==>
      Decreases(AfterSweepRead(s, k).sweeps[k], s.sweeps[k])
    ensures CanSweepDelete(s, k) ==> Decreases(AfterSweepDelete(s, k, effective).sweeps[k], s.sweeps[k])
  {
    if CanSweepDelete(s, k) {
      var w := s.sweeps[k];
      assert w.generation == w.doomed.value.parentGeneration + 1 by {
        ReachableInv(s);
        assert SweepSound(s.chain, s.built, s.swept, w);
        DoomedGeneration(s.chain, s.built, s.swept, w);
      }
      AdvanceDecreases(w);
    }
  }
}

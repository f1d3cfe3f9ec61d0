/**
 What every step of the publish protocol keeps.
 */
module PublishSafety {
  import opened Prelude
  import opened CommitChain
  import opened PublishProtocol

  /** Element i of a chain points at element i + 1, the last one at nothing. */
  ghost predicate LinkedAt(c: seq<Manifest>, i: nat)
    requires i < |c|
  {
    && c[i].generation == |c| - i
    && Decodes(ManifestObject(c[i]))
    && (if i + 1 < |c|
        then c[i].parentCommitId == c[i + 1].commitId && c[i].parentSha == Some(Sha256(ManifestObject(c[i + 1])))
        else c[i].parentGeneration == 0)
  }

  ghost predicate Linked(c: seq<Manifest>) {
    forall i :: 0 <= i < |c| ==> LinkedAt(c, i)
  }

  /** The element of a chain at a generation. */
  ghost function At(chain: seq<Manifest>, generation: nat): Manifest
    requires 1 <= generation <= |chain|
  {
    chain[|chain| - generation]
  }

  ghost predicate HeadTied(store: Store, chain: seq<Manifest>) {
    if chain == [] then HeadKey !in store
    else HeadKey in store && store[HeadKey] == HeadObject(HeadFor(chain[0]))
  }

  /** The parent a manifest names is on the chain, at the generation it names. */
  ghost predicate ParentOnChain(chain: seq<Manifest>, m: Manifest) {
    && m.parentGeneration <= |chain|
    && (m.parentGeneration > 0 ==>
          && m.parentCommitId == At(chain, m.parentGeneration).commitId
          && m.parentSha == Some(Sha256(ManifestObject(At(chain, m.parentGeneration)))))
  }

  /** A manifest has a commit id, and every segment reference carries it. */
  ghost predicate CarriesId(m: Manifest) {
    && m.commitId != ""
    && forall i :: 0 <= i < |m.segments| ==>
         && m.segments[i].digest.preimage.SegmentObject?
         && m.segments[i].digest.preimage.commitId == m.commitId
  }

  ghost predicate BuiltSound(built: set<Manifest>, chain: seq<Manifest>) {
    forall m :: m in built ==> Decodes(ManifestObject(m)) && CarriesId(m) && ParentOnChain(chain, m)
  }

  ghost predicate OneGenerationPerId(built: set<Manifest>) {
    forall m, n :: m in built && n in built && m.commitId == n.commitId ==> m.generation == n.generation
  }

  ghost predicate PartStored(store: Store, r: Request, part: Part) {
    ValidPart(r, part) && KeyOf(r, part) in store && store[KeyOf(r, part)] == ContentOf(r, part)
  }

  /** Every part before this one is stored. */
  ghost predicate StoredBefore(store: Store, r: Request, part: Part) {
    && (forall i :: 0 <= i < (if part.SegmentPart? then part.index else |r.segments|) ==>
          PartStored(store, r, SegmentPart(i)))
    && (part.HeadPart? ==> PartStored(store, r, ManifestPart))
  }

  /** A writer's parent was HEAD once, and its manifest is among those built. */
  ghost predicate RequestSound(chain: seq<Manifest>, built: set<Manifest>, r: Request) {
    && ValidRequest(r)
    && ManifestOf(r) in built
    && (r.parent.Some? ==>
          && 1 <= r.parent.value.generation <= |chain|
          && r.parent.value == HeadFor(At(chain, r.parent.value.generation)))
  }

  ghost predicate AttemptsSound(chain: seq<Manifest>, built: set<Manifest>, attempts: map<nat, Attempt>) {
    forall a :: a in attempts ==>
      && RequestSound(chain, built, attempts[a].request)
      && (attempts[a].phase.Uploading? ==> ValidPart(attempts[a].request, attempts[a].phase.part))
  }

  /** What an attempt confirmed is stored, unless a checkpoint has already passed the attempt. */
  ghost predicate ProgressSound(store: Store, swept: nat, attempts: map<nat, Attempt>) {
    forall a :: a in attempts && attempts[a].phase.Uploading? && ManifestOf(attempts[a].request).generation > swept ==>
      StoredBefore(store, attempts[a].request, attempts[a].phase.part)
  }

  ghost predicate PutSound(store: Store, swept: nat, attempts: map<nat, Attempt>, p: Put) {
    && p.attempt in attempts
    && ValidPart(attempts[p.attempt].request, p.part)
    && (p.part.HeadPart? && ManifestOf(attempts[p.attempt].request).generation > swept ==>
          StoredBefore(store, attempts[p.attempt].request, HeadPart))
  }

  ghost predicate NetworkSound(store: Store, swept: nat, attempts: map<nat, Attempt>, network: set<Put>) {
    forall p :: p in network ==> PutSound(store, swept, attempts, p)
  }

  /** What was accepted is still there, unless a checkpoint has already passed the attempt. */
  ghost predicate AcceptedAt(store: Store, swept: nat, attempts: map<nat, Attempt>, p: Put) {
    && p.attempt in attempts
    && ValidPart(attempts[p.attempt].request, p.part) && !p.part.HeadPart?
    && (ManifestOf(attempts[p.attempt].request).generation > swept ==>
          PartStored(store, attempts[p.attempt].request, p.part))
  }

  ghost predicate AcceptedSound(store: Store, swept: nat, attempts: map<nat, Attempt>, accepted: set<Put>) {
    forall p :: p in accepted ==> AcceptedAt(store, swept, attempts, p)
  }

  ghost predicate StoreSound(store: Store, built: set<Manifest>) {
    && (forall id :: ManifestKey(id) in store ==>
          && store[ManifestKey(id)].ManifestObject?
          && store[ManifestKey(id)].manifest in built
          && store[ManifestKey(id)].manifest.commitId == id)
    && (forall d :: SegmentKey(d) in store ==> store[SegmentKey(d)] == d.preimage)
  }

  /** Where sweeps may run, the stored pointer is not above the highest covered generation. */
  ghost predicate PointerSound(store: Store, swept: nat, uniqueIds: bool) {
    CheckpointKey in store ==>
      store[CheckpointKey].CheckpointPointer? && (uniqueIds ==> store[CheckpointKey].covered <= swept)
  }

  ghost predicate ChainBuilt(chain: seq<Manifest>, built: set<Manifest>) {
    forall i :: 0 <= i < |chain| ==> chain[i] in built
  }

  /** From the checkpoint's generation upwards the chain is complete in the store. */
  ghost predicate ChainStored(store: Store, chain: seq<Manifest>, swept: nat) {
    && swept <= |chain|
    && (forall i :: 0 <= i < |chain| && chain[i].generation >= swept ==> Present(store, chain[i]))
  }

  ghost predicate LandedOnce(landed: set<nat>, attempts: map<nat, Attempt>, chain: seq<Manifest>) {
    && (forall a :: a in landed ==>
          a in attempts && ManifestOf(attempts[a].request) in chain)
    && (forall a, b :: a in landed && b in landed && a != b ==>
          ManifestOf(attempts[a].request).generation != ManifestOf(attempts[b].request).generation)
    && (forall a :: a in attempts && attempts[a].phase == Finished(JournalOk) ==> a in landed)
  }

  /** Sweeps only ever hold ids of generations below the checkpoint. */
  ghost predicate SweepSound(chain: seq<Manifest>, built: set<Manifest>, swept: nat, w: Sweep) {
    if !w.Sweeping? then w.covered <= swept <= |chain| else
    && w.generation < swept <= |chain|
    && (w.generation > 0 ==> At(chain, w.generation).commitId == w.id)
    && (w.doomed.Some? ==> w.generation > 0 && w.doomed.value in built && w.doomed.value.commitId == w.id)
  }

  ghost predicate SweepsSound(chain: seq<Manifest>, built: set<Manifest>, swept: nat, sweeps: map<nat, Sweep>) {
    forall k :: k in sweeps ==> SweepSound(chain, built, swept, sweeps[k])
  }

  /** What is said about the chain alone. */
  ghost predicate ChainSound(s: State) {
    && Linked(s.chain) && BuiltSound(s.built, s.chain) && ChainBuilt(s.chain, s.built)
    && LandedOnce(s.landed, s.attempts, s.chain) && AttemptsSound(s.chain, s.built, s.attempts)
    && SweepsSound(s.chain, s.built, s.swept, s.sweeps)
  }

  /** What is said about the stored objects. */
  ghost predicate ObjectsSound(s: State) {
    && StoreSound(s.store, s.built) && PointerSound(s.store, s.swept, s.uniqueIds)
    && ChainStored(s.store, s.chain, s.swept) && ProgressSound(s.store, s.swept, s.attempts)
    && NetworkSound(s.store, s.swept, s.attempts, s.network)
    && AcceptedSound(s.store, s.swept, s.attempts, s.accepted)
  }

  ghost predicate Inv(s: State) {
    && ChainSound(s) && ObjectsSound(s) && HeadTied(s.store, s.chain)
    && (s.uniqueIds ==> OneGenerationPerId(s.built))
    && (!s.uniqueIds ==> s.sweeps == map[] && s.swept == 0)
  }

  lemma InitialInv(uniqueIds: bool)
    ensures Inv(Initial(uniqueIds))
  {
  }

  // ---- what a request builds ----

  /** A request on the current HEAD builds the next link of the chain. */
  lemma BuiltFromHead(chain: seq<Manifest>, built: set<Manifest>, r: Request)
    requires Linked(chain) && ValidRequest(r)
    requires chain == [] ==> r.parent.None?
    requires chain != [] ==> r.parent == Some(HeadFor(chain[0]))
    ensures var m := ManifestOf(r);
      && Decodes(ManifestObject(m)) && CarriesId(m) && ParentOnChain(chain, m)
      && m.generation == |chain| + 1
      && RequestSound(chain, built + {m}, r)
  {
    if chain != [] {
      assert LinkedAt(chain, 0);
    }
  }

  lemma PresentFromParts(store: Store, r: Request)
    requires StoredBefore(store, r, HeadPart)
    ensures Present(store, ManifestOf(r))
  {
    var m := ManifestOf(r);
    assert PartStored(store, r, ManifestPart);
    forall i | 0 <= i < |m.segments|
      ensures SegmentKey(m.segments[i].digest) in store
      ensures store[SegmentKey(m.segments[i].digest)] == m.segments[i].digest.preimage
    {
      assert PartStored(store, r, SegmentPart(i));
    }
  }

  // ---- one lemma per step, built on one lemma per component ----

  lemma AttemptsGrow(chain: seq<Manifest>, built: set<Manifest>, attempts: map<nat, Attempt>, a: nat, t: Attempt)
    requires AttemptsSound(chain, built, attempts)
    requires RequestSound(chain, built + {ManifestOf(t.request)}, t.request)
    requires t.phase.Uploading? ==> ValidPart(t.request, t.phase.part)
    ensures AttemptsSound(chain, built + {ManifestOf(t.request)}, attempts[a := t])
  {
  }

  lemma NetworkKeeps(store: Store, swept: nat, attempts: map<nat, Attempt>, network: set<Put>, a: nat, t: Attempt)
    requires NetworkSound(store, swept, attempts, network)
    requires a in attempts ==> t.request == attempts[a].request
    ensures NetworkSound(store, swept, attempts[a := t], network)
  {
    forall p | p in network ensures PutSound(store, swept, attempts[a := t], p) {
      assert PutSound(store, swept, attempts, p);
    }
  }

  lemma AcceptedKeeps(store: Store, swept: nat, attempts: map<nat, Attempt>, accepted: set<Put>, a: nat, t: Attempt)
    requires AcceptedSound(store, swept, attempts, accepted)
    requires a in attempts ==> t.request == attempts[a].request
    ensures AcceptedSound(store, swept, attempts[a := t], accepted)
  {
    forall p | p in accepted ensures AcceptedAt(store, swept, attempts[a := t], p) {
      assert AcceptedAt(store, swept, attempts, p);
    }
  }

  lemma LandedKeeps(landed: set<nat>, attempts: map<nat, Attempt>, chain: seq<Manifest>, a: nat, t: Attempt)
    requires LandedOnce(landed, attempts, chain)
    requires a in attempts ==> t.request == attempts[a].request
    requires t.phase == Finished(JournalOk) ==> a in landed
    ensures LandedOnce(landed, attempts[a := t], chain)
  {
  }

  lemma ProgressKeeps(store: Store, swept: nat, attempts: map<nat, Attempt>, a: nat, t: Attempt)
    requires ProgressSound(store, swept, attempts)
    requires t.phase.Uploading? && ManifestOf(t.request).generation > swept ==>
      StoredBefore(store, t.request, t.phase.part)
    ensures ProgressSound(store, swept, attempts[a := t])
  {
  }

  lemma BuiltGrows(s: State, m: Manifest)
    requires StoreSound(s.store, s.built) && ChainBuilt(s.chain, s.built)
    requires SweepsSound(s.chain, s.built, s.swept, s.sweeps) && BuiltSound(s.built, s.chain)
    requires Decodes(ManifestObject(m)) && CarriesId(m) && ParentOnChain(s.chain, m)
    ensures StoreSound(s.store, s.built + {m}) && ChainBuilt(s.chain, s.built + {m})
    ensures SweepsSound(s.chain, s.built + {m}, s.swept, s.sweeps)
    ensures BuiltSound(s.built + {m}, s.chain)
  {
  }

  lemma IdsGrow(built: set<Manifest>, m: Manifest)
    requires OneGenerationPerId(built) && IdFits(built, m)
    ensures OneGenerationPerId(built + {m})
  {
  }

  lemma BeginKeeps(s: State, a: nat, r: Request, t: State)
    requires Inv(s) && CanBegin(s, a, r) && t == AfterBegin(s, a, r)
    ensures Inv(t)
  {
    var started := Attempt(r, Uploading(SegmentPart(0)));
    BuiltFromHead(s.chain, s.built, r);
    BuiltGrows(s, ManifestOf(r));
    AttemptsGrow(s.chain, s.built, s.attempts, a, started);
    ProgressKeeps(s.store, s.swept, s.attempts, a, started);
    NetworkKeeps(s.store, s.swept, s.attempts, s.network, a, started);
    AcceptedKeeps(s.store, s.swept, s.attempts, s.accepted, a, started);
    LandedKeeps(s.landed, s.attempts, s.chain, a, started);
    if s.uniqueIds {
      IdsGrow(s.built, ManifestOf(r));
    }
  }

  lemma SendKeeps(s: State, a: nat, t: State)
    requires Inv(s) && Working(s, a) && t == AfterSend(s, a)
    ensures Inv(t)
  {
  }

  /** Replacing one attempt by a later phase of itself. */
  lemma PhaseKeeps(s: State, a: nat, t: Attempt)
    requires Inv(s) && a in s.attempts && t.request == s.attempts[a].request
    requires t.phase == Finished(JournalOk) ==> a in s.landed
    requires t.phase.Uploading? ==> ValidPart(t.request, t.phase.part)
    requires t.phase.Uploading? && ManifestOf(t.request).generation > s.swept ==>
      StoredBefore(s.store, t.request, t.phase.part)
    ensures Inv(s.(attempts := s.attempts[a := t]))
  {
    assert s.built + {ManifestOf(t.request)} == s.built;
    AttemptsGrow(s.chain, s.built, s.attempts, a, t);
    ProgressKeeps(s.store, s.swept, s.attempts, a, t);
    NetworkKeeps(s.store, s.swept, s.attempts, s.network, a, t);
    AcceptedKeeps(s.store, s.swept, s.attempts, s.accepted, a, t);
    LandedKeeps(s.landed, s.attempts, s.chain, a, t);
  }

  lemma StoredNext(store: Store, r: Request, part: Part)
    requires StoredBefore(store, r, part) && PartStored(store, r, part) && !part.HeadPart?
    ensures StoredBefore(store, r, NextPart(r, part))
  {
  }

  lemma ConfirmKeeps(s: State, a: nat, t: State)
    requires Inv(s) && CanConfirm(s, a) && t == AfterConfirm(s, a)
    ensures Inv(t)
  {
    var r, part := s.attempts[a].request, s.attempts[a].phase.part;
    if ManifestOf(r).generation > s.swept {
      assert Put(a, part) in s.accepted ==> AcceptedAt(s.store, s.swept, s.attempts, Put(a, part));
      StoredNext(s.store, r, part);
    }
    PhaseKeeps(s, a, Attempt(r, Uploading(NextPart(r, part))));
  }

  lemma FinishKeeps(s: State, a: nat, r: JournalResult, t: State)
    requires Inv(s) && CanFinish(s, a, r) && t == AfterFinish(s, a, r)
    ensures Inv(t)
  {
    PhaseKeeps(s, a, s.attempts[a].(phase := Finished(r)));
  }

  /** Writing a key that is new, or of no manifest or segment, loses nothing. */
  lemma StoreKeeps(store: Store, key: Key, content: Object, s: State)
    requires key in store ==> !key.ManifestKey? && !key.SegmentKey?
    requires ChainStored(store, s.chain, s.swept)
    requires ProgressSound(store, s.swept, s.attempts)
    requires NetworkSound(store, s.swept, s.attempts, s.network)
    requires AcceptedSound(store, s.swept, s.attempts, s.accepted)
    ensures ChainStored(store[key := content], s.chain, s.swept)
    ensures ProgressSound(store[key := content], s.swept, s.attempts)
    ensures NetworkSound(store[key := content], s.swept, s.attempts, s.network)
    ensures AcceptedSound(store[key := content], s.swept, s.attempts, s.accepted)
  {
    var store' := store[key := content];
    forall i | 0 <= i < |s.chain| && s.chain[i].generation >= s.swept ensures Present(store', s.chain[i]) {
      assert Present(store, s.chain[i]);
    }
    forall r: Request, part: Part | StoredBefore(store, r, part) ensures StoredBefore(store', r, part) {
      StoredKeeps(store, key, content, r, part);
    }
    forall p | p in s.network ensures PutSound(store', s.swept, s.attempts, p) {
      assert PutSound(store, s.swept, s.attempts, p);
    }
    forall p | p in s.accepted ensures AcceptedAt(store', s.swept, s.attempts, p) {
      assert AcceptedAt(store, s.swept, s.attempts, p);
    }
  }

  lemma StoredKeeps(store: Store, key: Key, content: Object, r: Request, part: Part)
    requires key in store ==> !key.ManifestKey? && !key.SegmentKey?
    requires StoredBefore(store, r, part)
    ensures StoredBefore(store[key := content], r, part)
  {
    forall i | 0 <= i < (if part.SegmentPart? then part.index else |r.segments|)
      ensures PartStored(store[key := content], r, SegmentPart(i))
    {
      assert PartStored(store, r, SegmentPart(i));
    }
  }

  lemma PartFits(store: Store, built: set<Manifest>, r: Request, part: Part)
    requires StoreSound(store, built) && ManifestOf(r) in built
    requires !part.HeadPart? && ValidPart(r, part)
    ensures StoreSound(store[KeyOf(r, part) := ContentOf(r, part)], built)
  {
  }

  lemma AcceptedGrows(store: Store, swept: nat, attempts: map<nat, Attempt>, accepted: set<Put>, p: Put)
    requires AcceptedSound(store, swept, attempts, accepted) && AcceptedAt(store, swept, attempts, p)
    ensures AcceptedSound(store, swept, attempts, accepted + {p})
  {
  }

  lemma PartDelivered(s: State, p: Put, r: Request, t: State)
    requires ObjectsSound(s) && p.attempt in s.attempts && r == s.attempts[p.attempt].request
    requires ManifestOf(r) in s.built
    requires !p.part.HeadPart? && ValidPart(r, p.part) && KeyOf(r, p.part) !in s.store
    requires t == s.(store := s.store[KeyOf(r, p.part) := ContentOf(r, p.part)], accepted := s.accepted + {p})
    ensures ObjectsSound(t)
  {
    StoreKeeps(s.store, KeyOf(r, p.part), ContentOf(r, p.part), s);
    PartFits(s.store, s.built, r, p.part);
    assert AcceptedAt(t.store, s.swept, s.attempts, p) by {
      assert PartStored(t.store, r, p.part);
    }
    AcceptedGrows(t.store, s.swept, s.attempts, s.accepted, p);
  }

  lemma DeliverKeepsImmutable(s: State, p: Put, t: State)
    requires Inv(s) && CanDeliver(s, p) && t == AfterDeliver(s, p) && !p.part.HeadPart?
    ensures Inv(t)
  {
    var r := s.attempts[p.attempt].request;
    assert RequestSound(s.chain, s.built, r);
    PartDelivered(s, p, r, t);
  }

  /** An accepted HEAD swap extends the very chain the writer read. */
  lemma SwapExtends(s: State, p: Put)
    requires Inv(s) && CanDeliver(s, p) && p.part.HeadPart?
    ensures var r := s.attempts[p.attempt].request;
      && (s.chain == [] ==> r.parent.None?)
      && (s.chain != [] ==> r.parent == Some(HeadFor(s.chain[0])))
      && ManifestOf(r).generation == |s.chain| + 1 && ManifestOf(r) in s.built
      && StoredBefore(s.store, r, HeadPart)
  {
    var r := s.attempts[p.attempt].request;
    assert RequestSound(s.chain, s.built, r);
    assert PutSound(s.store, s.swept, s.attempts, p);
    BuiltFromHead(s.chain, s.built, r);
  }

  /** Putting a new manifest in front of the chain leaves every older generation where it was. */
  lemma AtFront(chain: seq<Manifest>, m: Manifest)
    ensures forall g :: 1 <= g <= |chain| ==> At([m] + chain, g) == At(chain, g)
  {
  }

  lemma BuiltShift(built: set<Manifest>, chain: seq<Manifest>, m: Manifest)
    requires BuiltSound(built, chain) && ChainBuilt(chain, built) && m in built
    ensures BuiltSound(built, [m] + chain) && ChainBuilt([m] + chain, built)
  {
    AtFront(chain, m);
    forall b | b in built ensures ParentOnChain([m] + chain, b) {
      assert ParentOnChain(chain, b);
    }
  }

  lemma AttemptsShift(chain: seq<Manifest>, built: set<Manifest>, attempts: map<nat, Attempt>, m: Manifest)
    requires AttemptsSound(chain, built, attempts)
    ensures AttemptsSound([m] + chain, built, attempts)
  {
    AtFront(chain, m);
    forall a | a in attempts ensures RequestSound([m] + chain, built, attempts[a].request) {
      assert RequestSound(chain, built, attempts[a].request);
    }
  }

  lemma SweepsShift(chain: seq<Manifest>, built: set<Manifest>, swept: nat, sweeps: map<nat, Sweep>, m: Manifest)
    requires SweepsSound(chain, built, swept, sweeps)
    ensures SweepsSound([m] + chain, built, swept, sweeps)
  {
    AtFront(chain, m);
    forall k | k in sweeps ensures SweepSound([m] + chain, built, swept, sweeps[k]) {
      assert SweepSound(chain, built, swept, sweeps[k]);
    }
  }

  lemma LinkFront(chain: seq<Manifest>, m: Manifest)
    requires Linked(chain) && Decodes(ManifestObject(m)) && ParentOnChain(chain, m) && m.generation == |chain| + 1
    ensures Linked([m] + chain)
  {
    var c := [m] + chain;
    forall i | 0 <= i < |c| ensures LinkedAt(c, i) {
      if i > 0 {
        assert LinkedAt(chain, i - 1);
      }
    }
  }

  lemma LandedGrows(landed: set<nat>, attempts: map<nat, Attempt>, chain: seq<Manifest>, a: nat)
    requires LandedOnce(landed, attempts, chain) && Linked(chain)
    requires a in attempts && ManifestOf(attempts[a].request).generation == |chain| + 1
    ensures LandedOnce(landed + {a}, attempts, [ManifestOf(attempts[a].request)] + chain)
    ensures a !in landed
  {
    forall b | b in landed ensures ManifestOf(attempts[b].request).generation <= |chain| {
      var i :| 0 <= i < |chain| && chain[i] == ManifestOf(attempts[b].request);
      assert LinkedAt(chain, i);
    }
    forall b | b in landed ensures ManifestOf(attempts[b].request) in [ManifestOf(attempts[a].request)] + chain {
      var i :| 0 <= i < |chain| && chain[i] == ManifestOf(attempts[b].request);
      assert ([ManifestOf(attempts[a].request)] + chain)[i + 1] == chain[i];
    }
    assert ([ManifestOf(attempts[a].request)] + chain)[0] == ManifestOf(attempts[a].request);
  }

  lemma ChainStoredFront(store: Store, chain: seq<Manifest>, swept: nat, m: Manifest)
    requires ChainStored(store, chain, swept) && Present(store, m)
    ensures ChainStored(store, [m] + chain, swept)
  {
    var c := [m] + chain;
    forall i | 0 <= i < |c| && c[i].generation >= swept ensures Present(store, c[i]) {
      if i > 0 {
        assert c[i] == chain[i - 1];
      }
    }
  }

  lemma PresentKeeps(store: Store, content: Object, m: Manifest)
    requires Present(store, m)
    ensures Present(store[HeadKey := content], m)
  {
  }

  lemma HeadFits(store: Store, built: set<Manifest>, content: Object)
    requires StoreSound(store, built)
    ensures StoreSound(store[HeadKey := content], built)
  {
  }

  lemma ChainShifts(s: State, a: nat, m: Manifest, t: State)
    requires ChainSound(s) && a in s.attempts && m == ManifestOf(s.attempts[a].request) && m in s.built
    requires m.generation == |s.chain| + 1 && t.chain == [m] + s.chain && t.landed == s.landed + {a}
    requires t.built == s.built && t.attempts == s.attempts && t.sweeps == s.sweeps && t.swept == s.swept
    ensures ChainSound(t) && a !in s.landed
  {
    LinkFront(s.chain, m);
    BuiltShift(s.built, s.chain, m);
    AttemptsShift(s.chain, s.built, s.attempts, m);
    SweepsShift(s.chain, s.built, s.swept, s.sweeps, m);
    LandedGrows(s.landed, s.attempts, s.chain, a);
  }

  lemma ObjectsShift(s: State, m: Manifest, t: State)
    requires ObjectsSound(s) && Present(s.store, m)
    requires t.store == s.store[HeadKey := HeadObject(HeadFor(m))] && t.chain == [m] + s.chain
    requires t.built == s.built && t.attempts == s.attempts && t.network == s.network && t.accepted == s.accepted
    requires t.swept == s.swept && t.uniqueIds == s.uniqueIds
    ensures ObjectsSound(t)
  {
    var head := HeadObject(HeadFor(m));
    StoreKeeps(s.store, HeadKey, head, s);
    PresentKeeps(s.store, head, m);
    ChainStoredFront(t.store, s.chain, s.swept, m);
    HeadFits(s.store, s.built, head);
  }

  lemma SwapFits(s: State, p: Put, m: Manifest)
    requires Inv(s) && CanDeliver(s, p) && p.part.HeadPart? && m == ManifestOf(s.attempts[p.attempt].request)
    ensures m.generation == |s.chain| + 1 && m in s.built && Present(s.store, m)
  {
    SwapExtends(s, p);
    PresentFromParts(s.store, s.attempts[p.attempt].request);
  }

  lemma DeliverKeepsHead(s: State, p: Put, t: State)
    requires Inv(s) && CanDeliver(s, p) && t == AfterDeliver(s, p) && p.part.HeadPart?
    ensures Inv(t)
    ensures p.attempt !in s.landed
  {
    var r := s.attempts[p.attempt].request;
    var m := ManifestOf(r);
    SwapFits(s, p, m);
    HeadSwapped(s, p, r, m, t);
  }

  lemma HeadSwapped(s: State, p: Put, r: Request, m: Manifest, t: State)
    requires Inv(s) && p.attempt in s.attempts && r == s.attempts[p.attempt].request && m == ManifestOf(r)
    requires m.generation == |s.chain| + 1 && m in s.built && Present(s.store, m)
    requires t == s.(store := s.store[HeadKey := HeadObject(HeadFor(m))], landed := s.landed + {p.attempt},
                     chain := [m] + s.chain)
    ensures Inv(t) && p.attempt !in s.landed
  {
    ChainShifts(s, p.attempt, m, t);
    ObjectsShift(s, m, t);
  }

  // ---- checkpoints and sweeps ----

  lemma CheckpointFits(store: Store, built: set<Manifest>, chain: seq<Manifest>, key: Key, content: Object)
    requires StoreSound(store, built) && HeadTied(store, chain) && (key == CheckpointKey || key.CheckpointManifestKey?)
    ensures StoreSound(store[key := content], built) && HeadTied(store[key := content], chain)
  {
  }

  lemma CheckpointPutKeeps(s: State, base: Manifest, t: State)
    requires Inv(s) && CanCheckpointPut(s, base) && t == AfterCheckpointPut(s, base)
    ensures Inv(t)
  {
    StoreKeeps(s.store, CheckpointKeyOf(base), CheckpointOf(base), s);
    CheckpointFits(s.store, s.built, s.chain, CheckpointKeyOf(base), CheckpointOf(base));
  }

  lemma CheckpointPointKeeps(s: State, base: Manifest, t: State)
    requires Inv(s) && CanCheckpointPoint(s, base) && t == AfterCheckpointPoint(s, base)
    ensures Inv(t)
  {
    var i :| 0 <= i < |s.chain| && s.chain[i] == base;
    assert LinkedAt(s.chain, i);
    StoreKeeps(s.store, CheckpointKey, PointerTo(base), s);
    SweptRises(t.store, s, t.swept);
    CheckpointFits(s.store, s.built, s.chain, CheckpointKey, PointerTo(base));
  }

  /** A higher covered generation only weakens what has to be stored. */
  lemma SweptRises(store: Store, s: State, swept: nat)
    requires s.swept <= swept <= |s.chain|
    requires ChainStored(store, s.chain, s.swept) && ProgressSound(store, s.swept, s.attempts)
    requires NetworkSound(store, s.swept, s.attempts, s.network)
    requires AcceptedSound(store, s.swept, s.attempts, s.accepted)
    requires SweepsSound(s.chain, s.built, s.swept, s.sweeps)
    ensures ChainStored(store, s.chain, swept) && ProgressSound(store, swept, s.attempts)
    ensures NetworkSound(store, swept, s.attempts, s.network)
    ensures AcceptedSound(store, swept, s.attempts, s.accepted)
    ensures SweepsSound(s.chain, s.built, swept, s.sweeps)
  {
    forall p | p in s.network ensures PutSound(store, swept, s.attempts, p) {
      assert PutSound(store, s.swept, s.attempts, p);
    }
    forall p | p in s.accepted ensures AcceptedAt(store, swept, s.attempts, p) {
      assert AcceptedAt(store, s.swept, s.attempts, p);
    }
    forall k | k in s.sweeps ensures SweepSound(s.chain, s.built, swept, s.sweeps[k]) {
      assert SweepSound(s.chain, s.built, s.swept, s.sweeps[k]);
    }
  }

  /** The parent of a built manifest that is not above the checkpoint lies below it. */
  lemma ParentBelow(s: State, m: Manifest)
    requires Inv(s) && m in s.built && m.generation <= s.swept
    ensures SweepSound(s.chain, s.built, s.swept, Below(m))
  {
    assert ParentOnChain(s.chain, m);
  }

  lemma SweepBeginKeeps(s: State, k: nat, t: State)
    requires Inv(s) && CanSweepBegin(s, k) && t == AfterSweepBegin(s, k)
    ensures Inv(t)
  {
    SweepsReplace(s.chain, s.built, s.swept, s.sweeps, k, t.sweeps[k]);
  }

  lemma SweepsReplace(chain: seq<Manifest>, built: set<Manifest>, swept: nat, sweeps: map<nat, Sweep>, k: nat, w: Sweep)
    requires SweepsSound(chain, built, swept, sweeps) && SweepSound(chain, built, swept, w)
    ensures SweepsSound(chain, built, swept, sweeps[k := w])
  {
  }

  lemma SweepReadKeeps(s: State, k: nat, t: State)
    requires Inv(s) && CanSweepRead(s, k) && t == AfterSweepRead(s, k)
    ensures Inv(t)
  {
    var w, next := s.sweeps[k], SweepNext(s.store, s.sweeps[k]);
    assert SweepSound(s.chain, s.built, s.swept, w);
    if next.Some? {
      if w.Based? {
        ParentBelow(s, s.store[ManifestKey(w.id)].manifest);
      }
      SweepsReplace(s.chain, s.built, s.swept, s.sweeps, k, next.value);
    }
  }

  /** The keys of the objects of one commit: its manifest and the segments that carry its id. */
  ghost predicate Belongs(key: Key, id: string) {
    || key == ManifestKey(id)
    || (key.SegmentKey? && key.digest.preimage.SegmentObject? && key.digest.preimage.commitId == id)
  }

  /** No manifest anybody built for this id is at or above the checkpoint. */
  ghost predicate Superseded(built: set<Manifest>, swept: nat, id: string) {
    forall m :: m in built && m.commitId == id ==> m.generation < swept
  }

  /** The generation of a chain element is its place counted from the end. */
  lemma AtGeneration(chain: seq<Manifest>, built: set<Manifest>, g: nat)
    requires Linked(chain) && ChainBuilt(chain, built) && 1 <= g <= |chain|
    ensures At(chain, g).generation == g && At(chain, g) in built
  {
    assert LinkedAt(chain, |chain| - g);
  }

  lemma SweepTargetsSuperseded(chain: seq<Manifest>, built: set<Manifest>, swept: nat, w: Sweep)
    requires Linked(chain) && ChainBuilt(chain, built) && OneGenerationPerId(built)
    requires SweepSound(chain, built, swept, w)
    requires Deleting(w) && CarriesId(w.doomed.value)
    ensures Belongs(SweepTarget(w), w.id) && Superseded(built, swept, w.id)
    ensures w.doomed.value.generation < swept
  {
    AtGeneration(chain, built, w.generation);
  }

  lemma RemoveKeepsPresent(store: Store, key: Key, id: string, m: Manifest)
    requires Belongs(key, id) && m.commitId != id && CarriesId(m) && Present(store, m)
    ensures Present(store - {key}, m)
  {
  }

  lemma RemoveKeepsStored(store: Store, key: Key, id: string, r: Request, part: Part)
    requires Belongs(key, id) && r.commitId != id && StoredBefore(store, r, part)
    ensures StoredBefore(store - {key}, r, part)
  {
    forall i | 0 <= i < (if part.SegmentPart? then part.index else |r.segments|)
      ensures PartStored(store - {key}, r, SegmentPart(i))
    {
      assert PartStored(store, r, SegmentPart(i));
    }
  }

  lemma RemoveKeepsChain(store: Store, chain: seq<Manifest>, built: set<Manifest>, swept: nat, key: Key, id: string)
    requires ChainStored(store, chain, swept) && ChainBuilt(chain, built) && BuiltSound(built, chain)
    requires Belongs(key, id) && Superseded(built, swept, id)
    ensures ChainStored(store - {key}, chain, swept)
  {
    forall i | 0 <= i < |chain| && chain[i].generation >= swept ensures Present(store - {key}, chain[i]) {
      assert chain[i] in built;
      RemoveKeepsPresent(store, key, id, chain[i]);
    }
  }

  lemma RemoveKeepsAttempts(s: State, key: Key, id: string)
    requires AttemptsSound(s.chain, s.built, s.attempts)
    requires ProgressSound(s.store, s.swept, s.attempts) && NetworkSound(s.store, s.swept, s.attempts, s.network)
    requires AcceptedSound(s.store, s.swept, s.attempts, s.accepted)
    requires Belongs(key, id) && Superseded(s.built, s.swept, id)
    ensures ProgressSound(s.store - {key}, s.swept, s.attempts)
    ensures NetworkSound(s.store - {key}, s.swept, s.attempts, s.network)
    ensures AcceptedSound(s.store - {key}, s.swept, s.attempts, s.accepted)
  {
    var store := s.store - {key};
    forall a | a in s.attempts && s.attempts[a].phase.Uploading? &&
      ManifestOf(s.attempts[a].request).generation > s.swept
      ensures StoredBefore(store, s.attempts[a].request, s.attempts[a].phase.part)
    {
      assert RequestSound(s.chain, s.built, s.attempts[a].request);
      RemoveKeepsStored(s.store, key, id, s.attempts[a].request, s.attempts[a].phase.part);
    }
    forall p | p in s.network ensures PutSound(store, s.swept, s.attempts, p) {
      assert PutSound(s.store, s.swept, s.attempts, p);
      assert RequestSound(s.chain, s.built, s.attempts[p.attempt].request);
      if p.part.HeadPart? && ManifestOf(s.attempts[p.attempt].request).generation > s.swept {
        RemoveKeepsStored(s.store, key, id, s.attempts[p.attempt].request, HeadPart);
      }
    }
    forall p | p in s.accepted ensures AcceptedAt(store, s.swept, s.attempts, p) {
      assert AcceptedAt(s.store, s.swept, s.attempts, p);
      assert RequestSound(s.chain, s.built, s.attempts[p.attempt].request);
    }
  }

  lemma RemoveKeepsShape(store: Store, built: set<Manifest>, chain: seq<Manifest>, key: Key, id: string)
    requires StoreSound(store, built) && HeadTied(store, chain) && Belongs(key, id)
    ensures StoreSound(store - {key}, built) && HeadTied(store - {key}, chain)
  {
  }

  lemma SweepDeleteKeeps(s: State, k: nat, effective: bool, t: State)
    requires Inv(s) && CanSweepDelete(s, k) && t == AfterSweepDelete(s, k, effective)
    ensures Inv(t)
  {
    var w := s.sweeps[k];
    assert SweepSound(s.chain, s.built, s.swept, w) && s.uniqueIds;
    SweepTargetsSuperseded(s.chain, s.built, s.swept, w);
    if effective {
      var key := SweepTarget(w);
      RemoveKeepsChain(s.store, s.chain, s.built, s.swept, key, w.id);
      RemoveKeepsAttempts(s, key, w.id);
      RemoveKeepsShape(s.store, s.built, s.chain, key, w.id);
    }
    ParentBelow(s, w.doomed.value);
    SweepsReplace(s.chain, s.built, s.swept, s.sweeps, k, SweepAdvance(w));
  }

  // ---- every step ----

  lemma ChainStep(s: State, step: Step)
    requires Enabled(s, step)
    ensures var t := Do(s, step);
      if step.Deliver? && step.put.part.HeadPart?
      then t.chain == [ManifestOf(s.attempts[step.put.attempt].request)] + s.chain
      else t.chain == s.chain
  {
  }

  lemma RequestsStep(s: State, step: Step)
    requires Enabled(s, step)
    ensures s.swept <= Do(s, step).swept && s.uniqueIds == Do(s, step).uniqueIds
    ensures forall a :: a in s.attempts ==>
      a in Do(s, step).attempts && Do(s, step).attempts[a].request == s.attempts[a].request
  {
  }

  lemma EndsWithRest<T>(x: T, tail: seq<T>)
    ensures EndsWith([x] + tail, tail) && EndsWith(tail, tail)
  {
  }

  /** Nothing but an accepted HEAD swap changes the chain, and that adds one manifest in front. */
  lemma StepExtends(s: State, step: Step)
    requires Enabled(s, step)
    ensures EndsWith(Do(s, step).chain, s.chain)
    ensures s.swept <= Do(s, step).swept && s.uniqueIds == Do(s, step).uniqueIds
    ensures forall a :: a in s.attempts ==>
      a in Do(s, step).attempts && Do(s, step).attempts[a].request == s.attempts[a].request
  {
    ChainStep(s, step);
    RequestsStep(s, step);
    if step.Deliver? && step.put.part.HeadPart? {
      EndsWithRest(ManifestOf(s.attempts[step.put.attempt].request), s.chain);
    }
  }

  lemma AttemptStepKeeps(s: State, step: Step)
    requires Inv(s) && Enabled(s, step) && (step.Begin? || step.Send? || step.Confirm? || step.Finish?)
    ensures Inv(Do(s, step))
  {
    var t := Do(s, step);
    match step
    case Begin(a, r) => BeginKeeps(s, a, r, t);
    case Send(a) => SendKeeps(s, a, t);
    case Confirm(a) => ConfirmKeeps(s, a, t);
    case Finish(a, r) => FinishKeeps(s, a, r, t);
    case _ => assert false;
  }

  lemma CheckpointStepKeeps(s: State, step: Step)
    requires Inv(s) && Enabled(s, step) && (step.CheckpointPut? || step.CheckpointPoint?)
    ensures Inv(Do(s, step))
  {
    var t := Do(s, step);
    if step.CheckpointPut? {
      CheckpointPutKeeps(s, step.base, t);
    } else {
      CheckpointPointKeeps(s, step.base, t);
    }
  }

  lemma SweepStepKeeps(s: State, step: Step)
    requires Inv(s) && Enabled(s, step) && (step.SweepBegin? || step.SweepRead? || step.SweepDelete?)
    ensures Inv(Do(s, step))
  {
    var t := Do(s, step);
    match step
    case SweepBegin(k) => SweepBeginKeeps(s, k, t);
    case SweepRead(k) => SweepReadKeeps(s, k, t);
    case SweepDelete(k, effective) => SweepDeleteKeeps(s, k, effective, t);
    case _ => assert false;
  }

  lemma DeliverKeeps(s: State, p: Put, t: State)
    requires Inv(s) && CanDeliver(s, p) && t == AfterDeliver(s, p)
    ensures Inv(t)
  {
    if p.part.HeadPart? {
      DeliverKeepsHead(s, p, t);
    } else {
      DeliverKeepsImmutable(s, p, t);
    }
  }

  lemma StepKeeps(s: State, step: Step)
    requires Inv(s) && Enabled(s, step)
    ensures Inv(Do(s, step))
  {
    match step
    case Deliver(p) => DeliverKeeps(s, p, Do(s, step));
    case CheckpointPut(_) => CheckpointStepKeeps(s, step);
    case CheckpointPoint(_) => CheckpointStepKeeps(s, step);
    case SweepBegin(_) => SweepStepKeeps(s, step);
    case SweepRead(_) => SweepStepKeeps(s, step);
    case SweepDelete(_, _) => SweepStepKeeps(s, step);
    case _ => AttemptStepKeeps(s, step);
  }
}

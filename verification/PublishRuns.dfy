/**
 Runs of the publish protocol that exist: a commit can always be published, a checkpoint can always
 be swept, and the checkpoint pointer can go back. They show where the theorems end.
 */
module PublishRuns {
  import opened Prelude
  import opened CommitChain
  import opened PublishProtocol
  import opened PublishSafety
  import opened PublishTheorems
  import R = ResolveCommit

  // ---- putting runs together ----

  lemma {:induction false} RunAppend(s: State, first: seq<Step>, u: State, second: seq<Step>, t: State)
    requires Run(s, first, u) && Run(u, second, t)
    ensures Run(s, first + second, t)
    decreases |first|
  {
    if first == [] {
      assert first + second == second;
    } else {
      assert (first + second)[1..] == first[1..] + second;
      RunAppend(Do(s, first[0]), first[1..], u, second, t);
    }
  }

  lemma ReachesThen(s: State, u: State, t: State)
    requires Reaches(s, u) && Reaches(u, t)
    ensures Reaches(s, t)
  {
    var first :| Run(s, first, u);
    var second :| Run(u, second, t);
    RunAppend(s, first, u, second, t);
  }

  lemma ReachesSelf(s: State)
    ensures Reaches(s, s)
  {
    assert Run(s, [], s);
  }

  lemma ReachesStep(s: State, step: Step, t: State)
    requires Enabled(s, step) && t == Do(s, step)
    ensures Reaches(s, t)
  {
    assert [step][1..] == [];
    assert Run(t, [], t);
    assert Run(s, [step], t);
  }

  lemma ReachableThen(s: State, t: State)
    requires Reachable(s) && Reaches(s, t)
    ensures Reachable(t)
  {
    var uniqueIds :| Reaches(Initial(uniqueIds), s);
    ReachesThen(Initial(uniqueIds), s, t);
  }

  // ---- a publish from start to end ----

  /** An attempt uploads one of its objects, or finds it there. */
  lemma Uploads(s: State, a: nat) returns (t: State)
    requires Working(s, a) && !s.attempts[a].phase.part.HeadPart?
    requires var r, part := s.attempts[a].request, s.attempts[a].phase.part;
      KeyOf(r, part) in s.store ==> s.store[KeyOf(r, part)] == ContentOf(r, part)
    ensures Reaches(s, t) && Moved(s, t, a)
  {
    var r, part := s.attempts[a].request, s.attempts[a].phase.part;
    var p := Put(a, part);
    var u := AfterSend(s, a);
    ReachesStep(s, Send(a), u);
    var v := u;
    if KeyOf(r, part) in u.store {
      ReachesSelf(u);
    } else {
      v := AfterDeliver(u, p);
      ReachesStep(u, Deliver(p), v);
    }
    t := AfterConfirm(v, a);
    ReachesStep(v, Confirm(a), t);
    ReachesThen(u, v, t);
    ReachesThen(s, u, t);
  }

  /** The attempt is at its next part, and the store has the uploaded object. */
  ghost predicate Moved(s: State, t: State, a: nat)
    requires Working(s, a)
  {
    var r, part := s.attempts[a].request, s.attempts[a].phase.part;
    && t.chain == s.chain && t.built == s.built && t.swept == s.swept && t.uniqueIds == s.uniqueIds &&
      t.sweeps == s.sweeps
    && t.attempts == s.attempts[a := Attempt(r, Uploading(NextPart(r, part)))]
    && t.store == s.store[KeyOf(r, part) := ContentOf(r, part)]
  }

  /** The HEAD swap of an attempt whose parent still is HEAD. */
  lemma Swaps(s: State, a: nat) returns (t: State)
    requires Working(s, a) && s.attempts[a].phase.part.HeadPart?
    requires Accepts(s.store, HeadKey, ConditionOf(s.attempts[a].request, HeadPart))
    ensures Reaches(s, t) && t.chain == [ManifestOf(s.attempts[a].request)] + s.chain && a in t.landed
    ensures t.built == s.built && t.swept == s.swept && t.uniqueIds == s.uniqueIds && t.sweeps == s.sweeps
    ensures t.attempts == s.attempts && forall key :: key != HeadKey ==> (key in t.store <==> key in s.store)
  {
    var p := Put(a, HeadPart);
    var u := AfterSend(s, a);
    ReachesStep(s, Send(a), u);
    t := AfterDeliver(u, p);
    ReachesStep(u, Deliver(p), t);
    ReachesThen(s, u, t);
  }

  /** A commit of one segment on the HEAD of a state. */
  function SmallRequest(s: State, id: string, pages: seq<nat>): Request {
    var parent := if HeadKey in s.store && s.store[HeadKey].HeadObject? then Some(s.store[HeadKey].head) else None;
    Request(parent, id, [SegmentInput([], Some(pages))])
  }

  lemma HeadRequest(s: State, id: string, pages: seq<nat>, r: Request)
    requires Linked(s.chain) && HeadTied(s.store, s.chain) && r == SmallRequest(s, id, pages) && id != ""
    requires ValidPages(Some(pages))
    requires s.chain != [] ==> s.chain[0].commitId != ""
    ensures ValidRequest(r) && Accepts(s.store, HeadKey, ConditionOf(r, HeadPart))
    ensures if HeadKey in s.store
            then s.store[HeadKey].HeadObject? && r.parent == Some(s.store[HeadKey].head)
            else r.parent.None?
  {
    if s.chain != [] {
      assert LinkedAt(s.chain, 0);
    }
  }

  lemma FreshParts(store: Store, built: set<Manifest>, r: Request)
    requires StoreSound(store, built) && forall m :: m in built ==> m.commitId != r.commitId
    ensures IdFits(built, ManifestOf(r)) && Fresh(store, r)
  {
  }

  /** Nothing of the request is stored, or it is stored as the request has it. */
  ghost predicate Fresh(store: Store, r: Request) {
    KeyOf(r, ManifestPart) !in store && forall i :: 0 <= i < |r.segments| ==> FreshAt(store, r, i)
  }

  ghost predicate FreshAt(store: Store, r: Request, i: nat)
    requires i < |r.segments|
  {
    var part := SegmentPart(i);
    KeyOf(r, part) in store ==> store[KeyOf(r, part)] == ContentOf(r, part)
  }

  lemma FreshKept(store: Store, r: Request, i: nat)
    requires Fresh(store, r) && i < |r.segments|
    ensures Fresh(store[KeyOf(r, SegmentPart(i)) := ContentOf(r, SegmentPart(i))], r)
  {
    var more := store[KeyOf(r, SegmentPart(i)) := ContentOf(r, SegmentPart(i))];
    forall j | 0 <= j < |r.segments| ensures FreshAt(more, r, j) {
      assert FreshAt(store, r, j);
    }
  }

  /** Nothing but uploaded objects changed. */
  ghost predicate OnlyUploads(s: State, t: State) {
    && t.chain == s.chain && t.built == s.built && t.swept == s.swept && t.uniqueIds == s.uniqueIds &&
      t.sweeps == s.sweeps
    && t.attempts.Keys == s.attempts.Keys
    && (HeadKey in t.store <==> HeadKey in s.store) && (HeadKey in s.store ==> t.store[HeadKey] == s.store[HeadKey])
  }

  /** The segments from i on, and then the manifest. */
  lemma {:induction false} UploadsFrom(s: State, a: nat, r: Request, i: nat) returns (t: State)
    requires a in s.attempts && i < |r.segments| && s.attempts[a] == Attempt(r, Uploading(SegmentPart(i)))
    requires Fresh(s.store, r)
    ensures Reaches(s, t) && OnlyUploads(s, t) && t.attempts[a] == Attempt(r, Uploading(HeadPart))
    decreases |r.segments| - i
  {
    assert FreshAt(s.store, r, i);
    var u := Uploads(s, a);
    FreshKept(s.store, r, i);
    if i + 1 < |r.segments| {
      t := UploadsFrom(u, a, r, i + 1);
    } else {
      t := Uploads(u, a);
    }
    ReachesThen(s, u, t);
  }

  /** The uploads and the swap of a request that can begin, and its result. */
  lemma PublishRun(s: State, a: nat, r: Request) returns (t: State)
    requires CanBegin(s, a, r) && Fresh(s.store, r)
    requires Accepts(s.store, HeadKey, ConditionOf(r, HeadPart))
    ensures Reaches(s, t) && t.chain == [ManifestOf(r)] + s.chain && t.built == s.built + {ManifestOf(r)}
    ensures t.swept == s.swept && t.uniqueIds == s.uniqueIds && t.sweeps == s.sweeps
    ensures t.attempts.Keys == s.attempts.Keys + {a} && t.attempts[a] == Attempt(r, Finished(JournalOk))
  {
    var b := AfterBegin(s, a, r);
    ReachesStep(s, Begin(a, r), b);
    var d := UploadsFrom(b, a, r, 0);
    var e := Swaps(d, a);
    t := AfterFinish(e, a, JournalOk);
    ReachesStep(e, Finish(a, JournalOk), t);
    ReachesThen(d, e, t);
    ReachesThen(b, d, t);
    ReachesThen(s, b, t);
  }

  /**
   A request on the current HEAD, of any number of segments, can be published: a run returns OK, and then
   the front of the chain says what the request asked for and the store has its payloads in their order.
   */
  lemma PublishesRequest(s: State, a: nat, r: Request) returns (t: State)
    requires Reachable(s) && CanBegin(s, a, r) && Fresh(s.store, r)
    ensures Reaches(s, t) && t.attempts.Keys == s.attempts.Keys + {a}
    ensures t.attempts[a] == Attempt(r, Finished(JournalOk))
    ensures HeadSound(t.store) && HeadSound(s.store) && |Chain(t.store)| == |Chain(s.store)| + 1
    ensures EndsWith(Chain(t.store), Chain(s.store))
    ensures Describes(Chain(t.store)[0], r) && StoresData(t.store, Chain(t.store)[0], r)
    ensures t.swept == s.swept && t.uniqueIds == s.uniqueIds && t.sweeps == s.sweeps
    ensures t.built == s.built + {Chain(t.store)[0]}
  {
    HeadAccepts(s, a, r);
    t := PublishRun(s, a, r);
    ReachableThen(s, t);
    ChainOnlyGrows(s, t);
    assert Chain(s.store) == s.chain && Chain(t.store) == t.chain && s.swept <= |s.chain| && Linked(t.chain) by {
      ReachableInv(s);
      ReachableInv(t);
      StoreSpellsChain(s);
      StoreSpellsChain(t);
    }
    assert LinkedAt(t.chain, 0);
    DescribesRequest(r);
    assert Present(t.store, t.chain[0]) by {
      ReachableInv(t);
    }
    PresentData(t.store, r);
  }

  /** Whoever read the current HEAD may replace it. */
  lemma HeadAccepts(s: State, a: nat, r: Request)
    requires Reachable(s) && CanBegin(s, a, r)
    ensures Accepts(s.store, HeadKey, ConditionOf(r, HeadPart))
  {
  }

  /** Commit n of a run that does nothing but publish. */
  ghost predicate Quiet(s: State, n: nat) {
    && |s.chain| == n && s.uniqueIds && s.swept == 0 && s.sweeps == map[]
    && (forall a :: a in s.attempts ==> a < n)
    && (forall m :: m in s.built ==> |m.commitId| <= n)
  }

  function Id(n: nat): (id: string)
    ensures |id| == n + 1
  {
    if n == 0 then "c" else Id(n - 1) + "c"
  }

  lemma NextRequest(u: State, n: nat, pages: seq<nat>, r: Request)
    requires Reachable(u) && Quiet(u, n) && r == SmallRequest(u, Id(n), pages) && ValidPages(Some(pages))
    ensures CanBegin(u, n, r) && Fresh(u.store, r) && Accepts(u.store, HeadKey, ConditionOf(r, HeadPart))
    ensures ManifestOf(r).commitId == Id(n)
  {
    ReachableInv(u);
    assert u.chain != [] ==> u.chain[0] in u.built;
    HeadRequest(u, Id(n), pages, r);
    FreshParts(u.store, u.built, r);
  }

  /** The commits of a chain, oldest first, have one segment each, with these pages. */
  ghost predicate Touches(chain: seq<Manifest>, pageSets: seq<seq<nat>>) {
    |chain| == |pageSets| && forall i :: 0 <= i < |chain| ==> TouchesAt(chain, pageSets, i)
  }

  ghost predicate TouchesAt(chain: seq<Manifest>, pageSets: seq<seq<nat>>, i: nat)
    requires i < |chain| == |pageSets|
  {
    var m := chain[|chain| - 1 - i];
    |m.segments| == 1 && m.segments[0].pages == pageSets[i]
  }

  lemma TouchesNext(chain: seq<Manifest>, pageSets: seq<seq<nat>>, m: Manifest, pages: seq<nat>)
    requires Touches(chain, pageSets) && |m.segments| == 1 && m.segments[0].pages == pages
    ensures Touches([m] + chain, pageSets + [pages])
  {
    forall i | 0 <= i < |chain| + 1 ensures TouchesAt([m] + chain, pageSets + [pages], i) {
      if i < |chain| {
        assert TouchesAt(chain, pageSets, i);
      }
    }
  }

  /** There are states with a chain of any length, with any page sets. */
  lemma {:induction false} ChainsExist(pageSets: seq<seq<nat>>) returns (s: State)
    requires forall i :: 0 <= i < |pageSets| ==> ValidPages(Some(pageSets[i]))
    ensures Reachable(s) && Quiet(s, |pageSets|) && Touches(s.chain, pageSets)
    decreases |pageSets|
  {
    if pageSets == [] {
      s := Initial(true);
      ReachesSelf(s);
    } else {
      var n := |pageSets| - 1;
      var u := ChainsExist(pageSets[..n]);
      var r := SmallRequest(u, Id(n), pageSets[n]);
      NextRequest(u, n, pageSets[n], r);
      s := PublishRun(u, n, r);
      ReachableThen(u, s);
      TouchesNext(u.chain, pageSets[..n], ManifestOf(r), pageSets[n]);
      assert pageSets == pageSets[..n] + [pageSets[n]];
    }
  }

  // ---- a sweep from start to its first manifest ----

  /** What a sweep leaves alone. */
  ghost predicate SameBut(s: State, t: State) {
    && t.chain == s.chain && t.swept == s.swept && t.uniqueIds == s.uniqueIds
    && (forall key: Key :: key == CheckpointKey || key.CheckpointManifestKey? ==>
          (key in t.store <==> key in s.store) && (key in s.store ==> t.store[key] == s.store[key]))
  }

  /** The deletes of one manifest, all of them effective. */
  lemma {:induction false} SweepsManifest(s: State, k: nat) returns (t: State)
    requires CanSweepDelete(s, k)
    ensures Reaches(s, t) && SameBut(s, t) && ManifestKey(s.sweeps[k].id) !in t.store
    decreases |s.sweeps[k].doomed.value.segments| - s.sweeps[k].deleted
  {
    var w := s.sweeps[k];
    var u := AfterSweepDelete(s, k, true);
    ReachesStep(s, SweepDelete(k, true), u);
    if w.deleted < |w.doomed.value.segments| {
      t := SweepsManifest(u, k);
      ReachesThen(s, u, t);
    } else {
      t := u;
    }
  }

  /** The checkpoint of a commit is stored, and CHECKPOINT.json points at it. */
  ghost predicate Points(store: Store, base: Manifest) {
    && CheckpointKeyOf(base) in store && store[CheckpointKeyOf(base)] == CheckpointOf(base)
    && CheckpointKey in store && store[CheckpointKey] == PointerTo(base)
  }

  /** A checkpoint is written and pointed at. */
  lemma Checkpoints(s: State, base: Manifest) returns (t: State)
    requires base in s.chain
    ensures Reaches(s, t) && Points(t.store, base) && t.chain == s.chain && t.sweeps == s.sweeps
    ensures t.uniqueIds == s.uniqueIds
    ensures t.swept == if s.uniqueIds && s.swept < base.generation then base.generation else s.swept
    ensures forall key :: key != CheckpointKey && key != CheckpointKeyOf(base) ==>
      (key in t.store <==> key in s.store) && (key in s.store ==> t.store[key] == s.store[key])
  {
    var u := AfterCheckpointPut(s, base);
    ReachesStep(s, CheckpointPut(base), u);
    t := AfterCheckpointPoint(u, base);
    ReachesStep(u, CheckpointPoint(base), t);
    ReachesThen(s, u, t);
  }

  /** A checkpoint at generation w, and its sweep up to the manifest below it. */
  ghost predicate SweptBelow(s: State, t: State, w: nat)
    requires 2 <= w <= |s.chain|
  {
    && t.chain == s.chain && t.swept == w && t.uniqueIds
    && ManifestKey(At(s.chain, w - 1).commitId) !in t.store
    && Points(t.store, At(s.chain, w))
  }

  lemma Neighbours(store: Store, chain: seq<Manifest>, swept: nat, w: nat, base: Manifest, below: Manifest)
    requires Linked(chain) && ChainStored(store, chain, swept) && 2 <= w <= |chain| && swept < w
    requires base == At(chain, w) && below == At(chain, w - 1)
    ensures Decodes(ManifestObject(base)) && Decodes(ManifestObject(below))
    ensures R.Readable(store, base) && R.Readable(store, below)
    ensures base.parentCommitId == below.commitId && base.parentGeneration == below.generation == w - 1
    ensures base.generation == w && base in chain
  {
    assert LinkedAt(chain, |chain| - w) && LinkedAt(chain, |chain| - (w - 1));
    assert Present(store, base) && Present(store, below);
  }

  lemma SweepReads(s: State, k: nat, w: Sweep) returns (t: State)
    requires CanSweepRead(s, k) && SweepNext(s.store, s.sweeps[k]) == Some(w)
    ensures Reaches(s, t) && t == s.(sweeps := s.sweeps[k := w])
  {
    t := AfterSweepRead(s, k);
    ReachesStep(s, SweepRead(k), t);
  }

  lemma Rewritten<K, V>(m: map<K, V>, k: K, a: V, b: V, c: V)
    ensures m[k := a][k := b][k := c] == m[k := c]
  {
  }

  /** The three reads of a sweep. */
  lemma SweepStarts(u: State, k: nat, base: Manifest) returns (t: State)
    requires u.uniqueIds && k !in u.sweeps && Points(u.store, base)
    requires Decodes(ManifestObject(base)) && R.Readable(u.store, base)
    ensures Reaches(u, t) && t == u.(sweeps := u.sweeps[k := Below(base)])
  {
    var v := AfterSweepBegin(u, k);
    ReachesStep(u, SweepBegin(k), v);
    var x := SweepReads(v, k, Based(base.generation, base.commitId));
    t := SweepReads(x, k, Below(base));
    ReachesThen(v, x, t);
    ReachesThen(u, v, t);
    Rewritten(u.sweeps, k, v.sweeps[k], x.sweeps[k], Below(base));
  }

  /** From the checkpoint on: the sweep reads and deletes. */
  lemma SweepRuns(u: State, k: nat, base: Manifest, below: Manifest) returns (t: State)
    requires u.uniqueIds && k !in u.sweeps && Points(u.store, base)
    requires Decodes(ManifestObject(base)) && R.Readable(u.store, base)
    requires Decodes(ManifestObject(below)) && R.Readable(u.store, below)
    requires base.parentCommitId == below.commitId && base.parentGeneration == below.generation > 0
    ensures Reaches(u, t) && SameBut(u, t) && ManifestKey(below.commitId) !in t.store
  {
    var v := SweepStarts(u, k, base);
    var x := SweepReads(v, k, Sweeping(below.generation, below.commitId, Some(below), 0));
    t := SweepsManifest(x, k);
    ReachesThen(v, x, t);
    ReachesThen(u, v, t);
  }

  /** Any generation above the covered one can be covered next, and the manifest below it be deleted. */
  lemma SweepHappens(s: State, w: nat, k: nat) returns (t: State)
    requires Reachable(s) && s.uniqueIds && 2 <= w <= |s.chain| && s.swept < w && k !in s.sweeps
    ensures Reaches(s, t) && SweptBelow(s, t, w)
  {
    var base, below := At(s.chain, w), At(s.chain, w - 1);
    assert Linked(s.chain) && ChainStored(s.store, s.chain, s.swept) by {
      ReachableInv(s);
    }
    Neighbours(s.store, s.chain, s.swept, w, base, below);
    var u := Checkpoints(s, base);
    t := SweepRuns(u, k, base, below);
    ReachesThen(s, u, t);
  }

  // ---- the stored checkpoint pointer ----

  /** Every commit of the chain from a generation on is complete in the store. */
  ghost predicate CompleteFrom(store: Store, generation: nat) {
    HeadSound(store) && forall m :: m in Chain(store) && m.generation >= generation ==> Present(store, m)
  }

  ghost predicate Covers(store: Store, generation: nat) {
    ReadCheckpoint(store).Some? && ReadCheckpoint(store).value.0 == generation
  }

  /** While the pointer holds the highest generation ever covered, everything from it on is there. */
  lemma CoveredIsComplete(s: State)
    requires Reachable(s)
    ensures CompleteFrom(s.store, s.swept)
  {
    ChainShape(s);
  }

  /** The pointer goes back: it names a generation, and a manifest at or above that generation is gone. */
  lemma PointerGoesBack(s: State, g: nat, w: nat, k: nat) returns (t: State)
    requires Reachable(s) && s.uniqueIds && 1 <= g < w <= |s.chain| && s.swept < w && k !in s.sweeps
    ensures Reaches(s, t) && t.swept == w && Covers(t.store, g) && !CompleteFrom(t.store, g)
  {
    var u := SweepHappens(s, w, k);
    var base := At(s.chain, g);
    assert base.generation == g && base in u.chain by {
      ReachableInv(s);
      AtGeneration(s.chain, s.built, g);
    }
    t := Checkpoints(u, base);
    ReachesThen(s, u, t);
    Missing(s, t, g, w);
  }

  lemma Missing(s: State, t: State, g: nat, w: nat)
    requires Reachable(s) && Reaches(s, t) && 1 <= g < w <= |s.chain| && t.chain == s.chain
    requires ManifestKey(At(s.chain, w - 1).commitId) !in t.store
    ensures !CompleteFrom(t.store, g)
  {
    SpellsChain(s, t);
    ReachableAt(s, w - 1);
    NotComplete(t.store, g, At(s.chain, w - 1));
  }

  lemma SpellsChain(s: State, t: State)
    requires Reachable(s) && Reaches(s, t)
    ensures HeadSound(t.store) && Chain(t.store) == t.chain
  {
    ReachableInv(s);
    ReachesKeeps(s, t);
    StoreSpellsChain(t);
  }

  lemma ReachableAt(s: State, g: nat)
    requires Reachable(s) && 1 <= g <= |s.chain|
    ensures At(s.chain, g) in s.chain && At(s.chain, g).generation == g
  {
    ReachableInv(s);
    AtGeneration(s.chain, s.built, g);
  }

  lemma NotComplete(store: Store, g: nat, m: Manifest)
    requires HeadSound(store) && m in Chain(store) && m.generation >= g && ManifestKey(m.commitId) !in store
    ensures !CompleteFrom(store, g)
  {
    assert !Present(store, m);
  }

  /**
   Exactly when the stored pointer can be relied on: from every state, whatever happens next, a store
   whose pointer covers g after w was covered is complete from g on if and only if the pointer has
   not gone back.
   */
  lemma PointerExact(s: State, g: nat, w: nat, k: nat)
    requires Reachable(s) && s.uniqueIds && 1 <= g <= w <= |s.chain| && s.swept < w && k !in s.sweeps
    ensures (forall t :: Reaches(s, t) && t.swept == w && Covers(t.store, g) ==> CompleteFrom(t.store, g)) <==> g == w
  {
    if g == w {
      forall t | Reaches(s, t) && t.swept == w && Covers(t.store, g) ensures CompleteFrom(t.store, g) {
        ReachableThen(s, t);
        CoveredIsComplete(t);
      }
    } else {
      var t := PointerGoesBack(s, g, w, k);
    }
  }

  /** A checkpoint is only written at or above the generation the stored pointer has. */
  ghost predicate Forward(s: State, step: Step) {
    step.CheckpointPoint? ==> step.base.generation >= Pointer(s.store)
  }

  ghost predicate ForwardRun(s: State, steps: seq<Step>, t: State)
    decreases |steps|
  {
    if steps == [] then s == t
    else Enabled(s, steps[0]) && Forward(s, steps[0]) && ForwardRun(Do(s, steps[0]), steps[1..], t)
  }

  /** The stored pointer is at or above everything a sweep may have deleted. */
  ghost predicate NotBack(s: State) {
    s.uniqueIds ==> Pointer(s.store) == s.swept
  }

  lemma ForwardStep(s: State, step: Step)
    requires Enabled(s, step) && Forward(s, step) && NotBack(s)
    ensures NotBack(Do(s, step))
  {
  }

  lemma {:induction false} ForwardKeeps(s: State, steps: seq<Step>, t: State)
    requires ForwardRun(s, steps, t) && NotBack(s)
    ensures Run(s, steps, t) && NotBack(t)
    decreases |steps|
  {
    if steps != [] {
      ForwardStep(s, steps[0]);
      ForwardKeeps(Do(s, steps[0]), steps[1..], t);
    }
  }

  /**
   If every checkpoint is pointed at only at or above the stored pointer, which its builder can check,
   then in every state everything from the stored pointer on is complete, whatever sweeps have deleted.
   */
  lemma ForwardIsComplete(uniqueIds: bool, steps: seq<Step>, t: State)
    requires ForwardRun(Initial(uniqueIds), steps, t)
    ensures CompleteFrom(t.store, Pointer(t.store))
  {
    ForwardKeeps(Initial(uniqueIds), steps, t);
    assert Reaches(Initial(uniqueIds), t);
    CoveredIsComplete(t);
    assert t.swept <= Pointer(t.store) by {
      ReachableInv(t);
    }
  }
}

/**
 What a sweep that is left to run to its end does: every manifest below the covered generation goes,
 with all its segments, down to genesis or to one that was missing.
 */
module SweepRuns {
  import opened CommitChain
  import opened PublishProtocol
  import opened PublishSafety
  import opened PublishTheorems
  import opened PublishRuns

  /** Only this sweep takes steps, and all its deletes take effect. */
  ghost predicate Alone(steps: seq<Step>, k: nat) {
    forall i :: 0 <= i < |steps| ==> steps[i] == SweepRead(k) || steps[i] == SweepDelete(k, true)
  }

  /** The sweep has nothing left to do: it met a missing object, or it is past genesis. */
  ghost predicate Ended(s: State, k: nat) {
    k in s.sweeps ==> s.sweeps[k].Sweeping? && s.sweeps[k].doomed.None? && s.sweeps[k].generation == 0
  }

  ghost predicate SegmentsGone(store: Store, m: Manifest, n: nat)
    requires n <= |m.segments|
  {
    forall i :: 0 <= i < n ==> SegmentKey(m.segments[i].digest) !in store
  }

  /** The manifest of a commit was there; it and all its segments are gone. */
  ghost predicate Gone(before: Store, after: Store, id: string) {
    && ManifestKey(id) in before && before[ManifestKey(id)].ManifestObject? && ManifestKey(id) !in after
    && var m := before[ManifestKey(id)].manifest; SegmentsGone(after, m, |m.segments|)
  }

  /** The generations above `stop`, up to `top`, are gone; `stop` itself is genesis or was missing. */
  ghost predicate Cleared(before: Store, after: Store, chain: seq<Manifest>, top: nat, stop: nat) {
    && stop <= top <= |chain|
    && (forall g :: stop < g <= top ==> Gone(before, after, At(chain, g).commitId))
    && (stop > 0 ==> ManifestKey(At(chain, stop).commitId) !in before)
  }

  ghost predicate Shrinks(before: Store, after: Store) {
    forall key :: key in after ==> key in before && after[key] == before[key]
  }

  /** What the sweep holds in its hands is deleted up to where it is. */
  ghost predicate UnderWay(store: Store, w: Sweep) {
    w.Sweeping? && (w.doomed.Some? ==> w.deleted <= |w.doomed.value.segments| &&
                                       SegmentsGone(store, w.doomed.value, w.deleted))
  }

  /** The highest generation the sweep has yet to read. */
  ghost function Top(w: Sweep): int
    requires w.Sweeping?
  {
    if w.doomed.Some? then w.generation - 1 else w.generation
  }

  ghost predicate Swept(s: State, t: State, k: nat, stop: nat)
    requires k in s.sweeps && s.sweeps[k].Sweeping?
  {
    var w := s.sweeps[k];
    && t.chain == s.chain && Shrinks(s.store, t.store)
    && 0 <= Top(w) && Cleared(s.store, t.store, s.chain, Top(w), stop)
    && (w.doomed.Some? ==>
          ManifestKey(w.id) !in t.store && SegmentsGone(t.store, w.doomed.value, |w.doomed.value.segments|))
  }

  // ---- one step and then the rest ----

  /** The manifest to be read is missing: the sweep ends there. */
  lemma ReadMissing(s: State, k: nat)
    requires Reachable(s) && CanSweepRead(s, k) && s.sweeps[k].Sweeping? && SweepNext(s.store, s.sweeps[k]).None?
    ensures k !in AfterSweepRead(s, k).sweeps
    ensures Swept(s, AfterSweepRead(s, k), k, s.sweeps[k].generation)
  {
    ReachableInv(s);
    var w := s.sweeps[k];
    assert SweepSound(s.chain, s.built, s.swept, w);
  }

  /** The manifest is read, and all the rest happens. */
  lemma ReadThen(s: State, k: nat, u: State, t: State, stop: nat)
    requires Reachable(s) && CanSweepRead(s, k) && s.sweeps[k].Sweeping? && SweepNext(s.store, s.sweeps[k]).Some?
    requires u == AfterSweepRead(s, k) && Swept(u, t, k, stop)
    ensures Swept(s, t, k, stop)
  {
    ReachableInv(s);
    var w := s.sweeps[k];
    assert SweepSound(s.chain, s.built, s.swept, w);
    forall g | stop < g <= w.generation ensures Gone(s.store, t.store, At(s.chain, g).commitId) {
      if g == w.generation {
        assert u.sweeps[k].doomed.value == s.store[ManifestKey(w.id)].manifest;
      }
    }
  }

  lemma GoneBefore(before: Store, store: Store, after: Store, id: string)
    requires Shrinks(before, store) && Gone(store, after, id)
    ensures Gone(before, after, id)
  {
  }

  lemma ClearedBefore(before: Store, store: Store, after: Store, chain: seq<Manifest>, top: nat, stop: nat, key: Key)
    requires store == before - {key} && Cleared(store, after, chain, top, stop)
    requires forall g :: 1 <= g <= top ==> key != ManifestKey(At(chain, g).commitId)
    ensures Cleared(before, after, chain, top, stop)
  {
    forall g | stop < g <= top ensures Gone(before, after, At(chain, g).commitId) {
      GoneBefore(before, store, after, At(chain, g).commitId);
    }
  }

  /** A segment is deleted, and all the rest happens. */
  lemma SegmentThen(s: State, k: nat, u: State, t: State, stop: nat)
    requires CanSweepDelete(s, k) && s.sweeps[k].deleted < |s.sweeps[k].doomed.value.segments|
    requires u == AfterSweepDelete(s, k, true) && Swept(u, t, k, stop)
    ensures Swept(s, t, k, stop)
  {
    var w := s.sweeps[k];
    ClearedBefore(s.store, u.store, t.store, s.chain, w.generation - 1, stop, SweepTarget(w));
  }

  lemma IdsApart(s: State)
    requires Inv(s)
    ensures forall i, j :: 0 <= i < j < |s.chain| ==> s.chain[i].commitId != s.chain[j].commitId
  {
    forall i, j | 0 <= i < j < |s.chain| ensures s.chain[i].commitId != s.chain[j].commitId {
      IdsDistinct(s, i, j);
    }
  }

  /** The ids below a sweep's place are not its own. */
  lemma OtherIds(chain: seq<Manifest>, generation: nat)
    requires forall i, j :: 0 <= i < j < |chain| ==> chain[i].commitId != chain[j].commitId
    requires 1 <= generation <= |chain|
    ensures forall g :: 1 <= g < generation ==> At(chain, generation).commitId != At(chain, g).commitId
  {
  }

  /** The manifest is deleted, and all the rest happens. */
  lemma ManifestThen(s: State, k: nat, u: State, t: State, stop: nat)
    requires Reachable(s) && CanSweepDelete(s, k) && s.sweeps[k].deleted == |s.sweeps[k].doomed.value.segments|
    requires UnderWay(s.store, s.sweeps[k]) && u == AfterSweepDelete(s, k, true) && Swept(u, t, k, stop)
    ensures Swept(s, t, k, stop)
  {
    ReachableInv(s);
    var w := s.sweeps[k];
    assert SweepSound(s.chain, s.built, s.swept, w) && s.uniqueIds;
    DoomedGeneration(s.chain, s.built, s.swept, w);
    IdsApart(s);
    OtherIds(s.chain, w.generation);
    ClearedBefore(s.store, u.store, t.store, s.chain, w.generation - 1, stop, SweepTarget(w));
  }

  lemma StillUnderWay(s: State, k: nat, u: State)
    requires CanSweepDelete(s, k) && UnderWay(s.store, s.sweeps[k]) && u == AfterSweepDelete(s, k, true)
    ensures k in u.sweeps && UnderWay(u.store, u.sweeps[k])
  {
  }

  // ---- the whole sweep ----

  /** Past genesis the sweep has nothing to clear. */
  lemma NothingLeft(s: State, k: nat)
    requires Reachable(s) && k in s.sweeps && s.sweeps[k].Sweeping? && Ended(s, k)
    ensures Swept(s, s, k, 0)
  {
    ReachableInv(s);
  }

  /** The first step of a run of the sweep. */
  lemma FirstStep(s: State, steps: seq<Step>, t: State, k: nat) returns (u: State, rest: seq<Step>)
    requires Reachable(s) && Run(s, steps, t) && Alone(steps, k) && steps != []
    ensures rest == steps[1..] && Reachable(u) && Run(u, rest, t) && Alone(rest, k)
    ensures (CanSweepDelete(s, k) && u == AfterSweepDelete(s, k, true)) ||
            (CanSweepRead(s, k) && u == AfterSweepRead(s, k))
  {
    u, rest := Do(s, steps[0]), steps[1..];
    ReachesStep(s, steps[0], u);
    ReachableThen(s, u);
    assert steps[0] == SweepRead(k) || steps[0] == SweepDelete(k, true);
    forall i | 0 <= i < |rest| ensures rest[i] == SweepRead(k) || rest[i] == SweepDelete(k, true) {
      assert rest[i] == steps[i + 1];
    }
  }

  lemma NoMoreSteps(s: State, steps: seq<Step>, t: State, k: nat)
    requires Run(s, steps, t) && Alone(steps, k) && k !in s.sweeps
    ensures t == s
  {
  }

  lemma DeleteThen(s: State, k: nat, u: State, t: State, stop: nat)
    requires Reachable(s) && CanSweepDelete(s, k) && UnderWay(s.store, s.sweeps[k])
    requires u == AfterSweepDelete(s, k, true) && Swept(u, t, k, stop)
    ensures Swept(s, t, k, stop)
  {
    if s.sweeps[k].deleted < |s.sweeps[k].doomed.value.segments| {
      SegmentThen(s, k, u, t, stop);
    } else {
      ManifestThen(s, k, u, t, stop);
    }
  }

  /** Whenever it has run to its end, everything down to genesis or to the first missing manifest is gone. */
  lemma {:induction false} SweepClears(s: State, steps: seq<Step>, t: State, k: nat) returns (stop: nat)
    requires Reachable(s) && Run(s, steps, t) && Alone(steps, k) && Ended(t, k)
    requires k in s.sweeps && UnderWay(s.store, s.sweeps[k])
    ensures Swept(s, t, k, stop)
    decreases |steps|
  {
    if steps == [] {
      NothingLeft(s, k);
      stop := 0;
    } else {
      var u, rest := FirstStep(s, steps, t, k);
      if CanSweepDelete(s, k) {
        StillUnderWay(s, k, u);
        stop := SweepClears(u, rest, t, k);
        DeleteThen(s, k, u, t, stop);
      } else if SweepNext(s.store, s.sweeps[k]).Some? {
        stop := SweepClears(u, rest, t, k);
        ReadThen(s, k, u, t, stop);
      } else {
        ReadMissing(s, k);
        NoMoreSteps(u, rest, t, k);
        stop := s.sweeps[k].generation;
      }
    }
  }

  /** A sweep can be run to its end from wherever it is. */
  lemma {:induction false} SweepEnds(s: State, k: nat) returns (steps: seq<Step>, t: State)
    requires Reachable(s) && k in s.sweeps && UnderWay(s.store, s.sweeps[k])
    ensures Run(s, steps, t) && Alone(steps, k) && Ended(t, k)
    decreases s.sweeps[k].generation, if s.sweeps[k].doomed.None? then 1 else 0,
      if s.sweeps[k].doomed.None? then 0 else |s.sweeps[k].doomed.value.segments| - s.sweeps[k].deleted
  {
    var w := s.sweeps[k];
    if Ended(s, k) {
      steps, t := [], s;
    } else {
      var step := if w.doomed.Some? then SweepDelete(k, true) else SweepRead(k);
      var u := NextOf(s, k, step);
      var rest := [];
      if k in u.sweeps {
        rest, t := SweepEnds(u, k);
      } else {
        t := u;
      }
      steps := [step] + rest;
      assert steps[1..] == rest;
    }
  }

  lemma NextOf(s: State, k: nat, step: Step) returns (u: State)
    requires Reachable(s) && k in s.sweeps && UnderWay(s.store, s.sweeps[k]) && !Ended(s, k)
    requires step == if s.sweeps[k].doomed.Some? then SweepDelete(k, true) else SweepRead(k)
    ensures Enabled(s, step) && u == Do(s, step) && Reachable(u)
    ensures k in u.sweeps ==> UnderWay(u.store, u.sweeps[k]) && Decreases(u.sweeps[k], s.sweeps[k])
  {
    u := Do(s, step);
    ReachesStep(s, step, u);
    ReachableThen(s, u);
    if step.SweepDelete? {
      StillUnderWay(s, k, u);
      var w := s.sweeps[k];
      assert w.generation == w.doomed.value.parentGeneration + 1 by {
        ReachableInv(s);
        assert SweepSound(s.chain, s.built, s.swept, w);
        DoomedGeneration(s.chain, s.built, s.swept, w);
      }
      AdvanceDecreases(w);
    }
  }

  /**
   From a stored checkpoint: the sweep that it starts, run to its end, leaves nothing of the commits
   below the covered one, down to genesis or to one that was missing before.
   */
  lemma CheckpointClears(s: State, k: nat, base: Manifest) returns (t: State, stop: nat)
    requires Reachable(s) && s.uniqueIds && k !in s.sweeps && base in s.chain && Points(s.store, base)
    requires base.generation >= s.swept
    ensures Reaches(s, t) && t.chain == s.chain && Cleared(s.store, t.store, s.chain, base.parentGeneration, stop)
  {
    assert Decodes(ManifestObject(base)) && Present(s.store, base) by {
      ReachableInv(s);
      var i :| 0 <= i < |s.chain| && s.chain[i] == base;
      assert LinkedAt(s.chain, i);
    }
    var u := SweepStarts(s, k, base);
    ReachableThen(s, u);
    var steps;
    steps, t := SweepEnds(u, k);
    stop := SweepClears(u, steps, t, k);
    assert Reaches(u, t);
    ReachesThen(s, u, t);
  }
}

/**
 Publishing commits, as a state machine over the object store.

 Any number of publish attempts run concurrently. Each uploads its segments, then its
 manifest, then swaps HEAD, and every one of those is a conditional PUT. A PUT that was
 sent may reach the store at any later moment, any number of times, or never: that
 covers lost requests, lost answers, retries and time-outs. Checkpoints and garbage
 collection sweeps run on the same store, one store operation per step.

 A HEAD swap succeeds only if the stored bytes are the bytes the writer read. Nothing
 more is asked of ETags, so a store whose ETag depends on the content alone is covered.
 */
module PublishProtocol {
  import opened Prelude
  import opened CommitChain

  const MAX_SEGMENTS := 128

  datatype JournalResult = JournalOk | NotFound | Conflict | Invalid | Error | Ambiguous | Unsupported

  /** `pages` is None when the caller does not know the page set. */
  datatype SegmentInput = SegmentInput(payload: seq<nat>, pages: Option<seq<nat>>)

  /** `parent` is the HEAD the writer read; None means it found no HEAD. */
  datatype Request = Request(parent: Option<Head>, commitId: string, segments: seq<SegmentInput>)

  /** The objects one attempt uploads, in this order. */
  datatype Part = SegmentPart(index: nat) | ManifestPart | HeadPart

  datatype Phase = Uploading(part: Part) | Finished(result: JournalResult)

  datatype Attempt = Attempt(request: Request, phase: Phase)

  datatype Condition = IfNoneMatch | IfMatch(expected: Object)

  datatype Put = Put(attempt: nat, part: Part)

  /**
   A sweep reads CHECKPOINT.json, the checkpoint it points at and the covered manifest, one after the
   other. Then it is about to read manifest `id`, or is deleting what the manifest it read refers to.
   */
  datatype Sweep =
    | Pointed(covered: nat, key: Key, sha: Digest)
    | Based(covered: nat, id: string)
    | Sweeping(generation: nat, id: string, doomed: Option<Manifest>, deleted: nat)

  /**
   `accepted` are the segment and manifest PUTs that took effect, and `landed` the attempts whose HEAD
   swap did. `uniqueIds` records that no commit id is ever used for two generations; only then may
   sweeps run, and `swept` is the highest generation any checkpoint covered. Two history variables
   record what happened: `chain`, the manifest of every HEAD so far, newest first, and `built`, every
   manifest an attempt was started with.
   */
  datatype State = State(
    store: Store,
    attempts: map<nat, Attempt>,
    network: set<Put>,
    accepted: set<Put>,
    landed: set<nat>,
    sweeps: map<nat, Sweep>,
    swept: nat,
    uniqueIds: bool,
    chain: seq<Manifest>,
    built: set<Manifest>)

  datatype Step =
    | Begin(attempt: nat, request: Request)
    | Send(attempt: nat)
    | Deliver(put: Put)
    | Confirm(attempt: nat)
    | Finish(attempt: nat, result: JournalResult)
    | CheckpointPut(base: Manifest)
    | CheckpointPoint(base: Manifest)
    | SweepBegin(sweep: nat)
    | SweepRead(sweep: nat)
    | SweepDelete(sweep: nat, effective: bool)

  function ParentGeneration(r: Request): nat {
    if r.parent.Some? then r.parent.value.generation else 0
  }

  predicate ValidPages(pages: Option<seq<nat>>) {
    pages.Some? ==> StrictlyIncreasing(pages.value) && forall i :: 0 <= i < |pages.value| ==> pages.value[i] > 0
  }

  /** What every operation asks of a request. */
  predicate WellFormed(r: Request) {
    && r.commitId != ""
    && (r.parent.Some? ==> r.parent.value.generation > 0 && r.parent.value.commitId != "")
    && forall i :: 0 <= i < |r.segments| ==> ValidPages(r.segments[i].pages)
  }

  predicate ValidRequest(r: Request) {
    WellFormed(r) && 1 <= |r.segments| <= MAX_SEGMENTS
  }

  /** A segment object carries the id of its commit. */
  function SegmentObjectOf(r: Request, i: nat): Object
    requires i < |r.segments|
  {
    SegmentObject(r.commitId, r.segments[i].payload)
  }

  function SegmentRefOf(r: Request, i: nat): SegmentRef
    requires i < |r.segments|
  {
    var pages := r.segments[i].pages;
    SegmentRef(Sha256(SegmentObjectOf(r, i)), if ValidPages(pages) && pages.Some? then pages.value else [])
  }

  function ManifestOf(r: Request): Manifest {
    var refs := seq(|r.segments|, i requires 0 <= i < |r.segments| => SegmentRefOf(r, i));
    match r.parent
    case None => Manifest(1, r.commitId, 0, "", None, refs)
    case Some(h) => Manifest(h.generation + 1, r.commitId, h.generation, h.commitId, Some(h.commitSha), refs)
  }

  predicate ValidPart(r: Request, part: Part) {
    part.SegmentPart? ==> part.index < |r.segments|
  }

  function KeyOf(r: Request, part: Part): Key
    requires ValidPart(r, part)
  {
    match part
    case SegmentPart(i) => SegmentKey(Sha256(SegmentObjectOf(r, i)))
    case ManifestPart => ManifestKey(r.commitId)
    case HeadPart => HeadKey
  }

  function ContentOf(r: Request, part: Part): Object
    requires ValidPart(r, part)
  {
    match part
    case SegmentPart(i) => SegmentObjectOf(r, i)
    case ManifestPart => ManifestObject(ManifestOf(r))
    case HeadPart => HeadObject(HeadFor(ManifestOf(r)))
  }

  /** Immutable objects are only created; HEAD is created if none was read, else what was read is replaced. */
  function ConditionOf(r: Request, part: Part): Condition {
    if part.HeadPart? && r.parent.Some? then IfMatch(HeadObject(r.parent.value)) else IfNoneMatch
  }

  predicate Accepts(store: Store, key: Key, condition: Condition) {
    match condition
    case IfNoneMatch => key !in store
    case IfMatch(expected) => key in store && store[key] == expected
  }

  function NextPart(r: Request, part: Part): Part {
    match part
    case SegmentPart(i) => if i + 1 < |r.segments| then SegmentPart(i + 1) else ManifestPart
    case _ => HeadPart
  }

  /** An id is used for one generation only. */
  predicate IdFits(built: set<Manifest>, m: Manifest) {
    forall b :: b in built && b.commitId == m.commitId ==> b.generation == m.generation
  }

  /** The covered generation and the base commit id of a readable, hash-bound checkpoint. */
  function ReadCheckpoint(store: Store): Option<(nat, string)> {
    if CheckpointKey !in store || !store[CheckpointKey].CheckpointPointer? then None else
    var ptr := store[CheckpointKey];
    if ptr.key !in store || ptr.sha != Sha256(store[ptr.key]) || !store[ptr.key].CheckpointManifest? then None else
    Some((ptr.covered, store[ptr.key].baseCommitId))
  }

  /** The generation in the stored CHECKPOINT.json. */
  function Pointer(store: Store): nat {
    if CheckpointKey in store && store[CheckpointKey].CheckpointPointer? then store[CheckpointKey].covered else 0
  }

  /** What a sweep is after one more read; None when it ends there. */
  function SweepNext(store: Store, w: Sweep): Option<Sweep> {
    match w
    case Pointed(covered, key, sha) =>
      if key in store && Sha256(store[key]) == sha && store[key].CheckpointManifest?
      then Some(Based(covered, store[key].baseCommitId)) else None
    case Based(covered, id) =>
      if ManifestKey(id) in store && Decodes(store[ManifestKey(id)]) &&
         store[ManifestKey(id)].manifest.generation == covered
      then Some(Below(store[ManifestKey(id)].manifest)) else None
    case Sweeping(generation, id, _, _) =>
      if ManifestKey(id) in store && Decodes(store[ManifestKey(id)])
      then Some(Sweeping(generation, id, Some(store[ManifestKey(id)].manifest), 0)) else None
  }

  /** A sweep that goes on with the parent of a manifest. */
  function Below(m: Manifest): Sweep {
    Sweeping(m.parentGeneration, m.parentCommitId, None, 0)
  }

  /** It has a manifest to delete, and something of it left. */
  predicate Deleting(w: Sweep) {
    w.Sweeping? && w.doomed.Some? && w.deleted <= |w.doomed.value.segments|
  }

  /** The key a sweep deletes next: the segments in order, then the manifest itself. */
  function SweepTarget(w: Sweep): Key
    requires Deleting(w)
  {
    if w.deleted < |w.doomed.value.segments|
    then SegmentKey(w.doomed.value.segments[w.deleted].digest)
    else ManifestKey(w.id)
  }

  /** The sweep after one delete; after the manifest it moves to the parent it read. */
  function SweepAdvance(w: Sweep): Sweep
    requires Deleting(w)
  {
    if w.deleted < |w.doomed.value.segments| then w.(deleted := w.deleted + 1) else Below(w.doomed.value)
  }

  /** The attempt is still uploading. */
  predicate Working(s: State, a: nat) {
    a in s.attempts && s.attempts[a].phase.Uploading? && ValidPart(s.attempts[a].request, s.attempts[a].phase.part)
  }

  predicate CanBegin(s: State, a: nat, r: Request) {
    && a !in s.attempts && ValidRequest(r)
    && (if HeadKey in s.store
        then s.store[HeadKey].HeadObject? && r.parent == Some(s.store[HeadKey].head)
        else r.parent.None?)
    && (s.uniqueIds ==> IdFits(s.built, ManifestOf(r)))
  }

  function AfterBegin(s: State, a: nat, r: Request): State {
    s.(attempts := s.attempts[a := Attempt(r, Uploading(SegmentPart(0)))], built := s.built + {ManifestOf(r)})
  }

  function AfterSend(s: State, a: nat): State
    requires Working(s, a)
  {
    s.(network := s.network + {Put(a, s.attempts[a].phase.part)})
  }

  predicate CanDeliver(s: State, p: Put) {
    && p in s.network && p.attempt in s.attempts
    && var r := s.attempts[p.attempt].request;
       ValidPart(r, p.part) && Accepts(s.store, KeyOf(r, p.part), ConditionOf(r, p.part))
  }

  function AfterDeliver(s: State, p: Put): State
    requires CanDeliver(s, p)
  {
    var r := s.attempts[p.attempt].request;
    var store := s.store[KeyOf(r, p.part) := ContentOf(r, p.part)];
    if p.part.HeadPart?
    then s.(store := store, landed := s.landed + {p.attempt}, chain := [ManifestOf(r)] + s.chain)
    else s.(store := store, accepted := s.accepted + {p})
  }

  /** An immutable PUT counts as done if it was accepted, or if the store holds exactly these bytes under the key. */
  predicate CanConfirm(s: State, a: nat) {
    && Working(s, a) && !s.attempts[a].phase.part.HeadPart?
    && var r, part := s.attempts[a].request, s.attempts[a].phase.part;
       Put(a, part) in s.accepted || (KeyOf(r, part) in s.store && s.store[KeyOf(r, part)] == ContentOf(r, part))
  }

  function AfterConfirm(s: State, a: nat): State
    requires Working(s, a)
  {
    var t := s.attempts[a];
    s.(attempts := s.attempts[a := t.(phase := Uploading(NextPart(t.request, t.phase.part)))])
  }

  /** OK is returned only for a HEAD swap that took effect. */
  predicate CanFinish(s: State, a: nat, r: JournalResult) {
    Working(s, a) && (r.JournalOk? ==> s.attempts[a].phase.part.HeadPart? && a in s.landed)
  }

  function AfterFinish(s: State, a: nat, r: JournalResult): State
    requires Working(s, a)
  {
    s.(attempts := s.attempts[a := s.attempts[a].(phase := Finished(r))])
  }

  /** The checkpoint of a commit, stored under its own digest. */
  function CheckpointOf(base: Manifest): Object {
    CheckpointManifest(base.generation, base.commitId)
  }

  function CheckpointKeyOf(base: Manifest): Key {
    CheckpointManifestKey(Sha256(CheckpointOf(base)))
  }

  function PointerTo(base: Manifest): Object {
    CheckpointPointer(base.generation, CheckpointKeyOf(base), Sha256(CheckpointOf(base)))
  }

  /** A checkpoint is built of a commit that was HEAD when its builder read it. */
  predicate CanCheckpointPut(s: State, base: Manifest) {
    base in s.chain
  }

  function AfterCheckpointPut(s: State, base: Manifest): State {
    s.(store := s.store[CheckpointKeyOf(base) := CheckpointOf(base)])
  }

  /** CHECKPOINT.json is written, without a condition, once the checkpoint itself was. */
  predicate CanCheckpointPoint(s: State, base: Manifest) {
    base in s.chain && CheckpointKeyOf(base) in s.store
  }

  function AfterCheckpointPoint(s: State, base: Manifest): State {
    s.(store := s.store[CheckpointKey := PointerTo(base)],
       swept := if s.uniqueIds && s.swept < base.generation then base.generation else s.swept)
  }

  predicate CanSweepBegin(s: State, k: nat) {
    s.uniqueIds && k !in s.sweeps && CheckpointKey in s.store && s.store[CheckpointKey].CheckpointPointer?
  }

  function AfterSweepBegin(s: State, k: nat): State
    requires CanSweepBegin(s, k)
  {
    var ptr := s.store[CheckpointKey];
    s.(sweeps := s.sweeps[k := Pointed(ptr.covered, ptr.key, ptr.sha)])
  }

  predicate CanSweepRead(s: State, k: nat) {
    k in s.sweeps && (s.sweeps[k].Sweeping? ==> s.sweeps[k].doomed.None? && s.sweeps[k].generation > 0)
  }

  /** An object that is missing or not what it should be ends the sweep. */
  function AfterSweepRead(s: State, k: nat): State
    requires k in s.sweeps
  {
    var next := SweepNext(s.store, s.sweeps[k]);
    s.(sweeps := if next.Some? then s.sweeps[k := next.value] else s.sweeps - {k})
  }

  predicate CanSweepDelete(s: State, k: nat) {
    k in s.sweeps && Deleting(s.sweeps[k])
  }

  /** A delete may fail without the sweep noticing. */
  function AfterSweepDelete(s: State, k: nat, effective: bool): State
    requires CanSweepDelete(s, k)
  {
    s.(store := if effective then s.store - {SweepTarget(s.sweeps[k])} else s.store,
       sweeps := s.sweeps[k := SweepAdvance(s.sweeps[k])])
  }

  predicate Enabled(s: State, step: Step) {
    match step
    case Begin(a, r) => CanBegin(s, a, r)
    case Send(a) => Working(s, a)
    case Deliver(p) => CanDeliver(s, p)
    case Confirm(a) => CanConfirm(s, a)
    case Finish(a, r) => CanFinish(s, a, r)
    case CheckpointPut(base) => CanCheckpointPut(s, base)
    case CheckpointPoint(base) => CanCheckpointPoint(s, base)
    case SweepBegin(k) => CanSweepBegin(s, k)
    case SweepRead(k) => CanSweepRead(s, k)
    case SweepDelete(k, _) => CanSweepDelete(s, k)
  }

  function Do(s: State, step: Step): State
    requires Enabled(s, step)
  {
    match step
    case Begin(a, r) => AfterBegin(s, a, r)
    case Send(a) => AfterSend(s, a)
    case Deliver(p) => AfterDeliver(s, p)
    case Confirm(a) => AfterConfirm(s, a)
    case Finish(a, r) => AfterFinish(s, a, r)
    case CheckpointPut(base) => AfterCheckpointPut(s, base)
    case CheckpointPoint(base) => AfterCheckpointPoint(s, base)
    case SweepBegin(k) => AfterSweepBegin(s, k)
    case SweepRead(k) => AfterSweepRead(s, k)
    case SweepDelete(k, effective) => AfterSweepDelete(s, k, effective)
  }

  /** `t` is reached from `s` by the given steps. */
  ghost predicate Run(s: State, steps: seq<Step>, t: State)
    decreases |steps|
  {
    if steps == [] then s == t else Enabled(s, steps[0]) && Run(Do(s, steps[0]), steps[1..], t)
  }

  ghost predicate Reaches(s: State, t: State) {
    exists steps :: Run(s, steps, t)
  }

  /** An empty store, before any writer. */
  function Initial(uniqueIds: bool): State {
    State(map[], map[], {}, {}, {}, map[], 0, uniqueIds, [], {})
  }
}

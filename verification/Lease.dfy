/**
 The writer lease: one object in the store, changed only by conditional writes. Requests may be
 delayed, and their answers lost. An etag is the number of a write. A store whose etags are fresh per
 write tells all writes apart; one whose etags are made from the content does not tell writes of the
 same owner and generation apart, and a renewal writes those again.
 */
module Lease {
  import opened Prelude

  /** What the lease object says, and the handle that wrote it. */
  datatype Record = Record(owner: nat, generation: nat, writer: nat)

  /** The claimer's clock when it read the lease, and the time to live it was told to go by, in seconds. */
  datatype Reading = Reading(now: int, ttl: nat)

  /** A conditional write on its way: it takes effect if the current etag is the expected one. */
  datatype Put = Put(matching: Option<nat>, record: Record, claim: bool, reading: Reading)

  /** A write that took effect, and when it did by the store's clock; 0 if the store does not say. */
  datatype Landing = Landing(put: Put, stamp: nat)

  /** A claim that is refused starts over as a new handle. */
  datatype Handle =
    | Claiming(put: Put)
    | Held(record: Record, etag: nat, lost: bool)

  datatype Answer = Landed(etag: nat) | Refused

  /** Requests on their way to the store and answers on their way back, each with its handle. `log` is history. */
  datatype State = State(freshTags: bool, writes: seq<Record>, log: seq<Landing>, present: bool,
                         handles: map<nat, Handle>, sent: multiset<(nat, Put)>, answers: multiset<(nat, Answer)>)

  datatype Step =
    | Claim(handle: nat, owner: nat, reading: Reading)
    | Deliver(handle: nat, put: Put, stamp: nat)
    | Receive(handle: nat, answer: Answer)
    | Renew(handle: nat)
    | Release(handle: nat)

  /** The current etag, if the object is there. */
  ghost function Etag(s: State): Option<nat> {
    if s.present && s.writes != [] then Some(|s.writes| - 1) else None
  }

  /** The same bytes: an owner and a generation. */
  ghost predicate Same(a: Record, b: Record) {
    a.owner == b.owner && a.generation == b.generation
  }

  /** The condition of a write holds. */
  ghost predicate Accepts(s: State, matching: Option<nat>) {
    match matching
    case None => Etag(s).None?
    case Some(e) =>
      && Etag(s).Some? && e < |s.writes|
      && if s.freshTags then Etag(s) == Some(e) else Same(s.writes[e], s.writes[|s.writes| - 1])
  }

  const DEFAULT_TTL: nat := 30
  const SKEW_MARGIN: nat := 5

  /** How long a write is respected: the time to live less the margin for skewed clocks. */
  function LiveFor(ttl: nat): nat {
    var given := if ttl == 0 then DEFAULT_TTL else ttl;
    if given < SKEW_MARGIN then 0 else given - SKEW_MARGIN
  }

  /** A write of another owner is taken to be live unless its age is known and has come to its end. */
  predicate Expired(stamp: nat, reading: Reading) {
    stamp > 0 && (if reading.now < stamp then 0 else reading.now - stamp) >= LiveFor(reading.ttl)
  }

  /** When the current write was made. */
  ghost function Stamp(s: State): nat {
    if s.log == [] then 0 else s.log[|s.log| - 1].stamp
  }

  /** What a claim decides on reading the object: create, adopt its own lease, or take over an expired one. */
  ghost function ClaimPut(s: State, handle: nat, owner: nat, reading: Reading): Option<Put> {
    if Etag(s).None? then Some(Put(None, Record(owner, 1, handle), true, reading))
    else
      var current := s.writes[|s.writes| - 1];
      if current.owner == owner
      then Some(Put(Etag(s), Record(owner, current.generation, handle), true, reading))
      else if Expired(Stamp(s), reading)
      then Some(Put(Etag(s), Record(owner, current.generation + 1, handle), true, reading))
      else None
  }

  ghost predicate CanClaim(s: State, h: nat, owner: nat, reading: Reading) {
    h !in s.handles && ClaimPut(s, h, owner, reading).Some?
  }

  ghost function AfterClaim(s: State, h: nat, owner: nat, reading: Reading): State
    requires CanClaim(s, h, owner, reading)
  {
    var put := ClaimPut(s, h, owner, reading).value;
    s.(handles := s.handles[h := Claiming(put)], sent := s.sent + multiset{(h, put)})
  }

  ghost function AfterDeliver(s: State, h: nat, put: Put, stamp: nat): State {
    if Accepts(s, put.matching)
    then s.(writes := s.writes + [put.record], log := s.log + [Landing(put, stamp)], present := true,
            sent := s.sent - multiset{(h, put)}, answers := s.answers + multiset{(h, Landed(|s.writes|))})
    else s.(sent := s.sent - multiset{(h, put)}, answers := s.answers + multiset{(h, Refused)})
  }

  /** A claim that landed makes a handle; a renewal that landed moves its etag; a refused one loses it. */
  ghost function Received(handle: Handle, answer: Answer): Handle {
    match (handle, answer)
    case (Claiming(put), Landed(e)) => Held(put.record, e, false)
    case (Claiming(put), Refused) => handle
    case (Held(record, etag, lost), Landed(e)) => if lost then handle else Held(record, e, false)
    case (Held(record, etag, lost), Refused) => Held(record, etag, true)
  }

  ghost function AfterReceive(s: State, h: nat, answer: Answer): State
    requires h in s.handles
  {
    s.(handles := s.handles[h := Received(s.handles[h], answer)], answers := s.answers - multiset{(h, answer)})
  }

  /** Not known to be lost. */
  ghost predicate Holding(s: State, h: nat) {
    h in s.handles && s.handles[h].Held? && !s.handles[h].lost
  }

  /** A renewal repeats the record; it reads nothing. */
  ghost function Renewal(handle: Handle): Put
    requires handle.Held?
  {
    Put(Some(handle.etag), handle.record, false, Reading(0, 0))
  }

  ghost function AfterRenew(s: State, h: nat): State
    requires Holding(s, h)
  {
    s.(sent := s.sent + multiset{(h, Renewal(s.handles[h]))})
  }

  ghost function AfterRelease(s: State, h: nat): State
    requires Holding(s, h)
  {
    s.(present := false, handles := s.handles[h := s.handles[h].(lost := true)])
  }

  ghost predicate Enabled(s: State, step: Step) {
    match step
    case Claim(h, owner, reading) => CanClaim(s, h, owner, reading)
    case Deliver(h, put, _) => (h, put) in s.sent
    case Receive(h, answer) => (h, answer) in s.answers && h in s.handles
    case Renew(h) => Holding(s, h)
    case Release(h) => Holding(s, h)
  }

  ghost function Do(s: State, step: Step): State
    requires Enabled(s, step)
  {
    match step
    case Claim(h, owner, reading) => AfterClaim(s, h, owner, reading)
    case Deliver(h, put, stamp) => AfterDeliver(s, h, put, stamp)
    case Receive(h, answer) => AfterReceive(s, h, answer)
    case Renew(h) => AfterRenew(s, h)
    case Release(h) => AfterRelease(s, h)
  }

  ghost predicate Initial(s: State) {
    s == State(s.freshTags, [], [], true, map[], multiset{}, multiset{})
  }

  ghost function Next(s: State, step: Step): Option<State> {
    if Enabled(s, step) then Some(Do(s, step)) else None
  }

  ghost const MACHINE: (State, Step) -> Option<State> := (s, step) => Next(s, step)

  /** `t` is reached from `s` by the given steps. */
  ghost predicate Run(s: State, steps: seq<Step>, t: State) {
    Steps(MACHINE, s, steps, t)
  }

  ghost predicate Leads(s: State, t: State) {
    Comes(MACHINE, s, t)
  }

  /** Release deletes the object without a condition, and generations start again. */
  ghost predicate NoRelease(steps: seq<Step>) {
    forall i :: 0 <= i < |steps| ==> !steps[i].Release?
  }

  // ---- the invariant ----

  /** The generation stays while the owner stays, and rises by one when the owner changes. */
  ghost predicate Follows(a: Record, b: Record) {
    b.generation == if b.owner == a.owner then a.generation else a.generation + 1
  }

  ghost predicate FollowsAt(writes: seq<Record>, i: nat)
    requires i + 1 < |writes|
  {
    Follows(writes[i], writes[i + 1])
  }

  ghost predicate Chained(writes: seq<Record>) {
    && (writes != [] ==> writes[0].generation == 1)
    && forall i :: 0 <= i < |writes| - 1 ==> FollowsAt(writes, i)
  }

  ghost function RecordOf(handle: Handle): Record {
    if handle.Claiming? then handle.put.record else handle.record
  }

  /** A write continues the one it expects; a renewal repeats it, and another owner's record was read expired. */
  ghost predicate Fits(writes: seq<Record>, log: seq<Landing>, put: Put) {
    match put.matching
    case None => put.claim && put.record.generation == 1
    case Some(e) =>
      && e < |writes| == |log| && Follows(writes[e], put.record) && (put.claim || writes[e] == put.record)
      && (put.record.owner != writes[e].owner ==> Expired(log[e].stamp, put.reading))
  }

  ghost predicate Unanswered(answers: multiset<(nat, Answer)>, h: nat) {
    forall a :: a in answers ==> a.0 != h
  }

  ghost predicate SentFits(s: State, x: (nat, Put)) {
    && x.0 in s.handles && x.1.record == RecordOf(s.handles[x.0])
    && Fits(s.writes, s.log, x.1)
    && (if x.1.claim then s.handles[x.0] == Claiming(x.1) && s.sent[x] == 1 && Unanswered(s.answers, x.0)
        else s.handles[x.0].Held?)
  }

  ghost predicate HandleFits(s: State, h: nat)
    requires h in s.handles
  {
    && RecordOf(s.handles[h]).writer == h
    && (s.handles[h].Held? ==> s.handles[h].etag < |s.writes| && s.writes[s.handles[h].etag] == s.handles[h].record)
  }

  ghost predicate AnswerFits(s: State, a: (nat, Answer)) {
    && a.0 in s.handles
    && (a.1.Landed? ==> a.1.etag < |s.writes| && s.writes[a.1.etag] == RecordOf(s.handles[a.0]))
  }

  ghost predicate SentOk(s: State) {
    forall x :: x in s.sent ==> SentFits(s, x)
  }

  ghost predicate HandlesOk(s: State) {
    forall h :: h in s.handles ==> HandleFits(s, h)
  }

  ghost predicate AnswersOk(s: State) {
    forall a :: a in s.answers ==> AnswerFits(s, a)
  }

  /** What fencing rests on, in every run. */
  ghost predicate Fenced(s: State) {
    |s.log| == |s.writes| && HandlesOk(s) && SentOk(s) && AnswersOk(s)
  }

  /** While nobody has released, the writes are chained as well. */
  ghost predicate Inv(s: State) {
    s.present && Chained(s.writes) && Fenced(s)
  }

  lemma ClaimKeeps(s: State, h: nat, owner: nat, reading: Reading)
    requires Fenced(s) && CanClaim(s, h, owner, reading)
    ensures Fenced(AfterClaim(s, h, owner, reading))
  {
    var t := AfterClaim(s, h, owner, reading);
    var put := ClaimPut(s, h, owner, reading).value;
    ClaimSends(s, h, put, t);
    assert AnswersOk(t) by {
      forall a | a in t.answers ensures AnswerFits(t, a) {
        assert AnswerFits(s, a);
      }
    }
    assert HandlesOk(t) by {
      forall g | g in t.handles ensures HandleFits(t, g) {
        if g != h { assert HandleFits(s, g); }
      }
    }
  }

  lemma ClaimSends(s: State, h: nat, put: Put, t: State)
    requires SentOk(s) && AnswersOk(s) && h !in s.handles && put.claim && Fits(s.writes, s.log, put)
    requires t == s.(handles := s.handles[h := Claiming(put)], sent := s.sent + multiset{(h, put)})
    ensures SentOk(t)
  {
    forall x | x in t.sent ensures SentFits(t, x) {
      if x in s.sent {
        assert SentFits(s, x);
      } else {
        assert Unanswered(s.answers, h) by {
          forall a | a in s.answers ensures a.0 != h { assert AnswerFits(s, a); }
        }
      }
    }
  }

  lemma ChainGrows(writes: seq<Record>, record: Record)
    requires Chained(writes)
    requires if writes == [] then record.generation == 1 else Follows(writes[|writes| - 1], record)
    ensures Chained(writes + [record])
  {
    var more := writes + [record];
    forall i | 0 <= i < |more| - 1 ensures FollowsAt(more, i) {
      if i < |writes| - 1 { assert FollowsAt(writes, i); }
    }
  }

  lemma DeliverKeeps(s: State, h: nat, put: Put, stamp: nat)
    requires Fenced(s) && (h, put) in s.sent
    ensures Fenced(AfterDeliver(s, h, put, stamp))
  {
    var t := AfterDeliver(s, h, put, stamp);
    assert SentFits(s, (h, put));
    DeliverSends(s, h, put, stamp, t);
    assert AnswersOk(t) by {
      forall a | a in t.answers ensures AnswerFits(t, a) {
        if a in s.answers { assert AnswerFits(s, a); }
      }
    }
    assert HandlesOk(t) by {
      forall g | g in t.handles ensures HandleFits(t, g) {
        assert HandleFits(s, g);
      }
    }
  }

  lemma DeliverChains(s: State, h: nat, put: Put, stamp: nat)
    requires Inv(s) && (h, put) in s.sent
    ensures Chained(AfterDeliver(s, h, put, stamp).writes)
  {
    assert SentFits(s, (h, put));
    if Accepts(s, put.matching) {
      ChainGrows(s.writes, put.record);
    }
  }

  lemma DeliverSends(s: State, h: nat, put: Put, stamp: nat, t: State)
    requires |s.log| == |s.writes| && SentOk(s) && (h, put) in s.sent && t == AfterDeliver(s, h, put, stamp)
    ensures SentOk(t)
  {
    assert SentFits(s, (h, put));
    forall x | x in t.sent ensures SentFits(t, x) {
      assert SentFits(s, x) && t.sent[x] <= s.sent[x];
      if x.1.claim {
        assert x.0 != h;
        assert Unanswered(t.answers, x.0);
      }
    }
  }

  lemma ReceiveKeeps(s: State, h: nat, answer: Answer)
    requires Fenced(s) && (h, answer) in s.answers && h in s.handles
    ensures Fenced(AfterReceive(s, h, answer))
  {
    var t := AfterReceive(s, h, answer);
    assert AnswerFits(s, (h, answer)) && HandleFits(s, h);
    assert RecordOf(t.handles[h]) == RecordOf(s.handles[h]);
    forall x | x in t.sent ensures SentFits(t, x) {
      assert SentFits(s, x);
    }
    forall a | a in t.answers ensures AnswerFits(t, a) {
      assert AnswerFits(s, a);
    }
    forall g | g in t.handles ensures HandleFits(t, g) {
      if g != h { assert HandleFits(s, g); }
    }
  }

  lemma RenewKeeps(s: State, h: nat)
    requires Fenced(s) && Holding(s, h)
    ensures Fenced(AfterRenew(s, h))
  {
    var t := AfterRenew(s, h);
    assert HandleFits(s, h);
    forall x | x in t.sent ensures SentFits(t, x) {
      if x in s.sent { assert SentFits(s, x); }
    }
    forall a | a in t.answers ensures AnswerFits(t, a) {
      assert AnswerFits(s, a);
    }
    forall g | g in t.handles ensures HandleFits(t, g) {
      assert HandleFits(s, g);
    }
  }

  lemma ReleaseKeeps(s: State, h: nat)
    requires Fenced(s) && Holding(s, h)
    ensures Fenced(AfterRelease(s, h))
  {
    var t := AfterRelease(s, h);
    forall x | x in t.sent ensures SentFits(t, x) {
      assert SentFits(s, x);
    }
    forall a | a in t.answers ensures AnswerFits(t, a) {
      assert AnswerFits(s, a);
    }
    forall g | g in t.handles ensures HandleFits(t, g) {
      assert HandleFits(s, g);
    }
  }

  lemma StepWrites(s: State, step: Step, t: State)
    requires Enabled(s, step) && t == Do(s, step)
    ensures s.writes <= t.writes
  {
  }

  lemma HandleStepFences(s: State, step: Step)
    requires Fenced(s) && Enabled(s, step) && (step.Claim? || step.Renew? || step.Release?)
    ensures Fenced(Do(s, step))
  {
    if step.Claim? {
      ClaimKeeps(s, step.handle, step.owner, step.reading);
    } else if step.Renew? {
      RenewKeeps(s, step.handle);
    } else {
      ReleaseKeeps(s, step.handle);
    }
  }

  lemma StepFences(s: State, step: Step, t: State)
    requires Fenced(s) && Enabled(s, step) && t == Do(s, step)
    ensures Fenced(t) && s.writes <= t.writes
  {
    StepWrites(s, step, t);
    if step.Deliver? {
      DeliverKeeps(s, step.handle, step.put, step.stamp);
    } else if step.Receive? {
      ReceiveKeeps(s, step.handle, step.answer);
    } else {
      HandleStepFences(s, step);
    }
  }

  lemma StepKeeps(s: State, step: Step, t: State)
    requires Inv(s) && Enabled(s, step) && !step.Release? && t == Do(s, step)
    ensures Inv(t) && s.writes <= t.writes
  {
    StepFences(s, step, t);
    if step.Deliver? {
      DeliverChains(s, step.handle, step.put, step.stamp);
    }
  }

  // ---- whole runs ----

  lemma {:induction false} RunFences(s: State, steps: seq<Step>, t: State)
    requires Fenced(s) && Run(s, steps, t)
    ensures Fenced(t) && s.writes <= t.writes
    decreases |steps|
  {
    if steps != [] {
      var u := Do(s, steps[0]);
      StepFences(s, steps[0], u);
      RunFences(u, steps[1..], t);
    }
  }

  lemma {:induction false} RunKeeps(s: State, steps: seq<Step>, t: State)
    requires Inv(s) && Run(s, steps, t) && NoRelease(steps)
    ensures Inv(t) && s.writes <= t.writes
    decreases |steps|
  {
    if steps != [] {
      var u := Do(s, steps[0]);
      StepKeeps(s, steps[0], u);
      RunKeeps(u, steps[1..], t);
    }
  }

  ghost predicate Reachable(s: State) {
    exists start :: Initial(start) && Leads(start, s)
  }

  /** Reached without any release. */
  ghost predicate Unreleased(s: State) {
    exists start, steps :: Initial(start) && Run(start, steps, s) && NoRelease(steps)
  }

  lemma ReachableFences(s: State)
    requires Reachable(s)
    ensures Fenced(s)
  {
    var start :| Initial(start) && Leads(start, s);
    var steps :| Steps(MACHINE, start, steps, s);
    RunFences(start, steps, s);
  }

  lemma UnreleasedInv(s: State)
    requires Unreleased(s)
    ensures Inv(s)
  {
    var start, steps :| Initial(start) && Run(start, steps, s) && NoRelease(steps);
    RunKeeps(start, steps, s);
  }

  lemma {:induction false} GenerationsRise(writes: seq<Record>, i: nat, j: nat)
    requires Chained(writes) && i <= j < |writes|
    ensures writes[i].generation <= writes[j].generation
    ensures writes[i].generation == writes[j].generation ==> writes[i].owner == writes[j].owner
    decreases j - i
  {
    if i < j {
      GenerationsRise(writes, i, j - 1);
      assert FollowsAt(writes, j - 1);
    }
  }

  /**
   Without a release, the stored generation starts at one, never falls, stays while the owner stays and
   rises by exactly one when the owner changes; so a generation names one owner for all time.
   */
  lemma GenerationNamesOwner(s: State, i: nat, j: nat)
    requires Unreleased(s) && i <= j < |s.writes|
    ensures s.writes[0].generation == 1
    ensures i + 1 == j ==> Follows(s.writes[i], s.writes[j])
    ensures s.writes[i].generation <= s.writes[j].generation
    ensures s.writes[i].generation == s.writes[j].generation ==> s.writes[i].owner == s.writes[j].owner
  {
    UnreleasedInv(s);
    GenerationsRise(s.writes, i, j);
    if i + 1 == j { assert FollowsAt(s.writes, i); }
  }

  /** A handle that was granted, but whose last write is no longer the current one. */
  ghost predicate Overtaken(s: State, h: nat) {
    && h in s.handles && s.handles[h].Held?
    && s.writes != [] && s.writes[|s.writes| - 1].writer != h
  }

  /** A renewal by an overtaken handle expects an etag that has passed. */
  lemma OvertakenIsRefused(s: State, h: nat, put: Put)
    requires Fenced(s) && s.freshTags && Overtaken(s, h) && (h, put) in s.sent
    ensures !Accepts(s, put.matching)
  {
    assert SentFits(s, (h, put)) && HandleFits(s, h);
  }

  /** The handle has not written the lease between two states. */
  ghost predicate Silent(s: State, t: State, h: nat) {
    forall i :: |s.writes| <= i < |t.writes| ==> t.writes[i].writer != h
  }

  lemma SilentThen(s: State, u: State, t: State, h: nat)
    requires u.writes <= t.writes && Silent(s, u, h) && Silent(u, t, h)
    ensures Silent(s, t, h)
  {
  }

  lemma DeliverOvertaken(s: State, g: nat, put: Put, stamp: nat, h: nat)
    requires Fenced(s) && s.freshTags && (g, put) in s.sent && Overtaken(s, h)
    ensures var t := AfterDeliver(s, g, put, stamp);
      Overtaken(t, h) && Silent(s, t, h)
  {
    assert SentFits(s, (g, put)) && HandleFits(s, g);
    if g == h {
      OvertakenIsRefused(s, h, put);
    }
  }

  /** Nothing but a delivery writes, and a granted handle keeps its record. */
  lemma OtherStep(s: State, step: Step, h: nat, t: State)
    requires Enabled(s, step) && !step.Deliver? && h in s.handles && s.handles[h].Held? && t == Do(s, step)
    ensures t.writes == s.writes && t.freshTags == s.freshTags
    ensures h in t.handles && t.handles[h].Held? && t.handles[h].record == s.handles[h].record
  {
    match step {
      case Claim(g, owner, reading) =>
        assert t.handles == s.handles[g := Claiming(ClaimPut(s, g, owner, reading).value)];
      case Receive(g, answer) => assert t.handles == s.handles[g := Received(s.handles[g], answer)];
      case Renew(_) => assert t.handles == s.handles;
      case Release(g) => assert t.handles == s.handles[g := s.handles[g].(lost := true)];
      case Deliver(_, _, _) => assert false;
    }
  }

  lemma StepOvertaken(s: State, step: Step, h: nat, t: State)
    requires Fenced(s) && s.freshTags && Enabled(s, step) && Overtaken(s, h) && t == Do(s, step)
    ensures t.freshTags && Overtaken(t, h) && Silent(s, t, h)
  {
    if step.Deliver? {
      DeliverOvertaken(s, step.handle, step.put, step.stamp, h);
    } else {
      OtherStep(s, step, h, t);
    }
  }

  /** With fresh etags an overtaken handle never writes the lease again, whoever claims, renews or releases. */
  lemma {:induction false} OvertakenNeverRenews(s: State, steps: seq<Step>, t: State, h: nat)
    requires Fenced(s) && s.freshTags && Run(s, steps, t) && Overtaken(s, h)
    ensures Overtaken(t, h) && Silent(s, t, h)
    decreases |steps|
  {
    if steps != [] {
      var u := Do(s, steps[0]);
      StepFences(s, steps[0], u);
      StepOvertaken(s, steps[0], h, u);
      OvertakenNeverRenews(u, steps[1..], t, h);
      RunFences(u, steps[1..], t);
      SilentThen(s, u, t, h);
    }
  }

  /** Some later run has the handle write the lease once more. */
  ghost predicate CanStillRenew(s: State, h: nat) {
    h in s.handles && s.handles[h].Held? && exists t :: Leads(s, t) && !Silent(s, t, h)
  }

  /** With fresh etags at most one handle can still renew. */
  lemma OneCanRenew(s: State, h: nat, g: nat)
    requires Reachable(s) && s.freshTags && CanStillRenew(s, h) && CanStillRenew(s, g)
    ensures h == g
  {
    ReachableFences(s);
    assert HandleFits(s, h);
    assert !Overtaken(s, h) by { NotOvertaken(s, h); }
    assert !Overtaken(s, g) by { NotOvertaken(s, g); }
  }

  lemma NotOvertaken(s: State, h: nat)
    requires Fenced(s) && s.freshTags && CanStillRenew(s, h)
    ensures !Overtaken(s, h)
  {
    var t :| Leads(s, t) && !Silent(s, t, h);
    var steps :| Steps(MACHINE, s, steps, t);
    if Overtaken(s, h) {
      OvertakenNeverRenews(s, steps, t, h);
      assert false;
    }
  }

  lemma LeadsThen(s: State, u: State, t: State)
    requires Leads(s, u) && Leads(u, t)
    ensures Leads(s, t)
  {
    ComesThen(MACHINE, s, u, t);
  }

  lemma StepLeads(s: State, step: Step, t: State)
    requires Enabled(s, step) && t == Do(s, step)
    ensures Leads(s, t)
  {
    ComesBy(MACHINE, s, step, t);
  }

  lemma LateRenewal(s: State, h: nat, put: Put)
    requires (h, put) in s.sent && Accepts(s, put.matching) && put.record.writer == h
    requires h in s.handles && s.handles[h].Held?
    ensures CanStillRenew(s, h)
  {
    var t := AfterDeliver(s, h, put, 0);
    StepLeads(s, Deliver(h, put, 0), t);
    assert t.writes[|s.writes|].writer == h;
    assert !Silent(s, t, h);
  }

  lemma RenewsAfter(s: State, u: State, h: nat)
    requires Leads(s, u) && CanStillRenew(u, h) && h in s.handles && s.handles[h].Held? && |s.writes| <= |u.writes|
    ensures CanStillRenew(s, h)
  {
    var t :| Leads(u, t) && !Silent(u, t, h);
    LeadsThen(s, u, t);
    assert !Silent(s, t, h);
  }

  /** A handle whose etag the store accepts can. */
  lemma CurrentCanRenew(s: State, h: nat)
    requires Reachable(s) && Holding(s, h) && Accepts(s, Some(s.handles[h].etag))
    ensures CanStillRenew(s, h)
  {
    assert s.handles[h].record.writer == h by {
      ReachableFences(s);
      assert HandleFits(s, h);
    }
    var t := AfterRenew(s, h);
    StepLeads(s, Renew(h), t);
    LateRenewal(t, h, Renewal(s.handles[h]));
    RenewsAfter(s, t, h);
  }

  // ---- what a handle learns ----

  /** Renew, and have the answer: what the handle asks for is delivered and reported back in one go. */
  lemma Renews(s: State, h: nat, stamp: nat) returns (t: State)
    requires Holding(s, h)
    ensures Leads(s, t)
    ensures t == AfterReceive(AfterDeliver(AfterRenew(s, h), h, Renewal(s.handles[h]), stamp), h,
                              if Accepts(s, Some(s.handles[h].etag)) then Landed(|s.writes|) else Refused)
  {
    var put := Renewal(s.handles[h]);
    var u := AfterRenew(s, h);
    StepLeads(s, Renew(h), u);
    var v := AfterDeliver(u, h, put, stamp);
    StepLeads(u, Deliver(h, put, stamp), v);
    var answer := if Accepts(s, Some(s.handles[h].etag)) then Landed(|s.writes|) else Refused;
    assert (h, answer) in v.answers;
    t := AfterReceive(v, h, answer);
    StepLeads(v, Receive(h, answer), t);
    LeadsThen(s, u, v);
    LeadsThen(s, v, t);
  }

  /** A renewal that is accepted moves the handle on to the write it made, so that it can renew again. */
  lemma RenewsOn(s: State, h: nat, stamp: nat) returns (t: State)
    requires Reachable(s) && Holding(s, h) && Accepts(s, Some(s.handles[h].etag))
    ensures Leads(s, t) && t.writes == s.writes + [s.handles[h].record]
    ensures Holding(t, h) && t.handles[h].record == s.handles[h].record && t.handles[h].etag == |s.writes|
    ensures Accepts(t, Some(t.handles[h].etag))
  {
    t := Renews(s, h, stamp);
  }

  ghost predicate Lost(s: State, h: nat) {
    h in s.handles && s.handles[h].Held? && s.handles[h].lost
  }

  lemma StepLost(s: State, step: Step, t: State, h: nat)
    requires Lost(s, h) && Enabled(s, step) && t == Do(s, step)
    ensures Lost(t, h)
  {
    match step
    case Claim(_, _, _) =>
    case Deliver(_, _, _) =>
    case Receive(_, _) =>
    case Renew(_) =>
    case Release(_) =>
  }

  /** What was lost stays lost: the handle renews no more, in any continuation. */
  lemma {:induction false} LostForever(s: State, steps: seq<Step>, t: State, h: nat)
    requires Lost(s, h) && Run(s, steps, t)
    ensures Lost(t, h) && !Enabled(t, Renew(h))
    decreases |steps|
  {
    if steps != [] {
      var u := Do(s, steps[0]);
      StepLost(s, steps[0], u, h);
      LostForever(u, steps[1..], t, h);
    }
  }

  /** A refusal tells the handle, for good; with fresh etags one renewal of an overtaken handle is enough. */
  lemma RefusedIsLost(s: State, h: nat, stamp: nat) returns (t: State)
    requires Reachable(s) && Holding(s, h)
    requires !Accepts(s, Some(s.handles[h].etag)) || (s.freshTags && Overtaken(s, h))
    ensures Leads(s, t) && t.writes == s.writes && Lost(t, h)
  {
    assert !Accepts(s, Some(s.handles[h].etag)) by {
      ReachableFences(s);
      assert HandleFits(s, h);
    }
    t := Renews(s, h, stamp);
  }

  // ---- a live lease is respected ----

  /** By the clocks: the write's time is known, and the reader's clock is past it by the time to live less five. */
  predicate Late(stamp: nat, reading: Reading) {
    var ttl := if reading.ttl == 0 then 30 else reading.ttl;
    stamp > 0 && (ttl <= 5 || reading.now >= stamp + ttl - 5)
  }

  /** Whoever finds the lease of another owner gets to write exactly if it is past its time. */
  lemma ClaimExact(s: State, h: nat, owner: nat, reading: Reading)
    requires Fenced(s) && Etag(s).Some? && s.writes[|s.writes| - 1].owner != owner && h !in s.handles
    ensures CanClaim(s, h, owner, reading) <==> Late(s.log[|s.log| - 1].stamp, reading)
  {
  }

  /** What is known about write i: the request it came from, and the write that request had read. */
  ghost predicate LoggedAt(s: State, i: nat)
    requires i < |s.log| == |s.writes|
  {
    var put := s.log[i].put;
    && put.record == s.writes[i]
    && match put.matching
       case None => put.claim && put.record.generation == 1
       case Some(e) =>
         && e < i && Follows(s.writes[e], put.record) && (put.claim || s.writes[e] == put.record)
         && (put.record.owner != s.writes[e].owner ==> Late(s.log[e].stamp, put.reading))
         && (if s.freshTags then e == i - 1 else Same(s.writes[e], s.writes[i - 1]))
  }

  ghost predicate Logged(s: State) {
    |s.log| == |s.writes| && forall i :: 0 <= i < |s.log| ==> LoggedAt(s, i)
  }

  lemma DeliverLogs(s: State, h: nat, put: Put, stamp: nat, t: State)
    requires Fenced(s) && Logged(s) && (h, put) in s.sent && t == AfterDeliver(s, h, put, stamp)
    ensures Logged(t)
  {
    if Accepts(s, put.matching) {
      assert Fits(s.writes, s.log, put) by {
        assert SentFits(s, (h, put));
      }
      LogGrows(s, put, stamp, t);
    } else {
      LogStays(s, t);
    }
  }

  lemma LogGrows(s: State, put: Put, stamp: nat, t: State)
    requires Logged(s) && Fits(s.writes, s.log, put) && Accepts(s, put.matching) && t.freshTags == s.freshTags
    requires t.writes == s.writes + [put.record] && t.log == s.log + [Landing(put, stamp)]
    ensures Logged(t)
  {
    forall i | 0 <= i < |t.log| ensures LoggedAt(t, i) {
      if i < |s.log| {
        assert LoggedAt(s, i);
      }
    }
  }

  lemma LogStays(s: State, t: State)
    requires Logged(s) && t.log == s.log && t.writes == s.writes && t.freshTags == s.freshTags
    ensures Logged(t)
  {
    forall i | 0 <= i < |t.log| ensures LoggedAt(t, i) {
      assert LoggedAt(s, i);
    }
  }

  lemma OtherLogs(s: State, step: Step, t: State)
    requires Logged(s) && Enabled(s, step) && !step.Deliver? && t == Do(s, step)
    ensures Logged(t)
  {
    LogStays(s, t);
  }

  lemma {:induction false} RunLogs(s: State, steps: seq<Step>, t: State)
    requires Fenced(s) && Logged(s) && Run(s, steps, t)
    ensures Logged(t)
    decreases |steps|
  {
    if steps != [] {
      var u := Do(s, steps[0]);
      StepFences(s, steps[0], u);
      if steps[0].Deliver? {
        DeliverLogs(s, steps[0].handle, steps[0].put, steps[0].stamp, u);
      } else {
        OtherLogs(s, steps[0], u);
      }
      RunLogs(u, steps[1..], t);
    }
  }

  lemma ReachableLogs(s: State)
    requires Reachable(s)
    ensures Logged(s)
  {
    var start :| Initial(start) && Leads(start, s);
    var steps :| Steps(MACHINE, start, steps, s);
    RunLogs(start, steps, s);
  }

  /**
   In every run, a write that replaces a record of another owner comes from a claim that had read that
   record, of the generation before, and found it past its time. With fresh etags the write it had read
   is the very one it replaces.
   */
  lemma TakeoverIsLate(s: State, i: nat) returns (e: nat)
    requires Reachable(s) && 0 < i < |s.writes| && s.writes[i].owner != s.writes[i - 1].owner
    requires |s.log| == |s.writes| && s.log[i].put.matching.Some?
    ensures s.log[i].put.claim && s.log[i].put.record == s.writes[i] && s.log[i].put.matching == Some(e)
    ensures e < i && Same(s.writes[e], s.writes[i - 1]) && (s.freshTags ==> e == i - 1)
    ensures Late(s.log[e].stamp, s.log[i].put.reading) && s.writes[i].generation == s.writes[i - 1].generation + 1
  {
    ReachableLogs(s);
    assert LoggedAt(s, i);
    e := s.log[i].put.matching.value;
  }

  /** Without a release, every write but the first replaces one. */
  lemma {:induction false} RunReplaces(s: State, steps: seq<Step>, t: State)
    requires Inv(s) && Run(s, steps, t) && NoRelease(steps)
    requires |s.log| == |s.writes| && forall i :: 0 < i < |s.log| ==> s.log[i].put.matching.Some?
    ensures |t.log| == |t.writes| && forall i :: 0 < i < |t.log| ==> t.log[i].put.matching.Some?
    decreases |steps|
  {
    if steps != [] {
      var u := Do(s, steps[0]);
      StepKeeps(s, steps[0], u);
      StepReplaces(s, steps[0], u);
      RunReplaces(u, steps[1..], t);
    }
  }

  lemma StepReplaces(s: State, step: Step, t: State)
    requires s.present && Enabled(s, step) && t == Do(s, step) && |s.log| == |s.writes|
    requires forall i :: 0 < i < |s.log| ==> s.log[i].put.matching.Some?
    ensures |t.log| == |t.writes| && forall i :: 0 < i < |t.log| ==> t.log[i].put.matching.Some?
  {
  }

  /** No write came from a claim that found the lease past its time. */
  ghost predicate NoneLate(log: seq<Landing>) {
    forall i, e :: 0 <= e < i < |log| && log[i].put.matching == Some(e) ==> !Late(log[e].stamp, log[i].put.reading)
  }

  lemma {:induction false} OwnerStays(s: State, j: nat)
    requires Logged(s) && NoneLate(s.log) && j < |s.writes|
    requires forall i :: 0 < i < |s.log| ==> s.log[i].put.matching.Some?
    ensures s.writes[j].owner == s.writes[0].owner
    decreases j
  {
    if j > 0 {
      OwnerStays(s, j - 1);
      assert LoggedAt(s, j);
    }
  }

  /** Without a release and with no claim that found the lease past its time, the owner never changes. */
  lemma LiveIsRespected(s: State, j: nat)
    requires Unreleased(s) && NoneLate(s.log) && j < |s.writes|
    ensures s.writes[j].owner == s.writes[0].owner
  {
    var start, steps :| Initial(start) && Run(start, steps, s) && NoRelease(steps);
    RunReplaces(start, steps, s);
    RunLogs(start, steps, s);
    OwnerStays(s, j);
  }

  /** And a lease past its time can be taken over, with the next generation. */
  lemma ExpiredIsTaken(s: State, g: nat, owner: nat, reading: Reading, stamp: nat) returns (t: State)
    requires Reachable(s) && Etag(s).Some? && s.writes[|s.writes| - 1].owner != owner && g !in s.handles
    requires |s.log| == |s.writes| && Late(s.log[|s.log| - 1].stamp, reading)
    ensures Leads(s, t) && Holding(t, g)
    ensures t.writes == s.writes + [Record(owner, s.writes[|s.writes| - 1].generation + 1, g)]
  {
    assert CanClaim(s, g, owner, reading) by {
      ReachableFences(s);
      ClaimExact(s, g, owner, reading);
    }
    t := Granted(s, g, owner, reading, ClaimPut(s, g, owner, reading).value, stamp);
  }

  // ---- etags of either kind ----

  /** A renewal that takes effect repeats the owner and the generation that are there, in every run. */
  lemma RenewalRepeats(s: State, h: nat, put: Put)
    requires Fenced(s) && (h, put) in s.sent && !put.claim && Accepts(s, put.matching)
    ensures s.writes != [] && Same(put.record, s.writes[|s.writes| - 1]) && put.record == RecordOf(s.handles[h])
  {
    assert SentFits(s, (h, put));
  }

  /** The lease has gone to another owner since the handle was granted. */
  ghost predicate Passed(s: State, h: nat) {
    && h in s.handles && s.handles[h].Held?
    && s.writes != [] && s.writes[|s.writes| - 1].generation > s.handles[h].record.generation
  }

  /** Without a release, a record that differs from the handle's is of a later generation. */
  lemma DifferentIsLater(s: State, h: nat)
    requires Inv(s) && h in s.handles && s.handles[h].Held?
    ensures s.writes != []
    ensures !Same(s.handles[h].record, s.writes[|s.writes| - 1]) <==> Passed(s, h)
  {
    assert HandleFits(s, h);
    GenerationsRise(s.writes, s.handles[h].etag, |s.writes| - 1);
  }

  lemma DeliverPassed(s: State, g: nat, put: Put, stamp: nat, h: nat)
    requires Inv(s) && (g, put) in s.sent && Passed(s, h)
    ensures var t := AfterDeliver(s, g, put, stamp);
      Passed(t, h) && Silent(s, t, h)
  {
    assert SentFits(s, (g, put)) && HandleFits(s, g);
    if Accepts(s, put.matching) {
      if g == h {
        RenewalRepeats(s, h, put);
        assert false;
      }
    }
  }

  lemma StepPassed(s: State, step: Step, h: nat, t: State)
    requires Inv(s) && Enabled(s, step) && !step.Release? && Passed(s, h) && t == Do(s, step)
    ensures Passed(t, h) && Silent(s, t, h)
  {
    if step.Deliver? {
      DeliverPassed(s, step.handle, step.put, step.stamp, h);
    } else {
      OtherStep(s, step, h, t);
    }
  }

  /** With etags of either kind, a handle never writes the lease again once it went to another owner. */
  lemma {:induction false} PassedNeverRenews(s: State, steps: seq<Step>, t: State, h: nat)
    requires Inv(s) && Run(s, steps, t) && NoRelease(steps) && Passed(s, h)
    ensures Passed(t, h) && Silent(s, t, h)
    decreases |steps|
  {
    if steps != [] {
      var u := Do(s, steps[0]);
      StepKeeps(s, steps[0], u);
      StepPassed(s, steps[0], h, u);
      PassedNeverRenews(u, steps[1..], t, h);
      RunKeeps(u, steps[1..], t);
      SilentThen(s, u, t, h);
    }
  }

  /** Some later run without a release has the handle write the lease once more. */
  ghost predicate CanRenewUnreleased(s: State, h: nat) {
    && h in s.handles && s.handles[h].Held?
    && exists steps, t :: Run(s, steps, t) && NoRelease(steps) && !Silent(s, t, h)
  }

  /** Without a release, whoever can still renew has the owner and the generation of the stored record. */
  lemma RenewerOwns(s: State, h: nat)
    requires Unreleased(s) && CanRenewUnreleased(s, h)
    ensures s.writes != [] && Same(s.handles[h].record, s.writes[|s.writes| - 1])
  {
    UnreleasedInv(s);
    DifferentIsLater(s, h);
    var steps, t :| Run(s, steps, t) && NoRelease(steps) && !Silent(s, t, h);
    if Passed(s, h) {
      PassedNeverRenews(s, steps, t, h);
      assert false;
    }
  }

  lemma ReachableThen(s: State, t: State)
    requires Reachable(s) && Leads(s, t)
    ensures Reachable(t)
  {
    var start :| Initial(start) && Leads(start, s);
    LeadsThen(start, s, t);
  }

  /** The answer to a claim that the store accepts at once. */
  lemma ClaimLands(s: State, g: nat, owner: nat, reading: Reading, put: Put, stamp: nat, b: State)
    requires CanClaim(s, g, owner, reading) && put == ClaimPut(s, g, owner, reading).value
    requires b == AfterDeliver(AfterClaim(s, g, owner, reading), g, put, stamp)
    ensures (g, put) in AfterClaim(s, g, owner, reading).sent
    ensures b == s.(writes := s.writes + [put.record], log := s.log + [Landing(put, stamp)], present := true,
                    handles := s.handles[g := Claiming(put)],
                    answers := s.answers + multiset{(g, Landed(|s.writes|))})
  {
    var a := AfterClaim(s, g, owner, reading);
    assert Accepts(a, put.matching);
    assert a.sent - multiset{(g, put)} == s.sent;
  }

  lemma AnswerArrives(s: State, g: nat, put: Put, log: seq<Landing>, b: State)
    requires b == s.(writes := s.writes + [put.record], log := log, present := true,
                     handles := s.handles[g := Claiming(put)],
                     answers := s.answers + multiset{(g, Landed(|s.writes|))})
    ensures Enabled(b, Receive(g, Landed(|s.writes|)))
    ensures AfterReceive(b, g, Landed(|s.writes|)) ==
      s.(writes := s.writes + [put.record], log := log, present := true,
         handles := s.handles[g := Held(put.record, |s.writes|, false)])
  {
    assert b.answers - multiset{(g, Landed(|s.writes|))} == s.answers;
    assert b.handles[g := Held(put.record, |s.writes|, false)] == s.handles[g := Held(put.record, |s.writes|, false)];
  }

  /** A claim that is granted at once. */
  lemma Granted(s: State, g: nat, owner: nat, reading: Reading, put: Put, stamp: nat) returns (t: State)
    requires CanClaim(s, g, owner, reading) && put == ClaimPut(s, g, owner, reading).value
    ensures Leads(s, t)
    ensures t == s.(writes := s.writes + [put.record], log := s.log + [Landing(put, stamp)], present := true,
                    handles := s.handles[g := Held(put.record, |s.writes|, false)])
  {
    var a := AfterClaim(s, g, owner, reading);
    StepLeads(s, Claim(g, owner, reading), a);
    var b := AfterDeliver(a, g, put, stamp);
    ClaimLands(s, g, owner, reading, put, stamp, b);
    StepLeads(a, Deliver(g, put, stamp), b);
    AnswerArrives(s, g, put, s.log + [Landing(put, stamp)], b);
    t := AfterReceive(b, g, Landed(|s.writes|));
    StepLeads(b, Receive(g, Landed(|s.writes|)), t);
    LeadsThen(s, a, b);
    LeadsThen(s, b, t);
  }

  /**
   With etags made from the content, two handles of one owner can both renew: from every state in which
   a handle can, a second one of the same owner adopts the lease and the first still can.
   */
  lemma TwoCanRenew(s: State, h: nat, g: nat) returns (t: State)
    requires Reachable(s) && !s.freshTags && Holding(s, h) && Accepts(s, Some(s.handles[h].etag)) && g !in s.handles
    ensures Reachable(t) && CanStillRenew(t, h) && CanStillRenew(t, g) && h != g
  {
    assert HandleFits(s, h) by {
      ReachableFences(s);
    }
    var owner := s.handles[h].record.owner;
    var reading := Reading(0, 0);
    t := Granted(s, g, owner, reading, ClaimPut(s, g, owner, reading).value, 0);
    ReachableThen(s, t);
    CurrentCanRenew(t, h);
    CurrentCanRenew(t, g);
  }

  /** A handle gives the lease back and another owner creates it anew. */
  lemma HandedOver(s: State, h: nat, g: nat, owner: nat) returns (t: State)
    requires Holding(s, h) && g !in s.handles
    ensures Leads(s, t) && t.freshTags == s.freshTags && t.present && t.writes == s.writes + [Record(owner, 1, g)]
    ensures t.handles == s.handles[h := s.handles[h].(lost := true)][g := Held(Record(owner, 1, g), |s.writes|, false)]
    ensures t.sent == s.sent
  {
    var u := AfterRelease(s, h);
    StepLeads(s, Release(h), u);
    t := Granted(u, g, owner, Reading(0, 0), Put(None, Record(owner, 1, g), true, Reading(0, 0)), 0);
    LeadsThen(s, u, t);
  }

  /**
   With releases it is not enough to have lost the lease to another owner: when that one has released it
   and the first owner has created it again, a delayed renewal of the old handle takes effect.
   */
  lemma ReleasedRenewsAgain(s: State, h: nat, g: nat, f: nat, other: nat) returns (u: State)
    requires Reachable(s) && !s.freshTags && Holding(s, h) && s.handles[h].record.generation == 1
    requires g !in s.handles && f !in s.handles && f != g && other != s.handles[h].record.owner
    ensures Reachable(u) && CanStillRenew(u, h)
    ensures u.writes != [] && !Same(u.handles[h].record, u.writes[|u.writes| - 1])
  {
    assert HandleFits(s, h) by {
      ReachableFences(s);
    }
    var put := Renewal(s.handles[h]);
    var a := AfterRenew(s, h);
    StepLeads(s, Renew(h), a);
    u := HandedOver(a, h, g, other);
    LeadsThen(s, a, u);
    ReachableThen(s, u);
    ReturnsLate(u, h, g, f, put);
  }

  /** The lease comes back to the owner of a renewal that is still on its way. */
  lemma ReturnsLate(u: State, h: nat, g: nat, f: nat, put: Put)
    requires !u.freshTags && Holding(u, g) && f !in u.handles && h in u.handles && u.handles[h].Held?
    requires (h, put) in u.sent && put.record.writer == h && put.record.generation == 1
    requires put.matching.Some? && put.matching.value < |u.writes| && u.writes[put.matching.value] == put.record
    ensures CanStillRenew(u, h)
  {
    var t := HandedOver(u, g, f, put.record.owner);
    LateRenewal(t, h, put);
    RenewsAfter(u, t, h);
  }

  /**
   Release deletes the object whatever it holds, and the next lease starts at generation one again:
   from every state in which a handle may release, another owner can get the first generation too.
   */
  lemma ReleaseRestarts(s: State, h: nat, g: nat, owner: nat)
    requires Unreleased(s) && Holding(s, h) && g !in s.handles && s.writes != [] && owner != s.writes[0].owner
    ensures exists t :: Leads(s, t) && t.writes == s.writes + [Record(owner, 1, g)]
    ensures s.writes[0].generation == 1 && s.writes[0].owner != owner
  {
    assert s.writes[0].generation == 1 by {
      UnreleasedInv(s);
    }
    var t := HandedOver(s, h, g, owner);
    assert t.writes == s.writes + [Record(owner, 1, g)];
  }
}

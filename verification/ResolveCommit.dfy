/**
 Classifying a commit after the fact: the walk from HEAD towards the parent generation that
 decides whether a commit is on the chain, was overtaken, or may still land.

 The walk is one GET after another, and others may write and sweep in between. So it is given the
 store as each of its GETs sees it: HEAD at the first one, a manifest at each one after that, and
 CHECKPOINT.json and the checkpoint at the last two when a manifest is missing.
 */
module ResolveCommit {
  import opened Prelude
  import opened CommitChain
  import opened PublishProtocol

  const MAX_COMMITS := 1000000

  datatype CommitState = Unknown | Committed | NotCommitted | Superseded

  datatype Outcome = Outcome(rc: JournalResult, state: CommitState)

  /** Where a walk stands: the manifest it is about to compare and read. */
  datatype Cursor = Cursor(generation: nat, id: string, key: Key, sha: Option<Digest>)

  /** The store at the n-th GET. */
  type View = nat -> Store

  /** A store that nobody changes meanwhile. */
  function Still(store: Store): View {
    n => store
  }

  datatype ReadResult = Read(manifest: Manifest) | Failed(rc: JournalResult)

  /** A manifest read is bound to the digest its child, or HEAD, recorded. */
  function ReadManifest(store: Store, key: Key, sha: Option<Digest>): ReadResult {
    if key !in store then Failed(NotFound)
    else if (sha.Some? && Sha256(store[key]) != sha.value) || !Decodes(store[key]) then Failed(Invalid)
    else Read(store[key].manifest)
  }

  /** The covered generation of a checkpoint that is intact and not ahead of HEAD, read at GETs n and n + 1. */
  function ResolveCovered(view: View, n: nat, headGeneration: nat): Option<nat> {
    if CheckpointKey !in view(n) || !view(n)[CheckpointKey].CheckpointPointer? then None else
    var ptr := view(n)[CheckpointKey];
    if ptr.covered == 0 || ptr.covered > headGeneration || ptr.key !in view(n + 1) then None else
    var cp := view(n + 1)[ptr.key];
    if Sha256(cp) == ptr.sha && cp.CheckpointManifest? && cp.coveredGeneration == ptr.covered
    then Some(ptr.covered) else None
  }

  function ParentCursor(m: Manifest): Cursor {
    Cursor(m.parentGeneration, m.parentCommitId, ManifestKey(m.parentCommitId), m.parentSha)
  }

  function HeadCursor(h: Head): Cursor {
    Cursor(h.generation, h.commitId, h.commitKey, Some(h.commitSha))
  }

  /** A missing manifest is conclusive only below an intact checkpoint. */
  function MissingOutcome(view: View, n: nat, headGeneration: nat, generation: nat): Outcome {
    var covered := ResolveCovered(view, n, headGeneration);
    if generation < headGeneration && covered.Some? && generation < covered.value
    then Outcome(JournalOk, Superseded) else Outcome(NotFound, Unknown)
  }

  /** The result of a walk, for all stores whatsoever. `steps` counts the manifests already visited. */
  function Walk(view: View, headGeneration: nat, id: string, parent: nat, c: Cursor, steps: nat): Outcome
    decreases c.generation
  {
    if c.generation <= parent then Outcome(JournalOk, Superseded)
    else if steps + 1 >= MAX_COMMITS then Outcome(Invalid, Unknown)
    else if c.id == id then Outcome(JournalOk, Committed)
    else match ReadManifest(view(steps + 1), c.key, c.sha)
         case Failed(rc) =>
           if rc.NotFound? then MissingOutcome(view, steps + 2, headGeneration, c.generation) else Outcome(rc, Unknown)
         case Read(m) =>
           if m.generation != c.generation || m.commitId != c.id then Outcome(Invalid, Unknown)
           else if m.parentGeneration < parent then Outcome(JournalOk, Superseded)
           else if m.parentGeneration == parent then
             Outcome(JournalOk, if m.parentCommitId == id then Committed else Superseded)
           else Walk(view, headGeneration, id, parent, ParentCursor(m), steps + 1)
  }

  function Resolution(view: View, id: string, parent: nat): Outcome {
    if HeadKey !in view(0) then Outcome(JournalOk, NotCommitted)
    else if !view(0)[HeadKey].HeadObject? then Outcome(Invalid, Unknown)
    else
      var h := view(0)[HeadKey].head;
      if h.commitId == id then Outcome(JournalOk, Committed)
      else if h.generation <= parent then Outcome(JournalOk, NotCommitted)
      else Walk(view, h.generation, id, parent, HeadCursor(h), 0)
  }

  /** The walk as a loop. */
  method Resolve(view: View, id: string, parent: nat) returns (out: Outcome)
    ensures id == "" ==> out == Outcome(Invalid, Unknown)
    ensures id != "" ==> out == Resolution(view, id, parent)
    ensures out.state.Unknown? <==> !out.rc.JournalOk?
  {
    if id == "" {
      return Outcome(Invalid, Unknown);
    }
    var first := view(0);
    if HeadKey !in first {
      return Outcome(JournalOk, NotCommitted);
    }
    if !first[HeadKey].HeadObject? {
      return Outcome(Invalid, Unknown);
    }
    var head := first[HeadKey].head;
    if head.commitId == id {
      return Outcome(JournalOk, Committed);
    }
    if head.generation <= parent {
      return Outcome(JournalOk, NotCommitted);
    }
    var c := HeadCursor(head);
    var steps := 0;
    while c.generation > parent
      invariant Walk(view, head.generation, id, parent, c, steps) == Resolution(view, id, parent)
      decreases c.generation
    {
      steps := steps + 1;
      if steps >= MAX_COMMITS {
        return Outcome(Invalid, Unknown);
      }
      if c.id == id {
        return Outcome(JournalOk, Committed);
      }
      var read := ReadManifest(view(steps), c.key, c.sha);
      if read.Failed? {
        if read.rc.NotFound? {
          return MissingOutcome(view, steps + 1, head.generation, c.generation);
        }
        return Outcome(read.rc, Unknown);
      }
      var m := read.manifest;
      if m.generation != c.generation || m.commitId != c.id {
        return Outcome(Invalid, Unknown);
      }
      if m.parentGeneration < parent {
        break;
      }
      if m.parentGeneration == parent {
        return Outcome(JournalOk, if m.parentCommitId == id then Committed else Superseded);
      }
      if m.parentCommitId == "" {
        break;
      }
      c := ParentCursor(m);
    }
    out := Outcome(JournalOk, Superseded);
  }

  // ---- what a verdict means ----

  /** The id is at position i of the chain, at HEAD or not below the parent's generation. */
  ghost predicate OnChainAt(chain: seq<Manifest>, id: string, parent: nat, i: nat) {
    i < |chain| && chain[i].commitId == id && (i == 0 || chain[i].generation >= parent)
  }

  ghost predicate OnChain(chain: seq<Manifest>, id: string, parent: nat) {
    exists i :: OnChainAt(chain, id, parent, i)
  }

  ghost function Verdict(chain: seq<Manifest>, id: string, parent: nat): CommitState {
    if OnChain(chain, id, parent) then Committed
    else if |chain| <= parent then NotCommitted
    else Superseded
  }

  /** Every manifest from HEAD down to a generation is there when its turn comes. */
  ghost predicate ReadableFrom(view: View, generation: nat)
    requires HeadSound(view(0))
  {
    forall i :: 0 <= i < |Chain(view(0))| && Chain(view(0))[i].generation >= generation ==> ReadableAt(view, i)
  }

  /** The manifest at position i of the chain of HEAD is there at its GET. */
  ghost predicate ReadableAt(view: View, i: nat)
    requires HeadSound(view(0)) && i < |Chain(view(0))|
  {
    Readable(view(i + 1), Chain(view(0))[i])
  }

  predicate Readable(store: Store, m: Manifest) {
    ManifestKey(m.commitId) in store && store[ManifestKey(m.commitId)] == ManifestObject(m)
  }

  /** The cursor that stands at a manifest. */
  function CursorAt(m: Manifest): Cursor {
    Cursor(m.generation, m.commitId, ManifestKey(m.commitId), Some(Sha256(ManifestObject(m))))
  }

  /** No element of the chain in front of position i carries the id. */
  ghost predicate NotBefore(chain: seq<Manifest>, id: string, i: nat) {
    forall j :: 0 <= j < i && j < |chain| ==> chain[j].commitId != id
  }

  /** Positions and generations of a sound chain. */
  lemma ChainPosition(store: Store, i: nat)
    requires HeadSound(store) && i < |Chain(store)|
    ensures var chain := Chain(store);
      && chain[i].generation == |chain| - i
      && Decodes(ManifestObject(chain[i]))
      && chain[i].parentGeneration + 1 == chain[i].generation
      && (i + 1 < |chain| ==> ParentCursor(chain[i]) == CursorAt(chain[i + 1]))
      && (i + 1 == |chain| ==> chain[i].parentGeneration == 0)
  {
    var h := store[HeadKey].head.commitSha.preimage.manifest;
    HistoryShape(h);
    assert WellLinked(Chain(store)[i]);
    if i + 1 < |Chain(store)| {
      HistoryLinks(h, i);
    }
  }

  /**
   A digest-bound read returns the chain's own manifest or fails; it fails with NotFound only if nothing is
   stored.
   */
  lemma BoundRead(store: Store, m: Manifest)
    requires Decodes(ManifestObject(m))
    ensures var read := ReadManifest(store, ManifestKey(m.commitId), Some(Sha256(ManifestObject(m))));
      && (read.Read? <==> Readable(store, m))
      && (read.Read? ==> read.manifest == m)
      && (read == Failed(NotFound) <==> ManifestKey(m.commitId) !in store)
  {
  }

  /** Nothing below the last position visited can still put the id at the parent's generation or above. */
  lemma NoneLeft(store: Store, id: string, parent: nat, i: nat)
    requires HeadSound(store) && NotBefore(Chain(store), id, i) && 0 < i && |Chain(store)| - i < parent
    ensures !OnChain(Chain(store), id, parent)
  {
    if OnChain(Chain(store), id, parent) {
      var j :| OnChainAt(Chain(store), id, parent, j);
      ChainPosition(store, j);
    }
  }

  lemma {:induction false} WalkExact(view: View, id: string, parent: nat, i: nat)
    requires HeadSound(view(0)) && ReadableFrom(view, parent + 1)
    requires i < |Chain(view(0))| && |Chain(view(0))| - i > parent
    requires id != "" && |Chain(view(0))| - parent < MAX_COMMITS && NotBefore(Chain(view(0)), id, i)
    ensures Walk(view, |Chain(view(0))|, id, parent, CursorAt(Chain(view(0))[i]), i)
            == Outcome(JournalOk, Verdict(Chain(view(0)), id, parent))
    decreases |Chain(view(0))| - i
  {
    var store, chain := view(0), Chain(view(0));
    ChainPosition(store, i);
    assert ReadableAt(view, i);
    BoundRead(view(i + 1), chain[i]);
    if chain[i].commitId == id {
      assert OnChainAt(chain, id, parent, i);
    } else if |chain| - i - 1 > parent {
      WalkExact(view, id, parent, i + 1);
    } else if i + 1 < |chain| && chain[i + 1].commitId == id {
      ChainPosition(store, i + 1);
      assert OnChainAt(chain, id, parent, i + 1);
    } else {
      assert |chain| - i - 1 == parent;
      if i + 1 < |chain| {
        NoneLeft(store, id, parent, i + 2);
      }
    }
  }

  /**
   On readable history the verdict is exact, for the chain of the HEAD that was read. History is
   readable when every manifest above the parent's generation is there at its GET and the walk is
   within its budget.
   */
  lemma ResolutionExact(view: View, id: string, parent: nat)
    requires HeadSound(view(0)) && id != ""
    requires ReadableFrom(view, parent + 1) && |Chain(view(0))| - parent < MAX_COMMITS
    ensures Resolution(view, id, parent) == Outcome(JournalOk, Verdict(Chain(view(0)), id, parent))
  {
    var store := view(0);
    if HeadKey in store {
      var h := store[HeadKey].head;
      HistoryShape(h.commitSha.preimage.manifest);
      if h.commitId == id {
        assert OnChainAt(Chain(store), id, parent, 0);
      } else if h.generation > parent {
        WalkExact(view, id, parent, 0);
      } else {
        NoneBelow(store, id, parent);
      }
    }
  }

  lemma NoneBelow(store: Store, id: string, parent: nat)
    requires HeadSound(store) && HeadKey in store
    requires store[HeadKey].head.commitId != id && |Chain(store)| <= parent
    ensures !OnChain(Chain(store), id, parent)
  {
    if OnChain(Chain(store), id, parent) {
      var j :| OnChainAt(Chain(store), id, parent, j);
      ChainPosition(store, j);
    }
  }

  // ---- history that garbage collection has eaten into ----

  /**
   The id is on the chain where a walk that came to a missing manifest no longer looks: below the
   covered generation minus one, as read at GET n.
   */
  ghost predicate HiddenAt(view: View, id: string, parent: nat, i: nat, n: nat)
    requires HeadSound(view(0))
  {
    var chain, covered := Chain(view(0)), ResolveCovered(view, n, |Chain(view(0))|);
    OnChainAt(chain, id, parent, i) && covered.Some? && chain[i].generation + 1 < covered.value
  }

  ghost predicate Hidden(view: View, id: string, parent: nat)
    requires HeadSound(view(0))
  {
    exists i: nat, n: nat :: HiddenAt(view, id, parent, i, n)
  }

  /** What a walk that gives a verdict has established, if only the HEAD it read is sound. */
  ghost predicate Justified(view: View, id: string, parent: nat, state: CommitState)
    requires HeadSound(view(0))
  {
    var chain := Chain(view(0));
    match state
    case Unknown => true
    case Committed => OnChain(chain, id, parent)
    case NotCommitted => Verdict(chain, id, parent) == NotCommitted
    case Superseded => |chain| > parent && (OnChain(chain, id, parent) ==> Hidden(view, id, parent))
  }

  lemma MissingJustified(view: View, n: nat, id: string, parent: nat, i: nat)
    requires HeadSound(view(0)) && i < |Chain(view(0))| && |Chain(view(0))| - i > parent
    requires NotBefore(Chain(view(0)), id, i + 1)
    ensures Justified(view, id, parent, MissingOutcome(view, n, |Chain(view(0))|, |Chain(view(0))| - i).state)
  {
    var chain := Chain(view(0));
    if MissingOutcome(view, n, |chain|, |chain| - i).state.Superseded? && OnChain(chain, id, parent) {
      var j :| OnChainAt(chain, id, parent, j);
      ChainPosition(view(0), j);
      assert HiddenAt(view, id, parent, j, n);
    }
  }

  lemma {:induction false} WalkJustified(view: View, id: string, parent: nat, i: nat)
    requires HeadSound(view(0)) && i < |Chain(view(0))| && |Chain(view(0))| - i > parent
    requires id != "" && NotBefore(Chain(view(0)), id, i)
    ensures Justified(view, id, parent,
                      Walk(view, |Chain(view(0))|, id, parent, CursorAt(Chain(view(0))[i]), i).state)
    decreases |Chain(view(0))| - i
  {
    var store, chain := view(0), Chain(view(0));
    ChainPosition(store, i);
    BoundRead(view(i + 1), chain[i]);
    if chain[i].commitId == id {
      assert OnChainAt(chain, id, parent, i);
    } else if !Readable(view(i + 1), chain[i]) {
      MissingJustified(view, i + 2, id, parent, i);
    } else if |chain| - i - 1 > parent {
      WalkJustified(view, id, parent, i + 1);
    } else if i + 1 < |chain| && chain[i + 1].commitId == id {
      ChainPosition(store, i + 1);
      assert OnChainAt(chain, id, parent, i + 1);
    } else if i + 1 < |chain| {
      NoneLeft(store, id, parent, i + 2);
    }
  }

  /** Every verdict is justified, whatever is published or swept before, between and after the reads. */
  lemma ResolutionJustified(view: View, id: string, parent: nat)
    requires HeadSound(view(0)) && id != ""
    ensures Justified(view, id, parent, Resolution(view, id, parent).state)
  {
    var store := view(0);
    if HeadKey in store {
      var h := store[HeadKey].head;
      HistoryShape(h.commitSha.preimage.manifest);
      if h.commitId == id {
        assert OnChainAt(Chain(store), id, parent, 0);
      } else if h.generation > parent {
        WalkJustified(view, id, parent, 0);
      } else {
        NoneBelow(store, id, parent);
      }
    }
  }

  /**
   A sweep has been there: everything from the covered generation up is read, the manifest below is
   gone at its GET, and the checkpoint is found after that.
   */
  ghost predicate Swept(view: View, covered: nat)
    requires HeadSound(view(0))
  {
    && 2 <= covered <= |Chain(view(0))|
    && ReadableFrom(view, covered)
    && var i := |Chain(view(0))| - covered + 1;
       && ManifestKey(Chain(view(0))[i].commitId) !in view(i + 1)
       && ResolveCovered(view, i + 2, |Chain(view(0))|) == Some(covered)
  }

  lemma {:induction false} SweptWalk(view: View, id: string, parent: nat, covered: nat, i: nat)
    requires HeadSound(view(0)) && Swept(view, covered) && parent + 1 < covered
    requires i <= |Chain(view(0))| - covered + 1
    requires id != "" && |Chain(view(0))| - parent < MAX_COMMITS && NotBefore(Chain(view(0)), id, i)
    ensures Walk(view, |Chain(view(0))|, id, parent, CursorAt(Chain(view(0))[i]), i) ==
            Outcome(JournalOk, if OnChain(Chain(view(0)), id, covered - 1) then Committed else Superseded)
    decreases |Chain(view(0))| - i
  {
    var store, chain := view(0), Chain(view(0));
    ChainPosition(store, i);
    BoundRead(view(i + 1), chain[i]);
    if chain[i].commitId == id {
      assert OnChainAt(chain, id, covered - 1, i);
    } else if i <= |chain| - covered {
      assert ReadableAt(view, i);
      SweptWalk(view, id, parent, covered, i + 1);
    } else {
      NoneLeft(store, id, covered - 1, i + 1);
    }
  }

  /** On swept history the walk sees the chain down to the generation below the covered one. */
  lemma SweptResolution(view: View, id: string, parent: nat, covered: nat)
    requires HeadSound(view(0)) && Swept(view, covered) && parent + 1 < covered
    requires id != "" && |Chain(view(0))| - parent < MAX_COMMITS
    ensures Resolution(view, id, parent) ==
            Outcome(JournalOk, if OnChain(Chain(view(0)), id, covered - 1) then Committed else Superseded)
    ensures Resolution(view, id, parent).state == Verdict(Chain(view(0)), id, parent)
            <==> (OnChain(Chain(view(0)), id, parent) ==> OnChain(Chain(view(0)), id, covered - 1))
  {
    var h, chain := view(0)[HeadKey].head, Chain(view(0));
    HistoryShape(h.commitSha.preimage.manifest);
    if h.commitId == id {
      assert OnChainAt(chain, id, covered - 1, 0) && OnChainAt(chain, id, parent, 0);
    } else {
      SweptWalk(view, id, parent, covered, 0);
      if OnChain(chain, id, covered - 1) {
        var i :| OnChainAt(chain, id, covered - 1, i);
        assert OnChainAt(chain, id, parent, i);
      }
    }
  }

  /** The chain's ids are there, and each occurs once. */
  ghost predicate DistinctIds(chain: seq<Manifest>) {
    && (forall i :: 0 <= i < |chain| ==> chain[i].commitId != "")
    && (forall i, j :: 0 <= i < j < |chain| ==> chain[i].commitId != chain[j].commitId)
  }

  /** On swept history a commit that landed is reported committed exactly if the pointer is at most one above it. */
  lemma SweptCommit(view: View, parent: nat, covered: nat, i: nat)
    requires HeadSound(view(0)) && Swept(view, covered) && parent + 1 < covered && DistinctIds(Chain(view(0)))
    requires |Chain(view(0))| - parent < MAX_COMMITS && i < |Chain(view(0))| && Chain(view(0))[i].generation >= parent
    ensures Resolution(view, Chain(view(0))[i].commitId, parent) ==
            Outcome(JournalOk, if covered <= Chain(view(0))[i].generation + 1 then Committed else Superseded)
  {
    var chain, id := Chain(view(0)), Chain(view(0))[i].commitId;
    ChainPosition(view(0), i);
    SweptResolution(view, id, parent, covered);
    if covered <= chain[i].generation + 1 {
      assert OnChainAt(chain, id, covered - 1, i);
    }
  }

  /**
   What a caller can check: whichever commit landed on a parent, it is reported committed if and only
   if the checkpoint pointer is at most two above the parent.
   */
  lemma SweptGuard(view: View, parent: nat, covered: nat)
    requires HeadSound(view(0)) && Swept(view, covered) && parent + 1 < covered && DistinctIds(Chain(view(0)))
    requires |Chain(view(0))| - parent < MAX_COMMITS
    ensures (forall i :: 0 <= i < |Chain(view(0))| && Chain(view(0))[i].generation == parent + 1 ==>
               Resolution(view, Chain(view(0))[i].commitId, parent).state == Committed) <==> covered <= parent + 2
  {
    var chain, at := Chain(view(0)), |Chain(view(0))| - (parent + 1);
    ChainPosition(view(0), at);
    SweptCommit(view, parent, covered, at);
    forall i | 0 <= i < |chain| && chain[i].generation == parent + 1 && covered <= parent + 2
      ensures Resolution(view, chain[i].commitId, parent).state == Committed
    {
      SweptCommit(view, parent, covered, i);
    }
  }
}

/**
 The objects of one database in the store, and the hash-linked chain of commit
 manifests that hangs from HEAD.

 SHA-256 is represented by its preimage, which says exactly that no two stored
 objects share a digest. All keys are relative to one database root.
 */
module CommitChain {
  import opened Prelude

  datatype Digest = Sha256(preimage: Object)

  datatype Key =
    | HeadKey
    | ManifestKey(id: string)
    | SegmentKey(digest: Digest)
    | CheckpointKey
    | CheckpointManifestKey(digest: Digest)

  datatype Object =
    | HeadObject(head: Head)
    | ManifestObject(manifest: Manifest)
    | SegmentObject(commitId: string, payload: seq<nat>)
    | CheckpointPointer(covered: nat, key: Key, sha: Digest)
    | CheckpointManifest(coveredGeneration: nat, baseCommitId: string)
    | OtherObject(bytes: seq<nat>)

  datatype Head = Head(generation: nat, commitId: string, commitKey: Key, commitSha: Digest)

  /** A manifest with an unsorted page list does not decode. */
  type PageSet = s: seq<nat> | StrictlyIncreasing(s) witness []

  /** `pages` is empty when the page set is unknown. */
  datatype SegmentRef = SegmentRef(digest: Digest, pages: PageSet)

  datatype Manifest = Manifest(
    generation: nat,
    commitId: string,
    parentGeneration: nat,
    parentCommitId: string,
    parentSha: Option<Digest>,
    segments: seq<SegmentRef>)

  type Store = map<Key, Object>

  /** The parent rule every decoded manifest obeys. */
  predicate ParentValid(m: Manifest) {
    if m.parentGeneration == 0 then
      m.generation == 1 && m.parentCommitId == "" && m.parentSha.None?
    else
      m.parentGeneration + 1 == m.generation && m.parentCommitId != "" && m.parentSha.Some?
  }

  /** What a manifest decode accepts, as far as the chain is concerned. */
  predicate Decodes(o: Object) {
    o.ManifestObject? && ParentValid(o.manifest) && o.manifest.segments != []
  }

  /** A manifest whose parent fields and parent digest agree with each other all the way to genesis. */
  predicate WellLinked(m: Manifest)
    decreases m
  {
    && Decodes(ManifestObject(m))
    && (m.parentGeneration > 0 ==>
          && m.parentSha.value.preimage.ManifestObject?
          && var p := m.parentSha.value.preimage.manifest;
             p.commitId == m.parentCommitId && p.generation == m.parentGeneration && WellLinked(p))
  }

  /** The manifests reachable through parent digests, newest first. */
  function History(m: Manifest): seq<Manifest>
    decreases m
  {
    if m.parentSha.Some? && m.parentSha.value.preimage.ManifestObject? then
      [m] + History(m.parentSha.value.preimage.manifest)
    else
      [m]
  }

  /** A HEAD object as the publisher writes it. */
  predicate HeadDescribes(h: Head, m: Manifest) {
    && h.generation == m.generation
    && h.commitId == m.commitId
    && h.commitKey == ManifestKey(m.commitId)
    && h.commitSha == Sha256(ManifestObject(m))
  }

  function HeadFor(m: Manifest): (h: Head)
    ensures HeadDescribes(h, m)
    ensures h.commitSha.preimage.manifest == m
  {
    Head(m.generation, m.commitId, ManifestKey(m.commitId), Sha256(ManifestObject(m)))
  }

  /** HEAD is absent, or it describes a manifest that is linked down to genesis. */
  predicate HeadSound(store: Store) {
    HeadKey in store ==>
      && store[HeadKey].HeadObject?
      && store[HeadKey].head.commitSha.preimage.ManifestObject?
      && var m := store[HeadKey].head.commitSha.preimage.manifest;
         HeadDescribes(store[HeadKey].head, m) && WellLinked(m)
  }

  /** The commit chain of the store, newest first; empty before genesis. */
  function Chain(store: Store): seq<Manifest>
    requires HeadSound(store)
  {
    if HeadKey in store then History(store[HeadKey].head.commitSha.preimage.manifest) else []
  }

  /** Everything the chain needs of one of its manifests is in the store. */
  predicate Present(store: Store, m: Manifest) {
    && ManifestKey(m.commitId) in store
    && store[ManifestKey(m.commitId)] == ManifestObject(m)
    && forall i :: 0 <= i < |m.segments| ==>
         && SegmentKey(m.segments[i].digest) in store
         && store[SegmentKey(m.segments[i].digest)] == m.segments[i].digest.preimage
  }

  /** Generations along a chain are contiguous and end at genesis. */
  lemma {:induction false} HistoryShape(m: Manifest)
    requires WellLinked(m)
    ensures |History(m)| == m.generation
    ensures forall i :: 0 <= i < |History(m)| ==>
      && History(m)[i].generation == m.generation - i
      && WellLinked(History(m)[i])
      && History(History(m)[i]) == History(m)[i..]
    decreases m
  {
    if m.parentGeneration > 0 {
      var p := m.parentSha.value.preimage.manifest;
      HistoryShape(p);
      forall i | 0 <= i < |History(m)|
        ensures History(m)[i].generation == m.generation - i
        ensures WellLinked(History(m)[i])
        ensures History(History(m)[i]) == History(m)[i..]
      {
        if i > 0 {
          assert History(m)[i] == History(p)[i - 1];
          assert History(m)[i..] == History(p)[i - 1..];
        }
      }
    }
  }

  /** Each link of a chain: the next element is the one the parent fields name. */
  lemma HistoryLinks(m: Manifest, i: nat)
    requires WellLinked(m)
    requires i + 1 < |History(m)|
    ensures History(m)[i].parentGeneration == History(m)[i + 1].generation
    ensures History(m)[i].parentCommitId == History(m)[i + 1].commitId
    ensures History(m)[i].parentSha == Some(Sha256(ManifestObject(History(m)[i + 1])))
  {
    HistoryShape(m);
    var x := History(m)[i];
    assert History(x) == History(m)[i..];
    assert History(m)[i + 1] == History(m)[i..][1];
  }
}

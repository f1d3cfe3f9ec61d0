/**
 Loading the chain from a listing: all listed manifests are fetched, and the chain is followed from
 HEAD through them. The listing only says where to look; its order and what else it holds must not matter.
 */
module ListChain {
  import opened Prelude
  import opened CommitChain
  import KeySort

  /** A listed key, and the manifest and hash of what is stored there, if it could be fetched and decoded. */
  datatype Slot = Slot(key: string, manifest: Manifest, sha: Digest, databaseId: string, pageSize: nat, ok: bool)

  datatype Metadata = Metadata(databaseId: string, pageSize: nat)

  /** A fetched slot carries the hash of the manifest it carries. */
  ghost predicate Fetched(slot: Slot) {
    slot.ok ==> slot.sha == Sha256(ManifestObject(slot.manifest))
  }

  function ManifestPath(root: string, id: string): string {
    root + "/commits/" + id + ".json"
  }

  function Keys(slots: seq<Slot>): (keys: seq<string>)
    ensures |keys| == |slots|
  {
    seq(|slots|, i requires 0 <= i < |slots| => slots[i].key)
  }

  /** Where a chain of manifests must be: what the walk checks of every link, down to genesis. */
  ghost predicate Linked(m: Manifest, generation: nat, id: string)
    decreases m
  {
    && m.generation == generation && m.commitId == id && m.parentGeneration + 1 == generation
    && if m.parentGeneration == 0 then m.parentCommitId == "" && m.parentSha.None?
       else
         && m.parentCommitId != "" && m.parentSha.Some? && m.parentSha.value.preimage.ManifestObject?
         && Linked(m.parentSha.value.preimage.manifest, m.parentGeneration, m.parentCommitId)
  }

  /** A manifest linked to genesis has as many ancestors as its generation says, itself included. */
  lemma {:induction false} LinkedLength(m: Manifest, generation: nat, id: string)
    requires Linked(m, generation, id)
    ensures |History(m)| == generation
    decreases m
  {
    if m.parentGeneration > 0 {
      LinkedLength(m.parentSha.value.preimage.manifest, m.parentGeneration, m.parentCommitId);
    }
  }

  lemma {:induction false} WellLinkedIsLinked(m: Manifest)
    requires WellLinked(m)
    ensures Linked(m, m.generation, m.commitId)
    decreases m
  {
    if m.parentGeneration > 0 {
      WellLinkedIsLinked(m.parentSha.value.preimage.manifest);
    }
  }

  /** The slot of a key, by binary search in the sorted slot numbers. */
  method FindSlot(slots: seq<Slot>, order: array<nat>, key: string) returns (found: Option<nat>)
    requires KeySort.Sorted(Keys(slots), order[..]) && multiset(order[..]) == multiset(seq(|slots|, i => i))
    ensures found.Some? ==> found.value < |slots| && slots[found.value].key == key
    ensures found.None? ==> forall i :: 0 <= i < |slots| ==> slots[i].key != key
  {
    var lo := KeySort.Search(order, Keys(slots), key);
    AllSlots(order[..], |slots|);
    if lo < order.Length && KeySort.KeyAt(Keys(slots), order[lo]) == key {
      assert order[..][lo] in order[..];
      return Some(order[lo]);
    }
    found := None;
    forall i | 0 <= i < |slots| ensures slots[i].key != key {
      assert i in order[..];
      var k :| 0 <= k < order.Length && order[k] == i;
      assert KeySort.KeyAt(Keys(slots), order[k]) == slots[i].key;
    }
  }

  /** A permutation of the slot numbers holds exactly the slot numbers. */
  lemma AllSlots(order: seq<nat>, n: nat)
    requires multiset(order) == multiset(seq(n, i => i))
    ensures forall x :: x in order <==> 0 <= x < n
  {
    var all := seq(n, i => i);
    forall x ensures x in order <==> 0 <= x < n {
      assert x in order <==> x in multiset(order);
      assert x in all <==> x in multiset(all);
      if 0 <= x < n { assert all[x] == x; }
    }
  }

  // ---- the walk ----

  /** The digest is that of a manifest linked down to genesis. */
  ghost predicate Rooted(d: Digest, generation: nat, id: string) {
    d.preimage.ManifestObject? && Linked(d.preimage.manifest, generation, id)
  }

  ghost function HistoryOf(d: Digest): seq<Manifest> {
    if d.preimage.ManifestObject? then History(d.preimage.manifest) else []
  }

  predicate Matches(slot: Slot, key: string, d: Digest, metadata: Metadata) {
    && slot.ok && slot.key == key && slot.sha == d
    && slot.databaseId == metadata.databaseId && slot.pageSize == metadata.pageSize
  }

  /** The manifest and all its ancestors are listed under their keys, and belong to this database. */
  ghost predicate Listed(slots: seq<Slot>, metadata: Metadata, root: string, key: string, d: Digest)
    decreases d
  {
    && (exists i :: 0 <= i < |slots| && Matches(slots[i], key, d, metadata))
    && (d.preimage.ManifestObject? && d.preimage.manifest.parentSha.Some? ==>
          Listed(slots, metadata, root, ManifestPath(root, d.preimage.manifest.parentCommitId),
            d.preimage.manifest.parentSha.value))
  }

  ghost predicate DistinctKeys(slots: seq<Slot>) {
    forall i, j :: 0 <= i < j < |slots| ==> slots[i].key != slots[j].key
  }

  /** A listing names a key once, so the slot found is the only candidate. */
  lemma OnlyCandidate(slots: seq<Slot>, metadata: Metadata, root: string, key: string, d: Digest, found: Option<nat>)
    requires DistinctKeys(slots) && Listed(slots, metadata, root, key, d)
    requires found.Some? ==> found.value < |slots| && slots[found.value].key == key
    requires found.None? ==> forall i :: 0 <= i < |slots| ==> slots[i].key != key
    ensures found.Some? && Matches(slots[found.value], key, d, metadata)
  {
    var i :| 0 <= i < |slots| && Matches(slots[i], key, d, metadata);
  }

  /** Going from a manifest that passed the tests to its parent keeps what is to be found out. */
  lemma ParentStep(slots: seq<Slot>, metadata: Metadata, root: string, key: string, m: Manifest, slot: nat)
    requires slot < |slots| && Matches(slots[slot], key, Sha256(ManifestObject(m)), metadata)
    requires m.parentGeneration > 0 && m.parentGeneration + 1 == m.generation
    requires m.parentCommitId != "" && m.parentSha.Some?
    ensures var d := Sha256(ManifestObject(m));
      && (Rooted(d, m.generation, m.commitId) <==> Rooted(m.parentSha.value, m.parentGeneration, m.parentCommitId))
      && (Listed(slots, metadata, root, key, d) <==>
            Listed(slots, metadata, root, ManifestPath(root, m.parentCommitId), m.parentSha.value))
      && (m.parentSha.value.preimage.ManifestObject? ==> HistoryOf(d) == [m] + HistoryOf(m.parentSha.value))
      && (!m.parentSha.value.preimage.ManifestObject? ==> HistoryOf(d) == [m] && HistoryOf(m.parentSha.value) == [])
  {
  }

  /** Follow the parent links from HEAD through the slots. */
  method Walk(root: string, metadata: Metadata, head: Head, headKey: string, slots: seq<Slot>, order: array<nat>)
    returns (r: Option<seq<Manifest>>)
    requires head.generation > 0 && forall i :: 0 <= i < |slots| ==> Fetched(slots[i])
    requires KeySort.Sorted(Keys(slots), order[..]) && multiset(order[..]) == multiset(seq(|slots|, i => i))
    ensures r.Some? ==> Rooted(head.commitSha, head.generation, head.commitId)
    ensures r.Some? ==> r.value == HistoryOf(head.commitSha) && |r.value| == head.generation
    ensures DistinctKeys(slots) ==>
      (r.Some? <==>
         Rooted(head.commitSha, head.generation, head.commitId) &&
         Listed(slots, metadata, root, headKey, head.commitSha))
  {
    var key, sha, id, generation := headKey, head.commitSha, head.commitId, head.generation;
    var chain: seq<Manifest> := [];
    while true
      invariant generation > 0
      invariant chain + HistoryOf(sha) == HistoryOf(head.commitSha)
      invariant Rooted(head.commitSha, head.generation, head.commitId) <==> Rooted(sha, generation, id)
      invariant Listed(slots, metadata, root, headKey, head.commitSha) <==> Listed(slots, metadata, root, key, sha)
      decreases generation
    {
      var found := FindSlot(slots, order, key);
      if DistinctKeys(slots) && Listed(slots, metadata, root, key, sha) {
        OnlyCandidate(slots, metadata, root, key, sha, found);
      }
      if found.None? || !slots[found.value].ok || slots[found.value].sha != sha {
        return None;
      }
      var m := slots[found.value].manifest;
      if m.generation != generation || m.commitId != id || slots[found.value].databaseId != metadata.databaseId ||
         slots[found.value].pageSize != metadata.pageSize || m.parentGeneration + 1 != m.generation {
        return None;
      }
      assert Matches(slots[found.value], key, sha, metadata);
      if m.parentGeneration == 0 {
        if m.parentCommitId != "" || m.parentSha.Some? {
          return None;
        }
        LinkedLength(head.commitSha.preimage.manifest, head.generation, head.commitId);
        return Some(chain + [m]);
      }
      if m.parentCommitId == "" || m.parentSha.None? {
        return None;
      }
      ParentStep(slots, metadata, root, key, m, found.value);
      chain := chain + [m];
      generation, id, sha := m.parentGeneration, m.parentCommitId, m.parentSha.value;
      key := ManifestPath(root, id);
    }
  }

  ghost predicate AllFetched(slots: seq<Slot>) {
    forall i :: 0 <= i < |slots| ==> slots[i].ok
  }

  /**
   Load the chain from a listing. If it is accepted, it is the chain of parent hashes from HEAD down
   to genesis, newest first, whatever the listing's order and whatever else it names; and it is
   accepted exactly if everything listed could be fetched and the whole chain is there.
   */
  method Load(root: string, metadata: Metadata, head: Head, headKey: string, slots: seq<Slot>)
      returns (r: Option<seq<Manifest>>)
    requires head.generation > 0 && forall i :: 0 <= i < |slots| ==> Fetched(slots[i])
    ensures r.Some? ==> Rooted(head.commitSha, head.generation, head.commitId)
    ensures r.Some? ==> r.value == HistoryOf(head.commitSha) && |r.value| == head.generation
    ensures DistinctKeys(slots) ==>
      (r.Some? <==>
         AllFetched(slots) && Rooted(head.commitSha, head.generation, head.commitId) &&
         Listed(slots, metadata, root, headKey, head.commitSha))
  {
    for i := 0 to |slots|
      invariant forall j :: 0 <= j < i ==> slots[j].ok
    {
      if !slots[i].ok {
        return None;
      }
    }
    var order := new nat[|slots|](i => i);
    assert order[..] == seq(|slots|, i => i);
    var buf := new nat[|slots|];
    KeySort.Sort(order, buf, Keys(slots));
    r := Walk(root, metadata, head, headKey, slots, order);
  }

  ghost predicate SameListing(a: seq<Slot>, b: seq<Slot>) {
    forall x :: x in a <==> x in b
  }

  /** The order of a listing does not matter. */
  lemma {:induction false} ListedAnyOrder(a: seq<Slot>, b: seq<Slot>, metadata: Metadata, root: string, key: string,
          d: Digest)
    requires SameListing(a, b) && Listed(a, metadata, root, key, d)
    ensures Listed(b, metadata, root, key, d)
    decreases d
  {
    var i :| 0 <= i < |a| && Matches(a[i], key, d, metadata);
    assert a[i] in b;
    var j :| 0 <= j < |b| && b[j] == a[i];
    if d.preimage.ManifestObject? && d.preimage.manifest.parentSha.Some? {
      var m := d.preimage.manifest;
      ListedAnyOrder(a, b, metadata, root, ManifestPath(root, m.parentCommitId), m.parentSha.value);
    }
  }

  /** A store in which HEAD is sound and the chain is present lists its whole chain. */
  lemma {:induction false} PresentIsListed(slots: seq<Slot>, metadata: Metadata, root: string, m: Manifest)
    requires WellLinked(m)
    requires forall x :: x in History(m) ==>
      exists i :: 0 <= i < |slots| &&
        Matches(slots[i], ManifestPath(root, x.commitId), Sha256(ManifestObject(x)), metadata)
    ensures Listed(slots, metadata, root, ManifestPath(root, m.commitId), Sha256(ManifestObject(m)))
    decreases m
  {
    assert m in History(m);
    if m.parentGeneration > 0 {
      var p := m.parentSha.value.preimage.manifest;
      assert forall x :: x in History(p) ==> x in History(m);
      PresentIsListed(slots, metadata, root, p);
    }
  }

  /** Every manifest that is stored is listed under its key, as a manifest of this database. */
  ghost predicate Lists(slots: seq<Slot>, metadata: Metadata, root: string, store: Store) {
    forall m :: Stored(store, m) ==>
      exists i :: 0 <= i < |slots| &&
        Matches(slots[i], ManifestPath(root, m.commitId), Sha256(ManifestObject(m)), metadata)
  }

  ghost predicate Stored(store: Store, m: Manifest) {
    ManifestKey(m.commitId) in store && store[ManifestKey(m.commitId)] == ManifestObject(m)
  }

  /**
   The loader accepts every store with a sound HEAD whose chain is stored, whatever else is stored and
   in whatever order it is listed, and gives back that chain.
   */
  method LoadStore(root: string, metadata: Metadata, store: Store, slots: seq<Slot>) returns (r: Option<seq<Manifest>>)
    requires HeadKey in store && HeadSound(store) && forall m :: m in Chain(store) ==> Stored(store, m)
    requires Lists(slots, metadata, root, store) && DistinctKeys(slots)
    requires AllFetched(slots) && forall i :: 0 <= i < |slots| ==> Fetched(slots[i])
    ensures r == Some(Chain(store))
  {
    var head := store[HeadKey].head;
    ghost var m := head.commitSha.preimage.manifest;
    HistoryShape(m);
    WellLinkedIsLinked(m);
    PresentIsListed(slots, metadata, root, m);
    r := Load(root, metadata, head, ManifestPath(root, head.commitId), slots);
  }
}

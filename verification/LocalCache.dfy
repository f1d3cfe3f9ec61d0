/**
 The local image cache of one database: an image file and a metadata file, each written to a
 temporary name and renamed into place. A save may stop between any two steps, a rename may be
 lost with the power, and the image file may change under the cache's hands.
 */
module LocalCache {
  import opened Prelude

  type Bytes = seq<bv8>

  /** SHA-256 as a function without collisions. */
  datatype Digest = Sha256(bytes: Bytes)

  /** The remote head an image belongs to. */
  datatype Head = Head(generation: nat, commitId: string, commitSha: string)

  datatype Metadata = Metadata(head: Head, size: nat, digest: Digest)

  /** A metadata file holds what was printed, or the beginning of it. */
  datatype MetadataFile = Whole(metadata: Metadata) | Torn

  /** A save and what it attested: the size and hash it was given, or those of its source. */
  datatype Save = Save(head: Head, source: Bytes, size: nat, digest: Digest)

  const CHUNK: nat := 262144

  predicate WellFormed(m: Metadata) {
    m.head.generation > 0 && m.head.commitId != "" && |m.head.commitSha| == 64 && m.size > 0
  }

  /** Metadata that is torn or lacks a field is refused. */
  function ReadMetadata(file: Option<MetadataFile>): Option<Metadata> {
    if file.Some? && file.value.Whole? && WellFormed(file.value.metadata) then Some(file.value.metadata) else None
  }

  ghost predicate WrittenBy(file: MetadataFile, saves: set<Save>) {
    file.Whole? ==> exists s :: s in saves && file.metadata == Metadata(s.head, s.size, s.digest)
  }

  /** The save attested its own source. */
  predicate Truthful(s: Save) {
    s.size == |s.source| && s.digest == Sha256(s.source)
  }

  /** The bytes are what the save attested; if it attested its own source, they are that source and nothing else. */
  ghost predicate Delivers(s: Save, bytes: Bytes) {
    && |bytes| == s.size && Sha256(bytes) == s.digest
    && (Truthful(s) <==> bytes == s.source)
  }

  class CacheDir {
    var image: Option<Bytes>
    var metadata: Option<MetadataFile>
    var tmpImage: Option<Bytes>
    var tmpMetadata: Option<MetadataFile>
    /** What the two names held before: a rename that is not yet on disk can be lost. */
    var pastImages: seq<Option<Bytes>>
    var pastMetadata: seq<Option<MetadataFile>>
    ghost var saves: set<Save>

    ghost predicate Known(file: Option<MetadataFile>)
      reads this
    {
      file.Some? ==> WrittenBy(file.value, saves)
    }

    /** Whatever metadata is, was or is about to be in place was printed by one save. */
    ghost predicate Valid()
      reads this
    {
      Known(metadata) && Known(tmpMetadata) && forall i :: 0 <= i < |pastMetadata| ==> Known(pastMetadata[i])
    }

    constructor ()
      ensures Valid() && image == None && metadata == None && saves == {}
    {
      image, metadata, tmpImage, tmpMetadata, pastImages, pastMetadata := None, None, None, None, [], [];
      saves := {};
    }

    // ---- saving ----

    /** Copy to the temporary name; on failure, or if the process stops, only a part may be there. */
    method CopyToTmp(source: Bytes) returns (ok: bool, ghost fault: bool)
      modifies `tmpImage
      ensures ok ==> tmpImage == Some(source)
      ensures ok <==> !fault
    {
      tmpImage := Some([]);
      fault := false;
      var pos := 0;
      while pos < |source|
        invariant 0 <= pos <= |source| && tmpImage == Some(source[..pos])
      {
        if * {
          return false, true;
        }
        pos := if pos + CHUNK <= |source| then pos + CHUNK else |source|;
        tmpImage := Some(source[..pos]);
      }
      ok :| true;
      fault := !ok;
      assert source[..pos] == source;
    }

    method RenameImage()
      modifies `image, `tmpImage, `pastImages
      ensures image == old(tmpImage) && tmpImage == None && pastImages == old(pastImages) + [old(image)]
    {
      pastImages := pastImages + [image];
      image, tmpImage := tmpImage, None;
    }

    method WriteTmpMetadata(m: Metadata) returns (ok: bool, ghost fault: bool)
      modifies `tmpMetadata
      ensures ok ==> tmpMetadata == Some(Whole(m))
      ensures !ok ==> tmpMetadata == Some(Torn) || tmpMetadata == None
      ensures ok <==> !fault
    {
      tmpMetadata := Some(Torn);
      if * {
        return false, true;
      }
      tmpMetadata := Some(Whole(m));
      ok, fault := true, false;
      if * {
        tmpMetadata := None;
        ok, fault := false, true;
      }
    }

    method RenameMetadata()
      modifies `metadata, `tmpMetadata, `pastMetadata
      ensures metadata == old(tmpMetadata) && tmpMetadata == None && pastMetadata == old(pastMetadata) + [old(metadata)]
    {
      pastMetadata := pastMetadata + [metadata];
      metadata, tmpMetadata := tmpMetadata, None;
    }

    /**
     Save an image for a head. It may stop after any step, and a file operation may fail; without such a
     fault it succeeds for every head that has an id and a generation. `given` is a size and hash the
     caller vouches for.
     */
    method SaveImage(head: Head, source: Bytes, given: Option<(nat, Digest)>) returns (ok: bool, ghost fault: bool)
      requires Valid()
      modifies this
      ensures Valid() && old(saves) <= saves
      ensures ok ==> head.generation > 0 && head.commitId != ""
      ensures ok ==> !fault
      ensures !fault ==> (ok <==> head.generation > 0 && head.commitId != "")
      ensures ok ==> image == Some(source)
      ensures ok ==> metadata == Some(Whole(
        if given.Some? && given.value.0 > 0 then Metadata(head, given.value.0, given.value.1)
        else Metadata(head, |source|, Sha256(source))))
      ensures !ok ==>
        (image == old(image) && metadata == old(metadata)) || (image == Some(source) && metadata == old(metadata))
    {
      fault := false;
      if head.commitId == "" || head.generation == 0 {
        return false, false;
      }
      var size, digest := |source|, Sha256(source);
      if given.Some? && given.value.0 > 0 {
        size, digest := given.value.0, given.value.1;
      }
      ghost var save := Save(head, source, size, digest);
      saves := saves + {save};
      GrowKnown(old(saves), saves);
      assert Valid();
      ok, fault := CopyToTmp(source);
      if !ok {
        return;
      }
      RenameImage();
      if * {
        return false, true;
      }
      ok, fault := WriteTmpMetadata(Metadata(head, size, digest));
      if !ok {
        return;
      }
      if * {
        return false, true;
      }
      RenameMetadata();
    }

    // ---- what can happen to the files ----

    /** The power fails: each name shows what it holds or held once, and temporary files are whatever is left. */
    method PowerLoss()
      requires Valid()
      modifies this
      ensures Valid() && saves == old(saves)
    {
      var i: nat, j: nat :| i <= |pastImages| && j <= |pastMetadata|;
      if i < |pastImages| {
        image := pastImages[i];
      }
      if j < |pastMetadata| {
        metadata := pastMetadata[j];
      }
      tmpImage, tmpMetadata := None, Some(Torn);
    }

    /** The image file is changed by something else. */
    method Corrupt(bytes: Option<Bytes>)
      requires Valid()
      modifies `image
      ensures Valid() && image == bytes
    {
      image := bytes;
    }

    /** Remove a file; that may fail without anybody noticing. */
    method RemoveImage() returns (removed: bool)
      modifies `image, `pastImages
      ensures image == if removed then None else old(image)
    {
      removed := *;
      if removed {
        pastImages, image := pastImages + [image], None;
      }
    }

    /**
     Another database's save makes room: the files go one by one, each if its removal works, and the
     process may stop in between. Without the image nothing is served for any head.
     */
    method Evict() returns (removed: bool)
      requires Valid()
      modifies this
      ensures Valid() && saves == old(saves)
      ensures image == (if removed then None else old(image)) && (metadata == None || metadata == old(metadata))
      ensures removed ==> forall head :: !Serves(head)
    {
      removed := RemoveImage();
      if * { return; }
      if * {
        pastMetadata, metadata := pastMetadata + [metadata], None;
      }
      if * { return; }
      if * {
        tmpImage := None;
      }
      if * { return; }
      if * {
        tmpMetadata := None;
      }
    }

    // ---- saves of one database at the same time ----

    /** One step of another save, on the same four names. */
    method OtherStep()
      requires Valid()
      modifies this
      ensures Valid() && old(saves) <= saves
    {
      if
      case true =>
        tmpImage := *;
      case true =>
        RenameImage();
      case true =>
        tmpMetadata := Some(Torn);
      case true =>
        var other: Save := *;
        saves := saves + {other};
        GrowKnown(old(saves), saves);
        tmpMetadata := Some(Whole(Metadata(other.head, other.size, other.digest)));
      case true =>
        RenameMetadata();
    }

    /** What other saves do meanwhile. */
    method Meanwhile()
      requires Valid()
      modifies this
      ensures Valid() && old(saves) <= saves
    {
      var n: nat :| true;
      for i := 0 to n
        invariant Valid() && old(saves) <= saves
      {
        OtherStep();
      }
    }

    /**
     A save with other saves of the database between its steps: image and metadata may come from
     different saves, but all metadata is still that of one save, which is what probing rests on.
     */
    method SaveBesideOthers(head: Head, source: Bytes, given: Option<(nat, Digest)>) returns (ok: bool)
      requires Valid()
      modifies this
      ensures Valid() && old(saves) <= saves
    {
      if head.commitId == "" || head.generation == 0 {
        return false;
      }
      var size, digest := |source|, Sha256(source);
      if given.Some? && given.value.0 > 0 {
        size, digest := given.value.0, given.value.1;
      }
      saves := saves + {Save(head, source, size, digest)};
      GrowKnown(old(saves), saves);
      ghost var mine := Save(head, source, size, digest);
      ghost var fault;
      ok, fault := CopyToTmp(source);
      Meanwhile();
      if !ok {
        return;
      }
      RenameImage();
      Meanwhile();
      if * {
        return false;
      }
      assert mine in saves;
      ok, fault := WriteTmpMetadata(Metadata(head, size, digest));
      Meanwhile();
      if !ok {
        return;
      }
      RenameMetadata();
    }

    // ---- probing ----

    /** Copy and hash in one pass; the copy is removed unless size and hash are the attested ones. */
    method CopyVerified(src: Bytes, size: nat, digest: Digest) returns (out: Option<Bytes>, ghost fault: bool)
      ensures out.Some? ==> out.value == src && |src| == size && Sha256(src) == digest
      ensures !fault && |src| == size && Sha256(src) == digest ==> out.Some?
    {
      fault := false;
      var pos := 0;
      var hashed: Bytes, written: Bytes := [], [];
      while pos < |src|
        invariant 0 <= pos <= |src| && hashed == src[..pos] && written == src[..pos]
      {
        if * {
          return None, true;
        }
        var next := if pos + CHUNK <= |src| then pos + CHUNK else |src|;
        assert src[..next] == src[..pos] + src[pos..next];
        hashed, written := hashed + src[pos..next], written + src[pos..next];
        pos := next;
      }
      assert src[..pos] == src;
      out := if |hashed| == size && Sha256(hashed) == digest then Some(written) else None;
    }

    /** The image in place is the one attested for the head. */
    ghost predicate Serves(head: Head)
      reads this
    {
      && image.Some? && ReadMetadata(metadata).Some?
      && var m := ReadMetadata(metadata).value;
         m.head == head && |image.value| == m.size && Sha256(image.value) == m.digest
    }

    /**
     Offer the cached image for a remote head. Whatever was saved, interrupted, lost or changed
     before, what is delivered is what some save for this very head attested.
     */
    method Probe(head: Head) returns (out: Option<Bytes>, ghost fault: bool)
      requires Valid()
      ensures out.Some? ==> image == out && exists s :: s in saves && s.head == head && Delivers(s, out.value)
      ensures !fault ==> (out.Some? <==> Serves(head))
    {
      fault := false;
      if head.commitId == "" || head.generation == 0 || metadata.None? || image.None? {
        return None, false;
      }
      var m := ReadMetadata(metadata);
      if m.None? || m.value.head != head || |image.value| != m.value.size {
        return None, false;
      }
      out, fault := CopyVerified(image.value, m.value.size, m.value.digest);
      if out.Some? {
        ghost var s :| s in saves && metadata.value.metadata == Metadata(s.head, s.size, s.digest);
        assert Delivers(s, out.value);
      }
    }
  }

  /** Probing while others save: what is delivered is still what one save for this very head attested. */
  method ProbeBesideOthers(dir: CacheDir, head: Head) returns (out: Option<Bytes>, ghost fault: bool)
    requires dir.Valid()
    modifies dir
    ensures dir.Valid() && old(dir.saves) <= dir.saves
    ensures out.Some? ==> exists s :: s in dir.saves && s.head == head && Delivers(s, out.value)
  {
    fault := false;
    if head.commitId == "" || head.generation == 0 {
      return None, false;
    }
    var m := ReadMetadata(dir.metadata);
    ghost var seen := dir.metadata;
    ghost var before := dir.saves;
    dir.Meanwhile();
    var image := dir.image;
    dir.Meanwhile();
    if m.None? || image.None? || m.value.head != head || |image.value| != m.value.size {
      return None, false;
    }
    out, fault := dir.CopyVerified(image.value, m.value.size, m.value.digest);
    if out.Some? {
      ghost var s :| s in before && seen.value.metadata == Metadata(s.head, s.size, s.digest);
      assert s in dir.saves && Delivers(s, out.value);
    }
  }

  lemma GrowKnown(saves: set<Save>, more: set<Save>)
    requires saves <= more
    ensures forall f :: WrittenBy(f, saves) ==> WrittenBy(f, more)
  {
  }

  /** A finished save is served back for its head, exactly when the head is complete and the image is not empty. */
  method SaveThenProbe(dir: CacheDir, head: Head, source: Bytes)
      returns (saved: bool, out: Option<Bytes>, ghost fault: bool)
    requires dir.Valid()
    modifies dir
    ensures dir.Valid()
    ensures saved && out.Some? ==> out == Some(source)
    ensures !fault ==> (saved <==> head.generation > 0 && head.commitId != "")
    ensures saved && !fault ==> (out.Some? <==> |head.commitSha| == 64 && source != [])
  {
    saved, fault := dir.SaveImage(head, source, None);
    ghost var probed;
    out, probed := dir.Probe(head);
    fault := fault || probed;
  }

  /**
   A save that attests the size and hash of other bytes than its source: if those bytes come to be in
   the image file, they are what is delivered for the save's head.
   */
  method ForeignAttestation(dir: CacheDir, head: Head, source: Bytes, other: Bytes)
      returns (saved: bool, out: Option<Bytes>, ghost fault: bool)
    requires dir.Valid() && |head.commitSha| == 64 && other != [] && other != source
    modifies dir
    ensures dir.Valid()
    ensures saved && !fault ==> out == Some(other)
  {
    saved, fault := dir.SaveImage(head, source, Some((|other|, Sha256(other))));
    dir.Corrupt(Some(other));
    out, fault := dir.Probe(head);
  }
}

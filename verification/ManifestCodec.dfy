/** A commit manifest of format version 4 as text: the writer, the reader, and what survives the round trip. */
module ManifestCodec {
  import opened Prelude
  import opened TextScan
  import opened NumberText
  import opened ManifestText

  const FORMAT: nat := 4
  const ID_MAX: nat := 63
  const CHECKSUM_SIZE: nat := 16
  const INT_MAX: nat := 0x7fff_ffff

  /** `checksum` is empty for a chain without checksums; parent fields are empty for the first commit. */
  datatype Manifest = Manifest(
    databaseId: string, generation: nat, commitId: string, parentGeneration: nat, parentCommitId: string,
    parentSha: string, pageSize: nat, databaseSizePages: nat, segments: seq<Segment>, checksum: string)

  // ---- validity ----

  predicate ParentValid(m: Manifest) {
    if m.parentGeneration == 0 then m.generation == 1 && m.parentCommitId == "" && m.parentSha == ""
    else m.parentGeneration + 1 == m.generation && m.parentCommitId != "" && |m.parentSha| == SHA_SIZE
  }

  /** What the writer checks. */
  predicate Valid(m: Manifest) {
    && m.generation > 0 && m.databaseId != "" && m.commitId != "" && m.pageSize > 0 && ParentValid(m)
    && 0 < |m.segments| <= MAX_SEGMENTS
    && forall i :: 0 <= i < |m.segments| ==> SegmentValid(m.segments[i], m.databaseSizePages)
  }

  predicate IsHex(c: char) {
    '0' <= c <= '9' || 'a' <= c <= 'f' || 'A' <= c <= 'F'
  }

  predicate ChecksumOk(s: string) {
    s == "" || (|s| == CHECKSUM_SIZE && forall i :: 0 <= i < |s| ==> IsHex(s[i]))
  }

  predicate IdOk(s: string) {
    |s| <= ID_MAX && QuoteFree(s)
  }

  /**
   What the fields of the record can hold, text without quotes, lists within the reader's cap, a well-formed
   checksum.
   */
  predicate Fits(m: Manifest) {
    && IdOk(m.databaseId) && IdOk(m.commitId) && IdOk(m.parentCommitId) && |m.parentSha| <= SHA_SIZE &&
      QuoteFree(m.parentSha)
    && m.generation < ULL && m.parentGeneration < ULL && m.pageSize < UINT32 && m.databaseSizePages < ULL
    && ChecksumOk(m.checksum)
    && forall i :: 0 <= i < |m.segments| ==> SegmentFits(m.segments[i])
  }

  // ---- the text ----

  function Header(m: Manifest): seq<Field> {
    [Raw("otsardb_format", Decimal(FORMAT)), Text("database_id", m.databaseId),
      Raw("generation", Decimal(m.generation)),
     Text("commit_id", m.commitId), Raw("parent_generation", Decimal(m.parentGeneration)),
     Text("parent_commit_id", m.parentCommitId), Text("parent_manifest_sha256", m.parentSha),
     Raw("page_size", Decimal(m.pageSize)), Raw("database_size_pages", Decimal(m.databaseSizePages))]
  }

  function ChecksumText(m: Manifest): string {
    if m.checksum == "" then "" else "," + FieldText(Text("post_apply_checksum", m.checksum))
  }

  /** A manifest's text; `extra` is what follows the last field. */
  function Document(m: Manifest, extra: string): string
    requires m.segments != []
  {
    "{" + Fields(Header(m), "\"segments\":[" + SegmentsText(m.segments, ChecksumText(m) + extra))
  }

  // ---- reading ----

  function GetNumber(s: string, name: string): Option<nat> {
    var at := After(s, Quoted(name, ":"));
    if at.None? then None
    else
      var r := ReadNumber(at.value);
      if r.None? then None else Some(r.value.0)
  }

  /** A string of at most `max` characters; one that may be empty may also be missing. */
  function GetString(s: string, name: string, max: nat, allowEmpty: bool): Option<string> {
    var at := After(s, Quoted(name, ":\""));
    if at.None? then if allowEmpty then Some("") else None
    else
      var r := UpToQuote(at.value);
      if r.None? || (!allowEmpty && r.value.0 == "") || |r.value.0| > max then None else Some(r.value.0)
  }

  function GetSegments(s: string, databaseSizePages: nat): Option<seq<Segment>> {
    var at := After(s, Quoted("segments", ":["));
    if at.None? then None else ReadSegments(at.value, databaseSizePages)
  }

  /** Numbers, then strings, then the segments; the whole is checked last. Only the low 32 bits of the format count. */
  function Decode(s: string): Option<Manifest> {
    var format, generation := GetNumber(s, "otsardb_format"), GetNumber(s, "generation");
    var parentGeneration, pageSize := GetNumber(s, "parent_generation"), GetNumber(s, "page_size");
    var pages := GetNumber(s, "database_size_pages");
    if format.None? || generation.None? || parentGeneration.None? || pageSize.None? || pages.None? then None
    else
      var databaseId := GetString(s, "database_id", ID_MAX, false);
      var commitId := GetString(s, "commit_id", ID_MAX, false);
      var parentCommitId := GetString(s, "parent_commit_id", ID_MAX, true);
      var parentSha := GetString(s, "parent_manifest_sha256", SHA_SIZE, true);
      var segments := GetSegments(s, pages.value);
      var checksum := GetString(s, "post_apply_checksum", CHECKSUM_SIZE, true);
      if databaseId.None? || commitId.None? || parentCommitId.None? || parentSha.None? then None
      else if segments.None? || checksum.None? then None
      else
        Checked(format.value, Manifest(databaseId.value, generation.value, commitId.value, parentGeneration.value,
                                       parentCommitId.value, parentSha.value, pageSize.value, pages.value,
                                       segments.value, checksum.value))
  }

  function Checked(format: nat, m: Manifest): Option<Manifest> {
    if format % UINT32 != FORMAT || m.pageSize == 0 || m.pageSize >= UINT32 || m.generation == 0 then None
    else if m.segments == [] || |m.segments| > MAX_SEGMENTS || !ChecksumOk(m.checksum) || !ParentValid(m) then None
    else Some(m)
  }

  // ---- the header ----

  /** Length and first letter tell the names apart. */
  predicate Apart(a: string, b: string) {
    a != "" && b != "" && (|a| != |b| || a[0] != b[0])
  }

  lemma HeaderClean(m: Manifest, i: nat)
    requires Fits(m) && i < |Header(m)|
    ensures Clean(Header(m)[i])
  {
    DecimalQuoteFree(FORMAT);
    DecimalQuoteFree(m.generation);
    DecimalQuoteFree(m.parentGeneration);
    DecimalQuoteFree(m.pageSize);
    DecimalQuoteFree(m.databaseSizePages);
  }

  lemma HeaderApart(m: Manifest, i: nat, j: nat)
    requires i < j < |Header(m)|
    ensures Apart(Header(m)[i].name, Header(m)[j].name)
  {
  }

  lemma OthersApart(m: Manifest, i: nat, name: string)
    requires i < |Header(m)| && name in {"segments", "post_apply_checksum", "segment_enc"}
    ensures Apart(Header(m)[i].name, name)
  {
  }

  lemma HeaderWithout(m: Manifest, i: nat, name: string)
    requires Fits(m) && i <= |Header(m)|
    requires name in {"segments", "post_apply_checksum", "segment_enc"} ||
      (i < |Header(m)| && name == Header(m)[i].name)
    ensures Without(Header(m)[..i], name)
  {
    var fs := Header(m);
    forall j | 0 <= j < i ensures Clean(fs[j]) && fs[j].name != name {
      HeaderClean(m, j);
      if name in {"segments", "post_apply_checksum", "segment_enc"} {
        OthersApart(m, j, name);
      } else {
        HeaderApart(m, j, i);
      }
    }
  }

  // ---- single fields are read back ----

  lemma FieldNumber(fs: seq<Field>, i: nat, rest: string, v: nat)
    requires i < |fs| && Clean(fs[i]) && Without(fs[..i], fs[i].name) && fs[i].Raw? && fs[i].value == Decimal(v) &&
      v < ULL
    ensures GetNumber("{" + Fields(fs, rest), fs[i].name) == Some(v)
  {
    SkipPlain("{", Fields(fs, rest), fs[i].name, ":");
    FindField(fs, i, rest);
    NumberRoundTrip(v, "," + Fields(fs[i + 1..], rest));
  }

  lemma FieldString(fs: seq<Field>, i: nat, rest: string, max: nat, allowEmpty: bool)
    requires i < |fs| && Clean(fs[i]) && Without(fs[..i], fs[i].name) && fs[i].Text? && |fs[i].value| <= max
    requires fs[i].value == "" ==> allowEmpty
    ensures GetString("{" + Fields(fs, rest), fs[i].name, max, allowEmpty) == Some(fs[i].value)
  {
    SkipPlain("{", Fields(fs, rest), fs[i].name, ":\"");
    FindField(fs, i, rest);
    UpToQuoteBack(fs[i].value, "," + Fields(fs[i + 1..], rest));
  }

  lemma HeaderNumber(m: Manifest, i: nat, rest: string, v: nat)
    requires Fits(m) && i < |Header(m)| && Header(m)[i].Raw? && Header(m)[i].value == Decimal(v) && v < ULL
    ensures GetNumber("{" + Fields(Header(m), rest), Header(m)[i].name) == Some(v)
  {
    HeaderClean(m, i);
    HeaderWithout(m, i, Header(m)[i].name);
    FieldNumber(Header(m), i, rest, v);
  }

  lemma HeaderString(m: Manifest, i: nat, rest: string, max: nat, allowEmpty: bool)
    requires Fits(m) && i < |Header(m)| && Header(m)[i].Text? && |Header(m)[i].value| <= max
    requires Header(m)[i].value == "" ==> allowEmpty
    ensures GetString("{" + Fields(Header(m), rest), Header(m)[i].name, max, allowEmpty) == Some(Header(m)[i].value)
  {
    HeaderClean(m, i);
    HeaderWithout(m, i, Header(m)[i].name);
    FieldString(Header(m), i, rest, max, allowEmpty);
  }

  /** What the search finds behind the header. */
  lemma SkipHeader(m: Manifest, rest: string, name: string, tail: string)
    requires Fits(m) && name in {"segments", "post_apply_checksum", "segment_enc"} && IsTail(tail)
    ensures After("{" + Fields(Header(m), rest), Quoted(name, tail)) == After(rest, Quoted(name, tail))
  {
    var fs := Header(m);
    SkipPlain("{", Fields(fs, rest), name, tail);
    HeaderWithout(m, |fs|, name);
    assert fs[..|fs|] == fs;
    SkipFields(fs, rest, name, tail);
  }

  lemma ArrayFound(text: string)
    ensures After("\"segments\":[" + text, Quoted("segments", ":[")) == Some(text)
  {
    assert "\"segments\":[" == "\"" + "segments" + "\"" + ":[";
    FoundQuote(text, "segments", ":[");
  }

  lemma SkipMarker(text: string, name: string, tail: string)
    requires IsName(name) && name != "segments" && IsTail(tail)
    ensures After("\"segments\":[" + text, Quoted(name, tail)) == After(text, Quoted(name, tail))
  {
    var f := Raw("segments", "[");
    assert FieldText(f) == "\"segments\":[";
    SkipRaw(f, text, name, tail);
  }

  lemma SegmentsIn(s: string, text: string, gs: seq<Segment>, databaseSizePages: nat)
    requires After(s, Quoted("segments", ":[")) == Some(text) && ReadSegments(text, databaseSizePages) == Some(gs)
    ensures GetSegments(s, databaseSizePages) == Some(gs)
  {
  }

  lemma SegmentsRead(m: Manifest, extra: string)
    requires Fits(m) && Valid(m)
    ensures GetSegments(Document(m, extra), m.databaseSizePages) == Some(m.segments)
  {
    var ending := ChecksumText(m) + extra;
    var text := SegmentsText(m.segments, ending);
    assert After(Document(m, extra), Quoted("segments", ":[")) == Some(text) by {
      SkipHeader(m, "\"segments\":[" + text, "segments", ":[");
      ArrayFound(text);
    }
    assert ReadSegments(text, m.databaseSizePages) == Some(m.segments) by {
      SegmentsBack(m.segments, m.databaseSizePages, ending);
    }
    SegmentsIn(Document(m, extra), text, m.segments, m.databaseSizePages);
  }

  lemma OuterNames(name: string)
    requires name in {"post_apply_checksum", "segment_enc"}
    ensures Outer(name) && name != "segments"
  {
    assert Apart(name, "key") && Apart(name, "sha256") && Apart(name, "size") && Apart(name, "pages");
    assert Apart(name, "frame_offsets") && Apart(name, "segments");
  }

  /** Names other than a segment's own, the array's and the header's are searched for behind the array. */
  lemma SkipArray(m: Manifest, extra: string, name: string, tail: string)
    requires Fits(m) && m.segments != [] && name in {"post_apply_checksum", "segment_enc"} && IsTail(tail)
    ensures After(Document(m, extra), Quoted(name, tail)) == After(ChecksumText(m) + extra, Quoted(name, tail))
  {
    var ending := ChecksumText(m) + extra;
    var text := SegmentsText(m.segments, ending);
    OuterNames(name);
    SkipHeader(m, "\"segments\":[" + text, name, tail);
    SkipMarker(text, name, tail);
    SkipSegments(m.segments, ending, name, tail);
  }

  lemma ChecksumFound(value: string, extra: string)
    requires QuoteFree(value) && |value| <= CHECKSUM_SIZE
    ensures After("," + FieldText(Text("post_apply_checksum", value)) + extra, Quoted("post_apply_checksum", ":\"")) ==
      Some(value + "\"" + extra)
  {
    var name := "post_apply_checksum";
    var text := FieldText(Text(name, value));
    Regroup(",", text, extra);
    SkipPlain(",", text + extra, name, ":\"");
    FoundText(name, value, extra);
  }

  lemma ChecksumRead(m: Manifest, extra: string)
    requires Fits(m) && m.segments != []
    requires m.checksum == "" ==> After(extra, Quoted("post_apply_checksum", ":\"")) == None
    ensures GetString(Document(m, extra), "post_apply_checksum", CHECKSUM_SIZE, true) == Some(m.checksum)
  {
    SkipArray(m, extra, "post_apply_checksum", ":\"");
    if m.checksum == "" {
      assert ChecksumText(m) + extra == extra;
    } else {
      ChecksumFound(m.checksum, extra);
      UpToQuoteBack(m.checksum, extra);
    }
  }

  // ---- the whole ----

  ghost predicate NumbersRead(s: string, m: Manifest) {
    && GetNumber(s, "otsardb_format") == Some(FORMAT) && GetNumber(s, "generation") == Some(m.generation)
    && GetNumber(s, "parent_generation") == Some(m.parentGeneration) && GetNumber(s, "page_size") == Some(m.pageSize)
    && GetNumber(s, "database_size_pages") == Some(m.databaseSizePages)
  }

  ghost predicate StringsRead(s: string, m: Manifest) {
    && GetString(s, "database_id", ID_MAX, false) == Some(m.databaseId)
    && GetString(s, "commit_id", ID_MAX, false) == Some(m.commitId)
    && GetString(s, "parent_commit_id", ID_MAX, true) == Some(m.parentCommitId)
    && GetString(s, "parent_manifest_sha256", SHA_SIZE, true) == Some(m.parentSha)
  }

  lemma HeaderNumbers(m: Manifest, rest: string)
    requires Fits(m)
    ensures NumbersRead("{" + Fields(Header(m), rest), m)
  {
    HeaderNumber(m, 0, rest, FORMAT);
    HeaderNumber(m, 2, rest, m.generation);
    HeaderNumber(m, 4, rest, m.parentGeneration);
    HeaderNumber(m, 7, rest, m.pageSize);
    HeaderNumber(m, 8, rest, m.databaseSizePages);
  }

  lemma HeaderStrings(m: Manifest, rest: string)
    requires Fits(m) && m.databaseId != "" && m.commitId != ""
    ensures StringsRead("{" + Fields(Header(m), rest), m)
  {
    HeaderString(m, 1, rest, ID_MAX, false);
    HeaderString(m, 3, rest, ID_MAX, false);
    HeaderString(m, 5, rest, ID_MAX, true);
    HeaderString(m, 6, rest, SHA_SIZE, true);
  }

  lemma Assemble(s: string, m: Manifest)
    requires NumbersRead(s, m) && StringsRead(s, m) && GetSegments(s, m.databaseSizePages) == Some(m.segments)
    requires GetString(s, "post_apply_checksum", CHECKSUM_SIZE, true) == Some(m.checksum)
    ensures Decode(s) == Checked(FORMAT, m)
  {
  }

  /**
   A manifest is read back from its text, whatever follows the known fields, as long as a
   manifest without a checksum is not followed by one.
   */
  lemma RoundTrip(m: Manifest, extra: string)
    requires Valid(m) && Fits(m)
    requires m.checksum == "" ==> After(extra, Quoted("post_apply_checksum", ":\"")) == None
    ensures Decode(Document(m, extra)) == Some(m)
  {
    var s := Document(m, extra);
    var rest := "\"segments\":[" + SegmentsText(m.segments, ChecksumText(m) + extra);
    HeaderNumbers(m, rest);
    HeaderStrings(m, rest);
    SegmentsRead(m, extra);
    ChecksumRead(m, extra);
    Assemble(s, m);
  }

  lemma StringGot(s: string, name: string, max: nat, allowEmpty: bool)
    requires GetString(s, name, max, allowEmpty).Some?
    ensures var v := GetString(s, name, max, allowEmpty).value; |v| <= max && QuoteFree(v) && (v == "" ==> allowEmpty)
  {
    if After(s, Quoted(name, ":\"")).Some? {
      UpToQuoteFree(After(s, Quoted(name, ":\"")).value);
    }
  }

  lemma SegmentsGot(s: string, databaseSizePages: nat)
    requires GetSegments(s, databaseSizePages).Some?
    ensures SegmentsOk(GetSegments(s, databaseSizePages).value, databaseSizePages)
  {
    AcceptedSegments(After(s, Quoted("segments", ":[")).value, databaseSizePages);
  }

  /** Whatever the text, what the reader accepts is a manifest that the writer accepts. */
  lemma DecodedIsValid(s: string)
    requires Decode(s).Some?
    ensures Valid(Decode(s).value) && Fits(Decode(s).value)
  {
    StringGot(s, "database_id", ID_MAX, false);
    StringGot(s, "commit_id", ID_MAX, false);
    StringGot(s, "parent_commit_id", ID_MAX, true);
    StringGot(s, "parent_manifest_sha256", SHA_SIZE, true);
    SegmentsGot(s, GetNumber(s, "database_size_pages").value);
  }

  lemma NothingFollows(name: string, tail: string)
    ensures After("}\n", Quoted(name, tail)) == None
  {
    SkipPlain("}\n", "", name, tail);
    assert "}\n" + "" == "}\n";
  }

  /** A manifest that the writer accepts is read back exactly if it fits the reader's limits and holds no quotes. */
  lemma RoundTripExact(m: Manifest)
    requires Valid(m)
    ensures Decode(Document(m, "}\n")) == Some(m) <==> Fits(m)
  {
    if Fits(m) {
      NothingFollows("post_apply_checksum", ":\"");
      RoundTrip(m, "}\n");
    }
    if Decode(Document(m, "}\n")) == Some(m) {
      DecodedIsValid(Document(m, "}\n"));
    }
  }

  /** A manifest whose database id holds a quote. */
  function Sample(): Manifest {
    var sha := "0123456789abcdef0123456789abcdef0123456789abcdef0123456789abcdef";
    Manifest("a\"b", 1, "c", 0, "", "", 4096, 1, [Segment("k", sha, 1, [1], None)], "")
  }

  /** Values are not escaped: the writer accepts a quote, and the text means another manifest or none. */
  lemma QuoteIsLost()
    ensures Valid(Sample()) && Decode(Document(Sample(), "}\n")) != Some(Sample())
  {
    assert Sample().databaseId[1] == '"';
    RoundTripExact(Sample());
  }

  /** Reading, writing and reading again changes nothing. */
  lemma ReadIsStable(s: string)
    requires Decode(s).Some?
    ensures Decode(Document(Decode(s).value, "}\n")) == Decode(s)
  {
    DecodedIsValid(s);
    RoundTripExact(Decode(s).value);
  }

  /** Two manifests that both are read back have different texts. */
  lemma DocumentInjective(a: Manifest, b: Manifest)
    requires Valid(a) && Valid(b) && Fits(a) && Fits(b) && Document(a, "}\n") == Document(b, "}\n")
    ensures a == b
  {
    RoundTripExact(a);
    RoundTripExact(b);
  }
}

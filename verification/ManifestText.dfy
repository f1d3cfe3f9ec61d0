/** The segments array of a version 4 manifest: how it is printed, and the strict reader that goes through it. */
module ManifestText {
  import opened Prelude
  import opened TextScan
  import opened NumberText

  const MAX_SEGMENTS: nat := 128
  const KEY_MAX: nat := 128
  const SHA_SIZE: nat := 64
  const UINT32: nat := 0x1_0000_0000

  /** `offsets` are the byte positions of the pages' blocks, if recorded. */
  datatype Segment = Segment(key: string, sha256: string, size: nat, pages: seq<nat>, offsets: Option<seq<nat>>)

  // ---- validity ----

  /** Page numbers are positive, increasing and within the database. */
  predicate PagesValid(pages: seq<nat>, databaseSizePages: nat) {
    && (forall i :: 0 <= i < |pages| ==> 0 < pages[i] <= databaseSizePages)
    && (forall i :: 0 < i < |pages| ==> pages[i - 1] < pages[i])
  }

  predicate OffsetsValid(offsets: seq<nat>, size: nat) {
    && (forall i :: 0 <= i < |offsets| ==> offsets[i] < size)
    && (forall i :: 0 < i < |offsets| ==> offsets[i - 1] < offsets[i])
  }

  /** What the writer checks of a segment. */
  predicate SegmentValid(g: Segment, databaseSizePages: nat) {
    && g.key != "" && |g.sha256| == SHA_SIZE && PagesValid(g.pages, databaseSizePages)
    && (g.offsets.Some? ==> g.pages != [] && |g.offsets.value| == |g.pages| && OffsetsValid(g.offsets.value, g.size))
  }

  /** What the fields of the record can hold, and text without quotes in it. */
  predicate SegmentFits(g: Segment) {
    && |g.key| <= KEY_MAX && QuoteFree(g.key) && QuoteFree(g.sha256) && g.size < ULL
    && |g.pages| <= MAX_ENTRIES && forall i :: 0 <= i < |g.pages| ==> g.pages[i] < UINT32
  }

  // ---- printing ----

  function OffsetsText(offsets: Option<seq<nat>>): string {
    if offsets.None? then "}" else "," + FieldText(Raw("frame_offsets", "[" + ListBody(offsets.value))) + "}"
  }

  function PagesText(g: Segment): string {
    "," + FieldText(Raw("pages", "[" + ListBody(g.pages))) + OffsetsText(g.offsets)
  }

  function SizeText(g: Segment): string {
    "," + FieldText(Raw("size", Decimal(g.size))) + PagesText(g)
  }

  /** A segment from behind its opening brace. */
  function SegmentText(g: Segment): string {
    FieldText(Text("key", g.key)) + "," + FieldText(Text("sha256", g.sha256)) + SizeText(g)
  }

  /** The segments from behind the opening bracket, the closing bracket and what follows. */
  function SegmentsText(gs: seq<Segment>, rest: string): string
    requires gs != []
  {
    "{" + (SegmentText(gs[0]) + if |gs| == 1 then "]" + rest else "," + SegmentsText(gs[1..], rest))
  }

  // ---- reading ----

  function Expect(s: string, lit: string): (r: Option<string>)
    ensures r.Some? ==> |r.value| == |s| - |lit|
  {
    if StartsWith(s, lit) then Some(s[|lit|..]) else None
  }

  lemma ExpectBack(lit: string, rest: string)
    ensures Expect(lit + rest, lit) == Some(rest)
  {
    assert (lit + rest)[..|lit|] == lit && (lit + rest)[|lit|..] == rest;
  }

  /** Text up to the next quote, and what follows the quote. */
  function UpToQuote(s: string): (r: Option<(string, string)>)
    ensures r.Some? ==> |r.value.1| < |s|
  {
    if s == "" then None
    else if s[0] == '"' then Some(("", s[1..]))
    else
      var more := UpToQuote(s[1..]);
      if more.None? then None else Some(([s[0]] + more.value.0, more.value.1))
  }

  lemma {:induction false} UpToQuoteBack(v: string, rest: string)
    requires QuoteFree(v)
    ensures UpToQuote(v + "\"" + rest) == Some((v, rest))
    decreases |v|
  {
    var s := v + "\"" + rest;
    if v == "" {
      assert s == "\"" + rest;
      assert s[1..] == rest;
    } else {
      assert v[0] in v && s[0] == v[0];
      assert s[1..] == v[1..] + "\"" + rest;
      UpToQuoteBack(v[1..], rest);
      assert v == [v[0]] + v[1..];
    }
  }

  /** A marker that ends in a quote, and the string behind it. */
  function ReadString(s: string, marker: string): (r: Option<(string, string)>)
    ensures r.Some? ==> |r.value.1| < |s|
  {
    var s1 := Expect(s, marker);
    if s1.None? then None else UpToQuote(s1.value)
  }

  lemma ReadStringBack(marker: string, v: string, rest: string)
    requires QuoteFree(v)
    ensures ReadString(marker + (v + "\"" + rest), marker) == Some((v, rest))
  {
    ExpectBack(marker, v + "\"" + rest);
    UpToQuoteBack(v, rest);
  }

  function ReadSize(s: string): (r: Option<(nat, string)>)
    ensures r.Some? ==> |r.value.1| < |s|
  {
    var s1 := Expect(s, ",\"size\":");
    if s1.None? then None else ReadNumber(s1.value)
  }

  function ReadListField(s: string, marker: string): (r: Option<(seq<nat>, string)>)
    ensures r.Some? ==> |r.value.1| < |s|
  {
    var s1 := Expect(s, marker);
    if s1.None? then None else ReadList(s1.value)
  }

  function ReadPages(s: string): (r: Option<(seq<nat>, string)>)
    ensures r.Some? ==> |r.value.1| < |s|
  {
    var r := ReadListField(s, ",\"pages\":[");
    if r.None? || !(forall i :: 0 <= i < |r.value.0| ==> r.value.0[i] < UINT32) then None else r
  }

  /** Offsets may be missing; an empty list counts as missing. */
  function ReadOffsets(s: string, count: nat, size: nat): (r: Option<(Option<seq<nat>>, string)>)
    ensures r.Some? ==> |r.value.1| <= |s|
  {
    if !StartsWith(s, ",\"frame_offsets\":[") then Some((None, s))
    else
      var r := ReadListField(s, ",\"frame_offsets\":[");
      if r.None? || |r.value.0| != count || !OffsetsValid(r.value.0, size) then None
      else Some((if r.value.0 == [] then None else Some(r.value.0), r.value.1))
  }

  /** Page set, offsets and the closing brace. */
  function ReadTail(s: string, key: string, sha256: string, size: nat, databaseSizePages: nat)
      : (r: Option<(Segment, string)>)
    ensures r.Some? ==> |r.value.1| < |s|
  {
    var pages := ReadPages(s);
    if pages.None? then None
    else
      var offsets := ReadOffsets(pages.value.1, |pages.value.0|, size);
      if offsets.None? || !PagesValid(pages.value.0, databaseSizePages) then None
      else
        var end := Expect(SkipBlanks(offsets.value.1), "}");
        if end.None? then None else Some((Segment(key, sha256, size, pages.value.0, offsets.value.0), end.value))
  }

  /** A segment from behind its opening brace. */
  function ReadSegment(s: string, databaseSizePages: nat): (r: Option<(Segment, string)>)
    ensures r.Some? ==> |r.value.1| < |s|
  {
    var key := ReadString(s, "\"key\":\"");
    if key.None? || key.value.0 == "" || |key.value.0| > KEY_MAX then None
    else
      var sha := ReadString(key.value.1, ",\"sha256\":\"");
      if sha.None? || |sha.value.0| != SHA_SIZE then None
      else
        var size := ReadSize(sha.value.1);
        if size.None? then None else ReadTail(size.value.1, key.value.0, sha.value.0, size.value.0, databaseSizePages)
  }

  // ---- reading back ----

  lemma SizeBack(size: nat, rest: string)
    requires size < ULL && NoDigit(rest)
    ensures ReadSize(",\"size\":" + (Decimal(size) + rest)) == Some((size, rest))
  {
    ExpectBack(",\"size\":", Decimal(size) + rest);
    NumberRoundTrip(size, rest);
  }

  lemma ListFieldBack(marker: string, vs: seq<nat>, rest: string)
    requires |vs| <= MAX_ENTRIES && forall i :: 0 <= i < |vs| ==> vs[i] < ULL
    ensures ReadListField(marker + (ListBody(vs) + rest), marker) == Some((vs, rest))
  {
    ExpectBack(marker, ListBody(vs) + rest);
    ListRoundTrip(vs, rest);
  }

  lemma PagesBack(pages: seq<nat>, rest: string)
    requires |pages| <= MAX_ENTRIES && forall i :: 0 <= i < |pages| ==> pages[i] < UINT32
    ensures ReadPages(",\"pages\":[" + (ListBody(pages) + rest)) == Some((pages, rest))
  {
    ListFieldBack(",\"pages\":[", pages, rest);
  }

  lemma NoOffsetsBack(count: nat, size: nat, rest: string)
    ensures ReadOffsets("}" + rest, count, size) == Some((None, "}" + rest))
  {
    HeadsDiffer("}" + rest, ",\"frame_offsets\":[");
  }

  lemma StartsLiteral(lit: string, rest: string)
    ensures StartsWith(lit + rest, lit)
  {
    assert (lit + rest)[..|lit|] == lit;
  }

  lemma OffsetsFound(s: string, vs: seq<nat>, size: nat, rest: string)
    requires vs != [] && OffsetsValid(vs, size) && StartsWith(s, ",\"frame_offsets\":[")
    requires ReadListField(s, ",\"frame_offsets\":[") == Some((vs, rest))
    ensures ReadOffsets(s, |vs|, size) == Some((Some(vs), rest))
  {
  }

  lemma OffsetsBack(vs: seq<nat>, size: nat, rest: string)
    requires 0 < |vs| <= MAX_ENTRIES && size < ULL && OffsetsValid(vs, size)
    ensures ReadOffsets(",\"frame_offsets\":[" + (ListBody(vs) + rest), |vs|, size) == Some((Some(vs), rest))
  {
    ListFieldBack(",\"frame_offsets\":[", vs, rest);
    StartsLiteral(",\"frame_offsets\":[", ListBody(vs) + rest);
    OffsetsFound(",\"frame_offsets\":[" + (ListBody(vs) + rest), vs, size, rest);
  }

  lemma OffsetsTextBack(g: Segment, rest: string)
    requires SegmentFits(g) &&
      (g.offsets.Some? ==> g.pages != [] && |g.offsets.value| == |g.pages| && OffsetsValid(g.offsets.value, g.size))
    ensures ReadOffsets(OffsetsText(g.offsets) + rest, |g.pages|, g.size) == Some((g.offsets, "}" + rest))
  {
    if g.offsets.None? {
      NoOffsetsBack(|g.pages|, g.size, rest);
    } else {
      var body := ListBody(g.offsets.value);
      OffsetsShape(body, rest);
      OffsetsBack(g.offsets.value, g.size, "}" + rest);
    }
  }

  lemma MarkedShape(marker: string, body: string, rest: string)
    ensures marker + body + "}" + rest == marker + (body + ("}" + rest))
  {
  }

  lemma OffsetsShape(body: string, rest: string)
    ensures "," + FieldText(Raw("frame_offsets", "[" + body)) + "}" + rest ==
      ",\"frame_offsets\":[" + (body + ("}" + rest))
  {
    assert "," + FieldText(Raw("frame_offsets", "[" + body)) == ",\"frame_offsets\":[" + body;
    MarkedShape(",\"frame_offsets\":[", body, rest);
  }

  lemma PagesShape(body: string, more: string, rest: string)
    ensures "," + FieldText(Raw("pages", "[" + body)) + more + rest == ",\"pages\":[" + (body + (more + rest))
  {
    assert FieldText(Raw("pages", "[" + body)) == "\"pages\":[" + body;
  }

  lemma ClosingBack(rest: string)
    ensures Expect(SkipBlanks("}" + rest), "}") == Some(rest)
  {
    ExpectBack("}", rest);
  }

  lemma TailBack(g: Segment, databaseSizePages: nat, rest: string)
    requires SegmentFits(g) && SegmentValid(g, databaseSizePages)
    ensures ReadTail(PagesText(g) + rest, g.key, g.sha256, g.size, databaseSizePages) == Some((g, rest))
  {
    var more := OffsetsText(g.offsets);
    PagesShape(ListBody(g.pages), more, rest);
    PagesBack(g.pages, more + rest);
    OffsetsTextBack(g, rest);
    ClosingBack(rest);
  }

  lemma SizeShape(digits: string, more: string, rest: string)
    ensures "," + FieldText(Raw("size", digits)) + more + rest == ",\"size\":" + (digits + (more + rest))
  {
    assert FieldText(Raw("size", digits)) == "\"size\":" + digits;
  }

  lemma TwoShape(a: string, key: string, b: string, sha: string, more: string)
    ensures (a + key + "\"") + "," + (b + sha + "\"") + more == a + (key + "\"" + (("," + b) + (sha + "\"" + more)))
  {
  }

  lemma KeyShape(key: string, sha: string, more: string, rest: string)
    ensures FieldText(Text("key", key)) + "," + FieldText(Text("sha256", sha)) + more + rest ==
      "\"key\":\"" + (key + "\"" + (",\"sha256\":\"" + (sha + "\"" + (more + rest))))
  {
    var a, b := "\"key\":\"", "\"sha256\":\"";
    TwoShape(a, key, b, sha, more + rest);
    Regroup(FieldText(Text("key", key)) + "," + FieldText(Text("sha256", sha)), more, rest);
    assert "\"" + "key" + "\":\"" == a && "\"" + "sha256" + "\":\"" == b && "," + b == ",\"sha256\":\"";
  }

  /** A printed segment is read back, and reading stops behind its closing brace. */
  lemma SegmentBack(g: Segment, databaseSizePages: nat, rest: string)
    requires SegmentFits(g) && SegmentValid(g, databaseSizePages)
    ensures ReadSegment(SegmentText(g) + rest, databaseSizePages) == Some((g, rest))
  {
    var digits, pages := Decimal(g.size), PagesText(g);
    var size := SizeText(g);
    KeyShape(g.key, g.sha256, size, rest);
    ReadStringBack("\"key\":\"", g.key, ",\"sha256\":\"" + (g.sha256 + "\"" + (size + rest)));
    ReadStringBack(",\"sha256\":\"", g.sha256, size + rest);
    SizeShape(digits, pages, rest);
    SizeBack(g.size, pages + rest);
    TailBack(g, databaseSizePages, rest);
  }

  // ---- the array ----

  /** One segment in braces; blanks around it are skipped. */
  function ReadOne(s: string, databaseSizePages: nat): (r: Option<(Segment, string)>)
    ensures r.Some? ==> |r.value.1| < |s|
  {
    var s1 := Expect(SkipBlanks(s), "{");
    if s1.None? then None
    else
      var g := ReadSegment(s1.value, databaseSizePages);
      if g.None? then None else Some((g.value.0, SkipBlanks(g.value.1)))
  }

  /** Segments from behind the opening bracket or a comma, and whether a comma comes before the closing bracket. */
  function ReadArray(s: string, databaseSizePages: nat): (r: Option<(seq<Segment>, bool)>)
    ensures r.Some? ==> r.value.0 != []
    decreases |s|
  {
    var one := ReadOne(s, databaseSizePages);
    if one.None? then None
    else
      var g, next := one.value.0, one.value.1;
      if StartsWith(next, "]") then Some(([g], false))
      else if !StartsWith(next, ",") then None
      else if StartsWith(next[1..], "]") then Some(([g], true))
      else
        var more := ReadArray(next[1..], databaseSizePages);
        if more.None? then None else Some(([g] + more.value.0, more.value.1))
  }

  /** At most `max` elements; only behind the last one of those a comma is overlooked. */
  function Accepted<T>(r: Option<(seq<T>, bool)>, max: nat): Option<seq<T>> {
    if r.Some? && (if r.value.1 then |r.value.0| == max else |r.value.0| <= max) then Some(r.value.0) else None
  }

  function ReadSegments(s: string, databaseSizePages: nat): Option<seq<Segment>> {
    Accepted(ReadArray(s, databaseSizePages), MAX_SEGMENTS)
  }

  // ---- the loop ----

  /** The final result from the segments read so far and the text ahead. */
  ghost function Outcome(p: string, databaseSizePages: nat, done: seq<Segment>): Option<seq<Segment>> {
    if |done| < MAX_SEGMENTS then Accepted(Behind(done, ReadArray(p, databaseSizePages)), MAX_SEGMENTS)
    else if StartsWith(p, "]") then Some(done) else None
  }

  lemma NoneAtBracket(p: string, databaseSizePages: nat)
    requires StartsWith(p, "]")
    ensures ReadArray(p, databaseSizePages) == None
  {
    assert p[..1][0] == ']';
    HeadsDiffer(p, "{");
  }

  /** One turn of the loop. */
  lemma Turn(p: string, databaseSizePages: nat, done: seq<Segment>)
    requires |done| < MAX_SEGMENTS
    ensures var one := ReadOne(p, databaseSizePages);
      Outcome(p, databaseSizePages, done) ==
        if one.None? then None
        else if StartsWith(one.value.1, "]") then Some(done + [one.value.0])
        else if !StartsWith(one.value.1, ",") then None
        else Outcome(one.value.1[1..], databaseSizePages, done + [one.value.0])
  {
    var one := ReadOne(p, databaseSizePages);
    if one.Some? && StartsWith(one.value.1, ",") && !StartsWith(one.value.1, "]") {
      var next := one.value.1[1..];
      if StartsWith(next, "]") {
        NoneAtBracket(next, databaseSizePages);
      } else {
        MoreBehind(done, one.value.0, ReadArray(next, databaseSizePages));
      }
    }
  }

  lemma Start(s: string, databaseSizePages: nat)
    ensures Outcome(s, databaseSizePages, []) == ReadSegments(s, databaseSizePages)
  {
    NoneBehind(ReadArray(s, databaseSizePages));
  }

  /** The reader's loop over the array. */
  method ParseSegments(s: string, databaseSizePages: nat) returns (r: Option<seq<Segment>>)
    ensures r == ReadSegments(s, databaseSizePages)
  {
    Start(s, databaseSizePages);
    ghost var all := Outcome(s, databaseSizePages, []);
    var p := s;
    var segments: seq<Segment> := [];
    while |segments| < MAX_SEGMENTS
      invariant |segments| <= MAX_SEGMENTS && Outcome(p, databaseSizePages, segments) == all
    {
      Turn(p, databaseSizePages, segments);
      var one := ReadOne(p, databaseSizePages);
      if one.None? {
        return None;
      }
      segments := segments + [one.value.0];
      p := one.value.1;
      if StartsWith(p, "]") {
        return Some(segments);
      }
      if !StartsWith(p, ",") {
        return None;
      }
      p := p[1..];
    }
    return if StartsWith(p, "]") then Some(segments) else None;
  }

  // ---- reading the array back ----

  ghost predicate SegmentsOk(gs: seq<Segment>, databaseSizePages: nat) {
    forall i :: 0 <= i < |gs| ==> SegmentFits(gs[i]) && SegmentValid(gs[i], databaseSizePages)
  }

  lemma OneBack(g: Segment, more: string, databaseSizePages: nat)
    requires SegmentFits(g) && SegmentValid(g, databaseSizePages) && more != "" && !IsBlank(more[0])
    ensures ReadOne("{" + (SegmentText(g) + more), databaseSizePages) == Some((g, more))
  {
    var x := SegmentText(g) + more;
    Unblanked("{" + x);
    ExpectBack("{", x);
    SegmentBack(g, databaseSizePages, more);
    Unblanked(more);
  }

  lemma Unblanked(s: string)
    requires s != "" && !IsBlank(s[0])
    ensures SkipBlanks(s) == s
  {
  }

  lemma LastSegment(s: string, g: Segment, rest: string, databaseSizePages: nat)
    requires ReadOne(s, databaseSizePages) == Some((g, "]" + rest))
    ensures ReadArray(s, databaseSizePages) == Some(([g], false))
  {
    StartsLiteral("]", rest);
  }

  lemma NextSegment(s: string, g: Segment, more: string, databaseSizePages: nat, gs: seq<Segment>)
    requires ReadOne(s, databaseSizePages) == Some((g, "," + more)) && more != "" && more[0] != ']'
    requires ReadArray(more, databaseSizePages) == Some((gs, false))
    ensures ReadArray(s, databaseSizePages) == Some(([g] + gs, false))
  {
    HeadsDiffer("," + more, "]");
    HeadsDiffer(more, "]");
    StartsLiteral(",", more);
    assert ("," + more)[1..] == more;
  }

  lemma Parts(gs: seq<Segment>)
    requires gs != []
    ensures gs == [gs[0]] + gs[1..] && (|gs| == 1 ==> gs == [gs[0]])
  {
  }

  lemma LastBack(g: Segment, databaseSizePages: nat, rest: string)
    requires SegmentFits(g) && SegmentValid(g, databaseSizePages)
    ensures ReadArray("{" + (SegmentText(g) + ("]" + rest)), databaseSizePages) == Some(([g], false))
  {
    OneBack(g, "]" + rest, databaseSizePages);
    LastSegment("{" + (SegmentText(g) + ("]" + rest)), g, rest, databaseSizePages);
  }

  lemma NextBack(g: Segment, more: string, databaseSizePages: nat, gs: seq<Segment>)
    requires SegmentFits(g) && SegmentValid(g, databaseSizePages) && more != "" && more[0] != ']'
    requires ReadArray(more, databaseSizePages) == Some((gs, false))
    ensures ReadArray("{" + (SegmentText(g) + ("," + more)), databaseSizePages) == Some(([g] + gs, false))
  {
    OneBack(g, "," + more, databaseSizePages);
    NextSegment("{" + (SegmentText(g) + ("," + more)), g, more, databaseSizePages, gs);
  }

  lemma {:induction false} ArrayBack(gs: seq<Segment>, databaseSizePages: nat, rest: string)
    requires gs != [] && SegmentsOk(gs, databaseSizePages)
    ensures ReadArray(SegmentsText(gs, rest), databaseSizePages) == Some((gs, false))
    decreases |gs|
  {
    Parts(gs);
    if |gs| == 1 {
      LastBack(gs[0], databaseSizePages, rest);
    } else {
      ArrayBack(gs[1..], databaseSizePages, rest);
      NextBack(gs[0], SegmentsText(gs[1..], rest), databaseSizePages, gs[1..]);
    }
  }

  /** A printed array is read back exactly if it has no more than 128 segments. */
  lemma SegmentsBack(gs: seq<Segment>, databaseSizePages: nat, rest: string)
    requires gs != [] && SegmentsOk(gs, databaseSizePages)
    ensures ReadSegments(SegmentsText(gs, rest), databaseSizePages) == if |gs| <= MAX_SEGMENTS then Some(gs) else None
  {
    ArrayBack(gs, databaseSizePages, rest);
  }

  // ---- searching past the array ----

  /** Not the name of a segment's field. */
  predicate Outer(name: string) {
    IsName(name) && name != "key" && name != "sha256" && name != "size" && name != "pages" && name != "frame_offsets"
  }

  lemma {:induction false} ListQuoteFree(vs: seq<nat>)
    ensures QuoteFree(ListBody(vs))
    decreases |vs|
  {
    if vs != [] {
      DecimalQuoteFree(vs[0]);
      if |vs| > 1 {
        ListQuoteFree(vs[1..]);
      }
    }
  }

  lemma DecimalQuoteFree(n: nat)
    ensures QuoteFree(Decimal(n))
  {
    DecimalDigits(n);
  }

  lemma SkipOffsets(offsets: Option<seq<nat>>, rest: string, name: string, tail: string)
    requires Outer(name) && IsTail(tail)
    ensures After(OffsetsText(offsets) + rest, Quoted(name, tail)) == After(rest, Quoted(name, tail))
  {
    if offsets.None? {
      SkipPlain("}", rest, name, tail);
    } else {
      ListQuoteFree(offsets.value);
      SkipBraced(Raw("frame_offsets", "[" + ListBody(offsets.value)), rest, name, tail);
    }
  }

  lemma SkipBraced(f: Field, rest: string, name: string, tail: string)
    requires f.Raw? && Clean(f) && IsName(name) && IsTail(tail) && f.name != name
    ensures After("," + FieldText(f) + "}" + rest, Quoted(name, tail)) == After(rest, Quoted(name, tail))
  {
    var t := FieldText(f);
    assert "," + t + "}" + rest == "," + (t + ("}" + rest));
    SkipPlain(",", t + ("}" + rest), name, tail);
    SkipRaw(f, "}" + rest, name, tail);
    SkipPlain("}", rest, name, tail);
  }

  lemma SkipNext(f: Field, more: string, rest: string, name: string, tail: string)
    requires f.Raw? && Clean(f) && IsName(name) && IsTail(tail) && f.name != name
    ensures After("," + FieldText(f) + more + rest, Quoted(name, tail)) == After(more + rest, Quoted(name, tail))
  {
    var t := FieldText(f);
    assert "," + t + more + rest == "," + (t + (more + rest));
    SkipPlain(",", t + (more + rest), name, tail);
    SkipRaw(f, more + rest, name, tail);
  }

  lemma SkipPages(g: Segment, rest: string, name: string, tail: string)
    requires Outer(name) && IsTail(tail)
    ensures After(PagesText(g) + rest, Quoted(name, tail)) == After(rest, Quoted(name, tail))
  {
    ListQuoteFree(g.pages);
    SkipNext(Raw("pages", "[" + ListBody(g.pages)), OffsetsText(g.offsets), rest, name, tail);
    SkipOffsets(g.offsets, rest, name, tail);
  }

  lemma SkipSize(g: Segment, rest: string, name: string, tail: string)
    requires Outer(name) && IsTail(tail)
    ensures After(SizeText(g) + rest, Quoted(name, tail)) == After(rest, Quoted(name, tail))
  {
    DecimalQuoteFree(g.size);
    SkipNext(Raw("size", Decimal(g.size)), PagesText(g), rest, name, tail);
    SkipPages(g, rest, name, tail);
  }

  lemma SkipKeys(k: Field, h: Field, more: string, name: string, tail: string)
    requires Clean(k) && Clean(h) && IsName(name) && IsTail(tail) && k.name != name && h.name != name && Closed(more)
    ensures After(FieldText(k) + "," + FieldText(h) + more, Quoted(name, tail)) == After(more, Quoted(name, tail))
  {
    var a, b := FieldText(k), FieldText(h);
    assert a + "," + b + more == a + ("," + (b + more));
    SkipField(k, "," + (b + more), name, tail);
    SkipPlain(",", b + more, name, tail);
    SkipField(h, more, name, tail);
  }

  lemma SkipSegment(g: Segment, rest: string, name: string, tail: string)
    requires SegmentFits(g) && Outer(name) && IsTail(tail)
    ensures After(SegmentText(g) + rest, Quoted(name, tail)) == After(rest, Quoted(name, tail))
  {
    var k, h, more := Text("key", g.key), Text("sha256", g.sha256), SizeText(g);
    assert SegmentText(g) + rest == FieldText(k) + "," + FieldText(h) + (more + rest);
    SkipKeys(k, h, more + rest, name, tail);
    SkipSize(g, rest, name, tail);
  }

  /** No name of the document is found inside the array. */
  lemma {:induction false} SkipSegments(gs: seq<Segment>, rest: string, name: string, tail: string)
    requires gs != [] && (forall i :: 0 <= i < |gs| ==> SegmentFits(gs[i])) && Outer(name) && IsTail(tail)
    ensures After(SegmentsText(gs, rest), Quoted(name, tail)) == After(rest, Quoted(name, tail))
    decreases |gs|
  {
    var more := if |gs| == 1 then "]" + rest else "," + SegmentsText(gs[1..], rest);
    SkipPlain("{", SegmentText(gs[0]) + more, name, tail);
    SkipSegment(gs[0], more, name, tail);
    if |gs| == 1 {
      SkipPlain("]", rest, name, tail);
    } else {
      SkipPlain(",", SegmentsText(gs[1..], rest), name, tail);
      SkipSegments(gs[1..], rest, name, tail);
    }
  }

  // ---- what can be read at all ----

  lemma {:induction false} UpToQuoteFree(s: string)
    requires UpToQuote(s).Some?
    ensures QuoteFree(UpToQuote(s).value.0)
    decreases |s|
  {
    if s[0] != '"' {
      UpToQuoteFree(s[1..]);
    }
  }

  lemma StringRead(s: string, marker: string)
    requires ReadString(s, marker).Some?
    ensures QuoteFree(ReadString(s, marker).value.0)
  {
    UpToQuoteFree(Expect(s, marker).value);
  }

  lemma PagesRead(s: string)
    requires ReadPages(s).Some?
    ensures |ReadPages(s).value.0| <= MAX_ENTRIES
    ensures forall i :: 0 <= i < |ReadPages(s).value.0| ==> ReadPages(s).value.0[i] < UINT32
  {
  }

  lemma TailRead(s: string, key: string, sha256: string, size: nat, databaseSizePages: nat)
    requires ReadTail(s, key, sha256, size, databaseSizePages).Some?
    requires key != "" && |key| <= KEY_MAX && QuoteFree(key) && |sha256| == SHA_SIZE && QuoteFree(sha256) && size < ULL
    ensures var g := ReadTail(s, key, sha256, size, databaseSizePages).value.0;
      SegmentFits(g) && SegmentValid(g, databaseSizePages)
  {
    PagesRead(s);
  }

  /** The reader accepts only segments that the writer could have written. */
  lemma SegmentRead(s: string, databaseSizePages: nat)
    requires ReadSegment(s, databaseSizePages).Some?
    ensures var g := ReadSegment(s, databaseSizePages).value.0; SegmentFits(g) && SegmentValid(g, databaseSizePages)
  {
    var key := ReadString(s, "\"key\":\"").value;
    StringRead(s, "\"key\":\"");
    var sha := ReadString(key.1, ",\"sha256\":\"").value;
    StringRead(key.1, ",\"sha256\":\"");
    var size := ReadSize(sha.1).value;
    TailRead(size.1, key.0, sha.0, size.0, databaseSizePages);
  }

  lemma OneRead(s: string, databaseSizePages: nat)
    requires ReadOne(s, databaseSizePages).Some?
    ensures var g := ReadOne(s, databaseSizePages).value.0; SegmentFits(g) && SegmentValid(g, databaseSizePages)
  {
    SegmentRead(Expect(SkipBlanks(s), "{").value, databaseSizePages);
  }

  lemma ArrayTail(s: string, databaseSizePages: nat, gs: seq<Segment>, comma: bool, one: (Segment, string))
    requires ReadArray(s, databaseSizePages) == Some((gs, comma)) && ReadOne(s, databaseSizePages) == Some(one)
    ensures gs != [] && gs[0] == one.0
    ensures |gs| > 1 ==> one.1 != "" && ReadArray(one.1[1..], databaseSizePages) == Some((gs[1..], comma))
  {
  }

  lemma ArrayStep(s: string, databaseSizePages: nat, gs: seq<Segment>, comma: bool) returns (next: string)
    requires ReadArray(s, databaseSizePages) == Some((gs, comma))
    ensures gs != [] && SegmentFits(gs[0]) && SegmentValid(gs[0], databaseSizePages)
    ensures |gs| > 1 ==> ReadArray(next, databaseSizePages) == Some((gs[1..], comma))
  {
    var one := ReadOne(s, databaseSizePages).value;
    OneRead(s, databaseSizePages);
    ArrayTail(s, databaseSizePages, gs, comma, one);
    next := if |gs| > 1 then one.1[1..] else "";
  }

  lemma MoreOk(gs: seq<Segment>, databaseSizePages: nat)
    requires gs != [] && SegmentFits(gs[0]) && SegmentValid(gs[0], databaseSizePages)
    requires |gs| > 1 ==> SegmentsOk(gs[1..], databaseSizePages)
    ensures SegmentsOk(gs, databaseSizePages)
  {
    forall i | 0 <= i < |gs| ensures SegmentFits(gs[i]) && SegmentValid(gs[i], databaseSizePages) {
      if i > 0 {
        assert gs[i] == gs[1..][i - 1];
      }
    }
  }

  lemma {:induction false} ArrayRead(s: string, databaseSizePages: nat, gs: seq<Segment>, comma: bool)
    requires ReadArray(s, databaseSizePages) == Some((gs, comma))
    ensures SegmentsOk(gs, databaseSizePages)
    decreases |gs|
  {
    var next := ArrayStep(s, databaseSizePages, gs, comma);
    if |gs| > 1 {
      ArrayRead(next, databaseSizePages, gs[1..], comma);
    }
    MoreOk(gs, databaseSizePages);
  }

  /** Whatever the text, the reader accepts 1 to 128 segments, each as the writer writes them. */
  lemma AcceptedSegments(s: string, databaseSizePages: nat)
    requires ReadSegments(s, databaseSizePages).Some?
    ensures var gs := ReadSegments(s, databaseSizePages).value;
      1 <= |gs| <= MAX_SEGMENTS && SegmentsOk(gs, databaseSizePages)
  {
    var r := ReadArray(s, databaseSizePages).value;
    ArrayRead(s, databaseSizePages, r.0, r.1);
  }
}

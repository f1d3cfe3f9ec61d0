/**
 The encryption record of a manifest: an array with one entry per segment, spliced into the written
 text before its closing brace, and read from the text on its own. The manifest reader does not see it.
 */
module SegmentEnc {
  import opened Prelude
  import opened TextScan
  import opened NumberText
  import opened ManifestText
  import opened ManifestCodec

  const ENC_MAX: nat := 128
  const IV_BYTES: nat := 12
  const TAG_BYTES: nat := 16
  const ALGORITHM := "AES-256-GCM"

  type Byte = x: nat | x < 256

  datatype Entry = Plain | Sealed(iv: seq<Byte>, tag: seq<Byte>)

  predicate EntryOk(e: Entry) {
    e.Sealed? ==> |e.iv| == IV_BYTES && |e.tag| == TAG_BYTES
  }

  // ---- bytes in hex ----

  function HexDigit(d: nat): char
    requires d < 16
  {
    "0123456789abcdef"[d]
  }

  function Nibble(c: char): (r: Option<nat>)
    ensures r.Some? ==> r.value < 16
  {
    if '0' <= c <= '9' then Some(c as int - '0' as int)
    else if 'a' <= c <= 'f' then Some(c as int - 'a' as int + 10)
    else if 'A' <= c <= 'F' then Some(c as int - 'A' as int + 10)
    else None
  }

  function Hex(bytes: seq<Byte>): string {
    if bytes == [] then "" else [HexDigit(bytes[0] / 16), HexDigit(bytes[0] % 16)] + Hex(bytes[1..])
  }

  function ReadHex(s: string): Option<seq<Byte>> {
    if s == "" then Some([])
    else if |s| == 1 then None
    else
      var hi, lo, more := Nibble(s[0]), Nibble(s[1]), ReadHex(s[2..]);
      if hi.None? || lo.None? || more.None? then None
      else Some([16 * hi.value + lo.value] + more.value)
  }

  lemma HexDigitBack(d: nat)
    requires d < 16
    ensures Nibble(HexDigit(d)) == Some(d) && HexDigit(d) != '"'
  {
  }

  lemma ByteBack(b: Byte, rest: string, more: seq<Byte>)
    requires ReadHex(rest) == Some(more)
    ensures ReadHex([HexDigit(b / 16), HexDigit(b % 16)] + rest) == Some([b] + more)
  {
    HexDigitBack(b / 16);
    HexDigitBack(b % 16);
    assert ([HexDigit(b / 16), HexDigit(b % 16)] + rest)[2..] == rest;
  }

  lemma {:induction false} HexBack(bytes: seq<Byte>)
    ensures ReadHex(Hex(bytes)) == Some(bytes) && |Hex(bytes)| == 2 * |bytes| && QuoteFree(Hex(bytes))
    decreases |bytes|
  {
    if bytes != [] {
      HexDigitBack(bytes[0] / 16);
      HexDigitBack(bytes[0] % 16);
      HexBack(bytes[1..]);
      ByteBack(bytes[0], Hex(bytes[1..]), bytes[1..]);
      assert bytes == [bytes[0]] + bytes[1..];
    }
  }

  lemma {:induction false} HexRead(s: string)
    requires ReadHex(s).Some?
    ensures |s| == 2 * |ReadHex(s).value|
    decreases |s|
  {
    if s != "" {
      HexRead(s[2..]);
    }
  }

  // ---- printing ----

  /** A sealed entry from behind its opening brace. */
  function Inner(iv: string, tag: string): string {
    FieldText(Text("alg", ALGORITHM)) + "," + FieldText(Text("iv", iv)) + "," + FieldText(Text("tag", tag)) + "}"
  }

  function EntryText(e: Entry): string {
    if e.Plain? then "{}" else "{" + Inner(Hex(e.iv), Hex(e.tag))
  }

  /** The entries from behind the opening bracket, the closing bracket and what follows. */
  function EntriesText(es: seq<Entry>, rest: string): string {
    if es == [] then "]" + rest
    else EntryText(es[0]) + if |es| == 1 then "]" + rest else "," + EntriesText(es[1..], rest)
  }

  function EncText(es: seq<Entry>, rest: string): string {
    ",\"segment_enc\":[" + EntriesText(es, rest)
  }

  // ---- reading ----

  function SkipWhite(s: string): (r: string)
    ensures |r| <= |s|
  {
    if s != "" && (s[0] == ' ' || s[0] == '\t' || s[0] == '\n' || s[0] == '\r') then SkipWhite(s[1..]) else s
  }

  /** A string of hex digits for so many bytes. */
  function ReadBytes(s: string, marker: string, count: nat): (r: Option<(seq<Byte>, string)>)
    ensures r.Some? ==> |r.value.1| < |s| && |r.value.0| == count
  {
    var text := ReadString(s, marker);
    if text.None? || |text.value.0| != 2 * count then None
    else
      var bytes := ReadHex(text.value.0);
      if bytes.None? then None
      else
        HexRead(text.value.0);
        Some((bytes.value, text.value.1))
  }

  function ReadSealed(s: string): (r: Option<(Entry, string)>)
    ensures r.Some? ==> |r.value.1| < |s| && EntryOk(r.value.0)
  {
    var alg := ReadString(s, "\"alg\":\"");
    if alg.None? || alg.value.0 != ALGORITHM then None
    else
      var iv := ReadBytes(alg.value.1, ",\"iv\":\"", IV_BYTES);
      if iv.None? then None
      else
        var tag := ReadBytes(iv.value.1, ",\"tag\":\"", TAG_BYTES);
        if tag.None? then None
        else
          var end := Expect(SkipWhite(tag.value.1), "}");
          if end.None? then None else Some((Sealed(iv.value.0, tag.value.0), end.value))
  }

  function ReadEntry(s: string): (r: Option<(Entry, string)>)
    ensures r.Some? ==> |r.value.1| < |s| && EntryOk(r.value.0)
  {
    var s1 := Expect(SkipWhite(s), "{");
    if s1.None? then None
    else
      var s2 := SkipWhite(s1.value);
      if StartsWith(s2, "}") then Some((Plain, s2[1..])) else ReadSealed(s2)
  }

  /** An entry and the white space behind it. */
  function ReadOne(s: string): (r: Option<(Entry, string)>)
    ensures r.Some? ==> |r.value.1| < |s| && EntryOk(r.value.0)
  {
    var e := ReadEntry(s);
    if e.None? then None else Some((e.value.0, SkipWhite(e.value.1)))
  }

  /** Entries from behind the opening bracket or a comma, and whether a comma comes before the closing bracket. */
  function ReadArray(s: string): (r: Option<(seq<Entry>, bool)>)
    ensures r.Some? ==> r.value.0 != []
    decreases |s|
  {
    var one := ReadOne(s);
    if one.None? then None
    else
      var e, next := one.value.0, one.value.1;
      if StartsWith(next, "]") then Some(([e], false))
      else if !StartsWith(next, ",") then None
      else if StartsWith(next[1..], "]") then Some(([e], true))
      else
        var more := ReadArray(next[1..]);
        if more.None? then None else Some(([e] + more.value.0, more.value.1))
  }

  function ReadEntries(s: string): Option<seq<Entry>> {
    Accepted(ReadArray(s), ENC_MAX)
  }

  /** The final result from the entries read so far and the text ahead. */
  ghost function Outcome(p: string, done: seq<Entry>): Option<seq<Entry>> {
    if |done| < ENC_MAX then Accepted(Behind(done, ReadArray(p)), ENC_MAX)
    else if StartsWith(p, "]") then Some(done)
    else None
  }

  lemma NoneAtBracket(p: string)
    requires StartsWith(p, "]")
    ensures ReadArray(p) == None
  {
    assert p[..1][0] == ']';
    HeadsDiffer(p, "{");
  }

  /** One turn of the loop. */
  lemma Turn(p: string, done: seq<Entry>)
    requires |done| < ENC_MAX
    ensures var one := ReadOne(p);
      Outcome(p, done) ==
        if one.None? then None
        else if StartsWith(one.value.1, "]") then Some(done + [one.value.0])
        else if !StartsWith(one.value.1, ",") then None
        else Outcome(one.value.1[1..], done + [one.value.0])
  {
    var one := ReadOne(p);
    if one.Some? && StartsWith(one.value.1, ",") && !StartsWith(one.value.1, "]") {
      var next := one.value.1[1..];
      if StartsWith(next, "]") {
        NoneAtBracket(next);
      } else {
        MoreBehind(done, one.value.0, ReadArray(next));
      }
    }
  }

  lemma Start(s: string)
    ensures Outcome(s, []) == ReadEntries(s)
  {
    NoneBehind(ReadArray(s));
  }

  /** The reader's loop over the array. */
  method ParseEntries(s: string) returns (r: Option<seq<Entry>>)
    ensures r == ReadEntries(s)
  {
    Start(s);
    ghost var all := Outcome(s, []);
    var p := s;
    var entries: seq<Entry> := [];
    while |entries| < ENC_MAX
      invariant |entries| <= ENC_MAX && Outcome(p, entries) == all
    {
      Turn(p, entries);
      var one := ReadOne(p);
      if one.None? {
        return None;
      }
      entries := entries + [one.value.0];
      p := one.value.1;
      if StartsWith(p, "]") {
        return Some(entries);
      }
      if !StartsWith(p, ",") {
        return None;
      }
      p := p[1..];
    }
    return if StartsWith(p, "]") then Some(entries) else None;
  }

  /** A text without the array is a manifest of plain segments; one with a malformed array is refused. */
  datatype Record = Refused | Absent | Present(entries: seq<Entry>)

  function Parse(s: string): Record {
    if s == "" then Refused
    else
      var at := After(s, Quoted("segment_enc", ":["));
      if at.None? then Absent
      else
        var es := ReadEntries(at.value);
        if es.None? then Refused else Present(es.value)
  }

  // ---- splicing ----

  /** Where the text ends if trailing newlines are not counted. */
  function Closing(text: string): (n: nat)
    ensures n <= |text|
  {
    if text != "" && text[|text| - 1] == '\n' then Closing(text[..|text| - 1]) else |text|
  }

  /** The text with the array before its last brace. */
  function Injected(text: string, es: seq<Entry>): Option<string> {
    var closing := Closing(text);
    if closing == 0 || text[closing - 1] != '}' then None
    else
      var out := text[..closing - 1] + EncText(es, text[closing - 1..]);
      if |out| > INT_MAX then None else Some(out)
  }

  /** What is left to write of the array behind its first `i` entries. */
  ghost function EntriesRest(es: seq<Entry>, i: nat, rest: string): string
    requires i <= |es|
  {
    if i == |es| then "]" + rest else if i == 0 then EntriesText(es, rest) else "," + EntriesText(es[i..], rest)
  }

  lemma EntriesStep(es: seq<Entry>, i: nat, rest: string)
    requires i < |es|
    ensures EntriesRest(es, i, rest) == (if i > 0 then "," else "") + EntryText(es[i]) + EntriesRest(es, i + 1, rest)
  {
    var more := es[i..];
    assert more[0] == es[i] && more[1..] == es[i + 1..];
    assert i == 0 ==> more == es;
    Regroup(if i > 0 then "," else "", EntryText(es[i]), EntriesRest(es, i + 1, rest));
  }

  method ArrayBytes(es: seq<Entry>, ghost rest: string) returns (n: nat)
    ensures n + 1 + |rest| == |EntriesText(es, rest)|
  {
    n := 0;
    for i := 0 to |es|
      invariant n + |EntriesRest(es, i, rest)| == |EntriesText(es, rest)|
    {
      EntriesStep(es, i, rest);
      if i > 0 {
        n := n + 1;
      }
      n := n + |EntryText(es[i])|;
    }
  }

  method FindClosing(text: string) returns (closing: nat)
    ensures closing == Closing(text)
  {
    closing := |text|;
    assert text[..closing] == text;
    while closing > 0 && text[closing - 1] == '\n'
      invariant closing <= |text| && Closing(text[..closing]) == Closing(text)
    {
      assert text[..closing][..closing - 1] == text[..closing - 1];
      closing := closing - 1;
    }
  }

  method WriteEntries(start: string, es: seq<Entry>, ghost rest: string) returns (out: string)
    ensures out + ("]" + rest) == start + EntriesText(es, rest)
  {
    out := start;
    for i := 0 to |es|
      invariant out + EntriesRest(es, i, rest) == start + EntriesText(es, rest)
    {
      EntriesStep(es, i, rest);
      var piece := (if i > 0 then "," else "") + EntryText(es[i]);
      Regroup(out, piece, EntriesRest(es, i + 1, rest));
      out := out + piece;
    }
  }

  method Inject(text: string, es: seq<Entry>) returns (r: Option<string>)
    ensures r == Injected(text, es)
  {
    var closing := FindClosing(text);
    if closing == 0 || text[closing - 1] != '}' {
      return None;
    }
    var body, rest := text[..closing - 1], text[closing - 1..];
    var header := ",\"segment_enc\":[";
    Regroup(body, header, EntriesText(es, rest));
    var arrayBytes := ArrayBytes(es, rest);
    if |text| + |header| + arrayBytes + 1 > INT_MAX {
      return None;
    }
    var out := WriteEntries(body + header, es, rest);
    return Some(out + ("]" + rest));
  }

  // ---- reading back ----

  lemma BytesBack(marker: string, bytes: seq<Byte>, rest: string)
    ensures ReadBytes(marker + (Hex(bytes) + "\"" + rest), marker, |bytes|) == Some((bytes, rest))
  {
    HexBack(bytes);
    ReadStringBack(marker, Hex(bytes), rest);
  }

  lemma ThreeShape(a: string, x: string, b: string, y: string, c: string, z: string, rest: string)
    ensures (a + x + "\"") + "," + (b + y + "\"") + "," + (c + z + "\"") + "}" + rest ==
      a + (x + "\"" + (("," + b) + (y + "\"" + (("," + c) + (z + "\"" + ("}" + rest))))))
  {
  }

  lemma InnerShape(iv: string, tag: string, rest: string)
    ensures Inner(iv, tag) + rest == "\"alg\":\"" +
      (ALGORITHM + "\"" + (",\"iv\":\"" + (iv + "\"" + (",\"tag\":\"" + (tag + "\"" + ("}" + rest))))))
  {
    var a, b, c := "\"alg\":\"", "\"iv\":\"", "\"tag\":\"";
    ThreeShape(a, ALGORITHM, b, iv, c, tag, rest);
    assert "\"" + "alg" + "\":\"" == a && "\"" + "iv" + "\":\"" == b && "\"" + "tag" + "\":\"" == c;
    assert "," + b == ",\"iv\":\"" && "," + c == ",\"tag\":\"";
  }

  lemma SealedSteps(s: string, s1: string, s2: string, rest: string, e: Entry)
    requires e.Sealed? && EntryOk(e) && ReadString(s, "\"alg\":\"") == Some((ALGORITHM, s1))
    requires ReadBytes(s1, ",\"iv\":\"", IV_BYTES) == Some((e.iv, s2))
    requires ReadBytes(s2, ",\"tag\":\"", TAG_BYTES) == Some((e.tag, "}" + rest))
    ensures ReadSealed(s) == Some((e, rest))
  {
    ExpectBack("}", rest);
  }

  lemma SealedBack(e: Entry, rest: string)
    requires e.Sealed? && EntryOk(e)
    ensures ReadSealed(Inner(Hex(e.iv), Hex(e.tag)) + rest) == Some((e, rest))
  {
    var iv, tag := Hex(e.iv), Hex(e.tag);
    var s2 := ",\"tag\":\"" + (tag + "\"" + ("}" + rest));
    var s1 := ",\"iv\":\"" + (iv + "\"" + s2);
    InnerShape(iv, tag, rest);
    ReadStringBack("\"alg\":\"", ALGORITHM, s1);
    BytesBack(",\"iv\":\"", e.iv, s2);
    BytesBack(",\"tag\":\"", e.tag, "}" + rest);
    SealedSteps(Inner(iv, tag) + rest, s1, s2, rest, e);
  }

  lemma PlainBack(rest: string)
    ensures ReadEntry("{}" + rest) == Some((Plain, rest))
  {
    assert "{}" + rest == "{" + ("}" + rest);
    ExpectBack("{", "}" + rest);
    assert ("}" + rest)[..1] == "}" && ("}" + rest)[1..] == rest;
  }

  lemma BracedBack(inner: string, e: Entry, rest: string)
    requires inner != "" && inner[0] == '"' && ReadSealed(inner) == Some((e, rest))
    ensures ReadEntry("{" + inner) == Some((e, rest))
  {
    ExpectBack("{", inner);
    HeadsDiffer(inner, "}");
  }

  lemma EntryBack(e: Entry, rest: string)
    requires EntryOk(e)
    ensures ReadEntry(EntryText(e) + rest) == Some((e, rest))
  {
    if e.Plain? {
      PlainBack(rest);
    } else {
      var inner := Inner(Hex(e.iv), Hex(e.tag));
      SealedBack(e, rest);
      BracedBack(inner + rest, e, rest);
      Regroup("{", inner, rest);
    }
  }

  predicate EntriesOk(es: seq<Entry>) {
    forall i :: 0 <= i < |es| ==> EntryOk(es[i])
  }

  lemma OneBack(e: Entry, rest: string)
    requires EntryOk(e) && rest != "" && (rest[0] == ',' || rest[0] == ']')
    ensures ReadOne(EntryText(e) + rest) == Some((e, rest))
  {
    EntryBack(e, rest);
  }

  lemma LastEntry(s: string, e: Entry, rest: string)
    requires ReadOne(s) == Some((e, "]" + rest))
    ensures ReadArray(s) == Some(([e], false))
  {
    StartsLiteral("]", rest);
  }

  lemma NextEntry(s: string, e: Entry, more: string, es: seq<Entry>)
    requires ReadOne(s) == Some((e, "," + more)) && more != "" && more[0] != ']' && ReadArray(more) == Some((es, false))
    ensures ReadArray(s) == Some(([e] + es, false))
  {
    HeadsDiffer("," + more, "]");
    HeadsDiffer(more, "]");
    StartsLiteral(",", more);
    assert ("," + more)[1..] == more;
  }

  lemma EntriesStart(es: seq<Entry>, rest: string)
    requires es != []
    ensures EntriesText(es, rest) != "" && EntriesText(es, rest)[0] == '{'
  {
  }

  lemma {:induction false} ArrayBack(es: seq<Entry>, rest: string)
    requires es != [] && EntriesOk(es)
    ensures ReadArray(EntriesText(es, rest)) == Some((es, false))
    decreases |es|
  {
    var s := EntriesText(es, rest);
    if |es| == 1 {
      OneBack(es[0], "]" + rest);
      LastEntry(s, es[0], rest);
      assert es == [es[0]];
    } else {
      var more := EntriesText(es[1..], rest);
      OneBack(es[0], "," + more);
      ArrayBack(es[1..], rest);
      EntriesStart(es[1..], rest);
      NextEntry(s, es[0], more, es[1..]);
      assert es == [es[0]] + es[1..];
    }
  }

  /** A printed array is read back if it has no more than 128 entries, and refused if it has. */
  lemma EntriesBack(es: seq<Entry>, rest: string)
    requires es != [] && EntriesOk(es)
    ensures ReadEntries(EntriesText(es, rest)) == if |es| <= ENC_MAX then Some(es) else None
  {
    ArrayBack(es, rest);
  }

  lemma {:induction false} ArrayRead(s: string, es: seq<Entry>, comma: bool)
    requires ReadArray(s) == Some((es, comma))
    ensures EntriesOk(es)
    decreases |s|
  {
    var next := ReadOne(s).value.1;
    if |es| > 1 {
      ArrayRead(next[1..], es[1..], comma);
    }
  }

  /** Only arrays of one to 128 well-formed entries are accepted. */
  lemma AcceptedEntries(s: string)
    requires ReadEntries(s).Some?
    ensures var es := ReadEntries(s).value; 1 <= |es| <= ENC_MAX && EntriesOk(es)
  {
    var r := ReadArray(s).value;
    ArrayRead(s, r.0, r.1);
  }

  // ---- searching past the array ----

  lemma SkipInner(iv: string, tag: string, rest: string, name: string, after: string)
    requires QuoteFree(iv) && QuoteFree(tag) && IsName(name) && IsTail(after) && name != "alg" && name != "iv" &&
      name != "tag"
    ensures After(Inner(iv, tag) + rest, Quoted(name, after)) == After(rest, Quoted(name, after))
  {
    var c := Text("tag", tag);
    var t := FieldText(c);
    SkipKeys(Text("alg", ALGORITHM), Text("iv", iv), "," + (t + ("}" + rest)), name, after);
    assert Inner(iv, tag) + rest ==
      FieldText(Text("alg", ALGORITHM)) + "," + FieldText(Text("iv", iv)) + ("," + (t + ("}" + rest)));
    SkipPlain(",", t + ("}" + rest), name, after);
    SkipField(c, "}" + rest, name, after);
    SkipPlain("}", rest, name, after);
  }

  lemma SkipEntry(e: Entry, rest: string, name: string, after: string)
    requires IsName(name) && IsTail(after) && name != "alg" && name != "iv" && name != "tag"
    ensures After(EntryText(e) + rest, Quoted(name, after)) == After(rest, Quoted(name, after))
  {
    if e.Plain? {
      SkipPlain("{}", rest, name, after);
    } else {
      HexBack(e.iv);
      HexBack(e.tag);
      var inner := Inner(Hex(e.iv), Hex(e.tag));
      assert EntryText(e) + rest == "{" + (inner + rest);
      SkipPlain("{", inner + rest, name, after);
      SkipInner(Hex(e.iv), Hex(e.tag), rest, name, after);
    }
  }

  lemma {:induction false} SkipEntries(es: seq<Entry>, rest: string, name: string, after: string)
    requires IsName(name) && IsTail(after) && name != "alg" && name != "iv" && name != "tag"
    ensures After(EntriesText(es, rest), Quoted(name, after)) == After(rest, Quoted(name, after))
    decreases |es|
  {
    if |es| <= 1 {
      SkipPlain("]", rest, name, after);
      if |es| == 1 {
        SkipEntry(es[0], "]" + rest, name, after);
      }
    } else {
      var more := EntriesText(es[1..], rest);
      SkipEntry(es[0], "," + more, name, after);
      SkipPlain(",", more, name, after);
      SkipEntries(es[1..], rest, name, after);
    }
  }

  // ---- the record in a manifest ----

  lemma {:induction false} SegmentsSplit(gs: seq<Segment>, a: string, b: string)
    requires gs != []
    ensures SegmentsText(gs, a + b) == SegmentsText(gs, a) + b
    decreases |gs|
  {
    var t := SegmentText(gs[0]);
    if |gs| == 1 {
      Nest(t, "]", a, b);
    } else {
      SegmentsSplit(gs[1..], a, b);
      Nest(t, ",", SegmentsText(gs[1..], a), b);
    }
  }

  lemma Nest(t: string, c: string, a: string, b: string)
    ensures "{" + (t + (c + (a + b))) == "{" + (t + (c + a)) + b
  {
  }

  lemma DocumentSplit(m: Manifest, a: string, b: string)
    requires m.segments != []
    ensures Document(m, a + b) == Document(m, a) + b
  {
    var ending := ChecksumText(m) + a;
    Regroup(ChecksumText(m), a, b);
    SegmentsSplit(m.segments, ending, b);
    var text := SegmentsText(m.segments, ending);
    Regroup("\"segments\":[", text, b);
    FieldsSplit(Header(m), "\"segments\":[" + text, b);
    Regroup("{", Fields(Header(m), "\"segments\":[" + text), b);
  }

  lemma ClosingBrace(text: string)
    ensures Closing(text + "}\n") == |text| + 1
  {
    var s := text + "}\n";
    assert s[..|s| - 1] == text + "}";
  }

  /** Splicing into a written manifest adds the array as its last field. */
  lemma InjectedDocument(m: Manifest, es: seq<Entry>)
    requires m.segments != [] && |Document(m, EncText(es, "}\n"))| <= INT_MAX
    ensures Injected(Document(m, "}\n"), es) == Some(Document(m, EncText(es, "}\n")))
  {
    var body, text := Document(m, ""), Document(m, "}\n");
    DocumentSplit(m, "", "}\n");
    DocumentSplit(m, "", EncText(es, "}\n"));
    assert "" + "}\n" == "}\n" && "" + EncText(es, "}\n") == EncText(es, "}\n");
    ClosingBrace(body);
    assert text == body + "}\n" && text[..|body|] == body && text[|body|..] == "}\n";
  }

  lemma SkipEncMarker(text: string, name: string, after: string)
    requires IsName(name) && IsTail(after) && name != "segment_enc"
    ensures After(",\"segment_enc\":[" + text, Quoted(name, after)) == After(text, Quoted(name, after))
  {
    var f := Raw("segment_enc", "[");
    assert ",\"segment_enc\":[" == "," + FieldText(f);
    Regroup(",", FieldText(f), text);
    SkipPlain(",", FieldText(f) + text, name, after);
    SkipRaw(f, text, name, after);
  }

  lemma SkipEnc(es: seq<Entry>, name: string, after: string)
    requires IsName(name) && IsTail(after) && name != "alg" && name != "iv" && name != "tag" && name != "segment_enc"
    ensures After(EncText(es, "}\n"), Quoted(name, after)) == None
  {
    SkipEncMarker(EntriesText(es, "}\n"), name, after);
    SkipEntries(es, "}\n", name, after);
    NothingFollows(name, after);
  }

  /** The manifest reader gets the same manifest from the spliced text. */
  lemma InjectedDecodes(m: Manifest, es: seq<Entry>)
    requires Valid(m) && Fits(m)
    ensures Decode(Document(m, EncText(es, "}\n"))) == Some(m)
  {
    var name := "post_apply_checksum";
    assert Apart(name, "alg") && Apart(name, "iv") && Apart(name, "tag") && Apart(name, "segment_enc");
    SkipEnc(es, name, ":\"");
    RoundTrip(m, EncText(es, "}\n"));
  }

  lemma FoundEnc(text: string)
    ensures After(",\"segment_enc\":[" + text, Quoted("segment_enc", ":[")) == Some(text)
  {
    var quoted := "\"" + "segment_enc" + "\"" + ":[";
    assert ",\"segment_enc\":[" + text == "," + (quoted + text);
    SkipPlain(",", quoted + text, "segment_enc", ":[");
    FoundQuote(text, "segment_enc", ":[");
  }

  lemma SkipNamed(f: Field, extra: string, name: string, after: string)
    requires Clean(f) && IsName(name) && IsTail(after) && f.name != name && Closed(extra)
    ensures After("," + FieldText(f) + extra, Quoted(name, after)) == After(extra, Quoted(name, after))
  {
    Regroup(",", FieldText(f), extra);
    SkipPlain(",", FieldText(f) + extra, name, after);
    SkipField(f, extra, name, after);
  }

  /** A checksum is passed over. */
  lemma SkipChecksum(m: Manifest, extra: string)
    requires Fits(m) && Closed(extra)
    ensures After(ChecksumText(m) + extra, Quoted("segment_enc", ":[")) == After(extra, Quoted("segment_enc", ":["))
  {
    if m.checksum == "" {
      assert ChecksumText(m) + extra == extra;
    } else {
      assert Apart("post_apply_checksum", "segment_enc");
      SkipNamed(Text("post_apply_checksum", m.checksum), extra, "segment_enc", ":[");
    }
  }

  lemma SearchEnc(m: Manifest, extra: string)
    requires Fits(m) && m.segments != [] && Closed(extra)
    ensures After(Document(m, extra), Quoted("segment_enc", ":[")) == After(extra, Quoted("segment_enc", ":["))
  {
    SkipArray(m, extra, "segment_enc", ":[");
    SkipChecksum(m, extra);
  }

  /** Exactly the spliced entries are read from the spliced text; an array of none or of too many entries is refused. */
  lemma InjectedParses(m: Manifest, es: seq<Entry>)
    requires Fits(m) && m.segments != [] && EntriesOk(es)
    ensures Parse(Document(m, EncText(es, "}\n"))) == if 0 < |es| <= ENC_MAX then Present(es) else Refused
  {
    var text := EntriesText(es, "}\n");
    SearchEnc(m, EncText(es, "}\n"));
    FoundEnc(text);
    if es != [] {
      EntriesBack(es, "}\n");
    } else {
      HeadsDiffer(text, "{");
    }
  }

  /** A manifest without the record reads as one of plain segments. */
  lemma PlainIsAbsent(m: Manifest)
    requires Fits(m) && m.segments != []
    ensures Parse(Document(m, "}\n")) == Absent
  {
    SearchEnc(m, "}\n");
    NothingFollows("segment_enc", ":[");
  }
}

/**
 The manifest writer: a first pass adds up the length of the text, a second pass writes it into a
 buffer of that length and gives up where a piece does not fit. The two passes agree.
 */
module ManifestWriter {
  import opened Prelude
  import opened TextScan
  import opened NumberText
  import opened ManifestText
  import opened ManifestCodec

  function ArrayText(values: seq<nat>): string {
    "[" + ListBody(values)
  }

  /** A literal of a segment with its opening brace. */
  function Literal(g: Segment): string {
    "{" + SegmentText(g)
  }

  // ---- arrays ----

  /** What is left to write of an array behind its first `i` values. */
  ghost function ArrayRest(values: seq<nat>, i: nat): string
    requires i <= |values|
  {
    if i == |values| then "]" else if i == 0 then ListBody(values) else "," + ListBody(values[i..])
  }

  lemma ArrayStep(values: seq<nat>, i: nat)
    requires i < |values|
    ensures ArrayRest(values, i) == (if i > 0 then "," else "") + Decimal(values[i]) + ArrayRest(values, i + 1)
  {
    var more := values[i..];
    assert more[0] == values[i] && more[1..] == values[i + 1..];
    assert i == 0 ==> more == values;
  }

  method ArraySize(values: seq<nat>) returns (total: nat)
    ensures total == |ArrayText(values)|
  {
    total := 2;
    for i := 0 to |values|
      invariant total + |ArrayRest(values, i)| == 1 + |ArrayText(values)|
    {
      ArrayStep(values, i);
      total := total + |Decimal(values[i])|;
      if i > 0 {
        total := total + 1;
      }
    }
  }

  method WriteArray(space: nat, values: seq<nat>) returns (r: Option<string>)
    ensures r == if |ArrayText(values)| < space then Some(ArrayText(values)) else None
  {
    var text := "[";
    if |text| >= space {
      return None;
    }
    for i := 0 to |values|
      invariant |text| < space && text + ArrayRest(values, i) == ArrayText(values)
    {
      ArrayStep(values, i);
      var piece := (if i > 0 then "," else "") + Decimal(values[i]);
      Regroup(text, piece, ArrayRest(values, i + 1));
      text := text + piece;
      if |text| >= space {
        return None;
      }
    }
    text := text + "]";
    return if |text| >= space then None else Some(text);
  }

  // ---- segments ----

  function Head(g: Segment): string {
    "{" + FieldText(Text("key", g.key)) + "," + FieldText(Text("sha256", g.sha256)) + "," +
      FieldText(Raw("size", Decimal(g.size)))
  }

  function Pages(g: Segment): string {
    ",\"pages\":" + ArrayText(g.pages)
  }

  function Offsets(offsets: Option<seq<nat>>): string {
    if offsets.None? then "" else ",\"frame_offsets\":" + ArrayText(offsets.value)
  }

  lemma MarkerShape(name: string, marker: string, body: string, rest: string)
    requires marker == ",\"" + name + "\":"
    ensures "," + FieldText(Raw(name, body)) + rest == marker + body + rest
  {
    assert FieldText(Raw(name, body)) == "\"" + name + "\":" + body;
    assert "," + ("\"" + name + "\":" + body) == marker + body;
  }

  lemma OffsetsLiteral(g: Segment)
    ensures OffsetsText(g.offsets) == Offsets(g.offsets) + "}"
  {
    if g.offsets.Some? {
      MarkerShape("frame_offsets", ",\"frame_offsets\":", ArrayText(g.offsets.value), "}");
    }
  }

  lemma PagesLiteral(g: Segment)
    ensures PagesText(g) == Pages(g) + Offsets(g.offsets) + "}"
  {
    OffsetsLiteral(g);
    MarkerShape("pages", ",\"pages\":", ArrayText(g.pages), OffsetsText(g.offsets));
    Regroup(Pages(g), Offsets(g.offsets), "}");
  }

  lemma Shape(a: string, b: string, c: string, more: string)
    ensures "{" + (a + "," + b + ("," + c + more)) == "{" + a + "," + b + "," + c + more
  {
  }

  lemma LiteralShape(g: Segment)
    ensures Literal(g) == Head(g) + Pages(g) + Offsets(g.offsets) + "}"
  {
    PagesLiteral(g);
    var a, b, c := FieldText(Text("key", g.key)), FieldText(Text("sha256", g.sha256)),
      FieldText(Raw("size", Decimal(g.size)));
    Shape(a, b, c, PagesText(g));
    Spread(Head(g), Pages(g), Offsets(g.offsets));
  }

  lemma Spread(a: string, b: string, c: string)
    ensures a + (b + c + "}") == a + b + c + "}"
  {
  }

  lemma LiteralSize(g: Segment)
    ensures |Literal(g)| == |Head(g)| + |Pages(g)| + |Offsets(g.offsets)| + 1
  {
    LiteralShape(g);
  }

  method OffsetsSize(offsets: Option<seq<nat>>) returns (total: nat)
    ensures total == |Offsets(offsets)|
  {
    if offsets.None? {
      return 0;
    }
    total := NamedSize(",\"frame_offsets\":", offsets.value);
  }

  method NamedSize(name: string, values: seq<nat>) returns (total: nat)
    ensures total == |name + ArrayText(values)|
  {
    total := ArraySize(values);
    total := total + |name|;
  }

  method LiteralTotal(g: Segment) returns (total: nat)
    ensures total == |Head(g)| + |Pages(g)| + |Offsets(g.offsets)| + 1
  {
    var pages := NamedSize(",\"pages\":", g.pages);
    var offsets := OffsetsSize(g.offsets);
    total := |Head(g)| + pages + offsets + 1;
  }

  method SegmentSize(g: Segment) returns (r: Option<nat>)
    ensures r == if |Literal(g)| <= INT_MAX then Some(|Literal(g)|) else None
  {
    var total := LiteralTotal(g);
    LiteralSize(g);
    return if total > INT_MAX then None else Some(total);
  }

  /** A piece of a literal behind what is there already, if there is space. */
  function Put(space: nat, text: string, piece: string): Option<string> {
    if |text| + |piece| < space then Some(text + piece) else None
  }

  method WriteNamed(space: nat, text: string, name: string, values: seq<nat>) returns (r: Option<string>)
    requires |text| <= space
    ensures r == Put(space, text, name + ArrayText(values))
  {
    if |text| + |name| >= space {
      return None;
    }
    var body := WriteArray(space - |text| - |name|, values);
    if body.None? {
      return None;
    }
    Regroup(text, name, body.value);
    return Some(text + name + body.value);
  }

  method WriteSegment(space: nat, g: Segment) returns (r: Option<string>)
    ensures r == if |Literal(g)| < space then Some(Literal(g)) else None
  {
    LiteralShape(g);
    if |Head(g)| >= space {
      return None;
    }
    r := WriteNamed(space, Head(g), ",\"pages\":", g.pages);
    if r.Some? && g.offsets.Some? {
      r := WriteNamed(space, r.value, ",\"frame_offsets\":", g.offsets.value);
    }
    assert r.Some? ==> r.value == Head(g) + Pages(g) + Offsets(g.offsets);
    if r.None? || |r.value| + 1 >= space {
      return None;
    }
    return Some(r.value + "}");
  }

  // ---- the document ----

  /** What is left to write behind the first `i` segments. */
  ghost function Rest(gs: seq<Segment>, i: nat, ending: string): string
    requires i <= |gs|
  {
    if i == |gs| then "]" + ending else if i == 0 then SegmentsText(gs, ending) else "," + SegmentsText(gs[i..], ending)
  }

  lemma RestStep(gs: seq<Segment>, i: nat, ending: string)
    requires i < |gs|
    ensures Rest(gs, i, ending) == (if i > 0 then "," else "") + Literal(gs[i]) + Rest(gs, i + 1, ending)
  {
    var more := gs[i..];
    assert more[0] == gs[i] && more[1..] == gs[i + 1..];
    assert i == 0 ==> more == gs;
    Regroup("{", SegmentText(gs[i]), Rest(gs, i + 1, ending));
    Regroup(if i > 0 then "," else "", Literal(gs[i]), Rest(gs, i + 1, ending));
  }

  lemma RestSize(gs: seq<Segment>, i: nat, ending: string)
    requires i < |gs|
    ensures |Rest(gs, i, ending)| == (if i > 0 then 1 else 0) + |Literal(gs[i])| + |Rest(gs, i + 1, ending)|
  {
    RestStep(gs, i, ending);
  }

  function Opening(m: Manifest): string {
    "{" + Fields(Header(m), "\"segments\":[")
  }

  function Ending(m: Manifest): string {
    ChecksumText(m) + "}\n"
  }

  lemma DocumentShape(m: Manifest)
    requires m.segments != []
    ensures Document(m, "}\n") == Opening(m) + Rest(m.segments, 0, Ending(m))
  {
    var text := SegmentsText(m.segments, Ending(m));
    FieldsSplit(Header(m), "\"segments\":[", text);
    Regroup("{", Fields(Header(m), "\"segments\":["), text);
  }

  method Measure(gs: seq<Segment>, ghost ending: string) returns (r: Option<nat>)
    requires gs != []
    ensures r.None? ==> |Rest(gs, 0, ending)| > INT_MAX
    ensures r.Some? ==> r.value + 1 + |ending| == |Rest(gs, 0, ending)|
  {
    var bytes: nat := 0;
    ghost var all := |Rest(gs, 0, ending)|;
    for i := 0 to |gs|
      invariant bytes + |Rest(gs, i, ending)| == all
    {
      RestSize(gs, i, ending);
      var size := SegmentSize(gs[i]);
      if size.None? {
        return None;
      }
      bytes := bytes + size.value;
      if i > 0 {
        bytes := bytes + 1;
      }
    }
    return Some(bytes);
  }

  /** Segments behind the opening, in a buffer that holds `needed` characters. */
  method WriteSegments(needed: nat, opening: string, gs: seq<Segment>, ghost ending: string) returns (r: Option<string>)
    requires gs != [] && needed == |opening + Rest(gs, 0, ending)|
    ensures r.Some? && r.value + ("]" + ending) == opening + Rest(gs, 0, ending)
  {
    var json := opening;
    for i := 0 to |gs|
      invariant json + Rest(gs, i, ending) == opening + Rest(gs, 0, ending)
    {
      RestStep(gs, i, ending);
      var comma := if i > 0 then "," else "";
      Regroup(comma, Literal(gs[i]), Rest(gs, i + 1, ending));
      Regroup(json, comma, Literal(gs[i]) + Rest(gs, i + 1, ending));
      json := json + comma;
      if |json| > needed {
        return None;
      }
      var piece := WriteSegment(needed + 1 - |json|, gs[i]);
      if piece.None? {
        return None;
      }
      Regroup(json, piece.value, Rest(gs, i + 1, ending));
      json := json + piece.value;
    }
    return Some(json);
  }

  /** A valid manifest is written unless its text is too long; the second pass never runs out of space. */
  method Encode(m: Manifest) returns (r: Option<string>)
    ensures r == if Valid(m) && |Document(m, "}\n")| <= INT_MAX then Some(Document(m, "}\n")) else None
  {
    if !Valid(m) {
      return None;
    }
    DocumentShape(m);
    var opening, ending := Opening(m), Ending(m);
    var bytes := Measure(m.segments, ending);
    if bytes.None? {
      return None;
    }
    var needed := |opening| + bytes.value + |ChecksumText(m)| + 3;
    if needed > INT_MAX {
      return None;
    }
    var json := WriteSegments(needed, opening, m.segments, ending);
    var end := "]" + ending;
    if json.None? || |json.value| + |end| > needed {
      return None;
    }
    return Some(json.value + end);
  }
}

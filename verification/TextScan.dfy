/**
 Searching text for a quoted name, the way the manifest reader does: the first occurrence of a
 pattern counts. A pattern here is a quoted name and what must follow its closing quote.
 */
module TextScan {
  import opened Prelude

  predicate StartsWith(s: string, p: string) {
    |p| <= |s| && s[..|p|] == p
  }

  /** What follows the first occurrence of a pattern. */
  function After(s: string, p: string): Option<string> {
    if StartsWith(s, p) then Some(s[|p|..]) else if s == "" then None else After(s[1..], p)
  }

  predicate QuoteFree(s: string) {
    '"' !in s
  }

  /** A quoted name and what follows it. */
  function Quoted(name: string, tail: string): string {
    "\"" + name + "\"" + tail
  }

  // ---- comparing texts piece by piece ----

  lemma StartsAppend(a: string, x: string, p: string)
    ensures StartsWith(a + x, a + p) <==> StartsWith(x, p)
    ensures StartsWith(x, p) ==> (a + x)[|a + p|..] == x[|p|..]
  {
    if StartsWith(x, p) {
      assert x == p + x[|p|..];
      assert a + x == a + p + x[|p|..];
    }
    if StartsWith(a + x, a + p) {
      forall i | 0 <= i < |p| ensures x[i] == p[i] {
        assert (a + x)[..|a + p|][|a| + i] == (a + p)[|a| + i];
      }
      assert x[..|p|] == p;
    }
  }

  lemma HeadsDiffer(s: string, t: string)
    requires s != "" && t != "" && s[0] != t[0]
    ensures !StartsWith(s, t)
  {
    if |t| <= |s| {
      assert s[..|t|][0] == s[0];
    }
  }

  /** Up to the first quote two texts agree exactly if the pieces before it are equal. */
  lemma {:induction false} StartsPiece(a: string, x: string, b: string, p: string)
    requires QuoteFree(a) && QuoteFree(b)
    ensures StartsWith(a + "\"" + x, b + "\"" + p) <==> a == b && StartsWith(x, p)
    decreases |a|
  {
    var s, t := a + "\"" + x, b + "\"" + p;
    if a == "" && b == "" {
      assert s == "\"" + x && t == "\"" + p;
      StartsAppend("\"", x, p);
    } else if a == "" {
      assert b[0] in b;
      HeadsDiffer(s, t);
    } else if b == "" {
      assert a[0] in a;
      HeadsDiffer(s, t);
    } else if a[0] != b[0] {
      HeadsDiffer(s, t);
    } else {
      var a', b' := a[1..], b[1..];
      assert a == [a[0]] + a' && b == [a[0]] + b';
      assert s == [a[0]] + (a' + "\"" + x) && t == [a[0]] + (b' + "\"" + p);
      StartsAppend([a[0]], a' + "\"" + x, b' + "\"" + p);
      StartsPiece(a', x, b', p);
    }
  }

  // ---- skipping what cannot match ----

  /** No pattern starts inside text without quotes. */
  lemma {:induction false} SkipPlain(a: string, x: string, name: string, tail: string)
    requires QuoteFree(a)
    ensures After(a + x, Quoted(name, tail)) == After(x, Quoted(name, tail))
    decreases |a|
  {
    if a == "" {
      assert a + x == x;
    } else {
      var p := Quoted(name, tail);
      assert a[0] in a && p[0] == '"' && (a + x)[0] == a[0];
      HeadsDiffer(a + x, p);
      assert (a + x)[1..] == a[1..] + x;
      SkipPlain(a[1..], x, name, tail);
    }
  }

  /** At a quote the pattern is there or the search goes on behind the quote. */
  lemma AtQuote(x: string, name: string, tail: string)
    ensures After("\"" + x, Quoted(name, tail)) ==
      if StartsWith(x, name + "\"" + tail) then Some(x[|name + "\"" + tail|..]) else After(x, Quoted(name, tail))
  {
    var p := name + "\"" + tail;
    assert Quoted(name, tail) == "\"" + p;
    StartsAppend("\"", x, p);
    assert ("\"" + x)[1..] == x;
  }

  /** A quote that is followed by another piece than the name, or by the name and something else than the tail. */
  lemma SkipQuote(a: string, x: string, name: string, tail: string)
    requires QuoteFree(a) && QuoteFree(name) && !(a == name && StartsWith(x, tail))
    ensures After("\"" + a + "\"" + x, Quoted(name, tail)) == After("\"" + x, Quoted(name, tail))
  {
    StartsPiece(a, x, name, tail);
    assert "\"" + a + "\"" + x == "\"" + (a + "\"" + x);
    AtQuote(a + "\"" + x, name, tail);
    SkipPlain(a, "\"" + x, name, tail);
    assert a + ("\"" + x) == a + "\"" + x;
  }

  /** The name, and what must follow. */
  lemma FoundQuote(x: string, name: string, tail: string)
    requires QuoteFree(name)
    ensures After("\"" + name + "\"" + tail + x, Quoted(name, tail)) == Some(x)
  {
    var p := name + "\"" + tail;
    assert "\"" + name + "\"" + tail + x == "\"" + (p + x);
    AtQuote(p + x, name, tail);
    assert (p + x)[..|p|] == p && (p + x)[|p|..] == x;
  }

  // ---- fields ----

  /** A field as it is printed: a bare value, or a value in quotes. */
  datatype Field = Raw(name: string, value: string) | Text(name: string, value: string)

  /** Names are lower case. */
  predicate IsName(s: string) {
    QuoteFree(s) && s != "" && 'a' <= s[0] <= 'z'
  }

  predicate Clean(f: Field) {
    IsName(f.name) && QuoteFree(f.value)
  }

  function FieldText(f: Field): string {
    if f.Raw? then "\"" + f.name + "\":" + f.value else "\"" + f.name + "\":\"" + f.value + "\""
  }

  /** What can follow a field. */
  predicate Closed(rest: string) {
    rest == "" || rest[0] == ',' || rest[0] == '}' || rest[0] == ']'
  }

  /** What a pattern asks after a name's closing quote starts with a colon. */
  predicate IsTail(tail: string) {
    tail != "" && tail[0] == ':'
  }

  /** A quote at the end of a value, or before a colon, starts no pattern. */
  lemma SkipClosing(x: string, name: string, tail: string)
    requires IsName(name) && (Closed(x) || x[0] == ':')
    ensures After("\"" + x, Quoted(name, tail)) == After(x, Quoted(name, tail))
  {
    AtQuote(x, name, tail);
    if x != "" {
      HeadsDiffer(x, name + "\"" + tail);
    }
  }

  lemma NotTail(x: string, tail: string)
    requires IsTail(tail) && Closed(x)
    ensures !StartsWith(x, tail)
  {
    if x != "" {
      HeadsDiffer(x, tail);
    }
  }

  lemma SkipRaw(f: Field, rest: string, name: string, tail: string)
    requires f.Raw? && Clean(f) && IsName(name) && IsTail(tail) && f.name != name
    ensures After(FieldText(f) + rest, Quoted(name, tail)) == After(rest, Quoted(name, tail))
  {
    var x := ":" + f.value + rest;
    assert FieldText(f) + rest == "\"" + f.name + "\"" + x;
    SkipQuote(f.name, x, name, tail);
    SkipClosing(x, name, tail);
    SkipPlain(":" + f.value, rest, name, tail);
  }

  lemma SkipText(f: Field, rest: string, name: string, tail: string)
    requires f.Text? && Clean(f) && IsName(name) && IsTail(tail) && f.name != name && Closed(rest)
    ensures After(FieldText(f) + rest, Quoted(name, tail)) == After(rest, Quoted(name, tail))
  {
    var y := "\"" + f.value + "\"" + rest;
    assert FieldText(f) + rest == "\"" + f.name + "\"" + (":" + y);
    SkipQuote(f.name, ":" + y, name, tail);
    SkipClosing(":" + y, name, tail);
    SkipPlain(":", y, name, tail);
    NotTail(rest, tail);
    SkipQuote(f.value, rest, name, tail);
    SkipClosing(rest, name, tail);
  }

  /** A field of another name is passed over, whatever its value. */
  lemma SkipField(f: Field, rest: string, name: string, tail: string)
    requires Clean(f) && IsName(name) && IsTail(tail) && f.name != name && Closed(rest)
    ensures After(FieldText(f) + rest, Quoted(name, tail)) == After(rest, Quoted(name, tail))
  {
    if f.Raw? {
      SkipRaw(f, rest, name, tail);
    } else {
      SkipText(f, rest, name, tail);
    }
  }

  lemma FoundRaw(name: string, value: string, rest: string)
    requires IsName(name)
    ensures After(FieldText(Raw(name, value)) + rest, Quoted(name, ":")) == Some(value + rest)
  {
    assert FieldText(Raw(name, value)) + rest == "\"" + name + "\"" + ":" + (value + rest);
    FoundQuote(value + rest, name, ":");
  }

  lemma FoundText(name: string, value: string, rest: string)
    requires IsName(name)
    ensures After(FieldText(Text(name, value)) + rest, Quoted(name, ":\"")) == Some(value + "\"" + rest)
  {
    assert FieldText(Text(name, value)) + rest == "\"" + name + "\"" + ":\"" + (value + "\"" + rest);
    FoundQuote(value + "\"" + rest, name, ":\"");
  }

  /** Fields, each followed by a comma. */
  function Fields(fs: seq<Field>, rest: string): string {
    if fs == [] then rest else FieldText(fs[0]) + "," + Fields(fs[1..], rest)
  }

  predicate Without(fs: seq<Field>, name: string) {
    forall i :: 0 <= i < |fs| ==> Clean(fs[i]) && fs[i].name != name
  }

  lemma {:induction false} SkipFields(fs: seq<Field>, rest: string, name: string, tail: string)
    requires Without(fs, name) && IsName(name) && IsTail(tail)
    ensures After(Fields(fs, rest), Quoted(name, tail)) == After(rest, Quoted(name, tail))
    decreases |fs|
  {
    if fs != [] {
      var more := Fields(fs[1..], rest);
      assert Fields(fs, rest) == FieldText(fs[0]) + ("," + more);
      SkipField(fs[0], "," + more, name, tail);
      SkipPlain(",", more, name, tail);
      SkipFields(fs[1..], rest, name, tail);
    }
  }

  lemma {:induction false} FieldsAppend(a: seq<Field>, b: seq<Field>, rest: string)
    ensures Fields(a + b, rest) == Fields(a, Fields(b, rest))
    decreases |a|
  {
    if a == [] {
      assert a + b == b;
    } else {
      assert (a + b)[1..] == a[1..] + b;
      FieldsAppend(a[1..], b, rest);
    }
  }

  lemma {:induction false} FieldsSplit(fs: seq<Field>, a: string, b: string)
    ensures Fields(fs, a + b) == Fields(fs, a) + b
    decreases |fs|
  {
    if fs != [] {
      FieldsSplit(fs[1..], a, b);
      assert FieldText(fs[0]) + "," + (Fields(fs[1..], a) + b) == FieldText(fs[0]) + "," + Fields(fs[1..], a) + b;
    }
  }

  /** The first field of a name is the one found. */
  lemma FindField(fs: seq<Field>, i: nat, rest: string)
    requires i < |fs| && Clean(fs[i]) && Without(fs[..i], fs[i].name)
    ensures var more := "," + Fields(fs[i + 1..], rest);
      var f := fs[i];
      && (f.Raw? ==> After(Fields(fs, rest), Quoted(f.name, ":")) == Some(f.value + more))
      && (f.Text? ==> After(Fields(fs, rest), Quoted(f.name, ":\"")) == Some(f.value + "\"" + more))
  {
    var f, more := fs[i], "," + Fields(fs[i + 1..], rest);
    assert fs == fs[..i] + fs[i..];
    FieldsAppend(fs[..i], fs[i..], rest);
    assert fs[i..][0] == f && fs[i..][1..] == fs[i + 1..];
    var here := Fields(fs[i..], rest);
    assert here == FieldText(f) + more;
    if f.Raw? {
      SkipFields(fs[..i], here, f.name, ":");
      FoundRaw(f.name, f.value, more);
    } else {
      SkipFields(fs[..i], here, f.name, ":\"");
      FoundText(f.name, f.value, more);
    }
  }
}

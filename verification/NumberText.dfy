/** Numbers and number lists in manifest text: printing, and reading the way strtoull does. */
module NumberText {
  import opened Prelude

  const ULL: nat := 0x1_0000_0000_0000_0000
  const MAX_ENTRIES: nat := 1000000

  // ---- printing ----

  function Digit(d: nat): (c: char)
    requires d < 10
    ensures IsDigit(c) && DigitValue(c) == d
  {
    "0123456789"[d]
  }

  function Decimal(n: nat): (s: string)
    ensures s != ""
  {
    if n < 10 then [Digit(n)] else Decimal(n / 10) + [Digit(n % 10)]
  }

  /** A list from behind its opening bracket. */
  function ListBody(vs: seq<nat>): string {
    if vs == [] then "]"
    else if |vs| == 1 then Decimal(vs[0]) + "]"
    else Decimal(vs[0]) + "," + ListBody(vs[1..])
  }

  // ---- reading ----

  predicate IsDigit(c: char) {
    '0' <= c <= '9'
  }

  predicate IsSpace(c: char) {
    c == ' ' || c == '\t' || c == '\n' || c == '\U{0B}' || c == '\U{0C}' || c == '\r'
  }

  predicate IsBlank(c: char) {
    c == ' ' || c == '\t'
  }

  function SkipSpace(s: string): (r: string)
    ensures |r| <= |s|
  {
    if s != "" && IsSpace(s[0]) then SkipSpace(s[1..]) else s
  }

  function SkipBlanks(s: string): (r: string)
    ensures |r| <= |s|
  {
    if s != "" && IsBlank(s[0]) then SkipBlanks(s[1..]) else s
  }

  function DigitCount(s: string): (n: nat)
    ensures n <= |s| && forall i :: 0 <= i < n ==> IsDigit(s[i])
  {
    if s == "" || !IsDigit(s[0]) then 0 else 1 + DigitCount(s[1..])
  }

  function DigitValue(c: char): nat {
    if c == '0' then 0 else if c == '1' then 1 else if c == '2' then 2 else if c == '3' then 3 else if c == '4' then 4
    else if c == '5' then 5 else if c == '6' then 6 else if c == '7' then 7 else if c == '8' then 8 else 9
  }

  function Value(s: string): nat {
    if s == "" then 0 else 10 * Value(s[..|s| - 1]) + DigitValue(s[|s| - 1])
  }

  /** Spaces, a sign, digits; a value of 2^64 or more is refused, and a minus sign wraps around. */
  function StrToUll(s: string): (r: Option<(nat, string)>)
    ensures r.Some? ==> r.value.0 < ULL && |r.value.1| < |s|
  {
    var s1 := SkipSpace(s);
    var signed := s1 != "" && (s1[0] == '+' || s1[0] == '-');
    var s2 := if signed then s1[1..] else s1;
    var n := DigitCount(s2);
    var v := Value(s2[..n]);
    if n == 0 || v >= ULL then None
    else Some((if signed && s1[0] == '-' then if v == 0 then 0 else ULL - v else v, s2[n..]))
  }

  /** A number of the manifest: blanks are skipped and a minus sign is refused. */
  function ReadNumber(s: string): (r: Option<(nat, string)>)
    ensures r.Some? ==> r.value.0 < ULL && |r.value.1| < |s|
  {
    var s1 := SkipBlanks(s);
    if s1 != "" && s1[0] == '-' then None else StrToUll(s1)
  }

  /** Numbers up to the closing bracket; a comma may come before it. */
  function ReadValues(s: string): (r: Option<(seq<nat>, string)>)
    ensures r.Some? ==> |r.value.1| < |s|
    decreases |s|
  {
    var s1 := SkipBlanks(s);
    if s1 != "" && s1[0] == ']' then Some(([], s1[1..]))
    else
      var number := ReadNumber(s1);
      if number.None? then None
      else
        var s2 := SkipBlanks(number.value.1);
        if s2 != "" && s2[0] == ']' then Some(([number.value.0], s2[1..]))
        else if s2 != "" && s2[0] == ',' then
          var more := ReadValues(s2[1..]);
          if more.None? then None else Some(([number.value.0] + more.value.0, more.value.1))
        else None
  }

  function Capped(r: Option<(seq<nat>, string)>): Option<(seq<nat>, string)> {
    if r.Some? && |r.value.0| > MAX_ENTRIES then None else r
  }

  /** A list from behind its opening bracket. */
  function ReadList(s: string): (r: Option<(seq<nat>, string)>)
    ensures r.Some? ==> |r.value.1| < |s| && |r.value.0| <= MAX_ENTRIES
  {
    Capped(ReadValues(s))
  }

  // ---- the loop ----

  /** The final result from the values read so far and the text ahead. */
  ghost function Outcome(p: string, values: seq<nat>): Option<(seq<nat>, string)> {
    Capped(Behind(values, ReadValues(p)))
  }

  /** One turn of the loop, which gives up as soon as there are too many values. */
  lemma Turn(p: string, values: seq<nat>)
    requires |values| <= MAX_ENTRIES
    ensures var s := SkipBlanks(p);
      Outcome(p, values) ==
        if s != "" && s[0] == ']' then Some((values, s[1..]))
        else
          var number := ReadNumber(s);
          if number.None? || |values| >= MAX_ENTRIES then None
          else
            var next := SkipBlanks(number.value.1);
            if next != "" && next[0] == ']' then Some((values + [number.value.0], next[1..]))
            else if next == "" || next[0] != ',' then None
            else Outcome(next[1..], values + [number.value.0])
  {
    var s := SkipBlanks(p);
    assert values + [] == values;
    if (s == "" || s[0] != ']') && ReadNumber(s).Some? {
      var next := SkipBlanks(ReadNumber(s).value.1);
      if next != "" && next[0] == ',' {
        MoreBehind(values, ReadNumber(s).value.0, ReadValues(next[1..]));
      }
    }
  }

  lemma Start(s: string)
    ensures Outcome(s, []) == ReadList(s)
  {
    NoneBehind(ReadValues(s));
  }

  /** The reader's loop. */
  method ParseList(s: string) returns (r: Option<(seq<nat>, string)>)
    ensures r == ReadList(s)
  {
    Start(s);
    ghost var all := Outcome(s, []);
    var p := s;
    var values: seq<nat> := [];
    while true
      invariant |values| <= MAX_ENTRIES && Outcome(p, values) == all
      decreases |p|
    {
      Turn(p, values);
      p := SkipBlanks(p);
      if p != "" && p[0] == ']' {
        return Some((values, p[1..]));
      }
      var number := ReadNumber(p);
      if number.None? || |values| >= MAX_ENTRIES {
        return None;
      }
      p := SkipBlanks(number.value.1);
      values := values + [number.value.0];
      if p != "" && p[0] == ']' {
        return Some((values, p[1..]));
      }
      if p == "" || p[0] != ',' {
        return None;
      }
      p := p[1..];
    }
  }

  // ---- reading what was printed ----

  lemma {:induction false} DecimalDigits(n: nat)
    ensures forall i :: 0 <= i < |Decimal(n)| ==> IsDigit(Decimal(n)[i])
  {
    if n >= 10 {
      DecimalDigits(n / 10);
    }
  }

  lemma {:induction false} DecimalValue(n: nat)
    ensures Value(Decimal(n)) == n
  {
    if n < 10 {
      assert [Digit(n)][..0] == "";
    } else {
      DecimalValue(n / 10);
      assert (Decimal(n / 10) + [Digit(n % 10)])[..|Decimal(n / 10)|] == Decimal(n / 10);
    }
  }

  predicate NoDigit(rest: string) {
    rest == "" || !IsDigit(rest[0])
  }

  lemma {:induction false} CountDigits(ds: string, rest: string)
    requires (forall i :: 0 <= i < |ds| ==> IsDigit(ds[i])) && NoDigit(rest)
    ensures DigitCount(ds + rest) == |ds|
    decreases |ds|
  {
    if ds == "" {
      assert ds + rest == rest;
    } else {
      assert (ds + rest)[1..] == ds[1..] + rest;
      CountDigits(ds[1..], rest);
    }
  }

  /** A printed number is read back, and reading stops behind it. */
  lemma NumberRoundTrip(n: nat, rest: string)
    requires n < ULL && NoDigit(rest)
    ensures ReadNumber(Decimal(n) + rest) == Some((n, rest))
  {
    var ds := Decimal(n);
    var s := ds + rest;
    DecimalDigits(n);
    assert s[0] == ds[0] && IsDigit(s[0]);
    assert SkipBlanks(s) == s && SkipSpace(s) == s;
    CountDigits(ds, rest);
    DecimalValue(n);
    assert s[..|ds|] == ds && s[|ds|..] == rest;
  }

  /** The last entry of a list. */
  lemma ReadLast(s: string, v: nat, rest: string)
    requires s != "" && IsDigit(s[0]) && ReadNumber(s) == Some((v, "]" + rest))
    ensures ReadValues(s) == Some(([v], rest))
  {
    var end := "]" + rest;
    assert SkipBlanks(s) == s && s[0] != ']';
    assert end[0] == ']' && end[1..] == rest;
    assert SkipBlanks(end) == end;
  }

  /** An entry with more to come. */
  lemma ReadNext(s: string, v: nat, more: string, vs: seq<nat>, rest: string)
    requires s != "" && IsDigit(s[0]) && ReadNumber(s) == Some((v, "," + more)) && ReadValues(more) == Some((vs, rest))
    ensures ReadValues(s) == Some(([v] + vs, rest))
  {
    assert SkipBlanks(s) == s;
    assert ("," + more)[0] == ',' && ("," + more)[1..] == more;
  }

  lemma DigitFirst(n: nat, rest: string)
    ensures Decimal(n) + rest != "" && IsDigit((Decimal(n) + rest)[0])
  {
    DecimalDigits(n);
    assert (Decimal(n) + rest)[0] == Decimal(n)[0];
  }

  lemma ListLast(v: nat, rest: string)
    requires v < ULL
    ensures ReadValues(Decimal(v) + ("]" + rest)) == Some(([v], rest))
  {
    NumberRoundTrip(v, "]" + rest);
    DigitFirst(v, "]" + rest);
    ReadLast(Decimal(v) + ("]" + rest), v, rest);
  }

  lemma ListNext(v: nat, more: string, vs: seq<nat>, rest: string)
    requires v < ULL && ReadValues(more) == Some((vs, rest))
    ensures ReadValues(Decimal(v) + ("," + more)) == Some(([v] + vs, rest))
  {
    NumberRoundTrip(v, "," + more);
    DigitFirst(v, "," + more);
    ReadNext(Decimal(v) + ("," + more), v, more, vs, rest);
  }

  lemma Regroup(a: string, b: string, c: string)
    ensures a + b + c == a + (b + c)
  {
  }

  lemma BodyLast(vs: seq<nat>, rest: string)
    requires |vs| == 1
    ensures ListBody(vs) + rest == Decimal(vs[0]) + ("]" + rest) && vs == [vs[0]]
  {
    Regroup(Decimal(vs[0]), "]", rest);
  }

  lemma BodyNext(vs: seq<nat>, rest: string)
    requires |vs| > 1
    ensures ListBody(vs) + rest == Decimal(vs[0]) + ("," + (ListBody(vs[1..]) + rest)) && vs == [vs[0]] + vs[1..]
  {
    var a, b := Decimal(vs[0]), ListBody(vs[1..]);
    Regroup(a + ",", b, rest);
    Regroup(a, ",", b + rest);
  }

  lemma TripLast(vs: seq<nat>, rest: string)
    requires |vs| == 1 && vs[0] < ULL
    ensures ReadValues(ListBody(vs) + rest) == Some((vs, rest))
  {
    BodyLast(vs, rest);
    ListLast(vs[0], rest);
  }

  lemma TripNext(vs: seq<nat>, rest: string)
    requires |vs| > 1 && vs[0] < ULL && ReadValues(ListBody(vs[1..]) + rest) == Some((vs[1..], rest))
    ensures ReadValues(ListBody(vs) + rest) == Some((vs, rest))
  {
    BodyNext(vs, rest);
    ListNext(vs[0], ListBody(vs[1..]) + rest, vs[1..], rest);
  }

  lemma {:induction false} ValuesRoundTrip(vs: seq<nat>, rest: string)
    requires forall i :: 0 <= i < |vs| ==> vs[i] < ULL
    ensures ReadValues(ListBody(vs) + rest) == Some((vs, rest))
    decreases |vs|
  {
    if vs == [] {
      assert ("]" + rest)[1..] == rest;
    } else if |vs| == 1 {
      TripLast(vs, rest);
    } else {
      ValuesRoundTrip(vs[1..], rest);
      TripNext(vs, rest);
    }
  }

  /** A printed list is read back exactly if it has no more entries than a list may have. */
  lemma ListRoundTrip(vs: seq<nat>, rest: string)
    requires forall i :: 0 <= i < |vs| ==> vs[i] < ULL
    ensures ReadList(ListBody(vs) + rest) == if |vs| <= MAX_ENTRIES then Some((vs, rest)) else None
  {
    ValuesRoundTrip(vs, rest);
  }

  // ---- what can be read at all ----

  lemma {:induction false} ValuesRead(s: string)
    requires ReadValues(s).Some?
    ensures forall i :: 0 <= i < |ReadValues(s).value.0| ==> ReadValues(s).value.0[i] < ULL
    decreases |s|
  {
    var s1 := SkipBlanks(s);
    if s1 != "" && s1[0] != ']' {
      var s2 := SkipBlanks(ReadNumber(s1).value.1);
      if s2[0] == ',' {
        ValuesRead(s2[1..]);
      }
    }
  }

  /**
   A number with a minus sign is read exactly if white space other than blanks comes before the sign,
   and digits of a value below 2^64 after it; what is read is then the value's complement.
   */
  lemma MinusRead(s: string)
    requires SkipSpace(SkipBlanks(s)) != "" && SkipSpace(SkipBlanks(s))[0] == '-'
    ensures var digits := SkipSpace(SkipBlanks(s))[1..];
      var v := Value(digits[..DigitCount(digits)]);
      && (ReadNumber(s).Some? <==> SkipBlanks(s)[0] != '-' && DigitCount(digits) > 0 && v < ULL)
      && (ReadNumber(s).Some? ==> ReadNumber(s).value.0 == (ULL - v) % ULL)
  {
  }

  /** A line feed before "-1" is enough for 2^64 - 1 to be read. */
  lemma MinusOne()
    ensures ReadNumber("\n-1") == Some((ULL - 1, ""))
  {
    var s := "\n-1";
    assert SkipBlanks(s) == s;
    assert s[1..] == "-1" && SkipSpace(s) == "-1";
    var digits := "-1"[1..];
    assert digits == "1" && digits[1..] == "";
    assert DigitCount(digits) == 1;
    assert digits[..1] == "1" && "1"[..0] == "";
    assert Value("1") == 1;
    assert digits[1..] == "";
  }
}

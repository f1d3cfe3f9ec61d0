/**
 One bit per page of the local image, with a running count of the set bits.
 Pages are numbered from one.
 */
module PageBitmap {

  /** The byte whose only set bit is bit k. */
  function Mask(k: nat): bv8
    requires k < 8
  {
    if k == 0 then 1 else if k == 1 then 2 else if k == 2 then 4 else if k == 3 then 8
    else if k == 4 then 16 else if k == 5 then 32 else if k == 6 then 64 else 128
  }

  predicate BitSet(b: bv8, k: nat)
    requires k < 8
  {
    b & Mask(k) != 0
  }

  lemma SetOneBit(b: bv8, k: nat, j: nat)
    requires k < 8 && j < 8
    ensures BitSet(b | Mask(k), j) <==> j == k || BitSet(b, j)
  {
  }

  lemma ClearOneBit(b: bv8, k: nat, j: nat)
    requires k < 8 && j < 8
    ensures BitSet(b & !Mask(k), j) <==> j != k && BitSet(b, j)
  {
  }

  lemma AllBits(k: nat)
    requires k < 8
    ensures BitSet(0xff, k) && !BitSet(0, k)
  {
  }

  // ---- the bit array ----

  predicate Has(bits: seq<bv8>, p: nat)
    requires 1 <= p <= 8 * |bits|
  {
    BitSet(bits[(p - 1) / 8], (p - 1) % 8)
  }

  function With(bits: seq<bv8>, p: nat): seq<bv8>
    requires 1 <= p <= 8 * |bits|
  {
    bits[(p - 1) / 8 := bits[(p - 1) / 8] | Mask((p - 1) % 8)]
  }

  function Without(bits: seq<bv8>, p: nat): seq<bv8>
    requires 1 <= p <= 8 * |bits|
  {
    bits[(p - 1) / 8 := bits[(p - 1) / 8] & !Mask((p - 1) % 8)]
  }

  lemma WithAt(bits: seq<bv8>, p: nat, q: nat)
    requires 1 <= p <= 8 * |bits| && 1 <= q <= 8 * |bits|
    ensures Has(With(bits, p), q) <==> q == p || Has(bits, q)
  {
    if (p - 1) / 8 == (q - 1) / 8 {
      SetOneBit(bits[(p - 1) / 8], (p - 1) % 8, (q - 1) % 8);
    }
  }

  lemma WithoutAt(bits: seq<bv8>, p: nat, q: nat)
    requires 1 <= p <= 8 * |bits| && 1 <= q <= 8 * |bits|
    ensures Has(Without(bits, p), q) <==> q != p && Has(bits, q)
  {
    if (p - 1) / 8 == (q - 1) / 8 {
      ClearOneBit(bits[(p - 1) / 8], (p - 1) % 8, (q - 1) % 8);
    }
  }

  /** The set pages of a bit array. */
  ghost function PagesIn(bits: seq<bv8>, pages: nat): set<nat>
    requires pages <= 8 * |bits|
  {
    set p: nat | 1 <= p <= pages && Has(bits, p)
  }

  lemma WithPages(bits: seq<bv8>, pages: nat, p: nat)
    requires 1 <= p <= pages <= 8 * |bits|
    ensures PagesIn(With(bits, p), pages) == PagesIn(bits, pages) + {p}
  {
    forall q: nat | 1 <= q <= pages
      ensures q in PagesIn(With(bits, p), pages) <==> q in PagesIn(bits, pages) || q == p
    {
      WithAt(bits, p, q);
    }
  }

  lemma WithoutPages(bits: seq<bv8>, pages: nat, p: nat)
    requires 1 <= p <= pages <= 8 * |bits|
    ensures PagesIn(Without(bits, p), pages) == PagesIn(bits, pages) - {p}
  {
    forall q: nat | 1 <= q <= pages
      ensures q in PagesIn(Without(bits, p), pages) <==> q in PagesIn(bits, pages) && q != p
    {
      WithoutAt(bits, p, q);
    }
  }

  /** The pages 1 to n. */
  ghost function UpTo(n: nat): (s: set<nat>)
    ensures |s| == n
    ensures forall p :: p in s <==> 1 <= p <= n
  {
    if n == 0 then {} else UpTo(n - 1) + {n}
  }

  /** The pages of a set outside a range, its end not included. */
  ghost function Outside(s: set<nat>, first: nat, end: nat): set<nat> {
    set p | p in s && !(first <= p < end)
  }

  lemma OutsideNone(s: set<nat>, first: nat, start: nat)
    requires 0 !in s && (start == first || (first == 0 && start == 1))
    ensures Outside(s, first, start) == s
  {
  }

  lemma OutsideMore(s: set<nat>, first: nat, p: nat)
    requires first <= p
    ensures Outside(s, first, p) - {p} == Outside(s, first, p + 1)
  {
  }

  lemma OutsideAll(s: set<nat>, first: nat, p: nat, last: nat, pages: nat)
    requires (forall q :: q in s ==> 1 <= q <= pages) && (p <= last + 1 || p <= first || (first == 0 && p == 1)) &&
      (p > last || p > pages)
    ensures Outside(s, first, p) == Outside(s, first, last + 1)
  {
  }

  /** A set and the pages of a database in a range, the range's end not included. */
  ghost function Including(s: set<nat>, pages: nat, first: nat, end: nat): set<nat> {
    s + set p | p in UpTo(pages) && first <= p < end
  }

  lemma IncludingNone(s: set<nat>, pages: nat, first: nat, start: nat)
    requires start == first || (first == 0 && start == 1)
    ensures Including(s, pages, first, start) == s
  {
  }

  lemma IncludingMore(s: set<nat>, pages: nat, first: nat, p: nat)
    requires first <= p
    ensures Including(s, pages, first, p + 1) ==
      if 1 <= p <= pages then Including(s, pages, first, p) + {p} else Including(s, pages, first, p)
  {
  }

  lemma IncludingAll(s: set<nat>, pages: nat, first: nat, p: nat, last: nat)
    requires p > last && (p == last + 1 || p <= first || (first == 0 && p == 1))
    ensures Including(s, pages, first, p) == Including(s, pages, first, last + 1)
  {
  }

  const UINT32: nat := 0x1_0000_0000

  /** A 32-bit counter. */
  function Next(p: nat): nat {
    (p + 1) % UINT32
  }

  lemma NextBelow(p: nat)
    requires p < UINT32 - 1
    ensures Next(p) == p + 1
  {
  }

  /** The counter after n turns. */
  ghost function After(p: nat, n: nat): nat {
    if n == 0 then p else Next(After(p, n - 1))
  }

  lemma NextOf(x: nat)
    ensures Next(x % UINT32) == (x + 1) % UINT32
  {
  }

  lemma {:induction false} AfterTurns(p: nat, n: nat)
    requires p < UINT32
    ensures After(p, n) == (p + n) % UINT32
  {
    if n > 0 {
      AfterTurns(p, n - 1);
      NextOf(p + n - 1);
    }
  }

  /** The loop over a range comes to its end if and only if the range does not reach the last 32-bit number. */
  lemma RangeLoopEnds(first: nat, last: nat)
    requires first < UINT32 && last < UINT32
    ensures (exists n: nat :: After(first, n) > last) <==> last < UINT32 - 1
  {
    if last < UINT32 - 1 {
      var n := if first > last then 0 else last + 1 - first;
      AfterTurns(first, n);
      assert After(first, n) > last;
    } else {
      forall n: nat
        ensures After(first, n) <= last
      {
        AfterTurns(first, n);
      }
    }
  }

  class Bitmap {
    const pages: nat
    const bits: array<bv8>
    var marked: nat

    ghost function Marked(): (s: set<nat>)
      requires pages <= 8 * bits.Length
      reads bits
    {
      PagesIn(bits[..], pages)
    }

    /** The count is the number of set bits. */
    ghost predicate Valid()
      reads this, bits
    {
      pages <= 8 * bits.Length && marked == |Marked()|
    }

    constructor (pages: nat)
      ensures Valid() && this.pages == pages && Marked() == {} && fresh(bits)
    {
      this.pages := pages;
      bits := new bv8[(pages + 7) / 8](_ => 0);
      marked := 0;
      new;
      forall k | 0 <= k < 8 ensures !BitSet(0, k) {
        AllBits(k);
      }
      assert Marked() == {};
    }

    method SetBit(p: nat) returns (changed: bool)
      requires 1 <= p <= 8 * bits.Length
      modifies bits
      ensures changed <==> !old(Has(bits[..], p))
      ensures bits[..] == if changed then With(old(bits[..]), p) else old(bits[..])
    {
      var i, k := (p - 1) / 8, (p - 1) % 8;
      changed := !BitSet(bits[i], k);
      if changed {
        bits[i] := bits[i] | Mask(k);
      }
    }

    method ClearBit(p: nat) returns (changed: bool)
      requires 1 <= p <= 8 * bits.Length
      modifies bits
      ensures changed <==> old(Has(bits[..], p))
      ensures bits[..] == if changed then Without(old(bits[..]), p) else old(bits[..])
    {
      var i, k := (p - 1) / 8, (p - 1) % 8;
      changed := BitSet(bits[i], k);
      if changed {
        bits[i] := bits[i] & !Mask(k);
      }
    }

    method Set(p: nat)
      requires Valid()
      modifies this, bits
      ensures Valid() && Marked() == if 1 <= p <= pages then old(Marked()) + {p} else old(Marked())
    {
      if p == 0 || p > pages {
        return;
      }
      WithPages(bits[..], pages, p);
      var changed := SetBit(p);
      if changed {
        marked := marked + 1;
      }
    }

    method Get(p: nat) returns (yes: bool)
      requires Valid()
      ensures yes <==> p in Marked()
    {
      yes := 1 <= p <= pages && BitSet(bits[(p - 1) / 8], (p - 1) % 8);
    }

    method Clear(p: nat)
      requires Valid() && 1 <= p <= pages
      modifies this, bits
      ensures Valid() && Marked() == old(Marked()) - {p}
    {
      WithoutPages(bits[..], pages, p);
      var changed := ClearBit(p);
      if changed {
        assert p in old(Marked());
        marked := marked - 1;
      }
    }

    method ClearRange(first: nat, last: nat)
      requires Valid()
      modifies this, bits
      ensures Valid() && Marked() == Outside(old(Marked()), first, last + 1)
    {
      ghost var was := Marked();
      assert forall q :: q in was ==> 1 <= q <= pages;
      var start := if first == 0 then 1 else first;
      var end := if last > pages then pages else last;
      var p := start;
      OutsideNone(was, first, start);
      while p <= end
        invariant Valid() && start <= p && (p == start || p <= end + 1)
        invariant Marked() == Outside(was, first, p)
      {
        OutsideMore(was, first, p);
        Clear(p);
        p := p + 1;
      }
      OutsideAll(was, first, p, last, pages);
    }

    method SetNext(ghost was: set<nat>, ghost first: nat, p: nat)
      requires Valid() && first <= p && Marked() == Including(was, pages, first, p)
      modifies this, bits
      ensures Valid() && Marked() == Including(was, pages, first, p + 1)
    {
      IncludingMore(was, pages, first, p);
      Set(p);
    }

    /** The pages of a range that SQLite wrote; the loop counts in 32 bits. */
    method SetRange(first: nat, last: nat)
      requires Valid() && first < UINT32 && last < UINT32 - 1
      modifies this, bits
      ensures Valid() && Marked() == Including(old(Marked()), pages, first, last + 1)
    {
      ghost var was := Marked();
      var start := if first == 0 then 1 else first;
      var p := start;
      IncludingNone(was, pages, first, start);
      while p <= last
        invariant Valid() && start <= p < UINT32 && (p == start || p <= last + 1)
        invariant Marked() == Including(was, pages, first, p)
        decreases last + 1 - p
      {
        SetNext(was, first, p);
        NextBelow(p);
        p := Next(p);
      }
      IncludingAll(was, pages, first, p, last);
    }

    method MarkAll()
      requires Valid()
      modifies this, bits
      ensures Valid() && Marked() == UpTo(pages)
    {
      var i := 0;
      while i < bits.Length
        invariant 0 <= i <= bits.Length
        invariant forall j :: 0 <= j < i ==> bits[j] == 0xff
      {
        bits[i] := 0xff;
        i := i + 1;
      }
      marked := pages;
      forall k | 0 <= k < 8 ensures BitSet(0xff, k) {
        AllBits(k);
      }
      assert Marked() == UpTo(pages);
    }
  }
}

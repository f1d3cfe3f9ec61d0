/**
 Multiplication in GF(2^128) as GCM uses it. A block is 128 bits, leftmost bit first; the
 definition of the product is that of section 6.3 of NIST SP 800-38D.
 */
module GaloisField {

  function Falses(n: nat): (s: seq<bool>)
    ensures |s| == n && forall i :: 0 <= i < n ==> !s[i]
  {
    if n == 0 then [] else Falses(n - 1) + [false]
  }

  type Block = b: seq<bool> | |b| == 128 witness Falses(128)

  const ZERO: Block := Falses(128)

  /** 11100001 and 120 zeros. */
  const R: Block := [true, true, true, false, false, false, false, true] + Falses(120)

  function Xor(x: Block, y: Block): Block {
    seq(128, i requires 0 <= i < 128 => x[i] != y[i])
  }

  function ShiftRight(v: Block): Block {
    [false] + v[..127]
  }

  /** One step of the second operand: shift right, and reduce if a bit falls out. */
  function Double(v: Block): Block {
    if v[127] then Xor(ShiftRight(v), R) else ShiftRight(v)
  }

  function Doubled(v: Block, n: nat): Block {
    if n == 0 then v else Double(Doubled(v, n - 1))
  }

  /** The first n bits of x select which doublings of y to add up. */
  function Partial(x: Block, y: Block, n: nat): Block
    requires n <= 128
  {
    if n == 0 then ZERO
    else if x[n - 1] then Xor(Partial(x, y, n - 1), Doubled(y, n - 1))
    else Partial(x, y, n - 1)
  }

  /** The product. */
  function Times(x: Block, y: Block): Block {
    Partial(x, y, 128)
  }

  // ---- linearity ----

  lemma XorLaws(x: Block, y: Block, z: Block)
    ensures Xor(x, y) == Xor(y, x)
    ensures Xor(Xor(x, y), z) == Xor(x, Xor(y, z))
    ensures Xor(x, ZERO) == x && Xor(ZERO, x) == x && Xor(x, x) == ZERO
  {
  }

  /** (a + b) + (c + d) == (a + c) + (b + d). */
  lemma XorShuffle(a: Block, b: Block, c: Block, d: Block)
    ensures Xor(Xor(a, b), Xor(c, d)) == Xor(Xor(a, c), Xor(b, d))
  {
  }

  lemma DoubleLinear(x: Block, y: Block)
    ensures Double(Xor(x, y)) == Xor(Double(x), Double(y))
  {
    assert ShiftRight(Xor(x, y)) == Xor(ShiftRight(x), ShiftRight(y));
  }

  lemma {:induction false} DoubledLinear(x: Block, y: Block, n: nat)
    ensures Doubled(Xor(x, y), n) == Xor(Doubled(x, n), Doubled(y, n))
  {
    if n > 0 {
      DoubledLinear(x, y, n - 1);
      DoubleLinear(Doubled(x, n - 1), Doubled(y, n - 1));
    }
  }

  lemma {:induction false} PartialLinearRight(x: Block, y: Block, z: Block, n: nat)
    requires n <= 128
    ensures Partial(x, Xor(y, z), n) == Xor(Partial(x, y, n), Partial(x, z, n))
  {
    if n == 0 {
      XorLaws(ZERO, ZERO, ZERO);
    } else {
      PartialLinearRight(x, y, z, n - 1);
      DoubledLinear(y, z, n - 1);
      XorShuffle(Partial(x, y, n - 1), Partial(x, z, n - 1), Doubled(y, n - 1), Doubled(z, n - 1));
    }
  }

  lemma {:induction false} PartialLinearLeft(x: Block, y: Block, z: Block, n: nat)
    requires n <= 128
    ensures Partial(Xor(x, y), z, n) == Xor(Partial(x, z, n), Partial(y, z, n))
  {
    if n == 0 {
      XorLaws(ZERO, ZERO, ZERO);
    } else {
      PartialLinearLeft(x, y, z, n - 1);
      var p, q, d := Partial(x, z, n - 1), Partial(y, z, n - 1), Doubled(z, n - 1);
      XorShuffle(p, q, d, d);
      XorLaws(p, q, d);
      XorLaws(p, d, q);
      XorLaws(d, d, d);
      XorLaws(Xor(p, q), d, d);
    }
  }

  /** The product is linear over XOR in each operand. */
  lemma TimesLinear(x: Block, y: Block, z: Block)
    ensures Times(Xor(x, y), z) == Xor(Times(x, z), Times(y, z))
    ensures Times(x, Xor(y, z)) == Xor(Times(x, y), Times(x, z))
  {
    PartialLinearLeft(x, y, z, 128);
    PartialLinearRight(x, y, z, 128);
  }

  // ---- the product commutes ----

  const ONE: Block := [true] + Falses(127)

  lemma {:induction false} OneDoubled(n: nat)
    requires n < 128
    ensures forall i :: 0 <= i < 128 ==> (Doubled(ONE, n)[i] <==> i == n)
  {
    if n > 0 {
      OneDoubled(n - 1);
    }
  }

  lemma {:induction false} PartialOne(x: Block, n: nat)
    requires n <= 128
    ensures forall i :: 0 <= i < 128 ==> (Partial(x, ONE, n)[i] <==> i < n && x[i])
  {
    if n > 0 {
      PartialOne(x, n - 1);
      OneDoubled(n - 1);
    }
  }

  /** The leftmost bit alone is the unit. */
  lemma TimesOne(x: Block)
    ensures Times(x, ONE) == x
  {
    PartialOne(x, 128);
  }

  lemma {:induction false} DoubledSum(v: Block, m: nat, n: nat)
    ensures Doubled(Doubled(v, m), n) == Doubled(v, m + n)
  {
    if n > 0 {
      DoubledSum(v, m, n - 1);
    }
  }

  lemma {:induction false} DoubledZero(n: nat)
    ensures Doubled(ZERO, n) == ZERO
  {
    if n > 0 {
      DoubledZero(n - 1);
      assert ShiftRight(ZERO) == ZERO;
    }
  }

  lemma {:induction false} PartialZero(x: Block, n: nat)
    requires n <= 128
    ensures Partial(x, ZERO, n) == ZERO
  {
    if n > 0 {
      PartialZero(x, n - 1);
      DoubledZero(n - 1);
      XorLaws(ZERO, ZERO, ZERO);
    }
  }

  /** Doubling passes through a product. */
  lemma {:induction false} DoubledPartial(y: Block, v: Block, m: nat, n: nat)
    requires m <= 128
    ensures Doubled(Partial(y, v, m), n) == Partial(y, Doubled(v, n), m)
  {
    if m == 0 {
      DoubledZero(n);
    } else {
      DoubledPartial(y, v, m - 1, n);
      DoubledLinear(Partial(y, v, m - 1), Doubled(v, m - 1), n);
      DoubledSum(v, m - 1, n);
      DoubledSum(v, n, m - 1);
    }
  }

  lemma {:induction false} Swap(x: Block, y: Block, n: nat, m: nat)
    requires n <= 128 && m <= 128
    ensures Partial(x, Partial(y, ONE, m), n) == Partial(y, Partial(x, ONE, n), m)
  {
    if n == 0 {
      PartialZero(y, m);
    } else {
      Swap(x, y, n - 1, m);
      PartialLinearRight(y, Partial(x, ONE, n - 1), Doubled(ONE, n - 1), m);
      DoubledPartial(y, ONE, m, n - 1);
    }
  }

  /** Which operand gives the bits and which is doubled does not matter. */
  lemma TimesCommutes(x: Block, y: Block)
    ensures Times(x, y) == Times(y, x)
  {
    Swap(x, y, 128, 128);
    TimesOne(x);
    TimesOne(y);
  }

  lemma {:induction false} PartialThrough(x: Block, y: Block, z: Block, n: nat)
    requires n <= 128
    ensures Partial(x, Times(y, z), n) == Times(y, Partial(x, z, n))
  {
    if n == 0 {
      PartialZero(y, 128);
    } else {
      PartialThrough(x, y, z, n - 1);
      PartialLinearRight(y, Partial(x, z, n - 1), Doubled(z, n - 1), 128);
      DoubledPartial(y, z, 128, n - 1);
    }
  }

  lemma TimesAssociates(x: Block, y: Block, z: Block)
    ensures Times(Times(x, y), z) == Times(x, Times(y, z))
  {
    TimesCommutes(Times(x, y), z);
    PartialThrough(z, x, y, 128);
    TimesCommutes(z, y);
  }

  // ---- the loop ----

  /** Multiply by the bits of y, first bit first, doubling x. */
  method Multiply(x: Block, y: Block) returns (z: Block)
    ensures z == Times(x, y)
  {
    var v := x;
    z := ZERO;
    for i := 0 to 128
      invariant z == Partial(y, x, i) && v == Doubled(x, i)
    {
      if y[i] {
        z := Xor(z, v);
      }
      var fallen := v[127];
      v := ShiftRight(v);
      if fallen {
        v := Xor(v, R);
      }
    }
    TimesCommutes(x, y);
  }
}

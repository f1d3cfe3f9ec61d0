/**
 What the product of GaloisField is: blocks are polynomials over GF(2), bit k being the coefficient of
 the k-th power, and the product of two blocks is the remainder of their polynomial product by
 1 + x + x^2 + x^7 + x^128, the polynomial of section 6.3 of NIST SP 800-38D.
 */
module FieldPolynomials {
  import opened GaloisField

  /** The coefficient of a power; a polynomial has none beyond its bits. */
  function Coefficient(p: seq<bool>, k: int): bool {
    0 <= k < |p| && p[k]
  }

  /** The sum, over the first n powers of a, of what they contribute to the k-th power of the product. */
  function Sum(a: seq<bool>, b: seq<bool>, k: int, n: nat): bool {
    if n == 0 then false else Sum(a, b, k, n - 1) != (Coefficient(a, n - 1) && Coefficient(b, k - (n - 1)))
  }

  /** The coefficient of the k-th power in the product of two polynomials. */
  function ProductAt(a: seq<bool>, b: seq<bool>, k: int): bool {
    Sum(a, b, k, |a|)
  }

  /** 1 + x + x^2 + x^7 + x^128. */
  function Modulus(): (m: seq<bool>)
    ensures |m| == 129 && forall i :: 0 <= i < 129 ==> (m[i] <==> i in {0, 1, 2, 7, 128})
  {
    seq(129, i requires 0 <= i < 129 => i in {0, 1, 2, 7, 128})
  }

  /** z is a remainder of x times y: the product and z differ by q times the modulus. */
  ghost predicate Remainder(x: Block, y: Block, z: Block, q: Block) {
    forall k: int :: ProductAt(x, y, k) == (Coefficient(z, k) != ProductAt(q, Modulus(), k))
  }

  // ---- sums ----

  lemma {:induction false} SumFront(c: bool, q: seq<bool>, b: seq<bool>, k: int, n: nat)
    requires n <= |q|
    ensures Sum([c] + q, b, k, n + 1) == ((c && Coefficient(b, k)) != Sum(q, b, k - 1, n))
  {
    if n == 0 {
      assert Sum([c] + q, b, k, 1) == (Sum([c] + q, b, k, 0) != (Coefficient([c] + q, 0) && Coefficient(b, k - 0)));
    } else {
      SumFront(c, q, b, k, n - 1);
      assert Coefficient([c] + q, n) == Coefficient(q, n - 1);
    }
  }

  lemma {:induction false} SumLinear(a: Block, c: Block, b: seq<bool>, k: int, n: nat)
    requires n <= 128
    ensures Sum(Xor(a, c), b, k, n) == (Sum(a, b, k, n) != Sum(c, b, k, n))
  {
    if n > 0 {
      SumLinear(a, c, b, k, n - 1);
    }
  }

  /** Zeros behind a polynomial contribute nothing. */
  lemma {:induction false} SumPadded(q: seq<bool>, zeros: seq<bool>, b: seq<bool>, k: int, n: nat)
    requires n <= |q + zeros| && forall i :: 0 <= i < |zeros| ==> !zeros[i]
    ensures Sum(q + zeros, b, k, n) == Sum(q, b, k, if n <= |q| then n else |q|)
  {
    if n > 0 {
      SumPadded(q, zeros, b, k, n - 1);
      if n > |q| {
        assert !(q + zeros)[n - 1];
      }
    }
  }

  lemma {:induction false} SumZero(a: seq<bool>, b: seq<bool>, k: int, n: nat)
    requires forall i :: 0 <= i < n ==> !(Coefficient(a, i) && Coefficient(b, k - i))
    ensures !Sum(a, b, k, n)
  {
    if n > 0 {
      SumZero(a, b, k, n - 1);
    }
  }

  // ---- doubling is multiplying by x ----

  lemma DoubleAt(v: Block, k: int)
    ensures Coefficient(v, k - 1) == (Coefficient(Double(v), k) != (v[127] && Coefficient(Modulus(), k)))
  {
    if 0 <= k < 128 {
      assert R[k] == Modulus()[k];
    }
  }

  /** What was taken out of y while it was doubled n times, as a polynomial. */
  function Quotient(y: Block, n: nat): (q: seq<bool>)
    ensures |q| == n
  {
    if n == 0 then [] else [Doubled(y, n - 1)[127]] + Quotient(y, n - 1)
  }

  lemma {:induction false} DoubledAt(y: Block, n: nat, k: int)
    ensures Coefficient(y, k - n) == (Coefficient(Doubled(y, n), k) != ProductAt(Quotient(y, n), Modulus(), k))
  {
    if n > 0 {
      DoubledAt(y, n - 1, k - 1);
      DoubleAt(Doubled(y, n - 1), k);
      SumFront(Doubled(y, n - 1)[127], Quotient(y, n - 1), Modulus(), k, n - 1);
    }
  }

  // ---- adding up ----

  function Padded(q: seq<bool>): Block
    requires |q| <= 128
  {
    q + Falses(128 - |q|)
  }

  function Quotients(x: Block, y: Block, n: nat): Block
    requires n <= 128
  {
    if n == 0 then ZERO
    else if x[n - 1] then Xor(Quotients(x, y, n - 1), Padded(Quotient(y, n - 1)))
    else Quotients(x, y, n - 1)
  }

  lemma XorAt(x: Block, y: Block, k: int)
    ensures Coefficient(Xor(x, y), k) == (Coefficient(x, k) != Coefficient(y, k))
  {
  }

  lemma PaddedAt(q: seq<bool>, k: int)
    requires |q| <= 128
    ensures ProductAt(Padded(q), Modulus(), k) == ProductAt(q, Modulus(), k)
  {
    SumPadded(q, Falses(128 - |q|), Modulus(), k, 128);
  }

  lemma NothingAt(x: Block, y: Block, k: int)
    ensures Sum(x, y, k, 0) == (Coefficient(Partial(x, y, 0), k) != ProductAt(Quotients(x, y, 0), Modulus(), k))
  {
    SumZero(ZERO, Modulus(), k, 128);
  }

  lemma {:induction false} PartialAt(x: Block, y: Block, n: nat, k: int)
    requires n <= 128
    ensures Sum(x, y, k, n) == (Coefficient(Partial(x, y, n), k) != ProductAt(Quotients(x, y, n), Modulus(), k))
  {
    if n == 0 {
      NothingAt(x, y, k);
    } else {
      PartialAt(x, y, n - 1, k);
      NextAt(x, y, n - 1, k);
    }
  }

  /** One more power of x changes the three sides alike. */
  lemma NextAt(x: Block, y: Block, n: nat, k: int)
    requires n < 128
    ensures Sum(x, y, k, n + 1) == (Sum(x, y, k, n) != (x[n] && Coefficient(y, k - n)))
    ensures Coefficient(Partial(x, y, n + 1), k) ==
            (Coefficient(Partial(x, y, n), k) != (x[n] && Coefficient(Doubled(y, n), k)))
    ensures ProductAt(Quotients(x, y, n + 1), Modulus(), k) ==
            (ProductAt(Quotients(x, y, n), Modulus(), k) != (x[n] && ProductAt(Quotient(y, n), Modulus(), k)))
    ensures Coefficient(y, k - n) == (Coefficient(Doubled(y, n), k) != ProductAt(Quotient(y, n), Modulus(), k))
  {
    TermAt(x, y, n, k);
  }

  lemma TermAt(x: Block, y: Block, n: nat, k: int)
    requires n < 128
    ensures var p, q := Xor(Partial(x, y, n), Doubled(y, n)), Xor(Quotients(x, y, n), Padded(Quotient(y, n)));
      && Coefficient(p, k) == (Coefficient(Partial(x, y, n), k) != Coefficient(Doubled(y, n), k))
      && ProductAt(q, Modulus(), k) ==
         (ProductAt(Quotients(x, y, n), Modulus(), k) != ProductAt(Quotient(y, n), Modulus(), k))
      && Coefficient(y, k - n) == (Coefficient(Doubled(y, n), k) != ProductAt(Quotient(y, n), Modulus(), k))
  {
    XorAt(Partial(x, y, n), Doubled(y, n), k);
    SumLinear(Quotients(x, y, n), Padded(Quotient(y, n)), Modulus(), k, 128);
    PaddedAt(Quotient(y, n), k);
    DoubledAt(y, n, k);
  }

  /** The product of two blocks is a remainder of their polynomial product. */
  lemma TimesIsRemainder(x: Block, y: Block)
    ensures exists q: Block :: Remainder(x, y, Times(x, y), q)
  {
    var q := Quotients(x, y, 128);
    forall k: int ensures ProductAt(x, y, k) == (Coefficient(Times(x, y), k) != ProductAt(q, Modulus(), k)) {
      PartialAt(x, y, 128, k);
    }
    assert Remainder(x, y, Times(x, y), q);
  }

  // ---- there is one remainder ----

  /** The highest power of a polynomial shows in its product with the modulus, 128 places up. */
  lemma TopPower(q: Block, d: nat)
    requires d < 128 && q[d] && forall i :: d < i < 128 ==> !q[i]
    ensures ProductAt(q, Modulus(), d + 128)
  {
    SumZero(q, Modulus(), d + 128, d);
    assert Sum(q, Modulus(), d + 128, d + 1) by {
      assert Coefficient(Modulus(), d + 128 - d);
    }
    SumTail(q, Modulus(), d + 128, d + 1, 128);
  }

  lemma {:induction false} SumTail(a: seq<bool>, b: seq<bool>, k: int, m: nat, n: nat)
    requires m <= n && forall i :: m <= i < n ==> !Coefficient(a, i)
    ensures Sum(a, b, k, n) == Sum(a, b, k, m)
    decreases n
  {
    if m < n {
      SumTail(a, b, k, m, n - 1);
    }
  }

  lemma {:induction false} HighestBit(q: Block, n: nat) returns (d: nat)
    requires n <= 128 && (exists i :: 0 <= i < n && q[i]) && forall i :: n <= i < 128 ==> !q[i]
    ensures d < 128 && q[d] && forall i :: d < i < 128 ==> !q[i]
  {
    if q[n - 1] {
      d := n - 1;
    } else {
      d := HighestBit(q, n - 1);
    }
  }

  /** So the product of two blocks is the remainder: no other block differs from it by a multiple of the modulus. */
  lemma OneRemainder(x: Block, y: Block, z: Block, q: Block)
    requires Remainder(x, y, z, q)
    ensures z == Times(x, y)
  {
    TimesIsRemainder(x, y);
    var r: Block :| Remainder(x, y, Times(x, y), r);
    var e := Xor(q, r);
    forall k: int ensures ProductAt(e, Modulus(), k) == (Coefficient(z, k) != Coefficient(Times(x, y), k)) {
      SumLinear(q, r, Modulus(), k, 128);
      assert ProductAt(x, y, k) == (Coefficient(z, k) != ProductAt(q, Modulus(), k));
      assert ProductAt(x, y, k) == (Coefficient(Times(x, y), k) != ProductAt(r, Modulus(), k));
    }
    NoMultiple(e, z, Times(x, y));
  }

  /** A multiple of the modulus that stays below its degree is zero. */
  lemma NoMultiple(e: Block, z: Block, w: Block)
    requires forall k: int :: ProductAt(e, Modulus(), k) == (Coefficient(z, k) != Coefficient(w, k))
    ensures z == w
  {
    if exists i :: 0 <= i < 128 && e[i] {
      var d := HighestBit(e, 128);
      TopPower(e, d);
      assert false;
    }
    forall k | 0 <= k < 128 ensures z[k] == w[k] {
      SumZero(e, Modulus(), k, 128);
      assert ProductAt(e, Modulus(), k) == (Coefficient(z, k) != Coefficient(w, k));
    }
  }
}

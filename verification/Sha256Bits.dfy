/**
 What the words of SHA-256 mean, bit by bit and digit by digit: the six functions of section 4.1.2 of
 FIPS 180-4 as choices, majorities and rotations of bits, and the constants of sections 4.2.2 and 5.3.3
 as the first 32 bits of the fractional parts of roots of the first primes.
 */
module Sha256Bits {
  import opened Sha256

  /** Bit i of a number. */
  function Bit(x: nat, i: nat): bool
    decreases i
  {
    if i == 0 then x % 2 == 1 else Bit(x / 2, i - 1)
  }

  // ---- bits of words ----

  lemma {:induction false} BothBit(x: nat, y: nat, n: nat, i: nat)
    requires i < n
    ensures Bit(Both(x, y, n), i) <==> Bit(x, i) && Bit(y, i)
    decreases n
  {
    if i > 0 {
      BothBit(x / 2, y / 2, n - 1, i - 1);
    }
  }

  lemma {:induction false} OneOfBit(x: nat, y: nat, n: nat, i: nat)
    requires i < n
    ensures Bit(OneOf(x, y, n), i) <==> Bit(x, i) != Bit(y, i)
    decreases n
  {
    if i > 0 {
      OneOfBit(x / 2, y / 2, n - 1, i - 1);
    }
  }

  lemma {:induction false} ComplementBit(x: nat, n: nat, i: nat)
    requires i < n && x < PowerOfTwo(n)
    ensures Bit(PowerOfTwo(n) - 1 - x, i) <==> !Bit(x, i)
    decreases n
  {
    if i > 0 {
      assert (PowerOfTwo(n) - 1 - x) / 2 == PowerOfTwo(n - 1) - 1 - x / 2;
      ComplementBit(x / 2, n - 1, i - 1);
    }
  }

  /** One number behind another. */
  lemma {:induction false} JoinedBit(a: nat, b: nat, m: nat, i: nat)
    requires a < PowerOfTwo(m)
    ensures Bit(a + b * PowerOfTwo(m), i) <==> if i < m then Bit(a, i) else Bit(b, i - m)
    decreases m
  {
    if m > 0 {
      var p := PowerOfTwo(m - 1);
      assert b * PowerOfTwo(m) == 2 * (b * p);
      if i > 0 {
        assert (a + b * PowerOfTwo(m)) / 2 == a / 2 + b * p;
        JoinedBit(a / 2, b, m - 1, i - 1);
      }
    }
  }

  lemma DivMod(x: nat, d: nat) returns (q: nat, r: nat)
    requires d > 0
    ensures q == x / d && r == x % d && r < d && x == r + q * d
  {
    q, r := x / d, x % d;
  }

  /** A number is its high bits behind its low bits. */
  lemma SplitBit(x: nat, low: nat, n: nat, i: nat, q: nat, r: nat)
    requires low == PowerOfTwo(n) && r < low && x == r + q * low
    ensures Bit(x, i) <==> if i < n then Bit(r, i) else Bit(q, i - n)
  {
    JoinedBit(r, q, n, i);
  }

  lemma HighPart(x: Word, low: nat, high: nat)
    requires low > 0 && high > 0 && low * high == 0x1_0000_0000
    ensures x / low < high
  {
    TurnedFits(x, low, high);
  }

  /** Two parts of a word change places. */
  lemma SwappedBit(q: nat, r: nat, n: nat, i: nat, k: nat)
    requires n < 32 && i < 32 && q < PowerOfTwo(32 - n) && r < PowerOfTwo(n)
    requires k == if i + n < 32 then i + n else i + n - 32
    ensures Bit(q + r * PowerOfTwo(32 - n), i) <==> Bit(r + q * PowerOfTwo(n), k)
  {
    JoinedBit(q, r, 32 - n, i);
    JoinedBit(r, q, n, k);
  }

  lemma TurnedBit(x: Word, low: nat, high: nat, n: nat, i: nat)
    requires n < 32 && i < 32 && low == PowerOfTwo(n) && high == PowerOfTwo(32 - n) && low * high == 0x1_0000_0000
    ensures Bit(Turned(x, low, high), i) <==> Bit(x, (i + n) % 32)
  {
    var q, r := DivMod(x, low);
    HighPart(x, low, high);
    SwappedBit(q, r, n, i, if i + n < 32 then i + n else i + n - 32);
  }

  lemma {:induction false} NoHighBit(x: nat, n: nat, i: nat)
    requires x < PowerOfTwo(n) && n <= i
    ensures !Bit(x, i)
    decreases n
  {
    if n == 0 {
      ZeroBit(i);
    } else {
      NoHighBit(x / 2, n - 1, i - 1);
    }
  }

  lemma {:induction false} ZeroBit(i: nat)
    ensures !Bit(0, i)
  {
    if i > 0 {
      ZeroBit(i - 1);
    }
  }

  lemma XorBit(x: Word, y: Word, i: nat)
    requires i < 32
    ensures Bit(Xor(x, y), i) <==> Bit(x, i) != Bit(y, i)
  {
    OneOfBit(x, y, 32, i);
  }

  lemma AndBit(x: Word, y: Word, i: nat)
    requires i < 32
    ensures Bit(And(x, y), i) <==> Bit(x, i) && Bit(y, i)
  {
    BothBit(x, y, 32, i);
  }

  lemma NotBit(x: Word, i: nat)
    requires i < 32
    ensures Bit(Complement(x), i) <==> !Bit(x, i)
  {
    WordSize();
    ComplementBit(x, 32, i);
  }

  // ---- the six functions ----

  /** Where x is set, y is chosen, and elsewhere z. */
  lemma ChooseBit(x: Word, y: Word, z: Word, i: nat)
    requires i < 32
    ensures Bit(Choose(x, y, z), i) <==> if Bit(x, i) then Bit(y, i) else Bit(z, i)
  {
    XorBit(And(x, y), And(Complement(x), z), i);
    AndBit(x, y, i);
    AndBit(Complement(x), z, i);
    NotBit(x, i);
  }

  /** At least two of the three are set. */
  lemma MajorityBit(x: Word, y: Word, z: Word, i: nat)
    requires i < 32
    ensures Bit(Majority(x, y, z), i) <==>
      (Bit(x, i) && Bit(y, i)) || (Bit(x, i) && Bit(z, i)) || (Bit(y, i) && Bit(z, i))
  {
    XorBit(Xor(And(x, y), And(x, z)), And(y, z), i);
    XorBit(And(x, y), And(x, z), i);
    AndBit(x, y, i);
    AndBit(x, z, i);
    AndBit(y, z, i);
  }

  lemma RotatedBits(x: Word, i: nat)
    requires i < 32
    ensures Bit(Turned(x, 0x4, 0x4000_0000), i) <==> Bit(x, (i + 2) % 32)
    ensures Bit(Turned(x, 0x40, 0x400_0000), i) <==> Bit(x, (i + 6) % 32)
    ensures Bit(Turned(x, 0x80, 0x200_0000), i) <==> Bit(x, (i + 7) % 32)
    ensures Bit(Turned(x, 0x800, 0x20_0000), i) <==> Bit(x, (i + 11) % 32)
    ensures Bit(Turned(x, 0x2000, 0x8_0000), i) <==> Bit(x, (i + 13) % 32)
  {
    Powers();
    TurnedBit(x, 0x4, 0x4000_0000, 2, i);
    TurnedBit(x, 0x40, 0x400_0000, 6, i);
    TurnedBit(x, 0x80, 0x200_0000, 7, i);
    TurnedBit(x, 0x800, 0x20_0000, 11, i);
    TurnedBit(x, 0x2000, 0x8_0000, 13, i);
  }

  lemma FarRotatedBits(x: Word, i: nat)
    requires i < 32
    ensures Bit(Turned(x, 0x2_0000, 0x8000), i) <==> Bit(x, (i + 17) % 32)
    ensures Bit(Turned(x, 0x4_0000, 0x4000), i) <==> Bit(x, (i + 18) % 32)
    ensures Bit(Turned(x, 0x8_0000, 0x2000), i) <==> Bit(x, (i + 19) % 32)
    ensures Bit(Turned(x, 0x40_0000, 0x400), i) <==> Bit(x, (i + 22) % 32)
    ensures Bit(Turned(x, 0x200_0000, 0x80), i) <==> Bit(x, (i + 25) % 32)
  {
    Powers();
    TurnedBit(x, 0x2_0000, 0x8000, 17, i);
    TurnedBit(x, 0x4_0000, 0x4000, 18, i);
    TurnedBit(x, 0x8_0000, 0x2000, 19, i);
    TurnedBit(x, 0x40_0000, 0x400, 22, i);
    TurnedBit(x, 0x200_0000, 0x80, 25, i);
  }

  lemma Powers()
    ensures PowerOfTwo(2) == 0x4 && PowerOfTwo(3) == 0x8 && PowerOfTwo(6) == 0x40 && PowerOfTwo(7) == 0x80
    ensures PowerOfTwo(10) == 0x400 && PowerOfTwo(11) == 0x800 && PowerOfTwo(13) == 0x2000 && PowerOfTwo(14) == 0x4000
    ensures PowerOfTwo(15) == 0x8000 && PowerOfTwo(17) == 0x2_0000 && PowerOfTwo(18) == 0x4_0000
    ensures PowerOfTwo(19) == 0x8_0000 && PowerOfTwo(21) == 0x20_0000 && PowerOfTwo(22) == 0x40_0000
    ensures PowerOfTwo(25) == 0x200_0000 && PowerOfTwo(26) == 0x400_0000 && PowerOfTwo(30) == 0x4000_0000
  {
  }

  lemma BigSigma0Bit(x: Word, i: nat)
    requires i < 32
    ensures Bit(BigSigma0(x), i) <==> ((Bit(x, (i + 2) % 32) != Bit(x, (i + 13) % 32)) != Bit(x, (i + 22) % 32))
  {
    var a, b, c := Turned(x, 0x4, 0x4000_0000), Turned(x, 0x2000, 0x8_0000), Turned(x, 0x40_0000, 0x400);
    XorBit(Xor(a, b), c, i);
    XorBit(a, b, i);
    RotatedBits(x, i);
    FarRotatedBits(x, i);
  }

  lemma BigSigma1Bit(x: Word, i: nat)
    requires i < 32
    ensures Bit(BigSigma1(x), i) <==> ((Bit(x, (i + 6) % 32) != Bit(x, (i + 11) % 32)) != Bit(x, (i + 25) % 32))
  {
    var a, b, c := Turned(x, 0x40, 0x400_0000), Turned(x, 0x800, 0x20_0000), Turned(x, 0x200_0000, 0x80);
    XorBit(Xor(a, b), c, i);
    XorBit(a, b, i);
    RotatedBits(x, i);
    FarRotatedBits(x, i);
  }

  /** Rotations by 7 and 18 and a shift by 3, which brings in zeros. */
  lemma SmallSigma0Bit(x: Word, i: nat)
    requires i < 32
    ensures Bit(SmallSigma0(x), i) <==>
      ((Bit(x, (i + 7) % 32) != Bit(x, (i + 18) % 32)) != (i + 3 < 32 && Bit(x, i + 3)))
  {
    var a, b := Turned(x, 0x80, 0x200_0000), Turned(x, 0x4_0000, 0x4000);
    XorBit(Xor(a, b), x / 0x8, i);
    XorBit(a, b, i);
    RotatedBits(x, i);
    FarRotatedBits(x, i);
    Powers();
    ShiftBit(x, 0x8, 3, i, x / 0x8);
  }

  lemma SmallSigma1Bit(x: Word, i: nat)
    requires i < 32
    ensures Bit(SmallSigma1(x), i) <==>
      ((Bit(x, (i + 17) % 32) != Bit(x, (i + 19) % 32)) != (i + 10 < 32 && Bit(x, i + 10)))
  {
    var a, b := Turned(x, 0x2_0000, 0x8000), Turned(x, 0x8_0000, 0x2000);
    XorBit(Xor(a, b), x / 0x400, i);
    XorBit(a, b, i);
    RotatedBits(x, i);
    FarRotatedBits(x, i);
    Powers();
    ShiftBit(x, 0x400, 10, i, x / 0x400);
  }

  lemma ShiftBit(x: Word, low: nat, n: nat, i: nat, q: nat)
    requires low > 0 && low == PowerOfTwo(n) && q == x / low
    ensures Bit(q, i) <==> i + n < 32 && Bit(x, i + n)
  {
    var _, r := DivMod(x, low);
    SplitBit(x, low, n, i + n, q, r);
    if i + n >= 32 {
      WordSize();
      NoHighBit(x, 32, i + n);
    }
  }
}

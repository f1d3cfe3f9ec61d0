/**
 Where the bits of AES-GCM lie: the groups of the hash input, the length block, the counter blocks and
 the mask of the tag, read back as numbers.
 */
module GcmLayout {
  import opened Gcm
  import opened GaloisField

  function Pow2(n: nat): (r: nat)
    ensures r > 0
  {
    if n == 0 then 1 else 2 * Pow2(n - 1)
  }

  /** Bits as a number, the most significant first. */
  function Number(bits: seq<bool>): nat {
    if bits == [] then 0 else (if bits[0] then Pow2(|bits| - 1) else 0) + Number(bits[1..])
  }

  lemma {:induction false} NumberEnd(bits: seq<bool>, b: bool)
    ensures Number(bits + [b]) == 2 * Number(bits) + if b then 1 else 0
  {
    if bits == [] {
      assert Number([b]) == if b then 1 else 0 by {
        assert [b][1..] == [];
      }
      assert bits + [b] == [b];
    } else {
      assert (bits + [b])[1..] == bits[1..] + [b];
      NumberEnd(bits[1..], b);
    }
  }

  lemma HalfRemainder(v: nat, m: nat)
    requires m > 0
    ensures 2 * (v / 2 % m) + v % 2 == v % (2 * m)
  {
    var h := v / 2;
    var q, r := h / m, h % m;
    assert h == q * m + r;
    assert v == 2 * h + v % 2 == q * (2 * m) + (2 * r + v % 2);
    OneRemainder(v, 2 * m, q, 2 * r + v % 2);
  }

  lemma OneRemainder(v: nat, m: nat, q: nat, r: nat)
    requires m > 0 && v == q * m + r && r < m
    ensures v % m == r
  {
    var p, s := v / m, v % m;
    assert v == p * m + s;
    if p < q {
      Larger(p + 1, q, m);
    } else if q < p {
      Larger(q + 1, p, m);
    }
  }

  lemma Larger(a: nat, b: nat, m: nat)
    requires a <= b
    ensures a * m <= b * m
  {
  }

  lemma {:induction false} NumberBitsValue(v: nat, n: nat)
    ensures Number(NumberBits(v, n)) == v % Pow2(n)
  {
    if n > 0 {
      NumberBitsValue(v / 2, n - 1);
      NumberEnd(NumberBits(v / 2, n - 1), v % 2 == 1);
      HalfRemainder(v, Pow2(n - 1));
    }
  }

  lemma {:induction false} Pow2Sum(a: nat, b: nat)
    ensures Pow2(a + b) == Pow2(a) * Pow2(b)
  {
    if a > 0 {
      Pow2Sum(a - 1, b);
      assert Pow2(a) * Pow2(b) == 2 * (Pow2(a - 1) * Pow2(b));
    }
  }

  lemma Widths()
    ensures Pow2(32) == 0x1_0000_0000 && Pow2(64) == 0x1_0000_0000_0000_0000
  {
    assert Pow2(8) == 0x100;
    Pow2Sum(8, 8);
    Pow2Sum(16, 16);
    Pow2Sum(32, 32);
  }

  // ---- the hash input ----

  lemma BitsAt(g: Group, r: nat, j: nat)
    requires r < 16 && j < 8
    ensures Bits(g)[8 * r + j] == g[r][j]
  {
    assert (8 * r + j) / 8 == r && (8 * r + j) % 8 == j;
  }

  lemma {:induction false} GroupsCount(data: Bytes)
    ensures |Groups(data)| == (|data| + 15) / 16
    decreases |data|
  {
    if |data| > 16 {
      GroupsCount(data[16..]);
    }
  }

  /** Every bit of the data has its place in the groups, and what fills the last group is zero. */
  lemma {:induction false} GroupsAt(data: Bytes, k: nat, r: nat, j: nat)
    requires k < |Groups(data)| && r < 16 && j < 8
    ensures Groups(data)[k][8 * r + j] == (16 * k + r < |data| && data[16 * k + r][j])
    decreases k
  {
    if |data| <= 16 {
      BitsAt(Filled(data), r, j);
      assert r < |data| ==> Filled(data)[r] == Filled(data)[..|data|][r];
    } else if k == 0 {
      BitsAt(data[..16], r, j);
    } else {
      GroupsAt(data[16..], k - 1, r, j);
    }
  }

  /** After the groups of the additional data and those of the ciphertext come the two lengths in bits. */
  lemma HashInputLayout(aad: Bytes, ct: Bytes)
    ensures var input := HashInput(aad, ct);
      var n := |Groups(aad)|;
      && |input| == n + |Groups(ct)| + 1
      && input[..n] == Groups(aad) && input[n..|input| - 1] == Groups(ct)
      && Number(input[|input| - 1][..64]) == 8 * |aad| % 0x1_0000_0000_0000_0000
      && Number(input[|input| - 1][64..]) == 8 * |ct| % 0x1_0000_0000_0000_0000
  {
    Widths();
    NumberBitsValue(8 * |aad|, 64);
    NumberBitsValue(8 * |ct|, 64);
    var last := LengthBlock(|aad|, |ct|);
    assert last[..64] == NumberBits(8 * |aad|, 64) && last[64..] == NumberBits(8 * |ct|, 64);
  }

  // ---- counter blocks ----

  /** The initialisation vector followed by a number of 32 bits. */
  ghost predicate CounterBlock(g: Group, iv: Iv, c: nat) {
    g[..12] == iv && Number(Bits(g)[96..]) == c
  }

  lemma CounterBits(iv: Iv, c: nat)
    ensures Bits(Counter(iv, c))[96..] == NumberBits(c, 32)
  {
    var b, g := NumberBits(c, 32), Counter(iv, c);
    assert g[12] == b[0..8] && g[13] == b[8..16] && g[14] == b[16..24] && g[15] == b[24..32];
    forall k | 0 <= k < 32 ensures Bits(g)[96..][k] == b[k] {
      var q, r := k / 8, k % 8;
      assert (96 + k) / 8 == 12 + q && (96 + k) % 8 == r && k == 8 * q + r;
      assert q == 0 || q == 1 || q == 2 || q == 3;
    }
  }

  lemma CounterIs(iv: Iv, c: nat)
    ensures CounterBlock(Counter(iv, c), iv, c % 0x1_0000_0000)
  {
    Widths();
    NumberBitsValue(c, 32);
    CounterBits(iv, c);
  }

  /** The 32-bit counter after k steps. */
  function Stepped(c: nat, k: nat): nat
    decreases k
  {
    if k == 0 then c else Stepped((c + 1) % 0x1_0000_0000, k - 1)
  }

  lemma WrapNext(c: nat, k: nat, next: nat)
    requires c < 0x1_0000_0000 && k > 0 && next == (c + 1) % 0x1_0000_0000
    ensures (next + (k - 1)) % 0x1_0000_0000 == (c + k) % 0x1_0000_0000
  {
    if c + 1 < 0x1_0000_0000 {
      assert next == c + 1;
    } else {
      assert next == 0 && c + k == k - 1 + 0x1_0000_0000;
    }
  }

  lemma {:induction false} SteppedIs(c: nat, k: nat)
    requires c < 0x1_0000_0000
    ensures Stepped(c, k) == (c + k) % 0x1_0000_0000
    decreases k
  {
    if k > 0 {
      var next := (c + 1) % 0x1_0000_0000;
      SteppedIs(next, k - 1);
      WrapNext(c, k, next);
    }
  }

  function Masked(aes: Cipher, iv: Iv, c: nat): Group { aes(Counter(iv, c)) }

  lemma StreamFront(aes: Cipher, iv: Iv, c: nat, n: nat, r: nat)
    requires r < n && r < 16
    ensures KeyStream(aes, iv, c, n)[r] == Masked(aes, iv, c)[r]
  {
  }

  lemma StreamRest(aes: Cipher, iv: Iv, c: nat, n: nat, i: nat)
    requires 16 <= i < n
    ensures KeyStream(aes, iv, c, n)[i] == KeyStream(aes, iv, (c + 1) % 0x1_0000_0000, n - 16)[i - 16]
  {
  }

  lemma {:induction false} KeyStreamAt(aes: Cipher, iv: Iv, c: nat, n: nat, k: nat, r: nat)
    requires 16 * k + r < n && r < 16
    ensures KeyStream(aes, iv, c, n)[16 * k + r] == Masked(aes, iv, Stepped(c, k))[r]
    decreases k
  {
    if k == 0 {
      StreamFront(aes, iv, c, n, r);
    } else {
      KeyStreamAt(aes, iv, (c + 1) % 0x1_0000_0000, n - 16, k - 1, r);
      StreamRest(aes, iv, c, n, 16 * k + r);
    }
  }

  lemma GctrByte(aes: Cipher, iv: Iv, data: Bytes, k: nat, r: nat, c: nat) returns (g: Group)
    requires r < 16 && 16 * k + r < |data| && c == Stepped(2, k) && c < 0x1_0000_0000
    ensures CounterBlock(g, iv, c)
    ensures Gctr(aes, iv, data)[16 * k + r] == XorByte(data[16 * k + r], aes(g)[r])
  {
    KeyStreamAt(aes, iv, 2, |data|, k, r);
    g := Counter(iv, c);
    CounterIs(iv, c);
  }

  /** Byte r of group k is masked, bit by bit, with byte r of the encrypted counter block whose number is 2 + k. */
  lemma GctrAt(aes: Cipher, iv: Iv, data: Bytes, k: nat, r: nat) returns (g: Group)
    requires r < 16 && 16 * k + r < |data|
    ensures CounterBlock(g, iv, (2 + k) % 0x1_0000_0000)
    ensures forall j :: 0 <= j < 8 ==> Gctr(aes, iv, data)[16 * k + r][j] == (data[16 * k + r][j] != aes(g)[r][j])
  {
    SteppedIs(2, k);
    g := GctrByte(aes, iv, data, k, r, Stepped(2, k));
  }

  /** The hash key is the encryption of zeros, and the mask of the tag that of the counter block with number 1. */
  lemma TagLayout(aes: Cipher, iv: Iv, aad: Bytes, ct: Bytes) returns (zeros: Group, g: Group)
    ensures (forall i :: 0 <= i < 16 ==> zeros[i] == ZERO_BYTE) && CounterBlock(g, iv, 1)
    ensures Tag(aes, iv, aad, ct) == Xor(Ghash(Bits(aes(zeros)), HashInput(aad, ct)), Bits(aes(g)))
  {
    zeros, g := ZeroBytes(16), Counter(iv, 1);
    CounterIs(iv, 1);
  }
}

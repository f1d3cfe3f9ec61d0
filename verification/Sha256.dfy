/**
 SHA-256: the message schedule and the 64 rounds as sections 4.1.2, 4.2.2 and 6.2.2 of FIPS 180-4
 define them, the loops that compute them, and the hash of a message through the streaming of
 Sha256Stream. With the block fixed, the rounds are one-to-one: every round can be undone.
 */
module Sha256 {
  import opened Sha256Stream

  const MODULUS := 0x1_0000_0000

  type Word = w: nat | w < 0x1_0000_0000

  const ROUND_CONSTANTS: seq<Word> :=
    [0x428a2f98, 0x71374491, 0xb5c0fbcf, 0xe9b5dba5, 0x3956c25b, 0x59f111f1, 0x923f82a4, 0xab1c5ed5] +
    [0xd807aa98, 0x12835b01, 0x243185be, 0x550c7dc3, 0x72be5d74, 0x80deb1fe, 0x9bdc06a7, 0xc19bf174] +
    [0xe49b69c1, 0xefbe4786, 0x0fc19dc6, 0x240ca1cc, 0x2de92c6f, 0x4a7484aa, 0x5cb0a9dc, 0x76f988da] +
    [0x983e5152, 0xa831c66d, 0xb00327c8, 0xbf597fc7, 0xc6e00bf3, 0xd5a79147, 0x06ca6351, 0x14292967] +
    [0x27b70a85, 0x2e1b2138, 0x4d2c6dfc, 0x53380d13, 0x650a7354, 0x766a0abb, 0x81c2c92e, 0x92722c85] +
    [0xa2bfe8a1, 0xa81a664b, 0xc24b8b70, 0xc76c51a3, 0xd192e819, 0xd6990624, 0xf40e3585, 0x106aa070] +
    [0x19a4c116, 0x1e376c08, 0x2748774c, 0x34b0bcb5, 0x391c0cb3, 0x4ed8aa4a, 0x5b9cca4f, 0x682e6ff3] +
    [0x748f82ee, 0x78a5636f, 0x84c87814, 0x8cc70208, 0x90befffa, 0xa4506ceb, 0xbef9a3f7, 0xc67178f2]

  function RoundConstant(t: nat): Word
    requires t < 64
  {
    ROUND_CONSTANTS[t]
  }

  datatype Vars = Vars(a: Word, b: Word, c: Word, d: Word, e: Word, f: Word, g: Word, h: Word)

  const INITIAL := Vars(0x6a09e667, 0xbb67ae85, 0x3c6ef372, 0xa54ff53a, 0x510e527f, 0x9b05688c, 0x1f83d9ab, 0x5be0cd19)

  // ---- 32-bit words ----

  function Add(x: Word, y: Word): Word { (x + y) % MODULUS }

  function Subtract(x: Word, y: Word): Word { (x - y) % MODULUS }

  function Complement(x: Word): Word { MODULUS - 1 - x }

  function PowerOfTwo(n: nat): (p: nat)
    ensures p > 0
  {
    if n == 0 then 1 else 2 * PowerOfTwo(n - 1)
  }

  /** The n low bits, those where both are set and those where one of them is. */
  function Both(x: nat, y: nat, n: nat): (r: nat)
    ensures r < PowerOfTwo(n)
  {
    if n == 0 then 0 else 2 * Both(x / 2, y / 2, n - 1) + (if x % 2 == 1 && y % 2 == 1 then 1 else 0)
  }

  function OneOf(x: nat, y: nat, n: nat): (r: nat)
    ensures r < PowerOfTwo(n)
  {
    if n == 0 then 0 else 2 * OneOf(x / 2, y / 2, n - 1) + (if x % 2 != y % 2 then 1 else 0)
  }

  lemma WordSize()
    ensures PowerOfTwo(32) == MODULUS
  {
    assert PowerOfTwo(8) == 0x100 && PowerOfTwo(16) == 0x1_0000 && PowerOfTwo(24) == 0x100_0000;
  }

  function And(x: Word, y: Word): Word {
    WordSize();
    Both(x, y, 32)
  }

  function Xor(x: Word, y: Word): Word {
    WordSize();
    OneOf(x, y, 32)
  }

  /** The n low bits go to the top; `low` is two to the n and `high` two to the 32 - n. */
  function Turned(x: Word, low: nat, high: nat): Word
    requires low > 0 && high > 0 && low * high == MODULUS
  {
    TurnedFits(x, low, high);
    x / low + x % low * high
  }

  lemma TurnedFits(x: Word, low: nat, high: nat)
    requires low > 0 && high > 0 && low * high == MODULUS
    ensures 0 <= x / low + x % low * high < MODULUS
  {
    assert x / low < high;
    assert (x % low + 1) * high <= low * high;
  }

  // ---- the six functions of section 4.1.2 ----

  function Choose(x: Word, y: Word, z: Word): Word { Xor(And(x, y), And(Complement(x), z)) }

  function Majority(x: Word, y: Word, z: Word): Word { Xor(Xor(And(x, y), And(x, z)), And(y, z)) }

  function BigSigma0(x: Word): Word {
    Xor(Xor(Turned(x, 0x4, 0x4000_0000), Turned(x, 0x2000, 0x8_0000)), Turned(x, 0x40_0000, 0x400))
  }

  function BigSigma1(x: Word): Word {
    Xor(Xor(Turned(x, 0x40, 0x400_0000), Turned(x, 0x800, 0x20_0000)), Turned(x, 0x200_0000, 0x80))
  }

  function SmallSigma0(x: Word): Word {
    Xor(Xor(Turned(x, 0x80, 0x200_0000), Turned(x, 0x4_0000, 0x4000)), x / 0x8)
  }

  function SmallSigma1(x: Word): Word {
    Xor(Xor(Turned(x, 0x2_0000, 0x8000), Turned(x, 0x8_0000, 0x2000)), x / 0x400)
  }

  // ---- schedule and rounds ----

  /** Four bytes, the most significant first. */
  function LoadWord(b0: nat, b1: nat, b2: nat, b3: nat): Word
    requires b0 < 256 && b1 < 256 && b2 < 256 && b3 < 256
  {
    b0 * 0x100_0000 + b1 * 0x1_0000 + b2 * 0x100 + b3
  }

  function NextWord(w2: Word, w7: Word, w15: Word, w16: Word): Word {
    Add(Add(Add(SmallSigma1(w2), w7), SmallSigma0(w15)), w16)
  }

  /** The t-th word of the message schedule. */
  function Scheduled(block: seq<Byte>, t: nat): Word
    requires |block| == 64
  {
    if t < 16 then LoadWord(block[4 * t], block[4 * t + 1], block[4 * t + 2], block[4 * t + 3])
    else NextWord(Scheduled(block, t - 2), Scheduled(block, t - 7), Scheduled(block, t - 15), Scheduled(block, t - 16))
  }

  function Round(v: Vars, k: Word, w: Word): Vars {
    var t1 := Add(Add(Add(Add(v.h, BigSigma1(v.e)), Choose(v.e, v.f, v.g)), k), w);
    var t2 := Add(BigSigma0(v.a), Majority(v.a, v.b, v.c));
    Vars(Add(t1, t2), v.a, v.b, v.c, Add(v.d, t1), v.e, v.f, v.g)
  }

  function Rounds(v: Vars, block: seq<Byte>, n: nat): Vars
    requires |block| == 64 && n <= 64
  {
    if n == 0 then v else Round(Rounds(v, block, n - 1), RoundConstant(n - 1), Scheduled(block, n - 1))
  }

  function Plus(v: Vars, u: Vars): Vars {
    Vars(Add(v.a, u.a), Add(v.b, u.b), Add(v.c, u.c), Add(v.d, u.d),
         Add(v.e, u.e), Add(v.f, u.f), Add(v.g, u.g), Add(v.h, u.h))
  }

  function Compress(v: Vars, block: seq<Byte>): Vars
    requires |block| == 64
  {
    Plus(v, Rounds(v, block, 64))
  }

  // ---- the loops ----

  method Extend(w2: Word, w7: Word, w15: Word, w16: Word) returns (w: Word)
    ensures w == NextWord(w2, w7, w15, w16)
  {
    var s0, s1 := SmallSigma0(w15), SmallSigma1(w2);
    w := Add(Add(Add(w16, s0), w7), s1);
    AddOrder(w16, s0, w7, s1);
  }

  /** The message schedule, filled from the front. */
  method Schedule(block: array<Byte>) returns (w: array<Word>)
    requires block.Length == 64
    ensures w.Length == 64 && forall t :: 0 <= t < 64 ==> w[t] == Scheduled(block[..], t)
  {
    w := new Word[64];
    for i := 0 to 16
      invariant forall t :: 0 <= t < i ==> w[t] == Scheduled(block[..], t)
    {
      w[i] := LoadWord(block[4 * i], block[4 * i + 1], block[4 * i + 2], block[4 * i + 3]);
    }
    for i := 16 to 64
      invariant forall t :: 0 <= t < i ==> w[t] == Scheduled(block[..], t)
    {
      w[i] := Extend(w[i - 2], w[i - 7], w[i - 15], w[i - 16]);
    }
  }

  lemma AddTwice(a: Word, b: Word, c: Word)
    ensures Add(Add(a, b), c) == (a + b + c) % MODULUS
  {
  }

  lemma AddOrder(a: Word, b: Word, c: Word, d: Word)
    ensures Add(Add(Add(a, b), c), d) == Add(Add(Add(d, c), b), a)
  {
    AddTwice(a, b, c);
    AddTwice(d, c, b);
    Wraps(a + b + c, d);
    Wraps(d + c + b, a);
  }

  lemma Wraps(x: nat, y: nat)
    ensures (x % MODULUS + y) % MODULUS == (x + y) % MODULUS
  {
  }

  /** One round on the eight variables, shifted through each other. */
  method Turn(v: Vars, k: Word, w: Word) returns (r: Vars)
    ensures r == Round(v, k, w)
  {
    var a, b, c, d, e, f, g, h := v.a, v.b, v.c, v.d, v.e, v.f, v.g, v.h;
    var t1 := Add(Add(Add(Add(h, BigSigma1(e)), Choose(e, f, g)), k), w);
    var t2 := Add(BigSigma0(a), Majority(a, b, c));
    h := g;
    g := f;
    f := e;
    e := Add(d, t1);
    d := c;
    c := b;
    b := a;
    a := Add(t1, t2);
    r := Vars(a, b, c, d, e, f, g, h);
  }

  lemma RoundsNext(v: Vars, block: seq<Byte>, n: nat)
    requires |block| == 64 && n < 64
    ensures Rounds(v, block, n + 1) == Round(Rounds(v, block, n), RoundConstant(n), Scheduled(block, n))
  {
  }

  method NextRound(u: Vars, i: nat, w: Word, ghost v: Vars, ghost block: seq<Byte>) returns (r: Vars)
    requires |block| == 64 && i < 64 && u == Rounds(v, block, i) && w == Scheduled(block, i)
    ensures r == Rounds(v, block, i + 1)
  {
    r := Turn(u, RoundConstant(i), w);
    RoundsNext(v, block, i);
  }

  method RunRounds(v: Vars, w: seq<Word>, n: nat, ghost block: seq<Byte>) returns (r: Vars)
    requires |block| == 64 && |w| == 64 && n <= 64
    requires forall t {:trigger w[t]} :: 0 <= t < 64 ==> w[t] == Scheduled(block, t)
    ensures r == Rounds(v, block, n)
  {
    r := v;
    for i := 0 to n
      invariant r == Rounds(v, block, i)
    {
      r := NextRound(r, i, w[i], v, block);
    }
  }

  method CompressBlock(v: Vars, block: array<Byte>) returns (r: Vars)
    requires block.Length == 64
    ensures r == Compress(v, block[..])
  {
    var w := Schedule(block);
    var u := RunRounds(v, w[..], 64, block[..]);
    r := Vars(Add(v.a, u.a), Add(v.b, u.b), Add(v.c, u.c), Add(v.d, u.d),
              Add(v.e, u.e), Add(v.f, u.f), Add(v.g, u.g), Add(v.h, u.h));
  }

  // ---- each round can be undone ----

  function Undo(v: Vars, k: Word, w: Word): Vars {
    var t2 := Add(BigSigma0(v.b), Majority(v.b, v.c, v.d));
    var t1 := Subtract(v.a, t2);
    var h := Subtract(Subtract(Subtract(Subtract(t1, w), k), Choose(v.f, v.g, v.h)), BigSigma1(v.f));
    Vars(v.b, v.c, v.d, Subtract(v.e, t1), v.f, v.g, v.h, h)
  }

  lemma Cancels(x: Word, y: Word)
    ensures Subtract(Add(x, y), y) == x
  {
  }

  lemma RoundUndone(v: Vars, k: Word, w: Word)
    ensures Undo(Round(v, k, w), k, w) == v
  {
    var s, ch := BigSigma1(v.e), Choose(v.e, v.f, v.g);
    var t1 := Add(Add(Add(Add(v.h, s), ch), k), w);
    Cancels(t1, Add(BigSigma0(v.a), Majority(v.a, v.b, v.c)));
    Cancels(v.d, t1);
    Cancels(Add(Add(Add(v.h, s), ch), k), w);
    Cancels(Add(Add(v.h, s), ch), k);
    Cancels(Add(v.h, s), ch);
    Cancels(v.h, s);
  }

  /** With the block fixed, the rounds are one-to-one. */
  lemma {:induction false} RoundsInjective(v: Vars, u: Vars, block: seq<Byte>, n: nat)
    requires |block| == 64 && n <= 64 && Rounds(v, block, n) == Rounds(u, block, n)
    ensures v == u
  {
    if n > 0 {
      RoundUndone(Rounds(v, block, n - 1), RoundConstant(n - 1), Scheduled(block, n - 1));
      RoundUndone(Rounds(u, block, n - 1), RoundConstant(n - 1), Scheduled(block, n - 1));
      RoundsInjective(v, u, block, n - 1);
    }
  }

  // ---- the hash of a message ----

  function Compressed(v: Vars, block: seq<Byte>): Vars {
    if |block| == 64 then Compress(v, block) else v
  }

  /** Eight words as 32 bytes. */
  function WordBytes(v: Vars): (s: seq<Byte>)
    ensures |s| == 32
  {
    BigEndian(v.a, 4) + BigEndian(v.b, 4) + BigEndian(v.c, 4) + BigEndian(v.d, 4) +
    BigEndian(v.e, 4) + BigEndian(v.f, 4) + BigEndian(v.g, 4) + BigEndian(v.h, 4)
  }

  function Hash(m: seq<Byte>): seq<Byte> {
    WordBytes(Digest(Compressed, INITIAL, m))
  }

  /** A word, most significant byte first. */
  method StoreWord(v: Word) returns (out: seq<Byte>)
    ensures out == BigEndian(v, 4)
  {
    out := [v / 0x100_0000 % 256, v / 0x1_0000 % 256, v / 0x100 % 256, v % 256];
  }

  /** Storing the word gives back the four bytes it was loaded from. */
  lemma LoadStores(b0: nat, b1: nat, b2: nat, b3: nat)
    requires b0 < 256 && b1 < 256 && b2 < 256 && b3 < 256
    ensures BigEndian(LoadWord(b0, b1, b2, b3), 4) == [b0, b1, b2, b3]
  {
    var w := LoadWord(b0, b1, b2, b3);
    var x := b0 * 0x1_0000 + b1 * 0x100 + b2;
    assert w == x * 256 + b3 && w / 256 == x && w % 256 == b3;
    var y := b0 * 0x100 + b1;
    assert x == y * 256 + b2 && x / 256 == y && x % 256 == b2;
    assert y / 256 == b0 && y % 256 == b1;
    assert BigEndian(b0, 1) == [b0] && BigEndian(y, 2) == [b0, b1] && BigEndian(x, 3) == [b0, b1, b2];
  }

  method StoreWords(v: Vars) returns (out: seq<Byte>)
    ensures out == WordBytes(v)
  {
    var a := StoreWord(v.a);
    var b := StoreWord(v.b);
    var c := StoreWord(v.c);
    var d := StoreWord(v.d);
    var e := StoreWord(v.e);
    var f := StoreWord(v.f);
    var g := StoreWord(v.g);
    var h := StoreWord(v.h);
    out := a + b + c + d + e + f + g + h;
  }

  /** The pieces of a message, one after the other. */
  function Joined(pieces: seq<seq<Byte>>): seq<Byte> {
    if pieces == [] then [] else Joined(pieces[..|pieces| - 1]) + pieces[|pieces| - 1]
  }

  /** However the message is cut into pieces, the result is its hash. */
  method HashPieces(pieces: seq<seq<Byte>>) returns (out: seq<Byte>)
    ensures out == Hash(Joined(pieces))
  {
    var hasher := new Hasher(Compressed, INITIAL);
    for i := 0 to |pieces|
      invariant hasher.Valid() && fresh(hasher) && fresh(hasher.block)
      invariant hasher.compress == Compressed && hasher.start == INITIAL
      invariant hasher.Message() == Joined(pieces[..i])
    {
      hasher.Update(pieces[i]);
      assert pieces[..i + 1][..i] == pieces[..i];
    }
    assert pieces[..|pieces|] == pieces;
    var v := hasher.Final();
    out := StoreWords(v);
  }

  lemma WordInjective(v: Word, w: Word)
    requires BigEndian(v, 4) == BigEndian(w, 4)
    ensures v == w
  {
    assert Pow256(4) == 0x1_0000_0000;
    BigEndianInjective(v, w, 4);
  }

  lemma BytesAt(v: Vars)
    ensures WordBytes(v)[..4] == BigEndian(v.a, 4) && WordBytes(v)[4..8] == BigEndian(v.b, 4)
    ensures WordBytes(v)[8..12] == BigEndian(v.c, 4) && WordBytes(v)[12..16] == BigEndian(v.d, 4)
    ensures WordBytes(v)[16..20] == BigEndian(v.e, 4) && WordBytes(v)[20..24] == BigEndian(v.f, 4)
    ensures WordBytes(v)[24..28] == BigEndian(v.g, 4) && WordBytes(v)[28..] == BigEndian(v.h, 4)
  {
  }

  lemma WordsInjective(v: Vars, u: Vars)
    requires WordBytes(v) == WordBytes(u)
    ensures v == u
  {
    BytesAt(v);
    BytesAt(u);
    WordInjective(v.a, u.a);
    WordInjective(v.b, u.b);
    WordInjective(v.c, u.c);
    WordInjective(v.d, u.d);
    WordInjective(v.e, u.e);
    WordInjective(v.f, u.f);
    WordInjective(v.g, u.g);
    WordInjective(v.h, u.h);
  }

  /** Two messages below 2^61 bytes with one hash: the compression function collides. */
  lemma HashCollides(a: seq<Byte>, b: seq<Byte>) returns (v: Vars, x: seq<Byte>, u: Vars, y: seq<Byte>)
    requires |a| < 0x2000_0000_0000_0000 && |b| < 0x2000_0000_0000_0000
    requires a != b && Hash(a) == Hash(b)
    ensures Collide(Compressed, v, x, u, y)
  {
    WordsInjective(Digest(Compressed, INITIAL, a), Digest(Compressed, INITIAL, b));
    v, x, u, y := DigestCollides(Compressed, INITIAL, a, b);
  }
}

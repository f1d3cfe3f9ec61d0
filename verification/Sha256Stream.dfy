/**
 Hashing a message piece by piece, as against sections 5.1.1 and 6.2 of FIPS 180-4: pad the whole
 message, cut it into blocks of 64 bytes and fold a compression function over them. Everything here
 holds for every compression function. Neither the padding nor the folding adds collisions of its own:
 two messages with one hash value hold two different inputs on which the compression function collides.
 */
module Sha256Stream {

  type Byte = b: nat | b < 256

  /** What one block of 64 bytes does to the hash value. */
  type Compression<!H> = (H, seq<Byte>) -> H

  // ---- the whole-message definition ----

  function Zeros(n: nat): seq<Byte> {
    seq(n, _ => 0)
  }

  /** The n low bytes of v, most significant first. */
  function BigEndian(v: nat, n: nat): (s: seq<Byte>)
    ensures |s| == n
  {
    if n == 0 then [] else BigEndian(v / 256, n - 1) + [v % 256]
  }

  /** The least number of zero bytes that leaves the length eight bytes short of a block. */
  function PadCount(n: nat): (k: nat)
    ensures k < 64 && (n + 1 + k + 8) % 64 == 0
  {
    if n % 64 < 56 then 55 - n % 64 else 119 - n % 64
  }

  /** The length in bits, as a 64-bit number. */
  function BitLength(n: nat): nat {
    8 * n % 0x1_0000_0000_0000_0000
  }

  /** What follows a message of n bytes: a one bit, zeros and the length. */
  function Tail(n: nat): (s: seq<Byte>)
    ensures (n + |s|) % 64 == 0
  {
    [0x80] + Zeros(PadCount(n)) + BigEndian(BitLength(n), 8)
  }

  function Padded(m: seq<Byte>): (s: seq<Byte>)
    ensures |s| % 64 == 0
  {
    m + Tail(|m|)
  }

  function Fold<H>(compress: Compression<H>, start: H, m: seq<Byte>): H
    requires |m| % 64 == 0
    decreases |m|
  {
    if m == [] then start else compress(Fold(compress, start, m[..|m| - 64]), m[|m| - 64..])
  }

  function Digest<H>(compress: Compression<H>, start: H, m: seq<Byte>): H {
    Fold(compress, start, Padded(m))
  }

  lemma FoldBlock<H>(compress: Compression<H>, start: H, m: seq<Byte>, block: seq<Byte>)
    requires |m| % 64 == 0 && |block| == 64
    ensures Fold(compress, start, m + block) == compress(Fold(compress, start, m), block)
  {
    assert (m + block)[..|m + block| - 64] == m && (m + block)[|m + block| - 64..] == block;
  }

  // ---- piece by piece ----

  class Hasher<H> {
    const compress: Compression<H>
    const start: H
    var h: H
    const block: array<Byte>
    var used: nat
    var totalBits: nat
    /** The blocks compressed so far. */
    ghost var done: seq<Byte>

    ghost predicate Folded()
      reads this
    {
      |done| % 64 == 0 && h == Fold(compress, start, done)
    }

    /** Everything given so far. */
    ghost function Message(): seq<Byte>
      requires block.Length == 64 && used <= 64
      reads this, block
    {
      done + block[..used]
    }

    ghost predicate Valid()
      reads this, block
    {
      && block.Length == 64 && used < 64 && Folded()
      && totalBits == BitLength(|Message()|)
    }

    constructor (compress: Compression<H>, start: H)
      ensures Valid() && Message() == [] && fresh(block) && this.compress == compress && this.start == start
    {
      this.compress, this.start, h := compress, start, start;
      block := new Byte[64](_ => 0);
      used, totalBits := 0, 0;
      done := [];
    }

    /** Append bytes to the block buffer. */
    method Copy(data: seq<Byte>)
      requires block.Length == 64 && used + |data| <= 64
      modifies block, `used
      ensures used == old(used) + |data| && block[..used] == old(block[..used]) + data
    {
      forall i | 0 <= i < |data| {
        block[used + i] := data[i];
      }
      used := used + |data|;
    }

    /** Copy keeps what was hashed. */
    method Append(data: seq<Byte>)
      requires block.Length == 64 && used + |data| <= 64 && Folded()
      modifies block, `used
      ensures used == old(used) + |data| && Folded() && Message() == old(Message()) + data
    {
      Copy(data);
      assert Message() == old(Message()) + data;
    }

    /** Compress a full buffer. */
    method Flush()
      requires block.Length == 64 && used == 64 && Folded()
      modifies `h, `used, `done
      ensures used == 0 && Folded() && Message() == old(Message()) && done == old(Message())
    {
      var full := block[..];
      assert block[..used] == full;
      ghost var message := done + full;
      FoldBlock(compress, start, done, full);
      h, used, done := compress(h, full), 0, message;
      assert block[..used] == [];
      assert message + [] == message;
    }

    method Update(data: seq<Byte>)
      requires Valid()
      modifies this, block
      ensures Valid() && Message() == old(Message()) + data
    {
      BitsAdd(|Message()|, |data|);
      totalBits := (totalBits + |data| * 8) % 0x1_0000_0000_0000_0000;
      var pos := 0;
      while pos < |data|
        invariant 0 <= pos <= |data| && block.Length == 64 && used < 64 && Folded()
        invariant Message() == old(Message()) + data[..pos]
        invariant totalBits == BitLength(|old(Message())| + |data|)
      {
        var take := if 64 - used > |data| - pos then |data| - pos else 64 - used;
        Regroup(old(Message()), data, pos, pos + take);
        Take(data[pos..pos + take]);
        pos := pos + take;
      }
    }

    /** Bytes that fit the buffer; a full buffer is compressed. */
    method Take(piece: seq<Byte>)
      requires block.Length == 64 && used + |piece| <= 64 && Folded()
      modifies `h, `used, `done, block
      ensures used < 64 && Folded() && Message() == old(Message()) + piece
    {
      Append(piece);
      if used == 64 {
        Flush();
      }
    }

    /** Zero bytes up to a fill level of the buffer. */
    method FillZeros(level: nat)
      requires block.Length == 64 && used <= level <= 64
      modifies block, `used
      ensures used == level && Message() == old(Message()) + Zeros(level - old(used))
    {
      ghost var start := used;
      while used < level
        invariant start <= used <= level && block[..used] == old(block[..used]) + Zeros(used - start)
      {
        block[used] := 0;
        assert Zeros(used + 1 - start) == Zeros(used - start) + [0];
        used := used + 1;
      }
    }

    /** Zeros up to the last eight bytes of a block, through a block more if the buffer is too full. */
    method PadZeros()
      requires block.Length == 64 && 0 < used <= 64 && Folded()
      modifies this, block
      ensures used == 56 && Folded() && totalBits == old(totalBits)
      ensures Message() == old(Message()) + Zeros(ZerosFrom(old(used)))
    {
      if used > 56 {
        FillZeros(64);
        Flush();
        JoinZeros(old(Message()), 64 - old(used), 56);
      }
      FillZeros(56);
    }

    /** The one bit and the zeros. */
    method PadMark()
      requires block.Length == 64 && used < 64 && Folded()
      modifies this, block
      ensures used == 56 && Folded() && totalBits == old(totalBits)
      ensures Message() == old(Message()) + [0x80] + Zeros(ZerosFrom(old(used) + 1))
    {
      Append([0x80]);
      PadZeros();
    }

    /** Pad in the buffer. */
    method Pad()
      requires Valid()
      modifies this, block
      ensures block.Length == 64 && used == 64 && Folded()
      ensures Message() == old(Message()) + [0x80] + Zeros(ZerosFrom(old(used) + 1)) + BigEndian(old(totalBits), 8)
    {
      PadMark();
      var length := LengthBytes(totalBits);
      Append(length);
    }

    /** Pad and compress what is left. */
    method Final() returns (out: H)
      requires Valid()
      modifies this, block
      ensures out == Digest(compress, start, old(Message()))
    {
      ghost var m, d, u := Message(), |done|, used;
      Pad();
      Flush();
      PaddedInBuffer(m, d, u);
      out := h;
    }

    /** The eight bytes of the length, last one first. */
    method LengthBytes(bits: nat) returns (out: seq<Byte>)
      ensures out == BigEndian(bits, 8)
    {
      var rest := bits;
      out := [];
      var i := 8;
      while i > 0
        invariant 0 <= i <= 8 && BigEndian(bits, 8) == BigEndian(rest, i) + out
      {
        out := [rest % 256] + out;
        rest := rest / 256;
        i := i - 1;
      }
    }
  }

  lemma Regroup(m: seq<Byte>, data: seq<Byte>, i: nat, j: nat)
    requires i <= j <= |data|
    ensures m + data[..i] + data[i..j] == m + data[..j]
  {
    assert data[..i] + data[i..j] == data[..j];
  }

  lemma JoinZeros(m: seq<Byte>, a: nat, b: nat)
    ensures m + Zeros(a) + Zeros(b) == m + Zeros(a + b)
    ensures m + Zeros(0) == m
  {
    assert Zeros(a) + Zeros(b) == Zeros(a + b);
  }

  /** The zeros a buffer filled to `used` takes up to the length, in this block or through one more. */
  function ZerosFrom(used: nat): nat
    requires used <= 64
  {
    if used > 56 then 64 - used + 56 else 56 - used
  }

  /** They are those of the definition. */
  lemma PaddedInBuffer(m: seq<Byte>, done: nat, used: nat)
    requires |m| == done + used && done % 64 == 0 && used < 64
    ensures Padded(m) == m + [0x80] + Zeros(ZerosFrom(used + 1)) + BigEndian(BitLength(|m|), 8)
  {
    CountInBuffer(|m|, done, used);
  }

  lemma CountInBuffer(n: nat, done: nat, used: nat)
    requires n == done + used && done % 64 == 0 && used < 64
    ensures PadCount(n) == ZerosFrom(used + 1)
  {
    assert n % 64 == used;
  }

  lemma BitsAdd(n: nat, k: nat)
    ensures (BitLength(n) + k * 8) % 0x1_0000_0000_0000_0000 == BitLength(n + k)
  {
  }

  // ---- no collision comes from padding or folding ----

  function Pow256(n: nat): nat {
    if n == 0 then 1 else 256 * Pow256(n - 1)
  }

  lemma {:induction false} BigEndianInjective(v: nat, w: nat, n: nat)
    requires BigEndian(v, n) == BigEndian(w, n) && v < Pow256(n) && w < Pow256(n)
    ensures v == w
  {
    if n > 0 {
      var x, y := BigEndian(v / 256, n - 1), BigEndian(w / 256, n - 1);
      assert x == (x + [v % 256])[..n - 1] && y == (y + [w % 256])[..n - 1];
      assert (x + [v % 256])[n - 1] == (y + [w % 256])[n - 1];
      BigEndianInjective(v / 256, w / 256, n - 1);
    }
  }

  /** Two different inputs of the compression function with one result. */
  ghost predicate Collide<H>(compress: Compression<H>, v: H, x: seq<Byte>, u: H, y: seq<Byte>) {
    |x| == 64 && |y| == 64 && (v != u || x != y) && compress(v, x) == compress(u, y)
  }

  /** Different messages of one length whose fold is the same come to a collision, searched from the end. */
  lemma {:induction false} FoldCollides<H>(compress: Compression<H>, start: H, m: seq<Byte>, n: seq<Byte>)
      returns (v: H, x: seq<Byte>, u: H, y: seq<Byte>)
    requires |m| == |n| && |m| % 64 == 0 && m != n && Fold(compress, start, m) == Fold(compress, start, n)
    ensures Collide(compress, v, x, u, y)
    decreases |m|
  {
    var a, b := m[..|m| - 64], n[..|n| - 64];
    x, y := m[|m| - 64..], n[|n| - 64..];
    v, u := Fold(compress, start, a), Fold(compress, start, b);
    if v == u && x == y {
      assert m == a + x && n == b + y;
      v, x, u, y := FoldCollides(compress, start, a, b);
    }
  }

  lemma LastEight(m: seq<Byte>)
    ensures |Padded(m)| >= 8 && Padded(m)[|Padded(m)| - 8..] == BigEndian(BitLength(|m|), 8)
  {
  }

  lemma SameLength(n: nat, k: nat)
    requires n < 0x2000_0000_0000_0000 && k < 0x2000_0000_0000_0000
    requires BigEndian(BitLength(n), 8) == BigEndian(BitLength(k), 8)
    ensures n == k
  {
    assert Pow256(8) == 0x1_0000_0000_0000_0000;
    BigEndianInjective(BitLength(n), BitLength(k), 8);
  }

  lemma LastBlock(m: seq<Byte>)
    ensures |Padded(m)| >= 64
    ensures Padded(m)[|Padded(m)| - 64..][56..] == BigEndian(BitLength(|m|), 8)
  {
    LastEight(m);
    var p := Padded(m);
    assert p[|p| - 64..][56..] == p[|p| - 8..];
  }

  /** Padded messages of different lengths end in different blocks. */
  lemma LastBlocksDiffer(a: seq<Byte>, b: seq<Byte>)
    requires |a| < 0x2000_0000_0000_0000 && |b| < 0x2000_0000_0000_0000 && |a| != |b|
    ensures |Padded(a)| >= 64 && |Padded(b)| >= 64
    ensures Padded(a)[|Padded(a)| - 64..] != Padded(b)[|Padded(b)| - 64..]
  {
    LastBlock(a);
    LastBlock(b);
    if Padded(a)[|Padded(a)| - 64..] == Padded(b)[|Padded(b)| - 64..] {
      SameLength(|a|, |b|);
    }
  }

  lemma PaddedDiffer(a: seq<Byte>, b: seq<Byte>)
    requires |a| == |b| && a != b
    ensures |Padded(a)| == |Padded(b)| && Padded(a) != Padded(b)
  {
    assert Padded(a)[..|a|] == a && Padded(b)[..|b|] == b;
  }

  /** Messages below 2^61 bytes with one hash value are the same, or the compression function collides. */
  lemma DigestCollides<H>(compress: Compression<H>, start: H, a: seq<Byte>, b: seq<Byte>)
      returns (v: H, x: seq<Byte>, u: H, y: seq<Byte>)
    requires |a| < 0x2000_0000_0000_0000 && |b| < 0x2000_0000_0000_0000
    requires a != b && Digest(compress, start, a) == Digest(compress, start, b)
    ensures Collide(compress, v, x, u, y)
  {
    if |a| == |b| {
      PaddedDiffer(a, b);
      v, x, u, y := FoldCollides(compress, start, Padded(a), Padded(b));
    } else {
      LastBlocksDiffer(a, b);
      v, x := LastStep(compress, start, Padded(a));
      u, y := LastStep(compress, start, Padded(b));
    }
  }

  lemma LastStep<H>(compress: Compression<H>, start: H, m: seq<Byte>) returns (v: H, x: seq<Byte>)
    requires |m| % 64 == 0 && |m| >= 64
    ensures x == m[|m| - 64..] && Fold(compress, start, m) == compress(v, x)
  {
    v, x := Fold(compress, start, m[..|m| - 64]), m[|m| - 64..];
  }
}

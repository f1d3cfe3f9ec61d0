/**
 AES-GCM over an unknown block cipher: counter mode for the ciphertext, a polynomial hash over
 additional data and ciphertext for the tag, as in sections 6.4, 6.5, 7.1 and 7.2 of NIST SP
 800-38D with 96-bit initialisation vectors.
 */
module Gcm {
  import opened Prelude
  import opened GaloisField

  type Byte = b: seq<bool> | |b| == 8 witness Falses(8)
  type Bytes = seq<Byte>

  const ZERO_BYTE: Byte := Falses(8)

  function ZeroBytes(n: nat): (s: Bytes)
    ensures |s| == n && forall i :: 0 <= i < n ==> s[i] == ZERO_BYTE
  {
    if n == 0 then [] else ZeroBytes(n - 1) + [ZERO_BYTE]
  }

  /** Sixteen bytes: what the block cipher takes and gives. */
  type Group = g: Bytes | |g| == 16 witness ZeroBytes(16)

  function Bits(g: Group): Block {
    seq(128, i requires 0 <= i < 128 => g[i / 8][i % 8])
  }

  function XorByte(a: Byte, b: Byte): Byte {
    seq(8, i requires 0 <= i < 8 => a[i] != b[i])
  }

  function XorBytes(a: Bytes, b: Bytes): (r: Bytes)
    requires |a| == |b|
    ensures |r| == |a|
  {
    seq(|a|, i requires 0 <= i < |a| => XorByte(a[i], b[i]))
  }

  lemma XorTwice(a: Bytes, k: Bytes)
    requires |a| == |k|
    ensures XorBytes(XorBytes(a, k), k) == a
  {
    forall i | 0 <= i < |a| ensures XorByte(XorByte(a[i], k[i]), k[i]) == a[i] {
    }
  }

  // ---- numbers as bits ----

  /** The n low bits of v, most significant first. */
  function NumberBits(v: nat, n: nat): (s: seq<bool>)
    ensures |s| == n
  {
    if n == 0 then [] else NumberBits(v / 2, n - 1) + [v % 2 == 1]
  }

  function FourBytes(v: nat): (s: Bytes)
    ensures |s| == 4
  {
    var b := NumberBits(v, 32);
    [b[0..8], b[8..16], b[16..24], b[24..32]]
  }

  // ---- the polynomial hash ----

  function Ghash(h: Block, blocks: seq<Block>): Block {
    if blocks == [] then ZERO
    else Times(Xor(Ghash(h, blocks[..|blocks| - 1]), blocks[|blocks| - 1]), h)
  }

  /** Data cut into groups, the last one filled up with zeros. */
  function Filled(piece: Bytes): (g: Group)
    requires |piece| <= 16
    ensures g[..|piece|] == piece && forall i :: |piece| <= i < 16 ==> g[i] == ZERO_BYTE
  {
    piece + ZeroBytes(16 - |piece|)
  }

  function Groups(data: Bytes): seq<Block> {
    if data == [] then []
    else if |data| <= 16 then [Bits(Filled(data))]
    else [Bits(data[..16])] + Groups(data[16..])
  }

  function LengthBlock(a: nat, c: nat): Block {
    NumberBits(8 * a, 64) + NumberBits(8 * c, 64)
  }

  function HashInput(aad: Bytes, ct: Bytes): seq<Block> {
    Groups(aad) + Groups(ct) + [LengthBlock(|aad|, |ct|)]
  }

  lemma GhashNext(h: Block, blocks: seq<Block>, b: Block)
    ensures Ghash(h, blocks + [b]) == Times(Xor(Ghash(h, blocks), b), h)
  {
    assert (blocks + [b])[..|blocks|] == blocks;
  }

  /** Blocks added one by one. */
  function XorBlocks(a: seq<Block>, b: seq<Block>): (r: seq<Block>)
    requires |a| == |b|
    ensures |r| == |a|
  {
    seq(|a|, i requires 0 <= i < |a| => Xor(a[i], b[i]))
  }

  /** The hash is linear over inputs of one length. */
  lemma {:induction false} GhashLinear(h: Block, a: seq<Block>, b: seq<Block>)
    requires |a| == |b|
    ensures Ghash(h, XorBlocks(a, b)) == Xor(Ghash(h, a), Ghash(h, b))
    decreases |a|
  {
    if a == [] {
      XorLaws(ZERO, ZERO, ZERO);
    } else {
      var n := |a| - 1;
      var x, y := Ghash(h, a[..n]), Ghash(h, b[..n]);
      GhashLinear(h, a[..n], b[..n]);
      assert XorBlocks(a, b)[..n] == XorBlocks(a[..n], b[..n]);
      XorShuffle(x, y, a[n], b[n]);
      TimesLinear(Xor(x, a[n]), Xor(y, b[n]), h);
    }
  }

  lemma {:induction false} GroupsNext(data: Bytes, piece: Bytes)
    requires |data| % 16 == 0 && 0 < |piece| <= 16
    ensures Groups(data + piece) == Groups(data) + [Bits(Filled(piece))]
    decreases |data|
  {
    if data == [] {
      assert data + piece == piece;
    } else {
      assert (data + piece)[..16] == data[..16] && (data + piece)[16..] == data[16..] + piece;
      GroupsNext(data[16..], piece);
      if |data| == 16 {
        assert Filled(data) == data && data[..16] == data && Groups(data[16..]) == [];
      }
    }
  }

  lemma AbsorbStep(h: Block, before: seq<Block>, data: Bytes, off: nat, take: nat)
    requires off % 16 == 0 && off + take <= |data| && 0 < take <= 16
    ensures Ghash(h, before + Groups(data[..off + take])) ==
      Times(Xor(Ghash(h, before + Groups(data[..off])), Bits(Filled(data[off..off + take]))), h)
  {
    var block := Bits(Filled(data[off..off + take]));
    assert data[..off] + data[off..off + take] == data[..off + take];
    GroupsNext(data[..off], data[off..off + take]);
    GhashNext(h, before + Groups(data[..off]), block);
    assert before + Groups(data[..off]) + [block] == before + Groups(data[..off + take]);
  }

  /** Run data through the hash, group by group. */
  method Absorb(h: Block, start: Block, ghost before: seq<Block>, data: Bytes) returns (y: Block)
    requires start == Ghash(h, before)
    ensures y == Ghash(h, before + Groups(data))
  {
    y := start;
    var off := 0;
    assert before + Groups([]) == before;
    while off < |data|
      invariant 0 <= off <= |data| && (off % 16 == 0 || off == |data|)
      invariant y == Ghash(h, before + Groups(data[..off]))
    {
      var take := if |data| - off > 16 then 16 else |data| - off;
      var block := Bits(Filled(data[off..off + take]));
      AbsorbStep(h, before, data, off, take);
      y := Multiply(Xor(y, block), h);
      off := off + take;
    }
    assert data[..off] == data;
  }

  method HashData(h: Block, aad: Bytes, ct: Bytes) returns (y: Block)
    ensures y == Ghash(h, HashInput(aad, ct))
  {
    y := Absorb(h, ZERO, [], aad);
    assert [] + Groups(aad) == Groups(aad);
    y := Absorb(h, y, Groups(aad), ct);
    GhashNext(h, Groups(aad) + Groups(ct), LengthBlock(|aad|, |ct|));
    y := Multiply(Xor(y, LengthBlock(|aad|, |ct|)), h);
  }

  // ---- counter mode ----

  /** A 96-bit initialisation vector. */
  type Iv = v: Bytes | |v| == 12 witness ZeroBytes(12)

  type Cipher = Group -> Group

  function Counter(iv: Iv, c: nat): Group {
    iv + FourBytes(c)
  }

  /** The first n bytes of key stream from counter c on; the counter is 32 bits wide. */
  function KeyStream(aes: Cipher, iv: Iv, c: nat, n: nat): (s: Bytes)
    ensures |s| == n
    decreases n
  {
    if n <= 16 then aes(Counter(iv, c))[..n]
    else aes(Counter(iv, c)) + KeyStream(aes, iv, (c + 1) % 0x1_0000_0000, n - 16)
  }

  /** Counter mode: the same function turns plaintext into ciphertext and back. */
  function Gctr(aes: Cipher, iv: Iv, data: Bytes): (r: Bytes)
    ensures |r| == |data|
  {
    XorBytes(data, KeyStream(aes, iv, 2, |data|))
  }

  lemma GctrTwice(aes: Cipher, iv: Iv, data: Bytes)
    ensures Gctr(aes, iv, Gctr(aes, iv, data)) == data
  {
    XorTwice(data, KeyStream(aes, iv, 2, |data|));
  }

  /** Bytes from `off` on, with the key stream from counter c on. */
  function Rest(aes: Cipher, iv: Iv, data: Bytes, off: nat, c: nat): Bytes
    requires off <= |data|
  {
    XorBytes(data[off..], KeyStream(aes, iv, c, |data| - off))
  }

  lemma RestNext(aes: Cipher, iv: Iv, data: Bytes, off: nat, c: nat, out: Bytes)
    requires off < |data|
    ensures var take := if |data| - off > 16 then 16 else |data| - off;
      out + Rest(aes, iv, data, off, c) ==
        out + XorBytes(data[off..off + take], aes(Counter(iv, c))[..take]) +
          Rest(aes, iv, data, off + take, (c + 1) % 0x1_0000_0000)
  {
    var take := if |data| - off > 16 then 16 else |data| - off;
    var stream, next := KeyStream(aes, iv, c, |data| - off),
      KeyStream(aes, iv, (c + 1) % 0x1_0000_0000, |data| - off - take);
    if |data| - off > 16 {
      assert aes(Counter(iv, c))[..take] == aes(Counter(iv, c));
    }
    assert stream == aes(Counter(iv, c))[..take] + next;
    assert data[off..] == data[off..off + take] + data[off + take..];
    assert Rest(aes, iv, data, off, c) ==
      XorBytes(data[off..off + take], aes(Counter(iv, c))[..take]) +
        Rest(aes, iv, data, off + take, (c + 1) % 0x1_0000_0000);
  }

  method CounterMode(aes: Cipher, iv: Iv, data: Bytes) returns (out: Bytes)
    ensures out == Gctr(aes, iv, data)
  {
    out := [];
    var off, counter := 0, 2;
    assert data[0..] == data;
    while off < |data|
      invariant 0 <= off <= |data| && 0 <= counter
      invariant out + Rest(aes, iv, data, off, counter) == Gctr(aes, iv, data)
    {
      var ks := aes(Counter(iv, counter));
      var take := if |data| - off > 16 then 16 else |data| - off;
      RestNext(aes, iv, data, off, counter, out);
      out := out + XorBytes(data[off..off + take], ks[..take]);
      off := off + take;
      counter := (counter + 1) % 0x1_0000_0000;
    }
    assert out + [] == out;
  }

  // ---- authenticated encryption ----

  function Tag(aes: Cipher, iv: Iv, aad: Bytes, ct: Bytes): Block {
    Xor(Ghash(Bits(aes(ZeroBytes(16))), HashInput(aad, ct)), Bits(aes(Counter(iv, 1))))
  }

  lemma {:induction false} GroupCount(a: Bytes, b: Bytes)
    requires |a| == |b|
    ensures |Groups(a)| == |Groups(b)|
    decreases |a|
  {
    if |a| > 16 {
      GroupCount(a[16..], b[16..]);
    }
  }

  /**
   Under one initialisation vector the mask drops out: the difference of two tags is the hash of the
   difference of what was hashed.
   */
  lemma TagsDiffer(aes: Cipher, iv: Iv, aad: Bytes, ct: Bytes, aad2: Bytes, ct2: Bytes)
    requires |aad| == |aad2| && |ct| == |ct2|
    ensures |HashInput(aad, ct)| == |HashInput(aad2, ct2)|
    ensures Xor(Tag(aes, iv, aad, ct), Tag(aes, iv, aad2, ct2)) ==
      Ghash(Bits(aes(ZeroBytes(16))), XorBlocks(HashInput(aad, ct), HashInput(aad2, ct2)))
  {
    GroupCount(aad, aad2);
    GroupCount(ct, ct2);
    var h, mask := Bits(aes(ZeroBytes(16))), Bits(aes(Counter(iv, 1)));
    var x, y := Ghash(h, HashInput(aad, ct)), Ghash(h, HashInput(aad2, ct2));
    GhashLinear(h, HashInput(aad, ct), HashInput(aad2, ct2));
    XorShuffle(x, mask, y, mask);
    XorLaws(Xor(x, y), mask, mask);
  }

  method Encrypt(aes: Cipher, iv: Iv, aad: Bytes, plaintext: Bytes) returns (ct: Bytes, tag: Block)
    ensures ct == Gctr(aes, iv, plaintext) && tag == Tag(aes, iv, aad, ct)
  {
    ct := CounterMode(aes, iv, plaintext);
    var hash := HashData(Bits(aes(ZeroBytes(16))), aad, ct);
    tag := Xor(hash, Bits(aes(Counter(iv, 1))));
  }

  /** Compare every bit, whatever the first difference. */
  method SameTag(a: Block, b: Block) returns (same: bool)
    ensures same <==> a == b
  {
    same := true;
    for i := 0 to 128
      invariant same <==> a[..i] == b[..i]
    {
      assert a[..i + 1] == a[..i] + [a[i]] && b[..i + 1] == b[..i] + [b[i]];
      if a[i] != b[i] {
        same := false;
      }
    }
    assert a[..128] == a && b[..128] == b;
  }

  function Decrypted(aes: Cipher, iv: Iv, aad: Bytes, ct: Bytes, tag: Block): Option<Bytes> {
    if tag == Tag(aes, iv, aad, ct) then Some(Gctr(aes, iv, ct)) else None
  }

  method Decrypt(aes: Cipher, iv: Iv, aad: Bytes, ct: Bytes, tag: Block) returns (plaintext: Option<Bytes>)
    ensures plaintext == Decrypted(aes, iv, aad, ct, tag)
  {
    var hash := HashData(Bits(aes(ZeroBytes(16))), aad, ct);
    var ok := SameTag(Xor(hash, Bits(aes(Counter(iv, 1)))), tag);
    if !ok {
      return None;
    }
    var out := CounterMode(aes, iv, ct);
    plaintext := Some(out);
  }

  // ---- the stored envelope ----

  const OVERHEAD: nat := 28
  const INT_MAX: nat := 0x7FFF_FFFF

  function TagBytes(tag: Block): (s: Bytes)
    ensures |s| == 16
  {
    seq(16, i requires 0 <= i < 16 => tag[8 * i..8 * i + 8])
  }

  lemma TagRoundTrip(tag: Block)
    ensures Bits(TagBytes(tag)) == tag
  {
    forall i | 0 <= i < 128 ensures Bits(TagBytes(tag))[i] == tag[i] {
      assert TagBytes(tag)[i / 8] == tag[8 * (i / 8)..8 * (i / 8) + 8];
    }
  }

  /** The first pass: the ciphertext alone, before the additional data is known. */
  method EncryptStream(aes: Cipher, iv: Iv, plaintext: Bytes) returns (ct: Option<Bytes>)
    ensures ct == if |plaintext| <= INT_MAX then Some(Gctr(aes, iv, plaintext)) else None
  {
    if |plaintext| > INT_MAX {
      return None;
    }
    var stream, tag := Encrypt(aes, iv, [], plaintext);
    ct := Some(stream);
  }

  /** What the second pass stores: initialisation vector, ciphertext and tag. */
  function Envelope(aes: Cipher, iv: Iv, aad: Bytes, plaintext: Bytes): Bytes {
    iv + Gctr(aes, iv, plaintext) + TagBytes(Tag(aes, iv, aad, Gctr(aes, iv, plaintext)))
  }

  method EncryptWithAad(aes: Cipher, iv: Iv, aad: Bytes, plaintext: Bytes) returns (out: Option<Bytes>)
    ensures out == if |plaintext| <= INT_MAX && |aad| <= INT_MAX then Some(Envelope(aes, iv, aad, plaintext)) else None
  {
    if |plaintext| > INT_MAX || |aad| > INT_MAX {
      return None;
    }
    var ct, tag := Encrypt(aes, iv, aad, plaintext);
    out := Some(iv + ct + TagBytes(tag));
  }

  /** Open an envelope; anything that was not sealed under this key and additional data is refused. */
  method Open(aes: Cipher, aad: Bytes, data: Bytes) returns (plaintext: Option<Bytes>)
    ensures plaintext == Opened(aes, aad, data)
  {
    if |data| < OVERHEAD || |data| - OVERHEAD > INT_MAX || |aad| > INT_MAX {
      return None;
    }
    var n := |data|;
    var iv: Iv, ct, last: Group := data[..12], data[12..n - 16], data[n - 16..];
    var tag := Bits(last);
    plaintext := Decrypt(aes, iv, aad, ct, tag);
  }

  function Opened(aes: Cipher, aad: Bytes, data: Bytes): Option<Bytes> {
    if |data| < OVERHEAD || |data| - OVERHEAD > INT_MAX || |aad| > INT_MAX then None
    else
      var n := |data|;
      var iv: Iv, ct, last: Group := data[..12], data[12..n - 16], data[n - 16..];
      Decrypted(aes, iv, aad, ct, Bits(last))
  }

  /** What was sealed opens again, for every length, and holds the first pass's stream. */
  lemma SealedOpens(aes: Cipher, iv: Iv, aad: Bytes, plaintext: Bytes)
    requires |plaintext| <= INT_MAX && |aad| <= INT_MAX
    ensures var sealed := Envelope(aes, iv, aad, plaintext);
      && |sealed| == |plaintext| + OVERHEAD
      && sealed[12..|sealed| - 16] == Gctr(aes, iv, plaintext)
      && Opened(aes, aad, sealed) == Some(plaintext)
  {
    var sealed := Envelope(aes, iv, aad, plaintext);
    var ct := Gctr(aes, iv, plaintext);
    var n := |sealed|;
    assert sealed[..12] == iv && sealed[12..n - 16] == ct && sealed[n - 16..] == TagBytes(Tag(aes, iv, aad, ct));
    TagRoundTrip(Tag(aes, iv, aad, ct));
    GctrTwice(aes, iv, plaintext);
  }

  /** Whatever opens is the envelope of what comes out: nothing that was not sealed under this key and data opens. */
  lemma OpenedIsSealed(aes: Cipher, aad: Bytes, data: Bytes)
    requires Opened(aes, aad, data).Some?
    ensures |data| >= OVERHEAD && data == Envelope(aes, data[..12], aad, Opened(aes, aad, data).value)
  {
    var n := |data|;
    var iv: Iv, ct, last: Group := data[..12], data[12..n - 16], data[n - 16..];
    var tag := Tag(aes, iv, aad, ct);
    GctrTwice(aes, iv, ct);
    TagRoundTrip(tag);
    BitsInjective(last, TagBytes(tag));
    assert data == iv + ct + last;
  }

  /** Of all tags exactly one opens a ciphertext: envelopes that open and differ in the tag at most are the same. */
  lemma OneTagOpens(aes: Cipher, aad: Bytes, a: Bytes, b: Bytes)
    requires Opened(aes, aad, a).Some? && Opened(aes, aad, b).Some? && |a| == |b| && a[..|a| - 16] == b[..|b| - 16]
    ensures a == b
  {
    var n := |a|;
    assert a[..12] == a[..n - 16][..12] && b[..12] == b[..n - 16][..12];
    assert a[12..n - 16] == a[..n - 16][12..] && b[12..n - 16] == b[..n - 16][12..];
    BitsInjective(a[n - 16..], b[n - 16..]);
    assert a == a[..n - 16] + a[n - 16..] && b == b[..n - 16] + b[n - 16..];
  }

  lemma BitsInjective(g: Group, k: Group)
    requires Bits(g) == Bits(k)
    ensures g == k
  {
    forall i | 0 <= i < 16 ensures g[i] == k[i] {
      forall j | 0 <= j < 8 ensures g[i][j] == k[i][j] {
        assert Bits(g)[8 * i + j] == Bits(k)[8 * i + j];
        assert (8 * i + j) / 8 == i && (8 * i + j) % 8 == j;
      }
    }
  }
}

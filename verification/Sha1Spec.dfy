/** SHA-1 as FIPS 180-4 defines it, on a whole message at once. */
module Sha1Spec {
  import opened Bytes

  type Word = bv32

  datatype Hash = Hash(a: Word, b: Word, c: Word, d: Word, e: Word)

  /** Section 2.2.2: the rotation is the circular shift of the word. */
  function Rotl(x: Word, n: nat): Word
    requires n < 32
  {
    x.RotateLeft(n)
  }

  /** Section 2.2.2: addition is modulo 2^32. */
  function Plus(x: Word, y: Word): Word { x + y }

  function Sum(u: Word, v: Word, x: Word, y: Word, z: Word): Word {
    Plus(Plus(Plus(Plus(u, v), x), y), z)
  }

  /** Section 4.1.1. */
  function Ch(x: Word, y: Word, z: Word): Word { (x & y) ^ (!x & z) }

  function Parity(x: Word, y: Word, z: Word): Word { x ^ y ^ z }

  function Maj(x: Word, y: Word, z: Word): Word { (x & y) ^ (x & z) ^ (y & z) }

  function F(t: nat, x: Word, y: Word, z: Word): Word {
    if t < 20 then Ch(x, y, z)
    else if t < 40 then Parity(x, y, z)
    else if t < 60 then Maj(x, y, z)
    else Parity(x, y, z)
  }

  /** Section 4.2.1. */
  function K(t: nat): Word {
    if t < 20 then 0x5a827999
    else if t < 40 then 0x6ed9eba1
    else if t < 60 then 0x8f1bbcdc
    else 0xca62c1d6
  }

  /** Section 5.3.1. */
  const H0 := Hash(0x67452301, 0xefcdab89, 0x98badcfe, 0x10325476, 0xc3d2e1f0)

  /** Section 3.1: four bytes are a word, the most significant first. */
  function WordAt(b: seq<Byte>, i: nat): Word
    requires i + 4 <= |b|
  {
    (b[i] as Word << 24) | (b[i + 1] as Word << 16) | (b[i + 2] as Word << 8) | b[i + 3] as Word
  }

  /** Section 6.1.2, step 1: the message schedule. */
  function W(block: seq<Byte>, t: nat): Word
    requires |block| == 64
  {
    if t < 16 then WordAt(block, 4 * t)
    else Rotl(W(block, t - 3) ^ W(block, t - 8) ^ W(block, t - 14) ^ W(block, t - 16), 1)
  }

  /** Section 6.1.2, step 3: one round. */
  function Round(h: Hash, t: nat, w: Word): Hash {
    Hash(Sum(Rotl(h.a, 5), F(t, h.b, h.c, h.d), h.e, K(t), w), h.a, Rotl(h.b, 30), h.c, h.d)
  }

  function Rounds(h: Hash, block: seq<Byte>, t: nat): Hash
    requires |block| == 64
  {
    if t == 0 then h else Round(Rounds(h, block, t - 1), t - 1, W(block, t - 1))
  }

  /** Section 6.1.2, steps 2 to 4: one block. */
  function Compress(h: Hash, block: seq<Byte>): Hash
    requires |block| == 64
  {
    var r := Rounds(h, block, 80);
    Hash(Plus(h.a, r.a), Plus(h.b, r.b), Plus(h.c, r.c), Plus(h.d, r.d), Plus(h.e, r.e))
  }

  /** The hash value after the whole blocks of `m`. */
  function HashBlocks(m: seq<Byte>): Hash
    requires |m| % 64 == 0
  {
    if m == [] then H0 else Compress(HashBlocks(m[..|m| - 64]), m[|m| - 64..])
  }

  /** Section 6.1.2: each block is compressed into the hash value of the blocks before it. */
  lemma HashBlocksChain(m: seq<Byte>, block: seq<Byte>)
    requires |m| % 64 == 0 && |block| == 64
    ensures HashBlocks([]) == H0 && HashBlocks(m + block) == Compress(HashBlocks(m), block)
  {
    hide Compress;
    assert (m + block)[..|m + block| - 64] == m && (m + block)[|m + block| - 64..] == block;
  }

  function Zeros(n: nat): (z: seq<Byte>)
    ensures |z| == n && forall i :: 0 <= i < n ==> z[i] == 0
  {
    seq(n, _ => 0)
  }

  /** The big-endian representation of `v` in `n` bytes. */
  function BigEndian(v: nat, n: nat): (b: seq<Byte>)
    ensures |b| == n
  {
    if n == 0 then [] else BigEndian(v / 256, n - 1) + [(v % 256) as Byte]
  }

  /** The number of zero bytes in the padding: the least that brings the length to 56 modulo 64. */
  function ZeroCount(n: nat): (k: nat)
    ensures k < 64 && (n + 1 + k) % 64 == 56
  {
    (119 - n % 64) % 64
  }

  /** Section 5.1.1: the padding for a message whose length field reads `bits`. */
  function Padded(m: seq<Byte>, bits: nat): (p: seq<Byte>)
    ensures |p| % 64 == 0
  {
    m + [0x80] + Zeros(ZeroCount(|m|)) + BigEndian(bits, 8)
  }

  function WordBytes(w: Word): (b: seq<Byte>)
    ensures |b| == 4
  {
    [((w >> 24) & 0xff) as Byte, ((w >> 16) & 0xff) as Byte, ((w >> 8) & 0xff) as Byte, (w & 0xff) as Byte]
  }

  function DigestBytes(h: Hash): (d: seq<Byte>)
    ensures |d| == 20
  {
    WordBytes(h.a) + WordBytes(h.b) + WordBytes(h.c) + WordBytes(h.d) + WordBytes(h.e)
  }

  /** SHA-1 of a message of fewer than 2^64 bits. */
  function Sha1(m: seq<Byte>): (d: seq<Byte>)
    requires 8 * |m| < 0x1_0000_0000_0000_0000
    ensures |d| == 20
  {
    DigestBytes(HashBlocks(Padded(m, 8 * |m|)))
  }

  /** The code's form of Ch joins the two halves with OR. */
  lemma ChOr(x: Word, y: Word, z: Word)
    ensures (x & y) | (!x & z) == Ch(x, y, z)
  {
  }

  /** The code's form of Maj joins the three pairs with OR. */
  lemma MajOr(x: Word, y: Word, z: Word)
    ensures (x & y) | (x & z) | (y & z) == Maj(x, y, z)
  {
  }

  /** A rotation is two shifts. */
  lemma RotlShifts(x: Word)
    ensures (x << 1) | (x >> 31) == Rotl(x, 1)
    ensures (x << 5) | (x >> 27) == Rotl(x, 5)
    ensures (x << 30) | (x >> 2) == Rotl(x, 30)
  {
  }

  /** The padding uses the fewest zero bytes. */
  lemma ZeroCountLeast(n: nat, k: nat)
    requires (n + 1 + k) % 64 == 56
    ensures ZeroCount(n) <= k
  {
  }
}

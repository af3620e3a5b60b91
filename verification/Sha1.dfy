/** The streaming SHA-1: a context with a 64-byte buffer filled in place, proved to compute what
    FIPS 180-4 defines on the whole message. */
module Sha1Stream {
  import opened Bytes
  import Seqs
  import opened Sha1Spec

  /** Lengths are kept in 64-bit unsigned integers. */
  const U64 := 0x1_0000_0000_0000_0000

  /** Everything a context holds. */
  datatype Context = Context(h: Hash, total: nat, block: seq<Byte>, used: nat)

  /** The bytes of `m` that fill whole blocks. */
  function Base(m: seq<Byte>): (n: nat)
    ensures n <= |m| && n % 64 == 0 && |m| - n == |m| % 64
  {
    |m| - |m| % 64
  }

  /** What the last whole block of `m` left in the buffer. */
  function LastBlock(m: seq<Byte>): (b: seq<Byte>)
    ensures |b| == 64
  {
    var n := Base(m);
    if n >= 64 then m[n - 64..n] else Zeros(64)
  }

  /** The buffer once `m` has gone through it: the unfinished block over what the last one left. */
  function Buffer(m: seq<Byte>): (b: seq<Byte>)
    ensures |b| == 64
  {
    m[Base(m)..] + LastBlock(m)[|m| % 64..]
  }

  lemma EmptyBuffer()
    ensures Buffer([]) == Zeros(64) && HashBlocks([]) == H0
  {
    assert Zeros(64)[0..] == Zeros(64);
  }

  /** The context after `m`, however it was cut into updates. */
  function ContextOf(m: seq<Byte>): Context {
    Context(HashBlocks(m[..Base(m)]), |m| % U64, Buffer(m), |m| % 64)
  }

  /** Overwriting `z` from the front by `a`, and then from there by `c`. */
  lemma Overlay(a: seq<Byte>, c: seq<Byte>, z: seq<Byte>)
    requires |a| + |c| <= |z|
    ensures var o := a + z[|a|..]; (a + c) + z[|a| + |c|..] == o[..|a|] + c + o[|a| + |c|..]
  {
    var o := a + z[|a|..];
    assert o[..|a|] == a && o[|a| + |c|..] == z[|a| + |c|..];
  }

  /** The blocks and the unfinished block of `m` with a chunk that does not complete it. */
  lemma PartialParts(m: seq<Byte>, chunk: seq<Byte>)
    requires |m| % 64 + |chunk| < 64
    ensures Base(m + chunk) == Base(m) && |m + chunk| % 64 == |m| % 64 + |chunk|
    ensures (m + chunk)[..Base(m)] == m[..Base(m)] && (m + chunk)[Base(m)..] == m[Base(m)..] + chunk
  {
    Seqs.SliceOfFront(m, chunk, 0, Base(m));
    Seqs.DropFront(m, chunk, Base(m));
  }

  lemma LastBlockKept(m: seq<Byte>, chunk: seq<Byte>)
    requires |m| % 64 + |chunk| < 64
    ensures LastBlock(m + chunk) == LastBlock(m)
  {
    var n := Base(m);
    assert Base(m + chunk) == n;
    if n >= 64 { Seqs.SliceOfFront(m, chunk, n - 64, n); }
  }

  /** A chunk that does not complete the block only extends the buffer. */
  lemma AppendPartial(m: seq<Byte>, chunk: seq<Byte>)
    requires |m| % 64 + |chunk| < 64
    ensures Base(m + chunk) == Base(m) && |m + chunk| % 64 == |m| % 64 + |chunk|
    ensures (m + chunk)[..Base(m + chunk)] == m[..Base(m)]
    ensures Buffer(m + chunk) == Buffer(m)[..|m| % 64] + chunk + Buffer(m)[|m| % 64 + |chunk|..]
  {
    hide LastBlock, Base;
    PartialParts(m, chunk);
    LastBlockKept(m, chunk);
    Overlay(m[Base(m)..], chunk, LastBlock(m));
  }

  /** The blocks of `m` with a chunk that completes the last one. */
  lemma FullParts(m: seq<Byte>, chunk: seq<Byte>)
    requires |m| % 64 + |chunk| == 64
    ensures var x := m + chunk;
            && Base(x) == |x| == Base(m) + 64 && |x| % 64 == 0
            && x[..Base(m)] == m[..Base(m)] && x[Base(m)..] == m[Base(m)..] + chunk
  {
    Seqs.SliceOfFront(m, chunk, 0, Base(m));
    Seqs.DropFront(m, chunk, Base(m));
  }

  lemma FullBuffer(x: seq<Byte>)
    requires Base(x) == |x| >= 64
    ensures Buffer(x) == x[|x| - 64..]
  {
    assert x[|x|..] == [];
    assert x[|x| - 64..|x|] == x[|x| - 64..];
  }

  lemma BufferFront(m: seq<Byte>)
    ensures Buffer(m)[..|m| % 64] == m[Base(m)..]
  {
    hide LastBlock;
  }

  /** A chunk that completes the block is hashed with what the buffer held. */
  lemma AppendFull(m: seq<Byte>, chunk: seq<Byte>)
    requires |m| % 64 + |chunk| == 64
    ensures |m + chunk| % 64 == 0
    ensures Buffer(m + chunk) == Buffer(m)[..|m| % 64] + chunk
    ensures HashBlocks((m + chunk)[..Base(m + chunk)])
         == Compress(HashBlocks(m[..Base(m)]), Buffer(m)[..|m| % 64] + chunk)
  {
    hide Buffer, Compress, Base, LastBlock;
    var x := m + chunk;
    FullParts(m, chunk);
    FullBuffer(x);
    BufferFront(m);
    assert x[..|x|] == x;
  }

  /** `v` shifted right by `k` bytes, written as repeated division. */
  function ShiftBytes(v: nat, k: nat): nat {
    if k == 0 then v else ShiftBytes(v / 256, k - 1)
  }

  lemma {:induction false} BigEndianAt(v: nat, n: nat, i: nat)
    requires i < n
    ensures BigEndian(v, n)[i] == (ShiftBytes(v, n - 1 - i) % 256) as Byte
  {
    if i < n - 1 {
      BigEndianAt(v / 256, n - 1, i);
    }
  }

  lemma ZerosGrow(n: nat)
    ensures Zeros(0) == [] && Zeros(n) + [0] == Zeros(n + 1)
  {
  }

  /** The zero bytes are enough exactly when 56 bytes of the block are used. */
  lemma ZerosFit(length: nat, zeros: nat)
    requires zeros <= ZeroCount(length)
    ensures (length + 1 + zeros) % 64 == 56 <==> zeros == ZeroCount(length)
  {
  }

  /** Byte `j` of a word, by the code's shift. */
  function ByteOf(w: Word, j: nat): Byte
    requires j < 4
  {
    ((if j == 0 then w >> 24 else if j == 1 then w >> 16 else if j == 2 then w >> 8 else w) & 0xff) as Byte
  }

  lemma ScheduleAt(p: seq<Byte>, t: nat)
    requires |p| == 64
    ensures t < 16 ==> W(p, t) == WordAt(p, 4 * t)
    ensures t >= 16 ==> W(p, t) == Rotl(W(p, t - 3) ^ W(p, t - 8) ^ W(p, t - 14) ^ W(p, t - 16), 1)
  {
    hide WordAt, Rotl;
  }

  lemma FirstRound(h: Hash, p: seq<Byte>)
    requires |p| == 64
    ensures Rounds(h, p, 0) == h
  {
  }

  lemma NextRound(h: Hash, p: seq<Byte>, t: nat)
    requires |p| == 64
    ensures Rounds(h, p, t + 1) == Round(Rounds(h, p, t), t, W(p, t))
  {
  }

  /** The code's choice of function and constant for round `t`. */
  method RoundFunction(t: nat, b: Word, c: Word, d: Word) returns (f: Word, k: Word)
    ensures f == F(t, b, c, d) && k == K(t)
  {
    hide Ch, Maj, Parity;
    if t < 20 {
      ChOr(b, c, d);
      f, k := (b & c) | (!b & d), 0x5A827999;
    } else if t < 40 {
      f, k := Parity(b, c, d), 0x6ED9EBA1;
    } else if t < 60 {
      MajOr(b, c, d);
      f, k := (b & c) | (b & d) | (c & d), 0x8F1BBCDC;
    } else {
      f, k := Parity(b, c, d), 0xCA62C1D6;
    }
  }

  class Sha1Context {
    const h: array<Word>
    var total: nat
    const block: array<Byte>
    var blockUsed: nat
    ghost var fed: seq<Byte>    // everything the context was updated with

    ghost predicate Valid()
      reads this, h, block
    {
      Shape() && total == |fed| % U64 && Digested(fed)
    }

    ghost predicate Shape() {
      h.Length == 5 && block.Length == 64
    }

    ghost function HashOf(): Hash
      requires h.Length == 5
      reads h
    {
      Hash(h[0], h[1], h[2], h[3], h[4])
    }

    /** All of the context but the length is what `m` determines. */
    ghost predicate Digested(m: seq<Byte>)
      requires Shape()
      reads `blockUsed, h, block
    {
      HashOf() == HashBlocks(m[..Base(m)]) && block[..] == Buffer(m) && blockUsed == |m| % 64
    }

    ghost function State(): Context
      requires Shape()
      reads this, h, block
    {
      Context(HashOf(), total, block[..], blockUsed)
    }

    constructor ()
      ensures Valid() && fed == [] && fresh(h) && fresh(block)
    {
      h := new Word[5][0x67452301, 0xEFCDAB89, 0x98BADCFE, 0x10325476, 0xC3D2E1F0];
      block := new Byte[64](_ => 0);
      total, blockUsed, fed := 0, 0, [];
      new;
      EmptyBuffer();
      assert block[..] == Zeros(64);
      hide Buffer, HashBlocks;
    }

    /** The message schedule, in an array of 80 words. */
    static method Schedule(p: seq<Byte>) returns (w: array<Word>)
      requires |p| == 64
      ensures fresh(w) && w.Length == 80
      ensures forall j :: 0 <= j < 80 ==> w[j] == W(p, j)
    {
      hide W, WordAt, Rotl;
      w := new Word[80];
      for i := 0 to 16
        invariant forall j :: 0 <= j < i ==> w[j] == W(p, j)
      {
        ScheduleAt(p, i);
        w[i] := WordAt(p, i * 4);
      }
      for i := 16 to 80
        invariant forall j :: 0 <= j < i ==> w[j] == W(p, j)
      {
        ScheduleAt(p, i);
        var x := w[i - 3] ^ w[i - 8] ^ w[i - 14] ^ w[i - 16];
        RotlShifts(x);
        w[i] := (x << 1) | (x >> 31);
      }
    }

    /** One block: 80 rounds on five local words, added into the hash value. */
    method ProcessBlock(p: seq<Byte>)
      requires h.Length == 5 && |p| == 64
      modifies h
      ensures HashOf() == Compress(old(HashOf()), p)
    {
      hide W, Rounds, F, K, Plus, Rotl;
      var w := Schedule(p);
      ghost var start := HashOf();
      assert Rounds(start, p, 0) == start by { FirstRound(start, p); }
      var a, b, c, d, e := h[0], h[1], h[2], h[3], h[4];
      for i := 0 to 80
        invariant Hash(a, b, c, d, e) == Rounds(start, p, i)
        invariant HashOf() == start && forall j :: 0 <= j < 80 ==> w[j] == W(p, j)
      {
        NextRound(start, p, i);
        RotlShifts(a);
        RotlShifts(b);
        var f, k := RoundFunction(i, b, c, d);
        var tmp := Sum((a << 5) | (a >> 27), f, e, k, w[i]);
        e := d;
        d := c;
        c := (b << 30) | (b >> 2);
        b := a;
        a := tmp;
      }
      h[0] := Plus(h[0], a);
      h[1] := Plus(h[1], b);
      h[2] := Plus(h[2], c);
      h[3] := Plus(h[3], d);
      h[4] := Plus(h[4], e);
    }

    /** Copies a chunk into the buffer behind what it holds. */
    method Fill(chunk: seq<Byte>)
      requires block.Length == 64 && blockUsed + |chunk| <= 64
      modifies block
      ensures block[..] == old(block[..])[..blockUsed] + chunk + old(block[..])[blockUsed + |chunk|..]
    {
      forall k | 0 <= k < |chunk| {
        block[blockUsed + k] := chunk[k];
      }
    }

    /** One turn of the update loop: copy a chunk and hash the block if that completes it. */
    method Absorb(chunk: seq<Byte>)
      requires Shape() && Digested(fed) && blockUsed + |chunk| <= 64
      modifies `blockUsed, `fed, h, block
      ensures Digested(fed) && fed == old(fed) + chunk && blockUsed < 64
    {
      hide Compress, HashBlocks, Buffer;
      ghost var m := fed;
      Fill(chunk);
      blockUsed := blockUsed + |chunk|;
      fed := m + chunk;
      if blockUsed == 64 {
        AppendFull(m, chunk);
        assert Buffer(m)[64..] == [];
        assert block[..] == Buffer(fed);
        ProcessBlock(block[..]);
        blockUsed := 0;
      } else {
        AppendPartial(m, chunk);
      }
    }

    /** Whatever was fed before, the context ends as if all of it had come in one piece. */
    method Update(data: seq<Byte>)
      requires Valid()
      modifies this, h, block
      ensures Valid() && fed == old(fed) + data
    {
      hide HashBlocks, Buffer, Digested;
      UsedOf();
      WrapAdd(|fed|, |data|);
      total := (total + |data|) % U64;
      var pos := 0;
      while pos < |data|
        invariant pos <= |data| && fed == old(fed) + data[..pos]
        invariant total == (|old(fed)| + |data|) % U64
        invariant Shape() && Digested(fed) && blockUsed < 64
      {
        var take := 64 - blockUsed;
        if take > |data| - pos {
          take := |data| - pos;
        }
        Absorb(data[pos..pos + take]);
        Seqs.TakeMore(data, pos, pos + take);
        Seqs.Assoc(old(fed), data[..pos], data[pos..pos + take]);
        pos := pos + take;
      }
      assert data[..|data|] == data;
    }

    /** The 0x80 byte and zero bytes up to the length field: at most 63 of these. */
    method Pad()
      requires Valid()
      modifies this, h, block
      ensures Valid() && fed == old(fed) + [0x80] + Zeros(ZeroCount(|old(fed)|))
    {
      hide HashBlocks, Buffer, Digested, Zeros;
      ghost var m := fed;
      Update([0x80]);
      ghost var zeros := 0;
      ZerosGrow(0);
      UsedOf();
      ZerosFit(|m|, 0);
      while blockUsed != 56
        invariant Valid() && fed == m + [0x80] + Zeros(zeros) && blockUsed == |fed| % 64
        invariant zeros <= ZeroCount(|m|) < 64
        decreases ZeroCount(|m|) - zeros
      {
        ZerosFit(|m|, zeros);
        Update([0]);
        UsedOf();
        ZerosGrow(zeros);
        assert m + [0x80] + Zeros(zeros) + [0] == m + [0x80] + (Zeros(zeros) + [0]);
        zeros := zeros + 1;
      }
      ZerosFit(|m|, zeros);
    }

    lemma UsedOf()
      requires Valid()
      ensures blockUsed == |fed| % 64
    {
      hide HashBlocks, Buffer;
    }

    lemma WholeBlocks()
      requires Valid() && |fed| % 64 == 0
      ensures blockUsed == 0 && HashOf() == HashBlocks(fed)
    {
      hide HashBlocks, Buffer;
      assert fed[..Base(fed)] == fed;
    }

    /** The eight bytes of the length field; the code's shift by whole bytes is `ShiftBytes`. */
    static method LengthField(bitLen: nat) returns (field: seq<Byte>)
      ensures field == BigEndian(bitLen, 8)
    {
      var lenField := new Byte[8];
      for i := 0 to 8
        invariant forall j :: 0 <= j < i ==> lenField[j] == BigEndian(bitLen, 8)[j]
      {
        BigEndianAt(bitLen, 8, i);
        lenField[i] := (ShiftBytes(bitLen, 7 - i) % 256) as Byte;
      }
      field := lenField[..];
    }

    /** Pads, hashes the rest and gives the digest. The buffer is empty after the length field, so
        the branch the code marks as never taken is indeed never taken. */
    method Final() returns (out: seq<Byte>)
      requires Valid()
      modifies this, h, block
      ensures out == DigestBytes(HashBlocks(Padded(old(fed), 8 * |old(fed)| % U64)))
    {
      hide HashBlocks, Buffer, DigestBytes, BigEndian, WordBytes, Padded, Digested, Zeros;
      ghost var m := fed;
      var bitLen := total * 8 % U64;
      BitLength(|m|);
      Pad();
      var lenField := LengthField(bitLen);
      Update(lenField);
      PaddedIs(m, bitLen);
      WholeBlocks();
      if blockUsed != 0 {
        assert false;
      }
      out := Output();
    }

    method Output() returns (out: seq<Byte>)
      requires h.Length == 5
      ensures out == DigestBytes(HashOf())
    {
      hide ByteOf;
      var o := new Byte[20];
      for i := 0 to 5
        invariant forall k :: 0 <= k < 4 * i ==> o[k] == ByteOf(h[k / 4], k % 4)
      {
        for j := 0 to 4
          invariant forall k :: 0 <= k < 4 * i + j ==> o[k] == ByteOf(h[k / 4], k % 4)
        {
          o[i * 4 + j] := ByteOf(h[i], j);
        }
      }
      out := o[..];
      DigestAt(h[..], out);
    }
  }

  /** The bit length does not depend on the byte count's wrap-around. */
  lemma BitLength(n: nat)
    ensures n % U64 * 8 % U64 == 8 * n % U64
  {
    var q, r := n / U64, n % U64;
    assert 8 * n == 8 * r + U64 * (8 * q);
    AddMultiple(8 * r, 8 * q);
  }

  lemma WrapAdd(a: nat, b: nat)
    ensures (a % U64 + b) % U64 == (a + b) % U64
  {
    AddMultiple(a % U64 + b, a / U64);
  }

  lemma {:induction false} AddMultiple(b: nat, q: nat)
    ensures (b + U64 * q) % U64 == b % U64
  {
    if q > 0 {
      AddMultiple(b, q - 1);
      AddOnce(b + U64 * (q - 1));
    }
  }

  lemma AddOnce(n: nat)
    ensures (n + U64) % U64 == n % U64
  {
  }

  lemma PaddedIs(m: seq<Byte>, bitLen: nat)
    ensures Padded(m, bitLen) == m + [0x80] + Zeros(ZeroCount(|m|)) + BigEndian(bitLen, 8)
    ensures |Padded(m, bitLen)| % 64 == 0
  {
    hide Zeros, BigEndian;
  }

  lemma WordByteAt(w: Word)
    ensures WordBytes(w) == [ByteOf(w, 0), ByteOf(w, 1), ByteOf(w, 2), ByteOf(w, 3)]
  {
  }

  lemma DigestWord(w: Word, d: seq<Byte>)
    requires |d| == 4 && forall k :: 0 <= k < 4 ==> d[k] == ByteOf(w, k)
    ensures d == WordBytes(w)
  {
    hide ByteOf, WordBytes;
    WordByteAt(w);
  }

  lemma DigestParts(ws: seq<Word>, d: seq<Byte>)
    requires |ws| == 5 && |d| == 20
    requires forall k :: 0 <= k < 20 ==> d[k] == ByteOf(ws[k / 4], k % 4)
    ensures forall i :: 0 <= i < 5 ==> d[4 * i..4 * i + 4] == WordBytes(ws[i])
  {
    hide ByteOf, WordBytes;
    forall i | 0 <= i < 5 ensures d[4 * i..4 * i + 4] == WordBytes(ws[i]) {
      var q := d[4 * i..4 * i + 4];
      forall k | 0 <= k < 4 ensures q[k] == ByteOf(ws[i], k) {
        assert q[k] == d[4 * i + k];
      }
      DigestWord(ws[i], q);
    }
  }

  /** The digest is fixed by its bytes, four to a word. */
  lemma DigestAt(ws: seq<Word>, d: seq<Byte>)
    requires |ws| == 5 && |d| == 20
    requires forall k :: 0 <= k < 20 ==> d[k] == ByteOf(ws[k / 4], k % 4)
    ensures d == DigestBytes(Hash(ws[0], ws[1], ws[2], ws[3], ws[4]))
  {
    hide ByteOf, WordBytes;
    DigestParts(ws, d);
    assert d == d[0..4] + d[4..8] + d[8..12] + d[12..16] + d[16..20];
    assert d[4 * 0..4 * 0 + 4] == WordBytes(ws[0]);
    assert d[4 * 1..4 * 1 + 4] == WordBytes(ws[1]);
    assert d[4 * 2..4 * 2 + 4] == WordBytes(ws[2]);
    assert d[4 * 3..4 * 3 + 4] == WordBytes(ws[3]);
    assert d[4 * 4..4 * 4 + 4] == WordBytes(ws[4]);
  }

  /** The digest of any message; for one of fewer than 2^61 bytes it is the standard's. */
  method Sha1(data: seq<Byte>) returns (d: seq<Byte>)
    ensures d == DigestBytes(HashBlocks(Padded(data, 8 * |data| % U64)))
    ensures |data| < 0x2000_0000_0000_0000 ==> d == Sha1Spec.Sha1(data)
    ensures |d| == 20
  {
    hide HashBlocks, Buffer, DigestBytes, Padded, ContextOf;
    var ctx := new Sha1Context();
    ctx.Update(data);
    assert [] + data == data;
    d := ctx.Final();
  }

  function Flatten(chunks: seq<seq<Byte>>): seq<Byte> {
    if chunks == [] then [] else Flatten(chunks[..|chunks| - 1]) + chunks[|chunks| - 1]
  }

  /** Any sequence of updates leaves the context of one update with the whole. */
  method Chunked(chunks: seq<seq<Byte>>) returns (ctx: Sha1Context)
    ensures fresh(ctx) && fresh(ctx.h) && fresh(ctx.block)
    ensures ctx.Valid() && ctx.fed == Flatten(chunks)
    ensures ctx.State() == ContextOf(Flatten(chunks))
  {
    hide HashBlocks, Buffer;
    ctx := new Sha1Context();
    for i := 0 to |chunks|
      invariant fresh(ctx) && fresh(ctx.h) && fresh(ctx.block)
      invariant ctx.Valid() && ctx.fed == Flatten(chunks[..i])
    {
      ctx.Update(chunks[i]);
      assert chunks[..i + 1][..i] == chunks[..i];
    }
    assert chunks[..|chunks|] == chunks;
  }

  /** And it gives the digest of the whole. */
  method ChunkedDigest(chunks: seq<seq<Byte>>) returns (d: seq<Byte>)
    ensures |Flatten(chunks)| < 0x2000_0000_0000_0000 ==> d == Sha1Spec.Sha1(Flatten(chunks))
  {
    hide HashBlocks, Buffer, DigestBytes, Padded, ContextOf, Sha1Context.Digested;
    var ctx := Chunked(chunks);
    d := ctx.Final();
  }
}

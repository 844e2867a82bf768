/** SHA-1 as FIPS 180-4 defines it (sections 4.1.1, 4.2.1, 5.1.1, 5.3.1 and 6.1.2), and the padding the source makes. */
module Sha1Spec {
  type Bytes = seq<bv8>

  /** The working variables and the hash value. */
  datatype Vars = Vars(a: bv32, b: bv32, c: bv32, d: bv32, e: bv32)

  const Initial := Vars(0x67452301, 0xEFCDAB89, 0x98BADCFE, 0x10325476, 0xC3D2E1F0)

  /** ROTL of section 2.2.2 by 1, 5 and 30. */
  function Rotl1(x: bv32): bv32 { (x << 1) | (x >> 31) }
  function Rotl5(x: bv32): bv32 { (x << 5) | (x >> 27) }
  function Rotl30(x: bv32): bv32 { (x << 30) | (x >> 2) }

  function Ch(x: bv32, y: bv32, z: bv32): bv32 { (x & y) ^ (!x & z) }
  function Parity(x: bv32, y: bv32, z: bv32): bv32 { x ^ y ^ z }
  function Maj(x: bv32, y: bv32, z: bv32): bv32 { (x & y) ^ (x & z) ^ (y & z) }

  function F(t: nat, x: bv32, y: bv32, z: bv32): bv32 {
    if t < 20 then Ch(x, y, z) else if t < 40 then Parity(x, y, z) else if t < 60 then Maj(x, y, z) else Parity(x, y, z)
  }

  function K(t: nat): bv32 {
    if t < 20 then 0x5A827999 else if t < 40 then 0x6ED9EBA1 else if t < 60 then 0x8F1BBCDC else 0xCA62C1D6
  }

  function Word(b: Bytes, at: nat): bv32
    requires at + 4 <= |b|
  {
    ((b[at] as bv32) << 24) | ((b[at + 1] as bv32) << 16) | ((b[at + 2] as bv32) << 8) | (b[at + 3] as bv32)
  }

  function Xor4(p: bv32, q: bv32, r: bv32, s: bv32): bv32 { p ^ q ^ r ^ s }

  /** The message schedule W_t of a block. */
  function W(b: Bytes, t: nat): bv32
    requires |b| == 64
  {
    if t < 16 then Word(b, 4 * t) else Rotl1(Xor4(W(b, t - 3), W(b, t - 8), W(b, t - 14), W(b, t - 16)))
  }

  /** Addition modulo 2 to the 32. */
  function Plus(x: bv32, y: bv32): bv32 { x + y }

  function Round(v: Vars, t: nat, w: bv32): Vars {
    var temp := Plus(Plus(Plus(Plus(Rotl5(v.a), F(t, v.b, v.c, v.d)), v.e), K(t)), w);
    Vars(temp, v.a, Rotl30(v.b), v.c, v.d)
  }

  /** The first n rounds on a block. */
  function Rounds(v: Vars, b: Bytes, n: nat): Vars
    requires |b| == 64
  {
    if n == 0 then v else Round(Rounds(v, b, n - 1), n - 1, W(b, n - 1))
  }

  function Added(h: Vars, v: Vars): Vars {
    Vars(Plus(h.a, v.a), Plus(h.b, v.b), Plus(h.c, v.c), Plus(h.d, v.d), Plus(h.e, v.e))
  }

  function Compress(h: Vars, b: Bytes): Vars
    requires |b| == 64
  {
    Added(h, Rounds(h, b, 80))
  }

  /** The compression folded over the whole blocks of the data. */
  function Blocks(h: Vars, data: Bytes): Vars
    decreases |data|
  {
    if |data| < 64 then h else Blocks(Compress(h, data[..64]), data[64..])
  }

  // ----- Padding -----

  function Zeros(n: nat): Bytes {
    seq(n, _ => 0)
  }

  /** n as k bytes, most significant first, modulo 256 to the k. */
  function BigEndian(n: nat, k: nat): (r: Bytes)
    ensures |r| == k
    decreases k
  {
    if k == 0 then [] else BigEndian(n / 256, k - 1) + [(n % 256) as bv8]
  }

  /** The number of zero bytes: the least k that leaves room for exactly the length. */
  function FipsZeros(n: nat): nat {
    (119 - n % 64) % 64
  }

  /** Section 5.1.1, for a message of n bytes. */
  function FipsPad(n: nat): Bytes {
    [0x80] + Zeros(FipsZeros(n)) + BigEndian(8 * n, 8)
  }

  /** finalize: the length goes into the same block only while more than eight bytes are left after the 0x80. */
  function SourceZeros(n: nat): nat {
    if n % 64 + 1 >= 56 then 119 - n % 64 else 55 - n % 64
  }

  function SourcePad(n: nat): Bytes {
    [0x80] + Zeros(SourceZeros(n)) + BigEndian(8 * n, 8)
  }

  lemma FipsZerosIsLeast(n: nat, k: nat)
    ensures (n + 1 + FipsZeros(n)) % 64 == 56
    ensures (n + 1 + k) % 64 == 56 ==> FipsZeros(n) <= k
  {
    var q, r := n / 64, n % 64;
    assert n == 64 * q + r;
  }

  lemma ZerosCompare(n: nat)
    ensures SourceZeros(n) == FipsZeros(n) + (if n % 64 == 55 then 64 else 0)
    ensures (n + 9 + SourceZeros(n)) % 64 == 0
  {
  }

  lemma PadLengths(n: nat)
    ensures |SourcePad(n)| == 9 + SourceZeros(n) && |FipsPad(n)| == 9 + FipsZeros(n)
  {
  }

  /** The padding is the standard's unless the length is 55 modulo 64, where it is one block longer. */
  lemma PaddingIsFipsIff(n: nat)
    ensures SourcePad(n) == FipsPad(n) <==> n % 64 != 55
    ensures |SourcePad(n)| == |FipsPad(n)| + (if n % 64 == 55 then 64 else 0)
    ensures (n + |SourcePad(n)|) % 64 == 0
  {
    ZerosCompare(n);
    PadLengths(n);
  }

  lemma ZerosAt55(n: nat)
    requires n % 64 == 55
    ensures SourceZeros(n) == 64 && FipsZeros(n) == 0
  {
  }

  lemma NoZeros(length: Bytes)
    ensures [0x80] + Zeros(0) + length == [0x80] + length
  {
  }

  /** At those lengths the first block is the message's end, 0x80 and zeros, and the length comes a block later. */
  lemma ExtraBlock(n: nat)
    requires n % 64 == 55
    ensures SourcePad(n) == [0x80] + Zeros(64) + BigEndian(8 * n, 8)
    ensures FipsPad(n) == [0x80] + BigEndian(8 * n, 8)
  {
    ZerosAt55(n);
    NoZeros(BigEndian(8 * n, 8));
  }

  lemma {:induction false} BlocksAppend(h: Vars, a: Bytes, b: Bytes)
    requires |a| % 64 == 0 && |b| == 64
    ensures Blocks(h, a + b) == Compress(Blocks(h, a), b)
    decreases |a|
  {
    if a == [] {
      assert a + b == b && b[..64] == b && b[64..] == [];
    } else {
      assert (a + b)[..64] == a[..64] && (a + b)[64..] == a[64..] + b;
      BlocksAppend(Compress(h, a[..64]), a[64..], b);
    }
  }

  function Bytes4(x: bv32): Bytes {
    [(x >> 24) as bv8, ((x >> 16) & 0xFF) as bv8, ((x >> 8) & 0xFF) as bv8, (x & 0xFF) as bv8]
  }

  function OutputOf(h: Vars): (r: Bytes)
    ensures |r| == 20
  {
    Bytes4(h.a) + Bytes4(h.b) + Bytes4(h.c) + Bytes4(h.d) + Bytes4(h.e)
  }

  /** What the source computes for a message, and what the standard defines. */
  function Digest(message: Bytes): Bytes {
    OutputOf(Blocks(Initial, message + SourcePad(|message|)))
  }

  function FipsDigest(message: Bytes): Bytes {
    OutputOf(Blocks(Initial, message + FipsPad(|message|)))
  }

  /** For every message shorter than 2 to the 61 bytes whose length is not 55 modulo 64 the digest is the standard's. */
  lemma DigestIsFips(message: Bytes)
    requires |message| % 64 != 55
    ensures Digest(message) == FipsDigest(message)
  {
    PaddingIsFipsIff(|message|);
  }

  /** For the others it is the standard's compression over one block more. */
  lemma DigestWithExtraBlock(message: Bytes)
    requires |message| % 64 == 55
    ensures Digest(message) ==
            OutputOf(Compress(Blocks(Initial, message + [0x80] + Zeros(8)), Zeros(56) + BigEndian(8 * |message|, 8)))
  {
    var first, last := message + [0x80] + Zeros(8), Zeros(56) + BigEndian(8 * |message|, 8);
    ExtraBlock(|message|);
    assert |first| == |message| + 9;
    NineMore(|message|);
    ExtraBlockSplit(message, BigEndian(8 * |message|, 8));
    BlocksAppend(Initial, first, last);
  }

  lemma ExtraBlockSplit(message: Bytes, length: Bytes)
    ensures message + ([0x80] + Zeros(64) + length) == (message + [0x80] + Zeros(8)) + (Zeros(56) + length)
  {
    var tail := Zeros(56) + length;
    assert Zeros(64) == Zeros(8) + Zeros(56);
    assert [0x80] + Zeros(64) + length == ([0x80] + Zeros(8)) + tail;
    assert message + ([0x80] + Zeros(8)) == message + [0x80] + Zeros(8);
    assert message + (([0x80] + Zeros(8)) + tail) == (message + ([0x80] + Zeros(8))) + tail;
  }

  lemma NineMore(n: nat)
    requires n % 64 == 55
    ensures (n + 9) % 64 == 0
  {
  }
}

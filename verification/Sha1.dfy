/** The SHA1 class: blocks filled by update, closed by finalize, and digested in place. */
module Sha1 {
  import opened Bits
  import opened Sha1Spec

  const LengthModulus := 0x1_0000_0000_0000_0000

  // The class's forms of the word operations are the standard's.

  lemma ChForms(b: bv32, c: bv32, d: bv32)
    ensures (b & c) | (!b & d) == (b & c) ^ (!b & d)
  {
  }

  lemma MajForms(b: bv32, c: bv32, d: bv32)
    ensures (b & c) | (b & d) | (c & d) == (b & c) ^ (b & d) ^ (c & d)
  {
  }

  function Choose(b: bv32, c: bv32, d: bv32): (r: bv32)
    ensures r == Ch(b, c, d)
  {
    ChForms(b, c, d);
    (b & c) | (!b & d)
  }

  function Majority(b: bv32, c: bv32, d: bv32): (r: bv32)
    ensures r == Maj(b, c, d)
  {
    MajForms(b, c, d);
    (b & c) | (b & d) | (c & d)
  }

  function RotateLeft1(x: bv32): (r: bv32)
    ensures r == Rotl1(x)
  {
    x.RotateLeft(1)
  }

  function RotateLeft5(x: bv32): (r: bv32)
    ensures r == Rotl5(x)
  {
    x.RotateLeft(5)
  }

  function RotateLeft30(x: bv32): (r: bv32)
    ensures r == Rotl30(x)
  {
    x.RotateLeft(30)
  }

  /** Four bytes of the block as a word, each masked to its place. */
  function Masked(p: bv8, q: bv8, r: bv8, s: bv8): (w: bv32)
    ensures w == ((p as bv32) << 24) | ((q as bv32) << 16) | ((r as bv32) << 8) | (s as bv32)
  {
    (((p as bv32) << 24) & 0xFF000000) | (((q as bv32) << 16) & 0x00FF0000) | (((r as bv32) << 8) & 0x0000FF00) | ((s as bv32) & 0x000000FF)
  }

  lemma Quotients(n: nat)
    ensures n / 0x100 / 0x100 == n / 0x1_0000
    ensures n / 0x1_0000 / 0x100 == n / 0x100_0000
    ensures n / 0x100_0000 / 0x100 == n / 0x1_0000_0000
    ensures n / 0x1_0000_0000 / 0x100 == n / 0x100_0000_0000
    ensures n / 0x100_0000_0000 / 0x100 == n / 0x1_0000_0000_0000
    ensures n / 0x1_0000_0000_0000 / 0x100 == n / 0x100_0000_0000_0000
  {
  }

  /** The low byte of a shifted length. */
  function Low(n: nat): bv8 {
    (n % 0x100) as bv8
  }

  lemma LastByte(n: nat, q: nat, k: nat, front: Bytes)
    requires k > 0 && q == n / 256 && BigEndian(q, k - 1) == front
    ensures BigEndian(n, k) == front + [Low(n)]
  {
  }

  /** The high four and the low four bytes of a 64-bit length, by shifting right and masking. */
  lemma HighBytes(n: nat)
    ensures BigEndian(n / 0x1_0000_0000, 4) ==
            [Low(n / 0x100_0000_0000_0000), Low(n / 0x1_0000_0000_0000), Low(n / 0x100_0000_0000), Low(n / 0x1_0000_0000)]
  {
    var n4, n5, n6, n7 := n / 0x1_0000_0000, n / 0x100_0000_0000, n / 0x1_0000_0000_0000, n / 0x100_0000_0000_0000;
    Quotients(n);
    LastByte(n7, n7 / 0x100, 1, []);
    LastByte(n6, n7, 2, [Low(n7)]);
    LastByte(n5, n6, 3, [Low(n7), Low(n6)]);
    LastByte(n4, n5, 4, [Low(n7), Low(n6), Low(n5)]);
  }

  lemma LowBytes(n: nat, n1: nat, n2: nat, n3: nat, n4: nat, high: Bytes)
    requires n1 == n / 256 && n2 == n1 / 256 && n3 == n2 / 256 && n4 == n3 / 256 && BigEndian(n4, 4) == high
    ensures BigEndian(n, 8) == high + [Low(n3)] + [Low(n2)] + [Low(n1)] + [Low(n)]
  {
    LastByte(n3, n4, 5, high);
    LastByte(n2, n3, 6, high + [Low(n3)]);
    LastByte(n1, n2, 7, high + [Low(n3)] + [Low(n2)]);
    LastByte(n, n1, 8, high + [Low(n3)] + [Low(n2)] + [Low(n1)]);
  }

  lemma FourMore(high: Bytes, a: bv8, b: bv8, c: bv8, d: bv8)
    ensures high + [a] + [b] + [c] + [d] == high + [a, b, c, d]
  {
  }

  lemma LengthBytes(n: nat)
    ensures BigEndian(n, 8) ==
            [Low(n / 0x100_0000_0000_0000), Low(n / 0x1_0000_0000_0000), Low(n / 0x100_0000_0000), Low(n / 0x1_0000_0000)]
            + [Low(n / 0x100_0000), Low(n / 0x1_0000), Low(n / 0x100), Low(n)]
  {
    HighBytes(n);
    Quotients(n);
    LowBytes(n, n / 0x100, n / 0x1_0000, n / 0x100_0000, n / 0x1_0000_0000, BigEndian(n / 0x1_0000_0000, 4));
    FourMore(BigEndian(n / 0x1_0000_0000, 4), Low(n / 0x100_0000), Low(n / 0x1_0000), Low(n / 0x100), Low(n));
  }

  /** The last k bytes of n do not change when n is taken modulo 256 to the k. */
  lemma {:induction false} BigEndianWraps(n: nat, k: nat, m: nat)
    requires m == Power(k)
    ensures BigEndian(n % m, k) == BigEndian(n, k)
    decreases k
  {
    if k > 0 {
      var m1 := Power(k - 1);
      BigEndianWraps(n / 256, k - 1, m1);
      ModSplit(n, m1);
    }
  }

  function Power(k: nat): (r: nat)
    ensures r >= 1
  {
    if k == 0 then 1 else 256 * Power(k - 1)
  }

  lemma ModSplit(n: nat, m: nat)
    requires m >= 1
    ensures n % (256 * m) / 256 == n / 256 % m && n % (256 * m) % 256 == n % 256
  {
    var q, r := n / 256 / m, n / 256 % m;
    assert n / 256 == m * q + r;
    assert n == 256 * (m * q + r) + n % 256;
    assert 256 * (m * q) == (256 * m) * q;
    ModUnique(n, 256 * m, q, 256 * r + n % 256);
  }

  class SHA1 {
    var messageLength: nat
    const block: array<bv8>
    var blockHead: nat
    const h: array<bv32>
    const w: array<bv32>
    /** All that was given to update since the last initialize. */
    ghost var message: Bytes

    ghost predicate Shape() {
      block.Length == 64 && h.Length == 5 && w.Length == 80 && h != w
    }

    function Hash(): Vars
      reads h
      requires h.Length == 5
    {
      Vars(h[0], h[1], h[2], h[3], h[4])
    }

    /** Whole blocks are digested; what is left of the message stands at the front of the block. */
    ghost predicate Valid()
      reads this, block, h
    {
      && Shape() && blockHead == |message| % 64
      && messageLength == |message| % LengthModulus
      && Holds(message)
    }

    ghost predicate Holds(m: Bytes)
      reads this, block, h
      requires Shape() && blockHead == |m| % 64
    {
      var whole := |m| - |m| % 64;
      Hash() == Blocks(Initial, m[..whole]) && block[..blockHead] == m[whole..]
    }

    constructor ()
      ensures Valid() && message == [] && fresh(block) && fresh(h) && fresh(w)
    {
      block, h, w := new bv8[64], new bv32[5], new bv32[80];
      new;
      Initialize();
    }

    method Initialize()
      requires Shape()
      modifies this, block, h, w
      ensures Valid() && message == []
      ensures forall i :: 0 <= i < 64 ==> block[i] == 0
      ensures forall i :: 0 <= i < 80 ==> w[i] == 0
    {
      messageLength := 0;
      blockHead := 0;
      forall i | 0 <= i < 80 { w[i] := 0; }
      forall i | 0 <= i < 64 { block[i] := 0; }
      h[0] := 0x67452301;
      h[1] := 0xEFCDAB89;
      h[2] := 0x98BADCFE;
      h[3] := 0x10325476;
      h[4] := 0xC3D2E1F0;
      message := [];
    }

    /** The message schedule of the block. */
    method Schedule()
      requires Shape()
      modifies w
      ensures forall t :: 0 <= t < 80 ==> w[t] == W(block[..], t)
    {
      ghost var b := block[..];
      var i := 0;
      while i < 64
        invariant 0 <= i <= 64 && i % 4 == 0 && block[..] == b
        invariant forall t :: 0 <= t < i / 4 ==> w[t] == W(b, t)
      {
        w[i / 4] := Masked(block[i], block[i + 1], block[i + 2], block[i + 3]);
        assert w[i / 4] == Word(b, i);
        i := i + 4;
      }
      for t := 16 to 80
        invariant block[..] == b
        invariant forall u :: 0 <= u < t ==> w[u] == W(b, u)
      {
        w[t] := RotateLeft1(Xor4(w[t - 3], w[t - 8], w[t - 14], w[t - 16]));
      }
    }

    /** The function value and the constant of round i. */
    method RoundTerms(i: nat, b: bv32, c: bv32, d: bv32) returns (f: bv32, k: bv32)
      ensures f == F(i, b, c, d) && k == K(i)
    {
      if i <= 19 {
        f, k := Choose(b, c, d), 0x5A827999;
      } else if i <= 39 {
        f, k := Parity(b, c, d), 0x6ED9EBA1;
      } else if i <= 59 {
        f, k := Majority(b, c, d), 0x8F1BBCDC;
      } else {
        f, k := Parity(b, c, d), 0xCA62C1D6;
      }
    }

    /** The 80 rounds on the scheduled block. */
    method Mix(ghost bytes: Bytes) returns (v: Vars)
      requires Shape() && |bytes| == 64 && forall t :: 0 <= t < 80 ==> w[t] == W(bytes, t)
      ensures v == Rounds(Hash(), bytes, 80)
    {
      var a, b, c, d, e := h[0], h[1], h[2], h[3], h[4];
      for i := 0 to 80
        invariant Vars(a, b, c, d, e) == Rounds(Hash(), bytes, i)
      {
        var f, k := RoundTerms(i, b, c, d);
        var temp := Plus(Plus(Plus(Plus(RotateLeft5(a), f), e), k), w[i]);
        a, b, c, d, e := temp, a, RotateLeft30(b), c, d;
      }
      return Vars(a, b, c, d, e);
    }

    method AddToHash(v: Vars)
      requires Shape()
      modifies h
      ensures Hash() == Added(old(Hash()), v)
    {
      h[0] := Plus(h[0], v.a);
      h[1] := Plus(h[1], v.b);
      h[2] := Plus(h[2], v.c);
      h[3] := Plus(h[3], v.d);
      h[4] := Plus(h[4], v.e);
    }

    /** One block is compressed into h; the block and the schedule are wiped. */
    method DigestChunk()
      requires Shape()
      modifies block, h, w
      ensures Hash() == Compress(old(Hash()), old(block[..]))
      ensures forall i :: 0 <= i < 64 ==> block[i] == 0
      ensures forall i :: 0 <= i < 80 ==> w[i] == 0
    {
      Schedule();
      var v := Mix(block[..]);
      forall i | 0 <= i < 80 { w[i] := 0; }
      forall i | 0 <= i < 64 { block[i] := 0; }
      AddToHash(v);
    }

    /** memcpy into the block */
    method Fill(at: nat, data: Bytes)
      requires Shape() && at + |data| <= 64
      modifies block
      ensures block[..] == old(block[..at]) + data + old(block[at + |data|..])
    {
      for i := 0 to |data|
        invariant block[..at] == old(block[..at]) && block[at..at + i] == data[..i]
        invariant block[at + |data|..] == old(block[at + |data|..])
      {
        block[at + i] := data[i];
      }
      assert block[..] == block[..at] + block[at..at + |data|] + block[at + |data|..];
    }

    /** Any split of a message into calls of update leaves the same state, up to what the message is. */
    method Update(input: Bytes)
      requires Valid()
      modifies this, block, h, w
      ensures Valid() && message == old(message) + input
    {
      if |input| == 0 {
        assert message + input == message;
        return;
      }
      if |input| + blockHead < 64 {
        Append(input);
      } else {
        Stream(input);
      }
    }

    /** Not enough to fill the block. */
    method Append(input: Bytes)
      requires Valid() && |input| + blockHead < 64
      modifies this, block
      ensures Valid() && message == old(message) + input
    {
      Joined(message, input, |message| - blockHead);
      LengthGrows(|message|, |input|);
      Fill(blockHead, input);
      assert block[..blockHead + |input|] == old(block[..blockHead]) + input;
      blockHead := blockHead + |input|;
      messageLength := (messageLength + |input|) % LengthModulus;
      message := message + input;
    }

    /** The block is filled and digested, then whole blocks of the input, and the rest is kept. */
    method Stream(input: Bytes)
      requires Valid() && |input| + blockHead >= 64
      modifies this, block, h, w
      ensures Valid() && message == old(message) + input
    {
      ghost var m := message;
      var copied := DigestFirst(input);
      LengthGrows(|m|, |input|);
      message := m + input;
      messageLength := (messageLength + |input|) % LengthModulus;
      StreamRest(m, input, copied);
    }

    method StreamRest(ghost m: Bytes, input: Bytes, start: nat)
      requires Shape() && message == m + input && messageLength == |message| % LengthModulus
      requires start <= |input| && (|m| + start) % 64 == 0 && Hash() == Blocks(Initial, message[..|m| + start])
      modifies this`blockHead, block, h, w
      ensures Valid()
    {
      var copied := DigestWhole(m, input, start);
      Rest(m, input, copied);
      Keep(input[copied..]);
      assert Holds(message);
    }

    /** The block is completed from the input and digested. */
    method DigestFirst(input: Bytes) returns (copied: nat)
      requires Valid() && |input| + blockHead >= 64
      modifies block, h, w
      ensures copied == 64 - blockHead && (|message| + copied) % 64 == 0
      ensures Hash() == Blocks(Initial, (message + input)[..|message| + copied])
    {
      copied := 64 - blockHead;
      FirstBlock(message, input, |message| - blockHead, copied);
      Fill(blockHead, input[..copied]);
      assert block[..] == old(block[..blockHead]) + input[..copied];
      DigestChunk();
    }

    /** What is left of the input stands at the front of an otherwise wiped block. */
    method Keep(tail: Bytes)
      requires Shape() && |tail| < 64
      modifies this`blockHead, block
      ensures blockHead == |tail| && block[..blockHead] == tail
    {
      forall i | 0 <= i < 64 { block[i] := 0; }
      blockHead := 0;
      if |tail| > 0 {
        Fill(0, tail);
        blockHead := |tail|;
      }
    }

    /** The loop over the whole blocks of the input. */
    method DigestWhole(ghost m: Bytes, input: Bytes, start: nat) returns (copied: nat)
      requires Shape() && start <= |input| && (|m| + start) % 64 == 0
      requires Hash() == Blocks(Initial, (m + input)[..|m| + start])
      modifies block, h, w
      ensures copied <= |input| < copied + 64 && (|m| + copied) % 64 == 0
      ensures Hash() == Blocks(Initial, (m + input)[..|m| + copied])
    {
      copied := start;
      while |input| - copied >= 64
        invariant copied <= |input| && (|m| + copied) % 64 == 0
        invariant Hash() == Blocks(Initial, (m + input)[..|m| + copied])
      {
        Fill(0, input[copied..copied + 64]);
        assert block[..] == input[copied..copied + 64];
        NextBlock(m, input, copied);
        DigestChunk();
        copied := copied + 64;
      }
    }

    /** Zero bytes from the block's head up to a place. */
    method Pad(end: nat)
      requires Shape() && blockHead <= end <= 64
      modifies this`blockHead, block
      ensures blockHead == end
      ensures block[..end] == old(block[..blockHead]) + Zeros(end - old(blockHead))
    {
      while blockHead < end
        invariant old(blockHead) <= blockHead <= end
        invariant block[..blockHead] == old(block[..blockHead]) + Zeros(blockHead - old(blockHead))
      {
        block[blockHead] := 0;
        blockHead := blockHead + 1;
        assert block[..blockHead] == block[..blockHead - 1] + [0];
        assert Zeros(blockHead - old(blockHead)) == Zeros(blockHead - 1 - old(blockHead)) + [0];
      }
    }

    /** The length in bits, big-endian, in the last eight bytes of the block. */
    method AppendLength(bits: nat)
      requires Shape() && bits < LengthModulus
      modifies block
      ensures block[..] == old(block[..56]) + BigEndian(bits, 8)
    {
      PutBytes(56, Low(bits / 0x100_0000_0000_0000), Low(bits / 0x1_0000_0000_0000), Low(bits / 0x100_0000_0000), Low(bits / 0x1_0000_0000));
      PutBytes(60, Low(bits / 0x100_0000), Low(bits / 0x1_0000), Low(bits / 0x100), Low(bits));
      LengthBytes(bits);
      assert block[..] == block[..56] + (block[56..60] + block[60..]);
    }

    method PutBytes(at: nat, a: bv8, b: bv8, c: bv8, d: bv8)
      requires Shape() && at + 4 <= 64
      modifies block
      ensures block[..at] == old(block[..at]) && block[at..at + 4] == [a, b, c, d] && block[at + 4..] == old(block[at + 4..])
    {
      block[at], block[at + 1], block[at + 2], block[at + 3] := a, b, c, d;
    }

    /** The 0x80, and the block digested when eight bytes or less are left after it. */
    method CloseMessage()
      requires Valid()
      modifies this`blockHead, block, h, w
      ensures blockHead <= 56
      ensures var h0, last := old(Hash()), old(block[..blockHead]) + [0x80];
              if |last| >= 56 then blockHead == 0 && Hash() == Compress(h0, last + Zeros(64 - |last|))
              else Hash() == h0 && block[..blockHead] == last
    {
      ghost var last := block[..blockHead] + [0x80];
      block[blockHead] := 0x80;
      blockHead := blockHead + 1;
      assert block[..blockHead] == last;
      if blockHead >= 56 {
        Pad(64);
        assert block[..] == block[..64];
        DigestChunk();
        blockHead := 0;
      }
    }

    /** Zeros, the length, and the last block digested. */
    method CloseLength(bits: nat)
      requires Shape() && blockHead <= 56 && bits < LengthModulus
      modifies this`blockHead, block, h, w
      ensures Hash() == Compress(old(Hash()), old(block[..blockHead]) + Zeros(56 - old(blockHead)) + BigEndian(bits, 8))
    {
      Pad(56);
      AppendLength(bits);
      DigestChunk();
    }

    /** The message and its padding are digested to the end. */
    method Close()
      requires Valid()
      modifies this`blockHead, block, h, w
      ensures Hash() == Blocks(Initial, message + SourcePad(|message|))
    {
      ghost var last := block[..blockHead] + [0x80];
      ghost var whole := message[..|message| - |message| % 64];
      assert last == message[|message| - |message| % 64..] + [0x80] && Hash() == Blocks(Initial, whole);
      CloseMessage();
      var bits := messageLength * 8 % LengthModulus;
      LengthField(|message|);
      CloseLength(bits);
      assert [] + Zeros(56) == Zeros(56);
      PaddedBlocks(message, whole, last);
    }

    /** The digest of the whole message is written, and the object is as freshly built; false is the panic on a short buffer. */
    method Finalize(output: array<bv8>) returns (ok: bool)
      requires Valid() && output != block
      modifies this, block, h, w, output
      ensures Valid() && ok == (output.Length >= 20)
      ensures !ok ==> message == old(message) && output[..] == old(output[..])
      ensures ok ==> message == [] && output[..] == Digest(old(message)) + old(output[20..])
    {
      if output.Length < 20 { return false; }
      Close();
      WriteOutput(output);
      Initialize();
      return true;
    }

    method WriteWord(output: array<bv8>, at: nat, x: bv32)
      requires at + 4 <= output.Length
      modifies output
      ensures output[..] == old(output[..at]) + Bytes4(x) + old(output[at + 4..])
    {
      output[at] := (x >> 24) as bv8;
      output[at + 1] := ((x >> 16) & 0xFF) as bv8;
      output[at + 2] := ((x >> 8) & 0xFF) as bv8;
      output[at + 3] := (x & 0xFF) as bv8;
    }

    method WriteOutput(output: array<bv8>)
      requires Shape() && output.Length >= 20
      modifies output
      ensures output[..] == OutputOf(Hash()) + old(output[20..])
    {
      ghost var rest := output[20..];
      for i := 0 to 5
        invariant output[..i * 4] == FirstWords(h[..], i) && output[20..] == rest
      {
        ghost var before := output[..i * 4];
        WriteWord(output, i * 4, h[i]);
        assert output[..(i + 1) * 4] == before + Bytes4(h[i]);
      }
      FiveWords(h[..]);
      assert output[..] == output[..20] + output[20..];
    }
  }

  /** The bytes of the first n words. */
  function FirstWords(h: seq<bv32>, n: nat): Bytes
    requires n <= |h|
  {
    if n == 0 then [] else FirstWords(h, n - 1) + Bytes4(h[n - 1])
  }

  lemma FiveWords(h: seq<bv32>)
    requires |h| == 5
    ensures FirstWords(h, 5) == OutputOf(Vars(h[0], h[1], h[2], h[3], h[4]))
  {
    assert FirstWords(h, 1) == Bytes4(h[0]);
    assert FirstWords(h, 3) == Bytes4(h[0]) + Bytes4(h[1]) + Bytes4(h[2]);
  }

  lemma LengthGrows(a: nat, b: nat)
    ensures (a % LengthModulus + b) % LengthModulus == (a + b) % LengthModulus
  {
  }

  lemma BitsWrap(n: nat)
    ensures n % LengthModulus * 8 % LengthModulus == 8 * n % LengthModulus
  {
    var q, r := n / LengthModulus, n % LengthModulus;
    assert 8 * n == LengthModulus * (8 * q) + 8 * r;
  }

  /** The eight bytes of the bit count, kept modulo 2 to the 64. */
  lemma LengthField(n: nat)
    ensures BigEndian(n % LengthModulus * 8 % LengthModulus, 8) == BigEndian(8 * n, 8)
  {
    BitsWrap(n);
    PowerOfEight();
    BigEndianWraps(8 * n, 8, LengthModulus);
  }

  lemma PowerOfEight()
    ensures Power(8) == LengthModulus
  {
    assert Power(0) == 1;
    assert Power(2) == 0x1_0000;
    assert Power(4) == 0x1_0000_0000;
    assert Power(6) == 0x1_0000_0000_0000;
  }

  /** The message and its padding, cut at the blocks. */
  lemma PaddedSplit(m: Bytes, whole: Bytes, last: Bytes, length: Bytes)
    requires whole == m[..|m| - |m| % 64] && last == m[|m| - |m| % 64..] + [0x80]
    ensures var padded := m + ([0x80] + Zeros(SourceZeros(|m|)) + length);
            if |last| >= 56 then padded == (whole + (last + Zeros(64 - |last|))) + (Zeros(56) + length)
            else padded == whole + (last + Zeros(56 - |last|) + length)
  {
    var n := |last|;
    var zeros := Zeros(SourceZeros(|m|));
    assert m + [0x80] == whole + last;
    assert m + ([0x80] + zeros + length) == (m + [0x80]) + (zeros + length);
    if n >= 56 {
      assert zeros == Zeros(64 - n) + Zeros(56);
      assert (whole + last) + ((Zeros(64 - n) + Zeros(56)) + length) == (whole + (last + Zeros(64 - n))) + (Zeros(56) + length);
    } else {
      assert (whole + last) + (zeros + length) == whole + (last + zeros + length);
    }
  }

  lemma WholeLength(n: nat)
    ensures (n - n % 64) % 64 == 0 && (n - n % 64 + 64) % 64 == 0
  {
  }

  /** What finalize digests after the whole blocks is the rest of the message and its padding. */
  lemma PaddedBlocks(m: Bytes, whole: Bytes, last: Bytes)
    requires whole == m[..|m| - |m| % 64] && last == m[|m| - |m| % 64..] + [0x80]
    ensures var h := Blocks(Initial, whole);
            var length := BigEndian(8 * |m|, 8);
            Blocks(Initial, m + SourcePad(|m|)) ==
              if |last| >= 56 then Compress(Compress(h, last + Zeros(64 - |last|)), Zeros(56) + length)
              else Compress(h, last + Zeros(56 - |last|) + length)
  {
    var length := BigEndian(8 * |m|, 8);
    var n := |last|;
    PaddedSplit(m, whole, last, length);
    WholeLength(|m|);
    assert |whole| % 64 == 0 && n == |m| % 64 + 1 <= 64;
    if n >= 56 {
      assert |whole + (last + Zeros(64 - n))| == |whole| + 64;
      BlocksAppend(Initial, whole, last + Zeros(64 - n));
      BlocksAppend(Initial, whole + (last + Zeros(64 - n)), Zeros(56) + length);
    } else {
      BlocksAppend(Initial, whole, last + Zeros(56 - n) + length);
    }
  }

  function Concat(parts: seq<Bytes>): Bytes {
    if parts == [] then [] else Concat(parts[..|parts| - 1]) + parts[|parts| - 1]
  }

  /** However a message is cut into calls of update, the digest is that of the whole. */
  method HashParts(parts: seq<Bytes>) returns (digest: Bytes)
    ensures digest == Digest(Concat(parts))
  {
    var sha := new SHA1();
    for i := 0 to |parts|
      invariant sha.Valid() && sha.message == Concat(parts[..i])
      invariant fresh(sha) && fresh(sha.block) && fresh(sha.h) && fresh(sha.w)
    {
      sha.Update(parts[i]);
      assert parts[..i + 1][..i] == parts[..i];
    }
    assert parts[..|parts|] == parts;
    var output := new bv8[20];
    var ok := sha.Finalize(output);
    digest := output[..];
  }

  lemma Joined(m: Bytes, input: Bytes, done: nat)
    requires done == |m| - |m| % 64 && |input| + |m| % 64 < 64
    ensures |m + input| % 64 == |m| % 64 + |input| && |m + input| - |m + input| % 64 == done
    ensures (m + input)[..done] == m[..done] && (m + input)[done..] == m[done..] + input
  {
  }

  lemma FirstBlock(m: Bytes, input: Bytes, done: nat, copied: nat)
    requires done == |m| - |m| % 64 && copied == 64 - |m| % 64 <= |input|
    ensures (m + input)[..|m| + copied] == m[..done] + (m[done..] + input[..copied])
    ensures (|m| + copied) % 64 == 0
    ensures Blocks(Initial, (m + input)[..|m| + copied]) == Compress(Blocks(Initial, m[..done]), m[done..] + input[..copied])
  {
    BlocksAppend(Initial, m[..done], m[done..] + input[..copied]);
  }

  lemma NextBlock(m: Bytes, input: Bytes, copied: nat)
    requires (|m| + copied) % 64 == 0 && copied + 64 <= |input|
    ensures Blocks(Initial, (m + input)[..|m| + copied + 64]) ==
            Compress(Blocks(Initial, (m + input)[..|m| + copied]), input[copied..copied + 64])
    ensures (|m| + copied + 64) % 64 == 0
  {
    var all := m + input;
    assert all[..|m| + copied + 64] == all[..|m| + copied] + input[copied..copied + 64];
    BlocksAppend(Initial, all[..|m| + copied], input[copied..copied + 64]);
  }

  lemma Rest(m: Bytes, input: Bytes, copied: nat)
    requires (|m| + copied) % 64 == 0 && copied <= |input| < copied + 64
    ensures |m + input| % 64 == |input| - copied && |m + input| - |m + input| % 64 == |m| + copied
    ensures (m + input)[|m| + copied..] == input[copied..]
  {
  }
}

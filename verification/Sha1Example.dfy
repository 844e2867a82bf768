/** The digest of "abc", which the standard's examples give: its rounds one by one. */
module Sha1Example {
  import opened Sha1Spec

  /** Sixteen words of the message schedule, one after the other. */
  datatype Window = Window(
    w0: bv32, w1: bv32, w2: bv32, w3: bv32, w4: bv32, w5: bv32, w6: bv32, w7: bv32, w8: bv32, w9: bv32, w10: bv32,
    w11: bv32, w12: bv32, w13: bv32, w14: bv32, w15: bv32)

  /** After t rounds on the block: the working variables, and the last sixteen words of its schedule. */
  predicate Stands(b: Bytes, t: nat, v: Vars, x: Window) {
    && |b| == 64 && t >= 16 && Rounds(Initial, b, t) == v
    && W(b, t - 16) == x.w0 && W(b, t - 15) == x.w1 && W(b, t - 14) == x.w2 && W(b, t - 13) == x.w3
    && W(b, t - 12) == x.w4 && W(b, t - 11) == x.w5 && W(b, t - 10) == x.w6 && W(b, t - 9) == x.w7
    && W(b, t - 8) == x.w8 && W(b, t - 7) == x.w9 && W(b, t - 6) == x.w10 && W(b, t - 5) == x.w11
    && W(b, t - 4) == x.w12 && W(b, t - 3) == x.w13 && W(b, t - 2) == x.w14 && W(b, t - 1) == x.w15
  }

  lemma NextRound(b: Bytes, t: nat, v: Vars, x: Window) returns (v': Vars, x': Window)
    requires Stands(b, t, v, x)
    ensures x' == Window(x.w1, x.w2, x.w3, x.w4, x.w5, x.w6, x.w7, x.w8,
                      x.w9, x.w10, x.w11, x.w12, x.w13, x.w14, x.w15, Rotl1(Xor4(x.w13, x.w8, x.w2, x.w0)))
    ensures v' == Round(v, t, x'.w15) && Stands(b, t + 1, v', x')
  {
    x' := Window(x.w1, x.w2, x.w3, x.w4, x.w5, x.w6, x.w7, x.w8,
                      x.w9, x.w10, x.w11, x.w12, x.w13, x.w14, x.w15, Rotl1(Xor4(x.w13, x.w8, x.w2, x.w0)));
    v' := Round(v, t, x'.w15);
  }

  lemma RoundsFrom16(b: Bytes, v: Vars, x: Window) returns (v': Vars, x': Window)
    requires x == Window(0x61626380, 0x0, 0x0, 0x0, 0x0, 0x0, 0x0, 0x0, 0x0, 0x0, 0x0, 0x0, 0x0, 0x0, 0x0, 0x18)
    requires v == Vars(0x20BDD62F, 0x196BEE77, 0x644A3DA5, 0x1181ED99, 0x18C623F9) && Stands(b, 16, v, x)
    ensures x' == Window(0xC2C4C700, 0x0, 0x30, 0x85898E01, 0x0, 0x60, 0xB131C03, 0x30, 0x85898EC1, 0x16263806, 0x0,
                  0x180, 0x2C4C700C, 0xF0, 0x93AFB507, 0x5898E048)
    ensures v' == Vars(0x3B845D33, 0x1267B407, 0x717EEBD7, 0xA0DC2D4B, 0xD2AA1365) && Stands(b, 32, v', x')
  {
    v', x' := NextRound(b, 16, v, x);
    v', x' := NextRound(b, 17, v', x');
    v', x' := NextRound(b, 18, v', x');
    v', x' := NextRound(b, 19, v', x');
    v', x' := NextRound(b, 20, v', x');
    v', x' := NextRound(b, 21, v', x');
    v', x' := NextRound(b, 22, v', x');
    v', x' := NextRound(b, 23, v', x');
    v', x' := NextRound(b, 24, v', x');
    v', x' := NextRound(b, 25, v', x');
    v', x' := NextRound(b, 26, v', x');
    v', x' := NextRound(b, 27, v', x');
    v', x' := NextRound(b, 28, v', x');
    v', x' := NextRound(b, 29, v', x');
    v', x' := NextRound(b, 30, v', x');
    v', x' := NextRound(b, 31, v', x');
  }

  lemma RoundsFrom32(b: Bytes, v: Vars, x: Window) returns (v': Vars, x': Window)
    requires x == Window(0xC2C4C700, 0x0, 0x30, 0x85898E01, 0x0, 0x60, 0xB131C03, 0x30, 0x85898EC1, 0x16263806, 0x0,
                  0x180, 0x2C4C700C, 0xF0, 0x93AFB507, 0x5898E048)
    requires v == Vars(0x3B845D33, 0x1267B407, 0x717EEBD7, 0xA0DC2D4B, 0xD2AA1365) && Stands(b, 32, v, x)
    ensures x' == Window(0x8E9A9202, 0x600, 0xB131C0F0, 0x16263BC6, 0x4EBED41E, 0x626380A1, 0x16263806, 0x18C0,
                  0xD2E138C4, 0xF00, 0x3AFB5079, 0x898E04E5, 0xE2BA3C2B, 0x60C0, 0x53A37CD, 0x74458547)
    ensures v' == Vars(0xBEAD02CA, 0xA01B846C, 0x8714787C, 0x503CA382, 0xFB86C6AB) && Stands(b, 48, v', x')
  {
    v', x' := NextRound(b, 32, v, x);
    v', x' := NextRound(b, 33, v', x');
    v', x' := NextRound(b, 34, v', x');
    v', x' := NextRound(b, 35, v', x');
    v', x' := NextRound(b, 36, v', x');
    v', x' := NextRound(b, 37, v', x');
    v', x' := NextRound(b, 38, v', x');
    v', x' := NextRound(b, 39, v', x');
    v', x' := NextRound(b, 40, v', x');
    v', x' := NextRound(b, 41, v', x');
    v', x' := NextRound(b, 42, v', x');
    v', x' := NextRound(b, 43, v', x');
    v', x' := NextRound(b, 44, v', x');
    v', x' := NextRound(b, 45, v', x');
    v', x' := NextRound(b, 46, v', x');
    v', x' := NextRound(b, 47, v', x');
  }

  lemma RoundsFrom48(b: Bytes, v: Vars, x: Window) returns (v': Vars, x': Window)
    requires x == Window(0x8E9A9202, 0x600, 0xB131C0F0, 0x16263BC6, 0x4EBED41E, 0x626380A1, 0x16263806, 0x18C0,
                  0xD2E138C4, 0xF00, 0x3AFB5079, 0x898E04E5, 0xE2BA3C2B, 0x60C0, 0x53A37CD, 0x74458547)
    requires v == Vars(0xBEAD02CA, 0xA01B846C, 0x8714787C, 0x503CA382, 0xFB86C6AB) && Stands(b, 48, v, x)
    ensures x' == Window(0xDA9415ED, 0x26380A16, 0x626383A1, 0x4EBF54DE, 0x3835B44B, 0xF600, 0x1E84C7A3, 0x98E04D98,
                  0x651D16A0, 0x62658CA1, 0x458544D6, 0x44584CB7, 0x7BA06619, 0x6380AEA2, 0xAE55269, 0x627B49A1)
    ensures v' == Vars(0x6B61C9E1, 0xB66C020B, 0x9523272C, 0xF5D5B051, 0x8FD4B796) && Stands(b, 64, v', x')
  {
    v', x' := NextRound(b, 48, v, x);
    v', x' := NextRound(b, 49, v', x');
    v', x' := NextRound(b, 50, v', x');
    v', x' := NextRound(b, 51, v', x');
    v', x' := NextRound(b, 52, v', x');
    v', x' := NextRound(b, 53, v', x');
    v', x' := NextRound(b, 54, v', x');
    v', x' := NextRound(b, 55, v', x');
    v', x' := NextRound(b, 56, v', x');
    v', x' := NextRound(b, 57, v', x');
    v', x' := NextRound(b, 58, v', x');
    v', x' := NextRound(b, 59, v', x');
    v', x' := NextRound(b, 60, v', x');
    v', x' := NextRound(b, 61, v', x');
    v', x' := NextRound(b, 62, v', x');
    v', x' := NextRound(b, 63, v', x');
  }

  lemma RoundsFrom64(b: Bytes, v: Vars, x: Window) returns (v': Vars, x': Window)
    requires x == Window(0xDA9415ED, 0x26380A16, 0x626383A1, 0x4EBF54DE, 0x3835B44B, 0xF600, 0x1E84C7A3, 0x98E04D98,
                  0x651D16A0, 0x62658CA1, 0x458544D6, 0x44584CB7, 0x7BA06619, 0x6380AEA2, 0xAE55269, 0x627B49A1)
    requires v == Vars(0x6B61C9E1, 0xB66C020B, 0x9523272C, 0xF5D5B051, 0x8FD4B796) && Stands(b, 64, v, x)
    ensures x' == Window(0x7CD45C9D, 0xF0000, 0xFB50753A, 0xEC6765E8, 0xBA3C2BE2, 0x60C000, 0x3A37CD05, 0x458546F4,
                  0xB8599DD6, 0x380A1A26, 0x1E02203, 0xE7CC3456, 0xE6E60B69, 0xF60A00, 0x5795EF4F, 0x822E0879)
    ensures v' == Vars(0x42541B35, 0x5738D5E1, 0x21834873, 0x681E6DF6, 0xD8FDF6AD) && Stands(b, 80, v', x')
  {
    v', x' := NextRound(b, 64, v, x);
    v', x' := NextRound(b, 65, v', x');
    v', x' := NextRound(b, 66, v', x');
    v', x' := NextRound(b, 67, v', x');
    v', x' := NextRound(b, 68, v', x');
    v', x' := NextRound(b, 69, v', x');
    v', x' := NextRound(b, 70, v', x');
    v', x' := NextRound(b, 71, v', x');
    v', x' := NextRound(b, 72, v', x');
    v', x' := NextRound(b, 73, v', x');
    v', x' := NextRound(b, 74, v', x');
    v', x' := NextRound(b, 75, v', x');
    v', x' := NextRound(b, 76, v', x');
    v', x' := NextRound(b, 77, v', x');
    v', x' := NextRound(b, 78, v', x');
    v', x' := NextRound(b, 79, v', x');
  }

  // ----- The message -----

  const Abc: Bytes := [0x61, 0x62, 0x63]

  /** A block that is the message, 0x80, zeros, and the length of 24 bits. */
  predicate IsAbcBlock(b: Bytes) {
    && |b| == 64 && b[0] == 0x61 && b[1] == 0x62 && b[2] == 0x63 && b[3] == 0x80 && b[63] == 24
    && forall i :: 4 <= i < 63 ==> b[i] == 0
  }

  lemma {:induction false} BigEndianZero(k: nat)
    ensures forall i :: 0 <= i < k ==> BigEndian(0, k)[i] == 0
    decreases k
  {
    if k > 0 { BigEndianZero(k - 1); }
  }

  lemma AbcIsBlock(n: nat)
    requires n == 3
    ensures IsAbcBlock(Abc + FipsPad(n))
  {
    var length := LengthOfAbc(8 * n);
    PaddedAbc(Zeros(52), length, Abc + FipsPad(n));
  }

  lemma LengthOfAbc(n: nat) returns (length: Bytes)
    requires n == 24
    ensures length == BigEndian(n, 8) && |length| == 8 && length[7] == 24 && forall i :: 0 <= i < 7 ==> length[i] == 0
  {
    length := BigEndian(n, 8);
    BigEndianZero(7);
    LastByte(n, 8);
    LengthIs24(length, BigEndian(0, 7));
  }

  lemma LastByte(n: nat, k: nat)
    requires k > 0
    ensures BigEndian(n, k) == BigEndian(n / 256, k - 1) + [(n % 256) as bv8]
  {
  }

  lemma LengthIs24(length: Bytes, zeros: Bytes)
    requires |zeros| == 7 && length == zeros + [24] && forall i :: 0 <= i < 7 ==> zeros[i] == 0
    ensures length[7] == 24 && forall i :: 0 <= i < 7 ==> length[i] == 0
  {
  }

  lemma PaddedAbc(zeros: Bytes, length: Bytes, b: Bytes)
    requires |zeros| == 52 && |length| == 8 && length[7] == 24 && b == Abc + ([0x80] + zeros + length)
    requires (forall i :: 0 <= i < 52 ==> zeros[i] == 0) && forall i :: 0 <= i < 7 ==> length[i] == 0
    ensures IsAbcBlock(b)
  {
    forall i | 4 <= i < 63 ensures b[i] == 0 {
      assert b[i] == if i < 56 then zeros[i - 4] else length[i - 56];
    }
  }

  lemma FirstWords(b: Bytes, t: nat)
    requires IsAbcBlock(b) && t < 16
    ensures W(b, t) == if t == 0 then 0x61626380 else if t == 15 then 24 else 0
  {
    if t == 15 {
      assert b[60] == 0 && b[61] == 0 && b[62] == 0;
    } else if t > 0 {
      assert b[4 * t] == 0 && b[4 * t + 1] == 0 && b[4 * t + 2] == 0 && b[4 * t + 3] == 0;
    }
  }

  lemma WordRound(b: Bytes, t: nat, v: Vars, w: bv32) returns (v': Vars)
    requires |b| == 64 && Rounds(Initial, b, t) == v && W(b, t) == w
    ensures v' == Round(v, t, w) && Rounds(Initial, b, t + 1) == v'
  {
    v' := Round(v, t, w);
  }

  lemma FirstRounds(b: Bytes) returns (v: Vars)
    requires IsAbcBlock(b)
    ensures v == Vars(0x20BDD62F, 0x196BEE77, 0x644A3DA5, 0x1181ED99, 0x18C623F9)
    ensures Rounds(Initial, b, 16) == v
  {
    forall t: nat | t < 16 ensures W(b, t) == if t == 0 then 0x61626380 else if t == 15 then 24 else 0 {
      FirstWords(b, t);
    }
    v := WordRound(b, 0, Initial, 0x61626380);
    v := WordRound(b, 1, v, 0);
    v := WordRound(b, 2, v, 0);
    v := WordRound(b, 3, v, 0);
    v := WordRound(b, 4, v, 0);
    v := WordRound(b, 5, v, 0);
    v := WordRound(b, 6, v, 0);
    v := WordRound(b, 7, v, 0);
    v := WordRound(b, 8, v, 0);
    v := WordRound(b, 9, v, 0);
    v := WordRound(b, 10, v, 0);
    v := WordRound(b, 11, v, 0);
    v := WordRound(b, 12, v, 0);
    v := WordRound(b, 13, v, 0);
    v := WordRound(b, 14, v, 0);
    v := WordRound(b, 15, v, 24);
  }

  lemma AbcRounds(b: Bytes)
    requires IsAbcBlock(b)
    ensures Rounds(Initial, b, 80) == Vars(0x42541B35, 0x5738D5E1, 0x21834873, 0x681E6DF6, 0xD8FDF6AD)
  {
    var v := FirstRounds(b);
    var x := Window(0x61626380, 0x0, 0x0, 0x0, 0x0, 0x0, 0x0, 0x0, 0x0, 0x0, 0x0, 0x0, 0x0, 0x0, 0x0, 0x18);
    WindowOfFirst(b, v, x);
    v, x := RoundsFrom16(b, v, x);
    v, x := RoundsFrom32(b, v, x);
    v, x := RoundsFrom48(b, v, x);
    v, x := RoundsFrom64(b, v, x);
  }

  lemma WindowOfFirst(b: Bytes, v: Vars, x: Window)
    requires IsAbcBlock(b) && Rounds(Initial, b, 16) == v
    requires x == Window(0x61626380, 0x0, 0x0, 0x0, 0x0, 0x0, 0x0, 0x0, 0x0, 0x0, 0x0, 0x0, 0x0, 0x0, 0x0, 0x18)
    ensures Stands(b, 16, v, x)
  {
    forall t: nat | t < 16 ensures W(b, t) == if t == 0 then 0x61626380 else if t == 15 then 24 else 0 {
      FirstWords(b, t);
    }
  }

  const AbcDigest: Bytes := [
    0xA9, 0x99, 0x3E, 0x36, 0x47, 0x06, 0x81, 0x6A, 0xBA, 0x3E,
    0x25, 0x71, 0x78, 0x50, 0xC2, 0x6C, 0x9C, 0xD0, 0xD8, 0x9D]

  lemma OneBlock(h: Vars, b: Bytes)
    requires |b| == 64
    ensures Blocks(h, b) == Compress(h, b)
  {
    assert b[..64] == b && b[64..] == [];
  }

  lemma AbcOutput(h: Vars)
    requires h == Vars(0xA9993E36, 0x4706816A, 0xBA3E2571, 0x7850C26C, 0x9CD0D89D)
    ensures OutputOf(h) == AbcDigest
  {
  }

  /** The digest of "abc", by the standard's functions and by the source's, is the published one. */
  lemma DigestOfAbc()
    ensures FipsDigest(Abc) == AbcDigest && Digest(Abc) == AbcDigest
  {
    var b := Abc + FipsPad(|Abc|);
    AbcIsBlock(|Abc|);
    AbcRounds(b);
    OneBlock(Initial, b);
    AbcOutput(Compress(Initial, b));
    DigestIsFips(Abc);
  }
}

/**
 * The bytes on the wire as RFC 1035 gives them, in whole-number arithmetic: sections 4.1.1
 * (header), 4.1.2 (question) and 4.1.4 (compressed names).
 */
module DnsWire {
  import opened Wrappers
  import opened DnsModel
  import opened DnsTermination
  import opened DnsRoundTrip

  // ----- Words -----

  lemma WidenedByte(b: bv8)
    ensures (b as bv16) as int == b as int
  {
  }

  lemma ShiftedByte(h: bv16)
    requires h < 256
    ensures (h << 8) as int == 256 * (h as int)
  {
  }

  lemma Joined(h: bv16, l: bv16)
    requires h < 256 && l < 256
    ensures ((h << 8) | l) as int == (h << 8) as int + l as int
  {
  }

  lemma WordOfBytes(hi: bv8, lo: bv8)
    ensures (((hi as bv16) << 8) | (lo as bv16)) as int == 256 * (hi as int) + lo as int
  {
    var h, l := hi as bv16, lo as bv16;
    assert h < 256 && l < 256;
    WidenedByte(hi);
    WidenedByte(lo);
    ShiftedByte(h);
    Joined(h, l);
  }

  lemma PointerOfBytes(hi: bv8, lo: bv8)
    requires 0xC0 <= hi as int
    ensures hi != 0 && (hi as bv16) & 0xC0 == 0xC0
    ensures ((((hi as bv16) & 0x3F) << 8) | (lo as bv16)) as int == 256 * (hi as int - 0xC0) + lo as int
  {
    assert 0xC0 <= hi;
    var h := hi - 0xC0;
    assert h as int == hi as int - 0xC0;
    assert (hi as bv16) & 0x3F == h as bv16;
    WordOfBytes(h, lo);
  }

  /** Two bytes, the first the more significant. */
  function Word(bytes: Bytes, i: nat): int
    requires i + 2 <= |bytes|
  {
    256 * (bytes[i] as int) + bytes[i + 1] as int
  }

  lemma WordRead(data: Bytes, at: nat)
    requires at + 2 <= |data|
    ensures Get16(data, at).Ok? && Get16(data, at).value as int == Word(data, at)
  {
    WordOfBytes(data[at], data[at + 1]);
  }

  lemma WordWritten(v: bv16)
    ensures Word(Put16(v), 0) == v as int
  {
    WordOfBytes(Put16(v)[0], Put16(v)[1]);
    PutBack(v);
  }

  lemma PutBack(v: bv16)
    ensures ((((v >> 8) as bv8) as bv16) << 8) | (((v & 0xFF) as bv8) as bv16) == v
  {
  }

  // ----- Header -----

  /** The word of flags that section 4.1.1 draws, its most significant bit first. */
  function FlagNumber(h: Header): int {
    32768 * (if h.qr then 1 else 0) + 2048 * h.opcode + 1024 * (if h.aa then 1 else 0) + 512 * (if h.tc then 1 else 0)
    + 256 * (if h.rd then 1 else 0) + 128 * (if h.ra then 1 else 0) + 16 * h.z + h.rcode
  }

  lemma ShiftedBy3(h: bv16)
    requires h < 0x2000
    ensures (h << 3) as int == 8 * (h as int)
  {
  }

  lemma Joined3(h: bv16, l: bv16)
    requires h < 0x2000 && l < 8
    ensures ((h << 3) | l) as int == (h << 3) as int + l as int
  {
  }

  lemma Append3(h: bv16, l: bv16, r: bv16, n: nat, m: nat)
    requires h as int == n < 0x2000 && l as int == m < 8 && r == (h << 3) | l
    ensures r as int == 8 * n + m
  {
    assert h < 0x2000 && l < 8;
    ShiftedBy3(h);
    Joined3(h, l);
  }

  lemma Append4(h: bv16, l: bv16, r: bv16, n: nat, m: nat)
    requires h as int == n < 0x1000 && l as int == m < 16 && r == (h << 4) | l
    ensures r as int == 16 * n + m
  {
    assert h < 0x1000 && l < 16;
  }

  lemma Reordered(qr: bv16, op: bv16, aa: bv16, tc: bv16, rd: bv16, ra: bv16, z: bv16, rc: bv16)
    ensures (((((((((((((qr << 4) | op) << 1) | aa) << 1) | tc) << 1) | rd) << 1) | ra) << 3) | z) << 4) | rc ==
            (qr << 15) | (op << 11) | (aa << 10) | (tc << 9) | (rd << 8) | (ra << 7) | (z << 4) | rc
  {
  }

  /** The first five fields, appended to one another, the most significant first. */
  lemma UpperFlags(h: Header, op: bv16, a: bv16, b: bv16, c: bv16, d: bv16)
    requires HeaderInRange(h) && op as int == h.opcode
    requires a == (Bit(h.qr) << 4) | op && b == DoubledWord(a, h.aa) && c == DoubledWord(b, h.tc) && d == DoubledWord(c, h.rd)
    ensures d as int == UpperNumber(h)
  {
    var n := if h.qr then 1 else 0;
    assert Bit(h.qr) as int == n;
    Append4(Bit(h.qr), op, a, n, h.opcode);
    DoubledWordIs(a, 16 * n + h.opcode, h.aa);
    DoubledWordIs(b, b as int, h.tc);
    DoubledWordIs(c, c as int, h.rd);
  }

  function UpperNumber(h: Header): int {
    128 * (if h.qr then 1 else 0) + 8 * h.opcode + 4 * (if h.aa then 1 else 0) + 2 * (if h.tc then 1 else 0) + (if h.rd then 1 else 0)
  }

  lemma UpperBound(h: Header)
    requires HeaderInRange(h)
    ensures 0 <= UpperNumber(h) < 256
    ensures FlagNumber(h) == 256 * UpperNumber(h) + 128 * (if h.ra then 1 else 0) + 16 * h.z + h.rcode
  {
  }

  lemma LowerFlags(h: Header, z: bv16, rc: bv16, d: bv16, e: bv16, f: bv16, g: bv16, n: nat)
    requires HeaderInRange(h) && z as int == h.z && rc as int == h.rcode && d as int == n < 256
    requires e == DoubledWord(d, h.ra) && f == (e << 3) | z && g == (f << 4) | rc
    ensures g as int == 256 * n + 128 * (if h.ra then 1 else 0) + 16 * h.z + h.rcode
  {
    DoubledWordIs(d, n, h.ra);
    Append3(e, z, f, e as int, h.z);
    Append4(f, rc, g, f as int, h.rcode);
  }

  lemma DoubledIsShifted(b: bv16, odd: bool)
    ensures DoubledWord(b, odd) == (b << 1) | Bit(odd)
  {
  }

  lemma FlagsChain(h: Header, op: bv16, z: bv16, rc: bv16, a: bv16, b: bv16, c: bv16, d: bv16, e: bv16, f: bv16)
    requires op == ToU16(h.opcode) && z == ToU16(h.z) && rc == ToU16(h.rcode)
    requires a == (Bit(h.qr) << 4) | op && b == DoubledWord(a, h.aa) && c == DoubledWord(b, h.tc) && d == DoubledWord(c, h.rd)
    requires e == DoubledWord(d, h.ra) && f == (e << 3) | z
    ensures (f << 4) | rc == Flags(h)
  {
    DoubledIsShifted(a, h.aa);
    DoubledIsShifted(b, h.tc);
    DoubledIsShifted(c, h.rd);
    DoubledIsShifted(d, h.ra);
    Reordered(Bit(h.qr), op, Bit(h.aa), Bit(h.tc), Bit(h.rd), Bit(h.ra), z, rc);
  }

  lemma FlagsAre(h: Header)
    requires HeaderInRange(h)
    ensures Flags(h) as int == FlagNumber(h)
  {
    FieldsFit(h);
    var op, z, rc := ToU16(h.opcode), ToU16(h.z), ToU16(h.rcode);
    var a := (Bit(h.qr) << 4) | op;
    var b := DoubledWord(a, h.aa);
    var c := DoubledWord(b, h.tc);
    var d := DoubledWord(c, h.rd);
    var e := DoubledWord(d, h.ra);
    var f := (e << 3) | z;
    FlagsChain(h, op, z, rc, a, b, c, d, e, f);
    UpperFlags(h, op, a, b, c, d);
    UpperBound(h);
    LowerFlags(h, z, rc, d, e, f, Flags(h), UpperNumber(h));
  }

  /** A packed header is the six words of section 4.1.1 in their order. */
  lemma HeaderOnWire(h: Header)
    requires HeaderInRange(h)
    ensures var b := PackHeader(h);
            && Word(b, 0) == h.id as int && Word(b, 2) == FlagNumber(h) && Word(b, 4) == h.qdcount as int
            && Word(b, 6) == h.ancount as int && Word(b, 8) == h.nscount as int && Word(b, 10) == h.arcount as int
  {
    FlagsAre(h);
    WordWritten(h.id);
    WordWritten(Flags(h));
    WordWritten(h.qdcount);
    WordWritten(h.ancount);
    WordWritten(h.nscount);
    WordWritten(h.arcount);
  }

  lemma SameWord(a: bv16, b: bv16)
    requires a < 16 && b < 16 && a as int == b as int
    ensures a == b
  {
  }

  lemma CastBack(low: bv16, n: int)
    requires low < 16 && low as int == n < 16
    ensures ToU16(n) == low
  {
    U16SameIff(n);
    SameSmall(ToU16(n), low, n);
  }

  lemma SameSmall(a: bv16, b: bv16, n: int)
    requires a as int == n < 16 && b as int == n
    ensures a == b
  {
    BelowSixteen(a);
    BelowSixteen(b);
    SameWord(a, b);
  }

  lemma FlagsRepacked(b2: bv16)
    ensures (((b2 >> 15) & 0x1) << 15) | (((b2 >> 11) & 0xF) << 11) | (((b2 >> 10) & 0x1) << 10) | (((b2 >> 9) & 0x1) << 9)
            | (((b2 >> 8) & 0x1) << 8) | (((b2 >> 7) & 0x1) << 7) | (((b2 >> 4) & 0x7) << 4) | (b2 & 0xF) == b2
  {
  }

  lemma OneBit(b: bv16)
    ensures Bit(b & 0x1 == 1) == b & 0x1
  {
  }

  lemma FlagsOfRead(id: bv16, b2: bv16, qd: bv16, an: bv16, ns: bv16, ar: bv16)
    ensures Flags(HeaderOf(id, b2, qd, an, ns, ar)) == b2
  {
    var h := HeaderOf(id, b2, qd, an, ns, ar);
    OneBit(b2 >> 15);
    OneBit(b2 >> 10);
    OneBit(b2 >> 9);
    OneBit(b2 >> 8);
    OneBit(b2 >> 7);
    CastBack((b2 >> 11) & 0xF, h.opcode);
    CastBack((b2 >> 4) & 0x7, h.z);
    CastBack(b2 & 0xF, h.rcode);
    FlagsRepacked(b2);
  }

  /** Any twelve bytes are read as a header that fits, whose six words they are. */
  lemma HeaderReadsWire(data: Bytes, at: nat)
    requires at + 12 <= |data|
    ensures HeaderAt(data, at).Ok?
    ensures var h := HeaderAt(data, at).value;
            && HeaderInRange(h)
            && Word(data, at) == h.id as int && Word(data, at + 2) == FlagNumber(h) && Word(data, at + 4) == h.qdcount as int
            && Word(data, at + 6) == h.ancount as int && Word(data, at + 8) == h.nscount as int && Word(data, at + 10) == h.arcount as int
  {
    WordRead(data, at);
    WordRead(data, at + 2);
    WordRead(data, at + 4);
    WordRead(data, at + 6);
    WordRead(data, at + 8);
    WordRead(data, at + 10);
    var h := HeaderAt(data, at).value;
    var b2 := Get16(data, at + 2).value;
    FlagsOfRead(h.id, b2, h.qdcount, h.ancount, h.nscount, h.arcount);
    FlagsAre(h);
  }

  // ----- Names -----

  /** Where the i-th label of a name stands: each label takes its length and one byte more. */
  function Offset(ls: seq<Label>, i: nat): nat
    requires i <= |ls|
  {
    if i == 0 then 0 else Offset(ls, i - 1) + 1 + |ls[i - 1]|
  }

  predicate LabelOnWire(bytes: Bytes, o: nat, part: Label) {
    o + 1 + |part| <= |bytes| && bytes[o] as int == |part| && bytes[o + 1..o + 1 + |part|] == part
  }

  /** Labels that fit, of which none is the closing one. */
  predicate PlainLabels(ms: seq<Label>) {
    forall i :: 0 <= i < |ms| ==> 1 <= |ms[i]| <= 63
  }

  lemma {:induction false} OffsetRest(ls: seq<Label>, i: nat)
    requires 0 < i <= |ls|
    ensures Offset(ls, i) == 1 + |ls[0]| + Offset(ls[1..], i - 1)
  {
    if i > 1 { OffsetRest(ls, i - 1); }
  }

  lemma FirstOnWire(part: Label, rest: Bytes)
    requires 1 <= |part| <= 63
    ensures LabelOnWire(PackLabel(part) + rest, 0, part) && (PackLabel(part) + rest)[1 + |part|..] == rest
  {
    ByteIs(|part|);
    assert (PackLabel(part) + rest)[1..1 + |part|] == part;
  }

  lemma PackedParts(ls: seq<Label>)
    requires WellFormedName(ls) && |ls| > 1
    ensures WellFormedName(ls[1..]) && PackName(ls) == PackLabel(ls[0]) + PackName(ls[1..])
  {
  }

  lemma {:induction false} PackedLength(ls: seq<Label>)
    requires WellFormedName(ls)
    ensures |PackName(ls)| == Offset(ls, |ls|)
    decreases |ls|
  {
    if |ls| > 1 {
      PackedParts(ls);
      OffsetRest(ls, |ls|);
      PackedLength(ls[1..]);
    }
  }

  lemma LastOnWire(ls: seq<Label>)
    requires WellFormedName(ls) && |ls| == 1
    ensures LabelOnWire(PackName(ls), 0, ls[0])
  {
  }

  lemma HeadOnWire(ls: seq<Label>)
    requires WellFormedName(ls)
    ensures LabelOnWire(PackName(ls), 0, ls[0])
  {
    if |ls| == 1 {
      LastOnWire(ls);
    } else {
      PackedParts(ls);
      FirstOnWire(ls[0], PackName(ls[1..]));
    }
  }

  lemma LaterOnWire(ls: seq<Label>, o: nat, part: Label)
    requires WellFormedName(ls) && |ls| > 1 && LabelOnWire(PackName(ls[1..]), o, part)
    ensures LabelOnWire(PackName(ls), 1 + |ls[0]| + o, part)
  {
    PackedParts(ls);
    FirstOnWire(ls[0], PackName(ls[1..]));
    LabelShifted(PackName(ls), PackName(ls[1..]), 1 + |ls[0]|, o, part);
  }

  lemma {:induction false} LabelStands(ls: seq<Label>, i: nat, o: nat)
    requires WellFormedName(ls) && i < |ls| && o == Offset(ls, i)
    ensures LabelOnWire(PackName(ls), o, ls[i])
    decreases |ls|
  {
    if i == 0 {
      HeadOnWire(ls);
    } else {
      OffsetRest(ls, i);
      PackedParts(ls);
      LabelStands(ls[1..], i - 1, o - 1 - |ls[0]|);
      LaterOnWire(ls, o - 1 - |ls[0]|, ls[i]);
    }
  }

  /** A packed name is its labels in order, each behind a byte with its length, the last one of length 0. */
  lemma NameOnWire(ls: seq<Label>, i: nat)
    requires WellFormedName(ls) && i < |ls|
    ensures |PackName(ls)| == Offset(ls, |ls|) && LabelOnWire(PackName(ls), Offset(ls, i), ls[i])
  {
    PackedLength(ls);
    LabelStands(ls, i, Offset(ls, i));
  }

  lemma LabelShifted(b: Bytes, rest: Bytes, k: nat, o: nat, part: Label)
    requires k <= |b| && b[k..] == rest && LabelOnWire(rest, o, part)
    ensures LabelOnWire(b, k + o, part)
  {
    assert b[k + o + 1..k + o + 1 + |part|] == rest[o + 1..o + 1 + |part|];
  }

  // ----- Compressed names -----

  /** The two bytes of section 4.1.4: the top bits set, and the place in the other fourteen. */
  predicate PointerBytes(data: Bytes, q: nat, t: nat) {
    q + 2 <= |data| && t < 0x4000 && data[q] as int == 0xC0 + t / 256 && data[q + 1] as int == t % 256
  }

  lemma PointerReads(data: Bytes, q: nat, t: nat)
    requires PointerBytes(data, q, t)
    ensures PieceAt(data, q) == Pointer(t, q + 2)
  {
    PointerOfBytes(data[q], data[q + 1]);
    assert 256 * (t / 256) + t % 256 == t;
  }

  /** What a name is when these labels stand before it. */
  function Prefixed(ms: seq<Label>, r: Result<seq<Label>, Failure>): Result<seq<Label>, Failure> {
    match r case Err(e) => Err(e) case Ok(ls) => Ok(ms + ls)
  }

  /** What the place reads as with this much fuel, and where reading goes on. */
  predicate Reads(data: Bytes, at: nat, fuel: nat, r: Result<seq<Label>, Failure>, end: nat) {
    Expand(data, at, fuel) == r && AfterName(data, at) == end
  }

  /** These labels stand from p to q, each behind its length; the loop takes lengths up to 191. */
  predicate LabelsAt(data: Bytes, p: nat, ms: seq<Label>, q: nat)
    decreases |ms|
  {
    if ms == [] then p == q
    else 1 <= |ms[0]| <= 191 && LabelOnWire(data, p, ms[0]) && LabelsAt(data, p + 1 + |ms[0]|, ms[1..], q)
  }

  lemma LabelByte(b: bv8)
    requires 1 <= b as int <= 191
    ensures b != 0 && (b as bv16) & 0xC0 != 0xC0 && (b as bv16) as int == b as int
  {
    assert 1 <= b <= 191;
  }

  lemma LabelReadsWire(data: Bytes, at: nat, part: Label)
    requires 1 <= |part| <= 191 && LabelOnWire(data, at, part)
    ensures PieceAt(data, at) == Text(part, at + 1 + |part|)
  {
    LabelByte(data[at]);
  }

  lemma LabelsStep(data: Bytes, p: nat, ms: seq<Label>, next: nat, n: nat, r: Result<seq<Label>, Failure>, end: nat)
    requires ms != [] && PieceAt(data, p) == Text(ms[0], next) && n > 0 && Reads(data, next, n - 1, Prefixed(ms[1..], r), end)
    ensures Reads(data, p, n, Prefixed(ms, r), end)
  {
    LabelBefore(data, p, ms[0], next, n - 1, Prefixed(ms[1..], r), end);
    PrefixedOne(ms, r);
  }

  /** The loop takes these labels one by one from p to q. */
  predicate Pieces(data: Bytes, p: nat, ms: seq<Label>, q: nat)
    decreases |ms|
  {
    if ms == [] then p == q
    else PieceAt(data, p) == Text(ms[0], p + 1 + |ms[0]|) && Pieces(data, p + 1 + |ms[0]|, ms[1..], q)
  }

  lemma {:induction false} LabelsArePieces(data: Bytes, p: nat, ms: seq<Label>, q: nat)
    requires LabelsAt(data, p, ms, q)
    ensures Pieces(data, p, ms, q)
    decreases |ms|
  {
    if ms != [] {
      LabelReadsWire(data, p, ms[0]);
      LabelsArePieces(data, p + 1 + |ms[0]|, ms[1..], q);
    }
  }

  lemma NoLabels(data: Bytes, p: nat, fuel: nat, r: Result<seq<Label>, Failure>, end: nat)
    requires Reads(data, p, fuel, r, end)
    ensures Reads(data, p, fuel, Prefixed([], r), end)
  {
    PrefixedNone(r);
  }

  lemma {:induction false} PiecesThen(data: Bytes, p: nat, ms: seq<Label>, q: nat, fuel: nat, n: nat, r: Result<seq<Label>, Failure>, end: nat)
    requires Pieces(data, p, ms, q) && Reads(data, q, fuel, r, end) && n == fuel + |ms|
    ensures Reads(data, p, n, Prefixed(ms, r), end)
    decreases |ms|
  {
    if ms == [] {
      NoLabels(data, p, fuel, r, end);
    } else {
      var next := p + 1 + |ms[0]|;
      PiecesThen(data, next, ms[1..], q, fuel, n - 1, r, end);
      LabelsStep(data, p, ms, next, n, r, end);
    }
  }

  lemma LabelsThen(data: Bytes, p: nat, ms: seq<Label>, q: nat, fuel: nat, r: Result<seq<Label>, Failure>, end: nat)
    requires LabelsAt(data, p, ms, q) && Reads(data, q, fuel, r, end)
    ensures Reads(data, p, fuel + |ms|, Prefixed(ms, r), end)
  {
    LabelsArePieces(data, p, ms, q);
    PiecesThen(data, p, ms, q, fuel, fuel + |ms|, r, end);
  }

  /** Labels that were packed stand there. */
  lemma {:induction false} PackedLabelsAt(data: Bytes, p: nat, ms: seq<Label>, q: nat)
    requires PlainLabels(ms) && Holds(data, p, PackName(ms)) && q == p + |PackName(ms)|
    ensures LabelsAt(data, p, ms, q)
    decreases |ms|
  {
    if ms != [] {
      var next := p + 1 + |ms[0]|;
      HoldsBoth(data, p, next, PackName(ms), PackLabel(ms[0]), PackName(ms[1..]));
      PackedLabelAt(data, p, ms[0]);
      PackedLabelsAt(data, next, ms[1..], q);
    }
  }

  lemma PackedLabelAt(data: Bytes, p: nat, part: Label)
    requires 1 <= |part| <= 63 && Holds(data, p, PackLabel(part))
    ensures LabelOnWire(data, p, part)
  {
    ByteIs(|part|);
    HoldsParts(data, p, [ByteOf(|part|)], part);
    assert data[p..p + 1][0] == data[p];
  }

  lemma LabelBefore(data: Bytes, at: nat, part: Label, next: nat, fuel: nat, r: Result<seq<Label>, Failure>, end: nat)
    requires PieceAt(data, at) == Text(part, next) && Reads(data, next, fuel, r, end)
    ensures Reads(data, at, fuel + 1, Prefixed([part], r), end)
  {
  }

  lemma PointerBefore(data: Bytes, q: nat, t: nat, fuel: nat, r: Result<seq<Label>, Failure>)
    requires PointerBytes(data, q, t) && Expand(data, t, fuel) == r
    ensures Reads(data, q, fuel + 1, r, q + 2)
  {
    PointerReads(data, q, t);
  }

  lemma PrefixedNone(r: Result<seq<Label>, Failure>)
    ensures Prefixed([], r) == r
  {
    if r.Ok? { assert [] + r.value == r.value; }
  }

  lemma PrefixedOne(ms: seq<Label>, r: Result<seq<Label>, Failure>)
    requires ms != []
    ensures Prefixed([ms[0]], Prefixed(ms[1..], r)) == Prefixed(ms, r)
  {
    if r.Ok? { assert [ms[0]] + (ms[1..] + r.value) == ms + r.value; }
  }

  /** What a name is that ends in a pointer to r behind these labels. */
  function Behind(ms: seq<Label>, next: nat, r: Result<(seq<Label>, nat), Failure>): Result<(seq<Label>, nat), Failure> {
    match r case Err(e) => Err(e) case Ok(p) => Ok((ms + p.0, next))
  }

  /**
   * Labels followed by a pointer are read as these labels and then the name at the pointer's
   * place, whatever stands there, and fail as that does; reading goes on right behind the pointer.
   */
  lemma CompressedNameReads(data: Bytes, p: nat, ms: seq<Label>, q: nat, t: nat)
    requires LabelsAt(data, p, ms, q) && PointerBytes(data, q, t)
    ensures NameAt(data, p) == Behind(ms, q + 2, NameAt(data, t))
  {
    var r := Expand(data, t, |data| + 1);
    CompressedReads(data, p, ms, q, t, |data| + 1, r);
    NameFrom(data, p, ms, q + 2, t, |data| + 2 + |ms|, r);
  }

  lemma CompressedReads(data: Bytes, p: nat, ms: seq<Label>, q: nat, t: nat, fuel: nat, r: Result<seq<Label>, Failure>)
    requires LabelsAt(data, p, ms, q) && PointerBytes(data, q, t)
    requires r == Expand(data, t, fuel)
    ensures Reads(data, p, fuel + 1 + |ms|, Prefixed(ms, r), q + 2)
  {
    PointerBefore(data, q, t, fuel, r);
    LabelsThen(data, p, ms, q, fuel + 1, r, q + 2);
  }

  lemma NameFrom(data: Bytes, p: nat, ms: seq<Label>, end: nat, t: nat, fuel: nat, r: Result<seq<Label>, Failure>)
    requires Reads(data, p, fuel, Prefixed(ms, r), end) && r == Expand(data, t, |data| + 1) && fuel >= |data| + 1
    ensures NameAt(data, p) == Behind(ms, end, NameAt(data, t))
  {
    ExpandIs(data, p, fuel, Prefixed(ms, r), end);
  }

  /** The name is what any fuel gives that does not run out, and endless if that runs out with enough of it. */
  lemma ExpandIs(data: Bytes, p: nat, fuel: nat, r: Result<seq<Label>, Failure>, end: nat)
    requires Reads(data, p, fuel, r, end) && fuel >= |data| + 1
    ensures Expand(data, p, |data| + 1) == r && AfterName(data, p) == end
  {
    if r != Err(Endless) {
      Settles(data, p, fuel);
    } else if Expand(data, p, |data| + 1) != Err(Endless) {
      EnoughFuel(data, p, |data| + 1, fuel);
    }
  }

  /** So a name whose end was packed elsewhere, and is pointed to, comes back whole. */
  lemma CompressionRoundTrip(data: Bytes, p: nat, ms: seq<Label>, q: nat, t: nat, ls: seq<Label>)
    requires PlainLabels(ms) && Holds(data, p, PackName(ms)) && q == p + |PackName(ms)| && PointerBytes(data, q, t)
    requires WellFormedName(ls) && Holds(data, t, PackName(ls))
    ensures NameAt(data, p) == Ok((ms + ls, q + 2))
  {
    NameRoundTripIff(data, t, ls);
    PackedLabelsAt(data, p, ms, q);
    CompressedNameReads(data, p, ms, q, t);
  }

  /** Labels up to a zero byte are a name, of lengths 64 to 191 too, which RFC 1035 keeps for other uses. */
  lemma ZeroEndedNameReads(data: Bytes, p: nat, ms: seq<Label>, q: nat)
    requires LabelsAt(data, p, ms, q) && q < |data| && data[q] as int == 0
    ensures NameAt(data, p) == Ok((ms + [[]], q + 1))
  {
    var r: Result<seq<Label>, Failure> := Ok([[]]);
    assert data[q] == 0;
    LabelsThen(data, p, ms, q, |data| + 1, r, q + 1);
    ExpandIs(data, p, |data| + 1 + |ms|, Prefixed(ms, r), q + 1);
  }

  /** A first byte of 64, which RFC 1035 reserves, is read as a label of 64 bytes. */
  lemma ReservedLengthReads(part: Label)
    requires |part| == 64
    ensures NameAt([64] + part + [0], 0) == Ok(([part, []], 66))
  {
    var data: Bytes := [64] + part + [0];
    assert data[1..65] == part && [part][1..] == [];
    assert LabelsAt(data, 65, [], 65);
    assert LabelsAt(data, 0, [part], 65);
    ZeroEndedNameReads(data, 0, [part], 65);
    assert [part] + [[]] == [part, []];
  }

  // ----- Questions -----

  /** A packed question is its name and the words of its type and class (section 4.1.2). */
  lemma QuestionOnWire(q: Question)
    requires QuestionWellFormed(q)
    ensures var b, n := PackQuestion(q), |PackName(q.qname)|;
            b[..n] == PackName(q.qname) && |b| == n + 4 && Word(b, n) == q.qtype && Word(b, n + 2) == q.qclass
  {
    U16SameIff(q.qtype);
    U16SameIff(q.qclass);
    WordWritten(ToU16(q.qtype));
    WordWritten(ToU16(q.qclass));
  }

  lemma QuestionParts(data: Bytes, at: nat, q: Question, next: nat)
    requires QuestionAt(data, at) == Ok((q, next))
    ensures next >= 4 && NameAt(data, at) == Ok((q.qname, next - 4)) && next <= |data|
    ensures Get16(data, next - 4).value as int == q.qtype && Get16(data, next - 2).value as int == q.qclass
  {
  }

  /** The type and class of a question are the two words behind its name, wherever that ends. */
  lemma QuestionReadsWire(data: Bytes, at: nat, q: Question, next: nat)
    requires QuestionAt(data, at) == Ok((q, next))
    ensures 4 <= next <= |data| && NameAt(data, at) == Ok((q.qname, next - 4))
    ensures Word(data, next - 4) == q.qtype && Word(data, next - 2) == q.qclass
  {
    QuestionParts(data, at, q, next);
    WordRead(data, next - 4);
    WordRead(data, next - 2);
  }
}

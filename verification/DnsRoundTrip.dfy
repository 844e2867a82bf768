/** Unpacking undoes packing, for headers, names and queries, and exactly when it does. */
module DnsRoundTrip {
  import opened Wrappers
  import opened Bits
  import opened DnsModel
  import opened DnsTermination

  /** The bytes stand in the data at this place. */
  predicate Holds(data: Bytes, at: nat, bytes: Bytes) {
    at + |bytes| <= |data| && data[at..at + |bytes|] == bytes
  }

  lemma HoldsParts(data: Bytes, at: nat, a: Bytes, b: Bytes)
    requires Holds(data, at, a + b)
    ensures Holds(data, at, a) && Holds(data, at + |a|, b)
  {
    var whole := data[at..at + |a + b|];
    assert whole[..|a|] == a && whole[|a|..] == b;
    assert data[at..at + |a|] == whole[..|a|];
    assert data[at + |a|..at + |a| + |b|] == whole[|a|..];
  }

  /** Two pieces that make up a whole, the second from mid on. */
  lemma HoldsBoth(data: Bytes, at: nat, mid: nat, whole: Bytes, a: Bytes, b: Bytes)
    requires Holds(data, at, whole) && whole == a + b && mid == at + |a|
    ensures Holds(data, at, a) && Holds(data, mid, b) && at + |whole| == mid + |b|
  {
    HoldsParts(data, at, a, b);
  }

  lemma WordReads(data: Bytes, at: nat, v: bv16)
    requires Holds(data, at, Put16(v))
    ensures Get16(data, at) == Ok(v)
  {
    var two := data[at..at + 2];
    assert two[0] == data[at] && two[1] == data[at + 1];
  }

  // ----- Header -----

  predicate HeaderInRange(h: Header) {
    0 <= h.opcode < 16 && 0 <= h.z < 8 && 0 <= h.rcode < 16
  }

  lemma TwiceWord(b: bv16)
    requires b as int < 0x8000
    ensures (b << 1) as int == 2 * (b as int)
  {
    assert b < 0x8000;
  }

  lemma TwiceWordAndOne(b: bv16)
    requires b as int < 0x8000
    ensures ((b << 1) | 1) as int == 2 * (b as int) + 1
  {
    assert b < 0x8000;
  }

  lemma DoubledWordIs(b: bv16, n: nat, odd: bool)
    requires b as int == n < 0x8000
    ensures DoubledWord(b, odd) as int == 2 * n + (if odd then 1 else 0)
  {
    if odd { TwiceWordAndOne(b); } else { TwiceWord(b); }
  }

  lemma DoubledByteIs(b: bv8, n: nat, odd: bool)
    requires b as int == n < 0x80
    ensures DoubledByte(b, odd) as int == 2 * n + (if odd then 1 else 0)
  {
    assert b < 0x80;
  }

  lemma {:induction false} WordIs(n: nat)
    requires n < 0x1_0000
    ensures WordOf(n) as int == n
  {
    if n > 0 {
      WordIs(n / 2);
      DoubledWordIs(WordOf(n / 2), n / 2, n % 2 == 1);
    }
  }

  lemma {:induction false} ByteIs(n: nat)
    requires n < 0x100
    ensures ByteOf(n) as int == n
  {
    if n > 0 {
      ByteIs(n / 2);
      DoubledByteIs(ByteOf(n / 2), n / 2, n % 2 == 1);
    }
  }

  lemma SameModulo(x: int, w: int)
    requires w == x % 0x1_0000
    ensures w == x <==> 0 <= x < 0x1_0000
  {
  }

  /** A cast to std::uint16_t keeps a number exactly when it has 16 bits. */
  lemma U16SameIff(x: int)
    ensures ToU16(x) as int == x <==> 0 <= x < 0x1_0000
  {
    WordIs(x % 0x1_0000);
    SameModulo(x, ToU16(x) as int);
  }

  lemma BelowEight(b: bv16)
    requires (b as int) < 8
    ensures b < 8
  {
  }

  lemma BelowSixteen(b: bv16)
    requires (b as int) < 16
    ensures b < 16
  {
  }

  /** The fields of the flag word do not overlap when each fits its width. */
  lemma FlagsSplit(qr: bv16, op: bv16, aa: bv16, tc: bv16, rd: bv16, ra: bv16, z: bv16, rc: bv16)
    requires qr < 2 && op < 16 && aa < 2 && tc < 2 && rd < 2 && ra < 2 && z < 8 && rc < 16
    ensures var b2 := (qr << 15) | (op << 11) | (aa << 10) | (tc << 9) | (rd << 8) | (ra << 7) | (z << 4) | rc;
            && (b2 >> 15) & 0x1 == qr && (b2 >> 11) & 0xF == op && (b2 >> 10) & 0x1 == aa && (b2 >> 9) & 0x1 == tc
            && (b2 >> 8) & 0x1 == rd && (b2 >> 7) & 0x1 == ra && (b2 >> 4) & 0x7 == z && b2 & 0xF == rc
  {
  }

  lemma BitsBack(h: Header)
    ensures (Bit(h.qr) == 1) == h.qr && (Bit(h.aa) == 1) == h.aa && (Bit(h.tc) == 1) == h.tc
    ensures (Bit(h.rd) == 1) == h.rd && (Bit(h.ra) == 1) == h.ra
  {
  }

  lemma FieldsFit(h: Header)
    requires HeaderInRange(h)
    ensures ToU16(h.opcode) < 16 && ToU16(h.z) < 8 && ToU16(h.rcode) < 16
    ensures ToU16(h.opcode) as int == h.opcode && ToU16(h.z) as int == h.z && ToU16(h.rcode) as int == h.rcode
  {
    U16SameIff(h.opcode);
    U16SameIff(h.z);
    U16SameIff(h.rcode);
    BelowSixteen(ToU16(h.opcode));
    BelowEight(ToU16(h.z));
    BelowSixteen(ToU16(h.rcode));
  }

  lemma FlagsOfParts(h: Header, b2: bv16, qr: bv16, op: bv16, aa: bv16, tc: bv16, rd: bv16, ra: bv16, z: bv16, rc: bv16)
    requires (qr, op, aa, tc, rd, ra, z, rc) ==
             (Bit(h.qr), ToU16(h.opcode), Bit(h.aa), Bit(h.tc), Bit(h.rd), Bit(h.ra), ToU16(h.z), ToU16(h.rcode))
    requires b2 == (qr << 15) | (op << 11) | (aa << 10) | (tc << 9) | (rd << 8) | (ra << 7) | (z << 4) | rc
    ensures b2 == Flags(h)
  {
  }

  lemma FlagsReadBack(h: Header)
    requires HeaderInRange(h)
    ensures HeaderOf(h.id, Flags(h), h.qdcount, h.ancount, h.nscount, h.arcount) == h
  {
    var qr, op, aa, tc, rd, ra, z, rc := Bit(h.qr), ToU16(h.opcode), Bit(h.aa), Bit(h.tc), Bit(h.rd), Bit(h.ra), ToU16(h.z), ToU16(h.rcode);
    var b2 := (qr << 15) | (op << 11) | (aa << 10) | (tc << 9) | (rd << 8) | (ra << 7) | (z << 4) | rc;
    FlagsOfParts(h, b2, qr, op, aa, tc, rd, ra, z, rc);
    FieldsFit(h);
    FlagsSplit(qr, op, aa, tc, rd, ra, z, rc);
    HeaderFromParts(h, b2);
  }

  lemma HeaderFromParts(h: Header, b2: bv16)
    requires (b2 >> 15) & 0x1 == Bit(h.qr) && (b2 >> 10) & 0x1 == Bit(h.aa) && (b2 >> 9) & 0x1 == Bit(h.tc)
    requires (b2 >> 8) & 0x1 == Bit(h.rd) && (b2 >> 7) & 0x1 == Bit(h.ra)
    requires ((b2 >> 11) & 0xF) as int == h.opcode && ((b2 >> 4) & 0x7) as int == h.z && (b2 & 0xF) as int == h.rcode
    ensures HeaderOf(h.id, b2, h.qdcount, h.ancount, h.nscount, h.arcount) == h
  {
    BitsBack(h);
  }

  lemma HeaderOfInRange(id: bv16, b2: bv16, qd: bv16, an: bv16, ns: bv16, ar: bv16)
    ensures HeaderInRange(HeaderOf(id, b2, qd, an, ns, ar))
  {
  }

  lemma HeaderWords(data: Bytes, at: nat, h: Header)
    requires Holds(data, at, PackHeader(h))
    ensures HeaderAt(data, at) == Ok(HeaderOf(h.id, Flags(h), h.qdcount, h.ancount, h.nscount, h.arcount))
  {
    var a, b, c, d, e, f := Put16(h.id), Put16(Flags(h)), Put16(h.qdcount), Put16(h.ancount), Put16(h.nscount), Put16(h.arcount);
    HoldsParts(data, at, a + b + c + d + e, f);
    HoldsParts(data, at, a + b + c + d, e);
    HoldsParts(data, at, a + b + c, d);
    HoldsParts(data, at, a + b, c);
    HoldsParts(data, at, a, b);
    WordReads(data, at, h.id);
    WordReads(data, at + 2, Flags(h));
    WordReads(data, at + 4, h.qdcount);
    WordReads(data, at + 6, h.ancount);
    WordReads(data, at + 8, h.nscount);
    WordReads(data, at + 10, h.arcount);
  }

  /** A packed header reads back the same exactly when opcode, z and rcode fit their bits. */
  lemma HeaderRoundTripIff(data: Bytes, at: nat, h: Header)
    requires Holds(data, at, PackHeader(h))
    ensures HeaderAt(data, at) == Ok(h) <==> HeaderInRange(h)
  {
    HeaderWords(data, at, h);
    HeaderOfInRange(h.id, Flags(h), h.qdcount, h.ancount, h.nscount, h.arcount);
    if HeaderInRange(h) { FlagsReadBack(h); }
  }

  /** A z of 8 turns up as the recursion-available flag. */
  lemma WideZSpills(h: Header)
    requires h.z == 8 && !h.ra
    ensures HeaderOf(h.id, Flags(h), h.qdcount, h.ancount, h.nscount, h.arcount).ra
  {
    assert h.z % 0x1_0000 == 8 && WordOf(8) == 8;
    var rest := (Bit(h.qr) << 15) | (ToU16(h.opcode) << 11) | (Bit(h.aa) << 10) | (Bit(h.tc) << 9) | (Bit(h.rd) << 8);
    RaSet(rest, Bit(h.ra) << 7, ToU16(h.rcode));
  }

  lemma RaSet(rest: bv16, ra: bv16, rc: bv16)
    ensures ((rest | ra | (8 << 4) | rc) >> 7) & 0x1 == 1
  {
  }

  // ----- Names -----

  /** Labels of 1 to 63 bytes, then one empty label. */
  predicate WellFormedName(ls: seq<Label>) {
    |ls| > 0 && ls[|ls| - 1] == [] && forall i :: 0 <= i < |ls| - 1 ==> 1 <= |ls[i]| <= 63
  }

  /** What packing keeps of a name: clipped labels up to the first empty one. */
  function Kept(ls: seq<Label>): seq<Label> {
    if ls == [] then [] else if ls[0] == [] then [[]] else [Clipped(ls[0])] + Kept(ls[1..])
  }

  lemma {:induction false} KeptSameIff(ls: seq<Label>)
    requires [] in ls
    ensures Kept(ls) == ls <==> WellFormedName(ls)
  {
    if ls[0] != [] {
      assert [] in ls[1..];
      KeptSameIff(ls[1..]);
      assert ls == [ls[0]] + ls[1..];
      if WellFormedName(ls) {
        assert WellFormedName(ls[1..]);
      } else {
        assert ([Clipped(ls[0])] + Kept(ls[1..]))[1..] == Kept(ls[1..]);
      }
    } else if Kept(ls) == ls {
      assert |ls| == 1;
    }
  }

  lemma SmallSize(b: bv8)
    requires b as int <= 63
    ensures b & 0xC0 != 0xC0 && (b as bv16) & 0xC0 != 0xC0 && (b as bv16) as int == b as int
    ensures b == 0 <==> b as int == 0
  {
    assert b < 64;
  }

  lemma LabelReads(data: Bytes, at: nat, part: Label)
    requires 1 <= |part| <= 63 && Holds(data, at, PackLabel(part))
    ensures PieceAt(data, at) == Text(part, at + 1 + |part|)
  {
    ByteIs(|part|);
    SmallSize(ByteOf(|part|));
    HoldsParts(data, at, [ByteOf(|part|)], part);
    assert data[at..at + 1][0] == data[at];
  }

  lemma NameStep(data: Bytes, at: nat, part: Label, next: nat, fuel: nat, more: seq<Label>)
    requires PieceAt(data, at) == Text(part, next) && Expand(data, next, fuel) == Ok(more)
    ensures Expand(data, at, fuel + 1) == Ok([part] + more) && AfterName(data, at) == AfterName(data, next)
  {
  }

  lemma ZeroByte(data: Bytes, at: nat)
    requires Holds(data, at, [0])
    ensures PieceAt(data, at) == End(at + 1)
  {
    assert data[at..at + 1][0] == data[at];
  }

  lemma FirstLabel(data: Bytes, at: nat, ls: seq<Label>, next: nat, end: nat)
    requires ls != [] && ls[0] != [] && Holds(data, at, PackName(ls)) && next == at + 1 + |Clipped(ls[0])| && end == at + |PackName(ls)|
    ensures PieceAt(data, at) == Text(Clipped(ls[0]), next) && Holds(data, next, PackName(ls[1..]))
    ensures end == next + |PackName(ls[1..])|
  {
    HoldsBoth(data, at, next, PackName(ls), PackLabel(Clipped(ls[0])), PackName(ls[1..]));
    LabelReads(data, at, Clipped(ls[0]));
  }

  predicate Unpacks(data: Bytes, at: nat, fuel: nat, ls: seq<Label>, end: nat) {
    Expand(data, at, fuel) == Ok(ls) && AfterName(data, at) == end
  }

  lemma UnpacksStep(data: Bytes, at: nat, ls: seq<Label>, next: nat, end: nat)
    requires ls != [] && ls[0] != []
    requires PieceAt(data, at) == Text(Clipped(ls[0]), next) && Unpacks(data, next, |ls| - 1, Kept(ls[1..]), end)
    ensures Unpacks(data, at, |ls|, Kept(ls), end)
  {
    NameStep(data, at, Clipped(ls[0]), next, |ls| - 1, Kept(ls[1..]));
  }

  lemma UnpacksZero(data: Bytes, at: nat, ls: seq<Label>, end: nat)
    requires ls != [] && ls[0] == [] && Holds(data, at, PackName(ls)) && end == at + |PackName(ls)|
    ensures Unpacks(data, at, |ls|, Kept(ls), end)
  {
    ZeroByte(data, at);
  }

  lemma EmptyLater(ls: seq<Label>)
    requires [] in ls && ls[0] != []
    ensures [] in ls[1..]
  {
  }

  lemma {:induction false} NameReads(data: Bytes, at: nat, ls: seq<Label>, end: nat)
    requires [] in ls && Holds(data, at, PackName(ls)) && end == at + |PackName(ls)|
    ensures Unpacks(data, at, |ls|, Kept(ls), end)
    decreases |ls|
  {
    if ls[0] == [] {
      UnpacksZero(data, at, ls, end);
    } else {
      var next := at + 1 + |Clipped(ls[0])|;
      FirstLabel(data, at, ls, next, end);
      EmptyLater(ls);
      NameReads(data, next, ls[1..], end);
      UnpacksStep(data, at, ls, next, end);
    }
  }

  /** An expansion that came to an end is the name, whatever fuel it took. */
  lemma Settles(data: Bytes, at: nat, fuel: nat)
    requires Expand(data, at, fuel) != Err(Endless)
    ensures Expand(data, at, |data| + 1) == Expand(data, at, fuel)
  {
    EndlessIffStillGoing(data, at, fuel);
    EndsIffWithinLength(data, at);
    if fuel <= |data| + 1 { EnoughFuel(data, at, fuel, |data| + 1); } else { EnoughFuel(data, at, |data| + 1, fuel); }
  }

  /** With all the fuel there is, too. */
  lemma NameReadsFully(data: Bytes, at: nat, ls: seq<Label>)
    requires [] in ls && Holds(data, at, PackName(ls))
    ensures NameAt(data, at) == Ok((Kept(ls), at + |PackName(ls)|))
  {
    NameReads(data, at, ls, at + |PackName(ls)|);
    Settles(data, at, |ls|);
  }

  lemma {:induction false} EndsEmpty(data: Bytes, at: nat, fuel: nat)
    ensures Expand(data, at, fuel).Ok? ==> [] in Expand(data, at, fuel).value
    decreases fuel
  {
    match PieceAt(data, at)
    case Text(_, next) => if fuel > 0 { EndsEmpty(data, next, fuel - 1); }
    case Pointer(target, _) => if fuel > 0 { EndsEmpty(data, target, fuel - 1); }
    case _ =>
  }

  /** Wherever a name was packed, unpacking there gives it back exactly when it is well formed, and then stops behind it. */
  lemma NameRoundTripIff(data: Bytes, at: nat, ls: seq<Label>)
    requires Holds(data, at, PackName(ls))
    ensures NameAt(data, at).Ok? && NameAt(data, at).value.0 == ls <==> WellFormedName(ls)
    ensures WellFormedName(ls) ==> NameAt(data, at) == Ok((ls, at + |PackName(ls)|))
  {
    EndsEmpty(data, at, |data| + 1);
    if [] in ls {
      NameReadsFully(data, at, ls);
      KeptSameIff(ls);
    }
  }

  // ----- Queries -----

  predicate QuestionWellFormed(q: Question) {
    WellFormedName(q.qname) && 0 <= q.qtype < 0x1_0000 && 0 <= q.qclass < 0x1_0000
  }

  lemma TwoWords(data: Bytes, at: nat, t: bv16, c: bv16)
    requires Holds(data, at, Put16(t) + Put16(c))
    ensures at + 4 <= |data| && Get16(data, at) == Ok(t) && Get16(data, at + 2) == Ok(c)
  {
    HoldsParts(data, at, Put16(t), Put16(c));
    WordReads(data, at, t);
    WordReads(data, at + 2, c);
  }

  lemma QuestionIs(data: Bytes, at: nat, ls: seq<Label>, next: nat, t: bv16, c: bv16)
    requires NameAt(data, at) == Ok((ls, next)) && next + 4 <= |data| && Get16(data, next) == Ok(t) && Get16(data, next + 2) == Ok(c)
    ensures QuestionAt(data, at) == Ok((Question(ls, t as int, c as int), next + 4))
  {
  }

  lemma QuestionNameIs(data: Bytes, at: nat)
    ensures QuestionAt(data, at).Ok? ==> NameAt(data, at).Ok? && NameAt(data, at).value.0 == QuestionAt(data, at).value.0.qname
  {
  }

  /** What unpacking a question gives, compared with the one that was packed. */
  predicate QuestionSurvives(q: Question, r: Result<(Question, nat), Failure>, end: nat) {
    && (r.Ok? && r.value.0 == q <==> QuestionWellFormed(q))
    && (QuestionWellFormed(q) ==> r == Ok((q, end)))
  }

  lemma QuestionPacked(data: Bytes, at: nat, q: Question, next: nat, end: nat, t: bv16, c: bv16)
    requires Holds(data, at, PackQuestion(q)) && next == at + |PackName(q.qname)| && end == at + |PackQuestion(q)|
    requires t == ToU16(q.qtype) && c == ToU16(q.qclass)
    ensures Holds(data, at, PackName(q.qname)) && Holds(data, next, Put16(t) + Put16(c)) && end == next + 4
  {
    HoldsBoth(data, at, next, PackQuestion(q), PackName(q.qname), Put16(t) + Put16(c));
  }

  lemma QuestionRoundTripIff(data: Bytes, at: nat, q: Question, end: nat)
    requires Holds(data, at, PackQuestion(q)) && end == at + |PackQuestion(q)|
    ensures QuestionSurvives(q, QuestionAt(data, at), end)
  {
    var next := at + |PackName(q.qname)|;
    var t, c := ToU16(q.qtype), ToU16(q.qclass);
    QuestionPacked(data, at, q, next, end, t, c);
    NameSurvives(data, at, q.qname, next);
    if WellFormedName(q.qname) {
      GoodName(data, at, q, next, end, t, c);
    } else {
      BadName(data, at, q, end);
    }
  }

  lemma NameSurvives(data: Bytes, at: nat, ls: seq<Label>, next: nat)
    requires Holds(data, at, PackName(ls)) && next == at + |PackName(ls)|
    ensures NameAt(data, at).Ok? && NameAt(data, at).value.0 == ls <==> WellFormedName(ls)
    ensures WellFormedName(ls) ==> NameAt(data, at) == Ok((ls, next))
  {
    NameRoundTripIff(data, at, ls);
  }

  lemma BadName(data: Bytes, at: nat, q: Question, end: nat)
    requires !WellFormedName(q.qname) && !(NameAt(data, at).Ok? && NameAt(data, at).value.0 == q.qname)
    ensures QuestionSurvives(q, QuestionAt(data, at), end)
  {
    QuestionNameIs(data, at);
  }

  lemma GoodName(data: Bytes, at: nat, q: Question, next: nat, end: nat, t: bv16, c: bv16)
    requires NameAt(data, at) == Ok((q.qname, next)) && Holds(data, next, Put16(t) + Put16(c)) && WellFormedName(q.qname)
    requires t == ToU16(q.qtype) && c == ToU16(q.qclass) && end == next + 4
    ensures QuestionSurvives(q, QuestionAt(data, at), end)
  {
    TwoWords(data, next, t, c);
    QuestionIs(data, at, q.qname, next, t, c);
    U16SameIff(q.qtype);
    U16SameIff(q.qclass);
  }

  predicate QuestionsWellFormed(qs: seq<Question>) {
    forall i :: 0 <= i < |qs| ==> QuestionWellFormed(qs[i])
  }

  lemma QuestionsStep(data: Bytes, at: nat, n: nat, q: Question, next: nat)
    requires QuestionAt(data, at) == Ok((q, next))
    ensures QuestionsAt(data, at, n + 1).Ok? <==> QuestionsAt(data, next, n).Ok?
    ensures QuestionsAt(data, next, n).Ok? ==>
              QuestionsAt(data, at, n + 1) == Ok(([q] + QuestionsAt(data, next, n).value.0, QuestionsAt(data, next, n).value.1))
  {
  }

  lemma QuestionsFirst(data: Bytes, at: nat, n: nat)
    requires n > 0 && QuestionsAt(data, at, n).Ok?
    ensures QuestionAt(data, at).Ok? && QuestionsAt(data, at, n).value.0 != [] && QuestionsAt(data, at, n).value.0[0] == QuestionAt(data, at).value.0
  {
  }

  /** What unpacking n questions gives, compared with the ones that were packed. */
  predicate QuestionsSurvive(data: Bytes, at: nat, qs: seq<Question>, end: nat) {
    var r := QuestionsAt(data, at, |qs|);
    && (r.Ok? && r.value.0 == qs <==> QuestionsWellFormed(qs))
    && (QuestionsWellFormed(qs) ==> r == Ok((qs, end)))
  }

  lemma BadFirstQuestion(data: Bytes, at: nat, qs: seq<Question>, end: nat)
    requires qs != [] && !QuestionWellFormed(qs[0]) && !(QuestionAt(data, at).Ok? && QuestionAt(data, at).value.0 == qs[0])
    ensures QuestionsSurvive(data, at, qs, end)
  {
    if QuestionsAt(data, at, |qs|).Ok? { QuestionsFirst(data, at, |qs|); }
  }

  lemma GoodFirstQuestion(data: Bytes, at: nat, qs: seq<Question>, next: nat, end: nat)
    requires qs != [] && QuestionWellFormed(qs[0]) && QuestionAt(data, at) == Ok((qs[0], next))
    requires QuestionsSurvive(data, next, qs[1..], end)
    ensures QuestionsSurvive(data, at, qs, end)
  {
    QuestionsSplit(qs);
    QuestionsStep(data, at, |qs| - 1, qs[0], next);
    assert [qs[0]] + qs[1..] == qs;
    if QuestionsAt(data, next, |qs| - 1).Ok? { SameTail(data, next, qs); }
  }

  lemma FirstPacked(qs: seq<Question>, whole: Bytes, first: Bytes, rest: Bytes)
    requires qs != [] && whole == PackQuestions(qs) && first == PackQuestion(qs[0]) && rest == PackQuestions(qs[1..])
    ensures whole == first + rest
  {
  }

  lemma QuestionsPacked(data: Bytes, at: nat, qs: seq<Question>, next: nat, end: nat)
    requires qs != [] && Holds(data, at, PackQuestions(qs)) && next == at + |PackQuestion(qs[0])| && end == at + |PackQuestions(qs)|
    ensures Holds(data, at, PackQuestion(qs[0])) && Holds(data, next, PackQuestions(qs[1..])) && end == next + |PackQuestions(qs[1..])|
  {
    var whole, first, rest := PackQuestions(qs), PackQuestion(qs[0]), PackQuestions(qs[1..]);
    FirstPacked(qs, whole, first, rest);
    HoldsBoth(data, at, next, whole, first, rest);
  }

  lemma FirstQuestionReads(data: Bytes, at: nat, qs: seq<Question>, next: nat, end: nat)
    requires qs != [] && Holds(data, at, PackQuestions(qs)) && next == at + |PackQuestion(qs[0])| && end == at + |PackQuestions(qs)|
    ensures QuestionSurvives(qs[0], QuestionAt(data, at), next)
    ensures Holds(data, next, PackQuestions(qs[1..])) && end == next + |PackQuestions(qs[1..])|
  {
    QuestionsPacked(data, at, qs, next, end);
    QuestionRoundTripIff(data, at, qs[0], next);
  }

  lemma {:induction false} QuestionsRoundTripIff(data: Bytes, at: nat, qs: seq<Question>, end: nat)
    requires Holds(data, at, PackQuestions(qs)) && end == at + |PackQuestions(qs)|
    ensures QuestionsSurvive(data, at, qs, end)
    decreases |qs|
  {
    if qs != [] {
      var next := at + |PackQuestion(qs[0])|;
      FirstQuestionReads(data, at, qs, next, end);
      if QuestionWellFormed(qs[0]) {
        QuestionsRoundTripIff(data, next, qs[1..], end);
        GoodFirstQuestion(data, at, qs, next, end);
      } else {
        BadFirstQuestion(data, at, qs, end);
      }
    }
  }

  lemma QuestionsSplit(qs: seq<Question>)
    requires qs != []
    ensures QuestionsWellFormed(qs) <==> QuestionWellFormed(qs[0]) && QuestionsWellFormed(qs[1..])
  {
    if QuestionWellFormed(qs[0]) && QuestionsWellFormed(qs[1..]) {
      forall i | 0 <= i < |qs| ensures QuestionWellFormed(qs[i]) {
        if i > 0 { assert qs[i] == qs[1..][i - 1]; }
      }
    }
  }

  lemma SameTail(data: Bytes, next: nat, qs: seq<Question>)
    requires qs != [] && QuestionsAt(data, next, |qs| - 1).Ok?
    ensures [qs[0]] + QuestionsAt(data, next, |qs| - 1).value.0 == qs <==> QuestionsAt(data, next, |qs| - 1).value.0 == qs[1..]
  {
    var tail := QuestionsAt(data, next, |qs| - 1).value.0;
    if [qs[0]] + tail == qs { assert ([qs[0]] + tail)[1..] == tail; }
  }

  /** The header's fields fit, it counts the questions and no records, and every question is well formed. */
  predicate WellFormedQuery(m: Query) {
    && HeaderInRange(m.header) && NoRecords(m.header)
    && m.header.qdcount as nat == |m.questions|
    && QuestionsWellFormed(m.questions)
  }

  lemma {:induction false} QuestionsCount(data: Bytes, at: nat, n: nat)
    ensures QuestionsAt(data, at, n).Ok? ==> |QuestionsAt(data, at, n).value.0| == n
    decreases n
  {
    if n > 0 && QuestionAt(data, at).Ok? { QuestionsCount(data, QuestionAt(data, at).value.1, n - 1); }
  }

  lemma QueryHeaderIs(data: Bytes, at: nat)
    ensures QueryAt(data, at).Ok? ==> HeaderAt(data, at) == Ok(QueryAt(data, at).value.0.header)
  {
  }

  /** A packed query unpacks to itself exactly when it is well formed, and then its bytes are consumed to the last. */
  lemma QueryRoundTripIff(data: Bytes, at: nat, m: Query)
    requires m.header.qdcount as nat <= |m.questions| && Holds(data, at, PackQuery(m))
    ensures QueryAt(data, at).Ok? && QueryAt(data, at).value.0 == m <==> WellFormedQuery(m)
    ensures WellFormedQuery(m) ==> QueryAt(data, at) == Ok((m, at + |PackQuery(m)|))
  {
    QueryRoundTrip(data, at, m, at + |PackQuery(m)|, QueryAt(data, at));
  }

  lemma QueryRoundTrip(data: Bytes, at: nat, m: Query, end: nat, r: Result<(Query, nat), Failure>)
    requires m.header.qdcount as nat <= |m.questions| && Holds(data, at, PackQuery(m))
    requires end == at + |PackQuery(m)| && r == QueryAt(data, at)
    ensures QuerySurvives(m, r, end)
  {
    var qs := QueryPacked(data, at, m);
    QueryHead(data, at, m.header, r);
    if HeaderInRange(m.header) { BodyRoundTripIff(data, at + 12, m, qs, end); }
  }

  /** A header that fits is read back, and then the body; any other message comes back with another header. */
  lemma QueryHead(data: Bytes, at: nat, h: Header, r: Result<(Query, nat), Failure>)
    requires Holds(data, at, PackHeader(h)) && r == QueryAt(data, at)
    ensures HeaderInRange(h) ==> r == BodyAt(data, at + 12, h)
    ensures !HeaderInRange(h) && r.Ok? ==> r.value.0.header != h
  {
    HeaderRoundTripIff(data, at, h);
    if HeaderInRange(h) { QueryBodyIs(data, at, h); } else { QueryHeaderIs(data, at); }
  }

  /** What unpacking a query gives, compared with the one that was packed. */
  predicate QuerySurvives(m: Query, r: Result<(Query, nat), Failure>, end: nat) {
    && (r.Ok? && r.value.0 == m <==> WellFormedQuery(m))
    && (WellFormedQuery(m) ==> r == Ok((m, end)))
  }

  lemma QueryBodyIs(data: Bytes, at: nat, h: Header)
    requires HeaderAt(data, at) == Ok(h)
    ensures QueryAt(data, at) == BodyAt(data, at + 12, h)
  {
  }

  /** The questions that a packed query holds, behind its header. */
  lemma QueryPacked(data: Bytes, at: nat, m: Query) returns (qs: seq<Question>)
    requires m.header.qdcount as nat <= |m.questions| && Holds(data, at, PackQuery(m))
    ensures Holds(data, at, PackHeader(m.header)) && Holds(data, at + 12, PackQuestions(qs))
    ensures at + |PackQuery(m)| == at + 12 + |PackQuestions(qs)|
    ensures qs <= m.questions && |qs| == m.header.qdcount as nat
  {
    qs := m.questions[..m.header.qdcount as nat];
    HoldsParts(data, at, PackHeader(m.header), PackQuestions(qs));
  }

  lemma BodyRoundTripIff(data: Bytes, at: nat, m: Query, qs: seq<Question>, end: nat)
    requires HeaderInRange(m.header) && |qs| == m.header.qdcount as nat && qs <= m.questions
    requires Holds(data, at, PackQuestions(qs)) && end == at + |PackQuestions(qs)|
    ensures QuerySurvives(m, BodyAt(data, at, m.header), end)
  {
    QuestionsRoundTripIff(data, at, qs, end);
    QuestionsCount(data, at, |qs|);
    BodyDecides(m, qs, QuestionsAt(data, at, |qs|), BodyAt(data, at, m.header), end);
  }

  /** The same on the values that unpacking the questions and the body gave. */
  lemma BodyDecides(m: Query, qs: seq<Question>, r: Result<(seq<Question>, nat), Failure>, b: Result<(Query, nat), Failure>, end: nat)
    requires HeaderInRange(m.header) && |qs| == m.header.qdcount as nat && qs <= m.questions
    requires r.Ok? ==> |r.value.0| == |qs|
    requires r.Ok? && r.value.0 == qs <==> QuestionsWellFormed(qs)
    requires QuestionsWellFormed(qs) ==> r == Ok((qs, end))
    requires b == (match r
                   case Err(e) => Err(e)
                   case Ok((q, last)) => if NoRecords(m.header) then Ok((Query(m.header, q), last)) else Err(HasRecords))
    ensures QuerySurvives(m, b, end)
  {
    if |qs| == |m.questions| { assert qs == m.questions; }
  }
}

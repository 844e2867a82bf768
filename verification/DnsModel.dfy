/** The wire form of names, headers and queries (RFC 1035 sections 4.1.1, 4.1.2 and 4.1.4) as functions on the stream's bytes. */
module DnsModel {
  import opened Wrappers

  type Bytes = seq<bv8>
  type Label = seq<bv8>

  /** Overrun is a read beyond the bytes, which the source does not check; Endless is a loop that never ends. */
  datatype Failure = Overrun | Endless | HasRecords

  // ----- Integers, most significant byte first -----

  function Get16(data: Bytes, at: nat): Result<bv16, Failure> {
    if at + 2 <= |data| then Ok(((data[at] as bv16) << 8) | (data[at + 1] as bv16)) else Err(Overrun)
  }

  function Put16(v: bv16): (r: Bytes)
    ensures |r| == 2
  {
    [(v >> 8) as bv8, (v & 0xFF) as bv8]
  }

  function DoubledWord(b: bv16, odd: bool): bv16 {
    if odd then (b << 1) | 1 else b << 1
  }

  function DoubledByte(b: bv8, odd: bool): bv8 {
    if odd then (b << 1) | 1 else b << 1
  }

  /** The low sixteen bits of a number. */
  function WordOf(n: nat): bv16 {
    if n == 0 then 0 else DoubledWord(WordOf(n / 2), n % 2 == 1)
  }

  /** The low eight bits of a number. */
  function ByteOf(n: nat): bv8 {
    if n == 0 then 0 else DoubledByte(ByteOf(n / 2), n % 2 == 1)
  }

  /** A cast to std::uint16_t. */
  function ToU16(x: int): bv16 {
    WordOf(x % 0x1_0000)
  }

  // ----- Names -----

  /** What stands at one place of a name. */
  datatype Piece =
    | End(next: nat)
    | Text(part: Label, next: nat)
    | Pointer(target: nat, next: nat)
    | Cut

  /**
   * The unpack loop's test of the size byte: both top bits set is a pointer, and any
   * other nonzero size up to 191 is a label length.
   */
  function PieceAt(data: Bytes, at: nat): (p: Piece)
    ensures p.Text? ==> p.part != [] && at < p.next <= |data|
    ensures p.Pointer? || p.End? ==> at < p.next <= |data|
  {
    if at >= |data| then Cut
    else if data[at] == 0 then End(at + 1)
    else
      var size := data[at] as bv16;
      if size & 0xC0 == 0xC0 then
        if at + 1 >= |data| then Cut
        else Pointer((((size & 0x3F) << 8) | (data[at + 1] as bv16)) as nat, at + 2)
      else if at + 1 + size as nat > |data| then Cut
      else Text(data[at + 1..at + 1 + size as nat], at + 1 + size as nat)
  }

  /** The labels a name stands for, following at most fuel labels and pointers. */
  function Expand(data: Bytes, at: nat, fuel: nat): Result<seq<Label>, Failure>
    decreases fuel
  {
    match PieceAt(data, at)
    case Cut => Err(Overrun)
    case End(_) => Ok([[]])
    case Text(part, next) =>
      if fuel == 0 then Err(Endless)
      else
        (match Expand(data, next, fuel - 1)
         case Err(e) => Err(e)
         case Ok(ls) => Ok([part] + ls))
    case Pointer(target, _) =>
      if fuel == 0 then Err(Endless) else Expand(data, target, fuel - 1)
  }

  /** Where reading goes on after a name: past its zero byte or its first pointer. */
  function AfterName(data: Bytes, at: nat): nat
    decreases |data| - at
  {
    match PieceAt(data, at)
    case Cut => at
    case End(next) => next
    case Pointer(_, next) => next
    case Text(_, next) => AfterName(data, next)
  }

  /** The name at a place and the place after it; a loop through every byte twice never ends. */
  function NameAt(data: Bytes, at: nat): Result<(seq<Label>, nat), Failure> {
    match Expand(data, at, |data| + 1)
    case Err(e) => Err(e)
    case Ok(ls) => Ok((ls, AfterName(data, at)))
  }

  /** Domain::pack: nothing after the first empty label, and at most 63 bytes of each. */
  function PackName(labels: seq<Label>): Bytes {
    if labels == [] then []
    else if labels[0] == [] then [0]
    else PackLabel(Clipped(labels[0])) + PackName(labels[1..])
  }

  function PackLabel(part: Label): Bytes
    requires |part| <= 63
  {
    [ByteOf(|part|)] + part
  }

  function Clipped(part: Label): (r: Label)
    ensures |r| <= 63
  {
    if |part| > 63 then part[..63] else part
  }

  // ----- Header -----

  type Int8 = x: int | -0x80 <= x < 0x80
  type Int32 = x: int | -0x8000_0000 <= x < 0x8000_0000

  /** opcode and rcode are enums over int, z is a std::int8_t. */
  datatype Header = Header(
    id: bv16, qr: bool, opcode: Int32, aa: bool, tc: bool, rd: bool, ra: bool, z: Int8, rcode: Int32,
    qdcount: bv16, ancount: bv16, nscount: bv16, arcount: bv16)

  function Bit(b: bool): bv16 {
    if b then 1 else 0
  }

  /** The flag word of MessageHeader::pack. */
  function Flags(h: Header): bv16 {
    (Bit(h.qr) << 15) | (ToU16(h.opcode) << 11) | (Bit(h.aa) << 10) | (Bit(h.tc) << 9) | (Bit(h.rd) << 8)
    | (Bit(h.ra) << 7) | (ToU16(h.z) << 4) | ToU16(h.rcode)
  }

  function PackHeader(h: Header): (r: Bytes)
    ensures |r| == 12
  {
    Put16(h.id) + Put16(Flags(h)) + Put16(h.qdcount) + Put16(h.ancount) + Put16(h.nscount) + Put16(h.arcount)
  }

  /** MessageHeader::unpack on the six words it reads. */
  function HeaderOf(id: bv16, b2: bv16, qd: bv16, an: bv16, ns: bv16, ar: bv16): Header {
    Header(id, (b2 >> 15) & 0x1 == 1, Small(b2 >> 11), (b2 >> 10) & 0x1 == 1, (b2 >> 9) & 0x1 == 1, (b2 >> 8) & 0x1 == 1,
           (b2 >> 7) & 0x1 == 1, Low3(b2 >> 4), Small(b2), qd, an, ns, ar)
  }

  function Small(b: bv16): (r: Int32)
    ensures 0 <= r < 16
  {
    var low := b & 0xF;
    assert low < 16;
    low as int
  }

  function Low3(b: bv16): (r: Int8)
    ensures 0 <= r < 8
  {
    var low := b & 0x7;
    assert low < 8;
    low as int
  }

  function HeaderAt(data: Bytes, at: nat): Result<Header, Failure> {
    if at + 12 > |data| then Err(Overrun)
    else
      Ok(HeaderOf(Get16(data, at).value, Get16(data, at + 2).value, Get16(data, at + 4).value,
                  Get16(data, at + 6).value, Get16(data, at + 8).value, Get16(data, at + 10).value))
  }

  // ----- Questions and queries -----

  /** The enums of type and class are over int. */
  datatype Question = Question(qname: seq<Label>, qtype: Int32, qclass: Int32)

  datatype Query = Query(header: Header, questions: seq<Question>)

  function PackQuestion(q: Question): Bytes {
    PackName(q.qname) + (Put16(ToU16(q.qtype)) + Put16(ToU16(q.qclass)))
  }

  function QuestionAt(data: Bytes, at: nat): Result<(Question, nat), Failure> {
    match NameAt(data, at)
    case Err(e) => Err(e)
    case Ok((ls, next)) =>
      if next + 4 > |data| then Err(Overrun)
      else Ok((Question(ls, Get16(data, next).value as int, Get16(data, next + 2).value as int), next + 4))
  }

  function PackQuestions(qs: seq<Question>): Bytes {
    if qs == [] then [] else PackQuestion(qs[0]) + PackQuestions(qs[1..])
  }

  function QuestionsAt(data: Bytes, at: nat, n: nat): Result<(seq<Question>, nat), Failure>
    decreases n
  {
    if n == 0 then Ok(([], at))
    else
      match QuestionAt(data, at)
      case Err(e) => Err(e)
      case Ok((q, next)) =>
        match QuestionsAt(data, next, n - 1)
        case Err(e) => Err(e)
        case Ok((qs, last)) => Ok(([q] + qs, last))
  }

  predicate NoRecords(h: Header) {
    h.ancount == 0 && h.nscount == 0 && h.arcount == 0
  }

  /** Message::pack writes as many questions as the header counts. */
  function PackQuery(m: Query): Bytes
    requires m.header.qdcount as nat <= |m.questions|
  {
    PackHeader(m.header) + PackQuestions(m.questions[..m.header.qdcount as nat])
  }

  /** Message::unpack of a message without resource records. */
  function QueryAt(data: Bytes, at: nat): Result<(Query, nat), Failure> {
    match HeaderAt(data, at)
    case Err(e) => Err(e)
    case Ok(h) => BodyAt(data, at + 12, h)
  }

  function BodyAt(data: Bytes, at: nat, h: Header): Result<(Query, nat), Failure> {
    match QuestionsAt(data, at, h.qdcount as nat)
    case Err(e) => Err(e)
    case Ok((qs, last)) => if NoRecords(h) then Ok((Query(h, qs), last)) else Err(HasRecords)
  }
}

/** When unpacking a name ends. */
module DnsTermination {
  import opened Wrappers
  import opened DnsModel

  function Next(data: Bytes, at: nat): Option<nat> {
    match PieceAt(data, at)
    case Text(_, next) => Some(next)
    case Pointer(target, _) => Some(target)
    case _ => None
  }

  /** Where the loop stands after n turns, unless it has ended. */
  function Turns(data: Bytes, at: nat, n: nat): Option<nat>
    decreases n
  {
    if n == 0 then Some(at)
    else match Next(data, at) case None => None case Some(next) => Turns(data, next, n - 1)
  }

  /** The loop of Domain::unpack ends. */
  ghost predicate Ends(data: Bytes, at: nat) {
    exists n: nat :: Turns(data, at, n).None?
  }

  lemma {:induction false} TurnsAdd(data: Bytes, at: nat, m: nat, n: nat)
    requires Turns(data, at, m).Some?
    ensures Turns(data, at, m + n) == Turns(data, Turns(data, at, m).value, n)
    decreases m
  {
    if m > 0 { TurnsAdd(data, Next(data, at).value, m - 1, n); }
  }

  lemma TurnsChain(data: Bytes, at: nat, m: nat, mid: nat, n: nat, total: nat)
    requires Turns(data, at, m) == Some(mid) && total == m + n
    ensures Turns(data, at, total) == Turns(data, mid, n)
  {
    TurnsAdd(data, at, m, n);
  }

  lemma {:induction false} OnceEndedStays(data: Bytes, at: nat, m: nat, n: nat)
    requires Turns(data, at, m).None? && m <= n
    ensures Turns(data, at, n).None?
    decreases m
  {
    if m > 0 && Next(data, at).Some? { OnceEndedStays(data, Next(data, at).value, m - 1, n - 1); }
  }

  /** A fuelled expansion gives up exactly when the loop is still going after that many turns. */
  lemma {:induction false} EndlessIffStillGoing(data: Bytes, at: nat, fuel: nat)
    ensures Expand(data, at, fuel) == Err(Endless) <==> Turns(data, at, fuel + 1).Some?
    decreases fuel
  {
    match PieceAt(data, at)
    case Text(_, next) =>
      if fuel > 0 { EndlessIffStillGoing(data, next, fuel - 1); } else { assert Turns(data, next, 0).Some?; }
    case Pointer(target, _) =>
      if fuel > 0 { EndlessIffStillGoing(data, target, fuel - 1); } else { assert Turns(data, target, 0).Some?; }
    case _ =>
  }

  /** A loop that comes back to where it was goes on for ever. */
  lemma {:induction false} CycleNeverEnds(data: Bytes, at: nat, period: nat, n: nat)
    requires period > 0 && Turns(data, at, period) == Some(at)
    ensures Turns(data, at, n).Some?
    decreases n
  {
    if n <= period {
      if Turns(data, at, n).None? { OnceEndedStays(data, at, n, period); }
    } else {
      CycleNeverEnds(data, at, period, n - period);
      TurnsAdd(data, at, period, n - period);
    }
  }

  function Below(n: nat): (r: set<nat>)
    ensures |r| == n && forall x: nat :: x in r <==> x < n
  {
    if n == 0 then {} else Below(n - 1) + {n - 1}
  }

  function Elems(s: seq<nat>): (r: set<nat>)
    ensures forall x :: x in r <==> x in s
  {
    if s == [] then {} else Elems(s[1..]) + {s[0]}
  }

  lemma {:induction false} CardinalityMono(a: set<nat>, b: set<nat>)
    requires a <= b
    ensures |a| <= |b|
  {
    if a != {} {
      var x :| x in a;
      CardinalityMono(a - {x}, b - {x});
    }
  }

  /** Among more than n numbers below n two are equal. */
  lemma {:induction false} Pigeonhole(s: seq<nat>, n: nat) returns (i: nat, j: nat)
    requires |s| > n && forall k :: 0 <= k < |s| ==> s[k] < n
    ensures i < j < |s| && s[i] == s[j]
  {
    if forall i, j :: 0 <= i < j < |s| ==> s[i] != s[j] {
      DistinctCount(s);
      CardinalityMono(Elems(s), Below(n));
      assert false;
    }
    i, j :| 0 <= i < j < |s| && s[i] == s[j];
  }

  lemma {:induction false} DistinctCount(s: seq<nat>)
    requires forall i, j :: 0 <= i < j < |s| ==> s[i] != s[j]
    ensures |Elems(s)| == |s|
  {
    if s != [] {
      DistinctCount(s[1..]);
      assert s[0] !in Elems(s[1..]);
    }
  }

  /** Where the loop stood before each of its first n turns. */
  function Visited(data: Bytes, at: nat, n: nat): (r: seq<nat>)
    requires Turns(data, at, n).Some?
    ensures |r| == n
    decreases n
  {
    if n == 0 then [] else [at] + Visited(data, Next(data, at).value, n - 1)
  }

  lemma {:induction false} VisitedAt(data: Bytes, at: nat, n: nat, k: nat)
    requires Turns(data, at, n).Some? && k < n
    ensures Turns(data, at, k) == Some(Visited(data, at, n)[k])
    decreases n
  {
    if k > 0 { VisitedAt(data, Next(data, at).value, n - 1, k - 1); }
  }

  /** Where a still going loop stood is inside the data. */
  lemma GoingMeansInside(data: Bytes, at: nat, k: nat, n: nat)
    requires k < n && Turns(data, at, n).Some?
    ensures Turns(data, at, k).Some? && Turns(data, at, k).value < |data|
  {
    if Turns(data, at, k).None? { OnceEndedStays(data, at, k, n); }
    TurnsAdd(data, at, k, n - k);
  }

  lemma StillGoingForEver(data: Bytes, at: nat, i: nat, j: nat, m: nat)
    requires i < j && Turns(data, at, i).Some? && Turns(data, at, j) == Turns(data, at, i)
    ensures Turns(data, at, m).Some?
  {
    if m <= i {
      if Turns(data, at, m).None? { OnceEndedStays(data, at, m, i); }
    } else {
      var place := Turns(data, at, i).value;
      TurnsChain(data, at, i, place, j - i, j);
      CycleNeverEnds(data, place, j - i, m - i);
      TurnsChain(data, at, i, place, m - i, m);
    }
  }

  /** A loop that goes on for more turns than there are bytes has been somewhere twice. */
  lemma SomewhereTwice(data: Bytes, at: nat) returns (i: nat, j: nat)
    requires Turns(data, at, |data| + 1).Some?
    ensures i < j && Turns(data, at, i).Some? && Turns(data, at, j) == Turns(data, at, i)
  {
    var n := |data| + 1;
    var places := Visited(data, at, n);
    forall k | 0 <= k < n ensures places[k] < |data| {
      GoingMeansInside(data, at, k, n);
      VisitedAt(data, at, n, k);
    }
    i, j := Pigeonhole(places, |data|);
    VisitedAt(data, at, n, i);
    VisitedAt(data, at, n, j);
  }

  /** The loop ends if and only if it ends within as many turns as there are bytes, and one. */
  lemma EndsIffWithinLength(data: Bytes, at: nat)
    ensures Ends(data, at) <==> Turns(data, at, |data| + 1).None?
    ensures Ends(data, at) <==> NameAt(data, at) != Err(Endless)
  {
    EndlessIffStillGoing(data, at, |data| + 1);
    if Turns(data, at, |data| + 1).Some? {
      var i, j := SomewhereTwice(data, at);
      forall m: nat ensures Turns(data, at, m).Some? {
        StillGoingForEver(data, at, i, j, m);
      }
    } else {
      OnceEndedStays(data, at, |data| + 1, |data| + 2);
    }
  }

  /** The expansion does not depend on how much fuel it is given, once it is enough. */
  lemma {:induction false} EnoughFuel(data: Bytes, at: nat, fuel: nat, more: nat)
    requires Expand(data, at, fuel) != Err(Endless) && fuel <= more
    ensures Expand(data, at, more) == Expand(data, at, fuel)
    decreases fuel
  {
    match PieceAt(data, at)
    case Text(_, next) => EnoughFuel(data, next, fuel - 1, more - 1);
    case Pointer(target, _) => EnoughFuel(data, target, fuel - 1, more - 1);
    case _ =>
  }

  // ----- Pointers to what stands before -----

  /** The target of the pointer that closes the run of labels at a place. */
  function PointerOf(data: Bytes, at: nat): Option<nat>
    decreases |data| - at
  {
    match PieceAt(data, at)
    case Text(_, next) => PointerOf(data, next)
    case Pointer(target, _) => Some(target)
    case _ => None
  }

  /** The place where the n-th fragment of a name starts. */
  function FragmentStart(data: Bytes, at: nat, n: nat): Option<nat>
    decreases n
  {
    if n == 0 then Some(at)
    else match PointerOf(data, at) case None => None case Some(target) => FragmentStart(data, target, n - 1)
  }

  /** Each pointer met targets a place before the fragment it stands in. */
  ghost predicate PriorPointers(data: Bytes, at: nat) {
    forall n: nat, s, t ::
      FragmentStart(data, at, n) == Some(s) && FragmentStart(data, at, n + 1) == Some(t) ==> t < s
  }

  lemma {:induction false} FragmentLater(data: Bytes, at: nat, n: nat)
    requires PointerOf(data, at).Some?
    ensures FragmentStart(data, at, n + 1) == FragmentStart(data, PointerOf(data, at).value, n)
  {
  }

  /** One run of labels takes the loop to its zero byte, its pointer or the end of the data. */
  lemma {:induction false} LabelsEnd(data: Bytes, at: nat) returns (n: nat)
    ensures n > 0
    ensures PointerOf(data, at).None? ==> Turns(data, at, n).None?
    ensures PointerOf(data, at).Some? ==> Turns(data, at, n) == Some(PointerOf(data, at).value)
    decreases |data| - at
  {
    match PieceAt(data, at)
    case Text(_, next) => var m := LabelsEnd(data, next); n := m + 1;
    case Pointer(target, _) => n := 1; assert Turns(data, target, 0) == Some(target);
    case _ => n := 1;
  }

  /** On a name whose pointers all go back to before their own fragment, unpack ends. */
  lemma {:induction false} PriorPointersEnd(data: Bytes, at: nat)
    requires PriorPointers(data, at)
    ensures Ends(data, at)
    decreases at
  {
    var n := LabelsEnd(data, at);
    if PointerOf(data, at).Some? {
      var target := PointerOf(data, at).value;
      assert FragmentStart(data, at, 0) == Some(at);
      FragmentLater(data, at, 0);
      assert FragmentStart(data, at, 1) == Some(target);
      forall k: nat, s, t | FragmentStart(data, target, k) == Some(s) && FragmentStart(data, target, k + 1) == Some(t)
        ensures t < s
      {
        FragmentLater(data, at, k);
        FragmentLater(data, at, k + 1);
      }
      PriorPointersEnd(data, target);
      var m: nat :| Turns(data, target, m).None?;
      TurnsAdd(data, at, n, m);
    }
  }

  /** No fragment of the name starts where an earlier one did. */
  ghost predicate FragmentsDiffer(data: Bytes, at: nat) {
    forall i: nat, j: nat :: i < j && FragmentStart(data, at, j).Some? ==> FragmentStart(data, at, i) != FragmentStart(data, at, j)
  }

  lemma {:induction false} FragmentAdd(data: Bytes, at: nat, m: nat, n: nat)
    requires FragmentStart(data, at, m).Some?
    ensures FragmentStart(data, at, m + n) == FragmentStart(data, FragmentStart(data, at, m).value, n)
    decreases m
  {
    if m > 0 { FragmentAdd(data, PointerOf(data, at).value, m - 1, n); }
  }

  /** The loop gets to the start of each fragment, and to that of a later one only in later turns. */
  lemma {:induction false} FragmentTurns(data: Bytes, at: nat, n: nat) returns (k: nat)
    requires FragmentStart(data, at, n).Some?
    ensures k >= n && Turns(data, at, k) == FragmentStart(data, at, n)
    decreases n
  {
    if n == 0 {
      k := 0;
    } else {
      var m := LabelsEnd(data, at);
      var rest := FragmentTurns(data, PointerOf(data, at).value, n - 1);
      TurnsAdd(data, at, m, rest);
      k := m + rest;
    }
  }

  /** A fragment that starts where an earlier one did is come to twice. */
  lemma FragmentTwice(data: Bytes, at: nat, i: nat, j: nat) returns (first: nat, second: nat)
    requires i < j && FragmentStart(data, at, j).Some? && FragmentStart(data, at, i) == FragmentStart(data, at, j)
    ensures first < second && Turns(data, at, first).Some? && Turns(data, at, second) == Turns(data, at, first)
  {
    var s := FragmentStart(data, at, i).value;
    FragmentAgain(data, at, i, j, s, j - i);
    first := FragmentTurns(data, at, i);
    var period := FragmentTurns(data, s, j - i);
    second := first + period;
    TurnsChain(data, at, first, s, period, second);
  }

  lemma FragmentAgain(data: Bytes, at: nat, i: nat, j: nat, s: nat, d: nat)
    requires FragmentStart(data, at, i) == Some(s) && j == i + d
    ensures FragmentStart(data, at, j) == FragmentStart(data, s, d)
  {
    FragmentAdd(data, at, i, d);
  }

  /** And so keeps the loop going for ever. */
  lemma FragmentTwiceNeverEnds(data: Bytes, at: nat, i: nat, j: nat)
    requires i < j && FragmentStart(data, at, j).Some? && FragmentStart(data, at, i) == FragmentStart(data, at, j)
    ensures !Ends(data, at)
  {
    var first, second := FragmentTwice(data, at, i, j);
    forall m: nat ensures Turns(data, at, m).Some? {
      StillGoingForEver(data, at, first, second, m);
    }
  }

  /** A loop that never ends starts a new fragment again and again. */
  lemma {:induction false} EndlessFragments(data: Bytes, at: nat, n: nat)
    requires !Ends(data, at)
    ensures FragmentStart(data, at, n).Some?
    decreases n
  {
    if n > 0 {
      var m := LabelsEnd(data, at);
      assert PointerOf(data, at).Some?;
      var target := PointerOf(data, at).value;
      forall k: nat ensures Turns(data, target, k).Some? {
        TurnsAdd(data, at, m, k);
      }
      EndlessFragments(data, target, n - 1);
    }
  }

  /** Where the first n fragments start. */
  function Fragments(data: Bytes, at: nat, n: nat): (r: seq<nat>)
    requires FragmentStart(data, at, n).Some?
    ensures |r| == n
    decreases n
  {
    if n == 0 then [] else [at] + Fragments(data, PointerOf(data, at).value, n - 1)
  }

  lemma {:induction false} FragmentsAt(data: Bytes, at: nat, n: nat, k: nat)
    requires FragmentStart(data, at, n).Some? && k < n
    ensures FragmentStart(data, at, k) == Some(Fragments(data, at, n)[k]) && Fragments(data, at, n)[k] < |data|
    decreases n
  {
    if k > 0 { FragmentsAt(data, PointerOf(data, at).value, n - 1, k - 1); }
  }

  /** unpack ends if and only if no fragment of the name starts where an earlier one did. */
  lemma EndsIffFragmentsDiffer(data: Bytes, at: nat)
    ensures Ends(data, at) <==> FragmentsDiffer(data, at)
  {
    if Ends(data, at) {
      forall i: nat, j: nat | i < j && FragmentStart(data, at, j).Some?
        ensures FragmentStart(data, at, i) != FragmentStart(data, at, j)
      {
        if FragmentStart(data, at, i) == FragmentStart(data, at, j) { FragmentTwiceNeverEnds(data, at, i, j); }
      }
    } else {
      var n := |data| + 1;
      EndlessFragments(data, at, n);
      forall k | 0 <= k < n ensures Fragments(data, at, n)[k] < |data| {
        FragmentsAt(data, at, n, k);
      }
      var i, j := Pigeonhole(Fragments(data, at, n), |data|);
      FragmentsAt(data, at, n, i);
      FragmentsAt(data, at, n, j);
      assert FragmentStart(data, at, i) == FragmentStart(data, at, j);
    }
  }

  /** The fragments of each of the n names of the questions from a place on differ. */
  ghost predicate NamesEnd(data: Bytes, at: nat, n: nat)
    decreases n
  {
    n == 0 || (FragmentsDiffer(data, at)
               && (QuestionAt(data, at).Ok? ==> NamesEnd(data, QuestionAt(data, at).value.1, n - 1)))
  }

  lemma QuestionEndsIff(data: Bytes, at: nat)
    ensures QuestionAt(data, at) == Err(Endless) <==> !FragmentsDiffer(data, at)
  {
    EndsIffFragmentsDiffer(data, at);
    EndsIffWithinLength(data, at);
  }

  /** Unpacking n questions goes on for ever exactly when a name that it comes to has a fragment that starts where an earlier one did. */
  lemma {:induction false} QuestionsEndIff(data: Bytes, at: nat, n: nat)
    ensures QuestionsAt(data, at, n) == Err(Endless) <==> !NamesEnd(data, at, n)
    decreases n
  {
    if n > 0 {
      QuestionEndsIff(data, at);
      if QuestionAt(data, at).Ok? { QuestionsEndIff(data, QuestionAt(data, at).value.1, n - 1); }
    }
  }

  lemma QueryEndsIff(data: Bytes, at: nat)
    ensures QueryAt(data, at) == Err(Endless) <==>
            HeaderAt(data, at).Ok? && !NamesEnd(data, at + 12, HeaderAt(data, at).value.qdcount as nat)
  {
    if HeaderAt(data, at).Ok? { QuestionsEndIff(data, at + 12, HeaderAt(data, at).value.qdcount as nat); }
  }

  /** A pointer to itself keeps unpack going for ever. */
  lemma SelfPointerNeverEnds()
    ensures !Ends([0xC0, 0x00], 0)
  {
    var data: Bytes := [0xC0, 0x00];
    assert Turns(data, 0, 1) == Some(0) by { assert PieceAt(data, 0) == Pointer(0, 2); assert Turns(data, 0, 0) == Some(0); }
    forall n: nat ensures Turns(data, 0, n).Some? {
      CycleNeverEnds(data, 0, 1, n);
    }
  }
}

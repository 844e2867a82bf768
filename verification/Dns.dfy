/** MemoryStream and the pack and unpack methods over it, against the functions of DnsModel. */
module Dns {
  import opened Wrappers
  import opened DnsModel
  import opened DnsTermination

  class MemoryStream {
    /** The bytes in order; the source keeps them in a ring. */
    var data: Bytes
    var head: nat

    constructor ()
      ensures data == [] && head == 0
    {
      data, head := [], 0;
    }

    method GetUint8() returns (r: Result<bv8, Failure>)
      modifies this`head
      ensures old(head) < |data| ==> r == Ok(data[old(head)]) && head == old(head) + 1
      ensures old(head) >= |data| ==> r == Err(Overrun) && head == old(head)
    {
      if head >= |data| { return Err(Overrun); }
      head := head + 1;
      return Ok(data[head - 1]);
    }

    method GetUint16() returns (r: Result<bv16, Failure>)
      modifies this`head
      ensures r == Get16(data, old(head))
      ensures r.Ok? ==> head == old(head) + 2
    {
      var high := GetUint8();
      if high.Err? { return Err(high.error); }
      var low := GetUint8();
      if low.Err? { return Err(low.error); }
      return Ok(((high.value as bv16) << 8) | (low.value as bv16));
    }

    method WriteUint8(value: bv8)
      modifies this`data
      ensures data == old(data) + [value]
    {
      data := data + [value];
    }

    method WriteUint16(value: bv16)
      modifies this`data
      ensures data == old(data) + Put16(value)
    {
      data := data + [(value >> 8) as bv8];
      data := data + [(value & 0xFF) as bv8];
    }

    // ----- Domain -----

    method PackDomain(labels: seq<Label>)
      modifies this`data
      ensures data == old(data) + PackName(labels)
    {
      var i := 0;
      ghost var done: Bytes := [];
      while i < |labels|
        invariant 0 <= i <= |labels|
        invariant data == old(data) + done && PackName(labels) == done + PackName(labels[i..])
      {
        if labels[i] == [] {
          data := data + [0];
          assert data == old(data) + (done + [0]);
          return;
        }
        PackNext(labels, i, done);
        ghost var before := data;
        WriteLabel(labels[i]);
        Regroup(before, old(data), done, PackLabel(Clipped(labels[i])));
        done := done + PackLabel(Clipped(labels[i]));
        i := i + 1;
      }
    }

    /** One label, cut to 63 bytes. */
    method WriteLabel(whole: Label)
      modifies this`data
      ensures data == old(data) + PackLabel(Clipped(whole))
    {
      var part := whole;
      if |part| > 63 { part := part[..63]; }
      var size := ByteOf(|part|);
      data := data + [size];
      for k := 0 to |part|
        invariant data == old(data) + ([size] + part[..k])
      {
        data := data + [part[k]];
        assert [size] + part[..k + 1] == [size] + part[..k] + [part[k]];
      }
      assert part[..|part|] == part;
    }

    /** Called only where the loop ends, which EndsIffFragmentsDiffer says is where no fragment starts where an earlier one did. */
    method UnpackDomain() returns (r: Result<seq<Label>, Failure>)
      requires FragmentsDiffer(data, head)
      modifies this`head
      ensures match NameAt(data, old(head))
              case Err(e) => r == Err(e)
              case Ok((ls, next)) => r == Ok(ls) && head == next
    {
      EndsIffFragmentsDiffer(data, head);
      EndsIffWithinLength(data, head);
      var labels: seq<Label> := [];
      var inCompressed := false;
      var at: nat := head;
      ghost var fuel: nat := |data| + 1;
      ghost var whole := Expand(data, at, fuel);
      ContinuesFromNothing(whole);
      while true
        invariant fuel >= 0 && Continues(whole, labels, Expand(data, at, fuel))
        invariant if inCompressed then head == AfterName(data, old(head))
                  else head == old(head) && AfterName(data, at) == AfterName(data, old(head))
        decreases fuel
      {
        var piece := ReadPiece(at);
        match piece {
          case Cut => return Err(Overrun);
          case End(_) => break;
          case Pointer(target, next) =>
            PointerTurn(data, at, target, next, fuel, whole, labels);
            if !inCompressed { head := next; }
            inCompressed := true;
            at := target;
          case Text(part, next) =>
            TextTurn(data, at, part, next, fuel, whole, labels);
            at := next;
            labels := labels + [part];
        }
        fuel := fuel - 1;
      }
      if !inCompressed { head := at + 1; }
      return Ok(labels + [[]]);
    }

    /** One turn of the loop: the size byte and what belongs to it. */
    method ReadPiece(at: nat) returns (p: Piece)
      ensures p == PieceAt(data, at)
    {
      if at >= |data| { return Cut; }
      if data[at] == 0 { return End(at + 1); }
      var size := data[at] as bv16;
      if size & 0xC0 == 0xC0 {
        if at + 1 >= |data| { return Cut; }
        var sbyte := (data[at + 1] as bv16) & 0xFF;
        LowByte(data[at + 1], size);
        return Pointer(((((size & 0x3F) << 8) & 0xFF00) | sbyte) as nat, at + 2);
      }
      var part := CopyLabel(at + 1, size as nat);
      return if part.None? then Cut else Text(part.value, at + 1 + size as nat);
    }

    /** The bytes of a label, if they are all there. */
    method CopyLabel(start: nat, size: nat) returns (r: Option<Label>)
      requires start <= |data|
      ensures r == if start + size <= |data| then Some(data[start..start + size]) else None
    {
      var part: Label := [];
      for i := 0 to size
        invariant start + i <= |data| && part == data[start..start + i]
      {
        if start + i >= |data| { return None; }
        part := part + [data[start + i]];
      }
      return Some(part);
    }

    // ----- MessageHeader -----

    method FlagWord(h: Header) returns (b2: bv16)
      ensures b2 == Flags(h)
    {
      b2 := Bit(h.qr) << 15;
      b2 := b2 | (ToU16(h.opcode) << 11);
      b2 := b2 | (Bit(h.aa) << 10);
      b2 := b2 | (Bit(h.tc) << 9);
      b2 := b2 | (Bit(h.rd) << 8);
      b2 := b2 | (Bit(h.ra) << 7);
      b2 := b2 | (ToU16(h.z) << 4);
      b2 := b2 | ToU16(h.rcode);
    }

    method PackMessageHeader(h: Header)
      modifies this`data
      ensures data == old(data) + PackHeader(h)
    {
      WriteUint16(h.id);
      var b2 := FlagWord(h);
      WriteUint16(b2);
      WriteUint16(h.qdcount);
      WriteUint16(h.ancount);
      WriteUint16(h.nscount);
      WriteUint16(h.arcount);
      HeaderPieces(old(data), Put16(h.id), Put16(b2), Put16(h.qdcount), Put16(h.ancount), Put16(h.nscount), Put16(h.arcount));
    }

    method UnpackMessageHeader() returns (r: Result<Header, Failure>)
      modifies this`head
      ensures r == HeaderAt(data, old(head))
      ensures r.Ok? ==> head == old(head) + 12
    {
      var id := GetUint16();
      if id.Err? { return Err(id.error); }
      var b2 := GetUint16();
      if b2.Err? { return Err(b2.error); }
      var qd := GetUint16();
      if qd.Err? { return Err(qd.error); }
      var an := GetUint16();
      if an.Err? { return Err(an.error); }
      var ns := GetUint16();
      if ns.Err? { return Err(ns.error); }
      var ar := GetUint16();
      if ar.Err? { return Err(ar.error); }
      return Ok(HeaderOf(id.value, b2.value, qd.value, an.value, ns.value, ar.value));
    }

    // ----- MessageQuestion -----

    method PackMessageQuestion(q: Question)
      modifies this`data
      ensures data == old(data) + PackQuestion(q)
    {
      PackDomain(q.qname);
      WriteUint16(ToU16(q.qtype));
      WriteUint16(ToU16(q.qclass));
    }

    method UnpackMessageQuestion() returns (r: Result<Question, Failure>)
      requires FragmentsDiffer(data, head)
      modifies this`head
      ensures match QuestionAt(data, old(head))
              case Err(e) => r == Err(e)
              case Ok((q, next)) => r == Ok(q) && head == next
    {
      var qname := UnpackDomain();
      if qname.Err? { return Err(qname.error); }
      var t := GetUint16();
      if t.Err? { return Err(t.error); }
      var c := GetUint16();
      if c.Err? { return Err(c.error); }
      return Ok(Question(qname.value, t.value as int, c.value as int));
    }

    // ----- Message -----

    method PackMessage(m: Query)
      requires m.header.qdcount as nat <= |m.questions|
      modifies this`data
      ensures data == old(data) + PackQuery(m)
    {
      PackMessageHeader(m.header);
      var n := m.header.qdcount as nat;
      PackQuestionsTo(m.questions, n);
    }

    /** The loop over the questions that the header counts. */
    method PackQuestionsTo(questions: seq<Question>, n: nat)
      requires n <= |questions|
      modifies this`data
      ensures data == old(data) + PackQuestions(questions[..n])
    {
      ghost var done: Bytes := [];
      for i := 0 to n
        invariant data == old(data) + done && done == PackQuestions(questions[..i])
      {
        ghost var before := data;
        PackMessageQuestion(questions[i]);
        LastPacked(questions, i);
        Regroup(before, old(data), done, PackQuestion(questions[i]));
        done := done + PackQuestion(questions[i]);
      }
    }

    method UnpackMessage() returns (r: Result<Query, Failure>)
      requires HeaderAt(data, head).Ok? ==> NamesEnd(data, head + 12, HeaderAt(data, head).value.qdcount as nat)
      modifies this`head
      ensures match QueryAt(data, old(head))
              case Err(e) => r == Err(e)
              case Ok((m, next)) => r == Ok(m) && head == next
    {
      var h := UnpackMessageHeader();
      if h.Err? { return Err(h.error); }
      var questions := UnpackQuestions(h.value.qdcount as nat);
      if questions.Err? { return Err(questions.error); }
      if !NoRecords(h.value) { return Err(HasRecords); }
      return Ok(Query(h.value, questions.value));
    }

    /** The loop over the questions. */
    method UnpackQuestions(n: nat) returns (r: Result<seq<Question>, Failure>)
      requires NamesEnd(data, head, n)
      modifies this`head
      ensures match QuestionsAt(data, old(head), n)
              case Err(e) => r == Err(e)
              case Ok((qs, next)) => r == Ok(qs) && head == next
    {
      ghost var whole := QuestionsAt(data, head, n);
      var questions: seq<Question> := [];
      GatheredFromNothing(whole);
      for i := 0 to n
        invariant NamesEnd(data, head, n - i)
        invariant Gathered(whole, questions, QuestionsAt(data, head, n - i))
      {
        var q := UnpackMessageQuestion();
        if q.Err? { return Err(q.error); }
        ghost var rest := QuestionsAt(data, head, n - i - 1);
        if rest.Ok? { MovedQuestion(questions, q.value, rest.value.0); }
        questions := questions + [q.value];
      }
      assert questions + [] == questions;
      return Ok(questions);
    }
  }

  lemma LowByte(b: bv8, size: bv16)
    ensures (b as bv16) & 0xFF == b as bv16
    ensures ((size & 0x3F) << 8) & 0xFF00 == (size & 0x3F) << 8
  {
  }

  lemma PackNext(labels: seq<Label>, i: nat, done: Bytes)
    requires i < |labels| && labels[i] != []
    ensures done + PackName(labels[i..]) == (done + PackLabel(Clipped(labels[i]))) + PackName(labels[i + 1..])
  {
    assert labels[i..][0] == labels[i] && labels[i..][1..] == labels[i + 1..];
  }

  /** The whole expansion is the labels read so far and what is still to come. */
  predicate Continues(whole: Result<seq<Label>, Failure>, labels: seq<Label>, rest: Result<seq<Label>, Failure>) {
    match rest
    case Err(e) => whole == Err(e)
    case Ok(ls) => whole == Ok(labels + ls)
  }

  lemma ContinuesFromNothing(r: Result<seq<Label>, Failure>)
    ensures Continues(r, [], r)
  {
    if r.Ok? { assert [] + r.value == r.value; }
  }

  lemma PointerTurn(data: Bytes, at: nat, target: nat, next: nat, fuel: nat, whole: Result<seq<Label>, Failure>, labels: seq<Label>)
    requires PieceAt(data, at) == Pointer(target, next)
    requires whole != Err(Endless) && Continues(whole, labels, Expand(data, at, fuel))
    ensures fuel > 0 && Continues(whole, labels, Expand(data, target, fuel - 1))
    ensures AfterName(data, at) == next
  {
  }

  lemma TextTurn(data: Bytes, at: nat, part: Label, next: nat, fuel: nat, whole: Result<seq<Label>, Failure>, labels: seq<Label>)
    requires PieceAt(data, at) == Text(part, next)
    requires whole != Err(Endless) && Continues(whole, labels, Expand(data, at, fuel))
    ensures fuel > 0 && Continues(whole, labels + [part], Expand(data, next, fuel - 1))
    ensures AfterName(data, at) == AfterName(data, next)
  {
    if fuel > 0 && Expand(data, next, fuel - 1).Ok? { Moved(labels, part, Expand(data, next, fuel - 1).value); }
  }

  lemma Moved(labels: seq<Label>, part: Label, more: seq<Label>)
    ensures labels + ([part] + more) == (labels + [part]) + more
  {
  }

  lemma MovedQuestion(qs: seq<Question>, q: Question, more: seq<Question>)
    ensures qs + ([q] + more) == (qs + [q]) + more
  {
  }

  lemma GatheredFromNothing(r: Result<(seq<Question>, nat), Failure>)
    ensures Gathered(r, [], r)
  {
    if r.Ok? { assert [] + r.value.0 == r.value.0; }
  }

  lemma Regroup(before: Bytes, a: Bytes, b: Bytes, c: Bytes)
    requires before == a + b
    ensures before + c == a + (b + c)
  {
  }

  lemma HeaderPieces(s: Bytes, a: Bytes, b: Bytes, c: Bytes, d: Bytes, e: Bytes, f: Bytes)
    ensures s + a + b + c + d + e + f == s + (a + b + c + d + e + f)
  {
    Regroup(s + a, s, a, b);
    Regroup(s + (a + b), s, a + b, c);
    Regroup(s + (a + b + c), s, a + b + c, d);
    Regroup(s + (a + b + c + d), s, a + b + c + d, e);
    Regroup(s + (a + b + c + d + e), s, a + b + c + d + e, f);
  }

  lemma {:induction false} PackedAppend(qs: seq<Question>, q: Question)
    ensures PackQuestions(qs + [q]) == PackQuestions(qs) + PackQuestion(q)
  {
    if qs == [] {
      assert qs + [q] == [q] && PackQuestions([q][1..]) == [];
    } else {
      assert (qs + [q])[1..] == qs[1..] + [q];
      PackedAppend(qs[1..], q);
    }
  }

  lemma LastPacked(qs: seq<Question>, i: nat)
    requires i < |qs|
    ensures PackQuestions(qs[..i + 1]) == PackQuestions(qs[..i]) + PackQuestion(qs[i])
  {
    assert qs[..i + 1] == qs[..i] + [qs[i]];
    PackedAppend(qs[..i], qs[i]);
  }

  predicate Gathered(whole: Result<(seq<Question>, nat), Failure>, qs: seq<Question>, rest: Result<(seq<Question>, nat), Failure>) {
    match rest
    case Err(e) => whole == Err(e)
    case Ok((more, last)) => whole == Ok((qs + more, last))
  }
}

/** The parser undoes the printer, in compact form and at every indentation. */
module JsonRoundTrip {
  import opened Wrappers
  import opened JsonText

  /** A printed number is followed by nothing, a separator or a line break. */
  predicate Delimited(rest: string) {
    rest == "" || rest[0] in {',', ']', '}', '\n'}
  }

  /**
   * What the standard library promises: a finite double prints as a JSON number
   * without a leading zero, and reading the text up to a delimiter gives it back.
   */
  ghost predicate Faithful(fl: Floats) {
    forall x, rest ::
      fl.finite(x) && Delimited(rest) ==>
        && fl.show(x) != "" && (fl.show(x)[0] == '-' || IsDigit(fl.show(x)[0]))
        && !(fl.show(x)[0] == '0' && |fl.show(x)| > 1 && IsDigit(fl.show(x)[1]))
        && fl.scan(fl.show(x) + rest) == Some((x, |fl.show(x)|))
  }

  /** Object members have distinct keys in map order, at every level. */
  predicate WellFormed(v: Json)
    decreases v
  {
    match v
    case Object(ms) => SortedKeys(ms) && forall i :: 0 <= i < |ms| ==> WellFormed(ms[i].value)
    case Array(es) => forall i :: 0 <= i < |es| ==> WellFormed(es[i])
    case _ => true
  }

  predicate SortedKeys(ms: seq<Member>) {
    forall i, j :: 0 <= i < j < |ms| ==> KeyLess(ms[i].key, ms[j].key)
  }

  /** The value with every infinity and NaN replaced by null. */
  function Nulled(fl: Floats, v: Json): Json
    decreases v
  {
    match v
    case Object(ms) => Object(NulledMembers(fl, ms))
    case Array(es) => Array(NulledElements(fl, es))
    case Number(x) => if fl.finite(x) then v else Null
    case _ => v
  }

  function NulledMembers(fl: Floats, ms: seq<Member>): (r: seq<Member>)
    ensures |r| == |ms| && forall i :: 0 <= i < |ms| ==> r[i].key == ms[i].key
    decreases ms
  {
    if ms == [] then [] else [Member(ms[0].key, Nulled(fl, ms[0].value))] + NulledMembers(fl, ms[1..])
  }

  function NulledElements(fl: Floats, es: seq<Json>): seq<Json>
    decreases es
  {
    if es == [] then [] else [Nulled(fl, es[0])] + NulledElements(fl, es[1..])
  }

  // ----- Whitespace -----

  predicate AllWs(w: string) {
    forall i :: 0 <= i < |w| ==> IsWs(w[i])
  }

  lemma {:induction false} SkipWsOver(w: string, s: string)
    requires AllWs(w)
    ensures SkipWs(w + s) == SkipWs(s)
  {
    if w != "" {
      assert (w + s)[1..] == w[1..] + s;
      SkipWsOver(w[1..], s);
    } else {
      assert w + s == s;
    }
  }

  lemma SpacesAreWs(n: int)
    ensures AllWs(Spaces(n))
  {
  }

  lemma LeadIsWs(indentation: int, cur: int)
    ensures AllWs(NewLine(indentation)) && AllWs(Lead(indentation, cur)) && AllWs(NewLine(indentation) + Lead(indentation, cur))
  {
    SpacesAreWs(cur);
  }

  // ----- Strings -----

  lemma HexRead(c: char, rest: string)
    requires c as int < 0x20
    ensures var digits := "00" + [HexDigit(c as int / 16), HexDigit(c as int % 16)];
            HexDigits(digits + rest, 4, 0) == Ok(Parsed(c as int, rest))
  {
    var d2, d3 := HexDigit(c as int / 16), HexDigit(c as int % 16);
    var s := "00" + [d2, d3] + rest;
    assert s[1..] == ['0', d2, d3] + rest;
    assert s[1..][1..] == [d2, d3] + rest;
    assert s[1..][1..][1..] == [d3] + rest;
    assert s[1..][1..][1..][1..] == rest;
    assert HexDigits(rest, 0, c as int) == Ok(Parsed(c as int, rest));
    assert HexDigits([d3] + rest, 1, c as int / 16) == Ok(Parsed(c as int, rest));
    assert HexDigits([d2, d3] + rest, 2, 0) == HexDigits([d3] + rest, 1, c as int / 16);
    assert HexDigits(['0', d2, d3] + rest, 3, 0) == HexDigits([d2, d3] + rest, 2, 0);
  }

  /** One escaped character reads back as itself. */
  lemma CharRead(c: char, rest: string, acc: string)
    ensures Chars(EscapeChar(c) + rest, acc) == Chars(rest, acc + [c])
  {
    var e := EscapeChar(c);
    var s := e + rest;
    if |e| == 1 {
      assert s[1..] == rest;
    } else if |e| == 2 {
      assert s[1..] == [e[1]] + rest && s[1..][1..] == rest;
    } else {
      var digits := "00" + [HexDigit(c as int / 16), HexDigit(c as int % 16)];
      assert s[1..] == "u" + (digits + rest) && s[1..][1..] == digits + rest;
      HexRead(c, rest);
    }
  }

  lemma EscapedFirst(t: string, close: string)
    requires t != ""
    ensures Escape(t) + close == EscapeChar(t[0]) + (Escape(t[1..]) + close)
  {
  }

  lemma CharsGoOn(t: string, close: string, acc: string, tail: string, whole: string)
    requires t != "" && tail == Escape(t[1..]) + close && whole == acc + [t[0]] + t[1..]
    requires Chars(tail, acc + [t[0]]) == Ok(Parsed(whole, close))
    ensures Chars(Escape(t) + close, acc) == Ok(Parsed(whole, close))
  {
    EscapedFirst(t, close);
    CharRead(t[0], tail, acc);
  }

  lemma FirstMoved(t: string, acc: string)
    requires t != ""
    ensures acc + [t[0]] + t[1..] == acc + t
  {
  }

  lemma {:induction false} CharsRead(t: string, close: string, acc: string)
    requires close != "" && close[0] == '"'
    ensures Chars(Escape(t) + close, acc) == Ok(Parsed(acc + t, close))
  {
    if t == "" {
      assert Escape(t) + close == close;
      assert acc + t == acc;
    } else {
      FirstMoved(t, acc);
      CharsRead(t[1..], close, acc + [t[0]]);
      CharsGoOn(t, close, acc, Escape(t[1..]) + close, acc + t);
    }
  }

  /** Every string, whatever its characters, survives quoting and parsing. */
  lemma StringRead(t: string, rest: string)
    ensures ParseString(Quoted(t) + rest) == Ok(Parsed(t, rest))
  {
    var close := "\"" + rest;
    assert (Quoted(t) + rest)[1..] == Escape(t) + close;
    CharsRead(t, close, "");
    assert close[1..] == rest;
    assert "" + t == t;
  }

  // ----- Keys -----

  lemma {:induction false} KeyLessIrreflexive(a: string)
    ensures !KeyLess(a, a)
  {
    if a != "" { KeyLessIrreflexive(a[1..]); }
  }

  lemma {:induction false} KeyLessAsymmetric(a: string, b: string)
    requires KeyLess(a, b)
    ensures !KeyLess(b, a)
  {
    if a != "" && a[0] == b[0] { KeyLessAsymmetric(a[1..], b[1..]); }
  }

  /** Assigning a key above all present ones adds it at the end. */
  lemma {:induction false} AssignLast(ms: seq<Member>, key: string, value: Json)
    requires forall i :: 0 <= i < |ms| ==> KeyLess(ms[i].key, key)
    ensures Assign(ms, key, value) == ms + [Member(key, value)]
  {
    if ms != [] {
      KeyLessAsymmetric(ms[0].key, key);
      if ms[0].key == key { KeyLessIrreflexive(key); }
      AssignLast(ms[1..], key, value);
    }
  }

  // ----- Text with what follows it -----

  /** The text of v followed by tail, grouped to the right. */
  function TextThen(fl: Floats, v: Json, indentation: int, cur: int, tail: string): string
    decreases v
  {
    match v
    case Object(ms) =>
      if ms == [] then "{" + ("}" + tail)
      else "{" + (NewLine(indentation) + MembersThen(fl, ms, indentation, Inside(indentation, cur), CloseThen(indentation, cur, '}', tail)))
    case Array(es) =>
      if es == [] then "[" + ("]" + tail)
      else "[" + (NewLine(indentation) + ElementsThen(fl, es, indentation, Inside(indentation, cur), CloseThen(indentation, cur, ']', tail)))
    case _ => Literal(fl, v) + tail
  }

  function CloseThen(indentation: int, cur: int, bracket: char, tail: string): string {
    NewLine(indentation) + (Lead(indentation, cur) + ([bracket] + tail))
  }

  function MembersThen(fl: Floats, ms: seq<Member>, indentation: int, cur: int, tail: string): string
    decreases ms
  {
    if ms == [] then tail
    else
      var after := if |ms| == 1 then tail else Comma(indentation) + MembersThen(fl, ms[1..], indentation, cur, tail);
      Lead(indentation, cur) + (Quoted(ms[0].key) + (Colon(indentation) + TextThen(fl, ms[0].value, indentation, cur, after)))
  }

  function ElementsThen(fl: Floats, es: seq<Json>, indentation: int, cur: int, tail: string): string
    decreases es
  {
    if es == [] then tail
    else
      var after := if |es| == 1 then tail else Comma(indentation) + ElementsThen(fl, es[1..], indentation, cur, tail);
      Lead(indentation, cur) + TextThen(fl, es[0], indentation, cur, after)
  }

  lemma Assoc(a: string, b: string, c: string)
    ensures (a + b) + c == a + (b + c)
  {
  }

  lemma Assoc5(a: string, b: string, c: string, d: string, e: string)
    ensures (((a + b) + c) + d) + e == a + (b + (c + (d + e)))
  {
    Assoc(a, b, c);
    Assoc(a, b + c, d);
    Assoc(b, c, d);
    Assoc(a, b + (c + d), e);
    Assoc(b, c + d, e);
    Assoc(c, d, e);
  }

  lemma Assoc6(a: string, b: string, c: string, d: string, e: string, f: string)
    ensures ((((a + b) + c) + d) + e) + f == a + (b + (c + (d + (e + f))))
  {
    Assoc5(a, b, c, d, e);
    Assoc(a, b + (c + (d + e)), f);
    Assoc(b, c + (d + e), f);
    Assoc(c, d + e, f);
    Assoc(d, e, f);
  }

  lemma {:induction false} TextThenIs(fl: Floats, v: Json, indentation: int, cur: int, tail: string)
    ensures TextThen(fl, v, indentation, cur, tail) == Text(fl, v, indentation, cur) + tail
    decreases v, 1
  {
    var n, depth, l := NewLine(indentation), Inside(indentation, cur), Lead(indentation, cur);
    match v
    case Object(ms) =>
      if ms != [] {
        MembersThenIs(fl, ms, indentation, depth, CloseThen(indentation, cur, '}', tail));
        Assoc6("{", n, MembersText(fl, ms, indentation, depth), n, l, "}" + tail);
        Assoc(((("{" + n) + MembersText(fl, ms, indentation, depth)) + n) + l, "}", tail);
      }
    case Array(es) =>
      if es != [] {
        ElementsThenIs(fl, es, indentation, depth, CloseThen(indentation, cur, ']', tail));
        Assoc6("[", n, ElementsText(fl, es, indentation, depth), n, l, "]" + tail);
        Assoc(((("[" + n) + ElementsText(fl, es, indentation, depth)) + n) + l, "]", tail);
      }
    case _ =>
  }

  lemma {:induction false} MembersThenIs(fl: Floats, ms: seq<Member>, indentation: int, cur: int, tail: string)
    ensures MembersThen(fl, ms, indentation, cur, tail) == MembersText(fl, ms, indentation, cur) + tail
    decreases ms, 0
  {
    if ms != [] {
      var l, q, c, t := Lead(indentation, cur), Quoted(ms[0].key), Colon(indentation), Text(fl, ms[0].value, indentation, cur);
      if |ms| == 1 {
        TextThenIs(fl, ms[0].value, indentation, cur, tail);
        Assoc5(l, q, c, t, tail);
      } else {
        var more, sep := MembersText(fl, ms[1..], indentation, cur), Comma(indentation);
        MembersThenIs(fl, ms[1..], indentation, cur, tail);
        TextThenIs(fl, ms[0].value, indentation, cur, sep + (more + tail));
        Assoc5(l, q, c, t, sep + (more + tail));
        Assoc(((l + q) + c) + t, sep, more);
        Assoc(((l + q) + c) + t, sep + more, tail);
        Assoc(sep, more, tail);
      }
    } else {
      assert MembersText(fl, ms, indentation, cur) + tail == tail;
    }
  }

  lemma {:induction false} ElementsThenIs(fl: Floats, es: seq<Json>, indentation: int, cur: int, tail: string)
    ensures ElementsThen(fl, es, indentation, cur, tail) == ElementsText(fl, es, indentation, cur) + tail
    decreases es, 0
  {
    if es != [] {
      var l, t := Lead(indentation, cur), Text(fl, es[0], indentation, cur);
      if |es| == 1 {
        TextThenIs(fl, es[0], indentation, cur, tail);
        Assoc(l, t, tail);
      } else {
        var more, sep := ElementsText(fl, es[1..], indentation, cur), Comma(indentation);
        ElementsThenIs(fl, es[1..], indentation, cur, tail);
        TextThenIs(fl, es[0], indentation, cur, sep + (more + tail));
        Assoc(l, t, sep + (more + tail));
        Assoc(l + t, sep, more);
        Assoc(l + t, sep + more, tail);
        Assoc(sep, more, tail);
      }
    } else {
      assert ElementsText(fl, es, indentation, cur) + tail == tail;
    }
  }

  // ----- Values -----

  predicate StartsValue(s: string) {
    s != "" && (s[0] in {'{', '[', '"', '-', 't', 'f', 'n'} || IsDigit(s[0]))
  }

  lemma TextStarts(fl: Floats, v: Json, indentation: int, cur: int, tail: string)
    requires Faithful(fl)
    ensures StartsValue(TextThen(fl, v, indentation, cur, tail))
  {
    if v.Number? && fl.finite(v.bits) { assert Delimited(""); assert fl.show(v.bits) != ""; }
  }

  lemma WordRead(word: string, rest: string)
    ensures MatchWord(word + rest, word) == Ok(rest)
    decreases |word|
  {
    if word == "" {
      assert word + rest == rest;
    } else {
      assert (word + rest)[1..] == word[1..] + rest;
      WordRead(word[1..], rest);
    }
  }

  lemma NumberRead(fl: Floats, x: int, rest: string)
    requires Faithful(fl) && fl.finite(x) && Delimited(rest)
    ensures fl.show(x) != "" && ElementBody(fl, fl.show(x) + rest) == Ok(Parsed(Number(x), rest))
  {
    var t := fl.show(x);
    assert fl.scan(t + rest) == Some((x, |t|));
    assert (t + rest)[|t|..] == rest;
  }

  lemma LiteralRead(fl: Floats, v: Json, rest: string)
    requires Faithful(fl) && !v.Object? && !v.Array? && Delimited(rest)
    ensures Literal(fl, v) != "" && ElementBody(fl, Literal(fl, v) + rest) == Ok(Parsed(Nulled(fl, v), rest))
  {
    match v
    case Null => WordRead("null", rest);
    case Str(t) => StringRead(t, rest);
    case Bool(b) => WordRead(if b then "true" else "false", rest);
    case Number(x) =>
      if fl.finite(x) { NumberRead(fl, x, rest); } else { WordRead("null", rest); }
  }

  lemma SkipWsTwice(s: string)
    ensures SkipWs(SkipWs(s)) == SkipWs(s)
    ensures SkipWs(s) == "" || !IsWs(SkipWs(s)[0])
  {
  }

  /** The loops of object and array skip whitespace themselves. */
  lemma LoopsSkipWs(fl: Floats, s: string)
    ensures forall acc :: ObjectLoop(fl, SkipWs(s), acc) == ObjectLoop(fl, s, acc)
    ensures forall acc :: ArrayLoop(fl, SkipWs(s), acc) == ArrayLoop(fl, s, acc)
  {
    SkipWsTwice(s);
    assert ParseMember(fl, SkipWs(s)) == ParseMember(fl, s);
    assert Element(fl, SkipWs(s)) == Element(fl, s);
  }

  lemma CloseSkipped(indentation: int, cur: int, bracket: char, tail: string)
    requires bracket == '}' || bracket == ']'
    ensures SkipWs(CloseThen(indentation, cur, bracket, tail)) == [bracket] + tail
    ensures Delimited(CloseThen(indentation, cur, bracket, tail))
  {
    LeadIsWs(indentation, cur);
    SkipWsOver(NewLine(indentation), Lead(indentation, cur) + ([bracket] + tail));
    SkipWsOver(Lead(indentation, cur), [bracket] + tail);
  }

  /** The text of a value, after any whitespace, is read as the value and no further. */
  lemma {:induction false} ElementReads(fl: Floats, v: Json, indentation: int, cur: int, lead: string, rest: string)
    requires Faithful(fl) && WellFormed(v) && AllWs(lead) && Delimited(rest)
    ensures Element(fl, lead + TextThen(fl, v, indentation, cur, rest)) == Ok(Parsed(Nulled(fl, v), SkipWs(rest)))
    decreases v, 1
  {
    var t := TextThen(fl, v, indentation, cur, rest);
    TextStarts(fl, v, indentation, cur, rest);
    SkipWsOver(lead, t);
    assert SkipWs(t) == t;
    match v
    case Object(ms) => ObjectReads(fl, ms, indentation, cur, rest);
    case Array(es) => ArrayReads(fl, es, indentation, cur, rest);
    case _ => LiteralRead(fl, v, rest);
  }

  lemma {:induction false} ObjectReads(fl: Floats, ms: seq<Member>, indentation: int, cur: int, rest: string)
    requires Faithful(fl) && WellFormed(Object(ms))
    ensures ParseObject(fl, TextThen(fl, Object(ms), indentation, cur, rest)) == Ok(Parsed(NulledMembers(fl, ms), rest))
    decreases ms, 1
  {
    var t := TextThen(fl, Object(ms), indentation, cur, rest);
    if ms == [] {
      assert t[1..] == "}" + rest && ("}" + rest)[1..] == rest;
    } else {
      var n, depth := NewLine(indentation), Inside(indentation, cur);
      var close := CloseThen(indentation, cur, '}', rest);
      var s1 := n + MembersThen(fl, ms, indentation, depth, close);
      assert t[1..] == s1;
      MembersStart(fl, ms, indentation, depth, n, close);
      LoopsSkipWs(fl, s1);
      MembersRead(fl, ms, indentation, depth, n, cur, rest, []);
      assert [] + NulledMembers(fl, ms) == NulledMembers(fl, ms);
    }
  }

  lemma MembersStart(fl: Floats, ms: seq<Member>, indentation: int, depth: int, lead: string, close: string)
    requires ms != [] && AllWs(lead)
    ensures var s := SkipWs(lead + MembersThen(fl, ms, indentation, depth, close));
            s != "" && s[0] == '"' && s[0] != '}'
  {
    LeadIsWs(indentation, depth);
    var after := if |ms| == 1 then close else Comma(indentation) + MembersThen(fl, ms[1..], indentation, depth, close);
    var body := Quoted(ms[0].key) + (Colon(indentation) + TextThen(fl, ms[0].value, indentation, depth, after));
    SkipWsOver(lead, Lead(indentation, depth) + body);
    SkipWsOver(Lead(indentation, depth), body);
  }

  /** What follows the first value of a run of members. */
  function AfterMember(fl: Floats, ms: seq<Member>, indentation: int, depth: int, close: string): string
    requires ms != []
  {
    if |ms| == 1 then close else Comma(indentation) + MembersThen(fl, ms[1..], indentation, depth, close)
  }

  lemma ObjectLoopEnds(fl: Floats, s: string, acc: seq<Member>, m: Member, rest: string)
    requires ParseMember(fl, s) == Ok(Parsed(m, "}" + rest))
    ensures ObjectLoop(fl, s, acc) == Ok(Parsed(Assign(acc, m.key, m.value), rest))
  {
    assert ("}" + rest)[1..] == rest;
    assert SkipWs("}" + rest) == "}" + rest;
  }

  lemma ObjectLoopGoesOn(fl: Floats, s: string, acc: seq<Member>, m: Member, next: string)
    requires ParseMember(fl, s) == Ok(Parsed(m, "," + next))
    ensures ObjectLoop(fl, s, acc) == ObjectLoop(fl, next, Assign(acc, m.key, m.value))
  {
    assert ("," + next)[1..] == next;
    assert SkipWs("," + next) == "," + next;
  }

  /** After a member but the last stands a comma, then the next members. */
  lemma CommaThen(fl: Floats, ms: seq<Member>, indentation: int, depth: int, close: string)
    requires |ms| > 1
    ensures AfterMember(fl, ms, indentation, depth, close) ==
            "," + (NewLine(indentation) + MembersThen(fl, ms[1..], indentation, depth, close))
    ensures SkipWs(AfterMember(fl, ms, indentation, depth, close)) == AfterMember(fl, ms, indentation, depth, close)
    ensures Delimited(AfterMember(fl, ms, indentation, depth, close))
  {
    Assoc(",", NewLine(indentation), MembersThen(fl, ms[1..], indentation, depth, close));
  }

  lemma MembersThenFirst(fl: Floats, ms: seq<Member>, indentation: int, cur: int, tail: string)
    requires ms != []
    ensures MembersThen(fl, ms, indentation, cur, tail) ==
            Lead(indentation, cur) + (Quoted(ms[0].key) + (Colon(indentation) + TextThen(fl, ms[0].value, indentation, cur, AfterMember(fl, ms, indentation, cur, tail))))
  {
  }

  /** The first of the members is read, up to what follows it. */
  lemma {:induction false} FirstMemberReads(fl: Floats, ms: seq<Member>, indentation: int, depth: int, lead: string, close: string)
    requires Faithful(fl) && ms != [] && AllWs(lead) && WellFormed(ms[0].value) && Delimited(close)
    ensures ParseMember(fl, lead + MembersThen(fl, ms, indentation, depth, close)) ==
            Ok(Parsed(Member(ms[0].key, Nulled(fl, ms[0].value)), SkipWs(AfterMember(fl, ms, indentation, depth, close))))
    decreases ms, 0, 0
  {
    var after := AfterMember(fl, ms, indentation, depth, close);
    if |ms| > 1 { CommaThen(fl, ms, indentation, depth, close); }
    MembersThenFirst(fl, ms, indentation, depth, close);
    MemberReads(fl, ms[0], indentation, depth, lead, after);
  }

  lemma NulledMembersFirst(fl: Floats, ms: seq<Member>, acc: seq<Member>)
    requires ms != []
    ensures acc + NulledMembers(fl, ms) == (acc + [Member(ms[0].key, Nulled(fl, ms[0].value))]) + NulledMembers(fl, ms[1..])
  {
  }

  /** The keys read so far all stand before those to come. */
  predicate Before(acc: seq<Member>, ms: seq<Member>) {
    forall i, j :: 0 <= i < |acc| && 0 <= j < |ms| ==> KeyLess(acc[i].key, ms[j].key)
  }

  predicate MembersWellFormed(ms: seq<Member>) {
    SortedKeys(ms) && forall i :: 0 <= i < |ms| ==> WellFormed(ms[i].value)
  }

  lemma BeforeNext(acc: seq<Member>, ms: seq<Member>, m: Member)
    requires ms != [] && Before(acc, ms) && MembersWellFormed(ms) && m.key == ms[0].key
    ensures Before(acc + [m], ms[1..]) && MembersWellFormed(ms[1..])
  {
  }

  lemma {:induction false} MembersRead(fl: Floats, ms: seq<Member>, indentation: int, depth: int, lead: string, cur: int, rest: string, acc: seq<Member>)
    requires Faithful(fl) && ms != [] && AllWs(lead) && MembersWellFormed(ms) && Before(acc, ms)
    ensures ObjectLoop(fl, lead + MembersThen(fl, ms, indentation, depth, CloseThen(indentation, cur, '}', rest)), acc) ==
            Ok(Parsed(acc + NulledMembers(fl, ms), rest))
    decreases ms, 0, 1
  {
    var close := CloseThen(indentation, cur, '}', rest);
    var s := lead + MembersThen(fl, ms, indentation, depth, close);
    var m := Member(ms[0].key, Nulled(fl, ms[0].value));
    CloseSkipped(indentation, cur, '}', rest);
    FirstMemberReads(fl, ms, indentation, depth, lead, close);
    AssignLast(acc, m.key, m.value);
    NulledMembersFirst(fl, ms, acc);
    if |ms| == 1 {
      ObjectLoopEnds(fl, s, acc, m, rest);
      assert (acc + [m]) + NulledMembers(fl, ms[1..]) == acc + [m];
    } else {
      var next := NewLine(indentation) + MembersThen(fl, ms[1..], indentation, depth, close);
      CommaThen(fl, ms, indentation, depth, close);
      ObjectLoopGoesOn(fl, s, acc, m, next);
      LeadIsWs(indentation, cur);
      BeforeNext(acc, ms, m);
      MembersRead(fl, ms[1..], indentation, depth, NewLine(indentation), cur, rest, acc + [m]);
    }
  }

  /** The three parts of member. */
  lemma MemberIs(fl: Floats, s: string, key: string, tail: string, v: Json, rest: string)
    requires ParseString(SkipWs(s)) == Ok(Parsed(key, tail))
    requires tail != "" && tail[0] == ':' && Element(fl, tail[1..]) == Ok(Parsed(v, rest))
    ensures ParseMember(fl, s) == Ok(Parsed(Member(key, v), rest))
  {
    assert SkipWs(tail) == tail;
  }

  lemma ColonTail(indentation: int, t: string)
    ensures var gap := if indentation >= 0 then " " else "";
            AllWs(gap) && (Colon(indentation) + t)[0] == ':' && (Colon(indentation) + t)[1..] == gap + t
  {
  }

  lemma {:induction false} MemberReads(fl: Floats, m: Member, indentation: int, depth: int, lead: string, after: string)
    requires Faithful(fl) && AllWs(lead) && WellFormed(m.value) && Delimited(after)
    ensures var s := lead + (Lead(indentation, depth) + (Quoted(m.key) + (Colon(indentation) + TextThen(fl, m.value, indentation, depth, after))));
            ParseMember(fl, s) == Ok(Parsed(Member(m.key, Nulled(fl, m.value)), SkipWs(after)))
    decreases m, 2
  {
    var t := TextThen(fl, m.value, indentation, depth, after);
    var tail := Colon(indentation) + t;
    var s := lead + (Lead(indentation, depth) + (Quoted(m.key) + tail));
    LeadIsWs(indentation, depth);
    SkipWsOver(lead, Lead(indentation, depth) + (Quoted(m.key) + tail));
    SkipWsOver(Lead(indentation, depth), Quoted(m.key) + tail);
    StringRead(m.key, tail);
    assert SkipWs(s) == Quoted(m.key) + tail;
    ColonTail(indentation, t);
    ElementReads(fl, m.value, indentation, depth, if indentation >= 0 then " " else "", after);
    MemberIs(fl, s, m.key, tail, Nulled(fl, m.value), SkipWs(after));
  }

  lemma {:induction false} ArrayReads(fl: Floats, es: seq<Json>, indentation: int, cur: int, rest: string)
    requires Faithful(fl) && WellFormed(Array(es))
    ensures ParseArray(fl, TextThen(fl, Array(es), indentation, cur, rest)) == Ok(Parsed(NulledElements(fl, es), rest))
    decreases es, 1
  {
    var t := TextThen(fl, Array(es), indentation, cur, rest);
    if es == [] {
      assert t[1..] == "]" + rest && ("]" + rest)[1..] == rest;
    } else {
      var n, depth := NewLine(indentation), Inside(indentation, cur);
      var close := CloseThen(indentation, cur, ']', rest);
      var s1 := n + ElementsThen(fl, es, indentation, depth, close);
      assert t[1..] == s1;
      ElementsStart(fl, es, indentation, depth, n, close);
      LoopsSkipWs(fl, s1);
      ElementsRead(fl, es, indentation, depth, n, cur, rest, []);
      assert [] + NulledElements(fl, es) == NulledElements(fl, es);
    }
  }

  /** What follows the first of a run of elements. */
  function AfterElement(fl: Floats, es: seq<Json>, indentation: int, depth: int, close: string): string
    requires es != []
  {
    if |es| == 1 then close else Comma(indentation) + ElementsThen(fl, es[1..], indentation, depth, close)
  }

  lemma ElementsStart(fl: Floats, es: seq<Json>, indentation: int, depth: int, lead: string, close: string)
    requires Faithful(fl) && es != [] && AllWs(lead)
    ensures var s := SkipWs(lead + ElementsThen(fl, es, indentation, depth, close));
            s != "" && s[0] != ']'
  {
    LeadIsWs(indentation, depth);
    var body := TextThen(fl, es[0], indentation, depth, AfterElement(fl, es, indentation, depth, close));
    TextStarts(fl, es[0], indentation, depth, AfterElement(fl, es, indentation, depth, close));
    SkipWsOver(lead, Lead(indentation, depth) + body);
    SkipWsOver(Lead(indentation, depth), body);
  }

  lemma ArrayLoopEnds(fl: Floats, s: string, acc: seq<Json>, v: Json, rest: string)
    requires Element(fl, s) == Ok(Parsed(v, "]" + rest))
    ensures ArrayLoop(fl, s, acc) == Ok(Parsed(acc + [v], rest))
  {
    assert ("]" + rest)[1..] == rest;
    assert SkipWs("]" + rest) == "]" + rest;
  }

  lemma ArrayLoopGoesOn(fl: Floats, s: string, acc: seq<Json>, v: Json, next: string)
    requires Element(fl, s) == Ok(Parsed(v, "," + next))
    ensures ArrayLoop(fl, s, acc) == ArrayLoop(fl, next, acc + [v])
  {
    assert ("," + next)[1..] == next;
    assert SkipWs("," + next) == "," + next;
  }

  lemma CommaThenElements(fl: Floats, es: seq<Json>, indentation: int, depth: int, close: string)
    requires |es| > 1
    ensures AfterElement(fl, es, indentation, depth, close) ==
            "," + (NewLine(indentation) + ElementsThen(fl, es[1..], indentation, depth, close))
    ensures SkipWs(AfterElement(fl, es, indentation, depth, close)) == AfterElement(fl, es, indentation, depth, close)
    ensures Delimited(AfterElement(fl, es, indentation, depth, close))
  {
    Assoc(",", NewLine(indentation), ElementsThen(fl, es[1..], indentation, depth, close));
  }

  lemma {:induction false} FirstElementReads(fl: Floats, es: seq<Json>, indentation: int, depth: int, lead: string, close: string)
    requires Faithful(fl) && es != [] && AllWs(lead) && WellFormed(es[0]) && Delimited(close)
    ensures Element(fl, lead + ElementsThen(fl, es, indentation, depth, close)) ==
            Ok(Parsed(Nulled(fl, es[0]), SkipWs(AfterElement(fl, es, indentation, depth, close))))
    decreases es, 0, 0
  {
    var after := AfterElement(fl, es, indentation, depth, close);
    if |es| > 1 { CommaThenElements(fl, es, indentation, depth, close); }
    LeadIsWs(indentation, depth);
    Assoc(lead, Lead(indentation, depth), TextThen(fl, es[0], indentation, depth, after));
    ElementReads(fl, es[0], indentation, depth, lead + Lead(indentation, depth), after);
  }

  lemma NulledElementsFirst(fl: Floats, es: seq<Json>, acc: seq<Json>)
    requires es != []
    ensures acc + NulledElements(fl, es) == (acc + [Nulled(fl, es[0])]) + NulledElements(fl, es[1..])
  {
  }

  lemma {:induction false} ElementsRead(fl: Floats, es: seq<Json>, indentation: int, depth: int, lead: string, cur: int, rest: string, acc: seq<Json>)
    requires Faithful(fl) && es != [] && AllWs(lead)
    requires forall i :: 0 <= i < |es| ==> WellFormed(es[i])
    ensures ArrayLoop(fl, lead + ElementsThen(fl, es, indentation, depth, CloseThen(indentation, cur, ']', rest)), acc) ==
            Ok(Parsed(acc + NulledElements(fl, es), rest))
    decreases es, 0, 1
  {
    var close := CloseThen(indentation, cur, ']', rest);
    var s := lead + ElementsThen(fl, es, indentation, depth, close);
    var v := Nulled(fl, es[0]);
    CloseSkipped(indentation, cur, ']', rest);
    FirstElementReads(fl, es, indentation, depth, lead, close);
    NulledElementsFirst(fl, es, acc);
    if |es| == 1 {
      ArrayLoopEnds(fl, s, acc, v, rest);
      assert (acc + [v]) + NulledElements(fl, es[1..]) == acc + [v];
    } else {
      var next := NewLine(indentation) + ElementsThen(fl, es[1..], indentation, depth, close);
      CommaThenElements(fl, es, indentation, depth, close);
      ArrayLoopGoesOn(fl, s, acc, v, next);
      LeadIsWs(indentation, cur);
      ElementsRead(fl, es[1..], indentation, depth, NewLine(indentation), cur, rest, acc + [v]);
    }
  }

  // ----- Main results -----

  /** Every number in the value is finite. */
  predicate AllFinite(fl: Floats, v: Json)
    decreases v
  {
    match v
    case Object(ms) => forall i :: 0 <= i < |ms| ==> AllFinite(fl, ms[i].value)
    case Array(es) => forall i :: 0 <= i < |es| ==> AllFinite(fl, es[i])
    case Number(x) => fl.finite(x)
    case _ => true
  }

  lemma {:induction false} NulledIsSameIffFinite(fl: Floats, v: Json)
    ensures Nulled(fl, v) == v <==> AllFinite(fl, v)
    decreases v, 1
  {
    match v
    case Object(ms) => NulledMembersSame(fl, ms);
    case Array(es) => NulledElementsSame(fl, es);
    case _ =>
  }

  lemma {:induction false} NulledMembersSame(fl: Floats, ms: seq<Member>)
    ensures NulledMembers(fl, ms) == ms <==> forall i :: 0 <= i < |ms| ==> AllFinite(fl, ms[i].value)
    decreases ms, 0
  {
    if ms != [] {
      assert ms == [Member(ms[0].key, ms[0].value)] + ms[1..];
      NulledIsSameIffFinite(fl, ms[0].value);
      NulledMembersSame(fl, ms[1..]);
    }
  }

  lemma {:induction false} NulledElementsSame(fl: Floats, es: seq<Json>)
    ensures NulledElements(fl, es) == es <==> forall i :: 0 <= i < |es| ==> AllFinite(fl, es[i])
    decreases es, 0
  {
    if es != [] {
      assert es == [es[0]] + es[1..];
      NulledIsSameIffFinite(fl, es[0]);
      NulledElementsSame(fl, es[1..]);
    }
  }

  /** format at any indentation is read back completely, with non-finite numbers as null. */
  lemma FormatRoundTrip(fl: Floats, v: Json, indentation: int)
    requires Faithful(fl) && WellFormed(v)
    ensures Element(fl, Format(fl, v, indentation)) == Ok(Parsed(Nulled(fl, v), ""))
    ensures Parse(fl, Format(fl, v, indentation)) == Ok(Nulled(fl, v))
  {
    ElementReads(fl, v, indentation, 0, "", "");
    TextThenIs(fl, v, indentation, 0, "");
    assert Format(fl, v, indentation) + "" == Format(fl, v, indentation);
    assert "" + Format(fl, v, indentation) == Format(fl, v, indentation);
  }

  /** parse(dump(v)) and parse(format(v, n)) give v back exactly when all its numbers are finite. */
  lemma ParseUndoesPrint(fl: Floats, v: Json, indentation: int)
    requires Faithful(fl) && WellFormed(v)
    ensures Parse(fl, Dump(fl, v)) == Ok(v) <==> AllFinite(fl, v)
    ensures Parse(fl, Format(fl, v, indentation)) == Ok(v) <==> AllFinite(fl, v)
  {
    FormatRoundTrip(fl, v, -1);
    FormatRoundTrip(fl, v, indentation);
    NulledIsSameIffFinite(fl, v);
  }

  /** So a value has one printed form per indentation, and different values print differently. */
  lemma PrintIsInjective(fl: Floats, v: Json, w: Json, indentation: int)
    requires Faithful(fl) && WellFormed(v) && WellFormed(w) && AllFinite(fl, v) && AllFinite(fl, w)
    requires Format(fl, v, indentation) == Format(fl, w, indentation)
    ensures v == w
  {
    ParseUndoesPrint(fl, v, indentation);
    ParseUndoesPrint(fl, w, indentation);
  }
}

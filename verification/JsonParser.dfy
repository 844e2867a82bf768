/** json_parser, moving an index over its data, and the printing loops, each against the text functions. */
module JsonParser {
  import opened Wrappers
  import opened JsonText

  /** A result of a parsing method that leaves rest unread, as the outcome of a parsing function. */
  function Reached<T>(r: Result<T, Error>, rest: string): Outcome<T> {
    match r
    case Ok(v) => Ok(Parsed(v, rest))
    case Err(e) => Err(e)
  }

  /** One digit of a \u escape. */
  lemma HexTurn(s: string, n: nat, cp: nat, digit: nat, rest: string)
    requires n > 0 && s != "" && HexValue(s[0]) == Some(digit) && s == [s[0]] + rest
    ensures HexDigits(s, n, cp) == HexDigits(rest, n - 1, cp * 16 + digit)
  {
    assert s[1..] == rest;
  }

  class JsonParser {
    const fl: Floats
    const data: string
    var idx: nat

    constructor (fl: Floats, data: string)
      ensures this.fl == fl && this.data == data && idx == 0
    {
      this.fl, this.data, idx := fl, data, 0;
    }

    predicate Valid()
      reads this
    {
      idx <= |data|
    }

    function Rest(): string
      reads this
      requires Valid()
    {
      data[idx..]
    }

    method Peek() returns (r: Result<char, Error>)
      requires Valid()
      ensures r == if Rest() == "" then Err(UnexpectedEof) else Ok(Rest()[0])
    {
      if idx >= |data| { return Err(UnexpectedEof); }
      return Ok(data[idx]);
    }

    method Consume() returns (r: Result<char, Error>)
      requires Valid()
      modifies this
      ensures Valid() && idx >= old(idx)
      ensures r.Ok? <==> old(Rest()) != ""
      ensures r.Ok? ==> old(Rest()) == [r.value] + Rest()
      ensures r.Err? ==> r.error == UnexpectedEof && idx == old(idx)
    {
      if idx >= |data| { return Err(UnexpectedEof); }
      r := Ok(data[idx]);
      idx := idx + 1;
    }

    method MatchChar(c: char) returns (r: Result<(), Error>)
      requires Valid()
      modifies this
      ensures Valid() && idx >= old(idx)
      ensures match Match(old(Rest()), c)
              case Err(e) => r == Err(e)
              case Ok(rest) => r == Ok(()) && Rest() == rest
    {
      var n := Consume();
      if n.Err? { return Err(n.error); }
      if n.value != c { return Err(Mismatch(c, n.value)); }
      return Ok(());
    }

    method MatchText(s: string) returns (r: Result<(), Error>)
      requires Valid()
      modifies this
      ensures Valid() && idx >= old(idx)
      ensures match MatchWord(old(Rest()), s)
              case Err(e) => r == Err(e)
              case Ok(rest) => r == Ok(()) && Rest() == rest
    {
      for i := 0 to |s|
        invariant Valid() && idx >= old(idx)
        invariant MatchWord(old(Rest()), s) == MatchWord(Rest(), s[i..])
      {
        r := MatchChar(s[i]);
        if r.Err? { return; }
      }
      return Ok(());
    }

    method Ws()
      requires Valid()
      modifies this
      ensures Valid() && idx >= old(idx) && Rest() == SkipWs(old(Rest()))
    {
      while idx < |data|
        invariant Valid() && idx >= old(idx) && SkipWs(Rest()) == SkipWs(old(Rest()))
      {
        var c := data[idx];
        if c == ' ' || c == '\n' || c == '\r' || c == '\t' { idx := idx + 1; } else { break; }
      }
    }

    method Digit(h: char) returns (d: Option<nat>)
      ensures d == HexValue(h)
    {
      if '0' <= h <= '9' { return Some(h as int - '0' as int); }
      if 'a' <= h <= 'f' { return Some(h as int - 'a' as int + 10); }
      if 'A' <= h <= 'F' { return Some(h as int - 'A' as int + 10); }
      return None;
    }

    /** The four digits of a \u escape. */
    method Hex() returns (r: Result<nat, Error>)
      requires Valid()
      modifies this
      ensures Valid() && idx >= old(idx)
      ensures HexDigits(old(Rest()), 4, 0) == Reached(r, Rest())
    {
      var cp: nat := 0;
      for i := 0 to 4
        invariant Valid() && idx >= old(idx)
        invariant HexDigits(old(Rest()), 4, 0) == HexDigits(Rest(), 4 - i, cp)
      {
        var h := Consume();
        if h.Err? { return Err(h.error); }
        var digit := Digit(h.value);
        if digit.None? { return Err(BadHexDigit); }
        HexTurn([h.value] + Rest(), 4 - i, cp, digit.value, Rest());
        cp := cp * 16 + digit.value;
      }
      return Ok(cp);
    }

    /** What stands after a backslash. */
    method Escaped() returns (r: Result<string, Error>)
      requires Valid()
      modifies this
      ensures Valid() && idx >= old(idx)
      ensures EscapeTail(old(Rest())) == Reached(r, Rest())
    {
      var c := Consume();
      if c.Err? { return Err(c.error); }
      assert Rest() == old(Rest())[1..];
      match c.value {
        case '"' => return Ok("\"");
        case '\\' => return Ok("\\");
        case '/' => return Ok("/");
        case 'b' => return Ok("\U{8}");
        case 'f' => return Ok("\U{c}");
        case 'n' => return Ok("\n");
        case 'r' => return Ok("\r");
        case 't' => return Ok("\t");
        case 'u' =>
          var cp := Hex();
          if cp.Err? { return Err(cp.error); }
          return Ok(Utf8(cp.value));
        case _ => return Err(BadEscape(c.value));
      }
    }

    method String() returns (r: Result<string, Error>)
      requires Valid()
      modifies this
      ensures Valid() && idx >= old(idx)
      ensures ParseString(old(Rest())) == Reached(r, Rest())
    {
      var start := MatchChar('"');
      if start.Err? { return Err(start.error); }
      var s := "";
      ghost var body := Rest();
      while true
        invariant Valid() && idx >= old(idx)
        invariant Chars(body, "") == Chars(Rest(), s)
        decreases |data| - idx
      {
        var c := Peek();
        if c.Err? { return Err(c.error); }
        if c.value == '"' { break; }
        var _ := Consume();
        if c.value == '\\' {
          var e := Escaped();
          if e.Err? { return Err(e.error); }
          s := s + e.value;
          continue;
        }
        s := s + [c.value];
      }
      var close := MatchChar('"');
      return Ok(s);
    }

    method Num() returns (r: Result<int, Error>)
      requires Valid()
      modifies this
      ensures Valid() && idx >= old(idx)
      ensures ParseNumber(fl, old(Rest())) == Reached(r, Rest())
    {
      var scanned := fl.scan(data[idx..]);
      if scanned.None? || !(1 <= scanned.value.1 <= |data| - idx) { return Err(BadNumber); }
      if data[idx] == '0' && idx + 1 < |data| && '0' <= data[idx + 1] <= '9' { return Err(LeadingZero); }
      idx := idx + scanned.value.1;
      return Ok(scanned.value.0);
    }

    method ReadMember() returns (r: Result<Member, Error>)
      requires Valid()
      modifies this
      ensures Valid() && idx >= old(idx)
      ensures ParseMember(fl, old(Rest())) == Reached(r, Rest())
      decreases |data| - idx, 4
    {
      Ws();
      var id := String();
      if id.Err? { return Err(id.error); }
      Ws();
      var colon := MatchChar(':');
      if colon.Err? { return Err(colon.error); }
      var v := ReadElement();
      if v.Err? { return Err(v.error); }
      return Ok(Member(id.value, v.value));
    }

    method ReadObject() returns (r: Result<seq<Member>, Error>)
      requires Valid()
      modifies this
      ensures Valid() && idx >= old(idx)
      ensures ParseObject(fl, old(Rest())) == Reached(r, Rest())
      decreases |data| - idx, 1
    {
      var brace := MatchChar('{');
      if brace.Err? { return Err(brace.error); }
      var j: seq<Member> := [];
      Ws();
      var c := Peek();
      if c.Err? { return Err(c.error); }
      if c.value == '}' {
        var _ := MatchChar('}');
        return Ok(j);
      }
      ghost var body := Rest();
      while true
        invariant Valid() && idx > old(idx)
        invariant ObjectLoop(fl, body, []) == ObjectLoop(fl, Rest(), j)
        decreases |data| - idx
      {
        ghost var before := Rest();
        var m := ReadMember();
        if m.Err? { return Err(m.error); }
        j := Assign(j, m.value.key, m.value.value);
        Ws();
        c := Peek();
        if c.Err? { return Err(c.error); }
        if c.value == '}' { break; }
        var comma := MatchChar(',');
        if comma.Err? { return Err(comma.error); }
      }
      var _ := MatchChar('}');
      return Ok(j);
    }

    method ReadArray() returns (r: Result<seq<Json>, Error>)
      requires Valid()
      modifies this
      ensures Valid() && idx >= old(idx)
      ensures ParseArray(fl, old(Rest())) == Reached(r, Rest())
      decreases |data| - idx, 1
    {
      var bracket := MatchChar('[');
      if bracket.Err? { return Err(bracket.error); }
      var j: seq<Json> := [];
      Ws();
      var c := Peek();
      if c.Err? { return Err(c.error); }
      if c.value == ']' {
        var _ := MatchChar(']');
        return Ok(j);
      }
      ghost var body := Rest();
      while true
        invariant Valid() && idx > old(idx)
        invariant ArrayLoop(fl, body, []) == ArrayLoop(fl, Rest(), j)
        decreases |data| - idx
      {
        var v := ReadElement();
        if v.Err? { return Err(v.error); }
        j := j + [v.value];
        Ws();
        c := Peek();
        if c.Err? { return Err(c.error); }
        if c.value == ']' { break; }
        var comma := MatchChar(',');
        if comma.Err? { return Err(comma.error); }
      }
      var _ := MatchChar(']');
      return Ok(j);
    }

    method ReadElement() returns (r: Result<Json, Error>)
      requires Valid()
      modifies this
      ensures Valid() && idx >= old(idx)
      ensures Element(fl, old(Rest())) == Reached(r, Rest())
      decreases |data| - idx, 3
    {
      Ws();
      var c := Peek();
      if c.Err? { return Err(c.error); }
      var j := ReadBody(c.value);
      if j.Err? { return Err(j.error); }
      Ws();
      return j;
    }

    /** The cases of element on its first character. */
    method ReadBody(c: char) returns (r: Result<Json, Error>)
      requires Valid() && Rest() != "" && Rest()[0] == c
      modifies this
      ensures Valid() && idx >= old(idx)
      ensures ElementBody(fl, old(Rest())) == Reached(r, Rest())
      decreases |data| - idx, 2
    {
      if c == '{' {
        var o := ReadObject();
        return match o case Ok(ms) => Ok(Object(ms)) case Err(e) => Err(e);
      } else if c == '[' {
        var a := ReadArray();
        return match a case Ok(es) => Ok(Array(es)) case Err(e) => Err(e);
      } else if c == '"' {
        var s := String();
        return match s case Ok(t) => Ok(Str(t)) case Err(e) => Err(e);
      } else if c == '-' || '0' <= c <= '9' {
        var n := Num();
        return match n case Ok(x) => Ok(Number(x)) case Err(e) => Err(e);
      } else if c == 't' {
        var w := MatchText("true");
        return match w case Ok(_) => Ok(Bool(true)) case Err(e) => Err(e);
      } else if c == 'f' {
        var w := MatchText("false");
        return match w case Ok(_) => Ok(Bool(false)) case Err(e) => Err(e);
      } else if c == 'n' {
        var w := MatchText("null");
        return match w case Ok(_) => Ok(Null) case Err(e) => Err(e);
      } else {
        return Err(BadStart(c));
      }
    }
  }

  // ----- Printing -----

  lemma EscapeAppend(s: string, c: char)
    ensures Escape(s + [c]) == Escape(s) + EscapeChar(c)
  {
    if s == "" {
      assert s + [c] == [c] && Escape([c][1..]) == "";
    } else {
      assert (s + [c])[1..] == s[1..] + [c];
      EscapeAppend(s[1..], c);
    }
  }

  method EscapeString(str: string) returns (s: string)
    ensures s == Escape(str)
  {
    s := "";
    for i := 0 to |str|
      invariant s == Escape(str[..i])
    {
      var c := str[i];
      EscapeAppend(str[..i], c);
      assert str[..i + 1] == str[..i] + [c];
      match c {
        case '"' => s := s + "\\\"";
        case '\\' => s := s + "\\\\";
        case '\U{8}' => s := s + "\\b";
        case '\U{c}' => s := s + "\\f";
        case '\n' => s := s + "\\n";
        case '\r' => s := s + "\\r";
        case '\t' => s := s + "\\t";
        case _ =>
          if c as int < 0x20 {
            s := s + "\\u00" + [HexDigit(c as int / 16), HexDigit(c as int % 16)];
          } else {
            s := s + [c];
          }
      }
    }
    assert str[..|str|] == str;
  }

  /** What the printing loop has written once the first i of n pieces are out. */
  function MembersSoFar(fl: Floats, ms: seq<Member>, i: nat, indentation: int, cur: int): string
    requires i <= |ms|
  {
    MembersText(fl, ms[..i], indentation, cur) + (if 0 < i < |ms| then Comma(indentation) else "")
  }

  function ElementsSoFar(fl: Floats, es: seq<Json>, i: nat, indentation: int, cur: int): string
    requires i <= |es|
  {
    ElementsText(fl, es[..i], indentation, cur) + (if 0 < i < |es| then Comma(indentation) else "")
  }

  lemma MembersTextFirst(fl: Floats, ms: seq<Member>, indentation: int, cur: int)
    requires |ms| > 1
    ensures MembersText(fl, ms, indentation, cur) ==
            MembersText(fl, ms[..1], indentation, cur) + Comma(indentation) + MembersText(fl, ms[1..], indentation, cur)
  {
  }

  lemma {:induction false} MembersTextLast(fl: Floats, ms: seq<Member>, m: Member, indentation: int, cur: int)
    ensures MembersText(fl, ms + [m], indentation, cur) ==
            MembersText(fl, ms, indentation, cur) + (if ms == [] then "" else Comma(indentation)) + MembersText(fl, [m], indentation, cur)
  {
    if ms == [] {
      assert ms + [m] == [m];
    } else {
      MembersTextFirst(fl, ms + [m], indentation, cur);
      assert (ms + [m])[1..] == ms[1..] + [m] && (ms + [m])[..1] == ms[..1];
      MembersTextLast(fl, ms[1..], m, indentation, cur);
      if |ms| == 1 {
        assert ms[..1] == ms;
      } else {
        MembersTextFirst(fl, ms, indentation, cur);
      }
    }
  }

  lemma ElementsTextFirst(fl: Floats, es: seq<Json>, indentation: int, cur: int)
    requires |es| > 1
    ensures ElementsText(fl, es, indentation, cur) ==
            ElementsText(fl, es[..1], indentation, cur) + Comma(indentation) + ElementsText(fl, es[1..], indentation, cur)
  {
  }

  lemma {:induction false} ElementsTextLast(fl: Floats, es: seq<Json>, v: Json, indentation: int, cur: int)
    ensures ElementsText(fl, es + [v], indentation, cur) ==
            ElementsText(fl, es, indentation, cur) + (if es == [] then "" else Comma(indentation)) + ElementsText(fl, [v], indentation, cur)
  {
    if es == [] {
      assert es + [v] == [v];
    } else {
      ElementsTextFirst(fl, es + [v], indentation, cur);
      assert (es + [v])[1..] == es[1..] + [v] && (es + [v])[..1] == es[..1];
      ElementsTextLast(fl, es[1..], v, indentation, cur);
      if |es| == 1 {
        assert es[..1] == es;
      } else {
        ElementsTextFirst(fl, es, indentation, cur);
      }
    }
  }

  method FormatLiteral(fl: Floats, v: Json) returns (s: string)
    requires !v.Object? && !v.Array?
    ensures s == Literal(fl, v)
  {
    match v {
      case Null => return "null";
      case Str(t) =>
        var e := EscapeString(t);
        return "\"" + e + "\"";
      case Number(x) => return if fl.finite(x) then fl.show(x) else "null";
      case Bool(b) => return if b then "true" else "false";
    }
  }

  method FormatInternal(fl: Floats, v: Json, indentation: int, cur: int) returns (s: string)
    ensures s == Text(fl, v, indentation, cur)
    decreases v, 3
  {
    match v {
      case Object(ms) => s := FormatMembers(fl, ms, indentation, cur);
      case Array(es) => s := FormatElements(fl, es, indentation, cur);
      case _ => s := FormatLiteral(fl, v);
    }
  }

  /** What one turn of the printing loop writes. */
  function MemberPiece(fl: Floats, ms: seq<Member>, i: nat, indentation: int, cur: int): string
    requires i < |ms|
  {
    Lead(indentation, cur) + Quoted(ms[i].key) + Colon(indentation) + Text(fl, ms[i].value, indentation, cur)
      + (if i + 1 != |ms| then Comma(indentation) else "")
  }

  function ElementPiece(fl: Floats, es: seq<Json>, i: nat, indentation: int, cur: int): string
    requires i < |es|
  {
    Lead(indentation, cur) + Text(fl, es[i], indentation, cur) + (if i + 1 != |es| then Comma(indentation) else "")
  }

  lemma OneMember(fl: Floats, m: Member, indentation: int, cur: int)
    ensures MembersText(fl, [m], indentation, cur) ==
            Lead(indentation, cur) + Quoted(m.key) + Colon(indentation) + Text(fl, m.value, indentation, cur)
  {
  }

  lemma MemberPieceAdds(fl: Floats, ms: seq<Member>, i: nat, indentation: int, cur: int)
    requires i < |ms|
    ensures MembersSoFar(fl, ms, i + 1, indentation, cur) == MembersSoFar(fl, ms, i, indentation, cur) + MemberPiece(fl, ms, i, indentation, cur)
  {
    var one := MembersText(fl, [ms[i]], indentation, cur);
    OneMember(fl, ms[i], indentation, cur);
    MembersTextLast(fl, ms[..i], ms[i], indentation, cur);
    assert ms[..i + 1] == ms[..i] + [ms[i]];
    assert MembersText(fl, ms[..i + 1], indentation, cur) == MembersSoFar(fl, ms, i, indentation, cur) + one;
  }

  lemma ElementPieceAdds(fl: Floats, es: seq<Json>, i: nat, indentation: int, cur: int)
    requires i < |es|
    ensures ElementsSoFar(fl, es, i + 1, indentation, cur) == ElementsSoFar(fl, es, i, indentation, cur) + ElementPiece(fl, es, i, indentation, cur)
  {
    var one := ElementsText(fl, [es[i]], indentation, cur);
    assert one == Lead(indentation, cur) + Text(fl, es[i], indentation, cur);
    ElementsTextLast(fl, es[..i], es[i], indentation, cur);
    assert es[..i + 1] == es[..i] + [es[i]];
    assert ElementsText(fl, es[..i + 1], indentation, cur) == ElementsSoFar(fl, es, i, indentation, cur) + one;
  }

  method FormatMember(fl: Floats, members: seq<Member>, i: nat, indentation: int, cur: int) returns (s: string)
    requires i < |members|
    ensures s == MemberPiece(fl, members, i, indentation, cur)
    decreases members, 0
  {
    var key := EscapeString(members[i].key);
    var value := FormatInternal(fl, members[i].value, indentation, cur);
    s := (if indentation >= 0 then Spaces(cur) else "") + ("\"" + key + "\"") + (if indentation >= 0 then ": " else ":") + value;
    s := s + (if i + 1 != |members| then if indentation >= 0 then ",\n" else "," else "");
  }

  method FormatElement(fl: Floats, elements: seq<Json>, i: nat, indentation: int, cur: int) returns (s: string)
    requires i < |elements|
    ensures s == ElementPiece(fl, elements, i, indentation, cur)
    decreases elements, 0
  {
    var value := FormatInternal(fl, elements[i], indentation, cur);
    s := (if indentation >= 0 then Spaces(cur) else "") + value;
    s := s + (if i + 1 != |elements| then if indentation >= 0 then ",\n" else "," else "");
  }

  function MembersDone(fl: Floats, members: seq<Member>, indentation: int, cur: int): string {
    MembersSoFar(fl, members, |members|, indentation, Inside(indentation, cur))
  }

  lemma MembersClose(fl: Floats, members: seq<Member>, indentation: int, cur: int)
    requires members != []
    ensures Text(fl, Object(members), indentation, cur) ==
            ("{" + NewLine(indentation)) + MembersDone(fl, members, indentation, cur) + (NewLine(indentation) + Lead(indentation, cur)) + "}"
  {
    assert members[..|members|] == members;
    assert MembersDone(fl, members, indentation, cur) == MembersText(fl, members, indentation, Inside(indentation, cur));
    var a, b := NewLine(indentation), Lead(indentation, cur);
    var t := ("{" + NewLine(indentation)) + MembersDone(fl, members, indentation, cur);
    assert (t + a) + b == t + (a + b);
  }

  method FormatMembers(fl: Floats, members: seq<Member>, indentation: int, cur: int) returns (s: string)
    ensures s == Text(fl, Object(members), indentation, cur)
    decreases members, 2
  {
    if members == [] { return "{}"; }
    MembersClose(fl, members, indentation, cur);
    var pretty := indentation >= 0;
    s := WriteMembers(fl, members, indentation, if pretty then cur + indentation else cur);
    s := ("{" + (if pretty then "\n" else "")) + s + ((if pretty then "\n" else "") + (if pretty then Spaces(cur) else "")) + "}";
  }

  method WriteMembers(fl: Floats, members: seq<Member>, indentation: int, cur: int) returns (s: string)
    ensures s == MembersSoFar(fl, members, |members|, indentation, cur)
    decreases members, 1
  {
    s := "";
    for i := 0 to |members|
      invariant s == MembersSoFar(fl, members, i, indentation, cur)
    {
      MemberPieceAdds(fl, members, i, indentation, cur);
      var piece := FormatMember(fl, members, i, indentation, cur);
      s := s + piece;
    }
  }

  function ElementsDone(fl: Floats, elements: seq<Json>, indentation: int, cur: int): string {
    ElementsSoFar(fl, elements, |elements|, indentation, Inside(indentation, cur))
  }

  lemma ElementsClose(fl: Floats, elements: seq<Json>, indentation: int, cur: int)
    requires elements != []
    ensures Text(fl, Array(elements), indentation, cur) ==
            ("[" + NewLine(indentation)) + ElementsDone(fl, elements, indentation, cur) + (NewLine(indentation) + Lead(indentation, cur)) + "]"
  {
    assert elements[..|elements|] == elements;
    assert ElementsDone(fl, elements, indentation, cur) == ElementsText(fl, elements, indentation, Inside(indentation, cur));
    var a, b := NewLine(indentation), Lead(indentation, cur);
    var t := ("[" + NewLine(indentation)) + ElementsDone(fl, elements, indentation, cur);
    assert (t + a) + b == t + (a + b);
  }

  method FormatElements(fl: Floats, elements: seq<Json>, indentation: int, cur: int) returns (s: string)
    ensures s == Text(fl, Array(elements), indentation, cur)
    decreases elements, 2
  {
    if elements == [] { return "[]"; }
    ElementsClose(fl, elements, indentation, cur);
    var pretty := indentation >= 0;
    s := WriteElements(fl, elements, indentation, if pretty then cur + indentation else cur);
    s := ("[" + (if pretty then "\n" else "")) + s + ((if pretty then "\n" else "") + (if pretty then Spaces(cur) else "")) + "]";
  }

  method WriteElements(fl: Floats, elements: seq<Json>, indentation: int, cur: int) returns (s: string)
    ensures s == ElementsSoFar(fl, elements, |elements|, indentation, cur)
    decreases elements, 1
  {
    s := "";
    for i := 0 to |elements|
      invariant s == ElementsSoFar(fl, elements, i, indentation, cur)
    {
      ElementPieceAdds(fl, elements, i, indentation, cur);
      var piece := FormatElement(fl, elements, i, indentation, cur);
      s := s + piece;
    }
  }

  /** json::parse */
  method ParseText(fl: Floats, text: string) returns (r: Result<Json, Error>)
    ensures r == Parse(fl, text)
  {
    var parser := new JsonParser(fl, text);
    r := parser.ReadElement();
  }
}

/**
 * The texts the parser takes, as trees: the grammar of RFC 8259 sections 2 to 7, except that numbers are
 * what the scanner takes and strings may hold control characters.
 */
module JsonGrammar {
  import opened Wrappers
  import opened JsonText
  import opened JsonRoundTrip
  import opened JsonEscapes

  /** A string between its quotes: characters, escapes of two characters, and escapes of four hex digits. */
  datatype Piece = Plain(c: char) | Short(letter: char) | Unicode(digits: string)

  datatype Tree =
    | NullTree
    | BoolTree(value: bool)
    | NumberTree(text: string)
    | StringTree(pieces: seq<Piece>)
    | NoMembers(gap: string)
    | SomeMembers(members: seq<MemberTree>)
    | NoElements(gap: string)
    | SomeElements(elements: seq<ElementTree>)

  datatype ElementTree = ElementTree(before: string, tree: Tree, after: string)

  datatype MemberTree = MemberTree(before: string, key: seq<Piece>, between: string, value: ElementTree)

  // ----- The text of a tree, and what follows it -----

  function PieceText(p: Piece): string {
    match p
    case Plain(c) => [c]
    case Short(letter) => ['\\', letter]
    case Unicode(digits) => "\\u" + digits
  }

  function PiecesThen(ps: seq<Piece>, tail: string): string {
    if ps == [] then tail else PieceText(ps[0]) + PiecesThen(ps[1..], tail)
  }

  function StringThen(ps: seq<Piece>, tail: string): string {
    "\"" + PiecesThen(ps, "\"" + tail)
  }

  function TreeThen(t: Tree, tail: string): string
    decreases t
  {
    match t
    case NullTree => "null" + tail
    case BoolTree(b) => (if b then "true" else "false") + tail
    case NumberTree(text) => text + tail
    case StringTree(ps) => StringThen(ps, tail)
    case NoMembers(gap) => "{" + (gap + ("}" + tail))
    case SomeMembers(ms) => "{" + MembersThen(ms, "}" + tail)
    case NoElements(gap) => "[" + (gap + ("]" + tail))
    case SomeElements(es) => "[" + ElementsThen(es, "]" + tail)
  }

  function ElementThen(e: ElementTree, tail: string): string
    decreases e
  {
    e.before + TreeThen(e.tree, e.after + tail)
  }

  function MemberThen(m: MemberTree, tail: string): string
    decreases m
  {
    m.before + StringThen(m.key, m.between + (":" + ElementThen(m.value, tail)))
  }

  function MembersThen(ms: seq<MemberTree>, tail: string): string
    decreases ms
  {
    if ms == [] then tail
    else MemberThen(ms[0], if |ms| == 1 then tail else "," + MembersThen(ms[1..], tail))
  }

  function ElementsThen(es: seq<ElementTree>, tail: string): string
    decreases es
  {
    if es == [] then tail
    else ElementThen(es[0], if |es| == 1 then tail else "," + ElementsThen(es[1..], tail))
  }

  // ----- The value of a tree -----

  function PieceValue(p: Piece): string {
    match p
    case Plain(c) => [c]
    case Short(letter) => if EscapeMeaning(letter).Some? then [EscapeMeaning(letter).value] else ""
    case Unicode(digits) => if FourHex(digits) then Utf8(HexNumber(digits)) else ""
  }

  function PiecesValue(ps: seq<Piece>): string {
    if ps == [] then "" else PieceValue(ps[0]) + PiecesValue(ps[1..])
  }

  function TreeValue(fl: Floats, t: Tree): Json
    decreases t
  {
    match t
    case NullTree => Null
    case BoolTree(b) => Bool(b)
    case NumberTree(text) => Number(if fl.scan(text).Some? then fl.scan(text).value.0 else 0)
    case StringTree(ps) => Str(PiecesValue(ps))
    case NoMembers(_) => Object([])
    case SomeMembers(ms) => Object(MembersValue(fl, ms, []))
    case NoElements(_) => Array([])
    case SomeElements(es) => Array(ElementsValue(fl, es))
  }

  /** The members, each put in place by j[key] = value, in the order of the text. */
  function MembersValue(fl: Floats, ms: seq<MemberTree>, acc: seq<Member>): seq<Member>
    decreases ms
  {
    if ms == [] then acc
    else MembersValue(fl, ms[1..], Assign(acc, PiecesValue(ms[0].key), TreeValue(fl, ms[0].value.tree)))
  }

  function ElementsValue(fl: Floats, es: seq<ElementTree>): seq<Json>
    decreases es
  {
    if es == [] then [] else [TreeValue(fl, es[0].tree)] + ElementsValue(fl, es[1..])
  }

  // ----- Which trees there are -----

  predicate ValidPiece(p: Piece) {
    match p
    case Plain(c) => c != '"' && c != '\\'
    case Short(letter) => EscapeMeaning(letter).Some?
    case Unicode(digits) => FourHex(digits)
  }

  predicate ValidPieces(ps: seq<Piece>) {
    forall i :: 0 <= i < |ps| ==> ValidPiece(ps[i])
  }

  /** The scanner takes the whole text, which starts with a minus sign or a digit but not with a zero and a digit. */
  predicate ValidNumber(fl: Floats, text: string) {
    && text != "" && (text[0] == '-' || IsDigit(text[0]))
    && fl.scan(text).Some? && fl.scan(text).value.1 == |text|
    && !(text[0] == '0' && |text| > 1 && IsDigit(text[1]))
  }

  predicate Valid(fl: Floats, t: Tree)
    decreases t
  {
    match t
    case NumberTree(text) => ValidNumber(fl, text)
    case StringTree(ps) => ValidPieces(ps)
    case NoMembers(gap) => AllWs(gap)
    case SomeMembers(ms) => ms != [] && forall i :: 0 <= i < |ms| ==> ValidMember(fl, ms[i])
    case NoElements(gap) => AllWs(gap)
    case SomeElements(es) => es != [] && forall i :: 0 <= i < |es| ==> ValidElement(fl, es[i])
    case _ => true
  }

  predicate ValidElement(fl: Floats, e: ElementTree)
    decreases e
  {
    AllWs(e.before) && Valid(fl, e.tree) && AllWs(e.after)
  }

  predicate ValidMember(fl: Floats, m: MemberTree)
    decreases m
  {
    AllWs(m.before) && ValidPieces(m.key) && AllWs(m.between) && ValidElement(fl, m.value)
  }

  predicate EndsNumber(c: char) {
    c == ',' || c == ']' || c == '}' || IsWs(c)
  }

  /** Nothing follows, or a separator, a bracket or whitespace. */
  predicate Stopped(rest: string) {
    rest == "" || EndsNumber(rest[0])
  }

  /** from_chars does not read on over a separator, a bracket or whitespace. */
  ghost predicate Local(fl: Floats) {
    forall p, rest :: Stopped(rest) ==> fl.scan(p + rest) == fl.scan(p)
  }

  /** Inside a container a value is followed by a separator or a bracket. */
  predicate Separated(rest: string) {
    rest != "" && (rest[0] == ',' || rest[0] == ']' || rest[0] == '}')
  }

  /** Whitespace is space, tab, line feed and carriage return (section 2). */
  lemma WhitespaceIs(c: char)
    ensures IsWs(c) <==> c as int == 0x20 || c as int == 0x09 || c as int == 0x0A || c as int == 0x0D
  {
  }

  // ----- Every tree's text is read -----

  lemma Regroup(a: string, b: string, c: string)
    ensures (a + b) + c == a + (b + c)
  {
  }

  lemma SkipWsStops(w: string, t: string)
    requires AllWs(w) && (t == "" || !IsWs(t[0]))
    ensures SkipWs(w + t) == t
  {
    SkipWsOver(w, t);
  }

  lemma CharsPiece(p: Piece, more: string, acc: string)
    requires ValidPiece(p)
    ensures Chars(PieceText(p) + more, acc) == Chars(more, acc + PieceValue(p))
  {
    var s := PieceText(p) + more;
    match p
    case Plain(c) => assert s[1..] == more;
    case Short(letter) =>
      assert s[1..] == [letter] + more;
      ShortEscapeReads(letter, more);
    case Unicode(digits) =>
      assert s[1..] == ['u'] + (digits + more);
      UnicodeEscapeReads(digits, more);
  }

  lemma {:induction false} PiecesRead(ps: seq<Piece>, tail: string, acc: string)
    requires ValidPieces(ps)
    ensures Chars(PiecesThen(ps, "\"" + tail), acc) == Ok(Parsed(acc + PiecesValue(ps), "\"" + tail))
    decreases ps
  {
    if ps == [] {
      assert acc + "" == acc;
    } else {
      CharsPiece(ps[0], PiecesThen(ps[1..], "\"" + tail), acc);
      PiecesRead(ps[1..], tail, acc + PieceValue(ps[0]));
      Regroup(acc, PieceValue(ps[0]), PiecesValue(ps[1..]));
    }
  }

  lemma StringTreeReads(ps: seq<Piece>, tail: string)
    requires ValidPieces(ps)
    ensures ParseString(StringThen(ps, tail)) == Ok(Parsed(PiecesValue(ps), tail))
  {
    PiecesRead(ps, tail, "");
    assert StringThen(ps, tail)[1..] == PiecesThen(ps, "\"" + tail);
    assert "" + PiecesValue(ps) == PiecesValue(ps) && ("\"" + tail)[1..] == tail;
  }

  lemma NumberTreeReads(fl: Floats, text: string, tail: string)
    requires Local(fl) && ValidNumber(fl, text) && Stopped(tail)
    ensures ParseNumber(fl, text + tail) == Ok(Parsed(fl.scan(text).value.0, tail))
  {
    var s := text + tail;
    assert fl.scan(s) == fl.scan(text);
    assert s[|text|..] == tail && s[0] == text[0];
    assert |text| > 1 ==> s[1] == text[1];
  }

  /** A tree's text starts with a character that decides what it is, and that is no whitespace. */
  lemma TreeStarts(fl: Floats, t: Tree, tail: string)
    requires Valid(fl, t)
    ensures TreeThen(t, tail) != "" && !IsWs(TreeThen(t, tail)[0])
    ensures TreeThen(t, tail)[0] != ']' && TreeThen(t, tail)[0] != '}'
  {
  }

  lemma WsIsStopped(after: string, tail: string)
    requires AllWs(after) && Stopped(tail)
    ensures Stopped(after + tail)
  {
  }

  lemma ElementOf(fl: Floats, s: string, v: Json, s1: string, raw: string, rest: string)
    requires SkipWs(s) == s1 && s1 != "" && ElementBody(fl, s1) == Ok(Parsed(v, raw)) && SkipWs(raw) == rest
    ensures Element(fl, s) == Ok(Parsed(v, rest))
  {
  }

  lemma {:induction false} ElementTreeReads(fl: Floats, e: ElementTree, tail: string)
    requires Local(fl) && ValidElement(fl, e) && Separated(tail)
    ensures Element(fl, ElementThen(e, tail)) == Ok(Parsed(TreeValue(fl, e.tree), tail))
    decreases e, 1
  {
    var s1 := TreeThen(e.tree, e.after + tail);
    WsIsStopped(e.after, tail);
    TreeStarts(fl, e.tree, e.after + tail);
    SkipWsStops(e.before, s1);
    SkipWsStops(e.after, tail);
    TreeReads(fl, e.tree, e.after + tail);
    ElementOf(fl, ElementThen(e, tail), TreeValue(fl, e.tree), s1, e.after + tail, tail);
  }

  /** Every tree's text is read as its value, and what follows is left; a number must end there. */
  lemma {:induction false} TreeReads(fl: Floats, t: Tree, tail: string)
    requires Local(fl) && Valid(fl, t) && (t.NumberTree? ==> Stopped(tail))
    ensures TreeThen(t, tail) != "" && ElementBody(fl, TreeThen(t, tail)) == Ok(Parsed(TreeValue(fl, t), tail))
    decreases t, 1
  {
    match t
    case NullTree => WordRead("null", tail);
    case BoolTree(b) => WordRead(if b then "true" else "false", tail);
    case NumberTree(text) => NumberTreeReads(fl, text, tail);
    case StringTree(ps) => StringTreeReads(ps, tail);
    case _ => ContainerReads(fl, t, tail);
  }

  lemma {:induction false} ContainerReads(fl: Floats, t: Tree, tail: string)
    requires Local(fl) && Valid(fl, t) && (t.NoMembers? || t.NoElements? || t.SomeMembers? || t.SomeElements?)
    ensures TreeThen(t, tail) != "" && ElementBody(fl, TreeThen(t, tail)) == Ok(Parsed(TreeValue(fl, t), tail))
    decreases t, 0
  {
    match t
    case NoMembers(gap) => EmptyReads(fl, gap, tail);
    case NoElements(gap) => EmptyReads(fl, gap, tail);
    case SomeMembers(ms) => ObjectTreeReads(fl, ms, tail);
    case SomeElements(es) => ArrayTreeReads(fl, es, tail);
  }

  lemma EmptyReads(fl: Floats, gap: string, tail: string)
    requires AllWs(gap)
    ensures ParseObject(fl, "{" + (gap + ("}" + tail))) == Ok(Parsed([], tail))
    ensures ParseArray(fl, "[" + (gap + ("]" + tail))) == Ok(Parsed([], tail))
  {
    SkipWsStops(gap, "}" + tail);
    SkipWsStops(gap, "]" + tail);
    assert ("{" + (gap + ("}" + tail)))[1..] == gap + ("}" + tail) && ("}" + tail)[1..] == tail;
    assert ("[" + (gap + ("]" + tail)))[1..] == gap + ("]" + tail) && ("]" + tail)[1..] == tail;
  }

  /** The first thing behind the whitespace of a member is a quote. */
  lemma MemberTreesStart(fl: Floats, ms: seq<MemberTree>, tail: string)
    requires ms != [] && ValidMember(fl, ms[0])
    ensures SkipWs(MembersThen(ms, tail)) != "" && SkipWs(MembersThen(ms, tail))[0] == '"'
  {
    var m := ms[0];
    var more := if |ms| == 1 then tail else "," + MembersThen(ms[1..], tail);
    SkipWsStops(m.before, StringThen(m.key, m.between + (":" + ElementThen(m.value, more))));
  }

  lemma {:induction false} ObjectTreeReads(fl: Floats, ms: seq<MemberTree>, tail: string)
    requires Local(fl) && Valid(fl, SomeMembers(ms))
    ensures ParseObject(fl, "{" + MembersThen(ms, "}" + tail)) == Ok(Parsed(MembersValue(fl, ms, []), tail))
    decreases ms, 2
  {
    var s1 := MembersThen(ms, "}" + tail);
    MemberTreesStart(fl, ms, "}" + tail);
    assert ("{" + s1)[1..] == s1;
    MembersTreeRead(fl, ms, tail, []);
    LoopsSkipWs(fl, s1);
  }

  lemma {:induction false} MembersTreeRead(fl: Floats, ms: seq<MemberTree>, tail: string, acc: seq<Member>)
    requires Local(fl) && ms != [] && forall i :: 0 <= i < |ms| ==> ValidMember(fl, ms[i])
    ensures ObjectLoop(fl, MembersThen(ms, "}" + tail), acc) == Ok(Parsed(MembersValue(fl, ms, acc), tail))
    decreases ms, 1
  {
    var m := Member(PiecesValue(ms[0].key), TreeValue(fl, ms[0].value.tree));
    var s := MembersThen(ms, "}" + tail);
    if |ms| == 1 {
      MemberTreeReads(fl, ms[0], "}" + tail);
      ObjectLoopEnds(fl, s, acc, m, tail);
      assert ms[1..] == [];
    } else {
      var more := MembersThen(ms[1..], "}" + tail);
      MemberTreeReads(fl, ms[0], "," + more);
      ObjectLoopGoesOn(fl, s, acc, m, more);
      MembersTreeRead(fl, ms[1..], tail, Assign(acc, m.key, m.value));
    }
  }

  lemma {:induction false} MemberTreeReads(fl: Floats, m: MemberTree, tail: string)
    requires Local(fl) && ValidMember(fl, m) && Separated(tail)
    ensures ParseMember(fl, MemberThen(m, tail)) == Ok(Parsed(Member(PiecesValue(m.key), TreeValue(fl, m.value.tree)), tail))
    decreases m, 2
  {
    var s3 := ":" + ElementThen(m.value, tail);
    var s1 := StringThen(m.key, m.between + s3);
    SkipWsStops(m.before, s1);
    StringTreeReads(m.key, m.between + s3);
    SkipWsStops(m.between, s3);
    ElementTreeReads(fl, m.value, tail);
    assert s3[1..] == ElementThen(m.value, tail);
    MemberOf(fl, MemberThen(m, tail), Member(PiecesValue(m.key), TreeValue(fl, m.value.tree)), s1, m.between + s3, s3, tail);
  }

  lemma MemberOf(fl: Floats, s: string, m: Member, s1: string, s2: string, s3: string, rest: string)
    requires SkipWs(s) == s1 && ParseString(s1) == Ok(Parsed(m.key, s2)) && SkipWs(s2) == s3
    requires Match(s3, ':').Ok? && Element(fl, s3[1..]) == Ok(Parsed(m.value, rest))
    ensures ParseMember(fl, s) == Ok(Parsed(m, rest))
  {
  }

  lemma ElementTreesStart(fl: Floats, es: seq<ElementTree>, tail: string)
    requires es != [] && ValidElement(fl, es[0])
    ensures SkipWs(ElementsThen(es, tail)) != "" && SkipWs(ElementsThen(es, tail))[0] != ']'
  {
    var e := es[0];
    var more := if |es| == 1 then tail else "," + ElementsThen(es[1..], tail);
    TreeStarts(fl, e.tree, e.after + more);
    SkipWsStops(e.before, TreeThen(e.tree, e.after + more));
  }

  lemma {:induction false} ArrayTreeReads(fl: Floats, es: seq<ElementTree>, tail: string)
    requires Local(fl) && Valid(fl, SomeElements(es))
    ensures ParseArray(fl, "[" + ElementsThen(es, "]" + tail)) == Ok(Parsed(ElementsValue(fl, es), tail))
    decreases es, 2
  {
    var s1 := ElementsThen(es, "]" + tail);
    ElementTreesStart(fl, es, "]" + tail);
    assert ("[" + s1)[1..] == s1;
    ElementsTreeRead(fl, es, tail, []);
    LoopsSkipWs(fl, s1);
    assert [] + ElementsValue(fl, es) == ElementsValue(fl, es);
  }

  lemma {:induction false} ElementsTreeRead(fl: Floats, es: seq<ElementTree>, tail: string, acc: seq<Json>)
    requires Local(fl) && es != [] && forall i :: 0 <= i < |es| ==> ValidElement(fl, es[i])
    ensures ArrayLoop(fl, ElementsThen(es, "]" + tail), acc) == Ok(Parsed(acc + ElementsValue(fl, es), tail))
    decreases es, 1
  {
    var v := TreeValue(fl, es[0].tree);
    var s := ElementsThen(es, "]" + tail);
    ElementsValueFirst(fl, es, acc);
    if |es| == 1 {
      ElementTreeReads(fl, es[0], "]" + tail);
      ArrayLoopEnds(fl, s, acc, v, tail);
    } else {
      var more := ElementsThen(es[1..], "]" + tail);
      ElementTreeReads(fl, es[0], "," + more);
      ArrayLoopGoesOn(fl, s, acc, v, more);
      ElementsTreeRead(fl, es[1..], tail, acc + [v]);
    }
  }

  lemma ElementsValueFirst(fl: Floats, es: seq<ElementTree>, acc: seq<Json>)
    requires es != []
    ensures acc + ElementsValue(fl, es) == (acc + [TreeValue(fl, es[0].tree)]) + ElementsValue(fl, es[1..])
    ensures |es| == 1 ==> acc + ElementsValue(fl, es) == acc + [TreeValue(fl, es[0].tree)]
  {
    assert |es| == 1 ==> ElementsValue(fl, es[1..]) == [];
  }

  // ----- Every text that is read is a tree's -----

  lemma {:induction false} SkipWsSplit(s: string, s1: string) returns (w: string)
    requires s1 == SkipWs(s)
    ensures s == w + s1 && AllWs(w) && (s1 == "" || !IsWs(s1[0]))
  {
    if s != "" && IsWs(s[0]) {
      var w1 := SkipWsSplit(s[1..], s1);
      w := [s[0]] + w1;
      FirstThen(s, w1, s1);
    } else {
      w := "";
    }
  }

  lemma FirstThen(s: string, b: string, q: string)
    requires s != "" && s[1..] == b + q
    ensures s == [s[0]] + (b + q) && s == ([s[0]] + b) + q
  {
    assert s == [s[0]] + s[1..];
  }

  lemma {:induction false} WordTaken(s: string, word: string)
    requires MatchWord(s, word).Ok?
    ensures s == word + MatchWord(s, word).value
    decreases |word|
  {
    if word != "" {
      WordTaken(s[1..], word[1..]);
      assert s == [s[0]] + s[1..] && word == [word[0]] + word[1..];
    }
  }

  lemma {:induction false} HexTaken(s: string, n: nat, cp: nat, v: nat, q: string)
    requires HexDigits(s, n, cp) == Ok(Parsed(v, q))
    ensures |s| >= n && s[n..] == q && forall i :: 0 <= i < n ==> HexValue(s[i]).Some?
    decreases n
  {
    if n > 0 {
      HexTaken(s[1..], n - 1, cp * 16 + HexValue(s[0]).value, v, q);
      assert s[1..][n - 1..] == s[n..];
      forall i | 0 <= i < n ensures HexValue(s[i]).Some? {
        if i > 0 { assert s[i] == s[1..][i - 1]; }
      }
    }
  }

  lemma UnicodePiece(s: string, v: string, q: string) returns (p: Piece)
    requires s != "" && s[0] == 'u' && EscapeTail(s) == Ok(Parsed(v, q))
    ensures ValidPiece(p) && PieceValue(p) == v && "\\" + s == PieceText(p) + q
  {
    HexTaken(s[1..], 4, 0, HexDigits(s[1..], 4, 0).value.value, q);
    var digits := s[1..5];
    p := Unicode(digits);
    assert s == ['u'] + (digits + q);
    UnicodeEscapeReads(digits, q);
  }

  lemma ShortPiece(s: string, v: string, q: string) returns (p: Piece)
    requires s != "" && s[0] != 'u' && EscapeTail(s) == Ok(Parsed(v, q))
    ensures ValidPiece(p) && PieceValue(p) == v && "\\" + s == PieceText(p) + q
  {
    p := Short(s[0]);
    assert s == [s[0]] + s[1..];
    ShortEscapeReads(s[0], s[1..]);
  }

  lemma EscapePiece(s: string, v: string, q: string) returns (p: Piece)
    requires EscapeTail(s) == Ok(Parsed(v, q))
    ensures ValidPiece(p) && PieceValue(p) == v && "\\" + s == PieceText(p) + q
  {
    if s[0] == 'u' { p := UnicodePiece(s, v, q); } else { p := ShortPiece(s, v, q); }
  }

  lemma PieceBefore(p: Piece, ps: seq<Piece>, q: string, acc: string)
    requires ValidPiece(p) && ValidPieces(ps)
    ensures ValidPieces([p] + ps) && PiecesThen([p] + ps, q) == PieceText(p) + PiecesThen(ps, q)
    ensures acc + PiecesValue([p] + ps) == acc + PieceValue(p) + PiecesValue(ps)
  {
    assert ([p] + ps)[1..] == ps;
  }

  lemma {:induction false} PiecesOf(s: string, acc: string, v: string, q: string) returns (ps: seq<Piece>)
    requires Chars(s, acc) == Ok(Parsed(v, q))
    ensures ValidPieces(ps) && s == PiecesThen(ps, q) && v == acc + PiecesValue(ps)
    decreases |s|
  {
    if s[0] == '"' {
      ps := [];
      assert acc + "" == acc;
    } else if s[0] == '\\' {
      var e := EscapeTail(s[1..]).value;
      var p := EscapePiece(s[1..], e.value, e.rest);
      var more := PiecesOf(e.rest, acc + e.value, v, q);
      assert s == "\\" + s[1..];
      PieceBefore(p, more, q, acc);
      ps := [p] + more;
    } else {
      var more := PiecesOf(s[1..], acc + [s[0]], v, q);
      assert s == [s[0]] + s[1..];
      PieceBefore(Plain(s[0]), more, q, acc);
      ps := [Plain(s[0])] + more;
    }
  }

  lemma StringPieces(s: string, v: string, q: string) returns (ps: seq<Piece>)
    requires ParseString(s) == Ok(Parsed(v, q))
    ensures ValidPieces(ps) && s == StringThen(ps, q) && v == PiecesValue(ps)
  {
    var close := Chars(s[1..], "").value.rest;
    ps := PiecesOf(s[1..], "", v, close);
    assert close == "\"" + q && s == "\"" + s[1..];
    assert "" + PiecesValue(ps) == PiecesValue(ps);
  }

  lemma NumberOf(fl: Floats, s: string, x: int, q: string) returns (text: string)
    requires Local(fl) && ParseNumber(fl, s) == Ok(Parsed(x, q)) && Stopped(q) && (s[0] == '-' || IsDigit(s[0]))
    ensures ValidNumber(fl, text) && s == text + q && fl.scan(text).value.0 == x
  {
    var n := fl.scan(s).value.1;
    text := s[..n];
    assert s == text + q;
    assert fl.scan(text + q) == fl.scan(text);
    assert n > 1 ==> text[1] == s[1];
  }

  lemma {:induction false} ElementTreeOf(fl: Floats, s: string, v: Json, q: string) returns (e: ElementTree)
    requires Local(fl) && Element(fl, s) == Ok(Parsed(v, q)) && Separated(q)
    ensures ValidElement(fl, e) && s == ElementThen(e, q) && TreeValue(fl, e.tree) == v
    decreases |s|, 3
  {
    var s1 := SkipWs(s);
    var raw := ElementBody(fl, s1).value.rest;
    var before := SkipWsSplit(s, s1);
    var after := SkipWsSplit(raw, q);
    WsIsStopped(after, q);
    var t := TreeOf(fl, s1, v, raw);
    e := ElementTree(before, t, after);
  }

  /** A text that is read as a value is a tree's text, of that value, and the rest; a number must end there. */
  lemma {:induction false} TreeOf(fl: Floats, s: string, v: Json, q: string) returns (t: Tree)
    requires Local(fl) && s != "" && ElementBody(fl, s) == Ok(Parsed(v, q)) && (v.Number? ==> Stopped(q))
    ensures Valid(fl, t) && s == TreeThen(t, q) && TreeValue(fl, t) == v
    decreases |s|, 2
  {
    var c := s[0];
    if c == '{' { t := ObjectTreeOf(fl, s, v.members, q); }
    else if c == '[' { t := ArrayTreeOf(fl, s, v.elements, q); }
    else if c == '"' { var ps := StringPieces(s, v.text, q); t := StringTree(ps); }
    else if c == '-' || IsDigit(c) { var text := NumberOf(fl, s, v.bits, q); t := NumberTree(text); }
    else if c == 't' { WordTaken(s, "true"); t := BoolTree(true); }
    else if c == 'f' { WordTaken(s, "false"); t := BoolTree(false); }
    else { WordTaken(s, "null"); t := NullTree; }
  }

  lemma {:induction false} ObjectTreeOf(fl: Floats, s: string, ms: seq<Member>, q: string) returns (t: Tree)
    requires Local(fl) && ParseObject(fl, s) == Ok(Parsed(ms, q))
    ensures Valid(fl, t) && !t.NumberTree? && s == TreeThen(t, q) && TreeValue(fl, t) == Object(ms)
    decreases |s|, 1
  {
    var s2 := SkipWs(s[1..]);
    assert s == "{" + s[1..];
    if s2[0] == '}' {
      var w := SkipWsSplit(s[1..], s2);
      assert s2 == "}" + q;
      t := NoMembers(w);
    } else {
      LoopsSkipWs(fl, s[1..]);
      var trees := MemberTreesOf(fl, s[1..], [], ms, q);
      t := SomeMembers(trees);
    }
  }

  lemma MemberBefore(fl: Floats, m: MemberTree, ms: seq<MemberTree>, q: string, acc: seq<Member>)
    requires ValidMember(fl, m) && ms != [] && forall i :: 0 <= i < |ms| ==> ValidMember(fl, ms[i])
    ensures forall i :: 0 <= i < |[m] + ms| ==> ValidMember(fl, ([m] + ms)[i])
    ensures MembersThen([m] + ms, q) == MemberThen(m, "," + MembersThen(ms, q))
    ensures MembersValue(fl, [m] + ms, acc) == MembersValue(fl, ms, Assign(acc, PiecesValue(m.key), TreeValue(fl, m.value.tree)))
  {
    assert ([m] + ms)[1..] == ms;
  }

  lemma OneMemberTree(fl: Floats, m: MemberTree, q: string, acc: seq<Member>)
    ensures MembersThen([m], q) == MemberThen(m, q)
    ensures MembersValue(fl, [m], acc) == Assign(acc, PiecesValue(m.key), TreeValue(fl, m.value.tree))
  {
    assert [m][1..] == [];
  }

  lemma MemberRest(fl: Floats, s: string, q: string)
    requires ParseMember(fl, s).Ok? && q == ParseMember(fl, s).value.rest
    ensures SkipWs(q) == q
  {
    var s1 := SkipWs(ParseString(SkipWs(s)).value.rest)[1..];
    SkipWsTwice(ElementBody(fl, SkipWs(s1)).value.rest);
  }

  /** What the loop of object found behind a member. */
  lemma LoopTurn(fl: Floats, s: string, acc: seq<Member>, ms: seq<Member>, q: string) returns (m: Member, next: string, more: string)
    requires ObjectLoop(fl, s, acc) == Ok(Parsed(ms, q))
    ensures ParseMember(fl, s) == Ok(Parsed(m, next)) && Separated(next) && |next| < |s|
    ensures next[0] == '}' ==> next == "}" + q && ms == Assign(acc, m.key, m.value)
    ensures next[0] != '}' ==> next == "," + more && ObjectLoop(fl, more, Assign(acc, m.key, m.value)) == Ok(Parsed(ms, q))
  {
    var p := ParseMember(fl, s).value;
    m, next := p.value, p.rest;
    MemberRest(fl, s, next);
    more := next[1..];
    assert next == [next[0]] + more;
  }

  lemma {:induction false} MemberTreesOf(fl: Floats, s: string, acc: seq<Member>, ms: seq<Member>, q: string) returns (trees: seq<MemberTree>)
    requires Local(fl) && ObjectLoop(fl, s, acc) == Ok(Parsed(ms, q))
    ensures trees != [] && forall i :: 0 <= i < |trees| ==> ValidMember(fl, trees[i])
    ensures s == MembersThen(trees, "}" + q) && MembersValue(fl, trees, acc) == ms
    decreases |s|, 5
  {
    var m, next, more := LoopTurn(fl, s, acc, ms, q);
    var first := MemberTreeOf(fl, s, m, next);
    if next[0] == '}' {
      trees := [first];
      OneMemberTree(fl, first, "}" + q, acc);
    } else {
      var others := MemberTreesOf(fl, more, Assign(acc, m.key, m.value), ms, q);
      trees := [first] + others;
      MemberBefore(fl, first, others, "}" + q, acc);
    }
  }

  lemma {:induction false} MemberTreeOf(fl: Floats, s: string, m: Member, q: string) returns (t: MemberTree)
    requires Local(fl) && ParseMember(fl, s) == Ok(Parsed(m, q)) && Separated(q)
    ensures ValidMember(fl, t) && s == MemberThen(t, q) && PiecesValue(t.key) == m.key && TreeValue(fl, t.value.tree) == m.value
    decreases |s|, 4
  {
    var rest, s3 := MemberReadParts(fl, s, m, q);
    var before := SkipWsSplit(s, SkipWs(s));
    var key := StringPieces(SkipWs(s), m.key, rest);
    var between := SkipWsSplit(rest, SkipWs(rest));
    var value := ElementTreeOf(fl, s3, m.value, q);
    t := MemberTree(before, key, between, value);
    MemberThenParts(t, s, SkipWs(s), rest, SkipWs(rest), q);
  }

  /** What follows the key, and the text of the value. */
  lemma MemberReadParts(fl: Floats, s: string, m: Member, q: string) returns (rest: string, s3: string)
    requires ParseMember(fl, s) == Ok(Parsed(m, q))
    ensures ParseString(SkipWs(s)) == Ok(Parsed(m.key, rest)) && SkipWs(rest) == ":" + s3
    ensures Element(fl, s3) == Ok(Parsed(m.value, q)) && |s3| < |s|
  {
    rest := ParseString(SkipWs(s)).value.rest;
    s3 := SkipWs(rest)[1..];
    assert SkipWs(rest) == ":" + s3;
  }

  lemma MemberThenParts(t: MemberTree, s: string, s1: string, rest: string, s2: string, q: string)
    requires s == t.before + s1 && s1 == StringThen(t.key, rest) && rest == t.between + s2 && s2 == ":" + ElementThen(t.value, q)
    ensures s == MemberThen(t, q)
  {
  }

  lemma {:induction false} ArrayTreeOf(fl: Floats, s: string, es: seq<Json>, q: string) returns (t: Tree)
    requires Local(fl) && ParseArray(fl, s) == Ok(Parsed(es, q))
    ensures Valid(fl, t) && !t.NumberTree? && s == TreeThen(t, q) && TreeValue(fl, t) == Array(es)
    decreases |s|, 1
  {
    var s2 := SkipWs(s[1..]);
    assert s == "[" + s[1..];
    if s2[0] == ']' {
      var w := SkipWsSplit(s[1..], s2);
      assert s2 == "]" + q;
      t := NoElements(w);
    } else {
      LoopsSkipWs(fl, s[1..]);
      var trees := ElementTreesOf(fl, s[1..], [], es, q);
      assert [] + ElementsValue(fl, trees) == ElementsValue(fl, trees);
      t := SomeElements(trees);
    }
  }

  lemma ElementBefore(fl: Floats, e: ElementTree, es: seq<ElementTree>, q: string, acc: seq<Json>)
    requires ValidElement(fl, e) && es != [] && forall i :: 0 <= i < |es| ==> ValidElement(fl, es[i])
    ensures forall i :: 0 <= i < |[e] + es| ==> ValidElement(fl, ([e] + es)[i])
    ensures ElementsThen([e] + es, q) == ElementThen(e, "," + ElementsThen(es, q))
    ensures acc + ElementsValue(fl, [e] + es) == (acc + [TreeValue(fl, e.tree)]) + ElementsValue(fl, es)
  {
    assert ([e] + es)[1..] == es;
  }

  lemma OneElementTree(fl: Floats, e: ElementTree, q: string, acc: seq<Json>)
    ensures ElementsThen([e], q) == ElementThen(e, q) && acc + ElementsValue(fl, [e]) == acc + [TreeValue(fl, e.tree)]
  {
    assert [e][1..] == [];
  }

  /** What the loop of array found behind an element. */
  lemma ArrayTurn(fl: Floats, s: string, acc: seq<Json>, es: seq<Json>, q: string) returns (v: Json, next: string, more: string)
    requires ArrayLoop(fl, s, acc) == Ok(Parsed(es, q))
    ensures Element(fl, s) == Ok(Parsed(v, next)) && Separated(next) && |next| < |s|
    ensures next[0] == ']' ==> next == "]" + q && es == acc + [v]
    ensures next[0] != ']' ==> next == "," + more && ArrayLoop(fl, more, acc + [v]) == Ok(Parsed(es, q))
  {
    var p := Element(fl, s).value;
    v, next := p.value, p.rest;
    SkipWsTwice(ElementBody(fl, SkipWs(s)).value.rest);
    more := next[1..];
    assert next == [next[0]] + more;
  }

  lemma {:induction false} ElementTreesOf(fl: Floats, s: string, acc: seq<Json>, es: seq<Json>, q: string) returns (trees: seq<ElementTree>)
    requires Local(fl) && ArrayLoop(fl, s, acc) == Ok(Parsed(es, q))
    ensures trees != [] && forall i :: 0 <= i < |trees| ==> ValidElement(fl, trees[i])
    ensures s == ElementsThen(trees, "]" + q) && acc + ElementsValue(fl, trees) == es
    decreases |s|, 4
  {
    var v, next, more := ArrayTurn(fl, s, acc, es, q);
    var first := ElementTreeOf(fl, s, v, next);
    if next[0] == ']' {
      trees := [first];
      OneElementTree(fl, first, "]" + q, acc);
    } else {
      var others := ElementTreesOf(fl, more, acc + [v], es, q);
      trees := [first] + others;
      ElementBefore(fl, first, others, "]" + q, acc);
    }
  }

  // ----- The language -----

  /** Behind whitespace the value v is read, and rest is what stands behind it. */
  predicate ReadsValue(fl: Floats, s: string, v: Json, rest: string) {
    SkipWs(s) != "" && ElementBody(fl, SkipWs(s)) == Ok(Parsed(v, rest))
  }

  /** The text of the tree stands in front of rest, behind whitespace. */
  ghost predicate StartsWith(fl: Floats, s: string, v: Json, rest: string) {
    exists w, t :: AllWs(w) && Valid(fl, t) && TreeValue(fl, t) == v && s == w + TreeThen(t, rest)
  }

  /**
   * A text is read as a value, with rest left, if and only if it is whitespace, the text of
   * a tree of that value, and rest; a number must end at a separator, a bracket, whitespace or the end.
   */
  lemma ReadIffTree(fl: Floats, s: string, v: Json, rest: string)
    requires Local(fl) && (v.Number? ==> Stopped(rest))
    ensures ReadsValue(fl, s, v, rest) <==> StartsWith(fl, s, v, rest)
  {
    if ReadsValue(fl, s, v, rest) {
      var w := SkipWsSplit(s, SkipWs(s));
      var t := TreeOf(fl, SkipWs(s), v, rest);
    }
    if StartsWith(fl, s, v, rest) {
      var w, t :| AllWs(w) && Valid(fl, t) && TreeValue(fl, t) == v && s == w + TreeThen(t, rest);
      TreeStarts(fl, t, rest);
      SkipWsStops(w, TreeThen(t, rest));
      TreeReads(fl, t, rest);
    }
  }

  // ----- What the printer writes for a character -----

  /** The pieces of RFC 8259, which has no control characters but as escapes. */
  predicate InRfc(p: Piece) {
    ValidPiece(p) && (p.Plain? ==> p.c >= ' ')
  }

  /** A printed character is a piece that means it: itself, an escape of two characters, or one with lower-case digits. */
  lemma EscapedCharacter(c: char) returns (p: Piece)
    ensures InRfc(p) && PieceText(p) == EscapeChar(c) && PieceValue(p) == [c]
    ensures p.Unicode? ==> forall i :: 0 <= i < 4 ==> p.digits[i] in LowerDigits
  {
    if |EscapeChar(c)| == 1 {
      p := Plain(c);
    } else if |EscapeChar(c)| == 2 {
      p := Short(EscapeChar(c)[1]);
    } else {
      var high, low := c as int / 16, c as int % 16;
      p := Unicode(['0', '0', HexDigit(high), HexDigit(low)]);
      HexDigitIs(0);
      HexDigitIs(high);
      HexDigitIs(low);
      assert LowerDigits[0] == '0' && LowerDigits[high] == HexDigit(high) && LowerDigits[low] == HexDigit(low);
      HexFrom(p.digits, 0, 0, high, low);
    }
  }

  /** No shorter piece means it. */
  lemma EscapeIsShortest(c: char, p: Piece)
    requires InRfc(p) && PieceValue(p) == [c]
    ensures |EscapeChar(c)| <= |PieceText(p)|
  {
  }

  // ----- What stands behind -----

  lemma {:induction false} PiecesThenIs(ps: seq<Piece>, a: string, b: string)
    ensures PiecesThen(ps, a + b) == PiecesThen(ps, a) + b
  {
    if ps != [] {
      PiecesThenIs(ps[1..], a, b);
      Regroup(PieceText(ps[0]), PiecesThen(ps[1..], a), b);
    }
  }

  lemma StringThenIs(ps: seq<Piece>, a: string, b: string)
    ensures StringThen(ps, a + b) == StringThen(ps, a) + b
  {
    PiecesThenIs(ps, "\"" + a, b);
    Regroup("\"", a, b);
    Regroup("\"", PiecesThen(ps, "\"" + a), b);
  }

  lemma Between(a: string, b: string, c: string, d: string)
    ensures a + (b + (c + d)) == (a + (b + c)) + d
  {
  }

  /** The text of a tree in front of two texts is that in front of the first, and the second. */
  lemma {:induction false} TreeThenIs(t: Tree, a: string, b: string)
    ensures TreeThen(t, a + b) == TreeThen(t, a) + b
    decreases t
  {
    match t
    case NullTree => Regroup("null", a, b);
    case BoolTree(v) => Regroup(if v then "true" else "false", a, b);
    case NumberTree(text) => Regroup(text, a, b);
    case StringTree(ps) => StringThenIs(ps, a, b);
    case NoMembers(gap) => BracketsThen("{", gap, "}", a, b);
    case NoElements(gap) => BracketsThen("[", gap, "]", a, b);
    case SomeMembers(ms) =>
      MembersThenIs(ms, "}" + a, b);
      Regroup("}", a, b);
      Regroup("{", MembersThen(ms, "}" + a), b);
    case SomeElements(es) =>
      ElementsThenIs(es, "]" + a, b);
      Regroup("]", a, b);
      Regroup("[", ElementsThen(es, "]" + a), b);
  }

  lemma BracketsThen(open: string, gap: string, close: string, a: string, b: string)
    ensures open + (gap + (close + (a + b))) == (open + (gap + (close + a))) + b
  {
    Regroup(close, a, b);
    Between(open, gap, close + a, b);
  }

  lemma {:induction false} ElementThenIs(e: ElementTree, a: string, b: string)
    ensures ElementThen(e, a + b) == ElementThen(e, a) + b
    decreases e
  {
    Regroup(e.after, a, b);
    TreeThenIs(e.tree, e.after + a, b);
    Regroup(e.before, TreeThen(e.tree, e.after + a), b);
  }

  lemma {:induction false} MemberThenIs(m: MemberTree, a: string, b: string)
    ensures MemberThen(m, a + b) == MemberThen(m, a) + b
    decreases m
  {
    ElementThenIs(m.value, a, b);
    var value := ElementThen(m.value, a);
    Between(m.between, ":", value, b);
    StringThenIs(m.key, m.between + (":" + value), b);
    Regroup(m.before, StringThen(m.key, m.between + (":" + value)), b);
  }

  lemma {:induction false} MembersThenIs(ms: seq<MemberTree>, a: string, b: string)
    ensures MembersThen(ms, a + b) == MembersThen(ms, a) + b
    decreases ms
  {
    if |ms| == 1 {
      MemberThenIs(ms[0], a, b);
    } else if |ms| > 1 {
      MembersThenIs(ms[1..], a, b);
      Regroup(",", MembersThen(ms[1..], a), b);
      MemberThenIs(ms[0], "," + MembersThen(ms[1..], a), b);
    }
  }

  lemma {:induction false} ElementsThenIs(es: seq<ElementTree>, a: string, b: string)
    ensures ElementsThen(es, a + b) == ElementsThen(es, a) + b
    decreases es
  {
    if |es| == 1 {
      ElementThenIs(es[0], a, b);
    } else if |es| > 1 {
      ElementsThenIs(es[1..], a, b);
      Regroup(",", ElementsThen(es[1..], a), b);
      ElementThenIs(es[0], "," + ElementsThen(es[1..], a), b);
    }
  }
}

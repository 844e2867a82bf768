/** What the tokens keep of the source: all but whitespace, unless a lone '#' drops a character. */
module TokenizeRebuild {
  import opened Wrappers
  import opened TokenizeModel

  // ----- Two-character operators, by hash -----

  lemma CodeSmall(c: char)
    requires c < '\U{80}'
    ensures Code(c) < 128 && Code(c) as int == c as int
  {
    var b := Code(c);
    assert b as int == c as int;
  }

  lemma CharOf(c: char, b: bv32, d: char)
    requires c < '\U{80}' && Code(c) == b && b as int == d as int
    ensures c == d
  {
    CodeSmall(c);
  }

  lemma CodeIs(c: char, b: bv32)
    requires c < '\U{80}' && b as int == c as int
    ensures Code(c) == b
  {
    CodeSmall(c);
  }

  lemma HashOfTwo(a: char, b: char, x: bv32, y: bv32)
    requires a != '\0' && b != '\0' && x == Code(a) && y == Code(b)
    ensures Hash([a, b]) == Mix(Mix(5381, y), x)
  {
    assert [a, b][1..] == [b] && [b][1..] == "";
    assert Hash([b]) == Mix(Hash(""), y);
  }

  /** The pairs of ASCII codes with the hash of "->". */
  lemma ArrowCodes(x: bv32, y: bv32)
    requires x < 128 && y < 128 && Mix(Mix(5381, y), x) == ArrowHash
    ensures (x == 45 && y == 62) || (x == 12 && y == 63) || (x == 78 && y == 61) || (x == 111 && y == 60)
  {
  }

  lemma ArrowHashIs()
    ensures Hash("->") == ArrowHash
  {
    CodeIs('-', 45);
    CodeIs('>', 62);
    HashOfTwo('-', '>', 45, 62);
    assert "->" == ['-', '>'];
  }

  lemma TwoHash(a: char, b: char, x: bv32, y: bv32, h: bv32)
    requires a != '\0' && b != '\0' && a < '\U{80}' && b < '\U{80}' && x as int == a as int && y as int == b as int && h == Mix(Mix(5381, y), x)
    ensures Hash([a, b]) == h
  {
    CodeIs(a, x);
    CodeIs(b, y);
    HashOfTwo(a, b, x, y);
  }

  lemma OperatorHashes0()
    ensures forall k :: 0 <= k < 4 ==> Hash(TwoOperators[k]) == TwoOperatorHashes[k]
  {
    TwoHash('=', '=', 61, 61, 0x5968a5);
    TwoHash('!', '=', 33, 61, 0x5968b9);
    TwoHash('<', '=', 60, 61, 0x5968a4);
    TwoHash('>', '=', 62, 61, 0x5968a6);
  }

  lemma OperatorHashes4()
    ensures forall k :: 4 <= k < 8 ==> Hash(TwoOperators[k]) == TwoOperatorHashes[k]
  {
    TwoHash('&', '&', 38, 38, 0x5965c5);
    TwoHash('|', '|', 124, 124, 0x597085);
    TwoHash('+', '+', 43, 43, 0x596765);
    TwoHash('-', '-', 45, 45, 0x5966a5);
  }

  lemma OperatorHashes8()
    ensures forall k :: 8 <= k < 12 ==> Hash(TwoOperators[k]) == TwoOperatorHashes[k]
  {
    TwoHash('+', '=', 43, 61, 0x5968b3);
    TwoHash('-', '=', 45, 61, 0x5968b5);
    TwoHash('*', '=', 42, 61, 0x5968b2);
    TwoHash('/', '=', 47, 61, 0x5968b7);
  }

  lemma OperatorHashes12()
    ensures forall k :: 12 <= k < 16 ==> Hash(TwoOperators[k]) == TwoOperatorHashes[k]
  {
    TwoHash('%', '=', 37, 61, 0x5968bd);
    TwoHash('&', '=', 38, 61, 0x5968be);
    TwoHash('|', '=', 124, 61, 0x5968e4);
    TwoHash('^', '=', 94, 61, 0x5968c6);
  }

  lemma OperatorHashes16()
    ensures forall k :: 16 <= k < 19 ==> Hash(TwoOperators[k]) == TwoOperatorHashes[k]
  {
    TwoHash('~', '=', 126, 61, 0x5968e6);
    TwoHash('<', '<', 60, 60, 0x596885);
    TwoHash('>', '>', 62, 62, 0x5968c5);
  }

  /** The case labels are the hashes of the operators they are written for. */
  lemma TwoOperatorHashesAre()
    ensures |TwoOperators| == |TwoOperatorHashes| == 19
    ensures forall k :: 0 <= k < 19 ==> Hash(TwoOperators[k]) == TwoOperatorHashes[k]
  {
    OperatorHashes0();
    OperatorHashes4();
    OperatorHashes8();
    OperatorHashes12();
    OperatorHashes16();
  }

  lemma ArrowChars(a: char, b: char, x: bv32, y: bv32)
    requires a < '\U{80}' && b < '\U{80}' && x == Code(a) && y == Code(b)
    requires (x == 45 && y == 62) || (x == 12 && y == 63) || (x == 78 && y == 61) || (x == 111 && y == 60)
    ensures (a == '-' && b == '>') || a == '\U{c}' || a == 'N' || a == 'o'
  {
    if x == 45 {
      CharOf(a, 45, '-');
      CharOf(b, 62, '>');
    } else if x == 12 {
      CharOf(a, 12, '\U{c}');
    } else if x == 78 {
      CharOf(a, 78, 'N');
    } else {
      CharOf(a, 111, 'o');
    }
  }

  /** Where the operator branches are reached, the hash of "->" is the hash of "->" only. */
  lemma ArrowIsArrow(a: char, b: char)
    requires a < '\U{80}' && b < '\U{80}' && IsArrow([a, b]) && !IsSpace(a) && !IsIdentStart(a)
    ensures a == '-' && b == '>'
  {
    var x, y := Code(a), Code(b);
    ArrowPair(a, b, x, y);
    ArrowChars(a, b, x, y);
  }

  /** A NUL cuts the word short, and then the hash is too small. */
  lemma NulIsNoArrow(a: char, b: char, x: bv32)
    requires a < '\U{80}' && (a == '\0' || b == '\0') && x == Code(a)
    ensures !IsArrow([a, b])
  {
    CodeSmall(a);
    if a != '\0' {
      assert [a, b][1..] == [b];
      assert Hash([b]) == 5381;
      ShortHash(x);
    }
  }

  lemma ShortHash(x: bv32)
    requires x < 128
    ensures Mix(5381, x) != ArrowHash
  {
  }

  lemma ArrowPair(a: char, b: char, x: bv32, y: bv32)
    requires a < '\U{80}' && b < '\U{80}' && IsArrow([a, b]) && x == Code(a) && y == Code(b)
    ensures (x == 45 && y == 62) || (x == 12 && y == 63) || (x == 78 && y == 61) || (x == 111 && y == 60)
  {
    if a == '\0' || b == '\0' { NulIsNoArrow(a, b, x); }
    CodeSmall(a);
    CodeSmall(b);
    HashOfTwo(a, b, x, y);
    ArrowCodes(x, y);
  }

  // ----- One turn -----

  /** How many characters of a text are not whitespace. */
  function Visible(s: string): nat {
    if s == "" then 0 else (if IsSpace(s[0]) then 0 else 1) + Visible(s[1..])
  }

  lemma {:induction false} VisibleConcat(a: string, b: string)
    ensures Visible(a + b) == Visible(a) + Visible(b)
  {
    if a == "" {
      assert a + b == b;
    } else {
      assert (a + b)[1..] == a[1..] + b;
      VisibleConcat(a[1..], b);
    }
  }

  lemma {:induction false} SpacesInvisible(s: string)
    requires forall i :: 0 <= i < |s| ==> IsSpace(s[i])
    ensures Visible(s) == 0
  {
    if s != "" { SpacesInvisible(s[1..]); }
  }

  /** A '#' whose next character after whitespace starts no directive word: that character is dropped. */
  predicate Drops(src: string, pos: nat)
    requires pos < |src|
  {
    var p1 := While(src, pos + 1, IsSpace);
    src[pos] == '#' && p1 < |src| && !IsIdentStart(src[p1])
  }

  function End(src: string, pos: nat): (e: nat)
    requires pos < |src|
    ensures pos < e <= |src|
  {
    TurnAdvances(src, pos);
    var e := Turn(src, pos).1;
    if e < |src| then e else |src|
  }

  /** The value is a piece of the source at this position, not empty, and the token is not the end of file. */
  predicate IsPiece(src: string, pos: nat, t: Token) {
    && t.kind != Eof && t.value != "" && pos + |t.value| <= |src|
    && src[pos..pos + |t.value|] == t.value
  }

  lemma WhileStops(src: string, pos: nat, p: char -> bool)
    requires pos <= |src|
    ensures While(src, pos, p) == |src| || !p(src[While(src, pos, p)])
    decreases |src| - pos
  {
    if pos < |src| && p(src[pos]) { WhileStops(src, pos + 1, p); }
  }

  /** The token t stands at pos and the turn ends at last; behind the token is whitespace, and one more character if drop. */
  predicate Takes(src: string, pos: nat, t: Token, last: nat, drop: bool) {
    && IsPiece(src, pos, t) && pos + |t.value| <= last <= |src|
    && Visible(src[pos + |t.value|..last]) == if drop then 1 else 0
  }

  /** Whitespace after a '#', and then at most one character that is dropped. */
  lemma HashGap(src: string, from: nat, p1: nat)
    requires from <= p1 <= |src| && (forall i :: from <= i < p1 ==> IsSpace(src[i])) && (p1 < |src| ==> !IsSpace(src[p1]))
    ensures p1 == |src| ==> Visible(src[from..p1]) == 0
    ensures p1 < |src| ==> Visible(src[from..p1 + 1]) == 1
  {
    var gap := src[from..p1];
    SpacesInvisible(gap);
    if p1 < |src| {
      assert src[from..p1 + 1] == gap + [src[p1]];
      VisibleConcat(gap, [src[p1]]);
      assert [src[p1]][1..] == "";
    }
  }

  lemma SubTakes(src: string, pos: nat, e: nat, t: Token)
    requires pos < |src| && pos < e && t.kind != Eof && t.value == Sub(src, pos, e)
    ensures Takes(src, pos, t, if e < |src| then e else |src|, false)
  {
    var last := if e < |src| then e else |src|;
    assert src[last..last] == "";
  }

  lemma HashPiece(src: string, pos: nat)
    requires pos < |src| && src[pos] == '#'
    ensures var (t, e) := HashTurn(src, pos);
            Takes(src, pos, t, if e < |src| then e else |src|, Drops(src, pos))
  {
    var (t, e) := HashTurn(src, pos);
    var p1 := While(src, pos + 1, IsSpace);
    if CharAt(src, p1, IsIdentStart) {
      SubTakes(src, pos, e, t);
    } else {
      assert src[pos..pos + 1] == "#";
      WhileStops(src, pos + 1, IsSpace);
      HashGap(src, pos + 1, p1);
    }
  }

  lemma ArrowValue(src: string, pos: nat)
    requires pos + 1 < |src| && Ascii(src) && !IsSpace(src[pos]) && !IsIdentStart(src[pos]) && IsArrow(Two(src, pos))
    ensures src[pos..pos + 2] == "->"
  {
    assert Two(src, pos) == [src[pos], src[pos + 1]];
    ArrowIsArrow(src[pos], src[pos + 1]);
  }

  lemma OperatorPiece(src: string, pos: nat)
    requires pos < |src| && Ascii(src) && !IsSpace(src[pos]) && !IsIdentStart(src[pos])
    ensures var (t, e) := OperatorTurn(src, pos);
            IsPiece(src, pos, t) && e == pos + |t.value| <= |src|
  {
    if pos + 1 < |src| && IsArrow(Two(src, pos)) { ArrowValue(src, pos); }
  }

  /** The branches before the operators do not take the character. */
  predicate IsOperator(src: string, pos: nat)
    requires pos < |src|
  {
    var c := src[pos];
    var next := if pos + 1 < |src| then src[pos + 1] else '\0';
    && !IsSpace(c) && !(c == '/' && (next == '/' || next == '*')) && c != '"' && c != '\'' && c != '#'
    && !(IsDigit(c) || (c == '.' && IsDigit(next))) && !IsIdentStart(c)
  }

  /** Comments, literals, numbers, words and line breaks: the value is all the turn passes. */
  lemma PlainIsSub(src: string, pos: nat)
    requires pos < |src| && !IsOperator(src, pos) && src[pos] != '#' && Turn(src, pos).0.Some?
    ensures var (t, e) := Turn(src, pos);
            pos < e && t.value.kind != Eof && t.value.value == Sub(src, pos, e)
  {
    TurnAdvances(src, pos);
    if src[pos] == '\n' { assert src[pos..pos + 1] == "\n"; }
  }

  lemma OperatorIsTurn(src: string, pos: nat)
    requires pos < |src| && IsOperator(src, pos)
    ensures Turn(src, pos) == (Some(OperatorTurn(src, pos).0), OperatorTurn(src, pos).1)
  {
  }

  lemma OperatorTakes(src: string, pos: nat)
    requires pos < |src| && Ascii(src) && IsOperator(src, pos)
    ensures Turn(src, pos).0.Some? && Takes(src, pos, Turn(src, pos).0.value, End(src, pos), false)
  {
    OperatorPiece(src, pos);
    OperatorIsTurn(src, pos);
    var e := OperatorTurn(src, pos).1;
    assert src[e..e] == "";
  }

  /**
   * A turn without a token passes one whitespace character. A turn with one starts
   * its value at the position, and what it passes after the value is whitespace,
   * and one more character exactly when a lone '#' drops one.
   */
  lemma TurnTakes(src: string, pos: nat)
    requires pos < |src| && Ascii(src)
    ensures Turn(src, pos).0.None? ==> End(src, pos) == pos + 1 && IsSpace(src[pos]) && !Drops(src, pos)
    ensures Turn(src, pos).0.Some? ==> Takes(src, pos, Turn(src, pos).0.value, End(src, pos), Drops(src, pos))
  {
    if src[pos] == '#' {
      HashPiece(src, pos);
    } else if IsOperator(src, pos) {
      OperatorTakes(src, pos);
    } else if Turn(src, pos).0.Some? {
      PlainIsSub(src, pos);
      SubTakes(src, pos, Turn(src, pos).1, Turn(src, pos).0.value);
    }
  }

  // ----- The whole source -----

  /** How many characters lone '#' tokens drop from a position on. */
  function Dropped(src: string, pos: nat): nat
    decreases |src| - pos
  {
    if pos >= |src| then 0
    else
      TurnAdvances(src, pos);
      (if Drops(src, pos) then 1 else 0) + Dropped(src, Turn(src, pos).1)
  }

  function VisibleIn(tokens: seq<Token>): nat {
    if tokens == [] then 0 else Visible(tokens[0].value) + VisibleIn(tokens[1..])
  }

  lemma VisibleParts(src: string, pos: nat, m: nat, last: nat)
    requires pos <= m <= last <= |src|
    ensures Visible(src[pos..]) == Visible(src[pos..m]) + Visible(src[m..last]) + Visible(src[last..])
  {
    assert src[pos..] == src[pos..m] + src[m..];
    assert src[m..] == src[m..last] + src[last..];
    VisibleConcat(src[pos..m], src[m..]);
    VisibleConcat(src[m..last], src[last..]);
  }

  /** One turn of the tokens and of the count of dropped characters. */
  lemma LexTurn(src: string, pos: nat)
    requires pos < |src|
    ensures var (t, last) := (Turn(src, pos).0, End(src, pos));
            && Dropped(src, pos) == (if Drops(src, pos) then 1 else 0) + Dropped(src, last)
            && Lex(src, pos) == if t.None? then Lex(src, last) else [t.value] + Lex(src, last)
  {
    LexBeyond(src, Turn(src, pos).1);
  }

  lemma TakesConserves(src: string, pos: nat, t: Token, last: nat, drop: bool)
    requires Takes(src, pos, t, last, drop)
    ensures Visible(src[pos..]) == Visible(t.value) + (if drop then 1 else 0) + Visible(src[last..])
  {
    VisibleParts(src, pos, pos + |t.value|, last);
  }

  lemma SpaceConserves(src: string, pos: nat)
    requires pos < |src| && IsSpace(src[pos])
    ensures Visible(src[pos..]) == Visible(src[pos + 1..])
  {
    assert src[pos..][1..] == src[pos + 1..];
  }

  /** Conservation: every character that is not whitespace is in exactly one token or dropped after a lone '#'. */
  lemma {:induction false} LexConserves(src: string, pos: nat)
    requires Ascii(src) && pos <= |src|
    ensures Visible(src[pos..]) == VisibleIn(Lex(src, pos)) + Dropped(src, pos)
    decreases |src| - pos
  {
    if pos == |src| {
      EofInvisible();
    } else {
      var t, last := Turn(src, pos).0, End(src, pos);
      TurnTakes(src, pos);
      LexTurn(src, pos);
      LexConserves(src, last);
      if t.None? {
        SpaceConserves(src, pos);
      } else {
        TakesConserves(src, pos, t.value, last, Drops(src, pos));
        FirstVisible(t.value, Lex(src, last));
      }
    }
  }

  lemma FirstVisible(t: Token, tokens: seq<Token>)
    ensures VisibleIn([t] + tokens) == Visible(t.value) + VisibleIn(tokens)
  {
    assert ([t] + tokens)[1..] == tokens;
  }

  lemma EofInvisible()
    ensures VisibleIn([Token(Eof, "")]) == 0
  {
    assert [Token(Eof, "")][1..] == [];
  }

  /** A position past the end gives what the end gives. */
  lemma LexBeyond(src: string, e: nat)
    ensures var last := if e < |src| then e else |src|;
            Lex(src, e) == Lex(src, last) && Dropped(src, e) == Dropped(src, last)
  {
  }

  /** The text is the tokens' values in order with whitespace between them, and the end of file is the last token. */
  ghost predicate Rebuilds(text: string, tokens: seq<Token>)
    decreases |text|
  {
    || (text == "" && tokens == [Token(Eof, "")])
    || (text != "" && IsSpace(text[0]) && Rebuilds(text[1..], tokens))
    || (tokens != [] && IsPiece(text, 0, tokens[0]) && Rebuilds(text[|tokens[0].value|..], tokens[1..]))
  }

  lemma {:induction false} GapRebuilds(gap: string, text: string, tokens: seq<Token>)
    requires Visible(gap) == 0 && Rebuilds(text, tokens)
    ensures Rebuilds(gap + text, tokens)
  {
    if gap == "" {
      assert gap + text == text;
    } else {
      assert (gap + text)[1..] == gap[1..] + text;
      GapRebuilds(gap[1..], text, tokens);
    }
  }

  lemma PieceRebuilds(t: Token, gap: string, text: string, tokens: seq<Token>)
    requires t.kind != Eof && t.value != "" && Visible(gap) == 0 && Rebuilds(text, tokens)
    ensures Rebuilds(t.value + (gap + text), [t] + tokens)
  {
    GapRebuilds(gap, text, tokens);
    var all := t.value + (gap + text);
    assert all[..|t.value|] == t.value && all[|t.value|..] == gap + text;
    assert ([t] + tokens)[1..] == tokens;
  }

  lemma SourceParts(src: string, pos: nat, m: nat, last: nat)
    requires pos <= m <= last <= |src|
    ensures src[pos..] == src[pos..m] + (src[m..last] + src[last..])
  {
  }

  lemma {:induction false} LexRebuilds(src: string, pos: nat)
    requires Ascii(src) && pos <= |src| && Dropped(src, pos) == 0
    ensures Rebuilds(src[pos..], Lex(src, pos))
    decreases |src| - pos
  {
    if pos < |src| {
      var t, last := Turn(src, pos).0, End(src, pos);
      LexTurn(src, pos);
      LexRebuilds(src, last);
      TurnTakes(src, pos);
      if t.None? { SpaceRebuilds(src, pos, Lex(src, last)); } else { TokenRebuilds(src, pos, t.value, last, Lex(src, last)); }
    }
  }

  lemma SpaceRebuilds(src: string, pos: nat, tokens: seq<Token>)
    requires pos < |src| && IsSpace(src[pos]) && Rebuilds(src[pos + 1..], tokens)
    ensures Rebuilds(src[pos..], tokens)
  {
    assert src[pos..][1..] == src[pos + 1..];
  }

  lemma TokenRebuilds(src: string, pos: nat, t: Token, last: nat, tokens: seq<Token>)
    requires Takes(src, pos, t, last, false) && Rebuilds(src[last..], tokens)
    ensures Rebuilds(src[pos..], [t] + tokens)
  {
    var m := pos + |t.value|;
    SourceParts(src, pos, m, last);
    PieceRebuilds(t, src[m..last], src[last..], tokens);
  }

  lemma {:induction false} RebuildsConserves(text: string, tokens: seq<Token>)
    requires Rebuilds(text, tokens)
    ensures Visible(text) == VisibleIn(tokens)
    decreases |text|
  {
    if text == "" && tokens == [Token(Eof, "")] {
      EofInvisible();
    } else if text != "" && IsSpace(text[0]) && Rebuilds(text[1..], tokens) {
      RebuildsConserves(text[1..], tokens);
    } else {
      var v := tokens[0].value;
      assert text == v + text[|v|..];
      VisibleConcat(v, text[|v|..]);
      RebuildsConserves(text[|v|..], tokens[1..]);
    }
  }

  /**
   * For every ASCII source: tokens and whitespace rebuild it if and only if each '#' that
   * starts a token leads to a directive word, or to nothing but whitespace.
   */
  lemma TokensRebuildIff(src: string)
    requires Ascii(src)
    ensures Rebuilds(src, Lex(src, 0)) <==> Dropped(src, 0) == 0
  {
    assert src[0..] == src;
    if Dropped(src, 0) == 0 { LexRebuilds(src, 0); }
    LexConserves(src, 0);
    if Rebuilds(src, Lex(src, 0)) { RebuildsConserves(src, Lex(src, 0)); }
  }

  /** A turn of the loop starts at this place. */
  ghost predicate TurnStarts(src: string, pos: nat, place: nat)
    decreases |src| - pos
  {
    pos < |src| && (place == pos || TurnStarts(src, End(src, pos), place))
  }

  /** Characters are dropped exactly when some turn starts at a '#' that leads to no directive word. */
  lemma {:induction false} DroppedIffSomeDrops(src: string, pos: nat)
    ensures Dropped(src, pos) > 0 <==> exists place: nat :: place < |src| && TurnStarts(src, pos, place) && Drops(src, place)
    decreases |src| - pos
  {
    if pos < |src| {
      LexTurn(src, pos);
      DroppedIffSomeDrops(src, End(src, pos));
      if Drops(src, pos) { assert TurnStarts(src, pos, pos); }
      if Dropped(src, End(src, pos)) > 0 {
        var place: nat :| place < |src| && TurnStarts(src, End(src, pos), place) && Drops(src, place);
        assert TurnStarts(src, pos, place);
      }
    }
  }

  /** Exactly one end of file, and it is last. */
  predicate EofOnlyLast(ts: seq<Token>) {
    |ts| > 0 && ts[|ts| - 1] == Token(Eof, "") && forall i :: 0 <= i < |ts| - 1 ==> ts[i].kind != Eof
  }

  lemma EofStaysLast(t: Token, ts: seq<Token>)
    requires t.kind != Eof && EofOnlyLast(ts)
    ensures EofOnlyLast([t] + ts)
  {
  }

  lemma {:induction false} OneEofLast(src: string, pos: nat)
    requires Ascii(src)
    ensures EofOnlyLast(Lex(src, pos))
    decreases |src| - pos
  {
    if pos < |src| {
      TurnTakes(src, pos);
      LexTurn(src, pos);
      OneEofLast(src, End(src, pos));
      if Turn(src, pos).0.Some? { EofStaysLast(Turn(src, pos).0.value, Lex(src, End(src, pos))); }
    }
  }

  /** "##" comes out as one '#': the second is dropped. */
  lemma SecondHashDropped()
    ensures Lex("##", 0) == [Token(Operator, "#"), Token(Eof, "")] && !Rebuilds("##", Lex("##", 0))
  {
    var src := "##";
    assert While(src, 1, IsSpace) == 1;
    assert HashTurn(src, 0) == (Token(Operator, "#"), 2);
    assert Turn(src, 0) == (Some(Token(Operator, "#")), 2);
    assert Lex(src, 2) == [Token(Eof, "")];
    assert Drops(src, 0);
    assert Dropped(src, 0) >= 1;
    TokensRebuildIff(src);
  }

  lemma BracketHash()
    ensures IsTwoOperator("]=") && !IsArrow("]=")
  {
    TwoHash(']', '=', 93, 61, 0x5968c5);
    assert "]=" == [']', '='];
    assert TwoOperatorHashes[18] == 0x5968c5;
  }

  lemma TwoOperatorTurn(src: string)
    requires |src| == 2 && src != "<<" && src != ">>" && !IsArrow(src) && IsTwoOperator(src)
    ensures OperatorTurn(src, 0) == (Token(Operator, src), 2)
  {
    assert Two(src, 0) == src;
  }

  lemma OneTurn(src: string, t: Token)
    requires |src| == 2 && IsOperator(src, 0) && OperatorTurn(src, 0) == (t, 2)
    ensures Lex(src, 0) == [t, Token(Eof, "")]
  {
    OperatorIsTurn(src, 0);
    LexOne(src, t);
  }

  lemma LexOne(src: string, t: Token)
    requires |src| == 2 && Turn(src, 0) == (Some(t), 2)
    ensures Lex(src, 0) == [t, Token(Eof, "")]
  {
    LexTurn(src, 0);
    assert Lex(src, 2) == [Token(Eof, "")];
  }

  /** "]=" has the hash of ">>", so a closing bracket before an equals sign becomes one operator token. */
  lemma BracketEqualsIsOneOperator()
    ensures Lex("]=", 0) == [Token(Operator, "]="), Token(Eof, "")]
  {
    var src := "]=";
    BracketHash();
    assert src[0] == ']' && src[1] == '=';
    TwoOperatorTurn(src);
    OneTurn(src, Token(Operator, src));
  }
}

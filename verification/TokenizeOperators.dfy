/** Which two characters the tokenizer reads as one operator: it compares hashes, not strings. */
module TokenizeOperators {
  import opened Wrappers
  import opened TokenizeModel
  import opened TokenizeRebuild

  /** The ASCII pairs that are no operators but have the hash of one, where operators are read. */
  const Colliding := [
    "\U{4}<", "\U{7}'", "\U{7}<", "\U{e}<", "\U{13}s", "\U{1c}<", "\U{1c}?", "\U{1d}<", "\U{1d}=", "\U{1d}>",
    "\U{1f}<", "\U{1f}>", "\U{1f}?", "<?", "=>", ">?", "]<", "]=", "]>", "]}", "^>", "|<", "|?", "~>", "~?",
    "\U{7f}<", "\U{7f}?"]

  // ----- In character codes -----

  predicate WrittenCodes(x: bv32, y: bv32) {
    (x == 61 && y == 61) || (x == 33 && y == 61) || (x == 60 && y == 61) || (x == 62 && y == 61) ||
    (x == 38 && y == 38) || (x == 124 && y == 124) || (x == 43 && y == 43) || (x == 45 && y == 45) ||
    (x == 43 && y == 61) || (x == 45 && y == 61) || (x == 42 && y == 61) || (x == 47 && y == 61) ||
    (x == 37 && y == 61) || (x == 38 && y == 61) || (x == 124 && y == 61) || (x == 94 && y == 61) ||
    (x == 126 && y == 61) || (x == 60 && y == 60) || (x == 62 && y == 62)
  }

  predicate CollidingCodes(x: bv32, y: bv32) {
    (x == 4 && y == 60) || (x == 7 && y == 39) || (x == 7 && y == 60) || (x == 14 && y == 60) ||
    (x == 19 && y == 115) || (x == 28 && y == 60) || (x == 28 && y == 63) || (x == 29 && y == 60) ||
    (x == 29 && y == 61) || (x == 29 && y == 62) || (x == 31 && y == 60) || (x == 31 && y == 62) ||
    (x == 31 && y == 63) || (x == 60 && y == 63) || (x == 61 && y == 62) || (x == 62 && y == 63) ||
    (x == 93 && y == 60) || (x == 93 && y == 61) || (x == 93 && y == 62) || (x == 93 && y == 125) ||
    (x == 94 && y == 62) || (x == 124 && y == 60) || (x == 124 && y == 63) || (x == 126 && y == 62) ||
    (x == 126 && y == 63) || (x == 127 && y == 60) || (x == 127 && y == 63)
  }

  /** The codes of the characters that can start an operator. */
  predicate OperatorCode(x: bv32) {
    && 0 < x < 128 && x != 32 && !(9 <= x <= 13) && x != 34 && x != 35 && x != 39 && x != 95
    && !(48 <= x <= 57) && !(65 <= x <= 90) && !(97 <= x <= 122)
  }

  lemma HashListed(h: bv32)
    ensures h in TwoOperatorHashes <==>
            h == 0x5968a5 || h == 0x5968b9 || h == 0x5968a4 || h == 0x5968a6 || h == 0x5965c5 || h == 0x597085 ||
            h == 0x596765 || h == 0x5966a5 || h == 0x5968b3 || h == 0x5968b5 || h == 0x5968b2 || h == 0x5968b7 ||
            h == 0x5968bd || h == 0x5968be || h == 0x5968e4 || h == 0x5968c6 || h == 0x5968e6 || h == 0x596885 ||
            h == 0x5968c5
  {
    var hs := TwoOperatorHashes;
    assert hs[0] == 0x5968a5 && hs[1] == 0x5968b9 && hs[2] == 0x5968a4 && hs[3] == 0x5968a6 && hs[4] == 0x5965c5 &&
           hs[5] == 0x597085 && hs[6] == 0x596765 && hs[7] == 0x5966a5 && hs[8] == 0x5968b3 && hs[9] == 0x5968b5 &&
           hs[10] == 0x5968b2 && hs[11] == 0x5968b7 && hs[12] == 0x5968bd && hs[13] == 0x5968be && hs[14] == 0x5968e4 &&
           hs[15] == 0x5968c6 && hs[16] == 0x5968e6 && hs[17] == 0x596885 && hs[18] == 0x5968c5;
  }

  /** Solved over the codes: the operators and the colliding pairs, and no others. */
  lemma CodesWithHash(x: bv32, y: bv32, h: bv32)
    requires OperatorCode(x) && 0 < y < 128 && h == Mix(Mix(5381, y), x)
    ensures (h == 0x5968a5 || h == 0x5968b9 || h == 0x5968a4 || h == 0x5968a6 || h == 0x5965c5 || h == 0x597085 ||
             h == 0x596765 || h == 0x5966a5 || h == 0x5968b3 || h == 0x5968b5 || h == 0x5968b2 || h == 0x5968b7 ||
             h == 0x5968bd || h == 0x5968be || h == 0x5968e4 || h == 0x5968c6 || h == 0x5968e6 || h == 0x596885 ||
             h == 0x5968c5) <==>
            WrittenCodes(x, y) || CollidingCodes(x, y)
  {
  }

  // ----- In characters -----

  lemma CodeIff(c: char, k: char, b: bv32)
    requires c < '\U{80}' && k < '\U{80}' && b as int == k as int
    ensures c == k <==> Code(c) == b
  {
    if c == k { CodeIs(c, b); }
    if Code(c) == b { CharOf(c, b, k); }
  }

  lemma ControlCodes(c: char)
    requires c < '\U{80}'
    ensures (c == '\U{4}' <==> Code(c) == 4) && (c == '\U{7}' <==> Code(c) == 7) && (c == '\U{e}' <==> Code(c) == 14) &&
            (c == '\U{13}' <==> Code(c) == 19) && (c == '\U{1c}' <==> Code(c) == 28) &&
            (c == '\U{1d}' <==> Code(c) == 29) && (c == '\U{1f}' <==> Code(c) == 31) &&
            (c == '\U{7f}' <==> Code(c) == 127)
  {
    CodeIff(c, '\U{4}', 4);
    CodeIff(c, '\U{7}', 7);
    CodeIff(c, '\U{e}', 14);
    CodeIff(c, '\U{13}', 19);
    CodeIff(c, '\U{1c}', 28);
    CodeIff(c, '\U{1d}', 29);
    CodeIff(c, '\U{1f}', 31);
    CodeIff(c, '\U{7f}', 127);
  }

  lemma PunctuationCodes(c: char)
    requires c < '\U{80}'
    ensures (c == '!' <==> Code(c) == 33) && (c == '%' <==> Code(c) == 37) && (c == '&' <==> Code(c) == 38) &&
            (c == '*' <==> Code(c) == 42) && (c == '+' <==> Code(c) == 43) && (c == '-' <==> Code(c) == 45) &&
            (c == '/' <==> Code(c) == 47) && (c == '<' <==> Code(c) == 60) && (c == '=' <==> Code(c) == 61) &&
            (c == '>' <==> Code(c) == 62) && (c == ']' <==> Code(c) == 93) && (c == '^' <==> Code(c) == 94) &&
            (c == '|' <==> Code(c) == 124) && (c == '~' <==> Code(c) == 126)
  {
    CodeIff(c, '!', 33);
    CodeIff(c, '%', 37);
    CodeIff(c, '&', 38);
    CodeIff(c, '*', 42);
    CodeIff(c, '+', 43);
    CodeIff(c, '-', 45);
    CodeIff(c, '/', 47);
    CodeIff(c, '<', 60);
    CodeIff(c, '=', 61);
    CodeIff(c, '>', 62);
    CodeIff(c, ']', 93);
    CodeIff(c, '^', 94);
    CodeIff(c, '|', 124);
    CodeIff(c, '~', 126);
  }

  lemma SecondCodes(c: char)
    requires c < '\U{80}'
    ensures (c == '&' <==> Code(c) == 38) && (c == '\'' <==> Code(c) == 39) && (c == '+' <==> Code(c) == 43) &&
            (c == '-' <==> Code(c) == 45) && (c == '<' <==> Code(c) == 60) && (c == '=' <==> Code(c) == 61) &&
            (c == '>' <==> Code(c) == 62) && (c == '?' <==> Code(c) == 63) && (c == 's' <==> Code(c) == 115) &&
            (c == '|' <==> Code(c) == 124) && (c == '}' <==> Code(c) == 125)
  {
    CodeIff(c, '&', 38);
    CodeIff(c, '\'', 39);
    CodeIff(c, '+', 43);
    CodeIff(c, '-', 45);
    CodeIff(c, '<', 60);
    CodeIff(c, '=', 61);
    CodeIff(c, '>', 62);
    CodeIff(c, '?', 63);
    CodeIff(c, 's', 115);
    CodeIff(c, '|', 124);
    CodeIff(c, '}', 125);
  }

  lemma WrittenChars(a: char, b: char)
    ensures [a, b] in TwoOperators <==>
            (a == '=' && b == '=') || (a == '!' && b == '=') || (a == '<' && b == '=') || (a == '>' && b == '=') ||
            (a == '&' && b == '&') || (a == '|' && b == '|') || (a == '+' && b == '+') || (a == '-' && b == '-') ||
            (a == '+' && b == '=') || (a == '-' && b == '=') || (a == '*' && b == '=') || (a == '/' && b == '=') ||
            (a == '%' && b == '=') || (a == '&' && b == '=') || (a == '|' && b == '=') || (a == '^' && b == '=') ||
            (a == '~' && b == '=') || (a == '<' && b == '<') || (a == '>' && b == '>')
  {
    var ops := TwoOperators;
    assert ops[0] == "==" && ops[1] == "!=" && ops[2] == "<=" && ops[3] == ">=" && ops[4] == "&&" && ops[5] == "||" &&
           ops[6] == "++" && ops[7] == "--" && ops[8] == "+=" && ops[9] == "-=" && ops[10] == "*=" && ops[11] == "/=" &&
           ops[12] == "%=" && ops[13] == "&=" && ops[14] == "|=" && ops[15] == "^=" && ops[16] == "~=" &&
           ops[17] == "<<" && ops[18] == ">>";
  }

  lemma CollidingChars(a: char, b: char)
    ensures [a, b] in Colliding <==>
            (a == '\U{4}' && b == '<') || (a == '\U{7}' && b == '\'') || (a == '\U{7}' && b == '<') ||
            (a == '\U{e}' && b == '<') || (a == '\U{13}' && b == 's') || (a == '\U{1c}' && b == '<') ||
            (a == '\U{1c}' && b == '?') || (a == '\U{1d}' && b == '<') || (a == '\U{1d}' && b == '=') ||
            (a == '\U{1d}' && b == '>') || (a == '\U{1f}' && b == '<') || (a == '\U{1f}' && b == '>') ||
            (a == '\U{1f}' && b == '?') || (a == '<' && b == '?') || (a == '=' && b == '>') || (a == '>' && b == '?') ||
            (a == ']' && b == '<') || (a == ']' && b == '=') || (a == ']' && b == '>') || (a == ']' && b == '}') ||
            (a == '^' && b == '>') || (a == '|' && b == '<') || (a == '|' && b == '?') || (a == '~' && b == '>') ||
            (a == '~' && b == '?') || (a == '\U{7f}' && b == '<') || (a == '\U{7f}' && b == '?')
  {
    var ps := Colliding;
    assert ps[0] == "\U{4}<" && ps[1] == "\U{7}'" && ps[2] == "\U{7}<" && ps[3] == "\U{e}<" && ps[4] == "\U{13}s" &&
           ps[5] == "\U{1c}<" && ps[6] == "\U{1c}?" && ps[7] == "\U{1d}<" && ps[8] == "\U{1d}=" && ps[9] == "\U{1d}>" &&
           ps[10] == "\U{1f}<" && ps[11] == "\U{1f}>" && ps[12] == "\U{1f}?" && ps[13] == "<?" && ps[14] == "=>" &&
           ps[15] == ">?" && ps[16] == "]<" && ps[17] == "]=" && ps[18] == "]>" && ps[19] == "]}" && ps[20] == "^>" &&
           ps[21] == "|<" && ps[22] == "|?" && ps[23] == "~>" && ps[24] == "~?" && ps[25] == "\U{7f}<" &&
           ps[26] == "\U{7f}?";
  }

  lemma Written(a: char, b: char)
    requires a < '\U{80}' && b < '\U{80}'
    ensures [a, b] in TwoOperators <==> WrittenCodes(Code(a), Code(b))
  {
    WrittenChars(a, b);
    PunctuationCodes(a);
    SecondCodes(b);
  }

  lemma Collides(a: char, b: char)
    requires a < '\U{80}' && b < '\U{80}'
    ensures [a, b] in Colliding <==> CollidingCodes(Code(a), Code(b))
  {
    CollidingChars(a, b);
    ControlCodes(a);
    PunctuationCodes(a);
    SecondCodes(b);
  }

  /** A NUL cuts the word short, and then the hash is none of the operators'. */
  lemma NulIsNoOperator(a: char, b: char)
    requires a < '\U{80}' && (a == '\0' || b == '\0')
    ensures !IsTwoOperator([a, b]) && [a, b] !in TwoOperators && [a, b] !in Colliding
  {
    WrittenChars(a, b);
    CollidingChars(a, b);
    CodeSmall(a);
    var h := Hash([a, b]);
    HashListed(h);
    if a == '\0' {
      assert h == 5381;
    } else {
      assert [a, b][1..] == [b] && Hash([b]) == 5381;
      ShortHashes(Code(a));
    }
  }

  lemma ShortHashes(x: bv32)
    requires x < 128
    ensures Mix(5381, x) < 0x100000
  {
  }

  /** The character can start an operator. */
  predicate StartsOperator(a: char) {
    !IsSpace(a) && !IsIdentStart(a) && !IsDigit(a) && a != '"' && a != '\'' && a != '#'
  }

  lemma StartCode(a: char)
    requires a < '\U{80}' && a != '\0' && StartsOperator(a)
    ensures OperatorCode(Code(a))
  {
    CodeSmall(a);
    CodeOrder(Code(a));
  }

  lemma CodeOrder(x: bv32)
    requires x < 128
    ensures OperatorCode(x) <==>
            var n := x as int;
            && 0 < n && n != 32 && !(9 <= n <= 13) && n != 34 && n != 35 && n != 39 && n != 95
            && !(48 <= n <= 57) && !(65 <= n <= 90) && !(97 <= n <= 122)
  {
  }

  /** Two ASCII characters are read as an operator if and only if they are one, or one of the colliding pairs. */
  lemma TwoOperatorIff(a: char, b: char)
    requires a < '\U{80}' && b < '\U{80}' && StartsOperator(a)
    ensures IsTwoOperator([a, b]) <==> [a, b] in TwoOperators || [a, b] in Colliding
  {
    if a == '\0' || b == '\0' {
      NulIsNoOperator(a, b);
    } else {
      var x, y := Code(a), Code(b);
      StartCode(a);
      CodeSmall(b);
      HashOfTwo(a, b, x, y);
      HashListed(Hash([a, b]));
      PositiveCode(y);
      CodesWithHash(x, y, Hash([a, b]));
      Written(a, b);
      Collides(a, b);
    }
  }

  lemma PositiveCode(y: bv32)
    requires y as int > 0
    ensures y > 0
  {
  }

  // ----- In tokens -----

  lemma CollidingIsNothingElse(a: char, b: char)
    requires [a, b] in Colliding
    ensures [a, b] !in TwoOperators && [a, b] != "->" && StartsOperator(a) && a != '/' && a != '.' && a < '\U{80}' && b < '\U{80}'
  {
    CollidingChars(a, b);
    WrittenChars(a, b);
  }

  lemma OperatorStarts(src: string, pos: nat)
    requires pos + 1 < |src| && Ascii(src) && IsOperator(src, pos)
    ensures Two(src, pos) == [src[pos], src[pos + 1]] && StartsOperator(src[pos])
    ensures IsTwoOperator(Two(src, pos)) <==> Two(src, pos) in TwoOperators || Two(src, pos) in Colliding
    ensures IsArrow(Two(src, pos)) ==> Two(src, pos) == "->"
    ensures Two(src, pos) in Colliding ==> Two(src, pos) !in TwoOperators && Two(src, pos) != "->"
  {
    if IsArrow(Two(src, pos)) { ArrowValue(src, pos); }
    PairIs(src[pos], src[pos + 1], Two(src, pos));
  }

  lemma PairIs(a: char, b: char, two: string)
    requires a < '\U{80}' && b < '\U{80}' && StartsOperator(a) && two == [a, b]
    ensures IsTwoOperator(two) <==> two in TwoOperators || two in Colliding
    ensures two in Colliding ==> two !in TwoOperators && two != "->"
  {
    TwoOperatorIff(a, b);
    if two in Colliding { CollidingIsNothingElse(a, b); }
  }

  /** The token of a two-character operator that C does not have. */
  predicate WrongOperator(t: Token) {
    t.kind == Operator && |t.value| == 2 && t.value !in TwoOperators
  }

  /** A colliding pair stands where operators are read. */
  predicate CollisionAt(src: string, pos: nat) {
    pos + 1 < |src| && IsOperator(src, pos) && Two(src, pos) in Colliding
  }

  lemma ShiftsAreOperators()
    ensures "<<" in TwoOperators && ">>" in TwoOperators
  {
    assert "<<" == TwoOperators[17] && ">>" == TwoOperators[18];
  }

  /** What the operator branches make of a pair that is one operator, a colliding pair, the arrow or none of them. */
  lemma OperatorTurnIs(src: string, pos: nat)
    requires pos + 1 < |src| && |Two(src, pos)| == 2
    requires IsArrow(Two(src, pos)) ==> Two(src, pos) == "->"
    ensures IsArrow(Two(src, pos)) ==> OperatorTurn(src, pos).0.kind == Arrow
    ensures !IsArrow(Two(src, pos)) && IsTwoOperator(Two(src, pos)) ==>
              || OperatorTurn(src, pos).0 == Token(Operator, Two(src, pos))
              || ((Two(src, pos) == "<<" || Two(src, pos) == ">>") && |OperatorTurn(src, pos).0.value| == 3)
    ensures !IsArrow(Two(src, pos)) && !IsTwoOperator(Two(src, pos)) ==> |OperatorTurn(src, pos).0.value| == 1
  {
  }

  lemma OperatorTurnWrongIff(src: string, pos: nat)
    requires pos < |src| && Ascii(src) && IsOperator(src, pos)
    ensures WrongOperator(OperatorTurn(src, pos).0) <==> CollisionAt(src, pos)
  {
    if pos + 1 < |src| {
      OperatorStarts(src, pos);
      OperatorTurnIs(src, pos);
      ShiftsAreOperators();
    }
  }

  /** A turn yields a wrong operator if and only if it starts at a colliding pair. */
  lemma TurnWrongIff(src: string, pos: nat)
    requires pos < |src| && Ascii(src)
    ensures Turn(src, pos).0.Some? && WrongOperator(Turn(src, pos).0.value) <==> CollisionAt(src, pos)
  {
    if IsOperator(src, pos) {
      OperatorTurnWrongIff(src, pos);
      OperatorIsTurn(src, pos);
    } else {
      OtherTurns(src, pos);
    }
  }

  lemma OtherTurns(src: string, pos: nat)
    requires pos < |src| && !IsOperator(src, pos)
    ensures Turn(src, pos).0.Some? ==> Turn(src, pos).0.value.kind != Operator || Turn(src, pos).0.value.value == "#"
  {
  }

  /**
   * For every ASCII source: each two-character operator among its tokens is an operator
   * of C if and only if no turn of the loop starts at a colliding pair.
   */
  lemma {:induction false} OperatorsAreOperatorsIff(src: string, pos: nat)
    requires Ascii(src)
    ensures (forall i :: 0 <= i < |Lex(src, pos)| ==> !WrongOperator(Lex(src, pos)[i])) <==>
            (forall place: nat :: TurnStarts(src, pos, place) ==> !CollisionAt(src, place))
    decreases |src| - pos
  {
    if pos < |src| {
      var t, last := Turn(src, pos).0, End(src, pos);
      TurnWrongIff(src, pos);
      LexTurn(src, pos);
      OperatorsAreOperatorsIff(src, last);
      StartsSplit(src, pos);
      if t.Some? { TokensSplit(t.value, Lex(src, last)); }
    } else {
      assert !WrongOperator(Token(Eof, ""));
    }
  }

  lemma StartsSplit(src: string, pos: nat)
    requires pos < |src|
    ensures (forall place: nat :: TurnStarts(src, pos, place) ==> !CollisionAt(src, place)) <==>
            !CollisionAt(src, pos) && (forall place: nat :: TurnStarts(src, End(src, pos), place) ==> !CollisionAt(src, place))
  {
    if forall place: nat :: TurnStarts(src, pos, place) ==> !CollisionAt(src, place) {
      assert TurnStarts(src, pos, pos);
      forall place: nat | TurnStarts(src, End(src, pos), place) ensures !CollisionAt(src, place) {
        assert TurnStarts(src, pos, place);
      }
    }
  }

  lemma TokensSplit(t: Token, ts: seq<Token>)
    ensures (forall i :: 0 <= i < |[t] + ts| ==> !WrongOperator(([t] + ts)[i])) <==>
            !WrongOperator(t) && (forall i :: 0 <= i < |ts| ==> !WrongOperator(ts[i]))
  {
    var all := [t] + ts;
    assert all[0] == t && all[1..] == ts;
    if (forall i :: 0 <= i < |all| ==> !WrongOperator(all[i])) {
      forall i | 0 <= i < |ts| ensures !WrongOperator(ts[i]) {
        assert ts[i] == all[i + 1];
      }
    }
  }
}

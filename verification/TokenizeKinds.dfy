/** The kind of each token, and where it ends, from the characters alone. */
module TokenizeKinds {
  import opened Wrappers
  import opened TokenizeModel
  import opened TokenizeRebuild
  import opened TokenizeOperators

  // ----- Kinds -----

  /** The punctuators of C that have a kind of their own. */
  function Punctuator(v: string): Option<Kind> {
    match v
    case "{" => Some(LBrace)
    case "}" => Some(RBrace)
    case "(" => Some(LParen)
    case ")" => Some(RParen)
    case "[" => Some(LBracket)
    case "]" => Some(RBracket)
    case ";" => Some(Semicolon)
    case "," => Some(Comma)
    case ":" => Some(Colon)
    case "?" => Some(Question)
    case "." => Some(Dot)
    case "->" => Some(Arrow)
    case _ => None
  }

  function Unspaced(s: string): string {
    if s != "" && IsSpace(s[0]) then Unspaced(s[1..]) else s
  }

  /** The identifier that a text starts with. */
  function LeadingWord(s: string): string {
    if s != "" && IsIdentContinue(s[0]) then [s[0]] + LeadingWord(s[1..]) else ""
  }

  /** A directive's kind is that of the word behind its '#'. */
  function DirectiveKind(v: string): Kind
    requires v != ""
  {
    var word := LeadingWord(Unspaced(v[1..]));
    if word == "include" then PpInclude else if word == "define" then PpDefine else PpOther
  }

  /** The kind that a token's text has. */
  function KindOf(v: string): Kind {
    if v == "" then Eof
    else if v == "\n" then NewLine
    else if |v| > 1 && v[0] == '/' && v[1] == '/' then LineComment
    else if |v| > 1 && v[0] == '/' && v[1] == '*' then BlockComment
    else if v[0] == '"' then StringLit
    else if v[0] == '\'' then CharLit
    else if IsDigit(v[0]) || (v[0] == '.' && |v| > 1 && IsDigit(v[1])) then Number
    else if IsIdentStart(v[0]) then WordKind(v, 0)
    else if v[0] == '#' && |v| > 1 then DirectiveKind(v)
    else if Punctuator(v).Some? then Punctuator(v).value
    else Operator
  }

  lemma SubStarts(src: string, pos: nat, e: nat)
    requires pos < e && pos < |src|
    ensures var v := Sub(src, pos, e);
            v != "" && v[0] == src[pos] && (pos + 1 < |src| && pos + 2 <= e <==> |v| > 1) && (|v| > 1 ==> v[1] == src[pos + 1])
  {
  }

  lemma {:induction false} WordLeads(w: string, rest: string)
    requires (forall i :: 0 <= i < |w| ==> IsIdentContinue(w[i])) && (rest == "" || !IsIdentContinue(rest[0]))
    ensures LeadingWord(w + rest) == w
  {
    if w == "" {
      assert w + rest == rest;
    } else {
      assert (w + rest)[1..] == w[1..] + rest;
      WordLeads(w[1..], rest);
    }
  }

  lemma {:induction false} SpacesDrop(gap: string, rest: string)
    requires (forall i :: 0 <= i < |gap| ==> IsSpace(gap[i])) && (rest == "" || !IsSpace(rest[0]))
    ensures Unspaced(gap + rest) == rest
  {
    if gap == "" {
      assert gap + rest == rest;
    } else {
      assert (gap + rest)[1..] == gap[1..] + rest;
      SpacesDrop(gap[1..], rest);
    }
  }

  /** A directive's text: the '#', whitespace, a word that ends, and the rest of the line. */
  lemma DirectiveParts(src: string, pos: nat, p1: nat, p2: nat, e: nat)
    requires pos < p1 < p2 <= e <= |src|
    ensures src[pos..e][1..] == src[pos + 1..p1] + (src[p1..p2] + src[p2..e])
  {
  }

  lemma DirectiveKindIs(src: string, pos: nat, p1: nat, p2: nat, e: nat)
    requires pos < p1 < p2 <= e <= |src|
    requires forall i :: pos < i < p1 ==> IsSpace(src[i])
    requires forall i :: p1 <= i < p2 ==> IsIdentContinue(src[i])
    requires !IsSpace(src[p1]) && (p2 < |src| ==> !IsIdentContinue(src[p2]))
    ensures var word := src[p1..p2];
            DirectiveKind(src[pos..e]) == if word == "include" then PpInclude else if word == "define" then PpDefine else PpOther
  {
    DirectiveParts(src, pos, p1, p2, e);
    SpacesDrop(src[pos + 1..p1], src[p1..p2] + src[p2..e]);
    WordLeads(src[p1..p2], src[p2..e]);
  }

  lemma HashKind(src: string, pos: nat)
    requires pos < |src| && src[pos] == '#'
    ensures HashTurn(src, pos).0.kind == KindOf(HashTurn(src, pos).0.value)
  {
    var p1 := While(src, pos + 1, IsSpace);
    if CharAt(src, p1, IsIdentStart) {
      var p2 := While(src, p1, IsIdentContinue);
      WhileStops(src, p1, IsIdentContinue);
      assert p2 > p1;
      DirectiveKindIs(src, pos, p1, p2, DirectiveEnd(src, p2));
    }
  }

  lemma NumberHasDigit(src: string, pos: nat)
    requires pos + 1 < |src| && src[pos] == '.' && IsDigit(src[pos + 1])
    ensures NumberEnd(src, pos) >= pos + 2
  {
    assert While(src, pos + 1, IsDigit) >= pos + 2;
  }

  predicate StartsComment(src: string, pos: nat) {
    pos + 1 < |src| && src[pos] == '/' && (src[pos + 1] == '/' || src[pos + 1] == '*')
  }

  predicate StartsNumber(src: string, pos: nat) {
    pos < |src| && (IsDigit(src[pos]) || (src[pos] == '.' && pos + 1 < |src| && IsDigit(src[pos + 1])))
  }

  lemma CommentKind(src: string, pos: nat)
    requires StartsComment(src, pos)
    ensures Turn(src, pos).0.Some? && Turn(src, pos).0.value.kind == KindOf(Turn(src, pos).0.value.value)
  {
    SubStarts(src, pos, Turn(src, pos).1);
  }

  lemma QuoteKind(src: string, pos: nat)
    requires pos < |src| && (src[pos] == '"' || src[pos] == '\'')
    ensures Turn(src, pos).0.Some? && Turn(src, pos).0.value.kind == KindOf(Turn(src, pos).0.value.value)
  {
    SubStarts(src, pos, Turn(src, pos).1);
  }

  lemma NumberKind(src: string, pos: nat)
    requires StartsNumber(src, pos)
    ensures Turn(src, pos).0.Some? && Turn(src, pos).0.value.kind == KindOf(Turn(src, pos).0.value.value)
  {
    assert Turn(src, pos) == (Some(Token(Number, Sub(src, pos, NumberEnd(src, pos)))), NumberEnd(src, pos));
    SubStarts(src, pos, NumberEnd(src, pos));
    if src[pos] == '.' { NumberHasDigit(src, pos); }
  }

  /** The character starts nothing but a word. */
  predicate StartsWord(c: char) {
    c != '\n' && c != '/' && c != '"' && c != '\'' && c != '.' && !IsDigit(c) && IsIdentStart(c)
  }

  lemma WordText(v: string)
    requires v != "" && StartsWord(v[0])
    ensures KindOf(v) == WordKind(v, 0)
  {
    assert v != "\n";
  }

  lemma WordTurnIs(src: string, pos: nat, e: nat, v: string)
    requires pos < |src| && StartsWord(src[pos]) && e == While(src, pos + 1, IsIdentContinue) && v == src[pos..e]
    ensures Turn(src, pos) == (Some(Token(WordKind(v, 0), v)), e)
  {
    assert Sub(src, pos, e) == v && !IsSpace(src[pos]) && src[pos] != '\r';
  }

  lemma WordTurnKind(src: string, pos: nat)
    requires pos < |src| && IsIdentStart(src[pos])
    ensures Turn(src, pos).0.Some? && Turn(src, pos).0.value.kind == KindOf(Turn(src, pos).0.value.value)
  {
    var e := While(src, pos + 1, IsIdentContinue);
    WordTurnIs(src, pos, e, src[pos..e]);
    WordText(src[pos..e]);
  }

  lemma BreakOrSpace(src: string, pos: nat)
    requires pos < |src| && IsSpace(src[pos])
    ensures Turn(src, pos) == (if src[pos] == '\n' then Some(Token(NewLine, "\n")) else None, pos + 1)
  {
  }

  /** Line breaks, comments, literals, numbers and words. */
  lemma PlainKind(src: string, pos: nat)
    requires pos < |src| && !IsOperator(src, pos) && src[pos] != '#' && Turn(src, pos).0.Some?
    ensures Turn(src, pos).0.value.kind == KindOf(Turn(src, pos).0.value.value)
  {
    if IsSpace(src[pos]) { BreakOrSpace(src, pos); }
    else if StartsComment(src, pos) { CommentKind(src, pos); }
    else if StartsNumber(src, pos) { NumberKind(src, pos); }
    else if IsIdentStart(src[pos]) { WordTurnKind(src, pos); }
    else { QuoteKind(src, pos); }
  }

  /** Two characters where operators are read are never the start of a comment, a number or a directive. */
  lemma OperatorKindOf(src: string, pos: nat, v: string)
    requires pos < |src| && IsOperator(src, pos)
    requires v != "" && pos + |v| <= |src| && v == src[pos..pos + |v|]
    ensures KindOf(v) == if Punctuator(v).Some? then Punctuator(v).value else Operator
  {
    assert v[0] == src[pos] && (|v| > 1 ==> v[1] == src[pos + 1]);
  }

  lemma SingleIsPunctuator(c: char)
    ensures SingleKind(c) == if Punctuator([c]).Some? then Punctuator([c]).value else Operator
  {
  }

  lemma LongIsNoPunctuator(v: string)
    requires |v| > 1 && v != "->"
    ensures Punctuator(v) == None
  {
  }

  lemma OperatorKind(src: string, pos: nat)
    requires pos < |src| && Ascii(src) && IsOperator(src, pos)
    ensures OperatorTurn(src, pos).0.kind == KindOf(OperatorTurn(src, pos).0.value)
  {
    var (t, e) := OperatorTurn(src, pos);
    OperatorPiece(src, pos);
    OperatorKindOf(src, pos, t.value);
    if |t.value| == 1 {
      SingleIsPunctuator(src[pos]);
    } else if t.value != "->" {
      LongIsNoPunctuator(t.value);
    } else {
      ArrowHashIs();
      assert Two(src, pos) == "->";
    }
  }

  /** The token of each turn has the kind that its text has. */
  lemma TurnKind(src: string, pos: nat)
    requires pos < |src| && Ascii(src) && Turn(src, pos).0.Some?
    ensures Turn(src, pos).0.value.kind == KindOf(Turn(src, pos).0.value.value)
  {
    if IsOperator(src, pos) {
      OperatorKind(src, pos);
      OperatorIsTurn(src, pos);
    } else if src[pos] == '#' {
      HashKind(src, pos);
    } else {
      PlainKind(src, pos);
    }
  }

  /** Every token of every ASCII source has the kind that its text has. */
  lemma {:induction false} KindsFollowText(src: string, pos: nat)
    requires Ascii(src)
    ensures forall i :: 0 <= i < |Lex(src, pos)| ==> Lex(src, pos)[i].kind == KindOf(Lex(src, pos)[i].value)
    decreases |src| - pos
  {
    if pos < |src| {
      LexTurn(src, pos);
      KindsFollowText(src, End(src, pos));
      if Turn(src, pos).0.Some? { TurnKind(src, pos); }
    }
  }

  // ----- Where tokens end -----

  /** The characters of each class, one by one. */
  lemma ClassesAre(c: char)
    ensures IsSpace(c) <==> c in " \t\n\U{b}\U{c}\r"
    ensures IsDigit(c) <==> c in "0123456789"
    ensures IsHexDigit(c) <==> c in "0123456789abcdefABCDEF"
    ensures IsHexSuffix(c) <==> c in "uUlL"
    ensures IsSuffix(c) <==> c in "uUlLfF"
    ensures IsIdentStart(c) <==> 0x41 <= c as int <= 0x5A || c as int == 0x5F || 0x61 <= c as int <= 0x7A
    ensures IsIdentContinue(c) <==> IsIdentStart(c) || IsDigit(c)
  {
  }

  /** The characters from p up to e are of this kind, and what follows, if anything, is not. */
  predicate RunOf(src: string, p: nat, e: nat, kind: char -> bool) {
    p <= e <= |src| && (forall i :: p <= i < e ==> kind(src[i])) && (e < |src| ==> !kind(src[e]))
  }

  lemma WhileIff(src: string, p: nat, kind: char -> bool, e: nat)
    requires p <= |src|
    ensures While(src, p, kind) == e <==> RunOf(src, p, e, kind)
  {
    WhileStops(src, p, kind);
    var w := While(src, p, kind);
    assert e < w && p <= e ==> kind(src[e]);
  }

  predicate HexPrefix(src: string, pos: nat) {
    pos + 1 < |src| && src[pos] == '0' && (src[pos + 1] == 'x' || src[pos + 1] == 'X')
  }

  /** '0', 'x', hex digits and a suffix of u and l, each part as long as it can be. */
  ghost predicate HexNumber(src: string, pos: nat, e: nat) {
    exists p :: HexParts(src, pos, p, e)
  }

  predicate HexParts(src: string, pos: nat, p: nat, e: nat) {
    RunOf(src, pos + 2, p, IsHexDigit) && RunOf(src, p, e, IsHexSuffix)
  }

  /** From p to q a '.' and digits if there is a '.', and nothing otherwise. */
  predicate Fraction(src: string, p: nat, q: nat) {
    if p < |src| && src[p] == '.' then RunOf(src, p + 1, q, IsDigit) else q == p
  }

  predicate IsSign(c: char) {
    c == '+' || c == '-'
  }

  /** From p to q an 'e', a sign if there is one, and digits; nothing without the 'e'. */
  predicate Exponent(src: string, p: nat, q: nat) {
    if p < |src| && (src[p] == 'e' || src[p] == 'E') then
      (if p + 1 < |src| && IsSign(src[p + 1]) then RunOf(src, p + 2, q, IsDigit) else RunOf(src, p + 1, q, IsDigit))
    else q == p
  }

  predicate DecimalParts(src: string, pos: nat, p1: nat, p2: nat, p3: nat, e: nat) {
    RunOf(src, pos + 1, p1, IsDigit) && Fraction(src, p1, p2) && Exponent(src, p2, p3) && RunOf(src, p3, e, IsSuffix)
  }

  /** One digit or '.', digits, a fraction, an exponent and a suffix of u, l and f, each part as long as it can be. */
  ghost predicate DecimalNumber(src: string, pos: nat, e: nat) {
    exists p1, p2, p3 :: DecimalParts(src, pos, p1, p2, p3, e)
  }

  lemma FractionIff(src: string, p: nat, q: nat)
    requires p <= |src|
    ensures FractionEnd(src, p) == q <==> Fraction(src, p, q)
  {
    if p < |src| && src[p] == '.' { WhileIff(src, p + 1, IsDigit, q); }
  }

  lemma ExponentIff(src: string, p: nat, q: nat)
    requires p <= |src|
    ensures ExponentEnd(src, p) == q <==> Exponent(src, p, q)
  {
    if p < |src| && (src[p] == 'e' || src[p] == 'E') {
      WhileIff(src, p + 1, IsDigit, q);
      if p + 1 < |src| { WhileIff(src, p + 2, IsDigit, q); }
    }
  }

  lemma DecimalUnique(src: string, pos: nat, p1: nat, p2: nat, p3: nat, e: nat)
    requires pos < |src| && DecimalParts(src, pos, p1, p2, p3, e)
    ensures While(src, ExponentEnd(src, FractionEnd(src, While(src, pos + 1, IsDigit))), IsSuffix) == e
  {
    WhileIff(src, pos + 1, IsDigit, p1);
    FractionIff(src, p1, p2);
    ExponentIff(src, p2, p3);
    WhileIff(src, p3, IsSuffix, e);
  }

  lemma DecimalIs(src: string, pos: nat)
    requires pos < |src|
    ensures var p1 := While(src, pos + 1, IsDigit);
            var p2 := FractionEnd(src, p1);
            var p3 := ExponentEnd(src, p2);
            DecimalParts(src, pos, p1, p2, p3, While(src, p3, IsSuffix))
  {
    var p1 := While(src, pos + 1, IsDigit);
    var p2 := FractionEnd(src, p1);
    var p3 := ExponentEnd(src, p2);
    WhileIff(src, pos + 1, IsDigit, p1);
    FractionIff(src, p1, p2);
    ExponentIff(src, p2, p3);
    WhileIff(src, p3, IsSuffix, While(src, p3, IsSuffix));
  }

  lemma HexEndIff(src: string, pos: nat, e: nat)
    requires HexPrefix(src, pos)
    ensures While(src, While(src, pos + 2, IsHexDigit), IsHexSuffix) == e <==> HexNumber(src, pos, e)
  {
    var p := While(src, pos + 2, IsHexDigit);
    WhileIff(src, pos + 2, IsHexDigit, p);
    WhileIff(src, p, IsHexSuffix, e);
    if HexNumber(src, pos, e) {
      var q :| HexParts(src, pos, q, e);
      WhileIff(src, pos + 2, IsHexDigit, q);
    } else {
      assert !HexParts(src, pos, p, e);
    }
  }

  /** A number ends exactly where its parts end. */
  lemma NumberEndIff(src: string, pos: nat, e: nat)
    requires pos < |src|
    ensures NumberEnd(src, pos) == e <==> if HexPrefix(src, pos) then HexNumber(src, pos, e) else DecimalNumber(src, pos, e)
  {
    if HexPrefix(src, pos) {
      HexEndIff(src, pos, e);
    } else {
      DecimalIs(src, pos);
      if DecimalNumber(src, pos, e) {
        var p1, p2, p3 :| DecimalParts(src, pos, p1, p2, p3, e);
        DecimalUnique(src, pos, p1, p2, p3, e);
      }
    }
  }

  /** A line break that ends the directive whose rest starts at p: no backslash stands before it. */
  predicate EndsLine(src: string, p: nat, k: nat) {
    k < |src| && src[k] == '\n' && !(p < k && src[k - 1] == '\\')
  }

  /** The first line break from k on that ends the directive, or the end of the source. */
  predicate DirectiveEnds(src: string, p: nat, k: nat, e: nat) {
    k <= e <= |src| && (e < |src| ==> EndsLine(src, p, e)) && forall i :: k <= i < e ==> !EndsLine(src, p, i)
  }

  lemma {:induction false} DirectiveEndIs(src: string, p: nat, k: nat)
    requires p <= k <= |src| && (k < |src| && src[k] == '\n' ==> EndsLine(src, p, k))
    ensures DirectiveEnds(src, p, k, DirectiveEnd(src, k))
    decreases |src| - k
  {
    if k < |src| && src[k] != '\n' {
      if src[k] == '\\' && k + 1 < |src| && src[k + 1] == '\n' { DirectiveEndIs(src, p, k + 2); } else { DirectiveEndIs(src, p, k + 1); }
    }
  }

  /** A directive's line goes on over each line break that stands behind a backslash, and over no other. */
  lemma DirectiveEndIff(src: string, p: nat, e: nat)
    requires p <= |src|
    ensures DirectiveEnd(src, p) == e <==> DirectiveEnds(src, p, p, e)
  {
    DirectiveEndIs(src, p, p);
  }

  /** How many characters an operator or punctuator takes. */
  function OperatorLength(src: string, pos: nat): nat
    requires pos < |src|
  {
    if pos + 1 >= |src| then 1
    else
      var two := src[pos..pos + 2];
      if two == "->" then 2
      else if two in TwoOperators || two in Colliding then
        if (two == "<<" || two == ">>") && pos + 2 < |src| && src[pos + 2] == '=' then 3 else 2
      else 1
  }

  lemma OperatorSpan(src: string, pos: nat)
    requires pos < |src| && Ascii(src) && IsOperator(src, pos)
    ensures |OperatorTurn(src, pos).0.value| == OperatorLength(src, pos)
  {
    OperatorPiece(src, pos);
    if pos + 1 < |src| {
      OperatorStarts(src, pos);
      ArrowHashIs();
    }
  }

  /** Word, directive word, and rest of the line of a directive. */
  predicate DirectiveSpan(src: string, pos: nat, p1: nat, p2: nat, e: nat) {
    RunOf(src, pos + 1, p1, IsSpace) && RunOf(src, p1, p2, IsIdentContinue) && DirectiveEnds(src, p2, p2, e)
  }

  predicate NotLineBreak(c: char) {
    c != '\n'
  }

  /** The text that starts at pos ends at e, by its first characters; literals and block comments are said in TokenizeEnds. */
  ghost predicate EndsAt(src: string, pos: nat, e: nat)
    requires pos < |src|
  {
    var c := src[pos];
    var next := if pos + 1 < |src| then src[pos + 1] else '\0';
    if c == '\n' then e == pos + 1
    else if c == '/' && next == '/' then RunOf(src, pos + 2, e, NotLineBreak)
    else if c == '/' && next == '*' then e == Least(BlockEnd(src, pos + 2), |src|)
    else if c == '"' || c == '\'' then e == Least(QuoteEnd(src, pos + 1, c), |src|)
    else if IsDigit(c) || (c == '.' && IsDigit(next)) then
      if HexPrefix(src, pos) then HexNumber(src, pos, e) else DecimalNumber(src, pos, e)
    else if IsIdentStart(c) then RunOf(src, pos, e, IsIdentContinue)
    else if c == '#' then
      e == pos + 1 || exists p1, p2 :: p1 < p2 && DirectiveSpan(src, pos, p1, p2, e)
    else e == pos + OperatorLength(src, pos)
  }

  function Least(a: nat, b: nat): nat {
    if a < b then a else b
  }

  lemma SameWhile(src: string, pos: nat, p: char -> bool, q: char -> bool)
    requires forall c :: p(c) == q(c)
    ensures While(src, pos, p) == While(src, pos, q)
    decreases |src| - pos
  {
    if pos < |src| && p(src[pos]) { SameWhile(src, pos + 1, p, q); }
  }

  lemma HashEnds(src: string, pos: nat)
    requires pos < |src| && src[pos] == '#'
    ensures EndsAt(src, pos, pos + |HashTurn(src, pos).0.value|)
  {
    var p1 := While(src, pos + 1, IsSpace);
    if CharAt(src, p1, IsIdentStart) {
      var p2 := While(src, p1, IsIdentContinue);
      var e := DirectiveEnd(src, p2);
      WhileIff(src, pos + 1, IsSpace, p1);
      WhileIff(src, p1, IsIdentContinue, p2);
      DirectiveEndIff(src, p2, e);
      assert p1 < p2 && DirectiveSpan(src, pos, p1, p2, e);
    }
  }

  lemma CommentEnds(src: string, pos: nat)
    requires StartsComment(src, pos)
    ensures EndsAt(src, pos, End(src, pos))
  {
    if src[pos + 1] == '/' {
      SameWhile(src, pos + 2, ch => ch != '\n', NotLineBreak);
      WhileIff(src, pos + 2, NotLineBreak, Turn(src, pos).1);
    }
  }

  lemma NumberEnds(src: string, pos: nat)
    requires StartsNumber(src, pos)
    ensures EndsAt(src, pos, End(src, pos))
  {
    assert Turn(src, pos) == (Some(Token(Number, Sub(src, pos, NumberEnd(src, pos)))), NumberEnd(src, pos));
    NumberEndIff(src, pos, NumberEnd(src, pos));
  }

  lemma WordEnds(src: string, pos: nat)
    requires pos < |src| && IsIdentStart(src[pos])
    ensures EndsAt(src, pos, End(src, pos))
  {
    var e := While(src, pos + 1, IsIdentContinue);
    WordTurnIs(src, pos, e, src[pos..e]);
    WhileIff(src, pos + 1, IsIdentContinue, e);
  }

  lemma QuoteEnds(src: string, pos: nat)
    requires pos < |src| && (src[pos] == '"' || src[pos] == '\'')
    ensures EndsAt(src, pos, End(src, pos))
  {
  }

  lemma PlainLength(src: string, pos: nat)
    requires pos < |src| && !IsOperator(src, pos) && src[pos] != '#' && Turn(src, pos).0.Some?
    ensures End(src, pos) == pos + |Turn(src, pos).0.value.value|
  {
    PlainIsSub(src, pos);
  }

  lemma PlainEnds(src: string, pos: nat)
    requires pos < |src| && !IsOperator(src, pos) && src[pos] != '#' && Turn(src, pos).0.Some?
    ensures EndsAt(src, pos, pos + |Turn(src, pos).0.value.value|)
  {
    PlainLength(src, pos);
    if IsSpace(src[pos]) { BreakOrSpace(src, pos); }
    else if StartsComment(src, pos) { CommentEnds(src, pos); }
    else if StartsNumber(src, pos) { NumberEnds(src, pos); }
    else if IsIdentStart(src[pos]) { WordEnds(src, pos); }
    else { QuoteEnds(src, pos); }
  }

  /** Each token's text ends where its characters say. */
  lemma TurnEnds(src: string, pos: nat)
    requires pos < |src| && Ascii(src) && Turn(src, pos).0.Some?
    ensures EndsAt(src, pos, pos + |Turn(src, pos).0.value.value|)
  {
    if IsOperator(src, pos) {
      OperatorSpan(src, pos);
      OperatorIsTurn(src, pos);
    } else if src[pos] == '#' {
      HashEnds(src, pos);
    } else {
      PlainEnds(src, pos);
    }
  }
}

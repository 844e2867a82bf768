/** The tokenizer's loops, against the functions of TokenizeModel. */
module Tokenize {
  import opened Wrappers
  import opened TokenizeModel
  import opened TokenizeRebuild

  /** A loop of the form: while there is a character and it is of this kind, go on. */
  method Skip(source: string, start: nat, p: char -> bool) returns (pos: nat)
    ensures pos == While(source, start, p)
  {
    pos := start;
    while pos < |source| && p(source[pos])
      invariant pos >= start && While(source, start, p) == While(source, pos, p)
      decreases |source| - pos
    {
      pos := pos + 1;
    }
  }

  method SkipBlockComment(source: string, start: nat) returns (pos: nat)
    ensures pos == BlockEnd(source, start)
  {
    pos := start;
    while pos < |source|
      invariant BlockEnd(source, start) == BlockEnd(source, pos)
      decreases |source| - pos
    {
      if source[pos] == '\n' {
        pos := pos + 1;
        pos := pos + 1;
        continue;
      }
      if source[pos] == '*' && pos + 1 < |source| && source[pos + 1] == '/' {
        return pos + 2;
      }
      pos := pos + 1;
    }
  }

  method SkipLiteral(source: string, start: nat, quote: char) returns (pos: nat)
    ensures pos == QuoteEnd(source, start, quote)
  {
    pos := start;
    while pos < |source|
      invariant QuoteEnd(source, start, quote) == QuoteEnd(source, pos, quote)
      decreases |source| - pos
    {
      if source[pos] == '\\' {
        pos := pos + 2;
        pos := pos + 1;
        continue;
      }
      if source[pos] == quote { return pos + 1; }
      pos := pos + 1;
    }
  }

  method SkipNumber(source: string, start: nat) returns (pos: nat)
    requires start < |source|
    ensures pos == NumberEnd(source, start)
  {
    pos := start + 1;
    if source[start] == '0' && pos < |source| && (source[pos] == 'x' || source[pos] == 'X') {
      pos := pos + 1;
      pos := Skip(source, pos, IsHexDigit);
      pos := Skip(source, pos, IsHexSuffix);
    } else {
      pos := Skip(source, pos, IsDigit);
      pos := SkipFraction(source, pos);
      pos := SkipExponent(source, pos);
      pos := Skip(source, pos, IsSuffix);
    }
  }

  method SkipFraction(source: string, start: nat) returns (pos: nat)
    ensures pos == FractionEnd(source, start)
  {
    pos := start;
    if pos < |source| && source[pos] == '.' {
      pos := pos + 1;
      pos := Skip(source, pos, IsDigit);
    }
  }

  method SkipExponent(source: string, start: nat) returns (pos: nat)
    ensures pos == ExponentEnd(source, start)
  {
    pos := start;
    if pos < |source| && (source[pos] == 'e' || source[pos] == 'E') {
      pos := pos + 1;
      if pos < |source| && (source[pos] == '+' || source[pos] == '-') { pos := pos + 1; }
      pos := Skip(source, pos, IsDigit);
    }
  }

  method SkipDirective(source: string, start: nat) returns (pos: nat)
    ensures pos == DirectiveEnd(source, start)
  {
    pos := start;
    while pos < |source| && source[pos] != '\n'
      invariant DirectiveEnd(source, start) == DirectiveEnd(source, pos)
      decreases |source| - pos
    {
      if source[pos] == '\\' && pos + 1 < |source| && source[pos + 1] == '\n' {
        pos := pos + 2;
      } else {
        pos := pos + 1;
      }
    }
  }

  method ReadHash(source: string, start: nat) returns (t: Token, pos: nat)
    requires start < |source|
    ensures (t, pos) == HashTurn(source, start)
  {
    pos := Skip(source, start + 1, IsSpace);
    if pos < |source| && IsIdentStart(source[pos]) {
      var dirStart := pos;
      pos := Skip(source, pos, IsIdentContinue);
      var dir := source[dirStart..pos];
      pos := SkipDirective(source, pos);
      var kind := if dir == "include" then PpInclude else if dir == "define" then PpDefine else PpOther;
      t := Token(kind, Sub(source, start, pos));
    } else {
      t := Token(Operator, "#");
      pos := pos + 1;
    }
  }

  method ReadOperator(source: string, start: nat) returns (t: Token, pos: nat)
    requires start < |source|
    ensures (t, pos) == OperatorTurn(source, start)
  {
    if start + 1 < |source| {
      var two := source[start..start + 2];
      if IsArrow(two) { return Token(Arrow, "->"), start + 2; }
      if IsTwoOperator(two) {
        if (two == "<<" || two == ">>") && start + 2 < |source| && source[start + 2] == '=' {
          return Token(Operator, Sub(source, start, start + 3)), start + 3;
        }
        return Token(Operator, two), start + 2;
      }
    }
    return Token(SingleKind(source[start]), [source[start]]), start + 1;
  }

  /** The body of the main loop. */
  method ReadOne(source: string, start: nat) returns (t: Option<Token>, pos: nat)
    requires start < |source|
    ensures (t, pos) == Turn(source, start)
  {
    var c := source[start];
    if c == '\n' { return Some(Token(NewLine, "\n")), start + 1; }
    if c == '\r' || IsSpace(c) { return None, start + 1; }
    if c == '/' && start + 1 < |source| {
      if source[start + 1] == '/' {
        pos := Skip(source, start + 2, ch => ch != '\n');
        return Some(Token(LineComment, Sub(source, start, pos))), pos;
      }
      if source[start + 1] == '*' {
        pos := SkipBlockComment(source, start + 2);
        return Some(Token(BlockComment, Sub(source, start, pos))), pos;
      }
    }
    if c == '"' || c == '\'' {
      pos := SkipLiteral(source, start + 1, c);
      return Some(Token(if c == '"' then StringLit else CharLit, Sub(source, start, pos))), pos;
    }
    if IsDigit(c) || (c == '.' && start + 1 < |source| && IsDigit(source[start + 1])) {
      pos := SkipNumber(source, start);
      return Some(Token(Number, Sub(source, start, pos))), pos;
    }
    var tok;
    if IsIdentStart(c) {
      pos := Skip(source, start + 1, IsIdentContinue);
      tok := Token(WordKind(source[start..pos], 0), Sub(source, start, pos));
    } else if c == '#' {
      tok, pos := ReadHash(source, start);
    } else {
      tok, pos := ReadOperator(source, start);
    }
    t := Some(tok);
  }

  /**
   * The whole of tokenize. On an ASCII source exactly one end of file comes last, and the
   * tokens and whitespace rebuild the source unless a lone '#' dropped a character.
   */
  method Tokenize(source: string) returns (tokens: seq<Token>)
    ensures tokens == Lex(source, 0)
    ensures Ascii(source) ==> (Rebuilds(source, tokens) <==> Dropped(source, 0) == 0)
    ensures Ascii(source) ==> forall i :: 0 <= i < |tokens| ==> (tokens[i].kind == Eof <==> i == |tokens| - 1)
  {
    tokens := [];
    var pos: nat := 0;
    while pos < |source|
      invariant Lex(source, 0) == tokens + Lex(source, pos)
      decreases |source| - pos
    {
      TurnAdvances(source, pos);
      ghost var rest := Lex(source, Turn(source, pos).1);
      var t, next := ReadOne(source, pos);
      if t.Some? {
        assert tokens + ([t.value] + rest) == (tokens + [t.value]) + rest;
        tokens := tokens + [t.value];
      } else {
        assert [] + rest == rest;
      }
      pos := next;
    }
    tokens := tokens + [Token(Eof, "")];
    if Ascii(source) {
      TokensRebuildIff(source);
      OneEofLast(source, 0);
    }
  }
}

/** The C tokenizer: what each turn of its loop takes from the source, and the tokens of a whole source. */
module TokenizeModel {
  import opened Wrappers

  datatype Kind =
    | Eof | NewLine | Identifier | Keyword(word: string) | StringLit | CharLit | Number
    | LBrace | RBrace | LParen | RParen | LBracket | RBracket | Semicolon | Comma | Colon | Question | Dot | Arrow
    | Operator | PpInclude | PpDefine | PpOther | LineComment | BlockComment

  datatype Token = Token(kind: Kind, value: string)

  // ----- Characters, in ASCII -----

  predicate Ascii(s: string) {
    forall i :: 0 <= i < |s| ==> s[i] < '\U{80}'
  }

  /** isspace: space, and tab to carriage return. */
  predicate IsSpace(c: char) {
    c == ' ' || '\t' <= c <= '\r'
  }

  predicate IsDigit(c: char) {
    '0' <= c <= '9'
  }

  predicate IsHexDigit(c: char) {
    IsDigit(c) || 'a' <= c <= 'f' || 'A' <= c <= 'F'
  }

  predicate IsIdentStart(c: char) {
    'a' <= c <= 'z' || 'A' <= c <= 'Z' || c == '_'
  }

  predicate IsIdentContinue(c: char) {
    IsIdentStart(c) || IsDigit(c)
  }

  predicate IsHexSuffix(c: char) {
    c == 'u' || c == 'U' || c == 'l' || c == 'L'
  }

  predicate IsSuffix(c: char) {
    IsHexSuffix(c) || c == 'f' || c == 'F'
  }

  // ----- The hash that stands for string comparison -----

  function Code(c: char): bv32 {
    (c as int % 0x100) as bv8 as bv32
  }

  /** One more character in front of a hashed word. */
  function Mix(h: bv32, code: bv32): bv32 {
    (h * 33) ^ code
  }

  /** The hash of the characters before the first NUL. */
  function Hash(word: string): bv32 {
    if word == "" || word[0] == '\0' then 5381 else Mix(Hash(word[1..]), Code(word[0]))
  }

  const Keywords := [
    "if", "else", "for", "while", "do", "switch", "case", "return", "break", "continue", "struct", "union", "enum",
    "typedef", "static", "extern", "const", "void", "char", "int", "short", "long", "float", "double", "signed",
    "unsigned", "sizeof", "auto", "register", "volatile", "goto", "default"]

  /** kw_type: the keyword with the word's hash, from the k-th on. */
  function WordKind(word: string, k: nat): (r: Kind)
    ensures r.Identifier? || r.Keyword?
    decreases |Keywords| - k
  {
    if k >= |Keywords| then Identifier
    else if Hash(word) == Hash(Keywords[k]) then Keyword(Keywords[k])
    else WordKind(word, k + 1)
  }

  /** The case label hash("->"). */
  const ArrowHash: bv32 := 0x5968d6

  predicate IsArrow(two: string) {
    Hash(two) == ArrowHash
  }

  /** The two-character operators, and the case labels that are their hashes. */
  const TwoOperators := [
    "==", "!=", "<=", ">=", "&&", "||", "++", "--", "+=", "-=", "*=", "/=", "%=", "&=", "|=", "^=", "~=", "<<", ">>"]

  const TwoOperatorHashes: seq<bv32> := [
    0x5968a5, 0x5968b9, 0x5968a4, 0x5968a6, 0x5965c5, 0x597085, 0x596765, 0x5966a5, 0x5968b3, 0x5968b5,
    0x5968b2, 0x5968b7, 0x5968bd, 0x5968be, 0x5968e4, 0x5968c6, 0x5968e6, 0x596885, 0x5968c5]

  predicate IsTwoOperator(two: string) {
    Hash(two) in TwoOperatorHashes
  }

  // ----- The inner loops: where each one stops -----

  function While(src: string, pos: nat, p: char -> bool): (e: nat)
    ensures e >= pos && (pos <= |src| ==> e <= |src|)
    ensures forall i :: pos <= i < e && i < |src| ==> p(src[i])
    decreases |src| - pos
  {
    if pos < |src| && p(src[pos]) then While(src, pos + 1, p) else pos
  }

  /** The block comment loop; the character after a line break is not looked at. */
  function BlockEnd(src: string, pos: nat): (e: nat)
    ensures e >= pos
    decreases |src| - pos
  {
    if pos >= |src| then pos
    else if src[pos] == '\n' then BlockEnd(src, pos + 2)
    else if src[pos] == '*' && pos + 1 < |src| && src[pos + 1] == '/' then pos + 2
    else BlockEnd(src, pos + 1)
  }

  /** The literal loop; a backslash passes over itself and two more characters. */
  function QuoteEnd(src: string, pos: nat, quote: char): (e: nat)
    ensures e >= pos
    decreases |src| - pos
  {
    if pos >= |src| then pos
    else if src[pos] == '\\' then QuoteEnd(src, pos + 3, quote)
    else if src[pos] == quote then pos + 1
    else QuoteEnd(src, pos + 1, quote)
  }

  /** The directive loop goes on over a line break after a backslash. */
  function DirectiveEnd(src: string, pos: nat): (e: nat)
    ensures e >= pos && (pos <= |src| ==> e <= |src|)
    decreases |src| - pos
  {
    if pos >= |src| || src[pos] == '\n' then pos
    else if src[pos] == '\\' && pos + 1 < |src| && src[pos + 1] == '\n' then DirectiveEnd(src, pos + 2)
    else DirectiveEnd(src, pos + 1)
  }

  predicate CharAt(src: string, pos: nat, p: char -> bool) {
    pos < |src| && p(src[pos])
  }

  function FractionEnd(src: string, pos: nat): (e: nat)
    ensures e >= pos && (pos <= |src| ==> e <= |src|)
  {
    if CharAt(src, pos, c => c == '.') then While(src, pos + 1, IsDigit) else pos
  }

  function ExponentEnd(src: string, pos: nat): (e: nat)
    ensures e >= pos && (pos <= |src| ==> e <= |src|)
  {
    if CharAt(src, pos, c => c == 'e' || c == 'E') then
      var p1 := if CharAt(src, pos + 1, c => c == '+' || c == '-') then pos + 2 else pos + 1;
      While(src, p1, IsDigit)
    else pos
  }

  function NumberEnd(src: string, pos: nat): (e: nat)
    requires pos < |src|
    ensures pos < e <= |src|
  {
    if src[pos] == '0' && CharAt(src, pos + 1, c => c == 'x' || c == 'X') then
      While(src, While(src, pos + 2, IsHexDigit), IsHexSuffix)
    else
      While(src, ExponentEnd(src, FractionEnd(src, While(src, pos + 1, IsDigit))), IsSuffix)
  }

  /** substr, which stops at the end of the source. */
  function Sub(src: string, start: nat, end: nat): string
    requires start <= |src| && start <= end
  {
    src[start..if end < |src| then end else |src|]
  }

  // ----- One turn -----

  function SingleKind(c: char): Kind {
    match c
    case '{' => LBrace
    case '}' => RBrace
    case '(' => LParen
    case ')' => RParen
    case '[' => LBracket
    case ']' => RBracket
    case ';' => Semicolon
    case ',' => Comma
    case ':' => Colon
    case '?' => Question
    case '.' => Dot
    case _ => Operator
  }

  function Two(src: string, pos: nat): string
    requires pos + 1 < |src|
  {
    src[pos..pos + 2]
  }

  /** From a '#' on: a directive up to the end of its line, or a lone '#' after which one character is dropped. */
  function HashTurn(src: string, pos: nat): (Token, nat)
    requires pos < |src|
  {
    var p1 := While(src, pos + 1, IsSpace);
    if CharAt(src, p1, IsIdentStart) then
      var p2 := While(src, p1, IsIdentContinue);
      var dir := src[p1..p2];
      var e := DirectiveEnd(src, p2);
      (Token(if dir == "include" then PpInclude else if dir == "define" then PpDefine else PpOther, Sub(src, pos, e)), e)
    else (Token(Operator, "#"), p1 + 1)
  }

  /** An operator of one to three characters. */
  function OperatorTurn(src: string, pos: nat): (Token, nat)
    requires pos < |src|
  {
    if pos + 1 < |src| && IsArrow(Two(src, pos)) then (Token(Arrow, "->"), pos + 2)
    else if pos + 1 < |src| && IsTwoOperator(Two(src, pos)) then
      var two := Two(src, pos);
      if (two == "<<" || two == ">>") && pos + 2 < |src| && src[pos + 2] == '=' then (Token(Operator, Sub(src, pos, pos + 3)), pos + 3)
      else (Token(Operator, two), pos + 2)
    else (Token(SingleKind(src[pos]), [src[pos]]), pos + 1)
  }

  /** One turn of the main loop: the token it pushes, if any, and the position after it. */
  function Turn(src: string, pos: nat): (Option<Token>, nat)
    requires pos < |src|
  {
    var c := src[pos];
    var next := if pos + 1 < |src| then src[pos + 1] else '\0';
    if c == '\n' then (Some(Token(NewLine, "\n")), pos + 1)
    else if c == '\r' || IsSpace(c) then (None, pos + 1)
    else if c == '/' && next == '/' then
      var e := While(src, pos + 2, ch => ch != '\n');
      (Some(Token(LineComment, Sub(src, pos, e))), e)
    else if c == '/' && next == '*' then
      var e := BlockEnd(src, pos + 2);
      (Some(Token(BlockComment, Sub(src, pos, e))), e)
    else if c == '"' || c == '\'' then
      var e := QuoteEnd(src, pos + 1, c);
      (Some(Token(if c == '"' then StringLit else CharLit, Sub(src, pos, e))), e)
    else if IsDigit(c) || (c == '.' && IsDigit(next)) then
      var e := NumberEnd(src, pos);
      (Some(Token(Number, Sub(src, pos, e))), e)
    else if IsIdentStart(c) then
      var e := While(src, pos + 1, IsIdentContinue);
      (Some(Token(WordKind(src[pos..e], 0), Sub(src, pos, e))), e)
    else if c == '#' then
      var (t, e) := HashTurn(src, pos); (Some(t), e)
    else
      var (t, e) := OperatorTurn(src, pos); (Some(t), e)
  }

  /** Every turn moves the position forward. */
  lemma TurnAdvances(src: string, pos: nat)
    requires pos < |src|
    ensures Turn(src, pos).1 > pos
  {
  }

  /** The tokens from a position on; the last is the end of file. */
  function Lex(src: string, pos: nat): seq<Token>
    decreases |src| - pos
  {
    if pos >= |src| then [Token(Eof, "")]
    else
      TurnAdvances(src, pos);
      var (t, e) := Turn(src, pos);
      (match t case None => [] case Some(tok) => [tok]) + Lex(src, e)
  }
}

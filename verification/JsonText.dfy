/**
 * JSON values, the text the printer gives them, and the recursive-descent parser
 * for RFC 8259 (which takes some texts that are not JSON) as functions on the characters still unread.
 */
module JsonText {
  import opened Wrappers

  /** An object's members stand in the key order of std::map. Numbers are doubles by bit pattern. */
  datatype Json =
    | Object(members: seq<Member>)
    | Array(elements: seq<Json>)
    | Null
    | Number(bits: int)
    | Str(text: string)
    | Bool(value: bool)

  datatype Member = Member(key: string, value: Json)

  /**
   * The standard library's conversions: std::format of a finite double, and
   * std::from_chars, which yields the value read and how many characters it used.
   */
  datatype Floats = Floats(finite: int -> bool, show: int -> string, scan: string -> Option<(int, nat)>)

  datatype Error =
    | UnexpectedEof
    | Mismatch(expected: char, found: char)
    | BadHexDigit
    | BadEscape(c: char)
    | BadNumber
    | LeadingZero
    | BadStart(c: char)

  /** A value read and the characters after it. */
  datatype Parsed<+T> = Parsed(value: T, rest: string)

  type Outcome<+T> = Result<Parsed<T>, Error>

  // ----- Printing -----

  function HexDigit(n: nat): char
    requires n < 16
  {
    if n < 10 then '0' + n as char else 'a' + (n - 10) as char
  }

  function EscapeChar(c: char): string {
    if c == '"' then "\\\""
    else if c == '\\' then "\\\\"
    else if c == '\U{8}' then "\\b"
    else if c == '\U{c}' then "\\f"
    else if c == '\n' then "\\n"
    else if c == '\r' then "\\r"
    else if c == '\t' then "\\t"
    else if c as int < 0x20 then "\\u00" + [HexDigit(c as int / 16), HexDigit(c as int % 16)]
    else [c]
  }

  /** escape_string */
  function Escape(s: string): string {
    if s == "" then "" else EscapeChar(s[0]) + Escape(s[1..])
  }

  function Quoted(s: string): string {
    "\"" + Escape(s) + "\""
  }

  /** format_literal */
  function Literal(fl: Floats, v: Json): string
    requires !v.Object? && !v.Array?
  {
    match v
    case Null => "null"
    case Str(t) => Quoted(t)
    case Number(x) => if fl.finite(x) then fl.show(x) else "null"
    case Bool(b) => if b then "true" else "false"
  }

  function Spaces(n: int): string {
    if n <= 0 then "" else " " + Spaces(n - 1)
  }

  /** What stands before each member or element of a container printed at depth cur. */
  function Lead(indentation: int, cur: int): string {
    if indentation >= 0 then Spaces(cur) else ""
  }

  function Comma(indentation: int): string {
    if indentation >= 0 then ",\n" else ","
  }

  function Colon(indentation: int): string {
    if indentation >= 0 then ": " else ":"
  }

  function NewLine(indentation: int): string {
    if indentation >= 0 then "\n" else ""
  }

  /** The depth of what is inside a container printed at depth cur. */
  function Inside(indentation: int, cur: int): int {
    if indentation >= 0 then cur + indentation else cur
  }

  /** format_internal */
  function Text(fl: Floats, v: Json, indentation: int, cur: int): string
    decreases v
  {
    match v
    case Object(ms) =>
      if ms == [] then "{}"
      else "{" + NewLine(indentation) + MembersText(fl, ms, indentation, Inside(indentation, cur))
           + NewLine(indentation) + Lead(indentation, cur) + "}"
    case Array(es) =>
      if es == [] then "[]"
      else "[" + NewLine(indentation) + ElementsText(fl, es, indentation, Inside(indentation, cur))
           + NewLine(indentation) + Lead(indentation, cur) + "]"
    case _ => Literal(fl, v)
  }

  function MembersText(fl: Floats, ms: seq<Member>, indentation: int, cur: int): string
    decreases ms
  {
    if ms == [] then ""
    else
      var first := Lead(indentation, cur) + Quoted(ms[0].key) + Colon(indentation) + Text(fl, ms[0].value, indentation, cur);
      if |ms| == 1 then first else first + Comma(indentation) + MembersText(fl, ms[1..], indentation, cur)
  }

  function ElementsText(fl: Floats, es: seq<Json>, indentation: int, cur: int): string
    decreases es
  {
    if es == [] then ""
    else
      var first := Lead(indentation, cur) + Text(fl, es[0], indentation, cur);
      if |es| == 1 then first else first + Comma(indentation) + ElementsText(fl, es[1..], indentation, cur)
  }

  function Dump(fl: Floats, v: Json): string {
    Text(fl, v, -1, 0)
  }

  function Format(fl: Floats, v: Json, indentation: int): string {
    Text(fl, v, indentation, 0)
  }

  // ----- Parsing -----

  predicate IsWs(c: char) {
    c == ' ' || c == '\n' || c == '\r' || c == '\t'
  }

  function SkipWs(s: string): (r: string)
    ensures |r| <= |s|
  {
    if s != "" && IsWs(s[0]) then SkipWs(s[1..]) else s
  }

  function Match(s: string, c: char): Result<string, Error> {
    if s == "" then Err(UnexpectedEof)
    else if s[0] != c then Err(Mismatch(c, s[0]))
    else Ok(s[1..])
  }

  function MatchWord(s: string, word: string): (r: Result<string, Error>)
    ensures r.Ok? ==> |r.value| == |s| - |word|
    decreases |word|
  {
    if word == "" then Ok(s)
    else
      match Match(s, word[0])
      case Err(e) => Err(e)
      case Ok(rest) => MatchWord(rest, word[1..])
  }

  function HexValue(h: char): Option<nat> {
    if '0' <= h <= '9' then Some(h as int - '0' as int)
    else if 'a' <= h <= 'f' then Some(h as int - 'a' as int + 10)
    else if 'A' <= h <= 'F' then Some(h as int - 'A' as int + 10)
    else None
  }

  /** The n hex digits of a \u escape, most significant first. */
  function HexDigits(s: string, n: nat, cp: nat): (r: Outcome<nat>)
    ensures r.Ok? ==> |r.value.rest| <= |s|
    decreases n
  {
    if n == 0 then Ok(Parsed(cp, s))
    else if s == "" then Err(UnexpectedEof)
    else
      match HexValue(s[0])
      case None => Err(BadHexDigit)
      case Some(d) => HexDigits(s[1..], n - 1, cp * 16 + d)
  }

  /** A code point below 0x10000 in UTF-8, one character per byte. */
  function Utf8(cp: nat): string {
    if cp <= 0x7f then [cp as char]
    else if cp <= 0x7ff then [(0xc0 + cp / 64) as char, (0x80 + cp % 64) as char]
    else if cp <= 0xffff then [(0xe0 + cp / 4096) as char, (0x80 + cp / 64 % 64) as char, (0x80 + cp % 64) as char]
    else ""
  }

  /** What follows a backslash. */
  function EscapeTail(s: string): (r: Outcome<string>)
    ensures r.Ok? ==> |r.value.rest| < |s|
  {
    if s == "" then Err(UnexpectedEof)
    else
      var rest := s[1..];
      match s[0]
      case '"' => Ok(Parsed("\"", rest))
      case '\\' => Ok(Parsed("\\", rest))
      case '/' => Ok(Parsed("/", rest))
      case 'b' => Ok(Parsed("\U{8}", rest))
      case 'f' => Ok(Parsed("\U{c}", rest))
      case 'n' => Ok(Parsed("\n", rest))
      case 'r' => Ok(Parsed("\r", rest))
      case 't' => Ok(Parsed("\t", rest))
      case 'u' =>
        (match HexDigits(rest, 4, 0)
         case Err(e) => Err(e)
         case Ok(p) => Ok(Parsed(Utf8(p.value), p.rest)))
      case c => Err(BadEscape(c))
  }

  /** The characters of a string literal up to its closing quote, added to acc. */
  function Chars(s: string, acc: string): (r: Outcome<string>)
    ensures r.Ok? ==> |r.value.rest| <= |s| && r.value.rest != "" && r.value.rest[0] == '"'
    decreases |s|
  {
    if s == "" then Err(UnexpectedEof)
    else if s[0] == '"' then Ok(Parsed(acc, s))
    else if s[0] == '\\' then
      match EscapeTail(s[1..])
      case Err(e) => Err(e)
      case Ok(p) => Chars(p.rest, acc + p.value)
    else Chars(s[1..], acc + [s[0]])
  }

  /** json_parser::string */
  function ParseString(s: string): (r: Outcome<string>)
    ensures r.Ok? ==> |r.value.rest| < |s|
  {
    match Match(s, '"')
    case Err(e) => Err(e)
    case Ok(s1) =>
      match Chars(s1, "")
      case Err(e) => Err(e)
      case Ok(p) => Ok(Parsed(p.value, p.rest[1..]))
  }

  predicate IsDigit(c: char) {
    '0' <= c <= '9'
  }

  /** json_parser::number; from_chars uses at least one and at most all of the characters. */
  function ParseNumber(fl: Floats, s: string): (r: Outcome<int>)
    ensures r.Ok? ==> |r.value.rest| < |s|
  {
    var scanned := fl.scan(s);
    if scanned.None? || !(1 <= scanned.value.1 <= |s|) then Err(BadNumber)
    else if s[0] == '0' && |s| > 1 && IsDigit(s[1]) then Err(LeadingZero)
    else Ok(Parsed(scanned.value.0, s[scanned.value.1..]))
  }

  /** std::map's key order: unsigned characters, shorter first. */
  predicate KeyLess(a: string, b: string) {
    b != "" && (a == "" || a[0] < b[0] || (a[0] == b[0] && KeyLess(a[1..], b[1..])))
  }

  /** j[key] = value */
  function Assign(ms: seq<Member>, key: string, value: Json): seq<Member> {
    if ms == [] || KeyLess(key, ms[0].key) then [Member(key, value)] + ms
    else if ms[0].key == key then [Member(key, value)] + ms[1..]
    else [ms[0]] + Assign(ms[1..], key, value)
  }

  /** json_parser::element */
  function Element(fl: Floats, s: string): (r: Outcome<Json>)
    ensures r.Ok? ==> |r.value.rest| < |s|
    decreases |s|, 3
  {
    var s1 := SkipWs(s);
    if s1 == "" then Err(UnexpectedEof)
    else
      match ElementBody(fl, s1)
      case Err(e) => Err(e)
      case Ok(p) => Ok(Parsed(p.value, SkipWs(p.rest)))
  }

  function ElementBody(fl: Floats, s: string): (r: Outcome<Json>)
    requires s != ""
    ensures r.Ok? ==> |r.value.rest| < |s|
    decreases |s|, 2
  {
    var c := s[0];
    if c == '{' then
      match ParseObject(fl, s) { case Err(e) => Err(e) case Ok(p) => Ok(Parsed(Object(p.value), p.rest)) }
    else if c == '[' then
      match ParseArray(fl, s) { case Err(e) => Err(e) case Ok(p) => Ok(Parsed(Array(p.value), p.rest)) }
    else if c == '"' then
      match ParseString(s) { case Err(e) => Err(e) case Ok(p) => Ok(Parsed(Str(p.value), p.rest)) }
    else if c == '-' || IsDigit(c) then
      match ParseNumber(fl, s) { case Err(e) => Err(e) case Ok(p) => Ok(Parsed(Number(p.value), p.rest)) }
    else if c == 't' then
      match MatchWord(s, "true") { case Err(e) => Err(e) case Ok(rest) => Ok(Parsed(Bool(true), rest)) }
    else if c == 'f' then
      match MatchWord(s, "false") { case Err(e) => Err(e) case Ok(rest) => Ok(Parsed(Bool(false), rest)) }
    else if c == 'n' then
      match MatchWord(s, "null") { case Err(e) => Err(e) case Ok(rest) => Ok(Parsed(Null, rest)) }
    else Err(BadStart(c))
  }

  /** json_parser::object */
  function ParseObject(fl: Floats, s: string): (r: Outcome<seq<Member>>)
    ensures r.Ok? ==> |r.value.rest| < |s|
    decreases |s|, 1
  {
    match Match(s, '{')
    case Err(e) => Err(e)
    case Ok(s1) =>
      var s2 := SkipWs(s1);
      if s2 == "" then Err(UnexpectedEof)
      else if s2[0] == '}' then Ok(Parsed([], s2[1..]))
      else ObjectLoop(fl, s2, [])
  }

  /** The loop of json_parser::object, with the members read so far. */
  function ObjectLoop(fl: Floats, s: string, acc: seq<Member>): (r: Outcome<seq<Member>>)
    ensures r.Ok? ==> |r.value.rest| < |s|
    decreases |s|, 5
  {
    match ParseMember(fl, s)
    case Err(e) => Err(e)
    case Ok(p) =>
      var acc1, s1 := Assign(acc, p.value.key, p.value.value), SkipWs(p.rest);
      if s1 == "" then Err(UnexpectedEof)
      else if s1[0] == '}' then Ok(Parsed(acc1, s1[1..]))
      else
        match Match(s1, ',')
        case Err(e) => Err(e)
        case Ok(s2) => ObjectLoop(fl, s2, acc1)
  }

  /** json_parser::member */
  function ParseMember(fl: Floats, s: string): (r: Outcome<Member>)
    ensures r.Ok? ==> |r.value.rest| < |s|
    decreases |s|, 4
  {
    match ParseString(SkipWs(s))
    case Err(e) => Err(e)
    case Ok(id) =>
      match Match(SkipWs(id.rest), ':')
      case Err(e) => Err(e)
      case Ok(s1) =>
        match Element(fl, s1)
        case Err(e) => Err(e)
        case Ok(v) => Ok(Parsed(Member(id.value, v.value), v.rest))
  }

  /** json_parser::array */
  function ParseArray(fl: Floats, s: string): (r: Outcome<seq<Json>>)
    ensures r.Ok? ==> |r.value.rest| < |s|
    decreases |s|, 1
  {
    match Match(s, '[')
    case Err(e) => Err(e)
    case Ok(s1) =>
      var s2 := SkipWs(s1);
      if s2 == "" then Err(UnexpectedEof)
      else if s2[0] == ']' then Ok(Parsed([], s2[1..]))
      else ArrayLoop(fl, s2, [])
  }

  function ArrayLoop(fl: Floats, s: string, acc: seq<Json>): (r: Outcome<seq<Json>>)
    ensures r.Ok? ==> |r.value.rest| < |s|
    decreases |s|, 4
  {
    match Element(fl, s)
    case Err(e) => Err(e)
    case Ok(p) =>
      var acc1, s1 := acc + [p.value], SkipWs(p.rest);
      if s1 == "" then Err(UnexpectedEof)
      else if s1[0] == ']' then Ok(Parsed(acc1, s1[1..]))
      else
        match Match(s1, ',')
        case Err(e) => Err(e)
        case Ok(s2) => ArrayLoop(fl, s2, acc1)
  }

  /** json::parse, which does not look at what follows the value. */
  function Parse(fl: Floats, s: string): Result<Json, Error> {
    match Element(fl, s)
    case Err(e) => Err(e)
    case Ok(p) => Ok(p.value)
  }
}

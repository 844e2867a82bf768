/** What the escapes of a string stand for: RFC 8259 section 7, and UTF-8 as RFC 3629 section 3 has it. */
module JsonEscapes {
  import opened Wrappers
  import opened JsonText

  // ----- Hex digits -----

  const LowerDigits := "0123456789abcdef"
  const UpperDigits := "0123456789ABCDEF"

  /** The character is the hex digit of d, in either case. */
  predicate IsHex(c: char, d: nat) {
    d < 16 && (c == LowerDigits[d] || c == UpperDigits[d])
  }

  lemma HexValueIff(c: char, d: nat)
    ensures HexValue(c) == Some(d) <==> IsHex(c, d)
  {
  }

  lemma HexDigitIs(n: nat)
    requires n < 16
    ensures HexDigit(n) == LowerDigits[n]
  {
  }

  predicate FourHex(digits: string) {
    |digits| == 4 && forall i :: 0 <= i < 4 ==> HexValue(digits[i]).Some?
  }

  /** The number that four hex digits write, the most significant first. */
  function HexNumber(digits: string): (n: nat)
    requires FourHex(digits)
    ensures n < 0x10000
  {
    HexValue(digits[0]).value * 0x1000 + HexValue(digits[1]).value * 0x100 + HexValue(digits[2]).value * 0x10
    + HexValue(digits[3]).value
  }

  // ----- UTF-8 -----

  predicate Continues(c: char) {
    0x80 <= c as int <= 0xBF
  }

  /** The code point that these bytes are the shortest form of. */
  function Decoded(b: string): Option<nat> {
    if |b| == 1 && b[0] as int <= 0x7F then Some(b[0] as int)
    else if |b| == 2 && 0xC2 <= b[0] as int <= 0xDF && Continues(b[1]) then
      Some((b[0] as int - 0xC0) * 0x40 + (b[1] as int - 0x80))
    else if |b| == 3 && 0xE0 <= b[0] as int <= 0xEF && Continues(b[1]) && Continues(b[2])
            && (b[0] as int == 0xE0 ==> 0xA0 <= b[1] as int) then
      Some((b[0] as int - 0xE0) * 0x1000 + (b[1] as int - 0x80) * 0x40 + (b[2] as int - 0x80))
    else None
  }

  /** The bytes of a code point below 0x10000 decode to it. */
  lemma Utf8Decodes(cp: nat)
    requires cp < 0x10000
    ensures Decoded(Utf8(cp)) == Some(cp)
  {
  }

  /** No other bytes do. */
  lemma DecodedOnce(a: string, b: string)
    requires Decoded(a).Some? && Decoded(a) == Decoded(b)
    ensures a == b
  {
  }

  /** UTF-8 has no surrogates: RFC 3629 section 4 leaves out ED A0 to ED BF. */
  predicate IsUtf8(b: string) {
    Decoded(b).Some? && !(|b| == 3 && b[0] as int == 0xED && 0xA0 <= b[1] as int)
  }

  /** The bytes of an escape are UTF-8 exactly when it is not one of a surrogate pair, which is not put together. */
  lemma Utf8Iff(cp: nat)
    requires cp < 0x10000
    ensures IsUtf8(Utf8(cp)) <==> !(0xD800 <= cp <= 0xDFFF)
  {
  }

  // ----- Escapes -----

  /** The character that section 7 gives each escape of two characters. */
  function EscapeMeaning(letter: char): Option<char> {
    match letter
    case '"' => Some('"')
    case '\\' => Some('\\')
    case '/' => Some('/')
    case 'b' => Some('\U{8}')
    case 'f' => Some('\U{c}')
    case 'n' => Some('\U{a}')
    case 'r' => Some('\U{d}')
    case 't' => Some('\U{9}')
    case _ => None
  }

  lemma ShortEscapeReads(letter: char, rest: string)
    requires letter != 'u'
    ensures EscapeTail([letter] + rest) ==
            if EscapeMeaning(letter).Some? then Ok(Parsed([EscapeMeaning(letter).value], rest)) else Err(BadEscape(letter))
  {
    assert ([letter] + rest)[1..] == rest;
  }

  lemma HexStep(s: string, n: nat, cp: nat)
    requires n > 0 && s != "" && HexValue(s[0]).Some?
    ensures HexDigits(s, n, cp) == HexDigits(s[1..], n - 1, cp * 16 + HexValue(s[0]).value)
  {
  }

  lemma FourHexRead(digits: string, rest: string)
    requires FourHex(digits)
    ensures HexDigits(digits + rest, 4, 0) == Ok(Parsed(HexNumber(digits), rest))
  {
    var s := digits + rest;
    var d0, d1, d2 := HexValue(s[0]).value, HexValue(s[1]).value, HexValue(s[2]).value;
    HexStep(s, 4, 0);
    HexStep(s[1..], 3, d0);
    HexStep(s[1..][1..], 2, d0 * 16 + d1);
    HexStep(s[1..][1..][1..], 1, (d0 * 16 + d1) * 16 + d2);
    assert s[1..][1..][1..][1..] == rest;
  }

  lemma UnicodeEscapeReads(digits: string, rest: string)
    requires FourHex(digits)
    ensures EscapeTail(['u'] + (digits + rest)) == Ok(Parsed(Utf8(HexNumber(digits)), rest))
  {
    assert (['u'] + (digits + rest))[1..] == digits + rest;
    FourHexRead(digits, rest);
  }

  /** Four hex digits of a code point, in either case. */
  predicate Writes(digits: string, cp: nat) {
    && |digits| == 4 && cp < 0x10000
    && IsHex(digits[0], cp / 0x1000) && IsHex(digits[1], cp / 0x100 % 16) && IsHex(digits[2], cp / 0x10 % 16) && IsHex(digits[3], cp % 16)
  }

  lemma HexFrom(digits: string, d0: nat, d1: nat, d2: nat, d3: nat)
    requires |digits| == 4 && IsHex(digits[0], d0) && IsHex(digits[1], d1) && IsHex(digits[2], d2) && IsHex(digits[3], d3)
    ensures FourHex(digits) && HexNumber(digits) == d0 * 0x1000 + d1 * 0x100 + d2 * 0x10 + d3
  {
    HexValueIff(digits[0], d0);
    HexValueIff(digits[1], d1);
    HexValueIff(digits[2], d2);
    HexValueIff(digits[3], d3);
  }

  lemma WritesIs(digits: string, cp: nat)
    requires Writes(digits, cp)
    ensures FourHex(digits) && HexNumber(digits) == cp
  {
    HexFrom(digits, cp / 0x1000, cp / 0x100 % 16, cp / 0x10 % 16, cp % 16);
    DigitsAdd(cp);
  }

  lemma DigitsAdd(cp: nat)
    ensures cp / 0x1000 * 0x1000 + cp / 0x100 % 16 * 0x100 + cp / 0x10 % 16 * 0x10 + cp % 16 == cp
  {
    var q := cp / 0x10;
    var r := cp / 0x100;
    assert cp == 16 * q + cp % 16;
    assert r == q / 16 && q == 16 * r + q % 16;
    assert cp / 0x1000 == r / 16 && r == 16 * (r / 16) + r % 16;
  }

  /** The escape of a code point gives the one text of bytes that decodes to it. */
  lemma UnicodeEscapeIff(digits: string, cp: nat, b: string, rest: string)
    requires Writes(digits, cp)
    ensures ParseString("\"\\u" + digits + "\"" + rest) == Ok(Parsed(b, rest)) <==> Decoded(b) == Some(cp)
  {
    WritesIs(digits, cp);
    UnicodeInQuotes(digits, Utf8(cp), rest);
    Utf8Decodes(cp);
    if Decoded(b) == Some(cp) { DecodedOnce(b, Utf8(cp)); }
  }

  /** The first half of an escaped pair comes out as three bytes of its own, which are no UTF-8. */
  lemma SurrogateIsNotUtf8()
    ensures ParseString("\"\\u" + "d83d" + "\"" + "") == Ok(Parsed(Utf8(0xD83D), "")) && !IsUtf8(Utf8(0xD83D))
  {
    assert "d83d"[0] == LowerDigits[13] && "d83d"[1] == LowerDigits[8] && "d83d"[2] == LowerDigits[3] && "d83d"[3] == LowerDigits[13];
    Utf8Decodes(0xD83D);
    UnicodeEscapeIff("d83d", 0xD83D, Utf8(0xD83D), "");
    Utf8Iff(0xD83D);
  }

  lemma UnicodeInQuotes(digits: string, v: string, rest: string)
    requires FourHex(digits) && v == Utf8(HexNumber(digits))
    ensures ParseString("\"\\u" + digits + "\"" + rest) == Ok(Parsed(v, rest))
  {
    var tail := "\"" + rest;
    UnicodeEscapeReads(digits, tail);
    assert "\"\\u" + digits + "\"" + rest == "\"" + ("\\" + (['u'] + (digits + tail)));
    OneEscape(['u'] + (digits + tail), v, rest);
  }

  lemma OneEscape(escape: string, v: string, rest: string)
    requires EscapeTail(escape) == Ok(Parsed(v, "\"" + rest))
    ensures ParseString("\"" + ("\\" + escape)) == Ok(Parsed(v, rest))
  {
    var s := "\\" + escape;
    assert ("\"" + s)[1..] == s && s[1..] == escape && ("\"" + rest)[1..] == rest && "" + v == v;
    assert Chars("\"" + rest, v) == Ok(Parsed(v, "\"" + rest));
    assert Chars(s, "") == Ok(Parsed(v, "\"" + rest));
  }
}

/** What the parser reads depends only on the value's own text: whatever follows it is left unread. */
module JsonTrailing {
  import opened Wrappers
  import opened JsonText
  import opened JsonRoundTrip
  import opened JsonIntegers
  import opened JsonGrammar

  // ----- What follows a value -----

  /**
   * If a text is read as a value with rest behind it, then with any other rest behind the
   * same text it is read as that value too, and the other rest is left; a number must end
   * at a separator, a bracket, whitespace or the end in both.
   */
  lemma RestIsIgnored(fl: Floats, s: string, v: Json, rest: string, other: string) returns (a: string)
    requires Local(fl) && ReadsValue(fl, s, v, rest) && (v.Number? ==> Stopped(rest) && Stopped(other))
    ensures s == a + rest
    ensures ReadsValue(fl, a + other, v, other) && Parse(fl, a + other) == Parse(fl, s) == Ok(v)
  {
    var w := SkipWsSplit(s, SkipWs(s));
    var t := TreeOf(fl, SkipWs(s), v, rest);
    a := w + TreeThen(t, "");
    BehindTree(w, t, rest);
    BehindTree(w, t, other);
    TreeStarts(fl, t, other);
    SkipWsStops(w, TreeThen(t, other));
    TreeReads(fl, t, other);
  }

  lemma BehindTree(w: string, t: Tree, rest: string)
    ensures (w + TreeThen(t, "")) + rest == w + TreeThen(t, rest)
  {
    TreeThenIs(t, "", rest);
    assert "" + rest == rest;
    Regroup(w, TreeThen(t, ""), rest);
  }

  /** The text is accepted if and only if it starts, after whitespace, with a value. */
  lemma AcceptedIff(fl: Floats, s: string, v: Json)
    ensures Parse(fl, s) == Ok(v) <==> exists rest :: ReadsValue(fl, s, v, rest)
  {
    if Parse(fl, s) == Ok(v) {
      assert ReadsValue(fl, s, v, ElementBody(fl, SkipWs(s)).value.rest);
    }
  }

  /** The whole-number scanner does not read on either. */
  lemma IntegersAreLocal()
    ensures Local(Integers)
  {
    forall p, rest | Stopped(rest) ensures Scan(p + rest) == Scan(p) {
      ScanStops(p, rest);
    }
  }

  lemma ScanStops(p: string, rest: string)
    requires Stopped(rest)
    ensures Scan(p + rest) == Scan(p)
  {
    if p == "" {
      assert p + rest == rest;
    } else {
      var sign := if p[0] == '-' then 1 else 0;
      assert (p + rest)[sign..] == p[sign..] + rest;
      DigitsStop(p[sign..], rest);
      var n := Digits(p[sign..]);
      assert (p[sign..] + rest)[..n] == p[sign..][..n];
    }
  }

  lemma {:induction false} DigitsStop(p: string, rest: string)
    requires Stopped(rest)
    ensures Digits(p + rest) == Digits(p)
  {
    if p == "" {
      assert p + rest == rest && Digits(rest) == 0;
    } else {
      assert (p + rest)[1..] == p[1..] + rest;
      if IsDigit(p[0]) { DigitsStop(p[1..], rest); }
    }
  }

  // ----- Texts that RFC 8259 does not have -----

  /** Section 2 has one value and whitespace around it; here anything may follow. */
  lemma TextAfterValueIgnored(fl: Floats, rest: string)
    ensures Parse(fl, "null" + rest) == Ok(Null)
  {
    var s := "null" + rest;
    WordRead("null", rest);
    assert s[0] == 'n' && SkipWs(s) == s;
    assert ElementBody(fl, s) == Ok(Parsed(Null, rest));
  }

  /** Section 6 has no leading zero; here the test does not look behind a minus sign. */
  lemma LeadingZeroAfterMinus()
    ensures Parse(Integers, "01") == Err(LeadingZero)
    ensures Parse(Integers, "-01") == Ok(Number(-1))
  {
    var p, m := "01", "-01";
    assert p[1..] == "1" && p[1..][1..] == "";
    assert Digits(p[1..]) == 1 && Digits(p) == 2;
    assert m[1..] == p && Digits(m[1..]) == 2 && p[..2] == p && p[..1] == "0" && p[..0] == "";
    assert p[..2][..1] == "0" && ValueOf("0") == 0 && ValueOf(p) == 1;
    assert p[0..] == p;
    assert SkipWs(p) == p && SkipWs(m) == m;
  }

  /** Section 7 has control characters escaped; here they stand for themselves. */
  lemma RawControlAccepted(fl: Floats, c: char)
    requires c != '"' && c != '\\'
    ensures Parse(fl, "\"" + [c] + "\"") == Ok(Str([c]))
  {
    var s := "\"" + [c] + "\"";
    assert s[1..] == [c, '"'] && s[1..][1..] == ['"'];
    assert Chars(['"'], [c]) == Ok(Parsed([c], ['"']));
    assert [] + [c] == [c];
    assert Chars(s[1..], "") == Ok(Parsed([c], ['"']));
    assert s[0] == '"' && SkipWs(s) == s && ParseString(s) == Ok(Parsed([c], ""));
    assert ElementBody(fl, s) == Ok(Parsed(Str([c]), ""));
  }
}

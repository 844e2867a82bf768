/** A number printer and scanner that keep the promises the round trip needs: whole numbers in decimal. */
module JsonIntegers {
  import opened Wrappers
  import opened JsonText
  import opened JsonRoundTrip

  function Show(x: int): string {
    if x < 0 then "-" + ShowNat(-x) else ShowNat(x)
  }

  function ShowNat(n: nat): (r: string)
    ensures r != ""
  {
    var digit := ['0' + (n % 10) as char];
    if n < 10 then digit else ShowNat(n / 10) + digit
  }

  /** How many digits s starts with. */
  function Digits(s: string): (r: nat)
    ensures r <= |s|
  {
    if s != "" && IsDigit(s[0]) then 1 + Digits(s[1..]) else 0
  }

  function ValueOf(s: string): nat
    requires forall i :: 0 <= i < |s| ==> IsDigit(s[i])
  {
    if s == "" then 0 else
      assert IsDigit(s[|s| - 1]);
      ValueOf(s[..|s| - 1]) * 10 + (s[|s| - 1] as int - '0' as int)
  }

  lemma DigitsAreDigits(s: string)
    ensures forall i :: 0 <= i < Digits(s) ==> IsDigit(s[i])
  {
    if s != "" && IsDigit(s[0]) {
      DigitsAreDigits(s[1..]);
      forall i | 0 <= i < Digits(s) ensures IsDigit(s[i]) {
        if i > 0 { assert s[i] == s[1..][i - 1]; }
      }
    }
  }

  function Scan(s: string): Option<(int, nat)> {
    var sign := if s != "" && s[0] == '-' then 1 else 0;
    var n := Digits(s[sign..]);
    if n == 0 then None
    else
      DigitsAreDigits(s[sign..]);
      var magnitude: int := ValueOf(s[sign..][..n]);
      Some((if sign == 1 then -magnitude else magnitude, sign + n))
  }

  const Integers := Floats((x: int) => true, Show, Scan)

  lemma {:induction false} ShowNatReads(n: nat)
    ensures forall i :: 0 <= i < |ShowNat(n)| ==> IsDigit(ShowNat(n)[i])
    ensures ValueOf(ShowNat(n)) == n
    ensures ShowNat(n)[0] == '0' ==> n == 0
    ensures |ShowNat(n)| > 1 ==> n >= 10
  {
    if n >= 10 {
      ShowNatReads(n / 10);
      var t := ShowNat(n);
      assert t[..|t| - 1] == ShowNat(n / 10) && t[0] == ShowNat(n / 10)[0];
    } else {
      assert ValueOf(ShowNat(n)[..0]) == 0;
    }
  }

  lemma {:induction false} DigitsUpTo(t: string, rest: string)
    requires forall i :: 0 <= i < |t| ==> IsDigit(t[i])
    requires rest == "" || !IsDigit(rest[0])
    ensures Digits(t + rest) == |t|
  {
    if t != "" {
      assert (t + rest)[1..] == t[1..] + rest;
      DigitsUpTo(t[1..], rest);
    } else {
      assert t + rest == rest;
    }
  }

  lemma ScanReads(x: int, rest: string)
    requires Delimited(rest)
    ensures Scan(Show(x) + rest) == Some((x, |Show(x)|))
  {
    var magnitude := if x < 0 then -x else x;
    var t := ShowNat(magnitude);
    ShowNatReads(magnitude);
    DigitsUpTo(t, rest);
    var s := Show(x) + rest;
    var sign := if x < 0 then 1 else 0;
    assert s[sign..] == t + rest;
    assert (t + rest)[..|t|] == t;
    assert IsDigit(t[0]);
    assert s[0] == '-' <==> x < 0;
  }

  /** So the round trip theorems are not empty: they hold of this printer and scanner. */
  lemma IntegersAreFaithful()
    ensures Faithful(Integers)
  {
    forall x: int, rest | Delimited(rest)
      ensures Show(x) != "" && (Show(x)[0] == '-' || IsDigit(Show(x)[0]))
      ensures !(Show(x)[0] == '0' && |Show(x)| > 1 && IsDigit(Show(x)[1]))
      ensures Scan(Show(x) + rest) == Some((x, |Show(x)|))
    {
      ShowNatReads(if x < 0 then -x else x);
      ScanReads(x, rest);
    }
  }

  /** Every document whose numbers are whole survives printing at any indentation and parsing. */
  lemma IntegerDocumentsRoundTrip(v: Json, indentation: int)
    requires WellFormed(v)
    ensures Parse(Integers, Format(Integers, v, indentation)) == Ok(v)
  {
    IntegersAreFaithful();
    AllWhole(v);
    ParseUndoesPrint(Integers, v, indentation);
  }

  lemma AllWhole(v: Json)
    ensures AllFinite(Integers, v)
    decreases v
  {
    match v
    case Object(ms) => forall i | 0 <= i < |ms| ensures AllFinite(Integers, ms[i].value) { AllWhole(ms[i].value); }
    case Array(es) => forall i | 0 <= i < |es| ensures AllFinite(Integers, es[i]) { AllWhole(es[i]); }
    case _ =>
  }
}

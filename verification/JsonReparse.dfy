/** What the parser accepts is a well-formed value, so parsing, printing and parsing again changes nothing. */
module JsonReparse {
  import opened Wrappers
  import opened JsonText
  import opened JsonRoundTrip
  import opened JsonGrammar

  lemma {:induction false} KeyLessTransitive(a: string, b: string, c: string)
    requires KeyLess(a, b) && KeyLess(b, c)
    ensures KeyLess(a, c)
  {
    if a != "" && a[0] == b[0] && b[0] == c[0] { KeyLessTransitive(a[1..], b[1..], c[1..]); }
  }

  lemma {:induction false} KeyLessTotal(a: string, b: string)
    ensures KeyLess(a, b) || KeyLess(b, a) || a == b
  {
    if a != "" && b != "" && a[0] == b[0] {
      KeyLessTotal(a[1..], b[1..]);
      assert a == [a[0]] + a[1..] && b == [b[0]] + b[1..];
    }
  }

  /** The value an object holds under a key. */
  function Lookup(ms: seq<Member>, key: string): Option<Json> {
    if ms == [] then None else if ms[0].key == key then Some(ms[0].value) else Lookup(ms[1..], key)
  }

  /** j[key] = value on a map in key order: still in order, the key bound to the value, all others as before. */
  lemma {:induction false} AssignIsMapUpdate(ms: seq<Member>, key: string, value: Json, other: string)
    requires SortedKeys(ms)
    ensures SortedKeys(Assign(ms, key, value))
    ensures Lookup(Assign(ms, key, value), key) == Some(value)
    ensures other != key ==> Lookup(Assign(ms, key, value), other) == Lookup(ms, other)
  {
    var r := Assign(ms, key, value);
    if ms == [] || KeyLess(key, ms[0].key) {
      forall j | 1 <= j < |r| ensures KeyLess(key, r[j].key) {
        if j > 1 { KeyLessTransitive(key, ms[0].key, ms[j - 1].key); }
      }
      SortedWith(Member(key, value), ms);
      assert r[1..] == ms;
    } else {
      KeyLessTotal(key, ms[0].key);
      if ms[0].key == key {
        SortedWith(Member(key, value), ms[1..]);
        assert r[1..] == ms[1..];
      } else {
        AssignIsMapUpdate(ms[1..], key, value, other);
        AssignKeys(ms[1..], key, value);
        SortedWith(ms[0], Assign(ms[1..], key, value));
        assert r[1..] == Assign(ms[1..], key, value);
      }
    }
  }

  /** The value of the last member of a text's object with this key. */
  function LastValue(fl: Floats, ms: seq<MemberTree>, key: string): Option<Json> {
    if ms == [] then None
    else if LastValue(fl, ms[1..], key).Some? then LastValue(fl, ms[1..], key)
    else if PiecesValue(ms[0].key) == key then Some(TreeValue(fl, ms[0].value.tree))
    else None
  }

  /** Of members with the same key the last one wins, and the members stand in key order. */
  lemma {:induction false} LastMemberWins(fl: Floats, ms: seq<MemberTree>, acc: seq<Member>, key: string)
    requires SortedKeys(acc)
    ensures SortedKeys(MembersValue(fl, ms, acc))
    ensures Lookup(MembersValue(fl, ms, acc), key) ==
            if LastValue(fl, ms, key).Some? then LastValue(fl, ms, key) else Lookup(acc, key)
    decreases |ms|
  {
    if ms != [] {
      var k, v := PiecesValue(ms[0].key), TreeValue(fl, ms[0].value.tree);
      AssignIsMapUpdate(acc, k, v, key);
      LastMemberWins(fl, ms[1..], Assign(acc, k, v), key);
    }
  }

  lemma SortedWith(m: Member, ms: seq<Member>)
    requires SortedKeys(ms) && forall j :: 0 <= j < |ms| ==> KeyLess(m.key, ms[j].key)
    ensures SortedKeys([m] + ms)
  {
  }

  lemma {:induction false} AssignKeys(ms: seq<Member>, key: string, value: Json)
    ensures forall j :: 0 <= j < |Assign(ms, key, value)| ==>
              Assign(ms, key, value)[j] == Member(key, value) || Assign(ms, key, value)[j] in ms
  {
    if !(ms == [] || KeyLess(key, ms[0].key) || ms[0].key == key) { AssignKeys(ms[1..], key, value); }
  }

  lemma AssignKeepsWellFormed(ms: seq<Member>, m: Member)
    requires MembersWellFormed(ms) && WellFormed(m.value)
    ensures MembersWellFormed(Assign(ms, m.key, m.value))
  {
    AssignIsMapUpdate(ms, m.key, m.value, m.key);
    AssignKeys(ms, m.key, m.value);
  }

  lemma {:induction false} ElementWellFormed(fl: Floats, s: string)
    ensures Element(fl, s).Ok? ==> WellFormed(Element(fl, s).value.value)
    decreases |s|, 3
  {
    var s1 := SkipWs(s);
    if s1 != "" { BodyWellFormed(fl, s1); }
  }

  lemma {:induction false} BodyWellFormed(fl: Floats, s: string)
    requires s != ""
    ensures ElementBody(fl, s).Ok? ==> WellFormed(ElementBody(fl, s).value.value)
    decreases |s|, 2
  {
    if s[0] == '{' && SkipWs(s[1..]) != "" {
      ObjectWellFormed(fl, SkipWs(s[1..]), []);
    } else if s[0] == '[' && SkipWs(s[1..]) != "" {
      ArrayWellFormed(fl, SkipWs(s[1..]), []);
    }
  }

  lemma {:induction false} ObjectWellFormed(fl: Floats, s: string, acc: seq<Member>)
    requires MembersWellFormed(acc)
    ensures ObjectLoop(fl, s, acc).Ok? ==> MembersWellFormed(ObjectLoop(fl, s, acc).value.value)
    decreases |s|, 5
  {
    var m := ParseMember(fl, s);
    if m.Ok? {
      MemberWellFormed(fl, s);
      AssignKeepsWellFormed(acc, m.value.value);
      var s1 := SkipWs(m.value.rest);
      if s1 != "" && s1[0] == ',' {
        ObjectWellFormed(fl, s1[1..], Assign(acc, m.value.value.key, m.value.value.value));
      }
    }
  }

  lemma {:induction false} MemberWellFormed(fl: Floats, s: string)
    ensures ParseMember(fl, s).Ok? ==> WellFormed(ParseMember(fl, s).value.value.value)
    decreases |s|, 4
  {
    var id := ParseString(SkipWs(s));
    if id.Ok? {
      var colon := Match(SkipWs(id.value.rest), ':');
      if colon.Ok? { ElementWellFormed(fl, colon.value); }
    }
  }

  lemma {:induction false} ArrayWellFormed(fl: Floats, s: string, acc: seq<Json>)
    requires WellFormed(Array(acc))
    ensures ArrayLoop(fl, s, acc).Ok? ==> WellFormed(Array(ArrayLoop(fl, s, acc).value.value))
    decreases |s|, 4
  {
    var v := Element(fl, s);
    if v.Ok? {
      ElementWellFormed(fl, s);
      var s1 := SkipWs(v.value.rest);
      if s1 != "" && s1[0] == ',' { ArrayWellFormed(fl, s1[1..], acc + [v.value.value]); }
    }
  }

  /** Whatever text was parsed, printing the value and parsing it again gives the value again (infinities as null). */
  lemma ReparseIsStable(fl: Floats, text: string, indentation: int)
    requires Faithful(fl) && Parse(fl, text).Ok?
    ensures WellFormed(Parse(fl, text).value)
    ensures Parse(fl, Format(fl, Parse(fl, text).value, indentation)) == Ok(Nulled(fl, Parse(fl, text).value))
  {
    ElementWellFormed(fl, text);
    FormatRoundTrip(fl, Parse(fl, text).value, indentation);
  }
}

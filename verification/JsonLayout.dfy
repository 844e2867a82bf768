/** What format(v, n) and dump(v) look like: the lines of a value, each with the depth it stands at. */
module JsonLayout {
  import opened Wrappers
  import opened JsonText

  datatype Line = Line(depth: nat, text: string)

  /** The lines of a value; colon is what stands between a key and its value. */
  function LinesOf(fl: Floats, v: Json, colon: string): (r: seq<Line>)
    ensures r != [] && r[0].depth == 0
    decreases v
  {
    match v
    case Object(ms) =>
      if ms == [] then [Line(0, "{}")] else [Line(0, "{")] + Deeper(MemberLines(fl, ms, colon)) + [Line(0, "}")]
    case Array(es) =>
      if es == [] then [Line(0, "[]")] else [Line(0, "[")] + Deeper(ElementLines(fl, es, colon)) + [Line(0, "]")]
    case _ => [Line(0, Literal(fl, v))]
  }

  /** Each member on lines of its own, the key in front, a comma behind all but the last. */
  function MemberLines(fl: Floats, ms: seq<Member>, colon: string): seq<Line>
    decreases ms
  {
    if ms == [] then []
    else
      var first := Labelled(Quoted(ms[0].key) + colon, LinesOf(fl, ms[0].value, colon));
      if |ms| == 1 then first else WithComma(first) + MemberLines(fl, ms[1..], colon)
  }

  function ElementLines(fl: Floats, es: seq<Json>, colon: string): seq<Line>
    decreases es
  {
    if es == [] then []
    else
      var first := LinesOf(fl, es[0], colon);
      if |es| == 1 then first else WithComma(first) + ElementLines(fl, es[1..], colon)
  }

  function Deeper(ls: seq<Line>): (r: seq<Line>)
    ensures |r| == |ls|
  {
    seq(|ls|, i requires 0 <= i < |ls| => Line(ls[i].depth + 1, ls[i].text))
  }

  function Labelled(prefix: string, ls: seq<Line>): (r: seq<Line>)
    requires ls != []
    ensures |r| == |ls|
  {
    ls[0 := Line(ls[0].depth, prefix + ls[0].text)]
  }

  function WithComma(ls: seq<Line>): (r: seq<Line>)
    requires ls != []
    ensures |r| == |ls|
  {
    ls[|ls| - 1 := Line(ls[|ls| - 1].depth, ls[|ls| - 1].text + ",")]
  }

  /** The lines, each after a line break and so many spaces for each level of its depth. */
  function Broken(ls: seq<Line>, n: nat, base: nat): string {
    if ls == [] then "" else "\n" + (Spaces(base + n * ls[0].depth) + (ls[0].text + Broken(ls[1..], n, base)))
  }

  /** Without a break and spaces before the first. */
  function Laid(ls: seq<Line>, n: nat, base: nat): string
    requires ls != []
  {
    ls[0].text + Broken(ls[1..], n, base)
  }

  /** Line behind line. */
  function Flat(ls: seq<Line>): string {
    if ls == [] then "" else ls[0].text + Flat(ls[1..])
  }

  lemma {:induction false} SpacesAre(n: nat)
    ensures |Spaces(n)| == n && forall i :: 0 <= i < n ==> Spaces(n)[i] == ' '
  {
    if n > 0 { SpacesAre(n - 1); }
  }

  lemma Group3(a: string, b: string, c: string, d: string)
    ensures (a + (b + c)) + d == a + (b + (c + d))
  {
  }

  lemma {:induction false} BrokenConcat(a: seq<Line>, b: seq<Line>, n: nat, base: nat)
    ensures Broken(a + b, n, base) == Broken(a, n, base) + Broken(b, n, base)
  {
    if a == [] {
      assert a + b == b;
    } else {
      assert (a + b)[1..] == a[1..] + b;
      BrokenConcat(a[1..], b, n, base);
      var s := Spaces(base + n * a[0].depth);
      assert Broken(a, n, base) + Broken(b, n, base) == "\n" + (s + (a[0].text + (Broken(a[1..], n, base) + Broken(b, n, base))));
    }
  }

  lemma Level(n: nat, depth: nat)
    ensures n * (depth + 1) == n + n * depth
  {
  }

  lemma {:induction false} BrokenDeeper(ls: seq<Line>, n: nat, base: nat)
    ensures Broken(Deeper(ls), n, base) == Broken(ls, n, base + n)
  {
    if ls != [] {
      assert Deeper(ls)[1..] == Deeper(ls[1..]);
      BrokenDeeper(ls[1..], n, base);
      Level(n, ls[0].depth);
    }
  }

  lemma LaidLabelled(prefix: string, ls: seq<Line>, n: nat, base: nat)
    requires ls != []
    ensures Laid(Labelled(prefix, ls), n, base) == prefix + Laid(ls, n, base)
  {
    assert Labelled(prefix, ls)[1..] == ls[1..];
  }

  lemma {:induction false} LaidComma(ls: seq<Line>, n: nat, base: nat)
    requires ls != []
    ensures Laid(WithComma(ls), n, base) == Laid(ls, n, base) + ","
    decreases |ls|
  {
    if |ls| == 1 {
      assert Broken(WithComma(ls)[1..], n, base) == "" == Broken(ls[1..], n, base);
    } else {
      assert WithComma(ls)[1..] == WithComma(ls[1..]);
      LaidComma(ls[1..], n, base);
    }
  }

  /** Lines of which the first stands at depth 0. */
  lemma BrokenIsLaid(ls: seq<Line>, n: nat, base: nat)
    requires ls != [] && ls[0].depth == 0
    ensures Broken(ls, n, base) == "\n" + (Spaces(base) + Laid(ls, n, base))
  {
    assert n * 0 == 0;
  }

  lemma BracketsLaid(open: string, ls: seq<Line>, close: string, n: nat, base: nat)
    ensures Laid([Line(0, open)] + ls + [Line(0, close)], n, base) == open + (Broken(ls, n, base) + ("\n" + (Spaces(base) + close)))
  {
    var all := [Line(0, open)] + ls + [Line(0, close)];
    assert all[1..] == ls + [Line(0, close)];
    BrokenConcat(ls, [Line(0, close)], n, base);
    BrokenIsLaid([Line(0, close)], n, base);
    assert [Line(0, close)][1..] == [];
    assert close + "" == close;
  }

  lemma ObjectText(fl: Floats, ms: seq<Member>, n: nat, cur: nat, inner: string)
    requires ms != [] && inner == "\n" + MembersText(fl, ms, n, cur + n)
    ensures Text(fl, Object(ms), n, cur) == "{" + (inner + ("\n" + (Spaces(cur) + "}")))
  {
  }

  lemma ArrayText(fl: Floats, es: seq<Json>, n: nat, cur: nat, inner: string)
    requires es != [] && inner == "\n" + ElementsText(fl, es, n, cur + n)
    ensures Text(fl, Array(es), n, cur) == "[" + (inner + ("\n" + (Spaces(cur) + "]")))
  {
  }

  lemma OneLine(text: string, n: nat, base: nat)
    ensures Laid([Line(0, text)], n, base) == text
  {
    assert [Line(0, text)][1..] == [] && text + "" == text;
  }

  /** The printed text is the value's lines, each led by n times its depth in spaces. */
  lemma {:induction false} TextIsLaid(fl: Floats, v: Json, n: nat, cur: nat)
    ensures Text(fl, v, n, cur) == Laid(LinesOf(fl, v, ": "), n, cur)
    decreases v, 1
  {
    if v.Object? && v.members != [] {
      ObjectIsLaid(fl, v.members, n, cur);
    } else if v.Array? && v.elements != [] {
      ArrayIsLaid(fl, v.elements, n, cur);
    } else {
      OneLine(LinesOf(fl, v, ": ")[0].text, n, cur);
    }
  }

  lemma {:induction false} ObjectIsLaid(fl: Floats, ms: seq<Member>, n: nat, cur: nat)
    requires ms != []
    ensures Text(fl, Object(ms), n, cur) == Laid(LinesOf(fl, Object(ms), ": "), n, cur)
    decreases ms, 1
  {
    var ls := MemberLines(fl, ms, ": ");
    MembersAreLaid(fl, ms, n, cur + n);
    BrokenDeeper(ls, n, cur);
    BracketsLaid("{", Deeper(ls), "}", n, cur);
    ObjectText(fl, ms, n, cur, Broken(ls, n, cur + n));
  }

  lemma {:induction false} ArrayIsLaid(fl: Floats, es: seq<Json>, n: nat, cur: nat)
    requires es != []
    ensures Text(fl, Array(es), n, cur) == Laid(LinesOf(fl, Array(es), ": "), n, cur)
    decreases es, 1
  {
    var ls := ElementLines(fl, es, ": ");
    ElementsAreLaid(fl, es, n, cur + n);
    BrokenDeeper(ls, n, cur);
    BracketsLaid("[", Deeper(ls), "]", n, cur);
    ArrayText(fl, es, n, cur, Broken(ls, n, cur + n));
  }

  lemma MembersFirst(fl: Floats, ms: seq<Member>, indentation: int, cur: int, first: string)
    requires ms != []
    requires first == Lead(indentation, cur) + Quoted(ms[0].key) + Colon(indentation) + Text(fl, ms[0].value, indentation, cur)
    ensures |ms| == 1 ==> MembersText(fl, ms, indentation, cur) == first
    ensures |ms| > 1 ==> MembersText(fl, ms, indentation, cur) == first + Comma(indentation) + MembersText(fl, ms[1..], indentation, cur)
  {
  }

  lemma GroupMember(lead: string, key: string, colon: string, text: string)
    ensures lead + key + colon + text == lead + (key + colon + text)
  {
  }

  lemma BreakAfter(first: string, rest: string)
    ensures "\n" + (first + ",\n" + rest) == "\n" + (first + ",") + ("\n" + rest)
  {
  }

  lemma FirstMemberText(fl: Floats, ms: seq<Member>, n: nat, cur: nat, laid: string)
    requires ms != [] && laid == Quoted(ms[0].key) + ": " + Text(fl, ms[0].value, n, cur)
    ensures |ms| == 1 ==> "\n" + MembersText(fl, ms, n, cur) == "\n" + (Spaces(cur) + laid)
    ensures |ms| > 1 ==>
              "\n" + MembersText(fl, ms, n, cur) == "\n" + (Spaces(cur) + (laid + ",")) + ("\n" + MembersText(fl, ms[1..], n, cur))
  {
    GroupMember(Spaces(cur), Quoted(ms[0].key), ": ", Text(fl, ms[0].value, n, cur));
    MembersFirst(fl, ms, n, cur, Spaces(cur) + laid);
    if |ms| > 1 {
      BreakAfter(Spaces(cur) + laid, MembersText(fl, ms[1..], n, cur));
      assert Spaces(cur) + laid + "," == Spaces(cur) + (laid + ",");
    }
  }

  lemma ElementsFirst(fl: Floats, es: seq<Json>, indentation: int, cur: int, first: string)
    requires es != [] && first == Lead(indentation, cur) + Text(fl, es[0], indentation, cur)
    ensures |es| == 1 ==> ElementsText(fl, es, indentation, cur) == first
    ensures |es| > 1 ==> ElementsText(fl, es, indentation, cur) == first + Comma(indentation) + ElementsText(fl, es[1..], indentation, cur)
  {
  }

  lemma FirstElementText(fl: Floats, es: seq<Json>, n: nat, cur: nat, laid: string)
    requires es != [] && laid == Text(fl, es[0], n, cur)
    ensures |es| == 1 ==> "\n" + ElementsText(fl, es, n, cur) == "\n" + (Spaces(cur) + laid)
    ensures |es| > 1 ==>
              "\n" + ElementsText(fl, es, n, cur) == "\n" + (Spaces(cur) + (laid + ",")) + ("\n" + ElementsText(fl, es[1..], n, cur))
  {
    ElementsFirst(fl, es, n, cur, Spaces(cur) + laid);
    if |es| > 1 {
      BreakAfter(Spaces(cur) + laid, ElementsText(fl, es[1..], n, cur));
      assert Spaces(cur) + laid + "," == Spaces(cur) + (laid + ",");
    }
  }

  /** The lines of the first member or element, and the others. */
  lemma FirstBroken(first: seq<Line>, others: seq<Line>, n: nat, cur: nat)
    requires first != [] && first[0].depth == 0
    ensures Broken(first, n, cur) == "\n" + (Spaces(cur) + Laid(first, n, cur))
    ensures Broken(WithComma(first) + others, n, cur) == "\n" + (Spaces(cur) + (Laid(first, n, cur) + ",")) + Broken(others, n, cur)
  {
    BrokenIsLaid(first, n, cur);
    LaidComma(first, n, cur);
    BrokenIsLaid(WithComma(first), n, cur);
    BrokenConcat(WithComma(first), others, n, cur);
  }

  lemma {:induction false} MembersAreLaid(fl: Floats, ms: seq<Member>, n: nat, cur: nat)
    requires ms != []
    ensures "\n" + MembersText(fl, ms, n, cur) == Broken(MemberLines(fl, ms, ": "), n, cur)
    decreases ms, 0
  {
    var prefix := Quoted(ms[0].key) + ": ";
    var first := Labelled(prefix, LinesOf(fl, ms[0].value, ": "));
    TextIsLaid(fl, ms[0].value, n, cur);
    LaidLabelled(prefix, LinesOf(fl, ms[0].value, ": "), n, cur);
    FirstMemberText(fl, ms, n, cur, Laid(first, n, cur));
    FirstBroken(first, MemberLines(fl, ms[1..], ": "), n, cur);
    if |ms| > 1 { MembersAreLaid(fl, ms[1..], n, cur); }
  }

  lemma {:induction false} ElementsAreLaid(fl: Floats, es: seq<Json>, n: nat, cur: nat)
    requires es != []
    ensures "\n" + ElementsText(fl, es, n, cur) == Broken(ElementLines(fl, es, ": "), n, cur)
    decreases es, 0
  {
    var first := LinesOf(fl, es[0], ": ");
    TextIsLaid(fl, es[0], n, cur);
    FirstElementText(fl, es, n, cur, Laid(first, n, cur));
    FirstBroken(first, ElementLines(fl, es[1..], ": "), n, cur);
    if |es| > 1 { ElementsAreLaid(fl, es[1..], n, cur); }
  }

  /** format(v, n) is the value's lines, each led by n times its depth in spaces. */
  lemma FormatIsLaid(fl: Floats, v: Json, n: nat)
    ensures Format(fl, v, n) == Laid(LinesOf(fl, v, ": "), n, 0)
  {
    TextIsLaid(fl, v, n, 0);
  }

  // ----- The compact form -----

  lemma {:induction false} FlatConcat(a: seq<Line>, b: seq<Line>)
    ensures Flat(a + b) == Flat(a) + Flat(b)
  {
    if a == [] {
      assert a + b == b;
    } else {
      assert (a + b)[1..] == a[1..] + b;
      FlatConcat(a[1..], b);
    }
  }

  lemma {:induction false} FlatDeeper(ls: seq<Line>)
    ensures Flat(Deeper(ls)) == Flat(ls)
  {
    if ls != [] {
      assert Deeper(ls)[1..] == Deeper(ls[1..]);
      FlatDeeper(ls[1..]);
    }
  }

  lemma FlatLabelled(prefix: string, ls: seq<Line>)
    requires ls != []
    ensures Flat(Labelled(prefix, ls)) == prefix + Flat(ls)
  {
    assert Labelled(prefix, ls)[1..] == ls[1..];
  }

  lemma {:induction false} FlatComma(ls: seq<Line>)
    requires ls != []
    ensures Flat(WithComma(ls)) == Flat(ls) + ","
    decreases |ls|
  {
    if |ls| == 1 {
      assert Flat(WithComma(ls)[1..]) == "" == Flat(ls[1..]);
    } else {
      assert WithComma(ls)[1..] == WithComma(ls[1..]);
      FlatComma(ls[1..]);
    }
  }

  lemma FlatOne(text: string)
    ensures Flat([Line(0, text)]) == text
  {
    assert [Line(0, text)][1..] == [] && text + "" == text;
  }

  lemma FlatBrackets(open: string, ls: seq<Line>, close: string)
    ensures Flat([Line(0, open)] + Deeper(ls) + [Line(0, close)]) == open + Flat(ls) + close
  {
    FlatOne(open);
    FlatOne(close);
    FlatDeeper(ls);
    FlatConcat([Line(0, open)], Deeper(ls));
    FlatConcat([Line(0, open)] + Deeper(ls), [Line(0, close)]);
  }

  lemma CompactContainers(fl: Floats, v: Json)
    ensures v.Object? && v.members != [] ==> Text(fl, v, -1, 0) == "{" + MembersText(fl, v.members, -1, 0) + "}"
    ensures v.Array? && v.elements != [] ==> Text(fl, v, -1, 0) == "[" + ElementsText(fl, v.elements, -1, 0) + "]"
  {
  }

  lemma {:induction false} TextIsFlat(fl: Floats, v: Json)
    ensures Text(fl, v, -1, 0) == Flat(LinesOf(fl, v, ":"))
    decreases v, 1
  {
    CompactContainers(fl, v);
    if v.Object? && v.members != [] {
      MembersAreFlat(fl, v.members);
      FlatBrackets("{", MemberLines(fl, v.members, ":"), "}");
    } else if v.Array? && v.elements != [] {
      ElementsAreFlat(fl, v.elements);
      FlatBrackets("[", ElementLines(fl, v.elements, ":"), "]");
    } else {
      FlatOne(LinesOf(fl, v, ":")[0].text);
    }
  }

  lemma CompactMember(fl: Floats, ms: seq<Member>, flat: string)
    requires ms != [] && flat == Quoted(ms[0].key) + ":" + Text(fl, ms[0].value, -1, 0)
    ensures |ms| == 1 ==> MembersText(fl, ms, -1, 0) == flat
    ensures |ms| > 1 ==> MembersText(fl, ms, -1, 0) == flat + "," + MembersText(fl, ms[1..], -1, 0)
  {
    GroupMember("", Quoted(ms[0].key), ":", Text(fl, ms[0].value, -1, 0));
    assert "" + flat == flat;
    MembersFirst(fl, ms, -1, 0, flat);
  }

  lemma CompactElement(fl: Floats, es: seq<Json>, flat: string)
    requires es != [] && flat == Text(fl, es[0], -1, 0)
    ensures |es| == 1 ==> ElementsText(fl, es, -1, 0) == flat
    ensures |es| > 1 ==> ElementsText(fl, es, -1, 0) == flat + "," + ElementsText(fl, es[1..], -1, 0)
  {
  }

  lemma {:induction false} MembersAreFlat(fl: Floats, ms: seq<Member>)
    requires ms != []
    ensures MembersText(fl, ms, -1, 0) == Flat(MemberLines(fl, ms, ":"))
    decreases ms, 0
  {
    var prefix, ls := Quoted(ms[0].key) + ":", LinesOf(fl, ms[0].value, ":");
    TextIsFlat(fl, ms[0].value);
    FlatLabelled(prefix, ls);
    FlatComma(Labelled(prefix, ls));
    CompactMember(fl, ms, prefix + Flat(ls));
    if |ms| > 1 {
      MembersAreFlat(fl, ms[1..]);
      FlatConcat(WithComma(Labelled(prefix, ls)), MemberLines(fl, ms[1..], ":"));
    }
  }

  lemma {:induction false} ElementsAreFlat(fl: Floats, es: seq<Json>)
    requires es != []
    ensures ElementsText(fl, es, -1, 0) == Flat(ElementLines(fl, es, ":"))
    decreases es, 0
  {
    var ls := LinesOf(fl, es[0], ":");
    TextIsFlat(fl, es[0]);
    FlatComma(ls);
    CompactElement(fl, es, Flat(ls));
    if |es| > 1 {
      ElementsAreFlat(fl, es[1..]);
      FlatConcat(WithComma(ls), ElementLines(fl, es[1..], ":"));
    }
  }

  /** dump(v) is the same lines without breaks, spaces, and the space behind a colon. */
  lemma DumpIsFlat(fl: Floats, v: Json)
    ensures Dump(fl, v) == Flat(LinesOf(fl, v, ":"))
  {
    TextIsFlat(fl, v);
  }
}

/** Where the tokenizer's loops over block comments and literals end, against where C ends them. */
module TokenizeEnds {
  import opened Wrappers
  import opened TokenizeModel

  /** The end of a token that runs to e: values stop at the end of the source. */
  function Clamped(src: string, e: nat): nat {
    if e < |src| then e else |src|
  }

  // ----- Block comments -----

  predicate ClosesAt(src: string, k: nat) {
    k + 1 < |src| && src[k] == '*' && src[k + 1] == '/'
  }

  /** The first place from pos on where a comment is closed. */
  function FirstClose(src: string, pos: nat): (r: Option<nat>)
    ensures r.Some? ==> pos <= r.value && ClosesAt(src, r.value)
    decreases |src| - pos
  {
    if pos >= |src| then None else if ClosesAt(src, pos) then Some(pos) else FirstClose(src, pos + 1)
  }

  /** How many line breaks stand directly before a place, from pos on. */
  function LineBreaksBefore(src: string, pos: nat, k: nat): (r: nat)
    requires pos <= k <= |src|
    ensures r <= k - pos
    decreases k
  {
    if pos < k && src[k - 1] == '\n' then 1 + LineBreaksBefore(src, pos, k - 1) else 0
  }

  lemma BlockEndMoves(src: string, pos: nat)
    requires pos < |src|
    ensures BlockEnd(src, pos) > pos
  {
  }

  /** The count changes only where the line breaks reach back to the start, and then with each one there. */
  lemma {:induction false} LineBreaksFrom(src: string, pos: nat, k: nat)
    requires pos < k <= |src|
    ensures LineBreaksBefore(src, pos, k) ==
            LineBreaksBefore(src, pos + 1, k) + (if LineBreaksBefore(src, pos + 1, k) == k - pos - 1 && src[pos] == '\n' then 1 else 0)
    decreases k
  {
    if pos + 1 < k && src[k - 1] == '\n' { LineBreaksFrom(src, pos, k - 1); }
  }

  /**
   * A block comment ends at its first closing mark if and only if an even number of
   * line breaks stands directly before the mark, or nothing follows it.
   */
  lemma {:induction false} CommentEndsIff(src: string, pos: nat, c: nat)
    requires FirstClose(src, pos) == Some(c)
    ensures BlockEnd(src, pos) == c + 2 <==> LineBreaksBefore(src, pos, c) % 2 == 0 || c + 2 == |src|
    decreases |src| - pos
  {
    if src[pos] == '\n' {
      LineBreaksFrom(src, pos, c);
      if pos + 1 == c {
        if c + 2 < |src| { BlockEndMoves(src, c + 2); }
        assert BlockEnd(src, pos) == BlockEnd(src, c + 1) == BlockEnd(src, c + 2);
      } else {
        LineBreaksFrom(src, pos + 1, c);
        CommentEndsIff(src, pos + 2, c);
      }
    } else if pos < c {
      LineBreaksFrom(src, pos, c);
      CommentEndsIff(src, pos + 1, c);
    }
  }

  /** A line break of the comment counts, and hides the character behind it, unless the one before it counts. */
  predicate BreakCounts(src: string, pos: nat, k: int)
    decreases k
  {
    pos <= k < |src| && src[k] == '\n' && !BreakCounts(src, pos, k - 1)
  }

  /** The first closing mark from p on that is not hidden. */
  function FirstSeenClose(src: string, pos: nat, p: nat): (r: Option<nat>)
    ensures r.Some? ==> p <= r.value && ClosesAt(src, r.value) && !BreakCounts(src, pos, r.value - 1)
    ensures forall k :: p <= k && (r.Some? ==> k < r.value) && ClosesAt(src, k) ==> BreakCounts(src, pos, k - 1)
    decreases |src| - p
  {
    if p >= |src| then None
    else if ClosesAt(src, p) && !BreakCounts(src, pos, p - 1) then Some(p)
    else FirstSeenClose(src, pos, p + 1)
  }

  /** The loop ends behind the first closing mark that no counting line break hides, and without one at the end. */
  lemma {:induction false} BlockEndIs(src: string, pos: nat, p: nat)
    requires pos <= p && !BreakCounts(src, pos, p - 1)
    ensures FirstSeenClose(src, pos, p).Some? ==> BlockEnd(src, p) == FirstSeenClose(src, pos, p).value + 2
    ensures FirstSeenClose(src, pos, p).None? ==> BlockEnd(src, p) >= |src|
    decreases |src| - p
  {
    if p < |src| {
      if src[p] == '\n' {
        assert BreakCounts(src, pos, p) && !BreakCounts(src, pos, p + 1);
        assert FirstSeenClose(src, pos, p) == FirstSeenClose(src, pos, p + 1) == FirstSeenClose(src, pos, p + 2);
        BlockEndIs(src, pos, p + 2);
      } else if !ClosesAt(src, p) {
        assert !BreakCounts(src, pos, p);
        BlockEndIs(src, pos, p + 1);
      }
    }
  }

  /** Without a closing mark the comment is the rest of the source. */
  lemma {:induction false} OpenCommentRunsOut(src: string, pos: nat)
    requires FirstClose(src, pos) == None
    ensures BlockEnd(src, pos) >= |src|
    decreases |src| - pos
  {
    if pos < |src| {
      if src[pos] == '\n' && pos + 1 < |src| { OpenCommentRunsOut(src, pos + 2); } else { OpenCommentRunsOut(src, pos + 1); }
    }
  }

  /** A closing mark right after a line break is run past, whatever follows it. */
  lemma LineBreakHidesClose(rest: string)
    requires rest != ""
    ensures var src := "/*\n*/" + rest;
            FirstClose(src, 2) == Some(3) && BlockEnd(src, 2) != 5
  {
    var src := "/*\n*/" + rest;
    assert src[2] == '\n' && src[3] == '*' && src[4] == '/';
    assert ClosesAt(src, 3) && FirstClose(src, 3) == Some(3);
    assert LineBreaksBefore(src, 2, 2) == 0 && LineBreaksBefore(src, 2, 3) == 1;
    CommentEndsIff(src, 2, 3);
  }

  // ----- Literals -----

  /** Where C ends a literal: the first quote that no backslash escapes. */
  function FirstQuote(src: string, pos: nat, quote: char): (r: Option<nat>)
    ensures r.Some? ==> pos <= r.value < |src| && src[r.value] == quote
    decreases |src| - pos
  {
    if pos >= |src| then None
    else if src[pos] == '\\' then FirstQuote(src, pos + 2, quote)
    else if src[pos] == quote then Some(pos)
    else FirstQuote(src, pos + 1, quote)
  }

  /** A backslash of the literal counts as an escape unless one of the two characters before it is one that counts. */
  predicate Counts(src: string, pos: nat, k: int)
    decreases k
  {
    pos <= k < |src| && src[k] == '\\' && !Counts(src, pos, k - 1) && !Counts(src, pos, k - 2)
  }

  /** The character is passed over by an escape. */
  predicate Covered(src: string, pos: nat, k: int) {
    Counts(src, pos, k - 1) || Counts(src, pos, k - 2)
  }

  /** The first quote from p on that is not passed over. */
  function FirstSeen(src: string, pos: nat, p: nat, quote: char): (r: Option<nat>)
    ensures r.Some? ==> p <= r.value < |src| && src[r.value] == quote && !Covered(src, pos, r.value)
    ensures forall k :: p <= k < |src| && (r.Some? ==> k < r.value) && src[k] == quote ==> Covered(src, pos, k)
    decreases |src| - p
  {
    if p >= |src| then None
    else if src[p] == quote && !Covered(src, pos, p) then Some(p)
    else FirstSeen(src, pos, p + 1, quote)
  }

  /** The loop's place is never one that is passed over, and it ends behind the first quote that is not. */
  lemma {:induction false} QuoteEndIs(src: string, pos: nat, p: nat, quote: char)
    requires pos <= p && !Covered(src, pos, p) && quote != '\\'
    ensures FirstSeen(src, pos, p, quote).Some? ==> QuoteEnd(src, p, quote) == FirstSeen(src, pos, p, quote).value + 1
    ensures FirstSeen(src, pos, p, quote).None? ==> QuoteEnd(src, p, quote) >= |src|
    decreases |src| - p
  {
    if p < |src| {
      if src[p] == '\\' {
        assert Counts(src, pos, p) && !Counts(src, pos, p + 1) && !Counts(src, pos, p + 2);
        assert Covered(src, pos, p + 1) && Covered(src, pos, p + 2) && !Covered(src, pos, p + 3);
        assert FirstSeen(src, pos, p, quote) == FirstSeen(src, pos, p + 1, quote);
        assert FirstSeen(src, pos, p + 1, quote) == FirstSeen(src, pos, p + 2, quote);
        assert FirstSeen(src, pos, p + 2, quote) == FirstSeen(src, pos, p + 3, quote);
        QuoteEndIs(src, pos, p + 3, quote);
      } else if src[p] != quote {
        assert !Counts(src, pos, p);
        QuoteEndIs(src, pos, p + 1, quote);
      }
    }
  }

  /**
   * A literal ends at its first unescaped quote if and only if no backslash that counts is
   * among the two characters before that quote (or nothing follows it), and one is before
   * each earlier quote.
   */
  lemma LiteralEndsIff(src: string, pos: nat, quote: char, c: nat)
    requires quote != '\\' && FirstQuote(src, pos, quote) == Some(c)
    ensures Clamped(src, QuoteEnd(src, pos, quote)) == c + 1 <==>
            && (!Covered(src, pos, c) || c + 1 == |src|)
            && forall k :: pos <= k < c && src[k] == quote ==> Covered(src, pos, k)
  {
    QuoteEndIs(src, pos, pos, quote);
  }

  /**
   * Where every quote that follows is escaped, so that C finds no end, the loop runs to the
   * end of the source if and only if each quote but a last character is passed over;
   * otherwise it ends the literal behind the first quote that is not.
   */
  lemma OpenLiteralRunsOutIff(src: string, pos: nat, quote: char)
    requires quote != '\\' && pos <= |src| && FirstQuote(src, pos, quote) == None
    ensures Clamped(src, QuoteEnd(src, pos, quote)) == |src| <==>
            forall k :: pos <= k && k + 1 < |src| && src[k] == quote ==> Covered(src, pos, k)
    ensures var e := QuoteEnd(src, pos, quote);
            e < |src| ==>
              && pos < e && src[e - 1] == quote && !Covered(src, pos, e - 1)
              && forall k :: pos <= k < e - 1 && src[k] == quote ==> Covered(src, pos, k)
  {
    QuoteEndIs(src, pos, pos, quote);
  }

  /** Two escapes, the second of the quote itself: C finds no end, the loop ends the literal at that quote. */
  lemma EscapedQuoteCloses()
    ensures var src := "\"\\a\\\"b";
            FirstQuote(src, 1, '"') == None && |src| == 6 && QuoteEnd(src, 1, '"') == 5
  {
    var src := "\"\\a\\\"b";
    assert src[1] == '\\' && src[2] == 'a' && src[3] == '\\' && src[4] == '"' && src[5] == 'b';
    assert FirstQuote(src, 5, '"') == None;
    assert FirstQuote(src, 3, '"') == None;
    assert QuoteEnd(src, 4, '"') == 5;
  }

  /** A literal of one escape with anything behind it: the closing quote is passed over together with the escape. */
  lemma EscapeBeforeQuotePassesIt(rest: string)
    requires rest != ""
    ensures var src := "\"\\n\"" + rest;
            FirstQuote(src, 1, '"') == Some(3) && Clamped(src, QuoteEnd(src, 1, '"')) != 4
  {
    var src := "\"\\n\"" + rest;
    assert src[1] == '\\' && src[2] == 'n' && src[3] == '"';
    assert Counts(src, 1, 1) && Covered(src, 1, 3);
    assert FirstQuote(src, 3, '"') == Some(3);
    LiteralEndsIff(src, 1, '"', 3);
  }
}

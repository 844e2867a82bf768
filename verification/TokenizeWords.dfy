/** Which words the tokenizer takes for a keyword: kw_type compares hashes, not strings. */
module TokenizeWords {
  import opened Wrappers
  import opened TokenizeModel
  import opened TokenizeRebuild
  import opened KeywordTable

  /** The words of at most three characters that are no keyword but have the hash of one, and which. */
  function Mistaken(word: string): Option<string> {
    match word
    case "En" => Some("do")
    case "Hg" => Some("if")
    case "fNs" => Some("for")
    case "iOu" => Some("int")
    case "i0j" => Some("int")
    case "Gnr" => Some("for")
    case "GOs" => Some("for")
    case "Hot" => Some("int")
    case "HNu" => Some("int")
    case "H1j" => Some("int")
    case _ => None
  }

  // ----- What a word is taken for -----

  lemma {:induction false} WordKindFrom(word: string, j: nat, k: nat)
    requires j <= k < 32 && Hash(word) == KeywordHashes[k]
    ensures WordKind(word, j) == Keyword(Keywords[k])
    decreases k - j
  {
    KeywordHashesAre();
    if j < k {
      if KeywordHashes[j] == KeywordHashes[k] { HashesDiffer(j, k); }
      WordKindFrom(word, j + 1, k);
    }
  }

  lemma {:induction false} WordKindNone(word: string, j: nat)
    requires j <= 32 && Hash(word) !in KeywordHashes
    ensures WordKind(word, j) == Identifier
    decreases 32 - j
  {
    KeywordHashesAre();
    if j < 32 { WordKindNone(word, j + 1); }
  }

  /** A word is taken for a keyword if and only if it has the hash of one, and then for that one. */
  lemma WordKindIff(word: string)
    ensures WordKind(word, 0).Keyword? <==> Hash(word) in KeywordHashes
    ensures forall k :: 0 <= k < 32 ==> (WordKind(word, 0) == Keyword(Keywords[k]) <==> Hash(word) == KeywordHashes[k])
  {
    KeywordHashesAre();
    if Hash(word) in KeywordHashes {
      var k :| 0 <= k < 32 && KeywordHashes[k] == Hash(word);
      WordKindFrom(word, 0, k);
      forall j | 0 <= j < 32 && Keywords[j] == Keywords[k] ensures Hash(word) == KeywordHashes[j] {
      }
      forall j | 0 <= j < 32 && Hash(word) == KeywordHashes[j] ensures j == k {
        HashesDiffer(j, k);
      }
    } else {
      WordKindNone(word, 0);
    }
  }

  /** Every keyword is taken for itself. */
  lemma KeywordsAreThemselves(k: nat)
    requires k < |Keywords|
    ensures WordKind(Keywords[k], 0) == Keyword(Keywords[k])
  {
    KeywordHashesAre();
    WordKindFrom(Keywords[k], 0, k);
  }

  // ----- Short words -----

  predicate WordCode(x: bv32) {
    48 <= x <= 57 || 65 <= x <= 90 || x == 95 || 97 <= x <= 122
  }

  predicate Listed(h: bv32) {
    h == 0x596e4a || h == 0x7c6bb43a || h == 0xb878bbe || h == 0x9dcfd5a || h == 0x596f6e || h == 0x5e698a77 ||
    h == 0x7c6bb2d1 || h == 0x63896e4f || h == 0xb1975fa || h == 0xe170e084 || h == 0x67b53272 || h == 0xabbf1f6 ||
    h == 0x7c700cf6 || h == 0x614d31fa || h == 0x5c3bedfd || h == 0x6391acf5 || h == 0xaddfdc0 ||
    h == 0x7c6afbb1 || h == 0x7c790bdd || h == 0xb876316 || h == 0xadd7d97 || h == 0x7c6eab8f || h == 0xae7d875 ||
    h == 0x4584d350 || h == 0x42d505f7 || h == 0x4c2e5bac || h == 0x50ac32c9 || h == 0x7c7348ca ||
    h == 0x8607dd0c || h == 0x978999c5 || h == 0x7c734916 || h == 0x7b8664ce
  }

  lemma HashListed(h: bv32)
    ensures h in KeywordHashes <==> Listed(h)
  {
    var hs := KeywordHashes;
    assert hs[0] == 0x596e4a && hs[1] == 0x7c6bb43a && hs[2] == 0xb878bbe && hs[3] == 0x9dcfd5a && hs[4] == 0x596f6e &&
           hs[5] == 0x5e698a77 && hs[6] == 0x7c6bb2d1 && hs[7] == 0x63896e4f && hs[8] == 0xb1975fa &&
           hs[9] == 0xe170e084 && hs[10] == 0x67b53272 && hs[11] == 0xabbf1f6 && hs[12] == 0x7c700cf6 &&
           hs[13] == 0x614d31fa && hs[14] == 0x5c3bedfd && hs[15] == 0x6391acf5 && hs[16] == 0xaddfdc0 &&
           hs[17] == 0x7c6afbb1 && hs[18] == 0x7c790bdd && hs[19] == 0xb876316 && hs[20] == 0xadd7d97 &&
           hs[21] == 0x7c6eab8f && hs[22] == 0xae7d875 && hs[23] == 0x4584d350 && hs[24] == 0x42d505f7 &&
           hs[25] == 0x4c2e5bac && hs[26] == 0x50ac32c9 && hs[27] == 0x7c7348ca && hs[28] == 0x8607dd0c &&
           hs[29] == 0x978999c5 && hs[30] == 0x7c734916 && hs[31] == 0x7b8664ce;
  }

  lemma OneCode(x: bv32)
    requires WordCode(x)
    ensures !Listed(Mix(5381, x))
  {
  }

  predicate TwoListed(x: bv32, y: bv32) {
    (x == 100 && y == 111) || (x == 105 && y == 102) || (x == 69 && y == 110) || (x == 72 && y == 103)
  }

  lemma TwoCodes(x: bv32, y: bv32)
    requires WordCode(x) && WordCode(y) && !(48 <= x <= 57)
    ensures Listed(Mix(Mix(5381, y), x)) <==> TwoListed(x, y)
  {
  }

  predicate LowerListed(x: bv32, y: bv32, z: bv32) {
    (x == 102 && y == 111 && z == 114) || (x == 102 && y == 78 && z == 115) ||
    (x == 105 && y == 110 && z == 116) || (x == 105 && y == 79 && z == 117) || (x == 105 && y == 48 && z == 106)
  }

  predicate UpperListed(x: bv32, y: bv32, z: bv32) {
    (x == 71 && y == 110 && z == 114) || (x == 71 && y == 79 && z == 115) || (x == 72 && y == 111 && z == 116) ||
    (x == 72 && y == 78 && z == 117) || (x == 72 && y == 49 && z == 106)
  }

  /** A hash of three characters is none of those of the longer or shorter keywords. */
  lemma ThreeRange(x: bv32, y: bv32, z: bv32, h: bv32)
    requires WordCode(x) && WordCode(y) && WordCode(z) && h == Mix(Mix(Mix(5381, z), y), x)
    ensures 193336704 <= h <= 193476095
  {
  }

  lemma RangeListed(h: bv32)
    requires 193336704 <= h <= 193476095
    ensures Listed(h) <==> h == 0xb878bbe || h == 0xb876316
  {
  }

  lemma ThreeFor(x: bv32, y: bv32, z: bv32)
    requires WordCode(x) && WordCode(y) && WordCode(z) && !(48 <= x <= 57) && Mix(Mix(Mix(5381, z), y), x) == 0xb878bbe
    ensures LowerListed(x, y, z) || UpperListed(x, y, z)
  {
  }

  lemma ThreeInt(x: bv32, y: bv32, z: bv32)
    requires WordCode(x) && WordCode(y) && WordCode(z) && !(48 <= x <= 57) && Mix(Mix(Mix(5381, z), y), x) == 0xb876316
    ensures LowerListed(x, y, z) || UpperListed(x, y, z)
  {
  }

  lemma ThreeCodes(x: bv32, y: bv32, z: bv32, h: bv32)
    requires WordCode(x) && WordCode(y) && WordCode(z) && !(48 <= x <= 57)
    requires h == Mix(Mix(Mix(5381, z), y), x) && Listed(h)
    ensures LowerListed(x, y, z) || UpperListed(x, y, z)
  {
    ThreeRange(x, y, z, h);
    RangeListed(h);
    if h == 0xb878bbe { ThreeFor(x, y, z); } else { ThreeInt(x, y, z); }
  }

  // ----- In characters -----

  lemma CodeIsWord(c: char)
    requires IsIdentContinue(c)
    ensures WordCode(Code(c)) && (IsIdentStart(c) ==> !(48 <= Code(c) <= 57))
  {
    CodeSmall(c);
    WordOrder(Code(c));
  }

  lemma WordOrder(x: bv32)
    requires x < 128
    ensures var n := x as int;
            && (WordCode(x) <==> 48 <= n <= 57 || 65 <= n <= 90 || n == 95 || 97 <= n <= 122)
            && (48 <= x <= 57 <==> 48 <= n <= 57)
  {
  }

  /** The word is made of the characters with these codes. */
  predicate Spells(word: string, xs: seq<bv32>) {
    |xs| == |word| && forall i :: 0 <= i < |word| ==> word[i] < '\U{80}' && Code(word[i]) == xs[i]
  }

  lemma SpellsSame(word: string, xs: seq<bv32>, other: string)
    requires Spells(word, xs) && |other| == |xs| && forall i :: 0 <= i < |xs| ==> xs[i] as int == other[i] as int
    ensures word == other
  {
    forall i | 0 <= i < |xs| ensures word[i] == other[i] {
      CharOf(word[i], xs[i], other[i]);
    }
  }

  predicate IsWord(word: string) {
    word != "" && IsIdentStart(word[0]) && forall i :: 0 <= i < |word| ==> IsIdentContinue(word[i])
  }

  predicate KnownShort(word: string) {
    word in ["if", "do", "for", "int"] || Mistaken(word).Some?
  }

  lemma SpellsCodes(word: string)
    requires IsWord(word)
    ensures |word| == 2 ==> Spells(word, [Code(word[0]), Code(word[1])])
    ensures |word| == 3 ==> Spells(word, [Code(word[0]), Code(word[1]), Code(word[2])])
  {
  }

  lemma OneCharacter(word: string)
    requires IsWord(word) && |word| == 1
    ensures Hash(word) !in KeywordHashes
  {
    var x := Code(word[0]);
    CodeIsWord(word[0]);
    assert word[1..] == "" && Hash(word) == Mix(5381, x);
    OneCode(x);
    HashListed(Hash(word));
  }

  lemma CodesAreWords(word: string)
    requires IsWord(word)
    ensures forall i :: 0 <= i < |word| ==> WordCode(Code(word[i]))
    ensures !(48 <= Code(word[0]) <= 57)
  {
    CodeIsWord(word[0]);
    forall i | 0 <= i < |word| ensures WordCode(Code(word[i])) {
      CodeIsWord(word[i]);
    }
  }

  lemma TwoHashed(word: string, x: bv32, y: bv32)
    requires IsWord(word) && |word| == 2 && x == Code(word[0]) && y == Code(word[1])
    ensures Hash(word) == Mix(Mix(5381, y), x)
  {
    assert word == [word[0], word[1]];
    HashOfTwo(word[0], word[1], x, y);
  }

  lemma ThreeHashed(word: string, x: bv32, y: bv32, z: bv32)
    requires IsWord(word) && |word| == 3 && x == Code(word[0]) && y == Code(word[1]) && z == Code(word[2])
    ensures Hash(word) == Mix(Mix(Mix(5381, z), y), x)
  {
    assert word[1..] == [word[1], word[2]];
    HashOfTwo(word[1], word[2], y, z);
  }

  lemma TwoCharacters(word: string, x: bv32, y: bv32)
    requires IsWord(word) && |word| == 2 && x == Code(word[0]) && y == Code(word[1]) && Listed(Hash(word))
    ensures KnownShort(word)
  {
    CodesAreWords(word);
    TwoHashed(word, x, y);
    TwoCodes(x, y);
    SpellsCodes(word);
    TwoSpelled(word, x, y);
  }

  lemma TwoSpelled(word: string, x: bv32, y: bv32)
    requires Spells(word, [x, y]) && TwoListed(x, y)
    ensures KnownShort(word)
  {
    if x == 100 && y == 111 { SpellsSame(word, [100, 111], "do"); }
    else if x == 105 && y == 102 { SpellsSame(word, [105, 102], "if"); }
    else if x == 69 && y == 110 { SpellsSame(word, [69, 110], "En"); }
    else { SpellsSame(word, [72, 103], "Hg"); }
  }

  lemma ThreeCharacters(word: string, x: bv32, y: bv32, z: bv32)
    requires IsWord(word) && |word| == 3 && x == Code(word[0]) && y == Code(word[1]) && z == Code(word[2]) && Listed(Hash(word))
    ensures KnownShort(word)
  {
    CodesAreWords(word);
    ThreeHashed(word, x, y, z);
    ThreeCodes(x, y, z, Hash(word));
    SpellsCodes(word);
    if LowerListed(x, y, z) { LowerSpelled(word, x, y, z); } else { UpperSpelled(word, x, y, z); }
  }

  lemma LowerSpelled(word: string, x: bv32, y: bv32, z: bv32)
    requires Spells(word, [x, y, z]) && LowerListed(x, y, z)
    ensures KnownShort(word)
  {
    if x == 102 && y == 111 && z == 114 { SpellsSame(word, [102, 111, 114], "for"); }
    else if x == 102 && y == 78 && z == 115 { SpellsSame(word, [102, 78, 115], "fNs"); }
    else if x == 105 && y == 110 && z == 116 { SpellsSame(word, [105, 110, 116], "int"); }
    else if x == 105 && y == 79 && z == 117 { SpellsSame(word, [105, 79, 117], "iOu"); }
    else { SpellsSame(word, [105, 48, 106], "i0j"); }
  }

  lemma UpperSpelled(word: string, x: bv32, y: bv32, z: bv32)
    requires Spells(word, [x, y, z]) && UpperListed(x, y, z)
    ensures KnownShort(word)
  {
    if x == 71 && y == 110 && z == 114 { SpellsSame(word, [71, 110, 114], "Gnr"); }
    else if x == 71 && y == 79 && z == 115 { SpellsSame(word, [71, 79, 115], "GOs"); }
    else if x == 72 && y == 111 && z == 116 { SpellsSame(word, [72, 111, 116], "Hot"); }
    else if x == 72 && y == 78 && z == 117 { SpellsSame(word, [72, 78, 117], "HNu"); }
    else { SpellsSame(word, [72, 49, 106], "H1j"); }
  }

  // ----- The colliding words -----

  lemma HashedTwo(word: string, x: bv32, y: bv32, h: bv32)
    requires Coded(word, [x, y]) && h == Mix(Mix(5381, y), x)
    ensures Hashed(word, h)
  {
    assert Chained([x, y], [h, Mix(5381, y), 5381]);
  }

  lemma HashedThree(word: string, x: bv32, y: bv32, z: bv32, h: bv32)
    requires Coded(word, [x, y, z]) && h == Mix(Mix(Mix(5381, z), y), x)
    ensures Hashed(word, h)
  {
    assert Chained([x, y, z], [h, Mix(Mix(5381, z), y), Mix(5381, z), 5381]);
  }

  lemma MistakenForInt(word: string)
    requires Mistaken(word) == Some("int")
    ensures Hashed(word, 0xb876316)
  {
    match word
    case "iOu" => HashedThree(word, 105, 79, 117, 0xb876316);
    case "i0j" => HashedThree(word, 105, 48, 106, 0xb876316);
    case "Hot" => HashedThree(word, 72, 111, 116, 0xb876316);
    case "HNu" => HashedThree(word, 72, 78, 117, 0xb876316);
    case _ => HashedThree(word, 72, 49, 106, 0xb876316);
  }

  lemma MistakenForFor(word: string)
    requires Mistaken(word) == Some("for")
    ensures Hashed(word, 0xb878bbe)
  {
    match word
    case "fNs" => HashedThree(word, 102, 78, 115, 0xb878bbe);
    case "Gnr" => HashedThree(word, 71, 110, 114, 0xb878bbe);
    case _ => HashedThree(word, 71, 79, 115, 0xb878bbe);
  }

  lemma CollidingHash(word: string) returns (k: nat)
    requires Mistaken(word).Some?
    ensures k < 32 && Hashed(word, KeywordHashes[k]) && Mistaken(word) == Some(Keywords[k])
  {
    match Mistaken(word).value
    case "do" => HashedTwo(word, 69, 110, 0x596f6e); k := 4;
    case "if" => HashedTwo(word, 72, 103, 0x596e4a); k := 0;
    case "for" => MistakenForFor(word); k := 2;
    case _ => MistakenForInt(word); k := 19;
  }

  /**
   * Of the words of one to three characters exactly the keywords and the ten colliding
   * words are taken for keywords: a keyword for itself, a colliding word for its pair.
   */
  lemma ShortWordIff(word: string)
    requires IsWord(word) && |word| <= 3
    ensures WordKind(word, 0).Keyword? <==> word in Keywords || Mistaken(word).Some?
    ensures word in Keywords ==> WordKind(word, 0) == Keyword(word)
    ensures Mistaken(word).Some? ==> WordKind(word, 0) == Keyword(Mistaken(word).value)
  {
    if word in Keywords { KeywordIsItself(word); }
    if Mistaken(word).Some? { CollidingIsTaken(word); }
    WordKindIff(word);
    ShortIsKnown(word);
  }

  lemma KeywordIsItself(word: string)
    requires word in Keywords
    ensures WordKind(word, 0) == Keyword(word)
  {
    var k :| 0 <= k < |Keywords| && Keywords[k] == word;
    KeywordsAreThemselves(k);
  }

  lemma CollidingIsTaken(word: string)
    requires Mistaken(word).Some?
    ensures WordKind(word, 0) == Keyword(Mistaken(word).value)
  {
    var k := CollidingHash(word);
    HashIs(word, KeywordHashes[k]);
    WordKindFrom(word, 0, k);
  }

  lemma ShortIsKnown(word: string)
    requires IsWord(word) && |word| <= 3
    ensures Hash(word) in KeywordHashes ==> word in Keywords || Mistaken(word).Some?
  {
    if Hash(word) in KeywordHashes {
      HashListed(Hash(word));
      if |word| == 1 { OneCharacter(word); }
      else if |word| == 2 { TwoCharacters(word, Code(word[0]), Code(word[1])); }
      else { ThreeCharacters(word, Code(word[0]), Code(word[1]), Code(word[2])); }
      ShortKeywords();
    }
  }

  lemma ShortKeywords()
    ensures "if" in Keywords && "do" in Keywords && "for" in Keywords && "int" in Keywords
  {
    assert Keywords[0] == "if" && Keywords[4] == "do" && Keywords[2] == "for" && Keywords[19] == "int";
  }
}

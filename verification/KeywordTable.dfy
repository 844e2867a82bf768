/** The hashes of the keywords, and that they differ. */
module KeywordTable {
  import opened Wrappers
  import opened TokenizeModel
  import opened TokenizeRebuild

  /** The case labels of kw_type. */
  const KeywordHashes: seq<bv32> := [
    0x596e4a, 0x7c6bb43a, 0xb878bbe, 0x9dcfd5a, 0x596f6e, 0x5e698a77, 0x7c6bb2d1, 0x63896e4f, 0xb1975fa,
    0xe170e084, 0x67b53272, 0xabbf1f6, 0x7c700cf6, 0x614d31fa, 0x5c3bedfd, 0x6391acf5, 0xaddfdc0, 0x7c6afbb1,
    0x7c790bdd, 0xb876316, 0xadd7d97, 0x7c6eab8f, 0xae7d875, 0x4584d350, 0x42d505f7, 0x4c2e5bac, 0x50ac32c9,
    0x7c7348ca, 0x8607dd0c, 0x978999c5, 0x7c734916, 0x7b8664ce]

  /** xs has the character codes of the word. */
  predicate Coded(word: string, xs: seq<bv32>) {
    |xs| == |word| && forall i :: 0 <= i < |word| ==> '\0' < word[i] < '\U{80}' && xs[i] as int == word[i] as int
  }

  predicate Link(xs: seq<bv32>, hs: seq<bv32>, i: nat)
    requires |hs| == |xs| + 1
  {
    i < |xs| ==> hs[i] == Mix(hs[i + 1], xs[i])
  }

  /** hs has the hash of each end of the codes. */
  predicate Chained(xs: seq<bv32>, hs: seq<bv32>) {
    |hs| == |xs| + 1 && hs[|xs|] == 5381 && forall i: nat :: i < |xs| ==> Link(xs, hs, i)
  }

  ghost predicate Hashed(word: string, h: bv32) {
    exists xs, hs :: Coded(word, xs) && Chained(xs, hs) && hs[0] == h
  }

  lemma {:induction false} HashOfEnds(word: string, xs: seq<bv32>, hs: seq<bv32>)
    requires Coded(word, xs) && Chained(xs, hs)
    ensures Hash(word) == hs[0]
    decreases |word|
  {
    if word != "" {
      CodeIs(word[0], xs[0]);
      assert Link(xs, hs, 0);
      forall i: nat | i < |word| - 1 ensures Link(xs[1..], hs[1..], i) {
        assert Link(xs, hs, i + 1);
      }
      HashOfEnds(word[1..], xs[1..], hs[1..]);
    }
  }

  lemma HashIs(word: string, h: bv32)
    requires Hashed(word, h)
    ensures Hash(word) == h
  {
    var xs, hs :| Coded(word, xs) && Chained(xs, hs) && hs[0] == h;
    HashOfEnds(word, xs, hs);
  }

  /** The longest keyword has eight characters. */
  predicate EightLinks(xs: seq<bv32>, hs: seq<bv32>) {
    && |xs| <= 8 && |hs| == |xs| + 1 && hs[|xs|] == 5381
    && Link(xs, hs, 0) && Link(xs, hs, 1) && Link(xs, hs, 2) && Link(xs, hs, 3)
    && Link(xs, hs, 4) && Link(xs, hs, 5) && Link(xs, hs, 6) && Link(xs, hs, 7)
  }

  lemma EightChained(xs: seq<bv32>, hs: seq<bv32>)
    requires EightLinks(xs, hs)
    ensures Chained(xs, hs)
  {
  }

  lemma ChainHashed(word: string, xs: seq<bv32>, hs: seq<bv32>)
    requires Coded(word, xs) && Chained(xs, hs)
    ensures Hashed(word, hs[0])
  {
  }

  lemma HashedBy(word: string, xs: seq<bv32>, hs: seq<bv32>)
    requires Coded(word, xs) && EightLinks(xs, hs)
    ensures Hashed(word, hs[0])
  {
    EightChained(xs, hs);
    ChainHashed(word, xs, hs);
  }

  lemma HashIf()
    ensures Hashed("if", 0x596e4a)
  {
    HashedBy("if", [105, 102], [0x596e4a, 0x2b5c3, 5381]);
  }

  lemma HashElse()
    ensures Hashed("else", 0x7c6bb43a)
  {
    HashedBy("else", [101, 108, 115, 101], [0x7c6bb43a, 0xb87247f, 0x596db3, 0x2b5c0, 5381]);
  }

  lemma HashFor()
    ensures Hashed("for", 0xb878bbe)
  {
    HashedBy("for", [102, 111, 114], [0xb878bbe, 0x5970d8, 0x2b5d7, 5381]);
  }

  lemma HashWhile()
    ensures Hashed("while", 0x9dcfd5a)
  {
    HashedBy("while", [119, 104, 105, 108, 101], [0x9dcfd5a, 0x7c6b8b8d, 0xb872345, 0x596dac, 0x2b5c0, 5381]);
  }

  lemma HashDo()
    ensures Hashed("do", 0x596f6e)
  {
    HashedBy("do", [100, 111], [0x596f6e, 0x2b5ca, 5381]);
  }

  lemma HashSwitch()
    ensures Hashed("switch", 0x5e698a77)
  {
    HashedBy("switch", [115, 119, 105, 116, 99, 104], [0x5e698a77, 0xa9e5984, 0x7c716793, 0xb8750ba, 0x596f0e, 0x2b5cd, 5381]);
  }

  lemma HashCase()
    ensures Hashed("case", 0x7c6bb2d1)
  {
    HashedBy("case", [99, 97, 115, 101], [0x7c6bb2d1, 0xb872472, 0x596db3, 0x2b5c0, 5381]);
  }

  lemma HashReturn()
    ensures Hashed("return", 0x63896e4f)
  {
    HashedBy("return", [114, 101, 116, 117, 114, 110], [0x63896e4f, 0xac61a9d, 0x7c729bf8, 0xb875a0c, 0x596f59, 0x2b5cb, 5381]);
  }

  lemma HashBreak()
    ensures Hashed("break", 0xb1975fa)
  {
    HashedBy("break", [98, 114, 101, 97, 107], [0xb1975fa, 0x7c752298, 0xb876daa, 0x596fef, 0x2b5ce, 5381]);
  }

  lemma HashContinue()
    ensures Hashed("continue", 0xe170e084)
  {
    HashedBy("continue", [99, 111, 110, 116, 105, 110, 117, 101], [0xe170e084, 0x6d4e007, 0x46067368, 0x9e12a46, 0x7c6babf2, 0xb87243b, 0x596db5, 0x2b5c0, 5381]);
  }

  lemma HashStruct()
    ensures Hashed("struct", 0x67b53272)
  {
    HashedBy("struct", [115, 116, 114, 117, 99, 116], [0x67b53272, 0xae675e1, 0x7c7396f5, 0xb8761a7, 0x596f92, 0x2b5d1, 5381]);
  }

  lemma HashUnion()
    ensures Hashed("union", 0xabbf1f6)
  {
    HashedBy("union", [117, 110, 105, 111, 110], [0xabbf1f6, 0x7c724d23, 0xb8757ad, 0x596f44, 0x2b5cb, 5381]);
  }

  lemma HashEnum()
    ensures Hashed("enum", 0x7c700cf6)
  {
    HashedBy("enum", [101, 110, 117, 109], [0x7c700cf6, 0xb874633, 0x596ebd, 0x2b5c8, 5381]);
  }

  lemma HashTypedef()
    ensures Hashed("typedef", 0x614d31fa)
  {
    HashedBy("typedef", [116, 121, 112, 101, 100, 101, 102], [0x614d31fa, 0x508637ce, 0xa329cd7, 0x7c6e23c7, 0xb873762, 0x596e46, 0x2b5c3, 5381]);
  }

  lemma HashStatic()
    ensures Hashed("static", 0x5c3bedfd)
  {
    HashedBy("static", [115, 116, 97, 116, 105, 99], [0x5c3bedfd, 0xa8d73ce, 0x7c70e47a, 0xb874cbb, 0x596eef, 0x2b5c6, 5381]);
  }

  lemma HashExtern()
    ensures Hashed("extern", 0x6391acf5)
  {
    HashedBy("extern", [101, 120, 116, 101, 114, 110], [0x6391acf5, 0xac65a90, 0x7c729de8, 0xb875a1c, 0x596f59, 0x2b5cb, 5381]);
  }

  lemma HashConst()
    ensures Hashed("const", 0xaddfdc0)
  {
    HashedBy("const", [99, 111, 110, 115, 116], [0xaddfdc0, 0x7c735543, 0xb875fac, 0x596f82, 0x2b5d1, 5381]);
  }

  lemma HashVoid()
    ensures Hashed("void", 0x7c6afbb1)
  {
    HashedBy("void", [118, 111, 105, 100], [0x7c6afbb1, 0xb871ee7, 0x596d88, 0x2b5c1, 5381]);
  }

  lemma HashChar()
    ensures Hashed("char", 0x7c790bdd)
  {
    HashedBy("char", [99, 104, 97, 114], [0x7c790bdd, 0xb878bfe, 0x5970d6, 0x2b5d7, 5381]);
  }

  lemma HashInt()
    ensures Hashed("int", 0xb876316)
  {
    HashedBy("int", [105, 110, 116], [0xb876316, 0x596f9f, 0x2b5d1, 5381]);
  }

  lemma HashShort()
    ensures Hashed("short", 0xadd7d97)
  {
    HashedBy("short", [115, 104, 111, 114, 116], [0xadd7d97, 0x7c735164, 0xb875f8c, 0x596f83, 0x2b5d1, 5381]);
  }

  lemma HashLong()
    ensures Hashed("long", 0x7c6eab8f)
  {
    HashedBy("long", [108, 111, 110, 103], [0x7c6eab8f, 0xb873b83, 0x596e6c, 0x2b5c2, 5381]);
  }

  lemma HashFloat()
    ensures Hashed("float", 0xae7d875)
  {
    HashedBy("float", [102, 108, 111, 97, 116], [0xae7d875, 0x7c73a1b3, 0xb8761ff, 0x596f90, 0x2b5d1, 5381]);
  }

  lemma HashDouble()
    ensures Hashed("double", 0x4584d350)
  {
    HashedBy("double", [100, 111, 117, 98, 108, 101], [0x4584d350, 0x9dd3cb4, 0x7c6b8d7b, 0xb87234e, 0x596dac, 0x2b5c0, 5381]);
  }

  lemma HashSigned()
    ensures Hashed("signed", 0x42d505f7)
  {
    HashedBy("signed", [115, 105, 103, 110, 101, 100], [0x42d505f7, 0x9c86504, 0x7c6aebcd, 0xb871e6a, 0x596d84, 0x2b5c1, 5381]);
  }

  lemma HashUnsigned()
    ensures Hashed("unsigned", 0x4c2e5bac)
  {
    HashedBy("unsigned", [117, 110, 115, 105, 103, 110, 101, 100], [0x4c2e5bac, 0x9d75c4b9, 0x42d505f7, 0x9c86504, 0x7c6aebcd, 0xb871e6a, 0x596d84, 0x2b5c1, 5381]);
  }

  lemma HashSizeof()
    ensures Hashed("sizeof", 0x50ac32c9)
  {
    HashedBy("sizeof", [115, 105, 122, 101, 111, 102], [0x50ac32c9, 0xa33c37a, 0x7c6e2cb3, 0xb8737a9, 0x596e4c, 0x2b5c3, 5381]);
  }

  lemma HashAuto()
    ensures Hashed("auto", 0x7c7348ca)
  {
    HashedBy("auto", [97, 117, 116, 111], [0x7c7348ca, 0xb875f4b, 0x596f7e, 0x2b5ca, 5381]);
  }

  lemma HashRegister()
    ensures Hashed("register", 0x8607dd0c)
  {
    HashedBy("register", [114, 101, 103, 105, 115, 116, 101, 114], [0x8607dd0c, 0x51a325be, 0x7e98567b, 0xb98029c, 0x7c78f855, 0xb878b66, 0x5970d2, 0x2b5d7, 5381]);
  }

  lemma HashVolatile()
    ensures Hashed("volatile", 0x978999c5)
  {
    HashedBy("volatile", [118, 111, 108, 97, 116, 105, 108, 101], [0x978999c5, 0xf513af53, 0x457cb7bc, 0x9dcfdd0, 0x7c6b8b91, 0xb872345, 0x596dac, 0x2b5c0, 5381]);
  }

  lemma HashGoto()
    ensures Hashed("goto", 0x7c734916)
  {
    HashedBy("goto", [103, 111, 116, 111], [0x7c734916, 0xb875f51, 0x596f7e, 0x2b5ca, 5381]);
  }

  lemma HashDefault()
    ensures Hashed("default", 0x7b8664ce)
  {
    HashedBy("default", [100, 101, 102, 97, 117, 108, 116], [0x7b8664ce, 0x6897776a, 0xaed512f, 0x7c73cc29, 0xb876348, 0x596f9d, 0x2b5d1, 5381]);
  }

  lemma KeywordHashes0(k: nat)
    requires 0 <= k < 4
    ensures Hashed(Keywords[k], KeywordHashes[k])
  {
    match k
    case 0 => HashIf();
    case 1 => HashElse();
    case 2 => HashFor();
    case _ => HashWhile();
  }

  lemma KeywordHashes4(k: nat)
    requires 4 <= k < 8
    ensures Hashed(Keywords[k], KeywordHashes[k])
  {
    match k
    case 4 => HashDo();
    case 5 => HashSwitch();
    case 6 => HashCase();
    case _ => HashReturn();
  }

  lemma KeywordHashes8(k: nat)
    requires 8 <= k < 12
    ensures Hashed(Keywords[k], KeywordHashes[k])
  {
    match k
    case 8 => HashBreak();
    case 9 => HashContinue();
    case 10 => HashStruct();
    case _ => HashUnion();
  }

  lemma KeywordHashes12(k: nat)
    requires 12 <= k < 16
    ensures Hashed(Keywords[k], KeywordHashes[k])
  {
    match k
    case 12 => HashEnum();
    case 13 => HashTypedef();
    case 14 => HashStatic();
    case _ => HashExtern();
  }

  lemma KeywordHashes16(k: nat)
    requires 16 <= k < 20
    ensures Hashed(Keywords[k], KeywordHashes[k])
  {
    match k
    case 16 => HashConst();
    case 17 => HashVoid();
    case 18 => HashChar();
    case _ => HashInt();
  }

  lemma KeywordHashes20(k: nat)
    requires 20 <= k < 24
    ensures Hashed(Keywords[k], KeywordHashes[k])
  {
    match k
    case 20 => HashShort();
    case 21 => HashLong();
    case 22 => HashFloat();
    case _ => HashDouble();
  }

  lemma KeywordHashes24(k: nat)
    requires 24 <= k < 28
    ensures Hashed(Keywords[k], KeywordHashes[k])
  {
    match k
    case 24 => HashSigned();
    case 25 => HashUnsigned();
    case 26 => HashSizeof();
    case _ => HashAuto();
  }

  lemma KeywordHashes28(k: nat)
    requires 28 <= k < 32
    ensures Hashed(Keywords[k], KeywordHashes[k])
  {
    match k
    case 28 => HashRegister();
    case 29 => HashVolatile();
    case 30 => HashGoto();
    case _ => HashDefault();
  }

  /** The constants of the switch are the hashes of the keywords. */
  lemma KeywordHashesAre()
    ensures |Keywords| == |KeywordHashes| == 32
    ensures forall k :: 0 <= k < 32 ==> Hash(Keywords[k]) == KeywordHashes[k]
  {
    forall k: nat | k < 32 ensures Hash(Keywords[k]) == KeywordHashes[k] {
      if k < 4 { KeywordHashes0(k); }
      else if k < 8 { KeywordHashes4(k); }
      else if k < 12 { KeywordHashes8(k); }
      else if k < 16 { KeywordHashes12(k); }
      else if k < 20 { KeywordHashes16(k); }
      else if k < 24 { KeywordHashes20(k); }
      else if k < 28 { KeywordHashes24(k); }
      else { KeywordHashes28(k); }
      HashIs(Keywords[k], KeywordHashes[k]);
    }
  }

  /** The place of a hash in the table. */
  function PlaceOf(h: bv32): nat {
    if h == 0x596e4a then 0 else if h == 0x7c6bb43a then 1 else if h == 0xb878bbe then 2 else
    if h == 0x9dcfd5a then 3 else if h == 0x596f6e then 4 else if h == 0x5e698a77 then 5 else
    if h == 0x7c6bb2d1 then 6 else if h == 0x63896e4f then 7 else if h == 0xb1975fa then 8 else
    if h == 0xe170e084 then 9 else if h == 0x67b53272 then 10 else if h == 0xabbf1f6 then 11 else
    if h == 0x7c700cf6 then 12 else if h == 0x614d31fa then 13 else if h == 0x5c3bedfd then 14 else
    if h == 0x6391acf5 then 15 else if h == 0xaddfdc0 then 16 else if h == 0x7c6afbb1 then 17 else
    if h == 0x7c790bdd then 18 else if h == 0xb876316 then 19 else if h == 0xadd7d97 then 20 else
    if h == 0x7c6eab8f then 21 else if h == 0xae7d875 then 22 else if h == 0x4584d350 then 23 else
    if h == 0x42d505f7 then 24 else if h == 0x4c2e5bac then 25 else if h == 0x50ac32c9 then 26 else
    if h == 0x7c7348ca then 27 else if h == 0x8607dd0c then 28 else if h == 0x978999c5 then 29 else
    if h == 0x7c734916 then 30 else if h == 0x7b8664ce then 31 else 32
  }

  lemma Places0()
    ensures forall k :: 0 <= k < 8 ==> PlaceOf(KeywordHashes[k]) == k
  {
  }

  lemma Places8()
    ensures forall k :: 8 <= k < 16 ==> PlaceOf(KeywordHashes[k]) == k
  {
  }

  lemma Places16()
    ensures forall k :: 16 <= k < 24 ==> PlaceOf(KeywordHashes[k]) == k
  {
  }

  lemma Places24()
    ensures forall k :: 24 <= k < 32 ==> PlaceOf(KeywordHashes[k]) == k
  {
  }

  /** No two keywords have the same hash. */
  lemma HashesDiffer(j: nat, k: nat)
    requires j < 32 && k < 32 && KeywordHashes[j] == KeywordHashes[k]
    ensures j == k
  {
    Places0();
    Places8();
    Places16();
    Places24();
    assert PlaceOf(KeywordHashes[j]) == j && PlaceOf(KeywordHashes[k]) == k;
  }
}

/** The ARC4 key schedule and keystream as functions; sums of bytes are taken modulo 256. */
module Arc4Model {
  import opened Wrappers
  import opened Bits

  type Bytes = seq<u8>

  datatype Engine = Engine(s: Bytes, i: u8, j: u8)

  predicate WellSized(e: Engine) {
    |e.s| == 256
  }

  /** The sum of two std::uint8_t, kept in one. */
  function Sum(a: u8, b: u8): u8 {
    (a + b) % 0x100
  }

  /** Exclusive or of the low n bits. */
  function XorBits(a: nat, b: nat, n: nat): (r: nat)
    ensures r < Pow2(n)
    decreases n
  {
    if n == 0 then 0 else (a + b) % 2 + 2 * XorBits(a / 2, b / 2, n - 1)
  }

  function Xor(a: u8, b: u8): (r: u8) {
    ByteSize();
    XorBits(a, b, 8)
  }

  lemma ByteSize()
    ensures Pow2(8) == 0x100
  {
    assert Pow2(4) == 16;
  }

  function Swap(s: Bytes, a: nat, b: nat): (r: Bytes)
    requires a < |s| && b < |s|
    ensures |r| == |s|
  {
    s[a := s[b]][b := s[a]]
  }

  /** keystream_next: the engine afterwards, and the byte. */
  function Next(e: Engine): (r: (Engine, u8))
    requires WellSized(e)
    ensures WellSized(r.0)
  {
    var i := Sum(e.i, 1);
    var j := Sum(e.j, e.s[i]);
    var s := Swap(e.s, i, j);
    (Engine(s, i, j), s[Sum(s[i], s[j])])
  }

  function Identity(): (r: Bytes)
    ensures |r| == 256
  {
    seq(256, k requires 0 <= k < 256 => k as u8)
  }

  /** The key schedule from place i on. */
  function Schedule(key: Bytes, s: Bytes, i: nat, j: u8): (r: Bytes)
    requires |key| > 0 && |s| == 256
    ensures |r| == 256
    decreases 256 - i
  {
    if i >= 256 then s
    else
      var j1 := Sum(Sum(j, s[i]), key[i % |key|]);
      Schedule(key, Swap(s, j1, i), i + 1, j1)
  }

  /** The constructor; no engine is the range_error. */
  function Keyed(key: Bytes): (r: Option<Engine>)
    ensures r.Some? <==> 1 <= |key| <= 256
    ensures r.Some? ==> WellSized(r.value)
  {
    if 1 <= |key| <= 256 then Some(Engine(Schedule(key, Identity(), 0, 0), 0, 0)) else None
  }

  /** The first n bytes of keystream, and the engine after them. */
  function Stream(e: Engine, n: nat): (r: Bytes)
    requires WellSized(e)
    ensures |r| == n
    decreases n
  {
    if n == 0 then [] else [Next(e).1] + Stream(Next(e).0, n - 1)
  }

  function After(e: Engine, n: nat): (r: Engine)
    requires WellSized(e)
    ensures WellSized(r)
    decreases n
  {
    if n == 0 then e else After(Next(e).0, n - 1)
  }

  function Crypt(e: Engine, data: Bytes): (r: Bytes)
    requires WellSized(e)
    ensures |r| == |data|
  {
    Xored(data, Stream(e, |data|))
  }

  function Xored(data: Bytes, stream: Bytes): (r: Bytes)
    requires |data| == |stream|
    ensures |r| == |data|
    ensures forall k :: 0 <= k < |data| ==> r[k] == Xor(data[k], stream[k])
  {
    seq(|data|, k requires 0 <= k < |data| => Xor(data[k], stream[k]))
  }

  // ----- The published key schedule and step -----

  /** t is s with places a and b exchanged. */
  ghost predicate Exchanged(s: Bytes, t: Bytes, a: nat, b: nat) {
    && |s| == |t| == 256 && a < 256 && b < 256
    && t[a] == s[b] && t[b] == s[a] && forall k :: 0 <= k < 256 && k != a && k != b ==> t[k] == s[k]
  }

  /**
   * The tables and indices of the 256 steps: the identity and 0 to begin with; step i adds the
   * table's entry at i and the key's byte at i modulo its length to the index, modulo 256, and
   * exchanges place i with the place of the new index.
   */
  ghost predicate KeySetup(key: Bytes, tables: seq<Bytes>, js: seq<u8>) {
    && |key| > 0 && |tables| == |js| == 257
    && |tables[0]| == 256 && (forall k :: 0 <= k < 256 ==> tables[0][k] == k) && js[0] == 0
    && forall i :: 0 <= i < 256 ==> SetupStep(key, tables, js, i)
  }

  ghost predicate SetupStep(key: Bytes, tables: seq<Bytes>, js: seq<u8>, i: nat)
    requires |key| > 0 && |tables| == |js| == 257 && i < 256
  {
    StepFrom(key, tables[i], js[i], i, tables[i + 1], js[i + 1])
  }

  ghost predicate StepFrom(key: Bytes, s: Bytes, j: int, i: nat, s': Bytes, j': int)
    requires |key| > 0
  {
    0 <= j' < 256 && i < 256 && Exchanged(s, s', i, j') && j' == (j + s[i] + key[i % |key|]) % 256
  }

  lemma SumMod(a: int, b: int, c: int)
    ensures (((a + b) % 256) + c) % 256 == (a + b + c) % 256
  {
  }

  lemma SwapExchanges(s: Bytes, t: Bytes, a: nat, b: nat)
    requires |s| == 256 && a < 256 && b < 256
    ensures Exchanged(s, t, a, b) <==> t == Swap(s, b, a)
  {
    if Exchanged(s, t, a, b) {
      forall k | 0 <= k < 256 ensures t[k] == Swap(s, b, a)[k] {
      }
    }
  }

  lemma ScheduleTurn(key: Bytes, s: Bytes, j: u8, i: nat, s': Bytes, j': u8)
    requires |key| > 0 && StepFrom(key, s, j, i, s', j')
    ensures Schedule(key, s, i, j) == Schedule(key, s', i + 1, j')
  {
    SwapExchanges(s, s', i, j');
    SumMod(j, s[i], key[i % |key|]);
  }

  /** Every such list of tables ends with what the schedule gives, from each of its steps on. */
  lemma {:induction false} SetupEnds(key: Bytes, tables: seq<Bytes>, js: seq<u8>, i: nat)
    requires KeySetup(key, tables, js) && i <= 256
    ensures |tables[i]| == 256 && tables[256] == Schedule(key, tables[i], i, js[i])
    decreases 256 - i
  {
    if i < 256 {
      assert SetupStep(key, tables, js, i);
      ScheduleTurn(key, tables[i], js[i], i, tables[i + 1], js[i + 1]);
      SetupEnds(key, tables, js, i + 1);
    } else {
      assert SetupStep(key, tables, js, 255);
    }
  }

  /** The tables of the schedule from step i on. */
  lemma {:induction false} BuildTables(key: Bytes, s: Bytes, i: nat, j: u8) returns (tables: seq<Bytes>, js: seq<u8>)
    requires |key| > 0 && |s| == 256 && i <= 256
    ensures |tables| == |js| == 257 - i && tables[0] == s && js[0] == j
    ensures forall k :: 0 <= k < 256 - i ==> StepFrom(key, tables[k], js[k], i + k, tables[k + 1], js[k + 1])
    decreases 256 - i
  {
    if i == 256 {
      tables, js := [s], [j];
    } else {
      var j1 := Sum(Sum(j, s[i]), key[i % |key|]);
      SumMod(j, s[i], key[i % |key|]);
      SwapExchanges(s, Swap(s, j1, i), i, j1);
      var ts, ks := BuildTables(key, Swap(s, j1, i), i + 1, j1);
      tables, js := [s] + ts, [j] + ks;
    }
  }

  lemma SetupExists(key: Bytes) returns (tables: seq<Bytes>, js: seq<u8>)
    requires 1 <= |key|
    ensures KeySetup(key, tables, js)
  {
    tables, js := BuildTables(key, Identity(), 0, 0);
    forall i: nat | i < 256 ensures SetupStep(key, tables, js, i) {
      assert StepFrom(key, tables[i], js[i], 0 + i, tables[i + 1], js[i + 1]);
    }
  }

  lemma SetupIsSchedule(key: Bytes, tables: seq<Bytes>, js: seq<u8>)
    requires KeySetup(key, tables, js)
    ensures tables[256] == Schedule(key, Identity(), 0, 0)
  {
    assert tables[0] == Identity();
    SetupEnds(key, tables, js, 0);
  }

  /** The tables of some published setup end with s. */
  ghost predicate SetsUp(key: Bytes, s: Bytes) {
    exists tables, js :: KeySetup(key, tables, js) && s == tables[256]
  }

  /** The constructor builds an engine if and only if the key has 1 to 256 bytes, and then the one the published schedule ends with. */
  lemma KeyedIff(key: Bytes, e: Engine)
    ensures Keyed(key) == Some(e) <==> |key| <= 256 && e.i == 0 && e.j == 0 && SetsUp(key, e.s)
  {
    if 1 <= |key| <= 256 {
      var ts, ks := SetupExists(key);
      SetupIsSchedule(key, ts, ks);
      assert SetsUp(key, Schedule(key, Identity(), 0, 0));
      if SetsUp(key, e.s) {
        var tables, js :| KeySetup(key, tables, js) && e.s == tables[256];
        SetupIsSchedule(key, tables, js);
      }
    }
  }

  /** A step of the generator: i and j move on, their places are exchanged, and the byte is the entry at the sum of the two. */
  lemma NextIs(e: Engine)
    requires WellSized(e)
    ensures var (f, b) := Next(e);
            && f.i == (e.i + 1) % 256 && f.j == (e.j + e.s[f.i]) % 256 && Exchanged(e.s, f.s, f.i, f.j)
            && b == f.s[(f.s[f.i] as int + f.s[f.j] as int) % 256]
  {
    var (f, b) := Next(e);
    SwapExchanges(e.s, f.s, f.j, f.i);
  }

  /** Bit k of a number. */
  predicate HasBit(x: nat, k: nat) {
    x / Pow2(k) % 2 == 1
  }

  /** Each bit of the result is set exactly when one of the two bits is. */
  lemma {:induction false} XorBitwise(a: nat, b: nat, n: nat, k: nat)
    requires k < n
    ensures HasBit(XorBits(a, b, n), k) <==> HasBit(a, k) != HasBit(b, k)
    decreases n
  {
    XorBitsHalf(a, b, n);
    if k > 0 {
      XorBitwise(a / 2, b / 2, n - 1, k - 1);
      HalfThen(a, k);
      HalfThen(b, k);
      HalfThen(XorBits(a, b, n), k);
    } else {
      LowBits(a, b, XorBits(a, b, n));
    }
  }

  lemma LowBits(a: nat, b: nat, r: nat)
    requires r % 2 == (a + b) % 2
    ensures HasBit(r, 0) <==> HasBit(a, 0) != HasBit(b, 0)
  {
  }

  lemma XorBitsHalf(a: nat, b: nat, n: nat)
    requires n > 0
    ensures XorBits(a, b, n) % 2 == (a + b) % 2 && XorBits(a, b, n) / 2 == XorBits(a / 2, b / 2, n - 1)
  {
    Doubled((a + b) % 2, XorBits(a / 2, b / 2, n - 1));
  }

  lemma Doubled(d: nat, y: nat)
    requires d < 2
    ensures (d + 2 * y) % 2 == d && (d + 2 * y) / 2 == y
  {
  }

  lemma HalfThen(x: nat, k: nat)
    requires k > 0
    ensures HasBit(x, k) <==> HasBit(x / 2, k - 1)
  {
    var p := Pow2(k - 1);
    var q, r := x / 2 / p, x / 2 % p;
    assert x / 2 == p * q + r;
    assert x == (2 * p) * q + (2 * r + x % 2);
    ModUnique(x, 2 * p, q, 2 * r + x % 2);
  }

  // ----- S stays a permutation -----

  ghost predicate Permutation(s: Bytes) {
    |s| == 256 && multiset(s) == multiset(Identity())
  }

  lemma SwapPermutes(s: Bytes, a: nat, b: nat)
    requires a < |s| && b < |s|
    ensures multiset(Swap(s, a, b)) == multiset(s)
  {
  }

  lemma {:induction false} SchedulePermutes(key: Bytes, s: Bytes, i: nat, j: u8)
    requires |key| > 0 && Permutation(s)
    ensures Permutation(Schedule(key, s, i, j))
    decreases 256 - i
  {
    if i < 256 {
      var j1 := Sum(Sum(j, s[i]), key[i % |key|]);
      SwapPermutes(s, j1, i);
      SchedulePermutes(key, Swap(s, j1, i), i + 1, j1);
    }
  }

  /** After the key schedule S holds every byte value, for every key the constructor takes. */
  lemma KeyedIsPermutation(key: Bytes)
    requires 1 <= |key| <= 256
    ensures Permutation(Keyed(key).value.s)
  {
    SchedulePermutes(key, Identity(), 0, 0);
  }

  /** And after every keystream step. */
  lemma {:induction false} AfterIsPermutation(e: Engine, n: nat)
    requires Permutation(e.s)
    ensures Permutation(After(e, n).s)
    decreases n
  {
    if n > 0 {
      var i := Sum(e.i, 1);
      SwapPermutes(e.s, i, Sum(e.j, e.s[i]));
      AfterIsPermutation(Next(e).0, n - 1);
    }
  }

  /** What a permutation means: each byte value stands at exactly one place. */
  lemma PermutationMeansOnce(s: Bytes, a: nat, b: nat)
    requires Permutation(s) && a < b < 256
    ensures s[a] != s[b]
  {
    var v := s[a];
    IdentityOnce(v);
    var front, back := s[..b], s[b..];
    assert s == front + back;
    assert multiset(s)[v] == multiset(front)[v] + multiset(back)[v];
    assert front[a] == v && v in multiset(front);
    assert s[b] == back[0] && back[0] in multiset(back);
  }

  lemma IdentityOnce(v: u8)
    ensures multiset(Identity())[v] == 1
  {
    var id := Identity();
    assert id == id[..v] + [v] + id[v + 1..];
    assert v !in id[..v] && v !in id[v + 1..];
    assert multiset(id) == multiset(id[..v]) + multiset([v]) + multiset(id[v + 1..]);
  }

  // ----- Streams -----

  lemma Regroup(a: Bytes, b: Bytes, c: Bytes)
    ensures a + (b + c) == (a + b) + c
  {
  }

  lemma StreamStep(e: Engine, k: nat, f: Engine)
    requires WellSized(e) && f == Next(e).0
    ensures Stream(e, k + 1) == [Next(e).1] + Stream(f, k) && After(e, k + 1) == After(f, k)
  {
  }

  lemma {:induction false} StreamAdd(e: Engine, m: nat, n: nat)
    requires WellSized(e)
    ensures Stream(e, m + n) == Stream(e, m) + Stream(After(e, m), n)
    ensures After(e, m + n) == After(After(e, m), n)
    decreases m
  {
    if m > 0 {
      var f := Next(e).0;
      StreamAdd(f, m - 1, n);
      StreamAddStep(e, f, m, n, After(f, m - 1));
    }
  }

  lemma StreamAddStep(e: Engine, f: Engine, m: nat, n: nat, g: Engine)
    requires WellSized(e) && m > 0 && f == Next(e).0 && g == After(f, m - 1)
    requires Stream(f, m - 1 + n) == Stream(f, m - 1) + Stream(g, n) && After(f, m - 1 + n) == After(g, n)
    ensures Stream(e, m + n) == Stream(e, m) + Stream(g, n)
    ensures After(e, m) == g && After(e, m + n) == After(g, n)
  {
    StreamStep(e, m - 1, f);
    StreamStep(e, m - 1 + n, f);
    Regroup([Next(e).1], Stream(f, m - 1), Stream(g, n));
  }

  lemma StreamLast(e: Engine, n: nat)
    requires WellSized(e)
    ensures Stream(e, n + 1) == Stream(e, n) + [Next(After(e, n)).1] && After(e, n + 1) == Next(After(e, n)).0
  {
    var f := After(e, n);
    StreamAdd(e, n, 1);
    StreamStep(f, 0, Next(f).0);
    assert [Next(f).1] + Stream(Next(f).0, 0) == [Next(f).1];
  }

  /** drop(n) discards n bytes: the stream afterwards is the stream before from its n-th byte on. */
  lemma DropDiscards(e: Engine, n: nat, m: nat)
    requires WellSized(e)
    ensures Stream(After(e, n), m) == Stream(e, n + m)[n..]
  {
    StreamAdd(e, n, m);
  }

  lemma XorBitsStep(d: nat, y: nat, b: nat, n: nat)
    requires d < 2 && n > 0
    ensures XorBits(d + 2 * y, b, n) == (d + b) % 2 + 2 * XorBits(y, b / 2, n - 1)
  {
    Doubled(d, y);
    EvenAdds(d, y, b);
  }

  lemma EvenAdds(d: nat, y: nat, b: nat)
    ensures (d + 2 * y + b) % 2 == (d + b) % 2
  {
  }

  lemma Parity(a: nat, b: nat)
    ensures ((a + b) % 2 + b) % 2 == a % 2 && a == a % 2 + 2 * (a / 2)
  {
  }

  lemma {:induction false} XorBitsTwice(a: nat, b: nat, n: nat)
    requires a < Pow2(n)
    ensures XorBits(XorBits(a, b, n), b, n) == a
    decreases n
  {
    if n > 0 {
      var y := XorBits(a / 2, b / 2, n - 1);
      XorBitsTwice(a / 2, b / 2, n - 1);
      XorBitsStep((a + b) % 2, y, b, n);
      Parity(a, b);
    }
  }

  lemma XorTwice(a: u8, b: u8)
    ensures Xor(Xor(a, b), b) == a
  {
    ByteSize();
    XorBitsTwice(a, b, 8);
  }

  /** Two equally keyed engines invert each other, on every text. */
  lemma CryptInverts(e: Engine, data: Bytes)
    requires WellSized(e)
    ensures Crypt(e, Crypt(e, data)) == data
  {
    var stream := Stream(e, |data|);
    var twice := Xored(Xored(data, stream), stream);
    forall k | 0 <= k < |data| ensures twice[k] == data[k] {
      XorTwice(data[k], stream[k]);
    }
  }

  lemma XoredParts(a: Bytes, b: Bytes, s: Bytes, t: Bytes)
    requires |a| == |s| && |b| == |t|
    ensures Xored(a + b, s + t) == Xored(a, s) + Xored(b, t)
  {
  }

  lemma CryptIs(e: Engine, data: Bytes, n: nat, stream: Bytes)
    requires WellSized(e)
    requires n == |data|
    requires stream == Stream(e, n)
    ensures Crypt(e, data) == Xored(data, stream)
  {
  }

  lemma XoredOne(b: u8, next: u8)
    ensures Xored([b], [next]) == [Xor(b, next)]
  {
  }

  /** Crypting one text after the other is crypting both together. */
  lemma CryptConcat(e: Engine, a: Bytes, b: Bytes)
    requires WellSized(e)
    ensures Crypt(e, a + b) == Crypt(e, a) + Crypt(After(e, |a|), b)
  {
    ConcatStreams(e, a, b, |a|, |b|, Stream(e, |a|), Stream(After(e, |a|), |b|));
  }

  lemma ConcatStreams(e: Engine, a: Bytes, b: Bytes, m: nat, n: nat, s: Bytes, t: Bytes)
    requires WellSized(e) && m == |a| && n == |b| && s == Stream(e, m) && t == Stream(After(e, m), n)
    ensures Crypt(e, a + b) == Xored(a, s) + Xored(b, t)
  {
    StreamAdd(e, m, n);
    CryptIs(e, a + b, m + n, s + t);
    XoredParts(a, b, s, t);
  }

  lemma Prefix(data: Bytes, k: nat)
    requires k < |data|
    ensures data[..k + 1] == data[..k] + [data[k]]
  {
  }

  lemma CryptLast(e: Engine, data: Bytes, b: u8)
    requires WellSized(e)
    ensures Crypt(e, data + [b]) == Crypt(e, data) + [Xor(b, Next(After(e, |data|)).1)]
  {
    var s, next := Stream(e, |data|), Next(After(e, |data|)).1;
    StreamLast(e, |data|);
    CryptIs(e, data + [b], |data| + 1, s + [next]);
    XoredParts(data, [b], s, [next]);
    XoredOne(b, next);
  }

  // ----- The step can be undone -----

  function Difference(a: u8, b: u8): u8 {
    (a - b) % 0x100
  }

  function Previous(e: Engine): Engine
    requires WellSized(e)
  {
    var s := Swap(e.s, e.i, e.j);
    Engine(s, Difference(e.i, 1), Difference(e.j, s[e.i]))
  }

  /** No two engines ever meet: a step is undone by swapping back. */
  lemma StepUndone(e: Engine)
    requires WellSized(e)
    ensures Previous(Next(e).0) == e
  {
    SwapBack(e.s, Sum(e.i, 1), Sum(e.j, e.s[Sum(e.i, 1)]));
    SumBack(e.i, 1);
    SumBack(e.j, e.s[Sum(e.i, 1)]);
  }

  lemma SwapBack(s: Bytes, i: nat, j: nat)
    requires i < |s| && j < |s|
    ensures Swap(Swap(s, i, j), i, j) == s
  {
  }

  lemma SumBack(a: u8, b: u8)
    ensures Difference(Sum(a, b), b) == a
  {
  }

  lemma {:induction false} EnginesNeverMeet(e: Engine, f: Engine, n: nat)
    requires WellSized(e) && WellSized(f) && After(e, n) == After(f, n)
    ensures e == f
    decreases n
  {
    if n > 0 {
      EnginesNeverMeet(Next(e).0, Next(f).0, n - 1);
      StepUndone(e);
      StepUndone(f);
    }
  }
}

/** The arc4 class over its array S, each method against the functions of Arc4Model. */
module Arc4 {
  import opened Wrappers
  import opened Bits
  import opened Arc4Model

  class Arc4 {
    const S: array<u8>
    var keygenI: u8
    var keygenJ: u8

    predicate Sized() {
      S.Length == 256
    }

    function State(): (e: Engine)
      reads this, S
      requires Sized()
      ensures WellSized(e)
    {
      Engine(S[..], keygenI, keygenJ)
    }

    /** S as the key schedule starts from it. */
    constructor ()
      ensures Sized() && fresh(S) && State() == Engine(Identity(), 0, 0)
    {
      S := new u8[256](k requires 0 <= k < 256 => k as u8);
      keygenI, keygenJ := 0, 0;
    }

    /** The constructor with its key; no engine is the range_error for a key that is empty or too long. */
    static method Make(key: Bytes) returns (r: Option<Arc4>)
      ensures r.Some? <==> 1 <= |key| <= 256
      ensures r.Some? ==> fresh(r.value) && fresh(r.value.S) && r.value.Sized() && Some(r.value.State()) == Keyed(key)
      ensures r.Some? ==> Permutation(r.value.S[..]) && SetsUp(key, r.value.S[..])
    {
      var engine := new Arc4();
      if |key| > 256 || |key| == 0 { return None; }
      var j: u8 := 0;
      for i := 0 to 256
        invariant engine.Sized() && fresh(engine) && fresh(engine.S) && engine.keygenI == 0 && engine.keygenJ == 0
        invariant Schedule(key, engine.S[..], i, j) == Schedule(key, Identity(), 0, 0)
      {
        j := Sum(Sum(j, engine.S[i]), key[i % |key|]);
        engine.Exchange(j, i);
      }
      KeyedIsPermutation(key);
      KeyedIff(key, engine.State());
      return Some(engine);
    }

    method Exchange(a: nat, b: nat)
      requires Sized() && a < 256 && b < 256
      modifies S
      ensures S[..] == Swap(old(S[..]), a, b)
    {
      S[a], S[b] := S[b], S[a];
    }

    method KeystreamNext() returns (b: u8)
      requires Sized()
      modifies this, S
      ensures (State(), b) == Next(old(State()))
    {
      keygenI := Sum(keygenI, 1);
      keygenJ := Sum(keygenJ, S[keygenI]);
      Exchange(keygenI, keygenJ);
      var t := Sum(S[keygenI], S[keygenJ]);
      return S[t];
    }

    method Crypt(data: Bytes) returns (result: array<u8>)
      requires Sized()
      modifies this, S
      ensures fresh(result) && result[..] == Arc4Model.Crypt(old(State()), data) && State() == After(old(State()), |data|)
    {
      ghost var e := State();
      result := new u8[|data|];
      for k := 0 to |data|
        invariant result[..k] == Arc4Model.Crypt(e, data[..k]) && State() == After(e, k)
      {
        Prefix(data, k);
        var b := KeystreamNext();
        result[k] := Xor(data[k], b);
        CryptLast(e, data[..k], data[k]);
        StreamLast(e, k);
        assert result[..k + 1] == result[..k] + [result[k]];
      }
      assert data[..|data|] == data && result[..] == result[..|data|];
    }

    /** The array becomes what Crypt would have returned. */
    method CryptInplace(data: array<u8>)
      requires Sized() && data != S
      modifies this, S, data
      ensures data[..] == Arc4Model.Crypt(old(State()), old(data[..])) && State() == After(old(State()), data.Length)
    {
      ghost var e, text := State(), data[..];
      for k := 0 to data.Length
        invariant data[..k] == Arc4Model.Crypt(e, text[..k]) && data[k..] == text[k..] && State() == After(e, k)
      {
        var b := KeystreamNext();
        assert data[k] == data[k..][0] == text[k];
        data[k] := Xor(data[k], b);
        Prefix(text, k);
        CryptLast(e, text[..k], text[k]);
        StreamLast(e, k);
        assert data[..k + 1] == data[..k] + [data[k]];
        assert data[k + 1..] == text[k..][1..] == text[k + 1..];
      }
      assert text[..data.Length] == text && data[..] == data[..data.Length];
    }

    method Drop(count: nat)
      requires Sized()
      modifies this, S
      ensures State() == After(old(State()), count)
    {
      ghost var e := State();
      for k := 0 to count
        invariant State() == After(e, k)
      {
        var b := KeystreamNext();
        StreamLast(e, k);
      }
    }
  }
}

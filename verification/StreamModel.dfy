/** The two readers over a memory buffer as functions: the plain one, and the one that reads through a cache. */
module StreamModel {
  import opened Wrappers
  import opened Bits

  const SizeModulus := 0x1_0000_0000_0000_0000

  datatype Error = EndOfData | InvalidPosition | Generic

  function Min(a: nat, b: nat): nat {
    if a < b then a else b
  }

  // ----- StreamReader over MemoryBuffer: the state is the position -----

  function ReadByte(data: seq<u8>, pos: nat): (Result<u8, Error>, nat) {
    if pos < |data| then (Ok(data[pos]), pos + 1) else (Err(EndOfData), pos)
  }

  function ReadBytes(data: seq<u8>, pos: nat, count: nat): (Result<seq<u8>, Error>, nat)
    requires pos <= |data|
  {
    var n := Min(count, |data| - pos);
    if count == 0 then (Ok([]), pos)
    else if n == 0 then (Err(EndOfData), pos)
    else (Ok(data[pos..pos + n]), pos + n)
  }

  /** read_until; acc is what has been read so far. */
  function ReadUntil(data: seq<u8>, pos: nat, delimiter: u8, consume: bool, acc: seq<u8>): (Result<seq<u8>, Error>, nat)
    decreases |data| - pos
  {
    if pos >= |data| then (if acc == [] then Err(EndOfData) else Ok(acc), pos)
    else if data[pos] == delimiter then (Ok(acc), if consume then pos + 1 else pos)
    else ReadUntil(data, pos + 1, delimiter, consume, acc + [data[pos]])
  }

  function SeekTo(data: seq<u8>, pos: nat, target: nat): (Result<(), Error>, nat) {
    if target > |data| then (Err(InvalidPosition), pos) else (Ok(()), target)
  }

  /** The sum of position and count is a size_t. */
  function SkipOver(data: seq<u8>, pos: nat, count: nat): (Result<(), Error>, nat) {
    SeekTo(data, pos, (pos + count) % SizeModulus)
  }

  /** peek_bytes and peek_byte read without moving; an empty peek_bytes is not an error. */
  function PeekBytes(data: seq<u8>, pos: nat, count: nat): Result<seq<u8>, Error>
    requires pos <= |data|
  {
    Ok(data[pos..pos + Min(count, |data| - pos)])
  }

  // ----- CachedReader -----

  datatype Cached = Cached(cache: seq<u8>, start: nat, pos: nat)

  function Zeros(n: nat): seq<u8> {
    seq(n, _ => 0)
  }

  /** vector::resize */
  function Resized(s: seq<u8>, n: nat): (r: seq<u8>)
    ensures |r| == n
  {
    if n <= |s| then s[..n] else s + Zeros(n - |s|)
  }

  predicate InCache(c: Cached) {
    c.start <= c.pos < c.start + |c.cache|
  }

  /** update_cache */
  function Update(data: seq<u8>, chunk: nat, c: Cached): (r: (Result<(), Error>, Cached))
    ensures r.1.pos == c.pos
    ensures r.0.Ok? ==> InCache(r.1) && Bound(data, r.1) <= Bound(data, c)
  {
    if InCache(c) then (Ok(()), c)
    else if c.pos > |data| then (Err(InvalidPosition), c)
    else if chunk == 0 then (Err(Generic), c.(cache := []))
    else
      var n := Min(chunk, |data| - c.pos);
      if n == 0 then (Err(EndOfData), c.(cache := Resized(c.cache, chunk)))
      else (Ok(()), Cached(data[c.pos..c.pos + n], c.pos, c.pos))
  }

  /** No position past this one is ever reached by reading. */
  function Bound(data: seq<u8>, c: Cached): nat {
    var e := c.start + |c.cache|;
    if e < |data| then |data| else e
  }

  function CachedReadByte(data: seq<u8>, chunk: nat, c: Cached): (r: (Result<u8, Error>, Cached))
    ensures r.0.Ok? ==> r.1.pos == c.pos + 1 <= Bound(data, r.1) <= Bound(data, c)
  {
    var u := Update(data, chunk, c);
    match u.0
    case Err(e) => (Err(e), u.1)
    case Ok(_) => (Ok(u.1.cache[u.1.pos - u.1.start]), u.1.(pos := u.1.pos + 1))
  }

  /** read_bytes; buf is what has been copied so far. */
  function CachedReadBytes(data: seq<u8>, chunk: nat, c: Cached, count: nat, buf: seq<u8>): (Result<seq<u8>, Error>, Cached)
    decreases count
  {
    if count == 0 then (Ok(buf), c)
    else
      var u := Update(data, chunk, c);
      match u.0
      case Err(e) => (if e == EndOfData && buf != [] then Ok(buf) else Err(e), u.1)
      case Ok(_) =>
        var offset := u.1.pos - u.1.start;
        var n := Min(|u.1.cache| - offset, count);
        CachedReadBytes(data, chunk, u.1.(pos := u.1.pos + n), count - n, buf + u.1.cache[offset..offset + n])
  }

  /** read_until; acc is what has been read so far. */
  function CachedReadUntil(data: seq<u8>, chunk: nat, c: Cached, delimiter: u8, consume: bool, acc: seq<u8>): (Result<seq<u8>, Error>, Cached)
    decreases Bound(data, c) - c.pos
  {
    var b := CachedReadByte(data, chunk, c);
    match b.0
    case Err(e) => (if e == EndOfData && acc != [] then Ok(acc) else Err(e), b.1)
    case Ok(byte) =>
      if byte == delimiter then (Ok(acc), if consume then b.1 else b.1.(pos := c.pos))
      else CachedReadUntil(data, chunk, b.1, delimiter, consume, acc + [byte])
  }

  // ----- One call -----

  datatype Op =
    | OpReadByte
    | OpReadBytes(count: nat)
    | OpReadUntil(delimiter: u8, consume: bool)
    | OpReadString
    | OpPeekByte
    | OpPeekBytes(count: nat)
    | OpReadAll
    | OpSeek(target: nat)
    | OpSkip(count: nat)
    | OpPosition
    | OpRemaining

  datatype Reply = Byte(b: u8) | Bytes(bs: seq<u8>) | Done | Size(n: int) | Failed(e: Error)

  function ByteReply(r: Result<u8, Error>): Reply {
    match r case Ok(b) => Byte(b) case Err(e) => Failed(e)
  }

  function BytesReply(r: Result<seq<u8>, Error>): Reply {
    match r case Ok(bs) => Bytes(bs) case Err(e) => Failed(e)
  }

  function DoneReply(r: Result<(), Error>): Reply {
    match r case Ok(_) => Done case Err(e) => Failed(e)
  }

  /** A call on the plain reader: its reply and the position afterwards. */
  function StreamStep(data: seq<u8>, pos: nat, op: Op): (r: (Reply, nat))
    requires pos <= |data|
    ensures r.1 <= |data|
  {
    match op
    case OpReadByte => var r := ReadByte(data, pos); (ByteReply(r.0), r.1)
    case OpReadBytes(n) => var r := ReadBytes(data, pos, n); (BytesReply(r.0), r.1)
    case OpReadUntil(d, consume) => UntilStays(data, pos, d, consume, []); var r := ReadUntil(data, pos, d, consume, []); (BytesReply(r.0), r.1)
    case OpReadString => UntilStays(data, pos, 0, true, []); var r := ReadUntil(data, pos, 0, true, []); (BytesReply(r.0), r.1)
    case OpPeekByte => (ByteReply(ReadByte(data, pos).0), pos)
    case OpPeekBytes(n) => (BytesReply(PeekBytes(data, pos, n)), pos)
    case OpReadAll => var r := ReadBytes(data, pos, |data| - pos); (BytesReply(r.0), r.1)
    case OpSeek(t) => var r := SeekTo(data, pos, t); (DoneReply(r.0), r.1)
    case OpSkip(n) => var r := SkipOver(data, pos, n); (DoneReply(r.0), r.1)
    case OpPosition => (Size(pos), pos)
    case OpRemaining => (Size(|data| - pos), pos)
  }

  lemma UntilStays(data: seq<u8>, pos: nat, delimiter: u8, consume: bool, acc: seq<u8>)
    requires pos <= |data|
    ensures ReadUntil(data, pos, delimiter, consume, acc).1 <= |data|
    decreases |data| - pos
  {
  }

  /** The same call on the cached reader. */
  function CachedStep(data: seq<u8>, chunk: nat, c: Cached, op: Op): (Reply, Cached) {
    match op
    case OpReadByte => var r := CachedReadByte(data, chunk, c); (ByteReply(r.0), r.1)
    case OpReadBytes(n) => var r := CachedReadBytes(data, chunk, c, n, []); (BytesReply(r.0), r.1)
    case OpReadUntil(d, consume) => var r := CachedReadUntil(data, chunk, c, d, consume, []); (BytesReply(r.0), r.1)
    case OpReadString => var r := CachedReadUntil(data, chunk, c, 0, true, []); (BytesReply(r.0), r.1)
    case OpPeekByte => var r := CachedReadByte(data, chunk, c); (ByteReply(r.0), r.1.(pos := c.pos))
    case OpPeekBytes(n) => var r := CachedReadBytes(data, chunk, c, n, []); (BytesReply(r.0), r.1.(pos := c.pos))
    case OpReadAll => var r := CachedReadBytes(data, chunk, c.(pos := 0), |data|, []); (BytesReply(r.0), r.1)
    case OpSeek(t) => var r := SeekTo(data, c.pos, t); (DoneReply(r.0), c.(pos := r.1))
    case OpSkip(n) => var r := SkipOver(data, c.pos, n); (DoneReply(r.0), c.(pos := r.1))
    case OpPosition => (Size(c.pos), c)
    case OpRemaining => (Size(|data| - c.pos), c)
  }

  /** The replies of a run of calls, and the position it ends at. */
  function StreamRun(data: seq<u8>, pos: nat, ops: seq<Op>): (r: (seq<Reply>, nat))
    requires pos <= |data|
    ensures |r.0| == |ops|
    decreases |ops|
  {
    if ops == [] then ([], pos)
    else
      var s := StreamStep(data, pos, ops[0]);
      var r := StreamRun(data, s.1, ops[1..]);
      ([s.0] + r.0, r.1)
  }

  function CachedRun(data: seq<u8>, chunk: nat, c: Cached, ops: seq<Op>): (r: (seq<Reply>, Cached))
    ensures |r.0| == |ops|
    decreases |ops|
  {
    if ops == [] then ([], c)
    else
      var s := CachedStep(data, chunk, c, ops[0]);
      var r := CachedRun(data, chunk, s.1, ops[1..]);
      ([s.0] + r.0, r.1)
  }

  const Fresh := Cached([], 0, 0)
}

/** The cached reader against the plain one. */
module StreamAgreement {
  import opened Wrappers
  import opened Bits
  import opened StreamModel

  /** The cache is a slice of the data: a whole chunk, the last piece of the data, or still nothing. */
  predicate Coherent(data: seq<u8>, chunk: nat, c: Cached) {
    && chunk > 0 && c.pos <= |data| && c.start + |c.cache| <= |data|
    && c.cache == data[c.start..c.start + |c.cache|]
    && if c.cache == [] then c.start == 0 else |c.cache| == Min(chunk, |data| - c.start)
  }

  /** The call asks for data beyond the end. */
  predicate HitsEnd(data: seq<u8>, pos: nat, op: Op)
    requires pos <= |data|
  {
    match op
    case OpReadByte => pos == |data|
    case OpPeekByte => pos == |data|
    case OpReadBytes(n) => n > |data| - pos
    case OpPeekBytes(n) => n > |data| - pos
    case OpReadUntil(d, _) => d !in data[pos..]
    case OpReadString => 0 !in data[pos..]
    case _ => false
  }

  /** read_all of the cached reader starts over; peek_bytes at the end is an error for it only. */
  predicate SameMeaning(data: seq<u8>, pos: nat, op: Op) {
    && (op.OpReadAll? ==> pos == 0)
    && (op.OpPeekBytes? ==> op.count == 0 || pos != |data|)
  }

  /** The first position from c.pos on that the cache does not hold. */
  function Beyond(c: Cached): nat {
    if InCache(c) then c.start + |c.cache| else c.pos
  }

  /**
   * A call that runs into the end leaves a cache that is still a slice of the data:
   * the last piece fetched on the way is a whole chunk, or nothing was ever
   * fetched and the data starts with a chunk of zeros.
   */
  predicate EndsOnChunk(data: seq<u8>, chunk: nat, c: Cached)
    requires chunk > 0
  {
    if Beyond(c) < |data| then (|data| - Beyond(c)) % chunk == 0
    else |c.cache| == chunk || (c.cache == [] && chunk <= |data| && data[..chunk] == Zeros(chunk))
  }

  // ----- Filling the cache -----

  lemma UpdateFills(data: seq<u8>, chunk: nat, c: Cached)
    requires Coherent(data, chunk, c) && c.pos < |data|
    ensures var u := Update(data, chunk, c);
            u.0 == Ok(()) && Coherent(data, chunk, u.1) && InCache(u.1) && u.1.pos == c.pos
            && u.1.cache[u.1.pos - u.1.start] == data[c.pos]
    ensures var u := Update(data, chunk, c); EndsOnChunk(data, chunk, u.1) == EndsOnChunk(data, chunk, c)
  {
    var u := Update(data, chunk, c);
    if !InCache(c) {
      var n := Min(chunk, |data| - c.pos);
      if n == chunk {
        assert Beyond(u.1) == c.pos + chunk && Beyond(c) == c.pos;
        ModStep(|data| - c.pos, chunk);
      } else {
        assert |data| - c.pos == n;
        SmallMod(n, chunk);
      }
    }
  }

  lemma ModStep(a: nat, b: nat)
    requires 0 < b <= a
    ensures a % b == (a - b) % b
  {
    ModUnique(a - b, b, a / b - 1, a % b);
  }

  lemma SmallMod(a: nat, b: nat)
    requires 0 < a < b
    ensures a % b == a
  {
  }

  /** Moving inside the cached stretch does not change how the end is met. */
  lemma MoveInCache(data: seq<u8>, chunk: nat, c: Cached, pos: nat)
    requires Coherent(data, chunk, c) && InCache(c) && c.pos <= pos <= c.start + |c.cache|
    ensures Coherent(data, chunk, c.(pos := pos))
    ensures EndsOnChunk(data, chunk, c.(pos := pos)) == EndsOnChunk(data, chunk, c)
  {
  }

  /** At the end the cache grows to a chunk, with zeros that are not in the data. */
  lemma UpdateAtEnd(data: seq<u8>, chunk: nat, c: Cached)
    requires Coherent(data, chunk, c) && c.pos == |data|
    ensures var u := Update(data, chunk, c);
            u.0 == Err(EndOfData) && u.1 == c.(cache := Resized(c.cache, chunk))
            && (Coherent(data, chunk, u.1) <==> EndsOnChunk(data, chunk, c))
  {
    var u := Update(data, chunk, c);
    assert Resized(c.cache, chunk)[..|c.cache|] == c.cache;
    if c.cache == [] {
      assert Resized(c.cache, chunk) == Zeros(chunk);
    } else if |c.cache| == chunk {
      assert Resized(c.cache, chunk) == c.cache;
    }
  }

  // ----- Each reading call -----

  lemma ReadByteAgrees(data: seq<u8>, chunk: nat, c: Cached)
    requires Coherent(data, chunk, c)
    ensures var r := CachedReadByte(data, chunk, c);
            var s := ReadByte(data, c.pos);
            r.0 == s.0 && r.1.pos == s.1
            && (c.pos < |data| ==> Coherent(data, chunk, r.1) && EndsOnChunk(data, chunk, r.1) == EndsOnChunk(data, chunk, c)
                                   && Coherent(data, chunk, r.1.(pos := c.pos)))
            && (c.pos == |data| ==> (Coherent(data, chunk, r.1) <==> EndsOnChunk(data, chunk, c)))
  {
    if c.pos < |data| {
      UpdateFills(data, chunk, c);
      var u := Update(data, chunk, c);
      MoveInCache(data, chunk, u.1, c.pos + 1);
    } else {
      UpdateAtEnd(data, chunk, c);
    }
  }

  lemma CacheSlice(data: seq<u8>, chunk: nat, c: Cached, k: nat)
    requires Coherent(data, chunk, c) && InCache(c) && c.pos + k <= c.start + |c.cache|
    ensures c.cache[c.pos - c.start..c.pos - c.start + k] == data[c.pos..c.pos + k]
  {
    SliceOfSlice(data, c.start, |c.cache|, c.pos - c.start, k);
  }

  lemma SliceOfSlice(s: seq<u8>, a: nat, n: nat, o: nat, k: nat)
    requires a + n <= |s| && o + k <= n
    ensures s[a..a + n][o..o + k] == s[a + o..a + o + k]
  {
    var inner, outer := s[a..a + n][o..o + k], s[a + o..a + o + k];
    assert |inner| == |outer|;
    forall i | 0 <= i < k ensures inner[i] == outer[i] {
      assert inner[i] == s[a..a + n][o + i];
    }
  }

  lemma ReadBytesStops(data: seq<u8>, chunk: nat, c: Cached, u: Cached, count: nat, buf: seq<u8>, e: Error)
    requires count > 0 && Update(data, chunk, c) == (Err(e), u)
    ensures CachedReadBytes(data, chunk, c, count, buf) == (if e == EndOfData && buf != [] then Ok(buf) else Err(e), u)
  {
  }

  lemma ReadBytesTurn(data: seq<u8>, chunk: nat, c: Cached, u: Cached, count: nat, buf: seq<u8>)
    requires count > 0 && Update(data, chunk, c) == (Ok(()), u)
    ensures var offset := u.pos - u.start;
            var k := Min(|u.cache| - offset, count);
            CachedReadBytes(data, chunk, c, count, buf) ==
            CachedReadBytes(data, chunk, u.(pos := u.pos + k), count - k, buf + u.cache[offset..offset + k])
  {
  }

  /** One turn of the loop of read_bytes copies the data up to the end of the cache or of the request. */
  lemma CopiesPiece(data: seq<u8>, chunk: nat, c: Cached, count: nat, buf: seq<u8>) returns (k: nat, next: Cached)
    requires Coherent(data, chunk, c) && c.pos < |data| && count > 0
    ensures 0 < k <= count && c.pos + k <= |data|
    ensures CachedReadBytes(data, chunk, c, count, buf) ==
            CachedReadBytes(data, chunk, next, count - k, buf + data[c.pos..c.pos + k])
    ensures next.pos == c.pos + k && Coherent(data, chunk, next) && EndsOnChunk(data, chunk, next) == EndsOnChunk(data, chunk, c)
  {
    UpdateFills(data, chunk, c);
    var u := Update(data, chunk, c).1;
    k := Min(u.start + |u.cache| - u.pos, count);
    MoveInCache(data, chunk, u, u.pos + k);
    next := CopiesFrom(data, chunk, c, u, k, count, buf);
  }

  lemma CopiesFrom(data: seq<u8>, chunk: nat, c: Cached, u: Cached, k: nat, count: nat, buf: seq<u8>) returns (next: Cached)
    requires Update(data, chunk, c) == (Ok(()), u) && Coherent(data, chunk, u) && InCache(u) && u.pos == c.pos
    requires count > 0 && k == Min(u.start + |u.cache| - u.pos, count)
    ensures c.pos + k <= |data|
    ensures next == u.(pos := u.pos + k)
    ensures CachedReadBytes(data, chunk, c, count, buf) ==
            CachedReadBytes(data, chunk, next, count - k, buf + data[c.pos..c.pos + k])
  {
    next := u.(pos := u.pos + k);
    ReadBytesTurn(data, chunk, c, u, count, buf);
    CacheSlice(data, chunk, u, k);
  }

  lemma Piecewise(data: seq<u8>, pos: nat, k: nat, n: nat, buf: seq<u8>)
    requires k <= n && pos + n <= |data|
    ensures (buf + data[pos..pos + k]) + data[pos + k..pos + n] == buf + data[pos..pos + n]
  {
  }

  /** What read_bytes of the cached reader gives, in terms of the data. */
  predicate ReadsBytes(data: seq<u8>, chunk: nat, c: Cached, count: nat, buf: seq<u8>, r: (Result<seq<u8>, Error>, Cached))
    requires chunk > 0 && c.pos <= |data|
  {
    var n := Min(count, |data| - c.pos);
    var all := buf + data[c.pos..c.pos + n];
    && r.0 == (if count > 0 && all == [] then Err(EndOfData) else Ok(all))
    && r.1.pos == c.pos + n
    && (Coherent(data, chunk, r.1) <==> count <= |data| - c.pos || EndsOnChunk(data, chunk, c))
  }

  lemma {:induction false} ReadBytesAgrees(data: seq<u8>, chunk: nat, c: Cached, count: nat, buf: seq<u8>)
    requires Coherent(data, chunk, c)
    ensures ReadsBytes(data, chunk, c, count, buf, CachedReadBytes(data, chunk, c, count, buf))
    decreases count
  {
    if count == 0 || c.pos == |data| {
      ReadsNothing(data, chunk, c, count, buf);
    } else {
      var k, next := CopiesPiece(data, chunk, c, count, buf);
      ReadBytesAgrees(data, chunk, next, count - k, buf + data[c.pos..c.pos + k]);
      ReadsBytesStep(data, chunk, c, next, count, k, buf, CachedReadBytes(data, chunk, c, count, buf));
    }
  }

  lemma ReadsNothing(data: seq<u8>, chunk: nat, c: Cached, count: nat, buf: seq<u8>)
    requires Coherent(data, chunk, c) && (count == 0 || c.pos == |data|)
    ensures ReadsBytes(data, chunk, c, count, buf, CachedReadBytes(data, chunk, c, count, buf))
  {
    assert buf + data[c.pos..c.pos] == buf;
    if count > 0 { UpdateAtEnd(data, chunk, c); }
  }

  lemma ReadsBytesStep(data: seq<u8>, chunk: nat, c: Cached, next: Cached, count: nat, k: nat, buf: seq<u8>, r: (Result<seq<u8>, Error>, Cached))
    requires chunk > 0 && 0 < k <= count && c.pos + k <= |data| && next.pos == c.pos + k
    requires EndsOnChunk(data, chunk, next) == EndsOnChunk(data, chunk, c)
    requires ReadsBytes(data, chunk, next, count - k, buf + data[c.pos..c.pos + k], r)
    ensures ReadsBytes(data, chunk, c, count, buf, r)
  {
    Piecewise(data, c.pos, k, Min(count, |data| - c.pos), buf);
  }

  lemma {:induction false} ReadUntilAgrees(data: seq<u8>, chunk: nat, c: Cached, delimiter: u8, consume: bool, acc: seq<u8>)
    requires Coherent(data, chunk, c)
    ensures var r := CachedReadUntil(data, chunk, c, delimiter, consume, acc);
            var s := ReadUntil(data, c.pos, delimiter, consume, acc);
            && r.0 == s.0 && r.1.pos == s.1
            && (delimiter in data[c.pos..] ==> Coherent(data, chunk, r.1))
            && (delimiter !in data[c.pos..] ==> (Coherent(data, chunk, r.1) <==> EndsOnChunk(data, chunk, c)))
    decreases |data| - c.pos
  {
    ReadByteAgrees(data, chunk, c);
    if c.pos < |data| {
      assert data[c.pos..] == [data[c.pos]] + data[c.pos + 1..];
      if data[c.pos] != delimiter {
        ReadUntilAgrees(data, chunk, CachedReadByte(data, chunk, c).1, delimiter, consume, acc + [data[c.pos]]);
      }
    }
  }

  // ----- Every call and every run -----

  /**
   * From a coherent cache every call gives the same reply and position as on the plain reader.
   * The cache stays coherent, except that after a call that runs into the end it is
   * coherent exactly when EndsOnChunk held before.
   */
  lemma StepAgrees(data: seq<u8>, chunk: nat, c: Cached, op: Op)
    requires Coherent(data, chunk, c) && SameMeaning(data, c.pos, op)
    ensures CachedStep(data, chunk, c, op).0 == StreamStep(data, c.pos, op).0
    ensures CachedStep(data, chunk, c, op).1.pos == StreamStep(data, c.pos, op).1
    ensures Coherent(data, chunk, CachedStep(data, chunk, c, op).1) <==> !HitsEnd(data, c.pos, op) || EndsOnChunk(data, chunk, c)
  {
    match op
    case OpReadByte => ReadByteAgrees(data, chunk, c);
    case OpPeekByte => ReadByteAgrees(data, chunk, c);
    case OpReadBytes(n) => ReadBytesAgrees(data, chunk, c, n, []);
    case OpPeekBytes(n) => PeekBytesAgrees(data, chunk, c, n);
    case OpReadUntil(d, consume) => ReadUntilAgrees(data, chunk, c, d, consume, []);
    case OpReadString => ReadUntilAgrees(data, chunk, c, 0, true, []);
    case OpReadAll => ReadBytesAgrees(data, chunk, c, |data|, []);
    case _ =>
  }

  lemma PeekBytesAgrees(data: seq<u8>, chunk: nat, c: Cached, n: nat)
    requires Coherent(data, chunk, c) && (n == 0 || c.pos != |data|)
    ensures var r := CachedReadBytes(data, chunk, c, n, []);
            BytesReply(r.0) == BytesReply(PeekBytes(data, c.pos, n))
            && (Coherent(data, chunk, r.1.(pos := c.pos)) <==> n <= |data| - c.pos || EndsOnChunk(data, chunk, c))
  {
    ReadBytesAgrees(data, chunk, c, n, []);
  }

  /** Calls that mean the same, each run into the end but the last leaving the cache coherent. */
  predicate Comparable(data: seq<u8>, chunk: nat, c: Cached, ops: seq<Op>)
    requires chunk > 0
    decreases |ops|
  {
    ops == [] ||
    (c.pos <= |data| && SameMeaning(data, c.pos, ops[0])
     && (|ops| == 1 || ((HitsEnd(data, c.pos, ops[0]) ==> EndsOnChunk(data, chunk, c))
                        && Comparable(data, chunk, CachedStep(data, chunk, c, ops[0]).1, ops[1..]))))
  }

  lemma {:induction false} RunsAgreeFrom(data: seq<u8>, chunk: nat, c: Cached, ops: seq<Op>)
    requires Coherent(data, chunk, c) && Comparable(data, chunk, c, ops)
    ensures CachedRun(data, chunk, c, ops).0 == StreamRun(data, c.pos, ops).0
    ensures CachedRun(data, chunk, c, ops).1.pos == StreamRun(data, c.pos, ops).1
    decreases |ops|
  {
    if ops != [] {
      StepAgrees(data, chunk, c, ops[0]);
      if |ops| > 1 { RunsAgreeFrom(data, chunk, CachedStep(data, chunk, c, ops[0]).1, ops[1..]); }
    }
  }

  /** No call but the last asks for data beyond the end. */
  predicate EndOnlyLast(data: seq<u8>, pos: nat, ops: seq<Op>)
    requires pos <= |data|
    decreases |ops|
  {
    ops == [] ||
    (SameMeaning(data, pos, ops[0])
     && (|ops| == 1 || (!HitsEnd(data, pos, ops[0]) && EndOnlyLast(data, StreamStep(data, pos, ops[0]).1, ops[1..]))))
  }

  lemma {:induction false} EndOnlyLastComparable(data: seq<u8>, chunk: nat, c: Cached, ops: seq<Op>)
    requires Coherent(data, chunk, c) && EndOnlyLast(data, c.pos, ops)
    ensures Comparable(data, chunk, c, ops)
    decreases |ops|
  {
    if |ops| > 1 {
      StepAgrees(data, chunk, c, ops[0]);
      EndOnlyLastComparable(data, chunk, CachedStep(data, chunk, c, ops[0]).1, ops[1..]);
    }
  }

  /**
   * For every data, every chunk size but 0 and every run of calls up to and including
   * the first that runs into the end, both readers give the same replies and positions.
   */
  lemma RunsAgreeUpToEnd(data: seq<u8>, chunk: nat, ops: seq<Op>)
    requires chunk > 0 && EndOnlyLast(data, 0, ops)
    ensures CachedRun(data, chunk, Fresh, ops).0 == StreamRun(data, 0, ops).0
    ensures CachedRun(data, chunk, Fresh, ops).1.pos == StreamRun(data, 0, ops).1
  {
    EndOnlyLastComparable(data, chunk, Fresh, ops);
    RunsAgreeFrom(data, chunk, Fresh, ops);
  }

  // ----- After the end was hit -----

  /** The state after a call ran into the end: a slice of the data, then zeros, up to a chunk. */
  predicate AfterHit(data: seq<u8>, chunk: nat, c: Cached) {
    && chunk > 0 && |c.cache| == chunk && c.start <= |data| && c.pos <= |data|
  }

  lemma {:induction false} BytesHitShape(data: seq<u8>, chunk: nat, c: Cached, count: nat, buf: seq<u8>)
    requires Coherent(data, chunk, c) && count > |data| - c.pos
    ensures AfterHit(data, chunk, CachedReadBytes(data, chunk, c, count, buf).1)
    decreases count
  {
    if c.pos == |data| {
      UpdateAtEnd(data, chunk, c);
    } else {
      var k, next := CopiesPiece(data, chunk, c, count, buf);
      BytesHitShape(data, chunk, next, count - k, buf + data[c.pos..c.pos + k]);
    }
  }

  lemma {:induction false} UntilHitShape(data: seq<u8>, chunk: nat, c: Cached, delimiter: u8, consume: bool, acc: seq<u8>)
    requires Coherent(data, chunk, c) && delimiter !in data[c.pos..]
    ensures AfterHit(data, chunk, CachedReadUntil(data, chunk, c, delimiter, consume, acc).1)
    decreases |data| - c.pos
  {
    ReadByteAgrees(data, chunk, c);
    if c.pos < |data| {
      assert data[c.pos..] == [data[c.pos]] + data[c.pos + 1..];
      UntilHitShape(data, chunk, CachedReadByte(data, chunk, c).1, delimiter, consume, acc + [data[c.pos]]);
    } else {
      UpdateAtEnd(data, chunk, c);
    }
  }

  lemma HitShape(data: seq<u8>, chunk: nat, c: Cached, op: Op)
    requires Coherent(data, chunk, c) && SameMeaning(data, c.pos, op) && HitsEnd(data, c.pos, op)
    ensures AfterHit(data, chunk, CachedStep(data, chunk, c, op).1)
  {
    match op
    case OpReadBytes(n) => BytesHitShape(data, chunk, c, n, []);
    case OpPeekBytes(n) => BytesHitShape(data, chunk, c, n, []);
    case OpReadUntil(d, consume) => UntilHitShape(data, chunk, c, d, consume, []);
    case OpReadString => UntilHitShape(data, chunk, c, 0, true, []);
    case _ => UpdateAtEnd(data, chunk, c);
  }

  /** Where the cache of a reader past its end differs from the data, seek there and read_byte tells. */
  ghost function Telltale(data: seq<u8>, c: Cached): (i: nat)
    requires c.start <= |data| && |c.cache| > 0
    requires !(c.start + |c.cache| <= |data| && c.cache == data[c.start..c.start + |c.cache|])
    ensures c.start <= i <= |data| && i < c.start + |c.cache| && (i < |data| ==> c.cache[i - c.start] != data[i])
  {
    if c.start + |c.cache| > |data| then |data|
    else
      var k :| 0 <= k < |c.cache| && c.cache[k] != data[c.start + k];
      c.start + k
  }

  /**
   * After a call that ran into the end the readers keep agreeing exactly when
   * EndsOnChunk held before it: if so on every run up to the next such call, and
   * otherwise one seek and one read_byte already give different replies.
   */
  lemma AgreementSurvivesEndIff(data: seq<u8>, chunk: nat, c: Cached, op: Op)
    requires Coherent(data, chunk, c) && SameMeaning(data, c.pos, op) && HitsEnd(data, c.pos, op)
    ensures var next := CachedStep(data, chunk, c, op).1;
            EndsOnChunk(data, chunk, c) <==>
            forall ops :: next.pos <= |data| && EndOnlyLast(data, next.pos, ops) ==>
              CachedRun(data, chunk, next, ops).0 == StreamRun(data, next.pos, ops).0
  {
    var next := CachedStep(data, chunk, c, op).1;
    StepAgrees(data, chunk, c, op);
    HitShape(data, chunk, c, op);
    if EndsOnChunk(data, chunk, c) {
      forall ops | EndOnlyLast(data, next.pos, ops)
        ensures CachedRun(data, chunk, next, ops).0 == StreamRun(data, next.pos, ops).0
      {
        EndOnlyLastComparable(data, chunk, next, ops);
        RunsAgreeFrom(data, chunk, next, ops);
      }
    } else {
      TelltaleTells(data, chunk, next);
    }
  }

  lemma TelltaleTells(data: seq<u8>, chunk: nat, c: Cached)
    requires AfterHit(data, chunk, c) && !Coherent(data, chunk, c)
    ensures exists ops :: EndOnlyLast(data, c.pos, ops) && CachedRun(data, chunk, c, ops).0 != StreamRun(data, c.pos, ops).0
  {
    var i := Telltale(data, c);
    var ops := [OpSeek(i), OpReadByte];
    var c1 := c.(pos := i);
    assert ops[1..] == [OpReadByte] && ops[1..][1..] == [];
    assert CachedStep(data, chunk, c, ops[0]) == (Done, c1);
    assert StreamStep(data, c.pos, ops[0]) == (Done, i);
    assert InCache(c1);
    assert CachedStep(data, chunk, c1, OpReadByte).0 == Byte(c.cache[i - c.start]);
    assert StreamStep(data, i, OpReadByte).0 != Byte(c.cache[i - c.start]);
    assert CachedRun(data, chunk, c, ops).0[1] == CachedStep(data, chunk, c1, OpReadByte).0;
    assert StreamRun(data, c.pos, ops).0[1] == StreamStep(data, i, OpReadByte).0;
    assert EndOnlyLast(data, i, ops[1..]);
    assert EndOnlyLast(data, c.pos, ops);
  }

  /** Three bytes, chunks of four: after read_byte failed at the end it succeeds there, with a byte that is not in the data. */
  lemma ReadsPastTheEnd()
    ensures var data := [7, 8, 9];
            var ops := [OpReadBytes(3), OpReadByte, OpReadByte];
            StreamRun(data, 0, ops).0 == [Bytes(data), Failed(EndOfData), Failed(EndOfData)]
            && CachedRun(data, 4, Fresh, ops).0 == [Bytes(data), Failed(EndOfData), Byte(0)]
  {
    var data := [7, 8, 9];
    var ops := [OpReadBytes(3), OpReadByte, OpReadByte];
    assert ops[1..] == [OpReadByte, OpReadByte] && ops[1..][1..] == [OpReadByte] && ops[1..][1..][1..] == [];
    assert data[0..3] == data && [] + data == data;
    var c0 := Cached(data, 0, 0);
    assert Update(data, 4, Fresh) == (Ok(()), c0);
    var c1 := Cached(data, 0, 3);
    assert CachedReadBytes(data, 4, c1, 0, [] + data) == (Ok(data), c1);
    assert CachedReadBytes(data, 4, Fresh, 3, []) == (Ok(data), c1);
    var c2 := Cached(Resized(data, 4), 0, 3);
    assert CachedReadByte(data, 4, c1) == (Err(EndOfData), c2);
    assert Resized(data, 4)[3] == 0;
    assert StreamRun(data, 3, [OpReadByte]).0 == [Failed(EndOfData)];
    assert StreamRun(data, 3, ops[1..]).0 == [Failed(EndOfData), Failed(EndOfData)];
  }

  // ----- The calls the two readers mean differently -----

  /** read_all gives the same exactly when the position is 0. */
  lemma ReadAllAgreesIffAtStart(data: seq<u8>, chunk: nat, c: Cached)
    requires Coherent(data, chunk, c)
    ensures CachedStep(data, chunk, c, OpReadAll).0 == StreamStep(data, c.pos, OpReadAll).0 <==> c.pos == 0
  {
    ReadBytesAgrees(data, chunk, c.(pos := 0), |data|, []);
    assert [] + data[0..|data|] == data;
    if c.pos > 0 {
      assert |data[c.pos..]| < |data|;
    }
  }

  /** peek_bytes of something gives the same exactly when the position is not at the end. */
  lemma PeekBytesAgreesIffBeforeEnd(data: seq<u8>, chunk: nat, c: Cached, n: nat)
    requires Coherent(data, chunk, c) && n > 0
    ensures CachedStep(data, chunk, c, OpPeekBytes(n)).0 == StreamStep(data, c.pos, OpPeekBytes(n)).0 <==> c.pos < |data|
  {
    ReadBytesAgrees(data, chunk, c, n, []);
  }
}

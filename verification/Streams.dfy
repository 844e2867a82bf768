/** MemoryBuffer, StreamReader and CachedReader, each method against the functions of StreamModel. */
module Streams {
  import opened Wrappers
  import opened Bits
  import opened StreamModel
  import StreamAgreement

  class MemoryBuffer {
    const data: seq<u8>
    var pos: nat

    constructor (data: seq<u8>)
      ensures this.data == data && pos == 0
    {
      this.data, pos := data, 0;
    }

    predicate Valid()
      reads this
    {
      pos <= |data| < SizeModulus
    }

    /** How many bytes a buffer of n bytes is given. */
    function Available(n: nat): nat
      reads this
      requires Valid()
    {
      Min(n, |data| - pos)
    }

    method CopyTo(dest: array<u8>, n: nat)
      requires Valid() && n <= dest.Length && pos + n <= |data|
      modifies dest
      ensures dest[..] == data[pos..pos + n] + old(dest[n..])
    {
      for i := 0 to n
        invariant dest[..i] == data[pos..pos + i]
        invariant dest[i..] == old(dest[i..])
      {
        dest[i] := data[pos + i];
      }
      assert dest[..] == dest[..n] + dest[n..];
    }

    method ReadRawBytes(dest: array<u8>) returns (r: Result<nat, Error>)
      requires Valid()
      modifies this, dest
      ensures Valid()
      ensures dest.Length == 0 ==> r == Err(Generic) && pos == old(pos)
      ensures dest.Length > 0 ==>
                var n := old(Available(dest.Length));
                r == Ok(n) && pos == old(pos) + n && dest[..] == data[old(pos)..pos] + old(dest[..])[n..]
    {
      if dest.Length == 0 { return Err(Generic); }
      var n := Min(dest.Length, |data| - pos);
      CopyTo(dest, n);
      assert old(dest[n..]) == old(dest[..])[n..];
      pos := pos + n;
      return Ok(n);
    }

    method PeekRawBytes(dest: array<u8>) returns (r: Result<nat, Error>)
      requires Valid()
      modifies dest
      ensures dest.Length == 0 ==> r == Err(Generic)
      ensures dest.Length > 0 ==>
                var n := Available(dest.Length);
                r == Ok(n) && dest[..] == data[pos..pos + n] + old(dest[..])[n..]
    {
      if dest.Length == 0 { return Err(Generic); }
      var n := Min(dest.Length, |data| - pos);
      CopyTo(dest, n);
      assert old(dest[n..]) == old(dest[..])[n..];
      return Ok(n);
    }

    method Seek(target: nat) returns (r: Result<(), Error>)
      requires Valid()
      modifies this
      ensures Valid() && (r, pos) == SeekTo(data, old(pos), target)
    {
      if target > |data| { return Err(InvalidPosition); }
      pos := target;
      return Ok(());
    }

    method Skip(count: nat) returns (r: Result<(), Error>)
      requires Valid()
      modifies this
      ensures Valid() && (r, pos) == SkipOver(data, old(pos), count)
    {
      var newPos := (pos + count) % SizeModulus;
      if newPos > |data| { return Err(InvalidPosition); }
      pos := newPos;
      return Ok(());
    }
  }

  class StreamReader {
    const source: MemoryBuffer

    constructor (source: MemoryBuffer)
      ensures this.source == source
    {
      this.source := source;
    }

    predicate Valid()
      reads source
    {
      source.Valid()
    }

    method ReadByte() returns (r: Result<u8, Error>)
      requires Valid()
      modifies source
      ensures Valid() && (r, source.pos) == StreamModel.ReadByte(source.data, old(source.pos))
    {
      var one := new u8[1];
      var n := source.ReadRawBytes(one);
      if n.Err? { assert false; }
      if n.value == 0 { return Err(EndOfData); }
      assert one[0] == one[..][0];
      return Ok(one[0]);
    }

    method ReadBytes(count: nat) returns (r: Result<seq<u8>, Error>)
      requires Valid()
      modifies source
      ensures Valid() && (r, source.pos) == StreamModel.ReadBytes(source.data, old(source.pos), count)
    {
      if count == 0 { return Ok([]); }
      var buf := new u8[count];
      var n := source.ReadRawBytes(buf);
      if n.Err? { assert false; }
      if n.value == 0 { return Err(EndOfData); }
      assert buf[..n.value] == buf[..][..n.value];
      return Ok(buf[..n.value]);
    }

    method ReadUntil(delimiter: u8, consume: bool) returns (r: Result<seq<u8>, Error>)
      requires Valid()
      modifies source
      ensures Valid() && (r, source.pos) == StreamModel.ReadUntil(source.data, old(source.pos), delimiter, consume, [])
    {
      var data: seq<u8> := [];
      while true
        invariant Valid()
        invariant StreamModel.ReadUntil(source.data, old(source.pos), delimiter, consume, []) ==
                  StreamModel.ReadUntil(source.data, source.pos, delimiter, consume, data)
        decreases |source.data| - source.pos
      {
        var b := ReadByte();
        if b.Err? {
          if b.error == EndOfData && data != [] { return Ok(data); }
          return Err(b.error);
        }
        if b.value == delimiter {
          if !consume {
            var s := source.Seek(source.pos - 1);
          }
          return Ok(data);
        }
        data := data + [b.value];
      }
    }

    method ReadString() returns (r: Result<seq<u8>, Error>)
      requires Valid()
      modifies source
      ensures Valid() && (r, source.pos) == StreamModel.ReadUntil(source.data, old(source.pos), 0, true, [])
    {
      var str: seq<u8> := [];
      while true
        invariant Valid()
        invariant StreamModel.ReadUntil(source.data, old(source.pos), 0, true, []) ==
                  StreamModel.ReadUntil(source.data, source.pos, 0, true, str)
        decreases |source.data| - source.pos
      {
        var b := ReadByte();
        if b.Err? {
          if b.error == EndOfData && str != [] { return Ok(str); }
          return Err(b.error);
        }
        if b.value == 0 { return Ok(str); }
        str := str + [b.value];
      }
    }

    method PeekByte() returns (r: Result<u8, Error>)
      requires Valid()
      ensures r == StreamModel.ReadByte(source.data, source.pos).0
    {
      var one := new u8[1];
      var n := source.PeekRawBytes(one);
      if n.Err? { assert false; }
      if n.value == 0 { return Err(EndOfData); }
      assert one[0] == one[..][0];
      return Ok(one[0]);
    }

    method PeekBytes(count: nat) returns (r: Result<seq<u8>, Error>)
      requires Valid()
      ensures r == StreamModel.PeekBytes(source.data, source.pos, count)
    {
      if count == 0 {
        assert source.data[source.pos..source.pos] == [];
        return Ok([]);
      }
      var buf := new u8[count];
      var n := source.PeekRawBytes(buf);
      if n.Err? { assert false; }
      assert buf[..n.value] == buf[..][..n.value];
      return Ok(buf[..n.value]);
    }

    method ReadAll() returns (r: Result<seq<u8>, Error>)
      requires Valid()
      modifies source
      ensures Valid() && (r, source.pos) == StreamModel.ReadBytes(source.data, old(source.pos), |source.data| - old(source.pos))
    {
      var remaining := |source.data| - source.pos;
      if remaining == 0 { return Ok([]); }
      r := ReadBytes(remaining);
    }

    /** A call by name, as the runs of StreamModel make them. */
    method Perform(op: Op) returns (reply: Reply)
      requires Valid()
      modifies source
      ensures Valid() && (reply, source.pos) == StreamStep(source.data, old(source.pos), op)
    {
      match op {
        case OpReadByte => var r := ReadByte(); return ByteReply(r);
        case OpReadBytes(n) => var r := ReadBytes(n); return BytesReply(r);
        case OpReadUntil(d, consume) => var r := ReadUntil(d, consume); return BytesReply(r);
        case OpReadString => var r := ReadString(); return BytesReply(r);
        case OpPeekByte => var r := PeekByte(); return ByteReply(r);
        case OpPeekBytes(n) => var r := PeekBytes(n); return BytesReply(r);
        case OpReadAll => var r := ReadAll(); return BytesReply(r);
        case OpSeek(t) => var r := source.Seek(t); return DoneReply(r);
        case OpSkip(n) => var r := source.Skip(n); return DoneReply(r);
        case OpPosition => return Size(source.pos);
        case OpRemaining => return Size(|source.data| - source.pos);
      }
    }
  }

  class CachedReader {
    const source: MemoryBuffer
    const chunk: nat
    var cache: array<u8>
    var pos: nat
    var start: nat

    constructor (source: MemoryBuffer, chunk: nat)
      ensures this.source == source && this.chunk == chunk && State() == Fresh
    {
      this.source, this.chunk, pos, start := source, chunk, 0, 0;
      cache := new u8[0];
    }

    predicate Valid()
      reads source
    {
      source.Valid()
    }

    function State(): Cached
      reads this, cache
    {
      Cached(cache[..], start, pos)
    }

    /** vector::resize of the cache */
    method ResizeCache(n: nat)
      modifies this`cache
      ensures cache[..] == Resized(old(cache[..]), n) && fresh(cache)
    {
      var former := cache;
      var resized := new u8[n](_ => 0);
      var kept := Min(n, former.Length);
      for i := 0 to kept
        invariant former[..] == old(cache[..])
        invariant resized[..i] == former[..i] && forall j :: i <= j < n ==> resized[j] == 0
      {
        resized[i] := former[i];
      }
      assert resized[..] == resized[..kept] + Zeros(n - kept);
      cache := resized;
    }

    method UpdateCache() returns (r: Result<(), Error>)
      requires Valid()
      modifies this, source
      ensures Valid() && (r, State()) == Update(source.data, chunk, old(State()))
    {
      if start <= pos < start + cache.Length { return Ok(()); }
      var sought := source.Seek(pos);
      if sought.Err? { return Err(sought.error); }
      ResizeCache(chunk);
      ghost var grown := cache[..];
      var n := source.ReadRawBytes(cache);
      if n.Err? {
        assert cache[..] == [];
        return Err(n.error);
      }
      if n.value == 0 {
        assert source.data[pos..pos] == [] && [] + grown[0..] == grown;
        return Err(EndOfData);
      }
      ResizeCache(n.value);
      assert cache[..] == source.data[pos..pos + n.value];
      start := pos;
      return Ok(());
    }

    method ReadByte() returns (r: Result<u8, Error>)
      requires Valid()
      modifies this, source
      ensures Valid() && (r, State()) == CachedReadByte(source.data, chunk, old(State()))
    {
      var u := UpdateCache();
      if u.Err? { return Err(u.error); }
      var offset := pos - start;
      if offset >= cache.Length { assert false; }
      var b := cache[offset];
      pos := pos + 1;
      return Ok(b);
    }

    method ReadBytes(count: nat) returns (r: Result<seq<u8>, Error>)
      requires Valid()
      modifies this, source
      ensures Valid() && (r, State()) == CachedReadBytes(source.data, chunk, old(State()), count, [])
    {
      if count == 0 { return Ok([]); }
      var buf: seq<u8> := [];
      var left := count;
      ghost var whole := CachedReadBytes(source.data, chunk, State(), count, []);
      while left > 0
        invariant Valid() && 0 <= left
        invariant whole == CachedReadBytes(source.data, chunk, State(), left, buf)
      {
        ghost var before := State();
        var piece := ReadPiece(left);
        if piece.Err? {
          StreamAgreement.ReadBytesStops(source.data, chunk, before, State(), left, buf, piece.error);
          if piece.error == EndOfData && buf != [] { return Ok(buf); }
          return Err(piece.error);
        }
        StreamAgreement.ReadBytesTurn(source.data, chunk, before, Update(source.data, chunk, before).1, left, buf);
        buf := buf + piece.value;
        left := left - |piece.value|;
      }
      return Ok(buf);
    }

    /** The loop's turn: as much of the request as the cache holds at the position. */
    method ReadPiece(left: nat) returns (r: Result<seq<u8>, Error>)
      requires Valid()
      modifies this, source
      ensures Valid()
      ensures var u := Update(source.data, chunk, old(State()));
              match u.0
              case Err(e) => r == Err(e) && State() == u.1
              case Ok(_) =>
                var offset := u.1.pos - u.1.start;
                var n := Min(|u.1.cache| - offset, left);
                r == Ok(u.1.cache[offset..offset + n]) && State() == u.1.(pos := u.1.pos + n)
    {
      var u := UpdateCache();
      if u.Err? { return Err(u.error); }
      var offset := pos - start;
      var n := Min(cache.Length - offset, left);
      assert cache[offset..offset + n] == cache[..][offset..offset + n];
      pos := pos + n;
      return Ok(cache[offset..offset + n]);
    }

    method ReadUntil(delimiter: u8, consume: bool) returns (r: Result<seq<u8>, Error>)
      requires Valid()
      modifies this, source
      ensures Valid() && (r, State()) == CachedReadUntil(source.data, chunk, old(State()), delimiter, consume, [])
    {
      var data: seq<u8> := [];
      while true
        invariant Valid()
        invariant CachedReadUntil(source.data, chunk, old(State()), delimiter, consume, []) ==
                  CachedReadUntil(source.data, chunk, State(), delimiter, consume, data)
        decreases Bound(source.data, State()) - pos
      {
        var b := ReadByte();
        if b.Err? {
          if b.error == EndOfData && data != [] { return Ok(data); }
          return Err(b.error);
        }
        if b.value == delimiter {
          if !consume { pos := pos - 1; }
          return Ok(data);
        }
        data := data + [b.value];
      }
    }

    method ReadString() returns (r: Result<seq<u8>, Error>)
      requires Valid()
      modifies this, source
      ensures Valid() && (r, State()) == CachedReadUntil(source.data, chunk, old(State()), 0, true, [])
    {
      var str: seq<u8> := [];
      while true
        invariant Valid()
        invariant CachedReadUntil(source.data, chunk, old(State()), 0, true, []) ==
                  CachedReadUntil(source.data, chunk, State(), 0, true, str)
        decreases Bound(source.data, State()) - pos
      {
        var b := ReadByte();
        if b.Err? {
          if b.error == EndOfData && str != [] { return Ok(str); }
          return Err(b.error);
        }
        if b.value == 0 { return Ok(str); }
        str := str + [b.value];
      }
    }

    method Seek(target: nat) returns (r: Result<(), Error>)
      modifies this
      ensures (r, pos) == SeekTo(source.data, old(pos), target) && State() == old(State()).(pos := pos)
    {
      if target > |source.data| { return Err(InvalidPosition); }
      pos := target;
      return Ok(());
    }

    method Skip(count: nat) returns (r: Result<(), Error>)
      modifies this
      ensures (r, pos) == SkipOver(source.data, old(pos), count) && State() == old(State()).(pos := pos)
    {
      if (pos + count) % SizeModulus > |source.data| { return Err(InvalidPosition); }
      pos := (pos + count) % SizeModulus;
      return Ok(());
    }

    method PeekByte() returns (r: Result<u8, Error>)
      requires Valid()
      modifies this, source
      ensures Valid()
      ensures var c := CachedReadByte(source.data, chunk, old(State()));
              r == c.0 && State() == c.1.(pos := old(pos))
    {
      var original := pos;
      r := ReadByte();
      pos := original;
    }

    method PeekBytes(count: nat) returns (r: Result<seq<u8>, Error>)
      requires Valid()
      modifies this, source
      ensures Valid()
      ensures var c := CachedReadBytes(source.data, chunk, old(State()), count, []);
              r == c.0 && State() == c.1.(pos := old(pos))
    {
      var original := pos;
      r := ReadBytes(count);
      pos := original;
    }

    method ReadAll() returns (r: Result<seq<u8>, Error>)
      requires Valid()
      modifies this, source
      ensures Valid() && (r, State()) == CachedReadBytes(source.data, chunk, old(State()).(pos := 0), |source.data|, [])
    {
      var s := Seek(0);
      r := ReadBytes(|source.data| - pos);
    }

    method Perform(op: Op) returns (reply: Reply)
      requires Valid()
      modifies this, source
      ensures Valid() && (reply, State()) == CachedStep(source.data, chunk, old(State()), op)
    {
      match op {
        case OpReadByte => var r := ReadByte(); return ByteReply(r);
        case OpReadBytes(n) => var r := ReadBytes(n); return BytesReply(r);
        case OpReadUntil(d, consume) => var r := ReadUntil(d, consume); return BytesReply(r);
        case OpReadString => var r := ReadString(); return BytesReply(r);
        case OpPeekByte => var r := PeekByte(); return ByteReply(r);
        case OpPeekBytes(n) => var r := PeekBytes(n); return BytesReply(r);
        case OpReadAll => var r := ReadAll(); return BytesReply(r);
        case OpSeek(t) => var r := Seek(t); return DoneReply(r);
        case OpSkip(n) => var r := Skip(n); return DoneReply(r);
        case OpPosition => return Size(pos);
        case OpRemaining => return Size(|source.data| - pos);
      }
    }
  }
}

/** What the calls of a reader mean: which bytes a read returns, and where seek and skip go. */
module StreamMeaning {
  import opened Wrappers
  import opened Bits
  import opened StreamModel

  // ----- Moving -----

  /** seek goes exactly to the places of the data and its end, and a failed one stays. */
  lemma SeekIff(data: seq<u8>, pos: nat, target: nat)
    requires pos <= |data|
    ensures var r := StreamStep(data, pos, OpSeek(target));
            && (r.0 == Done <==> target <= |data|) && r.1 == (if target <= |data| then target else pos)
            && (r.0 != Done ==> r.0 == Failed(InvalidPosition))
  {
  }

  /**
   * skip moves on by the count if that stays within the data. It succeeds otherwise only if the
   * sum with the position leaves 64 bits, and then it moves back; a failed one stays.
   */
  lemma SkipIff(data: seq<u8>, pos: nat, count: nat)
    requires pos <= |data| < SizeModulus && count < SizeModulus
    ensures var r := StreamStep(data, pos, OpSkip(count));
            && (r.0 == Done <==> pos + count <= |data| || SizeModulus <= pos + count)
            && (r.0 != Done ==> r.0 == Failed(InvalidPosition) && r.1 == pos)
            && (pos + count <= |data| ==> r.1 == pos + count)
            && (SizeModulus <= pos + count ==> r.1 == pos + count - SizeModulus < pos)
  {
    if SizeModulus <= pos + count {
      ModUnique(pos + count, SizeModulus, 1, pos + count - SizeModulus);
    } else {
      ModUnique(pos + count, SizeModulus, 0, pos + count);
    }
  }

  /** Skipping all but one of 2 to the 64 bytes goes one byte back. */
  lemma SkipGoesBack()
    ensures StreamStep([7, 8, 9], 2, OpSkip(SizeModulus - 1)) == (Done, 1)
  {
    SkipIff([7, 8, 9], 2, SizeModulus - 1);
  }

  // ----- Reading -----

  /** The bytes from pos to e, none of which is the delimiter. */
  predicate FreeOf(data: seq<u8>, pos: nat, e: nat, delimiter: u8) {
    pos <= e <= |data| && delimiter !in data[pos..e]
  }

  /** The first place from pos on where the delimiter stands, or the end of the data. */
  predicate FirstPlace(data: seq<u8>, pos: nat, delimiter: u8, e: nat) {
    FreeOf(data, pos, e, delimiter) && (e < |data| ==> data[e] == delimiter)
  }

  lemma {:induction false} UntilIs(data: seq<u8>, pos: nat, delimiter: u8, consume: bool, acc: seq<u8>, e: nat)
    requires FirstPlace(data, pos, delimiter, e)
    ensures ReadUntil(data, pos, delimiter, consume, acc) ==
            (if e == |data| && acc + data[pos..e] == [] then Err(EndOfData) else Ok(acc + data[pos..e]),
             if e < |data| && consume then e + 1 else e)
    decreases e - pos
  {
    if pos < e {
      assert data[pos] == data[pos..e][0];
      assert data[pos..e] == [data[pos]] + data[pos + 1..e];
      assert acc + [data[pos]] + data[pos + 1..e] == acc + data[pos..e];
      UntilIs(data, pos + 1, delimiter, consume, acc + [data[pos]], e);
    } else {
      assert acc + data[pos..e] == acc;
    }
  }

  /**
   * read_until gives the bytes up to the first delimiter, without it, and stops behind it or in
   * front of it; without a delimiter it gives the rest of the data, and fails if that is empty.
   */
  lemma UntilMeans(data: seq<u8>, pos: nat, delimiter: u8, consume: bool, e: nat)
    requires FirstPlace(data, pos, delimiter, e)
    ensures var r := StreamStep(data, pos, OpReadUntil(delimiter, consume));
            && r.0 == (if pos == |data| then Failed(EndOfData) else Bytes(data[pos..e]))
            && r.1 == (if e < |data| && consume then e + 1 else e)
    ensures delimiter == 0 && consume ==> StreamStep(data, pos, OpReadString) == StreamStep(data, pos, OpReadUntil(0, true))
  {
    UntilIs(data, pos, delimiter, consume, [], e);
    assert [] + data[pos..e] == data[pos..e];
  }

  /** There always is such a place. */
  lemma {:induction false} FirstPlaceExists(data: seq<u8>, pos: nat, delimiter: u8) returns (e: nat)
    requires pos <= |data|
    ensures FirstPlace(data, pos, delimiter, e)
    decreases |data| - pos
  {
    if pos == |data| || data[pos] == delimiter {
      e := pos;
    } else {
      e := FirstPlaceExists(data, pos + 1, delimiter);
      assert data[pos..e] == [data[pos]] + data[pos + 1..e];
    }
  }

  /** The bytes that a reply hands over. */
  function Given(r: Reply): seq<u8> {
    match r
    case Byte(b) => [b]
    case Bytes(bs) => bs
    case _ => []
  }

  function AllGiven(rs: seq<Reply>): seq<u8> {
    if rs == [] then [] else Given(rs[0]) + AllGiven(rs[1..])
  }

  /** Calls that read on without taking a delimiter away. */
  predicate ReadsOn(op: Op) {
    op.OpReadByte? || op.OpReadBytes? || (op.OpReadUntil? && !op.consume)
  }

  lemma StepGives(data: seq<u8>, pos: nat, op: Op)
    requires pos <= |data| && ReadsOn(op)
    ensures var r := StreamStep(data, pos, op); pos <= r.1 && Given(r.0) == data[pos..r.1]
  {
    if op.OpReadUntil? {
      var e := FirstPlaceExists(data, pos, op.delimiter);
      UntilMeans(data, pos, op.delimiter, false, e);
    }
  }

  /** Whatever reads are made, one after the other they hand over the data from the first place to the last. */
  lemma {:induction false} ReadsAreConsecutive(data: seq<u8>, pos: nat, ops: seq<Op>)
    requires pos <= |data| && forall i :: 0 <= i < |ops| ==> ReadsOn(ops[i])
    ensures var r := StreamRun(data, pos, ops); pos <= r.1 <= |data| && AllGiven(r.0) == data[pos..r.1]
    decreases |ops|
  {
    if ops != [] {
      var s := StreamStep(data, pos, ops[0]);
      StepGives(data, pos, ops[0]);
      ReadsAreConsecutive(data, s.1, ops[1..]);
      var r := StreamRun(data, s.1, ops[1..]);
      assert ([s.0] + r.0)[1..] == r.0;
      assert data[pos..s.1] + data[s.1..r.1] == data[pos..r.1];
    }
  }

  /** position and remaining add up to the size, and read_all hands over what remains. */
  lemma RemainingIsRead(data: seq<u8>, pos: nat)
    requires pos <= |data|
    ensures StreamStep(data, pos, OpPosition) == (Size(pos), pos)
    ensures StreamStep(data, pos, OpRemaining) == (Size(|data[pos..]|), pos)
    ensures Given(StreamStep(data, pos, OpReadAll).0) == data[pos..] && StreamStep(data, pos, OpReadAll).1 == |data|
    ensures StreamStep(data, pos, OpReadAll).0 == Bytes(data[pos..])
  {
  }

  /** A peek replies as the read would, and stays; only an empty peek_bytes at the end is no error. */
  lemma PeeksAreReads(data: seq<u8>, pos: nat, n: nat)
    requires pos <= |data|
    ensures StreamStep(data, pos, OpPeekByte) == (StreamStep(data, pos, OpReadByte).0, pos)
    ensures StreamStep(data, pos, OpPeekBytes(n)).1 == pos
    ensures StreamStep(data, pos, OpPeekBytes(n)).0 == StreamStep(data, pos, OpReadBytes(n)).0 <==> n == 0 || pos < |data|
  {
  }
}

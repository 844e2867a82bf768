/** Pool: acquire and offer as they walk and change the blocks, against the functions of PoolModel. */
module MemoryPool {
  import opened Wrappers
  import opened Bits
  import opened PoolModel

  class Pool<T> {
    const blockSize: nat
    const defaultSize: nat
    var blocks: seq<Block<T>>
    var available: int
    var size: nat
    var returning: map<Slot, Slot>

    function State(): PoolModel.Pool<T>
      reads this
    {
      PoolModel.Pool(blockSize, blocks, available, size, returning)
    }

    ghost predicate Valid()
      reads this
    {
      Inv(State(), defaultSize)
    }

    constructor (blockSize: nat, defaultSize: nat)
      requires blockSize >= 1
      ensures this.blockSize == blockSize && this.defaultSize == defaultSize
      ensures State() == Built(blockSize, defaultSize) && Valid() && Live(State()) == map[]
    {
      this.blockSize, this.defaultSize := blockSize, defaultSize;
      blocks, size, returning := [NewBlock(blockSize)], 0, map[];
      available := defaultSize * blockSize;
      new;
      ghost var built := 0;
      while size < available
        invariant built <= defaultSize && size == built * blockSize
        invariant available == defaultSize * blockSize
        invariant PoolModel.Pool(blockSize, blocks, size, size, returning) == Built(blockSize, built)
        decreases defaultSize - built
      {
        assert built == defaultSize ==> size == available;
        assert (built + 1) * blockSize == built * blockSize + blockSize;
        MakeNew();
        built := built + 1;
      }
      assert built == defaultSize by { ProductBelow(built, defaultSize, blockSize); }
      available := size;
      BuiltInv<T>(blockSize, defaultSize);
    }

    method MakeNew()
      modifies this
      ensures State() == PoolModel.MakeNew(old(State()))
    {
      blocks := blocks + [NewBlock(blockSize)];
      size := size + blockSize;
    }

    /** The walk over the blocks to the first unused slot. */
    method Search() returns (r: Option<Slot>)
      ensures r == FreeSlot(blocks, 0)
    {
      var current := 0;
      while current < |blocks|
        invariant 0 <= current <= |blocks| && FreeSlot(blocks, 0) == FreeSlot(blocks, current)
      {
        if blocks[current].available == 0 {
          current := current + 1;
          continue;
        }
        for i := 0 to |blocks[current].used|
          invariant FreeIndex(blocks[current].used, 0) == FreeIndex(blocks[current].used, i)
        {
          if !blocks[current].used[i] { return Some(Slot(current, i)); }
        }
        current := current + 1;
      }
      return None;
    }

    /** The slot to use: the first of a new block when none is counted as available, else the first unused one. */
    method Choose() returns (s: Slot)
      requires Chosen(State()).Some?
      modifies this
      ensures Chosen(old(State())) == Some((s, State()))
    {
      if available == 0 {
        MakeNew();
        s := Slot(|blocks| - 1, 0);
      } else {
        var found := Search();
        if found.None? { assert false; }
        s := found.value;
        available := available - 1;
      }
    }

    method Construct(s: Slot, value: T)
      requires In(State(), s) && blocks[s.block].available > 0
      modifies this
      ensures State() == Take(old(State()), s, value)
    {
      var b := blocks[s.block];
      blocks := blocks[s.block := Block(b.available - 1, b.used[s.index := true], b.objects[s.index := Some(value)])];
      returning := returning[s := s];
    }

    /**
     * A slot that no live object has now holds the value, and every live object is as it
     * was. The branch of the runtime_error for a pool without free slots is never reached.
     */
    method Acquire(value: T) returns (s: Slot)
      requires Valid()
      modifies this
      ensures Valid()
      ensures s !in old(Live(State())) && Live(State()) == old(Live(State()))[s := value]
      ensures |blocks| == old(|blocks|) + (if old(available) == 0 then 1 else 0)
    {
      AcquireKeeps(State(), defaultSize, value);
      s := Choose();
      Construct(s, value);
    }

    method Destroy(s: Slot)
      requires s in returning && In(State(), returning[s])
      modifies this
      ensures State() == Release(old(State()), s)
    {
      var at := returning[s];
      var b := blocks[at.block];
      blocks := blocks[at.block := Block(b.available + 1, b.used[at.index := false], b.objects[at.index := None])];
      returning := returning - {s};
      available := available + 1;
    }

    /** A live object is destroyed and its slot freed; a null pointer does nothing, any other pointer is an error. */
    method Offer(pointer: Option<Slot>) returns (ok: bool)
      requires Valid()
      modifies this
      ensures Valid()
      ensures ok <==> pointer.None? || pointer.value in old(Live(State()))
      ensures !ok ==> State() == old(State())
      ensures Live(State()) == if pointer.None? then old(Live(State())) else old(Live(State())) - {pointer.value}
    {
      if pointer.None? { return true; }
      OfferKeeps(State(), defaultSize, pointer.value);
      if pointer.value !in returning { return false; }
      Destroy(pointer.value);
      return true;
    }

    /** The live objects, and the slots every growth leaves uncounted. */
    method UsedSize() returns (n: int)
      requires Valid()
      ensures n == |Live(State())| + Growths(State(), defaultSize) * (blockSize - 1)
    {
      InvAccounts(State(), defaultSize);
      n := size - available;
    }
  }

  lemma ProductBelow(a: nat, b: nat, d: nat)
    requires a <= b && d >= 1 && a * d >= b * d
    ensures a == b
  {
    if a < b { MulMono(d, a + 1, b); }
  }
}

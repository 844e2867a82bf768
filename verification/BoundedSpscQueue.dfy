/**
 * The queue object of one producer and one consumer. Each method is one atomic
 * step of put or get and follows the transition system in SpscModel.
 */
module BoundedSpscQueue {
  import opened Wrappers
  import opened Memory
  import opened Bits
  import opened SpscModel

  class BoundedSPSCQueue<T> {
    const n: nat
    const failOnFull: bool
    var head: nat
    var tail: nat
    const buffer: array<Storage<T>>
    ghost var model: Queue<T>

    ghost predicate Valid()
      reads this, buffer
    {
      && Inv(model) && model.n == n && model.failOnFull == failOnFull
      && model.head == head && model.tail == tail
      && buffer.Length == n && model.buffer == buffer[..]
    }

    constructor (n: nat, failOnFull: bool)
      requires IsPow2(n) && 2 <= n
      ensures Valid() && fresh(buffer)
      ensures model == Init<T>(n, failOnFull)
    {
      this.n, this.failOnFull := n, failOnFull;
      head, tail := 0, 0;
      buffer := new Storage<T>[n](_ => Default);
      model := Init(n, failOnFull);
      InitInv<T>(n, failOnFull);
    }

    /** put: read tail, which only this thread stores. */
    method LoadOwnTail(ghost v: T) returns (t: nat)
      requires Valid() && Enabled(model, BeginPut(v))
      modifies this`model
      ensures Valid() && t == tail && model == Next(old(model), BeginPut(v))
    {
      StepInv(model, BeginPut(v));
      t := tail;
      model := Next(model, BeginPut(v));
    }

    /** put: read the consumer's head. */
    method ReadHead() returns (h: nat)
      requires Valid() && Enabled(model, Action.LoadHead)
      modifies this`model
      ensures Valid() && h == head && model == Next(old(model), Action.LoadHead)
      ensures model.producer.h == h
    {
      StepInv(model, Action.LoadHead);
      h := head;
      model := Next(model, Action.LoadHead);
    }

    /** put: is there room, going by the head that was read? */
    method HasRoom(t: nat, h: nat) returns (room: bool)
      requires Valid() && Enabled(model, CompareHead) && t == tail && h == model.producer.h
      modifies this`model
      ensures Valid() && model == Next(old(model), CompareHead)
      ensures room <==> |model.put| - old(model.producer.seen) < n - 1
      ensures room ==> Enabled(model, Construct)
    {
      PutRefusedIffFull(model);
      StepInv(model, CompareHead);
      var next := Slot(n, t + 1);
      room := next != h;
      model := Next(model, CompareHead);
    }

    /** put: construct the value in the slot at tail, over the array's default object on the first lap and in free memory later. */
    method ConstructAt(t: nat, v: T)
      requires Valid() && Enabled(model, Construct) && t == tail && v == model.producer.value
      modifies this`model, buffer
      ensures Valid() && model == Next(old(model), Construct)
      ensures old(buffer[t]) == (if |old(model.put)| < n then Default else Gone) && Enabled(model, StoreTail)
    {
      SlotsAreExclusive(model);
      StepInv(model, Construct);
      buffer[t] := Live(v);
      model := Next(model, Construct);
    }

    /** put: publish the value. */
    method PublishTail(t: nat)
      requires Valid() && Enabled(model, StoreTail) && t == tail
      modifies this
      ensures Valid() && model == Next(old(model), StoreTail)
      ensures Buffered(model) == old(Buffered(model)) + [old(model.producer.value)]
    {
      StepRefinesFifo(model, StoreTail);
      StepInv(model, StoreTail);
      tail := Slot(n, t + 1);
      model := Next(model, StoreTail);
    }

    /** get: read the producer's tail. */
    method ReadTail() returns (t: nat)
      requires Valid() && Enabled(model, LoadTail)
      modifies this`model
      ensures Valid() && t == tail && model == Next(old(model), LoadTail) && model.consumer.t == t
    {
      StepInv(model, LoadTail);
      t := tail;
      model := Next(model, LoadTail);
    }

    /** get: is anything buffered, going by the tail that was read? */
    method HasValue(h: nat, t: nat) returns (some: bool)
      requires Valid() && Enabled(model, CompareTail) && h == head && t == model.consumer.t
      modifies this`model
      ensures Valid() && model == Next(old(model), CompareTail)
      ensures some <==> model.put[|model.taken|..old(model.consumer.seen)] != []
      ensures some ==> Enabled(model, MoveOut)
    {
      GetRefusedIffEmpty(model);
      StepInv(model, CompareTail);
      some := h != t;
      model := Next(model, CompareTail);
      if some { SlotsAreExclusive(model); }
    }

    /** get: move the oldest value out. */
    method MoveData(h: nat) returns (result: T)
      requires Valid() && Enabled(model, MoveOut) && h == head
      modifies this`model
      ensures Valid() && model == Next(old(model), MoveOut)
      ensures Buffered(model) != [] && result == Buffered(model)[0]
    {
      SlotsAreExclusive(model);
      StepInv(model, MoveOut);
      result := buffer[h].value;
      model := Next(model, MoveOut);
    }

    /** get: end the moved-from object's life. */
    method DestroyData(h: nat)
      requires Valid() && Enabled(model, DestroyOld) && h == head
      modifies this`model, buffer
      ensures Valid() && model == Next(old(model), DestroyOld)
    {
      StepInv(model, DestroyOld);
      buffer[h] := Gone;
      model := Next(model, DestroyOld);
    }

    /** get: give the slot back to the producer. */
    method ReleaseHead(h: nat)
      requires Valid() && Enabled(model, StoreHead) && h == head
      modifies this
      ensures Valid() && model == Next(old(model), StoreHead)
      ensures old(Buffered(model)) == [old(model.consumer.result)] + Buffered(model)
    {
      StepRefinesFifo(model, StoreHead);
      StepInv(model, StoreHead);
      head := Slot(n, h + 1);
      model := Next(model, StoreHead);
    }

    /** A whole non-blocking put while the consumer rests: refused exactly when N - 1 values are buffered. */
    method Put(v: T) returns (ok: bool)
      requires Valid() && model.producer.PutIdle? && failOnFull
      modifies this, buffer
      ensures Valid() && model.producer.PutIdle? && model.consumer == old(model.consumer)
      ensures ok <==> |old(Buffered(model))| < n - 1
      ensures Buffered(model) == if ok then old(Buffered(model)) + [v] else old(Buffered(model))
      ensures model.taken == old(model.taken)
    {
      var t := LoadOwnTail(v);
      var h := ReadHead();
      var room := HasRoom(t, h);
      if !room { return false; }
      ConstructAt(t, v);
      PublishTail(t);
      return true;
    }

    /** A whole get while the producer rests: the oldest buffered value, if there is one. */
    method Get() returns (result: Option<T>)
      requires Valid() && model.consumer.GetIdle?
      modifies this, buffer
      ensures Valid() && model.consumer.GetIdle? && model.producer == old(model.producer)
      ensures result.None? <==> old(Buffered(model)) == []
      ensures result.None? ==> Buffered(model) == [] && model.taken == old(model.taken)
      ensures result.Some? ==>
                && old(Buffered(model)) == [result.value] + Buffered(model)
                && model.taken == old(model.taken) + [result.value]
    {
      var h := head;
      var t := ReadTail();
      var some := HasValue(h, t);
      if !some { return None; }
      var value := MoveData(h);
      DestroyData(h);
      ReleaseHead(h);
      return Some(value);
    }
  }
}

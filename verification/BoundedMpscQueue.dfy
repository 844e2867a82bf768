/**
 * The queue object itself. Each method is one atomic step of put or get: it
 * changes the fields as the source does and follows the transition system in
 * MpscModel, whose state the ghost field model records. A thread calls the
 * steps in the order of the source; other threads' steps may come between.
 */
module BoundedMpscQueue {
  import opened Wrappers
  import opened Memory
  import opened Bits
  import opened MpscModel

  datatype Probe = Ready | Full | Retry

  class BoundedMPSCQueue<T> {
    const n: nat
    const failOnFull: bool
    var head: nat
    var tail: nat
    const seqNos: array<nat>
    const data: array<Storage<T>>
    ghost var model: Queue<T>

    ghost predicate Valid()
      reads this, seqNos, data
    {
      && Inv(model) && model.n == n && model.failOnFull == failOnFull
      && seqNos.Length == n && data.Length == n
      && model.head == head && model.tail == tail
      && forall i :: 0 <= i < n ==> model.cells[i] == Cell(seqNos[i], data[i])
    }

    constructor (n: nat, failOnFull: bool)
      requires IsPow2(n) && 2 <= n
      ensures Valid() && fresh(seqNos) && fresh(data)
      ensures model == Init<T>(n, failOnFull)
    {
      this.n, this.failOnFull := n, failOnFull;
      head, tail := 0, 0;
      seqNos := new nat[n];
      data := new Storage<T>[n](_ => Default);
      model := Init(n, failOnFull);
      new;
      InitInv<T>(n, failOnFull);
      for i := 0 to n
        invariant model == Init<T>(n, failOnFull) && Inv(model) && head == tail == 0
        invariant forall j :: 0 <= j < i ==> seqNos[j] == j
        invariant forall j :: 0 <= j < n ==> data[j] == Default
      {
        seqNos[i] := i;
      }
    }

    /** put: draw a ticket. */
    method FetchAddTail(ghost v: T) returns (pos: nat)
      requires Valid()
      modifies this
      ensures Valid() && pos == old(tail) && pos in model.producers
      ensures model == Next(old(model), FetchAdd(v))
    {
      StepInv(model, FetchAdd(v));
      pos := tail;
      tail := tail + 1;
      model := Next(model, FetchAdd(v));
    }

    /** put: one turn of the wait loop. */
    method ProbeCell(pos: nat) returns (probe: Probe)
      requires Valid() && Enabled(model, LoadSeq(pos))
      modifies this`model
      ensures Valid() && model == Next(old(model), LoadSeq(pos))
      ensures probe.Ready? <==> old(At(model, pos)).seqNo == pos
      ensures probe.Full? <==> failOnFull && old(At(model, pos)).seqNo < pos
      ensures probe.Ready? ==> Enabled(model, Construct(pos))
    {
      StepInv(model, LoadSeq(pos));
      var seqNo := seqNos[Slot(n, pos)];
      var diff := seqNo - pos;
      probe := if diff == 0 then Ready else if failOnFull && diff < 0 then Full else Retry;
      model := Next(model, LoadSeq(pos));
    }

    /** put: construct the value in place, over the array's default object on the first lap and in free memory later. */
    method ConstructData(pos: nat, v: T)
      requires Valid() && Enabled(model, Construct(pos)) && model.producers[pos].value == v
      modifies this`model, data
      ensures Valid() && model == Next(old(model), Construct(pos))
      ensures old(At(model, pos)).data == (if pos < n then Default else Gone) && Enabled(model, Publish(pos))
    {
      CellsAreExclusive(model);
      StepInv(model, Construct(pos));
      data[Slot(n, pos)] := Live(v);
      model := Next(model, Construct(pos));
    }

    /** put: hand the cell to the consumer. */
    method StorePublished(pos: nat)
      requires Valid() && Enabled(model, Publish(pos))
      modifies this`model, seqNos
      ensures Valid() && model == Next(old(model), Publish(pos))
    {
      StepInv(model, Publish(pos));
      seqNos[Slot(n, pos)] := pos + 1;
      model := Next(model, Publish(pos));
    }

    /** get: look whether the head cell is published. */
    method ProbeHead() returns (available: bool)
      requires Valid() && Enabled(model, GetLoadSeq)
      modifies this`model
      ensures Valid() && model == Next(old(model), GetLoadSeq)
      ensures available <==> old(At(model, head)).seqNo == head + 1
      ensures if available then Enabled(model, MoveOut) else model == old(model)
    {
      assert TicketOk(model, head);
      StepInv(model, GetLoadSeq);
      var diff := seqNos[Slot(n, head)] - (head + 1);
      available := !(diff < 0);
      model := Next(model, GetLoadSeq);
      if available { CellsAreExclusive(model); }
    }

    /** get: move the object out of the head cell. */
    method MoveData() returns (result: T)
      requires Valid() && Enabled(model, MoveOut)
      modifies this`model
      ensures Valid() && model == Next(old(model), MoveOut)
      ensures head < |model.issued| && result == model.issued[head]
    {
      StepInv(model, MoveOut);
      result := data[Slot(n, head)].value;
      model := Next(model, MoveOut);
    }

    /** get: end the moved-from object's life. */
    method DestroyData()
      requires Valid() && Enabled(model, DestroyOld)
      modifies this`model, data
      ensures Valid() && model == Next(old(model), DestroyOld)
    {
      StepInv(model, DestroyOld);
      data[Slot(n, head)] := Gone;
      model := Next(model, DestroyOld);
    }

    /** get: give the cell to the ticket one lap later. */
    method StoreReleased()
      requires Valid() && Enabled(model, Release)
      modifies this`model, seqNos
      ensures Valid() && model == Next(old(model), Release)
    {
      StepInv(model, Release);
      seqNos[Slot(n, head)] := head + n;
      model := Next(model, Release);
    }

    /** get: move on to the next ticket. */
    method AdvanceHead()
      requires Valid() && Enabled(model, Advance)
      modifies this
      ensures Valid() && model == Next(old(model), Advance)
    {
      StepInv(model, Advance);
      head := head + 1;
      model := Next(model, Advance);
    }

    /**
     * A whole get while no other thread runs: the value of the oldest ticket,
     * or nothing exactly when that ticket's value is not published.
     */
    method Get() returns (result: Option<T>)
      requires Valid() && model.consumer.Idle?
      modifies this, seqNos, data
      ensures Valid() && model.consumer.Idle?
      ensures result.None? <==> old(At(model, head)).seqNo != old(head) + 1
      ensures result.None? ==> model == old(model)
      ensures result.Some? ==>
                && old(Pending(model)) == [result.value] + Pending(model)
                && model.taken == old(model.taken) + [result.value]
                && model.issued == old(model.issued) && model.producers == old(model.producers)
    {
      var available := ProbeHead();
      if !available { return None; }
      var value := MoveData();
      DestroyData();
      StoreReleased();
      AdvanceHead();
      assert old(Pending(model)) == [value] + Pending(model);
      return Some(value);
    }
  }
}

/**
 * The bounded queue of one producer and one consumer as a transition system:
 * every atomic load or store and every access to a slot is one step.
 */
module SpscModel {
  import opened Memory
  import opened Bits

  /**
   * Where put stands. HeadLoaded keeps the head it read, which may be stale by
   * the time it is compared; seen is how many values had been taken when it was read.
   */
  datatype Producer<T> =
    | PutIdle
    | TailLoaded(value: T)
    | HeadLoaded(value: T, h: nat, seen: nat)
    | Constructing(value: T)
    | Publishing(value: T)

  /** Where get stands; seen is how many values had been put when tail was read. */
  datatype Consumer<T> =
    | GetIdle
    | TailSeen(t: nat, seen: nat)
    | Claimed
    | Moved(result: T)
    | Destroyed(result: T)

  /**
   * buffer is the memory of the slots' objects. put and taken record the values
   * in the order in which tail and head were stored.
   */
  datatype Queue<T> = Queue(
    n: nat,
    failOnFull: bool,
    head: nat,
    tail: nat,
    buffer: seq<Storage<T>>,
    producer: Producer<T>,
    consumer: Consumer<T>,
    put: seq<T>,
    taken: seq<T>)

  datatype Action<T> =
    | BeginPut(value: T)
    | LoadHead
    | CompareHead
    | Construct
    | StoreTail
    | LoadTail
    | CompareTail
    | MoveOut
    | DestroyOld
    | StoreHead

  /** The array default-constructs an object in each slot. */
  ghost function Init<T>(n: nat, failOnFull: bool): Queue<T> {
    Queue(n, failOnFull, 0, 0, seq(n, _ => Default), PutIdle, GetIdle, [], [])
  }

  ghost predicate Sized<T>(s: Queue<T>) {
    IsPow2(s.n) && 2 <= s.n == |s.buffer| && s.head < s.n && s.tail < s.n
  }

  ghost predicate Enabled<T>(s: Queue<T>, a: Action<T>)
    requires Sized(s)
  {
    match a
    case BeginPut(_) => s.producer.PutIdle?
    case LoadHead => s.producer.TailLoaded?
    case CompareHead => s.producer.HeadLoaded?
    case Construct => s.producer.Constructing?
    case StoreTail => s.producer.Publishing?
    case LoadTail => s.consumer.GetIdle?
    case CompareTail => s.consumer.TailSeen?
    case MoveOut => s.consumer.Claimed? && s.buffer[s.head].Live?
    case DestroyOld => s.consumer.Moved?
    case StoreHead => s.consumer.Destroyed?
  }

  ghost function Next<T>(s: Queue<T>, a: Action<T>): (s': Queue<T>)
    requires Sized(s) && Enabled(s, a)
    ensures Sized(s') && s'.n == s.n
  {
    match a
    case BeginPut(v) => s.(producer := TailLoaded(v))
    case LoadHead => s.(producer := HeadLoaded(s.producer.value, s.head, |s.taken|))
    case CompareHead =>
      if Slot(s.n, s.tail + 1) != s.producer.h then s.(producer := Constructing(s.producer.value))
      else if s.failOnFull then s.(producer := PutIdle)
      else s.(producer := TailLoaded(s.producer.value))
    case Construct =>
      s.(buffer := s.buffer[s.tail := Live(s.producer.value)], producer := Publishing(s.producer.value))
    case StoreTail =>
      s.(tail := Slot(s.n, s.tail + 1), put := s.put + [s.producer.value], producer := PutIdle)
    case LoadTail => s.(consumer := TailSeen(s.tail, |s.put|))
    case CompareTail => s.(consumer := if s.head == s.consumer.t then GetIdle else Claimed)
    case MoveOut => s.(consumer := Moved(s.buffer[s.head].value))
    case DestroyOld => s.(buffer := s.buffer[s.head := Gone], consumer := Destroyed(s.consumer.result))
    case StoreHead =>
      s.(head := Slot(s.n, s.head + 1), taken := s.taken + [s.consumer.result], consumer := GetIdle)
  }

  ghost predicate CanRun<T>(s: Queue<T>, acts: seq<Action<T>>)
    requires Sized(s)
    decreases |acts|
  {
    acts == [] || (Enabled(s, acts[0]) && CanRun(Next(s, acts[0]), acts[1..]))
  }

  ghost function Run<T>(s: Queue<T>, acts: seq<Action<T>>): (s': Queue<T>)
    requires Sized(s) && CanRun(s, acts)
    ensures Sized(s') && s'.n == s.n
    decreases |acts|
  {
    if acts == [] then s else Run(Next(s, acts[0]), acts[1..])
  }

  // ----- The invariant -----

  /** The slot of the k-th value put: the one tail names after k puts. */
  ghost predicate SlotOk<T>(s: Queue<T>, k: nat)
    requires Sized(s)
  {
    s.buffer[Slot(s.n, k)] ==
    if k < |s.put| then
      if k == |s.taken| && s.consumer.Destroyed? then Gone else Live(s.put[k])
    else
      if k == |s.put| && s.producer.Publishing? then Live(s.producer.value) else if k < s.n then Default else Gone
  }

  ghost predicate Inv<T>(s: Queue<T>) {
    var k, m := |s.taken|, |s.put|;
    && Sized(s)
    && s.head == Slot(s.n, k) && s.tail == Slot(s.n, m)
    && k <= m <= k + s.n - 1
    && s.taken == s.put[..k]
    && (forall i: nat :: k <= i < k + s.n ==> SlotOk(s, i))
    && (s.producer.HeadLoaded? ==>
          var seen := s.producer.seen;
          seen <= k && m <= seen + s.n - 1 && s.producer.h == Slot(s.n, seen))
    && (s.producer.Constructing? || s.producer.Publishing? ==> m < k + s.n - 1)
    && (s.consumer.TailSeen? ==>
          k <= s.consumer.seen <= m && s.consumer.t == Slot(s.n, s.consumer.seen))
    && (s.consumer.Claimed? || s.consumer.Moved? || s.consumer.Destroyed? ==> k < m)
    && (s.consumer.Moved? || s.consumer.Destroyed? ==> s.consumer.result == s.put[k])
  }

  lemma InitInv<T>(n: nat, failOnFull: bool)
    requires IsPow2(n) && 2 <= n
    ensures Inv(Init<T>(n, failOnFull))
  {
  }

  lemma SlotOffset(n: nat, k: nat, i: nat)
    requires IsPow2(n)
    ensures Slot(n, Slot(n, k) + i) == Slot(n, k + i)
  {
    var a := k % n + i;
    assert k == n * (k / n) + k % n;
    assert a == n * (a / n) + a % n;
    assert k + i == n * (k / n + a / n) + a % n;
    ModUnique(k + i, n, k / n + a / n, a % n);
  }

  lemma OtherSlots<T>(s: Queue<T>, k: nat)
    requires Sized(s) && |s.taken| <= k < |s.taken| + s.n
    ensures forall i: nat :: |s.taken| <= i < |s.taken| + s.n && i != k ==> Slot(s.n, i) != Slot(s.n, k)
  {
    forall i: nat | |s.taken| <= i < |s.taken| + s.n && i != k ensures Slot(s.n, i) != Slot(s.n, k) {
      SlotsDistinct(s.n, i, k);
    }
  }

  /** The comparison with the head that was loaded tells whether the queue was full then. */
  lemma FullCheck<T>(s: Queue<T>)
    requires Inv(s) && Enabled(s, CompareHead)
    ensures Slot(s.n, s.tail + 1) == s.producer.h <==> |s.put| - s.producer.seen == s.n - 1
  {
    var m, seen := |s.put|, s.producer.seen;
    SlotOffset(s.n, m, 1);
    if m - seen == s.n - 1 {
      SlotNextLap(s.n, seen);
    } else {
      SlotsDistinct(s.n, m + 1, seen);
    }
  }

  /** The comparison with the tail that was loaded tells whether the queue was empty then. */
  lemma EmptyCheck<T>(s: Queue<T>)
    requires Inv(s) && Enabled(s, CompareTail)
    ensures s.head == s.consumer.t <==> s.consumer.seen == |s.taken|
  {
    if s.consumer.seen != |s.taken| {
      SlotsDistinct(s.n, s.consumer.seen, |s.taken|);
    }
  }

  lemma PutStepInv<T>(s: Queue<T>, a: Action<T>)
    requires Inv(s) && Enabled(s, a) && (a.BeginPut? || a.LoadHead? || a.CompareHead?)
    ensures Inv(Next(s, a))
  {
    var s' := Next(s, a);
    if a.CompareHead? { FullCheck(s); }
    forall i: nat | |s.taken| <= i < |s.taken| + s.n ensures SlotOk(s', i) {
      assert SlotOk(s, i);
    }
  }

  lemma FillStepInv<T>(s: Queue<T>, a: Action<T>)
    requires Inv(s) && Enabled(s, a) && (a.Construct? || a.StoreTail?)
    ensures Inv(Next(s, a))
  {
    var s' := Next(s, a);
    SlotOffset(s.n, |s.put|, 1);
    OtherSlots(s, |s.put|);
    forall i: nat | |s.taken| <= i < |s.taken| + s.n ensures SlotOk(s', i) {
      assert SlotOk(s, i);
    }
  }

  lemma GetStepInv<T>(s: Queue<T>, a: Action<T>)
    requires Inv(s) && Enabled(s, a) && (a.LoadTail? || a.CompareTail? || a.MoveOut? || a.DestroyOld? || a.StoreHead?)
    ensures Inv(Next(s, a))
  {
    var s' := Next(s, a);
    var k := |s.taken|;
    assert SlotOk(s, k);
    if a.CompareTail? { EmptyCheck(s); }
    if a.DestroyOld? { OtherSlots(s, k); }
    if a.StoreHead? { SlotOffset(s.n, k, 1); SlotNextLap(s.n, k); }
    forall i: nat | |s'.taken| <= i < |s'.taken| + s.n ensures SlotOk(s', i) {
      if i < k + s.n { assert SlotOk(s, i); }
    }
  }

  lemma StepInv<T>(s: Queue<T>, a: Action<T>)
    requires Inv(s) && Enabled(s, a)
    ensures Inv(Next(s, a))
  {
    match a
    case BeginPut(_) => PutStepInv(s, a);
    case LoadHead => PutStepInv(s, a);
    case CompareHead => PutStepInv(s, a);
    case Construct => FillStepInv(s, a);
    case StoreTail => FillStepInv(s, a);
    case _ => GetStepInv(s, a);
  }

  lemma {:induction false} RunInv<T>(s: Queue<T>, acts: seq<Action<T>>)
    requires Inv(s) && CanRun(s, acts)
    ensures Inv(Run(s, acts))
    decreases |acts|
  {
    if acts != [] {
      StepInv(s, acts[0]);
      RunInv(Next(s, acts[0]), acts[1..]);
    }
  }

  // ----- What every run guarantees -----

  /** The values between head and tail, in slot order. */
  ghost function Buffered<T>(s: Queue<T>): seq<T>
    requires |s.taken| <= |s.put|
  {
    s.put[|s.taken|..]
  }

  /** The i-th buffered value sits i slots after head, except that get destroys the first in place. */
  ghost predicate BufferedAt<T>(s: Queue<T>, i: nat)
    requires Sized(s) && |s.taken| <= |s.put| && i < |Buffered(s)|
  {
    s.buffer[Slot(s.n, s.head + i)] == if i == 0 && s.consumer.Destroyed? then Gone else Live(Buffered(s)[i])
  }

  lemma InvConserves<T>(s: Queue<T>)
    requires Inv(s)
    ensures s.put == s.taken + Buffered(s) && |Buffered(s)| <= s.n - 1
    ensures s.tail == Slot(s.n, s.head + |Buffered(s)|)
    ensures forall i: nat :: i < |Buffered(s)| ==> BufferedAt(s, i)
  {
    SlotOffset(s.n, |s.taken|, |Buffered(s)|);
    forall i: nat | i < |Buffered(s)| ensures BufferedAt(s, i) {
      SlotOffset(s.n, |s.taken|, i);
      assert SlotOk(s, |s.taken| + i);
    }
  }

  /**
   * In every interleaving, the values put are the values taken followed by the
   * buffered ones, at most N - 1 are buffered, and the slots from head up to
   * tail hold exactly those.
   */
  lemma RunConserves<T>(n: nat, failOnFull: bool, acts: seq<Action<T>>)
    requires IsPow2(n) && 2 <= n && CanRun(Init<T>(n, failOnFull), acts)
    ensures var s := Run(Init<T>(n, failOnFull), acts);
            && s.n == n && |s.taken| <= |s.put|
            && s.put == s.taken + Buffered(s) && |Buffered(s)| <= n - 1
            && s.tail == Slot(n, s.head + |Buffered(s)|)
            && forall i: nat :: i < |Buffered(s)| ==> BufferedAt(s, i)
  {
    InitInv<T>(n, failOnFull);
    RunInv(Init<T>(n, failOnFull), acts);
    InvConserves(Run(Init<T>(n, failOnFull), acts));
  }

  /** A step stutters, enqueues the value being put, or dequeues the oldest value. */
  lemma StepRefinesFifo<T>(s: Queue<T>, a: Action<T>)
    requires Inv(s) && Enabled(s, a)
    ensures var s' := Next(s, a);
            && |s'.taken| <= |s'.put|
            && match a
               case StoreTail => Buffered(s') == Buffered(s) + [s.producer.value] && s'.taken == s.taken
               case StoreHead => Buffered(s) == [s.consumer.result] + Buffered(s') && s'.taken == s.taken + [Buffered(s)[0]]
               case _ => Buffered(s') == Buffered(s) && s'.taken == s.taken
  {
    StepInv(s, a);
  }

  /** The producer is about to construct into the slot at tail. */
  ghost predicate ProducerInside<T>(s: Queue<T>) {
    s.producer.Constructing? || s.producer.Publishing?
  }

  /**
   * However stale the head it compared with, the producer constructs only into
   * a slot that the consumer cannot reach, and the consumer moves out of and
   * destroys only the oldest value. A put constructs over a live object if and only
   * if it is one of the first N, and that object is the array's default one.
   */
  lemma SlotsAreExclusive<T>(s: Queue<T>)
    requires Inv(s)
    ensures ProducerInside(s) ==>
              forall i: nat :: |s.taken| <= i < |s.put| ==> Slot(s.n, i) != s.tail
    ensures s.producer.Constructing? ==> (s.buffer[s.tail] != Gone <==> |s.put| < s.n) && !s.buffer[s.tail].Live? && |s.put| - |s.taken| < s.n - 1
    ensures s.consumer.Claimed? || s.consumer.Moved? ==> s.buffer[s.head] == Live(s.put[|s.taken|])
    ensures ProducerInside(s) && (s.consumer.Claimed? || s.consumer.Moved? || s.consumer.Destroyed?) ==> s.head != s.tail
  {
    OtherSlots(s, |s.put|);
    assert SlotOk(s, |s.put|) && SlotOk(s, |s.taken|);
  }

  /** The first put on a new queue of two constructs over the array's default object. */
  lemma FirstPutConstructsOverLive<T>(v: T)
    ensures var s0, acts := Init<T>(2, false), [Action<T>.BeginPut(v), LoadHead, CompareHead];
            && Sized(s0) && CanRun(s0, acts)
            && Run(s0, acts).producer == Constructing(v) && Run(s0, acts).buffer[Run(s0, acts).tail] == Default
  {
    assert Pow2(1) == 2;
    var s0, acts := Init<T>(2, false), [Action<T>.BeginPut(v), LoadHead, CompareHead];
    InitInv<T>(2, false);
    var s1 := Next(s0, acts[0]);
    var s2 := Next(s1, LoadHead);
    StepInv(s0, acts[0]);
    StepInv(s1, LoadHead);
    PutRefusedIffFull(s2);
    assert acts[1..] == [Action<T>.LoadHead, CompareHead] && acts[1..][1..] == [CompareHead] && acts[1..][1..][1..] == [];
    var s3 := Next(s2, CompareHead);
    assert Run(s2, [CompareHead]) == Run(s3, []) == s3;
  }

  /** The array's destructor ends an object's life in every slot. */
  ghost predicate EverySlotLive<T>(s: Queue<T>) {
    forall i :: 0 <= i < |s.buffer| ==> s.buffer[i] != Gone
  }

  /** On a queue at rest the destructor finds an object in every slot if and only if nothing was ever taken. */
  lemma DestructorFindsObjectsIff<T>(s: Queue<T>)
    requires Inv(s) && s.producer.PutIdle? && s.consumer.GetIdle?
    ensures EverySlotLive(s) <==> |s.taken| == 0
  {
    var k := |s.taken|;
    if k == 0 {
      forall i | 0 <= i < s.n ensures s.buffer[i] != Gone {
        ModUnique(i, s.n, 0, i);
        assert SlotOk(s, i);
      }
    } else {
      assert SlotOk(s, k + s.n - 1);
      assert s.buffer[Slot(s.n, k + s.n - 1)] == Gone;
    }
  }

  /** put fails, or waits on, exactly when N - 1 values were buffered when head was loaded. */
  lemma PutRefusedIffFull<T>(s: Queue<T>)
    requires Inv(s) && Enabled(s, CompareHead)
    ensures Next(s, CompareHead).producer.Constructing? <==> |s.put| - s.producer.seen < s.n - 1
    ensures Next(s, CompareHead).producer.PutIdle? <==> s.failOnFull && |s.put| - s.producer.seen == s.n - 1
  {
    FullCheck(s);
  }

  /** get returns nothing, or waits on, exactly when nothing was buffered when tail was loaded. */
  lemma GetRefusedIffEmpty<T>(s: Queue<T>)
    requires Inv(s) && Enabled(s, CompareTail)
    ensures Next(s, CompareTail).consumer.GetIdle? <==> s.put[|s.taken|..s.consumer.seen] == []
    ensures Next(s, CompareTail).consumer.Claimed? ==> Buffered(s) != []
  {
    EmptyCheck(s);
  }
}

/**
 * The ticket-based bounded queue of many producers and one consumer, as a
 * transition system: every atomic load, store or fetch-add and every access to
 * a cell's plain data is one step, and steps of all threads interleave freely.
 */
module MpscModel {
  import opened Memory
  import opened Bits

  /** A cell holds its sequence number and the memory of one object. */
  datatype Cell<T> = Cell(seqNo: nat, data: Storage<T>)

  /** Where a call of put stands once it has its ticket. */
  datatype Producer<T> =
    | Waiting(value: T)
    | Constructing(value: T)
    | Publishing(value: T)

  /** Where the one consumer stands inside get. */
  datatype Consumer<T> =
    | Idle
    | Claimed
    | Moved(result: T)
    | Destroyed(result: T)
    | Released(result: T)

  /**
   * The shared fields, the running calls of put by ticket, the consumer, and
   * what has happened so far: issued[t] is the value put by the holder of
   * ticket t, taken the values get returned, and burned the tickets given up
   * by a put that returned false.
   */
  datatype Queue<T> = Queue(
    n: nat,
    failOnFull: bool,
    head: nat,
    tail: nat,
    cells: seq<Cell<T>>,
    producers: map<nat, Producer<T>>,
    consumer: Consumer<T>,
    issued: seq<T>,
    taken: seq<T>,
    burned: set<nat>)

  datatype Action<T> =
    | FetchAdd(value: T)
    | LoadSeq(t: nat)
    | Construct(t: nat)
    | Publish(t: nat)
    | GetLoadSeq
    | MoveOut
    | DestroyOld
    | Release
    | Advance

  /** The array of cells default-constructs an object in each. */
  ghost function Init<T>(n: nat, failOnFull: bool): Queue<T> {
    Queue(n, failOnFull, 0, 0, seq(n, (i: nat) => Cell(i, Default)), map[], Idle, [], [], {})
  }

  /** The static assertions on N. */
  ghost predicate Sized<T>(s: Queue<T>) {
    IsPow2(s.n) && 2 <= s.n == |s.cells|
  }

  ghost predicate Enabled<T>(s: Queue<T>, a: Action<T>)
    requires Sized(s)
  {
    match a
    case FetchAdd(_) => true
    case LoadSeq(t) => t in s.producers && s.producers[t].Waiting?
    case Construct(t) => t in s.producers && s.producers[t].Constructing?
    case Publish(t) => t in s.producers && s.producers[t].Publishing?
    case GetLoadSeq => s.consumer.Idle?
    case MoveOut => s.consumer.Claimed? && At(s, s.head).data.Live?
    case DestroyOld => s.consumer.Moved?
    case Release => s.consumer.Destroyed?
    case Advance => s.consumer.Released?
  }

  /** The cell ticket t works on. */
  function At<T>(s: Queue<T>, t: nat): Cell<T>
    requires Sized(s)
  {
    s.cells[Slot(s.n, t)]
  }

  function SetCell<T>(s: Queue<T>, t: nat, c: Cell<T>): (s': Queue<T>)
    requires Sized(s)
  {
    s.(cells := s.cells[Slot(s.n, t) := c])
  }

  ghost function Next<T>(s: Queue<T>, a: Action<T>): (s': Queue<T>)
    requires Sized(s) && Enabled(s, a)
    ensures Sized(s') && s'.n == s.n
  {
    match a
    case FetchAdd(v) =>
      s.(tail := s.tail + 1, producers := s.producers[s.tail := Waiting(v)], issued := s.issued + [v])
    case LoadSeq(t) =>
      if At(s, t).seqNo == t then
        s.(producers := s.producers[t := Constructing(s.producers[t].value)])
      else if s.failOnFull && At(s, t).seqNo < t then
        s.(producers := s.producers - {t}, burned := s.burned + {t})
      else
        s
    case Construct(t) =>
      var v := s.producers[t].value;
      SetCell(s, t, At(s, t).(data := Live(v))).(producers := s.producers[t := Publishing(v)])
    case Publish(t) =>
      SetCell(s, t, At(s, t).(seqNo := t + 1)).(producers := s.producers - {t})
    case GetLoadSeq =>
      if At(s, s.head).seqNo < s.head + 1 then s else s.(consumer := Claimed)
    case MoveOut =>
      s.(consumer := Moved(At(s, s.head).data.value))
    case DestroyOld =>
      SetCell(s, s.head, At(s, s.head).(data := Gone)).(consumer := Destroyed(s.consumer.result))
    case Release =>
      SetCell(s, s.head, At(s, s.head).(seqNo := s.head + s.n)).(consumer := Released(s.consumer.result))
    case Advance =>
      s.(head := s.head + 1, taken := s.taken + [s.consumer.result], consumer := Idle)
  }

  ghost predicate CanRun<T>(s: Queue<T>, acts: seq<Action<T>>)
    requires Sized(s)
    decreases |acts|
  {
    acts == [] || (Enabled(s, acts[0]) && CanRun(Next(s, acts[0]), acts[1..]))
  }

  ghost function Run<T>(s: Queue<T>, acts: seq<Action<T>>): (s': Queue<T>)
    requires Sized(s) && CanRun(s, acts)
    ensures Sized(s') && s'.n == s.n
    decreases |acts|
  {
    if acts == [] then s else Run(Next(s, acts[0]), acts[1..])
  }

  // ----- The invariant -----

  /** The lowest ticket whose cell has not been handed back to the producers. */
  function Base<T>(s: Queue<T>): nat {
    s.head + if s.consumer.Released? then 1 else 0
  }

  /** What the cell of ticket t holds before t's own object: on the first lap the array's default object. */
  function Unused<T>(s: Queue<T>, t: nat): Storage<T> {
    if t < s.n then Default else Gone
  }

  /** What the cell of ticket t looks like while t is less than a lap above Base. */
  ghost predicate TicketOk<T>(s: Queue<T>, t: nat)
    requires Sized(s)
  {
    var c := At(s, t);
    && (c.seqNo == t || c.seqNo == t + 1)
    && (c.seqNo == t + 1 ==>
          && t < s.tail && t < |s.issued| && t !in s.burned && t !in s.producers
          && c.data == if t == s.head && s.consumer.Destroyed? then Gone else Live(s.issued[t]))
    && (c.seqNo == t ==>
          && (t < s.tail && t !in s.burned ==> t in s.producers)
          && c.data == if t in s.producers && s.producers[t].Publishing? then Live(s.producers[t].value) else Unused(s, t))
  }

  ghost predicate ProducerOk<T>(s: Queue<T>, t: nat)
    requires Sized(s) && t in s.producers
  {
    && Base(s) <= t < s.tail && t < |s.issued| && s.producers[t].value == s.issued[t] && t !in s.burned
    && (s.producers[t].Waiting? || (t < Base(s) + s.n && At(s, t).seqNo == t))
  }

  ghost predicate ConsumerOk<T>(s: Queue<T>)
    requires Sized(s) && s.head <= |s.issued|
  {
    && s.taken == s.issued[..s.head]
    && (!s.consumer.Idle? ==> s.head < |s.issued|)
    && (s.consumer.Claimed? || s.consumer.Moved? || s.consumer.Destroyed? ==> At(s, s.head).seqNo == s.head + 1)
    && (s.consumer.Moved? || s.consumer.Destroyed? || s.consumer.Released? ==>
          s.consumer.result == s.issued[s.head])
  }

  ghost predicate Inv<T>(s: Queue<T>) {
    && Sized(s)
    && s.head <= s.tail == |s.issued|
    && ConsumerOk(s)
    && (forall t :: t in s.producers ==> ProducerOk(s, t))
    && (forall t: nat :: Base(s) <= t < Base(s) + s.n ==> TicketOk(s, t))
    && (forall t: nat :: Base(s) + s.n <= t < s.tail ==> t in s.burned || t in s.producers)
    && (forall t :: t in s.burned ==> Base(s) <= t < s.tail)
    && (!s.failOnFull ==> s.burned == {})
  }

  lemma InitInv<T>(n: nat, failOnFull: bool)
    requires IsPow2(n) && 2 <= n
    ensures Inv(Init<T>(n, failOnFull))
  {
    forall t: nat | t < n ensures Slot(n, t) == t {
      ModUnique(t, n, 0, t);
    }
  }

  /** Tickets in the window other than t do not see a change to t's cell. */
  lemma OtherSlots<T>(s: Queue<T>, t: nat)
    requires Sized(s) && Base(s) <= t < Base(s) + s.n
    ensures forall u: nat :: Base(s) <= u < Base(s) + s.n && u != t ==> Slot(s.n, u) != Slot(s.n, t)
  {
    forall u: nat | Base(s) <= u < Base(s) + s.n && u != t
      ensures Slot(s.n, u) != Slot(s.n, t)
    {
      SlotsDistinct(s.n, u, t);
    }
  }

  lemma TicketOfLap<T>(s: Queue<T>, u: nat)
    requires Inv(s) && Base(s) <= u < Base(s) + s.n
    ensures At(s, u).seqNo == u || At(s, u).seqNo == u + 1
  {
    assert TicketOk(s, u);
  }

  lemma SlotIsBehind<T>(s: Queue<T>, t: nat, u: nat)
    requires Sized(s) && Slot(s.n, u) == Slot(s.n, t) && u < t
    requires At(s, u).seqNo == u || At(s, u).seqNo == u + 1
    ensures At(s, t).seqNo <= u + 1
  {
  }

  lemma NotAdjacent(n: nat, t: nat, u: nat)
    requires IsPow2(n) && 2 <= n && u < t && Slot(n, u) == Slot(n, t)
    ensures u + 1 < t
  {
    if u + 1 == t { SlotsDistinct(n, u, t); }
  }

  /** A ticket a lap or more ahead of Base finds its cell behind. */
  lemma AheadOfLap<T>(s: Queue<T>, t: nat)
    requires Inv(s) && Base(s) + s.n <= t
    ensures At(s, t).seqNo < t
  {
    var u := SameSlot(s.n, t, Base(s));
    TicketOfLap(s, u);
    NotAdjacent(s.n, t, u);
    SlotIsBehind(s, t, u);
  }

  lemma SameSlot(n: nat, t: nat, base: nat) returns (u: nat)
    requires IsPow2(n) && base <= t
    ensures base <= u < base + n && Slot(n, u) == Slot(n, t)
  {
    u := base + (t - base) % n;
    var q := (t - base) / n;
    assert t == n * (u / n + q) + u % n;
    ModUnique(t, n, u / n + q, u % n);
  }

  lemma FetchAddInv<T>(s: Queue<T>, v: T)
    requires Inv(s)
    ensures Inv(Next(s, FetchAdd(v)))
  {
    var s' := Next(s, FetchAdd(v));
    forall t: nat | Base(s') <= t < Base(s') + s'.n ensures TicketOk(s', t) {
      assert TicketOk(s, t);
    }
    forall t | t in s'.producers ensures ProducerOk(s', t) {
      assert t in s.producers ==> ProducerOk(s, t);
    }
  }

  lemma LoadSeqInv<T>(s: Queue<T>, p: nat)
    requires Inv(s) && Enabled(s, LoadSeq(p))
    ensures Inv(Next(s, LoadSeq(p)))
  {
    var s' := Next(s, LoadSeq(p));
    assert ProducerOk(s, p);
    if Base(s) + s.n <= p { AheadOfLap(s, p); } else { assert TicketOk(s, p); }
    forall t: nat | Base(s') <= t < Base(s') + s'.n ensures TicketOk(s', t) {
      assert TicketOk(s, t);
    }
    forall t | t in s'.producers ensures ProducerOk(s', t) {
      assert ProducerOk(s, t);
    }
  }

  /** A producer that writes to its cell changes nothing for the other tickets. */
  lemma CellStepInv<T>(s: Queue<T>, a: Action<T>)
    requires Inv(s) && Enabled(s, a) && (a.Construct? || a.Publish?)
    ensures Inv(Next(s, a))
  {
    var s' := Next(s, a);
    assert ProducerOk(s, a.t) && TicketOk(s, a.t);
    OtherSlots(s, a.t);
    forall t: nat | Base(s) <= t < Base(s) + s.n ensures TicketOk(s', t) {
      CellStepTicket(s, a, t);
    }
    forall t | t in s'.producers ensures ProducerOk(s', t) {
      assert ProducerOk(s, t);
    }
    if !s.consumer.Idle? && !s.consumer.Released? { assert a.t != s.head; }
  }

  lemma CellStepTicket<T>(s: Queue<T>, a: Action<T>, t: nat)
    requires Inv(s) && Enabled(s, a) && (a.Construct? || a.Publish?)
    requires Base(s) <= t < Base(s) + s.n && (t != a.t ==> Slot(s.n, t) != Slot(s.n, a.t))
    ensures TicketOk(Next(s, a), t)
  {
    assert ProducerOk(s, a.t) && TicketOk(s, a.t) && TicketOk(s, t);
  }

  lemma GetStepInv<T>(s: Queue<T>, a: Action<T>)
    requires Inv(s) && Enabled(s, a) && (a.GetLoadSeq? || a.MoveOut?)
    ensures Inv(Next(s, a))
  {
    var s' := Next(s, a);
    assert TicketOk(s, s.head);
    forall t: nat | Base(s') <= t < Base(s') + s'.n ensures TicketOk(s', t) {
      assert TicketOk(s, t);
    }
    forall t | t in s'.producers ensures ProducerOk(s', t) {
      assert ProducerOk(s, t);
    }
  }

  lemma DestroyOldInv<T>(s: Queue<T>)
    requires Inv(s) && Enabled(s, DestroyOld)
    ensures Inv(Next(s, DestroyOld))
  {
    var s' := Next(s, DestroyOld);
    assert TicketOk(s, s.head);
    OtherSlots(s, s.head);
    forall t: nat | Base(s') <= t < Base(s') + s'.n ensures TicketOk(s', t) {
      assert TicketOk(s, t);
    }
    forall t | t in s'.producers ensures ProducerOk(s', t) {
      assert ProducerOk(s, t);
    }
  }

  lemma AdvanceInv<T>(s: Queue<T>)
    requires Inv(s) && Enabled(s, Advance)
    ensures Inv(Next(s, Advance))
  {
    var s' := Next(s, Advance);
    forall t: nat | Base(s') <= t < Base(s') + s'.n ensures TicketOk(s', t) {
      assert TicketOk(s, t);
    }
    forall t | t in s'.producers ensures ProducerOk(s', t) {
      assert ProducerOk(s, t);
    }
  }

  lemma ReleaseInv<T>(s: Queue<T>)
    requires Inv(s) && Enabled(s, Release)
    ensures Inv(Next(s, Release))
  {
    var s' := Next(s, Release);
    assert TicketOk(s, s.head);
    OtherSlots(s, s.head);
    SlotNextLap(s.n, s.head);
    AheadOfLap(s, s.head + s.n);
    forall t: nat | Base(s') <= t < Base(s') + s'.n ensures TicketOk(s', t) {
      if t < s.head + s.n {
        assert TicketOk(s, t);
      } else if t in s.producers {
        assert ProducerOk(s, t);
      }
    }
    forall t | t in s'.producers ensures ProducerOk(s', t) {
      assert ProducerOk(s, t);
    }
  }

  lemma StepInv<T>(s: Queue<T>, a: Action<T>)
    requires Inv(s) && Enabled(s, a)
    ensures Inv(Next(s, a))
  {
    match a
    case FetchAdd(v) => FetchAddInv(s, v);
    case LoadSeq(t) => LoadSeqInv(s, t);
    case Construct(_) => CellStepInv(s, a);
    case Publish(_) => CellStepInv(s, a);
    case DestroyOld => DestroyOldInv(s);
    case Release => ReleaseInv(s);
    case Advance => AdvanceInv(s);
    case _ => GetStepInv(s, a);
  }

  lemma {:induction false} RunInv<T>(s: Queue<T>, acts: seq<Action<T>>)
    requires Inv(s) && CanRun(s, acts)
    ensures Inv(Run(s, acts))
    decreases |acts|
  {
    if acts != [] {
      StepInv(s, acts[0]);
      RunInv(Next(s, acts[0]), acts[1..]);
    }
  }

  // ----- First in, first out -----

  /** The queue as its callers see it: every ticketed value get has not returned yet. */
  function Pending<T>(s: Queue<T>): seq<T>
    requires |s.taken| <= |s.issued|
  {
    s.issued[|s.taken|..]
  }

  /** Each step is a stutter, an enqueue at the back or a dequeue of the front. */
  lemma StepRefinesFifo<T>(s: Queue<T>, a: Action<T>)
    requires Inv(s) && Enabled(s, a)
    ensures var s' := Next(s, a);
            && |s'.taken| <= |s'.issued|
            && match a
               case FetchAdd(v) => Pending(s') == Pending(s) + [v] && s'.taken == s.taken
               case Advance => Pending(s) == [s.consumer.result] + Pending(s') && s'.taken == s.taken + [Pending(s)[0]]
               case _ => Pending(s') == Pending(s) && s'.taken == s.taken
  {
    StepInv(s, a);
  }

  /**
   * In every interleaving the k-th value get returns is the value put by the
   * holder of ticket k, and a ticket's value never changes afterwards.
   */
  lemma {:induction false} RunTakesInTicketOrder<T>(s: Queue<T>, acts: seq<Action<T>>)
    requires Inv(s) && CanRun(s, acts)
    ensures var s' := Run(s, acts);
            && s.issued <= s'.issued && s.taken <= s'.taken
            && |s'.taken| == s'.head <= |s'.issued|
            && forall k :: 0 <= k < |s'.taken| ==> s'.taken[k] == s'.issued[k]
    decreases |acts|
  {
    TakenByTicket(s);
    if acts != [] {
      StepInv(s, acts[0]);
      StepExtends(s, acts[0]);
      RunTakesInTicketOrder(Next(s, acts[0]), acts[1..]);
    }
  }

  lemma StepExtends<T>(s: Queue<T>, a: Action<T>)
    requires Inv(s) && Enabled(s, a)
    ensures s.issued <= Next(s, a).issued && s.taken <= Next(s, a).taken
  {
  }

  lemma TakenByTicket<T>(s: Queue<T>)
    requires Inv(s)
    ensures |s.taken| == s.head <= |s.issued|
    ensures forall k :: 0 <= k < |s.taken| ==> s.taken[k] == s.issued[k]
  {
  }

  /** When every put has returned, the cells hold exactly the pending values, in order. */
  lemma QuietQueueHoldsPending<T>(s: Queue<T>)
    requires Inv(s) && s.producers == map[] && s.consumer.Idle? && s.burned == {}
    ensures s.tail <= s.head + s.n && |Pending(s)| == s.tail - s.head
    ensures forall t: nat :: s.head <= t < s.tail ==>
              At(s, t) == Cell(t + 1, Live(Pending(s)[t - s.head]))
  {
    assert s.head + s.n < s.tail ==> s.tail - 1 in s.burned || s.tail - 1 in s.producers;
    forall t: nat | s.head <= t < s.tail
      ensures At(s, t) == Cell(t + 1, Live(Pending(s)[t - s.head]))
    {
      assert TicketOk(s, t);
    }
  }

  // ----- Exclusive access -----

  /** A producer about to write its cell's data or to hand the cell over. */
  ghost predicate ProducerInside<T>(s: Queue<T>, t: nat) {
    t in s.producers && !s.producers[t].Waiting?
  }

  ghost predicate ConsumerInside<T>(s: Queue<T>) {
    s.consumer.Claimed? || s.consumer.Moved? || s.consumer.Destroyed?
  }

  /**
   * No two threads are ever inside the same cell, and a get moves out of and
   * destroys only the object of its own ticket. A put constructs over a live
   * object if and only if its ticket is of the first lap, and that object is the
   * default one of the array, never a value that was put.
   */
  lemma CellsAreExclusive<T>(s: Queue<T>)
    requires Inv(s)
    ensures forall t, u :: ProducerInside(s, t) && ProducerInside(s, u) && t != u ==> Slot(s.n, t) != Slot(s.n, u)
    ensures ConsumerInside(s) ==> forall t :: ProducerInside(s, t) ==> Slot(s.n, t) != Slot(s.n, s.head)
    ensures forall t :: t in s.producers && s.producers[t].Constructing? ==> (At(s, t).data != Gone <==> t < s.n) && !At(s, t).data.Live?
    ensures s.consumer.Claimed? || s.consumer.Moved? ==> At(s, s.head).data == Live(s.issued[s.head])
  {
    forall t, u | ProducerInside(s, t) && ProducerInside(s, u) && t != u
      ensures Slot(s.n, t) != Slot(s.n, u)
    {
      assert ProducerOk(s, t) && ProducerOk(s, u);
      SlotsDistinct(s.n, t, u);
    }
    forall t | ProducerInside(s, t)
      ensures ConsumerInside(s) ==> Slot(s.n, t) != Slot(s.n, s.head)
      ensures s.producers[t].Constructing? ==> At(s, t).data == Unused(s, t)
    {
      assert ProducerOk(s, t) && TicketOk(s, t);
      if ConsumerInside(s) && t != s.head { SlotsDistinct(s.n, t, s.head); }
    }
    if s.consumer.Claimed? || s.consumer.Moved? { assert TicketOk(s, s.head); }
  }

  /** The first put on a new queue of two constructs over the array's default object. */
  lemma FirstPutConstructsOverLive<T>(v: T) returns (acts: seq<Action<T>>, s: Queue<T>)
    ensures Init<T>(2, false).n == 2 && RunsTo(Init<T>(2, false), acts, s)
    ensures 0 in s.producers && s.producers[0] == Constructing(v) && At(s, 0).data == Default
  {
    assert Pow2(1) == 2;
    InitInv<T>(2, false);
    var s0 := Init<T>(2, false);
    assert Slot(2, 0) == 0;
    var s1 := Next(s0, FetchAdd(v));
    StepInv(s0, FetchAdd(v));
    StepInv(s1, LoadSeq(0));
    acts, s := [FetchAdd(v)] + [LoadSeq(0)], Next(s1, LoadSeq(0));
    RunCons(s1, LoadSeq(0), []);
    RunCons(s0, FetchAdd(v), [LoadSeq(0)]);
    assert [Action<T>.LoadSeq(0)] + [] == [LoadSeq(0)];
  }

  /** The array's destructor ends an object's life in every cell. */
  ghost predicate EveryCellLive<T>(s: Queue<T>) {
    forall i :: 0 <= i < |s.cells| ==> s.cells[i].data != Gone
  }

  /** No put or get is running. */
  predicate AtRest<T>(s: Queue<T>) {
    s.producers == map[] && s.consumer.Idle?
  }

  /** The cell of ticket t has not lost its first object, or has t's own. */
  predicate HoldsObject<T>(s: Queue<T>, t: nat) {
    t < s.n || (t < s.tail && t !in s.burned)
  }

  /**
   * On a queue at rest the destructor finds an object in every cell if and only if
   * each ticket of the lap from head on is of the first lap or has been put and not
   * given up. Where no put gave up a ticket, that is when nothing was taken or the
   * queue is full: otherwise the destructor destroys again what a get has destroyed.
   */
  lemma DestructorFindsObjectsIff<T>(s: Queue<T>)
    requires Inv(s) && AtRest(s)
    ensures EveryCellLive(s) <==> forall t: nat :: s.head <= t < s.head + s.n ==> HoldsObject(s, t)
    ensures s.burned == {} ==> (EveryCellLive(s) <==> s.head == 0 || s.tail == s.head + s.n)
  {
    forall t: nat | s.head <= t < s.head + s.n ensures At(s, t).data != Gone <==> HoldsObject(s, t) {
      assert TicketOk(s, t);
    }
    if forall t: nat :: s.head <= t < s.head + s.n ==> HoldsObject(s, t) {
      forall i | 0 <= i < s.n ensures s.cells[i].data != Gone {
        var t := TicketOfSlot(s.n, s.head, i);
        assert HoldsObject(s, t);
      }
    } else {
      var t: nat :| s.head <= t < s.head + s.n && !HoldsObject(s, t);
      assert s.cells[Slot(s.n, t)].data == Gone;
    }
    if s.burned == {} { NoneGivenUp(s); }
  }

  lemma NoneGivenUp<T>(s: Queue<T>)
    requires Inv(s) && AtRest(s) && s.burned == {}
    ensures (forall t: nat :: s.head <= t < s.head + s.n ==> HoldsObject(s, t)) <==> s.head == 0 || s.tail == s.head + s.n
  {
    assert s.head + s.n < s.tail ==> s.tail - 1 in s.burned || s.tail - 1 in s.producers;
    var last := s.head + s.n - 1;
    assert HoldsObject(s, last) ==> s.head == 0 || s.tail == s.head + s.n;
  }

  /** Every slot is that of some ticket of the lap from base on. */
  lemma TicketOfSlot(n: nat, base: nat, i: nat) returns (t: nat)
    requires IsPow2(n) && i < n
    ensures base <= t < base + n && Slot(n, t) == i
  {
    var q := base / n;
    assert base == n * q + base % n;
    if base % n <= i {
      t := n * q + i;
      ModUnique(t, n, q, i);
    } else {
      t := n * (q + 1) + i;
      ModUnique(t, n, q + 1, i);
    }
  }

  // ----- Liveness -----

  /** Some step other than a failed probe brings the oldest ticket nearer to its get. */
  ghost predicate HeadProgresses<T>(s: Queue<T>)
    requires Sized(s)
  {
    || s.head == s.tail
    || !s.consumer.Idle?
    || At(s, s.head).seqNo == s.head + 1
    || (s.head in s.producers && (s.producers[s.head].Waiting? ==> At(s, s.head).seqNo == s.head))
  }

  /** The queue cannot deadlock, unless the ticket the consumer waits for was given up. */
  lemma HeadProgressesIffNotBurned<T>(s: Queue<T>)
    requires Inv(s)
    ensures HeadProgresses(s) <==> s.head !in s.burned
    ensures !s.failOnFull ==> HeadProgresses(s)
  {
    if s.consumer.Released? {
    } else {
      assert TicketOk(s, s.head);
    }
  }

  /** A waiting put is blocked exactly when its ticket is a whole lap ahead of the consumer. */
  lemma BlockedIffLapAhead<T>(s: Queue<T>, t: nat)
    requires Inv(s) && t in s.producers && s.producers[t].Waiting?
    ensures At(s, t).seqNo != t <==> Base(s) + s.n <= t
  {
    assert ProducerOk(s, t);
    if Base(s) + s.n <= t { AheadOfLap(s, t); } else { assert TicketOk(s, t); }
  }

  /** With FailOnFull, a put gives its ticket up exactly when it probes a whole lap ahead. */
  lemma FailsIffLapAhead<T>(s: Queue<T>, t: nat)
    requires Inv(s) && s.failOnFull && Enabled(s, LoadSeq(t))
    ensures Next(s, LoadSeq(t)).burned == (if Base(s) + s.n <= t then s.burned + {t} else s.burned)
    ensures t in Next(s, LoadSeq(t)).producers <==> t < Base(s) + s.n
  {
    BlockedIffLapAhead(s, t);
    if Base(s) + s.n <= t { AheadOfLap(s, t); }
  }

  /** Once a ticket is given up, no run ever takes that ticket or any later one. */
  lemma {:induction false} BurnedTicketStopsTheQueue<T>(s: Queue<T>, acts: seq<Action<T>>, b: nat)
    requires Inv(s) && CanRun(s, acts) && b in s.burned
    ensures b in Run(s, acts).burned && |Run(s, acts).taken| <= b
    decreases |acts|
  {
    RunInv(s, acts);
    if acts != [] {
      StepInv(s, acts[0]);
      BurnedTicketStopsTheQueue(Next(s, acts[0]), acts[1..], b);
    }
  }

  /** How many steps the oldest ticket's put and get are from the end, when nobody else moves. */
  function Stage<T>(s: Queue<T>): nat
    requires Sized(s)
  {
    match s.consumer
    case Released(_) => 1
    case Destroyed(_) => 2
    case Moved(_) => 3
    case Claimed => 4
    case Idle =>
      if At(s, s.head).seqNo == s.head + 1 then 5
      else if s.head !in s.producers then 9
      else if s.producers[s.head].Publishing? then 6
      else if s.producers[s.head].Constructing? then 7
      else 8
  }

  /** While the oldest ticket was not given up, some step brings its get nearer and gives up no ticket. */
  lemma HelpfulStep<T>(s: Queue<T>) returns (a: Action<T>)
    requires Inv(s) && s.head < s.tail && s.head !in s.burned
    ensures Enabled(s, a) && Next(s, a).burned == s.burned && Next(s, a).tail == s.tail
    ensures Next(s, a).head == s.head + 1 || (Next(s, a).head == s.head && Stage(Next(s, a)) < Stage(s))
  {
    match s.consumer
    case Released(_) => a := Advance;
    case Destroyed(_) => a := Release;
    case Moved(_) => a := DestroyOld;
    case Claimed => a := MoveOut; assert TicketOk(s, s.head);
    case Idle =>
      assert TicketOk(s, s.head);
      if At(s, s.head).seqNo == s.head + 1 { a := GetLoadSeq; }
      else if s.producers[s.head].Publishing? { a := Publish(s.head); }
      else if s.producers[s.head].Constructing? { a := Construct(s.head); }
      else { a := LoadSeq(s.head); }
  }

  /** Helpful steps make a run at whose end the ticket's value has been taken. */
  lemma {:induction false} Drain<T>(s: Queue<T>, t: nat) returns (acts: seq<Action<T>>)
    requires Inv(s) && t < s.tail && forall b :: b in s.burned ==> t < b
    ensures CanRun(s, acts) && |Run(s, acts).taken| > t
    decreases t + 1 - s.head, Stage(s)
  {
    if s.head > t {
      acts := [];
    } else {
      var a := HelpfulStep(s);
      StepInv(s, a);
      var rest := Drain(Next(s, a), t);
      RunCons(s, a, rest);
      acts := [a] + rest;
    }
  }

  /** Some run of the threads gets the value of ticket t taken. */
  ghost predicate Deliverable<T(!new)>(s: Queue<T>, t: nat)
    requires Sized(s)
  {
    exists acts :: CanRun(s, acts) && |Run(s, acts).taken| > t
  }

  /**
   * A ticket's value can still be taken if and only if neither it nor an earlier ticket
   * was given up. So without FailOnFull every value can be, and with it a put that
   * returned true is lost exactly when an earlier ticket that the consumer has yet to reach was given up.
   */
  lemma DeliverableIffNoneBurnedBefore<T(!new)>(s: Queue<T>, t: nat)
    requires Inv(s) && t < s.tail
    ensures Deliverable(s, t) <==> forall b :: b in s.burned ==> t < b
    ensures !s.failOnFull ==> Deliverable(s, t)
  {
    if forall b :: b in s.burned ==> t < b {
      var acts := Drain(s, t);
    } else {
      var b :| b in s.burned && b <= t;
      forall acts | CanRun(s, acts) ensures |Run(s, acts).taken| <= t {
        BurnedTicketStopsTheQueue(s, acts, b);
      }
    }
  }

  // ----- Whole calls -----

  lemma {:induction false} RunConcat<T>(s: Queue<T>, a: seq<Action<T>>, b: seq<Action<T>>)
    requires Sized(s) && CanRun(s, a) && CanRun(Run(s, a), b)
    ensures CanRun(s, a + b) && Run(s, a + b) == Run(Run(s, a), b)
    decreases |a|
  {
    if a == [] {
      assert a + b == b;
    } else {
      assert (a + b)[1..] == a[1..] + b;
      RunConcat(Next(s, a[0]), a[1..], b);
    }
  }

  function PutActions<T>(t: nat, v: T): seq<Action<T>> {
    [FetchAdd(v), LoadSeq(t), Construct(t), Publish(t)]
  }

  function GetActions<T>(): seq<Action<T>> {
    [GetLoadSeq, MoveOut, DestroyOld, Release, Advance]
  }

  lemma RunCons<T>(s: Queue<T>, a: Action<T>, rest: seq<Action<T>>)
    requires Sized(s) && Enabled(s, a) && CanRun(Next(s, a), rest)
    ensures CanRun(s, [a] + rest) && Run(s, [a] + rest) == Run(Next(s, a), rest)
  {
    assert ([a] + rest)[1..] == rest;
  }

  /** With room in the buffer the first probe of a put finds its cell. */
  lemma PutClaims<T>(s: Queue<T>, t: nat, v: T)
    requires Inv(s) && t == s.tail < Base(s) + s.n
    ensures CanRun(s, [FetchAdd(v), LoadSeq(t)])
    ensures Run(s, [FetchAdd(v), LoadSeq(t)]) ==
            s.(tail := t + 1, producers := s.producers[t := Constructing(v)], issued := s.issued + [v])
  {
    assert TicketOk(s, t);
    var s1 := Next(s, FetchAdd(v));
    RunCons(s1, LoadSeq(t), []);
    RunCons(s, FetchAdd(v), [LoadSeq(t)]);
    assert [Action<T>.LoadSeq(t)] + [] == [LoadSeq(t)];
    assert [FetchAdd(v)] + [LoadSeq(t)] == [FetchAdd(v), LoadSeq(t)];
  }

  lemma PutFills<T>(s: Queue<T>, t: nat, v: T)
    requires Sized(s) && t in s.producers && s.producers[t] == Constructing(v)
    ensures CanRun(s, [Construct(t), Publish(t)])
    ensures Run(s, [Construct(t), Publish(t)]) ==
            SetCell(s, t, Cell(t + 1, Live(v))).(producers := s.producers - {t})
  {
    var s1 := Next(s, Construct(t));
    assert s1.producers - {t} == s.producers - {t};
    RunCons(s1, Publish(t), []);
    RunCons(s, Construct(t), [Publish(t)]);
    assert [Action<T>.Publish(t)] + [] == [Publish(t)];
    assert [Action<T>.Construct(t)] + [Publish(t)] == [Construct(t), Publish(t)];
  }

  /** A put with room in the buffer publishes its value without waiting. */
  lemma WholePut<T>(s: Queue<T>, v: T)
    requires Inv(s) && s.tail < Base(s) + s.n
    ensures CanRun(s, PutActions(s.tail, v))
    ensures Run(s, PutActions(s.tail, v)) ==
            SetCell(s, s.tail, Cell(s.tail + 1, Live(v))).(tail := s.tail + 1, issued := s.issued + [v])
  {
    var t := s.tail;
    PutClaims(s, t, v);
    var s2 := Run(s, [FetchAdd(v), LoadSeq(t)]);
    PutFills(s2, t, v);
    RunConcat(s, [FetchAdd(v), LoadSeq(t)], [Construct(t), Publish(t)]);
    assert [FetchAdd(v), LoadSeq(t)] + [Construct(t), Publish(t)] == PutActions(t, v);
    assert t !in s.producers;
    assert s2.producers - {t} == s.producers;
  }

  lemma GetMovesOut<T>(s: Queue<T>, v: T)
    requires Sized(s) && s.consumer.Idle? && At(s, s.head) == Cell(s.head + 1, Live(v))
    ensures CanRun(s, [GetLoadSeq, MoveOut])
    ensures Run(s, [GetLoadSeq, MoveOut]) == s.(consumer := Moved(v))
  {
    RunCons(Next(s, GetLoadSeq), MoveOut, []);
    RunCons(s, GetLoadSeq, [MoveOut]);
    assert [Action<T>.MoveOut] + [] == [MoveOut];
    assert [Action<T>.GetLoadSeq] + [MoveOut] == [GetLoadSeq, MoveOut];
  }

  lemma GetHandsBack<T>(s: Queue<T>, v: T)
    requires Sized(s) && s.consumer == Moved(v)
    ensures CanRun(s, [DestroyOld, Release, Advance])
    ensures Run(s, [DestroyOld, Release, Advance]) ==
            SetCell(s, s.head, Cell(s.head + s.n, Gone)).(head := s.head + 1, taken := s.taken + [v], consumer := Idle)
  {
    var s1 := Next(s, DestroyOld);
    var s2 := Next(s1, Release);
    RunCons(s2, Advance, []);
    RunCons(s1, Release, [Advance]);
    RunCons(s, DestroyOld, [Release, Advance]);
    assert [Action<T>.Advance] + [] == [Advance];
    assert [Action<T>.Release] + [Advance] == [Release, Advance];
    assert [Action<T>.DestroyOld] + [Release, Advance] == [DestroyOld, Release, Advance];
  }

  /** A get that finds its cell published returns its value and frees the cell. */
  lemma WholeGet<T>(s: Queue<T>)
    requires Inv(s) && s.consumer.Idle? && At(s, s.head).seqNo == s.head + 1
    ensures CanRun(s, GetActions())
    ensures s.head < |s.issued|
    ensures Run(s, GetActions()) ==
            SetCell(s, s.head, Cell(s.head + s.n, Gone)).(head := s.head + 1, taken := s.taken + [s.issued[s.head]])
  {
    assert TicketOk(s, s.head);
    var v := s.issued[s.head];
    GetMovesOut(s, v);
    GetHandsBack(s.(consumer := Moved(v)), v);
    RunConcat(s, [GetLoadSeq, MoveOut], [DestroyOld, Release, Advance]);
    assert [Action<T>.GetLoadSeq, MoveOut] + [DestroyOld, Release, Advance] == GetActions<T>();
  }

  /** A whole put extends a run. */
  lemma ThenPut<T>(s0: Queue<T>, acts: seq<Action<T>>, s: Queue<T>, v: T) returns (acts': seq<Action<T>>, s': Queue<T>)
    requires RunsTo(s0, acts, s) && s.tail < Base(s) + s.n
    ensures RunsTo(s0, acts', s')
    ensures s' == SetCell(s, s.tail, Cell(s.tail + 1, Live(v))).(tail := s.tail + 1, issued := s.issued + [v])
  {
    WholePut(s, v);
    acts', s' := Append(s0, acts, s, PutActions(s.tail, v));
  }

  lemma ThenGet<T>(s0: Queue<T>, acts: seq<Action<T>>, s: Queue<T>) returns (acts': seq<Action<T>>, s': Queue<T>)
    requires RunsTo(s0, acts, s) && s.consumer.Idle? && At(s, s.head).seqNo == s.head + 1
    ensures RunsTo(s0, acts', s')
    ensures s.head < |s.issued|
    ensures s' == SetCell(s, s.head, Cell(s.head + s.n, Gone)).(head := s.head + 1, taken := s.taken + [s.issued[s.head]])
  {
    WholeGet(s);
    acts', s' := Append(s0, acts, s, GetActions());
  }

  ghost predicate RunsTo<T>(s0: Queue<T>, acts: seq<Action<T>>, s: Queue<T>) {
    Sized(s0) && CanRun(s0, acts) && s == Run(s0, acts) && Inv(s)
  }

  function Start(): Queue<int> {
    Queue(2, true, 0, 0, [Cell(0, Default), Cell(1, Default)], map[], Idle, [], [], {})
  }

  /** A queue of two, filled, into which a third put has failed. */
  lemma FillThenFail() returns (acts: seq<Action<int>>, s: Queue<int>)
    ensures RunsTo(Start(), acts, s)
    ensures s == Queue(2, true, 0, 3, [Cell(1, Live(1)), Cell(2, Live(2))], map[], Idle, [1, 2, 3], [], {2})
  {
    assert Pow2(1) == 2;
    InitInv<int>(2, true);
    assert Init<int>(2, true) == Start();
    assert Slot(2, 0) == 0 && Slot(2, 1) == 1;
    acts, s := ThenPut(Start(), [], Start(), 1);
    acts, s := ThenPut(Start(), acts, s, 2);
    acts, s := ThenFail(Start(), acts, s, 3);
  }

  /**
   * So with FailOnFull a put that returned true can be lost for good: on a
   * queue of two, fill it, let a third put fail, take both values, and put again.
   */
  lemma FailedPutLosesLaterPut(w: int) returns (acts: seq<Action<int>>, s: Queue<int>)
    ensures Start() == Init(2, true) && RunsTo(Start(), acts, s)
    ensures s == Queue(2, true, 2, 4, [Cell(2, Gone), Cell(4, Live(w))], map[], Idle, [1, 2, 3, w], [1, 2], {2})
    ensures TakesNoMore(s)
  {
    acts, s := FillThenFail();
    assert Slot(2, 0) == 0 && Slot(2, 1) == 1 && Slot(2, 3) == 1;
    acts, s := ThenGet(Start(), acts, s);
    acts, s := ThenGet(Start(), acts, s);
    acts, s := ThenPut(Start(), acts, s, w);
    NothingTakenPast(s, 2);
  }

  /** Whatever the threads do next, get never returns another value. */
  ghost predicate TakesNoMore<T(!new)>(s: Queue<T>)
    requires Sized(s)
  {
    forall more :: CanRun(s, more) ==> Run(s, more).taken == s.taken
  }

  lemma NothingTakenPast<T(!new)>(s: Queue<T>, b: nat)
    requires Inv(s) && b in s.burned && |s.taken| == b
    ensures TakesNoMore(s)
  {
    forall more | CanRun(s, more) ensures Run(s, more).taken == s.taken {
      BurnedTicketStopsTheQueue(s, more, b);
      RunTakesInTicketOrder(s, more);
    }
  }

  lemma Append<T>(s0: Queue<T>, acts: seq<Action<T>>, s: Queue<T>, more: seq<Action<T>>)
    returns (acts': seq<Action<T>>, s': Queue<T>)
    requires Sized(s0) && CanRun(s0, acts) && s == Run(s0, acts) && Inv(s) && CanRun(s, more)
    ensures acts' == acts + more && CanRun(s0, acts') && s' == Run(s0, acts') == Run(s, more) && Inv(s')
  {
    RunConcat(s0, acts, more);
    RunInv(s, more);
    acts', s' := acts + more, Run(s, more);
  }

  /** A put into a full queue, its probe failing at once. */
  lemma ThenFail<T>(s0: Queue<T>, acts: seq<Action<T>>, s: Queue<T>, v: T) returns (acts': seq<Action<T>>, s': Queue<T>)
    requires RunsTo(s0, acts, s) && s.failOnFull && s.tail == Base(s) + s.n
    ensures RunsTo(s0, acts', s')
    ensures s' == s.(tail := s.tail + 1, issued := s.issued + [v], burned := s.burned + {s.tail})
  {
    var s1 := Next(s, FetchAdd(v));
    StepInv(s, FetchAdd(v));
    FailsIffLapAhead(s1, s.tail);
    var s2 := Next(s1, LoadSeq(s.tail));
    assert s.tail !in s.producers;
    assert s2.producers == s.producers;
    RunCons(s1, LoadSeq(s.tail), []);
    RunCons(s, FetchAdd(v), [LoadSeq(s.tail)]);
    assert [Action<T>.LoadSeq(s.tail)] + [] == [LoadSeq(s.tail)];
    acts', s' := Append(s0, acts, s, [FetchAdd(v)] + [LoadSeq(s.tail)]);
  }
}

/**
 * The recycling Treiber stack as a transition system. A node lives on the
 * _head list, on the _free list or with one thread; every load, link write and
 * compare-and-swap is one step, and a compare-and-swap may fail spuriously.
 */
module RecyclingStack {
  import opened Wrappers

  type Ptr = Option<nat>

  /** Where push stands; from Constructing on, node belongs to the pusher. */
  datatype Pusher<T> =
    | LoadingFree(value: T)
    | ReadingFreeNext(value: T, node: nat)
    | TakingFree(value: T, node: nat, next: Ptr)
    | Allocating(value: T)
    | Constructing(value: T, node: nat)
    | LoadingHead(value: T, node: nat)
    | LinkingHead(value: T, node: nat, next: Ptr)
    | SwappingHead(value: T, node: nat, next: Ptr)

  /**
   * Where pop stands; from Moving on, node belongs to the popper. top is the
   * top of the abstract stack at the moment pop took effect, result what was
   * moved out of the node (None if no object lived there).
   */
  datatype Popper<T> =
    | LoadingTop
    | ReadingTopNext(node: nat)
    | SwappingTop(node: nat, next: Ptr)
    | Moving(node: nat, top: Option<T>)
    | Destroying(node: nat, top: Option<T>, result: Option<T>)
    | LoadingFreeTop(node: nat, top: Option<T>, result: Option<T>)
    | LinkingFree(node: nat, top: Option<T>, result: Option<T>, next: Ptr)
    | SwappingFree(node: nat, top: Option<T>, result: Option<T>, next: Ptr)

  /**
   * Shared memory, the running calls, the bounds on how many may run at once,
   * and spec, the abstract stack (top first) that changes where a
   * compare-and-swap of _head succeeds.
   */
  datatype Stack<T> = Stack(
    head: Ptr,
    free: Ptr,
    next: map<nat, Ptr>,
    data: map<nat, Option<T>>,
    pushers: map<nat, Pusher<T>>,
    poppers: map<nat, Popper<T>>,
    maxPushers: nat,
    maxPoppers: nat,
    spec: seq<T>)

  /** swap says whether a compare-and-swap that could succeed does; addr is the address new returns. */
  datatype Action<T> =
    | StartPush(p: nat, value: T)
    | StartPop(q: nat)
    | PushStep(p: nat, swap: bool, addr: nat)
    | PopStep(q: nat, swap: bool)

  /** The constructor: capacity fresh nodes, linked on the _free list. */
  function Init<T>(capacity: nat, maxPushers: nat, maxPoppers: nat): Stack<T> {
    Stack(None, Below(capacity),
          map i: nat | 0 <= i < capacity :: Below(i), map i: nat {:trigger Below(i)} | 0 <= i < capacity :: None,
          map[], map[], maxPushers, maxPoppers, [])
  }

  function Below(i: nat): Ptr {
    if i == 0 then None else Some(i - 1)
  }

  function Read<V>(m: map<nat, Option<V>>, n: nat): Option<V> {
    if n in m then m[n] else None
  }

  ghost predicate Enabled<T>(s: Stack<T>, a: Action<T>) {
    match a
    case StartPush(p, _) => p !in s.pushers && |s.pushers| < s.maxPushers
    case StartPop(q) => q !in s.poppers && |s.poppers| < s.maxPoppers
    case PushStep(p, _, addr) => p in s.pushers && (s.pushers[p].Allocating? ==> addr !in s.next)
    case PopStep(q, _) => q in s.poppers
  }

  ghost function Next<T>(s: Stack<T>, a: Action<T>): Stack<T>
    requires Enabled(s, a)
  {
    match a
    case StartPush(p, v) => s.(pushers := s.pushers[p := LoadingFree(v)])
    case StartPop(q) => s.(poppers := s.poppers[q := LoadingTop])
    case PushStep(p, swap, addr) => NextPush(s, p, swap, addr)
    case PopStep(q, swap) => NextPop(s, q, swap)
  }

  ghost function NextPush<T>(s: Stack<T>, p: nat, swap: bool, addr: nat): Stack<T>
    requires p in s.pushers
  {
    match s.pushers[p]
    case LoadingFree(v) =>
      s.(pushers := s.pushers[p := if s.free.None? then Allocating(v) else ReadingFreeNext(v, s.free.value)])
    case ReadingFreeNext(v, node) =>
      s.(pushers := s.pushers[p := TakingFree(v, node, Read(s.next, node))])
    case TakingFree(v, node, next) =>
      if swap && s.free == Some(node) then
        s.(free := next, pushers := s.pushers[p := Constructing(v, node)])
      else
        s.(pushers := s.pushers[p := LoadingFree(v)])
    case Allocating(v) =>
      s.(next := s.next[addr := None], data := s.data[addr := None], pushers := s.pushers[p := Constructing(v, addr)])
    case Constructing(v, node) =>
      s.(data := s.data[node := Some(v)], pushers := s.pushers[p := LoadingHead(v, node)])
    case LoadingHead(v, node) =>
      s.(pushers := s.pushers[p := LinkingHead(v, node, s.head)])
    case LinkingHead(v, node, next) =>
      s.(next := s.next[node := next], pushers := s.pushers[p := SwappingHead(v, node, next)])
    case SwappingHead(v, node, next) =>
      if swap && s.head == next then
        s.(head := Some(node), pushers := s.pushers - {p}, spec := [v] + s.spec)
      else
        s.(pushers := s.pushers[p := LoadingHead(v, node)])
  }

  ghost function NextPop<T>(s: Stack<T>, q: nat, swap: bool): Stack<T>
    requires q in s.poppers
  {
    match s.poppers[q]
    case LoadingTop =>
      if s.head.None? then s.(poppers := s.poppers - {q})
      else s.(poppers := s.poppers[q := ReadingTopNext(s.head.value)])
    case ReadingTopNext(node) =>
      s.(poppers := s.poppers[q := SwappingTop(node, Read(s.next, node))])
    case SwappingTop(node, next) =>
      if swap && s.head == Some(node) then
        if s.spec == [] then
          s.(head := next, poppers := s.poppers[q := Moving(node, None)])
        else
          s.(head := next, poppers := s.poppers[q := Moving(node, Some(s.spec[0]))], spec := s.spec[1..])
      else
        s.(poppers := s.poppers[q := LoadingTop])
    case Moving(node, top) =>
      s.(poppers := s.poppers[q := Destroying(node, top, Read(s.data, node))])
    case Destroying(node, top, result) =>
      s.(data := s.data[node := None], poppers := s.poppers[q := LoadingFreeTop(node, top, result)])
    case LoadingFreeTop(node, top, result) =>
      s.(poppers := s.poppers[q := LinkingFree(node, top, result, s.free)])
    case LinkingFree(node, top, result, next) =>
      s.(next := s.next[node := next], poppers := s.poppers[q := SwappingFree(node, top, result, next)])
    case SwappingFree(node, top, result, next) =>
      if swap && s.free == next then
        s.(free := Some(node), poppers := s.poppers - {q})
      else
        s.(poppers := s.poppers[q := LoadingFreeTop(node, top, result)])
  }

  ghost predicate CanRun<T>(s: Stack<T>, acts: seq<Action<T>>)
    decreases |acts|
  {
    acts == [] || (Enabled(s, acts[0]) && CanRun(Next(s, acts[0]), acts[1..]))
  }

  ghost function Run<T>(s: Stack<T>, acts: seq<Action<T>>): Stack<T>
    requires CanRun(s, acts)
    decreases |acts|
  {
    if acts == [] then s else Run(Next(s, acts[0]), acts[1..])
  }

  // ----- What a good state looks like -----

  /** Following next from ptr visits exactly the nodes of c and ends. */
  ghost predicate Chain(next: map<nat, Ptr>, ptr: Ptr, c: seq<nat>)
    decreases |c|
  {
    if c == [] then ptr == None
    else ptr == Some(c[0]) && c[0] in next && Chain(next, next[c[0]], c[1..])
  }

  /** Where a node is. */
  datatype Place = InHead | InFree | WithPusher(p: nat) | WithPopper(q: nat)

  function PusherHolds<T>(u: Pusher<T>): Option<nat> {
    match u
    case Constructing(_, node) => Some(node)
    case LoadingHead(_, node) => Some(node)
    case LinkingHead(_, node, _) => Some(node)
    case SwappingHead(_, node, _) => Some(node)
    case _ => None
  }

  function PopperHolds<T>(u: Popper<T>): Option<nat> {
    match u
    case LoadingTop => None
    case ReadingTopNext(_) => None
    case SwappingTop(_, _) => None
    case _ => Some(u.node)
  }

  ghost predicate Distinct(c: seq<nat>) {
    forall i, j :: 0 <= i < j < |c| ==> c[i] != c[j]
  }

  /** Every node is in exactly one place: the _head list, the _free list, one pusher or one popper. */
  ghost predicate Partitioned<T>(s: Stack<T>, hc: seq<nat>, fc: seq<nat>, place: map<nat, Place>) {
    && place.Keys == s.next.Keys
    && Distinct(hc) && Distinct(fc)
    && (forall n :: n in hc ==> n in place && place[n] == InHead)
    && (forall n :: n in fc ==> n in place && place[n] == InFree)
    && (forall p :: p in s.pushers ==> PusherAt(s, p, place))
    && (forall q :: q in s.poppers ==> PopperAt(s, q, place))
    && (forall n :: n in place ==> Accounted(s, hc, fc, n, place[n]))
  }

  ghost predicate PusherAt<T>(s: Stack<T>, p: nat, place: map<nat, Place>)
    requires p in s.pushers
  {
    var h := PusherHolds(s.pushers[p]);
    h.Some? ==> h.value in place && place[h.value] == WithPusher(p)
  }

  ghost predicate PopperAt<T>(s: Stack<T>, q: nat, place: map<nat, Place>)
    requires q in s.poppers
  {
    var h := PopperHolds(s.poppers[q]);
    h.Some? ==> h.value in place && place[h.value] == WithPopper(q)
  }

  ghost predicate Accounted<T>(s: Stack<T>, hc: seq<nat>, fc: seq<nat>, n: nat, at: Place) {
    match at
    case InHead => n in hc
    case InFree => n in fc
    case WithPusher(p) => p in s.pushers && PusherHolds(s.pushers[p]) == Some(n)
    case WithPopper(q) => q in s.poppers && PopperHolds(s.poppers[q]) == Some(n)
  }

  /** The values along the _head list are the abstract stack. */
  ghost predicate Represents<T>(s: Stack<T>, hc: seq<nat>) {
    |hc| == |s.spec| && forall i :: 0 <= i < |hc| ==> Read(s.data, hc[i]) == Some(s.spec[i])
  }

  /** What a pop is going to return is what was on top when it took effect. */
  ghost predicate ResultOk<T>(u: Popper<T>) {
    match u
    case Moving(_, top) => top.Some?
    case Destroying(_, top, result) => top.Some? && result == top
    case LoadingFreeTop(_, top, result) => top.Some? && result == top
    case LinkingFree(_, top, result, _) => top.Some? && result == top
    case SwappingFree(_, top, result, _) => top.Some? && result == top
    case _ => true
  }

  ghost predicate ResultsOk<T>(s: Stack<T>) {
    forall q :: q in s.poppers ==> ResultOk(s.poppers[q])
  }

  ghost predicate Shape<T>(s: Stack<T>, hc: seq<nat>, fc: seq<nat>, place: map<nat, Place>) {
    && Chain(s.next, s.head, hc) && Chain(s.next, s.free, fc)
    && Partitioned(s, hc, fc, place)
    && Represents(s, hc)
    && ResultsOk(s)
  }

  ghost predicate Safe<T>(s: Stack<T>) {
    exists hc, fc, place :: Shape(s, hc, fc, place)
  }

  // ----- The inductive invariant -----

  /** No node is popped from, and pushed back to, the list another thread is popping from. */
  predicate Benign<T>(s: Stack<T>) {
    s.maxPushers == 0 || s.maxPoppers == 0 || (s.maxPushers == 1 && s.maxPoppers == 1)
  }

  ghost predicate PusherOk<T>(s: Stack<T>, u: Pusher<T>, fc: seq<nat>) {
    match u
    case ReadingFreeNext(_, node) => node in s.next && (s.maxPoppers > 0 ==> node in fc)
    case TakingFree(_, node, next) =>
      node in s.next && (s.maxPoppers > 0 ==> node in fc) && (node in fc ==> s.next[node] == next)
    case LoadingHead(v, node) => Read(s.data, node) == Some(v)
    case LinkingHead(v, node, _) => Read(s.data, node) == Some(v)
    case SwappingHead(v, node, next) => Read(s.data, node) == Some(v) && node in s.next && s.next[node] == next
    case _ => true
  }

  ghost predicate PopperOk<T>(s: Stack<T>, u: Popper<T>, hc: seq<nat>) {
    match u
    case ReadingTopNext(node) => node in hc
    case SwappingTop(node, next) => node in hc && node in s.next && s.next[node] == next
    case Moving(node, top) => top.Some? && Read(s.data, node) == top
    case SwappingFree(node, _, _, next) => node in s.next && s.next[node] == next
    case _ => true
  }

  ghost predicate PushersOk<T>(s: Stack<T>, fc: seq<nat>) {
    forall p :: p in s.pushers ==> PusherOk(s, s.pushers[p], fc)
  }

  ghost predicate PoppersOk<T>(s: Stack<T>, hc: seq<nat>) {
    forall q :: q in s.poppers ==> PopperOk(s, s.poppers[q], hc)
  }

  ghost predicate Inv<T>(s: Stack<T>, hc: seq<nat>, fc: seq<nat>, place: map<nat, Place>) {
    && Benign(s)
    && |s.pushers| <= s.maxPushers && |s.poppers| <= s.maxPoppers
    && Shape(s, hc, fc, place)
    && (s.maxPushers == 0 ==> hc == [])
    && PushersOk(s, fc) && PoppersOk(s, hc)
  }

  lemma {:induction false} ChainFrame(next: map<nat, Ptr>, next': map<nat, Ptr>, ptr: Ptr, c: seq<nat>)
    requires Chain(next, ptr, c)
    requires forall n :: n in c && n in next ==> n in next' && next'[n] == next[n]
    ensures Chain(next', ptr, c)
    decreases |c|
  {
    if c != [] {
      ChainFrame(next, next', next[c[0]], c[1..]);
    }
  }

  lemma OnlyOne<V>(m: map<nat, V>, a: nat, b: nat)
    requires |m| <= 1 && a in m && b in m
    ensures a == b
  {
    assert |m.Keys - {a}| == 0;
    assert b !in m.Keys - {a};
  }

  lemma OneFewer<V>(m: map<nat, V>, k: nat)
    requires k in m
    ensures |m - {k}| == |m| - 1
  {
    assert m.Keys == (m - {k}).Keys + {k};
  }

  /** The lists and the memory are the same. */
  ghost predicate SameLists<T>(s: Stack<T>, s': Stack<T>) {
    && s'.head == s.head && s'.free == s.free && s'.next == s.next && s'.data == s.data && s'.spec == s.spec
    && s'.maxPushers == s.maxPushers && s'.maxPoppers == s.maxPoppers
  }

  /** Threads may start, move or leave as long as each node stays accounted for and each thread relies on what is so. */
  lemma Reassemble<T>(s: Stack<T>, s': Stack<T>, hc: seq<nat>, fc: seq<nat>, place: map<nat, Place>)
    requires Inv(s, hc, fc, place) && SameLists(s, s')
    requires |s'.pushers| <= s.maxPushers && |s'.poppers| <= s.maxPoppers
    requires Partitioned(s', hc, fc, place) && PushersOk(s', fc) && PoppersOk(s', hc) && ResultsOk(s')
    ensures Inv(s', hc, fc, place)
  {
  }

  lemma PusherMovesParts<T>(s: Stack<T>, hc: seq<nat>, fc: seq<nat>, place: map<nat, Place>, p: nat, u: Pusher<T>)
    requires Partitioned(s, hc, fc, place) && p in s.pushers && PusherHolds(u) == PusherHolds(s.pushers[p])
    ensures Partitioned(s.(pushers := s.pushers[p := u]), hc, fc, place)
  {
    var s' := s.(pushers := s.pushers[p := u]);
    forall p' | p' in s'.pushers ensures PusherAt(s', p', place) {
      assert PusherAt(s, p', place);
    }
    forall q | q in s'.poppers ensures PopperAt(s', q, place) {
      assert PopperAt(s, q, place);
    }
    forall n | n in place ensures Accounted(s', hc, fc, n, place[n]) {
      assert Accounted(s, hc, fc, n, place[n]);
    }
  }

  /** A pusher moves on without touching the lists, the memory or what it holds. */
  lemma PusherMoves<T>(s: Stack<T>, hc: seq<nat>, fc: seq<nat>, place: map<nat, Place>, p: nat, u: Pusher<T>)
    requires Inv(s, hc, fc, place) && p in s.pushers
    requires PusherHolds(u) == PusherHolds(s.pushers[p]) && PusherOk(s, u, fc)
    ensures Inv(s.(pushers := s.pushers[p := u]), hc, fc, place)
  {
    var s' := s.(pushers := s.pushers[p := u]);
    assert s'.pushers.Keys == s.pushers.Keys;
    PusherMovesParts(s, hc, fc, place, p, u);
    PushersStayOk(s, s', fc, p, u);
    PoppersStayOk(s, s', hc, 0, LoadingTop);
    Reassemble(s, s', hc, fc, place);
  }

  /** Memory and the bounds on the threads are the same. */
  ghost predicate SameNodes<T>(s: Stack<T>, s': Stack<T>) {
    s'.next == s.next && s'.data == s.data && s'.maxPushers == s.maxPushers && s'.maxPoppers == s.maxPoppers
  }

  lemma TakeFreeParts<T>(s: Stack<T>, s': Stack<T>, hc: seq<nat>, fc: seq<nat>, place: map<nat, Place>, p: nat, u: Pusher<T>)
    requires Partitioned(s, hc, fc, place) && fc != [] && p in s.pushers && PusherHolds(s.pushers[p]) == None
    requires SameNodes(s, s') && s'.poppers == s.poppers && s'.pushers == s.pushers[p := u] && PusherHolds(u) == Some(fc[0])
    ensures Partitioned(s', hc, fc[1..], place[fc[0] := WithPusher(p)])
  {
    var fc', place' := fc[1..], place[fc[0] := WithPusher(p)];
    forall p' | p' in s'.pushers ensures PusherAt(s', p', place') {
      assert p' != p ==> PusherAt(s, p', place);
    }
    forall q | q in s'.poppers ensures PopperAt(s', q, place') {
      assert PopperAt(s, q, place);
    }
    forall n | n in place' ensures Accounted(s', hc, fc', n, place'[n]) {
      assert Accounted(s, hc, fc, n, place[n]);
    }
  }

  /** With poppers about there is no other pusher; without, no pusher relies on the _free list to keep its nodes. */
  lemma TakeFreeOks<T>(s: Stack<T>, s': Stack<T>, fc: seq<nat>, p: nat, u: Pusher<T>)
    requires PushersOk(s, fc) && fc != [] && p in s.pushers && u.Constructing?
    requires s.maxPoppers > 0 ==> |s.pushers| <= 1
    requires SameNodes(s, s') && s'.pushers == s.pushers[p := u]
    ensures PushersOk(s', fc[1..])
  {
    forall p' | p' in s'.pushers ensures PusherOk(s', s'.pushers[p'], fc[1..]) {
      if p' != p {
        assert PusherOk(s, s.pushers[p'], fc);
        if s.maxPoppers > 0 { OnlyOne(s.pushers, p, p'); }
      }
    }
  }

  /** A compare-and-swap takes the top node off the _free list. */
  lemma TakeFreeInv<T>(s: Stack<T>, hc: seq<nat>, fc: seq<nat>, place: map<nat, Place>, p: nat)
    returns (fc': seq<nat>, place': map<nat, Place>)
    requires Inv(s, hc, fc, place) && p in s.pushers && s.pushers[p].TakingFree? && s.free == Some(s.pushers[p].node)
    ensures Inv(NextPush(s, p, true, 0), hc, fc', place')
  {
    var was := s.pushers[p];
    assert PusherOk(s, was, fc);
    var u := Constructing(was.value, was.node);
    var s' := s.(free := was.next, pushers := s.pushers[p := u]);
    fc', place' := fc[1..], place[fc[0] := WithPusher(p)];
    assert s'.pushers.Keys == s.pushers.Keys;
    TakeFreeParts(s, s', hc, fc, place, p, u);
    TakeFreeOks(s, s', fc, p, u);
    PoppersUntouched(s, s', hc);
    assert NextPush(s, p, true, 0) == s';
  }

  lemma AllocateParts<T>(s: Stack<T>, s': Stack<T>, hc: seq<nat>, fc: seq<nat>, place: map<nat, Place>, p: nat, addr: nat, u: Pusher<T>)
    requires Partitioned(s, hc, fc, place) && p in s.pushers && PusherHolds(s.pushers[p]) == None && addr !in s.next
    requires s'.pushers == s.pushers[p := u] && PusherHolds(u) == Some(addr)
    requires s'.poppers == s.poppers && s'.next.Keys == s.next.Keys + {addr}
    ensures Partitioned(s', hc, fc, place[addr := WithPusher(p)])
  {
    var place' := place[addr := WithPusher(p)];
    forall p' | p' in s'.pushers ensures PusherAt(s', p', place') {
      assert p' != p ==> PusherAt(s, p', place);
    }
    forall q | q in s'.poppers ensures PopperAt(s', q, place') {
      assert PopperAt(s, q, place);
    }
    forall n | n in place' ensures Accounted(s', hc, fc, n, place'[n]) {
      assert n != addr ==> Accounted(s, hc, fc, n, place[n]);
    }
  }

  /** A new node changes nothing for the threads that do not hold it. */
  lemma AllocateOks<T>(s: Stack<T>, s': Stack<T>, hc: seq<nat>, fc: seq<nat>, place: map<nat, Place>, p: nat, addr: nat, u: Pusher<T>)
    requires Partitioned(s, hc, fc, place) && PushersOk(s, fc) && PoppersOk(s, hc) && addr !in s.next && u.Constructing?
    requires s'.next == s.next[addr := None] && s'.data == s.data[addr := None] && s'.maxPoppers == s.maxPoppers
    requires s'.pushers == s.pushers[p := u] && s'.poppers == s.poppers
    ensures PushersOk(s', fc) && PoppersOk(s', hc)
  {
    forall p' | p' in s'.pushers ensures PusherOk(s', s'.pushers[p'], fc) {
      assert p' != p ==> PusherAt(s, p', place) && PusherOk(s, s.pushers[p'], fc);
    }
    forall q | q in s'.poppers ensures PopperOk(s', s'.poppers[q], hc) {
      assert PopperAt(s, q, place) && PopperOk(s, s.poppers[q], hc);
    }
  }

  lemma AllocateLists<T>(s: Stack<T>, s': Stack<T>, hc: seq<nat>, fc: seq<nat>, addr: nat)
    requires Chain(s.next, s.head, hc) && Chain(s.next, s.free, fc) && Represents(s, hc) && ResultsOk(s)
    requires addr !in s.next && addr !in hc && addr !in fc
    requires s'.next == s.next[addr := None] && s'.data == s.data[addr := None]
    requires s'.head == s.head && s'.free == s.free && s'.spec == s.spec && s'.poppers == s.poppers
    ensures Chain(s'.next, s'.head, hc) && Chain(s'.next, s'.free, fc) && Represents(s', hc) && ResultsOk(s')
  {
    ChainFrame(s.next, s'.next, s.head, hc);
    ChainFrame(s.next, s'.next, s.free, fc);
  }

  /** new returns a node that no list and no thread knows. */
  lemma AllocateInv<T>(s: Stack<T>, hc: seq<nat>, fc: seq<nat>, place: map<nat, Place>, p: nat, addr: nat)
    returns (place': map<nat, Place>)
    requires Inv(s, hc, fc, place) && p in s.pushers && s.pushers[p].Allocating? && addr !in s.next
    ensures Inv(NextPush(s, p, true, addr), hc, fc, place')
  {
    var u := Constructing(s.pushers[p].value, addr);
    place' := place[addr := WithPusher(p)];
    var s' := NextPush(s, p, true, addr);
    assert s' == s.(next := s.next[addr := None], data := s.data[addr := None], pushers := s.pushers[p := u]);
    AllocatedInv(s, s', hc, fc, place, p, addr, u);
  }

  lemma AllocatedInv<T>(s: Stack<T>, s': Stack<T>, hc: seq<nat>, fc: seq<nat>, place: map<nat, Place>, p: nat, addr: nat, u: Pusher<T>)
    requires Inv(s, hc, fc, place) && p in s.pushers && PusherHolds(s.pushers[p]) == None && addr !in s.next
    requires u.Constructing? && u.node == addr
    requires s' == s.(next := s.next[addr := None], data := s.data[addr := None], pushers := s.pushers[p := u])
    ensures Inv(s', hc, fc, place[addr := WithPusher(p)])
  {
    assert s'.pushers.Keys == s.pushers.Keys;
    AllocateParts(s, s', hc, fc, place, p, addr, u);
    AllocateOks(s, s', hc, fc, place, p, addr, u);
    AllocateLists(s, s', hc, fc, addr);
  }

  /** Memory changes at node n alone. */
  ghost predicate WritesNode<T>(s: Stack<T>, s': Stack<T>, n: nat) {
    && s'.head == s.head && s'.free == s.free && s'.spec == s.spec
    && s'.maxPushers == s.maxPushers && s'.maxPoppers == s.maxPoppers
    && s'.next.Keys == s.next.Keys
    && (forall m :: m in s.next && m != n ==> s'.next[m] == s.next[m])
    && (forall m :: m != n ==> Read(s'.data, m) == Read(s.data, m))
  }

  lemma WriteLists<T>(s: Stack<T>, s': Stack<T>, hc: seq<nat>, fc: seq<nat>, n: nat)
    requires WritesNode(s, s', n) && n !in hc && n !in fc
    requires Chain(s.next, s.head, hc) && Chain(s.next, s.free, fc) && Represents(s, hc)
    ensures Chain(s'.next, s'.head, hc) && Chain(s'.next, s'.free, fc) && Represents(s', hc)
  {
    ChainFrame(s.next, s'.next, s.head, hc);
    ChainFrame(s.next, s'.next, s.free, fc);
  }

  /** Where the nodes are does not depend on what is in them. */
  lemma SameParts<T>(s: Stack<T>, s': Stack<T>, hc: seq<nat>, fc: seq<nat>, place: map<nat, Place>)
    requires Partitioned(s, hc, fc, place)
    requires s'.next.Keys == s.next.Keys && s'.pushers == s.pushers && s'.poppers == s.poppers
    ensures Partitioned(s', hc, fc, place)
  {
    forall p | p in s'.pushers ensures PusherAt(s', p, place) {
      assert PusherAt(s, p, place);
    }
    forall q | q in s'.poppers ensures PopperAt(s', q, place) {
      assert PopperAt(s, q, place);
    }
    forall n | n in place ensures Accounted(s', hc, fc, n, place[n]) {
      assert Accounted(s, hc, fc, n, place[n]);
    }
  }

  /** A write to a node that a thread does not hold, and that is on no list, leaves what the thread relies on. */
  lemma WriteKeepsPushers<T>(s: Stack<T>, s': Stack<T>, fc: seq<nat>, n: nat, moved: set<nat>)
    requires WritesNode(s, s', n) && n !in fc && PushersOk(s, fc)
    requires forall p' :: p' in s'.pushers && p' !in moved ==> p' in s.pushers && s'.pushers[p'] == s.pushers[p']
    requires forall p' :: p' in s'.pushers && p' !in moved ==> PusherHolds(s'.pushers[p']) != Some(n)
    requires forall p :: p in moved && p in s'.pushers ==> PusherOk(s', s'.pushers[p], fc)
    ensures PushersOk(s', fc)
  {
    forall p' | p' in s'.pushers && p' !in moved ensures PusherOk(s', s'.pushers[p'], fc) {
      assert PusherOk(s, s.pushers[p'], fc);
    }
  }

  lemma WriteKeepsPoppers<T>(s: Stack<T>, s': Stack<T>, hc: seq<nat>, n: nat, moved: set<nat>)
    requires WritesNode(s, s', n) && n !in hc && PoppersOk(s, hc) && ResultsOk(s)
    requires forall q' :: q' in s'.poppers && q' !in moved ==> q' in s.poppers && s'.poppers[q'] == s.poppers[q']
    requires forall q' :: q' in s'.poppers && q' !in moved ==> PopperHolds(s'.poppers[q']) != Some(n)
    requires forall q :: q in moved && q in s'.poppers ==> PopperOk(s', s'.poppers[q], hc) && ResultOk(s'.poppers[q])
    ensures PoppersOk(s', hc) && ResultsOk(s')
  {
    forall q' | q' in s'.poppers && q' !in moved ensures PopperOk(s', s'.poppers[q'], hc) && ResultOk(s'.poppers[q']) {
      assert PopperOk(s, s.poppers[q'], hc) && ResultOk(s.poppers[q']);
    }
  }

  /** Only the pusher itself knows the node it holds. */
  lemma HeldByPusher<T>(s: Stack<T>, hc: seq<nat>, fc: seq<nat>, place: map<nat, Place>, p: nat, n: nat)
    requires Partitioned(s, hc, fc, place) && p in s.pushers && PusherHolds(s.pushers[p]) == Some(n)
    ensures n in s.next && n !in hc && n !in fc && place[n] == WithPusher(p)
    ensures forall p' :: p' in s.pushers && p' != p ==> PusherHolds(s.pushers[p']) != Some(n)
    ensures forall q :: q in s.poppers ==> PopperHolds(s.poppers[q]) != Some(n)
  {
    assert PusherAt(s, p, place);
    forall p' | p' in s.pushers && p' != p ensures PusherHolds(s.pushers[p']) != Some(n) {
      assert PusherAt(s, p', place);
    }
    forall q | q in s.poppers ensures PopperHolds(s.poppers[q]) != Some(n) {
      assert PopperAt(s, q, place);
    }
  }

  /** Only the popper itself knows the node it holds. */
  lemma HeldByPopper<T>(s: Stack<T>, hc: seq<nat>, fc: seq<nat>, place: map<nat, Place>, q: nat, n: nat)
    requires Partitioned(s, hc, fc, place) && q in s.poppers && PopperHolds(s.poppers[q]) == Some(n)
    ensures n in s.next && n !in hc && n !in fc && place[n] == WithPopper(q)
    ensures forall q' :: q' in s.poppers && q' != q ==> PopperHolds(s.poppers[q']) != Some(n)
    ensures forall p :: p in s.pushers ==> PusherHolds(s.pushers[p]) != Some(n)
  {
    assert PopperAt(s, q, place);
    forall q' | q' in s.poppers && q' != q ensures PopperHolds(s.poppers[q']) != Some(n) {
      assert PopperAt(s, q', place);
    }
    forall p | p in s.pushers ensures PusherHolds(s.pushers[p]) != Some(n) {
      assert PusherAt(s, p, place);
    }
  }

  /** A pusher writes to the node it holds and moves on. */
  lemma PusherWrites<T>(s: Stack<T>, s': Stack<T>, hc: seq<nat>, fc: seq<nat>, place: map<nat, Place>, p: nat, u: Pusher<T>)
    requires Inv(s, hc, fc, place) && p in s.pushers && PusherHolds(s.pushers[p]).Some?
    requires PusherHolds(u) == PusherHolds(s.pushers[p]) && WritesNode(s, s', PusherHolds(u).value)
    requires s'.pushers == s.pushers[p := u] && s'.poppers == s.poppers && PusherOk(s', u, fc)
    ensures Inv(s', hc, fc, place)
  {
    var n := PusherHolds(u).value;
    HeldByPusher(s, hc, fc, place, p, n);
    PusherMovesParts(s, hc, fc, place, p, u);
    SameParts(s.(pushers := s.pushers[p := u]), s', hc, fc, place);
    WriteLists(s, s', hc, fc, n);
    WriteKeepsPushers(s, s', fc, n, {p});
    WriteKeepsPoppers(s, s', hc, n, {});
    assert s'.pushers.Keys == s.pushers.Keys;
  }

  /** A popper writes to the node it holds and moves on. */
  lemma PopperWrites<T>(s: Stack<T>, s': Stack<T>, hc: seq<nat>, fc: seq<nat>, place: map<nat, Place>, q: nat, u: Popper<T>)
    requires Inv(s, hc, fc, place) && q in s.poppers && PopperHolds(s.poppers[q]).Some?
    requires PopperHolds(u) == PopperHolds(s.poppers[q]) && WritesNode(s, s', PopperHolds(u).value)
    requires s'.poppers == s.poppers[q := u] && s'.pushers == s.pushers && PopperOk(s', u, hc) && ResultOk(u)
    ensures Inv(s', hc, fc, place)
  {
    var n := PopperHolds(u).value;
    HeldByPopper(s, hc, fc, place, q, n);
    PopperMovesParts(s, hc, fc, place, q, u);
    SameParts(s.(poppers := s.poppers[q := u]), s', hc, fc, place);
    WriteLists(s, s', hc, fc, n);
    WriteKeepsPushers(s, s', fc, n, {});
    WriteKeepsPoppers(s, s', hc, n, {q});
    assert s'.poppers.Keys == s.poppers.Keys;
  }

  /** A pusher constructs the value in the node it holds. */
  lemma ConstructInv<T>(s: Stack<T>, hc: seq<nat>, fc: seq<nat>, place: map<nat, Place>, p: nat)
    requires Inv(s, hc, fc, place) && p in s.pushers && s.pushers[p].Constructing?
    ensures Inv(NextPush(s, p, true, 0), hc, fc, place)
  {
    var v, node := s.pushers[p].value, s.pushers[p].node;
    var u := LoadingHead(v, node);
    var s' := s.(data := s.data[node := Some(v)], pushers := s.pushers[p := u]);
    PusherWrites(s, s', hc, fc, place, p, u);
    assert NextPush(s, p, true, 0) == s';
  }

  /** A pusher links the node it holds. */
  lemma LinkHeadInv<T>(s: Stack<T>, hc: seq<nat>, fc: seq<nat>, place: map<nat, Place>, p: nat)
    requires Inv(s, hc, fc, place) && p in s.pushers && s.pushers[p].LinkingHead?
    ensures Inv(NextPush(s, p, true, 0), hc, fc, place)
  {
    var was := s.pushers[p];
    assert PusherOk(s, was, fc);
    HeldByPusher(s, hc, fc, place, p, was.node);
    var u := SwappingHead(was.value, was.node, was.next);
    var s' := s.(next := s.next[was.node := was.next], pushers := s.pushers[p := u]);
    PusherWrites(s, s', hc, fc, place, p, u);
    assert NextPush(s, p, true, 0) == s';
  }

  lemma SwapHeadParts<T>(s: Stack<T>, s': Stack<T>, hc: seq<nat>, fc: seq<nat>, place: map<nat, Place>, p: nat, n: nat)
    requires Partitioned(s, hc, fc, place) && p in s.pushers && PusherHolds(s.pushers[p]) == Some(n)
    requires SameNodes(s, s') && s'.poppers == s.poppers && s'.pushers == s.pushers - {p}
    ensures Partitioned(s', [n] + hc, fc, place[n := InHead])
  {
    var hc', place' := [n] + hc, place[n := InHead];
    HeldByPusher(s, hc, fc, place, p, n);
    forall p' | p' in s'.pushers ensures PusherAt(s', p', place') {
      assert PusherAt(s, p', place);
    }
    forall q | q in s'.poppers ensures PopperAt(s', q, place') {
      assert PopperAt(s, q, place);
    }
    forall m | m in place' ensures Accounted(s', hc', fc, m, place'[m]) {
      assert Accounted(s, hc, fc, m, place[m]);
    }
  }

  lemma SwapHeadOks<T>(s: Stack<T>, s': Stack<T>, hc: seq<nat>, fc: seq<nat>, p: nat, n: nat)
    requires PushersOk(s, fc) && PoppersOk(s, hc) && ResultsOk(s)
    requires SameNodes(s, s') && s'.poppers == s.poppers && s'.pushers == s.pushers - {p}
    ensures PushersOk(s', fc) && PoppersOk(s', [n] + hc) && ResultsOk(s')
  {
    forall p' | p' in s'.pushers ensures PusherOk(s', s'.pushers[p'], fc) {
      assert PusherOk(s, s.pushers[p'], fc);
    }
    forall q | q in s'.poppers ensures PopperOk(s', s'.poppers[q], [n] + hc) {
      assert PopperOk(s, s.poppers[q], hc);
    }
  }

  lemma SwapHeadLists<T>(s: Stack<T>, s': Stack<T>, hc: seq<nat>, n: nat, v: T)
    requires Chain(s.next, s.head, hc) && Represents(s, hc)
    requires n in s.next && s.next[n] == s.head && Read(s.data, n) == Some(v)
    requires SameNodes(s, s') && s'.head == Some(n) && s'.spec == [v] + s.spec
    ensures Chain(s'.next, s'.head, [n] + hc) && Represents(s', [n] + hc)
  {
    assert ([n] + hc)[1..] == hc;
  }

  /** A compare-and-swap puts the pusher's node on the _head list: the push takes effect. */
  lemma SwapHeadInv<T>(s: Stack<T>, hc: seq<nat>, fc: seq<nat>, place: map<nat, Place>, p: nat)
    returns (hc': seq<nat>, place': map<nat, Place>)
    requires Inv(s, hc, fc, place) && p in s.pushers && s.pushers[p].SwappingHead? && s.head == s.pushers[p].next
    ensures Inv(NextPush(s, p, true, 0), hc', fc, place')
  {
    var u := s.pushers[p];
    assert PusherOk(s, u, fc);
    var s' := s.(head := Some(u.node), pushers := s.pushers - {p}, spec := [u.value] + s.spec);
    assert NextPush(s, p, true, 0) == s';
    hc', place' := [u.node] + hc, place[u.node := InHead];
    SwapHeadLists(s, s', hc, u.node, u.value);
    SwapHeadParts(s, s', hc, fc, place, p, u.node);
    SwapHeadOks(s, s', hc, fc, p, u.node);
    OneFewer(s.pushers, p);
  }

  /** The steps before a pusher has a node. */
  lemma PushTakesInv<T>(s: Stack<T>, hc: seq<nat>, fc: seq<nat>, place: map<nat, Place>, p: nat, swap: bool, addr: nat)
    returns (fc': seq<nat>, place': map<nat, Place>)
    requires Inv(s, hc, fc, place) && p in s.pushers && PusherHolds(s.pushers[p]) == None
    requires s.pushers[p].Allocating? ==> addr !in s.next
    ensures Inv(NextPush(s, p, swap, addr), hc, fc', place')
  {
    fc', place' := fc, place;
    assert PusherOk(s, s.pushers[p], fc);
    match s.pushers[p]
    case LoadingFree(v) =>
      PusherMoves(s, hc, fc, place, p, if s.free.None? then Allocating(v) else ReadingFreeNext(v, s.free.value));
    case ReadingFreeNext(v, node) =>
      PusherMoves(s, hc, fc, place, p, TakingFree(v, node, Read(s.next, node)));
    case TakingFree(v, node, _) =>
      if swap && s.free == Some(node) { fc', place' := TakeFreeInv(s, hc, fc, place, p); }
      else { PusherMoves(s, hc, fc, place, p, LoadingFree(v)); }
    case Allocating(_) => place' := AllocateInv(s, hc, fc, place, p, addr);
  }

  /** The steps of a pusher that has a node. */
  lemma PushLinksInv<T>(s: Stack<T>, hc: seq<nat>, fc: seq<nat>, place: map<nat, Place>, p: nat, swap: bool, addr: nat)
    returns (hc': seq<nat>, place': map<nat, Place>)
    requires Inv(s, hc, fc, place) && p in s.pushers && PusherHolds(s.pushers[p]).Some?
    ensures Inv(NextPush(s, p, swap, addr), hc', fc, place')
  {
    hc', place' := hc, place;
    assert PusherOk(s, s.pushers[p], fc);
    match s.pushers[p]
    case Constructing(_, _) => ConstructInv(s, hc, fc, place, p);
    case LoadingHead(v, node) => PusherMoves(s, hc, fc, place, p, LinkingHead(v, node, s.head));
    case LinkingHead(_, _, _) => LinkHeadInv(s, hc, fc, place, p);
    case SwappingHead(v, node, next) =>
      if swap && s.head == next { hc', place' := SwapHeadInv(s, hc, fc, place, p); }
      else { PusherMoves(s, hc, fc, place, p, LoadingHead(v, node)); }
  }

  lemma PopperMovesParts<T>(s: Stack<T>, hc: seq<nat>, fc: seq<nat>, place: map<nat, Place>, q: nat, u: Popper<T>)
    requires Partitioned(s, hc, fc, place) && q in s.poppers && PopperHolds(u) == PopperHolds(s.poppers[q])
    ensures Partitioned(s.(poppers := s.poppers[q := u]), hc, fc, place)
  {
    var s' := s.(poppers := s.poppers[q := u]);
    forall p | p in s'.pushers ensures PusherAt(s', p, place) {
      assert PusherAt(s, p, place);
    }
    forall q' | q' in s'.poppers ensures PopperAt(s', q', place) {
      assert PopperAt(s, q', place);
    }
    forall n | n in place ensures Accounted(s', hc, fc, n, place[n]) {
      assert Accounted(s, hc, fc, n, place[n]);
    }
  }

  /** A popper moves on without touching the lists, the memory or what it holds. */
  lemma PopperMoves<T>(s: Stack<T>, hc: seq<nat>, fc: seq<nat>, place: map<nat, Place>, q: nat, u: Popper<T>)
    requires Inv(s, hc, fc, place) && q in s.poppers
    requires PopperHolds(u) == PopperHolds(s.poppers[q]) && PopperOk(s, u, hc) && ResultOk(u)
    ensures Inv(s.(poppers := s.poppers[q := u]), hc, fc, place)
  {
    var s' := s.(poppers := s.poppers[q := u]);
    assert s'.poppers.Keys == s.poppers.Keys;
    PopperMovesParts(s, hc, fc, place, q, u);
    PushersUntouched(s, s', fc);
    PoppersStayOk(s, s', hc, q, u);
    Reassemble(s, s', hc, fc, place);
  }

  /** A popper that holds nothing returns. */
  lemma PopperLeaves<T>(s: Stack<T>, hc: seq<nat>, fc: seq<nat>, place: map<nat, Place>, q: nat)
    requires Inv(s, hc, fc, place) && q in s.poppers && PopperHolds(s.poppers[q]) == None
    ensures Inv(s.(poppers := s.poppers - {q}), hc, fc, place)
  {
    var s' := s.(poppers := s.poppers - {q});
    OneFewer(s.poppers, q);
    PopperLeavesParts(s, hc, fc, place, q);
    PushersUntouched(s, s', fc);
    forall q' | q' in s'.poppers ensures PopperOk(s', s'.poppers[q'], hc) && ResultOk(s'.poppers[q']) {
      assert PopperOk(s, s.poppers[q'], hc) && ResultOk(s.poppers[q']);
    }
    Reassemble(s, s', hc, fc, place);
  }

  lemma PopperLeavesParts<T>(s: Stack<T>, hc: seq<nat>, fc: seq<nat>, place: map<nat, Place>, q: nat)
    requires Partitioned(s, hc, fc, place) && q in s.poppers && PopperHolds(s.poppers[q]) == None
    ensures Partitioned(s.(poppers := s.poppers - {q}), hc, fc, place)
  {
    var s' := s.(poppers := s.poppers - {q});
    forall p | p in s'.pushers ensures PusherAt(s', p, place) {
      assert PusherAt(s, p, place);
    }
    forall q' | q' in s'.poppers ensures PopperAt(s', q', place) {
      assert PopperAt(s, q', place);
    }
    forall n | n in place ensures Accounted(s', hc, fc, n, place[n]) {
      assert Accounted(s, hc, fc, n, place[n]);
    }
  }

  lemma TakeTopParts<T>(s: Stack<T>, s': Stack<T>, hc: seq<nat>, fc: seq<nat>, place: map<nat, Place>, q: nat, u: Popper<T>)
    requires Partitioned(s, hc, fc, place) && hc != [] && q in s.poppers && PopperHolds(s.poppers[q]) == None
    requires SameNodes(s, s') && s'.pushers == s.pushers && s'.poppers == s.poppers[q := u] && PopperHolds(u) == Some(hc[0])
    ensures Partitioned(s', hc[1..], fc, place[hc[0] := WithPopper(q)])
  {
    var hc', place' := hc[1..], place[hc[0] := WithPopper(q)];
    forall p | p in s'.pushers ensures PusherAt(s', p, place') {
      assert PusherAt(s, p, place);
    }
    forall q' | q' in s'.poppers ensures PopperAt(s', q', place') {
      assert q' != q ==> PopperAt(s, q', place);
    }
    forall n | n in place' ensures Accounted(s', hc', fc, n, place'[n]) {
      assert Accounted(s, hc, fc, n, place[n]);
    }
  }

  /** A compare-and-swap takes the top node off the _head list: the pop takes effect. */
  lemma TakeTopInv<T>(s: Stack<T>, hc: seq<nat>, fc: seq<nat>, place: map<nat, Place>, q: nat)
    returns (hc': seq<nat>, place': map<nat, Place>)
    requires Inv(s, hc, fc, place) && q in s.poppers && s.poppers[q].SwappingTop? && s.head == Some(s.poppers[q].node)
    ensures Inv(NextPop(s, q, true), hc', fc, place')
  {
    var was := s.poppers[q];
    assert PopperOk(s, was, hc);
    assert hc[0] == was.node && Read(s.data, hc[0]) == Some(s.spec[0]);
    var u := Moving(was.node, Some(s.spec[0]));
    var s' := s.(head := was.next, poppers := s.poppers[q := u], spec := s.spec[1..]);
    hc', place' := hc[1..], place[hc[0] := WithPopper(q)];
    assert s'.poppers.Keys == s.poppers.Keys;
    TakeTopParts(s, s', hc, fc, place, q, u);
    PushersUntouched(s, s', fc);
    forall q' | q' in s'.poppers ensures q' == q {
      OnlyOne(s.poppers, q, q');
    }
    assert NextPop(s, q, true) == s';
  }

  /** A popper ends the life of the object in the node it holds. */
  lemma DestroyInv<T>(s: Stack<T>, hc: seq<nat>, fc: seq<nat>, place: map<nat, Place>, q: nat)
    requires Inv(s, hc, fc, place) && q in s.poppers && s.poppers[q].Destroying?
    ensures Inv(NextPop(s, q, true), hc, fc, place)
  {
    var was := s.poppers[q];
    assert ResultOk(was);
    var u := LoadingFreeTop(was.node, was.top, was.result);
    var s' := s.(data := s.data[was.node := None], poppers := s.poppers[q := u]);
    PopperWrites(s, s', hc, fc, place, q, u);
    assert NextPop(s, q, true) == s';
  }

  /** A popper links the node it holds in front of the _free list. */
  lemma LinkFreeInv<T>(s: Stack<T>, hc: seq<nat>, fc: seq<nat>, place: map<nat, Place>, q: nat)
    requires Inv(s, hc, fc, place) && q in s.poppers && s.poppers[q].LinkingFree?
    ensures Inv(NextPop(s, q, true), hc, fc, place)
  {
    var was := s.poppers[q];
    assert ResultOk(was);
    HeldByPopper(s, hc, fc, place, q, was.node);
    var u := SwappingFree(was.node, was.top, was.result, was.next);
    var s' := s.(next := s.next[was.node := was.next], poppers := s.poppers[q := u]);
    PopperWrites(s, s', hc, fc, place, q, u);
    assert NextPop(s, q, true) == s';
  }

  lemma SwapFreeParts<T>(s: Stack<T>, s': Stack<T>, hc: seq<nat>, fc: seq<nat>, place: map<nat, Place>, q: nat, n: nat)
    requires Partitioned(s, hc, fc, place) && q in s.poppers && PopperHolds(s.poppers[q]) == Some(n)
    requires SameNodes(s, s') && s'.pushers == s.pushers && s'.poppers == s.poppers - {q}
    ensures Partitioned(s', hc, [n] + fc, place[n := InFree])
  {
    var fc', place' := [n] + fc, place[n := InFree];
    HeldByPopper(s, hc, fc, place, q, n);
    forall p | p in s'.pushers ensures PusherAt(s', p, place') {
      assert PusherAt(s, p, place);
    }
    forall q' | q' in s'.poppers ensures PopperAt(s', q', place') {
      assert PopperAt(s, q', place);
    }
    forall m | m in place' ensures Accounted(s', hc, fc', m, place'[m]) {
      assert Accounted(s, hc, fc, m, place[m]);
    }
  }

  /** The threads that stay rely on nothing that the longer _free list changes. */
  lemma SwapFreeOks<T>(s: Stack<T>, s': Stack<T>, hc: seq<nat>, fc: seq<nat>, q: nat, n: nat)
    requires PushersOk(s, fc) && PoppersOk(s, hc) && ResultsOk(s) && s.maxPoppers > 0
    requires SameNodes(s, s') && s'.pushers == s.pushers && s'.poppers == s.poppers - {q}
    ensures PushersOk(s', [n] + fc) && PoppersOk(s', hc) && ResultsOk(s')
  {
    forall p | p in s'.pushers ensures PusherOk(s', s'.pushers[p], [n] + fc) {
      assert PusherOk(s, s.pushers[p], fc);
    }
    forall q' | q' in s'.poppers ensures PopperOk(s', s'.poppers[q'], hc) && ResultOk(s'.poppers[q']) {
      assert PopperOk(s, s.poppers[q'], hc) && ResultOk(s.poppers[q']);
    }
  }

  /** A compare-and-swap puts the popper's node on the _free list. */
  lemma SwapFreeInv<T>(s: Stack<T>, hc: seq<nat>, fc: seq<nat>, place: map<nat, Place>, q: nat)
    returns (fc': seq<nat>, place': map<nat, Place>)
    requires Inv(s, hc, fc, place) && q in s.poppers && s.poppers[q].SwappingFree? && s.free == s.poppers[q].next
    ensures Inv(NextPop(s, q, true), hc, fc', place')
  {
    var u := s.poppers[q];
    assert PopperOk(s, u, hc);
    var s' := s.(free := Some(u.node), poppers := s.poppers - {q});
    assert NextPop(s, q, true) == s';
    fc', place' := [u.node] + fc, place[u.node := InFree];
    assert fc'[1..] == fc;
    OneFewer(s.poppers, q);
    SwapFreeParts(s, s', hc, fc, place, q, u.node);
    SwapFreeOks(s, s', hc, fc, q, u.node);
  }

  /** The steps before a popper has a node. */
  lemma PopTakesInv<T>(s: Stack<T>, hc: seq<nat>, fc: seq<nat>, place: map<nat, Place>, q: nat, swap: bool)
    returns (hc': seq<nat>, place': map<nat, Place>)
    requires Inv(s, hc, fc, place) && q in s.poppers && PopperHolds(s.poppers[q]) == None
    ensures Inv(NextPop(s, q, swap), hc', fc, place')
  {
    hc', place' := hc, place;
    assert PopperOk(s, s.poppers[q], hc);
    match s.poppers[q]
    case LoadingTop =>
      if s.head.None? { PopperLeaves(s, hc, fc, place, q); }
      else { PopperMoves(s, hc, fc, place, q, ReadingTopNext(s.head.value)); }
    case ReadingTopNext(node) =>
      PopperMoves(s, hc, fc, place, q, SwappingTop(node, Read(s.next, node)));
    case SwappingTop(node, next) =>
      if swap && s.head == Some(node) { hc', place' := TakeTopInv(s, hc, fc, place, q); }
      else { PopperMoves(s, hc, fc, place, q, LoadingTop); }
  }

  /** The steps of a popper that has a node. */
  lemma PopFreesInv<T>(s: Stack<T>, hc: seq<nat>, fc: seq<nat>, place: map<nat, Place>, q: nat, swap: bool)
    returns (fc': seq<nat>, place': map<nat, Place>)
    requires Inv(s, hc, fc, place) && q in s.poppers && PopperHolds(s.poppers[q]).Some?
    ensures Inv(NextPop(s, q, swap), hc, fc', place')
  {
    fc', place' := fc, place;
    assert PopperOk(s, s.poppers[q], hc) && ResultOk(s.poppers[q]);
    match s.poppers[q]
    case Moving(node, top) =>
      PopperMoves(s, hc, fc, place, q, Destroying(node, top, Read(s.data, node)));
    case Destroying(_, _, _) => DestroyInv(s, hc, fc, place, q);
    case LoadingFreeTop(node, top, result) =>
      PopperMoves(s, hc, fc, place, q, LinkingFree(node, top, result, s.free));
    case LinkingFree(_, _, _, _) => LinkFreeInv(s, hc, fc, place, q);
    case SwappingFree(node, top, result, next) =>
      if swap && s.free == next { fc', place' := SwapFreeInv(s, hc, fc, place, q); }
      else { PopperMoves(s, hc, fc, place, q, LoadingFreeTop(node, top, result)); }
  }

  lemma StartPushParts<T>(s: Stack<T>, hc: seq<nat>, fc: seq<nat>, place: map<nat, Place>, p: nat, v: T)
    requires Partitioned(s, hc, fc, place) && p !in s.pushers
    ensures Partitioned(s.(pushers := s.pushers[p := LoadingFree(v)]), hc, fc, place)
  {
    var s' := s.(pushers := s.pushers[p := LoadingFree(v)]);
    forall p' | p' in s'.pushers ensures PusherAt(s', p', place) {
      if p' != p { assert PusherAt(s, p', place); }
    }
    forall q | q in s'.poppers ensures PopperAt(s', q, place) {
      assert PopperAt(s, q, place);
    }
    forall n | n in place ensures Accounted(s', hc, fc, n, place[n]) {
      assert Accounted(s, hc, fc, n, place[n]);
    }
  }

  lemma PushersStayOk<T>(s: Stack<T>, s': Stack<T>, fc: seq<nat>, p: nat, u: Pusher<T>)
    requires SameLists(s, s') && PushersOk(s, fc) && PusherOk(s, u, fc)
    requires s'.pushers == s.pushers || s'.pushers == s.pushers[p := u]
    ensures PushersOk(s', fc)
  {
    forall p' | p' in s'.pushers ensures PusherOk(s', s'.pushers[p'], fc) {
      assert p' in s.pushers ==> PusherOk(s, s.pushers[p'], fc);
    }
  }

  lemma PoppersStayOk<T>(s: Stack<T>, s': Stack<T>, hc: seq<nat>, q: nat, u: Popper<T>)
    requires SameLists(s, s') && PoppersOk(s, hc) && ResultsOk(s) && PopperOk(s, u, hc) && ResultOk(u)
    requires s'.poppers == s.poppers || s'.poppers == s.poppers[q := u]
    ensures PoppersOk(s', hc) && ResultsOk(s')
  {
    forall q' | q' in s'.poppers ensures PopperOk(s', s'.poppers[q'], hc) && ResultOk(s'.poppers[q']) {
      assert q' in s.poppers ==> PopperOk(s, s.poppers[q'], hc) && ResultOk(s.poppers[q']);
    }
  }

  lemma StartPushInv<T>(s: Stack<T>, hc: seq<nat>, fc: seq<nat>, place: map<nat, Place>, p: nat, v: T)
    requires Inv(s, hc, fc, place) && p !in s.pushers && |s.pushers| < s.maxPushers
    ensures Inv(s.(pushers := s.pushers[p := LoadingFree(v)]), hc, fc, place)
  {
    var s' := s.(pushers := s.pushers[p := LoadingFree(v)]);
    StartPushParts(s, hc, fc, place, p, v);
    PushersStayOk(s, s', fc, p, LoadingFree(v));
    PoppersStayOk(s, s', hc, 0, LoadingTop);
    Reassemble(s, s', hc, fc, place);
  }

  lemma StartPopParts<T>(s: Stack<T>, hc: seq<nat>, fc: seq<nat>, place: map<nat, Place>, q: nat)
    requires Partitioned(s, hc, fc, place) && q !in s.poppers
    ensures Partitioned(s.(poppers := s.poppers[q := LoadingTop]), hc, fc, place)
  {
    var s' := s.(poppers := s.poppers[q := LoadingTop]);
    forall p | p in s'.pushers ensures PusherAt(s', p, place) {
      assert PusherAt(s, p, place);
    }
    forall q' | q' in s'.poppers ensures PopperAt(s', q', place) {
      assert q' != q ==> PopperAt(s, q', place);
    }
    forall n | n in place ensures Accounted(s', hc, fc, n, place[n]) {
      assert Accounted(s, hc, fc, n, place[n]);
    }
  }

  lemma StartPopInv<T>(s: Stack<T>, hc: seq<nat>, fc: seq<nat>, place: map<nat, Place>, q: nat)
    requires Inv(s, hc, fc, place) && q !in s.poppers && |s.poppers| < s.maxPoppers
    ensures Inv(s.(poppers := s.poppers[q := LoadingTop]), hc, fc, place)
  {
    var s' := s.(poppers := s.poppers[q := LoadingTop]);
    StartPopParts(s, hc, fc, place, q);
    PushersUntouched(s, s', fc);
    PoppersStayOk(s, s', hc, q, LoadingTop);
    Reassemble(s, s', hc, fc, place);
  }

  lemma PushersUntouched<T>(s: Stack<T>, s': Stack<T>, fc: seq<nat>)
    requires SameNodes(s, s') && PushersOk(s, fc) && s'.pushers == s.pushers
    ensures PushersOk(s', fc)
  {
    forall p | p in s'.pushers ensures PusherOk(s', s'.pushers[p], fc) {
      assert PusherOk(s, s.pushers[p], fc);
    }
  }

  lemma PoppersUntouched<T>(s: Stack<T>, s': Stack<T>, hc: seq<nat>)
    requires SameNodes(s, s') && PoppersOk(s, hc) && ResultsOk(s) && s'.poppers == s.poppers
    ensures PoppersOk(s', hc) && ResultsOk(s')
  {
    forall q | q in s'.poppers ensures PopperOk(s', s'.poppers[q], hc) && ResultOk(s'.poppers[q]) {
      assert PopperOk(s, s.poppers[q], hc) && ResultOk(s.poppers[q]);
    }
  }

  lemma StepInv<T>(s: Stack<T>, hc: seq<nat>, fc: seq<nat>, place: map<nat, Place>, a: Action<T>)
    returns (hc': seq<nat>, fc': seq<nat>, place': map<nat, Place>)
    requires Inv(s, hc, fc, place) && Enabled(s, a)
    ensures Inv(Next(s, a), hc', fc', place')
  {
    hc', fc', place' := hc, fc, place;
    match a
    case StartPush(p, v) => StartPushInv(s, hc, fc, place, p, v);
    case StartPop(q) => StartPopInv(s, hc, fc, place, q);
    case PushStep(p, swap, addr) =>
      if PusherHolds(s.pushers[p]).Some? { hc', place' := PushLinksInv(s, hc, fc, place, p, swap, addr); }
      else { fc', place' := PushTakesInv(s, hc, fc, place, p, swap, addr); }
    case PopStep(q, swap) =>
      if PopperHolds(s.poppers[q]).Some? { fc', place' := PopFreesInv(s, hc, fc, place, q, swap); }
      else { hc', place' := PopTakesInv(s, hc, fc, place, q, swap); }
  }

  lemma {:induction false} RunInv<T>(s: Stack<T>, hc: seq<nat>, fc: seq<nat>, place: map<nat, Place>, acts: seq<Action<T>>)
    returns (hc': seq<nat>, fc': seq<nat>, place': map<nat, Place>)
    requires Inv(s, hc, fc, place) && CanRun(s, acts)
    ensures Inv(Run(s, acts), hc', fc', place')
    decreases |acts|
  {
    hc', fc', place' := hc, fc, place;
    if acts != [] {
      hc', fc', place' := StepInv(s, hc, fc, place, acts[0]);
      hc', fc', place' := RunInv(Next(s, acts[0]), hc', fc', place', acts[1..]);
    }
  }

  function CountDown(n: nat): seq<nat> {
    seq(n, (i: nat) requires i < n => n - 1 - i)
  }

  lemma InitChain(next: map<nat, Ptr>, n: nat)
    requires forall i: nat :: i < n ==> i in next && next[i] == Below(i)
    ensures Chain(next, Below(n), CountDown(n))
    ensures Distinct(CountDown(n)) && (forall i: nat :: i in CountDown(n) <==> i < n)
  {
    forall i: nat | i < n ensures i in CountDown(n) {
      assert CountDown(n)[n - 1 - i] == i;
    }
    if n > 0 {
      InitChain(next, n - 1);
      assert CountDown(n)[1..] == CountDown(n - 1);
    }
  }

  lemma InitInv<T>(capacity: nat, maxPushers: nat, maxPoppers: nat)
    returns (fc: seq<nat>, place: map<nat, Place>)
    requires maxPushers == 0 || maxPoppers == 0 || (maxPushers == 1 && maxPoppers == 1)
    ensures Inv(Init<T>(capacity, maxPushers, maxPoppers), [], fc, place)
  {
    var s := Init<T>(capacity, maxPushers, maxPoppers);
    InitChain(s.next, capacity);
    fc := CountDown(capacity);
    place := map i: nat {:trigger Below(i)} | 0 <= i < capacity :: InFree;
  }

  /**
   * With at most one push and one pop running at a time (or with only one of
   * the two ever used), every interleaving keeps every node in exactly one
   * place, both lists acyclic, and the values along _head equal to the
   * abstract stack.
   */
  lemma RunSafe<T>(capacity: nat, maxPushers: nat, maxPoppers: nat, acts: seq<Action<T>>)
    requires maxPushers == 0 || maxPoppers == 0 || (maxPushers == 1 && maxPoppers == 1)
    requires CanRun(Init<T>(capacity, maxPushers, maxPoppers), acts)
    ensures Safe(Run(Init<T>(capacity, maxPushers, maxPoppers), acts))
  {
    var fc, place := InitInv<T>(capacity, maxPushers, maxPoppers);
    var _, _, _ := RunInv(Init<T>(capacity, maxPushers, maxPoppers), [], fc, place, acts);
  }

  /** The step at which a push takes effect. */
  ghost predicate Pushes<T>(s: Stack<T>, a: Action<T>) {
    a.PushStep? && a.swap && a.p in s.pushers && s.pushers[a.p].SwappingHead? && s.head == s.pushers[a.p].next
  }

  /** The step at which a pop takes effect. */
  ghost predicate Pops<T>(s: Stack<T>, a: Action<T>) {
    a.PopStep? && a.swap && a.q in s.poppers && s.poppers[a.q].SwappingTop? && s.head == Some(s.poppers[a.q].node)
  }

  /** The step at which a pop finds nothing. */
  ghost predicate FindsEmpty<T>(s: Stack<T>, a: Action<T>) {
    a.PopStep? && a.q in s.poppers && s.poppers[a.q].LoadingTop? && s.head.None?
  }

  /** The step with which a pop returns its result. */
  ghost predicate Returns<T>(s: Stack<T>, a: Action<T>) {
    a.PopStep? && a.swap && a.q in s.poppers && s.poppers[a.q].SwappingFree? && s.free == s.poppers[a.q].next
  }

  /**
   * Pushes and pops are linearized at their compare-and-swap of _head: the
   * abstract stack changes there and nowhere else, a pop carries away the
   * current top and returns exactly that, and it returns nothing only when the
   * abstract stack is empty.
   */
  lemma StepRefinesStack<T>(s: Stack<T>, hc: seq<nat>, fc: seq<nat>, place: map<nat, Place>, a: Action<T>)
    requires Inv(s, hc, fc, place) && Enabled(s, a)
    ensures var s' := Next(s, a);
            if Pushes(s, a) then s'.spec == [s.pushers[a.p].value] + s.spec
            else if Pops(s, a) then
              && s.spec != [] && s'.spec == s.spec[1..]
              && s'.poppers[a.q] == Moving(s.poppers[a.q].node, Some(s.spec[0]))
            else s'.spec == s.spec
    ensures FindsEmpty(s, a) ==> s.spec == []
    ensures Returns(s, a) ==> s.poppers[a.q].result.Some? && s.poppers[a.q].result == s.poppers[a.q].top
  {
    if a.PopStep? {
      assert PopperOk(s, s.poppers[a.q], hc) && ResultOk(s.poppers[a.q]);
    }
  }
}

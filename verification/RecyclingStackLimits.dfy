/**
 * The recycling stack has no version tags: with two pushers and a popper, or a
 * pusher and two poppers, a recycled node lets a stale compare-and-swap
 * succeed. Concrete runs show the damage, which makes the bound in
 * RecyclingStack.RunSafe exact.
 */
module RecyclingStackLimits {
  import opened Wrappers
  import opened RecyclingStack

  ghost predicate RunsTo<T>(s0: Stack<T>, acts: seq<Action<T>>, s: Stack<T>) {
    CanRun(s0, acts) && s == Run(s0, acts)
  }

  lemma {:induction false} Then<T>(s0: Stack<T>, acts: seq<Action<T>>, s: Stack<T>, a: Action<T>)
    requires RunsTo(s0, acts, s) && Enabled(s, a)
    ensures RunsTo(s0, acts + [a], Next(s, a))
    decreases |acts|
  {
    if acts == [] {
      assert (acts + [a])[1..] == [];
    } else {
      Then(Next(s0, acts[0]), acts[1..], s, a);
      assert (acts + [a])[1..] == acts[1..] + [a];
    }
  }

  lemma Pusher<T>(s0: Stack<T>, acts: seq<Action<T>>, s: Stack<T>, p: nat, addr: nat)
    returns (acts': seq<Action<T>>, s': Stack<T>)
    requires RunsTo(s0, acts, s) && p in s.pushers && (s.pushers[p].Allocating? ==> addr !in s.next)
    ensures RunsTo(s0, acts', s') && s' == NextPush(s, p, true, addr)
  {
    Then(s0, acts, s, PushStep(p, true, addr));
    acts', s' := acts + [PushStep(p, true, addr)], Next(s, PushStep(p, true, addr));
  }

  lemma Popper<T>(s0: Stack<T>, acts: seq<Action<T>>, s: Stack<T>, q: nat)
    returns (acts': seq<Action<T>>, s': Stack<T>)
    requires RunsTo(s0, acts, s) && q in s.poppers
    ensures RunsTo(s0, acts', s') && s' == NextPop(s, q, true)
  {
    Then(s0, acts, s, PopStep(q, true));
    acts', s' := acts + [PopStep(q, true)], Next(s, PopStep(q, true));
  }

  /** A push starts and reads the top of the _free list, up to its compare-and-swap. */
  lemma PushUpToTake<T>(s0: Stack<T>, acts: seq<Action<T>>, s: Stack<T>, p: nat, v: T)
    returns (acts': seq<Action<T>>, s': Stack<T>)
    requires RunsTo(s0, acts, s) && p !in s.pushers && |s.pushers| < s.maxPushers && s.free.Some?
    ensures RunsTo(s0, acts', s')
    ensures s' == s.(pushers := s.pushers[p := TakingFree(v, s.free.value, Read(s.next, s.free.value))])
  {
    Then(s0, acts, s, StartPush(p, v));
    acts', s' := acts + [StartPush(p, v)], Next(s, StartPush(p, v));
    acts', s' := Pusher(s0, acts', s', p, 0);
    acts', s' := Pusher(s0, acts', s', p, 0);
    assert s'.pushers == s.pushers[p := TakingFree(v, s.free.value, Read(s.next, s.free.value))];
  }

  /** A push on an empty _free list allocates its node. */
  lemma PushUpToNode<T>(s0: Stack<T>, acts: seq<Action<T>>, s: Stack<T>, p: nat, v: T, addr: nat)
    returns (acts': seq<Action<T>>, s': Stack<T>)
    requires RunsTo(s0, acts, s) && p !in s.pushers && |s.pushers| < s.maxPushers && s.free.None? && addr !in s.next
    ensures RunsTo(s0, acts', s')
    ensures s' == s.(next := s.next[addr := None], data := s.data[addr := None],
                     pushers := s.pushers[p := Constructing(v, addr)])
  {
    Then(s0, acts, s, StartPush(p, v));
    acts', s' := acts + [StartPush(p, v)], Next(s, StartPush(p, v));
    acts', s' := Pusher(s0, acts', s', p, 0);
    acts', s' := Pusher(s0, acts', s', p, addr);
    assert s'.pushers == s.pushers[p := Constructing(v, addr)];
  }

  lemma PushLinks<T>(s0: Stack<T>, acts: seq<Action<T>>, s: Stack<T>, p: nat)
    returns (acts': seq<Action<T>>, s': Stack<T>)
    requires RunsTo(s0, acts, s) && p in s.pushers && s.pushers[p].LoadingHead?
    ensures RunsTo(s0, acts', s')
    ensures var u := s.pushers[p];
            s' == s.(head := Some(u.node), next := s.next[u.node := s.head],
                     pushers := s.pushers - {p}, spec := [u.value] + s.spec)
  {
    var u := s.pushers[p];
    acts', s' := Pusher(s0, acts, s, p, 0);
    acts', s' := Pusher(s0, acts', s', p, 0);
    assert s'.pushers == s.pushers[p := SwappingHead(u.value, u.node, s.head)];
    acts', s' := Pusher(s0, acts', s', p, 0);
    assert s'.pushers == s.pushers - {p};
  }

  /** From its own node on, a push runs to its end undisturbed. */
  lemma PushFinishes<T>(s0: Stack<T>, acts: seq<Action<T>>, s: Stack<T>, p: nat)
    returns (acts': seq<Action<T>>, s': Stack<T>)
    requires RunsTo(s0, acts, s) && p in s.pushers && s.pushers[p].Constructing?
    ensures RunsTo(s0, acts', s')
    ensures var u := s.pushers[p];
            s' == s.(head := Some(u.node), next := s.next[u.node := s.head], data := s.data[u.node := Some(u.value)],
                     pushers := s.pushers - {p}, spec := [u.value] + s.spec)
  {
    var u := s.pushers[p];
    acts', s' := Pusher(s0, acts, s, p, 0);
    assert s'.pushers[p] == LoadingHead(u.value, u.node) && s'.head == s.head;
    acts', s' := PushLinks(s0, acts', s', p);
    assert s'.pushers == s.pushers - {p};
  }

  /** A pop starts and reads the top of the _head list, up to its compare-and-swap. */
  lemma PopUpToTake<T>(s0: Stack<T>, acts: seq<Action<T>>, s: Stack<T>, q: nat)
    returns (acts': seq<Action<T>>, s': Stack<T>)
    requires RunsTo(s0, acts, s) && q !in s.poppers && |s.poppers| < s.maxPoppers && s.head.Some?
    ensures RunsTo(s0, acts', s')
    ensures s' == s.(poppers := s.poppers[q := SwappingTop(s.head.value, Read(s.next, s.head.value))])
  {
    Then(s0, acts, s, StartPop(q));
    acts', s' := acts + [StartPop(q)], Next(s, StartPop(q));
    acts', s' := Popper(s0, acts', s', q);
    acts', s' := Popper(s0, acts', s', q);
    assert s'.poppers == s.poppers[q := SwappingTop(s.head.value, Read(s.next, s.head.value))];
  }

  /** A pop's compare-and-swap of _head succeeds. */
  lemma PopTakes<T>(s0: Stack<T>, acts: seq<Action<T>>, s: Stack<T>, q: nat)
    returns (acts': seq<Action<T>>, s': Stack<T>)
    requires RunsTo(s0, acts, s) && q in s.poppers && s.poppers[q].SwappingTop?
    requires s.head == Some(s.poppers[q].node) && s.spec != []
    ensures RunsTo(s0, acts', s')
    ensures s' == s.(head := s.poppers[q].next, spec := s.spec[1..],
                     poppers := s.poppers[q := Moving(s.poppers[q].node, Some(s.spec[0]))])
  {
    acts', s' := Popper(s0, acts, s, q);
  }

  lemma PopDestroys<T>(s0: Stack<T>, acts: seq<Action<T>>, s: Stack<T>, q: nat)
    returns (acts': seq<Action<T>>, s': Stack<T>)
    requires RunsTo(s0, acts, s) && q in s.poppers && s.poppers[q].Moving?
    ensures RunsTo(s0, acts', s')
    ensures var n := s.poppers[q].node;
            s' == s.(data := s.data[n := None], poppers := s.poppers[q := LoadingFreeTop(n, s.poppers[q].top, Read(s.data, n))])
  {
    acts', s' := Popper(s0, acts, s, q);
    acts', s' := Popper(s0, acts', s', q);
    assert s'.poppers == s.poppers[q := s'.poppers[q]];
  }

  lemma PopFrees<T>(s0: Stack<T>, acts: seq<Action<T>>, s: Stack<T>, q: nat)
    returns (acts': seq<Action<T>>, s': Stack<T>)
    requires RunsTo(s0, acts, s) && q in s.poppers && s.poppers[q].LoadingFreeTop?
    ensures RunsTo(s0, acts', s')
    ensures var n := s.poppers[q].node;
            s' == s.(free := Some(n), next := s.next[n := s.free], poppers := s.poppers - {q})
  {
    acts', s' := Popper(s0, acts, s, q);
    acts', s' := Popper(s0, acts', s', q);
    acts', s' := Popper(s0, acts', s', q);
    assert s'.poppers == s.poppers - {q};
  }

  /** After taking its node, a pop runs to its end undisturbed. */
  lemma PopFinishes<T>(s0: Stack<T>, acts: seq<Action<T>>, s: Stack<T>, q: nat)
    returns (acts': seq<Action<T>>, s': Stack<T>)
    requires RunsTo(s0, acts, s) && q in s.poppers && s.poppers[q].Moving?
    ensures RunsTo(s0, acts', s')
    ensures var n := s.poppers[q].node;
            s' == s.(free := Some(n), next := s.next[n := s.free], data := s.data[n := None], poppers := s.poppers - {q})
  {
    acts', s' := PopDestroys(s0, acts, s, q);
    ghost var poppers := s'.poppers;
    acts', s' := PopFrees(s0, acts', s', q);
    assert poppers - {q} == s.poppers - {q};
  }

  lemma InitTwo<T>(maxPushers: nat, maxPoppers: nat)
    ensures Init<T>(2, maxPushers, maxPoppers) ==
            Stack(None, Some(1), map[0 := None, 1 := Some(0)], map[0 := None, 1 := None],
                  map[], map[], maxPushers, maxPoppers, [])
  {
  }

  /** Pusher 0 stalls before its compare-and-swap; pusher 1 has taken the same node. */
  lemma TwoPushersStall<T>(maxPushers: nat, maxPoppers: nat, v: T)
    returns (acts: seq<Action<T>>, s: Stack<T>)
    requires 2 <= maxPushers && 1 <= maxPoppers
    ensures RunsTo(Init<T>(2, maxPushers, maxPoppers), acts, s)
    ensures s == Stack(None, Some(0), map[0 := None, 1 := Some(0)], map[0 := None, 1 := None],
                       map[0 := TakingFree(v, 1, Some(0)), 1 := Constructing(v, 1)], map[], maxPushers, maxPoppers, [])
  {
    var s0 := Init<T>(2, maxPushers, maxPoppers);
    InitTwo<T>(maxPushers, maxPoppers);
    acts, s := PushUpToTake(s0, [], s0, 0, v);
    assert s.pushers == map[0 := TakingFree(v, 1, Some(0))];
    acts, s := PushUpToTake(s0, acts, s, 1, v);
    assert s.pushers == map[0 := TakingFree(v, 1, Some(0)), 1 := TakingFree(v, 1, Some(0))];
    acts, s := Pusher(s0, acts, s, 1, 0);
    assert s.pushers == map[0 := TakingFree(v, 1, Some(0)), 1 := Constructing(v, 1)];
  }

  /** Pusher 1 finishes its push and takes the next node for another. */
  lemma TwoPushersSetUp<T>(maxPushers: nat, maxPoppers: nat, v: T)
    returns (acts: seq<Action<T>>, s: Stack<T>)
    requires 2 <= maxPushers && 1 <= maxPoppers
    ensures RunsTo(Init<T>(2, maxPushers, maxPoppers), acts, s)
    ensures s == Stack(Some(1), None, map[0 := None, 1 := None], map[0 := None, 1 := Some(v)],
                       map[0 := TakingFree(v, 1, Some(0)), 1 := Constructing(v, 0)], map[], maxPushers, maxPoppers, [v])
  {
    var s0 := Init<T>(2, maxPushers, maxPoppers);
    acts, s := TwoPushersStall(maxPushers, maxPoppers, v);
    acts, s := PushFinishes(s0, acts, s, 1);
    assert s.pushers == map[0 := TakingFree(v, 1, Some(0))];
    assert s.next == map[0 := None, 1 := None];
    acts, s := PushUpToTake(s0, acts, s, 1, v);
    acts, s := Pusher(s0, acts, s, 1, 0);
    assert s.pushers == map[0 := TakingFree(v, 1, Some(0)), 1 := Constructing(v, 0)];
  }

  /** With two pushers and a popper, a node can be on the _free list and with a pusher at once. */
  lemma TwoPushersBreak<T>(maxPushers: nat, maxPoppers: nat, v: T)
    returns (acts: seq<Action<T>>, s: Stack<T>)
    requires 2 <= maxPushers && 1 <= maxPoppers
    ensures RunsTo(Init<T>(2, maxPushers, maxPoppers), acts, s)
    ensures s.free == Some(0) && 1 in s.pushers && PusherHolds(s.pushers[1]) == Some(0)
    ensures !Safe(s)
  {
    var s0 := Init<T>(2, maxPushers, maxPoppers);
    acts, s := TwoPushersSetUp(maxPushers, maxPoppers, v);
    acts, s := PopUpToTake(s0, acts, s, 0);
    acts, s := PopTakes(s0, acts, s, 0);
    acts, s := PopFinishes(s0, acts, s, 0);
    acts, s := Pusher(s0, acts, s, 0, 0);
    forall hc, fc, place ensures !Shape(s, hc, fc, place) {
      assert Chain(s.next, s.free, fc) ==> fc != [] && 0 in fc;
      assert Partitioned(s, hc, fc, place) ==> PusherAt(s, 1, place);
    }
  }

  /** Two values are pushed, one after the other. */
  lemma TwoPushed<T>(maxPushers: nat, maxPoppers: nat, v: T)
    returns (acts: seq<Action<T>>, s: Stack<T>)
    requires 1 <= maxPushers
    ensures RunsTo(Init<T>(0, maxPushers, maxPoppers), acts, s)
    ensures s == Stack(Some(1), None, map[0 := None, 1 := Some(0)], map[0 := Some(v), 1 := Some(v)],
                       map[], map[], maxPushers, maxPoppers, [v, v])
  {
    var s0 := Init<T>(0, maxPushers, maxPoppers);
    assert s0.next == map[] && s0.data == map[];
    acts, s := PushUpToNode(s0, [], s0, 0, v, 0);
    acts, s := PushFinishes(s0, acts, s, 0);
    assert s.pushers == map[] && s.next == map[0 := None] && s.data == map[0 := Some(v)];
    acts, s := PushUpToNode(s0, acts, s, 0, v, 1);
    acts, s := PushFinishes(s0, acts, s, 0);
    assert s.pushers == map[];
    assert s.next == map[0 := None, 1 := Some(0)] && s.data == map[0 := Some(v), 1 := Some(v)];
  }

  /** Popper 0 stalls before its compare-and-swap; popper 1 has popped and recycled the same node. */
  lemma TwoPoppersStall<T>(maxPushers: nat, maxPoppers: nat, v: T)
    returns (acts: seq<Action<T>>, s: Stack<T>)
    requires 1 <= maxPushers && 2 <= maxPoppers
    ensures RunsTo(Init<T>(0, maxPushers, maxPoppers), acts, s)
    ensures s == Stack(Some(0), Some(1), map[0 := None, 1 := None], map[0 := Some(v), 1 := None],
                       map[], map[0 := SwappingTop(1, Some(0))], maxPushers, maxPoppers, [v])
  {
    var s0 := Init<T>(0, maxPushers, maxPoppers);
    acts, s := TwoPushed(maxPushers, maxPoppers, v);
    acts, s := PopUpToTake(s0, acts, s, 0);
    assert s.poppers == map[0 := SwappingTop(1, Some(0))];
    acts, s := PopUpToTake(s0, acts, s, 1);
    acts, s := PopTakes(s0, acts, s, 1);
    acts, s := PopFinishes(s0, acts, s, 1);
    assert s.poppers == map[0 := SwappingTop(1, Some(0))];
    assert s.next == map[0 := None, 1 := None] && s.data == map[0 := Some(v), 1 := None];
  }

  /** Popper 1 takes the next node for another pop. */
  lemma TwoPoppersSetUp<T>(maxPushers: nat, maxPoppers: nat, v: T)
    returns (acts: seq<Action<T>>, s: Stack<T>)
    requires 1 <= maxPushers && 2 <= maxPoppers
    ensures RunsTo(Init<T>(0, maxPushers, maxPoppers), acts, s)
    ensures s == Stack(None, Some(1), map[0 := None, 1 := None], map[0 := Some(v), 1 := None],
                       map[], map[0 := SwappingTop(1, Some(0)), 1 := Moving(0, Some(v))], maxPushers, maxPoppers, [])
  {
    var s0 := Init<T>(0, maxPushers, maxPoppers);
    acts, s := TwoPoppersStall(maxPushers, maxPoppers, v);
    acts, s := PopUpToTake(s0, acts, s, 1);
    acts, s := PopTakes(s0, acts, s, 1);
    assert s.poppers == map[0 := SwappingTop(1, Some(0)), 1 := Moving(0, Some(v))];
  }

  /** With a pusher and two poppers, a node can be on the _head list and with a popper at once. */
  lemma TwoPoppersBreak<T>(maxPushers: nat, maxPoppers: nat, v: T)
    returns (acts: seq<Action<T>>, s: Stack<T>)
    requires 1 <= maxPushers && 2 <= maxPoppers
    ensures RunsTo(Init<T>(0, maxPushers, maxPoppers), acts, s)
    ensures s.head == Some(0) && 1 in s.poppers && PopperHolds(s.poppers[1]) == Some(0)
    ensures !Safe(s)
  {
    var s0 := Init<T>(0, maxPushers, maxPoppers);
    acts, s := TwoPoppersSetUp(maxPushers, maxPoppers, v);
    acts, s := PushUpToTake(s0, acts, s, 0, v);
    acts, s := Pusher(s0, acts, s, 0, 0);
    acts, s := PushFinishes(s0, acts, s, 0);
    acts, s := PopTakes(s0, acts, s, 0);
    forall hc, fc, place ensures !Shape(s, hc, fc, place) {
      assert Chain(s.next, s.head, hc) ==> hc != [] && 0 in hc;
      assert Partitioned(s, hc, fc, place) ==> PopperAt(s, 1, place);
    }
  }

  /** Every run under these bounds ends in a good state. */
  ghost predicate AlwaysSafe<T(!new)>(maxPushers: nat, maxPoppers: nat) {
    forall capacity: nat, acts: seq<Action<T>> ::
      CanRun(Init<T>(capacity, maxPushers, maxPoppers), acts) ==> Safe(Run(Init<T>(capacity, maxPushers, maxPoppers), acts))
  }

  /**
   * The stack is safe for up to maxPushers pushes and maxPoppers pops at a time
   * exactly when both are at most one, or one of the two is never used.
   */
  lemma SafeExactlyWhen<T(!new)>(maxPushers: nat, maxPoppers: nat, v: T)
    ensures AlwaysSafe<T>(maxPushers, maxPoppers) <==>
            maxPushers == 0 || maxPoppers == 0 || (maxPushers == 1 && maxPoppers == 1)
  {
    if maxPushers == 0 || maxPoppers == 0 || (maxPushers == 1 && maxPoppers == 1) {
      forall capacity: nat, acts: seq<Action<T>> | CanRun(Init<T>(capacity, maxPushers, maxPoppers), acts)
        ensures Safe(Run(Init<T>(capacity, maxPushers, maxPoppers), acts))
      {
        RunSafe<T>(capacity, maxPushers, maxPoppers, acts);
      }
    } else if 2 <= maxPushers {
      var acts, s := TwoPushersBreak<T>(maxPushers, maxPoppers, v);
      assert !Safe(Run(Init<T>(2, maxPushers, maxPoppers), acts));
    } else {
      var acts, s := TwoPoppersBreak<T>(maxPushers, maxPoppers, v);
      assert !Safe(Run(Init<T>(0, maxPushers, maxPoppers), acts));
    }
  }
}

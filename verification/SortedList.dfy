/** The list of pending timers, kept in time order by inserting at the lower bound. */
module SortedList {
  /** A record due at a time. */
  datatype Timer = Timer(time: int, data: nat)

  ghost predicate Sorted(s: seq<Timer>) {
    forall i, j :: 0 <= i < j < |s| ==> s[i].time <= s[j].time
  }

  /** i is the first position whose entry is not before time. */
  ghost predicate IsLowerBound(s: seq<Timer>, time: int, i: nat) {
    && i <= |s|
    && (forall k :: 0 <= k < i ==> s[k].time < time)
    && (forall k :: i <= k < |s| ==> time <= s[k].time)
  }

  function LowerBound(s: seq<Timer>, time: int): (i: nat)
    ensures i <= |s|
  {
    if s == [] || time <= s[0].time then 0 else 1 + LowerBound(s[1..], time)
  }

  lemma {:induction false} LowerBoundIs(s: seq<Timer>, time: int)
    requires Sorted(s)
    ensures IsLowerBound(s, time, LowerBound(s, time))
  {
    if s != [] && s[0].time < time {
      LowerBoundIs(s[1..], time);
      var i := LowerBound(s[1..], time);
      assert forall k :: 1 <= k < |s| ==> s[k] == s[1..][k - 1];
    }
  }

  lemma LowerBoundUnique(s: seq<Timer>, time: int, i: nat)
    requires Sorted(s) && IsLowerBound(s, time, i)
    ensures i == LowerBound(s, time)
  {
    LowerBoundIs(s, time);
    var j := LowerBound(s, time);
    assert i < |s| ==> time <= s[i].time;
    assert j < |s| ==> time <= s[j].time;
  }

  function Insert(s: seq<Timer>, t: Timer): seq<Timer> {
    var i := LowerBound(s, t.time);
    s[..i] + [t] + s[i..]
  }

  lemma InsertSorted(s: seq<Timer>, t: Timer)
    requires Sorted(s)
    ensures Sorted(Insert(s, t)) && multiset(Insert(s, t)) == multiset(s) + multiset{t}
  {
    LowerBoundIs(s, t.time);
    var i := LowerBound(s, t.time);
    assert s == s[..i] + s[i..];
  }

  /** A new entry stands behind all earlier ones and in front of those of its own time; the others stay as they were. */
  lemma InsertPlace(s: seq<Timer>, t: Timer) returns (i: nat)
    requires Sorted(s)
    ensures i <= |s| && |Insert(s, t)| == |s| + 1 && Insert(s, t)[i] == t
    ensures Insert(s, t)[..i] == s[..i] && Insert(s, t)[i + 1..] == s[i..]
    ensures (forall k :: 0 <= k < i ==> s[k].time < t.time) && (forall k :: i <= k < |s| ==> t.time <= s[k].time)
  {
    LowerBoundIs(s, t.time);
    i := LowerBound(s, t.time);
  }

  class SortedLinkedList {
    var items: seq<Timer>

    ghost predicate Valid()
      reads this
    {
      Sorted(items)
    }

    constructor ()
      ensures Valid() && items == []
    {
      items := [];
    }

    /** The binary search of std::lower_bound. */
    method FindLowerBound(time: int) returns (first: nat)
      requires Valid()
      ensures first == LowerBound(items, time) && IsLowerBound(items, time, first)
    {
      first := 0;
      var count := |items|;
      while count > 0
        invariant 0 <= count && first + count <= |items|
        invariant forall k :: 0 <= k < first ==> items[k].time < time
        invariant forall k :: first + count <= k < |items| ==> time <= items[k].time
      {
        var step := count / 2;
        if items[first + step].time < time {
          first, count := first + step + 1, count - (step + 1);
        } else {
          count := step;
        }
      }
      LowerBoundUnique(items, time, first);
    }

    method InsertTimer(t: Timer)
      requires Valid()
      modifies this
      ensures Valid() && items == Insert(old(items), t)
      ensures multiset(items) == old(multiset(items)) + multiset{t}
    {
      InsertSorted(items, t);
      var i := FindLowerBound(t.time);
      items := items[..i] + [t] + items[i..];
    }
  }
}

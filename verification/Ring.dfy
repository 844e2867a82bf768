/** Ring: a deque kept in an array that wraps around and doubles. */
module RingBuffer {
  // ----- The deque in the array -----

  /** The array index of the i-th element of a ring that starts at head. */
  function Place(capacity: nat, head: nat, i: nat): (p: nat)
    requires head < capacity && i <= capacity
    ensures p < capacity
  {
    if head + i < capacity then head + i else head + i - capacity
  }

  /** The n elements from head on, around the end of the array. */
  function Window<T>(data: seq<T>, head: nat, n: nat): (r: seq<T>)
    requires head < |data| && n <= |data|
    ensures |r| == n
    ensures forall i :: 0 <= i < n ==> r[i] == data[Place(|data|, head, i)]
  {
    seq(n, i requires 0 <= i < n => data[Place(|data|, head, i)])
  }

  function Before(capacity: nat, head: nat): nat
    requires head < capacity
  {
    if head == 0 then capacity - 1 else head - 1
  }

  function After(capacity: nat, head: nat): nat
    requires head < capacity
  {
    if head + 1 >= capacity then 0 else head + 1
  }

  lemma PushedBack<T>(data: seq<T>, head: nat, n: nat, x: T)
    requires head < |data| && n < |data|
    ensures Window(data[Place(|data|, head, n) := x], head, n + 1) == Window(data, head, n) + [x]
    ensures After(|data|, Place(|data|, head, n)) == Place(|data|, head, n + 1)
  {
  }

  lemma PushedFront<T>(data: seq<T>, head: nat, n: nat, x: T)
    requires head < |data| && n < |data|
    ensures Window(data[Before(|data|, head) := x], Before(|data|, head), n + 1) == [x] + Window(data, head, n)
    ensures Place(|data|, Before(|data|, head), n + 1) == Place(|data|, head, n)
  {
    var c, h := |data|, Before(|data|, head);
    var w := Window(data[h := x], h, n + 1);
    forall i | 0 <= i < n ensures w[i + 1] == Window(data, head, n)[i] {
      assert Place(c, h, i + 1) == Place(c, head, i) != h;
    }
    assert w[0] == x;
    assert w[1..] == Window(data, head, n);
  }

  lemma PoppedBack<T>(data: seq<T>, head: nat, n: nat)
    requires head < |data| && 0 < n <= |data|
    ensures Window(data, head, n - 1) == Window(data, head, n)[..n - 1]
    ensures Before(|data|, Place(|data|, head, n)) == Place(|data|, head, n - 1)
    ensures Window(data, head, n)[n - 1] == data[Before(|data|, Place(|data|, head, n))]
  {
  }

  lemma PoppedFront<T>(data: seq<T>, head: nat, n: nat)
    requires head < |data| && 0 < n <= |data|
    ensures Window(data, After(|data|, head), n - 1) == Window(data, head, n)[1..]
    ensures Place(|data|, After(|data|, head), n - 1) == Place(|data|, head, n)
  {
    var w := Window(data, After(|data|, head), n - 1);
    forall i | 0 <= i < n - 1 ensures w[i] == Window(data, head, n)[i + 1] {
    }
  }

  // ----- Moving the elements to a new array -----

  /** What the copy of resize and make_cont reads; the first branch copies n elements from head on. */
  predicate CopyInBounds(capacity: nat, head: nat, tail: nat, n: nat) {
    tail >= head ==> head + n <= capacity
  }

  /** The copied elements, when the test that chooses the branch says whether the elements stand in order. */
  function Copied<T>(data: seq<T>, head: nat, tail: nat, n: nat, inOrder: bool): seq<T>
    requires head < |data| && tail < |data| && (inOrder ==> head + n <= |data|)
  {
    if inOrder then data[head..head + n] else data[head..] + data[..tail]
  }

  /**
   * On every ring state the test tail >= head copies within the array exactly when the
   * ring is not full with its head away from the start.
   */
  lemma CopyInBoundsIff(capacity: nat, head: nat, n: nat)
    requires head < capacity && n <= capacity
    ensures CopyInBounds(capacity, head, Place(capacity, head, n), n) <==> !(n == capacity && head != 0)
  {
  }

  /** Where it stays within the array the copy is the ring's elements in order. */
  lemma CopyKeepsOrder<T>(data: seq<T>, head: nat, n: nat)
    requires head < |data| && n <= |data| && !(n == |data| && head != 0)
    ensures var tail := Place(|data|, head, n);
            Copied(data, head, tail, n, tail >= head) == Window(data, head, n)
  {
  }

  /** With the test tail > head, and an empty ring copying nothing, the copy is right on every ring state. */
  lemma StrictTestKeepsOrder<T>(data: seq<T>, head: nat, n: nat)
    requires head < |data| && n <= |data|
    ensures var tail := Place(|data|, head, n);
            var inOrder := tail > head || n == 0;
            (inOrder ==> head + n <= |data|) && Copied(data, head, tail, n, inOrder) == Window(data, head, n)
  {
    var tail := Place(|data|, head, n);
    if !(tail > head || n == 0) {
      forall i | 0 <= i < n ensures (data[head..] + data[..tail])[i] == Window(data, head, n)[i] {
      }
    }
  }

  class Ring<T(0)> {
    var data: array<T>
    var head: nat
    var tail: nat
    var sz: nat
    var needsResize: bool

    /** A full ring always needs a resize; an empty one may, when clear emptied a full one. */
    ghost predicate Valid()
      reads this, data
    {
      && head < data.Length && sz <= data.Length && tail == Place(data.Length, head, sz)
      && (sz == data.Length ==> needsResize)
      && (needsResize ==> sz == data.Length || sz == 0)
    }

    ghost function Contents(): seq<T>
      reads this, data
      requires Valid()
    {
      Window(data[..], head, sz)
    }

    /** Full, with the head away from the start: no push and no make_cont may meet this. */
    predicate Wrapped()
      reads this, data
    {
      sz == data.Length && head != 0
    }

    constructor (defaultSize: nat)
      requires defaultSize >= 1
      ensures Valid() && fresh(data) && Contents() == [] && head == 0 && data.Length == defaultSize && !needsResize
    {
      data := new T[defaultSize];
      head, tail, sz, needsResize := 0, 0, 0, false;
    }

    method IncTail()
      requires tail < data.Length
      modifies this`tail, this`needsResize
      ensures tail == After(data.Length, old(tail))
      ensures needsResize == (old(needsResize) || tail == head)
    {
      tail := tail + 1;
      if tail >= data.Length { tail := 0; }
      if tail == head { needsResize := true; }
    }

    method DecTail()
      requires tail < data.Length
      modifies this`tail, this`needsResize
      ensures tail == Before(data.Length, old(tail)) && !needsResize
    {
      if tail == 0 { tail := data.Length - 1; } else { tail := tail - 1; }
      if needsResize { needsResize := false; }
    }

    method IncHead()
      requires head < data.Length
      modifies this`head, this`needsResize
      ensures head == After(data.Length, old(head)) && !needsResize
    {
      head := head + 1;
      if head >= data.Length { head := 0; }
      if needsResize { needsResize := false; }
    }

    method DecHead()
      requires head < data.Length
      modifies this`head, this`needsResize
      ensures head == Before(data.Length, old(head))
      ensures needsResize == (old(needsResize) || tail == head)
    {
      if head == 0 { head := data.Length - 1; } else { head := head - 1; }
      if tail == head { needsResize := true; }
    }

    /** The elements in order at the front of a new array. */
    method Gather(capacity: nat) returns (newData: array<T>)
      requires Valid() && !Wrapped() && capacity >= data.Length
      ensures fresh(newData) && newData.Length == capacity && newData[..sz] == Contents()
    {
      newData := new T[capacity];
      CopyKeepsOrder(data[..], head, sz);
      CopyInBoundsIff(data.Length, head, sz);
      if tail >= head {
        Copy(newData, 0, head, sz);
        assert newData[..sz] == data[head..head + sz];
      } else {
        var part := data.Length - head;
        Copy(newData, 0, head, part);
        assert newData[..part] == data[head..];
        Copy(newData, part, 0, tail);
        assert newData[..sz] == newData[..part] + newData[part..sz];
      }
    }

    /** memcpy of n elements of data from start on, within both arrays. */
    method Copy(dest: array<T>, at: nat, start: nat, n: nat)
      requires dest != data && start + n <= data.Length && at + n <= dest.Length
      modifies dest
      ensures dest[..at] == old(dest[..at]) && dest[at..at + n] == data[start..start + n] && dest[at + n..] == old(dest[at + n..])
    {
      for i := 0 to n
        invariant dest[..at] == old(dest[..at]) && dest[at + n..] == old(dest[at + n..])
        invariant dest[at..at + i] == data[start..start + i]
      {
        dest[at + i] := data[start + i];
      }
    }

    /** The array doubles and the order stays. */
    method Resize()
      requires Valid() && !Wrapped()
      modifies this
      ensures Valid() && Contents() == old(Contents()) && fresh(data)
      ensures data.Length == 2 * old(data.Length) && head == 0 && !needsResize && sz == old(sz)
    {
      var newData := Gather(2 * data.Length);
      ghost var contents := Contents();
      data := newData;
      head, tail, needsResize := 0, sz, false;
      assert Window(data[..], 0, sz) == data[..sz];
    }

    method PushBack(x: T)
      requires Valid() && !Wrapped()
      modifies this, data
      ensures Valid() && Contents() == old(Contents()) + [x]
      ensures head == if old(needsResize) then 0 else old(head)
      ensures data.Length == if old(needsResize) then 2 * old(data.Length) else old(data.Length)
      ensures data == old(data) || fresh(data)
    {
      if needsResize { Resize(); }
      PushedBack(data[..], head, sz, x);
      ghost var slots := data[..];
      data[tail] := x;
      assert data[..] == slots[tail := x];
      IncTail();
      sz := sz + 1;
    }

    method PushFront(x: T)
      requires Valid() && !Wrapped()
      modifies this, data
      ensures Valid() && Contents() == [x] + old(Contents())
      ensures data.Length == if old(needsResize) then 2 * old(data.Length) else old(data.Length)
      ensures data == old(data) || fresh(data)
    {
      if needsResize { Resize(); }
      PushedFront(data[..], head, sz, x);
      ghost var slots := data[..];
      DecHead();
      data[head] := x;
      assert data[..] == slots[head := x];
      sz := sz + 1;
    }

    /** False is the out_of_range of an empty ring. */
    method PopBack() returns (ok: bool)
      requires Valid()
      modifies this
      ensures Valid() && data == old(data) && ok == (old(Contents()) != [])
      ensures Contents() == if ok then old(Contents())[..|old(Contents())| - 1] else old(Contents())
    {
      if sz == 0 { return false; }
      PoppedBack(data[..], head, sz);
      DecTail();
      sz := sz - 1;
      return true;
    }

    method PopFront() returns (ok: bool)
      requires Valid()
      modifies this
      ensures Valid() && data == old(data) && ok == (old(Contents()) != [])
      ensures Contents() == if ok then old(Contents())[1..] else old(Contents())
      ensures ok ==> head == After(data.Length, old(head)) && !needsResize
    {
      if sz == 0 { return false; }
      PoppedFront(data[..], head, sz);
      IncHead();
      sz := sz - 1;
      return true;
    }

    /** needsResize stays as it was, so a ring cleared when full still doubles at the next push. */
    method Clear()
      requires Valid()
      modifies this
      ensures Valid() && Contents() == [] && data == old(data) && head == 0 && needsResize == old(needsResize)
    {
      head, tail, sz := 0, 0, 0;
    }

    /** The elements stand in order from index 0 on, and are the same. */
    method MakeCont()
      requires Valid() && !Wrapped()
      modifies this
      ensures Valid() && Contents() == old(Contents()) && head == 0 && Contents() == data[..sz]
      ensures data.Length == old(data.Length)
    {
      if tail >= head && head == 0 {
        assert Window(data[..], 0, sz) == data[..sz];
        return;
      }
      var newData := Gather(data.Length);
      data := newData;
      head, tail := 0, sz;
      assert Window(data[..], 0, sz) == data[..sz];
    }

    method Front() returns (x: T)
      requires Valid() && Contents() != []
      ensures x == Contents()[0]
    {
      x := data[head];
    }

    method Back() returns (x: T)
      requires Valid() && Contents() != []
      ensures x == Contents()[|Contents()| - 1]
    {
      PoppedBack(data[..], head, sz);
      x := data[if tail == 0 then data.Length - 1 else tail - 1];
    }
  }

  // ----- Runs -----

  datatype Call<T> = PushBack(x: T) | PushFront(x: T) | PopBack | PopFront | Clear

  /** A call on an unbounded deque. */
  function Deque<T>(s: seq<T>, c: Call<T>): seq<T> {
    match c
    case PushBack(x) => s + [x]
    case PushFront(x) => [x] + s
    case PopBack => if s == [] then s else s[..|s| - 1]
    case PopFront => if s == [] then s else s[1..]
    case Clear => []
  }

  function DequeRun<T>(s: seq<T>, calls: seq<Call<T>>): seq<T>
    decreases |calls|
  {
    if calls == [] then s else DequeRun(Deque(s, calls[0]), calls[1..])
  }

  lemma {:induction false} DequeRunAdd<T>(s: seq<T>, calls: seq<Call<T>>, c: Call<T>)
    ensures DequeRun(s, calls + [c]) == Deque(DequeRun(s, calls), c)
    decreases |calls|
  {
    if calls == [] {
      assert (calls + [c])[1..] == [];
    } else {
      assert (calls + [c])[1..] == calls[1..] + [c];
      DequeRunAdd(Deque(s, calls[0]), calls[1..], c);
    }
  }

  /**
   * Any run of calls on a new ring does what it does on an unbounded deque, up to the
   * first push that meets a full ring with its head away from the start, if there is one.
   */
  method Perform<T(0)>(capacity: nat, calls: seq<Call<T>>) returns (ring: Ring<T>, done: nat)
    requires capacity >= 1
    ensures ring.Valid() && done <= |calls| && ring.Contents() == DequeRun([], calls[..done])
    ensures done < |calls| ==> ring.Wrapped() && (calls[done].PushBack? || calls[done].PushFront?)
  {
    ring := new Ring<T>(capacity);
    done := 0;
    while done < |calls|
      invariant done <= |calls| && fresh(ring) && fresh(ring.data) && ring.Valid()
      invariant ring.Contents() == DequeRun([], calls[..done])
    {
      var c := calls[done];
      assert calls[..done + 1] == calls[..done] + [c];
      DequeRunAdd([], calls[..done], c);
      match c {
        case PushBack(x) =>
          if ring.Wrapped() { return; }
          ring.PushBack(x);
        case PushFront(x) =>
          if ring.Wrapped() { return; }
          ring.PushFront(x);
        case PopBack => var ok := ring.PopBack();
        case PopFront => var ok := ring.PopFront();
        case Clear => ring.Clear();
      }
      done := done + 1;
    }
    assert calls[..done] == calls;
  }

  /** Two pushes, a pop_front and a push bring a ring of two to where the next push copies beyond its array. */
  method ReachesWrapped() returns (ring: Ring<int>)
    ensures ring.Valid() && ring.Wrapped() && ring.Contents() == [2, 3]
    ensures !CopyInBounds(ring.data.Length, ring.head, ring.tail, ring.sz)
  {
    ring := new Ring<int>(2);
    ring.PushBack(1);
    ring.PushBack(2);
    assert ring.Contents() == [1, 2];
    var ok := ring.PopFront();
    assert ring.Contents() == [2];
    ring.PushBack(3);
    assert ring.head != 0 && ring.sz == 2;
    CopyInBoundsIff(ring.data.Length, ring.head, ring.sz);
  }
}

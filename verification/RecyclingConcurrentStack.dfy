/**
 * The stack object with its node objects: whole calls of push and pop, as one
 * thread alone sees them. Interleavings are in RecyclingStack; here the two
 * linked lists are real and nodes move between them in place.
 */
module RecyclingConcurrentStack {
  import opened Wrappers

  class Node<T> {
    var next: Node?<T>
    var data: Option<T>

    constructor (next: Node?<T>)
      ensures this.next == next && data == None
    {
      this.next, data := next, None;
    }
  }

  /** The nodes from first on, in link order, are exactly nodes. */
  ghost predicate Linked<T>(first: Node?<T>, nodes: seq<Node<T>>)
    reads nodes
    decreases |nodes|
  {
    if nodes == [] then first == null
    else first == nodes[0] && nodes[0] !in nodes[1..] && Linked(nodes[0].next, nodes[1..])
  }

  class RecyclingConcurrentStack<T> {
    var head: Node?<T>
    var free: Node?<T>
    /** The nodes of the two lists and the values on the stack, top first. */
    ghost var used: seq<Node<T>>
    ghost var spare: seq<Node<T>>
    ghost var contents: seq<T>

    ghost predicate Valid()
      reads this, used, spare
    {
      && Linked(head, used) && Linked(free, spare)
      && (forall n :: n in used ==> n !in spare)
      && |contents| == |used|
      && (forall i :: 0 <= i < |used| ==> used[i].data == Some(contents[i]))
      && (forall n :: n in spare ==> n.data.None?)
    }

    constructor (initialCapacity: nat)
      ensures Valid() && contents == [] && |spare| == initialCapacity
      ensures forall n :: n in spare ==> fresh(n)
    {
      head, free := null, null;
      used, spare, contents := [], [], [];
      new;
      var last: Node?<T> := null;
      ghost var nodes: seq<Node<T>> := [];
      for i := 0 to initialCapacity
        invariant Linked(last, nodes) && |nodes| == i
        invariant head == null && used == [] && contents == []
        invariant forall n :: n in nodes ==> fresh(n) && n.data.None?
      {
        last := new Node(last);
        ghost var rest := nodes;
        nodes := [last] + rest;
        assert nodes[1..] == rest;
      }
      free, spare := last, nodes;
    }

    /**
     * The value ends on top; its node is the top of the free list when there
     * is one, and a new node otherwise.
     */
    method Push(value: T)
      requires Valid()
      modifies this, used, spare
      ensures Valid() && contents == [value] + old(contents)
      ensures used[1..] == old(used) && |used| == |old(used)| + 1
      ensures if old(spare) == [] then spare == [] && fresh(used[0])
              else used[0] == old(spare)[0] && spare == old(spare)[1..]
    {
      var node := free;
      if node != null {
        var next := node.next;
        free := next;
        spare := spare[1..];
      } else {
        node := new Node(null);
      }
      node.data := Some(value);
      var next := head;
      node.next := next;
      head := node;
      ghost var rest := used;
      used, contents := [node] + rest, [value] + contents;
      assert used[1..] == rest;
    }

    /** The top value leaves the stack and its node is kept for the next push. */
    method Pop() returns (result: Option<T>)
      requires Valid()
      modifies this, used, spare
      ensures Valid()
      ensures old(contents) == [] ==> result == None && contents == [] && used == old(used) && spare == old(spare)
      ensures old(contents) != [] ==>
                && result == Some(old(contents)[0]) && contents == old(contents)[1..]
                && used == old(used)[1..] && spare == [old(used)[0]] + old(spare)
    {
      var node := head;
      if node == null { return None; }
      var next := node.next;
      head := next;
      result := node.data;
      node.data := None;
      node.next := free;
      free := node;
      ghost var rest := spare;
      used, spare, contents := used[1..], [node] + rest, contents[1..];
      assert spare[1..] == rest;
    }
  }
}

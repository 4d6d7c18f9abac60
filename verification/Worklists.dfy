/** The list structures behind the traversals: a linked FIFO queue, and a worklist that is used
    either as a stack or as a queue. */
module Worklists {
  import opened Wrappers

  class QueueNode<T> {
    var value: T
    var next: QueueNode?<T>

    constructor (value: T)
      ensures this.value == value && next == null
    {
      this.value := value;
      next := null;
    }
  }

  /** A singly linked queue with references to its first and last node. */
  class Queue<T> {
    var next: QueueNode?<T>
    var last: QueueNode?<T>
    var size: nat
    ghost var nodes: seq<QueueNode<T>>
    ghost var contents: seq<T>
    ghost var Repr: set<object>

    ghost predicate Valid()
      reads this, Repr
    {
      && this in Repr && (forall i :: 0 <= i < |nodes| ==> nodes[i] in Repr)
      && size == |nodes| == |contents|
      && (forall i :: 0 <= i < |nodes| ==> nodes[i].value == contents[i])
      && (forall i {:trigger nodes[i].next} :: 0 <= i < |nodes| ==>
            nodes[i].next == if i + 1 < |nodes| then nodes[i + 1] else null)
      && (forall i, j :: 0 <= i < j < |nodes| ==> nodes[i] != nodes[j])
      && next == (if nodes == [] then null else nodes[0])
      && last == (if nodes == [] then null else nodes[|nodes| - 1])
    }

    constructor ()
      ensures Valid() && fresh(Repr) && contents == []
    {
      next, last, size := null, null, 0;
      nodes, contents, Repr := [], [], {this};
    }

    method Push(value: T)
      requires Valid()
      modifies Repr
      ensures Valid() && fresh(Repr - old(Repr)) && contents == old(contents) + [value]
    {
      var node := new QueueNode(value);
      if last != null {
        last.next := node;
        last := node;
      } else {
        last, next := node, node;
      }
      size := size + 1;
      nodes, contents, Repr := nodes + [node], contents + [value], Repr + {node};
    }

    method Pop() returns (value: Option<T>)
      requires Valid()
      modifies Repr
      ensures Valid() && fresh(Repr - old(Repr))
      ensures old(contents) == [] ==> value == None && contents == []
      ensures old(contents) != [] ==> value == Some(old(contents)[0]) && contents == old(contents)[1..]
    {
      if next == null {
        return None;
      }
      ghost var ns := nodes;
      assert ns[0].next == if 1 < |ns| then ns[1] else null;
      value := Some(next.value);
      next := next.next;
      if next == null {
        last := null;
      }
      size := size - 1;
      nodes, contents := nodes[1..], contents[1..];
      forall i | 0 <= i < |nodes|
        ensures nodes[i].next == if i + 1 < |nodes| then nodes[i + 1] else null
      {
        assert nodes[i] == ns[i + 1];
      }
    }
  }

  /** The list a traversal is given: an array used as a stack, or a queue. */
  class Worklist<T> {
    const fifo: bool
    const queue: Queue<T>
    var stack: seq<T>
    ghost var contents: seq<T>
    ghost var Repr: set<object>

    /** `contents` is the pending items, oldest first. */
    ghost predicate Valid()
      reads this, Repr
    {
      && this in Repr && queue in Repr && queue.Repr <= Repr && this !in queue.Repr && queue.Valid()
      && contents == if fifo then queue.contents else stack
    }

    constructor (fifo: bool)
      ensures Valid() && fresh(Repr) && contents == [] && this.fifo == fifo
    {
      var q := new Queue<T>();
      this.fifo, queue, stack := fifo, q, [];
      contents, Repr := [], {this} + q.Repr;
    }

    function Length(): (n: nat)
      requires Valid()
      reads this, Repr
      ensures n == |contents|
    {
      if fifo then queue.size else |stack|
    }

    method Push(item: T)
      requires Valid()
      modifies Repr
      ensures Valid() && fresh(Repr - old(Repr)) && contents == old(contents) + [item]
    {
      if fifo {
        queue.Push(item);
      } else {
        stack := stack + [item];
      }
      contents, Repr := contents + [item], Repr + queue.Repr;
    }

    /** A queue gives the oldest item, a stack the newest. */
    method Pop() returns (item: Option<T>)
      requires Valid()
      modifies Repr
      ensures Valid() && fresh(Repr - old(Repr))
      ensures old(contents) == [] ==> item == None && contents == []
      ensures old(contents) != [] && fifo ==> item == Some(old(contents)[0]) && contents == old(contents)[1..]
      ensures old(contents) != [] && !fifo ==>
                item == Some(old(contents)[|old(contents)| - 1]) && contents == old(contents)[..|old(contents)| - 1]
    {
      if fifo {
        item := queue.Pop();
      } else if stack == [] {
        item := None;
      } else {
        item := Some(stack[|stack| - 1]);
        stack := stack[..|stack| - 1];
      }
      contents, Repr := if fifo then queue.contents else stack, Repr + queue.Repr;
    }
  }
}

/** The lists behind the asynchronous traversals. A cell of the queue is an item or an iterator that
    is consumed only when it reaches the front. */
module AsyncLists {
  import opened Wrappers

  /** A cell: an item, or an iterator given by the items it has yet to produce. The queue makes the
      iterator itself, so nothing else can advance it. */
  datatype Cell<T> = One(item: T) | Lazy(rest: seq<T>)

  function Items<T>(cell: Cell<T>): seq<T>
  {
    match cell
    case One(item) => [item]
    case Lazy(rest) => rest
  }

  class CellNode<T> {
    var cell: Cell<T>
    var next: CellNode?<T>

    constructor (cell: Cell<T>)
      ensures this.cell == cell && next == null
    {
      this.cell := cell;
      next := null;
    }
  }

  /** The items of the cells, in order. */
  function Flatten<T>(cells: seq<seq<T>>): seq<T>
  {
    if cells == [] then [] else cells[0] + Flatten(cells[1..])
  }

  lemma {:induction false} FlattenSnoc<T>(cells: seq<seq<T>>, more: seq<T>)
    ensures Flatten(cells + [more]) == Flatten(cells) + more
  {
    if cells == [] {
      assert cells + [more] == [more];
      assert [more][1..] == [];
      assert more + [] == [] + more;
    } else {
      assert (cells + [more])[1..] == cells[1..] + [more];
      FlattenSnoc(cells[1..], more);
    }
  }

  lemma FlattenFront<T>(cells: seq<seq<T>>)
    requires cells != []
    ensures Flatten(cells) == cells[0] + Flatten(cells[1..])
    ensures cells[0] == [] ==> Flatten(cells) == Flatten(cells[1..])
    ensures cells[0] != [] ==> Flatten(cells[0 := cells[0][1..]]) == Flatten(cells)[1..] && Flatten(cells)[0] == cells[0][0]
    ensures |cells[0]| == 1 ==> Flatten(cells[1..]) == Flatten(cells)[1..]
  {
    if cells[0] != [] {
      assert cells[0 := cells[0][1..]][1..] == cells[1..];
    }
  }

  /** How many cells at the front have nothing left. */
  function Spent<T>(cells: seq<seq<T>>): (n: nat)
    ensures n <= |cells|
  {
    if cells == [] || cells[0] != [] then 0 else 1 + Spent(cells[1..])
  }

  /** `AsyncQueue`. `cells` is what each cell still holds, and `exhausted` counts the iterators
      that were dropped without `size` being decremented. */
  class AsyncQueue<T> {
    var next: CellNode?<T>
    var last: CellNode?<T>
    var size: nat
    ghost var nodes: seq<CellNode<T>>
    ghost var cells: seq<seq<T>>
    ghost var exhausted: nat
    ghost var Repr: set<object>

    ghost predicate Valid()
      reads this, Repr
    {
      Linked() && size == |nodes| + exhausted
    }

    ghost predicate Linked()
      reads this, Repr
    {
      && this in Repr && |nodes| == |cells|
      && (forall i :: 0 <= i < |nodes| ==> nodes[i] in Repr)
      && (forall i :: 0 <= i < |nodes| ==> cells[i] == Items(nodes[i].cell))
      && (forall i {:trigger nodes[i].next} :: 0 <= i < |nodes| ==>
            nodes[i].next == if i + 1 < |nodes| then nodes[i + 1] else null)
      && (forall i, j :: 0 <= i < j < |nodes| ==> nodes[i] != nodes[j])
      && next == (if nodes == [] then null else nodes[0])
      && last == (if nodes == [] then null else nodes[|nodes| - 1])
    }

    /** The queue as a plain sequence. */
    ghost function Contents(): seq<T>
      reads this
    {
      Flatten(cells)
    }

    constructor ()
      ensures Valid() && fresh(Repr) && Contents() == [] && size == 0 && exhausted == 0
    {
      next, last, size := null, null, 0;
      nodes, cells, exhausted, Repr := [], [], 0, {this};
    }

    /** `push`: an iterable becomes one cell, whatever it will produce. */
    method Push(value: Cell<T>)
      requires Valid()
      modifies Repr
      ensures Valid() && fresh(Repr - old(Repr)) && exhausted == old(exhausted)
      ensures Contents() == old(Contents()) + Items(value) && cells == old(cells) + [Items(value)]
    {
      var node := new CellNode(value);
      FlattenSnoc(cells, Items(value));
      if last != null {
        last.next := node;
        last := node;
      } else {
        last, next := node, node;
      }
      size := size + 1;
      nodes, cells, Repr := nodes + [node], cells + [Items(value)], Repr + {node};
    }

    /** `removeNode`: the first cell goes, and `size` is left alone. */
    method RemoveNode()
      requires Linked() && nodes != []
      modifies this
      ensures Linked() && Repr == old(Repr) && size == old(size) && exhausted == old(exhausted)
      ensures |nodes| == |old(nodes)| - 1 && cells == old(cells)[1..]
    {
      ghost var ns := nodes;
      assert ns[0].next == if 1 < |ns| then ns[1] else null;
      next := next.next;
      if next == null {
        last := null;
      }
      nodes, cells := nodes[1..], cells[1..];
      forall i | 0 <= i < |nodes|
        ensures nodes[i].next == if i + 1 < |nodes| then nodes[i + 1] else null
      {
        assert nodes[i] == ns[i + 1];
      }
    }

    /** The iterator at the front produces its next item. */
    method Advance() returns (item: T)
      requires Valid() && nodes != [] && nodes[0].cell.Lazy? && cells[0] != []
      modifies Repr
      ensures Valid() && Repr == old(Repr) && exhausted == old(exhausted)
      ensures item == old(cells)[0][0] && cells == old(cells)[0 := old(cells)[0][1..]]
    {
      var rest := next.cell.rest;
      item := rest[0];
      next.cell := Lazy(rest[1..]);
      cells := cells[0 := rest[1..]];
    }

    /** `pop` gives the first item of the plain sequence; iterators found exhausted at the front are dropped
        on the way. Only on an empty queue it gives nothing. */
    method Pop() returns (item: Option<T>)
      requires Valid()
      modifies Repr
      ensures Valid() && fresh(Repr - old(Repr)) && exhausted == old(exhausted) + Spent(old(cells))
      ensures old(Contents()) == [] ==> item == None && Contents() == [] && cells == []
      ensures old(Contents()) != [] ==> item == Some(old(Contents())[0]) && Contents() == old(Contents())[1..]
      decreases |nodes|
    {
      if next == null {
        return None;
      }
      FlattenFront(cells);
      if next.cell.One? {
        item := Some(next.cell.item);
        RemoveNode();
        size := size - 1;
      } else {
        item := AsyncNext();
      }
    }

    /** `asyncNext`: an exhausted iterator is removed and the next cell is tried. */
    method AsyncNext() returns (item: Option<T>)
      requires Valid() && nodes != [] && nodes[0].cell.Lazy?
      modifies Repr
      ensures Valid() && fresh(Repr - old(Repr)) && exhausted == old(exhausted) + Spent(old(cells))
      ensures old(Contents()) == [] ==> item == None && Contents() == [] && cells == []
      ensures old(Contents()) != [] ==> item == Some(old(Contents())[0]) && Contents() == old(Contents())[1..]
      decreases |nodes|, 0
    {
      FlattenFront(cells);
      if |next.cell.rest| == 0 {
        RemoveNode();
        exhausted := exhausted + 1;
        item := Pop();
      } else {
        var value := Advance();
        item := Some(value);
      }
    }
  }

  /** The list an asynchronous traversal is given. The stack takes in an iterable at once. */
  class AsyncWorklist<T> {
    const fifo: bool
    const queue: AsyncQueue<T>
    var stack: seq<T>
    ghost var contents: seq<T>
    ghost var Repr: set<object>

    ghost predicate Valid()
      reads this, Repr
    {
      && this in Repr && queue in Repr && queue.Repr <= Repr && this !in queue.Repr && queue.Valid()
      && contents == if fifo then queue.Contents() else stack
    }

    constructor (fifo: bool)
      ensures Valid() && fresh(Repr) && contents == [] && this.fifo == fifo
    {
      var q := new AsyncQueue<T>();
      this.fifo, queue, stack := fifo, q, [];
      contents, Repr := [], {this} + q.Repr;
    }

    /** `length` is zero only if nothing is pending, so a traversal never stops early; for a queue
        that has dropped iterators it stays positive, and the traversal ends on an empty `pop`. */
    function Length(): (n: nat)
      requires Valid()
      reads this, Repr
      ensures contents != [] ==> n > 0
      ensures fifo ==> n == |queue.cells| + queue.exhausted
    {
      if fifo then queue.size else |stack|
    }

    method Push(item: T)
      requires Valid()
      modifies Repr
      ensures Valid() && fresh(Repr - old(Repr)) && contents == old(contents) + [item]
    {
      if fifo {
        queue.Push(One(item));
      } else {
        stack := stack + [item];
      }
      contents, Repr := contents + [item], Repr + queue.Repr;
    }

    method PushIterable(items: seq<T>)
      requires Valid()
      modifies Repr
      ensures Valid() && fresh(Repr - old(Repr)) && contents == old(contents) + items
    {
      if fifo {
        queue.Push(Lazy(items));
      } else {
        stack := stack + items;
      }
      contents, Repr := contents + items, Repr + queue.Repr;
    }

    method Pop() returns (item: Option<T>)
      requires Valid()
      modifies Repr
      ensures Valid() && fresh(Repr - old(Repr))
      ensures old(contents) == [] ==> item == None && contents == []
      ensures old(contents) != [] && fifo ==> item == Some(old(contents)[0]) && contents == old(contents)[1..]
      ensures old(contents) != [] && !fifo ==>
                item == Some(old(contents)[|old(contents)| - 1]) && contents == old(contents)[..|old(contents)| - 1]
    {
      if fifo {
        item := queue.Pop();
        contents, Repr := queue.Contents(), Repr + queue.Repr;
      } else if stack == [] {
        item := None;
      } else {
        item := Some(stack[|stack| - 1]);
        stack := stack[..|stack| - 1];
        contents := stack;
      }
    }
  }
}

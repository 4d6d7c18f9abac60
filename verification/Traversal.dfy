/** The traversal engine: one worklist loop that is a depth first search on a stack and a breadth
    first search on a queue, and the recursive orders it produces. */
module Traversal {
  import opened Wrappers
  import opened Keys
  import opened Trees
  import opened Worklists

  /** What a traversal yields for a node: the reference with its parent chain, the live value, the subtree. */
  datatype Item<R> = Item(ref: Chained, value: Option<R>, tree: Tree<R>)

  /** An entry of the worklist; only the start entry has no key. */
  datatype Pending<R> = Pending(tree: Tree<R>, level: nat, key: Option<Key>, parentRef: Option<Chained>)

  /** The reference that becomes the parent of the node's children. */
  function NodeOf<R>(p: Pending<R>): Option<Chained>
  {
    if p.key.Some? then Some(Chained(p.key.value, p.level, p.parentRef)) else p.parentRef
  }

  function Yield<R>(p: Pending<R>, now: Time): seq<Item<R>>
  {
    if p.key.Some? then [Item(Chained(p.key.value, p.level, p.parentRef), Live(p.tree, now), p.tree)] else []
  }

  /** The entries for the children `ks` of a node, in the order of the children object. */
  function Entries<R>(ks: Kids<R>, level: nat, parent: Option<Chained>): seq<Pending<R>>
  {
    match ks
    case End => []
    case Entry(key, sub, rest) => [Pending(sub, level, Some(key), parent)] + Entries(rest, level, parent)
  }

  function ChildEntries<R>(p: Pending<R>): seq<Pending<R>>
  {
    Entries(KidsOf(p.tree), p.level + 1, NodeOf(p))
  }

  // ----- depth first: pre-order with the children last to first

  function PreOrder<R>(t: Tree<R>, ref: Chained, now: Time): seq<Item<R>>
  {
    [Item(ref, Live(t, now), t)] +
    if t.children.Some? then PreOrderKids(t.children.value, ref.level + 1, Some(ref), now) else []
  }

  function PreOrderKids<R>(ks: Kids<R>, level: nat, parent: Option<Chained>, now: Time): seq<Item<R>>
  {
    match ks
    case End => []
    case Entry(key, sub, rest) => PreOrderKids(rest, level, parent, now) + PreOrder(sub, Chained(key, level, parent), now)
  }

  /** All that a pending entry still yields, depth first. */
  function DepthFirst<R>(p: Pending<R>, now: Time): seq<Item<R>>
  {
    Yield(p, now) + PreOrderKids(KidsOf(p.tree), p.level + 1, NodeOf(p), now)
  }

  /** All that a stack still yields: its top first. */
  function StackOrder<R>(stack: seq<Pending<R>>, now: Time): seq<Item<R>>
  {
    if stack == [] then []
    else DepthFirst(stack[|stack| - 1], now) + StackOrder(stack[..|stack| - 1], now)
  }

  lemma {:induction false} StackOrderPush<R>(stack: seq<Pending<R>>, ks: Kids<R>, level: nat, parent: Option<Chained>, now: Time)
    ensures StackOrder(stack + Entries(ks, level, parent), now) ==
            PreOrderKids(ks, level, parent, now) + StackOrder(stack, now)
    decreases ks
  {
    match ks
    case End =>
      assert stack + Entries(ks, level, parent) == stack;
    case Entry(key, sub, rest) =>
      var p := Pending(sub, level, Some(key), parent);
      var ref := Chained(key, level, parent);
      assert stack + Entries(ks, level, parent) == (stack + [p]) + Entries(rest, level, parent);
      StackOrderPush(stack + [p], rest, level, parent, now);
      assert (stack + [p])[..|stack|] == stack;
      assert DepthFirst(p, now) == PreOrder(sub, ref, now);
      var a, b, c := PreOrderKids(rest, level, parent, now), PreOrder(sub, ref, now), StackOrder(stack, now);
      assert a + (b + c) == (a + b) + c;
  }

  // ----- breadth first: level by level

  function Size<R>(t: Tree<R>): nat
  {
    1 + if t.children.Some? then SizeKids(t.children.value) else 0
  }

  function SizeKids<R>(ks: Kids<R>): nat
  {
    match ks
    case End => 0
    case Entry(_, sub, rest) => Size(sub) + SizeKids(rest)
  }

  /** The nodes below all pending entries, which every pass of the loop reduces. */
  function TotalSize<R>(ps: seq<Pending<R>>): nat
  {
    if ps == [] then 0 else Size(ps[0].tree) + TotalSize(ps[1..])
  }

  function YieldAll<R>(ps: seq<Pending<R>>, now: Time): seq<Item<R>>
  {
    if ps == [] then [] else Yield(ps[0], now) + YieldAll(ps[1..], now)
  }

  /** The next level: the children of all entries, in order. */
  function NextLevel<R>(ps: seq<Pending<R>>): seq<Pending<R>>
  {
    if ps == [] then [] else ChildEntries(ps[0]) + NextLevel(ps[1..])
  }

  lemma {:induction false} TotalSizeAppend<R>(ps: seq<Pending<R>>, qs: seq<Pending<R>>)
    ensures TotalSize(ps + qs) == TotalSize(ps) + TotalSize(qs)
  {
    if ps == [] {
      assert ps + qs == qs;
    } else {
      assert (ps + qs)[1..] == ps[1..] + qs;
      TotalSizeAppend(ps[1..], qs);
    }
  }

  lemma {:induction false} EntriesSize<R>(ks: Kids<R>, level: nat, parent: Option<Chained>)
    ensures TotalSize(Entries(ks, level, parent)) == SizeKids(ks)
  {
    match ks
    case End =>
    case Entry(_, _, rest) =>
      EntriesSize(rest, level, parent);
      assert Entries(ks, level, parent)[1..] == Entries(rest, level, parent);
  }

  lemma {:induction false} NextLevelSize<R>(ps: seq<Pending<R>>)
    ensures TotalSize(NextLevel(ps)) + |ps| == TotalSize(ps)
  {
    if ps != [] {
      NextLevelSize(ps[1..]);
      TotalSizeAppend(ChildEntries(ps[0]), NextLevel(ps[1..]));
      EntriesSize(KidsOf(ps[0].tree), ps[0].level + 1, NodeOf(ps[0]));
    }
  }

  /** Level order: a whole level, then everything below it. */
  function LevelOrder<R>(ps: seq<Pending<R>>, now: Time): seq<Item<R>>
    decreases TotalSize(ps)
  {
    if ps == [] then []
    else
      NextLevelSize(ps);
      YieldAll(ps, now) + LevelOrder(NextLevel(ps), now)
  }

  /** What the loop yields from a queue, one entry at a time. */
  function QueueOrder<R>(ps: seq<Pending<R>>, now: Time): seq<Item<R>>
    decreases TotalSize(ps)
  {
    if ps == [] then []
    else
      PopShrinks(ps);
      Yield(ps[0], now) + QueueOrder(ps[1..] + ChildEntries(ps[0]), now)
  }

  lemma PopShrinks<R>(ps: seq<Pending<R>>)
    requires ps != []
    ensures TotalSize(ps[1..] + ChildEntries(ps[0])) + 1 == TotalSize(ps)
  {
    TotalSizeAppend(ps[1..], ChildEntries(ps[0]));
    EntriesSize(KidsOf(ps[0].tree), ps[0].level + 1, NodeOf(ps[0]));
  }

  lemma QueueStep<R>(ps: seq<Pending<R>>, qs: seq<Pending<R>>, now: Time)
    requires ps != []
    ensures QueueOrder(ps + qs, now) == Yield(ps[0], now) + QueueOrder(ps[1..] + (qs + ChildEntries(ps[0])), now)
  {
    assert (ps + qs)[1..] + ChildEntries(ps[0]) == ps[1..] + (qs + ChildEntries(ps[0]));
  }

  /** Taking a whole level from the front of the queue leaves the next level behind the rest. */
  lemma {:induction false} QueueTakesLevel<R>(ps: seq<Pending<R>>, qs: seq<Pending<R>>, now: Time)
    ensures QueueOrder(ps + qs, now) == YieldAll(ps, now) + QueueOrder(qs + NextLevel(ps), now)
    decreases ps
  {
    if ps == [] {
      assert ps + qs == qs && qs + NextLevel(ps) == qs;
    } else {
      var more, below := qs + ChildEntries(ps[0]), NextLevel(ps[1..]);
      QueueStep(ps, qs, now);
      QueueTakesLevel(ps[1..], more, now);
      Regroup(qs, ChildEntries(ps[0]), below);
      Regroup(Yield(ps[0], now), YieldAll(ps[1..], now), QueueOrder(more + below, now));
    }
  }

  lemma {:induction false} QueueOrderIsLevelOrder<R>(ps: seq<Pending<R>>, now: Time)
    ensures QueueOrder(ps, now) == LevelOrder(ps, now)
    decreases TotalSize(ps)
  {
    if ps != [] {
      assert ps + [] == ps;
      QueueTakesLevel(ps, [], now);
      assert [] + NextLevel(ps) == NextLevel(ps);
      NextLevelSize(ps);
      QueueOrderIsLevelOrder(NextLevel(ps), now);
    }
  }

  // ----- the loop

  /** The start entry: the root under its own reference, or the root of everything. */
  function Start<R>(root: Tree<R>, startRef: Option<Chained>): Pending<R>
  {
    Pending(root, if startRef.Some? then startRef.value.level else 0, None, startRef)
  }

  function StartItems<R>(root: Tree<R>, startRef: Option<Chained>, now: Time): seq<Item<R>>
  {
    if startRef.Some? then [Item(startRef.value, Live(root, now), root)] else []
  }

  /** All that the worklist still yields. */
  function Remaining<R>(fifo: bool, pending: seq<Pending<R>>, now: Time): seq<Item<R>>
  {
    if fifo then QueueOrder(pending, now) else StackOrder(pending, now)
  }

  function Front<R>(fifo: bool, pending: seq<Pending<R>>): Pending<R>
    requires pending != []
  {
    if fifo then pending[0] else pending[|pending| - 1]
  }

  function Others<R>(fifo: bool, pending: seq<Pending<R>>): seq<Pending<R>>
    requires pending != []
  {
    if fifo then pending[1..] else pending[..|pending| - 1]
  }

  /** One pass of the loop: yield an entry and replace it by its children. */
  lemma TakeOne<R>(fifo: bool, pending: seq<Pending<R>>, out: seq<Item<R>>, now: Time)
    requires pending != []
    ensures
      var p := Front(fifo, pending);
      var next := Others(fifo, pending) + ChildEntries(p);
      && out + Remaining(fifo, pending, now) == (out + Yield(p, now)) + Remaining(fifo, next, now)
      && TotalSize(next) < TotalSize(pending)
  {
    TakeFront(fifo, pending, now);
    var p := Front(fifo, pending);
    Regroup(out, Yield(p, now), Remaining(fifo, Others(fifo, pending) + ChildEntries(p), now));
  }

  lemma Regroup<T>(a: seq<T>, b: seq<T>, c: seq<T>)
    ensures a + (b + c) == (a + b) + c
  {
  }

  lemma TakeFront<R>(fifo: bool, pending: seq<Pending<R>>, now: Time)
    requires pending != []
    ensures
      var p := Front(fifo, pending);
      var next := Others(fifo, pending) + ChildEntries(p);
      && Remaining(fifo, pending, now) == Yield(p, now) + Remaining(fifo, next, now)
      && TotalSize(next) < TotalSize(pending)
  {
    if fifo {
      PopShrinks(pending);
    } else {
      TakeTop(pending[..|pending| - 1], pending[|pending| - 1], now);
      assert pending == pending[..|pending| - 1] + [pending[|pending| - 1]];
    }
  }

  lemma TakeTop<R>(others: seq<Pending<R>>, p: Pending<R>, now: Time)
    ensures StackOrder(others + [p], now) == Yield(p, now) + StackOrder(others + ChildEntries(p), now)
    ensures TotalSize(others + ChildEntries(p)) < TotalSize(others + [p])
  {
    TakeTopShrinks(others, p);
    var stack := others + [p];
    assert stack[..|stack| - 1] == others && stack[|stack| - 1] == p;
    assert StackOrder(stack, now) == DepthFirst(p, now) + StackOrder(others, now);
    StackOrderPush(others, KidsOf(p.tree), p.level + 1, NodeOf(p), now);
    Regroup(Yield(p, now), PreOrderKids(KidsOf(p.tree), p.level + 1, NodeOf(p), now), StackOrder(others, now));
  }

  lemma TakeTopShrinks<R>(others: seq<Pending<R>>, p: Pending<R>)
    ensures TotalSize(others + ChildEntries(p)) < TotalSize(others + [p])
  {
    TotalSizeAppend(others, [p]);
    TotalSizeAppend(others, ChildEntries(p));
    EntriesSize(KidsOf(p.tree), p.level + 1, NodeOf(p));
  }

  lemma RemainingAtStart<R>(fifo: bool, p: Pending<R>, out: seq<Item<R>>, now: Time)
    ensures out + Remaining(fifo, [], now) == out
    ensures Remaining(fifo, [p], now) == if fifo then LevelOrder([p], now) else DepthFirst(p, now)
  {
    QueueOrderIsLevelOrder([p], now);
    var stack := [p];
    assert StackOrder(stack[..|stack| - 1], now) == [];
    assert DepthFirst(p, now) + [] == DepthFirst(p, now);
  }

  /** `treePreOrderTraversal`: on a stack the order is depth first, on a queue level by level. */
  method TreePreOrderTraversal<R>(root: Tree<R>, list: Worklist<Pending<R>>, startRef: Option<Chained>, now: Time)
    returns (out: seq<Item<R>>)
    requires list.Valid() && list.contents == []
    modifies list.Repr
    ensures out == StartItems(root, startRef, now) +
            if list.fifo then LevelOrder([Start(root, startRef)], now) else DepthFirst(Start(root, startRef), now)
  {
    out := StartItems(root, startRef, now);
    var start := Start(root, startRef);
    list.Push(start);
    assert list.contents == [start];
    ghost var total := out + Remaining(list.fifo, [start], now);
    while list.Length() > 0
      invariant list.Valid() && fresh(list.Repr - old(list.Repr))
      invariant total == out + Remaining(list.fifo, list.contents, now)
      decreases TotalSize(list.contents)
    {
      TakeOne(list.fifo, list.contents, out, now);
      var items := ProcessFront(list, now);
      out := out + items;
    }
    RemainingAtStart(list.fifo, start, out, now);
  }

  /** One pass of the loop: take an entry, yield it, push its children. */
  method ProcessFront<R>(list: Worklist<Pending<R>>, now: Time) returns (items: seq<Item<R>>)
    requires list.Valid() && list.contents != []
    modifies list.Repr
    ensures list.Valid() && fresh(list.Repr - old(list.Repr))
    ensures items == Yield(Front(list.fifo, old(list.contents)), now)
    ensures list.contents ==
            Others(list.fifo, old(list.contents)) + ChildEntries(Front(list.fifo, old(list.contents)))
  {
    var item := list.Pop();
    items := Yield(item.value, now);
    PushChildren(KidsOf(item.value.tree), item.value.level + 1, NodeOf(item.value), list);
  }

  method PushChildren<R>(children: Kids<R>, level: nat, parent: Option<Chained>, list: Worklist<Pending<R>>)
    requires list.Valid()
    modifies list.Repr
    ensures list.Valid() && fresh(list.Repr - old(list.Repr)) && list.contents == old(list.contents) + Entries(children, level, parent)
  {
    var ks := children;
    while ks.Entry?
      invariant list.Valid() && fresh(list.Repr - old(list.Repr))
      invariant list.contents + Entries(ks, level, parent) == old(list.contents) + Entries(children, level, parent)
      decreases ks
    {
      Regroup(list.contents, [Pending(ks.sub, level, Some(ks.key), parent)], Entries(ks.rest, level, parent));
      list.Push(Pending(ks.sub, level, Some(ks.key), parent));
      ks := ks.rest;
    }
  }
}

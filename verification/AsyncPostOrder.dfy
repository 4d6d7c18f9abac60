/** The asynchronous post-order traversal: the children of a key level node are read one by one, each subtree being
    finished before the next child is read. */
module AsyncPostOrder {
  import opened Wrappers
  import opened Keys
  import opened Trees
  import opened Traversal
  import opened Orders
  import opened AsyncLists
  import opened HybridTraversal

  /** What is pushed for a child, and never taken out. */
  type Pushed<R> = (AnyTree<R>, Key, Option<Chained>)

  function PlainSize<R>(any: AnyTree<R>): nat
  {
    if any.Plain? then Size(any.tree) else 0
  }

  lemma ForgetItemsAppend<R>(view: View<R>, xs: seq<AsyncItem<R>>, ys: seq<AsyncItem<R>>)
    ensures ForgetItems(view, xs + ys) == ForgetItems(view, xs) + ForgetItems(view, ys)
  {
  }

  /** The item of a node, as a key level node or a plain tree, is that of the tree in memory. */
  lemma ForgetItem<R>(view: View<R>, ref: Chained, any: AnyTree<R>)
    ensures
      var tree := Materialized(view, any);
      ForgetItems(view, [AsyncItem(ref, AnyValue(any, view.now), any)]) == [Item(ref, Live(tree, view.now), tree)]
  {
  }

  /** `asyncTreePostOrderTraversal`: whatever list it is given, it yields what the synchronous traversal yields on the
      tree in memory. */
  method AsyncTreePostOrderTraversal<R>(view: View<R>, root: AnyTree<R>, list: AsyncWorklist<Pushed<R>>, startRef: Option<Chained>)
    returns (out: seq<AsyncItem<R>>)
    requires list.Valid() && Sound(view, root)
    modifies list.Repr
    ensures list.Valid() && fresh(list.Repr - old(list.Repr))
    ensures ForgetItems(view, out) == PostOrderFrom(Materialized(view, root), startRef, view.now)
  {
    out := AsyncPostOrderRecursive(view, root, list, startRef, None);
    if startRef.Some? {
      var last := AsyncItem(startRef.value, AnyValue(root, view.now), root);
      ForgetItem(view, startRef.value, root);
      ForgetItemsAppend(view, out, [last]);
      out := out + [last];
    }
  }

  method AsyncPostOrderRecursive<R>(view: View<R>, any: AnyTree<R>, list: AsyncWorklist<Pushed<R>>, parentRef: Option<Chained>, key: Option<Key>)
    returns (out: seq<AsyncItem<R>>)
    requires list.Valid() && Sound(view, any)
    modifies list.Repr
    ensures list.Valid() && fresh(list.Repr - old(list.Repr))
    ensures ForgetItems(view, out) == PostOrderOf(Materialized(view, any), parentRef, key, view.now)
    decreases Depth(view, any), PlainSize(any), 2
  {
    var node := if key.Some? then Some(Chained(key.value, LevelOf(parentRef) + 1, parentRef)) else None;
    var parent := if node.Some? then node else parentRef;
    match any {
      case KeyRef(ref, value) => out := AsyncPostOrderListed(view, ref, value, list, parent, LevelOf(parent) + 1);
      case Plain(tree) => out := AsyncPostOrderPlain(view, tree, list, node, parent, LevelOf(parent) + 1);
    }
    if node.Some? {
      var last := AsyncItem(node.value, AnyValue(any, view.now), any);
      ForgetItem(view, node.value, any);
      ForgetItemsAppend(view, out, [last]);
      out := out + [last];
    }
  }

  /** What one listed child yields, nothing if it is a tree that is not stored. */
  ghost function ChildOrder<R>(view: View<R>, ref: Option<Chained>, key: Key, level: nat, parent: Option<Chained>): seq<Item<R>>
  {
    var one := OneEntry(view, ref, key, level, parent);
    if one == [] then [] else PostOrderOf(Materialized(view, one[0].any), parent, Some(key), view.now)
  }

  /** What the listed children from `i` on yield. */
  ghost function ListedOrder<R>(view: View<R>, ref: Option<Chained>, keys: seq<Key>, i: nat, level: nat, parent: Option<Chained>): seq<Item<R>>
    requires RefLevel(ref) < view.K && i <= |keys|
  {
    PostOrderKids(MaterializedKids(view, ref, keys[i..]), level, parent, view.now)
  }

  lemma ListedStep<R>(view: View<R>, ref: Option<Chained>, keys: seq<Key>, i: nat, level: nat, parent: Option<Chained>, before: seq<Item<R>>)
    requires RefLevel(ref) < view.K && i < |keys| && level == LevelOf(parent) + 1
    ensures before + ListedOrder(view, ref, keys, i, level, parent) ==
            (before + ChildOrder(view, ref, keys[i], level, parent)) + ListedOrder(view, ref, keys, i + 1, level, parent)
  {
    assert keys[i..][1..] == keys[i + 1..];
    Regroup(before, ChildOrder(view, ref, keys[i], level, parent), ListedOrder(view, ref, keys, i + 1, level, parent));
  }

  lemma ChildIsDeeper<R>(view: View<R>, ref: Option<Chained>, value: Option<R>, key: Key, level: nat, parent: Option<Chained>)
    requires RefLevel(ref) < view.K && OneEntry(view, ref, key, level, parent) != []
    ensures
      var child := OneEntry(view, ref, key, level, parent)[0].any;
      Sound(view, child) && Depth(view, child) < Depth(view, KeyRef(ref, value))
  {
  }

  /** One listed child is read and its subtree traversed. */
  method AsyncPostOrderChild<R>(view: View<R>, ref: Option<Chained>, ghost value: Option<R>, key: Key, list: AsyncWorklist<Pushed<R>>, parent: Option<Chained>, level: nat)
    returns (out: seq<AsyncItem<R>>)
    requires list.Valid() && RefLevel(ref) < view.K && level == LevelOf(parent) + 1
    modifies list.Repr
    ensures list.Valid() && fresh(list.Repr - old(list.Repr))
    ensures ForgetItems(view, out) == ChildOrder(view, ref, key, level, parent)
    decreases Depth(view, KeyRef(ref, value)), 0, 0
  {
    var one := ReadChild(view, ref, key, level, parent);
    out := [];
    if one.value != [] {
      ChildIsDeeper(view, ref, value, key, level, parent);
      out := AsyncPostOrderRecursive(view, one.value[0].any, list, parent, Some(key));
    }
  }

  /** The loop over the children the storage lists for a key level node. */
  method AsyncPostOrderListed<R>(view: View<R>, ref: Option<Chained>, ghost value: Option<R>, list: AsyncWorklist<Pushed<R>>, parent: Option<Chained>, level: nat)
    returns (out: seq<AsyncItem<R>>)
    requires list.Valid() && RefLevel(ref) < view.K && level == LevelOf(parent) + 1
    modifies list.Repr
    ensures list.Valid() && fresh(list.Repr - old(list.Repr))
    ensures ForgetItems(view, out) == PostOrderKids(KidsOf(Materialized(view, KeyRef(ref, value))), level, parent, view.now)
    decreases Depth(view, KeyRef(ref, value)), 0, 1
  {
    var keys := ListedChildren(view, ref);
    ghost var all := ListedOrder(view, ref, keys, 0, level, parent);
    assert keys[0..] == keys;
    out := [];
    var i := 0;
    while i < |keys|
      invariant 0 <= i <= |keys| && list.Valid() && fresh(list.Repr - old(list.Repr))
      invariant all == ForgetItems(view, out) + ListedOrder(view, ref, keys, i, level, parent)
    {
      ListedStep(view, ref, keys, i, level, parent, ForgetItems(view, out));
      var below := AsyncPostOrderChild(view, ref, value, keys[i], list, parent, level);
      ForgetItemsAppend(view, out, below);
      out := out + below;
      i := i + 1;
    }
    assert keys[i..] == [];
  }

  /** The loop over the children of a tree that is already there. */
  method AsyncPostOrderPlain<R>(view: View<R>, t: Tree<R>, list: AsyncWorklist<Pushed<R>>, node: Option<Chained>, parent: Option<Chained>, level: nat)
    returns (out: seq<AsyncItem<R>>)
    requires list.Valid() && level == LevelOf(parent) + 1
    modifies list.Repr
    ensures list.Valid() && fresh(list.Repr - old(list.Repr))
    ensures ForgetItems(view, out) == PostOrderKids(KidsOf(t), level, parent, view.now)
    decreases 0, Size(t), 0
  {
    out := [];
    var ks := KidsOf(t);
    while ks.Entry?
      invariant list.Valid() && fresh(list.Repr - old(list.Repr)) && SizeKids(ks) <= SizeKids(KidsOf(t))
      invariant ForgetItems(view, out) + PostOrderKids(ks, level, parent, view.now) == PostOrderKids(KidsOf(t), level, parent, view.now)
      decreases ks
    {
      list.Push((Plain(ks.sub), ks.key, node));
      var below := AsyncPostOrderRecursive(view, Plain(ks.sub), list, parent, Some(ks.key));
      ForgetItemsAppend(view, out, below);
      Regroup(ForgetItems(view, out), ForgetItems(view, below), PostOrderKids(ks.rest, level, parent, view.now));
      out := out + below;
      ks := ks.rest;
    }
  }
}

/** Traversals over the hybrid storage. A node above the key level is a reference whose children are read
    from the storage when the traversal asks for them; from the key level on a node is a plain tree. */
module HybridTraversal {
  import opened Wrappers
  import opened Keys
  import opened Trees
  import opened HybridStore
  import opened Traversal
  import opened Orders
  import opened AsyncLists

  /** What a traversal reads: the storage, its registry of children, and the tree serializer. */
  datatype View<!R> = View(
    storage: Storage<R>,
    K: nat,
    getChildren: Option<string> -> seq<Key>,
    deserializeTree: R -> Tree<R>,
    now: Time)

  /** `AsyncTreeRef` for a key level node, or a tree that is already there. */
  datatype AnyTree<R> = KeyRef(nodeRef: Option<Chained>, value: Option<R>) | Plain(tree: Tree<R>)

  function RefLevel(ref: Option<Chained>): nat
  {
    if ref.Some? then ref.value.level else 0
  }

  function ListedChildren<R>(view: View<R>, ref: Option<Chained>): seq<Key>
  {
    view.getChildren(if ref.Some? then Some(Join(ChainPath(ref.value))) else None)
  }

  /** The child `key` of a key level node. A listed tree that is not stored is passed over. */
  function ChildRef<R>(view: View<R>, ref: Option<Chained>, key: Key): Option<AnyTree<R>>
  {
    var child := Chained(key, RefLevel(ref) + 1, ref);
    var value := StorageGet(view.storage, Join(ChainPath(child)), view.now);
    if child.level < view.K then Some(KeyRef(Some(child), value))
    else if value.None? then None
    else Some(Plain(view.deserializeTree(value.value)))
  }

  // ----- the same tree, all in memory

  function Depth<R>(view: View<R>, any: AnyTree<R>): nat
  {
    if any.KeyRef? && RefLevel(any.nodeRef) < view.K then view.K - RefLevel(any.nodeRef) else 0
  }

  /** The tree a traversal would see if it loaded everything first. */
  function Materialized<R>(view: View<R>, any: AnyTree<R>): Tree<R>
    decreases Depth(view, any)
  {
    match any
    case Plain(tree) => tree
    case KeyRef(ref, value) =>
      Tree(value, None,
           Some(if RefLevel(ref) < view.K then MaterializedKids(view, ref, ListedChildren(view, ref)) else End))
  }

  function MaterializedKids<R>(view: View<R>, ref: Option<Chained>, keys: seq<Key>): Kids<R>
    requires RefLevel(ref) < view.K
    decreases view.K - RefLevel(ref), |keys|
  {
    if keys == [] then End
    else
      var rest := MaterializedKids(view, ref, keys[1..]);
      match ChildRef(view, ref, keys[0])
      case None => rest
      case Some(any) => Entry(keys[0], Materialized(view, any), rest)
  }

  // ----- pending entries of the asynchronous loop

  datatype AsyncPending<R> = AsyncPending(any: AnyTree<R>, level: nat, key: Option<Key>, parentRef: Option<Chained>)

  datatype AsyncItem<R> = AsyncItem(ref: Chained, value: Option<R>, any: AnyTree<R>)

  function AnyValue<R>(any: AnyTree<R>, now: Time): Option<R>
  {
    match any
    case KeyRef(_, value) => value
    case Plain(tree) => Live(tree, now)
  }

  function AsyncNode<R>(p: AsyncPending<R>): Option<Chained>
  {
    if p.key.Some? then Some(Chained(p.key.value, p.level, p.parentRef)) else p.parentRef
  }

  function AsyncYield<R>(p: AsyncPending<R>, now: Time): seq<AsyncItem<R>>
  {
    if p.key.Some? then [AsyncItem(Chained(p.key.value, p.level, p.parentRef), AnyValue(p.any, now), p.any)] else []
  }

  /** The entries for the listed children of a key level node. */
  function KeyEntries<R>(view: View<R>, ref: Option<Chained>, keys: seq<Key>, level: nat, parent: Option<Chained>): seq<AsyncPending<R>>
  {
    if keys == [] then []
    else
      var rest := KeyEntries(view, ref, keys[1..], level, parent);
      match ChildRef(view, ref, keys[0])
      case None => rest
      case Some(any) => [AsyncPending(any, level, Some(keys[0]), parent)] + rest
  }

  function PlainEntries<R>(ks: Kids<R>, level: nat, parent: Option<Chained>): seq<AsyncPending<R>>
  {
    match ks
    case End => []
    case Entry(key, sub, rest) => [AsyncPending(Plain(sub), level, Some(key), parent)] + PlainEntries(rest, level, parent)
  }

  function AsyncChildren<R>(view: View<R>, p: AsyncPending<R>): seq<AsyncPending<R>>
  {
    match p.any
    case KeyRef(ref, _) => KeyEntries(view, ref, ListedChildren(view, ref), p.level + 1, AsyncNode(p))
    case Plain(tree) => PlainEntries(KidsOf(tree), p.level + 1, AsyncNode(p))
  }

  // ----- forgetting where a tree is kept

  function Forget<R>(view: View<R>, p: AsyncPending<R>): Pending<R>
  {
    Pending(Materialized(view, p.any), p.level, p.key, p.parentRef)
  }

  function ForgetAll<R>(view: View<R>, ps: seq<AsyncPending<R>>): seq<Pending<R>>
  {
    seq(|ps|, i requires 0 <= i < |ps| => Forget(view, ps[i]))
  }

  function ForgetItems<R>(view: View<R>, xs: seq<AsyncItem<R>>): seq<Item<R>>
  {
    seq(|xs|, i requires 0 <= i < |xs| => Item(xs[i].ref, xs[i].value, Materialized(view, xs[i].any)))
  }

  lemma ForgetAppend<R>(view: View<R>, ps: seq<AsyncPending<R>>, qs: seq<AsyncPending<R>>)
    ensures ForgetAll(view, ps + qs) == ForgetAll(view, ps) + ForgetAll(view, qs)
  {
  }

  lemma {:induction false} ForgetKeyEntries<R>(view: View<R>, ref: Option<Chained>, keys: seq<Key>, level: nat, parent: Option<Chained>)
    requires RefLevel(ref) < view.K
    ensures ForgetAll(view, KeyEntries(view, ref, keys, level, parent)) ==
            Entries(MaterializedKids(view, ref, keys), level, parent)
  {
    if keys != [] {
      ForgetKeyEntries(view, ref, keys[1..], level, parent);
      var rest := KeyEntries(view, ref, keys[1..], level, parent);
      match ChildRef(view, ref, keys[0]) {
        case None =>
        case Some(any) =>
          var first := [AsyncPending(any, level, Some(keys[0]), parent)];
          ForgetAppend(view, first, rest);
          assert ForgetAll(view, first) == [Pending(Materialized(view, any), level, Some(keys[0]), parent)];
      }
    }
  }

  lemma {:induction false} ForgetPlainEntries<R>(view: View<R>, ks: Kids<R>, level: nat, parent: Option<Chained>)
    ensures ForgetAll(view, PlainEntries(ks, level, parent)) == Entries(ks, level, parent)
  {
    match ks
    case End =>
    case Entry(key, sub, rest) =>
      ForgetPlainEntries(view, rest, level, parent);
      var first := [AsyncPending(Plain(sub), level, Some(key), parent)];
      ForgetAppend(view, first, PlainEntries(rest, level, parent));
      assert ForgetAll(view, first) == [Pending(sub, level, Some(key), parent)];
  }

  /** A key level reference has the level of a key level node, so the 'Something went wrong' error of a child
      below the key level is out of reach. */
  predicate Sound<R>(view: View<R>, any: AnyTree<R>)
  {
    any.KeyRef? ==> RefLevel(any.nodeRef) < view.K
  }

  predicate AllSound<R>(view: View<R>, ps: seq<AsyncPending<R>>)
  {
    forall i :: 0 <= i < |ps| ==> Sound(view, ps[i].any)
  }

  /** The children read lazily are the children of the tree in memory. */
  lemma ForgetChildren<R>(view: View<R>, p: AsyncPending<R>)
    requires Sound(view, p.any)
    ensures ForgetAll(view, AsyncChildren(view, p)) == ChildEntries(Forget(view, p))
  {
    match p.any
    case KeyRef(ref, _) => ForgetKeyEntries(view, ref, ListedChildren(view, ref), p.level + 1, AsyncNode(p));
    case Plain(tree) => ForgetPlainEntries(view, KidsOf(tree), p.level + 1, AsyncNode(p));
  }

  lemma {:induction false} KeyEntriesSound<R>(view: View<R>, ref: Option<Chained>, keys: seq<Key>, level: nat, parent: Option<Chained>)
    ensures AllSound(view, KeyEntries(view, ref, keys, level, parent))
  {
    if keys != [] {
      KeyEntriesSound(view, ref, keys[1..], level, parent);
    }
  }

  lemma {:induction false} PlainEntriesSound<R>(view: View<R>, ks: Kids<R>, level: nat, parent: Option<Chained>)
    ensures AllSound(view, PlainEntries(ks, level, parent))
  {
    match ks
    case End =>
    case Entry(_, _, rest) => PlainEntriesSound(view, rest, level, parent);
  }

  // ----- the loop

  /** The entries for one listed child: one, or none for a tree that is not stored. */
  function OneEntry<R>(view: View<R>, ref: Option<Chained>, key: Key, level: nat, parent: Option<Chained>): seq<AsyncPending<R>>
  {
    match ChildRef(view, ref, key)
    case None => []
    case Some(any) => [AsyncPending(any, level, Some(key), parent)]
  }

  /** One pass of the generator of `AsyncTreeRef`'s children. */
  method ReadChild<R>(view: View<R>, ref: Option<Chained>, key: Key, level: nat, parent: Option<Chained>)
    returns (r: Result<seq<AsyncPending<R>>>)
    ensures RefLevel(ref) < view.K ==> r == Ok(OneEntry(view, ref, key, level, parent))
  {
    var child := Chained(key, RefLevel(ref) + 1, ref);
    var chainedKey := BuildKey(child);
    var value := StorageGet(view.storage, chainedKey, view.now);
    if child.level < view.K {
      return Ok([AsyncPending(KeyRef(Some(child), value), level, Some(key), parent)]);
    }
    if value.None? {
      return Ok([]);
    }
    if child.level > view.K {
      return Err("Something went wrong");
    }
    r := Ok([AsyncPending(Plain(view.deserializeTree(value.value)), level, Some(key), parent)]);
  }

  lemma KeyEntriesStep<R>(view: View<R>, ref: Option<Chained>, keys: seq<Key>, i: nat, level: nat, parent: Option<Chained>, done: seq<AsyncPending<R>>)
    requires i < |keys|
    ensures done + KeyEntries(view, ref, keys[i..], level, parent) ==
            (done + OneEntry(view, ref, keys[i], level, parent)) + KeyEntries(view, ref, keys[i + 1..], level, parent)
  {
    assert keys[i..][1..] == keys[i + 1..];
  }

  /** The generator run to its end. */
  method ReadChildren<R>(view: View<R>, ref: Option<Chained>, level: nat, parent: Option<Chained>)
    returns (r: Result<seq<AsyncPending<R>>>)
    ensures RefLevel(ref) < view.K ==> r == Ok(KeyEntries(view, ref, ListedChildren(view, ref), level, parent))
  {
    var keys := ListedChildren(view, ref);
    var entries: seq<AsyncPending<R>> := [];
    ghost var all := KeyEntries(view, ref, keys, level, parent);
    var i := 0;
    assert keys[0..] == keys && [] + all == all;
    while i < |keys|
      invariant 0 <= i <= |keys|
      invariant RefLevel(ref) < view.K ==> entries + KeyEntries(view, ref, keys[i..], level, parent) == all
    {
      KeyEntriesStep(view, ref, keys, i, level, parent, entries);
      var one := ReadChild(view, ref, keys[i], level, parent);
      if one.Err? {
        return one;
      }
      entries := entries + one.value;
      i := i + 1;
    }
    assert keys[i..] == [] && entries + [] == entries;
    r := Ok(entries);
  }

  /** One pass of the loop: take an entry, yield it, push its children, lazily or one by one. */
  method AsyncStep<R>(view: View<R>, list: AsyncWorklist<AsyncPending<R>>, item: AsyncPending<R>)
    returns (r: Result<seq<AsyncItem<R>>>)
    requires list.Valid() && Sound(view, item.any)
    modifies list.Repr
    ensures list.Valid() && fresh(list.Repr - old(list.Repr))
    ensures r == Ok(AsyncYield(item, view.now)) && list.contents == old(list.contents) + AsyncChildren(view, item)
  {
    match item.any
    case KeyRef(ref, _) =>
      var read := ReadChildren(view, ref, item.level + 1, AsyncNode(item));
      list.PushIterable(read.value);
      r := Ok(AsyncYield(item, view.now));
    case Plain(tree) =>
      PushPlain(list, KidsOf(tree), item.level + 1, AsyncNode(item));
      r := Ok(AsyncYield(item, view.now));
  }

  method PushPlain<R>(list: AsyncWorklist<AsyncPending<R>>, children: Kids<R>, level: nat, parent: Option<Chained>)
    requires list.Valid()
    modifies list.Repr
    ensures list.Valid() && fresh(list.Repr - old(list.Repr))
    ensures list.contents == old(list.contents) + PlainEntries(children, level, parent)
  {
    var ks := children;
    while ks.Entry?
      invariant list.Valid() && fresh(list.Repr - old(list.Repr))
      invariant list.contents + PlainEntries(ks, level, parent) == old(list.contents) + PlainEntries(children, level, parent)
      decreases ks
    {
      Regroup(list.contents, [AsyncPending(Plain(ks.sub), level, Some(ks.key), parent)], PlainEntries(ks.rest, level, parent));
      list.Push(AsyncPending(Plain(ks.sub), level, Some(ks.key), parent));
      ks := ks.rest;
    }
  }

  /** The whole body of the loop; an empty `pop` ends it. */
  method AsyncPass<R>(view: View<R>, list: AsyncWorklist<AsyncPending<R>>) returns (items: Option<seq<AsyncItem<R>>>)
    requires list.Valid() && AllSound(view, list.contents)
    modifies list.Repr
    ensures list.Valid() && fresh(list.Repr - old(list.Repr))
    ensures old(list.contents) == [] ==> items == None && list.contents == []
    ensures old(list.contents) != [] ==>
              var p := AsyncFront(list.fifo, old(list.contents));
              && items == Some(AsyncYield(p, view.now))
              && list.contents == AsyncOthers(list.fifo, old(list.contents)) + AsyncChildren(view, p)
  {
    var item := list.Pop();
    if item.None? {
      return None;
    }
    var r := AsyncStep(view, list, item.value);
    items := Some(r.value);
  }

  lemma ForgetStart<R>(view: View<R>, root: AnyTree<R>, startRef: Option<Chained>)
    ensures ForgetAll(view, [AsyncPending(root, RefLevel(startRef), None, startRef)]) == [Start(Materialized(view, root), startRef)]
    ensures ForgetItems(view, AsyncStartItems(root, startRef, view.now)) == StartItems(Materialized(view, root), startRef, view.now)
  {
  }

  lemma ForgetYield<R>(view: View<R>, p: AsyncPending<R>)
    ensures ForgetItems(view, AsyncYield(p, view.now)) == Yield(Forget(view, p), view.now)
  {
  }

  function AsyncFront<R>(fifo: bool, ps: seq<AsyncPending<R>>): AsyncPending<R>
    requires ps != []
  {
    if fifo then ps[0] else ps[|ps| - 1]
  }

  function AsyncOthers<R>(fifo: bool, ps: seq<AsyncPending<R>>): seq<AsyncPending<R>>
    requires ps != []
  {
    if fifo then ps[1..] else ps[..|ps| - 1]
  }

  /** One pass of the asynchronous loop is one pass of the synchronous loop on the tree in memory. */
  lemma AsyncTakeOne<R>(view: View<R>, fifo: bool, ps: seq<AsyncPending<R>>, out: seq<AsyncItem<R>>)
    requires ps != [] && AllSound(view, ps)
    ensures
      var p := AsyncFront(fifo, ps);
      var next := AsyncOthers(fifo, ps) + AsyncChildren(view, p);
      && ForgetItems(view, out) + Remaining(fifo, ForgetAll(view, ps), view.now) ==
         ForgetItems(view, out + AsyncYield(p, view.now)) + Remaining(fifo, ForgetAll(view, next), view.now)
      && TotalSize(ForgetAll(view, next)) < TotalSize(ForgetAll(view, ps))
      && AllSound(view, next)
  {
    var p := AsyncFront(fifo, ps);
    var next := AsyncOthers(fifo, ps) + AsyncChildren(view, p);
    NextSound(view, fifo, ps);
    assert ForgetItems(view, out + AsyncYield(p, view.now)) == ForgetItems(view, out) + Yield(Forget(view, p), view.now) by {
      ForgetYield(view, p);
    }
    assert Front(fifo, ForgetAll(view, ps)) == Forget(view, p);
    assert Others(fifo, ForgetAll(view, ps)) == ForgetAll(view, AsyncOthers(fifo, ps));
    ForgetChildren(view, p);
    ForgetAppend(view, AsyncOthers(fifo, ps), AsyncChildren(view, p));
    TakeOne(fifo, ForgetAll(view, ps), ForgetItems(view, out), view.now);
  }

  lemma NextSound<R>(view: View<R>, fifo: bool, ps: seq<AsyncPending<R>>)
    requires ps != [] && AllSound(view, ps)
    ensures AllSound(view, AsyncOthers(fifo, ps) + AsyncChildren(view, AsyncFront(fifo, ps)))
  {
    var p := AsyncFront(fifo, ps);
    match p.any
    case KeyRef(ref, _) => KeyEntriesSound(view, ref, ListedChildren(view, ref), p.level + 1, AsyncNode(p));
    case Plain(tree) => PlainEntriesSound(view, KidsOf(tree), p.level + 1, AsyncNode(p));
  }

  function AsyncStartItems<R>(root: AnyTree<R>, startRef: Option<Chained>, now: Time): seq<AsyncItem<R>>
  {
    if startRef.Some? then [AsyncItem(startRef.value, AnyValue(root, now), root)] else []
  }

  /** What has been yielded together with all that is still to come. */
  ghost function AsyncTotal<R>(view: View<R>, fifo: bool, ps: seq<AsyncPending<R>>, out: seq<AsyncItem<R>>): seq<Item<R>>
  {
    ForgetItems(view, out) + Remaining(fifo, ForgetAll(view, ps), view.now)
  }

  /** One pass of the loop keeps that total. */
  method AsyncRound<R>(view: View<R>, list: AsyncWorklist<AsyncPending<R>>, out: seq<AsyncItem<R>>)
    returns (more: bool, out': seq<AsyncItem<R>>)
    requires list.Valid() && AllSound(view, list.contents)
    modifies list.Repr
    ensures list.Valid() && fresh(list.Repr - old(list.Repr)) && AllSound(view, list.contents)
    ensures AsyncTotal(view, list.fifo, list.contents, out') == AsyncTotal(view, list.fifo, old(list.contents), out)
    ensures !more ==> list.contents == []
    ensures more ==> TotalSize(ForgetAll(view, list.contents)) < TotalSize(ForgetAll(view, old(list.contents)))
  {
    if list.contents != [] {
      AsyncTakeOne(view, list.fifo, list.contents, out);
    }
    var items := AsyncPass(view, list);
    more := items.Some?;
    out' := if more then out + items.value else out;
  }

  /** `asyncTreePreOrderTraversal`: the lazy traversal of the storage yields, in the same order, the same nodes as
      the synchronous traversal of the tree in memory. It ends when the list is empty, or on an empty `pop`. */
  method AsyncTreePreOrderTraversal<R>(view: View<R>, root: AnyTree<R>, list: AsyncWorklist<AsyncPending<R>>, startRef: Option<Chained>)
    returns (out: seq<AsyncItem<R>>)
    requires list.Valid() && list.contents == [] && Sound(view, root)
    modifies list.Repr
    ensures
      var tree := Materialized(view, root);
      ForgetItems(view, out) == StartItems(tree, startRef, view.now) +
        if list.fifo then LevelOrder([Start(tree, startRef)], view.now) else DepthFirst(Start(tree, startRef), view.now)
  {
    out := AsyncStartItems(root, startRef, view.now);
    var start := AsyncPending(root, RefLevel(startRef), None, startRef);
    list.Push(start);
    assert list.contents == [start];
    ForgetStart(view, root, startRef);
    ghost var first := Start(Materialized(view, root), startRef);
    ghost var total := AsyncTotal(view, list.fifo, list.contents, out);
    while list.Length() > 0
      invariant list.Valid() && fresh(list.Repr - old(list.Repr)) && AllSound(view, list.contents)
      invariant total == AsyncTotal(view, list.fifo, list.contents, out)
      decreases TotalSize(ForgetAll(view, list.contents))
    {
      var more;
      more, out := AsyncRound(view, list, out);
      if !more {
        break;
      }
    }
    assert ForgetAll(view, list.contents) == [];
    RemainingAtStart(list.fifo, first, ForgetItems(view, out), view.now);
  }

  // ----- the traversed tree is the tree that readers see

  /** Every key level step of the path is listed under its parent. */
  ghost predicate Listed<R>(view: View<R>, ref: Option<Chained>, q: Path)
    decreases q
  {
    q != [] && RefLevel(ref) < view.K ==>
      && q[0] in ListedChildren(view, ref)
      && Listed(view, Some(Chained(q[0], RefLevel(ref) + 1, ref)), q[1..])
  }

  lemma {:induction false} FindMaterialized<R>(view: View<R>, ref: Option<Chained>, keys: seq<Key>, k: Key)
    requires RefLevel(ref) < view.K && k in keys
    ensures
      var any := ChildRef(view, ref, k);
      Find(MaterializedKids(view, ref, keys), k) == if any.Some? then Some(Materialized(view, any.value)) else None
  {
    if keys[0] == k {
      if ChildRef(view, ref, k).None? {
        NothingMaterialized(view, ref, keys, k);
      }
    } else {
      FindMaterialized(view, ref, keys[1..], k);
    }
  }

  lemma {:induction false} NothingMaterialized<R>(view: View<R>, ref: Option<Chained>, keys: seq<Key>, k: Key)
    requires RefLevel(ref) < view.K && ChildRef(view, ref, k).None?
    ensures Find(MaterializedKids(view, ref, keys), k).None?
  {
    if keys != [] {
      NothingMaterialized(view, ref, keys[1..], k);
    }
  }

  /** The storage read below a key level node. */
  lemma ReadAtChild<V(!new), R(!new)>(codec: Codec<V, R>, view: View<R>, ref: Option<Chained>, q: Path)
    requires RefLevel(ref) < view.K && |BasePath(ref)| == RefLevel(ref) && q != []
    ensures
      var child := Chained(q[0], RefLevel(ref) + 1, ref);
      var stored := StorageGet(view.storage, Join(ChainPath(child)), view.now);
      && BasePath(Some(child)) + q[1..] == BasePath(ref) + q && |BasePath(Some(child))| == child.level
      && (child.level < view.K && |q| == 1 ==>
            ReadBytes(codec, view.K, view.storage, BasePath(ref) + q, view.now) == stored)
      && (child.level == view.K ==>
            ReadBytes(codec, view.K, view.storage, BasePath(ref) + q, view.now) ==
            if stored.None? then None else Lookup(codec.deserializeTree(stored.value), q[1..], view.now))
  {
    var child := Chained(q[0], RefLevel(ref) + 1, ref);
    var full := BasePath(ref) + q;
    assert ChainPath(child) == BasePath(ref) + [q[0]];
    assert full == ChainPath(child) + q[1..];
    if |q| == 1 {
      assert full == ChainPath(child);
    }
    if child.level == view.K {
      assert full[..view.K] == ChainPath(child) && full[view.K..] == q[1..];
    }
  }

  /** The tree in memory, one step down. */
  lemma LookupAtChild<R>(view: View<R>, ref: Option<Chained>, value: Option<R>, q: Path)
    requires RefLevel(ref) < view.K && q != [] && q[0] in ListedChildren(view, ref)
    ensures
      var any := ChildRef(view, ref, q[0]);
      Lookup(Materialized(view, KeyRef(ref, value)), q, view.now) ==
      if any.Some? then Lookup(Materialized(view, any.value), q[1..], view.now) else None
  {
    FindMaterialized(view, ref, ListedChildren(view, ref), q[0]);
  }

  /** Below a key level node with a correct registry, the tree in memory reads like the storage. */
  lemma {:induction false} MaterializedReads<V(!new), R(!new)>(codec: Codec<V, R>, view: View<R>, ref: Option<Chained>, value: Option<R>, q: Path)
    requires view.deserializeTree == codec.deserializeTree
    requires RefLevel(ref) < view.K && |BasePath(ref)| == RefLevel(ref)
    requires q != [] && Listed(view, ref, q)
    ensures Lookup(Materialized(view, KeyRef(ref, value)), q, view.now) ==
            ReadBytes(codec, view.K, view.storage, BasePath(ref) + q, view.now)
    decreases q
  {
    var child := Chained(q[0], RefLevel(ref) + 1, ref);
    var stored := StorageGet(view.storage, Join(ChainPath(child)), view.now);
    LookupAtChild(view, ref, value, q);
    ReadAtChild(codec, view, ref, q);
    if child.level < view.K {
      if |q| == 1 {
        assert q[1..] == [];
        assert Live(Materialized(view, KeyRef(Some(child), stored)), view.now) == stored;
      } else {
        MaterializedReads(codec, view, Some(child), stored, q[1..]);
      }
    }
  }

  // ----- each node once

  /** The registry lists each child once, and deserialized trees have each key once. */
  ghost predicate ListsOnce<R(!new)>(view: View<R>)
  {
    && (forall parent, i, j :: 0 <= i < j < |view.getChildren(parent)| ==> view.getChildren(parent)[i] != view.getChildren(parent)[j])
    && (forall b :: WellKeyed(view.deserializeTree(b)))
  }

  /** Below a key level node there are exactly the listed children that are key level nodes or stored, in the order of
      the list. */
  lemma {:induction false} ListedInOrder<R>(view: View<R>, ref: Option<Chained>, keys: seq<Key>, present: set<Key>)
    requires RefLevel(ref) < view.K && forall k :: k in keys ==> (k in present <==> ChildRef(view, ref, k).Some?)
    ensures KeyList(MaterializedKids(view, ref, keys)) == Keep(keys, present)
  {
    if keys != [] {
      ListedInOrder(view, ref, keys[1..], present);
    }
  }

  lemma {:induction false} KeptAreListed(keys: seq<Key>, present: set<Key>, k: Key)
    ensures k in Keep(keys, present) <==> k in keys && k in present
  {
    if keys != [] {
      KeptAreListed(keys[1..], present, k);
    }
  }

  /** With such a registry the tree in memory has each key once, so every traversal of the storage yields each node once. */
  lemma {:induction false} MaterializedWellKeyed<R(!new)>(view: View<R>, any: AnyTree<R>)
    requires ListsOnce(view) && (any.Plain? ==> WellKeyed(any.tree))
    ensures WellKeyed(Materialized(view, any))
    decreases Depth(view, any), 1, 0
  {
    if any.KeyRef? && RefLevel(any.nodeRef) < view.K {
      KidsWellKeyed(view, any.nodeRef, ListedChildren(view, any.nodeRef));
    }
  }

  lemma {:induction false} KidsWellKeyed<R(!new)>(view: View<R>, ref: Option<Chained>, keys: seq<Key>)
    requires ListsOnce(view) && RefLevel(ref) < view.K
    requires forall i, j :: 0 <= i < j < |keys| ==> keys[i] != keys[j]
    ensures WellKeyedKids(MaterializedKids(view, ref, keys))
    decreases view.K - RefLevel(ref), 0, |keys|
  {
    if keys != [] {
      KidsWellKeyed(view, ref, keys[1..]);
      var any := ChildRef(view, ref, keys[0]);
      if any.Some? {
        MaterializedWellKeyed(view, any.value);
        UnlistedKey(view, ref, keys[1..], keys[0]);
      }
    }
  }

  lemma {:induction false} UnlistedKey<R>(view: View<R>, ref: Option<Chained>, keys: seq<Key>, k: Key)
    requires RefLevel(ref) < view.K && k !in keys
    ensures k !in KeySet(MaterializedKids(view, ref, keys))
  {
    if keys != [] {
      UnlistedKey(view, ref, keys[1..], k);
    }
  }

  /** Each node of the storage is yielded once, depth first and breadth first. */
  lemma LazyNodesOnce<R(!new)>(view: View<R>, root: AnyTree<R>, p: Path)
    requires ListsOnce(view) && (root.Plain? ==> WellKeyed(root.tree))
    requires p != [] && At(Materialized(view, root), p).Some?
    ensures
      var start := Start(Materialized(view, root), None);
      var x := ItemAt(KidsOf(start.tree), None, 1, p, view.now);
      multiset(LevelOrder([start], view.now))[x] == 1 && multiset(DepthFirst(start, view.now))[x] == 1
  {
    var tree := Materialized(view, root);
    MaterializedWellKeyed(view, root);
    assert At(Tree(None, None, Some(KidsOf(tree))), p) == At(tree, p);
    NodesOnce(KidsOf(tree), 1, None, view.now, p);
    StartPermutes(Start(tree, None), view.now);
    assert DepthFirst(Start(tree, None), view.now) == PreOrderKids(KidsOf(tree), 1, None, view.now);
  }
}

/** `fullTreeSet`: a breadth first search over the input tree that stores each key level node under its
    own key and hands every subtree of the key level to `saveFullTreeValue`. */
module FullTreeSets {
  import opened Wrappers
  import opened Keys
  import opened Trees
  import opened HybridStore
  import opened PathMap
  import opened Traversal
  import opened Orders
  import opened SaveTree

  // ----- the nodes visited

  /** The items before the loop breaks, at the first one below the key level. */
  function Outer<V>(K: nat, items: seq<Item<V>>): seq<Item<V>>
  {
    if items == [] || items[0].ref.level > K then [] else [items[0]] + Outer(K, items[1..])
  }

  /** All nodes visited: a subtree of the key level is visited by the inner depth first search. */
  function Visits<V>(K: nat, items: seq<Item<V>>, now: Time): seq<Item<V>>
  {
    if items == [] then []
    else
      (if items[0].ref.level < K then [items[0]] else PreOrder(items[0].tree, items[0].ref, now)) +
      Visits(K, items[1..], now)
  }

  lemma {:induction false} OuterAppend<V>(K: nat, xs: seq<Item<V>>, ys: seq<Item<V>>)
    requires forall i :: 0 <= i < |xs| ==> xs[i].ref.level <= K
    ensures Outer(K, xs + ys) == xs + Outer(K, ys)
  {
    if xs == [] {
      assert xs + ys == ys;
    } else {
      assert (xs + ys)[1..] == xs[1..] + ys;
      OuterAppend(K, xs[1..], ys);
    }
  }

  lemma {:induction false} VisitsAppend<V>(K: nat, xs: seq<Item<V>>, ys: seq<Item<V>>, now: Time)
    ensures Visits(K, xs + ys, now) == Visits(K, xs, now) + Visits(K, ys, now)
  {
    if xs == [] {
      assert xs + ys == ys;
    } else {
      assert (xs + ys)[1..] == xs[1..] + ys;
      VisitsAppend(K, xs[1..], ys, now);
    }
  }

  lemma {:induction false} VisitsAbove<V>(K: nat, items: seq<Item<V>>, now: Time)
    requires forall i :: 0 <= i < |items| ==> items[i].ref.level < K
    ensures Visits(K, items, now) == items
  {
    if items != [] {
      VisitsAbove(K, items[1..], now);
    }
  }

  lemma {:induction false} VisitsKeyLevel<V>(K: nat, ps: seq<Pending<V>>, now: Time)
    requires AllAtLevel(ps, K) && forall i :: 0 <= i < |ps| ==> ps[i].key.Some?
    ensures multiset(Visits(K, YieldAll(ps, now), now)) == BagOf(ps, now)
  {
    if ps != [] {
      VisitsKeyLevel(K, ps[1..], now);
      var ref := Chained(ps[0].key.value, K, ps[0].parentRef);
      var items := YieldAll(ps, now);
      assert items[0] == Item(ref, Live(ps[0].tree, now), ps[0].tree) && items[1..] == YieldAll(ps[1..], now);
      assert DepthFirst(ps[0], now) == PreOrder(ps[0].tree, ref, now);
      assert Visits(K, items, now) == DepthFirst(ps[0], now) + Visits(K, items[1..], now);
    }
  }

  lemma {:induction false} EntriesKeyed<V>(ks: Kids<V>, level: nat, parent: Option<Chained>)
    ensures forall i :: 0 <= i < |Entries(ks, level, parent)| ==> Entries(ks, level, parent)[i].key.Some?
  {
    match ks
    case End =>
    case Entry(_, _, rest) => EntriesKeyed(rest, level, parent);
  }

  lemma {:induction false} NextLevelKeyed<V>(ps: seq<Pending<V>>)
    ensures forall i :: 0 <= i < |NextLevel(ps)| ==> NextLevel(ps)[i].key.Some?
  {
    if ps != [] {
      NextLevelKeyed(ps[1..]);
      EntriesKeyed(KidsOf(ps[0].tree), ps[0].level + 1, NodeOf(ps[0]));
    }
  }

  /** Nothing is skipped by the break and nothing is visited by both searches. */
  lemma {:induction false} LevelsVisited<V>(K: nat, ps: seq<Pending<V>>, level: nat, now: Time)
    requires AllAtLevel(ps, level) && level <= K
    requires level == K ==> forall i :: 0 <= i < |ps| ==> ps[i].key.Some?
    ensures multiset(Visits(K, Outer(K, LevelOrder(ps, now)), now)) == BagOf(ps, now)
    decreases K - level
  {
    if ps != [] {
      var here, below := YieldAll(ps, now), LevelOrder(NextLevel(ps), now);
      YieldAllLevel(ps, level, now);
      OuterAppend(K, here, below);
      VisitsAppend(K, here, Outer(K, below), now);
      NextLevelLevel(ps, level);
      NextLevelKeyed(ps);
      if level == K {
        LevelOrderRises(NextLevel(ps), K + 1, now);
        VisitsKeyLevel(K, ps, now);
        assert here + [] == here;
      } else {
        VisitsAbove(K, here, now);
        LevelsVisited(K, NextLevel(ps), level + 1, now);
        LevelSplitsBag(ps, now);
      }
    }
  }

  /** `fullTreeSet` visits the nodes of the input tree below its root, each as often as the tree has it: once. */
  lemma VisitsEachNodeOnce<V>(K: nat, tree: Tree<V>, now: Time)
    requires K >= 1
    ensures multiset(Visits(K, Outer(K, LevelOrder([Start(tree, None)], now)), now)) ==
            multiset(PreOrderKids(KidsOf(tree), 1, None, now))
  {
    var p := Start(tree, None);
    LevelsVisited(K, [p], 0, now);
    assert [p][1..] == [];
    assert DepthFirst(p, now) == PreOrderKids(KidsOf(tree), 1, None, now);
  }

  // ----- the effect on the storage

  /** The pass of the loop for a node above the key level. */
  function KeyOverlay<V(!new), R(!new, ==)>(codec: Codec<V, R>, fs: FullSet<V>, st: Storage<R>, item: Item<V>): Storage<R>
  {
    var q := ChainPath(item.ref);
    var key := Join(q);
    var current := StorageGet(st, key, fs.now);
    var earlier := if current.Some? then codec.Decode(current) else fs.create(q);
    var value := fs.edit(q, if item.value.Some? then item.value else earlier, earlier);
    PersistStep(codec, st, key, current, value, fs.ttl(q, value), fs.now)
  }

  /** The pass for a node of the key level: `saveFullTreeValue`. */
  function TreeOverlay<V(!new), R(!new, ==)>(codec: Codec<V, R>, fs: FullSet<V>, st: Storage<R>, item: Item<V>): Storage<R>
  {
    var key := Join(ChainPath(item.ref));
    var root := LoadTree(codec, StorageGet(st, key, fs.now));
    var level := item.ref.level;
    var s := SaveAll(codec, fs, level, Saving(root, map[level := []], false, None), PreOrder(item.tree, item.ref, fs.now));
    if s.Saving? && s.changed then PersistTree(codec, st, key, Millis(s.maxTtl), s.tree, fs.now) else st
  }

  function FullStep<V(!new), R(!new, ==)>(codec: Codec<V, R>, K: nat, fs: FullSet<V>, st: Storage<R>, item: Item<V>): Storage<R>
  {
    if item.ref.level < K then KeyOverlay(codec, fs, st, item) else TreeOverlay(codec, fs, st, item)
  }

  function FullSteps<V(!new), R(!new, ==)>(codec: Codec<V, R>, K: nat, fs: FullSet<V>, st: Storage<R>, items: seq<Item<V>>): Storage<R>
  {
    if items == [] then st
    else FullStep(codec, K, fs, FullSteps(codec, K, fs, st, items[..|items| - 1]), items[|items| - 1])
  }

  /** The storage after a whole call of `fullTreeSet`. */
  function FullTreeSetStore<V(!new), R(!new, ==)>(codec: Codec<V, R>, K: nat, fs: FullSet<V>, tree: Tree<V>, st: Storage<R>): Storage<R>
  {
    FullSteps(codec, K, fs, st, Outer(K, LevelOrder([Start(tree, None)], fs.now)))
  }

  // ----- each pass works on one key

  lemma FullStepFrame<V(!new), R(!new)>(codec: Codec<V, R>, K: nat, fs: FullSet<V>, st: Storage<R>, item: Item<V>, key: string)
    requires key != Join(ChainPath(item.ref))
    ensures SameRecord(FullStep(codec, K, fs, st, item), st, key)
  {
  }

  lemma PersistTreeLocal<V(!new), R(!new)>(codec: Codec<V, R>, st: Storage<R>, other: Storage<R>, key: string, ttl: Option<nat>, t: Tree<R>, now: Time)
    requires SameRecord(st, other, key)
    ensures SameRecord(PersistTree(codec, st, key, ttl, t, now), PersistTree(codec, other, key, ttl, t, now), key)
  {
  }

  lemma TreeOverlayLocal<V(!new), R(!new)>(codec: Codec<V, R>, fs: FullSet<V>, st: Storage<R>, other: Storage<R>, item: Item<V>)
    requires SameRecord(st, other, Join(ChainPath(item.ref)))
    ensures SameRecord(TreeOverlay(codec, fs, st, item), TreeOverlay(codec, fs, other, item), Join(ChainPath(item.ref)))
  {
    var key := Join(ChainPath(item.ref));
    var root := LoadTree(codec, StorageGet(st, key, fs.now));
    var level := item.ref.level;
    var s := SaveAll(codec, fs, level, Saving(root, map[level := []], false, None), PreOrder(item.tree, item.ref, fs.now));
    if s.Saving? && s.changed {
      PersistTreeLocal(codec, st, other, key, Millis(s.maxTtl), s.tree, fs.now);
    }
  }

  lemma KeyOverlayLocal<V(!new), R(!new)>(codec: Codec<V, R>, fs: FullSet<V>, st: Storage<R>, other: Storage<R>, item: Item<V>)
    requires SameRecord(st, other, Join(ChainPath(item.ref)))
    ensures SameRecord(KeyOverlay(codec, fs, st, item), KeyOverlay(codec, fs, other, item), Join(ChainPath(item.ref)))
  {
    var key := Join(ChainPath(item.ref));
    assert StorageGet(st, key, fs.now) == StorageGet(other, key, fs.now);
  }

  /** A pass depends on the record of its own key only. */
  lemma FullStepLocal<V(!new), R(!new)>(codec: Codec<V, R>, K: nat, fs: FullSet<V>, st: Storage<R>, other: Storage<R>, item: Item<V>)
    requires SameRecord(st, other, Join(ChainPath(item.ref)))
    ensures SameRecord(FullStep(codec, K, fs, st, item), FullStep(codec, K, fs, other, item), Join(ChainPath(item.ref)))
  {
    KeyOverlayLocal(codec, fs, st, other, item);
    TreeOverlayLocal(codec, fs, st, other, item);
  }

  lemma {:induction false} UntouchedKey<V(!new), R(!new)>(codec: Codec<V, R>, K: nat, fs: FullSet<V>, st: Storage<R>, items: seq<Item<V>>, key: string)
    requires forall i :: 0 <= i < |items| ==> Join(ChainPath(items[i].ref)) != key
    ensures SameRecord(FullSteps(codec, K, fs, st, items), st, key)
  {
    if items != [] {
      UntouchedKey(codec, K, fs, st, items[..|items| - 1], key);
      FullStepFrame(codec, K, fs, FullSteps(codec, K, fs, st, items[..|items| - 1]), items[|items| - 1], key);
    }
  }

  /** A key that one item alone works on holds what that item's pass makes of the first storage. */
  lemma {:induction false} OwnKey<V(!new), R(!new)>(codec: Codec<V, R>, K: nat, fs: FullSet<V>, st: Storage<R>, items: seq<Item<V>>, i: nat, key: string)
    requires i < |items| && key == Join(ChainPath(items[i].ref))
    requires forall j :: 0 <= j < |items| && j != i ==> Join(ChainPath(items[j].ref)) != key
    ensures SameRecord(FullSteps(codec, K, fs, st, items), FullStep(codec, K, fs, st, items[i]), key)
  {
    var before, last := items[..|items| - 1], items[|items| - 1];
    if i == |items| - 1 {
      UntouchedKey(codec, K, fs, st, before, key);
      FullStepLocal(codec, K, fs, FullSteps(codec, K, fs, st, before), st, last);
    } else {
      OwnKey(codec, K, fs, st, before, i, key);
      FullStepFrame(codec, K, fs, FullSteps(codec, K, fs, st, before), last, key);
    }
  }

  // ----- the items of the outer search

  /** No other node of the input tree down to level K is stored under the joined key of `r`. */
  ghost predicate OwnsKey<V>(K: nat, tree: Tree<V>, r: Path)
  {
    forall p: Path :: 0 < |p| <= K && At(tree, p).Some? && p != r ==> Join(p) != Join(r)
  }

  /** No key of the input tree down to level K holds the separator. */
  ghost predicate PlainKeys<V>(K: nat, tree: Tree<V>)
  {
    forall p: Path :: 0 < |p| <= K && At(tree, p).Some? ==> ColonFree(p)
  }

  /** Then every path without separators owns its key. */
  lemma PlainKeysAreOwned<V>(K: nat, tree: Tree<V>, r: Path)
    requires r != [] && ColonFree(r) && PlainKeys(K, tree)
    ensures OwnsKey(K, tree, r)
  {
    forall p: Path | 0 < |p| <= K && At(tree, p).Some? && p != r
      ensures Join(p) != Join(r)
    {
      JoinInjective(p, r);
    }
  }

  lemma {:induction false} OuterIndex<V>(K: nat, items: seq<Item<V>>, i: nat)
    requires Rising(items, 0) && i < |items| && items[i].ref.level <= K
    ensures i < |Outer(K, items)| <= |items| && Outer(K, items) == items[..|Outer(K, items)|]
  {
    if i > 0 {
      OuterIndex(K, items[1..], i - 1);
    }
    OuterIsPrefix(K, items);
  }

  lemma {:induction false} OuterIsPrefix<V>(K: nat, items: seq<Item<V>>)
    ensures |Outer(K, items)| <= |items| && Outer(K, items) == items[..|Outer(K, items)|]
  {
    if items != [] {
      OuterIsPrefix(K, items[1..]);
    }
  }

  /** The loop runs over the outer items and stops right after them. */
  lemma {:induction false} OuterStops<V>(K: nat, items: seq<Item<V>>)
    ensures |Outer(K, items)| <= |items| && Outer(K, items) == items[..|Outer(K, items)|]
    ensures |Outer(K, items)| < |items| ==> items[|Outer(K, items)|].ref.level > K
    ensures forall i :: 0 <= i < |Outer(K, items)| ==> items[i].ref.level <= K
  {
    if items != [] && items[0].ref.level <= K {
      OuterStops(K, items[1..]);
    }
  }

  lemma {:induction false} IndexOf<T>(xs: seq<T>, x: T) returns (i: nat)
    requires multiset(xs)[x] == 1
    ensures i < |xs| && xs[i] == x && forall j :: 0 <= j < |xs| && j != i ==> xs[j] != x
  {
    i :| i < |xs| && xs[i] == x;
    assert xs == xs[..i] + [x] + xs[i + 1..];
    assert multiset(xs) == multiset(xs[..i]) + multiset{x} + multiset(xs[i + 1..]);
    forall j | 0 <= j < |xs| && j != i
      ensures xs[j] != x
    {
      if j < i {
        assert xs[j] in xs[..i];
      } else {
        assert xs[j] == xs[i + 1..][j - i - 1];
      }
    }
  }

  lemma AtKids<V>(tree: Tree<V>, p: Path)
    requires p != []
    ensures At(Tree(None, None, Some(KidsOf(tree))), p) == At(tree, p)
  {
  }

  /** What the outer search goes over: the nodes below the root, in rising levels. */
  ghost predicate SearchOf<V>(tree: Tree<V>, items: seq<Item<V>>, now: Time)
  {
    multiset(items) == multiset(PreOrderKids(KidsOf(tree), 1, None, now)) && Rising(items, 0)
  }

  lemma LevelOrderSearches<V>(tree: Tree<V>, now: Time)
    ensures SearchOf(tree, LevelOrder([Start(tree, None)], now), now)
  {
    var p := Start(tree, None);
    SearchPermutes(p, tree, now);
    SearchRises(p, now);
  }

  lemma SearchPermutes<V>(p: Pending<V>, tree: Tree<V>, now: Time)
    requires p == Start(tree, None)
    ensures multiset(LevelOrder([p], now)) == multiset(PreOrderKids(KidsOf(tree), 1, None, now))
  {
    StartPermutes(p, now);
    assert Yield(p, now) == [] && DepthFirst(p, now) == PreOrderKids(KidsOf(tree), 1, None, now);
  }

  lemma SearchRises<V>(p: Pending<V>, now: Time)
    requires p.level == 0
    ensures Rising(LevelOrder([p], now), 0)
  {
    assert AllAtLevel([p], 0);
    LevelOrderRises([p], 0, now);
  }

  /** Every item of the search is the item of the node at its own path. */
  lemma ItemOfNode<V>(tree: Tree<V>, items: seq<Item<V>>, now: Time, x: Item<V>) returns (p: Path)
    requires WellKeyed(tree) && SearchOf(tree, items, now) && x in items
    ensures p != [] && At(tree, p).Some? && ChainPath(x.ref) == p && x == ItemOf(tree, p, now)
  {
    assert x in multiset(items);
    p := KidsItemsAreNodes(KidsOf(tree), 1, None, now, x);
    AtKids(tree, p);
    RefAtPath(None, 1, p);
    assert [] + p == p;
  }

  ghost function ItemOf<V>(tree: Tree<V>, p: Path, now: Time): Item<V>
    requires p != [] && At(tree, p).Some?
  {
    Item(RefAt(None, 1, p), Live(At(tree, p).value, now), At(tree, p).value)
  }

  /** An item of the outer search is that of a node of the key level or above. */
  lemma OuterNode<V>(K: nat, tree: Tree<V>, items: seq<Item<V>>, now: Time, j: nat) returns (p: Path)
    requires WellKeyed(tree) && SearchOf(tree, items, now) && j < |Outer(K, items)|
    ensures j < |items| && Outer(K, items)[j] == items[j]
    ensures 0 < |p| <= K && At(tree, p).Some? && ChainPath(items[j].ref) == p
    ensures items[j] == ItemOf(tree, p, now)
  {
    OuterStops(K, items);
    p := ItemOfNode(tree, items, now, items[j]);
    RefAtPath(None, 1, p);
  }

  lemma NodeIndex<V>(tree: Tree<V>, items: seq<Item<V>>, now: Time, r: Path) returns (i: nat)
    requires WellKeyed(tree) && SearchOf(tree, items, now) && r != [] && At(tree, r).Some?
    ensures i < |items| && items[i] == ItemOf(tree, r, now)
    ensures forall j :: 0 <= j < |items| && j != i ==> items[j] != ItemOf(tree, r, now)
  {
    AtKids(tree, r);
    NodesOnce(KidsOf(tree), 1, None, now, r);
    i := IndexOf(items, ItemOf(tree, r, now));
  }

  /** The one item of the outer search for the node at path `r` of the key level or above. */
  lemma OuterItem<V>(K: nat, tree: Tree<V>, items: seq<Item<V>>, now: Time, r: Path) returns (i: nat)
    requires WellKeyed(tree) && OwnsKey(K, tree, r) && SearchOf(tree, items, now)
    requires 0 < |r| <= K && At(tree, r).Some?
    ensures i < |Outer(K, items)| && Outer(K, items)[i] == ItemOf(tree, r, now)
    ensures ChainPath(ItemOf(tree, r, now).ref) == r && ItemOf(tree, r, now).ref.level == |r|
    ensures forall j :: 0 <= j < |Outer(K, items)| && j != i ==> Join(ChainPath(Outer(K, items)[j].ref)) != Join(r)
  {
    i := NodeIndex(tree, items, now, r);
    RefAtPath(None, 1, r);
    assert [] + r == r;
    OuterIndex(K, items, i);
    var outer := Outer(K, items);
    forall j | 0 <= j < |outer| && j != i
      ensures Join(ChainPath(outer[j].ref)) != Join(r)
    {
      var p := OuterNode(K, tree, items, now, j);
    }
  }

  lemma NoOuterItem<V>(K: nat, tree: Tree<V>, items: seq<Item<V>>, now: Time, r: Path)
    requires WellKeyed(tree) && OwnsKey(K, tree, r) && SearchOf(tree, items, now)
    requires r != [] && At(tree, r).None?
    ensures forall j :: 0 <= j < |Outer(K, items)| ==> Join(ChainPath(Outer(K, items)[j].ref)) != Join(r)
  {
    var outer := Outer(K, items);
    forall j | 0 <= j < |outer|
      ensures Join(ChainPath(outer[j].ref)) != Join(r)
    {
      var p := OuterNode(K, tree, items, now, j);
    }
  }

  // ----- what readers find

  /** Reading a path looks at one key only. */
  lemma ReadLocal<V(!new), R(!new)>(codec: Codec<V, R>, K: nat, st: Storage<R>, other: Storage<R>, q: Path, now: Time)
    requires K >= 1 && q != []
    requires SameRecord(st, other, Join(if |q| < K then q else q[..K]))
    ensures ReadBytes(codec, K, st, q, now) == ReadBytes(codec, K, other, q, now)
  {
  }

  /** A node above the key level gets what the consumer leaves in its item, given the input value, else its own,
      else what `createValue` gives; left without a value it is not written. */
  lemma KeyOverlayReads<V(!new), R(!new)>(codec: Codec<V, R>, K: nat, fs: FullSet<V>, st: Storage<R>, item: Item<V>, q: Path)
    requires codec.Lawful() && 0 < |q| < K && ChainPath(item.ref) == q
    ensures Read(codec, K, KeyOverlay(codec, fs, st, item), q, fs.now) ==
            KeySetAt(fs, item.value, Read(codec, K, st, q, fs.now), q)
  {
  }

  /** A subtree of the key level is laid over the stored tree. */
  lemma TreeOverlayReads<V(!new), R(!new)>(codec: Codec<V, R>, K: nat, fs: FullSet<V>, st: Storage<R>, item: Item<V>, q: Path)
    requires codec.Lawful() && 0 < K <= |q| && ChainPath(item.ref) == q[..K] && WellKeyed(item.tree)
    ensures
      var root := LoadTree(codec, StorageGet(st, Join(q[..K]), fs.now));
      ReadBytes(codec, K, TreeOverlay(codec, fs, st, item), q, fs.now) ==
      Overlaid(codec, fs, root, item.tree, q[..K], q[K..])
  {
    var key := Join(q[..K]);
    var root := LoadTree(codec, StorageGet(st, key, fs.now));
    var level := item.ref.level;
    var s0 := Saving(root, map[level := []], false, None);
    var s := SaveAll(codec, fs, level, s0, PreOrder(item.tree, item.ref, fs.now));
    SaveIsOverlay(codec, fs, root, item.tree, item.ref);
    OverlayReads(codec, fs, root, item.tree, q[..K], q[K..]);
    OverlayWellKeyed(codec, fs, root, item.tree, q[..K]);
    if s.changed {
      PersistTreeGet(codec, st, key, Millis(s.maxTtl), s.tree, fs.now, key);
    } else {
      QuietSave(codec, fs, level, s0, PreOrder(item.tree, item.ref, fs.now), q[K..]);
      BlankReads<R>(q[K..], fs.now);
    }
  }

  /** What the consumer leaves in the item of a node of its own key that held `before`. */
  function KeyLeft<V>(fs: FullSet<V>, input: Option<V>, before: Option<V>, q: Path): Option<V>
  {
    var earlier := if before.Some? then before else fs.create(q);
    fs.edit(q, if input.Some? then input else earlier, earlier)
  }

  /** What `fullTreeSet` leaves at such a node. */
  function KeySetAt<V>(fs: FullSet<V>, input: Option<V>, before: Option<V>, q: Path): Option<V>
  {
    var left := KeyLeft(fs, input, before, q);
    if left.Some? then left else before
  }

  /** What a tree node holds when its item is made: one that was not there is created first. */
  function Earlier<V, R>(fs: FullSet<V>, node: Option<Tree<R>>, before: Option<V>, q: Path): Option<V>
  {
    if node.Some? then before else fs.create(q)
  }

  /** What `fullTreeSet` leaves at a node of a tree that held `before`: left without a value it keeps what it held, and
      one that is past its deadline stays unreadable whatever is written to it. */
  function TreeSetAt<V, R>(fs: FullSet<V>, input: Option<V>, node: Option<Tree<R>>, before: Option<V>, q: Path): Option<V>
  {
    var left := fs.edit(q, input, Earlier(fs, node, before, q));
    if node.Some? && Expired(node.value.deadline, fs.now) then None
    else if left.Some? then left else Earlier(fs, node, before, q)
  }

  /** What `fullTreeSet` leaves at a path. */
  function FullSetAt<V(!new), R(!new)>(codec: Codec<V, R>, K: nat, fs: FullSet<V>, tree: Tree<V>, st: Storage<R>, q: Path): Option<V>
    requires K >= 1
  {
    var before := Read(codec, K, st, q, fs.now);
    match At(tree, q)
    case None => before
    case Some(n) =>
      if |q| < K then KeySetAt(fs, Live(n, fs.now), before, q)
      else TreeSetAt(fs, Live(n, fs.now), StoredNode(codec, K, st, q, fs.now), before, q)
  }

  lemma OverlaidIs<V(!new), R(!new)>(codec: Codec<V, R>, fs: FullSet<V>, root: Tree<R>, input: Tree<V>, n: Tree<V>, q: Path, s: Path)
    requires codec.Lawful() && At(input, s) == Some(n)
    ensures codec.Decode(Overlaid(codec, fs, root, input, q, s)) ==
            TreeSetAt(fs, Live(n, fs.now), At(root, s), codec.Decode(Lookup(root, s, fs.now)), q + s)
  {
  }

  /** `fullTreeSet` is an overlay of the input tree on the path map: every path outside the input reads as before, and
      every input node combines the input value, what was stored at its own path and what the consumer makes of them. */
  lemma FullTreeSetReads<V(!new), R(!new)>(codec: Codec<V, R>, K: nat, fs: FullSet<V>, tree: Tree<V>, st: Storage<R>, q: Path)
    requires codec.Lawful() && K >= 1 && WellKeyed(tree) && q != [] && OwnsKey(K, tree, Holder(K, q))
    ensures Read(codec, K, FullTreeSetStore(codec, K, fs, tree, st), q, fs.now) == FullSetAt(codec, K, fs, tree, st, q)
  {
    var r := Holder(K, q);
    var items := LevelOrder([Start(tree, None)], fs.now);
    LevelOrderSearches(tree, fs.now);
    var outer := Outer(K, items);
    var after := FullSteps(codec, K, fs, st, outer);
    if At(tree, r).None? {
      NoOuterItem(K, tree, items, fs.now, r);
      UntouchedKey(codec, K, fs, st, outer, Join(r));
      ReadLocal(codec, K, after, st, q, fs.now);
      MissingAbove(tree, r, q);
    } else {
      var i := OuterItem(K, tree, items, fs.now, r);
      OwnKey(codec, K, fs, st, outer, i, Join(r));
      ReadLocal(codec, K, after, FullStep(codec, K, fs, st, outer[i]), q, fs.now);
      if |q| < K {
        KeyOverlayReads(codec, K, fs, st, outer[i], q);
      } else {
        WellKeyedAt(tree, r);
        FullStepBelow(codec, K, fs, tree, st, outer[i], q);
      }
    }
  }

  /** With an input tree of plain keys that is what every path reads whose keys down to level K are plain. */
  lemma PlainFullTreeSetReads<V(!new), R(!new)>(codec: Codec<V, R>, K: nat, fs: FullSet<V>, tree: Tree<V>, st: Storage<R>)
    requires codec.Lawful() && K >= 1 && WellKeyed(tree) && PlainKeys(K, tree)
    ensures forall q: Path :: q != [] && ColonFree(Holder(K, q)) ==>
              Read(codec, K, FullTreeSetStore(codec, K, fs, tree, st), q, fs.now) == FullSetAt(codec, K, fs, tree, st, q)
  {
    forall q: Path | q != [] && ColonFree(Holder(K, q))
      ensures Read(codec, K, FullTreeSetStore(codec, K, fs, tree, st), q, fs.now) == FullSetAt(codec, K, fs, tree, st, q)
    {
      PlainKeysAreOwned(K, tree, Holder(K, q));
      FullTreeSetReads(codec, K, fs, tree, st, q);
    }
  }

  lemma FullStepBelow<V(!new), R(!new)>(codec: Codec<V, R>, K: nat, fs: FullSet<V>, tree: Tree<V>, st: Storage<R>, item: Item<V>, q: Path)
    requires codec.Lawful() && 0 < K <= |q| && At(tree, q[..K]).Some? && WellKeyed(At(tree, q[..K]).value)
    requires ChainPath(item.ref) == q[..K] && item.tree == At(tree, q[..K]).value && item.ref.level == K
    ensures Read(codec, K, FullStep(codec, K, fs, st, item), q, fs.now) == FullSetAt(codec, K, fs, tree, st, q)
  {
    TreeOverlayReads(codec, K, fs, st, item, q);
    DeepNode(tree, q, K);
    ReadsTree(codec, K, st, q, fs.now);
    if At(tree, q).Some? {
      var root := LoadTree(codec, StorageGet(st, Join(q[..K]), fs.now));
      OverlaidIs(codec, fs, root, item.tree, At(tree, q).value, q[..K], q[K..]);
    }
  }

  /** What the consumer leaves in the item of the input node at `q`. */
  function LeftInItem<V(!new), R(!new)>(codec: Codec<V, R>, K: nat, fs: FullSet<V>, tree: Tree<V>, st: Storage<R>, q: Path): Option<V>
    requires K >= 1 && At(tree, q).Some?
  {
    var input := Live(At(tree, q).value, fs.now);
    var before := Read(codec, K, st, q, fs.now);
    if |q| < K then KeyLeft(fs, input, before, q)
    else fs.edit(q, input, Earlier(fs, StoredNode(codec, K, st, q, fs.now), before, q))
  }

  /** The node stored in a tree for `q` is past its deadline. */
  predicate Stale<V(!new), R(!new)>(codec: Codec<V, R>, K: nat, st: Storage<R>, q: Path, now: Time)
  {
    0 < K <= |q| && StoredNode(codec, K, st, q, now).Some? && Expired(StoredNode(codec, K, st, q, now).value.deadline, now)
  }

  /** A value that the consumer leaves in an item is read back exactly when no deadline stored at its path has passed;
      at a node above the key level it always is. */
  lemma FullTreeSetReadsBack<V(!new), R(!new)>(codec: Codec<V, R>, K: nat, fs: FullSet<V>, tree: Tree<V>, st: Storage<R>, q: Path)
    requires codec.Lawful() && K >= 1 && WellKeyed(tree) && q != [] && OwnsKey(K, tree, Holder(K, q))
    requires At(tree, q).Some? && LeftInItem(codec, K, fs, tree, st, q).Some?
    ensures Read(codec, K, FullTreeSetStore(codec, K, fs, tree, st), q, fs.now) == LeftInItem(codec, K, fs, tree, st, q)
            <==> !Stale(codec, K, st, q, fs.now)
  {
    FullTreeSetReads(codec, K, fs, tree, st, q);
  }

  lemma MissingAbove<V>(tree: Tree<V>, r: Path, q: Path)
    requires r <= q && At(tree, r).None?
    ensures At(tree, q).None?
  {
    assert q == r + q[|r|..];
    AtThrough(tree, r, q[|r|..]);
  }

  lemma DeepNode<V>(tree: Tree<V>, q: Path, K: nat)
    requires K <= |q| && At(tree, q[..K]).Some?
    ensures At(tree, q) == At(At(tree, q[..K]).value, q[K..])
  {
    assert q == q[..K] + q[K..];
    AtThrough(tree, q[..K], q[K..]);
  }
}

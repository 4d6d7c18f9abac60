/** What the traversal orders contain: every node once, with its true level and parent chain. */
module Orders {
  import opened Wrappers
  import opened Keys
  import opened Trees
  import opened Worklists
  import opened Traversal

  /** The path of a parent reference, empty for the root of everything. */
  function BasePath(parent: Option<Chained>): Path
  {
    if parent.Some? then ChainPath(parent.value) else []
  }

  /** The reference of the node at path `p` below the children of `parent`. */
  function RefAt(parent: Option<Chained>, level: nat, p: Path): Chained
    requires p != []
    decreases p
  {
    var ref := Chained(p[0], level, parent);
    if |p| == 1 then ref else RefAt(Some(ref), level + 1, p[1..])
  }

  lemma {:induction false} RefAtPath(parent: Option<Chained>, level: nat, p: Path)
    requires p != []
    ensures ChainPath(RefAt(parent, level, p)) == BasePath(parent) + p
    ensures RefAt(parent, level, p).level == level + |p| - 1
    decreases p
  {
    var ref := Chained(p[0], level, parent);
    assert ChainPath(ref) == BasePath(parent) + [p[0]];
    if |p| == 1 {
      assert p == [p[0]];
    } else {
      RefAtPath(Some(ref), level + 1, p[1..]);
      assert (BasePath(parent) + [p[0]]) + p[1..] == BasePath(parent) + p;
    }
  }

  /** The item a traversal yields for the node at path `p` below the children `ks`. */
  function ItemAt<R>(ks: Kids<R>, parent: Option<Chained>, level: nat, p: Path, now: Time): Item<R>
    requires p != [] && At(Tree(None, None, Some(ks)), p).Some?
  {
    var n := At(Tree(None, None, Some(ks)), p).value;
    Item(RefAt(parent, level, p), Live(n, now), n)
  }

  // ----- every item is a node of the tree

  lemma {:induction false} PreOrderPrefix<R>(t: Tree<R>, ref: Chained, now: Time, x: Item<R>)
    requires x in PreOrder(t, ref, now)
    ensures ChainPath(ref) <= ChainPath(x.ref)
    ensures x.ref == ref || |ChainPath(ref)| < |ChainPath(x.ref)|
    decreases t
  {
    if x != Item(ref, Live(t, now), t) {
      PreOrderKidsPrefix(t.children.value, ref.level + 1, Some(ref), now, x);
    }
  }

  lemma {:induction false} PreOrderKidsPrefix<R>(ks: Kids<R>, level: nat, parent: Option<Chained>, now: Time, x: Item<R>)
    requires x in PreOrderKids(ks, level, parent, now)
    ensures
      var base := BasePath(parent);
      base <= ChainPath(x.ref) && |base| < |ChainPath(x.ref)| && ChainPath(x.ref)[|base|] in KeySet(ks)
    decreases ks
  {
    var ref := Chained(ks.key, level, parent);
    if x in PreOrder(ks.sub, ref, now) {
      PreOrderPrefix(ks.sub, ref, now, x);
      assert ChainPath(ref) == BasePath(parent) + [ks.key];
      assert ChainPath(ref)[|BasePath(parent)|] == ks.key;
    } else {
      PreOrderKidsPrefix(ks.rest, level, parent, now, x);
    }
  }

  /** Every item yielded below `ks` is the item of some node there. */
  lemma {:induction false} KidsItemsAreNodes<R>(ks: Kids<R>, level: nat, parent: Option<Chained>, now: Time, x: Item<R>) returns (p: Path)
    requires WellKeyedKids(ks) && x in PreOrderKids(ks, level, parent, now)
    ensures p != [] && At(Tree(None, None, Some(ks)), p).Some? && x == ItemAt(ks, parent, level, p, now)
    decreases ks
  {
    var ref := Chained(ks.key, level, parent);
    if x in PreOrderKids(ks.rest, level, parent, now) {
      p := KidsItemsAreNodes(ks.rest, level, parent, now, x);
      FindKeySet(ks.rest, p[0]);
    } else if x == Item(ref, Live(ks.sub, now), ks.sub) {
      p := [ks.key];
      assert p[1..] == [];
    } else {
      var q := KidsItemsAreNodes(ks.sub.children.value, level + 1, Some(ref), now, x);
      p := [ks.key] + q;
      assert p[1..] == q;
      assert At(ks.sub, q) == At(Tree(None, None, ks.sub.children), q);
    }
  }

  // ----- every node is yielded once

  lemma NotThere<R>(ks: Kids<R>, level: nat, parent: Option<Chained>, now: Time, x: Item<R>)
    requires
      var base := BasePath(parent);
      |ChainPath(x.ref)| <= |base| || ChainPath(x.ref)[|base|] !in KeySet(ks)
    ensures multiset(PreOrderKids(ks, level, parent, now))[x] == 0
  {
    if x in PreOrderKids(ks, level, parent, now) {
      PreOrderKidsPrefix(ks, level, parent, now, x);
    }
  }

  lemma NotBelow<R>(t: Tree<R>, ref: Chained, now: Time, x: Item<R>)
    requires !(ChainPath(ref) <= ChainPath(x.ref))
    ensures multiset(PreOrder(t, ref, now))[x] == 0
  {
    if x in PreOrder(t, ref, now) {
      PreOrderPrefix(t, ref, now, x);
    }
  }

  /** The node at path `p` appears exactly once, with its own reference, value and subtree. */
  lemma {:induction false} NodesOnce<R>(ks: Kids<R>, level: nat, parent: Option<Chained>, now: Time, p: Path)
    requires WellKeyedKids(ks) && p != [] && At(Tree(None, None, Some(ks)), p).Some?
    ensures multiset(PreOrderKids(ks, level, parent, now))[ItemAt(ks, parent, level, p, now)] == 1
    decreases ks
  {
    var x := ItemAt(ks, parent, level, p, now);
    var ref := Chained(ks.key, level, parent);
    var base := BasePath(parent);
    RefAtPath(parent, level, p);
    assert ChainPath(x.ref)[|base|] == p[0];
    assert ChainPath(ref) == base + [ks.key];
    if ks.key == p[0] {
      NotThere(ks.rest, level, parent, now, x);
      NodeOnceInTree(ks.sub, ref, now, p[1..], x);
    } else {
      NodesOnce(ks.rest, level, parent, now, p);
      assert ChainPath(ref)[|base|] == ks.key;
      NotBelow(ks.sub, ref, now, x);
    }
  }

  lemma {:induction false} NodeOnceInTree<R>(t: Tree<R>, ref: Chained, now: Time, p: Path, x: Item<R>)
    requires WellKeyed(t) && At(t, p).Some?
    requires x == Item(if p == [] then ref else RefAt(Some(ref), ref.level + 1, p), Live(At(t, p).value, now), At(t, p).value)
    ensures multiset(PreOrder(t, ref, now))[x] == 1
    decreases t
  {
    if p == [] {
      if t.children.Some? {
        NotThere(t.children.value, ref.level + 1, Some(ref), now, x);
      }
    } else {
      var ks := t.children.value;
      assert At(t, p) == At(Tree(None, None, Some(ks)), p);
      NodesOnce(ks, ref.level + 1, Some(ref), now, p);
      RefAtPath(Some(ref), ref.level + 1, p);
      assert x.ref != ref;
    }
  }

  // ----- level order is a permutation of depth first order

  ghost function BagOf<R>(ps: seq<Pending<R>>, now: Time): multiset<Item<R>>
  {
    if ps == [] then multiset{} else multiset(DepthFirst(ps[0], now)) + BagOf(ps[1..], now)
  }

  lemma {:induction false} BagAppend<R>(ps: seq<Pending<R>>, qs: seq<Pending<R>>, now: Time)
    ensures BagOf(ps + qs, now) == BagOf(ps, now) + BagOf(qs, now)
  {
    if ps == [] {
      assert ps + qs == qs;
    } else {
      assert (ps + qs)[1..] == ps[1..] + qs;
      BagAppend(ps[1..], qs, now);
    }
  }

  lemma {:induction false} EntriesBag<R>(ks: Kids<R>, level: nat, parent: Option<Chained>, now: Time)
    ensures BagOf(Entries(ks, level, parent), now) == multiset(PreOrderKids(ks, level, parent, now))
  {
    match ks
    case End =>
    case Entry(key, sub, rest) =>
      EntriesBag(rest, level, parent, now);
      var p := Pending(sub, level, Some(key), parent);
      assert Entries(ks, level, parent)[1..] == Entries(rest, level, parent);
      assert DepthFirst(p, now) == PreOrder(sub, Chained(key, level, parent), now);
  }

  lemma {:induction false} LevelSplitsBag<R>(ps: seq<Pending<R>>, now: Time)
    ensures BagOf(ps, now) == multiset(YieldAll(ps, now)) + BagOf(NextLevel(ps), now)
  {
    if ps != [] {
      LevelSplitsBag(ps[1..], now);
      BagAppend(ChildEntries(ps[0]), NextLevel(ps[1..]), now);
      EntriesBag(KidsOf(ps[0].tree), ps[0].level + 1, NodeOf(ps[0]), now);
    }
  }

  /** Breadth first and depth first yield the same items, each as often. */
  lemma {:induction false} LevelOrderPermutes<R>(ps: seq<Pending<R>>, now: Time)
    ensures multiset(LevelOrder(ps, now)) == BagOf(ps, now)
    decreases TotalSize(ps)
  {
    if ps != [] {
      LevelSplitsBag(ps, now);
      NextLevelSize(ps);
      LevelOrderPermutes(NextLevel(ps), now);
    }
  }

  lemma StartPermutes<R>(p: Pending<R>, now: Time)
    ensures multiset(LevelOrder([p], now)) == multiset(DepthFirst(p, now))
  {
    LevelOrderPermutes([p], now);
    assert [p][1..] == [];
  }

  // ----- levels never decrease in level order

  predicate AllAtLevel<R>(ps: seq<Pending<R>>, level: nat)
  {
    forall i :: 0 <= i < |ps| ==> ps[i].level == level
  }

  predicate Rising<R>(items: seq<Item<R>>, level: nat)
  {
    && (forall i :: 0 <= i < |items| ==> level <= items[i].ref.level)
    && (forall i, j :: 0 <= i < j < |items| ==> items[i].ref.level <= items[j].ref.level)
  }

  lemma {:induction false} EntriesLevel<R>(ks: Kids<R>, level: nat, parent: Option<Chained>)
    ensures AllAtLevel(Entries(ks, level, parent), level)
  {
    match ks
    case End =>
    case Entry(_, _, rest) => EntriesLevel(rest, level, parent);
  }

  lemma {:induction false} NextLevelLevel<R>(ps: seq<Pending<R>>, level: nat)
    requires AllAtLevel(ps, level)
    ensures AllAtLevel(NextLevel(ps), level + 1)
  {
    if ps != [] {
      NextLevelLevel(ps[1..], level);
      EntriesLevel(KidsOf(ps[0].tree), level + 1, NodeOf(ps[0]));
    }
  }

  lemma {:induction false} YieldAllLevel<R>(ps: seq<Pending<R>>, level: nat, now: Time)
    requires AllAtLevel(ps, level)
    ensures forall i :: 0 <= i < |YieldAll(ps, now)| ==> YieldAll(ps, now)[i].ref.level == level
  {
    if ps != [] {
      YieldAllLevel(ps[1..], level, now);
    }
  }

  lemma {:induction false} LevelOrderRises<R>(ps: seq<Pending<R>>, level: nat, now: Time)
    requires AllAtLevel(ps, level)
    ensures Rising(LevelOrder(ps, now), level)
    decreases TotalSize(ps)
  {
    if ps != [] {
      YieldAllLevel(ps, level, now);
      NextLevelLevel(ps, level);
      NextLevelSize(ps);
      LevelOrderRises(NextLevel(ps), level + 1, now);
    }
  }

  // ----- post-order

  function PostOrder<R>(t: Tree<R>, ref: Chained, now: Time): seq<Item<R>>
  {
    (if t.children.Some? then PostOrderKids(t.children.value, ref.level + 1, Some(ref), now) else []) +
    [Item(ref, Live(t, now), t)]
  }

  function PostOrderKids<R>(ks: Kids<R>, level: nat, parent: Option<Chained>, now: Time): seq<Item<R>>
  {
    match ks
    case End => []
    case Entry(key, sub, rest) => PostOrder(sub, Chained(key, level, parent), now) + PostOrderKids(rest, level, parent, now)
  }

  function LevelOf(ref: Option<Chained>): nat
  {
    if ref.Some? then ref.value.level else 0
  }

  /** `treePostOrderTraversal` of a tree under the reference `root`, or of the root of everything. */
  function PostOrderFrom<R>(tree: Tree<R>, root: Option<Chained>, now: Time): seq<Item<R>>
  {
    PostOrderKids(KidsOf(tree), LevelOf(root) + 1, root, now) + StartItems(tree, root, now)
  }

  /** The traversal pushes the children to the list it is given and never takes one out, so the depth first and the
      breadth first variant yield the same items in the same order. */
  method TreePostOrderTraversal<R>(tree: Tree<R>, list: Worklist<(Tree<R>, Key, Option<Chained>)>, root: Option<Chained>, now: Time)
    returns (out: seq<Item<R>>)
    requires list.Valid()
    modifies list.Repr
    ensures list.Valid() && fresh(list.Repr - old(list.Repr))
    ensures out == PostOrderFrom(tree, root, now)
  {
    out := PostOrderRecursive(tree, list, root, None, now);
    if root.Some? {
      out := out + [Item(root.value, Live(tree, now), tree)];
    }
  }

  /** What the recursion yields for a node, which has a key unless it is the one the traversal starts from. */
  function PostOrderOf<R>(t: Tree<R>, parentRef: Option<Chained>, key: Option<Key>, now: Time): seq<Item<R>>
  {
    var level := LevelOf(parentRef) + 1;
    if key.Some? then PostOrder(t, Chained(key.value, level, parentRef), now)
    else PostOrderKids(KidsOf(t), level, parentRef, now)
  }

  method PostOrderRecursive<R>(t: Tree<R>, list: Worklist<(Tree<R>, Key, Option<Chained>)>, parentRef: Option<Chained>, key: Option<Key>, now: Time)
    returns (out: seq<Item<R>>)
    requires list.Valid()
    modifies list.Repr
    ensures list.Valid() && fresh(list.Repr - old(list.Repr))
    ensures out == PostOrderOf(t, parentRef, key, now)
    decreases t, 1
  {
    var node := if key.Some? then Some(Chained(key.value, LevelOf(parentRef) + 1, parentRef)) else None;
    var parent := if node.Some? then node else parentRef;
    out := PostOrderBelow(t, list, node, parent, LevelOf(parent) + 1, now);
    if node.Some? {
      out := out + [Item(node.value, Live(t, now), t)];
    }
  }

  /** The loop over the children. */
  method PostOrderBelow<R>(t: Tree<R>, list: Worklist<(Tree<R>, Key, Option<Chained>)>, node: Option<Chained>, parent: Option<Chained>, level: nat, now: Time)
    returns (out: seq<Item<R>>)
    requires list.Valid() && level == LevelOf(parent) + 1
    modifies list.Repr
    ensures list.Valid() && fresh(list.Repr - old(list.Repr))
    ensures out == PostOrderKids(KidsOf(t), level, parent, now)
    decreases t, 0
  {
    out := [];
    var ks := KidsOf(t);
    while ks.Entry?
      invariant list.Valid() && fresh(list.Repr - old(list.Repr))
      invariant if t.children.Some? then ks == t.children.value || ks < t.children.value else ks == End
      invariant out + PostOrderKids(ks, level, parent, now) == PostOrderKids(KidsOf(t), level, parent, now)
      decreases ks
    {
      list.Push((ks.sub, ks.key, node));
      var below := PostOrderRecursive(ks.sub, list, parent, Some(ks.key), now);
      Regroup(out, below, PostOrderKids(ks.rest, level, parent, now));
      out := out + below;
      ks := ks.rest;
    }
  }

  lemma LastIsFirst<T>(xs: seq<T>, ys: seq<T>, x: T)
    requires multiset(xs) == multiset(ys)
    ensures multiset(xs + [x]) == multiset([x] + ys)
  {
  }

  lemma {:induction false} PostOrderPermutes<R>(t: Tree<R>, ref: Chained, now: Time)
    ensures multiset(PostOrder(t, ref, now)) == multiset(PreOrder(t, ref, now))
    decreases t
  {
    var x := Item(ref, Live(t, now), t);
    if t.children.Some? {
      PostOrderKidsPermutes(t.children.value, ref.level + 1, Some(ref), now);
      LastIsFirst(PostOrderKids(t.children.value, ref.level + 1, Some(ref), now),
                  PreOrderKids(t.children.value, ref.level + 1, Some(ref), now), x);
    } else {
      LastIsFirst([], [], x);
    }
  }

  lemma {:induction false} PostOrderKidsPermutes<R>(ks: Kids<R>, level: nat, parent: Option<Chained>, now: Time)
    ensures multiset(PostOrderKids(ks, level, parent, now)) == multiset(PreOrderKids(ks, level, parent, now))
    decreases ks
  {
    match ks
    case End =>
    case Entry(key, sub, rest) =>
      PostOrderPermutes(sub, Chained(key, level, parent), now);
      PostOrderKidsPermutes(rest, level, parent, now);
  }

  /** The item `y` belongs to a node strictly below that of `x`. */
  predicate Below<R>(x: Item<R>, y: Item<R>)
  {
    |ChainPath(x.ref)| < |ChainPath(y.ref)| && ChainPath(x.ref) <= ChainPath(y.ref)
  }

  lemma PostOrderKidsPrefix<R>(ks: Kids<R>, level: nat, parent: Option<Chained>, now: Time, x: Item<R>)
    requires x in PostOrderKids(ks, level, parent, now)
    ensures
      var base := BasePath(parent);
      base <= ChainPath(x.ref) && |base| < |ChainPath(x.ref)| && ChainPath(x.ref)[|base|] in KeySet(ks)
  {
    PostOrderKidsPermutes(ks, level, parent, now);
    assert x in multiset(PostOrderKids(ks, level, parent, now));
    assert x in multiset(PreOrderKids(ks, level, parent, now));
    PreOrderKidsPrefix(ks, level, parent, now, x);
  }

  lemma PostOrderPrefix<R>(t: Tree<R>, ref: Chained, now: Time, x: Item<R>)
    requires x in PostOrder(t, ref, now)
    ensures ChainPath(ref) <= ChainPath(x.ref)
  {
    PostOrderPermutes(t, ref, now);
    assert x in multiset(PostOrder(t, ref, now));
    assert x in multiset(PreOrder(t, ref, now));
    PreOrderPrefix(t, ref, now, x);
  }

  /** Every node comes after all its descendants: nothing later lies below anything earlier. */
  lemma {:induction false} DescendantsFirst<R>(t: Tree<R>, ref: Chained, now: Time, i: nat, j: nat)
    requires WellKeyed(t) && i < j < |PostOrder(t, ref, now)|
    ensures !Below(PostOrder(t, ref, now)[i], PostOrder(t, ref, now)[j])
    decreases t
  {
    if t.children.Some? {
      var ks := t.children.value;
      var below := PostOrderKids(ks, ref.level + 1, Some(ref), now);
      PostOrderKidsPrefix(ks, ref.level + 1, Some(ref), now, below[i]);
      if j < |below| {
        DescendantsFirstKids(ks, ref.level + 1, Some(ref), now, i, j);
      }
    }
  }

  lemma {:induction false} DescendantsFirstKids<R>(ks: Kids<R>, level: nat, parent: Option<Chained>, now: Time, i: nat, j: nat)
    requires WellKeyedKids(ks) && i < j < |PostOrderKids(ks, level, parent, now)|
    ensures !Below(PostOrderKids(ks, level, parent, now)[i], PostOrderKids(ks, level, parent, now)[j])
    decreases ks
  {
    var ref := Chained(ks.key, level, parent);
    var first := PostOrder(ks.sub, ref, now);
    var rest := PostOrderKids(ks.rest, level, parent, now);
    if j < |first| {
      DescendantsFirst(ks.sub, ref, now, i, j);
    } else if i >= |first| {
      DescendantsFirstKids(ks.rest, level, parent, now, i - |first|, j - |first|);
    } else {
      PostOrderPrefix(ks.sub, ref, now, first[i]);
      PostOrderKidsPrefix(ks.rest, level, parent, now, rest[j - |first|]);
      assert ChainPath(ref)[|BasePath(parent)|] == ks.key;
    }
  }
}

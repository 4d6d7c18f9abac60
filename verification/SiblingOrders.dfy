/** Which of two nodes a traversal yields first. With every node yielded once, this leaves one possible order for each
    traversal. */
module SiblingOrders {
  import opened Wrappers
  import opened Keys
  import opened Trees
  import opened Traversal
  import opened Orders

  /** Key `a` comes before key `b` in the list. */
  predicate Before(keys: seq<Key>, a: Key, b: Key)
  {
    exists i, j :: 0 <= i < j < |keys| && keys[i] == a && keys[j] == b
  }

  /** Where the paths `p` and `q` below the children `ks` part, the key of `p` comes first in the children object. */
  predicate Precedes<R>(ks: Kids<R>, p: Path, q: Path)
    decreases p
  {
    && p != [] && q != []
    && if p[0] != q[0] then Before(KeyList(ks), p[0], q[0])
       else Find(ks, p[0]).Some? && Precedes(KidsOf(Find(ks, p[0]).value), p[1..], q[1..])
  }

  /** The path of an item below the node `parent`. */
  function PathBelow<R>(x: Item<R>, parent: Option<Chained>): Path
  {
    if |BasePath(parent)| <= |ChainPath(x.ref)| then ChainPath(x.ref)[|BasePath(parent)|..] else []
  }

  lemma FirstKeyBefore<R>(ks: Kids<R>, k: Key)
    requires ks.Entry? && k in KeyList(ks.rest)
    ensures Before(KeyList(ks), ks.key, k)
  {
    var j :| 0 <= j < |KeyList(ks.rest)| && KeyList(ks.rest)[j] == k;
    assert KeyList(ks)[0] == ks.key && KeyList(ks)[j + 1] == k;
  }

  lemma RestBefore<R>(ks: Kids<R>, a: Key, b: Key)
    requires ks.Entry? && Before(KeyList(ks.rest), a, b)
    ensures Before(KeyList(ks), a, b)
  {
    var keys := KeyList(ks.rest);
    var i, j :| 0 <= i < j < |keys| && keys[i] == a && keys[j] == b;
    assert KeyList(ks)[i + 1] == a && KeyList(ks)[j + 1] == b;
  }

  lemma RestPrecedes<R>(ks: Kids<R>, p: Path, q: Path)
    requires ks.Entry? && Precedes(ks.rest, p, q) && p[0] != ks.key
    ensures Precedes(ks, p, q)
  {
    if p[0] != q[0] {
      RestBefore(ks, p[0], q[0]);
    }
  }

  /** One step into the first child. */
  lemma SubPrecedes<R>(ks: Kids<R>, p: Path, q: Path)
    requires ks.Entry? && Precedes(KidsOf(ks.sub), p, q)
    ensures Precedes(ks, [ks.key] + p, [ks.key] + q)
  {
    var p', q' := [ks.key] + p, [ks.key] + q;
    assert p'[1..] == p && q'[1..] == q;
  }

  /** The path of an item below a child is its path below the parent without the first key. */
  lemma BelowChild<R>(x: Item<R>, key: Key, level: nat, parent: Option<Chained>)
    requires ChainPath(Chained(key, level, parent)) <= ChainPath(x.ref)
    ensures PathBelow(x, parent) == [key] + PathBelow(x, Some(Chained(key, level, parent)))
  {
    var base := BasePath(parent);
    assert ChainPath(Chained(key, level, parent)) == base + [key];
    assert ChainPath(x.ref)[|base|] == (base + [key])[|base|];
  }

  /** The first key of an item below the children is one of theirs. */
  lemma BelowKids<R>(ks: Kids<R>, level: nat, parent: Option<Chained>, now: Time, x: Item<R>)
    requires x in PreOrderKids(ks, level, parent, now)
    ensures PathBelow(x, parent) != [] && PathBelow(x, parent)[0] in KeyList(ks)
  {
    PreOrderKidsPrefix(ks, level, parent, now, x);
    KeyListIsKeySet(ks, PathBelow(x, parent)[0]);
  }

  // ----- depth first

  /** Depth first, on a stack: a node comes before all its descendants, and siblings come last to first. */
  lemma {:induction false} DepthFirstOrder<R>(ks: Kids<R>, level: nat, parent: Option<Chained>, now: Time, i: nat, j: nat)
    requires WellKeyedKids(ks) && i < j < |PreOrderKids(ks, level, parent, now)|
    ensures
      var items := PreOrderKids(ks, level, parent, now);
      var p, q := PathBelow(items[i], parent), PathBelow(items[j], parent);
      p < q || Precedes(ks, q, p)
    decreases ks
  {
    var rest := PreOrderKids(ks.rest, level, parent, now);
    var first := PreOrder(ks.sub, Chained(ks.key, level, parent), now);
    var items := PreOrderKids(ks, level, parent, now);
    assert forall n :: 0 <= n < |items| ==> items[n] == if n < |rest| then rest[n] else first[n - |rest|];
    if j < |rest| {
      DepthFirstOrder(ks.rest, level, parent, now, i, j);
      RestItems(ks, level, parent, now, rest[i], rest[j]);
    } else if i < |rest| {
      RestThenFirst(ks, level, parent, now, rest[i], first[j - |rest|]);
    } else {
      DepthFirstBelow(ks, level, parent, now, i - |rest|, j - |rest|);
    }
  }

  lemma RestItems<R>(ks: Kids<R>, level: nat, parent: Option<Chained>, now: Time, x: Item<R>, y: Item<R>)
    requires ks.Entry? && WellKeyedKids(ks) && y in PreOrderKids(ks.rest, level, parent, now)
    ensures Precedes(ks.rest, PathBelow(y, parent), PathBelow(x, parent)) ==> Precedes(ks, PathBelow(y, parent), PathBelow(x, parent))
  {
    BelowKids(ks.rest, level, parent, now, y);
    KeyListIsKeySet(ks.rest, ks.key);
    if Precedes(ks.rest, PathBelow(y, parent), PathBelow(x, parent)) {
      RestPrecedes(ks, PathBelow(y, parent), PathBelow(x, parent));
    }
  }

  lemma RestThenFirst<R>(ks: Kids<R>, level: nat, parent: Option<Chained>, now: Time, x: Item<R>, y: Item<R>)
    requires ks.Entry? && WellKeyedKids(ks)
    requires x in PreOrderKids(ks.rest, level, parent, now) && y in PreOrder(ks.sub, Chained(ks.key, level, parent), now)
    ensures Precedes(ks, PathBelow(y, parent), PathBelow(x, parent))
  {
    BelowKids(ks.rest, level, parent, now, x);
    PreOrderPrefix(ks.sub, Chained(ks.key, level, parent), now, y);
    BelowChild(y, ks.key, level, parent);
    KeyListIsKeySet(ks.rest, ks.key);
    FirstKeyBefore(ks, PathBelow(x, parent)[0]);
  }

  lemma RootThenBelow<R>(ks: Kids<R>, level: nat, parent: Option<Chained>, now: Time, y: Item<R>)
    requires ks.Entry? && ks.sub.children.Some?
    requires y in PreOrderKids(ks.sub.children.value, level + 1, Some(Chained(ks.key, level, parent)), now)
    ensures [ks.key] < PathBelow(y, parent)
    ensures PathBelow(y, parent) == [ks.key] + PathBelow(y, Some(Chained(ks.key, level, parent)))
  {
    var ref := Chained(ks.key, level, parent);
    assert y in PreOrder(ks.sub, ref, now);
    PreOrderPrefix(ks.sub, ref, now, y);
    BelowChild(y, ks.key, level, parent);
    BelowKids(ks.sub.children.value, level + 1, Some(ref), now, y);
  }

  /** What holds below the first child holds below its parent. */
  lemma StepBack<R>(ks: Kids<R>, p: Path, q: Path)
    requires ks.Entry? && (p < q || Precedes(KidsOf(ks.sub), q, p))
    ensures [ks.key] + p < [ks.key] + q || Precedes(ks, [ks.key] + q, [ks.key] + p)
  {
    if p < q {
      assert ([ks.key] + q)[..|p| + 1] == [ks.key] + p;
    } else {
      SubPrecedes(ks, q, p);
    }
  }

  lemma {:induction false} DepthFirstBelow<R>(ks: Kids<R>, level: nat, parent: Option<Chained>, now: Time, i: nat, j: nat)
    requires ks.Entry? && WellKeyedKids(ks) && i < j < |PreOrder(ks.sub, Chained(ks.key, level, parent), now)|
    ensures
      var items := PreOrder(ks.sub, Chained(ks.key, level, parent), now);
      var p, q := PathBelow(items[i], parent), PathBelow(items[j], parent);
      p < q || Precedes(ks, q, p)
    decreases ks, 0
  {
    var ref := Chained(ks.key, level, parent);
    var kids := ks.sub.children.value;
    var below := PreOrderKids(kids, level + 1, Some(ref), now);
    RootThenBelow(ks, level, parent, now, below[j - 1]);
    if i == 0 {
      assert ChainPath(ref) == BasePath(parent) + [ks.key];
    } else {
      RootThenBelow(ks, level, parent, now, below[i - 1]);
      DepthFirstOrder(kids, level + 1, Some(ref), now, i - 1, j - 1);
      StepBack(ks, PathBelow(below[i - 1], Some(ref)), PathBelow(below[j - 1], Some(ref)));
    }
  }

  // ----- post-order

  lemma BelowPostKids<R>(ks: Kids<R>, level: nat, parent: Option<Chained>, now: Time, x: Item<R>)
    requires x in PostOrderKids(ks, level, parent, now)
    ensures PathBelow(x, parent) != [] && PathBelow(x, parent)[0] in KeyList(ks)
  {
    PostOrderKidsPrefix(ks, level, parent, now, x);
    KeyListIsKeySet(ks, PathBelow(x, parent)[0]);
  }

  /** Post-order: a node comes after all its descendants, and siblings come first to last. */
  lemma {:induction false} PostOrderOrder<R>(ks: Kids<R>, level: nat, parent: Option<Chained>, now: Time, i: nat, j: nat)
    requires WellKeyedKids(ks) && i < j < |PostOrderKids(ks, level, parent, now)|
    ensures
      var items := PostOrderKids(ks, level, parent, now);
      var p, q := PathBelow(items[i], parent), PathBelow(items[j], parent);
      q < p || Precedes(ks, p, q)
    decreases ks
  {
    var first := PostOrder(ks.sub, Chained(ks.key, level, parent), now);
    var rest := PostOrderKids(ks.rest, level, parent, now);
    var items := PostOrderKids(ks, level, parent, now);
    assert forall n :: 0 <= n < |items| ==> items[n] == if n < |first| then first[n] else rest[n - |first|];
    if j < |first| {
      PostOrderBelowFirst(ks, level, parent, now, i, j);
    } else if i < |first| {
      FirstThenRest(ks, level, parent, now, first[i], rest[j - |first|]);
    } else {
      PostOrderOrder(ks.rest, level, parent, now, i - |first|, j - |first|);
      RestPostItems(ks, level, parent, now, rest[i - |first|], rest[j - |first|]);
    }
  }

  lemma RestPostItems<R>(ks: Kids<R>, level: nat, parent: Option<Chained>, now: Time, x: Item<R>, y: Item<R>)
    requires ks.Entry? && WellKeyedKids(ks) && x in PostOrderKids(ks.rest, level, parent, now)
    ensures Precedes(ks.rest, PathBelow(x, parent), PathBelow(y, parent)) ==> Precedes(ks, PathBelow(x, parent), PathBelow(y, parent))
  {
    BelowPostKids(ks.rest, level, parent, now, x);
    KeyListIsKeySet(ks.rest, ks.key);
    if Precedes(ks.rest, PathBelow(x, parent), PathBelow(y, parent)) {
      RestPrecedes(ks, PathBelow(x, parent), PathBelow(y, parent));
    }
  }

  lemma FirstThenRest<R>(ks: Kids<R>, level: nat, parent: Option<Chained>, now: Time, x: Item<R>, y: Item<R>)
    requires ks.Entry? && WellKeyedKids(ks)
    requires x in PostOrder(ks.sub, Chained(ks.key, level, parent), now) && y in PostOrderKids(ks.rest, level, parent, now)
    ensures Precedes(ks, PathBelow(x, parent), PathBelow(y, parent))
  {
    BelowPostKids(ks.rest, level, parent, now, y);
    PostOrderPrefix(ks.sub, Chained(ks.key, level, parent), now, x);
    BelowChild(x, ks.key, level, parent);
    KeyListIsKeySet(ks.rest, ks.key);
    FirstKeyBefore(ks, PathBelow(y, parent)[0]);
  }

  lemma {:induction false} PostOrderBelowFirst<R>(ks: Kids<R>, level: nat, parent: Option<Chained>, now: Time, i: nat, j: nat)
    requires ks.Entry? && WellKeyedKids(ks) && i < j < |PostOrder(ks.sub, Chained(ks.key, level, parent), now)|
    ensures
      var items := PostOrder(ks.sub, Chained(ks.key, level, parent), now);
      var p, q := PathBelow(items[i], parent), PathBelow(items[j], parent);
      q < p || Precedes(ks, p, q)
    decreases ks, 0
  {
    var ref := Chained(ks.key, level, parent);
    var items := PostOrder(ks.sub, ref, now);
    var kids := ks.sub.children.value;
    var below := PostOrderKids(kids, level + 1, Some(ref), now);
    PostOrderPrefix(ks.sub, ref, now, items[i]);
    PostOrderPrefix(ks.sub, ref, now, items[j]);
    BelowChild(items[i], ks.key, level, parent);
    BelowChild(items[j], ks.key, level, parent);
    assert items[i] == below[i];
    BelowPostKids(kids, level + 1, Some(ref), now, items[i]);
    if j < |below| {
      assert items[j] == below[j];
      PostOrderOrder(kids, level + 1, Some(ref), now, i, j);
      if Precedes(kids, PathBelow(items[i], Some(ref)), PathBelow(items[j], Some(ref))) {
        SubPrecedes(ks, PathBelow(items[i], Some(ref)), PathBelow(items[j], Some(ref)));
      }
    }
  }

  // ----- breadth first

  /** The path of a pending entry below `parent`. */
  function PathOf<R>(p: Pending<R>, parent: Option<Chained>): Path
  {
    var full := if p.key.Some? then BasePath(p.parentRef) + [p.key.value] else [];
    if |BasePath(parent)| <= |full| then full[|BasePath(parent)|..] else []
  }

  /** The entry is that of a node below the children `ks` of `parent`, at this level of them. */
  ghost predicate Entered<R>(ks: Kids<R>, parent: Option<Chained>, depth: nat, p: Pending<R>)
  {
    && p.key.Some? && BasePath(parent) <= BasePath(p.parentRef)
    && |PathOf(p, parent)| == depth + 1 && At(Tree(None, None, Some(ks)), PathOf(p, parent)) == Some(p.tree)
  }

  /** All entries are of one level, and in the order of their paths. */
  ghost predicate InOrder<R>(ks: Kids<R>, parent: Option<Chained>, depth: nat, ps: seq<Pending<R>>)
  {
    && (forall i :: 0 <= i < |ps| ==> Entered(ks, parent, depth, ps[i]))
    && (forall i, j :: 0 <= i < j < |ps| ==> Precedes(ks, PathOf(ps[i], parent), PathOf(ps[j], parent)))
  }

  lemma {:induction false} EntriesAt<R>(kids: Kids<R>, level: nat, node: Option<Chained>, i: nat)
    requires WellKeyedKids(kids) && i < |Entries(kids, level, node)|
    ensures |Entries(kids, level, node)| == |KeyList(kids)|
    ensures
      var p := Entries(kids, level, node)[i];
      && p.key == Some(KeyList(kids)[i]) && p.parentRef == node && Find(kids, KeyList(kids)[i]) == Some(p.tree)
    decreases kids
  {
    EntriesLength(kids.rest, level, node);
    if i > 0 {
      EntriesAt(kids.rest, level, node, i - 1);
      FindKeySet(kids.rest, KeyList(kids.rest)[i - 1]);
    }
  }

  lemma {:induction false} EntriesLength<R>(kids: Kids<R>, level: nat, node: Option<Chained>)
    ensures |Entries(kids, level, node)| == |KeyList(kids)|
  {
    match kids
    case End =>
    case Entry(_, _, rest) => EntriesLength(rest, level, node);
  }

  /** Paths that part stay in the order of where they part. */
  lemma {:induction false} PrecedesFurther<R>(ks: Kids<R>, p: Path, q: Path, r: Path, s: Path)
    requires Precedes(ks, p, q)
    ensures Precedes(ks, p + r, q + s)
    decreases p
  {
    if p[0] == q[0] {
      PrecedesFurther(KidsOf(Find(ks, p[0]).value), p[1..], q[1..], r, s);
      assert (p + r)[1..] == p[1..] + r && (q + s)[1..] == q[1..] + s;
    }
  }

  /** Two children of the node at `p` are in the order of their keys. */
  lemma {:induction false} SiblingsPrecede<R>(ks: Kids<R>, p: Path, a: Key, b: Key)
    requires p != [] && At(Tree(None, None, Some(ks)), p).Some? && a != b
    requires Before(KeyList(KidsOf(At(Tree(None, None, Some(ks)), p).value)), a, b)
    ensures Precedes(ks, p + [a], p + [b])
    decreases p
  {
    var sub := Find(ks, p[0]).value;
    assert (p + [a])[1..] == p[1..] + [a] && (p + [b])[1..] == p[1..] + [b];
    if |p| == 1 {
      assert p[1..] == [] && p[1..] + [a] == [a] && p[1..] + [b] == [b];
    } else {
      assert At(sub, p[1..]) == At(Tree(None, None, Some(KidsOf(sub))), p[1..]);
      SiblingsPrecede(KidsOf(sub), p[1..], a, b);
    }
  }

  lemma {:induction false} DistinctKeys<R>(ks: Kids<R>, i: nat, j: nat)
    requires WellKeyedKids(ks) && i < j < |KeyList(ks)|
    ensures KeyList(ks)[i] != KeyList(ks)[j]
  {
    if i == 0 {
      KeyListIsKeySet(ks.rest, KeyList(ks)[j]);
    } else {
      DistinctKeys(ks.rest, i - 1, j - 1);
    }
  }

  /** The entry of a child of an entered node. */
  lemma ChildEntered<R>(ks: Kids<R>, parent: Option<Chained>, depth: nat, p: Pending<R>, i: nat)
    requires WellKeyedKids(ks) && Entered(ks, parent, depth, p) && i < |ChildEntries(p)|
    ensures |ChildEntries(p)| == |KeyList(KidsOf(p.tree))| && WellKeyed(p.tree)
    ensures Entered(ks, parent, depth + 1, ChildEntries(p)[i])
    ensures PathOf(ChildEntries(p)[i], parent) == PathOf(p, parent) + [KeyList(KidsOf(p.tree))[i]]
  {
    WellKeyedAt(Tree(None, None, Some(ks)), PathOf(p, parent));
    EntriesAt(KidsOf(p.tree), p.level + 1, NodeOf(p), i);
    var c := ChildEntries(p)[i];
    assert BasePath(c.parentRef) == BasePath(p.parentRef) + [p.key.value];
    assert PathOf(c, parent) == PathOf(p, parent) + [KeyList(KidsOf(p.tree))[i]];
    AtSnoc(Tree(None, None, Some(ks)), PathOf(p, parent), KeyList(KidsOf(p.tree))[i]);
  }

  lemma ChildrenInOrder<R>(ks: Kids<R>, parent: Option<Chained>, depth: nat, p: Pending<R>)
    requires WellKeyedKids(ks) && Entered(ks, parent, depth, p)
    ensures InOrder(ks, parent, depth + 1, ChildEntries(p))
  {
    var cs, keys := ChildEntries(p), KeyList(KidsOf(p.tree));
    forall i | 0 <= i < |cs|
      ensures Entered(ks, parent, depth + 1, cs[i])
    {
      ChildEntered(ks, parent, depth, p, i);
    }
    forall i, j | 0 <= i < j < |cs|
      ensures Precedes(ks, PathOf(cs[i], parent), PathOf(cs[j], parent))
    {
      ChildEntered(ks, parent, depth, p, i);
      ChildEntered(ks, parent, depth, p, j);
      DistinctKeys(KidsOf(p.tree), i, j);
      SiblingsPrecede(ks, PathOf(p, parent), keys[i], keys[j]);
    }
  }

  /** A child of an earlier entry precedes a child of a later one. */
  lemma CousinsPrecede<R>(ks: Kids<R>, parent: Option<Chained>, depth: nat, p: Pending<R>, i: nat, q: Pending<R>, j: nat)
    requires WellKeyedKids(ks) && Entered(ks, parent, depth, p) && Entered(ks, parent, depth, q)
    requires Precedes(ks, PathOf(p, parent), PathOf(q, parent)) && i < |ChildEntries(p)| && j < |ChildEntries(q)|
    ensures Precedes(ks, PathOf(ChildEntries(p)[i], parent), PathOf(ChildEntries(q)[j], parent))
  {
    ChildEntered(ks, parent, depth, p, i);
    ChildEntered(ks, parent, depth, q, j);
    PrecedesFurther(ks, PathOf(p, parent), PathOf(q, parent),
                    [KeyList(KidsOf(p.tree))[i]], [KeyList(KidsOf(q.tree))[j]]);
  }

  lemma {:induction false} NextLevelEntry<R>(ps: seq<Pending<R>>, n: nat) returns (a: nat, i: nat)
    requires n < |NextLevel(ps)|
    ensures a < |ps| && i < |ChildEntries(ps[a])| && NextLevel(ps)[n] == ChildEntries(ps[a])[i]
  {
    var first := ChildEntries(ps[0]);
    if n < |first| {
      a, i := 0, n;
    } else {
      a, i := NextLevelEntry(ps[1..], n - |first|);
      a := a + 1;
    }
  }

  lemma {:induction false} NextLevelInOrder<R>(ks: Kids<R>, parent: Option<Chained>, depth: nat, ps: seq<Pending<R>>)
    requires WellKeyedKids(ks) && InOrder(ks, parent, depth, ps)
    ensures InOrder(ks, parent, depth + 1, NextLevel(ps))
  {
    if ps != [] {
      var first, later := ChildEntries(ps[0]), NextLevel(ps[1..]);
      NextLevelInOrder(ks, parent, depth, ps[1..]);
      ChildrenInOrder(ks, parent, depth, ps[0]);
      forall m, n | 0 <= m < |first| && 0 <= n < |later|
        ensures Precedes(ks, PathOf(first[m], parent), PathOf(later[n], parent))
      {
        var a, i := NextLevelEntry(ps[1..], n);
        CousinsPrecede(ks, parent, depth, ps[0], m, ps[1..][a], i);
      }
      JoinInOrder(ks, parent, depth + 1, first, later);
    }
  }

  lemma JoinInOrder<R>(ks: Kids<R>, parent: Option<Chained>, depth: nat, xs: seq<Pending<R>>, ys: seq<Pending<R>>)
    requires InOrder(ks, parent, depth, xs) && InOrder(ks, parent, depth, ys)
    requires forall m, n :: 0 <= m < |xs| && 0 <= n < |ys| ==> Precedes(ks, PathOf(xs[m], parent), PathOf(ys[n], parent))
    ensures InOrder(ks, parent, depth, xs + ys)
  {
  }

  lemma {:induction false} YieldInOrder<R>(ks: Kids<R>, parent: Option<Chained>, depth: nat, ps: seq<Pending<R>>, now: Time, i: nat)
    requires InOrder(ks, parent, depth, ps) && i < |ps|
    ensures |YieldAll(ps, now)| == |ps| && PathBelow(YieldAll(ps, now)[i], parent) == PathOf(ps[i], parent)
  {
    YieldLength(ks, parent, depth, ps, now);
    KeyedYield(ps, now, i);
    assert Entered(ks, parent, depth, ps[i]);
  }

  lemma {:induction false} KeyedYield<R>(ps: seq<Pending<R>>, now: Time, i: nat)
    requires (forall n :: 0 <= n < |ps| ==> ps[n].key.Some?) && i < |ps|
    ensures i < |YieldAll(ps, now)| && YieldAll(ps, now)[i].ref == Chained(ps[i].key.value, ps[i].level, ps[i].parentRef)
  {
    if i > 0 {
      KeyedYield(ps[1..], now, i - 1);
    }
  }

  lemma {:induction false} YieldLength<R>(ks: Kids<R>, parent: Option<Chained>, depth: nat, ps: seq<Pending<R>>, now: Time)
    requires InOrder(ks, parent, depth, ps)
    ensures |YieldAll(ps, now)| == |ps|
  {
    if ps != [] {
      YieldLength(ks, parent, depth, ps[1..], now);
    }
  }

  /** The first path is shorter, or as long and earlier. */
  predicate InTurn<R>(ks: Kids<R>, p: Path, q: Path)
  {
    |p| < |q| || (|p| == |q| && Precedes(ks, p, q))
  }

  /** The items are in turn, and all this deep at least. */
  predicate AllInTurn<R>(ks: Kids<R>, parent: Option<Chained>, depth: nat, items: seq<Item<R>>)
  {
    && (forall i :: 0 <= i < |items| ==> |PathBelow(items[i], parent)| >= depth)
    && (forall i, j :: 0 <= i < j < |items| ==> InTurn(ks, PathBelow(items[i], parent), PathBelow(items[j], parent)))
  }

  lemma SameLevel<R>(ks: Kids<R>, parent: Option<Chained>, depth: nat, ps: seq<Pending<R>>, i: nat, j: nat)
    requires InOrder(ks, parent, depth, ps) && i < |ps|
    ensures |PathOf(ps[i], parent)| == depth + 1
    ensures i < j < |ps| ==> InTurn(ks, PathOf(ps[i], parent), PathOf(ps[j], parent))
  {
    assert Entered(ks, parent, depth, ps[i]);
    if i < j < |ps| {
      assert Entered(ks, parent, depth, ps[j]);
    }
  }

  lemma YieldInTurn<R>(ks: Kids<R>, parent: Option<Chained>, depth: nat, ps: seq<Pending<R>>, now: Time)
    requires InOrder(ks, parent, depth, ps)
    ensures AllInTurn(ks, parent, depth + 1, YieldAll(ps, now))
    ensures forall i :: 0 <= i < |YieldAll(ps, now)| ==> |PathBelow(YieldAll(ps, now)[i], parent)| == depth + 1
  {
    var items := YieldAll(ps, now);
    YieldLength(ks, parent, depth, ps, now);
    forall i | 0 <= i < |items|
      ensures |PathBelow(items[i], parent)| == depth + 1
    {
      YieldInOrder(ks, parent, depth, ps, now, i);
      SameLevel(ks, parent, depth, ps, i, i);
    }
    forall i, j | 0 <= i < j < |items|
      ensures InTurn(ks, PathBelow(items[i], parent), PathBelow(items[j], parent))
    {
      YieldInOrder(ks, parent, depth, ps, now, i);
      YieldInOrder(ks, parent, depth, ps, now, j);
      SameLevel(ks, parent, depth, ps, i, j);
    }
  }

  lemma JoinInTurn<R>(ks: Kids<R>, parent: Option<Chained>, depth: nat, xs: seq<Item<R>>, ys: seq<Item<R>>)
    requires AllInTurn(ks, parent, depth, xs) && AllInTurn(ks, parent, depth + 1, ys)
    requires forall i :: 0 <= i < |xs| ==> |PathBelow(xs[i], parent)| == depth
    ensures AllInTurn(ks, parent, depth, xs + ys)
  {
    var items := xs + ys;
    forall i, j | 0 <= i < j < |items|
      ensures InTurn(ks, PathBelow(items[i], parent), PathBelow(items[j], parent))
    {
      assert items[i] == if i < |xs| then xs[i] else ys[i - |xs|];
      assert items[j] == if j < |xs| then xs[j] else ys[j - |xs|];
    }
  }

  lemma {:induction false} LevelsInOrder<R>(ks: Kids<R>, parent: Option<Chained>, depth: nat, ps: seq<Pending<R>>, now: Time)
    requires WellKeyedKids(ks) && InOrder(ks, parent, depth, ps)
    ensures AllInTurn(ks, parent, depth + 1, LevelOrder(ps, now))
    decreases TotalSize(ps)
  {
    if ps != [] {
      NextLevelSize(ps);
      YieldInTurn(ks, parent, depth, ps, now);
      NextLevelInOrder(ks, parent, depth, ps);
      LevelsInOrder(ks, parent, depth + 1, NextLevel(ps), now);
      JoinInTurn(ks, parent, depth + 1, YieldAll(ps, now), LevelOrder(NextLevel(ps), now));
    }
  }

  /** The children of the root are entered in order. */
  lemma FirstLevelInOrder<R>(ks: Kids<R>, level: nat, parent: Option<Chained>)
    requires WellKeyedKids(ks)
    ensures InOrder(ks, parent, 0, Entries(ks, level, parent))
  {
    var ps, keys := Entries(ks, level, parent), KeyList(ks);
    EntriesLength(ks, level, parent);
    forall i | 0 <= i < |ps|
      ensures Entered(ks, parent, 0, ps[i]) && PathOf(ps[i], parent) == [keys[i]]
    {
      EntriesAt(ks, level, parent, i);
      assert (BasePath(parent) + [keys[i]])[|BasePath(parent)|..] == [keys[i]];
      assert [keys[i]][1..] == [];
    }
    forall i, j | 0 <= i < j < |ps|
      ensures Precedes(ks, PathOf(ps[i], parent), PathOf(ps[j], parent))
    {
      DistinctKeys(ks, i, j);
    }
  }

  /** Breadth first, on a queue: level by level, and in a level siblings first to last, and the children of an earlier
      node before those of a later one. */
  lemma BreadthFirstOrder<R>(root: Tree<R>, startRef: Option<Chained>, now: Time, i: nat, j: nat)
    requires WellKeyed(root) && i < j < |LevelOrder([Start(root, startRef)], now)|
    ensures
      var items := LevelOrder([Start(root, startRef)], now);
      var p, q := PathBelow(items[i], startRef), PathBelow(items[j], startRef);
      InTurn(KidsOf(root), p, q)
  {
    var start := [Start(root, startRef)];
    var ps := Entries(KidsOf(root), start[0].level + 1, startRef);
    NextLevelSize(start);
    assert start[1..] == [] && NextLevel(start) == ps + [] == ps;
    assert LevelOrder(start, now) == YieldAll(start, now) + LevelOrder(NextLevel(start), now);
    assert YieldAll(start, now) == [] && [] + LevelOrder(ps, now) == LevelOrder(ps, now);
    FirstLevelInOrder(KidsOf(root), start[0].level + 1, startRef);
    LevelsInOrder(KidsOf(root), startRef, 0, ps, now);
  }
}

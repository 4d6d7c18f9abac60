/** What `fullTreeSet` leaves, record by record and node by node: values, deadlines and expiries, and so what is read at
    every later time. */
module FullSetEffects {
  import opened Wrappers
  import opened Keys
  import opened Trees
  import opened HybridStore
  import opened PathMap
  import opened Traversal
  import opened SaveTree
  import opened FullTreeSets
  import opened Lifetimes
  import opened SaveExpiry
  import opened DeepSetEffects

  // ----- one tree

  /** What a node holds, nothing if it is not there. */
  datatype Held<R> = Held(value: Option<R>, deadline: Option<int>)

  function HeldBy<R>(n: Option<Tree<R>>): Held<R>
  {
    if n.Some? then Held(n.value.value, n.value.deadline) else Held(None, None)
  }

  /** What an input node finds: a node that was not there holds what `createValue` gives, without deadline. */
  function HeldFirst<V(!new), R(!new)>(codec: Codec<V, R>, fs: FullSet<V>, stored: Option<Tree<R>>, q: Path): Held<R>
  {
    if stored.Some? then HeldBy(stored)
    else Held(if fs.create(q).Some? then Some(codec.serialize(fs.create(q).value)) else None, None)
  }

  function LiveIn<R>(h: Held<R>, now: Time): Option<R>
  {
    if Expired(h.deadline, now) then None else h.value
  }

  /** What an input node of this value makes of it: a value that its item is left with and that is not the live one is
      written, and the deadline is never touched. */
  function HeldAfter<V(!new), R(!new, ==)>(codec: Codec<V, R>, fs: FullSet<V>, input: Option<V>, h: Held<R>, q: Path): Held<R>
  {
    var current := LiveIn(h, fs.now);
    var left := fs.edit(q, input, codec.Decode(current));
    if Changes(codec, current, left) then Held(Some(codec.serialize(left.value)), h.deadline) else h
  }

  /** The node at `q`, below an input tree that has `input` there. */
  predicate SaveEffect<V(!new), R(!new, ==)>(codec: Codec<V, R>, fs: FullSet<V>, input: Option<Tree<V>>, before: Option<Tree<R>>, after: Option<Tree<R>>, q: Path)
  {
    match input
    case None => after == before
    case Some(n) => HeldBy(after) == HeldAfter(codec, fs, Live(n, fs.now), HeldFirst(codec, fs, before, q), q)
  }

  lemma {:induction false} OverlayEffect<V(!new), R(!new)>(codec: Codec<V, R>, fs: FullSet<V>, stored: Tree<R>, input: Tree<V>, q: Path, s: Path)
    requires WellKeyed(input)
    ensures SaveEffect(codec, fs, At(input, s), At(stored, s), At(Overlay(codec, fs, stored, input, q), s), q + s)
    decreases s
  {
    var node := LayOver(codec, fs, stored, Live(input, fs.now), q);
    var ks := KidsOf(input);
    if s == [] {
      assert q + s == q;
      OverlayKidsChild(codec, fs, node, ks, q, "");
    } else {
      OverlayKidsChild(codec, fs, node, ks, q, s[0]);
      var sub, at := Find(ks, s[0]), q + [s[0]];
      if sub.Some? {
        WellKeyedFind(ks, s[0]);
        assert at + s[1..] == q + s;
        var base := OrFresh(codec, fs, Child(stored, s[0]), at);
        OverlayEffect(codec, fs, base, sub.value, at, s[1..]);
        StoredFirst(codec, fs, stored, q, s);
        if At(input, s).None? {
          OutsideInput(codec, fs, stored, sub.value, q, s);
        }
      }
    }
  }

  /** Below a child that may have to be created an input node finds the same. */
  lemma StoredFirst<V(!new), R(!new)>(codec: Codec<V, R>, fs: FullSet<V>, stored: Tree<R>, q: Path, s: Path)
    requires s != []
    ensures HeldFirst(codec, fs, At(OrFresh(codec, fs, Child(stored, s[0]), q + [s[0]]), s[1..]), q + s) ==
            HeldFirst(codec, fs, At(stored, s), q + s)
  {
    if s[1..] == [] {
      assert s == [s[0]];
    }
  }

  lemma OutsideInput<V(!new), R(!new)>(codec: Codec<V, R>, fs: FullSet<V>, stored: Tree<R>, sub: Tree<V>, q: Path, s: Path)
    requires s != [] && At(sub, s[1..]).None?
    ensures At(OrFresh(codec, fs, Child(stored, s[0]), q + [s[0]]), s[1..]) == At(stored, s)
  {
  }

  // ----- `saveFullTreeValue`

  lemma {:induction false} QuietItemEffect<V(!new), R(!new)>(codec: Codec<V, R>, fs: FullSet<V>, stored: Tree<R>, input: Tree<V>, q: Path, s: Path)
    requires WellKeyed(input) && OverlayChanges(codec, fs, stored, input, q) == []
    ensures SaveEffect(codec, fs, At(input, s), At(stored, s), At(stored, s), q + s)
  {
    if At(input, s).Some? {
      var left := LeftAt(codec, fs, stored, input, q, s);
      if Writes(codec, fs, OrFresh(codec, fs, At(stored, s), q + s), Live(At(input, s).value, fs.now), q + s) {
        ChangeListed(codec, fs, stored, input, q, s, Written(q + s, fs.ttl(q + s, left)));
      }
      if At(stored, s).None? && fs.create(q + s).Some? {
        ChangeListed(codec, fs, stored, input, q, s, Created(q + s));
      }
    }
  }

  /** The whole effect of saving one item of the key level: on the nodes of its tree, on the expiry of its key, and none
      on any other key. */
  ghost predicate TreeSaveEffect<V(!new), R(!new)>(codec: Codec<V, R>, fs: FullSet<V>, st: Storage<R>, after: Storage<R>, item: Item<V>)
  {
    var q := ChainPath(item.ref);
    var key := Join(q);
    var changes := SaveChanges(codec, fs, st, item);
    && (forall other :: other != key ==> SameRecord(after, st, other))
    && (if changes == [] then SameRecord(after, st, key)
        else key in after && after[key].expiry == ExpiryAfter(RunTtl(None, changes), CurrentTtl(st, key, fs.now), fs.now))
    && (forall s :: SaveEffect(codec, fs, At(item.tree, s), At(LoadTree(codec, StorageGet(st, key, fs.now)), s),
                               At(LoadTree(codec, StorageGet(after, key, fs.now)), s), q + s))
  }

  lemma AliveAfterSave<V(!new), R(!new)>(codec: Codec<V, R>, fs: FullSet<V>, st: Storage<R>, item: Item<V>)
    requires codec.Lawful() && SaveChanges(codec, fs, st, item) != []
    ensures
      var q := ChainPath(item.ref);
      LoadTree(codec, StorageGet(TreeOverlay(codec, fs, st, item), Join(q), fs.now)) ==
      Overlay(codec, fs, LoadTree(codec, StorageGet(st, Join(q), fs.now)), item.tree, q)
  {
    var q := ChainPath(item.ref);
    TreeOverlayExpiry(codec, fs, st, item);
    OverlayWellKeyed(codec, fs, LoadTree(codec, StorageGet(st, Join(q), fs.now)), item.tree, q);
    RunTtlIsLongest(SaveChanges(codec, fs, st, item));
  }

  lemma TreeOverlayEffect<V(!new), R(!new)>(codec: Codec<V, R>, fs: FullSet<V>, st: Storage<R>, item: Item<V>)
    requires codec.Lawful() && WellKeyed(item.tree)
    ensures TreeSaveEffect(codec, fs, st, TreeOverlay(codec, fs, st, item), item)
  {
    var q := ChainPath(item.ref);
    var key := Join(q);
    var after := TreeOverlay(codec, fs, st, item);
    var root := LoadTree(codec, StorageGet(st, key, fs.now));
    TreeOverlayExpiry(codec, fs, st, item);
    forall s
      ensures SaveEffect(codec, fs, At(item.tree, s), At(root, s), At(LoadTree(codec, StorageGet(after, key, fs.now)), s), q + s)
    {
      if SaveChanges(codec, fs, st, item) == [] {
        QuietItemEffect(codec, fs, root, item.tree, q, s);
      } else {
        AliveAfterSave(codec, fs, st, item);
        OverlayEffect(codec, fs, root, item.tree, q, s);
      }
    }
  }

  // ----- a node with a key of its own

  /** A key level node of the input is written with its own ttl if its item is left with another value; no other key
      level node is touched. */
  predicate KeySaveEffect<V(!new), R(!new, ==)>(codec: Codec<V, R>, fs: FullSet<V>, tree: Tree<V>, st: Storage<R>, after: Storage<R>, q: Path)
  {
    var key := Join(q);
    var current := StorageGet(st, key, fs.now);
    match At(tree, q)
    case None => SameRecord(after, st, key)
    case Some(n) =>
      var left := KeyLeft(fs, Live(n, fs.now), codec.Decode(current), q);
      if Changes(codec, current, left)
      then key in after && after[key] == Record(codec.serialize(left.value), EndOf(fs.ttl(q, left), fs.now))
      else SameRecord(after, st, key)
  }

  lemma KeyOverlayEffect<V(!new), R(!new)>(codec: Codec<V, R>, fs: FullSet<V>, tree: Tree<V>, st: Storage<R>, item: Item<V>, q: Path)
    requires ChainPath(item.ref) == q && At(tree, q).Some? && item.value == Live(At(tree, q).value, fs.now)
    ensures KeySaveEffect(codec, fs, tree, st, KeyOverlay(codec, fs, st, item), q)
  {
  }

  lemma KeySaveLocal<V(!new), R(!new)>(codec: Codec<V, R>, fs: FullSet<V>, tree: Tree<V>, st: Storage<R>, mid: Storage<R>, after: Storage<R>, q: Path)
    requires KeySaveEffect(codec, fs, tree, st, mid, q) && SameRecord(after, mid, Join(q))
    ensures KeySaveEffect(codec, fs, tree, st, after, q)
  {
  }

  // ----- the whole call

  /** The key of a tree of the input: not touched if nothing changes in it, otherwise with the longest ttl of a written
      item, or what it had left if that is longer, and without expiry if no written item has a ttl. */
  predicate SaveKeyEffect<V(!new), R(!new, ==)>(codec: Codec<V, R>, fs: FullSet<V>, tree: Tree<V>, st: Storage<R>, after: Storage<R>, r: Path)
  {
    var key := Join(r);
    var changes := match At(tree, r)
      case None => []
      case Some(n) => OverlayChanges(codec, fs, LoadTree(codec, StorageGet(st, key, fs.now)), n, r);
    if changes == [] then SameRecord(after, st, key)
    else key in after && after[key].expiry == ExpiryAfter(RunTtl(None, changes), CurrentTtl(st, key, fs.now), fs.now)
  }

  /** Everything `fullTreeSet` changes, and nothing else, at every path whose joined key no other input node has. */
  ghost predicate FullSetEffect<V(!new), R(!new)>(codec: Codec<V, R>, K: nat, fs: FullSet<V>, tree: Tree<V>, st: Storage<R>, after: Storage<R>)
    requires K >= 1
  {
    && (forall q: Path :: 0 < |q| < K && OwnsKey(K, tree, q) ==> KeySaveEffect(codec, fs, tree, st, after, q))
    && (forall r: Path :: |r| == K && OwnsKey(K, tree, r) ==> SaveKeyEffect(codec, fs, tree, st, after, r))
    && (forall q: Path :: K <= |q| && OwnsKey(K, tree, q[..K]) ==>
          SaveEffect(codec, fs, At(tree, q), StoredNode(codec, K, st, q, fs.now), StoredNode(codec, K, after, q, fs.now), q))
  }

  /** The record under a key of the input is what the pass of its one item leaves; every other one is as before. */
  lemma OwnPass<V(!new), R(!new)>(codec: Codec<V, R>, K: nat, fs: FullSet<V>, tree: Tree<V>, st: Storage<R>, r: Path) returns (item: Item<V>)
    requires K >= 1 && WellKeyed(tree) && OwnsKey(K, tree, r) && 0 < |r| <= K && At(tree, r).Some?
    ensures item == ItemOf(tree, r, fs.now) && ChainPath(item.ref) == r && item.ref.level == |r| && WellKeyed(item.tree)
    ensures SameRecord(FullTreeSetStore(codec, K, fs, tree, st), FullStep(codec, K, fs, st, item), Join(r))
  {
    var items := LevelOrder([Start(tree, None)], fs.now);
    var outer := Outer(K, items);
    LevelOrderSearches(tree, fs.now);
    var i := OuterItem(K, tree, items, fs.now, r);
    OwnKey(codec, K, fs, st, outer, i, Join(r));
    WellKeyedAt(tree, r);
    item := outer[i];
  }

  lemma NoPass<V(!new), R(!new)>(codec: Codec<V, R>, K: nat, fs: FullSet<V>, tree: Tree<V>, st: Storage<R>, r: Path)
    requires K >= 1 && WellKeyed(tree) && OwnsKey(K, tree, r) && r != [] && At(tree, r).None?
    ensures SameRecord(FullTreeSetStore(codec, K, fs, tree, st), st, Join(r))
  {
    var items := LevelOrder([Start(tree, None)], fs.now);
    LevelOrderSearches(tree, fs.now);
    NoOuterItem(K, tree, items, fs.now, r);
    UntouchedKey(codec, K, fs, st, Outer(K, items), Join(r));
  }

  lemma CallKeySave<V(!new), R(!new)>(codec: Codec<V, R>, K: nat, fs: FullSet<V>, tree: Tree<V>, st: Storage<R>, q: Path)
    requires K >= 1 && WellKeyed(tree) && OwnsKey(K, tree, q) && 0 < |q| < K
    ensures KeySaveEffect(codec, fs, tree, st, FullTreeSetStore(codec, K, fs, tree, st), q)
  {
    if At(tree, q).Some? {
      var item := OwnPass(codec, K, fs, tree, st, q);
      KeyOverlayEffect(codec, fs, tree, st, item, q);
      KeySaveLocal(codec, fs, tree, st, KeyOverlay(codec, fs, st, item), FullTreeSetStore(codec, K, fs, tree, st), q);
    } else {
      NoPass(codec, K, fs, tree, st, q);
    }
  }

  lemma CallTreeKeySave<V(!new), R(!new)>(codec: Codec<V, R>, K: nat, fs: FullSet<V>, tree: Tree<V>, st: Storage<R>, r: Path)
    requires codec.Lawful() && K >= 1 && WellKeyed(tree) && OwnsKey(K, tree, r) && |r| == K
    ensures SaveKeyEffect(codec, fs, tree, st, FullTreeSetStore(codec, K, fs, tree, st), r)
  {
    if At(tree, r).Some? {
      var item := OwnPass(codec, K, fs, tree, st, r);
      TreeOverlayExpiry(codec, fs, st, item);
    } else {
      NoPass(codec, K, fs, tree, st, r);
    }
  }

  lemma PassReachesNode<V(!new), R(!new)>(codec: Codec<V, R>, K: nat, fs: FullSet<V>, tree: Tree<V>, st: Storage<R>, item: Item<V>, q: Path)
    requires codec.Lawful() && 1 <= K <= |q| && At(tree, q[..K]) == Some(item.tree) && WellKeyed(item.tree)
    requires ChainPath(item.ref) == q[..K]
    ensures SaveEffect(codec, fs, At(tree, q), StoredNode(codec, K, st, q, fs.now),
                       StoredNode(codec, K, TreeOverlay(codec, fs, st, item), q, fs.now), q)
  {
    DeepNode(tree, q, K);
    assert q[..K] + q[K..] == q;
    TreeOverlayEffect(codec, fs, st, item);
  }

  lemma CallNodeSave<V(!new), R(!new)>(codec: Codec<V, R>, K: nat, fs: FullSet<V>, tree: Tree<V>, st: Storage<R>, q: Path)
    requires codec.Lawful() && 1 <= K <= |q| && WellKeyed(tree) && OwnsKey(K, tree, q[..K])
    ensures SaveEffect(codec, fs, At(tree, q), StoredNode(codec, K, st, q, fs.now),
                       StoredNode(codec, K, FullTreeSetStore(codec, K, fs, tree, st), q, fs.now), q)
  {
    var r := q[..K];
    var after := FullTreeSetStore(codec, K, fs, tree, st);
    if At(tree, r).Some? {
      var item := OwnPass(codec, K, fs, tree, st, r);
      PassReachesNode(codec, K, fs, tree, st, item, q);
      SameStoredNode(codec, K, TreeOverlay(codec, fs, st, item), after, q, fs.now);
    } else {
      NoPass(codec, K, fs, tree, st, r);
      SameStoredNode(codec, K, st, after, q, fs.now);
      MissingAbove(tree, r, q);
    }
  }

  /** Every call of `fullTreeSet` has exactly this effect. */
  lemma FullSetHasEffect<V(!new), R(!new)>(codec: Codec<V, R>, K: nat, fs: FullSet<V>, tree: Tree<V>, st: Storage<R>)
    requires codec.Lawful() && K >= 1 && WellKeyed(tree)
    ensures FullSetEffect(codec, K, fs, tree, st, FullTreeSetStore(codec, K, fs, tree, st))
  {
    var after := FullTreeSetStore(codec, K, fs, tree, st);
    forall q: Path | 0 < |q| < K && OwnsKey(K, tree, q)
      ensures KeySaveEffect(codec, fs, tree, st, after, q)
    {
      CallKeySave(codec, K, fs, tree, st, q);
    }
    forall r: Path | |r| == K && OwnsKey(K, tree, r)
      ensures SaveKeyEffect(codec, fs, tree, st, after, r)
    {
      CallTreeKeySave(codec, K, fs, tree, st, r);
    }
    forall q: Path | K <= |q| && OwnsKey(K, tree, q[..K])
      ensures SaveEffect(codec, fs, At(tree, q), StoredNode(codec, K, st, q, fs.now), StoredNode(codec, K, after, q, fs.now), q)
    {
      CallNodeSave(codec, K, fs, tree, st, q);
    }
  }

  // ----- what is read later

  /** A node of a tree that the input has is read at every later time while the key is alive and the deadline it had
      before the call, if any, has not passed: what its item was left with, else what it held. */
  lemma SavedNodeReadLater<V(!new), R(!new)>(codec: Codec<V, R>, K: nat, fs: FullSet<V>, tree: Tree<V>, st: Storage<R>, q: Path, later: Time)
    requires codec.Lawful() && 1 <= K <= |q| && WellKeyed(tree) && OwnsKey(K, tree, q[..K]) && At(tree, q).Some? && fs.now <= later
    ensures
      var after := FullTreeSetStore(codec, K, fs, tree, st);
      var h := HeldAfter(codec, fs, Live(At(tree, q).value, fs.now), HeldFirst(codec, fs, StoredNode(codec, K, st, q, fs.now), q), q);
      Read(codec, K, after, q, later) ==
      if StorageGet(after, Join(q[..K]), later).Some? then codec.Decode(LiveIn(h, later)) else None
  {
    CallNodeSave(codec, K, fs, tree, st, q);
    NodeReadLater(codec, K, FullTreeSetStore(codec, K, fs, tree, st), q, fs.now, later);
  }

  /** A key level node that the input changes is read exactly until the ttl of its item is over. */
  lemma SavedKeyReadLater<V(!new), R(!new)>(codec: Codec<V, R>, K: nat, fs: FullSet<V>, tree: Tree<V>, st: Storage<R>, q: Path, v: V, later: Time)
    requires codec.Lawful() && 0 < |q| < K && WellKeyed(tree) && OwnsKey(K, tree, q) && At(tree, q).Some? && fs.now <= later
    requires KeyLeft(fs, Live(At(tree, q).value, fs.now), Read(codec, K, st, q, fs.now), q) == Some(v)
    requires ReadBytes(codec, K, st, q, fs.now) != Some(codec.serialize(v))
    ensures Read(codec, K, FullTreeSetStore(codec, K, fs, tree, st), q, later) == ReadLater(v, fs.ttl(q, Some(v)), fs.now, later)
  {
    CallKeySave(codec, K, fs, tree, st, q);
  }
}

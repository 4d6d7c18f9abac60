/** What a ttl promises: over any run of timed writes, saves and prunes, a value written with a ttl is read until that ttl is
    over, as long as no operation changes it. */
module Promises {
  import opened Wrappers
  import opened Keys
  import opened Trees
  import opened Pruning
  import opened HybridStore
  import opened PathMap
  import opened SaveTree
  import opened FullTreeSets
  import opened Traversal
  import opened Expiry
  import opened SaveExpiry
  import opened TimedRuns
  import opened ReadBack
  import opened Lifetimes

  // ----- what a write and a prune leave of a node

  /** The node is there with this value and this deadline. */
  predicate NodeHolds<R(==)>(t: Tree<R>, s: Path, bytes: R, deadline: int)
  {
    At(t, s).Some? && At(t, s).value.value == Some(bytes) && At(t, s).value.deadline == Some(deadline)
  }

  /** If the call passes through `q`, its consumer leaves the value `v` there, or nothing. */
  predicate Respects<V(==)>(call: Call<V>, q: Path, v: V)
  {
    q <= call.path ==> call.edit(q, Some(v)) == Some(v) || call.edit(q, Some(v)) == None
  }

  /** A call that respects the value of a node leaves it its deadline too. */
  lemma {:induction false} EnrichPathKeepsNode<V(!new), R(!new)>(codec: Codec<V, R>, call: Call<V>, t: Tree<R>, i: nat, s: Path, v: V, deadline: int)
    requires codec.Lawful() && i <= |call.path| && call.now < deadline
    requires NodeHolds(t, s, codec.serialize(v), deadline) && Respects(call, call.path[..i] + s, v)
    ensures NodeHolds(EnrichPath(codec, call, t, i).tree, s, codec.serialize(v), deadline)
    decreases |call.path| - i
  {
    var q := call.path[..i];
    var here := EnrichTree(codec, t, Live(t, call.now), StepValue(codec, call, q, Live(t, call.now)), None, call.now);
    if s == [] {
      assert q + s == q;
      EnrichQuietNode(codec, call, t, i, v, deadline);
    } else if i < |call.path| {
      var k := call.path[i];
      var next := Child(t, k);
      var sub := if next.Some? then next.value else Blank();
      FindPut(KidsOf(here.tree), k, EnrichPath(codec, call, sub, i + 1).tree, s[0]);
      if s[0] == k {
        assert call.path[..i + 1] + s[1..] == q + s;
        EnrichPathKeepsNode(codec, call, sub, i + 1, s[1..], v, deadline);
      }
    }
  }

  lemma EnrichQuietNode<V(!new), R(!new)>(codec: Codec<V, R>, call: Call<V>, t: Tree<R>, i: nat, v: V, deadline: int)
    requires codec.Lawful() && i <= |call.path| && call.now < deadline
    requires t.value == Some(codec.serialize(v)) && t.deadline == Some(deadline) && Respects(call, call.path[..i], v)
    ensures
      var e := EnrichPath(codec, call, t, i).tree;
      e.value == t.value && e.deadline == t.deadline
  {
    assert Live(t, call.now) == t.value;
  }

  /** Pruning before its deadline leaves a node its value and its deadline. */
  lemma {:induction false} PruneKeepsNode<R>(t: Tree<R>, now: Time, s: Path, bytes: R, deadline: int)
    requires WellKeyed(t) && NodeHolds(t, s, bytes, deadline) && now < deadline
    ensures NodeHolds(Prune(t, now), s, bytes, deadline)
    decreases s
  {
    if s != [] {
      var ks := KidsOf(t);
      var sub := Child(t, s[0]).value;
      FindPruned(ks, s[0], now);
      WellKeyedFind(ks, s[0]);
      if Barren(sub, now) {
        BarrenReads(sub, now, s[1..], now);
      }
      if BarrenKids(ks, now) {
        BarrenFind(ks, s[0], now);
      }
      PruneKeepsNode(sub, now, s[1..], bytes, deadline);
    }
  }

  // ----- the promise

  /** The bytes are stored for `q` until `deadline`: under its own key, or in a tree whose key lives as long. */
  ghost predicate Promised<V(!new), R(!new)>(codec: Codec<V, R>, K: nat, st: Storage<R>, q: Path, bytes: R, deadline: int)
    requires K >= 1
  {
    var key := Join(Holder(K, q));
    && key in st && st[key].expiry.Some? && deadline <= st[key].expiry.value
    && if |q| < K then st[key].bytes == bytes
       else NodeHolds(codec.deserializeTree(st[key].bytes), q[K..], bytes, deadline)
  }

  lemma PromisedIsRead<V(!new), R(!new)>(codec: Codec<V, R>, K: nat, st: Storage<R>, q: Path, bytes: R, deadline: int, later: Time)
    requires K >= 1 && q != [] && Promised(codec, K, st, q, bytes, deadline) && later < deadline
    ensures ReadBytes(codec, K, st, q, later) == Some(bytes)
  {
  }

  /** Other keys do not matter. */
  lemma PromisedLocal<V(!new), R(!new)>(codec: Codec<V, R>, K: nat, st: Storage<R>, after: Storage<R>, q: Path, bytes: R, deadline: int)
    requires K >= 1 && Promised(codec, K, st, q, bytes, deadline)
    requires
      var key := Join(Holder(K, q));
      key in after && after[key] == st[key]
    ensures Promised(codec, K, after, q, bytes, deadline)
  {
  }

  lemma KeyUpdateKeepsPromise<V(!new), R(!new)>(codec: Codec<V, R>, K: nat, call: Call<V>, st: Storage<R>, n: nat, q: Path, v: V, deadline: int)
    requires codec.Lawful() && K >= 2 && ValidPath(K, q) && ValidPath(K, call.path) && 0 < n < K && n <= |call.path|
    requires Respects(call, q, v) && call.now < deadline && Promised(codec, K, st, q, codec.serialize(v), deadline)
    ensures Promised(codec, K, KeyUpdate(codec, call, st, call.path[..n]), q, codec.serialize(v), deadline)
  {
    PrefixKey(K, call.path, n);
    JoinInjective(Holder(K, q), call.path[..n]);
    assert call.path[..n] <= call.path;
    if q != call.path[..n] {
      PromisedLocal(codec, K, st, KeyUpdate(codec, call, st, call.path[..n]), q, codec.serialize(v), deadline);
    }
  }

  lemma {:induction false} KeyUpdatesKeepPromise<V(!new), R(!new)>(codec: Codec<V, R>, K: nat, call: Call<V>, st: Storage<R>, n: nat, q: Path, v: V, deadline: int)
    requires codec.Lawful() && K >= 2 && ValidPath(K, q) && ValidPath(K, call.path) && n < K && n <= |call.path|
    requires Respects(call, q, v) && call.now < deadline && Promised(codec, K, st, q, codec.serialize(v), deadline)
    ensures Promised(codec, K, KeyUpdates(codec, call, st, n), q, codec.serialize(v), deadline)
  {
    if n > 0 {
      KeyUpdatesKeepPromise(codec, K, call, st, n - 1, q, v, deadline);
      KeyUpdateKeepsPromise(codec, K, call, KeyUpdates(codec, call, st, n - 1), n, q, v, deadline);
    }
  }

  lemma TreeUpdateKeepsPromise<V(!new), R(!new)>(codec: Codec<V, R>, K: nat, call: Call<V>, st: Storage<R>, q: Path, v: V, deadline: int)
    requires codec.Lawful() && 2 <= K <= |call.path| && ValidPath(K, q) && ValidPath(K, call.path)
    requires AllTimed(call) && call.now < deadline && Respects(call, q, v)
    requires Promised(codec, K, st, q, codec.serialize(v), deadline)
    ensures Promised(codec, K, TreeUpdate(codec, call, st, K), q, codec.serialize(v), deadline)
  {
    var held := Holder(K, q);
    PrefixKey(K, call.path, K);
    JoinInjective(held, call.path[..K]);
    if held == call.path[..K] {
      assert q == q[..K] + q[K..];
      SameTreeKeepsPromise(codec, K, call, st, q, v, deadline);
    } else {
      TreeUpdateFrame(codec, K, call, st, Join(held));
      PromisedLocal(codec, K, st, TreeUpdate(codec, call, st, K), q, codec.serialize(v), deadline);
    }
  }

  lemma SameTreeKeepsPromise<V(!new), R(!new)>(codec: Codec<V, R>, K: nat, call: Call<V>, st: Storage<R>, q: Path, v: V, deadline: int)
    requires codec.Lawful() && 2 <= K <= |call.path| && K <= |q| && q[..K] == call.path[..K]
    requires ChainedKey(call.path[..K]) == Some(Join(q[..K]))
    requires AllTimed(call) && call.now < deadline && Respects(call, call.path[..K] + q[K..], v)
    requires Promised(codec, K, st, q, codec.serialize(v), deadline)
    ensures Promised(codec, K, TreeUpdate(codec, call, st, K), q, codec.serialize(v), deadline)
  {
    var root := LoadTree(codec, StorageGet(st, Join(q[..K]), call.now));
    LastTtlTimed(codec, call, root, K);
    EnrichPathWellKeyed(codec, call, root, K);
    EnrichPathKeepsNode(codec, call, root, K, q[K..], v, deadline);
  }

  lemma WriteKeepsPromise<V(!new), R(!new)>(codec: Codec<V, R>, K: nat, call: Call<V>, st: Storage<R>, q: Path, v: V, deadline: int)
    requires codec.Lawful() && K >= 2 && ValidPath(K, q) && ValidPath(K, call.path)
    requires AllTimed(call) && call.now < deadline && Respects(call, q, v)
    requires Promised(codec, K, st, q, codec.serialize(v), deadline)
    ensures Promised(codec, K, DeepSet(codec, K, call, st), q, codec.serialize(v), deadline)
  {
    var n := KeyLevels(K, |call.path|);
    DeepSetParts(codec, K, call, st);
    KeyUpdatesKeepPromise(codec, K, call, st, n, q, v, deadline);
    if n < |call.path| {
      TreeUpdateKeepsPromise(codec, K, call, KeyUpdates(codec, call, st, n), q, v, deadline);
    }
  }

  lemma PruneKeyKeepsPromise<V(!new), R(!new)>(codec: Codec<V, R>, K: nat, st: Storage<R>, key: string, at: Time, q: Path, bytes: R, deadline: int)
    requires codec.Lawful() && K >= 2 && ValidPath(K, q) && at < deadline && Promised(codec, K, st, q, bytes, deadline)
    ensures Promised(codec, K, PruneKey(codec, K, st, key, at), q, bytes, deadline)
  {
    var after := PruneKey(codec, K, st, key, at);
    var held := Holder(K, q);
    PruneKeyFrame(codec, K, st, key, at, Join(held));
    if Join(held) == key && after != st {
      SplitJoin(held);
      var t := codec.deserializeTree(st[key].bytes);
      PruneRootWellKeyed(t, true, at);
      PruneKeepsNode(t, at, q[K..], bytes, deadline);
    } else {
      PromisedLocal(codec, K, st, after, q, bytes, deadline);
    }
  }

  lemma {:induction false} PruneKeepsPromise<V(!new), R(!new)>(codec: Codec<V, R>, K: nat, st: Storage<R>, keys: seq<string>, at: Time, q: Path, bytes: R, deadline: int)
    requires codec.Lawful() && K >= 2 && ValidPath(K, q) && at < deadline && Promised(codec, K, st, q, bytes, deadline)
    ensures Promised(codec, K, PruneKeys(codec, K, st, keys, at), q, bytes, deadline)
  {
    if keys != [] {
      PruneKeepsPromise(codec, K, st, keys[..|keys| - 1], at, q, bytes, deadline);
      PruneKeyKeepsPromise(codec, K, PruneKeys(codec, K, st, keys[..|keys| - 1], at), keys[|keys| - 1], at, q, bytes, deadline);
    }
  }

  // ----- whole-tree saves

  /** If the input has the node, the consumer leaves the value `v` in its item, or nothing. */
  predicate RespectsSave<V(==)>(K: nat, fs: FullSet<V>, tree: Tree<V>, q: Path, v: V)
  {
    At(tree, q).Some? ==>
      var input := Live(At(tree, q).value, fs.now);
      var left := fs.edit(q, if |q| < K && input.None? then Some(v) else input, Some(v));
      left == Some(v) || left == None
  }

  /** Laying input over a tree keeps a node whose item is left with its value. */
  lemma {:induction false} OverlayKeepsNode<V(!new), R(!new)>(codec: Codec<V, R>, fs: FullSet<V>, stored: Tree<R>, input: Tree<V>, q: Path, s: Path, v: V, deadline: int)
    requires codec.Lawful() && WellKeyed(input) && fs.now < deadline && NodeHolds(stored, s, codec.serialize(v), deadline)
    requires At(input, s).Some? ==> var left := fs.edit(q + s, Live(At(input, s).value, fs.now), Some(v)); left == Some(v) || left == None
    ensures NodeHolds(Overlay(codec, fs, stored, input, q), s, codec.serialize(v), deadline)
    decreases s
  {
    var node := LayOver(codec, fs, stored, Live(input, fs.now), q);
    var ks := KidsOf(input);
    if s == [] {
      assert q + s == q;
      assert Live(stored, fs.now) == stored.value;
      OverlayKidsChild(codec, fs, node, ks, q, "");
    } else {
      OverlayKidsChild(codec, fs, node, ks, q, s[0]);
      if Find(ks, s[0]).Some? {
        WellKeyedFind(ks, s[0]);
        assert (q + [s[0]]) + s[1..] == q + s;
        OverlayKeepsNode(codec, fs, Child(stored, s[0]).value, Find(ks, s[0]).value, q + [s[0]], s[1..], v, deadline);
      }
    }
  }

  lemma TreeSaveKeepsPromise<V(!new), R(!new)>(codec: Codec<V, R>, K: nat, fs: FullSet<V>, tree: Tree<V>, st: Storage<R>, item: Item<V>, q: Path, v: V, deadline: int)
    requires codec.Lawful() && 1 <= K <= |q| && ChainPath(item.ref) == q[..K] && WellKeyed(item.tree) && At(tree, q[..K]) == Some(item.tree)
    requires AllItemsTimed(fs) && CreatesNothing(fs) && fs.now < deadline && RespectsSave(K, fs, tree, q, v)
    requires Promised(codec, K, st, q, codec.serialize(v), deadline)
    ensures Promised(codec, K, TreeOverlay(codec, fs, st, item), q, codec.serialize(v), deadline)
  {
    var key := Join(q[..K]);
    var root := LoadTree(codec, StorageGet(st, key, fs.now));
    var changes := SaveChanges(codec, fs, st, item);
    TreeOverlayExpiry(codec, fs, st, item);
    if changes != [] {
      NothingCreated(codec, fs, root, item.tree, q[..K]);
      CreatingDropsExpiry(codec, fs, st, item);
      OverlayWellKeyed(codec, fs, root, item.tree, q[..K]);
      DeepNode(tree, q, K);
      assert q[..K] + q[K..] == q;
      OverlayKeepsNode(codec, fs, root, item.tree, q[..K], q[K..], v, deadline);
    }
  }

  lemma KeySaveKeepsPromise<V(!new), R(!new)>(codec: Codec<V, R>, K: nat, fs: FullSet<V>, tree: Tree<V>, st: Storage<R>, item: Item<V>, q: Path, v: V, deadline: int)
    requires codec.Lawful() && 0 < |q| < K && ChainPath(item.ref) == q && At(tree, q).Some? && item.value == Live(At(tree, q).value, fs.now)
    requires fs.now < deadline && RespectsSave(K, fs, tree, q, v) && Promised(codec, K, st, q, codec.serialize(v), deadline)
    ensures Promised(codec, K, KeyOverlay(codec, fs, st, item), q, codec.serialize(v), deadline)
  {
  }

  lemma SaveKeepsPromise<V(!new), R(!new)>(codec: Codec<V, R>, K: nat, fs: FullSet<V>, tree: Tree<V>, st: Storage<R>, q: Path, v: V, deadline: int)
    requires codec.Lawful() && K >= 2 && ValidPath(K, q) && WellKeyed(tree) && PlainKeys(K, tree)
    requires AllItemsTimed(fs) && CreatesNothing(fs) && fs.now < deadline && RespectsSave(K, fs, tree, q, v)
    requires Promised(codec, K, st, q, codec.serialize(v), deadline)
    ensures Promised(codec, K, FullTreeSetStore(codec, K, fs, tree, st), q, codec.serialize(v), deadline)
  {
    var held := Holder(K, q);
    var items := LevelOrder([Start(tree, None)], fs.now);
    var outer := Outer(K, items);
    LevelOrderSearches(tree, fs.now);
    PlainKeysAreOwned(K, tree, held);
    if At(tree, held).None? {
      NoOuterItem(K, tree, items, fs.now, held);
      UntouchedKey(codec, K, fs, st, outer, Join(held));
      PromisedLocal(codec, K, st, FullTreeSetStore(codec, K, fs, tree, st), q, codec.serialize(v), deadline);
    } else {
      var i := OuterItem(K, tree, items, fs.now, held);
      OwnKey(codec, K, fs, st, outer, i, Join(held));
      if |q| < K {
        KeySaveKeepsPromise(codec, K, fs, tree, st, outer[i], q, v, deadline);
      } else {
        WellKeyedAt(tree, held);
        TreeSaveKeepsPromise(codec, K, fs, tree, st, outer[i], q, v, deadline);
      }
      PromisedLocal(codec, K, FullStep(codec, K, fs, st, outer[i]), FullTreeSetStore(codec, K, fs, tree, st), q, codec.serialize(v), deadline);
    }
  }

  // ----- runs

  /** The operation happens before the deadline and leaves the value `v` at `q` alone; a save creates nothing. */
  ghost predicate Spares<V(!new)>(K: nat, op: Op<V>, q: Path, v: V, deadline: int)
  {
    match op
    case Write(call) => call.now < deadline && Respects(call, q, v)
    case Pruning(_, at) => at < deadline
    case Save(fs, tree) => fs.now < deadline && RespectsSave(K, fs, tree, q, v) && CreatesNothing(fs)
  }

  ghost predicate AllSpare<V(!new)>(K: nat, ops: seq<Op<V>>, q: Path, v: V, deadline: int)
  {
    forall i :: 0 <= i < |ops| ==> Spares(K, ops[i], q, v, deadline)
  }

  /** What is promised until a deadline is still promised after any run of timed writes and saves that leave it alone, and prunes. */
  lemma {:induction false} TimedRunKeepsPromise<V(!new), R(!new)>(codec: Codec<V, R>, K: nat, ops: seq<Op<V>>, st: Storage<R>, q: Path, v: V, deadline: int)
    requires codec.Lawful() && K >= 2 && ValidPath(K, q) && TimedOps(K, ops) && AllSpare(K, ops, q, v, deadline)
    requires Promised(codec, K, st, q, codec.serialize(v), deadline)
    ensures Promised(codec, K, ApplyAll(codec, K, ops, st), q, codec.serialize(v), deadline)
  {
    if ops != [] {
      var earlier, last := ops[..|ops| - 1], ops[|ops| - 1];
      TimedRunKeepsPromise(codec, K, earlier, st, q, v, deadline);
      var before := ApplyAll(codec, K, earlier, st);
      match last {
        case Write(call) => WriteKeepsPromise(codec, K, call, before, q, v, deadline);
        case Pruning(keys, at) => PruneKeepsPromise(codec, K, before, keys, at, q, codec.serialize(v), deadline);
        case Save(fs, tree) => SaveKeepsPromise(codec, K, fs, tree, before, q, v, deadline);
      }
    }
  }

  // ----- where promises come from

  /** In a covered store a node with a deadline is promised until then. */
  lemma CoveredIsPromised<V(!new), R(!new)>(codec: Codec<V, R>, K: nat, st: Storage<R>, q: Path, bytes: R, deadline: int)
    requires Covered(codec, K, st) && 2 <= K <= |q| && ValidPath(K, q) && Join(q[..K]) in st
    requires NodeHolds(codec.deserializeTree(st[Join(q[..K])].bytes), q[K..], bytes, deadline)
    ensures Promised(codec, K, st, q, bytes, deadline)
  {
    assert ValidPath(K, q[..K]);
    DueAt(codec.deserializeTree(st[Join(q[..K])].bytes), q[K..], st[Join(q[..K])].expiry.value);
  }

  lemma {:induction false} DueAt<R>(t: Tree<R>, s: Path, bound: int)
    requires DueBy(t, bound) && At(t, s).Some?
    ensures DueBy(At(t, s).value, bound)
    decreases s
  {
    if s != [] {
      DueByFind(KidsOf(t), s[0], bound);
      DueAt(Child(t, s[0]).value, s[1..], bound);
    }
  }

  lemma KeySetIsPromised<V(!new), R(!new)>(codec: Codec<V, R>, K: nat, st: Storage<R>, q: Path, v: V,
      ttl: (Path, Option<V>) -> Option<Seconds>, now: Time)
    requires |q| < K && Addressable(K, q) && Timed(ttl(q, Some(v)))
    requires ReadBytes(codec, K, st, q, now) != Some(codec.serialize(v))
    ensures Promised(codec, K, KeyUpdate(codec, SetNodeCall(q, v, ttl, now), st, q), q, codec.serialize(v), DeadlineOf(ttl(q, Some(v)), now))
  {
    AddressableKey(K, q);
  }

  lemma PersistExpiry<V(!new), R(!new)>(codec: Codec<V, R>, st: Storage<R>, key: string, ttl: Option<Seconds>, t: Tree<R>, now: Time)
    requires Timed(ttl)
    ensures
      var after := PersistTree(codec, st, key, Millis(ttl), t, now);
      && key in after && after[key].expiry.Some? && DeadlineOf(ttl, now) <= after[key].expiry.value
      && after[key].bytes == codec.serializeTree(t)
  {
  }

  lemma TreeSetIsPromised<V(!new), R(!new)>(codec: Codec<V, R>, K: nat, st: Storage<R>, q: Path, v: V,
      ttl: (Path, Option<V>) -> Option<Seconds>, now: Time)
    requires codec.Lawful() && 2 <= K <= |q| && Addressable(K, q) && Timed(ttl(q, Some(v)))
    requires ReadBytes(codec, K, st, q, now) != Some(codec.serialize(v))
    ensures Promised(codec, K, TreeUpdate(codec, SetNodeCall(q, v, ttl, now), st, K), q, codec.serialize(v), DeadlineOf(ttl(q, Some(v)), now))
  {
    var call := SetNodeCall(q, v, ttl, now);
    AddressableKey(K, q);
    var key := Join(q[..K]);
    var root := LoadTree(codec, StorageGet(st, key, now));
    var e := EnrichPath(codec, call, root, K);
    ReadsTree(codec, K, st, q, now);
    EnrichPathEnd(codec, call, root, K);
    EnrichPathWellKeyed(codec, call, root, K);
    PersistExpiry(codec, st, key, ttl(q, Some(v)), e.tree, now);
    assert NodeHolds(e.tree, q[K..], codec.serialize(v), DeadlineOf(ttl(q, Some(v)), now));
  }

  lemma SetIsPromised<V(!new), R(!new)>(codec: Codec<V, R>, K: nat, st: Storage<R>, q: Path, v: V,
      ttl: (Path, Option<V>) -> Option<Seconds>, now: Time)
    requires codec.Lawful() && K >= 2 && Addressable(K, q) && Timed(ttl(q, Some(v)))
    requires ReadBytes(codec, K, st, q, now) != Some(codec.serialize(v))
    ensures Promised(codec, K, DeepSet(codec, K, SetNodeCall(q, v, ttl, now), st), q, codec.serialize(v), DeadlineOf(ttl(q, Some(v)), now))
  {
    var call := SetNodeCall(q, v, ttl, now);
    var above := KeyUpdates(codec, call, st, |Holder(K, q)| - 1);
    assert ReadBytes(codec, K, above, q, now) == ReadBytes(codec, K, st, q, now) by {
      AboveKeepsHolder(codec, K, call, st);
    }
    EndOfCall(codec, K, call, st);
    if |q| < K {
      KeySetIsPromised(codec, K, above, q, v, ttl, now);
    } else {
      TreeSetIsPromised(codec, K, above, q, v, ttl, now);
    }
  }

  /** A value set with a ttl over other bytes, in any store, is read at every time before its ttl is over, whatever timed
      writes and saves that leave it alone and whatever prunes happen before then. */
  lemma TimedValueLasts<V(!new), R(!new)>(codec: Codec<V, R>, K: nat, st: Storage<R>, q: Path, v: V,
      ttl: (Path, Option<V>) -> Option<Seconds>, now: Time, ops: seq<Op<V>>, later: Time)
    requires codec.Lawful() && K >= 2 && ValidPath(K, q) && Timed(ttl(q, Some(v))) && TimedOps(K, ops)
    requires ReadBytes(codec, K, st, q, now) != Some(codec.serialize(v))
    requires AllSpare(K, ops, q, v, DeadlineOf(ttl(q, Some(v)), now)) && later < DeadlineOf(ttl(q, Some(v)), now)
    ensures
      var stored := DeepSet(codec, K, SetNodeCall(q, v, ttl, now), st);
      Read(codec, K, ApplyAll(codec, K, ops, stored), q, later) == Some(v)
  {
    var deadline := DeadlineOf(ttl(q, Some(v)), now);
    var stored := DeepSet(codec, K, SetNodeCall(q, v, ttl, now), st);
    SetIsPromised(codec, K, st, q, v, ttl, now);
    TimedRunKeepsPromise(codec, K, ops, stored, q, v, deadline);
    PromisedIsRead(codec, K, ApplyAll(codec, K, ops, stored), q, codec.serialize(v), deadline, later);
  }
}

/** The `prune` operation on the store, and how the expiry of a tree key covers its nodes. */
module Expiry {
  import opened Wrappers
  import opened Keys
  import opened Trees
  import opened Pruning
  import opened HybridStore
  import opened PathMap

  // ----- prune

  /** `prune` of one storage key: only a live key of the key level holds a tree to prune, and
      only a tree that `pruneTree` reports is written back, with the ttl it has left. */
  function PruneKey<V(!new), R(!new)>(codec: Codec<V, R>, K: nat, st: Storage<R>, key: string, now: Time): Storage<R>
  {
    var buffer := StorageGet(st, key, now);
    if |Split(key)| != K || buffer.None? then st
    else
      var t := codec.deserializeTree(buffer.value);
      if PruneReports(t, K >= 2, now)
      then PersistTree(codec, st, key, CurrentTtl(st, key, now), PruneRoot(t, K >= 2, now), now)
      else st
  }

  /** `prune` over the keys the storage iterates, in whatever order it gives them. */
  function PruneKeys<V(!new), R(!new)>(codec: Codec<V, R>, K: nat, st: Storage<R>, keys: seq<string>, now: Time): Storage<R>
  {
    if keys == [] then st
    else PruneKey(codec, K, PruneKeys(codec, K, st, keys[..|keys| - 1], now), keys[|keys| - 1], now)
  }

  lemma PruneRootWellKeyed<R>(t: Tree<R>, hasParent: bool, now: Time)
    requires WellKeyed(t)
    ensures WellKeyed(PruneRoot(t, hasParent, now))
  {
    if hasParent {
      PruneWellKeyed(t, now);
    } else if t.children.Some? {
      PruneKidsWellKeyed(t.children.value, now);
    }
  }

  /** Pruning a key keeps its expiry and touches no other key. */
  lemma PruneKeyFrame<V(!new), R(!new)>(codec: Codec<V, R>, K: nat, st: Storage<R>, key: string, now: Time, other: string)
    ensures
      var after := PruneKey(codec, K, st, key, now);
      && (other in after <==> other in st)
      && (other in st ==> after[other].expiry == st[other].expiry)
      && (other in st && other != key ==> after[other] == st[other])
  {
  }

  lemma PruneKeyReads<V(!new), R(!new)>(codec: Codec<V, R>, K: nat, st: Storage<R>, key: string, now: Time, q: Path, later: Time)
    requires codec.Lawful() && K >= 1 && ValidPath(K, q) && now <= later
    ensures ReadBytes(codec, K, PruneKey(codec, K, st, key, now), q, later) == ReadBytes(codec, K, st, q, later)
  {
    var after := PruneKey(codec, K, st, key, now);
    if |q| < K {
      PruneKeyFrame(codec, K, st, key, now, Join(q));
      SplitJoin(q);
    } else {
      var treeKey := Join(q[..K]);
      PruneKeyFrame(codec, K, st, key, now, treeKey);
      if treeKey == key && after != st {
        var t := codec.deserializeTree(st[key].bytes);
        PruneInvisible(t, K >= 2, now, q[K..], later);
        PruneRootWellKeyed(t, K >= 2, now);
      }
    }
  }

  /** Pruning any keys of the store is invisible to every reader from then on. */
  lemma {:induction false} PruneKeysReads<V(!new), R(!new)>(codec: Codec<V, R>, K: nat, st: Storage<R>, keys: seq<string>, now: Time, q: Path, later: Time)
    requires codec.Lawful() && K >= 1 && ValidPath(K, q) && now <= later
    ensures ReadBytes(codec, K, PruneKeys(codec, K, st, keys, now), q, later) == ReadBytes(codec, K, st, q, later)
    ensures Read(codec, K, PruneKeys(codec, K, st, keys, now), q, later) == Read(codec, K, st, q, later)
  {
    if keys != [] {
      PruneKeysReads(codec, K, st, keys[..|keys| - 1], now, q, later);
      PruneKeyReads(codec, K, PruneKeys(codec, K, st, keys[..|keys| - 1], now), keys[|keys| - 1], now, q, later);
    }
  }

  // ----- what pruning leaves in the storage

  lemma PruneKeyTree<V(!new), R(!new)>(codec: Codec<V, R>, K: nat, st: Storage<R>, key: string, now: Time)
    requires codec.Lawful() && |Split(key)| == K && StorageGet(st, key, now).Some?
    ensures
      var after := PruneKey(codec, K, st, key, now);
      && StorageGet(after, key, now).Some?
      && codec.deserializeTree(after[key].bytes) == PruneRoot(codec.deserializeTree(st[key].bytes), K >= 2, now)
  {
    var t := codec.deserializeTree(st[key].bytes);
    PruneKeyFrame(codec, K, st, key, now, key);
    PruneRootWellKeyed(t, K >= 2, now);
    if !PruneReports(t, K >= 2, now) {
      UnreportedIsUntouched(t, K >= 2, now);
    }
  }

  /** The key is one of a live tree. */
  predicate HoldsTree<R>(K: nat, st: Storage<R>, key: string, now: Time)
  {
    |Split(key)| == K && StorageGet(st, key, now).Some?
  }

  /** Pruning a list of keys prunes the live trees among them, however often they are listed, and touches nothing else. */
  lemma {:induction false} PruneKeysTree<V(!new), R(!new)>(codec: Codec<V, R>, K: nat, st: Storage<R>, keys: seq<string>, now: Time, key: string)
    requires codec.Lawful()
    ensures
      var after := PruneKeys(codec, K, st, keys, now);
      if key in keys && HoldsTree(K, st, key, now) then
        && key in after && after[key].expiry == st[key].expiry
        && codec.deserializeTree(after[key].bytes) == PruneRoot(codec.deserializeTree(st[key].bytes), K >= 2, now)
      else SameRecord(after, st, key)
  {
    if keys != [] {
      var earlier, last := keys[..|keys| - 1], keys[|keys| - 1];
      var before := PruneKeys(codec, K, st, earlier, now);
      PruneKeysTree(codec, K, st, earlier, now, key);
      PruneKeyFrame(codec, K, before, last, now, key);
      if key == last && HoldsTree(K, st, key, now) {
        PruneKeyTree(codec, K, before, key, now);
        PruneIdempotent(codec.deserializeTree(st[key].bytes), K >= 2, now);
      }
    }
  }

  /** The tree `after` is what is left of `t`: path by path, only what leads to a live value, and in it only live values
      with their deadlines. The node of the root alone is left as it is when it has no parent reference. */
  ghost predicate PrunedTree<R>(t: Tree<R>, after: Tree<R>, hasParent: bool, now: Time)
  {
    && (hasParent ==> Compact(after, now))
    && (!hasParent ==> after.value == t.value && after.deadline == t.deadline && KeyList(KidsOf(after)) == KeyList(KidsOf(t)))
    && forall s: Path :: hasParent || s != [] ==>
         var n, m := At(t, s), At(after, s);
         && (m.Some? <==> n.Some? && (s == [] || (!hasParent && |s| == 1) || LeadsToValue(t, s, now)))
         && (m.Some? ==> m.value.value == Lookup(t, s, now) && Remains(n.value, m.value, FruitfulKeys(t, s, now), now))
  }

  lemma {:induction false} PruneEachKeyList<R>(ks: Kids<R>, now: Time)
    ensures KeyList(PruneEach(ks, now)) == KeyList(ks)
  {
    match ks
    case End =>
    case Entry(_, _, rest) => PruneEachKeyList(rest, now);
  }

  lemma PruneRootIsPruned<R>(t: Tree<R>, hasParent: bool, now: Time)
    requires WellKeyed(t)
    ensures PrunedTree(t, PruneRoot(t, hasParent, now), hasParent, now)
  {
    PruneRootCompact(t, hasParent, now);
    if !hasParent && t.children.Some? {
      PruneEachKeyList(t.children.value, now);
    }
    forall s: Path | hasParent || s != []
      ensures
        var n, m := At(t, s), At(PruneRoot(t, hasParent, now), s);
        && (m.Some? <==> n.Some? && (s == [] || (!hasParent && |s| == 1) || LeadsToValue(t, s, now)))
        && (m.Some? ==> m.value.value == Lookup(t, s, now) && Remains(n.value, m.value, FruitfulKeys(t, s, now), now))
    {
      PruneExact(t, hasParent, now, s);
    }
  }

  /** What `prune` leaves in the storage: the live trees under the keys it iterates are pruned and keep their expiry, and
      everything else is as before. */
  ghost predicate PrunedStore<V(!new), R(!new)>(codec: Codec<V, R>, K: nat, st: Storage<R>, after: Storage<R>, keys: seq<string>, now: Time)
  {
    forall key ::
      if key in keys && HoldsTree(K, st, key, now) then
        && key in after && after[key].expiry == st[key].expiry
        && PrunedTree(codec.deserializeTree(st[key].bytes), codec.deserializeTree(after[key].bytes), K >= 2, now)
      else SameRecord(after, st, key)
  }

  lemma PruneKeysExact<V(!new), R(!new)>(codec: Codec<V, R>, K: nat, st: Storage<R>, keys: seq<string>, now: Time)
    requires codec.Lawful()
    ensures PrunedStore(codec, K, st, PruneKeys(codec, K, st, keys, now), keys, now)
  {
    var after := PruneKeys(codec, K, st, keys, now);
    forall key
      ensures
        if key in keys && HoldsTree(K, st, key, now) then
          && key in after && after[key].expiry == st[key].expiry
          && PrunedTree(codec.deserializeTree(st[key].bytes), codec.deserializeTree(after[key].bytes), K >= 2, now)
        else SameRecord(after, st, key)
    {
      PruneKeysTree(codec, K, st, keys, now, key);
      if HoldsTree(K, st, key, now) {
        PruneRootIsPruned(codec.deserializeTree(st[key].bytes), K >= 2, now);
      }
    }
  }

  // ----- deadlines below a bound

  predicate DueBy<R>(t: Tree<R>, bound: int)
  {
    && (t.deadline.Some? ==> t.deadline.value <= bound)
    && (t.children.Some? ==> DueByKids(t.children.value, bound))
  }

  predicate DueByKids<R>(ks: Kids<R>, bound: int)
  {
    match ks
    case End => true
    case Entry(_, sub, rest) => DueBy(sub, bound) && DueByKids(rest, bound)
  }

  lemma {:induction false} DueLater<R>(t: Tree<R>, bound: int, later: int)
    requires DueBy(t, bound) && bound <= later
    ensures DueBy(t, later)
    decreases t
  {
    if t.children.Some? {
      DueLaterKids(t.children.value, bound, later);
    }
  }

  lemma {:induction false} DueLaterKids<R>(ks: Kids<R>, bound: int, later: int)
    requires DueByKids(ks, bound) && bound <= later
    ensures DueByKids(ks, later)
    decreases ks
  {
    match ks
    case End =>
    case Entry(_, sub, rest) =>
      DueLater(sub, bound, later);
      DueLaterKids(rest, bound, later);
  }

  lemma {:induction false} DueByFind<R>(ks: Kids<R>, k: Key, bound: int)
    requires DueByKids(ks, bound) && Find(ks, k).Some?
    ensures DueBy(Find(ks, k).value, bound)
  {
    if ks.key != k {
      DueByFind(ks.rest, k, bound);
    }
  }

  lemma {:induction false} DueByPut<R>(ks: Kids<R>, k: Key, t: Tree<R>, bound: int)
    requires DueByKids(ks, bound) && DueBy(t, bound)
    ensures DueByKids(Put(ks, k, t), bound)
  {
    match ks
    case End =>
    case Entry(_, _, rest) => DueByPut(rest, k, t, bound);
  }

  lemma {:induction false} PruneDueBy<R>(t: Tree<R>, now: Time, bound: int)
    requires DueBy(t, bound)
    ensures DueBy(Prune(t, now), bound)
    decreases t
  {
    if t.children.Some? {
      PruneKidsDueBy(t.children.value, now, bound);
    }
  }

  lemma {:induction false} PruneKidsDueBy<R>(ks: Kids<R>, now: Time, bound: int)
    requires DueByKids(ks, bound)
    ensures DueByKids(PruneKids(ks, now), bound)
    decreases ks
  {
    match ks
    case End =>
    case Entry(_, sub, rest) =>
      PruneDueBy(sub, now, bound);
      PruneKidsDueBy(rest, now, bound);
  }

  /** Editing along a path adds one deadline at most, that of the last node. */
  lemma {:induction false} EnrichPathDueBy<V(!new), R(!new)>(codec: Codec<V, R>, call: Call<V>, t: Tree<R>, i: nat, bound: int)
    requires i <= |call.path| && DueBy(t, bound)
    requires LastTtl(codec, call, t, i).Some? ==> call.now + LastTtl(codec, call, t, i).value * MILLISECONDS_IN_A_SECOND <= bound
    ensures DueBy(EnrichPath(codec, call, t, i).tree, bound)
    decreases |call.path| - i
  {
    if i < |call.path| {
      var k := call.path[i];
      var next := Child(t, k);
      if next.Some? {
        DueByFind(KidsOf(t), k, bound);
      }
      var sub := if next.Some? then next.value else Blank();
      EnrichPathDueBy(codec, call, sub, i + 1, bound);
      DueByPut(KidsOf(t), k, EnrichPath(codec, call, sub, i + 1).tree, bound);
    }
  }

  // ----- the expiry of a tree key covers its nodes

  /** If there is a tree under the key, the key expires, and no node in it is due later than the key. */
  predicate TreeCovered<V(!new), R(!new)>(codec: Codec<V, R>, st: Storage<R>, key: string)
  {
    key in st ==> st[key].expiry.Some? && DueBy(codec.deserializeTree(st[key].bytes), st[key].expiry.value)
  }

  /** So it is for every tree key. */
  ghost predicate Covered<V(!new), R(!new)>(codec: Codec<V, R>, K: nat, st: Storage<R>)
  {
    forall q: Path :: |q| == K && ValidPath(K, q) ==> TreeCovered(codec, st, Join(q))
  }

  /** The expiry of a tree key, where it has one, has not moved to an earlier time. */
  ghost predicate NotEarlier<R>(K: nat, st: Storage<R>, after: Storage<R>)
  {
    forall q: Path :: |q| == K && ValidPath(K, q) && Join(q) in st && st[Join(q)].expiry.Some? ==>
      && Join(q) in after
      && after[Join(q)].expiry.Some?
      && st[Join(q)].expiry.value <= after[Join(q)].expiry.value
  }

  /** Every step of the call carries a positive ttl. */
  ghost predicate AllTimed<V(!new)>(call: Call<V>)
  {
    forall q, v :: Timed(call.ttl(q, v))
  }

  lemma {:induction false} LastTtlTimed<V(!new), R(!new)>(codec: Codec<V, R>, call: Call<V>, t: Tree<R>, i: nat)
    requires i <= |call.path| && AllTimed(call)
    ensures Timed(LastTtl(codec, call, t, i))
    decreases |call.path| - i
  {
    if i < |call.path| {
      var next := Child(t, call.path[i]);
      LastTtlTimed(codec, call, if next.Some? then next.value else Blank(), i + 1);
    }
  }

  lemma KeyUpdatesKeepTrees<V(!new), R(!new)>(codec: Codec<V, R>, K: nat, call: Call<V>, st: Storage<R>, n: nat, q: Path)
    requires ValidPath(K, call.path) && n < K && n <= |call.path| && |q| == K && ValidPath(K, q)
    ensures
      var after := KeyUpdates(codec, call, st, n);
      && (Join(q) in after <==> Join(q) in st)
      && (Join(q) in st ==> after[Join(q)] == st[Join(q)])
  {
    forall m | 0 < m <= n
      ensures ChainedKey(call.path[..m]) != Some(Join(q))
    {
      PrefixKey(K, call.path, m);
      JoinInjective(q, call.path[..m]);
    }
    KeyUpdatesFrame(codec, call, st, n, Join(q));
  }

  /** A timed write to a tree keeps its cover, and does not move the expiry of its key to an earlier time. */
  lemma OwnTreeCovered<V(!new), R(!new)>(codec: Codec<V, R>, K: nat, call: Call<V>, st: Storage<R>, key: string)
    requires codec.Lawful() && AllTimed(call) && 0 < K <= |call.path| && ChainedKey(call.path[..K]) == Some(key)
    requires TreeCovered(codec, st, key)
    ensures
      var after := TreeUpdate(codec, call, st, K);
      && TreeCovered(codec, after, key)
      && (key in st ==> key in after && st[key].expiry.value <= after[key].expiry.value)
  {
    var root := LoadTree(codec, StorageGet(st, key, call.now));
    var ttl := LastTtl(codec, call, root, K);
    LastTtlTimed(codec, call, root, K);
    EnrichPathWellKeyed(codec, call, root, K);
    var after := TreeUpdate(codec, call, st, K);
    if after != st {
      var expiry := after[key].expiry.value;
      assert call.now + ttl.value * MILLISECONDS_IN_A_SECOND <= expiry;
      if StorageGet(st, key, call.now).Some? {
        DueLater(root, st[key].expiry.value, expiry);
      }
      EnrichPathDueBy(codec, call, root, K, expiry);
    }
  }

  lemma TreeUpdateCovers<V(!new), R(!new)>(codec: Codec<V, R>, K: nat, call: Call<V>, st: Storage<R>)
    requires codec.Lawful() && Covered(codec, K, st) && AllTimed(call) && ValidPath(K, call.path) && 2 <= K <= |call.path|
    ensures Covered(codec, K, TreeUpdate(codec, call, st, K))
    ensures NotEarlier(K, st, TreeUpdate(codec, call, st, K))
  {
    var prefix := call.path[..K];
    var after := TreeUpdate(codec, call, st, K);
    PrefixKey(K, call.path, K);
    forall q: Path | |q| == K && ValidPath(K, q)
      ensures TreeCovered(codec, after, Join(q))
      ensures Join(q) in st ==> Join(q) in after && st[Join(q)].expiry.value <= after[Join(q)].expiry.value
    {
      assert TreeCovered(codec, st, Join(q));
      if Join(q) == Join(prefix) {
        OwnTreeCovered(codec, K, call, st, Join(q));
      } else {
        TreeUpdateFrame(codec, K, call, st, Join(q));
      }
    }
  }

  lemma KeyUpdatesCover<V(!new), R(!new)>(codec: Codec<V, R>, K: nat, call: Call<V>, st: Storage<R>, n: nat)
    requires Covered(codec, K, st) && ValidPath(K, call.path) && n < K && n <= |call.path|
    ensures Covered(codec, K, KeyUpdates(codec, call, st, n))
    ensures NotEarlier(K, st, KeyUpdates(codec, call, st, n))
  {
    var after := KeyUpdates(codec, call, st, n);
    forall q: Path | |q| == K && ValidPath(K, q)
      ensures Join(q) in after <==> Join(q) in st
      ensures Join(q) in st ==> after[Join(q)] == st[Join(q)]
    {
      KeyUpdatesKeepTrees(codec, K, call, st, n, q);
    }
  }

  lemma NotEarlierTransitive<R>(K: nat, st: Storage<R>, mid: Storage<R>, after: Storage<R>)
    requires NotEarlier(K, st, mid) && NotEarlier(K, mid, after)
    ensures NotEarlier(K, st, after)
  {
    forall q: Path | |q| == K && ValidPath(K, q) && Join(q) in st && st[Join(q)].expiry.Some?
      ensures Join(q) in after && after[Join(q)].expiry.Some?
      ensures st[Join(q)].expiry.value <= after[Join(q)].expiry.value
    {
      assert Join(q) in mid && mid[Join(q)].expiry.Some?;
    }
  }

  lemma DeepSetCovers<V(!new), R(!new)>(codec: Codec<V, R>, K: nat, call: Call<V>, st: Storage<R>)
    requires codec.Lawful() && Covered(codec, K, st) && AllTimed(call) && ValidPath(K, call.path) && 2 <= K
    ensures Covered(codec, K, DeepSet(codec, K, call, st))
    ensures NotEarlier(K, st, DeepSet(codec, K, call, st))
  {
    var n := KeyLevels(K, |call.path|);
    var afterKeys := KeyUpdates(codec, call, st, n);
    var after := DeepSet(codec, K, call, st);
    DeepSetParts(codec, K, call, st);
    KeyUpdatesCover(codec, K, call, st, n);
    if n < |call.path| {
      TreeUpdateCovers(codec, K, call, afterKeys);
      NotEarlierTransitive(K, st, afterKeys, after);
    }
  }

  lemma PruneKeyCovers<V(!new), R(!new)>(codec: Codec<V, R>, K: nat, st: Storage<R>, key: string, now: Time)
    requires codec.Lawful() && Covered(codec, K, st) && K >= 2
    ensures Covered(codec, K, PruneKey(codec, K, st, key, now))
    ensures NotEarlier(K, st, PruneKey(codec, K, st, key, now))
  {
    var after := PruneKey(codec, K, st, key, now);
    forall q: Path | |q| == K && ValidPath(K, q) && Join(q) in st
      ensures Join(q) in after && after[Join(q)].expiry == st[Join(q)].expiry
      ensures DueBy(codec.deserializeTree(after[Join(q)].bytes), st[Join(q)].expiry.value)
    {
      PruneKeyFrame(codec, K, st, key, now, Join(q));
      if Join(q) == key && after != st {
        var t := codec.deserializeTree(st[key].bytes);
        PruneDueBy(t, now, st[key].expiry.value);
        PruneRootWellKeyed(t, true, now);
      }
    }
  }

  lemma {:induction false} PruneKeysCover<V(!new), R(!new)>(codec: Codec<V, R>, K: nat, st: Storage<R>, keys: seq<string>, now: Time)
    requires codec.Lawful() && Covered(codec, K, st) && K >= 2
    ensures Covered(codec, K, PruneKeys(codec, K, st, keys, now))
    ensures NotEarlier(K, st, PruneKeys(codec, K, st, keys, now))
  {
    if keys != [] {
      PruneKeysCover(codec, K, st, keys[..|keys| - 1], now);
      var before := PruneKeys(codec, K, st, keys[..|keys| - 1], now);
      PruneKeyCovers(codec, K, before, keys[|keys| - 1], now);
      NotEarlierTransitive(K, st, before, PruneKeys(codec, K, st, keys, now));
    }
  }
}

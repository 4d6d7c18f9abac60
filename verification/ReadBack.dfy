/** Exactly which paths and key levels let `getNode` find what `setNode` stored, and exactly which pairs of
    paths keep out of each other's way. */
module ReadBack {
  import opened Wrappers
  import opened Keys
  import opened Trees
  import opened HybridStore
  import opened PathMap
  import Codecs

  /** Serializing the value that these bytes stand for gives the same bytes. */
  predicate Steady<V(!new), R(!new, ==)>(codec: Codec<V, R>, b: Option<R>)
  {
    b.Some? ==> codec.serialize(codec.deserialize(b.value)) == b.value
  }

  /** So it is for what is stored for the key level nodes above the end of the path. */
  ghost predicate SteadyAbove<V(!new), R(!new)>(codec: Codec<V, R>, K: nat, p: Path, st: Storage<R>, now: Time)
  {
    forall n :: 0 < n < |p| && n < K ==> Steady(codec, StorageGet(st, ChainedKey(p[..n]).value, now))
  }

  /** Then those nodes are left as they are. */
  lemma {:induction false} SetNodeKeepsAbove<V(!new), R(!new)>(codec: Codec<V, R>, K: nat, p: Path, v: V,
      ttl: (Path, Option<V>) -> Option<Seconds>, now: Time, st: Storage<R>, n: nat)
    requires SteadyAbove(codec, K, p, st, now) && n < |p| && n < K
    ensures KeyUpdates(codec, SetNodeCall(p, v, ttl, now), st, n) == st
  {
    if n > 0 {
      SetNodeKeepsAbove(codec, K, p, v, ttl, now, st, n - 1);
      assert Steady(codec, StorageGet(st, ChainedKey(p[..n]).value, now));
    }
  }

  /** Only the segment at the end of the path does anything. */
  lemma SetNodeParts<V(!new), R(!new)>(codec: Codec<V, R>, K: nat, p: Path, v: V,
      ttl: (Path, Option<V>) -> Option<Seconds>, now: Time, st: Storage<R>)
    requires SteadyAbove(codec, K, p, st, now) && p != [] && K >= 2
    ensures
      var call := SetNodeCall(p, v, ttl, now);
      DeepSet(codec, K, call, st) ==
      if |p| < K then KeyUpdate(codec, call, st, p)
      else if DeepSetThrows(K, p) then st
      else TreeUpdate(codec, call, st, K)
  {
    var call := SetNodeCall(p, v, ttl, now);
    if |p| < K {
      SetNodeKeepsAbove(codec, K, p, v, ttl, now, st, |p| - 1);
      LastKeyUpdate(codec, call, st);
    } else {
      SetNodeKeepsAbove(codec, K, p, v, ttl, now, st, K - 1);
    }
  }

  lemma LastKeyUpdate<V(!new), R(!new)>(codec: Codec<V, R>, call: Call<V>, st: Storage<R>)
    requires call.path != []
    ensures KeyUpdates(codec, call, st, |call.path|) ==
            KeyUpdate(codec, call, KeyUpdates(codec, call, st, |call.path| - 1), call.path)
  {
    assert call.path[..|call.path|] == call.path;
  }

  // ----- reading back

  /** The paths that `setNode` and `getNode` map to the same key, in a cache that can store them. */
  predicate Addressable(K: nat, p: Path)
  {
    p != [] && K >= 2 && (|p| == 1 || p[0] != "")
  }

  lemma AddressableKey(K: nat, p: Path)
    requires Addressable(K, p)
    ensures Holder(K, p) != [] && ChainedKey(Holder(K, p)) == Some(Join(Holder(K, p)))
    ensures !DeepSetThrows(K, p)
  {
    ChainedKeyLength(Holder(K, p));
    if |p| >= K {
      ChainedKeyLength(p[..K - 1]);
    }
  }

  /** A call is the key level loop above the key that holds its path, and then one segment. */
  lemma EndOfCall<V(!new), R(!new)>(codec: Codec<V, R>, K: nat, call: Call<V>, st: Storage<R>)
    requires Addressable(K, call.path)
    ensures
      var above := KeyUpdates(codec, call, st, |Holder(K, call.path)| - 1);
      DeepSet(codec, K, call, st) ==
      if |call.path| < K then KeyUpdate(codec, call, above, call.path) else TreeUpdate(codec, call, above, K)
  {
    AddressableKey(K, call.path);
    if |call.path| < K {
      assert Holder(K, call.path) == call.path;
      LastKeyUpdate(codec, call, st);
    } else {
      assert |Holder(K, call.path)| == K;
    }
  }

  lemma TreeReadsBack<V(!new), R(!new)>(codec: Codec<V, R>, K: nat, p: Path, v: V,
      ttl: (Path, Option<V>) -> Option<Seconds>, now: Time, st: Storage<R>)
    requires codec.Lawful() && 2 <= K <= |p| && p[0] != ""
    ensures Read(codec, K, TreeUpdate(codec, SetNodeCall(p, v, ttl, now), st, K), p, now) == Some(v)
  {
    var call := SetNodeCall(p, v, ttl, now);
    AddressableKey(K, p);
    TreeUpdateLookup(codec, K, call, st, p[K..]);
    ReadsTree(codec, K, TreeUpdate(codec, call, st, K), p, now);
  }

  lemma KeyReadsBack<V(!new), R(!new)>(codec: Codec<V, R>, K: nat, p: Path, v: V,
      ttl: (Path, Option<V>) -> Option<Seconds>, now: Time, st: Storage<R>)
    requires codec.Lawful() && 0 < |p| < K && ChainedKey(p) == Some(Join(p))
    ensures Read(codec, K, KeyUpdate(codec, SetNodeCall(p, v, ttl, now), st, p), p, now) == Some(v)
  {
  }

  lemma ReadsBack<V(!new), R(!new)>(codec: Codec<V, R>, K: nat, p: Path, v: V,
      ttl: (Path, Option<V>) -> Option<Seconds>, now: Time, st: Storage<R>)
    requires codec.Lawful() && Addressable(K, p)
    ensures Read(codec, K, DeepSet(codec, K, SetNodeCall(p, v, ttl, now), st), p, now) == Some(v)
  {
    var call := SetNodeCall(p, v, ttl, now);
    AddressableKey(K, p);
    EndOfCall(codec, K, call, st);
    if |p| < K {
      KeyReadsBack(codec, K, p, v, ttl, now, KeyUpdates(codec, call, st, |p| - 1));
    } else {
      TreeReadsBack(codec, K, p, v, ttl, now, KeyUpdates(codec, call, st, K - 1));
    }
  }

  lemma FailsToReadBack<V(!new), R(!new)>(codec: Codec<V, R>, K: nat, p: Path, v: V,
      ttl: (Path, Option<V>) -> Option<Seconds>, now: Time)
    requires !Addressable(K, p)
    ensures Read(codec, K, DeepSet(codec, K, SetNodeCall(p, v, ttl, now), map[]), p, now) == None
  {
    if p != [] && K >= 2 {
      SetNodeParts<V, R>(codec, K, p, v, ttl, now, map[]);
      ChainedKeyLength(p);
      if |p| >= K {
        ChainedKeyLength(p[..K]);
      }
    }
  }

  /** `getNode(p)` returns what `setNode(p, v)` stored, whatever was stored before, exactly when the path is not
      empty, the key level is at least 2, and no empty first key is followed by others. */
  lemma ReadBackIff<V(!new), R(!new)>(codec: Codec<V, R>, K: nat, p: Path, v: V,
      ttl: (Path, Option<V>) -> Option<Seconds>, now: Time)
    requires codec.Lawful()
    ensures (forall st: Storage<R> ::
               Read(codec, K, DeepSet(codec, K, SetNodeCall(p, v, ttl, now), st), p, now) == Some(v))
            <==> Addressable(K, p)
  {
    if Addressable(K, p) {
      forall st: Storage<R>
        ensures Read(codec, K, DeepSet(codec, K, SetNodeCall(p, v, ttl, now), st), p, now) == Some(v)
      {
        ReadsBack(codec, K, p, v, ttl, now, st);
      }
    } else {
      FailsToReadBack<V, R>(codec, K, p, v, ttl, now);
      var st: Storage<R> := map[];
      assert Read(codec, K, DeepSet(codec, K, SetNodeCall(p, v, ttl, now), st), p, now) != Some(v);
    }
  }

  // ----- isolation

  /** The two paths are not held together: their keys differ, or they part inside one tree. */
  predicate Apart(K: nat, p: Path, q: Path)
  {
    || Join(Holder(K, p)) != Join(Holder(K, q))
    || (|p| >= K && |q| >= K && p[K..] != q[K..])
  }

  /** `setNode(p, v)` leaves `getNode(q)` alone. */
  ghost predicate LeavesAlone<V(!new), R(!new)>(codec: Codec<V, R>, K: nat, p: Path, v: V,
      ttl: (Path, Option<V>) -> Option<Seconds>, now: Time, q: Path, st: Storage<R>)
  {
    Read(codec, K, DeepSet(codec, K, SetNodeCall(p, v, ttl, now), st), q, now) == Read(codec, K, st, q, now)
  }

  lemma ApartInTree<V(!new), R(!new)>(codec: Codec<V, R>, K: nat, p: Path, v: V,
      ttl: (Path, Option<V>) -> Option<Seconds>, now: Time, q: Path, st: Storage<R>)
    requires codec.Lawful() && 2 <= K <= |p| && K <= |q| && p[0] != ""
    requires Join(p[..K]) == Join(q[..K]) && p[K..] != q[K..]
    ensures Read(codec, K, TreeUpdate(codec, SetNodeCall(p, v, ttl, now), st, K), q, now) == Read(codec, K, st, q, now)
  {
    var call := SetNodeCall(p, v, ttl, now);
    AddressableKey(K, p);
    TreeUpdateLookup(codec, K, call, st, q[K..]);
    ReadsTree(codec, K, st, q, now);
    ReadsTree(codec, K, TreeUpdate(codec, call, st, K), q, now);
  }

  lemma ApartIsolates<V(!new), R(!new)>(codec: Codec<V, R>, K: nat, p: Path, v: V,
      ttl: (Path, Option<V>) -> Option<Seconds>, now: Time, q: Path, st: Storage<R>)
    requires codec.Lawful() && K >= 2 && p != [] && q != [] && p[0] != "" && q[0] != ""
    requires SteadyAbove(codec, K, p, st, now) && Apart(K, p, q)
    ensures LeavesAlone(codec, K, p, v, ttl, now, q, st)
  {
    var call := SetNodeCall(p, v, ttl, now);
    AddressableKey(K, p);
    SetNodeParts(codec, K, p, v, ttl, now, st);
    if Join(Holder(K, p)) == Join(Holder(K, q)) {
      ApartInTree(codec, K, p, v, ttl, now, q, st);
    } else if |p| >= K {
      TreeUpdateFrame(codec, K, call, st, Join(Holder(K, q)));
    }
  }

  /** A tree with a value at one path. */
  lemma TreeHolding<V(!new), R(!new)>(codec: Codec<V, R>, K: nat, q: Path, v: V, now: Time) returns (t: Tree<R>)
    requires K <= |q|
    ensures WellKeyed(t) && Lookup(t, q[K..], now) == Some(codec.serialize(v))
  {
    var call := SetNodeCall(q, v, (_, _) => None, now);
    t := EnrichPath(codec, call, Blank(), K).tree;
    EnrichPathWellKeyed(codec, call, Blank<R>(), K);
    EnrichPathReads(codec, call, Blank<R>(), K, q[K..]);
    assert q[..K] + q[K..] == q;
  }

  lemma {:induction false} LongerKeys(p: Path, n: nat)
    requires 0 < n < |p|
    ensures |Join(p[..n])| < |Join(p)|
  {
    if n < |p| - 1 {
      LongerKeys(p[..|p| - 1], n);
      assert p[..|p| - 1][..n] == p[..n];
    }
  }

  /** A storage with nothing but this record has nothing above the end of the path. */
  lemma LoneRecord<V(!new), R(!new)>(codec: Codec<V, R>, K: nat, p: Path, b: R, now: Time)
    requires p != [] && p[0] != ""
    ensures SteadyAbove(codec, K, p, map[Join(p) := Record(b, None)], now)
  {
    forall n | 0 < n < |p|
      ensures ChainedKey(p[..n]).value != Join(p)
    {
      LongerKeys(p, n);
      ChainedKeyLength(p[..n]);
    }
  }

  /** A key level node over a tree: whatever the tree reads from the value's bytes, some storage tells. */
  lemma TreeIsOverwritten<V(!new), R(!new)>(codec: Codec<V, R>, K: nat, p: Path, v: V,
      ttl: (Path, Option<V>) -> Option<Seconds>, now: Time, q: Path) returns (st: Storage<R>)
    requires codec.Lawful() && K >= 2 && p != [] && p[0] != ""
    requires |p| < K <= |q| && Join(p) == Join(q[..K])
    ensures SteadyAbove(codec, K, p, st, now) && !LeavesAlone(codec, K, p, v, ttl, now, q, st)
  {
    AddressableKey(K, p);
    if Lookup(codec.deserializeTree(codec.serialize(v)), q[K..], now).Some? {
      st := map[];
    } else {
      var t := TreeHolding(codec, K, q, v, now);
      st := map[Join(p) := Record(codec.serializeTree(t), None)];
      LoneRecord(codec, K, p, codec.serializeTree(t), now);
    }
    SetNodeParts(codec, K, p, v, ttl, now, st);
  }

  lemma TogetherCollides<V(!new), R(!new)>(codec: Codec<V, R>, K: nat, p: Path, v: V,
      ttl: (Path, Option<V>) -> Option<Seconds>, now: Time, q: Path) returns (st: Storage<R>)
    requires codec.Lawful() && K >= 2 && p != [] && q != [] && p[0] != "" && q[0] != "" && !Apart(K, p, q)
    ensures SteadyAbove(codec, K, p, st, now) && !LeavesAlone(codec, K, p, v, ttl, now, q, st)
  {
    if |p| < K <= |q| {
      st := TreeIsOverwritten(codec, K, p, v, ttl, now, q);
    } else {
      st := map[];
      AddressableKey(K, p);
      SetNodeParts(codec, K, p, v, ttl, now, st);
      ReadsBack(codec, K, p, v, ttl, now, st);
      if |p| >= K {
        var call := SetNodeCall(p, v, ttl, now);
        ReadsTree(codec, K, TreeUpdate(codec, call, st, K), p, now);
        BlankReads<R>(p[K..], now);
      }
    }
  }

  /** In storages that are steady above the end of `p`, being apart is all it takes, for any one serializer. */
  lemma SteadyIsolationIff<V(!new), R(!new)>(codec: Codec<V, R>, K: nat, p: Path, v: V,
      ttl: (Path, Option<V>) -> Option<Seconds>, now: Time, q: Path)
    requires codec.Lawful() && K >= 2 && p != [] && q != [] && p[0] != "" && q[0] != ""
    ensures (forall st: Storage<R> :: SteadyAbove(codec, K, p, st, now) ==> LeavesAlone(codec, K, p, v, ttl, now, q, st))
            <==> Apart(K, p, q)
  {
    if Apart(K, p, q) {
      forall st: Storage<R> | SteadyAbove(codec, K, p, st, now)
        ensures LeavesAlone(codec, K, p, v, ttl, now, q, st)
      {
        ApartIsolates(codec, K, p, v, ttl, now, q, st);
      }
    } else {
      var st := TogetherCollides(codec, K, p, v, ttl, now, q);
    }
  }

  // ----- isolation in every storage

  /** A key level node above the end of `p` has the key of the tree that holds `q`, so `setNode(p, v)` takes the bytes
      of that tree for those of a value and may write them back changed. */
  predicate PassesTree(K: nat, p: Path, q: Path)
  {
    |q| >= K && exists n :: 0 < n < |p| && n < K && Join(p[..n]) == Join(q[..K])
  }

  predicate Clear(K: nat, p: Path, q: Path)
  {
    Apart(K, p, q) && !PassesTree(K, p, q)
  }

  /** Above the end of its path `setNode` leaves every key with bytes for the same value. */
  lemma {:induction false} AboveDecodesSame<V(!new), R(!new)>(codec: Codec<V, R>, p: Path, v: V,
      ttl: (Path, Option<V>) -> Option<Seconds>, now: Time, st: Storage<R>, n: nat, key: string)
    requires codec.Lawful() && n < |p|
    ensures codec.Decode(StorageGet(KeyUpdates(codec, SetNodeCall(p, v, ttl, now), st, n), key, now)) ==
            codec.Decode(StorageGet(st, key, now))
  {
    if n > 0 {
      AboveDecodesSame(codec, p, v, ttl, now, st, n - 1, key);
    }
  }

  lemma AboveReadsSame<V(!new), R(!new)>(codec: Codec<V, R>, K: nat, p: Path, v: V,
      ttl: (Path, Option<V>) -> Option<Seconds>, now: Time, q: Path, st: Storage<R>, n: nat)
    requires codec.Lawful() && K >= 2 && p != [] && q != [] && p[0] != "" && !PassesTree(K, p, q) && n < |p| && n < K
    ensures Read(codec, K, KeyUpdates(codec, SetNodeCall(p, v, ttl, now), st, n), q, now) == Read(codec, K, st, q, now)
  {
    var call := SetNodeCall(p, v, ttl, now);
    if |q| < K {
      AboveDecodesSame(codec, p, v, ttl, now, st, n, Join(q));
    } else {
      forall m | 0 < m <= n
        ensures ChainedKey(p[..m]) != Some(Join(q[..K]))
      {
        ChainedKeyLength(p[..m]);
      }
      KeyUpdatesFrame(codec, call, st, n, Join(q[..K]));
    }
  }

  lemma EndIsolates<V(!new), R(!new)>(codec: Codec<V, R>, K: nat, p: Path, v: V,
      ttl: (Path, Option<V>) -> Option<Seconds>, now: Time, q: Path, st: Storage<R>)
    requires codec.Lawful() && K >= 2 && p != [] && q != [] && p[0] != "" && Apart(K, p, q)
    ensures
      var call := SetNodeCall(p, v, ttl, now);
      Read(codec, K, if |p| < K then KeyUpdate(codec, call, st, p) else TreeUpdate(codec, call, st, K), q, now) ==
      Read(codec, K, st, q, now)
  {
    var call := SetNodeCall(p, v, ttl, now);
    AddressableKey(K, p);
    if Join(Holder(K, p)) == Join(Holder(K, q)) {
      ApartInTree(codec, K, p, v, ttl, now, q, st);
    } else if |p| >= K {
      TreeUpdateFrame(codec, K, call, st, Join(Holder(K, q)));
    }
  }

  /** For every serializer and every storage, `setNode(p, v)` leaves a path it is clear of alone. */
  lemma ClearIsolates<V(!new), R(!new)>(codec: Codec<V, R>, K: nat, p: Path, v: V,
      ttl: (Path, Option<V>) -> Option<Seconds>, now: Time, q: Path, st: Storage<R>)
    requires codec.Lawful() && K >= 2 && p != [] && q != [] && p[0] != "" && Clear(K, p, q)
    ensures LeavesAlone(codec, K, p, v, ttl, now, q, st)
  {
    var call := SetNodeCall(p, v, ttl, now);
    var n := |Holder(K, p)| - 1;
    EndOfCall(codec, K, call, st);
    AboveReadsSame(codec, K, p, v, ttl, now, q, st, n);
    EndIsolates(codec, K, p, v, ttl, now, q, KeyUpdates(codec, call, st, n));
  }

  /** `setNode(q, v)` on the empty storage leaves one record, a tree that reads `v` at `q`. */
  lemma LoneTree<V(!new), R(!new)>(codec: Codec<V, R>, K: nat, q: Path, v: V,
      ttl: (Path, Option<V>) -> Option<Seconds>, now: Time)
    requires codec.Lawful() && 2 <= K <= |q| && q[0] != ""
    ensures
      var st := DeepSet(codec, K, SetNodeCall(q, v, ttl, now), map[]);
      && Read(codec, K, st, q, now) == Some(v)
      && exists t :: StorageGet(st, Join(q[..K]), now) == Some(codec.serializeTree(t))
  {
    var call := SetNodeCall(q, v, ttl, now);
    SetNodeParts<V, R>(codec, K, q, v, ttl, now, map[]);
    AddressableKey(K, q);
    ReadsBack<V, R>(codec, K, q, v, ttl, now, map[]);
    var e := EnrichPath(codec, call, Blank<R>(), K);
    PersistTreeGet<V, R>(codec, map[], Join(q[..K]), Millis(LastTtl(codec, call, Blank<R>(), K)), e.tree, now, Join(q[..K]));
  }

  /** The segment at level `n` writes back what it read as a value, in the bytes of that value. */
  lemma PassingRewrites<V(!new), R(!new)>(codec: Codec<V, R>, K: nat, p: Path, v: V,
      ttl: (Path, Option<V>) -> Option<Seconds>, now: Time, st: Storage<R>, n: nat, b: R)
    requires 0 < n < |p| && n < K && p[0] != "" && StorageGet(st, Join(p[..n]), now) == Some(b)
    ensures StorageGet(KeyUpdates(codec, SetNodeCall(p, v, ttl, now), st, n), Join(p[..n]), now) ==
            Some(codec.serialize(codec.deserialize(b)))
  {
    var call := SetNodeCall(p, v, ttl, now);
    var key := Join(p[..n]);
    forall m | 0 < m <= n
      ensures ChainedKey(p[..m]) == Some(key) <==> m == n
    {
      ChainedKeyLength(p[..m]);
      if m < n {
        LongerKeys(p[..n], m);
        assert p[..n][..m] == p[..m];
      }
    }
    KeyUpdatesFrame(codec, call, st, n - 1, key);
    OneRewrite(codec, p, v, ttl, now, KeyUpdates(codec, call, st, n - 1), n, b);
  }

  lemma OneRewrite<V(!new), R(!new)>(codec: Codec<V, R>, p: Path, v: V,
      ttl: (Path, Option<V>) -> Option<Seconds>, now: Time, st: Storage<R>, n: nat, b: R)
    requires 0 < n < |p| && ChainedKey(p[..n]) == Some(Join(p[..n])) && StorageGet(st, Join(p[..n]), now) == Some(b)
    ensures StorageGet(KeyUpdate(codec, SetNodeCall(p, v, ttl, now), st, p[..n]), Join(p[..n]), now) ==
            Some(codec.serialize(codec.deserialize(b)))
  {
  }

  /** No longer prefix of the path has the key of a shorter one. */
  lemma LaterKeysDiffer(p: Path, n: nat)
    requires 0 < n < |p| && p[0] != ""
    ensures forall m :: n < m <= |p| ==> ChainedKey(p[..m]) != Some(Join(p[..n]))
  {
    forall m | n < m <= |p|
      ensures ChainedKey(p[..m]) != Some(Join(p[..n]))
    {
      ChainedKeyLength(p[..m]);
      LongerKeys(p[..m], n);
      assert p[..m][..n] == p[..n];
    }
  }

  /** The end of the call does not touch the key of a node above it. */
  lemma PassedIsKept<V(!new), R(!new)>(codec: Codec<V, R>, K: nat, p: Path, v: V,
      ttl: (Path, Option<V>) -> Option<Seconds>, now: Time, st: Storage<R>, n: nat)
    requires K >= 2 && 0 < n < |p| && n < K && p[0] != ""
    ensures
      var call := SetNodeCall(p, v, ttl, now);
      StorageGet(DeepSet(codec, K, call, st), Join(p[..n]), now) == StorageGet(KeyUpdates(codec, call, st, n), Join(p[..n]), now)
  {
    var call := SetNodeCall(p, v, ttl, now);
    var key := Join(p[..n]);
    var levels := KeyLevels(K, |p|);
    LaterKeysDiffer(p, n);
    KeyUpdatesFrom(codec, call, st, n, levels, key);
    AddressableKey(K, p);
    if levels < |p| {
      TreeUpdateFrame(codec, K, call, KeyUpdates(codec, call, st, levels), key);
    }
  }

  /** A value that `setNode(q, v)` stored, and `setNode(p, v)` loses on its way past the tree. */
  lemma PassedTreeIsLost<V(!new)>(write: V -> string, read: string -> V, K: nat, p: Path, v: V,
      ttl: (Path, Option<V>) -> Option<Seconds>, now: Time, q: Path)
    requires (forall x :: read(write(x)) == x) && K >= 2 && p != [] && q != [] && p[0] != "" && q[0] != "" && PassesTree(K, p, q)
    ensures
      var codec := Codecs.TaggedCodec(write, read, v);
      var st := DeepSet(codec, K, SetNodeCall(q, v, ttl, now), map[]);
      && Read(codec, K, st, q, now) == Some(v)
      && Read(codec, K, DeepSet(codec, K, SetNodeCall(p, v, ttl, now), st), q, now) == None
  {
    var codec := Codecs.TaggedCodec(write, read, v);
    Codecs.TaggedIsLawful(write, read, v);
    var st := DeepSet(codec, K, SetNodeCall(q, v, ttl, now), map[]);
    LoneTree(codec, K, q, v, ttl, now);
    var t :| StorageGet(st, Join(q[..K]), now) == Some(codec.serializeTree(t));
    var n :| 0 < n < |p| && n < K && Join(p[..n]) == Join(q[..K]);
    PassingRewrites(codec, K, p, v, ttl, now, st, n, codec.serializeTree(t));
    assert codec.deserialize(codec.serializeTree(t)) == v;
    PassedIsKept(codec, K, p, v, ttl, now, st, n);
    var after := DeepSet(codec, K, SetNodeCall(p, v, ttl, now), st);
    ReadsTree(codec, K, after, q, now);
    assert codec.deserializeTree(codec.serialize(v)) == Blank();
    BlankReads<string>(q[K..], now);
  }

  /** `setNode(p, v)` leaves `getNode(q)` alone whatever the serializers are and whatever is stored. */
  ghost predicate AlwaysLeavesAlone<V(!new)>(K: nat, p: Path, v: V, ttl: (Path, Option<V>) -> Option<Seconds>, now: Time, q: Path)
  {
    forall codec: Codec<V, string>, st: Storage<string> :: codec.Lawful() ==> LeavesAlone(codec, K, p, v, ttl, now, q, st)
  }

  /** Exactly which other paths `setNode(p, v)` leaves alone, over all lawful serializers to strings and all storages:
      those that are not held together with `p` and whose tree no node above the end of `p` shares the key of. A ':'
      below level K never matters. */
  lemma IsolationIff<V(!new)>(K: nat, p: Path, v: V, ttl: (Path, Option<V>) -> Option<Seconds>, now: Time, q: Path,
      write: V -> string, read: string -> V)
    requires K >= 2 && p != [] && q != [] && p[0] != "" && q[0] != ""
    requires forall x :: read(write(x)) == x
    ensures AlwaysLeavesAlone(K, p, v, ttl, now, q) <==> Clear(K, p, q)
  {
    var codec := Codecs.TaggedCodec(write, read, v);
    Codecs.TaggedIsLawful(write, read, v);
    if Clear(K, p, q) {
      forall codec: Codec<V, string>, st: Storage<string> | codec.Lawful()
        ensures LeavesAlone(codec, K, p, v, ttl, now, q, st)
      {
        ClearIsolates(codec, K, p, v, ttl, now, q, st);
      }
    } else if PassesTree(K, p, q) {
      PassedTreeIsLost(write, read, K, p, v, ttl, now, q);
      var st := DeepSet(codec, K, SetNodeCall(q, v, ttl, now), map[]);
      assert !LeavesAlone(codec, K, p, v, ttl, now, q, st);
    } else {
      var st := TogetherCollides(codec, K, p, v, ttl, now, q);
      assert !LeavesAlone(codec, K, p, v, ttl, now, q, st);
    }
  }

  /** Paths with plain keys above level K are clear of each other unless they are the same path. */
  lemma ValidPathsAreClear(K: nat, p: Path, q: Path)
    requires K >= 1 && ValidPath(K, p) && ValidPath(K, q)
    ensures Apart(K, p, q) <==> p != q
    ensures Clear(K, p, q) <==> p != q
  {
    forall n | 0 < n < |p| && n < K && |q| >= K
      ensures Join(p[..n]) != Join(q[..K])
    {
      PrefixKey(K, p, n);
      JoinInjective(p[..n], q[..K]);
    }
    JoinInjective(Holder(K, p), Holder(K, q));
    if |p| >= K && |q| >= K {
      assert p == p[..K] + p[K..] && q == q[..K] + q[K..];
    }
  }

  /** With a separator inside a key, two different paths are one node: writing one changes the other. */
  lemma SeparatorInKeyCollides<V(!new), R(!new)>(codec: Codec<V, R>, K: nat, v: V, w: V,
      ttl: (Path, Option<V>) -> Option<Seconds>, now: Time, st: Storage<R>)
    requires codec.Lawful() && K >= 3 && v != w
    requires Read(codec, K, st, ["a", "b"], now) == Some(v)
    ensures Read(codec, K, DeepSet(codec, K, SetNodeCall(["a:b"], w, ttl, now), st), ["a", "b"], now) == Some(w)
  {
    ReadsBack(codec, K, ["a:b"], w, ttl, now, st);
    assert Join(["a", "b"]) == "a:b" by {
      JoinCons("a", ["b"]);
      assert ["a"] + ["b"] == ["a", "b"];
    }
  }
}

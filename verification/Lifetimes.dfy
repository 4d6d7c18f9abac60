/** How long a stored value can be read: the ttl of a write, the deadline of a tree node and the expiry of its key. */
module Lifetimes {
  import opened Wrappers
  import opened Keys
  import opened Trees
  import opened HybridStore
  import opened PathMap
  import opened ReadBack

  /** The deadline of something given this ttl at `now`. */
  function DeadlineOf(ttl: Option<Seconds>, now: Time): (deadline: int)
    requires ttl.Some?
    ensures deadline - now == 1000 * ttl.value
  {
    now + ttl.value * MILLISECONDS_IN_A_SECOND
  }

  /** The later of two expiries, an old one being that of a live key. */
  function ExpiryAfter(longest: Option<Seconds>, left: Option<nat>, now: Time): Option<int>
  {
    if !Timed(longest) then None
    else if left.Some? && DeadlineOf(longest, now) < now + left.value then Some(now + left.value)
    else Some(DeadlineOf(longest, now))
  }

  /** Still alive at `later`, for something given `ttl` at `now`. */
  predicate Lasts(ttl: Option<Seconds>, now: Time, later: Time)
  {
    Timed(ttl) ==> later < DeadlineOf(ttl, now)
  }

  /** The node at the end of the path is the one that `enrichTree` gets the ttl for. */
  lemma {:induction false} EnrichPathEnd<V(!new), R(!new)>(codec: Codec<V, R>, call: Call<V>, t: Tree<R>, i: nat)
    requires i <= |call.path|
    ensures
      var s := call.path[i..];
      var before := if At(t, s).Some? then At(t, s).value else Blank();
      var current := Live(before, call.now);
      var value := StepValue(codec, call, call.path, current);
      && At(EnrichPath(codec, call, t, i).tree, s) ==
         Some(EnrichTree(codec, before, current, value, call.ttl(call.path, value), call.now).tree)
      && LastTtl(codec, call, t, i) == call.ttl(call.path, value)
      && (EnrichTree(codec, before, current, value, call.ttl(call.path, value), call.now).changed ==>
            EnrichPath(codec, call, t, i).changed)
    decreases |call.path| - i
  {
    if i == |call.path| {
      assert call.path[..i] == call.path;
    } else {
      var k := call.path[i];
      var q := call.path[..i];
      var here := EnrichTree(codec, t, Live(t, call.now), StepValue(codec, call, q, Live(t, call.now)), None, call.now);
      var next := Child(t, k);
      var sub := if next.Some? then next.value else Blank();
      var below := EnrichPath(codec, call, sub, i + 1);
      FindPut(KidsOf(here.tree), k, below.tree, k);
      assert call.path[i..][1..] == call.path[i + 1..];
      EnrichPathEnd(codec, call, sub, i + 1);
    }
  }

  /** The key level loop above the end of the path leaves the key that holds the path alone. */
  lemma AboveKeepsHolder<V(!new), R(!new)>(codec: Codec<V, R>, K: nat, call: Call<V>, st: Storage<R>)
    requires Addressable(K, call.path)
    ensures
      var key := Join(Holder(K, call.path));
      var above := KeyUpdates(codec, call, st, |Holder(K, call.path)| - 1);
      && (key in above <==> key in st) && (key in st ==> above[key] == st[key])
      && forall later: Time :: ReadBytes(codec, K, above, call.path, later) == ReadBytes(codec, K, st, call.path, later)
  {
    var held := Holder(K, call.path);
    forall m | 0 < m <= |held| - 1
      ensures ChainedKey(call.path[..m]) != Some(Join(held))
    {
      assert held[..m] == call.path[..m];
      LongerKeys(held, m);
      ChainedKeyLength(call.path[..m]);
    }
    KeyUpdatesFrame(codec, call, st, |held| - 1, Join(held));
  }

  /** What is read at `later` of a value written at `now` over other bytes. */
  function ReadLater<V>(v: V, ttl: Option<Seconds>, now: Time, later: Time): Option<V>
  {
    if Lasts(ttl, now, later) then Some(v) else None
  }

  lemma TreeNodeLifetime<V(!new), R(!new)>(codec: Codec<V, R>, K: nat, st: Storage<R>, p: Path, v: V,
      ttl: (Path, Option<V>) -> Option<Seconds>, now: Time, later: Time)
    requires codec.Lawful() && 2 <= K <= |p| && Addressable(K, p) && now <= later
    requires ReadBytes(codec, K, st, p, now) != Some(codec.serialize(v))
    ensures Read(codec, K, TreeUpdate(codec, SetNodeCall(p, v, ttl, now), st, K), p, later) ==
            ReadLater(v, ttl(p, Some(v)), now, later)
  {
    var call := SetNodeCall(p, v, ttl, now);
    AddressableKey(K, p);
    var root := LoadTree(codec, StorageGet(st, Join(p[..K]), now));
    var e := EnrichPath(codec, call, root, K);
    EnrichPathEnd(codec, call, root, K);
    EnrichPathWellKeyed(codec, call, root, K);
    ReadsTree(codec, K, st, p, now);
    assert e.changed;
    ReadsTree(codec, K, TreeUpdate(codec, call, st, K), p, later);
  }

  lemma KeyNodeLifetime<V(!new), R(!new)>(codec: Codec<V, R>, K: nat, st: Storage<R>, p: Path, v: V,
      ttl: (Path, Option<V>) -> Option<Seconds>, now: Time, later: Time)
    requires codec.Lawful() && |p| < K && Addressable(K, p) && now <= later
    requires ReadBytes(codec, K, st, p, now) != Some(codec.serialize(v))
    ensures Read(codec, K, KeyUpdate(codec, SetNodeCall(p, v, ttl, now), st, p), p, later) ==
            ReadLater(v, ttl(p, Some(v)), now, later)
  {
    AddressableKey(K, p);
  }

  lemma ChangedLifetime<V(!new), R(!new)>(codec: Codec<V, R>, K: nat, st: Storage<R>, p: Path, v: V,
      ttl: (Path, Option<V>) -> Option<Seconds>, now: Time, later: Time)
    requires codec.Lawful() && Addressable(K, p) && now <= later
    requires ReadBytes(codec, K, st, p, now) != Some(codec.serialize(v))
    ensures Read(codec, K, DeepSet(codec, K, SetNodeCall(p, v, ttl, now), st), p, later) ==
            ReadLater(v, ttl(p, Some(v)), now, later)
  {
    var call := SetNodeCall(p, v, ttl, now);
    AboveKeepsHolder(codec, K, call, st);
    EndOfCall(codec, K, call, st);
    if |p| < K {
      KeyNodeLifetime(codec, K, KeyUpdates(codec, call, st, |p| - 1), p, v, ttl, now, later);
    } else {
      TreeNodeLifetime(codec, K, KeyUpdates(codec, call, st, K - 1), p, v, ttl, now, later);
    }
  }

  /** What is read at the nodes above the end of the path are the bytes its values are serialized to. */
  ghost predicate SteadyPath<V(!new), R(!new)>(codec: Codec<V, R>, K: nat, p: Path, st: Storage<R>, now: Time)
  {
    forall n :: 0 < n < |p| ==> Steady(codec, ReadBytes(codec, K, st, p[..n], now))
  }

  /** Setting the bytes that are there changes nothing in a tree whose nodes above are steady. */
  lemma {:induction false} EnrichPathQuiet<V(!new), R(!new)>(codec: Codec<V, R>, p: Path, v: V,
      ttl: (Path, Option<V>) -> Option<Seconds>, now: Time, t: Tree<R>, i: nat)
    requires i <= |p| && Lookup(t, p[i..], now) == Some(codec.serialize(v))
    requires forall n :: i <= n < |p| ==> Steady(codec, Lookup(t, p[i..n], now))
    ensures !EnrichPath(codec, SetNodeCall(p, v, ttl, now), t, i).changed
    decreases |p| - i
  {
    if i < |p| {
      var sub, next := Child(t, p[i]).value, i + 1;
      assert p[i..][1..] == p[next..];
      assert Steady(codec, Lookup(t, p[i..i], now));
      forall n | next <= n < |p|
        ensures Steady(codec, Lookup(sub, p[next..n], now))
      {
        assert Steady(codec, Lookup(t, p[i..n], now));
        assert p[i..n][1..] == p[next..n];
      }
      EnrichPathQuiet(codec, p, v, ttl, now, sub, next);
    }
  }

  lemma SteadyKeys<V(!new), R(!new)>(codec: Codec<V, R>, K: nat, p: Path, st: Storage<R>, now: Time)
    requires Addressable(K, p) && SteadyPath(codec, K, p, st, now)
    ensures SteadyAbove(codec, K, p, st, now)
  {
    forall n | 0 < n < |p| && n < K
      ensures Steady(codec, StorageGet(st, ChainedKey(p[..n]).value, now))
    {
      ChainedKeyLength(p[..n]);
      assert Steady(codec, ReadBytes(codec, K, st, p[..n], now));
    }
  }

  lemma SameBytesKept<V(!new), R(!new)>(codec: Codec<V, R>, K: nat, st: Storage<R>, p: Path, v: V,
      ttl: (Path, Option<V>) -> Option<Seconds>, now: Time)
    requires Addressable(K, p) && SteadyPath(codec, K, p, st, now)
    requires ReadBytes(codec, K, st, p, now) == Some(codec.serialize(v))
    ensures DeepSet(codec, K, SetNodeCall(p, v, ttl, now), st) == st
  {
    AddressableKey(K, p);
    SteadyKeys(codec, K, p, st, now);
    SetNodeParts(codec, K, p, v, ttl, now, st);
    if |p| >= K {
      ReadsTree(codec, K, st, p, now);
      var root := LoadTree(codec, StorageGet(st, Join(p[..K]), now));
      forall n | K <= n < |p|
        ensures Steady(codec, Lookup(root, p[K..n], now))
      {
        assert Steady(codec, ReadBytes(codec, K, st, p[..n], now));
        ReadsTree(codec, K, st, p[..n], now);
        assert p[..n][K..] == p[K..n] && p[..n][..K] == p[..K];
      }
      EnrichPathQuiet(codec, p, v, ttl, now, root, K);
    }
  }

  /** What carries the lifetime of the node is the same in both storages: its own record, or its node in a tree. */
  predicate SameLifetime<V(!new), R(!new, ==)>(codec: Codec<V, R>, K: nat, st: Storage<R>, after: Storage<R>, p: Path, now: Time)
    requires K >= 1
  {
    if |p| < K then SameRecord(after, st, Join(p)) else StoredNode(codec, K, after, p, now) == StoredNode(codec, K, st, p, now)
  }

  lemma TreeNodeNotRenewed<V(!new), R(!new)>(codec: Codec<V, R>, K: nat, st: Storage<R>, p: Path, v: V,
      ttl: (Path, Option<V>) -> Option<Seconds>, now: Time)
    requires codec.Lawful() && 2 <= K <= |p| && Addressable(K, p)
    requires ReadBytes(codec, K, st, p, now) == Some(codec.serialize(v))
    ensures StoredNode(codec, K, TreeUpdate(codec, SetNodeCall(p, v, ttl, now), st, K), p, now) == StoredNode(codec, K, st, p, now)
  {
    var call := SetNodeCall(p, v, ttl, now);
    AddressableKey(K, p);
    var key := Join(p[..K]);
    var root := LoadTree(codec, StorageGet(st, key, now));
    var e := EnrichPath(codec, call, root, K);
    ReadsTree(codec, K, st, p, now);
    EnrichPathEnd(codec, call, root, K);
    assert At(e.tree, p[K..]) == At(root, p[K..]);
    EnrichPathWellKeyed(codec, call, root, K);
    PersistTreeGet(codec, st, key, Millis(LastTtl(codec, call, root, K)), e.tree, now, key);
  }

  lemma NotRenewed<V(!new), R(!new)>(codec: Codec<V, R>, K: nat, st: Storage<R>, p: Path, v: V,
      ttl: (Path, Option<V>) -> Option<Seconds>, now: Time)
    requires codec.Lawful() && Addressable(K, p) && ReadBytes(codec, K, st, p, now) == Some(codec.serialize(v))
    ensures SameLifetime(codec, K, st, DeepSet(codec, K, SetNodeCall(p, v, ttl, now), st), p, now)
  {
    var call := SetNodeCall(p, v, ttl, now);
    AboveKeepsHolder(codec, K, call, st);
    AddressableKey(K, p);
    EndOfCall(codec, K, call, st);
    if |p| >= K {
      TreeNodeNotRenewed(codec, K, KeyUpdates(codec, call, st, K - 1), p, v, ttl, now);
    }
  }

  /** A value set over other bytes is read until its own ttl is over and not after it, at key level and tree level
      alike; without a ttl it is read for ever. Setting the bytes that are there never renews their lifetime, and in a
      storage that is steady along the path it changes nothing at all. */
  lemma SetNodeLifetime<V(!new), R(!new)>(codec: Codec<V, R>, K: nat, st: Storage<R>, p: Path, v: V,
      ttl: (Path, Option<V>) -> Option<Seconds>, now: Time, later: Time)
    requires codec.Lawful() && Addressable(K, p) && now <= later
    ensures
      var after := DeepSet(codec, K, SetNodeCall(p, v, ttl, now), st);
      if ReadBytes(codec, K, st, p, now) == Some(codec.serialize(v)) then
        SameLifetime(codec, K, st, after, p, now) && (SteadyPath(codec, K, p, st, now) ==> after == st)
      else after != st && Read(codec, K, after, p, later) == ReadLater(v, ttl(p, Some(v)), now, later)
  {
    if ReadBytes(codec, K, st, p, now) != Some(codec.serialize(v)) {
      ChangedLifetime(codec, K, st, p, v, ttl, now, later);
      BytesReadBack(codec, K, st, p, v, ttl, now);
    } else {
      NotRenewed(codec, K, st, p, v, ttl, now);
      if SteadyPath(codec, K, p, st, now) {
        SameBytesKept(codec, K, st, p, v, ttl, now);
      }
    }
  }

  /** The bytes read back are those of the value. */
  lemma BytesReadBack<V(!new), R(!new)>(codec: Codec<V, R>, K: nat, st: Storage<R>, p: Path, v: V,
      ttl: (Path, Option<V>) -> Option<Seconds>, now: Time)
    requires codec.Lawful() && Addressable(K, p)
    ensures ReadBytes(codec, K, DeepSet(codec, K, SetNodeCall(p, v, ttl, now), st), p, now) == Some(codec.serialize(v))
  {
    var call := SetNodeCall(p, v, ttl, now);
    EndOfCall(codec, K, call, st);
    if |p| < K {
      KeyBytesBack(codec, K, KeyUpdates(codec, call, st, |p| - 1), p, v, ttl, now);
    } else {
      TreeBytesBack(codec, K, KeyUpdates(codec, call, st, K - 1), p, v, ttl, now);
    }
  }

  lemma KeyBytesBack<V(!new), R(!new)>(codec: Codec<V, R>, K: nat, st: Storage<R>, p: Path, v: V,
      ttl: (Path, Option<V>) -> Option<Seconds>, now: Time)
    requires Addressable(K, p) && |p| < K
    ensures ReadBytes(codec, K, KeyUpdate(codec, SetNodeCall(p, v, ttl, now), st, p), p, now) == Some(codec.serialize(v))
  {
    AddressableKey(K, p);
  }

  lemma TreeBytesBack<V(!new), R(!new)>(codec: Codec<V, R>, K: nat, st: Storage<R>, p: Path, v: V,
      ttl: (Path, Option<V>) -> Option<Seconds>, now: Time)
    requires codec.Lawful() && Addressable(K, p) && K <= |p|
    ensures ReadBytes(codec, K, TreeUpdate(codec, SetNodeCall(p, v, ttl, now), st, K), p, now) == Some(codec.serialize(v))
  {
    var call := SetNodeCall(p, v, ttl, now);
    AddressableKey(K, p);
    TreeUpdateLookup(codec, K, call, st, p[K..]);
    ReadsTree(codec, K, TreeUpdate(codec, call, st, K), p, now);
  }

  // ----- the life of a tree key

  /** The key can be read at `later`. */
  predicate Alive<R>(st: Storage<R>, key: string, later: Time)
  {
    StorageGet(st, key, later).Some?
  }

  /** Writing a tree never shortens the life of its key, except in one case: a key that was to live
      for ever gets an end from a write with a ttl. */
  lemma TreeWriteShortensIff<V(!new), R(!new)>(codec: Codec<V, R>, st: Storage<R>, key: string, ttl: Option<nat>, t: Tree<R>, now: Time)
    requires Alive(st, key, now)
    ensures (forall later: Time :: now <= later && Alive(st, key, later) ==> Alive(PersistTree(codec, st, key, ttl, t, now), key, later))
            <==> !(Timed(ttl) && st[key].expiry.None?)
  {
    var after := PersistTree(codec, st, key, ttl, t, now);
    if Timed(ttl) && st[key].expiry.None? {
      var later: Time := now + ttl.value;
      assert Alive(st, key, later) && !Alive(after, key, later);
    }
  }

  /** In that case every other node of the tree goes with it, whatever it was promised. */
  lemma PersistentNodeIsLost<V(!new), R(!new)>(codec: Codec<V, R>, K: nat, st: Storage<R>, p: Path, v: V,
      ttl: (Path, Option<V>) -> Option<Seconds>, now: Time, q: Path, later: Time)
    requires codec.Lawful() && 2 <= K <= |p| && Addressable(K, p) && K <= |q| && p[..K] == q[..K]
    requires ReadBytes(codec, K, st, p, now) != Some(codec.serialize(v))
    requires Alive(st, Join(p[..K]), now) && st[Join(p[..K])].expiry.None?
    requires Timed(ttl(p, Some(v))) && DeadlineOf(ttl(p, Some(v)), now) <= later
    ensures Read(codec, K, DeepSet(codec, K, SetNodeCall(p, v, ttl, now), st), q, later) == None
  {
    var call := SetNodeCall(p, v, ttl, now);
    AboveKeepsHolder(codec, K, call, st);
    AddressableKey(K, p);
    var above := KeyUpdates(codec, call, st, K - 1);
    var root := LoadTree(codec, StorageGet(above, Join(p[..K]), now));
    EnrichPathEnd(codec, call, root, K);
    ReadsTree(codec, K, above, p, now);
    ReadsTree(codec, K, TreeUpdate(codec, call, above, K), q, later);
    BlankReads<R>(q[K..], later);
  }

  // ----- the running maximum of ttls

  /** `getTtl` over a list of ttls. */
  function MaxTtl(ttls: seq<Option<Seconds>>): Option<Seconds>
  {
    if ttls == [] then None else GetTtl(ttls[|ttls| - 1], MaxTtl(ttls[..|ttls| - 1]))
  }

  /** The result is one of the ttls and covers all of them; a missing or zero ttl counts for nothing. */
  lemma {:induction false} MaxTtlIsMaximum(ttls: seq<Option<Seconds>>, i: nat)
    requires i < |ttls|
    ensures Timed(ttls[i]) ==> Timed(MaxTtl(ttls)) && ttls[i].value <= MaxTtl(ttls).value
    ensures MaxTtl(ttls) == None || (Timed(MaxTtl(ttls)) && MaxTtl(ttls) in ttls)
  {
    var before := ttls[..|ttls| - 1];
    if i < |before| {
      MaxTtlIsMaximum(before, i);
    } else if before != [] {
      MaxTtlIsMaximum(before, 0);
    }
  }
}

/** What one call of `deepTreeSet` leaves, record by record and node by node: bytes, deadlines and expiries, and so what
    is read at every later time. */
module DeepSetEffects {
  import opened Wrappers
  import opened Keys
  import opened Trees
  import opened HybridStore
  import opened PathMap
  import opened Lifetimes

  /** A step left with this value over these bytes is written. */
  predicate Changes<V(!new), R(!new, ==)>(codec: Codec<V, R>, current: Option<R>, left: Option<V>)
  {
    left.Some? && current != Some(codec.serialize(left.value))
  }

  /** The deadline or expiry of something written at `now` with this ttl. */
  function EndOf(ttl: Option<Seconds>, now: Time): Option<int>
  {
    if Timed(ttl) then Some(DeadlineOf(ttl, now)) else None
  }

  // ----- a node with a key of its own

  /** A key level node on the path is written with its own step's ttl, if its step changes it; no other one is touched. */
  ghost predicate KeyEffect<V(!new), R(!new)>(codec: Codec<V, R>, call: Call<V>, st: Storage<R>, after: Storage<R>, q: Path)
  {
    var key := Join(q);
    var current := StorageGet(st, key, call.now);
    var left := StepValue(codec, call, q, current);
    if q <= call.path && Changes(codec, current, left) then
      key in after && after[key] == Record(codec.serialize(left.value), EndOf(call.ttl(q, left), call.now))
    else SameRecord(after, st, key)
  }

  lemma OneKeyEffect<V(!new), R(!new)>(codec: Codec<V, R>, call: Call<V>, st: Storage<R>, q: Path)
    requires q != [] && q <= call.path && ChainedKey(q) == Some(Join(q))
    ensures KeyEffect(codec, call, st, KeyUpdate(codec, call, st, q), q)
  {
  }

  lemma KeyEffectLocal<V(!new), R(!new)>(codec: Codec<V, R>, call: Call<V>, st: Storage<R>, mid: Storage<R>, last: Storage<R>, after: Storage<R>, q: Path)
    requires SameRecord(mid, st, Join(q)) && SameRecord(after, last, Join(q)) && KeyEffect(codec, call, mid, last, q)
    ensures KeyEffect(codec, call, st, after, q)
  {
    assert StorageGet(st, Join(q), call.now) == StorageGet(mid, Join(q), call.now);
  }

  /** Of the keys on the path, only its own one is that of `q`. */
  lemma PrefixOfKey(K: nat, path: Path, n: nat, q: Path)
    requires n < K && n <= |path| && ValidPath(K, path) && ValidPath(K, q) && |q| < K
    ensures forall m :: 0 < m <= n ==> (ChainedKey(path[..m]) == Some(Join(q)) <==> q == path[..m])
  {
    forall m | 0 < m <= n
      ensures ChainedKey(path[..m]) == Some(Join(q)) <==> q == path[..m]
    {
      PrefixKey(K, path, m);
      JoinInjective(q, path[..m]);
    }
  }

  lemma PrefixEffect<V(!new), R(!new)>(codec: Codec<V, R>, K: nat, call: Call<V>, st: Storage<R>, n: nat, q: Path)
    requires n < K && n <= |call.path| && ValidPath(K, call.path) && q != [] && q <= call.path && |q| <= n
    ensures KeyEffect(codec, call, st, KeyUpdates(codec, call, st, n), q)
  {
    var l := |q|;
    var mid, last := KeyUpdates(codec, call, st, l - 1), KeyUpdates(codec, call, st, l);
    assert q == call.path[..l];
    PrefixOfKey(K, call.path, n, q);
    assert SameRecord(mid, st, Join(q)) by {
      KeyUpdatesFrame(codec, call, st, l - 1, Join(q));
    }
    assert SameRecord(KeyUpdates(codec, call, st, n), last, Join(q)) by {
      KeyUpdatesFrom(codec, call, st, l, n, Join(q));
    }
    OneKeyEffect(codec, call, mid, q);
    KeyEffectLocal(codec, call, st, mid, last, KeyUpdates(codec, call, st, n), q);
  }

  lemma KeyUpdatesEffect<V(!new), R(!new)>(codec: Codec<V, R>, K: nat, call: Call<V>, st: Storage<R>, n: nat, q: Path)
    requires n < K && n <= |call.path| && ValidPath(K, call.path) && ValidPath(K, q) && |q| < K && (q <= call.path ==> |q| <= n)
    ensures KeyEffect(codec, call, st, KeyUpdates(codec, call, st, n), q)
  {
    if q <= call.path {
      PrefixEffect(codec, K, call, st, n, q);
    } else {
      PrefixOfKey(K, call.path, n, q);
      KeyUpdatesFrame(codec, call, st, n, Join(q));
    }
  }

  // ----- a node in a tree

  /** The node before the call, an empty one if there is none. */
  function OrBlank<R>(n: Option<Tree<R>>): Tree<R>
  {
    if n.Some? then n.value else Blank()
  }

  /** The node `n` at `q` becomes `m`: if its step changes it, it gets the value, and of deadlines only that of the end
      of the path with a ttl; its children keep their order, the next node of the path coming last if it is new. */
  predicate NodeWritten<V(!new), R(!new, ==)>(codec: Codec<V, R>, call: Call<V>, q: Path, n: Tree<R>, m: Tree<R>)
    requires q <= call.path
  {
    var current := Live(n, call.now);
    var left := StepValue(codec, call, q, current);
    var falsy := n.deadline == Some(0);
    var keys := KeyList(KidsOf(n));
    && m.value == (if Changes(codec, current, left) then Some(codec.serialize(left.value)) else n.value)
    && m.deadline == (if !Changes(codec, current, left) then n.deadline
                      else if q == call.path && Timed(call.ttl(q, left)) then Some(DeadlineOf(call.ttl(q, left), call.now))
                      else if falsy then n.deadline else None)
    && KeyList(KidsOf(m)) == if q == call.path || call.path[|q|] in keys then keys else keys + [call.path[|q|]]
  }

  /** The node at `q` before and after the call. */
  predicate NodeEffect<V(!new), R(!new, ==)>(codec: Codec<V, R>, call: Call<V>, q: Path, before: Option<Tree<R>>, after: Option<Tree<R>>)
  {
    if q <= call.path then after.Some? && NodeWritten(codec, call, q, OrBlank(before), after.value) else after == before
  }

  lemma EnrichHereEffect<V(!new), R(!new)>(codec: Codec<V, R>, call: Call<V>, t: Tree<R>, i: nat)
    requires i <= |call.path|
    ensures NodeEffect(codec, call, call.path[..i], Some(t), Some(EnrichPath(codec, call, t, i).tree))
  {
    var q := call.path[..i];
    if i == |call.path| {
      assert q == call.path;
    } else {
      var k := call.path[i];
      var here := EnrichTree(codec, t, Live(t, call.now), StepValue(codec, call, q, Live(t, call.now)), None, call.now);
      var next := Child(t, k);
      var sub := if next.Some? then next.value else Blank();
      PutKeyList(KidsOf(here.tree), k, EnrichPath(codec, call, sub, i + 1).tree);
    }
  }

  /** The next node of the path after the edit. */
  lemma EnrichPathChild<V(!new), R(!new)>(codec: Codec<V, R>, call: Call<V>, t: Tree<R>, i: nat)
    requires i < |call.path|
    ensures
      var next := Child(t, call.path[i]);
      var sub := if next.Some? then next.value else Blank();
      Child(EnrichPath(codec, call, t, i).tree, call.path[i]) == Some(EnrichPath(codec, call, sub, i + 1).tree)
  {
    var k := call.path[i];
    var here := EnrichTree(codec, t, Live(t, call.now), StepValue(codec, call, call.path[..i], Live(t, call.now)), None, call.now);
    var next := Child(t, k);
    var sub := if next.Some? then next.value else Blank();
    FindPut(KidsOf(here.tree), k, EnrichPath(codec, call, sub, i + 1).tree, k);
  }

  lemma {:induction false} EnrichPathEffect<V(!new), R(!new)>(codec: Codec<V, R>, call: Call<V>, t: Tree<R>, i: nat, s: Path)
    requires i <= |call.path| && s <= call.path[i..]
    ensures NodeEffect(codec, call, call.path[..i] + s, At(t, s), At(EnrichPath(codec, call, t, i).tree, s))
    decreases |call.path| - i
  {
    if s == [] {
      EnrichHereEffect(codec, call, t, i);
      assert call.path[..i] + s == call.path[..i];
    } else {
      var k := call.path[i];
      var next := Child(t, k);
      var sub := if next.Some? then next.value else Blank();
      EnrichPathChild(codec, call, t, i);
      PathStep(call.path, i, s);
      EnrichPathEffect(codec, call, sub, i + 1, s[1..]);
      if next.None? && s[1..] != [] {
        assert At(Blank<R>(), s[1..]).None?;
      }
    }
  }

  /** The step at `q` finds its node and leaves it as it is. */
  predicate Quiet<V(!new), R(!new, ==)>(codec: Codec<V, R>, call: Call<V>, q: Path, n: Option<Tree<R>>)
  {
    n.Some? && var current := Live(n.value, call.now); !Changes(codec, current, StepValue(codec, call, q, current))
  }

  lemma EnrichChangedHere<V(!new), R(!new)>(codec: Codec<V, R>, call: Call<V>, t: Tree<R>, i: nat)
    requires i <= |call.path|
    ensures EnrichPath(codec, call, t, i).changed <==>
            !Quiet(codec, call, call.path[..i], Some(t)) ||
            (i < |call.path| && var next := Child(t, call.path[i]);
                                next.None? || EnrichPath(codec, call, next.value, i + 1).changed)
  {
  }

  /** The tree is flagged as changed exactly when some step of the path is not quiet. */
  lemma {:induction false} EnrichPathChangedIff<V(!new), R(!new)>(codec: Codec<V, R>, call: Call<V>, t: Tree<R>, i: nat)
    requires i <= |call.path|
    ensures EnrichPath(codec, call, t, i).changed <==>
            exists s :: s <= call.path[i..] && !Quiet(codec, call, call.path[..i] + s, At(t, s))
    decreases |call.path| - i
  {
    var q := call.path[..i];
    EnrichChangedHere(codec, call, t, i);
    assert q + [] == q && [] <= call.path[i..];
    if i < |call.path| {
      var k := call.path[i];
      var next := Child(t, k);
      if next.Some? {
        EnrichPathChangedIff(codec, call, next.value, i + 1);
      }
      if EnrichPath(codec, call, t, i).changed && Quiet(codec, call, q, Some(t)) {
        var r: Path := [];
        if next.Some? {
          r :| r <= call.path[i + 1..] && !Quiet(codec, call, call.path[..i + 1] + r, At(next.value, r));
        }
        var s := [k] + r;
        PathStep(call.path, i, s);
        assert s[1..] == r;
        assert !Quiet(codec, call, q + s, At(t, s));
      }
      if s :| s <= call.path[i..] && !Quiet(codec, call, q + s, At(t, s)) {
        if s == [] {
          assert !Quiet(codec, call, q, Some(t));
        } else if next.Some? {
          PathStep(call.path, i, s);
          assert !Quiet(codec, call, call.path[..i + 1] + s[1..], At(next.value, s[1..]));
        }
      }
    } else if s :| s <= call.path[i..] && !Quiet(codec, call, q + s, At(t, s)) {
      assert s == [];
    }
  }

  // ----- a whole tree

  /** Every step of the call below level K is quiet in the tree. */
  ghost predicate AllQuiet<V(!new), R(!new)>(codec: Codec<V, R>, K: nat, call: Call<V>, t: Tree<R>)
    requires K <= |call.path|
  {
    forall s :: s <= call.path[K..] ==> Quiet(codec, call, call.path[..K] + s, At(t, s))
  }

  /** The ttl of the step at the end of the path. */
  function EndTtl<V(!new), R(!new)>(codec: Codec<V, R>, K: nat, call: Call<V>, t: Tree<R>): Option<Seconds>
    requires K <= |call.path|
  {
    call.ttl(call.path, StepValue(codec, call, call.path, Live(OrBlank(At(t, call.path[K..])), call.now)))
  }

  /** The key of a tree: not touched by a call elsewhere or one that is quiet throughout; otherwise it expires with the ttl
      of the end of the path, or with what it had left if that is longer, and never without a ttl. */
  ghost predicate TreeKeyEffect<V(!new), R(!new)>(codec: Codec<V, R>, K: nat, call: Call<V>, st: Storage<R>, after: Storage<R>, r: Path)
  {
    var key := Join(r);
    var t := LoadTree(codec, StorageGet(st, key, call.now));
    if !(r <= call.path) || |r| != K || AllQuiet(codec, K, call, t) then SameRecord(after, st, key)
    else key in after && after[key].expiry == ExpiryAfter(EndTtl(codec, K, call, t), CurrentTtl(st, key, call.now), call.now)
  }

  lemma TreeUpdateKeyEffect<V(!new), R(!new)>(codec: Codec<V, R>, K: nat, call: Call<V>, st: Storage<R>)
    requires 2 <= K <= |call.path| && ValidPath(K, call.path)
    ensures TreeKeyEffect(codec, K, call, st, TreeUpdate(codec, call, st, K), call.path[..K])
  {
    PrefixKey(K, call.path, K);
    var t := LoadTree(codec, StorageGet(st, Join(call.path[..K]), call.now));
    EnrichPathChangedIff(codec, call, t, K);
    EnrichPathEnd(codec, call, t, K);
  }

  lemma TreeUpdateNodeEffect<V(!new), R(!new)>(codec: Codec<V, R>, K: nat, call: Call<V>, st: Storage<R>, q: Path)
    requires codec.Lawful() && 2 <= K <= |call.path| && ValidPath(K, call.path) && K <= |q| && q[..K] == call.path[..K]
    ensures NodeEffect(codec, call, q, StoredNode(codec, K, st, q, call.now),
                       StoredNode(codec, K, TreeUpdate(codec, call, st, K), q, call.now))
  {
    PrefixKey(K, call.path, K);
    PrefixParts(q, call.path, K);
    var key, s := Join(q[..K]), q[K..];
    var t := LoadTree(codec, StorageGet(st, key, call.now));
    var e := EnrichPath(codec, call, t, K);
    assert q[..K] + s == q;
    if q <= call.path {
      EnrichPathEffect(codec, call, t, K, s);
    } else {
      EnrichPathElsewhere(codec, call, t, K, s);
    }
    EnrichPathWellKeyed(codec, call, t, K);
    if e.changed {
      PersistTreeGet(codec, st, key, Millis(LastTtl(codec, call, t, K)), e.tree, call.now, key);
    } else {
      EnrichPathUnchanged(codec, call, t, K);
    }
  }

  // ----- the whole call

  /** Everything a call changes, and nothing else, for every path. */
  ghost predicate DeepSetEffect<V(!new), R(!new)>(codec: Codec<V, R>, K: nat, call: Call<V>, st: Storage<R>, after: Storage<R>)
    requires K >= 1
  {
    && (forall q: Path :: ValidPath(K, q) && |q| < K ==> KeyEffect(codec, call, st, after, q))
    && (forall r: Path :: ValidPath(K, r) && |r| == K ==> TreeKeyEffect(codec, K, call, st, after, r))
    && (forall q: Path :: ValidPath(K, q) && K <= |q| ==>
          NodeEffect(codec, call, q, StoredNode(codec, K, st, q, call.now), StoredNode(codec, K, after, q, call.now)))
  }

  lemma CallKeyEffect<V(!new), R(!new)>(codec: Codec<V, R>, K: nat, call: Call<V>, st: Storage<R>, q: Path)
    requires K >= 2 && ValidPath(K, call.path) && ValidPath(K, q) && |q| < K
    ensures KeyEffect(codec, call, st, DeepSet(codec, K, call, st), q)
  {
    var n := KeyLevels(K, |call.path|);
    DeepSetParts(codec, K, call, st);
    KeyUpdatesEffect(codec, K, call, st, n, q);
    if n < |call.path| {
      var above := KeyUpdates(codec, call, st, n);
      PrefixKey(K, call.path, K);
      JoinInjective(q, call.path[..K]);
      TreeUpdateFrame(codec, K, call, above, Join(q));
      assert SameRecord(st, st, Join(q));
      KeyEffectLocal(codec, call, st, st, above, DeepSet(codec, K, call, st), q);
    }
  }

  /** The key level loop does not touch a tree. */
  lemma TreeAfterKeys<V(!new), R(!new)>(codec: Codec<V, R>, K: nat, call: Call<V>, st: Storage<R>, n: nat, r: Path)
    requires ValidPath(K, call.path) && n < K && n <= |call.path| && |r| == K && ColonFree(r)
    ensures SameRecord(KeyUpdates(codec, call, st, n), st, Join(r))
  {
    forall m | 0 < m <= n
      ensures ChainedKey(call.path[..m]) != Some(Join(r))
    {
      PrefixKey(K, call.path, m);
      JoinInjective(r, call.path[..m]);
    }
    KeyUpdatesFrame(codec, call, st, n, Join(r));
  }

  lemma TreeElsewhere<V(!new), R(!new)>(codec: Codec<V, R>, K: nat, call: Call<V>, st: Storage<R>, r: Path)
    requires K >= 2 && ValidPath(K, call.path) && |r| == K && ColonFree(r) && !(r <= call.path)
    ensures SameRecord(DeepSet(codec, K, call, st), st, Join(r))
  {
    var n := KeyLevels(K, |call.path|);
    DeepSetParts(codec, K, call, st);
    TreeAfterKeys(codec, K, call, st, n, r);
    if n < |call.path| {
      PrefixKey(K, call.path, K);
      JoinInjective(r, call.path[..K]);
      TreeUpdateFrame(codec, K, call, KeyUpdates(codec, call, st, n), Join(r));
    }
  }

  lemma TreeKeyEffectLocal<V(!new), R(!new)>(codec: Codec<V, R>, K: nat, call: Call<V>, st: Storage<R>, mid: Storage<R>, after: Storage<R>, r: Path)
    requires SameRecord(mid, st, Join(r)) && TreeKeyEffect(codec, K, call, mid, after, r)
    ensures TreeKeyEffect(codec, K, call, st, after, r)
  {
    assert StorageGet(mid, Join(r), call.now) == StorageGet(st, Join(r), call.now);
  }

  lemma OwnTreeKeyEffect<V(!new), R(!new)>(codec: Codec<V, R>, K: nat, call: Call<V>, st: Storage<R>)
    requires 2 <= K <= |call.path| && ValidPath(K, call.path)
    ensures TreeKeyEffect(codec, K, call, st, DeepSet(codec, K, call, st), call.path[..K])
  {
    var above, after := KeyUpdates(codec, call, st, K - 1), DeepSet(codec, K, call, st);
    assert after == TreeUpdate(codec, call, above, K) by {
      DeepSetParts(codec, K, call, st);
    }
    assert SameRecord(above, st, Join(call.path[..K])) by {
      PrefixKey(K, call.path, K);
      TreeAfterKeys(codec, K, call, st, K - 1, call.path[..K]);
    }
    TreeUpdateKeyEffect(codec, K, call, above);
    TreeKeyEffectLocal(codec, K, call, st, above, after, call.path[..K]);
  }

  lemma CallTreeKeyEffect<V(!new), R(!new)>(codec: Codec<V, R>, K: nat, call: Call<V>, st: Storage<R>, r: Path)
    requires K >= 2 && ValidPath(K, call.path) && ValidPath(K, r) && |r| == K
    ensures TreeKeyEffect(codec, K, call, st, DeepSet(codec, K, call, st), r)
  {
    if r <= call.path {
      assert r == call.path[..K];
      OwnTreeKeyEffect(codec, K, call, st);
    } else {
      TreeElsewhere(codec, K, call, st, r);
    }
  }

  lemma OwnNodeEffect<V(!new), R(!new)>(codec: Codec<V, R>, K: nat, call: Call<V>, st: Storage<R>, q: Path)
    requires codec.Lawful() && 2 <= K <= |call.path| && ValidPath(K, call.path) && K <= |q| && q[..K] == call.path[..K]
    ensures NodeEffect(codec, call, q, StoredNode(codec, K, st, q, call.now),
                       StoredNode(codec, K, DeepSet(codec, K, call, st), q, call.now))
  {
    var above := KeyUpdates(codec, call, st, K - 1);
    PrefixKey(K, call.path, K);
    DeepSetParts(codec, K, call, st);
    TreeAfterKeys(codec, K, call, st, K - 1, q[..K]);
    SameStoredNode(codec, K, st, above, q, call.now);
    TreeUpdateNodeEffect(codec, K, call, above, q);
  }

  lemma CallNodeEffect<V(!new), R(!new)>(codec: Codec<V, R>, K: nat, call: Call<V>, st: Storage<R>, q: Path)
    requires codec.Lawful() && K >= 2 && ValidPath(K, call.path) && ValidPath(K, q) && K <= |q|
    ensures NodeEffect(codec, call, q, StoredNode(codec, K, st, q, call.now),
                       StoredNode(codec, K, DeepSet(codec, K, call, st), q, call.now))
  {
    if |call.path| >= K && q[..K] == call.path[..K] {
      OwnNodeEffect(codec, K, call, st, q);
    } else {
      assert !(q[..K] <= call.path) && !(q <= call.path);
      TreeElsewhere(codec, K, call, st, q[..K]);
      SameStoredNode(codec, K, st, DeepSet(codec, K, call, st), q, call.now);
    }
  }

  /** Every call of `deepTreeSet` on a valid path has exactly this effect. */
  lemma DeepSetHasEffect<V(!new), R(!new)>(codec: Codec<V, R>, K: nat, call: Call<V>, st: Storage<R>)
    requires codec.Lawful() && K >= 2 && ValidPath(K, call.path)
    ensures DeepSetEffect(codec, K, call, st, DeepSet(codec, K, call, st))
  {
    var after := DeepSet(codec, K, call, st);
    forall q: Path | ValidPath(K, q) && |q| < K
      ensures KeyEffect(codec, call, st, after, q)
    {
      CallKeyEffect(codec, K, call, st, q);
    }
    forall r: Path | ValidPath(K, r) && |r| == K
      ensures TreeKeyEffect(codec, K, call, st, after, r)
    {
      CallTreeKeyEffect(codec, K, call, st, r);
    }
    forall q: Path | ValidPath(K, q) && K <= |q|
      ensures NodeEffect(codec, call, q, StoredNode(codec, K, st, q, call.now), StoredNode(codec, K, after, q, call.now))
    {
      CallNodeEffect(codec, K, call, st, q);
    }
  }

  // ----- what is read later

  /** A key level node on the path that its step changes is read exactly until the ttl of its own step is over, wherever
      the path ends. */
  lemma PrefixLifetime<V(!new), R(!new)>(codec: Codec<V, R>, K: nat, call: Call<V>, st: Storage<R>, q: Path, v: V, later: Time)
    requires codec.Lawful() && K >= 2 && ValidPath(K, call.path) && q != [] && |q| < K && q <= call.path && call.now <= later
    requires StepValue(codec, call, q, ReadBytes(codec, K, st, q, call.now)) == Some(v)
    requires ReadBytes(codec, K, st, q, call.now) != Some(codec.serialize(v))
    ensures Read(codec, K, DeepSet(codec, K, call, st), q, later) == ReadLater(v, call.ttl(q, Some(v)), call.now, later)
  {
    assert q == call.path[..|q|];
    PrefixKey(K, call.path, |q|);
    CallKeyEffect(codec, K, call, st, q);
  }

  /** Every node of a tree is read, at any later time, while its key is alive and its own deadline has not passed. */
  lemma NodeReadLater<V(!new), R(!new)>(codec: Codec<V, R>, K: nat, st: Storage<R>, q: Path, now: Time, later: Time)
    requires 0 < K <= |q| && now <= later
    ensures ReadBytes(codec, K, st, q, later) ==
            if StorageGet(st, Join(q[..K]), later).None? then None
            else
              var n := StoredNode(codec, K, st, q, now);
              if n.Some? && !Expired(n.value.deadline, later) then n.value.value else None
  {
    ReadsTree(codec, K, st, q, later);
    BlankReads<R>(q[K..], later);
  }

  // ----- the error

  lemma {:induction false} EmptyChain(p: Path)
    ensures ChainedKey(p) == Some("") <==> p != [] && forall i :: 0 <= i < |p| ==> p[i] == ""
  {
    if p != [] {
      var before := p[..|p| - 1];
      EmptyChain(before);
      assert forall i :: 0 <= i < |before| ==> before[i] == p[i];
    }
  }

  /** `deepTreeSet` throws exactly when there is no key level above the path's tree, or all keys above it are empty. */
  lemma ThrowsIff(K: nat, p: Path)
    ensures DeepSetThrows(K, p) <==> p != [] && (K <= 1 || (|p| >= K && forall i :: 0 <= i < K - 1 ==> p[i] == ""))
  {
    var n := KeyLevels(K, |p|);
    EmptyChain(p[..n]);
    assert forall i :: 0 <= i < n ==> p[..n][i] == p[i];
  }

  /** What was written before the error stays: the nodes above all have the empty key, which holds the last of them. */
  lemma ThrownCallKeeps<V(!new), R(!new)>(codec: Codec<V, R>, K: nat, call: Call<V>, st: Storage<R>, v: V, key: string)
    requires K >= 2 && DeepSetThrows(K, call.path)
    requires forall q, current :: |q| == K - 1 ==> call.edit(q, current) == Some(v)
    ensures
      var after := DeepSet(codec, K, call, st);
      if key == "" then StorageGet(after, key, call.now) == Some(codec.serialize(v)) else SameRecord(after, st, key)
  {
    ThrowsIff(K, call.path);
    forall m | 0 < m <= K - 1
      ensures ChainedKey(call.path[..m]) == Some("")
    {
      EmptyChain(call.path[..m]);
    }
    if key == "" {
      LastStepStays(codec, call, KeyUpdates(codec, call, st, K - 2), call.path[..K - 1], v);
    } else {
      KeyUpdatesFrame(codec, call, st, K - 1, key);
    }
  }

  lemma LastStepStays<V(!new), R(!new)>(codec: Codec<V, R>, call: Call<V>, st: Storage<R>, q: Path, v: V)
    requires q != [] && ChainedKey(q) == Some("") && forall current :: call.edit(q, current) == Some(v)
    ensures StorageGet(KeyUpdate(codec, call, st, q), "", call.now) == Some(codec.serialize(v))
  {
  }
}

/** The hybrid store refines a plain map from paths to values, whatever the key level is. */
module PathMap {
  import opened Wrappers
  import opened Keys
  import opened Trees
  import opened HybridStore

  /** The bytes a call leaves at `q`: an undefined step value changes nothing. */
  function AfterBytes<V(!new), R(!new)>(codec: Codec<V, R>, call: Call<V>, q: Path, current: Option<R>): Option<R>
  {
    var value := StepValue(codec, call, q, current);
    if value.None? then current else Some(codec.serialize(value.value))
  }

  /** The value a call leaves at a path `q` it passes through, in terms of values alone. */
  function AfterStep<V>(call: Call<V>, q: Path, before: Option<V>): Option<V>
  {
    var value := call.edit(q, if before.Some? then before else call.create(q));
    if value.None? then before else value
  }

  // ----- keys of prefixes

  lemma PrefixKey(K: nat, p: Path, n: nat)
    requires ValidPath(K, p) && 0 < n <= |p| && n <= K
    ensures ColonFree(p[..n]) && ValidPath(K, p[..n]) && ChainedKey(p[..n]) == Some(Join(p[..n])) && Join(p[..n]) != ""
  {
    ChainedKeyLength(p[..n]);
  }

  // ----- the tree part

  lemma EnrichNodeReads<V(!new), R(!new)>(codec: Codec<V, R>, call: Call<V>, t: Tree<R>, q: Path, ttl: Option<Seconds>)
    ensures
      var current := Live(t, call.now);
      var e := EnrichTree(codec, t, current, StepValue(codec, call, q, current), ttl, call.now);
      && Live(e.tree, call.now) == AfterBytes(codec, call, q, current)
      && e.tree.children == t.children
      && (!e.changed ==> e.tree == t)
  {
  }

  lemma PathStep(path: Path, i: nat, s: Path)
    requires i < |path| && s != []
    ensures s[0] != path[i] ==> !(s <= path[i..])
    ensures s[0] == path[i] ==> (s <= path[i..] <==> s[1..] <= path[i + 1..]) && path[..i + 1] + s[1..] == path[..i] + s
  {
    assert path[i..] == [path[i]] + path[i + 1..];
    assert s == [s[0]] + s[1..];
  }

  /** A tree edited along a path reads, at each node of the path, what the step left there,
      and reads as before everywhere else. */
  lemma {:induction false} EnrichPathReads<V(!new), R(!new)>(codec: Codec<V, R>, call: Call<V>, t: Tree<R>, i: nat, s: Path)
    requires i <= |call.path|
    ensures Lookup(EnrichPath(codec, call, t, i).tree, s, call.now) ==
            if s <= call.path[i..] then AfterBytes(codec, call, call.path[..i] + s, Lookup(t, s, call.now))
            else Lookup(t, s, call.now)
    decreases |call.path| - i
  {
    var q := call.path[..i];
    var current := Live(t, call.now);
    var value := StepValue(codec, call, q, current);
    if i == |call.path| {
      EnrichNodeReads(codec, call, t, q, call.ttl(q, value));
      assert q + [] == q;
    } else {
      var k := call.path[i];
      EnrichNodeReads(codec, call, t, q, None);
      var here := EnrichTree(codec, t, current, value, None, call.now);
      var next := Child(here.tree, k);
      var sub := if next.Some? then next.value else Blank();
      var below := EnrichPath(codec, call, sub, i + 1);
      if s == [] {
        assert q + s == q;
      } else {
        FindPut(KidsOf(here.tree), k, below.tree, s[0]);
        PathStep(call.path, i, s);
        if s[0] == k {
          EnrichPathReads(codec, call, sub, i + 1, s[1..]);
          BlankReads<R>(s[1..], call.now);
        }
      }
    }
  }

  /** When nothing is flagged as changed, the tree is the very same tree, so not persisting it loses nothing. */
  lemma {:induction false} EnrichPathUnchanged<V(!new), R(!new)>(codec: Codec<V, R>, call: Call<V>, t: Tree<R>, i: nat)
    requires i <= |call.path|
    requires !EnrichPath(codec, call, t, i).changed
    ensures EnrichPath(codec, call, t, i).tree == t
    decreases |call.path| - i
  {
    if i < |call.path| {
      var next := Child(t, call.path[i]);
      EnrichPathUnchanged(codec, call, next.value, i + 1);
      PutFound(KidsOf(t), call.path[i]);
    }
  }

  /** Editing along a path leaves every node that is not on the path as it is, with all that is below it. */
  lemma {:induction false} EnrichPathElsewhere<V(!new), R(!new)>(codec: Codec<V, R>, call: Call<V>, t: Tree<R>, i: nat, s: Path)
    requires i <= |call.path| && !(s <= call.path[i..])
    ensures At(EnrichPath(codec, call, t, i).tree, s) == At(t, s)
    decreases |call.path| - i
  {
    if i < |call.path| {
      var q, k := call.path[..i], call.path[i];
      var here := EnrichTree(codec, t, Live(t, call.now), StepValue(codec, call, q, Live(t, call.now)), None, call.now);
      var next := Child(t, k);
      var sub := if next.Some? then next.value else Blank();
      FindPut(KidsOf(here.tree), k, EnrichPath(codec, call, sub, i + 1).tree, s[0]);
      PathStep(call.path, i, s);
      if s[0] == k {
        EnrichPathElsewhere(codec, call, sub, i + 1, s[1..]);
      }
    }
  }

  lemma {:induction false} EnrichPathWellKeyed<V(!new), R(!new)>(codec: Codec<V, R>, call: Call<V>, t: Tree<R>, i: nat)
    requires i <= |call.path| && WellKeyed(t)
    ensures WellKeyed(EnrichPath(codec, call, t, i).tree)
    decreases |call.path| - i
  {
    if i < |call.path| {
      var k := call.path[i];
      var next := Child(t, k);
      if next.Some? {
        WellKeyedFind(KidsOf(t), k);
      }
      var sub := if next.Some? then next.value else Blank();
      EnrichPathWellKeyed(codec, call, sub, i + 1);
      PutWellKeyed(KidsOf(t), k, EnrichPath(codec, call, sub, i + 1).tree);
    }
  }

  lemma PersistTreeGet<V(!new), R(!new)>(codec: Codec<V, R>, st: Storage<R>, key: string, ttl: Option<nat>,
                                   t: Tree<R>, now: Time, other: string)
    ensures StorageGet(PersistTree(codec, st, key, ttl, t, now), other, now) ==
            if other == key then Some(codec.serializeTree(t)) else StorageGet(st, other, now)
  {
  }

  /** The stored node of a path of the key level or below; the root of a tree is there even when nothing is stored. */
  function StoredNode<V(!new), R(!new)>(codec: Codec<V, R>, K: nat, st: Storage<R>, q: Path, now: Time): Option<Tree<R>>
    requires 0 < K <= |q|
  {
    At(LoadTree(codec, StorageGet(st, Join(q[..K]), now)), q[K..])
  }

  lemma SameStoredNode<V(!new), R(!new)>(codec: Codec<V, R>, K: nat, st: Storage<R>, other: Storage<R>, q: Path, now: Time)
    requires 1 <= K <= |q| && SameRecord(other, st, Join(q[..K]))
    ensures StoredNode(codec, K, other, q, now) == StoredNode(codec, K, st, q, now)
  {
  }

  /** What is read below the key level comes from the tree under the key. */
  lemma ReadsTree<V(!new), R(!new)>(codec: Codec<V, R>, K: nat, st: Storage<R>, q: Path, now: Time)
    requires 0 < K <= |q|
    ensures ReadBytes(codec, K, st, q, now) == Lookup(LoadTree(codec, StorageGet(st, Join(q[..K]), now)), q[K..], now)
    ensures q[..K] + q[K..] == q
  {
    BlankReads<R>(q[K..], now);
  }

  /** The tree under the key of the call, before and after the call. */
  lemma TreeUpdateLookup<V(!new), R(!new)>(codec: Codec<V, R>, K: nat, call: Call<V>, st: Storage<R>, s: Path)
    requires codec.Lawful() && 0 < K <= |call.path|
    ensures
      var key := ChainedKey(call.path[..K]).value;
      var before := Lookup(LoadTree(codec, StorageGet(st, key, call.now)), s, call.now);
      Lookup(LoadTree(codec, StorageGet(TreeUpdate(codec, call, st, K), key, call.now)), s, call.now) ==
      if s <= call.path[K..] then AfterBytes(codec, call, call.path[..K] + s, before) else before
  {
    var key := ChainedKey(call.path[..K]).value;
    var root := LoadTree(codec, StorageGet(st, key, call.now));
    var e := EnrichPath(codec, call, root, K);
    EnrichPathReads(codec, call, root, K, s);
    if e.changed {
      EnrichPathWellKeyed(codec, call, root, K);
      PersistTreeGet(codec, st, key, Millis(LastTtl(codec, call, root, K)), e.tree, call.now, key);
    } else {
      EnrichPathUnchanged(codec, call, root, K);
    }
  }

  /** A tree write touches one key. */
  lemma TreeUpdateFrame<V(!new), R(!new)>(codec: Codec<V, R>, K: nat, call: Call<V>, st: Storage<R>, other: string)
    requires 0 < K <= |call.path| && Some(other) != ChainedKey(call.path[..K])
    ensures
      var after := TreeUpdate(codec, call, st, K);
      (other in after <==> other in st) && (other in st ==> after[other] == st[other])
  {
  }

  lemma PrefixParts(q: Path, p: Path, K: nat)
    requires K <= |q| && K <= |p|
    ensures q <= p <==> q[..K] == p[..K] && q[K..] <= p[K..]
  {
    assert q == q[..K] + q[K..] && p == p[..K] + p[K..];
  }

  lemma TreeUpdateReads<V(!new), R(!new)>(codec: Codec<V, R>, K: nat, call: Call<V>, st: Storage<R>, q: Path)
    requires codec.Lawful()
    requires 2 <= K <= |call.path| && ValidPath(K, call.path) && ValidPath(K, q)
    ensures ReadBytes(codec, K, TreeUpdate(codec, call, st, K), q, call.now) ==
            if K <= |q| && q <= call.path then AfterBytes(codec, call, q, ReadBytes(codec, K, st, q, call.now))
            else ReadBytes(codec, K, st, q, call.now)
  {
    PrefixKey(K, call.path, K);
    var held := Holder(K, q);
    JoinInjective(held, call.path[..K]);
    if held != call.path[..K] {
      TreeUpdateFrame(codec, K, call, st, Join(held));
    }
    if K <= |q| {
      PrefixParts(q, call.path, K);
      ReadsTree(codec, K, st, q, call.now);
      ReadsTree(codec, K, TreeUpdate(codec, call, st, K), q, call.now);
      if held == call.path[..K] {
        TreeUpdateLookup(codec, K, call, st, q[K..]);
      }
    }
  }

  // ----- the key level part

  lemma KeyUpdateReads<V(!new), R(!new)>(codec: Codec<V, R>, K: nat, call: Call<V>, st: Storage<R>, n: nat, q: Path)
    requires 0 < n < K && n <= |call.path| && ValidPath(K, call.path) && ValidPath(K, q)
    ensures ReadBytes(codec, K, KeyUpdate(codec, call, st, call.path[..n]), q, call.now) ==
            if q == call.path[..n] then AfterBytes(codec, call, q, ReadBytes(codec, K, st, q, call.now))
            else ReadBytes(codec, K, st, q, call.now)
  {
    PrefixKey(K, call.path, n);
    if |q| < K {
      JoinInjective(q, call.path[..n]);
    } else {
      JoinInjective(q[..K], call.path[..n]);
    }
  }

  /** From level `m` on, the key level loop touches the keys of the nodes it passes only. */
  lemma {:induction false} KeyUpdatesFrom<V(!new), R(!new)>(codec: Codec<V, R>, call: Call<V>, st: Storage<R>, m: nat, n: nat, key: string)
    requires m <= n <= |call.path|
    requires forall l :: m < l <= n ==> ChainedKey(call.path[..l]) != Some(key)
    ensures
      var before, after := KeyUpdates(codec, call, st, m), KeyUpdates(codec, call, st, n);
      (key in after <==> key in before) && (key in before ==> after[key] == before[key])
  {
    if m < n {
      KeyUpdatesFrom(codec, call, st, m, n - 1, key);
      assert ChainedKey(call.path[..n]) != Some(key);
    }
  }

  lemma KeyUpdatesFrame<V(!new), R(!new)>(codec: Codec<V, R>, call: Call<V>, st: Storage<R>, n: nat, key: string)
    requires n <= |call.path|
    requires forall m :: 0 < m <= n ==> ChainedKey(call.path[..m]) != Some(key)
    ensures
      var after := KeyUpdates(codec, call, st, n);
      (key in after <==> key in st) && (key in st ==> after[key] == st[key])
  {
    KeyUpdatesFrom(codec, call, st, 0, n, key);
  }

  lemma {:induction false} KeyUpdatesReads<V(!new), R(!new)>(codec: Codec<V, R>, K: nat, call: Call<V>, st: Storage<R>, n: nat, q: Path)
    requires n < K && n <= |call.path| && ValidPath(K, call.path) && ValidPath(K, q)
    ensures ReadBytes(codec, K, KeyUpdates(codec, call, st, n), q, call.now) ==
            if |q| <= n && q <= call.path then AfterBytes(codec, call, q, ReadBytes(codec, K, st, q, call.now))
            else ReadBytes(codec, K, st, q, call.now)
  {
    if n > 0 {
      KeyUpdatesReads(codec, K, call, st, n - 1, q);
      KeyUpdateReads(codec, K, call, KeyUpdates(codec, call, st, n - 1), n, q);
      assert q == call.path[..n] <==> |q| == n && q <= call.path;
    }
  }

  // ----- the whole call

  lemma DeepSetParts<V(!new), R(!new)>(codec: Codec<V, R>, K: nat, call: Call<V>, st: Storage<R>)
    requires K >= 2 && ValidPath(K, call.path)
    ensures !DeepSetThrows(K, call.path)
    ensures
      var n := KeyLevels(K, |call.path|);
      var afterKeys := KeyUpdates(codec, call, st, n);
      if n < |call.path| then n + 1 == K && DeepSet(codec, K, call, st) == TreeUpdate(codec, call, afterKeys, K)
      else DeepSet(codec, K, call, st) == afterKeys
  {
    PrefixKey(K, call.path, KeyLevels(K, |call.path|));
  }

  lemma DeepSetReadsBytes<V(!new), R(!new)>(codec: Codec<V, R>, K: nat, call: Call<V>, st: Storage<R>, q: Path)
    requires codec.Lawful() && K >= 2 && ValidPath(K, call.path) && ValidPath(K, q)
    ensures ReadBytes(codec, K, DeepSet(codec, K, call, st), q, call.now) ==
            if q <= call.path then AfterBytes(codec, call, q, ReadBytes(codec, K, st, q, call.now))
            else ReadBytes(codec, K, st, q, call.now)
  {
    var n := KeyLevels(K, |call.path|);
    DeepSetParts(codec, K, call, st);
    KeyUpdatesReads(codec, K, call, st, n, q);
    if n < |call.path| {
      TreeUpdateReads(codec, K, call, KeyUpdates(codec, call, st, n), q);
    }
  }

  /** `deepTreeSet` is one update of the path map: every non-empty prefix of the path gets what its
      step was left with, a step left undefined keeps its old value, and no other path changes. */
  lemma DeepSetReads<V(!new), R(!new)>(codec: Codec<V, R>, K: nat, call: Call<V>, st: Storage<R>, q: Path)
    requires codec.Lawful() && K >= 2 && ValidPath(K, call.path) && ValidPath(K, q)
    ensures Read(codec, K, DeepSet(codec, K, call, st), q, call.now) ==
            if q <= call.path then AfterStep(call, q, Read(codec, K, st, q, call.now))
            else Read(codec, K, st, q, call.now)
  {
    DeepSetReadsBytes(codec, K, call, st, q);
  }

  // ----- setNode

  /** `setNode` is `deepTreeSet` with a consumer that assigns the last step only. */
  function SetNodeCall<V>(path: Path, value: V, ttl: (Path, Option<V>) -> Option<Seconds>, now: Time): Call<V>
  {
    Call(path, _ => None, (q: Path, current: Option<V>) => if |q| == |path| then Some(value) else current,
         ttl, |path|, now)
  }

  /** After `setNode(p, v)`, `getNode(p)` returns `v` and every other path reads as before. */
  lemma SetNodeReads<V(!new), R(!new)>(codec: Codec<V, R>, K: nat, st: Storage<R>, p: Path, v: V,
                                 ttl: (Path, Option<V>) -> Option<Seconds>, now: Time, q: Path)
    requires codec.Lawful() && K >= 2 && ValidPath(K, p) && ValidPath(K, q)
    ensures Read(codec, K, DeepSet(codec, K, SetNodeCall(p, v, ttl, now), st), q, now) ==
            if q == p then Some(v) else Read(codec, K, st, q, now)
  {
    DeepSetReads(codec, K, SetNodeCall(p, v, ttl, now), st, q);
  }

  // ----- untimed runs

  predicate NoDeadlines<R>(t: Tree<R>)
  {
    t.deadline.None? && (t.children.Some? ==> NoDeadlinesKids(t.children.value))
  }

  predicate NoDeadlinesKids<R>(ks: Kids<R>)
  {
    match ks
    case End => true
    case Entry(_, sub, rest) => NoDeadlines(sub) && NoDeadlinesKids(rest)
  }

  /** Nothing in the storage ever expires. */
  ghost predicate Timeless<V(!new), R(!new)>(codec: Codec<V, R>, K: nat, st: Storage<R>)
  {
    && (forall key :: key in st ==> st[key].expiry.None?)
    && (forall q: Path :: |q| == K && ValidPath(K, q) && Join(q) in st ==>
          NoDeadlines(codec.deserializeTree(st[Join(q)].bytes)))
  }

  ghost predicate Untimed<V(!new)>(call: Call<V>)
  {
    forall q, v :: !Timed(call.ttl(q, v))
  }

  lemma {:induction false} NoDeadlinesFind<R>(ks: Kids<R>, k: Key)
    requires NoDeadlinesKids(ks) && Find(ks, k).Some?
    ensures NoDeadlines(Find(ks, k).value)
  {
    if ks.key != k {
      NoDeadlinesFind(ks.rest, k);
    }
  }

  lemma {:induction false} NoDeadlinesPut<R>(ks: Kids<R>, k: Key, t: Tree<R>)
    requires NoDeadlinesKids(ks) && NoDeadlines(t)
    ensures NoDeadlinesKids(Put(ks, k, t))
  {
    match ks
    case End =>
    case Entry(key, sub, rest) => NoDeadlinesPut(rest, k, t);
  }

  lemma {:induction false} NoDeadlinesReads<R>(t: Tree<R>, p: Path, now: Time, later: Time)
    requires NoDeadlines(t)
    ensures Lookup(t, p, now) == Lookup(t, p, later)
    decreases p
  {
    if p != [] && Child(t, p[0]).Some? {
      NoDeadlinesFind(KidsOf(t), p[0]);
      NoDeadlinesReads(Child(t, p[0]).value, p[1..], now, later);
    }
  }

  lemma {:induction false} EnrichPathNoDeadlines<V(!new), R(!new)>(codec: Codec<V, R>, call: Call<V>, t: Tree<R>, i: nat)
    requires i <= |call.path| && NoDeadlines(t) && Untimed(call)
    ensures NoDeadlines(EnrichPath(codec, call, t, i).tree)
    decreases |call.path| - i
  {
    if i < |call.path| {
      var k := call.path[i];
      var next := Child(t, k);
      if next.Some? {
        NoDeadlinesFind(KidsOf(t), k);
      }
      var sub := if next.Some? then next.value else Blank();
      EnrichPathNoDeadlines(codec, call, sub, i + 1);
      NoDeadlinesPut(KidsOf(t), k, EnrichPath(codec, call, sub, i + 1).tree);
    } else {
      var q := call.path[..i];
      assert !Timed(call.ttl(q, StepValue(codec, call, q, Live(t, call.now))));
    }
  }

  lemma TimelessReads<V(!new), R(!new)>(codec: Codec<V, R>, K: nat, st: Storage<R>, q: Path, now: Time, later: Time)
    requires Timeless(codec, K, st) && K >= 2 && ValidPath(K, q)
    ensures Read(codec, K, st, q, now) == Read(codec, K, st, q, later)
  {
    if |q| >= K && Join(q[..K]) in st {
      NoDeadlinesReads(codec.deserializeTree(st[Join(q[..K])].bytes), q[K..], now, later);
    }
  }

  lemma KeyUpdateTimeless<V(!new), R(!new)>(codec: Codec<V, R>, K: nat, call: Call<V>, st: Storage<R>, n: nat)
    requires Timeless(codec, K, st) && Untimed(call) && ValidPath(K, call.path) && 0 < n < K && n <= |call.path|
    ensures Timeless(codec, K, KeyUpdate(codec, call, st, call.path[..n]))
  {
    PrefixKey(K, call.path, n);
    forall q: Path | |q| == K && ValidPath(K, q)
      ensures Join(q) != Join(call.path[..n])
    {
      JoinInjective(q, call.path[..n]);
    }
  }

  lemma {:induction false} KeyUpdatesTimeless<V(!new), R(!new)>(codec: Codec<V, R>, K: nat, call: Call<V>, st: Storage<R>, n: nat)
    requires Timeless(codec, K, st) && Untimed(call) && ValidPath(K, call.path) && n < K && n <= |call.path|
    ensures Timeless(codec, K, KeyUpdates(codec, call, st, n))
  {
    if n > 0 {
      KeyUpdatesTimeless(codec, K, call, st, n - 1);
      KeyUpdateTimeless(codec, K, call, KeyUpdates(codec, call, st, n - 1), n);
    }
  }

  lemma {:induction false} LastTtlUntimed<V(!new), R(!new)>(codec: Codec<V, R>, call: Call<V>, t: Tree<R>, i: nat)
    requires i <= |call.path| && Untimed(call)
    ensures !Timed(LastTtl(codec, call, t, i))
    decreases |call.path| - i
  {
    if i < |call.path| {
      var next := Child(t, call.path[i]);
      LastTtlUntimed(codec, call, if next.Some? then next.value else Blank(), i + 1);
    }
  }

  lemma TreeUpdateTimeless<V(!new), R(!new)>(codec: Codec<V, R>, K: nat, call: Call<V>, st: Storage<R>)
    requires codec.Lawful() && Timeless(codec, K, st) && Untimed(call) && ValidPath(K, call.path) && 2 <= K <= |call.path|
    ensures Timeless(codec, K, TreeUpdate(codec, call, st, K))
  {
    PrefixKey(K, call.path, K);
    var key := Join(call.path[..K]);
    var root := LoadTree(codec, StorageGet(st, key, call.now));
    EnrichPathNoDeadlines(codec, call, root, K);
    EnrichPathWellKeyed(codec, call, root, K);
    LastTtlUntimed(codec, call, root, K);
    forall q: Path | |q| == K && ValidPath(K, q)
      ensures Join(q) == key ==> q == call.path[..K]
    {
      JoinInjective(q, call.path[..K]);
    }
  }

  lemma DeepSetTimeless<V(!new), R(!new)>(codec: Codec<V, R>, K: nat, call: Call<V>, st: Storage<R>)
    requires codec.Lawful() && Timeless(codec, K, st) && Untimed(call) && ValidPath(K, call.path) && 2 <= K
    ensures Timeless(codec, K, DeepSet(codec, K, call, st))
  {
    var n := KeyLevels(K, |call.path|);
    DeepSetParts(codec, K, call, st);
    KeyUpdatesTimeless(codec, K, call, st, n);
    if n < |call.path| {
      TreeUpdateTimeless(codec, K, call, KeyUpdates(codec, call, st, n));
    }
  }

  /** A run of calls, one after the other, from an empty storage. */
  function Run<V(!new), R(!new, ==)>(codec: Codec<V, R>, K: nat, calls: seq<Call<V>>): Storage<R>
  {
    if calls == [] then map[]
    else DeepSet(codec, K, calls[|calls| - 1], Run(codec, K, calls[..|calls| - 1]))
  }

  /** The same run on a plain path map: what path `q` holds after it. */
  function RunAt<V>(calls: seq<Call<V>>, q: Path): Option<V>
  {
    if calls == [] then None
    else
      var last := calls[|calls| - 1];
      var before := RunAt(calls[..|calls| - 1], q);
      if q <= last.path then AfterStep(last, q, before) else before
  }

  ghost predicate UntimedRun<V(!new)>(K: nat, calls: seq<Call<V>>)
  {
    forall i :: 0 <= i < |calls| ==> Untimed(calls[i]) && ValidPath(K, calls[i].path)
  }

  /** Over any untimed run the store reads, at any time, what the plain path map holds. */
  lemma {:induction false} RunRefinesPathMap<V(!new), R(!new)>(codec: Codec<V, R>, K: nat, calls: seq<Call<V>>, q: Path, now: Time)
    requires codec.Lawful() && K >= 2 && UntimedRun(K, calls) && ValidPath(K, q)
    ensures Timeless(codec, K, Run(codec, K, calls))
    ensures Read(codec, K, Run(codec, K, calls), q, now) == RunAt(calls, q)
  {
    if calls != [] {
      var last := calls[|calls| - 1];
      var st := Run(codec, K, calls[..|calls| - 1]);
      RunRefinesPathMap(codec, K, calls[..|calls| - 1], q, last.now);
      DeepSetReads(codec, K, last, st, q);
      DeepSetTimeless(codec, K, last, st);
      TimelessReads(codec, K, Run(codec, K, calls), q, last.now, now);
    }
  }

  /** Two caches with different key levels, and even different serializers, fed the same run agree on every path. */
  lemma KeyLevelIsInvisible<V(!new), R(!new), S(!new)>(
    codec: Codec<V, R>, K: nat, other: Codec<V, S>, L: nat, calls: seq<Call<V>>, q: Path, now: Time, later: Time)
    requires codec.Lawful() && K >= 2 && UntimedRun(K, calls) && ValidPath(K, q)
    requires other.Lawful() && L >= 2 && UntimedRun(L, calls) && ValidPath(L, q)
    ensures Read(codec, K, Run(codec, K, calls), q, now) == Read(other, L, Run(other, L, calls), q, later)
  {
    RunRefinesPathMap(codec, K, calls, q, now);
    RunRefinesPathMap(other, L, calls, q, later);
  }
}

/** The cache object: the loops of `deepTreeSet`, `setNode`, `getNode`, `iteratePath` and `prune`
    over a storage they change, each proved against the functions of the store. */
module TreeKeyCaches {
  import opened Wrappers
  import opened Keys
  import opened Trees
  import opened Pruning
  import opened HybridStore
  import opened PathMap
  import opened DeepSetEffects
  import opened Expiry
  import opened PruneInPlace
  import opened Worklists
  import opened Traversal
  import opened SaveTree
  import opened FullTreeSets
  import opened FullSetEffects

  /** A step handed out by `iteratePath`. */
  datatype Step<V> = Step(path: Path, value: V)

  /** The step of a node, if there is a value to hand out. */
  function Found<V>(path: Path, value: Option<V>): seq<Step<V>>
  {
    if value.Some? then [Step(path, value.value)] else []
  }

  /** `getNode` over the prefixes of `path` of lengths 1 to `n`, the undefined results dropped. */
  function PrefixReads<V(!new), R(!new)>(codec: Codec<V, R>, K: nat, st: Storage<R>, path: Path, n: nat, now: Time): seq<Step<V>>
    requires n <= |path|
  {
    if n == 0 then []
    else
      PrefixReads(codec, K, st, path, n - 1, now) + Found(path[..n], Read(codec, K, st, path[..n], now))
  }

  /** The steps are those of the prefixes of `path` of lengths 1 to `n` that have a value, in the order of their lengths. */
  ghost predicate StepsOf<V(!new), R(!new)>(codec: Codec<V, R>, K: nat, st: Storage<R>, path: Path, n: nat, now: Time, steps: seq<Step<V>>)
  {
    && (forall q: Path, v :: Step(q, v) in steps <==>
          q != [] && q <= path && |q| <= n && Read(codec, K, st, q, now) == Some(v))
    && (forall i, j :: 0 <= i < j < |steps| ==> |steps[i].path| < |steps[j].path|)
  }

  lemma {:induction false} PrefixReadsHold<V(!new), R(!new)>(codec: Codec<V, R>, K: nat, st: Storage<R>, path: Path, n: nat, now: Time, q: Path, v: V)
    requires n <= |path|
    ensures Step(q, v) in PrefixReads(codec, K, st, path, n, now) <==>
            q != [] && q <= path && |q| <= n && Read(codec, K, st, q, now) == Some(v)
  {
    if n > 0 {
      PrefixReadsHold(codec, K, st, path, n - 1, now, q, v);
      assert q <= path && |q| == n <==> q == path[..n];
    }
  }

  /** The steps are of paths of rising lengths up to `n`. */
  predicate Longer<V>(steps: seq<Step<V>>, n: nat)
  {
    && (forall i :: 0 <= i < |steps| ==> |steps[i].path| <= n)
    && (forall i, j :: 0 <= i < j < |steps| ==> |steps[i].path| < |steps[j].path|)
  }

  lemma OneMoreIsLonger<V>(steps: seq<Step<V>>, path: Path, value: Option<V>)
    requires path != [] && Longer(steps, |path| - 1)
    ensures Longer(steps + Found(path, value), |path|)
  {
    var more := steps + Found(path, value);
    assert forall i :: 0 <= i < |more| ==> more[i] == if i < |steps| then steps[i] else Found(path, value)[0];
  }

  lemma {:induction false} PrefixReadsRise<V(!new), R(!new)>(codec: Codec<V, R>, K: nat, st: Storage<R>, path: Path, n: nat, now: Time)
    requires n <= |path|
    ensures Longer(PrefixReads(codec, K, st, path, n, now), n)
  {
    if n > 0 {
      PrefixReadsRise(codec, K, st, path, n - 1, now);
      OneMoreIsLonger(PrefixReads(codec, K, st, path, n - 1, now), path[..n], Read(codec, K, st, path[..n], now));
    }
  }

  lemma PrefixReadsAre<V(!new), R(!new)>(codec: Codec<V, R>, K: nat, st: Storage<R>, path: Path, n: nat, now: Time)
    requires n <= |path|
    ensures StepsOf(codec, K, st, path, n, now, PrefixReads(codec, K, st, path, n, now))
  {
    forall q: Path, v
      ensures Step(q, v) in PrefixReads(codec, K, st, path, n, now) <==>
              q != [] && q <= path && |q| <= n && Read(codec, K, st, q, now) == Some(v)
    {
      PrefixReadsHold(codec, K, st, path, n, now, q, v);
    }
    PrefixReadsRise(codec, K, st, path, n, now);
  }

  /** `getNextStorageNode`: the reference one level below `parentRef` on the path. */
  function NextNode(path: Path, parentRef: Option<Chained>): (r: Chained)
    requires (if parentRef.Some? then parentRef.value.level else 0) < |path|
    ensures r.level == 1 + if parentRef.Some? then parentRef.value.level else 0
    ensures parentRef.Some? && ChainPath(parentRef.value) == path[..parentRef.value.level] ==>
              ChainPath(r) == path[..r.level]
    ensures parentRef.None? ==> ChainPath(r) == path[..1]
    ensures r.parentRef == parentRef
  {
    var level := if parentRef.Some? then parentRef.value.level else 0;
    Chained(path[level], level + 1, parentRef)
  }

  /** The reference of the node at this level of the path, none for the root. */
  predicate AtLevel(nodeRef: Option<Chained>, path: Path, level: nat)
  {
    && level <= |path| && (nodeRef.None? <==> level == 0)
    && (nodeRef.Some? ==> nodeRef.value.level == level && ChainPath(nodeRef.value) == path[..level])
  }

  /** The references from the root down to level `upTo` of the path. */
  method NodeRefAt(path: Path, upTo: nat) returns (nodeRef: Chained)
    requires 0 < upTo <= |path|
    ensures nodeRef.level == upTo && ChainPath(nodeRef) == path[..upTo]
    ensures nodeRef.parentRef.Some? <==> upTo >= 2
  {
    nodeRef := NextNode(path, None);
    while nodeRef.level < upTo
      invariant 0 < nodeRef.level <= upTo && ChainPath(nodeRef) == path[..nodeRef.level]
      invariant nodeRef.parentRef.Some? <==> nodeRef.level >= 2
      decreases upTo - nodeRef.level
    {
      nodeRef := NextNode(path, Some(nodeRef));
    }
  }

  lemma PrefixReadsKey<V(!new), R(!new)>(codec: Codec<V, R>, K: nat, st: Storage<R>, path: Path, n: nat, now: Time)
    requires 0 < n < K && n <= |path|
    ensures PrefixReads(codec, K, st, path, n, now) ==
            PrefixReads(codec, K, st, path, n - 1, now) + Found(path[..n], codec.Decode(StorageGet(st, Join(path[..n]), now)))
  {
  }

  /** The steps from the tree node `tree` of level `n` on. */
  function TreeSteps<V(!new), R(!new)>(codec: Codec<V, R>, path: Path, n: nat, tree: Tree<R>, now: Time): seq<Step<V>>
    requires n <= |path|
    decreases |path| - n
  {
    Found(path[..n], codec.Decode(Live(tree, now))) +
    if n == |path| then []
    else
      match Child(tree, path[n])
      case None => []
      case Some(next) => TreeSteps(codec, path, n + 1, next, now)
  }

  /** The bytes under the tree key of `path` are those of the tree `root`. */
  ghost predicate Loaded<V(!new), R(!new)>(codec: Codec<V, R>, K: nat, st: Storage<R>, path: Path, root: Tree<R>, now: Time)
    requires K <= |path|
  {
    var b := StorageGet(st, Join(path[..K]), now);
    b.Some? && codec.deserializeTree(b.value) == root
  }

  lemma ReadPrefix<V(!new), R(!new)>(codec: Codec<V, R>, K: nat, st: Storage<R>, path: Path, n: nat, root: Tree<R>, now: Time)
    requires 2 <= K <= n <= |path| && Loaded(codec, K, st, path, root, now)
    ensures Read(codec, K, st, path[..n], now) == codec.Decode(Lookup(root, path[K..n], now))
  {
    assert path[..n][K..] == path[K..n] && path[..n][..K] == path[..K];
  }

  /** No prefix from level `m` on is found below a missing node of that level. */
  lemma {:induction false} PrefixReadsMissing<V(!new), R(!new)>(codec: Codec<V, R>, K: nat, st: Storage<R>, path: Path, m: nat, n: nat, root: Tree<R>, now: Time)
    requires 2 <= K <= m <= n <= |path| && Loaded(codec, K, st, path, root, now) && At(root, path[K..m]).None?
    ensures PrefixReads(codec, K, st, path, n, now) == PrefixReads(codec, K, st, path, m - 1, now)
  {
    ReadPrefix(codec, K, st, path, n, root, now);
    assert path[K..n] == path[K..m] + path[m..n];
    AtThrough(root, path[K..m], path[m..n]);
    if m < n {
      PrefixReadsMissing(codec, K, st, path, m, n - 1, root, now);
    }
  }

  lemma NoTreeHere<V(!new), R(!new)>(codec: Codec<V, R>, K: nat, st: Storage<R>, path: Path, n: nat, now: Time)
    requires 2 <= K <= n <= |path| && StorageGet(st, Join(path[..K]), now).None?
    ensures PrefixReads(codec, K, st, path, n, now) == PrefixReads(codec, K, st, path, n - 1, now)
  {
    assert path[..n][..K] == path[..K];
    assert Read(codec, K, st, path[..n], now).None?;
  }

  lemma {:induction false} PrefixReadsNoTree<V(!new), R(!new)>(codec: Codec<V, R>, K: nat, st: Storage<R>, path: Path, n: nat, now: Time)
    requires 2 <= K && K - 1 <= n <= |path| && K <= |path| && StorageGet(st, Join(path[..K]), now).None?
    ensures PrefixReads(codec, K, st, path, n, now) == PrefixReads(codec, K, st, path, K - 1, now)
  {
    if K <= n {
      NoTreeHere(codec, K, st, path, n, now);
      PrefixReadsNoTree(codec, K, st, path, n - 1, now);
    }
  }

  lemma PrefixHere<V(!new), R(!new)>(codec: Codec<V, R>, K: nat, st: Storage<R>, path: Path, n: nat, root: Tree<R>, tree: Tree<R>, now: Time)
    requires 2 <= K <= n <= |path| && Loaded(codec, K, st, path, root, now) && At(root, path[K..n]) == Some(tree)
    ensures PrefixReads(codec, K, st, path, n, now) ==
            PrefixReads(codec, K, st, path, n - 1, now) + Found(path[..n], codec.Decode(Live(tree, now)))
    ensures n < |path| ==> At(root, path[K..n + 1]) == Child(tree, path[n])
  {
    ReadPrefix(codec, K, st, path, n, root, now);
    if n < |path| {
      assert path[K..n + 1] == path[K..n] + [path[n]];
      AtSnoc(root, path[K..n], path[n]);
    }
  }

  /** The steps below the tree node `tree` of level `n`. */
  function StepsBelow<V(!new), R(!new)>(codec: Codec<V, R>, path: Path, n: nat, tree: Tree<R>, now: Time): (steps: seq<Step<V>>)
    requires n <= |path|
    ensures TreeSteps(codec, path, n, tree, now) == Found(path[..n], codec.Decode(Live(tree, now))) + steps
  {
    if n < |path| && Child(tree, path[n]).Some? then TreeSteps(codec, path, n + 1, Child(tree, path[n]).value, now) else []
  }

  lemma NothingBelow<V(!new), R(!new)>(codec: Codec<V, R>, K: nat, st: Storage<R>, path: Path, n: nat, root: Tree<R>, tree: Tree<R>, now: Time)
    requires 2 <= K <= n < |path| && Loaded(codec, K, st, path, root, now)
    requires Child(tree, path[n]).None? && At(root, path[K..n + 1]).None?
    ensures PrefixReads(codec, K, st, path, |path|, now) ==
            PrefixReads(codec, K, st, path, n, now) + StepsBelow(codec, path, n, tree, now)
  {
    var above := PrefixReads(codec, K, st, path, n, now);
    PrefixReadsMissing(codec, K, st, path, n + 1, |path|, root, now);
    assert above + [] == above;
  }

  lemma {:induction false} PrefixReadsBelow<V(!new), R(!new)>(codec: Codec<V, R>, K: nat, st: Storage<R>, path: Path, n: nat, root: Tree<R>, tree: Tree<R>, now: Time)
    requires 2 <= K <= n <= |path| && Loaded(codec, K, st, path, root, now)
    requires n < |path| ==> At(root, path[K..n + 1]) == Child(tree, path[n])
    ensures PrefixReads(codec, K, st, path, |path|, now) ==
            PrefixReads(codec, K, st, path, n, now) + StepsBelow(codec, path, n, tree, now)
    decreases |path| - n, 0
  {
    if n < |path| {
      var next := Child(tree, path[n]);
      if next.Some? {
        PrefixReadsTree(codec, K, st, path, n + 1, root, next.value, now);
      } else {
        NothingBelow(codec, K, st, path, n, root, tree, now);
      }
    }
  }

  /** The tree part of `iteratePath` reads what `getNode` reads. */
  lemma {:induction false} PrefixReadsTree<V(!new), R(!new)>(codec: Codec<V, R>, K: nat, st: Storage<R>, path: Path, n: nat, root: Tree<R>, tree: Tree<R>, now: Time)
    requires 2 <= K <= n <= |path| && Loaded(codec, K, st, path, root, now) && At(root, path[K..n]) == Some(tree)
    ensures PrefixReads(codec, K, st, path, |path|, now) ==
            PrefixReads(codec, K, st, path, n - 1, now) + TreeSteps(codec, path, n, tree, now)
    decreases |path| - n, 1
  {
    PrefixHere(codec, K, st, path, n, root, tree, now);
    PrefixReadsBelow(codec, K, st, path, n, root, tree, now);
    PrefixGroups(PrefixReads(codec, K, st, path, n - 1, now), Found(path[..n], codec.Decode(Live(tree, now))),
                 StepsBelow(codec, path, n, tree, now),
                 PrefixReads(codec, K, st, path, n, now), PrefixReads(codec, K, st, path, |path|, now));
  }

  lemma PrefixGroups<V>(above: seq<Step<V>>, here: seq<Step<V>>, rest: seq<Step<V>>, upTo: seq<Step<V>>, all: seq<Step<V>>)
    requires upTo == above + here && all == upTo + rest
    ensures all == above + (here + rest)
  {
  }

  /** The tree loop of `iteratePath`, from the node of level `start` on. */
  method IterateTree<V(!new), R(!new)>(codec: Codec<V, R>, path: Path, start: nat, root: Tree<R>, now: Time)
    returns (steps: seq<Step<V>>)
    requires start <= |path|
    ensures steps == TreeSteps(codec, path, start, root, now)
  {
    steps := [];
    var tree := root;
    var level := start;
    while level < |path|
      invariant start <= level <= |path|
      invariant steps + TreeSteps(codec, path, level, tree, now) == TreeSteps(codec, path, start, root, now)
    {
      var here := Found(path[..level], codec.Decode(Live(tree, now)));
      var next := Child(tree, path[level]);
      if next.None? {
        Regroup(steps, here, []);
        return steps + here;
      }
      Regroup(steps, here, TreeSteps(codec, path, level + 1, next.value, now));
      steps := steps + here;
      tree := next.value;
      level := level + 1;
    }
    steps := steps + Found(path[..level], codec.Decode(Live(tree, now)));
  }

  /** The loop of `saveFullTreeValue` over the depth first stream. */
  method SaveStream<V(!new), R(!new, ==)>(codec: Codec<V, R>, fs: FullSet<V>, level: nat, start: Save<R>, nodes: seq<Traversal.Item<V>>)
    returns (s: Save<R>)
    ensures s == SaveAll(codec, fs, level, start, nodes)
  {
    s := start;
    var i := 0;
    while i < |nodes|
      invariant 0 <= i <= |nodes|
      invariant s == SaveAll(codec, fs, level, start, nodes[..i])
    {
      s := SaveItem(codec, fs, level, s, nodes[i]);
      i := i + 1;
      assert nodes[..i][..i - 1] == nodes[..i - 1];
    }
    assert nodes[..|nodes|] == nodes;
  }

  lemma PreOrderFromRef<V>(t: Tree<V>, ref: Chained, now: Time)
    ensures StartItems(t, Some(ref), now) + DepthFirst(Start(t, Some(ref)), now) == PreOrder(t, ref, now)
  {
  }

  lemma SearchFromRoot<V>(t: Tree<V>, now: Time)
    ensures StartItems(t, None, now) + LevelOrder([Start(t, None)], now) == LevelOrder([Start(t, None)], now)
  {
  }

  lemma FullStepsSnoc<V(!new), R(!new)>(codec: Codec<V, R>, K: nat, fs: FullSet<V>, st: Storage<R>, items: seq<Traversal.Item<V>>, i: nat)
    requires i < |items|
    ensures FullSteps(codec, K, fs, st, items[..i + 1]) == FullStep(codec, K, fs, FullSteps(codec, K, fs, st, items[..i]), items[i])
  {
    assert items[..i + 1][..i] == items[..i];
  }

  /** One pass of the tree loop of `deepTreeSet`: what is left to do moves one node down. */
  lemma EnrichStep<V(!new), R(!new)>(codec: Codec<V, R>, call: Call<V>, root: Tree<R>, cursor: Path, i: nat)
    requires i < |call.path| && At(root, cursor).Some?
    ensures
      var t := At(root, cursor).value;
      var current := Live(t, call.now);
      var here := EnrichTree(codec, t, current, StepValue(codec, call, call.path[..i], current), None, call.now);
      var key := call.path[i];
      var next := Child(here.tree, key);
      var nextTree := if next.Some? then next.value else Blank();
      var root' := ReplaceAt(root, cursor, PutChild(here.tree, key, nextTree));
      var all, below := EnrichPath(codec, call, t, i), EnrichPath(codec, call, nextTree, i + 1);
      && At(root', cursor + [key]) == Some(nextTree)
      && ReplaceAt(root, cursor, all.tree) == ReplaceAt(root', cursor + [key], below.tree)
      && all.changed == (here.changed || next.None? || below.changed)
      && LastTtl(codec, call, t, i) == LastTtl(codec, call, nextTree, i + 1)
  {
    var t := At(root, cursor).value;
    var current := Live(t, call.now);
    var here := EnrichTree(codec, t, current, StepValue(codec, call, call.path[..i], current), None, call.now);
    var key := call.path[i];
    var next := Child(here.tree, key);
    var nextTree := if next.Some? then next.value else Blank();
    StepDown(root, cursor, here.tree, key, nextTree, EnrichPath(codec, call, nextTree, i + 1).tree);
  }

  function SaveOutcome<R>(s: Save<R>): Result<()>
  {
    match s
    case Saving(_, _, _, _) => Ok(())
    case Failed(message) => Err(message)
  }

  class TreeKeyCache<V(!new), R(!new, ==)> {
    const keyLevelNodes: nat
    const codec: Codec<V, R>
    var storage: Storage<R>

    constructor (codec: Codec<V, R>, keyLevelNodes: nat, storage: Storage<R>)
      ensures this.codec == codec && this.keyLevelNodes == keyLevelNodes && this.storage == storage
    {
      this.codec := codec;
      this.keyLevelNodes := keyLevelNodes;
      this.storage := storage;
    }

    /** `deepTreeSet`, run to its end by its consumer. */
    method DeepTreeSet(call: Call<V>) returns (r: Result<()>)
      modifies this`storage
      ensures r.Err? <==> DeepSetThrows(keyLevelNodes, call.path)
      ensures storage == DeepSet(codec, keyLevelNodes, call, old(storage))
      ensures codec.Lawful() && keyLevelNodes >= 2 && ValidPath(keyLevelNodes, call.path) ==>
                DeepSetEffect(codec, keyLevelNodes, call, old(storage), storage)
    {
      r := SaveLevels(call);
      if codec.Lawful() && keyLevelNodes >= 2 && ValidPath(keyLevelNodes, call.path) {
        DeepSetHasEffect(codec, keyLevelNodes, call, old(storage));
      }
    }

    /** The key levels of `deepTreeSet` and then the tree below them. */
    method SaveLevels(call: Call<V>) returns (r: Result<()>)
      modifies this`storage
      ensures r.Err? <==> DeepSetThrows(keyLevelNodes, call.path)
      ensures storage == DeepSet(codec, keyLevelNodes, call, old(storage))
    {
      var path := call.path;
      var length := |path|;
      var currentLevel := KeyLevels(keyLevelNodes, length);
      var chainedKey := SaveKeyLevels(call, currentLevel);
      if currentLevel < length {
        if chainedKey.None? || chainedKey.value == "" {
          return Err("Non consistent storage");
        }
        assert path[..currentLevel + 1][..currentLevel] == path[..currentLevel];
        chainedKey := Some(GetChainedKey(path, currentLevel, chainedKey).value.0);
        currentLevel := currentLevel + 1;
        SaveTreePath(call, currentLevel, chainedKey.value);
      }
      return Ok(());
    }

    /** The key level loop of `deepTreeSet`. */
    method SaveKeyLevels(call: Call<V>, upTo: nat) returns (chainedKey: Option<string>)
      requires upTo <= |call.path|
      modifies this`storage
      ensures chainedKey == ChainedKey(call.path[..upTo])
      ensures storage == KeyUpdates(codec, call, old(storage), upTo)
    {
      var path := call.path;
      var currentLevel := 0;
      chainedKey := None;
      while currentLevel < upTo
        invariant 0 <= currentLevel <= upTo
        invariant chainedKey == ChainedKey(path[..currentLevel])
        invariant storage == KeyUpdates(codec, call, old(storage), currentLevel)
      {
        assert path[..currentLevel + 1][..currentLevel] == path[..currentLevel];
        chainedKey := Some(GetChainedKey(path, currentLevel, chainedKey).value.0);
        var currentSerialized := StorageGet(storage, chainedKey.value, call.now);
        currentLevel := currentLevel + 1;
        var value := StepValue(codec, call, path[..currentLevel], currentSerialized);
        storage := PersistStep(codec, storage, chainedKey.value, currentSerialized, value,
                               call.ttl(path[..currentLevel], value), call.now);
      }
    }

    /** The tree part of `deepTreeSet`. The source walks `currentTree` down the tree it changes;
        here `cursor` is the path from the root to that node, and each assignment through
        `currentTree` replaces the node the cursor names. */
    method SaveTreePath(call: Call<V>, rootLevel: nat, chainedKey: string)
      requires 0 < rootLevel <= |call.path| && ChainedKey(call.path[..rootLevel]) == Some(chainedKey)
      modifies this`storage
      ensures storage == TreeUpdate(codec, call, old(storage), rootLevel)
    {
      var path := call.path;
      var rootTree := LoadTree(codec, StorageGet(storage, chainedKey, call.now));
      ghost var tree0 := rootTree;
      var cursor: Path := [];
      var changed := false;
      var currentLevel := rootLevel;
      while currentLevel < |path|
        invariant rootLevel <= currentLevel <= |path|
        invariant At(rootTree, cursor).Some?
        invariant
          var below := EnrichPath(codec, call, At(rootTree, cursor).value, currentLevel);
          var all := EnrichPath(codec, call, tree0, rootLevel);
          all.tree == ReplaceAt(rootTree, cursor, below.tree) && all.changed == (changed || below.changed)
        invariant LastTtl(codec, call, tree0, rootLevel) == LastTtl(codec, call, At(rootTree, cursor).value, currentLevel)
        invariant storage == old(storage)
      {
        var currentTree := At(rootTree, cursor).value;
        var current := Live(currentTree, call.now);
        var value := StepValue(codec, call, path[..currentLevel], current);
        var enriched := EnrichTree(codec, currentTree, current, value, None, call.now);
        var key := path[currentLevel];
        var next := Child(enriched.tree, key);
        var nextTree := if next.Some? then next.value else Blank();
        EnrichStep(codec, call, rootTree, cursor, currentLevel);
        rootTree := ReplaceAt(rootTree, cursor, PutChild(enriched.tree, key, nextTree));
        changed := changed || enriched.changed || next.None?;
        cursor := cursor + [key];
        currentLevel := currentLevel + 1;
      }
      var currentTree := At(rootTree, cursor).value;
      var current := Live(currentTree, call.now);
      var value := StepValue(codec, call, path[..currentLevel], current);
      var currentTtl := call.ttl(path[..currentLevel], value);
      var maxTtl := GetTtl(currentTtl, None);
      var enriched := EnrichTree(codec, currentTree, current, value, currentTtl, call.now);
      rootTree := ReplaceAt(rootTree, cursor, enriched.tree);
      changed := changed || enriched.changed;
      if changed {
        storage := PersistTree(codec, storage, chainedKey, Millis(maxTtl), rootTree, call.now);
      }
    }

    /** `setNode`: an undefined value changes nothing. */
    method SetNode(path: Path, value: Option<V>, ttl: (Path, Option<V>) -> Option<Seconds>, now: Time) returns (r: Result<()>)
      modifies this`storage
      ensures value.None? ==> r.Ok? && storage == old(storage)
      ensures value.Some? ==>
                && (r.Err? <==> DeepSetThrows(keyLevelNodes, path))
                && storage == DeepSet(codec, keyLevelNodes, SetNodeCall(path, value.value, ttl, now), old(storage))
      ensures codec.Lawful() && keyLevelNodes >= 2 && ValidPath(keyLevelNodes, path) && value.Some? ==>
                r.Ok? && forall q :: ValidPath(keyLevelNodes, q) ==>
                  Read(codec, keyLevelNodes, storage, q, now) ==
                  if q == path then value else Read(codec, keyLevelNodes, old(storage), q, now)
    {
      if value.None? {
        return Ok(());
      }
      r := DeepTreeSet(SetNodeCall(path, value.value, ttl, now));
      if codec.Lawful() && keyLevelNodes >= 2 && ValidPath(keyLevelNodes, path) {
        DeepSetParts(codec, keyLevelNodes, SetNodeCall(path, value.value, ttl, now), old(storage));
        forall q | ValidPath(keyLevelNodes, q)
          ensures Read(codec, keyLevelNodes, storage, q, now) ==
                  if q == path then value else Read(codec, keyLevelNodes, old(storage), q, now)
        {
          SetNodeReads(codec, keyLevelNodes, old(storage), path, value.value, ttl, now, q);
        }
      }
    }

    method GetNode(path: Path, now: Time) returns (value: Option<V>)
      ensures value == Read(codec, keyLevelNodes, storage, path, now)
    {
      var upTo := if keyLevelNodes < |path| then keyLevelNodes else |path|;
      if upTo == 0 {
        return None;
      }
      var nodeRef := NodeRefAt(path, upTo);
      var chainedKey := BuildKey(nodeRef);
      var buffer := StorageGet(storage, chainedKey, now);
      if nodeRef.level < keyLevelNodes {
        assert path[..|path|] == path;
        return codec.Decode(buffer);
      }
      if buffer.None? {
        return None;
      }
      var tree := codec.deserializeTree(buffer.value);
      var level := nodeRef.level;
      while level < |path|
        invariant keyLevelNodes <= level <= |path|
        invariant Lookup(codec.deserializeTree(buffer.value), path[keyLevelNodes..], now) == Lookup(tree, path[level..], now)
      {
        assert path[level..][1..] == path[level + 1..];
        var next := Child(tree, path[level]);
        if next.None? {
          return None;
        }
        tree := next.value;
        level := level + 1;
      }
      value := codec.Decode(Live(tree, now));
    }

    /** `iteratePath` hands out what `getNode` returns for every non-empty prefix of the path, in order;
        with a key level below 2 it hands out nothing. */
    method IteratePath(path: Path, now: Time) returns (steps: seq<Step<V>>)
      ensures keyLevelNodes >= 2 ==> steps == PrefixReads(codec, keyLevelNodes, storage, path, |path|, now)
      ensures keyLevelNodes >= 2 ==> StepsOf(codec, keyLevelNodes, storage, path, |path|, now, steps)
      ensures keyLevelNodes < 2 ==> steps == []
    {
      PrefixReadsAre(codec, keyLevelNodes, storage, path, |path|, now);
      var upTo := KeyLevels(keyLevelNodes, |path|);
      steps := [];
      if upTo == 0 {
        return;
      }
      steps := IterateKeys(path, upTo, now);
      if upTo < |path| {
        var nodeRef := NodeRefAt(path, keyLevelNodes);
        var chainedKey := BuildKey(nodeRef);
        var buffer := StorageGet(storage, chainedKey, now);
        if buffer.None? {
          PrefixReadsNoTree(codec, keyLevelNodes, storage, path, |path|, now);
          return;
        }
        var root := codec.deserializeTree(buffer.value);
        assert path[keyLevelNodes..keyLevelNodes] == [];
        PrefixReadsTree(codec, keyLevelNodes, storage, path, keyLevelNodes, root, root, now);
        var below := IterateTree(codec, path, keyLevelNodes, root, now);
        steps := steps + below;
      }
    }

    /** The key level loop of `iteratePath`. */
    method IterateKeys(path: Path, upTo: nat, now: Time) returns (steps: seq<Step<V>>)
      requires upTo <= |path| && upTo < keyLevelNodes
      ensures steps == PrefixReads(codec, keyLevelNodes, storage, path, upTo, now)
    {
      steps := [];
      var nodeRef: Option<Chained> := None;
      var level := 0;
      while level < upTo
        invariant 0 <= level <= upTo && AtLevel(nodeRef, path, level)
        invariant steps == PrefixReads(codec, keyLevelNodes, storage, path, level, now)
      {
        var step;
        nodeRef, step := IterateKey(path, nodeRef, level, now, steps);
        steps := steps + step;
        level := level + 1;
      }
    }

    /** One pass of it: the node one level further down. `before` is the steps handed out so far. */
    method IterateKey(path: Path, nodeRef: Option<Chained>, level: nat, now: Time, ghost before: seq<Step<V>>)
      returns (nextRef: Option<Chained>, steps: seq<Step<V>>)
      requires level < |path| && level + 1 < keyLevelNodes && AtLevel(nodeRef, path, level)
      requires before == PrefixReads(codec, keyLevelNodes, storage, path, level, now)
      ensures AtLevel(nextRef, path, level + 1)
      ensures before + steps == PrefixReads(codec, keyLevelNodes, storage, path, level + 1, now)
    {
      PrefixReadsKey(codec, keyLevelNodes, storage, path, level + 1, now);
      var next := NextNode(path, nodeRef);
      var chainedKey := BuildKey(next);
      steps := Found(path[..level + 1], codec.Decode(StorageGet(storage, chainedKey, now)));
      nextRef := Some(next);
    }

    /** `prune` over the keys the storage iterates: every tree it holds is loaded, pruned in place, and
        written back when the pruning reports a change. */
    method Prune(keys: seq<string>, now: Time)
      requires codec.KeysOnce()
      modifies this`storage
      ensures storage == PruneKeys(codec, keyLevelNodes, old(storage), keys, now)
      ensures codec.Lawful() ==> PrunedStore(codec, keyLevelNodes, old(storage), storage, keys, now)
    {
      var i := 0;
      while i < |keys|
        invariant 0 <= i <= |keys|
        invariant storage == PruneKeys(codec, keyLevelNodes, old(storage), keys[..i], now)
      {
        PruneOne(keys[i], now);
        i := i + 1;
        assert keys[..i][..i - 1] == keys[..i - 1];
      }
      assert keys[..|keys|] == keys;
      if codec.Lawful() {
        PruneKeysExact(codec, keyLevelNodes, old(storage), keys, now);
      }
    }

    method PruneOne(key: string, now: Time)
      requires codec.KeysOnce()
      modifies this`storage
      ensures storage == PruneKey(codec, keyLevelNodes, old(storage), key, now)
    {
      var path := Split(key);
      var buffer := StorageGet(storage, key, now);
      if |path| == keyLevelNodes && buffer.Some? {
        var nodeRef := NodeRefAt(path, keyLevelNodes);
        var tree := codec.deserializeTree(buffer.value);
        var root;
        ghost var s, fp;
        root, s, fp := Materialize(tree);
        var pruned, _ := PruneTree(root, nodeRef.parentRef, now, s, fp);
        if pruned {
          var chainedKey := BuildKey(nodeRef);
          assert path[..keyLevelNodes] == path;
          JoinSplit(key);
          var after := Collect(root, PruneRoot(tree, nodeRef.parentRef.Some?, now), fp);
          storage := PersistTree(codec, storage, chainedKey, CurrentTtl(storage, chainedKey, now), after, now);
        }
      }
    }

    /** `fullTreeSet`, run to its end by its consumer. */
    method FullTreeSet(tree: Tree<V>, fs: FullSet<V>)
      modifies this`storage
      ensures storage == FullTreeSetStore(codec, keyLevelNodes, fs, tree, old(storage))
      ensures codec.Lawful() && keyLevelNodes >= 1 && WellKeyed(tree) ==>
                FullSetEffect(codec, keyLevelNodes, fs, tree, old(storage), storage)
    {
      if codec.Lawful() && keyLevelNodes >= 1 && WellKeyed(tree) {
        FullSetHasEffect(codec, keyLevelNodes, fs, tree, storage);
      }
      var list := new Worklist<Pending<V>>(true);
      var items := TreePreOrderTraversal(tree, list, None, fs.now);
      SearchFromRoot(tree, fs.now);
      StoreItems(items, fs);
    }

    /** The loop of `fullTreeSet`, which breaks at the first item below the key level. */
    method StoreItems(items: seq<Traversal.Item<V>>, fs: FullSet<V>)
      modifies this`storage
      ensures storage == FullSteps(codec, keyLevelNodes, fs, old(storage), Outer(keyLevelNodes, items))
    {
      ghost var outer := Outer(keyLevelNodes, items);
      OuterStops(keyLevelNodes, items);
      var i := 0;
      while i < |items| && items[i].ref.level <= keyLevelNodes
        invariant 0 <= i <= |outer|
        invariant storage == FullSteps(codec, keyLevelNodes, fs, old(storage), outer[..i])
      {
        FullStepsSnoc(codec, keyLevelNodes, fs, old(storage), outer, i);
        if items[i].ref.level == keyLevelNodes {
          var saved := SaveFullTreeValue(items[i], fs);
        } else {
          storage := KeyOverlay(codec, fs, storage, items[i]);
        }
        i := i + 1;
      }
      assert i == |outer| && outer[..i] == outer;
    }

    /** `saveFullTreeValue`: it never raises 'Algorithm error'. */
    method SaveFullTreeValue(item: Traversal.Item<V>, fs: FullSet<V>) returns (r: Result<()>)
      modifies this`storage
      ensures r.Ok?
      ensures storage == TreeOverlay(codec, fs, old(storage), item)
      ensures codec.Lawful() && WellKeyed(item.tree) ==> TreeSaveEffect(codec, fs, old(storage), storage, item)
    {
      if codec.Lawful() && WellKeyed(item.tree) {
        TreeOverlayEffect(codec, fs, storage, item);
      }
      var chainedKey := BuildKey(item.ref);
      var rootTree := LoadTree(codec, StorageGet(storage, chainedKey, fs.now));
      var level := item.ref.level;
      var list := new Worklist<Pending<V>>(false);
      var nodes := TreePreOrderTraversal(item.tree, list, Some(item.ref), fs.now);
      PreOrderFromRef(item.tree, item.ref, fs.now);
      var s := SaveStream(codec, fs, level, Saving(rootTree, map[level := []], false, None), nodes);
      SaveIsOverlay(codec, fs, rootTree, item.tree, item.ref);
      if s.Saving? && s.changed {
        storage := PersistTree(codec, storage, chainedKey, Millis(s.maxTtl), s.tree, fs.now);
      }
      r := SaveOutcome(s);
    }
  }
}

/** `reprocessAllKeyLevelChildren`: rebuilds the registry of children from the keys of the storage,
    after which a traversal sees exactly what readers see. */
module Registry {
  import opened Wrappers
  import opened Keys
  import opened Trees
  import opened HybridStore
  import opened Orders
  import opened AsyncLists
  import opened HybridTraversal

  /** One call of `registerChild`. */
  datatype Registration = Registration(parentKey: Option<string>, partialKey: Key)

  function ParentKey(p: Path): Option<string>
  {
    if p == [] then None else Some(Join(p))
  }

  /** The calls for one storage key: each piece under the chain of the pieces before it. */
  function PathCalls(path: Path, n: nat): seq<Registration>
    requires n <= |path|
  {
    if n == 0 then [] else PathCalls(path, n - 1) + [Registration(ParentKey(path[..n - 1]), path[n - 1])]
  }

  function AllCalls(keys: seq<string>): seq<Registration>
  {
    if keys == [] then []
    else AllCalls(keys[..|keys| - 1]) + PathCalls(Split(keys[|keys| - 1]), |Split(keys[|keys| - 1])|)
  }

  /** How many calls make a batch: with a partition of zero every single one. */
  function BatchSize(partition: nat): nat
  {
    if partition == 0 then 1 else partition
  }

  /** Every batch is as large as the partition, but for the last one, which may be smaller. */
  predicate BatchesFit(batches: seq<seq<Registration>>, partition: nat)
  {
    && (forall b :: 0 <= b < |batches| ==> 0 < |batches[b]| <= BatchSize(partition))
    && (forall b :: 0 <= b < |batches| - 1 ==> |batches[b]| == BatchSize(partition))
  }

  predicate BatchesFull(batches: seq<seq<Registration>>, partition: nat)
  {
    forall b :: 0 <= b < |batches| ==> |batches[b]| == BatchSize(partition)
  }

  /** All calls made so far, handed out or waiting. */
  function Made(batches: seq<seq<Registration>>, promises: seq<Registration>): seq<Registration>
  {
    Flatten(batches) + promises
  }

  lemma HandOut(batches: seq<seq<Registration>>, promises: seq<Registration>)
    ensures Made(batches + [promises], []) == Made(batches, promises)
  {
    FlattenSnoc(batches, promises);
  }

  lemma OneMore(batches: seq<seq<Registration>>, promises: seq<Registration>, call: Registration)
    ensures Made(batches, promises + [call]) == Made(batches, promises) + [call]
  {
  }

  /** The batches that are handed out: all but the last are as large as the partition, and no call is lost. */
  method ReprocessAllKeyLevelChildren(keys: seq<string>, partition: nat) returns (batches: seq<seq<Registration>>)
    ensures Flatten(batches) == AllCalls(keys) && BatchesFit(batches, partition)
  {
    batches := [];
    var promises: seq<Registration> := [];
    var i := 0;
    while i < |keys|
      invariant 0 <= i <= |keys| && BatchesFull(batches, partition)
      invariant Made(batches, promises) == AllCalls(keys[..i])
      invariant promises != [] ==> |promises| < partition
    {
      batches, promises := RegisterPath(Split(keys[i]), partition, batches, promises);
      assert keys[..i + 1][..i] == keys[..i];
      i := i + 1;
    }
    assert keys[..|keys|] == keys;
    if |promises| > 0 {
      HandOut(batches, promises);
      batches := batches + [promises];
    }
    assert Made(batches, []) == Flatten(batches);
  }

  /** The loop over the pieces of one storage key. */
  method RegisterPath(path: Path, partition: nat, batches: seq<seq<Registration>>, promises: seq<Registration>)
    returns (batches': seq<seq<Registration>>, promises': seq<Registration>)
    requires BatchesFull(batches, partition) && (promises != [] ==> |promises| < partition)
    ensures BatchesFull(batches', partition) && (promises' != [] ==> |promises'| < partition)
    ensures Made(batches', promises') == Made(batches, promises) + PathCalls(path, |path|)
  {
    batches', promises' := batches, promises;
    var chainedKey: Option<string> := None;
    var n := 0;
    while n < |path|
      invariant 0 <= n <= |path| && chainedKey == ParentKey(path[..n])
      invariant BatchesFull(batches', partition) && (promises' != [] ==> |promises'| < partition)
      invariant Made(batches', promises') == Made(batches, promises) + PathCalls(path, n)
    {
      OneMore(batches', promises', Registration(chainedKey, path[n]));
      promises' := promises' + [Registration(chainedKey, path[n])];
      n := n + 1;
      chainedKey := Some(Join(path[..n]));
      if |promises'| >= partition {
        HandOut(batches', promises');
        batches', promises' := batches' + [promises'], [];
      }
    }
  }

  lemma {:induction false} PathCallsHold(path: Path, n: nat, i: nat)
    requires i < n <= |path|
    ensures Registration(ParentKey(path[..i]), path[i]) in PathCalls(path, n)
  {
    if i < n - 1 {
      PathCallsHold(path, n - 1, i);
    }
  }

  /** Every step of every stored path is registered. */
  lemma {:induction false} StoredIsRegistered(keys: seq<string>, p: Path, i: nat)
    requires p != [] && ColonFree(p) && Join(p) in keys && i < |p|
    ensures Registration(ParentKey(p[..i]), p[i]) in AllCalls(keys)
  {
    if keys[|keys| - 1] == Join(p) {
      SplitJoin(p);
      PathCallsHold(p, |p|, i);
    } else {
      StoredIsRegistered(keys[..|keys| - 1], p, i);
    }
  }

  lemma {:induction false} PathCallsOnly(path: Path, n: nat, call: Registration) returns (i: nat)
    requires n <= |path| && call in PathCalls(path, n)
    ensures i < n && call == Registration(ParentKey(path[..i]), path[i])
  {
    if call in PathCalls(path, n - 1) {
      i := PathCallsOnly(path, n - 1, call);
    } else {
      i := n - 1;
    }
  }

  /** The call is for one piece of a stored key, under the pieces before it. */
  ghost predicate IsStep(keys: seq<string>, call: Registration)
  {
    exists key, i: nat :: key in keys && i < |Split(key)| && call == Registration(ParentKey(Split(key)[..i]), Split(key)[i])
  }

  lemma {:induction false} CallsAreSteps(keys: seq<string>, call: Registration)
    requires call in AllCalls(keys)
    ensures IsStep(keys, call)
  {
    var last := keys[|keys| - 1];
    if call in AllCalls(keys[..|keys| - 1]) {
      CallsAreSteps(keys[..|keys| - 1], call);
    } else {
      var i := PathCallsOnly(Split(last), |Split(last)|, call);
      assert last in keys;
    }
  }

  lemma {:induction false} StepsAreCalled(keys: seq<string>, key: string, i: nat)
    requires key in keys && i < |Split(key)|
    ensures Registration(ParentKey(Split(key)[..i]), Split(key)[i]) in AllCalls(keys)
  {
    if keys[|keys| - 1] == key {
      PathCallsHold(Split(key), |Split(key)|, i);
    } else {
      StepsAreCalled(keys[..|keys| - 1], key, i);
    }
  }

  /** Exactly the pieces of the stored keys are registered, each under the pieces before it. */
  lemma RegisteredIff(keys: seq<string>, call: Registration)
    ensures call in AllCalls(keys) <==> IsStep(keys, call)
  {
    if call in AllCalls(keys) {
      CallsAreSteps(keys, call);
    }
    if IsStep(keys, call) {
      var key, i: nat :| key in keys && i < |Split(key)| && call == Registration(ParentKey(Split(key)[..i]), Split(key)[i]);
      StepsAreCalled(keys, key, i);
    }
  }

  /** The storage lists a child under a parent exactly when it was registered there. */
  ghost predicate Reprocessed<R>(view: View<R>, keys: seq<string>)
  {
    && (forall parent, k :: k in view.getChildren(parent) <==> Registration(parent, k) in AllCalls(keys))
    && (forall key :: key in view.storage ==> key in keys)
  }

  /** The reference reached from the root along `p`. */
  ghost function RefOf(p: Path): Option<Chained>
  {
    if p == [] then None else Some(RefAt(None, 1, p))
  }

  lemma RefOfPath(p: Path)
    ensures BasePath(RefOf(p)) == p && RefLevel(RefOf(p)) == |p|
  {
    if p != [] {
      RefAtPath(None, 1, p);
      assert [] + p == p;
    }
  }

  lemma {:induction false} RefAtSnoc(parent: Option<Chained>, level: nat, p: Path, k: Key)
    requires p != []
    ensures RefAt(parent, level, p + [k]) == Chained(k, level + |p|, Some(RefAt(parent, level, p)))
    decreases p
  {
    assert (p + [k])[1..] == p[1..] + [k];
    if |p| == 1 {
      assert p[1..] + [k] == [k];
    } else {
      RefAtSnoc(Some(Chained(p[0], level, parent)), level + 1, p[1..], k);
    }
  }

  lemma RefOfSnoc(p: Path, k: Key)
    ensures RefOf(p + [k]) == Some(Chained(k, |p| + 1, RefOf(p)))
  {
    if p == [] {
      assert p + [k] == [k];
    } else {
      RefAtSnoc(None, 1, p, k);
    }
  }

  lemma StepIsListed<R>(view: View<R>, keys: seq<string>, base: Path, q: Path)
    requires Reprocessed(view, keys) && q != [] && |base| < view.K
    requires ColonFree(Holder(view.K, base + q)) && Join(Holder(view.K, base + q)) in keys
    ensures q[0] in ListedChildren(view, RefOf(base))
  {
    var stored := Holder(view.K, base + q);
    RefOfPath(base);
    StoredIsRegistered(keys, stored, |base|);
    assert stored[..|base|] == base && stored[|base|] == q[0];
  }

  /** A stored path is listed from every node above it. */
  lemma {:induction false} StoredIsListed<R>(view: View<R>, keys: seq<string>, base: Path, q: Path)
    requires Reprocessed(view, keys) && |base| <= view.K
    requires ColonFree(Holder(view.K, base + q)) && Join(Holder(view.K, base + q)) in keys
    ensures Listed(view, RefOf(base), q)
    decreases q
  {
    RefOfPath(base);
    if q != [] && |base| < view.K {
      StepIsListed(view, keys, base, q);
      RefOfSnoc(base, q[0]);
      var next := base + [q[0]];
      assert next + q[1..] == base + q && |next| <= view.K;
      assert Listed(view, RefOf(next), q[1..]) by {
        StoredIsListed(view, keys, next, q[1..]);
      }
    }
  }

  /** A path that is not listed leads to nothing in the traversed tree. */
  lemma {:induction false} UnlistedReadsNothing<R>(view: View<R>, ref: Option<Chained>, value: Option<R>, q: Path)
    requires RefLevel(ref) < view.K && q != [] && !Listed(view, ref, q)
    ensures At(Materialized(view, KeyRef(ref, value)), q).None?
    decreases q
  {
    var keys := ListedChildren(view, ref);
    if q[0] in keys {
      FindMaterialized(view, ref, keys, q[0]);
      var child := Chained(q[0], RefLevel(ref) + 1, ref);
      if child.level < view.K {
        var stored := StorageGet(view.storage, Join(ChainPath(child)), view.now);
        UnlistedReadsNothing(view, Some(child), stored, q[1..]);
      }
    } else {
      UnlistedChild(view, ref, keys, q[0]);
    }
  }

  lemma {:induction false} UnlistedChild<R>(view: View<R>, ref: Option<Chained>, keys: seq<Key>, k: Key)
    requires RefLevel(ref) < view.K && k !in keys
    ensures Find(MaterializedKids(view, ref, keys), k).None?
  {
    if keys != [] {
      UnlistedChild(view, ref, keys[1..], k);
    }
  }

  /** After reprocessing, the tree that traversals go through reads, at every path, what `getNode` reads. */
  lemma ReprocessedTraversalReads<V(!new), R(!new)>(codec: Codec<V, R>, view: View<R>, keys: seq<string>, q: Path)
    requires view.deserializeTree == codec.deserializeTree && view.K >= 1
    requires Reprocessed(view, keys) && q != [] && ColonFree(Holder(view.K, q))
    ensures Lookup(Materialized(view, KeyRef(None, None)), q, view.now) ==
            ReadBytes(codec, view.K, view.storage, q, view.now)
  {
    assert BasePath(None) + q == q && [] + q == q;
    if Listed(view, None, q) {
      MaterializedReads(codec, view, None, None, q);
    } else {
      UnlistedReadsNothing(view, None, None, q);
      if Join(Holder(view.K, q)) in view.storage {
        StoredIsListed(view, keys, [], q);
      }
    }
  }
}

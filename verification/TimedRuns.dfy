/** Runs of timed calls, prunes and whole-tree saves, and when they keep every tree key alive as long as its nodes. */
module TimedRuns {
  import opened Wrappers
  import opened Keys
  import opened Trees
  import opened HybridStore
  import opened SaveTree
  import opened FullTreeSets
  import opened Expiry
  import opened SaveExpiry

  /** One operation of a run. */
  datatype Op<!V> = Write(call: Call<V>) | Pruning(keys: seq<string>, at: Time) | Save(fs: FullSet<V>, tree: Tree<V>)

  function Apply<V(!new), R(!new, ==)>(codec: Codec<V, R>, K: nat, op: Op<V>, st: Storage<R>): Storage<R>
    requires K >= 1
  {
    match op
    case Write(call) => DeepSet(codec, K, call, st)
    case Pruning(keys, at) => PruneKeys(codec, K, st, keys, at)
    case Save(fs, tree) => FullTreeSetStore(codec, K, fs, tree, st)
  }

  function ApplyAll<V(!new), R(!new, ==)>(codec: Codec<V, R>, K: nat, ops: seq<Op<V>>, st: Storage<R>): Storage<R>
    requires K >= 1
  {
    if ops == [] then st
    else Apply(codec, K, ops[|ops| - 1], ApplyAll(codec, K, ops[..|ops| - 1], st))
  }

  ghost predicate TimedOp<V(!new)>(K: nat, op: Op<V>)
  {
    match op
    case Write(call) => AllTimed(call) && ValidPath(K, call.path)
    case Pruning(_, _) => true
    case Save(fs, tree) => AllItemsTimed(fs) && WellKeyed(tree) && PlainKeys(K, tree)
  }

  ghost predicate TimedOps<V(!new)>(K: nat, ops: seq<Op<V>>)
  {
    forall i :: 0 <= i < |ops| ==> TimedOp(K, ops[i])
  }

  /** A save that does not only create nodes in any tree. */
  ghost predicate SavesValues<V(!new), R(!new)>(codec: Codec<V, R>, K: nat, op: Op<V>, st: Storage<R>)
  {
    op.Save? ==> forall r: Path :: |r| == K && ValidPath(K, r) ==> WritesToo(codec, op.fs, op.tree, st, r)
  }

  /** One timed operation keeps the cover exactly if it is no save that only creates nodes in some tree. */
  lemma OpCoversIff<V(!new), R(!new)>(codec: Codec<V, R>, K: nat, op: Op<V>, st: Storage<R>)
    requires codec.Lawful() && K >= 2 && TimedOp(K, op) && Covered(codec, K, st)
    ensures Covered(codec, K, Apply(codec, K, op, st)) <==> SavesValues(codec, K, op, st)
    ensures SavesValues(codec, K, op, st) ==> NotEarlier(K, st, Apply(codec, K, op, st))
  {
    match op
    case Write(call) => DeepSetCovers(codec, K, call, st);
    case Pruning(keys, at) => PruneKeysCover(codec, K, st, keys, at);
    case Save(fs, tree) => FullTreeSetCoversIff(codec, K, fs, tree, st);
  }

  /** No save of the run only creates nodes in some tree, at the time it runs. */
  ghost predicate SavesAlong<V(!new), R(!new)>(codec: Codec<V, R>, K: nat, ops: seq<Op<V>>, st: Storage<R>)
    requires K >= 1
  {
    ops != [] ==>
      var before := ApplyAll(codec, K, ops[..|ops| - 1], st);
      SavesAlong(codec, K, ops[..|ops| - 1], st) && SavesValues(codec, K, ops[|ops| - 1], before)
  }

  /** The trees are covered at the start, and after each operation. */
  ghost predicate CoveredAlong<V(!new), R(!new)>(codec: Codec<V, R>, K: nat, ops: seq<Op<V>>, st: Storage<R>)
    requires K >= 1
  {
    Covered(codec, K, ApplyAll(codec, K, ops, st)) && (ops != [] ==> CoveredAlong(codec, K, ops[..|ops| - 1], st))
  }

  lemma NextCovers<V(!new), R(!new)>(codec: Codec<V, R>, K: nat, op: Op<V>, st: Storage<R>, before: Storage<R>)
    requires codec.Lawful() && K >= 2 && TimedOp(K, op) && Covered(codec, K, before) && SavesValues(codec, K, op, before)
    requires NotEarlier(K, st, before)
    ensures Covered(codec, K, Apply(codec, K, op, before)) && NotEarlier(K, st, Apply(codec, K, op, before))
  {
    OpCoversIff(codec, K, op, before);
    NotEarlierTransitive(K, st, before, Apply(codec, K, op, before));
  }

  /** Over every such run of timed operations a tree key never expires before one of its nodes is due, and its expiry
      never moves earlier. */
  lemma {:induction false} TimedRunCovers<V(!new), R(!new)>(codec: Codec<V, R>, K: nat, ops: seq<Op<V>>, st: Storage<R>)
    requires codec.Lawful() && K >= 2 && TimedOps(K, ops) && Covered(codec, K, st) && SavesAlong(codec, K, ops, st)
    ensures Covered(codec, K, ApplyAll(codec, K, ops, st))
    ensures NotEarlier(K, st, ApplyAll(codec, K, ops, st))
  {
    if ops != [] {
      var earlier, last := ops[..|ops| - 1], ops[|ops| - 1];
      TimedRunCovers(codec, K, earlier, st);
      NextCovers(codec, K, last, st, ApplyAll(codec, K, earlier, st));
    }
  }

  /** A timed run keeps the cover at every point exactly if none of its saves only creates nodes in some tree. */
  lemma {:induction false} TimedRunCoversIff<V(!new), R(!new)>(codec: Codec<V, R>, K: nat, ops: seq<Op<V>>, st: Storage<R>)
    requires codec.Lawful() && K >= 2 && TimedOps(K, ops) && Covered(codec, K, st)
    ensures CoveredAlong(codec, K, ops, st) <==> SavesAlong(codec, K, ops, st)
  {
    if ops != [] {
      var earlier, last := ops[..|ops| - 1], ops[|ops| - 1];
      TimedRunCoversIff(codec, K, earlier, st);
      if CoveredAlong(codec, K, earlier, st) {
        OpCoversIff(codec, K, last, ApplyAll(codec, K, earlier, st));
      }
    }
  }

  /** `createValue` gives nothing. */
  ghost predicate CreatesNothing<V(!new)>(fs: FullSet<V>)
  {
    forall q :: fs.create(q) == None
  }

  lemma NothingCreated<V(!new), R(!new)>(codec: Codec<V, R>, fs: FullSet<V>, stored: Tree<R>, input: Tree<V>, q: Path)
    requires WellKeyed(input) && CreatesNothing(fs)
    ensures !OnlyCreates(OverlayChanges(codec, fs, stored, input, q))
  {
    var changes := OverlayChanges(codec, fs, stored, input, q);
    if changes != [] {
      var s := ListedChange(codec, fs, stored, input, q, changes[0]);
    }
  }

  /** Without `createValue` a save keeps the cover in every storage. */
  lemma SaveWithoutCreating<V(!new), R(!new)>(codec: Codec<V, R>, K: nat, op: Op<V>, st: Storage<R>)
    requires op.Save? ==> WellKeyed(op.tree) && CreatesNothing(op.fs)
    ensures SavesValues(codec, K, op, st)
  {
    if op.Save? {
      forall r: Path | |r| == K && ValidPath(K, r)
        ensures WritesToo(codec, op.fs, op.tree, st, r)
      {
        if At(op.tree, r).Some? {
          WellKeyedAt(op.tree, r);
          NothingCreated(codec, op.fs, LoadTree(codec, StorageGet(st, Join(r), op.fs.now)), At(op.tree, r).value, r);
        }
      }
    }
  }
}

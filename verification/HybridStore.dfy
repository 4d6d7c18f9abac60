/** The hybrid store: nodes above the key level have one storage key each, and every
    subtree from that level on is one serialized tree under a single key. */
module HybridStore {
  import opened Wrappers
  import opened Keys
  import opened Trees

  /** A time to live, in seconds. */
  type Seconds = nat

  const MILLISECONDS_IN_A_SECOND: nat := 1000

  datatype Record<R> = Record(bytes: R, expiry: Option<int>)

  /** The external storage: a key holds bytes until its expiry, if it has one. */
  type Storage<R> = map<string, Record<R>>

  /** The two serializers. `R` is the type of the bytes a serializer can produce. */
  datatype Codec<!V(!new), !R(!new)> = Codec(
    serialize: V -> R, deserialize: R -> V,
    serializeTree: Tree<R> -> R, deserializeTree: R -> Tree<R>)
  {
    /** Deserializing gives back what was serialized, and a deserialized object has each key once. */
    ghost predicate Lawful()
    {
      && (forall v :: deserialize(serialize(v)) == v)
      && (forall t :: WellKeyed(t) ==> deserializeTree(serializeTree(t)) == t)
      && KeysOnce()
    }

    ghost predicate KeysOnce()
    {
      forall b :: WellKeyed(deserializeTree(b))
    }

    function Decode(b: Option<R>): Option<V>
    {
      if b.Some? then Some(deserialize(b.value)) else None
    }
  }

  /** One call of `deepTreeSet` with the consumer of its steps: `create` is `createValue`,
      `edit` is what the consumer leaves in `step.value`, and `now` is the call's clock reading. */
  datatype Call<!V> = Call(
    path: Path,
    create: Path -> Option<V>,
    edit: (Path, Option<V>) -> Option<V>,
    ttl: (Path, Option<V>) -> Option<Seconds>,
    minLevelSemaphore: nat,
    now: Time)

  // ----- the storage interface

  function StorageGet<R>(st: Storage<R>, key: string, now: Time): Option<R>
  {
    if key in st && (st[key].expiry.None? || st[key].expiry.value > now) then Some(st[key].bytes) else None
  }

  /** A ttl of zero is falsy, so it counts as no ttl. */
  predicate Timed(ttl: Option<nat>)
  {
    ttl.Some? && ttl.value != 0
  }

  /** The ttl in milliseconds. */
  function Millis(ttl: Option<Seconds>): Option<nat>
  {
    if ttl.Some? then Some(ttl.value * MILLISECONDS_IN_A_SECOND) else None
  }

  /** The two storages hold the same record under the key, or both none. */
  predicate SameRecord<R(==)>(st: Storage<R>, other: Storage<R>, key: string)
  {
    (key in st <==> key in other) && (key in st ==> st[key] == other[key])
  }

  function StorageSet<R>(st: Storage<R>, key: string, bytes: R, ttlMillis: Option<nat>, now: Time): Storage<R>
  {
    st[key := Record(bytes, if Timed(ttlMillis) then Some(now + ttlMillis.value) else None)]
  }

  /** The exact time in milliseconds that the key has left, when it is alive and expires at all. */
  function CurrentTtl<R>(st: Storage<R>, key: string, now: Time): Option<nat>
  {
    if StorageGet(st, key, now).Some? && st[key].expiry.Some? then Some(st[key].expiry.value - now) else None
  }

  /** `getTtl`: the running maximum of the ttls met so far. */
  function GetTtl(current: Option<Seconds>, maxTtl: Option<Seconds>): Option<Seconds>
  {
    if Timed(current) && (!Timed(maxTtl) || current.value > maxTtl.value) then current else maxTtl
  }

  // ----- one node

  /** The value in the step once the consumer is done with it. */
  function StepValue<V(!new), R(!new)>(codec: Codec<V, R>, call: Call<V>, q: Path, current: Option<R>): Option<V>
  {
    call.edit(q, if current.Some? then codec.Decode(current) else call.create(q))
  }

  /** `persistStep`: writes only a value that changed. */
  function PersistStep<V(!new), R(!new, ==)>(codec: Codec<V, R>, st: Storage<R>, key: string,
                                   current: Option<R>, value: Option<V>, ttl: Option<Seconds>, now: Time): Storage<R>
  {
    if value.None? || current == Some(codec.serialize(value.value)) then st
    else StorageSet(st, key, codec.serialize(value.value), Millis(ttl), now)
  }

  /** A node after `enrichTree`, and whether it changed. */
  datatype Enriched<R> = Enriched(tree: Tree<R>, changed: bool)

  /** `enrichTree`: writes value and deadline of one tree node. */
  function EnrichTree<V(!new), R(!new, ==)>(codec: Codec<V, R>, t: Tree<R>, current: Option<R>,
                                  value: Option<V>, ttl: Option<Seconds>, now: Time): Enriched<R>
  {
    if value.None? || current == Some(codec.serialize(value.value)) then Enriched(t, false)
    else
      var deadline :=
        if Timed(ttl) then Some(now + ttl.value * MILLISECONDS_IN_A_SECOND)
        else if t.deadline.Some? && t.deadline.value != 0 then None
        else t.deadline;
      Enriched(Tree(Some(codec.serialize(value.value)), deadline, t.children), true)
  }

  /** `persistTree`: the key keeps the longer of its remaining ttl and the new one. */
  function PersistTree<V(!new), R(!new)>(codec: Codec<V, R>, st: Storage<R>, key: string,
                                   ttlMillis: Option<nat>, t: Tree<R>, now: Time): Storage<R>
  {
    var maxTtl :=
      if !Timed(ttlMillis) then None
      else
        var left := CurrentTtl(st, key, now);
        if left.None? || left.value <= ttlMillis.value then ttlMillis else left;
    StorageSet(st, key, codec.serializeTree(t), maxTtl, now)
  }

  // ----- deepTreeSet

  /** How many levels of a path of this length have a storage key of their own. */
  function KeyLevels(keyLevelNodes: nat, length: nat): nat
  {
    if keyLevelNodes == 0 then 0
    else if keyLevelNodes - 1 < length then keyLevelNodes - 1
    else length
  }

  /** One pass of the key level loop, for the node at `q`. */
  function KeyUpdate<V(!new), R(!new, ==)>(codec: Codec<V, R>, call: Call<V>, st: Storage<R>, q: Path): Storage<R>
    requires q != []
  {
    var key := ChainedKey(q).value;
    var current := StorageGet(st, key, call.now);
    var value := StepValue(codec, call, q, current);
    PersistStep(codec, st, key, current, value, call.ttl(q, value), call.now)
  }

  /** The key level loop up to level `n`. */
  function KeyUpdates<V(!new), R(!new, ==)>(codec: Codec<V, R>, call: Call<V>, st: Storage<R>, n: nat): Storage<R>
    requires n <= |call.path|
  {
    if n == 0 then st
    else KeyUpdate(codec, call, KeyUpdates(codec, call, st, n - 1), call.path[..n])
  }

  /** The tree loop from the node `t` of level `i` down to the end of the path. */
  function EnrichPath<V(!new), R(!new, ==)>(codec: Codec<V, R>, call: Call<V>, t: Tree<R>, i: nat): Enriched<R>
    requires i <= |call.path|
    decreases |call.path| - i
  {
    var q := call.path[..i];
    var current := Live(t, call.now);
    var value := StepValue(codec, call, q, current);
    if i == |call.path| then
      EnrichTree(codec, t, current, value, call.ttl(q, value), call.now)
    else
      var here := EnrichTree(codec, t, current, value, None, call.now);
      var next := Child(here.tree, call.path[i]);
      var below := EnrichPath(codec, call, if next.Some? then next.value else Blank(), i + 1);
      Enriched(PutChild(here.tree, call.path[i], below.tree), here.changed || next.None? || below.changed)
  }

  /** The ttl handed to `persistTree`: only the last node of the path supplies one. */
  function LastTtl<V(!new), R(!new, ==)>(codec: Codec<V, R>, call: Call<V>, t: Tree<R>, i: nat): Option<Seconds>
    requires i <= |call.path|
    decreases |call.path| - i
  {
    var q := call.path[..i];
    if i == |call.path| then
      var value := StepValue(codec, call, q, Live(t, call.now));
      call.ttl(q, value)
    else
      var next := Child(t, call.path[i]);
      LastTtl(codec, call, if next.Some? then next.value else Blank(), i + 1)
  }

  function LoadTree<V(!new), R(!new)>(codec: Codec<V, R>, buffer: Option<R>): Tree<R>
  {
    if buffer.Some? then codec.deserializeTree(buffer.value) else Blank()
  }

  /** The tree part of `deepTreeSet`, under the key of the first `k` keys of the path. */
  function TreeUpdate<V(!new), R(!new, ==)>(codec: Codec<V, R>, call: Call<V>, st: Storage<R>, k: nat): Storage<R>
    requires 0 < k <= |call.path|
  {
    var key := ChainedKey(call.path[..k]).value;
    var root := LoadTree(codec, StorageGet(st, key, call.now));
    var e := EnrichPath(codec, call, root, k);
    if e.changed then PersistTree(codec, st, key, Millis(LastTtl(codec, call, root, k)), e.tree, call.now) else st
  }

  /** `deepTreeSet` throws when the key before the tree key is missing or empty. */
  predicate DeepSetThrows(keyLevelNodes: nat, path: Path)
  {
    var n := KeyLevels(keyLevelNodes, |path|);
    n < |path| && (n == 0 || ChainedKey(path[..n]) == Some(""))
  }

  /** The storage after a whole call of `deepTreeSet`. */
  function DeepSet<V(!new), R(!new, ==)>(codec: Codec<V, R>, keyLevelNodes: nat, call: Call<V>, st: Storage<R>): Storage<R>
  {
    var n := KeyLevels(keyLevelNodes, |call.path|);
    var afterKeys := KeyUpdates(codec, call, st, n);
    if n < |call.path| && !DeepSetThrows(keyLevelNodes, call.path)
    then TreeUpdate(codec, call, afterKeys, n + 1)
    else afterKeys
  }

  // ----- getNode

  /** The bytes `getNodeRef` finds for a path. */
  function ReadBytes<V(!new), R(!new)>(codec: Codec<V, R>, keyLevelNodes: nat, st: Storage<R>, path: Path, now: Time): Option<R>
  {
    if path == [] || keyLevelNodes == 0 then None
    else if |path| < keyLevelNodes then StorageGet(st, Join(path), now)
    else
      match StorageGet(st, Join(path[..keyLevelNodes]), now)
      case None => None
      case Some(b) => Lookup(codec.deserializeTree(b), path[keyLevelNodes..], now)
  }

  /** The value `getNode` returns. */
  function Read<V(!new), R(!new)>(codec: Codec<V, R>, keyLevelNodes: nat, st: Storage<R>, path: Path, now: Time): Option<V>
  {
    codec.Decode(ReadBytes(codec, keyLevelNodes, st, path, now))
  }
}

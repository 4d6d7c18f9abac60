# A verified model of tree-key-cache

tree-key-cache keeps a tree of values in a key-value storage. Nodes above level `keyLevelNodes` (K below)
have a storage key each; at level K a whole subtree is serialized under one key. This project models that
hybrid store, the operations on it, the locking of concurrent writers, pruning, the traversals and the
history merge, and proves what they promise.

Reading order:

- `Wrappers`, `Keys`, `Trees` - options, storage keys, trees and references into them.
- `HybridStore` - storage with expiry, serializers, and `deepTreeSet`/`getNode` as functions; `Codecs` - serializers to
  text that meet the law; `PathMap`, `ReadBack`, `Lifetimes`, `Expiry` - what the store means to readers, now and later;
  `DeepSetEffects` - what a call leaves record by record and node by node.
- `Pruning` - pruning as a recursive definition; `PruneInPlace` - `pruneTree` on mutable objects.
- `Worklists`, `Traversal`, `Orders`, `SiblingOrders` - the worklist loop and the orders it yields.
- `SaveTree`, `FullTreeSet`, `FullSetEffects`, `WholeTree` - the two consumers of a depth first stream.
- `SaveExpiry`, `TimedRuns`, `Promises` - what whole-tree saves do to expiry; runs of timed operations.
- `AsyncLists`, `HybridTraversal`, `AsyncPostOrder`, `Registry`, `History` - lazy traversal of the storage, the registry of
  children, the merge of history trees.
- `TreeKeyCache` - the cache object, whose methods carry the loops and change the storage.
- `Locking`, `Segments`, `Counting`, `SetNodeRace` - concurrent calls as interleaved steps.

Conventions. `None` is `undefined`. Serializers are functions: deserializing gives back a serialized value or tree, and
nothing is asked of other bytes (`Codec.Lawful`; `Codecs` shows that strings meet it for any values). A few results hold
for storages whose bytes are those their values serialize to; they say so (`Steady`). Bytes are truthy. Times and
deadlines are whole milliseconds and ttls whole seconds; `getCurrentTtl` returns the exact remaining time. The clock,
the keys the storage iterates and the consumer of a generator are parameters: a consumer is the function from the step
it is given to the value it leaves. A `for` loop over a generator is modelled either over the list the generator yields,
or, for `pruneTree`, which changes the tree while it is walked, as the walk itself with the loop body run at each yield.
The children of a node are listed in one fixed order, each key once. Locks are those of a semaphore that grants a key to
one holder at a time; the default one grants every key to everybody.

Where the code departs from what its documentation suggests, the model follows the code and the departure is stated:

- `setNode` locks nothing unless its path ends at level K (`SetNodeTakesLock`), so of two concurrent calls into one tree
  one can lose its value, even that of the call that takes the lock (`RaceLosesUpdate`, `BothRemainIff`);
- setting the value that is there already does not renew its ttl (`SetNodeLifetime`);
- a timed write can end the life of a tree key that had no expiry (`TreeWriteShortensIff`);
- a `fullTreeSet` that only creates nodes in a tree leaves its key without expiry, even with a ttl on every item
  (`CreatingDropsExpiry`, `FullTreeSetCoversIff`), and it never renews a deadline (`FullTreeSetReadsBack`);
- an empty first key is not the same key to writers and readers (`ChainedKeyIsJoin`, `ReadBackIff`);
- a ':' in a key above level K can make two paths one, or make `setNode` take the tree of another path for a value on
  its way and write it back as one (`IsolationIff`, `PassedTreeIsLost`).

## Model

| member | source | states |
|---|---|---|
| Keys.JoinSplit | src/utils/build-key.ts:8-23 | joining the pieces of any string gives the string back |
| Keys.SplitJoin | src/utils/build-key.ts:8-23 | splitting a joined path gives the path back exactly when it has a key and no key holds ':' |
| Keys.JoinInjective | src/utils/build-key.ts:8-19 | without ':' in keys no two nodes share a storage key, so a memoized step never answers for a memoized tree |
| Keys.ChainedKeyIsJoin | src/internal/get-chained-key.ts:10-18 | the incremental key is the joined key exactly when no empty first key is followed by others |
| Keys.BuildKey | src/utils/build-key.ts:12-18 | walking the parent chain and reversing gives the joined path of the node |
| Codecs.TreeParses | src/internal/default-options.ts:4-7 | in a text format of this project's own, not JSON, a tree is read back from the front of any text that starts with it |
| Codecs.StringsAreLawful | src/internal/default-options.ts:4-7 | a witness that the law asked of serializers can be met: values written as strings in any way that reads back, with trees in that format, meet it |
| PathMap.EnrichPathReads | src/tree-key-cache.ts:261-324 | editing a tree along a path changes what is read at the nodes of the path, to what their steps were left with, and nowhere else |
| PathMap.EnrichPathUnchanged | src/tree-key-cache.ts:290-327 | when no step flags a change the tree is the same tree, so not persisting it loses nothing |
| PathMap.DeepSetReads | src/tree-key-cache.ts:204-332 | for every K >= 2 a call is one update of a path map: prefixes of the path get their step's value, an undefined step keeps the old one, all other paths keep theirs |
| PathMap.SetNodeReads | src/tree-key-cache.ts:173-196 | after `setNode(p, v)`, `getNode(p)` is v and `getNode(q)` is unchanged for every other q |
| PathMap.RunRefinesPathMap | src/tree-key-cache.ts:204-332 | over any run of untimed calls the store reads, at any time, what a plain path map holds after the same run |
| PathMap.KeyLevelIsInvisible | src/tree-key-cache.ts:159-196 | two caches with different K and serializers, fed the same untimed run, agree on every `getNode` |
| DeepSetEffects.DeepSetHasEffect | src/tree-key-cache.ts:204-332 | for every valid path, what a call leaves of its record or node: a key level node its step changes has the new bytes and the expiry of that step's own ttl, and any other its record; a tree node on the path that its step changes has the new value and no deadline but that of the end of the path, and any other its value and deadline; new children come last; the tree key expires with the ttl of the end of the path or with what it had left if that is longer, never without a ttl, and keeps its record if no step changes or creates anything; nothing else changes |
| DeepSetEffects.PrefixLifetime | src/tree-key-cache.ts:234-246 | a key level node that its step changes, at the end of the path or above it, is read exactly until the ttl of its own step is over |
| DeepSetEffects.NodeReadLater | src/internal/tree-internal-control.ts:242-309 | a stored tree node is read at a later time exactly while its key is alive and its own deadline has not passed |
| DeepSetEffects.ThrowsIff | src/tree-key-cache.ts:250-256 | `deepTreeSet` throws exactly when a path that is not empty meets K <= 1, or reaches level K with all its keys above the tree empty |
| DeepSetEffects.ThrownCallKeeps | src/tree-key-cache.ts:223-256 | what such a call wrote before it threw stays: the last key level node, under the empty key, and nothing else |
| ReadBack.ReadBackIff | src/tree-key-cache.ts:173-196 | `getNode` finds what `setNode` stored, whatever was stored before, if and only if the path is not empty, K >= 2, and no empty first key is followed by others |
| ReadBack.SetNodeKeepsAbove | src/tree-key-cache.ts:223-249 | key level nodes above the end of the path that hold what their values serialize to are not written |
| ReadBack.IsolationIff | src/tree-key-cache.ts:173-196 | for K >= 2 and first keys that are not empty, `setNode(p, v)` leaves `getNode(q)` alone over all lawful serializers to strings and all storages if and only if p and q are not held together (their joined keys differ, or both reach level K and part below it) and no node above the end of p has the key of the tree that holds q |
| ReadBack.ClearIsolates | src/tree-key-cache.ts:173-196 | the positive half for every serializer, to whatever bytes |
| ReadBack.PassedTreeIsLost | src/tree-key-cache.ts:234-246 | the input where a node above the end of p has the key of q's tree: `setNode(q, v)` on the empty storage, then `setNode(p, v)`, and `getNode(q)` finds nothing |
| ReadBack.SteadyIsolationIff | src/tree-key-cache.ts:173-196 | for one serializer, over the storages whose key level nodes above the end of p hold what their values serialize to, not being held together is already exact |
| ReadBack.ValidPathsAreClear | src/utils/build-key.ts:8-10 | with no ':' above level K every two different paths meet that condition |
| ReadBack.SeparatorInKeyCollides | src/utils/build-key.ts:8-10 | an instance: writing the path "a:b" of one key changes the path "a", "b" |
| Lifetimes.EnrichPathEnd | src/tree-key-cache.ts:302-327 | the node at the end of the path, and only the ttl of its step, decide deadline and key ttl |
| Lifetimes.SetNodeLifetime | src/internal/tree-internal-control.ts:568-592 | a value set over other bytes is read exactly until its ttl is over, at key level and tree level, without ttl for ever; setting the bytes that are there leaves their record, or their node with its deadline, as it is, and changes nothing at all if the nodes above hold what their values serialize to |
| Lifetimes.TreeWriteShortensIff | src/internal/tree-internal-control.ts:429-440 | a tree write keeps its key alive at least as long as before if and only if it is not a timed write to a key without expiry |
| Lifetimes.PersistentNodeIsLost | src/internal/tree-internal-control.ts:429-440 | in the excluded case every node of the tree is unreadable once the new ttl is over |
| Lifetimes.MaxTtlIsMaximum | src/internal/get-ttl.ts:13-23 | the running ttl is one of the ttls met and at least each of them |
| Expiry.PruneKeyFrame | src/tree-key-cache.ts:513-519 | pruning a key keeps its expiry and touches no other key |
| Expiry.PruneKeysExact | src/tree-key-cache.ts:505-520 | after pruning, the live trees under the given keys hold, path by path, what leads to a live value and of values only the live ones with their deadlines; for K = 1 the node of the root stays as it was; every other record is untouched |
| Expiry.PruneKeysReads | src/tree-key-cache.ts:505-520 | pruning any keys is invisible to `getNode`, for every path and every time from then on |
| Expiry.DeepSetCovers | src/internal/tree-internal-control.ts:429-440 | a timed call keeps every tree key's expiry at or after the deadlines of its nodes, and never moves it earlier |
| Expiry.PruneKeysCover | src/tree-key-cache.ts:505-520 | pruning keeps the same cover |
| SaveExpiry.ChangesIff | src/internal/tree-internal-control.ts:515-551 | what a whole-tree save changes, path by path: an input node writes what its item is left with where that differs from what its own path holds, and creates a node where none is stored |
| SaveExpiry.TreeOverlayExpiry | src/internal/tree-internal-control.ts:546-555 | the exact expiry of the tree key after the save: the longest ttl of a written item or what the key has left, whichever is later, and none if no written item has a ttl |
| SaveExpiry.CreatingDropsExpiry | src/internal/tree-internal-control.ts:527-537 | with a ttl on every item the key is left without expiry if and only if nodes were only created |
| SaveExpiry.FullTreeSetCoversIff | src/tree-key-cache.ts:339-395 | with a ttl on every item `fullTreeSet` keeps every tree key's expiry at or after the deadlines of its nodes if and only if there is no tree in which it only creates nodes |
| TimedRuns.TimedRunCovers | src/internal/get-ttl.ts:3-12 | over every run of timed calls, prunes and saves of which none only creates nodes in a tree, in any order, the cover is kept and no expiry moves earlier |
| TimedRuns.TimedRunCoversIff | src/internal/get-ttl.ts:3-12 | the cover holds after each operation of a timed run if and only if none of its saves only creates nodes in a tree |
| TimedRuns.SaveWithoutCreating | src/internal/tree-internal-control.ts:527-537 | a save without `createValue` never does |
| Promises.TimedRunKeepsPromise | src/internal/get-ttl.ts:3-12 | what is stored with a deadline stays readable until then over every run of timed calls and saves that do not change it, the saves creating nothing, and prunes |
| Promises.CoveredIsPromised | src/internal/get-ttl.ts:3-12 | in a covered store that holds of every tree node with a deadline |
| Promises.TimedValueLasts | src/tree-key-cache.ts:173-196 | so a value set with a ttl is read at every time before its ttl is over, whatever such operations happen before |
| TreeKeyCaches.TreeKeyCache.DeepTreeSet | src/tree-key-cache.ts:204-332 | the loops leave the storage of the specification, with the effect of `DeepSetHasEffect` on a valid path, and throw exactly when the key before the tree key is missing or empty |
| TreeKeyCaches.TreeKeyCache.SaveTreePath | src/tree-key-cache.ts:261-330 | the cursor walk that edits the tree under a key equals the recursive edit along the path |
| TreeKeyCaches.TreeKeyCache.SetNode | src/tree-key-cache.ts:173-196 | an undefined value changes nothing; otherwise the path map is updated at one path |
| TreeKeyCaches.TreeKeyCache.GetNode | src/internal/tree-internal-control.ts:242-309 | the value found through key levels and the stored tree |
| TreeKeyCaches.TreeKeyCache.IteratePath | src/tree-key-cache.ts:92-153 | for every path and K >= 2 the steps are exactly the non-empty prefixes at which `getNode` finds a value, each with that value, shorter ones first; nothing for K < 2 |
| TreeKeyCaches.IterateTree | src/tree-key-cache.ts:119-151 | the tree loop hands out the live values down to the end of the path or the first missing node |
| TreeKeyCaches.PrefixReadsTree | src/tree-key-cache.ts:116-152 | those are what `getNode` reads at the same prefixes |
| TreeKeyCaches.NodeRefAt | src/internal/get-next-storage-node.ts:16-30 | the chain of references for a path has its level and its keys |
| TreeKeyCaches.TreeKeyCache.Prune | src/tree-key-cache.ts:505-520 | every live tree under an iterated key of K pieces is left pruned as `PruneExact` says, with its expiry, and every other record as it was; each tree is pruned in place as objects |
| TreeKeyCaches.TreeKeyCache.FullTreeSet | src/tree-key-cache.ts:339-395 | the two nested searches leave the storage of the specification, with the effect of `FullSetHasEffect` |
| TreeKeyCaches.TreeKeyCache.SaveFullTreeValue | src/internal/tree-internal-control.ts:503-556 | every node of the subtree is saved over the stored one, of which it keeps the deadline, the key gets the longest ttl of a written item or what it had left, no other key is touched, and 'Algorithm error' is never raised |
| Pruning.PruneInvisible | src/internal/prune-tree.ts:13-58 | every path reads the same before and after pruning, at every time from the pruning on |
| Pruning.PruneIdempotent | src/internal/prune-tree.ts:13-58 | pruning twice at one time is pruning once |
| Pruning.UnreportedIsUntouched | src/internal/prune-tree.ts:44-57 | a `false` result means the tree is unchanged |
| Pruning.PruneCompact | src/internal/prune-tree.ts:26-43 | below a visited node every node left leads to a live value |
| Pruning.PruneRootCompact | src/internal/prune-tree.ts:13-58 | so in the whole tree given a parent reference; without one the root, unvisited, keeps its value and every child, live or not, and each child is so below |
| Pruning.PruneExact | src/internal/prune-tree.ts:13-58 | what is left, path by path: a visited node stays if and only if it leads to a live value, is the root, or is a first child without a parent reference; it keeps its live value with its deadline, no dead one, and in their order the children that lead to a live value, the children object going with the last of them |
| Pruning.PruneReportsIff | src/internal/prune-tree.ts:44-57 | the result is `true` if and only if some visited node has no live value |
| PruneInPlace.PruneTree | src/internal/prune-tree.ts:13-58 | the objects, which are the tree before, become the recursively pruned tree: given a parent reference a node is detached exactly when it and all descendants are without a live value; the result says whether some visited node was, and nodes are visited in the order of the post-order traversal |
| PruneInPlace.Walk | src/utils/graphs/tree-post-order-traversal.ts:5-39 | walking a subtree while pruning it leaves one flag on the stack for its root, and every node pruned |
| PruneInPlace.WalkIsPostOrder | src/utils/graphs/tree-post-order-traversal.ts:20-38 | the passes of the walk are those of the post-order traversal of the tree, one by one |
| PruneInPlace.Visit | src/internal/prune-tree.ts:21-55 | one pass of the loop prunes its node and records whether it is empty |
| PruneInPlace.DetachEmpty | src/internal/prune-tree.ts:27-42 | exactly the flagged children are detached, and the children object goes when all are |
| PruneInPlace.StrikeSlots | src/internal/prune-tree.ts:28-38 | the loop over the popped map, in any order of its entries, detaches the flagged slots and tells whether all were flagged |
| PruneInPlace.RecordAllFlags | src/internal/prune-tree.ts:25-29 | the popped map holds exactly the flags of the current node's children |
| PruneInPlace.AfterRepresents | src/internal/prune-tree.ts:13-58 | objects pruned one by one form the recursively pruned tree |
| Worklists.Queue.Push | src/utils/graphs/queue.ts:15-23 | the linked queue gains one item at its end |
| Worklists.Queue.Pop | src/utils/graphs/queue.ts:27-37 | the linked queue loses and returns its first item, or nothing if empty |
| Traversal.TreePreOrderTraversal | src/utils/graphs/tree-pre-order-traversal.ts:11-59 | one loop yields pre-order with siblings reversed on a stack, and level order on a queue; it terminates on the pending subtree size |
| Traversal.QueueOrderIsLevelOrder | src/utils/graphs/tree-pre-order-breadth-first-search.ts:28-33 | taking entries one by one from a queue is going level by level |
| Orders.NodesOnce | src/utils/graphs/tree-pre-order-traversal.ts:29-58 | every node is yielded exactly once, with its true level, parent chain, value and subtree |
| Orders.KidsItemsAreNodes | src/utils/graphs/tree-pre-order-traversal.ts:29-58 | everything yielded is a node of the tree |
| Orders.LevelOrderPermutes | src/utils/graphs/tree-pre-order-breadth-first-search.ts:28-33 | breadth first yields the items of depth first, each as often |
| Orders.LevelOrderRises | src/utils/graphs/tree-pre-order-breadth-first-search.ts:28-33 | levels never decrease in a breadth first search |
| Orders.TreePostOrderTraversal | src/utils/graphs/tree-post-order-traversal.ts:47-62 | the recursion yields the nodes below the root in post-order and then a root that has a reference, for a stack and a queue alike: the list is only pushed to |
| Orders.PostOrderPermutes | src/utils/graphs/tree-post-order-traversal.ts:5-39 | post-order is a permutation of pre-order |
| Orders.DescendantsFirst | src/utils/graphs/tree-post-order-traversal.ts:20-38 | in post-order nothing later lies below anything earlier |
| SiblingOrders.DepthFirstOrder | src/utils/graphs/tree-pre-order-traversal.ts:29-58 | of two items of a depth first search the earlier is an ancestor, or parts from the later at a sibling that comes after the other's |
| SiblingOrders.PostOrderOrder | src/utils/graphs/tree-post-order-traversal.ts:20-38 | of two items in post-order the earlier is a descendant, or parts at a sibling that comes before |
| SiblingOrders.BreadthFirstOrder | src/utils/graphs/tree-pre-order-breadth-first-search.ts:28-33 | of two items of a breadth first search the earlier is on a level above, or on the same level and parts at a sibling that comes before |
| SaveTree.SaveIsOverlay | src/internal/tree-internal-control.ts:515-551 | the loop with its stack of nodes equals the recursive overlay, so the stack always holds the node's own parent |
| SaveTree.OverlayReads | src/internal/tree-internal-control.ts:520-551 | paths outside the input read as before, and each input node is laid over the stored node of its own path |
| SaveTree.OverlaidValue | src/internal/tree-internal-control.ts:480-494 | a value the consumer leaves in an item is read back if and only if no deadline stored at its path has passed |
| SaveTree.OverlaidNothing | src/internal/tree-internal-control.ts:527-537 | an item left without value keeps what is stored, and a new node gets what `createValue` gives |
| SaveTree.QuietSave | src/internal/tree-internal-control.ts:546-555 | when no pass reports a change, not persisting the tree changes nothing for readers |
| FullTreeSets.VisitsEachNodeOnce | src/tree-key-cache.ts:345-367 | the outer and inner searches together visit every node below the root of the input once, so the `break` skips nothing |
| FullTreeSets.FullTreeSetReads | src/tree-key-cache.ts:339-395 | the whole call is an overlay on the path map, at every path whose joined key no other input node has: outside the input nothing changes; an input node reads what the consumer leaves in its item, given the input value and what its path held or `createValue` gives; left without a value a key level node keeps what it held and a tree node also what it was created with; a tree node past its deadline reads nothing |
| FullTreeSets.PlainFullTreeSetReads | src/tree-key-cache.ts:339-395 | so for all paths at once when no key down to level K holds ':' |
| FullTreeSets.FullTreeSetReadsBack | src/tree-key-cache.ts:339-395 | at such a path, a value left in an item is read back if and only if its path is above level K or no deadline stored there has passed |
| FullSetEffects.FullSetHasEffect | src/tree-key-cache.ts:339-395 | what the call leaves under every joined key that no other input node has: a tree node of the input gets the value its item changes, keeps the deadline it had, and has none if it was created; a key level node that its item changes gets the expiry of its item's ttl; a tree key in which anything changes that of the longest ttl written or what it had left; all the rest is as before |
| FullSetEffects.TreeOverlayEffect | src/internal/tree-internal-control.ts:503-556 | the same for the save of one subtree, whatever the keys |
| FullSetEffects.SavedNodeReadLater | src/internal/tree-internal-control.ts:480-494 | a tree node of the input is read at any later time while its key is alive and the deadline it had before the call has not passed |
| FullSetEffects.SavedKeyReadLater | src/tree-key-cache.ts:355-364 | a key level node that its item changes is read exactly until the ttl of its item is over |
| WholeTree.DeserializeWholeTree | src/utils/deserialize-whole-tree.ts:22-67 | the rebuilt tree is the recursive map of the stored one; it fails only for a tree without children and live value, never with 'Path lost' or 'Stack lost' |
| WholeTree.PlaceItem | src/utils/deserialize-whole-tree.ts:44-63 | one pass pops the stack to the node's parent and places the node there |
| WholeTree.MapLiveReads | src/utils/deserialize-whole-tree.ts:36-66 | the rebuilt tree has the same paths, each with the live value deserialized |
| WholeTree.MapKidsReverses | src/utils/deserialize-whole-tree.ts:44-63 | siblings come out in reverse order |
| AsyncLists.AsyncQueue.Push | src/utils/graphs/async/aync-queue.ts:30-41 | an item or an iterable is appended to the flattened sequence |
| AsyncLists.AsyncQueue.Pop | src/utils/graphs/async/aync-queue.ts:43-54 | the queue loses and returns the first item of the flattened sequence; `size` stays cells present plus iterators exhausted, and those counted as exhausted are exactly the empty ones met at the front |
| AsyncLists.AsyncQueue.AsyncNext | src/utils/graphs/async/aync-queue.ts:17-24 | an exhausted iterator is dropped and the next cell is tried |
| AsyncLists.AsyncWorklist.Length | src/utils/graphs/async/aync-queue.ts:26-28 | the length is positive whenever anything is pending |
| HybridTraversal.ReadChildren | src/internal/async-tree-ref.ts:35-94 | a key level reference yields its listed children, and the error for a level below K is out of reach |
| HybridTraversal.AsyncTreePreOrderTraversal | src/utils/graphs/async/async-tree-pre-order-traversal.ts:36-93 | the lazy traversal of the storage yields, in order, the nodes that the synchronous one yields on the tree in memory, breadth first and depth first |
| AsyncPostOrder.AsyncTreePostOrderTraversal | src/utils/graphs/async/async-tree-post-order-traversal.ts:7-81 | the asynchronous post-order traversal, reading one child after the other, yields what the synchronous one yields on the tree in memory, for either list |
| HybridTraversal.ForgetChildren | src/internal/async-tree-ref.ts:35-94 | children read lazily are the children of the tree in memory |
| HybridTraversal.ListedInOrder | src/internal/async-tree-ref.ts:51-92 | the children below a key level node are the listed ones that exist, in the order of the list |
| HybridTraversal.LazyNodesOnce | src/internal/async-tree-ref.ts:35-94 | when `getChildren` lists each key once, every node of the storage is yielded exactly once, depth first and breadth first |
| HybridTraversal.MaterializedReads | src/internal/async-tree-ref.ts:51-92 | with a correct registry the traversed tree reads like `getNode` |
| Registry.ReprocessAllKeyLevelChildren | src/tree-key-cache.ts:460-489 | every registration is handed out once and in order, in batches of exactly the partition size but for the last, which is not empty or larger |
| Registry.RegisteredIff | src/tree-key-cache.ts:471-484 | a call is registered if and only if it gives a piece of some stored key under the pieces before it |
| Registry.ReprocessedTraversalReads | src/tree-key-cache.ts:460-489 | after reprocessing, the tree that traversals see reads at every path what `getNode` reads |
| History.MergeCommutes | src/internal/multi-tree-ref.ts:29-54 | descending the merged tree finds the nodes that descending each tree finds, in tree order |
| History.MergedKeys | src/internal/multi-tree-ref.ts:31-43 | the merged children are exactly the keys some tree has, each once, in the order in which the trees show them first |
| History.MergedValues | src/internal/get-multi-value-from-trees.ts:10-17 | a merged node holds the live values of all trees at its path, and exists exactly when some tree has the path |
| History.MultiTreeRef.Children | src/internal/multi-tree-ref.ts:29-54 | the getter gives a new reference per key of any tree, over the children of that key in tree order, with their live values and its parent |
| History.MultiTreeRef.SetChildren | src/internal/multi-tree-ref.ts:56-61 | the setter accepts nothing but `undefined` |
| Locking.NextInv | src/tree-key-cache.ts:223-330 | every step keeps: a call inside a locked segment owns the lock, a release comes after the write or abandonment, every lock has its release ahead, and what was read from a guarded key is still there |
| Locking.MutualExclusion | src/tree-key-cache.ts:227-232 | at most one call is between acquiring and leaving a guarded key |
| Locking.ExecutionsAreSerial | src/tree-key-cache.ts:223-332 | in every state of every execution a guarded key holds what the written segments produce one after the other, in each call's own order |
| Locking.LockedExecutionsAreSerial | src/tree-key-cache.ts:204-210 | with `minLevelSemaphore` 0 that is the whole storage: no update is lost |
| Locking.ExecutionsEnd | src/utils/dont-wait.ts:6-15 | the length of any execution is bounded from its start |
| Locking.StuckIsFinished | src/tree-key-cache.ts:247-249 | an execution that cannot go on has all calls finished or abandoned, all releases run and no lock held |
| Locking.SomeStep | src/tree-key-cache.ts:227-230 | a state with an unfinished call has an enabled step that abandons nothing |
| Segments.SegmentsAreDeepSet | src/tree-key-cache.ts:223-330 | the segments of one call, one after the other, do what `deepTreeSet` does |
| Segments.CallsInTurnAreDeepSets | src/tree-key-cache.ts:204-332 | and calls that follow each other without overlap do what the same sequence of `deepTreeSet` calls does |
| Segments.OneStepPerKey | src/tree-key-cache.ts:223-330 | a call yields one step for every key of its path |
| Counting.CountingSystemsExist | README.md:154-160 | the counting loop on any valid paths, with counts stored as text, is such a system of calls |
| Counting.ExecutionCounts | README.md:144-160 | with counting consumers every path holds its first count plus one for each call that has written it, in every reachable state |
| Counting.CountsAreExact | README.md:154-160 | once all calls have finished every path counts the calls whose path goes through it |
| SetNodeRace.SetNodeTakesLock | src/tree-key-cache.ts:182-188 | a `setNode` call takes a lock if and only if its path ends at level K, and then that of its tree key |
| SetNodeRace.SeparateCallsSurvive | src/tree-key-cache.ts:173-196 | with any number of concurrent `setNode` calls of which no two are held under one key, every state of every execution, from any storage without expiry whose passed key level nodes hold what their values serialize to, reads each stored value at its path and everything else as at the start |
| SetNodeRace.RaceLosesUpdate | src/tree-key-cache.ts:257-260 | for every two different paths in one tree, in a system of any number of calls, there is an execution in which both calls finish and the one of our choice is lost, whether or not it holds the lock |
| SetNodeRace.AllReadIff | src/tree-key-cache.ts:182-188 | any number of concurrent `setNode` calls of new values on different paths: in every state of every execution every stored value is read back if and only if no two paths lie in one tree |
| SetNodeRace.BothRemainIff | src/tree-key-cache.ts:182-188 | both new values of two calls on different paths are read back after every execution in which both finish, if and only if the paths do not lie in one tree |

## Left out

- `previousKeys` of `deepTreeSet`: fixed to empty; it starts below the root without a parent chain.
- Falsy serialized values, such as an empty string: bytes are what a serializer produces and count as truthy.
- Negative and fractional ttls: a ttl is a whole number of seconds, a deadline a whole number of milliseconds.
- The order of keys that look like array indices, which JavaScript lists first and in numeric order: here a new child is always listed last.
- Calls to `registerChild` from `deepTreeSet` and `fullTreeSet`: they do not touch values, and they do not by themselves make the registry complete.
- HybridTraversal.ReadChildren: the children are read to the end of the list when they are pushed, where the source reads each one when it is popped; the storage does not change during a traversal, so what is read is the same.
- Object identity of the trees edited by `deepTreeSet`, `saveFullTreeValue` and `deserializeWholeTree`: a reference into such a tree is the path of the node, and an assignment through it replaces that node; no such tree is aliased. `pruneTree` is modelled on objects.
- Other calls between the two storage accesses of one operation at one key: in the concurrent model the `getCurrentTtl` and `set` of a tree write are one step.
- `prune` and `fullTreeSet` running concurrently with other calls: both are modelled one after the other.
- Codecs.TreeParses: the text format is this project's own; the default JSON serializer is not modelled.
- Codecs.StringsAreLawful: says that the law can be met by strings, not that JSON meets it.
- Memoizers, the `deserializeError` event, history reads through `deserializeList` and `multiTreeSelector`: user callbacks without a fixed meaning.
- The in-memory `deepTreeSet` of `src/utils/deep-tree-set.ts`: an easier form of the edit along a path.
- Concrete storages and serializers.

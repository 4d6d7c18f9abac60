/** What `saveFullTreeValue` reports and which ttl it collects, path by path, and so the exact expiry of the key it
    writes and whether that still covers the nodes under it. */
module SaveExpiry {
  import opened Wrappers
  import opened Keys
  import opened Trees
  import opened HybridStore
  import opened Traversal
  import opened SaveTree
  import opened FullTreeSets
  import opened Expiry
  import opened Lifetimes

  // ----- the changes of a save

  /** A node that gets a value from its item, with the ttl of the item, or a node created with a value. */
  datatype Change = Written(at: Path, ttl: Option<Seconds>) | Created(at: Path)

  /** The pass for an item of this value writes to the stored node `n`. */
  predicate Writes<V(!new), R(!new, ==)>(codec: Codec<V, R>, fs: FullSet<V>, n: Tree<R>, value: Option<V>, q: Path)
  {
    var left := ItemValue(codec, fs, n, value, q);
    left.Some? && Live(n, fs.now) != Some(codec.serialize(left.value))
  }

  function NodeChanges<V(!new), R(!new, ==)>(codec: Codec<V, R>, fs: FullSet<V>, n: Tree<R>, value: Option<V>, q: Path): seq<Change>
  {
    if Writes(codec, fs, n, value, q) then [Written(q, fs.ttl(q, ItemValue(codec, fs, n, value, q)))] else []
  }

  function Makes<V, R>(fs: FullSet<V>, stored: Option<Tree<R>>, q: Path): seq<Change>
  {
    if stored.None? && fs.create(q).Some? then [Created(q)] else []
  }

  /** The changes of laying the input over the stored tree, in the order of the stream. */
  function OverlayChanges<V(!new), R(!new, ==)>(codec: Codec<V, R>, fs: FullSet<V>, stored: Tree<R>, input: Tree<V>, q: Path): seq<Change>
    decreases input, 0
  {
    NodeChanges(codec, fs, stored, Live(input, fs.now), q) +
    if input.children.Some? then KidsChanges(codec, fs, LayOver(codec, fs, stored, Live(input, fs.now), q), input.children.value, q)
    else []
  }

  function ChildChanges<V(!new), R(!new, ==)>(codec: Codec<V, R>, fs: FullSet<V>, stored: Option<Tree<R>>, input: Tree<V>, q: Path): seq<Change>
    decreases input, 1
  {
    Makes(fs, stored, q) + OverlayChanges(codec, fs, OrFresh(codec, fs, stored, q), input, q)
  }

  function KidsChanges<V(!new), R(!new, ==)>(codec: Codec<V, R>, fs: FullSet<V>, node: Tree<R>, ks: Kids<V>, q: Path): seq<Change>
    decreases ks
  {
    match ks
    case End => []
    case Entry(key, sub, rest) =>
      KidsChanges(codec, fs, node, rest, q) +
      ChildChanges(codec, fs, Child(OverlayKids(codec, fs, node, rest, q), key), sub, q + [key])
  }

  /** The ttl collected over the changes. */
  function RunTtl(start: Option<Seconds>, changes: seq<Change>): Option<Seconds>
  {
    if changes == [] then start
    else
      var before := RunTtl(start, changes[..|changes| - 1]);
      match changes[|changes| - 1]
      case Written(_, ttl) => GetTtl(ttl, before)
      case Created(_) => before
  }

  lemma {:induction false} RunTtlAppend(start: Option<Seconds>, xs: seq<Change>, ys: seq<Change>)
    ensures RunTtl(start, xs + ys) == RunTtl(RunTtl(start, xs), ys)
  {
    if ys == [] {
      assert xs + ys == xs;
    } else {
      assert (xs + ys)[..|xs + ys| - 1] == xs + ys[..|ys| - 1];
      RunTtlAppend(start, xs, ys[..|ys| - 1]);
    }
  }

  /** The loop has got from `s` to `after` by these changes. */
  predicate Reached<R>(s: Save<R>, after: Save<R>, changes: seq<Change>)
  {
    && s.Saving? && after.Saving? && after.changed == (s.changed || changes != [])
    && after.maxTtl == RunTtl(s.maxTtl, changes)
  }

  lemma ReachedThrough<R>(s: Save<R>, mid: Save<R>, after: Save<R>, xs: seq<Change>, ys: seq<Change>)
    requires Reached(s, mid, xs) && Reached(mid, after, ys)
    ensures Reached(s, after, xs + ys)
  {
    RunTtlAppend(s.maxTtl, xs, ys);
  }

  lemma OneChange(start: Option<Seconds>, change: Change)
    ensures RunTtl(start, [change]) == if change.Written? then GetTtl(change.ttl, start) else start
  {
    assert [change][..0] == [];
  }

  // ----- the loop makes these changes

  lemma ItemWrites<V(!new), R(!new)>(codec: Codec<V, R>, fs: FullSet<V>, s: Save<R>, cursor: Path, item: Item<V>)
    requires s.Saving? && At(s.tree, cursor).Some?
    ensures Reached(s, WriteItem(codec, fs, s, cursor, item),
                    NodeChanges(codec, fs, At(s.tree, cursor).value, item.value, ChainPath(item.ref)))
  {
    var node, q := At(s.tree, cursor).value, ChainPath(item.ref);
    OneChange(s.maxTtl, Written(q, fs.ttl(q, ItemValue(codec, fs, node, item.value, q))));
  }

  lemma ItemReached<V(!new), R(!new)>(codec: Codec<V, R>, fs: FullSet<V>, rootLevel: nat, s: Save<R>, item: Item<V>, cursor: Path)
    requires rootLevel < item.ref.level && Under(s, item.ref.level, cursor)
    ensures
      var q := ChainPath(item.ref);
      var stored := Child(At(s.tree, cursor).value, item.ref.key);
      Reached(s, SaveItem(codec, fs, rootLevel, s, item),
              Makes(fs, stored, q) + NodeChanges(codec, fs, OrFresh(codec, fs, stored, q), item.value, q))
  {
    var q := ChainPath(item.ref);
    var node := At(s.tree, cursor).value;
    var stored := Child(node, item.ref.key);
    var base := OrFresh(codec, fs, stored, q);
    var located := Locate(codec, fs, rootLevel, s, item);
    StepDown(s.tree, cursor, node, item.ref.key, base, base);
    OneChange(s.maxTtl, Created(q));
    ItemWrites(codec, fs, located.0, located.1, item);
    ReachedThrough(s, located.0, SaveItem(codec, fs, rootLevel, s, item), Makes(fs, stored, q),
                   NodeChanges(codec, fs, base, item.value, q));
  }

  lemma {:induction false} SubtreeReached<V(!new), R(!new)>(codec: Codec<V, R>, fs: FullSet<V>, rootLevel: nat, s: Save<R>, t: Tree<V>, ref: Chained, cursor: Path)
    requires rootLevel < ref.level && Under(s, ref.level, cursor)
    ensures Reached(s, SaveAll(codec, fs, rootLevel, s, PreOrder(t, ref, fs.now)),
                    ChildChanges(codec, fs, Child(At(s.tree, cursor).value, ref.key), t, ChainPath(ref)))
    decreases Size(t), 1
  {
    var item := Item(ref, Live(t, fs.now), t);
    var kids, q := KidsOf(t), ChainPath(ref);
    var stored := Child(At(s.tree, cursor).value, ref.key);
    var base := OrFresh(codec, fs, stored, q);
    var s1 := SaveItem(codec, fs, rootLevel, s, item);
    assert PreOrder(t, ref, fs.now) == [item] + PreOrderKids(kids, ref.level + 1, Some(ref), fs.now);
    SaveAppend(codec, fs, rootLevel, s, [item], PreOrderKids(kids, ref.level + 1, Some(ref), fs.now));
    SaveSingle(codec, fs, rootLevel, s, item);
    SaveNode(codec, fs, rootLevel, s, item, cursor);
    ItemReached(codec, fs, rootLevel, s, item, cursor);
    KidsReached(codec, fs, rootLevel, s1, kids, ref.level + 1, ref, cursor + [ref.key]);
    var made, here := Makes(fs, stored, q), NodeChanges(codec, fs, base, item.value, q);
    var below := KidsChanges(codec, fs, LayOver(codec, fs, base, item.value, q), kids, q);
    ReachedThrough(s, s1, SaveAll(codec, fs, rootLevel, s, PreOrder(t, ref, fs.now)), made + here, below);
    Regroup(made, here, below);
  }

  lemma {:induction false} KidsReached<V(!new), R(!new)>(codec: Codec<V, R>, fs: FullSet<V>, rootLevel: nat, s: Save<R>, ks: Kids<V>, level: nat, parent: Chained, cursor: Path)
    requires rootLevel < level && Under(s, level, cursor)
    ensures Reached(s, SaveAll(codec, fs, rootLevel, s, PreOrderKids(ks, level, Some(parent), fs.now)),
                    KidsChanges(codec, fs, At(s.tree, cursor).value, ks, ChainPath(parent)))
    decreases SizeKids(ks), 2
  {
    match ks
    case End =>
    case Entry(key, sub, rest) =>
      assert Size(sub) >= 1;
      var ref, node := Chained(key, level, Some(parent)), At(s.tree, cursor).value;
      var later := PreOrderKids(rest, level, Some(parent), fs.now);
      SaveAppend(codec, fs, rootLevel, s, later, PreOrder(sub, ref, fs.now));
      SaveKids(codec, fs, rootLevel, s, rest, level, parent, cursor);
      KidsReached(codec, fs, rootLevel, s, rest, level, parent, cursor);
      var s1 := SaveAll(codec, fs, rootLevel, s, later);
      AtReplaced(s.tree, cursor, OverlayKids(codec, fs, node, rest, ChainPath(parent)));
      SubtreeReached(codec, fs, rootLevel, s1, sub, ref, cursor);
      ReachedThrough(s, s1, SaveAll(codec, fs, rootLevel, s, PreOrderKids(ks, level, Some(parent), fs.now)),
                     KidsChanges(codec, fs, node, rest, ChainPath(parent)),
                     ChildChanges(codec, fs, Child(OverlayKids(codec, fs, node, rest, ChainPath(parent)), key), sub, ChainPath(ref)));
  }

  lemma SaveReached<V(!new), R(!new)>(codec: Codec<V, R>, fs: FullSet<V>, stored: Tree<R>, t: Tree<V>, ref: Chained)
    ensures
      var s := Saving(stored, map[ref.level := []], false, None);
      Reached(s, SaveAll(codec, fs, ref.level, s, PreOrder(t, ref, fs.now)), OverlayChanges(codec, fs, stored, t, ChainPath(ref)))
  {
    var s := Saving(stored, map[ref.level := []], false, None);
    var item := Item(ref, Live(t, fs.now), t);
    var kids, q := KidsOf(t), ChainPath(ref);
    var s1 := SaveItem(codec, fs, ref.level, s, item);
    assert PreOrder(t, ref, fs.now) == [item] + PreOrderKids(kids, ref.level + 1, Some(ref), fs.now);
    SaveAppend(codec, fs, ref.level, s, [item], PreOrderKids(kids, ref.level + 1, Some(ref), fs.now));
    SaveSingle(codec, fs, ref.level, s, item);
    ItemWrites(codec, fs, s, [], item);
    KidsReached(codec, fs, ref.level, s1, kids, ref.level + 1, ref, []);
    ReachedThrough(s, s1, SaveAll(codec, fs, ref.level, s, PreOrder(t, ref, fs.now)),
                   NodeChanges(codec, fs, stored, item.value, q),
                   KidsChanges(codec, fs, LayOver(codec, fs, stored, item.value, q), kids, q));
  }

  // ----- path by path

  /** The input node at `s` makes this change to the stored tree. */
  predicate ChangesAt<V(!new), R(!new, ==)>(codec: Codec<V, R>, fs: FullSet<V>, stored: Tree<R>, input: Tree<V>, q: Path, s: Path, change: Change)
  {
    && At(input, s).Some? && change.at == q + s
    && if change.Created? then At(stored, s).None? && fs.create(q + s).Some?
       else
         && change.ttl == fs.ttl(q + s, LeftAt(codec, fs, stored, input, q, s))
         && Writes(codec, fs, OrFresh(codec, fs, At(stored, s), q + s), Live(At(input, s).value, fs.now), q + s)
  }

  /** What is stored below a child that may have to be created. */
  lemma StoredBelow<V(!new), R(!new)>(codec: Codec<V, R>, fs: FullSet<V>, stored: Tree<R>, q: Path, s: Path)
    requires s != []
    ensures
      var below := At(OrFresh(codec, fs, Child(stored, s[0]), q + [s[0]]), s[1..]);
      && OrFresh(codec, fs, below, q + s) == OrFresh(codec, fs, At(stored, s), q + s)
      && (below.None? <==> At(stored, s).None? && s[1..] != [])
  {
    if s[1..] == [] {
      assert s == [s[0]];
    }
  }

  /** One step down: a change at `s` is one below the child, or the creation of the child. */
  lemma ChangesBelow<V(!new), R(!new)>(codec: Codec<V, R>, fs: FullSet<V>, stored: Tree<R>, input: Tree<V>, q: Path, s: Path, change: Change)
    requires s != [] && Child(input, s[0]).Some?
    ensures
      var at := q + [s[0]];
      var child := Child(stored, s[0]);
      ChangesAt(codec, fs, stored, input, q, s, change) <==>
      || ChangesAt(codec, fs, OrFresh(codec, fs, child, at), Child(input, s[0]).value, at, s[1..], change)
      || (s[1..] == [] && child.None? && fs.create(at).Some? && change == Created(at))
  {
    var at := q + [s[0]];
    assert at + s[1..] == q + s;
    StoredBelow(codec, fs, stored, q, s);
    var below := OrFresh(codec, fs, Child(stored, s[0]), at);
    assert At(input, s) == At(Child(input, s[0]).value, s[1..]);
    if At(input, s).Some? {
      assert LeftAt(codec, fs, below, Child(input, s[0]).value, at, s[1..]) == LeftAt(codec, fs, stored, input, q, s);
    }
    if s[1..] == [] {
      assert at == q + s && At(stored, s) == Child(stored, s[0]);
      assert change == Created(at) <==> change.Created? && change.at == at;
    }
  }

  /** The changes among children are those of each child. */
  lemma {:induction false} KidsChange<V(!new), R(!new)>(codec: Codec<V, R>, fs: FullSet<V>, node: Tree<R>, ks: Kids<V>, q: Path, k: Key, change: Change)
    requires WellKeyedKids(ks) && Find(ks, k).Some?
    requires change in ChildChanges(codec, fs, Child(node, k), Find(ks, k).value, q + [k])
    ensures change in KidsChanges(codec, fs, node, ks, q)
    decreases ks
  {
    FindKeySet(ks.rest, ks.key);
    OverlayKidsChild(codec, fs, node, ks.rest, q, ks.key);
    if ks.key != k {
      KidsChange(codec, fs, node, ks.rest, q, k, change);
    }
  }

  lemma {:induction false} ChangeIsChilds<V(!new), R(!new)>(codec: Codec<V, R>, fs: FullSet<V>, node: Tree<R>, ks: Kids<V>, q: Path, change: Change) returns (k: Key)
    requires WellKeyedKids(ks) && change in KidsChanges(codec, fs, node, ks, q)
    ensures Find(ks, k).Some? && change in ChildChanges(codec, fs, Child(node, k), Find(ks, k).value, q + [k])
    decreases ks
  {
    FindKeySet(ks.rest, ks.key);
    OverlayKidsChild(codec, fs, node, ks.rest, q, ks.key);
    if change in KidsChanges(codec, fs, node, ks.rest, q) {
      k := ChangeIsChilds(codec, fs, node, ks.rest, q, change);
      FindKeySet(ks.rest, k);
    } else {
      k := ks.key;
    }
  }

  /** Every change some input node makes is in the list. */
  lemma {:induction false} ChangeListed<V(!new), R(!new)>(codec: Codec<V, R>, fs: FullSet<V>, stored: Tree<R>, input: Tree<V>, q: Path, s: Path, change: Change)
    requires WellKeyed(input) && ChangesAt(codec, fs, stored, input, q, s, change)
    ensures change in OverlayChanges(codec, fs, stored, input, q)
    decreases s
  {
    if s == [] {
      assert q + s == q;
    } else {
      var at, child := q + [s[0]], Child(stored, s[0]);
      WellKeyedFind(KidsOf(input), s[0]);
      ChangesBelow(codec, fs, stored, input, q, s, change);
      if ChangesAt(codec, fs, OrFresh(codec, fs, child, at), Child(input, s[0]).value, at, s[1..], change) {
        ChangeListed(codec, fs, OrFresh(codec, fs, child, at), Child(input, s[0]).value, at, s[1..], change);
      }
      KidsChange(codec, fs, LayOver(codec, fs, stored, Live(input, fs.now), q), KidsOf(input), q, s[0], change);
    }
  }

  /** Every change in the list is made by some input node. */
  lemma {:induction false} ListedChange<V(!new), R(!new)>(codec: Codec<V, R>, fs: FullSet<V>, stored: Tree<R>, input: Tree<V>, q: Path, change: Change) returns (s: Path)
    requires WellKeyed(input) && change in OverlayChanges(codec, fs, stored, input, q)
    ensures ChangesAt(codec, fs, stored, input, q, s, change)
    decreases input
  {
    if change in NodeChanges(codec, fs, stored, Live(input, fs.now), q) {
      s := [];
      assert q + s == q;
    } else {
      var ks := input.children.value;
      var k := ChangeIsChilds(codec, fs, LayOver(codec, fs, stored, Live(input, fs.now), q), ks, q, change);
      WellKeyedFind(ks, k);
      FindSmaller(ks, k);
      var child := Child(stored, k);
      var below: Path := [];
      if change !in Makes(fs, child, q + [k]) {
        below := ListedChange(codec, fs, OrFresh(codec, fs, child, q + [k]), Find(ks, k).value, q + [k], change);
      }
      s := [k] + below;
      assert s[1..] == below;
      ChangesBelow(codec, fs, stored, input, q, s, change);
    }
  }

  lemma {:induction false} FindSmaller<V>(ks: Kids<V>, k: Key)
    requires Find(ks, k).Some?
    ensures Find(ks, k).value < ks
  {
    if ks.key != k {
      FindSmaller(ks.rest, k);
    }
  }

  /** The list of changes, path by path: what input nodes write over the stored nodes at their own paths, and what they
      create where nothing is stored. */
  lemma ChangesIff<V(!new), R(!new)>(codec: Codec<V, R>, fs: FullSet<V>, stored: Tree<R>, input: Tree<V>, q: Path, change: Change)
    requires WellKeyed(input)
    ensures change in OverlayChanges(codec, fs, stored, input, q) <==> exists s :: ChangesAt(codec, fs, stored, input, q, s, change)
  {
    if change in OverlayChanges(codec, fs, stored, input, q) {
      var s := ListedChange(codec, fs, stored, input, q, change);
    }
    if s :| ChangesAt(codec, fs, stored, input, q, s, change) {
      ChangeListed(codec, fs, stored, input, q, s, change);
    }
  }

  // ----- the expiry of the key

  /** The collected ttl is the longest one of a written item; created nodes count for nothing. */
  lemma {:induction false} RunTtlIsLongest(changes: seq<Change>)
    ensures RunTtl(None, changes) == None ||
            (Timed(RunTtl(None, changes)) && exists i :: 0 <= i < |changes| && changes[i].Written? && changes[i].ttl == RunTtl(None, changes))
    ensures forall i :: 0 <= i < |changes| && changes[i].Written? && Timed(changes[i].ttl) ==>
              Timed(RunTtl(None, changes)) && changes[i].ttl.value <= RunTtl(None, changes).value
  {
    if changes != [] {
      var before, last := changes[..|changes| - 1], changes[|changes| - 1];
      RunTtlIsLongest(before);
      forall i | 0 <= i < |changes| && changes[i].Written? && Timed(changes[i].ttl)
        ensures Timed(RunTtl(None, changes)) && changes[i].ttl.value <= RunTtl(None, changes).value
      {
        if i < |before| {
          assert before[i] == changes[i];
        }
      }
      if RunTtl(None, changes) == RunTtl(None, before) && RunTtl(None, before) != None {
        var i :| 0 <= i < |before| && before[i].Written? && before[i].ttl == RunTtl(None, before);
        assert changes[i] == before[i];
      }
    }
  }

  /** What the save of a tree node changes under its key. */
  function SaveChanges<V(!new), R(!new, ==)>(codec: Codec<V, R>, fs: FullSet<V>, st: Storage<R>, item: Item<V>): seq<Change>
  {
    var q := ChainPath(item.ref);
    OverlayChanges(codec, fs, LoadTree(codec, StorageGet(st, Join(q), fs.now)), item.tree, q)
  }

  /** The exact expiry after `saveFullTreeValue`: the longest ttl of the items written, or what the key has left if that
      is longer; and none at all if no written item has a ttl, in particular if nodes were only created. */
  lemma TreeOverlayExpiry<V(!new), R(!new)>(codec: Codec<V, R>, fs: FullSet<V>, st: Storage<R>, item: Item<V>)
    ensures
      var key := Join(ChainPath(item.ref));
      var changes := SaveChanges(codec, fs, st, item);
      var after := TreeOverlay(codec, fs, st, item);
      if changes == [] then after == st
      else
        && key in after && after[key].expiry == ExpiryAfter(RunTtl(None, changes), CurrentTtl(st, key, fs.now), fs.now)
        && after[key].bytes == codec.serializeTree(
             Overlay(codec, fs, LoadTree(codec, StorageGet(st, key, fs.now)), item.tree, ChainPath(item.ref)))
  {
    var root := LoadTree(codec, StorageGet(st, Join(ChainPath(item.ref)), fs.now));
    SaveReached(codec, fs, root, item.tree, item.ref);
    SaveIsOverlay(codec, fs, root, item.tree, item.ref);
  }

  /** Nodes were created and no item was written. */
  predicate OnlyCreates(changes: seq<Change>)
  {
    changes != [] && forall i :: 0 <= i < |changes| ==> changes[i].Created?
  }

  /** Every item carries a positive ttl. */
  ghost predicate AllItemsTimed<V(!new)>(fs: FullSet<V>)
  {
    forall q, v :: Timed(fs.ttl(q, v))
  }

  lemma WrittenIsTimed<V(!new), R(!new)>(codec: Codec<V, R>, fs: FullSet<V>, stored: Tree<R>, input: Tree<V>, q: Path, change: Change)
    requires WellKeyed(input) && AllItemsTimed(fs) && change in OverlayChanges(codec, fs, stored, input, q) && change.Written?
    ensures Timed(change.ttl)
  {
    var s := ListedChange(codec, fs, stored, input, q, change);
  }

  /** With a ttl on every item the key is still left without expiry exactly when nodes were only created. */
  lemma CreatingDropsExpiry<V(!new), R(!new)>(codec: Codec<V, R>, fs: FullSet<V>, st: Storage<R>, item: Item<V>)
    requires WellKeyed(item.tree) && AllItemsTimed(fs) && SaveChanges(codec, fs, st, item) != []
    ensures
      var key := Join(ChainPath(item.ref));
      var after := TreeOverlay(codec, fs, st, item);
      key in after && (after[key].expiry.None? <==> OnlyCreates(SaveChanges(codec, fs, st, item)))
  {
    var q := ChainPath(item.ref);
    var changes := SaveChanges(codec, fs, st, item);
    TreeOverlayExpiry(codec, fs, st, item);
    RunTtlIsLongest(changes);
    if i :| 0 <= i < |changes| && changes[i].Written? {
      WrittenIsTimed(codec, fs, LoadTree(codec, StorageGet(st, Join(q), fs.now)), item.tree, q, changes[i]);
    }
  }

  // ----- the cover

  /** Laying input over a tree adds no deadline. */
  lemma {:induction false} OverlayDueBy<V(!new), R(!new)>(codec: Codec<V, R>, fs: FullSet<V>, stored: Tree<R>, input: Tree<V>, q: Path, bound: int)
    requires DueBy(stored, bound)
    ensures DueBy(Overlay(codec, fs, stored, input, q), bound)
    decreases input
  {
    if input.children.Some? {
      OverlayKidsDueBy(codec, fs, LayOver(codec, fs, stored, Live(input, fs.now), q), input.children.value, q, bound);
    }
  }

  lemma {:induction false} OverlayKidsDueBy<V(!new), R(!new)>(codec: Codec<V, R>, fs: FullSet<V>, node: Tree<R>, ks: Kids<V>, q: Path, bound: int)
    requires DueBy(node, bound)
    ensures DueBy(OverlayKids(codec, fs, node, ks, q), bound)
    decreases ks
  {
    match ks
    case End =>
    case Entry(key, sub, rest) =>
      OverlayKidsDueBy(codec, fs, node, rest, q, bound);
      var done := OverlayKids(codec, fs, node, rest, q);
      var stored := Child(done, key);
      if stored.Some? {
        DueByFind(KidsOf(done), key, bound);
      }
      OverlayDueBy(codec, fs, OrFresh(codec, fs, stored, q + [key]), sub, q + [key], bound);
      DueByPut(KidsOf(done), key, Overlay(codec, fs, OrFresh(codec, fs, stored, q + [key]), sub, q + [key]), bound);
  }

  /** A save with a ttl on every item keeps the cover of its tree exactly if it does not only create nodes; and then
      the expiry of the key is not moved to an earlier time. */
  lemma TreeOverlayCoversIff<V(!new), R(!new)>(codec: Codec<V, R>, fs: FullSet<V>, st: Storage<R>, item: Item<V>)
    requires codec.Lawful() && WellKeyed(item.tree) && AllItemsTimed(fs) && TreeCovered(codec, st, Join(ChainPath(item.ref)))
    ensures
      var key := Join(ChainPath(item.ref));
      var after := TreeOverlay(codec, fs, st, item);
      && (TreeCovered(codec, after, key) <==> !OnlyCreates(SaveChanges(codec, fs, st, item)))
      && (TreeCovered(codec, after, key) && key in st ==> key in after && st[key].expiry.value <= after[key].expiry.value)
  {
    var q := ChainPath(item.ref);
    var key := Join(q);
    var root := LoadTree(codec, StorageGet(st, key, fs.now));
    var changes := SaveChanges(codec, fs, st, item);
    TreeOverlayExpiry(codec, fs, st, item);
    if changes != [] {
      CreatingDropsExpiry(codec, fs, st, item);
      if !OnlyCreates(changes) {
        var expiry := ExpiryAfter(RunTtl(None, changes), CurrentTtl(st, key, fs.now), fs.now).value;
        RootDueBy(codec, st, key, fs.now, expiry);
        OverlayDueBy(codec, fs, root, item.tree, q, expiry);
        OverlayWellKeyed(codec, fs, root, item.tree, q);
      }
    }
  }

  lemma RootDueBy<V(!new), R(!new)>(codec: Codec<V, R>, st: Storage<R>, key: string, now: Time, bound: int)
    requires TreeCovered(codec, st, key)
    requires CurrentTtl(st, key, now).Some? ==> now + CurrentTtl(st, key, now).value <= bound
    ensures DueBy(LoadTree(codec, StorageGet(st, key, now)), bound)
  {
    if StorageGet(st, key, now).Some? {
      DueLater(codec.deserializeTree(st[key].bytes), st[key].expiry.value, bound);
    }
  }

  // ----- a whole call

  /** The call does not only create nodes in the tree at `r`, a path of the key level. */
  predicate WritesToo<V(!new), R(!new, ==)>(codec: Codec<V, R>, fs: FullSet<V>, tree: Tree<V>, st: Storage<R>, r: Path)
  {
    At(tree, r).Some? ==>
      !OnlyCreates(OverlayChanges(codec, fs, LoadTree(codec, StorageGet(st, Join(r), fs.now)), At(tree, r).value, r))
  }

  lemma FullSetCoversPath<V(!new), R(!new)>(codec: Codec<V, R>, K: nat, fs: FullSet<V>, tree: Tree<V>, st: Storage<R>, r: Path)
    requires codec.Lawful() && K >= 2 && WellKeyed(tree) && PlainKeys(K, tree) && AllItemsTimed(fs)
    requires |r| == K && ColonFree(r) && TreeCovered(codec, st, Join(r))
    ensures
      var after := FullTreeSetStore(codec, K, fs, tree, st);
      && (TreeCovered(codec, after, Join(r)) <==> WritesToo(codec, fs, tree, st, r))
      && (TreeCovered(codec, after, Join(r)) && Join(r) in st ==>
            Join(r) in after && st[Join(r)].expiry.value <= after[Join(r)].expiry.value)
  {
    var items := LevelOrder([Start(tree, None)], fs.now);
    var outer := Outer(K, items);
    LevelOrderSearches(tree, fs.now);
    PlainKeysAreOwned(K, tree, r);
    if At(tree, r).None? {
      NoOuterItem(K, tree, items, fs.now, r);
      UntouchedKey(codec, K, fs, st, outer, Join(r));
    } else {
      var i := OuterItem(K, tree, items, fs.now, r);
      OwnKey(codec, K, fs, st, outer, i, Join(r));
      WellKeyedAt(tree, r);
      TreeOverlayCoversIff(codec, fs, st, outer[i]);
    }
  }

  /** With a ttl on every item `fullTreeSet` keeps the cover of all trees exactly if there is none in which it only
      creates nodes. */
  lemma FullTreeSetCoversIff<V(!new), R(!new)>(codec: Codec<V, R>, K: nat, fs: FullSet<V>, tree: Tree<V>, st: Storage<R>)
    requires codec.Lawful() && K >= 2 && WellKeyed(tree) && PlainKeys(K, tree) && AllItemsTimed(fs) && Covered(codec, K, st)
    ensures
      var after := FullTreeSetStore(codec, K, fs, tree, st);
      && (Covered(codec, K, after) <==> forall r: Path :: |r| == K && ValidPath(K, r) ==> WritesToo(codec, fs, tree, st, r))
      && (Covered(codec, K, after) ==> NotEarlier(K, st, after))
  {
    var after := FullTreeSetStore(codec, K, fs, tree, st);
    forall r: Path | |r| == K && ValidPath(K, r)
      ensures TreeCovered(codec, after, Join(r)) <==> WritesToo(codec, fs, tree, st, r)
      ensures TreeCovered(codec, after, Join(r)) && Join(r) in st ==>
                Join(r) in after && after[Join(r)].expiry.Some? && st[Join(r)].expiry.value <= after[Join(r)].expiry.value
    {
      assert TreeCovered(codec, st, Join(r)) && Holder(K, r) == r;
      FullSetCoversPath(codec, K, fs, tree, st, r);
    }
  }
}

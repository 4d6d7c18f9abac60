/** `saveFullTreeValue`: a depth first stream of input nodes laid over one stored tree. */
module SaveTree {
  import opened Wrappers
  import opened Keys
  import opened Trees
  import opened HybridStore
  import opened Traversal

  /** The arguments of a `fullTreeSet` call besides the tree, with the consumer of its items: `edit` is what the
      consumer leaves in `item.value`, given that and `item.oldValue`. */
  datatype FullSet<!V> = FullSet(
    create: Path -> Option<V>,
    edit: (Path, Option<V>, Option<V>) -> Option<V>,
    ttl: (Path, Option<V>) -> Option<Seconds>,
    now: Time)

  // ----- the recursive definition

  /** A node that was not stored before: `createValue` gives its value, if it gives any. */
  function Fresh<V(!new), R(!new)>(codec: Codec<V, R>, fs: FullSet<V>, q: Path): Tree<R>
  {
    var value := fs.create(q);
    Tree(if value.Some? then Some(codec.serialize(value.value)) else None, None, None)
  }

  function OrFresh<V(!new), R(!new)>(codec: Codec<V, R>, fs: FullSet<V>, stored: Option<Tree<R>>, q: Path): Tree<R>
  {
    if stored.Some? then stored.value else Fresh(codec, fs, q)
  }

  /** `checkFullSetItemChange`: writes a value that differs from the live one, and never the deadline. */
  function OverlayNode<V(!new), R(!new, ==)>(codec: Codec<V, R>, n: Tree<R>, value: Option<V>, now: Time): Tree<R>
  {
    if value.Some? && Live(n, now) != Some(codec.serialize(value.value))
    then n.(value := Some(codec.serialize(value.value)))
    else n
  }

  /** The value in the item of a tree node once the consumer is done with it. */
  function ItemValue<V(!new), R(!new)>(codec: Codec<V, R>, fs: FullSet<V>, n: Tree<R>, value: Option<V>, q: Path): Option<V>
  {
    fs.edit(q, value, codec.Decode(Live(n, fs.now)))
  }

  /** The stored node `n` after the pass for an item of this value. */
  function LayOver<V(!new), R(!new, ==)>(codec: Codec<V, R>, fs: FullSet<V>, n: Tree<R>, value: Option<V>, q: Path): Tree<R>
  {
    OverlayNode(codec, n, ItemValue(codec, fs, n, value, q), fs.now)
  }

  /** The stored tree with the input tree laid over it. */
  function Overlay<V(!new), R(!new, ==)>(codec: Codec<V, R>, fs: FullSet<V>, stored: Tree<R>, input: Tree<V>, q: Path): Tree<R>
    decreases input
  {
    var node := LayOver(codec, fs, stored, Live(input, fs.now), q);
    if input.children.Some? then OverlayKids(codec, fs, node, input.children.value, q) else node
  }

  function OverlayKids<V(!new), R(!new, ==)>(codec: Codec<V, R>, fs: FullSet<V>, node: Tree<R>, ks: Kids<V>, q: Path): Tree<R>
    decreases ks
  {
    match ks
    case End => node
    case Entry(key, sub, rest) =>
      var done := OverlayKids(codec, fs, node, rest, q);
      PutChild(done, key, Overlay(codec, fs, OrFresh(codec, fs, Child(done, key), q + [key]), sub, q + [key]))
  }

  lemma {:induction false} OverlayKidsChild<V(!new), R(!new)>(codec: Codec<V, R>, fs: FullSet<V>, node: Tree<R>, ks: Kids<V>, q: Path, k: Key)
    requires WellKeyedKids(ks)
    ensures
      var done := OverlayKids(codec, fs, node, ks, q);
      var sub := Find(ks, k);
      && done.value == node.value && done.deadline == node.deadline
      && Child(done, k) ==
         if sub.None? then Child(node, k)
         else Some(Overlay(codec, fs, OrFresh(codec, fs, Child(node, k), q + [k]), sub.value, q + [k]))
  {
    match ks
    case End =>
    case Entry(key, sub, rest) =>
      OverlayKidsChild(codec, fs, node, rest, q, k);
      var done := OverlayKids(codec, fs, node, rest, q);
      FindPut(KidsOf(done), key, Overlay(codec, fs, OrFresh(codec, fs, Child(done, key), q + [key]), sub, q + [key]), k);
      FindKeySet(rest, k);
      if k == key {
        OverlayKidsChild(codec, fs, node, rest, q, key);
      }
  }

  /** What a reader finds at path `s` of the overlaid tree. */
  function Overlaid<V(!new), R(!new, ==)>(codec: Codec<V, R>, fs: FullSet<V>, stored: Tree<R>, input: Tree<V>, q: Path, s: Path): Option<R>
  {
    var n := At(input, s);
    if n.None? then Lookup(stored, s, fs.now)
    else Live(LayOver(codec, fs, OrFresh(codec, fs, At(stored, s), q + s), Live(n.value, fs.now), q + s), fs.now)
  }

  /** Paths outside the input read as before, and each input node is laid over the stored node at its own path. */
  lemma {:induction false} OverlayReads<V(!new), R(!new)>(codec: Codec<V, R>, fs: FullSet<V>, stored: Tree<R>, input: Tree<V>, q: Path, s: Path)
    requires WellKeyed(input)
    ensures Lookup(Overlay(codec, fs, stored, input, q), s, fs.now) == Overlaid(codec, fs, stored, input, q, s)
    decreases s
  {
    var node := LayOver(codec, fs, stored, Live(input, fs.now), q);
    var ks := KidsOf(input);
    if s == [] {
      assert q + s == q;
      OverlayKidsChild(codec, fs, node, ks, q, "");
    } else {
      OverlayKidsChild(codec, fs, node, ks, q, s[0]);
      var sub := Find(ks, s[0]);
      if sub.Some? {
        WellKeyedFind(ks, s[0]);
        assert (q + [s[0]]) + s[1..] == q + s;
        OverlayReads(codec, fs, OrFresh(codec, fs, Child(node, s[0]), q + [s[0]]), sub.value, q + [s[0]], s[1..]);
        if Child(stored, s[0]).None? && s[1..] == [] {
          assert s == [s[0]];
        }
      }
    }
  }

  /** What the consumer leaves in the item of the input node at `s`. */
  function LeftAt<V(!new), R(!new)>(codec: Codec<V, R>, fs: FullSet<V>, stored: Tree<R>, input: Tree<V>, q: Path, s: Path): Option<V>
    requires At(input, s).Some?
  {
    ItemValue(codec, fs, OrFresh(codec, fs, At(stored, s), q + s), Live(At(input, s).value, fs.now), q + s)
  }

  /** A value left in an item is read back exactly when the stored node at its path is not past its deadline. */
  lemma OverlaidValue<V(!new), R(!new)>(codec: Codec<V, R>, fs: FullSet<V>, stored: Tree<R>, input: Tree<V>, q: Path, s: Path)
    requires At(input, s).Some? && LeftAt(codec, fs, stored, input, q, s).Some?
    ensures Overlaid(codec, fs, stored, input, q, s) == Some(codec.serialize(LeftAt(codec, fs, stored, input, q, s).value))
            <==> !(At(stored, s).Some? && Expired(At(stored, s).value.deadline, fs.now))
  {
  }

  /** An item left without a value keeps what is stored, and a new node gets what `createValue` gives. */
  lemma OverlaidNothing<V(!new), R(!new)>(codec: Codec<V, R>, fs: FullSet<V>, stored: Tree<R>, input: Tree<V>, q: Path, s: Path)
    requires codec.Lawful() && At(input, s).Some? && LeftAt(codec, fs, stored, input, q, s).None?
    ensures codec.Decode(Overlaid(codec, fs, stored, input, q, s)) ==
            if At(stored, s).Some? then codec.Decode(Lookup(stored, s, fs.now)) else fs.create(q + s)
  {
  }

  lemma {:induction false} OverlayWellKeyed<V(!new), R(!new)>(codec: Codec<V, R>, fs: FullSet<V>, stored: Tree<R>, input: Tree<V>, q: Path)
    requires WellKeyed(stored)
    ensures WellKeyed(Overlay(codec, fs, stored, input, q))
    decreases input
  {
    if input.children.Some? {
      OverlayKidsWellKeyed(codec, fs, LayOver(codec, fs, stored, Live(input, fs.now), q), input.children.value, q);
    }
  }

  lemma {:induction false} OverlayKidsWellKeyed<V(!new), R(!new)>(codec: Codec<V, R>, fs: FullSet<V>, node: Tree<R>, ks: Kids<V>, q: Path)
    requires WellKeyed(node)
    ensures WellKeyed(OverlayKids(codec, fs, node, ks, q))
    decreases ks
  {
    match ks
    case End =>
    case Entry(key, sub, rest) =>
      OverlayKidsWellKeyed(codec, fs, node, rest, q);
      var done := OverlayKids(codec, fs, node, rest, q);
      var stored := Child(done, key);
      if stored.Some? {
        WellKeyedFind(KidsOf(done), key);
      }
      OverlayWellKeyed(codec, fs, OrFresh(codec, fs, stored, q + [key]), sub, q + [key]);
      PutWellKeyed(KidsOf(done), key, Overlay(codec, fs, OrFresh(codec, fs, stored, q + [key]), sub, q + [key]));
  }

  // ----- the loop over the stream

  /** The loop's variables. The source's sparse stack holds, by level, nodes of the tree being
      changed; here it holds their paths below the root of that tree. */
  datatype Save<R> =
    | Saving(tree: Tree<R>, stack: map<nat, Path>, changed: bool, maxTtl: Option<Seconds>)
    | Failed(message: string)

  /** The first half of a pass: the stored node for the item, created if it is missing. */
  function Locate<V(!new), R(!new)>(codec: Codec<V, R>, fs: FullSet<V>, rootLevel: nat, s: Save<R>, item: Item<V>): (Save<R>, Path)
  {
    var level := item.ref.level;
    if s.Failed? then (s, [])
    else if level == rootLevel then (s, [])
    else if level == 0 || level - 1 !in s.stack || At(s.tree, s.stack[level - 1]).None? then (Failed("Algorithm error"), [])
    else
      var parent := s.stack[level - 1];
      var node := At(s.tree, parent).value;
      var stored := Child(node, item.ref.key);
      var q := ChainPath(item.ref);
      var cursor := parent + [item.ref.key];
      (Saving(ReplaceAt(s.tree, parent, PutChild(node, item.ref.key, OrFresh(codec, fs, stored, q))),
              s.stack[level := cursor], s.changed || (stored.None? && fs.create(q).Some?), s.maxTtl),
       cursor)
  }

  /** The second half: the item's value is written to it. */
  function WriteItem<V(!new), R(!new, ==)>(codec: Codec<V, R>, fs: FullSet<V>, s: Save<R>, cursor: Path, item: Item<V>): Save<R>
  {
    if s.Failed? || At(s.tree, cursor).None? then s
    else
      var node := At(s.tree, cursor).value;
      var q := ChainPath(item.ref);
      var value := ItemValue(codec, fs, node, item.value, q);
      var itemChanged := value.Some? && Live(node, fs.now) != Some(codec.serialize(value.value));
      if itemChanged then
        Saving(ReplaceAt(s.tree, cursor, LayOver(codec, fs, node, item.value, q)), s.stack, true,
               GetTtl(fs.ttl(q, value), s.maxTtl))
      else s
  }

  function SaveItem<V(!new), R(!new, ==)>(codec: Codec<V, R>, fs: FullSet<V>, rootLevel: nat, s: Save<R>, item: Item<V>): Save<R>
  {
    var located := Locate(codec, fs, rootLevel, s, item);
    WriteItem(codec, fs, located.0, located.1, item)
  }

  function SaveAll<V(!new), R(!new, ==)>(codec: Codec<V, R>, fs: FullSet<V>, rootLevel: nat, s: Save<R>, items: seq<Item<V>>): Save<R>
  {
    if items == [] then s
    else SaveItem(codec, fs, rootLevel, SaveAll(codec, fs, rootLevel, s, items[..|items| - 1]), items[|items| - 1])
  }

  lemma {:induction false} SaveAppend<V(!new), R(!new)>(codec: Codec<V, R>, fs: FullSet<V>, rootLevel: nat, s: Save<R>, xs: seq<Item<V>>, ys: seq<Item<V>>)
    ensures SaveAll(codec, fs, rootLevel, s, xs + ys) ==
            SaveAll(codec, fs, rootLevel, SaveAll(codec, fs, rootLevel, s, xs), ys)
  {
    if ys == [] {
      assert xs + ys == xs;
    } else {
      assert (xs + ys)[..|xs + ys| - 1] == xs + ys[..|ys| - 1];
      SaveAppend(codec, fs, rootLevel, s, xs, ys[..|ys| - 1]);
    }
  }

  lemma SaveSingle<V(!new), R(!new)>(codec: Codec<V, R>, fs: FullSet<V>, rootLevel: nat, s: Save<R>, item: Item<V>)
    ensures SaveAll(codec, fs, rootLevel, s, [item]) == SaveItem(codec, fs, rootLevel, s, item)
  {
    var items := [item];
    assert items[..|items| - 1] == [];
  }

  /** The entry of the stack below `level` is the node at `cursor`, the parent of what comes next. */
  predicate Under<R>(s: Save<R>, level: nat, cursor: Path)
  {
    && s.Saving? && 0 < level && level - 1 in s.stack && s.stack[level - 1] == cursor && At(s.tree, cursor).Some?
  }

  /** Entries of the stack below `level` are not touched. */
  predicate KeepsBelow<R>(s: Save<R>, after: Save<R>, level: nat)
    requires s.Saving? && after.Saving?
  {
    forall l :: l in s.stack && l < level ==> l in after.stack && after.stack[l] == s.stack[l]
  }

  /** The node of an item is found under its own parent and gets the item's value. */
  lemma SaveNode<V(!new), R(!new)>(codec: Codec<V, R>, fs: FullSet<V>, rootLevel: nat, s: Save<R>, item: Item<V>, cursor: Path)
    requires rootLevel < item.ref.level && Under(s, item.ref.level, cursor)
    ensures
      var after := SaveItem(codec, fs, rootLevel, s, item);
      var node := At(s.tree, cursor).value;
      var base := OrFresh(codec, fs, Child(node, item.ref.key), ChainPath(item.ref));
      var written := LayOver(codec, fs, base, item.value, ChainPath(item.ref));
      && Under(after, item.ref.level + 1, cursor + [item.ref.key]) && KeepsBelow(s, after, item.ref.level)
      && At(after.tree, cursor + [item.ref.key]) == Some(written)
      && after.tree == ReplaceAt(s.tree, cursor, PutChild(node, item.ref.key, written))
  {
    var node := At(s.tree, cursor).value;
    var key := item.ref.key;
    var base := OrFresh(codec, fs, Child(node, key), ChainPath(item.ref));
    var written := LayOver(codec, fs, base, item.value, ChainPath(item.ref));
    StepDown(s.tree, cursor, node, key, base, written);
    StepDown(s.tree, cursor, node, key, written, written);
  }

  /** The stream of a subtree is laid over one child of the node on the stack. */
  lemma {:induction false} SaveSubtree<V(!new), R(!new)>(codec: Codec<V, R>, fs: FullSet<V>, rootLevel: nat, s: Save<R>, t: Tree<V>, ref: Chained, cursor: Path)
    requires rootLevel < ref.level && Under(s, ref.level, cursor)
    ensures
      var after := SaveAll(codec, fs, rootLevel, s, PreOrder(t, ref, fs.now));
      var node := At(s.tree, cursor).value;
      var q := ChainPath(ref);
      && Under(after, ref.level, cursor) && KeepsBelow(s, after, ref.level)
      && after.tree == ReplaceAt(s.tree, cursor,
           PutChild(node, ref.key, Overlay(codec, fs, OrFresh(codec, fs, Child(node, ref.key), q), t, q)))
    decreases Size(t), 1
  {
    var item := Item(ref, Live(t, fs.now), t);
    var kids := KidsOf(t);
    assert PreOrder(t, ref, fs.now) == [item] + PreOrderKids(kids, ref.level + 1, Some(ref), fs.now);
    SaveAppend(codec, fs, rootLevel, s, [item], PreOrderKids(kids, ref.level + 1, Some(ref), fs.now));
    SaveSingle(codec, fs, rootLevel, s, item);
    SaveNode(codec, fs, rootLevel, s, item, cursor);
    SaveBelow(codec, fs, rootLevel, s, SaveItem(codec, fs, rootLevel, s, item), t, ref, cursor);
  }

  lemma {:induction false} SaveBelow<V(!new), R(!new)>(codec: Codec<V, R>, fs: FullSet<V>, rootLevel: nat, s: Save<R>, s1: Save<R>, t: Tree<V>, ref: Chained, cursor: Path)
    requires rootLevel < ref.level && Under(s, ref.level, cursor)
    requires Under(s1, ref.level + 1, cursor + [ref.key]) && KeepsBelow(s, s1, ref.level)
    requires
      var node := At(s.tree, cursor).value;
      var q := ChainPath(ref);
      var written := LayOver(codec, fs, OrFresh(codec, fs, Child(node, ref.key), q), Live(t, fs.now), q);
      && At(s1.tree, cursor + [ref.key]) == Some(written)
      && s1.tree == ReplaceAt(s.tree, cursor, PutChild(node, ref.key, written))
    ensures
      var after := SaveAll(codec, fs, rootLevel, s1, PreOrderKids(KidsOf(t), ref.level + 1, Some(ref), fs.now));
      var node := At(s.tree, cursor).value;
      var q := ChainPath(ref);
      && Under(after, ref.level, cursor) && KeepsBelow(s, after, ref.level)
      && after.tree == ReplaceAt(s.tree, cursor,
           PutChild(node, ref.key, Overlay(codec, fs, OrFresh(codec, fs, Child(node, ref.key), q), t, q)))
    decreases Size(t), 0
  {
    var node := At(s.tree, cursor).value;
    var q := ChainPath(ref);
    var base := OrFresh(codec, fs, Child(node, ref.key), q);
    var written := LayOver(codec, fs, base, Live(t, fs.now), q);
    var final := Overlay(codec, fs, base, t, q);
    SaveKids(codec, fs, rootLevel, s1, KidsOf(t), ref.level + 1, ref, cursor + [ref.key]);
    StepDown(s.tree, cursor, node, ref.key, written, final);
    AtReplaced(s.tree, cursor, PutChild(node, ref.key, final));
  }

  lemma {:induction false} SaveKids<V(!new), R(!new)>(codec: Codec<V, R>, fs: FullSet<V>, rootLevel: nat, s: Save<R>, ks: Kids<V>, level: nat, parent: Chained, cursor: Path)
    requires rootLevel < level && Under(s, level, cursor)
    ensures
      var after := SaveAll(codec, fs, rootLevel, s, PreOrderKids(ks, level, Some(parent), fs.now));
      && Under(after, level, cursor) && KeepsBelow(s, after, level)
      && after.tree == ReplaceAt(s.tree, cursor, OverlayKids(codec, fs, At(s.tree, cursor).value, ks, ChainPath(parent)))
    decreases SizeKids(ks), 2
  {
    var node := At(s.tree, cursor).value;
    match ks
    case End =>
      ReplaceSame(s.tree, cursor);
    case Entry(key, sub, rest) =>
      assert Size(sub) >= 1;
      var ref := Chained(key, level, Some(parent));
      SaveAppend(codec, fs, rootLevel, s, PreOrderKids(rest, level, Some(parent), fs.now), PreOrder(sub, ref, fs.now));
      SaveKids(codec, fs, rootLevel, s, rest, level, parent, cursor);
      var s1 := SaveAll(codec, fs, rootLevel, s, PreOrderKids(rest, level, Some(parent), fs.now));
      var node1 := OverlayKids(codec, fs, node, rest, ChainPath(parent));
      AtReplaced(s.tree, cursor, node1);
      SaveSubtree(codec, fs, rootLevel, s1, sub, ref, cursor);
      ReplaceTwice(s.tree, cursor, node1, OverlayKids(codec, fs, node, ks, ChainPath(parent)));
  }

  /** Saving the stream of an input node over the stored tree gives the overlay: the parent of every
      node is on the stack, so 'Algorithm error' is never raised. */
  lemma SaveIsOverlay<V(!new), R(!new)>(codec: Codec<V, R>, fs: FullSet<V>, stored: Tree<R>, t: Tree<V>, ref: Chained)
    ensures
      var s := Saving(stored, map[ref.level := []], false, None);
      var after := SaveAll(codec, fs, ref.level, s, PreOrder(t, ref, fs.now));
      after.Saving? && after.tree == Overlay(codec, fs, stored, t, ChainPath(ref))
  {
    var s := Saving(stored, map[ref.level := []], false, None);
    var item := Item(ref, Live(t, fs.now), t);
    var kids := KidsOf(t);
    assert PreOrder(t, ref, fs.now) == [item] + PreOrderKids(kids, ref.level + 1, Some(ref), fs.now);
    SaveAppend(codec, fs, ref.level, s, [item], PreOrderKids(kids, ref.level + 1, Some(ref), fs.now));
    SaveSingle(codec, fs, ref.level, s, item);
    SaveKids(codec, fs, ref.level, SaveItem(codec, fs, ref.level, s, item), kids, ref.level + 1, ref, []);
  }

  // ----- an unchanged tree need not be persisted

  lemma {:induction false} BlankChildReads<R>(t: Tree<R>, p: Path, k: Key, q: Path, now: Time)
    requires At(t, p).Some? && Child(At(t, p).value, k).None?
    ensures Lookup(ReplaceAt(t, p, PutChild(At(t, p).value, k, Blank())), q, now) == Lookup(t, q, now)
    decreases p
  {
    if p == [] {
      if q != [] {
        FindPut(KidsOf(t), k, Blank(), q[0]);
        BlankReads<R>(q[1..], now);
      }
    } else if q != [] {
      var c := Child(t, p[0]).value;
      FindPut(KidsOf(t), p[0], ReplaceAt(c, p[1..], PutChild(At(t, p).value, k, Blank())), q[0]);
      BlankChildReads(c, p[1..], k, q[1..], now);
    }
  }

  lemma QuietItem<V(!new), R(!new)>(codec: Codec<V, R>, fs: FullSet<V>, rootLevel: nat, s: Save<R>, item: Item<V>, q: Path)
    requires s.Saving?
    requires
      var after := SaveItem(codec, fs, rootLevel, s, item);
      after.Saving? && !after.changed
    ensures !s.changed
    ensures Lookup(SaveItem(codec, fs, rootLevel, s, item).tree, q, fs.now) == Lookup(s.tree, q, fs.now)
  {
    var level := item.ref.level;
    if level != rootLevel {
      var parent := s.stack[level - 1];
      var node := At(s.tree, parent).value;
      var stored := Child(node, item.ref.key);
      if stored.Some? {
        PutFound(KidsOf(node), item.ref.key);
        assert PutChild(node, item.ref.key, stored.value) == node;
        ReplaceSame(s.tree, parent);
      } else {
        BlankChildReads(s.tree, parent, item.ref.key, q, fs.now);
      }
    }
  }

  /** If no pass reports a change, readers find in the saved tree what they found in the stored one. */
  lemma {:induction false} QuietSave<V(!new), R(!new)>(codec: Codec<V, R>, fs: FullSet<V>, rootLevel: nat, s: Save<R>, items: seq<Item<V>>, q: Path)
    requires s.Saving?
    requires
      var after := SaveAll(codec, fs, rootLevel, s, items);
      after.Saving? && !after.changed
    ensures Lookup(SaveAll(codec, fs, rootLevel, s, items).tree, q, fs.now) == Lookup(s.tree, q, fs.now)
  {
    if items != [] {
      var before := SaveAll(codec, fs, rootLevel, s, items[..|items| - 1]);
      QuietItem(codec, fs, rootLevel, before, items[|items| - 1], q);
      QuietSave(codec, fs, rootLevel, s, items[..|items| - 1], q);
    }
  }
}

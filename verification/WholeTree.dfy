/** `deserializeWholeTree`: rebuilds a tree of values from the flat depth first stream of a serialized one. */
module WholeTree {
  import opened Wrappers
  import opened Keys
  import opened Trees
  import opened HybridStore
  import opened Worklists
  import opened Traversal

  // ----- the recursive definition

  /** A node with its value deserialized if it is live, and no children yet. */
  function Leaf<V(!new), R(!new)>(codec: Codec<V, R>, value: Option<R>): Tree<V>
  {
    Tree(codec.Decode(value), None, None)
  }

  /** Every node of `t`, with only the live values. */
  function MapLive<V(!new), R(!new)>(codec: Codec<V, R>, t: Tree<R>, now: Time): Tree<V>
  {
    var leaf := Leaf(codec, Live(t, now));
    if t.children.None? || t.children.value == End then leaf
    else leaf.(children := Some(MapKids(codec, t.children.value, now)))
  }

  /** The children, in the order the depth first search meets them: last to first. */
  function MapKids<V(!new), R(!new)>(codec: Codec<V, R>, ks: Kids<R>, now: Time): Kids<V>
  {
    match ks
    case End => End
    case Entry(key, sub, rest) => Put(MapKids(codec, rest, now), key, MapLive(codec, sub, now))
  }

  lemma {:induction false} FindMapped<V(!new), R(!new)>(codec: Codec<V, R>, ks: Kids<R>, k: Key, now: Time)
    ensures
      var sub := Find(ks, k);
      Find(MapKids(codec, ks, now), k) == if sub.Some? then Some(MapLive(codec, sub.value, now)) else None
  {
    match ks
    case End =>
    case Entry(key, sub, rest) =>
      FindMapped(codec, rest, k, now);
      FindPut(MapKids(codec, rest, now), key, MapLive(codec, sub, now), k);
  }

  /** The children come out in reverse order. */
  lemma {:induction false} MapKidsReverses<V(!new), R(!new)>(codec: Codec<V, R>, ks: Kids<R>, now: Time)
    requires WellKeyedKids(ks)
    ensures KeyList(MapKids(codec, ks, now)) == Reversed(KeyList(ks))
    decreases ks
  {
    match ks
    case End =>
    case Entry(key, sub, rest) =>
      MapKidsReverses(codec, rest, now);
      ReversedHas(KeyList(rest), key);
      KeyListIsKeySet(rest, key);
      PutKeyList(MapKids(codec, rest, now), key, MapLive(codec, sub, now));
  }

  lemma {:induction false} ReversedHas(keys: seq<Key>, k: Key)
    ensures k in Reversed(keys) <==> k in keys
  {
    if keys != [] {
      ReversedHas(keys[1..], k);
    }
  }

  /** The rebuilt tree has a node at exactly the same paths, holding the live value deserialized. */
  lemma {:induction false} MapLiveReads<V(!new), R(!new)>(codec: Codec<V, R>, t: Tree<R>, now: Time, p: Path)
    ensures
      var n, m := At(t, p), At(MapLive(codec, t, now), p);
      (n.Some? <==> m.Some?) && (n.Some? ==> m.value.value == codec.Decode(Live(n.value, now)) && m.value.deadline == None)
    decreases p
  {
    if p != [] {
      FindMapped(codec, KidsOf(t), p[0], now);
      if Child(t, p[0]).Some? {
        MapLiveReads(codec, Child(t, p[0]).value, now, p[1..]);
      }
    }
  }

  // ----- the loop over the stream

  /** The loop's variables. The source's stack holds nodes of the tree under construction;
      here each entry is the path of such a node. */
  datatype Build<V> =
    | Building(tree: Tree<V>, stack: seq<Path>, currentLevel: nat)
    | Lost(message: string)

  /** One pass of the loop. */
  function Place<V(!new), R(!new)>(codec: Codec<V, R>, b: Build<V>, item: Item<R>): Build<V>
  {
    if b.Lost? then b
    else if b.currentLevel + 1 < item.ref.level then Lost("Path lost")
    else
      var drop := b.currentLevel + 1 - item.ref.level;
      if |b.stack| < drop then Lost("Stack lost")
      else
        var stack := b.stack[..|b.stack| - drop];
        if stack == [] || At(b.tree, stack[|stack| - 1]).None? then Lost("Cannot read properties of undefined")
        else
          var cursor := stack[|stack| - 1];
          var node := At(b.tree, cursor).value;
          var next := Child(node, item.ref.key);
          var current := if next.Some? then next.value else Blank();
          var placed := if item.value.Some? then current.(value := codec.Decode(item.value)) else current;
          Building(ReplaceAt(b.tree, cursor, PutChild(node, item.ref.key, placed)),
                   stack + [cursor + [item.ref.key]], item.ref.level)
  }

  function PlaceAll<V(!new), R(!new)>(codec: Codec<V, R>, b: Build<V>, items: seq<Item<R>>): Build<V>
  {
    if items == [] then b else Place(codec, PlaceAll(codec, b, items[..|items| - 1]), items[|items| - 1])
  }

  lemma {:induction false} PlaceAppend<V(!new), R(!new)>(codec: Codec<V, R>, b: Build<V>, xs: seq<Item<R>>, ys: seq<Item<R>>)
    ensures PlaceAll(codec, b, xs + ys) == PlaceAll(codec, PlaceAll(codec, b, xs), ys)
  {
    if ys == [] {
      assert xs + ys == xs;
    } else {
      assert (xs + ys)[..|xs + ys| - 1] == xs + ys[..|ys| - 1];
      PlaceAppend(codec, b, xs, ys[..|ys| - 1]);
    }
  }

  /** The state can take nodes of `level` under the node at `cursor`. */
  predicate Accepts<V>(b: Build<V>, level: nat, cursor: Path)
  {
    && b.Building? && 0 < level <= |b.stack| == b.currentLevel + 1
    && b.stack[level - 1] == cursor && At(b.tree, cursor).Some?
  }

  /** A node with the mapped children `ks` added after those it has. */
  function AddKids<V(!new), R(!new)>(codec: Codec<V, R>, node: Tree<V>, ks: Kids<R>, now: Time): Tree<V>
  {
    match ks
    case End => node
    case Entry(key, sub, rest) => PutChild(AddKids(codec, node, rest, now), key, MapLive(codec, sub, now))
  }

  lemma {:induction false} AddKidsKeys<V(!new), R(!new)>(codec: Codec<V, R>, node: Tree<V>, ks: Kids<R>, now: Time, k: Key)
    requires k !in KeySet(ks) && Child(node, k).None?
    ensures Child(AddKids(codec, node, ks, now), k).None?
  {
    match ks
    case End =>
    case Entry(key, sub, rest) =>
      AddKidsKeys(codec, node, rest, now, k);
      FindPut(KidsOf(AddKids(codec, node, rest, now)), key, MapLive(codec, sub, now), k);
  }

  lemma {:induction false} AddKidsToLeaf<V(!new), R(!new)>(codec: Codec<V, R>, value: Option<R>, ks: Kids<R>, now: Time)
    ensures AddKids(codec, Leaf(codec, value), ks, now) ==
            if ks == End then Leaf(codec, value) else Leaf(codec, value).(children := Some(MapKids(codec, ks, now)))
  {
    match ks
    case End =>
    case Entry(_, _, rest) => AddKidsToLeaf(codec, value, rest, now);
  }

  /** The node itself becomes a child without children, and the top of the stack. */
  lemma PlaceNode<V(!new), R(!new)>(codec: Codec<V, R>, b: Build<V>, item: Item<R>, cursor: Path)
    requires Accepts(b, item.ref.level, cursor) && Child(At(b.tree, cursor).value, item.ref.key).None?
    ensures
      var after := Place(codec, b, item);
      && Accepts(after, item.ref.level + 1, cursor + [item.ref.key])
      && after.stack[..item.ref.level] == b.stack[..item.ref.level]
      && At(after.tree, cursor + [item.ref.key]) == Some(Leaf(codec, item.value))
      && after.tree == ReplaceAt(b.tree, cursor, PutChild(At(b.tree, cursor).value, item.ref.key, Leaf(codec, item.value)))
  {
    assert b.stack[..|b.stack| - (b.currentLevel + 1 - item.ref.level)] == b.stack[..item.ref.level];
    var leaf := Leaf(codec, item.value);
    StepDown(b.tree, cursor, At(b.tree, cursor).value, item.ref.key, leaf, leaf);
  }

  /** The stream of a subtree is absorbed as one new child, whatever was on the stack above its parent. */
  lemma {:induction false} PlaceTree<V(!new), R(!new)>(codec: Codec<V, R>, b: Build<V>, t: Tree<R>, ref: Chained, now: Time, cursor: Path)
    requires WellKeyed(t) && Accepts(b, ref.level, cursor) && Child(At(b.tree, cursor).value, ref.key).None?
    ensures
      var after := PlaceAll(codec, b, PreOrder(t, ref, now));
      && Accepts(after, ref.level, cursor) && after.stack[..ref.level] == b.stack[..ref.level]
      && after.tree == ReplaceAt(b.tree, cursor, PutChild(At(b.tree, cursor).value, ref.key, MapLive(codec, t, now)))
    decreases Size(t), 1
  {
    var item := Item(ref, Live(t, now), t);
    var kids := KidsOf(t);
    var below := PreOrderKids(kids, ref.level + 1, Some(ref), now);
    assert PreOrder(t, ref, now) == [item] + below;
    PlaceAppend(codec, b, [item], below);
    PlaceSingle(codec, b, item);
    PlaceNode(codec, b, item, cursor);
    var b1 := Place(codec, b, item);
    PlaceBelow(codec, b, b1, t, ref, now, cursor);
  }

  lemma PlaceSingle<V(!new), R(!new)>(codec: Codec<V, R>, b: Build<V>, item: Item<R>)
    ensures PlaceAll(codec, b, [item]) == Place(codec, b, item)
  {
    var items := [item];
    assert items[..|items| - 1] == [];
  }

  lemma {:induction false} PlaceBelow<V(!new), R(!new)>(codec: Codec<V, R>, b: Build<V>, b1: Build<V>, t: Tree<R>, ref: Chained, now: Time, cursor: Path)
    requires WellKeyed(t) && Accepts(b, ref.level, cursor)
    requires Accepts(b1, ref.level + 1, cursor + [ref.key]) && b1.stack[..ref.level] == b.stack[..ref.level]
    requires
      var leaf := Leaf(codec, Live(t, now));
      && At(b1.tree, cursor + [ref.key]) == Some(leaf)
      && b1.tree == ReplaceAt(b.tree, cursor, PutChild(At(b.tree, cursor).value, ref.key, leaf))
    ensures
      var after := PlaceAll(codec, b1, PreOrderKids(KidsOf(t), ref.level + 1, Some(ref), now));
      && Accepts(after, ref.level, cursor) && after.stack[..ref.level] == b.stack[..ref.level]
      && after.tree == ReplaceAt(b.tree, cursor, PutChild(At(b.tree, cursor).value, ref.key, MapLive(codec, t, now)))
    decreases Size(t), 0
  {
    var kids := KidsOf(t);
    var leaf := Leaf(codec, Live(t, now));
    var node := At(b.tree, cursor).value;
    var final := MapLive(codec, t, now);
    var after := PlaceAll(codec, b1, PreOrderKids(kids, ref.level + 1, Some(ref), now));
    assert after.Building? && after.tree == ReplaceAt(b.tree, cursor, PutChild(node, ref.key, final)) by {
      StepDown(b.tree, cursor, node, ref.key, leaf, final);
      AddKidsToLeaf(codec, Live(t, now), kids, now);
      NoKeysIn(leaf, kids);
      PlaceKids(codec, b1, kids, ref.level + 1, Some(ref), now, cursor + [ref.key]);
    }
    assert |after.stack| == after.currentLevel + 1 && after.stack[..ref.level + 1] == b1.stack[..ref.level + 1] by {
      NoKeysIn(leaf, kids);
      PlaceKids(codec, b1, kids, ref.level + 1, Some(ref), now, cursor + [ref.key]);
    }
    assert after.stack[..ref.level] == after.stack[..ref.level + 1][..ref.level] == b.stack[..ref.level];
    assert after.stack[ref.level - 1] == after.stack[..ref.level][ref.level - 1];
    AtReplaced(b.tree, cursor, PutChild(node, ref.key, final));
  }

  predicate NewKeys<V, R>(node: Tree<V>, ks: Kids<R>)
  {
    match ks
    case End => true
    case Entry(key, _, rest) => Child(node, key).None? && NewKeys(node, rest)
  }

  lemma {:induction false} NoKeysIn<V, R>(leaf: Tree<V>, ks: Kids<R>)
    requires leaf.children.None?
    ensures NewKeys(leaf, ks)
  {
    match ks
    case End =>
    case Entry(_, _, rest) => NoKeysIn(leaf, rest);
  }

  lemma {:induction false} PlaceKids<V(!new), R(!new)>(codec: Codec<V, R>, b: Build<V>, ks: Kids<R>, level: nat,
                                                 parent: Option<Chained>, now: Time, cursor: Path)
    requires WellKeyedKids(ks) && Accepts(b, level, cursor) && NewKeys(At(b.tree, cursor).value, ks)
    ensures
      var after := PlaceAll(codec, b, PreOrderKids(ks, level, parent, now));
      && Accepts(after, level, cursor) && after.stack[..level] == b.stack[..level]
      && after.tree == ReplaceAt(b.tree, cursor, AddKids(codec, At(b.tree, cursor).value, ks, now))
    decreases SizeKids(ks), 2
  {
    match ks
    case End =>
      ReplaceSame(b.tree, cursor);
    case Entry(key, sub, rest) =>
      var node := At(b.tree, cursor).value;
      var ref := Chained(key, level, parent);
      PlaceAppend(codec, b, PreOrderKids(rest, level, parent, now), PreOrder(sub, ref, now));
      assert Size(sub) >= 1;
      PlaceKids(codec, b, rest, level, parent, now, cursor);
      var b1 := PlaceAll(codec, b, PreOrderKids(rest, level, parent, now));
      var node1 := AddKids(codec, node, rest, now);
      AtReplaced(b.tree, cursor, node1);
      AddKidsKeys(codec, node, rest, now, key);
      PlaceTree(codec, b1, sub, ref, now, cursor);
      ReplaceTwice(b.tree, cursor, node1, PutChild(node1, key, MapLive(codec, sub, now)));
  }

  /** `deserializeWholeTree`. It fails only on a tree with neither children nor a live value;
      'Path lost' and 'Stack lost' are never raised. */
  method DeserializeWholeTree<V(!new), R(!new)>(codec: Codec<V, R>, data: R, now: Time) returns (r: Result<Tree<V>>)
    requires WellKeyed(codec.deserializeTree(data))
    ensures
      var t := codec.deserializeTree(data);
      r == if t.children.None? && Live(t, now).None? then Err("Empty tree") else Ok(MapLive(codec, t, now))
  {
    var tree := codec.deserializeTree(data);
    var rootValue := Live(tree, now);
    if tree.children.None? && rootValue.None? {
      return Err("Empty tree");
    }
    var list := new Worklist<Pending<R>>(false);
    var nodes := TreePreOrderTraversal(tree, list, None, now);
    var b := PlaceStream(codec, Building(Leaf(codec, rootValue), [[]], 0), nodes);
    StreamRebuilds(codec, tree, now);
    r := Outcome(b);
  }

  /** The loop over the nodes. */
  method PlaceStream<V(!new), R(!new)>(codec: Codec<V, R>, start: Build<V>, nodes: seq<Item<R>>) returns (b: Build<V>)
    ensures b == PlaceAll(codec, start, nodes)
  {
    b := start;
    var i := 0;
    while i < |nodes|
      invariant 0 <= i <= |nodes|
      invariant b == PlaceAll(codec, start, nodes[..i])
    {
      if b.Building? {
        b := PlaceItem(codec, b, nodes[i]);
      }
      i := i + 1;
      assert nodes[..i][..i - 1] == nodes[..i - 1];
    }
    assert nodes[..|nodes|] == nodes;
  }

  function Outcome<V>(b: Build<V>): Result<Tree<V>>
  {
    match b
    case Building(tree, _, _) => Ok(tree)
    case Lost(message) => Err(message)
  }

  /** One pass of the loop, popping the stack down to the parent of the item. */
  method PlaceItem<V(!new), R(!new)>(codec: Codec<V, R>, b: Build<V>, item: Item<R>) returns (after: Build<V>)
    requires b.Building?
    ensures after == Place(codec, b, item)
  {
    var stack, currentLevel := b.stack, b.currentLevel + 1;
    if currentLevel < item.ref.level {
      return Lost("Path lost");
    }
    while currentLevel > item.ref.level
      invariant item.ref.level <= currentLevel <= b.currentLevel + 1
      invariant b.currentLevel + 1 - currentLevel <= |b.stack|
      invariant stack == b.stack[..|b.stack| - (b.currentLevel + 1 - currentLevel)]
    {
      if stack == [] {
        return Lost("Stack lost");
      }
      stack := stack[..|stack| - 1];
      currentLevel := currentLevel - 1;
    }
    if stack == [] {
      return Lost("Cannot read properties of undefined");
    }
    var cursor := stack[|stack| - 1];
    var found := At(b.tree, cursor);
    if found.None? {
      return Lost("Cannot read properties of undefined");
    }
    var next := Child(found.value, item.ref.key);
    var current := if next.Some? then next.value else Blank();
    if item.value.Some? {
      current := current.(value := codec.Decode(item.value));
    }
    after := Building(ReplaceAt(b.tree, cursor, PutChild(found.value, item.ref.key, current)),
                      stack + [cursor + [item.ref.key]], currentLevel);
  }

  lemma StreamRebuilds<V(!new), R(!new)>(codec: Codec<V, R>, t: Tree<R>, now: Time)
    requires WellKeyed(t)
    ensures
      var b0 := Building(Leaf(codec, Live(t, now)), [[]], 0);
      var after := PlaceAll(codec, b0, StartItems(t, None, now) + DepthFirst(Start(t, None), now));
      after.Building? && after.tree == MapLive(codec, t, now)
  {
    var leaf := Leaf(codec, Live(t, now));
    var b0 := Building(leaf, [[]], 0);
    var ks := KidsOf(t);
    NoKeysIn(leaf, ks);
    PlaceKids(codec, b0, ks, 1, None, now, []);
    AddKidsToLeaf(codec, Live(t, now), ks, now);
    assert StartItems(t, None, now) + DepthFirst(Start(t, None), now) == PreOrderKids(ks, 1, None, now);
  }
}

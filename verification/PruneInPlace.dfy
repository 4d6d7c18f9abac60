/** `pruneTree` itself: a post-order walk over mutable nodes that detaches children as it goes,
    keeping the emptiness of the children it has seen in a sparse stack of maps. */
module PruneInPlace {
  import opened Wrappers
  import opened Keys
  import opened Trees
  import opened Pruning
  import opened Traversal
  import opened Orders

  /** A tree node as an object; a child slot set to `undefined` is a null reference. */
  class TreeNode<R> {
    var value: Option<R>
    var deadline: Option<int>
    var children: Option<seq<(Key, TreeNode?<R>)>>

    constructor (value: Option<R>, deadline: Option<int>, children: Option<seq<(Key, TreeNode?<R>)>>)
      ensures this.value == value && this.deadline == deadline && this.children == children
    {
      this.value := value;
      this.deadline := deadline;
      this.children := children;
    }
  }

  /** A snapshot of the objects below a node: which nodes there are and what their fields hold. */
  datatype Shape<R> = Shape(node: TreeNode<R>, value: Option<R>, deadline: Option<int>, children: Option<Shapes<R>>)

  datatype Shapes<R> = NoMore | Slot(key: Key, sub: Option<Shape<R>>, rest: Shapes<R>)

  ghost function Nodes<R>(s: Shape<R>): set<TreeNode<R>>
  {
    {s.node} + if s.children.Some? then NodesOf(s.children.value) else {}
  }

  ghost function NodesOf<R>(ss: Shapes<R>): set<TreeNode<R>>
  {
    match ss
    case NoMore => {}
    case Slot(_, sub, rest) => (if sub.Some? then Nodes(sub.value) else {}) + NodesOf(rest)
  }

  ghost function SlotKeys<R>(ss: Shapes<R>): set<Key>
  {
    match ss
    case NoMore => {}
    case Slot(key, _, rest) => {key} + SlotKeys(rest)
  }

  /** No object is reached twice, and no key is used twice in one children object. */
  ghost predicate Proper<R>(s: Shape<R>)
  {
    s.children.Some? ==> s.node !in NodesOf(s.children.value) && ProperKids(s.children.value)
  }

  ghost predicate ProperKids<R>(ss: Shapes<R>)
  {
    match ss
    case NoMore => true
    case Slot(key, sub, rest) =>
      && key !in SlotKeys(rest) && ProperKids(rest)
      && (sub.Some? ==> Proper(sub.value) && Nodes(sub.value) !! NodesOf(rest))
  }

  /** The child slots as the children object holds them. */
  ghost function Slots<R>(ss: Shapes<R>): seq<(Key, TreeNode?<R>)>
  {
    match ss
    case NoMore => []
    case Slot(key, sub, rest) => [(key, if sub.Some? then sub.value.node else null)] + Slots(rest)
  }

  /** The tree a snapshot stands for: slots set to `undefined` are no children. */
  ghost function TreeOf<R>(s: Shape<R>): Tree<R>
  {
    Tree(s.value, s.deadline, if s.children.Some? then Some(KidsIn(s.children.value)) else None)
  }

  ghost function KidsIn<R>(ss: Shapes<R>): Kids<R>
  {
    match ss
    case NoMore => End
    case Slot(key, sub, rest) => if sub.Some? then Entry(key, TreeOf(sub.value), KidsIn(rest)) else KidsIn(rest)
  }

  /** The objects hold what the snapshot says. */
  ghost predicate Matches<R>(s: Shape<R>)
    reads Nodes(s)
  {
    && s.node.value == s.value && s.node.deadline == s.deadline
    && (if s.children.Some? then s.node.children == Some(Slots(s.children.value)) && MatchesKids(s.children.value)
        else s.node.children == None)
  }

  ghost predicate MatchesKids<R>(ss: Shapes<R>)
    reads NodesOf(ss)
  {
    match ss
    case NoMore => true
    case Slot(_, sub, rest) => (sub.Some? ==> Matches(sub.value)) && MatchesKids(rest)
  }

  // ----- detaching children

  /** The slots with those of the keys `gone` set to `undefined`. */
  function Detach<R>(es: seq<(Key, TreeNode?<R>)>, gone: set<Key>): seq<(Key, TreeNode?<R>)>
  {
    if es == [] then []
    else [(es[0].0, if es[0].0 in gone then null else es[0].1)] + Detach(es[1..], gone)
  }

  lemma {:induction false} DetachNone<R>(es: seq<(Key, TreeNode?<R>)>)
    ensures Detach(es, {}) == es
  {
    if es != [] {
      DetachNone(es[1..]);
    }
  }

  lemma {:induction false} DetachMore<R>(es: seq<(Key, TreeNode?<R>)>, gone: set<Key>, more: set<Key>)
    ensures Detach(Detach(es, gone), more) == Detach(es, gone + more)
  {
    if es != [] {
      DetachMore(es[1..], gone, more);
    }
  }

  /** The emptiness flags of the children, by key. */
  ghost function Flags<R>(ss: Shapes<R>, now: Time): map<Key, bool>
  {
    match ss
    case NoMore => map[]
    case Slot(key, sub, rest) =>
      (if sub.Some? then map[key := Barren(TreeOf(sub.value), now)] else map[]) + Flags(rest, now)
  }

  ghost function Flagged(flags: map<Key, bool>): set<Key>
  {
    set k | k in flags && flags[k]
  }

  lemma {:induction false} FlagKeys<R>(ss: Shapes<R>, now: Time)
    ensures Flags(ss, now).Keys <= SlotKeys(ss)
    ensures Flags(ss, now).Keys == {} <==> KidsIn(ss) == End
  {
    match ss
    case NoMore =>
    case Slot(key, sub, rest) =>
      FlagKeys(rest, now);
      assert sub.Some? ==> key in Flags(ss, now).Keys;
  }

  /** All flags are set exactly when all children are barren. */
  lemma {:induction false} FlagsBarren<R>(ss: Shapes<R>, now: Time)
    requires ProperKids(ss)
    ensures Flagged(Flags(ss, now)) == Flags(ss, now).Keys <==> BarrenKids(KidsIn(ss), now)
    ensures Flagged(Flags(ss, now)) != {} ==> !AllLiveKids(KidsIn(ss), now)
  {
    match ss
    case NoMore =>
    case Slot(key, sub, rest) =>
      FlagsBarren(rest, now);
      FlagKeys(rest, now);
      if sub.Some? {
        AddFlag(key, Barren(TreeOf(sub.value), now), Flags(rest, now));
      } else {
        assert Flags(ss, now) == Flags(rest, now);
      }
  }

  lemma AddFlag(key: Key, flag: bool, below: map<Key, bool>)
    requires key !in below
    ensures
      var flags := map[key := flag] + below;
      && Flagged(flags) == Flagged(below) + (if flag then {key} else {})
      && (Flagged(flags) == flags.Keys <==> Flagged(below) == below.Keys && flag)
  {
    var flags := map[key := flag] + below;
    assert Flagged(flags) == Flagged(below) + (if flag then {key} else {});
    assert flags.Keys == {key} + below.Keys;
    assert key !in Flagged(below);
  }

  // ----- what the objects hold afterwards

  ghost function SlotsAfter<R>(ss: Shapes<R>, now: Time): seq<(Key, TreeNode?<R>)>
  {
    match ss
    case NoMore => []
    case Slot(key, sub, rest) =>
      [(key, if sub.Some? && !Barren(TreeOf(sub.value), now) then sub.value.node else null)] + SlotsAfter(rest, now)
  }

  ghost function ChildrenAfter<R>(children: Option<Shapes<R>>, now: Time): Option<seq<(Key, TreeNode?<R>)>>
  {
    if children.None? then None
    else if KidsIn(children.value) == End then Some(Slots(children.value))
    else if BarrenKids(KidsIn(children.value), now) then None
    else Some(SlotsAfter(children.value, now))
  }

  lemma {:induction false} DetachFlagged<R>(ss: Shapes<R>, now: Time, gone: set<Key>)
    requires ProperKids(ss)
    requires forall k :: k in SlotKeys(ss) ==> (k in gone <==> k in Flagged(Flags(ss, now)))
    ensures Detach(Slots(ss), gone) == SlotsAfter(ss, now)
  {
    match ss
    case NoMore =>
    case Slot(key, sub, rest) =>
      FlagKeys(rest, now);
      DetachFlagged(rest, now, gone);
      assert Slots(ss)[1..] == Slots(rest);
  }

  /** The objects of `s` have been pruned, each node for itself. */
  ghost predicate After<R>(s: Shape<R>, now: Time)
    reads Nodes(s)
  {
    var live := Live(TreeOf(s), now).Some?;
    && s.node.value == (if live then s.value else None) && s.node.deadline == (if live then s.deadline else None)
    && s.node.children == ChildrenAfter(s.children, now)
    && (s.children.Some? ==> AfterKids(s.children.value, now))
  }

  ghost predicate AfterKids<R>(ss: Shapes<R>, now: Time)
    reads NodesOf(ss)
  {
    match ss
    case NoMore => true
    case Slot(_, sub, rest) => (sub.Some? ==> After(sub.value, now)) && AfterKids(rest, now)
  }

  /** The object `n`, within the objects `fp`, is the root of the tree `t`. */
  ghost predicate Represents<R>(n: TreeNode<R>, t: Tree<R>, fp: set<TreeNode<R>>)
    reads fp
    decreases t, 0
  {
    && n in fp && n.value == t.value && n.deadline == t.deadline
    && (if t.children.Some? then n.children.Some? && RepresentsKids(n.children.value, t.children.value, fp)
        else n.children.None?)
  }

  ghost predicate RepresentsKids<R>(es: seq<(Key, TreeNode?<R>)>, ks: Kids<R>, fp: set<TreeNode<R>>)
    reads fp
    decreases ks, |es|
  {
    if es == [] then ks == End
    else if es[0].1 == null then RepresentsKids(es[1..], ks, fp)
    else
      && ks.Entry? && ks.key == es[0].0
      && Represents(es[0].1, ks.sub, fp) && RepresentsKids(es[1..], ks.rest, fp)
  }

  /** Before the walk the objects are the tree of the snapshot. */
  lemma {:induction false} MatchesRepresents<R>(s: Shape<R>, fp: set<TreeNode<R>>)
    requires Matches(s) && Nodes(s) <= fp
    ensures Represents(s.node, TreeOf(s), fp)
    decreases s
  {
    if s.children.Some? {
      MatchesRepresentsKids(s.children.value, fp);
    }
  }

  lemma {:induction false} MatchesRepresentsKids<R>(ss: Shapes<R>, fp: set<TreeNode<R>>)
    requires MatchesKids(ss) && NodesOf(ss) <= fp
    ensures RepresentsKids(Slots(ss), KidsIn(ss), fp)
    decreases ss
  {
    match ss
    case NoMore =>
    case Slot(_, sub, rest) =>
      MatchesRepresentsKids(rest, fp);
      assert Slots(ss)[1..] == Slots(rest);
      if sub.Some? {
        MatchesRepresents(sub.value, fp);
      }
  }

  /** A children object without children stays what it is. */
  lemma {:induction false} EmptySlots<R>(ss: Shapes<R>, fp: set<TreeNode<R>>)
    requires KidsIn(ss) == End
    ensures RepresentsKids(Slots(ss), End, fp)
  {
    match ss
    case NoMore =>
    case Slot(_, _, rest) =>
      EmptySlots(rest, fp);
      assert Slots(ss)[1..] == Slots(rest);
  }

  /** After the walk they are the pruned tree of the specification. */
  lemma {:induction false} AfterRepresents<R>(s: Shape<R>, now: Time, fp: set<TreeNode<R>>)
    requires After(s, now) && Nodes(s) <= fp
    ensures Represents(s.node, Prune(TreeOf(s), now), fp)
    decreases s
  {
    if s.children.Some? {
      if KidsIn(s.children.value) == End {
        EmptySlots(s.children.value, fp);
      } else {
        AfterRepresentsKids(s.children.value, now, fp);
      }
    }
  }

  lemma {:induction false} AfterRepresentsKids<R>(ss: Shapes<R>, now: Time, fp: set<TreeNode<R>>)
    requires AfterKids(ss, now) && NodesOf(ss) <= fp
    ensures RepresentsKids(SlotsAfter(ss, now), PruneKids(KidsIn(ss), now), fp)
    ensures RepresentsKids(Slots(ss), PruneEach(KidsIn(ss), now), fp)
    decreases ss
  {
    match ss
    case NoMore =>
    case Slot(_, sub, rest) =>
      AfterRepresentsKids(rest, now, fp);
      assert Slots(ss)[1..] == Slots(rest);
      assert SlotsAfter(ss, now)[1..] == SlotsAfter(rest, now);
      if sub.Some? {
        AfterRepresents(sub.value, now, fp);
      }
  }

  // ----- the sparse stack of maps

  type MapStack = seq<Option<map<Key, bool>>>

  /** The map at `level`, a hole or a missing entry counting as an empty map. */
  function MapAt(stack: MapStack, level: nat): map<Key, bool>
  {
    if level < |stack| && stack[level].Some? then stack[level].value else map[]
  }

  /** The first `level` entries, holes added where the array is shorter. */
  function Below(stack: MapStack, level: nat): (r: MapStack)
    ensures |r| == level
  {
    seq(level, i requires 0 <= i < level => if i < |stack| then stack[i] else None)
  }

  /** `(stack[level] ??= new Map()).set(key, flag)` on a stack that reaches `level` at most. */
  function Record(stack: MapStack, level: nat, key: Key, flag: bool): MapStack
    requires |stack| <= level + 1
  {
    Below(stack, level) + [Some(MapAt(stack, level)[key := flag])]
  }

  ghost function RecordAll<R>(stack: MapStack, level: nat, ss: Shapes<R>, now: Time): (r: MapStack)
    requires |stack| <= level + 1
    ensures |r| <= level + 1
    decreases ss
  {
    match ss
    case NoMore => stack
    case Slot(key, sub, rest) =>
      RecordAll(if sub.Some? then Record(stack, level, key, Barren(TreeOf(sub.value), now)) else stack, level, rest, now)
  }

  lemma RecordThenAll(stack: MapStack, level: nat, key: Key, flag: bool, more: map<Key, bool>)
    requires |stack| <= level + 1
    ensures
      var next := Record(stack, level, key, flag);
      && Below(next, level) == Below(stack, level)
      && MapAt(next, level) + more == MapAt(stack, level) + (map[key := flag] + more)
      && (more.Keys == {} ==> next == Below(stack, level) + [Some(MapAt(stack, level) + (map[key := flag] + more))])
  {
    var next := Record(stack, level, key, flag);
    assert next[level] == Some(MapAt(stack, level)[key := flag]);
    assert MapAt(next, level) + more == MapAt(stack, level) + (map[key := flag] + more);
    if more.Keys == {} {
      assert MapAt(next, level) + more == MapAt(next, level);
    }
  }

  /** After the children of a node, the map above it holds exactly their flags. */
  lemma {:induction false} RecordAllFlags<R>(stack: MapStack, level: nat, ss: Shapes<R>, now: Time)
    requires |stack| <= level + 1
    ensures RecordAll(stack, level, ss, now) ==
            if KidsIn(ss) == End then stack
            else Below(stack, level) + [Some(MapAt(stack, level) + Flags(ss, now))]
    decreases ss
  {
    match ss
    case NoMore =>
    case Slot(key, sub, rest) =>
      if sub.Some? {
        var flag := Barren(TreeOf(sub.value), now);
        RecordAllFlags(Record(stack, level, key, flag), level, rest, now);
        FlagKeys(rest, now);
        RecordThenAll(stack, level, key, flag, Flags(rest, now));
      } else {
        RecordAllFlags(stack, level, rest, now);
        assert Flags(ss, now) == Flags(rest, now);
      }
  }

  // ----- the walk

  function IsLive<R>(value: Option<R>, deadline: Option<int>, now: Time): bool
  {
    value.Some? && !Expired(deadline, now)
  }

  /** The nodes below and including a node, in post-order. */
  ghost function PostShapes<R>(s: Shape<R>): seq<Shape<R>>
  {
    (if s.children.Some? then PostShapesOf(s.children.value) else []) + [s]
  }

  ghost function PostShapesOf<R>(ss: Shapes<R>): seq<Shape<R>>
  {
    match ss
    case NoMore => []
    case Slot(_, sub, rest) => (if sub.Some? then PostShapes(sub.value) else []) + PostShapesOf(rest)
  }

  /** The items are those of the nodes, one by one. */
  ghost predicate ItemsOf<R>(items: seq<Item<R>>, shapes: seq<Shape<R>>)
  {
    |items| == |shapes| && forall i :: 0 <= i < |items| ==> items[i].tree == TreeOf(shapes[i])
  }

  /** The walk goes through the nodes in the order in which the traversal yields them. */
  lemma {:induction false} WalkIsPostOrder<R>(s: Shape<R>, ref: Chained, now: Time)
    ensures ItemsOf(PostOrder(TreeOf(s), ref, now), PostShapes(s))
    decreases s
  {
    if s.children.Some? {
      WalkKidsIsPostOrder(s.children.value, ref.level + 1, Some(ref), now);
    }
  }

  lemma {:induction false} WalkKidsIsPostOrder<R>(ss: Shapes<R>, level: nat, parent: Option<Chained>, now: Time)
    ensures ItemsOf(PostOrderKids(KidsIn(ss), level, parent, now), PostShapesOf(ss))
    decreases ss
  {
    match ss
    case NoMore =>
    case Slot(key, sub, rest) =>
      WalkKidsIsPostOrder(rest, level, parent, now);
      if sub.Some? {
        WalkIsPostOrder(sub.value, Chained(key, level, parent), now);
      }
  }

  /** The walk of `treePostOrderTraversalRecursive` below and including a keyed node, with the body of
      the pruning loop run at each node it yields. `stack` and `changed` are the loop's variables, and
      `visited` is the nodes in the order of the passes. */
  method Walk<R>(node: TreeNode<R>, key: Key, level: nat, now: Time, stack: MapStack, changed: bool, ghost s: Shape<R>, ghost fp: set<TreeNode<R>>)
    returns (stack': MapStack, changed': bool, ghost visited: seq<Shape<R>>)
    requires s.node == node && Proper(s) && Matches(s) && Nodes(s) <= fp
    requires |stack| <= level + 1 && key !in MapAt(stack, level)
    modifies Nodes(s)
    ensures visited == PostShapes(s)
    ensures After(s, now)
    ensures stack' == Record(stack, level, key, Barren(TreeOf(s), now))
    ensures changed' == (changed || !AllLive(TreeOf(s), now))
    decreases s, 1
  {
    var live := IsLive(node.value, node.deadline, now);
    stack', changed', visited := stack, changed, [];
    if node.children.Some? {
      stack', changed', visited := WalkKids(node.children.value, level + 1, now, stack', changed', s.children.value, fp);
      FlagsBarren(s.children.value, now);
    }
    stack', changed' := Visit(node, key, level, live, now, stack', changed', s, stack, fp);
    visited := visited + [s];
  }

  method WalkKids<R>(es: seq<(Key, TreeNode?<R>)>, level: nat, now: Time, stack: MapStack, changed: bool,
                     ghost ss: Shapes<R>, ghost fp: set<TreeNode<R>>)
    returns (stack': MapStack, changed': bool, ghost visited: seq<Shape<R>>)
    requires es == Slots(ss) && ProperKids(ss) && MatchesKids(ss) && NodesOf(ss) <= fp
    requires |stack| <= level + 1 && MapAt(stack, level).Keys !! SlotKeys(ss)
    modifies NodesOf(ss)
    ensures visited == PostShapesOf(ss)
    ensures AfterKids(ss, now)
    ensures stack' == RecordAll(stack, level, ss, now)
    ensures changed' == (changed || !AllLiveKids(KidsIn(ss), now))
    decreases ss, 0
  {
    stack', changed', visited := stack, changed, [];
    if es != [] {
      if es[0].1 != null {
        stack', changed', visited := Walk(es[0].1, es[0].0, level, now, stack', changed', ss.sub.value, fp);
      }
      ghost var more;
      stack', changed', more := WalkKids(es[1..], level, now, stack', changed', ss.rest, fp);
      visited := visited + more;
    }
  }

  /** One pass of the pruning loop. `before` is the stack before the node's children were visited. */
  method Visit<R>(node: TreeNode<R>, key: Key, level: nat, live: bool, now: Time, stack: MapStack, changed: bool,
                  ghost s: Shape<R>, ghost before: MapStack, ghost fp: set<TreeNode<R>>)
    returns (stack': MapStack, changed': bool)
    requires s.node == node && Proper(s) && Nodes(s) <= fp && live == Live(TreeOf(s), now).Some?
    requires node.value == s.value && node.deadline == s.deadline
    requires if s.children.Some? then node.children == Some(Slots(s.children.value)) && AfterKids(s.children.value, now)
             else node.children == None
    requires |before| <= level + 1 && key !in MapAt(before, level)
    requires stack == if s.children.Some? then RecordAll(before, level + 1, s.children.value, now) else before
    modifies node
    ensures After(s, now)
    ensures stack' == Record(before, level, key, Barren(TreeOf(s), now))
    ensures changed' == (changed || !live || (s.children.Some? && Flagged(Flags(s.children.value, now)) != {}))
  {
    stack', changed' := VisitChildren(node, key, level, now, stack, changed, s.children, before);
    if !live {
      node.value := None;
      node.deadline := None;
      changed' := true;
    }
    RecordPadded(before, level, key);
    var pos := MapAt(stack', level);
    if key !in pos || pos[key] {
      stack' := Record(stack', level, key, !live);
    }
  }

  /** All children, where there are any, are barren. */
  ghost predicate ChildrenBarren<R>(children: Option<Shapes<R>>, now: Time)
  {
    children.Some? ==> BarrenKids(KidsIn(children.value), now)
  }

  /** The first part of the pass: pop the flags of the children, if any were visited, and detach the empty ones. */
  method VisitChildren<R>(node: TreeNode<R>, key: Key, level: nat, now: Time, stack: MapStack, changed: bool,
                          ghost children: Option<Shapes<R>>, ghost before: MapStack)
    returns (stack': MapStack, changed': bool)
    requires children.Some? ==> ProperKids(children.value)
    requires node.children == if children.Some? then Some(Slots(children.value)) else None
    requires |before| <= level + 1
    requires stack == if children.Some? then RecordAll(before, level + 1, children.value, now) else before
    modifies node`children
    ensures node.children == ChildrenAfter(children, now)
    ensures changed' == (changed || (children.Some? && Flagged(Flags(children.value, now)) != {}))
    ensures ChildrenBarren(children, now) ==> stack' == before || stack' == Below(before, level + 1)
    ensures !ChildrenBarren(children, now) ==> stack' == Record(Below(before, level + 1), level, key, false)
  {
    stack', changed' := stack, changed;
    if children.Some? {
      RecordAllFlags(before, level + 1, children.value, now);
      FlagKeys(children.value, now);
      FlagsBarren(children.value, now);
    }
    if |stack'| > level + 1 {
      var top := stack'[|stack'| - 1];
      stack' := stack'[..|stack'| - 1];
      assert stack' == Below(before, level + 1) && MapAt(before, level + 1) == map[];
      assert MapAt(before, level + 1) + Flags(children.value, now) == Flags(children.value, now);
      if top.Some? && node.children.Some? {
        DetachFlagged(children.value, now, Flagged(top.value));
        stack', changed' := DetachEmpty(node, key, level, top.value, stack', changed', Flagged(top.value));
      }
    }
  }

  /** Popping the map above leaves the stack as it was, up to a hole that counts as an empty map. */
  lemma RecordPadded(stack: MapStack, level: nat, key: Key)
    requires |stack| <= level + 1
    ensures MapAt(Below(stack, level + 1), level) == MapAt(stack, level)
    ensures forall flag :: Record(Below(stack, level + 1), level, key, flag) == Record(stack, level, key, flag)
    ensures forall flag :: MapAt(Record(stack, level, key, flag), level) == MapAt(stack, level)[key := flag]
  {
    assert Below(Below(stack, level + 1), level) == Below(stack, level);
    forall flag
      ensures MapAt(Record(stack, level, key, flag), level) == MapAt(stack, level)[key := flag]
    {
      assert Record(stack, level, key, flag)[level] == Some(MapAt(stack, level)[key := flag]);
    }
  }

  /** The popped flags applied to the children object: an empty child is detached, any other marks the
      node as not empty. */
  method DetachEmpty<R>(node: TreeNode<R>, key: Key, level: nat, flags: map<Key, bool>, stack: MapStack, changed: bool,
                        ghost empties: set<Key>)
    returns (stack': MapStack, changed': bool)
    requires node.children.Some? && |stack| <= level + 1
    requires empties <= flags.Keys && forall k :: k in flags ==> (k in empties <==> flags[k])
    modifies node`children
    ensures node.children ==
            if empties == flags.Keys then None else Some(Detach(old(node.children.value), empties))
    ensures changed' == (changed || empties != {})
    ensures stack' == if empties == flags.Keys then stack else Record(stack, level, key, false)
  {
    var slots, removeAllChildren;
    slots, removeAllChildren, changed' := StrikeSlots(node.children.value, flags, changed, empties);
    node.children := if removeAllChildren then None else Some(slots);
    stack' := if removeAllChildren then stack else Record(stack, level, key, false);
  }

  /** The loop over the entries of the popped map. */
  method StrikeSlots<R>(slots: seq<(Key, TreeNode?<R>)>, flags: map<Key, bool>, changed: bool, ghost empties: set<Key>)
    returns (slots': seq<(Key, TreeNode?<R>)>, removeAllChildren: bool, changed': bool)
    requires empties <= flags.Keys && forall k :: k in flags ==> (k in empties <==> flags[k])
    ensures slots' == Detach(slots, empties)
    ensures removeAllChildren <==> empties == flags.Keys
    ensures changed' == (changed || empties != {})
  {
    slots', removeAllChildren, changed' := slots, true, changed;
    var todo := flags.Keys;
    ghost var gone: set<Key> := {};
    DetachNone(slots);
    while todo != {}
      invariant todo <= flags.Keys
      invariant forall k :: k in gone <==> k in flags && k !in todo && flags[k]
      invariant slots' == Detach(slots, gone)
      invariant changed' == (changed || gone != {})
      invariant removeAllChildren <==> forall k :: k in flags && k !in todo ==> flags[k]
      decreases |todo|
    {
      var k :| k in todo;
      if flags[k] {
        DetachMore(slots, gone, {k});
        slots', changed', gone := Detach(slots', {k}), true, gone + {k};
      } else {
        removeAllChildren := false;
      }
      todo := todo - {k};
    }
    assert gone == empties;
  }

  /** `pruneTree`: the objects become the tree of the specification, and the result says whether any
      visited node was without a live value. The nodes are visited in the order of the post-order
      traversal, the root only when there is a parent reference, under that reference's key. */
  method PruneTree<R>(root: TreeNode<R>, parentRef: Option<Chained>, now: Time, ghost s: Shape<R>, ghost fp: set<TreeNode<R>>)
    returns (changed: bool, ghost visited: seq<Shape<R>>)
    requires s.node == root && Proper(s) && Matches(s) && fp == Nodes(s)
    modifies fp
    ensures old(Represents(root, TreeOf(s), fp))
    ensures Represents(root, PruneRoot(TreeOf(s), parentRef.Some?, now), fp)
    ensures changed == PruneReports(TreeOf(s), parentRef.Some?, now)
    ensures ItemsOf(PostOrderFrom(TreeOf(s), parentRef, now), visited)
  {
    MatchesRepresents(s, fp);
    var stack: MapStack;
    if parentRef.Some? {
      stack, changed, visited := Walk(root, parentRef.value.key, 1, now, [], false, s, fp);
      AfterRepresents(s, now, fp);
      WalkIsPostOrder(s, parentRef.value, now);
    } else {
      stack, changed, visited := [], false, [];
      if root.children.Some? {
        stack, changed, visited := WalkKids(root.children.value, 2, now, stack, changed, s.children.value, fp);
        AfterRepresentsKids(s.children.value, now, fp);
        WalkKidsIsPostOrder(s.children.value, 1, None, now);
      }
    }
  }

  // ----- objects from a deserialized tree, and a tree from objects

  /** Fresh objects for a tree, as deserializing it creates them. */
  method Materialize<R>(t: Tree<R>) returns (n: TreeNode<R>, ghost s: Shape<R>, ghost fp: set<TreeNode<R>>)
    requires WellKeyed(t)
    ensures s.node == n && fp == Nodes(s) && fresh(fp)
    ensures Proper(s) && Matches(s) && TreeOf(s) == t
    decreases t, 0
  {
    if t.children.Some? {
      var es;
      ghost var ss, below;
      es, ss, below := MaterializeKids(t.children.value);
      n := new TreeNode(t.value, t.deadline, Some(es));
      s := Shape(n, t.value, t.deadline, Some(ss));
      fp := {n} + below;
    } else {
      n := new TreeNode(t.value, t.deadline, None);
      s := Shape(n, t.value, t.deadline, None);
      fp := {n};
    }
  }

  method MaterializeKids<R>(ks: Kids<R>) returns (es: seq<(Key, TreeNode?<R>)>, ghost ss: Shapes<R>, ghost fp: set<TreeNode<R>>)
    requires WellKeyedKids(ks)
    ensures es == Slots(ss) && fp == NodesOf(ss) && fresh(fp)
    ensures ProperKids(ss) && MatchesKids(ss) && KidsIn(ss) == ks && SlotKeys(ss) == KeySet(ks)
    decreases ks, 1
  {
    match ks
    case End => es, ss, fp := [], NoMore, {};
    case Entry(key, sub, rest) =>
      var n;
      ghost var s, here;
      n, s, here := Materialize(sub);
      var es';
      ghost var ss', below;
      es', ss', below := MaterializeKids(rest);
      es, ss, fp := [(key, n)] + es', Slot(key, Some(s), ss'), here + below;
  }

  /** The tree that serializing the objects writes. */
  method Collect<R>(n: TreeNode<R>, ghost t: Tree<R>, ghost fp: set<TreeNode<R>>) returns (r: Tree<R>)
    requires Represents(n, t, fp)
    ensures r == t
    decreases t, 0
  {
    if n.children.Some? {
      var ks := CollectKids(n.children.value, t.children.value, fp);
      r := Tree(n.value, n.deadline, Some(ks));
    } else {
      r := Tree(n.value, n.deadline, None);
    }
  }

  method CollectKids<R>(es: seq<(Key, TreeNode?<R>)>, ghost ks: Kids<R>, ghost fp: set<TreeNode<R>>) returns (r: Kids<R>)
    requires RepresentsKids(es, ks, fp)
    ensures r == ks
    decreases ks, |es|
  {
    if es == [] {
      r := End;
    } else if es[0].1 == null {
      r := CollectKids(es[1..], ks, fp);
    } else {
      var sub := Collect(es[0].1, ks.sub, fp);
      var rest := CollectKids(es[1..], ks.rest, fp);
      r := Entry(es[0].0, sub, rest);
    }
  }
}

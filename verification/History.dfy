/** `MultiTreeRef`: the history trees of one key seen as one tree, whose nodes hold the live values of all of them. */
module History {
  import opened Wrappers
  import opened Keys
  import opened Trees

  /** `getMultiTreeValueFromTrees`: the live root values, in tree order. */
  function LiveValues<R>(trees: seq<Tree<R>>, now: Time): seq<R>
  {
    if trees == [] then []
    else
      var value := Live(trees[|trees| - 1], now);
      LiveValues(trees[..|trees| - 1], now) + if value.Some? then [value.value] else []
  }

  /** The subtrees merged under one key. */
  datatype Group<R> = Group(key: Key, trees: seq<Tree<R>>)

  function FindGroup<R>(gs: seq<Group<R>>, k: Key): Option<seq<Tree<R>>>
  {
    if gs == [] then None else if gs[0].key == k then Some(gs[0].trees) else FindGroup(gs[1..], k)
  }

  /** A key seen before takes the subtree into its group; a new key starts one. */
  function AddEntry<R>(gs: seq<Group<R>>, key: Key, t: Tree<R>): seq<Group<R>>
  {
    if gs == [] then [Group(key, [t])]
    else if gs[0].key == key then [Group(key, gs[0].trees + [t])] + gs[1..]
    else [gs[0]] + AddEntry(gs[1..], key, t)
  }

  function AddKids<R>(gs: seq<Group<R>>, ks: Kids<R>): seq<Group<R>>
    decreases ks
  {
    match ks
    case End => gs
    case Entry(key, sub, rest) => AddKids(AddEntry(gs, key, sub), rest)
  }

  function AddTrees<R>(gs: seq<Group<R>>, trees: seq<Tree<R>>): seq<Group<R>>
  {
    if trees == [] then gs else AddKids(AddTrees(gs, trees[..|trees| - 1]), KidsOf(trees[|trees| - 1]))
  }

  /** The nodes at path `p` of each tree on its own, in tree order. */
  function EachAt<R>(trees: seq<Tree<R>>, p: Path): seq<Tree<R>>
  {
    if trees == [] then []
    else
      var n := At(trees[|trees| - 1], p);
      EachAt(trees[..|trees| - 1], p) + if n.Some? then [n.value] else []
  }

  /** The trees merged at path `p`, by descending the merged tree. */
  function MergedAt<R>(trees: seq<Tree<R>>, p: Path): Option<seq<Tree<R>>>
    decreases p
  {
    if p == [] then Some(trees)
    else
      match FindGroup(AddTrees([], trees), p[0])
      case None => None
      case Some(g) => MergedAt(g, p[1..])
  }

  predicate AllWellKeyed<R>(trees: seq<Tree<R>>)
  {
    forall i :: 0 <= i < |trees| ==> WellKeyed(trees[i])
  }

  // ----- what a group holds

  function OrEmpty<R>(g: Option<seq<Tree<R>>>): seq<Tree<R>>
  {
    if g.Some? then g.value else []
  }

  lemma {:induction false} FindAdded<R>(gs: seq<Group<R>>, key: Key, t: Tree<R>, k: Key)
    ensures FindGroup(AddEntry(gs, key, t), k) ==
            if k == key then Some(OrEmpty(FindGroup(gs, k)) + [t]) else FindGroup(gs, k)
  {
    var after := AddEntry(gs, key, t);
    if gs == [] {
      assert after[1..] == [];
      assert [] + [t] == [t];
    } else if gs[0].key == key {
      assert after[1..] == gs[1..];
    } else {
      assert after[1..] == AddEntry(gs[1..], key, t);
      FindAdded(gs[1..], key, t, k);
    }
  }

  lemma {:induction false} FindAddedKids<R>(gs: seq<Group<R>>, ks: Kids<R>, k: Key)
    requires WellKeyedKids(ks)
    ensures FindGroup(AddKids(gs, ks), k) ==
            var sub := Find(ks, k);
            if sub.Some? then Some(OrEmpty(FindGroup(gs, k)) + [sub.value]) else FindGroup(gs, k)
    decreases ks
  {
    match ks
    case End =>
    case Entry(key, sub, rest) =>
      FindAdded(gs, key, sub, k);
      FindAddedKids(AddEntry(gs, key, sub), rest, k);
      FindKeySet(rest, k);
  }

  lemma ChildAt<R>(t: Tree<R>, k: Key)
    ensures At(t, [k]) == Child(t, k)
  {
    assert [k][1..] == [];
  }

  /** The group of a key is the children of that key in each tree. */
  lemma {:induction false} FindMerged<R>(trees: seq<Tree<R>>, k: Key)
    requires AllWellKeyed(trees)
    ensures OrEmpty(FindGroup(AddTrees([], trees), k)) == EachAt(trees, [k])
    ensures FindGroup(AddTrees([], trees), k).None? <==> EachAt(trees, [k]) == []
  {
    if trees != [] {
      FindMerged(trees[..|trees| - 1], k);
      FindAddedKids(AddTrees([], trees[..|trees| - 1]), KidsOf(trees[|trees| - 1]), k);
      ChildAt(trees[|trees| - 1], k);
    }
  }

  // ----- the keys of the groups

  function GroupKeys<R>(gs: seq<Group<R>>): seq<Key>
  {
    if gs == [] then [] else [gs[0].key] + GroupKeys(gs[1..])
  }

  predicate Distinct(keys: seq<Key>)
  {
    forall i, j :: 0 <= i < j < |keys| ==> keys[i] != keys[j]
  }

  lemma {:induction false} AddedKeys<R>(gs: seq<Group<R>>, key: Key, t: Tree<R>)
    ensures GroupKeys(AddEntry(gs, key, t)) == if key in GroupKeys(gs) then GroupKeys(gs) else GroupKeys(gs) + [key]
  {
    var after := AddEntry(gs, key, t);
    if gs == [] {
      assert after[1..] == [];
    } else if gs[0].key == key {
      assert after[1..] == gs[1..];
    } else {
      assert after[1..] == AddEntry(gs[1..], key, t);
      AddedKeys(gs[1..], key, t);
      assert [gs[0].key] + (GroupKeys(gs[1..]) + [key]) == ([gs[0].key] + GroupKeys(gs[1..])) + [key];
    }
  }

  lemma {:induction false} AddedKidsKeys<R>(gs: seq<Group<R>>, ks: Kids<R>, k: Key)
    requires Distinct(GroupKeys(gs))
    ensures Distinct(GroupKeys(AddKids(gs, ks))) && GroupKeys(gs) <= GroupKeys(AddKids(gs, ks))
    ensures k in GroupKeys(AddKids(gs, ks)) <==> k in GroupKeys(gs) || k in KeySet(ks)
    decreases ks
  {
    match ks
    case End =>
    case Entry(key, sub, rest) =>
      AddedKeys(gs, key, sub);
      AddedKidsKeys(AddEntry(gs, key, sub), rest, k);
  }

  /** The merged children have each key once, in the order in which the trees show them first, and exactly the keys that
      some tree has. */
  lemma {:induction false} MergedKeys<R>(trees: seq<Tree<R>>, k: Key)
    ensures Distinct(GroupKeys(AddTrees([], trees)))
    ensures k in GroupKeys(AddTrees([], trees)) <==> exists i :: 0 <= i < |trees| && k in KeySet(KidsOf(trees[i]))
    ensures trees != [] ==> GroupKeys(AddTrees([], trees[..|trees| - 1])) <= GroupKeys(AddTrees([], trees))
  {
    if trees != [] {
      var before, last := trees[..|trees| - 1], trees[|trees| - 1];
      MergedKeys(before, k);
      AddedKidsKeys(AddTrees([], before), KidsOf(last), k);
      if k in KeySet(KidsOf(last)) {
        assert k in KeySet(KidsOf(trees[|trees| - 1]));
      }
      if i :| 0 <= i < |trees| && k in KeySet(KidsOf(trees[i])) {
        if i < |before| {
          assert k in KeySet(KidsOf(before[i]));
        }
      }
    }
  }

  // ----- merging commutes with descending

  lemma {:induction false} EachAtSteps<R>(trees: seq<Tree<R>>, p: Path)
    requires p != []
    ensures EachAt(EachAt(trees, [p[0]]), p[1..]) == EachAt(trees, p)
  {
    if trees != [] {
      var before, last := trees[..|trees| - 1], trees[|trees| - 1];
      EachAtSteps(before, p);
      ChildAt(last, p[0]);
      var upTo := EachAt(before, [p[0]]);
      if Child(last, p[0]).Some? {
        var steps := upTo + [Child(last, p[0]).value];
        assert steps[..|steps| - 1] == upTo;
      } else {
        assert EachAt(trees, [p[0]]) == upTo;
        assert EachAt(trees, p) == EachAt(before, p);
      }
    }
  }

  lemma {:induction false} EachAtHere<R>(trees: seq<Tree<R>>)
    ensures EachAt(trees, []) == trees
  {
    if trees != [] {
      EachAtHere(trees[..|trees| - 1]);
    }
  }

  lemma {:induction false} EachAtWellKeyed<R>(trees: seq<Tree<R>>, k: Key)
    requires AllWellKeyed(trees)
    ensures AllWellKeyed(EachAt(trees, [k]))
  {
    if trees != [] {
      EachAtWellKeyed(trees[..|trees| - 1], k);
      var last := trees[|trees| - 1];
      ChildAt(last, k);
      if Child(last, k).Some? {
        WellKeyedFind(KidsOf(last), k);
      }
    }
  }

  /** Descending the merged tree finds exactly the nodes that descending each tree on its own finds, in tree
      order, and it finds a node exactly when some tree has one. */
  lemma {:induction false} MergeCommutes<R>(trees: seq<Tree<R>>, p: Path)
    requires AllWellKeyed(trees)
    ensures MergedAt(trees, p) == if p != [] && EachAt(trees, p) == [] then None else Some(EachAt(trees, p))
    decreases p
  {
    if p == [] {
      EachAtHere(trees);
    } else {
      FindMerged(trees, p[0]);
      EachAtSteps(trees, p);
      var group := EachAt(trees, [p[0]]);
      if group != [] {
        EachAtWellKeyed(trees, p[0]);
        MergeCommutes(group, p[1..]);
        EachAtHere(group);
      }
    }
  }

  lemma {:induction false} EachAtEmpty<R>(trees: seq<Tree<R>>, p: Path)
    ensures EachAt(trees, p) == [] <==> forall i :: 0 <= i < |trees| ==> At(trees[i], p).None?
  {
    if trees != [] {
      EachAtEmpty(trees[..|trees| - 1], p);
    }
  }

  /** The live values that readers of each tree on its own find at `p`, in tree order. */
  function EachValue<R>(trees: seq<Tree<R>>, p: Path, now: Time): seq<R>
  {
    if trees == [] then []
    else
      var value := Lookup(trees[|trees| - 1], p, now);
      EachValue(trees[..|trees| - 1], p, now) + if value.Some? then [value.value] else []
  }

  lemma {:induction false} ValuesOfEach<R>(trees: seq<Tree<R>>, p: Path, now: Time)
    ensures LiveValues(EachAt(trees, p), now) == EachValue(trees, p, now)
  {
    if trees != [] {
      var before := EachAt(trees[..|trees| - 1], p);
      ValuesOfEach(trees[..|trees| - 1], p, now);
      var n := At(trees[|trees| - 1], p);
      if n.Some? {
        var nodes := before + [n.value];
        assert nodes[..|nodes| - 1] == before;
      } else {
        assert EachAt(trees, p) == before;
      }
    }
  }

  /** A merged node holds the live values found by descending each tree separately, and it is there
      exactly when some tree has the path. */
  lemma MergedValues<R>(trees: seq<Tree<R>>, p: Path, now: Time)
    requires AllWellKeyed(trees) && p != []
    ensures MergedAt(trees, p).Some? <==> exists i :: 0 <= i < |trees| && At(trees[i], p).Some?
    ensures MergedAt(trees, p).Some? ==> LiveValues(MergedAt(trees, p).value, now) == EachValue(trees, p, now)
  {
    MergeCommutes(trees, p);
    EachAtEmpty(trees, p);
    ValuesOfEach(trees, p, now);
  }

  // ----- the object

  class MultiTreeRef<R> {
    const nodeRef: Option<Chained>
    const trees: seq<Tree<R>>
    const now: Time
    const value: seq<R>
    var emptyChildren: bool

    constructor (nodeRef: Option<Chained>, trees: seq<Tree<R>>, now: Time)
      ensures this.nodeRef == nodeRef && this.trees == trees && this.now == now
      ensures value == LiveValues(trees, now) && !emptyChildren
    {
      this.nodeRef, this.trees, this.now := nodeRef, trees, now;
      this.value, emptyChildren := LiveValues(trees, now), false;
    }

    /** The object is the reference of a group: it holds the group's trees and their live values. */
    ghost predicate IsChild(group: Group<R>, key: Key, child: MultiTreeRef<R>)
      reads child
    {
      && key == group.key && child.trees == group.trees && child.now == now
      && child.value == LiveValues(group.trees, now) && !child.emptyChildren
      && child.nodeRef == Some(Chained(key, 0, nodeRef))
    }

    /** The children getter: a new reference for every key that some tree has, over the children of that key. */
    method Children() returns (children: Option<seq<(Key, MultiTreeRef<R>)>>)
      ensures children.None? <==> emptyChildren
      ensures children.Some? ==>
                var groups := AddTrees([], trees);
                && |children.value| == |groups|
                && forall i :: 0 <= i < |groups| ==>
                     fresh(children.value[i].1) && IsChild(groups[i], children.value[i].0, children.value[i].1)
    {
      if emptyChildren {
        return None;
      }
      var merged := Merge();
      var refs: seq<(Key, MultiTreeRef<R>)> := [];
      while |refs| < |merged|
        invariant |refs| <= |merged|
        invariant forall i :: 0 <= i < |refs| ==> fresh(refs[i].1) && IsChild(merged[i], refs[i].0, refs[i].1)
        decreases |merged| - |refs|
      {
        var group := merged[|refs|];
        var child := new MultiTreeRef(Some(Chained(group.key, 0, nodeRef)), group.trees, now);
        refs := refs + [(group.key, child)];
      }
      children := Some(refs);
    }

    /** The children of all trees, grouped by key. */
    method Merge() returns (merged: seq<Group<R>>)
      ensures merged == AddTrees([], trees)
    {
      merged := [];
      var i := 0;
      while i < |trees|
        invariant 0 <= i <= |trees|
        invariant merged == AddTrees([], trees[..i])
      {
        var ks := KidsOf(trees[i]);
        ghost var before := merged;
        while ks.Entry?
          invariant AddKids(merged, ks) == AddKids(before, KidsOf(trees[i]))
          decreases ks
        {
          merged := AddEntry(merged, ks.key, ks.sub);
          ks := ks.rest;
        }
        i := i + 1;
        assert trees[..i][..i - 1] == trees[..i - 1];
      }
      assert trees[..|trees|] == trees;
    }

    /** The children setter takes nothing but `undefined`. */
    method SetChildren(isUndefined: bool) returns (r: Result<()>)
      modifies this
      ensures r.Ok? <==> isUndefined
      ensures emptyChildren == (old(emptyChildren) || isUndefined)
    {
      if !isUndefined {
        return Err("MultiTreeRef only allow setting children to undefined");
      }
      emptyChildren := true;
      r := Ok(());
    }
  }
}

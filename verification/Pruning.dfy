/** What pruning means: the recursive specification of `pruneTree` and its effect on readers. */
module Pruning {
  import opened Wrappers
  import opened Keys
  import opened Trees

  /** Neither the node nor any descendant has a live value. */
  predicate Barren<R>(t: Tree<R>, now: Time)
  {
    Live(t, now).None? && (t.children.Some? ==> BarrenKids(t.children.value, now))
  }

  predicate BarrenKids<R>(ks: Kids<R>, now: Time)
  {
    match ks
    case End => true
    case Entry(_, sub, rest) => Barren(sub, now) && BarrenKids(rest, now)
  }

  /** Every node has a live value. */
  predicate AllLive<R>(t: Tree<R>, now: Time)
  {
    Live(t, now).Some? && (t.children.Some? ==> AllLiveKids(t.children.value, now))
  }

  predicate AllLiveKids<R>(ks: Kids<R>, now: Time)
  {
    match ks
    case End => true
    case Entry(_, sub, rest) => AllLive(sub, now) && AllLiveKids(rest, now)
  }

  /** The node itself loses a dead value, and loses exactly its barren children;
      a node whose children are all barren loses the whole children object. */
  function Prune<R>(t: Tree<R>, now: Time): Tree<R>
  {
    var live := Live(t, now).Some?;
    Tree(if live then t.value else None, if live then t.deadline else None, PruneChildren(t.children, now))
  }

  function PruneChildren<R>(children: Option<Kids<R>>, now: Time): Option<Kids<R>>
  {
    match children
    case None => None
    case Some(End) => Some(End)
    case Some(ks) => if BarrenKids(ks, now) then None else Some(PruneKids(ks, now))
  }

  function PruneKids<R>(ks: Kids<R>, now: Time): Kids<R>
  {
    match ks
    case End => End
    case Entry(key, sub, rest) =>
      if Barren(sub, now) then PruneKids(rest, now) else Entry(key, Prune(sub, now), PruneKids(rest, now))
  }

  function PruneEach<R>(ks: Kids<R>, now: Time): Kids<R>
  {
    match ks
    case End => End
    case Entry(key, sub, rest) => Entry(key, Prune(sub, now), PruneEach(rest, now))
  }

  /** `pruneTree` as a whole. Without a parent reference the root is not visited,
      so it keeps its value and all its children, and only those are pruned. */
  function PruneRoot<R>(t: Tree<R>, hasParent: bool, now: Time): Tree<R>
  {
    if hasParent then Prune(t, now)
    else if t.children.None? then t
    else t.(children := Some(PruneEach(t.children.value, now)))
  }

  /** The flag `pruneTree` returns. */
  predicate PruneReports<R>(t: Tree<R>, hasParent: bool, now: Time)
  {
    if hasParent then !AllLive(t, now) else !AllLiveKids(KidsOf(t), now)
  }

  // ----- children of a pruned node

  lemma {:induction false} PruneKidsKeys<R>(ks: Kids<R>, now: Time)
    ensures KeySet(PruneKids(ks, now)) <= KeySet(ks)
  {
    match ks
    case End =>
    case Entry(_, _, rest) => PruneKidsKeys(rest, now);
  }

  lemma {:induction false} FindPruned<R>(ks: Kids<R>, k: Key, now: Time)
    requires WellKeyedKids(ks)
    ensures Find(PruneKids(ks, now), k) ==
            var sub := Find(ks, k);
            if sub.Some? && !Barren(sub.value, now) then Some(Prune(sub.value, now)) else None
  {
    match ks
    case End =>
    case Entry(key, sub, rest) =>
      FindPruned(rest, k, now);
      FindKeySet(rest, k);
  }

  lemma {:induction false} FindPrunedEach<R>(ks: Kids<R>, k: Key, now: Time)
    ensures Find(PruneEach(ks, now), k) ==
            var sub := Find(ks, k);
            if sub.Some? then Some(Prune(sub.value, now)) else None
  {
    match ks
    case End =>
    case Entry(_, _, rest) => FindPrunedEach(rest, k, now);
  }

  lemma {:induction false} BarrenFind<R>(ks: Kids<R>, k: Key, now: Time)
    requires BarrenKids(ks, now) && Find(ks, k).Some?
    ensures Barren(Find(ks, k).value, now)
  {
    if ks.key != k {
      BarrenFind(ks.rest, k, now);
    }
  }

  // ----- pruning is invisible to readers

  /** A barren subtree reads as nothing, now and later. */
  lemma {:induction false} BarrenReads<R>(t: Tree<R>, now: Time, p: Path, later: Time)
    requires Barren(t, now) && now <= later
    ensures Lookup(t, p, later) == None
    decreases p
  {
    if p != [] && Child(t, p[0]).Some? {
      BarrenFind(KidsOf(t), p[0], now);
      BarrenReads(Child(t, p[0]).value, now, p[1..], later);
    }
  }

  lemma {:induction false} PruneReads<R>(t: Tree<R>, now: Time, p: Path, later: Time)
    requires WellKeyed(t) && now <= later
    ensures Lookup(Prune(t, now), p, later) == Lookup(t, p, later)
    decreases p
  {
    if p != [] {
      var ks := KidsOf(t);
      FindPruned(ks, p[0], now);
      var sub := Child(t, p[0]);
      if sub.Some? {
        WellKeyedFind(ks, p[0]);
        if Barren(sub.value, now) {
          BarrenReads(sub.value, now, p[1..], later);
        } else {
          if BarrenKids(ks, now) {
            BarrenFind(ks, p[0], now);
          }
          PruneReads(sub.value, now, p[1..], later);
        }
      }
    }
  }

  /** For every path and every time from the pruning on, a reader finds what it would have found. */
  lemma PruneInvisible<R>(t: Tree<R>, hasParent: bool, now: Time, p: Path, later: Time)
    requires WellKeyed(t) && now <= later
    ensures Lookup(PruneRoot(t, hasParent, now), p, later) == Lookup(t, p, later)
  {
    if hasParent {
      PruneReads(t, now, p, later);
    } else if p != [] && t.children.Some? {
      FindPrunedEach(t.children.value, p[0], now);
      if Child(t, p[0]).Some? {
        WellKeyedFind(t.children.value, p[0]);
        PruneReads(Child(t, p[0]).value, now, p[1..], later);
      }
    }
  }

  // ----- pruning twice

  lemma {:induction false} PruneBarren<R>(t: Tree<R>, now: Time)
    ensures Barren(Prune(t, now), now) <==> Barren(t, now)
    ensures Prune(Prune(t, now), now) == Prune(t, now)
    decreases t
  {
    if t.children.Some? {
      PruneKidsTwice(t.children.value, now);
    }
  }

  lemma {:induction false} PruneKidsTwice<R>(ks: Kids<R>, now: Time)
    ensures BarrenKids(PruneKids(ks, now), now) <==> BarrenKids(ks, now)
    ensures PruneKids(ks, now) == End <==> BarrenKids(ks, now)
    ensures PruneKids(PruneKids(ks, now), now) == PruneKids(ks, now)
    decreases ks
  {
    match ks
    case End =>
    case Entry(_, sub, rest) =>
      PruneBarren(sub, now);
      PruneKidsTwice(rest, now);
  }

  lemma {:induction false} PruneEachTwice<R>(ks: Kids<R>, now: Time)
    ensures PruneEach(PruneEach(ks, now), now) == PruneEach(ks, now)
  {
    match ks
    case End =>
    case Entry(_, sub, rest) =>
      PruneBarren(sub, now);
      PruneEachTwice(rest, now);
  }

  /** Pruning a pruned tree at the same time gives the same tree. */
  lemma PruneIdempotent<R>(t: Tree<R>, hasParent: bool, now: Time)
    ensures PruneRoot(PruneRoot(t, hasParent, now), hasParent, now) == PruneRoot(t, hasParent, now)
  {
    if hasParent {
      PruneBarren(t, now);
    } else if t.children.Some? {
      PruneEachTwice(t.children.value, now);
    }
  }

  // ----- the returned flag

  lemma {:induction false} AllLiveKept<R>(t: Tree<R>, now: Time)
    requires AllLive(t, now)
    ensures Prune(t, now) == t
    decreases t
  {
    if t.children.Some? {
      AllLiveKidsKept(t.children.value, now);
    }
  }

  lemma {:induction false} AllLiveKidsKept<R>(ks: Kids<R>, now: Time)
    requires AllLiveKids(ks, now)
    ensures PruneKids(ks, now) == ks && PruneEach(ks, now) == ks
    ensures BarrenKids(ks, now) ==> ks == End
    decreases ks
  {
    match ks
    case End =>
    case Entry(_, sub, rest) =>
      AllLiveKept(sub, now);
      AllLiveKidsKept(rest, now);
  }

  /** `false` means that nothing was touched: not persisting the tree then loses nothing. */
  lemma UnreportedIsUntouched<R>(t: Tree<R>, hasParent: bool, now: Time)
    requires !PruneReports(t, hasParent, now)
    ensures PruneRoot(t, hasParent, now) == t
  {
    if hasParent {
      AllLiveKept(t, now);
    } else if t.children.Some? {
      AllLiveKidsKept(t.children.value, now);
    }
  }

  // ----- what is left

  lemma {:induction false} PruneWellKeyed<R>(t: Tree<R>, now: Time)
    requires WellKeyed(t)
    ensures WellKeyed(Prune(t, now))
    decreases t
  {
    if t.children.Some? {
      PruneKidsWellKeyed(t.children.value, now);
    }
  }

  lemma {:induction false} PruneKidsWellKeyed<R>(ks: Kids<R>, now: Time)
    requires WellKeyedKids(ks)
    ensures WellKeyedKids(PruneKids(ks, now))
    ensures WellKeyedKids(PruneEach(ks, now)) && KeySet(PruneEach(ks, now)) == KeySet(ks)
    decreases ks
  {
    match ks
    case End =>
    case Entry(_, sub, rest) =>
      PruneWellKeyed(sub, now);
      PruneKidsWellKeyed(rest, now);
      PruneKidsKeys(rest, now);
  }

  /** No branch of a pruned tree is without a live value: every node left below the root leads to one. */
  predicate Compact<R>(t: Tree<R>, now: Time)
  {
    t.children.Some? ==> CompactKids(t.children.value, now)
  }

  predicate CompactKids<R>(ks: Kids<R>, now: Time)
  {
    match ks
    case End => true
    case Entry(_, sub, rest) => !Barren(sub, now) && Compact(sub, now) && CompactKids(rest, now)
  }

  lemma {:induction false} PruneCompact<R>(t: Tree<R>, now: Time)
    ensures Compact(Prune(t, now), now)
    decreases t
  {
    if t.children.Some? {
      PruneKidsCompact(t.children.value, now);
    }
  }

  lemma {:induction false} PruneKidsCompact<R>(ks: Kids<R>, now: Time)
    ensures CompactKids(PruneKids(ks, now), now)
    decreases ks
  {
    match ks
    case End =>
    case Entry(_, sub, rest) =>
      PruneBarren(sub, now);
      PruneCompact(sub, now);
      PruneKidsCompact(rest, now);
  }

  /** `pruneTree` as a whole leaves a compact tree, or, without a parent reference, a root with all its children,
      live or not, that are compact below. */
  lemma PruneRootCompact<R>(t: Tree<R>, hasParent: bool, now: Time)
    ensures
      var after := PruneRoot(t, hasParent, now);
      if hasParent then Compact(after, now)
      else
        && Live(after, now) == Live(t, now) && KeySet(KidsOf(after)) == KeySet(KidsOf(t))
        && forall k :: Child(after, k).Some? ==> Compact(Child(after, k).value, now)
  {
    if hasParent {
      PruneCompact(t, now);
    } else if t.children.Some? {
      PruneEachKeys(t.children.value, now);
      forall k | Find(PruneEach(t.children.value, now), k).Some?
        ensures Compact(Find(PruneEach(t.children.value, now), k).value, now)
      {
        FindPrunedEach(t.children.value, k, now);
        PruneCompact(Find(t.children.value, k).value, now);
      }
    }
  }

  lemma {:induction false} PruneEachKeys<R>(ks: Kids<R>, now: Time)
    ensures KeySet(PruneEach(ks, now)) == KeySet(ks)
  {
    match ks
    case End =>
    case Entry(_, _, rest) => PruneEachKeys(rest, now);
  }

  // ----- exactly what is left

  /** Some node at `s` or below it has a live value. */
  ghost predicate LeadsToValue<R>(t: Tree<R>, s: Path, now: Time)
  {
    exists x :: Lookup(t, s + x, now).Some?
  }

  lemma {:induction false} ValueBelow<R>(t: Tree<R>, now: Time) returns (x: Path)
    requires WellKeyed(t) && !Barren(t, now)
    ensures Lookup(t, x, now).Some?
    decreases t
  {
    x := [];
    if Live(t, now).None? {
      var k, y := ValueAmong(t.children.value, now);
      x := [k] + y;
      assert x[1..] == y;
    }
  }

  lemma {:induction false} ValueAmong<R>(ks: Kids<R>, now: Time) returns (k: Key, x: Path)
    requires WellKeyedKids(ks) && !BarrenKids(ks, now)
    ensures Find(ks, k).Some? && Lookup(Find(ks, k).value, x, now).Some?
    decreases ks
  {
    if Barren(ks.sub, now) {
      k, x := ValueAmong(ks.rest, now);
      FindKeySet(ks.rest, k);
    } else {
      k := ks.key;
      x := ValueBelow(ks.sub, now);
    }
  }

  /** A subtree is barren exactly when no path into it finds a live value. */
  lemma BarrenIff<R>(t: Tree<R>, s: Path, now: Time)
    requires WellKeyed(t) && At(t, s).Some?
    ensures Barren(At(t, s).value, now) <==> !LeadsToValue(t, s, now)
  {
    var n := At(t, s).value;
    WellKeyedAt(t, s);
    if Barren(n, now) {
      forall x
        ensures Lookup(t, s + x, now).None?
      {
        AtThrough(t, s, x);
        BarrenReads(n, now, x, now);
      }
    } else {
      var x := ValueBelow(n, now);
      AtThrough(t, s, x);
    }
  }

  lemma {:induction false} BarrenAt<R>(t: Tree<R>, now: Time, p: Path)
    requires Barren(t, now) && At(t, p).Some?
    ensures Barren(At(t, p).value, now)
    decreases p
  {
    if p != [] {
      BarrenFind(KidsOf(t), p[0], now);
      BarrenAt(Child(t, p[0]).value, now, p[1..]);
    }
  }

  /** The node `m` is what pruning leaves of the node `n`: only a live value, with its deadline, and of the children in
      their order those of the keys `kept`; a children object all of whose children go is gone too. */
  predicate Remains<R(==)>(n: Tree<R>, m: Tree<R>, kept: set<Key>, now: Time)
  {
    && m.value == Live(n, now) && m.deadline == (if Live(n, now).Some? then n.deadline else None)
    && KeyList(KidsOf(m)) == Keep(KeyList(KidsOf(n)), kept)
    && (m.children.None? <==> n.children.None? || (n.children.value != End && KidsOf(m) == End))
  }

  /** The children of the node at `s` that lead to a live value. */
  ghost function FruitfulKeys<R>(t: Tree<R>, s: Path, now: Time): set<Key>
    requires At(t, s).Some?
  {
    set k | k in KeyList(KidsOf(At(t, s).value)) && LeadsToValue(t, s + [k], now)
  }

  lemma {:induction false} PruneKidsKeep<R>(ks: Kids<R>, kept: set<Key>, now: Time)
    requires WellKeyedKids(ks) && forall k :: Find(ks, k).Some? ==> (k in kept <==> !Barren(Find(ks, k).value, now))
    ensures KeyList(PruneKids(ks, now)) == Keep(KeyList(ks), kept)
    ensures PruneKids(ks, now) == End <==> BarrenKids(ks, now)
  {
    match ks
    case End =>
    case Entry(key, sub, rest) =>
      assert Find(ks, key) == Some(sub);
      forall k | Find(rest, k).Some?
        ensures k in kept <==> !Barren(Find(rest, k).value, now)
      {
        FindKeySet(rest, k);
        assert Find(ks, k) == Find(rest, k);
      }
      PruneKidsKeep(rest, kept, now);
  }

  lemma PruneRemains<R>(t: Tree<R>, s: Path, now: Time)
    requires WellKeyed(t) && At(t, s).Some?
    ensures Remains(At(t, s).value, Prune(At(t, s).value, now), FruitfulKeys(t, s, now), now)
  {
    var n := At(t, s).value;
    var ks, kept := KidsOf(n), FruitfulKeys(t, s, now);
    WellKeyedAt(t, s);
    forall k | Find(ks, k).Some?
      ensures k in kept <==> !Barren(Find(ks, k).value, now)
    {
      FindKeySet(ks, k);
      KeyListIsKeySet(ks, k);
      AtSnoc(t, s, k);
      BarrenIff(t, s + [k], now);
    }
    PruneKidsKeep(ks, kept, now);
  }

  lemma {:induction false} PruneAt<R>(t: Tree<R>, now: Time, s: Path)
    requires WellKeyed(t)
    ensures At(Prune(t, now), s) ==
            if At(t, s).Some? && (s == [] || !Barren(At(t, s).value, now)) then Some(Prune(At(t, s).value, now)) else None
    decreases s
  {
    if s != [] {
      var ks := KidsOf(t);
      FindPruned(ks, s[0], now);
      var sub := Child(t, s[0]);
      if sub.Some? {
        WellKeyedFind(ks, s[0]);
        if BarrenKids(ks, now) {
          BarrenFind(ks, s[0], now);
        }
        if !Barren(sub.value, now) {
          PruneAt(sub.value, now, s[1..]);
        } else if At(t, s).Some? {
          BarrenAt(sub.value, now, s[1..]);
        }
      }
    }
  }

  lemma PruneRootAt<R>(t: Tree<R>, hasParent: bool, now: Time, s: Path)
    requires WellKeyed(t) && (hasParent || s != [])
    ensures At(PruneRoot(t, hasParent, now), s) ==
            if At(t, s).Some? && (s == [] || (!hasParent && |s| == 1) || !Barren(At(t, s).value, now))
            then Some(Prune(At(t, s).value, now)) else None
  {
    if hasParent {
      PruneAt(t, now, s);
    } else if t.children.Some? {
      FindPrunedEach(t.children.value, s[0], now);
      if Child(t, s[0]).Some? {
        WellKeyedFind(t.children.value, s[0]);
        PruneAt(Child(t, s[0]).value, now, s[1..]);
      }
    }
  }

  /** Exactly what `pruneTree` leaves, path by path: a visited node other than the root (given a parent reference) or a
      first level child (without one) stays if and only if it leads to a live value, and every visited node that stays
      keeps nothing but its live value, with its deadline, and the children that stay. */
  lemma PruneExact<R>(t: Tree<R>, hasParent: bool, now: Time, s: Path)
    requires WellKeyed(t) && (hasParent || s != [])
    ensures
      var m := At(PruneRoot(t, hasParent, now), s);
      && (m.Some? <==> At(t, s).Some? && (s == [] || (!hasParent && |s| == 1) || LeadsToValue(t, s, now)))
      && (m.Some? ==> m.value.value == Lookup(t, s, now) && Remains(At(t, s).value, m.value, FruitfulKeys(t, s, now), now))
  {
    PruneRootAt(t, hasParent, now, s);
    if At(t, s).Some? {
      BarrenIff(t, s, now);
      PruneRemains(t, s, now);
    }
  }

  // ----- exactly when a change is reported

  lemma {:induction false} DeadNode<R>(t: Tree<R>, now: Time) returns (s: Path)
    requires WellKeyed(t) && !AllLive(t, now)
    ensures At(t, s).Some? && Lookup(t, s, now).None?
    decreases t
  {
    s := [];
    if Live(t, now).Some? {
      var k, x := DeadAmong(t.children.value, now);
      s := [k] + x;
      assert s[1..] == x;
    }
  }

  lemma {:induction false} DeadAmong<R>(ks: Kids<R>, now: Time) returns (k: Key, s: Path)
    requires WellKeyedKids(ks) && !AllLiveKids(ks, now)
    ensures Find(ks, k).Some? && At(Find(ks, k).value, s).Some? && Lookup(Find(ks, k).value, s, now).None?
    decreases ks
  {
    if AllLive(ks.sub, now) {
      k, s := DeadAmong(ks.rest, now);
      FindKeySet(ks.rest, k);
    } else {
      k := ks.key;
      s := DeadNode(ks.sub, now);
    }
  }

  lemma {:induction false} LiveEverywhere<R>(t: Tree<R>, now: Time, s: Path)
    requires AllLive(t, now) && At(t, s).Some?
    ensures Lookup(t, s, now).Some?
    decreases s
  {
    if s != [] {
      LiveFind(KidsOf(t), s[0], now);
      LiveEverywhere(Child(t, s[0]).value, now, s[1..]);
    }
  }

  lemma {:induction false} LiveFind<R>(ks: Kids<R>, k: Key, now: Time)
    requires AllLiveKids(ks, now) && Find(ks, k).Some?
    ensures AllLive(Find(ks, k).value, now)
  {
    if ks.key != k {
      LiveFind(ks.rest, k, now);
    }
  }

  /** `pruneTree` returns `true` exactly when some visited node has no live value. */
  lemma PruneReportsIff<R>(t: Tree<R>, hasParent: bool, now: Time)
    requires WellKeyed(t)
    ensures PruneReports(t, hasParent, now) <==>
            exists s :: (hasParent || s != []) && At(t, s).Some? && Lookup(t, s, now).None?
  {
    if PruneReports(t, hasParent, now) {
      var s: Path;
      if hasParent {
        s := DeadNode(t, now);
      } else {
        var k, x := DeadAmong(KidsOf(t), now);
        s := [k] + x;
        assert s[1..] == x;
      }
      assert (hasParent || s != []) && At(t, s).Some? && Lookup(t, s, now).None?;
    }
    if s :| (hasParent || s != []) && At(t, s).Some? && Lookup(t, s, now).None? {
      if hasParent {
        if AllLive(t, now) {
          LiveEverywhere(t, now, s);
        }
      } else if AllLiveKids(KidsOf(t), now) {
        LiveFind(KidsOf(t), s[0], now);
        LiveEverywhere(Child(t, s[0]).value, now, s[1..]);
      }
    }
  }
}

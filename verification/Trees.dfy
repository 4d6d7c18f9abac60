/** Trees as the cache keeps them: a value, a deadline and keyed children.
    Children are listed in the order a `for ... in` loop visits them. */
module Trees {
  import opened Wrappers
  import opened Keys

  /** Milliseconds on the clock, as `Date.now()` returns them. */
  type Time = nat

  datatype Tree<R> = Tree(value: Option<R>, deadline: Option<int>, children: Option<Kids<R>>)

  datatype Kids<R> = End | Entry(key: Key, sub: Tree<R>, rest: Kids<R>)

  /** The tree `{}`. */
  function Blank<R>(): Tree<R>
  {
    Tree(None, None, None)
  }

  /** A deadline of zero is falsy, so it counts as no deadline. */
  predicate Expired(deadline: Option<int>, now: Time)
  {
    deadline.Some? && deadline.value != 0 && deadline.value <= now
  }

  /** `getTreeCurrentSerializedValue`: the value, unless its deadline has passed. */
  function Live<R>(t: Tree<R>, now: Time): Option<R>
  {
    if Expired(t.deadline, now) then None else t.value
  }

  // ----- children

  function KidsOf<R>(t: Tree<R>): Kids<R>
  {
    if t.children.Some? then t.children.value else End
  }

  function Find<R>(ks: Kids<R>, k: Key): Option<Tree<R>>
  {
    match ks
    case End => None
    case Entry(key, sub, rest) => if key == k then Some(sub) else Find(rest, k)
  }

  /** `children[k] = t`: replaces in place, or adds after the existing keys. */
  function Put<R>(ks: Kids<R>, k: Key, t: Tree<R>): Kids<R>
  {
    match ks
    case End => Entry(k, t, End)
    case Entry(key, sub, rest) => if key == k then Entry(key, t, rest) else Entry(key, sub, Put(rest, k, t))
  }

  function Child<R>(t: Tree<R>, k: Key): Option<Tree<R>>
  {
    Find(KidsOf(t), k)
  }

  function PutChild<R>(t: Tree<R>, k: Key, c: Tree<R>): Tree<R>
  {
    t.(children := Some(Put(KidsOf(t), k, c)))
  }

  function KeySet<R>(ks: Kids<R>): set<Key>
  {
    match ks
    case End => {}
    case Entry(key, _, rest) => {key} + KeySet(rest)
  }

  /** An object has each key once, at every level. */
  predicate WellKeyed<R>(t: Tree<R>)
  {
    t.children.Some? ==> WellKeyedKids(t.children.value)
  }

  predicate WellKeyedKids<R>(ks: Kids<R>)
  {
    match ks
    case End => true
    case Entry(key, sub, rest) => key !in KeySet(rest) && WellKeyed(sub) && WellKeyedKids(rest)
  }

  lemma {:induction false} FindPut<R>(ks: Kids<R>, k: Key, t: Tree<R>, j: Key)
    ensures Find(Put(ks, k, t), j) == if j == k then Some(t) else Find(ks, j)
  {
    match ks
    case End =>
    case Entry(key, sub, rest) => FindPut(rest, k, t, j);
  }

  lemma {:induction false} PutFound<R>(ks: Kids<R>, k: Key)
    requires Find(ks, k).Some?
    ensures Put(ks, k, Find(ks, k).value) == ks
  {
    if ks.key != k {
      PutFound(ks.rest, k);
    }
  }

  lemma {:induction false} PutPut<R>(ks: Kids<R>, k: Key, t: Tree<R>, u: Tree<R>)
    ensures Put(Put(ks, k, t), k, u) == Put(ks, k, u)
  {
    match ks
    case End =>
    case Entry(key, sub, rest) => PutPut(rest, k, t, u);
  }

  lemma {:induction false} FindKeySet<R>(ks: Kids<R>, k: Key)
    ensures Find(ks, k).Some? <==> k in KeySet(ks)
  {
    match ks
    case End =>
    case Entry(key, sub, rest) => FindKeySet(rest, k);
  }

  lemma {:induction false} PutWellKeyed<R>(ks: Kids<R>, k: Key, t: Tree<R>)
    requires WellKeyedKids(ks) && WellKeyed(t)
    ensures WellKeyedKids(Put(ks, k, t)) && KeySet(Put(ks, k, t)) == KeySet(ks) + {k}
  {
    match ks
    case End =>
    case Entry(key, sub, rest) => PutWellKeyed(rest, k, t);
  }

  /** The keys in the order a `for ... in` loop visits them. */
  function KeyList<R>(ks: Kids<R>): seq<Key>
  {
    match ks
    case End => []
    case Entry(key, _, rest) => [key] + KeyList(rest)
  }

  /** Assigning to a key keeps the order of the keys; a new key comes last. */
  lemma {:induction false} PutKeyList<R>(ks: Kids<R>, k: Key, t: Tree<R>)
    ensures KeyList(Put(ks, k, t)) == if k in KeyList(ks) then KeyList(ks) else KeyList(ks) + [k]
  {
    match ks
    case End =>
    case Entry(key, sub, rest) =>
      PutKeyList(rest, k, t);
      if key != k && k !in KeyList(rest) {
        assert [key] + (KeyList(rest) + [k]) == ([key] + KeyList(rest)) + [k];
      }
  }

  /** The keys of the list that are in the set, in the order of the list. */
  function Keep(keys: seq<Key>, kept: set<Key>): seq<Key>
  {
    if keys == [] then [] else (if keys[0] in kept then [keys[0]] else []) + Keep(keys[1..], kept)
  }

  lemma {:induction false} KeyListIsKeySet<R>(ks: Kids<R>, k: Key)
    ensures k in KeyList(ks) <==> k in KeySet(ks)
  {
    match ks
    case End =>
    case Entry(_, _, rest) => KeyListIsKeySet(rest, k);
  }

  lemma {:induction false} WellKeyedFind<R>(ks: Kids<R>, k: Key)
    requires WellKeyedKids(ks) && Find(ks, k).Some?
    ensures WellKeyed(Find(ks, k).value)
  {
    if ks.key != k {
      WellKeyedFind(ks.rest, k);
    }
  }

  // ----- descending a path

  /** The node at path `p` below `t`. */
  function At<R>(t: Tree<R>, p: Path): Option<Tree<R>>
    decreases p
  {
    if p == [] then Some(t)
    else
      match Child(t, p[0])
      case None => None
      case Some(c) => At(c, p[1..])
  }

  /** What a reader finds at path `p` at time `now`. */
  function Lookup<R>(t: Tree<R>, p: Path, now: Time): Option<R>
  {
    match At(t, p)
    case None => None
    case Some(n) => Live(n, now)
  }

  lemma {:induction false} WellKeyedAt<R>(t: Tree<R>, p: Path)
    requires WellKeyed(t) && At(t, p).Some?
    ensures WellKeyed(At(t, p).value)
    decreases p
  {
    if p != [] {
      WellKeyedFind(KidsOf(t), p[0]);
      WellKeyedAt(Child(t, p[0]).value, p[1..]);
    }
  }

  lemma BlankReads<R>(s: Path, now: Time)
    ensures Lookup(Blank<R>(), s, now) == None
  {
  }

  /** The tree in which the node at `p` is `n`: an assignment through a reference to that node. */
  function ReplaceAt<R>(t: Tree<R>, p: Path, n: Tree<R>): Tree<R>
    requires At(t, p).Some?
    decreases p
  {
    if p == [] then n
    else PutChild(t, p[0], ReplaceAt(Child(t, p[0]).value, p[1..], n))
  }

  lemma {:induction false} AtReplaced<R>(t: Tree<R>, p: Path, n: Tree<R>)
    requires At(t, p).Some?
    ensures At(ReplaceAt(t, p, n), p) == Some(n)
    decreases p
  {
    if p != [] {
      AtReplaced(Child(t, p[0]).value, p[1..], n);
      FindPut(KidsOf(t), p[0], ReplaceAt(Child(t, p[0]).value, p[1..], n), p[0]);
    }
  }

  lemma {:induction false} ReplaceSame<R>(t: Tree<R>, p: Path)
    requires At(t, p).Some?
    ensures ReplaceAt(t, p, At(t, p).value) == t
    decreases p
  {
    if p != [] {
      ReplaceSame(Child(t, p[0]).value, p[1..]);
      PutFound(KidsOf(t), p[0]);
    }
  }

  lemma {:induction false} ReplaceTwice<R>(t: Tree<R>, p: Path, n: Tree<R>, m: Tree<R>)
    requires At(t, p).Some?
    ensures At(ReplaceAt(t, p, n), p).Some?
    ensures ReplaceAt(ReplaceAt(t, p, n), p, m) == ReplaceAt(t, p, m)
    decreases p
  {
    AtReplaced(t, p, n);
    if p != [] {
      var c := Child(t, p[0]).value;
      var c' := ReplaceAt(c, p[1..], n);
      ReplaceTwice(c, p[1..], n, m);
      FindPut(KidsOf(t), p[0], c', p[0]);
      PutPut(KidsOf(t), p[0], c', ReplaceAt(c, p[1..], m));
    }
  }

  lemma {:induction false} AtSnoc<R>(t: Tree<R>, p: Path, k: Key)
    requires At(t, p).Some?
    ensures At(t, p + [k]) == Child(At(t, p).value, k)
    decreases p
  {
    if p == [] {
      var q := [k];
      assert p + [k] == q;
      assert q[1..] == [];
    } else {
      AtSnoc(Child(t, p[0]).value, p[1..], k);
      assert (p + [k])[1..] == p[1..] + [k];
    }
  }

  lemma {:induction false} AtThrough<R>(t: Tree<R>, p: Path, q: Path)
    ensures At(t, p + q) == if At(t, p).Some? then At(At(t, p).value, q) else None
    decreases p
  {
    if p == [] {
      assert p + q == q;
    } else {
      assert (p + q)[1..] == p[1..] + q;
      if Child(t, p[0]).Some? {
        AtThrough(Child(t, p[0]).value, p[1..], q);
      }
    }
  }

  /** Writing to a child is writing that child into its parent. */
  lemma {:induction false} ReplaceSnoc<R>(t: Tree<R>, p: Path, k: Key, n: Tree<R>)
    requires At(t, p + [k]).Some?
    ensures At(t, p).Some?
    ensures ReplaceAt(t, p + [k], n) == ReplaceAt(t, p, PutChild(At(t, p).value, k, n))
    decreases p
  {
    if p == [] {
      assert p + [k] == [k];
      assert [k][1..] == [];
    } else {
      assert (p + [k])[1..] == p[1..] + [k];
      ReplaceSnoc(Child(t, p[0]).value, p[1..], k, n);
    }
  }

  /** Assigning to the node under the cursor and then to its child is one assignment to the node. */
  lemma StepDown<R>(root: Tree<R>, cursor: Path, node: Tree<R>, key: Key, next: Tree<R>, final: Tree<R>)
    requires At(root, cursor).Some?
    ensures
      var root' := ReplaceAt(root, cursor, PutChild(node, key, next));
      && At(root', cursor + [key]) == Some(next)
      && ReplaceAt(root', cursor + [key], final) == ReplaceAt(root, cursor, PutChild(node, key, final))
  {
    var mid := PutChild(node, key, next);
    var root' := ReplaceAt(root, cursor, mid);
    AtReplaced(root, cursor, mid);
    AtSnoc(root', cursor, key);
    FindPut(KidsOf(node), key, next, key);
    ReplaceSnoc(root', cursor, key, final);
    PutPut(KidsOf(node), key, next, final);
    ReplaceTwice(root, cursor, mid, PutChild(mid, key, final));
  }
}

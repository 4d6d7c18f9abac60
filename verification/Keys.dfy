/** Storage keys: `buildKey`, `splitKey` and `getChainedKey`.
    A node is named by its path; its storage key is the path joined with ':'. */
module Keys {
  import opened Wrappers

  type Key = string
  type Path = seq<Key>

  /** A node reference: its own key, its level and the chain of its parents. */
  datatype Chained = Chained(key: Key, level: nat, parentRef: Option<Chained>)

  /** The keys met from the root down to `node`. */
  function ChainPath(node: Chained): Path
  {
    match node.parentRef
    case None => [node.key]
    case Some(parent) => ChainPath(parent) + [node.key]
  }

  /** `keys.join(':')`. */
  function Join(p: Path): string
  {
    if p == [] then ""
    else if |p| == 1 then p[0]
    else Join(p[..|p| - 1]) + ":" + p[|p| - 1]
  }

  /** `key.split(':')`; the empty string splits into one empty piece. */
  function Split(s: string): (r: Path)
    ensures r != []
  {
    if s == "" then [""]
    else
      var rest := Split(s[1..]);
      if s[0] == ':' then [""] + rest else [[s[0]] + rest[0]] + rest[1..]
  }

  predicate ColonFree(p: Path)
  {
    forall i :: 0 <= i < |p| ==> ':' !in p[i]
  }

  /** The keys that are joined to the storage key that holds a path: its own, or that of its tree. */
  function Holder(K: nat, p: Path): Path
  {
    if |p| < K then p else p[..K]
  }

  /** Paths for which the chained key, the joined key and the split agree. Keys below level K may hold
      anything, because they are never joined. */
  predicate ValidPath(K: nat, p: Path)
  {
    p != [] && p[0] != "" && ColonFree(Holder(K, p))
  }

  /** `getChainedKey`: the key at `level` appended to the chain built so far. An empty
      chain counts as no chain, because the source tests it for truthiness. */
  function GetChainedKey(keys: Path, level: nat, chainedKey: Option<string>): (r: Result<(string, Key)>)
  {
    if level >= |keys| then Err("Undefined key at position")
    else
      var key := keys[level];
      if chainedKey.Some? && chainedKey.value != "" then Ok((chainedKey.value + ":" + key, key))
      else Ok((key, key))
  }

  /** The chain after feeding every key of `p` to `GetChainedKey`. */
  function ChainedKey(p: Path): (r: Option<string>)
    ensures r.None? <==> p == []
  {
    if p == [] then None
    else
      Some(GetChainedKey(p, |p| - 1, ChainedKey(p[..|p| - 1])).value.0)
  }

  // ----- joining from the front

  lemma {:induction false} JoinCons(k: Key, p: Path)
    requires p != []
    ensures Join([k] + p) == k + ":" + Join(p)
  {
    var s := [k] + p;
    assert s[..|s| - 1] == [k] + p[..|p| - 1];
    if |p| == 1 {
      assert s[..1] == [k];
      assert Join([k]) == k;
    } else {
      JoinCons(k, p[..|p| - 1]);
    }
  }

  lemma {:induction false} SplitPieces(s: string)
    ensures ColonFree(Split(s))
  {
    if s != "" {
      SplitPieces(s[1..]);
    }
  }

  lemma {:induction false} SplitPlain(s: string)
    requires ':' !in s
    ensures Split(s) == [s]
  {
    if s != "" {
      SplitPlain(s[1..]);
      assert [s[0]] + s[1..] == s;
    }
  }

  lemma {:induction false} SplitCons(k: Key, s: string)
    requires ':' !in k
    ensures Split(k + ":" + s) == [k] + Split(s)
  {
    var w := k + ":" + s;
    if k == "" {
      assert w[1..] == s;
    } else {
      assert w[1..] == k[1..] + ":" + s;
      SplitCons(k[1..], s);
      assert Split(w) == [[k[0]] + k[1..]] + Split(s);
      assert [k[0]] + k[1..] == k;
    }
  }

  // ----- the two round trips

  /** A character put before the first piece is put before the joined string. */
  lemma JoinGrown(c: char, p: Path)
    requires p != []
    ensures Join([[c] + p[0]] + p[1..]) == [c] + Join(p)
  {
    var head := [c] + p[0];
    if |p| == 1 {
      assert [head] + p[1..] == [head];
    } else {
      assert p == [p[0]] + p[1..];
      JoinCons(p[0], p[1..]);
      JoinCons(head, p[1..]);
    }
  }

  /** `buildKey(splitKey(s)) == s` for every string. */
  lemma {:induction false} JoinSplit(s: string)
    ensures Join(Split(s)) == s
  {
    if s != "" {
      JoinSplit(s[1..]);
      assert s == [s[0]] + s[1..];
      if s[0] == ':' {
        JoinCons("", Split(s[1..]));
      } else {
        JoinGrown(s[0], Split(s[1..]));
      }
    }
  }

  lemma {:induction false} SplitJoinOfColonFree(p: Path)
    requires p != [] && ColonFree(p)
    ensures Split(Join(p)) == p
  {
    if |p| == 1 {
      SplitPlain(p[0]);
      assert p == [p[0]];
    } else {
      assert p == [p[0]] + p[1..];
      JoinCons(p[0], p[1..]);
      SplitCons(p[0], Join(p[1..]));
      SplitJoinOfColonFree(p[1..]);
    }
  }

  /** `splitKey(buildKey(p))` gives back `p` exactly when `p` has a key and no key holds the separator. */
  lemma SplitJoin(p: Path)
    ensures Split(Join(p)) == p <==> p != [] && ColonFree(p)
  {
    if p != [] && ColonFree(p) {
      SplitJoinOfColonFree(p);
    } else if Split(Join(p)) == p {
      SplitPieces(Join(p));
    }
  }

  /** No two nodes share a storage key: in particular a memoized step (a path shorter
      than the key level) never answers for a memoized tree (a path of that length). */
  lemma JoinInjective(p: Path, q: Path)
    requires p != [] && q != [] && ColonFree(p) && ColonFree(q)
    ensures Join(p) == Join(q) <==> p == q
  {
    SplitJoinOfColonFree(p);
    SplitJoinOfColonFree(q);
  }

  // ----- the incremental form

  lemma {:induction false} ChainedKeyLength(p: Path)
    requires p != []
    ensures |ChainedKey(p).value| <= |Join(p)|
    ensures |p| >= 2 && p[0] == "" ==> |ChainedKey(p).value| < |Join(p)|
    ensures |p| == 1 || p[0] != "" ==> ChainedKey(p).value == Join(p)
    ensures p[0] != "" ==> Join(p) != ""
  {
    if |p| >= 2 {
      ChainedKeyLength(p[..|p| - 1]);
    }
  }

  /** The chained key is the joined key exactly when the first key is not an empty prefix of more keys. */
  lemma ChainedKeyIsJoin(p: Path)
    requires p != []
    ensures ChainedKey(p) == Some(Join(p)) <==> |p| == 1 || p[0] != ""
  {
    ChainedKeyLength(p);
  }

  // ----- buildKey on a parent chain

  function Reversed(p: Path): Path
  {
    if p == [] then [] else Reversed(p[1..]) + [p[0]]
  }

  lemma {:induction false} ReversedSnoc(p: Path, k: Key)
    ensures Reversed(p + [k]) == [k] + Reversed(p)
  {
    if p == [] {
      assert p + [k] == [k];
    } else {
      assert (p + [k])[1..] == p[1..] + [k];
      ReversedSnoc(p[1..], k);
    }
  }

  /** `buildKey` of a node reference: walk to the root collecting keys, reverse, join. */
  method BuildKey(nodeRef: Chained) returns (s: string)
    ensures s == Join(ChainPath(nodeRef))
  {
    var keys := [nodeRef.key];
    var parent := nodeRef.parentRef;
    while parent.Some?
      invariant ChainPath(nodeRef) == (if parent.Some? then ChainPath(parent.value) else []) + Reversed(keys)
      decreases parent
    {
      ReversedSnoc(keys, parent.value.key);
      keys := keys + [parent.value.key];
      parent := parent.value.parentRef;
    }
    assert ChainPath(nodeRef) == Reversed(keys);
    s := Join(Reversed(keys));
  }
}

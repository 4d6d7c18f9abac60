/** `setNode` passes the length of its path as `minLevelSemaphore`, so it takes a lock only when its path ends
    at the key level, and then that of its tree key. Concurrent `setNode` calls of new values keep all of them
    exactly when no two of them write one tree. */
module SetNodeRace {
  import opened Wrappers
  import opened Keys
  import opened Trees
  import opened HybridStore
  import opened PathMap
  import opened ReadBack
  import opened FullTreeSets
  import opened Locking
  import opened Segments

  /** Exactly when a segment of a `setNode` call is locked. */
  lemma SetNodeTakesLock<V(!new), R(!new)>(sys: System<V, R>, c: nat, i: nat)
    requires sys.K >= 2 && sys.IsCall(c) && i < sys.Segments(c)
    requires sys.calls[c].minLevelSemaphore == |sys.calls[c].path|
    ensures sys.TakesLock(c, i) <==> i + 1 == sys.K == |sys.calls[c].path|
  {
  }

  // ----- a system of setNode calls

  /** The call is an untimed `setNode` of this value. */
  ghost predicate Sets<V(!new)>(call: Call<V>, v: V)
  {
    && call.minLevelSemaphore == |call.path| && Untimed(call)
    && (forall q :: call.create(q) == None)
    && (forall q, current :: call.edit(q, current) == if |q| == |call.path| then Some(v) else current)
  }

  /** Call `c` sets `values[c]`. */
  ghost predicate SetSystem<V(!new), R(!new)>(sys: System<V, R>, values: seq<V>)
  {
    && sys.codec.Lawful() && sys.Valid() && |values| == |sys.calls|
    && forall c :: 0 <= c < |values| ==> Sets(sys.calls[c], values[c])
  }

  /** The keys of the call's path that are joined to the key its value is stored under. */
  function Held<V(!new), R(!new)>(sys: System<V, R>, c: nat): Path
    requires sys.IsCall(c)
  {
    Holder(sys.K, sys.calls[c].path)
  }

  lemma SegmentKeyIs<V(!new), R(!new)>(sys: System<V, R>, c: nat, i: nat)
    requires sys.Valid() && sys.IsCall(c) && i < sys.Segments(c)
    ensures sys.SegmentKey(c, i) == Join(sys.calls[c].path[..i + 1]) && ColonFree(sys.calls[c].path[..i + 1])
    ensures i + 1 == sys.Segments(c) ==> sys.calls[c].path[..i + 1] == Held(sys, c)
    ensures sys.Segments(c) == |Held(sys, c)| && ColonFree(Held(sys, c)) && Held(sys, c) != []
  {
    PrefixKey(sys.K, sys.calls[c].path, i + 1);
    if |sys.calls[c].path| < sys.K {
      assert sys.calls[c].path[..|sys.calls[c].path|] == sys.calls[c].path;
    }
  }

  /** The key the call stores its value under. */
  function OwnKey<V(!new), R(!new)>(sys: System<V, R>, c: nat): string
    requires sys.IsCall(c)
  {
    Join(Held(sys, c))
  }

  /** The storage if the last segment of the call were done on `st` alone. */
  ghost function Alone<V(!new), R(!new)>(sys: System<V, R>, st: Storage<R>, c: nat): Storage<R>
    requires sys.Valid() && sys.IsCall(c)
  {
    SegmentKeyIs(sys, c, sys.Segments(c) - 1);
    sys.SegmentStep(st, c, sys.Segments(c) - 1)
  }

  /** What the call finds under its own key in `st`. */
  function Found<V(!new), R(!new)>(sys: System<V, R>, st: Storage<R>, c: nat): Option<R>
    requires sys.IsCall(c)
  {
    StorageGet(st, OwnKey(sys, c), sys.calls[c].now)
  }

  /** Nothing stored expires, and the key level nodes that calls pass hold what their values serialize to. */
  ghost predicate Settled<V(!new), R(!new)>(sys: System<V, R>, st: Storage<R>)
  {
    && Timeless(sys.codec, sys.K, st)
    && forall c, i :: 0 <= c < |sys.calls| && 0 <= i && i + 1 < sys.Segments(c) ==>
         Steady(sys.codec, StorageGet(st, sys.SegmentKey(c, i), sys.calls[c].now))
  }

  lemma AloneReadsNow<V(!new), R(!new)>(sys: System<V, R>, values: seq<V>, st: Storage<R>, c: nat, q: Path)
    requires SetSystem(sys, values) && sys.IsCall(c) && ValidPath(sys.K, q) && Holder(sys.K, q) == Held(sys, c)
    ensures Read(sys.codec, sys.K, Alone(sys, st, c), q, sys.calls[c].now) ==
            if q == sys.calls[c].path then Some(values[c]) else Read(sys.codec, sys.K, st, q, sys.calls[c].now)
  {
    var call := sys.calls[c];
    assert Sets(call, values[c]);
    SegmentKeyIs(sys, c, sys.Segments(c) - 1);
    SegmentReads(sys, st, c, sys.Segments(c) - 1, q);
    if |q| >= sys.K {
      assert q == q[..sys.K] + q[sys.K..] && call.path == call.path[..sys.K] + call.path[sys.K..];
    }
  }

  /** What readers find of a path held under the call's key, when the call alone has stored its value. */
  lemma AloneReads<V(!new), R(!new)>(sys: System<V, R>, values: seq<V>, st: Storage<R>, c: nat, q: Path, now: Time)
    requires SetSystem(sys, values) && Settled(sys, st) && sys.IsCall(c) && ValidPath(sys.K, q) && Holder(sys.K, q) == Held(sys, c)
    ensures Read(sys.codec, sys.K, Alone(sys, st, c), q, now) ==
            if q == sys.calls[c].path then Some(values[c]) else Read(sys.codec, sys.K, st, q, now)
  {
    AloneReadsNow(sys, values, st, c, q);
    SegmentKeyIs(sys, c, sys.Segments(c) - 1);
    assert Sets(sys.calls[c], values[c]);
    SegmentTimeless(sys, st, c, sys.Segments(c) - 1);
    TimelessReads(sys.codec, sys.K, st, q, sys.calls[c].now, now);
    TimelessReads(sys.codec, sys.K, Alone(sys, st, c), q, sys.calls[c].now, now);
  }

  /** The last segment, done on a storage with the same record under the call's key. */
  lemma OwnCommit<V(!new), R(!new)>(sys: System<V, R>, st: Storage<R>, storage: Storage<R>, c: nat)
    requires sys.Valid() && sys.IsCall(c) && SameRecord(storage, st, OwnKey(sys, c))
    ensures sys.Segments(c) > 0
    ensures SameRecord(sys.Commit(storage, c, sys.Segments(c) - 1, Found(sys, st, c)), Alone(sys, st, c), OwnKey(sys, c))
  {
    var i := sys.Segments(c) - 1;
    SegmentKeyIs(sys, c, i);
    CommitIsStep(sys, st, c, i);
    CommitLocal(sys, storage, st, c, i, Found(sys, st, c));
  }

  /** A key level node a call has set holds the bytes of its value. */
  lemma AloneIsSteady<V(!new), R(!new)>(sys: System<V, R>, values: seq<V>, st: Storage<R>, c: nat, now: Time)
    requires SetSystem(sys, values) && sys.IsCall(c) && |sys.calls[c].path| < sys.K
    ensures Steady(sys.codec, StorageGet(Alone(sys, st, c), OwnKey(sys, c), now))
  {
    var call := sys.calls[c];
    assert Sets(call, values[c]) && !Timed(call.ttl(call.path, Some(values[c])));
    SegmentKeyIs(sys, c, sys.Segments(c) - 1);
    BytesAfter(sys.codec, call, st, call.path, values[c]);
  }

  lemma BytesAfter<V(!new), R(!new)>(codec: Codec<V, R>, call: Call<V>, st: Storage<R>, q: Path, v: V)
    requires q != [] && forall current :: call.edit(q, current) == Some(v)
    ensures
      var key := ChainedKey(q).value;
      var after := KeyUpdate(codec, call, st, q);
      key in after && after[key].bytes == codec.serialize(v)
  {
  }

  // ----- calls on different keys keep out of each other's way

  /** No two calls are held under one key. */
  predicate Separate<V(!new), R(!new)>(sys: System<V, R>)
  {
    forall c, d :: 0 <= c < d < |sys.calls| ==> Held(sys, c) != Held(sys, d)
  }

  /** The call has stored its value. */
  predicate Stored<V(!new), R(!new)>(sys: System<V, R>, s: State<R>, c: nat)
    requires WellFormed(sys, s)
  {
    c < |s.phases| && Committed(s.phases[c]) == sys.Segments(c)
  }

  /** Under the key of a call that has stored its value there is what that call alone makes of `st`, and under all
      other keys what `st` has. */
  ghost predicate HoldsOwn<V(!new), R(!new)>(sys: System<V, R>, st: Storage<R>, s: State<R>)
    requires sys.Valid() && WellFormed(sys, s)
  {
    && (forall c: nat :: Stored(sys, s, c) ==> SameRecord(s.storage, Alone(sys, st, c), OwnKey(sys, c)))
    && (forall key :: (forall c: nat :: Stored(sys, s, c) ==> key != OwnKey(sys, c)) ==> SameRecord(s.storage, st, key))
  }

  /** A call has found under its own key what `st` has, and under the keys above bytes that re-encode. */
  ghost predicate CopiesOwn<V(!new), R(!new)>(sys: System<V, R>, st: Storage<R>, s: State<R>)
    requires WellFormed(sys, s)
  {
    forall c :: 0 <= c < |s.phases| && s.phases[c].Working? ==>
      if s.phases[c].segment + 1 == sys.Segments(c) then s.phases[c].base == Found(sys, st, c)
      else Steady(sys.codec, s.phases[c].base)
  }

  ghost predicate Undisturbed<V(!new), R(!new)>(sys: System<V, R>, st: Storage<R>, s: State<R>)
    requires sys.Valid()
  {
    WellFormed(sys, s) && HoldsOwn(sys, st, s) && CopiesOwn(sys, st, s)
  }

  lemma HeldApart<V(!new), R(!new)>(sys: System<V, R>, c: nat, d: nat)
    requires sys.Valid() && Separate(sys) && sys.IsCall(c) && sys.IsCall(d)
    ensures Join(Held(sys, c)) == Join(Held(sys, d)) <==> c == d
  {
    SegmentKeyIs(sys, c, sys.Segments(c) - 1);
    SegmentKeyIs(sys, d, sys.Segments(d) - 1);
    JoinInjective(Held(sys, c), Held(sys, d));
  }

  /** A key on the path of a call that holds another call's value holds it as bytes. */
  lemma FoundAbove<V(!new), R(!new)>(sys: System<V, R>, values: seq<V>, st: Storage<R>, c: nat, i: nat, d: nat, now: Time)
    requires SetSystem(sys, values) && Separate(sys) && sys.IsCall(c) && sys.IsCall(d) && i < sys.Segments(c)
    requires sys.SegmentKey(c, i) == OwnKey(sys, d) && c != d
    ensures i + 1 < sys.Segments(c) && Steady(sys.codec, StorageGet(Alone(sys, st, d), OwnKey(sys, d), now))
  {
    SegmentKeyIs(sys, c, i);
    HeldApart(sys, c, d);
    SegmentKeyIs(sys, d, sys.Segments(d) - 1);
    JoinInjective(sys.calls[c].path[..i + 1], Held(sys, d));
    AloneIsSteady(sys, values, st, d, now);
  }

  lemma OwnFetch<V(!new), R(!new)>(sys: System<V, R>, values: seq<V>, st: Storage<R>, s: State<R>, c: nat)
    requires SetSystem(sys, values) && Separate(sys) && Settled(sys, st) && Undisturbed(sys, st, s) && Enabled(sys, s, Fetch(c))
    ensures
      var i := s.phases[c].segment;
      var base := StorageGet(s.storage, sys.SegmentKey(c, i), sys.calls[c].now);
      if i + 1 == sys.Segments(c) then base == Found(sys, st, c) else Steady(sys.codec, base)
  {
    var i := s.phases[c].segment;
    var key := sys.SegmentKey(c, i);
    SegmentKeyIs(sys, c, i);
    if d: nat :| Stored(sys, s, d) && key == OwnKey(sys, d) {
      FoundAbove(sys, values, st, c, i, d, sys.calls[c].now);
    } else {
      assert SameRecord(s.storage, st, key);
      assert i + 1 < sys.Segments(c) ==> Steady(sys.codec, StorageGet(st, key, sys.calls[c].now));
    }
  }

  /** Above its own key a call writes nothing. */
  lemma AboveCommit<V(!new), R(!new)>(sys: System<V, R>, values: seq<V>, st: Storage<R>, c: nat, i: nat, base: Option<R>)
    requires SetSystem(sys, values) && sys.IsCall(c) && i + 1 < sys.Segments(c) && Steady(sys.codec, base)
    ensures sys.Commit(st, c, i, base) == st
  {
    assert Sets(sys.calls[c], values[c]);
  }

  lemma WriteStored<V(!new), R(!new)>(sys: System<V, R>, s: State<R>, c: nat)
    requires sys.K >= 2 && WellFormed(sys, s) && Enabled(sys, s, Write(c))
    ensures WellFormed(sys, Next(sys, s, Write(c)))
    ensures !Stored(sys, s, c) && (Stored(sys, Next(sys, s, Write(c)), c) <==> s.phases[c].segment + 1 == sys.Segments(c))
    ensures forall d: nat :: d != c ==> (Stored(sys, Next(sys, s, Write(c)), d) <==> Stored(sys, s, d))
  {
  }

  lemma WriteUndisturbed<V(!new), R(!new)>(sys: System<V, R>, values: seq<V>, st: Storage<R>, s: State<R>, c: nat)
    requires SetSystem(sys, values) && Separate(sys) && Settled(sys, st) && Undisturbed(sys, st, s) && Enabled(sys, s, Write(c))
    ensures Undisturbed(sys, st, Next(sys, s, Write(c)))
  {
    var s' := Next(sys, s, Write(c));
    var i := s.phases[c].segment;
    WriteStored(sys, s, c);
    if i + 1 < sys.Segments(c) {
      AboveCommit(sys, values, s.storage, c, i, s.phases[c].base);
      SameStored(sys, st, s, s');
    } else {
      OwnWritten(sys, st, s, s', c);
    }
    WriteCopies(sys, st, s, c);
  }

  lemma WriteCopies<V(!new), R(!new)>(sys: System<V, R>, st: Storage<R>, s: State<R>, c: nat)
    requires sys.K >= 2 && WellFormed(sys, s) && CopiesOwn(sys, st, s) && Enabled(sys, s, Write(c))
    ensures WellFormed(sys, Next(sys, s, Write(c))) && CopiesOwn(sys, st, Next(sys, s, Write(c)))
  {
  }

  lemma OwnWritten<V(!new), R(!new)>(sys: System<V, R>, st: Storage<R>, s: State<R>, s': State<R>, c: nat)
    requires sys.Valid() && Separate(sys) && WellFormed(sys, s) && WellFormed(sys, s') && HoldsOwn(sys, st, s)
    requires !Stored(sys, s, c) && Stored(sys, s', c) && forall d: nat :: d != c ==> (Stored(sys, s', d) <==> Stored(sys, s, d))
    requires s'.storage == sys.Commit(s.storage, c, sys.Segments(c) - 1, Found(sys, st, c))
    ensures HoldsOwn(sys, st, s')
  {
    var last := sys.Segments(c) - 1;
    SegmentKeyIs(sys, c, last);
    forall d: nat | Stored(sys, s, d)
      ensures OwnKey(sys, d) != OwnKey(sys, c)
    {
      HeldApart(sys, c, d);
    }
    OwnCommit(sys, st, s.storage, c);
    forall key | key != OwnKey(sys, c)
      ensures SameRecord(s'.storage, s.storage, key)
    {
      CommitFrame(sys, s.storage, c, last, Found(sys, st, c), key);
    }
    OthersKept(sys, st, s, s', c);
  }

  lemma OthersKept<V(!new), R(!new)>(sys: System<V, R>, st: Storage<R>, s: State<R>, s': State<R>, c: nat)
    requires sys.Valid() && WellFormed(sys, s) && WellFormed(sys, s') && HoldsOwn(sys, st, s) && sys.IsCall(c)
    requires forall d: nat :: d != c ==> (Stored(sys, s', d) <==> Stored(sys, s, d))
    requires !Stored(sys, s, c) && Stored(sys, s', c)
    requires forall d: nat :: Stored(sys, s, d) ==> OwnKey(sys, d) != OwnKey(sys, c)
    requires SameRecord(s'.storage, Alone(sys, st, c), OwnKey(sys, c))
    requires forall key :: key != OwnKey(sys, c) ==> SameRecord(s'.storage, s.storage, key)
    ensures HoldsOwn(sys, st, s')
  {
    forall key | forall d: nat :: Stored(sys, s', d) ==> key != OwnKey(sys, d)
      ensures SameRecord(s'.storage, st, key)
    {
      assert SameRecord(s'.storage, s.storage, key);
      assert SameRecord(s.storage, st, key) by {
        forall d: nat | Stored(sys, s, d)
          ensures key != OwnKey(sys, d)
        {
          assert Stored(sys, s', d);
        }
      }
    }
    forall d: nat | Stored(sys, s', d)
      ensures SameRecord(s'.storage, Alone(sys, st, d), OwnKey(sys, d))
    {
      if d != c {
        assert SameRecord(s'.storage, s.storage, OwnKey(sys, d));
      }
    }
  }

  /** Where the same calls have stored their values in the same storage, it holds the same records. */
  lemma SameStored<V(!new), R(!new)>(sys: System<V, R>, st: Storage<R>, s: State<R>, s': State<R>)
    requires sys.Valid() && WellFormed(sys, s) && WellFormed(sys, s') && HoldsOwn(sys, st, s)
    requires s'.storage == s.storage && forall c: nat :: Stored(sys, s', c) <==> Stored(sys, s, c)
    ensures HoldsOwn(sys, st, s')
  {
  }

  lemma QuietStored<V(!new), R(!new)>(sys: System<V, R>, s: State<R>, a: Action)
    requires sys.K >= 2 && WellFormed(sys, s) && Enabled(sys, s, a) && !a.Write?
    ensures WellFormed(sys, Next(sys, s, a)) && Next(sys, s, a).storage == s.storage
    ensures forall c: nat :: Stored(sys, Next(sys, s, a), c) <==> Stored(sys, s, c)
  {
  }

  lemma QuietCopies<V(!new), R(!new)>(sys: System<V, R>, st: Storage<R>, s: State<R>, a: Action)
    requires sys.K >= 2 && WellFormed(sys, s) && CopiesOwn(sys, st, s) && Enabled(sys, s, a) && !a.Write? && !a.Fetch?
    ensures WellFormed(sys, Next(sys, s, a)) && CopiesOwn(sys, st, Next(sys, s, a))
  {
  }

  lemma FetchCopies<V(!new), R(!new)>(sys: System<V, R>, values: seq<V>, st: Storage<R>, s: State<R>, c: nat)
    requires SetSystem(sys, values) && Separate(sys) && Settled(sys, st) && Undisturbed(sys, st, s) && Enabled(sys, s, Fetch(c))
    ensures WellFormed(sys, Next(sys, s, Fetch(c))) && CopiesOwn(sys, st, Next(sys, s, Fetch(c)))
  {
    OwnFetch(sys, values, st, s, c);
  }

  lemma NextUndisturbed<V(!new), R(!new)>(sys: System<V, R>, values: seq<V>, st: Storage<R>, s: State<R>, a: Action)
    requires SetSystem(sys, values) && Separate(sys) && Settled(sys, st) && Undisturbed(sys, st, s) && Enabled(sys, s, a)
    ensures Undisturbed(sys, st, Next(sys, s, a))
  {
    if a.Write? {
      WriteUndisturbed(sys, values, st, s, a.c);
    } else {
      QuietStored(sys, s, a);
      SameStored(sys, st, s, Next(sys, s, a));
      if a.Fetch? {
        FetchCopies(sys, values, st, s, a.c);
      } else {
        QuietCopies(sys, st, s, a);
      }
    }
  }

  lemma {:induction false} ExecutionsUndisturbed<V(!new), R(!new)>(sys: System<V, R>, values: seq<V>, st: Storage<R>, acts: seq<Action>, run: seq<State<R>>, k: nat)
    requires SetSystem(sys, values) && Separate(sys) && Settled(sys, st) && Execution(sys, st, acts, run) && k <= |acts|
    ensures Undisturbed(sys, st, run[k])
  {
    if k == 0 {
      forall c: nat
        ensures WellFormed(sys, run[0]) && !Stored(sys, run[0], c)
      {
      }
    } else {
      ExecutionsUndisturbed(sys, values, st, acts, run, k - 1);
      NextUndisturbed(sys, values, st, run[k - 1], acts[k - 1]);
    }
  }

  /** With any number of `setNode` calls of which no two are held under one key, locked or not, every state of every
      execution from a settled storage reads like the plain path map: at the path of a call that has stored its value
      that value, and at every other path what was there before. */
  lemma SeparateCallsSurvive<V(!new), R(!new)>(sys: System<V, R>, values: seq<V>, st: Storage<R>, s: State<R>, q: Path, now: Time)
    requires SetSystem(sys, values) && Separate(sys) && Settled(sys, st) && Reachable(sys, st, s) && ValidPath(sys.K, q)
    ensures WellFormed(sys, s)
    ensures forall c: nat :: Stored(sys, s, c) && sys.calls[c].path == q ==> Read(sys.codec, sys.K, s.storage, q, now) == Some(values[c])
    ensures (forall c: nat :: Stored(sys, s, c) ==> sys.calls[c].path != q) ==>
              Read(sys.codec, sys.K, s.storage, q, now) == Read(sys.codec, sys.K, st, q, now)
  {
    var acts, run :| Execution(sys, st, acts, run) && run[|acts|] == s;
    ExecutionsUndisturbed(sys, values, st, acts, run, |acts|);
    if d: nat :| Stored(sys, s, d) && Held(sys, d) == Holder(sys.K, q) {
      ReadLocal(sys.codec, sys.K, s.storage, Alone(sys, st, d), q, now);
      AloneReads(sys, values, st, d, q, now);
      forall c: nat | Stored(sys, s, c) && sys.calls[c].path == q
        ensures c == d
      {
      }
    } else {
      forall c: nat | Stored(sys, s, c)
        ensures Join(Holder(sys.K, q)) != OwnKey(sys, c)
      {
        SegmentKeyIs(sys, c, sys.Segments(c) - 1);
        JoinInjective(Holder(sys.K, q), Held(sys, c));
      }
      ReadLocal(sys.codec, sys.K, s.storage, st, q, now);
    }
  }

  // ----- two calls on one tree

  /** The state is reached by some execution from the storage `st`. */
  ghost predicate Reachable<V(!new), R(!new)>(sys: System<V, R>, st: Storage<R>, s: State<R>)
    requires sys.K >= 2
  {
    exists acts, run :: Execution(sys, st, acts, run) && run[|acts|] == s
  }

  lemma InitialReachable<V(!new), R(!new)>(sys: System<V, R>, st: Storage<R>)
    requires sys.K >= 2
    ensures Reachable(sys, st, Initial(sys, st)) && WellFormed(sys, Initial(sys, st))
  {
    var s := Initial(sys, st);
    var acts: seq<Action> := [];
    assert Execution(sys, st, acts, [s]) && [s][|acts|] == s;
  }

  lemma NextReachable<V(!new), R(!new)>(sys: System<V, R>, st: Storage<R>, s: State<R>, a: Action)
    requires sys.K >= 2 && Reachable(sys, st, s) && WellFormed(sys, s) && Enabled(sys, s, a)
    ensures Reachable(sys, st, Next(sys, s, a))
  {
    var acts, run :| Execution(sys, st, acts, run) && run[|acts|] == s;
    ExtendExecution(sys, st, acts, run, a, Next(sys, s, a));
  }

  lemma ExtendExecution<V(!new), R(!new)>(sys: System<V, R>, st: Storage<R>, acts: seq<Action>, run: seq<State<R>>, a: Action, s': State<R>)
    requires sys.K >= 2 && Execution(sys, st, acts, run)
    requires WellFormed(sys, run[|acts|]) && Enabled(sys, run[|acts|], a) && s' == Next(sys, run[|acts|], a)
    ensures Execution(sys, st, acts + [a], run + [s']) && (run + [s'])[|acts + [a]|] == s'
  {
    var acts', run' := acts + [a], run + [s'];
    forall k | 0 <= k < |acts'|
      ensures WellFormed(sys, run'[k]) && Enabled(sys, run'[k], acts'[k]) && run'[k + 1] == Next(sys, run'[k], acts'[k])
    {
      if k < |acts| {
        assert acts'[k] == acts[k] && run'[k] == run[k] && run'[k + 1] == run[k + 1];
      } else {
        assert acts'[k] == a && run'[k] == run[|acts|] && run'[k + 1] == s';
      }
    }
  }

  /** A reachable state where call `c` stands at `phase`. */
  ghost predicate Stands<V(!new), R(!new)>(sys: System<V, R>, st: Storage<R>, s: State<R>, c: nat, phase: Phase<R>)
    requires sys.K >= 2
  {
    Reachable(sys, st, s) && WellFormed(sys, s) && c < |s.phases| && s.phases[c] == phase
  }

  /** The states agree but for the phase of call `c`, the locks, the pending releases and the log. */
  predicate SameBut<R(==)>(s: State<R>, s': State<R>, c: nat)
  {
    && s'.storage == s.storage && |s'.phases| == |s.phases|
    && forall d :: 0 <= d < |s.phases| && d != c ==> s'.phases[d] == s.phases[d]
  }

  /** The call is a `setNode` into a tree. */
  ghost predicate SetsInTree<V(!new), R(!new)>(sys: System<V, R>, values: seq<V>, c: nat)
  {
    SetSystem(sys, values) && sys.IsCall(c) && |sys.calls[c].path| >= sys.K
  }

  /** Nothing keeps the call from entering: it needs no lock, or no lock is held. */
  predicate FreeToEnter<V(!new), R(!new)>(sys: System<V, R>, s: State<R>, c: nat)
    requires sys.IsCall(c)
  {
    |sys.calls[c].path| > sys.K || s.locks == map[]
  }

  /** The call enters a segment and reads its key. */
  lemma Enter<V(!new), R(!new)>(sys: System<V, R>, values: seq<V>, st: Storage<R>, s: State<R>, c: nat, i: nat) returns (s': State<R>)
    requires SetsInTree(sys, values, c) && i < sys.K && Stands(sys, st, s, c, Ready(i)) && s.storage == st
    requires FreeToEnter(sys, s, c)
    ensures Stands(sys, st, s', c, Working(i, StorageGet(st, sys.SegmentKey(c, i), sys.calls[c].now), 0)) && SameBut(s, s', c)
    ensures i + 1 < sys.K ==> s'.locks == s.locks
  {
    SetNodeTakesLock(sys, c, i);
    NextReachable(sys, st, s, Acquire(c));
    var mid := Next(sys, s, Acquire(c));
    assert mid.phases[c] == Holding(i);
    NextReachable(sys, st, mid, Fetch(c));
    s' := Next(sys, mid, Fetch(c));
  }

  /** The consumer works through the steps of the segment. */
  lemma {:induction false} EditAll<V(!new), R(!new)>(sys: System<V, R>, st: Storage<R>, s: State<R>, c: nat, i: nat, base: Option<R>, done: nat) returns (s': State<R>)
    requires sys.K >= 2 && sys.IsCall(c) && i < sys.Segments(c) && Stands(sys, st, s, c, Working(i, base, done))
    ensures Stands(sys, st, s', c, Working(i, base, sys.Yields(c, i))) && SameBut(s, s', c) && s'.locks == s.locks
    decreases sys.Yields(c, i) - done
  {
    if done == sys.Yields(c, i) {
      s' := s;
    } else {
      NextReachable(sys, st, s, Edit(c));
      s' := EditAll(sys, st, Next(sys, s, Edit(c)), c, i, base, done + 1);
    }
  }

  /** The write, and the end of the segment. */
  lemma Leave<V(!new), R(!new)>(sys: System<V, R>, st: Storage<R>, s: State<R>, c: nat, i: nat, base: Option<R>) returns (s': State<R>)
    requires sys.K >= 2 && sys.IsCall(c) && i < sys.Segments(c)
    requires Stands(sys, st, s, c, Working(i, base, sys.Yields(c, i)))
    ensures Stands(sys, st, s', c, Ready(i + 1)) && SameBut(s.(storage := sys.Commit(s.storage, c, i, base)), s', c)
    ensures s'.locks == s.locks
  {
    NextReachable(sys, st, s, Write(c));
    var mid := Next(sys, s, Write(c));
    assert mid.phases[c] == Written(i);
    NextReachable(sys, st, mid, Schedule(c));
    s' := Next(sys, mid, Schedule(c));
  }

  /** Having read and edited the tree, ready to write it. */
  function AtTreeWrite<V(!new), R(!new)>(sys: System<V, R>, st: Storage<R>, c: nat): Phase<R>
    requires sys.K >= 2 && sys.IsCall(c) && |sys.calls[c].path| >= sys.K
  {
    Working(sys.K - 1, Found(sys, st, c), sys.Yields(c, sys.K - 1))
  }

  lemma {:induction false} ReachTreeWrite<V(!new), R(!new)>(sys: System<V, R>, values: seq<V>, st: Storage<R>, s: State<R>, c: nat, i: nat) returns (s': State<R>)
    requires SetsInTree(sys, values, c) && Settled(sys, st)
    requires i < sys.K && Stands(sys, st, s, c, Ready(i)) && s.storage == st && FreeToEnter(sys, s, c)
    ensures Stands(sys, st, s', c, AtTreeWrite(sys, st, c)) && SameBut(s, s', c)
    decreases sys.K - i
  {
    var base := StorageGet(st, sys.SegmentKey(c, i), sys.calls[c].now);
    s' := Enter(sys, values, st, s, c, i);
    s' := EditAll(sys, st, s', c, i, base, 0);
    if i + 1 < sys.K {
      var edited := s';
      s' := Leave(sys, st, edited, c, i, base);
      AboveCommit(sys, values, st, c, i, base);
      s' := ReachTreeWrite(sys, values, st, s', c, i + 1);
    } else {
      SegmentKeyIs(sys, c, i);
    }
  }

  /** Both calls read the tree before either writes it; the one that needs a lock goes first. */
  lemma BothRead<V(!new), R(!new)>(sys: System<V, R>, values: seq<V>, st: Storage<R>, c: nat, d: nat) returns (s: State<R>)
    requires SetsInTree(sys, values, c) && SetsInTree(sys, values, d) && c != d && Settled(sys, st)
    requires |sys.calls[c].path| > sys.K || |sys.calls[d].path| > sys.K
    ensures Stands(sys, st, s, c, AtTreeWrite(sys, st, c)) && Stands(sys, st, s, d, AtTreeWrite(sys, st, d)) && s.storage == st
  {
    InitialReachable(sys, st);
    var s0 := Initial(sys, st);
    var first, second := if |sys.calls[d].path| > sys.K then c else d, if |sys.calls[d].path| > sys.K then d else c;
    var s1 := ReachTreeWrite(sys, values, st, s0, first, 0);
    assert s1.phases[second] == Ready(0);
    s := ReachTreeWrite(sys, values, st, s1, second, 0);
  }

  /** Then `c` writes, */
  lemma FirstWrites<V(!new), R(!new)>(sys: System<V, R>, values: seq<V>, st: Storage<R>, c: nat, d: nat) returns (s: State<R>)
    requires SetsInTree(sys, values, c) && SetsInTree(sys, values, d) && c != d && Settled(sys, st)
    requires |sys.calls[c].path| > sys.K || |sys.calls[d].path| > sys.K
    ensures Stands(sys, st, s, c, Ready(sys.K)) && Stands(sys, st, s, d, AtTreeWrite(sys, st, d))
  {
    var s0 := BothRead(sys, values, st, c, d);
    s := Leave(sys, st, s0, c, sys.K - 1, Found(sys, st, c));
    assert s.phases[d] == s0.phases[d];
  }

  /** and `d` writes what it made of the same tree. */
  lemma SecondWrites<V(!new), R(!new)>(sys: System<V, R>, st: Storage<R>, s: State<R>, c: nat, d: nat) returns (s': State<R>)
    requires sys.K >= 2 && sys.IsCall(d) && |sys.calls[d].path| >= sys.K && c != d
    requires Stands(sys, st, s, c, Ready(sys.K)) && Stands(sys, st, s, d, AtTreeWrite(sys, st, d))
    ensures Stands(sys, st, s', c, Ready(sys.K)) && Stands(sys, st, s', d, Ready(sys.K))
    ensures s'.storage == sys.Commit(s.storage, d, sys.K - 1, Found(sys, st, d))
  {
    s' := Leave(sys, st, s, d, sys.K - 1, Found(sys, st, d));
    assert s'.phases[c] == s.phases[c];
  }

  /** A new value changes the tree, so the second write replaces the whole record. */
  lemma SecondWriteWins<V(!new), R(!new)>(sys: System<V, R>, values: seq<V>, st: Storage<R>, mid: Storage<R>, d: nat)
    requires SetsInTree(sys, values, d) && Settled(sys, st)
    requires Read(sys.codec, sys.K, st, sys.calls[d].path, sys.calls[d].now) != Some(values[d])
    ensures SameRecord(sys.Commit(mid, d, sys.K - 1, Found(sys, st, d)), Alone(sys, st, d), OwnKey(sys, d))
  {
    var call := sys.calls[d];
    var root := LoadTree(sys.codec, Found(sys, st, d));
    SegmentKeyIs(sys, d, sys.K - 1);
    CommitIsStep(sys, st, d, sys.K - 1);
    assert Sets(call, values[d]);
    LastTtlUntimed(sys.codec, call, root, sys.K);
    if !EnrichPath(sys.codec, call, root, sys.K).changed {
      assert Alone(sys, st, d) == st;
      AloneReads(sys, values, st, d, call.path, call.now);
    }
  }

  /** For every two different paths held in one tree, in a system with any other calls beside and from any settled storage,
      there is an execution in which both `setNode` calls finish and the one of our choice is lost: its path reads what it
      read at the start. A lock held by one of the two does not help. */
  lemma RaceLosesUpdate<V(!new), R(!new)>(sys: System<V, R>, values: seq<V>, st: Storage<R>, c: nat, d: nat, now: Time) returns (s: State<R>)
    requires SetsInTree(sys, values, c) && SetsInTree(sys, values, d) && c != d && Settled(sys, st)
    requires Held(sys, c) == Held(sys, d) && sys.calls[c].path != sys.calls[d].path
    requires Read(sys.codec, sys.K, st, sys.calls[d].path, now) != Some(values[d])
    ensures Reachable(sys, st, s) && WellFormed(sys, s)
    ensures s.phases[c] == Ready(sys.Segments(c)) && s.phases[d] == Ready(sys.Segments(d))
    ensures Read(sys.codec, sys.K, s.storage, sys.calls[c].path, now) == Read(sys.codec, sys.K, st, sys.calls[c].path, now)
    ensures Read(sys.codec, sys.K, s.storage, sys.calls[d].path, now) == Some(values[d])
  {
    var p, q := sys.calls[c].path, sys.calls[d].path;
    assert p == p[..sys.K] + p[sys.K..] && q == q[..sys.K] + q[sys.K..];
    var mid := FirstWrites(sys, values, st, c, d);
    s := SecondWrites(sys, st, mid, c, d);
    TimelessReads(sys.codec, sys.K, st, q, sys.calls[d].now, now);
    SecondWriteWins(sys, values, st, mid.storage, d);
    ReadLocal(sys.codec, sys.K, s.storage, Alone(sys, st, d), p, now);
    ReadLocal(sys.codec, sys.K, s.storage, Alone(sys, st, d), q, now);
    AloneReads(sys, values, st, d, p, now);
    AloneReads(sys, values, st, d, q, now);
  }

  // ----- exactly when all values survive

  /** No two calls have the same path, and each sets a value that is not there yet. */
  ghost predicate AllNew<V(!new), R(!new)>(sys: System<V, R>, values: seq<V>, st: Storage<R>, now: Time)
    requires |values| == |sys.calls|
  {
    && (forall c, d :: 0 <= c < d < |sys.calls| ==> sys.calls[c].path != sys.calls[d].path)
    && (forall c :: 0 <= c < |sys.calls| ==> Read(sys.codec, sys.K, st, sys.calls[c].path, now) != Some(values[c]))
  }

  /** In the state every call that has stored its value reads it back. */
  ghost predicate AllRead<V(!new), R(!new)>(sys: System<V, R>, values: seq<V>, s: State<R>, now: Time)
    requires |values| == |sys.calls|
  {
    WellFormed(sys, s) && forall c: nat :: Stored(sys, s, c) ==> Read(sys.codec, sys.K, s.storage, sys.calls[c].path, now) == Some(values[c])
  }

  lemma SharedTree<V(!new), R(!new)>(sys: System<V, R>, values: seq<V>, c: nat, d: nat)
    requires SetSystem(sys, values) && sys.IsCall(c) && sys.IsCall(d)
    requires Held(sys, c) == Held(sys, d) && sys.calls[c].path != sys.calls[d].path
    ensures SetsInTree(sys, values, c) && SetsInTree(sys, values, d)
  {
  }

  /** Any number of concurrent `setNode` calls of new values on different paths, from any settled storage: in every
      state of every execution every value stored is read back, if and only if no two of the paths lie in one tree. */
  lemma AllReadIff<V(!new), R(!new)>(sys: System<V, R>, values: seq<V>, st: Storage<R>, now: Time)
    requires SetSystem(sys, values) && Settled(sys, st) && AllNew(sys, values, st, now)
    ensures (forall s :: Reachable(sys, st, s) ==> AllRead(sys, values, s, now)) <==> Separate(sys)
  {
    if Separate(sys) {
      forall s | Reachable(sys, st, s)
        ensures AllRead(sys, values, s, now)
      {
        var acts, run :| Execution(sys, st, acts, run) && run[|acts|] == s;
        ExecutionsUndisturbed(sys, values, st, acts, run, |acts|);
        forall c: nat | Stored(sys, s, c)
          ensures Read(sys.codec, sys.K, s.storage, sys.calls[c].path, now) == Some(values[c])
        {
          SeparateCallsSurvive(sys, values, st, s, sys.calls[c].path, now);
        }
      }
    } else {
      var c, d :| 0 <= c < d < |sys.calls| && Held(sys, c) == Held(sys, d);
      SharedTree(sys, values, c, d);
      var s := RaceLosesUpdate(sys, values, st, c, d, now);
      assert Stored(sys, s, c) && !AllRead(sys, values, s, now);
    }
  }

  // ----- two calls

  /** Two untimed `setNode` calls. */
  function TwoSets<V(!new), R(!new)>(codec: Codec<V, R>, K: nat, p: Path, v: V, t: Time, q: Path, w: V, u: Time): System<V, R>
  {
    System(codec, K, [SetNodeCall(p, v, (_, _) => None, t), SetNodeCall(q, w, (_, _) => None, u)])
  }

  /** Every call has been through all its segments. */
  predicate AllDone<V(!new), R(!new)>(sys: System<V, R>, s: State<R>)
  {
    |s.phases| == |sys.calls| && forall c :: 0 <= c < |s.phases| ==> s.phases[c].Ready? && s.phases[c].segment == sys.Segments(c)
  }

  /** Both values are read. */
  ghost predicate BothRemain<V(!new), R(!new)>(codec: Codec<V, R>, K: nat, st: Storage<R>, p: Path, v: V, q: Path, w: V, now: Time)
  {
    Read(codec, K, st, p, now) == Some(v) && Read(codec, K, st, q, now) == Some(w)
  }

  /** The two paths lie in one tree. */
  predicate InOneTree(K: nat, p: Path, q: Path)
  {
    |p| >= K && |q| >= K && p[..K] == q[..K]
  }

  /** Two different paths, and two values that are not there yet. */
  ghost predicate BothNew<V(!new), R(!new)>(codec: Codec<V, R>, K: nat, st: Storage<R>, p: Path, v: V, q: Path, w: V, now: Time)
  {
    p != q && Read(codec, K, st, p, now) != Some(v) && Read(codec, K, st, q, now) != Some(w)
  }

  lemma TwoSetsAre<V(!new), R(!new)>(codec: Codec<V, R>, K: nat, p: Path, v: V, t: Time, q: Path, w: V, u: Time)
    requires codec.Lawful() && K >= 2 && ValidPath(K, p) && ValidPath(K, q)
    ensures
      var sys := TwoSets(codec, K, p, v, t, q, w, u);
      && SetSystem(sys, [v, w]) && (Separate(sys) <==> Holder(K, p) != Holder(K, q))
      && |sys.calls| == 2 && sys.calls[0].path == p && sys.calls[1].path == q
      && Held(sys, 0) == Holder(K, p) && Held(sys, 1) == Holder(K, q)
  {
    var sys := TwoSets(codec, K, p, v, t, q, w, u);
    assert Held(sys, 0) == Holder(K, p) && Held(sys, 1) == Holder(K, q);
  }

  lemma TwoDone<V(!new), R(!new)>(sys: System<V, R>, s: State<R>)
    requires |sys.calls| == 2 && WellFormed(sys, s)
    requires s.phases[0] == Ready(sys.Segments(0)) && s.phases[1] == Ready(sys.Segments(1))
    ensures AllDone(sys, s)
  {
    forall c | 0 <= c < 2
      ensures s.phases[c].Ready? && s.phases[c].segment == sys.Segments(c)
    {
      assert c == 0 || c == 1;
    }
  }

  lemma InOneTreeLoses<V(!new), R(!new)>(codec: Codec<V, R>, K: nat, p: Path, v: V, t: Time, q: Path, w: V, u: Time, st: Storage<R>, now: Time)
    returns (s: State<R>)
    requires codec.Lawful() && K >= 2 && ValidPath(K, p) && ValidPath(K, q) && InOneTree(K, p, q)
    requires Settled(TwoSets(codec, K, p, v, t, q, w, u), st) && BothNew(codec, K, st, p, v, q, w, now)
    ensures
      var sys := TwoSets(codec, K, p, v, t, q, w, u);
      Reachable(sys, st, s) && AllDone(sys, s) && !BothRemain(codec, K, s.storage, p, v, q, w, now)
  {
    var sys := TwoSets(codec, K, p, v, t, q, w, u);
    TwoSetsAre(codec, K, p, v, t, q, w, u);
    SharedTree(sys, [v, w], 0, 1);
    s := RaceLosesUpdate(sys, [v, w], st, 0, 1, now);
    TwoDone(sys, s);
  }

  lemma ElsewhereRemains<V(!new), R(!new)>(codec: Codec<V, R>, K: nat, p: Path, v: V, t: Time, q: Path, w: V, u: Time, st: Storage<R>, now: Time, s: State<R>)
    requires codec.Lawful() && K >= 2 && ValidPath(K, p) && ValidPath(K, q) && p != q && !InOneTree(K, p, q)
    requires
      var sys := TwoSets(codec, K, p, v, t, q, w, u);
      Settled(sys, st) && Reachable(sys, st, s) && AllDone(sys, s)
    ensures BothRemain(codec, K, s.storage, p, v, q, w, now)
  {
    var sys := TwoSets(codec, K, p, v, t, q, w, u);
    TwoSetsAre(codec, K, p, v, t, q, w, u);
    SeparateCallsSurvive(sys, [v, w], st, s, p, now);
    SeparateCallsSurvive(sys, [v, w], st, s, q, now);
    assert Stored(sys, s, 0) && Stored(sys, s, 1);
  }

  /** Both values of two concurrent `setNode` calls of new values are read back after every execution from a settled
      storage in which both finish, if and only if the two paths do not lie in one tree. */
  lemma BothRemainIff<V(!new), R(!new)>(codec: Codec<V, R>, K: nat, p: Path, v: V, t: Time, q: Path, w: V, u: Time, st: Storage<R>, now: Time)
    requires codec.Lawful() && K >= 2 && ValidPath(K, p) && ValidPath(K, q)
    requires Settled(TwoSets(codec, K, p, v, t, q, w, u), st) && BothNew(codec, K, st, p, v, q, w, now)
    ensures
      var sys := TwoSets(codec, K, p, v, t, q, w, u);
      (forall s :: Reachable(sys, st, s) && AllDone(sys, s) ==> BothRemain(codec, K, s.storage, p, v, q, w, now))
      <==> !InOneTree(K, p, q)
  {
    var sys := TwoSets(codec, K, p, v, t, q, w, u);
    if InOneTree(K, p, q) {
      var s := InOneTreeLoses(codec, K, p, v, t, q, w, u, st, now);
    } else {
      forall s | Reachable(sys, st, s) && AllDone(sys, s)
        ensures BothRemain(codec, K, s.storage, p, v, q, w, now)
      {
        ElsewhereRemains(codec, K, p, v, t, q, w, u, st, now, s);
      }
    }
  }

  /** The empty storage is settled, and every value is new in it. */
  lemma EmptyIsSettled<V(!new), R(!new)>(sys: System<V, R>, values: seq<V>, now: Time)
    requires SetSystem(sys, values) && forall c, d :: 0 <= c < d < |sys.calls| ==> sys.calls[c].path != sys.calls[d].path
    ensures Settled<V, R>(sys, map[]) && AllNew<V, R>(sys, values, map[], now)
  {
  }
}

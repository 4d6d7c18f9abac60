/** The counting loop of the README under concurrency: every call adds one to each node of its path. */
module Counting {
  import opened Wrappers
  import opened Keys
  import opened Trees
  import opened HybridStore
  import opened PathMap
  import opened Locking
  import opened Segments
  import Codecs

  /** `step.value ??= 0`. */
  function Tally(value: Option<int>): int
  {
    if value.Some? then value.value else 0
  }

  /** `deepTreeSet(path)` consumed by `step.value ??= 0; step.value++`. */
  ghost predicate Increments(call: Call<int>)
  {
    && call.minLevelSemaphore == 0 && Untimed(call)
    && (forall q :: call.create(q) == None)
    && (forall q, current :: call.edit(q, current) == Some(Tally(current) + 1))
  }

  ghost predicate CountingSystem<R(!new)>(sys: System<int, R>)
  {
    sys.codec.Lawful() && sys.Valid() && forall c :: 0 <= c < |sys.calls| ==> Increments(sys.calls[c])
  }

  /** The loop `for await (const step of cache.deepTreeSet(path)) { step.value ??= 0; step.value++; }`. */
  function CountingCall(path: Path, now: Time): Call<int>
  {
    Call(path, _ => None, (_, current) => Some(Tally(current) + 1), (_, _) => None, 0, now)
  }

  /** Counting systems exist, for any valid paths and with counts stored as text. */
  lemma CountingSystemsExist(K: nat, paths: seq<Path>, now: Time)
    requires K >= 2 && forall c :: 0 <= c < |paths| ==> ValidPath(K, paths[c])
    ensures CountingSystem(System(Codecs.CountCodec(), K, seq(|paths|, c requires 0 <= c < |paths| => CountingCall(paths[c], now))))
  {
    Codecs.CountsAreLawful();
  }

  // ----- counting the calls that have passed a path

  /** The call has written the segment that holds `q`. */
  predicate HasPassed<R(!new)>(sys: System<int, R>, s: State<R>, c: nat, q: Path)
    requires WellFormed(sys, s) && c < |s.phases| && 0 < sys.K && q != []
  {
    q <= sys.calls[c].path && SegmentOf(sys.K, |q|) < Committed(s.phases[c])
  }

  function Passed<R(!new)>(sys: System<int, R>, s: State<R>, q: Path, n: nat): nat
    requires WellFormed(sys, s) && n <= |s.phases| && 0 < sys.K && q != []
  {
    if n == 0 then 0 else Passed(sys, s, q, n - 1) + if HasPassed(sys, s, n - 1, q) then 1 else 0
  }

  lemma {:induction false} PassedChange<R(!new)>(sys: System<int, R>, s: State<R>, s': State<R>, c: nat, q: Path, n: nat)
    requires WellFormed(sys, s) && WellFormed(sys, s') && c < |s.phases| && n <= |s.phases| && 0 < sys.K && q != []
    requires forall d :: 0 <= d < |s.phases| && d != c ==> s'.phases[d] == s.phases[d]
    ensures Passed(sys, s', q, n) == Passed(sys, s, q, n) +
            if c >= n || (HasPassed(sys, s, c, q) <==> HasPassed(sys, s', c, q)) then 0
            else if HasPassed(sys, s', c, q) then 1 else -1
  {
    if n > 0 {
      PassedChange(sys, s, s', c, q, n - 1);
    }
  }

  /** The number of calls whose path has the prefix `q`. */
  function PathsThrough<V>(calls: seq<Call<V>>, q: Path): nat
  {
    if calls == [] then 0
    else PathsThrough(calls[..|calls| - 1], q) + if q <= calls[|calls| - 1].path then 1 else 0
  }

  /** Every path holds its first count plus the number of calls that have passed it. */
  ghost predicate CountsMatch<R(!new)>(sys: System<int, R>, st: Storage<R>, s: State<R>)
    requires 0 < sys.K && WellFormed(sys, s)
  {
    && Timeless(sys.codec, sys.K, s.storage)
    && forall q, now :: ValidPath(sys.K, q) ==>
         Tally(Read(sys.codec, sys.K, s.storage, q, now)) ==
         Tally(Read(sys.codec, sys.K, st, q, now)) + Passed(sys, s, q, |s.phases|)
  }

  lemma WriteCounts<R(!new)>(sys: System<int, R>, st: Storage<R>, s: State<R>, c: nat, q: Path, now: Time)
    requires CountingSystem(sys) && Inv(sys, s) && CountsMatch(sys, st, s) && Enabled(sys, s, Write(c))
    requires ValidPath(sys.K, q)
    ensures
      var s' := Next(sys, s, Write(c));
      && WellFormed(sys, s') && Timeless(sys.codec, sys.K, s'.storage)
      && Tally(Read(sys.codec, sys.K, s'.storage, q, now)) ==
         Tally(Read(sys.codec, sys.K, st, q, now)) + Passed(sys, s', q, |s'.phases|)
  {
    var s' := Next(sys, s, Write(c));
    var i := s.phases[c].segment;
    NextInv(sys, s, Write(c));
    assert sys.Guarded(sys.SegmentKey(c, i));
    CommitIsStep(sys, s.storage, c, i);
    SegmentTimeless(sys, s.storage, c, i);
    SegmentReads(sys, s.storage, c, i, q);
    TimelessReads(sys.codec, sys.K, s.storage, q, sys.calls[c].now, now);
    TimelessReads(sys.codec, sys.K, s'.storage, q, sys.calls[c].now, now);
    PassedChange(sys, s, s', c, q, |s.phases|);
  }

  lemma NextCounts<R(!new)>(sys: System<int, R>, st: Storage<R>, s: State<R>, a: Action)
    requires CountingSystem(sys) && Inv(sys, s) && CountsMatch(sys, st, s) && Enabled(sys, s, a)
    ensures Inv(sys, Next(sys, s, a)) && CountsMatch(sys, st, Next(sys, s, a))
  {
    var s' := Next(sys, s, a);
    NextInv(sys, s, a);
    forall q, now: Time | ValidPath(sys.K, q)
      ensures Tally(Read(sys.codec, sys.K, s'.storage, q, now)) ==
              Tally(Read(sys.codec, sys.K, st, q, now)) + Passed(sys, s', q, |s'.phases|)
    {
      if a.Write? {
        WriteCounts(sys, st, s, a.c, q, now);
      } else {
        QuietStepPasses(sys, s, a, q);
      }
    }
    if a.Write? {
      WriteCounts(sys, st, s, a.c, ["-"], 0);
    }
  }

  lemma QuietStepPasses<R(!new)>(sys: System<int, R>, s: State<R>, a: Action, q: Path)
    requires CountingSystem(sys) && Inv(sys, s) && Enabled(sys, s, a) && !a.Write? && ValidPath(sys.K, q)
    ensures WellFormed(sys, Next(sys, s, a))
    ensures Passed(sys, Next(sys, s, a), q, |s.phases|) == Passed(sys, s, q, |s.phases|)
  {
    var s' := Next(sys, s, a);
    NextInv(sys, s, a);
    if a.Release? {
      if |s.phases| > 0 {
        PassedChange(sys, s, s', 0, q, |s.phases|);
      }
    } else {
      PassedChange(sys, s, s', a.c, q, |s.phases|);
    }
  }

  lemma {:induction false} NonePassed<R(!new)>(sys: System<int, R>, st: Storage<R>, q: Path, n: nat)
    requires 0 < sys.K && q != [] && n <= |sys.calls|
    ensures Passed(sys, Initial(sys, st), q, n) == 0
  {
    if n > 0 {
      NonePassed(sys, st, q, n - 1);
    }
  }

  /** In every state of every execution, with calls free to be abandoned, every path holds its first
      count plus one for each call that has written it. */
  lemma {:induction false} ExecutionCounts<R(!new)>(sys: System<int, R>, st: Storage<R>, acts: seq<Action>, run: seq<State<R>>, k: nat)
    requires CountingSystem(sys) && Timeless(sys.codec, sys.K, st) && Execution(sys, st, acts, run) && k <= |acts|
    ensures Inv(sys, run[k]) && CountsMatch(sys, st, run[k])
  {
    if k == 0 {
      InitialInv(sys, st);
      forall q, now: Time | ValidPath(sys.K, q)
        ensures Tally(Read(sys.codec, sys.K, run[0].storage, q, now)) ==
                Tally(Read(sys.codec, sys.K, st, q, now)) + Passed(sys, run[0], q, |run[0].phases|)
      {
        NonePassed(sys, st, q, |sys.calls|);
      }
    } else {
      ExecutionCounts(sys, st, acts, run, k - 1);
      NextCounts(sys, st, run[k - 1], acts[k - 1]);
    }
  }

  lemma {:induction false} AllPassed<R(!new)>(sys: System<int, R>, s: State<R>, q: Path, n: nat)
    requires sys.Valid() && WellFormed(sys, s) && n <= |s.phases| && ValidPath(sys.K, q)
    requires forall c :: 0 <= c < |s.phases| ==> s.phases[c] == Ready(sys.Segments(c))
    ensures Passed(sys, s, q, n) == PathsThrough(sys.calls[..n], q)
  {
    if n > 0 {
      AllPassed(sys, s, q, n - 1);
      assert sys.calls[..n][..n - 1] == sys.calls[..n - 1];
    }
  }

  /** Once all calls have finished, every path has been counted once for each call whose path goes
      through it, at key level and tree level alike, whatever the interleaving was. */
  lemma CountsAreExact<R(!new)>(sys: System<int, R>, st: Storage<R>, acts: seq<Action>, run: seq<State<R>>, q: Path, now: Time)
    requires CountingSystem(sys) && Timeless(sys.codec, sys.K, st) && Execution(sys, st, acts, run) && ValidPath(sys.K, q)
    requires |run[|acts|].phases| == |sys.calls|
    requires forall c :: 0 <= c < |sys.calls| ==> run[|acts|].phases[c] == Ready(sys.Segments(c))
    ensures Tally(Read(sys.codec, sys.K, run[|acts|].storage, q, now)) ==
            Tally(Read(sys.codec, sys.K, st, q, now)) + PathsThrough(sys.calls, q)
  {
    var s := run[|acts|];
    ExecutionCounts(sys, st, acts, run, |acts|);
    AllPassed(sys, s, q, |s.phases|);
    assert sys.calls[..|s.phases|] == sys.calls;
  }
}

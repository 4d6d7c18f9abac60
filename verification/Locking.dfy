/** Concurrent calls of `deepTreeSet`, as interleaved steps over a shared storage and a mutual-exclusion
    semaphore. Each call works through its segments in order: one per key level node, and one for the
    whole tree below them. In a segment it acquires the lock of the segment's key, reads the key, edits a
    private copy step by step as its consumer asks for steps, writes, and schedules the release. */
module Locking {
  import opened Wrappers
  import opened Keys
  import opened HybridStore

  datatype System<!V(!new), !R(!new)> = System(codec: Codec<V, R>, K: nat, calls: seq<Call<V>>)
  {
    ghost predicate Valid()
    {
      K >= 2 && forall c :: 0 <= c < |calls| ==> ValidPath(K, calls[c].path)
    }

    predicate IsCall(c: nat)
    {
      c < |calls|
    }

    /** How many segments the call has. */
    function Segments(c: nat): nat
      requires IsCall(c)
    {
      if |calls[c].path| < K then |calls[c].path| else K
    }

    function SegmentKey(c: nat, i: nat): string
      requires IsCall(c) && i < Segments(c)
    {
      ChainedKey(calls[c].path[..i + 1]).value
    }

    /** The tree segment compares `minLevelSemaphore` after incrementing the level, the others before. */
    predicate TakesLock(c: nat, i: nat)
      requires IsCall(c) && i < Segments(c)
    {
      calls[c].minLevelSemaphore <= if i + 1 < K then i else i + 1
    }

    /** How many steps the segment yields. */
    function Yields(c: nat, i: nat): nat
      requires IsCall(c) && i < Segments(c)
    {
      if i + 1 < K then 1 else |calls[c].path| - K + 1
    }

    /** The segment done in one go, without interference. */
    ghost function SegmentStep(st: Storage<R>, c: nat, i: nat): Storage<R>
      requires K >= 2 && IsCall(c) && i < Segments(c)
    {
      if i + 1 < K then KeyUpdate(codec, calls[c], st, calls[c].path[..i + 1])
      else TreeUpdate(codec, calls[c], st, K)
    }

    /** The write at the end of a segment, from the private copy of what was read at its start. */
    ghost function Commit(st: Storage<R>, c: nat, i: nat, base: Option<R>): Storage<R>
      requires K >= 2 && IsCall(c) && i < Segments(c)
    {
      var call := calls[c];
      var key := SegmentKey(c, i);
      if i + 1 < K then
        var q := call.path[..i + 1];
        var value := StepValue(codec, call, q, base);
        PersistStep(codec, st, key, base, value, call.ttl(q, value), call.now)
      else
        var root := LoadTree(codec, base);
        var e := EnrichPath(codec, call, root, K);
        if e.changed then PersistTree(codec, st, key, Millis(LastTtl(codec, call, root, K)), e.tree, call.now) else st
    }

    /** Every call that works on the key takes its lock. */
    ghost predicate Guarded(key: string)
    {
      forall c, i :: 0 <= c < |calls| && 0 <= i < Segments(c) && SegmentKey(c, i) == key ==> TakesLock(c, i)
    }
  }

  /** Where a call stands. `done` counts the steps the consumer has edited, so the private copy
      is determined by `base`, what was read, and `done`. */
  datatype Phase<R> =
    | Ready(segment: nat)
    | Holding(segment: nat)
    | Working(segment: nat, base: Option<R>, done: nat)
    | Written(segment: nat)
    | Stopped(segment: nat)

  /** `pending` holds the releases handed to `dontWait` that have not run yet, and `log` the
      segments written so far, in the order of their writes. */
  datatype State<R> = State(
    storage: Storage<R>,
    locks: map<string, nat>,
    phases: seq<Phase<R>>,
    pending: set<(nat, string)>,
    log: seq<(nat, nat)>)

  /** `Abandon` is a consumer that leaves the iteration, or a failure, inside a segment. */
  datatype Action =
    | Acquire(c: nat)
    | Fetch(c: nat)
    | Edit(c: nat)
    | Write(c: nat)
    | Schedule(c: nat)
    | Abandon(c: nat)
    | Release(c: nat, key: string)

  predicate InSection<R>(phase: Phase<R>)
  {
    phase.Holding? || phase.Working? || phase.Written?
  }

  predicate WellFormed<V(!new), R(!new)>(sys: System<V, R>, s: State<R>)
  {
    && |s.phases| == |sys.calls|
    && (forall c :: 0 <= c < |s.phases| ==>
          if InSection(s.phases[c]) then s.phases[c].segment < sys.Segments(c)
          else s.phases[c].segment <= sys.Segments(c))
    && (forall c :: 0 <= c < |s.phases| && s.phases[c].Working? ==>
          s.phases[c].done <= sys.Yields(c, s.phases[c].segment))
  }

  function Initial<V(!new), R(!new)>(sys: System<V, R>, st: Storage<R>): State<R>
  {
    State(st, map[], seq(|sys.calls|, _ => Ready(0)), {}, [])
  }

  predicate Enabled<V(!new), R(!new)>(sys: System<V, R>, s: State<R>, a: Action)
    requires WellFormed(sys, s)
  {
    match a
    case Acquire(c) =>
      && c < |s.phases| && s.phases[c].Ready? && s.phases[c].segment < sys.Segments(c)
      && (sys.TakesLock(c, s.phases[c].segment) ==> sys.SegmentKey(c, s.phases[c].segment) !in s.locks)
    case Fetch(c) => c < |s.phases| && s.phases[c].Holding?
    case Edit(c) => c < |s.phases| && s.phases[c].Working? && s.phases[c].done < sys.Yields(c, s.phases[c].segment)
    case Write(c) => c < |s.phases| && s.phases[c].Working? && s.phases[c].done == sys.Yields(c, s.phases[c].segment)
    case Schedule(c) => c < |s.phases| && s.phases[c].Written?
    case Abandon(c) => c < |s.phases| && (s.phases[c].Holding? || s.phases[c].Working?)
    case Release(c, key) => (c, key) in s.pending
  }

  /** The releases after the `finally` block of segment `i`. */
  function Scheduled<V(!new), R(!new)>(sys: System<V, R>, s: State<R>, c: nat, i: nat): set<(nat, string)>
    requires sys.IsCall(c) && i < sys.Segments(c)
  {
    if sys.TakesLock(c, i) then s.pending + {(c, sys.SegmentKey(c, i))} else s.pending
  }

  ghost function Next<V(!new), R(!new)>(sys: System<V, R>, s: State<R>, a: Action): State<R>
    requires sys.K >= 2 && WellFormed(sys, s) && Enabled(sys, s, a)
  {
    match a
    case Acquire(c) =>
      var i := s.phases[c].segment;
      s.(phases := s.phases[c := Holding(i)],
         locks := if sys.TakesLock(c, i) then s.locks[sys.SegmentKey(c, i) := c] else s.locks)
    case Fetch(c) =>
      var i := s.phases[c].segment;
      s.(phases := s.phases[c := Working(i, StorageGet(s.storage, sys.SegmentKey(c, i), sys.calls[c].now), 0)])
    case Edit(c) =>
      s.(phases := s.phases[c := s.phases[c].(done := s.phases[c].done + 1)])
    case Write(c) =>
      var i := s.phases[c].segment;
      s.(phases := s.phases[c := Written(i)],
         storage := sys.Commit(s.storage, c, i, s.phases[c].base),
         log := s.log + [(c, i)])
    case Schedule(c) =>
      var i := s.phases[c].segment;
      s.(phases := s.phases[c := Ready(i + 1)], pending := Scheduled(sys, s, c, i))
    case Abandon(c) =>
      var i := s.phases[c].segment;
      s.(phases := s.phases[c := Stopped(i)], pending := Scheduled(sys, s, c, i))
    case Release(c, key) =>
      s.(pending := s.pending - {(c, key)}, locks := s.locks - {key})
  }

  /** The state sequence `run` is an execution taking the actions `acts`. */
  ghost predicate Execution<V(!new), R(!new)>(sys: System<V, R>, st: Storage<R>, acts: seq<Action>, run: seq<State<R>>)
    requires sys.K >= 2
  {
    && |run| == |acts| + 1
    && run[0] == Initial(sys, st)
    && forall k :: 0 <= k < |acts| ==>
         WellFormed(sys, run[k]) && Enabled(sys, run[k], acts[k]) && run[k + 1] == Next(sys, run[k], acts[k])
  }

  // ----- what every step keeps

  /** A call inside a locked segment owns the lock. */
  ghost predicate SectionsOwnLocks<V(!new), R(!new)>(sys: System<V, R>, s: State<R>)
    requires WellFormed(sys, s)
  {
    forall c :: 0 <= c < |s.phases| && InSection(s.phases[c]) && sys.TakesLock(c, s.phases[c].segment) ==>
      var key := sys.SegmentKey(c, s.phases[c].segment);
      key in s.locks && s.locks[key] == c
  }

  /** The call is inside a segment that locked the key. */
  predicate Inside<V(!new), R(!new)>(sys: System<V, R>, s: State<R>, c: nat, key: string)
    requires WellFormed(sys, s)
  {
    && c < |s.phases| && InSection(s.phases[c])
    && sys.TakesLock(c, s.phases[c].segment) && sys.SegmentKey(c, s.phases[c].segment) == key
  }

  /** A scheduled release belongs to the owner of the lock, which has left the segment:
      it has written the key or abandoned it. */
  ghost predicate ReleasesComeLast<V(!new), R(!new)>(sys: System<V, R>, s: State<R>)
    requires WellFormed(sys, s)
  {
    forall c, key :: (c, key) in s.pending ==> key in s.locks && s.locks[key] == c && !Inside(sys, s, c, key)
  }

  /** No lock is left behind: its owner is still inside, or has scheduled the release. */
  ghost predicate LocksAreReleased<V(!new), R(!new)>(sys: System<V, R>, s: State<R>)
    requires WellFormed(sys, s)
  {
    forall key :: key in s.locks ==> (s.locks[key], key) in s.pending || Inside(sys, s, s.locks[key], key)
  }

  /** What a call has read from a guarded key is still there. */
  ghost predicate CopiesAreCurrent<V(!new), R(!new)>(sys: System<V, R>, s: State<R>)
    requires WellFormed(sys, s)
  {
    forall c :: 0 <= c < |s.phases| && s.phases[c].Working? && sys.Guarded(sys.SegmentKey(c, s.phases[c].segment)) ==>
      s.phases[c].base == StorageGet(s.storage, sys.SegmentKey(c, s.phases[c].segment), sys.calls[c].now)
  }

  ghost predicate Inv<V(!new), R(!new)>(sys: System<V, R>, s: State<R>)
  {
    && WellFormed(sys, s) && SectionsOwnLocks(sys, s) && ReleasesComeLast(sys, s)
    && LocksAreReleased(sys, s) && CopiesAreCurrent(sys, s)
  }

  lemma InitialInv<V(!new), R(!new)>(sys: System<V, R>, st: Storage<R>)
    ensures Inv(sys, Initial(sys, st))
  {
  }

  /** At most one call is inside the segment of a guarded key. */
  lemma MutualExclusion<V(!new), R(!new)>(sys: System<V, R>, s: State<R>, c: nat, d: nat)
    requires Inv(sys, s) && c < |s.phases| && d < |s.phases|
    requires InSection(s.phases[c]) && InSection(s.phases[d])
    requires sys.SegmentKey(c, s.phases[c].segment) == sys.SegmentKey(d, s.phases[d].segment)
    requires sys.Guarded(sys.SegmentKey(c, s.phases[c].segment))
    ensures c == d
  {
  }

  /** A write touches the key of its segment only. */
  lemma CommitFrame<V(!new), R(!new)>(sys: System<V, R>, st: Storage<R>, c: nat, i: nat, base: Option<R>, key: string)
    requires sys.K >= 2 && sys.IsCall(c) && i < sys.Segments(c) && key != sys.SegmentKey(c, i)
    ensures
      var after := sys.Commit(st, c, i, base);
      (key in after <==> key in st) && (key in st ==> after[key] == st[key])
  {
  }

  lemma WriteInv<V(!new), R(!new)>(sys: System<V, R>, s: State<R>, c: nat)
    requires sys.K >= 2 && Inv(sys, s) && Enabled(sys, s, Write(c))
    ensures Inv(sys, Next(sys, s, Write(c)))
  {
    var s' := Next(sys, s, Write(c));
    var i := s.phases[c].segment;
    forall d | 0 <= d < |s.phases| && d != c && s.phases[d].Working? &&
               sys.Guarded(sys.SegmentKey(d, s.phases[d].segment))
      ensures var key := sys.SegmentKey(d, s.phases[d].segment);
              StorageGet(s'.storage, key, sys.calls[d].now) == StorageGet(s.storage, key, sys.calls[d].now)
    {
      var key := sys.SegmentKey(d, s.phases[d].segment);
      if key == sys.SegmentKey(c, i) {
        MutualExclusion(sys, s, d, c);
      } else {
        CommitFrame(sys, s.storage, c, i, s.phases[c].base, key);
      }
    }
  }

  lemma AcquireInv<V(!new), R(!new)>(sys: System<V, R>, s: State<R>, c: nat)
    requires sys.K >= 2 && Inv(sys, s) && Enabled(sys, s, Acquire(c))
    ensures Inv(sys, Next(sys, s, Acquire(c)))
  {
  }

  lemma FetchEditInv<V(!new), R(!new)>(sys: System<V, R>, s: State<R>, a: Action)
    requires sys.K >= 2 && Inv(sys, s) && (a.Fetch? || a.Edit?) && Enabled(sys, s, a)
    ensures Inv(sys, Next(sys, s, a))
  {
  }

  lemma LeaveInv<V(!new), R(!new)>(sys: System<V, R>, s: State<R>, a: Action)
    requires sys.K >= 2 && Inv(sys, s) && (a.Schedule? || a.Abandon?) && Enabled(sys, s, a)
    ensures Inv(sys, Next(sys, s, a))
  {
  }

  lemma ReleaseInv<V(!new), R(!new)>(sys: System<V, R>, s: State<R>, c: nat, key: string)
    requires sys.K >= 2 && Inv(sys, s) && Enabled(sys, s, Release(c, key))
    ensures Inv(sys, Next(sys, s, Release(c, key)))
  {
  }

  /** Every step keeps the invariant, whatever the calls and their consumers do. */
  lemma NextInv<V(!new), R(!new)>(sys: System<V, R>, s: State<R>, a: Action)
    requires sys.K >= 2 && Inv(sys, s) && Enabled(sys, s, a)
    ensures Inv(sys, Next(sys, s, a))
  {
    match a
    case Acquire(c) => AcquireInv(sys, s, c);
    case Fetch(c) => FetchEditInv(sys, s, a);
    case Edit(c) => FetchEditInv(sys, s, a);
    case Write(c) => WriteInv(sys, s, c);
    case Schedule(c) => LeaveInv(sys, s, a);
    case Abandon(c) => LeaveInv(sys, s, a);
    case Release(c, key) => ReleaseInv(sys, s, c, key);
  }

  // ----- the writes are atomic segments, in each call's own order

  predicate LogOk<V(!new), R(!new)>(sys: System<V, R>, log: seq<(nat, nat)>)
  {
    forall k :: 0 <= k < |log| ==> sys.IsCall(log[k].0) && log[k].1 < sys.Segments(log[k].0)
  }

  /** The logged segments done one after the other, each in one go. */
  ghost function Replay<V(!new), R(!new)>(sys: System<V, R>, st: Storage<R>, log: seq<(nat, nat)>): Storage<R>
    requires sys.K >= 2 && LogOk(sys, log)
  {
    if log == [] then st
    else
      var last := log[|log| - 1];
      sys.SegmentStep(Replay(sys, st, log[..|log| - 1]), last.0, last.1)
  }

  /** The two storages hold the same record under every guarded key. */
  ghost predicate Agree<V(!new), R(!new)>(sys: System<V, R>, st: Storage<R>, other: Storage<R>)
  {
    forall key :: sys.Guarded(key) ==> (key in st <==> key in other) && (key in st ==> st[key] == other[key])
  }

  /** The segments of call `c` in the log. */
  function Entries(log: seq<(nat, nat)>, c: nat): seq<nat>
  {
    if log == [] then []
    else Entries(log[..|log| - 1], c) + if log[|log| - 1].0 == c then [log[|log| - 1].1] else []
  }

  /** How many segments the call has written. */
  function Committed<R>(phase: Phase<R>): nat
  {
    if phase.Written? then phase.segment + 1 else phase.segment
  }

  /** The numbers below `n`. */
  function Upto(n: nat): seq<nat>
  {
    if n == 0 then [] else Upto(n - 1) + [n - 1]
  }

  /** Each call has written its first segments, once each and in order. */
  ghost predicate ProgramOrder<R>(s: State<R>)
  {
    forall c :: 0 <= c < |s.phases| ==> Entries(s.log, c) == Upto(Committed(s.phases[c]))
  }

  ghost predicate Serial<V(!new), R(!new)>(sys: System<V, R>, st: Storage<R>, s: State<R>)
    requires sys.K >= 2
  {
    && Inv(sys, s) && LogOk(sys, s.log)
    && Agree(sys, s.storage, Replay(sys, st, s.log)) && ProgramOrder(s)
  }

  lemma CommitIsStep<V(!new), R(!new)>(sys: System<V, R>, st: Storage<R>, c: nat, i: nat)
    requires sys.K >= 2 && sys.IsCall(c) && i < sys.Segments(c)
    ensures sys.SegmentStep(st, c, i) == sys.Commit(st, c, i, StorageGet(st, sys.SegmentKey(c, i), sys.calls[c].now))
  {
  }

  lemma CommitLocal<V(!new), R(!new)>(sys: System<V, R>, st: Storage<R>, other: Storage<R>, c: nat, i: nat, base: Option<R>)
    requires sys.K >= 2 && sys.IsCall(c) && i < sys.Segments(c)
    requires
      var key := sys.SegmentKey(c, i);
      (key in st <==> key in other) && (key in st ==> st[key] == other[key])
    ensures
      var key := sys.SegmentKey(c, i);
      var after, after' := sys.Commit(st, c, i, base), sys.Commit(other, c, i, base);
      (key in after <==> key in after') && (key in after ==> after[key] == after'[key])
  {
  }

  lemma CommitAgrees<V(!new), R(!new)>(sys: System<V, R>, st: Storage<R>, other: Storage<R>, c: nat, i: nat, base: Option<R>)
    requires sys.K >= 2 && sys.IsCall(c) && i < sys.Segments(c) && Agree(sys, st, other)
    requires sys.Guarded(sys.SegmentKey(c, i)) ==> base == StorageGet(st, sys.SegmentKey(c, i), sys.calls[c].now)
    ensures Agree(sys, sys.Commit(st, c, i, base), sys.SegmentStep(other, c, i))
  {
    var own := sys.SegmentKey(c, i);
    var base' := StorageGet(other, own, sys.calls[c].now);
    var after := sys.Commit(st, c, i, base);
    var after' := sys.Commit(other, c, i, base');
    CommitIsStep(sys, other, c, i);
    forall key | sys.Guarded(key)
      ensures (key in after <==> key in after') && (key in after ==> after[key] == after'[key])
    {
      if key == own {
        CommitLocal(sys, st, other, c, i, base);
      } else {
        CommitFrame(sys, st, c, i, base, key);
        CommitFrame(sys, other, c, i, base', key);
      }
    }
  }

  lemma EntriesSnoc(log: seq<(nat, nat)>, c: nat, i: nat, d: nat)
    ensures Entries(log + [(c, i)], d) == if c == d then Entries(log, d) + [i] else Entries(log, d)
  {
    assert (log + [(c, i)])[..|log|] == log;
  }

  lemma WriteOrder<V(!new), R(!new)>(sys: System<V, R>, s: State<R>, c: nat)
    requires sys.K >= 2 && WellFormed(sys, s) && ProgramOrder(s) && Enabled(sys, s, Write(c))
    ensures ProgramOrder(Next(sys, s, Write(c)))
  {
    var s' := Next(sys, s, Write(c));
    var i := s.phases[c].segment;
    forall d | 0 <= d < |s'.phases|
      ensures Entries(s'.log, d) == Upto(Committed(s'.phases[d]))
    {
      EntriesSnoc(s.log, c, i, d);
    }
  }

  lemma QuietOrder<V(!new), R(!new)>(sys: System<V, R>, s: State<R>, a: Action)
    requires sys.K >= 2 && WellFormed(sys, s) && ProgramOrder(s) && Enabled(sys, s, a) && !a.Write?
    ensures ProgramOrder(Next(sys, s, a)) && Next(sys, s, a).log == s.log && Next(sys, s, a).storage == s.storage
  {
  }

  lemma WriteSerial<V(!new), R(!new)>(sys: System<V, R>, st: Storage<R>, s: State<R>, c: nat)
    requires sys.K >= 2 && Serial(sys, st, s) && Enabled(sys, s, Write(c))
    ensures
      var s' := Next(sys, s, Write(c));
      LogOk(sys, s'.log) && Agree(sys, s'.storage, Replay(sys, st, s'.log))
  {
    var i := s.phases[c].segment;
    var log' := s.log + [(c, i)];
    assert log'[..|s.log|] == s.log && log'[|s.log|] == (c, i);
    CommitAgrees(sys, s.storage, Replay(sys, st, s.log), c, i, s.phases[c].base);
  }

  lemma NextSerial<V(!new), R(!new)>(sys: System<V, R>, st: Storage<R>, s: State<R>, a: Action)
    requires sys.K >= 2 && Serial(sys, st, s) && Enabled(sys, s, a)
    ensures Serial(sys, st, Next(sys, s, a))
  {
    NextInv(sys, s, a);
    if a.Write? {
      WriteOrder(sys, s, a.c);
      WriteSerial(sys, st, s, a.c);
    } else {
      QuietOrder(sys, s, a);
    }
  }

  /** In every state of every execution, under every guarded key, the storage holds what the logged segments
      produce when they run one after the other without interference: no update of such a key is lost. */
  lemma {:induction false} ExecutionsAreSerial<V(!new), R(!new)>(sys: System<V, R>, st: Storage<R>, acts: seq<Action>, run: seq<State<R>>, k: nat)
    requires sys.K >= 2 && Execution(sys, st, acts, run) && k <= |acts|
    ensures Serial(sys, st, run[k])
  {
    if k == 0 {
      InitialInv(sys, st);
    } else {
      ExecutionsAreSerial(sys, st, acts, run, k - 1);
      NextSerial(sys, st, run[k - 1], acts[k - 1]);
    }
  }

  /** With `minLevelSemaphore` 0 every key is guarded, so the whole storage is that of the serial run. */
  lemma LockedExecutionsAreSerial<V(!new), R(!new)>(sys: System<V, R>, st: Storage<R>, acts: seq<Action>, run: seq<State<R>>, k: nat)
    requires sys.K >= 2 && Execution(sys, st, acts, run) && k <= |acts|
    requires forall c :: 0 <= c < |sys.calls| ==> sys.calls[c].minLevelSemaphore == 0
    ensures LogOk(sys, run[k].log) && run[k].storage == Replay(sys, st, run[k].log)
  {
    ExecutionsAreSerial(sys, st, acts, run, k);
    forall key
      ensures sys.Guarded(key)
    {
    }
  }

  // ----- progress

  /** The steps left from the start of segment `i`. */
  function StepsFrom<V(!new), R(!new)>(sys: System<V, R>, c: nat, i: nat): nat
    requires sys.IsCall(c) && i <= sys.Segments(c)
    decreases sys.Segments(c) - i
  {
    if i == sys.Segments(c) then 0 else 6 + sys.Yields(c, i) + StepsFrom(sys, c, i + 1)
  }

  function StepsLeft<V(!new), R(!new)>(sys: System<V, R>, s: State<R>, c: nat): nat
    requires WellFormed(sys, s) && c < |s.phases|
  {
    match s.phases[c]
    case Ready(i) => StepsFrom(sys, c, i)
    case Holding(i) => StepsFrom(sys, c, i) - 1
    case Working(i, _, done) => StepsFrom(sys, c, i) - 2 - done
    case Written(i) => StepsFrom(sys, c, i + 1) + 2
    case Stopped(_) => 0
  }

  function StepsBelow<V(!new), R(!new)>(sys: System<V, R>, s: State<R>, n: nat): nat
    requires WellFormed(sys, s) && n <= |s.phases|
  {
    if n == 0 then 0 else StepsBelow(sys, s, n - 1) + StepsLeft(sys, s, n - 1)
  }

  /** An upper bound on the number of steps any execution can still take. */
  function Measure<V(!new), R(!new)>(sys: System<V, R>, s: State<R>): nat
    requires WellFormed(sys, s)
  {
    StepsBelow(sys, s, |s.phases|) + |s.pending|
  }

  lemma {:induction false} StepsBelowChange<V(!new), R(!new)>(sys: System<V, R>, s: State<R>, s': State<R>, c: nat, n: nat)
    requires WellFormed(sys, s) && WellFormed(sys, s') && c < |s.phases| && n <= |s.phases|
    requires forall d :: 0 <= d < |s.phases| && d != c ==> s'.phases[d] == s.phases[d]
    ensures StepsBelow(sys, s', n) ==
            StepsBelow(sys, s, n) + if c < n then StepsLeft(sys, s', c) - StepsLeft(sys, s, c) else 0
  {
    if n > 0 {
      StepsBelowChange(sys, s, s', c, n - 1);
    }
  }

  lemma NextDecreases<V(!new), R(!new)>(sys: System<V, R>, s: State<R>, a: Action)
    requires sys.K >= 2 && Inv(sys, s) && Enabled(sys, s, a)
    ensures WellFormed(sys, Next(sys, s, a)) && Measure(sys, Next(sys, s, a)) < Measure(sys, s)
  {
    NextInv(sys, s, a);
    var s' := Next(sys, s, a);
    if a.Release? {
      StepsSame(sys, s, s', |s.phases|);
      assert |s'.pending| == |s.pending| - 1;
    } else {
      StepsBelowChange(sys, s, s', a.c, |s.phases|);
    }
  }

  lemma {:induction false} StepsSame<V(!new), R(!new)>(sys: System<V, R>, s: State<R>, s': State<R>, n: nat)
    requires WellFormed(sys, s) && WellFormed(sys, s') && s.phases == s'.phases && n <= |s.phases|
    ensures StepsBelow(sys, s', n) == StepsBelow(sys, s, n)
  {
    if n > 0 {
      StepsSame(sys, s, s', n - 1);
    }
  }

  /** No execution goes on for ever: its length is bounded from the start. */
  lemma {:induction false} ExecutionsEnd<V(!new), R(!new)>(sys: System<V, R>, st: Storage<R>, acts: seq<Action>, run: seq<State<R>>, k: nat)
    requires sys.K >= 2 && Execution(sys, st, acts, run) && k <= |acts|
    ensures WellFormed(sys, run[0]) && WellFormed(sys, run[k])
    ensures k + Measure(sys, run[k]) <= Measure(sys, run[0])
  {
    ExecutionsAreSerial(sys, st, acts, run, k);
    ExecutionsAreSerial(sys, st, acts, run, 0);
    if k > 0 {
      ExecutionsEnd(sys, st, acts, run, k - 1);
      ExecutionsAreSerial(sys, st, acts, run, k - 1);
      NextDecreases(sys, run[k - 1], acts[k - 1]);
    }
  }

  predicate Finished<V(!new), R(!new)>(sys: System<V, R>, s: State<R>, c: nat)
    requires WellFormed(sys, s) && c < |s.phases|
  {
    s.phases[c].Stopped? || (s.phases[c].Ready? && s.phases[c].segment == sys.Segments(c))
  }

  /** An enabled step for any state with something left to do. */
  ghost function SomeStep<V(!new), R(!new)>(sys: System<V, R>, s: State<R>, c: nat): (a: Action)
    requires Inv(sys, s) && c < |s.phases| && !Finished(sys, s, c)
    ensures Enabled(sys, s, a) && !a.Abandon?
  {
    match s.phases[c]
    case Holding(_) => Fetch(c)
    case Working(i, _, done) => if done < sys.Yields(c, i) then Edit(c) else Write(c)
    case Written(_) => Schedule(c)
    case Ready(i) =>
      var key := sys.SegmentKey(c, i);
      if sys.TakesLock(c, i) && key in s.locks then
        var owner := s.locks[key];
        if (owner, key) in s.pending then Release(owner, key)
        else
          match s.phases[owner]
          case Holding(_) => Fetch(owner)
          case Working(j, _, done) => if done < sys.Yields(owner, j) then Edit(owner) else Write(owner)
          case Written(_) => Schedule(owner)
      else Acquire(c)
  }

  lemma StuckState<V(!new), R(!new)>(sys: System<V, R>, s: State<R>)
    requires Inv(sys, s) && forall a :: !Enabled(sys, s, a)
    ensures s.pending == {}
    ensures forall c :: 0 <= c < |s.phases| ==> Finished(sys, s, c)
  {
    forall c | 0 <= c < |s.phases|
      ensures Finished(sys, s, c)
    {
      if !Finished(sys, s, c) {
        var a := SomeStep(sys, s, c);
      }
    }
    if s.pending != {} {
      var x :| x in s.pending;
      assert Enabled(sys, s, Release(x.0, x.1));
    }
  }

  lemma OwnerIsInside<V(!new), R(!new)>(sys: System<V, R>, s: State<R>, key: string)
    requires Inv(sys, s) && s.pending == {} && key in s.locks
    ensures s.locks[key] < |s.phases| && !Finished(sys, s, s.locks[key])
  {
    assert Inside(sys, s, s.locks[key], key);
  }

  /** An execution that cannot go on has every call finished or stopped, every release run and no lock held. */
  lemma StuckIsFinished<V(!new), R(!new)>(sys: System<V, R>, st: Storage<R>, acts: seq<Action>, run: seq<State<R>>)
    requires sys.K >= 2 && Execution(sys, st, acts, run)
    requires WellFormed(sys, run[|acts|]) ==> forall a :: !Enabled(sys, run[|acts|], a)
    ensures
      var s := run[|acts|];
      && WellFormed(sys, s) && s.locks == map[] && s.pending == {}
      && forall c :: 0 <= c < |s.phases| ==> Finished(sys, s, c)
  {
    var s := run[|acts|];
    assert Inv(sys, s) by {
      ExecutionsAreSerial(sys, st, acts, run, |acts|);
    }
    StuckState(sys, s);
    if s.locks != map[] {
      var key :| key in s.locks;
      OwnerIsInside(sys, s, key);
    }
  }
}

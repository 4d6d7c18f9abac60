/** What the segments of a call are: each one an update of the path map at the nodes it holds, and all of them
    together `deepTreeSet`. */
module Segments {
  import opened Keys
  import opened HybridStore
  import opened PathMap
  import opened Locking

  /** The segment in which a path of this length is written. */
  function SegmentOf(K: nat, length: nat): nat
    requires 0 < K && 0 < length
  {
    if length < K then length - 1 else K - 1
  }

  /** What one segment does to what readers find. */
  lemma SegmentReads<V(!new), R(!new)>(sys: System<V, R>, st: Storage<R>, c: nat, i: nat, q: Path)
    requires sys.codec.Lawful() && sys.Valid() && sys.IsCall(c) && i < sys.Segments(c) && ValidPath(sys.K, q)
    ensures
      var call := sys.calls[c];
      var before := Read(sys.codec, sys.K, st, q, call.now);
      Read(sys.codec, sys.K, sys.SegmentStep(st, c, i), q, call.now) ==
      if q <= call.path && SegmentOf(sys.K, |q|) == i then AfterStep(call, q, before) else before
  {
    var call := sys.calls[c];
    if i + 1 < sys.K {
      KeyUpdateReads(sys.codec, sys.K, call, st, i + 1, q);
      assert q == call.path[..i + 1] <==> |q| == i + 1 && q <= call.path;
    } else {
      TreeUpdateReads(sys.codec, sys.K, call, st, q);
    }
  }

  lemma SegmentTimeless<V(!new), R(!new)>(sys: System<V, R>, st: Storage<R>, c: nat, i: nat)
    requires sys.codec.Lawful() && sys.Valid() && sys.IsCall(c) && i < sys.Segments(c)
    requires Timeless(sys.codec, sys.K, st) && Untimed(sys.calls[c])
    ensures Timeless(sys.codec, sys.K, sys.SegmentStep(st, c, i))
  {
    if i + 1 < sys.K {
      KeyUpdateTimeless(sys.codec, sys.K, sys.calls[c], st, i + 1);
    } else {
      TreeUpdateTimeless(sys.codec, sys.K, sys.calls[c], st);
    }
  }

  // ----- all segments of a call

  /** The steps that the first `n` segments of the call yield. */
  function StepsIn<V(!new), R(!new)>(sys: System<V, R>, c: nat, n: nat): nat
    requires sys.IsCall(c) && n <= sys.Segments(c)
  {
    if n == 0 then 0 else StepsIn(sys, c, n - 1) + sys.Yields(c, n - 1)
  }

  /** A call yields one step for every key of its path. */
  lemma {:induction false} OneStepPerKey<V(!new), R(!new)>(sys: System<V, R>, c: nat, n: nat)
    requires sys.K >= 1 && sys.IsCall(c) && n <= sys.Segments(c)
    ensures StepsIn(sys, c, n) == if n == sys.Segments(c) then |sys.calls[c].path| else n
  {
    if n > 0 {
      OneStepPerKey(sys, c, n - 1);
    }
  }

  /** The log of the first `n` segments of call `c`. */
  function CallLog(c: nat, n: nat): seq<(nat, nat)>
  {
    if n == 0 then [] else CallLog(c, n - 1) + [(c, n - 1)]
  }

  lemma ReplaySnoc<V(!new), R(!new)>(sys: System<V, R>, st: Storage<R>, log: seq<(nat, nat)>, c: nat, i: nat)
    requires sys.K >= 2 && LogOk(sys, log) && sys.IsCall(c) && i < sys.Segments(c)
    ensures LogOk(sys, log + [(c, i)]) && Replay(sys, st, log + [(c, i)]) == sys.SegmentStep(Replay(sys, st, log), c, i)
  {
    assert (log + [(c, i)])[..|log|] == log;
  }

  lemma KeySegmentStep<V(!new), R(!new)>(sys: System<V, R>, st: Storage<R>, c: nat, n: nat)
    requires sys.K >= 2 && sys.IsCall(c) && 0 < n <= sys.Segments(c) && n < sys.K
    ensures KeyUpdates(sys.codec, sys.calls[c], st, n) ==
            sys.SegmentStep(KeyUpdates(sys.codec, sys.calls[c], st, n - 1), c, n - 1)
  {
  }

  lemma {:induction false} KeySegments<V(!new), R(!new)>(sys: System<V, R>, st: Storage<R>, c: nat, n: nat)
    requires sys.K >= 2 && sys.IsCall(c) && n <= sys.Segments(c) && n < sys.K
    ensures LogOk(sys, CallLog(c, n)) && Replay(sys, st, CallLog(c, n)) == KeyUpdates(sys.codec, sys.calls[c], st, n)
  {
    if n > 0 {
      var log := CallLog(c, n - 1);
      KeySegments(sys, st, c, n - 1);
      assert CallLog(c, n) == log + [(c, n - 1)];
      assert LogOk(sys, CallLog(c, n)) && Replay(sys, st, CallLog(c, n)) == sys.SegmentStep(Replay(sys, st, log), c, n - 1) by {
        ReplaySnoc(sys, st, log, c, n - 1);
      }
      KeySegmentStep(sys, st, c, n);
    }
  }

  /** What comes after the key levels: nothing, or the segment of the tree. */
  lemma LastSegment<V(!new), R(!new)>(sys: System<V, R>, st: Storage<R>, c: nat)
    requires sys.Valid() && sys.IsCall(c)
    ensures
      var n := KeyLevels(sys.K, |sys.calls[c].path|);
      var above := KeyUpdates(sys.codec, sys.calls[c], st, n);
      && n <= sys.Segments(c) <= n + 1 && n < sys.K
      && DeepSet(sys.codec, sys.K, sys.calls[c], st) == if n < sys.Segments(c) then sys.SegmentStep(above, c, n) else above
  {
    DeepSetParts(sys.codec, sys.K, sys.calls[c], st);
  }

  /** One call's segments, one after the other without interference, are `deepTreeSet`. */
  lemma SegmentsAreDeepSet<V(!new), R(!new)>(sys: System<V, R>, st: Storage<R>, c: nat)
    requires sys.Valid() && sys.IsCall(c)
    ensures
      var log := CallLog(c, sys.Segments(c));
      LogOk(sys, log) && Replay(sys, st, log) == DeepSet(sys.codec, sys.K, sys.calls[c], st)
  {
    var n := KeyLevels(sys.K, |sys.calls[c].path|);
    LastSegment(sys, st, c);
    KeySegments(sys, st, c, n);
    if n < sys.Segments(c) {
      ReplaySnoc(sys, st, CallLog(c, n), c, n);
    }
  }

  lemma {:induction false} ReplayAppend<V(!new), R(!new)>(sys: System<V, R>, st: Storage<R>, log: seq<(nat, nat)>, more: seq<(nat, nat)>)
    requires sys.K >= 2 && LogOk(sys, log) && LogOk(sys, more)
    ensures LogOk(sys, log + more) && Replay(sys, st, log + more) == Replay(sys, Replay(sys, st, log), more)
  {
    if more == [] {
      assert log + more == log;
    } else {
      ReplayAppend(sys, st, log, more[..|more| - 1]);
      assert (log + more)[..|log + more| - 1] == log + more[..|more| - 1];
    }
  }

  /** The log of whole calls, one after the other. */
  function CallsLog<V(!new), R(!new)>(sys: System<V, R>, order: seq<nat>): seq<(nat, nat)>
    requires forall i :: 0 <= i < |order| ==> sys.IsCall(order[i])
  {
    if order == [] then []
    else CallsLog(sys, order[..|order| - 1]) + CallLog(order[|order| - 1], sys.Segments(order[|order| - 1]))
  }

  ghost function DeepSets<V(!new), R(!new)>(sys: System<V, R>, st: Storage<R>, order: seq<nat>): Storage<R>
    requires forall i :: 0 <= i < |order| ==> sys.IsCall(order[i])
  {
    if order == [] then st
    else
      var last := order[|order| - 1];
      assert sys.IsCall(last);
      DeepSet(sys.codec, sys.K, sys.calls[last], DeepSets(sys, st, order[..|order| - 1]))
  }

  /** Calls that follow each other without overlap do what the same sequence of `deepTreeSet` calls does. */
  lemma {:induction false} CallsInTurnAreDeepSets<V(!new), R(!new)>(sys: System<V, R>, st: Storage<R>, order: seq<nat>)
    requires sys.Valid() && forall i :: 0 <= i < |order| ==> sys.IsCall(order[i])
    ensures LogOk(sys, CallsLog(sys, order)) && Replay(sys, st, CallsLog(sys, order)) == DeepSets(sys, st, order)
  {
    if order != [] {
      var before, last := order[..|order| - 1], order[|order| - 1];
      CallsInTurnAreDeepSets(sys, st, before);
      SegmentsAreDeepSet(sys, DeepSets(sys, st, before), last);
      ReplayAppend(sys, st, CallsLog(sys, before), CallLog(last, sys.Segments(last)));
    }
  }
}

/**
 * The process-wide GLib loop owner of `streamproc.py` (`GLibThread`): an
 * ordered list of stop callbacks and a main loop that `stop` quits.
 *
 * A callback is known by its identity only (Python compares bound methods
 * by their object and function, so one `StreamProc.stop` per object). What
 * a callback does when `stop` invokes it is supplied by the environment as
 * an `Effect`: it returns, it raises, or, like `StreamProc.stop`, it removes
 * itself from the very list being iterated and then returns.
 */
module GLib {
  import opened Wrappers
  import Lists

  /** Identity of a registered stop callback. */
  type Callback = nat

  /** What a callback does when it is invoked. */
  datatype Effect =
    | Return       // returns normally
    | RemoveSelf   // calls `unregister_stop_callback(itself)`, then returns
    | Raise        // raises an exception

  /** What one call of `stop` did: the callbacks invoked, in order, the list left behind, and whether it raised. */
  datatype StopTrace = StopTrace(invoked: seq<Callback>, remaining: seq<Callback>, raised: bool)

  /**
   * The `for cb in self.stop_callbacks` loop of `stop`, continued from list
   * index `i`. Python walks a list by position, so when a callback removes
   * itself the next element slides into the position already visited.
   */
  function RunFrom(cbs: seq<Callback>, i: nat, effect: Callback -> Effect): (t: StopTrace)
    // callbacks only ever leave the list
    ensures |t.remaining| <= |cbs|
    decreases |cbs| - i
  {
    if i >= |cbs| then StopTrace([], cbs, false)
    else
      var cb := cbs[i];
      match effect(cb)
      case Raise => StopTrace([cb], cbs, true)
      case Return =>
        var t := RunFrom(cbs, i + 1, effect);
        t.(invoked := [cb] + t.invoked)
      case RemoveSelf =>
        var t := RunFrom(Lists.RemoveFirst(cbs, cb).value, i + 1, effect);
        t.(invoked := [cb] + t.invoked)
  }

  class GLibThread {
    /** `self.stop_callbacks` */
    var stopCallbacks: seq<Callback>
    /** Whether `self.loop` is still running. */
    var loopRunning: bool

    /** `__init__`: the loop is started and no callback is registered. */
    constructor ()
      ensures stopCallbacks == [] && loopRunning
    {
      stopCallbacks := [];
      loopRunning := true;
    }

    /** `register_stop_callback`: appends at the end. */
    method Register(cb: Callback)
      modifies this
      ensures stopCallbacks == old(stopCallbacks) + [cb]
      ensures loopRunning == old(loopRunning)
    {
      stopCallbacks := stopCallbacks + [cb];
    }

    /** `unregister_stop_callback`: `list.remove`, which raises `ValueError` when `cb` is absent. */
    method Unregister(cb: Callback) returns (r: Outcome)
      modifies this
      ensures r.Pass? <==> cb in old(stopCallbacks)
      ensures r.Fail? ==> r.error == ValueError && stopCallbacks == old(stopCallbacks)
      ensures r.Pass? ==> Some(stopCallbacks) == Lists.RemoveFirst(old(stopCallbacks), cb)
      ensures loopRunning == old(loopRunning)
    {
      var removed := Lists.RemoveFirst(stopCallbacks, cb);
      if removed.None? {
        r := Fail(ValueError);
      } else {
        stopCallbacks := removed.value;
        r := Pass;
      }
    }

    /**
     * `stop`: invokes the callbacks by index over the live list, stops at the
     * first one that raises, and quits the loop in a `finally` whatever
     * happened. The exception, if any, propagates to the caller.
     */
    method Stop(effect: Callback -> Effect) returns (invoked: seq<Callback>, r: Outcome)
      modifies this
      ensures RunFrom(old(stopCallbacks), 0, effect) == StopTrace(invoked, stopCallbacks, r.Fail?)
      ensures r.Fail? ==> r.error == CallbackError
      ensures !loopRunning
    {
      invoked := [];
      r := Pass;
      var i := 0;
      ResumeNothing(RunFrom(stopCallbacks, 0, effect));
      while i < |stopCallbacks|
        invariant r == Pass
        invariant RunFrom(old(stopCallbacks), 0, effect) == ResumeFrom(stopCallbacks, i, effect, invoked)
        decreases |stopCallbacks| - i
      {
        var cb := stopCallbacks[i];
        ghost var live := stopCallbacks;
        FromStep(live, i, effect, invoked);
        i := i + 1;
        invoked := invoked + [cb];
        match effect(cb)
        case Raise =>
          r := Fail(CallbackError);
          break;
        case Return =>
          assert stopCallbacks == AfterCall(live, cb, effect);
        case RemoveSelf =>
          var unregistered := Unregister(cb);
          assert stopCallbacks == AfterCall(live, cb, effect);
      }
      assert r.Pass? ==> ResumeFrom(stopCallbacks, i, effect, invoked) == StopTrace(invoked, stopCallbacks, false);
      loopRunning := false;
    }

    /**
     * `stop` as evidently intended: the loop walks a copy of the list taken
     * before the first callback runs, so a callback that unregisters itself
     * does not make the loop skip the next one.
     */
    method StopSnapshot(effect: Callback -> Effect) returns (invoked: seq<Callback>, r: Outcome)
      modifies this
      ensures RunSnapshot(old(stopCallbacks), old(stopCallbacks), effect) == StopTrace(invoked, stopCallbacks, r.Fail?)
      ensures r.Fail? ==> r.error == CallbackError
      ensures !loopRunning
    {
      var snapshot := stopCallbacks;
      invoked := [];
      r := Pass;
      var i := 0;
      ResumeNothing(RunSnapshot(snapshot, snapshot, effect));
      assert snapshot[0..] == snapshot;
      while i < |snapshot|
        invariant i <= |snapshot|
        invariant RunSnapshot(snapshot, snapshot, effect) == ResumeSnapshot(snapshot[i..], stopCallbacks, effect, invoked)
      {
        var cb := snapshot[i];
        ghost var live := stopCallbacks;
        SnapshotStep(snapshot, i, live, effect, invoked);
        i := i + 1;
        invoked := invoked + [cb];
        match effect(cb)
        case Raise =>
          r := Fail(CallbackError);
          break;
        case Return =>
          assert stopCallbacks == AfterCall(live, cb, effect);
        case RemoveSelf =>
          var unregistered := Unregister(cb);
          assert stopCallbacks == AfterCall(live, cb, effect);
      }
      loopRunning := false;
    }
  }

  /** The list after callback `cb` ran: without `cb` if it unregistered itself while registered. */
  function AfterCall(live: seq<Callback>, cb: Callback, effect: Callback -> Effect): (next: seq<Callback>)
    ensures effect(cb) != RemoveSelf || cb !in live ==> next == live
    ensures effect(cb) == RemoveSelf && cb in live ==> Some(next) == Lists.RemoveFirst(live, cb)
  {
    var after := Lists.RemoveFirst(live, cb);
    if effect(cb) == RemoveSelf && after.Some? then after.value else live
  }

  /** The rest of a `stop` run from list position `i`, after the callbacks `seen` were invoked. */
  ghost function ResumeFrom(live: seq<Callback>, i: nat, effect: Callback -> Effect, seen: seq<Callback>): StopTrace
  {
    var t := RunFrom(live, i, effect);
    t.(invoked := seen + t.invoked)
  }

  /** The rest of a run over the copy `rest`, after the callbacks `seen` were invoked. */
  ghost function ResumeSnapshot(rest: seq<Callback>, live: seq<Callback>, effect: Callback -> Effect, seen: seq<Callback>): StopTrace
  {
    var t := RunSnapshot(rest, live, effect);
    t.(invoked := seen + t.invoked)
  }

  /** Before any callback ran, the rest of the run is the whole run. */
  lemma ResumeNothing(t: StopTrace)
    ensures t.(invoked := [] + t.invoked) == t
  {
    assert [] + t.invoked == t.invoked;
  }

  /**
   * One pass of the index loop of `stop`: the callback at `i` raises and
   * ends the run, or runs and the loop goes on at `i + 1` over the list it
   * left behind.
   */
  lemma FromStep(live: seq<Callback>, i: nat, effect: Callback -> Effect, seen: seq<Callback>)
    requires i < |live|
    ensures effect(live[i]) == Raise ==> ResumeFrom(live, i, effect, seen) == StopTrace(seen + [live[i]], live, true)
    ensures effect(live[i]) != Raise ==>
      ResumeFrom(live, i, effect, seen) == ResumeFrom(AfterCall(live, live[i], effect), i + 1, effect, seen + [live[i]])
  {
    var t := RunFrom(AfterCall(live, live[i], effect), i + 1, effect);
    assert seen + ([live[i]] + t.invoked) == (seen + [live[i]]) + t.invoked;
  }

  /** One pass of the loop over a copy of the list, in the same terms. */
  lemma SnapshotStep(snapshot: seq<Callback>, i: nat, live: seq<Callback>, effect: Callback -> Effect, seen: seq<Callback>)
    requires i < |snapshot|
    ensures effect(snapshot[i]) == Raise ==>
      ResumeSnapshot(snapshot[i..], live, effect, seen) == StopTrace(seen + [snapshot[i]], live, true)
    ensures effect(snapshot[i]) != Raise ==>
      ResumeSnapshot(snapshot[i..], live, effect, seen)
        == ResumeSnapshot(snapshot[i + 1..], AfterCall(live, snapshot[i], effect), effect, seen + [snapshot[i]])
  {
    assert snapshot[i..][0] == snapshot[i];
    assert snapshot[i..][1..] == snapshot[i + 1..];
    var t := RunSnapshot(snapshot[i + 1..], AfterCall(live, snapshot[i], effect), effect);
    assert seen + ([snapshot[i]] + t.invoked) == (seen + [snapshot[i]]) + t.invoked;
  }

  /** Every callback returns: all of them run, in registration order, and the list is kept. */
  lemma {:induction false} StopInvokesAllInOrder(cbs: seq<Callback>, i: nat, effect: Callback -> Effect)
    requires i <= |cbs|
    requires forall k :: i <= k < |cbs| ==> effect(cbs[k]) == Return
    ensures RunFrom(cbs, i, effect) == StopTrace(cbs[i..], cbs, false)
    decreases |cbs| - i
  {
    if i < |cbs| {
      StopInvokesAllInOrder(cbs, i + 1, effect);
      assert cbs[i..] == [cbs[i]] + cbs[i + 1..];
    }
  }

  /**
   * The callback at position `k` raises and the ones before it return: the
   * callbacks after it are never invoked, `stop` raises and the list is kept.
   */
  lemma {:induction false} StopSkipsAfterRaise(cbs: seq<Callback>, i: nat, k: nat, effect: Callback -> Effect)
    requires i <= k < |cbs|
    requires effect(cbs[k]) == Raise
    requires forall j :: i <= j < k ==> effect(cbs[j]) == Return
    ensures RunFrom(cbs, i, effect) == StopTrace(cbs[i..k + 1], cbs, true)
    decreases k - i
  {
    if i < k {
      StopSkipsAfterRaise(cbs, i + 1, k, effect);
      assert cbs[i..k + 1] == [cbs[i]] + cbs[i + 1..k + 1];
    }
  }

  /**
   * Whatever the callbacks do, `stop` raises exactly when the last callback
   * it invoked raised, and none of the callbacks before that one raised: the
   * first exception ends the loop.
   */
  lemma {:induction false} RaiseEndsRun(cbs: seq<Callback>, i: nat, effect: Callback -> Effect)
    ensures var t := RunFrom(cbs, i, effect);
      t.raised <==> t.invoked != [] && effect(t.invoked[|t.invoked| - 1]) == Raise
    ensures var t := RunFrom(cbs, i, effect);
      forall k :: 0 <= k < |t.invoked| - 1 ==> effect(t.invoked[k]) != Raise
    decreases |cbs| - i
  {
    if i < |cbs| && effect(cbs[i]) != Raise {
      var next := AfterCall(cbs, cbs[i], effect);
      var rest := RunFrom(next, i + 1, effect);
      RaiseEndsRun(next, i + 1, effect);
      assert RunFrom(cbs, i, effect) == rest.(invoked := [cbs[i]] + rest.invoked);
      var t := RunFrom(cbs, i, effect);
      forall k | 0 <= k < |t.invoked| - 1 ensures effect(t.invoked[k]) != Raise {
        if k > 0 {
          assert t.invoked[k] == rest.invoked[k - 1];
        }
      }
    }
  }

  /** The loop invokes at most one callback per list position from `i` on. */
  lemma {:induction false} RunFromBounded(cbs: seq<Callback>, i: nat, effect: Callback -> Effect)
    ensures i >= |cbs| ==> RunFrom(cbs, i, effect).invoked == []
    ensures i < |cbs| ==> |RunFrom(cbs, i, effect).invoked| <= |cbs| - i
    decreases |cbs| - i
  {
    if i < |cbs| && effect(cbs[i]) != Raise {
      var next := AfterCall(cbs, cbs[i], effect);
      RunFromBounded(next, i + 1, effect);
    }
  }

  /**
   * Callbacks only ever leave the list while `stop` runs, and only ones
   * that were invoked: each removal is a callback removing itself.
   */
  lemma {:induction false} RunFromShrinks(cbs: seq<Callback>, i: nat, effect: Callback -> Effect)
    ensures multiset(RunFrom(cbs, i, effect).remaining) <= multiset(cbs)
    ensures multiset(cbs) - multiset(RunFrom(cbs, i, effect).remaining) <= multiset(RunFrom(cbs, i, effect).invoked)
    decreases |cbs| - i
  {
    if i < |cbs| && effect(cbs[i]) != Raise {
      var cb := cbs[i];
      var next := AfterCall(cbs, cb, effect);
      RunFromShrinks(next, i + 1, effect);
      if effect(cb) == RemoveSelf {
        assert multiset(next) == multiset(cbs) - multiset{cb};
        assert cb in multiset(cbs);
      }
    }
  }

  /** Every other element of `s`, starting with the first. */
  function EveryOther<T>(s: seq<T>): (r: seq<T>)
    ensures |r| == (|s| + 1) / 2
  {
    if |s| <= 1 then s else [s[0]] + EveryOther(s[2..])
  }

  /** In a list without duplicates, the element at `i` is the one `list.remove` takes out. */
  lemma RemoveAtIndex(cbs: seq<Callback>, i: nat)
    requires i < |cbs| && Lists.NoDup(cbs)
    ensures Lists.RemoveFirst(cbs, cbs[i]) == Some(cbs[..i] + cbs[i + 1..])
    ensures Lists.NoDup(cbs[..i] + cbs[i + 1..])
  {
    var rest := cbs[..i] + cbs[i + 1..];
    assert Lists.FirstIndex(cbs, cbs[i]) == i;
    forall a, b | 0 <= a < b < |rest| ensures rest[a] != rest[b] {
      assert rest[a] == cbs[if a < i then a else a + 1];
      assert rest[b] == cbs[if b < i then b else b + 1];
    }
  }

  /**
   * Callbacks that each remove themselves (`StreamProc.stop`) are invoked
   * only at every other position: removing the current element shifts the
   * next one into the slot already visited, so it is skipped and stays
   * registered.
   */
  lemma {:induction false} SelfRemovalSkipsNext(cbs: seq<Callback>, i: nat, effect: Callback -> Effect)
    requires i <= |cbs|
    requires Lists.NoDup(cbs)
    requires forall k :: i <= k < |cbs| ==> effect(cbs[k]) == RemoveSelf
    ensures RunFrom(cbs, i, effect).invoked == EveryOther(cbs[i..])
    ensures RunFrom(cbs, i, effect).remaining == cbs[..i] + (if i < |cbs| then EveryOther(cbs[i + 1..]) else [])
    ensures !RunFrom(cbs, i, effect).raised
    decreases |cbs| - i
  {
    if i < |cbs| {
      var cb := cbs[i];
      var rest := cbs[..i] + cbs[i + 1..];
      assert effect(cb) == RemoveSelf;
      RemoveAtIndex(cbs, i);
      assert forall k :: i + 1 <= k < |rest| ==> rest[k] == cbs[k + 1];
      var t := RunFrom(rest, i + 1, effect);
      assert RunFrom(cbs, i, effect) == t.(invoked := [cb] + t.invoked);
      if i + 1 < |cbs| {
        SelfRemovalSkipsNext(rest, i + 1, effect);
        RemovedTail(cbs, i);
      } else {
        assert t == StopTrace([], rest, false);
        assert rest == cbs[..i];
        assert cbs[i..] == [cb];
      }
    }
  }

  /** The shape of the list after the element at `i` removed itself, seen from position `i + 1`. */
  lemma RemovedTail(cbs: seq<Callback>, i: nat)
    requires i + 1 < |cbs|
    ensures var rest := cbs[..i] + cbs[i + 1..];
      && rest[i + 1..] == cbs[i + 2..]
      && rest[..i + 1] + (if i + 1 < |rest| then EveryOther(rest[i + 2..]) else []) == cbs[..i] + EveryOther(cbs[i + 1..])
      && [cbs[i]] + EveryOther(rest[i + 1..]) == EveryOther(cbs[i..])
  {
    var rest := cbs[..i] + cbs[i + 1..];
    assert rest[i + 1..] == cbs[i + 2..];
    assert rest[..i + 1] == cbs[..i] + [cbs[i + 1]];
    EveryOtherCons(cbs[i..]);
    assert cbs[i..][2..] == cbs[i + 2..];
    if i + 2 < |cbs| {
      assert rest[i + 2..] == cbs[i + 3..];
      EveryOtherCons(cbs[i + 1..]);
      assert cbs[i + 1..][2..] == cbs[i + 3..];
    } else {
      assert cbs[i + 1..] == [cbs[i + 1]];
    }
  }

  /** `EveryOther` keeps the head and skips the element after it. */
  lemma EveryOtherCons<T>(s: seq<T>)
    requires |s| >= 2
    ensures EveryOther(s) == [s[0]] + EveryOther(s[2..])
  {
  }

  /** Two stream processors registered side by side: only the first is stopped. */
  lemma TwoStreamsSecondSkipped(a: Callback, b: Callback, effect: Callback -> Effect)
    requires a != b && effect(a) == RemoveSelf && effect(b) == RemoveSelf
    ensures RunFrom([a, b], 0, effect) == StopTrace([a], [b], false)
  {
    SelfRemovalSkipsNext([a, b], 0, effect);
    assert [a, b][1..] == [b];
  }

  /**
   * Four stream processors and two calls of `stop` (the signal handler's,
   * then the `atexit` hook's): the last processor is still registered, so
   * its pipelines are never stopped.
   */
  lemma FourStreamsTwoStops(cbs: seq<Callback>, effect: Callback -> Effect)
    requires |cbs| == 4 && Lists.NoDup(cbs)
    requires forall k :: 0 <= k < |cbs| ==> effect(cbs[k]) == RemoveSelf
    ensures RunFrom(cbs, 0, effect).remaining == [cbs[1], cbs[3]]
    ensures RunFrom([cbs[1], cbs[3]], 0, effect).remaining == [cbs[3]]
  {
    SelfRemovalSkipsNext(cbs, 0, effect);
    var tail := cbs[1..];
    assert cbs[..0] == [];
    EveryOtherCons(tail);
    assert tail[2..] == [cbs[3]];
    assert EveryOther(tail) == [cbs[1], cbs[3]];
    assert cbs[1] != cbs[3];
    TwoStreamsSecondSkipped(cbs[1], cbs[3], effect);
  }

  /**
   * `stop` as evidently intended: iterate over a snapshot of the list
   * (`for cb in list(self.stop_callbacks)`), so that removals made by the
   * callbacks do not shift the iteration.
   */
  function RunSnapshot(snapshot: seq<Callback>, live: seq<Callback>, effect: Callback -> Effect): (t: StopTrace)
    // at most one callback per entry of the copy; callbacks only ever leave the list
    ensures |t.invoked| <= |snapshot|
    ensures |t.remaining| <= |live|
    // only a callback that raises makes `stop` raise
    ensures t.raised ==> t.invoked != [] && effect(t.invoked[|t.invoked| - 1]) == Raise
  {
    if snapshot == [] then StopTrace([], live, false)
    else
      var cb := snapshot[0];
      match effect(cb)
      case Raise => StopTrace([cb], live, true)
      case Return =>
        var t := RunSnapshot(snapshot[1..], live, effect);
        t.(invoked := [cb] + t.invoked)
      case RemoveSelf =>
        var after := Lists.RemoveFirst(live, cb);
        var t := RunSnapshot(snapshot[1..], if after.Some? then after.value else live, effect);
        t.(invoked := [cb] + t.invoked)
  }

  /**
   * Over a snapshot too, callbacks only ever leave the live list, and
   * only ones that were invoked.
   */
  lemma {:induction false} RunSnapshotShrinks(snapshot: seq<Callback>, live: seq<Callback>, effect: Callback -> Effect)
    ensures multiset(RunSnapshot(snapshot, live, effect).remaining) <= multiset(live)
    ensures multiset(live) - multiset(RunSnapshot(snapshot, live, effect).remaining) <= multiset(RunSnapshot(snapshot, live, effect).invoked)
  {
    if snapshot != [] && effect(snapshot[0]) != Raise {
      var cb := snapshot[0];
      var after := Lists.RemoveFirst(live, cb);
      var next := if effect(cb) == RemoveSelf && after.Some? then after.value else live;
      RunSnapshotShrinks(snapshot[1..], next, effect);
      if effect(cb) == RemoveSelf && after.Some? {
        assert multiset(next) == multiset(live) - multiset{cb};
        assert cb in multiset(live);
      }
    }
  }

  /** Over a snapshot, the callbacks invoked are the snapshot's first ones, in order, whatever they do. */
  lemma {:induction false} SnapshotRunsPrefix(snapshot: seq<Callback>, live: seq<Callback>, effect: Callback -> Effect)
    ensures RunSnapshot(snapshot, live, effect).invoked <= snapshot
  {
    if snapshot != [] {
      if effect(snapshot[0]) == Raise {
        assert RunSnapshot(snapshot, live, effect).invoked == snapshot[..1];
      } else {
        var after := Lists.RemoveFirst(live, snapshot[0]);
        var next := if effect(snapshot[0]) == RemoveSelf && after.Some? then after.value else live;
        var rest := RunSnapshot(snapshot[1..], next, effect).invoked;
        SnapshotRunsPrefix(snapshot[1..], next, effect);
        assert RunSnapshot(snapshot, live, effect).invoked == [snapshot[0]] + rest;
        assert snapshot[..1 + |rest|] == [snapshot[0]] + snapshot[1..][..|rest|];
      }
    }
  }

  /** Over a snapshot, every callback that does not raise is invoked, in registration order. */
  lemma {:induction false} SnapshotInvokesAll(snapshot: seq<Callback>, live: seq<Callback>, effect: Callback -> Effect)
    requires forall k :: 0 <= k < |snapshot| ==> effect(snapshot[k]) != Raise
    ensures RunSnapshot(snapshot, live, effect).invoked == snapshot
    ensures !RunSnapshot(snapshot, live, effect).raised
  {
    if snapshot != [] {
      assert effect(snapshot[0]) != Raise;
      var after := Lists.RemoveFirst(live, snapshot[0]);
      SnapshotInvokesAll(snapshot[1..], live, effect);
      SnapshotInvokesAll(snapshot[1..], if after.Some? then after.value else live, effect);
    }
  }

  /** Over a snapshot of the whole list, stream processors that each remove themselves are all stopped and all unregistered. */
  lemma {:induction false} SnapshotStopsAllStreams(snapshot: seq<Callback>, live: seq<Callback>, effect: Callback -> Effect)
    requires snapshot == live
    requires forall cb :: cb in snapshot ==> effect(cb) == RemoveSelf
    ensures RunSnapshot(snapshot, live, effect) == StopTrace(snapshot, [], false)
  {
    if snapshot != [] {
      var rest := snapshot[1..];
      SnapshotHead(snapshot, live, effect);
      SnapshotStopsAllStreams(rest, rest, effect);
      assert [snapshot[0]] + rest == snapshot;
    }
  }

  /** A first callback that is also first in the live list removes itself from the front. */
  lemma SnapshotHead(snapshot: seq<Callback>, live: seq<Callback>, effect: Callback -> Effect)
    requires snapshot != [] && live != [] && live[0] == snapshot[0] && effect(snapshot[0]) == RemoveSelf
    ensures RunSnapshot(snapshot, live, effect) ==
      var t := RunSnapshot(snapshot[1..], live[1..], effect); t.(invoked := [snapshot[0]] + t.invoked)
  {
    Lists.RemoveFirstHead(live, snapshot[0]);
  }
}

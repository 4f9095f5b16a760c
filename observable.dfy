/** The observable state container `useState`: a mutable cell with an ordered
    list of watchers that are called synchronously whenever the value is
    replaced. Watchers are identified by an id; what a watcher does when it is
    called is outside this module, so a call is recorded in a ghost trace. */
module Observable {
  import opened Wrappers

  /** Identity of a registered watcher callback. */
  type WatcherId = nat

  /** One call `watcher(current, previous)`; `previous` is None for the
      `null` passed by an immediate watch. */
  datatype Call<T> = Call(watcher: WatcherId, current: T, previous: Option<T>)

  /** The calls one notification round makes: every watcher in `ws`, in
      order, with the same pair of values. */
  function Round<T>(ws: seq<WatcherId>, cur: T, prev: Option<T>): seq<Call<T>>
  {
    if ws == [] then []
    else Round(ws[..|ws| - 1], cur, prev) + [Call(ws[|ws| - 1], cur, prev)]
  }

  /** Number of calls in `trace` made to watcher `id`. */
  function CallsTo<T>(trace: seq<Call<T>>, id: WatcherId): nat
  {
    if trace == [] then 0
    else CallsTo(trace[..|trace| - 1], id) + (if trace[|trace| - 1].watcher == id then 1 else 0)
  }

  /** A round makes exactly one call per registration, the k-th call going to
      the k-th registered watcher with the new and the previous value. */
  lemma {:induction false} RoundOrder<T>(ws: seq<WatcherId>, cur: T, prev: Option<T>)
    ensures |Round(ws, cur, prev)| == |ws|
    ensures forall k :: 0 <= k < |ws| ==> Round(ws, cur, prev)[k] == Call(ws[k], cur, prev)
  {
    if ws != [] {
      var n := |ws| - 1;
      RoundOrder(ws[..n], cur, prev);
    }
  }

  /** Each watcher is called as many times as it is registered: once per
      registration, and never when it is not registered. */
  lemma {:induction false} RoundCallsEachOnce<T>(ws: seq<WatcherId>, cur: T, prev: Option<T>, id: WatcherId)
    ensures CallsTo(Round(ws, cur, prev), id) == multiset(ws)[id]
  {
    if ws != [] {
      var n := |ws| - 1;
      var r := Round(ws, cur, prev);
      assert r[..|r| - 1] == Round(ws[..n], cur, prev);
      assert ws == ws[..n] + [ws[n]];
      RoundCallsEachOnce(ws[..n], cur, prev, id);
    }
  }

  /** Counting calls distributes over appending to a trace. */
  lemma {:induction false} CallsToAppend<T>(a: seq<Call<T>>, b: seq<Call<T>>, id: WatcherId)
    ensures CallsTo(a + b, id) == CallsTo(a, id) + CallsTo(b, id)
  {
    if b != [] {
      var n := |b| - 1;
      assert (a + b)[..|a + b| - 1] == a + b[..n];
      CallsToAppend(a, b[..n], id);
    } else {
      assert a + b == a;
    }
  }

  /** Appending a notification round to any earlier trace adds, for every
      watcher, exactly as many calls as it has registrations. */
  lemma UpdateCallsEachOnce<T>(before: seq<Call<T>>, ws: seq<WatcherId>, cur: T, prev: Option<T>, id: WatcherId)
    ensures CallsTo(before + Round(ws, cur, prev), id) == CallsTo(before, id) + multiset(ws)[id]
  {
    CallsToAppend(before, Round(ws, cur, prev), id);
    RoundCallsEachOnce(ws, cur, prev, id);
  }

  /** The container returned by `useState(initialValue)`. */
  class State<T> {
    /** The closed-over `current`, read through the `value` getter. */
    var current: T
    /** The `watchers` array, in registration order. */
    var watchers: seq<WatcherId>
    /** Every watcher call made so far, oldest first. */
    ghost var trace: seq<Call<T>>

    constructor (initialValue: T)
      ensures current == initialValue && watchers == [] && trace == []
    {
      current := initialValue;
      watchers := [];
      trace := [];
    }

    /** `update(newValue)`: replace the value, then call every watcher in
        registration order with `(newValue, prev)`. */
    method Update(newValue: T)
      modifies this
      ensures current == newValue
      ensures watchers == old(watchers)
      ensures trace == old(trace) + Round(watchers, newValue, Some(old(current)))
    {
      var prev := current;
      current := newValue;
      var i := 0;
      while i < |watchers|
        invariant 0 <= i <= |watchers|
        invariant current == newValue && watchers == old(watchers)
        invariant trace == old(trace) + Round(watchers[..i], current, Some(prev))
      {
        assert watchers[..i + 1][..i] == watchers[..i];
        trace := trace + [Call(watchers[i], current, Some(prev))];
        i := i + 1;
      }
      assert watchers[..i] == watchers;
    }

    /** `watch(watcher, opts)`: append the watcher; with `immediate`, call it
        once with `(current, null)`. The value never changes. */
    method Watch(watcher: WatcherId, immediate: bool)
      modifies this
      ensures current == old(current)
      ensures watchers == old(watchers) + [watcher]
      ensures trace == old(trace) + (if immediate then [Call(watcher, current, None)] else [])
    {
      watchers := watchers + [watcher];
      if immediate {
        trace := trace + [Call(watcher, current, None)];
      }
    }
  }
}

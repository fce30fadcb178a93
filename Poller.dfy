/** The completion poller (`checkStackStatusPeriodically`, `checkStackStatus`
    and `logData` in src/main/cloudformation.js).

    Each tick fetches the stack's whole event history (or an error), shows
    the events that are new since the previous tick, and looks among them for
    a terminal event of the stack's own resource type. The first such event
    (the oldest) decides the outcome and stops the timer. The interval timer
    is modelled by an explicit state, and the fetch results of successive
    ticks are inputs. */
module Poller {
  import opened Wrappers
  import opened Events

  datatype Error = Error(message: string)

  /** What `describeStackEvents` hands to its callback on one tick. */
  datatype FetchResult = FetchFailed(error: Error) | Fetched(events: seq<StackEvent>)

  /** A node-style callback invocation: `callback(err)` or `callback(null, result)`. */
  datatype Callback = Failed(error: Error) | Succeeded(result: seq<StackEvent>)

  /** The uniform error reported when the stack ends in a non-success status. */
  const OperationFailed := Error("Could not perform stack operation")

  /** What one tick does: the new seen count, whether it clears the timer,
      the callback it invokes (if any) and the new events it displays. */
  datatype Tick = Tick(seen: nat, stop: bool, callback: Option<Callback>, shown: seq<StackEvent>)

  /** The callback for a non-empty match list: success, carrying the whole
      list, exactly when the oldest match has the success status. */
  function Resolve(matches: seq<StackEvent>, success: string): (c: Callback)
    requires matches != []
    ensures c.Succeeded? <==> matches[0].resourceStatus == success
    ensures c.Succeeded? ==> c.result == matches
    ensures c.Failed? ==> c.error == OperationFailed
  {
    if matches[0].resourceStatus != success then Failed(OperationFailed) else Succeeded(matches)
  }

  /** One call of `checkStackStatus` on a context that has seen `seen` events. */
  function Step(seen: nat, fetch: FetchResult, terminal: set<string>, success: string): (t: Tick)
    // a tick that stops the timer always calls back
    ensures t.stop ==> t.callback.Some?
    // a failed fetch leaves the count and the timer, displays nothing and passes the error on
    ensures fetch.FetchFailed? ==> t.seen == seen && !t.stop && t.shown == [] && t.callback == Some(Failed(fetch.error))
    // a successful fetch sets the count to the history's length and stops exactly on a match
    ensures fetch.Fetched? ==> t.seen == |fetch.events| && (t.stop <==> Matches(fetch.events, seen, terminal) != [])
  {
    match fetch
    case FetchFailed(e) => Tick(seen, false, Some(Failed(e)), [])
    case Fetched(data) =>
      var m := Matches(data, seen, terminal);
      if m != [] then Tick(|data|, true, Some(Resolve(m, success)), NewEvents(data, seen))
      else Tick(|data|, false, None, NewEvents(data, seen))
  }

  /** `k` is the position of the oldest new event that is a terminal match. */
  predicate IsOldestMatch(n: seq<StackEvent>, k: int, rootType: string, terminal: set<string>)
  {
    0 <= k < |n| && IsTerminalMatch(n[k], rootType, terminal) &&
    forall j :: 0 <= j < k ==> !IsTerminalMatch(n[j], rootType, terminal)
  }

  lemma OldestMatchUnique(n: seq<StackEvent>, k1: int, k2: int, rootType: string, terminal: set<string>)
    requires IsOldestMatch(n, k1, rootType, terminal) && IsOldestMatch(n, k2, rootType, terminal)
    ensures k1 == k2
  {
  }

  /** A fetch error is handed straight to the callback; the seen count is
      untouched, nothing is displayed and the timer keeps running. */
  lemma StepFetchError(seen: nat, e: Error, terminal: set<string>, success: string)
    ensures Step(seen, FetchFailed(e), terminal, success) == Tick(seen, false, Some(Failed(e)), [])
  {
  }

  /** The resolution rule of a successful fetch. The seen count becomes the
      history's length and the new events are displayed. The tick stops
      polling exactly when some new event of the stack's own resource type
      has a terminal status; then the oldest such event decides: success
      (with the match list) when its status is the success status, the
      uniform failure otherwise. Without a match no callback is invoked. */
  lemma StepResolution(seen: nat, data: seq<StackEvent>, terminal: set<string>, success: string)
    ensures var t := Step(seen, Fetched(data), terminal, success);
      t.seen == |data| && t.shown == NewEvents(data, seen)
    ensures var t := Step(seen, Fetched(data), terminal, success);
      t.stop <==> data != [] && exists e :: e in NewEvents(data, seen) && IsTerminalMatch(e, RootType(data), terminal)
    ensures var t := Step(seen, Fetched(data), terminal, success);
      !t.stop ==> t.callback == None
    ensures var t := Step(seen, Fetched(data), terminal, success);
      t.stop ==> data != [] && exists k :: IsOldestMatch(NewEvents(data, seen), k, RootType(data), terminal)
    ensures var t := Step(seen, Fetched(data), terminal, success);
      forall k :: data != [] && IsOldestMatch(NewEvents(data, seen), k, RootType(data), terminal) ==>
        t.stop &&
        (t.callback == Some(Succeeded(Matches(data, seen, terminal))) <==> NewEvents(data, seen)[k].resourceStatus == success) &&
        (t.callback == Some(Failed(OperationFailed)) <==> NewEvents(data, seen)[k].resourceStatus != success)
  {
    var m := Matches(data, seen, terminal);
    var n := NewEvents(data, seen);
    if data != [] && exists e :: e in n && IsTerminalMatch(e, RootType(data), terminal) {
      var e :| e in n && IsTerminalMatch(e, RootType(data), terminal);
      assert e in m;
    }
    if m != [] {
      FirstMatchIsOldest(data, seen, terminal);
      var k0 :| 0 <= k0 < |n| && n[k0] == m[0] && IsOldestMatch(n, k0, RootType(data), terminal);
      forall k | IsOldestMatch(n, k, RootType(data), terminal) ensures n[k] == m[0] {
        OldestMatchUnique(n, k, k0, RootType(data), terminal);
      }
    } else {
      forall k | data != [] && IsOldestMatch(n, k, RootType(data), terminal) ensures false {
      }
    }
  }

  /** Type-scoped termination: when no new event has the stack's own
      resource type, the tick resolves nothing, whatever the statuses. */
  lemma StepTypeScoped(seen: nat, data: seq<StackEvent>, terminal: set<string>, success: string)
    requires data != []
    requires forall e :: e in NewEvents(data, seen) ==> e.resourceType != RootType(data)
    ensures var t := Step(seen, Fetched(data), terminal, success);
      !t.stop && t.callback == None && t.seen == |data|
  {
    ForeignTypesNeverMatch(data, seen, terminal);
  }

  /** A fetch that brings nothing new resolves nothing and displays nothing. */
  lemma StepNothingNew(data: seq<StackEvent>, terminal: set<string>, success: string)
    ensures Step(|data|, Fetched(data), terminal, success) == Tick(|data|, false, None, [])
  {
    NoNewEventsNoMatch(data, terminal);
  }

  /** The result of ticking through `fetches`: the final seen count, whether
      the timer still runs, how many ticks ran, the callbacks invoked and the
      events displayed, in order. Ticks after the timer is cleared never run. */
  datatype Run = Run(seen: nat, active: bool, ticks: nat, callbacks: seq<Callback>, shown: seq<StackEvent>)

  /** The callbacks one tick invokes. */
  function Emitted(t: Tick): seq<Callback>
  {
    if t.callback.Some? then [t.callback.value] else []
  }

  /** The interval timer of `checkStackStatusPeriodically`, from a context
      that has seen `seen` events, with one fetch result per tick. */
  function RunFrom(seen: nat, fetches: seq<FetchResult>, terminal: set<string>, success: string): (r: Run)
    ensures r.ticks <= |fetches|
    ensures r.active ==> r.ticks == |fetches|
    ensures !r.active ==> 0 < r.ticks
    decreases |fetches|
  {
    if fetches == [] then Run(seen, true, 0, [], [])
    else
      var t := Step(seen, fetches[0], terminal, success);
      if t.stop then Run(t.seen, false, 1, Emitted(t), t.shown)
      else
        var rest := RunFrom(t.seen, fetches[1..], terminal, success);
        Run(rest.seen, rest.active, rest.ticks + 1, Emitted(t) + rest.callbacks, t.shown + rest.shown)
  }

  /** The run of `done` ticks that produced `callbacks` and `shown`, followed by `rest`. */
  function Then(done: nat, callbacks: seq<Callback>, shown: seq<StackEvent>, rest: Run): Run
  {
    Run(rest.seen, rest.active, done + rest.ticks, callbacks + rest.callbacks, shown + rest.shown)
  }

  /** The callback passes on an error of one of the fetches. */
  predicate IsFetchError(cb: Callback, fetches: seq<FetchResult>)
  {
    cb.Failed? && FetchFailed(cb.error) in fetches
  }

  /** The callbacks of `r` resolve the operation at most once: a success
      callback can only be the last one and only once the timer is cleared,
      and every other callback passes on an error of one of the fetches. */
  predicate ResolvesAtMostOnce(r: Run, fetches: seq<FetchResult>)
  {
    (forall i :: 0 <= i < |r.callbacks| && r.callbacks[i].Succeeded? ==> i == |r.callbacks| - 1 && !r.active) &&
    (forall i :: 0 <= i < |r.callbacks| && (r.active || i < |r.callbacks| - 1) ==> IsFetchError(r.callbacks[i], fetches))
  }

  /** An operation is resolved at most once; a fetch error is passed on and
      does not stop the polling, so it may be followed by more callbacks. */
  lemma {:induction false} RunResolvesAtMostOnce(seen: nat, fetches: seq<FetchResult>, terminal: set<string>, success: string)
    ensures ResolvesAtMostOnce(RunFrom(seen, fetches, terminal, success), fetches)
    decreases |fetches|
  {
    if fetches != [] {
      var t := Step(seen, fetches[0], terminal, success);
      if !t.stop {
        var rest := RunFrom(t.seen, fetches[1..], terminal, success);
        RunResolvesAtMostOnce(t.seen, fetches[1..], terminal, success);
        var r := RunFrom(seen, fetches, terminal, success);
        var e := Emitted(t);
        assert r.callbacks == e + rest.callbacks;
        assert r.active == rest.active;
        forall i | 0 <= i < |r.callbacks|
          ensures r.callbacks[i].Succeeded? ==> i == |r.callbacks| - 1 && !r.active
          ensures (r.active || i < |r.callbacks| - 1) ==> IsFetchError(r.callbacks[i], fetches)
        {
          if i < |e| {
            assert fetches[0] == FetchFailed(fetches[0].error);
            assert r.callbacks[i] == Failed(fetches[0].error);
          } else {
            var j := i - |e|;
            assert r.callbacks[i] == rest.callbacks[j];
            if IsFetchError(rest.callbacks[j], fetches[1..]) {
              var x :| x in fetches[1..] && x == FetchFailed(rest.callbacks[j].error);
              assert x in fetches;
            }
          }
        }
      }
    }
  }

  /** Without fetch errors, a run invokes its callback at most once, and
      exactly once when it resolves. */
  lemma {:induction false} RunWithoutFetchErrors(seen: nat, fetches: seq<FetchResult>, terminal: set<string>, success: string)
    requires forall i :: 0 <= i < |fetches| ==> fetches[i].Fetched?
    ensures var r := RunFrom(seen, fetches, terminal, success);
      (r.active ==> r.callbacks == []) && (!r.active ==> |r.callbacks| == 1)
    decreases |fetches|
  {
    if fetches != [] {
      var t := Step(seen, fetches[0], terminal, success);
      assert fetches[0].Fetched?;
      if !t.stop {
        assert Emitted(t) == [];
        RunWithoutFetchErrors(t.seen, fetches[1..], terminal, success);
      }
    }
  }

  /** Unfolding one tick of a run that has already done `done` ticks. */
  lemma ThenTick(done: nat, callbacks: seq<Callback>, shown: seq<StackEvent>,
                 seen: nat, fetches: seq<FetchResult>, i: nat, terminal: set<string>, success: string)
    requires i < |fetches|
    ensures var t := Step(seen, fetches[i], terminal, success);
      var whole := Then(done, callbacks, shown, RunFrom(seen, fetches[i..], terminal, success));
      if t.stop then whole == Run(t.seen, false, done + 1, callbacks + Emitted(t), shown + t.shown)
      else whole == Then(done + 1, callbacks + Emitted(t), shown + t.shown, RunFrom(t.seen, fetches[i + 1..], terminal, success))
  {
    assert fetches[i..][0] == fetches[i] && fetches[i..][1..] == fetches[i + 1..];
    var t := Step(seen, fetches[i], terminal, success);
    if !t.stop {
      var rest := RunFrom(t.seen, fetches[i + 1..], terminal, success);
      assert callbacks + (Emitted(t) + rest.callbacks) == (callbacks + Emitted(t)) + rest.callbacks;
      assert shown + (t.shown + rest.shown) == (shown + t.shown) + rest.shown;
    }
  }

  /** Successive fetch results of one stack's history, starting after a
      context has seen `prev`: each fetched list only prepends events to the
      last one fetched before it; failed fetches leave it as it was. */
  predicate CumulativeFetches(prev: seq<StackEvent>, fetches: seq<FetchResult>)
    decreases |fetches|
  {
    if fetches == [] then true
    else match fetches[0]
      case FetchFailed(_) => CumulativeFetches(prev, fetches[1..])
      case Fetched(data) => Extends(data, prev) && CumulativeFetches(data, fetches[1..])
  }

  /** The last history fetched successfully, or `prev` if there is none. */
  function LastFetched(prev: seq<StackEvent>, fetches: seq<FetchResult>): seq<StackEvent>
    decreases |fetches|
  {
    if fetches == [] then prev
    else match fetches[0]
      case FetchFailed(_) => LastFetched(prev, fetches[1..])
      case Fetched(data) => LastFetched(data, fetches[1..])
  }

  /** The history fetched last once `f` is taken into account. */
  function NextHistory(prev: seq<StackEvent>, f: FetchResult): seq<StackEvent>
  {
    if f.Fetched? then f.events else prev
  }

  /** One tick keeps the dedup invariant: the seen count becomes the new
      history's length and the displayed events are exactly the ones it
      adds, oldest first. */
  lemma StepDedup(prev: seq<StackEvent>, f: FetchResult, terminal: set<string>, success: string)
    requires f.Fetched? ==> Extends(f.events, prev)
    ensures var t := Step(|prev|, f, terminal, success);
      t.seen == |NextHistory(prev, f)| && Reverse(prev) + t.shown == Reverse(NextHistory(prev, f))
  {
    if f.Fetched? {
      ExtensionDelta(f.events, prev);
    } else {
      assert Reverse(prev) + [] == Reverse(prev);
    }
  }

  lemma LastFetchedPrefix(prev: seq<StackEvent>, fetches: seq<FetchResult>, n: nat)
    requires 0 < n <= |fetches|
    ensures LastFetched(prev, fetches[..n]) == LastFetched(NextHistory(prev, fetches[0]), fetches[1..][..n - 1])
  {
    assert fetches[..n][0] == fetches[0];
    assert fetches[..n][1..] == fetches[1..][..n - 1];
  }

  /** Monotonic dedup across a run: every event of the stack's history is
      displayed exactly once and in chronological order, and the seen count
      follows the length of the last history fetched. */
  lemma {:induction false} RunDedup(prev: seq<StackEvent>, fetches: seq<FetchResult>, terminal: set<string>, success: string)
    requires CumulativeFetches(prev, fetches)
    ensures var r := RunFrom(|prev|, fetches, terminal, success);
      var last := LastFetched(prev, fetches[..r.ticks]);
      r.seen == |last| && Reverse(prev) + r.shown == Reverse(last)
    decreases |fetches|
  {
    var r := RunFrom(|prev|, fetches, terminal, success);
    if fetches == [] {
      assert fetches[..r.ticks] == [];
    } else {
      var t := Step(|prev|, fetches[0], terminal, success);
      var next := NextHistory(prev, fetches[0]);
      StepDedup(prev, fetches[0], terminal, success);
      LastFetchedPrefix(prev, fetches, r.ticks);
      if t.stop {
        RunStops(|prev|, fetches, terminal, success);
        assert fetches[1..][..0] == [];
      } else {
        RunContinues(|prev|, fetches, terminal, success);
        var rest := RunFrom(|next|, fetches[1..], terminal, success);
        assert CumulativeFetches(next, fetches[1..]);
        RunDedup(next, fetches[1..], terminal, success);
        assert r.shown == t.shown + rest.shown;
        AppendAssociative(Reverse(prev), t.shown, rest.shown);
      }
    }
  }

  lemma AppendAssociative<T>(a: seq<T>, b: seq<T>, c: seq<T>)
    ensures a + (b + c) == (a + b) + c
  {
  }

  /** A run whose first tick resolves is that tick alone. */
  lemma RunStops(seen: nat, fetches: seq<FetchResult>, terminal: set<string>, success: string)
    requires fetches != [] && Step(seen, fetches[0], terminal, success).stop
    ensures var t := Step(seen, fetches[0], terminal, success);
      RunFrom(seen, fetches, terminal, success) == Run(t.seen, false, 1, Emitted(t), t.shown)
  {
  }

  /** A run whose first tick does not resolve is that tick followed by the
      run over the remaining fetches. */
  lemma RunContinues(seen: nat, fetches: seq<FetchResult>, terminal: set<string>, success: string)
    requires fetches != [] && !Step(seen, fetches[0], terminal, success).stop
    ensures var t := Step(seen, fetches[0], terminal, success);
      RunFrom(seen, fetches, terminal, success) == Then(1, Emitted(t), t.shown, RunFrom(t.seen, fetches[1..], terminal, success))
  {
  }

  /** A count that is already the history's length, or at least twice it,
      leaves nothing new in that history. */
  lemma NothingNewFromCount(seen: nat, data: seq<StackEvent>, terminal: set<string>, success: string)
    requires seen == |data| || seen >= 2 * |data|
    ensures Step(seen, Fetched(data), terminal, success) == Tick(|data|, false, None, [])
  {
    assert NewEvents(data, seen) == [];
  }

  /** A count carried over from a history at least twice as long hides a
      complete history for good: fetching it again and again displays
      nothing, calls back never and keeps the timer running. The first tick
      sets the count to the length, after which nothing is new. */
  lemma {:induction false} StaleCountHidesHistory(seen: nat, data: seq<StackEvent>, fetches: seq<FetchResult>, terminal: set<string>, success: string)
    requires seen == |data| || seen >= 2 * |data|
    requires forall i :: 0 <= i < |fetches| ==> fetches[i] == Fetched(data)
    ensures var r := RunFrom(seen, fetches, terminal, success);
      r.active && r.callbacks == [] && r.shown == [] && (fetches != [] ==> r.seen == |data|)
    decreases |fetches|
  {
    if fetches != [] {
      assert fetches[0] == Fetched(data);
      NothingNewFromCount(seen, data, terminal, success);
      RunContinues(seen, fetches, terminal, success);
      assert forall i :: 0 <= i < |fetches[1..]| ==> fetches[1..][i] == fetches[i + 1];
      StaleCountHidesHistory(|data|, data, fetches[1..], terminal, success);
    }
  }

  /** The polling state of the timer handle `intervalId`: not yet started,
      running, or cleared after a resolution. */
  datatype TimerState = Idle | Active | Cleared

  /** The tracking context of one stack operation: how many events of the
      stack's history have been seen, and the timer. The terminal statuses
      and the success status are fixed when polling starts. */
  class OperationContext {
    const terminal: set<string>
    const success: string
    var seen: nat
    var timer: TimerState

    constructor (terminal: set<string>, success: string)
      ensures this.terminal == terminal && this.success == success
      ensures seen == 0 && timer == Idle
    {
      this.terminal := terminal;
      this.success := success;
      seen := 0;
      timer := Idle;
    }

    /** `logData`: computes the new events (for display) and the terminal
        matches among them, and records the history's length as seen. */
    method LogData(data: seq<StackEvent>) returns (shown: seq<StackEvent>, matches: seq<StackEvent>)
      modifies this`seen
      ensures shown == NewEvents(data, old(seen))
      ensures matches == Matches(data, old(seen), terminal)
      ensures seen == |data|
    {
      shown := NewEvents(data, seen);
      matches := Matches(data, seen, terminal);
      seen := |data|;
    }

    /** `checkStackStatus`: one tick of the running timer. */
    method CheckStackStatus(fetch: FetchResult) returns (callback: Option<Callback>, shown: seq<StackEvent>)
      requires timer == Active
      modifies this`seen, this`timer
      ensures var t := Step(old(seen), fetch, terminal, success);
        seen == t.seen && callback == t.callback && shown == t.shown &&
        timer == if t.stop then Cleared else Active
    {
      match fetch
      case FetchFailed(e) =>
        callback, shown := Some(Failed(e)), [];
      case Fetched(data) =>
        var matches;
        shown, matches := LogData(data);
        if |matches| > 0 {
          timer := Cleared;
          if matches[0].resourceStatus != success {
            callback := Some(Failed(OperationFailed));
          } else {
            callback := Some(Succeeded(matches));
          }
        } else {
          callback := None;
        }
    }

    /** `checkStackStatusPeriodically`: starts the timer and ticks once per
        element of `fetches` while the timer runs. */
    method CheckStackStatusPeriodically(fetches: seq<FetchResult>) returns (callbacks: seq<Callback>, shown: seq<StackEvent>)
      modifies this`seen, this`timer
      ensures var r := RunFrom(old(seen), fetches, terminal, success);
        callbacks == r.callbacks && shown == r.shown && seen == r.seen &&
        timer == if r.active then Active else Cleared
    {
      ghost var seen0 := seen;
      timer := Active;
      callbacks, shown := [], [];
      var i := 0;
      while i < |fetches| && timer == Active
        invariant 0 <= i <= |fetches|
        invariant timer == Active || timer == Cleared
        invariant timer == Active ==>
          Then(i, callbacks, shown, RunFrom(seen, fetches[i..], terminal, success)) == RunFrom(seen0, fetches, terminal, success)
        invariant timer == Cleared ==>
          Run(seen, false, i, callbacks, shown) == RunFrom(seen0, fetches, terminal, success)
      {
        ThenTick(i, callbacks, shown, seen, fetches, i, terminal, success);
        ghost var t := Step(seen, fetches[i], terminal, success);
        var cb, sh := CheckStackStatus(fetches[i]);
        assert Emitted(t) == if cb.Some? then [cb.value] else [];
        callbacks := callbacks + if cb.Some? then [cb.value] else [];
        shown := shown + sh;
        i := i + 1;
      }
      if timer == Active {
        assert fetches[i..] == [];
      }
    }
  }
}

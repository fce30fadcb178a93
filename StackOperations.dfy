/** The outcome wiring of `deploy`, `update` and `deleteStack` in
    src/main/cloudformation.js: submit the operation, and only when the
    provider accepts it poll the stack's events with the terminal statuses
    and the success status of the operation's kind, rewriting every poll
    failure into an error that names the operation and the stack. */
module StackOperations {
  import opened Events
  import opened Operations
  import opened Poller
  import opened Wrappers

  /** What `createStack`, `updateStack` or `deleteStack` hands to its callback. */
  datatype SubmitResult = Accepted | Rejected(error: Error)

  /** The error a unit reports when its polling fails. */
  function FailureMessage(kind: OperationKind, stackName: string): string
  {
    "Could not " + Verb(kind) + " stack: " + stackName
  }

  /** The unit's own callback for one callback of its poller. */
  function Complete(kind: OperationKind, stackName: string, cb: Callback): (c: Callback)
    ensures c.Failed? <==> cb.Failed?
    ensures c.Failed? ==> c.error.message == "Could not " + Verb(kind) + " stack: " + stackName
    ensures c.Succeeded? ==> c.result == cb.result
  {
    match cb
    case Failed(_) => Failed(Error(FailureMessage(kind, stackName)))
    case Succeeded(result) => Succeeded(result)
  }

  /** The poller run of a unit whose operation was accepted. Each operation
      polls with a context of its own, which has seen nothing yet. */
  function PollRun(kind: OperationKind, fetches: seq<FetchResult>): Run
  {
    RunFrom(0, fetches, TerminalStatuses(kind), SuccessStatus(kind))
  }

  /** The callbacks one deployment unit invokes, given the submit result and
      the fetch result of each poll tick. A rejected submit is reported
      unchanged, once, and no polling happens: the fetch results play no
      part. After an accepted submit the unit calls back once per poller
      callback: every poller failure (fetch error or failed operation)
      becomes "Could not <kind> stack: <name>" and every success passes the
      match list through unchanged. */
  function UnitCallbacks(kind: OperationKind, stackName: string, submit: SubmitResult, fetches: seq<FetchResult>): (cbs: seq<Callback>)
    ensures submit.Rejected? ==> cbs == [Failed(submit.error)]
    ensures submit.Accepted? ==>
      var poll := PollRun(kind, fetches).callbacks;
      |cbs| == |poll| &&
      (forall i :: 0 <= i < |cbs| ==>
        (cbs[i].Failed? <==> poll[i].Failed?) &&
        (cbs[i].Failed? ==> cbs[i].error.message == "Could not " + Verb(kind) + " stack: " + stackName) &&
        (cbs[i].Succeeded? ==> cbs[i].result == poll[i].result))
  {
    match submit
    case Rejected(e) => [Failed(e)]
    case Accepted =>
      var poll := PollRun(kind, fetches).callbacks;
      seq(|poll|, i requires 0 <= i < |poll| => Complete(kind, stackName, poll[i]))
  }

  /** A successful unit reports only events of the stack's own resource type
      whose status ends the operation, the oldest of them the success status. */
  lemma SuccessCarriesTerminalEvents(kind: OperationKind, stackName: string, fetches: seq<FetchResult>, i: nat)
    requires var unit := UnitCallbacks(kind, stackName, Accepted, fetches);
      i < |unit| && unit[i].Succeeded?
    ensures var unit := UnitCallbacks(kind, stackName, Accepted, fetches);
      unit[i].result != [] && unit[i].result[0].resourceStatus == SuccessStatus(kind) &&
      forall e :: e in unit[i].result ==>
        e.resourceStatus in TerminalStatuses(kind) && e.resourceType == unit[i].result[0].resourceType
  {
    SuccessfulRunCarriesMatches(0, fetches, TerminalStatuses(kind), SuccessStatus(kind), i);
  }

  /** Every success callback of a run carries a non-empty list of terminal
      events of one resource type, the oldest with the success status. */
  lemma {:induction false} SuccessfulRunCarriesMatches(seen: nat, fetches: seq<FetchResult>, terminal: set<string>, success: string, i: nat)
    requires var r := RunFrom(seen, fetches, terminal, success);
      i < |r.callbacks| && r.callbacks[i].Succeeded?
    ensures var r := RunFrom(seen, fetches, terminal, success);
      r.callbacks[i].result != [] && r.callbacks[i].result[0].resourceStatus == success &&
      forall e :: e in r.callbacks[i].result ==> e.resourceStatus in terminal && e.resourceType == r.callbacks[i].result[0].resourceType
    decreases |fetches|
  {
    var t := Step(seen, fetches[0], terminal, success);
    if !t.stop {
      var rest := RunFrom(t.seen, fetches[1..], terminal, success);
      var k := |Emitted(t)|;
      if i >= k {
        assert RunFrom(seen, fetches, terminal, success).callbacks[i] == rest.callbacks[i - k];
        SuccessfulRunCarriesMatches(t.seen, fetches[1..], terminal, success, i - k);
      }
    } else {
      var m := Matches(fetches[0].events, seen, terminal);
      assert m[0] in m;
    }
  }

  // Concrete histories of a stack "web" whose own resource type is
  // AWS::CloudFormation::Stack and which creates one bucket.

  const StackType := "AWS::CloudFormation::Stack"
  const BucketType := "AWS::S3::Bucket"

  const E1 := StackEvent("e1", "web", StackType, "CREATE_IN_PROGRESS", "User Initiated")
  const E2 := StackEvent("e2", "Bucket", BucketType, "CREATE_IN_PROGRESS", "")
  const E3 := StackEvent("e3", "Bucket", BucketType, "CREATE_IN_PROGRESS", "Resource creation Initiated")
  const E4 := StackEvent("e4", "Bucket", BucketType, "CREATE_COMPLETE", "")
  const E5 := StackEvent("e5", "web", StackType, "CREATE_COMPLETE", "")

  /** Three events (newest first), none of them terminal for the stack. */
  const FirstFetch: seq<StackEvent> := [E3, E2, E1]
  /** Two more events: the bucket completes, then the stack does. */
  const SecondFetch: seq<StackEvent> := [E5, E4, E3, E2, E1]

  /** The first tick of a create: three new events, none of them a
      terminal event of the stack itself. */
  lemma FirstCreateTick()
    ensures NewEvents(FirstFetch, 0) == [E1, E2, E3]
    ensures Matches(FirstFetch, 0, TerminalStatuses(Create)) == []
  {
    assert FirstFetch[..3] == FirstFetch;
    NothingTerminal([E1, E2, E3], StackType, TerminalStatuses(Create));
  }

  /** The second tick of a create: the two new events, of which only the
      stack's CREATE_COMPLETE matches; the bucket's does not. */
  lemma SecondCreateTick()
    ensures NewEvents(SecondFetch, 3) == [E4, E5]
    ensures Matches(SecondFetch, 3, TerminalStatuses(Create)) == [E5]
  {
    assert SecondFetch[..2] == [E5, E4];
    FilterTerminalAppend([E4], [E5], StackType, TerminalStatuses(Create));
    assert [E4] + [E5] == [E4, E5];
  }

  /** A run over ticks that do not resolve, then one tick that does. */
  lemma RunOneTick(seen: nat, f: FetchResult, terminal: set<string>, success: string)
    ensures var t := Step(seen, f, terminal, success);
      RunFrom(seen, [f], terminal, success) ==
        if t.stop then Run(t.seen, false, 1, Emitted(t), t.shown) else Run(t.seen, true, 1, Emitted(t), t.shown)
  {
    assert [f][1..] == [];
  }

  lemma RunCons(seen: nat, f: FetchResult, rest: seq<FetchResult>, terminal: set<string>, success: string)
    requires !Step(seen, f, terminal, success).stop
    ensures var t := Step(seen, f, terminal, success);
      RunFrom(seen, [f] + rest, terminal, success) == Then(1, Emitted(t), t.shown, RunFrom(t.seen, rest, terminal, success))
  {
    assert ([f] + rest)[0] == f && ([f] + rest)[1..] == rest;
  }

  /** The unit's callbacks for a poller whose callbacks are known. */
  lemma UnitOfCallbacks(kind: OperationKind, stackName: string, fetches: seq<FetchResult>, cbs: seq<Callback>)
    requires PollRun(kind, fetches).callbacks == cbs
    ensures UnitCallbacks(kind, stackName, Accepted, fetches) ==
      seq(|cbs|, i requires 0 <= i < |cbs| => Complete(kind, stackName, cbs[i]))
  {
  }

  lemma FirstCreateStep()
    ensures Step(0, Fetched(FirstFetch), TerminalStatuses(Create), SuccessStatus(Create)) == Tick(3, false, None, [E1, E2, E3])
  {
    FirstCreateTick();
  }

  lemma SecondCreateStep()
    ensures Step(3, Fetched(SecondFetch), TerminalStatuses(Create), SuccessStatus(Create)) ==
      Tick(5, true, Some(Succeeded([E5])), [E4, E5])
  {
    SecondCreateTick();
  }

  /** A create over two ticks: the first tick shows three events and does
      not resolve; the second shows only the two new ones, ignores the
      bucket's CREATE_COMPLETE and succeeds on the stack's own. */
  lemma CreateOverTwoTicks()
    ensures var r := PollRun(Create, [Fetched(FirstFetch), Fetched(SecondFetch)]);
      r.ticks == 2 && !r.active && r.seen == 5 && r.shown == [E1, E2, E3, E4, E5]
    ensures UnitCallbacks(Create, "web", Accepted, [Fetched(FirstFetch), Fetched(SecondFetch)]) == [Succeeded([E5])]
  {
    var terminal, success := TerminalStatuses(Create), SuccessStatus(Create);
    FirstCreateStep();
    SecondCreateStep();
    RunCons(0, Fetched(FirstFetch), [Fetched(SecondFetch)], terminal, success);
    RunOneTick(3, Fetched(SecondFetch), terminal, success);
    assert [Fetched(FirstFetch)] + [Fetched(SecondFetch)] == [Fetched(FirstFetch), Fetched(SecondFetch)];
    UnitOfCallbacks(Create, "web", [Fetched(FirstFetch), Fetched(SecondFetch)], [Succeeded([E5])]);
  }

  const U1 := StackEvent("u1", "web", StackType, "UPDATE_IN_PROGRESS", "User Initiated")
  const U2 := StackEvent("u2", "Bucket", BucketType, "UPDATE_FAILED", "Access denied")
  const U3 := StackEvent("u3", "web", StackType, "UPDATE_ROLLBACK_IN_PROGRESS", "")
  const U4 := StackEvent("u4", "web", StackType, "UPDATE_ROLLBACK_COMPLETE", "")

  /** The history after an update that rolled back, newest first. */
  const RolledBack: seq<StackEvent> := [U4, U3, U2, U1, E5, E4, E3, E2, E1]

  lemma RolledBackNewEvents()
    ensures NewEvents(RolledBack, 5) == [U1, U2, U3, U4]
  {
    assert RolledBack[..4] == [U4, U3, U2, U1];
  }

  lemma RolledBackFilter()
    ensures FilterTerminal([U1, U2, U3, U4], StackType, TerminalStatuses(Update)) == [U4]
  {
    var terminal := TerminalStatuses(Update);
    assert [U1, U2, U3, U4][1..] == [U2, U3, U4];
    assert [U2, U3, U4][1..] == [U3, U4];
    assert [U3, U4][1..] == [U4];
    assert FilterTerminal([U4], StackType, terminal) == [U4];
    assert FilterTerminal([U3, U4], StackType, terminal) == [U4];
    assert FilterTerminal([U2, U3, U4], StackType, terminal) == [U4];
  }

  /** The update's tick: four new events, of which only the stack's
      UPDATE_ROLLBACK_COMPLETE matches; the bucket's UPDATE_FAILED does not. */
  lemma RolledBackTick()
    ensures NewEvents(RolledBack, 5) == [U1, U2, U3, U4]
    ensures Matches(RolledBack, 5, TerminalStatuses(Update)) == [U4]
  {
    RolledBackNewEvents();
    RolledBackFilter();
    assert RootType(RolledBack) == StackType;
  }

  lemma UpdateRollsBackStep()
    ensures Step(5, Fetched(RolledBack), TerminalStatuses(Update), SuccessStatus(Update)) ==
      Tick(9, true, Some(Failed(OperationFailed)), [U1, U2, U3, U4])
  {
    RolledBackTick();
  }

  /** An update that rolls back, polled on from the create's count: the
      stack's UPDATE_ROLLBACK_COMPLETE is a terminal status other than
      UPDATE_COMPLETE, so the poller reports the uniform failure, which the
      unit turns into an error naming the operation and the stack; the
      bucket's UPDATE_FAILED decides nothing. */
  lemma UpdateRollsBack()
    ensures var r := RunFrom(5, [Fetched(RolledBack)], TerminalStatuses(Update), SuccessStatus(Update));
      !r.active && r.shown == [U1, U2, U3, U4] && r.callbacks == [Failed(OperationFailed)]
    ensures Complete(Update, "web", Failed(OperationFailed)) == Failed(Error("Could not update stack: web"))
  {
    UpdateRollsBackRun();
    assert FailureMessage(Update, "web") == "Could not update stack: web";
  }

  lemma UpdateRollsBackRun()
    ensures RunFrom(5, [Fetched(RolledBack)], TerminalStatuses(Update), SuccessStatus(Update)) ==
      Run(9, false, 1, [Failed(OperationFailed)], [U1, U2, U3, U4])
  {
    UpdateRollsBackStep();
    RunOneTick(5, Fetched(RolledBack), TerminalStatuses(Update), SuccessStatus(Update));
  }

  /** The poller's callbacks over a create whose second fetch fails. */
  lemma FetchErrorRun(e: Error)
    ensures PollRun(Create, [Fetched(FirstFetch), FetchFailed(e), Fetched(SecondFetch)]).callbacks == [Failed(e), Succeeded([E5])]
  {
    var terminal, success := TerminalStatuses(Create), SuccessStatus(Create);
    FirstCreateStep();
    StepFetchError(3, e, terminal, success);
    SecondCreateStep();
    RunOneTick(3, Fetched(SecondFetch), terminal, success);
    RunCons(3, FetchFailed(e), [Fetched(SecondFetch)], terminal, success);
    assert [FetchFailed(e)] + [Fetched(SecondFetch)] == [FetchFailed(e), Fetched(SecondFetch)];
    RunCons(0, Fetched(FirstFetch), [FetchFailed(e), Fetched(SecondFetch)], terminal, success);
    assert [Fetched(FirstFetch)] + [FetchFailed(e), Fetched(SecondFetch)] == [Fetched(FirstFetch), FetchFailed(e), Fetched(SecondFetch)];
  }

  /** The unit's callbacks for a poller that called back twice. */
  lemma UnitOfTwoCallbacks(kind: OperationKind, stackName: string, fetches: seq<FetchResult>, a: Callback, b: Callback)
    requires PollRun(kind, fetches).callbacks == [a, b]
    ensures UnitCallbacks(kind, stackName, Accepted, fetches) == [Complete(kind, stackName, a), Complete(kind, stackName, b)]
  {
  }

  /** As the code is written, a fetch error does not stop the polling: the
      unit reports the error, keeps polling, and may later report the
      stack's success as well, so its callback is invoked twice. */
  lemma FetchErrorKeepsPolling(e: Error)
    ensures UnitCallbacks(Create, "web", Accepted, [Fetched(FirstFetch), FetchFailed(e), Fetched(SecondFetch)]) ==
      [Failed(Error("Could not create stack: web")), Succeeded([E5])]
  {
    FetchErrorRun(e);
    UnitOfTwoCallbacks(Create, "web", [Fetched(FirstFetch), FetchFailed(e), Fetched(SecondFetch)], Failed(e), Succeeded([E5]));
    assert FailureMessage(Create, "web") == "Could not create stack: web";
  }

  const V1 := StackEvent("v1", "web", StackType, "UPDATE_IN_PROGRESS", "User Initiated")
  const V2 := StackEvent("v2", "web", StackType, "UPDATE_COMPLETE", "")
  const V3 := StackEvent("v3", "web", StackType, "UPDATE_IN_PROGRESS", "User Initiated")

  /** The history of a stack created, updated once, and being updated again. */
  const UpdatedTwice: seq<StackEvent> := [V3, V2, V1, E3, E2, E1]

  lemma UpdatedTwiceNewEvents()
    ensures NewEvents(UpdatedTwice, 0) == [E1, E2, E3] + [V1, V2, V3]
  {
    assert UpdatedTwice[..6] == UpdatedTwice;
  }

  lemma UpdatedTwiceFilter()
    ensures FilterTerminal([V1, V2, V3], StackType, TerminalStatuses(Update)) == [V2]
  {
    var terminal := TerminalStatuses(Update);
    assert [V1, V2, V3][1..] == [V2, V3];
    assert [V2, V3][1..] == [V3];
    assert FilterTerminal([V3], StackType, terminal) == [];
    assert FilterTerminal([V2, V3], StackType, terminal) == [V2];
  }

  /** Counted from nothing, the new events are the whole history, in which
      the first update's UPDATE_COMPLETE is the only match. */
  lemma UpdatedTwiceTick()
    ensures Matches(UpdatedTwice, 0, TerminalStatuses(Update)) == [V2]
  {
    var terminal := TerminalStatuses(Update);
    UpdatedTwiceNewEvents();
    NothingTerminal([E1, E2, E3], StackType, terminal);
    UpdatedTwiceFilter();
    FilterTerminalAppend([E1, E2, E3], [V1, V2, V3], StackType, terminal);
    assert RootType(UpdatedTwice) == StackType;
  }

  /** A context that has seen nothing counts the stack's whole earlier
      history as new: a second update polled from a fresh context resolves
      on its first tick, on the first update's UPDATE_COMPLETE, although the
      second update is still in progress. */
  lemma FreshContextResolvesOnEarlierHistory()
    ensures PollRun(Update, [Fetched(UpdatedTwice)]).callbacks == [Succeeded([V2])]
  {
    UpdatedTwiceTick();
    RunOneTick(0, Fetched(UpdatedTwice), TerminalStatuses(Update), SuccessStatus(Update));
  }

  const X1 := StackEvent("x1", "api", StackType, "CREATE_IN_PROGRESS", "User Initiated")
  const X2 := StackEvent("x2", "Queue", "AWS::SQS::Queue", "CREATE_COMPLETE", "")
  const X3 := StackEvent("x3", "api", StackType, "CREATE_COMPLETE", "")

  /** The complete history of a small second stack. */
  const Short: seq<StackEvent> := [X3, X2, X1]

  /** A count between the history's length and twice it hides only the
      oldest events: with 4 left over, the newest two of the three are new,
      and the stack's CREATE_COMPLETE among them still matches. */
  lemma ShortPartlyHidden()
    ensures NewEvents(Short, 4) == [X2, X3]
    ensures Matches(Short, 4, TerminalStatuses(Create)) == [X3]
  {
    var terminal := TerminalStatuses(Create);
    assert Short[..2] == [X3, X2];
    assert NewEvents(Short, 4) == [X2, X3];
    assert [X2, X3][1..] == [X3];
    assert FilterTerminal([X3], StackType, terminal) == [X3];
    assert FilterTerminal([X2, X3], StackType, terminal) == [X3];
    assert RootType(Short) == StackType;
  }

  lemma ShortFresh()
    ensures Matches(Short, 0, TerminalStatuses(Create)) == [X3]
  {
    var terminal := TerminalStatuses(Create);
    assert Short[..3] == Short;
    assert NewEvents(Short, 0) == [X1, X2, X3];
    assert !IsTerminalMatch(X1, StackType, terminal);
    assert !IsTerminalMatch(X2, StackType, terminal);
    assert IsTerminalMatch(X3, StackType, terminal);
    assert [X1, X2, X3][1..] == [X2, X3];
    assert [X2, X3][1..] == [X3];
    assert FilterTerminal([X3], StackType, terminal) == [X3];
    assert FilterTerminal([X2, X3], StackType, terminal) == [X3];
    assert FilterTerminal([X1, X2, X3], StackType, terminal) == [X3];
    assert RootType(Short) == StackType;
  }

  /** The source keeps one counter for all operations of an instance. An
      operation on another stack, after one whose history was at least
      twice as long, sees none of its events: with a count of 6 left over,
      the complete 3-event history ending in the stack's CREATE_COMPLETE is
      never resolved, however often it is fetched, while a context of its
      own resolves it on the first tick. */
  lemma CarriedOverCounterNeverResolves(fetches: seq<FetchResult>)
    requires forall i :: 0 <= i < |fetches| ==> fetches[i] == Fetched(Short)
    ensures var r := RunFrom(6, fetches, TerminalStatuses(Create), SuccessStatus(Create));
      r.active && r.callbacks == [] && r.shown == []
    ensures PollRun(Create, [Fetched(Short)]).callbacks == [Succeeded([X3])]
  {
    var terminal, success := TerminalStatuses(Create), SuccessStatus(Create);
    StaleCountHidesHistory(6, Short, fetches, terminal, success);
    ShortFresh();
    RunOneTick(0, Fetched(Short), terminal, success);
  }
}

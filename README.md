# Stack event tracking of `CloudFormationStack`

`CloudFormationStack` (src/main/cloudformation.js) submits a stack operation
to the provider: create (`deploy`), `update` or `deleteStack`. It then polls
the stack's event history on an interval until an event says the operation
has ended.

On every tick it does three things:
- fetches the whole history, newest first;
- displays the events it has not seen yet, oldest first;
- looks among those new events for a *terminal match*: an event whose
  resource type is the stack's own and whose status is in the operation's
  terminal set.

The first (oldest) match decides the outcome and clears the timer. The
outcome is success, carrying the match list, when that match's status is the
operation's success status. Otherwise it is the uniform error "Could not
perform stack operation". Each deployment unit turns a polling failure into
"Could not <create|update|delete> stack: <name>". A status is shown with a
severity: failure, in progress, success or neutral.

This project models that core and proves its properties.

Modules:
- `Events`: the event delta and the terminal matcher of `logData`, as
  functions over sequences of events.
- `Operations`: the three operation kinds, their terminal status sets and
  their success statuses.
- `Poller`: one tick of `checkStackStatus` as the function `Step`, a run of
  ticks as the function `RunFrom`, and the class `OperationContext`. Its
  methods `LogData`, `CheckStackStatus` and `CheckStackStatusPeriodically`
  update the seen count and the timer state in place, and are proved equal to
  those functions.
- `StackOperations`: the outcome wiring of `deploy`, `update` and
  `deleteStack`, plus concrete histories that exhibit the behaviour.
- `Severity`: `getStatusColor` as a severity classifier.
- `Wrappers`: `Option`.

Three behaviours of the code that the model keeps as written:
- **The stack's resource type** is taken from the *last* element of the fetched
  list (`firstEvent`, line 174). Since the list is newest first, that is the
  *oldest* event (`RootTypeIsOldest`).
- **A fetch error** is handed to the callback without clearing the timer. So
  polling goes on, and a unit's callback can be invoked again later
  (`FetchErrorKeepsPolling`).
- **The seen count** is kept on the instance (line 38) and shared by every
  operation it runs. The model gives each operation a context of its own and
  shows what a count carried over, or a fresh one, does:
  - A count of `seen > n` on an `n`-event history makes the slice end
    negative. Only the `2n - seen` newest events are then new (`NewEvents`);
    with a count between `n` and `2n` the newest events can still match
    (`ShortPartlyHidden`).
  - A count of at least `2n` hides a *complete* history that is fetched again
    and again: nothing is shown, nothing is matched, and the timer keeps
    running (`StaleCountHidesHistory`, `CarriedOverCounterNeverResolves`).
    A history that is still growing is not covered by this: its first
    fetch resets the count to its shorter length.
  - With a fresh count, an update resolves on an earlier update's
    `UPDATE_COMPLETE` (`FreshContextResolvesOnEarlierHistory`).

`slice(0, data.length - seen)` is modelled with JavaScript's rule for a negative
end (the helper `SliceEnd`), so the delta functions need no precondition. The
dedup lemmas assume histories that only grow.

## Model

| member | source | states |
|---|---|---|
| Events.Reverse | src/main/cloudformation.js:176 | `.reverse()`: the result has the same length and holds the elements in the opposite order |
| Events.NewEvents | src/main/cloudformation.js:175-176 | the new events are the newest ones in chronological order; when the history holds at least `seen` events, exactly `n - seen` of them are new; with a larger count the negative slice end leaves the `2n - seen` newest events new, or none when `seen >= 2n` |
| Events.RootTypeIsOldest | src/main/cloudformation.js:174 | the stack's resource type is that of the oldest fetched event, the first one a context that has seen nothing reports |
| Events.IsTerminalMatch | src/main/cloudformation.js:181-182 | a matching event has a terminal status; an event of another resource type never matches |
| Events.FilterTerminal | src/main/cloudformation.js:179-183 | an event is kept iff it has the given resource type and a terminal status; the result is a subsequence of the input |
| Events.FilterTerminalCounts | src/main/cloudformation.js:179-183 | the filter keeps every matching event as often as it occurs and drops every other one |
| Events.Matches | src/main/cloudformation.js:173-183 | an event is a match iff it is new and a terminal match for the type of the oldest fetched event; matches keep chronological order as a subsequence of the new events; an empty history has none |
| Events.FilterTerminalAppend | src/main/cloudformation.js:179-183 | filtering distributes over concatenation |
| Events.FirstMatchIsOldest | src/main/cloudformation.js:159-162 | the first match is the oldest new event that is a terminal match; no earlier new event is one |
| Events.FreshContextReportsAll | src/main/cloudformation.js:38 | a context that has seen nothing reports the whole history, oldest first |
| Events.NoNewEventsNoMatch | src/main/cloudformation.js:175-183 | when the count equals the history's length, nothing is new and nothing matches |
| Events.ForeignTypesNeverMatch | src/main/cloudformation.js:179-183 | new events of other resource types never match, whatever their status |
| Events.ExtensionDelta | src/main/cloudformation.js:175-177 | the delta of a history that only grew is exactly the prepended events, in chronological order after the old history |
| Events.CumulativeDeltas | src/main/cloudformation.js:175-177 | over successive growing fetches from a fresh context, the deltas concatenate to the final history reversed, as a multiset equal to it: no event is lost or repeated |
| Operations.TerminalStatuses | src/main/cloudformation.js:7-25 | every kind's terminal set contains DELETE_FAILED and DELETE_COMPLETE; the delete set is exactly those two |
| Operations.SuccessStatus | src/main/cloudformation.js:26-28 | each kind's success status is in its own terminal set |
| Operations.Verb | src/main/cloudformation.js:74 | the word in the failure message is "create", "update" or "delete", each for exactly one kind |
| Operations.SuccessStatusesDistinct | src/main/cloudformation.js:26-28 | two kinds share a success status iff they are the same kind |
| Operations.CreateUpdateOverlap | src/main/cloudformation.js:7-21 | the create and update sets share exactly the two deletion statuses |
| Poller.Resolve | src/main/cloudformation.js:159-167 | the callback is success, carrying the whole match list, iff the oldest match has the success status, and otherwise the uniform failure |
| Poller.Step | src/main/cloudformation.js:150-171 | a tick that stops always calls back; a failed fetch keeps the count and the timer, shows nothing and passes the error on; a successful fetch sets the count to the history's length and stops iff there is a match |
| Poller.StepFetchError | src/main/cloudformation.js:152-154 | a fetch error is passed to the callback unchanged; the seen count stays, nothing is displayed and the timer is not cleared |
| Poller.StepResolution | src/main/cloudformation.js:155-168 | after a fetch the count is the history's length and the new events are displayed; the tick stops iff some new event is a terminal match of the stack's type; without a stop there is no callback; on a stop the callback is success with the match list iff the oldest match has the success status, and the uniform failure iff it has not |
| Poller.StepTypeScoped | src/main/cloudformation.js:179-183 | when no new event has the stack's type, the tick neither stops nor calls back |
| Poller.StepNothingNew | src/main/cloudformation.js:159 | a fetch with nothing new displays nothing and does not resolve |
| Poller.RunFrom | src/main/cloudformation.js:142-148 | a run takes at most one tick per fetch; a running timer has consumed all fetches; a cleared one has ticked at least once |
| Poller.RunResolvesAtMostOnce | src/main/cloudformation.js:150-168 | a success callback can only be the last callback and only once the timer is cleared; every other callback passes on one of the fetch errors |
| Poller.RunWithoutFetchErrors | src/main/cloudformation.js:150-168 | without fetch errors, a running timer has called back never and a cleared one exactly once |
| Poller.StepDedup | src/main/cloudformation.js:175-177 | one tick on a grown history displays exactly the added events and sets the count to the new length; a failed fetch changes neither |
| Poller.RunDedup | src/main/cloudformation.js:142-177 | over a run of growing fetches, the count follows the last fetched history, and the displayed events complete the earlier history to it in chronological order |
| Poller.NothingNewFromCount | src/main/cloudformation.js:175-177 | a count equal to the history's length, or at least twice it, leaves nothing new: the tick shows nothing and does not resolve |
| Poller.StaleCountHidesHistory | src/main/cloudformation.js:175-177 | from such a count, fetching one complete history any number of times shows nothing, calls back never and keeps the timer running |
| Poller.OperationContext.constructor | src/main/cloudformation.js:36-40 | a new context has seen nothing and its timer is not started |
| Poller.OperationContext.LogData | src/main/cloudformation.js:173-190 | returns the new events and the matches for the old count, and records the history's length as the count |
| Poller.OperationContext.CheckStackStatus | src/main/cloudformation.js:150-171 | on a running timer, one tick sets the count, the callback, the displayed events and the timer as `Step` says: cleared exactly when the tick stops |
| Poller.OperationContext.CheckStackStatusPeriodically | src/main/cloudformation.js:142-148 | starting the timer and ticking once per fetch while it runs yields the callbacks, the displayed events, the count and the timer of `RunFrom` |
| StackOperations.Complete | src/main/cloudformation.js:71-80 | the unit fails iff the poller failed, with "Could not <kind> stack: <name>", and otherwise passes the poller's result through |
| StackOperations.UnitCallbacks | src/main/cloudformation.js:59-140 | a rejected submit is reported unchanged, once, whatever the fetch results; after an accepted submit the unit calls back once per poller callback, every failure rewritten to "Could not <kind> stack: <name>" and every success passing the match list through |
| StackOperations.SuccessCarriesTerminalEvents | src/main/cloudformation.js:76-79 | a unit's success result is non-empty, starts with the kind's success status, and holds only terminal events of one resource type |
| StackOperations.SuccessfulRunCarriesMatches | src/main/cloudformation.js:159-166 | every success callback of a run carries a non-empty list of terminal events of one resource type headed by the success status |
| StackOperations.SecondCreateTick | src/main/cloudformation.js:175-183 | on the second fetch of a create only the two new events are shown, and the bucket's CREATE_COMPLETE does not match |
| StackOperations.CreateOverTwoTicks | src/main/cloudformation.js:59-81 | a create that completes on its second tick shows each of the five events once and succeeds with the stack's CREATE_COMPLETE |
| StackOperations.UpdateRollsBack | src/main/cloudformation.js:87-109 | an update ending in UPDATE_ROLLBACK_COMPLETE fails with the uniform error, reported as "Could not update stack: web"; the bucket's UPDATE_FAILED decides nothing |
| StackOperations.FetchErrorKeepsPolling | src/main/cloudformation.js:150-154 | a fetch error between two successful fetches makes the unit call back twice: first the failure, then the success |
| StackOperations.FreshContextResolvesOnEarlierHistory | src/main/cloudformation.js:175-177 | counting from nothing, a second update resolves on the first update's UPDATE_COMPLETE |
| StackOperations.ShortPartlyHidden | src/main/cloudformation.js:176 | with a count of 4 on a 3-event history, the newest two events are new and the stack's CREATE_COMPLETE still matches |
| StackOperations.CarriedOverCounterNeverResolves | src/main/cloudformation.js:38 | with a count of 6 left over, the complete 3-event history is never shown or matched however often it is fetched; a fresh count succeeds on the first tick |
| Severity.Includes | src/main/cloudformation.js:234 | `includes` holds iff the substring occurs at some position |
| Severity.MissingCharacter | src/main/cloudformation.js:234 | a string lacking one of a substring's characters does not include it |
| Severity.StatusSeverity | src/main/cloudformation.js:233-243 | the classification is total and ordered: failure iff ROLLBACK or FAILED occurs; otherwise in progress iff IN_PROGRESS occurs; otherwise success iff COMPLETE occurs without DELETE; otherwise neutral |
| Severity.RollbackInProgressIsFailure | src/main/cloudformation.js:234-238 | UPDATE_ROLLBACK_IN_PROGRESS is a failure, not in progress |
| Severity.DeleteCompleteIsNeutral | src/main/cloudformation.js:239-242 | DELETE_COMPLETE is neutral |
| Severity.TerminalNeverInProgress | src/main/cloudformation.js:233-238 | no terminal status of any kind is shown as in progress |

## Left out

- The provider calls (`createStack`, `updateStack`, `deleteStack`, `describeStackEvents`) are network calls. Their results are inputs: a `SubmitResult` and one `FetchResult` per tick.
- `validateTemplate` is a pass-through around a provider call with no logic of its own.
- Reading the template with `fs.readFileSync` is file I/O.
- The `through2-concurrent` streams and `DEFAULT_CONCURRENCY_OPTIONS` are a library's concurrency bound, which cannot be stated for the code shown. Each unit is modelled on its own.
- `setInterval`/`clearInterval` and the 5000 ms period are wall-clock timing. The timer is the state `TimerState`, and the ticks are the elements of the fetch sequence.
- `createTable`, the timestamp formatting, the colour codes and `console.log` are presentation. Only the severity is modelled.
- The instance-wide `stackEventsNumber` and `intervalId` are not modelled as shared. Concurrent units overwriting each other's timer handle are left out. Each operation has its own `OperationContext`, and the effect of a carried-over counter is shown by starting a run at that count.
- Event timestamps are display-only, so `StackEvent` does not hold one.
- RunFrom, RunResolvesAtMostOnce, RunDedup: ticks are modelled one after another, each fetch answered before the next tick, and no tick runs after a stop. In the source, `setInterval` fires every period without waiting for the pending `describeStackEvents`. So responses can overlap and arrive out of order. A shorter, older history arriving late makes the slice end negative: it re-shows events and lowers the count. A response to a fetch issued before `clearInterval` still runs and can call back again after a resolution. These lemmas hold only under the sequential assumption.
- CarriedOverCounterNeverResolves: covers a count of at least twice the length of a complete history fetched repeatedly. A smaller carried-over count (`ShortPartlyHidden`) or a history still growing can still resolve.
- Paginated event histories are not modelled: each fetch is the whole history.
- Operations.TerminalStatuses: the contract states the shared deletion statuses and the exact delete set. The create and update sets are stated by the constants themselves rather than by a separate lemma.

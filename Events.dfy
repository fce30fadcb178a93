/** The event delta and the terminal matcher of the completion poller
    (`logData` in src/main/cloudformation.js), on plain sequences.

    A fetched history is a sequence of stack events, NEWEST FIRST, as the
    provider returns it. The poller remembers only how many events it has
    already seen; the events that are new in a fetch are the newest ones
    beyond that count, reported OLDEST FIRST. */
module Events {

  /** One entry of a stack's event history. The timestamp is only used for
      display and is not part of the model. */
  datatype StackEvent = StackEvent(
    eventId: string,
    logicalResourceId: string,
    resourceType: string,
    resourceStatus: string,
    statusReason: string)

  /** `s` in the opposite order. */
  function Reverse<T>(s: seq<T>): (r: seq<T>)
    ensures |r| == |s|
    ensures forall i :: 0 <= i < |s| ==> r[i] == s[|s| - 1 - i]
  {
    if s == [] then [] else Reverse(s[1..]) + [s[0]]
  }

  lemma ReverseAppend<T>(a: seq<T>, b: seq<T>)
    ensures Reverse(a + b) == Reverse(b) + Reverse(a)
  {
    var l, r := Reverse(a + b), Reverse(b) + Reverse(a);
    assert |l| == |r|;
    forall i | 0 <= i < |l| ensures l[i] == r[i] {
      if i < |b| {
        assert r[i] == Reverse(b)[i];
      } else {
        assert r[i] == Reverse(a)[i - |b|];
      }
    }
  }

  lemma {:induction false} ReverseMultiset<T>(s: seq<T>)
    ensures multiset(Reverse(s)) == multiset(s)
  {
    if s != [] {
      ReverseMultiset(s[1..]);
      assert s == [s[0]] + s[1..];
    }
  }

  /** Where JavaScript's `a.slice(0, end)` stops on an array of length `len`:
      a negative `end` counts back from the end of the array, and the result
      is clamped to `0 .. len`. */
  function SliceEnd(len: nat, end: int): (k: nat)
    ensures k <= len
    ensures 0 <= end <= len ==> k == end
    ensures end < 0 ==> k == if len + end < 0 then 0 else len + end
  {
    if end < 0 then (if len + end < 0 then 0 else len + end)
    else if end > len then len
    else end
  }

  /** The events of `data` that are new after `seen` events were observed,
      oldest first: `data.slice(0, data.length - seen).reverse()`. */
  function NewEvents(data: seq<StackEvent>, seen: nat): (r: seq<StackEvent>)
    // the new events are the |r| newest ones, in chronological order
    ensures |r| <= |data|
    ensures forall i :: 0 <= i < |r| ==> r[i] == data[|r| - 1 - i]
    // with a history that only grew, exactly the events beyond `seen` are new
    ensures seen <= |data| ==> |r| == |data| - seen
    // a count beyond the history's length makes the slice end negative, so
    // it counts back from the end: only the 2n - seen newest events are new
    ensures seen > |data| ==> |r| == if 2 * |data| <= seen then 0 else 2 * |data| - seen
  {
    Reverse(data[..SliceEnd(|data|, |data| - seen)])
  }

  /** The resource type of the stack itself: that of the last entry of the
      fetched history, the oldest event (`firstEvent` in the source). */
  function RootType(data: seq<StackEvent>): string
    requires data != []
  {
    data[|data| - 1].resourceType
  }

  /** The stack's resource type is that of the oldest fetched event: the
      first one a context that has seen nothing reports. */
  lemma RootTypeIsOldest(data: seq<StackEvent>)
    requires data != []
    ensures RootType(data) == NewEvents(data, 0)[0].resourceType
    ensures RootType(data) == Reverse(data)[0].resourceType
  {
  }

  /** An event closes the operation when it is about the stack's own
      resource type and its status is one of the operation's terminal ones. */
  predicate IsTerminalMatch(e: StackEvent, rootType: string, terminal: set<string>): (b: bool)
    ensures b ==> e.resourceStatus in terminal
    ensures e.resourceType != rootType ==> !b
  {
    e.resourceType == rootType && e.resourceStatus in terminal
  }

  /** `a` is obtained from `b` by deleting elements, keeping the order. */
  ghost predicate IsSubsequence<T>(a: seq<T>, b: seq<T>)
    decreases |b|
  {
    if a == [] then true
    else if b == [] then false
    else (a[0] == b[0] && IsSubsequence(a[1..], b[1..])) || IsSubsequence(a, b[1..])
  }

  /** `s.filter(elem => IsTerminalMatch(elem, rootType, terminal))`. */
  function FilterTerminal(s: seq<StackEvent>, rootType: string, terminal: set<string>): (r: seq<StackEvent>)
    ensures forall e :: e in r <==> e in s && IsTerminalMatch(e, rootType, terminal)
    ensures IsSubsequence(r, s)
  {
    if s == [] then []
    else if IsTerminalMatch(s[0], rootType, terminal) then
      var rest := FilterTerminal(s[1..], rootType, terminal);
      assert ([s[0]] + rest)[1..] == rest;
      [s[0]] + rest
    else FilterTerminal(s[1..], rootType, terminal)
  }

  /** The filter keeps every matching event as often as it occurs and drops
      every other one. */
  lemma {:induction false} FilterTerminalCounts(s: seq<StackEvent>, rootType: string, terminal: set<string>)
    ensures var r := FilterTerminal(s, rootType, terminal);
      forall e :: multiset(r)[e] == if IsTerminalMatch(e, rootType, terminal) then multiset(s)[e] else 0
  {
    if s != [] {
      assert s == [s[0]] + s[1..];
      FilterTerminalCounts(s[1..], rootType, terminal);
      if IsTerminalMatch(s[0], rootType, terminal) {
        assert FilterTerminal(s, rootType, terminal) == [s[0]] + FilterTerminal(s[1..], rootType, terminal);
      }
    }
  }

  /** Filtering distributes over concatenation. */
  lemma {:induction false} FilterTerminalAppend(a: seq<StackEvent>, b: seq<StackEvent>, rootType: string, terminal: set<string>)
    ensures FilterTerminal(a + b, rootType, terminal) == FilterTerminal(a, rootType, terminal) + FilterTerminal(b, rootType, terminal)
  {
    if a == [] {
      assert a + b == b;
    } else {
      assert (a + b)[0] == a[0] && (a + b)[1..] == a[1..] + b;
      FilterTerminalAppend(a[1..], b, rootType, terminal);
    }
  }

  /** Nothing survives the filter when no element is a terminal match. */
  lemma NothingTerminal(s: seq<StackEvent>, rootType: string, terminal: set<string>)
    requires forall i :: 0 <= i < |s| ==> !IsTerminalMatch(s[i], rootType, terminal)
    ensures FilterTerminal(s, rootType, terminal) == []
  {
    var r := FilterTerminal(s, rootType, terminal);
    assert forall i :: 0 <= i < |r| ==> r[i] in r;
  }

  /** The events returned by `logData`: the new events, oldest first, that
      are terminal matches for the stack's own resource type. On an empty
      history there are no new events, so nothing can match. */
  function Matches(data: seq<StackEvent>, seen: nat, terminal: set<string>): (r: seq<StackEvent>)
    ensures forall e :: e in r ==>
      data != [] && e in NewEvents(data, seen) && IsTerminalMatch(e, RootType(data), terminal)
    ensures data != [] ==> forall e :: e in NewEvents(data, seen) && IsTerminalMatch(e, RootType(data), terminal) ==> e in r
    ensures IsSubsequence(r, NewEvents(data, seen))
  {
    if data == [] then [] else FilterTerminal(NewEvents(data, seen), RootType(data), terminal)
  }

  /** The first element of the filtered list is the first (oldest) matching
      element of the list it was filtered from. */
  lemma {:induction false} FilterTerminalHead(s: seq<StackEvent>, rootType: string, terminal: set<string>)
    requires FilterTerminal(s, rootType, terminal) != []
    ensures exists k :: (0 <= k < |s| && s[k] == FilterTerminal(s, rootType, terminal)[0] &&
      IsTerminalMatch(s[k], rootType, terminal) &&
      forall j :: 0 <= j < k ==> !IsTerminalMatch(s[j], rootType, terminal))
  {
    if !IsTerminalMatch(s[0], rootType, terminal) {
      FilterTerminalHead(s[1..], rootType, terminal);
      var k :| 0 <= k < |s[1..]| && s[1..][k] == FilterTerminal(s[1..], rootType, terminal)[0] &&
        IsTerminalMatch(s[1..][k], rootType, terminal) &&
        forall j :: 0 <= j < k ==> !IsTerminalMatch(s[1..][j], rootType, terminal);
      assert s[k + 1] == s[1..][k];
      forall j | 0 <= j < k + 1 ensures !IsTerminalMatch(s[j], rootType, terminal) {
        if j > 0 { assert s[j] == s[1..][j - 1]; }
      }
    } else {
      assert s[0] == FilterTerminal(s, rootType, terminal)[0];
    }
  }

  /** The match that decides the outcome is the oldest new event that is a
      terminal match; no earlier new event is one. */
  lemma FirstMatchIsOldest(data: seq<StackEvent>, seen: nat, terminal: set<string>)
    requires Matches(data, seen, terminal) != []
    ensures data != []
    ensures var n := NewEvents(data, seen);
      exists k :: (0 <= k < |n| && n[k] == Matches(data, seen, terminal)[0] &&
        IsTerminalMatch(n[k], RootType(data), terminal) &&
        forall j :: 0 <= j < k ==> !IsTerminalMatch(n[j], RootType(data), terminal))
  {
    FilterTerminalHead(NewEvents(data, seen), RootType(data), terminal);
  }

  /** A fresh context (nothing seen yet) reports the whole history, oldest first. */
  lemma FreshContextReportsAll(data: seq<StackEvent>)
    ensures NewEvents(data, 0) == Reverse(data)
  {
    assert data[..|data|] == data;
  }

  /** When nothing new was fetched, nothing matches. */
  lemma NoNewEventsNoMatch(data: seq<StackEvent>, terminal: set<string>)
    ensures NewEvents(data, |data|) == []
    ensures Matches(data, |data|, terminal) == []
  {
  }

  /** Events of other resource types never close the operation, whatever
      their status. */
  lemma ForeignTypesNeverMatch(data: seq<StackEvent>, seen: nat, terminal: set<string>)
    requires data != []
    requires forall e :: e in NewEvents(data, seen) ==> e.resourceType != RootType(data)
    ensures Matches(data, seen, terminal) == []
  {
    var r := Matches(data, seen, terminal);
    assert forall i :: 0 <= i < |r| ==> r[i] in r;
  }

  /** `newer` is a later fetch of the same history as `older`: it only
      prepends events that happened since. */
  predicate Extends(newer: seq<StackEvent>, older: seq<StackEvent>)
  {
    |older| <= |newer| && newer[|newer| - |older|..] == older
  }

  /** Successive fetches of one stack's history. */
  predicate Cumulative(hs: seq<seq<StackEvent>>)
  {
    forall i :: 0 < i < |hs| ==> Extends(hs[i], hs[i - 1])
  }

  /** The new events reported over successive fetches, starting from a
      context that has seen `seen` events. */
  function Deltas(seen: nat, hs: seq<seq<StackEvent>>): seq<StackEvent>
    decreases |hs|
  {
    if hs == [] then [] else NewEvents(hs[0], seen) + Deltas(|hs[0]|, hs[1..])
  }

  /** The delta of a later fetch is exactly what was prepended, put back in
      chronological order after the earlier history. */
  lemma ExtensionDelta(newer: seq<StackEvent>, older: seq<StackEvent>)
    requires Extends(newer, older)
    ensures Reverse(older) + NewEvents(newer, |older|) == Reverse(newer)
  {
    var k := |newer| - |older|;
    assert newer == newer[..k] + older;
    ReverseAppend(newer[..k], older);
  }

  lemma {:induction false} CumulativeDeltasFrom(prev: seq<StackEvent>, hs: seq<seq<StackEvent>>)
    requires hs != []
    requires Extends(hs[0], prev)
    requires Cumulative(hs)
    ensures Reverse(prev) + Deltas(|prev|, hs) == Reverse(hs[|hs| - 1])
    decreases |hs|
  {
    ExtensionDelta(hs[0], prev);
    var d := NewEvents(hs[0], |prev|);
    var tail := hs[1..];
    assert Deltas(|prev|, hs) == d + Deltas(|hs[0]|, tail);
    if tail == [] {
      assert Deltas(|hs[0]|, tail) == [];
    } else {
      CumulativeTail(hs);
      CumulativeDeltasFrom(hs[0], tail);
      calc {
        Reverse(prev) + Deltas(|prev|, hs);
        (Reverse(prev) + d) + Deltas(|hs[0]|, tail);
        Reverse(hs[0]) + Deltas(|hs[0]|, tail);
        Reverse(tail[|tail| - 1]);
      }
    }
  }

  lemma CumulativeTail(hs: seq<seq<StackEvent>>)
    requires |hs| > 1
    requires Cumulative(hs)
    ensures Extends(hs[1..][0], hs[0])
    ensures Cumulative(hs[1..])
  {
    assert Extends(hs[1], hs[0]);
    forall i | 0 < i < |hs[1..]| ensures Extends(hs[1..][i], hs[1..][i - 1]) {
      assert Extends(hs[i + 1], hs[i]);
    }
  }

  /** Monotonic dedup: over successive fetches of one history, the deltas
      reported from a fresh context add up to the final history in
      chronological order, each event exactly once. */
  lemma CumulativeDeltas(hs: seq<seq<StackEvent>>)
    requires hs != []
    requires Cumulative(hs)
    ensures Deltas(0, hs) == Reverse(hs[|hs| - 1])
    ensures multiset(Deltas(0, hs)) == multiset(hs[|hs| - 1])
  {
    assert Extends(hs[0], []);
    CumulativeDeltasFrom([], hs);
    ReverseMultiset(hs[|hs| - 1]);
  }
}

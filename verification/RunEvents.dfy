/** The per-run event log: gap-free, append-only, one tenant per run, replayable. */
module RunEvents {
  import opened Ordering
  import opened Outcomes
  import Json

  datatype RunEvent = RunEvent(
    tenantId: string,
    runId: string,
    eventKey: string,
    eventType: string,
    occurredAt: string,
    elapsedMs: Option<real>,
    payload: Json.Json)

  datatype StoredEvent = StoredEvent(event: RunEvent, sequence: int)

  datatype EventError =
    | SequenceConflict(expected: int, actual: int)
    | DuplicateEventKey(eventKey: string)
    | EventTenantBoundary(runId: string)

  /** The three maps of the store as one value. */
  datatype Log = Log(
    tenantByRun: map<string, string>,
    eventsByRun: map<string, seq<StoredEvent>>,
    eventKeysByRun: map<string, set<string>>)

  const EMPTY_LOG := Log(map[], map[], map[])

  function EventsOf(log: Log, runId: string): seq<StoredEvent> {
    if runId in log.eventsByRun then log.eventsByRun[runId] else []
  }

  // ----- what every log keeps -------------------------------------------------------

  /** Sequence numbers count from one without a gap. */
  ghost predicate GapFree(events: seq<StoredEvent>) {
    forall i :: 0 <= i < |events| ==> events[i].sequence == i + 1
  }

  ghost predicate KeysDistinct(events: seq<StoredEvent>) {
    forall i, j :: 0 <= i < j < |events| ==> events[i].event.eventKey != events[j].event.eventKey
  }

  ghost predicate Belong(events: seq<StoredEvent>, tenantId: string, runId: string) {
    forall i :: 0 <= i < |events| ==> events[i].event.runId == runId && events[i].event.tenantId == tenantId
  }

  ghost predicate RunSound(log: Log, runId: string) {
    && (runId in log.tenantByRun <==> runId in log.eventsByRun)
    && (runId in log.eventKeysByRun <==> runId in log.eventsByRun)
    && (runId in log.eventsByRun ==>
      && log.eventsByRun[runId] != []
      && GapFree(log.eventsByRun[runId]) && KeysDistinct(log.eventsByRun[runId])
      && runId in log.tenantByRun && Belong(log.eventsByRun[runId], log.tenantByRun[runId], runId)
      && runId in log.eventKeysByRun
      && log.eventKeysByRun[runId] == set x | x in log.eventsByRun[runId] :: x.event.eventKey)
  }

  ghost predicate Sound(log: Log) {
    forall runId :: RunSound(log, runId)
  }

  // ----- appending ------------------------------------------------------------------

  /** Whether a run takes an event, judged by the events it already has. */
  ghost predicate Accepts(events: seq<StoredEvent>, e: RunEvent, expected: Option<int>) {
    && (forall x :: x in events ==> x.event.tenantId == e.tenantId && x.event.eventKey != e.eventKey)
    && (expected.Some? ==> expected.value == |events| + 1)
  }

  /** The cause named by a refusal: another tenant first, then the expected number, then the key. */
  ghost predicate RefusedWith(events: seq<StoredEvent>, e: RunEvent, expected: Option<int>, error: EventError) {
    if exists x :: x in events && x.event.tenantId != e.tenantId then error == EventTenantBoundary(e.runId)
    else if expected.Some? && expected.value != |events| + 1
    then error == SequenceConflict(expected.value, |events| + 1)
    else error == DuplicateEventKey(e.eventKey)
  }

  function Appended(log: Log, e: RunEvent): Log {
    var events := EventsOf(log, e.runId);
    var keys := if e.runId in log.eventKeysByRun then log.eventKeysByRun[e.runId] else {};
    Log(log.tenantByRun[e.runId := e.tenantId],
        log.eventsByRun[e.runId := events + [StoredEvent(e, |events| + 1)]],
        log.eventKeysByRun[e.runId := keys + {e.eventKey}])
  }

  lemma AppendKeepsSound(log: Log, e: RunEvent, expected: Option<int>)
    requires Sound(log) && Accepts(EventsOf(log, e.runId), e, expected)
    ensures Sound(Appended(log, e))
  {
    var after := Appended(log, e);
    forall runId ensures RunSound(after, runId) {
      assert RunSound(log, runId);
      if runId == e.runId {
        AppendedRunSound(log, e, expected);
      }
    }
  }

  lemma AppendedRunSound(log: Log, e: RunEvent, expected: Option<int>)
    requires RunSound(log, e.runId) && Accepts(EventsOf(log, e.runId), e, expected)
    ensures RunSound(Appended(log, e), e.runId)
  {
    var events := EventsOf(log, e.runId);
    var after := Appended(log, e).eventsByRun[e.runId];
    var stored := StoredEvent(e, |events| + 1);
    assert after == events + [stored];
    forall i | 0 <= i < |events|
      ensures events[i].event.eventKey != e.eventKey && events[i].event.tenantId == e.tenantId
    {
      assert events[i] in events;
    }
    assert (set x | x in after :: x.event.eventKey) == (set x | x in events :: x.event.eventKey) + {e.eventKey} by {
      assert stored in after;
      forall x | x in events ensures x in after {
      }
    }
    assert events != [] ==> events[0].event.tenantId == e.tenantId;
  }

  class InMemoryRunEventStore {
    var tenantByRun: map<string, string>
    var eventsByRun: map<string, seq<StoredEvent>>
    var eventKeysByRun: map<string, set<string>>

    function State(): Log
      reads this
    {
      Log(tenantByRun, eventsByRun, eventKeysByRun)
    }

    constructor ()
      ensures State() == EMPTY_LOG && Sound(State())
    {
      tenantByRun, eventsByRun, eventKeysByRun := map[], map[], map[];
    }

    /** Appends exactly the acceptable events; a refusal names its cause and changes nothing. */
    method Append(e: RunEvent, expected: Option<int>) returns (r: Result<StoredEvent, EventError>)
      requires Sound(State())
      modifies this
      ensures Sound(State())
      ensures r.Ok? <==> Accepts(EventsOf(old(State()), e.runId), e, expected)
      ensures r.Ok? ==> State() == Appended(old(State()), e)
      ensures r.Ok? ==> r.value == StoredEvent(e, |EventsOf(old(State()), e.runId)| + 1)
      ensures r.Err? ==> State() == old(State()) && RefusedWith(EventsOf(State(), e.runId), e, expected, r.error)
    {
      ghost var before := State();
      assert RunSound(before, e.runId);
      var events := if e.runId in eventsByRun then eventsByRun[e.runId] else [];
      if e.runId in tenantByRun && tenantByRun[e.runId] != e.tenantId {
        assert events[0] in events;
        return Err(EventTenantBoundary(e.runId));
      }
      var next := |events| + 1;
      if expected.Some? && expected.value != next {
        return Err(SequenceConflict(expected.value, next));
      }
      var keys := if e.runId in eventKeysByRun then eventKeysByRun[e.runId] else {};
      if e.eventKey in keys {
        return Err(DuplicateEventKey(e.eventKey));
      }
      AppendKeepsSound(before, e, expected);
      hide Sound;
      var stored := StoredEvent(e, next);
      tenantByRun := tenantByRun[e.runId := e.tenantId];
      eventsByRun := eventsByRun[e.runId := events + [stored]];
      eventKeysByRun := eventKeysByRun[e.runId := keys + {e.eventKey}];
      return Ok(stored);
    }

    /** Another tenant is refused; an unknown run has no events. */
    method List(tenantId: string, runId: string) returns (r: Result<seq<StoredEvent>, EventError>)
      requires Sound(State())
      ensures r.Ok? <==> forall x :: x in EventsOf(State(), runId) ==> x.event.tenantId == tenantId
      ensures r.Ok? ==> r.value == EventsOf(State(), runId)
      ensures r.Err? ==> r.error == EventTenantBoundary(runId)
    {
      assert RunSound(State(), runId);
      if runId in tenantByRun && tenantByRun[runId] != tenantId {
        assert eventsByRun[runId][0] in eventsByRun[runId];
        return Err(EventTenantBoundary(runId));
      }
      return Ok(if runId in eventsByRun then eventsByRun[runId] else []);
    }
  }

  // ----- whole histories ------------------------------------------------------------

  datatype Attempt = Attempt(event: RunEvent, expected: Option<int>)

  ghost function Attempted(log: Log, a: Attempt): Log {
    if Accepts(EventsOf(log, a.event.runId), a.event, a.expected) then Appended(log, a.event) else log
  }

  /** The log after any sequence of appends, accepted or refused. */
  ghost function After(attempts: seq<Attempt>): Log {
    if attempts == [] then EMPTY_LOG else Attempted(After(attempts[..|attempts| - 1]), attempts[|attempts| - 1])
  }

  /** Every run of every reachable log is gap-free, single-tenant and free of duplicate keys. */
  lemma {:induction false} EveryLogIsSound(attempts: seq<Attempt>)
    ensures Sound(After(attempts))
  {
    if attempts != [] {
      var front, last := attempts[..|attempts| - 1], attempts[|attempts| - 1];
      EveryLogIsSound(front);
      hide Sound;
      if Accepts(EventsOf(After(front), last.event.runId), last.event, last.expected) {
        AppendKeepsSound(After(front), last.event, last.expected);
      }
    }
  }

  /** What a run has recorded stays, in place, for ever. */
  lemma {:induction false} RunsOnlyGrow(attempts: seq<Attempt>, k: nat, runId: string)
    requires k <= |attempts|
    ensures var before, after := EventsOf(After(attempts[..k]), runId), EventsOf(After(attempts), runId);
      |before| <= |after| && after[..|before|] == before
    decreases |attempts|
  {
    if k == |attempts| {
      TakeAll(attempts);
    } else {
      var front := attempts[..|attempts| - 1];
      RunsOnlyGrow(front, k, runId);
      assert front[..k] == attempts[..k];
      hide Accepts;
    }
  }

  /** The k-th attempt was taken by its run. */
  ghost predicate Taken(attempts: seq<Attempt>, k: nat) {
    k < |attempts|
    && Accepts(EventsOf(After(attempts[..k]), attempts[k].event.runId), attempts[k].event, attempts[k].expected)
  }

  /** What a run took is recorded ever after under the number it got. */
  lemma TakenIsRecorded(attempts: seq<Attempt>, k: nat)
    requires Taken(attempts, k)
    ensures var e := attempts[k].event;
      var n, events := |EventsOf(After(attempts[..k]), e.runId)|, EventsOf(After(attempts), e.runId);
      n < |events| && events[n] == StoredEvent(e, n + 1)
  {
    var e := attempts[k].event;
    RunsOnlyGrow(attempts, k + 1, e.runId);
    assert attempts[..k + 1][..k] == attempts[..k];
    hide Accepts;
    var before, next, after := EventsOf(After(attempts[..k]), e.runId), EventsOf(After(attempts[..k + 1]), e.runId),
      EventsOf(After(attempts), e.runId);
    assert next == before + [StoredEvent(e, |before| + 1)];
    assert after[|before|] == after[..|next|][|before|];
  }

  /** Every recorded event was taken by some attempt, at the length the run then had. */
  lemma {:induction false} RecordedWasTaken(attempts: seq<Attempt>, runId: string, n: nat) returns (k: nat)
    requires n < |EventsOf(After(attempts), runId)|
    ensures Taken(attempts, k) && attempts[k].event.runId == runId
    ensures |EventsOf(After(attempts[..k]), runId)| == n
    ensures EventsOf(After(attempts), runId)[n] == StoredEvent(attempts[k].event, n + 1)
    decreases |attempts|
  {
    hide Accepts;
    var front := attempts[..|attempts| - 1];
    if n < |EventsOf(After(front), runId)| {
      k := RecordedWasTaken(front, runId, n);
      assert front[..k] == attempts[..k];
    } else {
      k := |attempts| - 1;
    }
  }

  // ----- projections ----------------------------------------------------------------

  function Fold<S>(initial: S, events: seq<StoredEvent>, reducer: (S, StoredEvent) -> S): S {
    if events == [] then initial
    else reducer(Fold(initial, events[..|events| - 1], reducer), events[|events| - 1])
  }

  method RebuildProjection<S>(store: InMemoryRunEventStore, tenantId: string, runId: string, initial: S,
      reducer: (S, StoredEvent) -> S) returns (r: Result<S, EventError>)
    requires Sound(store.State())
    ensures r.Ok? <==> forall x :: x in EventsOf(store.State(), runId) ==> x.event.tenantId == tenantId
    ensures r.Ok? ==> r.value == Fold(initial, EventsOf(store.State(), runId), reducer)
  {
    var listed := store.List(tenantId, runId);
    if listed.Err? {
      return Err(listed.error);
    }
    var events := listed.value;
    var state := initial;
    for k := 0 to |events|
      invariant state == Fold(initial, events[..k], reducer)
    {
      TakeMore(events, k);
      state := reducer(state, events[k]);
    }
    TakeAll(events);
    return Ok(state);
  }

  /** A projection can be continued from any point of the log instead of being rebuilt. */
  lemma {:induction false} ProjectionContinues<S>(initial: S, events: seq<StoredEvent>, k: nat,
      reducer: (S, StoredEvent) -> S)
    requires k <= |events|
    ensures Fold(initial, events, reducer) == Fold(Fold(initial, events[..k], reducer), events[k..], reducer)
    decreases |events|
  {
    if k == |events| {
      TakeAll(events);
    } else {
      var front := events[..|events| - 1];
      ProjectionContinues(initial, front, k, reducer);
      assert front[..k] == events[..k];
      assert events[k..][..|events[k..]| - 1] == front[k..];
    }
  }
}

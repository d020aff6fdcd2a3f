/** Replaying a verified backup into fresh stores. */
module Restore {
  import opened Graphs
  import opened Ordering
  import opened Outcomes
  import opened Artifacts
  import opened MultiPass
  import opened ProvenanceCheck
  import opened RunEvents
  import opened EventHistories
  import opened BackupContent
  import opened Backup
  import Guard
  import Json
  import L = Lineage
  import Workflows

  // ----- artifacts ------------------------------------------------------------------

  type Pending = map<Id, ArtifactMetadata>

  ghost predicate DistinctContent(artifacts: seq<ArtifactMetadata>) {
    forall a, b :: a in artifacts && b in artifacts && a != b ==> a.contentHash != b.contentHash
  }

  /** What a complete restore leaves in the lineage store. */
  ghost predicate Restored(all: Pending, s: L.Store) {
    s.artifacts.Keys == all.Keys && forall k :: k in all ==> s.artifacts[k] == Snapshot(all[k])
  }

  /** The artifacts split into those published as they are in the backup and those still pending. */
  ghost predicate Partly(tenantId: string, all: Pending, s: L.Store, pending: Pending) {
    && L.Sound(s)
    && s.artifacts.Keys + pending.Keys == all.Keys && s.artifacts.Keys !! pending.Keys
    && (forall k :: k in all ==> all[k].artifactId == k && all[k].tenantId == tenantId)
    && (forall k :: k in pending ==> pending[k] == all[k])
    && (forall k :: k in s.artifacts ==> s.artifacts[k] == Snapshot(all[k]))
  }

  /** The parents a pending artifact still waits for are not published. */
  ghost predicate Waiting(pending: Pending, published: set<Id>, k: Id) {
    k in pending && !(ParentIds(pending[k]) <= published)
  }

  ghost predicate ContentFree(all: Pending) {
    forall a, b :: a in all && b in all && a != b ==> all[a].contentHash != all[b].contentHash
  }

  /** What a restore of artifacts needs: parents present, no cycle, no content twice. */
  ghost predicate Replayable(all: Pending) {
    ParentsAmong(NeedsAmong(all)) && Acyclic(RequirementGraph(NeedsAmong(all))) && ContentFree(all)
  }

  /** The refusal names a content hash that two artifacts share. */
  ghost predicate RepeatsContent(all: Pending, tenantId: string, cause: L.LineageError) {
    && cause.ContentAlreadyExists? && cause.tenantId == tenantId
    && exists a, b :: HaveContent(all, a, b, cause.contentHash)
  }

  ghost predicate HaveContent(all: Pending, a: Id, b: Id, hash: string) {
    a in all && b in all && a != b && all[a].contentHash == hash == all[b].contentHash
  }

  /** A parent is missing, or the provenance is circular. */
  ghost predicate Unorderable(all: Pending) {
    !ParentsAmong(NeedsAmong(all)) || !Acyclic(RequirementGraph(NeedsAmong(all)))
  }

  /** Publishing a pending artifact whose parents are all published fails only on repeated content. */
  lemma ReadyPublishes(tenantId: string, all: Pending, s: L.Store, pending: Pending, k: Id)
    requires Partly(tenantId, all, s, pending) && k in pending && ParentIds(pending[k]) <= s.artifacts.Keys
    ensures L.Publishable(s, pending[k]) <==> L.ContentOf(pending[k]) !in s.artifactByContent
    ensures L.ContentOf(pending[k]) in s.artifactByContent ==> !ContentFree(all)
    ensures forall cause :: L.RefusedWith(s, pending[k], cause) && !L.Publishable(s, pending[k]) ==>
      RepeatsContent(all, tenantId, cause)
    ensures L.Publishable(s, pending[k]) ==> Partly(tenantId, all, L.Published(s, pending[k]), pending - {k})
  {
    var a := pending[k];
    hide Snapshot, L.EdgesMatch, Acyclic;
    forall p | p in a.provenance ensures L.KnownParent(s, a.tenantId, p) {
      assert p.inputArtifactId in ParentIds(a);
      SnapshotKeepsProvenance(all[p.inputArtifactId]);
    }
    if L.ContentOf(a) in s.artifactByContent {
      var other := s.artifactByContent[L.ContentOf(a)];
      assert L.IndexPoints(s, L.ContentOf(a), other);
      SnapshotKeepsProvenance(all[other]);
      assert HaveContent(all, other, k, a.contentHash);
    }
    if L.Publishable(s, a) {
      L.PublishedSound(s, a);
      hide L.Sound;
      var t := L.Published(s, a);
      assert t.artifacts.Keys + (pending - {k}).Keys == all.Keys;
    }
  }

  /** If nothing pending is ready, a parent is missing or the provenance is circular. */
  lemma AllWaiting(tenantId: string, all: Pending, s: L.Store, pending: Pending)
    requires Partly(tenantId, all, s, pending) && pending.Keys != {}
    requires forall k :: k in pending ==> Waiting(pending, s.artifacts.Keys, k)
    ensures Unorderable(all)
  {
    hide L.Sound, Snapshot, Acyclic, RequirementGraph, ContentFree;
    if ParentsAmong(NeedsAmong(all)) && Acyclic(RequirementGraph(NeedsAmong(all))) {
      var k := AcyclicHasSource(RequirementGraph(NeedsAmong(all)), pending.Keys);
      assert Waiting(pending, s.artifacts.Keys, k);
      forall r | r in ParentIds(all[k]) ensures r in s.artifacts.Keys {
        RequirementEdge(NeedsAmong(all), r, k);
        assert k in NeedsAmong(all) && r in NeedsAmong(all)[k];
        assert r in NeedsAmong(all).Keys;
      }
    }
  }

  /** A complete restore is only possible when there was nothing against it. */
  lemma CompleteMeansReplayable(tenantId: string, all: Pending, s: L.Store, pending: Pending)
    requires Partly(tenantId, all, s, pending) && pending.Keys == {}
    ensures Replayable(all) && Restored(all, s)
  {
    hide Snapshot;
    forall r, k | (r, k) in RequirementGraph(NeedsAmong(all)) ensures (r, k) in L.Linked(s.edges) && r in all {
      RequirementEdge(NeedsAmong(all), r, k);
      StoredParent(all, s, r, k);
    }
    SubgraphAcyclic(RequirementGraph(NeedsAmong(all)), L.Linked(s.edges));
    hide L.Linked, Acyclic;
    forall k, r | k in all && r in ParentIds(all[k]) ensures r in all {
      RequirementEdge(NeedsAmong(all), r, k);
    }
    hide RequirementGraph;
    forall a, b | a in all && b in all && a != b ensures all[a].contentHash != all[b].contentHash {
      SnapshotKeepsProvenance(all[a]);
      SnapshotKeepsProvenance(all[b]);
      assert L.IndexHolds(s, L.ContentOf(s.artifacts[a]), a) && L.IndexHolds(s, L.ContentOf(s.artifacts[b]), b);
    }
  }

  lemma StoredParent(all: Pending, s: L.Store, r: Id, k: Id)
    requires L.EdgesMatch(s) && s.artifacts.Keys == all.Keys && k in all && r in ParentIds(all[k])
    requires s.artifacts[k] == Snapshot(all[k]) && all[k].artifactId == k
    ensures (r, k) in L.Linked(s.edges) && r in s.artifacts
  {
    SnapshotKeepsProvenance(all[k]);
    hide Snapshot;
    var p :| p in all[k].provenance && p.inputArtifactId == r;
    var e := L.EdgeFor(s.artifacts[k], p);
    assert e in s.edges && L.EdgeIsProvenance(s, e);
  }

  /** One scan over the pending artifacts in ascending order, publishing those whose parents are there. */
  method ScanPending(lineage: L.InMemoryArtifactLineage, pending0: Pending,
      ghost tenantId: string, ghost all: Pending)
    returns (pending: Pending, error: Option<L.LineageError>)
    requires Partly(tenantId, all, lineage.State(), pending0)
    modifies lineage
    ensures error.None? ==> Partly(tenantId, all, lineage.State(), pending) && pending.Keys <= pending0.Keys
    ensures error.None? && pending.Keys != pending0.Keys ==> |pending.Keys| < |pending0.Keys|
    ensures error.None? && pending.Keys == pending0.Keys != {} ==> Unorderable(all)
    ensures error.Some? ==> !Replayable(all) && RepeatsContent(all, tenantId, error.value)
  {
    hide L.RefusedWith, RepeatsContent, Unorderable, Partly, ContentFree, Acyclic, SortedKeys;
    var order := EnumerateSorted(pending0.Keys);
    SortedKeysDistinct(pending0.Keys);
    pending := pending0;
    error := None;
    for i := 0 to |order|
      invariant Partly(tenantId, all, lineage.State(), pending)
      invariant pending.Keys <= pending0.Keys && pending.Keys >= Elements(order[i..])
      invariant pending.Keys == pending0.Keys ==>
        forall j :: 0 <= j < i ==> Waiting(pending, lineage.State().artifacts.Keys, order[j])
    {
      var id := order[i];
      DropFront(order, i);
      assert id in order[i..];
      var a := pending[id];
      PartlyPublished(tenantId, all, lineage.State(), pending);
      if ParentIds(a) <= lineage.artifacts.Keys {
        ReadyPublishes(tenantId, all, lineage.State(), pending, id);
        var r := lineage.Publish(a);
        if r.Err? {
          return pending, Some(r.error);
        }
        assert id !in Elements(order[i + 1..]);
        pending := pending - {id};
      }
    }
    forall k | k in pending && pending.Keys == pending0.Keys
      ensures Waiting(pending, lineage.State().artifacts.Keys, k)
    {
      assert k in Elements(order);
    }
    hide Elements, Replayable, Waiting;
    if pending.Keys != pending0.Keys {
      ProperSubsetSmaller(pending.Keys, pending0.Keys);
    } else if pending.Keys != {} {
      AllWaiting(tenantId, all, lineage.State(), pending);
    }
  }

  lemma PartlyPublished(tenantId: string, all: Pending, s: L.Store, pending: Pending)
    requires Partly(tenantId, all, s, pending)
    ensures L.Sound(s)
  {
  }

  /** What stands against a replay: content that is there already, or artifacts that never become ready. */
  ghost predicate CannotReplay(all: Pending, tenantId: string, error: BackupError) {
    match error
    case PublishRefused(cause) => RepeatsContent(all, tenantId, cause)
    case ProvenanceCycle(ids) => ids != [] && Elements(ids) <= all.Keys && Unorderable(all)
    case _ => false
  }

  /** Succeeds exactly when nothing stands against it; then every artifact is stored as it was, up to the order
      of its tags and provenance. */
  method RestoreArtifacts(all: Pending, ghost tenantId: string)
    returns (r: Result<L.InMemoryArtifactLineage, BackupError>)
    requires forall k :: k in all ==> all[k].artifactId == k && all[k].tenantId == tenantId
    ensures r.Ok? <==> Replayable(all)
    ensures r.Err? ==> CannotReplay(all, tenantId, r.error)
    ensures r.Ok? ==> fresh(r.value) && L.Sound(r.value.State()) && Restored(all, r.value.State())
  {
    var lineage := new L.InMemoryArtifactLineage();
    var pending := all;
    NothingPublished(tenantId, all);
    UnorderableIsNotReplayable(all);
    hide CannotReplay, RepeatsContent, Unorderable, Partly, Restored, Replayable, ContentFree, Waiting, ParentIds;
    hide L.Sound, SortedKeys, StrLe, Distinct, Elements;
    while pending.Keys != {}
      invariant fresh(lineage) && Partly(tenantId, all, lineage.State(), pending) && pending.Keys <= all.Keys
      decreases |pending.Keys|
    {
      var left, error := ScanPending(lineage, pending, tenantId, all);
      if error.Some? {
        RefusedCannotReplay(all, tenantId, error.value);
        return Err(PublishRefused(error.value));
      }
      if left.Keys == pending.Keys {
        var stuck := EnumerateSorted(left.Keys);
        StuckCannotReplay(all, tenantId, left.Keys);
        return Err(ProvenanceCycle(stuck));
      }
      pending := left;
    }
    CompleteMeansReplayable(tenantId, all, lineage.State(), pending);
    PartlyPublished(tenantId, all, lineage.State(), pending);
    return Ok(lineage);
  }

  lemma UnorderableIsNotReplayable(all: Pending)
    ensures Unorderable(all) ==> !Replayable(all)
  {
  }

  lemma StuckCannotReplay(all: Pending, tenantId: string, ids: set<Id>)
    requires ids != {} && ids <= all.Keys && Unorderable(all)
    ensures CannotReplay(all, tenantId, ProvenanceCycle(SortedKeys(ids)))
  {
    hide Unorderable;
  }

  lemma RefusedCannotReplay(all: Pending, tenantId: string, cause: L.LineageError)
    requires RepeatsContent(all, tenantId, cause)
    ensures CannotReplay(all, tenantId, PublishRefused(cause))
  {
  }

  lemma NothingPublished(tenantId: string, all: Pending)
    requires forall k :: k in all ==> all[k].artifactId == k && all[k].tenantId == tenantId
    ensures Partly(tenantId, all, L.EMPTY_STORE, all)
  {
    L.EmptyIsSound();
  }

  // ----- events ---------------------------------------------------------------------

  /** An event as it is replayed: the elapsed time is not carried over. */
  function Replayed(e: StoredEvent): StoredEvent {
    e.(event := e.event.(elapsedMs := None))
  }

  /** The events of one run, in order, as they are replayed. */
  function ReplayedRun(events: seq<StoredEvent>, runId: string): seq<StoredEvent> {
    if events == [] then []
    else
      var last := events[|events| - 1];
      ReplayedRun(events[..|events| - 1], runId) + (if last.event.runId == runId then [Replayed(last)] else [])
  }

  lemma {:induction false} ReplayedRunExact(events: seq<StoredEvent>, runId: string)
    ensures forall x :: x in events && x.event.runId == runId ==> Replayed(x) in ReplayedRun(events, runId)
    ensures forall y :: y in ReplayedRun(events, runId) ==>
      exists x :: x in events && x.event.runId == runId && y == Replayed(x)
  {
    if events != [] {
      ReplayedRunExact(events[..|events| - 1], runId);
      SplitLast(events);
    }
  }

  ghost predicate LogHolds(events: seq<StoredEvent>, log: Log) {
    forall runId :: EventsOf(log, runId) == ReplayedRun(events, runId)
  }

  /** The events of one run, in order, as the backup holds them. */
  function RunOf(events: seq<StoredEvent>, runId: string): seq<StoredEvent> {
    if events == [] then []
    else
      var last := events[|events| - 1];
      RunOf(events[..|events| - 1], runId) + (if last.event.runId == runId then [last] else [])
  }

  ghost predicate Untimed(events: seq<StoredEvent>) {
    forall e :: e in events ==> e.event.elapsedMs.None?
  }

  /** Every run in the log is the run in the backup, unchanged. */
  ghost predicate Reproduced(events: seq<StoredEvent>, log: Log) {
    forall runId :: EventsOf(log, runId) == RunOf(events, runId)
  }

  lemma {:induction false} RunIsKeptIff(events: seq<StoredEvent>, runId: string)
    ensures |ReplayedRun(events, runId)| == |RunOf(events, runId)|
    ensures ReplayedRun(events, runId) == RunOf(events, runId) <==>
      forall e :: e in events && e.event.runId == runId ==> e.event.elapsedMs.None?
  {
    if events != [] {
      var front, last := events[..|events| - 1], events[|events| - 1];
      RunIsKeptIff(front, runId);
      SplitLast(events);
      var replayed, kept := ReplayedRun(front, runId), RunOf(front, runId);
      assert last in events;
      if last.event.runId == runId {
        assert ReplayedRun(events, runId) == replayed + [Replayed(last)] && RunOf(events, runId) == kept + [last];
        LastDecides(replayed, Replayed(last), kept, last);
        assert Replayed(last) == last <==> last.event.elapsedMs.None?;
      } else {
        assert ReplayedRun(events, runId) == replayed && RunOf(events, runId) == kept;
      }
      hide ReplayedRun, RunOf, Replayed;
    }
  }

  lemma LastDecides<T>(a: seq<T>, x: T, b: seq<T>, y: T)
    requires |a| == |b|
    ensures a + [x] == b + [y] <==> a == b && x == y
  {
    AppendSplit(a, x);
    AppendSplit(b, y);
  }

  /** Replayed runs are the runs of the backup exactly when no event carries an elapsed time. */
  lemma ReproducedIffUntimed(events: seq<StoredEvent>, log: Log)
    requires LogHolds(events, log)
    ensures Reproduced(events, log) <==> Untimed(events)
  {
    hide ReplayedRun, RunOf;
    if Reproduced(events, log) {
      forall e | e in events ensures e.event.elapsedMs.None? {
        RunIsKeptIff(events, e.event.runId);
        assert EventsOf(log, e.event.runId) == ReplayedRun(events, e.event.runId);
      }
    }
    if Untimed(events) {
      forall runId ensures EventsOf(log, runId) == RunOf(events, runId) {
        RunIsKeptIff(events, runId);
      }
    }
  }

  /** The store accepts the next event of a list that is in sequence. */
  lemma NextIsAccepted(events: seq<StoredEvent>, tenantId: string, log: Log, e: StoredEvent)
    requires Sound(log) && LogHolds(events, log) && NextInLine(events, e)
    requires e.event.tenantId == tenantId && forall x :: x in events ==> x.event.tenantId == tenantId
    ensures Accepts(EventsOf(log, e.event.runId), Replayed(e).event, Some(e.sequence))
    ensures e.sequence == |EventsOf(log, e.event.runId)| + 1
  {
    var run := e.event.runId;
    var stored := EventsOf(log, run);
    ReplayedRunExact(events, run);
    assert stored == ReplayedRun(events, run);
    assert RunSound(log, run);
    hide ReplayedRun, Sound, RunSound;
    if e.sequence > 1 {
      var x :| x in events && Follows(x, e);
      assert Replayed(x) in stored;
      var i :| 0 <= i < |stored| && stored[i] == Replayed(x);
      assert StoredGapFree(log, run, i);
    }
    forall y | y in stored
      ensures y.event.tenantId == tenantId && y.event.eventKey != e.event.eventKey && y.sequence != e.sequence
    {
      var x :| x in events && x.event.runId == run && y == Replayed(x);
      assert !Clashes(x, e);
    }
    forall i | 0 <= i < |stored| ensures stored[i].sequence != e.sequence {
      assert stored[i] in stored;
    }
    assert StoredGapFree(log, run, e.sequence - 1);
  }

  ghost predicate StoredGapFree(log: Log, run: string, i: int) {
    0 <= i < |EventsOf(log, run)| ==> EventsOf(log, run)[i].sequence == i + 1
  }

  lemma AppendHolds(events: seq<StoredEvent>, log: Log, e: StoredEvent)
    requires LogHolds(events, log) && e.sequence == |EventsOf(log, e.event.runId)| + 1
    ensures LogHolds(events + [e], Appended(log, Replayed(e).event))
  {
    var after := Appended(log, Replayed(e).event);
    forall runId ensures EventsOf(after, runId) == ReplayedRun(events + [e], runId) {
      assert EventsOf(log, runId) == ReplayedRun(events, runId);
      AppendSplit(events, e);
    }
  }

  /** Replaying a valid event list always succeeds and reproduces every run up to elapsed times, and unchanged
      exactly when there are none. */
  method RestoreEvents(events: seq<StoredEvent>, ghost tenantId: string) returns (store: InMemoryRunEventStore)
    requires EventsValid(tenantId, events)
    ensures fresh(store) && Sound(store.State()) && LogHolds(events, store.State())
    ensures Reproduced(events, store.State()) <==> Untimed(events)
  {
    store := new InMemoryRunEventStore();
    NothingReplayed();
    hide Sound, LogHolds, NextInLine, ReplayedRun, ContainsForbiddenKey, Reproduced, Untimed;
    for k := 0 to |events|
      invariant fresh(store) && Sound(store.State()) && LogHolds(events[..k], store.State())
    {
      var e := events[k];
      assert NextInLine(events[..k], e);
      NextIsAccepted(events[..k], tenantId, store.State(), e);
      AppendHolds(events[..k], store.State(), e);
      TakeMore(events, k);
      var r := store.Append(e.event.(elapsedMs := None), Some(e.sequence));
      assert r.Ok?;
    }
    TakeAll(events);
    ReproducedIffUntimed(events, store.State());
  }

  lemma NothingReplayed()
    ensures LogHolds([], EMPTY_LOG)
  {
  }

  // ----- the whole restore ----------------------------------------------------------

  datatype RestoredState = RestoredState(
    backupId: Digest,
    tenantId: string,
    workflows: seq<Workflows.Workflow>,
    evidenceBundles: seq<Guard.EvidenceBundle>,
    lineage: L.InMemoryArtifactLineage,
    events: InMemoryRunEventStore)

  method RestoreControlPlaneBackup(b: Backup, text: DigestText) returns (r: Result<RestoredState, BackupError>)
    ensures r.Ok? <==> Verifiable(b, text) && DistinctContent(b.content.artifacts)
    ensures r.Err? && !Verifiable(b, text) ==>
      if ContentValid(b.content) then r.error == DigestMismatch else ContentFault(b.content, r.error)
    ensures r.Err? && Verifiable(b, text) ==>
      r.error.PublishRefused? && RepeatsContent(ById(b.content.artifacts), b.content.tenantId, r.error.cause)
    ensures r.Ok? ==>
      && r.value.backupId == b.backupId && r.value.tenantId == b.content.tenantId
      && multiset(r.value.workflows) == multiset(b.content.workflows)
      && multiset(r.value.evidenceBundles) == multiset(b.content.evidenceBundles)
    ensures r.Ok? ==> L.Sound(r.value.lineage.State()) && Restored(ById(b.content.artifacts), r.value.lineage.State())
    ensures r.Ok? ==>
      var events, log := Normalize(b.content, text).events, r.value.events.State();
      Sound(log) && LogHolds(events, log) && (Reproduced(events, log) <==> Untimed(b.content.events))
  {
    hide RepeatsContent, Unorderable, ContentFault, ContentValid, Normalize, Restored, Replayable, DistinctContent;
    hide LogHolds, Sound, L.Sound, Reproduced, Untimed;
    var verified := VerifyControlPlaneBackup(b, text);
    if verified.Err? {
      return Err(verified.error);
    }
    var c := verified.value.content;
    NormalFormFacts(b.content, text);
    var artifacts := RestoreArtifacts(ById(c.artifacts), c.tenantId);
    if artifacts.Err? {
      return Err(artifacts.error);
    }
    var events := RestoreEvents(c.events, c.tenantId);
    return Ok(RestoredState(verified.value.backupId, c.tenantId, c.workflows, c.evidenceBundles, artifacts.value,
      events));
  }

  lemma NormalFormFacts(c: Content, text: DigestText)
    requires ContentValid(c)
    ensures var n := Normalize(c, text);
      && n.tenantId == c.tenantId
      && multiset(n.workflows) == multiset(c.workflows) && multiset(n.evidenceBundles) == multiset(c.evidenceBundles)
      && ById(n.artifacts) == ById(c.artifacts) && EventsValid(c.tenantId, n.events)
      && (Untimed(n.events) <==> Untimed(c.events))
      && (forall k :: k in ById(c.artifacts) ==>
        ById(c.artifacts)[k].artifactId == k && ById(c.artifacts)[k].tenantId == c.tenantId)
      && (Replayable(ById(c.artifacts)) <==> DistinctContent(c.artifacts)) && !Unorderable(ById(c.artifacts))
  {
    SortMultiset(c.workflows, WorkflowLe);
    SortMultiset(c.evidenceBundles, BundleLe(text));
    SortKeepsArtifacts(c.tenantId, c.artifacts);
    SortKeepsEvents(c.tenantId, c.events);
    SortMultiset(c.events, EventLe);
    ByIdHolds(c.artifacts);
    ValidIsReplayable(c.tenantId, c.artifacts);
    hide WorkflowsValid, EventsValid, BundlesValid, ById, Sort, Acyclic, ProvenanceGraph, Replayable, DistinctContent,
      DistinctIds, Unorderable;
  }

  /** For valid artifacts the only thing that can stand against a restore is repeated content. */
  lemma ValidIsReplayable(tenantId: string, artifacts: seq<ArtifactMetadata>)
    requires ArtifactsValid(tenantId, artifacts)
    ensures !Unorderable(ById(artifacts)) && (Replayable(ById(artifacts)) <==> DistinctContent(artifacts))
  {
    var all := ById(artifacts);
    ByIdHolds(artifacts);
    ByIdDistinct(artifacts);
    NeedsDescribeProvenance(artifacts);
    hide ById, Acyclic, RequirementGraph, ProvenanceGraph, ParentsAmong;
    if DistinctContent(artifacts) {
      assert ContentFree(all);
    }
    if ContentFree(all) {
      assert DistinctContent(artifacts);
    }
  }

  /** The check of a backup does not look for repeated content: this one verifies and cannot be restored. */
  lemma VerifiedMayNotRestore(text: DigestText) returns (b: Backup)
    ensures Verifiable(b, text) && !DistinctContent(b.content.artifacts)
  {
    var description := Description("text/plain", "note", "v1", "n", "v1", "w", "r", "main", 1, "mem:");
    var first := ArtifactMetadata("a", "t", "h", "2024-01-01", [], Internal, [], description);
    var second := first.(artifactId := "b");
    var c := Content(SCHEMA_VERSION, "t", "2024-01-01", [], [], [first, second], []);
    b := Backup(c, DigestOf(Normalize(c, text)));
    hide Normalize;
    assert ProvenanceGraph(c.artifacts) == {};
    RankedIsAcyclic({}, x => 0);
    assert first in c.artifacts && second in c.artifacts;
  }

  /** A backup that restores and loses something: its one event carries an elapsed time. */
  lemma ElapsedTimeIsLost(text: DigestText) returns (b: Backup)
    ensures Verifiable(b, text) && DistinctContent(b.content.artifacts)
    ensures !Untimed(b.content.events)
    ensures forall log :: LogHolds(b.content.events, log) ==> !Reproduced(b.content.events, log)
  {
    var e := StoredEvent(RunEvent("t", "r", "k", "done", "2024-01-01", Some(1.0), Json.Null), 1);
    var c := Content(SCHEMA_VERSION, "t", "2024-01-01", [], [e], [], []);
    b := Backup(c, DigestOf(Normalize(c, text)));
    assert e in c.events;
    hide Normalize, LogHolds, Reproduced;
    assert ProvenanceGraph(c.artifacts) == {};
    RankedIsAcyclic({}, x => 0);
    assert NextInLine(c.events[..0], c.events[0]);
    forall log | LogHolds(c.events, log) ensures !Reproduced(c.events, log) {
      ReproducedIffUntimed(c.events, log);
    }
  }
}

/** What a control-plane backup holds, how it is normalised, and when it is valid. */
module BackupContent {
  import opened Graphs
  import opened Ordering
  import opened Outcomes
  import opened Artifacts
  import opened RunEvents
  import opened EventHistories
  import opened ProvenanceCheck
  import GateEvaluation
  import Guard
  import MultiPass
  import Json
  import Workflows
  import Validation
  import Lineage

  const SCHEMA_VERSION := "awf/control-plane-backup/v1"

  datatype Content = Content(
    schemaVersion: string,
    tenantId: string,
    createdAt: string,
    workflows: seq<Workflows.Workflow>,
    events: seq<StoredEvent>,
    artifacts: seq<ArtifactMetadata>,
    evidenceBundles: seq<Guard.EvidenceBundle>)

  /** The text of a bundle digest, by which a backup orders its bundles. */
  type DigestText = Guard.Digest -> string

  datatype BackupError =
    | UnsupportedSchema(version: string)
    | TenantRequired
    | InvalidWorkflow(id: string)
    | DuplicateWorkflow(id: string, version: string)
    | CrossesTenant(what: string)
    | DuplicateArtifact(artifactId: Id)
    | MissingParent(artifactId: Id, parentId: Id)
    | ProvenanceCycle(artifactIds: seq<Id>)
    | ForbiddenField(eventKey: string)
    | SequenceGap(runId: string, expected: int, actual: int)
    | DuplicateEvent(runId: string, eventKey: string)
    | EvidenceCrossesTenant(bundleId: Guard.Digest)
    | BrokenEvidence(flaw: GateEvaluation.IntegrityError)
    | DuplicateBundle(bundleId: Guard.Digest)
    | MissingEvidence(bundleId: Guard.Digest, artifactId: Id)
    | DigestMismatch
    | PublishRefused(cause: Lineage.LineageError)
    | AppendRefused(reason: EventError)

  // ----- normal form ----------------------------------------------------------------

  predicate WorkflowLe(a: Workflows.Workflow, b: Workflows.Workflow) {
    if a.id == b.id then StrLe(a.version, b.version) else StrLe(a.id, b.id)
  }

  predicate ArtifactLe(a: ArtifactMetadata, b: ArtifactMetadata) {
    StrLe(a.artifactId, b.artifactId)
  }

  function BundleLe(text: DigestText): (Guard.EvidenceBundle, Guard.EvidenceBundle) -> bool {
    (a: Guard.EvidenceBundle, b: Guard.EvidenceBundle) => StrLe(text(a.bundleId), text(b.bundleId))
  }

  function Normalize(c: Content, text: DigestText): Content {
    c.(schemaVersion := SCHEMA_VERSION,
       workflows := Sort(c.workflows, WorkflowLe),
       events := Sort(c.events, EventLe),
       artifacts := Sort(c.artifacts, ArtifactLe),
       evidenceBundles := Sort(c.evidenceBundles, BundleLe(text)))
  }

  lemma WorkflowLeIsTotalPreorder()
    ensures TotalPreorder(WorkflowLe)
  {
    forall a, b ensures WorkflowLe(a, b) || WorkflowLe(b, a) {
      StrLeTotal(a.id, b.id);
      StrLeTotal(a.version, b.version);
    }
    forall a: Workflows.Workflow, b: Workflows.Workflow, c: Workflows.Workflow | WorkflowLe(a, b) && WorkflowLe(b, c)
      ensures WorkflowLe(a, c)
    {
      if a.id == b.id == c.id {
        StrLeTransitive(a.version, b.version, c.version);
      } else if a.id != b.id && b.id != c.id {
        StrLeTransitive(a.id, b.id, c.id);
        if a.id == c.id {
          StrLeAntisymmetric(a.id, b.id);
        }
      }
    }
  }

  lemma ArtifactLeIsTotalPreorder()
    ensures TotalPreorder(ArtifactLe)
  {
    forall a, b ensures ArtifactLe(a, b) || ArtifactLe(b, a) {
      StrLeTotal(a.artifactId, b.artifactId);
    }
    forall a: ArtifactMetadata, b: ArtifactMetadata, c: ArtifactMetadata | ArtifactLe(a, b) && ArtifactLe(b, c)
      ensures ArtifactLe(a, c)
    {
      StrLeTransitive(a.artifactId, b.artifactId, c.artifactId);
    }
  }

  lemma BundleLeIsTotalPreorder(text: DigestText)
    ensures TotalPreorder(BundleLe(text))
  {
    var le := BundleLe(text);
    forall a, b ensures le(a, b) || le(b, a) {
      StrLeTotal(text(a.bundleId), text(b.bundleId));
    }
    forall a, b, c | le(a, b) && le(b, c) ensures le(a, c) {
      StrLeTransitive(text(a.bundleId), text(b.bundleId), text(c.bundleId));
    }
  }

  lemma SortTwice<T(!new)>(xs: seq<T>, le: (T, T) -> bool)
    requires TotalPreorder(le)
    ensures Sort(Sort(xs, le), le) == Sort(xs, le)
  {
    SortSorted(xs, le);
    SortIdempotent(Sort(xs, le), le);
  }

  /** A normal form is its own normal form. */
  lemma NormalizeIsIdempotent(c: Content, text: DigestText)
    ensures Normalize(Normalize(c, text), text) == Normalize(c, text)
  {
    WorkflowLeIsTotalPreorder();
    EventLeIsTotalPreorder();
    ArtifactLeIsTotalPreorder();
    BundleLeIsTotalPreorder(text);
    hide WorkflowLe, EventLe, ArtifactLe, BundleLe, TotalPreorder, Sort;
    SortTwice(c.workflows, WorkflowLe);
    SortTwice(c.events, EventLe);
    SortTwice(c.artifacts, ArtifactLe);
    SortTwice(c.evidenceBundles, BundleLe(text));
  }

  // ----- validity -------------------------------------------------------------------

  const FORBIDDEN_KEYS := {"apikey", "authorization", "cookie", "password", "secret", "token"}

  function LowerCase(s: string): string {
    seq(|s|, i requires 0 <= i < |s| => if 'A' <= s[i] <= 'Z' then (s[i] as int + 32) as char else s[i])
  }

  predicate ContainsForbiddenKey(value: Json.Json) {
    match value
    case Arr(items) => exists i :: 0 <= i < |items| && ContainsForbiddenKey(items[i])
    case Obj(fields) => exists k :: k in fields && (LowerCase(k) in FORBIDDEN_KEYS || ContainsForbiddenKey(fields[k]))
    case _ => false
  }

  ghost predicate WorkflowsValid(workflows: seq<Workflows.Workflow>) {
    && (forall w :: w in workflows ==> Workflows.Valid(w))
    && forall i, j :: 0 <= i < j < |workflows| ==>
      !(workflows[i].id == workflows[j].id && workflows[i].version == workflows[j].version)
  }

  ghost predicate ArtifactsValid(tenantId: string, artifacts: seq<ArtifactMetadata>) {
    && (forall a :: a in artifacts ==> a.tenantId == tenantId)
    && DistinctIds(artifacts)
    && (forall a, p :: a in artifacts && p in a.provenance ==> p.inputArtifactId in ById(artifacts))
    && Acyclic(ProvenanceGraph(artifacts))
  }

  ghost predicate EventsValid(tenantId: string, events: seq<StoredEvent>) {
    && (forall e :: e in events ==> e.event.tenantId == tenantId && !ContainsForbiddenKey(e.event.payload))
    && InSequence(events)
  }

  ghost predicate BundleValid(tenantId: string, ids: set<Id>, b: Guard.EvidenceBundle) {
    && b.content.tenantId == tenantId && Guard.Intact(b) && b.content.productArtifactId in ids
    && forall e :: e in b.content.result.evidence ==> e.artifactId in ids
  }

  ghost predicate BundlesValid(tenantId: string, ids: set<Id>, bundles: seq<Guard.EvidenceBundle>) {
    && (forall b :: b in bundles ==> BundleValid(tenantId, ids, b))
    && forall i, j :: 0 <= i < j < |bundles| ==> bundles[i].bundleId != bundles[j].bundleId
  }

  ghost predicate ContentValid(c: Content) {
    && c.schemaVersion == SCHEMA_VERSION && c.tenantId != ""
    && WorkflowsValid(c.workflows)
    && ArtifactsValid(c.tenantId, c.artifacts)
    && EventsValid(c.tenantId, c.events)
    && BundlesValid(c.tenantId, ById(c.artifacts).Keys, c.evidenceBundles)
  }

  // ----- what a refusal names -------------------------------------------------------

  ghost predicate WorkflowFault(workflows: seq<Workflows.Workflow>, error: BackupError) {
    match error
    case InvalidWorkflow(id) => exists w :: w in workflows && w.id == id && !Workflows.Valid(w)
    case DuplicateWorkflow(id, version) =>
      exists i, j :: 0 <= i < j < |workflows| && workflows[i].id == id == workflows[j].id
        && workflows[i].version == version == workflows[j].version
    case _ => false
  }

  ghost predicate ArtifactFault(tenantId: string, artifacts: seq<ArtifactMetadata>, error: BackupError) {
    match error
    case CrossesTenant(id) => exists a :: a in artifacts && a.artifactId == id && a.tenantId != tenantId
    case DuplicateArtifact(id) =>
      exists i, j :: 0 <= i < j < |artifacts| && artifacts[i].artifactId == id == artifacts[j].artifactId
    case MissingParent(id, parent) =>
      parent !in ById(artifacts)
      && exists a, p :: a in artifacts && a.artifactId == id && p in a.provenance && p.inputArtifactId == parent
    case ProvenanceCycle(ids) =>
      ids != [] && Elements(ids) <= ById(artifacts).Keys && !Acyclic(ProvenanceGraph(artifacts))
    case _ => false
  }

  /** The k-th event has another number than the one after those its run has used. */
  ghost predicate GapAt(events: seq<StoredEvent>, runId: string, expected: int, actual: int, k: int) {
    && 0 <= k < |events| && events[k].event.runId == runId && events[k].sequence == actual
    && forall number :: Occupied(events[..k], runId, number) <==> 1 <= number < expected
  }

  ghost predicate EventFault(tenantId: string, events: seq<StoredEvent>, error: BackupError) {
    match error
    case CrossesTenant(key) => exists e :: e in events && e.event.eventKey == key && e.event.tenantId != tenantId
    case ForbiddenField(key) =>
      exists e :: e in events && e.event.eventKey == key && ContainsForbiddenKey(e.event.payload)
    case SequenceGap(runId, expected, actual) =>
      actual != expected && exists k :: GapAt(events, runId, expected, actual, k)
    case DuplicateEvent(runId, key) =>
      exists i, j :: 0 <= i < j < |events| && events[i].event.runId == runId == events[j].event.runId
        && events[i].event.eventKey == key == events[j].event.eventKey
    case _ => false
  }

  ghost predicate RefersTo(b: Guard.BundleContent, artifactId: Id) {
    b.productArtifactId == artifactId || exists e :: e in b.result.evidence && e.artifactId == artifactId
  }

  ghost predicate BundleFault(tenantId: string, ids: set<Id>, bundles: seq<Guard.EvidenceBundle>, error: BackupError) {
    match error
    case EvidenceCrossesTenant(id) => exists b :: b in bundles && b.bundleId == id && b.content.tenantId != tenantId
    case BrokenEvidence(flaw) => exists b :: b in bundles && GateEvaluation.Flawed(b, flaw)
    case DuplicateBundle(id) =>
      exists i, j :: 0 <= i < j < |bundles| && bundles[i].bundleId == id == bundles[j].bundleId
    case MissingEvidence(id, artifactId) =>
      artifactId !in ids && exists b :: b in bundles && b.bundleId == id && RefersTo(b.content, artifactId)
    case _ => false
  }

  /** The refusal of a backup names something that is wrong with the first part that is not valid. */
  ghost predicate ContentFault(c: Content, error: BackupError) {
    if c.schemaVersion != SCHEMA_VERSION then error == UnsupportedSchema(c.schemaVersion)
    else if c.tenantId == "" then error == TenantRequired
    else if !WorkflowsValid(c.workflows) then WorkflowFault(c.workflows, error)
    else if !ArtifactsValid(c.tenantId, c.artifacts) then ArtifactFault(c.tenantId, c.artifacts, error)
    else if !EventsValid(c.tenantId, c.events) then EventFault(c.tenantId, c.events, error)
    else BundleFault(c.tenantId, ById(c.artifacts).Keys, c.evidenceBundles, error)
  }

  // ----- checking -------------------------------------------------------------------

  method CheckWorkflows(workflows: seq<Workflows.Workflow>) returns (error: Option<BackupError>)
    ensures error == None <==> WorkflowsValid(workflows)
    ensures error.Some? ==> WorkflowFault(workflows, error.value)
  {
    hide Workflows.Valid;
    var keys: set<(string, string)> := {};
    for k := 0 to |workflows|
      invariant WorkflowsValid(workflows[..k])
      invariant forall key :: key in keys <==> exists i :: 0 <= i < k && key == (workflows[i].id, workflows[i].version)
    {
      var w := workflows[k];
      TakeMore(workflows, k);
      var ok, _ := Validation.ValidateWorkflow(w);
      if !ok {
        return Some(InvalidWorkflow(w.id));
      }
      if (w.id, w.version) in keys {
        return Some(DuplicateWorkflow(w.id, w.version));
      }
      keys := keys + {(w.id, w.version)};
    }
    TakeAll(workflows);
    return None;
  }

  method CheckArtifactIds(tenantId: string, artifacts: seq<ArtifactMetadata>) returns (error: Option<BackupError>)
    ensures error == None <==> (forall a :: a in artifacts ==> a.tenantId == tenantId) && DistinctIds(artifacts)
    ensures error.Some? ==> ArtifactFault(tenantId, artifacts, error.value)
  {
    var ids: set<Id> := {};
    for k := 0 to |artifacts|
      invariant forall i :: 0 <= i < k ==> artifacts[i].tenantId == tenantId
      invariant DistinctIds(artifacts[..k])
      invariant forall id :: id in ids <==> exists i :: 0 <= i < k && id == artifacts[i].artifactId
    {
      var a := artifacts[k];
      TakeMore(artifacts, k);
      if a.tenantId != tenantId {
        return Some(CrossesTenant(a.artifactId));
      }
      if a.artifactId in ids {
        return Some(DuplicateArtifact(a.artifactId));
      }
      ids := ids + {a.artifactId};
    }
    TakeAll(artifacts);
    return None;
  }

  method CheckParents(tenantId: string, artifacts: seq<ArtifactMetadata>) returns (error: Option<BackupError>)
    ensures error == None <==>
      forall a, p :: a in artifacts && p in a.provenance ==> p.inputArtifactId in ById(artifacts)
    ensures error.Some? ==> ArtifactFault(tenantId, artifacts, error.value)
  {
    var byId := ById(artifacts);
    for k := 0 to |artifacts|
      invariant forall a, p :: a in artifacts[..k] && p in a.provenance ==> p.inputArtifactId in byId
    {
      var a := artifacts[k];
      TakeMore(artifacts, k);
      for j := 0 to |a.provenance|
        invariant forall p :: p in a.provenance[..j] ==> p.inputArtifactId in byId
      {
        TakeMore(a.provenance, j);
        if a.provenance[j].inputArtifactId !in byId {
          return Some(MissingParent(a.artifactId, a.provenance[j].inputArtifactId));
        }
      }
      TakeAll(a.provenance);
    }
    TakeAll(artifacts);
    return None;
  }

  method CheckArtifacts(tenantId: string, artifacts: seq<ArtifactMetadata>) returns (error: Option<BackupError>)
    ensures error == None <==> ArtifactsValid(tenantId, artifacts)
    ensures error.Some? ==> ArtifactFault(tenantId, artifacts, error.value)
  {
    error := CheckArtifactIds(tenantId, artifacts);
    if error.Some? {
      return;
    }
    hide DistinctIds, Acyclic, ProvenanceGraph, ById, MultiPass.RequirementGraph;
    error := CheckParents(tenantId, artifacts);
    if error.Some? {
      return;
    }
    NeedsDescribeProvenance(artifacts);
    hide ParentsAmong;
    var cycle := AssertProvenanceDag(ParentNeeds(artifacts));
    if cycle.Some? {
      return Some(ProvenanceCycle(cycle.value));
    }
    return None;
  }

  method CheckEvents(tenantId: string, events: seq<StoredEvent>) returns (error: Option<BackupError>)
    ensures error == None <==> EventsValid(tenantId, events)
    ensures error.Some? ==> EventFault(tenantId, events, error.value)
  {
    var c := Counters(map[], map[]);
    hide NextInLine, ContainsForbiddenKey, Counted, InSequence, Occupied;
    NothingCounted();
    for k := 0 to |events|
      invariant forall i :: 0 <= i < k ==>
        events[i].event.tenantId == tenantId && !ContainsForbiddenKey(events[i].event.payload)
      invariant InSequence(events[..k]) && Counted(events[..k], c)
    {
      var e := events[k];
      var expected := NextOf(c, e.event.runId);
      InSequenceExtends(events, k);
      CountedDecides(events[..k], c, e);
      if e.event.tenantId != tenantId {
        return Some(CrossesTenant(e.event.eventKey));
      }
      if ContainsForbiddenKey(e.event.payload) {
        return Some(ForbiddenField(e.event.eventKey));
      }
      NotInLine(events, k);
      if e.sequence != expected {
        assert GapAt(events, e.event.runId, expected, e.sequence, k) by {
          UsedNumbers(events[..k], c, e.event.runId);
        }
        return Some(SequenceGap(e.event.runId, expected, e.sequence));
      }
      if e.event.eventKey in KeysOf(c, e.event.runId) {
        ghost var i := KeyWasUsed(events[..k], c, e.event.runId, e.event.eventKey);
        assert events[..k][i] == events[i];
        return Some(DuplicateEvent(e.event.runId, e.event.eventKey));
      }
      CountKeepsCounted(events[..k], c, e);
      TakeMore(events, k);
      c := Count(c, e);
    }
    TakeAll(events);
    return None;
  }

  lemma UsedNumbers(xs: seq<StoredEvent>, c: Counters, runId: string)
    requires Counted(xs, c)
    ensures forall number :: Occupied(xs, runId, number) <==> 1 <= number < NextOf(c, runId)
  {
  }

  lemma KeyWasUsed(xs: seq<StoredEvent>, c: Counters, runId: string, key: string) returns (i: nat)
    requires Counted(xs, c) && key in KeysOf(c, runId)
    ensures i < |xs| && xs[i].event.runId == runId && xs[i].event.eventKey == key
  {
    assert KeyUsed(xs, runId, key);
    i :| i < |xs| && xs[i].event.runId == runId && xs[i].event.eventKey == key;
  }

  lemma NothingCounted()
    ensures Counted([], Counters(map[], map[])) && InSequence([])
  {
  }

  lemma NotInLine(events: seq<StoredEvent>, k: nat)
    requires k < |events|
    ensures !NextInLine(events[..k], events[k]) ==> !InSequence(events)
  {
  }

  function ArtifactIds(evidence: seq<Guard.EvidenceItem>): seq<Id> {
    seq(|evidence|, i requires 0 <= i < |evidence| => evidence[i].artifactId)
  }

  method CheckReferences(ids: set<Id>, b: Guard.BundleContent) returns (missing: Option<Id>)
    ensures missing == None <==>
      b.productArtifactId in ids && forall e :: e in b.result.evidence ==> e.artifactId in ids
    ensures missing.Some? ==> missing.value !in ids && RefersTo(b, missing.value)
  {
    var evidence := b.result.evidence;
    var referenced := [b.productArtifactId] + ArtifactIds(evidence);
    for j := 0 to |referenced|
      invariant forall i :: 0 <= i < j ==> referenced[i] in ids
    {
      if referenced[j] !in ids {
        assert j > 0 ==> evidence[j - 1] in evidence && evidence[j - 1].artifactId == referenced[j];
        return Some(referenced[j]);
      }
    }
    assert referenced[0] in ids;
    forall e | e in evidence ensures e.artifactId in ids {
      var i :| 0 <= i < |evidence| && evidence[i] == e;
      assert referenced[i + 1] == e.artifactId;
    }
    return None;
  }

  method CheckBundles(tenantId: string, ids: set<Id>, bundles: seq<Guard.EvidenceBundle>)
    returns (error: Option<BackupError>)
    ensures error == None <==> BundlesValid(tenantId, ids, bundles)
    ensures error.Some? ==> BundleFault(tenantId, ids, bundles, error.value)
  {
    hide Guard.Intact;
    var bundleIds: set<Guard.Digest> := {};
    for k := 0 to |bundles|
      invariant forall i :: 0 <= i < k ==> BundleValid(tenantId, ids, bundles[i])
      invariant forall i, j :: 0 <= i < j < k ==> bundles[i].bundleId != bundles[j].bundleId
      invariant forall id :: id in bundleIds <==> exists i :: 0 <= i < k && id == bundles[i].bundleId
    {
      var b := bundles[k];
      assert b in bundles;
      if b.content.tenantId != tenantId {
        return Some(EvidenceCrossesTenant(b.bundleId));
      }
      hide GateEvaluation.Flawed;
      var broken := GateEvaluation.VerifyEvidenceBundleIntegrity(b);
      if broken.Some? {
        return Some(BrokenEvidence(broken.value));
      }
      if b.bundleId in bundleIds {
        return Some(DuplicateBundle(b.bundleId));
      }
      bundleIds := bundleIds + {b.bundleId};
      var missing := CheckReferences(ids, b.content);
      if missing.Some? {
        return Some(MissingEvidence(b.bundleId, missing.value));
      }
    }
    return None;
  }

  method ValidateContent(c: Content) returns (error: Option<BackupError>)
    ensures error == None <==> ContentValid(c)
    ensures error.Some? ==> ContentFault(c, error.value)
  {
    hide WorkflowFault, ArtifactFault, EventFault, BundleFault;
    hide WorkflowsValid, ArtifactsValid, EventsValid, BundlesValid, ById;
    if c.schemaVersion != SCHEMA_VERSION {
      return Some(UnsupportedSchema(c.schemaVersion));
    }
    if c.tenantId == "" {
      return Some(TenantRequired);
    }
    error := CheckWorkflows(c.workflows);
    if error.Some? {
      return;
    }
    error := CheckArtifacts(c.tenantId, c.artifacts);
    if error.Some? {
      return;
    }
    error := CheckEvents(c.tenantId, c.events);
    if error.Some? {
      return;
    }
    error := CheckBundles(c.tenantId, ById(c.artifacts).Keys, c.evidenceBundles);
  }
}

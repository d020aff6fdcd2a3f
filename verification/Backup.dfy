/** Creating, verifying and restoring control-plane backups. */
module Backup {
  import opened Graphs
  import opened Ordering
  import opened Outcomes
  import opened Artifacts
  import opened BackupContent
  import Guard
  import RunEvents
  import EventHistories
  import Workflows

  /** A digest is represented by what it digests. */
  datatype Digest = DigestOf(content: Content)

  datatype Backup = Backup(content: Content, backupId: Digest)

  function Sealed(c: Content): Backup {
    Backup(c, DigestOf(c))
  }

  ghost predicate Creatable(input: Content, text: DigestText) {
    ContentValid(Normalize(input, text))
  }

  ghost predicate Verifiable(b: Backup, text: DigestText) {
    ContentValid(b.content) && b.backupId == DigestOf(Normalize(b.content, text))
  }

  method CreateControlPlaneBackup(input: Content, text: DigestText) returns (r: Result<Backup, BackupError>)
    ensures r.Ok? <==> Creatable(input, text)
    ensures r.Ok? ==> r.value == Sealed(Normalize(input, text))
    ensures r.Err? ==> ContentFault(Normalize(input, text), r.error)
  {
    var content := Normalize(input, text);
    hide Normalize, ContentValid, ContentFault;
    var error := ValidateContent(content);
    if error.Some? {
      return Err(error.value);
    }
    return Ok(Sealed(content));
  }

  method VerifyControlPlaneBackup(b: Backup, text: DigestText) returns (r: Result<Backup, BackupError>)
    ensures r.Ok? <==> Verifiable(b, text)
    ensures r.Ok? ==> r.value == Sealed(Normalize(b.content, text))
    ensures r.Err? ==> if ContentValid(b.content) then r.error == DigestMismatch else ContentFault(b.content, r.error)
  {
    hide ContentValid, ContentFault;
    var error := ValidateContent(b.content);
    if error.Some? {
      return Err(error.value);
    }
    var content := Normalize(b.content, text);
    hide Normalize;
    if b.backupId != DigestOf(content) {
      return Err(DigestMismatch);
    }
    return Ok(Sealed(content));
  }

  // ----- creating and verifying agree -----------------------------------------------

  /** Verifying a created backup succeeds and returns it unchanged. */
  lemma CreatedIsVerified(input: Content, text: DigestText)
    requires Creatable(input, text)
    ensures var b := Sealed(Normalize(input, text)); Verifiable(b, text) && Sealed(Normalize(b.content, text)) == b
  {
    NormalizeIsIdempotent(input, text);
  }

  /** Conversely, what verification returns could have been created, whatever order the lists came in;
      so verification is idempotent. */
  lemma VerifiedIsCreatable(b: Backup, text: DigestText)
    requires Verifiable(b, text)
    ensures Creatable(b.content, text) && Verifiable(Sealed(Normalize(b.content, text)), text)
  {
    NormalizeKeepsValid(b.content, text);
    NormalizeIsIdempotent(b.content, text);
  }

  lemma NormalizeKeepsValid(c: Content, text: DigestText)
    requires ContentValid(c)
    ensures ContentValid(Normalize(c, text))
  {
    SortKeepsWorkflows(c.workflows);
    SortKeepsArtifacts(c.tenantId, c.artifacts);
    SortKeepsEvents(c.tenantId, c.events);
    SortKeepsBundles(c.tenantId, ById(c.artifacts).Keys, text, c.evidenceBundles);
    hide WorkflowsValid, ArtifactsValid, EventsValid, BundlesValid, ById, Sort;
  }

  /** Elements that differ in a key stay different when rearranged. */
  lemma DistinctBy<T, K>(xs: seq<T>, ys: seq<T>, key: T -> K)
    requires multiset(xs) == multiset(ys) && forall i, j :: 0 <= i < j < |xs| ==> key(xs[i]) != key(xs[j])
    ensures forall i, j :: 0 <= i < j < |ys| ==> key(ys[i]) != key(ys[j])
  {
    DistinctPermutation(xs, ys);
    forall i, j | 0 <= i < j < |ys| ensures key(ys[i]) != key(ys[j]) {
      assert ys[i] in multiset(xs) && ys[j] in multiset(xs);
      var a :| 0 <= a < |xs| && xs[a] == ys[i];
      var b :| 0 <= b < |xs| && xs[b] == ys[j];
    }
  }

  lemma SortKeepsWorkflows(workflows: seq<Workflows.Workflow>)
    requires WorkflowsValid(workflows)
    ensures WorkflowsValid(Sort(workflows, WorkflowLe))
  {
    SortMultiset(workflows, WorkflowLe);
    hide Workflows.Valid, WorkflowLe, Sort;
    DistinctBy(workflows, Sort(workflows, WorkflowLe), (w: Workflows.Workflow) => (w.id, w.version));
  }

  lemma SortKeepsArtifacts(tenantId: string, artifacts: seq<ArtifactMetadata>)
    requires ArtifactsValid(tenantId, artifacts)
    ensures ArtifactsValid(tenantId, Sort(artifacts, ArtifactLe))
    ensures ById(Sort(artifacts, ArtifactLe)) == ById(artifacts)
  {
    var sorted := Sort(artifacts, ArtifactLe);
    SortMultiset(artifacts, ArtifactLe);
    DistinctBy(artifacts, sorted, (a: ArtifactMetadata) => a.artifactId);
    SameById(artifacts, sorted);
    SameProvenance(artifacts, sorted);
    hide ById, Acyclic, ProvenanceGraph, Sort;
  }

  lemma SameById(a: seq<ArtifactMetadata>, b: seq<ArtifactMetadata>)
    requires DistinctIds(a) && DistinctIds(b) && forall x :: x in a <==> x in b
    ensures ById(a) == ById(b)
  {
    ByIdHolds(a);
    ByIdHolds(b);
    ByIdDistinct(a);
    ByIdDistinct(b);
    hide ById;
    forall k ensures k in ById(a) <==> k in ById(b) {
      if k in ById(a) {
        assert ById(a)[k] in b;
      }
      if k in ById(b) {
        assert ById(b)[k] in a;
      }
    }
  }

  lemma SameProvenance(a: seq<ArtifactMetadata>, b: seq<ArtifactMetadata>)
    requires forall x :: x in a <==> x in b
    ensures ProvenanceGraph(a) == ProvenanceGraph(b)
  {
  }

  lemma SortKeepsEvents(tenantId: string, events: seq<RunEvents.StoredEvent>)
    requires EventsValid(tenantId, events)
    ensures EventsValid(tenantId, Sort(events, EventHistories.EventLe))
  {
    SortMultiset(events, EventHistories.EventLe);
    EventHistories.SortKeepsSequence(events);
    hide ContainsForbiddenKey, EventHistories.InSequence, Sort;
  }

  lemma SortKeepsBundles(tenantId: string, ids: set<Id>, text: DigestText, bundles: seq<Guard.EvidenceBundle>)
    requires BundlesValid(tenantId, ids, bundles)
    ensures BundlesValid(tenantId, ids, Sort(bundles, BundleLe(text)))
  {
    SortMultiset(bundles, BundleLe(text));
    hide BundleValid, Sort;
    DistinctBy(bundles, Sort(bundles, BundleLe(text)), (b: Guard.EvidenceBundle) => b.bundleId);
  }
}

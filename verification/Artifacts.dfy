/** Artifact metadata as the lineage store, backups and retention share it. */
module Artifacts {
  import opened Graphs
  import opened Ordering

  datatype Sensitivity = PublicData | Internal | Confidential | Restricted

  datatype EdgeType = Read | Derived | Validated | Supersedes

  datatype Provenance = Provenance(inputArtifactId: Id, edgeType: EdgeType)

  /** The fields no operation looks at. */
  datatype Description = Description(
    mediaType: string,
    semanticType: string,
    schemaVersion: string,
    producerNodeId: string,
    producerNodeVersion: string,
    workflowVersionId: string,
    runId: string,
    branchId: string,
    sizeBytes: int,
    storageUri: string)

  datatype ArtifactMetadata = ArtifactMetadata(
    artifactId: Id,
    tenantId: string,
    contentHash: string,
    createdAt: string,
    scopeTags: seq<string>,
    sensitivity: Sensitivity,
    provenance: seq<Provenance>,
    description: Description)

  function EdgeTypeName(t: EdgeType): string {
    match t
    case Read => "read"
    case Derived => "derived"
    case Validated => "validated"
    case Supersedes => "supersedes"
  }

  predicate ProvenanceLe(a: Provenance, b: Provenance) {
    if a.inputArtifactId == b.inputArtifactId then StrLe(EdgeTypeName(a.edgeType), EdgeTypeName(b.edgeType))
    else StrLe(a.inputArtifactId, b.inputArtifactId)
  }

  /** What is stored for an artifact: its tags and its provenance in a fixed order. */
  function Snapshot(m: ArtifactMetadata): ArtifactMetadata {
    m.(scopeTags := Sort(m.scopeTags, StrLe), provenance := Sort(m.provenance, ProvenanceLe))
  }

  function ParentIds(m: ArtifactMetadata): set<Id> {
    set p | p in m.provenance :: p.inputArtifactId
  }

  lemma SnapshotKeepsProvenance(m: ArtifactMetadata)
    ensures multiset(Snapshot(m).provenance) == multiset(m.provenance)
    ensures multiset(Snapshot(m).scopeTags) == multiset(m.scopeTags)
    ensures forall p :: p in Snapshot(m).provenance <==> p in m.provenance
    ensures ParentIds(Snapshot(m)) == ParentIds(m)
    ensures Snapshot(m).artifactId == m.artifactId && Snapshot(m).tenantId == m.tenantId
    ensures Snapshot(m).contentHash == m.contentHash
  {
    SortMultiset(m.provenance, ProvenanceLe);
    SortMultiset(m.scopeTags, StrLe);
  }

  /** Only tags and provenance are rearranged: tags ascend, provenance ascends by parent and then by type. */
  lemma SnapshotAscends(m: ArtifactMetadata, i: nat, j: nat)
    ensures Snapshot(m).(scopeTags := m.scopeTags, provenance := m.provenance) == m
    ensures i < j < |Snapshot(m).scopeTags| ==> StrLe(Snapshot(m).scopeTags[i], Snapshot(m).scopeTags[j])
    ensures i < j < |Snapshot(m).provenance| ==>
      var a, b := Snapshot(m).provenance[i], Snapshot(m).provenance[j];
      && StrLe(a.inputArtifactId, b.inputArtifactId)
      && (a.inputArtifactId == b.inputArtifactId ==> StrLe(EdgeTypeName(a.edgeType), EdgeTypeName(b.edgeType)))
  {
    StrLeIsTotalPreorder();
    ProvenanceLeIsTotalPreorder();
    SortSorted(m.scopeTags, StrLe);
    SortSorted(m.provenance, ProvenanceLe);
    hide Sort, StrLe;
    StrLeIsTotalPreorder();
  }

  lemma ProvenanceLeIsTotalPreorder()
    ensures TotalPreorder(ProvenanceLe)
  {
    hide StrLe, EdgeTypeName;
    StrLeIsTotalPreorder();
    forall a, b, c | ProvenanceLe(a, b) && ProvenanceLe(b, c) ensures ProvenanceLe(a, c) {
      var x, y := a.inputArtifactId, b.inputArtifactId;
      if x == c.inputArtifactId && StrLe(x, y) && StrLe(y, x) {
        StrLeAntisymmetric(x, y);
      }
    }
  }

  // ----- lookups --------------------------------------------------------------------

  /** A later artifact with the same id replaces an earlier one. */
  function ById(artifacts: seq<ArtifactMetadata>): map<Id, ArtifactMetadata> {
    if artifacts == [] then map[]
    else
      var last := artifacts[|artifacts| - 1];
      ById(artifacts[..|artifacts| - 1])[last.artifactId := last]
  }

  lemma {:induction false} ByIdHolds(artifacts: seq<ArtifactMetadata>)
    ensures forall k :: k in ById(artifacts) ==> ById(artifacts)[k] in artifacts && ById(artifacts)[k].artifactId == k
    ensures forall a :: a in artifacts ==> a.artifactId in ById(artifacts)
  {
    if artifacts != [] {
      ByIdHolds(artifacts[..|artifacts| - 1]);
      SplitLast(artifacts);
    }
  }

  ghost predicate DistinctIds(artifacts: seq<ArtifactMetadata>) {
    forall i, j :: 0 <= i < j < |artifacts| ==> artifacts[i].artifactId != artifacts[j].artifactId
  }

  lemma {:induction false} ByIdDistinct(artifacts: seq<ArtifactMetadata>)
    requires DistinctIds(artifacts)
    ensures forall a :: a in artifacts ==> a.artifactId in ById(artifacts) && ById(artifacts)[a.artifactId] == a
  {
    if artifacts != [] {
      ByIdDistinct(artifacts[..|artifacts| - 1]);
      SplitLast(artifacts);
    }
  }

  /** From parents to the artifacts derived from them. */
  ghost function ProvenanceGraph(artifacts: seq<ArtifactMetadata>): Graph {
    set a, p | a in artifacts && p in a.provenance :: (p.inputArtifactId, a.artifactId)
  }

  lemma ProvenanceEdge(artifacts: seq<ArtifactMetadata>, parent: Id, child: Id)
    ensures (parent, child) in ProvenanceGraph(artifacts) <==>
      exists a :: a in artifacts && a.artifactId == child && parent in ParentIds(a)
  {
    if (parent, child) in ProvenanceGraph(artifacts) {
      var a, p :| a in artifacts && p in a.provenance && (p.inputArtifactId, a.artifactId) == (parent, child);
      assert parent in ParentIds(a);
    }
  }
}

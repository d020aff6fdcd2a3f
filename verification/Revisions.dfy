/** Revision states of a workflow, what each node can see of one, and what the nodes compute. */
module Revisions {
  import opened Graphs
  import opened Outcomes
  import opened Workflows
  import opened Scheduling
  import Json

  datatype Profile = Profile(
    promptTemplateDigest: Option<string>,
    modelDigest: Option<string>,
    toolSchemaDigest: string,
    environmentImageDigest: string,
    policyVersion: string,
    verifierPolicyDigest: string,
    workspaceBaseTreeHash: string)

  datatype RevisionState = RevisionState(
    workflow: Workflow,
    inputArtifactHashes: map<string, string>,
    contractDigests: map<string, string>,
    contractConsumers: map<string, seq<Id>>,
    executionProfiles: map<Id, Profile>)

  // ----- what a node can see ------------------------------------------------------

  datatype Header = Header(
    id: string,
    apiVersion: string,
    version: string,
    mode: Mode,
    scopePolicy: Json.Json,
    verifierDefinitions: Json.Json,
    releasePolicy: Json.Json)

  /** Everything the execution of a node may depend on besides its input values. */
  datatype LocalView = LocalView(
    node: Node,
    profile: Option<Profile>,
    contracts: map<string, string>,
    incoming: set<Edge>,
    inputPorts: map<string, Option<Port>>,
    schemas: map<SchemaKey, Option<Json.Json>>,
    header: Header)

  function HeaderOf(w: Workflow): Header {
    Header(w.id, w.apiVersion, w.version, w.mode, w.scopePolicy, w.verifierDefinitions, w.releasePolicy)
  }

  function IncomingOf(w: Workflow, id: Id): set<Edge> {
    set e | e in w.edges && Feeds(e, id)
  }

  /** The workflow inputs wired into a node. */
  function InputPortsOf(w: Workflow, id: Id): set<string> {
    set e | e in IncomingOf(w, id) && e.source.WorkflowInput? :: e.source.port
  }

  /** A later schema with the same type and version replaces an earlier one. */
  function SchemaOf(schemas: seq<ArtifactSchema>, key: SchemaKey): Option<Json.Json> {
    if schemas == [] then None
    else
      var last := schemas[|schemas| - 1];
      if SchemaKey(last.typ, last.schemaVersion) == key then Some(last.schema)
      else SchemaOf(schemas[..|schemas| - 1], key)
  }

  /** The artifact schemas named by the ports of a node. */
  function PortRefs(n: Node): set<SchemaKey> {
    (set p | p in n.inputs :: PortKey(n.inputs[p])) + (set p | p in n.outputs :: PortKey(n.outputs[p]))
  }

  function ConsumersOf(s: RevisionState, contractId: string): seq<Id> {
    if contractId in s.contractConsumers then s.contractConsumers[contractId] else []
  }

  function ContractsOf(s: RevisionState, id: Id): map<string, string> {
    map k | k in s.contractDigests && id in ConsumersOf(s, k) :: s.contractDigests[k]
  }

  function ViewOf(s: RevisionState, id: Id): LocalView
    requires id in NodesById(s.workflow.nodes)
  {
    var n := NodesById(s.workflow.nodes)[id];
    LocalView(
      n,
      Find(s.executionProfiles, id),
      ContractsOf(s, id),
      IncomingOf(s.workflow, id),
      map p | p in InputPortsOf(s.workflow, id) :: Find(s.workflow.inputs, p),
      map k | k in PortRefs(n) :: SchemaOf(s.workflow.artifactSchemas, k),
      HeaderOf(s.workflow))
  }

  // ----- what the nodes compute ---------------------------------------------------

  /** What an edge delivers: a pinned input artifact, or a port of the value of another node. */
  datatype Input<V> = Pinned(hash: Option<string>) | Produced(value: V, port: string)

  /** What one edge delivers, given the values of the upstream nodes. */
  function Deliver<V>(hashes: map<string, string>, values: map<Id, V>, e: Edge): Input<V> {
    match e.source
    case WorkflowInput(port) => Pinned(Find(hashes, port))
    case NodeOutput(m, port) => if m in values then Produced(values[m], port) else Pinned(None)
  }

  /** What all edges into a node deliver. */
  function Deliveries<V>(s: RevisionState, values: map<Id, V>, id: Id): map<Edge, Input<V>> {
    map e | e in IncomingOf(s.workflow, id) :: Deliver(s.inputArtifactHashes, values, e)
  }

  /** A from-scratch run: `f` is any function of a node's view and of what its edges deliver. */
  ghost function Evaluate<V>(s: RevisionState, f: (LocalView, map<Edge, Input<V>>) -> V, id: Id): V
    requires Valid(s.workflow) && id in NodeIds(s.workflow)
    decreases Rank(Dependencies(s.workflow), id)
  {
    UpstreamIsLower(s.workflow, id);
    NodesByIdKeys(s.workflow.nodes);
    f(ViewOf(s, id), Deliveries(s, map m | m in UpstreamOf(s.workflow, id) :: Evaluate(s, f, m), id))
  }

  // ----- patches ------------------------------------------------------------------

  /** A patch entry replaces a value, or deletes it when it is `None`. */
  function Patched<T>(base: map<string, T>, patch: map<string, Option<T>>): map<string, T> {
    map k | k in base.Keys + patch.Keys && (if k in patch then patch[k].Some? else true) ::
      if k in patch then patch[k].value else base[k]
  }

  /** The loop over the patch entries. */
  method PatchMap<T>(base: map<string, T>, patch: map<string, Option<T>>) returns (r: map<string, T>)
    ensures r == Patched(base, patch)
  {
    r := base;
    var pending := patch.Keys;
    while pending != {}
      invariant pending <= patch.Keys
      invariant forall k :: k in pending || k !in patch ==> (k in r <==> k in base) && (k in base ==> r[k] == base[k])
      invariant forall k :: k in patch && k !in pending ==>
        (k in r <==> patch[k].Some?) && (k in r ==> r[k] == patch[k].value)
    {
      var k :| k in pending;
      pending := pending - {k};
      match patch[k] {
        case None => r := r - {k};
        case Some(v) => r := r[k := v];
      }
    }
  }

  datatype RevisionPatch = RevisionPatch(
    workflow: Option<Workflow>,
    inputArtifactHashes: map<string, Option<string>>,
    contractDigests: map<string, Option<string>>,
    contractConsumers: map<string, Option<seq<Id>>>,
    executionProfiles: map<Id, Option<Profile>>)

  function ApplyPatch(parent: RevisionState, patch: RevisionPatch): RevisionState {
    RevisionState(
      if patch.workflow.Some? then patch.workflow.value else parent.workflow,
      Patched(parent.inputArtifactHashes, patch.inputArtifactHashes),
      Patched(parent.contractDigests, patch.contractDigests),
      Patched(parent.contractConsumers, patch.contractConsumers),
      Patched(parent.executionProfiles, patch.executionProfiles))
  }
}

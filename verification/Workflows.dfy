/** The workflow intermediate representation and what makes a workflow well formed. */
module Workflows {
  import opened Graphs
  import opened Ordering
  import opened Outcomes
  import opened PathPatterns
  import Json

  datatype Visibility = PublicPort | HiddenPort

  datatype Port = Port(typ: string, schemaVersion: string, visibility: Visibility)

  datatype SchemaKey = SchemaKey(typ: string, schemaVersion: string)

  datatype NodeKind =
    | Deterministic | Llm | Tool | Subworkflow | MapOver | Reduce | Judge
    | Approval | Wait | SideEffect | Loop

  datatype Budget = Budget(maxAttempts: nat, maxCostUsd: Option<real>)

  /** A node; `details` holds the fields no modelled component looks into. */
  datatype Node = Node(
    id: Id,
    kind: NodeKind,
    inputs: map<string, Port>,
    outputs: map<string, Port>,
    readPatterns: seq<string>,
    writePatterns: seq<string>,
    budget: Budget,
    maxRounds: Option<nat>,
    operation: Option<string>,
    details: Json.Json)

  datatype Source = WorkflowInput(port: string) | NodeOutput(nodeId: Id, port: string)

  datatype Target = NodeInput(nodeId: Id, port: string) | WorkflowOutput(port: string)

  datatype Edge = Edge(source: Source, target: Target, condition: Option<string>)

  datatype ArtifactSchema = ArtifactSchema(typ: string, schemaVersion: string, schema: Json.Json)

  datatype Mode = DIRECT | CONTRACT | EXPLORER

  datatype Workflow = Workflow(
    apiVersion: string,
    id: string,
    version: string,
    mode: Mode,
    artifactSchemas: seq<ArtifactSchema>,
    inputs: map<string, Port>,
    outputs: map<string, Port>,
    verifierDefinitions: Json.Json,
    scopePolicy: Json.Json,
    releasePolicy: Json.Json,
    nodes: seq<Node>,
    edges: seq<Edge>)

  function PortKey(p: Port): SchemaKey {
    SchemaKey(p.typ, p.schemaVersion)
  }

  // ----- lookups ----------------------------------------------------------------

  function IdsOf(nodes: seq<Node>): (ids: seq<Id>)
    ensures |ids| == |nodes| && forall i :: 0 <= i < |nodes| ==> ids[i] == nodes[i].id
  {
    seq(|nodes|, i requires 0 <= i < |nodes| => nodes[i].id)
  }

  function NodeIds(w: Workflow): set<Id> {
    Elements(IdsOf(w.nodes))
  }

  /** A later node with the same id replaces an earlier one. */
  function NodesById(nodes: seq<Node>): map<Id, Node> {
    if nodes == [] then map[]
    else
      var last := nodes[|nodes| - 1];
      NodesById(nodes[..|nodes| - 1])[last.id := last]
  }

  lemma {:induction false} NodesByIdKeys(nodes: seq<Node>)
    ensures NodesById(nodes).Keys == Elements(IdsOf(nodes))
    ensures forall id :: id in NodesById(nodes) ==> NodesById(nodes)[id] in nodes && NodesById(nodes)[id].id == id
  {
    if nodes != [] {
      var front := nodes[..|nodes| - 1];
      NodesByIdKeys(front);
      assert IdsOf(nodes) == IdsOf(front) + [nodes[|nodes| - 1].id];
    }
  }

  /** The last node with an id, which is the one the id stands for. */
  ghost predicate StandsAt(nodes: seq<Node>, id: Id, k: int) {
    0 <= k < |nodes| && nodes[k].id == id && forall j :: k < j < |nodes| ==> nodes[j].id != id
  }

  lemma LastStands(nodes: seq<Node>, id: Id)
    ensures id in NodesById(nodes) <==> exists k :: StandsAt(nodes, id, k)
    ensures forall k :: StandsAt(nodes, id, k) ==> NodesById(nodes)[id] == nodes[k]
  {
    forall k | StandsAt(nodes, id, k) ensures id in NodesById(nodes) && NodesById(nodes)[id] == nodes[k] {
      StandingIsFound(nodes, id, k);
    }
    if id in NodesById(nodes) {
      var k := FoundStands(nodes, id);
    }
  }

  lemma {:induction false} StandingIsFound(nodes: seq<Node>, id: Id, k: int)
    requires StandsAt(nodes, id, k)
    ensures id in NodesById(nodes) && NodesById(nodes)[id] == nodes[k]
    decreases |nodes|
  {
    if k < |nodes| - 1 {
      StandingIsFound(nodes[..|nodes| - 1], id, k);
    }
  }

  lemma {:induction false} FoundStands(nodes: seq<Node>, id: Id) returns (k: int)
    requires id in NodesById(nodes)
    ensures StandsAt(nodes, id, k)
    decreases |nodes|
  {
    k := |nodes| - 1;
    if nodes[k].id != id {
      var n := k;
      k := FoundStands(nodes[..n], id);
    }
  }

  ghost predicate UniqueIds(w: Workflow) {
    Distinct(IdsOf(w.nodes))
  }

  lemma {:induction false} NodesByIdUnique(nodes: seq<Node>, n: Node)
    requires Distinct(IdsOf(nodes)) && n in nodes
    ensures n.id in NodesById(nodes) && NodesById(nodes)[n.id] == n
  {
    NodesByIdKeys(nodes);
    var i :| 0 <= i < |nodes| && nodes[i] == n;
    assert IdsOf(nodes)[i] == n.id;
    var m := NodesById(nodes)[n.id];
    var j :| 0 <= j < |nodes| && nodes[j] == m;
    assert IdsOf(nodes)[j] == n.id;
  }

  function Find<V>(m: map<string, V>, k: string): Option<V> {
    if k in m then Some(m[k]) else None
  }

  function SourcePort(w: Workflow, s: Source): Option<Port> {
    match s
    case WorkflowInput(port) => Find(w.inputs, port)
    case NodeOutput(nodeId, port) =>
      var nodes := NodesById(w.nodes);
      if nodeId in nodes then Find(nodes[nodeId].outputs, port) else None
  }

  function TargetPort(w: Workflow, t: Target): Option<Port> {
    match t
    case WorkflowOutput(port) => Find(w.outputs, port)
    case NodeInput(nodeId, port) =>
      var nodes := NodesById(w.nodes);
      if nodeId in nodes then Find(nodes[nodeId].inputs, port) else None
  }

  // ----- the dependency graph ---------------------------------------------------

  predicate IsDependency(e: Edge) {
    e.source.NodeOutput? && e.target.NodeInput?
  }

  function DependencyOf(e: Edge): (Id, Id)
    requires IsDependency(e)
  {
    (e.source.nodeId, e.target.nodeId)
  }

  /** Node `b` depends on node `a` when some edge carries an output of `a` into `b`. */
  function Dependencies(w: Workflow): Graph {
    set e | e in w.edges && IsDependency(e) :: DependencyOf(e)
  }

  // ----- well-formedness --------------------------------------------------------

  predicate Known(w: Workflow, e: Edge) {
    SourcePort(w, e.source).Some? && TargetPort(w, e.target).Some?
  }

  predicate WellTyped(w: Workflow, e: Edge) {
    Known(w, e) && PortKey(SourcePort(w, e.source).value) == PortKey(TargetPort(w, e.target).value)
  }

  /** Exactly one edge feeds `t`. */
  ghost predicate OneProducer(w: Workflow, t: Target) {
    exists i :: 0 <= i < |w.edges| && w.edges[i].target == t
      && forall j :: 0 <= j < |w.edges| && w.edges[j].target == t ==> j == i
  }

  ghost predicate WellWired(w: Workflow) {
    && (forall e :: e in w.edges ==> WellTyped(w, e))
    && (forall n, p :: n in w.nodes && p in n.inputs ==> OneProducer(w, NodeInput(n.id, p)))
    && (forall p :: p in w.outputs ==> OneProducer(w, WorkflowOutput(p)))
  }

  ghost predicate Ordered(g: Graph, a: Id, b: Id) {
    Precedes(g, a, b) || Precedes(g, b, a)
  }

  /** Nodes whose write patterns share a concrete path are ordered by dependencies. */
  ghost predicate WritesOrdered(w: Workflow) {
    forall a, b, p, q ::
      a in w.nodes && b in w.nodes && a.id != b.id && p in a.writePatterns && q in b.writePatterns && SharePath(p, q)
      ==> Ordered(Dependencies(w), a.id, b.id)
  }

  /** Nodes fed directly by a workflow input. */
  function EntryNodes(w: Workflow): set<Id> {
    set e | e in w.edges && e.source.WorkflowInput? && e.target.NodeInput? :: e.target.nodeId
  }

  /** Every output that comes from a node comes from a node reachable from the inputs. */
  ghost predicate OutputsReachable(w: Workflow) {
    forall e :: e in w.edges && e.source.NodeOutput? && e.target.WorkflowOutput? && e.target.port in w.outputs
      ==> e.source.nodeId in Closure(Dependencies(w), EntryNodes(w))
  }

  ghost predicate Valid(w: Workflow) {
    && UniqueIds(w)
    && WellWired(w)
    && Acyclic(Dependencies(w))
    && WritesOrdered(w)
    && OutputsReachable(w)
  }
}

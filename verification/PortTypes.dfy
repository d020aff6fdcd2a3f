/** What acceptance says about the ports an edge joins, and which type mismatches are reported. */
module PortTypes {
  import opened Graphs
  import opened Ordering
  import opened Outcomes
  import opened Workflows
  import opened Revisions
  import opened RevisionDiff
  import opened Validation

  /** The port an edge comes from. */
  ghost predicate ComesFrom(w: Workflow, s: Source, p: Port) {
    match s
    case WorkflowInput(port) => port in w.inputs && w.inputs[port] == p
    case NodeOutput(id, port) =>
      exists k :: StandsAt(w.nodes, id, k) && port in w.nodes[k].outputs && w.nodes[k].outputs[port] == p
  }

  /** The port an edge leads to. */
  ghost predicate LeadsTo(w: Workflow, t: Target, p: Port) {
    match t
    case WorkflowOutput(port) => port in w.outputs && w.outputs[port] == p
    case NodeInput(id, port) =>
      exists k :: StandsAt(w.nodes, id, k) && port in w.nodes[k].inputs && w.nodes[k].inputs[port] == p
  }

  lemma SourcePortIs(w: Workflow, s: Source, p: Port)
    ensures SourcePort(w, s) == Some(p) <==> ComesFrom(w, s, p)
  {
    if s.NodeOutput? {
      LastStands(w.nodes, s.nodeId);
      hide NodesById;
    }
  }

  lemma TargetPortIs(w: Workflow, t: Target, p: Port)
    ensures TargetPort(w, t) == Some(p) <==> LeadsTo(w, t, p)
  {
    if t.NodeInput? {
      LastStands(w.nodes, t.nodeId);
      hide NodesById;
    }
  }

  /** The edge joins two declared ports. */
  ghost predicate Joins(w: Workflow, e: Edge, p: Port, q: Port) {
    ComesFrom(w, e.source, p) && LeadsTo(w, e.target, q)
  }

  lemma KnownJoins(w: Workflow, e: Edge)
    ensures Known(w, e) <==> exists p, q :: Joins(w, e, p, q)
    ensures forall p, q :: Joins(w, e, p, q) ==>
      (WellTyped(w, e) <==> p.typ == q.typ && p.schemaVersion == q.schemaVersion)
  {
    hide SourcePort, TargetPort, ComesFrom, LeadsTo;
    if Known(w, e) {
      var p, q := SourcePort(w, e.source).value, TargetPort(w, e.target).value;
      SourcePortIs(w, e.source, p);
      TargetPortIs(w, e.target, q);
      assert Joins(w, e, p, q);
    }
    forall p, q | Joins(w, e, p, q)
      ensures Known(w, e) && (WellTyped(w, e) <==> p.typ == q.typ && p.schemaVersion == q.schemaVersion)
    {
      SourcePortIs(w, e.source, p);
      TargetPortIs(w, e.target, q);
    }
  }

  /** In an accepted workflow every edge joins two ports of one type and one schema version. */
  lemma AcceptedEdgesAgree(w: Workflow, e: Edge) returns (p: Port, q: Port)
    requires Valid(w) && e in w.edges
    ensures Joins(w, e, p, q) && p.typ == q.typ && p.schemaVersion == q.schemaVersion
  {
    assert WellTyped(w, e);
    KnownJoins(w, e);
    hide Valid, WellTyped, Known, Joins;
    p, q :| Joins(w, e, p, q);
  }

  /** A mismatch is reported exactly where the joined ports differ in type or in schema version. */
  lemma MismatchIff(w: Workflow, i: nat)
    ensures Fault(w, PortTypeMismatch(i)) <==>
      i < |w.edges|
      && exists p, q :: Joins(w, w.edges[i], p, q) && (p.typ != q.typ || p.schemaVersion != q.schemaVersion)
  {
    if i < |w.edges| {
      KnownJoins(w, w.edges[i]);
      hide WellTyped, Known, Joins;
      if Fault(w, PortTypeMismatch(i)) {
        var p, q :| Joins(w, w.edges[i], p, q);
      }
    }
  }

  /** An unknown endpoint is reported exactly where an edge joins no two declared ports. */
  lemma UnknownIff(w: Workflow, i: nat)
    ensures Fault(w, UnknownEndpoint(i)) <==> i < |w.edges| && forall p, q :: !Joins(w, w.edges[i], p, q)
  {
    if i < |w.edges| {
      KnownJoins(w, w.edges[i]);
    }
  }

  /** The nodes counted as reachable: those some known dependencies lead to from a node a workflow input feeds. */
  lemma ReachableMeans(w: Workflow, n: Id)
    ensures n in Reachable(w) <==>
      exists e :: e in w.edges && e.source.WorkflowInput? && e.target.NodeInput?
        && Reaches(KnownDependencies(w), e.target.nodeId, n)
  {
    hide Reaches, KnownDependencies;
    var g := KnownDependencies(w);
    if n in Reachable(w) {
      var a :| a in EntryNodes(w) && Reaches(g, a, n);
      var e :| e in w.edges && e.source.WorkflowInput? && e.target.NodeInput? && e.target.nodeId == a;
    }
    if e :| e in w.edges && e.source.WorkflowInput? && e.target.NodeInput? && Reaches(g, e.target.nodeId, n) {
      assert e.target.nodeId in EntryNodes(w);
      ReachedIsTarget(g, e.target.nodeId, n);
    }
  }

  lemma ReachedIsTarget(g: Graph, a: Id, n: Id)
    requires Reaches(g, a, n)
    ensures n == a || n in Targets(g)
  {
    if n != a {
      ReachesSplit(g, a, n);
      var c := LastEdge(g, a, n);
    }
  }

  /** The edge joins an output of node `m` to an input of node `n`. */
  ghost predicate Connects(w: Workflow, e: Edge, m: Id, n: Id) {
    && e in w.edges && e.source.NodeOutput? && e.target.NodeInput?
    && e.source.nodeId == m && e.target.nodeId == n
    && exists p, q :: Joins(w, e, p, q)
  }

  /** The dependencies the checks follow are those of edges that join two declared ports. */
  lemma KnownDependencyMeans(w: Workflow, m: Id, n: Id)
    ensures (m, n) in KnownDependencies(w) <==> exists e :: Connects(w, e, m, n)
  {
    hide Known, Joins;
    if (m, n) in KnownDependencies(w) {
      var e :| e in w.edges && Known(w, e) && IsDependency(e) && DependencyOf(e) == (m, n);
      KnownJoins(w, e);
      assert Connects(w, e, m, n);
    }
    if e :| Connects(w, e, m, n) {
      KnownJoins(w, e);
      assert DependencyOf(e) == (m, n);
    }
  }
}

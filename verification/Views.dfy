/** What the view of a node shows: two revisions look the same to a node exactly when all it may depend on agrees. */
module Views {
  import opened Graphs
  import opened Ordering
  import opened Outcomes
  import opened Workflows
  import opened Scheduling
  import opened Revisions
  import opened ChangeReasons
  import Json

  ghost predicate SameDefinition(p: Workflow, c: Workflow, n: Id) {
    exists i, j :: StandsAt(p.nodes, n, i) && StandsAt(c.nodes, n, j) && p.nodes[i] == c.nodes[j]
  }

  ghost predicate ConsumesAs(s: RevisionState, k: string, n: Id, digest: string) {
    Consumes(s, k, n) && k in s.contractDigests && s.contractDigests[k] == digest
  }

  /** The contracts a node consumes have the same digests. */
  ghost predicate SameContracts(p: RevisionState, c: RevisionState, n: Id) {
    forall k, digest :: ConsumesAs(p, k, n, digest) <==> ConsumesAs(c, k, n, digest)
  }

  ghost predicate SameEdges(p: Workflow, c: Workflow, n: Id) {
    forall e: Edge :: e.target.NodeInput? && e.target.nodeId == n ==> (e in p.edges <==> e in c.edges)
  }

  /** The workflow inputs wired into the node are declared alike. */
  ghost predicate SamePorts(p: Workflow, c: Workflow, n: Id) {
    forall port :: InputFeeds(c, port, n) ==> !Differ(p.inputs, c.inputs, port)
  }

  ghost predicate SameSchemas(p: Workflow, c: Workflow, n: Id) {
    forall k, typ, version ::
      StandsAt(c.nodes, n, k) && HasPortOf(c.nodes[k], typ, version) ==> !SchemaDiffers(p, c, typ, version)
  }

  ghost predicate SameHeader(p: Workflow, c: Workflow) {
    && p.id == c.id && p.apiVersion == c.apiVersion && p.version == c.version && p.mode == c.mode
    && p.scopePolicy == c.scopePolicy && p.verifierDefinitions == c.verifierDefinitions
    && p.releasePolicy == c.releasePolicy
  }

  ghost predicate SeesSame(p: RevisionState, c: RevisionState, n: Id) {
    && SameDefinition(p.workflow, c.workflow, n) && !Differ(p.executionProfiles, c.executionProfiles, n)
    && SameContracts(p, c, n) && SameEdges(p.workflow, c.workflow, n) && SamePorts(p.workflow, c.workflow, n)
    && SameSchemas(p.workflow, c.workflow, n) && SameHeader(p.workflow, c.workflow)
  }

  // ----- part by part ---------------------------------------------------------------

  lemma DefinitionAgrees(p: Workflow, c: Workflow, n: Id)
    requires n in NodesById(p.nodes) && n in NodesById(c.nodes)
    ensures NodesById(p.nodes)[n] == NodesById(c.nodes)[n] <==> SameDefinition(p, c, n)
  {
    LastStands(p.nodes, n);
    LastStands(c.nodes, n);
    hide NodesById, StandsAt;
  }

  lemma ContractsAgree(p: RevisionState, c: RevisionState, n: Id)
    ensures ContractsOf(p, n) == ContractsOf(c, n) <==> SameContracts(p, c, n)
  {
    forall k, digest
      ensures ConsumesAs(p, k, n, digest) <==> k in ContractsOf(p, n) && ContractsOf(p, n)[k] == digest
      ensures ConsumesAs(c, k, n, digest) <==> k in ContractsOf(c, n) && ContractsOf(c, n)[k] == digest
    {
    }
    hide ContractsOf, ConsumesAs;
    if SameContracts(p, c, n) {
      forall k
        ensures k in ContractsOf(p, n) <==> k in ContractsOf(c, n)
        ensures k in ContractsOf(p, n) ==> ContractsOf(p, n)[k] == ContractsOf(c, n)[k]
      {
        if k in ContractsOf(p, n) {
          assert ConsumesAs(p, k, n, ContractsOf(p, n)[k]);
        }
        if k in ContractsOf(c, n) {
          assert ConsumesAs(c, k, n, ContractsOf(c, n)[k]);
        }
      }
    }
  }

  lemma EdgesAgree(p: Workflow, c: Workflow, n: Id)
    ensures IncomingOf(p, n) == IncomingOf(c, n) <==> SameEdges(p, c, n)
  {
    if IncomingOf(p, n) == IncomingOf(c, n) {
      forall e: Edge | e.target.NodeInput? && e.target.nodeId == n ensures e in p.edges <==> e in c.edges {
        assert e in p.edges <==> e in IncomingOf(p, n);
        assert e in c.edges <==> e in IncomingOf(c, n);
      }
    }
  }

  function PortsSeen(w: Workflow, n: Id): map<string, Option<Port>> {
    map port | port in InputPortsOf(w, n) :: Find(w.inputs, port)
  }

  function SchemasSeen(w: Workflow, node: Node): map<SchemaKey, Option<Json.Json>> {
    map k | k in PortRefs(node) :: SchemaOf(w.artifactSchemas, k)
  }

  lemma PortsAgree(p: Workflow, c: Workflow, n: Id)
    requires IncomingOf(p, n) == IncomingOf(c, n)
    ensures PortsSeen(p, n) == PortsSeen(c, n) <==> SamePorts(p, c, n)
  {
    var a, b := PortsSeen(p, n), PortsSeen(c, n);
    assert a.Keys == b.Keys;
    forall port ensures port in b <==> InputFeeds(c, port, n) {
      if InputFeeds(c, port, n) {
        var e :| e in c.edges && e.source == WorkflowInput(port) && e.target.NodeInput? && e.target.nodeId == n;
        assert e in IncomingOf(c, n);
      }
    }
    forall port | port in b ensures a[port] == b[port] <==> !Differ(p.inputs, c.inputs, port) {
    }
    hide InputPortsOf, IncomingOf, InputFeeds, Differ;
    if a == b {
      forall port | InputFeeds(c, port, n) ensures !Differ(p.inputs, c.inputs, port) {
        assert port in b && a[port] == b[port];
      }
    }
  }

  lemma SchemasAgree(p: Workflow, c: Workflow, node: Node, n: Id)
    requires n in NodesById(c.nodes) && NodesById(c.nodes)[n] == node
    ensures SchemasSeen(p, node) == SchemasSeen(c, node) <==> SameSchemas(p, c, n)
  {
    var a, b := SchemasSeen(p, node), SchemasSeen(c, node);
    LastStands(c.nodes, n);
    forall typ, version
      ensures SchemaKey(typ, version) in b <==> HasPortOf(node, typ, version)
      ensures SchemaKey(typ, version) in b ==>
        (a[SchemaKey(typ, version)] == b[SchemaKey(typ, version)] <==> !SchemaDiffers(p, c, typ, version))
    {
      PortRefsAre(node, typ, version);
      SchemaTouchedIs(p, c, typ, version);
    }
    hide PortRefs, SchemaOf, HasPortOf, SchemaDiffers, NodesById, StandsAt;
    assert a.Keys == b.Keys;
    if SameSchemas(p, c, n) {
      var i :| StandsAt(c.nodes, n, i);
      forall k | k in b ensures a[k] == b[k] {
        assert k == SchemaKey(k.typ, k.schemaVersion);
        assert HasPortOf(c.nodes[i], k.typ, k.schemaVersion);
      }
    }
    if a == b {
      forall i, typ, version | StandsAt(c.nodes, n, i) && HasPortOf(c.nodes[i], typ, version)
        ensures !SchemaDiffers(p, c, typ, version)
      {
        assert SchemaKey(typ, version) in b;
      }
    }
  }

  // ----- the whole ------------------------------------------------------------------

  lemma ViewParts(s: RevisionState, n: Id)
    requires n in NodesById(s.workflow.nodes)
    ensures var view, node := ViewOf(s, n), NodesById(s.workflow.nodes)[n];
      && view.node == node && view.profile == Find(s.executionProfiles, n) && view.contracts == ContractsOf(s, n)
      && view.incoming == IncomingOf(s.workflow, n) && view.inputPorts == PortsSeen(s.workflow, n)
      && view.schemas == SchemasSeen(s.workflow, node) && view.header == HeaderOf(s.workflow)
  {
    hide NodesById, Find, ContractsOf, IncomingOf, InputPortsOf, PortRefs, SchemaOf, HeaderOf;
  }

  /** The views of a node agree exactly when definition, profile, consumed contracts, edges into it, declarations of
      the inputs wired into it, schemas of its ports and the fields of the workflow do. */
  lemma ViewsAgreeIff(p: RevisionState, c: RevisionState, n: Id)
    requires n in NodesById(p.workflow.nodes) && n in NodesById(c.workflow.nodes)
    ensures ViewOf(p, n) == ViewOf(c, n) <==> SeesSame(p, c, n)
  {
    assert Find(p.executionProfiles, n) == Find(c.executionProfiles, n) <==>
      !Differ(p.executionProfiles, c.executionProfiles, n);
    ViewParts(p, n);
    ViewParts(c, n);
    hide NodesById, ViewOf, ContractsOf, IncomingOf, PortsSeen, SchemasSeen, SameDefinition, SameContracts, SameEdges,
      SamePorts, SameSchemas, Differ, Find;
    DefinitionAgrees(p.workflow, c.workflow, n);
    ContractsAgree(p, c, n);
    EdgesAgree(p.workflow, c.workflow, n);
    SchemasAgree(p.workflow, c.workflow, NodesById(c.workflow.nodes)[n], n);
    if IncomingOf(p.workflow, n) == IncomingOf(c.workflow, n) {
      PortsAgree(p.workflow, c.workflow, n);
    }
  }

  /** What is delivered along each edge into a node: the pinned artifact of a workflow input, or that port of what
      the upstream node produced. */
  lemma DeliveriesMean<V>(s: RevisionState, values: map<Id, V>, n: Id, e: Edge)
    ensures e in Deliveries(s, values, n) <==> e in s.workflow.edges && e.target.NodeInput? && e.target.nodeId == n
    ensures e in Deliveries(s, values, n) ==>
      match e.source
      case WorkflowInput(port) =>
        if port in s.inputArtifactHashes
        then Deliveries(s, values, n)[e] == Pinned(Some(s.inputArtifactHashes[port]))
        else Deliveries(s, values, n)[e] == Pinned(None)
      case NodeOutput(m, port) => m in values ==> Deliveries(s, values, n)[e] == Produced(values[m], port)
  {
  }
}

/** Incremental recomputation is sound: what the impact analysis lets a run reuse is what a
    from-scratch run of the candidate would compute. */
module Incremental {
  import opened Graphs
  import opened Outcomes
  import opened Workflows
  import opened Scheduling
  import opened Revisions
  import opened RevisionDiff
  import opened Impact

  // ----- exactness of the impact analysis -------------------------------------------

  /** Some changed root or ill-declared reader reaches the node, the node itself included. */
  ghost predicate Touched(w: Workflow, roots: seq<ChangedRoot>, o: Options, n: Id) {
    exists m :: (KnownRoot(w, roots, m) || IllReader(w, o, m)) && Reaches(ImpactGraph(w), m, n)
  }

  /** An id that names no node was supplied, which forces everything. */
  ghost predicate UnknownSupplied(w: Workflow, o: Options) {
    exists m :: (m in o.observedReads || m in o.broadRegressionNodeIds) && m !in NodesById(w.nodes)
  }

  /** A node reruns exactly when a root or ill-declared reader reaches it, it is in the regression set,
      or an unknown id was supplied. */
  lemma RerunIff(w: Workflow, roots: seq<ChangedRoot>, o: Options, d: Decision)
    requires RightDecision(w, roots, o, d) && d.nodeId in NodesById(w.nodes)
    requires forall r :: r in roots ==> r.reasons != {}
    ensures d.action == Rerun <==>
      (Touched(w, roots, o, d.nodeId) || d.nodeId in o.broadRegressionNodeIds || UnknownSupplied(w, o))
  {
    hide NodesById, IllRead;
    var n := d.nodeId;
    ReachesSelf(ImpactGraph(w), n);
    if d.action == Rerun {
      var x :| x in d.reasons;
      assert Carries(w, roots, o, n, x);
      RerunHasCause(w, roots, o, n, x);
    }
    if Touched(w, roots, o, n) {
      var m :| (KnownRoot(w, roots, m) || IllReader(w, o, m)) && Reaches(ImpactGraph(w), m, n);
      if m != n {
        assert UpstreamInvalidated(m) in d.reasons;
      } else if KnownRoot(w, roots, m) {
        var r :| r in roots && r.nodeId == m;
        var x :| x in r.reasons;
        assert Changed(x) in d.reasons;
      } else {
        var read :| IllRead(w, o, m, read);
        assert UndeclaredRead(read) in d.reasons;
      }
    }
    if n in o.broadRegressionNodeIds {
      assert BroadRegression(n) in d.reasons;
    }
    if m :| (m in o.observedReads || m in o.broadRegressionNodeIds) && m !in NodesById(w.nodes) {
      assert UnknownObserved(m) in d.reasons || UnknownRegression(m) in d.reasons;
    }
  }

  lemma RerunHasCause(w: Workflow, roots: seq<ChangedRoot>, o: Options, n: Id, x: ImpactReason)
    requires Carries(w, roots, o, n, x) && n in NodesById(w.nodes)
    ensures Touched(w, roots, o, n) || n in o.broadRegressionNodeIds || UnknownSupplied(w, o)
  {
    hide NodesById;
    ReachesSelf(ImpactGraph(w), n);
    match x
    case Changed(reason) => assert KnownRoot(w, roots, n);
    case UpstreamInvalidated(m) => assert KnownRoot(w, roots, m) || IllReader(w, o, m);
    case UndeclaredRead(read) => assert IllReader(w, o, n);
    case UnknownObserved(m) =>
    case BroadRegression(m) =>
    case UnknownRegression(m) =>
  }

  /** The mandatory reruns are the same set without the closure of the ordinary roots. */
  lemma MandatoryIff(w: Workflow, roots: seq<ChangedRoot>, o: Options, d: Decision)
    requires RightDecision(w, roots, o, d) && d.nodeId in NodesById(w.nodes)
    ensures d.mandatoryRerun <==>
      (Touched(w, [], o, d.nodeId) || d.nodeId in o.broadRegressionNodeIds || UnknownSupplied(w, o))
    ensures d.mandatoryRerun ==> d.action == Rerun
  {
    hide NodesById, IllRead;
    var n := d.nodeId;
    ReachesSelf(ImpactGraph(w), n);
    assert forall m :: !KnownRoot(w, [], m);
    if d.mandatoryRerun {
      assert Mandatory(w, o, n);
      if m :| IllReader(w, o, m) && (m == n || Below(w, m, n)) {
        assert Reaches(ImpactGraph(w), m, n);
        if m == n {
          var read :| IllRead(w, o, m, read);
          assert UndeclaredRead(read) in d.reasons;
        } else {
          assert UpstreamInvalidated(m) in d.reasons;
        }
      }
      if n in o.broadRegressionNodeIds {
        assert BroadRegression(n) in d.reasons;
      }
      if m :| (m in o.observedReads || m in o.broadRegressionNodeIds) && m !in NodesById(w.nodes) {
        assert UnknownObserved(m) in d.reasons || UnknownRegression(m) in d.reasons;
      }
    }
  }

  // ----- nodes without a reason see the same ----------------------------------------

  ghost predicate Unchanged(p: RevisionState, c: RevisionState, n: Id) {
    n in NodesById(c.workflow.nodes) && forall x :: !Applies(p, c, n, x)
  }

  lemma SameNode(p: RevisionState, c: RevisionState, n: Id)
    requires Unchanged(p, c, n)
    ensures n in NodesById(p.workflow.nodes)
    ensures NodesById(p.workflow.nodes)[n] == NodesById(c.workflow.nodes)[n]
    ensures HeaderOf(p.workflow) == HeaderOf(c.workflow)
  {
    hide NodesById;
    assert !Applies(p, c, n, NodeAdded) && !Applies(p, c, n, NodeDefinitionChanged);
    assert !Applies(p, c, n, WorkflowIdentityChanged) && !Applies(p, c, n, WorkflowVersionChanged);
    assert !Applies(p, c, n, WorkflowPolicyChanged) && !Applies(p, c, n, WorkflowVerifierChanged);
  }

  lemma SameIncoming(p: RevisionState, c: RevisionState, n: Id)
    requires Unchanged(p, c, n)
    ensures IncomingOf(p.workflow, n) == IncomingOf(c.workflow, n)
    ensures forall e :: e in IncomingOf(c.workflow, n) && e.source.WorkflowInput? ==>
      Find(p.inputArtifactHashes, e.source.port) == Find(c.inputArtifactHashes, e.source.port)
      && Find(p.workflow.inputs, e.source.port) == Find(c.workflow.inputs, e.source.port)
  {
    hide NodesById;
    forall e | Feeds(e, n) ensures e in p.workflow.edges <==> e in c.workflow.edges {
      assert Into(e, n, e.target.port);
      assert !Applies(p, c, n, EdgeChanged(e.target.port));
    }
    forall e | e in IncomingOf(c.workflow, n) && e.source.WorkflowInput?
      ensures Find(p.inputArtifactHashes, e.source.port) == Find(c.inputArtifactHashes, e.source.port)
        && Find(p.workflow.inputs, e.source.port) == Find(c.workflow.inputs, e.source.port)
    {
      var port := e.source.port;
      assert n in InputConsumers(c.workflow, port);
      assert !Applies(p, c, n, InputArtifactChanged(port)) && !Applies(p, c, n, InputSchemaChanged(port));
    }
  }

  lemma SameProfile(p: RevisionState, c: RevisionState, n: Id)
    requires Unchanged(p, c, n)
    ensures Find(p.executionProfiles, n) == Find(c.executionProfiles, n)
  {
    hide NodesById;
    assert !Applies(p, c, n, ProfileRemoved);
    if n in c.executionProfiles {
      var before, after := Find(p.executionProfiles, n), c.executionProfiles[n];
      forall item: ProfileItem ensures !ItemDiffers(before, after, item) {
        assert !Applies(p, c, n, ProfileChanged(item));
      }
      NoItemDiffers(before, after);
    }
  }

  lemma NoItemDiffers(before: Option<Profile>, after: Profile)
    requires forall item: ProfileItem :: !ItemDiffers(before, after, item)
    ensures before == Some(after)
  {
    assert !ItemDiffers(before, after, PromptTemplate) && !ItemDiffers(before, after, ModelItem);
    assert !ItemDiffers(before, after, ToolSchema) && !ItemDiffers(before, after, EnvironmentImage);
    assert !ItemDiffers(before, after, PolicyItem) && !ItemDiffers(before, after, VerifierPolicy);
    assert !ItemDiffers(before, after, WorkspaceBase);
  }

  lemma SameContracts(p: RevisionState, c: RevisionState, n: Id)
    requires Unchanged(p, c, n)
    ensures ContractsOf(p, n) == ContractsOf(c, n)
  {
    hide NodesById;
    forall k ensures (k in ContractsOf(p, n) <==> k in ContractsOf(c, n))
      && (k in ContractsOf(p, n) ==> ContractsOf(p, n)[k] == ContractsOf(c, n)[k])
    {
      assert !Applies(p, c, n, ContractChanged(k));
    }
  }

  lemma SameSchemas(p: RevisionState, c: RevisionState, n: Id)
    requires Unchanged(p, c, n)
    ensures forall k :: k in PortRefs(NodesById(c.workflow.nodes)[n]) ==>
      SchemaOf(p.workflow.artifactSchemas, k) == SchemaOf(c.workflow.artifactSchemas, k)
  {
    hide NodesById, SchemaOf;
    assert !Applies(p, c, n, PortSchemaChanged);
    forall k | k in PortRefs(NodesById(c.workflow.nodes)[n])
      ensures SchemaOf(p.workflow.artifactSchemas, k) == SchemaOf(c.workflow.artifactSchemas, k)
    {
      assert !SchemaTouched(p.workflow, c.workflow, k);
    }
  }

  /** A node to which no reason applies has the same view in both revisions. */
  lemma SameView(p: RevisionState, c: RevisionState, n: Id)
    requires Unchanged(p, c, n)
    ensures n in NodesById(p.workflow.nodes) && ViewOf(p, n) == ViewOf(c, n)
  {
    SameNode(p, c, n);
    SameIncoming(p, c, n);
    SameProfile(p, c, n);
    SameContracts(p, c, n);
    SameSchemas(p, c, n);
    hide NodesById, SchemaOf, Unchanged, ContractsOf, HeaderOf, IncomingOf;
    SameInputPorts(p.workflow, c.workflow, n);
    var a, b := ViewOf(p, n), ViewOf(c, n);
    assert a.inputPorts == b.inputPorts;
    assert a.schemas == b.schemas;
  }

  lemma SameInputPorts(p: Workflow, c: Workflow, n: Id)
    requires IncomingOf(p, n) == IncomingOf(c, n)
    requires forall e :: e in IncomingOf(c, n) && e.source.WorkflowInput? ==>
      Find(p.inputs, e.source.port) == Find(c.inputs, e.source.port)
    ensures InputPortsOf(p, n) == InputPortsOf(c, n)
    ensures forall port :: port in InputPortsOf(c, n) ==> Find(p.inputs, port) == Find(c.inputs, port)
  {
  }

  // ----- soundness ------------------------------------------------------------------

  /** No root of the change reaches `n` in the candidate. */
  ghost predicate Unreached(p: RevisionState, c: RevisionState, n: Id) {
    forall m, x :: Applies(p, c, m, x) ==> !Reaches(Dependencies(c.workflow), m, n)
  }

  lemma UnreachedUpstream(p: RevisionState, c: RevisionState, n: Id, m: Id)
    requires Unreached(p, c, n) && (m, n) in Dependencies(c.workflow)
    ensures Unreached(p, c, m)
  {
    hide Applies;
    forall k, x | Applies(p, c, k, x) ensures !Reaches(Dependencies(c.workflow), k, m) {
      if Reaches(Dependencies(c.workflow), k, m) {
        ReachesAppend(Dependencies(c.workflow), k, m, n);
      }
    }
  }

  lemma UnreachedIsUnchanged(p: RevisionState, c: RevisionState, n: Id)
    requires Unreached(p, c, n) && n in NodesById(c.workflow.nodes)
    ensures Unchanged(p, c, n)
  {
    hide Applies;
    ReachesSelf(Dependencies(c.workflow), n);
  }

  /** The values of the upstream nodes in a from-scratch run. */
  ghost function UpstreamValues<V>(s: RevisionState, f: (LocalView, map<Edge, Input<V>>) -> V, id: Id): map<Id, V>
    requires Valid(s.workflow) && id in NodeIds(s.workflow)
  {
    UpstreamIsLower(s.workflow, id);
    map m | m in UpstreamOf(s.workflow, id) :: Evaluate(s, f, m)
  }

  lemma EvaluateUnfold<V>(s: RevisionState, f: (LocalView, map<Edge, Input<V>>) -> V, id: Id)
    requires Valid(s.workflow) && id in NodeIds(s.workflow)
    ensures id in NodesById(s.workflow.nodes)
    ensures Evaluate(s, f, id) == f(ViewOf(s, id), Deliveries(s, UpstreamValues(s, f, id), id))
  {
    UpstreamIsLower(s.workflow, id);
    NodesByIdKeys(s.workflow.nodes);
  }

  /** A node no root reaches exists in the parent and computes the same value there. */
  lemma {:induction false} UnreachedKeepsValue<V>(p: RevisionState, c: RevisionState,
      f: (LocalView, map<Edge, Input<V>>) -> V, n: Id)
    requires Valid(p.workflow) && Valid(c.workflow) && n in NodeIds(c.workflow) && Unreached(p, c, n)
    ensures n in NodeIds(p.workflow) && Evaluate(p, f, n) == Evaluate(c, f, n)
    decreases Rank(Dependencies(c.workflow), n)
  {
    NodesByIdKeys(c.workflow.nodes);
    NodesByIdKeys(p.workflow.nodes);
    UnreachedIsUnchanged(p, c, n);
    SameView(p, c, n);
    SameIncoming(p, c, n);
    UpstreamIsLower(c.workflow, n);
    UpstreamIsLower(p.workflow, n);
    hide Valid, Unreached, Unchanged, ViewOf, IncomingOf, Evaluate, Rank;
    SameUpstream(p.workflow, c.workflow, n);
    forall m | m in UpstreamOf(c.workflow, n)
      ensures m in NodeIds(p.workflow) && Evaluate(p, f, m) == Evaluate(c, f, m)
    {
      UpstreamEdges(c.workflow, m, n);
      UnreachedUpstream(p, c, n, m);
      UnreachedKeepsValue(p, c, f, m);
    }
    DeliveriesSame(p, c, UpstreamValues(c, f, n), n);
    ValueFromUpstream(p, c, f, n);
  }

  lemma ValueFromUpstream<V>(p: RevisionState, c: RevisionState, f: (LocalView, map<Edge, Input<V>>) -> V, n: Id)
    requires Valid(p.workflow) && Valid(c.workflow) && n in NodeIds(c.workflow) && n in NodeIds(p.workflow)
    requires n in NodesById(p.workflow.nodes) && n in NodesById(c.workflow.nodes) && ViewOf(p, n) == ViewOf(c, n)
    requires UpstreamOf(p.workflow, n) == UpstreamOf(c.workflow, n)
    requires forall m :: m in UpstreamOf(c.workflow, n) ==>
      m in NodeIds(p.workflow) && m in NodeIds(c.workflow) && Evaluate(p, f, m) == Evaluate(c, f, m)
    requires Deliveries(p, UpstreamValues(c, f, n), n) == Deliveries(c, UpstreamValues(c, f, n), n)
    ensures Evaluate(p, f, n) == Evaluate(c, f, n)
  {
    EvaluateUnfold(p, f, n);
    EvaluateUnfold(c, f, n);
    SameUpstreamValues(p, c, f, n);
    hide Valid, Evaluate, ViewOf, Deliveries, NodesById, UpstreamOf, UpstreamValues;
  }

  lemma SameUpstreamValues<V>(p: RevisionState, c: RevisionState, f: (LocalView, map<Edge, Input<V>>) -> V, n: Id)
    requires Valid(p.workflow) && Valid(c.workflow) && n in NodeIds(c.workflow) && n in NodeIds(p.workflow)
    requires UpstreamOf(p.workflow, n) == UpstreamOf(c.workflow, n)
    requires forall m :: m in UpstreamOf(c.workflow, n) ==>
      m in NodeIds(p.workflow) && m in NodeIds(c.workflow) && Evaluate(p, f, m) == Evaluate(c, f, m)
    ensures UpstreamValues(p, f, n) == UpstreamValues(c, f, n)
  {
    UpstreamIsLower(p.workflow, n);
    UpstreamIsLower(c.workflow, n);
    hide Valid, Evaluate, UpstreamOf, NodeIds, Rank;
    SameMaps(UpstreamValues(p, f, n), UpstreamValues(c, f, n));
  }

  lemma SameMaps<K, V>(a: map<K, V>, b: map<K, V>)
    requires a.Keys == b.Keys && forall k :: k in a ==> a[k] == b[k]
    ensures a == b
  {
  }

  lemma SameUpstream(p: Workflow, c: Workflow, n: Id)
    requires IncomingOf(p, n) == IncomingOf(c, n)
    ensures UpstreamOf(p, n) == UpstreamOf(c, n)
  {
    UpstreamOfIncoming(p, n);
    UpstreamOfIncoming(c, n);
  }

  lemma UpstreamOfIncoming(w: Workflow, n: Id)
    ensures UpstreamOf(w, n) == set e | e in IncomingOf(w, n) && e.source.NodeOutput? :: e.source.nodeId
  {
  }

  lemma DeliveriesSame<V>(p: RevisionState, c: RevisionState, values: map<Id, V>, n: Id)
    requires IncomingOf(p.workflow, n) == IncomingOf(c.workflow, n)
    requires forall e :: e in IncomingOf(c.workflow, n) && e.source.WorkflowInput? ==>
      Find(p.inputArtifactHashes, e.source.port) == Find(c.inputArtifactHashes, e.source.port)
    ensures Deliveries(p, values, n) == Deliveries(c, values, n)
  {
    hide IncomingOf;
  }

  lemma ImpactGraphIsDependencies(w: Workflow)
    requires Valid(w)
    ensures ImpactGraph(w) == Dependencies(w)
  {
    NodesByIdKeys(w.nodes);
    forall x | x in Dependencies(w) ensures x in ImpactGraph(w) {
      var e :| e in w.edges && IsDependency(e) && DependencyOf(e) == x;
      ValidEndpoints(w, e);
    }
  }

  /** Incremental soundness: for valid revisions, any reads and regression options and any node
      function, every node the analysis marks for reuse has its parent value in the candidate. */
  lemma IncrementalSoundness<V>(p: RevisionState, c: RevisionState, roots: seq<ChangedRoot>, o: Options, d: Decision,
      f: (LocalView, map<Edge, Input<V>>) -> V)
    requires Valid(p.workflow) && Valid(c.workflow)
    requires ExactRoots(p, c, roots) && RightDecision(c.workflow, roots, o, d)
    requires d.nodeId in NodeIds(c.workflow) && d.action == Reuse
    ensures d.nodeId in NodeIds(p.workflow)
    ensures Evaluate(p, f, d.nodeId) == Evaluate(c, f, d.nodeId)
  {
    NodesByIdKeys(c.workflow.nodes);
    ImpactGraphIsDependencies(c.workflow);
    ReusedIsUnreached(p, c, roots, o, d);
    UnreachedKeepsValue(p, c, f, d.nodeId);
  }

  lemma ReusedIsUnreached(p: RevisionState, c: RevisionState, roots: seq<ChangedRoot>, o: Options, d: Decision)
    requires ExactRoots(p, c, roots) && RightDecision(c.workflow, roots, o, d)
    requires d.nodeId in NodesById(c.workflow.nodes) && d.action == Reuse
    requires ImpactGraph(c.workflow) == Dependencies(c.workflow)
    ensures Unreached(p, c, d.nodeId)
  {
    RerunIff(c.workflow, roots, o, d);
    AppliesToNodes(p, c);
    hide Applies, NodesById;
    forall m, x | Applies(p, c, m, x) ensures !Reaches(Dependencies(c.workflow), m, d.nodeId) {
      var r :| r in roots && r.nodeId == m;
      assert KnownRoot(c.workflow, roots, m);
    }
  }

  lemma AppliesToNodes(p: RevisionState, c: RevisionState)
    ensures forall n, x :: Applies(p, c, n, x) ==> n in NodesById(c.workflow.nodes)
  {
  }
}

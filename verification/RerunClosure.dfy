/** Whether the nodes that run again include everything downstream of them. */
module RerunClosure {
  import opened Graphs
  import opened Ordering
  import opened Outcomes
  import opened Workflows
  import opened RevisionDiff
  import opened Impact
  import opened Incremental
  import Json

  ghost predicate Reruns(r: ImpactResult, n: Id) {
    exists d :: d in r.decisions && d.nodeId == n && d.action == Rerun
  }

  ghost predicate ClosedDownstream(w: Workflow, r: ImpactResult) {
    forall m, n :: (m, n) in ImpactGraph(w) && n in NodesById(w.nodes) && Reruns(r, m) ==> Reruns(r, n)
  }

  /** What a regression node feeds runs again for a reason of its own. */
  ghost predicate RegressionsCovered(w: Workflow, roots: seq<ChangedRoot>, o: Options) {
    forall m, n :: m in o.broadRegressionNodeIds && (m, n) in ImpactGraph(w) && n in NodesById(w.nodes) ==>
      Touched(w, roots, o, n) || n in o.broadRegressionNodeIds
  }

  lemma RerunsIff(w: Workflow, roots: seq<ChangedRoot>, o: Options, r: ImpactResult, n: Id)
    requires RightResult(w, roots, o, r) && n in NodesById(w.nodes)
    requires forall root :: root in roots ==> root.reasons != {}
    ensures Reruns(r, n) <==>
      (Touched(w, roots, o, n) || n in o.broadRegressionNodeIds || UnknownSupplied(w, o))
  {
    hide NodesById, SortedKeys, Touched, UnknownSupplied;
    var ids := SortedKeys(NodesById(w.nodes).Keys);
    assert n in Elements(ids);
    var i :| 0 <= i < |ids| && ids[i] == n;
    assert r.decisions[i] in r.decisions && r.decisions[i].nodeId == n;
    forall d | d in r.decisions && d.nodeId == n
      ensures d.action == Rerun <==>
        (Touched(w, roots, o, n) || n in o.broadRegressionNodeIds || UnknownSupplied(w, o))
    {
      RerunIff(w, roots, o, d);
    }
  }

  lemma TouchedSuccessor(w: Workflow, roots: seq<ChangedRoot>, o: Options, m: Id, n: Id)
    requires Touched(w, roots, o, m) && (m, n) in ImpactGraph(w)
    ensures Touched(w, roots, o, n)
  {
    var a :| (KnownRoot(w, roots, a) || IllReader(w, o, a)) && Reaches(ImpactGraph(w), a, m);
    ReachesAppend(ImpactGraph(w), a, m, n);
  }

  /** Everything downstream of a rerun node runs again exactly when that holds one step behind the regression
      nodes, or an unknown id makes every node run again. */
  lemma ClosedIffRegressionsCovered(w: Workflow, roots: seq<ChangedRoot>, o: Options, r: ImpactResult)
    requires RightResult(w, roots, o, r)
    requires forall root :: root in roots ==> root.reasons != {}
    ensures ClosedDownstream(w, r) <==> UnknownSupplied(w, o) || RegressionsCovered(w, roots, o)
  {
    SourcesAreKnown(w);
    hide NodesById, ImpactGraph, RightResult, Touched, UnknownSupplied;
    forall m, n | (m, n) in ImpactGraph(w) && n in NodesById(w.nodes)
      ensures Touched(w, roots, o, m) ==> Touched(w, roots, o, n)
      ensures Reruns(r, m) <==>
        (Touched(w, roots, o, m) || m in o.broadRegressionNodeIds || UnknownSupplied(w, o))
      ensures Reruns(r, n) <==>
        (Touched(w, roots, o, n) || n in o.broadRegressionNodeIds || UnknownSupplied(w, o))
    {
      RerunsIff(w, roots, o, r, m);
      RerunsIff(w, roots, o, r, n);
      if Touched(w, roots, o, m) {
        TouchedSuccessor(w, roots, o, m, n);
      }
    }
  }

  lemma SourcesAreKnown(w: Workflow)
    ensures forall m, n :: (m, n) in ImpactGraph(w) ==> m in NodesById(w.nodes)
  {
    hide NodesById;
  }

  // ----- an example -----------------------------------------------------------------

  function ExampleNode(id: Id, inputs: map<string, Port>, outputs: map<string, Port>): Node {
    Node(id, Deterministic, inputs, outputs, [], [], Budget(1, None), None, None, Json.Null)
  }

  /** Node "b" takes the output of node "a". */
  function TwoNodes(): Workflow {
    var port := Port("t", "1", PublicPort);
    Workflow("v", "w", "1", DIRECT, [], map[], map[], Json.Null, Json.Null, Json.Null,
      [ExampleNode("a", map[], map["out" := port]), ExampleNode("b", map["in" := port], map[])],
      [Edge(NodeOutput("a", "out"), NodeInput("b", "in"), None)])
  }

  lemma TwoNodesById()
    ensures NodesById(TwoNodes().nodes) ==
      map["a" := TwoNodes().nodes[0], "b" := TwoNodes().nodes[1]]
  {
    var nodes := TwoNodes().nodes;
    assert nodes[..1] == [nodes[0]] && nodes[..1][..0] == [];
    assert NodesById([nodes[0]]) == map["a" := nodes[0]] by {
      assert [nodes[0]][..0] == [];
    }
  }

  lemma TwoNodesGraph()
    ensures ImpactGraph(TwoNodes()) == {("a", "b")} == Dependencies(TwoNodes())
  {
    TwoNodesById();
    var w := TwoNodes();
    hide NodesById;
    var e := Edge(NodeOutput("a", "out"), NodeInput("b", "in"), None);
    assert w.edges == [e] && e in w.edges;
    assert DependencyOf(e) == ("a", "b");
  }

  lemma TwoNodesWired()
    ensures UniqueIds(TwoNodes()) && WellWired(TwoNodes())
  {
    TwoNodesById();
    var w := TwoNodes();
    hide NodesById;
    assert OneProducer(w, NodeInput("b", "in")) by {
      assert w.edges[0].target == NodeInput("b", "in");
    }
  }

  lemma TwoNodesAcyclic()
    ensures Acyclic({("a", "b")})
  {
  }

  lemma TwoNodesValid()
    ensures Valid(TwoNodes())
  {
    TwoNodesGraph();
    TwoNodesWired();
    TwoNodesAcyclic();
    hide UniqueIds, WellWired, Acyclic, Ordered, Dependencies;
  }

  /** With only "a" in the regression set, "a" runs again and "b", which takes its output, is reused. */
  lemma RegressionLeavesSuccessor(r: ImpactResult)
    requires RightResult(TwoNodes(), [], Options({"a"}, map[]), r)
    ensures Valid(TwoNodes()) && ("a", "b") in Dependencies(TwoNodes())
    ensures Reruns(r, "a") && !Reruns(r, "b")
  {
    TwoNodesValid();
    TwoNodesGraph();
    TwoNodesById();
    hide Valid, Reruns, RightResult, TwoNodes, NodesById;
    var w, o := TwoNodes(), Options({"a"}, map[]);
    RerunsIff(w, [], o, r, "a");
    RerunsIff(w, [], o, r, "b");
  }
}

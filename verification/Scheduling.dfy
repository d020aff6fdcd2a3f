/** What a workflow computes, and why every scheduler that only starts ready nodes computes it. */
module Scheduling {
  import opened Graphs
  import opened Ordering
  import opened Outcomes
  import opened PathPatterns
  import opened Workflows
  import opened MultiPass

  // ----- inputs of a node -------------------------------------------------------

  predicate Feeds(e: Edge, id: Id) {
    e.target.NodeInput? && e.target.nodeId == id
  }

  /** The nodes whose outputs flow into `id`. */
  function UpstreamOf(w: Workflow, id: Id): set<Id> {
    set e | e in w.edges && Feeds(e, id) && e.source.NodeOutput? :: e.source.nodeId
  }

  predicate InputsAvailable(w: Workflow, available: set<string>, id: Id) {
    forall e | e in w.edges && Feeds(e, id) && e.source.WorkflowInput? :: e.source.port in available
  }

  /** What each node waits for when the given workflow inputs are supplied. */
  function NeedsOf(w: Workflow, available: set<string>): Requirements {
    map id | id in NodeIds(w) && InputsAvailable(w, available, id) :: UpstreamOf(w, id)
  }

  /** The value an edge carries, if its source has produced one. */
  function Carried<V>(s: Source, ext: map<string, V>, outs: map<Id, map<string, V>>): Option<V> {
    match s
    case WorkflowInput(port) => Find(ext, port)
    case NodeOutput(nodeId, port) => if nodeId in outs then Find(outs[nodeId], port) else None
  }

  /** The inputs of `id`, filled in edge order; a later edge into the same port wins. */
  function Gather<V>(edges: seq<Edge>, id: Id, ext: map<string, V>, outs: map<Id, map<string, V>>): map<string, V> {
    if edges == [] then map[]
    else
      var e := edges[|edges| - 1];
      var rest := Gather(edges[..|edges| - 1], id, ext, outs);
      if !Feeds(e, id) then rest
      else
        match Carried(e.source, ext, outs)
        case Some(v) => rest[e.target.port := v]
        case None => rest - {e.target.port}
  }

  ghost predicate UniqueTargets(edges: seq<Edge>) {
    forall i, j :: 0 <= i < j < |edges| ==> edges[i].target != edges[j].target
  }

  /** `port` of `id` is fed by `e`. */
  predicate Into(e: Edge, id: Id, port: string) {
    e.target == NodeInput(id, port)
  }

  /** `e` feeds `id` and its source has produced a value. */
  predicate Delivers<V>(e: Edge, id: Id, ext: map<string, V>, outs: map<Id, map<string, V>>) {
    Feeds(e, id) && Carried(e.source, ext, outs).Some?
  }

  /** `inputs` holds exactly what the edges deliver. */
  ghost predicate Delivered<V>(edges: seq<Edge>, id: Id, ext: map<string, V>, outs: map<Id, map<string, V>>,
      inputs: map<string, V>)
  {
    && (forall port :: port in inputs ==>
      exists e :: e in edges && Delivers(e, id, ext, outs) && Into(e, id, port))
    && (forall e :: e in edges && Delivers(e, id, ext, outs) ==>
      e.target.port in inputs && inputs[e.target.port] == Carried(e.source, ext, outs).value)
  }

  /** When no two edges share a target, the inputs are exactly what the edges carry. */
  lemma {:induction false} GatherSpec<V>(edges: seq<Edge>, id: Id, ext: map<string, V>, outs: map<Id, map<string, V>>)
    requires UniqueTargets(edges)
    ensures Delivered(edges, id, ext, outs, Gather(edges, id, ext, outs))
  {
    if edges != [] {
      var front, last := edges[..|edges| - 1], edges[|edges| - 1];
      GatherSpec(front, id, ext, outs);
      assert edges == front + [last];
      forall e | e in front ensures e.target != last.target {
        var i :| 0 <= i < |front| && front[i] == e;
        assert edges[i] == e;
      }
      hide UniqueTargets, Carried;
      DeliveredStep(front, last, id, ext, outs, Gather(front, id, ext, outs), Gather(edges, id, ext, outs));
    }
  }

  lemma DeliveredStep<V>(front: seq<Edge>, last: Edge, id: Id, ext: map<string, V>, outs: map<Id, map<string, V>>,
      rest: map<string, V>, inputs: map<string, V>)
    requires Delivered(front, id, ext, outs, rest)
    requires forall e :: e in front ==> e.target != last.target
    requires inputs == if !Feeds(last, id) then rest
      else if Carried(last.source, ext, outs).Some? then rest[last.target.port := Carried(last.source, ext, outs).value]
      else rest - {last.target.port}
    ensures Delivered(front + [last], id, ext, outs, inputs)
  {
    hide Carried;
    var edges := front + [last];
    forall port | port in inputs
      ensures exists e :: e in edges && Delivers(e, id, ext, outs) && Into(e, id, port)
    {
      if port in rest && !(Feeds(last, id) && last.target.port == port) {
        var e :| e in front && Delivers(e, id, ext, outs) && Into(e, id, port);
        assert e in edges;
      } else {
        assert last in edges && Delivers(last, id, ext, outs) && Into(last, id, port);
      }
    }
    forall e | e in edges && Delivers(e, id, ext, outs)
      ensures e.target.port in inputs && inputs[e.target.port] == Carried(e.source, ext, outs).value
    {
      if e != last {
        assert e in front;
      }
    }
  }

  /** The gathered inputs do not depend on the order of the edges, nor on outputs of other nodes. */
  lemma GatherSame<V>(left: seq<Edge>, right: seq<Edge>, id: Id, ext: map<string, V>,
      outs: map<Id, map<string, V>>, outs': map<Id, map<string, V>>)
    requires UniqueTargets(left) && UniqueTargets(right)
    requires forall e :: Feeds(e, id) ==> (e in left <==> e in right)
    requires forall e :: e in left && Feeds(e, id) ==> Carried(e.source, ext, outs) == Carried(e.source, ext, outs')
    ensures Gather(left, id, ext, outs) == Gather(right, id, ext, outs')
  {
    GatherSpec(left, id, ext, outs);
    GatherSpec(right, id, ext, outs');
    var a, b := Gather(left, id, ext, outs), Gather(right, id, ext, outs');
    hide Gather, UniqueTargets, Carried;
    forall port | port in a ensures port in b && a[port] == b[port] {
      var e :| e in left && Delivers(e, id, ext, outs) && Into(e, id, port);
      assert e in right && Delivers(e, id, ext, outs');
    }
    forall port | port in b ensures port in a {
      var e :| e in right && Delivers(e, id, ext, outs') && Into(e, id, port);
      assert e in left && Delivers(e, id, ext, outs);
    }
  }

  // ----- consequences of validity -----------------------------------------------

  lemma ValidEndpoints(w: Workflow, e: Edge)
    requires Valid(w) && e in w.edges
    ensures Known(w, e)
    ensures e.source.NodeOutput? ==> e.source.nodeId in NodeIds(w)
    ensures e.target.NodeInput? ==> e.target.nodeId in NodeIds(w)
  {
    assert WellTyped(w, e);
    NodesByIdKeys(w.nodes);
  }

  lemma ValidUniqueTargets(w: Workflow)
    requires Valid(w)
    ensures UniqueTargets(w.edges)
  {
    hide Acyclic, WritesOrdered, OutputsReachable;
    forall i, j | 0 <= i < j < |w.edges| ensures w.edges[i].target != w.edges[j].target {
      var t := w.edges[i].target;
      assert w.edges[i] in w.edges;
      TargetHasOneProducer(w, w.edges[i]);
    }
  }

  lemma TargetHasOneProducer(w: Workflow, e: Edge)
    requires UniqueIds(w) && WellWired(w) && e in w.edges
    ensures OneProducer(w, e.target)
  {
    assert WellTyped(w, e);
    if e.target.NodeInput? {
      NodesByIdKeys(w.nodes);
      var n := NodesById(w.nodes)[e.target.nodeId];
      assert n in w.nodes && n.id == e.target.nodeId && e.target.port in n.inputs;
    }
  }

  lemma UpstreamEdges(w: Workflow, m: Id, id: Id)
    ensures m in UpstreamOf(w, id) <==> (m, id) in Dependencies(w)
  {
    if m in UpstreamOf(w, id) {
      var e :| e in w.edges && Feeds(e, id) && e.source.NodeOutput? && e.source.nodeId == m;
      assert DependencyOf(e) == (m, id);
    }
    if (m, id) in Dependencies(w) {
      var e :| e in w.edges && IsDependency(e) && DependencyOf(e) == (m, id);
      assert Feeds(e, id);
    }
  }

  lemma UpstreamIsLower(w: Workflow, id: Id)
    requires Valid(w)
    ensures forall m :: m in UpstreamOf(w, id) ==>
      m in NodeIds(w) && Rank(Dependencies(w), m) < Rank(Dependencies(w), id)
  {
    forall m | m in UpstreamOf(w, id)
      ensures m in NodeIds(w) && Rank(Dependencies(w), m) < Rank(Dependencies(w), id)
    {
      var e :| e in w.edges && Feeds(e, id) && e.source.NodeOutput? && e.source.nodeId == m;
      ValidEndpoints(w, e);
      UpstreamEdges(w, m, id);
      RankGrows(Dependencies(w), m, id);
    }
  }

  // ----- the meaning of a workflow ----------------------------------------------

  /** The outputs of a node, computed from the workflow inputs by recursion on the dependencies. */
  ghost function Eval<V>(w: Workflow, ext: map<string, V>, exec: (Node, map<string, V>) -> map<string, V>, id: Id)
    : map<string, V>
    requires Valid(w) && id in NodeIds(w)
    decreases Rank(Dependencies(w), id)
  {
    UpstreamIsLower(w, id);
    NodesByIdKeys(w.nodes);
    exec(NodesById(w.nodes)[id],
         Gather(w.edges, id, ext, map m | m in UpstreamOf(w, id) :: Eval(w, ext, exec, m)))
  }

  /** One node executed on the outputs so far; an unknown id is skipped. */
  function Execute<V>(w: Workflow, ext: map<string, V>, exec: (Node, map<string, V>) -> map<string, V>,
      earlier: map<Id, map<string, V>>, id: Id): map<Id, map<string, V>>
  {
    var nodes := NodesById(w.nodes);
    if id in nodes then earlier[id := exec(nodes[id], Gather(w.edges, id, ext, earlier))] else earlier
  }

  /** The outputs after executing the nodes in the given order. */
  function Run<V>(w: Workflow, ext: map<string, V>, exec: (Node, map<string, V>) -> map<string, V>, order: seq<Id>)
    : map<Id, map<string, V>>
  {
    if order == [] then map[]
    else Execute(w, ext, exec, Run(w, ext, exec, order[..|order| - 1]), order[|order| - 1])
  }

  lemma RunAppend<V>(w: Workflow, ext: map<string, V>, exec: (Node, map<string, V>) -> map<string, V>,
      order: seq<Id>, id: Id)
    ensures Run(w, ext, exec, order + [id]) == Execute(w, ext, exec, Run(w, ext, exec, order), id)
  {
    var longer := order + [id];
    assert longer[|longer| - 1] == id && longer[..|longer| - 1] == order;
  }

  lemma {:induction false} RunKeys<V>(w: Workflow, ext: map<string, V>,
      exec: (Node, map<string, V>) -> map<string, V>, order: seq<Id>)
    requires forall id :: id in order ==> id in NodesById(w.nodes)
    ensures forall id :: id in Run(w, ext, exec, order) <==> id in order
    decreases |order|
  {
    if order != [] {
      RunKeys(w, ext, exec, order[..|order| - 1]);
      assert order == order[..|order| - 1] + [order[|order| - 1]];
    }
  }

  /** A schedule runs distinct nodes, each only when everything it needs is there. */
  ghost predicate IsSchedule(w: Workflow, available: set<string>, order: seq<Id>) {
    InOrder(NeedsOf(w, available), order)
  }

  lemma ScheduledIsReady(w: Workflow, available: set<string>, order: seq<Id>, i: nat)
    requires IsSchedule(w, available, order) && i < |order|
    ensures order[i] in NodeIds(w) && order[i] in NodesById(w.nodes)
    ensures forall m :: m in UpstreamOf(w, order[i]) ==> m in order[..i]
  {
    NodesByIdKeys(w.nodes);
    assert Ready(NeedsOf(w, available), order[..i], order[i]);
  }

  lemma ScheduleNodes(w: Workflow, available: set<string>, order: seq<Id>)
    requires IsSchedule(w, available, order)
    ensures forall id :: id in order ==> id in NodeIds(w) && id in NodesById(w.nodes)
  {
    forall id | id in order ensures id in NodeIds(w) && id in NodesById(w.nodes) {
      var i :| 0 <= i < |order| && order[i] == id;
      ScheduledIsReady(w, available, order, i);
    }
  }

  lemma SchedulePrefix(w: Workflow, available: set<string>, order: seq<Id>, k: nat)
    requires IsSchedule(w, available, order) && k <= |order|
    ensures IsSchedule(w, available, order[..k])
  {
    forall i | 0 <= i < k ensures Ready(NeedsOf(w, available), order[..k][..i], order[..k][i]) {
      assert order[..k][..i] == order[..i];
    }
  }

  /** Any ready-first schedule gives every node it has run the value the workflow means. */
  lemma {:induction false} ScheduleComputesEval<V>(w: Workflow, ext: map<string, V>,
      exec: (Node, map<string, V>) -> map<string, V>, order: seq<Id>)
    requires Valid(w) && IsSchedule(w, ext.Keys, order)
    ensures forall id :: id in order <==> id in Run(w, ext, exec, order)
    ensures forall id :: id in order ==> id in NodeIds(w) && Run(w, ext, exec, order)[id] == Eval(w, ext, exec, id)
    decreases |order|
  {
    ScheduleNodes(w, ext.Keys, order);
    RunKeys(w, ext, exec, order);
    if order != [] {
      var k := |order| - 1;
      SchedulePrefix(w, ext.Keys, order, k);
      ScheduleComputesEval(w, ext, exec, order[..k]);
      ScheduledIsReady(w, ext.Keys, order, k);
      RunAppend(w, ext, exec, order[..k], order[k]);
      assert order[..k] + [order[k]] == order;
      var earlier := Run(w, ext, exec, order[..k]);
      hide Run, IsSchedule, Valid;
      UpstreamIsLower(w, order[k]);
      EvalFromEarlier(w, ext, exec, order[k], earlier);
    }
  }

  /** Executing a node on outputs that agree with the meaning of its upstream gives its meaning. */
  lemma EvalFromEarlier<V>(w: Workflow, ext: map<string, V>, exec: (Node, map<string, V>) -> map<string, V>,
      id: Id, earlier: map<Id, map<string, V>>)
    requires Valid(w) && id in NodeIds(w)
    requires forall m :: m in UpstreamOf(w, id) ==>
      m in NodeIds(w) && m in earlier && earlier[m] == Eval(w, ext, exec, m)
    ensures id in NodesById(w.nodes)
    ensures exec(NodesById(w.nodes)[id], Gather(w.edges, id, ext, earlier)) == Eval(w, ext, exec, id)
  {
    NodesByIdKeys(w.nodes);
    ValidUniqueTargets(w);
    UpstreamIsLower(w, id);
    var upstream := map m | m in UpstreamOf(w, id) :: Eval(w, ext, exec, m);
    forall e | e in w.edges && Feeds(e, id)
      ensures Carried(e.source, ext, earlier) == Carried(e.source, ext, upstream)
    {
      if e.source.NodeOutput? {
        assert e.source.nodeId in UpstreamOf(w, id);
      }
    }
    GatherSame(w.edges, w.edges, id, ext, earlier, upstream);
  }

  /** What a source means: the workflow input itself, or that output of what the node means. */
  ghost predicate Yields<V>(w: Workflow, ext: map<string, V>, exec: (Node, map<string, V>) -> map<string, V>,
      s: Source, v: V)
    requires Valid(w)
  {
    match s
    case WorkflowInput(port) => port in ext && ext[port] == v
    case NodeOutput(m, port) =>
      m in NodeIds(w) && port in Eval(w, ext, exec, m) && Eval(w, ext, exec, m)[port] == v
  }

  /** `inputs` holds, under each port some edge leads to, what the source of that edge means, and no more. */
  ghost predicate Receives<V(!new)>(w: Workflow, ext: map<string, V>, exec: (Node, map<string, V>) -> map<string, V>,
      id: Id, inputs: map<string, V>)
    requires Valid(w)
  {
    && (forall port :: port in inputs ==> exists e :: e in w.edges && e.target == NodeInput(id, port))
    && (forall e, port, v :: e in w.edges && e.target == NodeInput(id, port) ==>
      (port in inputs && inputs[port] == v <==> Yields(w, ext, exec, e.source, v)))
  }

  lemma CarriedYields<V>(w: Workflow, ext: map<string, V>, exec: (Node, map<string, V>) -> map<string, V>,
      s: Source, outs: map<Id, map<string, V>>, v: V)
    requires Valid(w)
    requires s.NodeOutput? ==>
      (s.nodeId in outs <==> s.nodeId in NodeIds(w))
      && (s.nodeId in outs ==> outs[s.nodeId] == Eval(w, ext, exec, s.nodeId))
    ensures Carried(s, ext, outs) == Some(v) <==> Yields(w, ext, exec, s, v)
  {
    hide Valid, Eval, NodeIds;
  }

  lemma SameEdge<V>(edges: seq<Edge>, id: Id, ext: map<string, V>, outs: map<Id, map<string, V>>, e: Edge,
      port: string)
    requires UniqueTargets(edges) && Delivered(edges, id, ext, outs, Gather(edges, id, ext, outs))
    requires e in edges && e.target == NodeInput(id, port) && port in Gather(edges, id, ext, outs)
    ensures Delivers(e, id, ext, outs)
  {
    hide Gather, Carried;
    var f :| f in edges && Delivers(f, id, ext, outs) && Into(f, id, port);
    var i :| 0 <= i < |edges| && edges[i] == e;
    var j :| 0 <= j < |edges| && edges[j] == f;
  }

  lemma ReceivedAlong<V>(w: Workflow, ext: map<string, V>, exec: (Node, map<string, V>) -> map<string, V>,
      id: Id, outs: map<Id, map<string, V>>, e: Edge, port: string, v: V)
    requires Valid(w) && UniqueTargets(w.edges) && Delivered(w.edges, id, ext, outs, Gather(w.edges, id, ext, outs))
    requires e in w.edges && e.target == NodeInput(id, port)
    requires forall m :: m in UpstreamOf(w, id) ==> m in NodeIds(w) && m in outs && outs[m] == Eval(w, ext, exec, m)
    ensures var inputs := Gather(w.edges, id, ext, outs);
      port in inputs && inputs[port] == v <==> Yields(w, ext, exec, e.source, v)
  {
    hide Gather, Valid, Eval, Yields, Carried, NodeIds;
    assert Feeds(e, id);
    if e.source.NodeOutput? {
      assert e.source.nodeId in UpstreamOf(w, id);
    }
    CarriedYields(w, ext, exec, e.source, outs, v);
    if port in Gather(w.edges, id, ext, outs) {
      SameEdge(w.edges, id, ext, outs, e, port);
    }
  }

  lemma GatheredIsReceived<V(!new)>(w: Workflow, ext: map<string, V>, exec: (Node, map<string, V>) -> map<string, V>,
      id: Id, outs: map<Id, map<string, V>>)
    requires Valid(w)
    requires forall m :: m in UpstreamOf(w, id) ==> m in NodeIds(w) && m in outs && outs[m] == Eval(w, ext, exec, m)
    ensures Receives(w, ext, exec, id, Gather(w.edges, id, ext, outs))
  {
    ValidUniqueTargets(w);
    GatherSpec(w.edges, id, ext, outs);
    var inputs := Gather(w.edges, id, ext, outs);
    hide Gather, Valid, Eval, UniqueTargets, Yields, Carried;
    forall port | port in inputs ensures exists e :: e in w.edges && e.target == NodeInput(id, port) {
      var e :| e in w.edges && Delivers(e, id, ext, outs) && Into(e, id, port);
    }
    forall e, port, v | e in w.edges && e.target == NodeInput(id, port)
      ensures port in inputs && inputs[port] == v <==> Yields(w, ext, exec, e.source, v)
    {
      ReceivedAlong(w, ext, exec, id, outs, e, port, v);
    }
  }

  lemma UpstreamMeanings<V>(w: Workflow, ext: map<string, V>, exec: (Node, map<string, V>) -> map<string, V>, id: Id)
    returns (upstream: map<Id, map<string, V>>)
    requires Valid(w)
    ensures forall m :: m in UpstreamOf(w, id) ==>
      m in NodeIds(w) && m in upstream && upstream[m] == Eval(w, ext, exec, m)
  {
    UpstreamIsLower(w, id);
    hide Valid, Eval, UpstreamOf, NodeIds, Rank;
    upstream := map m | m in UpstreamOf(w, id) :: Eval(w, ext, exec, m);
  }

  /** The meaning of a node: what it computes from the meanings of its sources, whatever the node computes. */
  lemma EvalMeans<V(!new)>(w: Workflow, ext: map<string, V>, exec: (Node, map<string, V>) -> map<string, V>, id: Id)
    returns (inputs: map<string, V>)
    requires Valid(w) && id in NodeIds(w)
    ensures id in NodesById(w.nodes) && NodesById(w.nodes)[id] in w.nodes && NodesById(w.nodes)[id].id == id
    ensures Eval(w, ext, exec, id) == exec(NodesById(w.nodes)[id], inputs)
    ensures Receives(w, ext, exec, id, inputs)
  {
    NodesByIdKeys(w.nodes);
    hide Valid, Receives, Gather, UpstreamOf, Eval, NodeIds, NodesById;
    var upstream := UpstreamMeanings(w, ext, exec, id);
    inputs := Gather(w.edges, id, ext, upstream);
    EvalFromEarlier(w, ext, exec, id, upstream);
    GatheredIsReceived(w, ext, exec, id, upstream);
  }

  /** Two schedules of a valid workflow that run the same nodes end with the same outputs. */
  lemma ScheduleIndependence<V>(w: Workflow, ext: map<string, V>,
      exec: (Node, map<string, V>) -> map<string, V>, one: seq<Id>, two: seq<Id>)
    requires Valid(w) && IsSchedule(w, ext.Keys, one) && IsSchedule(w, ext.Keys, two)
    requires forall id :: id in one <==> id in two
    ensures Run(w, ext, exec, one) == Run(w, ext, exec, two)
  {
    ScheduleComputesEval(w, ext, exec, one);
    ScheduleComputesEval(w, ext, exec, two);
    hide Run, IsSchedule, Valid, NodesById, NodeIds;
    var a, b := Run(w, ext, exec, one), Run(w, ext, exec, two);
    assert a.Keys == b.Keys;
    forall id | id in a ensures a[id] == b[id] {
      assert id in one;
    }
  }

  // ----- no stall ---------------------------------------------------------------

  /** With all its declared inputs supplied, a valid workflow never leaves a node waiting for ever. */
  lemma NoStall(w: Workflow, available: set<string>, items: seq<Id>)
    requires Valid(w) && w.inputs.Keys <= available
    requires Elements(items) == NodeIds(w)
    ensures IsSchedule(w, available, Passes(items, NeedsOf(w, available), []))
    ensures Elements(Passes(items, NeedsOf(w, available), [])) == NodeIds(w)
  {
    var needs := NeedsOf(w, available);
    forall id | id in items ensures id in needs && forall m :: m in needs[id] ==> m in items {
      assert id in Elements(items);
      forall e | e in w.edges && Feeds(e, id) && e.source.WorkflowInput? ensures e.source.port in available {
        ValidEndpoints(w, e);
      }
      UpstreamIsLower(w, id);
      forall m | m in needs[id] ensures m in items {
        assert m in Elements(items);
      }
    }
    forall x | x in RequirementGraph(needs) ensures x in Dependencies(w) {
      RequirementEdge(needs, x.0, x.1);
      UpstreamEdges(w, x.0, x.1);
    }
    SubgraphAcyclic(RequirementGraph(needs), Dependencies(w));
    PassesComplete(items, needs);
    PassesSound(items, needs, []);
  }

  // ----- inputs and outputs are all there ---------------------------------------

  /** Every executed node has produced exactly its declared ports. */
  ghost predicate DeclaredOutputs<V>(w: Workflow, outs: map<Id, map<string, V>>) {
    forall m :: m in outs ==> m in NodesById(w.nodes) && outs[m].Keys == NodesById(w.nodes)[m].outputs.Keys
  }

  lemma SourceDelivers<V>(w: Workflow, e: Edge, ext: map<string, V>, outs: map<Id, map<string, V>>)
    requires Valid(w) && e in w.edges && w.inputs.Keys <= ext.Keys && DeclaredOutputs(w, outs)
    requires e.source.NodeOutput? ==> e.source.nodeId in outs
    ensures Carried(e.source, ext, outs).Some?
  {
    ValidEndpoints(w, e);
  }

  /** A node whose upstream has run receives exactly its declared inputs, none of them undefined. */
  lemma ReadyReceivesAllInputs<V>(w: Workflow, ext: map<string, V>, outs: map<Id, map<string, V>>, id: Id)
    requires Valid(w) && w.inputs.Keys <= ext.Keys && DeclaredOutputs(w, outs)
    requires id in NodeIds(w) && forall m :: m in UpstreamOf(w, id) ==> m in outs
    ensures forall e :: e in w.edges && Feeds(e, id) ==> Carried(e.source, ext, outs).Some?
    ensures id in NodesById(w.nodes) && Gather(w.edges, id, ext, outs).Keys == NodesById(w.nodes)[id].inputs.Keys
  {
    NodesByIdKeys(w.nodes);
    var n := NodesById(w.nodes)[id];
    forall e | e in w.edges && Feeds(e, id) ensures Carried(e.source, ext, outs).Some? {
      assert e.source.NodeOutput? ==> e.source.nodeId in UpstreamOf(w, id);
      SourceDelivers(w, e, ext, outs);
    }
    ValidUniqueTargets(w);
    GatherSpec(w.edges, id, ext, outs);
    var inputs := Gather(w.edges, id, ext, outs);
    hide Gather, Carried, Acyclic, WritesOrdered, OutputsReachable;
    forall port | port in n.inputs ensures port in inputs {
      assert OneProducer(w, NodeInput(n.id, port));
      var i :| 0 <= i < |w.edges| && w.edges[i].target == NodeInput(n.id, port);
      assert Delivers(w.edges[i], id, ext, outs) && w.edges[i] in w.edges;
    }
    forall port | port in inputs ensures port in n.inputs {
      var e :| e in w.edges && Delivers(e, id, ext, outs) && Into(e, id, port);
      ValidEndpoints(w, e);
    }
  }

  /** The first edge into a target. */
  function FirstInto(edges: seq<Edge>, t: Target): Option<Edge> {
    if edges == [] then None
    else if edges[0].target == t then Some(edges[0])
    else FirstInto(edges[1..], t)
  }

  lemma {:induction false} FirstIntoSpec(edges: seq<Edge>, t: Target)
    ensures FirstInto(edges, t).Some? ==> FirstInto(edges, t).value in edges && FirstInto(edges, t).value.target == t
    ensures FirstInto(edges, t).None? ==> forall e :: e in edges ==> e.target != t
  {
    if edges != [] && edges[0].target != t {
      FirstIntoSpec(edges[1..], t);
    }
  }

  /** With unique targets, any rearrangement of the edges finds the same edge. */
  lemma FirstIntoSame(left: seq<Edge>, right: seq<Edge>, t: Target)
    requires UniqueTargets(right) && forall e :: e in left <==> e in right
    ensures FirstInto(left, t) == FirstInto(right, t)
  {
    FirstIntoSpec(left, t);
    FirstIntoSpec(right, t);
    if FirstInto(left, t).Some? {
      var e := FirstInto(left, t).value;
      assert e in right;
      var f := FirstInto(right, t).value;
      var i :| 0 <= i < |right| && right[i] == e;
      var j :| 0 <= j < |right| && right[j] == f;
      assert i == j;
    }
  }

  /** The value a workflow output receives. */
  function OutputValue<V>(edges: seq<Edge>, port: string, ext: map<string, V>,
      outs: map<Id, map<string, V>>): Option<V>
  {
    match FirstInto(edges, WorkflowOutput(port))
    case Some(e) => Carried(e.source, ext, outs)
    case None => None
  }

  /** Once every node has run, every workflow output has a value. */
  lemma OutputsProduced<V>(w: Workflow, ext: map<string, V>, outs: map<Id, map<string, V>>, port: string)
    requires Valid(w) && w.inputs.Keys <= ext.Keys && DeclaredOutputs(w, outs)
    requires outs.Keys == NodeIds(w) && port in w.outputs
    ensures FirstInto(w.edges, WorkflowOutput(port)).Some?
    ensures OutputValue(w.edges, port, ext, outs).Some?
  {
    FirstIntoSpec(w.edges, WorkflowOutput(port));
    assert OneProducer(w, WorkflowOutput(port));
    var i :| 0 <= i < |w.edges| && w.edges[i].target == WorkflowOutput(port);
    assert w.edges[i] in w.edges;
    var e := FirstInto(w.edges, WorkflowOutput(port)).value;
    ValidEndpoints(w, e);
    SourceDelivers(w, e, ext, outs);
  }

  // ----- race freedom -----------------------------------------------------------

  /** `id` has not run and nothing stops it from running now. */
  ghost predicate Startable(w: Workflow, available: set<string>, done: seq<Id>, id: Id) {
    id !in done && Ready(NeedsOf(w, available), done, id)
  }

  lemma ScheduleIsPredecessorClosed(w: Workflow, available: set<string>, order: seq<Id>)
    requires IsSchedule(w, available, order)
    ensures PredecessorClosed(Dependencies(w), Elements(order))
  {
    forall m, id | id in Elements(order) && (m, id) in Dependencies(w) ensures m in Elements(order) {
      var i :| 0 <= i < |order| && order[i] == id;
      ScheduledIsReady(w, available, order, i);
      UpstreamEdges(w, m, id);
      assert m in order[..i];
    }
  }

  lemma StartableAreUnordered(w: Workflow, available: set<string>, done: seq<Id>, a: Id, b: Id)
    requires IsSchedule(w, available, done)
    requires Startable(w, available, done, a) && Startable(w, available, done, b)
    ensures !Precedes(Dependencies(w), a, b)
  {
    var g := Dependencies(w);
    if Precedes(g, a, b) {
      var c := LastEdge(g, a, b);
      UpstreamEdges(w, c, b);
      assert c in done;
      ScheduleIsPredecessorClosed(w, available, done);
      PredecessorClosedContains(g, Elements(done), a, c);
    }
  }

  /** At no point of any schedule can two different startable nodes write the same path. */
  lemma RaceFreedom(w: Workflow, available: set<string>, done: seq<Id>, a: Node, b: Node, p: string, q: string,
      path: string)
    requires Valid(w) && IsSchedule(w, available, done)
    requires a in w.nodes && b in w.nodes && a.id != b.id
    requires Startable(w, available, done, a.id) && Startable(w, available, done, b.id)
    requires p in a.writePatterns && q in b.writePatterns
    ensures !(PatternMatches(p, path) && PatternMatches(q, path))
  {
    StartableAreUnordered(w, available, done, a.id, b.id);
    StartableAreUnordered(w, available, done, b.id, a.id);
    assert !Ordered(Dependencies(w), a.id, b.id);
    assert !SharePath(p, q);
  }
}

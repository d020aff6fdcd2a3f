/** The deterministic simulator: a multi-pass scheduler that records a trace. */
module Simulator {
  import opened Graphs
  import opened Ordering
  import opened Outcomes
  import opened Workflows
  import opened MultiPass
  import opened Scheduling
  import Json

  /** A fixture value, or the placeholder a simulated node produces. A digest is represented by the
      value it digests, so `inputs` stands for the input digest of the placeholder. */
  datatype Value =
    | External(json: Json.Json)
    | Placeholder(nodeId: Id, port: string, typ: string, schemaVersion: string, inputs: map<string, Value>)

  datatype Event =
    | InputEvent(port: string, value: Value)
    | NodeStarted(nodeId: Id, round: Option<nat>, inputs: map<string, Value>)
    | SideEffectSkipped(nodeId: Id, operation: string)
    | NodeCompleted(nodeId: Id, outputs: map<string, Value>)
    | OutputEvent(port: string, value: Value)

  datatype Trace = Trace(workflowId: string, workflowVersion: string, events: seq<Event>, outputs: map<string, Value>)

  datatype SimulationError =
    | Stalled(remaining: set<Id>)
    | UndefinedInput(nodeId: Id)
    | OutputMissingProducer(port: string)
    | OutputNotProduced(port: string)

  // ----- the fixture ------------------------------------------------------------

  datatype FixtureFault = MissingPort(port: string) | ExtraPort(port: string) | Mismatch(port: string)

  /** What is wrong with a fixture: a port that is missing, one that is not declared, or a value that does not conform.
      `conforms` stands for the JSON Schema check. */
  predicate Faulty(w: Workflow, fixture: map<string, Json.Json>, conforms: (SchemaKey, Json.Json) -> bool,
      f: FixtureFault)
  {
    match f
    case MissingPort(p) => p in w.inputs && p !in fixture
    case ExtraPort(p) => p in fixture && p !in w.inputs
    case Mismatch(p) => p in w.inputs && p in fixture && !conforms(PortKey(w.inputs[p]), fixture[p])
  }

  /** Reports exactly what is wrong, and so accepts a fixture that supplies the declared ports with conforming
      values. */
  method ValidateFixture(w: Workflow, fixture: map<string, Json.Json>, conforms: (SchemaKey, Json.Json) -> bool)
    returns (faults: seq<FixtureFault>)
    ensures forall f :: f in faults <==> Faulty(w, fixture, conforms, f)
    ensures faults == [] <==>
      (fixture.Keys == w.inputs.Keys && forall p :: p in w.inputs ==> conforms(PortKey(w.inputs[p]), fixture[p]))
  {
    var expected := EnumerateSorted(w.inputs.Keys);
    var actual := EnumerateSorted(fixture.Keys);
    SortedKeysIn(w.inputs);
    SortedKeysIn(fixture);
    hide SortedKeys, PortKey;
    faults := [];
    for k := 0 to |expected|
      invariant forall f :: f in faults <==> f.MissingPort? && f.port in expected[..k] && f.port !in fixture
    {
      TakeMore(expected, k);
      if expected[k] !in fixture {
        faults := faults + [MissingPort(expected[k])];
      }
    }
    TakeAll(expected);
    for k := 0 to |actual|
      invariant forall f :: f in faults <==>
        || (f.MissingPort? && Faulty(w, fixture, conforms, f))
        || (f.ExtraPort? && f.port in actual[..k] && f.port !in w.inputs)
    {
      TakeMore(actual, k);
      if actual[k] !in w.inputs {
        faults := faults + [ExtraPort(actual[k])];
      }
    }
    TakeAll(actual);
    for k := 0 to |expected|
      invariant forall f :: f in faults <==>
        || (!f.Mismatch? && Faulty(w, fixture, conforms, f))
        || (f.Mismatch? && f.port in expected[..k] && Faulty(w, fixture, conforms, f))
    {
      TakeMore(expected, k);
      var p := expected[k];
      assert p in expected;
      if p in fixture && !conforms(PortKey(w.inputs[p]), fixture[p]) {
        faults := faults + [Mismatch(p)];
      }
    }
    NoFaultMeansExact(w, fixture, conforms, faults);
  }

  lemma NoFaultMeansExact(w: Workflow, fixture: map<string, Json.Json>, conforms: (SchemaKey, Json.Json) -> bool,
      faults: seq<FixtureFault>)
    requires forall f :: f in faults <==> Faulty(w, fixture, conforms, f)
    ensures faults == [] <==>
      (fixture.Keys == w.inputs.Keys && forall p :: p in w.inputs ==> conforms(PortKey(w.inputs[p]), fixture[p]))
  {
    if faults == [] {
      forall p ensures p in fixture <==> p in w.inputs {
        assert MissingPort(p) !in faults && ExtraPort(p) !in faults;
      }
      forall p | p in w.inputs ensures conforms(PortKey(w.inputs[p]), fixture[p]) {
        assert Mismatch(p) !in faults;
      }
    } else {
      assert Faulty(w, fixture, conforms, faults[0]);
    }
  }

  // ----- what a simulation records ----------------------------------------------

  function SimExec(n: Node, inputs: map<string, Value>): map<string, Value> {
    map p | p in n.outputs :: Placeholder(n.id, p, n.outputs[p].typ, n.outputs[p].schemaVersion, inputs)
  }

  function Rounds(n: Node): nat {
    if n.kind == Loop then (if n.maxRounds.Some? then n.maxRounds.value else 1) else 1
  }

  function StartEvents(n: Node, inputs: map<string, Value>, rounds: nat): seq<Event> {
    if rounds == 0 then []
    else StartEvents(n, inputs, rounds - 1) + [NodeStarted(n.id, if n.kind == Loop then Some(rounds) else None, inputs)]
  }

  function NodeEvents(n: Node, inputs: map<string, Value>): seq<Event> {
    StartEvents(n, inputs, Rounds(n))
    + (if n.kind == SideEffect
       then [SideEffectSkipped(n.id, if n.operation.Some? then n.operation.value else "unknown")]
       else [])
    + [NodeCompleted(n.id, SimExec(n, inputs))]
  }

  /** One event per fixture value, in ascending port order. */
  ghost function InputEvents(ext: map<string, Value>): (events: seq<Event>)
    ensures forall e :: e in events ==> e.InputEvent?
  {
    SortedKeysIn(ext);
    var ports := SortedKeys(ext.Keys);
    seq(|ports|, i requires 0 <= i < |ports| => InputEvent(ports[i], ext[ports[i]]))
  }

  /** The events of executing the nodes in the given order. */
  function RunEvents(w: Workflow, ext: map<string, Value>, order: seq<Id>): seq<Event> {
    if order == [] then []
    else
      var front, id := order[..|order| - 1], order[|order| - 1];
      var nodes := NodesById(w.nodes);
      RunEvents(w, ext, front)
      + (if id in nodes then NodeEvents(nodes[id], Gather(w.edges, id, ext, Run(w, ext, SimExec, front))) else [])
  }

  /** One event per workflow output, in ascending port order. */
  ghost function OutputEvents(outputs: map<string, Value>): (events: seq<Event>)
    ensures forall e :: e in events ==> e.OutputEvent?
  {
    SortedKeysIn(outputs);
    var ports := SortedKeys(outputs.Keys);
    seq(|ports|, i requires 0 <= i < |ports| => OutputEvent(ports[i], outputs[ports[i]]))
  }

  /** The ids of the completion events, in order. */
  function CompletedIds(events: seq<Event>): seq<Id> {
    if events == [] then []
    else
      var last := events[|events| - 1];
      CompletedIds(events[..|events| - 1]) + (if last.NodeCompleted? then [last.nodeId] else [])
  }

  lemma {:induction false} CompletedIdsAppend(a: seq<Event>, b: seq<Event>)
    ensures CompletedIds(a + b) == CompletedIds(a) + CompletedIds(b)
  {
    if b == [] {
      assert a + b == a;
    } else {
      CompletedIdsAppend(a, b[..|b| - 1]);
      assert (a + b)[..|a + b| - 1] == a + b[..|b| - 1];
    }
  }

  lemma {:induction false} NoneCompleted(events: seq<Event>)
    requires forall e :: e in events ==> !e.NodeCompleted?
    ensures CompletedIds(events) == []
  {
    if events != [] {
      NoneCompleted(events[..|events| - 1]);
    }
  }

  lemma {:induction false} StartEventsKind(n: Node, inputs: map<string, Value>, rounds: nat)
    ensures forall e :: e in StartEvents(n, inputs, rounds) ==> e.NodeStarted?
  {
    if rounds > 0 {
      StartEventsKind(n, inputs, rounds - 1);
    }
  }

  lemma NodeCompletesOnce(n: Node, inputs: map<string, Value>)
    ensures CompletedIds(NodeEvents(n, inputs)) == [n.id]
  {
    var before := NodeEvents(n, inputs)[..|NodeEvents(n, inputs)| - 1];
    StartEventsKind(n, inputs, Rounds(n));
    NoneCompleted(before);
    assert NodeEvents(n, inputs) == before + [NodeCompleted(n.id, SimExec(n, inputs))];
  }

  // ----- the order of execution -------------------------------------------------

  predicate NodeLe(a: Node, b: Node) {
    StrLe(a.id, b.id)
  }

  function SortedNodes(w: Workflow): seq<Node> {
    Sort(w.nodes, NodeLe)
  }

  /** The order in which ready-first passes over the sorted nodes complete them. */
  function Order(w: Workflow, available: set<string>): seq<Id> {
    Passes(IdsOf(SortedNodes(w)), NeedsOf(w, available), [])
  }

  lemma SortedNodesSame(w: Workflow)
    ensures forall n :: n in SortedNodes(w) <==> n in w.nodes
    ensures Elements(IdsOf(SortedNodes(w))) == NodeIds(w)
  {
    SortMultiset(w.nodes, NodeLe);
    var s := SortedNodes(w);
    forall id | id in Elements(IdsOf(s)) ensures id in NodeIds(w) {
      var i :| 0 <= i < |s| && IdsOf(s)[i] == id;
      assert s[i] in w.nodes;
      var j :| 0 <= j < |w.nodes| && w.nodes[j] == s[i];
      assert IdsOf(w.nodes)[j] == id;
    }
    forall id | id in NodeIds(w) ensures id in Elements(IdsOf(s)) {
      var i :| 0 <= i < |w.nodes| && IdsOf(w.nodes)[i] == id;
      assert w.nodes[i] in s;
      var j :| 0 <= j < |s| && s[j] == w.nodes[i];
      assert IdsOf(s)[j] == id;
    }
  }

  function SourceText(s: Source): string {
    match s
    case NodeOutput(nodeId, port) => nodeId + "/" + port
    case WorkflowInput(port) => "/" + port
  }

  /** The simulator orders edges by target port, then by source. */
  predicate EdgeLe(a: Edge, b: Edge) {
    if a.target.port != b.target.port then StrLe(a.target.port, b.target.port)
    else StrLe(SourceText(a.source), SourceText(b.source))
  }

  predicate PortLe(a: Edge, b: Edge) {
    StrLe(a.target.port, b.target.port)
  }

  function Incoming(edges: seq<Edge>, id: Id): seq<Edge> {
    if edges == [] then []
    else (if Feeds(edges[0], id) then [edges[0]] else []) + Incoming(edges[1..], id)
  }

  lemma {:induction false} IncomingSpec(edges: seq<Edge>, id: Id)
    ensures forall e :: e in Incoming(edges, id) <==> e in edges && Feeds(e, id)
    ensures UniqueTargets(edges) ==> UniqueTargets(Incoming(edges, id))
  {
    if edges != [] {
      IncomingSpec(edges[1..], id);
      if UniqueTargets(edges) {
        assert UniqueTargets(edges[1..]);
        forall e | e in Incoming(edges[1..], id) ensures e.target != edges[0].target {
          var i :| 0 <= i < |edges[1..]| && edges[1..][i] == e;
          assert edges[i + 1] == e;
        }
      }
    }
  }

  lemma UniqueTargetsPermute(left: seq<Edge>, right: seq<Edge>)
    requires UniqueTargets(left) && multiset(left) == multiset(right)
    ensures UniqueTargets(right)
  {
    assert Distinct(left);
    DistinctPermutation(left, right);
    forall i, j | 0 <= i < j < |right| ensures right[i].target != right[j].target {
      assert right[i] in multiset(left) && right[j] in multiset(left);
    }
  }

  /** The edges the simulator uses to fill the inputs of a node. */
  function OrderedIncoming(w: Workflow, id: Id): seq<Edge> {
    Sort(Incoming(Sort(w.edges, EdgeLe), id), PortLe)
  }

  lemma OrderedIncomingSpec(w: Workflow, id: Id)
    ensures forall e :: e in OrderedIncoming(w, id) <==> e in w.edges && Feeds(e, id)
    ensures UniqueTargets(w.edges) ==> UniqueTargets(OrderedIncoming(w, id))
  {
    var sorted := Sort(w.edges, EdgeLe);
    SortMultiset(w.edges, EdgeLe);
    IncomingSpec(sorted, id);
    SortMultiset(Incoming(sorted, id), PortLe);
    if UniqueTargets(w.edges) {
      UniqueTargetsPermute(w.edges, sorted);
      UniqueTargetsPermute(Incoming(sorted, id), OrderedIncoming(w, id));
    }
  }

  /** The readiness test of the scheduler loops. */
  predicate EdgeReady<V>(e: Edge, ext: map<string, V>, outs: map<Id, map<string, V>>) {
    match e.source
    case WorkflowInput(port) => port in ext
    case NodeOutput(nodeId, _) => nodeId in outs
  }

  lemma ReadyTest<V>(w: Workflow, incoming: seq<Edge>, ext: map<string, V>, outs: map<Id, map<string, V>>,
      order: seq<Id>, id: Id)
    requires id in NodeIds(w) && outs.Keys == Elements(order)
    requires forall e :: e in incoming <==> e in w.edges && Feeds(e, id)
    ensures (forall e :: e in incoming ==> EdgeReady(e, ext, outs)) <==> Ready(NeedsOf(w, ext.Keys), order, id)
  {
    if forall e :: e in incoming ==> EdgeReady(e, ext, outs) {
      forall m | m in UpstreamOf(w, id) ensures m in order {
        var e :| e in w.edges && Feeds(e, id) && e.source.NodeOutput? && e.source.nodeId == m;
        assert e in incoming;
        assert m in Elements(order);
      }
      assert InputsAvailable(w, ext.Keys, id) by {
        forall e | e in w.edges && Feeds(e, id) && e.source.WorkflowInput? ensures e.source.port in ext.Keys {
          assert e in incoming;
        }
      }
    }
    if Ready(NeedsOf(w, ext.Keys), order, id) {
      forall e | e in incoming ensures EdgeReady(e, ext, outs) {
        if e.source.NodeOutput? {
          assert e.source.nodeId in UpstreamOf(w, id);
          assert e.source.nodeId in Elements(order);
        }
      }
    }
  }

  /** The loop that fills the inputs of a node. */
  method GatherInputs<V>(incoming: seq<Edge>, id: Id, ext: map<string, V>, outs: map<Id, map<string, V>>)
    returns (inputs: map<string, V>, complete: bool)
    requires forall e :: e in incoming ==> Feeds(e, id)
    ensures inputs == Gather(incoming, id, ext, outs)
    ensures complete <==> forall e :: e in incoming ==> Carried(e.source, ext, outs).Some?
  {
    inputs, complete := map[], true;
    var i := 0;
    while i < |incoming|
      invariant 0 <= i <= |incoming|
      invariant inputs == Gather(incoming[..i], id, ext, outs)
      invariant complete <==> forall k :: 0 <= k < i ==> Carried(incoming[k].source, ext, outs).Some?
    {
      var e := incoming[i];
      assert incoming[..i + 1][..i] == incoming[..i];
      match Carried(e.source, ext, outs) {
        case Some(v) => inputs := inputs[e.target.port := v];
        case None => inputs, complete := inputs - {e.target.port}, false;
      }
      i := i + 1;
    }
    assert incoming[..|incoming|] == incoming;
  }

  /** One node: the round events, the side-effect note and the completion. */
  method SimulateNode(n: Node, inputs: map<string, Value>) returns (events: seq<Event>, produced: map<string, Value>)
    ensures events == NodeEvents(n, inputs) && produced == SimExec(n, inputs)
  {
    events := [];
    var round := 1;
    while round <= Rounds(n)
      invariant 1 <= round <= Rounds(n) + 1
      invariant events == StartEvents(n, inputs, round - 1)
    {
      events := events + [NodeStarted(n.id, if n.kind == Loop then Some(round) else None, inputs)];
      round := round + 1;
    }
    if n.kind == SideEffect {
      events := events + [SideEffectSkipped(n.id, if n.operation.Some? then n.operation.value else "unknown")];
    }
    produced := SimExec(n, inputs);
    events := events + [NodeCompleted(n.id, produced)];
  }

  // ----- the simulation ---------------------------------------------------------

  ghost predicate Supplied(w: Workflow, ext: map<string, Value>) {
    Valid(w) && w.inputs.Keys <= ext.Keys
  }

  /** What is known between two executed nodes, for any workflow. */
  ghost predicate OrderState(w: Workflow, available: set<string>, order: seq<Id>, executed: set<Id>,
      remaining: set<Id>, events: seq<Event>)
  {
    && InOrder(NeedsOf(w, available), order)
    && (forall id :: id in order ==> id in NodesById(w.nodes))
    && executed == Elements(order)
    && remaining == NodeIds(w) - Elements(order)
    && CompletedIds(events) == order
  }

  /** What is known in addition for a valid workflow: outputs and events follow from the order. */
  ghost predicate ValueState(w: Workflow, ext: map<string, Value>, order: seq<Id>,
      outs: map<Id, map<string, Value>>, events: seq<Event>)
  {
    Supplied(w, ext) ==>
      outs == Run(w, ext, SimExec, order)
      && events == InputEvents(ext) + RunEvents(w, ext, order)
  }

  lemma SortedKeysIn<V>(m: map<string, V>)
    ensures forall p :: p in SortedKeys(m.Keys) <==> p in m
  {
    forall p ensures p in SortedKeys(m.Keys) <==> p in m {
      assert p in Elements(SortedKeys(m.Keys)) <==> p in m.Keys;
    }
  }

  lemma {:induction false} RunDeclares(w: Workflow, ext: map<string, Value>, order: seq<Id>)
    ensures DeclaredOutputs(w, Run(w, ext, SimExec, order))
    decreases |order|
  {
    if order != [] {
      RunDeclares(w, ext, order[..|order| - 1]);
    }
  }

  /** In a valid workflow the rearranged edges give the canonical inputs, all of them defined. */
  lemma CanonicalInputs(w: Workflow, ext: map<string, Value>, order: seq<Id>, id: Id)
    requires Supplied(w, ext) && InOrder(NeedsOf(w, ext.Keys), order) && Ready(NeedsOf(w, ext.Keys), order, id)
    requires forall x :: x in order ==> x in NodesById(w.nodes)
    ensures var outs := Run(w, ext, SimExec, order);
      && Gather(OrderedIncoming(w, id), id, ext, outs) == Gather(w.edges, id, ext, outs)
      && forall e :: e in OrderedIncoming(w, id) ==> Carried(e.source, ext, outs).Some?
  {
    var outs := Run(w, ext, SimExec, order);
    ValidUniqueTargets(w);
    OrderedIncomingSpec(w, id);
    RunDeclares(w, ext, order);
    RunKeys(w, ext, SimExec, order);
    forall m | m in UpstreamOf(w, id) ensures m in outs {
      assert m in order;
    }
    ReadyReceivesAllInputs(w, ext, outs, id);
    GatherSame(OrderedIncoming(w, id), w.edges, id, ext, outs, outs);
  }

  lemma OrderStep(w: Workflow, available: set<string>, order: seq<Id>, executed: set<Id>,
      remaining: set<Id>, events: seq<Event>, n: Node, inputs: map<string, Value>)
    requires OrderState(w, available, order, executed, remaining, events)
    requires n.id in NodesById(w.nodes) && n.id in remaining && Ready(NeedsOf(w, available), order, n.id)
    ensures OrderState(w, available, order + [n.id], executed + {n.id}, remaining - {n.id},
                       events + NodeEvents(n, inputs))
  {
    hide NeedsOf, NodeEvents, CompletedIds, Ready;
    assert n.id !in Elements(order);
    ConsiderKeeps(NeedsOf(w, available), order, n.id);
    CompletedIdsAppend(events, NodeEvents(n, inputs));
    NodeCompletesOnce(n, inputs);
    assert Elements(order + [n.id]) == Elements(order) + {n.id};
  }

  lemma ValueStep(w: Workflow, ext: map<string, Value>, order: seq<Id>, outs: map<Id, map<string, Value>>,
      events: seq<Event>, n: Node, inputs: map<string, Value>)
    requires InOrder(NeedsOf(w, ext.Keys), order) && Ready(NeedsOf(w, ext.Keys), order, n.id)
    requires forall id :: id in order ==> id in NodesById(w.nodes)
    requires ValueState(w, ext, order, outs, events)
    requires n in w.nodes && inputs == Gather(OrderedIncoming(w, n.id), n.id, ext, outs)
    ensures ValueState(w, ext, order + [n.id], outs[n.id := SimExec(n, inputs)], events + NodeEvents(n, inputs))
  {
    if Supplied(w, ext) {
      CanonicalInputs(w, ext, order, n.id);
      NodesByIdUnique(w.nodes, n);
      RunAppend(w, ext, SimExec, order, n.id);
      RunEventsAppend(w, ext, order, n.id);
    }
  }

  lemma RunEventsAppend(w: Workflow, ext: map<string, Value>, order: seq<Id>, id: Id)
    requires id in NodesById(w.nodes)
    ensures InputEvents(ext) + RunEvents(w, ext, order + [id])
      == InputEvents(ext) + RunEvents(w, ext, order)
         + NodeEvents(NodesById(w.nodes)[id], Gather(w.edges, id, ext, Run(w, ext, SimExec, order)))
  {
    var longer := order + [id];
    assert longer[|longer| - 1] == id && longer[..|longer| - 1] == order;
  }

  /** The trace of a valid workflow: the fixture, the nodes in scheduling order, the outputs. */
  ghost predicate TraceOf(w: Workflow, ext: map<string, Value>, t: Trace) {
    var outs := Run(w, ext, SimExec, Order(w, ext.Keys));
    && t.workflowId == w.id && t.workflowVersion == w.version
    && t.outputs.Keys == w.outputs.Keys
    && (forall p :: p in w.outputs ==> OutputValue(w.edges, p, ext, outs) == Some(t.outputs[p]))
    && t.events == InputEvents(ext) + RunEvents(w, ext, Order(w, ext.Keys))
                 + OutputEvents(t.outputs)
  }

  lemma OrderIsComplete(w: Workflow, ext: map<string, Value>)
    requires Supplied(w, ext)
    ensures IsSchedule(w, ext.Keys, Order(w, ext.Keys))
    ensures Elements(Order(w, ext.Keys)) == NodeIds(w)
    ensures forall id :: id in Order(w, ext.Keys) ==> id in NodesById(w.nodes)
  {
    SortedNodesSame(w);
    NoStall(w, ext.Keys, IdsOf(SortedNodes(w)));
    ScheduleNodes(w, ext.Keys, Order(w, ext.Keys));
  }

  /** The variables of the scheduler loop. */
  datatype Progress = Progress(outs: map<Id, map<string, Value>>, remaining: set<Id>, events: seq<Event>)

  ghost predicate Consistent(w: Workflow, ext: map<string, Value>, order: seq<Id>, s: Progress) {
    && OrderState(w, ext.Keys, order, s.outs.Keys, s.remaining, s.events)
    && ValueState(w, ext, order, s.outs, s.events)
  }

  /** The body of the scan: skip a finished or waiting node, execute a ready one. */
  method ConsiderNode(w: Workflow, ext: map<string, Value>, node: Node, s: Progress, ghost order: seq<Id>)
    returns (r: Result<Progress, SimulationError>, progressed: bool)
    requires node in w.nodes && node.id in NodeIds(w) && node.id in NodesById(w.nodes)
    requires Consistent(w, ext, order, s)
    ensures r.Err? ==> !Supplied(w, ext) && r.error == UndefinedInput(node.id)
    ensures r.Ok? ==> Consistent(w, ext, Consider(NeedsOf(w, ext.Keys), order, node.id), r.value)
    ensures r.Ok? ==> (progressed <==> Consider(NeedsOf(w, ext.Keys), order, node.id) != order)
  {
    OrderStateFacts(w, ext.Keys, order, s.outs.Keys, s.remaining, s.events);
    var incoming := OrderedIncoming(w, node.id);
    OrderedIncomingSpec(w, node.id);
    ReadyTest(w, incoming, ext, s.outs, order, node.id);
    hide OrderState, ValueState, Supplied, NeedsOf, OrderedIncoming, Ready;
    if node.id !in s.remaining {
      return Ok(s), false;
    }
    if exists e | e in incoming :: !EdgeReady(e, ext, s.outs) {
      return Ok(s), false;
    }
    var inputs, complete := GatherInputs(incoming, node.id, ext, s.outs);
    if !complete {
      IncompleteMeansUnsupplied(w, ext, order, s.outs, s.events, node.id);
      return Err(UndefinedInput(node.id)), false;
    }
    var found, produced := SimulateNode(node, inputs);
    OrderStep(w, ext.Keys, order, s.outs.Keys, s.remaining, s.events, node, inputs);
    ValueStep(w, ext, order, s.outs, s.events, node, inputs);
    var outs := s.outs[node.id := produced];
    assert outs.Keys == s.outs.Keys + {node.id};
    return Ok(Progress(outs, s.remaining - {node.id}, s.events + found)), true;
  }

  /** One scan over the sorted nodes. */
  method ScanNodes(w: Workflow, ext: map<string, Value>, sortedNodes: seq<Node>, s: Progress, ghost order: seq<Id>)
    returns (r: Result<Progress, SimulationError>, progressed: bool)
    requires sortedNodes == SortedNodes(w) && Consistent(w, ext, order, s)
    ensures r.Err? ==> !Supplied(w, ext) && r.error.UndefinedInput?
    ensures r.Ok? ==> Consistent(w, ext, Pass(IdsOf(sortedNodes), NeedsOf(w, ext.Keys), order), r.value)
    ensures r.Ok? ==> (progressed <==> Pass(IdsOf(sortedNodes), NeedsOf(w, ext.Keys), order) != order)
  {
    SortedNodesSame(w);
    NodesByIdKeys(w.nodes);
    ghost var needs, items, done := NeedsOf(w, ext.Keys), IdsOf(sortedNodes), order;
    var state := s;
    progressed := false;
    hide Consistent, Supplied, NeedsOf, SortedNodes, Consider;
    var i := 0;
    while i < |sortedNodes|
      invariant 0 <= i <= |sortedNodes|
      invariant Consistent(w, ext, done, state)
      invariant |order| <= |done| && (done == order || |order| < |done|)
      invariant progressed <==> done != order
      invariant Pass(items[i..], needs, done) == Pass(items, needs, order)
    {
      var node := sortedNodes[i];
      assert node in w.nodes && items[i] == node.id && items[i] in Elements(items);
      DropFront(items, i);
      var next, took := ConsiderNode(w, ext, node, state, done);
      if next.Err? {
        return next, progressed;
      }
      ConsiderGrows(needs, done, node.id);
      state, progressed, done := next.value, progressed || took, Consider(needs, done, node.id);
      i := i + 1;
    }
    return Ok(state), progressed;
  }

  lemma ConsiderGrows(needs: Requirements, done: seq<Id>, item: Id)
    ensures Consider(needs, done, item) == done || |Consider(needs, done, item)| == |done| + 1
  {
  }

  /** The main loop: scans until nothing remains or a scan makes no progress. */
  method RunNodes(w: Workflow, ext: map<string, Value>, start: Progress) returns (r: Result<Progress, SimulationError>)
    requires Consistent(w, ext, [], start)
    ensures r.Err? ==> !Supplied(w, ext) && r.error.UndefinedInput?
    ensures r.Ok? ==> Consistent(w, ext, Order(w, ext.Keys), r.value)
  {
    var s := start;
    var sortedNodes := SortedNodes(w);
    ghost var needs, items, order := NeedsOf(w, ext.Keys), IdsOf(sortedNodes), [];
    assert Order(w, ext.Keys) == Passes(items, needs, order);
    var progressed := true;
    hide Consistent, Supplied, NeedsOf, SortedNodes, Pass, Passes, Order, Missing;
    while s.remaining != {} && progressed
      invariant Consistent(w, ext, order, s)
      invariant Passes(items, needs, order) == Order(w, ext.Keys)
      invariant !progressed ==> Pass(items, needs, order) == order
      decreases |Missing(items, order)|, if progressed then 1 else 0
    {
      PassesStep(items, needs, order);
      var next, took := ScanNodes(w, ext, sortedNodes, s, order);
      if next.Err? {
        return next;
      }
      s, progressed, order := next.value, took, Pass(items, needs, order);
    }
    FinalOrder(w, ext, order, s);
    return Ok(s);
  }

  lemma EventsOfInputs(ext: map<string, Value>, events: seq<Event>)
    requires var ports := SortedKeys(ext.Keys);
      |events| == |ports| && forall k :: 0 <= k < |ports| ==>
        ports[k] in ext && events[k] == InputEvent(ports[k], ext[ports[k]])
    ensures events == InputEvents(ext)
  {
  }

  method EmitInputs(ext: map<string, Value>) returns (events: seq<Event>)
    ensures events == InputEvents(ext)
  {
    var ports := EnumerateSorted(ext.Keys);
    SortedKeysIn(ext);
    hide InputEvents, SortedKeys;
    events := [];
    var i := 0;
    while i < |ports|
      invariant 0 <= i <= |ports| && |events| == i
      invariant forall k :: 0 <= k < i ==> events[k] == InputEvent(ports[k], ext[ports[k]])
    {
      assert ports[i] in ports;
      events := events + [InputEvent(ports[i], ext[ports[i]])];
      i := i + 1;
    }
    forall k | 0 <= k < |ports| ensures ports[k] in ext {
      assert ports[k] in ports;
    }
    EventsOfInputs(ext, events);
  }

  /** Runs a workflow on a fixture. A valid workflow with its inputs supplied always completes. */
  method SimulateDeterministic(w: Workflow, ext: map<string, Value>) returns (r: Result<Trace, SimulationError>)
    ensures Supplied(w, ext) ==> r.Ok? && TraceOf(w, ext, r.value)
    ensures r.Ok? ==> CompletedIds(r.value.events) == Order(w, ext.Keys) && Elements(Order(w, ext.Keys)) == NodeIds(w)
    ensures r.Err? && r.error.Stalled? ==>
      r.error.remaining == NodeIds(w) - Elements(Order(w, ext.Keys)) && r.error.remaining != {}
    ensures r.Err? && !r.error.Stalled? && !r.error.UndefinedInput? ==>
      NamesOutput(w, r.error) && Elements(Order(w, ext.Keys)) == NodeIds(w)
  {
    var events := EmitInputs(ext);
    Initially(w, ext);
    hide NamesOutput, Order, TraceOf, CompletedIds, Consistent;
    var ran := RunNodes(w, ext, Progress(map[], NodeIds(w), events));
    if ran.Err? {
      return Err(ran.error);
    }
    var s := ran.value;
    FinalState(w, ext, s);
    if s.remaining != {} {
      return Err(Stalled(s.remaining));
    }
    r := ProduceOutputs(w, ext, s);
  }

  lemma OrderStateFacts(w: Workflow, available: set<string>, order: seq<Id>, executed: set<Id>,
      remaining: set<Id>, events: seq<Event>)
    requires OrderState(w, available, order, executed, remaining, events)
    ensures InOrder(NeedsOf(w, available), order) && executed == Elements(order)
    ensures forall id :: id in NodeIds(w) ==> (id in remaining <==> id !in order)
    ensures forall id :: id in order ==> id in NodesById(w.nodes)
    ensures CompletedIds(events) == order && remaining == NodeIds(w) - Elements(order)
  {
  }

  lemma IncompleteMeansUnsupplied(w: Workflow, ext: map<string, Value>, order: seq<Id>,
      outs: map<Id, map<string, Value>>, events: seq<Event>, id: Id)
    requires InOrder(NeedsOf(w, ext.Keys), order) && Ready(NeedsOf(w, ext.Keys), order, id)
    requires forall x :: x in order ==> x in NodesById(w.nodes)
    requires ValueState(w, ext, order, outs, events)
    requires !forall e :: e in OrderedIncoming(w, id) ==> Carried(e.source, ext, outs).Some?
    ensures !Supplied(w, ext)
  {
    if Supplied(w, ext) {
      CanonicalInputs(w, ext, order, id);
    }
  }

  lemma Initially(w: Workflow, ext: map<string, Value>)
    ensures Consistent(w, ext, [], Progress(map[], NodeIds(w), InputEvents(ext)))
  {
    hide InputEvents, SimExec, NeedsOf, Supplied, NodeIds;
    NoneCompleted(InputEvents(ext));
    assert Elements<Id>([]) == {};
  }

  /** When the loop stops, the nodes executed are those the passes take. */
  lemma FinalOrder(w: Workflow, ext: map<string, Value>, order: seq<Id>, s: Progress)
    requires Consistent(w, ext, order, s)
    requires Passes(IdsOf(SortedNodes(w)), NeedsOf(w, ext.Keys), order) == Order(w, ext.Keys)
    requires s.remaining == {} || Pass(IdsOf(SortedNodes(w)), NeedsOf(w, ext.Keys), order) == order
    ensures order == Order(w, ext.Keys)
  {
    SortedNodesSame(w);
    NodesByIdKeys(w.nodes);
    OrderStateFacts(w, ext.Keys, order, s.outs.Keys, s.remaining, s.events);
    if s.remaining == {} {
      forall x | x in IdsOf(SortedNodes(w)) ensures x in order {
        assert x in Elements(IdsOf(SortedNodes(w)));
      }
      NothingMissing(IdsOf(SortedNodes(w)), NeedsOf(w, ext.Keys), order);
    }
  }

  lemma FinalState(w: Workflow, ext: map<string, Value>, s: Progress)
    requires Consistent(w, ext, Order(w, ext.Keys), s)
    ensures s.remaining == NodeIds(w) - Elements(Order(w, ext.Keys))
    ensures Supplied(w, ext) ==> s.remaining == {}
    ensures s.remaining == {} ==> Elements(Order(w, ext.Keys)) == NodeIds(w)
  {
    var order := Order(w, ext.Keys);
    OrderStateFacts(w, ext.Keys, order, s.outs.Keys, s.remaining, s.events);
    NodesByIdKeys(w.nodes);
    if Supplied(w, ext) {
      OrderIsComplete(w, ext);
    }
  }

  lemma SortedEdgesSame(w: Workflow)
    requires Valid(w)
    ensures forall t :: FirstInto(Sort(w.edges, EdgeLe), t) == FirstInto(w.edges, t)
  {
    ValidUniqueTargets(w);
    SortMultiset(w.edges, EdgeLe);
    hide Valid, Sort, UniqueTargets, FirstInto;
    forall t ensures FirstInto(Sort(w.edges, EdgeLe), t) == FirstInto(w.edges, t) {
      FirstIntoSame(Sort(w.edges, EdgeLe), w.edges, t);
    }
  }

  lemma OutputDelivered(w: Workflow, ext: map<string, Value>, s: Progress, port: string)
    requires Supplied(w, ext) && Consistent(w, ext, Order(w, ext.Keys), s) && port in w.outputs
    ensures OutputValue(Sort(w.edges, EdgeLe), port, ext, s.outs).Some?
    ensures OutputValue(w.edges, port, ext, s.outs) == OutputValue(Sort(w.edges, EdgeLe), port, ext, s.outs)
  {
    OrderIsComplete(w, ext);
    RunDeclares(w, ext, Order(w, ext.Keys));
    OutputsProduced(w, ext, s.outs, port);
    SortedEdgesSame(w);
  }

  /** The outputs collected for the given ports, with their events. */
  ghost predicate OutputsSoFar(w: Workflow, ports: seq<string>, ext: map<string, Value>,
      outs: map<Id, map<string, Value>>, outputs: map<string, Value>, events: seq<Event>)
  {
    && |events| == |ports|
    && (forall p :: p in outputs <==> p in ports)
    && (forall p :: p in ports ==> OutputValue(w.edges, p, ext, outs) == Some(outputs[p]))
    && (forall k :: 0 <= k < |ports| ==> events[k] == OutputEvent(ports[k], outputs[ports[k]]))
  }

  lemma NoOutputsYet(w: Workflow, ext: map<string, Value>, outs: map<Id, map<string, Value>>)
    ensures OutputsSoFar(w, [], ext, outs, map[], [])
  {
  }

  lemma OutputStep(w: Workflow, ports: seq<string>, ext: map<string, Value>, outs: map<Id, map<string, Value>>,
      outputs: map<string, Value>, events: seq<Event>, port: string, value: Value)
    requires OutputsSoFar(w, ports, ext, outs, outputs, events)
    requires OutputValue(w.edges, port, ext, outs) == Some(value)
    ensures OutputsSoFar(w, ports + [port], ext, outs, outputs[port := value], events + [OutputEvent(port, value)])
  {
    hide OutputValue;
    var grown := outputs[port := value];
    forall p | p in ports + [port] ensures OutputValue(w.edges, p, ext, outs) == Some(grown[p]) {
      assert p in ports || p == port;
    }
    forall k | 0 <= k < |ports| ensures grown[ports[k]] == outputs[ports[k]] {
      assert ports[k] in ports;
    }
  }

  lemma TraceAssembled(w: Workflow, ext: map<string, Value>, s: Progress,
      outputs: map<string, Value>, events: seq<Event>)
    requires Supplied(w, ext) && Consistent(w, ext, Order(w, ext.Keys), s)
    requires OutputsSoFar(w, SortedKeys(w.outputs.Keys), ext, s.outs, outputs, events)
    ensures TraceOf(w, ext, Trace(w.id, w.version, s.events + events, outputs))
  {
    hide Order, Run, OutputValue, RunEvents, OrderState, Valid, NeedsOf, InputEvents, SortedKeys, Elements,
      OutputEvents;
    SameKeys(w, outputs);
    EventsOfOutputs(outputs, events);
    SortedKeysIn(w.outputs);
  }

  lemma SameKeys(w: Workflow, outputs: map<string, Value>)
    requires forall p :: p in outputs <==> p in SortedKeys(w.outputs.Keys)
    ensures outputs.Keys == w.outputs.Keys
  {
    SortedKeysIn(w.outputs);
  }

  lemma EventsOfOutputs(outputs: map<string, Value>, events: seq<Event>)
    requires var ports := SortedKeys(outputs.Keys);
      |events| == |ports| && forall k :: 0 <= k < |ports| ==>
        ports[k] in outputs && events[k] == OutputEvent(ports[k], outputs[ports[k]])
    ensures events == OutputEvents(outputs)
  {
  }

  lemma OnlyOutputs(a: seq<Event>, b: seq<Event>)
    requires forall e :: e in b ==> e.OutputEvent?
    ensures CompletedIds(a + b) == CompletedIds(a)
  {
    CompletedIdsAppend(a, b);
    NoneCompleted(b);
  }

  /** What a refusal says of one output: no edge leads to it, or the one that does brings nothing. */
  ghost predicate OutputFault(edges: seq<Edge>, port: string, error: SimulationError) {
    if exists e :: e in edges && e.target == WorkflowOutput(port) then error == OutputNotProduced(port)
    else error == OutputMissingProducer(port)
  }

  ghost predicate NamesOutput(w: Workflow, error: SimulationError) {
    exists port :: port in w.outputs && OutputFault(w.edges, port, error)
  }

  /** The value of one workflow output: the first edge into it, then what its source carries. */
  method LookupOutput(edges: seq<Edge>, port: string, ext: map<string, Value>, outs: map<Id, map<string, Value>>)
    returns (r: Result<Value, SimulationError>)
    ensures r.Ok? <==> OutputValue(edges, port, ext, outs).Some?
    ensures r.Ok? ==> OutputValue(edges, port, ext, outs) == Some(r.value)
    ensures r.Err? ==> OutputFault(edges, port, r.error)
  {
    var edge := FirstInto(edges, WorkflowOutput(port));
    FirstIntoSpec(edges, WorkflowOutput(port));
    if edge.None? {
      return Err(OutputMissingProducer(port));
    }
    var value := Carried(edge.value.source, ext, outs);
    if value.None? {
      return Err(OutputNotProduced(port));
    }
    return Ok(value.value);
  }

  /** The final loop over the declared outputs. */
  method CollectOutputs(w: Workflow, ext: map<string, Value>, s: Progress, ports: seq<string>)
    returns (outputs: map<string, Value>, events: seq<Event>, error: Option<SimulationError>)
    requires Consistent(w, ext, Order(w, ext.Keys), s) && forall p :: p in ports ==> p in w.outputs
    ensures Supplied(w, ext) ==> error.None? && OutputsSoFar(w, ports, ext, s.outs, outputs, events)
    ensures forall e :: e in events ==> e.OutputEvent?
    ensures error.Some? ==> NamesOutput(w, error.value) && !error.value.Stalled?
  {
    var sortedEdges := Sort(w.edges, EdgeLe);
    SortMultiset(w.edges, EdgeLe);
    outputs, events, error := map[], [], None;
    NoOutputsYet(w, ext, s.outs);
    TakeAll(ports);
    hide Supplied, OutputsSoFar, OutputValue, Consistent, Order, Sort;
    var i := 0;
    while i < |ports|
      invariant 0 <= i <= |ports|
      invariant forall e :: e in events ==> e.OutputEvent?
      invariant Supplied(w, ext) ==> OutputsSoFar(w, ports[..i], ext, s.outs, outputs, events)
    {
      var port := ports[i];
      assert port in ports;
      TakeMore(ports, i);
      if Supplied(w, ext) {
        OutputDelivered(w, ext, s, port);
      }
      var found := LookupOutput(sortedEdges, port, ext, s.outs);
      if found.Err? {
        assert OutputFault(w.edges, port, found.error);
        return outputs, events, Some(found.error);
      }
      if Supplied(w, ext) {
        OutputStep(w, ports[..i], ext, s.outs, outputs, events, port, found.value);
      }
      outputs, events := outputs[port := found.value], events + [OutputEvent(port, found.value)];
      i := i + 1;
    }
  }

  method ProduceOutputs(w: Workflow, ext: map<string, Value>, s: Progress) returns (r: Result<Trace, SimulationError>)
    requires Consistent(w, ext, Order(w, ext.Keys), s)
    ensures Supplied(w, ext) ==> r.Ok? && TraceOf(w, ext, r.value)
    ensures r.Ok? ==> CompletedIds(r.value.events) == Order(w, ext.Keys)
    ensures r.Err? ==> NamesOutput(w, r.error) && !r.error.Stalled?
  {
    var ports := EnumerateSorted(w.outputs.Keys);
    SortedKeysIn(w.outputs);
    OrderStateFacts(w, ext.Keys, Order(w, ext.Keys), s.outs.Keys, s.remaining, s.events);
    hide NamesOutput, Supplied, Consistent, Order, TraceOf, CompletedIds, OutputsSoFar;
    var outputs, events, error := CollectOutputs(w, ext, s, ports);
    if error.Some? {
      return Err(error.value);
    }
    OnlyOutputs(s.events, events);
    if Supplied(w, ext) {
      TraceAssembled(w, ext, s, outputs, events);
    }
    return Ok(Trace(w.id, w.version, s.events + events, outputs));
  }

  // ----- what a trace means -----------------------------------------------------

  lemma {:induction false} RunEventsComplete(w: Workflow, ext: map<string, Value>, order: seq<Id>)
    requires forall id :: id in order ==> id in NodesById(w.nodes)
    ensures CompletedIds(RunEvents(w, ext, order)) == order
    decreases |order|
  {
    if order != [] {
      var front, id := order[..|order| - 1], order[|order| - 1];
      hide RunEvents, CompletedIds, NodesById;
      RunEventsComplete(w, ext, front);
      CompletedAfter(w, ext, front, id);
      SplitLast(order);
    }
  }

  lemma CompletedAfter(w: Workflow, ext: map<string, Value>, front: seq<Id>, id: Id)
    requires CompletedIds(RunEvents(w, ext, front)) == front && id in NodesById(w.nodes)
    ensures CompletedIds(RunEvents(w, ext, front + [id])) == front + [id]
  {
    AppendSplit(front, id);
    var inputs := Gather(w.edges, id, ext, Run(w, ext, SimExec, front));
    NodeCompletes(w, id, inputs);
    hide NodeEvents, Gather, Run, NodesById, CompletedIds;
    CompletedIdsAppend(RunEvents(w, ext, front), NodeEvents(NodesById(w.nodes)[id], inputs));
  }

  lemma NodeCompletes(w: Workflow, id: Id, inputs: map<string, Value>)
    requires id in NodesById(w.nodes)
    ensures CompletedIds(NodeEvents(NodesById(w.nodes)[id], inputs)) == [id]
  {
    NodesByIdKeys(w.nodes);
    NodeCompletesOnce(NodesById(w.nodes)[id], inputs);
  }

  /** The outputs every node means, over the whole workflow. */
  ghost function Meaning(w: Workflow, ext: map<string, Value>): map<Id, map<string, Value>>
    requires Valid(w)
  {
    map id | id in NodeIds(w) :: Eval(w, ext, SimExec, id)
  }

  /** In the trace of a valid workflow every node completes exactly once, after everything it
      depends on, and every workflow output is what its edge carries in the meaning of the workflow. */
  lemma TraceMeaning(w: Workflow, ext: map<string, Value>, t: Trace)
    requires Supplied(w, ext) && TraceOf(w, ext, t)
    ensures IsSchedule(w, ext.Keys, CompletedIds(t.events)) && Elements(CompletedIds(t.events)) == NodeIds(w)
    ensures t.outputs.Keys == w.outputs.Keys
    ensures forall e :: e in w.edges && e.target.WorkflowOutput? ==>
      e.target.port in t.outputs && Carried(e.source, ext, Meaning(w, ext)) == Some(t.outputs[e.target.port])
  {
    OrderIsComplete(w, ext);
    TraceCompletes(w, ext, t);
    RunIsMeaning(w, ext);
    hide Order, Run, RunEvents, CompletedIds, InOrder, Meaning;
    forall e | e in w.edges && e.target.WorkflowOutput?
      ensures e.target.port in t.outputs && Carried(e.source, ext, Meaning(w, ext)) == Some(t.outputs[e.target.port])
    {
      OutputOfEdge(w, ext, t, e);
    }
  }

  lemma RunIsMeaning(w: Workflow, ext: map<string, Value>)
    requires Supplied(w, ext)
    ensures Run(w, ext, SimExec, Order(w, ext.Keys)) == Meaning(w, ext)
  {
    var order := Order(w, ext.Keys);
    OrderIsComplete(w, ext);
    ScheduleComputesEval(w, ext, SimExec, order);
    hide Order, Run, InOrder, NodesById, Supplied, Valid;
    var outs := Run(w, ext, SimExec, order);
    forall id ensures id in outs <==> id in NodeIds(w) {
      assert id in order <==> id in Elements(order);
    }
    assert outs.Keys == Meaning(w, ext).Keys;
  }

  lemma OutputOfEdge(w: Workflow, ext: map<string, Value>, t: Trace, e: Edge)
    requires Supplied(w, ext) && TraceOf(w, ext, t) && e in w.edges && e.target.WorkflowOutput?
    ensures e.target.port in t.outputs
    ensures Carried(e.source, ext, Run(w, ext, SimExec, Order(w, ext.Keys))) == Some(t.outputs[e.target.port])
  {
    ValidUniqueTargets(w);
    ValidEndpoints(w, e);
    FirstIntoFinds(w.edges, e);
    hide Order, Run, InOrder, RunEvents;
    assert e.target.port in w.outputs;
  }

  lemma TraceCompletes(w: Workflow, ext: map<string, Value>, t: Trace)
    requires Supplied(w, ext) && TraceOf(w, ext, t)
    ensures CompletedIds(t.events) == Order(w, ext.Keys)
  {
    OrderIsComplete(w, ext);
    RunEventsComplete(w, ext, Order(w, ext.Keys));
    hide Order, Run, RunEvents, CompletedIds, Valid, OutputValue, InputEvents, OutputEvents, Distinct;
    CompletedInTheMiddle(InputEvents(ext), RunEvents(w, ext, Order(w, ext.Keys)), OutputEvents(t.outputs));
  }

  lemma CompletedInTheMiddle(before: seq<Event>, middle: seq<Event>, after: seq<Event>)
    requires forall e :: e in before ==> e.InputEvent?
    requires forall e :: e in after ==> e.OutputEvent?
    ensures CompletedIds(before + middle + after) == CompletedIds(middle)
  {
    NoneCompleted(before);
    CompletedIdsAppend(before, middle);
    OnlyOutputs(before + middle, after);
  }

  lemma {:induction false} FirstIntoFinds(edges: seq<Edge>, e: Edge)
    requires UniqueTargets(edges) && e in edges
    ensures FirstInto(edges, e.target) == Some(e)
  {
    FirstIntoSpec(edges, e.target);
    var f := FirstInto(edges, e.target).value;
    var i :| 0 <= i < |edges| && edges[i] == e;
    var j :| 0 <= j < |edges| && edges[j] == f;
    assert i == j;
  }
}

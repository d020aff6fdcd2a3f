/** What a trace records of each node, of the inputs and of the outputs. */
module TraceRecords {
  import opened Graphs
  import opened Ordering
  import opened Outcomes
  import opened Workflows
  import opened MultiPass
  import opened Scheduling
  import opened Simulator

  /** What the node started: one event for each round, of which only a loop has more than one or a number. */
  ghost predicate Started(n: Node, inputs: map<string, Value>, starts: seq<Event>) {
    && |starts| == (if n.kind == Loop && n.maxRounds.Some? then n.maxRounds.value else 1)
    && forall k :: 0 <= k < |starts| ==>
      && starts[k].NodeStarted? && starts[k].nodeId == n.id && starts[k].inputs == inputs
      && (n.kind == Loop ==> starts[k].round == Some(k + 1))
      && (n.kind != Loop ==> starts[k].round == None)
  }

  /** A side effect is noted and not carried out. */
  ghost predicate Noted(n: Node, notes: seq<Event>) {
    && |notes| == (if n.kind == SideEffect then 1 else 0)
    && forall e :: e in notes ==>
      && e.SideEffectSkipped? && e.nodeId == n.id
      && (n.operation.Some? ==> e.operation == n.operation.value)
      && (n.operation.None? ==> e.operation == "unknown")
  }

  /** The node completed with one placeholder for each declared output, which names the node, the port, its type and
      the inputs. */
  ghost predicate Completed(n: Node, inputs: map<string, Value>, e: Event) {
    && e.NodeCompleted? && e.nodeId == n.id && e.outputs.Keys == n.outputs.Keys
    && forall p :: p in e.outputs && p in n.outputs ==>
      && e.outputs[p].Placeholder? && e.outputs[p].nodeId == n.id && e.outputs[p].port == p
      && e.outputs[p].typ == n.outputs[p].typ && e.outputs[p].schemaVersion == n.outputs[p].schemaVersion
      && e.outputs[p].inputs == inputs
  }

  /** All that one node leaves in a trace. */
  datatype Record = Record(starts: seq<Event>, notes: seq<Event>, end: Event)

  ghost predicate Describes(n: Node, inputs: map<string, Value>, r: Record) {
    Started(n, inputs, r.starts) && Noted(n, r.notes) && Completed(n, inputs, r.end)
  }

  function EventsOf(r: Record): seq<Event> {
    r.starts + r.notes + [r.end]
  }

  lemma {:induction false} StartsAre(n: Node, inputs: map<string, Value>, rounds: nat)
    ensures |StartEvents(n, inputs, rounds)| == rounds
    ensures forall k :: 0 <= k < rounds ==>
      StartEvents(n, inputs, rounds)[k] == NodeStarted(n.id, if n.kind == Loop then Some(k + 1) else None, inputs)
  {
    if rounds > 0 {
      StartsAre(n, inputs, rounds - 1);
    }
  }

  lemma NodeIsDescribed(n: Node, inputs: map<string, Value>) returns (r: Record)
    ensures NodeEvents(n, inputs) == EventsOf(r) && Describes(n, inputs, r)
  {
    StartsAre(n, inputs, Rounds(n));
    var operation := if n.operation.Some? then n.operation.value else "unknown";
    r := Record(StartEvents(n, inputs, Rounds(n)),
      if n.kind == SideEffect then [SideEffectSkipped(n.id, operation)] else [],
      NodeCompleted(n.id, SimExec(n, inputs)));
    hide StartEvents;
  }

  lemma Regroup<T>(a: seq<T>, b: seq<T>, c: seq<T>, d: seq<T>, e: seq<T>)
    ensures a + (b + c + d) + e == (a + b) + c + (d + e)
  {
  }

  /** The events of one node, given its inputs from the outputs so far. */
  function EventsAfter(w: Workflow, ext: map<string, Value>, front: seq<Id>, id: Id): seq<Event> {
    if id in NodesById(w.nodes)
    then NodeEvents(NodesById(w.nodes)[id], Gather(w.edges, id, ext, Run(w, ext, SimExec, front)))
    else []
  }

  lemma RunEventsLast(w: Workflow, ext: map<string, Value>, order: seq<Id>)
    requires order != []
    ensures var front, id := order[..|order| - 1], order[|order| - 1];
      RunEvents(w, ext, order) == RunEvents(w, ext, front) + EventsAfter(w, ext, front, id)
  {
    hide NodeEvents, Gather, Run, NodesById;
  }

  lemma {:induction false} RunEventsSplit(w: Workflow, ext: map<string, Value>, order: seq<Id>, k: nat)
    returns (after: seq<Event>)
    requires k < |order|
    ensures RunEvents(w, ext, order)
      == RunEvents(w, ext, order[..k]) + EventsAfter(w, ext, order[..k], order[k]) + after
    decreases |order|
  {
    var front, id := order[..|order| - 1], order[|order| - 1];
    RunEventsLast(w, ext, order);
    hide RunEvents, EventsAfter;
    if k == |front| {
      after := [];
    } else {
      assert front[..k] == order[..k];
      var rest := RunEventsSplit(w, ext, front, k);
      after := rest + EventsAfter(w, ext, front, id);
      Regroup([], RunEvents(w, ext, order[..k]), EventsAfter(w, ext, order[..k], order[k]), rest,
        EventsAfter(w, ext, front, id));
    }
  }

  /** What a scheduled node is given: what the sources of its edges mean. */
  lemma ScheduledReceives(w: Workflow, ext: map<string, Value>, order: seq<Id>, k: nat)
    requires Valid(w) && IsSchedule(w, ext.Keys, order) && k < |order|
    ensures Receives(w, ext, SimExec, order[k], Gather(w.edges, order[k], ext, Run(w, ext, SimExec, order[..k])))
  {
    SchedulePrefix(w, ext.Keys, order, k);
    ScheduleComputesEval(w, ext, SimExec, order[..k]);
    ScheduledIsReady(w, ext.Keys, order, k);
    hide Run, Gather, Receives, Valid, Eval, NodeIds;
    var outs := Run(w, ext, SimExec, order[..k]);
    assert forall m :: m in UpstreamOf(w, order[k]) ==> m in order[..k];
    GatheredIsReceived(w, ext, SimExec, order[k], outs);
  }

  lemma RunDescribes(w: Workflow, ext: map<string, Value>, order: seq<Id>, k: nat)
    returns (r: Record, after: seq<Event>, n: Node, inputs: map<string, Value>)
    requires Valid(w) && IsSchedule(w, ext.Keys, order) && k < |order|
    ensures RunEvents(w, ext, order) == RunEvents(w, ext, order[..k]) + EventsOf(r) + after
    ensures n in w.nodes && n.id == order[k]
    ensures Describes(n, inputs, r) && Receives(w, ext, SimExec, n.id, inputs)
  {
    NodesByIdKeys(w.nodes);
    ScheduledIsReady(w, ext.Keys, order, k);
    hide Run, RunEvents, Gather, NodesById, NodeEvents, Describes, Receives, EventsOf, Valid, IsSchedule, NodeIds;
    n := NodesById(w.nodes)[order[k]];
    inputs := Gather(w.edges, order[k], ext, Run(w, ext, SimExec, order[..k]));
    ScheduledReceives(w, ext, order, k);
    r := NodeIsDescribed(n, inputs);
    assert EventsAfter(w, ext, order[..k], order[k]) == EventsOf(r);
    after := RunEventsSplit(w, ext, order, k);
  }

  /** The part of a trace that one node leaves: it comes when exactly the nodes completed before have completed, and
      describes the node and the meanings it was given. */
  lemma TraceDescribes(w: Workflow, ext: map<string, Value>, t: Trace, k: nat)
    returns (before: seq<Event>, r: Record, after: seq<Event>, n: Node, inputs: map<string, Value>)
    requires Supplied(w, ext) && TraceOf(w, ext, t) && k < |CompletedIds(t.events)|
    ensures t.events == before + EventsOf(r) + after
    ensures CompletedIds(before) == CompletedIds(t.events)[..k]
    ensures n in w.nodes && n.id == CompletedIds(t.events)[k]
    ensures Describes(n, inputs, r) && Receives(w, ext, SimExec, n.id, inputs)
  {
    var order := Order(w, ext.Keys);
    TraceCompletes(w, ext, t);
    OrderIsComplete(w, ext);
    assert t.events == InputEvents(ext) + RunEvents(w, ext, order) + OutputEvents(t.outputs);
    hide Order, Run, RunEvents, NodesById, Describes, Receives, EventsOf, CompletedIds, Valid, InputEvents,
      OutputEvents, TraceOf, IsSchedule, NodeIds;
    var rest;
    r, rest, n, inputs := RunDescribes(w, ext, order, k);
    before := InputEvents(ext) + RunEvents(w, ext, order[..k]);
    after := rest + OutputEvents(t.outputs);
    Regroup(InputEvents(ext), RunEvents(w, ext, order[..k]), EventsOf(r), rest, OutputEvents(t.outputs));
    CompletedBefore(w, ext, order[..k]);
  }

  lemma CompletedBefore(w: Workflow, ext: map<string, Value>, front: seq<Id>)
    requires forall id :: id in front ==> id in NodesById(w.nodes)
    ensures CompletedIds(InputEvents(ext) + RunEvents(w, ext, front)) == front
  {
    RunEventsComplete(w, ext, front);
    hide RunEvents, CompletedIds, InputEvents, NodesById;
    NoneCompleted(InputEvents(ext));
    CompletedIdsAppend(InputEvents(ext), RunEvents(w, ext, front));
  }

  lemma {:induction false} RunEventsAreNodes(w: Workflow, ext: map<string, Value>, order: seq<Id>)
    ensures forall e :: e in RunEvents(w, ext, order) ==> !e.InputEvent? && !e.OutputEvent?
    decreases |order|
  {
    if order != [] {
      var front, id := order[..|order| - 1], order[|order| - 1];
      RunEventsAreNodes(w, ext, front);
      hide Gather, Run, NodesById;
      if id in NodesById(w.nodes) {
        var n, inputs := NodesById(w.nodes)[id], Gather(w.edges, id, ext, Run(w, ext, SimExec, front));
        StartEventsKind(n, inputs, Rounds(n));
      }
    }
  }

  /** A trace records every fixture value as an input and every output of the workflow as an output, and no others. */
  lemma TracePorts(w: Workflow, ext: map<string, Value>, t: Trace, port: string, v: Value)
    requires TraceOf(w, ext, t)
    ensures InputEvent(port, v) in t.events <==> port in ext && ext[port] == v
    ensures OutputEvent(port, v) in t.events <==> port in t.outputs && t.outputs[port] == v
  {
    RunEventsAreNodes(w, ext, Order(w, ext.Keys));
    InputsRecorded(ext, port, v);
    OutputsRecorded(t.outputs, port, v);
    hide Order, Run, RunEvents, InputEvents, OutputEvents, OutputValue;
  }

  /** A trace begins with its inputs and ends with its outputs, each in ascending order of ports, one for each. */
  lemma TraceLayout(w: Workflow, ext: map<string, Value>, t: Trace)
    returns (ins: seq<Event>, middle: seq<Event>, outs: seq<Event>)
    requires TraceOf(w, ext, t)
    ensures t.events == ins + middle + outs
    ensures |ins| == |ext| && |outs| == |t.outputs|
    ensures forall e :: e in middle ==> !e.InputEvent? && !e.OutputEvent?
    ensures forall i :: 0 <= i < |ins| ==> ins[i].InputEvent?
    ensures forall i, j :: 0 <= i < j < |ins| ==> ins[i].port != ins[j].port && StrLe(ins[i].port, ins[j].port)
    ensures forall i :: 0 <= i < |outs| ==> outs[i].OutputEvent?
    ensures forall i, j :: 0 <= i < j < |outs| ==> outs[i].port != outs[j].port && StrLe(outs[i].port, outs[j].port)
  {
    ins, outs := InputEvents(ext), OutputEvents(t.outputs);
    middle := RunEvents(w, ext, Order(w, ext.Keys));
    RunEventsAreNodes(w, ext, Order(w, ext.Keys));
    SortedKeysAscend(ext.Keys);
    SortedKeysAscend(t.outputs.Keys);
    KeysCounted(ext.Keys);
    KeysCounted(t.outputs.Keys);
    hide Order, Run, RunEvents, SortedKeys, StrLe, OutputValue;
  }

  lemma {:induction false} KeysCounted(s: set<string>)
    ensures |SortedKeys(s)| == |s|
    decreases |s|
  {
    if s != {} {
      KeysCounted(s - {Least(s)});
    }
  }

  lemma InputsRecorded(ext: map<string, Value>, port: string, v: Value)
    ensures InputEvent(port, v) in InputEvents(ext) <==> port in ext && ext[port] == v
  {
    SortedKeysIn(ext);
    var ports := SortedKeys(ext.Keys);
    if port in ext {
      assert port in Elements(ports);
      var i :| 0 <= i < |ports| && ports[i] == port;
      assert InputEvents(ext)[i] == InputEvent(port, ext[port]);
    }
    hide SortedKeys;
  }

  lemma OutputsRecorded(outputs: map<string, Value>, port: string, v: Value)
    ensures OutputEvent(port, v) in OutputEvents(outputs) <==> port in outputs && outputs[port] == v
  {
    SortedKeysIn(outputs);
    var ports := SortedKeys(outputs.Keys);
    if port in outputs {
      assert port in Elements(ports);
      var i :| 0 <= i < |ports| && ports[i] == port;
      assert OutputEvents(outputs)[i] == OutputEvent(port, outputs[port]);
    }
    hide SortedKeys;
  }
}

/** What durable runs deliver: the results of finished runs, the inputs of activities, the published status. */
module DurableResults {
  import opened Graphs
  import opened Ordering
  import opened Outcomes
  import opened Workflows
  import opened MultiPass
  import opened Scheduling
  import opened DurableRunner
  import Simulator

  // ----- the published status -------------------------------------------------------

  /** The phase of the node in hand: a wait or approval node keeps its own until the next node is taken up. */
  function PhaseOf(kind: NodeKind): Phase {
    match kind
    case Wait => WaitingTimer
    case Approval => WaitingApproval
    case _ => Running
  }

  /** What the status query answers in a state that has not failed. */
  ghost predicate Published(c: Config, s: State) {
    && (Active(s.control) ==>
      && s.control.index < |Nodes(c)|
      && s.status == Status(PhaseOf(Nodes(c)[s.control.index].kind), Some(Nodes(c)[s.control.index].id), s.completed))
    && (s.control.Finished? ==> s.status == Status(AllDone, None, s.completed))
  }

  /** Each kind of node goes through its own wait before its activity. */
  ghost predicate EntersAt(c: Config, control: Control) {
    Active(control) && control.index < |Nodes(c)| ==>
      match Nodes(c)[control.index].kind
      case Wait => control.AtTimer?
      case Approval => control.AtApproval?
      case _ => control.AtActivity?
  }

  lemma {:induction false} AdvancePublishes(c: Config, s: State, i: nat)
    requires i <= |Nodes(c)|
    ensures Published(c, Advance(c, s, i)) && EntersAt(c, Advance(c, s, i).control)
    decreases if s.progressed then 1 else 0, |Nodes(c)| - i
  {
    hide Nodes, Ready, Needs, InputsAt, OutputValue, Edges;
    if i == |Nodes(c)| {
      if s.progressed && s.remaining != {} {
        AdvancePublishes(c, s.(progressed := false), 0);
      }
    } else if !(Nodes(c)[i].id in s.remaining && Ready(Needs(c), s.completed, Nodes(c)[i].id)) {
      AdvancePublishes(c, s, i + 1);
    }
  }

  lemma InitialPublishes(c: Config)
    ensures Published(c, Initial(c)) && EntersAt(c, Initial(c).control)
  {
    AdvancePublishes(c, Blank(c), 0);
    hide Advance, Nodes, NodeIds, OutputValue, Edges;
  }

  lemma StepPublishes(c: Config, s: State, ev: Event)
    requires Published(c, s)
    ensures Published(c, Step(c, s, ev))
  {
    hide Advance, Nodes, IdAt;
    if ev.ProjectionDone? && s.control.AtProjection? && s.control.index < |Nodes(c)| {
      AdvancePublishes(c, CompleteNode(s, IdAt(c, s.control.index), s.control.outputs), s.control.index + 1);
    }
  }

  /** In every state of every run that has not failed, the status names the node in hand, the phase of its kind
      and the nodes completed so far; at the end it names no node. */
  lemma {:induction false} StatusIsCurrent(c: Config, events: seq<Event>)
    ensures Published(c, After(c, events))
    decreases |events|
  {
    hide Published, Step;
    if events == [] {
      InitialPublishes(c);
    } else {
      StatusIsCurrent(c, events[..|events| - 1]);
      StepPublishes(c, After(c, events[..|events| - 1]), events[|events| - 1]);
    }
  }

  /** A node whose control the runner has just come to is at the wait of its kind, and leaves it for the activity
      only by the timer or by an approval. */
  lemma WaitsFirst(c: Config, s: State, ev: Event)
    requires KindMatches(c, s.control) && Step(c, s, ev).control.AtActivity?
    requires !s.control.AtActivity? && Step(c, s, ev).control.index < |Nodes(c)|
    ensures var kind := Nodes(c)[Step(c, s, ev).control.index].kind;
      && (kind == Wait ==> ev.TimerFired? && s.control.AtTimer?)
      && (kind == Approval ==> ev.ApprovalSeen? && s.control.AtApproval?)
  {
    hide Advance, Nodes, IdAt;
    if ev.ProjectionDone? && s.control.AtProjection? && s.control.index < |Nodes(c)| {
      AdvancePublishes(c, CompleteNode(s, IdAt(c, s.control.index), s.control.outputs), s.control.index + 1);
    }
  }

  // ----- failures -------------------------------------------------------------------

  /** A wait of the configured length is possible. */
  predicate CanWait(c: Config, id: Id) {
    id in c.waitMs && c.waitMs[id] >= 0
  }

  /** How a scan can fail: at a wait node left to do that has no wait, at a stall, or at a missing output in the end. */
  ghost predicate ScanFailure(c: Config, remaining: set<Id>, failure: Failure) {
    match failure
    case WaitControlInvalid(id) =>
      id in remaining && !CanWait(c, id) && exists n :: n in Nodes(c) && n.id == id && n.kind == Wait
    case WorkflowStalled(left) => left == remaining
    case WorkflowOutputMissing => remaining == {}
    case _ => false
  }

  lemma {:induction false} AdvanceFails(c: Config, s: State, i: nat)
    requires i <= |Nodes(c)|
    ensures var r := Advance(c, s, i).control;
      && (r.Failed? ==> ScanFailure(c, s.remaining, r.failure))
      && (r.AtTimer? && r.index < |Nodes(c)| ==> CanWait(c, Nodes(c)[r.index].id))
    decreases if s.progressed then 1 else 0, |Nodes(c)| - i
  {
    hide Nodes, Ready, Needs, InputsAt, OutputValue, Edges;
    if i == |Nodes(c)| {
      if s.progressed && s.remaining != {} {
        AdvanceFails(c, s.(progressed := false), 0);
      }
    } else if !(Nodes(c)[i].id in s.remaining && Ready(Needs(c), s.completed, Nodes(c)[i].id)) {
      AdvanceFails(c, s, i + 1);
    }
  }

  /** When one event makes a run fail, and what the failure names: a rejected approval, a failed activity, outputs on
      other ports than the declared ones, a failed projection, or what the scan after a completed node comes to. */
  lemma FailureMeans(c: Config, s: State, ev: Event)
    requires Active(s.control) && s.control.index < |Nodes(c)|
    ensures var r, node := Step(c, s, ev).control, Nodes(c)[s.control.index];
      match ev
      case Signal(_, _) => !r.Failed?
      case TimerFired => !r.Failed?
      case ApprovalSeen =>
        && (r.Failed? <==> s.control.AtApproval? && node.id in s.approvals && !s.approvals[node.id])
        && (r.Failed? ==> r.failure == ApprovalRejected(node.id))
      case ActivityReturned(outputs) =>
        && (r.Failed? <==> s.control.AtActivity? && outputs.Keys != node.outputs.Keys)
        && (r.Failed? ==> r.failure == OutputPortMismatch(node.id))
      case ActivityFailed =>
        (r.Failed? <==> s.control.AtActivity?) && (r.Failed? ==> r.failure == ActivityError(node.id))
      case ProjectionFailed =>
        (r.Failed? <==> s.control.AtProjection?) && (r.Failed? ==> r.failure == ProjectionError(node.id))
      case ProjectionDone =>
        r.Failed? ==> s.control.AtProjection? && ScanFailure(c, s.remaining - {node.id}, r.failure)
  {
    hide Advance, Nodes, ScanFailure;
    if ev.ProjectionDone? && s.control.AtProjection? {
      AdvanceFails(c, CompleteNode(s, IdAt(c, s.control.index), s.control.outputs), s.control.index + 1);
    }
  }

  // ----- results --------------------------------------------------------------------

  /** A finished run holds one result for each declared output, found along the first edge into it. */
  ghost predicate Resulting(c: Config, s: State) {
    s.control.Finished? ==>
      && s.control.results.Keys == c.w.outputs.Keys
      && forall p :: p in c.w.outputs ==>
        OutputValue(Edges(c), p, c.ext, s.nodeOutputs) == Some(s.control.results[p])
  }

  lemma {:induction false} AdvanceResults(c: Config, s: State, i: nat)
    requires i <= |Nodes(c)|
    ensures Resulting(c, Advance(c, s, i))
    decreases if s.progressed then 1 else 0, |Nodes(c)| - i
  {
    hide Nodes, Ready, Needs, InputsAt, OutputValue, Edges;
    if i == |Nodes(c)| {
      if s.progressed && s.remaining != {} {
        AdvanceResults(c, s.(progressed := false), 0);
      }
    } else if !(Nodes(c)[i].id in s.remaining && Ready(Needs(c), s.completed, Nodes(c)[i].id)) {
      AdvanceResults(c, s, i + 1);
    }
  }

  lemma InitialResults(c: Config)
    ensures Resulting(c, Initial(c))
  {
    AdvanceResults(c, Blank(c), 0);
    hide Advance, Nodes, NodeIds, OutputValue, Edges;
  }

  lemma StepResults(c: Config, s: State, ev: Event)
    requires Resulting(c, s)
    ensures Resulting(c, Step(c, s, ev))
  {
    hide Advance, Nodes, IdAt, OutputValue, Edges;
    if ev.ProjectionDone? && s.control.AtProjection? && s.control.index < |Nodes(c)| {
      AdvanceResults(c, CompleteNode(s, IdAt(c, s.control.index), s.control.outputs), s.control.index + 1);
    }
  }

  lemma {:induction false} RunResults(c: Config, events: seq<Event>)
    ensures Resulting(c, After(c, events))
    decreases |events|
  {
    hide Resulting, Step;
    if events == [] {
      InitialResults(c);
    } else {
      RunResults(c, events[..|events| - 1]);
      StepResults(c, After(c, events[..|events| - 1]), events[|events| - 1]);
    }
  }

  /** Along the edge into an output, the found value is what the source of the edge means. */
  lemma ResultYields(c: Config, exec: Executor, s: State, e: Edge)
    requires Valid(c.w) && Resulting(c, s) && s.control.Finished?
    requires e in c.w.edges && e.target.WorkflowOutput?
    requires s.nodeOutputs.Keys == NodeIds(c.w)
    requires forall m :: m in s.nodeOutputs ==> m in NodeIds(c.w) && s.nodeOutputs[m] == Eval(c.w, c.ext, exec, m)
    ensures e.target.port in s.control.results
    ensures Yields(c.w, c.ext, exec, e.source, s.control.results[e.target.port])
  {
    var p := e.target.port;
    ValidEndpoints(c.w, e);
    EdgesFindSame(c, p);
    FirstIntoSpec(c.w.edges, WorkflowOutput(p));
    ValidUniqueTargets(c.w);
    hide Valid, Eval, Edges, NodeIds, NodesById, Yields;
    Simulator.FirstIntoFinds(c.w.edges, e);
    CarriedYields(c.w, c.ext, exec, e.source, s.nodeOutputs, s.control.results[p]);
  }

  /** The result of a durable run: whatever the activities compute and however the run was interleaved, a finished
      run returns exactly the declared outputs, each what the source of its edge means. */
  lemma FinishedMeans(c: Config, exec: Executor, events: seq<Event>)
    requires Valid(c.w) && Follows(c, exec, events) && After(c, events).control.Finished?
    ensures var s := After(c, events);
      && s.control.results.Keys == c.w.outputs.Keys
      && (forall e :: e in c.w.edges && e.target.WorkflowOutput? ==>
        e.target.port in s.control.results
        && Yields(c.w, c.ext, exec, e.source, s.control.results[e.target.port]))
      && s.status == Status(AllDone, None, s.completed) && Elements(s.completed) == NodeIds(c.w)
  {
    var s := After(c, events);
    RunResults(c, events);
    StatusIsCurrent(c, events);
    RunInvariant(c, events);
    DurableComputesMeaning(c, exec, events);
    FinishedIsComplete(c, s);
    hide After, Resulting, Published, Invariant, Eval, NodeIds, Follows, Yields, Valid;
    forall e | e in c.w.edges && e.target.WorkflowOutput?
      ensures e.target.port in s.control.results
        && Yields(c.w, c.ext, exec, e.source, s.control.results[e.target.port])
    {
      ResultYields(c, exec, s, e);
    }
    FinishedKeys(c, s);
  }

  lemma FinishedKeys(c: Config, s: State)
    requires Resulting(c, s) && Published(c, s) && s.control.Finished?
    ensures s.control.results.Keys == c.w.outputs.Keys && s.status == Status(AllDone, None, s.completed)
  {
    hide OutputValue, Edges, Nodes;
  }

  lemma FinishedIsComplete(c: Config, s: State)
    requires Invariant(c, s) && s.control.Finished?
    ensures Elements(s.completed) == NodeIds(c.w) && s.nodeOutputs.Keys == NodeIds(c.w)
    ensures forall m :: m in s.nodeOutputs ==> m in s.completed
  {
    hide Total, Needs, InOrder, DeclaredOutputs, Nodes, NodeIds, IsPrefix, Ready, OutputValue, Edges;
    assert Elements(s.completed) <= NodeIds(c.w) by {
      CompletedAreNodes(c, s);
    }
    forall id | id in NodeIds(c.w) ensures id in Elements(s.completed) {
      assert id !in s.remaining;
    }
  }

  lemma CompletedAreNodes(c: Config, s: State)
    requires InOrder(Needs(c), s.completed)
    ensures Elements(s.completed) <= NodeIds(c.w)
  {
    forall id | id in s.completed ensures id in NodeIds(c.w) {
      var i :| 0 <= i < |s.completed| && s.completed[i] == id;
      assert Ready(Needs(c), s.completed[..i], s.completed[i]);
    }
  }

  // ----- activities -----------------------------------------------------------------

  /** Every activity is given what the sources of the edges into its node mean. */
  lemma ActivityReceives(c: Config, exec: Executor, events: seq<Event>)
    requires Valid(c.w) && Follows(c, exec, events) && After(c, events).control.AtActivity?
    ensures var s := After(c, events);
      s.control.index < |Nodes(c)| && Receives(c.w, c.ext, exec, Nodes(c)[s.control.index].id, s.control.inputs)
  {
    var s := After(c, events);
    RunComputes(c, exec, events);
    RunInvariant(c, events);
    DurableComputesMeaning(c, exec, events);
    var id := Nodes(c)[s.control.index].id;
    ReadyUpstream(c, s);
    hide After, Follows, Invariant, Receives, Gather, Eval, Run, Valid;
    GatheredIsReceived(c.w, c.ext, exec, id, s.nodeOutputs);
  }

  lemma ReadyUpstream(c: Config, s: State)
    requires Invariant(c, s) && s.control.AtActivity?
    ensures s.control.index < |Nodes(c)|
    ensures forall m :: m in UpstreamOf(c.w, Nodes(c)[s.control.index].id) ==> m in s.completed && m in s.nodeOutputs
  {
    hide Total, InOrder, DeclaredOutputs, IsPrefix, OutputValue, Edges;
  }
}

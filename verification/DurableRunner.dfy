/** The durable workflow runner as a state machine: between two awaits the code runs on its own;
    approval signals, timers, activity results and projection results may arrive in any order. */
module DurableRunner {
  import opened Graphs
  import opened Ordering
  import opened Outcomes
  import opened Workflows
  import opened MultiPass
  import opened Scheduling
  import Simulator
  import Json

  type Value = Json.Json

  /** `waitMs` holds the integer wait controls; a missing or fractional control is an absent entry. */
  datatype Config = Config(w: Workflow, ext: map<string, Value>, waitMs: map<Id, int>)

  datatype Phase = Running | WaitingTimer | WaitingApproval | AllDone

  /** The answer to the status query. */
  datatype Status = Status(phase: Phase, currentNodeId: Option<Id>, completedNodeIds: seq<Id>)

  datatype Failure =
    | WaitControlInvalid(nodeId: Id)
    | ApprovalRejected(nodeId: Id)
    | ActivityError(nodeId: Id)
    | OutputPortMismatch(nodeId: Id)
    | ProjectionError(nodeId: Id)
    | WorkflowStalled(remaining: set<Id>)
    | WorkflowOutputMissing

  /** Where the code is waiting, for the node at `index` of the sorted nodes. */
  datatype Control =
    | AtTimer(index: nat, inputs: map<string, Value>)
    | AtApproval(index: nat, inputs: map<string, Value>)
    | AtActivity(index: nat, inputs: map<string, Value>)
    | AtProjection(index: nat, outputs: map<string, Value>)
    | Finished(results: map<string, Value>)
    | Failed(failure: Failure)

  datatype State = State(
    control: Control,
    progressed: bool,
    approvals: map<Id, bool>,
    completed: seq<Id>,
    nodeOutputs: map<Id, map<string, Value>>,
    remaining: set<Id>,
    status: Status)

  datatype Event =
    | Signal(nodeId: Id, approved: bool)
    | TimerFired
    | ApprovalSeen
    | ActivityReturned(outputs: map<string, Value>)
    | ActivityFailed
    | ProjectionDone
    | ProjectionFailed

  // ----- the code between two awaits --------------------------------------------

  function Nodes(c: Config): seq<Node> {
    Simulator.SortedNodes(c.w)
  }

  function Items(c: Config): seq<Id> {
    IdsOf(Nodes(c))
  }

  function Needs(c: Config): Requirements {
    NeedsOf(c.w, c.ext.Keys)
  }

  function TargetText(t: Target): string {
    match t
    case NodeInput(nodeId, port) => nodeId + "/" + port
    case WorkflowOutput(port) => "~/" + port
  }

  predicate EdgeLe(a: Edge, b: Edge) {
    StrLe(TargetText(a.target), TargetText(b.target))
  }

  function Edges(c: Config): seq<Edge> {
    Sort(c.w.edges, EdgeLe)
  }

  function InputsAt(c: Config, s: State, id: Id): map<string, Value> {
    Gather(Simulator.Incoming(Edges(c), id), id, c.ext, s.nodeOutputs)
  }

  /** The node is taken up: its status is published and the first await is reached. */
  function Enter(c: Config, s: State, i: nat): State
    requires i < |Nodes(c)|
  {
    var node := Nodes(c)[i];
    var inputs := InputsAt(c, s, node.id);
    var entered := s.(status := Status(Running, Some(node.id), s.completed));
    if node.kind == Wait then
      if node.id !in c.waitMs || c.waitMs[node.id] < 0 then entered.(control := Failed(WaitControlInvalid(node.id)))
      else entered.(status := entered.status.(phase := WaitingTimer), control := AtTimer(i, inputs))
    else if node.kind == Approval then
      entered.(status := entered.status.(phase := WaitingApproval), control := AtApproval(i, inputs))
    else entered.(control := AtActivity(i, inputs))
  }

  /** The outputs of the workflow, or the report that one has no value. */
  function Finish(c: Config, s: State): State {
    if forall p | p in c.w.outputs :: OutputValue(Edges(c), p, c.ext, s.nodeOutputs).Some?
    then s.(status := Status(AllDone, None, s.completed),
            control := Finished(map p | p in c.w.outputs :: OutputValue(Edges(c), p, c.ext, s.nodeOutputs).value))
    else s.(control := Failed(WorkflowOutputMissing))
  }

  /** Scans from position `i` until a node is taken up or the workflow ends. */
  function Advance(c: Config, s: State, i: nat): State
    requires i <= |Nodes(c)|
    decreases if s.progressed then 1 else 0, |Nodes(c)| - i
  {
    if i == |Nodes(c)| then
      if !s.progressed then s.(control := Failed(WorkflowStalled(s.remaining)))
      else if s.remaining == {} then Finish(c, s)
      else Advance(c, s.(progressed := false), 0)
    else
      var id := Nodes(c)[i].id;
      if id in s.remaining && Ready(Needs(c), s.completed, id) then Enter(c, s, i) else Advance(c, s, i + 1)
  }

  /** Before the first scan. */
  function Blank(c: Config): State {
    State(Failed(WorkflowOutputMissing), false, map[], [], map[], NodeIds(c.w), Status(Running, None, []))
  }

  function Initial(c: Config): State {
    var s := Blank(c);
    if s.remaining == {} then Finish(c, s) else Advance(c, s, 0)
  }

  // ----- one event --------------------------------------------------------------

  function CompleteNode(s: State, id: Id, outputs: map<string, Value>): State {
    s.(nodeOutputs := s.nodeOutputs[id := outputs], completed := s.completed + [id],
       remaining := s.remaining - {id}, progressed := true)
  }

  function IdAt(c: Config, i: nat): Id {
    if i < |Nodes(c)| then Nodes(c)[i].id else ""
  }

  /** The effect of an event; an event nothing waits for changes nothing. */
  function Step(c: Config, s: State, ev: Event): State {
    match ev
    case Signal(nodeId, approved) => s.(approvals := s.approvals[nodeId := approved])
    case TimerFired => if s.control.AtTimer? then s.(control := AtActivity(s.control.index, s.control.inputs)) else s
    case ApprovalSeen =>
      if s.control.AtApproval? && IdAt(c, s.control.index) in s.approvals then
        if s.approvals[IdAt(c, s.control.index)]
        then s.(control := AtActivity(s.control.index, s.control.inputs))
        else s.(control := Failed(ApprovalRejected(IdAt(c, s.control.index))))
      else s
    case ActivityReturned(outputs) =>
      if s.control.AtActivity? && s.control.index < |Nodes(c)| then
        if outputs.Keys == Nodes(c)[s.control.index].outputs.Keys
        then s.(control := AtProjection(s.control.index, outputs))
        else s.(control := Failed(OutputPortMismatch(IdAt(c, s.control.index))))
      else s
    case ActivityFailed =>
      if s.control.AtActivity? then s.(control := Failed(ActivityError(IdAt(c, s.control.index)))) else s
    case ProjectionDone =>
      if s.control.AtProjection? && s.control.index < |Nodes(c)|
      then Advance(c, CompleteNode(s, IdAt(c, s.control.index), s.control.outputs), s.control.index + 1)
      else s
    case ProjectionFailed =>
      if s.control.AtProjection? then s.(control := Failed(ProjectionError(IdAt(c, s.control.index)))) else s
  }

  /** The state after any sequence of events. */
  function After(c: Config, events: seq<Event>): State {
    if events == [] then Initial(c) else Step(c, After(c, events[..|events| - 1]), events[|events| - 1])
  }

  // ----- the loops of the runner --------------------------------------------------

  /** The nested scheduler loops, run until the next await. */
  method RunToAwait(c: Config, start: State, from: nat) returns (s: State)
    requires from <= |Nodes(c)|
    ensures s == Advance(c, start, from)
  {
    var nodes := Nodes(c);
    s := start;
    var i := from;
    while true
      invariant 0 <= i <= |nodes|
      invariant Advance(c, s, i) == Advance(c, start, from)
      decreases if s.progressed then 1 else 0, |nodes| - i
    {
      if i == |nodes| {
        if !s.progressed {
          s := s.(control := Failed(WorkflowStalled(s.remaining)));
          return;
        }
        if s.remaining == {} {
          s := FinishLoop(c, s);
          return;
        }
        s, i := s.(progressed := false), 0;
      } else {
        var id := nodes[i].id;
        if id in s.remaining && Ready(Needs(c), s.completed, id) {
          s := Enter(c, s, i);
          return;
        }
        i := i + 1;
      }
    }
  }

  /** The loop over the declared outputs. */
  method FinishLoop(c: Config, s: State) returns (done: State)
    ensures done == Finish(c, s)
  {
    var outputs: map<string, Value> := map[];
    var pending := c.w.outputs.Keys;
    while pending != {}
      invariant pending <= c.w.outputs.Keys
      invariant forall p :: p in outputs <==> p in c.w.outputs && p !in pending
      invariant forall p :: p in outputs ==> OutputValue(Edges(c), p, c.ext, s.nodeOutputs) == Some(outputs[p])
    {
      var p :| p in pending;
      pending := pending - {p};
      var value := OutputValue(Edges(c), p, c.ext, s.nodeOutputs);
      if value.None? {
        return s.(control := Failed(WorkflowOutputMissing));
      }
      outputs := outputs[p := value.value];
    }
    assert outputs == map p | p in c.w.outputs :: OutputValue(Edges(c), p, c.ext, s.nodeOutputs).value;
    return s.(status := Status(AllDone, None, s.completed), control := Finished(outputs));
  }

  // ----- the invariant ------------------------------------------------------------

  predicate Active(control: Control) {
    control.AtTimer? || control.AtApproval? || control.AtActivity? || control.AtProjection?
  }

  function Total(c: Config): seq<Id> {
    Simulator.Order(c.w, c.ext.Keys)
  }

  /** The bookkeeping between nodes. */
  ghost predicate Books(c: Config, s: State) {
    && InOrder(Needs(c), s.completed)
    && s.nodeOutputs.Keys == Elements(s.completed)
    && s.remaining == NodeIds(c.w) - Elements(s.completed)
    && IsPrefix(s.status.completedNodeIds, s.completed)
    && (Valid(c.w) ==> DeclaredOutputs(c.w, s.nodeOutputs))
  }

  /** Scanning on from position `i` completes the nodes in the order of the passes. */
  ghost predicate OnTrack(c: Config, s: State, i: nat) {
    && i <= |Items(c)|
    && Passes(Items(c), Needs(c), Pass(Items(c)[i..], Needs(c), s.completed)) == Total(c)
    && (!s.progressed ==> Pass(Items(c)[..i], Needs(c), s.completed) == s.completed && s.remaining != {})
  }

  /** Some declared output has no value. */
  ghost predicate LacksOutput(c: Config, s: State) {
    exists p :: p in c.w.outputs && OutputValue(Edges(c), p, c.ext, s.nodeOutputs).None?
  }

  /** A timer runs only for a wait node, an approval is awaited only for an approval node. */
  ghost predicate KindMatches(c: Config, control: Control) {
    && (Active(control) ==> control.index < |Nodes(c)|)
    && (control.AtTimer? ==> Nodes(c)[control.index].kind == Wait)
    && (control.AtApproval? ==> Nodes(c)[control.index].kind == Approval)
  }

  ghost predicate Invariant(c: Config, s: State) {
    && Books(c, s) && KindMatches(c, s.control)
    && (Active(s.control) ==>
      && s.control.index < |Nodes(c)| && OnTrack(c, s, s.control.index)
      && IdAt(c, s.control.index) in s.remaining
      && Ready(Needs(c), s.completed, IdAt(c, s.control.index)))
    && (s.control.AtProjection? ==> s.control.outputs.Keys == Nodes(c)[s.control.index].outputs.Keys)
    && (s.control.Finished? ==>
      s.completed == Total(c) && s.remaining == {} && s.status.completedNodeIds == s.completed)
    && (s.control.Failed? && s.control.failure.WorkflowStalled? ==> s.completed == Total(c) && s.remaining != {})
    && (s.control.Failed? && s.control.failure.WorkflowOutputMissing? ==>
      s.completed == Total(c) && s.remaining == {} && LacksOutput(c, s))
    && IsPrefix(s.completed, Total(c))
  }

  lemma ItemAt(c: Config, i: nat)
    requires i < |Nodes(c)|
    ensures Items(c)[i] == Nodes(c)[i].id == IdAt(c, i)
    ensures Nodes(c)[i] in c.w.nodes && IdAt(c, i) in NodeIds(c.w) && IdAt(c, i) in NodesById(c.w.nodes)
    ensures Valid(c.w) ==> NodesById(c.w.nodes)[IdAt(c, i)] == Nodes(c)[i]
  {
    Simulator.SortedNodesSame(c.w);
    NodesByIdKeys(c.w.nodes);
    assert Nodes(c)[i] in Nodes(c);
    assert Items(c)[i] in Elements(Items(c));
    if Valid(c.w) {
      NodesByIdUnique(c.w.nodes, Nodes(c)[i]);
    }
  }

  lemma RemainingMeans(c: Config, s: State, id: Id)
    requires Books(c, s) && id in NodeIds(c.w)
    ensures id in s.remaining <==> id !in s.completed
  {
  }

  lemma OnTrackIsPrefix(c: Config, s: State, i: nat)
    requires OnTrack(c, s, i)
    ensures IsPrefix(s.completed, Total(c))
  {
    var items, needs := Items(c), Needs(c);
    var next := Pass(items[i..], needs, s.completed);
    hide Total, Passes, Pass, Items, Needs;
    PassExtends(items[i..], needs, s.completed);
    PassesSound(items, needs, next);
    PrefixTransitive(s.completed, next, Total(c));
  }

  lemma PrefixTransitive<T>(a: seq<T>, b: seq<T>, d: seq<T>)
    requires a <= b && b <= d
    ensures IsPrefix(a, d)
  {
    assert d[..|b|] == b && b[..|a|] == a;
    assert d[..|b|][..|a|] == d[..|a|];
  }

  /** A node that is finished or waiting is skipped. */
  lemma SkipStaysOnTrack(c: Config, s: State, i: nat)
    requires i < |Nodes(c)| && Books(c, s) && OnTrack(c, s, i)
    requires IdAt(c, i) !in s.remaining || !Ready(Needs(c), s.completed, IdAt(c, i))
    ensures OnTrack(c, s, i + 1)
  {
    ItemAt(c, i);
    RemainingMeans(c, s, IdAt(c, i));
    var items, needs := Items(c), Needs(c);
    assert Consider(needs, s.completed, items[i]) == s.completed;
    hide Items, Needs, Total, Passes, Consider;
    DropFront(items, i);
    TakeMore(items, i);
    PassAppend(items[..i], needs, s.completed, items[i]);
  }

  /** A completed node continues the same pass. */
  lemma CompleteStaysOnTrack(c: Config, s: State, i: nat, outputs: map<string, Value>)
    requires i < |Nodes(c)| && Books(c, s) && OnTrack(c, s, i)
    requires IdAt(c, i) in s.remaining && Ready(Needs(c), s.completed, IdAt(c, i))
    requires outputs.Keys == Nodes(c)[i].outputs.Keys
    ensures var t := CompleteNode(s, IdAt(c, i), outputs); Books(c, t) && OnTrack(c, t, i + 1)
  {
    ItemAt(c, i);
    RemainingMeans(c, s, IdAt(c, i));
    var items, needs := Items(c), Needs(c);
    assert Consider(needs, s.completed, items[i]) == s.completed + [items[i]];
    DropFront(items, i);
    CompleteBooks(c, s, i, outputs);
  }

  lemma CompleteBooks(c: Config, s: State, i: nat, outputs: map<string, Value>)
    requires i < |Nodes(c)| && Books(c, s) && IdAt(c, i) in s.remaining
    requires Ready(Needs(c), s.completed, IdAt(c, i)) && outputs.Keys == Nodes(c)[i].outputs.Keys
    ensures Books(c, CompleteNode(s, IdAt(c, i), outputs))
  {
    hide Needs, Nodes, Ready, DeclaredOutputs, Valid, InOrder, IdAt, Elements, Consider, IsPrefix, Items, NodeIds;
    var id := IdAt(c, i);
    InRemaining(c, s, i);
    CompleteDeclares(c, s, i, outputs);
    ConsiderKeeps(Needs(c), s.completed, id);
    ReadyConsidered(Needs(c), s.completed, id);
    ElementsAppend(s.completed, id);
    PrefixAppend(s.status.completedNodeIds, s.completed, id);
  }

  lemma InRemaining(c: Config, s: State, i: nat)
    requires i < |Nodes(c)| && Books(c, s) && IdAt(c, i) in s.remaining
    ensures IdAt(c, i) !in s.completed
  {
    ItemAt(c, i);
    RemainingMeans(c, s, IdAt(c, i));
  }

  lemma CompleteDeclares(c: Config, s: State, i: nat, outputs: map<string, Value>)
    requires i < |Nodes(c)| && outputs.Keys == Nodes(c)[i].outputs.Keys
    requires Valid(c.w) ==> DeclaredOutputs(c.w, s.nodeOutputs)
    ensures Valid(c.w) ==> DeclaredOutputs(c.w, s.nodeOutputs[IdAt(c, i) := outputs])
  {
    ItemAt(c, i);
  }

  lemma ReadyConsidered(needs: Requirements, done: seq<Id>, id: Id)
    requires id !in done && Ready(needs, done, id)
    ensures Consider(needs, done, id) == done + [id]
  {
  }

  lemma PrefixAppend<T>(a: seq<T>, b: seq<T>, x: T)
    requires IsPrefix(a, b)
    ensures IsPrefix(a, b + [x])
  {
    assert (b + [x])[..|a|] == b[..|a|];
  }

  /** At the end of a scan that made progress with nodes left, a new scan starts on track. */
  lemma NextScanOnTrack(c: Config, s: State)
    requires Books(c, s) && OnTrack(c, s, |Items(c)|) && s.remaining != {}
    ensures OnTrack(c, s.(progressed := false), 0)
  {
    var items, needs := Items(c), Needs(c);
    TakeAll(items);
    PassesStep(items, needs, s.completed);
    assert Pass([], needs, s.completed) == s.completed;
  }

  /** At the end of a scan without progress, or with nothing left, the passes are over. */
  lemma ScanOver(c: Config, s: State)
    requires Books(c, s) && OnTrack(c, s, |Items(c)|) && (!s.progressed || s.remaining == {})
    ensures s.completed == Total(c)
  {
    var items, needs := Items(c), Needs(c);
    TakeAll(items);
    PassesStep(items, needs, s.completed);
    if s.remaining == {} {
      Simulator.SortedNodesSame(c.w);
      forall x | x in items ensures x in s.completed {
        assert x in Elements(items);
        RemainingMeans(c, s, x);
      }
      NothingMissing(items, needs, s.completed);
    }
  }

  lemma FinishKeeps(c: Config, s: State)
    requires Books(c, s) && s.completed == Total(c) && s.remaining == {}
    ensures Invariant(c, Finish(c, s))
  {
    WholeIsPrefix(s.completed);
    hide Total, Edges, OutputValue, DeclaredOutputs, Needs, InOrder, IsPrefix;
  }

  lemma EnterKeeps(c: Config, s: State, i: nat)
    requires i < |Nodes(c)| && Books(c, s) && OnTrack(c, s, i)
    requires IdAt(c, i) in s.remaining && Ready(Needs(c), s.completed, IdAt(c, i))
    ensures Invariant(c, Enter(c, s, i))
  {
    hide Total, InputsAt, DeclaredOutputs, Needs, InOrder, Passes, Pass, Items, Nodes, Ready, IsPrefix;
    OnTrackIsPrefix(c, s, i);
    WholeIsPrefix(s.completed);
  }

  lemma WholeIsPrefix<T>(a: seq<T>)
    ensures IsPrefix(a, a)
  {
    assert a[..|a|] == a;
  }

  /** The code between two awaits keeps the invariant. */
  lemma {:induction false} AdvanceKeeps(c: Config, s: State, i: nat)
    requires i <= |Nodes(c)| && Books(c, s) && OnTrack(c, s, i)
    ensures Invariant(c, Advance(c, s, i))
    decreases if s.progressed then 1 else 0, |Nodes(c)| - i
  {
    hide Total, Finish, Enter, OnTrack, Books, Ready, Needs, Nodes, Invariant;
    if i == |Nodes(c)| {
      SameLength(c);
      if !s.progressed {
        ScanOver(c, s);
        StallKeeps(c, s);
      } else if s.remaining == {} {
        ScanOver(c, s);
        FinishKeeps(c, s);
      } else {
        NextScanOnTrack(c, s);
        BooksIgnoreProgress(c, s);
        AdvanceKeeps(c, s.(progressed := false), 0);
      }
    } else if IdAt(c, i) in s.remaining && Ready(Needs(c), s.completed, IdAt(c, i)) {
      EnterKeeps(c, s, i);
    } else {
      SkipStaysOnTrack(c, s, i);
      AdvanceKeeps(c, s, i + 1);
    }
  }

  lemma SameLength(c: Config)
    ensures |Items(c)| == |Nodes(c)|
  {
  }

  lemma BooksIgnoreProgress(c: Config, s: State)
    requires Books(c, s)
    ensures Books(c, s.(progressed := false))
  {
  }

  lemma StallKeeps(c: Config, s: State)
    requires Books(c, s) && OnTrack(c, s, |Items(c)|) && !s.progressed && s.completed == Total(c)
    ensures Invariant(c, s.(control := Failed(WorkflowStalled(s.remaining))))
  {
    WholeIsPrefix(s.completed);
    hide Total, Pass, Passes, Needs, Items, InOrder, DeclaredOutputs, IsPrefix;
  }

  lemma InitialInvariant(c: Config)
    ensures Invariant(c, Initial(c))
  {
    var s := Blank(c);
    assert Elements<Id>([]) == {};
    assert Books(c, s);
    var items, needs := Items(c), Needs(c);
    TakeAll(items);
    PassesStep(items, needs, []);
    if s.remaining == {} {
      Simulator.SortedNodesSame(c.w);
      assert Elements(items) == {};
      assert forall x :: x in items ==> x in Elements(items);
      NothingMissing(items, needs, []);
      FinishKeeps(c, s);
    } else {
      assert OnTrack(c, s, 0);
      AdvanceKeeps(c, s, 0);
    }
  }

  /** Moving on to the next await of the same node, or failing there, keeps the invariant. */
  lemma MoveKeeps(c: Config, s: State, control: Control)
    requires Invariant(c, s) && Active(s.control)
    requires || ((control.AtActivity? || control.AtProjection?) && control.index == s.control.index
                 && (control.AtProjection? ==> control.outputs.Keys == Nodes(c)[control.index].outputs.Keys))
             || (control.Failed? && !control.failure.WorkflowStalled? && !control.failure.WorkflowOutputMissing?)
    ensures Invariant(c, s.(control := control))
  {
    hide Total, Pass, Passes, Items, Needs, InOrder, DeclaredOutputs, Ready, IsPrefix, IdAt;
  }

  lemma SignalKeeps(c: Config, s: State, approvals: map<Id, bool>)
    requires Invariant(c, s)
    ensures Invariant(c, s.(approvals := approvals))
  {
    hide Total, Pass, Passes, Items, Needs, InOrder, DeclaredOutputs, Ready, IsPrefix, IdAt, Nodes, OutputValue, Edges;
  }

  lemma StepKeeps(c: Config, s: State, ev: Event)
    requires Invariant(c, s)
    ensures Invariant(c, Step(c, s, ev))
  {
    hide Invariant, Advance, Nodes, IdAt, CompleteNode;
    if ev.ProjectionDone? && s.control.AtProjection? {
      ProjectionKeeps(c, s);
    } else if ev.Signal? {
      SignalKeeps(c, s, s.approvals[ev.nodeId := ev.approved]);
    } else if Step(c, s, ev) != s {
      MoveKeeps(c, s, Step(c, s, ev).control);
    }
  }

  /** Finishing a node and running on to the next await keeps the invariant. */
  lemma ProjectionKeeps(c: Config, s: State)
    requires Invariant(c, s) && s.control.AtProjection?
    ensures Invariant(c, Step(c, s, ProjectionDone))
  {
    var i := s.control.index;
    CompleteStaysOnTrack(c, s, i, s.control.outputs);
    ProjectionFacts(c, s);
    ProjectionAdvances(c, s);
    hide Invariant, Advance, Books, OnTrack, CompleteNode, Step, Nodes, IdAt;
    AdvanceKeeps(c, CompleteNode(s, IdAt(c, i), s.control.outputs), i + 1);
  }

  /** Every state of every run, under any interleaving of events, satisfies the invariant. */
  lemma {:induction false} RunInvariant(c: Config, events: seq<Event>)
    ensures Invariant(c, After(c, events))
    decreases |events|
  {
    hide Invariant, Step;
    if events == [] {
      InitialInvariant(c);
    } else {
      RunInvariant(c, events[..|events| - 1]);
      StepKeeps(c, After(c, events[..|events| - 1]), events[|events| - 1]);
    }
  }

  // ----- safety over whole runs ---------------------------------------------------

  /** In every state of every run, nodes have completed at most once and after their predecessors,
      in the simulator's order, and the published status lags behind but never disagrees. */
  lemma DurableSafety(c: Config, events: seq<Event>)
    ensures var s := After(c, events);
      && Distinct(s.completed)
      && PredecessorClosed(Dependencies(c.w), Elements(s.completed))
      && IsPrefix(s.status.completedNodeIds, s.completed)
      && IsPrefix(s.completed, Simulator.Order(c.w, c.ext.Keys))
  {
    RunInvariant(c, events);
    hide After, DeclaredOutputs, PredecessorClosed, Pass, Passes;
    ScheduleIsPredecessorClosed(c.w, c.ext.Keys, After(c, events).completed);
  }

  /** An activity runs only for a node that is not finished and whose predecessors all are. */
  lemma RunningNodeIsReady(c: Config, events: seq<Event>)
    requires After(c, events).control.AtActivity?
    ensures var s := After(c, events);
      var id := IdAt(c, s.control.index);
      id !in s.completed && forall m :: (m, id) in Dependencies(c.w) ==> m in s.completed
  {
    RunInvariant(c, events);
    var s := After(c, events);
    hide After, DeclaredOutputs, Pass, Passes;
    var id := IdAt(c, s.control.index);
    ItemAt(c, s.control.index);
    RemainingMeans(c, s, id);
    forall m | (m, id) in Dependencies(c.w) ensures m in s.completed {
      UpstreamEdges(c.w, m, id);
    }
  }

  /** A finished run has completed every node, in the order of the simulator's completion events. */
  lemma AgreesWithSimulator(c: Config, events: seq<Event>, fixture: map<string, Simulator.Value>, t: Simulator.Trace)
    requires After(c, events).control.Finished?
    requires fixture.Keys == c.ext.Keys && Simulator.Supplied(c.w, fixture) && Simulator.TraceOf(c.w, fixture, t)
    ensures After(c, events).completed == Simulator.CompletedIds(t.events)
    ensures Elements(After(c, events).completed) == NodeIds(c.w)
  {
    RunInvariant(c, events);
    hide After, Pass, Passes, DeclaredOutputs;
    Simulator.TraceCompletes(c.w, fixture, t);
    Simulator.OrderIsComplete(c.w, fixture);
  }

  ghost predicate Supplied(c: Config) {
    Valid(c.w) && c.w.inputs.Keys <= c.ext.Keys
  }

  lemma TotalIsComplete(c: Config)
    requires Supplied(c)
    ensures IsSchedule(c.w, c.ext.Keys, Total(c)) && Elements(Total(c)) == NodeIds(c.w)
  {
    Simulator.SortedNodesSame(c.w);
    NoStall(c.w, c.ext.Keys, Items(c));
  }

  lemma EdgesFindSame(c: Config, p: string)
    requires Valid(c.w)
    ensures FirstInto(Edges(c), WorkflowOutput(p)) == FirstInto(c.w.edges, WorkflowOutput(p))
  {
    ValidUniqueTargets(c.w);
    SortMultiset(c.w.edges, EdgeLe);
    FirstIntoSame(Edges(c), c.w.edges, WorkflowOutput(p));
  }

  /** With a valid workflow and its inputs, no run ever stalls or ends without an output value:
      only rejected approvals, bad wait controls, failing activities or projections can fail it. */
  lemma DurableNeverStalls(c: Config, events: seq<Event>)
    requires Supplied(c)
    ensures var s := After(c, events);
      s.control.Failed? ==> !s.control.failure.WorkflowStalled? && !s.control.failure.WorkflowOutputMissing?
  {
    RunInvariant(c, events);
    TotalIsComplete(c);
    var s := After(c, events);
    hide After, Total, Pass, Passes, DeclaredOutputs;
    if s.control.Failed? && s.control.failure.WorkflowOutputMissing? {
      var p :| p in c.w.outputs && OutputValue(Edges(c), p, c.ext, s.nodeOutputs).None?;
      EdgesFindSame(c, p);
      OutputsProduced(c.w, c.ext, s.nodeOutputs, p);
    }
  }

  // ----- approvals ------------------------------------------------------------------

  /** The activity of an approval node starts only while an approved decision is stored for it. */
  lemma ApprovalGate(c: Config, s: State, ev: Event)
    requires KindMatches(c, s.control)
    ensures var t := Step(c, s, ev);
      t.control.AtActivity? && !(s.control.AtActivity? && s.control.index == t.control.index)
        && t.control.index < |Nodes(c)| && Nodes(c)[t.control.index].kind == Approval
      ==> s.control.AtApproval? && IdAt(c, t.control.index) in s.approvals && s.approvals[IdAt(c, t.control.index)]
  {
    hide Advance, Nodes, IdAt;
    if ev.ProjectionDone? && s.control.AtProjection? && s.control.index < |Nodes(c)| {
      AdvanceNotApproved(c, CompleteNode(s, IdAt(c, s.control.index), s.control.outputs), s.control.index + 1);
    }
  }

  lemma {:induction false} AdvanceNotApproved(c: Config, s: State, i: nat)
    requires i <= |Nodes(c)|
    ensures var t := Advance(c, s, i).control;
      && (t.AtActivity? ==> t.index < |Nodes(c)| && Nodes(c)[t.index].kind != Approval)
      && (t.AtTimer? ==> t.index < |Nodes(c)| && Nodes(c)[t.index].kind == Wait)
      && !t.AtProjection?
    decreases if s.progressed then 1 else 0, |Nodes(c)| - i
  {
    hide Nodes, Ready, Needs;
    if i == |Nodes(c)| {
      if s.progressed && s.remaining != {} {
        AdvanceNotApproved(c, s.(progressed := false), 0);
      }
    } else if !(Nodes(c)[i].id in s.remaining && Ready(Needs(c), s.completed, Nodes(c)[i].id)) {
      AdvanceNotApproved(c, s, i + 1);
    }
  }

  /** Stored decisions come from signals, and every approval node that was started was signalled. */
  ghost predicate Consented(c: Config, events: seq<Event>, s: State) {
    && (forall id :: id in s.approvals ==> Signal(id, s.approvals[id]) in events)
    && (forall n :: n in c.w.nodes && n.kind == Approval && Started(c, s, n.id) ==> Signal(n.id, true) in events)
  }

  ghost predicate Started(c: Config, s: State, id: Id) {
    id in s.completed || ((s.control.AtActivity? || s.control.AtProjection?) && IdAt(c, s.control.index) == id)
  }

  lemma NodeAtIndex(c: Config, i: nat, n: Node)
    requires UniqueIds(c.w) && i < |Nodes(c)| && n in c.w.nodes && n.id == IdAt(c, i)
    ensures n == Nodes(c)[i]
  {
    ItemAt(c, i);
    NodesByIdUnique(c.w.nodes, n);
    NodesByIdUnique(c.w.nodes, Nodes(c)[i]);
  }

  lemma AdvanceCompletes(c: Config, s: State, i: nat)
    requires i <= |Nodes(c)|
    ensures Advance(c, s, i).completed == s.completed && Advance(c, s, i).approvals == s.approvals
    decreases if s.progressed then 1 else 0, |Nodes(c)| - i
  {
    hide Nodes, Ready, Needs;
    if i == |Nodes(c)| {
      if s.progressed && s.remaining != {} {
        AdvanceCompletes(c, s.(progressed := false), 0);
      }
    } else if !(Nodes(c)[i].id in s.remaining && Ready(Needs(c), s.completed, Nodes(c)[i].id)) {
      AdvanceCompletes(c, s, i + 1);
    }
  }

  /** A step starts at most the node it moves on to, and an approval node only with consent. */
  lemma StepStarts(c: Config, s: State, ev: Event, n: Node)
    requires KindMatches(c, s.control) && UniqueIds(c.w) && n in c.w.nodes && n.kind == Approval
    requires Started(c, Step(c, s, ev), n.id) && !Started(c, s, n.id)
    ensures n.id in s.approvals && s.approvals[n.id]
  {
    ApprovalGate(c, s, ev);
    var t := Step(c, s, ev);
    hide Advance, Nodes, UniqueIds;
    if ev.ProjectionDone? && s.control.AtProjection? && s.control.index < |Nodes(c)| {
      var u := CompleteNode(s, IdAt(c, s.control.index), s.control.outputs);
      AdvanceCompletes(c, u, s.control.index + 1);
      AdvanceNotApproved(c, u, s.control.index + 1);
    }
    if t.control.AtActivity? && t.control.index < |Nodes(c)| && IdAt(c, t.control.index) == n.id {
      NodeAtIndex(c, t.control.index, n);
    }
  }

  /** Whatever the interleaving, an approval node is started only if an approval was signalled for it. */
  lemma {:induction false} ApprovalsAreSignalled(c: Config, events: seq<Event>)
    requires UniqueIds(c.w)
    ensures Consented(c, events, After(c, events))
    decreases |events|
  {
    if events == [] {
      InitialConsents(c);
    } else {
      var before, ev := events[..|events| - 1], events[|events| - 1];
      ApprovalsAreSignalled(c, before);
      RunInvariant(c, before);
      SplitLast(events);
      assert KindMatches(c, After(c, before).control);
      hide Invariant, Step, Started, After, KindMatches;
      StepConsents(c, before, After(c, before), ev);
      AfterStep(c, events);
    }
  }

  lemma AfterStep(c: Config, events: seq<Event>)
    requires events != []
    ensures After(c, events) == Step(c, After(c, events[..|events| - 1]), events[|events| - 1])
  {
  }

  lemma InitialConsents(c: Config)
    requires UniqueIds(c.w)
    ensures Consented(c, [], Initial(c))
  {
    var s := Blank(c);
    AdvanceCompletes(c, s, 0);
    AdvanceNotApproved(c, s, 0);
    InitialInvariant(c);
    forall n | n in c.w.nodes && n.kind == Approval ensures !Started(c, Initial(c), n.id) {
      var t := Initial(c).control;
      if t.AtActivity? && t.index < |Nodes(c)| && IdAt(c, t.index) == n.id {
        NodeAtIndex(c, t.index, n);
      }
    }
  }

  lemma StepConsents(c: Config, before: seq<Event>, s: State, ev: Event)
    requires UniqueIds(c.w) && KindMatches(c, s.control) && Consented(c, before, s)
    ensures Consented(c, before + [ev], Step(c, s, ev))
  {
    var t := Step(c, s, ev);
    StepStores(c, s, ev);
    hide KindMatches, Started, Step;
    forall n | n in c.w.nodes && n.kind == Approval && Started(c, t, n.id) ensures Signal(n.id, true) in before + [ev] {
      if !Started(c, s, n.id) {
        StepStarts(c, s, ev, n);
      }
      assert Signal(n.id, true) in before;
    }
  }

  lemma StepStores(c: Config, s: State, ev: Event)
    ensures Step(c, s, ev).approvals == if ev.Signal? then s.approvals[ev.nodeId := ev.approved] else s.approvals
  {
    hide Advance, Nodes, IdAt;
    if ev.ProjectionDone? && s.control.AtProjection? && s.control.index < |Nodes(c)| {
      AdvanceCompletes(c, CompleteNode(s, IdAt(c, s.control.index), s.control.outputs), s.control.index + 1);
    }
  }

  // ----- values ---------------------------------------------------------------------

  type Executor = (Node, map<string, Value>) -> map<string, Value>

  /** Every activity result in the run is what the executor returns for the inputs it was given. */
  ghost predicate Follows(c: Config, exec: Executor, events: seq<Event>) {
    forall k :: 0 <= k < |events| ==> FollowsAt(c, exec, After(c, events[..k]), events[k])
  }

  ghost predicate FollowsAt(c: Config, exec: Executor, s: State, ev: Event) {
    ev.ActivityReturned? && s.control.AtActivity? && s.control.index < |Nodes(c)| ==>
      ev.outputs == exec(Nodes(c)[s.control.index], s.control.inputs)
  }

  function Canonical(c: Config, s: State, id: Id): map<string, Value> {
    Gather(c.w.edges, id, c.ext, s.nodeOutputs)
  }

  /** Outputs are those of the schedule run so far, and the node in hand has its canonical inputs. */
  ghost predicate Computing(c: Config, exec: Executor, s: State) {
    && s.nodeOutputs == Run(c.w, c.ext, exec, s.completed)
    && (s.control.AtTimer? || s.control.AtApproval? || s.control.AtActivity? ==>
      s.control.inputs == Canonical(c, s, IdAt(c, s.control.index)))
    && (s.control.AtProjection? && s.control.index < |Nodes(c)| ==>
      s.control.outputs == exec(Nodes(c)[s.control.index], Canonical(c, s, IdAt(c, s.control.index))))
  }

  lemma CanonicalInputs(c: Config, s: State, id: Id)
    requires Valid(c.w)
    ensures InputsAt(c, s, id) == Canonical(c, s, id)
  {
    ValidUniqueTargets(c.w);
    SortMultiset(c.w.edges, EdgeLe);
    Simulator.UniqueTargetsPermute(c.w.edges, Edges(c));
    Simulator.IncomingSpec(Edges(c), id);
    GatherSame(Simulator.Incoming(Edges(c), id), c.w.edges, id, c.ext, s.nodeOutputs, s.nodeOutputs);
  }

  lemma {:induction false} AdvanceComputes(c: Config, exec: Executor, s: State, i: nat)
    requires Valid(c.w) && i <= |Nodes(c)| && s.nodeOutputs == Run(c.w, c.ext, exec, s.completed)
    ensures Computing(c, exec, Advance(c, s, i))
    decreases if s.progressed then 1 else 0, |Nodes(c)| - i
  {
    hide Nodes, Ready, Needs, Valid, Run, InputsAt, Canonical;
    if i == |Nodes(c)| {
      if s.progressed && s.remaining != {} {
        AdvanceComputes(c, exec, s.(progressed := false), 0);
      }
    } else if Nodes(c)[i].id in s.remaining && Ready(Needs(c), s.completed, Nodes(c)[i].id) {
      CanonicalInputs(c, s, Nodes(c)[i].id);
      CanonicalAgain(c, s, Enter(c, s, i), Nodes(c)[i].id);
    } else {
      AdvanceComputes(c, exec, s, i + 1);
    }
  }

  lemma CanonicalAgain(c: Config, s: State, t: State, id: Id)
    requires s.nodeOutputs == t.nodeOutputs
    ensures Canonical(c, s, id) == Canonical(c, t, id)
  {
  }

  lemma CompleteComputes(c: Config, exec: Executor, s: State)
    requires Valid(c.w) && Computing(c, exec, s) && s.control.AtProjection? && s.control.index < |Nodes(c)|
    ensures var t := CompleteNode(s, IdAt(c, s.control.index), s.control.outputs);
      t.nodeOutputs == Run(c.w, c.ext, exec, t.completed)
  {
    ItemAt(c, s.control.index);
    RunAppend(c.w, c.ext, exec, s.completed, IdAt(c, s.control.index));
  }

  lemma StepComputes(c: Config, exec: Executor, s: State, ev: Event)
    requires Valid(c.w) && Computing(c, exec, s) && FollowsAt(c, exec, s, ev)
    ensures Computing(c, exec, Step(c, s, ev))
  {
    hide Advance, Nodes, Valid, Run, Canonical, IdAt;
    if ev.ProjectionDone? && s.control.AtProjection? && s.control.index < |Nodes(c)| {
      CompleteComputes(c, exec, s);
      AdvanceComputes(c, exec, CompleteNode(s, IdAt(c, s.control.index), s.control.outputs), s.control.index + 1);
    } else {
      WaitComputes(c, exec, s, ev);
    }
  }

  /** A step that does not finish a node. */
  lemma WaitComputes(c: Config, exec: Executor, s: State, ev: Event)
    requires Computing(c, exec, s) && FollowsAt(c, exec, s, ev)
    requires !(ev.ProjectionDone? && s.control.AtProjection? && s.control.index < |Nodes(c)|)
    ensures Computing(c, exec, Step(c, s, ev))
  {
    hide Advance, Nodes, Run, Canonical, IdAt;
    if Active(s.control) {
      CanonicalAgain(c, s, Step(c, s, ev), IdAt(c, s.control.index));
    }
  }

  lemma {:induction false} RunComputes(c: Config, exec: Executor, events: seq<Event>)
    requires Valid(c.w) && Follows(c, exec, events)
    ensures Computing(c, exec, After(c, events))
    decreases |events|
  {
    if events == [] {
      var s := Blank(c);
      hide Valid, Advance;
      AdvanceComputes(c, exec, s, 0);
    } else {
      var k := |events| - 1;
      forall j | 0 <= j < k ensures FollowsAt(c, exec, After(c, events[..k][..j]), events[..k][j]) {
        assert events[..k][..j] == events[..j];
        assert FollowsAt(c, exec, After(c, events[..j]), events[j]);
      }
      RunComputes(c, exec, events[..k]);
      assert FollowsAt(c, exec, After(c, events[..k]), events[k]);
      hide Valid, After, Step, Computing, FollowsAt;
      AfterStep(c, events);
      StepComputes(c, exec, After(c, events[..k]), events[k]);
    }
  }

  /** However a run is interleaved, the outputs it has stored are those the workflow means. */
  lemma DurableComputesMeaning(c: Config, exec: Executor, events: seq<Event>)
    requires Valid(c.w) && Follows(c, exec, events)
    ensures var s := After(c, events);
      forall id :: id in s.completed ==>
        id in NodeIds(c.w) && id in s.nodeOutputs && s.nodeOutputs[id] == Eval(c.w, c.ext, exec, id)
  {
    RunComputes(c, exec, events);
    RunInvariant(c, events);
    hide Follows, After, DeclaredOutputs, Pass, Passes;
    ScheduleComputesEval(c.w, c.ext, exec, After(c, events).completed);
  }

  // ----- finishing a node -----------------------------------------------------------

  lemma ProjectionFacts(c: Config, s: State)
    requires Invariant(c, s) && s.control.AtProjection?
    ensures s.control.index < |Nodes(c)| && IdAt(c, s.control.index) in s.remaining
  {
  }

  lemma ProjectionAdvances(c: Config, s: State)
    requires s.control.AtProjection? && s.control.index < |Nodes(c)|
    ensures Step(c, s, ProjectionDone)
      == Advance(c, CompleteNode(s, IdAt(c, s.control.index), s.control.outputs), s.control.index + 1)
  {
  }
}

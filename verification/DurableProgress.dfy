/** Durable runs come to an end: how many events can have an effect, and when a run can finish. */
module DurableProgress {
  import opened Graphs
  import opened Ordering
  import opened Outcomes
  import opened Workflows
  import opened MultiPass
  import opened Scheduling
  import opened DurableRunner
  import Json

  // ----- how many events have an effect ---------------------------------------------

  function Stage(control: Control): nat {
    if control.AtTimer? || control.AtApproval? then 3
    else if control.AtActivity? then 2
    else if control.AtProjection? then 1
    else 0
  }

  /** Three events for each node that is left, less those the node in hand has had. */
  function Weight(s: State): int {
    if Active(s.control) then 3 * |s.remaining| + Stage(s.control) - 3 else 0
  }

  lemma AdvanceRemaining(c: Config, s: State, i: nat)
    requires i <= |Nodes(c)|
    ensures Advance(c, s, i).remaining == s.remaining
    decreases if s.progressed then 1 else 0, |Nodes(c)| - i
  {
    hide Nodes, Ready, Needs;
    if i == |Nodes(c)| {
      if s.progressed && s.remaining != {} {
        AdvanceRemaining(c, s.(progressed := false), 0);
      }
    } else if !(Nodes(c)[i].id in s.remaining && Ready(Needs(c), s.completed, Nodes(c)[i].id)) {
      AdvanceRemaining(c, s, i + 1);
    }
  }

  lemma OneLess(S: set<Id>, x: Id)
    requires x in S
    ensures |S - {x}| == |S| - 1
  {
  }

  lemma ProjectionShrinks(c: Config, s: State)
    requires Invariant(c, s) && s.control.AtProjection?
    ensures Weight(Step(c, s, ProjectionDone)) < Weight(s)
  {
    hide Advance, Nodes, Invariant, IdAt, Step;
    ProjectionFacts(c, s);
    ProjectionAdvances(c, s);
    var id, i := IdAt(c, s.control.index), s.control.index;
    assert s.remaining - {id} == CompleteNode(s, id, s.control.outputs).remaining;
    hide CompleteNode;
    OneLess(s.remaining, id);
    AdvanceRemaining(c, CompleteNode(s, id, s.control.outputs), i + 1);
  }

  lemma MoveStage(c: Config, s: State, ev: Event)
    requires !ev.Signal? && !ev.ProjectionDone? && Step(c, s, ev) != s
    ensures var t := Step(c, s, ev);
      t.remaining == s.remaining && Active(s.control) && Stage(t.control) < Stage(s.control)
  {
    hide Advance, Nodes, IdAt;
  }

  lemma ActiveWeight(c: Config, s: State)
    requires Invariant(c, s) && Active(s.control)
    ensures |s.remaining| >= 1 && Weight(s) >= Stage(s.control) >= 1
  {
    hide Nodes, Needs, Total, Ready, Books, OnTrack;
    OneLess(s.remaining, IdAt(c, s.control.index));
  }

  /** Every effective event other than a signal brings the run closer to its end. */
  lemma StepShrinks(c: Config, s: State, ev: Event)
    requires Invariant(c, s) && !ev.Signal? && Step(c, s, ev) != s
    ensures Weight(Step(c, s, ev)) < Weight(s)
  {
    hide Advance, Nodes, Invariant, IdAt, Step;
    if ev.ProjectionDone? {
      DoneNeedsProjection(c, s);
      ProjectionShrinks(c, s);
    } else {
      MoveStage(c, s, ev);
      ActiveWeight(c, s);
    }
  }

  lemma DoneNeedsProjection(c: Config, s: State)
    requires Step(c, s, ProjectionDone) != s
    ensures s.control.AtProjection?
  {
  }

  predicate Effective(c: Config, s: State, ev: Event) {
    !ev.Signal? && Step(c, s, ev) != s
  }

  /** The events of a run, other than signals, that had an effect. */
  function Effects(c: Config, events: seq<Event>): nat {
    if events == [] then 0
    else
      var front := events[..|events| - 1];
      Effects(c, front) + (if Effective(c, After(c, front), events[|events| - 1]) then 1 else 0)
  }

  lemma SignalWeighsNothing(c: Config, s: State, ev: Event)
    requires ev.Signal?
    ensures Weight(Step(c, s, ev)) == Weight(s)
  {
    hide Advance;
  }

  lemma WeightIsNat(c: Config, s: State)
    requires Invariant(c, s)
    ensures Weight(s) >= 0
  {
    hide Invariant;
    if Active(s.control) {
      ActiveWeight(c, s);
    }
  }

  lemma InitialWeight(c: Config)
    ensures Weight(Initial(c)) <= 3 * |NodeIds(c.w)|
  {
    var s := Blank(c);
    hide Advance, Finish, Nodes;
    if s.remaining == {} {
      FinishIsOver(c, s);
    } else {
      AdvanceRemaining(c, s, 0);
    }
  }

  lemma FinishIsOver(c: Config, s: State)
    ensures !Active(Finish(c, s).control)
  {
    hide OutputValue, Edges;
  }

  /** However long a run is and whatever arrives in it, at most three events for each node have an effect,
      signals apart. */
  lemma {:induction false} EffectsAreBounded(c: Config, events: seq<Event>)
    ensures Effects(c, events) + Weight(After(c, events)) <= 3 * |NodeIds(c.w)|
    ensures Effects(c, events) <= 3 * |NodeIds(c.w)|
    decreases |events|
  {
    RunInvariant(c, events);
    WeightIsNat(c, After(c, events));
    if events == [] {
      InitialWeight(c);
    } else {
      var front, ev := events[..|events| - 1], events[|events| - 1];
      EffectsAreBounded(c, front);
      RunInvariant(c, front);
      AfterStep(c, events);
      hide After, Step, Invariant, Weight, NodeIds;
      var s := After(c, front);
      if ev.Signal? {
        SignalWeighsNothing(c, s, ev);
      } else if Step(c, s, ev) != s {
        StepShrinks(c, s, ev);
      }
    }
  }

  // ----- when a run can finish ------------------------------------------------------

  /** The wait control of a wait node is a non-negative integer. */
  predicate WaitOk(c: Config, n: Node) {
    n.kind == Wait ==> n.id in c.waitMs && c.waitMs[n.id] >= 0
  }

  ghost predicate WaitsOk(c: Config) {
    forall n :: n in c.w.nodes ==> WaitOk(c, n)
  }

  /** Approved signals and events that report no failure. */
  predicate GoesWell(ev: Event) {
    (ev.Signal? ==> ev.approved) && !ev.ActivityFailed? && !ev.ProjectionFailed?
  }

  predicate Alive(control: Control) {
    Active(control) || control.Finished?
  }

  predicate AliveOrStuck(control: Control) {
    Alive(control) || (control.Failed? && (control.failure.WorkflowStalled? || control.failure.WorkflowOutputMissing?))
  }

  /** The code between two awaits fails only for a stall, a missing output or a bad wait control. */
  lemma {:induction false} AdvanceFailure(c: Config, s: State, i: nat)
    requires i <= |Nodes(c)| && WaitsOk(c)
    ensures AliveOrStuck(Advance(c, s, i).control)
    decreases if s.progressed then 1 else 0, |Nodes(c)| - i
  {
    hide Nodes, Ready, Needs, WaitsOk, InputsAt, Edges, OutputValue;
    if i == |Nodes(c)| {
      if s.progressed && s.remaining != {} {
        AdvanceFailure(c, s.(progressed := false), 0);
      }
    } else if Nodes(c)[i].id in s.remaining && Ready(Needs(c), s.completed, Nodes(c)[i].id) {
      NodeWaitOk(c, i);
    } else {
      AdvanceFailure(c, s, i + 1);
    }
  }

  lemma NodeWaitOk(c: Config, i: nat)
    requires i < |Nodes(c)| && WaitsOk(c)
    ensures WaitOk(c, Nodes(c)[i])
  {
    ItemAt(c, i);
  }

  lemma StartsAlive(c: Config)
    requires Supplied(c) && WaitsOk(c)
    ensures Alive(Initial(c).control)
  {
    var s := Blank(c);
    DurableNeverStalls(c, []);
    assert After(c, []) == Initial(c);
    hide After, Advance, Finish, Supplied, WaitsOk, Nodes;
    if s.remaining == {} {
      FinishFailure(c, s);
    } else {
      AdvanceFailure(c, s, 0);
    }
  }

  lemma FinishFailure(c: Config, s: State)
    ensures var t := Finish(c, s).control; t.Finished? || (t.Failed? && t.failure.WorkflowOutputMissing?)
  {
    hide OutputValue, Edges;
  }

  lemma AfterAppend(c: Config, events: seq<Event>, ev: Event)
    ensures After(c, events + [ev]) == Step(c, After(c, events), ev)
  {
    AppendSplit(events, ev);
    hide Step;
  }

  /** The events that take the node in hand to its next await, or past its end; an approval is signalled only
      if no decision is there yet. */
  function NextEvents(c: Config, s: State): seq<Event> {
    match s.control
    case AtTimer(_, _) => [TimerFired]
    case AtApproval(i, _) =>
      if IdAt(c, i) in s.approvals then [ApprovalSeen] else [Signal(IdAt(c, i), true), ApprovalSeen]
    case AtActivity(i, _) =>
      [ActivityReturned(if i < |Nodes(c)| then map p | p in Nodes(c)[i].outputs :: Json.Null else map[])]
    case AtProjection(_, _) => [ProjectionDone]
    case _ => []
  }

  /** No stored decision is a rejection. */
  ghost predicate NoRejection(s: State) {
    forall id :: id in s.approvals ==> s.approvals[id]
  }

  /** The run waits for an approval that has been rejected, which is about to fail it. */
  predicate Refused(c: Config, s: State) {
    s.control.AtApproval? && IdAt(c, s.control.index) in s.approvals && !s.approvals[IdAt(c, s.control.index)]
  }

  lemma WaitingMoves(c: Config, s: State)
    requires s.control.AtTimer? || (s.control.AtActivity? && s.control.index < |Nodes(c)|)
    ensures var t := Step(c, s, NextEvents(c, s)[0]); Active(t.control) && t != s
  {
    hide Advance, Nodes, IdAt;
  }

  lemma ApprovalMoves(c: Config, s: State)
    requires s.control.AtApproval? && IdAt(c, s.control.index) in s.approvals
    ensures Step(c, s, ApprovalSeen) != s
    ensures !Refused(c, s) ==> Active(Step(c, s, ApprovalSeen).control)
  {
    hide Advance, Nodes, IdAt;
  }

  lemma ProjectionMoves(c: Config, s: State)
    requires Invariant(c, s) && s.control.AtProjection?
    ensures Step(c, s, ProjectionDone) != s
    ensures WaitsOk(c) ==> AliveOrStuck(Step(c, s, ProjectionDone).control)
  {
    ProjectionFacts(c, s);
    ProjectionAdvances(c, s);
    ProjectionShrinks(c, s);
    hide Advance, Invariant, WaitsOk, Nodes, Weight, Step, CompleteNode;
    if WaitsOk(c) {
      AdvanceFailure(c, CompleteNode(s, IdAt(c, s.control.index), s.control.outputs), s.control.index + 1);
    }
  }

  lemma DecidedMovesOn(c: Config, events: seq<Event>)
    requires var s := After(c, events); s.control.AtApproval? && IdAt(c, s.control.index) in s.approvals
    ensures var t := After(c, events + [ApprovalSeen]);
      Weight(t) < Weight(After(c, events)) && (!Refused(c, After(c, events)) ==> Active(t.control))
  {
    hide After, Step, Invariant, Weight, IdAt, Refused;
    RunInvariant(c, events);
    AfterAppend(c, events, ApprovalSeen);
    ApprovalMoves(c, After(c, events));
    StepShrinks(c, After(c, events), ApprovalSeen);
  }

  lemma Signalled(c: Config, s: State, id: Id)
    ensures var t := Step(c, s, Signal(id, true));
      t.control == s.control && t.approvals == s.approvals[id := true] && Weight(t) == Weight(s)
  {
    hide Advance;
  }

  lemma ApprovalMovesOn(c: Config, events: seq<Event>)
    requires After(c, events).control.AtApproval?
    ensures var t := After(c, events + NextEvents(c, After(c, events)));
      Weight(t) < Weight(After(c, events)) && (!Refused(c, After(c, events)) ==> Active(t.control))
  {
    var s := After(c, events);
    var id := IdAt(c, s.control.index);
    if id in s.approvals {
      assert NextEvents(c, s) == [ApprovalSeen];
      DecidedMovesOn(c, events);
    } else {
      var signalled := events + [Signal(id, true)];
      assert NextEvents(c, s) == [Signal(id, true), ApprovalSeen];
      assert events + [Signal(id, true), ApprovalSeen] == signalled + [ApprovalSeen];
      hide After, Step, Weight, IdAt, NextEvents;
      AfterAppend(c, events, Signal(id, true));
      Signalled(c, s, id);
      DecidedMovesOn(c, signalled);
    }
  }

  lemma ProjectionMovesOn(c: Config, events: seq<Event>)
    requires After(c, events).control.AtProjection?
    ensures var t := After(c, events + NextEvents(c, After(c, events)));
      Weight(t) < Weight(After(c, events)) && (Supplied(c) && WaitsOk(c) ==> Alive(t.control))
  {
    var s := After(c, events);
    assert NextEvents(c, s) == [ProjectionDone];
    hide After, Step, Invariant, Weight, WaitsOk, Supplied, NextEvents;
    RunInvariant(c, events);
    AfterAppend(c, events, ProjectionDone);
    ProjectionMoves(c, s);
    ProjectionShrinks(c, s);
    if Supplied(c) && WaitsOk(c) {
      DurableNeverStalls(c, events + [ProjectionDone]);
    }
  }

  lemma WaitingMovesOn(c: Config, events: seq<Event>)
    requires After(c, events).control.AtTimer? || After(c, events).control.AtActivity?
    ensures var t := After(c, events + NextEvents(c, After(c, events)));
      Active(t.control) && Weight(t) < Weight(After(c, events))
  {
    var s := After(c, events);
    var next := NextEvents(c, s);
    RunInvariant(c, events);
    assert s.control.index < |Nodes(c)| && next == [next[0]] && !next[0].Signal?;
    hide After, Step, Invariant, Weight, NextEvents, Nodes;
    AfterAppend(c, events, next[0]);
    WaitingMoves(c, s);
    StepShrinks(c, s, next[0]);
  }

  /** Every run that is not over can go on without a failing activity or projection, closer to its end; with
      a supplied workflow and good wait controls only a rejection can fail it then. */
  lemma NeverDeadlocks(c: Config, events: seq<Event>)
    requires Active(After(c, events).control)
    ensures var s, t := After(c, events), After(c, events + NextEvents(c, After(c, events)));
      Weight(t) < Weight(s) && (Supplied(c) && WaitsOk(c) && !Refused(c, s) ==> Alive(t.control))
    ensures forall ev :: ev in NextEvents(c, After(c, events)) ==> GoesWell(ev)
  {
    var s := After(c, events);
    NextEventsGoWell(c, s);
    hide After, Step, Invariant, Nodes, WaitsOk, Supplied, Weight, IdAt, NextEvents, GoesWell, Refused;
    if s.control.AtApproval? {
      ApprovalMovesOn(c, events);
    } else if s.control.AtProjection? {
      ProjectionMovesOn(c, events);
    } else {
      WaitingMovesOn(c, events);
    }
  }

  lemma NextEventsGoWell(c: Config, s: State)
    ensures forall ev :: ev in NextEvents(c, s) ==> GoesWell(ev)
  {
    hide Nodes, IdAt;
  }

  lemma {:induction false} NoRejectionKept(c: Config, events: seq<Event>, more: seq<Event>)
    requires NoRejection(After(c, events)) && forall ev :: ev in more ==> GoesWell(ev)
    ensures NoRejection(After(c, events + more))
    decreases |more|
  {
    if more == [] {
      assert events + more == events;
    } else {
      var front, last := more[..|more| - 1], more[|more| - 1];
      assert events + more == (events + front) + [last];
      assert last in more;
      NoRejectionKept(c, events, front);
      hide After, Step;
      AfterAppend(c, events + front, last);
      StepStores(c, After(c, events + front), last);
    }
  }

  /** Once no rejection is stored the run can be carried to its end. */
  lemma {:induction false} CanFinishUnrefused(c: Config, events: seq<Event>) returns (more: seq<Event>)
    requires Supplied(c) && WaitsOk(c) && Alive(After(c, events).control) && NoRejection(After(c, events))
    ensures forall ev :: ev in more ==> GoesWell(ev)
    ensures After(c, events + more).control.Finished?
    decreases Weight(After(c, events))
  {
    hide Supplied, WaitsOk, After, Weight;
    if After(c, events).control.Finished? {
      more := [];
      assert events + more == events;
    } else {
      var next := NextEvents(c, After(c, events));
      RunInvariant(c, events);
      WeightIsNat(c, After(c, events));
      NeverDeadlocks(c, events);
      NoRejectionKept(c, events, next);
      hide Invariant, NextEvents, NoRejection;
      var rest := CanFinishUnrefused(c, events + next);
      more := next + rest;
      assert events + more == (events + next) + rest;
    }
  }

  ghost function Rejected(s: State): set<Id> {
    set id | id in s.approvals && !s.approvals[id]
  }

  /** A rejection the run has not come to yet can be taken back. */
  lemma {:induction false} TakeBack(c: Config, events: seq<Event>) returns (more: seq<Event>)
    ensures forall ev :: ev in more ==> ev.Signal? && ev.approved
    ensures NoRejection(After(c, events + more)) && After(c, events + more).control == After(c, events).control
    decreases |Rejected(After(c, events))|
  {
    var s := After(c, events);
    if Rejected(s) == {} {
      more := [];
      assert events + more == events;
      assert forall id :: id in s.approvals && !s.approvals[id] ==> id in Rejected(s);
    } else {
      var id :| id in Rejected(s);
      var signal := Signal(id, true);
      AfterAppend(c, events, signal);
      Signalled(c, s, id);
      hide After, Step, NoRejection;
      assert Rejected(After(c, events + [signal])) == Rejected(s) - {id};
      var rest := TakeBack(c, events + [signal]);
      more := [signal] + rest;
      assert events + more == (events + [signal]) + rest;
    }
  }

  /** At no point of the continuation has the run come to a rejected approval. */
  ghost predicate NeverRefused(c: Config, events: seq<Event>, more: seq<Event>) {
    forall k :: 0 <= k <= |more| ==> !Refused(c, After(c, events + more[..k]))
  }

  lemma {:induction false} ApprovalsRefuseNothing(c: Config, events: seq<Event>, more: seq<Event>)
    requires !Refused(c, After(c, events)) && forall ev :: ev in more ==> ev.Signal? && ev.approved
    ensures !Refused(c, After(c, events + more))
    decreases |more|
  {
    if more == [] {
      assert events + more == events;
    } else {
      var front, last := more[..|more| - 1], more[|more| - 1];
      assert events + more == (events + front) + [last];
      assert last in more;
      ApprovalsRefuseNothing(c, events, front);
      hide After, Step;
      AfterAppend(c, events + front, last);
      Signalled(c, After(c, events + front), last.nodeId);
    }
  }

  lemma UnrejectedIsUnrefused(c: Config, events: seq<Event>, more: seq<Event>)
    requires NoRejection(After(c, events)) && forall ev :: ev in more ==> GoesWell(ev)
    ensures !Refused(c, After(c, events + more))
  {
    NoRejectionKept(c, events, more);
    hide After;
  }

  /** A run that has neither failed nor come to a rejected approval can be carried to its end without any
      failure, and without coming to a rejected approval. */
  lemma CanFinish(c: Config, events: seq<Event>) returns (more: seq<Event>)
    requires Supplied(c) && WaitsOk(c) && Alive(After(c, events).control) && !Refused(c, After(c, events))
    ensures NeverRefused(c, events, more) && forall ev :: ev in more ==> GoesWell(ev)
    ensures After(c, events + more).control.Finished?
  {
    hide Supplied, WaitsOk, After, NoRejection, Refused;
    var first := TakeBack(c, events);
    var rest := CanFinishUnrefused(c, events + first);
    more := first + rest;
    assert events + more == (events + first) + rest;
    forall k | 0 <= k <= |more| ensures !Refused(c, After(c, events + more[..k])) {
      if k <= |first| {
        assert more[..k] == first[..k];
        ApprovalsRefuseNothing(c, events, first[..k]);
      } else {
        assert events + more[..k] == (events + first) + rest[..k - |first|];
        UnrejectedIsUnrefused(c, events + first, rest[..k - |first|]);
      }
    }
  }

  // ----- and when it cannot ---------------------------------------------------------

  /** Every node taken up so far has a good wait control. */
  ghost predicate EnteredOk(c: Config, s: State) {
    && (forall n :: n in c.w.nodes && n.id in s.completed ==> WaitOk(c, n))
    && (Active(s.control) ==> s.control.index < |Nodes(c)| && WaitOk(c, Nodes(c)[s.control.index]))
  }

  lemma {:induction false} AdvanceEntersOk(c: Config, s: State, i: nat)
    requires i <= |Nodes(c)|
    ensures var t := Advance(c, s, i).control;
      Active(t) ==> t.index < |Nodes(c)| && WaitOk(c, Nodes(c)[t.index])
    decreases if s.progressed then 1 else 0, |Nodes(c)| - i
  {
    hide Nodes, Ready, Needs, InputsAt, Edges, OutputValue;
    if i == |Nodes(c)| {
      if s.progressed && s.remaining != {} {
        AdvanceEntersOk(c, s.(progressed := false), 0);
      }
    } else if !(Nodes(c)[i].id in s.remaining && Ready(Needs(c), s.completed, Nodes(c)[i].id)) {
      AdvanceEntersOk(c, s, i + 1);
    }
  }

  lemma StepEntersOk(c: Config, s: State, ev: Event)
    requires UniqueIds(c.w) && EnteredOk(c, s)
    ensures EnteredOk(c, Step(c, s, ev))
  {
    hide Advance, Nodes, IdAt, UniqueIds, WaitOk;
    if ev.ProjectionDone? && s.control.AtProjection? && s.control.index < |Nodes(c)| {
      var i := s.control.index;
      var t := CompleteNode(s, IdAt(c, i), s.control.outputs);
      AdvanceCompletes(c, t, i + 1);
      AdvanceEntersOk(c, t, i + 1);
      forall n | n in c.w.nodes && n.id in t.completed ensures WaitOk(c, n) {
        if n.id !in s.completed {
          NodeAtIndex(c, i, n);
        }
      }
    }
  }

  lemma {:induction false} RunEntersOk(c: Config, events: seq<Event>)
    requires UniqueIds(c.w)
    ensures EnteredOk(c, After(c, events))
    decreases |events|
  {
    hide UniqueIds, EnteredOk, Step;
    if events == [] {
      InitialEntersOk(c);
    } else {
      var front := events[..|events| - 1];
      RunEntersOk(c, front);
      StepEntersOk(c, After(c, front), events[|events| - 1]);
    }
  }

  lemma InitialEntersOk(c: Config)
    ensures EnteredOk(c, Initial(c))
  {
    AdvanceEntersOk(c, Blank(c), 0);
    AdvanceCompletes(c, Blank(c), 0);
    FinishIsOver(c, Blank(c));
    hide Advance, Nodes, WaitOk, NodeIds, OutputValue, Edges;
  }

  /** A workflow whose inputs are supplied has a finished run exactly when all its wait controls are good; then
      no run fails before its first event, and `CanFinish` says from where it can go on. */
  lemma CanFinishIff(c: Config)
    requires Supplied(c)
    ensures (exists events :: After(c, events).control.Finished?) <==> WaitsOk(c)
    ensures WaitsOk(c) ==> Alive(Initial(c).control)
  {
    if events :| After(c, events).control.Finished? {
      RunInvariant(c, events);
      RunEntersOk(c, events);
      TotalIsComplete(c);
      FinishedCoversAll(c, After(c, events));
    }
    if WaitsOk(c) {
      StartsAlive(c);
      hide Supplied, WaitsOk, Initial;
      assert After(c, []) == Initial(c);
      NothingDecided(c);
      var more := CanFinishUnrefused(c, []);
    }
  }

  lemma NothingDecided(c: Config)
    ensures Initial(c).approvals == map[]
  {
    AdvanceCompletes(c, Blank(c), 0);
    hide Advance, OutputValue, Edges, Nodes;
  }

  lemma FinishedCoversAll(c: Config, s: State)
    requires Invariant(c, s) && s.control.Finished? && EnteredOk(c, s) && Elements(Total(c)) == NodeIds(c.w)
    ensures WaitsOk(c)
  {
    hide Nodes, Total, Needs, Books, OnTrack, WaitOk;
    forall n | n in c.w.nodes ensures WaitOk(c, n) {
      assert n.id in NodeIds(c.w);
      assert n.id in Elements(s.completed);
    }
  }

  /** A single wait node. */
  function OneWait(): Workflow {
    Workflow("v", "w", "1", DIRECT, [], map[], map[], Json.Null, Json.Null, Json.Null,
      [Node("a", Wait, map[], map[], [], [], Budget(1, None), None, None, Json.Null)], [])
  }

  lemma OneWaitValid()
    ensures Valid(OneWait())
  {
    assert Dependencies(OneWait()) == {};
    RankedIsAcyclic({}, x => 0);
  }

  /** Without a wait control this valid workflow, which needs no inputs, is never finished. */
  lemma MayNotFinish(events: seq<Event>)
    ensures var c := Config(OneWait(), map[], map[]);
      Supplied(c) && !After(c, events).control.Finished?
  {
    var c := Config(OneWait(), map[], map[]);
    OneWaitValid();
    assert !WaitOk(c, c.w.nodes[0]);
    hide Valid, After;
    CanFinishIff(c);
  }
}

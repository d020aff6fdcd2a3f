/** Forward invalidation from changed roots, undeclared reads and regression sets. */
module Impact {
  import opened Graphs
  import opened Ordering
  import opened PathPatterns
  import opened Workflows
  import opened GraphSearch
  import opened RevisionDiff

  datatype ImpactReason =
    | Changed(reason: ChangeReason)
    | UpstreamInvalidated(source: Id)
    | UndeclaredRead(read: string)
    | UnknownObserved(nodeId: Id)
    | BroadRegression(nodeId: Id)
    | UnknownRegression(nodeId: Id)

  datatype Violation =
    | UndeclaredReadViolation(nodeId: Id, read: string)
    | UnknownObservedNode(nodeId: Id)
    | UnknownBroadRegressionNode(nodeId: Id)

  datatype Options = Options(broadRegressionNodeIds: set<Id>, observedReads: map<Id, set<string>>)

  datatype Action = Reuse | Rerun

  datatype Decision = Decision(nodeId: Id, action: Action, mandatoryRerun: bool, reasons: set<ImpactReason>)

  datatype ImpactResult = ImpactResult(
    decisions: seq<Decision>,
    removedNodeIds: set<Id>,
    workflowReasons: WorkflowReasons,
    violations: set<Violation>,
    unsafe: bool)

  // ----- the graph that is followed -----------------------------------------------

  /** Dependency edges that leave a known node; the target may be unknown. */
  function ImpactGraph(w: Workflow): Graph {
    set e | e in w.edges && IsDependency(e) && e.source.nodeId in NodesById(w.nodes) :: DependencyOf(e)
  }

  // ----- what the result must say -------------------------------------------------

  predicate Declares(n: Node, read: string) {
    exists pattern | pattern in n.readPatterns :: PatternMatches(pattern, read)
  }

  /** A known node was seen reading something none of its patterns covers. */
  predicate IllRead(w: Workflow, o: Options, m: Id, read: string) {
    m in NodesById(w.nodes) && m in o.observedReads && read in o.observedReads[m]
      && !Declares(NodesById(w.nodes)[m], read)
  }

  ghost predicate IllReader(w: Workflow, o: Options, m: Id) {
    exists read :: IllRead(w, o, m, read)
  }

  ghost predicate KnownRoot(w: Workflow, roots: seq<ChangedRoot>, m: Id) {
    m in NodesById(w.nodes) && exists r :: r in roots && r.nodeId == m
  }

  /** Strictly downstream. */
  ghost predicate Below(w: Workflow, m: Id, n: Id) {
    m != n && Reaches(ImpactGraph(w), m, n)
  }

  /** Exactly when node `n` carries a reason. */
  ghost predicate Carries(w: Workflow, roots: seq<ChangedRoot>, o: Options, n: Id, reason: ImpactReason) {
    match reason
    case Changed(x) => exists r :: r in roots && r.nodeId == n && x in r.reasons
    case UpstreamInvalidated(m) => Below(w, m, n) && (KnownRoot(w, roots, m) || IllReader(w, o, m))
    case UndeclaredRead(read) => IllRead(w, o, n, read)
    case UnknownObserved(m) => m in o.observedReads && m !in NodesById(w.nodes)
    case BroadRegression(m) => m == n && m in o.broadRegressionNodeIds
    case UnknownRegression(m) => m in o.broadRegressionNodeIds && m !in NodesById(w.nodes)
  }

  /** Reruns no cached result may replace: everything but the closure of the ordinary roots. */
  ghost predicate Mandatory(w: Workflow, o: Options, n: Id) {
    || (exists m :: IllReader(w, o, m) && (m == n || Below(w, m, n)))
    || (exists m :: m in o.observedReads && m !in NodesById(w.nodes))
    || n in o.broadRegressionNodeIds
    || (exists m :: m in o.broadRegressionNodeIds && m !in NodesById(w.nodes))
  }

  ghost predicate Violates(w: Workflow, o: Options, v: Violation) {
    match v
    case UndeclaredReadViolation(m, read) => IllRead(w, o, m, read)
    case UnknownObservedNode(m) => m in o.observedReads && m !in NodesById(w.nodes)
    case UnknownBroadRegressionNode(m) => m in o.broadRegressionNodeIds && m !in NodesById(w.nodes)
  }

  /** The decision about one node is right. */
  ghost predicate RightDecision(w: Workflow, roots: seq<ChangedRoot>, o: Options, d: Decision) {
    && (forall x :: x in d.reasons <==> Carries(w, roots, o, d.nodeId, x))
    && (d.action == Rerun <==> d.reasons != {})
    && (d.mandatoryRerun <==> Mandatory(w, o, d.nodeId))
  }

  ghost predicate RightResult(w: Workflow, roots: seq<ChangedRoot>, o: Options, r: ImpactResult) {
    && |r.decisions| == |SortedKeys(NodesById(w.nodes).Keys)|
    && (forall i :: 0 <= i < |r.decisions| ==>
      r.decisions[i].nodeId == SortedKeys(NodesById(w.nodes).Keys)[i] && RightDecision(w, roots, o, r.decisions[i]))
    && (forall v :: v in r.violations <==> Violates(w, o, v))
    && (r.unsafe <==> r.violations != {})
  }

  // ----- the computation ----------------------------------------------------------

  /** The reasons recorded so far, as pairs of node and reason, and the mandatory nodes. */
  datatype Marks = Marks(reasons: set<(Id, ImpactReason)>, mandatory: set<Id>, violations: set<Violation>)

  method BuildAdjacency(w: Workflow) returns (adjacency: Adjacency)
    ensures GraphOf(adjacency) == ImpactGraph(w)
  {
    hide GraphOf, NodesById;
    var nodes := NodesById(w.nodes);
    adjacency := EmptyFor(nodes.Keys);
    var i := 0;
    while i < |w.edges|
      invariant 0 <= i <= |w.edges|
      invariant adjacency.Keys == nodes.Keys
      invariant GraphOf(adjacency) == ImpactGraph(w.(edges := w.edges[..i]))
    {
      var e := w.edges[i];
      TakeMore(w.edges, i);
      ImpactGraphStep(w, i);
      if IsDependency(e) && e.source.nodeId in adjacency {
        adjacency := AddEdge(adjacency, e.source.nodeId, e.target.nodeId);
      }
      i := i + 1;
    }
    TakeAll(w.edges);
    assert w.(edges := w.edges[..|w.edges|]) == w;
  }

  lemma ImpactGraphStep(w: Workflow, i: nat)
    requires i < |w.edges|
    ensures var e := w.edges[i];
      ImpactGraph(w.(edges := w.edges[..i + 1])) == ImpactGraph(w.(edges := w.edges[..i]))
        + (if IsDependency(e) && e.source.nodeId in NodesById(w.nodes) then {DependencyOf(e)} else {})
  {
    TakeMore(w.edges, i);
  }

  method EmptyFor(ids: set<Id>) returns (adjacency: Adjacency)
    ensures adjacency.Keys == ids && GraphOf(adjacency) == {}
  {
    adjacency := map id | id in ids :: [];
  }

  function UpstreamMarks(ids: set<Id>, start: Id): set<(Id, ImpactReason)> {
    set n | n in ids :: (n, UpstreamInvalidated(start))
  }

  /** The breadth-first loop: everything reached from `start`. */
  method Downstream(adjacency: Adjacency, start: Id) returns (visited: set<Id>)
    ensures forall n :: n in visited <==> Reaches(GraphOf(adjacency), start, n)
  {
    hide GraphOf, Universe, Reaches;
    var queue := [start];
    visited := {start};
    StartKnown(adjacency, start);
    hide Searching;
    while queue != []
      invariant Searching(adjacency, start, visited, queue)
      decreases |Universe(adjacency) + {start} - visited|, |queue|
    {
      var current := queue[0];
      assert queue == [current] + queue[1..];
      var added := NewTargets(Next(adjacency, current), visited);
      SearchStep(adjacency, start, visited, queue[1..], current, added);
      Narrowed(Universe(adjacency) + {start}, visited, Elements(added), added);
      queue := queue[1..] + added;
      visited := visited + Elements(added);
    }
    SearchDone(adjacency, start, visited);
  }

  /** Everything strictly downstream of `start` gets a reason naming it. */
  method Propagate(adjacency: Adjacency, start: Id, reasons: set<(Id, ImpactReason)>)
    returns (grown: set<(Id, ImpactReason)>, reached: set<Id>)
    ensures forall n :: n in reached <==> n != start && Reaches(GraphOf(adjacency), start, n)
    ensures grown == reasons + UpstreamMarks(reached, start)
  {
    var visited := Downstream(adjacency, start);
    reached := visited - {start};
    grown := reasons + UpstreamMarks(reached, start);
  }

  lemma Narrowed(all: set<Id>, visited: set<Id>, more: set<Id>, added: seq<Id>)
    requires more == Elements(added) && more <= all && more !! visited
    ensures added == [] || |all - (visited + more)| < |all - visited|
    ensures added == [] ==> visited + more == visited
  {
    if added != [] {
      assert added[0] in more;
      ProperSubsetSmaller(all - (visited + more), all - visited);
    }
  }

  /** The unvisited targets, each once, in order. */
  method NewTargets(next: seq<Id>, visited: set<Id>) returns (added: seq<Id>)
    ensures forall x :: x in added <==> x in next && x !in visited
  {
    added := [];
    var i := 0;
    while i < |next|
      invariant 0 <= i <= |next|
      invariant forall x :: x in added <==> x in next[..i] && x !in visited
    {
      TakeMore(next, i);
      if next[i] !in visited && next[i] !in added {
        added := added + [next[i]];
      }
      i := i + 1;
    }
    TakeAll(next);
  }

  /** Visited nodes are reached; successors of nodes off the queue are visited. */
  ghost predicate Searching(adjacency: Adjacency, start: Id, visited: set<Id>, queue: seq<Id>) {
    && start in visited && visited <= Universe(adjacency) + {start}
    && (forall n :: n in visited ==> Reaches(GraphOf(adjacency), start, n))
    && (forall n :: n in queue ==> n in visited)
    && (forall a, b :: a in visited && a !in queue && b in Next(adjacency, a) ==> b in visited)
  }

  lemma StartKnown(adjacency: Adjacency, start: Id)
    ensures Searching(adjacency, start, {start}, [start])
  {
    ReachesSelf(GraphOf(adjacency), start);
  }

  lemma SearchStep(adjacency: Adjacency, start: Id, visited: set<Id>, rest: seq<Id>, current: Id, added: seq<Id>)
    requires Searching(adjacency, start, visited, [current] + rest)
    requires forall x :: x in added <==> x in Next(adjacency, current) && x !in visited
    ensures Searching(adjacency, start, visited + Elements(added), rest + added)
    ensures Elements(added) <= Universe(adjacency) && Elements(added) !! visited
    ensures start in visited
  {
    hide Universe, GraphOf, Reaches;
    assert current in [current] + rest;
    forall n | n in added ensures Reaches(GraphOf(adjacency), start, n) && n in Universe(adjacency) {
      SuccessorInUniverse(adjacency, current, n);
      ReachesAppend(GraphOf(adjacency), start, current, n);
    }
  }

  lemma SearchDone(adjacency: Adjacency, start: Id, visited: set<Id>)
    requires Searching(adjacency, start, visited, [])
    ensures forall n :: n in visited <==> Reaches(GraphOf(adjacency), start, n)
  {
    hide Reaches;
    NextClosed(adjacency, visited);
    forall n | Reaches(GraphOf(adjacency), start, n) ensures n in visited {
      ClosedContains(GraphOf(adjacency), visited, start, n);
    }
  }

  // ----- the three sources of invalidation ------------------------------------------

  lemma MarkOf(ids: set<Id>, start: Id, n: Id, x: ImpactReason)
    ensures (n, x) in UpstreamMarks(ids, start) <==> n in ids && x == UpstreamInvalidated(start)
  {
  }

  /** The reasons due to the first `k` changed roots. */
  ghost predicate RootReason(w: Workflow, roots: seq<ChangedRoot>, k: nat, n: Id, x: ImpactReason)
    requires k <= |roots|
  {
    exists i :: 0 <= i < k && RootGives(w, roots[i], n, x)
  }

  ghost predicate RootGives(w: Workflow, r: ChangedRoot, n: Id, x: ImpactReason) {
    && r.nodeId in NodesById(w.nodes)
    && ((n == r.nodeId && x.Changed? && x.reason in r.reasons)
        || (x == UpstreamInvalidated(r.nodeId) && Below(w, r.nodeId, n)))
  }

  method InvalidateRoots(w: Workflow, adjacency: Adjacency, roots: seq<ChangedRoot>)
    returns (reasons: set<(Id, ImpactReason)>)
    requires GraphOf(adjacency) == ImpactGraph(w)
    ensures forall n, x :: (n, x) in reasons <==> RootReason(w, roots, |roots|, n, x)
  {
    hide GraphOf, ImpactGraph, NodesById, Reaches;
    reasons := {};
    var i := 0;
    while i < |roots|
      invariant 0 <= i <= |roots|
      invariant forall n, x :: (n, x) in reasons <==> RootReason(w, roots, i, n, x)
    {
      var found := InvalidateRoot(w, adjacency, roots[i]);
      reasons := reasons + found;
      i := i + 1;
    }
  }

  method InvalidateRoot(w: Workflow, adjacency: Adjacency, r: ChangedRoot) returns (found: set<(Id, ImpactReason)>)
    requires GraphOf(adjacency) == ImpactGraph(w)
    ensures forall n, x :: (n, x) in found <==> RootGives(w, r, n, x)
  {
    hide GraphOf, ImpactGraph, NodesById, Reaches;
    if r.nodeId !in NodesById(w.nodes) {
      return {};
    }
    var own := set x | x in r.reasons :: (r.nodeId, Changed(x));
    var grown, reached := Propagate(adjacency, r.nodeId, own);
    forall n, x ensures (n, x) in grown <==> RootGives(w, r, n, x) {
      MarkOf(reached, r.nodeId, n, x);
    }
    return grown;
  }

  /** The reads of a known node that none of its patterns covers. */
  method UndeclaredReads(n: Node, seen: set<string>) returns (bad: set<string>)
    ensures forall read :: read in bad <==> read in seen && !Declares(n, read)
  {
    bad := set read | read in seen && !Declares(n, read);
  }

  ghost predicate ReadGives(w: Workflow, o: Options, m: Id, n: Id, x: ImpactReason) {
    || (n in NodesById(w.nodes) && x == UnknownObserved(m) && m in o.observedReads && m !in NodesById(w.nodes))
    || (n == m && x.UndeclaredRead? && IllRead(w, o, m, x.read))
    || (x == UpstreamInvalidated(m) && Below(w, m, n) && IllReader(w, o, m))
  }

  ghost predicate ReadForces(w: Workflow, o: Options, m: Id, n: Id) {
    || (n in NodesById(w.nodes) && m in o.observedReads && m !in NodesById(w.nodes))
    || (IllReader(w, o, m) && (m == n || Below(w, m, n)))
  }

  ghost predicate ReadViolates(w: Workflow, o: Options, m: Id, v: Violation) {
    || (v == UnknownObservedNode(m) && m in o.observedReads && m !in NodesById(w.nodes))
    || (v.UndeclaredReadViolation? && v.nodeId == m && IllRead(w, o, m, v.read))
  }

  /** One observed node: an unknown id forces everything, an undeclared read the node and its downstream. */
  method InvalidateObserved(w: Workflow, adjacency: Adjacency, o: Options, m: Id) returns (found: Marks)
    requires GraphOf(adjacency) == ImpactGraph(w) && m in o.observedReads
    ensures forall n, x :: (n, x) in found.reasons <==> ReadGives(w, o, m, n, x)
    ensures forall n :: n in found.mandatory <==> ReadForces(w, o, m, n)
    ensures forall v :: v in found.violations <==> ReadViolates(w, o, m, v)
  {
    hide GraphOf, ImpactGraph, NodesById, Reaches, Declares;
    var nodes := NodesById(w.nodes);
    if m !in nodes {
      return Marks(set n | n in nodes :: (n, UnknownObserved(m)), nodes.Keys, {UnknownObservedNode(m)});
    }
    var bad := UndeclaredReads(nodes[m], o.observedReads[m]);
    if bad == {} {
      NoIllRead(w, o, m, bad);
      return Marks({}, {}, {});
    }
    assert IllReader(w, o, m) by {
      var read :| read in bad;
      assert IllRead(w, o, m, read);
    }
    var own := set read | read in bad :: (m, UndeclaredRead(read));
    var grown, reached := Propagate(adjacency, m, own);
    forall n, x ensures (n, x) in grown <==> ReadGives(w, o, m, n, x) {
      MarkOf(reached, m, n, x);
    }
    return Marks(grown, {m} + reached, set read | read in bad :: UndeclaredReadViolation(m, read));
  }

  lemma NoIllRead(w: Workflow, o: Options, m: Id, bad: set<string>)
    requires m in NodesById(w.nodes) && m in o.observedReads && bad == {}
    requires forall read :: read in bad <==> read in o.observedReads[m] && !Declares(NodesById(w.nodes)[m], read)
    ensures !IllReader(w, o, m)
  {
  }

  /** The loop over the observed nodes. */
  method InvalidateReads(w: Workflow, adjacency: Adjacency, o: Options) returns (found: Marks)
    requires GraphOf(adjacency) == ImpactGraph(w)
    ensures forall n, x :: (n, x) in found.reasons <==> exists m :: m in o.observedReads && ReadGives(w, o, m, n, x)
    ensures forall n :: n in found.mandatory <==> exists m :: m in o.observedReads && ReadForces(w, o, m, n)
    ensures forall v :: v in found.violations <==> exists m :: m in o.observedReads && ReadViolates(w, o, m, v)
  {
    hide GraphOf, ImpactGraph, ReadGives, ReadForces, ReadViolates;
    found := Marks({}, {}, {});
    var pending := o.observedReads.Keys;
    while pending != {}
      invariant pending <= o.observedReads.Keys
      invariant ReadsDone(w, o, o.observedReads.Keys - pending, found)
    {
      var m :| m in pending;
      var one := InvalidateObserved(w, adjacency, o, m);
      ReadsStep(w, o, o.observedReads.Keys - pending, m, found, one);
      pending := pending - {m};
      found := Marks(found.reasons + one.reasons, found.mandatory + one.mandatory, found.violations + one.violations);
      assert o.observedReads.Keys - pending == o.observedReads.Keys - (pending + {m}) + {m};
    }
    assert o.observedReads.Keys - {} == o.observedReads.Keys;
  }

  ghost predicate ReadsDone(w: Workflow, o: Options, seen: set<Id>, found: Marks) {
    && (forall n, x :: (n, x) in found.reasons <==> exists m :: m in seen && ReadGives(w, o, m, n, x))
    && (forall n :: n in found.mandatory <==> exists m :: m in seen && ReadForces(w, o, m, n))
    && (forall v :: v in found.violations <==> exists m :: m in seen && ReadViolates(w, o, m, v))
  }

  lemma ReadsStep(w: Workflow, o: Options, seen: set<Id>, m: Id, found: Marks, one: Marks)
    requires ReadsDone(w, o, seen, found)
    requires forall n, x :: (n, x) in one.reasons <==> ReadGives(w, o, m, n, x)
    requires forall n :: n in one.mandatory <==> ReadForces(w, o, m, n)
    requires forall v :: v in one.violations <==> ReadViolates(w, o, m, v)
    ensures ReadsDone(w, o, seen + {m},
      Marks(found.reasons + one.reasons, found.mandatory + one.mandatory, found.violations + one.violations))
  {
    hide ReadGives, ReadForces, ReadViolates;
    forall n, x
      ensures (n, x) in found.reasons + one.reasons <==> exists k :: k in seen + {m} && ReadGives(w, o, k, n, x)
    {
      if (n, x) in one.reasons {
        assert m in seen + {m};
      }
    }
    forall n ensures n in found.mandatory + one.mandatory <==> exists k :: k in seen + {m} && ReadForces(w, o, k, n) {
      if n in one.mandatory {
        assert m in seen + {m};
      }
    }
    forall v
      ensures v in found.violations + one.violations <==> exists k :: k in seen + {m} && ReadViolates(w, o, k, v)
    {
      if v in one.violations {
        assert m in seen + {m};
      }
    }
  }

  ghost predicate BroadGives(w: Workflow, o: Options, n: Id, x: ImpactReason) {
    || (n in NodesById(w.nodes) && n in o.broadRegressionNodeIds && x == BroadRegression(n))
    || (n in NodesById(w.nodes) && x.UnknownRegression? && x.nodeId in o.broadRegressionNodeIds
        && x.nodeId !in NodesById(w.nodes))
  }

  ghost predicate BroadForces(w: Workflow, o: Options, n: Id) {
    n in NodesById(w.nodes)
    && (n in o.broadRegressionNodeIds || exists m :: m in o.broadRegressionNodeIds && m !in NodesById(w.nodes))
  }

  /** The regression set marks only its own nodes; an unknown id in it forces everything. */
  method InvalidateBroad(w: Workflow, o: Options) returns (found: Marks)
    ensures forall n, x :: (n, x) in found.reasons <==> BroadGives(w, o, n, x)
    ensures forall n :: n in found.mandatory <==> BroadForces(w, o, n)
    ensures forall v :: v in found.violations <==>
      v.UnknownBroadRegressionNode? && v.nodeId in o.broadRegressionNodeIds && v.nodeId !in NodesById(w.nodes)
  {
    hide NodesById;
    var nodes := NodesById(w.nodes).Keys;
    found := Marks({}, {}, {});
    var pending := o.broadRegressionNodeIds;
    while pending != {}
      invariant pending <= o.broadRegressionNodeIds
      invariant forall n, x :: (n, x) in found.reasons <==>
        BroadGives(w, Options(o.broadRegressionNodeIds - pending, map[]), n, x)
      invariant forall n :: n in found.mandatory <==>
        BroadForces(w, Options(o.broadRegressionNodeIds - pending, map[]), n)
      invariant forall v :: v in found.violations <==>
        v.UnknownBroadRegressionNode? && v.nodeId in o.broadRegressionNodeIds - pending && v.nodeId !in nodes
    {
      var m :| m in pending;
      pending := pending - {m};
      if m !in nodes {
        found := Marks(found.reasons + set n | n in nodes :: (n, UnknownRegression(m)),
                       found.mandatory + nodes, found.violations + {UnknownBroadRegressionNode(m)});
      } else {
        found := Marks(found.reasons + {(m, BroadRegression(m))}, found.mandatory + {m}, found.violations);
      }
    }
  }

  /** Collects the reasons of one node from the pairs. */
  function ReasonsOf(reasons: set<(Id, ImpactReason)>, n: Id): set<ImpactReason> {
    set m | m in reasons && m.0 == n :: m.1
  }

  /** Which nodes must run again, and why. */
  method ComputeImpact(w: Workflow, changes: ChangedRootSet, o: Options) returns (r: ImpactResult)
    ensures RightResult(w, changes.roots, o, r)
    ensures r.removedNodeIds == changes.removedNodeIds && r.workflowReasons == changes.workflowReasons
  {
    var reasons, mandatory, violations := FindReasons(w, changes.roots, o);
    var ids := EnumerateSorted(NodesById(w.nodes).Keys);
    hide Violates, RightMarks, NodesById, SortedKeys;
    var decisions := Decide(ids, reasons, mandatory);
    forall i | 0 <= i < |decisions| ensures RightDecision(w, changes.roots, o, decisions[i]) {
      assert ids[i] in Elements(ids);
      DecisionIsRight(w, changes.roots, o, ids[i], reasons, mandatory);
    }
    r := ImpactResult(decisions, changes.removedNodeIds, changes.workflowReasons, violations, violations != {});
  }

  /** Gathers what the roots, the observed reads and the regression set say about all nodes. */
  method FindReasons(w: Workflow, roots: seq<ChangedRoot>, o: Options)
    returns (reasons: set<(Id, ImpactReason)>, mandatory: set<Id>, violations: set<Violation>)
    ensures forall n :: n in NodesById(w.nodes) ==> RightMarks(w, roots, o, n, reasons, mandatory)
    ensures forall v :: v in violations <==> Violates(w, o, v)
  {
    var adjacency := BuildAdjacency(w);
    var rootReasons := InvalidateRoots(w, adjacency, roots);
    var observed := InvalidateReads(w, adjacency, o);
    var broad := InvalidateBroad(w, o);
    reasons := rootReasons + observed.reasons + broad.reasons;
    mandatory := observed.mandatory + broad.mandatory;
    violations := observed.violations + broad.violations;
    hide NodesById, RightMarks, Violates;
    forall n | n in NodesById(w.nodes) ensures RightMarks(w, roots, o, n, reasons, mandatory) {
      CombineReasons(w, roots, o, n, rootReasons, observed, broad);
    }
    CombineViolations(w, o, observed, broad);
  }

  ghost predicate RightMarks(w: Workflow, roots: seq<ChangedRoot>, o: Options, n: Id,
      reasons: set<(Id, ImpactReason)>, mandatory: set<Id>)
  {
    && (forall x :: (n, x) in reasons <==> Carries(w, roots, o, n, x))
    && (n in mandatory <==> Mandatory(w, o, n))
  }

  function DecisionOf(n: Id, reasons: set<(Id, ImpactReason)>, mandatory: set<Id>): Decision {
    var own := ReasonsOf(reasons, n);
    Decision(n, if own == {} then Reuse else Rerun, n in mandatory, own)
  }

  method Decide(ids: seq<Id>, reasons: set<(Id, ImpactReason)>, mandatory: set<Id>) returns (decisions: seq<Decision>)
    ensures |decisions| == |ids|
    ensures forall i :: 0 <= i < |ids| ==> decisions[i] == DecisionOf(ids[i], reasons, mandatory)
  {
    decisions := [];
    var i := 0;
    while i < |ids|
      invariant 0 <= i <= |ids| && |decisions| == i
      invariant forall k :: 0 <= k < i ==> decisions[k] == DecisionOf(ids[k], reasons, mandatory)
    {
      decisions := decisions + [DecisionOf(ids[i], reasons, mandatory)];
      i := i + 1;
    }
  }

  lemma DecisionIsRight(w: Workflow, roots: seq<ChangedRoot>, o: Options, n: Id,
      reasons: set<(Id, ImpactReason)>, mandatory: set<Id>)
    requires RightMarks(w, roots, o, n, reasons, mandatory)
    ensures RightDecision(w, roots, o, DecisionOf(n, reasons, mandatory))
  {
    hide Carries, Mandatory;
    forall x ensures x in ReasonsOf(reasons, n) <==> (n, x) in reasons {
      if (n, x) in reasons {
        assert (n, x).0 == n;
      }
    }
  }

  lemma CombineReasons(w: Workflow, roots: seq<ChangedRoot>, o: Options, n: Id,
      rootReasons: set<(Id, ImpactReason)>, observed: Marks, broad: Marks)
    requires n in NodesById(w.nodes)
    requires forall n, x :: (n, x) in rootReasons <==> RootReason(w, roots, |roots|, n, x)
    requires forall n, x :: (n, x) in observed.reasons <==> exists m :: m in o.observedReads && ReadGives(w, o, m, n, x)
    requires forall n :: n in observed.mandatory <==> exists m :: m in o.observedReads && ReadForces(w, o, m, n)
    requires forall n, x :: (n, x) in broad.reasons <==> BroadGives(w, o, n, x)
    requires forall n :: n in broad.mandatory <==> BroadForces(w, o, n)
    ensures RightMarks(w, roots, o, n, rootReasons + observed.reasons + broad.reasons,
      observed.mandatory + broad.mandatory)
  {
    forall x ensures (n, x) in rootReasons + observed.reasons + broad.reasons <==> Carries(w, roots, o, n, x) {
      ReasonCases(w, roots, o, n, x);
    }
    MandatoryCases(w, o, n);
  }

  lemma ReasonCases(w: Workflow, roots: seq<ChangedRoot>, o: Options, n: Id, x: ImpactReason)
    requires n in NodesById(w.nodes)
    ensures Carries(w, roots, o, n, x) <==>
      (RootReason(w, roots, |roots|, n, x) || (exists m :: m in o.observedReads && ReadGives(w, o, m, n, x))
        || BroadGives(w, o, n, x))
  {
    hide NodesById, Below, Declares;
    match x
    case Changed(reason) =>
      if r :| r in roots && r.nodeId == n && reason in r.reasons {
        var i :| 0 <= i < |roots| && roots[i] == r;
        assert RootGives(w, roots[i], n, x);
      }
    case UpstreamInvalidated(m) =>
      if Below(w, m, n) && KnownRoot(w, roots, m) {
        var r :| r in roots && r.nodeId == m;
        var i :| 0 <= i < |roots| && roots[i] == r;
        assert RootGives(w, roots[i], n, x);
      }
      if Below(w, m, n) && IllReader(w, o, m) {
        assert m in o.observedReads && ReadGives(w, o, m, n, x);
      }
    case UndeclaredRead(read) =>
      if IllRead(w, o, n, read) {
        assert n in o.observedReads && ReadGives(w, o, n, n, x);
      }
    case UnknownObserved(m) =>
      if m in o.observedReads && m !in NodesById(w.nodes) {
        assert ReadGives(w, o, m, n, x);
      }
    case BroadRegression(m) =>
    case UnknownRegression(m) =>
  }

  lemma MandatoryCases(w: Workflow, o: Options, n: Id)
    requires n in NodesById(w.nodes)
    ensures Mandatory(w, o, n) <==>
      ((exists m :: m in o.observedReads && ReadForces(w, o, m, n)) || BroadForces(w, o, n))
  {
    hide NodesById, Below, Declares;
    if m :| IllReader(w, o, m) && (m == n || Below(w, m, n)) {
      assert m in o.observedReads && ReadForces(w, o, m, n);
    }
    if m :| m in o.observedReads && m !in NodesById(w.nodes) {
      assert ReadForces(w, o, m, n);
    }
  }

  lemma CombineViolations(w: Workflow, o: Options, observed: Marks, broad: Marks)
    requires forall v :: v in observed.violations <==> exists m :: m in o.observedReads && ReadViolates(w, o, m, v)
    requires forall v :: v in broad.violations <==>
      v.UnknownBroadRegressionNode? && v.nodeId in o.broadRegressionNodeIds && v.nodeId !in NodesById(w.nodes)
    ensures forall v :: v in observed.violations + broad.violations <==> Violates(w, o, v)
  {
    hide NodesById, Declares;
    forall v ensures v in observed.violations + broad.violations <==> Violates(w, o, v) {
      if Violates(w, o, v) && !v.UnknownBroadRegressionNode? {
        assert v.nodeId in o.observedReads && ReadViolates(w, o, v.nodeId, v);
      }
    }
  }
}

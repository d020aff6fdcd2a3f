/** The workflow compiler: every analysis reports exactly the faults there are,
    and a workflow is accepted exactly when it is well formed. */
module Validation {
  import opened Graphs
  import opened Ordering
  import opened Outcomes
  import opened PathPatterns
  import opened Workflows
  import opened GraphSearch

  datatype Diagnostic =
    | DuplicateNodeId(index: nat)
    | UnknownEndpoint(edgeIndex: nat)
    | PortTypeMismatch(edgeIndex: nat)
    | MissingProducer(target: Target)
    | MultipleProducers(target: Target, edgeIndexes: seq<nat>)
    | ForbiddenCycle(walk: seq<Id>)
    | WriteConflict(nodeId: Id, write: string, conflictingNodeId: Id, conflictingWrite: string)
    | UnreachableNode(nodeId: Id)
    | UnreachableOutput(port: string, nodeId: Id)

  predicate IsError(d: Diagnostic) {
    !d.UnreachableNode?
  }

  // ----- what each diagnostic means ---------------------------------------------

  /** The dependency edges among endpoints that exist. */
  function KnownDependencies(w: Workflow): Graph {
    set e | e in w.edges && Known(w, e) && IsDependency(e) :: DependencyOf(e)
  }

  /** The indexes of the known edges into `t` among the first `k` edges, ascending. */
  function Producers(w: Workflow, t: Target, k: nat): seq<nat>
    requires k <= |w.edges|
  {
    if k == 0 then []
    else Producers(w, t, k - 1) + (if Known(w, w.edges[k - 1]) && w.edges[k - 1].target == t then [k - 1] else [])
  }

  /** A declared input of a node or output of the workflow. */
  ghost predicate Declared(w: Workflow, t: Target) {
    match t
    case NodeInput(nodeId, port) => exists n :: n in w.nodes && n.id == nodeId && port in n.inputs
    case WorkflowOutput(port) => port in w.outputs
  }

  function EntriesOf(n: Node, k: nat): seq<(Id, string)>
    requires k <= |n.writePatterns|
  {
    seq(k, i requires 0 <= i < k => (n.id, n.writePatterns[i]))
  }

  /** All write declarations in node order. */
  function WriteEntries(nodes: seq<Node>): seq<(Id, string)> {
    if nodes == [] then []
    else
      var last := nodes[|nodes| - 1];
      WriteEntries(nodes[..|nodes| - 1]) + EntriesOf(last, |last.writePatterns|)
  }

  /** The write at position `j` clashes with the earlier one at position `i`. */
  ghost predicate Clash(w: Workflow, entries: seq<(Id, string)>, i: nat, j: nat) {
    && i < j < |entries|
    && entries[i].0 != entries[j].0
    && WritePatternsOverlap(entries[i].1, entries[j].1)
    && !Ordered(KnownDependencies(w), entries[i].0, entries[j].0)
  }

  ghost predicate ConflictAt(w: Workflow, entries: seq<(Id, string)>, i: nat, j: nat, d: Diagnostic) {
    && Clash(w, entries, i, j)
    && d == WriteConflict(entries[j].0, entries[j].1, entries[i].0, entries[i].1)
  }

  /** One of the first `k` writes clashes with the one at position `j`, as `d` reports. */
  ghost predicate ConflictWith(w: Workflow, entries: seq<(Id, string)>, j: nat, d: Diagnostic, k: nat) {
    exists i: nat :: i < k && ConflictAt(w, entries, i, j, d)
  }

  ghost predicate ConflictIn(w: Workflow, entries: seq<(Id, string)>, d: Diagnostic) {
    d.WriteConflict? && exists i: nat, j: nat :: ConflictAt(w, entries, i, j, d)
  }

  ghost function Reachable(w: Workflow): set<Id> {
    Closure(KnownDependencies(w), EntryNodes(w))
  }

  /** The first edge into a workflow output. */
  ghost predicate IsFirstInto(w: Workflow, t: Target, i: nat) {
    i < |w.edges| && w.edges[i].target == t && forall j :: 0 <= j < i ==> w.edges[j].target != t
  }

  /** The faults of a workflow; only which walk a cycle report shows depends on search order. */
  ghost predicate Fault(w: Workflow, d: Diagnostic) {
    match d
    case DuplicateNodeId(i) => i < |w.nodes| && exists j :: 0 <= j < i && w.nodes[j].id == w.nodes[i].id
    case UnknownEndpoint(i) => i < |w.edges| && !Known(w, w.edges[i])
    case PortTypeMismatch(i) => i < |w.edges| && Known(w, w.edges[i]) && !WellTyped(w, w.edges[i])
    case MissingProducer(t) => Declared(w, t) && Producers(w, t, |w.edges|) == []
    case MultipleProducers(t, indexes) => Declared(w, t) && indexes == Producers(w, t, |w.edges|) && |indexes| > 1
    case ForbiddenCycle(walk) => ClosesCycle(KnownDependencies(w), walk)
    case WriteConflict(_, _, _, _) => ConflictIn(w, WriteEntries(w.nodes), d)
    case UnreachableNode(n) => n in NodeIds(w) && n !in Reachable(w)
    case UnreachableOutput(port, n) =>
      && port in w.outputs && n !in Reachable(w)
      && exists i: nat :: IsFirstInto(w, WorkflowOutput(port), i) && w.edges[i].source.NodeOutput?
          && w.edges[i].source.nodeId == n
  }

  // ----- the analyses -----------------------------------------------------------

  method DuplicateIds(w: Workflow) returns (diagnostics: seq<Diagnostic>)
    ensures forall d :: d in diagnostics <==> d.DuplicateNodeId? && Fault(w, d)
  {
    var seen: set<Id> := {};
    diagnostics := [];
    var i := 0;
    while i < |w.nodes|
      invariant 0 <= i <= |w.nodes|
      invariant forall id :: id in seen <==> exists j :: 0 <= j < i && w.nodes[j].id == id
      invariant forall d :: d in diagnostics <==> d.DuplicateNodeId? && d.index < i && Fault(w, d)
    {
      if w.nodes[i].id in seen {
        diagnostics := diagnostics + [DuplicateNodeId(i)];
      }
      seen := seen + {w.nodes[i].id};
      i := i + 1;
    }
  }

  function ProducersIn(producers: map<Target, seq<nat>>, t: Target): seq<nat> {
    if t in producers then producers[t] else []
  }

  /** The known dependencies among the first `k` edges. */
  function PrefixDependencies(w: Workflow, k: nat): Graph
    requires k <= |w.edges|
  {
    set i | 0 <= i < k && Known(w, w.edges[i]) && IsDependency(w.edges[i]) :: DependencyOf(w.edges[i])
  }

  lemma PrefixDependenciesAll(w: Workflow)
    ensures PrefixDependencies(w, |w.edges|) == KnownDependencies(w)
  {
    forall x | x in KnownDependencies(w) ensures x in PrefixDependencies(w, |w.edges|) {
      var e :| e in w.edges && Known(w, e) && IsDependency(e) && x == DependencyOf(e);
      var i :| 0 <= i < |w.edges| && w.edges[i] == e;
    }
  }

  ghost predicate EdgeFault(w: Workflow, d: Diagnostic, k: nat) {
    (d.UnknownEndpoint? || d.PortTypeMismatch?) && d.edgeIndex < k && Fault(w, d)
  }

  lemma KnownEndsAreNodes(w: Workflow, e: Edge)
    requires Known(w, e) && IsDependency(e)
    ensures e.source.nodeId in NodeIds(w) && e.target.nodeId in NodeIds(w)
  {
    NodesByIdKeys(w.nodes);
  }

  /** One pass over the edges collects the producers of each target and the adjacency. */
  method AnalyzeEdges(w: Workflow)
    returns (producers: map<Target, seq<nat>>, adjacency: Adjacency, diagnostics: seq<Diagnostic>)
    ensures forall t :: ProducersIn(producers, t) == Producers(w, t, |w.edges|)
    ensures adjacency.Keys == NodeIds(w) && GraphOf(adjacency) == KnownDependencies(w)
    ensures forall d :: d in diagnostics <==> EdgeFault(w, d, |w.edges|)
  {
    hide GraphOf, Fault, KnownDependencies, PrefixDependencies;
    producers, diagnostics := map[], [];
    adjacency := EmptyAdjacency(w.nodes);
    NothingYet(w);
    hide EdgeFault, ProducersUpTo;
    var i := 0;
    while i < |w.edges|
      invariant 0 <= i <= |w.edges|
      invariant ProducersUpTo(w, i, producers)
      invariant adjacency.Keys == NodeIds(w) && GraphOf(adjacency) == PrefixDependencies(w, i)
      invariant forall d :: d in diagnostics <==> EdgeFault(w, d, i)
    {
      var e := w.edges[i];
      PrefixStep(w, i);
      ProducersStep(w, i, producers);
      EdgeFaultStep(w, i);
      var found := EdgeDiagnostics(w, i);
      if Known(w, e) {
        producers := producers[e.target := ProducersIn(producers, e.target) + [i]];
        if IsDependency(e) {
          KnownEndsAreNodes(w, e);
          adjacency := AddEdge(adjacency, e.source.nodeId, e.target.nodeId);
        }
      }
      diagnostics := diagnostics + found;
      i := i + 1;
    }
    PrefixDependenciesAll(w);
    AllProducers(w, producers);
  }

  ghost predicate ProducersUpTo(w: Workflow, k: nat, producers: map<Target, seq<nat>>)
    requires k <= |w.edges|
  {
    forall t :: ProducersIn(producers, t) == Producers(w, t, k)
  }

  lemma NothingYet(w: Workflow)
    ensures ProducersUpTo(w, 0, map[]) && PrefixDependencies(w, 0) == {}
    ensures forall d :: !EdgeFault(w, d, 0)
  {
  }

  lemma AllProducers(w: Workflow, producers: map<Target, seq<nat>>)
    requires ProducersUpTo(w, |w.edges|, producers)
    ensures forall t :: ProducersIn(producers, t) == Producers(w, t, |w.edges|)
  {
  }

  lemma ProducersStep(w: Workflow, i: nat, producers: map<Target, seq<nat>>)
    requires i < |w.edges| && ProducersUpTo(w, i, producers)
    ensures var t := w.edges[i].target;
      ProducersUpTo(w, i + 1,
        if Known(w, w.edges[i]) then producers[t := ProducersIn(producers, t) + [i]] else producers)
  {
    var t := w.edges[i].target;
    var grown := if Known(w, w.edges[i]) then producers[t := ProducersIn(producers, t) + [i]] else producers;
    forall u ensures ProducersIn(grown, u) == Producers(w, u, i + 1) {
      assert ProducersIn(producers, u) == Producers(w, u, i);
    }
  }

  lemma PrefixStep(w: Workflow, i: nat)
    requires i < |w.edges|
    ensures PrefixDependencies(w, i + 1) == PrefixDependencies(w, i)
      + (if Known(w, w.edges[i]) && IsDependency(w.edges[i]) then {DependencyOf(w.edges[i])} else {})
  {
  }

  lemma EdgeFaultStep(w: Workflow, i: nat)
    requires i < |w.edges|
    ensures forall d :: EdgeFault(w, d, i + 1) <==>
      (EdgeFault(w, d, i) || ((d == UnknownEndpoint(i) || d == PortTypeMismatch(i)) && Fault(w, d)))
  {
  }

  method EdgeDiagnostics(w: Workflow, i: nat) returns (found: seq<Diagnostic>)
    requires i < |w.edges|
    ensures forall d :: d in found <==> (d == UnknownEndpoint(i) || d == PortTypeMismatch(i)) && Fault(w, d)
  {
    var source, target := SourcePort(w, w.edges[i].source), TargetPort(w, w.edges[i].target);
    if source.None? || target.None? {
      return [UnknownEndpoint(i)];
    }
    if PortKey(source.value) != PortKey(target.value) {
      return [PortTypeMismatch(i)];
    }
    return [];
  }

  method EmptyAdjacency(nodes: seq<Node>) returns (adjacency: Adjacency)
    ensures adjacency.Keys == Elements(IdsOf(nodes)) && GraphOf(adjacency) == {}
  {
    adjacency := map[];
    var i := 0;
    while i < |nodes|
      invariant 0 <= i <= |nodes|
      invariant adjacency.Keys == Elements(IdsOf(nodes)[..i])
      invariant forall a :: a in adjacency ==> adjacency[a] == []
    {
      assert IdsOf(nodes)[..i + 1] == IdsOf(nodes)[..i] + [nodes[i].id];
      adjacency := adjacency[nodes[i].id := []];
      i := i + 1;
    }
    assert IdsOf(nodes)[..|nodes|] == IdsOf(nodes);
  }

  function ProducerDiagnostics(producers: map<Target, seq<nat>>, t: Target): seq<Diagnostic> {
    var indexes := ProducersIn(producers, t);
    if indexes == [] then [MissingProducer(t)]
    else if |indexes| > 1 then [MultipleProducers(t, indexes)]
    else []
  }

  ghost predicate ProducerFault(w: Workflow, d: Diagnostic) {
    (d.MissingProducer? || d.MultipleProducers?) && Fault(w, d)
  }

  ghost predicate InputOfPrefix(w: Workflow, t: Target, k: nat)
    requires k <= |w.nodes|
  {
    t.NodeInput? && exists j :: 0 <= j < k && w.nodes[j].id == t.nodeId && t.port in w.nodes[j].inputs
  }

  method AnalyzeProducers(w: Workflow, producers: map<Target, seq<nat>>) returns (diagnostics: seq<Diagnostic>)
    requires forall t :: ProducersIn(producers, t) == Producers(w, t, |w.edges|)
    ensures forall d :: d in diagnostics <==> ProducerFault(w, d)
  {
    var targets: set<Target> := {};
    diagnostics := [];
    var i := 0;
    while i < |w.nodes|
      invariant 0 <= i <= |w.nodes|
      invariant forall t :: t in targets <==> InputOfPrefix(w, t, i)
      invariant forall d :: d in diagnostics <==> exists t :: t in targets && d in ProducerDiagnostics(producers, t)
    {
      var here, found := CheckTargets(set p | p in w.nodes[i].inputs :: NodeInput(w.nodes[i].id, p), producers);
      targets := targets + here;
      diagnostics := diagnostics + found;
      i := i + 1;
    }
    var outputs, found := CheckTargets(set p | p in w.outputs :: WorkflowOutput(p), producers);
    diagnostics := diagnostics + found;
    targets := targets + outputs;
    assert forall t :: t in targets <==> Declared(w, t);
    forall d ensures d in diagnostics <==> ProducerFault(w, d) {
      if ProducerFault(w, d) {
        assert d in ProducerDiagnostics(producers, d.target);
      }
    }
  }

  method CheckTargets(targets: set<Target>, producers: map<Target, seq<nat>>)
    returns (same: set<Target>, diagnostics: seq<Diagnostic>)
    ensures same == targets
    ensures forall d :: d in diagnostics <==> exists t :: t in targets && d in ProducerDiagnostics(producers, t)
  {
    same, diagnostics := targets, [];
    var pending := targets;
    while pending != {}
      invariant pending <= targets
      invariant forall d ::
        d in diagnostics <==> exists t :: t in targets - pending && d in ProducerDiagnostics(producers, t)
    {
      var t :| t in pending;
      pending := pending - {t};
      diagnostics := diagnostics + ProducerDiagnostics(producers, t);
    }
  }

  /** One write against all earlier ones. */
  method ConflictsWith(w: Workflow, adjacency: Adjacency, entries: seq<(Id, string)>, entry: (Id, string))
    returns (diagnostics: seq<Diagnostic>)
    requires GraphOf(adjacency) == KnownDependencies(w)
    ensures forall d :: d in diagnostics <==> ConflictWith(w, entries + [entry], |entries|, d, |entries|)
  {
    hide GraphOf, WritePatternsOverlap, Precedes;
    ghost var longer := entries + [entry];
    diagnostics := [];
    var k := 0;
    while k < |entries|
      invariant 0 <= k <= |entries|
      invariant forall d :: d in diagnostics <==> ConflictWith(w, longer, |entries|, d, k)
    {
      var prior := entries[k];
      assert longer[k] == prior && longer[|entries|] == entry;
      if prior.0 != entry.0 && WritePatternsOverlap(prior.1, entry.1) {
        var forward := CanReach(prior.0, entry.0, adjacency);
        var backward := CanReach(entry.0, prior.0, adjacency);
        if !forward && !backward {
          assert ConflictAt(w, longer, k, |entries|, WriteConflict(entry.0, entry.1, prior.0, prior.1));
          diagnostics := diagnostics + [WriteConflict(entry.0, entry.1, prior.0, prior.1)];
        }
      }
      k := k + 1;
    }
  }

  lemma ConflictStep(w: Workflow, entries: seq<(Id, string)>, entry: (Id, string), d: Diagnostic)
    ensures ConflictIn(w, entries + [entry], d) <==>
      (ConflictIn(w, entries, d) || ConflictWith(w, entries + [entry], |entries|, d, |entries|))
  {
    var longer := entries + [entry];
    if ConflictIn(w, entries, d) {
      var i: nat, j: nat :| ConflictAt(w, entries, i, j, d);
      assert ConflictAt(w, longer, i, j, d);
    }
    if ConflictIn(w, longer, d) {
      var i: nat, j: nat :| ConflictAt(w, longer, i, j, d);
      assert j < |entries| ==> ConflictAt(w, entries, i, j, d);
    }
  }

  method AnalyzeWrites(w: Workflow, adjacency: Adjacency) returns (diagnostics: seq<Diagnostic>)
    requires GraphOf(adjacency) == KnownDependencies(w)
    ensures forall d :: d in diagnostics <==> ConflictIn(w, WriteEntries(w.nodes), d)
  {
    hide Clash, ConflictIn;
    var entries: seq<(Id, string)> := [];
    diagnostics := [];
    NoEntriesNoConflict(w);
    var i := 0;
    while i < |w.nodes|
      invariant 0 <= i <= |w.nodes|
      invariant entries == WriteEntries(w.nodes[..i])
      invariant forall d :: d in diagnostics <==> ConflictIn(w, entries, d)
    {
      var node := w.nodes[i];
      ghost var before := entries;
      var j := 0;
      while j < |node.writePatterns|
        invariant 0 <= j <= |node.writePatterns|
        invariant entries == before + EntriesOf(node, j)
        invariant forall d :: d in diagnostics <==> ConflictIn(w, entries, d)
      {
        var entry := (node.id, node.writePatterns[j]);
        var found := ConflictsWith(w, adjacency, entries, entry);
        forall d { ConflictStep(w, entries, entry, d); }
        assert EntriesOf(node, j + 1) == EntriesOf(node, j) + [entry];
        diagnostics := diagnostics + found;
        entries := entries + [entry];
        j := j + 1;
      }
      assert w.nodes[..i + 1][..i] == w.nodes[..i];
      i := i + 1;
    }
    assert w.nodes[..|w.nodes|] == w.nodes;
  }

  lemma NoEntriesNoConflict(w: Workflow)
    ensures forall d :: !ConflictIn(w, [], d)
  {
  }

  ghost predicate ReachFault(w: Workflow, d: Diagnostic) {
    (d.UnreachableNode? || d.UnreachableOutput?) && Fault(w, d)
  }

  method AnalyzeReachability(w: Workflow, adjacency: Adjacency) returns (diagnostics: seq<Diagnostic>)
    requires GraphOf(adjacency) == KnownDependencies(w)
    ensures forall d :: d in diagnostics <==> ReachFault(w, d)
  {
    var reachable := ReachableFrom(EntryNodes(w), adjacency);
    hide Closure, GraphOf;
    diagnostics := [];
    var i := 0;
    while i < |w.nodes|
      invariant 0 <= i <= |w.nodes|
      invariant forall d :: d in diagnostics <==>
        (d.UnreachableNode? && d.nodeId !in reachable && exists j :: 0 <= j < i && w.nodes[j].id == d.nodeId)
    {
      if w.nodes[i].id !in reachable {
        diagnostics := diagnostics + [UnreachableNode(w.nodes[i].id)];
      }
      i := i + 1;
    }
    NodeIdsByIndex(w);
    var outputs := w.outputs.Keys;
    var pending := outputs;
    while pending != {}
      invariant pending <= outputs
      invariant forall d :: d in diagnostics <==> ReachFault(w, d) && (d.UnreachableOutput? ==> d.port !in pending)
    {
      var port :| port in pending;
      pending := pending - {port};
      var found := OutputDiagnostic(w, reachable, port);
      diagnostics := diagnostics + found;
    }
  }

  lemma NodeIdsByIndex(w: Workflow)
    ensures forall id :: id in NodeIds(w) <==> exists j :: 0 <= j < |w.nodes| && w.nodes[j].id == id
  {
    forall id ensures id in NodeIds(w) <==> exists j :: 0 <= j < |w.nodes| && w.nodes[j].id == id {
      if id in NodeIds(w) {
        var j :| 0 <= j < |w.nodes| && IdsOf(w.nodes)[j] == id;
        assert w.nodes[j].id == id;
      }
      if j :| 0 <= j < |w.nodes| && w.nodes[j].id == id {
        assert IdsOf(w.nodes)[j] == id;
      }
    }
  }

  method OutputDiagnostic(w: Workflow, reachable: set<Id>, port: string) returns (found: seq<Diagnostic>)
    requires port in w.outputs && reachable == Reachable(w)
    ensures forall d :: d in found <==> d.UnreachableOutput? && d.port == port && Fault(w, d)
  {
    hide Closure, Reachable;
    var t := WorkflowOutput(port);
    var i := 0;
    while i < |w.edges| && w.edges[i].target != t
      invariant 0 <= i <= |w.edges|
      invariant forall j :: 0 <= j < i ==> w.edges[j].target != t
    {
      i := i + 1;
    }
    found := [];
    if i < |w.edges| {
      assert IsFirstInto(w, t, i) && forall k: nat :: IsFirstInto(w, t, k) ==> k == i;
      var source := w.edges[i].source;
      if source.NodeOutput? && source.nodeId !in reachable {
        found := [UnreachableOutput(port, source.nodeId)];
      }
    }
  }

  // ----- the whole validator ----------------------------------------------------

  /** Reports every fault and nothing else; cycle reports show genuine closed walks, and there is
      one exactly when the dependency graph has a cycle. */
  method ValidateWorkflow(w: Workflow) returns (ok: bool, diagnostics: seq<Diagnostic>)
    ensures forall d :: d in diagnostics ==> Fault(w, d)
    ensures forall d :: Fault(w, d) && !d.ForbiddenCycle? ==> d in diagnostics
    ensures (exists d :: d in diagnostics && d.ForbiddenCycle?) <==> !Acyclic(KnownDependencies(w))
    ensures ok <==> Valid(w)
  {
    hide GraphOf, Acyclic, Fault, ProducersIn;
    var duplicates := DuplicateIds(w);
    var producers, adjacency, edgeFaults := AnalyzeEdges(w);
    var producerFaults := AnalyzeProducers(w, producers);
    var cycles := DetectCycles(IdsOf(w.nodes), adjacency);
    var cycleFaults := seq(|cycles|, i requires 0 <= i < |cycles| => ForbiddenCycle(cycles[i]));
    var conflicts := AnalyzeWrites(w, adjacency);
    var reachFaults := AnalyzeReachability(w, adjacency);
    CollectedFaults(w, duplicates, edgeFaults, producerFaults, cycles, cycleFaults, conflicts, reachFaults);
    diagnostics := duplicates + edgeFaults + producerFaults + cycleFaults + conflicts + reachFaults;
    ok := forall d | d in diagnostics :: !IsError(d);
    AcceptedIffValid(w, diagnostics);
  }

  lemma CollectedFaults(w: Workflow, duplicates: seq<Diagnostic>, edgeFaults: seq<Diagnostic>,
      producerFaults: seq<Diagnostic>, cycles: seq<seq<Id>>, cycleFaults: seq<Diagnostic>,
      conflicts: seq<Diagnostic>, reachFaults: seq<Diagnostic>)
    requires forall d :: d in duplicates <==> d.DuplicateNodeId? && Fault(w, d)
    requires forall d :: d in edgeFaults <==> EdgeFault(w, d, |w.edges|)
    requires forall d :: d in producerFaults <==> ProducerFault(w, d)
    requires |cycleFaults| == |cycles| && forall i :: 0 <= i < |cycles| ==> cycleFaults[i] == ForbiddenCycle(cycles[i])
    requires forall p :: p in cycles ==> ClosesCycle(KnownDependencies(w), p)
    requires cycles == [] <==> Acyclic(KnownDependencies(w))
    requires forall d :: d in conflicts <==> ConflictIn(w, WriteEntries(w.nodes), d)
    requires forall d :: d in reachFaults <==> ReachFault(w, d)
    ensures var all := duplicates + edgeFaults + producerFaults + cycleFaults + conflicts + reachFaults;
      && (forall d :: d in all ==> Fault(w, d))
      && (forall d :: Fault(w, d) && !d.ForbiddenCycle? ==> d in all)
      && ((exists d :: d in all && d.ForbiddenCycle?) <==> !Acyclic(KnownDependencies(w)))
  {
    hide Acyclic, ClosesCycle, ConflictIn, Producers, Declared, Reachable, Known, WellTyped, IsFirstInto, WriteEntries;
    var all := duplicates + edgeFaults + producerFaults + cycleFaults + conflicts + reachFaults;
    forall d | d in cycleFaults ensures Fault(w, d) {
      var i :| 0 <= i < |cycles| && cycleFaults[i] == d;
      assert cycles[i] in cycles;
    }
    if cycles != [] {
      assert cycleFaults[0] in all && cycleFaults[0].ForbiddenCycle?;
    }
    assert forall d :: d in conflicts ==> d.WriteConflict? by {
      ConflictKind(w, conflicts);
    }
  }

  lemma ConflictKind(w: Workflow, conflicts: seq<Diagnostic>)
    requires forall d :: d in conflicts <==> ConflictIn(w, WriteEntries(w.nodes), d)
    ensures forall d :: d in conflicts ==> d.WriteConflict?
  {
  }

  // ----- acceptance is well-formedness ------------------------------------------

  lemma {:induction false} ProducersSpec(w: Workflow, t: Target, k: nat)
    requires k <= |w.edges|
    ensures forall i :: i in Producers(w, t, k) <==> 0 <= i < k && Known(w, w.edges[i]) && w.edges[i].target == t
    ensures Distinct(Producers(w, t, k))
  {
    if k > 0 {
      ProducersSpec(w, t, k - 1);
    }
  }

  lemma SingleProducer(w: Workflow, t: Target)
    requires forall e :: e in w.edges ==> Known(w, e)
    ensures |Producers(w, t, |w.edges|)| == 1 <==> OneProducer(w, t)
  {
    var ps := Producers(w, t, |w.edges|);
    ProducersSpec(w, t, |w.edges|);
    hide Producers, Known;
    forall i | 0 <= i < |w.edges| ensures Known(w, w.edges[i]) {
      assert w.edges[i] in w.edges;
    }
    SingleMember(w, t, ps);
  }

  lemma SingleMember(w: Workflow, t: Target, ps: seq<nat>)
    requires forall i :: i in ps <==> 0 <= i < |w.edges| && w.edges[i].target == t
    requires Distinct(ps)
    ensures |ps| == 1 <==> OneProducer(w, t)
  {
    if |ps| == 1 {
      assert ps[0] in ps;
      forall j | 0 <= j < |w.edges| && w.edges[j].target == t ensures j == ps[0] {
        assert j in ps;
      }
    }
    if OneProducer(w, t) {
      var i :| 0 <= i < |w.edges| && w.edges[i].target == t
        && forall j :: 0 <= j < |w.edges| && w.edges[j].target == t ==> j == i;
      assert i in ps;
      if |ps| > 1 {
        AllOne(ps, i);
      }
    }
  }

  lemma AllOne(ps: seq<nat>, i: nat)
    requires Distinct(ps) && |ps| > 1
    ensures exists k :: k in ps && k != i
  {
    assert ps[0] in ps && ps[1] in ps;
  }

  lemma {:induction false} EntriesSpec(nodes: seq<Node>)
    ensures forall x :: x in WriteEntries(nodes) <==>
      exists n :: n in nodes && n.id == x.0 && x.1 in n.writePatterns
  {
    if nodes != [] {
      var front, last := nodes[..|nodes| - 1], nodes[|nodes| - 1];
      EntriesSpec(front);
      var own := EntriesOf(last, |last.writePatterns|);
      assert nodes == front + [last];
      forall x ensures x in own <==> x.0 == last.id && x.1 in last.writePatterns {
        if x.0 == last.id && x.1 in last.writePatterns {
          var i :| 0 <= i < |last.writePatterns| && last.writePatterns[i] == x.1;
          assert own[i] == x;
        }
      }
    }
  }

  lemma KnownDependenciesAll(w: Workflow)
    requires forall e :: e in w.edges ==> Known(w, e)
    ensures KnownDependencies(w) == Dependencies(w)
  {
  }

  lemma OverlapSymmetric(p: string, q: string)
    ensures WritePatternsOverlap(p, q) <==> WritePatternsOverlap(q, p)
  {
  }

  lemma ClashBetween(w: Workflow, a: Id, p: string, b: Id, q: string)
    requires (a, p) in WriteEntries(w.nodes) && (b, q) in WriteEntries(w.nodes)
    requires a != b && SharePath(p, q) && !Ordered(KnownDependencies(w), a, b)
    ensures exists d :: ConflictIn(w, WriteEntries(w.nodes), d)
  {
    var entries := WriteEntries(w.nodes);
    OverlapExact(p, q);
    OverlapSymmetric(p, q);
    hide WritePatternsOverlap, WriteEntries;
    var i: nat :| i < |entries| && entries[i] == (a, p);
    var j: nat :| j < |entries| && entries[j] == (b, q);
    if i < j {
      var d := WriteConflict(b, q, a, p);
      assert ConflictAt(w, entries, i, j, d);
      assert ConflictIn(w, entries, d);
    } else {
      var d := WriteConflict(a, p, b, q);
      assert ConflictAt(w, entries, j, i, d);
      assert ConflictIn(w, entries, d);
    }
  }

  ghost predicate NoConflict(w: Workflow) {
    forall d :: !ConflictIn(w, WriteEntries(w.nodes), d)
  }

  lemma NoConflictImpliesOrdered(w: Workflow)
    requires KnownDependencies(w) == Dependencies(w) && NoConflict(w)
    ensures WritesOrdered(w)
  {
    EntriesSpec(w.nodes);
    hide WriteEntries, SharePath, WritePatternsOverlap, Ordered;
    forall a, b, p, q | a in w.nodes && b in w.nodes && a.id != b.id && p in a.writePatterns
        && q in b.writePatterns && SharePath(p, q)
      ensures Ordered(Dependencies(w), a.id, b.id)
    {
      var entries := WriteEntries(w.nodes);
      assert (a.id, p) in entries && (b.id, q) in entries;
      if !Ordered(KnownDependencies(w), a.id, b.id) {
        ClashBetween(w, a.id, p, b.id, q);
      }
    }
  }

  lemma OrderedImpliesNoConflict(w: Workflow)
    requires KnownDependencies(w) == Dependencies(w) && WritesOrdered(w)
    ensures NoConflict(w)
  {
    var entries := WriteEntries(w.nodes);
    EntriesSpec(w.nodes);
    hide WriteEntries, SharePath, WritePatternsOverlap, Ordered;
    forall d ensures !ConflictIn(w, entries, d) {
      if ConflictIn(w, entries, d) {
        var i: nat, j: nat :| ConflictAt(w, entries, i, j, d);
        assert entries[i] in entries && entries[j] in entries;
        OverlapExact(entries[i].1, entries[j].1);
      }
    }
  }

  lemma NoReachFaultIffReachable(w: Workflow)
    requires KnownDependencies(w) == Dependencies(w) && WellWired(w)
    ensures (forall d: Diagnostic :: d.UnreachableOutput? ==> !Fault(w, d)) <==> OutputsReachable(w)
  {
    hide Closure;
    if forall d: Diagnostic :: d.UnreachableOutput? ==> !Fault(w, d) {
      forall e | e in w.edges && e.source.NodeOutput? && e.target.WorkflowOutput? && e.target.port in w.outputs
        ensures e.source.nodeId in Reachable(w)
      {
        var i: nat :| i < |w.edges| && w.edges[i] == e;
        assert OneProducer(w, e.target);
        assert IsFirstInto(w, e.target, i);
        assert !Fault(w, UnreachableOutput(e.target.port, e.source.nodeId));
      }
    }
    if OutputsReachable(w) {
      assert forall i: nat :: i < |w.edges| ==> w.edges[i] in w.edges;
    }
  }

  lemma NoDuplicateIffUnique(w: Workflow)
    ensures (forall d: Diagnostic :: d.DuplicateNodeId? ==> !Fault(w, d)) <==> UniqueIds(w)
  {
    if forall d: Diagnostic :: d.DuplicateNodeId? ==> !Fault(w, d) {
      forall i, j | 0 <= i < j < |w.nodes| ensures IdsOf(w.nodes)[i] != IdsOf(w.nodes)[j] {
        assert !Fault(w, DuplicateNodeId(j));
      }
    }
    assert forall i :: 0 <= i < |w.nodes| ==> IdsOf(w.nodes)[i] == w.nodes[i].id;
  }

  lemma NoEdgeFaultIffTyped(w: Workflow)
    ensures (forall d: Diagnostic :: d.UnknownEndpoint? || d.PortTypeMismatch? ==> !Fault(w, d)) <==>
      (forall e :: e in w.edges ==> WellTyped(w, e))
  {
    hide Known, WellTyped;
    if forall d: Diagnostic :: d.UnknownEndpoint? || d.PortTypeMismatch? ==> !Fault(w, d) {
      forall e | e in w.edges ensures WellTyped(w, e) {
        var i: nat :| i < |w.edges| && w.edges[i] == e;
        assert !Fault(w, UnknownEndpoint(i)) && !Fault(w, PortTypeMismatch(i));
      }
    }
    if forall e :: e in w.edges ==> WellTyped(w, e) {
      forall d: Diagnostic | d.UnknownEndpoint? || d.PortTypeMismatch? ensures !Fault(w, d) {
        if d.edgeIndex < |w.edges| {
          assert w.edges[d.edgeIndex] in w.edges;
          TypedIsKnown(w, w.edges[d.edgeIndex]);
        }
      }
    }
  }

  lemma TypedIsKnown(w: Workflow, e: Edge)
    ensures WellTyped(w, e) ==> Known(w, e)
  {
  }

  lemma NoProducerFaultIffWired(w: Workflow)
    requires forall e :: e in w.edges ==> WellTyped(w, e)
    ensures (forall d :: !ProducerFault(w, d)) <==> WellWired(w)
  {
    hide Known;
    forall e | e in w.edges ensures Known(w, e) {
      TypedIsKnown(w, e);
    }
    forall t ensures |Producers(w, t, |w.edges|)| == 1 <==> OneProducer(w, t) {
      SingleProducer(w, t);
    }
    hide OneProducer, WellTyped, Producers, Declared;
    assert (forall d :: !ProducerFault(w, d)) <==> (forall t :: Declared(w, t) ==> OneProducer(w, t)) by {
      if forall d :: !ProducerFault(w, d) {
        forall t | Declared(w, t) ensures OneProducer(w, t) {
          var ps := Producers(w, t, |w.edges|);
          assert !ProducerFault(w, MissingProducer(t)) && !ProducerFault(w, MultipleProducers(t, ps));
        }
      }
    }
    DeclaredTargets(w);
  }

  lemma DeclaredTargets(w: Workflow)
    ensures (forall t :: Declared(w, t) ==> OneProducer(w, t)) <==>
      ((forall n, p :: n in w.nodes && p in n.inputs ==> OneProducer(w, NodeInput(n.id, p)))
        && (forall p :: p in w.outputs ==> OneProducer(w, WorkflowOutput(p))))
  {
    hide OneProducer;
    if forall t :: Declared(w, t) ==> OneProducer(w, t) {
      forall n, p | n in w.nodes && p in n.inputs ensures OneProducer(w, NodeInput(n.id, p)) {
        assert Declared(w, NodeInput(n.id, p));
      }
      forall p | p in w.outputs ensures OneProducer(w, WorkflowOutput(p)) {
        assert Declared(w, WorkflowOutput(p));
      }
    }
  }

  lemma AcceptedIffValid(w: Workflow, diagnostics: seq<Diagnostic>)
    requires forall d :: d in diagnostics ==> Fault(w, d)
    requires forall d :: Fault(w, d) && !d.ForbiddenCycle? ==> d in diagnostics
    requires (exists d :: d in diagnostics && d.ForbiddenCycle?) <==> !Acyclic(KnownDependencies(w))
    ensures (forall d :: d in diagnostics ==> !IsError(d)) <==> Valid(w)
  {
    hide Fault, Acyclic, WritesOrdered, OutputsReachable, UniqueIds, WellTyped;
    assert (forall d :: d in diagnostics ==> !IsError(d)) <==>
      (Acyclic(KnownDependencies(w)) && forall d :: IsError(d) && !d.ForbiddenCycle? ==> !Fault(w, d));
    NoDuplicateIffUnique(w);
    NoEdgeFaultIffTyped(w);
    if forall e :: e in w.edges ==> WellTyped(w, e) {
      NoProducerFaultIffWired(w);
      forall e | e in w.edges ensures Known(w, e) {
        TypedIsKnown(w, e);
      }
      KnownDependenciesAll(w);
      if NoConflict(w) {
        NoConflictImpliesOrdered(w);
      } else if WritesOrdered(w) {
        OrderedImpliesNoConflict(w);
      }
      ConflictFaults(w);
      if WellWired(w) {
        NoReachFaultIffReachable(w);
        FaultKinds(w);
      } else {
        var d :| ProducerFault(w, d);
        assert IsError(d) && Fault(w, d);
      }
    }
  }

  lemma FaultKinds(w: Workflow)
    requires forall d: Diagnostic :: d.UnknownEndpoint? || d.PortTypeMismatch? ==> !Fault(w, d)
    requires forall d :: !ProducerFault(w, d)
    ensures (forall d :: IsError(d) && !d.ForbiddenCycle? ==> !Fault(w, d)) <==>
      ((forall d: Diagnostic :: d.DuplicateNodeId? ==> !Fault(w, d))
        && (forall d: Diagnostic :: d.WriteConflict? ==> !Fault(w, d))
        && (forall d: Diagnostic :: d.UnreachableOutput? ==> !Fault(w, d)))
  {
    hide Fault;
    forall d: Diagnostic | d.MissingProducer? || d.MultipleProducers? ensures !Fault(w, d) {
      assert !ProducerFault(w, d);
    }
  }

  lemma ConflictFaults(w: Workflow)
    ensures NoConflict(w) <==> (forall d: Diagnostic :: d.WriteConflict? ==> !Fault(w, d))
  {
    hide WriteEntries;
    if NoConflict(w) {
      forall d: Diagnostic | d.WriteConflict? ensures !Fault(w, d) {
        assert !ConflictIn(w, WriteEntries(w.nodes), d);
      }
    }
    if forall d: Diagnostic :: d.WriteConflict? ==> !Fault(w, d) {
      forall d ensures !ConflictIn(w, WriteEntries(w.nodes), d) {
        assert d.WriteConflict? ==> !Fault(w, d);
      }
    }
  }
}

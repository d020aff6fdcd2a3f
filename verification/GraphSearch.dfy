/** Graph searches of the workflow compiler: the three-colour depth-first cycle search,
    the stack search behind the write-conflict test, and the reachability fixpoint. */
module GraphSearch {
  import opened Graphs
  import opened Ordering

  /** Successors in insertion order, as the compiler builds them. */
  type Adjacency = map<Id, seq<Id>>

  function Next(adjacency: Adjacency, a: Id): seq<Id> {
    if a in adjacency then adjacency[a] else []
  }

  ghost function GraphOf(adjacency: Adjacency): Graph {
    set a, b | a in adjacency && b in adjacency[a] :: (a, b)
  }

  lemma NextIsEdge(adjacency: Adjacency, a: Id, b: Id)
    ensures b in Next(adjacency, a) <==> (a, b) in GraphOf(adjacency)
  {
  }

  /** An edge that is there already is not added again. */
  method AddEdge(adjacency: Adjacency, a: Id, b: Id) returns (grown: Adjacency)
    requires a in adjacency
    ensures grown.Keys == adjacency.Keys && GraphOf(grown) == GraphOf(adjacency) + {(a, b)}
  {
    grown := if b in adjacency[a] then adjacency else adjacency[a := adjacency[a] + [b]];
  }

  /** All nodes the search can meet. */
  ghost function Universe(adjacency: Adjacency): set<Id> {
    adjacency.Keys + Targets(GraphOf(adjacency))
  }

  /** Consecutive members are joined by edges. */
  ghost predicate Walk(g: Graph, p: seq<Id>) {
    forall i, j :: 0 <= i && j == i + 1 && j < |p| ==> (p[i], p[j]) in g
  }

  /** A walk that comes back to its last node: what a cycle report shows. */
  ghost predicate ClosesCycle(g: Graph, p: seq<Id>) {
    |p| >= 2 && Walk(g, p) && p[|p| - 1] in p[..|p| - 1]
  }

  lemma {:induction false} WalkReaches(g: Graph, p: seq<Id>, i: nat, j: nat)
    requires Walk(g, p) && i < j < |p|
    ensures Precedes(g, p[i], p[j])
    decreases j
  {
    if i + 1 == j {
      EdgeReaches(g, p[i], p[j]);
    } else {
      WalkReaches(g, p, i, j - 1);
      ReachesSplit(g, p[i], p[j - 1]);
      assert (p[j - 1], p[j]) in g;
      ReachesAppend(g, p[i], p[j - 1], p[j]);
    }
  }

  lemma ClosedWalkIsCycle(g: Graph, p: seq<Id>)
    requires ClosesCycle(g, p)
    ensures !Acyclic(g)
  {
    var i :| 0 <= i < |p| - 1 && p[i] == p[|p| - 1];
    WalkReaches(g, p, i, |p| - 1);
  }

  /** `order` lists nodes so that every successor of a listed node is listed before it. */
  ghost predicate FinishingOrder(g: Graph, order: seq<Id>) {
    forall i, b :: 0 <= i < |order| && (order[i], b) in g ==> b in order[..i]
  }

  /** The position of the first occurrence, used as a rank. */
  ghost function FirstIndex(order: seq<Id>, a: Id): nat {
    if order == [] || order[0] == a then 0 else 1 + FirstIndex(order[1..], a)
  }

  lemma FirstIndexProperty(order: seq<Id>, a: Id)
    requires a in order
    ensures FirstIndex(order, a) < |order| && order[FirstIndex(order, a)] == a
    ensures forall m :: 0 <= m < FirstIndex(order, a) ==> order[m] != a
  {
  }

  lemma FinishingOrderIsAcyclic(g: Graph, order: seq<Id>)
    requires FinishingOrder(g, order)
    requires forall e :: e in g ==> e.0 in order
    ensures Acyclic(g)
  {
    var rank: Id -> int := (a: Id) => 0 - FirstIndex(order, a);
    forall a, b | (a, b) in g ensures rank(a) < rank(b) {
      assert (a, b).0 in order;
      FirstIndexProperty(order, a);
      var k := FirstIndex(order, a);
      var m :| 0 <= m < k && order[m] == b;
      FirstIndexProperty(order, b);
    }
    RankedIsAcyclic(g, rank);
  }

  lemma WalkAppend(g: Graph, p: seq<Id>, b: Id)
    requires Walk(g, p) && (p != [] ==> (p[|p| - 1], b) in g)
    ensures Walk(g, p + [b])
  {
  }

  lemma SuccessorInUniverse(adjacency: Adjacency, a: Id, b: Id)
    requires b in Next(adjacency, a)
    ensures (a, b) in GraphOf(adjacency) && b in Universe(adjacency)
  {
    assert (a, b).1 in Targets(GraphOf(adjacency));
  }

  lemma FinishingOrderGrows(g: Graph, order: seq<Id>, node: Id)
    requires FinishingOrder(g, order)
    requires forall b :: (node, b) in g ==> b in order
    ensures FinishingOrder(g, order + [node])
  {
    var longer := order + [node];
    forall i, b | 0 <= i < |longer| && (longer[i], b) in g ensures b in longer[..i] {
      assert longer[..i] == order[..i];
      if i == |order| {
        assert longer[..i] == order;
      }
    }
  }

  /** What the search knows between two steps: grey nodes are the stack, black nodes are finished
      after all their successors as long as nothing was reported, and every report is a cycle. */
  ghost predicate SearchState(g: Graph, temporary: set<Id>, permanent: set<Id>, stack: seq<Id>,
      cycles: seq<seq<Id>>, finished: seq<Id>)
  {
    && temporary == Elements(stack) && Walk(g, stack)
    && permanent == Elements(finished)
    && (cycles == [] ==> FinishingOrder(g, finished))
    && (forall p :: p in cycles ==> ClosesCycle(g, p))
  }

  lemma StateReport(g: Graph, temporary: set<Id>, permanent: set<Id>, stack: seq<Id>,
      cycles: seq<seq<Id>>, finished: seq<Id>, node: Id)
    requires SearchState(g, temporary, permanent, stack, cycles, finished)
    requires node in temporary && (stack != [] ==> (stack[|stack| - 1], node) in g)
    ensures SearchState(g, temporary, permanent, stack, cycles + [stack + [node]], finished)
  {
    assert stack != [];
    WalkAppend(g, stack, node);
    var walk := stack + [node];
    assert walk[..|walk| - 1] == stack;
  }

  lemma StateInner(g: Graph, temporary: set<Id>, permanent: set<Id>, stack: seq<Id>,
      cycles: seq<seq<Id>>, finished: seq<Id>, node: Id)
    requires SearchState(g, temporary, permanent, stack, cycles, finished)
    requires stack != [] ==> (stack[|stack| - 1], node) in g
    ensures SearchState(g, temporary + {node}, permanent, stack + [node], cycles, finished)
    ensures temporary == Elements(stack)
  {
    WalkAppend(g, stack, node);
    ElementsAppend(stack, node);
  }

  lemma StatePop(adjacency: Adjacency, temporary: set<Id>, permanent: set<Id>, stack: seq<Id>,
      cycles: seq<seq<Id>>, finished: seq<Id>, node: Id)
    requires SearchState(GraphOf(adjacency), temporary + {node}, permanent, stack + [node], cycles, finished)
    requires node !in temporary && temporary == Elements(stack)
    requires cycles == [] ==> forall b :: b in Next(adjacency, node) ==> b in permanent
    ensures SearchState(GraphOf(adjacency), temporary, permanent + {node}, stack, cycles, finished + [node])
  {
    assert (stack + [node])[..|stack|] == stack;
    if cycles == [] {
      forall b | (node, b) in GraphOf(adjacency) ensures b in finished {
        NextIsEdge(adjacency, node, b);
      }
      FinishingOrderGrows(GraphOf(adjacency), finished, node);
    }
    ElementsAppend(finished, node);
  }

  /** Greying a white node leaves fewer white nodes, however many have turned black meanwhile. */
  lemma WhiteShrinks(all: set<Id>, temporary: set<Id>, permanent: set<Id>, node: Id, black: set<Id>)
    requires node in all && node !in temporary && node !in permanent && permanent <= black
    ensures |all - (temporary + {node}) - black| < |all - temporary - permanent|
  {
    var before, after := all - temporary - permanent, all - (temporary + {node}) - permanent;
    assert node in before && node !in after;
    ProperSubsetSmaller(after, before);
    SubsetSize(all - (temporary + {node}) - black, after);
  }

  /** The recursive visit: white nodes are explored, grey ones reported, black ones skipped.
      The grey set and the stack are back to what they were when a visit ends, so only the black
      set and the reports are results. */
  method Visit(adjacency: Adjacency, node: Id, temporary: set<Id>, permanent: set<Id>, stack: seq<Id>,
      cycles: seq<seq<Id>>, ghost finished: seq<Id>)
    returns (black: set<Id>, reports: seq<seq<Id>>, ghost order: seq<Id>)
    requires SearchState(GraphOf(adjacency), temporary, permanent, stack, cycles, finished)
    requires node in Universe(adjacency)
    requires stack != [] ==> (stack[|stack| - 1], node) in GraphOf(adjacency)
    ensures SearchState(GraphOf(adjacency), temporary, black, stack, reports, order)
    ensures permanent <= black && (cycles != [] ==> reports != [])
    ensures node in black || reports != []
    decreases |Universe(adjacency) - temporary - permanent|
  {
    hide GraphOf, Universe, SearchState, Elements;
    black, reports, order := permanent, cycles, finished;
    if node in permanent {
      return;
    }
    if node in temporary {
      StateReport(GraphOf(adjacency), temporary, permanent, stack, cycles, finished, node);
      reports := cycles + [stack + [node]];
      return;
    }
    StateInner(GraphOf(adjacency), temporary, permanent, stack, cycles, finished, node);
    var grey, path := temporary + {node}, stack + [node];
    var next := Next(adjacency, node);
    var i := 0;
    while i < |next|
      invariant 0 <= i <= |next|
      invariant SearchState(GraphOf(adjacency), grey, black, path, reports, order)
      invariant permanent <= black && (cycles != [] ==> reports != [])
      invariant reports == [] ==> forall k :: 0 <= k < i ==> next[k] in black
    {
      SuccessorInUniverse(adjacency, node, next[i]);
      WhiteShrinks(Universe(adjacency), temporary, permanent, node, black);
      black, reports, order := Visit(adjacency, next[i], grey, black, path, reports, order);
      i := i + 1;
    }
    StatePop(adjacency, temporary, black, stack, reports, order, node);
    black, order := black + {node}, order + [node];
  }

  /** Visits every node; a cycle is reported exactly when there is one. */
  method DetectCycles(nodeIds: seq<Id>, adjacency: Adjacency) returns (cycles: seq<seq<Id>>)
    requires adjacency.Keys == Elements(nodeIds)
    ensures forall p :: p in cycles ==> ClosesCycle(GraphOf(adjacency), p)
    ensures cycles == [] <==> Acyclic(GraphOf(adjacency))
  {
    var permanent: set<Id> := {};
    cycles := [];
    ghost var finished: seq<Id> := [];
    var i := 0;
    while i < |nodeIds|
      invariant 0 <= i <= |nodeIds|
      invariant SearchState(GraphOf(adjacency), {}, permanent, [], cycles, finished)
      invariant cycles == [] ==> forall k :: 0 <= k < i ==> nodeIds[k] in permanent
    {
      permanent, cycles, finished := Visit(adjacency, nodeIds[i], {}, permanent, [], cycles, finished);
      i := i + 1;
    }
    if cycles == [] {
      forall e | e in GraphOf(adjacency) ensures e.0 in finished {
        assert e.0 in nodeIds;
      }
      FinishingOrderIsAcyclic(GraphOf(adjacency), finished);
    } else {
      ClosedWalkIsCycle(GraphOf(adjacency), cycles[0]);
    }
  }

  // ----- the stack search behind the write-conflict test ------------------------

  /** Successors of the start and of visited nodes are visited or still on the stack. */
  ghost predicate Explored(adjacency: Adjacency, start: Id, visited: set<Id>, stack: seq<Id>) {
    && (forall b :: b in Next(adjacency, start) ==> b in visited || b in stack)
    && (forall a, b :: a in visited && b in Next(adjacency, a) ==> b in visited || b in stack)
  }

  lemma ExploredSkip(adjacency: Adjacency, start: Id, visited: set<Id>, stack: seq<Id>, node: Id)
    requires Explored(adjacency, start, visited, stack + [node]) && node in visited
    ensures Explored(adjacency, start, visited, stack)
  {
  }

  lemma ExploredExpand(adjacency: Adjacency, start: Id, visited: set<Id>, stack: seq<Id>, node: Id)
    requires Explored(adjacency, start, visited, stack + [node])
    ensures Explored(adjacency, start, visited + {node}, stack + Next(adjacency, node))
  {
  }

  lemma SearchedAll(adjacency: Adjacency, start: Id, target: Id, visited: set<Id>)
    requires Explored(adjacency, start, visited, [])
    requires Precedes(GraphOf(adjacency), start, target)
    ensures target in visited
  {
    var g := GraphOf(adjacency);
    NextClosed(adjacency, visited);
    var c :| (start, c) in g && Reaches(g, c, target);
    NextIsEdge(adjacency, start, c);
    ClosedContains(g, visited, c, target);
  }

  lemma NextClosed(adjacency: Adjacency, S: set<Id>)
    requires forall a, b :: a in S && b in Next(adjacency, a) ==> b in S
    ensures Closed(GraphOf(adjacency), S)
  {
    forall a, b | a in S && (a, b) in GraphOf(adjacency) ensures b in S {
      NextIsEdge(adjacency, a, b);
    }
  }

  /** Decides whether a non-empty path leads from `start` to `target`. */
  method CanReach(start: Id, target: Id, adjacency: Adjacency) returns (found: bool)
    ensures found <==> Precedes(GraphOf(adjacency), start, target)
  {
    hide GraphOf, Universe, Precedes, Reaches, Next;
    ghost var g := GraphOf(adjacency);
    var visited: set<Id> := {};
    var stack := Next(adjacency, start);
    forall b | b in stack ensures Precedes(g, start, b) && b in Universe(adjacency) {
      SuccessorInUniverse(adjacency, start, b);
      EdgeReaches(g, start, b);
    }
    while stack != []
      invariant forall b :: b in stack ==> Precedes(g, start, b)
      invariant visited <= Universe(adjacency) && Elements(stack) <= Universe(adjacency)
      invariant target !in visited
      invariant Explored(adjacency, start, visited, stack)
      decreases |Universe(adjacency) - visited|, |stack|
    {
      ghost var was := stack;
      var node := stack[|stack| - 1];
      stack := stack[..|stack| - 1];
      assert was == stack + [node];
      hide Explored;
      if node in visited {
        ExploredSkip(adjacency, start, visited, stack, node);
        continue;
      }
      if node == target {
        return true;
      }
      ProperSubsetSmaller(Universe(adjacency) - visited - {node}, Universe(adjacency) - visited);
      assert Universe(adjacency) - (visited + {node}) == Universe(adjacency) - visited - {node};
      ExploredExpand(adjacency, start, visited, stack, node);
      visited := visited + {node};
      forall b | b in Next(adjacency, node) ensures Precedes(g, start, b) && b in Universe(adjacency) {
        SuccessorInUniverse(adjacency, node, b);
        EdgeReaches(g, node, b);
        PrecedesTransitive(g, start, node, b);
      }
      stack := stack + Next(adjacency, node);
    }
    if Precedes(g, start, target) {
      SearchedAll(adjacency, start, target, visited);
    }
    return false;
  }

  // ----- the reachability fixpoint ----------------------------------------------

  /** Everything in `reachable` is reached from a root, and nothing is lost. */
  ghost predicate SoundSearch(adjacency: Adjacency, roots: set<Id>, reachable: set<Id>) {
    && roots <= reachable <= roots + Universe(adjacency)
    && forall v :: v in reachable ==> ReachedFrom(GraphOf(adjacency), roots, v)
  }

  lemma SuccessorReached(adjacency: Adjacency, roots: set<Id>, a: Id, b: Id)
    requires ReachedFrom(GraphOf(adjacency), roots, a) && b in Next(adjacency, a)
    ensures ReachedFrom(GraphOf(adjacency), roots, b) && b in Universe(adjacency)
  {
    var g := GraphOf(adjacency);
    NextIsEdge(adjacency, a, b);
    assert (a, b).1 in Targets(g);
    var r :| r in roots && Reaches(g, r, a);
    ReachesAppend(g, r, a, b);
  }

  method AddSuccessors(node: Id, adjacency: Adjacency, before: set<Id>, ghost roots: set<Id>)
    returns (reachable: set<Id>)
    requires SoundSearch(adjacency, roots, before) && node in before
    ensures SoundSearch(adjacency, roots, reachable) && before <= reachable
    ensures forall b :: b in Next(adjacency, node) ==> b in reachable
  {
    hide GraphOf, Reaches, Universe;
    reachable := before;
    var next := Next(adjacency, node);
    var i := 0;
    while i < |next|
      invariant 0 <= i <= |next|
      invariant SoundSearch(adjacency, roots, reachable) && before <= reachable
      invariant forall k :: 0 <= k < i ==> next[k] in reachable
    {
      SuccessorReached(adjacency, roots, node, next[i]);
      if next[i] !in reachable {
        reachable := reachable + {next[i]};
      }
      i := i + 1;
    }
  }

  lemma RootsReached(g: Graph, roots: set<Id>)
    ensures forall r :: r in roots ==> ReachedFrom(g, roots, r)
  {
    forall r | r in roots ensures ReachedFrom(g, roots, r) {
      ReachesSelf(g, r);
    }
  }

  /** Repeats whole passes over the reachable set until nothing is added. */
  method ReachableFrom(roots: set<Id>, adjacency: Adjacency) returns (reachable: set<Id>)
    ensures reachable == Closure(GraphOf(adjacency), roots)
  {
    hide GraphOf, Universe, ReachedFrom, Closure;
    ghost var g := GraphOf(adjacency);
    reachable := roots;
    RootsReached(g, roots);
    var changed := true;
    while changed
      invariant SoundSearch(adjacency, roots, reachable)
      invariant changed || Closed(g, reachable)
      decreases |roots + Universe(adjacency) - reachable|, if changed then 1 else 0
    {
      ghost var before := reachable;
      var pending := reachable;
      changed := false;
      while pending != {}
        invariant pending <= before <= reachable
        invariant SoundSearch(adjacency, roots, reachable)
        invariant changed <==> reachable != before
        invariant forall a, b :: a in before - pending && b in Next(adjacency, a) ==> b in reachable
      {
        var node :| node in pending;
        var grown := AddSuccessors(node, adjacency, reachable, roots);
        pending := pending - {node};
        changed := changed || grown != reachable;
        reachable := grown;
      }
      if changed {
        ProperSubsetSmaller(roots + Universe(adjacency) - reachable, roots + Universe(adjacency) - before);
      } else {
        NextClosed(adjacency, reachable);
      }
    }
    ClosureExact(g, roots, reachable);
  }
}

/** Finite directed graphs: walks, reachability, acyclicity, closures and ranks.
    Every component that orders work by dependencies is stated in these terms. */
module Graphs {

  type Id = string

  /** A finite edge relation; a pair `(a, b)` says that `b` depends on `a`. */
  type Graph = set<(Id, Id)>

  /** `b` is exactly `n` edges away from `a`. */
  ghost predicate Steps(g: Graph, a: Id, b: Id, n: nat)
    decreases n
  {
    if n == 0 then a == b else exists c :: (a, c) in g && Steps(g, c, b, n - 1)
  }

  /** Reflexive-transitive reachability. */
  ghost predicate Reaches(g: Graph, a: Id, b: Id) {
    exists n: nat :: Steps(g, a, b, n)
  }

  /** Reachability by at least one edge. */
  ghost predicate Precedes(g: Graph, a: Id, b: Id) {
    exists c :: (a, c) in g && Reaches(g, c, b)
  }

  ghost predicate Acyclic(g: Graph) {
    forall a :: !Precedes(g, a, a)
  }

  /** `S` contains the successors of its members. */
  ghost predicate Closed(g: Graph, S: set<Id>) {
    forall a, b :: a in S && (a, b) in g ==> b in S
  }

  /** `S` contains the predecessors of its members. */
  ghost predicate PredecessorClosed(g: Graph, S: set<Id>) {
    forall a, b :: b in S && (a, b) in g ==> a in S
  }

  ghost function Sources(g: Graph): set<Id> {
    set e | e in g :: e.0
  }

  ghost function Targets(g: Graph): set<Id> {
    set e | e in g :: e.1
  }

  /** Some member of `S` reaches `b`. */
  ghost predicate ReachedFrom(g: Graph, S: set<Id>, b: Id) {
    exists a :: a in S && Reaches(g, a, b)
  }

  /** Everything reachable from `S`, including `S` itself. */
  ghost function Closure(g: Graph, S: set<Id>): set<Id> {
    set b | b in S + Targets(g) && ReachedFrom(g, S, b)
  }

  ghost predicate HasPredecessorIn(g: Graph, S: set<Id>, b: Id) {
    exists a :: a in S && (a, b) in g
  }

  /** The proper ancestors of a node. */
  ghost function Ancestors(g: Graph, b: Id): set<Id> {
    set a | a in Sources(g) && Precedes(g, a, b)
  }

  /** Strictly grows along every edge of an acyclic graph. */
  ghost function Rank(g: Graph, b: Id): nat {
    |Ancestors(g, b)|
  }

  /** The same graph with every edge turned round. */
  function Flip(g: Graph): Graph {
    set e | e in g :: (e.1, e.0)
  }

  // ----- reachability ---------------------------------------------------------

  lemma ReachesSelf(g: Graph, a: Id)
    ensures Reaches(g, a, a)
  {
    assert Steps(g, a, a, 0);
  }

  lemma {:induction false} StepsCompose(g: Graph, a: Id, b: Id, c: Id, m: nat, n: nat)
    requires Steps(g, a, b, m) && Steps(g, b, c, n)
    ensures Steps(g, a, c, m + n)
    decreases m
  {
    if m > 0 {
      var d :| (a, d) in g && Steps(g, d, b, m - 1);
      StepsCompose(g, d, b, c, m - 1, n);
      assert (a, d) in g && Steps(g, d, c, m + n - 1);
    }
  }

  lemma ReachesTransitive(g: Graph, a: Id, b: Id, c: Id)
    requires Reaches(g, a, b) && Reaches(g, b, c)
    ensures Reaches(g, a, c)
  {
    var m: nat :| Steps(g, a, b, m);
    var n: nat :| Steps(g, b, c, n);
    StepsCompose(g, a, b, c, m, n);
  }

  lemma EdgeReaches(g: Graph, a: Id, b: Id)
    requires (a, b) in g
    ensures Reaches(g, a, b) && Precedes(g, a, b)
  {
    ReachesSelf(g, b);
    assert Steps(g, b, b, 0) && Steps(g, a, b, 1);
  }

  lemma ReachesAppend(g: Graph, a: Id, b: Id, c: Id)
    requires Reaches(g, a, b) && (b, c) in g
    ensures Reaches(g, a, c) && Precedes(g, a, c)
  {
    EdgeReaches(g, b, c);
    ReachesTransitive(g, a, b, c);
    if a != b {
      ReachesSplit(g, a, b);
      var d :| (a, d) in g && Reaches(g, d, b);
      ReachesTransitive(g, d, b, c);
    }
  }

  /** Reachability is equality or a first edge followed by reachability. */
  lemma ReachesSplit(g: Graph, a: Id, b: Id)
    ensures Reaches(g, a, b) <==> a == b || Precedes(g, a, b)
  {
    if Reaches(g, a, b) && a != b {
      var n: nat :| Steps(g, a, b, n);
      var c :| (a, c) in g && Steps(g, c, b, n - 1);
      assert Reaches(g, c, b);
    }
    if a == b {
      ReachesSelf(g, a);
    }
    if Precedes(g, a, b) {
      var c :| (a, c) in g && Reaches(g, c, b);
      EdgeReaches(g, a, c);
      ReachesTransitive(g, a, c, b);
    }
  }

  lemma PrecedesTransitive(g: Graph, a: Id, b: Id, c: Id)
    requires (Precedes(g, a, b) && (Reaches(g, b, c) || Precedes(g, b, c))) || (Reaches(g, a, b) && Precedes(g, b, c))
    ensures Precedes(g, a, c)
  {
    ReachesSplit(g, a, b);
    ReachesSplit(g, b, c);
    if a != b {
      var d :| (a, d) in g && Reaches(g, d, b);
      ReachesTransitive(g, d, b, c);
    }
  }

  /** The last edge of a walk with at least one edge. */
  lemma {:induction false} LastEdge(g: Graph, a: Id, b: Id) returns (c: Id)
    requires Precedes(g, a, b)
    ensures Reaches(g, a, c) && (c, b) in g
  {
    var d :| (a, d) in g && Reaches(g, d, b);
    var n: nat :| Steps(g, d, b, n);
    c := LastEdgeOfSteps(g, a, d, b, n);
  }

  lemma {:induction false} LastEdgeOfSteps(g: Graph, a: Id, d: Id, b: Id, n: nat) returns (c: Id)
    requires (a, d) in g && Steps(g, d, b, n)
    ensures Reaches(g, a, c) && (c, b) in g
    decreases n
  {
    if n == 0 {
      ReachesSelf(g, a);
      c := a;
    } else {
      var e :| (d, e) in g && Steps(g, e, b, n - 1);
      c := LastEdgeOfSteps(g, d, e, b, n - 1);
      EdgeReaches(g, a, d);
      ReachesTransitive(g, a, d, c);
    }
  }

  /** A successor-closed set cannot be left. */
  lemma {:induction false} ClosedContains(g: Graph, S: set<Id>, a: Id, b: Id)
    requires Closed(g, S) && a in S && Reaches(g, a, b)
    ensures b in S
  {
    var n: nat :| Steps(g, a, b, n);
    ClosedContainsSteps(g, S, a, b, n);
  }

  lemma {:induction false} ClosedContainsSteps(g: Graph, S: set<Id>, a: Id, b: Id, n: nat)
    requires Closed(g, S) && a in S && Steps(g, a, b, n)
    ensures b in S
    decreases n
  {
    if n > 0 {
      var c :| (a, c) in g && Steps(g, c, b, n - 1);
      ClosedContainsSteps(g, S, c, b, n - 1);
    }
  }

  /** A predecessor-closed set contains everything that reaches into it. */
  lemma {:induction false} PredecessorClosedContains(g: Graph, S: set<Id>, a: Id, b: Id)
    requires PredecessorClosed(g, S) && b in S && Reaches(g, a, b)
    ensures a in S
  {
    FlipReaches(g, a, b);
    assert Closed(Flip(g), S) by {
      forall x, y | x in S && (x, y) in Flip(g) ensures y in S {
        assert (y, x) in g;
      }
    }
    ClosedContains(Flip(g), S, b, a);
  }

  lemma FlipReaches(g: Graph, a: Id, b: Id)
    ensures Reaches(g, a, b) <==> Reaches(Flip(g), b, a)
  {
    if Reaches(g, a, b) {
      var n: nat :| Steps(g, a, b, n);
      FlipSteps(g, a, b, n);
    }
    if Reaches(Flip(g), b, a) {
      var n: nat :| Steps(Flip(g), b, a, n);
      FlipSteps(Flip(g), b, a, n);
      FlipTwice(g);
    }
  }

  lemma FlipTwice(g: Graph)
    ensures Flip(Flip(g)) == g
  {
    forall e | e in g ensures e in Flip(Flip(g)) {
      assert (e.1, e.0) in Flip(g);
    }
  }

  lemma {:induction false} FlipSteps(g: Graph, a: Id, b: Id, n: nat)
    requires Steps(g, a, b, n)
    ensures Reaches(Flip(g), b, a)
    decreases n
  {
    if n == 0 {
      ReachesSelf(Flip(g), a);
    } else {
      var c :| (a, c) in g && Steps(g, c, b, n - 1);
      FlipSteps(g, c, b, n - 1);
      assert (c, a) in Flip(g);
      ReachesAppend(Flip(g), b, c, a);
    }
  }

  /** Fewer edges reach less. */
  lemma {:induction false} SubgraphReaches(g: Graph, h: Graph, a: Id, b: Id)
    requires g <= h && Reaches(g, a, b)
    ensures Reaches(h, a, b)
  {
    var n: nat :| Steps(g, a, b, n);
    SubgraphSteps(g, h, a, b, n);
  }

  lemma {:induction false} SubgraphSteps(g: Graph, h: Graph, a: Id, b: Id, n: nat)
    requires g <= h && Steps(g, a, b, n)
    ensures Steps(h, a, b, n)
    decreases n
  {
    if n > 0 {
      var c :| (a, c) in g && Steps(g, c, b, n - 1);
      SubgraphSteps(g, h, c, b, n - 1);
      assert (a, c) in h;
    }
  }

  lemma SubgraphAcyclic(g: Graph, h: Graph)
    requires g <= h && Acyclic(h)
    ensures Acyclic(g)
  {
    forall a ensures !Precedes(g, a, a) {
      if Precedes(g, a, a) {
        var c :| (a, c) in g && Reaches(g, c, a);
        SubgraphReaches(g, h, c, a);
        assert Precedes(h, a, a);
      }
    }
  }

  // ----- closures -------------------------------------------------------------

  /** A search that stays inside the reachable nodes and stops closed has found exactly the closure. */
  lemma ClosureExact(g: Graph, S: set<Id>, V: set<Id>)
    requires S <= V && Closed(g, V)
    requires forall v :: v in V ==> ReachedFrom(g, S, v)
    ensures V == Closure(g, S)
  {
    forall v | v in V ensures v in Closure(g, S) {
      var s :| s in S && Reaches(g, s, v);
      InClosure(g, S, s, v);
    }
    ClosureLeast(g, S, V);
  }

  lemma InClosure(g: Graph, S: set<Id>, a: Id, b: Id)
    requires a in S && Reaches(g, a, b)
    ensures b in Closure(g, S)
  {
    ReachesSplit(g, a, b);
    if a != b {
      var c := LastEdge(g, a, b);
      assert (c, b) in g;
      assert b in Targets(g) by { assert (c, b).1 == b; }
    }
  }

  lemma ClosureIsClosed(g: Graph, S: set<Id>)
    ensures S <= Closure(g, S) && Closed(g, Closure(g, S))
  {
    forall s | s in S ensures s in Closure(g, S) {
      ReachesSelf(g, s);
    }
    forall a, b | a in Closure(g, S) && (a, b) in g ensures b in Closure(g, S) {
      var s :| s in S && Reaches(g, s, a);
      ReachesAppend(g, s, a, b);
      InClosure(g, S, s, b);
    }
  }

  /** The closure is the least closed superset. */
  lemma ClosureLeast(g: Graph, S: set<Id>, V: set<Id>)
    requires S <= V && Closed(g, V)
    ensures Closure(g, S) <= V
  {
    forall v | v in Closure(g, S) ensures v in V {
      var s :| s in S && Reaches(g, s, v);
      ClosedContains(g, V, s, v);
    }
  }

  /** Keeping only the edges that leave a closure does not make the closure smaller. */
  lemma ClosureRestricted(g: Graph, h: Graph, S: set<Id>)
    requires forall a, b :: (a, b) in h <==> (a, b) in g && a in Closure(g, S)
    ensures Closure(h, S) == Closure(g, S)
  {
    var keep, left := Closure(g, S), Closure(h, S);
    ClosureIsClosed(g, S);
    ClosureIsClosed(h, S);
    hide Closure;
    forall a, b | a in keep && (a, b) in h ensures b in keep {
      assert (a, b) in g;
    }
    ClosureLeast(h, S, keep);
    forall a, b | a in left && (a, b) in g ensures b in left {
      assert (a, b) in h;
    }
    ClosureLeast(g, S, left);
  }

  // ----- acyclic graphs -------------------------------------------------------

  lemma RankGrows(g: Graph, a: Id, b: Id)
    requires Acyclic(g) && (a, b) in g
    ensures Rank(g, a) < Rank(g, b)
  {
    forall x | x in Ancestors(g, a) ensures x in Ancestors(g, b) {
      EdgeReaches(g, a, b);
      PrecedesTransitive(g, x, a, b);
    }
    EdgeReaches(g, a, b);
    assert (a, b).0 == a;
    assert a in Ancestors(g, b) && a !in Ancestors(g, a);
    ProperSubsetSmaller(Ancestors(g, a), Ancestors(g, b));
  }

  lemma ProperSubsetSmaller<T>(A: set<T>, B: set<T>)
    requires A < B
    ensures |A| < |B|
  {
    SubsetSize(A, B);
    var x :| x in B && x !in A;
    SubsetSize(A, B - {x});
  }

  lemma {:induction false} SubsetSize<T>(A: set<T>, B: set<T>)
    requires A <= B
    ensures |A| <= |B|
    decreases |A|
  {
    if A != {} {
      var x :| x in A;
      SubsetSize(A - {x}, B - {x});
    }
  }

  /** A relation whose edges all go up in some ranking has no cycle. */
  lemma RankedIsAcyclic(g: Graph, rank: Id -> int)
    requires forall a, b :: (a, b) in g ==> rank(a) < rank(b)
    ensures Acyclic(g)
  {
    forall a ensures !Precedes(g, a, a) {
      if Precedes(g, a, a) {
        var c :| (a, c) in g && Reaches(g, c, a);
        var n: nat :| Steps(g, c, a, n);
        RankedSteps(g, rank, c, a, n);
      }
    }
  }

  lemma {:induction false} RankedSteps(g: Graph, rank: Id -> int, a: Id, b: Id, n: nat)
    requires forall a, b :: (a, b) in g ==> rank(a) < rank(b)
    requires Steps(g, a, b, n)
    ensures rank(a) + n <= rank(b)
    decreases n
  {
    if n > 0 {
      var c :| (a, c) in g && Steps(g, c, b, n - 1);
      RankedSteps(g, rank, c, b, n - 1);
    }
  }

  /** If every member of a non-empty finite set has a predecessor in the set, the graph has a cycle. */
  lemma {:induction false} NoSourceMeansCycle(g: Graph, S: set<Id>)
    requires S != {}
    requires forall b :: b in S ==> HasPredecessorIn(g, S, b)
    ensures !Acyclic(g)
    decreases |S|
  {
    var s :| s in S;
    var A := set x | x in S && Precedes(g, x, s);
    if s !in A {
      assert A < S by { assert s in S; }
      ProperSubsetSmaller(A, S);
      assert HasPredecessorIn(g, S, s);
      var p :| p in S && (p, s) in g;
      EdgeReaches(g, p, s);
      assert p in A;
      forall b | b in A ensures HasPredecessorIn(g, A, b) {
        assert HasPredecessorIn(g, S, b);
        var a :| a in S && (a, b) in g;
        EdgeReaches(g, a, b);
        PrecedesTransitive(g, a, b, s);
      }
      NoSourceMeansCycle(g, A);
    }
  }

  /** Every non-empty finite set of nodes of an acyclic graph has a member none of whose
      predecessors is in the set. */
  lemma AcyclicHasSource(g: Graph, S: set<Id>) returns (s: Id)
    requires Acyclic(g) && S != {}
    ensures s in S && forall a :: (a, s) in g ==> a !in S
  {
    if forall b :: b in S ==> HasPredecessorIn(g, S, b) {
      NoSourceMeansCycle(g, S);
      assert false;
    }
    s :| s in S && !HasPredecessorIn(g, S, s);
  }
}

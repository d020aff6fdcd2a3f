/** The worst-case cost check of the compiler. */
module BudgetAnalysis {
  import opened Ordering
  import opened Outcomes
  import opened Workflows

  /** Rounds counted for a loop that declares none. */
  const UNDECLARED_ROUNDS := 51

  function Rounds(n: Node): nat {
    if n.kind == Loop then (if n.maxRounds.Some? then n.maxRounds.value else UNDECLARED_ROUNDS) else 1
  }

  /** A node without a declared cost counts as free. */
  function RoundCost(n: Node): real {
    if n.budget.maxCostUsd.Some? then n.budget.maxCostUsd.value else 0.0
  }

  function Times(a: real, k: nat): real {
    a * k as real
  }

  function NodeWorst(n: Node): real {
    Times(Times(RoundCost(n), n.budget.maxAttempts), Rounds(n))
  }

  function WorstCase(nodes: seq<Node>): real {
    if nodes == [] then 0.0 else WorstCase(nodes[..|nodes| - 1]) + NodeWorst(nodes[|nodes| - 1])
  }

  // ----- spending -------------------------------------------------------------------

  function Sum(xs: seq<real>): real {
    if xs == [] then 0.0 else Sum(xs[..|xs| - 1]) + xs[|xs| - 1]
  }

  /** What each round of each attempt of a node cost. */
  type Attempts = seq<seq<real>>

  function AttemptsCost(attempts: Attempts): real {
    if attempts == [] then 0.0 else AttemptsCost(attempts[..|attempts| - 1]) + Sum(attempts[|attempts| - 1])
  }

  function Spent(usage: seq<Attempts>): real {
    if usage == [] then 0.0 else Spent(usage[..|usage| - 1]) + AttemptsCost(usage[|usage| - 1])
  }

  /** The node kept to its attempts, its rounds and its cost per round. */
  ghost predicate KeepsTo(n: Node, attempts: Attempts) {
    && |attempts| <= n.budget.maxAttempts
    && forall i :: 0 <= i < |attempts| ==> AttemptKeepsTo(n, attempts[i])
  }

  ghost predicate AttemptKeepsTo(n: Node, rounds: seq<real>) {
    |rounds| <= Rounds(n) && forall j :: 0 <= j < |rounds| ==> 0.0 <= rounds[j] <= RoundCost(n)
  }

  ghost predicate Permitted(nodes: seq<Node>, usage: seq<Attempts>) {
    |usage| == |nodes| && forall i :: 0 <= i < |nodes| ==> KeepsTo(nodes[i], usage[i])
  }

  ghost predicate CostsDeclaredSensibly(nodes: seq<Node>) {
    forall n :: n in nodes ==> RoundCost(n) >= 0.0
  }

  // ----- bounds ---------------------------------------------------------------------

  lemma TimesGrows(a: real, k: nat, m: nat)
    requires a >= 0.0 && k <= m
    ensures 0.0 <= Times(a, k) <= Times(a, m)
  {
  }

  lemma TimesNext(a: real, k: nat)
    ensures Times(a, 0) == 0.0 && Times(a, k) + a == Times(a, k + 1)
  {
  }

  lemma TimesSwap(a: real, k: nat, m: nat)
    ensures Times(Times(a, k), m) == Times(Times(a, m), k)
  {
  }

  lemma {:induction false} SumBound(xs: seq<real>, bound: real)
    requires forall i :: 0 <= i < |xs| ==> xs[i] <= bound
    ensures Sum(xs) <= Times(bound, |xs|)
  {
    hide Times;
    TimesNext(bound, if xs == [] then 0 else |xs| - 1);
    if xs != [] {
      SumBound(xs[..|xs| - 1], bound);
    }
  }

  lemma {:induction false} AttemptsBound(attempts: Attempts, bound: real)
    requires forall i :: 0 <= i < |attempts| ==> Sum(attempts[i]) <= bound
    ensures AttemptsCost(attempts) <= Times(bound, |attempts|)
  {
    hide Times, Sum;
    TimesNext(bound, if attempts == [] then 0 else |attempts| - 1);
    if attempts != [] {
      AttemptsBound(attempts[..|attempts| - 1], bound);
    }
  }

  lemma NodeBound(n: Node, attempts: Attempts)
    requires RoundCost(n) >= 0.0 && KeepsTo(n, attempts)
    ensures AttemptsCost(attempts) <= NodeWorst(n)
  {
    hide Times, Sum, AttemptsCost, RoundCost, Rounds;
    var perAttempt := Times(RoundCost(n), Rounds(n));
    TimesGrows(RoundCost(n), 0, Rounds(n));
    forall i | 0 <= i < |attempts| ensures Sum(attempts[i]) <= perAttempt {
      assert AttemptKeepsTo(n, attempts[i]);
      SumBound(attempts[i], RoundCost(n));
      TimesGrows(RoundCost(n), |attempts[i]|, Rounds(n));
    }
    AttemptsBound(attempts, perAttempt);
    TimesGrows(perAttempt, |attempts|, n.budget.maxAttempts);
    TimesSwap(RoundCost(n), Rounds(n), n.budget.maxAttempts);
  }

  /** No permitted spending exceeds the worst case. */
  lemma {:induction false} SpendingIsBounded(nodes: seq<Node>, usage: seq<Attempts>)
    requires CostsDeclaredSensibly(nodes) && Permitted(nodes, usage)
    ensures Spent(usage) <= WorstCase(nodes)
  {
    if nodes != [] {
      SpendingIsBounded(nodes[..|nodes| - 1], usage[..|usage| - 1]);
      NodeBound(nodes[|nodes| - 1], usage[|usage| - 1]);
    }
  }

  // ----- the worst case is reached --------------------------------------------------

  function Full(n: Node): Attempts {
    seq(n.budget.maxAttempts, i => seq(Rounds(n), j => RoundCost(n)))
  }

  lemma {:induction false} SumOfEqual(xs: seq<real>, x: real)
    requires forall i :: 0 <= i < |xs| ==> xs[i] == x
    ensures Sum(xs) == Times(x, |xs|)
  {
    hide Times;
    TimesNext(x, if xs == [] then 0 else |xs| - 1);
    if xs != [] {
      SumOfEqual(xs[..|xs| - 1], x);
    }
  }

  lemma {:induction false} CostOfEqual(attempts: Attempts, cost: real)
    requires forall i :: 0 <= i < |attempts| ==> Sum(attempts[i]) == cost
    ensures AttemptsCost(attempts) == Times(cost, |attempts|)
  {
    hide Times, Sum;
    TimesNext(cost, if attempts == [] then 0 else |attempts| - 1);
    if attempts != [] {
      CostOfEqual(attempts[..|attempts| - 1], cost);
    }
  }

  lemma FullReachesWorst(n: Node)
    requires RoundCost(n) >= 0.0
    ensures KeepsTo(n, Full(n)) && AttemptsCost(Full(n)) == NodeWorst(n)
  {
    hide Times, Sum, AttemptsCost, RoundCost, Rounds;
    var perAttempt := Times(RoundCost(n), Rounds(n));
    forall i | 0 <= i < |Full(n)| ensures Sum(Full(n)[i]) == perAttempt {
      SumOfEqual(Full(n)[i], RoundCost(n));
    }
    CostOfEqual(Full(n), perAttempt);
    TimesSwap(RoundCost(n), Rounds(n), n.budget.maxAttempts);
  }

  function FullUsage(nodes: seq<Node>): seq<Attempts> {
    seq(|nodes|, i requires 0 <= i < |nodes| => Full(nodes[i]))
  }

  lemma {:induction false} WorstCaseIsReached(nodes: seq<Node>)
    requires CostsDeclaredSensibly(nodes)
    ensures Permitted(nodes, FullUsage(nodes)) && Spent(FullUsage(nodes)) == WorstCase(nodes)
  {
    forall i | 0 <= i < |nodes| ensures KeepsTo(nodes[i], FullUsage(nodes)[i]) {
      assert nodes[i] in nodes;
      FullReachesWorst(nodes[i]);
    }
    if nodes != [] {
      var front := nodes[..|nodes| - 1];
      WorstCaseIsReached(front);
      assert nodes[|nodes| - 1] in nodes;
      FullReachesWorst(nodes[|nodes| - 1]);
      assert FullUsage(nodes)[..|nodes| - 1] == FullUsage(front);
    }
  }

  /** Reports an excess exactly when some permitted spending exceeds the limit. */
  method AnalyzeBudget(w: Workflow, limit: Option<real>) returns (exceeded: bool)
    requires CostsDeclaredSensibly(w.nodes)
    ensures exceeded <==> limit.Some? && exists usage :: Permitted(w.nodes, usage) && Spent(usage) > limit.value
  {
    if limit.None? {
      return false;
    }
    var worst := 0.0;
    for k := 0 to |w.nodes|
      invariant worst == WorstCase(w.nodes[..k])
    {
      TakeMore(w.nodes, k);
      worst := worst + NodeWorst(w.nodes[k]);
    }
    TakeAll(w.nodes);
    WorstCaseIsReached(w.nodes);
    forall usage | Permitted(w.nodes, usage) ensures Spent(usage) <= worst {
      SpendingIsBounded(w.nodes, usage);
    }
    return worst > limit.value;
  }

  /** The worst case of a node: attempts times cost, times the declared rounds of a loop, or 51 where it declares
      none; a node without a cost is free. */
  lemma NodeWorstMeans(n: Node)
    ensures n.kind != Loop && n.budget.maxCostUsd.Some? ==>
      NodeWorst(n) == n.budget.maxCostUsd.value * n.budget.maxAttempts as real
    ensures n.kind == Loop && n.maxRounds.Some? && n.budget.maxCostUsd.Some? ==>
      NodeWorst(n) == n.budget.maxCostUsd.value * n.budget.maxAttempts as real * n.maxRounds.value as real
    ensures n.kind == Loop && n.maxRounds.None? && n.budget.maxCostUsd.Some? ==>
      NodeWorst(n) == n.budget.maxCostUsd.value * n.budget.maxAttempts as real * 51.0
    ensures n.budget.maxCostUsd.None? ==> NodeWorst(n) == 0.0
  {
  }
}

/** Greedy selection of the next branches to explore. */
module BranchSelection {
  import opened Ordering
  import opened Outcomes
  import opened Plans

  datatype Budget = Budget(maxBranches: int, remainingCostUsd: real, minInformationGain: real)

  predicate BudgetValid(b: Budget) {
    b.maxBranches >= 0 && b.remainingCostUsd >= 0.0 && 0.0 <= b.minInformationGain <= 1.0
  }

  predicate Eligible(b: Branch, budget: Budget) {
    b.status == Pending && b.expectedInformationGain >= budget.minInformationGain
  }

  function EligibleBranches(bs: seq<Branch>, budget: Budget): seq<Branch> {
    if bs == [] then []
    else EligibleBranches(bs[..|bs| - 1], budget) + (if Eligible(bs[|bs| - 1], budget) then [bs[|bs| - 1]] else [])
  }

  lemma {:induction false} EligibleExact(bs: seq<Branch>, budget: Budget)
    ensures forall b :: b in EligibleBranches(bs, budget) <==> b in bs && Eligible(b, budget)
  {
    if bs != [] {
      EligibleExact(bs[..|bs| - 1], budget);
      SplitLast(bs);
    }
  }

  const MIN_COST := 0.000001

  function Ratio(b: Branch): real {
    b.expectedInformationGain / (if b.maxCostUsd > MIN_COST then b.maxCostUsd else MIN_COST)
  }

  /** Higher gain per cost first, then by id. */
  predicate Prefer(a: Branch, b: Branch) {
    Ratio(a) > Ratio(b) || (Ratio(a) == Ratio(b) && StrLe(a.id, b.id))
  }

  lemma PreferIsTotalPreorder()
    ensures TotalPreorder(Prefer)
  {
    hide Ratio;
    forall a, b ensures Prefer(a, b) || Prefer(b, a) {
      StrLeTotal(a.id, b.id);
    }
    forall a: Branch, b: Branch, c: Branch | Prefer(a, b) && Prefer(b, c) ensures Prefer(a, c) {
      if Ratio(a) == Ratio(b) == Ratio(c) {
        StrLeTransitive(a.id, b.id, c.id);
      }
    }
  }

  function Candidates(bs: seq<Branch>, budget: Budget): seq<Branch> {
    Sort(EligibleBranches(bs, budget), Prefer)
  }

  function Cost(bs: seq<Branch>): real {
    if bs == [] then 0.0 else Cost(bs[..|bs| - 1]) + bs[|bs| - 1].maxCostUsd
  }

  /** The cost is a total: nothing for no branch, a branch's own for one, and the sum over parts. */
  lemma {:induction false} CostIsTotal(a: seq<Branch>, b: seq<Branch>, x: Branch)
    ensures Cost([]) == 0.0 && Cost([x]) == x.maxCostUsd && Cost(a + b) == Cost(a) + Cost(b)
    decreases |b|
  {
    assert Cost([x]) == Cost([x][..0]) + x.maxCostUsd;
    if b == [] {
      assert a + b == a;
    } else {
      CostIsTotal(a, b[..|b| - 1], x);
      assert (a + b)[..|a + b| - 1] == a + b[..|b| - 1];
    }
  }

  /** What the first `k` candidates contribute. */
  function Greedy(candidates: seq<Branch>, k: nat, budget: Budget): seq<Branch>
    requires k <= |candidates|
  {
    if k == 0 then []
    else
      var before := Greedy(candidates, k - 1, budget);
      if Taken(candidates[k - 1], before, budget) then before + [candidates[k - 1]] else before
  }

  predicate Taken(b: Branch, before: seq<Branch>, budget: Budget) {
    |before| < budget.maxBranches && b.maxCostUsd <= budget.remainingCostUsd - Cost(before)
  }

  method SelectNextBranches(bs: seq<Branch>, budget: Budget) returns (r: Result<seq<Branch>, Budget>)
    ensures r.Ok? <==>
      budget.maxBranches >= 0 && budget.remainingCostUsd >= 0.0 && 0.0 <= budget.minInformationGain <= 1.0
    ensures r.Ok? ==> r.value == Greedy(Candidates(bs, budget), |Candidates(bs, budget)|, budget)
  {
    if !BudgetValid(budget) {
      return Err(budget);
    }
    var candidates := Candidates(bs, budget);
    var selected: seq<Branch> := [];
    var remaining := budget.remainingCostUsd;
    var k := 0;
    while k < |candidates| && |selected| < budget.maxBranches
      invariant 0 <= k <= |candidates| && selected == Greedy(candidates, k, budget)
      invariant remaining == budget.remainingCostUsd - Cost(selected)
    {
      if candidates[k].maxCostUsd <= remaining {
        AppendSplit(selected, candidates[k]);
        selected := selected + [candidates[k]];
        remaining := remaining - candidates[k].maxCostUsd;
      }
      k := k + 1;
    }
    if k < |candidates| {
      FullStaysFull(candidates, k, |candidates|, budget);
    }
    return Ok(selected);
  }

  lemma {:induction false} FullStaysFull(candidates: seq<Branch>, k: nat, m: nat, budget: Budget)
    requires k <= m <= |candidates| && |Greedy(candidates, k, budget)| >= budget.maxBranches
    ensures Greedy(candidates, m, budget) == Greedy(candidates, k, budget)
    decreases m
  {
    if k < m {
      FullStaysFull(candidates, k, m - 1, budget);
    }
  }

  /** The selection never exceeds the number of branches or the cost left. */
  lemma {:induction false} GreedyStaysInBudget(candidates: seq<Branch>, k: nat, budget: Budget)
    requires k <= |candidates| && BudgetValid(budget)
    ensures |Greedy(candidates, k, budget)| <= budget.maxBranches
    ensures Cost(Greedy(candidates, k, budget)) <= budget.remainingCostUsd
  {
    if k > 0 {
      GreedyStaysInBudget(candidates, k - 1, budget);
      AppendSplit(Greedy(candidates, k - 1, budget), candidates[k - 1]);
    }
  }

  /** Later candidates only lower what is left, for costs that are not negative. */
  lemma {:induction false} GreedyGrows(candidates: seq<Branch>, k: nat, m: nat, budget: Budget)
    requires k <= m <= |candidates| && forall b :: b in candidates ==> b.maxCostUsd >= 0.0
    ensures Cost(Greedy(candidates, k, budget)) <= Cost(Greedy(candidates, m, budget))
    ensures |Greedy(candidates, k, budget)| <= |Greedy(candidates, m, budget)|
    ensures Greedy(candidates, m, budget)[..|Greedy(candidates, k, budget)|] == Greedy(candidates, k, budget)
    ensures forall b :: b in Greedy(candidates, k, budget) ==> b in Greedy(candidates, m, budget)
    decreases m
  {
    if k < m {
      GreedyGrows(candidates, k, m - 1, budget);
      AppendSplit(Greedy(candidates, m - 1, budget), candidates[m - 1]);
    }
  }

  lemma GreedyStep(candidates: seq<Branch>, k: nat, budget: Budget)
    requires k < |candidates|
    ensures var before := Greedy(candidates, k, budget);
      Greedy(candidates, k + 1, budget) ==
        if Taken(candidates[k], before, budget) then before + [candidates[k]] else before
  {
    hide Cost, Taken;
  }

  lemma {:induction false} GreedyKeeps(candidates: seq<Branch>, k: nat, m: nat, budget: Budget, b: Branch)
    requires k <= m <= |candidates| && b in Greedy(candidates, k, budget)
    ensures b in Greedy(candidates, m, budget)
    decreases m
  {
    if k < m {
      hide Greedy, Taken;
      GreedyKeeps(candidates, k, m - 1, budget, b);
      GreedyStep(candidates, m - 1, budget);
    }
  }

  /** Later choices are among later candidates. */
  lemma {:induction false} LaterAreLater(candidates: seq<Branch>, k: nat, m: nat, budget: Budget, b: Branch)
    requires k <= m <= |candidates| && b in Greedy(candidates, m, budget) && b !in Greedy(candidates, k, budget)
    ensures exists i :: k <= i < m && candidates[i] == b
    decreases m
  {
    hide Greedy, Taken;
    if k < m {
      GreedyStep(candidates, m - 1, budget);
      if b in Greedy(candidates, m - 1, budget) {
        LaterAreLater(candidates, k, m - 1, budget, b);
      }
    }
  }

  /** A candidate is passed over only because the selection was full or it did not fit what the
      preferred candidates had left. */
  lemma GreedyRespectsPreference(candidates: seq<Branch>, k: nat, budget: Budget)
    requires k < |candidates| && candidates[k] !in Greedy(candidates, |candidates|, budget)
    ensures !Taken(candidates[k], Greedy(candidates, k, budget), budget)
  {
    hide Greedy, Taken;
    GreedyStep(candidates, k, budget);
    if Taken(candidates[k], Greedy(candidates, k, budget), budget) {
      assert candidates[k] in Greedy(candidates, k, budget) + [candidates[k]];
      GreedyKeeps(candidates, k + 1, |candidates|, budget, candidates[k]);
    }
  }

  /** A candidate is selected exactly when, after all choices among those before it, there is room for one more and
      its cost fits what is left. */
  lemma GreedyTakesIff(candidates: seq<Branch>, k: nat, budget: Budget)
    requires k < |candidates| && Distinct(candidates)
    ensures var before := Greedy(candidates, k, budget);
      candidates[k] in Greedy(candidates, |candidates|, budget) <==>
        |before| < budget.maxBranches && candidates[k].maxCostUsd <= budget.remainingCostUsd - Cost(before)
  {
    var b, before := candidates[k], Greedy(candidates, k, budget);
    assert Taken(b, before, budget) <==>
      |before| < budget.maxBranches && b.maxCostUsd <= budget.remainingCostUsd - Cost(before);
    assert Greedy(candidates, 0, budget) == [];
    hide Greedy, Taken, Cost;
    GreedyStep(candidates, k, budget);
    if b in before {
      LaterAreLater(candidates, 0, k, budget, b);
    }
    if b in Greedy(candidates, |candidates|, budget) {
      if b !in Greedy(candidates, k + 1, budget) {
        LaterAreLater(candidates, k + 1, |candidates|, budget, b);
      }
    } else {
      GreedyRespectsPreference(candidates, k, budget);
    }
  }

  /** If the selection stops short of the limit, no eligible branch left out fits what remains. */
  lemma StopsOnlyWhenNothingFits(bs: seq<Branch>, budget: Budget, b: Branch)
    requires BranchesValid(bs) && BudgetValid(budget) && b in bs && Eligible(b, budget)
    ensures var selected := Greedy(Candidates(bs, budget), |Candidates(bs, budget)|, budget);
      b !in selected && |selected| < budget.maxBranches ==> b.maxCostUsd > budget.remainingCostUsd - Cost(selected)
  {
    var candidates := Candidates(bs, budget);
    EligibleExact(bs, budget);
    SortMultiset(EligibleBranches(bs, budget), Prefer);
    var selected := Greedy(candidates, |candidates|, budget);
    hide Sort, EligibleBranches, Prefer, BranchIdsDistinct, PartitionsDistinct;
    var k :| 0 <= k < |candidates| && candidates[k] == b;
    GreedyGrows(candidates, k, |candidates|, budget);
    if b !in selected {
      GreedyRespectsPreference(candidates, k, budget);
    }
  }

  /** Only eligible branches are selected, each once, in the order of preference. */
  lemma SelectionIsEligible(bs: seq<Branch>, budget: Budget)
    requires BranchesValid(bs)
    ensures var selected := Greedy(Candidates(bs, budget), |Candidates(bs, budget)|, budget);
      && (forall b :: b in selected ==> b in bs && Eligible(b, budget))
      && Distinct(selected) && Sorted(selected, Prefer)
  {
    var eligible, candidates := EligibleBranches(bs, budget), Candidates(bs, budget);
    EligibleExact(bs, budget);
    EligibleDistinct(bs, budget);
    SortMultiset(eligible, Prefer);
    DistinctPermutation(eligible, candidates);
    PreferIsTotalPreorder();
    SortSorted(eligible, Prefer);
    hide Sort, EligibleBranches, Prefer;
    GreedyIsSubsequence(candidates, |candidates|, budget);
  }

  lemma {:induction false} EligibleDistinct(bs: seq<Branch>, budget: Budget)
    requires BranchIdsDistinct(bs)
    ensures Distinct(EligibleBranches(bs, budget))
  {
    if bs != [] {
      EligibleDistinct(bs[..|bs| - 1], budget);
      EligibleExact(bs[..|bs| - 1], budget);
    }
  }

  lemma {:induction false} GreedyIsSubsequence(candidates: seq<Branch>, k: nat, budget: Budget)
    requires k <= |candidates| && Distinct(candidates) && Sorted(candidates, Prefer)
    ensures forall b :: b in Greedy(candidates, k, budget) ==> b in candidates[..k]
    ensures Distinct(Greedy(candidates, k, budget)) && Sorted(Greedy(candidates, k, budget), Prefer)
    decreases k
  {
    if k > 0 {
      GreedyIsSubsequence(candidates, k - 1, budget);
      TakeMore(candidates, k - 1);
      var before := Greedy(candidates, k - 1, budget);
      hide Prefer, Cost;
      AppendKeepsOrder(candidates, k - 1, before);
    }
  }

  lemma AppendKeepsOrder(candidates: seq<Branch>, k: nat, before: seq<Branch>)
    requires k < |candidates| && Distinct(candidates) && Sorted(candidates, Prefer)
    requires Distinct(before) && Sorted(before, Prefer) && forall b :: b in before ==> b in candidates[..k]
    ensures Distinct(before + [candidates[k]]) && Sorted(before + [candidates[k]], Prefer)
  {
    hide Prefer;
    forall i | 0 <= i < |before| ensures before[i] != candidates[k] && Prefer(before[i], candidates[k]) {
      assert before[i] in candidates[..k];
    }
  }

  function Cheapest(b: Branch): real {
    if b.maxCostUsd > 0.000001 then b.maxCostUsd else 0.000001
  }

  lemma RatioMeans(b: Branch)
    ensures Cheapest(b) > 0.0 && Ratio(b) * Cheapest(b) == b.expectedInformationGain
  {
  }

  lemma CrossMultiplied(x: real, c: real, y: real, d: real)
    requires c > 0.0 && d > 0.0
    ensures x > y <==> x * c * d > y * d * c
    ensures x == y <==> x * c * d == y * d * c
  {
    var k := c * d;
    assert k > 0.0;
    assert x * c * d == x * k && y * d * c == y * k;
    assert x * k - y * k == (x - y) * k;
  }

  /** A branch is preferred for more gain per cost, where a cost below a millionth counts as a millionth, and among
      equals for the smaller id. */
  lemma PreferMeans(a: Branch, b: Branch)
    ensures var left, right := a.expectedInformationGain * Cheapest(b), b.expectedInformationGain * Cheapest(a);
      Prefer(a, b) <==> (left > right || (left == right && StrLe(a.id, b.id)))
  {
    RatioMeans(a);
    RatioMeans(b);
    var x, y, c, d := Ratio(a), Ratio(b), Cheapest(a), Cheapest(b);
    hide Ratio, Cheapest, StrLe;
    CrossMultiplied(x, c, y, d);
  }

  /** The selection is what the budget admits, branch by branch: each selected branch is pending, promises enough, and
      with those preferred before it stays within count and money. */
  lemma SelectedMeans(bs: seq<Branch>, budget: Budget, i: nat)
    requires BranchesValid(bs) && i < |Greedy(Candidates(bs, budget), |Candidates(bs, budget)|, budget)|
    ensures var selected := Greedy(Candidates(bs, budget), |Candidates(bs, budget)|, budget);
      && selected[i] in bs && selected[i].status == Pending
      && selected[i].expectedInformationGain >= budget.minInformationGain
      && forall j :: 0 <= j < i ==> Prefer(selected[j], selected[i])
  {
    SelectionIsEligible(bs, budget);
    hide Greedy, Candidates, Prefer;
  }
}

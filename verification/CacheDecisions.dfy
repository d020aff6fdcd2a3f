/** What the cache plan answers for each impact decision, in terms of the decision, its evidence and the cache. */
module CacheDecisions {
  import opened Graphs
  import opened Ordering
  import opened Outcomes
  import opened Workflows
  import opened RevisionDiff
  import opened Impact
  import opened FingerprintCache
  import opened CachePlan

  predicate SameFingerprint(d: Decision, evidence: map<Id, Evidence>) {
    && d.nodeId in evidence && evidence[d.nodeId].previousFingerprint.Some?
    && evidence[d.nodeId].previousFingerprint.value == evidence[d.nodeId].candidateKey.fingerprint
  }

  /** The parent's artifact may stand in for the node. */
  predicate ParentStands(d: Decision, evidence: map<Id, Evidence>) {
    && !d.mandatoryRerun && d.action == Reuse && SameFingerprint(d, evidence)
    && evidence[d.nodeId].previousArtifactId.Some?
  }

  /** A cached artifact may: the parent's does not, nothing contradicts, and the cache knows the key. */
  predicate CacheStands(d: Decision, evidence: map<Id, Evidence>, cache: Entries) {
    && !d.mandatoryRerun && !ParentStands(d, evidence) && !(d.action == Rerun && SameFingerprint(d, evidence))
    && d.nodeId in evidence && evidence[d.nodeId].candidateKey in cache
  }

  /** The answer for one impact decision. */
  ghost predicate Answers(d: Decision, evidence: map<Id, Evidence>, cache: Entries, x: PlanDecision) {
    && x.nodeId == d.nodeId
    && (forall a :: x.action == PlanAction.ReuseParent(a) <==>
      ParentStands(d, evidence) && evidence[d.nodeId].previousArtifactId.value == a)
    && (forall a :: x.action == PlanAction.ReuseCache(a) <==>
      CacheStands(d, evidence, cache) && cache[evidence[d.nodeId].candidateKey].artifactId == a)
    && (d.mandatoryRerun || d.nodeId !in evidence ==> x.action == RunAgain)
    && Explains(d, evidence, x)
  }

  /** The reasons given with the answer. */
  ghost predicate Explains(d: Decision, evidence: map<Id, Evidence>, x: PlanDecision) {
    match x.action
    case ReuseParent(a) => x.cacheReasons == [ParentFingerprintMatch(a)]
    case ReuseCache(a) => x.cacheReasons == [ExactCacheHit(a)]
    case RunAgain =>
      if d.nodeId !in evidence then x.cacheReasons == [EvidenceMissing(d.nodeId)]
      else if d.mandatoryRerun then x.cacheReasons == [MandatoryRerun(d.nodeId)]
      else if d.action == Rerun && SameFingerprint(d, evidence) then
        x.cacheReasons == [InvalidationContradiction(d.nodeId)]
      else
        && |x.cacheReasons| > 0
        && x.cacheReasons[|x.cacheReasons| - 1] == CacheMiss(evidence[d.nodeId].candidateKey.fingerprint)
        && match evidence[d.nodeId].previousFingerprint
           case None => |x.cacheReasons| == 1
           case Some(f) => |x.cacheReasons| == 2 && x.cacheReasons[0] == FingerprintChanged(f)
  }

  lemma DecideAnswers(d: Decision, evidence: map<Id, Evidence>, cache: Entries)
    ensures Answers(d, evidence, cache, CachePlan.Decide(d, evidence, cache))
  {
  }

  /** No two answers are right for one decision. */
  lemma AnswerIsUnique(d: Decision, evidence: map<Id, Evidence>, cache: Entries, x: PlanDecision, y: PlanDecision)
    requires Answers(d, evidence, cache, x) && Answers(d, evidence, cache, y)
    ensures x == y
  {
    assert x.action == y.action by {
      match x.action
      case ReuseParent(a) =>
      case ReuseCache(a) =>
      case RunAgain =>
        match y.action
        case ReuseParent(a) => assert y.action == PlanAction.ReuseParent(a);
        case ReuseCache(a) => assert y.action == PlanAction.ReuseCache(a);
        case RunAgain =>
    }
  }

  ghost predicate IsAnswered(d: Decision, evidence: map<Id, Evidence>, cache: Entries, xs: seq<PlanDecision>) {
    exists x :: x in xs && Answers(d, evidence, cache, x)
  }

  ghost predicate IsAnAnswer(ds: seq<Decision>, evidence: map<Id, Evidence>, cache: Entries, x: PlanDecision) {
    exists d :: d in ds && Answers(d, evidence, cache, x)
  }

  /** The positions of the impact decisions answered with the parent's artifact. */
  ghost function ByParent(ds: seq<Decision>, evidence: map<Id, Evidence>): set<nat> {
    set i | 0 <= i < |ds| && ParentStands(ds[i], evidence)
  }

  ghost function ByCache(ds: seq<Decision>, evidence: map<Id, Evidence>, cache: Entries): set<nat> {
    set i | 0 <= i < |ds| && CacheStands(ds[i], evidence, cache)
  }

  lemma {:induction false} CountIsCardinality(ds: seq<PlanDecision>, which: PlanAction -> bool, hits: set<nat>)
    requires forall i :: i in hits <==> 0 <= i < |ds| && which(ds[i].action)
    ensures Count(ds, which) == |hits|
    decreases |ds|
  {
    if ds == [] {
      assert hits == {};
    } else {
      var k := |ds| - 1;
      CountIsCardinality(ds[..k], which, hits - {k});
      assert hits == (hits - {k}) + (if which(ds[k].action) then {k} else {});
    }
  }

  /** The plan answers every impact decision, and nothing else, in ascending order of nodes, and its summary
      counts the decisions of each kind. */
  lemma PlanAnswers(ds: seq<Decision>, evidence: map<Id, Evidence>, cache: Entries)
    ensures var plan := BuildCachePlan(ds, evidence, cache);
      && |plan.decisions| == |ds| && Sorted(plan.decisions, DecisionLe)
      && (forall x :: x in plan.decisions ==> IsAnAnswer(ds, evidence, cache, x))
      && (forall d :: d in ds ==> IsAnswered(d, evidence, cache, plan.decisions))
      && plan.summary.reuseParent == |ByParent(ds, evidence)|
      && plan.summary.reuseCache == |ByCache(ds, evidence, cache)|
      && plan.summary.reuseParent + plan.summary.reuseCache + plan.summary.rerun == |ds|
  {
    PlanCoversImpact(ds, evidence, cache);
    PlanIsSorted(ds, evidence, cache);
    CountsAnswers(ds, evidence, cache);
    hide CachePlan.Decide, BuildCachePlan, Answers, Sorted;
    var plan := BuildCachePlan(ds, evidence, cache);
    forall x | x in plan.decisions ensures IsAnAnswer(ds, evidence, cache, x) {
      var i :| 0 <= i < |ds| && x == CachePlan.Decide(ds[i], evidence, cache);
      DecideAnswers(ds[i], evidence, cache);
      assert ds[i] in ds;
    }
    forall d | d in ds ensures IsAnswered(d, evidence, cache, plan.decisions) {
      var i :| 0 <= i < |ds| && ds[i] == d;
      DecideAnswers(d, evidence, cache);
      assert CachePlan.Decide(ds[i], evidence, cache) in plan.decisions;
    }
  }

  lemma PlanIsSorted(ds: seq<Decision>, evidence: map<Id, Evidence>, cache: Entries)
    ensures Sorted(BuildCachePlan(ds, evidence, cache).decisions, DecisionLe)
  {
    forall a, b ensures DecisionLe(a, b) || DecisionLe(b, a) {
      StrLeTotal(a.nodeId, b.nodeId);
    }
    forall a, b, c | DecisionLe(a, b) && DecisionLe(b, c) ensures DecisionLe(a, c) {
      StrLeTransitive(a.nodeId, b.nodeId, c.nodeId);
    }
    hide CachePlan.Decide, DecisionLe;
    SortSorted(DecideAll(ds, evidence, cache), DecisionLe);
  }

  lemma CountsAnswers(ds: seq<Decision>, evidence: map<Id, Evidence>, cache: Entries)
    ensures var summary := BuildCachePlan(ds, evidence, cache).summary;
      summary.reuseParent == |ByParent(ds, evidence)| && summary.reuseCache == |ByCache(ds, evidence, cache)|
  {
    var decisions := DecideAll(ds, evidence, cache);
    forall i | 0 <= i < |ds|
      ensures decisions[i].action.ReuseParent? <==> ParentStands(ds[i], evidence)
      ensures decisions[i].action.ReuseCache? <==> CacheStands(ds[i], evidence, cache)
    {
      KindOfAnswer(ds[i], evidence, cache);
    }
    hide CachePlan.Decide, ParentStands, CacheStands, Count, Sort;
    CountIsCardinality(decisions, (a: PlanAction) => a.ReuseParent?, ByParent(ds, evidence));
    CountIsCardinality(decisions, (a: PlanAction) => a.ReuseCache?, ByCache(ds, evidence, cache));
  }

  lemma KindOfAnswer(d: Decision, evidence: map<Id, Evidence>, cache: Entries)
    ensures CachePlan.Decide(d, evidence, cache).action.ReuseParent? <==> ParentStands(d, evidence)
    ensures CachePlan.Decide(d, evidence, cache).action.ReuseCache? <==> CacheStands(d, evidence, cache)
  {
  }

  /** From the analysis to the plan: a node that must run again does, whatever the evidence and the cache hold,
      and so does a node without evidence. */
  lemma MandatoryRunsAgain(w: Workflow, roots: seq<ChangedRoot>, o: Options, impact: ImpactResult,
      evidence: map<Id, Evidence>, cache: Entries, n: Id)
    requires RightResult(w, roots, o, impact) && n in PlannedActions(impact.decisions, evidence, cache)
    requires Mandatory(w, o, n) || n !in evidence
    ensures PlannedActions(impact.decisions, evidence, cache)[n] == RunAgain
  {
    PlannedActionsComeFromDecisions(impact.decisions, evidence, cache);
    hide PlannedActions, CachePlan.Decide, Mandatory, SortedKeys, NodesById;
    var plan := PlannedActions(impact.decisions, evidence, cache);
    var i :| 0 <= i < |impact.decisions| && impact.decisions[i].nodeId == n
      && plan[n] == CachePlan.Decide(impact.decisions[i], evidence, cache).action;
    DecideAnswers(impact.decisions[i], evidence, cache);
  }
}

/** Deciding per node between the parent's artifact, a cached artifact and a rerun. */
module CachePlan {
  import opened Graphs
  import opened Ordering
  import opened Outcomes
  import opened Workflows
  import opened Scheduling
  import opened Revisions
  import opened RevisionDiff
  import opened Impact
  import opened Incremental
  import opened FingerprintCache

  datatype Evidence = Evidence(
    previousFingerprint: Option<string>,
    previousArtifactId: Option<string>,
    candidateKey: CacheKey)

  datatype PlanAction = ReuseParent(artifactId: string) | ReuseCache(artifactId: string) | RunAgain

  datatype PlanReason =
    | ParentFingerprintMatch(artifactId: string)
    | ExactCacheHit(artifactId: string)
    | CacheMiss(fingerprint: string)
    | FingerprintChanged(previous: string)
    | EvidenceMissing(nodeId: Id)
    | MandatoryRerun(nodeId: Id)
    | InvalidationContradiction(nodeId: Id)

  datatype PlanDecision = PlanDecision(nodeId: Id, action: PlanAction, cacheReasons: seq<PlanReason>)

  datatype Summary = Summary(reuseParent: nat, reuseCache: nat, rerun: nat)

  datatype Plan = Plan(decisions: seq<PlanDecision>, summary: Summary)

  predicate FingerprintsMatch(e: Evidence) {
    e.previousFingerprint == Some(e.candidateKey.fingerprint)
  }

  function Decide(d: Decision, evidence: map<Id, Evidence>, cache: Entries): PlanDecision {
    if d.nodeId !in evidence then PlanDecision(d.nodeId, RunAgain, [EvidenceMissing(d.nodeId)])
    else
      var e := evidence[d.nodeId];
      if d.mandatoryRerun then PlanDecision(d.nodeId, RunAgain, [MandatoryRerun(d.nodeId)])
      else if d.action == Reuse && FingerprintsMatch(e) && e.previousArtifactId.Some? then
        PlanDecision(d.nodeId, ReuseParent(e.previousArtifactId.value),
          [ParentFingerprintMatch(e.previousArtifactId.value)])
      else if d.action == Rerun && FingerprintsMatch(e) then
        PlanDecision(d.nodeId, RunAgain, [InvalidationContradiction(d.nodeId)])
      else if e.candidateKey in cache then
        PlanDecision(d.nodeId, ReuseCache(cache[e.candidateKey].artifactId),
          [ExactCacheHit(cache[e.candidateKey].artifactId)])
      else
        PlanDecision(d.nodeId, RunAgain,
          (if e.previousFingerprint.Some? then [FingerprintChanged(e.previousFingerprint.value)] else [])
          + [CacheMiss(e.candidateKey.fingerprint)])
  }

  function DecideAll(ds: seq<Decision>, evidence: map<Id, Evidence>, cache: Entries): seq<PlanDecision> {
    seq(|ds|, i requires 0 <= i < |ds| => Decide(ds[i], evidence, cache))
  }

  predicate DecisionLe(a: PlanDecision, b: PlanDecision) {
    StrLe(a.nodeId, b.nodeId)
  }

  function Count(ds: seq<PlanDecision>, which: PlanAction -> bool): nat {
    if ds == [] then 0 else Count(ds[..|ds| - 1], which) + (if which(ds[|ds| - 1].action) then 1 else 0)
  }

  function BuildCachePlan(ds: seq<Decision>, evidence: map<Id, Evidence>, cache: Entries): Plan {
    var decisions := DecideAll(ds, evidence, cache);
    Plan(Sort(decisions, DecisionLe),
         Summary(Count(decisions, (a: PlanAction) => a.ReuseParent?),
                 Count(decisions, (a: PlanAction) => a.ReuseCache?),
                 Count(decisions, (a: PlanAction) => a.RunAgain?)))
  }

  // ----- shape of the plan ------------------------------------------------------------

  lemma {:induction false} CountsAddUp(ds: seq<PlanDecision>)
    ensures Count(ds, (a: PlanAction) => a.ReuseParent?) + Count(ds, (a: PlanAction) => a.ReuseCache?)
      + Count(ds, (a: PlanAction) => a.RunAgain?) == |ds|
  {
    if ds != [] {
      CountsAddUp(ds[..|ds| - 1]);
    }
  }

  /** The plan decides every node of the impact result once, and its summary covers them all. */
  lemma PlanCoversImpact(ds: seq<Decision>, evidence: map<Id, Evidence>, cache: Entries)
    ensures var plan := BuildCachePlan(ds, evidence, cache);
      && |plan.decisions| == |ds|
      && plan.summary.reuseParent + plan.summary.reuseCache + plan.summary.rerun == |ds|
      && (forall x :: x in plan.decisions <==> exists i :: 0 <= i < |ds| && x == Decide(ds[i], evidence, cache))
  {
    var decisions := DecideAll(ds, evidence, cache);
    SortMultiset(decisions, DecisionLe);
    CountsAddUp(decisions);
    hide Decide, Sort;
    forall x ensures x in decisions <==> exists i :: 0 <= i < |ds| && x == Decide(ds[i], evidence, cache) {
      if i :| 0 <= i < |ds| && x == Decide(ds[i], evidence, cache) {
        assert decisions[i] == x;
      }
    }
  }

  // ----- soundness --------------------------------------------------------------------

  type NodeFunction = (LocalView, map<Edge, Input<string>>) -> string

  /** Equal fingerprints mean equal results: what an injective digest of everything the result
      depends on provides. */
  ghost predicate Determines(fingerprint: NodeFunction, f: NodeFunction) {
    forall v, i, v', i' :: fingerprint(v, i) == fingerprint(v', i') ==> f(v, i) == f(v', i')
  }

  /** The cached artifact was produced by an execution with that fingerprint. */
  ghost predicate RealResult(fingerprint: NodeFunction, f: NodeFunction, e: CacheEntry) {
    exists v, i :: fingerprint(v, i) == e.key.fingerprint && f(v, i) == e.artifactId
  }

  ghost predicate HonestCache(fingerprint: NodeFunction, f: NodeFunction, cache: Entries) {
    forall k :: k in cache ==> cache[k].key == k && RealResult(fingerprint, f, cache[k])
  }

  /** Caching real results keeps the cache honest, whatever is put in whatever order. */
  lemma {:induction false} HonestCacheKept(fingerprint: NodeFunction, f: NodeFunction, cache: Entries,
      puts: seq<CacheEntry>)
    requires HonestCache(fingerprint, f, cache)
    requires forall e :: e in puts ==> RealResult(fingerprint, f, e)
    ensures HonestCache(fingerprint, f, AfterPuts(cache, puts))
  {
    FirstPutWins(cache, puts);
    hide AfterPuts, RealResult;
    var after := AfterPuts(cache, puts);
    forall k | k in after ensures after[k].key == k && RealResult(fingerprint, f, after[k]) {
      if k !in cache {
        var i :| FirstPut(puts, i) && puts[i].key == k && after[k] == puts[i];
        assert puts[i] in puts;
      }
    }
  }

  ghost function FingerprintOf(s: RevisionState, fingerprint: NodeFunction, f: NodeFunction, n: Id): string
    requires Valid(s.workflow) && n in NodeIds(s.workflow)
  {
    NodesByIdKeys(s.workflow.nodes);
    fingerprint(ViewOf(s, n), Deliveries(s, UpstreamValues(s, f, n), n))
  }

  /** The evidence describes the parent run and the candidate. */
  ghost predicate Matches(p: RevisionState, c: RevisionState, fingerprint: NodeFunction, f: NodeFunction, n: Id,
      e: Evidence)
    requires Valid(p.workflow) && Valid(c.workflow) && n in NodeIds(c.workflow)
  {
    && e.candidateKey.fingerprint == FingerprintOf(c, fingerprint, f, n)
    && (e.previousArtifactId.Some? && n in NodeIds(p.workflow) ==> e.previousArtifactId.value == Evaluate(p, f, n))
  }

  /** The artifact of a node when the plan is carried out: an artifact the plan names, or the result
      of running the node on the artifacts its upstream ended up with. */
  ghost function Executed(c: RevisionState, f: NodeFunction, plan: map<Id, PlanAction>, n: Id): string
    requires Valid(c.workflow) && n in NodeIds(c.workflow)
    decreases Rank(Dependencies(c.workflow), n)
  {
    if n in plan && !plan[n].RunAgain? then plan[n].artifactId
    else
      UpstreamIsLower(c.workflow, n);
      NodesByIdKeys(c.workflow.nodes);
      f(ViewOf(c, n), Deliveries(c, map m | m in UpstreamOf(c.workflow, n) :: Executed(c, f, plan, m), n))
  }

  /** Every planned action comes from a right decision about its node and from matching evidence. */
  ghost predicate Justified(p: RevisionState, c: RevisionState, roots: seq<ChangedRoot>, o: Options,
      fingerprint: NodeFunction, f: NodeFunction, cache: Entries, plan: map<Id, PlanAction>)
    requires Valid(p.workflow) && Valid(c.workflow)
  {
    forall n :: n in plan && n in NodeIds(c.workflow) ==>
      PlannedFrom(p, c, roots, o, fingerprint, f, cache, n, plan[n])
  }

  ghost predicate PlannedFrom(p: RevisionState, c: RevisionState, roots: seq<ChangedRoot>, o: Options,
      fingerprint: NodeFunction, f: NodeFunction, cache: Entries, n: Id, action: PlanAction)
    requires Valid(p.workflow) && Valid(c.workflow) && n in NodeIds(c.workflow)
  {
    exists d: Decision, evidence: map<Id, Evidence> ::
      && d.nodeId == n && RightDecision(c.workflow, roots, o, d)
      && action == Decide(d, evidence, cache).action
      && (n in evidence ==> Matches(p, c, fingerprint, f, n, evidence[n]))
  }

  /** An artifact the plan names is the artifact a from-scratch run would produce. */
  lemma NamedArtifactIsRight(p: RevisionState, c: RevisionState, roots: seq<ChangedRoot>, o: Options,
      fingerprint: NodeFunction, f: NodeFunction, cache: Entries, n: Id, action: PlanAction)
    requires Valid(p.workflow) && Valid(c.workflow) && n in NodeIds(c.workflow)
    requires ExactRoots(p, c, roots) && Determines(fingerprint, f) && HonestCache(fingerprint, f, cache)
    requires PlannedFrom(p, c, roots, o, fingerprint, f, cache, n, action)
    ensures !action.RunAgain? ==> action.artifactId == Evaluate(c, f, n)
  {
    var d: Decision, evidence: map<Id, Evidence> :|
      && d.nodeId == n && RightDecision(c.workflow, roots, o, d)
      && action == Decide(d, evidence, cache).action
      && (n in evidence ==> Matches(p, c, fingerprint, f, n, evidence[n]));
    if action.ReuseParent? {
      IncrementalSoundness(p, c, roots, o, d, f);
    }
    if action.ReuseCache? {
      CachedArtifactIsRight(c, fingerprint, f, cache, n, evidence[n].candidateKey);
    }
  }

  lemma CachedArtifactIsRight(c: RevisionState, fingerprint: NodeFunction, f: NodeFunction, cache: Entries, n: Id,
      k: CacheKey)
    requires Valid(c.workflow) && n in NodeIds(c.workflow)
    requires Determines(fingerprint, f) && HonestCache(fingerprint, f, cache)
    requires k in cache && k.fingerprint == FingerprintOf(c, fingerprint, f, n)
    ensures cache[k].artifactId == Evaluate(c, f, n)
  {
    EvaluateUnfold(c, f, n);
    hide Valid, Evaluate, ViewOf, Deliveries;
    var v, i :| fingerprint(v, i) == k.fingerprint && f(v, i) == cache[k].artifactId;
    assert fingerprint(v, i) == fingerprint(ViewOf(c, n), Deliveries(c, UpstreamValues(c, f, n), n));
  }

  /** Plan soundness: carrying out the plan gives every node the artifact of a full re-execution. */
  lemma {:induction false} PlanSoundness(p: RevisionState, c: RevisionState, roots: seq<ChangedRoot>, o: Options,
      fingerprint: NodeFunction, f: NodeFunction, cache: Entries, plan: map<Id, PlanAction>, n: Id)
    requires Valid(p.workflow) && Valid(c.workflow) && n in NodeIds(c.workflow)
    requires ExactRoots(p, c, roots) && Determines(fingerprint, f) && HonestCache(fingerprint, f, cache)
    requires Justified(p, c, roots, o, fingerprint, f, cache, plan)
    ensures Executed(c, f, plan, n) == Evaluate(c, f, n)
    decreases Rank(Dependencies(c.workflow), n)
  {
    if n in plan && !plan[n].RunAgain? {
      NamedArtifactIsRight(p, c, roots, o, fingerprint, f, cache, n, plan[n]);
    } else {
      UpstreamIsLower(c.workflow, n);
      forall m | m in UpstreamOf(c.workflow, n) ensures Executed(c, f, plan, m) == Evaluate(c, f, m) {
        PlanSoundness(p, c, roots, o, fingerprint, f, cache, plan, m);
      }
      RerunIsRight(c, f, plan, n);
    }
  }

  lemma RerunIsRight(c: RevisionState, f: NodeFunction, plan: map<Id, PlanAction>, n: Id)
    requires Valid(c.workflow) && n in NodeIds(c.workflow) && !(n in plan && !plan[n].RunAgain?)
    requires forall m :: m in UpstreamOf(c.workflow, n) ==>
      m in NodeIds(c.workflow) && Executed(c, f, plan, m) == Evaluate(c, f, m)
    ensures Executed(c, f, plan, n) == Evaluate(c, f, n)
  {
    ExecutedUnfold(c, f, plan, n);
    EvaluateUnfold(c, f, n);
    SameAsExecuted(c, f, plan, n);
    hide Valid, Evaluate, Executed, ViewOf, Deliveries, NodesById, UpstreamOf, UpstreamValues, ExecutedUpstream;
  }

  /** The artifacts of the upstream nodes when the plan is carried out. */
  ghost function ExecutedUpstream(c: RevisionState, f: NodeFunction, plan: map<Id, PlanAction>, n: Id): map<Id, string>
    requires Valid(c.workflow) && n in NodeIds(c.workflow)
  {
    UpstreamIsLower(c.workflow, n);
    map m | m in UpstreamOf(c.workflow, n) :: Executed(c, f, plan, m)
  }

  lemma ExecutedUnfold(c: RevisionState, f: NodeFunction, plan: map<Id, PlanAction>, n: Id)
    requires Valid(c.workflow) && n in NodeIds(c.workflow) && !(n in plan && !plan[n].RunAgain?)
    ensures n in NodesById(c.workflow.nodes)
    ensures Executed(c, f, plan, n) == f(ViewOf(c, n), Deliveries(c, ExecutedUpstream(c, f, plan, n), n))
  {
    UpstreamIsLower(c.workflow, n);
    NodesByIdKeys(c.workflow.nodes);
  }

  lemma SameAsExecuted(c: RevisionState, f: NodeFunction, plan: map<Id, PlanAction>, n: Id)
    requires Valid(c.workflow) && n in NodeIds(c.workflow)
    requires forall m :: m in UpstreamOf(c.workflow, n) ==>
      m in NodeIds(c.workflow) && Executed(c, f, plan, m) == Evaluate(c, f, m)
    ensures UpstreamValues(c, f, n) == ExecutedUpstream(c, f, plan, n)
  {
    UpstreamIsLower(c.workflow, n);
    hide Valid, Evaluate, Executed, UpstreamOf, NodeIds, Rank;
    SameMaps(UpstreamValues(c, f, n), ExecutedUpstream(c, f, plan, n));
  }

  /** The actions of a list of plan decisions by node. */
  function ActionsOf(ds: seq<PlanDecision>): map<Id, PlanAction> {
    if ds == [] then map[] else ActionsOf(ds[..|ds| - 1])[ds[|ds| - 1].nodeId := ds[|ds| - 1].action]
  }

  lemma {:induction false} ActionsComeFromDecisions(ds: seq<PlanDecision>)
    ensures forall n :: n in ActionsOf(ds) ==> exists x :: x in ds && x.nodeId == n && x.action == ActionsOf(ds)[n]
    ensures forall x :: x in ds ==> x.nodeId in ActionsOf(ds)
  {
    if ds != [] {
      ActionsComeFromDecisions(ds[..|ds| - 1]);
      SplitLast(ds);
    }
  }

  /** From the comparison of the revisions to the executed plan: every node of the candidate gets the
      artifact of a full re-execution, whatever the evidence covers. */
  lemma CachePlanSoundness(p: RevisionState, c: RevisionState, changes: seq<ChangedRoot>, o: Options,
      impact: ImpactResult, fingerprint: NodeFunction, f: NodeFunction, evidence: map<Id, Evidence>, cache: Entries)
    requires Valid(p.workflow) && Valid(c.workflow)
    requires ExactRoots(p, c, changes) && RightResult(c.workflow, changes, o, impact)
    requires Determines(fingerprint, f) && HonestCache(fingerprint, f, cache)
    requires forall n :: n in evidence && n in NodeIds(c.workflow) ==> Matches(p, c, fingerprint, f, n, evidence[n])
    ensures var plan := PlannedActions(impact.decisions, evidence, cache);
      && (forall n :: n in NodeIds(c.workflow) ==> n in plan)
      && (forall n :: n in NodeIds(c.workflow) ==> Executed(c, f, plan, n) == Evaluate(c, f, n))
  {
    var plan := PlannedActions(impact.decisions, evidence, cache);
    PlanNamesEveryNode(c, changes, o, impact, evidence, cache);
    PlanIsJustified(p, c, changes, o, impact, fingerprint, f, evidence, cache);
    hide PlannedActions, Valid, Matches, Determines, HonestCache, RightResult, ExactRoots, Justified, Executed,
      Evaluate, PlannedFrom, NodeIds;
    forall n | n in NodeIds(c.workflow) ensures Executed(c, f, plan, n) == Evaluate(c, f, n) {
      PlanSoundness(p, c, changes, o, fingerprint, f, cache, plan, n);
    }
  }

  function PlannedActions(ds: seq<Decision>, evidence: map<Id, Evidence>, cache: Entries): map<Id, PlanAction> {
    ActionsOf(BuildCachePlan(ds, evidence, cache).decisions)
  }

  lemma DecideKeepsNode(d: Decision, evidence: map<Id, Evidence>, cache: Entries)
    ensures Decide(d, evidence, cache).nodeId == d.nodeId
  {
  }

  /** Each planned action comes from an impact decision on the same node, and each decision is planned. */
  lemma PlannedActionsComeFromDecisions(ds: seq<Decision>, evidence: map<Id, Evidence>, cache: Entries)
    ensures forall n :: n in PlannedActions(ds, evidence, cache) ==>
      exists i :: 0 <= i < |ds| && ds[i].nodeId == n
        && PlannedActions(ds, evidence, cache)[n] == Decide(ds[i], evidence, cache).action
    ensures forall i :: 0 <= i < |ds| ==> ds[i].nodeId in PlannedActions(ds, evidence, cache)
  {
    var plan := PlannedActions(ds, evidence, cache);
    var decisions := BuildCachePlan(ds, evidence, cache).decisions;
    PlanCoversImpact(ds, evidence, cache);
    ActionsComeFromDecisions(decisions);
    hide BuildCachePlan, ActionsOf, Decide;
    forall n | n in plan
      ensures exists i :: 0 <= i < |ds| && ds[i].nodeId == n && plan[n] == Decide(ds[i], evidence, cache).action
    {
      var x :| x in decisions && x.nodeId == n && x.action == plan[n];
      var i :| 0 <= i < |ds| && x == Decide(ds[i], evidence, cache);
      DecideKeepsNode(ds[i], evidence, cache);
    }
    forall i | 0 <= i < |ds| ensures ds[i].nodeId in plan {
      DecideKeepsNode(ds[i], evidence, cache);
      assert Decide(ds[i], evidence, cache) in decisions;
    }
  }

  lemma PlanNamesEveryNode(c: RevisionState, changes: seq<ChangedRoot>, o: Options, impact: ImpactResult,
      evidence: map<Id, Evidence>, cache: Entries)
    requires RightResult(c.workflow, changes, o, impact)
    ensures forall n :: n in NodeIds(c.workflow) ==> n in PlannedActions(impact.decisions, evidence, cache)
  {
    PlannedActionsComeFromDecisions(impact.decisions, evidence, cache);
    EveryNodeDecided(c, changes, o, impact);
    hide PlannedActions, RightResult, NodeIds, Decide;
    forall n | n in NodeIds(c.workflow) ensures n in PlannedActions(impact.decisions, evidence, cache) {
      var i :| 0 <= i < |impact.decisions| && impact.decisions[i].nodeId == n;
    }
  }

  lemma PlanIsJustified(p: RevisionState, c: RevisionState, changes: seq<ChangedRoot>, o: Options, impact: ImpactResult,
      fingerprint: NodeFunction, f: NodeFunction, evidence: map<Id, Evidence>, cache: Entries)
    requires Valid(p.workflow) && Valid(c.workflow) && RightResult(c.workflow, changes, o, impact)
    requires forall n :: n in evidence && n in NodeIds(c.workflow) ==> Matches(p, c, fingerprint, f, n, evidence[n])
    ensures Justified(p, c, changes, o, fingerprint, f, cache, PlannedActions(impact.decisions, evidence, cache))
  {
    var plan := PlannedActions(impact.decisions, evidence, cache);
    PlannedActionsComeFromDecisions(impact.decisions, evidence, cache);
    hide PlannedActions, Valid, Matches, RightDecision, NodeIds, PlannedFrom, Decide, NodesById;
    forall n | n in plan && n in NodeIds(c.workflow)
      ensures PlannedFrom(p, c, changes, o, fingerprint, f, cache, n, plan[n])
    {
      var i :| 0 <= i < |impact.decisions| && impact.decisions[i].nodeId == n
        && plan[n] == Decide(impact.decisions[i], evidence, cache).action;
      RightDecisionPlans(p, c, changes, o, fingerprint, f, cache, impact.decisions[i], evidence);
    }
  }

  lemma RightDecisionPlans(p: RevisionState, c: RevisionState, changes: seq<ChangedRoot>, o: Options,
      fingerprint: NodeFunction, f: NodeFunction, cache: Entries, d: Decision, evidence: map<Id, Evidence>)
    requires Valid(p.workflow) && Valid(c.workflow) && d.nodeId in NodeIds(c.workflow)
    requires RightDecision(c.workflow, changes, o, d)
    requires d.nodeId in evidence ==> Matches(p, c, fingerprint, f, d.nodeId, evidence[d.nodeId])
    ensures PlannedFrom(p, c, changes, o, fingerprint, f, cache, d.nodeId, Decide(d, evidence, cache).action)
  {
    hide Valid, Matches, RightDecision, NodeIds, Decide;
  }

  lemma EveryNodeDecided(c: RevisionState, changes: seq<ChangedRoot>, o: Options, impact: ImpactResult)
    requires RightResult(c.workflow, changes, o, impact)
    ensures forall n :: n in NodeIds(c.workflow) ==>
      exists i :: 0 <= i < |impact.decisions| && impact.decisions[i].nodeId == n
  {
    NodesByIdKeys(c.workflow.nodes);
    var ids := SortedKeys(NodesById(c.workflow.nodes).Keys);
    forall n | n in NodeIds(c.workflow)
      ensures exists i :: 0 <= i < |impact.decisions| && impact.decisions[i].nodeId == n
    {
      assert n in Elements(ids);
      var i :| 0 <= i < |ids| && ids[i] == n;
      assert impact.decisions[i].nodeId == n;
    }
  }
}

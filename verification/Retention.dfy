/** Planning which artifacts may be deleted. */
module Retention {
  import opened Graphs
  import opened Ordering
  import opened Outcomes
  import opened Artifacts

  const MS_PER_DAY := 86_400_000

  datatype RetentionPolicy = RetentionPolicy(
    defaultDays: int,
    daysBySensitivity: map<Sensitivity, int>,
    protectedArtifactIds: set<Id>,
    legalHoldScopeTags: set<string>)

  datatype Reason = NotExpired | ExplicitlyProtected | LegalHold | LineageDependency | Expired

  datatype RetentionDecision = RetentionDecision(artifactId: Id, keep: bool, reason: Reason)

  datatype RetentionError =
    | InvalidDays
    | InvalidTime
    | InvalidArtifactTime(artifactId: Id)
    | MissingParent(parentId: Id, artifactId: Id)

  /** Reads a timestamp in milliseconds; `None` when the text is not a time. */
  type Clock = string -> Option<int>

  // ----- what the plan is about -----------------------------------------------------

  predicate DaysValid(policy: RetentionPolicy) {
    policy.defaultDays >= 0 && forall s :: s in policy.daysBySensitivity ==> policy.daysBySensitivity[s] >= 0
  }

  function DaysFor(policy: RetentionPolicy, s: Sensitivity): int {
    if s in policy.daysBySensitivity then policy.daysBySensitivity[s] else policy.defaultDays
  }

  predicate Held(policy: RetentionPolicy, a: ArtifactMetadata) {
    exists tag :: tag in a.scopeTags && tag in policy.legalHoldScopeTags
  }

  /** The reason an artifact gets before lineage is considered. */
  function BaseReason(policy: RetentionPolicy, a: ArtifactMetadata, createdMs: int, nowMs: int): Reason {
    if a.artifactId in policy.protectedArtifactIds then ExplicitlyProtected
    else if Held(policy, a) then LegalHold
    else if nowMs - createdMs <= DaysFor(policy, a.sensitivity) * MS_PER_DAY then NotExpired
    else Expired
  }

  /** Protected, held or unexpired on its own account. */
  ghost predicate KeptItself(policy: RetentionPolicy, clock: Clock, nowMs: int, a: ArtifactMetadata) {
    || a.artifactId in policy.protectedArtifactIds
    || Held(policy, a)
    || (clock(a.createdAt).Some? && nowMs - clock(a.createdAt).value <= DaysFor(policy, a.sensitivity) * MS_PER_DAY)
  }

  ghost function Roots(artifacts: seq<ArtifactMetadata>, policy: RetentionPolicy, clock: Clock, nowMs: int): set<Id> {
    set k | k in ById(artifacts) && KeptItself(policy, clock, nowMs, ById(artifacts)[k])
  }

  /** From each artifact to the parents its provenance names. */
  ghost function ParentGraph(byId: map<Id, ArtifactMetadata>): Graph {
    set k, p | k in byId && p in byId[k].provenance :: (k, p.inputArtifactId)
  }

  lemma ParentEdge(byId: map<Id, ArtifactMetadata>, k: Id, parent: Id)
    ensures (k, parent) in ParentGraph(byId) <==>
      k in byId && exists p :: p in byId[k].provenance && p.inputArtifactId == parent
  {
  }

  /** What survives: the roots and everything they were derived from. */
  ghost function KeepSet(artifacts: seq<ArtifactMetadata>, policy: RetentionPolicy, clock: Clock, nowMs: int): set<Id> {
    Closure(ParentGraph(ById(artifacts)), Roots(artifacts, policy, clock, nowMs))
  }

  ghost predicate ParentsPresent(artifacts: seq<ArtifactMetadata>) {
    forall a, p :: a in artifacts && p in a.provenance ==> p.inputArtifactId in ById(artifacts)
  }

  ghost predicate TimesValid(artifacts: seq<ArtifactMetadata>, clock: Clock) {
    forall a :: a in artifacts ==> clock(a.createdAt).Some?
  }

  /** The inputs a plan exists for. */
  ghost predicate Plannable(artifacts: seq<ArtifactMetadata>, policy: RetentionPolicy, clock: Clock, now: string) {
    && policy.defaultDays >= 0 && (forall s :: s in policy.daysBySensitivity ==> policy.daysBySensitivity[s] >= 0)
    && clock(now).Some? && TimesValid(artifacts, clock) && ParentsPresent(artifacts)
  }

  /** One decision per id in ascending order, keeping exactly the keep set, each with its reason. */
  ghost predicate RightPlan(artifacts: seq<ArtifactMetadata>, policy: RetentionPolicy, clock: Clock, nowMs: int,
      plan: seq<RetentionDecision>)
  {
    && |plan| == |SortedKeys(ById(artifacts).Keys)|
    && forall i :: 0 <= i < |plan| ==>
      && plan[i].artifactId == SortedKeys(ById(artifacts).Keys)[i]
      && RightDecision(artifacts, policy, clock, nowMs, plan[i])
  }

  ghost predicate RightDecision(artifacts: seq<ArtifactMetadata>, policy: RetentionPolicy, clock: Clock, nowMs: int,
      d: RetentionDecision)
  {
    && d.artifactId in ById(artifacts)
    && (d.keep <==> d.artifactId in KeepSet(artifacts, policy, clock, nowMs))
    && (d.reason == Expired <==> !d.keep)
    && (d.reason == LineageDependency <==> d.keep && d.artifactId !in Roots(artifacts, policy, clock, nowMs))
    && (d.reason == ExplicitlyProtected <==> d.artifactId in policy.protectedArtifactIds)
    && (d.reason == LegalHold <==>
      d.artifactId !in policy.protectedArtifactIds && Held(policy, ById(artifacts)[d.artifactId]))
  }

  // ----- planning -------------------------------------------------------------------

  type Reasons = map<Id, Reason>

  ghost predicate BaseReasons(artifacts: seq<ArtifactMetadata>, policy: RetentionPolicy, clock: Clock, nowMs: int,
      base: Reasons)
  {
    && base.Keys == ById(artifacts).Keys
    && forall k :: k in base ==> HasBaseReason(policy, clock, nowMs, ById(artifacts)[k], base[k])
  }

  ghost predicate HasBaseReason(policy: RetentionPolicy, clock: Clock, nowMs: int, a: ArtifactMetadata,
      reason: Reason)
  {
    clock(a.createdAt).Some? && reason == BaseReason(policy, a, clock(a.createdAt).value, nowMs)
  }

  /** The refusal names an artifact and a parent of it that is not there. */
  ghost predicate NamesMissingParent(artifacts: seq<ArtifactMetadata>, error: RetentionError) {
    error.MissingParent? && error.parentId !in ById(artifacts)
    && exists a :: a in artifacts && a.artifactId == error.artifactId && error.parentId in ParentIds(a)
  }

  ghost predicate NamesBadTime(artifacts: seq<ArtifactMetadata>, clock: Clock, error: RetentionError) {
    error.InvalidArtifactTime?
    && exists a :: a in artifacts && a.artifactId == error.artifactId && clock(a.createdAt).None?
  }

  /** What a refusal names: the policy, else the time of planning, else the time of an artifact, else a missing
      parent. */
  ghost predicate PlanFault(artifacts: seq<ArtifactMetadata>, policy: RetentionPolicy, clock: Clock, now: string,
      error: RetentionError)
  {
    if policy.defaultDays < 0 || exists s :: s in policy.daysBySensitivity && policy.daysBySensitivity[s] < 0
    then error == InvalidDays
    else if clock(now).None? then error == InvalidTime
    else if !TimesValid(artifacts, clock) then NamesBadTime(artifacts, clock, error)
    else NamesMissingParent(artifacts, error)
  }

  method Classify(artifacts: seq<ArtifactMetadata>, policy: RetentionPolicy, clock: Clock, nowMs: int)
    returns (r: Result<Reasons, RetentionError>)
    ensures r.Ok? <==> TimesValid(artifacts, clock)
    ensures r.Ok? ==> BaseReasons(artifacts, policy, clock, nowMs, r.value)
    ensures r.Err? ==> NamesBadTime(artifacts, clock, r.error)
  {
    var base: Reasons := map[];
    for k := 0 to |artifacts|
      invariant forall j :: 0 <= j < k ==> clock(artifacts[j].createdAt).Some?
      invariant BaseReasons(artifacts[..k], policy, clock, nowMs, base)
    {
      var a := artifacts[k];
      var created := clock(a.createdAt);
      if created.None? {
        return Err(InvalidArtifactTime(a.artifactId));
      }
      TakeMore(artifacts, k);
      hide BaseReason;
      base := base[a.artifactId := BaseReason(policy, a, created.value, nowMs)];
    }
    TakeAll(artifacts);
    return Ok(base);
  }

  method CheckParents(artifacts: seq<ArtifactMetadata>) returns (error: Option<RetentionError>)
    ensures error == None <==> ParentsPresent(artifacts)
    ensures error.Some? ==> NamesMissingParent(artifacts, error.value)
  {
    var byId := ById(artifacts);
    for k := 0 to |artifacts|
      invariant forall a, p :: a in artifacts[..k] && p in a.provenance ==> p.inputArtifactId in byId
    {
      var a := artifacts[k];
      TakeMore(artifacts, k);
      for j := 0 to |a.provenance|
        invariant forall p :: p in a.provenance[..j] ==> p.inputArtifactId in byId
      {
        TakeMore(a.provenance, j);
        if a.provenance[j].inputArtifactId !in byId {
          assert a.provenance[j].inputArtifactId in ParentIds(a);
          return Some(MissingParent(a.provenance[j].inputArtifactId, a.artifactId));
        }
      }
      TakeAll(a.provenance);
    }
    TakeAll(artifacts);
    return None;
  }

  datatype Search = Search(visited: set<Id>, queue: seq<Id>, reasons: Reasons)

  ghost predicate SearchSound(byId: map<Id, ArtifactMetadata>, roots: set<Id>, base: Reasons, s: Search) {
    && roots <= s.visited <= byId.Keys && Elements(s.queue) <= s.visited
    && (forall v :: v in s.visited ==> ReachedFrom(ParentGraph(byId), roots, v))
    && base.Keys == byId.Keys && ReasonsFollow(roots, base, s)
  }

  /** Expired artifacts the search has met are now kept for the lineage; other reasons are as before. */
  ghost predicate ReasonsFollow(roots: set<Id>, base: Reasons, s: Search) {
    && s.reasons.Keys == base.Keys
    && forall k :: k in base ==>
      s.reasons[k] == if base[k] == Expired && k in s.visited && k !in roots then LineageDependency else base[k]
  }

  /** Nodes outside `open` have all their parents visited. */
  ghost predicate ParentsVisited(byId: map<Id, ArtifactMetadata>, s: Search, open: set<Id>) {
    forall k, p :: k in s.visited - open && k in byId && p in byId[k].provenance ==> p.inputArtifactId in s.visited
  }

  method VisitParent(byId: map<Id, ArtifactMetadata>, child: Id, p: Provenance, s: Search, ghost roots: set<Id>,
      ghost base: Reasons)
    returns (r: Search)
    requires SearchSound(byId, roots, base, s)
    requires child in s.visited && child in byId && p in byId[child].provenance && p.inputArtifactId in byId
    ensures SearchSound(byId, roots, base, r) && p.inputArtifactId in r.visited && s.visited <= r.visited
    ensures r.visited - Elements(r.queue) <= s.visited - Elements(s.queue)
    ensures r == s || s.visited < r.visited
  {
    var parent := p.inputArtifactId;
    ParentKnown(byId, roots, base, s, parent);
    hide SearchSound, ReachedFrom, ParentGraph;
    if parent in s.visited {
      return s;
    }
    r := Search(s.visited + {parent}, s.queue + [parent],
      if s.reasons[parent] == Expired then s.reasons[parent := LineageDependency] else s.reasons);
    ParentVisited(byId, child, p, s, r, roots, base);
  }

  lemma ParentKnown(byId: map<Id, ArtifactMetadata>, roots: set<Id>, base: Reasons, s: Search, parent: Id)
    requires SearchSound(byId, roots, base, s) && parent in byId
    ensures parent in s.reasons
  {
  }

  lemma ParentVisited(byId: map<Id, ArtifactMetadata>, child: Id, p: Provenance, s: Search, r: Search, roots: set<Id>,
      base: Reasons)
    requires SearchSound(byId, roots, base, s)
    requires child in s.visited && child in byId && p in byId[child].provenance && p.inputArtifactId in byId
    requires var parent := p.inputArtifactId;
      && parent !in s.visited && parent in s.reasons
      && r == Search(s.visited + {parent}, s.queue + [parent],
        if s.reasons[parent] == Expired then s.reasons[parent := LineageDependency] else s.reasons)
    ensures SearchSound(byId, roots, base, r) && s.visited < r.visited
    ensures r.visited - Elements(r.queue) == s.visited - Elements(s.queue)
  {
    hide ReachedFrom, ParentGraph, ReasonsFollow, Elements;
    var parent := p.inputArtifactId;
    ParentReached(byId, roots, child, p);
    ReasonsStillFollow(roots, base, s, parent, r);
    ElementsAppend(s.queue, parent);
  }

  lemma ReasonsStillFollow(roots: set<Id>, base: Reasons, s: Search, parent: Id, r: Search)
    requires ReasonsFollow(roots, base, s) && roots <= s.visited && parent !in s.visited && parent in base
    requires r.visited == s.visited + {parent}
    requires r.reasons == if s.reasons[parent] == Expired then s.reasons[parent := LineageDependency] else s.reasons
    ensures ReasonsFollow(roots, base, r)
  {
  }

  lemma ParentReached(byId: map<Id, ArtifactMetadata>, roots: set<Id>, child: Id, p: Provenance)
    requires child in byId && p in byId[child].provenance && ReachedFrom(ParentGraph(byId), roots, child)
    ensures ReachedFrom(ParentGraph(byId), roots, p.inputArtifactId)
  {
    var g := ParentGraph(byId);
    var a :| a in roots && Reaches(g, a, child);
    ParentEdge(byId, child, p.inputArtifactId);
    ReachesAppend(g, a, child, p.inputArtifactId);
  }

  method VisitParents(byId: map<Id, ArtifactMetadata>, child: Id, s: Search, ghost roots: set<Id>, ghost base: Reasons)
    returns (r: Search)
    requires SearchSound(byId, roots, base, s) && child in s.visited && child in byId
    requires forall p :: p in byId[child].provenance ==> p.inputArtifactId in byId
    requires ParentsVisited(byId, s, Elements(s.queue) + {child})
    ensures SearchSound(byId, roots, base, r) && ParentsVisited(byId, r, Elements(r.queue))
    ensures r == s || s.visited < r.visited
  {
    hide SearchSound, ReachedFrom;
    r := s;
    var ps := byId[child].provenance;
    for k := 0 to |ps|
      invariant SearchSound(byId, roots, base, r) && s.visited <= r.visited
      invariant forall p :: p in ps[..k] ==> p.inputArtifactId in r.visited
      invariant r.visited - Elements(r.queue) <= s.visited - Elements(s.queue)
      invariant r == s || s.visited < r.visited
    {
      TakeMore(ps, k);
      r := VisitParent(byId, child, ps[k], r, roots, base);
    }
    TakeAll(ps);
    forall k, p | k in r.visited - Elements(r.queue) && k in byId && p in byId[k].provenance
      ensures p.inputArtifactId in r.visited
    {
      if k != child {
        assert k in s.visited - (Elements(s.queue) + {child});
      }
    }
  }

  ghost predicate ParentsIn(byId: map<Id, ArtifactMetadata>) {
    forall k, p :: k in byId && p in byId[k].provenance ==> p.inputArtifactId in byId
  }

  /** One turn of the queue loop: the first artifact leaves the queue and its parents are visited. */
  method SearchOn(byId: map<Id, ArtifactMetadata>, s: Search, ghost roots: set<Id>, ghost base: Reasons)
    returns (r: Search)
    requires s.queue != [] && SearchSound(byId, roots, base, s) && ParentsVisited(byId, s, Elements(s.queue))
    requires ParentsIn(byId)
    ensures SearchSound(byId, roots, base, r) && ParentsVisited(byId, r, Elements(r.queue))
    ensures r == s.(queue := s.queue[1..]) || s.visited < r.visited
  {
    var child := s.queue[0];
    var rest := s.(queue := s.queue[1..]);
    Dequeue(byId, roots, base, s, rest);
    hide SearchSound, ParentsVisited;
    r := VisitParents(byId, child, rest, roots, base);
  }

  method KeepAncestors(byId: map<Id, ArtifactMetadata>, roots: set<Id>, base: Reasons) returns (s: Search)
    requires roots <= byId.Keys && base.Keys == byId.Keys
    requires ParentsIn(byId)
    ensures SearchSound(byId, roots, base, s) && s.visited == Closure(ParentGraph(byId), roots)
  {
    s := BeginSearch(byId, roots, base);
    hide SearchSound, ParentsVisited, Closure, ParentGraph, ParentsIn, SortedKeys, Elements;
    while s.queue != []
      invariant SearchSound(byId, roots, base, s) && ParentsVisited(byId, s, Elements(s.queue))
      decreases |byId.Keys - s.visited|, |s.queue|
    {
      var next := SearchOn(byId, s, roots, base);
      FewerLeft(byId, roots, base, s, next);
      s := next;
    }
    SearchCloses(byId, roots, base, s);
  }

  method BeginSearch(byId: map<Id, ArtifactMetadata>, roots: set<Id>, base: Reasons) returns (s: Search)
    requires roots <= byId.Keys && base.Keys == byId.Keys
    ensures SearchSound(byId, roots, base, s) && ParentsVisited(byId, s, Elements(s.queue))
  {
    var queue := EnumerateSorted(roots);
    s := Search(roots, queue, base);
    StartSearch(byId, roots, base, s);
  }

  lemma StartSearch(byId: map<Id, ArtifactMetadata>, roots: set<Id>, base: Reasons, s: Search)
    requires roots <= byId.Keys && base.Keys == byId.Keys
    requires s.visited == roots && Elements(s.queue) == roots && s.reasons == base
    ensures SearchSound(byId, roots, base, s) && ParentsVisited(byId, s, Elements(s.queue))
  {
    forall r | r in roots ensures ReachedFrom(ParentGraph(byId), roots, r) {
      ReachesSelf(ParentGraph(byId), r);
    }
  }

  lemma Dequeue(byId: map<Id, ArtifactMetadata>, roots: set<Id>, base: Reasons, was: Search, s: Search)
    requires was.queue != [] && s == was.(queue := was.queue[1..])
    requires SearchSound(byId, roots, base, was) && ParentsVisited(byId, was, Elements(was.queue))
    ensures SearchSound(byId, roots, base, s) && ParentsVisited(byId, s, Elements(s.queue) + {was.queue[0]})
    ensures was.queue[0] in s.visited && was.queue[0] in byId
  {
    hide ReachedFrom, ParentGraph;
    assert Elements(was.queue) == Elements(s.queue) + {was.queue[0]} by {
      DropFront(was.queue, 0);
    }
  }

  lemma FewerLeft(byId: map<Id, ArtifactMetadata>, roots: set<Id>, base: Reasons, s: Search, next: Search)
    requires s.queue != [] && SearchSound(byId, roots, base, next)
    requires next == s.(queue := s.queue[1..]) || s.visited < next.visited
    ensures var left, before := |byId.Keys - next.visited|, |byId.Keys - s.visited|;
      left < before || (left == before && |next.queue| < |s.queue|)
  {
    hide ReachedFrom, ParentGraph;
    if s.visited < next.visited {
      var x :| x in next.visited && x !in s.visited;
      assert x in byId.Keys - s.visited && x !in byId.Keys - next.visited;
      ProperSubsetSmaller(byId.Keys - next.visited, byId.Keys - s.visited);
    }
  }

  lemma SearchCloses(byId: map<Id, ArtifactMetadata>, roots: set<Id>, base: Reasons, s: Search)
    requires s.queue == [] && SearchSound(byId, roots, base, s) && ParentsVisited(byId, s, Elements(s.queue))
    ensures s.visited == Closure(ParentGraph(byId), roots)
  {
    hide ReachedFrom;
    ClosureExact(ParentGraph(byId), roots, s.visited);
  }

  function DecisionFor(k: Id, reasons: Reasons): RetentionDecision
    requires k in reasons
  {
    RetentionDecision(k, reasons[k] != Expired, reasons[k])
  }

  method PlanArtifactRetention(artifacts: seq<ArtifactMetadata>, policy: RetentionPolicy, clock: Clock, now: string)
    returns (r: Result<seq<RetentionDecision>, RetentionError>)
    ensures r.Ok? <==> Plannable(artifacts, policy, clock, now)
    ensures r.Ok? ==> RightPlan(artifacts, policy, clock, clock(now).value, r.value)
    ensures r.Err? ==> PlanFault(artifacts, policy, clock, now, r.error)
  {
    hide NamesBadTime, NamesMissingParent, RightPlan, ParentsPresent, TimesValid, BaseReasons;
    if !DaysValid(policy) {
      return Err(InvalidDays);
    }
    if clock(now).None? {
      return Err(InvalidTime);
    }
    var nowMs := clock(now).value;
    var classified := Classify(artifacts, policy, clock, nowMs);
    if classified.Err? {
      return Err(classified.error);
    }
    var base := classified.value;
    var missing := CheckParents(artifacts);
    if missing.Some? {
      return Err(missing.value);
    }
    var byId := ById(artifacts);
    var roots := set k | k in base && base[k] != Expired;
    ReadyToSearch(artifacts, policy, clock, nowMs, base, roots);
    var search := KeepAncestors(byId, roots, base);
    var ids := EnumerateSorted(base.Keys);
    var plan := Decisions(ids, search.reasons);
    PlanIsRight(artifacts, policy, clock, nowMs, base, roots, search, plan);
    return Ok(plan);
  }

  method Decisions(ids: seq<Id>, reasons: Reasons) returns (plan: seq<RetentionDecision>)
    requires Elements(ids) <= reasons.Keys
    ensures |plan| == |ids|
    ensures forall i :: 0 <= i < |ids| ==> ids[i] in reasons && plan[i] == DecisionFor(ids[i], reasons)
  {
    plan := [];
    for k := 0 to |ids|
      invariant |plan| == k
      invariant forall i :: 0 <= i < k ==> ids[i] in reasons && plan[i] == DecisionFor(ids[i], reasons)
    {
      assert ids[k] in Elements(ids);
      plan := plan + [DecisionFor(ids[k], reasons)];
    }
  }

  lemma ReadyToSearch(artifacts: seq<ArtifactMetadata>, policy: RetentionPolicy, clock: Clock, nowMs: int,
      base: Reasons, roots: set<Id>)
    requires BaseReasons(artifacts, policy, clock, nowMs, base) && ParentsPresent(artifacts)
    requires roots == set k | k in base && base[k] != Expired
    ensures base.Keys == ById(artifacts).Keys && roots == Roots(artifacts, policy, clock, nowMs)
    ensures forall k, p :: k in ById(artifacts) && p in ById(artifacts)[k].provenance ==>
      p.inputArtifactId in ById(artifacts)
  {
    ByIdHolds(artifacts);
    hide ById, Held;
    forall k ensures k in roots <==> k in Roots(artifacts, policy, clock, nowMs) {
      if k in base {
        assert HasBaseReason(policy, clock, nowMs, ById(artifacts)[k], base[k]);
      }
    }
  }

  lemma PlanIsRight(artifacts: seq<ArtifactMetadata>, policy: RetentionPolicy, clock: Clock, nowMs: int, base: Reasons,
      roots: set<Id>, search: Search, plan: seq<RetentionDecision>)
    requires BaseReasons(artifacts, policy, clock, nowMs, base) && roots == Roots(artifacts, policy, clock, nowMs)
    requires roots == set k | k in base && base[k] != Expired
    requires SearchSound(ById(artifacts), roots, base, search)
    requires search.visited == Closure(ParentGraph(ById(artifacts)), roots)
    requires |plan| == |SortedKeys(base.Keys)|
    requires forall i :: 0 <= i < |plan| ==>
      SortedKeys(base.Keys)[i] in search.reasons && plan[i] == DecisionFor(SortedKeys(base.Keys)[i], search.reasons)
    ensures RightPlan(artifacts, policy, clock, nowMs, plan)
  {
    var ids := SortedKeys(base.Keys);
    hide ById, SortedKeys, ReachedFrom, ParentGraph, Closure;
    forall i | 0 <= i < |plan| ensures RightDecision(artifacts, policy, clock, nowMs, plan[i]) {
      DecisionIsRight(artifacts, policy, clock, nowMs, base, roots, search, ids[i]);
    }
  }

  lemma DecisionIsRight(artifacts: seq<ArtifactMetadata>, policy: RetentionPolicy, clock: Clock, nowMs: int,
      base: Reasons, roots: set<Id>, search: Search, k: Id)
    requires BaseReasons(artifacts, policy, clock, nowMs, base) && roots == Roots(artifacts, policy, clock, nowMs)
    requires roots == set k | k in base && base[k] != Expired
    requires SearchSound(ById(artifacts), roots, base, search)
    requires search.visited == Closure(ParentGraph(ById(artifacts)), roots)
    requires k in search.reasons
    ensures RightDecision(artifacts, policy, clock, nowMs, DecisionFor(k, search.reasons))
  {
    hide ById, ReachedFrom, ParentGraph, Closure, Held, DaysFor;
    assert HasBaseReason(policy, clock, nowMs, ById(artifacts)[k], base[k]);
    var a := ById(artifacts)[k];
    assert a.artifactId == k by {
      ByIdHolds(artifacts);
    }
    assert search.reasons[k] ==
      if base[k] == Expired && k in search.visited && k !in roots then LineageDependency else base[k];
    assert k in roots <==> base[k] != Expired;
    assert k in roots ==> k in search.visited;
  }

  // ----- what plans guarantee -------------------------------------------------------

  /** The keep set contains the roots, contains the parents of what it contains, and is the least such set. */
  lemma KeepSetIsLeast(artifacts: seq<ArtifactMetadata>, policy: RetentionPolicy, clock: Clock, nowMs: int, V: set<Id>)
    ensures var keep := KeepSet(artifacts, policy, clock, nowMs);
      && Roots(artifacts, policy, clock, nowMs) <= keep
      && Closed(ParentGraph(ById(artifacts)), keep)
      && (Roots(artifacts, policy, clock, nowMs) <= V && Closed(ParentGraph(ById(artifacts)), V) ==> keep <= V)
  {
    var g, roots := ParentGraph(ById(artifacts)), Roots(artifacts, policy, clock, nowMs);
    ClosureIsClosed(g, roots);
    if roots <= V && Closed(g, V) {
      ClosureLeast(g, roots, V);
    }
  }

  /** As time passes, only less is kept. */
  lemma {:induction false} KeepSetShrinks(artifacts: seq<ArtifactMetadata>, policy: RetentionPolicy, clock: Clock,
      earlier: int, later: int)
    requires earlier <= later
    ensures KeepSet(artifacts, policy, clock, later) <= KeepSet(artifacts, policy, clock, earlier)
  {
    var g := ParentGraph(ById(artifacts));
    assert Roots(artifacts, policy, clock, later) <= Roots(artifacts, policy, clock, earlier);
    ClosureIsClosed(g, Roots(artifacts, policy, clock, earlier));
    ClosureLeast(g, Roots(artifacts, policy, clock, later), KeepSet(artifacts, policy, clock, earlier));
  }

  /** What is left when the plan has been carried out: the current artifacts with a kept id. */
  ghost function Survivors(artifacts: seq<ArtifactMetadata>, current: map<Id, ArtifactMetadata>, keep: set<Id>)
    : seq<ArtifactMetadata>
  {
    if artifacts == [] then []
    else
      var last := artifacts[|artifacts| - 1];
      Survivors(artifacts[..|artifacts| - 1], current, keep)
      + (if last.artifactId in keep && last.artifactId in current && current[last.artifactId] == last
         then [last] else [])
  }

  lemma {:induction false} SurvivorsExact(artifacts: seq<ArtifactMetadata>, current: map<Id, ArtifactMetadata>,
      keep: set<Id>)
    ensures forall a :: a in Survivors(artifacts, current, keep) <==>
      (a in artifacts && a.artifactId in keep && a.artifactId in current && current[a.artifactId] == a)
  {
    if artifacts != [] {
      SurvivorsExact(artifacts[..|artifacts| - 1], current, keep);
      SplitLast(artifacts);
    }
  }

  /** The survivors by id are the kept part of the artifacts by id. */
  lemma SurvivorsById(artifacts: seq<ArtifactMetadata>, keep: set<Id>)
    ensures ById(Survivors(artifacts, ById(artifacts), keep)) ==
      map k | k in ById(artifacts) && k in keep :: ById(artifacts)[k]
  {
    var s := Survivors(artifacts, ById(artifacts), keep);
    ByIdHolds(artifacts);
    ByIdHolds(s);
    SurvivorsExact(artifacts, ById(artifacts), keep);
    hide ById, Survivors;
    forall k ensures k in ById(s) <==> k in ById(artifacts) && k in keep {
      if k in ById(artifacts) && k in keep {
        assert ById(artifacts)[k] in s;
      }
    }
  }

  lemma KeepSetIsKnown(artifacts: seq<ArtifactMetadata>, policy: RetentionPolicy, clock: Clock, nowMs: int)
    requires ParentsPresent(artifacts)
    ensures KeepSet(artifacts, policy, clock, nowMs) <= ById(artifacts).Keys
  {
    var byId := ById(artifacts);
    ByIdHolds(artifacts);
    hide ById, KeptItself;
    assert Closed(ParentGraph(byId), byId.Keys);
    ClosureLeast(ParentGraph(byId), Roots(artifacts, policy, clock, nowMs), byId.Keys);
  }

  lemma SurvivorsKeepParents(artifacts: seq<ArtifactMetadata>, policy: RetentionPolicy, clock: Clock, nowMs: int)
    requires ParentsPresent(artifacts)
    ensures ParentsPresent(Survivors(artifacts, ById(artifacts), KeepSet(artifacts, policy, clock, nowMs)))
  {
    var keep := KeepSet(artifacts, policy, clock, nowMs);
    var s := Survivors(artifacts, ById(artifacts), keep);
    SurvivorsById(artifacts, keep);
    SurvivorsExact(artifacts, ById(artifacts), keep);
    ClosureIsClosed(ParentGraph(ById(artifacts)), Roots(artifacts, policy, clock, nowMs));
    hide ById, Survivors, Roots, Closure;
    forall a, p | a in s && p in a.provenance ensures p.inputArtifactId in ById(s) {
      ParentEdge(ById(artifacts), a.artifactId, p.inputArtifactId);
      assert p.inputArtifactId in keep;
      assert p.inputArtifactId in ById(artifacts);
    }
  }

  /** All survivors are kept again: the keep set of the survivors is all of them. */
  lemma SurvivorsAreKept(artifacts: seq<ArtifactMetadata>, policy: RetentionPolicy, clock: Clock, nowMs: int)
    requires ParentsPresent(artifacts)
    ensures var s := Survivors(artifacts, ById(artifacts), KeepSet(artifacts, policy, clock, nowMs));
      ById(s).Keys == KeepSet(artifacts, policy, clock, nowMs) == KeepSet(s, policy, clock, nowMs)
  {
    var keep := KeepSet(artifacts, policy, clock, nowMs);
    var s := Survivors(artifacts, ById(artifacts), keep);
    var roots := Roots(artifacts, policy, clock, nowMs);
    SurvivorsById(artifacts, keep);
    KeepSetIsKnown(artifacts, policy, clock, nowMs);
    SurvivorsKeepRoots(artifacts, policy, clock, nowMs);
    hide ById, Survivors, Roots, Closure;
    assert ById(s).Keys == keep;
    SameClosure(ById(artifacts), ById(s), roots);
  }

  /** Restricting the artifacts to a closure does not make the closure smaller. */
  lemma SameClosure(all: map<Id, ArtifactMetadata>, left: map<Id, ArtifactMetadata>, roots: set<Id>)
    requires left == map k | k in all && k in Closure(ParentGraph(all), roots) :: all[k]
    ensures Closure(ParentGraph(left), roots) == Closure(ParentGraph(all), roots)
  {
    SurvivorsKeepEdges(all, left, Closure(ParentGraph(all), roots));
    hide ParentGraph, Closure;
    ClosureRestricted(ParentGraph(all), ParentGraph(left), roots);
  }

  lemma SurvivorsKeepRoots(artifacts: seq<ArtifactMetadata>, policy: RetentionPolicy, clock: Clock, nowMs: int)
    ensures var s := Survivors(artifacts, ById(artifacts), KeepSet(artifacts, policy, clock, nowMs));
      Roots(s, policy, clock, nowMs) == Roots(artifacts, policy, clock, nowMs)
  {
    var keep := KeepSet(artifacts, policy, clock, nowMs);
    SurvivorsById(artifacts, keep);
    ClosureIsClosed(ParentGraph(ById(artifacts)), Roots(artifacts, policy, clock, nowMs));
    hide ById, Survivors, Closure, KeptItself;
  }

  lemma SurvivorsKeepEdges(all: map<Id, ArtifactMetadata>, left: map<Id, ArtifactMetadata>, keep: set<Id>)
    requires left == map k | k in all && k in keep :: all[k]
    ensures forall a, b :: (a, b) in ParentGraph(left) <==> (a, b) in ParentGraph(all) && a in keep
  {
    forall a, b ensures (a, b) in ParentGraph(left) <==> (a, b) in ParentGraph(all) && a in keep {
      ParentEdge(all, a, b);
      ParentEdge(left, a, b);
    }
  }

  /** Planning the survivors again at the same time never fails and deletes nothing. */
  lemma ReplanningDeletesNothing(artifacts: seq<ArtifactMetadata>, policy: RetentionPolicy, clock: Clock, now: string,
      plan: seq<RetentionDecision>)
    requires Plannable(artifacts, policy, clock, now)
    ensures var s := Survivors(artifacts, ById(artifacts), KeepSet(artifacts, policy, clock, clock(now).value));
      && Plannable(s, policy, clock, now)
      && (RightPlan(s, policy, clock, clock(now).value, plan) ==> forall d :: d in plan ==> d.keep)
  {
    var nowMs := clock(now).value;
    var keep := KeepSet(artifacts, policy, clock, nowMs);
    var s := Survivors(artifacts, ById(artifacts), keep);
    SurvivorsKeepParents(artifacts, policy, clock, nowMs);
    SurvivorsAreKept(artifacts, policy, clock, nowMs);
    SurvivorsExact(artifacts, ById(artifacts), keep);
    hide ById, Survivors, KeepSet, DaysValid, ParentsPresent, Roots;
    if RightPlan(s, policy, clock, nowMs, plan) {
      AllKept(s, policy, clock, nowMs, plan);
    }
  }

  lemma AllKept(s: seq<ArtifactMetadata>, policy: RetentionPolicy, clock: Clock, nowMs: int,
      plan: seq<RetentionDecision>)
    requires RightPlan(s, policy, clock, nowMs, plan) && KeepSet(s, policy, clock, nowMs) == ById(s).Keys
    ensures forall d :: d in plan ==> d.keep
  {
    hide ById, KeepSet, Roots, SortedKeys;
    forall d | d in plan ensures d.keep {
      var i :| 0 <= i < |plan| && plan[i] == d;
      assert RightDecision(s, policy, clock, nowMs, plan[i]);
    }
  }

  /** How long an artifact lives: the days given for its sensitivity, or else the default, of 24 hours of 3600 seconds
      of 1000 milliseconds. */
  ghost predicate Lives(policy: RetentionPolicy, a: ArtifactMetadata, ageMs: int) {
    && (a.sensitivity in policy.daysBySensitivity ==>
      ageMs <= policy.daysBySensitivity[a.sensitivity] * 24 * 3600 * 1000)
    && (a.sensitivity !in policy.daysBySensitivity ==> ageMs <= policy.defaultDays * 24 * 3600 * 1000)
  }

  ghost predicate OnHold(policy: RetentionPolicy, a: ArtifactMetadata) {
    exists tag :: tag in a.scopeTags && tag in policy.legalHoldScopeTags
  }

  /** The reason a plan gives says what is true of the artifact: protection first, then a tag on hold, then its days;
      what none of these keeps is kept for the sake of another artifact, or has expired. */
  ghost predicate RightReason(policy: RetentionPolicy, a: ArtifactMetadata, ageMs: int, reason: Reason) {
    match reason
    case ExplicitlyProtected => a.artifactId in policy.protectedArtifactIds
    case LegalHold => a.artifactId !in policy.protectedArtifactIds && OnHold(policy, a)
    case NotExpired => a.artifactId !in policy.protectedArtifactIds && !OnHold(policy, a) && Lives(policy, a, ageMs)
    case _ => a.artifactId !in policy.protectedArtifactIds && !OnHold(policy, a) && !Lives(policy, a, ageMs)
  }

  lemma RootMeans(artifacts: seq<ArtifactMetadata>, policy: RetentionPolicy, clock: Clock, nowMs: int, id: Id)
    requires TimesValid(artifacts, clock) && id in ById(artifacts)
    ensures var a := ById(artifacts)[id];
      && a.artifactId == id && clock(a.createdAt).Some?
      && (id in Roots(artifacts, policy, clock, nowMs) <==>
        (id in policy.protectedArtifactIds || OnHold(policy, a) || Lives(policy, a, nowMs - clock(a.createdAt).value)))
  {
    ByIdHolds(artifacts);
    var a := ById(artifacts)[id];
    assert a in artifacts;
    LivesMeans(policy, a, nowMs - clock(a.createdAt).value);
    hide ById, Lives, DaysFor;
  }

  /** What a plan decides for one artifact: it goes exactly when it has expired, for a reason that is right. */
  lemma DecisionMeans(artifacts: seq<ArtifactMetadata>, policy: RetentionPolicy, clock: Clock, nowMs: int,
      d: RetentionDecision)
    requires RightDecision(artifacts, policy, clock, nowMs, d) && TimesValid(artifacts, clock)
    ensures d.artifactId in ById(artifacts) && (d.keep <==> d.reason != Expired)
    ensures var a := ById(artifacts)[d.artifactId];
      clock(a.createdAt).Some? && RightReason(policy, a, nowMs - clock(a.createdAt).value, d.reason)
  {
    hide ById, KeepSet, Closed, ParentGraph, Lives, Roots, TimesValid;
    RootMeans(artifacts, policy, clock, nowMs, d.artifactId);
    RootsAreKept(artifacts, policy, clock, nowMs, d.artifactId);
    var a := ById(artifacts)[d.artifactId];
    assert Held(policy, a) <==> OnHold(policy, a);
    hide Held, OnHold;
  }

  lemma RootsAreKept(artifacts: seq<ArtifactMetadata>, policy: RetentionPolicy, clock: Clock, nowMs: int, id: Id)
    ensures id in Roots(artifacts, policy, clock, nowMs) ==> id in KeepSet(artifacts, policy, clock, nowMs)
  {
    hide KeepSet, Closed, Roots;
    KeepSetIsLeast(artifacts, policy, clock, nowMs, {});
  }

  lemma LivesMeans(policy: RetentionPolicy, a: ArtifactMetadata, ageMs: int)
    ensures Lives(policy, a, ageMs) <==> ageMs <= DaysFor(policy, a.sensitivity) * MS_PER_DAY
  {
    var days := DaysFor(policy, a.sensitivity);
    assert days * 24 * 3600 * 1000 == days * MS_PER_DAY;
  }
}

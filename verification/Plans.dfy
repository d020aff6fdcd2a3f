/** Versioned plans: what a revision may change, and what every history of a plan keeps. */
module Plans {
  import opened Ordering
  import opened Outcomes

  datatype Status = Pending | Running | Completed | Cancelled

  datatype Branch = Branch(
    id: string,
    question: string,
    artifactPartition: string,
    outputSchemaDigest: string,
    expectedInformationGain: real,
    maxCostUsd: real,
    status: Status,
    evidenceArtifactIds: seq<string>)

  datatype PlanContent = PlanContent(
    planId: string,
    version: int,
    parentDigest: Option<Digest>,
    goalContractDigest: string,
    reason: string,
    branches: seq<Branch>,
    evidenceArtifactIds: seq<string>,
    createdAt: string)

  /** A digest is represented by what it digests. */
  datatype Digest = DigestOf(content: PlanContent)

  datatype Plan = Plan(content: PlanContent, digest: Digest)

  datatype PlanError =
    | PlanNotFound(planId: string)
    | BranchesNotFound(ids: seq<string>)
    | VersionConflict(expected: int, actual: int)
    | PlanExists(planId: string)
    | DuplicateBranchId(id: string)
    | PartitionConflict(partition: string)
    | InvalidGain(id: string)
    | InvalidCost(id: string)
    | InvalidTransition(id: string, before: Status, after: Status)

  datatype Update = Update(id: string, status: Status, evidenceArtifactIds: seq<string>)

  datatype Creation = Creation(planId: string, goalContractDigest: string, reason: string, branches: seq<Branch>,
      createdAt: string)

  datatype Revision = Revision(
    planId: string,
    expectedVersion: int,
    reason: string,
    branchUpdates: seq<Update>,
    addBranches: seq<Branch>,
    evidenceArtifactIds: seq<string>,
    createdAt: string)

  // ----- branches -------------------------------------------------------------------

  ghost predicate BranchIdsDistinct(bs: seq<Branch>) {
    forall i, j :: 0 <= i < j < |bs| ==> bs[i].id != bs[j].id
  }

  ghost predicate PartitionsDistinct(bs: seq<Branch>) {
    forall i, j :: 0 <= i < j < |bs| ==> bs[i].artifactPartition != bs[j].artifactPartition
  }

  ghost predicate BranchesValid(bs: seq<Branch>) {
    && BranchIdsDistinct(bs) && PartitionsDistinct(bs)
    && forall b :: b in bs ==> 0.0 <= b.expectedInformationGain <= 1.0 && b.maxCostUsd >= 0.0
  }

  predicate Allowed(before: Status, after: Status) {
    match before
    case Pending => after == Pending || after == Running || after == Cancelled
    case Running => after == Running || after == Completed || after == Cancelled
    case Completed => after == Completed
    case Cancelled => after == Cancelled
  }

  /** What any number of allowed steps can reach. */
  predicate Reachable(before: Status, after: Status) {
    before == after || before == Pending || (before == Running && (after == Completed || after == Cancelled))
  }

  /** `Reachable` is the transitive closure of `Allowed`: it is closed under steps, and made of them. */
  lemma ReachableIsClosure(a: Status, b: Status, c: Status)
    ensures Reachable(a, a)
    ensures Reachable(a, b) && Allowed(b, c) ==> Reachable(a, c)
    ensures Reachable(a, c) ==> exists m :: Allowed(a, m) && Allowed(m, c)
  {
    if Reachable(a, c) {
      var m := if a == Pending && c == Completed then Running else a;
      assert Allowed(a, m) && Allowed(m, c);
    }
  }

  // ----- normal form ----------------------------------------------------------------

  predicate BranchLe(a: Branch, b: Branch) {
    StrLe(a.id, b.id)
  }

  ghost function NormalBranch(b: Branch): Branch {
    b.(evidenceArtifactIds := SortedKeys(Elements(b.evidenceArtifactIds)))
  }

  ghost function NormalBranches(bs: seq<Branch>): seq<Branch> {
    seq(|bs|, i requires 0 <= i < |bs| => NormalBranch(bs[i]))
  }

  ghost function Normalize(c: PlanContent): PlanContent {
    c.(branches := Sort(NormalBranches(c.branches), BranchLe),
       evidenceArtifactIds := SortedKeys(Elements(c.evidenceArtifactIds)))
  }

  ghost function Built(c: PlanContent): Plan {
    Plan(Normalize(c), DigestOf(Normalize(c)))
  }

  // ----- creating and revising ------------------------------------------------------

  ghost function FirstPlan(c: Creation): Plan {
    Built(PlanContent(c.planId, 1, None, c.goalContractDigest, c.reason, c.branches, [], c.createdAt))
  }

  /** A later update of the same branch replaces an earlier one. */
  function UpdatesById(us: seq<Update>): map<string, Update> {
    if us == [] then map[] else UpdatesById(us[..|us| - 1])[us[|us| - 1].id := us[|us| - 1]]
  }

  function Updated(b: Branch, updates: map<string, Update>): Branch {
    if b.id in updates
    then
      b.(status := updates[b.id].status,
         evidenceArtifactIds := b.evidenceArtifactIds + updates[b.id].evidenceArtifactIds)
    else b
  }

  function UpdatedAll(bs: seq<Branch>, updates: map<string, Update>): seq<Branch> {
    seq(|bs|, i requires 0 <= i < |bs| => Updated(bs[i], updates))
  }

  predicate TransitionAllowed(b: Branch, updates: map<string, Update>) {
    b.id in updates ==> Allowed(b.status, updates[b.id].status)
  }

  function BranchIds(bs: seq<Branch>): set<string> {
    set b | b in bs :: b.id
  }

  ghost function NextContent(p: PlanContent, r: Revision): PlanContent {
    PlanContent(p.planId, p.version + 1, Some(DigestOf(p)), p.goalContractDigest, r.reason,
      UpdatedAll(p.branches, UpdatesById(r.branchUpdates)) + r.addBranches,
      p.evidenceArtifactIds + r.evidenceArtifactIds, r.createdAt)
  }

  ghost function NextPlan(p: Plan, r: Revision): Plan {
    Built(NextContent(p.content, r))
  }

  /** The revisions the current version takes. */
  ghost predicate Revisable(p: Plan, r: Revision) {
    var updates := UpdatesById(r.branchUpdates);
    && p.content.version == r.expectedVersion
    && (forall b :: b in p.content.branches ==> TransitionAllowed(b, updates))
    && updates.Keys <= BranchIds(p.content.branches)
    && BranchesValid(NextContent(p.content, r).branches)
  }

  type Versions = map<string, seq<Plan>>

  ghost function Created(versions: Versions, c: Creation): Versions {
    if c.planId !in versions && BranchesValid(c.branches) then versions[c.planId := [FirstPlan(c)]] else versions
  }

  ghost function Revised(versions: Versions, r: Revision): Versions {
    if r.planId in versions && versions[r.planId] != [] && Revisable(Last(versions[r.planId]), r)
    then versions[r.planId := versions[r.planId] + [NextPlan(Last(versions[r.planId]), r)]]
    else versions
  }

  function Last(h: seq<Plan>): Plan
    requires h != []
  {
    h[|h| - 1]
  }

  // ----- one step of a history ------------------------------------------------------

  /** The branch is still there, with its definition, an allowed status and no evidence lost. */
  ghost predicate Continues(b: Branch, after: seq<Branch>, step: (Status, Status) -> bool) {
    exists d :: d in after && Keeps(b, d, step)
  }

  ghost predicate Keeps(b: Branch, d: Branch, step: (Status, Status) -> bool) {
    && d.id == b.id && d.question == b.question && d.artifactPartition == b.artifactPartition
    && d.outputSchemaDigest == b.outputSchemaDigest
    && d.expectedInformationGain == b.expectedInformationGain && d.maxCostUsd == b.maxCostUsd
    && step(b.status, d.status)
    && Elements(b.evidenceArtifactIds) <= Elements(d.evidenceArtifactIds)
  }

  ghost predicate Evolves(p: PlanContent, q: PlanContent, step: (Status, Status) -> bool) {
    && q.planId == p.planId && q.goalContractDigest == p.goalContractDigest
    && Elements(p.evidenceArtifactIds) <= Elements(q.evidenceArtifactIds)
    && forall b :: b in p.branches ==> Continues(b, q.branches, step)
  }

  lemma NormalBranchesMembers(bs: seq<Branch>)
    ensures forall d :: d in Sort(NormalBranches(bs), BranchLe) <==> exists b :: b in bs && d == NormalBranch(b)
  {
    SortMultiset(NormalBranches(bs), BranchLe);
    hide Sort, NormalBranch;
    forall d ensures d in NormalBranches(bs) <==> exists b :: b in bs && d == NormalBranch(b) {
      if b :| b in bs && d == NormalBranch(b) {
        var i :| 0 <= i < |bs| && bs[i] == b;
        assert NormalBranches(bs)[i] == d;
      }
    }
  }

  lemma NormalKeepsValid(bs: seq<Branch>)
    requires BranchesValid(bs)
    ensures BranchesValid(Sort(NormalBranches(bs), BranchLe))
  {
    var ns := NormalBranches(bs);
    assert BranchIdsDistinct(ns) && PartitionsDistinct(ns);
    NormalBranchesMembers(bs);
    SortMultiset(ns, BranchLe);
    DistinctFields(ns, Sort(ns, BranchLe));
    hide Sort, SortedKeys;
  }

  lemma DistinctFields(xs: seq<Branch>, ys: seq<Branch>)
    requires multiset(xs) == multiset(ys) && BranchIdsDistinct(xs) && PartitionsDistinct(xs)
    ensures BranchIdsDistinct(ys) && PartitionsDistinct(ys)
  {
    assert Distinct(xs);
    DistinctPermutation(xs, ys);
    forall i, j | 0 <= i < j < |ys| ensures ys[i].id != ys[j].id && ys[i].artifactPartition != ys[j].artifactPartition {
      assert ys[i] in multiset(xs) && ys[j] in multiset(xs);
      var a :| 0 <= a < |xs| && xs[a] == ys[i];
      var b :| 0 <= b < |xs| && xs[b] == ys[j];
    }
  }

  lemma NextEvolves(p: Plan, r: Revision)
    requires Revisable(p, r)
    ensures Evolves(p.content, NextPlan(p, r).content, Allowed)
  {
    var next := NextContent(p.content, r);
    var updates := UpdatesById(r.branchUpdates);
    NormalBranchesMembers(next.branches);
    hide Sort, UpdatesById, BranchesValid, SortedKeys, NormalBranch;
    forall b | b in p.content.branches ensures Continues(b, Normalize(next).branches, Allowed) {
      UpdateKeeps(p.content.branches, r.addBranches, updates, b);
      NormalKeeps(b, Updated(b, updates));
      assert NormalBranch(Updated(b, updates)) in Normalize(next).branches;
    }
    assert Elements(p.content.evidenceArtifactIds) <= Elements(next.evidenceArtifactIds);
  }

  lemma UpdateKeeps(bs: seq<Branch>, added: seq<Branch>, updates: map<string, Update>, b: Branch)
    requires b in bs && TransitionAllowed(b, updates)
    ensures Updated(b, updates) in UpdatedAll(bs, updates) + added
    ensures Keeps(b, Updated(b, updates), Allowed)
  {
    var i :| 0 <= i < |bs| && bs[i] == b;
    assert UpdatedAll(bs, updates)[i] == Updated(b, updates);
    assert (UpdatedAll(bs, updates) + added)[i] == Updated(b, updates);
  }

  lemma NormalKeeps(b: Branch, d: Branch)
    requires Keeps(b, d, Allowed)
    ensures Keeps(b, NormalBranch(d), Allowed)
  {
  }

  // ----- whole histories ------------------------------------------------------------

  /** Versions count from one, each version names the digest of the one before, and each step evolves. */
  ghost predicate HistorySound(planId: string, h: seq<Plan>) {
    && h != []
    && (forall i :: 0 <= i < |h| ==> VersionSound(planId, h[i], i))
    && h[0].content.parentDigest == None
    && (forall i, j :: 0 <= i && j == i + 1 && j < |h| ==> LinkSound(h[i], h[j]))
  }

  ghost predicate VersionSound(planId: string, p: Plan, i: int) {
    && p.content.planId == planId && p.content.version == i + 1
    && p.digest == DigestOf(p.content) && BranchesValid(p.content.branches)
  }

  ghost predicate LinkSound(p: Plan, q: Plan) {
    q.content.parentDigest == Some(p.digest) && Evolves(p.content, q.content, Allowed)
  }

  ghost predicate Sound(versions: Versions) {
    forall id :: id in versions ==> HistorySound(id, versions[id])
  }

  lemma FirstIsSound(c: Creation)
    requires BranchesValid(c.branches)
    ensures HistorySound(c.planId, [FirstPlan(c)])
  {
    NormalKeepsValid(c.branches);
    hide BranchesValid, Sort, SortedKeys;
  }

  lemma RevisedHistoryIsSound(planId: string, h: seq<Plan>, r: Revision)
    requires HistorySound(planId, h) && Revisable(Last(h), r)
    ensures HistorySound(planId, h + [NextPlan(Last(h), r)])
  {
    var last := Last(h);
    var next := NextPlan(last, r);
    assert VersionSound(planId, h[|h| - 1], |h| - 1);
    NextEvolves(last, r);
    NormalKeepsValid(NextContent(last.content, r).branches);
    NextVersion(planId, last, |h| - 1, r);
    hide Revisable, NextPlan, Evolves, VersionSound;
    var longer := h + [next];
    forall i, j | 0 <= i && j == i + 1 && j < |longer| ensures LinkSound(longer[i], longer[j]) {
      if j < |h| {
        assert LinkSound(h[i], h[j]);
      }
    }
  }

  lemma NextVersion(planId: string, p: Plan, i: int, r: Revision)
    requires VersionSound(planId, p, i) && Revisable(p, r)
    ensures VersionSound(planId, NextPlan(p, r), i + 1)
    ensures NextPlan(p, r).content.parentDigest == Some(p.digest)
  {
    NormalKeepsValid(NextContent(p.content, r).branches);
    hide BranchesValid, Sort, SortedKeys, UpdatesById;
  }

  datatype Call = Create(creation: Creation) | Revise(revision: Revision)

  ghost function AfterCall(versions: Versions, c: Call): Versions {
    match c
    case Create(creation) => Created(versions, creation)
    case Revise(revision) => Revised(versions, revision)
  }

  /** The store after any sequence of calls, failing ones included. */
  ghost function After(calls: seq<Call>): Versions {
    if calls == [] then map[] else AfterCall(After(calls[..|calls| - 1]), calls[|calls| - 1])
  }

  lemma CallKeepsSound(versions: Versions, c: Call)
    requires Sound(versions)
    ensures Sound(AfterCall(versions, c))
  {
    hide HistorySound, FirstPlan, NextPlan, Revisable, BranchesValid;
    match c
    case Create(creation) =>
      if BranchesValid(creation.branches) {
        FirstIsSound(creation);
      }
    case Revise(r) =>
      if r.planId in versions && versions[r.planId] != [] && Revisable(Last(versions[r.planId]), r) {
        RevisedHistoryIsSound(r.planId, versions[r.planId], r);
      }
  }

  /** After any calls every plan has consecutive versions, a chain of parent digests, unique branch ids
      and partitions, and evolves only as allowed. */
  lemma {:induction false} EveryHistoryIsSound(calls: seq<Call>)
    ensures Sound(After(calls))
  {
    if calls != [] {
      EveryHistoryIsSound(calls[..|calls| - 1]);
      CallKeepsSound(After(calls[..|calls| - 1]), calls[|calls| - 1]);
      hide Sound;
    }
  }

  /** Recorded versions are never changed or removed. */
  lemma {:induction false} HistoriesOnlyGrow(calls: seq<Call>, k: nat, id: string)
    requires k <= |calls| && id in After(calls[..k])
    ensures id in After(calls)
    ensures var before, after := After(calls[..k])[id], After(calls)[id];
      |before| <= |after| && after[..|before|] == before
    decreases |calls|
  {
    if k == |calls| {
      TakeAll(calls);
    } else {
      var front := calls[..|calls| - 1];
      assert front[..k] == calls[..k];
      HistoriesOnlyGrow(front, k, id);
      hide Revisable, NextPlan, FirstPlan, BranchesValid;
    }
  }

  /** The k-th call recorded version `n` of a plan: a creation the first, a revision the next. */
  ghost predicate Records(calls: seq<Call>, k: nat, id: string, n: nat) {
    k < |calls| && var before := After(calls[..k]);
    match calls[k]
    case Create(c) => c.planId == id && n == 0 && id !in before && BranchesValid(c.branches)
    case Revise(r) => r.planId == id && n > 0 && id in before && |before[id]| == n && Revisable(before[id][n - 1], r)
  }

  /** The version such a call records. */
  ghost predicate RecordedBy(calls: seq<Call>, k: nat, id: string, n: nat, p: Plan)
    requires Records(calls, k, id, n)
  {
    match calls[k]
    case Create(c) => p == FirstPlan(c)
    case Revise(r) => p == NextPlan(After(calls[..k])[id][n - 1], r)
  }

  /** What a call recorded is there ever after. */
  lemma RecordedIsKept(calls: seq<Call>, k: nat, id: string, n: nat)
    requires Records(calls, k, id, n)
    ensures id in After(calls) && n < |After(calls)[id]| && RecordedBy(calls, k, id, n, After(calls)[id][n])
  {
    hide Revisable, NextPlan, FirstPlan, BranchesValid;
    assert calls[..k + 1][..k] == calls[..k];
    HistoriesOnlyGrow(calls, k + 1, id);
    var next, after := After(calls[..k + 1])[id], After(calls)[id];
    assert |next| == n + 1 && RecordedBy(calls, k, id, n, next[n]);
    assert after[n] == after[..|next|][n];
  }

  /** Every version in the store was recorded by some call. */
  lemma {:induction false} VersionWasRecorded(calls: seq<Call>, id: string, n: nat) returns (k: nat)
    requires id in After(calls) && n < |After(calls)[id]|
    ensures Records(calls, k, id, n) && RecordedBy(calls, k, id, n, After(calls)[id][n])
    decreases |calls|
  {
    hide Revisable, NextPlan, FirstPlan, BranchesValid;
    var front := calls[..|calls| - 1];
    if id in After(front) && n < |After(front)[id]| {
      k := VersionWasRecorded(front, id, n);
      assert front[..k] == calls[..k];
    } else {
      k := |calls| - 1;
    }
  }

  lemma ContinuesTransitive(p: PlanContent, q: PlanContent, s: PlanContent)
    requires Evolves(p, q, Reachable) && Evolves(q, s, Allowed)
    ensures Evolves(p, s, Reachable)
  {
    forall b | b in p.branches ensures Continues(b, s.branches, Reachable) {
      assert Continues(b, q.branches, Reachable);
      var d :| d in q.branches && Keeps(b, d, Reachable);
      assert Continues(d, s.branches, Allowed);
      var e :| e in s.branches && Keeps(d, e, Allowed);
      ReachableIsClosure(b.status, d.status, e.status);
      assert Keeps(b, e, Reachable);
    }
  }

  /** Between any two versions of a plan, however far apart: no branch vanishes or changes its definition,
      statuses move along the transition closure, and evidence is never lost. */
  lemma {:induction false} VersionsEvolve(planId: string, h: seq<Plan>, i: nat, j: nat)
    requires HistorySound(planId, h) && i <= j < |h|
    ensures Evolves(h[i].content, h[j].content, Reachable)
    decreases j
  {
    if i == j {
      forall b | b in h[i].content.branches ensures Continues(b, h[i].content.branches, Reachable) {
        assert Keeps(b, b, Reachable);
      }
    } else {
      VersionsEvolve(planId, h, i, j - 1);
      assert LinkSound(h[j - 1], h[j]);
      hide HistorySound, Evolves;
      ContinuesTransitive(h[i].content, h[j - 1].content, h[j].content);
    }
  }

  /** The digest of the latest version fixes the whole history: two sound histories that end in the same
      digest are the same. */
  lemma {:induction false} DigestFixesHistory(planId: string, h: seq<Plan>, g: seq<Plan>)
    requires HistorySound(planId, h) && HistorySound(planId, g) && Last(h).digest == Last(g).digest
    ensures h == g
    decreases |h|
  {
    var m, n := |h| - 1, |g| - 1;
    assert VersionSound(planId, h[m], m) && VersionSound(planId, g[n], n);
    SplitLast(h);
    SplitLast(g);
    if m > 0 {
      assert LinkSound(h[m - 1], h[m]) && LinkSound(g[n - 1], g[n]);
      FrontIsSound(planId, h);
      FrontIsSound(planId, g);
      DigestFixesHistory(planId, h[..m], g[..n]);
    }
  }

  lemma FrontIsSound(planId: string, h: seq<Plan>)
    requires HistorySound(planId, h) && |h| > 1
    ensures HistorySound(planId, h[..|h| - 1])
  {
    hide VersionSound, LinkSound;
    var front := h[..|h| - 1];
    forall i, j | 0 <= i && j == i + 1 && j < |front| ensures LinkSound(front[i], front[j]) {
      assert LinkSound(h[i], h[j]);
    }
  }

  /** The status of a branch stays, or goes from pending to running or cancelled, or from running to completed or
      cancelled; nothing else is allowed. */
  lemma AllowedMeans(before: Status, after: Status)
    ensures Allowed(before, after) <==>
      || before == after
      || (before, after) in {(Pending, Running), (Pending, Cancelled), (Running, Completed), (Running, Cancelled)}
  {
  }
}

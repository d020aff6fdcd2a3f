/** The monotonic candidate gate: what a candidate's evidence must show against its baseline. */
module Guard {
  import opened Ordering
  import opened Outcomes
  import opened PathPatterns

  datatype Severity = Blocking | High | Medium | Low

  datatype FindingStatus = Open | Resolved | Waived

  datatype CheckStatus = Passed | Failed | Errored | Inconclusive

  datatype Visibility = PublicVerifier | HiddenVerifier

  datatype Finding = Finding(
    id: string,
    requirementId: Option<string>,
    verifierId: string,
    findingClass: string,
    severity: Severity,
    reasonCode: string,
    evidenceArtifactIds: seq<string>,
    status: FindingStatus)

  datatype Gate = Gate(id: string, hard: bool, status: CheckStatus, evidenceArtifactIds: seq<string>)

  datatype EvidenceItem = EvidenceItem(id: string, artifactId: string, contentHash: string, required: bool)

  datatype Verifier = Verifier(
    id: string,
    version: string,
    ownerId: string,
    visibility: Visibility,
    image: string,
    policyDigest: string)

  datatype VerifierResult = VerifierResult(
    outcome: CheckStatus,
    productContentHash: string,
    findings: seq<Finding>,
    gates: seq<Gate>,
    evidence: seq<EvidenceItem>,
    observedWrites: seq<string>,
    scopeViolationCount: nat,
    costUsd: real,
    latencyMs: int)

  datatype BundleContent = BundleContent(
    tenantId: string,
    runId: string,
    branchId: string,
    productArtifactId: string,
    verifier: Verifier,
    requiredEvidenceIds: seq<string>,
    startedAt: string,
    completedAt: string,
    result: VerifierResult)

  /** A digest is represented by what it digests. */
  datatype Digest = DigestOf(content: BundleContent)

  datatype EvidenceBundle = EvidenceBundle(bundleId: Digest, content: BundleContent)

  datatype Policy = Policy(
    authorizedWritePatterns: seq<string>,
    requiredGateIds: seq<string>,
    targetFindingIds: seq<string>,
    maxBlockingFindings: int,
    maxCostUsd: Option<real>,
    maxLatencyMs: Option<int>,
    requireProductChange: Option<bool>)

  // ----- integrity of one bundle ----------------------------------------------------

  ghost predicate FindingIdsDistinct(fs: seq<Finding>) {
    forall i, j :: 0 <= i < j < |fs| ==> fs[i].id != fs[j].id
  }

  ghost predicate GateIdsDistinct(gs: seq<Gate>) {
    forall i, j :: 0 <= i < j < |gs| ==> gs[i].id != gs[j].id
  }

  ghost predicate EvidenceIdsDistinct(es: seq<EvidenceItem>) {
    forall i, j :: 0 <= i < j < |es| ==> es[i].id != es[j].id
  }

  ghost predicate Provided(evidence: seq<EvidenceItem>, artifactIds: seq<string>) {
    forall a :: a in artifactIds ==> exists e :: e in evidence && e.artifactId == a
  }

  ghost predicate Intact(b: EvidenceBundle) {
    var c := b.content;
    && FindingIdsDistinct(c.result.findings) && GateIdsDistinct(c.result.gates)
    && EvidenceIdsDistinct(c.result.evidence) && Distinct(c.requiredEvidenceIds)
    && (forall f :: f in c.result.findings ==>
      f.verifierId == c.verifier.id && Provided(c.result.evidence, f.evidenceArtifactIds))
    && (forall g :: g in c.result.gates ==> Provided(c.result.evidence, g.evidenceArtifactIds))
    && b.bundleId == DigestOf(c)
  }

  // ----- scores ---------------------------------------------------------------------

  function Weight(s: Severity): nat {
    match s
    case Blocking => 1000
    case High => 100
    case Medium => 10
    case Low => 1
  }

  function BlockingScore(fs: seq<Finding>): nat {
    if fs == [] then 0
    else BlockingScore(fs[..|fs| - 1]) + (if fs[|fs| - 1].status == Open then Weight(fs[|fs| - 1].severity) else 0)
  }

  predicate OpenBlocking(f: Finding) {
    f.status == Open && f.severity == Blocking
  }

  function OpenBlockingCount(fs: seq<Finding>): nat {
    if fs == [] then 0 else OpenBlockingCount(fs[..|fs| - 1]) + (if OpenBlocking(fs[|fs| - 1]) then 1 else 0)
  }

  /** The score is zero exactly when nothing is open, and it bounds the open blocking findings. */
  lemma {:induction false} ScoreMeaning(fs: seq<Finding>)
    ensures BlockingScore(fs) == 0 <==> forall f :: f in fs ==> f.status != Open
    ensures 1000 * OpenBlockingCount(fs) <= BlockingScore(fs)
  {
    if fs != [] {
      ScoreMeaning(fs[..|fs| - 1]);
      SplitLast(fs);
    }
  }

  /** The positions of the open findings of one severity. */
  ghost function OpenOf(fs: seq<Finding>, s: Severity): set<nat> {
    set i | 0 <= i < |fs| && fs[i].status == Open && fs[i].severity == s
  }

  lemma OpenOfLast(fs: seq<Finding>, s: Severity)
    requires fs != []
    ensures |OpenOf(fs, s)| == |OpenOf(fs[..|fs| - 1], s)|
      + (if fs[|fs| - 1].status == Open && fs[|fs| - 1].severity == s then 1 else 0)
  {
    var k := |fs| - 1;
    var front := fs[..k];
    forall i ensures i in OpenOf(fs, s) <==>
      i in OpenOf(front, s) || (i == k && fs[k].status == Open && fs[k].severity == s)
    {
      if 0 <= i < k {
        assert front[i] == fs[i];
      }
    }
    if fs[k].status == Open && fs[k].severity == s {
      assert OpenOf(fs, s) == OpenOf(front, s) + {k};
    } else {
      assert OpenOf(fs, s) == OpenOf(front, s);
    }
  }

  /** What each open finding counts for: 1000 if blocking, 100 if high, 10 if medium, 1 if low. */
  lemma {:induction false} ScoreBySeverity(fs: seq<Finding>)
    ensures BlockingScore(fs) == 1000 * |OpenOf(fs, Blocking)| + 100 * |OpenOf(fs, High)|
      + 10 * |OpenOf(fs, Medium)| + |OpenOf(fs, Low)|
    ensures OpenBlockingCount(fs) == |OpenOf(fs, Blocking)|
  {
    if fs != [] {
      ScoreBySeverity(fs[..|fs| - 1]);
      OpenOfLast(fs, Blocking);
      OpenOfLast(fs, High);
      OpenOfLast(fs, Medium);
      OpenOfLast(fs, Low);
      hide OpenOf;
    } else {
      assert forall s :: OpenOf(fs, s) == {};
    }
  }

  // ----- the rules ------------------------------------------------------------------

  datatype VerifierField = IdField | VersionField | OwnerField | VisibilityField | PolicyField | ImageField

  datatype Violation =
    | VerifierChanged(verifierField: VerifierField)
    | TenantContextChanged
    | RunContextChanged
    | OutcomeNotPassed
    | HardGateRegression(gateId: string)
    | RequiredGateNotPassed(gateId: string)
    | FindingIdentityChanged(findingId: string)
    | OpenFindingDisappeared(findingId: string)
    | NewBlockingFinding(findingId: string)
    | TargetFindingUnresolved(findingId: string)
    | ScopeViolationIncreased
    | RequiredEvidenceLost(evidenceId: string)
    | UnauthorizedWrite(path: string)
    | NoOpCandidate
    | BlockingScoreNotImproved
    | BlockingLimitExceeded
    | CostLimitExceeded
    | LatencyLimitExceeded

  function FieldText(v: Verifier, f: VerifierField): (string, Visibility) {
    match f
    case IdField => (v.id, PublicVerifier)
    case VersionField => (v.version, PublicVerifier)
    case OwnerField => (v.ownerId, PublicVerifier)
    case VisibilityField => ("", v.visibility)
    case PolicyField => (v.policyDigest, PublicVerifier)
    case ImageField => (v.image, PublicVerifier)
  }

  /** What a finding must keep while it keeps its id. An absent requirement reads as the empty text. */
  function Identity(f: Finding): (string, string, string, Severity, string) {
    var requirement := if f.requirementId.Some? then f.requirementId.value else "";
    (f.verifierId, requirement, f.findingClass, f.severity, f.reasonCode)
  }

  ghost predicate GatePassed(r: VerifierResult, id: string) {
    exists g :: g in r.gates && g.id == id && g.status == Passed
  }

  ghost predicate WasHardPassed(gates: seq<Gate>, id: string) {
    exists g :: g in gates && g.id == id && g.hard && g.status == Passed
  }

  ghost predicate IsOpen(fs: seq<Finding>, id: string) {
    exists f :: f in fs && f.id == id && f.status == Open
  }

  ghost predicate IsOpenBlocking(fs: seq<Finding>, id: string) {
    exists f :: f in fs && f.id == id && OpenBlocking(f)
  }

  ghost predicate HasFinding(fs: seq<Finding>, id: string) {
    exists f :: f in fs && f.id == id
  }

  ghost predicate Settled(fs: seq<Finding>, id: string) {
    exists f :: f in fs && f.id == id && f.status != Open
  }

  ghost predicate HasEvidence(r: VerifierResult, id: string) {
    exists e :: e in r.evidence && e.id == id
  }

  ghost predicate EvidenceRequired(b: BundleContent, c: BundleContent, id: string) {
    || id in b.requiredEvidenceIds || id in c.requiredEvidenceIds
    || exists e :: e in b.result.evidence && e.required && e.id == id
  }

  predicate Authorized(p: Policy, path: string) {
    exists i :: 0 <= i < |p.authorizedWritePatterns| && PatternMatches(p.authorizedWritePatterns[i], path)
  }

  ghost predicate AllTargetsSettled(c: BundleContent, p: Policy) {
    forall id :: id in p.targetFindingIds ==> Settled(c.result.findings, id)
  }

  ghost predicate IdentityChanged(before: seq<Finding>, after: seq<Finding>, id: string) {
    exists f, g :: f in before && g in after && f.id == id && g.id == id && Identity(f) != Identity(g)
  }

  /** When the gate reports each violation. */
  ghost predicate Violates(b: BundleContent, c: BundleContent, p: Policy, v: Violation) {
    match v
    case VerifierChanged(f) => FieldText(b.verifier, f) != FieldText(c.verifier, f)
    case TenantContextChanged => b.tenantId != c.tenantId
    case RunContextChanged => b.runId != c.runId
    case OutcomeNotPassed => c.result.outcome != Passed
    case HardGateRegression(id) => WasHardPassed(b.result.gates, id) && !GatePassed(c.result, id)
    case RequiredGateNotPassed(id) => id in p.requiredGateIds && !GatePassed(c.result, id)
    case FindingIdentityChanged(id) => IdentityChanged(b.result.findings, c.result.findings, id)
    case OpenFindingDisappeared(id) => IsOpen(b.result.findings, id) && !HasFinding(c.result.findings, id)
    case NewBlockingFinding(id) => IsOpenBlocking(c.result.findings, id) && !HasFinding(b.result.findings, id)
    case TargetFindingUnresolved(id) => id in p.targetFindingIds && !Settled(c.result.findings, id)
    case ScopeViolationIncreased => c.result.scopeViolationCount > b.result.scopeViolationCount
    case RequiredEvidenceLost(id) => EvidenceRequired(b, c, id) && !HasEvidence(c.result, id)
    case UnauthorizedWrite(path) => path in c.result.observedWrites && !Authorized(p, path)
    case NoOpCandidate =>
      p.requireProductChange != Some(false) && c.result.productContentHash == b.result.productContentHash
    case BlockingScoreNotImproved =>
      var before, after := BlockingScore(b.result.findings), BlockingScore(c.result.findings);
      after > before || (after == before && !AllTargetsSettled(c, p))
    case BlockingLimitExceeded => OpenBlockingCount(c.result.findings) > p.maxBlockingFindings
    case CostLimitExceeded => p.maxCostUsd.Some? && c.result.costUsd > p.maxCostUsd.value
    case LatencyLimitExceeded => p.maxLatencyMs.Some? && c.result.latencyMs > p.maxLatencyMs.value
  }

  /** The gate lets a candidate through when it reports nothing. */
  ghost predicate Passes(b: BundleContent, c: BundleContent, p: Policy) {
    forall v :: !Violates(b, c, p, v)
  }

  // ----- what passing means ---------------------------------------------------------

  /** Tenant, run and everything that identifies the verifier. */
  ghost predicate SameContext(b: BundleContent, c: BundleContent) {
    b.tenantId == c.tenantId && b.runId == c.runId && b.verifier == c.verifier
  }

  /** Hard gates that passed and required gates pass now. */
  ghost predicate KeepsGates(b: BundleContent, c: BundleContent, p: Policy) {
    forall id :: WasHardPassed(b.result.gates, id) || id in p.requiredGateIds ==> GatePassed(c.result, id)
  }

  /** Findings that stay keep their identity, open ones stay, none that is open and blocking is new,
      and all targets are settled. */
  ghost predicate KeepsFindings(b: BundleContent, c: BundleContent, p: Policy) {
    var before, after := b.result.findings, c.result.findings;
    && (forall f, g :: f in before && g in after && f.id == g.id ==> Identity(f) == Identity(g))
    && (forall f :: f in before && f.status == Open ==> HasFinding(after, f.id))
    && (forall f :: f in after && OpenBlocking(f) ==> HasFinding(before, f.id))
    && AllTargetsSettled(c, p)
  }

  /** Required evidence is there and only authorised paths were written. */
  ghost predicate KeepsEvidence(b: BundleContent, c: BundleContent, p: Policy) {
    && (forall id :: EvidenceRequired(b, c, id) ==> HasEvidence(c.result, id))
    && (forall path :: path in c.result.observedWrites ==> Authorized(p, path))
  }

  /** The score and the scope violations have not risen, the product changed where it must, and the
      limits are kept. */
  ghost predicate KeepsLimits(b: BundleContent, c: BundleContent, p: Policy) {
    && BlockingScore(c.result.findings) <= BlockingScore(b.result.findings)
    && c.result.scopeViolationCount <= b.result.scopeViolationCount
    && (p.requireProductChange != Some(false) ==> c.result.productContentHash != b.result.productContentHash)
    && OpenBlockingCount(c.result.findings) <= p.maxBlockingFindings
    && (p.maxCostUsd.Some? ==> c.result.costUsd <= p.maxCostUsd.value)
    && (p.maxLatencyMs.Some? ==> c.result.latencyMs <= p.maxLatencyMs.value)
  }

  ghost predicate Meets(b: BundleContent, c: BundleContent, p: Policy) {
    && SameContext(b, c) && c.result.outcome == Passed
    && KeepsGates(b, c, p) && KeepsFindings(b, c, p) && KeepsEvidence(b, c, p) && KeepsLimits(b, c, p)
  }

  /** Reporting nothing is the same as meeting every rule. */
  lemma PassingFacts(b: BundleContent, c: BundleContent, p: Policy)
    ensures Passes(b, c, p) <==> Meets(b, c, p)
  {
    if Passes(b, c, p) {
      SameVerifier(b, c, p);
      PassingKeepsGates(b, c, p);
      PassingKeepsFindings(b, c, p);
      PassingKeepsEvidence(b, c, p);
      PassingKeepsLimits(b, c, p);
      hide KeepsGates, KeepsFindings, KeepsEvidence, KeepsLimits;
      assert !Violates(b, c, p, TenantContextChanged) && !Violates(b, c, p, RunContextChanged);
      assert !Violates(b, c, p, OutcomeNotPassed);
    }
    if Meets(b, c, p) {
      MeetingPasses(b, c, p);
    }
  }

  lemma PassingKeepsGates(b: BundleContent, c: BundleContent, p: Policy)
    requires Passes(b, c, p)
    ensures KeepsGates(b, c, p)
  {
    hide GatePassed, WasHardPassed;
    forall id | WasHardPassed(b.result.gates, id) || id in p.requiredGateIds ensures GatePassed(c.result, id) {
      assert !Violates(b, c, p, HardGateRegression(id)) && !Violates(b, c, p, RequiredGateNotPassed(id));
    }
  }

  lemma PassingKeepsFindings(b: BundleContent, c: BundleContent, p: Policy)
    requires Passes(b, c, p)
    ensures KeepsFindings(b, c, p)
  {
    hide BlockingScore, OpenBlockingCount, Authorized;
    forall id | id in p.targetFindingIds ensures Settled(c.result.findings, id) {
      assert !Violates(b, c, p, TargetFindingUnresolved(id));
    }
    forall f | f in b.result.findings && f.status == Open ensures HasFinding(c.result.findings, f.id) {
      assert !Violates(b, c, p, OpenFindingDisappeared(f.id));
    }
    forall f | f in c.result.findings && OpenBlocking(f) ensures HasFinding(b.result.findings, f.id) {
      assert !Violates(b, c, p, NewBlockingFinding(f.id));
    }
    forall f, g | f in b.result.findings && g in c.result.findings && f.id == g.id ensures Identity(f) == Identity(g) {
      assert !Violates(b, c, p, FindingIdentityChanged(f.id));
    }
  }

  lemma PassingKeepsEvidence(b: BundleContent, c: BundleContent, p: Policy)
    requires Passes(b, c, p)
    ensures KeepsEvidence(b, c, p)
  {
    hide EvidenceRequired, HasEvidence, Authorized;
    forall id | EvidenceRequired(b, c, id) ensures HasEvidence(c.result, id) {
      assert !Violates(b, c, p, RequiredEvidenceLost(id));
    }
    forall path | path in c.result.observedWrites ensures Authorized(p, path) {
      assert !Violates(b, c, p, UnauthorizedWrite(path));
    }
  }

  lemma PassingKeepsLimits(b: BundleContent, c: BundleContent, p: Policy)
    requires Passes(b, c, p)
    ensures KeepsLimits(b, c, p)
  {
    hide BlockingScore, OpenBlockingCount, Authorized, AllTargetsSettled;
    assert !Violates(b, c, p, BlockingScoreNotImproved) && !Violates(b, c, p, ScopeViolationIncreased);
    assert !Violates(b, c, p, NoOpCandidate) && !Violates(b, c, p, BlockingLimitExceeded);
    assert !Violates(b, c, p, CostLimitExceeded) && !Violates(b, c, p, LatencyLimitExceeded);
  }

  lemma MeetingPasses(b: BundleContent, c: BundleContent, p: Policy)
    requires Meets(b, c, p)
    ensures Passes(b, c, p)
  {
    hide BlockingScore, OpenBlockingCount, Authorized, GatePassed, WasHardPassed, EvidenceRequired, HasEvidence,
      Identity;
  }

  lemma SameVerifier(b: BundleContent, c: BundleContent, p: Policy)
    requires Passes(b, c, p)
    ensures b.verifier == c.verifier
  {
    assert !Violates(b, c, p, VerifierChanged(IdField)) && !Violates(b, c, p, VerifierChanged(VersionField));
    assert !Violates(b, c, p, VerifierChanged(OwnerField)) && !Violates(b, c, p, VerifierChanged(VisibilityField));
    assert !Violates(b, c, p, VerifierChanged(PolicyField)) && !Violates(b, c, p, VerifierChanged(ImageField));
  }

  /** A tie of the scores never decides alone: an unsettled target is reported for itself as well. */
  lemma TieIsNeverDecisive(b: BundleContent, c: BundleContent, p: Policy)
    requires forall v :: Violates(b, c, p, v) ==> v == BlockingScoreNotImproved
    ensures Passes(b, c, p) <==> BlockingScore(c.result.findings) <= BlockingScore(b.result.findings)
  {
    hide BlockingScore;
    forall id | id in p.targetFindingIds ensures Settled(c.result.findings, id) {
      assert !Violates(b, c, p, TargetFindingUnresolved(id));
    }
    assert Violates(b, c, p, BlockingScoreNotImproved) <==>
      BlockingScore(c.result.findings) > BlockingScore(b.result.findings);
  }

  /** No requirement, written either way. */
  predicate NoRequirement(requirement: Option<string>) {
    requirement == None || requirement == Some("")
  }

  /** The gate reports a changed identity exactly when some finding kept its id and has another verifier, requirement,
      class, severity or reason code. */
  lemma IdentityChangedMeans(b: BundleContent, c: BundleContent, p: Policy, id: string)
    ensures Violates(b, c, p, FindingIdentityChanged(id)) <==>
      exists f, g :: f in b.result.findings && g in c.result.findings && f.id == id && g.id == id &&
        (|| f.verifierId != g.verifierId || f.findingClass != g.findingClass
         || f.severity != g.severity || f.reasonCode != g.reasonCode
         || (f.requirementId != g.requirementId && !(NoRequirement(f.requirementId) && NoRequirement(g.requirementId))))
  {
    assert forall f, g :: Identity(f) != Identity(g) <==>
      (|| f.verifierId != g.verifierId || f.findingClass != g.findingClass
       || f.severity != g.severity || f.reasonCode != g.reasonCode
       || (f.requirementId != g.requirementId && !(NoRequirement(f.requirementId) && NoRequirement(g.requirementId))));
    hide Identity;
  }

  /** The gate reports a written path exactly when no authorised pattern is a star, the path itself, or a directory
      above it. */
  lemma UnauthorizedMeans(b: BundleContent, c: BundleContent, p: Policy, path: string)
    ensures Violates(b, c, p, UnauthorizedWrite(path)) <==>
      path in c.result.observedWrites && !Covered(p.authorizedWritePatterns, path)
  {
    SomeMatchesIffCovered(p.authorizedWritePatterns, path);
  }

  // ----- histories ------------------------------------------------------------------

  /** Each bundle passed the gate against the one promoted before it. */
  ghost predicate PromotedChain(chain: seq<BundleContent>, policies: seq<Policy>) {
    |policies| + 1 == |chain| && forall i :: 0 <= i < |policies| ==> Passes(chain[i], chain[i + 1], policies[i])
  }

  /** Along any chain of promotions, under whatever policies, the score and the scope violations never
      rise, the context never changes, and the open blocking findings stay under the initial score. */
  lemma {:induction false} ChainIsMonotonic(chain: seq<BundleContent>, policies: seq<Policy>, i: nat, j: nat)
    requires PromotedChain(chain, policies) && i <= j < |chain|
    ensures SameContext(chain[i], chain[j])
    ensures BlockingScore(chain[j].result.findings) <= BlockingScore(chain[i].result.findings)
    ensures chain[j].result.scopeViolationCount <= chain[i].result.scopeViolationCount
    ensures 1000 * OpenBlockingCount(chain[j].result.findings) <= BlockingScore(chain[i].result.findings)
    decreases j
  {
    ScoreMeaning(chain[j].result.findings);
    if i < j {
      ChainIsMonotonic(chain, policies, i, j - 1);
      assert Passes(chain[j - 1], chain[j - 1 + 1], policies[j - 1]);
      PassingFacts(chain[j - 1], chain[j], policies[j - 1]);
      hide Passes, BlockingScore, OpenBlockingCount;
    }
  }
}

/** Computing the decision of the monotonic candidate gate, rule by rule. */
module GateEvaluation {
  import opened Ordering
  import opened Outcomes
  import opened Guard

  // ----- integrity ------------------------------------------------------------------

  ghost predicate Repeated(ids: seq<string>, id: string) {
    exists i, j :: 0 <= i < j < |ids| && ids[i] == id == ids[j]
  }

  method AssertUnique(ids: seq<string>) returns (duplicate: Option<string>)
    ensures duplicate == None <==> Distinct(ids)
    ensures duplicate.Some? ==> Repeated(ids, duplicate.value)
  {
    var seen: set<string> := {};
    for k := 0 to |ids|
      invariant Distinct(ids[..k]) && seen == Elements(ids[..k])
    {
      TakeMore(ids, k);
      if ids[k] in seen {
        var i :| 0 <= i < k && ids[..k][i] == ids[k];
        return Some(ids[k]);
      }
      ElementsAppend(ids[..k], ids[k]);
      seen := seen + {ids[k]};
    }
    TakeAll(ids);
    return None;
  }

  method FirstUnprovided(available: set<string>, artifactIds: seq<string>) returns (missing: Option<string>)
    ensures missing == None <==> forall a :: a in artifactIds ==> a in available
    ensures missing.Some? ==> missing.value in artifactIds && missing.value !in available
  {
    for k := 0 to |artifactIds|
      invariant forall i :: 0 <= i < k ==> artifactIds[i] in available
    {
      if artifactIds[k] !in available {
        return Some(artifactIds[k]);
      }
    }
    return None;
  }

  datatype IntegrityError =
    | DuplicateId(id: string)
    | ForeignFinding(findingId: string)
    | MissingEvidenceArtifact(ownerId: string, artifactId: string)
    | BundleDigestMismatch

  ghost predicate OwnersProvided(c: BundleContent) {
    && (forall f :: f in c.result.findings ==> Provided(c.result.evidence, f.evidenceArtifactIds))
    && (forall g :: g in c.result.gates ==> Provided(c.result.evidence, g.evidenceArtifactIds))
  }

  /** A finding or gate refers to an artifact that no evidence item has. */
  ghost predicate Lacks(c: BundleContent, ownerId: string, artifactId: string) {
    && (forall e :: e in c.result.evidence ==> e.artifactId != artifactId)
    && (|| (exists f :: f in c.result.findings && f.id == ownerId && artifactId in f.evidenceArtifactIds)
        || (exists g :: g in c.result.gates && g.id == ownerId && artifactId in g.evidenceArtifactIds))
  }

  ghost predicate IsForeign(c: BundleContent, findingId: string) {
    exists f :: f in c.result.findings && f.id == findingId && f.verifierId != c.verifier.id
  }

  ghost predicate IdsDistinct(c: BundleContent) {
    && FindingIdsDistinct(c.result.findings) && GateIdsDistinct(c.result.gates)
    && EvidenceIdsDistinct(c.result.evidence) && Distinct(c.requiredEvidenceIds)
  }

  /** What the refusal of a bundle names: a repeated id, else a foreign finding, else missing evidence, else the
      digest. */
  ghost predicate Flawed(b: EvidenceBundle, flaw: IntegrityError) {
    var c := b.content;
    if !IdsDistinct(c) then
      flaw.DuplicateId?
      && (|| Repeated(FindingIds(c.result.findings), flaw.id) || Repeated(GateIds(c.result.gates), flaw.id)
          || Repeated(EvidenceIds(c.result.evidence), flaw.id) || Repeated(c.requiredEvidenceIds, flaw.id))
    else if exists f :: f in c.result.findings && f.verifierId != c.verifier.id then
      flaw.ForeignFinding? && IsForeign(c, flaw.findingId)
    else if !OwnersProvided(c) then flaw.MissingEvidenceArtifact? && Lacks(c, flaw.ownerId, flaw.artifactId)
    else flaw == BundleDigestMismatch && b.bundleId != DigestOf(c)
  }

  method CheckOwners(c: BundleContent) returns (error: Option<IntegrityError>)
    ensures error == None <==> OwnersProvided(c)
    ensures error.Some? ==>
      error.value.MissingEvidenceArtifact? && Lacks(c, error.value.ownerId, error.value.artifactId)
  {
    var available := set e | e in c.result.evidence :: e.artifactId;
    var fs, gs := c.result.findings, c.result.gates;
    for k := 0 to |fs|
      invariant forall i :: 0 <= i < k ==> Provided(c.result.evidence, fs[i].evidenceArtifactIds)
    {
      var missing := FirstUnprovided(available, fs[k].evidenceArtifactIds);
      assert missing == None <==> Provided(c.result.evidence, fs[k].evidenceArtifactIds);
      if missing.Some? {
        assert fs[k] in fs;
        return Some(MissingEvidenceArtifact(fs[k].id, missing.value));
      }
    }
    for k := 0 to |gs|
      invariant forall i :: 0 <= i < k ==> Provided(c.result.evidence, gs[i].evidenceArtifactIds)
    {
      var missing := FirstUnprovided(available, gs[k].evidenceArtifactIds);
      assert missing == None <==> Provided(c.result.evidence, gs[k].evidenceArtifactIds);
      if missing.Some? {
        assert gs[k] in gs;
        return Some(MissingEvidenceArtifact(gs[k].id, missing.value));
      }
    }
    return None;
  }

  method CheckVerifierIds(c: BundleContent) returns (foreign: Option<string>)
    ensures foreign == None <==> forall f :: f in c.result.findings ==> f.verifierId == c.verifier.id
    ensures foreign.Some? ==> IsForeign(c, foreign.value)
  {
    var fs := c.result.findings;
    for k := 0 to |fs|
      invariant forall i :: 0 <= i < k ==> fs[i].verifierId == c.verifier.id
    {
      if fs[k].verifierId != c.verifier.id {
        return Some(fs[k].id);
      }
    }
    return None;
  }

  function FindingIds(fs: seq<Finding>): seq<string> {
    seq(|fs|, i requires 0 <= i < |fs| => fs[i].id)
  }

  function GateIds(gs: seq<Gate>): seq<string> {
    seq(|gs|, i requires 0 <= i < |gs| => gs[i].id)
  }

  function EvidenceIds(es: seq<EvidenceItem>): seq<string> {
    seq(|es|, i requires 0 <= i < |es| => es[i].id)
  }

  lemma IdListsDistinct(c: BundleContent)
    ensures Distinct(FindingIds(c.result.findings)) <==> FindingIdsDistinct(c.result.findings)
    ensures Distinct(GateIds(c.result.gates)) <==> GateIdsDistinct(c.result.gates)
    ensures Distinct(EvidenceIds(c.result.evidence)) <==> EvidenceIdsDistinct(c.result.evidence)
  {
    var fs, gs, es := FindingIds(c.result.findings), GateIds(c.result.gates), EvidenceIds(c.result.evidence);
    assert forall i :: 0 <= i < |fs| ==> fs[i] == c.result.findings[i].id;
    assert forall i :: 0 <= i < |gs| ==> gs[i] == c.result.gates[i].id;
    assert forall i :: 0 <= i < |es| ==> es[i] == c.result.evidence[i].id;
  }

  method VerifyEvidenceBundleIntegrity(b: EvidenceBundle) returns (error: Option<IntegrityError>)
    ensures error == None <==> Intact(b)
    ensures error.Some? ==> Flawed(b, error.value)
  {
    var c := b.content;
    IdListsDistinct(c);
    hide Repeated, IsForeign, Lacks, Provided, Distinct, FindingIdsDistinct, GateIdsDistinct, EvidenceIdsDistinct;
    var duplicate := AssertUnique(FindingIds(c.result.findings));
    if duplicate.Some? {
      return Some(DuplicateId(duplicate.value));
    }
    duplicate := AssertUnique(GateIds(c.result.gates));
    if duplicate.Some? {
      return Some(DuplicateId(duplicate.value));
    }
    duplicate := AssertUnique(EvidenceIds(c.result.evidence));
    if duplicate.Some? {
      return Some(DuplicateId(duplicate.value));
    }
    duplicate := AssertUnique(c.requiredEvidenceIds);
    if duplicate.Some? {
      return Some(DuplicateId(duplicate.value));
    }
    var foreign := CheckVerifierIds(c);
    if foreign.Some? {
      return Some(ForeignFinding(foreign.value));
    }
    error := CheckOwners(c);
    if error.Some? {
      return;
    }
    if b.bundleId != DigestOf(c) {
      return Some(BundleDigestMismatch);
    }
    return None;
  }

  // ----- lookups --------------------------------------------------------------------

  /** A later gate with the same id replaces an earlier one. */
  function GatesById(gs: seq<Gate>): map<string, Gate> {
    if gs == [] then map[] else GatesById(gs[..|gs| - 1])[gs[|gs| - 1].id := gs[|gs| - 1]]
  }

  lemma {:induction false} GatesByIdExact(gs: seq<Gate>)
    requires GateIdsDistinct(gs)
    ensures forall g :: g in gs ==> g.id in GatesById(gs) && GatesById(gs)[g.id] == g
    ensures forall id :: id in GatesById(gs) ==> GatesById(gs)[id] in gs && GatesById(gs)[id].id == id
  {
    if gs != [] {
      GatesByIdExact(gs[..|gs| - 1]);
      SplitLast(gs);
    }
  }

  /** A later finding with the same id replaces an earlier one. */
  function FindingsById(fs: seq<Finding>): map<string, Finding> {
    if fs == [] then map[] else FindingsById(fs[..|fs| - 1])[fs[|fs| - 1].id := fs[|fs| - 1]]
  }

  lemma {:induction false} FindingsByIdExact(fs: seq<Finding>)
    requires FindingIdsDistinct(fs)
    ensures forall f :: f in fs ==> f.id in FindingsById(fs) && FindingsById(fs)[f.id] == f
    ensures forall id :: id in FindingsById(fs) ==> FindingsById(fs)[id] in fs && FindingsById(fs)[id].id == id
  {
    if fs != [] {
      FindingsByIdExact(fs[..|fs| - 1]);
      SplitLast(fs);
    }
  }

  // ----- the rules ------------------------------------------------------------------

  datatype Rule =
    | VerifierRule | ContextRule | HardGateRule | RequiredGateRule | IdentityRule | DisappearedRule
    | NewBlockingRule | TargetRule | EvidenceRule | WriteRule | LimitRule

  function RuleOf(v: Violation): Rule {
    match v
    case VerifierChanged(_) => VerifierRule
    case TenantContextChanged => ContextRule
    case RunContextChanged => ContextRule
    case OutcomeNotPassed => ContextRule
    case HardGateRegression(_) => HardGateRule
    case RequiredGateNotPassed(_) => RequiredGateRule
    case FindingIdentityChanged(_) => IdentityRule
    case OpenFindingDisappeared(_) => DisappearedRule
    case NewBlockingFinding(_) => NewBlockingRule
    case TargetFindingUnresolved(_) => TargetRule
    case RequiredEvidenceLost(_) => EvidenceRule
    case UnauthorizedWrite(_) => WriteRule
    case _ => LimitRule
  }

  /** `vs` holds exactly the violations of one rule. */
  ghost predicate Reports(b: BundleContent, c: BundleContent, p: Policy, vs: seq<Violation>, rule: Rule) {
    forall v :: v in vs <==> RuleOf(v) == rule && Violates(b, c, p, v)
  }

  method CompareVerifier(b: BundleContent, c: BundleContent, p: Policy) returns (vs: seq<Violation>)
    ensures Reports(b, c, p, vs, VerifierRule)
  {
    var fields := [IdField, VersionField, OwnerField, VisibilityField, PolicyField, ImageField];
    vs := [];
    for k := 0 to |fields|
      invariant forall v: Violation :: v in vs <==>
        v.VerifierChanged? && v.verifierField in fields[..k] && Violates(b, c, p, v)
    {
      TakeMore(fields, k);
      if FieldText(b.verifier, fields[k]) != FieldText(c.verifier, fields[k]) {
        vs := vs + [VerifierChanged(fields[k])];
      }
    }
    TakeAll(fields);
    forall f: VerifierField ensures f in fields {
      assert f == fields[0] || f == fields[1] || f == fields[2] || f == fields[3] || f == fields[4] || f == fields[5];
    }
  }

  method CompareContext(b: BundleContent, c: BundleContent, p: Policy) returns (vs: seq<Violation>)
    ensures Reports(b, c, p, vs, ContextRule)
  {
    vs := [];
    if b.tenantId != c.tenantId {
      vs := vs + [TenantContextChanged];
    }
    if b.runId != c.runId {
      vs := vs + [RunContextChanged];
    }
    if c.result.outcome != Passed {
      vs := vs + [OutcomeNotPassed];
    }
  }

  predicate PassedIn(gates: map<string, Gate>, id: string) {
    id in gates && gates[id].status == Passed
  }

  lemma PassedInIsGatePassed(r: VerifierResult)
    requires GateIdsDistinct(r.gates)
    ensures forall id :: PassedIn(GatesById(r.gates), id) <==> GatePassed(r, id)
  {
    GatesByIdExact(r.gates);
    hide GatesById;
  }

  method CompareHardGates(b: BundleContent, c: BundleContent, p: Policy) returns (vs: seq<Violation>)
    requires GateIdsDistinct(c.result.gates)
    ensures Reports(b, c, p, vs, HardGateRule)
  {
    var gates, after := b.result.gates, GatesById(c.result.gates);
    PassedInIsGatePassed(c.result);
    hide GatesById, GatePassed, PassedIn;
    vs := [];
    for k := 0 to |gates|
      invariant forall v: Violation :: v in vs <==>
        v.HardGateRegression? && !GatePassed(c.result, v.gateId) && WasHardPassed(gates[..k], v.gateId)
    {
      TakeMore(gates, k);
      var g := gates[k];
      if g.hard && g.status == Passed && !PassedIn(after, g.id) {
        vs := vs + [HardGateRegression(g.id)];
      }
    }
    TakeAll(gates);
  }

  method CheckRequiredGates(b: BundleContent, c: BundleContent, p: Policy) returns (vs: seq<Violation>)
    requires GateIdsDistinct(c.result.gates)
    ensures Reports(b, c, p, vs, RequiredGateRule)
  {
    var after := GatesById(c.result.gates);
    var ids := EnumerateSorted(Elements(p.requiredGateIds));
    vs := NotPassed(ids, after);
    PassedInIsGatePassed(c.result);
    hide GatesById, SortedKeys, GatePassed, PassedIn;
    forall id ensures id in ids <==> id in p.requiredGateIds {
      assert id in Elements(ids) <==> id in Elements(p.requiredGateIds);
    }
  }

  method NotPassed(ids: seq<string>, gates: map<string, Gate>) returns (vs: seq<Violation>)
    ensures forall v: Violation :: v in vs <==>
      v.RequiredGateNotPassed? && v.gateId in ids && !PassedIn(gates, v.gateId)
  {
    vs := [];
    for k := 0 to |ids|
      invariant forall v: Violation :: v in vs <==>
        v.RequiredGateNotPassed? && v.gateId in ids[..k] && !PassedIn(gates, v.gateId)
    {
      TakeMore(ids, k);
      if !PassedIn(gates, ids[k]) {
        vs := vs + [RequiredGateNotPassed(ids[k])];
      }
    }
    TakeAll(ids);
  }

  method CompareIdentities(b: BundleContent, c: BundleContent, p: Policy) returns (vs: seq<Violation>)
    requires FindingIdsDistinct(c.result.findings)
    ensures Reports(b, c, p, vs, IdentityRule)
  {
    var fs, after := b.result.findings, FindingsById(c.result.findings);
    FindingsByIdExact(c.result.findings);
    hide FindingsById, Identity;
    vs := [];
    for k := 0 to |fs|
      invariant forall v: Violation :: v in vs <==>
        v.FindingIdentityChanged? && IdentityChanged(fs[..k], c.result.findings, v.findingId)
    {
      TakeMore(fs, k);
      var f := fs[k];
      if f.id in after && Identity(f) != Identity(after[f.id]) {
        vs := vs + [FindingIdentityChanged(f.id)];
      }
    }
    TakeAll(fs);
  }

  datatype Reconciliation = Reconciliation(resolvedIds: seq<string>, introducedIds: seq<string>,
      missingOpenIds: seq<string>)

  /** Open before and settled now; new; open before and gone. */
  ghost predicate Reconciles(before: seq<Finding>, after: seq<Finding>, r: Reconciliation) {
    && (forall id :: id in r.resolvedIds <==> IsOpen(before, id) && Settled(after, id))
    && (forall id :: id in r.introducedIds <==> HasFinding(after, id) && !HasFinding(before, id))
    && (forall id :: id in r.missingOpenIds <==> IsOpen(before, id) && !HasFinding(after, id))
    && Sorted(r.resolvedIds, StrLe) && Sorted(r.introducedIds, StrLe) && Sorted(r.missingOpenIds, StrLe)
  }

  method OpenBefore(before: seq<Finding>, after: map<string, Finding>)
    returns (resolved: seq<string>, missing: seq<string>)
    ensures forall id :: id in resolved <==> IsOpen(before, id) && id in after && after[id].status != Open
    ensures forall id :: id in missing <==> IsOpen(before, id) && id !in after
  {
    resolved, missing := [], [];
    for k := 0 to |before|
      invariant forall id :: id in resolved <==> IsOpen(before[..k], id) && id in after && after[id].status != Open
      invariant forall id :: id in missing <==> IsOpen(before[..k], id) && id !in after
    {
      TakeMore(before, k);
      var f := before[k];
      if f.status == Open {
        if f.id !in after {
          missing := missing + [f.id];
        } else if after[f.id].status != Open {
          resolved := resolved + [f.id];
        }
      }
    }
    TakeAll(before);
  }

  method Introduced(before: map<string, Finding>, after: seq<Finding>) returns (ids: seq<string>)
    ensures forall id :: id in ids <==> HasFinding(after, id) && id !in before
  {
    ids := [];
    for k := 0 to |after|
      invariant forall id :: id in ids <==> (exists i :: 0 <= i < k && after[i].id == id) && id !in before
    {
      if after[k].id !in before {
        ids := ids + [after[k].id];
      }
    }
  }

  method SortIds(ids: seq<string>) returns (r: seq<string>)
    ensures Sorted(r, StrLe) && forall id :: id in r <==> id in ids
  {
    r := Sort(ids, StrLe);
    SortMultiset(ids, StrLe);
    StrLeIsTotalPreorder();
    SortSorted(ids, StrLe);
  }

  method ReconcileFindings(before: seq<Finding>, after: seq<Finding>) returns (r: Reconciliation)
    requires FindingIdsDistinct(before) && FindingIdsDistinct(after)
    ensures Reconciles(before, after, r)
  {
    var beforeById, afterById := FindingsById(before), FindingsById(after);
    FindingsByIdExact(before);
    FindingsByIdExact(after);
    hide FindingsById, StrLe;
    var resolved, missing := OpenBefore(before, afterById);
    var introduced := Introduced(beforeById, after);
    var resolvedIds := SortIds(resolved);
    var introducedIds := SortIds(introduced);
    var missingOpenIds := SortIds(missing);
    return Reconciliation(resolvedIds, introducedIds, missingOpenIds);
  }

  method CheckMissing(b: BundleContent, c: BundleContent, p: Policy, r: Reconciliation) returns (vs: seq<Violation>)
    requires Reconciles(b.result.findings, c.result.findings, r)
    ensures Reports(b, c, p, vs, DisappearedRule)
  {
    var ids := r.missingOpenIds;
    vs := [];
    for k := 0 to |ids|
      invariant forall v: Violation :: v in vs <==> v.OpenFindingDisappeared? && v.findingId in ids[..k]
    {
      TakeMore(ids, k);
      vs := vs + [OpenFindingDisappeared(ids[k])];
    }
    TakeAll(ids);
    hide Reconciles;
  }

  method CheckNewBlocking(b: BundleContent, c: BundleContent, p: Policy) returns (vs: seq<Violation>)
    ensures Reports(b, c, p, vs, NewBlockingRule)
  {
    var known := set f | f in b.result.findings :: f.id;
    var fs := c.result.findings;
    vs := [];
    for k := 0 to |fs|
      invariant forall v: Violation :: v in vs <==>
        v.NewBlockingFinding? && v.findingId !in known && IsOpenBlocking(fs[..k], v.findingId)
    {
      TakeMore(fs, k);
      if fs[k].id !in known && fs[k].status == Open && fs[k].severity == Blocking {
        vs := vs + [NewBlockingFinding(fs[k].id)];
      }
    }
    TakeAll(fs);
    assert forall id :: id in known <==> HasFinding(b.result.findings, id);
  }

  /** The status of the first finding with the id. */
  method StatusOf(fs: seq<Finding>, id: string) returns (status: Option<FindingStatus>)
    requires FindingIdsDistinct(fs)
    ensures status.Some? && status.value != Open <==> Settled(fs, id)
  {
    for k := 0 to |fs|
      invariant forall i :: 0 <= i < k ==> fs[i].id != id
    {
      if fs[k].id == id {
        assert forall f :: f in fs && f.id == id ==> f == fs[k];
        return Some(fs[k].status);
      }
    }
    return None;
  }

  method CheckTargets(b: BundleContent, c: BundleContent, p: Policy) returns (vs: seq<Violation>)
    requires FindingIdsDistinct(c.result.findings)
    ensures Reports(b, c, p, vs, TargetRule)
  {
    var ids := EnumerateSorted(Elements(p.targetFindingIds));
    hide SortedKeys, FindingIdsDistinct, Settled;
    vs := [];
    for k := 0 to |ids|
      invariant forall v: Violation :: v in vs <==>
        v.TargetFindingUnresolved? && v.findingId in ids[..k] && !Settled(c.result.findings, v.findingId)
    {
      TakeMore(ids, k);
      var status := StatusOf(c.result.findings, ids[k]);
      if !(status.Some? && status.value != Open) {
        vs := vs + [TargetFindingUnresolved(ids[k])];
      }
    }
    TakeAll(ids);
    forall id ensures id in ids <==> id in p.targetFindingIds {
      assert id in Elements(ids) <==> id in Elements(p.targetFindingIds);
    }
  }

  method CheckEvidence(b: BundleContent, c: BundleContent, p: Policy) returns (vs: seq<Violation>)
    ensures Reports(b, c, p, vs, EvidenceRule)
  {
    var required := Elements(b.requiredEvidenceIds) + (set e | e in b.result.evidence && e.required :: e.id)
      + Elements(c.requiredEvidenceIds);
    var present := set e | e in c.result.evidence :: e.id;
    var ids := EnumerateSorted(required);
    hide SortedKeys;
    vs := [];
    for k := 0 to |ids|
      invariant forall v: Violation :: v in vs <==>
        v.RequiredEvidenceLost? && v.evidenceId in ids[..k] && v.evidenceId !in present
    {
      TakeMore(ids, k);
      if ids[k] !in present {
        vs := vs + [RequiredEvidenceLost(ids[k])];
      }
    }
    TakeAll(ids);
    forall id ensures id in ids <==> EvidenceRequired(b, c, id) {
      assert id in Elements(ids) <==> id in required;
    }
    assert forall id :: id in present <==> HasEvidence(c.result, id);
  }

  method CheckWrites(b: BundleContent, c: BundleContent, p: Policy) returns (vs: seq<Violation>)
    ensures Reports(b, c, p, vs, WriteRule)
  {
    var paths := c.result.observedWrites;
    hide Authorized;
    vs := [];
    for k := 0 to |paths|
      invariant forall v: Violation :: v in vs <==>
        v.UnauthorizedWrite? && v.path in paths[..k] && !Authorized(p, v.path)
    {
      TakeMore(paths, k);
      if !Authorized(p, paths[k]) {
        vs := vs + [UnauthorizedWrite(paths[k])];
      }
    }
    TakeAll(paths);
  }

  method AllSettled(fs: seq<Finding>, ids: seq<string>) returns (all: bool)
    requires FindingIdsDistinct(fs)
    ensures all <==> forall id :: id in ids ==> Settled(fs, id)
  {
    for k := 0 to |ids|
      invariant forall i :: 0 <= i < k ==> Settled(fs, ids[i])
    {
      var status := StatusOf(fs, ids[k]);
      if !(status.Some? && status.value != Open) {
        return false;
      }
    }
    return true;
  }

  method CheckLimits(b: BundleContent, c: BundleContent, p: Policy) returns (vs: seq<Violation>)
    requires FindingIdsDistinct(c.result.findings)
    ensures Reports(b, c, p, vs, LimitRule)
  {
    hide BlockingScore, OpenBlockingCount, FindingIdsDistinct, Settled, GatePassed;
    var before, after := BlockingScore(b.result.findings), BlockingScore(c.result.findings);
    var settled := AllSettled(c.result.findings, p.targetFindingIds);
    vs := LimitsExceeded(
      c.result.scopeViolationCount > b.result.scopeViolationCount,
      p.requireProductChange != Some(false) && c.result.productContentHash == b.result.productContentHash,
      after > before || (after == before && !settled),
      OpenBlockingCount(c.result.findings) > p.maxBlockingFindings,
      p.maxCostUsd.Some? && c.result.costUsd > p.maxCostUsd.value,
      p.maxLatencyMs.Some? && c.result.latencyMs > p.maxLatencyMs.value);
  }

  method LimitsExceeded(scope: bool, noOp: bool, score: bool, blocking: bool, cost: bool, latency: bool)
    returns (vs: seq<Violation>)
    ensures forall v :: v in vs <==>
      || (v == ScopeViolationIncreased && scope) || (v == NoOpCandidate && noOp)
      || (v == BlockingScoreNotImproved && score) || (v == BlockingLimitExceeded && blocking)
      || (v == CostLimitExceeded && cost) || (v == LatencyLimitExceeded && latency)
  {
    vs := When([], scope, ScopeViolationIncreased);
    vs := When(vs, noOp, NoOpCandidate);
    vs := When(vs, score, BlockingScoreNotImproved);
    vs := When(vs, blocking, BlockingLimitExceeded);
    vs := When(vs, cost, CostLimitExceeded);
    vs := When(vs, latency, LatencyLimitExceeded);
  }

  method When(vs: seq<Violation>, condition: bool, v: Violation) returns (r: seq<Violation>)
    ensures forall x :: x in r <==> x in vs || (condition && x == v)
  {
    r := if condition then vs + [v] else vs;
  }

  // ----- the decision ---------------------------------------------------------------

  datatype Decision = Decision(
    passed: bool,
    violations: seq<Violation>,
    baselineBlockingScore: nat,
    candidateBlockingScore: nat,
    baselineOpenBlocking: nat,
    candidateOpenBlocking: nat,
    resolvedFindingIds: seq<string>)

  /** Both bundles must be intact; then every violation and nothing else is reported, and the candidate
      passes exactly when it meets every rule. */
  method EvaluateMonotonicCandidate(baseline: EvidenceBundle, candidate: EvidenceBundle, p: Policy)
    returns (r: Result<Decision, IntegrityError>)
    ensures r.Ok? <==> Intact(baseline) && Intact(candidate)
    ensures r.Err? ==> Flawed(if Intact(baseline) then candidate else baseline, r.error)
    ensures r.Ok? ==> forall v :: v in r.value.violations <==> Violates(baseline.content, candidate.content, p, v)
    ensures r.Ok? ==> (r.value.passed <==> Passes(baseline.content, candidate.content, p))
    ensures r.Ok? ==>
      && r.value.baselineBlockingScore == BlockingScore(baseline.content.result.findings)
      && r.value.candidateBlockingScore == BlockingScore(candidate.content.result.findings)
      && r.value.baselineOpenBlocking == OpenBlockingCount(baseline.content.result.findings)
      && r.value.candidateOpenBlocking == OpenBlockingCount(candidate.content.result.findings)
    ensures r.Ok? ==> forall id :: id in r.value.resolvedFindingIds <==>
      IsOpen(baseline.content.result.findings, id) && Settled(candidate.content.result.findings, id)
  {
    hide Intact, Flawed, Violates, Passes, BlockingScore, OpenBlockingCount, Reports;
    var error := VerifyEvidenceBundleIntegrity(baseline);
    if error.Some? {
      return Err(error.value);
    }
    error := VerifyEvidenceBundleIntegrity(candidate);
    if error.Some? {
      return Err(error.value);
    }
    var b, c := baseline.content, candidate.content;
    IntactIsDistinct(baseline);
    IntactIsDistinct(candidate);
    var reconciliation := ReconcileFindings(b.result.findings, c.result.findings);
    var violations := CollectViolations(b, c, p, reconciliation);
    NoViolationsMeansPassing(b, c, p, violations);
    return Ok(Decision(violations == [], violations, BlockingScore(b.result.findings), BlockingScore(c.result.findings),
      OpenBlockingCount(b.result.findings), OpenBlockingCount(c.result.findings), reconciliation.resolvedIds));
  }

  lemma IntactIsDistinct(b: EvidenceBundle)
    requires Intact(b)
    ensures FindingIdsDistinct(b.content.result.findings) && GateIdsDistinct(b.content.result.gates)
  {
  }

  lemma NoViolationsMeansPassing(b: BundleContent, c: BundleContent, p: Policy, vs: seq<Violation>)
    requires forall v :: v in vs <==> Violates(b, c, p, v)
    ensures vs == [] <==> Passes(b, c, p)
  {
    hide Violates;
    if vs != [] {
      assert Violates(b, c, p, vs[0]);
    }
  }

  method CollectViolations(b: BundleContent, c: BundleContent, p: Policy, r: Reconciliation)
    returns (vs: seq<Violation>)
    requires FindingIdsDistinct(c.result.findings) && GateIdsDistinct(c.result.gates)
    requires Reconciles(b.result.findings, c.result.findings, r)
    ensures forall v :: v in vs <==> Violates(b, c, p, v)
  {
    hide Violates, FindingIdsDistinct, GateIdsDistinct, Reconciles;
    var verifier := CompareVerifier(b, c, p);
    var context := CompareContext(b, c, p);
    var hard := CompareHardGates(b, c, p);
    var required := CheckRequiredGates(b, c, p);
    var identities := CompareIdentities(b, c, p);
    var missing := CheckMissing(b, c, p, r);
    var introduced := CheckNewBlocking(b, c, p);
    var targets := CheckTargets(b, c, p);
    var evidence := CheckEvidence(b, c, p);
    var writes := CheckWrites(b, c, p);
    var limits := CheckLimits(b, c, p);
    vs := verifier + context + hard + required + identities + missing + introduced + targets + evidence + writes
      + limits;
  }
}

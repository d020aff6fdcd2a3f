/** What the candidate gate does not promise over several promotions, and exactly when it does. */
module GatePersistence {
  import opened Ordering
  import opened Outcomes
  import opened Guard

  function Sealed(c: BundleContent): EvidenceBundle {
    EvidenceBundle(DigestOf(c), c)
  }

  /** A candidate the gate lets through against `b`. */
  ghost predicate Accepted(b: BundleContent, c: BundleContent, p: Policy) {
    Intact(Sealed(c)) && Passes(b, c, p)
  }

  // ----- gates ----------------------------------------------------------------------

  function WithoutGate(gs: seq<Gate>, id: string): seq<Gate> {
    if gs == [] then []
    else WithoutGate(gs[..|gs| - 1], id) + (if gs[|gs| - 1].id == id then [] else [gs[|gs| - 1]])
  }

  lemma {:induction false} WithoutGateExact(gs: seq<Gate>, id: string)
    ensures forall g :: g in WithoutGate(gs, id) <==> g in gs && g.id != id
    ensures GateIdsDistinct(gs) ==> GateIdsDistinct(WithoutGate(gs, id))
  {
    if gs != [] {
      WithoutGateExact(gs[..|gs| - 1], id);
      SplitLast(gs);
    }
  }

  function DropGate(c: BundleContent, id: string): BundleContent {
    c.(result := c.result.(gates := WithoutGate(c.result.gates, id)))
  }

  /** A gate nobody insists on can be dropped from a candidate that passes. */
  lemma DroppedGatePasses(b: BundleContent, c: BundleContent, p: Policy, id: string)
    requires Accepted(b, c, p) && !WasHardPassed(b.result.gates, id) && id !in p.requiredGateIds
    ensures Accepted(b, DropGate(c, id), p) && !GatePassed(DropGate(c, id).result, id)
  {
    var d := DropGate(c, id);
    WithoutGateExact(c.result.gates, id);
    PassingFacts(b, c, p);
    PassingFacts(b, d, p);
    hide WithoutGate, Passes, KeepsFindings, BlockingScore, OpenBlockingCount, EvidenceRequired, HasEvidence,
      Authorized, Provided, WasHardPassed;
    forall other | other != id && GatePassed(c.result, other) ensures GatePassed(d.result, other) {
      var g :| g in c.result.gates && g.id == other && g.status == Passed;
      assert g in d.result.gates;
    }
    assert KeepsFindings(b, d, p) by {
      SameFindings(b, c, d, p);
    }
    assert KeepsEvidence(b, d, p) by {
      SameEvidence(b, c, d, p);
    }
  }

  lemma SameFindings(b: BundleContent, c: BundleContent, d: BundleContent, p: Policy)
    requires KeepsFindings(b, c, p) && d.result.findings == c.result.findings
    ensures KeepsFindings(b, d, p)
  {
  }

  lemma SameEvidence(b: BundleContent, c: BundleContent, d: BundleContent, p: Policy)
    requires KeepsEvidence(b, c, p)
    requires d.result.evidence == c.result.evidence && d.result.observedWrites == c.result.observedWrites
    requires d.requiredEvidenceIds == c.requiredEvidenceIds
    ensures KeepsEvidence(b, d, p)
  {
    assert forall id :: EvidenceRequired(b, d, id) <==> EvidenceRequired(b, c, id);
    assert forall id :: HasEvidence(d.result, id) <==> HasEvidence(c.result, id);
  }

  /** Where some candidate passes, every passing candidate passes a gate exactly when the baseline passed it
      as a hard gate or the policy requires it. */
  lemma GateIsKeptIff(b: BundleContent, p: Policy, id: string, some: BundleContent)
    requires Accepted(b, some, p)
    ensures (forall c :: Accepted(b, c, p) ==> GatePassed(c.result, id)) <==>
      (WasHardPassed(b.result.gates, id) || id in p.requiredGateIds)
  {
    if WasHardPassed(b.result.gates, id) || id in p.requiredGateIds {
      forall c | Accepted(b, c, p) ensures GatePassed(c.result, id) {
        PassingFacts(b, c, p);
      }
    } else {
      DroppedGatePasses(b, some, p, id);
      hide Accepted, GatePassed, WasHardPassed, DropGate;
      assert Accepted(b, DropGate(some, id), p);
    }
  }

  /** Wherever the bundle lists the gate, it lists it as hard. */
  ghost predicate ListedHard(c: BundleContent, id: string) {
    forall g :: g in c.result.gates && g.id == id ==> g.hard
  }

  /** Along a chain a passed gate stays passed as long as every bundle on the way still lists it as hard. */
  lemma {:induction false} GateHoldsWhileHard(chain: seq<BundleContent>, policies: seq<Policy>, id: string, i: nat,
      j: nat)
    requires PromotedChain(chain, policies) && i <= j < |chain| && GatePassed(chain[i].result, id)
    requires forall k :: i <= k < j ==> ListedHard(chain[k], id)
    ensures GatePassed(chain[j].result, id)
    decreases j
  {
    if i < j {
      GateHoldsWhileHard(chain, policies, id, i, j - 1);
      assert Passes(chain[j - 1], chain[j - 1 + 1], policies[j - 1]);
      PassingFacts(chain[j - 1], chain[j], policies[j - 1]);
      hide Passes, KeepsFindings, KeepsEvidence, KeepsLimits, SameContext;
      assert ListedHard(chain[j - 1], id);
      var g :| g in chain[j - 1].result.gates && g.id == id && g.status == Passed;
      assert WasHardPassed(chain[j - 1].result.gates, id);
    }
  }

  // ----- findings -------------------------------------------------------------------

  /** Everything resolved except the finding with one id, which is open. */
  function OnlyOpen(fs: seq<Finding>, id: string): seq<Finding> {
    seq(|fs|, i requires 0 <= i < |fs| => fs[i].(status := if fs[i].id == id then Open else Resolved))
  }

  lemma {:induction false} OnlyOpenScore(fs: seq<Finding>, id: string)
    requires FindingIdsDistinct(fs)
    ensures !HasFinding(fs, id) ==> BlockingScore(OnlyOpen(fs, id)) == 0 && OpenBlockingCount(OnlyOpen(fs, id)) == 0
    ensures forall f :: f in fs && f.id == id ==>
      BlockingScore(OnlyOpen(fs, id)) == Weight(f.severity)
      && OpenBlockingCount(OnlyOpen(fs, id)) == if f.severity == Blocking then 1 else 0
    decreases |fs|
  {
    if fs != [] {
      var front, last := fs[..|fs| - 1], fs[|fs| - 1];
      OnlyOpenScore(front, id);
      SplitLast(fs);
      assert OnlyOpen(fs, id)[..|fs| - 1] == OnlyOpen(front, id);
      if last.id == id {
        assert !HasFinding(front, id);
      }
    }
  }

  /** The candidate's findings, with the finding in question added if it is not among them. */
  ghost function WithFinding(fs: seq<Finding>, f: Finding): seq<Finding> {
    if HasFinding(fs, f.id) then fs else fs + [f.(evidenceArtifactIds := [])]
  }

  ghost function Reopened(c: BundleContent, f: Finding): BundleContent {
    c.(result := c.result.(findings := OnlyOpen(WithFinding(c.result.findings, f), f.id)))
  }

  lemma WithFindingFacts(fs: seq<Finding>, f: Finding)
    requires FindingIdsDistinct(fs)
    ensures FindingIdsDistinct(WithFinding(fs, f)) && HasFinding(WithFinding(fs, f), f.id)
    ensures forall g :: g in fs ==> g in WithFinding(fs, f)
    ensures forall g :: g in WithFinding(fs, f) ==> g in fs || g == f.(evidenceArtifactIds := [])
  {
    if !HasFinding(fs, f.id) {
      var added := f.(evidenceArtifactIds := []);
      assert added in fs + [added];
      forall i | 0 <= i < |fs| ensures fs[i].id != f.id {
        assert fs[i] in fs;
      }
    }
  }

  lemma OnlyOpenMembers(fs: seq<Finding>, id: string)
    ensures FindingIdsDistinct(fs) ==> FindingIdsDistinct(OnlyOpen(fs, id))
    ensures forall g :: g in OnlyOpen(fs, id) <==>
      exists f :: f in fs && g == f.(status := if f.id == id then Open else Resolved)
  {
    forall g
      ensures g in OnlyOpen(fs, id) <==> exists f :: f in fs && g == f.(status := if f.id == id then Open else Resolved)
    {
      if f :| f in fs && g == f.(status := if f.id == id then Open else Resolved) {
        var i :| 0 <= i < |fs| && fs[i] == f;
        assert OnlyOpen(fs, id)[i] == g;
      }
    }
  }

  /** The finding may be open again: it is no target, its weight fits the old score, and an open blocking
      finding is allowed if it is one. */
  predicate MayReopen(b: BundleContent, p: Policy, f: Finding) {
    && f.id !in p.targetFindingIds
    && Weight(f.severity) <= BlockingScore(b.result.findings)
    && (f.severity == Blocking ==> p.maxBlockingFindings >= 1)
  }

  lemma ReopenedIsIntact(b: BundleContent, c: BundleContent, f: Finding)
    requires Intact(Sealed(b)) && Intact(Sealed(c)) && f in b.result.findings && b.verifier == c.verifier
    ensures Intact(Sealed(Reopened(c, f)))
  {
    WithFindingFacts(c.result.findings, f);
    var base := WithFinding(c.result.findings, f);
    OnlyOpenMembers(base, f.id);
    hide WithFinding, OnlyOpen, FindingIdsDistinct, GateIdsDistinct, EvidenceIdsDistinct, Distinct;
    forall g | g in Reopened(c, f).result.findings
      ensures g.verifierId == c.verifier.id && Provided(c.result.evidence, g.evidenceArtifactIds)
    {
      var h :| h in base && g == h.(status := if h.id == f.id then Open else Resolved);
    }
  }

  /** What the findings of the reopened candidate are, one by one. */
  ghost predicate Reflects(base: seq<Finding>, last: seq<Finding>, id: string) {
    && (forall h :: h in base ==> h.(status := if h.id == id then Open else Resolved) in last)
    && (forall g :: g in last ==> exists h :: h in base && g == h.(status := if h.id == id then Open else Resolved))
  }

  lemma ReopenedReflects(fs: seq<Finding>, id: string)
    ensures Reflects(fs, OnlyOpen(fs, id), id)
  {
    OnlyOpenMembers(fs, id);
    hide OnlyOpen;
  }

  lemma ReflectedIdentities(before: seq<Finding>, base: seq<Finding>, last: seq<Finding>, id: string)
    requires Reflects(base, last, id)
    requires forall f, g :: f in before && g in base && f.id == g.id ==> Identity(f) == Identity(g)
    ensures forall f, g :: f in before && g in last && f.id == g.id ==> Identity(f) == Identity(g)
  {
    forall f, g | f in before && g in last && f.id == g.id ensures Identity(f) == Identity(g) {
      var h :| h in base && g == h.(status := if h.id == id then Open else Resolved);
      assert Identity(h) == Identity(g);
    }
  }

  lemma BaseIdentities(before: seq<Finding>, after: seq<Finding>, f: Finding)
    requires FindingIdsDistinct(before) && FindingIdsDistinct(after) && f in before
    requires forall g, h :: g in before && h in after && g.id == h.id ==> Identity(g) == Identity(h)
    ensures forall g, h :: g in before && h in WithFinding(after, f) && g.id == h.id ==> Identity(g) == Identity(h)
  {
    WithFindingFacts(after, f);
    hide WithFinding, HasFinding;
    forall g, h | g in before && h in WithFinding(after, f) && g.id == h.id ensures Identity(g) == Identity(h) {
      SameIdSame(before, g, f);
    }
  }

  lemma ReflectedPresence(base: seq<Finding>, last: seq<Finding>, id: string, other: string)
    requires Reflects(base, last, id) && HasFinding(base, other)
    ensures HasFinding(last, other) && (other != id ==> Settled(last, other)) && (other == id ==> IsOpen(last, other))
  {
    var h :| h in base && h.id == other;
    assert h.(status := if h.id == id then Open else Resolved) in last;
  }

  lemma ReopenedKeepsFindings(b: BundleContent, c: BundleContent, p: Policy, f: Finding)
    requires FindingIdsDistinct(b.result.findings) && FindingIdsDistinct(c.result.findings)
    requires f in b.result.findings && KeepsFindings(b, c, p) && f.id !in p.targetFindingIds
    ensures KeepsFindings(b, Reopened(c, f), p) && IsOpen(Reopened(c, f).result.findings, f.id)
  {
    var before, after, base := b.result.findings, c.result.findings, WithFinding(c.result.findings, f);
    var last := Reopened(c, f).result.findings;
    WithFindingFacts(after, f);
    ReopenedReflects(base, f.id);
    BaseIdentities(before, after, f);
    ReflectedIdentities(before, base, last, f.id);
    ReflectedPresence(base, last, f.id, f.id);
    hide WithFinding, OnlyOpen, Identity, Reflects, FindingIdsDistinct;
    forall g | g in before && g.status == Open ensures HasFinding(last, g.id) {
      var h :| h in after && h.id == g.id;
      assert h in base;
      ReflectedPresence(base, last, f.id, g.id);
    }
    forall g | g in last && OpenBlocking(g) ensures HasFinding(before, g.id) {
      OpenIsReopened(base, last, f.id, g);
    }
    forall id | id in p.targetFindingIds ensures Settled(last, id) {
      var g :| g in after && g.id == id && g.status != Open;
      assert g in base;
      ReflectedPresence(base, last, f.id, id);
    }
  }

  lemma OpenIsReopened(base: seq<Finding>, last: seq<Finding>, id: string, g: Finding)
    requires Reflects(base, last, id) && g in last && g.status == Open
    ensures g.id == id
  {
  }

  lemma SameIdSame(fs: seq<Finding>, f: Finding, g: Finding)
    requires FindingIdsDistinct(fs) && f in fs && g in fs
    ensures f.id == g.id ==> f == g
  {
  }

  lemma ReopenedKeepsLimits(b: BundleContent, c: BundleContent, p: Policy, f: Finding)
    requires FindingIdsDistinct(b.result.findings) && FindingIdsDistinct(c.result.findings)
    requires f in b.result.findings && KeepsFindings(b, c, p) && KeepsLimits(b, c, p) && MayReopen(b, p, f)
    ensures KeepsLimits(b, Reopened(c, f), p)
  {
    var base := WithFinding(c.result.findings, f);
    WithFindingFacts(c.result.findings, f);
    OnlyOpenScore(base, f.id);
    hide WithFinding, OnlyOpen, BlockingScore, OpenBlockingCount, AllTargetsSettled;
    var k :| k in base && k.id == f.id;
    assert Identity(k) == Identity(f);
  }

  lemma ReopenedPasses(b: BundleContent, c: BundleContent, p: Policy, f: Finding)
    requires Intact(Sealed(b)) && Accepted(b, c, p) && f in b.result.findings && MayReopen(b, p, f)
    ensures Accepted(b, Reopened(c, f), p) && IsOpen(Reopened(c, f).result.findings, f.id)
  {
    var d := Reopened(c, f);
    PassingFacts(b, c, p);
    PassingFacts(b, d, p);
    hide Passes;
    ReopenedIsIntact(b, c, f);
    hide Provided, MayReopen, IsOpen;
    ReopenedKeepsFindings(b, c, p, f) by {
      assert f.id !in p.targetFindingIds by {
        MayReopenIsNoTarget(b, p, f);
      }
    }
    ReopenedKeepsLimits(b, c, p, f);
    hide KeepsFindings, KeepsLimits;
    SameEvidence(b, c, d, p);
    hide KeepsEvidence, WithFinding, OnlyOpen;
    assert KeepsGates(b, d, p) by {
      assert forall id :: GatePassed(d.result, id) <==> GatePassed(c.result, id);
    }
  }

  lemma MayReopenIsNoTarget(b: BundleContent, p: Policy, f: Finding)
    requires MayReopen(b, p, f)
    ensures f.id !in p.targetFindingIds
  {
  }

  lemma {:induction false} OpenCounts(fs: seq<Finding>, f: Finding)
    requires f in fs && f.status == Open
    ensures Weight(f.severity) <= BlockingScore(fs)
    ensures f.severity == Blocking ==> OpenBlockingCount(fs) >= 1
    decreases |fs|
  {
    SplitLast(fs);
    if f != fs[|fs| - 1] {
      OpenCounts(fs[..|fs| - 1], f);
    }
  }

  /** Where some candidate passes, a settled finding can be open in a passing candidate exactly when it is no
      target, its weight fits the old score, and the limit of open blocking findings allows it. */
  lemma SettledReopensIff(b: BundleContent, p: Policy, f: Finding, some: BundleContent)
    requires Intact(Sealed(b)) && f in b.result.findings && f.status != Open && Accepted(b, some, p)
    ensures (exists c :: Accepted(b, c, p) && IsOpen(c.result.findings, f.id)) <==> MayReopen(b, p, f)
  {
    if c :| Accepted(b, c, p) && IsOpen(c.result.findings, f.id) {
      OpenAgain(b, c, p, f);
    }
    if MayReopen(b, p, f) {
      ReopenedPasses(b, some, p, f);
    }
  }

  lemma OpenAgain(b: BundleContent, c: BundleContent, p: Policy, f: Finding)
    requires f in b.result.findings && Accepted(b, c, p) && IsOpen(c.result.findings, f.id)
    ensures MayReopen(b, p, f)
  {
    PassingFacts(b, c, p);
    hide Passes, KeepsGates, KeepsEvidence, BlockingScore, OpenBlockingCount;
    var g :| g in c.result.findings && g.id == f.id && g.status == Open;
    OpenCounts(c.result.findings, g);
    assert Identity(f) == Identity(g);
    if f.id in p.targetFindingIds {
      var h :| h in c.result.findings && h.id == f.id && h.status != Open;
      SameIdSame(c.result.findings, g, h);
    }
  }

  // ----- the score under an arbitrary baseline --------------------------------------

  ghost function WithEvidence(es: seq<EvidenceItem>, ids: seq<string>): seq<EvidenceItem> {
    if ids == [] then es
    else
      var before, id := WithEvidence(es, ids[..|ids| - 1]), ids[|ids| - 1];
      if exists e :: e in before && e.id == id then before else before + [EvidenceItem(id, "", "", false)]
  }

  lemma {:induction false} WithEvidenceFacts(es: seq<EvidenceItem>, ids: seq<string>)
    requires EvidenceIdsDistinct(es)
    ensures EvidenceIdsDistinct(WithEvidence(es, ids))
    ensures forall e :: e in es ==> e in WithEvidence(es, ids)
    ensures forall id :: id in ids ==> exists e :: e in WithEvidence(es, ids) && e.id == id
  {
    if ids != [] {
      var front, id := ids[..|ids| - 1], ids[|ids| - 1];
      WithEvidenceFacts(es, front);
      SplitLast(ids);
      var before, after := WithEvidence(es, front), WithEvidence(es, ids);
      assert forall e :: e in before ==> e in after;
      if forall e :: e in before ==> e.id != id {
        var added := EvidenceItem(id, "", "", false);
        assert after == before + [added] && added in after;
        forall i | 0 <= i < |before| ensures before[i].id != id {
          assert before[i] in before;
        }
      }
    }
  }

  /** The baseline once more, as a candidate that passed with all evidence and wrote nothing. */
  ghost function Repeated(b: BundleContent): BundleContent {
    b.(result := b.result.(outcome := Passed, observedWrites := [],
                           evidence := WithEvidence(b.result.evidence, b.requiredEvidenceIds)))
  }

  function Tolerant(b: BundleContent): Policy {
    Policy([], [], [], OpenBlockingCount(b.result.findings), None, None, Some(false))
  }

  lemma RepeatedIsIntact(b: BundleContent)
    requires Intact(Sealed(b))
    ensures Intact(Sealed(Repeated(b)))
  {
    WithEvidenceFacts(b.result.evidence, b.requiredEvidenceIds);
    hide WithEvidence, FindingIdsDistinct, GateIdsDistinct, EvidenceIdsDistinct, Distinct;
    var after := Repeated(b).result.evidence;
    forall ids | Provided(b.result.evidence, ids) ensures Provided(after, ids) {
      forall a | a in ids ensures exists e :: e in after && e.artifactId == a {
        var e :| e in b.result.evidence && e.artifactId == a;
        assert e in after;
      }
    }
  }

  lemma RepeatedKeepsEvidence(b: BundleContent)
    requires EvidenceIdsDistinct(b.result.evidence)
    ensures KeepsEvidence(b, Repeated(b), Tolerant(b))
  {
    WithEvidenceFacts(b.result.evidence, b.requiredEvidenceIds);
    hide WithEvidence, EvidenceIdsDistinct, Authorized;
  }

  lemma RepeatedKeepsFindings(b: BundleContent)
    requires FindingIdsDistinct(b.result.findings)
    ensures KeepsFindings(b, Repeated(b), Tolerant(b))
  {
    var fs := b.result.findings;
    hide WithEvidence, Identity;
    forall f, g | f in fs && g in fs && f.id == g.id ensures Identity(f) == Identity(g) {
      SameIdSame(fs, f, g);
    }
  }

  /** Every intact bundle can be passed against with its own score. */
  lemma RepeatedPasses(b: BundleContent)
    requires Intact(Sealed(b))
    ensures Accepted(b, Repeated(b), Tolerant(b))
  {
    RepeatedIsIntact(b);
    RepeatedKeepsEvidence(b);
    RepeatedKeepsFindings(b);
    PassingFacts(b, Repeated(b), Tolerant(b));
    hide WithEvidence, Intact, Passes, KeepsEvidence, KeepsFindings, BlockingScore, OpenBlockingCount;
  }

  /** What passes against a baseline keeps to a score, whatever the policy, exactly when the baseline does. */
  lemma ScoreStaysIff(b: BundleContent, score: nat)
    requires Intact(Sealed(b))
    ensures (forall c, p :: Accepted(b, c, p) ==> BlockingScore(c.result.findings) <= score) <==>
      BlockingScore(b.result.findings) <= score
  {
    RepeatedPasses(b);
    assert BlockingScore(Repeated(b).result.findings) == BlockingScore(b.result.findings);
    forall c, p | Accepted(b, c, p) ensures BlockingScore(c.result.findings) <= BlockingScore(b.result.findings) {
      PassingFacts(b, c, p);
    }
    hide Accepted, BlockingScore, Repeated, Tolerant;
    assert Accepted(b, Repeated(b), Tolerant(b));
  }

  // ----- examples -------------------------------------------------------------------

  function Example(gates: seq<Gate>, findings: seq<Finding>): BundleContent {
    BundleContent("t", "r", "main", "p", Verifier("v", "1", "o", PublicVerifier, "i", "d"), [], "s", "e",
      VerifierResult(Passed, "h", findings, gates, [], [], 0, 0.0, 0))
  }

  const LENIENT := Policy([], [], [], 0, None, None, Some(false))

  lemma ExamplePasses(b: BundleContent, c: BundleContent)
    requires exists gs, fs :: b == Example(gs, fs)
    requires exists gs, fs :: c == Example(gs, fs)
    requires KeepsGates(b, c, LENIENT) && KeepsFindings(b, c, LENIENT)
    requires BlockingScore(c.result.findings) <= BlockingScore(b.result.findings)
    requires OpenBlockingCount(c.result.findings) == 0
    ensures Passes(b, c, LENIENT)
  {
    PassingFacts(b, c, LENIENT);
  }

  /** A gate that passed as a hard gate can lose its flag and then disappear. */
  lemma HardFlagMayBeLost() returns (chain: seq<BundleContent>, policies: seq<Policy>)
    ensures PromotedChain(chain, policies) && |chain| == 3 && forall c :: c in chain ==> Intact(Sealed(c))
    ensures WasHardPassed(chain[0].result.gates, "g") && !GatePassed(chain[2].result, "g")
  {
    var hard := Gate("g", true, Passed, []);
    var soft := hard.(hard := false);
    var first, second, third := Example([hard], []), Example([soft], []), Example([], []);
    chain, policies := [first, second, third], [LENIENT, LENIENT];
    assert hard in first.result.gates && soft in second.result.gates;
    ExamplePasses(first, second);
    ExamplePasses(second, third);
    hide Passes;
    forall i | 0 <= i < 2 ensures Passes(chain[i], chain[i + 1], policies[i]) {
      assert i == 0 || i == 1;
    }
  }

  function TwoFindings(first: FindingStatus, second: FindingStatus): seq<Finding> {
    [Finding("x", None, "v", "product_defect", Low, "r", [], first),
     Finding("y", None, "v", "product_defect", Low, "r", [], second)]
  }

  lemma TwoFindingsScore(first: FindingStatus, second: FindingStatus)
    requires (first == Open) != (second == Open)
    ensures BlockingScore(TwoFindings(first, second)) == 1 && OpenBlockingCount(TwoFindings(first, second)) == 0
  {
    var fs := TwoFindings(first, second);
    assert fs[..1] == [fs[0]] && fs[..1][..0] == [];
  }

  lemma TwoFindingsIntact(first: FindingStatus, second: FindingStatus)
    ensures Intact(Sealed(Example([], TwoFindings(first, second))))
  {
    hide BlockingScore;
    var fs := TwoFindings(first, second);
    forall f | f in fs ensures f.verifierId == "v" && f.evidenceArtifactIds == [] {
      assert f == fs[0] || f == fs[1];
    }
  }

  lemma TwoFindingsKept(b: BundleContent, c: BundleContent)
    requires b == Example([], TwoFindings(Resolved, Open)) && c == Example([], TwoFindings(Open, Resolved))
    ensures KeepsFindings(b, c, LENIENT)
  {
    var before, after := TwoFindings(Resolved, Open), TwoFindings(Open, Resolved);
    assert before[0] in before && before[1] in before && after[0] in after && after[1] in after;
    forall f | f in before ensures HasFinding(after, f.id) {
      assert f == before[0] || f == before[1];
    }
    forall f | f in after ensures HasFinding(before, f.id) {
      assert f == after[0] || f == after[1];
    }
    forall f, g | f in before && g in after && f.id == g.id ensures Identity(f) == Identity(g) {
      assert f == before[0] || f == before[1];
      assert g == after[0] || g == after[1];
    }
  }

  /** A resolved finding can be open again while the score stays the same. */
  lemma ResolvedMayReopen() returns (b: BundleContent, c: BundleContent)
    ensures Intact(Sealed(b)) && Accepted(b, c, LENIENT)
    ensures Settled(b.result.findings, "x") && !IsOpen(b.result.findings, "x") && IsOpen(c.result.findings, "x")
  {
    var before, after := TwoFindings(Resolved, Open), TwoFindings(Open, Resolved);
    b, c := Example([], before), Example([], after);
    TwoFindingsScore(Resolved, Open);
    TwoFindingsScore(Open, Resolved);
    TwoFindingsIntact(Resolved, Open);
    TwoFindingsIntact(Open, Resolved);
    TwoFindingsKept(b, c);
    hide Intact, Weight, BlockingScore, OpenBlockingCount, KeepsFindings;
    ExamplePasses(b, c);
    hide Passes;
    assert before[0] in before && after[0] in after;
    assert forall f :: f in before ==> f == before[0] || f == before[1];
  }
}

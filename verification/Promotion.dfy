/** Compare-and-swap branch pointers, and the promoters that move them. */
module Promotion {
  import opened Outcomes
  import opened RevisionStore
  import GatePersistence
  import Guard
  import GateEvaluation

  /** Tenant and run. */
  type RunKey = (string, string)

  datatype Pointer = Pointer(tenantId: string, runId: string, activeBranchId: string, generation: nat)

  type Pointers = map<RunKey, Pointer>

  datatype PromotionError =
    | PointerConflict(expectedGeneration: int)
    | ActiveRunNotFound(runId: string)
    | ReleaseGateFailed(branchId: string)
    | BranchNotFound(branchId: string)
    | EvidenceContext(mismatch: Mismatch)
    | BrokenEvidence(integrity: GateEvaluation.IntegrityError)
    | VerificationFailed(decision: GateEvaluation.Decision)

  datatype Mismatch = TenantId | RunId | BranchId

  // ----- the pointer store ----------------------------------------------------------

  predicate Swappable(pointers: Pointers, key: RunKey, expected: int) {
    key in pointers && pointers[key].generation == expected
  }

  /** A swap moves the pointer and raises its generation, or changes nothing. */
  function Swapped(pointers: Pointers, key: RunKey, branchId: string, expected: int): Pointers {
    if Swappable(pointers, key, expected)
    then pointers[key := Pointer(key.0, key.1, branchId, pointers[key].generation + 1)]
    else pointers
  }

  function Registered(pointers: Pointers, key: RunKey, branchId: string, generation: int): Pointers {
    if key in pointers || generation < 0 then pointers
    else pointers[key := Pointer(key.0, key.1, branchId, generation)]
  }

  class InMemoryBranchPointerStore {
    var pointers: Pointers

    constructor ()
      ensures pointers == map[]
    {
      pointers := map[];
    }

    /** Registers a run once; whether the branch exists is not checked. */
    method Register(tenantId: string, runId: string, branchId: string, generation: Option<int>)
      returns (r: Result<Pointer, PromotionError>)
      modifies this
      ensures var g := if generation.Some? then generation.value else 0;
        && pointers == Registered(old(pointers), (tenantId, runId), branchId, g)
        && (r.Ok? <==> (tenantId, runId) !in old(pointers) && g >= 0)
        && (r.Err? ==> r.error == PointerConflict(g))
    {
      var g := if generation.Some? then generation.value else 0;
      if (tenantId, runId) in pointers {
        return Err(PointerConflict(g));
      }
      if g < 0 {
        return Err(PointerConflict(g));
      }
      var stored := Pointer(tenantId, runId, branchId, g);
      pointers := pointers[(tenantId, runId) := stored];
      return Ok(stored);
    }

    method Get(tenantId: string, runId: string) returns (r: Option<Pointer>)
      ensures r == if (tenantId, runId) in pointers then Some(pointers[(tenantId, runId)]) else None
    {
      r := if (tenantId, runId) in pointers then Some(pointers[(tenantId, runId)]) else None;
    }

    method CompareAndSwap(tenantId: string, runId: string, branchId: string, expected: int)
      returns (r: Result<Pointer, PromotionError>)
      modifies this
      ensures pointers == Swapped(old(pointers), (tenantId, runId), branchId, expected)
      ensures r.Ok? <==> Swappable(old(pointers), (tenantId, runId), expected)
      ensures r.Ok? ==> r.value == pointers[(tenantId, runId)]
      ensures r.Err? ==>
        r.error == if (tenantId, runId) in old(pointers) then PointerConflict(expected) else ActiveRunNotFound(runId)
    {
      var key := (tenantId, runId);
      if key !in pointers {
        return Err(ActiveRunNotFound(runId));
      }
      var current := pointers[key];
      if current.generation != expected {
        return Err(PointerConflict(expected));
      }
      var next := Pointer(tenantId, runId, branchId, current.generation + 1);
      pointers := pointers[key := next];
      return Ok(next);
    }
  }

  // ----- the promoters --------------------------------------------------------------

  /** Why a branch cannot be moved to: it is not stored, or the run is not registered, or the generation is another. */
  function SwapError(branches: Branches, pointers: Pointers, tenantId: string, runId: string, branchId: string,
      expected: int): PromotionError
  {
    if (tenantId, runId, branchId) !in branches then BranchNotFound(branchId)
    else if (tenantId, runId) !in pointers then ActiveRunNotFound(runId)
    else PointerConflict(expected)
  }

  class CandidatePromoter {
    const revisions: InMemoryRevisionStore
    const store: InMemoryBranchPointerStore

    constructor (revisions: InMemoryRevisionStore, store: InMemoryBranchPointerStore)
      ensures this.revisions == revisions && this.store == store
    {
      this.revisions, this.store := revisions, store;
    }

    method Promote(tenantId: string, runId: string, branchId: string, expected: int, releaseGatePassed: bool)
      returns (r: Result<Pointer, PromotionError>)
      modifies store
      ensures r.Ok? <==>
        releaseGatePassed && (tenantId, runId, branchId) in revisions.branches
        && Swappable(old(store.pointers), (tenantId, runId), expected)
      ensures store.pointers == if r.Ok? then Swapped(old(store.pointers), (tenantId, runId), branchId, expected)
        else old(store.pointers)
      ensures r.Err? ==>
        if !releaseGatePassed then r.error == ReleaseGateFailed(branchId)
        else r.error == SwapError(revisions.branches, old(store.pointers), tenantId, runId, branchId, expected)
    {
      if !releaseGatePassed {
        return Err(ReleaseGateFailed(branchId));
      }
      var branch := revisions.Get(tenantId, runId, branchId);
      if branch.None? {
        return Err(BranchNotFound(branchId));
      }
      r := store.CompareAndSwap(tenantId, runId, branchId, expected);
    }

    /** A rollback is a promotion without a gate: it, too, needs the branch and the current generation. */
    method Rollback(tenantId: string, runId: string, branchId: string, expected: int)
      returns (r: Result<Pointer, PromotionError>)
      modifies store
      ensures r.Ok? <==>
        (tenantId, runId, branchId) in revisions.branches && Swappable(old(store.pointers), (tenantId, runId), expected)
      ensures store.pointers == if r.Ok? then Swapped(old(store.pointers), (tenantId, runId), branchId, expected)
        else old(store.pointers)
      ensures r.Err? ==>
        r.error == SwapError(revisions.branches, old(store.pointers), tenantId, runId, branchId, expected)
    {
      var branch := revisions.Get(tenantId, runId, branchId);
      if branch.None? {
        return Err(BranchNotFound(branchId));
      }
      r := store.CompareAndSwap(tenantId, runId, branchId, expected);
    }
  }

  ghost predicate InContext(tenantId: string, runId: string, branchId: string,
      baseline: Guard.EvidenceBundle, candidate: Guard.EvidenceBundle)
  {
    && baseline.content.tenantId == tenantId == candidate.content.tenantId
    && baseline.content.runId == runId == candidate.content.runId
    && candidate.content.branchId == branchId
  }

  /** What lets a verified promotion reach the swap. */
  ghost predicate Verified(tenantId: string, runId: string, branchId: string,
      baseline: Guard.EvidenceBundle, candidate: Guard.EvidenceBundle, policy: Guard.Policy)
  {
    && InContext(tenantId, runId, branchId, baseline, candidate)
    && Guard.Intact(baseline) && Guard.Intact(candidate)
    && Guard.Passes(baseline.content, candidate.content, policy)
  }

  /** Why evidence does not reach the swap: another tenant, run or branch, in this order, else a flawed bundle, else a
      decision with violations. */
  ghost predicate VerifiedFault(tenantId: string, runId: string, branchId: string,
      baseline: Guard.EvidenceBundle, candidate: Guard.EvidenceBundle, policy: Guard.Policy, error: PromotionError)
  {
    var (b, c) := (baseline.content, candidate.content);
    if b.tenantId != tenantId || c.tenantId != tenantId then error == EvidenceContext(TenantId)
    else if b.runId != runId || c.runId != runId then error == EvidenceContext(RunId)
    else if c.branchId != branchId then error == EvidenceContext(BranchId)
    else if !Guard.Intact(baseline) then error.BrokenEvidence? && GateEvaluation.Flawed(baseline, error.integrity)
    else if !Guard.Intact(candidate) then error.BrokenEvidence? && GateEvaluation.Flawed(candidate, error.integrity)
    else
      && error.VerificationFailed? && error.decision.violations != []
      && forall v :: v in error.decision.violations <==> Guard.Violates(b, c, policy, v)
  }

  class VerifiedCandidatePromoter {
    const promoter: CandidatePromoter

    constructor (promoter: CandidatePromoter)
      ensures this.promoter == promoter
    {
      this.promoter := promoter;
    }

    method Promote(tenantId: string, runId: string, branchId: string, expected: int,
        baseline: Guard.EvidenceBundle, candidate: Guard.EvidenceBundle, policy: Guard.Policy)
      returns (r: Result<Pointer, PromotionError>)
      modifies promoter.store
      ensures r.Ok? <==>
        Verified(tenantId, runId, branchId, baseline, candidate, policy)
        && (tenantId, runId, branchId) in promoter.revisions.branches
        && Swappable(old(promoter.store.pointers), (tenantId, runId), expected)
      ensures promoter.store.pointers ==
        if r.Ok? then Swapped(old(promoter.store.pointers), (tenantId, runId), branchId, expected)
        else old(promoter.store.pointers)
      ensures r.Err? && !Verified(tenantId, runId, branchId, baseline, candidate, policy) ==>
        VerifiedFault(tenantId, runId, branchId, baseline, candidate, policy, r.error)
      ensures r.Err? && Verified(tenantId, runId, branchId, baseline, candidate, policy) ==>
        r.error ==
          SwapError(promoter.revisions.branches, old(promoter.store.pointers), tenantId, runId, branchId, expected)
    {
      hide GateEvaluation.Flawed;
      hide Guard.Intact, Guard.Passes, Guard.Violates, Guard.Settled, Guard.IsOpen, Guard.BlockingScore;
      if baseline.content.tenantId != tenantId || candidate.content.tenantId != tenantId {
        return Err(EvidenceContext(TenantId));
      }
      if baseline.content.runId != runId || candidate.content.runId != runId {
        return Err(EvidenceContext(RunId));
      }
      if candidate.content.branchId != branchId {
        return Err(EvidenceContext(BranchId));
      }
      var decision := GateEvaluation.EvaluateMonotonicCandidate(baseline, candidate, policy);
      if decision.Err? {
        return Err(BrokenEvidence(decision.error));
      }
      if !decision.value.passed {
        GateEvaluation.NoViolationsMeansPassing(baseline.content, candidate.content, policy, decision.value.violations);
        return Err(VerificationFailed(decision.value));
      }
      r := promoter.Promote(tenantId, runId, branchId, expected, true);
    }
  }

  // ----- histories ------------------------------------------------------------------

  /** Both stores as one value. */
  datatype World = World(branches: Branches, pointers: Pointers)

  datatype Call =
    | Store(storeCall: StoreCall)
    | Register(key: RunKey, branchId: string, generation: int)
    | Promote(key: RunKey, branchId: string, expected: int, releaseGatePassed: bool)
    | Rollback(key: RunKey, branchId: string, expected: int)
    | PromoteVerified(key: RunKey, branchId: string, expected: int,
        baseline: Guard.EvidenceBundle, candidate: Guard.EvidenceBundle, policy: Guard.Policy)

  /** Calls that may swap a pointer. */
  predicate Moves(c: Call) {
    c.Promote? || c.Rollback? || c.PromoteVerified?
  }

  ghost predicate Admitted(c: Call)
    requires Moves(c)
  {
    match c
    case Promote(_, _, _, passed) => passed
    case Rollback(_, _, _) => true
    case PromoteVerified(key, branchId, _, b, d, p) => Verified(key.0, key.1, branchId, b, d, p)
  }

  ghost predicate Succeeds(w: World, c: Call) {
    && Moves(c) && Admitted(c)
    && (c.key.0, c.key.1, c.branchId) in w.branches && Swappable(w.pointers, c.key, c.expected)
  }

  ghost function AfterCall(w: World, c: Call): World {
    match c
    case Store(s) => w.(branches := RevisionStore.AfterCall(w.branches, s))
    case Register(key, branchId, g) => w.(pointers := Registered(w.pointers, key, branchId, g))
    case _ => if Succeeds(w, c) then w.(pointers := Swapped(w.pointers, c.key, c.branchId, c.expected)) else w
  }

  /** The generation is the current one of a registered run, and the branch is stored. */
  ghost predicate UpToDate(w: World, key: RunKey, branchId: string, generation: int) {
    && key in w.pointers && w.pointers[key].generation == generation
    && (key.0, key.1, branchId) in w.branches
  }

  /** Which calls move a pointer, and what they leave behind. */
  lemma MoveMeans(w: World, c: Call)
    ensures Succeeds(w, c) <==>
      match c
      case Store(_) => false
      case Register(_, _, _) => false
      case Promote(key, branchId, g, passed) => passed && UpToDate(w, key, branchId, g)
      case Rollback(key, branchId, g) => UpToDate(w, key, branchId, g)
      case PromoteVerified(key, branchId, g, b, d, p) =>
        Verified(key.0, key.1, branchId, b, d, p) && UpToDate(w, key, branchId, g)
    ensures !Succeeds(w, c) && !c.Store? && !c.Register? ==> AfterCall(w, c) == w
    ensures Succeeds(w, c) ==> var after := AfterCall(w, c);
      && after.branches == w.branches && after.pointers.Keys == w.pointers.Keys
      && after.pointers[c.key] == Pointer(c.key.0, c.key.1, c.branchId, c.expected + 1)
      && forall k :: k in w.pointers && k != c.key ==> after.pointers[k] == w.pointers[k]
  {
    hide Verified;
  }

  ghost function After(w: World, calls: seq<Call>): World {
    if calls == [] then w else AfterCall(After(w, calls[..|calls| - 1]), calls[|calls| - 1])
  }

  /** The successful moves of one run, in order. */
  ghost function Successes(w: World, calls: seq<Call>, key: RunKey): seq<Call> {
    if calls == [] then []
    else
      var front, last := calls[..|calls| - 1], calls[|calls| - 1];
      Successes(w, front, key) + (if Succeeds(After(w, front), last) && last.key == key then [last] else [])
  }

  /** Under any interleaving of calls, with any generations: the generation of a run is where it started
      plus its successes, the n-th success consumed the n-th generation, and after a success the active
      branch is the one last moved to and exists. */
  lemma {:induction false} GenerationsAreConsumedOnce(w: World, calls: seq<Call>, key: RunKey)
    requires key in w.pointers
    ensures var after, moves := After(w, calls), Successes(w, calls, key);
      && key in after.pointers
      && after.pointers[key].generation == w.pointers[key].generation + |moves|
      && (forall i :: 0 <= i < |moves| ==> Moves(moves[i]) && moves[i].expected == w.pointers[key].generation + i)
      && (moves == [] ==> after.pointers[key] == w.pointers[key])
      && (moves != [] ==>
        after.pointers[key].activeBranchId == moves[|moves| - 1].branchId
        && (key.0, key.1, after.pointers[key].activeBranchId) in after.branches)
    decreases |calls|
  {
    if calls != [] {
      GenerationsAreConsumedOnce(w, calls[..|calls| - 1], key);
      CallOnRun(After(w, calls[..|calls| - 1]), calls[|calls| - 1], key);
      hide AfterCall, Succeeds;
    }
  }

  /** One call on one run. */
  lemma CallOnRun(w: World, c: Call, key: RunKey)
    requires key in w.pointers
    ensures var after := AfterCall(w, c);
      && key in after.pointers
      && (forall k :: k in w.branches ==> k in after.branches)
      && (if Succeeds(w, c) && c.key == key then
            && c.expected == w.pointers[key].generation
            && after.pointers[key].generation == c.expected + 1
            && after.pointers[key].activeBranchId == c.branchId && (key.0, key.1, c.branchId) in after.branches
          else after.pointers[key] == w.pointers[key])
  {
    hide Admitted, Derived;
  }

  /** No two successes of a run were made with the same generation: a stale caller always loses. */
  lemma StaleCallersLose(w: World, calls: seq<Call>, key: RunKey, i: nat, j: nat)
    requires key in w.pointers && i < j < |Successes(w, calls, key)|
    ensures Moves(Successes(w, calls, key)[i]) && Moves(Successes(w, calls, key)[j])
    ensures Successes(w, calls, key)[i].expected != Successes(w, calls, key)[j].expected
  {
    GenerationsAreConsumedOnce(w, calls, key);
    hide Successes;
  }

  /** A run that was never registered cannot be moved. */
  lemma {:induction false} UnregisteredNeverMoves(w: World, calls: seq<Call>, key: RunKey)
    requires key !in After(w, calls).pointers
    ensures Successes(w, calls, key) == []
    decreases |calls|
  {
    if calls != [] {
      hide Admitted;
      UnregisteredNeverMoves(w, calls[..|calls| - 1], key);
    }
  }

  /** A first registration sets branch and generation; a later one changes nothing. */
  lemma RegisteredMeans(w: World, key: RunKey, branchId: string, generation: int)
    ensures var after := AfterCall(w, Register(key, branchId, generation));
      && after.branches == w.branches
      && (key !in w.pointers && generation >= 0 ==>
        key in after.pointers && after.pointers[key].activeBranchId == branchId
        && after.pointers[key].generation == generation
        && after.pointers[key].tenantId == key.0 && after.pointers[key].runId == key.1)
      && (key in w.pointers || generation < 0 ==> after == w)
      && (forall k :: k != key ==>
        (k in after.pointers <==> k in w.pointers)
        && (k in after.pointers && k in w.pointers ==> after.pointers[k] == w.pointers[k]))
  {
  }

  /** The register call itself does not look for the branch: the active branch may not exist before a
      first success. */
  lemma RegisteredBranchMayBeMissing(key: RunKey, branchId: string) returns (w: World)
    ensures w == After(World(map[], map[]), [Register(key, branchId, 0)])
    ensures key in w.pointers && (key.0, key.1, w.pointers[key].activeBranchId) !in w.branches
  {
    var start := World(map[], map[]);
    var calls := [Register(key, branchId, 0)];
    w := After(start, calls);
    assert calls[..|calls| - 1] == [] && After(start, []) == start;
    assert w == AfterCall(start, Register(key, branchId, 0));
  }

  /** After any calls the active branch of a registered run exists exactly when some move succeeded or the
      branch it was registered with has been stored. */
  lemma ActiveBranchExistsIff(w: World, calls: seq<Call>, key: RunKey)
    requires key in w.pointers
    ensures var after := After(w, calls);
      key in after.pointers
      && ((key.0, key.1, after.pointers[key].activeBranchId) in after.branches <==>
        (Successes(w, calls, key) != [] || (key.0, key.1, w.pointers[key].activeBranchId) in after.branches))
  {
    GenerationsAreConsumedOnce(w, calls, key);
    hide After, Successes;
  }

  lemma {:induction false} SuccessesWereAdmitted(w: World, calls: seq<Call>, key: RunKey)
    ensures forall c :: c in Successes(w, calls, key) ==> Moves(c) && Admitted(c) && c.key == key
    decreases |calls|
  {
    if calls != [] {
      hide Admitted, AfterCall;
      SuccessesWereAdmitted(w, calls[..|calls| - 1], key);
    }
  }

  /** Verified moves whose baseline is the evidence promoted before. */
  ghost predicate ChainedByEvidence(moves: seq<Call>) {
    && (forall i :: 0 <= i < |moves| ==> moves[i].PromoteVerified?)
    && (forall i, j :: 0 <= i && j == i + 1 && j < |moves| ==> moves[j].baseline == moves[i].candidate)
  }

  ghost function EvidenceOf(moves: seq<Call>): seq<Guard.BundleContent>
    requires ChainedByEvidence(moves) && moves != []
  {
    [moves[0].baseline.content]
    + seq(|moves|, i requires 0 <= i < |moves| && moves[i].PromoteVerified? => moves[i].candidate.content)
  }

  /** If the successful moves of a run, whatever other calls lie between them, were verified one against
      the next, then the blocking score of the run never rose and its context never changed. */
  lemma VerifiedHistoryIsMonotonic(w: World, calls: seq<Call>, key: RunKey, i: nat, j: nat)
    requires var moves := Successes(w, calls, key); moves != [] && ChainedByEvidence(moves) && i <= j <= |moves|
    ensures var chain := EvidenceOf(Successes(w, calls, key));
      && Guard.SameContext(chain[i], chain[j])
      && Guard.BlockingScore(chain[j].result.findings) <= Guard.BlockingScore(chain[i].result.findings)
      && chain[j].tenantId == key.0 && chain[j].runId == key.1
  {
    var moves := Successes(w, calls, key);
    SuccessesWereAdmitted(w, calls, key);
    var chain := EvidenceOf(moves);
    var policies := seq(|moves|, k requires 0 <= k < |moves| && moves[k].PromoteVerified? => moves[k].policy);
    hide Successes, Guard.Passes, Guard.Intact;
    forall k | 0 <= k < |policies| ensures Guard.Passes(chain[k], chain[k + 1], policies[k]) {
      assert moves[k] in moves && Admitted(moves[k]);
      assert k > 0 ==> moves[k].baseline == moves[k - 1].candidate;
    }
    Guard.ChainIsMonotonic(chain, policies, i, j);
    assert moves[0] in moves && Admitted(moves[0]);
    assert j > 0 ==> Admitted(moves[j - 1]) && moves[j - 1] in moves;
  }

  function ExampleBundle(key: RunKey, branchId: string, findings: seq<Guard.Finding>): Guard.EvidenceBundle {
    GatePersistence.Sealed(
      GatePersistence.Example([], findings).(tenantId := key.0, runId := key.1, branchId := branchId))
  }

  lemma TwoSuccesses(w: World, first: Call, second: Call)
    requires Succeeds(w, first) && Succeeds(AfterCall(w, first), second) && first.key == second.key
    ensures Successes(w, [first, second], first.key) == [first, second]
  {
    var calls := [first, second];
    assert calls[..1] == [first] && [first][..0] == [];
    hide Succeeds, AfterCall;
    assert After(w, []) == w && After(w, [first]) == AfterCall(w, first);
    assert Successes(w, [], first.key) == [];
    assert Successes(w, [first], first.key) == [] + [first];
    assert Successes(w, calls, first.key) == Successes(w, [first], first.key) + [second];
  }

  /** A bundle with at most one finding, a low one of its own verifier, passes against itself. */
  lemma ExampleVerified(key: RunKey, branchId: string, findings: seq<Guard.Finding>)
    requires |findings| <= 1
    requires forall f :: f in findings ==>
      f.verifierId == "v" && f.evidenceArtifactIds == [] && f.severity == Guard.Low
    ensures var b := ExampleBundle(key, branchId, findings);
      Verified(key.0, key.1, branchId, b, b, GatePersistence.LENIENT)
  {
    var b := ExampleBundle(key, branchId, findings);
    assert Guard.OpenBlockingCount(findings) == 0 by {
      if findings != [] {
        assert findings[..|findings| - 1] == [] && findings[0] in findings;
      }
    }
    Guard.PassingFacts(b.content, b.content, GatePersistence.LENIENT);
    hide Guard.Passes, Guard.BlockingScore, Guard.OpenBlockingCount, Guard.Identity;
    assert Guard.KeepsFindings(b.content, b.content, GatePersistence.LENIENT);
  }

  /** With a stale baseline the score rises: after a clean candidate, a second one with an open finding passes
      against evidence that has the finding open already. */
  lemma StaleBaselineRaisesScore(w: World, key: RunKey, branchId: string) returns (calls: seq<Call>)
    requires key in w.pointers && (key.0, key.1, branchId) in w.branches
    ensures |calls| == 2 && calls[0].PromoteVerified? && calls[1].PromoteVerified?
    ensures Successes(w, calls, key) == calls
    ensures Guard.BlockingScore(calls[1].candidate.content.result.findings)
      > Guard.BlockingScore(calls[0].candidate.content.result.findings)
  {
    var g := w.pointers[key].generation;
    var open := Guard.Finding("x", None, "v", "product_defect", Guard.Low, "r", [], Guard.Open);
    var clean, dirty := ExampleBundle(key, branchId, []), ExampleBundle(key, branchId, [open]);
    var first := PromoteVerified(key, branchId, g, clean, clean, GatePersistence.LENIENT);
    var second := PromoteVerified(key, branchId, g + 1, dirty, dirty, GatePersistence.LENIENT);
    calls := [first, second];
    ExampleVerified(key, branchId, []);
    ExampleVerified(key, branchId, [open]);
    assert Guard.BlockingScore([open]) == 1 by {
      assert [open][..0] == [];
    }
    hide Verified, Guard.BlockingScore;
    assert Succeeds(w, first);
    TwoSuccesses(w, first, second);
  }
}

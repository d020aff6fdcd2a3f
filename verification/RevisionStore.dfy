/** The store of immutable revision branches. */
module RevisionStore {
  import opened Ordering
  import opened Outcomes
  import opened Revisions

  /** Tenant, run and branch. */
  type BranchKey = (string, string, string)

  datatype Branch = Branch(
    revisionId: string,
    tenantId: string,
    runId: string,
    branchId: string,
    parentBranchId: Option<string>,
    createdAt: string,
    state: RevisionState)

  datatype RevisionError = BranchConflict(branchId: string) | ParentNotFound(branchId: string)

  datatype RevisionInput = RevisionInput(
    revisionId: string,
    tenantId: string,
    runId: string,
    branchId: string,
    parentBranchId: string,
    createdAt: string,
    patch: RevisionPatch)

  type Branches = map<BranchKey, Branch>

  function KeyOf(b: Branch): BranchKey {
    (b.tenantId, b.runId, b.branchId)
  }

  function ParentKey(i: RevisionInput): BranchKey {
    (i.tenantId, i.runId, i.parentBranchId)
  }

  /** The branch a revision would become on top of its parent. */
  function Derived(parent: Branch, i: RevisionInput): Branch {
    Branch(i.revisionId, i.tenantId, i.runId, i.branchId, Some(i.parentBranchId), i.createdAt,
      ApplyPatch(parent.state, i.patch))
  }

  function WithBranch(branches: Branches, b: Branch): Branches {
    if KeyOf(b) in branches then branches else branches[KeyOf(b) := b]
  }

  function WithRevision(branches: Branches, i: RevisionInput): Branches {
    if ParentKey(i) in branches then WithBranch(branches, Derived(branches[ParentKey(i)], i)) else branches
  }

  class InMemoryRevisionStore {
    var branches: Branches

    constructor ()
      ensures branches == map[]
    {
      branches := map[];
    }

    method Put(b: Branch) returns (r: Result<Branch, RevisionError>)
      modifies this
      ensures branches == WithBranch(old(branches), b)
      ensures r == if KeyOf(b) in old(branches) then Err(BranchConflict(b.branchId)) else Ok(b)
    {
      if KeyOf(b) in branches {
        return Err(BranchConflict(b.branchId));
      }
      branches := branches[KeyOf(b) := b];
      return Ok(b);
    }

    method RegisterBase(b: Branch) returns (r: Result<Branch, RevisionError>)
      modifies this
      ensures branches == WithBranch(old(branches), b.(parentBranchId := None))
      ensures r.Ok? <==> KeyOf(b) !in old(branches)
    {
      r := Put(b.(parentBranchId := None));
    }

    method CreateRevision(i: RevisionInput) returns (r: Result<Branch, RevisionError>)
      modifies this
      ensures branches == WithRevision(old(branches), i)
      ensures r.Ok? <==> ParentKey(i) in old(branches) && (i.tenantId, i.runId, i.branchId) !in old(branches)
      ensures r.Ok? ==> r.value == Derived(old(branches)[ParentKey(i)], i)
      ensures r.Err? && ParentKey(i) in old(branches) ==> r.error == BranchConflict(i.branchId)
      ensures r.Err? && ParentKey(i) !in old(branches) ==> r.error == ParentNotFound(i.parentBranchId)
    {
      if ParentKey(i) !in branches {
        return Err(ParentNotFound(i.parentBranchId));
      }
      r := Put(Derived(branches[ParentKey(i)], i));
    }

    method Get(tenantId: string, runId: string, branchId: string) returns (r: Option<Branch>)
      ensures r == if (tenantId, runId, branchId) in branches then Some(branches[(tenantId, runId, branchId)]) else None
    {
      r := if (tenantId, runId, branchId) in branches then Some(branches[(tenantId, runId, branchId)]) else None;
    }
  }

  // ----- histories ------------------------------------------------------------------

  datatype StoreCall = Base(branch: Branch) | Revise(input: RevisionInput)

  function AfterCall(branches: Branches, call: StoreCall): Branches {
    match call
    case Base(b) => WithBranch(branches, b.(parentBranchId := None))
    case Revise(i) => WithRevision(branches, i)
  }

  function AfterCalls(calls: seq<StoreCall>): Branches {
    if calls == [] then map[] else AfterCall(AfterCalls(calls[..|calls| - 1]), calls[|calls| - 1])
  }

  /** Every branch sits under its own key, and its parent, if it has one, is in the same run. */
  ghost predicate Rooted(branches: Branches) {
    && (forall k :: k in branches ==> KeyOf(branches[k]) == k)
    && (forall k :: k in branches && branches[k].parentBranchId.Some? ==>
      (k.0, k.1, branches[k].parentBranchId.value) in branches)
  }

  lemma {:induction false} BranchesAreImmutable(calls: seq<StoreCall>, k: nat)
    requires k <= |calls|
    ensures forall key :: key in AfterCalls(calls[..k]) ==>
      key in AfterCalls(calls) && AfterCalls(calls)[key] == AfterCalls(calls[..k])[key]
    decreases |calls|
  {
    if k == |calls| {
      TakeAll(calls);
    } else {
      var front := calls[..|calls| - 1];
      BranchesAreImmutable(front, k);
      assert front[..k] == calls[..k];
      hide Derived;
    }
  }

  lemma {:induction false} EveryParentExists(calls: seq<StoreCall>)
    ensures Rooted(AfterCalls(calls))
  {
    if calls != [] {
      EveryParentExists(calls[..|calls| - 1]);
    }
  }

  /** The call stores a branch under a key that is not taken: a base, or a revision of a stored parent. */
  ghost predicate Stores(branches: Branches, call: StoreCall, key: BranchKey) {
    key !in branches
    && match call
       case Base(b) => (b.tenantId, b.runId, b.branchId) == key
       case Revise(i) =>
         (i.tenantId, i.runId, i.branchId) == key && (i.tenantId, i.runId, i.parentBranchId) in branches
  }

  ghost predicate StoredAt(calls: seq<StoreCall>, k: nat, key: BranchKey) {
    k < |calls| && Stores(AfterCalls(calls[..k]), calls[k], key)
  }

  lemma LastStores(calls: seq<StoreCall>, k: nat, key: BranchKey)
    requires calls != []
    ensures StoredAt(calls, k, key) <==>
      if k == |calls| - 1 then Stores(AfterCalls(calls[..|calls| - 1]), calls[k], key)
      else StoredAt(calls[..|calls| - 1], k, key)
  {
    hide Stores, AfterCalls;
    if k < |calls| - 1 {
      assert calls[..|calls| - 1][..k] == calls[..k];
    }
  }

  /** A branch is in the store exactly when some call stored it. */
  lemma {:induction false} PresentIffStored(calls: seq<StoreCall>, key: BranchKey)
    ensures key in AfterCalls(calls) <==> exists k: nat :: StoredAt(calls, k, key)
    decreases |calls|
  {
    if calls != [] {
      var last := |calls| - 1;
      var front := calls[..last];
      PresentIffStored(front, key);
      LastStores(calls, last, key);
      hide Derived;
      assert key in AfterCalls(calls) <==> key in AfterCalls(front) || StoredAt(calls, last, key);
      hide AfterCalls, Stores;
      if k: nat :| StoredAt(calls, k, key) {
        LastStores(calls, k, key);
      }
      if k: nat :| StoredAt(front, k, key) {
        LastStores(calls, k, key);
      }
    }
  }

  /** What a call stored is there ever after: a base without a parent, or the revision of its parent. */
  lemma StoredIsKept(calls: seq<StoreCall>, k: nat, key: BranchKey)
    requires StoredAt(calls, k, key)
    ensures key in AfterCalls(calls)
    ensures match calls[k]
      case Base(b) => AfterCalls(calls)[key] == b.(parentBranchId := None)
      case Revise(i) =>
        ParentKey(i) in AfterCalls(calls[..k])
        && AfterCalls(calls)[key] == Derived(AfterCalls(calls[..k])[ParentKey(i)], i)
  {
    BranchesAreImmutable(calls, k + 1);
    assert calls[..k + 1][..k] == calls[..k];
  }

  /** The number of revisions between a branch and its base. */
  ghost predicate Depth(branches: Branches, key: BranchKey, n: nat)
    decreases n
  {
    key in branches
    && if branches[key].parentBranchId.None? then n == 0
       else n > 0 && Depth(branches, (key.0, key.1, branches[key].parentBranchId.value), n - 1)
  }

  lemma {:induction false} DepthSurvives(before: Branches, after: Branches, key: BranchKey, n: nat)
    requires Depth(before, key, n)
    requires forall k :: k in before ==> k in after && after[k] == before[k]
    ensures Depth(after, key, n)
    decreases n
  {
    if before[key].parentBranchId.Some? {
      DepthSurvives(before, after, (key.0, key.1, before[key].parentBranchId.value), n - 1);
    }
  }

  /** Following parents from any branch of any reachable store ends at a base branch. */
  lemma {:induction false} ParentChainsEnd(calls: seq<StoreCall>, key: BranchKey)
    requires key in AfterCalls(calls)
    ensures exists n: nat :: Depth(AfterCalls(calls), key, n)
    decreases |calls|
  {
    var front, last := calls[..|calls| - 1], calls[|calls| - 1];
    var before, after := AfterCalls(front), AfterCalls(calls);
    BranchesAreImmutable(calls, |calls| - 1);
    if key in before {
      ParentChainsEnd(front, key);
      var n: nat :| Depth(before, key, n);
      DepthSurvives(before, after, key, n);
    } else if last.Base? {
      assert Depth(after, key, 0);
    } else {
      var parent := ParentKey(last.input);
      ParentChainsEnd(front, parent);
      var n: nat :| Depth(before, parent, n);
      DepthSurvives(before, after, parent, n);
      assert Depth(after, key, n + 1);
    }
  }

  /** What a stored revision holds: its own identity and, entry by entry, the state of its parent with the patch
      applied. */
  lemma DerivedMeans(parent: Branch, i: RevisionInput)
    ensures var b := Derived(parent, i);
      && b.revisionId == i.revisionId && b.tenantId == i.tenantId && b.runId == i.runId && b.branchId == i.branchId
      && b.parentBranchId == Some(i.parentBranchId) && b.createdAt == i.createdAt
      && b.state.workflow == (if i.patch.workflow.Some? then i.patch.workflow.value else parent.state.workflow)
      && PatchedBy(parent.state.inputArtifactHashes, i.patch.inputArtifactHashes, b.state.inputArtifactHashes)
      && PatchedBy(parent.state.contractDigests, i.patch.contractDigests, b.state.contractDigests)
      && PatchedBy(parent.state.contractConsumers, i.patch.contractConsumers, b.state.contractConsumers)
      && PatchedBy(parent.state.executionProfiles, i.patch.executionProfiles, b.state.executionProfiles)
  {
  }

  /** Entries the patch names are replaced, or gone where it names none; all others stay. */
  ghost predicate PatchedBy<T>(base: map<string, T>, patch: map<string, Option<T>>, after: map<string, T>) {
    && (forall k :: k in patch ==>
      (k in after <==> patch[k].Some?) && (k in after ==> patch[k] == Some(after[k])))
    && (forall k :: k !in patch ==> (k in after <==> k in base) && (k in after && k in base ==> after[k] == base[k]))
  }
}

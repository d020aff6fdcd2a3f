/** The store of plan versions. */
module PlanStore {
  import opened Ordering
  import opened Outcomes
  import opened Plans

  /** What the refusal of a list of branches names. */
  ghost predicate BranchFault(bs: seq<Branch>, error: PlanError) {
    match error
    case DuplicateBranchId(id) => exists i, j :: 0 <= i < j < |bs| && bs[i].id == id == bs[j].id
    case PartitionConflict(partition) =>
      exists i, j :: 0 <= i < j < |bs| && bs[i].artifactPartition == partition == bs[j].artifactPartition
    case InvalidGain(id) => exists b :: b in bs && b.id == id && !(0.0 <= b.expectedInformationGain <= 1.0)
    case InvalidCost(id) => exists b :: b in bs && b.id == id && b.maxCostUsd < 0.0
    case _ => false
  }

  ghost predicate TransitionRefused(bs: seq<Branch>, updates: map<string, Update>, error: PlanError) {
    exists b :: b in bs && b.id in updates && !Allowed(b.status, updates[b.id].status)
      && error == InvalidTransition(b.id, b.status, updates[b.id].status)
  }

  /** What the refusal of a revision names: the version, else a forbidden transition, else the updates for branches that
      are not there, else what is wrong with the branches of the next version. */
  ghost predicate RevisionFault(p: PlanContent, input: Revision, error: PlanError) {
    var updates := UpdatesById(input.branchUpdates);
    if p.version != input.expectedVersion then error == VersionConflict(input.expectedVersion, p.version)
    else if exists b :: b in p.branches && !TransitionAllowed(b, updates) then
      TransitionRefused(p.branches, updates, error)
    else if !(updates.Keys <= BranchIds(p.branches)) then
      error == BranchesNotFound(SortedKeys(updates.Keys - BranchIds(p.branches)))
    else BranchFault(NextContent(p, input).branches, error)
  }

  method ValidateBranches(bs: seq<Branch>) returns (error: Option<PlanError>)
    ensures error == None <==> BranchesValid(bs)
    ensures error.Some? ==> BranchFault(bs, error.value)
  {
    var ids: set<string> := {};
    var partitions: set<string> := {};
    for k := 0 to |bs|
      invariant BranchesValid(bs[..k])
      invariant ids == set b | b in bs[..k] :: b.id
      invariant partitions == set b | b in bs[..k] :: b.artifactPartition
    {
      var b := bs[k];
      assert b in bs;
      TakeMore(bs, k);
      if b.id in ids {
        RepeatedId(bs, k);
        return Some(DuplicateBranchId(b.id));
      }
      ids := ids + {b.id};
      if b.artifactPartition in partitions {
        RepeatedPartition(bs, k);
        return Some(PartitionConflict(b.artifactPartition));
      }
      partitions := partitions + {b.artifactPartition};
      if b.expectedInformationGain < 0.0 || b.expectedInformationGain > 1.0 {
        return Some(InvalidGain(b.id));
      }
      if b.maxCostUsd < 0.0 {
        return Some(InvalidCost(b.id));
      }
      ExtendValid(bs, k);
    }
    TakeAll(bs);
    return None;
  }

  lemma RepeatedId(bs: seq<Branch>, k: nat)
    requires k < |bs| && bs[k].id in set b | b in bs[..k] :: b.id
    ensures !BranchesValid(bs) && BranchFault(bs, DuplicateBranchId(bs[k].id))
  {
    var b :| b in bs[..k] && b.id == bs[k].id;
    var i :| 0 <= i < k && bs[..k][i] == b;
  }

  lemma RepeatedPartition(bs: seq<Branch>, k: nat)
    requires k < |bs| && bs[k].artifactPartition in set b | b in bs[..k] :: b.artifactPartition
    ensures !BranchesValid(bs) && BranchFault(bs, PartitionConflict(bs[k].artifactPartition))
  {
    var b :| b in bs[..k] && b.artifactPartition == bs[k].artifactPartition;
    var i :| 0 <= i < k && bs[..k][i] == b;
  }

  lemma ExtendValid(bs: seq<Branch>, k: nat)
    requires k < |bs| && BranchesValid(bs[..k])
    requires 0.0 <= bs[k].expectedInformationGain <= 1.0 && bs[k].maxCostUsd >= 0.0
    requires bs[k].id !in (set b | b in bs[..k] :: b.id)
    requires bs[k].artifactPartition !in (set b | b in bs[..k] :: b.artifactPartition)
    ensures BranchesValid(bs[..k + 1])
  {
    forall i | 0 <= i < k ensures bs[i].id != bs[k].id && bs[i].artifactPartition != bs[k].artifactPartition {
      assert bs[i] in bs[..k];
    }
    TakeMore(bs, k);
  }

  method NormalizeBranches(bs: seq<Branch>) returns (r: seq<Branch>)
    ensures r == NormalBranches(bs)
  {
    r := [];
    for k := 0 to |bs|
      invariant r == NormalBranches(bs)[..k]
    {
      var ids := EnumerateSorted(Elements(bs[k].evidenceArtifactIds));
      TakeMore(NormalBranches(bs), k);
      r := r + [bs[k].(evidenceArtifactIds := ids)];
    }
    TakeAll(NormalBranches(bs));
  }

  method BuildPlan(c: PlanContent) returns (r: Result<Plan, PlanError>)
    ensures r.Ok? <==> BranchesValid(c.branches)
    ensures r.Ok? ==> r.value == Built(c)
    ensures r.Err? ==> BranchFault(c.branches, r.error)
  {
    hide BranchesValid, BranchFault, NormalBranches, SortedKeys;
    var error := ValidateBranches(c.branches);
    if error.Some? {
      return Err(error.value);
    }
    var branches := NormalizeBranches(c.branches);
    var evidence := EnumerateSorted(Elements(c.evidenceArtifactIds));
    var normalized := c.(branches := Sort(branches, BranchLe), evidenceArtifactIds := evidence);
    return Ok(Plan(normalized, DigestOf(normalized)));
  }

  /** The map over the current branches: refuses a forbidden transition and returns the updates left over. */
  method ApplyUpdates(bs: seq<Branch>, updates: map<string, Update>)
    returns (r: Result<seq<Branch>, PlanError>, left: map<string, Update>)
    requires BranchIdsDistinct(bs)
    ensures r.Ok? <==> forall b :: b in bs ==> TransitionAllowed(b, updates)
    ensures r.Ok? ==> r.value == UpdatedAll(bs, updates) && left.Keys == updates.Keys - BranchIds(bs)
    ensures r.Err? ==> TransitionRefused(bs, updates, r.error)
  {
    left := updates;
    var branches: seq<Branch> := [];
    for k := 0 to |bs|
      invariant forall i :: 0 <= i < k ==> TransitionAllowed(bs[i], updates)
      invariant branches == UpdatedAll(bs, updates)[..k]
      invariant left == updates - BranchIds(bs[..k])
    {
      var b := bs[k];
      TakeMore(UpdatedAll(bs, updates), k);
      TakeMore(bs, k);
      assert b.id !in BranchIds(bs[..k]);
      assert BranchIds(bs[..k + 1]) == BranchIds(bs[..k]) + {b.id};
      if b.id in left {
        if !Allowed(b.status, left[b.id].status) {
          assert b in bs && !TransitionAllowed(b, updates);
          return Err(InvalidTransition(b.id, b.status, left[b.id].status)), left;
        }
        branches := branches + [b.(status := left[b.id].status,
          evidenceArtifactIds := b.evidenceArtifactIds + left[b.id].evidenceArtifactIds)];
        left := left - {b.id};
      } else {
        branches := branches + [b];
      }
    }
    TakeAll(bs);
    TakeAll(UpdatedAll(bs, updates));
    return Ok(branches), left;
  }

  class InMemoryPlanStore {
    var versions: Versions

    constructor ()
      ensures versions == map[]
    {
      versions := map[];
    }

    method Create(c: Creation) returns (r: Result<Plan, PlanError>)
      modifies this
      ensures versions == Created(old(versions), c)
      ensures r.Ok? <==> c.planId !in old(versions) && BranchesValid(c.branches)
      ensures r.Ok? ==> r.value == FirstPlan(c)
      ensures r.Err? ==>
        if c.planId in old(versions) then r.error == PlanExists(c.planId) else BranchFault(c.branches, r.error)
    {
      hide BranchesValid, BranchFault, Built;
      if c.planId in versions {
        return Err(PlanExists(c.planId));
      }
      r := BuildPlan(PlanContent(c.planId, 1, None, c.goalContractDigest, c.reason, c.branches, [], c.createdAt));
      if r.Ok? {
        versions := versions[c.planId := [r.value]];
      }
    }

    /** Appends a version exactly when the plan is there and takes the revision; otherwise nothing changes. */
    method Revise(input: Revision) returns (r: Result<Plan, PlanError>)
      requires Sound(versions)
      modifies this
      ensures versions == Revised(old(versions), input) && Sound(versions)
      ensures r.Ok? <==> input.planId in old(versions) && Revisable(Last(old(versions)[input.planId]), input)
      ensures r.Ok? ==> r.value == Last(versions[input.planId])
      ensures r.Err? ==>
        if input.planId in versions then RevisionFault(Last(versions[input.planId]).content, input, r.error)
        else r.error == PlanNotFound(input.planId)
    {
      hide RevisionFault, Sound, HistorySound, Revisable, NextPlan;
      CallKeepsSound(versions, Plans.Revise(input));
      HistoriesNonEmpty(versions, input.planId);
      if input.planId !in versions {
        return Err(PlanNotFound(input.planId));
      }
      var history := versions[input.planId];
      r := ReviseCurrent(history[|history| - 1], input);
      if r.Ok? {
        versions := versions[input.planId := history + [r.value]];
      }
    }

    method Get(planId: string, version: Option<int>) returns (r: Option<Plan>)
      requires Sound(versions)
      ensures planId !in versions ==> r == None
      ensures planId in versions && version == None ==> versions[planId] != [] && r == Some(Last(versions[planId]))
      ensures planId in versions && version.Some? ==>
        r == if 1 <= version.value <= |versions[planId]| then Some(versions[planId][version.value - 1]) else None
    {
      if planId !in versions {
        return None;
      }
      HistoriesNonEmpty(versions, planId);
      assert HistorySound(planId, versions[planId]);
      var history := versions[planId];
      if version.None? {
        return Some(history[|history| - 1]);
      }
      for k := 0 to |history|
        invariant forall i :: 0 <= i < k ==> history[i].content.version != version.value
      {
        assert VersionSound(planId, history[k], k);
        if history[k].content.version == version.value {
          return Some(history[k]);
        }
      }
      assert forall i :: 0 <= i < |history| ==> VersionSound(planId, history[i], i);
      return None;
    }
  }

  lemma HistoriesNonEmpty(versions: Versions, planId: string)
    requires Sound(versions)
    ensures planId in versions ==>
      versions[planId] != [] && BranchIdsDistinct(Last(versions[planId]).content.branches)
      && Last(versions[planId]).digest == DigestOf(Last(versions[planId]).content)
  {
    if planId in versions {
      var h := versions[planId];
      assert HistorySound(planId, h);
      assert VersionSound(planId, h[|h| - 1], |h| - 1);
    }
  }

  method ReviseCurrent(current: Plan, input: Revision) returns (r: Result<Plan, PlanError>)
    requires BranchIdsDistinct(current.content.branches) && current.digest == DigestOf(current.content)
    ensures r.Ok? <==> Revisable(current, input)
    ensures r.Ok? ==> r.value == NextPlan(current, input)
    ensures r.Err? ==> RevisionFault(current.content, input, r.error)
  {
    hide BranchFault, TransitionRefused, SortedKeys, BranchesValid, Built, UpdatesById, BranchIdsDistinct;
    var p := current.content;
    if p.version != input.expectedVersion {
      return Err(VersionConflict(input.expectedVersion, p.version));
    }
    var updates := UpdatesById(input.branchUpdates);
    var branches, left := ApplyUpdates(p.branches, updates);
    if branches.Err? {
      return Err(branches.error);
    }
    if left.Keys != {} {
      var unknown := EnumerateSorted(left.Keys);
      return Err(BranchesNotFound(unknown));
    }
    r := BuildPlan(PlanContent(p.planId, p.version + 1, Some(current.digest), p.goalContractDigest, input.reason,
      branches.value + input.addBranches, p.evidenceArtifactIds + input.evidenceArtifactIds, input.createdAt));
  }
}

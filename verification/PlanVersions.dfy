/** What a version of a plan holds, in terms of the version before and the revision that made it. */
module PlanVersions {
  import opened Ordering
  import opened Outcomes
  import opened Plans

  /** The last update with an id. */
  ghost predicate LastUpdate(us: seq<Update>, id: string, k: int) {
    0 <= k < |us| && us[k].id == id && forall j :: k < j < |us| ==> us[j].id != id
  }

  lemma {:induction false} LastCounts(us: seq<Update>, id: string, k: int)
    requires LastUpdate(us, id, k)
    ensures id in UpdatesById(us) && UpdatesById(us)[id] == us[k]
    decreases |us|
  {
    if k < |us| - 1 {
      LastCounts(us[..|us| - 1], id, k);
    }
  }

  lemma {:induction false} CountedIsLast(us: seq<Update>, id: string) returns (k: int)
    requires id in UpdatesById(us)
    ensures LastUpdate(us, id, k)
    decreases |us|
  {
    k := |us| - 1;
    if us[k].id != id {
      var n := k;
      k := CountedIsLast(us[..n], id);
    }
  }

  /** Everything about a branch that revisions leave alone. */
  ghost predicate SameBranch(b: Branch, d: Branch) {
    && d.id == b.id && d.question == b.question && d.artifactPartition == b.artifactPartition
    && d.outputSchemaDigest == b.outputSchemaDigest
    && d.expectedInformationGain == b.expectedInformationGain && d.maxCostUsd == b.maxCostUsd
  }

  /** The branch as a new version lists it: with the status and the further evidence of the last update for it. */
  ghost predicate BecomesBy(b: Branch, us: seq<Update>, d: Branch) {
    && SameBranch(b, d)
    && (forall k :: LastUpdate(us, b.id, k) ==>
      d.status == us[k].status
      && Elements(d.evidenceArtifactIds) == Elements(b.evidenceArtifactIds) + Elements(us[k].evidenceArtifactIds))
    && ((forall k :: !LastUpdate(us, b.id, k)) ==>
      d.status == b.status && Elements(d.evidenceArtifactIds) == Elements(b.evidenceArtifactIds))
  }

  ghost predicate AddedAs(b: Branch, d: Branch) {
    SameBranch(b, d) && d.status == b.status && Elements(d.evidenceArtifactIds) == Elements(b.evidenceArtifactIds)
  }

  lemma NormalIsAdded(b: Branch)
    ensures AddedAs(b, NormalBranch(b))
  {
    hide SortedKeys;
  }

  lemma UpdatedBecomes(b: Branch, us: seq<Update>)
    ensures BecomesBy(b, us, NormalBranch(Updated(b, UpdatesById(us))))
  {
    var updates := UpdatesById(us);
    forall k | LastUpdate(us, b.id, k) ensures b.id in updates && updates[b.id] == us[k] {
      LastCounts(us, b.id, k);
    }
    if b.id in updates {
      var k := CountedIsLast(us, b.id);
      ElementsConcat(b.evidenceArtifactIds, updates[b.id].evidenceArtifactIds);
    }
    NormalIsAdded(Updated(b, updates));
    hide UpdatesById, SortedKeys, Elements, NormalBranch;
  }

  lemma ElementsConcat<T>(a: seq<T>, b: seq<T>)
    ensures Elements(a + b) == Elements(a) + Elements(b)
  {
  }

  ghost predicate FromBefore(p: PlanContent, r: Revision, d: Branch) {
    exists b :: b in p.branches && BecomesBy(b, r.branchUpdates, d)
  }

  ghost predicate FromRevision(r: Revision, d: Branch) {
    exists b :: b in r.addBranches && AddedAs(b, d)
  }

  /** The branches of the new version: those of the old one as updated and the added ones, by ascending id. */
  lemma NextBranches(p: PlanContent, r: Revision)
    ensures var after := Normalize(NextContent(p, r)).branches;
      && |after| == |p.branches| + |r.addBranches|
      && (forall d :: d in after ==> FromBefore(p, r, d) || FromRevision(r, d))
      && (forall b :: b in p.branches ==> exists d :: d in after && BecomesBy(b, r.branchUpdates, d))
      && (forall b :: b in r.addBranches ==> exists d :: d in after && AddedAs(b, d))
      && (forall i, j :: 0 <= i < j < |after| ==> StrLe(after[i].id, after[j].id))
  {
    var updates := UpdatesById(r.branchUpdates);
    var bs := UpdatedAll(p.branches, updates) + r.addBranches;
    var normal := NormalBranches(bs);
    SortMultiset(normal, BranchLe);
    AscendingBranches(normal);
    var after := Sort(normal, BranchLe);
    hide Sort, BranchLe, BecomesBy, AddedAs, NormalBranch, Updated, UpdatesById;
    assert forall d :: d in after <==> d in normal;
    forall d | d in after ensures FromBefore(p, r, d) || FromRevision(r, d) {
      var i :| 0 <= i < |normal| && normal[i] == d;
      if i < |p.branches| {
        UpdatedBecomes(p.branches[i], r.branchUpdates);
        assert p.branches[i] in p.branches;
      } else {
        NormalIsAdded(bs[i]);
        assert bs[i] in r.addBranches;
      }
    }
    forall b | b in p.branches ensures exists d :: d in after && BecomesBy(b, r.branchUpdates, d) {
      var i :| 0 <= i < |p.branches| && p.branches[i] == b;
      UpdatedBecomes(b, r.branchUpdates);
      assert bs[i] == Updated(b, updates) && normal[i] in normal;
    }
    forall b | b in r.addBranches ensures exists d :: d in after && AddedAs(b, d) {
      var i :| 0 <= i < |r.addBranches| && r.addBranches[i] == b;
      NormalIsAdded(b);
      assert bs[|p.branches| + i] == b && normal[|p.branches| + i] in normal;
    }
  }

  lemma AscendingBranches(bs: seq<Branch>)
    ensures var sorted := Sort(bs, BranchLe);
      forall i, j :: 0 <= i < j < |sorted| ==> StrLe(sorted[i].id, sorted[j].id)
  {
    forall a, b ensures BranchLe(a, b) || BranchLe(b, a) {
      StrLeTotal(a.id, b.id);
    }
    forall a, b, c | BranchLe(a, b) && BranchLe(b, c) ensures BranchLe(a, c) {
      StrLeTransitive(a.id, b.id, c.id);
    }
    SortSorted(bs, BranchLe);
  }

  /** The first version has number one and no predecessor, and goal, reason, time and branches of its creation. */
  lemma FirstVersionMeans(c: Creation)
    ensures var q := FirstPlan(c);
      && q.digest == DigestOf(q.content) && q.content.parentDigest == None && q.content.version == 1
      && q.content.planId == c.planId && q.content.goalContractDigest == c.goalContractDigest
      && q.content.reason == c.reason && q.content.createdAt == c.createdAt && q.content.evidenceArtifactIds == []
      && |q.content.branches| == |c.branches|
      && (forall b :: b in c.branches ==> exists d :: d in q.content.branches && AddedAs(b, d))
      && (forall d :: d in q.content.branches ==> exists b :: b in c.branches && AddedAs(b, d))
      && forall i, j :: 0 <= i < j < |q.content.branches| ==>
        StrLe(q.content.branches[i].id, q.content.branches[j].id)
  {
    var normal := NormalBranches(c.branches);
    AscendingBranches(normal);
    SortMultiset(normal, BranchLe);
    hide NormalBranch, AddedAs, Sort, StrLe;
    forall i | 0 <= i < |c.branches| ensures AddedAs(c.branches[i], normal[i]) && normal[i] in normal {
      NormalIsAdded(c.branches[i]);
    }
    assert |Sort(normal, BranchLe)| == |multiset(normal)|;
  }

  /** A revision makes the next version: one higher, linked to the digest of the one before, with the goal kept, the
      reason and time of the revision, and the evidence of both. */
  lemma NextVersionMeans(p: Plan, r: Revision)
    ensures var q := NextPlan(p, r);
      && q.digest == DigestOf(q.content) && q.content.parentDigest == Some(DigestOf(p.content))
      && q.content.planId == p.content.planId && q.content.version == p.content.version + 1
      && q.content.goalContractDigest == p.content.goalContractDigest
      && q.content.reason == r.reason && q.content.createdAt == r.createdAt
      && Elements(q.content.evidenceArtifactIds) ==
        Elements(p.content.evidenceArtifactIds) + Elements(r.evidenceArtifactIds)
  {
    ElementsConcat(p.content.evidenceArtifactIds, r.evidenceArtifactIds);
    hide SortedKeys, Sort, UpdatesById;
  }

  /** A revision is possible exactly at the version it expects, if every update is for a branch there is and allowed
      from its status, and the branches that result have distinct ids and partitions, gains between nought and one,
      and costs that are not negative. */
  lemma RevisableMeans(p: Plan, r: Revision)
    ensures Revisable(p, r) <==>
      && p.content.version == r.expectedVersion
      && (forall u :: u in r.branchUpdates ==> exists b :: b in p.content.branches && b.id == u.id)
      && (forall b, k :: b in p.content.branches && LastUpdate(r.branchUpdates, b.id, k) ==>
        Allowed(b.status, r.branchUpdates[k].status))
      && BranchesValid(NextContent(p.content, r).branches)
  {
    var us, bs := r.branchUpdates, p.content.branches;
    var updates := UpdatesById(us);
    UpdateKeys(us);
    forall b | b in bs
      ensures TransitionAllowed(b, updates) <==> forall k :: LastUpdate(us, b.id, k) ==> Allowed(b.status, us[k].status)
    {
      TransitionMeans(b, us);
    }
    hide UpdatesById, NextContent, BranchesValid, Allowed, LastUpdate, TransitionAllowed;
    if updates.Keys <= BranchIds(bs) {
      forall u | u in us ensures exists b :: b in bs && b.id == u.id {
        assert u.id in BranchIds(bs);
      }
    }
    if forall u :: u in us ==> exists b :: b in bs && b.id == u.id {
      forall id | id in updates ensures id in BranchIds(bs) {
        var u :| u in us && u.id == id;
        var b :| b in bs && b.id == u.id;
      }
    }
  }

  lemma {:induction false} UpdateKeys(us: seq<Update>)
    ensures forall id :: id in UpdatesById(us) <==> exists u :: u in us && u.id == id
  {
    if us != [] {
      UpdateKeys(us[..|us| - 1]);
      SplitLast(us);
    }
  }

  lemma TransitionMeans(b: Branch, us: seq<Update>)
    ensures TransitionAllowed(b, UpdatesById(us)) <==>
      forall k :: LastUpdate(us, b.id, k) ==> Allowed(b.status, us[k].status)
  {
    forall k | LastUpdate(us, b.id, k) ensures b.id in UpdatesById(us) && UpdatesById(us)[b.id] == us[k] {
      LastCounts(us, b.id, k);
    }
    if b.id in UpdatesById(us) {
      var k := CountedIsLast(us, b.id);
    }
    hide UpdatesById, Allowed;
  }
}

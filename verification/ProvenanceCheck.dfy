/** The wave-by-wave check that recorded provenance has no cycle. */
module ProvenanceCheck {
  import opened Graphs
  import opened Ordering
  import opened Outcomes
  import opened Artifacts
  import opened MultiPass

  /** What each artifact was derived from. */
  function NeedsAmong(all: map<Id, ArtifactMetadata>): Requirements {
    map k | k in all :: ParentIds(all[k])
  }

  function ParentNeeds(artifacts: seq<ArtifactMetadata>): Requirements {
    NeedsAmong(ById(artifacts))
  }

  /** Every parent is itself one of the artifacts. */
  ghost predicate ParentsAmong(needs: Requirements) {
    forall k, r :: k in needs && r in needs[k] ==> r in needs
  }

  ghost predicate Waves(needs: Requirements, pending: Requirements, published: set<Id>, order: seq<Id>) {
    && InOrder(needs, order) && Elements(order) == published && published <= needs.Keys
    && pending == map k | k in needs && k !in published :: needs[k]
  }

  /** Accepts exactly the parent-closed, acyclic provenances; a refusal lists the artifacts left over. */
  method AssertProvenanceDag(needs: Requirements) returns (error: Option<seq<Id>>)
    ensures error == None <==> ParentsAmong(needs) && Acyclic(RequirementGraph(needs))
    ensures error.Some? ==> error.value != [] && Elements(error.value) <= needs.Keys
  {
    hide InOrder, RequirementGraph, Acyclic, ParentsAmong;
    var pending := needs;
    var published: set<Id> := {};
    ghost var order: seq<Id> := [];
    assert InOrder(needs, order) by {
      EmptyInOrder(needs);
    }
    while pending.Keys != {}
      invariant Waves(needs, pending, published, order)
      decreases |needs.Keys - published|
    {
      var ready := EnumerateSorted(set k | k in pending && pending[k] <= published);
      if ready == [] {
        NoneReady(needs, pending, published, order);
        var stuck := EnumerateSorted(pending.Keys);
        assert stuck != [] by {
          assert Elements(stuck) == pending.Keys;
        }
        return Some(stuck);
      }
      ghost var before := published;
      ReadyFacts(needs, pending, published, order, ready);
      pending, published, order := PublishWave(needs, ready, pending, published, order);
      assert ready[0] in published && ready[0] !in before;
      ProperSubsetSmaller(needs.Keys - published, needs.Keys - before);
    }
    AllPublished(needs, pending, published, order);
    return None;
  }

  lemma EmptyInOrder(needs: Requirements)
    ensures InOrder(needs, [])
  {
  }

  lemma ReadyFacts(needs: Requirements, pending: Requirements, published: set<Id>, order: seq<Id>, ready: seq<Id>)
    requires Waves(needs, pending, published, order)
    requires ready == SortedKeys(set k | k in pending && pending[k] <= published)
    ensures Distinct(ready)
    ensures forall k :: k in ready ==> k in needs && k !in published && needs[k] <= published
  {
    SortedKeysAscend(set k | k in pending && pending[k] <= published);
    hide InOrder;
    forall k | k in ready ensures k in needs && k !in published && needs[k] <= published {
      assert k in Elements(ready);
    }
  }

  method PublishWave(needs: Requirements, ready: seq<Id>, pending0: Requirements, published0: set<Id>,
      ghost order0: seq<Id>)
    returns (pending: Requirements, published: set<Id>, ghost order: seq<Id>)
    requires Waves(needs, pending0, published0, order0) && Distinct(ready)
    requires forall k :: k in ready ==> k in needs && k !in published0 && needs[k] <= published0
    ensures Waves(needs, pending, published, order) && published == published0 + Elements(ready)
  {
    hide InOrder, Waves;
    pending, published, order := pending0, published0, order0;
    for i := 0 to |ready|
      invariant Waves(needs, pending, published, order)
      invariant published == published0 + Elements(ready[..i])
    {
      var id := ready[i];
      TakeMore(ready, i);
      ElementsAppend(ready[..i], id);
      assert id !in ready[..i];
      PublishOne(needs, pending, published, order, id);
      pending := pending - {id};
      published := published + {id};
      order := order + [id];
    }
    TakeAll(ready);
  }

  lemma PublishOne(needs: Requirements, pending: Requirements, published: set<Id>, order: seq<Id>, id: Id)
    requires Waves(needs, pending, published, order)
    requires id in needs && id !in published && needs[id] <= published
    ensures Waves(needs, pending - {id}, published + {id}, order + [id])
  {
    ConsiderKeeps(needs, order, id);
    ElementsAppend(order, id);
    hide InOrder;
    assert id !in order && Ready(needs, order, id);
  }

  lemma NoneReady(needs: Requirements, pending: Requirements, published: set<Id>, order: seq<Id>)
    requires Waves(needs, pending, published, order) && pending.Keys != {}
    requires SortedKeys(set k | k in pending && pending[k] <= published) == []
    ensures !(ParentsAmong(needs) && Acyclic(RequirementGraph(needs)))
  {
    var ready := set k | k in pending && pending[k] <= published;
    assert ready == {} by {
      assert Elements(SortedKeys(ready)) == ready;
    }
    hide InOrder, RequirementGraph, Acyclic;
    if ParentsAmong(needs) && Acyclic(RequirementGraph(needs)) {
      var s := AcyclicHasSource(RequirementGraph(needs), pending.Keys);
      assert s !in ready;
      forall r | r in needs[s] ensures r in published {
        RequirementEdge(needs, r, s);
        assert r in needs;
      }
    }
  }

  lemma AllPublished(needs: Requirements, pending: Requirements, published: set<Id>, order: seq<Id>)
    requires Waves(needs, pending, published, order) && pending.Keys == {}
    ensures ParentsAmong(needs) && Acyclic(RequirementGraph(needs))
  {
    forall k | k in needs ensures k in order {
      assert k !in pending.Keys;
      assert k in published;
    }
    InOrderIsAcyclic(needs, order);
    hide Acyclic, RequirementGraph;
    forall k, r | k in needs && r in needs[k] ensures r in needs {
      var i :| 0 <= i < |order| && order[i] == k;
      assert Ready(needs, order[..i], order[i]);
      assert r in order;
    }
  }

  /** For artifacts with distinct ids this is the graph their provenance lists describe. */
  lemma NeedsDescribeProvenance(artifacts: seq<ArtifactMetadata>)
    requires DistinctIds(artifacts)
    ensures RequirementGraph(ParentNeeds(artifacts)) == ProvenanceGraph(artifacts)
    ensures ParentsAmong(ParentNeeds(artifacts)) <==>
      (forall a, p :: a in artifacts && p in a.provenance ==> p.inputArtifactId in ById(artifacts))
  {
    ByIdHolds(artifacts);
    ByIdDistinct(artifacts);
    var needs := ParentNeeds(artifacts);
    hide ById, RequirementGraph, ProvenanceGraph;
    assert needs.Keys == ById(artifacts).Keys;
    forall x ensures x in RequirementGraph(needs) <==> x in ProvenanceGraph(artifacts) {
      RequirementEdge(needs, x.0, x.1);
      ProvenanceEdge(artifacts, x.0, x.1);
    }
    forall a, p | ParentsAmong(needs) && a in artifacts && p in a.provenance
      ensures p.inputArtifactId in ById(artifacts)
    {
      assert p.inputArtifactId in ParentIds(a);
      assert a.artifactId in needs && p.inputArtifactId in needs[a.artifactId];
      assert p.inputArtifactId in needs.Keys;
    }
    forall k, r | k in needs && r in needs[k]
        && (forall a, p :: a in artifacts && p in a.provenance ==> p.inputArtifactId in ById(artifacts))
      ensures r in needs
    {
      var p :| p in ById(artifacts)[k].provenance && p.inputArtifactId == r;
    }
  }
}

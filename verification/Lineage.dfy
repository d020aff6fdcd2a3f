/** The append-only provenance store: publishing artifacts and walking their ancestry. */
module Lineage {
  import opened Graphs
  import opened Ordering
  import opened Outcomes
  import opened Artifacts

  datatype ArtifactEdge = ArtifactEdge(tenantId: string, parentId: Id, childId: Id, edgeType: EdgeType)

  /** Tenant and content hash. */
  type ContentKey = (string, string)

  datatype LineageError =
    | ArtifactAlreadyExists(artifactId: Id)
    | ContentAlreadyExists(tenantId: string, contentHash: string)
    | ArtifactNotFound(artifactId: Id)
    | TenantBoundary(artifactId: Id)

  /** The three fields of the store as one value. */
  datatype Store = Store(
    artifacts: map<Id, ArtifactMetadata>,
    artifactByContent: map<ContentKey, Id>,
    edges: seq<ArtifactEdge>)

  const EMPTY_STORE := Store(map[], map[], [])

  function ContentOf(m: ArtifactMetadata): ContentKey {
    (m.tenantId, m.contentHash)
  }

  /** Parents before children. */
  ghost function Linked(edges: seq<ArtifactEdge>): Graph {
    set e | e in edges :: (e.parentId, e.childId)
  }

  // ----- publishing -----------------------------------------------------------------

  predicate KnownParent(s: Store, tenantId: string, p: Provenance) {
    p.inputArtifactId in s.artifacts && s.artifacts[p.inputArtifactId].tenantId == tenantId
  }

  predicate Publishable(s: Store, m: ArtifactMetadata) {
    && m.artifactId !in s.artifacts
    && ContentOf(m) !in s.artifactByContent
    && forall p :: p in m.provenance ==> KnownParent(s, m.tenantId, p)
  }

  /** The refusal names the parent of one provenance entry: not stored, or stored for another tenant. */
  ghost predicate Blames(s: Store, p: Provenance, error: LineageError) {
    if p.inputArtifactId in s.artifacts then error == TenantBoundary(p.inputArtifactId)
    else error == ArtifactNotFound(p.inputArtifactId)
  }

  /** The error a refused artifact gets: the id first, then the content, then the first bad parent. */
  ghost predicate RefusedWith(s: Store, m: ArtifactMetadata, error: LineageError) {
    if m.artifactId in s.artifacts then error == ArtifactAlreadyExists(m.artifactId)
    else if ContentOf(m) in s.artifactByContent then error == ContentAlreadyExists(m.tenantId, m.contentHash)
    else exists i :: FirstBadParent(s, m, i) && Blames(s, m.provenance[i], error)
  }

  ghost predicate FirstBadParent(s: Store, m: ArtifactMetadata, i: int) {
    && 0 <= i < |m.provenance| && !KnownParent(s, m.tenantId, m.provenance[i])
    && forall j :: 0 <= j < i ==> KnownParent(s, m.tenantId, m.provenance[j])
  }

  function EdgeFor(m: ArtifactMetadata, p: Provenance): ArtifactEdge {
    ArtifactEdge(m.tenantId, p.inputArtifactId, m.artifactId, p.edgeType)
  }

  function EdgesInto(m: ArtifactMetadata): seq<ArtifactEdge> {
    seq(|m.provenance|, i requires 0 <= i < |m.provenance| => EdgeFor(m, m.provenance[i]))
  }

  /** The store after an attempt to publish: a refused artifact changes nothing. */
  function Published(s: Store, m: ArtifactMetadata): Store {
    if !Publishable(s, m) then s
    else
      Store(s.artifacts[m.artifactId := Snapshot(m)],
            s.artifactByContent[ContentOf(m) := m.artifactId],
            s.edges + EdgesInto(Snapshot(m)))
  }

  /** The store after any sequence of attempts. */
  function AfterPublishes(ms: seq<ArtifactMetadata>): Store {
    if ms == [] then EMPTY_STORE else Published(AfterPublishes(ms[..|ms| - 1]), ms[|ms| - 1])
  }

  // ----- what every store keeps -----------------------------------------------------

  ghost predicate IndexHolds(s: Store, c: ContentKey, k: Id) {
    c in s.artifactByContent && s.artifactByContent[c] == k
  }

  ghost predicate IndexPoints(s: Store, c: ContentKey, k: Id) {
    k in s.artifacts && ContentOf(s.artifacts[k]) == c
  }

  /** Artifacts sit under their own id, and the content index names each of them once. */
  ghost predicate Indexed(s: Store) {
    && (forall k :: k in s.artifacts ==> s.artifacts[k].artifactId == k && IndexHolds(s, ContentOf(s.artifacts[k]), k))
    && (forall c :: c in s.artifactByContent ==> IndexPoints(s, c, s.artifactByContent[c]))
  }

  /** An edge says what the provenance of its child says, within one tenant. */
  ghost predicate EdgeIsProvenance(s: Store, e: ArtifactEdge) {
    && e.childId in s.artifacts && e.parentId in s.artifacts
    && s.artifacts[e.childId].tenantId == e.tenantId && s.artifacts[e.parentId].tenantId == e.tenantId
    && Provenance(e.parentId, e.edgeType) in s.artifacts[e.childId].provenance
  }

  /** Edges and provenance entries correspond. */
  ghost predicate EdgesMatch(s: Store) {
    && (forall e :: e in s.edges ==> EdgeIsProvenance(s, e))
    && (forall k, p :: k in s.artifacts && p in s.artifacts[k].provenance ==> EdgeFor(s.artifacts[k], p) in s.edges)
  }

  ghost predicate Sound(s: Store) {
    Indexed(s) && EdgesMatch(s) && Acyclic(Linked(s.edges))
  }

  lemma PublishedIndexed(s: Store, m: ArtifactMetadata)
    requires Indexed(s)
    ensures Indexed(Published(s, m))
  {
  }

  lemma EdgesIntoExact(m: ArtifactMetadata)
    ensures forall e: ArtifactEdge :: e in EdgesInto(m) <==>
      e.tenantId == m.tenantId && e.childId == m.artifactId && Provenance(e.parentId, e.edgeType) in m.provenance
  {
    forall e: ArtifactEdge
      | e.tenantId == m.tenantId && e.childId == m.artifactId && Provenance(e.parentId, e.edgeType) in m.provenance
      ensures e in EdgesInto(m)
    {
      var i :| 0 <= i < |m.provenance| && m.provenance[i] == Provenance(e.parentId, e.edgeType);
      assert EdgesInto(m)[i] == e;
    }
  }

  lemma PublishedEdgesMatch(s: Store, m: ArtifactMetadata)
    requires Indexed(s) && EdgesMatch(s) && Publishable(s, m)
    ensures EdgesMatch(Published(s, m))
  {
    var t := Published(s, m);
    EdgesIntoExact(Snapshot(m));
    SnapshotKeepsProvenance(m);
    hide EdgesInto, Snapshot;
    forall e | e in t.edges ensures EdgeIsProvenance(t, e) {
      if e in s.edges {
        assert EdgeIsProvenance(s, e);
      } else {
        assert Provenance(e.parentId, e.edgeType) in m.provenance;
        assert KnownParent(s, m.tenantId, Provenance(e.parentId, e.edgeType));
      }
    }
  }

  /** Edges into a node without successors close no cycle. */
  lemma SinkKeepsAcyclic(g: Graph, h: Graph, x: Id)
    requires Acyclic(g) && g <= h
    requires forall a, b :: (a, b) in h ==> a != x
    requires forall a, b :: (a, b) in h && (a, b) !in g ==> b == x
    ensures Acyclic(h)
  {
    var rank := (n: Id) => if n == x then |Sources(g)| + 1 else Rank(g, n);
    forall a, b | (a, b) in h ensures rank(a) < rank(b) {
      if b == x {
        SubsetSize(Ancestors(g, a), Sources(g));
      } else {
        RankGrows(g, a, b);
      }
    }
    RankedIsAcyclic(h, rank);
  }

  lemma PublishedAcyclic(s: Store, m: ArtifactMetadata)
    requires Sound(s) && Publishable(s, m)
    ensures Acyclic(Linked(Published(s, m).edges))
  {
    var t := Published(s, m);
    forall a, b | (a, b) in Linked(t.edges)
      ensures a != m.artifactId && ((a, b) in Linked(s.edges) || b == m.artifactId)
    {
      var e :| e in t.edges && (e.parentId, e.childId) == (a, b);
      PublishedEdge(s, m, e);
    }
    hide Publishable, Published, Acyclic, Sound;
    assert Acyclic(Linked(s.edges)) && Linked(s.edges) <= Linked(t.edges) by {
      PublishedKeepsLinks(s, m);
    }
    SinkKeepsAcyclic(Linked(s.edges), Linked(t.edges), m.artifactId);
  }

  lemma PublishedKeepsLinks(s: Store, m: ArtifactMetadata)
    requires Sound(s)
    ensures Acyclic(Linked(s.edges)) && Linked(s.edges) <= Linked(Published(s, m).edges)
  {
    hide Acyclic, Indexed, EdgesMatch, Publishable;
    forall x | x in Linked(s.edges) ensures x in Linked(Published(s, m).edges) {
      var e :| e in s.edges && (e.parentId, e.childId) == x;
      assert e in Published(s, m).edges;
    }
  }

  lemma PublishedEdge(s: Store, m: ArtifactMetadata, e: ArtifactEdge)
    requires Indexed(s) && EdgesMatch(s) && Publishable(s, m) && e in Published(s, m).edges
    ensures e.parentId != m.artifactId && ((e.parentId, e.childId) in Linked(s.edges) || e.childId == m.artifactId)
  {
    EdgesIntoExact(Snapshot(m));
    SnapshotKeepsProvenance(m);
    hide EdgesInto, Snapshot;
    if e in s.edges {
      assert EdgeIsProvenance(s, e);
    } else {
      assert KnownParent(s, m.tenantId, Provenance(e.parentId, e.edgeType));
    }
  }

  lemma PublishedSound(s: Store, m: ArtifactMetadata)
    requires Sound(s)
    ensures Sound(Published(s, m))
  {
    if Publishable(s, m) {
      PublishedIndexed(s, m);
      PublishedEdgesMatch(s, m);
      PublishedAcyclic(s, m);
    }
  }

  /** Whatever is published in whatever order, the edges stay acyclic, inside one tenant and equal to
      the recorded provenance, and the content index stays exact. */
  lemma {:induction false} EveryStoreIsSound(ms: seq<ArtifactMetadata>)
    ensures Sound(AfterPublishes(ms))
  {
    hide Sound, Published;
    if ms == [] {
      EmptyIsSound();
    } else {
      EveryStoreIsSound(ms[..|ms| - 1]);
      PublishedSound(AfterPublishes(ms[..|ms| - 1]), ms[|ms| - 1]);
    }
  }

  /** The k-th attempt published the artifact with that id. */
  ghost predicate PublishedAt(ms: seq<ArtifactMetadata>, k: nat, id: Id) {
    k < |ms| && ms[k].artifactId == id && Publishable(AfterPublishes(ms[..k]), ms[k])
  }

  /** What an attempt published is held ever after as it was then. */
  lemma PublishedIsHeld(ms: seq<ArtifactMetadata>, k: nat, id: Id)
    requires PublishedAt(ms, k, id)
    ensures id in AfterPublishes(ms).artifacts && AfterPublishes(ms).artifacts[id] == Snapshot(ms[k])
  {
    StoreOnlyGrows(ms, k + 1);
    assert ms[..k + 1][..k] == ms[..k];
    hide Snapshot, Publishable;
  }

  lemma LastAttempt(ms: seq<ArtifactMetadata>, k: nat, id: Id)
    requires ms != []
    ensures PublishedAt(ms, k, id) <==>
      if k == |ms| - 1 then
        ms[k].artifactId == id && Publishable(AfterPublishes(ms[..|ms| - 1]), ms[k])
      else PublishedAt(ms[..|ms| - 1], k, id)
  {
    hide Publishable, AfterPublishes;
    if k < |ms| - 1 {
      assert ms[..|ms| - 1][..k] == ms[..k];
    }
  }

  /** The store holds an id exactly when some attempt published it. */
  lemma {:induction false} StoredIffPublished(ms: seq<ArtifactMetadata>, id: Id)
    ensures id in AfterPublishes(ms).artifacts <==> exists k: nat :: PublishedAt(ms, k, id)
    decreases |ms|
  {
    if ms != [] {
      var last := |ms| - 1;
      var front := ms[..last];
      StoredIffPublished(front, id);
      LastAttempt(ms, last, id);
      assert id in AfterPublishes(ms).artifacts <==> id in AfterPublishes(front).artifacts || PublishedAt(ms, last, id);
      hide AfterPublishes, Publishable;
      if k: nat :| PublishedAt(ms, k, id) {
        LastAttempt(ms, k, id);
      }
      if k: nat :| PublishedAt(front, k, id) {
        LastAttempt(ms, k, id);
      }
    }
  }

  lemma EmptyIsSound()
    ensures Sound(EMPTY_STORE)
  {
    RankedIsAcyclic(Linked([]), x => 0);
  }

  /** Later publishes never change or remove what is stored. */
  lemma {:induction false} StoreOnlyGrows(ms: seq<ArtifactMetadata>, k: nat)
    requires k <= |ms|
    ensures var before, after := AfterPublishes(ms[..k]), AfterPublishes(ms);
      && (forall id :: id in before.artifacts ==> id in after.artifacts && after.artifacts[id] == before.artifacts[id])
      && |before.edges| <= |after.edges| && after.edges[..|before.edges|] == before.edges
    decreases |ms|
  {
    if k == |ms| {
      TakeAll(ms);
    } else {
      var front := ms[..|ms| - 1];
      StoreOnlyGrows(front, k);
      assert front[..k] == ms[..k];
      hide Publishable;
    }
  }

  // ----- walking the ancestry -------------------------------------------------------

  datatype Direction = ToAncestors | ToDescendants

  function Near(e: ArtifactEdge, d: Direction): Id {
    if d == ToAncestors then e.childId else e.parentId
  }

  function Far(e: ArtifactEdge, d: Direction): Id {
    if d == ToAncestors then e.parentId else e.childId
  }

  /** The edges as followed in a direction. */
  ghost function Followed(edges: seq<ArtifactEdge>, d: Direction): Graph {
    set e | e in edges :: (Near(e, d), Far(e, d))
  }

  /** Everything strictly above or below an artifact. */
  ghost function Relatives(edges: seq<ArtifactEdge>, d: Direction, root: Id): set<Id> {
    Closure(Followed(edges, d), {root}) - {root}
  }

  lemma FollowedIsLinked(edges: seq<ArtifactEdge>)
    ensures Followed(edges, ToDescendants) == Linked(edges)
    ensures Followed(edges, ToAncestors) == Flip(Linked(edges))
  {
    forall x | x in Followed(edges, ToAncestors) ensures x in Flip(Linked(edges)) {
      var e :| e in edges && x == (e.childId, e.parentId);
      assert (e.parentId, e.childId) in Linked(edges);
    }
  }

  lemma ClosureOfOne(g: Graph, root: Id, x: Id)
    ensures x in Closure(g, {root}) <==> Reaches(g, root, x)
  {
    if Reaches(g, root, x) {
      InClosure(g, {root}, root, x);
    }
  }

  /** The relatives of an artifact are its proper ancestors or descendants. */
  lemma RelativesAreProper(edges: seq<ArtifactEdge>, root: Id, x: Id)
    requires Acyclic(Linked(edges))
    ensures x in Relatives(edges, ToDescendants, root) <==> Precedes(Linked(edges), root, x)
    ensures x in Relatives(edges, ToAncestors, root) <==> Precedes(Linked(edges), x, root)
  {
    var g := Linked(edges);
    FollowedIsLinked(edges);
    ClosureOfOne(g, root, x);
    ClosureOfOne(Flip(g), root, x);
    ReachesSplit(g, root, x);
    FlipReaches(g, x, root);
    ReachesSplit(g, x, root);
    hide Closure, Linked, Flip;
    assert !Precedes(g, root, root);
  }

  /** One artifact is among the ancestors of another exactly when the other is among its descendants. */
  lemma AncestorsMirrorDescendants(edges: seq<ArtifactEdge>, a: Id, d: Id)
    requires Acyclic(Linked(edges))
    ensures a in Relatives(edges, ToAncestors, d) <==> d in Relatives(edges, ToDescendants, a)
  {
    RelativesAreProper(edges, d, a);
    RelativesAreProper(edges, a, d);
  }

  /** Positions of the edges at a node. An edge is referred to by its position in the log. */
  function Adjacent(edges: seq<ArtifactEdge>, d: Direction, current: Id): seq<nat> {
    if edges == [] then []
    else
      var n := |edges| - 1;
      Adjacent(edges[..n], d, current) + (if Near(edges[n], d) == current then [n] else [])
  }

  lemma {:induction false} AdjacentExact(edges: seq<ArtifactEdge>, d: Direction, current: Id)
    ensures forall i :: i in Adjacent(edges, d, current) <==> 0 <= i < |edges| && Near(edges[i], d) == current
    ensures Distinct(Adjacent(edges, d, current))
  {
    if edges != [] {
      var n := |edges| - 1;
      AdjacentExact(edges[..n], d, current);
      if Near(edges[n], d) == current {
        SelectedStayDistinct(Adjacent(edges[..n], d, current), [n]);
      }
    }
  }

  /** Edges are compared by parent, then child, then type. */
  predicate EdgeLe(a: ArtifactEdge, b: ArtifactEdge) {
    if a.parentId != b.parentId then StrLe(a.parentId, b.parentId)
    else if a.childId != b.childId then StrLe(a.childId, b.childId)
    else StrLe(EdgeTypeName(a.edgeType), EdgeTypeName(b.edgeType))
  }

  function ByEdge(edges: seq<ArtifactEdge>): (nat, nat) -> bool {
    (i: nat, j: nat) => j >= |edges| || (i < |edges| && EdgeLe(edges[i], edges[j]))
  }

  function SortedAdjacent(edges: seq<ArtifactEdge>, d: Direction, current: Id): seq<nat> {
    Sort(Adjacent(edges, d, current), ByEdge(edges))
  }

  lemma SortedAdjacentExact(edges: seq<ArtifactEdge>, d: Direction, current: Id)
    ensures forall i :: i in SortedAdjacent(edges, d, current) <==> 0 <= i < |edges| && Near(edges[i], d) == current
    ensures forall j :: 0 <= j < |SortedAdjacent(edges, d, current)| ==>
      SortedAdjacent(edges, d, current)[j] < |edges| && Near(edges[SortedAdjacent(edges, d, current)[j]], d) == current
    ensures Distinct(SortedAdjacent(edges, d, current))
  {
    AdjacentExact(edges, d, current);
    SortMultiset(Adjacent(edges, d, current), ByEdge(edges));
    DistinctPermutation(Adjacent(edges, d, current), SortedAdjacent(edges, d, current));
    hide ByEdge, Sort, Adjacent;
    forall j | 0 <= j < |SortedAdjacent(edges, d, current)|
      ensures SortedAdjacent(edges, d, current)[j] < |edges|
      ensures Near(edges[SortedAdjacent(edges, d, current)[j]], d) == current
    {
      assert SortedAdjacent(edges, d, current)[j] in SortedAdjacent(edges, d, current);
    }
  }

  /** The edges at one node are in ascending order of parent, then child, then type. */
  lemma AdjacentAscends(edges: seq<ArtifactEdge>, d: Direction, current: Id, p: nat, q: nat)
    requires p < q < |SortedAdjacent(edges, d, current)|
    ensures var sorted := SortedAdjacent(edges, d, current);
      sorted[p] < |edges| && sorted[q] < |edges| && var a, b := edges[sorted[p]], edges[sorted[q]];
      && StrLe(a.parentId, b.parentId) && (a.parentId == b.parentId ==> StrLe(a.childId, b.childId))
      && (a.parentId == b.parentId && a.childId == b.childId ==>
            StrLe(EdgeTypeName(a.edgeType), EdgeTypeName(b.edgeType)))
  {
    SortedAdjacentExact(edges, d, current);
    ByEdgeIsTotalPreorder(edges);
    SortSorted(Adjacent(edges, d, current), ByEdge(edges));
    var sorted := SortedAdjacent(edges, d, current);
    assert ByEdge(edges)(sorted[p], sorted[q]);
    hide Sort, Adjacent, StrLe;
    StrLeIsTotalPreorder();
  }

  lemma ByEdgeIsTotalPreorder(edges: seq<ArtifactEdge>)
    ensures TotalPreorder(ByEdge(edges))
  {
    hide StrLe, EdgeTypeName;
    StrLeIsTotalPreorder();
    forall a: ArtifactEdge, b: ArtifactEdge, c: ArtifactEdge | EdgeLe(a, b) && EdgeLe(b, c) ensures EdgeLe(a, c) {
      EdgeLeTransitive(a, b, c);
    }
  }

  lemma EdgeLeTransitive(a: ArtifactEdge, b: ArtifactEdge, c: ArtifactEdge)
    requires EdgeLe(a, b) && EdgeLe(b, c)
    ensures EdgeLe(a, c)
  {
    StrLeIsTotalPreorder();
    hide StrLe;
    if a.parentId == c.parentId && StrLe(b.parentId, a.parentId) && StrLe(a.parentId, b.parentId) {
      StrLeAntisymmetric(a.parentId, b.parentId);
    }
    if a.childId == c.childId && StrLe(b.childId, a.childId) && StrLe(a.childId, b.childId) {
      StrLeAntisymmetric(a.childId, b.childId);
    }
  }

  // ----- the order of a walk ----------------------------------------------------------

  /** The edges at the nodes of a list, node by node. */
  ghost function Listing(edges: seq<ArtifactEdge>, d: Direction, nodes: seq<Id>): seq<nat> {
    if nodes == [] then [] else Listing(edges, d, nodes[..|nodes| - 1]) + SortedAdjacent(edges, d, nodes[|nodes| - 1])
  }

  /** The root and the far ends of listed edges, in the order in which they first occur. */
  ghost function Discovered(edges: seq<ArtifactEdge>, d: Direction, root: Id, listed: seq<nat>): seq<Id> {
    if listed == [] then [root]
    else
      var before, i := Discovered(edges, d, root, listed[..|listed| - 1]), listed[|listed| - 1];
      if i < |edges| && Far(edges[i], d) !in before then before + [Far(edges[i], d)] else before
  }

  /** A node whose edges are listed was discovered by the edges listed before its own. */
  ghost predicate Timely(edges: seq<ArtifactEdge>, d: Direction, root: Id, nodes: seq<Id>) {
    forall j :: 0 <= j < |nodes| ==> j < |Discovered(edges, d, root, Listing(edges, d, nodes[..j]))|
  }

  /** A breadth-first walk: the edges of the nodes in the order in which those edges discover the nodes. */
  ghost predicate IsWalk(edges: seq<ArtifactEdge>, d: Direction, root: Id, nodes: seq<Id>, listed: seq<nat>) {
    && listed == Listing(edges, d, nodes) && nodes == Discovered(edges, d, root, listed)
    && Timely(edges, d, root, nodes)
  }

  /** The edges are listed as a breadth-first walk meets them. */
  ghost predicate InWalkOrder(edges: seq<ArtifactEdge>, d: Direction, root: Id, listed: seq<nat>) {
    exists nodes :: IsWalk(edges, d, root, nodes, listed)
  }

  lemma {:induction false} ListingOfPrefix(edges: seq<ArtifactEdge>, d: Direction, nodes: seq<Id>, j: nat)
    requires j <= |nodes|
    ensures Listing(edges, d, nodes[..j]) <= Listing(edges, d, nodes)
    decreases |nodes|
  {
    if j == |nodes| {
      TakeAll(nodes);
    } else {
      ListingOfPrefix(edges, d, nodes[..|nodes| - 1], j);
      assert nodes[..|nodes| - 1][..j] == nodes[..j];
    }
  }

  lemma {:induction false} DiscoveredByPrefix(edges: seq<ArtifactEdge>, d: Direction, root: Id, listed: seq<nat>,
      front: seq<nat>)
    requires front <= listed
    ensures Discovered(edges, d, root, front) <= Discovered(edges, d, root, listed)
    decreases |listed|
  {
    if front != listed {
      DiscoveredByPrefix(edges, d, root, listed[..|listed| - 1], front);
    }
  }

  lemma {:induction false} WalksAgree(edges: seq<ArtifactEdge>, d: Direction, root: Id, a: seq<Id>, x: seq<nat>,
      b: seq<Id>, y: seq<nat>, j: nat)
    requires IsWalk(edges, d, root, a, x) && IsWalk(edges, d, root, b, y)
    requires j <= |a| && j <= |b|
    ensures a[..j] == b[..j]
    decreases j
  {
    if j > 0 {
      WalksAgree(edges, d, root, a, x, b, y, j - 1);
      hide Listing, Discovered, IsWalk;
      NextIsFound(edges, d, root, a, x, j - 1);
      NextIsFound(edges, d, root, b, y, j - 1);
      TakeMore(a, j - 1);
      TakeMore(b, j - 1);
    }
  }

  lemma NextIsFound(edges: seq<ArtifactEdge>, d: Direction, root: Id, nodes: seq<Id>, listed: seq<nat>, j: nat)
    requires IsWalk(edges, d, root, nodes, listed) && j < |nodes|
    ensures var found := Discovered(edges, d, root, Listing(edges, d, nodes[..j])); j < |found| && found[j] == nodes[j]
  {
    ListingOfPrefix(edges, d, nodes, j);
    hide Listing, Discovered;
    DiscoveredByPrefix(edges, d, root, listed, Listing(edges, d, nodes[..j]));
  }

  /** There is only one breadth-first walk from a root. */
  lemma WalkIsUnique(edges: seq<ArtifactEdge>, d: Direction, root: Id, a: seq<Id>, x: seq<nat>, b: seq<Id>,
      y: seq<nat>)
    requires IsWalk(edges, d, root, a, x) && IsWalk(edges, d, root, b, y)
    ensures a == b && x == y
    decreases |a| > |b|
  {
    if |a| > |b| {
      WalkIsUnique(edges, d, root, b, y, a, x);
    } else {
      hide Listing, Discovered;
      WalksAgree(edges, d, root, a, x, b, y, |a|);
      TakeAll(a);
      TakeAll(b);
    }
  }

  /** The state of a breadth-first walk. */
  datatype Frontier = Frontier(visited: set<Id>, queue: seq<Id>, selected: seq<nat>)

  /** Everything met is reached, and the queue holds met nodes once each. */
  ghost predicate WalkSound(edges: seq<ArtifactEdge>, d: Direction, root: Id, f: Frontier) {
    && root in f.visited && Distinct(f.queue) && Elements(f.queue) <= f.visited
    && f.visited <= {root} + Targets(Followed(edges, d))
    && forall v :: v in f.visited ==> ReachedFrom(Followed(edges, d), {root}, v)
  }

  /** Nodes in `open` have not been looked at; all others have all their edges selected and followed. */
  ghost predicate WalkDone(edges: seq<ArtifactEdge>, d: Direction, f: Frontier, open: set<Id>) {
    && Distinct(f.selected)
    && (forall i :: i in f.selected ==> 0 <= i < |edges| && Near(edges[i], d) in f.visited - open)
    && (forall i :: 0 <= i < |edges| && Near(edges[i], d) in f.visited - open ==>
      i in f.selected && Far(edges[i], d) in f.visited)
  }

  /** The nodes met are those discovered by the selected edges: first the walked ones, then the queue. */
  ghost predicate Met(edges: seq<ArtifactEdge>, d: Direction, root: Id, walked: seq<Id>, f: Frontier) {
    walked + f.queue == Discovered(edges, d, root, f.selected) && Elements(walked + f.queue) == f.visited
  }

  /** The walk so far: the walked nodes were found in time, and their edges are selected. */
  ghost predicate OnTrack(edges: seq<ArtifactEdge>, d: Direction, root: Id, walked: seq<Id>, f: Frontier) {
    && Met(edges, d, root, walked, f) && Timely(edges, d, root, walked)
    && f.selected == Listing(edges, d, walked)
  }

  lemma MetAfterEdge(edges: seq<ArtifactEdge>, d: Direction, root: Id, walked: seq<Id>, f: Frontier, i: nat,
      r: Frontier)
    requires i < |edges| && Met(edges, d, root, walked, f)
    requires r.selected == f.selected + [i]
    requires var next := Far(edges[i], d);
      && r.visited == f.visited + {next} && r.queue == if next in f.visited then f.queue else f.queue + [next]
    ensures Met(edges, d, root, walked, r)
  {
    var next := Far(edges[i], d);
    assert r.selected[..|r.selected| - 1] == f.selected;
    assert next in walked + f.queue <==> next in Elements(walked + f.queue);
    assert walked + (f.queue + [next]) == (walked + f.queue) + [next];
    assert forall v :: v in (walked + f.queue) + [next] <==> v in walked + f.queue || v == next;
  }

  lemma MetAfterDequeue(edges: seq<ArtifactEdge>, d: Direction, root: Id, walked: seq<Id>, was: Frontier, f: Frontier)
    requires was.queue != [] && f == was.(queue := was.queue[1..]) && Met(edges, d, root, walked, was)
    requires Listing(edges, d, walked) == was.selected && Timely(edges, d, root, walked)
    ensures Met(edges, d, root, walked + [was.queue[0]], f) && Timely(edges, d, root, walked + [was.queue[0]])
  {
    hide Discovered, Listing;
    var more := walked + [was.queue[0]];
    assert more + f.queue == walked + was.queue;
    forall j | 0 <= j < |more| ensures j < |Discovered(edges, d, root, Listing(edges, d, more[..j]))| {
      if j < |walked| {
        assert more[..j] == walked[..j];
      } else {
        assert more[..j] == walked;
      }
    }
  }

  lemma WalkEnds(edges: seq<ArtifactEdge>, d: Direction, root: Id, walked: seq<Id>, f: Frontier)
    requires f.queue == [] && OnTrack(edges, d, root, walked, f)
    ensures IsWalk(edges, d, root, walked, f.selected)
  {
    hide Listing, Discovered, Timely;
    assert walked + f.queue == walked;
  }

  lemma ListingOneMore(edges: seq<ArtifactEdge>, d: Direction, nodes: seq<Id>, node: Id)
    ensures Listing(edges, d, nodes + [node]) == Listing(edges, d, nodes) + SortedAdjacent(edges, d, node)
  {
    assert (nodes + [node])[..|nodes + [node]| - 1] == nodes;
  }

  method FollowEdge(edges: seq<ArtifactEdge>, d: Direction, i: nat, f: Frontier, ghost root: Id) returns (r: Frontier)
    requires i < |edges| && WalkSound(edges, d, root, f) && Near(edges[i], d) in f.visited
    ensures WalkSound(edges, d, root, r)
    ensures r.selected == (if i in f.selected then f.selected else f.selected + [i])
    ensures r.visited == f.visited + {Far(edges[i], d)}
    ensures r.queue == if Far(edges[i], d) in f.visited then f.queue else f.queue + [Far(edges[i], d)]
    ensures r.visited - Elements(r.queue) == f.visited - Elements(f.queue)
    ensures (r.visited == f.visited && r.queue == f.queue) || f.visited < r.visited
  {
    var next := Far(edges[i], d);
    r := f.(selected := if i in f.selected then f.selected else f.selected + [i]);
    if next !in f.visited {
      r := r.(visited := f.visited + {next}, queue := f.queue + [next]);
      FarIsReached(edges, d, root, i);
      hide Followed, ReachedFrom;
      assert Elements(r.queue) == Elements(f.queue) + {next};
    }
  }

  lemma FarIsReached(edges: seq<ArtifactEdge>, d: Direction, root: Id, i: nat)
    requires i < |edges| && ReachedFrom(Followed(edges, d), {root}, Near(edges[i], d))
    ensures ReachedFrom(Followed(edges, d), {root}, Far(edges[i], d))
    ensures Far(edges[i], d) in Targets(Followed(edges, d))
  {
    var g := Followed(edges, d);
    var e := edges[i];
    assert (Near(e, d), Far(e, d)) in g;
    assert (Near(e, d), Far(e, d)).1 in Targets(g);
    ReachesAppend(g, root, Near(e, d), Far(e, d));
  }

  /** Follows all edges of one node, in order. */
  method Expand(edges: seq<ArtifactEdge>, d: Direction, current: Id, f: Frontier, ghost root: Id,
      ghost walked: seq<Id>) returns (r: Frontier)
    requires WalkSound(edges, d, root, f) && current in f.visited
    requires WalkDone(edges, d, f, Elements(f.queue) + {current}) && Met(edges, d, root, walked, f)
    ensures r.selected == f.selected + SortedAdjacent(edges, d, current) && Met(edges, d, root, walked, r)
    ensures WalkSound(edges, d, root, r) && WalkDone(edges, d, r, Elements(r.queue) - {current})
    ensures (r.visited == f.visited && r.queue == f.queue) || f.visited < r.visited
    ensures current !in f.queue ==> current !in r.queue
  {
    r := f;
    var adjacent := SortedAdjacent(edges, d, current);
    SortedAdjacentExact(edges, d, current);
    hide SortedAdjacent, WalkSound, WalkDone, Met;
    var k := 0;
    while k < |adjacent|
      invariant 0 <= k <= |adjacent|
      invariant WalkSound(edges, d, root, r) && current in r.visited
      invariant r.selected == f.selected + adjacent[..k] && Met(edges, d, root, walked, r)
      invariant forall j :: 0 <= j < k ==> Far(edges[adjacent[j]], d) in r.visited
      invariant r.visited - Elements(r.queue) == f.visited - Elements(f.queue)
      invariant (r.visited == f.visited && r.queue == f.queue) || f.visited < r.visited
    {
      NotYetSelected(edges, d, current, f, adjacent, k);
      ghost var was := r;
      r := FollowEdge(edges, d, adjacent[k], r, root);
      MetAfterEdge(edges, d, root, walked, was, adjacent[k], r);
      TakeMore(adjacent, k);
      k := k + 1;
    }
    TakeAll(adjacent);
    ExpandedDone(edges, d, current, f, r);
    assert current !in f.queue ==> current in f.visited - Elements(f.queue);
  }

  lemma NotYetSelected(edges: seq<ArtifactEdge>, d: Direction, current: Id, f: Frontier, adjacent: seq<nat>, k: nat)
    requires WalkDone(edges, d, f, Elements(f.queue) + {current}) && k < |adjacent|
    requires Distinct(adjacent) && forall i :: i in adjacent ==> 0 <= i < |edges| && Near(edges[i], d) == current
    ensures adjacent[k] !in f.selected + adjacent[..k]
  {
    assert adjacent[k] in adjacent;
  }

  lemma ExpandedDone(edges: seq<ArtifactEdge>, d: Direction, current: Id, f: Frontier, r: Frontier)
    requires WalkDone(edges, d, f, Elements(f.queue) + {current}) && f.visited <= r.visited && current in f.visited
    requires r.selected == f.selected + SortedAdjacent(edges, d, current)
    requires forall i :: 0 <= i < |edges| && Near(edges[i], d) == current ==> Far(edges[i], d) in r.visited
    requires r.visited - Elements(r.queue) == f.visited - Elements(f.queue)
    ensures WalkDone(edges, d, r, Elements(r.queue) - {current})
  {
    var adjacent := SortedAdjacent(edges, d, current);
    SortedAdjacentExact(edges, d, current);
    hide SortedAdjacent;
    SelectedStayDistinct(f.selected, adjacent);
    forall v ensures v in r.visited - (Elements(r.queue) - {current}) <==>
      v == current || v in f.visited - (Elements(f.queue) + {current})
    {
      assert v in r.visited - Elements(r.queue) <==> v in f.visited - Elements(f.queue);
    }
  }

  lemma SelectedStayDistinct(a: seq<nat>, b: seq<nat>)
    requires Distinct(a) && Distinct(b) && forall i :: i in b ==> i !in a
    ensures Distinct(a + b)
  {
    forall i, j | 0 <= i < j < |a + b| ensures (a + b)[i] != (a + b)[j] {
      if i < |a| <= j {
        assert (a + b)[j] in b && (a + b)[i] in a;
      }
    }
  }

  datatype LineageResult = LineageResult(artifacts: seq<ArtifactMetadata>, edges: seq<nat>)

  /** The artifacts are exactly the relatives, in ascending order; the edges are exactly those met at
      the artifact itself and at its relatives, each once, in the order of the breadth-first walk. */
  ghost predicate RightTraversal(s: Store, d: Direction, root: Id, r: LineageResult) {
    && |r.artifacts| == |SortedKeys(Relatives(s.edges, d, root))|
    && (forall i :: 0 <= i < |r.artifacts| ==> var id := SortedKeys(Relatives(s.edges, d, root))[i];
      id in s.artifacts && r.artifacts[i] == s.artifacts[id])
    && Distinct(r.edges) && InWalkOrder(s.edges, d, root, r.edges)
    && (forall i :: i in r.edges <==>
      0 <= i < |s.edges| && Near(s.edges[i], d) in Relatives(s.edges, d, root) + {root})
  }

  /** One turn of the queue loop: the first node leaves the queue and its edges are followed. */
  method WalkOn(edges: seq<ArtifactEdge>, d: Direction, f: Frontier, ghost root: Id, ghost walked: seq<Id>)
      returns (r: Frontier)
    requires f.queue != [] && WalkSound(edges, d, root, f) && WalkDone(edges, d, f, Elements(f.queue))
    requires OnTrack(edges, d, root, walked, f)
    ensures WalkSound(edges, d, root, r) && WalkDone(edges, d, r, Elements(r.queue))
    ensures OnTrack(edges, d, root, walked + [f.queue[0]], r)
    ensures (r.visited == f.visited && r.queue == f.queue[1..]) || f.visited < r.visited
  {
    var current := f.queue[0];
    var rest := f.(queue := f.queue[1..]);
    Dequeue(edges, d, root, f, rest);
    MetAfterDequeue(edges, d, root, walked, f, rest);
    ListingOneMore(edges, d, walked, current);
    hide WalkSound, WalkDone, Listing, Discovered, Timely, Met, SortedAdjacent;
    r := Expand(edges, d, current, rest, root, walked + [current]);
    WithoutAbsent(r.queue, current);
  }

  lemma WithoutAbsent(queue: seq<Id>, x: Id)
    requires x !in queue
    ensures Elements(queue) - {x} == Elements(queue)
  {
  }

  method WalkFrom(edges: seq<ArtifactEdge>, d: Direction, root: Id) returns (visited: set<Id>, selected: seq<nat>)
    ensures InWalkOrder(edges, d, root, selected)
    ensures visited == Closure(Followed(edges, d), {root})
    ensures Distinct(selected)
    ensures forall i :: i in selected <==> 0 <= i < |edges| && Near(edges[i], d) in visited
  {
    var f := Frontier({root}, [root], []);
    ghost var walked: seq<Id> := [];
    StartWalk(edges, d, root);
    hide WalkSound, WalkDone, Followed, Closure, OnTrack, IsWalk;
    while f.queue != []
      invariant WalkSound(edges, d, root, f) && WalkDone(edges, d, f, Elements(f.queue))
      invariant OnTrack(edges, d, root, walked, f)
      decreases |{root} + Targets(Followed(edges, d)) - f.visited|, |f.queue|
    {
      var next := WalkOn(edges, d, f, root, walked);
      walked := walked + [f.queue[0]];
      LessLeft(edges, d, root, f, next);
      f := next;
    }
    WalkCloses(edges, d, root, f);
    WalkEnds(edges, d, root, walked, f);
    return f.visited, f.selected;
  }

  lemma StartWalk(edges: seq<ArtifactEdge>, d: Direction, root: Id)
    ensures WalkSound(edges, d, root, Frontier({root}, [root], []))
    ensures WalkDone(edges, d, Frontier({root}, [root], []), Elements([root]))
    ensures OnTrack(edges, d, root, [], Frontier({root}, [root], []))
  {
    assert [] + [root] == [root];
    ReachesSelf(Followed(edges, d), root);
  }

  lemma Dequeue(edges: seq<ArtifactEdge>, d: Direction, root: Id, was: Frontier, f: Frontier)
    requires was.queue != [] && f == was.(queue := was.queue[1..])
    requires WalkSound(edges, d, root, was) && WalkDone(edges, d, was, Elements(was.queue))
    ensures WalkSound(edges, d, root, f) && WalkDone(edges, d, f, Elements(f.queue) + {was.queue[0]})
    ensures was.queue[0] in f.visited && was.queue[0] !in f.queue
  {
    var current := was.queue[0];
    hide ReachedFrom, Followed;
    assert Elements(was.queue) == Elements(f.queue) + {current};
  }

  lemma LessLeft(edges: seq<ArtifactEdge>, d: Direction, root: Id, f: Frontier, next: Frontier)
    requires WalkSound(edges, d, root, next) && f.queue != []
    requires f.visited < next.visited || (f.visited == next.visited && next.queue == f.queue[1..])
    ensures var all := {root} + Targets(Followed(edges, d));
      |all - next.visited| < |all - f.visited| || (f.visited == next.visited && next.queue == f.queue[1..])
  {
    var all := {root} + Targets(Followed(edges, d));
    hide ReachedFrom, Followed;
    if f.visited < next.visited {
      var x :| x in next.visited && x !in f.visited;
      assert x in all - f.visited && x !in all - next.visited;
      ProperSubsetSmaller(all - next.visited, all - f.visited);
    }
  }

  lemma WalkCloses(edges: seq<ArtifactEdge>, d: Direction, root: Id, f: Frontier)
    requires f.queue == [] && WalkSound(edges, d, root, f) && WalkDone(edges, d, f, Elements(f.queue))
    ensures Distinct(f.selected)
    ensures f.visited == Closure(Followed(edges, d), {root})
    ensures forall i :: i in f.selected <==> 0 <= i < |edges| && Near(edges[i], d) in f.visited
  {
    hide ReachedFrom;
    forall a, b | a in f.visited && (a, b) in Followed(edges, d) ensures b in f.visited {
      var e :| e in edges && (Near(e, d), Far(e, d)) == (a, b);
      var i :| 0 <= i < |edges| && edges[i] == e;
      assert i in f.selected;
    }
    ClosureExact(Followed(edges, d), {root}, f.visited);
  }

  lemma RelativesAreStored(s: Store, d: Direction, root: Id)
    requires Sound(s)
    ensures Relatives(s.edges, d, root) <= s.artifacts.Keys
  {
    hide Sound, Acyclic, ReachedFrom, Linked, Followed;
    forall x | x in Relatives(s.edges, d, root) ensures x in s.artifacts {
      FarEndIsStored(s, d, x);
    }
  }

  lemma FarEndIsStored(s: Store, d: Direction, x: Id)
    requires Sound(s) && x in Targets(Followed(s.edges, d))
    ensures x in s.artifacts
  {
    hide Indexed, Acyclic, Linked;
    var y :| y in Followed(s.edges, d) && y.1 == x;
    var e :| e in s.edges && y == (Near(e, d), Far(e, d));
    assert EdgeIsProvenance(s, e);
  }

  method LookUpAll(artifacts: map<Id, ArtifactMetadata>, ids: seq<Id>) returns (r: seq<ArtifactMetadata>)
    requires Elements(ids) <= artifacts.Keys
    ensures |r| == |ids| && forall i :: 0 <= i < |ids| ==> ids[i] in artifacts && r[i] == artifacts[ids[i]]
  {
    r := [];
    for k := 0 to |ids|
      invariant |r| == k && forall i :: 0 <= i < k ==> ids[i] in artifacts && r[i] == artifacts[ids[i]]
    {
      assert ids[k] in Elements(ids);
      if ids[k] in artifacts {
        r := r + [artifacts[ids[k]]];
      }
    }
  }

  /** The first provenance entry whose parent is missing or in another tenant. */
  method CheckParents(s: Store, m: ArtifactMetadata) returns (error: Option<LineageError>)
    ensures error == None <==> forall p :: p in m.provenance ==> KnownParent(s, m.tenantId, p)
    ensures error.Some? ==> exists i :: FirstBadParent(s, m, i) && Blames(s, m.provenance[i], error.value)
  {
    for k := 0 to |m.provenance|
      invariant forall j :: 0 <= j < k ==> KnownParent(s, m.tenantId, m.provenance[j])
    {
      var p := m.provenance[k];
      if p.inputArtifactId !in s.artifacts {
        assert FirstBadParent(s, m, k);
        return Some(ArtifactNotFound(p.inputArtifactId));
      }
      if s.artifacts[p.inputArtifactId].tenantId != m.tenantId {
        assert FirstBadParent(s, m, k);
        return Some(TenantBoundary(p.inputArtifactId));
      }
    }
    return None;
  }

  /** The body of the traversal, once the artifact is known to be visible. */
  method Collect(s: Store, d: Direction, root: Id) returns (r: LineageResult)
    requires Sound(s)
    ensures RightTraversal(s, d, root, r)
  {
    hide Sound, Closure, Followed, InWalkOrder;
    var visited, selected := WalkFrom(s.edges, d, root);
    RootIsVisited(s, d, root);
    var ids := EnumerateSorted(visited - {root});
    assert visited - {root} == Relatives(s.edges, d, root);
    RelativesAreStored(s, d, root);
    var found := LookUpAll(s.artifacts, ids);
    r := LineageResult(found, selected);
    CollectedIsRight(s, d, root, visited, ids, r);
  }

  lemma CollectedIsRight(s: Store, d: Direction, root: Id, visited: set<Id>, ids: seq<Id>, r: LineageResult)
    requires visited == Closure(Followed(s.edges, d), {root}) && root in visited
    requires ids == SortedKeys(Relatives(s.edges, d, root))
    requires |r.artifacts| == |ids|
    requires forall i :: 0 <= i < |ids| ==> ids[i] in s.artifacts && r.artifacts[i] == s.artifacts[ids[i]]
    requires Distinct(r.edges) && InWalkOrder(s.edges, d, root, r.edges)
    requires forall i :: i in r.edges <==> 0 <= i < |s.edges| && Near(s.edges[i], d) in visited
    ensures RightTraversal(s, d, root, r)
  {
    assert visited == Relatives(s.edges, d, root) + {root};
    hide Closure, Followed, Relatives, SortedKeys, InWalkOrder;
  }

  lemma RootIsVisited(s: Store, d: Direction, root: Id)
    ensures root in Closure(Followed(s.edges, d), {root})
  {
    ClosureIsClosed(Followed(s.edges, d), {root});
  }

  class InMemoryArtifactLineage {
    var artifacts: map<Id, ArtifactMetadata>
    var artifactByContent: map<ContentKey, Id>
    var edges: seq<ArtifactEdge>

    function State(): Store
      reads this
    {
      Store(artifacts, artifactByContent, edges)
    }

    constructor ()
      ensures State() == EMPTY_STORE
    {
      artifacts, artifactByContent, edges := map[], map[], [];
    }

    /** Publishes exactly the publishable artifacts; a refusal names its cause and changes nothing. */
    method Publish(m: ArtifactMetadata) returns (r: Result<ArtifactMetadata, LineageError>)
      requires Sound(State())
      modifies this
      ensures State() == Published(old(State()), m) && Sound(State())
      ensures r.Ok? <==> Publishable(old(State()), m)
      ensures r.Ok? ==> r.value == Snapshot(m)
      ensures r.Err? ==> RefusedWith(old(State()), m, r.error)
    {
      hide Sound, Snapshot;
      ghost var s := State();
      PublishedSound(s, m);
      if m.artifactId in artifacts {
        return Err(ArtifactAlreadyExists(m.artifactId));
      }
      if (m.tenantId, m.contentHash) in artifactByContent {
        return Err(ContentAlreadyExists(m.tenantId, m.contentHash));
      }
      var error := CheckParents(State(), m);
      if error.Some? {
        return Err(error.value);
      }
      var stored := Snapshot(m);
      SnapshotKeepsProvenance(m);
      artifacts := artifacts[stored.artifactId := stored];
      artifactByContent := artifactByContent[(stored.tenantId, stored.contentHash) := stored.artifactId];
      PushEdges(stored);
      return Ok(stored);
    }

    method PushEdges(stored: ArtifactMetadata)
      modifies this`edges
      ensures edges == old(edges) + EdgesInto(stored)
    {
      for k := 0 to |stored.provenance|
        invariant edges == old(edges) + EdgesInto(stored)[..k]
      {
        var p := stored.provenance[k];
        TakeMore(EdgesInto(stored), k);
        edges := edges + [ArtifactEdge(stored.tenantId, p.inputArtifactId, stored.artifactId, p.edgeType)];
      }
      TakeAll(EdgesInto(stored));
    }

    /** An artifact of another tenant is refused, not hidden. */
    method Get(tenantId: string, artifactId: Id) returns (r: Result<Option<ArtifactMetadata>, LineageError>)
      ensures r == if artifactId !in artifacts then Ok(None)
        else if artifacts[artifactId].tenantId != tenantId then Err(TenantBoundary(artifactId))
        else Ok(Some(artifacts[artifactId]))
    {
      if artifactId !in artifacts {
        return Ok(None);
      }
      if artifacts[artifactId].tenantId != tenantId {
        return Err(TenantBoundary(artifactId));
      }
      return Ok(Some(artifacts[artifactId]));
    }

    method Traverse(tenantId: string, artifactId: Id, d: Direction) returns (r: Result<LineageResult, LineageError>)
      requires Sound(State())
      ensures r.Ok? <==> artifactId in artifacts && artifacts[artifactId].tenantId == tenantId
      ensures r.Ok? ==> RightTraversal(State(), d, artifactId, r.value)
      ensures r.Err? ==>
        r.error == if artifactId in artifacts then TenantBoundary(artifactId) else ArtifactNotFound(artifactId)
    {
      hide Sound, RightTraversal;
      var root := Get(tenantId, artifactId);
      if root.Err? {
        return Err(root.error);
      }
      if root.value.None? {
        return Err(ArtifactNotFound(artifactId));
      }
      var result := Collect(State(), d, artifactId);
      return Ok(result);
    }

    method AncestorsOf(tenantId: string, artifactId: Id) returns (r: Result<LineageResult, LineageError>)
      requires Sound(State())
      ensures r.Ok? <==> artifactId in artifacts && artifacts[artifactId].tenantId == tenantId
      ensures r.Ok? ==> RightTraversal(State(), ToAncestors, artifactId, r.value)
    {
      r := Traverse(tenantId, artifactId, ToAncestors);
    }

    method DescendantsOf(tenantId: string, artifactId: Id) returns (r: Result<LineageResult, LineageError>)
      requires Sound(State())
      ensures r.Ok? <==> artifactId in artifacts && artifacts[artifactId].tenantId == tenantId
      ensures r.Ok? ==> RightTraversal(State(), ToDescendants, artifactId, r.value)
    {
      r := Traverse(tenantId, artifactId, ToDescendants);
    }
  }

  /** Both traversals stay inside the tenant of the artifact they start from. */
  lemma {:induction false} RelativesShareTenant(s: Store, d: Direction, root: Id, x: Id)
    requires Sound(s) && root in s.artifacts && x in Relatives(s.edges, d, root)
    ensures x in s.artifacts && s.artifacts[x].tenantId == s.artifacts[root].tenantId
  {
    RelativesAreStored(s, d, root);
    var tenant := s.artifacts[root].tenantId;
    var same := set k | k in s.artifacts && s.artifacts[k].tenantId == tenant;
    ClosureOfOne(Followed(s.edges, d), root, x);
    hide Indexed, Acyclic, Closure, Reaches;
    forall a, b | a in same && (a, b) in Followed(s.edges, d) ensures b in same {
      var e :| e in s.edges && (a, b) == (Near(e, d), Far(e, d));
      assert EdgeIsProvenance(s, e);
    }
    ClosedContains(Followed(s.edges, d), same, root, x);
  }
}

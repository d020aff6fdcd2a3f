/** The normal form of a backup and the payloads it refuses, without the functions that compute them. */
module BackupForms {
  import opened Graphs
  import opened Ordering
  import opened Outcomes
  import opened Json
  import opened JsonPointer
  import opened ArrayIndices
  import opened JsonDocuments
  import opened EventHistories
  import opened BackupContent

  // ----- the normal form ------------------------------------------------------------

  /** Normalising only rearranges: workflows by id and version, events by run and number, artifacts by id, and
      bundles by the text of their digest. */
  lemma NormalFormMeans(c: Content, text: DigestText)
    ensures var n := Normalize(c, text);
      && n.schemaVersion == "awf/control-plane-backup/v1" && n.tenantId == c.tenantId && n.createdAt == c.createdAt
      && multiset(n.workflows) == multiset(c.workflows) && multiset(n.events) == multiset(c.events)
      && multiset(n.artifacts) == multiset(c.artifacts)
      && multiset(n.evidenceBundles) == multiset(c.evidenceBundles)
  {
    SortMultiset(c.workflows, WorkflowLe);
    SortMultiset(c.events, EventLe);
    SortMultiset(c.artifacts, ArtifactLe);
    SortMultiset(c.evidenceBundles, BundleLe(text));
    hide Sort, WorkflowLe, EventLe, ArtifactLe, BundleLe;
  }

  lemma NormalFormAscends(c: Content, text: DigestText, i: nat, j: nat)
    requires i < j
    ensures var n := Normalize(c, text);
      && (j < |n.workflows| ==>
        StrLe(n.workflows[i].id, n.workflows[j].id)
        && (n.workflows[i].id == n.workflows[j].id ==> StrLe(n.workflows[i].version, n.workflows[j].version)))
      && (j < |n.events| ==>
        StrLe(n.events[i].event.runId, n.events[j].event.runId)
        && (n.events[i].event.runId == n.events[j].event.runId ==> n.events[i].sequence <= n.events[j].sequence))
      && (j < |n.artifacts| ==> StrLe(n.artifacts[i].artifactId, n.artifacts[j].artifactId))
      && (j < |n.evidenceBundles| ==>
        StrLe(text(n.evidenceBundles[i].bundleId), text(n.evidenceBundles[j].bundleId)))
  {
    WorkflowLeIsTotalPreorder();
    EventLeIsTotalPreorder();
    ArtifactLeIsTotalPreorder();
    BundleLeIsTotalPreorder(text);
    hide Sort, StrLe, TotalPreorder;
    SortSorted(c.workflows, WorkflowLe);
    SortSorted(c.events, EventLe);
    SortSorted(c.artifacts, ArtifactLe);
    SortSorted(c.evidenceBundles, BundleLe(text));
    var n := Normalize(c, text);
    if j < |n.workflows| {
      StrLeTotal(n.workflows[i].id, n.workflows[i].id);
    }
    if j < |n.events| {
      StrLeTotal(n.events[i].event.runId, n.events[i].event.runId);
    }
  }

  // ----- refused payloads -----------------------------------------------------------

  /** Somewhere in the value there is an object with a key that, in lower case, is one of the forbidden ones. */
  ghost predicate HoldsForbidden(value: Json, at: Segments, key: string) {
    && Lookup(value, at).Ok? && Lookup(value, at).value.Obj? && key in Lookup(value, at).value.fields
    && LowerCase(key) in {"apikey", "authorization", "cookie", "password", "secret", "token"}
  }

  lemma BelowHolds(value: Json, segment: string, at: Segments, key: string)
    requires Child(value, segment).Ok? && HoldsForbidden(Child(value, segment).value, at, key)
    ensures HoldsForbidden(value, [segment] + at, key)
  {
    assert ([segment] + at)[1..] == at;
    hide Child, LowerCase;
  }

  /** A payload is refused exactly when some object inside it, however deep, has a forbidden key. */
  lemma {:induction false} ForbiddenIff(value: Json)
    ensures ContainsForbiddenKey(value) <==> exists at, key :: HoldsForbidden(value, at, key)
  {
    if ContainsForbiddenKey(value) {
      var at, key := FindForbidden(value);
    }
    if at, key :| HoldsForbidden(value, at, key) {
      HeldIsFound(value, at, key);
    }
  }

  lemma {:induction false} FindForbidden(value: Json) returns (at: Segments, key: string)
    requires ContainsForbiddenKey(value)
    ensures HoldsForbidden(value, at, key)
  {
    match value
    case Arr(items) =>
      var i :| 0 <= i < |items| && ContainsForbiddenKey(items[i]);
      at, key := FindForbidden(items[i]);
      IndexIsNamed(i, |items|);
      hide HoldsForbidden;
      BelowHolds(value, IndexText(i), at, key);
      at := [IndexText(i)] + at;
    case Obj(fields) =>
      key :| key in fields && (LowerCase(key) in FORBIDDEN_KEYS || ContainsForbiddenKey(fields[key]));
      if LowerCase(key) in FORBIDDEN_KEYS {
        at := [];
      } else {
        var segment := key;
        at, key := FindForbidden(fields[segment]);
        hide HoldsForbidden;
        BelowHolds(value, segment, at, key);
        at := [segment] + at;
      }
    case _ =>
  }

  lemma {:induction false} HeldIsFound(value: Json, at: Segments, key: string)
    requires HoldsForbidden(value, at, key)
    ensures ContainsForbiddenKey(value)
    decreases |at|
  {
    if at != [] {
      HeldIsFound(Child(value, at[0]).value, at[1..], key);
    }
  }

  /** Lower case moves the letters A to Z and nothing else. */
  lemma LowerCaseMeans(s: string, i: nat)
    requires i < |s|
    ensures |LowerCase(s)| == |s|
    ensures 'A' <= s[i] <= 'Z' ==> LowerCase(s)[i] as int == s[i] as int + 32
    ensures !('A' <= s[i] <= 'Z') ==> LowerCase(s)[i] == s[i]
  {
  }
}

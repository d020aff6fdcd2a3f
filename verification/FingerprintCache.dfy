/** The write-once cache from node fingerprints to artifacts. */
module FingerprintCache {
  import opened Outcomes
  import opened Ordering
  import Artifacts

  datatype CacheKey = CacheKey(tenantId: string, fingerprint: string, verifierPolicyDigest: string,
      sensitivity: Artifacts.Sensitivity)

  datatype CacheEntry = CacheEntry(key: CacheKey, artifactId: string, createdAt: string)

  type Entries = map<CacheKey, CacheEntry>

  /** Storing an entry: the first artifact of a key stays, a different one is refused. */
  function Stored(entries: Entries, e: CacheEntry): Entries {
    if e.key in entries then entries else entries[e.key := e]
  }

  class InMemoryFingerprintCache {
    var entries: Entries

    constructor ()
      ensures entries == map[]
    {
      entries := map[];
    }

    method Put(e: CacheEntry) returns (r: Result<CacheEntry, CacheKey>)
      modifies this
      ensures entries == Stored(old(entries), e)
      ensures r.Err? <==> e.key in old(entries) && old(entries)[e.key].artifactId != e.artifactId
      ensures r.Err? ==> r.error == e.key
      ensures r.Ok? ==> e.key in entries && r.value == entries[e.key] && r.value.artifactId == e.artifactId
    {
      if e.key in entries && entries[e.key].artifactId != e.artifactId {
        return Err(e.key);
      }
      if e.key in entries {
        return Ok(entries[e.key]);
      }
      entries := entries[e.key := e];
      return Ok(e);
    }

    method Get(key: CacheKey) returns (r: Option<CacheEntry>)
      ensures r == if key in entries then Some(entries[key]) else None
    {
      r := if key in entries then Some(entries[key]) else None;
    }
  }

  /** The entries after any sequence of puts, successful or refused. */
  function AfterPuts(entries: Entries, puts: seq<CacheEntry>): Entries {
    if puts == [] then entries else Stored(AfterPuts(entries, puts[..|puts| - 1]), puts[|puts| - 1])
  }

  /** Position `i` holds the first put of its key. */
  ghost predicate FirstPut(puts: seq<CacheEntry>, i: int) {
    0 <= i < |puts| && forall j :: 0 <= j < i ==> puts[j].key != puts[i].key
  }

  /** A key holds what it held before, or else the first entry put for it; nothing else is stored. */
  lemma {:induction false} FirstPutWins(entries: Entries, puts: seq<CacheEntry>)
    ensures forall k :: k in entries ==> k in AfterPuts(entries, puts) && AfterPuts(entries, puts)[k] == entries[k]
    ensures forall k :: k in AfterPuts(entries, puts) && k !in entries ==>
      exists i :: FirstPut(puts, i) && puts[i].key == k && AfterPuts(entries, puts)[k] == puts[i]
    ensures forall e :: e in puts ==> e.key in AfterPuts(entries, puts)
  {
    if puts != [] {
      var front, last := puts[..|puts| - 1], puts[|puts| - 1];
      FirstPutWins(entries, front);
      SplitLast(puts);
      var before, after := AfterPuts(entries, front), AfterPuts(entries, puts);
      forall k | k in after && k !in entries
        ensures exists i :: FirstPut(puts, i) && puts[i].key == k && after[k] == puts[i]
      {
        if k in before {
          var i :| FirstPut(front, i) && front[i].key == k && before[k] == front[i];
          assert FirstPut(puts, i) && puts[i] == front[i];
        } else {
          forall j | 0 <= j < |front| ensures front[j].key != k {
            assert front[j] in front;
          }
          assert FirstPut(puts, |puts| - 1);
        }
      }
    }
  }

  /** If everything ever put satisfies `honest`, so does everything stored. */
  lemma {:induction false} HonestyPreserved(entries: Entries, puts: seq<CacheEntry>, honest: CacheEntry -> bool)
    requires forall k :: k in entries ==> honest(entries[k])
    requires forall e :: e in puts ==> honest(e)
    ensures forall k :: k in AfterPuts(entries, puts) ==> honest(AfterPuts(entries, puts)[k])
  {
    FirstPutWins(entries, puts);
    forall k | k in AfterPuts(entries, puts) ensures honest(AfterPuts(entries, puts)[k]) {
      if k !in entries {
        var i :| FirstPut(puts, i) && puts[i].key == k && AfterPuts(entries, puts)[k] == puts[i];
        assert puts[i] in puts;
      }
    }
  }

  // ----- fingerprints ---------------------------------------------------------------

  /** The digest is represented by what it digests; `rest` stands for the fields passed through. */
  datatype FingerprintInput<T> = FingerprintInput(rest: T, secretReferenceIds: seq<string>)

  function CalculateNodeFingerprint<T>(input: FingerprintInput<T>): FingerprintInput<T> {
    input.(secretReferenceIds := Sort(input.secretReferenceIds, StrLe))
  }

  /** Two nodes have the same fingerprint exactly when they agree up to the order of their secrets. */
  lemma FingerprintIgnoresSecretOrder<T>(a: FingerprintInput<T>, b: FingerprintInput<T>)
    ensures CalculateNodeFingerprint(a) == CalculateNodeFingerprint(b) <==>
      (a.rest == b.rest && multiset(a.secretReferenceIds) == multiset(b.secretReferenceIds))
  {
    SortMultiset(a.secretReferenceIds, StrLe);
    SortMultiset(b.secretReferenceIds, StrLe);
    if multiset(a.secretReferenceIds) == multiset(b.secretReferenceIds) {
      StrLeIsTotalPreorder();
      SortSorted(a.secretReferenceIds, StrLe);
      SortSorted(b.secretReferenceIds, StrLe);
      SortedUnique(Sort(a.secretReferenceIds, StrLe), Sort(b.secretReferenceIds, StrLe));
    }
  }

  /** Sorted sequences with the same elements are equal. */
  lemma {:induction false} SortedUnique(a: seq<string>, b: seq<string>)
    requires Sorted(a, StrLe) && Sorted(b, StrLe) && multiset(a) == multiset(b)
    ensures a == b
    decreases |a|
  {
    assert |multiset(a)| == |a| && |multiset(b)| == |b|;
    if a != [] {
      SameHead(a, b);
      assert a == [a[0]] + a[1..] && b == [b[0]] + b[1..];
      hide StrLe;
      assert multiset(a[1..]) == multiset(a) - multiset{a[0]};
      assert multiset(b[1..]) == multiset(b) - multiset{b[0]};
      SortedUnique(a[1..], b[1..]);
    }
  }

  lemma SameHead(a: seq<string>, b: seq<string>)
    requires a != [] && b != [] && Sorted(a, StrLe) && Sorted(b, StrLe) && multiset(a) == multiset(b)
    ensures a[0] == b[0]
  {
    HeadIsLeast(a, b[0]);
    HeadIsLeast(b, a[0]);
    StrLeAntisymmetric(a[0], b[0]);
  }

  lemma HeadIsLeast(a: seq<string>, x: string)
    requires a != [] && Sorted(a, StrLe) && x in multiset(a)
    ensures StrLe(a[0], x)
  {
    StrLeTotal(x, x);
    hide StrLe;
    var i :| 0 <= i < |a| && a[i] == x;
  }
}

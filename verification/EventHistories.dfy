/** Event lists as backups hold them: each run counts from one, in order, under fresh keys. */
module EventHistories {
  import opened Ordering
  import opened RunEvents

  predicate Follows(x: StoredEvent, e: StoredEvent) {
    x.event.runId == e.event.runId && x.sequence == e.sequence - 1
  }

  predicate Clashes(x: StoredEvent, e: StoredEvent) {
    x.event.runId == e.event.runId && (x.sequence == e.sequence || x.event.eventKey == e.event.eventKey)
  }

  /** `e` can come directly after `xs`. */
  ghost predicate NextInLine(xs: seq<StoredEvent>, e: StoredEvent) {
    && e.sequence >= 1
    && (e.sequence > 1 ==> exists x :: x in xs && Follows(x, e))
    && forall x :: x in xs ==> !Clashes(x, e)
  }

  ghost predicate InSequence(es: seq<StoredEvent>) {
    forall k :: 0 <= k < |es| ==> NextInLine(es[..k], es[k])
  }

  lemma InSequenceExtends(es: seq<StoredEvent>, k: nat)
    requires k < |es|
    ensures InSequence(es[..k + 1]) <==> InSequence(es[..k]) && NextInLine(es[..k], es[k])
  {
    hide NextInLine;
    forall i | 0 <= i < k ensures es[..k + 1][..i] == es[..k][..i] {
    }
    TakeMore(es, k);
    if InSequence(es[..k + 1]) {
      assert NextInLine(es[..k + 1][..k], es[..k + 1][k]);
      forall i | 0 <= i < k ensures NextInLine(es[..k][..i], es[..k][i]) {
        assert NextInLine(es[..k + 1][..i], es[..k + 1][i]);
      }
    }
  }

  // ----- the counters of the check --------------------------------------------------

  /** The next sequence number and the keys used, per run. */
  datatype Counters = Counters(nextByRun: map<string, int>, keysByRun: map<string, set<string>>)

  function NextOf(c: Counters, run: string): int {
    if run in c.nextByRun then c.nextByRun[run] else 1
  }

  function KeysOf(c: Counters, run: string): set<string> {
    if run in c.keysByRun then c.keysByRun[run] else {}
  }

  ghost predicate Occupied(xs: seq<StoredEvent>, run: string, sequence: int) {
    exists x :: x in xs && x.event.runId == run && x.sequence == sequence
  }

  ghost predicate KeyUsed(xs: seq<StoredEvent>, run: string, key: string) {
    exists x :: x in xs && x.event.runId == run && x.event.eventKey == key
  }

  /** The counters describe `xs`: the occupied numbers of a run are exactly those below its next one. */
  ghost predicate Counted(xs: seq<StoredEvent>, c: Counters) {
    && (forall run :: NextOf(c, run) >= 1)
    && (forall run, s :: Occupied(xs, run, s) <==> 1 <= s < NextOf(c, run))
    && (forall run, key :: key in KeysOf(c, run) <==> KeyUsed(xs, run, key))
  }

  lemma CountedDecides(xs: seq<StoredEvent>, c: Counters, e: StoredEvent)
    requires Counted(xs, c)
    ensures NextInLine(xs, e) <==>
      e.sequence == NextOf(c, e.event.runId) && e.event.eventKey !in KeysOf(c, e.event.runId)
  {
    var run := e.event.runId;
    hide NextOf, KeysOf;
    assert Occupied(xs, run, e.sequence) <==> 1 <= e.sequence < NextOf(c, run);
    assert Occupied(xs, run, e.sequence - 1) <==> 1 <= e.sequence - 1 < NextOf(c, run);
    assert e.event.eventKey in KeysOf(c, run) <==> KeyUsed(xs, run, e.event.eventKey);
    if NextInLine(xs, e) {
      assert !Occupied(xs, run, e.sequence);
      if e.sequence > 1 {
        var x :| x in xs && Follows(x, e);
        assert Occupied(xs, run, e.sequence - 1);
      }
    }
  }

  function Count(c: Counters, e: StoredEvent): Counters {
    var run := e.event.runId;
    Counters(c.nextByRun[run := NextOf(c, run) + 1], c.keysByRun[run := KeysOf(c, run) + {e.event.eventKey}])
  }

  lemma CountKeepsCounted(xs: seq<StoredEvent>, c: Counters, e: StoredEvent)
    requires Counted(xs, c) && NextInLine(xs, e)
    ensures Counted(xs + [e], Count(c, e))
  {
    var run := e.event.runId;
    var after := Count(c, e);
    CountedDecides(xs, c, e);
    hide NextInLine;
    forall r ensures NextOf(after, r) >= 1 {
      assert NextOf(c, r) >= 1;
    }
    forall r, s ensures Occupied(xs + [e], r, s) <==> 1 <= s < NextOf(after, r) {
      OccupiedAfter(xs, e, r, s);
      assert Occupied(xs, r, s) <==> 1 <= s < NextOf(c, r);
    }
    forall r, key ensures key in KeysOf(after, r) <==> KeyUsed(xs + [e], r, key) {
      KeyUsedAfter(xs, e, r, key);
      assert key in KeysOf(c, r) <==> KeyUsed(xs, r, key);
    }
  }

  lemma OccupiedAfter(xs: seq<StoredEvent>, e: StoredEvent, r: string, s: int)
    ensures Occupied(xs + [e], r, s) <==> Occupied(xs, r, s) || (r == e.event.runId && s == e.sequence)
  {
    assert e in xs + [e];
  }

  lemma KeyUsedAfter(xs: seq<StoredEvent>, e: StoredEvent, r: string, key: string)
    ensures KeyUsed(xs + [e], r, key) <==> KeyUsed(xs, r, key) || (r == e.event.runId && key == e.event.eventKey)
  {
    assert e in xs + [e];
  }

  // ----- sorting --------------------------------------------------------------------

  /** By run, then by sequence number. */
  predicate EventLe(a: StoredEvent, b: StoredEvent) {
    if a.event.runId == b.event.runId then a.sequence <= b.sequence else StrLe(a.event.runId, b.event.runId)
  }

  lemma EventLeIsTotalPreorder()
    ensures TotalPreorder(EventLe)
  {
    forall a, b ensures EventLe(a, b) || EventLe(b, a) {
      StrLeTotal(a.event.runId, b.event.runId);
    }
    forall a: StoredEvent, b: StoredEvent, c: StoredEvent | EventLe(a, b) && EventLe(b, c) ensures EventLe(a, c) {
      var x, y, z := a.event.runId, b.event.runId, c.event.runId;
      if x != y && y != z {
        StrLeTransitive(x, y, z);
        if x == z {
          StrLeAntisymmetric(x, y);
        }
      }
    }
  }

  lemma InSequenceIsDistinct(es: seq<StoredEvent>)
    requires InSequence(es)
    ensures Distinct(es)
    ensures forall x, y :: x in es && y in es && x != y ==> !Clashes(x, y)
  {
    forall i, j | 0 <= i < j < |es| ensures es[i] != es[j] && !Clashes(es[i], es[j]) {
      assert NextInLine(es[..j], es[j]) && es[i] in es[..j];
    }
  }

  /** Sorting by run and number keeps a list in sequence. */
  lemma SortKeepsSequence(es: seq<StoredEvent>)
    requires InSequence(es)
    ensures InSequence(Sort(es, EventLe))
  {
    var sorted := Sort(es, EventLe);
    InSequenceIsDistinct(es);
    SortMultiset(es, EventLe);
    DistinctPermutation(es, sorted);
    EventLeIsTotalPreorder();
    SortSorted(es, EventLe);
    hide EventLe, Sort, InSequence, NextInLine;
    forall k | 0 <= k < |sorted| ensures NextInLine(sorted[..k], sorted[k]) {
      SortedInLine(es, sorted, k);
    }
    assert InSequence(sorted) by {
      PlacedInSequence(sorted);
    }
  }

  lemma PlacedInSequence(es: seq<StoredEvent>)
    requires forall k :: 0 <= k < |es| ==> NextInLine(es[..k], es[k])
    ensures InSequence(es)
  {
  }

  lemma SortedInLine(es: seq<StoredEvent>, sorted: seq<StoredEvent>, k: nat)
    requires InSequence(es) && k < |sorted| && Sorted(sorted, EventLe) && Distinct(sorted)
    requires forall x :: x in sorted <==> x in es
    requires forall x, y :: x in es && y in es && x != y ==> !Clashes(x, y)
    ensures NextInLine(sorted[..k], sorted[k])
  {
    var e := sorted[k];
    assert e in es;
    var i :| 0 <= i < |es| && es[i] == e;
    assert NextInLine(es[..i], e);
    if e.sequence > 1 {
      var x :| x in es[..i] && Follows(x, e);
      assert x in sorted;
      var j :| 0 <= j < |sorted| && sorted[j] == x;
      assert j > k ==> EventLe(sorted[k], sorted[j]);
      assert x in sorted[..k];
    }
    forall x | x in sorted[..k] ensures !Clashes(x, e) {
      var j :| 0 <= j < k && sorted[j] == x;
      assert x in es;
    }
  }
}

/** The order in which scans over ascending items take them: an item comes late only because of what it needs. */
module ScanOrder {
  import opened Graphs
  import opened Ordering
  import opened Workflows
  import opened MultiPass
  import opened Scheduling
  import Simulator

  predicate Less(a: Id, b: Id) {
    StrLe(a, b) && a != b
  }

  ghost predicate Ascending(items: seq<Id>) {
    forall i, j :: 0 <= i < j < |items| ==> Less(items[i], items[j])
  }

  /** Something `y` needs is not among the first `i` taken, or comes after `y` in the scan. */
  ghost predicate Waits(needs: Requirements, y: Id, done: seq<Id>, i: nat) {
    i <= |done| && y in needs && exists r :: r in needs[y] && (r !in done[..i] || Less(y, r))
  }

  /** Whatever larger item was taken already, `y` had to wait then. */
  ghost predicate Excused(needs: Requirements, done: seq<Id>, y: Id) {
    forall i :: 0 <= i < |done| && Less(y, done[i]) ==> Waits(needs, y, done, i)
  }

  /** The items taken were excused when they came, those left are excused so far, and those of them this scan has
      passed still wait. */
  ghost predicate Scanning(items: seq<Id>, needs: Requirements, done: seq<Id>, q: nat) {
    && q <= |items|
    && (forall j :: 0 <= j < |done| ==> Excused(needs, done[..j], done[j]))
    && (forall y :: y in items && y in needs && y !in done ==> Excused(needs, done, y))
    && (forall k :: 0 <= k < q && items[k] in needs && items[k] !in done ==> Waits(needs, items[k], done, |done|))
  }

  lemma WaitsOn(needs: Requirements, y: Id, done: seq<Id>, x: Id, i: nat)
    requires i <= |done| && Waits(needs, y, done, i)
    ensures Waits(needs, y, done + [x], i)
  {
    assert (done + [x])[..i] == done[..i];
  }

  lemma StillWaits(needs: Requirements, y: Id, done: seq<Id>, x: Id)
    requires Waits(needs, y, done, |done|) && Less(y, x)
    ensures Waits(needs, y, done + [x], |done| + 1)
  {
    hide Less;
    TakeAll(done);
    TakeAll(done + [x]);
    var r :| r in needs[y] && (r !in done[..|done|] || Less(y, r));
    assert r in done + [x] ==> r in done || r == x;
  }

  lemma ExcusedOn(needs: Requirements, done: seq<Id>, y: Id, x: Id)
    requires Excused(needs, done, y) && (Less(y, x) ==> Waits(needs, y, done, |done|))
    ensures Excused(needs, done + [x], y)
  {
    hide Less, Waits;
    var after := done + [x];
    forall i | 0 <= i < |after| && Less(y, after[i]) ensures Waits(needs, y, after, i) {
      if i < |done| {
        assert after[i] == done[i];
      }
      WaitsOn(needs, y, done, x, i);
    }
  }

  /** Taking an item keeps everyone excused: a smaller one that is left was passed by and waits. */
  lemma TakeKeeps(items: seq<Id>, needs: Requirements, done: seq<Id>, q: nat)
    requires Ascending(items) && Scanning(items, needs, done, q) && q < |items|
    requires items[q] !in done && Ready(needs, done, items[q])
    ensures Scanning(items, needs, done + [items[q]], q + 1)
  {
    hide Less, Waits, Excused;
    var x := items[q];
    var after := done + [x];
    TakenWereExcused(items, needs, done, q);
    forall y | y in items && y in needs && y !in after ensures Excused(needs, after, y) {
      var k :| 0 <= k < |items| && items[k] == y;
      if Less(y, x) {
        NotAfter(items, k, q);
      }
      ExcusedOn(needs, done, y, x);
    }
    forall k | 0 <= k < q + 1 && items[k] in needs && items[k] !in after
      ensures Waits(needs, items[k], after, |after|)
    {
      StillWaits(needs, items[k], done, x);
    }
  }

  lemma TakenWereExcused(items: seq<Id>, needs: Requirements, done: seq<Id>, q: nat)
    requires Scanning(items, needs, done, q) && q < |items| && items[q] in needs && items[q] !in done
    ensures forall j :: 0 <= j <= |done| ==>
      Excused(needs, (done + [items[q]])[..j], (done + [items[q]])[j])
  {
    hide Waits, Excused, Less;
    var after := done + [items[q]];
    forall j | 0 <= j <= |done| ensures Excused(needs, after[..j], after[j]) {
      if j < |done| {
        assert after[..j] == done[..j];
      } else {
        assert after[..j] == done;
      }
    }
  }

  lemma NotAfter(items: seq<Id>, k: nat, q: nat)
    requires Ascending(items) && k < |items| && q < |items| && Less(items[k], items[q])
    ensures k < q
  {
    if k > q {
      StrLeAntisymmetric(items[k], items[q]);
    }
  }

  lemma ConsiderScans(items: seq<Id>, needs: Requirements, done: seq<Id>, q: nat)
    requires Ascending(items) && Scanning(items, needs, done, q) && q < |items|
    ensures Scanning(items, needs, Consider(needs, done, items[q]), q + 1)
  {
    hide Less, Excused;
    var x := items[q];
    if x !in done && Ready(needs, done, x) {
      TakeKeeps(items, needs, done, q);
    } else if x !in done && x in needs {
      TakeAll(done);
      var r :| r in needs[x] && r !in done;
      assert Waits(needs, x, done, |done|);
    }
  }

  lemma {:induction false} PassScans(items: seq<Id>, needs: Requirements, done: seq<Id>, q: nat)
    requires Ascending(items) && Scanning(items, needs, done, q)
    ensures Scanning(items, needs, Pass(items[q..], needs, done), |items|)
    decreases |items| - q
  {
    hide Scanning, Ascending, Consider;
    ScanBound(items, needs, done, q);
    if q < |items| {
      ConsiderScans(items, needs, done, q);
      DropFront(items, q);
      PassScans(items, needs, Consider(needs, done, items[q]), q + 1);
    }
  }

  lemma ScanBound(items: seq<Id>, needs: Requirements, done: seq<Id>, q: nat)
    requires Scanning(items, needs, done, q)
    ensures q <= |items|
  {
  }

  lemma NextScan(items: seq<Id>, needs: Requirements, done: seq<Id>, q: nat)
    requires Scanning(items, needs, done, q)
    ensures Scanning(items, needs, done, 0)
  {
    hide Excused, Waits;
  }

  lemma {:induction false} PassesScan(items: seq<Id>, needs: Requirements, done: seq<Id>)
    requires Ascending(items) && Scanning(items, needs, done, 0)
    ensures Scanning(items, needs, Passes(items, needs, done), 0)
    decreases |Missing(items, done)|
  {
    hide Scanning, Ascending, Pass, Missing;
    TakeAll(items);
    assert items[0..] == items;
    PassScans(items, needs, done, 0);
    var next := Pass(items, needs, done);
    NextScan(items, needs, next, |items|);
    PassesStep(items, needs, done);
    if next != done {
      PassesScan(items, needs, next);
    }
  }

  /** Whenever a smaller item comes later, it needs something that had not been taken when the larger one was, or
      that comes after itself in the scan. */
  lemma LateForAReason(items: seq<Id>, needs: Requirements, i: nat, j: nat)
    requires Ascending(items) && i < j < |Passes(items, needs, [])|
    requires Less(Passes(items, needs, [])[j], Passes(items, needs, [])[i])
    ensures Waits(needs, Passes(items, needs, [])[j], Passes(items, needs, []), i)
  {
    var order := Passes(items, needs, []);
    assert Scanning(items, needs, [], 0);
    PassesScan(items, needs, []);
    hide Passes, Waits, Less;
    assert Excused(needs, order[..j], order[j]);
    assert order[..j][i] == order[i];
    PrefixWaits(needs, order[j], order, i, j);
  }

  lemma PrefixWaits(needs: Requirements, y: Id, order: seq<Id>, i: nat, j: nat)
    requires i < j <= |order| && Waits(needs, y, order[..j], i)
    ensures Waits(needs, y, order, i)
  {
    assert order[..j][..i] == order[..i];
  }

  // ----- the schedulers -------------------------------------------------------------

  lemma NodesAscend(w: Workflow)
    requires UniqueIds(w)
    ensures Ascending(IdsOf(Simulator.SortedNodes(w)))
  {
    forall a, b ensures Simulator.NodeLe(a, b) || Simulator.NodeLe(b, a) {
      StrLeTotal(a.id, b.id);
    }
    forall a, b, c | Simulator.NodeLe(a, b) && Simulator.NodeLe(b, c) ensures Simulator.NodeLe(a, c) {
      StrLeTransitive(a.id, b.id, c.id);
    }
    SortSorted(w.nodes, Simulator.NodeLe);
    SortMultiset(w.nodes, Simulator.NodeLe);
    var nodes := Simulator.SortedNodes(w);
    hide Sort, StrLe;
    DistinctIdsPermute(w.nodes, nodes);
  }

  lemma DistinctIdsPermute(xs: seq<Node>, ys: seq<Node>)
    requires Distinct(IdsOf(xs)) && multiset(xs) == multiset(ys)
    ensures Distinct(IdsOf(ys))
  {
    assert Distinct(xs) by {
      forall i, j | 0 <= i < j < |xs| ensures xs[i] != xs[j] {
        assert IdsOf(xs)[i] != IdsOf(xs)[j];
      }
    }
    DistinctPermutation(xs, ys);
    forall i, j | 0 <= i < j < |ys| ensures IdsOf(ys)[i] != IdsOf(ys)[j] {
      assert ys[i] in multiset(xs) && ys[j] in multiset(xs);
      var a :| 0 <= a < |xs| && xs[a] == ys[i];
      var b :| 0 <= b < |xs| && xs[b] == ys[j];
      assert IdsOf(xs)[a] != IdsOf(xs)[b];
    }
  }

  /** In the common order of the simulator and the durable runner a node runs before every larger one, unless an edge
      makes it wait for a node that has not run before the larger one or is larger than itself. */
  lemma OrderIsAscendingWherePossible(w: Workflow, available: set<string>, i: nat, j: nat)
    returns (m: Id)
    requires UniqueIds(w) && i < j < |Simulator.Order(w, available)|
    requires Less(Simulator.Order(w, available)[j], Simulator.Order(w, available)[i])
    ensures (m, Simulator.Order(w, available)[j]) in Dependencies(w)
    ensures m !in Simulator.Order(w, available)[..i] || Less(Simulator.Order(w, available)[j], m)
  {
    var items, needs := IdsOf(Simulator.SortedNodes(w)), NeedsOf(w, available);
    var order := Simulator.Order(w, available);
    NodesAscend(w);
    assert order == Passes(items, needs, []);
    hide Simulator.Order, Simulator.SortedNodes, UniqueIds, Less, Passes, Ascending, IdsOf, Dependencies;
    LateForAReason(items, needs, i, j);
    m :| m in needs[order[j]] && (m !in order[..i] || Less(order[j], m));
    UpstreamEdges(w, m, order[j]);
  }
}

/** The loop shared by both schedulers and by artifact restore: scan the items in a fixed order,
    take every item whose requirements are met, and repeat while a scan makes progress. */
module MultiPass {
  import opened Graphs
  import opened Ordering

  /** What each item waits for; an item without an entry can never be taken. */
  type Requirements = map<Id, set<Id>>

  predicate Ready(needs: Requirements, done: seq<Id>, item: Id) {
    item in needs && forall r :: r in needs[item] ==> r in done
  }

  /** One item of a scan. */
  function Consider(needs: Requirements, done: seq<Id>, item: Id): seq<Id> {
    if item !in done && Ready(needs, done, item) then done + [item] else done
  }

  /** One scan. Items taken early in the scan already count for later items. */
  function Pass(items: seq<Id>, needs: Requirements, done: seq<Id>): seq<Id> {
    if items == [] then done else Pass(items[1..], needs, Consider(needs, done, items[0]))
  }

  ghost function Missing(items: seq<Id>, done: seq<Id>): set<Id> {
    Elements(items) - Elements(done)
  }

  /** Scans until one makes no progress; the result lists the items in the order they were taken. */
  function Passes(items: seq<Id>, needs: Requirements, done: seq<Id>): seq<Id>
    decreases |Missing(items, done)|
  {
    var next := Pass(items, needs, done);
    PassProgress(items, items, needs, done);
    if next == done then done else Passes(items, needs, next)
  }

  /** Every element appears once, and only after everything it needs. */
  ghost predicate InOrder(needs: Requirements, order: seq<Id>) {
    && Distinct(order)
    && forall i :: 0 <= i < |order| ==> Ready(needs, order[..i], order[i])
  }

  /** The requirements as a graph: an edge from each requirement to the item that waits for it. */
  ghost function RequirementGraph(needs: Requirements): Graph {
    set r, item | item in needs && r in needs[item] :: (r, item)
  }

  lemma RequirementEdge(needs: Requirements, r: Id, item: Id)
    ensures (r, item) in RequirementGraph(needs) <==> item in needs && r in needs[item]
  {
  }

  // ----- one scan ---------------------------------------------------------------

  lemma ConsiderKeeps(needs: Requirements, done: seq<Id>, item: Id)
    ensures done <= Consider(needs, done, item)
    ensures InOrder(needs, done) ==> InOrder(needs, Consider(needs, done, item))
    ensures Ready(needs, done, item) ==> item in Consider(needs, done, item)
  {
    var next := Consider(needs, done, item);
    if InOrder(needs, done) && next != done {
      forall i | 0 <= i < |next| ensures Ready(needs, next[..i], next[i]) {
        assert next[..i] == done[..i];
        if i == |done| {
          assert next[..i] == done;
        }
      }
    }
  }

  lemma {:induction false} PassExtends(items: seq<Id>, needs: Requirements, done: seq<Id>)
    ensures done <= Pass(items, needs, done)
    ensures InOrder(needs, done) ==> InOrder(needs, Pass(items, needs, done))
    ensures forall x :: x in Pass(items, needs, done) ==> x in done || x in items
    decreases items
  {
    if items != [] {
      ConsiderKeeps(needs, done, items[0]);
      PassExtends(items[1..], needs, Consider(needs, done, items[0]));
    }
  }

  /** A scan either changes nothing or leaves fewer items missing. */
  lemma {:induction false} PassProgress(all: seq<Id>, items: seq<Id>, needs: Requirements, done: seq<Id>)
    requires forall x :: x in items ==> x in all
    ensures done <= Pass(items, needs, done)
    ensures Pass(items, needs, done) == done || |Missing(all, Pass(items, needs, done))| < |Missing(all, done)|
  {
    PassExtends(items, needs, done);
    var next := Pass(items, needs, done);
    if next != done {
      NewElement(items, needs, done);
      var x :| x in next && x !in done && x in items;
      assert Missing(all, next) <= Missing(all, done);
      assert x in Missing(all, done) && x !in Missing(all, next);
      ProperSubsetSmaller(Missing(all, next), Missing(all, done));
    }
  }

  lemma {:induction false} NewElement(items: seq<Id>, needs: Requirements, done: seq<Id>)
    requires Pass(items, needs, done) != done
    ensures exists x :: x in Pass(items, needs, done) && x !in done && x in items
    decreases items
  {
    var item := items[0];
    var next := Consider(needs, done, item);
    PassExtends(items[1..], needs, next);
    if next != done {
      assert next[|done|] == item;
      assert Pass(items, needs, done)[|done|] == item;
    } else {
      NewElement(items[1..], needs, done);
    }
  }

  /** A scan that takes nothing has seen no ready item. */
  lemma {:induction false} IdlePassMeansNoneReady(items: seq<Id>, needs: Requirements, done: seq<Id>)
    requires Pass(items, needs, done) == done
    ensures forall x :: x in items && x !in done ==> !Ready(needs, done, x)
    decreases items
  {
    if items != [] {
      var next := Consider(needs, done, items[0]);
      PassExtends(items[1..], needs, next);
      assert next == done;
      IdlePassMeansNoneReady(items[1..], needs, done);
    }
  }

  lemma {:induction false} PassAppend(items: seq<Id>, needs: Requirements, done: seq<Id>, item: Id)
    ensures Pass(items + [item], needs, done) == Consider(needs, Pass(items, needs, done), item)
    decreases items
  {
    if items == [] {
      assert items + [item] == [item];
      assert Pass([item], needs, done) == Pass([item][1..], needs, Consider(needs, done, item));
    } else {
      assert (items + [item])[1..] == items[1..] + [item];
      PassAppend(items[1..], needs, Consider(needs, done, items[0]), item);
    }
  }

  lemma {:induction false} NothingMissing(items: seq<Id>, needs: Requirements, done: seq<Id>)
    requires forall x :: x in items ==> x in done
    ensures Pass(items, needs, done) == done
    decreases items
  {
    if items != [] {
      NothingMissing(items[1..], needs, done);
    }
  }

  // ----- all scans --------------------------------------------------------------

  lemma {:induction false} PassesSound(items: seq<Id>, needs: Requirements, done: seq<Id>)
    ensures done <= Passes(items, needs, done)
    ensures InOrder(needs, done) ==> InOrder(needs, Passes(items, needs, done))
    ensures forall x :: x in Passes(items, needs, done) ==> x in done || x in items
    ensures Pass(items, needs, Passes(items, needs, done)) == Passes(items, needs, done)
    decreases |Missing(items, done)|
  {
    var next := Pass(items, needs, done);
    PassExtends(items, needs, done);
    PassProgress(items, items, needs, done);
    if next != done {
      PassesSound(items, needs, next);
    }
  }

  /** Scanning once more before scanning on makes no difference. */
  lemma PassesStep(items: seq<Id>, needs: Requirements, done: seq<Id>)
    ensures Passes(items, needs, done) == Passes(items, needs, Pass(items, needs, done))
    ensures Pass(items, needs, done) == done ==> Passes(items, needs, done) == done
    ensures Pass(items, needs, done) != done ==>
      |Missing(items, Pass(items, needs, done))| < |Missing(items, done)|
  {
    PassProgress(items, items, needs, done);
  }

  /** Everything is taken as soon as the requirements are met by the items and have no cycle. */
  lemma PassesComplete(items: seq<Id>, needs: Requirements)
    requires forall x :: x in items ==> x in needs && forall r :: r in needs[x] ==> r in items
    requires Acyclic(RequirementGraph(needs))
    ensures forall x :: x in items <==> x in Passes(items, needs, [])
  {
    hide Passes, RequirementGraph, Acyclic;
    var done := Passes(items, needs, []);
    PassesSound(items, needs, []);
    IdlePassMeansNoneReady(items, needs, done);
    var left := Missing(items, done);
    if left != {} {
      var x := AcyclicHasSource(RequirementGraph(needs), left);
      forall r | r in needs[x] ensures r in done {
        RequirementEdge(needs, r, x);
      }
      assert false;
    }
    forall x | x in items ensures x in done {
      assert x !in left;
    }
  }

  /** An order that respects the requirements ranks the graph restricted to it. */
  lemma InOrderIsAcyclic(needs: Requirements, order: seq<Id>)
    requires InOrder(needs, order)
    requires forall item :: item in needs ==> item in order
    ensures Acyclic(RequirementGraph(needs))
  {
    var rank := (x: Id) => Position(order, x);
    forall r, item | (r, item) in RequirementGraph(needs) ensures rank(r) < rank(item) {
      RequirementEdge(needs, r, item);
      PositionSpec(order, item);
      var k := Position(order, item);
      assert Ready(needs, order[..k], order[k]);
      var m :| 0 <= m < k && order[..k][m] == r;
      PositionUnique(order, m);
    }
    RankedIsAcyclic(RequirementGraph(needs), rank);
  }

  ghost function Position(order: seq<Id>, x: Id): int {
    if order == [] || order[0] == x then 0 else 1 + Position(order[1..], x)
  }

  lemma PositionSpec(order: seq<Id>, x: Id)
    requires x in order
    ensures 0 <= Position(order, x) < |order| && order[Position(order, x)] == x
  {
  }

  lemma PositionUnique(order: seq<Id>, k: nat)
    requires Distinct(order) && k < |order|
    ensures Position(order, order[k]) == k
  {
    PositionSpec(order, order[k]);
  }

  /** Scanning takes every item exactly when nothing is missing and nothing is circular. */
  lemma PassesCompleteIff(items: seq<Id>, needs: Requirements)
    requires forall x :: x in needs ==> x in items
    ensures (forall x :: x in items ==> x in Passes(items, needs, [])) <==>
      ((forall x :: x in items ==> x in needs && forall r :: r in needs[x] ==> r in items)
        && Acyclic(RequirementGraph(needs)))
  {
    var done := Passes(items, needs, []);
    PassesSound(items, needs, []);
    if forall x :: x in items ==> x in done {
      InOrderIsAcyclic(needs, done);
      forall x | x in items ensures x in needs && forall r :: r in needs[x] ==> r in items {
        PositionSpec(done, x);
        assert Ready(needs, done[..Position(done, x)], x);
        forall r | r in needs[x] ensures r in items {
          assert r in done[..Position(done, x)];
        }
      }
    }
    if (forall x :: x in items ==> x in needs && forall r :: r in needs[x] ==> r in items)
        && Acyclic(RequirementGraph(needs)) {
      PassesComplete(items, needs);
    }
  }
}

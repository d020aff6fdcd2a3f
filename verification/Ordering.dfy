/** The total order on identifiers and the stable sorts built on it. */
module Ordering {

  /** Lexicographic order on strings. */
  predicate StrLe(a: string, b: string) {
    a == [] || (b != [] && (a[0] < b[0] || (a[0] == b[0] && StrLe(a[1..], b[1..]))))
  }

  lemma StrLeTotal(a: string, b: string)
    ensures StrLe(a, b) || StrLe(b, a)
  {
  }

  lemma {:induction false} StrLeAntisymmetric(a: string, b: string)
    requires StrLe(a, b) && StrLe(b, a)
    ensures a == b
  {
    if a != [] {
      StrLeAntisymmetric(a[1..], b[1..]);
      assert a == [a[0]] + a[1..] && b == [b[0]] + b[1..];
    }
  }

  lemma StrLeTransitive(a: string, b: string, c: string)
    requires StrLe(a, b) && StrLe(b, c)
    ensures StrLe(a, c)
  {
  }

  /** A text is not above another exactly when it is a prefix of it or smaller at the first difference. */
  lemma {:induction false} StrLeIsLexicographic(a: string, b: string)
    ensures StrLe(a, b) <==>
      a <= b || exists k :: 0 <= k < |a| && k < |b| && a[..k] == b[..k] && a[k] < b[k]
    decreases |a|
  {
    if a != [] && b != [] {
      StrLeIsLexicographic(a[1..], b[1..]);
      if k :| 0 <= k < |a| && k < |b| && a[..k] == b[..k] && a[k] < b[k] {
        if k > 0 {
          assert a[0] == a[..k][0] && b[0] == b[..k][0];
          assert a[1..][..k - 1] == a[..k][1..] && b[1..][..k - 1] == b[..k][1..];
        }
      }
      if a[0] == b[0] && StrLe(a[1..], b[1..]) && !(a[1..] <= b[1..]) {
        var k :| 0 <= k < |a| - 1 && k < |b| - 1 && a[1..][..k] == b[1..][..k] && a[1..][k] < b[1..][k];
        assert a[..k + 1] == [a[0]] + a[1..][..k] && b[..k + 1] == [b[0]] + b[1..][..k];
      }
      assert a == [a[0]] + a[1..] && b == [b[0]] + b[1..];
    }
  }

  ghost predicate TotalPreorder<T(!new)>(le: (T, T) -> bool) {
    && (forall a, b :: le(a, b) || le(b, a))
    && (forall a, b, c :: le(a, b) && le(b, c) ==> le(a, c))
  }

  ghost predicate Sorted<T>(xs: seq<T>, le: (T, T) -> bool) {
    forall i, j :: 0 <= i < j < |xs| ==> le(xs[i], xs[j])
  }

  ghost predicate Distinct<T>(xs: seq<T>) {
    forall i, j :: 0 <= i < j < |xs| ==> xs[i] != xs[j]
  }

  predicate IsPrefix<T(==)>(a: seq<T>, b: seq<T>) {
    |a| <= |b| && b[..|a|] == a
  }

  function Elements<T>(xs: seq<T>): set<T> {
    set x | x in xs
  }

  lemma SplitLast<T>(xs: seq<T>)
    requires xs != []
    ensures xs == xs[..|xs| - 1] + [xs[|xs| - 1]]
  {
  }

  lemma TakeMore<T>(xs: seq<T>, k: nat)
    requires k < |xs|
    ensures xs[..k + 1] == xs[..k] + [xs[k]] && xs[..k + 1][..k] == xs[..k]
  {
  }

  lemma TakeAll<T>(xs: seq<T>)
    ensures xs[..|xs|] == xs && xs[..0] == [] && xs[0..] == xs && xs[|xs|..] == []
  {
  }

  lemma DropFront<T>(xs: seq<T>, k: nat)
    requires k < |xs|
    ensures xs[k..] != [] && xs[k..][0] == xs[k] && xs[k..][1..] == xs[k + 1..]
  {
  }

  lemma AppendSplit<T>(xs: seq<T>, x: T)
    ensures (xs + [x])[|xs + [x]| - 1] == x && (xs + [x])[..|xs + [x]| - 1] == xs
  {
  }

  lemma ElementsAppend<T>(xs: seq<T>, x: T)
    ensures Elements(xs + [x]) == Elements(xs) + {x}
  {
  }

  function Insert<T>(x: T, xs: seq<T>, le: (T, T) -> bool): seq<T> {
    if xs == [] || le(x, xs[0]) then [x] + xs else [xs[0]] + Insert(x, xs[1..], le)
  }

  /** Stable insertion sort: equal elements keep their order. */
  function Sort<T>(xs: seq<T>, le: (T, T) -> bool): seq<T> {
    if xs == [] then [] else Insert(xs[0], Sort(xs[1..], le), le)
  }

  lemma {:induction false} InsertMultiset<T>(x: T, xs: seq<T>, le: (T, T) -> bool)
    ensures multiset(Insert(x, xs, le)) == multiset([x]) + multiset(xs)
  {
    if xs == [] || le(x, xs[0]) {
    } else {
      InsertMultiset(x, xs[1..], le);
      assert xs == [xs[0]] + xs[1..];
    }
  }

  /** Sorting permutes. */
  lemma {:induction false} SortMultiset<T>(xs: seq<T>, le: (T, T) -> bool)
    ensures multiset(Sort(xs, le)) == multiset(xs)
    ensures |Sort(xs, le)| == |xs|
    ensures forall x :: x in Sort(xs, le) <==> x in xs
  {
    if xs != [] {
      SortMultiset(xs[1..], le);
      InsertMultiset(xs[0], Sort(xs[1..], le), le);
      assert xs == [xs[0]] + xs[1..];
    }
    assert |multiset(Sort(xs, le))| == |Sort(xs, le)| && |multiset(xs)| == |xs|;
    forall x ensures x in Sort(xs, le) <==> x in xs {
      assert x in multiset(Sort(xs, le)) <==> x in multiset(xs);
    }
  }

  lemma {:induction false} InsertSorted<T(!new)>(x: T, xs: seq<T>, le: (T, T) -> bool)
    requires TotalPreorder(le) && Sorted(xs, le)
    ensures Sorted(Insert(x, xs, le), le)
  {
    if xs != [] && !le(x, xs[0]) {
      InsertSorted(x, xs[1..], le);
      InsertMultiset(x, xs[1..], le);
      var r := Insert(x, xs[1..], le);
      forall i | 0 <= i < |r| ensures le(xs[0], r[i]) {
        assert r[i] in multiset(r);
        assert r[i] == x || r[i] in xs[1..];
      }
    }
  }

  /** Sorting sorts. */
  lemma {:induction false} SortSorted<T(!new)>(xs: seq<T>, le: (T, T) -> bool)
    requires TotalPreorder(le)
    ensures Sorted(Sort(xs, le), le)
  {
    if xs != [] {
      SortSorted(xs[1..], le);
      InsertSorted(xs[0], Sort(xs[1..], le), le);
    }
  }

  /** Sorting a sorted sequence changes nothing. */
  lemma {:induction false} SortIdempotent<T>(xs: seq<T>, le: (T, T) -> bool)
    requires Sorted(xs, le)
    ensures Sort(xs, le) == xs
  {
    if xs != [] {
      SortIdempotent(xs[1..], le);
      assert Sort(xs[1..], le) == xs[1..];
      assert xs == [xs[0]] + xs[1..];
    }
  }

  lemma StrLeIsTotalPreorder()
    ensures TotalPreorder(StrLe)
  {
    forall a, b ensures StrLe(a, b) || StrLe(b, a) {
      StrLeTotal(a, b);
    }
    forall a, b, c | StrLe(a, b) && StrLe(b, c) ensures StrLe(a, c) {
      StrLeTransitive(a, b, c);
    }
  }

  // ----- sorted enumeration of a set ------------------------------------------

  ghost predicate IsLeast(m: string, s: set<string>) {
    m in s && forall x :: x in s ==> StrLe(m, x)
  }

  lemma {:induction false} LeastExists(s: set<string>)
    requires s != {}
    ensures exists m :: IsLeast(m, s)
    decreases |s|
  {
    var m :| m in s;
    StrLeTotal(m, m);
    if s == {m} {
      assert IsLeast(m, s);
    } else {
      LeastExists(s - {m});
      var r :| IsLeast(r, s - {m});
      StrLeTotal(m, r);
      if StrLe(r, m) {
        assert IsLeast(r, s);
      } else {
        forall x | x in s ensures StrLe(m, x) {
          if x != m {
            StrLeTransitive(m, r, x);
          }
        }
        assert IsLeast(m, s);
      }
    }
  }

  ghost function Least(s: set<string>): (m: string)
    requires s != {}
    ensures IsLeast(m, s)
  {
    LeastExists(s);
    var m :| IsLeast(m, s);
    m
  }

  /** The members of a set in ascending order. */
  ghost function SortedKeys(s: set<string>): (r: seq<string>)
    ensures Elements(r) == s && |r| == |s|
    decreases |s|
  {
    if s == {} then []
    else
      var m := Least(s);
      var rest := SortedKeys(s - {m});
      assert Elements([m] + rest) == {m} + Elements(rest);
      [m] + rest
  }

  /** An ascending enumeration without repetition is the sorted one. */
  lemma {:induction false} SortedKeysUnique(s: set<string>, r: seq<string>)
    requires Elements(r) == s && Distinct(r) && Sorted(r, StrLe)
    ensures r == SortedKeys(s)
    decreases |r|
  {
    if r == [] {
      assert s == {};
    } else {
      assert r[0] in Elements(r);
      var m := Least(s);
      assert m in r;
      var i :| 0 <= i < |r| && r[i] == m;
      if i > 0 {
        StrLeAntisymmetric(r[0], m);
      }
      assert Elements(r[1..]) == s - {m} by {
        forall x | x in r[1..] ensures x in s - {m} {
          assert x in Elements(r);
        }
        forall x | x in s - {m} ensures x in r[1..] {
          assert x in r;
        }
      }
      SortedKeysUnique(s - {m}, r[1..]);
    }
  }

  lemma {:induction false} SortedKeysAscend(s: set<string>)
    ensures forall i, j :: 0 <= i < j < |SortedKeys(s)| ==>
      SortedKeys(s)[i] != SortedKeys(s)[j] && StrLe(SortedKeys(s)[i], SortedKeys(s)[j])
    decreases |s|
  {
    if s != {} {
      var m := Least(s);
      SortedKeysAscend(s - {m});
      var rest := SortedKeys(s - {m});
      forall j | 0 <= j < |rest| ensures rest[j] != m && StrLe(m, rest[j]) {
        assert rest[j] in Elements(rest);
      }
    }
  }

  lemma SortedKeysDistinct(s: set<string>)
    ensures Distinct(SortedKeys(s))
  {
    SortedKeysAscend(s);
    hide SortedKeys, StrLe;
  }

  method EnumerateSorted(s: set<string>) returns (r: seq<string>)
    ensures r == SortedKeys(s)
  {
    var all: seq<string> := [];
    var pending := s;
    while pending != {}
      invariant pending <= s && Distinct(all)
      invariant forall x :: x in all <==> x in s - pending
    {
      var x :| x in pending;
      assert x !in all;
      pending := pending - {x};
      all := all + [x];
    }
    r := Sort(all, StrLe);
    SortMultiset(all, StrLe);
    StrLeIsTotalPreorder();
    SortSorted(all, StrLe);
    DistinctPermutation(all, r);
    assert Elements(r) == s;
    SortedKeysUnique(s, r);
  }

  lemma {:induction false} DistinctCounts<T>(xs: seq<T>)
    requires Distinct(xs)
    ensures forall x :: multiset(xs)[x] <= 1
    decreases |xs|
  {
    if xs != [] {
      DistinctCounts(xs[1..]);
      assert xs == [xs[0]] + xs[1..];
      assert xs[0] !in xs[1..];
    }
  }

  /** A rearrangement of distinct elements has distinct elements. */
  lemma DistinctPermutation<T>(xs: seq<T>, ys: seq<T>)
    requires Distinct(xs) && multiset(xs) == multiset(ys)
    ensures Distinct(ys)
  {
    DistinctCounts(xs);
    forall i, j | 0 <= i < j < |ys| ensures ys[i] != ys[j] {
      assert multiset(ys[..j])[ys[i]] > 0 && multiset(ys)[ys[j]] <= 1;
      assert ys == ys[..j] + [ys[j]] + ys[j + 1..];
    }
  }
}

/** The recursive comparison of two JSON documents and the pointers it reports. */
module SemanticDiff {
  import opened Ordering
  import opened Outcomes
  import opened Json
  import opened JsonPointer
  import SpecRevision
  import AuthorityFrame

  type Fields = map<string, Json>

  function Field(fields: Fields, key: string): Option<Json> {
    if key in fields then Some(fields[key]) else None
  }

  predicate IsObject(v: Option<Json>) {
    v.Some? && v.value.Obj?
  }

  /** The value compared by the termination measure. */
  function Known(v: Option<Json>): Json {
    if v.Some? then v.value else Null
  }

  /** The pointers at which two optional values differ, keys in ascending order. */
  ghost function ChangedPaths(before: Option<Json>, after: Option<Json>, path: string): seq<string>
    decreases before.Some?, Known(before), 1, 0
  {
    if before == after then []
    else if !IsObject(before) || !IsObject(after) then [if path == "" then "/" else path]
    else
      var left, right := before.value.fields, after.value.fields;
      ChangedUnder(left, right, SortedKeys(left.Keys + right.Keys), path)
  }

  ghost function ChangedUnder(left: Fields, right: Fields, keys: seq<string>, path: string): seq<string>
    decreases true, Obj(left), 0, |keys|
  {
    if keys == [] then []
    else
      ChangedPaths(Field(left, keys[0]), Field(right, keys[0]), path + "/" + EscapePointer(keys[0]))
      + ChangedUnder(left, right, keys[1..], path)
  }

  // ----- what a report means --------------------------------------------------------

  /** The value at a path of object keys. */
  function At(v: Option<Json>, segments: seq<string>): Option<Json>
    decreases |segments|
  {
    if segments == [] then v else if IsObject(v) then At(Field(v.value.fields, segments[0]), segments[1..]) else None
  }

  /** The values at the path differ, are not both objects, and everything above them is. */
  ghost predicate ChangedAt(before: Option<Json>, after: Option<Json>, segments: seq<string>)
    decreases |segments|
  {
    if segments == [] then before != after && !(IsObject(before) && IsObject(after))
    else
      && IsObject(before) && IsObject(after)
      && ChangedAt(Field(before.value.fields, segments[0]), Field(after.value.fields, segments[0]), segments[1..])
  }

  /** The same without recursion. */
  lemma {:induction false} ChangedAtMeans(before: Option<Json>, after: Option<Json>, segments: seq<string>)
    ensures ChangedAt(before, after, segments) <==>
      (At(before, segments) != At(after, segments)
        && !(IsObject(At(before, segments)) && IsObject(At(after, segments)))
        && forall k :: 0 <= k < |segments| ==>
          IsObject(At(before, segments[..k])) && IsObject(At(after, segments[..k])))
    decreases |segments|
  {
    if segments != [] {
      TakeAll(segments);
      if IsObject(before) && IsObject(after) {
        var l, r := Field(before.value.fields, segments[0]), Field(after.value.fields, segments[0]);
        var rest := segments[1..];
        ChangedAtMeans(l, r, rest);
        forall k | 0 <= k < |rest|
          ensures At(before, segments[..k + 1]) == At(l, rest[..k]) && At(after, segments[..k + 1]) == At(r, rest[..k])
        {
          assert segments[..k + 1][0] == segments[0] && segments[..k + 1][1..] == rest[..k];
        }
        hide At, IsObject;
        if forall k :: 0 <= k < |segments| ==>
          IsObject(At(before, segments[..k])) && IsObject(At(after, segments[..k]))
        {
          forall k | 0 <= k < |rest| ensures IsObject(At(l, rest[..k])) && IsObject(At(r, rest[..k])) {
            assert 0 <= k + 1 < |segments|;
          }
        }
        if forall k :: 0 <= k < |rest| ==> IsObject(At(l, rest[..k])) && IsObject(At(r, rest[..k])) {
          forall k | 0 <= k < |segments|
            ensures IsObject(At(before, segments[..k])) && IsObject(At(after, segments[..k]))
          {
            if k > 0 {
              assert IsObject(At(l, rest[..k - 1])) && IsObject(At(r, rest[..k - 1]));
            } else {
              RootIsItself(before, segments);
              RootIsItself(after, segments);
            }
          }
        }
      } else {
        RootIsItself(before, segments);
        RootIsItself(after, segments);
      }
    }
  }

  lemma RootIsItself(v: Option<Json>, segments: seq<string>)
    ensures At(v, segments[..0]) == v
  {
  }

  /** The text reported for a path. */
  function Reported(path: string): string {
    if path == "" then "/" else path
  }

  lemma {:induction false} PrintStep(path: string, key: string, rest: seq<string>)
    ensures path + PrintPointer([key] + rest) == path + "/" + EscapePointer(key) + PrintPointer(rest)
  {
    hide EscapePointer;
    assert EscapeAll([key] + rest)[0] == EscapePointer(key);
    assert EscapeAll([key] + rest)[1..] == EscapeAll(rest);
  }

  /** A pointer is reported exactly when it prints a path at which the values changed. */
  lemma {:induction false} ReportsAreExact(before: Option<Json>, after: Option<Json>, path: string, p: string)
    ensures p in ChangedPaths(before, after, path) <==>
      exists segments :: ChangedAt(before, after, segments) && p == Reported(path + PrintPointer(segments))
    decreases before.Some?, Known(before), 1, 0
  {
    hide PrintPointer;
    if before == after {
      NothingChanged(before);
    } else if !IsObject(before) || !IsObject(after) {
      assert PrintPointer([]) == "" by {
        PrintNothing();
      }
      assert path + "" == path;
      assert ChangedAt(before, after, []);
    } else {
      var left, right := before.value.fields, after.value.fields;
      var keys := SortedKeys(left.Keys + right.Keys);
      ReportsUnderKeys(left, right, keys, path, p);
      forall segments | ChangedAt(before, after, segments) ensures segments != [] && segments[0] in keys {
        ChangedKey(before, after, segments);
        assert segments[0] in Elements(keys);
      }
    }
  }

  lemma PrintNothing()
    ensures PrintPointer([]) == ""
  {
  }

  lemma {:induction false} NothingChanged(v: Option<Json>)
    ensures forall segments :: !ChangedAt(v, v, segments)
  {
    forall segments ensures !ChangedAt(v, v, segments) {
      ChangedAtMeans(v, v, segments);
    }
  }

  lemma ChangedKey(before: Option<Json>, after: Option<Json>, segments: seq<string>)
    requires IsObject(before) && IsObject(after) && ChangedAt(before, after, segments)
    ensures segments != [] && segments[0] in before.value.fields.Keys + after.value.fields.Keys
  {
    NothingChanged(None);
  }

  lemma {:induction false} ReportsUnderKeys(left: Fields, right: Fields, keys: seq<string>, path: string, p: string)
    ensures p in ChangedUnder(left, right, keys, path) <==>
      exists segments :: segments != [] && segments[0] in keys
        && ChangedAt(Some(Obj(left)), Some(Obj(right)), segments) && p == Reported(path + PrintPointer(segments))
    decreases true, Obj(left), 0, |keys|
  {
    hide PrintPointer, EscapePointer, Reported;
    if keys != [] {
      var key := keys[0];
      var l, r, under := Field(left, key), Field(right, key), path + "/" + EscapePointer(key);
      ReportsAreExact(l, r, under, p);
      ReportsUnderKeys(left, right, keys[1..], path, p);
      if rest :| ChangedAt(l, r, rest) && p == Reported(under + PrintPointer(rest)) {
        PrintStep(path, key, rest);
        var segments := [key] + rest;
        assert segments[1..] == rest;
        assert ChangedAt(Some(Obj(left)), Some(Obj(right)), segments);
      }
      if segments :|
        segments != [] && segments[0] == key
        && ChangedAt(Some(Obj(left)), Some(Obj(right)), segments) && p == Reported(path + PrintPointer(segments))
      {
        assert segments == [key] + segments[1..];
        PrintStep(path, key, segments[1..]);
        assert ChangedAt(l, r, segments[1..]);
      }
    }
  }

  /** Nothing is reported exactly when nothing differs. */
  lemma SilentIffEqual(before: Option<Json>, after: Option<Json>)
    ensures ChangedPaths(before, after, "") == [] <==> before == after
  {
    if before != after {
      var segments := SomeChange(before, after);
      ReportsAreExact(before, after, "", Reported("" + PrintPointer(segments)));
    }
  }

  lemma FieldsDetermine(left: Fields, right: Fields)
    requires forall key :: Field(left, key) == Field(right, key)
    ensures left == right
  {
    forall key ensures (key in left <==> key in right) && (key in left ==> left[key] == right[key]) {
      assert Field(left, key) == Field(right, key);
    }
  }

  /** Different values differ at some reported path. */
  lemma {:induction false} SomeChange(before: Option<Json>, after: Option<Json>) returns (segments: seq<string>)
    requires before != after
    ensures ChangedAt(before, after, segments)
    decreases before.Some?, Known(before)
  {
    if IsObject(before) && IsObject(after) {
      var left, right := before.value.fields, after.value.fields;
      if forall key :: Field(left, key) == Field(right, key) {
        FieldsDetermine(left, right);
      }
      var key :| Field(left, key) != Field(right, key);
      var rest := SomeChange(Field(left, key), Field(right, key));
      segments := [key] + rest;
      assert segments[1..] == rest;
    } else {
      segments := [];
    }
  }

  /** No difference is missed: wherever two documents differ, a reported path leads to it or below it. */
  lemma {:induction false} NoChangeIsMissed(before: Option<Json>, after: Option<Json>, at: seq<string>)
    returns (segments: seq<string>)
    requires At(before, at) != At(after, at)
    ensures ChangedAt(before, after, segments)
    ensures IsPrefix(segments, at) || IsPrefix(at, segments)
    decreases |at|
  {
    if at == [] {
      segments := SomeChange(before, after);
    } else if IsObject(before) && IsObject(after) {
      var key := at[0];
      var rest := NoChangeIsMissed(Field(before.value.fields, key), Field(after.value.fields, key), at[1..]);
      segments := [key] + rest;
      assert segments[1..] == rest;
      assert at == [key] + at[1..];
      if IsPrefix(rest, at[1..]) {
        assert at[..|segments|] == [key] + at[1..][..|rest|];
      } else {
        assert segments[..|at|] == [key] + rest[..|at| - 1];
      }
    } else {
      segments := [];
    }
  }

  /** For a genuine candidate under top-level prefixes, every reported change starts at an authorised key. */
  lemma ReportedChangesAreAuthorised(source: Json, candidate: SpecRevision.Candidate, c: SpecRevision.Contract,
      segments: seq<string>)
    requires SpecRevision.Genuine(source, candidate, c) && source.Obj?
    requires AuthorityFrame.TopLevel(c.content.allowedPathPrefixes)
    requires ChangedAt(Some(source), Some(candidate.content.document), segments)
    ensures segments != [] && exists p :: p in c.content.allowedPathPrefixes && ParseJsonPointer(p) == Ok([segments[0]])
  {
    hide SpecRevision.Genuine, AuthorityFrame.TopLevel, ParseJsonPointer;
    var document := candidate.content.document;
    SpecRevision.GenuineStaysInAuthority(source, candidate, c, "");
    assert segments != [];
    var key := segments[0];
    SpecRevision.GenuineStaysInAuthority(source, candidate, c, key);
    NothingChanged(Field(source.fields, key));
    assert Field(source.fields, key) != Field(document.fields, key);
  }
}

/** Reading and editing JSON documents at pointers. */
module JsonDocuments {
  import opened Ordering
  import opened Outcomes
  import opened Json
  import opened JsonPointer
  import opened ArrayIndices

  type Segments = seq<string>

  // ----- reading --------------------------------------------------------------------

  function Child(v: Json, segment: string): Result<Json, PointerError> {
    match v
    case Arr(items) =>
      var i := ArrayIndex(segment, |items|, false);
      if i.Err? then Err(i.error) else Ok(items[i.value])
    case Obj(fields) => if segment in fields then Ok(fields[segment]) else Err(MissingTarget)
    case _ => Err(MissingTarget)
  }

  function Lookup(v: Json, segments: Segments): Result<Json, PointerError> {
    if segments == [] then Ok(v)
    else
      var child := Child(v, segments[0]);
      if child.Err? then child else Lookup(child.value, segments[1..])
  }

  lemma {:induction false} LookupConcat(v: Json, a: Segments, b: Segments)
    ensures Lookup(v, a + b) == if Lookup(v, a).Err? then Lookup(v, a) else Lookup(Lookup(v, a).value, b)
    decreases |a|
  {
    if a == [] {
      assert a + b == b;
    } else {
      assert (a + b)[1..] == a[1..] + b;
      if Child(v, a[0]).Ok? {
        LookupConcat(Child(v, a[0]).value, a[1..], b);
      }
    }
  }

  lemma LookupLast(v: Json, segments: Segments, k: nat)
    requires k < |segments|
    ensures Lookup(v, segments[..k + 1]) ==
      if Lookup(v, segments[..k]).Err? then Lookup(v, segments[..k])
      else Child(Lookup(v, segments[..k]).value, segments[k])
  {
    TakeMore(segments, k);
    LookupConcat(v, segments[..k], [segments[k]]);
    if Lookup(v, segments[..k]).Ok? {
      var parent := Lookup(v, segments[..k]).value;
      assert Lookup(parent, [segments[k]]) ==
        if Child(parent, segments[k]).Err? then Child(parent, segments[k])
        else Lookup(Child(parent, segments[k]).value, []);
    }
  }

  lemma ErrorPersists(v: Json, segments: Segments, k: nat)
    requires k <= |segments| && Lookup(v, segments[..k]).Err?
    ensures Lookup(v, segments) == Lookup(v, segments[..k])
  {
    assert segments == segments[..k] + segments[k..];
    LookupConcat(v, segments[..k], segments[k..]);
  }

  /** Follows the segments one after the other. */
  method Follow(document: Json, segments: Segments) returns (r: Result<Json, PointerError>)
    ensures r == Lookup(document, segments)
  {
    var current := document;
    TakeAll(segments);
    for k := 0 to |segments|
      invariant Lookup(document, segments[..k]) == Ok(current)
    {
      LookupLast(document, segments, k);
      var child := Child(current, segments[k]);
      if child.Err? {
        ErrorPersists(document, segments, k + 1);
        return child;
      }
      current := child.value;
    }
    return Ok(current);
  }

  function ReadAt(document: Json, pointer: string): Result<Json, PointerError> {
    var segments := ParseJsonPointer(pointer);
    if segments.Err? then Err(segments.error) else Lookup(document, segments.value)
  }

  method ReadJsonPointer(document: Json, pointer: string) returns (r: Result<Json, PointerError>)
    ensures r == ReadAt(document, pointer)
  {
    var segments := ParseJsonPointer(pointer);
    if segments.Err? {
      return Err(segments.error);
    }
    r := Follow(document, segments.value);
  }

  /** The value that holds the addressed position, and the last segment. */
  method ResolveJsonPointerParent(document: Json, pointer: string) returns (r: Result<(Json, string), PointerError>)
    ensures var segments := ParseJsonPointer(pointer);
      if segments.Err? then r == Err(segments.error)
      else
        && segments.value != []
        && var front := segments.value[..|segments.value| - 1];
          if Lookup(document, front).Err? then r == Err(Lookup(document, front).error)
          else r == Ok((Lookup(document, front).value, segments.value[|segments.value| - 1]))
  {
    var segments := ParseJsonPointer(pointer);
    if segments.Err? {
      return Err(segments.error);
    }
    PrintTheParsed(pointer);
    var parent := Follow(document, segments.value[..|segments.value| - 1]);
    if parent.Err? {
      return Err(parent.error);
    }
    return Ok((parent.value, segments.value[|segments.value| - 1]));
  }

  // ----- writing one value ----------------------------------------------------------

  function Put(v: Json, segment: string, child: Json): Json
    requires Child(v, segment).Ok?
  {
    match v
    case Arr(items) => Arr(items[ArrayIndex(segment, |items|, false).value := child])
    case Obj(fields) => Obj(fields[segment := child])
  }

  /** The document with the value at an existing position replaced. */
  function WithValue(v: Json, segments: Segments, value: Json): Json
    requires Lookup(v, segments).Ok?
    decreases |segments|
  {
    if segments == [] then value
    else Put(v, segments[0], WithValue(Child(v, segments[0]).value, segments[1..], value))
  }

  lemma PutSame(v: Json, segment: string, child: Json)
    requires Child(v, segment).Ok?
    ensures Child(Put(v, segment, child), segment) == Ok(child)
  {
  }

  lemma PutOther(v: Json, segment: string, child: Json, other: string)
    requires Child(v, segment).Ok? && other != segment
    ensures Child(Put(v, segment, child), other) == Child(v, other)
  {
    if v.Arr? {
      var i, j := ArrayIndex(segment, |v.items|, false), ArrayIndex(other, |v.items|, false);
      if j.Ok? && i == j {
        IndexIsInjective(segment, other, |v.items|);
      }
    }
  }

  /** The two paths part at some segment. */
  predicate Diverge(a: Segments, b: Segments) {
    a != [] && b != [] && (a[0] != b[0] || Diverge(a[1..], b[1..]))
  }

  /** Replacing a value is seen below the position and nowhere beside it. */
  lemma {:induction false} WithValueFrame(v: Json, segments: Segments, value: Json, at: Segments)
    requires Lookup(v, segments).Ok?
    ensures Diverge(at, segments) ==> Lookup(WithValue(v, segments, value), at) == Lookup(v, at)
    ensures forall rest :: at == segments + rest ==> Lookup(WithValue(v, segments, value), at) == Lookup(value, rest)
    decreases |segments|
  {
    if segments == [] {
      forall rest | at == segments + rest ensures Lookup(value, at) == Lookup(value, rest) {
        assert at == rest;
      }
    } else if at != [] {
      var child := Child(v, segments[0]).value;
      var inner := WithValue(child, segments[1..], value);
      WithValueFrame(child, segments[1..], value, at[1..]);
      PutSame(v, segments[0], inner);
      if at[0] != segments[0] {
        PutOther(v, segments[0], inner, at[0]);
      }
      hide Child, Put;
      forall rest | at == segments + rest ensures Lookup(WithValue(v, segments, value), at) == Lookup(value, rest) {
        assert at[0] == segments[0] && at[1..] == segments[1..] + rest;
      }
    }
  }

  // ----- one operation --------------------------------------------------------------

  datatype Kind = Add | Replace | Remove

  datatype Operation = Operation(kind: Kind, path: string, value: Option<Json>, feedbackIds: seq<string>)

  datatype EditError = PointerFailed(cause: PointerError) | ParentNotObject(path: string)

  /** The array with one element inserted. */
  function Inserted(items: seq<Json>, i: nat, value: Json): seq<Json>
    requires i <= |items|
  {
    items[..i] + [value] + items[i..]
  }

  /** The array with one element taken out. */
  function Removed(items: seq<Json>, i: nat): seq<Json>
    requires i < |items|
  {
    items[..i] + items[i + 1..]
  }

  /** The edited parent. An absent value counts as null here; the proposal check refuses it beforehand. */
  function EditParent(parent: Json, key: string, op: Operation): Result<Json, EditError> {
    var value := if op.value.Some? then op.value.value else Null;
    match parent
    case Arr(items) =>
      var i := ArrayIndex(key, |items|, op.kind == Add);
      if i.Err? then Err(PointerFailed(i.error))
      else if op.kind == Add then Ok(Arr(Inserted(items, i.value, value)))
      else if op.kind == Replace then Ok(Arr(items[i.value := value]))
      else Ok(Arr(Removed(items, i.value)))
    case Obj(fields) =>
      if op.kind != Add && key !in fields then Err(PointerFailed(MissingTarget))
      else if op.kind == Remove then Ok(Obj(fields - {key}))
      else Ok(Obj(fields[key := value]))
    case _ => Err(ParentNotObject(op.path))
  }

  /** The effect of an operation at parsed segments. A parsed pointer is never empty. */
  function EditAt(document: Json, segments: Segments, op: Operation): Result<Json, EditError> {
    if segments == [] then Err(PointerFailed(InvalidPointer))
    else
      var front, key := segments[..|segments| - 1], segments[|segments| - 1];
      var parent := Lookup(document, front);
      if parent.Err? then Err(PointerFailed(parent.error))
      else
        var edited := EditParent(parent.value, key, op);
        if edited.Err? then edited else Ok(WithValue(document, front, edited.value))
  }

  function Edit(document: Json, op: Operation): Result<Json, EditError> {
    var segments := ParseJsonPointer(op.path);
    if segments.Err? then Err(PointerFailed(segments.error)) else EditAt(document, segments.value, op)
  }

  method ApplyOperation(document: Json, op: Operation) returns (r: Result<Json, EditError>)
    ensures r == Edit(document, op)
  {
    hide Lookup, WithValue;
    var resolved := ResolveJsonPointerParent(document, op.path);
    if resolved.Err? {
      return Err(PointerFailed(resolved.error));
    }
    var (parent, key) := resolved.value;
    var edited := EditParent(parent, key, op);
    if edited.Err? {
      return edited;
    }
    var segments := ParseJsonPointer(op.path).value;
    return Ok(WithValue(document, segments[..|segments| - 1], edited.value));
  }
}

/** What edits inside an authority can and cannot reach. */
module AuthorityFrame {
  import opened Ordering
  import opened Outcomes
  import opened Json
  import opened JsonPointer
  import opened ArrayIndices
  import opened JsonDocuments

  // ----- paths that part ------------------------------------------------------------

  lemma {:induction false} DivergeExtend(at: Segments, prefix: Segments, path: Segments)
    requires Diverge(at, prefix) && IsPrefix(prefix, path)
    ensures Diverge(at, path)
    decreases |at|
  {
    assert path[0] == path[..|prefix|][0];
    if at[0] == prefix[0] {
      assert path[1..][..|prefix| - 1] == path[..|prefix|][1..];
      DivergeExtend(at[1..], prefix[1..], path[1..]);
    }
  }

  /** Parting from a path means parting from its parent or standing beside its last segment. */
  lemma {:induction false} DivergeLast(at: Segments, front: Segments, key: string)
    requires Diverge(at, front + [key])
    ensures Diverge(at, front) || (|front| < |at| && at[..|front|] == front && at[|front|] != key)
    decreases |at|
  {
    var path := front + [key];
    if front != [] && at[0] == path[0] {
      assert path[1..] == front[1..] + [key];
      DivergeLast(at[1..], front[1..], key);
      if !Diverge(at, front) {
        assert at[..|front|] == [at[0]] + at[1..][..|front| - 1];
      }
    }
  }

  lemma {:induction false} BesideDiverges(front: Segments, key: string, other: string)
    requires key != other
    ensures Diverge(front + [other], front + [key])
    decreases |front|
  {
    if front != [] {
      assert (front + [other])[1..] == front[1..] + [other];
      assert (front + [key])[1..] == front[1..] + [key];
      BesideDiverges(front[1..], key, other);
    }
  }

  // ----- one operation --------------------------------------------------------------

  function ParentOf(document: Json, segments: Segments): Result<Json, PointerError>
    requires segments != []
  {
    Lookup(document, segments[..|segments| - 1])
  }

  /** The operation inserts before an element, appends by "-", or removes an element that is not the last. */
  predicate MovesElements(items: seq<Json>, key: string, kind: Kind) {
    || (kind == Add && (key == "-" || IndexValue(key) < |items|))
    || (kind == Remove && IndexValue(key) + 1 < |items|)
  }

  predicate ShiftsSiblings(document: Json, segments: Segments, op: Operation)
    requires segments != []
  {
    var parent := ParentOf(document, segments);
    parent.Ok? && parent.value.Arr? && MovesElements(parent.value.items, segments[|segments| - 1], op.kind)
  }

  /** In the parent itself, an edit that moves nothing is seen at its own key only. */
  lemma EditParentFrame(parent: Json, key: string, op: Operation, other: string)
    requires EditParent(parent, key, op).Ok? && other != key
    requires parent.Arr? ==> !MovesElements(parent.items, key, op.kind)
    ensures Child(EditParent(parent, key, op).value, other) == Child(parent, other)
  {
    if parent.Arr? {
      var n := |parent.items|;
      var i := ArrayIndex(key, n, op.kind == Add);
      if Canonical(other) {
        IndexOfText(other);
        IndexOfText(key);
        assert IndexValue(other) != IndexValue(key);
      }
    }
  }

  lemma EditParentLookup(parent: Json, key: string, op: Operation, rest: Segments)
    requires EditParent(parent, key, op).Ok? && rest != [] && rest[0] != key
    requires parent.Arr? ==> !MovesElements(parent.items, key, op.kind)
    ensures Lookup(EditParent(parent, key, op).value, rest) == Lookup(parent, rest)
  {
    EditParentFrame(parent, key, op, rest[0]);
    hide EditParent, Child;
  }

  /** An edit inside a prefix changes nothing that parts from the prefix, unless it is exactly at the
      prefix and moves array elements. */
  lemma OperationFrame(document: Json, path: Segments, op: Operation, prefix: Segments, at: Segments)
    requires path != [] && EditAt(document, path, op).Ok? && IsPrefix(prefix, path) && Diverge(at, prefix)
    requires path == prefix ==> !ShiftsSiblings(document, path, op)
    ensures Lookup(EditAt(document, path, op).value, at) == Lookup(document, at)
  {
    var front, key := path[..|path| - 1], path[|path| - 1];
    var parent := Lookup(document, front).value;
    var edited := EditParent(parent, key, op).value;
    SplitLast(path);
    hide EditParent, Lookup, WithValue, MovesElements;
    WithValueFrame(document, front, edited, at);
    if path != prefix {
      assert front[..|prefix|] == path[..|prefix|];
      DivergeExtend(at, prefix, front);
    } else {
      DivergeLast(at, front, key);
      if !Diverge(at, front) {
        BesideFrame(document, path, op, at);
      }
    }
  }

  lemma BesideFrame(document: Json, path: Segments, op: Operation, at: Segments)
    requires path != [] && EditAt(document, path, op).Ok? && !ShiftsSiblings(document, path, op)
    requires var front := path[..|path| - 1];
      |front| < |at| && at[..|front|] == front && at[|front|] != path[|path| - 1]
    ensures Lookup(EditAt(document, path, op).value, at) == Lookup(document, at)
  {
    var front, key := path[..|path| - 1], path[|path| - 1];
    var parent := Lookup(document, front).value;
    var edited := EditParent(parent, key, op).value;
    var rest := at[|front|..];
    assert at == front + rest;
    EditParentLookup(parent, key, op, rest);
    hide EditParent, Lookup, WithValue, MovesElements;
    WithValueFrame(document, front, edited, at);
    LookupConcat(document, front, rest);
  }

  /** Nothing that parts from the edited path changes. */
  ghost predicate FrameHolds(document: Json, path: Segments, op: Operation)
    requires path != [] && EditAt(document, path, op).Ok?
  {
    forall at :: Diverge(at, path) ==> Lookup(EditAt(document, path, op).value, at) == Lookup(document, at)
  }

  /** Editing exactly at an authorised path stays inside it if and only if no array element moves. */
  lemma FrameHoldsIffNothingMoves(document: Json, path: Segments, op: Operation)
    requires path != [] && EditAt(document, path, op).Ok?
    ensures FrameHolds(document, path, op) <==> !ShiftsSiblings(document, path, op)
  {
    hide EditAt, Lookup, ShiftsSiblings;
    if !ShiftsSiblings(document, path, op) {
      forall at | Diverge(at, path) ensures Lookup(EditAt(document, path, op).value, at) == Lookup(document, at) {
        TakeAll(path);
        OperationFrame(document, path, op, path, at);
      }
    } else {
      var at := MovedWitness(document, path, op);
    }
  }

  /** Where the move shows: one past the old end after an insertion, the old last position after a removal. */
  lemma MovedWitness(document: Json, path: Segments, op: Operation) returns (at: Segments)
    requires path != [] && EditAt(document, path, op).Ok? && ShiftsSiblings(document, path, op)
    ensures Diverge(at, path) && Lookup(EditAt(document, path, op).value, at) != Lookup(document, at)
  {
    var front, key := path[..|path| - 1], path[|path| - 1];
    var parent := Lookup(document, front).value;
    var edited := EditParent(parent, key, op).value;
    var n := |parent.items|;
    var other := IndexText(if op.kind == Add then n else n - 1);
    SplitLast(path);
    MovedChild(parent, key, op, other);
    at := front + [other];
    BesideDiverges(front, key, other);
    LookupConcat(document, front, [other]);
    WithValueFrame(document, front, edited, at);
    LookupOne(parent, other);
    LookupOne(edited, other);
    hide EditParent, Lookup, WithValue, MovesElements;
  }

  lemma LookupOne(v: Json, segment: string)
    ensures Lookup(v, [segment]) == Child(v, segment)
  {
    if Child(v, segment).Ok? {
      assert [segment][1..] == [];
    }
  }

  lemma MovedChild(parent: Json, key: string, op: Operation, other: string)
    requires parent.Arr? && EditParent(parent, key, op).Ok? && MovesElements(parent.items, key, op.kind)
    requires other == IndexText(if op.kind == Add then |parent.items| else |parent.items| - 1)
    ensures other != key && Child(EditParent(parent, key, op).value, other).Ok? != Child(parent, other).Ok?
  {
    var n := |parent.items|;
    var last := if op.kind == Add then n else n - 1;
    TextOfIndex(last);
    IndexIsNamed(last, n);
    IndexIsNamed(last, if op.kind == Add then n + 1 else n - 1);
  }

  // ----- lists of operations --------------------------------------------------------

  function EditAll(document: Json, ops: seq<Operation>): Result<Json, EditError> {
    if ops == [] then Ok(document)
    else
      var before := EditAll(document, ops[..|ops| - 1]);
      if before.Err? then before else Edit(before.value, ops[|ops| - 1])
  }

  predicate Authorized(path: string, prefixes: seq<string>) {
    exists i :: 0 <= i < |prefixes| && WithinPrefix(path, prefixes[i])
  }

  ghost predicate PrefixesValid(prefixes: seq<string>) {
    forall p :: p in prefixes ==> ParseJsonPointer(p).Ok?
  }

  /** No operation lands exactly on a prefix and moves elements there. */
  ghost predicate NothingMoves(document: Json, ops: seq<Operation>, prefixes: seq<string>)
    requires EditAll(document, ops).Ok?
  {
    ops == [] ||
    (NothingMoves(document, ops[..|ops| - 1], prefixes)
    && (ops[|ops| - 1].path in prefixes ==> !Shifting(EditAll(document, ops[..|ops| - 1]).value, ops[|ops| - 1])))
  }

  ghost predicate Shifting(document: Json, op: Operation) {
    ParseJsonPointer(op.path).Ok? && ParseJsonPointer(op.path).value != []
    && ShiftsSiblings(document, ParseJsonPointer(op.path).value, op)
  }

  ghost predicate Outside(at: Segments, prefixes: seq<string>) {
    forall p :: p in prefixes && ParseJsonPointer(p).Ok? ==> Diverge(at, ParseJsonPointer(p).value)
  }

  lemma StepFrame(document: Json, op: Operation, prefixes: seq<string>, at: Segments)
    requires Edit(document, op).Ok? && Authorized(op.path, prefixes) && PrefixesValid(prefixes) && Outside(at, prefixes)
    requires op.path in prefixes ==> !Shifting(document, op)
    ensures Lookup(Edit(document, op).value, at) == Lookup(document, at)
  {
    var i :| 0 <= i < |prefixes| && WithinPrefix(op.path, prefixes[i]);
    assert prefixes[i] in prefixes;
    WithinIsSegmentPrefix(op.path, prefixes[i]);
    PrintTheParsed(op.path);
    PrintTheParsed(prefixes[i]);
    hide EditAt, Lookup, ShiftsSiblings, ParseJsonPointer, PrintPointer, WithinPrefix;
    OperationFrame(document, ParseJsonPointer(op.path).value, op, ParseJsonPointer(prefixes[i]).value, at);
  }

  /** Authority frame: after any list of authorised operations, every position that parts from all
      prefixes reads as before, as long as no operation moves elements exactly at a prefix. */
  lemma {:induction false} EditsStayInAuthority(document: Json, ops: seq<Operation>, prefixes: seq<string>,
      at: Segments)
    requires EditAll(document, ops).Ok? && PrefixesValid(prefixes) && Outside(at, prefixes)
    requires forall op :: op in ops ==> Authorized(op.path, prefixes)
    requires NothingMoves(document, ops, prefixes)
    ensures Lookup(EditAll(document, ops).value, at) == Lookup(document, at)
    decreases |ops|
  {
    if ops != [] {
      hide Lookup, Edit, Authorized, Outside, Shifting, PrefixesValid;
      EditsStayInAuthority(document, ops[..|ops| - 1], prefixes, at);
      assert ops[|ops| - 1] in ops;
      StepFrame(EditAll(document, ops[..|ops| - 1]).value, ops[|ops| - 1], prefixes, at);
    }
  }

  // ----- one prefix -----------------------------------------------------------------

  /** Everything that parts from the prefix reads the same in both documents. */
  ghost predicate SameOutside(before: Json, after: Json, prefix: string)
    requires ParseJsonPointer(prefix).Ok?
  {
    forall at :: Diverge(at, ParseJsonPointer(prefix).value) ==> Lookup(after, at) == Lookup(before, at)
  }

  ghost predicate PathsDistinct(ops: seq<Operation>) {
    forall i, j :: 0 <= i < j < |ops| ==> ops[i].path != ops[j].path
  }

  lemma OutsideOne(at: Segments, prefix: string)
    requires ParseJsonPointer(prefix).Ok?
    ensures Outside(at, [prefix]) <==> Diverge(at, ParseJsonPointer(prefix).value)
  {
    hide ParseJsonPointer, Diverge;
    assert prefix in [prefix];
  }

  lemma {:induction false} NothingAtPrefix(document: Json, ops: seq<Operation>, prefix: string)
    requires EditAll(document, ops).Ok? && forall op :: op in ops ==> op.path != prefix
    ensures NothingMoves(document, ops, [prefix])
    decreases |ops|
  {
    if ops != [] {
      hide Edit, Shifting;
      assert ops[|ops| - 1] in ops;
      NothingAtPrefix(document, ops[..|ops| - 1], prefix);
    }
  }

  lemma FrameWithoutMoves(document: Json, ops: seq<Operation>, prefix: string)
    requires EditAll(document, ops).Ok? && ParseJsonPointer(prefix).Ok?
    requires forall op :: op in ops ==> Authorized(op.path, [prefix])
    requires NothingMoves(document, ops, [prefix])
    ensures SameOutside(document, EditAll(document, ops).value, prefix)
  {
    hide EditAll, Lookup, ParseJsonPointer, Authorized, NothingMoves, Outside, Diverge;
    forall at | Diverge(at, ParseJsonPointer(prefix).value)
      ensures Lookup(EditAll(document, ops).value, at) == Lookup(document, at)
    {
      OutsideOne(at, prefix);
      EditsStayInAuthority(document, ops, [prefix], at);
    }
  }

  lemma ShiftBreaksFrame(document: Json, ops: seq<Operation>, prefix: string)
    requires ops != [] && EditAll(document, ops).Ok? && ParseJsonPointer(prefix).Ok?
    requires EditAll(document, ops[..|ops| - 1]).Ok?
    requires SameOutside(document, EditAll(document, ops[..|ops| - 1]).value, prefix)
    requires ops[|ops| - 1].path == prefix && Shifting(EditAll(document, ops[..|ops| - 1]).value, ops[|ops| - 1])
    ensures !SameOutside(document, EditAll(document, ops).value, prefix)
  {
    var before, op := EditAll(document, ops[..|ops| - 1]).value, ops[|ops| - 1];
    assert EditAll(document, ops) == Edit(before, op);
    var path := ParseJsonPointer(prefix).value;
    hide EditAll, Lookup, ParseJsonPointer, ShiftsSiblings, EditAt;
    var at := MovedWitness(before, path, op);
  }

  lemma StepElsewhere(document: Json, ops: seq<Operation>, prefix: string)
    requires ops != [] && EditAll(document, ops).Ok? && ParseJsonPointer(prefix).Ok?
    requires EditAll(document, ops[..|ops| - 1]).Ok?
    requires Authorized(ops[|ops| - 1].path, [prefix]) && ops[|ops| - 1].path != prefix
    ensures SameOutside(document, EditAll(document, ops).value, prefix) <==>
      SameOutside(document, EditAll(document, ops[..|ops| - 1]).value, prefix)
  {
    var before, op := EditAll(document, ops[..|ops| - 1]).value, ops[|ops| - 1];
    assert EditAll(document, ops) == Edit(before, op);
    hide EditAll, Edit, Lookup, ParseJsonPointer, Authorized, Shifting, Outside, Diverge;
    forall at | Diverge(at, ParseJsonPointer(prefix).value)
      ensures Lookup(EditAll(document, ops).value, at) == Lookup(before, at)
    {
      OutsideOne(at, prefix);
      StepFrame(before, op, [prefix], at);
    }
  }

  /** Under one prefix and with distinct paths, everything outside it is kept exactly when no operation moves
      elements at the prefix. */
  lemma {:induction false} OnePrefixFrameIff(document: Json, ops: seq<Operation>, prefix: string)
    requires EditAll(document, ops).Ok? && ParseJsonPointer(prefix).Ok? && PathsDistinct(ops)
    requires forall op :: op in ops ==> Authorized(op.path, [prefix])
    ensures SameOutside(document, EditAll(document, ops).value, prefix) <==> NothingMoves(document, ops, [prefix])
    decreases |ops|
  {
    hide Edit, Lookup, ParseJsonPointer, Authorized, Shifting, SameOutside;
    if ops == [] {
      FrameWithoutMoves(document, ops, prefix);
    } else {
      var front, last := ops[..|ops| - 1], ops[|ops| - 1];
      assert last in ops && last.path in [last.path];
      if last.path == prefix {
        NothingAtPrefix(document, front, prefix);
        FrameWithoutMoves(document, front, prefix);
        if Shifting(EditAll(document, front).value, last) {
          ShiftBreaksFrame(document, ops, prefix);
        } else {
          FrameWithoutMoves(document, ops, prefix);
        }
      } else {
        OnePrefixFrameIff(document, front, prefix);
        StepElsewhere(document, ops, prefix);
      }
    }
  }

  // ----- object documents and top-level prefixes ------------------------------------

  ghost predicate TopLevel(prefixes: seq<string>) {
    forall p :: p in prefixes ==> ParseJsonPointer(p).Ok? && |ParseJsonPointer(p).value| == 1
  }

  /** An edit of an object leaves an object, and only a top-level removal loses a key of it. */
  lemma EditKeepsObject(document: Json, op: Operation)
    requires document.Obj? && Edit(document, op).Ok?
    ensures Edit(document, op).value.Obj?
    ensures op.kind != Remove ==> document.fields.Keys <= Edit(document, op).value.fields.Keys
  {
    PrintTheParsed(op.path);
    var path := ParseJsonPointer(op.path).value;
    var front := path[..|path| - 1];
    hide ParseJsonPointer, PrintPointer, Lookup;
    if front == [] {
      assert Lookup(document, []) == Ok(document) by {
        LookupConcat(document, [], []);
        NothingToFollow(document);
      }
    }
  }

  lemma NothingToFollow(document: Json)
    ensures Lookup(document, []) == Ok(document)
  {
  }

  /** An edited object stays an object, and without removals no top-level key is lost. */
  lemma {:induction false} KeysAreKept(document: Json, ops: seq<Operation>)
    requires document.Obj? && EditAll(document, ops).Ok?
    ensures EditAll(document, ops).value.Obj?
    ensures (forall op :: op in ops ==> op.kind != Remove) ==>
      document.fields.Keys <= EditAll(document, ops).value.fields.Keys
    decreases |ops|
  {
    if ops != [] {
      assert ops[|ops| - 1] in ops;
      KeysAreKept(document, ops[..|ops| - 1]);
      EditKeepsObject(EditAll(document, ops[..|ops| - 1]).value, ops[|ops| - 1]);
      hide Edit;
    }
  }

  lemma {:induction false} TopLevelNothingMoves(document: Json, ops: seq<Operation>, prefixes: seq<string>)
    requires document.Obj? && EditAll(document, ops).Ok? && TopLevel(prefixes)
    ensures NothingMoves(document, ops, prefixes)
    decreases |ops|
  {
    if ops != [] {
      TopLevelNothingMoves(document, ops[..|ops| - 1], prefixes);
      KeysAreKept(document, ops[..|ops| - 1]);
      var before, op := EditAll(document, ops[..|ops| - 1]).value, ops[|ops| - 1];
      hide Edit, EditAll, ParseJsonPointer;
      if op.path in prefixes {
        NothingToFollow(before);
        hide Lookup;
        var path := ParseJsonPointer(op.path).value;
        assert path[..|path| - 1] == [];
      }
    }
  }

  /** For single-segment prefixes on an object: every top-level value outside the prefixes is untouched. */
  lemma TopLevelFrame(document: Json, ops: seq<Operation>, prefixes: seq<string>, key: string)
    requires document.Obj? && EditAll(document, ops).Ok? && TopLevel(prefixes)
    requires forall op :: op in ops ==> Authorized(op.path, prefixes)
    requires forall p :: p in prefixes ==> ParseJsonPointer(p) != Ok([key])
    ensures var after := EditAll(document, ops).value;
      after.Obj? && (key in after.fields <==> key in document.fields)
      && (key in document.fields ==> after.fields[key] == document.fields[key])
  {
    var after := EditAll(document, ops).value;
    TopLevelNothingMoves(document, ops, prefixes);
    KeysAreKept(document, ops);
    LookupOne(document, key);
    LookupOne(after, key);
    hide EditAll, Lookup, ParseJsonPointer, Authorized, NothingMoves;
    forall p | p in prefixes && ParseJsonPointer(p).Ok? ensures Diverge([key], ParseJsonPointer(p).value) {
      var segments := ParseJsonPointer(p).value;
      assert segments == [segments[0]];
    }
    EditsStayInAuthority(document, ops, prefixes, [key]);
  }
}

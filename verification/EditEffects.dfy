/** What an edit does: the value it carries is read back at its path, and elements of arrays move by one. */
module EditEffects {
  import opened Ordering
  import opened Outcomes
  import opened Json
  import opened JsonPointer
  import opened ArrayIndices
  import opened JsonDocuments
  import opened AuthorityFrame

  // ----- one operation --------------------------------------------------------------

  function KeyOf(path: Segments): string
    requires path != []
  {
    path[|path| - 1]
  }

  /** The segment names position `i` of an array for an operation of this kind. */
  predicate Names(key: string, i: nat, items: seq<Json>, kind: Kind) {
    (key == IndexText(i) && i < |items| + (if kind == Add then 1 else 0)) || (key == "-" && kind == Add && i == |items|)
  }

  /** The value written; none reads as null. */
  function Carried(op: Operation): Json {
    match op.value
    case Some(v) => v
    case None => Null
  }

  /** The array after the edit at position `i`, element by element. */
  ghost predicate ArrayEdited(items: seq<Json>, after: seq<Json>, i: nat, op: Operation) {
    match op.kind
    case Add =>
      && |after| == |items| + 1 && i <= |items| && after[i] == Carried(op)
      && (forall k :: 0 <= k < i ==> after[k] == items[k])
      && (forall k :: i < k < |after| ==> after[k] == items[k - 1])
    case Replace =>
      && |after| == |items| && i < |items| && after[i] == Carried(op)
      && (forall k :: 0 <= k < |items| && k != i ==> after[k] == items[k])
    case Remove =>
      && |after| + 1 == |items| && i < |items|
      && (forall k :: 0 <= k < i ==> after[k] == items[k])
      && (forall k :: i <= k < |after| ==> after[k] == items[k + 1])
  }

  /** The object after the edit of one member. */
  ghost predicate ObjectEdited(fields: map<string, Json>, after: map<string, Json>, key: string, op: Operation) {
    && (forall k :: k != key ==> (k in after <==> k in fields) && (k in after ==> after[k] == fields[k]))
    && (key in after <==> op.kind != Remove)
    && (op.kind != Add ==> key in fields)
    && (op.kind != Remove ==> after[key] == Carried(op))
  }

  ghost predicate ParentEdited(before: Json, after: Json, key: string, op: Operation) {
    match before
    case Arr(items) =>
      after.Arr? && exists i: nat :: Names(key, i, items, op.kind) && ArrayEdited(items, after.items, i, op)
    case Obj(fields) => after.Obj? && ObjectEdited(fields, after.fields, key, op)
    case _ => false
  }

  /** An edit of this parent is possible: its position exists, or is the next one for an addition. */
  ghost predicate Editable(parent: Json, key: string, kind: Kind) {
    match parent
    case Arr(items) => exists i: nat :: Names(key, i, items, kind)
    case Obj(fields) => kind == Add || key in fields
    case _ => false
  }

  lemma IndexNames(key: string, items: seq<Json>, kind: Kind)
    ensures ArrayIndex(key, |items|, kind == Add).Ok? <==> exists i: nat :: Names(key, i, items, kind)
    ensures forall i: nat :: Names(key, i, items, kind) ==> ArrayIndex(key, |items|, kind == Add) == Ok(i)
  {
    if Canonical(key) {
      IndexOfText(key);
    }
    forall i: nat | Names(key, i, items, kind) ensures ArrayIndex(key, |items|, kind == Add) == Ok(i) {
      TextOfIndex(i);
    }
    if ArrayIndex(key, |items|, kind == Add).Ok? {
      assert Names(key, ArrayIndex(key, |items|, kind == Add).value, items, kind);
    }
  }

  lemma EditParentMeans(parent: Json, key: string, op: Operation)
    ensures EditParent(parent, key, op).Ok? <==> Editable(parent, key, op.kind)
    ensures EditParent(parent, key, op).Ok? ==> ParentEdited(parent, EditParent(parent, key, op).value, key, op)
  {
    if parent.Arr? {
      IndexNames(key, parent.items, op.kind);
      hide ArrayIndex;
      if EditParent(parent, key, op).Ok? {
        var i := ArrayIndex(key, |parent.items|, op.kind == Add).value;
        assert Names(key, i, parent.items, op.kind);
        assert ArrayEdited(parent.items, EditParent(parent, key, op).value.items, i, op);
      }
    }
  }

  /** An edit applies exactly when its parent can be read and edited, and then the parent is read back edited. */
  lemma EditMeans(document: Json, path: Segments, op: Operation)
    requires path != []
    ensures var front, key := path[..|path| - 1], KeyOf(path);
      && (EditAt(document, path, op).Ok? <==>
        Lookup(document, front).Ok? && Editable(Lookup(document, front).value, key, op.kind))
      && (EditAt(document, path, op).Ok? ==>
        && Lookup(EditAt(document, path, op).value, front).Ok?
        && ParentEdited(Lookup(document, front).value, Lookup(EditAt(document, path, op).value, front).value, key, op))
  {
    var front, key := path[..|path| - 1], KeyOf(path);
    hide EditParent, Lookup, WithValue, Editable, ParentEdited;
    if Lookup(document, front).Ok? {
      var parent := Lookup(document, front).value;
      EditParentMeans(parent, key, op);
      if EditParent(parent, key, op).Ok? {
        ReadBack(document, front, EditParent(parent, key, op).value);
      }
    }
  }

  /** One step of reading: a decimal index into an array, a member of an object, nothing else. */
  lemma ReadStepMeans(v: Json, segment: string)
    ensures match v
      case Arr(items) =>
        && (forall i: nat :: segment == IndexText(i) ==>
              Child(v, segment) == if i < |items| then Ok(items[i]) else Err(MissingTarget))
        && ((forall i: nat :: segment != IndexText(i)) ==> Child(v, segment) == Err(InvalidArrayIndex))
      case Obj(fields) => Child(v, segment) == if segment in fields then Ok(fields[segment]) else Err(MissingTarget)
      case _ => Child(v, segment) == Err(MissingTarget)
  {
    if v.Arr? {
      IndexIsText(segment);
      forall i: nat | segment == IndexText(i) ensures Canonical(segment) && IndexValue(segment) == i {
        TextOfIndex(i);
      }
    }
  }

  lemma IndexIsText(segment: string)
    ensures Canonical(segment) <==> exists i: nat :: segment == IndexText(i)
  {
    if Canonical(segment) {
      IndexOfText(segment);
    }
    if i: nat :| segment == IndexText(i) {
      TextOfIndex(i);
    }
  }

  /** What a refused edit reports: the error of reading its parent; an array position that is no index, or one that
      does not exist; a missing member; or a parent that holds nothing. */
  lemma EditFailsWith(document: Json, path: Segments, op: Operation)
    requires path != [] && EditAt(document, path, op).Err?
    ensures var error, parent := EditAt(document, path, op).error, Lookup(document, path[..|path| - 1]);
      var isIndex := exists i: nat :: KeyOf(path) == IndexText(i);
      if parent.Err? then error == PointerFailed(parent.error)
      else match parent.value
        case Arr(_) => error == PointerFailed(if isIndex then MissingTarget else InvalidArrayIndex)
        case Obj(_) => error == PointerFailed(MissingTarget)
        case _ => error == ParentNotObject(op.path)
  {
    IndexIsText(KeyOf(path));
    hide Lookup, WithValue, IndexText, Canonical, IndexValue;
  }

  lemma ReadBack(document: Json, front: Segments, value: Json)
    requires Lookup(document, front).Ok?
    ensures Lookup(WithValue(document, front, value), front) == Ok(value)
  {
    assert front == front + [];
    WithValueFrame(document, front, value, front);
    NothingToFollow(value);
  }

  /** Where the value is found in the edited parent: under its own key, or at the end of an array for "-". */
  function LandsAt(parent: Json, key: string): string {
    if parent.Arr? && key == "-" then IndexText(|parent.items|) else key
  }

  lemma EditedChild(before: Json, edited: Json, key: string, op: Operation)
    requires ParentEdited(before, edited, key, op) && op.kind != Remove && op.value.Some?
    ensures Child(edited, LandsAt(before, key)) == Ok(op.value.value)
  {
    if before.Arr? {
      var i: nat :| Names(key, i, before.items, op.kind) && ArrayEdited(before.items, edited.items, i, op);
      TextOfIndex(|before.items|);
      IndexIsNamed(i, |edited.items|);
      hide ArrayIndex, Canonical, IndexText;
    }
  }

  /** The value an edit carries is what its path reads afterwards; at "-" it is the new last element. */
  lemma EditIsRead(document: Json, path: Segments, op: Operation)
    requires path != [] && EditAt(document, path, op).Ok? && op.kind != Remove && op.value.Some?
    ensures var front, after := path[..|path| - 1], EditAt(document, path, op).value;
      && Lookup(document, front).Ok?
      && Lookup(after, front + [LandsAt(Lookup(document, front).value, KeyOf(path))]) == Ok(op.value.value)
    ensures !(ParentOf(document, path).value.Arr? && KeyOf(path) == "-") ==>
      Lookup(EditAt(document, path, op).value, path) == Ok(op.value.value)
  {
    var front, key, after := path[..|path| - 1], KeyOf(path), EditAt(document, path, op).value;
    EditMeans(document, path, op);
    SplitLast(path);
    var before, edited := Lookup(document, front).value, Lookup(after, front).value;
    hide EditAt, Lookup, ArrayIndex, ParentEdited, Child, Editable;
    EditedChild(before, edited, key, op);
    LookupConcat(after, front, [LandsAt(before, key)]);
    LookupOne(edited, LandsAt(before, key));
  }

  lemma RemovedChild(before: Json, edited: Json, key: string, op: Operation)
    requires ParentEdited(before, edited, key, op) && op.kind == Remove
    requires before.Arr? ==> !MovesElements(before.items, key, op.kind)
    ensures Child(edited, key).Err?
  {
    if before.Arr? {
      var i: nat :| Names(key, i, before.items, op.kind) && ArrayEdited(before.items, edited.items, i, op);
      TextOfIndex(i);
      IndexIsNamed(i, |edited.items|);
    }
  }

  /** After a removal that moves nothing the path cannot be read. */
  lemma RemovedIsGone(document: Json, path: Segments, op: Operation)
    requires path != [] && EditAt(document, path, op).Ok? && op.kind == Remove && !ShiftsSiblings(document, path, op)
    ensures Lookup(EditAt(document, path, op).value, path).Err?
  {
    var front, key, after := path[..|path| - 1], KeyOf(path), EditAt(document, path, op).value;
    EditMeans(document, path, op);
    SplitLast(path);
    LookupConcat(after, front, [key]);
    var before, edited := Lookup(document, front).value, Lookup(after, front).value;
    hide EditAt, Lookup, ArrayIndex, ParentEdited, Child, MovesElements;
    LookupOne(edited, key);
    RemovedChild(before, edited, key, op);
  }

  // ----- lists of operations --------------------------------------------------------

  /** All paths are accepted and no two of them are equal or one inside the other. */
  ghost predicate Apart(ops: seq<Operation>) {
    && (forall i :: 0 <= i < |ops| ==> ParseJsonPointer(ops[i].path).Ok?)
    && (forall i, j :: 0 <= i < |ops| && 0 <= j < |ops| && i != j ==>
      Diverge(ParseJsonPointer(ops[i].path).value, ParseJsonPointer(ops[j].path).value))
  }

  /** What the operation leaves to be read at its own path. */
  ghost predicate TakesEffect(document: Json, op: Operation) {
    ParseJsonPointer(op.path).Ok? &&
    match Lookup(document, ParseJsonPointer(op.path).value)
    case Ok(v) => op.kind != Remove && op.value == Some(v)
    case Err(_) => op.kind == Remove
  }

  lemma OneTakesEffect(document: Json, op: Operation)
    requires ParseJsonPointer(op.path).Ok? && Edit(document, op).Ok? && !Shifting(document, op)
    requires op.kind != Remove ==> op.value.Some?
    ensures TakesEffect(Edit(document, op).value, op)
  {
    var path := ParseJsonPointer(op.path).value;
    PrintTheParsed(op.path);
    hide ParseJsonPointer, Lookup, EditAt, PrintPointer;
    if op.kind == Remove {
      RemovedIsGone(document, path, op);
    } else {
      EditIsRead(document, path, op);
    }
  }

  /** With paths apart and no array moved, every operation of a list that applies takes effect and keeps it. */
  lemma {:induction false} AllTakeEffect(document: Json, ops: seq<Operation>, prefixes: seq<string>, k: nat)
    requires EditAll(document, ops).Ok? && Apart(ops) && k < |ops|
    requires forall op :: op in ops ==> op.path in prefixes && (op.kind != Remove ==> op.value.Some?)
    requires NothingMoves(document, ops, prefixes)
    ensures TakesEffect(EditAll(document, ops).value, ops[k])
    decreases |ops|
  {
    hide Edit, Lookup, Shifting, ParseJsonPointer, Diverge, TakesEffect, Apart;
    var front, last := ops[..|ops| - 1], ops[|ops| - 1];
    var before := EditAll(document, front).value;
    assert last in ops;
    ApartFront(ops);
    if k == |front| {
      OneTakesEffect(before, last);
    } else {
      AllTakeEffect(document, front, prefixes, k);
      hide EditAll, NothingMoves;
      ApartAt(ops, k);
      LaterKeeps(before, last, ops[k]);
    }
  }

  lemma ApartFront(ops: seq<Operation>)
    requires ops != [] && Apart(ops)
    ensures Apart(ops[..|ops| - 1]) && ParseJsonPointer(ops[|ops| - 1].path).Ok?
  {
    hide ParseJsonPointer, Diverge;
  }

  lemma ApartAt(ops: seq<Operation>, k: nat)
    requires Apart(ops) && k < |ops| - 1
    ensures ParseJsonPointer(ops[k].path).Ok? && ParseJsonPointer(ops[|ops| - 1].path).Ok?
    ensures Diverge(ParseJsonPointer(ops[k].path).value, ParseJsonPointer(ops[|ops| - 1].path).value)
  {
    hide ParseJsonPointer, Diverge;
  }

  lemma LaterKeeps(before: Json, last: Operation, op: Operation)
    requires Edit(before, last).Ok? && !Shifting(before, last) && TakesEffect(before, op)
    requires ParseJsonPointer(op.path).Ok? && ParseJsonPointer(last.path).Ok?
    requires Diverge(ParseJsonPointer(op.path).value, ParseJsonPointer(last.path).value)
    ensures TakesEffect(Edit(before, last).value, op)
  {
    var path := ParseJsonPointer(last.path).value;
    PrintTheParsed(last.path);
    hide ParseJsonPointer, Lookup, EditAt, PrintPointer, ShiftsSiblings;
    FrameHoldsIffNothingMoves(before, path, last);
  }
}

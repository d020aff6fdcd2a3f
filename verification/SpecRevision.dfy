/** Compiling feedback into a contract, materialising a patch under it, and verifying the result again. */
module SpecRevision {
  import opened Ordering
  import opened Outcomes
  import opened Json
  import opened JsonPointer
  import opened JsonDocuments
  import opened AuthorityFrame
  import opened EditEffects

  // Each digest is represented by what it digests.

  datatype DocumentDigest = DigestOf(document: Json)

  datatype ContractDigest = ContractDigestOf(content: ContractContent)

  datatype CandidateId = CandidateIdOf(content: CandidateContent)

  datatype Feedback = Feedback(id: string, targetPointer: Option<string>)

  datatype Intent = Intent(
    sourceArtifactId: string,
    sourceDigest: DocumentDigest,
    requestText: string,
    feedback: seq<Feedback>,
    allowedPathPrefixes: seq<string>,
    allowRemove: bool,
    profileId: string,
    requiredPointers: seq<string>)

  datatype ContractContent = ContractContent(
    sourceArtifactId: string,
    sourceDigest: DocumentDigest,
    requestText: string,
    feedbackIds: seq<string>,
    allowedPathPrefixes: seq<string>,
    allowRemove: bool,
    profileId: string,
    requiredPointers: seq<string>)

  datatype Contract = Contract(content: ContractContent, digest: ContractDigest)

  datatype CandidateContent = CandidateContent(
    parentArtifactId: string,
    parentDigest: DocumentDigest,
    contractDigest: ContractDigest,
    operations: seq<Operation>,
    changedPointers: seq<string>,
    document: Json,
    contentDigest: DocumentDigest)

  datatype Candidate = Candidate(content: CandidateContent, candidateId: CandidateId)

  datatype RevisionError =
    | SourceDigestMismatch
    | DuplicateFeedbackId(id: string)
    | UnknownFeedbackId(id: string)
    | DuplicatePatchPath(path: string)
    | PathOutsideAuthority(path: string)
    | RemoveNotAllowed(path: string)
    | MissingPatchValue(path: string)
    | UnexpectedPatchValue(path: string)
    | NoOpRevision
    | BadPointer(cause: PointerError)
    | EditFailed(reason: EditError)
    | RevisionFailedVerification
    | RevisionNotApproved

  // ----- the contract ---------------------------------------------------------------

  function FeedbackIds(fs: seq<Feedback>): seq<string> {
    seq(|fs|, i requires 0 <= i < |fs| => fs[i].id)
  }

  ghost predicate TargetValid(f: Feedback, prefixes: seq<string>) {
    f.targetPointer.Some? ==> ParseJsonPointer(f.targetPointer.value).Ok? && Authorized(f.targetPointer.value, prefixes)
  }

  ghost predicate Compilable(i: Intent, source: Json) {
    && i.sourceDigest == DigestOf(source)
    && PrefixesValid(i.allowedPathPrefixes)
    && Distinct(FeedbackIds(i.feedback))
    && forall f :: f in i.feedback ==> TargetValid(f, i.allowedPathPrefixes)
  }

  /** What the refusal of the feedback names. */
  ghost predicate FeedbackFault(fs: seq<Feedback>, prefixes: seq<string>, error: RevisionError) {
    match error
    case DuplicateFeedbackId(id) => exists a, b :: 0 <= a < b < |fs| && fs[a].id == id == fs[b].id
    case BadPointer(cause) =>
      exists f :: f in fs && f.targetPointer.Some? && ParseJsonPointer(f.targetPointer.value) == Err(cause)
    case PathOutsideAuthority(path) =>
      !Authorized(path, prefixes) && exists f :: f in fs && f.targetPointer == Some(path)
    case _ => false
  }

  /** What the refusal of an intent names: the source, else a prefix, else the feedback. */
  ghost predicate IntentFault(i: Intent, source: Json, error: RevisionError) {
    if i.sourceDigest != DigestOf(source) then error == SourceDigestMismatch
    else if !PrefixesValid(i.allowedPathPrefixes) then
      error.BadPointer? && exists p :: p in i.allowedPathPrefixes && ParseJsonPointer(p) == Err(error.cause)
    else FeedbackFault(i.feedback, i.allowedPathPrefixes, error)
  }

  method CheckPrefixes(prefixes: seq<string>) returns (error: Option<PointerError>)
    ensures error == None <==> PrefixesValid(prefixes)
    ensures error.Some? ==> exists p :: p in prefixes && ParseJsonPointer(p) == Err(error.value)
  {
    hide ParseJsonPointer;
    for k := 0 to |prefixes|
      invariant forall i :: 0 <= i < k ==> ParseJsonPointer(prefixes[i]).Ok?
    {
      var parsed := ParseJsonPointer(prefixes[k]);
      if parsed.Err? {
        return Some(parsed.error);
      }
    }
    return None;
  }

  method CheckFeedback(fs: seq<Feedback>, prefixes: seq<string>) returns (error: Option<RevisionError>)
    ensures error == None <==> Distinct(FeedbackIds(fs)) && forall f :: f in fs ==> TargetValid(f, prefixes)
    ensures error.Some? ==> FeedbackFault(fs, prefixes, error.value)
  {
    hide ParseJsonPointer, Authorized;
    var seen: set<string> := {};
    var ids := FeedbackIds(fs);
    for k := 0 to |fs|
      invariant seen == Elements(ids[..k]) && Distinct(ids[..k])
      invariant forall i :: 0 <= i < k ==> TargetValid(fs[i], prefixes)
    {
      var f := fs[k];
      assert f in fs && ids[k] == f.id;
      TakeMore(ids, k);
      if f.id in seen {
        ghost var a :| 0 <= a < k && ids[..k][a] == f.id;
        assert fs[a].id == f.id;
        return Some(DuplicateFeedbackId(f.id));
      }
      ElementsAppend(ids[..k], f.id);
      seen := seen + {f.id};
      if f.targetPointer.Some? {
        var parsed := ParseJsonPointer(f.targetPointer.value);
        if parsed.Err? {
          return Some(BadPointer(parsed.error));
        }
        if !Authorized(f.targetPointer.value, prefixes) {
          return Some(PathOutsideAuthority(f.targetPointer.value));
        }
      }
    }
    TakeAll(ids);
    return None;
  }

  method CompileSpecFeedbackContract(i: Intent, source: Json) returns (r: Result<Contract, RevisionError>)
    ensures r.Ok? <==> Compilable(i, source)
    ensures r.Err? ==> IntentFault(i, source, r.error)
    ensures r.Ok? ==>
      && r.value.digest == ContractDigestOf(r.value.content)
      && r.value.content.sourceArtifactId == i.sourceArtifactId && r.value.content.sourceDigest == DigestOf(source)
      && r.value.content.requestText == i.requestText && r.value.content.profileId == i.profileId
      && r.value.content.feedbackIds == FeedbackIds(i.feedback)
      && r.value.content.allowedPathPrefixes == i.allowedPathPrefixes && r.value.content.allowRemove == i.allowRemove
      && r.value.content.requiredPointers == i.requiredPointers
  {
    if DigestOf(source) != i.sourceDigest {
      return Err(SourceDigestMismatch);
    }
    var invalid := CheckPrefixes(i.allowedPathPrefixes);
    if invalid.Some? {
      return Err(BadPointer(invalid.value));
    }
    hide PrefixesValid, TargetValid, FeedbackFault;
    var error := CheckFeedback(i.feedback, i.allowedPathPrefixes);
    if error.Some? {
      return Err(error.value);
    }
    var content := ContractContent(i.sourceArtifactId, i.sourceDigest, i.requestText, FeedbackIds(i.feedback),
      i.allowedPathPrefixes, i.allowRemove, i.profileId, i.requiredPointers);
    return Ok(Contract(content, ContractDigestOf(content)));
  }

  // ----- the proposal ---------------------------------------------------------------

  function Paths(ops: seq<Operation>): seq<string> {
    seq(|ops|, i requires 0 <= i < |ops| => ops[i].path)
  }

  /** An operation stays inside the authority, answers known feedback, and carries a value unless it removes. */
  predicate OperationValid(op: Operation, c: ContractContent) {
    && Authorized(op.path, c.allowedPathPrefixes)
    && (forall i :: 0 <= i < |op.feedbackIds| ==> op.feedbackIds[i] in c.feedbackIds)
    && (if op.kind == Remove then c.allowRemove && op.value == None else op.value.Some?)
  }

  ghost predicate ProposalValid(ops: seq<Operation>, c: ContractContent) {
    Distinct(Paths(ops)) && forall op :: op in ops ==> OperationValid(op, c)
  }

  ghost predicate OperationFault(op: Operation, c: ContractContent, error: RevisionError) {
    match error
    case PathOutsideAuthority(path) => path == op.path && !Authorized(path, c.allowedPathPrefixes)
    case UnknownFeedbackId(id) => id in op.feedbackIds && id !in c.feedbackIds
    case RemoveNotAllowed(path) => path == op.path && op.kind == Remove && !c.allowRemove
    case UnexpectedPatchValue(path) => path == op.path && op.kind == Remove && op.value.Some?
    case MissingPatchValue(path) => path == op.path && op.kind != Remove && op.value.None?
    case _ => false
  }

  /** What the refusal of a proposal names: a path used twice, or what is wrong with one operation. */
  ghost predicate ProposalFault(ops: seq<Operation>, c: ContractContent, error: RevisionError) {
    || (exists a, b :: 0 <= a < b < |ops| && ops[a].path == ops[b].path && error == DuplicatePatchPath(ops[b].path))
    || (exists op :: op in ops && OperationFault(op, c, error))
  }

  method CheckOperation(op: Operation, c: ContractContent) returns (error: Option<RevisionError>)
    ensures error == None <==> OperationValid(op, c)
    ensures error.Some? ==> OperationFault(op, c, error.value)
  {
    if !Authorized(op.path, c.allowedPathPrefixes) {
      return Some(PathOutsideAuthority(op.path));
    }
    hide Authorized;
    for k := 0 to |op.feedbackIds|
      invariant forall i :: 0 <= i < k ==> op.feedbackIds[i] in c.feedbackIds
    {
      if op.feedbackIds[k] !in c.feedbackIds {
        return Some(UnknownFeedbackId(op.feedbackIds[k]));
      }
    }
    if op.kind == Remove {
      if !c.allowRemove {
        return Some(RemoveNotAllowed(op.path));
      }
      if op.value.Some? {
        return Some(UnexpectedPatchValue(op.path));
      }
    } else if op.value.None? {
      return Some(MissingPatchValue(op.path));
    }
    return None;
  }

  method ValidateProposal(ops: seq<Operation>, c: ContractContent) returns (error: Option<RevisionError>)
    ensures error == None <==> ProposalValid(ops, c)
    ensures error.Some? ==> ProposalFault(ops, c, error.value)
  {
    hide OperationValid, OperationFault;
    var seen: set<string> := {};
    var paths := Paths(ops);
    for k := 0 to |ops|
      invariant seen == Elements(paths[..k]) && Distinct(paths[..k])
      invariant forall i :: 0 <= i < k ==> OperationValid(ops[i], c)
    {
      var op := ops[k];
      assert op in ops && paths[k] == op.path;
      TakeMore(paths, k);
      if op.path in seen {
        ghost var a :| 0 <= a < k && paths[..k][a] == op.path;
        assert ops[a].path == op.path;
        return Some(DuplicatePatchPath(op.path));
      }
      ElementsAppend(paths[..k], op.path);
      seen := seen + {op.path};
      error := CheckOperation(op, c);
      if error.Some? {
        return;
      }
    }
    TakeAll(paths);
    return None;
  }

  // ----- the candidate --------------------------------------------------------------

  /** A valid proposal on the pinned source whose edits all apply and change something. */
  ghost predicate Materializable(source: Json, c: Contract, ops: seq<Operation>) {
    && ProposalValid(ops, c.content)
    && c.content.sourceDigest == DigestOf(source)
    && EditAll(source, ops).Ok? && EditAll(source, ops).value != source
  }

  function CandidateFor(c: Contract, ops: seq<Operation>, document: Json): Candidate {
    var content := CandidateContent(c.content.sourceArtifactId, c.content.sourceDigest, c.digest, ops, Paths(ops),
      document, DigestOf(document));
    Candidate(content, CandidateIdOf(content))
  }

  /** The candidate is what its own operations make of the source under the contract. */
  ghost predicate Genuine(source: Json, candidate: Candidate, c: Contract) {
    && Materializable(source, c, candidate.content.operations)
    && candidate == CandidateFor(c, candidate.content.operations, EditAll(source, candidate.content.operations).value)
  }

  method ApplyAll(source: Json, ops: seq<Operation>) returns (r: Result<Json, EditError>)
    ensures r == EditAll(source, ops)
  {
    hide Edit;
    var revised := source;
    TakeAll(ops);
    for k := 0 to |ops|
      invariant EditAll(source, ops[..k]) == Ok(revised)
    {
      TakeMore(ops, k);
      AppendSplit(ops[..k], ops[k]);
      var edited := ApplyOperation(revised, ops[k]);
      if edited.Err? {
        EditFailurePersists(source, ops, k + 1);
        return edited;
      }
      revised := edited.value;
    }
    return Ok(revised);
  }

  lemma {:induction false} EditFailurePersists(source: Json, ops: seq<Operation>, k: nat)
    requires k <= |ops| && EditAll(source, ops[..k]).Err?
    ensures EditAll(source, ops) == EditAll(source, ops[..k])
    decreases |ops|
  {
    if k == |ops| {
      TakeAll(ops);
    } else {
      var front := ops[..|ops| - 1];
      assert front[..k] == ops[..k];
      EditFailurePersists(source, front, k);
    }
  }

  /** What the refusal to make a candidate names: the proposal, else the source, else the edit that fails, else that
      nothing changes. */
  ghost predicate MaterializeFault(source: Json, c: Contract, ops: seq<Operation>, error: RevisionError) {
    if !ProposalValid(ops, c.content) then ProposalFault(ops, c.content, error)
    else if c.content.sourceDigest != DigestOf(source) then error == SourceDigestMismatch
    else if EditAll(source, ops).Err? then error == EditFailed(EditAll(source, ops).error)
    else error == NoOpRevision && EditAll(source, ops).value == source
  }

  method MaterializeSpecRevisionCandidate(source: Json, c: Contract, ops: seq<Operation>)
    returns (r: Result<Candidate, RevisionError>)
    ensures r.Ok? <==> Materializable(source, c, ops)
    ensures r.Ok? ==> r.value == CandidateFor(c, ops, EditAll(source, ops).value) && Genuine(source, r.value, c)
    ensures r.Err? ==> MaterializeFault(source, c, ops, r.error)
  {
    hide ProposalValid, ProposalFault, EditAll;
    var error := ValidateProposal(ops, c.content);
    if error.Some? {
      return Err(error.value);
    }
    if DigestOf(source) != c.content.sourceDigest {
      return Err(SourceDigestMismatch);
    }
    var revised := ApplyAll(source, ops);
    if revised.Err? {
      return Err(EditFailed(revised.error));
    }
    if DigestOf(revised.value) == c.content.sourceDigest {
      return Err(NoOpRevision);
    }
    return Ok(CandidateFor(c, ops, revised.value));
  }

  // ----- independent verification ---------------------------------------------------

  datatype Finding =
    | ParentDigestMismatch
    | ContractDigestMismatch
    | ContentDigestMismatch
    | CandidateMaterializationMismatch
    | CandidateMaterializationFailed
    | RequiredPointerMissing(pointer: string)
    | ProfileFinding(code: string)

  datatype Verdict = Verdict(candidateId: CandidateId, passed: bool, findings: seq<Finding>)

  type Validator = Json -> seq<Finding>

  predicate Resolves(document: Json, pointer: string) {
    ReadAt(document, pointer).Ok?
  }

  /** The required pointers that do not resolve, in order. */
  function Unresolved(document: Json, pointers: seq<string>): seq<Finding> {
    if pointers == [] then []
    else
      Unresolved(document, pointers[..|pointers| - 1])
      + (if Resolves(document, pointers[|pointers| - 1]) then []
         else [RequiredPointerMissing(pointers[|pointers| - 1])])
  }

  lemma {:induction false} UnresolvedEmpty(document: Json, pointers: seq<string>)
    ensures Unresolved(document, pointers) == [] <==> forall p :: p in pointers ==> Resolves(document, p)
  {
    if pointers != [] {
      hide Resolves;
      UnresolvedEmpty(document, pointers[..|pointers| - 1]);
      SplitLast(pointers);
    }
  }

  method CheckPointers(document: Json, pointers: seq<string>) returns (findings: seq<Finding>)
    ensures findings == Unresolved(document, pointers)
  {
    hide ReadAt;
    findings := [];
    for k := 0 to |pointers|
      invariant findings == Unresolved(document, pointers[..k])
    {
      TakeMore(pointers, k);
      AppendSplit(pointers[..k], pointers[k]);
      var value := ReadJsonPointer(document, pointers[k]);
      if value.Err? {
        findings := findings + [RequiredPointerMissing(pointers[k])];
      }
    }
    TakeAll(pointers);
  }

  /** The digests the candidate claims. */
  function DigestFindings(candidate: Candidate, c: Contract): seq<Finding> {
    (if candidate.content.parentDigest != c.content.sourceDigest then [ParentDigestMismatch] else [])
    + (if candidate.content.contractDigest != c.digest then [ContractDigestMismatch] else [])
    + (if DigestOf(candidate.content.document) != candidate.content.contentDigest then [ContentDigestMismatch] else [])
  }

  lemma GenuineDigests(source: Json, candidate: Candidate, c: Contract)
    requires Genuine(source, candidate, c)
    ensures DigestFindings(candidate, c) == []
  {
    hide Materializable, EditAll;
  }

  method CheckMaterialization(source: Json, candidate: Candidate, c: Contract) returns (findings: seq<Finding>)
    ensures findings == if Genuine(source, candidate, c) then []
      else if Materializable(source, c, candidate.content.operations) then [CandidateMaterializationMismatch]
      else [CandidateMaterializationFailed]
  {
    hide Materializable, EditAll;
    var expected := MaterializeSpecRevisionCandidate(source, c, candidate.content.operations);
    if expected.Err? {
      return [CandidateMaterializationFailed];
    }
    if expected.value != candidate {
      return [CandidateMaterializationMismatch];
    }
    return [];
  }

  /** Every required pointer resolves in the document and the profile validator is content with it. */
  ghost predicate Acceptable(document: Json, c: Contract, validator: Option<Validator>) {
    && (forall p :: p in c.content.requiredPointers ==> Resolves(document, p))
    && (validator.Some? ==> validator.value(document) == [])
  }

  /** The verdict verification gives: it passes exactly when the candidate is genuine and its document
      acceptable; on a genuine candidate nothing but missing pointers and profile findings is reported. */
  ghost predicate RightVerdict(source: Json, candidate: Candidate, c: Contract, validator: Option<Validator>,
      v: Verdict) {
    && v.candidateId == candidate.candidateId && (v.passed <==> v.findings == [])
    && (v.passed <==> Genuine(source, candidate, c) && Acceptable(candidate.content.document, c, validator))
    && (Genuine(source, candidate, c) ==>
      v.findings == Unresolved(candidate.content.document, c.content.requiredPointers)
        + (if validator.Some? then validator.value(candidate.content.document) else []))
  }

  /** What verification reports of the candidate itself: each digest that is not the one it should be, and a candidate
      that cannot be made or is not what its operations make. */
  ghost predicate ReportsCandidate(source: Json, candidate: Candidate, c: Contract, own: seq<Finding>) {
    var content := candidate.content;
    && (ParentDigestMismatch in own <==> content.parentDigest != c.content.sourceDigest)
    && (ContractDigestMismatch in own <==> content.contractDigest != c.digest)
    && (ContentDigestMismatch in own <==> content.contentDigest != DigestOf(content.document))
    && (CandidateMaterializationFailed in own <==> !Materializable(source, c, content.operations))
    && (CandidateMaterializationMismatch in own <==>
          Materializable(source, c, content.operations) && !Genuine(source, candidate, c))
    && Distinct(own) && forall f :: f in own ==> !f.RequiredPointerMissing? && !f.ProfileFinding?
  }

  lemma CandidateReported(source: Json, candidate: Candidate, c: Contract, materialization: seq<Finding>)
    requires materialization == if Genuine(source, candidate, c) then []
      else if Materializable(source, c, candidate.content.operations) then [CandidateMaterializationMismatch]
      else [CandidateMaterializationFailed]
    ensures ReportsCandidate(source, candidate, c, DigestFindings(candidate, c) + materialization)
  {
    assert Genuine(source, candidate, c) ==> Materializable(source, c, candidate.content.operations);
    hide Genuine, Materializable;
  }

  /** The findings: those on the candidate, then the missing pointers, then those of the profile. */
  ghost predicate ReportsAll(source: Json, candidate: Candidate, c: Contract, validator: Option<Validator>,
      findings: seq<Finding>) {
    exists own :: ReportsCandidate(source, candidate, c, own)
      && findings == own + Unresolved(candidate.content.document, c.content.requiredPointers)
        + (if validator.Some? then validator.value(candidate.content.document) else [])
  }

  /** A missing pointer is reported exactly when it is required and does not resolve. */
  lemma {:induction false} UnresolvedMeans(document: Json, pointers: seq<string>, f: Finding)
    ensures f in Unresolved(document, pointers) <==>
      f.RequiredPointerMissing? && f.pointer in pointers && ReadAt(document, f.pointer).Err?
  {
    if pointers != [] {
      hide ReadAt;
      UnresolvedMeans(document, pointers[..|pointers| - 1], f);
      SplitLast(pointers);
    }
  }

  method VerifySpecRevision(source: Json, candidate: Candidate, c: Contract, validator: Option<Validator>)
    returns (v: Verdict)
    ensures RightVerdict(source, candidate, c, validator, v) && ReportsAll(source, candidate, c, validator, v.findings)
  {
    hide Genuine, Materializable, Resolves, Unresolved, DigestFindings, ReportsCandidate;
    var digests := DigestFindings(candidate, c);
    var materialization := CheckMaterialization(source, candidate, c);
    var pointers := CheckPointers(candidate.content.document, c.content.requiredPointers);
    UnresolvedEmpty(candidate.content.document, c.content.requiredPointers);
    var profile := if validator.Some? then validator.value(candidate.content.document) else [];
    if Genuine(source, candidate, c) {
      GenuineDigests(source, candidate, c);
    }
    CandidateReported(source, candidate, c, materialization);
    var findings := digests + materialization + pointers + profile;
    v := Verdict(candidate.candidateId, findings == [], findings);
  }

  /** A genuine candidate holds the operations folded over the source, and is not a no-op. */
  lemma GenuineIsFold(source: Json, candidate: Candidate, c: Contract)
    requires Genuine(source, candidate, c)
    ensures EditAll(source, candidate.content.operations) == Ok(candidate.content.document)
    ensures candidate.content.document != source && candidate.content.contentDigest != c.content.sourceDigest
    ensures forall op :: op in candidate.content.operations ==> Authorized(op.path, c.content.allowedPathPrefixes)
    ensures !c.content.allowRemove ==> forall op :: op in candidate.content.operations ==> op.kind != Remove
  {
    hide EditAll, Authorized;
    forall op | op in candidate.content.operations ensures OperationValid(op, c.content) {
    }
  }

  /** What a genuine candidate says of itself: where it comes from, under which contract, what it changes, and the
      digests of its document and of all of this. */
  lemma GenuineIdentity(source: Json, candidate: Candidate, c: Contract)
    requires Genuine(source, candidate, c)
    ensures var content := candidate.content;
      && content.parentArtifactId == c.content.sourceArtifactId && content.parentDigest == DigestOf(source)
      && content.contractDigest == c.digest && content.contentDigest == DigestOf(content.document)
      && candidate.candidateId == CandidateIdOf(content)
      && |content.changedPointers| == |content.operations|
      && (forall k :: 0 <= k < |content.operations| ==> content.changedPointers[k] == content.operations[k].path)
      && (forall op, id :: op in content.operations && id in op.feedbackIds ==> id in c.content.feedbackIds)
      && (forall op :: op in content.operations ==> (op.kind == Remove <==> op.value.None?))
  {
    hide EditAll, Authorized;
    var ops := candidate.content.operations;
    forall op | op in ops
      ensures op.kind == Remove <==> op.value.None?
      ensures forall id :: id in op.feedbackIds ==> id in c.content.feedbackIds
    {
      assert OperationValid(op, c.content);
    }
  }

  /** The authority holds for every genuine candidate: with top-level prefixes on an object document, values
      outside the prefixes are those of the source, and without leave to remove no top-level key is lost. */
  lemma GenuineStaysInAuthority(source: Json, candidate: Candidate, c: Contract, key: string)
    requires Genuine(source, candidate, c) && source.Obj? && TopLevel(c.content.allowedPathPrefixes)
    ensures candidate.content.document.Obj?
    ensures var after := candidate.content.document.fields;
      && ((forall p :: p in c.content.allowedPathPrefixes ==> ParseJsonPointer(p) != Ok([key])) ==>
          (key in after <==> key in source.fields) && (key in after ==> after[key] == source.fields[key]))
      && (!c.content.allowRemove && key in source.fields ==> key in after)
  {
    var ops, prefixes := candidate.content.operations, c.content.allowedPathPrefixes;
    GenuineIsFold(source, candidate, c);
    KeysAreKept(source, ops);
    hide EditAll, Authorized, ParseJsonPointer, Genuine;
    if forall p :: p in prefixes ==> ParseJsonPointer(p) != Ok([key]) {
      TopLevelFrame(source, ops, prefixes, key);
    }
  }

  /** For prefixes of any depth, every position that parts from all of them reads as in the source unless
      an operation moves array elements exactly at a prefix. */
  lemma GenuineFrame(source: Json, candidate: Candidate, c: Contract, at: Segments)
    requires Genuine(source, candidate, c) && PrefixesValid(c.content.allowedPathPrefixes)
    requires Outside(at, c.content.allowedPathPrefixes)
    requires EditAll(source, candidate.content.operations).Ok?
    requires NothingMoves(source, candidate.content.operations, c.content.allowedPathPrefixes)
    ensures Lookup(candidate.content.document, at) == Lookup(source, at)
  {
    GenuineIsFold(source, candidate, c);
    hide EditAll, Authorized, Lookup, Genuine, NothingMoves, Outside, PrefixesValid;
    EditsStayInAuthority(source, candidate.content.operations, c.content.allowedPathPrefixes, at);
  }

  /** Under one prefix of any depth that condition is exact: a genuine candidate keeps everything outside the
      prefix if and only if none of its operations moves array elements at the prefix. */
  lemma GenuineFrameIff(source: Json, candidate: Candidate, c: Contract, prefix: string)
    requires Genuine(source, candidate, c) && c.content.allowedPathPrefixes == [prefix]
    requires ParseJsonPointer(prefix).Ok? && EditAll(source, candidate.content.operations).Ok?
    ensures SameOutside(source, candidate.content.document, prefix) <==>
      NothingMoves(source, candidate.content.operations, [prefix])
  {
    var ops := candidate.content.operations;
    GenuineIsFold(source, candidate, c);
    GenuinePathsDistinct(source, candidate, c);
    hide EditAll, Authorized, Lookup, Genuine, NothingMoves, ParseJsonPointer, SameOutside, PathsDistinct;
    OnePrefixFrameIff(source, ops, prefix);
  }

  lemma GenuinePathsDistinct(source: Json, candidate: Candidate, c: Contract)
    requires Genuine(source, candidate, c)
    ensures PathsDistinct(candidate.content.operations)
  {
    hide OperationValid, EditAll;
    var ops := candidate.content.operations;
    forall i, j | 0 <= i < j < |ops| ensures ops[i].path != ops[j].path {
      assert Paths(ops)[i] == ops[i].path && Paths(ops)[j] == ops[j].path;
    }
  }

  /** A genuine candidate does what its operations say: with paths apart and no array moved, each value is read
      at its path, and nothing is where something was removed. */
  lemma GenuineTakesEffect(source: Json, candidate: Candidate, c: Contract, k: nat)
    requires Genuine(source, candidate, c) && k < |candidate.content.operations|
    requires Apart(candidate.content.operations) && EditAll(source, candidate.content.operations).Ok?
    requires NothingMoves(source, candidate.content.operations, Paths(candidate.content.operations))
    ensures TakesEffect(candidate.content.document, candidate.content.operations[k])
  {
    var ops := candidate.content.operations;
    GenuineIsFold(source, candidate, c);
    hide EditAll, Authorized, NothingMoves, Apart, TakesEffect;
    forall op | op in ops ensures op.path in Paths(ops) && (op.kind != Remove ==> op.value.Some?) {
      var i :| 0 <= i < |ops| && ops[i] == op;
      assert Paths(ops)[i] == op.path && OperationValid(op, c.content);
    }
    hide Genuine;
    AllTakeEffect(source, ops, Paths(ops), k);
  }

  /** Without that condition it fails: inserting at the authorised "/a/0" moves "/a/1". */
  lemma ElementPrefixReachesOutside() returns (source: Json, c: Contract, candidate: Candidate, at: Segments)
    ensures Genuine(source, candidate, c) && Outside(at, c.content.allowedPathPrefixes)
    ensures Lookup(candidate.content.document, at) != Lookup(source, at) && c.content.requiredPointers == []
  {
    var x, y := Str("x"), Str("y");
    source := Obj(map["a" := Arr([x, y])]);
    var op := Operation(Add, "/a/0", Some(Str("new")), []);
    var content := ContractContent("s", DigestOf(source), "", [], ["/a/0"], false, "p", []);
    c := Contract(content, ContractDigestOf(content));
    at := ["a", "1"];
    var path := ["a", "0"];
    ParseExample("0");
    assert "/a/0" == "/a/" + "0";
    InsertExample([x, y], op);
    assert [Str("new")] + [x, y] == [Str("new"), x, y];
    EditExample(source, [x, y], op, "0", Arr([Str("new"), x, y]));
    assert [op][..0] == [] && EditAll(source, []) == Ok(source);
    assert EditAll(source, [op]) == Edit(source, op);
    var after := Edit(source, op).value;
    candidate := CandidateFor(c, [op], after);
    assert Paths([op]) == ["/a/0"];
    assert Authorized("/a/0", ["/a/0"]) by {
      assert WithinPrefix("/a/0", ["/a/0"][0]);
    }
    assert Diverge(at, path) by {
      assert at[1..] == ["1"] && path[1..] == ["0"];
    }
    assert Lookup(source, at) == Ok(y) && Lookup(after, at) == Ok(x) by {
      LookupExample(source, [x, y]);
      LookupExample(after, [Str("new"), x, y]);
    }
  }

  lemma ParseExample(index: string)
    requires index == "0" || index == "1"
    ensures ParseJsonPointer("/a/" + index) == Ok(["a", index])
  {
    var segments := ["a", index];
    var pieces := EscapeAll(segments);
    assert EscapePointer("a") == "a" && EscapePointer("0") == "0" && EscapePointer("1") == "1";
    assert pieces == ["a", index];
    assert Joined([index]) == "/" + index by {
      assert [index][1..] == [];
    }
    assert Joined(pieces) == "/a/" + index by {
      assert pieces[1..] == [index];
    }
    ParseThePrinted(segments);
  }

  lemma IndexExample()
    ensures ArrayIndices.IndexValue("0") == 0 && ArrayIndices.IndexValue("1") == 1
    ensures ArrayIndices.Canonical("0") && ArrayIndices.Canonical("1")
  {
    assert "0"[..0] == "" && "1"[..0] == "";
  }

  /** An edit of one element of the array at "/a". */
  lemma EditExample(document: Json, items: seq<Json>, op: Operation, index: string, edited: Json)
    requires document == Obj(map["a" := Arr(items)]) && ParseJsonPointer(op.path) == Ok(["a", index])
    requires EditParent(Arr(items), index, op) == Ok(edited)
    ensures Edit(document, op) == Ok(Obj(map["a" := edited]))
  {
    var path := ["a", index];
    hide ParseJsonPointer, EditParent;
    assert path[..1] == ["a"];
    LookupOne(document, "a");
    assert Lookup(document, ["a"]) == Ok(Arr(items));
    assert ["a"][1..] == [];
    assert WithValue(Arr(items), [], edited) == edited;
    assert WithValue(document, ["a"], edited) == Put(document, "a", edited);
    assert Put(document, "a", edited) == Obj(map["a" := edited]);
  }

  lemma InsertExample(items: seq<Json>, op: Operation)
    requires items != [] && op.kind == Add && op.value == Some(Str("new"))
    ensures EditParent(Arr(items), "0", op) == Ok(Arr([Str("new")] + items))
  {
    IndexExample();
    hide ArrayIndices.IndexValue;
    assert Inserted(items, 0, Str("new")) == [Str("new")] + items;
  }

  lemma LookupExample(document: Json, items: seq<Json>)
    requires document == Obj(map["a" := Arr(items)]) && |items| > 1
    ensures Lookup(document, ["a", "1"]) == Ok(items[1])
  {
    IndexExample();
    hide ArrayIndices.IndexValue;
    assert ["a", "1"][1..] == ["1"];
    LookupOne(Arr(items), "1");
    assert Child(document, "a") == Ok(Arr(items));
  }

  // ----- moves that cancel ----------------------------------------------------------

  /** Beside two authorised elements the array reads the same, whatever the elements are. */
  lemma BesideBoth(p: Json, q: Json, x: Json, y: Json, at: Segments)
    requires Diverge(at, ["a", "0"]) && Diverge(at, ["a", "1"])
    ensures Lookup(Obj(map["a" := Arr([p, q])]), at) == Lookup(Obj(map["a" := Arr([x, y])]), at)
  {
    if at[0] == "a" {
      assert ["a", "0"][1..] == ["0"] && ["a", "1"][1..] == ["1"];
      assert Diverge(at[1..], ["0"]) && Diverge(at[1..], ["1"]);
      var key := at[1..][0];
      assert ["0"][1..] == [] && ["1"][1..] == [] && !Diverge(at[1..][1..], []);
      NoThirdElement(key);
      assert Child(Arr([p, q]), key) == Child(Arr([x, y]), key);
    }
  }

  lemma NoThirdElement(key: string)
    requires key != "0" && key != "1"
    ensures ArrayIndices.ArrayIndex(key, 2, false).Err?
  {
    IndexExample();
    if ArrayIndices.Canonical(key) {
      ArrayIndices.IndexOfText(key);
      assert ArrayIndices.IndexText(0) == "0" && ArrayIndices.IndexText(1) == "1";
    }
  }

  /** The condition is not necessary under two prefixes: an insertion at "/a/0" and a removal at "/a/1" both
      move elements, and together they leave everything outside as it was. */
  lemma MovesMayCancel() returns (source: Json, c: Contract, candidate: Candidate)
    ensures Genuine(source, candidate, c) && EditAll(source, candidate.content.operations).Ok?
    ensures !NothingMoves(source, candidate.content.operations, c.content.allowedPathPrefixes)
    ensures forall at :: Outside(at, c.content.allowedPathPrefixes) ==>
      Lookup(candidate.content.document, at) == Lookup(source, at)
  {
    var x, y, new0 := Str("x"), Str("y"), Str("new");
    source := Obj(map["a" := Arr([x, y])]);
    var insert, remove := Operation(Add, "/a/0", Some(new0), []), Operation(Remove, "/a/1", None, []);
    var prefixes := ["/a/0", "/a/1"];
    var content := ContractContent("s", DigestOf(source), "", [], prefixes, true, "p", []);
    c := Contract(content, ContractDigestOf(content));
    var ops := [insert, remove];
    var after := Obj(map["a" := Arr([new0, y])]);
    CancellingEdits(source, insert, remove, x, y);
    candidate := CandidateFor(c, ops, after);
    CancellingProposal(content, insert, remove);
    hide EditAll, NothingMoves, Lookup, ProposalValid;
    assert after != source by {
      assert [new0, y][0] != [x, y][0];
      assert after.fields["a"] != source.fields["a"];
    }
    forall at | Outside(at, prefixes) ensures Lookup(after, at) == Lookup(source, at) {
      assert prefixes[0] in prefixes && prefixes[1] in prefixes;
      ParsePrefixes();
      BesideBoth(new0, y, x, y, at);
    }
  }

  lemma ParsePrefixes()
    ensures ParseJsonPointer("/a/0") == Ok(["a", "0"]) && ParseJsonPointer("/a/1") == Ok(["a", "1"])
  {
    ParseExample("0");
    ParseExample("1");
    assert "/a/0" == "/a/" + "0" && "/a/1" == "/a/" + "1";
  }

  lemma CancellingProposal(c: ContractContent, insert: Operation, remove: Operation)
    requires c.allowedPathPrefixes == ["/a/0", "/a/1"] && c.allowRemove
    requires insert == Operation(Add, "/a/0", Some(Str("new")), []) && remove == Operation(Remove, "/a/1", None, [])
    ensures ProposalValid([insert, remove], c)
  {
    var ops, prefixes := [insert, remove], c.allowedPathPrefixes;
    assert Paths(ops) == ["/a/0", "/a/1"];
    assert "/a/0"[3] != "/a/1"[3];
    assert Authorized("/a/0", prefixes) by {
      assert WithinPrefix("/a/0", prefixes[0]);
    }
    assert Authorized("/a/1", prefixes) by {
      assert WithinPrefix("/a/1", prefixes[1]);
    }
    hide Authorized;
    forall op | op in ops ensures OperationValid(op, c) {
      assert op == ops[0] || op == ops[1];
    }
  }

  lemma CancellingEdits(source: Json, insert: Operation, remove: Operation, x: Json, y: Json)
    requires source == Obj(map["a" := Arr([x, y])])
    requires insert == Operation(Add, "/a/0", Some(Str("new")), []) && remove == Operation(Remove, "/a/1", None, [])
    ensures EditAll(source, [insert, remove]) == Ok(Obj(map["a" := Arr([Str("new"), y])]))
    ensures !NothingMoves(source, [insert, remove], ["/a/0", "/a/1"])
  {
    var items := [Str("new"), x, y];
    var middle := Obj(map["a" := Arr(items)]);
    ParsePrefixes();
    hide ParseJsonPointer, Edit, EditParent, Shifting, EditAll, NothingMoves;
    InsertExample([x, y], insert);
    assert [Str("new")] + [x, y] == items;
    EditExample(source, [x, y], insert, "0", Arr(items));
    RemoveExample(items, remove);
    assert Removed(items, 1) == [Str("new"), y];
    EditExample(middle, items, remove, "1", Arr([Str("new"), y]));
    InsertShifts(source, insert, x, y);
    TwoEdits(source, insert, remove, ["/a/0", "/a/1"]);
  }

  lemma TwoEdits(source: Json, first: Operation, second: Operation, prefixes: seq<string>)
    requires Edit(source, first).Ok? && Edit(Edit(source, first).value, second).Ok?
    ensures EditAll(source, [first, second]) == Edit(Edit(source, first).value, second)
    ensures first.path in prefixes && Shifting(source, first) ==> !NothingMoves(source, [first, second], prefixes)
  {
    hide Edit, Shifting;
    assert [first, second][..1] == [first] && [first][..0] == [];
    assert EditAll(source, []) == Ok(source) && EditAll(source, [first]) == Edit(source, first);
    if first.path in prefixes && Shifting(source, first) {
      assert !NothingMoves(source, [first], prefixes);
    }
  }

  lemma RemoveExample(items: seq<Json>, op: Operation)
    requires |items| > 1 && op.kind == Remove
    ensures EditParent(Arr(items), "1", op) == Ok(Arr(Removed(items, 1)))
  {
    IndexExample();
    hide ArrayIndices.IndexValue;
  }

  lemma InsertShifts(source: Json, insert: Operation, x: Json, y: Json)
    requires source == Obj(map["a" := Arr([x, y])]) && insert.kind == Add && insert.path == "/a/0"
    ensures Shifting(source, insert)
  {
    ParsePrefixes();
    IndexExample();
    hide ParseJsonPointer, ArrayIndices.IndexValue;
    assert ["a", "0"][..1] == ["a"];
    LookupOne(source, "a");
  }

  // ----- approval -------------------------------------------------------------------

  datatype Approval = Approval(approvalId: string, actorId: string, approved: bool, decidedAt: string)

  datatype ApprovedRevision = ApprovedRevision(candidate: Candidate, artifactOf: DocumentDigest, approval: Approval)

  function ApproveSpecRevision(candidate: Candidate, verdict: Verdict, approval: Approval)
    : Result<ApprovedRevision, RevisionError>
  {
    if verdict.candidateId != candidate.candidateId || !verdict.passed then Err(RevisionFailedVerification)
    else if !approval.approved then Err(RevisionNotApproved)
    else Ok(ApprovedRevision(candidate, candidate.content.contentDigest, approval))
  }

  /** Under a right verdict a candidate is approved exactly when it has the id of the verified one, that one is genuine
      and acceptable, and the approval says so; it is handed on as it is, with the approval. */
  lemma ApprovedIff(source: Json, verified: Candidate, c: Contract, validator: Option<Validator>, v: Verdict,
      candidate: Candidate, approval: Approval)
    requires RightVerdict(source, verified, c, validator, v)
    ensures var r := ApproveSpecRevision(candidate, v, approval);
      var passed := && candidate.candidateId == verified.candidateId
        && Genuine(source, verified, c) && Acceptable(verified.content.document, c, validator);
      && (r.Ok? <==> passed && approval.approved)
      && (r.Ok? ==> && r.value.candidate == candidate && r.value.approval == approval
                    && r.value.artifactOf == candidate.content.contentDigest)
      && (r.Err? ==> r.error == if passed then RevisionNotApproved else RevisionFailedVerification)
  {
    hide Genuine, Acceptable, Unresolved;
  }

  /** Approval compares ids only. What it lets through under the verdict of a verified candidate is that very
      candidate, and genuine, exactly when its id is the digest of its own content. */
  lemma ApprovedIsVerified(source: Json, verified: Candidate, c: Contract, validator: Option<Validator>, v: Verdict,
      candidate: Candidate, approval: Approval)
    requires RightVerdict(source, verified, c, validator, v)
    requires ApproveSpecRevision(candidate, v, approval).Ok?
    ensures candidate == verified <==> candidate.candidateId == CandidateIdOf(candidate.content)
    ensures Genuine(source, candidate, c) <==> candidate.candidateId == CandidateIdOf(candidate.content)
    ensures candidate.candidateId == CandidateIdOf(candidate.content) ==>
      Acceptable(candidate.content.document, c, validator)
  {
    hide Materializable, EditAll, Acceptable, Unresolved;
  }

  /** Any other document put into a verified candidate under the old id is approved as well, and nothing that
      is approved this way is genuine. */
  lemma ChangedDocumentIsApproved(source: Json, verified: Candidate, c: Contract, validator: Option<Validator>,
      v: Verdict, approval: Approval, document: Json)
    requires RightVerdict(source, verified, c, validator, v) && v.passed && approval.approved
    requires document != verified.content.document
    ensures var changed := verified.(content := verified.content.(document := document));
      ApproveSpecRevision(changed, v, approval).Ok? && !Genuine(source, changed, c)
  {
    hide Materializable, Acceptable, Unresolved;
  }

  /** A verdict right for one candidate under which a candidate that is not genuine is approved. */
  lemma ApprovedMayNotBeVerified()
    returns (source: Json, verified: Candidate, c: Contract, v: Verdict, changed: Candidate, approval: Approval)
    ensures RightVerdict(source, verified, c, None, v)
    ensures ApproveSpecRevision(changed, v, approval).Ok? && !Genuine(source, changed, c)
  {
    var at;
    source, c, verified, at := ElementPrefixReachesOutside();
    hide Genuine, Lookup;
    v := Verdict(verified.candidateId, true, []);
    approval := Approval("a", "u", true, "t");
    changed := verified.(content := verified.content.(document := source));
    ChangedDocumentIsApproved(source, verified, c, None, v, approval, source);
  }
}

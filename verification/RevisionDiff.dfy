/** Which nodes of a candidate revision are roots of change, and why. */
module RevisionDiff {
  import opened Graphs
  import opened Ordering
  import opened Outcomes
  import opened Workflows
  import opened Scheduling
  import opened Revisions

  datatype ProfileItem =
    | PromptTemplate | ModelItem | ToolSchema | EnvironmentImage | PolicyItem | VerifierPolicy | WorkspaceBase

  datatype ChangeReason =
    | InputArtifactChanged(port: string)
    | ContractChanged(contractId: string)
    | ContractUnmapped(contractId: string)
    | NodeAdded
    | NodeDefinitionChanged
    | EdgeChanged(port: string)
    | WorkflowIdentityChanged
    | WorkflowVersionChanged
    | PortSchemaChanged
    | InputSchemaChanged(port: string)
    | WorkflowPolicyChanged
    | WorkflowVerifierChanged
    | ProfileChanged(item: ProfileItem)
    | ProfileRemoved

  /** A node marked as a root, with one reason. */
  type Mark = (Id, ChangeReason)

  // ----- when a reason applies ----------------------------------------------------

  /** Nodes wired to a workflow input. */
  function InputConsumers(w: Workflow, port: string): set<Id> {
    set e | e in w.edges && e.source == WorkflowInput(port) && e.target.NodeInput? :: e.target.nodeId
  }

  predicate ContractTouched(p: RevisionState, c: RevisionState, k: string) {
    && k in p.contractDigests.Keys + c.contractDigests.Keys
    && (Find(p.contractDigests, k) != Find(c.contractDigests, k)
        || Find(p.contractConsumers, k) != Find(c.contractConsumers, k))
  }

  function ContractUsers(p: RevisionState, c: RevisionState, k: string): set<Id> {
    Elements(ConsumersOf(p, k)) + Elements(ConsumersOf(c, k))
  }

  predicate SchemaTouched(p: Workflow, c: Workflow, k: SchemaKey) {
    SchemaOf(p.artifactSchemas, k) != SchemaOf(c.artifactSchemas, k)
  }

  predicate ItemDiffers(before: Option<Profile>, after: Profile, item: ProfileItem) {
    match before
    case None => true
    case Some(b) =>
      match item
      case PromptTemplate => b.promptTemplateDigest != after.promptTemplateDigest
      case ModelItem => b.modelDigest != after.modelDigest
      case ToolSchema => b.toolSchemaDigest != after.toolSchemaDigest
      case EnvironmentImage => b.environmentImageDigest != after.environmentImageDigest
      case PolicyItem => b.policyVersion != after.policyVersion
      case VerifierPolicy => b.verifierPolicyDigest != after.verifierPolicyDigest
      case WorkspaceBase => b.workspaceBaseTreeHash != after.workspaceBaseTreeHash
  }

  /** Whether `reason` makes node `n` a root of the change from `p` to `c`. */
  ghost predicate Applies(p: RevisionState, c: RevisionState, n: Id, reason: ChangeReason) {
    var (pw, cw) := (p.workflow, c.workflow);
    var (pn, cn) := (NodesById(pw.nodes), NodesById(cw.nodes));
    && n in cn
    && match reason
       case InputArtifactChanged(port) =>
         && Find(p.inputArtifactHashes, port) != Find(c.inputArtifactHashes, port)
         && n in InputConsumers(pw, port) + InputConsumers(cw, port)
       case ContractChanged(k) => ContractTouched(p, c, k) && n in ContractUsers(p, c, k)
       case ContractUnmapped(k) => ContractTouched(p, c, k) && ContractUsers(p, c, k) * cn.Keys == {}
       case NodeAdded => n !in pn
       case NodeDefinitionChanged => n in pn && pn[n] != cn[n]
       case EdgeChanged(port) =>
         exists e :: Into(e, n, port) && (e in pw.edges <==> e !in cw.edges)
       case WorkflowIdentityChanged => (pw.id, pw.apiVersion, pw.mode) != (cw.id, cw.apiVersion, cw.mode)
       case WorkflowVersionChanged => pw.version != cw.version
       case PortSchemaChanged => exists k :: k in PortRefs(cn[n]) && SchemaTouched(pw, cw, k)
       case InputSchemaChanged(port) =>
         Find(pw.inputs, port) != Find(cw.inputs, port) && n in InputConsumers(cw, port)
       case WorkflowPolicyChanged => pw.scopePolicy != cw.scopePolicy
       case WorkflowVerifierChanged =>
         pw.verifierDefinitions != cw.verifierDefinitions || pw.releasePolicy != cw.releasePolicy
       case ProfileChanged(item) =>
         n in c.executionProfiles && ItemDiffers(Find(p.executionProfiles, n), c.executionProfiles[n], item)
       case ProfileRemoved => n in p.executionProfiles && n !in c.executionProfiles
  }

  // ----- the comparison -----------------------------------------------------------

  /** Marks the candidate nodes among `ids` with one reason. */
  function Marks(c: RevisionState, ids: set<Id>, reason: ChangeReason): set<Mark> {
    set n | n in ids && n in NodesById(c.workflow.nodes) :: (n, reason)
  }

  function AllMarks(c: RevisionState, reason: ChangeReason): set<Mark> {
    Marks(c, NodesById(c.workflow.nodes).Keys, reason)
  }

  /** The section that produces a reason. */
  datatype Section = Inputs | Contracts | Nodes | Edges | Fields | InputSchemas | Profiles

  function SectionOf(r: ChangeReason): Section {
    match r
    case InputArtifactChanged(_) => Inputs
    case ContractChanged(_) => Contracts
    case ContractUnmapped(_) => Contracts
    case NodeAdded => Nodes
    case NodeDefinitionChanged => Nodes
    case PortSchemaChanged => Nodes
    case EdgeChanged(_) => Edges
    case WorkflowIdentityChanged => Fields
    case WorkflowVersionChanged => Fields
    case WorkflowPolicyChanged => Fields
    case WorkflowVerifierChanged => Fields
    case InputSchemaChanged(_) => InputSchemas
    case ProfileChanged(_) => Profiles
    case ProfileRemoved => Profiles
  }

  /** `marks` are exactly the reasons of one section that apply. */
  ghost predicate Exactly(p: RevisionState, c: RevisionState, s: Section, marks: set<Mark>) {
    forall m :: m in marks <==> SectionOf(m.1) == s && Applies(p, c, m.0, m.1)
  }

  method DiffInputs(p: RevisionState, c: RevisionState) returns (marks: set<Mark>)
    ensures Exactly(p, c, Inputs, marks)
  {
    marks := {};
    var all := p.inputArtifactHashes.Keys + c.inputArtifactHashes.Keys;
    var pending := all;
    while pending != {}
      invariant pending <= all
      invariant forall m :: m in marks <==>
        m.1.InputArtifactChanged? && m.1.port in all - pending && Applies(p, c, m.0, m.1)
    {
      var port :| port in pending;
      pending := pending - {port};
      if Find(p.inputArtifactHashes, port) != Find(c.inputArtifactHashes, port) {
        marks := marks + Marks(c, InputConsumers(p.workflow, port) + InputConsumers(c.workflow, port),
                               InputArtifactChanged(port));
      }
    }
  }

  method DiffContracts(p: RevisionState, c: RevisionState) returns (marks: set<Mark>)
    ensures Exactly(p, c, Contracts, marks)
  {
    marks := {};
    var all := p.contractDigests.Keys + c.contractDigests.Keys;
    var pending := all;
    while pending != {}
      invariant pending <= all
      invariant forall m :: m in marks <==>
        (m.1.ContractChanged? || m.1.ContractUnmapped?) && m.1.contractId in all - pending && Applies(p, c, m.0, m.1)
    {
      var k :| k in pending;
      pending := pending - {k};
      var found := DiffContract(p, c, k);
      marks := marks + found;
    }
  }

  method DiffContract(p: RevisionState, c: RevisionState, k: string) returns (marks: set<Mark>)
    requires k in p.contractDigests.Keys + c.contractDigests.Keys
    ensures forall m :: m in marks <==>
      (m.1 == ContractChanged(k) || m.1 == ContractUnmapped(k)) && Applies(p, c, m.0, m.1)
  {
    if Find(p.contractDigests, k) == Find(c.contractDigests, k)
        && Find(p.contractConsumers, k) == Find(c.contractConsumers, k) {
      return {};
    }
    var users := ContractUsers(p, c, k);
    marks := Marks(c, users, ContractChanged(k));
    if users * NodesById(c.workflow.nodes).Keys == {} {
      marks := marks + AllMarks(c, ContractUnmapped(k));
    }
  }

  method DiffNodes(p: RevisionState, c: RevisionState) returns (marks: set<Mark>)
    ensures Exactly(p, c, Nodes, marks)
  {
    marks := {};
    var before, after := NodesById(p.workflow.nodes), NodesById(c.workflow.nodes);
    var touched := TouchedSchemas(p.workflow, c.workflow);
    hide NodesById, SchemaOf;
    var pending := after.Keys;
    while pending != {}
      invariant pending <= after.Keys
      invariant forall m :: m in marks <==>
        SectionOf(m.1) == Nodes && m.0 in after.Keys - pending && Applies(p, c, m.0, m.1)
    {
      var n :| n in pending;
      pending := pending - {n};
      var found: set<Mark> := if n !in before then {(n, NodeAdded)}
        else if before[n] != after[n] then {(n, NodeDefinitionChanged)} else {};
      if PortRefs(after[n]) * touched != {} {
        found := found + {(n, PortSchemaChanged)};
      }
      NodeMarks(p, c, n, found, touched);
      marks := marks + found;
    }
  }

  lemma NodeMarks(p: RevisionState, c: RevisionState, n: Id, found: set<Mark>, touched: set<SchemaKey>)
    requires n in NodesById(c.workflow.nodes)
    requires forall k :: k in touched <==> SchemaTouched(p.workflow, c.workflow, k)
    requires found == (if n !in NodesById(p.workflow.nodes) then {(n, NodeAdded)}
        else if NodesById(p.workflow.nodes)[n] != NodesById(c.workflow.nodes)[n] then {(n, NodeDefinitionChanged)}
        else {})
      + (if PortRefs(NodesById(c.workflow.nodes)[n]) * touched != {} then {(n, PortSchemaChanged)} else {})
    ensures forall m :: m in found <==> m.0 == n && SectionOf(m.1) == Nodes && Applies(p, c, n, m.1)
  {
    hide NodesById, SchemaTouched;
    var refs := PortRefs(NodesById(c.workflow.nodes)[n]);
    if refs * touched != {} {
      var k :| k in refs * touched;
      assert k in refs && SchemaTouched(p.workflow, c.workflow, k);
    }
    assert (exists k :: k in refs && SchemaTouched(p.workflow, c.workflow, k)) ==> refs * touched != {} by {
      if exists k :: k in refs && SchemaTouched(p.workflow, c.workflow, k) {
        var k :| k in refs && SchemaTouched(p.workflow, c.workflow, k);
        assert k in refs * touched;
      }
    }
  }

  function SchemaKeys(schemas: seq<ArtifactSchema>): set<SchemaKey> {
    set a | a in schemas :: SchemaKey(a.typ, a.schemaVersion)
  }

  lemma {:induction false} SchemaKnown(schemas: seq<ArtifactSchema>, k: SchemaKey)
    ensures SchemaOf(schemas, k).Some? <==> k in SchemaKeys(schemas)
  {
    if schemas != [] {
      SchemaKnown(schemas[..|schemas| - 1], k);
      SplitLast(schemas);
    }
  }

  /** The schemas that differ; only declared ones can. */
  method TouchedSchemas(p: Workflow, c: Workflow) returns (touched: set<SchemaKey>)
    ensures forall k :: k in touched <==> SchemaTouched(p, c, k)
  {
    var keys := SchemaKeys(p.artifactSchemas) + SchemaKeys(c.artifactSchemas);
    touched := set k | k in keys && SchemaTouched(p, c, k);
    forall k | SchemaTouched(p, c, k) ensures k in touched {
      SchemaKnown(p.artifactSchemas, k);
      SchemaKnown(c.artifactSchemas, k);
    }
  }

  predicate OutputEdgeChanged(p: RevisionState, c: RevisionState, e: Edge, port: string) {
    (e !in p.workflow.edges || e !in c.workflow.edges) && e.target == WorkflowOutput(port)
  }

  function ChangedAmong(p: RevisionState, c: RevisionState, edges: set<Edge>, port: string): set<Edge> {
    set e | e in edges && OutputEdgeChanged(p, c, e, port)
  }

  /** The edges into one workflow output that are present on one side only. */
  function ChangedOutputEdges(p: RevisionState, c: RevisionState, port: string): set<Edge> {
    ChangedAmong(p, c, Elements(p.workflow.edges) + Elements(c.workflow.edges), port)
  }

  lemma ChangedAmongGrows(p: RevisionState, c: RevisionState, seen: set<Edge>, e: Edge, port: string)
    requires e !in seen
    ensures |ChangedAmong(p, c, seen + {e}, port)|
      == |ChangedAmong(p, c, seen, port)| + (if OutputEdgeChanged(p, c, e, port) then 1 else 0)
  {
    hide OutputEdgeChanged;
    assert ChangedAmong(p, c, seen + {e}, port)
      == ChangedAmong(p, c, seen, port) + (if OutputEdgeChanged(p, c, e, port) then {e} else {});
  }

  /** Each edge on one side only marks its target node, or is counted for its workflow output. */
  method DiffEdges(p: RevisionState, c: RevisionState) returns (marks: set<Mark>, outputs: multiset<string>)
    ensures Exactly(p, c, Edges, marks)
    ensures forall port :: outputs[port] == |ChangedOutputEdges(p, c, port)|
  {
    marks, outputs := {}, multiset{};
    var all := Elements(p.workflow.edges) + Elements(c.workflow.edges);
    hide NodesById;
    var pending := all;
    while pending != {}
      invariant pending <= all
      invariant forall m :: m in marks <==> exists e :: e in all - pending && EdgeMarks(p, c, e, m)
      invariant OutputsCounted(p, c, all - pending, outputs)
    {
      var e :| e in pending;
      CountOutputEdge(p, c, all - pending, e, outputs);
      assert all - pending + {e} == all - (pending - {e});
      pending := pending - {e};
      var found: set<Mark> := {};
      if e !in p.workflow.edges || e !in c.workflow.edges {
        if e.target.NodeInput? {
          found := Marks(c, {e.target.nodeId}, EdgeChanged(e.target.port));
        } else {
          outputs := outputs + multiset{e.target.port};
        }
      }
      assert forall m :: m in found <==> EdgeMarks(p, c, e, m);
      EdgeStep(p, c, all - pending - {e}, e, marks, found);
      assert all - pending == all - pending - {e} + {e};
      marks := marks + found;
    }
    EdgeSection(p, c, marks, all);
    AllOutputsCounted(p, c, all - pending, outputs);
  }

  ghost predicate OutputsCounted(p: RevisionState, c: RevisionState, seen: set<Edge>, outputs: multiset<string>) {
    forall port :: outputs[port] == |ChangedAmong(p, c, seen, port)|
  }

  function OutputCount(p: RevisionState, c: RevisionState, e: Edge): multiset<string> {
    if (e !in p.workflow.edges || e !in c.workflow.edges) && e.target.WorkflowOutput? then multiset{e.target.port}
    else multiset{}
  }

  lemma CountOutputEdge(p: RevisionState, c: RevisionState, seen: set<Edge>, e: Edge, outputs: multiset<string>)
    requires OutputsCounted(p, c, seen, outputs) && e !in seen
    ensures OutputsCounted(p, c, seen + {e}, outputs + OutputCount(p, c, e))
  {
    hide ChangedAmong;
    var counted := outputs + OutputCount(p, c, e);
    forall port ensures counted[port] == |ChangedAmong(p, c, seen + {e}, port)| {
      ChangedAmongGrows(p, c, seen, e, port);
    }
  }

  lemma AllOutputsCounted(p: RevisionState, c: RevisionState, seen: set<Edge>, outputs: multiset<string>)
    requires OutputsCounted(p, c, seen, outputs)
    requires seen == Elements(p.workflow.edges) + Elements(c.workflow.edges)
    ensures forall port :: outputs[port] == |ChangedOutputEdges(p, c, port)|
  {
    hide OutputEdgeChanged, ChangedAmong;
  }

  ghost predicate EdgeMarks(p: RevisionState, c: RevisionState, e: Edge, m: Mark) {
    && (e !in p.workflow.edges || e !in c.workflow.edges) && e.target.NodeInput?
    && m == (e.target.nodeId, EdgeChanged(e.target.port)) && m.0 in NodesById(c.workflow.nodes)
  }

  lemma EdgeStep(p: RevisionState, c: RevisionState, seen: set<Edge>, e: Edge, marks: set<Mark>, found: set<Mark>)
    requires forall m :: m in marks <==> exists x :: x in seen && EdgeMarks(p, c, x, m)
    requires forall m :: m in found <==> EdgeMarks(p, c, e, m)
    ensures forall m :: m in marks + found <==> exists x :: x in seen + {e} && EdgeMarks(p, c, x, m)
  {
    hide EdgeMarks;
    forall m ensures m in marks + found <==> exists x :: x in seen + {e} && EdgeMarks(p, c, x, m) {
      if x :| x in seen + {e} && EdgeMarks(p, c, x, m) {
        assert x in seen || x == e;
      }
      if m in found {
        assert e in seen + {e} && EdgeMarks(p, c, e, m);
      }
      if m in marks {
        var x :| x in seen && EdgeMarks(p, c, x, m);
        assert x in seen + {e};
      }
    }
  }

  lemma EdgeSection(p: RevisionState, c: RevisionState, marks: set<Mark>, all: set<Edge>)
    requires all == Elements(p.workflow.edges) + Elements(c.workflow.edges)
    requires forall m :: m in marks <==> exists e :: e in all && EdgeMarks(p, c, e, m)
    ensures Exactly(p, c, Edges, marks)
  {
    forall m ensures m in marks <==> SectionOf(m.1) == Edges && Applies(p, c, m.0, m.1) {
      if m in marks {
        var e :| e in all && EdgeMarks(p, c, e, m);
        assert Into(e, m.0, m.1.port);
      }
      if SectionOf(m.1) == Edges && Applies(p, c, m.0, m.1) {
        var e :| Into(e, m.0, m.1.port) && (e in p.workflow.edges <==> e !in c.workflow.edges);
        assert e in all && EdgeMarks(p, c, e, m);
      }
    }
  }

  /** Marks every node if a field differs. */
  method CompareField(c: RevisionState, differs: bool, reason: ChangeReason) returns (marks: set<Mark>)
    ensures forall m :: m in marks <==> differs && m.0 in NodesById(c.workflow.nodes) && m.1 == reason
  {
    marks := if differs then AllMarks(c, reason) else {};
  }

  method DiffFields(p: RevisionState, c: RevisionState) returns (marks: set<Mark>)
    ensures Exactly(p, c, Fields, marks)
  {
    var (pw, cw) := (p.workflow, c.workflow);
    var identity := CompareField(c, (pw.id, pw.apiVersion, pw.mode) != (cw.id, cw.apiVersion, cw.mode),
                                 WorkflowIdentityChanged);
    var version := CompareField(c, pw.version != cw.version, WorkflowVersionChanged);
    var policy := CompareField(c, pw.scopePolicy != cw.scopePolicy, WorkflowPolicyChanged);
    var verifier := CompareField(c, pw.verifierDefinitions != cw.verifierDefinitions
                                    || pw.releasePolicy != cw.releasePolicy, WorkflowVerifierChanged);
    marks := identity + version + policy + verifier;
    hide NodesById;
    forall m ensures m in marks <==> SectionOf(m.1) == Fields && Applies(p, c, m.0, m.1) {
      assert m in marks <==> m in identity || m in version || m in policy || m in verifier;
    }
  }

  method DiffInputSchemas(p: RevisionState, c: RevisionState) returns (marks: set<Mark>)
    ensures Exactly(p, c, InputSchemas, marks)
  {
    marks := {};
    var all := p.workflow.inputs.Keys + c.workflow.inputs.Keys;
    var pending := all;
    while pending != {}
      invariant pending <= all
      invariant forall m :: m in marks <==>
        m.1.InputSchemaChanged? && m.1.port in all - pending && Applies(p, c, m.0, m.1)
    {
      var port :| port in pending;
      pending := pending - {port};
      if Find(p.workflow.inputs, port) != Find(c.workflow.inputs, port) {
        marks := marks + Marks(c, InputConsumers(c.workflow, port), InputSchemaChanged(port));
      }
    }
  }

  const ALL_ITEMS: seq<ProfileItem> :=
    [PromptTemplate, ModelItem, ToolSchema, EnvironmentImage, PolicyItem, VerifierPolicy, WorkspaceBase]

  method DiffProfiles(p: RevisionState, c: RevisionState) returns (marks: set<Mark>)
    ensures Exactly(p, c, Profiles, marks)
  {
    marks := {};
    var all := p.executionProfiles.Keys + c.executionProfiles.Keys;
    var pending := all;
    while pending != {}
      invariant pending <= all
      invariant forall m :: m in marks <==>
        SectionOf(m.1) == Profiles && m.0 in all - pending && Applies(p, c, m.0, m.1)
    {
      var n :| n in pending;
      pending := pending - {n};
      var found := DiffProfile(p, c, n);
      marks := marks + found;
    }
  }

  method DiffProfile(p: RevisionState, c: RevisionState, n: Id) returns (marks: set<Mark>)
    requires n in p.executionProfiles.Keys + c.executionProfiles.Keys
    ensures forall m :: m in marks <==> m.0 == n && SectionOf(m.1) == Profiles && Applies(p, c, n, m.1)
  {
    hide NodesById, PortRefs, SchemaTouched, InputConsumers, ConsumersOf, HeaderOf;
    var before := Find(p.executionProfiles, n);
    if n !in c.executionProfiles {
      return Marks(c, {n}, ProfileRemoved);
    }
    marks := {};
    var i := 0;
    while i < |ALL_ITEMS|
      invariant 0 <= i <= |ALL_ITEMS|
      invariant forall m :: m in marks <==>
        m.0 == n && m.1.ProfileChanged? && m.1.item in ALL_ITEMS[..i] && Applies(p, c, n, m.1)
    {
      TakeMore(ALL_ITEMS, i);
      if ItemDiffers(before, c.executionProfiles[n], ALL_ITEMS[i]) {
        marks := marks + Marks(c, {n}, ProfileChanged(ALL_ITEMS[i]));
      }
      i := i + 1;
    }
    AllItemsListed();
  }

  lemma AllItemsListed()
    ensures forall item: ProfileItem :: item in ALL_ITEMS[..|ALL_ITEMS|]
  {
    forall item: ProfileItem ensures item in ALL_ITEMS[..|ALL_ITEMS|] {
      assert ALL_ITEMS[..|ALL_ITEMS|] == ALL_ITEMS;
      match item
      case PromptTemplate => assert ALL_ITEMS[0] == item;
      case ModelItem => assert ALL_ITEMS[1] == item;
      case ToolSchema => assert ALL_ITEMS[2] == item;
      case EnvironmentImage => assert ALL_ITEMS[3] == item;
      case PolicyItem => assert ALL_ITEMS[4] == item;
      case VerifierPolicy => assert ALL_ITEMS[5] == item;
      case WorkspaceBase => assert ALL_ITEMS[6] == item;
    }
  }

  datatype ChangedRoot = ChangedRoot(nodeId: Id, reasons: set<ChangeReason>)

  /** What concerns no node: the ports of changed edges into workflow outputs, each as often as edges changed,
      and whether the declared outputs differ. */
  datatype WorkflowReasons = WorkflowReasons(outputEdges: multiset<string>, outputsChanged: bool)

  datatype ChangedRootSet = ChangedRootSet(
    roots: seq<ChangedRoot>,
    removedNodeIds: set<Id>,
    workflowReasons: WorkflowReasons)

  /** `roots` lists, once and in ascending order, the candidate nodes to which some reason applies,
      each with exactly the reasons that apply. */
  ghost predicate ExactRoots(p: RevisionState, c: RevisionState, roots: seq<ChangedRoot>) {
    && (forall i, j :: 0 <= i < j < |roots| ==>
      roots[i].nodeId != roots[j].nodeId && StrLe(roots[i].nodeId, roots[j].nodeId))
    && (forall r, x :: r in roots ==> (x in r.reasons <==> Applies(p, c, r.nodeId, x)))
    && (forall r :: r in roots ==> r.reasons != {})
    && (forall n, x :: Applies(p, c, n, x) ==> exists r :: r in roots && r.nodeId == n)
  }

  /** Compares two revision states section by section. */
  method DiffRevisionStates(p: RevisionState, c: RevisionState) returns (changes: ChangedRootSet)
    ensures ExactRoots(p, c, changes.roots)
    ensures changes.removedNodeIds == NodeIds(p.workflow) - NodeIds(c.workflow)
    ensures forall port :: changes.workflowReasons.outputEdges[port] == |ChangedOutputEdges(p, c, port)|
    ensures changes.workflowReasons.outputsChanged <==> p.workflow.outputs != c.workflow.outputs
  {
    var inputs := DiffInputs(p, c);
    var contracts := DiffContracts(p, c);
    var nodes := DiffNodes(p, c);
    var edges, outputEdges := DiffEdges(p, c);
    var fields := DiffFields(p, c);
    var inputSchemas := DiffInputSchemas(p, c);
    var profiles := DiffProfiles(p, c);
    var marks := inputs + contracts + nodes + edges + fields + inputSchemas + profiles;
    AllSections(p, c, inputs, contracts, nodes, edges, fields, inputSchemas, profiles);
    var roots := GroupMarks(marks);
    hide Applies;
    GroupedIsExact(p, c, marks, roots);
    return ChangedRootSet(roots, NodeIds(p.workflow) - NodeIds(c.workflow),
      WorkflowReasons(outputEdges, p.workflow.outputs != c.workflow.outputs));
  }

  lemma AllSections(p: RevisionState, c: RevisionState, inputs: set<Mark>, contracts: set<Mark>, nodes: set<Mark>,
      edges: set<Mark>, fields: set<Mark>, inputSchemas: set<Mark>, profiles: set<Mark>)
    requires Exactly(p, c, Inputs, inputs) && Exactly(p, c, Contracts, contracts) && Exactly(p, c, Nodes, nodes)
    requires Exactly(p, c, Edges, edges) && Exactly(p, c, Fields, fields)
    requires Exactly(p, c, InputSchemas, inputSchemas) && Exactly(p, c, Profiles, profiles)
    ensures forall m :: m in inputs + contracts + nodes + edges + fields + inputSchemas + profiles <==>
      Applies(p, c, m.0, m.1)
  {
    hide Applies;
    forall m ensures m in inputs + contracts + nodes + edges + fields + inputSchemas + profiles <==>
      Applies(p, c, m.0, m.1)
    {
      assert SectionOf(m.1) in {Inputs, Contracts, Nodes, Edges, Fields, InputSchemas, Profiles};
    }
  }

  /** Groups marks by node, nodes ascending. */
  method GroupMarks(marks: set<Mark>) returns (roots: seq<ChangedRoot>)
    ensures |roots| == |SortedKeys(set m | m in marks :: m.0)|
    ensures forall i :: 0 <= i < |roots| ==>
      roots[i] == ChangedRoot(SortedKeys(set m | m in marks :: m.0)[i],
                              set m | m in marks && m.0 == SortedKeys(set m | m in marks :: m.0)[i] :: m.1)
  {
    var ids := EnumerateSorted(set m | m in marks :: m.0);
    roots := [];
    var i := 0;
    while i < |ids|
      invariant 0 <= i <= |ids| && |roots| == i
      invariant forall k :: 0 <= k < i ==> roots[k] == ChangedRoot(ids[k], set m | m in marks && m.0 == ids[k] :: m.1)
    {
      roots := roots + [ChangedRoot(ids[i], set m | m in marks && m.0 == ids[i] :: m.1)];
      i := i + 1;
    }
  }

  lemma GroupedIsExact(p: RevisionState, c: RevisionState, marks: set<Mark>, roots: seq<ChangedRoot>)
    requires forall m :: m in marks <==> Applies(p, c, m.0, m.1)
    requires var ids := SortedKeys(set m | m in marks :: m.0);
      |roots| == |ids| && forall i :: 0 <= i < |roots| ==>
        roots[i] == ChangedRoot(ids[i], set m | m in marks && m.0 == ids[i] :: m.1)
    ensures ExactRoots(p, c, roots)
  {
    hide Applies;
    var nodes := set m | m in marks :: m.0;
    var ids := SortedKeys(nodes);
    SortedKeysAscend(nodes);
    hide SortedKeys, StrLe;
    forall r, x | r in roots ensures (x in r.reasons <==> Applies(p, c, r.nodeId, x)) && r.reasons != {} {
      var i :| 0 <= i < |roots| && roots[i] == r;
      assert ids[i] in Elements(ids);
      var m :| m in marks && m.0 == ids[i];
      assert m.1 in r.reasons;
      assert x in r.reasons <==> (r.nodeId, x) in marks by {
        if (r.nodeId, x) in marks {
          assert (r.nodeId, x).0 == ids[i];
        }
      }
    }
    forall n, x | Applies(p, c, n, x) ensures exists r :: r in roots && r.nodeId == n {
      assert (n, x) in marks;
      assert (n, x).0 in nodes;
      assert n in Elements(ids);
      var i :| 0 <= i < |ids| && ids[i] == n;
      assert roots[i] in roots;
    }
  }
}

/** When a reason makes a node a root of the change, in terms of the two revisions alone. */
module ChangeReasons {
  import opened Graphs
  import opened Ordering
  import opened Outcomes
  import opened Workflows
  import opened Scheduling
  import opened Revisions
  import opened RevisionDiff
  import Json

  /** One of the maps has the key and the other has not, or they have different values for it. */
  ghost predicate Differ<V>(a: map<string, V>, b: map<string, V>, k: string) {
    (k in a && k !in b) || (k !in a && k in b) || (k in a && k in b && a[k] != b[k])
  }

  /** Some edge leads from that workflow input into the node. */
  ghost predicate InputFeeds(w: Workflow, port: string, n: Id) {
    exists e :: e in w.edges && e.source == WorkflowInput(port) && e.target.NodeInput? && e.target.nodeId == n
  }

  ghost predicate Consumes(s: RevisionState, k: string, n: Id) {
    k in s.contractConsumers && n in s.contractConsumers[k]
  }

  /** A known contract whose digest or whose consumers differ. */
  ghost predicate ContractDiffers(p: RevisionState, c: RevisionState, k: string) {
    && (k in p.contractDigests || k in c.contractDigests)
    && (Differ(p.contractDigests, c.contractDigests, k) || Differ(p.contractConsumers, c.contractConsumers, k))
  }

  ghost predicate HasNode(w: Workflow, n: Id) {
    exists k :: StandsAt(w.nodes, n, k)
  }

  /** The last schema declared for a type and version. */
  ghost predicate Declares(schemas: seq<ArtifactSchema>, typ: string, version: string, schema: Json.Json) {
    exists i :: SchemaStandsAt(schemas, typ, version, i) && schemas[i].schema == schema
  }

  ghost predicate SchemaStandsAt(schemas: seq<ArtifactSchema>, typ: string, version: string, i: int) {
    && 0 <= i < |schemas| && schemas[i].typ == typ && schemas[i].schemaVersion == version
    && forall j :: i < j < |schemas| ==> !(schemas[j].typ == typ && schemas[j].schemaVersion == version)
  }

  ghost predicate SchemaDiffers(p: Workflow, c: Workflow, typ: string, version: string) {
    exists schema ::
      Declares(p.artifactSchemas, typ, version, schema) != Declares(c.artifactSchemas, typ, version, schema)
  }

  /** Some port of the node has that type and version. */
  ghost predicate HasPortOf(n: Node, typ: string, version: string) {
    || (exists p :: p in n.inputs && n.inputs[p].typ == typ && n.inputs[p].schemaVersion == version)
    || (exists p :: p in n.outputs && n.outputs[p].typ == typ && n.outputs[p].schemaVersion == version)
  }

  ghost predicate PortSchemaDiffers(p: Workflow, c: Workflow, n: Id) {
    exists k, typ, version ::
      StandsAt(c.nodes, n, k) && HasPortOf(c.nodes[k], typ, version) && SchemaDiffers(p, c, typ, version)
  }

  ghost predicate DefinitionDiffers(p: Workflow, c: Workflow, n: Id) {
    exists i, j :: StandsAt(p.nodes, n, i) && StandsAt(c.nodes, n, j) && p.nodes[i] != c.nodes[j]
  }

  ghost predicate EdgeDiffers(p: Workflow, c: Workflow, n: Id, port: string) {
    exists e :: Into(e, n, port) && ((e in p.edges && e !in c.edges) || (e !in p.edges && e in c.edges))
  }

  ghost predicate ProfileItemDiffers(before: Profile, after: Profile, item: ProfileItem) {
    match item
    case PromptTemplate => before.promptTemplateDigest != after.promptTemplateDigest
    case ModelItem => before.modelDigest != after.modelDigest
    case ToolSchema => before.toolSchemaDigest != after.toolSchemaDigest
    case EnvironmentImage => before.environmentImageDigest != after.environmentImageDigest
    case PolicyItem => before.policyVersion != after.policyVersion
    case VerifierPolicy => before.verifierPolicyDigest != after.verifierPolicyDigest
    case WorkspaceBase => before.workspaceBaseTreeHash != after.workspaceBaseTreeHash
  }

  /** What each reason says of a node of the candidate. */
  ghost predicate Means(p: RevisionState, c: RevisionState, n: Id, reason: ChangeReason) {
    var pw, cw := p.workflow, c.workflow;
    && HasNode(cw, n)
    && match reason
       case InputArtifactChanged(port) =>
         && Differ(p.inputArtifactHashes, c.inputArtifactHashes, port)
         && (InputFeeds(pw, port, n) || InputFeeds(cw, port, n))
       case ContractChanged(k) => ContractDiffers(p, c, k) && (Consumes(p, k, n) || Consumes(c, k, n))
       case ContractUnmapped(k) =>
         ContractDiffers(p, c, k) && forall m :: HasNode(cw, m) ==> !Consumes(p, k, m) && !Consumes(c, k, m)
       case NodeAdded => !HasNode(pw, n)
       case NodeDefinitionChanged => DefinitionDiffers(pw, cw, n)
       case EdgeChanged(port) => EdgeDiffers(pw, cw, n, port)
       case WorkflowIdentityChanged => pw.id != cw.id || pw.apiVersion != cw.apiVersion || pw.mode != cw.mode
       case WorkflowVersionChanged => pw.version != cw.version
       case PortSchemaChanged => PortSchemaDiffers(pw, cw, n)
       case InputSchemaChanged(port) => Differ(pw.inputs, cw.inputs, port) && InputFeeds(cw, port, n)
       case WorkflowPolicyChanged => pw.scopePolicy != cw.scopePolicy
       case WorkflowVerifierChanged =>
         pw.verifierDefinitions != cw.verifierDefinitions || pw.releasePolicy != cw.releasePolicy
       case ProfileChanged(item) =>
         && n in c.executionProfiles
         && (n in p.executionProfiles ==> ProfileItemDiffers(p.executionProfiles[n], c.executionProfiles[n], item))
       case ProfileRemoved => n in p.executionProfiles && n !in c.executionProfiles
  }

  // ----- the parts ------------------------------------------------------------------

  lemma {:induction false} SchemaOfIs(schemas: seq<ArtifactSchema>, typ: string, version: string, schema: Json.Json)
    ensures SchemaOf(schemas, SchemaKey(typ, version)) == Some(schema) <==> Declares(schemas, typ, version, schema)
  {
    if schemas != [] {
      var n := |schemas| - 1;
      SchemaOfIs(schemas[..n], typ, version, schema);
      if schemas[n].typ == typ && schemas[n].schemaVersion == version {
        assert SchemaStandsAt(schemas, typ, version, n);
      } else {
        if i :| SchemaStandsAt(schemas[..n], typ, version, i) && schemas[i].schema == schema {
          assert SchemaStandsAt(schemas, typ, version, i);
        }
        if i :| SchemaStandsAt(schemas, typ, version, i) && schemas[i].schema == schema {
          assert SchemaStandsAt(schemas[..n], typ, version, i);
        }
      }
    }
  }

  lemma SchemaTouchedIs(p: Workflow, c: Workflow, typ: string, version: string)
    ensures SchemaTouched(p, c, SchemaKey(typ, version)) <==> SchemaDiffers(p, c, typ, version)
  {
    var k := SchemaKey(typ, version);
    forall schema
      ensures SchemaOf(p.artifactSchemas, k) == Some(schema) <==> Declares(p.artifactSchemas, typ, version, schema)
      ensures SchemaOf(c.artifactSchemas, k) == Some(schema) <==> Declares(c.artifactSchemas, typ, version, schema)
    {
      SchemaOfIs(p.artifactSchemas, typ, version, schema);
      SchemaOfIs(c.artifactSchemas, typ, version, schema);
    }
    hide SchemaOf, Declares;
    var before, after := SchemaOf(p.artifactSchemas, k), SchemaOf(c.artifactSchemas, k);
    if before != after {
      var schema := if before.Some? then before.value else after.value;
      assert Declares(p.artifactSchemas, typ, version, schema) != Declares(c.artifactSchemas, typ, version, schema);
    }
  }

  lemma PortRefsAre(n: Node, typ: string, version: string)
    ensures SchemaKey(typ, version) in PortRefs(n) <==> HasPortOf(n, typ, version)
  {
    var k := SchemaKey(typ, version);
    if k in PortRefs(n) {
      assert (exists p :: p in n.inputs && PortKey(n.inputs[p]) == k)
        || (exists p :: p in n.outputs && PortKey(n.outputs[p]) == k);
    }
  }

  lemma PortSchemaIs(p: Workflow, c: Workflow, n: Id)
    requires n in NodesById(c.nodes)
    ensures (exists k :: k in PortRefs(NodesById(c.nodes)[n]) && SchemaTouched(p, c, k)) <==> PortSchemaDiffers(p, c, n)
  {
    LastStands(c.nodes, n);
    var node := NodesById(c.nodes)[n];
    hide NodesById, PortRefs, SchemaTouched, HasPortOf, SchemaDiffers, StandsAt;
    if k :| k in PortRefs(node) && SchemaTouched(p, c, k) {
      PortRefsAre(node, k.typ, k.schemaVersion);
      SchemaTouchedIs(p, c, k.typ, k.schemaVersion);
      var i :| StandsAt(c.nodes, n, i);
      PortSchemaWitness(p, c, n, i, k.typ, k.schemaVersion);
    }
    if PortSchemaDiffers(p, c, n) {
      var i, typ, version := PortSchemaCase(p, c, n);
      PortRefsAre(node, typ, version);
      SchemaTouchedIs(p, c, typ, version);
      assert SchemaKey(typ, version) in PortRefs(node);
    }
  }

  lemma PortSchemaWitness(p: Workflow, c: Workflow, n: Id, k: int, typ: string, version: string)
    requires StandsAt(c.nodes, n, k) && HasPortOf(c.nodes[k], typ, version) && SchemaDiffers(p, c, typ, version)
    ensures PortSchemaDiffers(p, c, n)
  {
    hide HasPortOf, SchemaDiffers;
  }

  lemma PortSchemaCase(p: Workflow, c: Workflow, n: Id) returns (k: int, typ: string, version: string)
    requires PortSchemaDiffers(p, c, n)
    ensures StandsAt(c.nodes, n, k) && HasPortOf(c.nodes[k], typ, version) && SchemaDiffers(p, c, typ, version)
  {
    hide HasPortOf, SchemaDiffers;
    k, typ, version :| StandsAt(c.nodes, n, k) && HasPortOf(c.nodes[k], typ, version)
      && SchemaDiffers(p, c, typ, version);
  }

  lemma ConsumersAre(w: Workflow, port: string, n: Id)
    ensures n in InputConsumers(w, port) <==> InputFeeds(w, port, n)
  {
  }

  lemma UsersAre(p: RevisionState, c: RevisionState, k: string, n: Id)
    ensures n in ContractUsers(p, c, k) <==> Consumes(p, k, n) || Consumes(c, k, n)
    ensures ContractTouched(p, c, k) <==> ContractDiffers(p, c, k)
  {
  }

  lemma UnmappedIs(p: RevisionState, c: RevisionState, k: string)
    ensures ContractUsers(p, c, k) * NodesById(c.workflow.nodes).Keys == {} <==>
      forall m :: HasNode(c.workflow, m) ==> !Consumes(p, k, m) && !Consumes(c, k, m)
  {
    forall m
      ensures m in NodesById(c.workflow.nodes) <==> HasNode(c.workflow, m)
      ensures m in ContractUsers(p, c, k) <==> Consumes(p, k, m) || Consumes(c, k, m)
    {
      LastStands(c.workflow.nodes, m);
      UsersAre(p, c, k, m);
    }
    hide NodesById, HasNode, ContractUsers, Consumes;
    if ContractUsers(p, c, k) * NodesById(c.workflow.nodes).Keys == {} {
      forall m | HasNode(c.workflow, m) ensures !Consumes(p, k, m) && !Consumes(c, k, m) {
        assert m !in ContractUsers(p, c, k) * NodesById(c.workflow.nodes).Keys;
      }
    }
  }

  lemma DefinitionIs(p: Workflow, c: Workflow, n: Id)
    requires n in NodesById(c.nodes)
    ensures (n in NodesById(p.nodes) && NodesById(p.nodes)[n] != NodesById(c.nodes)[n]) <==> DefinitionDiffers(p, c, n)
  {
    LastStands(p.nodes, n);
    LastStands(c.nodes, n);
    hide NodesById, StandsAt;
  }

  // ----- the whole ------------------------------------------------------------------

  /** A reason applies to a node exactly when what it says is true of the two revisions. */
  lemma AppliesIff(p: RevisionState, c: RevisionState, n: Id, reason: ChangeReason)
    ensures Applies(p, c, n, reason) <==> Means(p, c, n, reason)
  {
    LastStands(c.workflow.nodes, n);
    LastStands(p.workflow.nodes, n);
    hide NodesById, InputConsumers, ContractTouched, ContractUsers, SchemaTouched, PortRefs, InputFeeds, Consumes,
      ContractDiffers, PortSchemaDiffers, DefinitionDiffers, StandsAt;
    if n in NodesById(c.workflow.nodes) {
      match reason
      case InputArtifactChanged(port) =>
        ConsumersAre(p.workflow, port, n);
        ConsumersAre(c.workflow, port, n);
      case ContractChanged(k) => UsersAre(p, c, k, n);
      case ContractUnmapped(k) =>
        UsersAre(p, c, k, n);
        UnmappedIs(p, c, k);
      case NodeDefinitionChanged => DefinitionIs(p.workflow, c.workflow, n);
      case PortSchemaChanged => PortSchemaIs(p.workflow, c.workflow, n);
      case InputSchemaChanged(port) => ConsumersAre(c.workflow, port, n);
      case _ =>
    }
  }

  /** The roots of a comparison list exactly the nodes of which some reason is true, with exactly those reasons. */
  lemma RootsMean(p: RevisionState, c: RevisionState, roots: seq<ChangedRoot>, n: Id, reason: ChangeReason)
    requires ExactRoots(p, c, roots)
    ensures (exists r :: r in roots && r.nodeId == n && reason in r.reasons) <==> Means(p, c, n, reason)
  {
    AppliesIff(p, c, n, reason);
    hide Applies, Means, StrLe;
    if Applies(p, c, n, reason) {
      var r :| r in roots && r.nodeId == n;
      assert reason in r.reasons;
    }
  }
}

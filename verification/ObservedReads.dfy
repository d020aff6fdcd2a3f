/** Which observed reads are reported, in terms of the patterns a node declares. */
module ObservedReads {
  import opened Graphs
  import opened Ordering
  import opened PathPatterns
  import opened Workflows
  import opened RevisionDiff
  import opened Impact
  import opened Incremental

  lemma DeclaresIffCovered(n: Node, read: string)
    ensures Declares(n, read) <==> Covered(n.readPatterns, read)
  {
    hide PatternMatches, CoveredBy;
    if pattern :| pattern in n.readPatterns && PatternMatches(pattern, read) {
      var i :| 0 <= i < |n.readPatterns| && n.readPatterns[i] == pattern;
      MatchesIffCovered(pattern, read);
      assert CoveredBy(n.readPatterns[i], read);
    }
    if i :| 0 <= i < |n.readPatterns| && CoveredBy(n.readPatterns[i], read) {
      MatchesIffCovered(n.readPatterns[i], read);
      assert n.readPatterns[i] in n.readPatterns;
    }
  }

  /** The node with that id was seen reading something none of its read patterns covers. */
  ghost predicate SeenUndeclared(w: Workflow, o: Options, m: Id, read: string) {
    && m in o.observedReads && read in o.observedReads[m]
    && exists k :: StandsAt(w.nodes, m, k) && !Covered(w.nodes[k].readPatterns, read)
  }

  lemma IllReadMeans(w: Workflow, o: Options, m: Id, read: string)
    ensures IllRead(w, o, m, read) <==> SeenUndeclared(w, o, m, read)
  {
    LastStands(w.nodes, m);
    hide NodesById, Declares, Covered;
    if k :| StandsAt(w.nodes, m, k) {
      DeclaresIffCovered(w.nodes[k], read);
    }
  }

  /** A read is reported exactly when it was observed and no read pattern of its node covers it. */
  lemma ReportedIffUndeclared(w: Workflow, roots: seq<ChangedRoot>, o: Options, r: ImpactResult, m: Id, read: string)
    requires RightResult(w, roots, o, r)
    ensures UndeclaredReadViolation(m, read) in r.violations <==> SeenUndeclared(w, o, m, read)
  {
    IllReadMeans(w, o, m, read);
    hide SeenUndeclared, IllRead, SortedKeys;
    assert UndeclaredReadViolation(m, read) in r.violations <==> Violates(w, o, UndeclaredReadViolation(m, read));
  }

  /** A reported reader, and every node downstream of it, must run again. */
  lemma ReportedRunsAgain(w: Workflow, roots: seq<ChangedRoot>, o: Options, r: ImpactResult, m: Id, read: string,
      d: Decision)
    requires RightResult(w, roots, o, r) && UndeclaredReadViolation(m, read) in r.violations
    requires d in r.decisions && Reaches(ImpactGraph(w), m, d.nodeId)
    ensures d.action == Rerun && d.mandatoryRerun
  {
    DecisionsAreRight(w, roots, o, r, d);
    assert Violates(w, o, UndeclaredReadViolation(m, read));
    hide RightResult, NodesById;
    assert Touched(w, [], o, d.nodeId) by {
      assert IllReader(w, o, m);
    }
    MandatoryIff(w, roots, o, d);
  }

  lemma DecisionsAreRight(w: Workflow, roots: seq<ChangedRoot>, o: Options, r: ImpactResult, d: Decision)
    requires RightResult(w, roots, o, r) && d in r.decisions
    ensures RightDecision(w, roots, o, d) && d.nodeId in NodesById(w.nodes)
  {
    hide RightDecision, NodesById;
    var ids := SortedKeys(NodesById(w.nodes).Keys);
    var i :| 0 <= i < |r.decisions| && r.decisions[i] == d;
    assert ids[i] in Elements(ids);
  }
}

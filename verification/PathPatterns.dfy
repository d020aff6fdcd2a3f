// Path patterns: a star, a prefix followed by a recursive wildcard, or a literal path.
module PathPatterns {
  import opened Ordering

  predicate IsRecursive(pattern: string) {
    |pattern| >= 3 && pattern[|pattern| - 3..] == "/**"
  }

  function Prefix(pattern: string): string
    requires IsRecursive(pattern)
  {
    pattern[..|pattern| - 3]
  }

  predicate PatternMatches(pattern: string, path: string) {
    if pattern == "*" then true
    else if IsRecursive(pattern) then Prefix(pattern) + "/" <= path
    else pattern == path
  }

  predicate RecursivePatternsOverlap(left: string, right: string)
    requires IsRecursive(left) && IsRecursive(right)
  {
    var l, r := Prefix(left), Prefix(right);
    l == r || r + "/" <= l || l + "/" <= r
  }

  predicate WritePatternsOverlap(left: string, right: string) {
    || PatternMatches(left, right)
    || PatternMatches(right, left)
    || (IsRecursive(left) && IsRecursive(right) && RecursivePatternsOverlap(left, right))
  }

  /** Some concrete path is matched by both patterns. */
  ghost predicate SharePath(left: string, right: string) {
    exists path :: PatternMatches(left, path) && PatternMatches(right, path)
  }

  /** The textual overlap test is exact. */
  lemma OverlapExact(left: string, right: string)
    ensures WritePatternsOverlap(left, right) <==> SharePath(left, right)
  {
    if WritePatternsOverlap(left, right) {
      OverlapHasWitness(left, right);
    }
    if SharePath(left, right) {
      var path :| PatternMatches(left, path) && PatternMatches(right, path);
      if left != "*" && right != "*" && IsRecursive(left) && IsRecursive(right) {
        CommonPathComparesPrefixes(Prefix(left), Prefix(right), path);
      }
    }
  }

  /** A path the pattern itself accepts. */
  function Sample(pattern: string): string {
    if pattern == "*" then "" else if IsRecursive(pattern) then Prefix(pattern) + "/" else pattern
  }

  lemma OverlapHasWitness(left: string, right: string)
    requires WritePatternsOverlap(left, right)
    ensures SharePath(left, right)
  {
    if left == "*" || right == "*" {
      var other := if left == "*" then right else left;
      SampleMatches(other);
      SharedPath(left, right, Sample(other));
    } else if !IsRecursive(right) {
      SharedPath(left, right, right);
    } else if !IsRecursive(left) {
      SharedPath(left, right, left);
    } else {
      RecursiveTextOverlap(left, right);
      var l, r := Prefix(left), Prefix(right);
      var path := if |l| <= |r| then r + "/" else l + "/";
      assert l + "/" <= path && r + "/" <= path;
      SharedPath(left, right, path);
    }
  }

  lemma SharedPath(left: string, right: string, path: string)
    requires PatternMatches(left, path) && PatternMatches(right, path)
    ensures SharePath(left, right)
  {
  }

  lemma SampleMatches(pattern: string)
    ensures PatternMatches(pattern, Sample(pattern))
  {
  }

  /** Matching one recursive pattern against the text of another compares their prefixes. */
  lemma RecursiveTextOverlap(left: string, right: string)
    requires left != "*" && right != "*" && IsRecursive(left) && IsRecursive(right)
    requires WritePatternsOverlap(left, right)
    ensures RecursivePatternsOverlap(left, right)
  {
    var l, r := Prefix(left), Prefix(right);
    assert left == l + "/**" && right == r + "/**";
    if PatternMatches(left, right) {
      TextPrefix(l, r);
    }
    if PatternMatches(right, left) {
      TextPrefix(r, l);
    }
  }

  lemma TextPrefix(l: string, r: string)
    requires l + "/" <= r + "/**"
    ensures l == r || l + "/" <= r
  {
    var text := r + "/**";
    assert text[|l|] == '/';
    assert text[|r| + 1] == '*' && text[|r| + 2] == '*';
    assert l == text[..|l|];
    if |l| < |r| {
      assert l + "/" == text[..|l| + 1] == r[..|l| + 1];
    } else {
      assert |l| == |r|;
      assert text[..|r|] == r;
    }
  }

  lemma CommonPathComparesPrefixes(l: string, r: string, path: string)
    requires l + "/" <= path && r + "/" <= path
    ensures l == r || r + "/" <= l || l + "/" <= r
  {
    assert l == path[..|l|] && r == path[..|r|];
    assert path[..|l| + 1] == l + "/" && path[..|r| + 1] == r + "/";
    if |l| < |r| {
      assert l + "/" == r[..|l| + 1];
    } else if |r| < |l| {
      assert r + "/" == l[..|r| + 1];
    }
  }

  const RECURSIVE := "/**"

  /** A pattern covers everything, a directory and what is below it, or one path. */
  ghost predicate CoveredBy(pattern: string, read: string) {
    || pattern == "*"
    || (exists directory :: pattern == directory + RECURSIVE && IsPrefix(directory + "/", read))
    || (pattern == read && forall directory :: pattern != directory + RECURSIVE)
  }

  ghost predicate Covered(patterns: seq<string>, read: string) {
    exists i :: 0 <= i < |patterns| && CoveredBy(patterns[i], read)
  }

  lemma MatchesIffCovered(pattern: string, read: string)
    ensures PatternMatches(pattern, read) <==> CoveredBy(pattern, read)
  {
    if IsRecursive(pattern) {
      assert pattern == Prefix(pattern) + RECURSIVE;
    }
    forall directory | pattern == directory + RECURSIVE ensures IsRecursive(pattern) && Prefix(pattern) == directory {
      assert pattern[|pattern| - 3..] == RECURSIVE && pattern[..|pattern| - 3] == directory;
    }
  }

  /** A list of patterns admits a path when one of them covers it. */
  lemma SomeMatchesIffCovered(patterns: seq<string>, path: string)
    ensures (exists i :: 0 <= i < |patterns| && PatternMatches(patterns[i], path)) <==> Covered(patterns, path)
  {
    hide PatternMatches, CoveredBy;
    forall i | 0 <= i < |patterns| ensures PatternMatches(patterns[i], path) <==> CoveredBy(patterns[i], path) {
      MatchesIffCovered(patterns[i], path);
    }
  }
}

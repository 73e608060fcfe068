// internal/inventory/exclude.go: the directory matcher that prunes the walk, and why it agrees with globmatch.
module ExcludePaths {
  import opened Text
  import opened Glob
  import GlobMatch

  function NormalExclude(p: string): string { GlobMatch.Strip(TrimSpace(p)) }

  method NormalizeExcludePattern(p: string) returns (q: string)
    ensures q == NormalExclude(p)
  {
    q := TrimSpace(p);
    while true
      invariant GlobMatch.Strip(q) == NormalExclude(p)
      decreases |q|
    {
      if HasSuffix(q, "/**") {
        q := q[..|q| - 3];
      } else if HasSuffix(q, "/") {
        q := q[..|q| - 1];
      } else {
        return;
      }
    }
  }

  /** The one extra expression registered so that a name matches at every depth, if there is one. */
  function Variant(p: string): string {
    if '/' !in p then "**/" + p else if "**/" <= p then p[3..] else ""
  }

  predicate PatternMatches(p: string, d: string) {
    p != "" && (Matches(p, d) || (Variant(p) != "" && Matches(Variant(p), d)))
  }

  predicate Excluded(patterns: seq<string>, d: string) {
    exists raw :: raw in patterns && PatternMatches(NormalExclude(raw), d)
  }

  predicate MultiGlobMatches(globs: seq<string>, d: string) { exists g :: g in globs && Matches(g, d) }

  method CompileExcludePaths(patterns: seq<string>) returns (r: GlobMatch.Compiled<seq<string>>)
    ensures r.Ok? <==> forall raw :: raw in patterns ==> InDialect(NormalExclude(raw))
    ensures r.Ok? ==> forall d :: MultiGlobMatches(r.value, d) <==> Excluded(patterns, d)
    ensures r.Ok? ==> (r.value == [] <==> forall raw :: raw in patterns ==> NormalExclude(raw) == "")
    ensures r.Malformed? ==> r.pattern in patterns && !InDialect(NormalExclude(r.pattern))
  {
    var globs := [];
    for k := 0 to |patterns|
      invariant forall raw :: raw in patterns[..k] ==> InDialect(NormalExclude(raw))
      invariant forall d :: MultiGlobMatches(globs, d) <==> Excluded(patterns[..k], d)
      invariant globs == [] <==> forall raw :: raw in patterns[..k] ==> NormalExclude(raw) == ""
    {
      ghost var before := globs;
      assert patterns[..k + 1] == patterns[..k] + [patterns[k]];
      var p := NormalizeExcludePattern(patterns[k]);
      if p == "" {
        assert InDialect(p);
        continue;
      }
      if !InDialect(p) {
        return GlobMatch.Malformed(patterns[k]);
      }
      globs := globs + [p];
      var variant := Variant(p);
      if variant != "" {
        assert InDialect(variant) by {
          assert forall c :: c in "**/" ==> c == '*' || c == '/';
          if '/' in p {
            assert forall c :: c in p[3..] ==> c in p;
          }
        }
        globs := globs + [variant];
      }
      forall d ensures MultiGlobMatches(globs, d) <==> MultiGlobMatches(before, d) || PatternMatches(p, d) {
        assert forall g :: g in globs <==> g in before || g == p || (variant != "" && g == variant);
      }
    }
    assert patterns[..|patterns|] == patterns;
    r := GlobMatch.Ok(globs);
  }

  /** `multiGlob.Match`. */
  method MatchMultiGlob(globs: seq<string>, d: string) returns (found: bool)
    ensures found == MultiGlobMatches(globs, d)
  {
    for i := 0 to |globs|
      invariant forall j :: 0 <= j < i ==> !Matches(globs[j], d)
    {
      if Matches(globs[i], d) {
        return true;
      }
    }
    return false;
  }

  // ---- The two compilers agree ----

  ghost predicate NoBackslash(patterns: seq<string>) { forall raw :: raw in patterns ==> '\\' !in raw }

  lemma NormalFormsAgree(raw: string)
    requires '\\' !in raw
    ensures NormalExclude(raw) == GlobMatch.Normal(raw)
  {
    assert GlobMatch.ToSlash(raw) == raw;
  }

  /** A directory is pruned by a pattern exactly when the pattern denotes it, up to its very end. */
  lemma PatternDenotes(p: string, d: string)
    requires p != "" && !HasSuffix(p, "/")
    ensures PatternMatches(p, d) <==> exists a :: GlobMatch.RunMatches(p, false, d, a, |d|)
  {
    var core := GlobMatch.Core(p);
    AnyDepthIsSuffix(core, d);
    assert "**/" <= p ==> p == "**/" + core;
    assert PatternMatches(p, d) <==> Matches(core, d) || (GlobMatch.Deep(p, false) && Matches("**/" + core, d));
    if Matches(core, d) {
      assert d[0..|d|] == d;
      assert GlobMatch.RunMatches(p, false, d, 0, |d|);
    }
    if GlobMatch.Deep(p, false) && Matches("**/" + core, d) {
      var i :| 0 <= i < |d| && d[i] == '/' && Matches(core, d[i + 1..]);
      assert d[i + 1..|d|] == d[i + 1..];
      assert GlobMatch.RunMatches(p, false, d, i + 1, |d|);
    }
    if a :| GlobMatch.RunMatches(p, false, d, a, |d|) {
      assert d[a..|d|] == d[a..];
      if a == 0 {
        assert d[0..] == d;
      } else {
        assert d[a - 1] == '/' && d[(a - 1) + 1..] == d[a..];
      }
    }
  }

  lemma RunWithin(p: string, t: string, a: int, i: int)
    requires 0 <= a <= i && Cut(t, i)
    ensures GlobMatch.RunMatches(p, false, t, a, i) <==> GlobMatch.RunMatches(p, false, t[..i], a, |t[..i]|)
  {
    assert t[..i][a..i] == t[a..i];
  }

  /** The path matcher selects a path exactly when the directory matcher excludes it or an ancestor of it. */
  lemma SelectedIsExcludedAncestor(patterns: seq<string>, p: string)
    requires NoBackslash(patterns)
    ensures GlobMatch.Selected(patterns, false, p) <==>
            GlobMatch.PathOf(p) != "" && exists i :: Cut(GlobMatch.PathOf(p), i) && Excluded(patterns, GlobMatch.PathOf(p)[..i])
  {
    var t := GlobMatch.PathOf(p);
    GlobMatch.SelectedDenotes(patterns, false, p);
    forall raw | raw in patterns && GlobMatch.Normal(raw) != ""
      ensures GlobMatch.Denotes(GlobMatch.Normal(raw), false, t) <==>
              exists i :: Cut(t, i) && PatternMatches(GlobMatch.Normal(raw), t[..i])
    {
      GlobMatch.StripLeavesNoSlash(TrimSpace(GlobMatch.ToSlash(raw)));
      DenotesIsPruned(GlobMatch.Normal(raw), t);
    }
    forall raw | raw in patterns ensures NormalExclude(raw) == GlobMatch.Normal(raw) {
      NormalFormsAgree(raw);
    }
  }

  lemma DenotesIsPruned(p: string, t: string)
    requires p != "" && !HasSuffix(p, "/")
    ensures GlobMatch.Denotes(p, false, t) <==> exists i :: Cut(t, i) && PatternMatches(p, t[..i])
  {
    if a, i :| GlobMatch.RunMatches(p, false, t, a, i) {
      PatternDenotes(p, t[..i]);
      RunWithin(p, t, a, i);
      assert Cut(t, i) && PatternMatches(p, t[..i]);
    }
    if i :| Cut(t, i) && PatternMatches(p, t[..i]) {
      PatternDenotes(p, t[..i]);
      var a :| GlobMatch.RunMatches(p, false, t[..i], a, |t[..i]|);
      RunWithin(p, t, a, i);
    }
  }

  /** Both compilers accept the same pattern lists. */
  lemma AcceptTheSame(patterns: seq<string>)
    requires NoBackslash(patterns)
    ensures (forall raw :: raw in patterns ==> InDialect(NormalExclude(raw))) <==>
            (forall raw :: raw in patterns ==> InDialect(GlobMatch.Normal(raw)))
  {
    forall raw | raw in patterns ensures NormalExclude(raw) == GlobMatch.Normal(raw) {
      NormalFormsAgree(raw);
    }
  }

  // ---- The walk ----

  datatype Tree = File | Dir(entries: seq<Entry>)
  datatype Entry = Entry(name: string, tree: Tree)

  /** File names hold at least one character and no separator. */
  predicate WellNamed(t: Tree) {
    t.File? || forall e :: e in t.entries ==> e.name != "" && '/' !in e.name && WellNamed(e.tree)
  }

  function Below(dir: string, name: string): string { if dir == "" then name else dir + "/" + name }

  predicate Holds(t: Tree, at: string, path: string) {
    match t
    case File => path == at
    case Dir(entries) => exists e :: e in entries && Holds(e.tree, Below(at, e.name), path)
  }

  /** What a walk visits when it does not enter the directories the matcher excludes. */
  predicate Kept(t: Tree, at: string, patterns: seq<string>, path: string) {
    match t
    case File => path == at
    case Dir(entries) =>
      (at == "" || !Excluded(patterns, at)) && exists e :: e in entries && Kept(e.tree, Below(at, e.name), patterns, path)
  }

  ghost predicate PrunedFrom(patterns: seq<string>, path: string, from: int) {
    exists i :: from <= i < |path| && 0 < i && path[i] == '/' && Excluded(patterns, path[..i])
  }

  lemma {:induction false} HeldPathsAreBelow(t: Tree, at: string, path: string)
    requires WellNamed(t) && Holds(t, at, path)
    ensures |at| <= |path| && path[..|at|] == at
    ensures t.Dir? ==> |at| < |path| && (at == "" || path[|at|] == '/')
  {
    if t.Dir? {
      var e :| e in t.entries && Holds(e.tree, Below(at, e.name), path);
      HeldPathsAreBelow(e.tree, Below(at, e.name), path);
      var b := Below(at, e.name);
      assert path[..|b|] == b;
      if at != "" {
        assert b[..|at|] == at && b[|at|] == '/';
        assert path[..|at|] == path[..|b|][..|at|];
        assert path[|at|] == path[..|b|][|at|];
      }
    }
  }

  lemma {:induction false} KeptFrom(t: Tree, at: string, patterns: seq<string>, path: string)
    requires WellNamed(t)
    ensures Kept(t, at, patterns, path) <==> Holds(t, at, path) && !(t.Dir? && PrunedFrom(patterns, path, |at|))
  {
    if t.Dir? {
      forall e | e in t.entries
        ensures Kept(e.tree, Below(at, e.name), patterns, path) <==>
                Holds(e.tree, Below(at, e.name), path) && !(e.tree.Dir? && PrunedFrom(patterns, path, |Below(at, e.name)|))
      {
        KeptFrom(e.tree, Below(at, e.name), patterns, path);
      }
      forall e | e in t.entries && Holds(e.tree, Below(at, e.name), path)
        ensures PrunedFrom(patterns, path, |at|) <==>
                (at != "" && Excluded(patterns, at)) || (e.tree.Dir? && PrunedFrom(patterns, path, |Below(at, e.name)|))
      {
        HeldPathsAreBelow(t, at, path);
        HeldPathsAreBelow(e.tree, Below(at, e.name), path);
      }
    }
  }

  /** A recursive walk that does not enter excluded directories keeps exactly the files with no excluded
      proper ancestor. */
  lemma WalkKeepsUnprunedFiles(t: Tree, patterns: seq<string>, path: string)
    requires t.Dir? && WellNamed(t)
    ensures Kept(t, "", patterns, path) <==>
            Holds(t, "", path) && !exists i :: 0 < i < |path| && path[i] == '/' && Excluded(patterns, path[..i])
  {
    KeptFrom(t, "", patterns, path);
  }

  lemma {:induction false} HeldPathsAreClean(t: Tree, at: string, path: string)
    requires WellNamed(t) && Holds(t, at, path)
    requires at != "" ==> at[0] != '/' && at[|at| - 1] != '/'
    requires t.Dir? || at != ""
    ensures path != "" && path[0] != '/' && path[|path| - 1] != '/'
  {
    if t.Dir? {
      var e :| e in t.entries && Holds(e.tree, Below(at, e.name), path);
      assert e.name[0] in e.name && e.name[|e.name| - 1] in e.name;
      HeldPathsAreClean(e.tree, Below(at, e.name), path);
    }
  }

  /** For every tree and every list of patterns: the path matcher selects a file exactly when the walk
      drops it, or the directory matcher excludes the file's own path. */
  lemma WalkMeetsPathMatcher(t: Tree, patterns: seq<string>, path: string)
    requires t.Dir? && WellNamed(t) && NoBackslash(patterns)
    requires Holds(t, "", path) && '\\' !in path
    ensures GlobMatch.Selected(patterns, false, path) <==> !Kept(t, "", patterns, path) || Excluded(patterns, path)
  {
    HeldPathsAreClean(t, "", path);
    GlobMatch.PathOfClean(path);
    SelectedIsExcludedAncestor(patterns, path);
    WalkKeepsUnprunedFiles(t, patterns, path);
    assert path[..|path|] == path;
    assert Cut(path, |path|);
    if i :| 0 < i < |path| && path[i] == '/' && Excluded(patterns, path[..i]) {
      assert Cut(path, i);
    }
  }
}

// internal/compare/direct.go, direct_multi.go: direct dependencies, from a pruned walk or from a commit's file list.
module DirectDeps {
  import opened Options
  import opened Paths

  /** Module or package name to whether it is direct. */
  type Deps = map<string, bool>

  predicate Known(d: Deps, k: string) { k in d }

  predicate Direct(d: Deps, k: string) { k in d && d[k] }

  // ---- The merge ----

  /** Pointwise join of absent, indirect and direct. */
  function Joined(a: Deps, b: Deps): Deps { map k | k in a.Keys + b.Keys :: Direct(a, k) || Direct(b, k) }

  ghost predicate Alike(a: Deps, b: Deps, k: string) { Known(a, k) == Known(b, k) && Direct(a, k) == Direct(b, k) }

  lemma SameDeps(a: Deps, b: Deps)
    requires forall k :: Alike(a, b, k)
    ensures a == b
  {
    assert forall k :: Alike(a, b, k) ==> Known(a, k) == Known(b, k) && Direct(a, k) == Direct(b, k);
    assert forall k :: k in a <==> Known(a, k);
    assert forall k :: k in b <==> Known(b, k);
    assert forall k :: k in a ==> a[k] == Direct(a, k);
    assert forall k :: k in b ==> b[k] == Direct(b, k);
  }

  lemma JoinedMeans(a: Deps, b: Deps, k: string)
    ensures Known(Joined(a, b), k) <==> Known(a, k) || Known(b, k)
    ensures Direct(Joined(a, b), k) <==> Direct(a, k) || Direct(b, k)
  {}

  /** The merge is commutative, associative and idempotent. */
  lemma JoinLaws(a: Deps, b: Deps, c: Deps)
    ensures Joined(a, b) == Joined(b, a)
    ensures Joined(Joined(a, b), c) == Joined(a, Joined(b, c))
    ensures Joined(a, a) == a
  {
    SameDeps(Joined(a, b), Joined(b, a));
    forall k ensures Alike(Joined(Joined(a, b), c), Joined(a, Joined(b, c)), k) {
      JoinedMeans(Joined(a, b), c, k);
      JoinedMeans(a, Joined(b, c), k);
    }
    SameDeps(Joined(Joined(a, b), c), Joined(a, Joined(b, c)));
    SameDeps(Joined(a, a), a);
  }

  class Collector {
    var deps: Deps

    constructor ()
      ensures deps == map["stdlib" := true, "go" := true]
    {
      deps := map["stdlib" := true, "go" := true];
    }

    /** `mergeDirectDependencies`, visiting `src` in any order. */
    method Merge(src: Deps)
      modifies this
      ensures deps == Joined(old(deps), src)
    {
      var left := src.Keys;
      while left != {}
        invariant left <= src.Keys
        invariant deps == Joined(old(deps), map k | k in src && k !in left :: src[k])
        decreases left
      {
        var k :| k in left;
        left := left - {k};
        if src[k] {
          deps := deps[k := true];
        } else if k !in deps {
          deps := deps[k := false];
        }
      }
      assert (map k | k in src && k !in left :: src[k]) == src;
    }
  }

  function MergeAll(base: Deps, sources: seq<Deps>): Deps {
    if sources == [] then base else Joined(MergeAll(base, sources[..|sources| - 1]), sources[|sources| - 1])
  }

  ghost predicate SomeKnow(sources: seq<Deps>, k: string) { exists m :: m in sources && Known(m, k) }

  ghost predicate SomeDirect(sources: seq<Deps>, k: string) { exists m :: m in sources && Direct(m, k) }

  /** What a fold of merges knows, whatever the order. */
  lemma {:induction false} MergeAllMeans(base: Deps, sources: seq<Deps>, k: string)
    ensures Known(MergeAll(base, sources), k) <==> Known(base, k) || SomeKnow(sources, k)
    ensures Direct(MergeAll(base, sources), k) <==> Direct(base, k) || SomeDirect(sources, k)
  {
    if sources != [] {
      var n := |sources| - 1;
      MergeAllMeans(base, sources[..n], k);
      JoinedMeans(MergeAll(base, sources[..n]), sources[n], k);
      assert sources == sources[..n] + [sources[n]];
      assert SomeKnow(sources, k) <==> SomeKnow(sources[..n], k) || Known(sources[n], k);
      assert SomeDirect(sources, k) <==> SomeDirect(sources[..n], k) || Direct(sources[n], k);
    }
  }

  /** Order and repetition of the sources do not matter. */
  lemma MergeAllBySet(base: Deps, a: seq<Deps>, b: seq<Deps>)
    requires forall m :: m in a <==> m in b
    ensures MergeAll(base, a) == MergeAll(base, b)
  {
    forall k ensures Alike(MergeAll(base, a), MergeAll(base, b), k) {
      MergeAllMeans(base, a, k);
      MergeAllMeans(base, b, k);
    }
    SameDeps(MergeAll(base, a), MergeAll(base, b));
  }

  lemma {:induction false} MergeAllAppend(base: Deps, a: seq<Deps>, b: seq<Deps>)
    ensures MergeAll(base, a + b) == MergeAll(MergeAll(base, a), b)
  {
    if b == [] {
      assert a + b == a;
    } else {
      assert (a + b)[..|a + b| - 1] == a + b[..|b| - 1];
      MergeAllAppend(base, a, b[..|b| - 1]);
    }
  }

  // ---- Files ----

  /** `content` is None for a file that cannot be read. */
  datatype Tree = File(content: Option<string>) | Dir(entries: seq<Entry>)
  datatype Entry = Entry(name: string, tree: Tree)
  datatype Listed = Listed(path: seq<string>, content: Option<string>)

  predicate ProperName(s: string) { s != "" && NoSlash(s) && s != "." && s != ".." }

  ghost predicate WellNamed(t: Tree) {
    t.Dir? ==> forall e :: e in t.entries ==> ProperName(e.name) && WellNamed(e.tree)
  }

  /** The files a walk visits that does not enter directories named in `skip`. */
  function Visited(t: Tree, at: seq<string>, skip: set<string>): seq<Listed>
    decreases t, if t.Dir? then |t.entries| + 1 else 0
  {
    match t
    case File(content) => [Listed(at, content)]
    case Dir(entries) => VisitedIn(t, at, skip, |entries|)
  }

  function VisitedIn(t: Tree, at: seq<string>, skip: set<string>, n: nat): seq<Listed>
    requires t.Dir? && n <= |t.entries|
    decreases t, n
  {
    if n == 0 then []
    else
      var e := t.entries[n - 1];
      VisitedIn(t, at, skip, n - 1)
      + if e.tree.Dir? && e.name in skip then [] else Visited(e.tree, at + [e.name], skip)
  }

  predicate OccursAt(s: string, sub: string, i: int) { 0 <= i <= |s| - |sub| && s[i..i + |sub|] == sub }

  predicate Contains(s: string, sub: string) { exists i :: 0 <= i <= |s| && OccursAt(s, sub, i) }

  const VENDOR_DIRS: set<string> := {"vendor", "node_modules", ".git"}
  const GO_SKIPS: set<string> := {".git", "vendor"}
  const MANIFESTS: set<string> := {"package.json", "Cargo.toml", "pyproject.toml", "requirements.txt"}

  predicate IsVendoredManifestPath(p: string) {
    exists seg :: seg in Split(CleanOf(p).Show()) && seg in VENDOR_DIRS
  }

  datatype Pass = GoPass | ManifestPass

  function Skips(pass: Pass): set<string> { if pass.GoPass? then GO_SKIPS else VENDOR_DIRS }

  /** The per-file test both collectors apply. */
  predicate Wants(pass: Pass, p: string) {
    match pass
    case GoPass => Base(p) == "go.mod" && !Contains(p, "/vendor/")
    case ManifestPass => Base(p) in MANIFESTS && !IsVendoredManifestPath(p)
  }

  /** What a file adds; `parse` stands for the per-manifest parsers. */
  function Adds(pass: Pass, parse: (string, string) -> Deps, f: Listed): seq<Deps> {
    var p := Join(f.path);
    if Wants(pass, p) && f.content.Some? then [parse(Base(p), f.content.value)] else []
  }

  /** What is called for every file that a walk or an enumeration comes across. */
  type Visitor = Listed -> seq<Deps>

  function AddsOf(pass: Pass, parse: (string, string) -> Deps): Visitor { (f: Listed) => Adds(pass, parse, f) }

  function AllAdds(visit: Visitor, files: seq<Listed>): seq<Deps> {
    if files == [] then [] else AllAdds(visit, files[..|files| - 1]) + visit(files[|files| - 1])
  }

  // ---- The collectors ----

  method CollectFile(c: Collector, visit: Visitor, f: Listed)
    modifies c
    ensures Gathered(c.deps, visit, old(c.deps), [f])
  {
    var adds := visit(f);
    assert AllAdds(visit, [f]) == AllAdds(visit, [f][..0]) + adds == adds;
    for i := 0 to |adds|
      invariant c.deps == MergeAll(old(c.deps), adds[..i])
    {
      c.Merge(adds[i]);
      assert adds[..i + 1][..i] == adds[..i];
    }
    assert adds[..|adds|] == adds;
  }

  /** Merging what the files visited so far add gave `deps`. */
  ghost predicate Gathered(deps: Deps, visit: Visitor, base: Deps, files: seq<Listed>) {
    deps == MergeAll(base, AllAdds(visit, files))
  }

  /** The walk amounts to merging, in visiting order, what each visited file adds. */
  method Walk(c: Collector, visit: Visitor, t: Tree, at: seq<string>, skip: set<string>)
    modifies c
    ensures Gathered(c.deps, visit, old(c.deps), Visited(t, at, skip))
    decreases t, 1
  {
    if t.File? {
      CollectFile(c, visit, Listed(at, t.content));
    } else {
      WalkEntries(c, visit, t, at, skip);
    }
  }

  method WalkEntries(c: Collector, visit: Visitor, t: Tree, at: seq<string>, skip: set<string>)
    requires t.Dir?
    modifies c
    ensures Gathered(c.deps, visit, old(c.deps), VisitedIn(t, at, skip, |t.entries|))
    decreases t, 0
  {
    ghost var base := c.deps;
    for n := 0 to |t.entries|
      invariant Gathered(c.deps, visit, base, VisitedIn(t, at, skip, n))
    {
      var e := t.entries[n];
      ghost var before := VisitedIn(t, at, skip, n);
      if e.tree.Dir? && e.name in skip {
        assert VisitedIn(t, at, skip, n + 1) == before + [] == before;
        continue;
      }
      ghost var deps := c.deps;
      Walk(c, visit, e.tree, at + [e.name], skip);
      GatherMore(c.deps, visit, base, before, deps, Visited(e.tree, at + [e.name], skip));
    }
  }

  lemma GatherMore(deps': Deps, visit: Visitor, base: Deps, before: seq<Listed>, deps: Deps, more: seq<Listed>)
    requires Gathered(deps, visit, base, before) && Gathered(deps', visit, deps, more)
    ensures Gathered(deps', visit, base, before + more)
  {
    AllAddsAppend(visit, before, more);
    MergeAllAppend(base, AllAdds(visit, before), AllAdds(visit, more));
  }

  lemma {:induction false} AllAddsAppend(visit: Visitor, a: seq<Listed>, b: seq<Listed>)
    ensures AllAdds(visit, a + b) == AllAdds(visit, a) + AllAdds(visit, b)
  {
    if b == [] {
      assert a + b == a;
    } else {
      assert (a + b)[..|a + b| - 1] == a + b[..|b| - 1];
      AllAddsAppend(visit, a, b[..|b| - 1]);
    }
  }

  method Enumerate(c: Collector, visit: Visitor, files: seq<Listed>)
    modifies c
    ensures Gathered(c.deps, visit, old(c.deps), files)
  {
    ghost var base := c.deps;
    for i := 0 to |files|
      invariant Gathered(c.deps, visit, base, files[..i])
    {
      ghost var deps := c.deps;
      CollectFile(c, visit, files[i]);
      GatherMore(c.deps, visit, base, files[..i], deps, [files[i]]);
      assert files[..i + 1] == files[..i] + [files[i]];
    }
    assert files[..|files|] == files;
  }

  function Start(): Deps { map["stdlib" := true, "go" := true] }

  function FromWorkspace(parse: (string, string) -> Deps, t: Tree): Deps {
    MergeAll(MergeAll(Start(), AllAdds(AddsOf(GoPass, parse), Visited(t, [], GO_SKIPS))),
             AllAdds(AddsOf(ManifestPass, parse), Visited(t, [], VENDOR_DIRS)))
  }

  function FromCommit(parse: (string, string) -> Deps, files: seq<Listed>): Deps {
    MergeAll(MergeAll(Start(), AllAdds(AddsOf(GoPass, parse), files)), AllAdds(AddsOf(ManifestPass, parse), files))
  }

  method CollectDirectDependenciesFromWorkspace(parse: (string, string) -> Deps, t: Tree) returns (deps: Deps)
    ensures deps == FromWorkspace(parse, t)
  {
    var c := new Collector();
    Walk(c, AddsOf(GoPass, parse), t, [], GO_SKIPS);
    Walk(c, AddsOf(ManifestPass, parse), t, [], VENDOR_DIRS);
    deps := c.deps;
  }

  method CollectDirectDependenciesFromCommit(parse: (string, string) -> Deps, files: seq<Listed>) returns (deps: Deps)
    ensures deps == FromCommit(parse, files)
  {
    var c := new Collector();
    Enumerate(c, AddsOf(GoPass, parse), files);
    Enumerate(c, AddsOf(ManifestPass, parse), files);
    deps := c.deps;
  }

  // ---- Paths of listed files, as strings ----

  ghost predicate Proper(path: seq<string>) { path != [] && forall i :: 0 <= i < |path| ==> ProperName(path[i]) }

  lemma ProperIsNormal(path: seq<string>)
    requires Proper(path)
    ensures Clean(false, path).Normal()
    ensures Split(Join(path)) == path && !Rooted(Join(path))
  {
    assert Clean(false, path).Show() == Join(path);
    SplitShow(Clean(false, path));
    assert [] + path == path;
  }

  lemma {:induction false} JoinEndsWithLast(path: seq<string>)
    requires Proper(path)
    ensures Join(path) != "" && Join(path)[|Join(path)| - 1] != '/'
  {
    var last := path[|path| - 1];
    assert last[|last| - 1] in last;
    if |path| > 1 {
      JoinEndsWithLast(path[1..]);
    }
  }

  lemma BaseIsLast(path: seq<string>)
    requires Proper(path)
    ensures Base(Join(path)) == path[|path| - 1]
  {
    ProperIsNormal(path);
    JoinEndsWithLast(path);
  }

  lemma VendoredMeans(path: seq<string>)
    requires Proper(path)
    ensures IsVendoredManifestPath(Join(path)) <==> exists d :: d in path && d in VENDOR_DIRS
  {
    ProperIsNormal(path);
    CleanNormal(Clean(false, path));
  }

  lemma SegmentFirst(segs: seq<string>)
    requires Proper(segs)
    ensures "vendor/" <= Join(segs) <==> |segs| > 1 && segs[0] == "vendor"
  {
    if |segs| == 1 {
      assert "vendor/"[6] == '/' && forall k :: 0 <= k < |segs[0]| ==> segs[0][k] != '/';
    } else {
      VendorFirst(segs[0], Join(segs[1..]));
    }
  }

  lemma VendorFirst(a: string, rest: string)
    requires NoSlash(a)
    ensures "vendor/" <= a + "/" + rest <==> a == "vendor"
  {
    var s := a + "/" + rest;
    assert s[|a|] == '/';
    assert forall k :: 0 <= k < |a| ==> s[k] == a[k] && a[k] in a;
    if "vendor/" <= s {
      assert s[6] == "vendor/"[6] == '/' && forall k :: 0 <= k < 6 ==> s[k] == "vendor/"[k] != '/';
      assert |a| == 6;
      assert a == s[..6] == "vendor/"[..6];
    }
  }

  /** The substring test looks for a directory named vendor below the top level. */
  lemma {:induction false} SlashVendorMeans(segs: seq<string>)
    requires Proper(segs)
    ensures Contains(Join(segs), "/vendor/") <==> exists i :: 0 < i < |segs| - 1 && segs[i] == "vendor"
  {
    var s, n := Join(segs), |segs[0]|;
    assert forall k :: 0 <= k < n ==> s[k] == segs[0][k] && segs[0][k] in segs[0];
    assert "/vendor/"[0] == '/';
    if |segs| == 1 {
      forall i | 0 <= i <= |s| ensures !OccursAt(s, "/vendor/", i) {
        if i + 8 <= |s| {
          assert s[i..i + 8][0] == s[i];
        }
      }
    } else {
      var rest := Join(segs[1..]);
      SegmentFirst(segs[1..]);
      SlashVendorMeans(segs[1..]);
      assert s == segs[0] + "/" + rest;
      OccursInRest(segs[0], rest);
      if i :| 0 < i < |segs| - 1 && segs[i] == "vendor" {
        assert i > 1 ==> segs[1..][i - 1] == "vendor";
      }
      if i :| 0 < i < |segs[1..]| - 1 && segs[1..][i] == "vendor" {
        assert segs[i + 1] == "vendor";
      }
    }
  }

  lemma OccursInRest(a: string, rest: string)
    requires NoSlash(a)
    ensures Contains(a + "/" + rest, "/vendor/") <==> "vendor/" <= rest || Contains(rest, "/vendor/")
  {
    var s := a + "/" + rest;
    if i :| 0 <= i <= |s| && OccursAt(s, "/vendor/", i) {
      OccurrenceFallsInRest(a, rest, i);
    }
    RestOccursInWhole(a, rest);
  }

  lemma OccurrenceFallsInRest(a: string, rest: string, i: nat)
    requires NoSlash(a) && OccursAt(a + "/" + rest, "/vendor/", i)
    ensures "vendor/" <= rest || Contains(rest, "/vendor/")
  {
    var s, n := a + "/" + rest, |a|;
    assert forall k :: 0 <= k < n ==> s[k] == a[k] && a[k] in a;
    assert s[i] == s[i..i + 8][0] == '/';
    if i == n {
      assert rest[..7] == s[i..i + 8][1..] == "vendor/";
    } else {
      assert rest[i - n - 1..i - n + 7] == s[i..i + 8];
      assert OccursAt(rest, "/vendor/", i - n - 1);
    }
  }

  lemma RestOccursInWhole(a: string, rest: string)
    ensures "vendor/" <= rest || Contains(rest, "/vendor/") ==> Contains(a + "/" + rest, "/vendor/")
  {
    var s, n := a + "/" + rest, |a|;
    if "vendor/" <= rest {
      assert s[n..n + 8] == [s[n]] + rest[..7] == "/vendor/";
      assert OccursAt(s, "/vendor/", n);
    }
    if i :| 0 <= i <= |rest| && OccursAt(rest, "/vendor/", i) {
      assert s[n + 1 + i..n + 1 + i + 8] == rest[i..i + 8];
      assert OccursAt(s, "/vendor/", n + 1 + i);
    }
  }

  // ---- The pruned walk and the flat list agree ----

  /** The directories on the way to a file below `at`. */
  function DirsTo(path: seq<string>, at: nat): seq<string>
    requires at < |path|
  {
    path[at..|path| - 1]
  }

  ghost predicate Enters(dirs: seq<string>, skip: set<string>) { forall d :: d in dirs ==> d !in skip }

  ghost predicate InEntry(e: Entry, at: seq<string>, skip: set<string>, f: Listed) {
    !(e.tree.Dir? && e.name in skip) && f in Visited(e.tree, at + [e.name], skip)
  }

  lemma {:induction false} VisitedInMeans(t: Tree, at: seq<string>, skip: set<string>, n: nat, f: Listed)
    requires t.Dir? && n <= |t.entries|
    ensures f in VisitedIn(t, at, skip, n) <==> exists j :: 0 <= j < n && InEntry(t.entries[j], at, skip, f)
    decreases n
  {
    if n > 0 {
      VisitedInMeans(t, at, skip, n - 1, f);
    }
  }

  lemma {:induction false} VisitedIsBelow(t: Tree, at: seq<string>, f: Listed)
    requires f in Visited(t, at, {}) && WellNamed(t)
    ensures at <= f.path && (t.File? ==> f.path == at) && (t.Dir? ==> |at| < |f.path|)
    ensures forall i :: |at| <= i < |f.path| ==> ProperName(f.path[i])
    decreases t
  {
    if t.Dir? {
      VisitedInMeans(t, at, {}, |t.entries|, f);
      var j :| 0 <= j < |t.entries| && InEntry(t.entries[j], at, {}, f);
      var e := t.entries[j];
      assert e in t.entries;
      VisitedIsBelow(e.tree, at + [e.name], f);
      assert f.path[|at|] == (at + [e.name])[|at|];
      assert at <= at + [e.name];
    }
  }

  /** A walk visits a file exactly when it enters every directory on the way. */
  lemma {:induction false} VisitedMeans(t: Tree, at: seq<string>, skip: set<string>, f: Listed)
    requires t.Dir? && WellNamed(t)
    ensures f in Visited(t, at, skip) <==>
            f in Visited(t, at, {}) && |at| < |f.path| && Enters(DirsTo(f.path, |at|), skip)
    decreases t
  {
    VisitedInMeans(t, at, skip, |t.entries|, f);
    VisitedInMeans(t, at, {}, |t.entries|, f);
    if f in Visited(t, at, {}) {
      VisitedIsBelow(t, at, f);
    }
    forall j | 0 <= j < |t.entries|
      ensures InEntry(t.entries[j], at, skip, f) <==>
              InEntry(t.entries[j], at, {}, f) && |at| < |f.path| && Enters(DirsTo(f.path, |at|), skip)
    {
      EntryMeans(t.entries[j], at, skip, f);
      if t.entries[j].tree.Dir? {
        assert t.entries[j] in t.entries;
        VisitedMeans(t.entries[j].tree, at + [t.entries[j].name], skip, f);
      }
    }
  }

  lemma EntryMeans(e: Entry, at: seq<string>, skip: set<string>, f: Listed)
    ensures e.tree.File? ==> (InEntry(e, at, skip, f) <==> InEntry(e, at, {}, f))
    ensures e.tree.File? && InEntry(e, at, {}, f) ==> |f.path| == |at| + 1 && Enters(DirsTo(f.path, |at|), skip)
    ensures e.tree.Dir? && InEntry(e, at, {}, f) && WellNamed(e.tree) ==>
              |at| + 1 < |f.path| && DirsTo(f.path, |at|) == [e.name] + DirsTo(f.path, |at| + 1)
              && (Enters(DirsTo(f.path, |at|), skip) <==> e.name !in skip && Enters(DirsTo(f.path, |at| + 1), skip))
  {
    if e.tree.Dir? && InEntry(e, at, {}, f) && WellNamed(e.tree) {
      VisitedIsBelow(e.tree, at + [e.name], f);
      assert f.path[|at|] == (at + [e.name])[|at|] == e.name;
      var a, b := DirsTo(f.path, |at|), DirsTo(f.path, |at| + 1);
      assert a == [e.name] + b;
      assert forall d :: d in a <==> d == e.name || d in b;
    }
  }

  lemma {:induction false} AddsAreThere(visit: Visitor, files: seq<Listed>, i: nat, m: Deps)
    requires i < |files| && m in visit(files[i])
    ensures m in AllAdds(visit, files)
  {
    if i < |files| - 1 {
      AddsAreThere(visit, files[..|files| - 1], i, m);
    }
  }

  lemma {:induction false} AddsComeFrom(visit: Visitor, files: seq<Listed>, m: Deps) returns (i: nat)
    requires m in AllAdds(visit, files)
    ensures i < |files| && m in visit(files[i])
  {
    i := |files| - 1;
    if m !in visit(files[i]) {
      i := AddsComeFrom(visit, files[..i], m);
    }
  }

  lemma AddsCarryOver(pass: Pass, parse: (string, string) -> Deps, files: seq<Listed>, files': seq<Listed>, m: Deps)
    requires forall f :: f in files && Reads(pass, f) ==> f in files'
    requires m in AllAdds(AddsOf(pass, parse), files)
    ensures m in AllAdds(AddsOf(pass, parse), files')
  {
    var i := AddsComeFrom(AddsOf(pass, parse), files, m);
    assert Reads(pass, files[i]);
    var j :| 0 <= j < |files'| && files'[j] == files[i];
    AddsAreThere(AddsOf(pass, parse), files', j, m);
  }

  /** The files of a tree, as a commit lists them: all of them, in any order. */
  ghost predicate Lists(files: seq<Listed>, t: Tree) { forall f :: f in files <==> f in Visited(t, [], {}) }

  /** Read by a pass: the pass wants the file, and the file can be read. */
  predicate Reads(pass: Pass, f: Listed) { Wants(pass, Join(f.path)) && f.content.Some? }

  /** Passes that read the same files through the walk and through the list merge to the same result. */
  lemma SameReadsSameDeps(pass: Pass, parse: (string, string) -> Deps, base: Deps, t: Tree, files: seq<Listed>)
    requires Lists(files, t)
    requires forall f :: f in files && Reads(pass, f) <==> f in Visited(t, [], Skips(pass)) && Reads(pass, f)
    ensures MergeAll(base, AllAdds(AddsOf(pass, parse), Visited(t, [], Skips(pass)))) == MergeAll(base, AllAdds(AddsOf(pass, parse), files))
  {
    var walked := Visited(t, [], Skips(pass));
    forall m ensures m in AllAdds(AddsOf(pass, parse), walked) <==> m in AllAdds(AddsOf(pass, parse), files) {
      if m in AllAdds(AddsOf(pass, parse), walked) {
        AddsCarryOver(pass, parse, walked, files, m);
      }
      if m in AllAdds(AddsOf(pass, parse), files) {
        AddsCarryOver(pass, parse, files, walked, m);
      }
    }
    MergeAllBySet(base, AllAdds(AddsOf(pass, parse), walked), AllAdds(AddsOf(pass, parse), files));
  }

  /** For non-Go manifests the pruned walk reads exactly what the filtered list does, for every tree. */
  lemma ManifestPassesReadTheSame(t: Tree, files: seq<Listed>, f: Listed)
    requires t.Dir? && WellNamed(t) && Lists(files, t)
    ensures f in files && Reads(ManifestPass, f) <==> f in Visited(t, [], VENDOR_DIRS) && Reads(ManifestPass, f)
  {
    VisitedMeans(t, [], VENDOR_DIRS, f);
    if f in Visited(t, [], {}) {
      VisitedIsBelow(t, [], f);
      VendoredMeans(f.path);
      assert forall d :: d in DirsTo(f.path, 0) ==> d in f.path;
    }
  }

  /** A Go module file the two Go passes treat differently: below a .git directory or a top-level vendor
      directory, with no directory named vendor further down. */
  ghost predicate Contested(f: Listed) {
    f.content.Some? && |f.path| > 1 && f.path[|f.path| - 1] == "go.mod"
    && (".git" in DirsTo(f.path, 0) || f.path[0] == "vendor")
    && forall i :: 0 < i < |f.path| - 1 ==> f.path[i] != "vendor"
  }

  /** The walk and the list read the same Go module files exactly when none is contested. */
  lemma GoPassesReadTheSame(t: Tree, files: seq<Listed>)
    requires t.Dir? && WellNamed(t) && Lists(files, t)
    ensures (forall f :: f in files && Reads(GoPass, f) <==> f in Visited(t, [], GO_SKIPS) && Reads(GoPass, f))
            <==> forall f :: f in files ==> !Contested(f)
  {
    forall f | f in files
      ensures Reads(GoPass, f) && f !in Visited(t, [], GO_SKIPS) <==> Contested(f)
    {
      ReadOnlyByCommit(t, files, f);
    }
    forall f ensures f in Visited(t, [], GO_SKIPS) ==> f in files {
      VisitedMeans(t, [], GO_SKIPS, f);
    }
  }

  lemma ContestedMeans(f: Listed)
    requires f.path != []
    ensures Contested(f) <==>
            f.content.Some? && f.path[|f.path| - 1] == "go.mod" && !Enters(DirsTo(f.path, 0), GO_SKIPS)
            && !exists i :: 0 < i < |f.path| - 1 && f.path[i] == "vendor"
  {
    var dirs := DirsTo(f.path, 0);
    assert |dirs| > 0 ==> dirs[0] in dirs && dirs[0] == f.path[0];
    if "vendor" in dirs {
      var i :| 0 <= i < |dirs| && dirs[i] == "vendor";
      assert f.path[i] == "vendor";
    }
  }

  /** For every tree, every parser and every order of the list: the manifests give the same map, and
      without contested Go module files so does the whole collection. */
  lemma WorkspaceMeetsCommit(parse: (string, string) -> Deps, t: Tree, files: seq<Listed>, base: Deps)
    requires t.Dir? && WellNamed(t) && Lists(files, t)
    ensures MergeAll(base, AllAdds(AddsOf(ManifestPass, parse), Visited(t, [], VENDOR_DIRS))) == MergeAll(base, AllAdds(AddsOf(ManifestPass, parse), files))
    ensures (forall f :: f in files ==> !Contested(f)) ==> FromWorkspace(parse, t) == FromCommit(parse, files)
  {
    forall f ensures f in files && Reads(ManifestPass, f) <==> f in Visited(t, [], VENDOR_DIRS) && Reads(ManifestPass, f) {
      ManifestPassesReadTheSame(t, files, f);
    }
    SameReadsSameDeps(ManifestPass, parse, base, t, files);
    if forall f :: f in files ==> !Contested(f) {
      GoPassesReadTheSame(t, files);
      SameReadsSameDeps(GoPass, parse, Start(), t, files);
      SameReadsSameDeps(ManifestPass, parse, MergeAll(Start(), AllAdds(AddsOf(GoPass, parse), files)), t, files);
    }
  }

  // ---- Which files are read, and what is collected from them ----

  /** The file of the tree under a path. */
  ghost predicate FileAt(t: Tree, path: seq<string>, content: Option<string>)
    decreases |path|
  {
    match t
    case File(c) => path == [] && c == content
    case Dir(entries) => path != [] && exists e :: e in entries && e.name == path[0] && FileAt(e.tree, path[1..], content)
  }

  /** A walk that skips nothing visits exactly the files of the tree. */
  lemma {:induction false} VisitedIsFiles(t: Tree, at: seq<string>, path: seq<string>, content: Option<string>)
    ensures Listed(at + path, content) in Visited(t, at, {}) <==> FileAt(t, path, content)
    decreases |path|
  {
    var f := Listed(at + path, content);
    if t.File? {
      assert path == [] ==> at + path == at;
    } else {
      VisitedInMeans(t, at, {}, |t.entries|, f);
      forall e | e in t.entries ensures InEntry(e, at, {}, f) <==> path != [] && e.name == path[0] && FileAt(e.tree, path[1..], content) {
        EntryHas(e, at, path, content);
      }
      assert forall j :: 0 <= j < |t.entries| ==> t.entries[j] in t.entries;
    }
  }

  lemma {:induction false} VisitedPrefix(t: Tree, at: seq<string>, f: Listed)
    requires f in Visited(t, at, {})
    ensures at <= f.path
    decreases t
  {
    if t.Dir? {
      VisitedInMeans(t, at, {}, |t.entries|, f);
      var j :| 0 <= j < |t.entries| && InEntry(t.entries[j], at, {}, f);
      VisitedPrefix(t.entries[j].tree, at + [t.entries[j].name], f);
      assert at <= at + [t.entries[j].name];
    }
  }

  lemma {:induction false} EntryHas(e: Entry, at: seq<string>, path: seq<string>, content: Option<string>)
    ensures InEntry(e, at, {}, Listed(at + path, content)) <==> path != [] && e.name == path[0] && FileAt(e.tree, path[1..], content)
    decreases |path|, 0
  {
    var f := Listed(at + path, content);
    if f in Visited(e.tree, at + [e.name], {}) {
      VisitedPrefix(e.tree, at + [e.name], f);
      assert (at + path)[|at|] == e.name;
    }
    if path != [] && e.name == path[0] {
      assert at + path == (at + [e.name]) + path[1..];
      VisitedIsFiles(e.tree, at + [e.name], path[1..], content);
    }
  }

  /** A manifest of the project itself: no part of its path is a vendor directory. */
  predicate ProjectManifest(path: seq<string>) {
    path != []
    && (path[|path| - 1] == "package.json" || path[|path| - 1] == "Cargo.toml"
        || path[|path| - 1] == "pyproject.toml" || path[|path| - 1] == "requirements.txt")
    && "vendor" !in path && "node_modules" !in path && ".git" !in path
  }

  predicate VendorDir(d: string) { d == "vendor" || d == "node_modules" || d == ".git" }

  lemma VendorDirs(d: string)
    ensures d in VENDOR_DIRS <==> VendorDir(d)
    ensures d in GO_SKIPS <==> d == ".git" || d == "vendor"
  {}

  lemma NoVendorDir(path: seq<string>)
    ensures (exists d :: d in path && d in VENDOR_DIRS) <==> "vendor" in path || "node_modules" in path || ".git" in path
  {
    forall d ensures d in VENDOR_DIRS <==> VendorDir(d) { VendorDirs(d); }
  }

  lemma WantsManifest(path: seq<string>)
    requires Proper(path)
    ensures Wants(ManifestPass, Join(path)) <==> ProjectManifest(path)
  {
    BaseIsLast(path);
    VendoredMeans(path);
    NoVendorDir(path);
  }

  lemma WantsModule(path: seq<string>)
    requires Proper(path)
    ensures Wants(GoPass, Join(path)) <==>
            path[|path| - 1] == "go.mod" && forall i :: 0 < i < |path| - 1 ==> path[i] != "vendor"
  {
    BaseIsLast(path);
    SlashVendorMeans(path);
  }

  /** The files that the workspace walks read: Go modules without `.git` or `vendor` above them, and manifests. */
  predicate ReadInWorkspace(f: Listed) {
    f.content.Some? && f.path != []
    && (ProjectManifest(f.path)
        || (f.path[|f.path| - 1] == "go.mod"
            && forall i :: 0 <= i < |f.path| - 1 ==> f.path[i] != ".git" && f.path[i] != "vendor"))
  }

  /** The files that the enumerations of a commit read: for Go modules only a `vendor` below the top counts. */
  predicate ReadInCommit(f: Listed) {
    f.content.Some? && f.path != []
    && (ProjectManifest(f.path)
        || (f.path[|f.path| - 1] == "go.mod" && forall i :: 0 < i < |f.path| - 1 ==> f.path[i] != "vendor"))
  }

  /** The workspace walk enters every directory on the way to the file. */
  lemma WalksTo(t: Tree, f: Listed, skip: set<string>)
    requires t.Dir? && WellNamed(t)
    ensures f in Visited(t, [], skip) <==>
            FileAt(t, f.path, f.content) && f.path != [] && forall i :: 0 <= i < |f.path| - 1 ==> f.path[i] !in skip
    ensures f in Visited(t, [], skip) ==> Proper(f.path)
  {
    VisitedIsFiles(t, [], f.path, f.content);
    assert [] + f.path == f.path;
    VisitedMeans(t, [], skip, f);
    if f in Visited(t, [], {}) {
      VisitedIsBelow(t, [], f);
      var dirs := DirsTo(f.path, 0);
      assert forall i :: 0 <= i < |f.path| - 1 ==> dirs[i] == f.path[i] && dirs[i] in dirs;
    }
  }

  lemma WalkReadsModule(t: Tree, f: Listed)
    requires t.Dir? && WellNamed(t)
    ensures f in Visited(t, [], GO_SKIPS) && Reads(GoPass, f) <==>
            FileAt(t, f.path, f.content) && f.content.Some? && f.path != [] && f.path[|f.path| - 1] == "go.mod"
            && forall i :: 0 <= i < |f.path| - 1 ==> f.path[i] != ".git" && f.path[i] != "vendor"
  {
    WalksTo(t, f, GO_SKIPS);
    forall d ensures d in GO_SKIPS <==> d == ".git" || d == "vendor" { VendorDirs(d); }
    if f in Visited(t, [], GO_SKIPS) {
      WantsModule(f.path);
    }
  }

  lemma WalkReadsManifest(t: Tree, f: Listed)
    requires t.Dir? && WellNamed(t)
    ensures f in Visited(t, [], VENDOR_DIRS) && Reads(ManifestPass, f) <==>
            FileAt(t, f.path, f.content) && f.content.Some? && ProjectManifest(f.path)
  {
    WalksTo(t, f, VENDOR_DIRS);
    WalksTo(t, f, {});
    if FileAt(t, f.path, f.content) && f.path != [] {
      WantsManifest(f.path);
      NoVendorDir(f.path);
    }
  }

  ghost predicate ReadByWalk(t: Tree, f: Listed) {
    (f in Visited(t, [], GO_SKIPS) && Reads(GoPass, f)) || (f in Visited(t, [], VENDOR_DIRS) && Reads(ManifestPass, f))
  }

  lemma WalkReads(t: Tree, f: Listed)
    requires t.Dir? && WellNamed(t)
    ensures ReadByWalk(t, f) <==> FileAt(t, f.path, f.content) && ReadInWorkspace(f)
  {
    WalkReadsModule(t, f);
    WalkReadsManifest(t, f);
  }

  ghost predicate WalkTells(parse: (string, string) -> Deps, t: Tree, k: string) {
    exists f :: ReadByWalk(t, f) && Known(Told(parse, f), k)
  }

  ghost predicate WalkTellsDirect(parse: (string, string) -> Deps, t: Tree, k: string) {
    exists f :: ReadByWalk(t, f) && Direct(Told(parse, f), k)
  }

  lemma PassesTell(parse: (string, string) -> Deps, t: Tree, k: string)
    ensures Tells(GoPass, parse, Visited(t, [], GO_SKIPS), k) || Tells(ManifestPass, parse, Visited(t, [], VENDOR_DIRS), k)
            <==> WalkTells(parse, t, k)
    ensures TellsDirect(GoPass, parse, Visited(t, [], GO_SKIPS), k) || TellsDirect(ManifestPass, parse, Visited(t, [], VENDOR_DIRS), k)
            <==> WalkTellsDirect(parse, t, k)
  {}

  lemma WorkspaceHoldsWalked(parse: (string, string) -> Deps, t: Tree, k: string)
    ensures var r := FromWorkspace(parse, t);
            (Known(r, k) <==> Known(Start(), k) || WalkTells(parse, t, k))
            && (Direct(r, k) <==> Direct(Start(), k) || WalkTellsDirect(parse, t, k))
  {
    var modules, manifests := Visited(t, [], GO_SKIPS), Visited(t, [], VENDOR_DIRS);
    PassKnows(GoPass, parse, Start(), modules, k);
    PassKnows(ManifestPass, parse, MergeAll(Start(), AllAdds(AddsOf(GoPass, parse), modules)), manifests, k);
    PassesTell(parse, t, k);
  }

  /** What the workspace collection holds: the two names of the standard library, and what the files it reads
      tell, direct as soon as one of them says so. */
  lemma WorkspaceHolds(parse: (string, string) -> Deps, t: Tree, k: string)
    requires t.Dir? && WellNamed(t)
    ensures var r := FromWorkspace(parse, t);
            (Known(r, k) <==>
              k == "stdlib" || k == "go"
              || exists f: Listed :: FileAt(t, f.path, f.content) && ReadInWorkspace(f) && Known(Told(parse, f), k))
            && (Direct(r, k) <==>
                  k == "stdlib" || k == "go"
                  || exists f: Listed :: FileAt(t, f.path, f.content) && ReadInWorkspace(f) && Direct(Told(parse, f), k))
  {
    WorkspaceHoldsWalked(parse, t, k);
    forall f ensures ReadByWalk(t, f) <==> FileAt(t, f.path, f.content) && ReadInWorkspace(f) {
      WalkReads(t, f);
    }
  }

  lemma CommitReads(f: Listed)
    requires Proper(f.path)
    ensures Reads(GoPass, f) || Reads(ManifestPass, f) <==> ReadInCommit(f)
  {
    WantsModule(f.path);
    WantsManifest(f.path);
  }

  ghost predicate CommitTells(parse: (string, string) -> Deps, files: seq<Listed>, k: string) {
    exists f :: f in files && ReadInCommit(f) && Known(Told(parse, f), k)
  }

  ghost predicate CommitTellsDirect(parse: (string, string) -> Deps, files: seq<Listed>, k: string) {
    exists f :: f in files && ReadInCommit(f) && Direct(Told(parse, f), k)
  }

  lemma EnumerationsTell(parse: (string, string) -> Deps, files: seq<Listed>, k: string)
    requires forall f :: f in files ==> Proper(f.path)
    ensures Tells(GoPass, parse, files, k) || Tells(ManifestPass, parse, files, k) <==> CommitTells(parse, files, k)
    ensures TellsDirect(GoPass, parse, files, k) || TellsDirect(ManifestPass, parse, files, k) <==> CommitTellsDirect(parse, files, k)
  {
    forall f | f in files ensures Reads(GoPass, f) || Reads(ManifestPass, f) <==> ReadInCommit(f) {
      CommitReads(f);
    }
  }

  /** And what the collection from a commit holds. */
  lemma CommitHolds(parse: (string, string) -> Deps, files: seq<Listed>, k: string)
    requires forall f :: f in files ==> Proper(f.path)
    ensures var r := FromCommit(parse, files);
            (Known(r, k) <==> k == "stdlib" || k == "go" || CommitTells(parse, files, k))
            && (Direct(r, k) <==> k == "stdlib" || k == "go" || CommitTellsDirect(parse, files, k))
  {
    PassKnows(GoPass, parse, Start(), files, k);
    PassKnows(ManifestPass, parse, MergeAll(Start(), AllAdds(AddsOf(GoPass, parse), files)), files, k);
    EnumerationsTell(parse, files, k);
  }

  // ---- When the two collections agree for every parser ----

  /** The walk reads a module file with the same content. */
  ghost predicate HasTwin(t: Tree, f: Listed) {
    exists g :: g in Visited(t, [], GO_SKIPS) && Reads(GoPass, g) && g.content == f.content
  }

  /** What a file tells, when it is read. */
  function Told(parse: (string, string) -> Deps, f: Listed): Deps
    requires f.content.Some?
  {
    parse(Base(Join(f.path)), f.content.value)
  }

  ghost predicate Tells(pass: Pass, parse: (string, string) -> Deps, files: seq<Listed>, k: string) {
    exists f :: f in files && Reads(pass, f) && Known(Told(parse, f), k)
  }

  ghost predicate TellsDirect(pass: Pass, parse: (string, string) -> Deps, files: seq<Listed>, k: string) {
    exists f :: f in files && Reads(pass, f) && Direct(Told(parse, f), k)
  }

  /** What a pass adds to what is known. */
  lemma PassKnows(pass: Pass, parse: (string, string) -> Deps, base: Deps, files: seq<Listed>, k: string)
    ensures var r := MergeAll(base, AllAdds(AddsOf(pass, parse), files));
            (Known(r, k) <==> Known(base, k) || Tells(pass, parse, files, k))
            && (Direct(r, k) <==> Direct(base, k) || TellsDirect(pass, parse, files, k))
  {
    var adds := AllAdds(AddsOf(pass, parse), files);
    MergeAllMeans(base, adds, k);
    forall m | m in adds ensures exists f :: f in files && Reads(pass, f) && m == Told(parse, f) {
      var i := AddsComeFrom(AddsOf(pass, parse), files, m);
      assert files[i] in files && Reads(pass, files[i]);
    }
    forall f | f in files && Reads(pass, f) ensures Told(parse, f) in adds {
      var i :| 0 <= i < |files| && files[i] == f;
      assert Told(parse, f) in Adds(pass, parse, f);
      AddsAreThere(AddsOf(pass, parse), files, i, Told(parse, f));
    }
  }

  /** What the list reads and the walk does not is contested. */
  lemma ReadOnlyByCommit(t: Tree, files: seq<Listed>, f: Listed)
    requires t.Dir? && WellNamed(t) && Lists(files, t) && f in files
    ensures Reads(GoPass, f) && f !in Visited(t, [], GO_SKIPS) <==> Contested(f)
    ensures Reads(GoPass, f) ==> Base(Join(f.path)) == "go.mod"
  {
    VisitedMeans(t, [], GO_SKIPS, f);
    VisitedIsBelow(t, [], f);
    BaseIsLast(f.path);
    SlashVendorMeans(f.path);
    ContestedMeans(f);
  }

  lemma WalkedAreListed(t: Tree, files: seq<Listed>, skip: set<string>, f: Listed)
    requires t.Dir? && WellNamed(t) && Lists(files, t) && f in Visited(t, [], skip)
    ensures f in files
  {
    VisitedMeans(t, [], skip, f);
  }

  lemma TwinsAddTheSame(parse: (string, string) -> Deps, t: Tree, files: seq<Listed>, m: Deps)
    requires t.Dir? && WellNamed(t) && Lists(files, t)
    requires forall f :: f in files && Contested(f) ==> HasTwin(t, f)
    ensures m in AllAdds(AddsOf(GoPass, parse), Visited(t, [], GO_SKIPS)) <==> m in AllAdds(AddsOf(GoPass, parse), files)
  {
    var walked := Visited(t, [], GO_SKIPS);
    if m in AllAdds(AddsOf(GoPass, parse), walked) {
      forall f | f in walked && Reads(GoPass, f) ensures f in files {
        WalkedAreListed(t, files, GO_SKIPS, f);
      }
      AddsCarryOver(GoPass, parse, walked, files, m);
    }
    if m in AllAdds(AddsOf(GoPass, parse), files) {
      var i := AddsComeFrom(AddsOf(GoPass, parse), files, m);
      var f := files[i];
      ReadOnlyByCommit(t, files, f);
      var g := f;
      if f !in walked {
        g :| g in walked && Reads(GoPass, g) && g.content == f.content;
        WalkedAreListed(t, files, GO_SKIPS, g);
        ReadOnlyByCommit(t, files, g);
      }
      var j :| 0 <= j < |walked| && walked[j] == g;
      AddsAreThere(AddsOf(GoPass, parse), walked, j, m);
    }
  }

  lemma TwinsAgree(parse: (string, string) -> Deps, t: Tree, files: seq<Listed>)
    requires t.Dir? && WellNamed(t) && Lists(files, t)
    requires forall f :: f in files && Contested(f) ==> HasTwin(t, f)
    ensures FromWorkspace(parse, t) == FromCommit(parse, files)
  {
    forall m ensures m in AllAdds(AddsOf(GoPass, parse), Visited(t, [], GO_SKIPS)) <==> m in AllAdds(AddsOf(GoPass, parse), files) {
      TwinsAddTheSame(parse, t, files, m);
    }
    MergeAllBySet(Start(), AllAdds(AddsOf(GoPass, parse), Visited(t, [], GO_SKIPS)), AllAdds(AddsOf(GoPass, parse), files));
    WorkspaceMeetsCommit(parse, t, files, MergeAll(Start(), AllAdds(AddsOf(GoPass, parse), files)));
  }

  /** A parser that knows one package, and only in module files of one content. */
  function OnlyIn(content: string): (string, string) -> Deps {
    (name: string, text: string) => if name == "go.mod" && text == content then map["x" := true] else map[]
  }

  lemma CommitKnows(t: Tree, files: seq<Listed>, f: Listed)
    requires t.Dir? && WellNamed(t) && Lists(files, t) && f in files && Contested(f)
    ensures Known(FromCommit(OnlyIn(f.content.value), files), "x")
  {
    var parse := OnlyIn(f.content.value);
    ReadOnlyByCommit(t, files, f);
    PassKnows(GoPass, parse, Start(), files, "x");
    PassKnows(ManifestPass, parse, MergeAll(Start(), AllAdds(AddsOf(GoPass, parse), files)), files, "x");
  }

  lemma PassDoesNotKnow(pass: Pass, content: string, base: Deps, files: seq<Listed>)
    requires !Known(base, "x")
    requires forall f :: f in files && Reads(pass, f) ==> Base(Join(f.path)) != "go.mod" || f.content != Some(content)
    ensures !Known(MergeAll(base, AllAdds(AddsOf(pass, OnlyIn(content)), files)), "x")
  {
    PassKnows(pass, OnlyIn(content), base, files, "x");
  }

  lemma ManifestsAreNotModules(f: Listed)
    requires Reads(ManifestPass, f)
    ensures Base(Join(f.path)) != "go.mod"
  {}

  lemma WorkspaceDoesNotKnow(t: Tree, content: string)
    requires forall g :: g in Visited(t, [], GO_SKIPS) && Reads(GoPass, g) ==> g.content != Some(content)
    ensures !Known(FromWorkspace(OnlyIn(content), t), "x")
  {
    var modules, manifests := Visited(t, [], GO_SKIPS), Visited(t, [], VENDOR_DIRS);
    PassDoesNotKnow(GoPass, content, Start(), modules);
    forall f | f in manifests && Reads(ManifestPass, f) ensures Base(Join(f.path)) != "go.mod" {
      ManifestsAreNotModules(f);
    }
    PassDoesNotKnow(ManifestPass, content, MergeAll(Start(), AllAdds(AddsOf(GoPass, OnlyIn(content)), modules)), manifests);
  }

  lemma UntwinnedSeparates(t: Tree, files: seq<Listed>, f: Listed)
    requires t.Dir? && WellNamed(t) && Lists(files, t)
    requires f in files && Contested(f) && !HasTwin(t, f)
    ensures var parse := OnlyIn(f.content.value); FromWorkspace(parse, t) != FromCommit(parse, files)
  {
    CommitKnows(t, files, f);
    WorkspaceDoesNotKnow(t, f.content.value);
  }

  /** The two collections agree for every parser exactly when every contested module file has a twin: a file
      with the same content that the walk reads. */
  lemma CollectionsAgreeExactly(t: Tree, files: seq<Listed>)
    requires t.Dir? && WellNamed(t) && Lists(files, t)
    ensures (forall parse: (string, string) -> Deps :: FromWorkspace(parse, t) == FromCommit(parse, files))
            <==> forall f :: f in files && Contested(f) ==> HasTwin(t, f)
  {
    if forall f :: f in files && Contested(f) ==> HasTwin(t, f) {
      forall parse: (string, string) -> Deps ensures FromWorkspace(parse, t) == FromCommit(parse, files) {
        TwinsAgree(parse, t, files);
      }
    } else {
      var f :| f in files && Contested(f) && !HasTwin(t, f);
      UntwinnedSeparates(t, files, f);
    }
  }

  /** A contested file can make the two disagree: a top-level vendor directory with one Go module file. */
  lemma TopLevelVendorDisagrees(parse: (string, string) -> Deps, content: string, name: string)
    requires parse("go.mod", content) == map[name := true] && name != "go" && name != "stdlib"
    ensures var t := Dir([Entry("vendor", Dir([Entry("go.mod", File(Some(content)))]))]);
            var files := [Listed(["vendor", "go.mod"], Some(content))];
            Lists(files, t) && Contested(files[0])
            && name in FromCommit(parse, files) && name !in FromWorkspace(parse, t)
  {
    var f := Listed(["vendor", "go.mod"], Some(content));
    var t := Dir([Entry("vendor", Dir([Entry("go.mod", File(Some(content)))]))]);
    TopLevelVendorTree(content);
    VendoredModule(f, content);
    PassKnows(GoPass, parse, Start(), [f], name);
    PassKnows(ManifestPass, parse, MergeAll(Start(), AllAdds(AddsOf(GoPass, parse), [f])), [f], name);
  }

  lemma VendoredModule(f: Listed, content: string)
    requires f == Listed(["vendor", "go.mod"], Some(content))
    ensures Contested(f) && Reads(GoPass, f) && Base(Join(f.path)) == "go.mod"
  {
    assert Proper(f.path) by {
      assert forall c :: c in "vendor" || c in "go.mod" ==> c != '/';
    }
    BaseIsLast(f.path);
    SlashVendorMeans(f.path);
  }

  lemma TopLevelVendorTree(content: string)
    ensures var t := Dir([Entry("vendor", Dir([Entry("go.mod", File(Some(content)))]))]);
            Visited(t, [], {}) == [Listed(["vendor", "go.mod"], Some(content))]
            && Visited(t, [], GO_SKIPS) == [] && Visited(t, [], VENDOR_DIRS) == []
  {
    var inner := Dir([Entry("go.mod", File(Some(content)))]);
    var t := Dir([Entry("vendor", inner)]);
    assert ["vendor"] + ["go.mod"] == ["vendor", "go.mod"] && [] + ["vendor"] == ["vendor"];
    assert VisitedIn(inner, ["vendor"], {}, 1) == VisitedIn(inner, ["vendor"], {}, 0) + Visited(inner.entries[0].tree, ["vendor", "go.mod"], {});
    assert VisitedIn(t, [], {}, 1) == VisitedIn(t, [], {}, 0) + Visited(inner, ["vendor"], {});
    assert VisitedIn(t, [], GO_SKIPS, 1) == VisitedIn(t, [], GO_SKIPS, 0) + [];
    assert VisitedIn(t, [], VENDOR_DIRS, 1) == VisitedIn(t, [], VENDOR_DIRS, 0) + [];
  }
}

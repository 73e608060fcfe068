// internal/dependency/package_location.go: a package's file paths, flattened and written back.
module Locations {
  import opened Options

  datatype Location = Location(path: string, line: Option<nat>)

  function FromPath(path: string): Location { Location(path, None) }

  datatype PackageLocation = PackageLocation(descriptor: Option<Location>, related: seq<Location>)

  const NOWHERE := PackageLocation(None, [])

  /** The fields of an extracted package that this code reads or writes. */
  class Package {
    const purlType: string
    const name: string
    const purl: Option<string>
    var location: PackageLocation
    var licenses: seq<string>

    constructor (purlType: string, name: string, purl: Option<string>, location: PackageLocation, licenses: seq<string>)
      ensures this.purlType == purlType && this.name == name && this.purl == purl
      ensures this.location == location && this.licenses == licenses
    {
      this.purlType, this.name, this.purl := purlType, name, purl;
      this.location, this.licenses := location, licenses;
    }
  }

  /** `path` after `paths`, unless it is blank or already there. */
  function AppendPath(paths: seq<string>, path: string): seq<string> {
    if path == "" || path in paths then paths else paths + [path]
  }

  function AppendAll(paths: seq<string>, more: seq<string>): seq<string>
    decreases |more|
  {
    if more == [] then paths else AppendAll(AppendPath(paths, more[0]), more[1..])
  }

  function LocationPaths(locations: seq<Location>): seq<string> {
    seq(|locations|, i requires 0 <= i < |locations| => locations[i].path)
  }

  /** Every path recorded for the location, the descriptor's first, without blanks or repeats. */
  function PathsOf(l: PackageLocation): seq<string> {
    AppendAll([], (if l.descriptor.Some? then [l.descriptor.value.path] else []) + LocationPaths(l.related))
  }

  method PackagePaths(pkg: Package?) returns (paths: seq<string>)
    ensures paths == if pkg == null then [] else PathsOf(pkg.location)
  {
    paths := [];
    if pkg == null {
      return;
    }
    ghost var all := (if pkg.location.descriptor.Some? then [pkg.location.descriptor.value.path] else []) + LocationPaths(pkg.location.related);
    if pkg.location.descriptor.Some? {
      paths := AppendPath(paths, pkg.location.descriptor.value.path);
      assert all[1..] == LocationPaths(pkg.location.related);
    } else {
      assert all == LocationPaths(pkg.location.related);
    }
    assert LocationPaths(pkg.location.related)[0..] == LocationPaths(pkg.location.related);
    for i := 0 to |pkg.location.related|
      invariant AppendAll(paths, LocationPaths(pkg.location.related)[i..]) == PathsOf(pkg.location)
    {
      assert LocationPaths(pkg.location.related)[i..][1..] == LocationPaths(pkg.location.related)[i + 1..];
      paths := AppendPath(paths, pkg.location.related[i].path);
    }
  }

  /** The descriptor, and every other non-blank path as a related location, in order. */
  function RelateRemaining(descriptor: Location, paths: seq<string>): PackageLocation {
    PackageLocation(Some(descriptor), Related(descriptor.path, paths))
  }

  function Related(skip: string, paths: seq<string>): seq<Location> {
    if paths == [] then []
    else (if paths[0] == "" || paths[0] == skip then [] else [FromPath(paths[0])]) + Related(skip, paths[1..])
  }

  function NewPackageLocation(paths: seq<string>): PackageLocation {
    if paths == [] then NOWHERE else RelateRemaining(FromPath(paths[0]), paths)
  }

  function WithPaths(l: PackageLocation, paths: seq<string>): PackageLocation {
    if paths == [] then NOWHERE
    else if l.descriptor.None? || l.descriptor.value.path !in paths then NewPackageLocation(paths)
    else RelateRemaining(l.descriptor.value, paths)
  }

  lemma RelatedFrom(skip: string, paths: seq<string>, i: nat)
    requires i < |paths|
    ensures Related(skip, paths[i..])
         == (if paths[i] == "" || paths[i] == skip then [] else [FromPath(paths[i])]) + Related(skip, paths[i + 1..])
  {
    assert paths[i..][1..] == paths[i + 1..];
  }

  method RelateRemainingPaths(descriptor: Location, paths: seq<string>) returns (l: PackageLocation)
    ensures l == RelateRemaining(descriptor, paths)
  {
    var related := [];
    for i := 0 to |paths|
      invariant related + Related(descriptor.path, paths[i..]) == Related(descriptor.path, paths)
    {
      RelatedFrom(descriptor.path, paths, i);
      if paths[i] == "" || paths[i] == descriptor.path {
        continue;
      }
      ghost var rest := Related(descriptor.path, paths[i + 1..]);
      assert related + ([FromPath(paths[i])] + rest) == related + [FromPath(paths[i])] + rest;
      related := related + [FromPath(paths[i])];
    }
    l := PackageLocation(Some(descriptor), related);
    assert related == related + Related(descriptor.path, paths[|paths|..]);
  }

  method SetPackagePaths(pkg: Package?, paths: seq<string>)
    modifies (if pkg == null then {} else {pkg})`location
    ensures pkg != null ==> pkg.location == WithPaths(old(pkg.location), paths)
  {
    if pkg == null {
      return;
    }
    if paths == [] {
      pkg.location := NOWHERE;
      return;
    }
    var descriptor := pkg.location.descriptor;
    var l;
    if descriptor.None? || descriptor.value.path !in paths {
      l := RelateRemainingPaths(FromPath(paths[0]), paths);
    } else {
      l := RelateRemainingPaths(descriptor.value, paths);
    }
    pkg.location := l;
  }

  // ---- Reading back what was written ----

  predicate Clean(paths: seq<string>) { "" !in paths && forall i, j :: 0 <= i < j < |paths| ==> paths[i] != paths[j] }

  lemma {:induction false} AppendAllElements(paths: seq<string>, more: seq<string>)
    requires Clean(paths)
    ensures Clean(AppendAll(paths, more))
    ensures forall p :: p in AppendAll(paths, more) <==> p in paths || (p in more && p != "")
    decreases |more|
  {
    if more != [] {
      AppendAllElements(AppendPath(paths, more[0]), more[1..]);
    }
  }

  lemma {:induction false} AppendAllClean(paths: seq<string>, more: seq<string>)
    requires Clean(paths + more)
    ensures AppendAll(paths, more) == paths + more
    decreases |more|
  {
    if more == [] {
      assert paths + more == paths;
    } else {
      assert more[0] == (paths + more)[|paths|];
      assert paths + more == paths + [more[0]] + more[1..];
      assert forall i :: 0 <= i < |paths| ==> (paths + more)[i] == paths[i];
      AppendAllClean(paths + [more[0]], more[1..]);
    }
  }

  lemma {:induction false} RelatedPaths(skip: string, paths: seq<string>)
    ensures forall p :: p in LocationPaths(Related(skip, paths)) <==> p in paths && p != "" && p != skip
    ensures Clean(paths) ==> Clean(LocationPaths(Related(skip, paths)))
    ensures Clean(paths) && skip !in paths ==> LocationPaths(Related(skip, paths)) == paths
  {
    if paths != [] {
      RelatedPaths(skip, paths[1..]);
      var rest := LocationPaths(Related(skip, paths[1..]));
      assert LocationPaths(Related(skip, paths)) == (if paths[0] == "" || paths[0] == skip then [] else [paths[0]]) + rest;
      if Clean(paths) {
        assert Clean(paths[1..]) by { assert forall p :: p in paths[1..] ==> p in paths; }
        assert paths[0] !in rest;
        assert paths == [paths[0]] + paths[1..];
      }
    }
  }

  /** A location never lists a blank path or the same path twice. */
  lemma PathsAreClean(l: PackageLocation)
    ensures Clean(PathsOf(l))
  {
    AppendAllElements([], (if l.descriptor.Some? then [l.descriptor.value.path] else []) + LocationPaths(l.related));
  }

  /** What a location lists: its descriptor's path and the related ones, blanks left out. */
  lemma PathsMean(l: PackageLocation, p: string)
    ensures p in PathsOf(l) <==>
            p != "" && ((l.descriptor.Some? && l.descriptor.value.path == p) || exists r :: r in l.related && r.path == p)
  {
    var first := if l.descriptor.Some? then [l.descriptor.value.path] else [];
    AppendAllElements([], first + LocationPaths(l.related));
    if r :| r in l.related && r.path == p {
      var i :| 0 <= i < |l.related| && l.related[i] == r;
      assert LocationPaths(l.related)[i] == p;
    }
  }

  /** The descriptor's path comes first. */
  lemma DescriptorFirst(l: PackageLocation)
    requires l.descriptor.Some? && l.descriptor.value.path != ""
    ensures PathsOf(l) != [] && PathsOf(l)[0] == l.descriptor.value.path
  {
    var d, more := l.descriptor.value.path, LocationPaths(l.related);
    assert ([d] + more)[0] == d && ([d] + more)[1..] == more;
    assert AppendPath([], d) == [] + [d] == [d];
    assert PathsOf(l) == AppendAll([d], more);
    AppendKeepsFirst([d], more);
  }

  lemma {:induction false} AppendKeepsFirst(paths: seq<string>, more: seq<string>)
    requires paths != []
    ensures AppendAll(paths, more) != [] && AppendAll(paths, more)[0] == paths[0]
    decreases |more|
  {
    if more != [] {
      AppendKeepsFirst(AppendPath(paths, more[0]), more[1..]);
    }
  }

  /** A descriptor that is not listed any more, or was never there, gives way to the first path listed. */
  lemma DescriptorReplaced(l: PackageLocation, paths: seq<string>)
    ensures paths == [] ==> WithPaths(l, paths) == PackageLocation(None, [])
    ensures paths != [] && (l.descriptor.None? || l.descriptor.value.path !in paths) ==>
              WithPaths(l, paths).descriptor == Some(Location(paths[0], None))
    ensures forall r :: r in WithPaths(l, paths).related ==> r.line == None
  {
    if paths != [] {
      RelatedHaveNoLine(WithPaths(l, paths).descriptor.value.path, paths);
    }
  }

  lemma {:induction false} RelatedHaveNoLine(skip: string, paths: seq<string>)
    ensures forall r :: r in Related(skip, paths) ==> r.line == None
  {
    if paths != [] {
      RelatedHaveNoLine(skip, paths[1..]);
    }
  }

  /** Writing paths and reading them back gives the same set of non-blank paths. */
  lemma PathsSurviveRewrite(l: PackageLocation, paths: seq<string>)
    ensures forall p :: p in PathsOf(WithPaths(l, paths)) <==> p in paths && p != ""
  {
    if paths != [] {
      var d := WithPaths(l, paths).descriptor.value;
      RelatedPaths(d.path, paths);
      AppendAllElements([], [d.path] + LocationPaths(Related(d.path, paths)));
      assert d.path in paths;
    } else {
      assert PathsOf(NOWHERE) == [];
    }
  }

  /** Distinct non-blank paths come back in the order given when the descriptor is absent, replaced, or
      first; a descriptor further back is moved to the front. */
  lemma RewriteKeepsOrder(l: PackageLocation, paths: seq<string>)
    requires Clean(paths) && paths != []
    ensures PathsOf(WithPaths(l, paths)) == paths <==>
            l.descriptor.None? || l.descriptor.value.path !in paths || l.descriptor.value.path == paths[0]
  {
    var d := WithPaths(l, paths).descriptor.value;
    PathsStartAtDescriptor(d, paths);
    if d.path == paths[0] {
      RelatedSkipsFirst(paths);
    }
  }

  lemma PathsStartAtDescriptor(d: Location, paths: seq<string>)
    requires Clean(paths) && d.path in paths
    ensures PathsOf(RelateRemaining(d, paths)) == [d.path] + LocationPaths(Related(d.path, paths))
  {
    RelatedPaths(d.path, paths);
    var all := [d.path] + LocationPaths(Related(d.path, paths));
    assert Clean(all);
    assert [] + all == all;
    AppendAllClean([], all);
  }

  lemma RelatedSkipsFirst(paths: seq<string>)
    requires Clean(paths) && paths != []
    ensures [paths[0]] + LocationPaths(Related(paths[0], paths)) == paths
  {
    assert Clean(paths[1..]) && paths[0] !in paths[1..] by {
      assert forall p :: p in paths[1..] ==> p in paths;
    }
    RelatedPaths(paths[0], paths[1..]);
    assert Related(paths[0], paths) == Related(paths[0], paths[1..]);
  }

  /** The recorded descriptor survives, line number and all, exactly when its path is still listed. */
  lemma DescriptorSurvives(l: PackageLocation, paths: seq<string>)
    requires l.descriptor.Some? && l.descriptor.value.line.Some?
    ensures WithPaths(l, paths).descriptor == l.descriptor <==> l.descriptor.value.path in paths
  {}

  /** Writing back the paths just read from a rewritten location changes nothing. */
  lemma RewriteIsStable(l: PackageLocation, paths: seq<string>)
    requires Clean(paths) && paths != []
    ensures var w := WithPaths(l, paths); PathsOf(w) != [] && WithPaths(w, PathsOf(w)) == w
  {
    var w := WithPaths(l, paths);
    var d := w.descriptor.value;
    PathsStartAtDescriptor(d, paths);
    RelatedPaths(d.path, paths);
    RelatedTwice(d.path, paths);
    var rest := LocationPaths(w.related);
    assert ([d.path] + rest)[1..] == rest;
  }

  lemma {:induction false} RelatedTwice(skip: string, paths: seq<string>)
    ensures Related(skip, LocationPaths(Related(skip, paths))) == Related(skip, paths)
  {
    if paths != [] {
      RelatedTwice(skip, paths[1..]);
      var rest := LocationPaths(Related(skip, paths[1..]));
      if paths[0] == "" || paths[0] == skip {
        assert Related(skip, paths) == Related(skip, paths[1..]);
      } else {
        assert LocationPaths(Related(skip, paths)) == [paths[0]] + rest;
        assert ([paths[0]] + rest)[1..] == rest;
      }
    }
  }
}

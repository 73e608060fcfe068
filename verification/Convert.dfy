// internal/inputs/convert.go: packages with the same key become one input, whose locations and manifest
// references are merged package by package and put into canonical form at the end. Paths are trimmed and
// merged as dependency groups are.
module Convert {
  import opened Options
  import opened Text
  import opened Order
  import opened ManifestRefs

  /** A package as the loop sees it: its name, the key built from ecosystem, name, version and PURL, its
      paths, and the manifest references detected for them in order. */
  datatype Package = Package(name: string, key: string, paths: seq<string>, refs: seq<ManifestRef>)

  datatype Entry = Entry(locations: seq<string>, refs: seq<ManifestRef>)

  predicate Counts(p: Package, key: string) { TrimSpace(p.name) != "" && p.key == key }

  /** Everything that the packages with a key contribute to it, in order. */
  function RefsOf(pkgs: seq<Package>, key: string): seq<ManifestRef> {
    if pkgs == [] then []
    else
      var n := |pkgs| - 1;
      RefsOf(pkgs[..n], key) + if Counts(pkgs[n], key) then pkgs[n].refs else []
  }

  function PathsOf(pkgs: seq<Package>, key: string): seq<string> {
    if pkgs == [] then []
    else
      var n := |pkgs| - 1;
      PathsOf(pkgs[..n], key) + if Counts(pkgs[n], key) then pkgs[n].paths else []
  }

  predicate Contributed(pkgs: seq<Package>, key: string) {
    pkgs != [] && (Contributed(pkgs[..|pkgs| - 1], key) || Counts(pkgs[|pkgs| - 1], key))
  }

  lemma {:induction false} GroupedAppend(base: seq<string>, a: seq<string>, b: seq<string>)
    ensures Grouped(Grouped(base, a), b) == Grouped(base, a + b)
  {
    if b == [] {
      assert a + b == a;
    } else {
      var n := |b| - 1;
      GroupedAppend(base, a, b[..n]);
      GroupedStep(Grouped(base, a), b);
      GroupedStep(base, a + b);
      assert (a + b)[..|a + b| - 1] == a + b[..n] && (a + b)[|a + b| - 1] == b[n];
    }
  }

  lemma GroupedStep(base: seq<string>, b: seq<string>)
    requires b != []
    ensures Grouped(base, b) == AddGroup(Grouped(base, b[..|b| - 1]), b[|b| - 1])
  {}

  /** The merged state of one key while the packages are visited. */
  ghost predicate Merging(seen: map<string, Entry>, pkgs: seq<Package>, key: string) {
    (key in seen <==> Contributed(pkgs, key))
    && (key in seen ==> seen[key] == Entry(Grouped([], PathsOf(pkgs, key)), MergeAll(RefsOf(pkgs, key))))
    && (key !in seen ==> PathsOf(pkgs, key) == [] && RefsOf(pkgs, key) == [])
  }

  /** The entry of a package's key once the package is merged in. */
  function Visited(entry: Entry, p: Package): Entry {
    Entry(Grouped(entry.locations, p.paths), MergeFrom(entry.refs, p.refs))
  }

  function MergeFrom(existing: seq<ManifestRef>, refs: seq<ManifestRef>): seq<ManifestRef> {
    if refs == [] then existing else MergeOne(MergeFrom(existing, refs[..|refs| - 1]), refs[|refs| - 1])
  }

  lemma {:induction false} MergeFromAppends(a: seq<ManifestRef>, b: seq<ManifestRef>)
    ensures MergeFrom(MergeAll(a), b) == MergeAll(a + b)
  {
    if b == [] {
      assert a + b == a;
    } else {
      var n := |b| - 1;
      MergeFromAppends(a, b[..n]);
      assert (a + b)[..|a + b| - 1] == a + b[..n];
    }
  }

  method Visit(entry: Entry, p: Package) returns (merged: Entry)
    ensures merged == Visited(entry, p)
  {
    var locations := MergeGroups(entry.locations, p.paths);
    var refs := entry.refs;
    for j := 0 to |p.refs|
      invariant refs == MergeFrom(entry.refs, p.refs[..j])
    {
      assert p.refs[..j + 1][..j] == p.refs[..j];
      refs := MergeManifestRef(refs, Some(p.refs[j]));
    }
    assert p.refs[..|p.refs|] == p.refs;
    merged := Entry(locations, refs);
  }

  method Merge(pkgs: seq<Package>) returns (seen: map<string, Entry>)
    ensures forall key :: Merging(seen, pkgs, key)
  {
    seen := map[];
    for i := 0 to |pkgs|
      invariant forall key :: Merging(seen, pkgs[..i], key)
    {
      var p := pkgs[i];
      ghost var before := seen;
      if TrimSpace(p.name) != "" {
        var entry := if p.key in seen then seen[p.key] else Entry([], []);
        entry := Visit(entry, p);
        seen := seen[p.key := entry];
      }
      VisitKeepsMerging(before, pkgs[..i], p, seen);
      assert pkgs[..i + 1] == pkgs[..i] + [p];
    }
    assert pkgs[..|pkgs|] == pkgs;
  }

  lemma VisitKeepsMerging(before: map<string, Entry>, pkgs: seq<Package>, p: Package, after: map<string, Entry>)
    requires forall key :: Merging(before, pkgs, key)
    requires after == if TrimSpace(p.name) == "" then before
                      else before[p.key := Visited(if p.key in before then before[p.key] else Entry([], []), p)]
    ensures forall key :: Merging(after, pkgs + [p], key)
  {
    var all := pkgs + [p];
    forall key ensures Merging(after, all, key) {
      assert Merging(before, pkgs, key);
      Contribution(pkgs, p, key);
      if Counts(p, key) {
        GroupedAppend([], PathsOf(pkgs, key), p.paths);
        MergeFromAppends(RefsOf(pkgs, key), p.refs);
      } else {
        assert PathsOf(all, key) == PathsOf(pkgs, key) && RefsOf(all, key) == RefsOf(pkgs, key);
      }
    }
  }

  lemma Contribution(pkgs: seq<Package>, p: Package, key: string)
    ensures RefsOf(pkgs + [p], key) == RefsOf(pkgs, key) + (if Counts(p, key) then p.refs else [])
    ensures PathsOf(pkgs + [p], key) == PathsOf(pkgs, key) + (if Counts(p, key) then p.paths else [])
    ensures Contributed(pkgs + [p], key) == (Contributed(pkgs, key) || Counts(p, key))
  {
    assert (pkgs + [p])[..|pkgs|] == pkgs;
  }

  /** What a key collects: from every package of that key with a name that is not blank, all paths and references. */
  lemma {:induction false} ContributedMeans(pkgs: seq<Package>, key: string)
    ensures Contributed(pkgs, key) <==> exists p :: p in pkgs && TrimSpace(p.name) != "" && p.key == key
  {
    if pkgs != [] {
      var n := |pkgs| - 1;
      ContributedMeans(pkgs[..n], key);
      assert pkgs == pkgs[..n] + [pkgs[n]];
    }
  }

  lemma {:induction false} PathsMean(pkgs: seq<Package>, key: string, l: string)
    ensures l in PathsOf(pkgs, key) <==> exists p :: p in pkgs && TrimSpace(p.name) != "" && p.key == key && l in p.paths
  {
    if pkgs != [] {
      var n := |pkgs| - 1;
      PathsMean(pkgs[..n], key, l);
      assert pkgs == pkgs[..n] + [pkgs[n]];
    }
  }

  lemma {:induction false} RefsMean(pkgs: seq<Package>, key: string, r: ManifestRef)
    ensures r in RefsOf(pkgs, key) <==> exists p :: p in pkgs && TrimSpace(p.name) != "" && p.key == key && r in p.refs
  {
    if pkgs != [] {
      var n := |pkgs| - 1;
      RefsMean(pkgs[..n], key, r);
      assert pkgs == pkgs[..n] + [pkgs[n]];
    }
  }

  /** What an input says of its key: every trimmed path once, in order, and the canonical references. */
  ghost predicate Converted(e: Entry, paths: seq<string>, refs: seq<ManifestRef>) {
    StrictlySorted(e.locations) && (forall l :: l in e.locations <==> l in GroupSet(paths))
    && IsCanonical(e.refs, NamedOnly(refs))
  }

  /** One input for every key that a named package has, holding everything its packages contribute. */
  method Convert(pkgs: seq<Package>) returns (inputs: map<string, Entry>)
    ensures forall key :: key in inputs <==> Contributed(pkgs, key)
    ensures forall key :: key in inputs ==> Converted(inputs[key], PathsOf(pkgs, key), RefsOf(pkgs, key))
  {
    var seen := Merge(pkgs);
    inputs := map[];
    var left := seen.Keys;
    while left != {}
      invariant left <= seen.Keys && inputs.Keys == seen.Keys - left
      invariant forall key :: key in inputs ==> Converted(inputs[key], PathsOf(pkgs, key), RefsOf(pkgs, key))
      decreases left
    {
      var key :| key in left;
      left := left - {key};
      assert Merging(seen, pkgs, key);
      var locations := SortedUniqueStrings(seen[key].locations);
      var refs := SortAndUniqueManifestRefs(seen[key].refs);
      GroupedMeans([], PathsOf(pkgs, key));
      CanonicalOfMerged(RefsOf(pkgs, key), refs);
      inputs := inputs[key := Entry(locations, refs)];
    }
    forall key ensures key in inputs <==> Contributed(pkgs, key) {
      assert Merging(seen, pkgs, key);
    }
  }

  lemma CanonicalOfMerged(refs: seq<ManifestRef>, out: seq<ManifestRef>)
    requires IsCanonical(out, MergeAll(refs))
    ensures IsCanonical(out, NamedOnly(refs))
  {
    MergeAllMeans(refs);
    var a, b := MergeAll(refs), NamedOnly(refs);
    forall k ensures k in Keys(a) <==> k in Keys(b) {
      assert SameFor(a, b, k);
    }
    forall r | r in out ensures IsEntry(r, b) {
      assert IsEntry(r, a) && SameFor(a, b, KeyOf(r));
    }
  }
}

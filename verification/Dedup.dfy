// internal/inventory/inventory.go: packages with the same PURL are merged into the first of them.
module Dedup {
  import opened Options
  import opened Order
  import opened Locations

  /** Both lists together, sorted, without the repeats the second would add to the first. */
  method MergeLocations(a: seq<string>, b: seq<string>) returns (m: seq<string>)
    ensures forall l :: l in m <==> l in a || l in b
    ensures Sorted(m, LessEq)
  {
    if b == [] || a == [] {
      m := a + b;
    } else {
      m := a;
      var seen := set l | l in a;
      for i := 0 to |b|
        invariant (forall l :: l in seen <==> l in m) && forall l :: l in m <==> l in a || l in b[..i]
      {
        assert b[..i + 1] == b[..i] + [b[i]];
        if b[i] !in seen {
          m := m + [b[i]];
          seen := seen + {b[i]};
        }
      }
      assert b[..|b|] == b;
    }
    SameMembers(SortStrings(m), m);
    SortedStrings(m);
    m := SortStrings(m);
  }

  lemma SortedStrings(s: seq<string>)
    ensures Sorted(SortStrings(s), LessEq)
  {
    LessEqOrders(s);
    SortSorts(s, LessEq);
  }

  predicate Bears(p: Package?, u: string) { p != null && p.purl == Some(u) }

  /** What the packages were before the merge. */
  datatype Before = Before(paths: map<Package, set<string>>, licenses: map<Package, seq<string>>)

  ghost predicate Recorded(pkgs: seq<Package?>, b: Before) {
    forall p :: p in pkgs && p != null ==> p in b.paths && p in b.licenses
  }

  ghost function PathSet(p: Package): set<string>
    reads p
  {
    set l | l in PathsOf(p.location)
  }

  /** The first package with PURL `u`, if there is one. */
  ghost function FirstBearer(pkgs: seq<Package?>, u: string): Package? {
    if pkgs == [] then null
    else
      var n := |pkgs| - 1;
      var found := FirstBearer(pkgs[..n], u);
      if found == null && Bears(pkgs[n], u) then pkgs[n] else found
  }

  /** The paths of all packages with PURL `u`. */
  ghost function AllPaths(pkgs: seq<Package?>, b: Before, u: string): set<string>
    requires Recorded(pkgs, b)
  {
    if pkgs == [] then {}
    else
      var n := |pkgs| - 1;
      AllPaths(pkgs[..n], b, u) + if Bears(pkgs[n], u) then b.paths[pkgs[n]] else {}
  }

  /** The first non-empty license list among the packages with PURL `u`. */
  ghost function FirstLicenses(pkgs: seq<Package?>, b: Before, u: string): seq<string>
    requires Recorded(pkgs, b)
  {
    if pkgs == [] then []
    else
      var n := |pkgs| - 1;
      var found := FirstLicenses(pkgs[..n], b, u);
      if found == [] && Bears(pkgs[n], u) then b.licenses[pkgs[n]] else found
  }

  /** The merged package for `u`: the first one, with everyone's paths and the first licenses. */
  ghost predicate Merged(pkgs: seq<Package?>, b: Before, p: Package, u: string)
    requires Recorded(pkgs, b)
    reads p
  {
    p == FirstBearer(pkgs, u) && PathSet(p) == AllPaths(pkgs, b, u) && p.licenses == FirstLicenses(pkgs, b, u)
  }

  ghost predicate Untouched(b: Before, p: Package)
    reads p
  {
    p in b.paths && p in b.licenses && PathSet(p) == b.paths[p] && p.licenses == b.licenses[p]
  }

  lemma {:induction false} NoneBear(pkgs: seq<Package?>, b: Before, u: string)
    requires Recorded(pkgs, b) && forall p :: p in pkgs ==> !Bears(p, u)
    ensures FirstBearer(pkgs, u) == null && FirstLicenses(pkgs, b, u) == [] && AllPaths(pkgs, b, u) == {}
  {
    if pkgs != [] {
      assert pkgs[|pkgs| - 1] in pkgs && forall p :: p in pkgs[..|pkgs| - 1] ==> p in pkgs;
      NoneBear(pkgs[..|pkgs| - 1], b, u);
    }
  }

  lemma {:induction false} FirstBearerBears(pkgs: seq<Package?>, u: string)
    ensures FirstBearer(pkgs, u) != null ==> FirstBearer(pkgs, u) in pkgs && Bears(FirstBearer(pkgs, u), u)
  {
    if pkgs != [] {
      FirstBearerBears(pkgs[..|pkgs| - 1], u);
    }
  }

  /** The survivor is the first package of the list that bears the PURL. */
  lemma {:induction false} FirstBearerIs(pkgs: seq<Package?>, u: string, i: nat)
    requires i < |pkgs| && pkgs[i] != null && pkgs[i].purl == Some(u)
    requires forall j :: 0 <= j < i && pkgs[j] != null ==> pkgs[j].purl != Some(u)
    ensures FirstBearer(pkgs, u) == pkgs[i]
  {
    var n := |pkgs| - 1;
    if i < n {
      FirstBearerIs(pkgs[..n], u, i);
    } else {
      NoBearer(pkgs[..n], u);
    }
  }

  lemma {:induction false} NoBearer(pkgs: seq<Package?>, u: string)
    requires forall j :: 0 <= j < |pkgs| && pkgs[j] != null ==> pkgs[j].purl != Some(u)
    ensures FirstBearer(pkgs, u) == null
  {
    if pkgs != [] {
      NoBearer(pkgs[..|pkgs| - 1], u);
    }
  }

  /** Its licenses are those of the first bearer that has any. */
  lemma {:induction false} FirstLicensesAre(pkgs: seq<Package?>, b: Before, u: string, i: nat)
    requires Recorded(pkgs, b) && i < |pkgs| && pkgs[i] != null && pkgs[i].purl == Some(u)
    requires pkgs[i] in b.licenses && b.licenses[pkgs[i]] != []
    requires forall j :: 0 <= j < i && pkgs[j] != null && pkgs[j].purl == Some(u) ==> pkgs[j] in b.licenses && b.licenses[pkgs[j]] == []
    ensures FirstLicenses(pkgs, b, u) == b.licenses[pkgs[i]]
  {
    var n := |pkgs| - 1;
    if i < n {
      FirstLicensesAre(pkgs[..n], b, u, i);
    } else {
      NoLicenses(pkgs[..n], b, u);
    }
  }

  lemma {:induction false} NoLicenses(pkgs: seq<Package?>, b: Before, u: string)
    requires Recorded(pkgs, b)
    requires forall j :: 0 <= j < |pkgs| && pkgs[j] != null && pkgs[j].purl == Some(u) ==> pkgs[j] in b.licenses && b.licenses[pkgs[j]] == []
    ensures FirstLicenses(pkgs, b, u) == []
  {
    if pkgs != [] {
      NoLicenses(pkgs[..|pkgs| - 1], b, u);
    }
  }

  /** A bearer's own paths and licenses are among what is collected for its PURL. */
  lemma {:induction false} OwnShare(pkgs: seq<Package?>, b: Before, p: Package, u: string)
    requires Recorded(pkgs, b) && p in pkgs && Bears(p, u)
    ensures FirstLicenses(pkgs, b, u) == [] ==> b.licenses[p] == []
    ensures b.paths[p] <= AllPaths(pkgs, b, u)
  {
    var n := |pkgs| - 1;
    assert pkgs == pkgs[..n] + [pkgs[n]];
    if pkgs[n] != p {
      OwnShare(pkgs[..n], b, p, u);
    }
  }

  /** Merges `pkg` into `existing`; both may be the same package. */
  method MergeInto(existing: Package, pkg: Package, ghost pkgs: seq<Package?>, ghost b: Before, ghost u: string)
    requires Bears(existing, u) && Bears(pkg, u) && Recorded(pkgs, b) && Recorded(pkgs + [pkg], b)
    requires Merged(pkgs, b, existing, u) && (pkg != existing ==> Untouched(b, pkg)) && existing in pkgs
    modifies existing
    ensures Merged(pkgs + [pkg], b, existing, u)
  {
    if pkg == existing {
      OwnShare(pkgs, b, pkg, u);
    }
    var a := PackagePaths(existing);
    var c := PackagePaths(pkg);
    var m := MergeLocations(a, c);
    PathsAreClean(existing.location);
    PathsAreClean(pkg.location);
    PathsSurviveRewrite(existing.location, m);
    ghost var all := PathSet(existing) + PathSet(pkg);
    SetPackagePaths(existing, m);
    assert PathSet(existing) == all;
    if existing.licenses == [] && pkg.licenses != [] {
      existing.licenses := pkg.licenses;
    }
  }

  function PurlOf(p: Package?): string { if p != null && p.purl.Some? then p.purl.value else "" }

  predicate PurlLe(a: Package?, b: Package?) { LessEq(PurlOf(a), PurlOf(b)) }

  ghost predicate StrictByPurl(out: seq<Package?>) {
    (forall p :: p in out ==> p != null && p.purl.Some?)
    && forall i, j :: 0 <= i < j < |out| ==> Less(PurlOf(out[i]), PurlOf(out[j]))
  }

  ghost predicate DistinctPurls(pkgs: seq<Package?>) {
    forall i, j :: 0 <= i < j < |pkgs| && pkgs[i] != null && pkgs[i].purl.Some? ==> !Bears(pkgs[j], pkgs[i].purl.value)
  }

  /** The first pass: one surviving package per PURL. */
  method CollectByPurl(pkgs: seq<Package?>, ghost b: Before) returns (seen: map<string, Package>)
    requires Recorded(pkgs, b) && forall p: Package :: p in pkgs ==> Untouched(b, p)
    modifies set p | p in pkgs && p != null
    ensures forall u :: u in seen ==> seen[u] in pkgs && Merged(pkgs, b, seen[u], u)
    ensures forall p :: p in pkgs && p != null && p.purl.Some? ==> p.purl.value in seen
    ensures forall p: Package :: p in pkgs && p !in seen.Values ==> Untouched(b, p)
    ensures DistinctPurls(pkgs) ==> forall p: Package :: p in pkgs ==> unchanged(p)
  {
    seen := map[];
    for i := 0 to |pkgs|
      invariant SeenSoFar(pkgs, i, b, seen) && forall p :: p in seen.Values ==> p in pkgs
      invariant DistinctPurls(pkgs) ==> forall p: Package :: p in pkgs ==> unchanged(p)
    {
      seen := Take(pkgs, i, b, seen);
    }
    assert pkgs[..|pkgs|] == pkgs;
    forall u | u in seen ensures seen[u] in pkgs {
      FirstBearerBears(pkgs, u);
    }
  }

  ghost predicate SeenSoFar(pkgs: seq<Package?>, i: nat, b: Before, seen: map<string, Package>)
    requires i <= |pkgs|
    reads set p | p in pkgs && p != null
    reads seen.Values
  {
    Recorded(pkgs, b)
    && Recorded(pkgs[..i], b)
    && (forall u :: u in seen ==> Merged(pkgs[..i], b, seen[u], u))
    && (forall p :: p in pkgs[..i] && p != null && p.purl.Some? ==> p.purl.value in seen)
    && forall p: Package :: p in pkgs && p !in seen.Values ==> Untouched(b, p)
  }

  lemma SkipKeeps(pkgs: seq<Package?>, i: nat, b: Before, seen: map<string, Package>)
    requires i < |pkgs| && SeenSoFar(pkgs, i, b, seen) && (pkgs[i] == null || pkgs[i].purl.None?)
    ensures SeenSoFar(pkgs, i + 1, b, seen)
  {
    var done := pkgs[..i];
    assert pkgs[..i + 1] == done + [pkgs[i]];
    forall u | u in seen ensures Merged(done + [pkgs[i]], b, seen[u], u) {}
  }

  lemma StartKeeps(pkgs: seq<Package?>, i: nat, b: Before, seen: map<string, Package>, pkg: Package, key: string)
    requires i < |pkgs| && SeenSoFar(pkgs, i, b, seen) && pkgs[i] == pkg && Bears(pkg, key) && key !in seen
    ensures SeenSoFar(pkgs, i + 1, b, seen[key := pkg])
  {
    var done, seen' := pkgs[..i], seen[key := pkg];
    assert pkgs[..i + 1] == done + [pkg];
    assert forall p :: p in done ==> !Bears(p, key);
    NoneBear(done, b, key);
    forall u | u in seen ensures u in seen' && seen'[u] == seen[u] && Merged(done + [pkg], b, seen[u], u) {
      FirstBearerBears(done, u);
    }
    assert key in seen' && seen'[key] == pkg;
    assert pkg !in seen.Values by {
      if u :| u in seen && seen[u] == pkg {
        FirstBearerBears(done, u);
      }
    }
  }

  lemma OnlyItsOwn(pkgs: seq<Package?>, i: nat, b: Before, seen: map<string, Package>, pkg: Package, key: string)
    requires i < |pkgs| && SeenSoFar(pkgs, i, b, seen) && pkgs[i] == pkg && Bears(pkg, key) && key in seen
    ensures pkg in seen.Values ==> pkg == seen[key]
    ensures !DistinctPurls(pkgs)
  {
    if pkg in seen.Values {
      var u :| u in seen && seen[u] == pkg;
      FirstBearerBears(pkgs[..i], u);
    }
    FirstBearerBears(pkgs[..i], key);
    var k :| 0 <= k < i && pkgs[..i][k] == seen[key];
    assert pkgs[k] == seen[key];
  }

  /** What merging into `seen[key]` leaves alone. */
  ghost predicate OthersReady(pkgs: seq<Package?>, i: nat, b: Before, seen: map<string, Package>, key: string)
    requires i < |pkgs| && Recorded(pkgs[..i + 1], b) && key in seen
    reads seen.Values - {seen[key]}
  {
    forall u :: u in seen && u != key ==> seen[u] != seen[key] && Merged(pkgs[..i + 1], b, seen[u], u)
  }

  lemma OthersAreReady(pkgs: seq<Package?>, i: nat, b: Before, seen: map<string, Package>, pkg: Package, key: string)
    requires i < |pkgs| && SeenSoFar(pkgs, i, b, seen) && pkgs[i] == pkg && Bears(pkg, key) && key in seen
    ensures Recorded(pkgs[..i + 1], b) && OthersReady(pkgs, i, b, seen, key)
    ensures Bears(seen[key], key) && seen[key] in pkgs[..i]
  {
    var done := pkgs[..i];
    assert pkgs[..i + 1] == done + [pkg];
    FirstBearerBears(done, key);
    forall u | u in seen && u != key ensures seen[u] != seen[key] && Merged(done + [pkg], b, seen[u], u) {
      FirstBearerBears(done, u);
    }
  }

  method Take(pkgs: seq<Package?>, i: nat, ghost b: Before, seen: map<string, Package>) returns (seen': map<string, Package>)
    requires i < |pkgs| && SeenSoFar(pkgs, i, b, seen)
    modifies seen.Values
    ensures SeenSoFar(pkgs, i + 1, b, seen') && forall p :: p in seen'.Values ==> p in seen.Values || p == pkgs[i]
    ensures DistinctPurls(pkgs) ==> unchanged(seen.Values)
  {
    var pkg := pkgs[i];
    if pkg == null || pkg.purl.None? {
      SkipKeeps(pkgs, i, b, seen);
      seen' := seen;
    } else if pkg.purl.value in seen {
      TakeRepeat(pkgs, i, b, seen, pkg, pkg.purl.value);
      seen' := seen;
    } else {
      StartKeeps(pkgs, i, b, seen, pkg, pkg.purl.value);
      seen' := seen[pkg.purl.value := pkg];
    }
  }

  method TakeRepeat(pkgs: seq<Package?>, i: nat, ghost b: Before, seen: map<string, Package>, pkg: Package, key: string)
    requires i < |pkgs| && SeenSoFar(pkgs, i, b, seen) && pkgs[i] == pkg && Bears(pkg, key) && key in seen
    modifies seen[key]
    ensures SeenSoFar(pkgs, i + 1, b, seen) && !DistinctPurls(pkgs)
  {
    ghost var done := pkgs[..i];
    OnlyItsOwn(pkgs, i, b, seen, pkg, key);
    OthersAreReady(pkgs, i, b, seen, pkg, key);
    assert pkgs[..i + 1] == done + [pkg];
    MergeInto(seen[key], pkg, done, b, key);
    assert OthersReady(pkgs, i, b, seen, key);
    assert seen[key] in seen.Values;
  }

  /** Puts the survivors, met in any order, into PURL order. */
  method SortSurvivors(seen: map<string, Package>) returns (out: seq<Package?>)
    requires forall u :: u in seen ==> Bears(seen[u], u)
    ensures StrictByPurl(out) && forall p :: p in out <==> p in seen.Values
  {
    out := [];
    var left := seen.Keys;
    while left != {}
      invariant left <= seen.Keys
      invariant forall p :: p in out ==> p != null && p.purl.Some? && p.purl.value in seen && p.purl.value !in left && seen[p.purl.value] == p
      invariant forall u :: u in seen && u !in left ==> seen[u] in out
      invariant NoRepeats(out)
      decreases left
    {
      var u :| u in left;
      left := left - {u};
      out := out + [seen[u]];
    }
    SortedByPurl(out);
    forall p ensures p in Sort(out, PurlLe) <==> p in out {
      SortMember(out, PurlLe, p);
    }
    out := Sort(out, PurlLe);
  }

  lemma SortedByPurl(s: seq<Package?>)
    requires NoRepeats(s) && forall p, q :: p in s && q in s && PurlOf(p) == PurlOf(q) ==> p == q
    requires forall p :: p in s ==> p != null && p.purl.Some?
    ensures StrictByPurl(Sort(s, PurlLe))
  {
    var r := Sort(s, PurlLe);
    SortPermutes(s, PurlLe);
    PurlLeOrders(s);
    SortSorts(s, PurlLe);
    PermutationKeepsNoRepeats(s, r);
    forall i, j | 0 <= i < j < |r| ensures Less(PurlOf(r[i]), PurlOf(r[j])) {
      SortMember(s, PurlLe, r[i]);
      SortMember(s, PurlLe, r[j]);
      assert r[i] != r[j] && PurlLe(r[i], r[j]);
    }
    forall p | p in r ensures p != null && p.purl.Some? {
      SortMember(s, PurlLe, p);
    }
  }

  lemma PurlLeOrders(s: seq<Package?>)
    ensures Orders(PurlLe, s)
  {
    forall x, y | x in s && y in s ensures PurlLe(x, y) || PurlLe(y, x) {
      LessTotal(PurlOf(x), PurlOf(y));
    }
    forall x, y, z | x in s && y in s && z in s && PurlLe(x, y) && PurlLe(y, z) ensures PurlLe(x, z) {
      if PurlOf(x) != PurlOf(y) && PurlOf(y) != PurlOf(z) {
        LessTransitive(PurlOf(x), PurlOf(y), PurlOf(z));
      }
    }
  }

  ghost function Record(pkgs: seq<Package?>): (b: Before)
    reads set p | p in pkgs && p != null
    ensures Recorded(pkgs, b) && forall p: Package :: p in pkgs ==> Untouched(b, p)
  {
    Before(map p: Package | p in pkgs :: PathSet(p), map p: Package | p in pkgs :: p.licenses)
  }

  /** Each PURL once, in strictly increasing order, carried by the first package that bore it, with the
      paths of all of them and the first non-empty license list. Packages without a PURL are dropped;
      packages merged away are left as they were. */
  method DeduplicatePackages(pkgs: seq<Package?>) returns (out: seq<Package?>)
    modifies set p | p in pkgs && p != null
    ensures StrictByPurl(out)
    ensures forall p :: p in out ==> p in pkgs && Merged(pkgs, old(Record(pkgs)), p, PurlOf(p))
    ensures forall p :: p in pkgs && p != null && p.purl.Some? ==> exists q :: q in out && PurlOf(q) == PurlOf(p)
    ensures forall p: Package :: p in pkgs && p !in out ==> Untouched(old(Record(pkgs)), p)
    ensures DistinctPurls(pkgs) ==> forall p: Package :: p in pkgs ==> unchanged(p)
  {
    if pkgs == [] {
      return pkgs;
    }
    ghost var b := Record(pkgs);
    var seen := CollectByPurl(pkgs, b);
    forall u | u in seen ensures Bears(seen[u], u) {
      FirstBearerBears(pkgs, u);
    }
    out := SortSurvivors(seen);
    forall p | p in pkgs && p != null && p.purl.Some? ensures exists q :: q in out && PurlOf(q) == PurlOf(p) {
      assert seen[p.purl.value] in seen.Values;
    }
  }

  lemma {:induction false} AllPathsAre(pkgs: seq<Package?>, b: Before, u: string, l: string)
    requires Recorded(pkgs, b)
    ensures l in AllPaths(pkgs, b, u) <==> exists p :: p in pkgs && Bears(p, u) && l in b.paths[p]
  {
    if pkgs != [] {
      var n := |pkgs| - 1;
      assert pkgs == pkgs[..n] + [pkgs[n]];
      AllPathsAre(pkgs[..n], b, u, l);
    }
  }

  /** The (PURL, path) pairs of the PURL-bearing packages are exactly those the input had. */
  lemma PairsPreserved(pkgs: seq<Package?>, b: Before, out: seq<Package?>, u: string, l: string)
    requires Recorded(pkgs, b) && StrictByPurl(out)
    requires forall p :: p in out ==> p in pkgs && p != null && Merged(pkgs, b, p, PurlOf(p))
    requires forall p :: p in pkgs && p != null && p.purl.Some? ==> exists q :: q in out && PurlOf(q) == PurlOf(p)
    ensures (exists p :: p in out && Bears(p, u) && l in PathSet(p)) <==>
            (exists p :: p in pkgs && Bears(p, u) && l in b.paths[p])
  {
    AllPathsAre(pkgs, b, u, l);
    if l in AllPaths(pkgs, b, u) {
      var p :| p in pkgs && Bears(p, u) && l in b.paths[p];
      var q :| q in out && PurlOf(q) == PurlOf(p);
      assert Bears(q, u) && l in PathSet(q);
    }
  }

  /** In a list that is sorted by distinct PURLs, such as its own result, the merge finds nothing to
      merge: it returns the same list and leaves every package as it is. */
  method DeduplicateAgain(pkgs: seq<Package?>) returns (out: seq<Package?>)
    requires StrictByPurl(pkgs)
    modifies set p | p in pkgs && p != null
    ensures out == pkgs
    ensures forall p: Package :: p in pkgs ==> unchanged(p)
  {
    StrictIsDistinct(pkgs);
    out := DeduplicatePackages(pkgs);
    forall p | p in pkgs ensures p in out {
      var q :| q in out && PurlOf(q) == PurlOf(p);
      SamePurlSamePackage(pkgs, p, q);
    }
    StrictOrderUnique(pkgs, out);
  }

  /** `settled` holds the locations as the first pass left them; the second leaves them so. */
  method DeduplicateTwice(pkgs: seq<Package?>)
    returns (once: seq<Package?>, twice: seq<Package?>, ghost settled: map<Package, PackageLocation>)
    modifies set p | p in pkgs && p != null
    ensures twice == once && StrictByPurl(once)
    ensures forall p :: p in once ==> p in pkgs && Merged(pkgs, old(Record(pkgs)), p, PurlOf(p))
    ensures forall p: Package :: p in once ==> p in settled && p.location == settled[p]
  {
    once := DeduplicatePackages(pkgs);
    settled := map p: Package | p in once :: p.location;
    twice := DeduplicateAgain(once);
  }

  lemma StrictIsDistinct(out: seq<Package?>)
    requires StrictByPurl(out)
    ensures DistinctPurls(out)
  {
    forall i, j | 0 <= i < j < |out| ensures PurlOf(out[i]) != PurlOf(out[j]) {
      LessTotal(PurlOf(out[i]), PurlOf(out[j]));
    }
  }

  lemma SamePurlSamePackage(out: seq<Package?>, p: Package?, q: Package?)
    requires StrictByPurl(out) && p in out && q in out && PurlOf(p) == PurlOf(q)
    ensures p == q
  {
    var i :| 0 <= i < |out| && out[i] == p;
    var j :| 0 <= j < |out| && out[j] == q;
    LessTotal(PurlOf(p), PurlOf(q));
  }

  lemma StrictOrderUnique(a: seq<Package?>, b: seq<Package?>)
    requires StrictByPurl(a) && StrictByPurl(b) && forall p :: p in a <==> p in b
    ensures a == b
  {
    forall i, j | 0 <= i < j < |a| ensures a[i] != a[j] { LessTotal(PurlOf(a[i]), PurlOf(a[j])); }
    forall i, j | 0 <= i < j < |b| ensures b[i] != b[j] { LessTotal(PurlOf(b[i]), PurlOf(b[j])); }
    NoRepeatsSameMembers(a, b);
    forall x, y | x in a && y in a && PurlLe(x, y) && PurlLe(y, x) ensures x == y {
      LessTotal(PurlOf(x), PurlOf(y));
      SamePurlSamePackage(a, x, y);
    }
    SortedUnique(a, b, PurlLe);
  }
}

// internal/inventory/inventory.go: manifest entries yield to the lockfile that resolves them.
module Lockfiles {
  import opened Options
  import opened Paths
  import opened Locations

  /** Manifest base names and the lockfile that resolves each. */
  const MANIFEST_LOCKS: map<string, string> := map["Cargo.toml" := "Cargo.lock"]

  /** The value of a package at some moment. */
  datatype Pkg = Pkg(purlType: string, name: string, location: PackageLocation)

  const NUL: string := "\U{0000}"

  function IdentityKey(p: Pkg): string { p.purlType + NUL + p.name }

  ghost function ValueOf(p: Package): Pkg
    reads p
  {
    Pkg(p.purlType, p.name, p.location)
  }

  ghost function Snapshot(pkgs: seq<Package?>): (s: seq<Option<Pkg>>)
    reads set p | p in pkgs && p != null
    ensures |s| == |pkgs|
  {
    seq(|pkgs|, i requires 0 <= i < |pkgs| reads set p | p in pkgs && p != null =>
      if pkgs[i] == null then None else Some(ValueOf(pkgs[i])))
  }

  // ---- Specification ----

  /** One package found in one lockfile: the lockfile's base name, its directory, the package's identity. */
  datatype Locked = Locked(lock: string, dir: string, key: string)

  ghost predicate Locks(p: Option<Pkg>, r: Locked) {
    p.Some? && r.key == IdentityKey(p.value) && r.lock in MANIFEST_LOCKS.Values
    && exists l :: l in PathsOf(p.value.location) && Base(l) == r.lock && Dir(l) == r.dir
  }

  ghost predicate LockedIn(ps: seq<Option<Pkg>>, r: Locked) { exists p :: p in ps && Locks(p, r) }

  ghost predicate NoLocks(ps: seq<Option<Pkg>>) { forall r :: !LockedIn(ps, r) }

  /** The paired lockfile, here or in a directory above, contains the package. */
  ghost predicate Resolved(ps: seq<Option<Pkg>>, key: string, loc: string) {
    Base(loc) in MANIFEST_LOCKS
    && exists d :: AtOrAbove(d, DirOf(loc)) && LockedIn(ps, Locked(MANIFEST_LOCKS[Base(loc)], d.Show(), key))
  }

  ghost function Kept(ps: seq<Option<Pkg>>, key: string, locs: seq<string>): seq<string> {
    if locs == [] then []
    else Kept(ps, key, locs[..|locs| - 1]) + if Resolved(ps, key, locs[|locs| - 1]) then [] else [locs[|locs| - 1]]
  }

  /** What becomes of one package: nothing, when every path it had is resolved. */
  ghost function Outcome(ps: seq<Option<Pkg>>, p: Pkg): Option<Pkg> {
    var locs := PathsOf(p.location);
    var kept := Kept(ps, IdentityKey(p), locs);
    if locs == [] then Some(p)
    else if kept == [] then None
    else Some(p.(location := WithPaths(p.location, kept)))
  }

  /** What one entry of the list contributes to the result. */
  ghost function Fate(ps: seq<Option<Pkg>>, q: Option<Pkg>): seq<Option<Pkg>> {
    if q.None? then [q] else if Outcome(ps, q.value).None? then [] else [Outcome(ps, q.value)]
  }

  ghost function Outcomes(ps: seq<Option<Pkg>>, qs: seq<Option<Pkg>>): seq<Option<Pkg>> {
    if qs == [] then [] else Outcomes(ps, qs[..|qs| - 1]) + Fate(ps, qs[|qs| - 1])
  }

  ghost function Preferred(ps: seq<Option<Pkg>>): seq<Option<Pkg>> { if NoLocks(ps) then ps else Outcomes(ps, ps) }

  // ---- The algorithm ----

  /** Lockfile base name to directory to the identities found there. */
  type Contents = map<string, map<string, set<string>>>

  predicate Holds(c: Contents, r: Locked) { r.lock in c && r.dir in c[r.lock] && r.key in c[r.lock][r.dir] }

  method RecordLocation(c: Contents, key: string, loc: string) returns (c': Contents)
    ensures forall r :: Holds(c', r) <==>
              Holds(c, r) || (r == Locked(Base(loc), Dir(loc), key) && r.lock in MANIFEST_LOCKS.Values)
    ensures c' == map[] ==> c == map[]
    ensures c == map[] && c' != map[] ==> Base(loc) in MANIFEST_LOCKS.Values
  {
    c' := c;
    var base := Base(loc);
    if base in MANIFEST_LOCKS.Values {
      var dirs := if base in c then c[base] else map[];
      var dir := Dir(loc);
      var keys := if dir in dirs then dirs[dir] else {};
      c' := c[base := dirs[dir := keys + {key}]];
      assert base in c';
    }
  }

  ghost predicate Adds(key: string, locs: seq<string>, r: Locked) {
    r.key == key && r.lock in MANIFEST_LOCKS.Values && exists l :: l in locs && Base(l) == r.lock && Dir(l) == r.dir
  }

  ghost predicate Proper(c: Contents) { c != map[] ==> exists r :: Holds(c, r) }

  method RecordPackage(c: Contents, key: string, locs: seq<string>) returns (c': Contents)
    requires Proper(c)
    ensures Proper(c') && forall r :: Holds(c', r) <==> Holds(c, r) || Adds(key, locs, r)
  {
    c' := c;
    for j := 0 to |locs|
      invariant Proper(c') && forall r :: Holds(c', r) <==> Holds(c, r) || Adds(key, locs[..j], r)
    {
      assert locs[..j + 1] == locs[..j] + [locs[j]];
      ghost var before := c';
      c' := RecordLocation(c', key, locs[j]);
      if before == map[] && c' != map[] {
        assert Holds(c', Locked(Base(locs[j]), Dir(locs[j]), key));
      }
      forall r ensures Adds(key, locs[..j + 1], r) <==>
                       Adds(key, locs[..j], r) || (r == Locked(Base(locs[j]), Dir(locs[j]), key) && r.lock in MANIFEST_LOCKS.Values) {
        assert locs[j] in locs[..j + 1];
      }
      if before != map[] {
        var r :| Holds(before, r);
        assert Holds(c', r);
      }
    }
    assert locs[..|locs|] == locs;
  }

  ghost predicate Agrees(c: Contents, ps: seq<Option<Pkg>>) { forall r :: Holds(c, r) <==> LockedIn(ps, r) }

  method CollectLocks(pkgs: seq<Package?>) returns (c: Contents)
    ensures Agrees(c, Snapshot(pkgs))
    ensures c == map[] <==> NoLocks(Snapshot(pkgs))
  {
    c := map[];
    ghost var ps := Snapshot(pkgs);
    for i := 0 to |pkgs|
      invariant Agrees(c, ps[..i]) && Proper(c)
    {
      assert ps[..i + 1] == ps[..i] + [ps[i]];
      LockedInAppend(ps[..i], ps[i]);
      if pkgs[i] == null {
        continue;
      }
      var locs := PackagePaths(pkgs[i]);
      c := RecordPackage(c, pkgs[i].purlType + NUL + pkgs[i].name, locs);
    }
    assert ps[..|pkgs|] == ps;
  }

  lemma LockedInAppend(ps: seq<Option<Pkg>>, p: Option<Pkg>)
    ensures forall r :: LockedIn(ps + [p], r) <==>
              LockedIn(ps, r) || (p.Some? && Adds(IdentityKey(p.value), PathsOf(p.value.location), r))
  {
    forall r ensures Locks(p, r) <==> p.Some? && Adds(IdentityKey(p.value), PathsOf(p.value.location), r) {}
    assert p in ps + [p];
  }

  /** Climbs from the manifest's directory to the top, looking for the package in the paired lockfile. */
  method IsResolved(c: Contents, ghost ps: seq<Option<Pkg>>, key: string, loc: string) returns (found: bool)
    requires Agrees(c, ps)
    ensures found == Resolved(ps, key, loc)
  {
    if Base(loc) !in MANIFEST_LOCKS {
      return false;
    }
    var lock := MANIFEST_LOCKS[Base(loc)];
    if lock !in c || c[lock] == map[] {
      return false;
    }
    ghost var at := DirOf(loc);
    DirIsNormal(loc);
    var d := Dir(loc);
    while true
      invariant at.Normal() && d == at.Show() && AtOrAbove(at, DirOf(loc))
      invariant forall e :: AtOrAbove(e, DirOf(loc)) && |e.segs| > |at.segs| ==> !Holds(c, Locked(lock, e.Show(), key))
      decreases |at.segs|
    {
      forall e | AtOrAbove(e, DirOf(loc)) && |e.segs| == |at.segs| ensures e == at {}
      if d in c[lock] && key in c[lock][d] {
        assert Holds(c, Locked(lock, at.Show(), key));
        return true;
      }
      if at.segs != [] {
        ShowIsNotTop(at);
      }
      if d == "." || d == "/" {
        return false;
      }
      DirDropsLast(at);
      d := Dir(d);
      at := Clean(at.rooted, at.segs[..|at.segs| - 1]);
    }
  }

  method KeepUnresolved(c: Contents, ghost ps: seq<Option<Pkg>>, key: string, locs: seq<string>) returns (kept: seq<string>)
    requires Agrees(c, ps)
    ensures kept == Kept(ps, key, locs)
  {
    kept := [];
    for i := 0 to |locs|
      invariant kept == Kept(ps, key, locs[..i])
    {
      KeptStep(ps, key, locs, i);
      var gone := IsResolved(c, ps, key, locs[i]);
      if !gone {
        kept := kept + [locs[i]];
      }
    }
    assert locs[..|locs|] == locs;
  }

  lemma KeptStep(ps: seq<Option<Pkg>>, key: string, locs: seq<string>, i: nat)
    requires i < |locs|
    ensures Kept(ps, key, locs[..i + 1]) == Kept(ps, key, locs[..i]) + if Resolved(ps, key, locs[i]) then [] else [locs[i]]
  {
    assert locs[..i + 1][..i] == locs[..i];
  }

  lemma {:induction false} KeptElements(ps: seq<Option<Pkg>>, key: string, locs: seq<string>)
    ensures forall l :: l in Kept(ps, key, locs) <==> l in locs && !Resolved(ps, key, l)
  {
    if locs != [] {
      var n := |locs| - 1;
      assert locs == locs[..n] + [locs[n]];
      KeptElements(ps, key, locs[..n]);
    }
  }

  lemma {:induction false} KeptIsClean(ps: seq<Option<Pkg>>, key: string, locs: seq<string>)
    requires Locations.Clean(locs)
    ensures Locations.Clean(Kept(ps, key, locs))
  {
    if locs != [] {
      KeptIsClean(ps, key, locs[..|locs| - 1]);
      KeptElements(ps, key, locs[..|locs| - 1]);
      assert locs[|locs| - 1] !in locs[..|locs| - 1];
    }
  }

  lemma {:induction false} KeepsAll(ps: seq<Option<Pkg>>, key: string, locs: seq<string>)
    requires forall l :: l in locs ==> !Resolved(ps, key, l)
    ensures Kept(ps, key, locs) == locs
  {
    if locs != [] {
      assert locs == locs[..|locs| - 1] + [locs[|locs| - 1]];
      assert locs[|locs| - 1] in locs;
      KeepsAll(ps, key, locs[..|locs| - 1]);
    }
  }

  /** Looking at the same package again leads to the same outcome. */
  lemma OutcomeStable(ps: seq<Option<Pkg>>, p: Pkg)
    requires Outcome(ps, p).Some?
    ensures Outcome(ps, Outcome(ps, p).value) == Outcome(ps, p)
    ensures IdentityKey(Outcome(ps, p).value) == IdentityKey(p)
  {
    var locs, key := PathsOf(p.location), IdentityKey(p);
    if locs != [] {
      var kept := Kept(ps, key, locs);
      var q := Outcome(ps, p).value;
      PathsAreClean(p.location);
      KeptElements(ps, key, locs);
      KeptIsClean(ps, key, locs);
      RewriteIsStable(p.location, kept);
      PathsSurviveRewrite(p.location, kept);
      KeepsAll(ps, key, PathsOf(q.location));
    }
  }

  ghost function NewLocation(ps: seq<Option<Pkg>>, p: Pkg): PackageLocation {
    if Outcome(ps, p).Some? then Outcome(ps, p).value.location else p.location
  }

  /** One package of the second pass; `v` is its value before the pass. */
  method Settle(c: Contents, ghost ps: seq<Option<Pkg>>, pkg: Package, ghost v: Pkg) returns (keep: bool)
    requires Agrees(c, ps) && v.purlType == pkg.purlType && v.name == pkg.name
    requires pkg.location == v.location || pkg.location == NewLocation(ps, v)
    modifies pkg`location
    ensures keep == Outcome(ps, v).Some? && pkg.location == NewLocation(ps, v)
  {
    ghost var w := ValueOf(pkg);
    assert Outcome(ps, w) == Outcome(ps, v) && NewLocation(ps, w) == NewLocation(ps, v) by {
      if Outcome(ps, v).Some? {
        OutcomeStable(ps, v);
        assert w == v || w == Outcome(ps, v).value;
      }
    }
    var locations := PackagePaths(pkg);
    if locations == [] {
      return true;
    }
    var kept := KeepUnresolved(c, ps, pkg.purlType + NUL + pkg.name, locations);
    if kept == [] {
      return false;
    }
    SetPackagePaths(pkg, kept);
    return true;
  }

  /** The packages of `done` have been settled, the others are as they were. */
  ghost predicate Progress(start: map<Package, Pkg>, goal: map<Package, PackageLocation>, done: set<Package?>)
    requires start.Keys == goal.Keys
    reads start.Keys
  {
    forall p :: p in start ==> p.location == if p in done then goal[p] else start[p].location
  }

  /** `out` and the values `outs` name the same packages, all settled. */
  ghost predicate Settled(out: seq<Package?>, outs: seq<Option<Pkg>>, start: map<Package, Pkg>, goal: map<Package, PackageLocation>, done: set<Package?>)
    requires start.Keys == goal.Keys
  {
    |outs| == |out| && forall k :: 0 <= k < |out| ==>
      if out[k] == null then outs[k] == None
      else out[k] in done && out[k] in start && outs[k] == Some(start[out[k]].(location := goal[out[k]]))
  }

  /** Works on the packages in place, even when one occurs several times in the list. */
  method PreferLockfileResolutions(pkgs: seq<Package?>) returns (out: seq<Package?>)
    modifies (set p | p in pkgs && p != null)`location
    ensures Snapshot(out) == Preferred(old(Snapshot(pkgs)))
    ensures forall p :: p in out ==> p in pkgs
  {
    ghost var ps := Snapshot(pkgs);
    var c := CollectLocks(pkgs);
    if c == map[] {
      return pkgs;
    }
    ghost var start: map<Package, Pkg> := map p: Package | p in pkgs :: ValueOf(p);
    ghost var goal: map<Package, PackageLocation> := map p | p in start :: NewLocation(ps, start[p]);
    out := SettleAll(c, ps, pkgs, start, goal);
  }

  method SettleNext(c: Contents, ghost ps: seq<Option<Pkg>>, pkg: Package, ghost start: map<Package, Pkg>,
                    ghost goal: map<Package, PackageLocation>, ghost done: set<Package?>) returns (keep: bool)
    requires Agrees(c, ps) && start.Keys == goal.Keys && pkg in start && Progress(start, goal, done)
    requires start[pkg].purlType == pkg.purlType && start[pkg].name == pkg.name && goal[pkg] == NewLocation(ps, start[pkg])
    modifies pkg`location
    ensures Progress(start, goal, done + {pkg})
    ensures var o := Outcome(ps, start[pkg]); keep == o.Some? && (keep ==> o == Some(start[pkg].(location := goal[pkg])))
  {
    keep := Settle(c, ps, pkg, start[pkg]);
  }

  method SettleAll(c: Contents, ghost ps: seq<Option<Pkg>>, pkgs: seq<Package?>, ghost start: map<Package, Pkg>, ghost goal: map<Package, PackageLocation>)
    returns (out: seq<Package?>)
    requires Agrees(c, ps) && |ps| == |pkgs| && start.Keys == goal.Keys
    requires forall i :: 0 <= i < |pkgs| ==> if pkgs[i] == null then ps[i].None? else pkgs[i] in start && ps[i] == Some(start[pkgs[i]])
    requires forall p :: p in start ==> start[p] == ValueOf(p)
    requires forall p :: p in start ==> goal[p] == NewLocation(ps, start[p])
    modifies start.Keys`location
    ensures Snapshot(out) == Outcomes(ps, ps)
    ensures forall p :: p in out ==> p in pkgs
  {
    out := [];
    ghost var outs, done := [], {};
    for i := 0 to |pkgs|
      invariant Progress(start, goal, done)
      invariant forall p :: p in start ==> start[p].(location := p.location) == ValueOf(p)
      invariant outs == Outcomes(ps, ps[..i]) && Settled(out, outs, start, goal, done)
      invariant forall p :: p in out ==> p in pkgs
    {
      var pkg := pkgs[i];
      OutcomesStep(ps, ps, i);
      var keep := true;
      if pkg != null {
        keep := SettleNext(c, ps, pkg, start, goal, done);
        done := done + {pkg};
      }
      var fate := Fate(ps, ps[i]);
      assert fate == if keep then [if pkg == null then None else Some(start[pkg].(location := goal[pkg]))] else [];
      SettledGrows(out, outs, start, goal, done, pkg);
      outs := outs + fate;
      if keep {
        out := out + [pkg];
      }
    }
    assert ps[..|pkgs|] == ps;
  }

  lemma SettledGrows(out: seq<Package?>, outs: seq<Option<Pkg>>, start: map<Package, Pkg>, goal: map<Package, PackageLocation>,
                     done: set<Package?>, pkg: Package?)
    requires start.Keys == goal.Keys && Settled(out, outs, start, goal, done)
    requires pkg != null ==> pkg in start && pkg in done
    ensures Settled(out + [pkg], outs + [if pkg == null then None else Some(start[pkg].(location := goal[pkg]))], start, goal, done)
  {}

  lemma OutcomesStep(ps: seq<Option<Pkg>>, qs: seq<Option<Pkg>>, i: nat)
    requires i < |qs|
    ensures Outcomes(ps, qs[..i + 1]) == Outcomes(ps, qs[..i]) + Fate(ps, qs[i])
  {
    assert qs[..i + 1][..i] == qs[..i];
  }

  // ---- What the pass guarantees ----

  lemma FateElements(ps: seq<Option<Pkg>>, q: Option<Pkg>, w: Pkg)
    ensures Some(w) in Fate(ps, q) <==> q.Some? && Outcome(ps, q.value) == Some(w)
  {}

  lemma {:induction false} FateIsThere(ps: seq<Option<Pkg>>, qs: seq<Option<Pkg>>, i: nat, w: Pkg)
    requires i < |qs| && Some(w) in Fate(ps, qs[i])
    ensures Some(w) in Outcomes(ps, qs)
  {
    if i < |qs| - 1 {
      FateIsThere(ps, qs[..|qs| - 1], i, w);
    }
  }

  lemma {:induction false} FateComesFrom(ps: seq<Option<Pkg>>, qs: seq<Option<Pkg>>, w: Pkg) returns (i: nat)
    requires Some(w) in Outcomes(ps, qs)
    ensures i < |qs| && Some(w) in Fate(ps, qs[i])
  {
    i := |qs| - 1;
    if Some(w) !in Fate(ps, qs[i]) {
      i := FateComesFrom(ps, qs[..i], w);
    }
  }

  lemma OutcomeIsThere(ps: seq<Option<Pkg>>, p: Pkg)
    requires Some(p) in ps && Outcome(ps, p).Some?
    ensures Outcome(ps, p) in Outcomes(ps, ps)
  {
    var i :| 0 <= i < |ps| && ps[i] == Some(p);
    FateElements(ps, ps[i], Outcome(ps, p).value);
    FateIsThere(ps, ps, i, Outcome(ps, p).value);
  }

  lemma OutcomeComesFrom(ps: seq<Option<Pkg>>, w: Pkg) returns (v: Pkg)
    requires Some(w) in Outcomes(ps, ps)
    ensures Some(v) in ps && Outcome(ps, v) == Some(w)
  {
    var i := FateComesFrom(ps, ps, w);
    FateElements(ps, ps[i], w);
    v := ps[i].value;
    assert ps[i] in ps;
  }

  /** How many entries of a list are nil. */
  ghost function Absent(qs: seq<Option<Pkg>>): nat {
    if qs == [] then 0 else Absent(qs[..|qs| - 1]) + if qs[|qs| - 1] == None then 1 else 0
  }

  lemma AbsentBehind(qs: seq<Option<Pkg>>, more: seq<Option<Pkg>>)
    requires |more| <= 1
    ensures Absent(qs + more) == Absent(qs) + Absent(more)
  {
    if more == [] {
      assert qs + more == qs;
    } else {
      assert (qs + more)[..|qs|] == qs && more[..0] == [];
    }
  }

  /** Absent entries of the list stay as many as they were. */
  lemma {:induction false} AbsentStay(ps: seq<Option<Pkg>>, qs: seq<Option<Pkg>>)
    ensures Absent(Outcomes(ps, qs)) == Absent(qs)
  {
    if qs != [] {
      AbsentStay(ps, qs[..|qs| - 1]);
      FateSize(ps, qs[|qs| - 1]);
      AbsentBehind(Outcomes(ps, qs[..|qs| - 1]), Fate(ps, qs[|qs| - 1]));
    }
  }

  /** Of the packages only the dropped ones go. */
  lemma {:induction false} NothingElseGoes(ps: seq<Option<Pkg>>, qs: seq<Option<Pkg>>)
    requires forall q :: q in qs ==> q.None? || Outcome(ps, q.value).Some?
    ensures |Outcomes(ps, qs)| == |qs|
  {
    if qs != [] {
      NothingElseGoes(ps, qs[..|qs| - 1]);
      FateSize(ps, qs[|qs| - 1]);
    }
  }

  lemma FateSize(ps: seq<Option<Pkg>>, q: Option<Pkg>)
    ensures Absent(Fate(ps, q)) == if q.None? then 1 else 0
    ensures |Fate(ps, q)| == if q.None? || Outcome(ps, q.value).Some? then 1 else 0
  {
    assert [q][..0] == [];
  }

  /** A lockfile's own location is never removed, so a package found in a lockfile always stays. */
  lemma LockLocationsStay(ps: seq<Option<Pkg>>, p: Pkg, r: Locked)
    requires Locks(Some(p), r)
    ensures Outcome(ps, p).Some? && Locks(Outcome(ps, p), r)
  {
    var l :| l in PathsOf(p.location) && Base(l) == r.lock && Dir(l) == r.dir;
    assert !Resolved(ps, r.key, l);
    KeptElements(ps, r.key, PathsOf(p.location));
    PathsSurviveRewrite(p.location, Kept(ps, r.key, PathsOf(p.location)));
    PathsAreClean(p.location);
    OutcomeStable(ps, p);
  }

  /** A location is removed exactly when its base name is a manifest's and the paired lockfile, in the same
      directory or one above it, contains a package of the same identity; all others stay. */
  lemma RemovedExactly(ps: seq<Option<Pkg>>, p: Pkg, l: string)
    requires l in PathsOf(p.location) && !NoLocks(ps)
    ensures var removed := Base(l) in MANIFEST_LOCKS
              && exists q, m :: Some(q) in ps && IdentityKey(q) == IdentityKey(p) && m in PathsOf(q.location)
                                && Base(m) == MANIFEST_LOCKS[Base(l)] && AtOrAbove(DirOf(m), DirOf(l));
            removed <==> Outcome(ps, p).None? || l !in PathsOf(Outcome(ps, p).value.location)
    ensures Outcome(ps, p).Some? ==> forall m :: m in PathsOf(Outcome(ps, p).value.location) ==> m in PathsOf(p.location)
  {
    var key, locs := IdentityKey(p), PathsOf(p.location);
    KeptElements(ps, key, locs);
    PathsAreClean(p.location);
    PathsSurviveRewrite(p.location, Kept(ps, key, locs));
    if Base(l) in MANIFEST_LOCKS {
      ResolvedMeans(ps, key, l);
    }
  }

  ghost predicate ResolvedByPackage(ps: seq<Option<Pkg>>, key: string, l: string)
    requires Base(l) in MANIFEST_LOCKS
  {
    exists q, m :: Some(q) in ps && IdentityKey(q) == key && m in PathsOf(q.location)
                   && Base(m) == MANIFEST_LOCKS[Base(l)] && AtOrAbove(DirOf(m), DirOf(l))
  }

  lemma ResolvedMeans(ps: seq<Option<Pkg>>, key: string, l: string)
    requires Base(l) in MANIFEST_LOCKS
    ensures Resolved(ps, key, l) <==> ResolvedByPackage(ps, key, l)
  {
    var lock := MANIFEST_LOCKS[Base(l)];
    if d :| AtOrAbove(d, DirOf(l)) && LockedIn(ps, Locked(lock, d.Show(), key)) {
      LockHasPackage(ps, key, l, d);
    }
    if q, m :| Some(q) in ps && IdentityKey(q) == key && m in PathsOf(q.location) && Base(m) == lock && AtOrAbove(DirOf(m), DirOf(l)) {
      assert lock in MANIFEST_LOCKS.Values;
      assert Locks(Some(q), Locked(lock, DirOf(m).Show(), key));
      assert LockedIn(ps, Locked(lock, DirOf(m).Show(), key));
    }
  }

  lemma LockHasPackage(ps: seq<Option<Pkg>>, key: string, l: string, d: Paths.Clean)
    requires Base(l) in MANIFEST_LOCKS && AtOrAbove(d, DirOf(l)) && LockedIn(ps, Locked(MANIFEST_LOCKS[Base(l)], d.Show(), key))
    ensures ResolvedByPackage(ps, key, l)
  {
    var lock := MANIFEST_LOCKS[Base(l)];
    var q :| q in ps && Locks(q, Locked(lock, d.Show(), key));
    var m :| m in PathsOf(q.value.location) && Base(m) == lock && Dir(m) == d.Show();
    DirIsNormal(l);
    AboveIsNormal(d, DirOf(l));
    DirIsNormal(m);
    ShowInjective(DirOf(m), d);
    assert Some(q.value) in ps;
  }

  /** No identity key is ever lost. */
  lemma IdentityKeysSurvive(ps: seq<Option<Pkg>>, p: Pkg)
    requires Some(p) in ps
    ensures exists q :: Some(q) in Preferred(ps) && IdentityKey(q) == IdentityKey(p)
  {
    if !NoLocks(ps) {
      var key, locs := IdentityKey(p), PathsOf(p.location);
      if Outcome(ps, p).Some? {
        OutcomeStable(ps, p);
        OutcomeIsThere(ps, p);
      } else {
        KeptElements(ps, key, locs);
        assert locs[0] in locs && Resolved(ps, key, locs[0]);
        ResolvedMeans(ps, key, locs[0]);
        var q, m :| Some(q) in ps && IdentityKey(q) == key && m in PathsOf(q.location)
                    && Base(m) == MANIFEST_LOCKS[Base(locs[0])] && AtOrAbove(DirOf(m), DirOf(locs[0]));
        LockLocationsStay(ps, q, Locked(Base(m), Dir(m), key));
        OutcomeIsThere(ps, q);
      }
    }
  }

  /** For packages whose type holds no NUL, the key is the pair (type, name), and no pair is lost. */
  lemma IdentitiesSurvive(ps: seq<Option<Pkg>>, p: Pkg)
    requires Some(p) in ps && forall q :: Some(q) in ps ==> NUL[0] !in q.purlType
    ensures exists q :: Some(q) in Preferred(ps) && q.purlType == p.purlType && q.name == p.name
  {
    IdentityKeysSurvive(ps, p);
    var q :| Some(q) in Preferred(ps) && IdentityKey(q) == IdentityKey(p);
    PreferredComesFrom(ps, q);
    KeysSeparate(q, p);
  }

  lemma PreferredComesFrom(ps: seq<Option<Pkg>>, w: Pkg)
    requires Some(w) in Preferred(ps)
    ensures exists v :: Some(v) in ps && v.purlType == w.purlType && v.name == w.name
  {
    if !NoLocks(ps) {
      var v := OutcomeComesFrom(ps, w);
    }
  }

  /** Every location of the package is resolved, so the pass drops the package. */
  ghost predicate FullyResolved(ps: seq<Option<Pkg>>, p: Pkg) {
    PathsOf(p.location) != [] && forall l :: l in PathsOf(p.location) ==> Resolved(ps, IdentityKey(p), l)
  }

  ghost predicate SamePair(p: Pkg, q: Pkg) { p.purlType == q.purlType && p.name == q.name }

  ghost predicate PairIn(ps: seq<Option<Pkg>>, p: Pkg) { exists q :: Some(q) in ps && SamePair(q, p) }

  ghost predicate PairUnresolved(ps: seq<Option<Pkg>>, p: Pkg) {
    exists q :: Some(q) in ps && SamePair(q, p) && !FullyResolved(ps, q)
  }

  lemma DroppedExactly(ps: seq<Option<Pkg>>, p: Pkg)
    ensures Outcome(ps, p).None? <==> FullyResolved(ps, p)
  {
    var locs, key := PathsOf(p.location), IdentityKey(p);
    KeptElements(ps, key, locs);
    if locs != [] && Kept(ps, key, locs) != [] {
      assert Kept(ps, key, locs)[0] in Kept(ps, key, locs);
    }
  }

  lemma NothingIsResolved(ps: seq<Option<Pkg>>, p: Pkg)
    requires NoLocks(ps)
    ensures !FullyResolved(ps, p)
  {
    if PathsOf(p.location) != [] {
      assert PathsOf(p.location)[0] in PathsOf(p.location);
    }
  }

  /** A pair (type, name) stays exactly when some package of that pair has an unresolved location or none at all. */
  lemma PairSurvivesExactly(ps: seq<Option<Pkg>>, p: Pkg)
    ensures PairIn(Preferred(ps), p) <==> PairUnresolved(ps, p)
  {
    if NoLocks(ps) {
      forall q ensures !FullyResolved(ps, q) { NothingIsResolved(ps, q); }
    } else {
      if q :| Some(q) in ps && SamePair(q, p) && !FullyResolved(ps, q) {
        PairStays(ps, q);
      }
      if w :| Some(w) in Preferred(ps) && SamePair(w, p) {
        PairWasThere(ps, w);
      }
    }
  }

  lemma PairStays(ps: seq<Option<Pkg>>, q: Pkg)
    requires !NoLocks(ps) && Some(q) in ps && !FullyResolved(ps, q)
    ensures PairIn(Preferred(ps), q)
  {
    DroppedExactly(ps, q);
    OutcomeIsThere(ps, q);
    assert SamePair(Outcome(ps, q).value, q);
  }

  lemma PairWasThere(ps: seq<Option<Pkg>>, w: Pkg)
    requires !NoLocks(ps) && Some(w) in Preferred(ps)
    ensures PairUnresolved(ps, w)
  {
    var v := OutcomeComesFrom(ps, w);
    DroppedExactly(ps, v);
    assert SamePair(v, w);
  }

  /** No pair is lost exactly when every package that is dropped shares its pair with one that is not fully resolved. */
  lemma PairsSurviveExactly(ps: seq<Option<Pkg>>)
    ensures (forall p :: Some(p) in ps ==> PairIn(Preferred(ps), p)) <==>
            (forall p :: Some(p) in ps && FullyResolved(ps, p) ==> PairUnresolved(ps, p))
  {
    forall p ensures PairIn(Preferred(ps), p) <==> PairUnresolved(ps, p) { PairSurvivesExactly(ps, p); }
    forall p | Some(p) in ps && !FullyResolved(ps, p) ensures PairUnresolved(ps, p) { assert SamePair(p, p); }
  }

  lemma KeysSeparate(p: Pkg, q: Pkg)
    requires IdentityKey(p) == IdentityKey(q) && NUL[0] !in p.purlType && NUL[0] !in q.purlType
    ensures p.purlType == q.purlType && p.name == q.name
  {
    var k := IdentityKey(p);
    assert forall i :: 0 <= i < |p.purlType| ==> k[i] == p.purlType[i] && p.purlType[i] in p.purlType;
    assert forall i :: 0 <= i < |q.purlType| ==> k[i] == q.purlType[i] && q.purlType[i] in q.purlType;
    assert k[|p.purlType|] == NUL[0] && k[|q.purlType|] == NUL[0];
    assert |p.purlType| == |q.purlType|;
    assert p.purlType == k[..|p.purlType|] && q.purlType == k[..|q.purlType|];
    assert p.name == k[|p.purlType| + 1..] && q.name == k[|q.purlType| + 1..];
  }

  /** With a NUL in a package type two different pairs share a key, and one of them can be lost. */
  lemma NulCanLoseAnIdentity() returns (ps: seq<Option<Pkg>>, p: Pkg)
    ensures Some(p) in ps && !PairIn(Preferred(ps), p)
  {
    var a, b, c := "a", "b", "c";
    var lock := Pkg(a + NUL + b, c, PackageLocation(Some(FromPath("Cargo.lock")), []));
    p := Pkg(a, b + NUL + c, PackageLocation(Some(FromPath("Cargo.toml")), []));
    ps := [Some(lock), Some(p)];
    assert IdentityKey(lock) == IdentityKey(p) by { assert (a + NUL + b) + NUL + c == a + NUL + (b + NUL + c); }
    OnePath("Cargo.lock");
    OnePath("Cargo.toml");
    assert |p.purlType| == 1 && |lock.purlType| == 3;
    ManifestIsLost(ps, lock, p);
  }

  lemma ManifestIsLost(ps: seq<Option<Pkg>>, lock: Pkg, p: Pkg)
    requires ps == [Some(lock), Some(p)] && IdentityKey(lock) == IdentityKey(p) && lock.purlType != p.purlType
    requires PathsOf(lock.location) == ["Cargo.lock"] && PathsOf(p.location) == ["Cargo.toml"]
    ensures Some(p) in ps && !PairIn(Preferred(ps), p)
  {
    ManifestIsDropped(ps, lock, p);
    DroppedExactly(ps, p);
    PairSurvivesExactly(ps, p);
    assert Some(p) == ps[1];
  }

  lemma ManifestIsDropped(ps: seq<Option<Pkg>>, lock: Pkg, p: Pkg)
    requires ps == [Some(lock), Some(p)] && IdentityKey(lock) == IdentityKey(p)
    requires PathsOf(lock.location) == ["Cargo.lock"] && PathsOf(p.location) == ["Cargo.toml"]
    ensures Outcome(ps, p).None?
    ensures !NoLocks(ps)
  {
    var key := IdentityKey(p);
    TopLevelFile("Cargo.lock");
    TopLevelFile("Cargo.toml");
    assert MANIFEST_LOCKS["Cargo.toml"] == "Cargo.lock" && "Cargo.lock" in MANIFEST_LOCKS.Values;
    assert Locks(ps[0], Locked("Cargo.lock", Dir("Cargo.lock"), key));
    assert LockedIn(ps, Locked("Cargo.lock", Dir("Cargo.lock"), key));
    assert AtOrAbove(DirOf("Cargo.lock"), DirOf("Cargo.toml"));
    assert Resolved(ps, key, "Cargo.toml");
    assert Kept(ps, key, ["Cargo.toml"]) == Kept(ps, key, ["Cargo.toml"][..0]) + [] == [];
  }

  lemma OnePath(f: string)
    requires f != ""
    ensures PathsOf(PackageLocation(Some(FromPath(f)), [])) == [f]
  {
    assert [f] + LocationPaths([]) == [f];
    assert AppendAll([], [f]) == AppendAll([f], []);
  }

  lemma TopLevelFile(f: string)
    requires f == "Cargo.lock" || f == "Cargo.toml"
    ensures Base(f) == f && DirOf(f) == Clean(false, [])
  {
    SplitName(f);
  }

  /** Running the pass on its own result changes nothing. */
  lemma PreferredIdempotent(ps: seq<Option<Pkg>>)
    ensures Preferred(Preferred(ps)) == Preferred(ps)
  {
    if !NoLocks(ps) {
      var out := Outcomes(ps, ps);
      forall r ensures LockedIn(out, r) <==> LockedIn(ps, r) {
        LocksSurvive(ps, r);
      }
      SameLocksSameOutcomes(ps, out, out);
      SettledStay(ps, ps);
    }
  }

  lemma LockStays(ps: seq<Option<Pkg>>, r: Locked)
    requires LockedIn(ps, r)
    ensures LockedIn(Outcomes(ps, ps), r)
  {
    var p :| p in ps && Locks(p, r);
    LockLocationsStay(ps, p.value, r);
    OutcomeIsThere(ps, p.value);
  }

  lemma LockWasThere(ps: seq<Option<Pkg>>, v: Pkg, r: Locked)
    requires Locks(Outcome(ps, v), r)
    ensures Locks(Some(v), r)
  {
    OutcomeStable(ps, v);
    var l :| l in PathsOf(Outcome(ps, v).value.location) && Base(l) == r.lock && Dir(l) == r.dir;
    if PathsOf(v.location) != [] {
      KeptElements(ps, r.key, PathsOf(v.location));
      PathsSurviveRewrite(v.location, Kept(ps, r.key, PathsOf(v.location)));
    }
    assert l in PathsOf(v.location);
  }

  lemma LocksSurvive(ps: seq<Option<Pkg>>, r: Locked)
    ensures LockedIn(Outcomes(ps, ps), r) <==> LockedIn(ps, r)
  {
    if LockedIn(ps, r) {
      LockStays(ps, r);
    }
    if w :| w in Outcomes(ps, ps) && Locks(w, r) {
      var v := OutcomeComesFrom(ps, w.value);
      LockWasThere(ps, v, r);
    }
  }

  lemma {:induction false} SameLocksSameKept(ps: seq<Option<Pkg>>, qs: seq<Option<Pkg>>, key: string, locs: seq<string>)
    requires forall r :: LockedIn(ps, r) <==> LockedIn(qs, r)
    ensures Kept(ps, key, locs) == Kept(qs, key, locs)
  {
    if locs != [] {
      SameLocksSameKept(ps, qs, key, locs[..|locs| - 1]);
      assert Resolved(ps, key, locs[|locs| - 1]) <==> Resolved(qs, key, locs[|locs| - 1]);
    }
  }

  lemma {:induction false} SameLocksSameOutcomes(ps: seq<Option<Pkg>>, qs: seq<Option<Pkg>>, vs: seq<Option<Pkg>>)
    requires forall r :: LockedIn(ps, r) <==> LockedIn(qs, r)
    ensures Outcomes(ps, vs) == Outcomes(qs, vs)
  {
    if vs != [] {
      SameLocksSameOutcomes(ps, qs, vs[..|vs| - 1]);
      var v := vs[|vs| - 1];
      if v.Some? {
        SameLocksSameKept(ps, qs, IdentityKey(v.value), PathsOf(v.value.location));
      }
    }
  }

  lemma {:induction false} SettledStay(ps: seq<Option<Pkg>>, vs: seq<Option<Pkg>>)
    ensures Outcomes(ps, Outcomes(ps, vs)) == Outcomes(ps, vs)
  {
    if vs != [] {
      var n := |vs| - 1;
      SettledStay(ps, vs[..n]);
      var head := Outcomes(ps, vs[..n]);
      if vs[n].Some? && Outcome(ps, vs[n].value).Some? {
        OutcomeStable(ps, vs[n].value);
      }
      if Outcomes(ps, vs) != head {
        assert Outcomes(ps, vs)[..|head|] == head;
      }
    }
  }
}

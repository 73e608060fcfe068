// internal/compare/compare.go: the dependency delta between two package lists, as a patch.
module PackageDiff {
  import opened Options
  import opened Text
  import opened Order

  datatype Kind = Upgraded | Downgraded | Added | Removed | Updated

  datatype Package = Package(name: string, version: string, ecosystem: string, purlType: string)

  /** What `summarizePackage` extracts: the comparison key and the identity shown to the user. */
  datatype Summary = Summary(key: string, name: string, version: string, ecosystem: string)

  datatype Change = Change(
    kind: Kind, name: string, version: string, ecosystem: string,
    baseVersion: string, targetVersion: string, oldName: string, direct: bool)

  datatype Comparator = GoVersions | Semantic(name: string) | NoComparator

  /** The parts of a comparison that come from outside: the table of semantic versioning names, the version
      comparators (base and target; None when the versions do not compare), the canonical form of a Go
      import path, module exclusion, and directness. */
  datatype Rules = Rules(
    semantic: string -> Option<string>,
    compare: (Comparator, string, string) -> Option<int>,
    goCanonical: string -> string,
    excluded: Summary -> bool,
    direct: Summary -> bool)

  // ---- Ecosystems ----

  function LowerChar(c: char): char { if 'A' <= c <= 'Z' then c + 32 as char else c }

  function Lower(s: string): string { seq(|s|, i requires 0 <= i < |s| => LowerChar(s[i])) }

  const DISTRIBUTIONS: set<string> :=
    {"debian", "ubuntu", "alpine", "fedora", "centos", "rhel", "rocky", "alma", "opensuse", "sles"}

  /** What precedes the first colon: all of it when there is none. */
  function BeforeColon(s: string): string { if s == "" || s[0] == ':' then "" else [s[0]] + BeforeColon(s[1..]) }

  /** The version suffix of a known distribution is dropped. */
  function NormalEcosystem(ecosystem: string): string {
    var low := Lower(TrimSpace(ecosystem));
    if ':' in low && BeforeColon(low) in DISTRIBUTIONS then BeforeColon(low) else low
  }

  /** The comparator drops the suffix of any ecosystem. */
  function ComparatorFor(rules: Rules, ecosystem: string): Comparator {
    var low := Lower(TrimSpace(ecosystem));
    if low == "go" || low == "golang" then GoVersions
    else match rules.semantic(BeforeColon(low))
      case None => NoComparator
      case Some(name) => Semantic(name)
  }

  function EcosystemName(s: Summary): string { if TrimSpace(s.ecosystem) != "" then s.ecosystem else "unknown" }

  function SelectChangeType(rules: Rules, ecosystem: string, base: string, target: string): Kind {
    match ComparatorFor(rules, ecosystem)
    case NoComparator => Updated
    case comparator =>
      match rules.compare(comparator, base, target)
      case Some(c) => if c > 0 then Upgraded else if c < 0 then Downgraded else Updated
      case None => Updated
  }

  function Compared(rules: Rules, ecosystem: string, a: string, b: string): Option<int> {
    match ComparatorFor(rules, ecosystem)
    case NoComparator => None
    case c => rules.compare(c, a, b)
  }

  // ---- Keys ----

  predicate IsSeparator(c: char) { c == '-' || c == '_' || c == '.' }

  /** Runs of separators become one hyphen. */
  function PyPIName(name: string, inSeparator: bool): string {
    if name == "" then ""
    else if !IsSeparator(name[0]) then [name[0]] + PyPIName(name[1..], false)
    else (if inSeparator then "" else "-") + PyPIName(name[1..], true)
  }

  lemma PyPIStep(name: string, i: nat, inSeparator: bool)
    requires i < |name|
    ensures PyPIName(name[i..], inSeparator)
         == (if !IsSeparator(name[i]) then [name[i]] else if inSeparator then "" else "-")
            + PyPIName(name[i + 1..], IsSeparator(name[i]))
  {
    assert name[i..][0] == name[i] && name[i..][1..] == name[i + 1..];
  }

  method NormalizePyPIName(name: string) returns (result: string)
    ensures result == PyPIName(Lower(name), false)
  {
    var low := Lower(name);
    result := "";
    var inSeparator := false;
    for i := 0 to |low|
      invariant PyPIName(low, false) == result + PyPIName(low[i..], inSeparator)
    {
      PyPIStep(low, i, inSeparator);
      if IsSeparator(low[i]) {
        if !inSeparator {
          result := result + "-";
          inSeparator := true;
        }
      } else {
        result := result + [low[i]];
        inSeparator := false;
      }
    }
  }

  function CargoName(name: string): string {
    seq(|name|, i requires 0 <= i < |name| => if name[i] == '-' then '_' else name[i])
  }

  /** The name that packages are matched by. */
  function MatchName(ecosystem: string, name: string): string {
    if ecosystem in {"pypi", "pip", "pipenv", "poetry", "python"} then PyPIName(name, false)
    else if ecosystem in {"cargo", "crates.io", "rust"} then CargoName(name)
    else name
  }

  predicate IsRelativePathModule(name: string) { "./" <= name || "../" <= name || name == "." || name == ".." }

  function EcosystemOf(p: Package): string {
    var e := TrimSpace(p.ecosystem);
    if e == "" && p.purlType != "" then p.purlType else e
  }

  function Summarize(rules: Rules, p: Package): Option<Summary> {
    var e := EcosystemOf(p);
    if p.name == "" then None
    else if Lower(e) == "go" then
      if IsRelativePathModule(p.name) then None
      else Some(Summary("go|" + Lower(rules.goCanonical(p.name)), p.name, p.version, e))
    else
      var name := MatchName(NormalEcosystem(e), Lower(p.name));
      Some(Summary(if e == "" then name else NormalEcosystem(e) + "|" + name, p.name, p.version, e))
  }

  // ---- Which packages match ----

  predicate Separators(run: string) { run != "" && forall c :: c in run ==> c in {'-', '_', '.'} }

  lemma {:induction false} PyPIKeepsPlain(name: string, inSeparator: bool)
    requires forall c :: c in name ==> c !in {'-', '_', '.'}
    ensures PyPIName(name, inSeparator) == name
  {
    if name != "" {
      assert name[0] in name && name == [name[0]] + name[1..];
      assert forall c :: c in name[1..] ==> c in name;
      PyPIKeepsPlain(name[1..], false);
    }
  }

  lemma {:induction false} PyPIRun(run: string, rest: string, inSeparator: bool)
    requires Separators(run)
    ensures PyPIName(run + rest, inSeparator) == (if inSeparator then "" else "-") + PyPIName(rest, true)
  {
    assert run[0] in run && (run + rest)[1..] == run[1..] + rest;
    if |run| > 1 {
      assert forall c :: c in run[1..] ==> c in run;
      PyPIRun(run[1..], rest, true);
    }
  }

  lemma {:induction false} PyPIAppend(a: string, b: string, inSeparator: bool)
    ensures PyPIName(a + b, inSeparator)
         == PyPIName(a, inSeparator) + PyPIName(b, if a == "" then inSeparator else IsSeparator(a[|a| - 1]))
  {
    if a == "" {
      assert a + b == b;
    } else {
      assert (a + b)[1..] == a[1..] + b && (a + b)[0] == a[0];
      PyPIAppend(a[1..], b, IsSeparator(a[0]));
    }
  }

  lemma PyPISplits(a: string, run: string, rest: string)
    requires a != "" && a[|a| - 1] !in {'-', '_', '.'} && Separators(run)
    requires rest == "" || rest[0] !in {'-', '_', '.'}
    ensures PyPIName(a + run + rest, false) == PyPIName(a, false) + "-" + PyPIName(rest, false)
  {
    assert a + run + rest == a + (run + rest);
    PyPIAppend(a, run + rest, false);
    PyPIRun(run, rest, false);
    assert PyPIName(rest, true) == PyPIName(rest, false);
  }

  /** Python names match up to the spelling of their separators: every run of hyphens, underscores and dots
      becomes one hyphen, and nothing else changes. */
  lemma PythonNames(e: string, a: string, run: string, rest: string)
    requires e == "pypi" || e == "pip" || e == "pipenv" || e == "poetry" || e == "python"
    requires a != "" && a[|a| - 1] !in {'-', '_', '.'} && Separators(run)
    requires rest == "" || rest[0] !in {'-', '_', '.'}
    ensures MatchName(e, a + run + rest) == MatchName(e, a) + "-" + MatchName(e, rest)
    ensures (forall c :: c in a ==> c !in {'-', '_', '.'}) ==> MatchName(e, a) == a
  {
    PyPISplits(a, run, rest);
    if forall c :: c in a ==> c !in {'-', '_', '.'} {
      PyPIKeepsPlain(a, false);
    }
  }

  /** Rust names match up to hyphen and underscore. */
  lemma RustNames(e: string, a: string, b: string)
    requires e == "cargo" || e == "crates.io" || e == "rust"
    ensures MatchName(e, a) == MatchName(e, b) <==>
            |a| == |b| && forall i :: 0 <= i < |a| ==> a[i] == b[i] || (a[i] in {'-', '_'} && b[i] in {'-', '_'})
  {
    assert MatchName(e, a) == CargoName(a) && MatchName(e, b) == CargoName(b);
    if CargoName(a) == CargoName(b) {
      forall i | 0 <= i < |a| ensures a[i] == b[i] || (a[i] in {'-', '_'} && b[i] in {'-', '_'}) {
        assert CargoName(a)[i] == CargoName(b)[i];
      }
    }
  }

  lemma OtherNames(e: string, a: string)
    requires e !in {"pypi", "pip", "pipenv", "poetry", "python", "cargo", "crates.io", "rust"}
    ensures MatchName(e, a) == a
  {}

  lemma {:induction false} BeforeColonIs(d: string, rest: string)
    requires ':' !in d
    ensures BeforeColon(d + ":" + rest) == d
  {
    var s := d + ":" + rest;
    if d != "" {
      assert d[0] in d && s[1..] == d[1..] + ":" + rest;
      BeforeColonIs(d[1..], rest);
    } else {
      assert s[0] == ':';
    }
  }

  predicate Versioned(d: string) {
    d == "debian" || d == "ubuntu" || d == "alpine" || d == "fedora" || d == "centos"
    || d == "rhel" || d == "rocky" || d == "alma" || d == "opensuse" || d == "sles"
  }

  /** The releases of a distribution count as one ecosystem; no other ecosystem loses a suffix. */
  lemma DistributionReleases(e: string, d: string, release: string)
    requires Lower(TrimSpace(e)) == d + ":" + release && ':' !in d
    ensures NormalEcosystem(e) == if Versioned(d) then d else d + ":" + release
  {
    var low := d + ":" + release;
    assert low[|d|] == ':';
    BeforeColonIs(d, release);
  }

  /** Go versions have their own comparator; every other ecosystem has that of its semantic name, whatever
      release stands behind a colon. */
  lemma ComparatorNamed(rules: Rules, e: string, d: string, release: string)
    requires ':' !in d
    ensures Lower(TrimSpace(e)) == d ==>
              (ComparatorFor(rules, e) == GoVersions <==> d == "go" || d == "golang")
              && (d != "go" && d != "golang" && rules.semantic(d).Some? ==>
                    ComparatorFor(rules, e) == Semantic(rules.semantic(d).value))
              && (d != "go" && d != "golang" && rules.semantic(d).None? ==> ComparatorFor(rules, e) == NoComparator)
    ensures Lower(TrimSpace(e)) == d + ":" + release ==>
              (rules.semantic(d).Some? ==> ComparatorFor(rules, e) == Semantic(rules.semantic(d).value))
              && (rules.semantic(d).None? ==> ComparatorFor(rules, e) == NoComparator)
  {
    BeforeColonIs(d, release);
    BeforeNoColon(d);
    assert (d + ":" + release)[|d|] == ':' && ':' !in "go" && ':' !in "golang";
  }

  lemma {:induction false} BeforeNoColon(d: string)
    requires ':' !in d
    ensures BeforeColon(d) == d
  {
    if d != "" {
      BeforeNoColon(d[1..]);
    }
  }

  /** Letters are compared without case. */
  lemma LowerMeans(s: string, i: nat)
    requires i < |s|
    ensures |Lower(s)| == |s|
    ensures 'A' <= s[i] <= 'Z' ==> 'a' <= Lower(s)[i] <= 'z' && Lower(s)[i] as int - 'a' as int == s[i] as int - 'A' as int
    ensures !('A' <= s[i] <= 'Z') ==> Lower(s)[i] == s[i]
  {}

  /** What a key depends on: a package without ecosystem goes by its PURL type, and two packages of the same
      normal ecosystem whose names match in lower case have the same key. */
  lemma SameKeyWhen(rules: Rules, p: Package, q: Package)
    requires p.name != "" && q.name != ""
    requires TrimSpace(p.ecosystem) != "" && Lower(TrimSpace(p.ecosystem)) != "go"
    requires NormalEcosystem(TrimSpace(p.ecosystem)) == NormalEcosystem(q.purlType)
    requires q.purlType != "" && TrimSpace(q.ecosystem) == "" && Lower(q.purlType) != "go"
    requires MatchName(NormalEcosystem(q.purlType), Lower(p.name)) == MatchName(NormalEcosystem(q.purlType), Lower(q.name))
    ensures Summarize(rules, p).Some? && Summarize(rules, q).Some?
    ensures Summarize(rules, p).value.key == Summarize(rules, q).value.key
  {}

  /** Left out are packages without a name and Go modules replaced by a relative path. */
  lemma SkippedExactly(rules: Rules, p: Package)
    ensures Summarize(rules, p).None? <==>
            p.name == "" || ((Lower(TrimSpace(p.ecosystem)) == "go" || (TrimSpace(p.ecosystem) == "" && Lower(p.purlType) == "go"))
                             && (p.name == "." || p.name == ".." || "./" <= p.name || "../" <= p.name))
  {}

  // ---- Indexing ----

  type Index = map<string, Summary>

  predicate Indexed(rules: Rules, p: Option<Package>) {
    p.Some? && Summarize(rules, p.value).Some? && Summarize(rules, p.value).value.key != ""
    && !rules.excluded(Summarize(rules, p.value).value)
  }

  function Entry(rules: Rules, p: Option<Package>): Option<Summary> {
    if Indexed(rules, p) then Summarize(rules, p.value) else None
  }

  function Entries(rules: Rules, pkgs: seq<Option<Package>>): (es: seq<Option<Summary>>)
    ensures |es| == |pkgs|
  {
    seq(|pkgs|, i requires 0 <= i < |pkgs| => Entry(rules, pkgs[i]))
  }

  function IndexEntries(es: seq<Option<Summary>>): Index {
    if es == [] then map[]
    else
      var index, e := IndexEntries(es[..|es| - 1]), es[|es| - 1];
      if e.Some? then index[e.value.key := e.value] else index
  }

  /** Packages without a key are skipped, excluded modules too, and the last of several wins. */
  function IndexOf(rules: Rules, pkgs: seq<Option<Package>>): Index { IndexEntries(Entries(rules, pkgs)) }

  lemma IndexStep(rules: Rules, pkgs: seq<Option<Package>>, i: nat)
    requires i < |pkgs|
    ensures var index, e := IndexOf(rules, pkgs[..i]), Entry(rules, pkgs[i]);
            IndexOf(rules, pkgs[..i + 1]) == if e.Some? then index[e.value.key := e.value] else index
  {
    assert Entries(rules, pkgs[..i + 1])[..i] == Entries(rules, pkgs[..i]);
  }

  method BuildIndex(rules: Rules, pkgs: seq<Option<Package>>) returns (index: Index)
    ensures index == IndexOf(rules, pkgs)
  {
    index := map[];
    for i := 0 to |pkgs|
      invariant index == IndexOf(rules, pkgs[..i])
    {
      IndexStep(rules, pkgs, i);
      if pkgs[i].Some? {
        var meta := Summarize(rules, pkgs[i].value);
        if meta.Some? && meta.value.key != "" {
          if rules.excluded(meta.value) {
            continue;
          }
          index := index[meta.value.key := meta.value];
        }
      }
    }
    assert pkgs[..|pkgs|] == pkgs;
  }

  predicate LastEntry(es: seq<Option<Summary>>, k: string, i: int) {
    0 <= i < |es| && HasKey(es[i], k) && forall j :: i < j < |es| ==> !HasKey(es[j], k)
  }

  predicate HasKey(e: Option<Summary>, k: string) { e.Some? && e.value.key == k }

  lemma {:induction false} LastEntryIsIndexed(es: seq<Option<Summary>>, k: string)
    ensures k !in IndexEntries(es) ==> forall i :: 0 <= i < |es| ==> !HasKey(es[i], k)
    ensures k in IndexEntries(es) ==> exists i :: LastEntry(es, k, i) && es[i] == Some(IndexEntries(es)[k])
  {
    if es != [] {
      var n := |es| - 1;
      LastEntryIsIndexed(es[..n], k);
      if HasKey(es[n], k) {
        assert LastEntry(es, k, n);
      } else if k in IndexEntries(es) {
        var i :| LastEntry(es[..n], k, i) && es[i] == Some(IndexEntries(es[..n])[k]);
        assert LastEntry(es, k, i);
      }
    }
  }

  /** Every entry summarises a package of the list under its key. */
  lemma IndexEntry(rules: Rules, pkgs: seq<Option<Package>>, k: string) returns (p: Package)
    requires k in IndexOf(rules, pkgs)
    ensures Some(p) in pkgs && Summarize(rules, p) == Some(IndexOf(rules, pkgs)[k]) && IndexOf(rules, pkgs)[k].key == k
  {
    var es := Entries(rules, pkgs);
    LastEntryIsIndexed(es, k);
    var i :| LastEntry(es, k, i) && es[i] == Some(IndexEntries(es)[k]);
    assert es[i] == Entry(rules, pkgs[i]) && pkgs[i] in pkgs;
    p := pkgs[i].value;
  }

  /** The package is compared under the key `k`. */
  predicate Bears(rules: Rules, p: Option<Package>, k: string) {
    p.Some? && match Summarize(rules, p.value)
               case None => false
               case Some(s) => s.key == k && k != "" && !rules.excluded(s)
  }

  lemma BearsIsEntry(rules: Rules, p: Option<Package>, k: string)
    ensures Bears(rules, p, k) <==> HasKey(Entry(rules, p), k)
    ensures Bears(rules, p, k) ==> Entry(rules, p) == Summarize(rules, p.value)
  {}

  ghost predicate Names(rules: Rules, pkgs: seq<Option<Package>>, k: string) { exists p :: p in pkgs && Bears(rules, p, k) }

  predicate LastAt(rules: Rules, pkgs: seq<Option<Package>>, k: string, i: int) {
    0 <= i < |pkgs| && Bears(rules, pkgs[i], k) && forall j :: i < j < |pkgs| ==> !Bears(rules, pkgs[j], k)
  }

  /** The last package of the list under the key `k`. */
  ghost predicate LastOf(rules: Rules, pkgs: seq<Option<Package>>, k: string, p: Package) {
    exists i :: LastAt(rules, pkgs, k, i) && pkgs[i] == Some(p)
  }

  lemma LastAtIsEntry(rules: Rules, pkgs: seq<Option<Package>>, k: string, i: int)
    ensures LastAt(rules, pkgs, k, i) <==> LastEntry(Entries(rules, pkgs), k, i)
    ensures LastAt(rules, pkgs, k, i) ==> Entries(rules, pkgs)[i] == Summarize(rules, pkgs[i].value)
  {
    forall j | 0 <= j < |pkgs| ensures Bears(rules, pkgs[j], k) <==> HasKey(Entries(rules, pkgs)[j], k) {
      BearsIsEntry(rules, pkgs[j], k);
    }
    if 0 <= i < |pkgs| {
      BearsIsEntry(rules, pkgs[i], k);
    }
  }

  lemma NamesIsEntry(rules: Rules, pkgs: seq<Option<Package>>, k: string)
    ensures Names(rules, pkgs, k) <==> exists i :: 0 <= i < |pkgs| && HasKey(Entries(rules, pkgs)[i], k)
  {
    forall j | 0 <= j < |pkgs| ensures Bears(rules, pkgs[j], k) <==> HasKey(Entries(rules, pkgs)[j], k) {
      BearsIsEntry(rules, pkgs[j], k);
    }
  }

  /** A key is indexed exactly when some package bears it, and its entry summarises the last one that does. */
  lemma IndexMeans(rules: Rules, pkgs: seq<Option<Package>>, k: string)
    ensures k in IndexOf(rules, pkgs) <==> Names(rules, pkgs, k)
    ensures k in IndexOf(rules, pkgs) <==> exists p :: LastOf(rules, pkgs, k, p)
    ensures forall p :: LastOf(rules, pkgs, k, p) ==> Summarize(rules, p) == Some(IndexOf(rules, pkgs)[k])
  {
    var es := Entries(rules, pkgs);
    LastEntryIsIndexed(es, k);
    NamesIsEntry(rules, pkgs, k);
    if k in IndexOf(rules, pkgs) {
      var i :| LastEntry(es, k, i) && es[i] == Some(IndexEntries(es)[k]);
      LastAtIsEntry(rules, pkgs, k, i);
      assert LastOf(rules, pkgs, k, pkgs[i].value);
    }
    forall p | LastOf(rules, pkgs, k, p) ensures k in IndexOf(rules, pkgs) && Summarize(rules, p) == Some(IndexOf(rules, pkgs)[k]) {
      var j :| LastAt(rules, pkgs, k, j) && pkgs[j] == Some(p);
      LastAtIsEntry(rules, pkgs, k, j);
      assert HasKey(es[j], k);
      var i :| LastEntry(es, k, i) && es[i] == Some(IndexEntries(es)[k]);
      assert i == j;
    }
  }

  // ---- The change of one key ----

  function Removal(rules: Rules, o: Summary): Change {
    Change(Removed, o.name, "", EcosystemName(o), o.version, "", "", rules.direct(o))
  }

  function Addition(rules: Rules, n: Summary): Change {
    Change(Added, n.name, n.version, EcosystemName(n), "", n.version, "", rules.direct(n))
  }

  function Update(rules: Rules, o: Summary, n: Summary): Change {
    Change(SelectChangeType(rules, EcosystemName(n), o.version, n.version), n.name, n.version, EcosystemName(n),
           o.version, n.version, o.name, rules.direct(n))
  }

  predicate Differs(o: Summary, n: Summary) { o.version != n.version || o.name != n.name }

  function ChangeOf(rules: Rules, olds: Index, news: Index, k: string): Option<Change> {
    if k in olds && k !in news then Some(Removal(rules, olds[k]))
    else if k in olds && k in news && Differs(olds[k], news[k]) then Some(Update(rules, olds[k], news[k]))
    else if k !in olds && k in news then Some(Addition(rules, news[k]))
    else None
  }

  function Priority(k: Kind): nat {
    match k
    case Upgraded => 0
    case Downgraded => 1
    case Added => 2
    case Removed => 3
    case Updated => 4
  }

  /** By kind, then by name; nothing orders two changes of the same kind and name. */
  predicate ChangeLe(a: Change, b: Change) {
    Priority(a.kind) < Priority(b.kind) || (Priority(a.kind) == Priority(b.kind) && LessEq(a.name, b.name))
  }

  datatype Keyed = Keyed(key: string, change: Change)

  predicate KeyedLe(a: Keyed, b: Keyed) { ChangeLe(a.change, b.change) }

  lemma KeyedLeOrders(s: seq<Keyed>)
    ensures Orders(KeyedLe, s)
  {
    forall x, y | x in s && y in s ensures KeyedLe(x, y) || KeyedLe(y, x) {
      LessTotal(x.change.name, y.change.name);
    }
    forall x, y, z | x in s && y in s && z in s && KeyedLe(x, y) && KeyedLe(y, z) ensures KeyedLe(x, z) {
      if Priority(x.change.kind) == Priority(y.change.kind) == Priority(z.change.kind) {
        LessEqOrders([x.change.name, y.change.name, z.change.name]);
        assert LessEq(x.change.name, y.change.name) && LessEq(y.change.name, z.change.name);
        assert x.change.name in [x.change.name, y.change.name, z.change.name];
      }
    }
  }

  // ---- The comparison ----

  /** `keys` names the key of each change: one change for every key that has one, and no others. */
  ghost predicate Covers(rules: Rules, olds: Index, news: Index, keys: seq<string>, changes: seq<Change>) {
    |keys| == |changes| && NoRepeats(keys)
    && (forall i :: 0 <= i < |keys| ==> ChangeOf(rules, olds, news, keys[i]) == Some(changes[i]))
    && forall k :: ChangeOf(rules, olds, news, k).Some? ==> k in keys
  }

  ghost predicate Tagged(rules: Rules, olds: Index, news: Index, found: seq<Keyed>, seen: set<string>) {
    NoRepeats(found)
    && (forall c :: c in found ==> c.key in seen && ChangeOf(rules, olds, news, c.key) == Some(c.change))
    && forall k :: k in seen && ChangeOf(rules, olds, news, k).Some? ==> Keyed(k, ChangeOf(rules, olds, news, k).value) in found
  }

  lemma TagOne(rules: Rules, olds: Index, news: Index, found: seq<Keyed>, seen: set<string>, k: string)
    requires Tagged(rules, olds, news, found, seen) && k !in seen
    ensures var c := ChangeOf(rules, olds, news, k);
            Tagged(rules, olds, news, if c.Some? then found + [Keyed(k, c.value)] else found, seen + {k})
  {
    assert forall i :: 0 <= i < |found| ==> found[i] in found;
  }

  method CollectChanges(rules: Rules, olds: Index, news: Index) returns (found: seq<Keyed>)
    ensures Tagged(rules, olds, news, found, olds.Keys + news.Keys)
  {
    found := [];
    var left := olds.Keys;
    while left != {}
      invariant left <= olds.Keys && Tagged(rules, olds, news, found, olds.Keys - left)
      decreases left
    {
      var k :| k in left;
      TagOne(rules, olds, news, found, olds.Keys - left, k);
      assert olds.Keys - left + {k} == olds.Keys - (left - {k});
      left := left - {k};
      if k !in news {
        found := found + [Keyed(k, Removal(rules, olds[k]))];
        continue;
      }
      if Differs(olds[k], news[k]) {
        found := found + [Keyed(k, Update(rules, olds[k], news[k]))];
      }
    }
    assert olds.Keys - left == olds.Keys;
    left := news.Keys - olds.Keys;
    assert olds.Keys + news.Keys - left == olds.Keys;
    while left != {}
      invariant left <= news.Keys - olds.Keys && Tagged(rules, olds, news, found, olds.Keys + news.Keys - left)
      decreases left
    {
      var k :| k in left;
      TagOne(rules, olds, news, found, olds.Keys + news.Keys - left, k);
      assert olds.Keys + news.Keys - left + {k} == olds.Keys + news.Keys - (left - {k});
      left := left - {k};
      found := found + [Keyed(k, Addition(rules, news[k]))];
    }
    assert olds.Keys + news.Keys - left == olds.Keys + news.Keys;
  }

  // ---- What the comparison says of the two lists ----

  predicate IsRemoval(rules: Rules, o: Package, c: Change)
    requires Summarize(rules, o).Some?
  {
    var s := Summarize(rules, o).value;
    c == Change(Removed, o.name, "", EcosystemName(s), o.version, "", "", rules.direct(s))
  }

  predicate IsAddition(rules: Rules, n: Package, c: Change)
    requires Summarize(rules, n).Some?
  {
    var s := Summarize(rules, n).value;
    c == Change(Added, n.name, n.version, EcosystemName(s), "", n.version, "", rules.direct(s))
  }

  /** The kind says how the comparator of the new package's ecosystem orders the two versions. */
  predicate IsUpdate(rules: Rules, o: Package, n: Package, c: Change)
    requires Summarize(rules, n).Some?
  {
    var s := Summarize(rules, n).value;
    var order := Compared(rules, EcosystemName(s), o.version, n.version);
    c == Change(c.kind, n.name, n.version, EcosystemName(s), o.version, n.version, o.name, rules.direct(s))
    && (c.kind == Upgraded <==> order.Some? && order.value > 0)
    && (c.kind == Downgraded <==> order.Some? && order.value < 0)
    && (c.kind == Updated <==> order.None? || order.value == 0)
  }

  ghost predicate Changed(rules: Rules, oldPkgs: seq<Option<Package>>, newPkgs: seq<Option<Package>>, k: string) {
    Names(rules, oldPkgs, k) != Names(rules, newPkgs, k)
    || exists o, n :: LastOf(rules, oldPkgs, k, o) && LastOf(rules, newPkgs, k, n) && (o.version != n.version || o.name != n.name)
  }

  /** What the change of the key `k` says of the last packages under it. */
  ghost predicate Reports(rules: Rules, oldPkgs: seq<Option<Package>>, newPkgs: seq<Option<Package>>, k: string, c: Change) {
    (forall o :: LastOf(rules, oldPkgs, k, o) && !Names(rules, newPkgs, k) ==> IsRemoval(rules, o, c))
    && (forall n :: LastOf(rules, newPkgs, k, n) && !Names(rules, oldPkgs, k) ==> IsAddition(rules, n, c))
    && forall o, n :: LastOf(rules, oldPkgs, k, o) && LastOf(rules, newPkgs, k, n) ==> IsUpdate(rules, o, n, c)
  }

  /** One change for every key that only one list has, or whose last packages differ in name or version. */
  ghost predicate Delta(rules: Rules, oldPkgs: seq<Option<Package>>, newPkgs: seq<Option<Package>>, keys: seq<string>, changes: seq<Change>) {
    |keys| == |changes| && NoRepeats(keys)
    && (forall k :: k in keys <==> Changed(rules, oldPkgs, newPkgs, k))
    && forall i :: 0 <= i < |keys| ==> Reports(rules, oldPkgs, newPkgs, keys[i], changes[i])
  }

  lemma SummaryShows(rules: Rules, p: Package)
    requires Summarize(rules, p).Some?
    ensures Summarize(rules, p).value.name == p.name && Summarize(rules, p).value.version == p.version
  {}

  lemma LastIsSummary(rules: Rules, pkgs: seq<Option<Package>>, k: string, p: Package)
    requires LastOf(rules, pkgs, k, p)
    ensures k in IndexOf(rules, pkgs) && Summarize(rules, p) == Some(IndexOf(rules, pkgs)[k])
    ensures IndexOf(rules, pkgs)[k].name == p.name && IndexOf(rules, pkgs)[k].version == p.version
  {
    IndexMeans(rules, pkgs, k);
    SummaryShows(rules, p);
  }

  lemma RemovalReports(rules: Rules, o: Package, s: Summary)
    requires Summarize(rules, o) == Some(s)
    ensures IsRemoval(rules, o, Removal(rules, s))
  {
    SummaryShows(rules, o);
  }

  lemma AdditionReports(rules: Rules, n: Package, s: Summary)
    requires Summarize(rules, n) == Some(s)
    ensures IsAddition(rules, n, Addition(rules, s))
  {
    SummaryShows(rules, n);
  }

  lemma UpdateReports(rules: Rules, o: Package, s: Summary, n: Package, t: Summary)
    requires Summarize(rules, o) == Some(s) && Summarize(rules, n) == Some(t)
    ensures IsUpdate(rules, o, n, Update(rules, s, t))
  {
    SummaryShows(rules, o);
    SummaryShows(rules, n);
  }

  lemma ChangeReports(rules: Rules, oldPkgs: seq<Option<Package>>, newPkgs: seq<Option<Package>>, k: string)
    ensures var c := ChangeOf(rules, IndexOf(rules, oldPkgs), IndexOf(rules, newPkgs), k);
            c.Some? ==> Reports(rules, oldPkgs, newPkgs, k, c.value)
  {
    var olds, news := IndexOf(rules, oldPkgs), IndexOf(rules, newPkgs);
    IndexMeans(rules, oldPkgs, k);
    IndexMeans(rules, newPkgs, k);
    forall o | LastOf(rules, oldPkgs, k, o) && k !in news ensures IsRemoval(rules, o, Removal(rules, olds[k])) {
      RemovalReports(rules, o, olds[k]);
    }
    forall n | LastOf(rules, newPkgs, k, n) && k !in olds ensures IsAddition(rules, n, Addition(rules, news[k])) {
      AdditionReports(rules, n, news[k]);
    }
    forall o, n | LastOf(rules, oldPkgs, k, o) && LastOf(rules, newPkgs, k, n)
      ensures IsUpdate(rules, o, n, Update(rules, olds[k], news[k]))
    {
      UpdateReports(rules, o, olds[k], n, news[k]);
    }
  }

  lemma ChangedExactly(rules: Rules, oldPkgs: seq<Option<Package>>, newPkgs: seq<Option<Package>>, k: string)
    ensures ChangeOf(rules, IndexOf(rules, oldPkgs), IndexOf(rules, newPkgs), k).Some? <==> Changed(rules, oldPkgs, newPkgs, k)
  {
    IndexMeans(rules, oldPkgs, k);
    IndexMeans(rules, newPkgs, k);
    if k in IndexOf(rules, oldPkgs) && k in IndexOf(rules, newPkgs) {
      var o :| LastOf(rules, oldPkgs, k, o);
      var n :| LastOf(rules, newPkgs, k, n);
      forall o' | LastOf(rules, oldPkgs, k, o') ensures o'.name == o.name && o'.version == o.version {
        LastIsSummary(rules, oldPkgs, k, o');
        LastIsSummary(rules, oldPkgs, k, o);
      }
      LastIsSummary(rules, oldPkgs, k, o);
      forall n' | LastOf(rules, newPkgs, k, n') ensures n'.name == n.name && n'.version == n.version {
        LastIsSummary(rules, newPkgs, k, n');
        LastIsSummary(rules, newPkgs, k, n);
      }
      LastIsSummary(rules, newPkgs, k, n);
    }
  }

  lemma CoversIsDelta(rules: Rules, oldPkgs: seq<Option<Package>>, newPkgs: seq<Option<Package>>, keys: seq<string>, changes: seq<Change>)
    requires Covers(rules, IndexOf(rules, oldPkgs), IndexOf(rules, newPkgs), keys, changes)
    ensures Delta(rules, oldPkgs, newPkgs, keys, changes)
  {
    forall k ensures k in keys <==> Changed(rules, oldPkgs, newPkgs, k) {
      ChangedExactly(rules, oldPkgs, newPkgs, k);
    }
    forall i | 0 <= i < |keys| ensures Reports(rules, oldPkgs, newPkgs, keys[i], changes[i]) {
      ChangeReports(rules, oldPkgs, newPkgs, keys[i]);
    }
  }

  /** Upgrades first, then downgrades, additions, removals and other updates, each by name. */
  predicate InReportOrder(a: Change, b: Change) {
    if a.kind == b.kind then !Less(b.name, a.name)
    else match a.kind
      case Upgraded => true
      case Downgraded => b.kind != Upgraded
      case Added => b.kind == Removed || b.kind == Updated
      case Removed => b.kind == Updated
      case Updated => false
  }

  lemma SortedIsReportOrder(changes: seq<Change>)
    requires Sorted(changes, ChangeLe)
    ensures forall i, j :: 0 <= i < j < |changes| ==> InReportOrder(changes[i], changes[j])
  {
    forall i, j | 0 <= i < j < |changes| ensures InReportOrder(changes[i], changes[j]) {
      LessTotal(changes[i].name, changes[j].name);
    }
  }

  lemma SortedCovers(rules: Rules, olds: Index, news: Index, found: seq<Keyed>, keys: seq<string>, changes: seq<Change>)
    requires Tagged(rules, olds, news, found, olds.Keys + news.Keys)
    requires |keys| == |changes| == |Sort(found, KeyedLe)|
    requires forall i :: 0 <= i < |keys| ==> Sort(found, KeyedLe)[i] == Keyed(keys[i], changes[i])
    ensures Covers(rules, olds, news, keys, changes) && Sorted(changes, ChangeLe)
  {
    var sorted := Sort(found, KeyedLe);
    KeyedLeOrders(found);
    SortSorts(found, KeyedLe);
    SortPermutes(found, KeyedLe);
    PermutationKeepsNoRepeats(found, sorted);
    forall i | 0 <= i < |keys| ensures ChangeOf(rules, olds, news, keys[i]) == Some(changes[i]) {
      assert sorted[i] in found;
    }
    forall i, j | 0 <= i < j < |keys| ensures keys[i] != keys[j] && ChangeLe(changes[i], changes[j]) {
      assert sorted[i] != sorted[j] && KeyedLe(sorted[i], sorted[j]);
    }
    forall k | ChangeOf(rules, olds, news, k).Some? ensures k in keys {
      var c := Keyed(k, ChangeOf(rules, olds, news, k).value);
      assert c in sorted;
      var i :| 0 <= i < |sorted| && sorted[i] == c;
      assert keys[i] == k;
    }
  }

  method ComparePackages(rules: Rules, oldPkgs: seq<Option<Package>>, newPkgs: seq<Option<Package>>)
    returns (changes: seq<Change>, ghost keys: seq<string>)
    ensures Covers(rules, IndexOf(rules, oldPkgs), IndexOf(rules, newPkgs), keys, changes)
    ensures Delta(rules, oldPkgs, newPkgs, keys, changes)
    ensures forall i, j :: 0 <= i < j < |changes| ==> InReportOrder(changes[i], changes[j])
  {
    var olds := BuildIndex(rules, oldPkgs);
    var news := BuildIndex(rules, newPkgs);
    var found := CollectChanges(rules, olds, news);
    var sorted := Sort(found, KeyedLe);
    changes := seq(|sorted|, i requires 0 <= i < |sorted| => sorted[i].change);
    keys := seq(|sorted|, i requires 0 <= i < |sorted| => sorted[i].key);
    SortedCovers(rules, olds, news, found, keys, changes);
    CoversIsDelta(rules, oldPkgs, newPkgs, keys, changes);
    SortedIsReportOrder(changes);
  }

  // ---- The changes are a patch ----

  datatype Shown = Shown(name: string, version: string)

  function View(index: Index): map<string, Shown> { map k | k in index :: Shown(index[k].name, index[k].version) }

  function Apply(view: map<string, Shown>, keys: seq<string>, changes: seq<Change>): map<string, Shown>
    requires |keys| == |changes|
  {
    if keys == [] then view
    else
      var n := |keys| - 1;
      var before := Apply(view, keys[..n], changes[..n]);
      if changes[n].kind.Removed? then before - {keys[n]} else before[keys[n] := Shown(changes[n].name, changes[n].version)]
  }

  lemma {:induction false} ApplyElsewhere(view: map<string, Shown>, keys: seq<string>, changes: seq<Change>, k: string)
    requires |keys| == |changes| && k !in keys
    ensures var r := Apply(view, keys, changes); (k in r <==> k in view) && (k in r ==> r[k] == view[k])
  {
    if keys != [] {
      var n := |keys| - 1;
      assert keys[n] in keys && k !in keys[..n];
      ApplyElsewhere(view, keys[..n], changes[..n], k);
    }
  }

  lemma {:induction false} ApplyAt(view: map<string, Shown>, keys: seq<string>, changes: seq<Change>, i: nat)
    requires |keys| == |changes| && NoRepeats(keys) && i < |keys|
    ensures var r := Apply(view, keys, changes);
            if changes[i].kind.Removed? then keys[i] !in r
            else keys[i] in r && r[keys[i]] == Shown(changes[i].name, changes[i].version)
  {
    var n := |keys| - 1;
    if i < n {
      ApplyAt(view, keys[..n], changes[..n], i);
    }
  }

  /** Applying the changes to the old packages gives the new ones, in whatever order they are listed. */
  lemma ChangesArePatch(rules: Rules, olds: Index, news: Index, keys: seq<string>, changes: seq<Change>)
    requires Covers(rules, olds, news, keys, changes)
    ensures Apply(View(olds), keys, changes) == View(news)
  {
    var r := Apply(View(olds), keys, changes);
    forall k ensures (k in r <==> k in View(news)) && (k in r ==> r[k] == View(news)[k]) {
      if k in keys {
        var i :| 0 <= i < |keys| && keys[i] == k;
        ApplyAt(View(olds), keys, changes, i);
        assert ChangeOf(rules, olds, news, k) == Some(changes[i]);
      } else {
        ApplyElsewhere(View(olds), keys, changes, k);
        assert ChangeOf(rules, olds, news, k).None?;
      }
    }
  }

  /** No changes are reported exactly when both lists show the same packages. */
  lemma NoChangesMeansSame(rules: Rules, olds: Index, news: Index, keys: seq<string>, changes: seq<Change>)
    requires Covers(rules, olds, news, keys, changes)
    ensures changes == [] <==> View(olds) == View(news)
  {
    if changes == [] {
      ChangesArePatch(rules, olds, news, keys, changes);
    } else {
      var k := keys[0];
      assert ChangeOf(rules, olds, news, k) == Some(changes[0]);
      assert !(k in View(olds) && k in View(news) && View(olds)[k] == View(news)[k]);
    }
  }

  // ---- Swapping the inputs ----

  function Mirrored(k: Kind): Kind {
    match k
    case Upgraded => Downgraded
    case Downgraded => Upgraded
    case Added => Removed
    case Removed => Added
    case Updated => Updated
  }

  function Sign(c: Option<int>): int {
    if c.None? || c.value == 0 then 0 else if c.value > 0 then 1 else -1
  }

  ghost predicate Antisymmetric(rules: Rules) {
    forall c, a, b :: Sign(rules.compare(c, a, b)) == -Sign(rules.compare(c, b, a))
  }

  lemma {:induction false} BeforeColonStops(s: string)
    ensures ':' !in BeforeColon(s) && BeforeColon(BeforeColon(s)) == BeforeColon(s)
  {
    if s != "" && s[0] != ':' {
      BeforeColonStops(s[1..]);
      assert BeforeColon(s)[1..] == BeforeColon(s[1..]);
    }
  }

  /** Ecosystems that share a key prefix share a comparator: Debian:11 and Debian:12 do. */
  lemma SameNormalSameComparator(rules: Rules, a: string, b: string)
    requires NormalEcosystem(a) == NormalEcosystem(b)
    ensures ComparatorFor(rules, a) == ComparatorFor(rules, b)
  {
    BeforeColonStops(Lower(TrimSpace(a)));
    BeforeColonStops(Lower(TrimSpace(b)));
    DistributionsAreNotGo();
  }

  lemma DistributionsAreNotGo()
    ensures "go" !in DISTRIBUTIONS && "golang" !in DISTRIBUTIONS && "" !in DISTRIBUTIONS
    ensures ':' !in "go" && ':' !in "golang"
  {}

  lemma {:induction false} PyPINameBars(name: string, inSeparator: bool)
    requires '|' !in name
    ensures '|' !in PyPIName(name, inSeparator)
  {
    if name != "" {
      assert name[0] in name && forall c :: c in name[1..] ==> c in name;
      PyPINameBars(name[1..], IsSeparator(name[0]));
    }
  }

  lemma LowerBars(s: string)
    requires '|' !in s
    ensures '|' !in Lower(s)
  {
    forall i | 0 <= i < |s| ensures Lower(s)[i] != '|' {
      assert s[i] in s;
    }
  }

  lemma MatchNameBars(ecosystem: string, name: string)
    requires '|' !in name
    ensures '|' !in MatchName(ecosystem, name)
  {
    PyPINameBars(name, false);
    forall i | 0 <= i < |name| ensures CargoName(name)[i] != '|' {
      assert name[i] in name;
    }
  }

  lemma LastBar(a: string, x: string, b: string, y: string)
    requires a + "|" + x == b + "|" + y && '|' !in x && '|' !in y
    ensures a == b && x == y
  {
    var s := a + "|" + x;
    assert s[|a|] == '|' && s[|b|] == '|';
    assert forall k :: |a| < k < |s| ==> s[k] == x[k - |a| - 1] && s[k] in x;
    assert forall k :: |b| < k < |s| ==> s[k] == y[k - |b| - 1] && s[k] in y;
    assert |a| == |b|;
    assert a == s[..|a|] && x == s[|a| + 1..];
  }

  /** A package whose name holds no bar, in an ecosystem where canonical Go paths hold none either. */
  ghost predicate BarFree(rules: Rules, p: Package) { '|' !in p.name && '|' !in rules.goCanonical(p.name) }

  /** Without bars in the name, the key tells whether there is an ecosystem, and which. */
  lemma KeyTellsEcosystem(rules: Rules, p: Package) returns (prefix: string, name: string)
    requires BarFree(rules, p) && Summarize(rules, p).Some?
    ensures var s := Summarize(rules, p).value;
            '|' !in name && (if s.ecosystem == "" then s.key == name else s.key == prefix + "|" + name)
            && (s.ecosystem != "" ==> prefix == NormalEcosystem(s.ecosystem) && '|' in s.key)
  {
    var e := EcosystemOf(p);
    LowerBars(p.name);
    if Lower(e) == "go" {
      LowerBars(rules.goCanonical(p.name));
      prefix, name := "go", Lower(rules.goCanonical(p.name));
      GoIsNormal(e);
      assert "go|" + name == "go" + "|" + name;
    } else {
      prefix, name := NormalEcosystem(e), MatchName(NormalEcosystem(e), Lower(p.name));
      MatchNameBars(prefix, Lower(p.name));
    }
    assert (prefix + "|" + name)[|prefix|] == '|';
  }

  lemma GoIsNormal(e: string)
    requires Lower(e) == "go"
    ensures NormalEcosystem(e) == "go" && e != ""
  {
    assert |e| == 2 && Lower(e)[0] == 'g' && Lower(e)[1] == 'o';
    var a, b := TrimSplits(e, IsSpace);
    assert "" + e + "" == e;
    TrimIs("", e, "", IsSpace);
  }

  /** Packages with the same key have the same comparator, for names without a bar. */
  lemma SameKeySameComparator(rules: Rules, p: Package, q: Package)
    requires BarFree(rules, p) && BarFree(rules, q)
    requires Summarize(rules, p).Some? && Summarize(rules, q).Some?
    requires Summarize(rules, p).value.key == Summarize(rules, q).value.key
    ensures ComparatorFor(rules, EcosystemName(Summarize(rules, p).value))
         == ComparatorFor(rules, EcosystemName(Summarize(rules, q).value))
  {
    var s, t := Summarize(rules, p).value, Summarize(rules, q).value;
    var a, x := KeyTellsEcosystem(rules, p);
    var b, y := KeyTellsEcosystem(rules, q);
    if s.ecosystem != "" && t.ecosystem != "" {
      LastBar(a, x, b, y);
      SameNormalSameComparator(rules, s.ecosystem, t.ecosystem);
      BlankIsNormal(s.ecosystem);
      BlankIsNormal(t.ecosystem);
    }
  }

  lemma BlankIsNormal(e: string)
    ensures TrimSpace(e) == "" <==> NormalEcosystem(e) == ""
  {
    DistributionsAreNotGo();
    assert |Lower(TrimSpace(e))| == |TrimSpace(e)|;
  }

  /** The same change seen from the other side. */
  predicate Mirrors(c: Change, d: Change) {
    d.kind == Mirrored(c.kind) && d.baseVersion == c.targetVersion && d.targetVersion == c.baseVersion
  }

  /** For one key: additions and removals are exchanged, and for a package in both lists the kind is mirrored
      exactly when comparing forwards in the new ecosystem and backwards in the old one give opposite signs. */
  lemma MirrorsExactly(rules: Rules, olds: Index, news: Index, k: string)
    ensures var c, d := ChangeOf(rules, olds, news, k), ChangeOf(rules, news, olds, k);
            c.Some? == d.Some?
            && (c.Some? && !(k in olds && k in news) ==> Mirrors(c.value, d.value))
            && (c.Some? && k in olds && k in news ==>
                  (Mirrors(c.value, d.value) <==>
                   Sign(Compared(rules, EcosystemName(news[k]), olds[k].version, news[k].version)) ==
                   -Sign(Compared(rules, EcosystemName(olds[k]), news[k].version, olds[k].version))))
  {
    if k in olds && k in news {
      KindBySign(rules, EcosystemName(news[k]), olds[k].version, news[k].version);
      KindBySign(rules, EcosystemName(olds[k]), news[k].version, olds[k].version);
    }
  }

  lemma KindBySign(rules: Rules, ecosystem: string, a: string, b: string)
    ensures var s := Sign(Compared(rules, ecosystem, a, b));
            SelectChangeType(rules, ecosystem, a, b) == if s > 0 then Upgraded else if s < 0 then Downgraded else Updated
  {}

  lemma MirrorOne(rules: Rules, oldPkgs: seq<Option<Package>>, newPkgs: seq<Option<Package>>, k: string)
    requires Antisymmetric(rules)
    requires forall p :: Some(p) in oldPkgs || Some(p) in newPkgs ==> BarFree(rules, p)
    ensures var olds, news := IndexOf(rules, oldPkgs), IndexOf(rules, newPkgs);
            var c, d := ChangeOf(rules, olds, news, k), ChangeOf(rules, news, olds, k);
            c.Some? == d.Some? && (c.Some? ==> Mirrors(c.value, d.value))
  {
    var olds, news := IndexOf(rules, oldPkgs), IndexOf(rules, newPkgs);
    if k in olds && k in news {
      var p := IndexEntry(rules, oldPkgs, k);
      var q := IndexEntry(rules, newPkgs, k);
      SameKeySameComparator(rules, p, q);
      var c, a, b := ComparatorFor(rules, EcosystemName(news[k])), olds[k].version, news[k].version;
      assert Sign(rules.compare(c, a, b)) == -Sign(rules.compare(c, b, a));
    }
    MirrorsExactly(rules, olds, news, k);
  }

  /** Swapping the two lists reports changes for the same keys, each mirrored, with the versions exchanged. */
  lemma SwapMirrors(rules: Rules, oldPkgs: seq<Option<Package>>, newPkgs: seq<Option<Package>>,
                    keys: seq<string>, changes: seq<Change>, keys': seq<string>, changes': seq<Change>)
    requires Antisymmetric(rules)
    requires forall p :: Some(p) in oldPkgs || Some(p) in newPkgs ==> BarFree(rules, p)
    requires Covers(rules, IndexOf(rules, oldPkgs), IndexOf(rules, newPkgs), keys, changes)
    requires Covers(rules, IndexOf(rules, newPkgs), IndexOf(rules, oldPkgs), keys', changes')
    ensures |changes| == |changes'| && forall k :: k in keys <==> k in keys'
    ensures forall i, j :: 0 <= i < |keys| && 0 <= j < |keys'| && keys[i] == keys'[j] ==> Mirrors(changes[i], changes'[j])
  {
    var olds, news := IndexOf(rules, oldPkgs), IndexOf(rules, newPkgs);
    forall k ensures k in keys <==> k in keys' {
      MirrorOne(rules, oldPkgs, newPkgs, k);
      CoveredKey(rules, olds, news, keys, changes, k);
      CoveredKey(rules, news, olds, keys', changes', k);
    }
    forall i, j | 0 <= i < |keys| && 0 <= j < |keys'| && keys[i] == keys'[j] ensures Mirrors(changes[i], changes'[j]) {
      MirrorOne(rules, oldPkgs, newPkgs, keys[i]);
    }
    NoRepeatsSameMembers(keys, keys');
    SameMembers(keys, keys');
  }

  lemma CoveredKey(rules: Rules, olds: Index, news: Index, keys: seq<string>, changes: seq<Change>, k: string)
    requires Covers(rules, olds, news, keys, changes)
    ensures k in keys <==> ChangeOf(rules, olds, news, k).Some?
  {}

  /** With a bar in a name, packages of different ecosystems can share a key: a package without ecosystem
      named `npm|x` is compared with the npm package `x`. The forward comparison then uses npm's comparator
      and the backward one none, so an upgrade is mirrored as a mere update. */
  lemma BarBreaksMirroring(rules: Rules, v: string, w: string)
    requires forall s :: !rules.excluded(s)
    requires rules.semantic("npm") == Some("npm") && rules.semantic("unknown") == None
    requires rules.compare(Semantic("npm"), v, w).Some? && rules.compare(Semantic("npm"), v, w).value > 0
    ensures var olds := IndexOf(rules, [Some(Package("npm|x", v, "", ""))]);
            var news := IndexOf(rules, [Some(Package("x", w, "npm", ""))]);
            var c, d := ChangeOf(rules, olds, news, "npm|x"), ChangeOf(rules, news, olds, "npm|x");
            c.Some? && d.Some? && c.value.kind == Upgraded && d.value.kind == Updated
  {
    var p, q := Package("npm|x", v, "", ""), Package("x", w, "npm", "");
    BarSummaries(rules, p, q, v, w);
    IndexOfOne(rules, p);
    IndexOfOne(rules, q);
    BarComparators(rules);
  }

  lemma IndexOfOne(rules: Rules, p: Package)
    requires Indexed(rules, Some(p))
    ensures var s := Summarize(rules, p).value; IndexOf(rules, [Some(p)]) == map[s.key := s]
  {
    IndexStep(rules, [Some(p)], 0);
    assert [Some(p)][..0] == [] && [Some(p)][..1] == [Some(p)];
  }

  lemma PlainTrim(s: string)
    requires s != "" && !IsSpace(s[0]) && !IsSpace(s[|s| - 1])
    ensures TrimSpace(s) == s
  {
    assert "" + s + "" == s;
    TrimIs("", s, "", IsSpace);
  }

  lemma NpmIsNormal()
    ensures TrimSpace("npm") == "npm" == Lower("npm") && NormalEcosystem("npm") == "npm" && BeforeColon("npm") == "npm"
  {
    PlainTrim("npm");
    assert ':' !in "npm";
    NoColon("npm");
  }

  lemma UnknownIsNormal()
    ensures TrimSpace("unknown") == "unknown" == Lower("unknown") && BeforeColon("unknown") == "unknown"
  {
    PlainTrim("unknown");
    NoColon("unknown");
  }

  lemma {:induction false} NoColon(s: string)
    requires ':' !in s
    ensures BeforeColon(s) == s
  {
    if s != "" {
      NoColon(s[1..]);
      assert s == [s[0]] + s[1..];
    }
  }

  lemma NpmMatchesByName(name: string)
    ensures MatchName("npm", name) == name && MatchName("", name) == name
  {}

  lemma BarSummaries(rules: Rules, p: Package, q: Package, v: string, w: string)
    requires p == Package("npm|x", v, "", "") && q == Package("x", w, "npm", "")
    ensures Summarize(rules, p) == Some(Summary("npm|x", "npm|x", v, ""))
    ensures Summarize(rules, q) == Some(Summary("npm|x", "x", w, "npm"))
  {
    NoEcosystem(rules, p);
    NpmPackage(rules, q);
  }

  lemma NoEcosystem(rules: Rules, p: Package)
    requires p.name == "npm|x" && p.ecosystem == "" && p.purlType == ""
    ensures Summarize(rules, p) == Some(Summary("npm|x", "npm|x", p.version, ""))
  {
    assert EcosystemOf(p) == "" && NormalEcosystem("") == "" by {
      DistributionsAreNotGo();
    }
    assert Lower("npm|x") == "npm|x";
    NpmMatchesByName("npm|x");
  }

  lemma NpmPackage(rules: Rules, q: Package)
    requires q.name == "x" && q.ecosystem == "npm"
    ensures Summarize(rules, q) == Some(Summary("npm|x", "x", q.version, "npm"))
  {
    NpmIsNormal();
    NpmMatchesByName("x");
    assert Lower("x") == "x" && "npm" + "|" + "x" == "npm|x";
  }

  lemma BarComparators(rules: Rules)
    requires rules.semantic("npm") == Some("npm") && rules.semantic("unknown") == None
    ensures ComparatorFor(rules, "npm") == Semantic("npm") && ComparatorFor(rules, "unknown") == NoComparator
    ensures TrimSpace("") == "" && TrimSpace("npm") != ""
  {
    NpmIsNormal();
    UnknownIsNormal();
  }
}

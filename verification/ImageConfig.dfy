// internal/compare/container_image.go: the difference of two image configurations, as a patch.
module ImageConfig {
  import opened Order

  datatype Kind = Added | Removed | Updated

  /** One environment variable or label that differs. */
  datatype Change = Change(key: string, kind: Kind, baseValue: string, targetValue: string, sensitive: bool)

  type Table = map<string, string>

  // ---- Tables: environment variables and labels ----

  predicate Differs(base: Table, target: Table, k: string) {
    if k in base && k in target then base[k] != target[k] else k in base || k in target
  }

  function ChangeOf(base: Table, target: Table, sensitive: set<string>, k: string): Change
    requires Differs(base, target, k)
  {
    if k !in target then Change(k, Removed, base[k], "", k in sensitive)
    else if k !in base then Change(k, Added, "", target[k], k in sensitive)
    else Change(k, Updated, base[k], target[k], k in sensitive)
  }

  predicate ByKey(a: Change, b: Change) { LessEq(a.key, b.key) }

  ghost predicate StrictByKey(changes: seq<Change>) {
    forall i, j :: 0 <= i < j < |changes| ==> Less(changes[i].key, changes[j].key)
  }

  /** Exactly the differing keys, each once, in strictly increasing order. */
  ghost predicate IsDiff(base: Table, target: Table, sensitive: set<string>, changes: seq<Change>) {
    StrictByKey(changes)
    && (forall c :: c in changes ==> Differs(base, target, c.key) && c == ChangeOf(base, target, sensitive, c.key))
    && forall k :: Differs(base, target, k) ==> ChangeOf(base, target, sensitive, k) in changes
  }

  /** Meets the base entries and then the new target entries in any order, and sorts by key. */
  method CompareTables(base: Table, target: Table, sensitive: set<string>) returns (changes: seq<Change>)
    ensures IsDiff(base, target, sensitive, changes)
  {
    changes := [];
    var left := base.Keys;
    while left != {}
      invariant left <= base.Keys && NoRepeats(changes)
      invariant forall c :: c in changes ==> c.key in base.Keys - left && Differs(base, target, c.key) && c == ChangeOf(base, target, sensitive, c.key)
      invariant forall k :: k in base.Keys - left && Differs(base, target, k) ==> ChangeOf(base, target, sensitive, k) in changes
      decreases left
    {
      var k :| k in left;
      left := left - {k};
      if k !in target {
        changes := changes + [Change(k, Removed, base[k], "", k in sensitive)];
      } else if base[k] != target[k] {
        changes := changes + [Change(k, Updated, base[k], target[k], k in sensitive)];
      }
    }
    left := target.Keys;
    while left != {}
      invariant left <= target.Keys && NoRepeats(changes)
      invariant forall c :: c in changes ==> c.key !in left - base.Keys && Differs(base, target, c.key) && c == ChangeOf(base, target, sensitive, c.key)
      invariant forall k :: Differs(base, target, k) && k !in left - base.Keys ==> ChangeOf(base, target, sensitive, k) in changes
      decreases left
    {
      var k :| k in left;
      left := left - {k};
      if k !in base {
        changes := changes + [Change(k, Added, "", target[k], k in sensitive)];
      }
    }
    SortedDiff(base, target, sensitive, changes);
    changes := Sort(changes, ByKey);
  }

  lemma SortedDiff(base: Table, target: Table, sensitive: set<string>, found: seq<Change>)
    requires NoRepeats(found)
    requires forall c :: c in found ==> Differs(base, target, c.key) && c == ChangeOf(base, target, sensitive, c.key)
    requires forall k :: Differs(base, target, k) ==> ChangeOf(base, target, sensitive, k) in found
    ensures IsDiff(base, target, sensitive, Sort(found, ByKey))
  {
    var r := Sort(found, ByKey);
    ByKeyOrders(found);
    SortSorts(found, ByKey);
    SortPermutes(found, ByKey);
    PermutationKeepsNoRepeats(found, r);
    forall c ensures c in r <==> c in found {
      SortMember(found, ByKey, c);
    }
    forall i, j | 0 <= i < j < |r| ensures Less(r[i].key, r[j].key) {
      assert r[i] in found && r[j] in found && r[i] != r[j];
    }
  }

  lemma ByKeyOrders(s: seq<Change>)
    ensures Orders(ByKey, s)
  {
    forall x, y | x in s && y in s ensures ByKey(x, y) || ByKey(y, x) {
      LessTotal(x.key, y.key);
    }
    forall x, y, z | x in s && y in s && z in s && ByKey(x, y) && ByKey(y, z) ensures ByKey(x, z) {
      if x.key != y.key && y.key != z.key {
        LessTransitive(x.key, y.key, z.key);
      }
    }
  }

  /** What a change says: the values on both sides, empty where there is none, and whether the key is sensitive. */
  lemma ChangeMeans(base: Table, target: Table, sensitive: set<string>, changes: seq<Change>, c: Change)
    requires IsDiff(base, target, sensitive, changes)
    ensures c in changes <==>
            (c.key in base || c.key in target) && !(c.key in base && c.key in target && base[c.key] == target[c.key])
            && c.kind == (if c.key !in base then Added else if c.key !in target then Removed else Updated)
            && c.baseValue == (if c.key in base then base[c.key] else "")
            && c.targetValue == (if c.key in target then target[c.key] else "")
            && c.sensitive == (c.key in sensitive)
  {
    if c in changes {
      assert c == ChangeOf(base, target, sensitive, c.key);
    }
    if Differs(base, target, c.key) {
      assert ChangeOf(base, target, sensitive, c.key) in changes;
    }
  }

  /** The list does not depend on the order the maps were visited in: there is only one. */
  lemma DiffIsUnique(base: Table, target: Table, sensitive: set<string>, a: seq<Change>, b: seq<Change>)
    requires IsDiff(base, target, sensitive, a) && IsDiff(base, target, sensitive, b)
    ensures a == b
  {
    forall i, j | 0 <= i < j < |a| ensures a[i] != a[j] { LessTotal(a[i].key, a[j].key); }
    forall i, j | 0 <= i < j < |b| ensures b[i] != b[j] { LessTotal(b[i].key, b[j].key); }
    NoRepeatsSameMembers(a, b);
    forall x, y | x in a && y in a && ByKey(x, y) && ByKey(y, x) ensures x == y {
      LessTotal(x.key, y.key);
    }
    SortedUnique(a, b, ByKey);
  }

  function Apply(table: Table, changes: seq<Change>): Table {
    if changes == [] then table
    else
      var n := |changes| - 1;
      var before := Apply(table, changes[..n]);
      if changes[n].kind.Removed? then before - {changes[n].key} else before[changes[n].key := changes[n].targetValue]
  }

  lemma {:induction false} ApplyElsewhere(table: Table, changes: seq<Change>, k: string)
    requires forall c :: c in changes ==> c.key != k
    ensures var r := Apply(table, changes); (k in r <==> k in table) && (k in table ==> r[k] == table[k])
  {
    if changes != [] {
      var n := |changes| - 1;
      assert changes[n] in changes;
      ApplyElsewhere(table, changes[..n], k);
    }
  }

  lemma {:induction false} ApplyAt(table: Table, changes: seq<Change>, i: nat)
    requires StrictByKey(changes) && i < |changes|
    ensures var r, c := Apply(table, changes), changes[i];
            if c.kind.Removed? then c.key !in r else c.key in r && r[c.key] == c.targetValue
  {
    var n := |changes| - 1;
    if i < n {
      ApplyAt(table, changes[..n], i);
      LessTotal(changes[i].key, changes[n].key);
    }
  }

  /** Applying the changes to the base table gives the target table. */
  lemma DiffIsPatch(base: Table, target: Table, sensitive: set<string>, changes: seq<Change>)
    requires IsDiff(base, target, sensitive, changes)
    ensures Apply(base, changes) == target
  {
    var r := Apply(base, changes);
    forall k ensures (k in r <==> k in target) && (k in r ==> r[k] == target[k]) {
      if Differs(base, target, k) {
        var i :| 0 <= i < |changes| && changes[i] == ChangeOf(base, target, sensitive, k);
        ApplyAt(base, changes, i);
      } else {
        ApplyElsewhere(base, changes, k);
      }
    }
  }

  lemma DiffEmpty(base: Table, target: Table, sensitive: set<string>, changes: seq<Change>)
    requires IsDiff(base, target, sensitive, changes)
    ensures changes == [] <==> base == target
  {
    if changes == [] {
      DiffIsPatch(base, target, sensitive, changes);
    } else {
      assert changes[0] in changes && Differs(base, target, changes[0].key);
    }
  }

  // ---- Environment variables as written ----

  function IndexOf(s: string, c: char): int
    ensures -1 <= IndexOf(s, c) < |s|
    ensures IndexOf(s, c) == -1 <==> c !in s
    ensures IndexOf(s, c) >= 0 ==> s[IndexOf(s, c)] == c && c !in s[..IndexOf(s, c)]
  {
    if s == "" then -1
    else if s[0] == c then 0
    else
      var i := IndexOf(s[1..], c);
      assert s == [s[0]] + s[1..];
      assert i >= 0 ==> s[..i + 1] == [s[0]] + s[1..][..i];
      if i == -1 then -1 else i + 1
  }

  function NameOf(e: string): string { var i := IndexOf(e, '='); if i >= 0 then e[..i] else e }

  function ValueOf(e: string): string { var i := IndexOf(e, '='); if i >= 0 then e[i + 1..] else "" }

  lemma {:induction false} FirstEquals(n: string, v: string)
    requires '=' !in n
    ensures IndexOf(n + "=" + v, '=') == |n| && IndexOf(n, '=') == -1
  {
    if n != "" {
      assert n[0] in n && (n + "=" + v)[1..] == n[1..] + "=" + v;
      FirstEquals(n[1..], v);
    }
  }

  /** An assignment is cut at its first equals sign; without one it is a name with an empty value. */
  lemma AssignmentMeans(n: string, v: string)
    requires '=' !in n
    ensures NameOf(n + "=" + v) == n && ValueOf(n + "=" + v) == v
    ensures NameOf(n) == n && ValueOf(n) == ""
  {
    FirstEquals(n, v);
  }

  function EnvTable(env: seq<string>): Table {
    if env == [] then map[] else EnvTable(env[..|env| - 1])[NameOf(env[|env| - 1]) := ValueOf(env[|env| - 1])]
  }

  method ParseEnvVars(env: seq<string>) returns (table: Table)
    ensures table == EnvTable(env)
  {
    table := map[];
    for i := 0 to |env|
      invariant table == EnvTable(env[..i])
    {
      assert env[..i + 1][..i] == env[..i];
      var e := env[i];
      var idx := IndexOf(e, '=');
      if idx >= 0 {
        table := table[e[..idx] := e[idx + 1..]];
      } else {
        table := table[e := ""];
      }
    }
    assert env[..|env|] == env;
  }

  /** The last assignment to a variable is the one that counts. */
  lemma {:induction false} LastAssignmentWins(env: seq<string>, i: nat)
    requires i < |env| && forall j :: i < j < |env| ==> NameOf(env[j]) != NameOf(env[i])
    ensures NameOf(env[i]) in EnvTable(env) && EnvTable(env)[NameOf(env[i])] == ValueOf(env[i])
  {
    if i < |env| - 1 {
      LastAssignmentWins(env[..|env| - 1], i);
    }
  }

  // ---- Sets: ports and volumes ----

  /** The two sorted lists of what was added and what was removed. */
  ghost predicate IsSetDiff(base: set<string>, target: set<string>, added: seq<string>, removed: seq<string>) {
    StrictlySorted(added) && StrictlySorted(removed)
    && (forall x :: x in added <==> x in target - base) && forall x :: x in removed <==> x in base - target
  }

  method Elements(s: set<string>) returns (r: seq<string>)
    ensures StrictlySorted(r) && forall x :: x in r <==> x in s
  {
    r := [];
    var left := s;
    while left != {}
      invariant left <= s && NoRepeats(r) && forall x :: x in r <==> x in s - left
      decreases left
    {
      var x :| x in left;
      assert x !in r;
      left := left - {x};
      r := r + [x];
    }
    SameMembers(SortStrings(r), r);
    r := SortStrings(r);
  }

  method DiffSets(base: set<string>, target: set<string>) returns (added: seq<string>, removed: seq<string>)
    ensures IsSetDiff(base, target, added, removed)
  {
    added := Elements(target - base);
    removed := Elements(base - target);
  }

  lemma SetDiffIsPatch(base: set<string>, target: set<string>, added: seq<string>, removed: seq<string>)
    requires IsSetDiff(base, target, added, removed)
    ensures base - (set x | x in removed) + (set x | x in added) == target
    ensures |added| > 0 || |removed| > 0 <==> base != target
  {
    assert |added| > 0 ==> added[0] in added;
    assert |removed| > 0 ==> removed[0] in removed;
    var back := base - (set x | x in removed) + (set x | x in added);
    forall x ensures x in back <==> x in target {}
  }

  // ---- The whole configuration ----

  datatype Config = Config(
    user: string, env: seq<string>, sensitiveEnv: seq<string>, entrypoint: seq<string>, cmd: seq<string>,
    workingDir: string, exposedPorts: seq<string>, volumes: seq<string>, labels: Table,
    isRoot: bool, hasHealthcheck: bool)

  datatype ConfigDiff = ConfigDiff(
    userChanged: bool, baseUser: string, targetUser: string,
    rootChanged: bool, baseIsRoot: bool, targetIsRoot: bool,
    envChanges: seq<Change>,
    portsChanged: bool, portsAdded: seq<string>, portsRemoved: seq<string>,
    volumesChanged: bool, volumesAdded: seq<string>, volumesRemoved: seq<string>,
    labelChanges: seq<Change>,
    entrypointChanged: bool, baseEntrypoint: seq<string>, targetEntrypoint: seq<string>,
    cmdChanged: bool, baseCmd: seq<string>, targetCmd: seq<string>,
    workingDirChanged: bool, baseWorkingDir: string, targetWorkingDir: string,
    healthcheckChanged: bool)
  {
    /** Each component's report, against the two configurations. */
    ghost predicate Reports(base: Config, target: Config) {
      ReportsTables(base, target) && ReportsSettings(base, target)
    }

    /** The single-valued settings: old and new value when they differ. */
    ghost predicate ReportsSettings(base: Config, target: Config) {
      (if base.user != target.user then userChanged && baseUser == base.user && targetUser == target.user else !userChanged)
      && (if base.isRoot != target.isRoot then rootChanged && baseIsRoot == base.isRoot && targetIsRoot == target.isRoot else !rootChanged)
      && (if base.entrypoint != target.entrypoint then entrypointChanged && baseEntrypoint == base.entrypoint && targetEntrypoint == target.entrypoint else !entrypointChanged)
      && (if base.cmd != target.cmd then cmdChanged && baseCmd == base.cmd && targetCmd == target.cmd else !cmdChanged)
      && (if base.workingDir != target.workingDir then workingDirChanged && baseWorkingDir == base.workingDir && targetWorkingDir == target.workingDir else !workingDirChanged)
      && healthcheckChanged == (base.hasHealthcheck != target.hasHealthcheck)
    }

    ghost predicate ReportsTables(base: Config, target: Config) {
      IsDiff(EnvTable(base.env), EnvTable(target.env), ToSet(base.sensitiveEnv), envChanges)
      && IsSetDiff(ToSet(base.exposedPorts), ToSet(target.exposedPorts), portsAdded, portsRemoved)
      && portsChanged == (|portsAdded| > 0 || |portsRemoved| > 0)
      && IsSetDiff(ToSet(base.volumes), ToSet(target.volumes), volumesAdded, volumesRemoved)
      && volumesChanged == (|volumesAdded| > 0 || |volumesRemoved| > 0)
      && IsDiff(base.labels, target.labels, {}, labelChanges)
    }

    /** `ConfigChanged` of the report summary. */
    predicate ConfigChanged() {
      userChanged || rootChanged || |envChanges| > 0 || portsChanged || volumesChanged || |labelChanges| > 0
      || entrypointChanged || cmdChanged || workingDirChanged || healthcheckChanged
    }
  }

  /** The summary says unchanged exactly when the configurations agree on every compared component. */
  lemma ConfigChangedExactly(base: Config, target: Config, diff: ConfigDiff)
    requires diff.Reports(base, target)
    ensures !diff.ConfigChanged() <==> SameConfig(base, target)
  {
    DiffEmpty(EnvTable(base.env), EnvTable(target.env), ToSet(base.sensitiveEnv), diff.envChanges);
    DiffEmpty(base.labels, target.labels, {}, diff.labelChanges);
    SetDiffIsPatch(ToSet(base.exposedPorts), ToSet(target.exposedPorts), diff.portsAdded, diff.portsRemoved);
    SetDiffIsPatch(ToSet(base.volumes), ToSet(target.volumes), diff.volumesAdded, diff.volumesRemoved);
  }

  function ToSet(items: seq<string>): set<string> { set x | x in items }

  /** Agreement on everything the comparison looks at. */
  predicate SameConfig(base: Config, target: Config) {
    base.user == target.user && base.isRoot == target.isRoot && EnvTable(base.env) == EnvTable(target.env)
    && ToSet(base.exposedPorts) == ToSet(target.exposedPorts) && ToSet(base.volumes) == ToSet(target.volumes)
    && base.labels == target.labels && base.entrypoint == target.entrypoint && base.cmd == target.cmd
    && base.workingDir == target.workingDir && base.hasHealthcheck == target.hasHealthcheck
  }

  method CompareImageConfigs(base: Config, target: Config) returns (diff: ConfigDiff)
    ensures diff.Reports(base, target)
    ensures !diff.ConfigChanged() <==> SameConfig(base, target)
  {
    var userChanged, baseUser, targetUser := false, "", "";
    if base.user != target.user {
      userChanged, baseUser, targetUser := true, base.user, target.user;
    }
    var rootChanged, baseIsRoot, targetIsRoot := false, false, false;
    if base.isRoot != target.isRoot {
      rootChanged, baseIsRoot, targetIsRoot := true, base.isRoot, target.isRoot;
    }
    var baseEnv := ParseEnvVars(base.env);
    var targetEnv := ParseEnvVars(target.env);
    var env := CompareTables(baseEnv, targetEnv, ToSet(base.sensitiveEnv));
    var portsAdded, portsRemoved := DiffSets(ToSet(base.exposedPorts), ToSet(target.exposedPorts));
    var volumesAdded, volumesRemoved := DiffSets(ToSet(base.volumes), ToSet(target.volumes));
    var labels := CompareTables(base.labels, target.labels, {});
    var entrypointChanged, baseEntrypoint, targetEntrypoint := false, [], [];
    if base.entrypoint != target.entrypoint {
      entrypointChanged, baseEntrypoint, targetEntrypoint := true, base.entrypoint, target.entrypoint;
    }
    var cmdChanged, baseCmd, targetCmd := false, [], [];
    if base.cmd != target.cmd {
      cmdChanged, baseCmd, targetCmd := true, base.cmd, target.cmd;
    }
    var workingDirChanged, baseWorkingDir, targetWorkingDir := false, "", "";
    if base.workingDir != target.workingDir {
      workingDirChanged, baseWorkingDir, targetWorkingDir := true, base.workingDir, target.workingDir;
    }
    diff := ConfigDiff(userChanged, baseUser, targetUser, rootChanged, baseIsRoot, targetIsRoot, env,
                       |portsAdded| > 0 || |portsRemoved| > 0, portsAdded, portsRemoved,
                       |volumesAdded| > 0 || |volumesRemoved| > 0, volumesAdded, volumesRemoved, labels,
                       entrypointChanged, baseEntrypoint, targetEntrypoint, cmdChanged, baseCmd, targetCmd,
                       workingDirChanged, baseWorkingDir, targetWorkingDir, base.hasHealthcheck != target.hasHealthcheck);
    ConfigChangedExactly(base, target, diff);
  }
}

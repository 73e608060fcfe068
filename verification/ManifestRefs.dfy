// internal/dependency/manifest_ref.go: manifest references, merged one by one and put into canonical form.
module ManifestRefs {
  import opened Options
  import opened Text
  import opened Order

  datatype Key = Key(manager: string, path: string)

  datatype ManifestRef = ManifestRef(manager: string, path: string, groups: seq<string>, componentKey: string)

  function KeyOf(r: ManifestRef): Key { Key(r.manager, r.path) }

  predicate Named(r: ManifestRef) { r.path != "" && r.manager != "" }

  // ---- Groups ----

  function AddGroup(groups: seq<string>, g: string): seq<string> {
    var t := TrimSpace(g);
    if t == "" || t in groups then groups else groups + [t]
  }

  function Grouped(base: seq<string>, extra: seq<string>): seq<string> {
    if extra == [] then base else AddGroup(Grouped(base, extra[..|extra| - 1]), extra[|extra| - 1])
  }

  method MergeGroups(base: seq<string>, extra: seq<string>) returns (merged: seq<string>)
    ensures merged == Grouped(base, extra)
  {
    merged := base;
    var seen := set g | g in base;
    for i := 0 to |extra|
      invariant merged == Grouped(base, extra[..i]) && forall g :: g in seen <==> g in merged
    {
      assert extra[..i + 1][..i] == extra[..i];
      var g := TrimSpace(extra[i]);
      if g != "" && g !in seen {
        seen := seen + {g};
        merged := merged + [g];
      }
    }
    assert extra[..|extra|] == extra;
  }

  /** The groups that a list of group names stands for: trimmed, without blanks. */
  function GroupSet(groups: seq<string>): set<string> {
    if groups == [] then {}
    else
      var t := TrimSpace(groups[|groups| - 1]);
      GroupSet(groups[..|groups| - 1]) + if t == "" then {} else {t}
  }

  lemma {:induction false} GroupSetMeans(groups: seq<string>, g: string)
    ensures g in GroupSet(groups) <==> g != "" && exists i :: 0 <= i < |groups| && TrimSpace(groups[i]) == g
  {
    if groups != [] {
      var n := |groups| - 1;
      GroupSetMeans(groups[..n], g);
      if i :| 0 <= i < |groups| && TrimSpace(groups[i]) == g {
        assert i < n ==> groups[..n][i] == groups[i];
      }
    }
  }

  lemma TrimTwice(g: string)
    ensures TrimSpace(TrimSpace(g)) == TrimSpace(g)
  {
    var a, b := TrimSplits(g, IsSpace);
    TrimIs("", TrimSpace(g), "", IsSpace);
    assert "" + TrimSpace(g) + "" == TrimSpace(g);
  }

  lemma {:induction false} GroupSetMember(groups: seq<string>, t: string)
    requires t in groups && TrimSpace(t) == t && t != ""
    ensures t in GroupSet(groups)
  {
    if groups[|groups| - 1] != t {
      GroupSetMember(groups[..|groups| - 1], t);
    }
  }

  /** Merging keeps what is there and adds the trimmed groups. */
  lemma {:induction false} GroupedMeans(base: seq<string>, extra: seq<string>)
    ensures GroupSet(Grouped(base, extra)) == GroupSet(base) + GroupSet(extra)
    ensures forall g :: g in Grouped(base, extra) <==> g in base || g in GroupSet(extra)
    ensures NoRepeats(base) ==> NoRepeats(Grouped(base, extra))
  {
    if extra != [] {
      var n := |extra| - 1;
      var before, t := Grouped(base, extra[..n]), TrimSpace(extra[n]);
      GroupedMeans(base, extra[..n]);
      TrimTwice(extra[n]);
      if t in before && t != "" {
        GroupSetMember(before, t);
      }
    }
  }

  // ---- Merging one reference at a time ----

  /** Where the first reference with key `k` is, or the length of the list. */
  function Find(refs: seq<ManifestRef>, k: Key): (i: nat)
    ensures i <= |refs| && (i < |refs| ==> KeyOf(refs[i]) == k) && forall j :: 0 <= j < i ==> KeyOf(refs[j]) != k
  {
    if refs == [] || KeyOf(refs[0]) == k then 0 else 1 + Find(refs[1..], k)
  }

  function MergeInto(cur: ManifestRef, r: ManifestRef): ManifestRef {
    ManifestRef(cur.manager, cur.path, Grouped(cur.groups, r.groups),
                if cur.componentKey == "" then r.componentKey else cur.componentKey)
  }

  function MergeOne(existing: seq<ManifestRef>, r: ManifestRef): seq<ManifestRef> {
    if !Named(r) then existing
    else
      var i := Find(existing, KeyOf(r));
      if i < |existing| then existing[i := MergeInto(existing[i], r)]
      else existing + [ManifestRef(r.manager, r.path, Grouped([], r.groups), r.componentKey)]
  }

  method MergeManifestRef(existing: seq<ManifestRef>, ref: Option<ManifestRef>) returns (merged: seq<ManifestRef>)
    ensures merged == if ref.Some? then MergeOne(existing, ref.value) else existing
  {
    if ref.None? || ref.value.path == "" || ref.value.manager == "" {
      return existing;
    }
    var r := ref.value;
    for i := 0 to |existing|
      invariant i <= Find(existing, KeyOf(r))
    {
      var cur := existing[i];
      if cur.manager == r.manager && cur.path == r.path {
        var groups := MergeGroups(cur.groups, r.groups);
        var componentKey := cur.componentKey;
        if componentKey == "" {
          componentKey := r.componentKey;
        }
        return existing[i := ManifestRef(cur.manager, cur.path, groups, componentKey)];
      }
    }
    var groups := MergeGroups([], r.groups);
    merged := existing + [ManifestRef(r.manager, r.path, groups, r.componentKey)];
  }

  // ---- What a list of references says ----

  function Keys(refs: seq<ManifestRef>): set<Key> { set r | r in refs :: KeyOf(r) }

  function GroupsOf(refs: seq<ManifestRef>, k: Key): set<string> {
    if refs == [] then {}
    else
      var n := |refs| - 1;
      GroupsOf(refs[..n], k) + if KeyOf(refs[n]) == k then GroupSet(refs[n].groups) else {}
  }

  /** The first component key that is not empty. */
  function ComponentOf(refs: seq<ManifestRef>, k: Key): string {
    if refs == [] then ""
    else
      var n := |refs| - 1;
      var c := ComponentOf(refs[..n], k);
      if c == "" && KeyOf(refs[n]) == k then refs[n].componentKey else c
  }

  predicate SameFor(a: seq<ManifestRef>, b: seq<ManifestRef>, k: Key) {
    (k in Keys(a) <==> k in Keys(b)) && GroupsOf(a, k) == GroupsOf(b, k) && ComponentOf(a, k) == ComponentOf(b, k)
  }

  /** Two lists that say the same about every manifest. */
  ghost predicate SameMeaning(a: seq<ManifestRef>, b: seq<ManifestRef>) { forall k :: SameFor(a, b, k) }

  ghost predicate DistinctKeys(refs: seq<ManifestRef>) {
    forall i, j :: 0 <= i < j < |refs| ==> KeyOf(refs[i]) != KeyOf(refs[j])
  }

  lemma {:induction false} NothingSaid(refs: seq<ManifestRef>, k: Key)
    requires forall i :: 0 <= i < |refs| ==> KeyOf(refs[i]) != k
    ensures GroupsOf(refs, k) == {} && ComponentOf(refs, k) == "" && k !in Keys(refs)
  {
    if refs != [] {
      NothingSaid(refs[..|refs| - 1], k);
    }
  }

  /** What a list says of a manifest: the groups of all its references, and the first component key there is. */
  lemma {:induction false} SaysOf(refs: seq<ManifestRef>, manager: string, path: string, g: string)
    ensures g in GroupsOf(refs, Key(manager, path)) <==>
            exists i :: 0 <= i < |refs| && refs[i].manager == manager && refs[i].path == path && g in GroupSet(refs[i].groups)
  {
    if refs != [] {
      var n := |refs| - 1;
      SaysOf(refs[..n], manager, path, g);
      if i :| 0 <= i < |refs| && refs[i].manager == manager && refs[i].path == path && g in GroupSet(refs[i].groups) {
        assert i < n ==> refs[..n][i] == refs[i];
      }
    }
  }

  lemma {:induction false} FirstComponent(refs: seq<ManifestRef>, manager: string, path: string, i: nat)
    requires i < |refs| && refs[i].manager == manager && refs[i].path == path && refs[i].componentKey != ""
    requires forall j :: 0 <= j < i && refs[j].manager == manager && refs[j].path == path ==> refs[j].componentKey == ""
    ensures ComponentOf(refs, Key(manager, path)) == refs[i].componentKey
  {
    var n := |refs| - 1;
    if i < n {
      FirstComponent(refs[..n], manager, path, i);
    } else {
      NoComponent(refs[..n], manager, path);
    }
  }

  lemma {:induction false} NoComponent(refs: seq<ManifestRef>, manager: string, path: string)
    requires forall j :: 0 <= j < |refs| && refs[j].manager == manager && refs[j].path == path ==> refs[j].componentKey == ""
    ensures ComponentOf(refs, Key(manager, path)) == ""
  {
    if refs != [] {
      NoComponent(refs[..|refs| - 1], manager, path);
    }
  }

  lemma NotAKey(refs: seq<ManifestRef>, k: Key)
    requires k !in Keys(refs)
    ensures GroupsOf(refs, k) == {} && ComponentOf(refs, k) == ""
  {
    forall i | 0 <= i < |refs| ensures KeyOf(refs[i]) != k {
      assert refs[i] in refs;
    }
    NothingSaid(refs, k);
  }

  /** With distinct keys, one reference says it all. */
  lemma {:induction false} SaidByOne(refs: seq<ManifestRef>, i: nat)
    requires i < |refs| && DistinctKeys(refs)
    ensures var k := KeyOf(refs[i]);
            k in Keys(refs) && GroupsOf(refs, k) == GroupSet(refs[i].groups) && ComponentOf(refs, k) == refs[i].componentKey
  {
    var n := |refs| - 1;
    assert refs[i] in refs;
    if i < n {
      SaidByOne(refs[..n], i);
    } else {
      NothingSaid(refs[..n], KeyOf(refs[i]));
    }
  }

  lemma SaidBy(refs: seq<ManifestRef>, k: Key)
    requires DistinctKeys(refs)
    ensures var i := Find(refs, k);
            (k in Keys(refs) <==> i < |refs|)
            && GroupsOf(refs, k) == (if i < |refs| then GroupSet(refs[i].groups) else {})
            && ComponentOf(refs, k) == if i < |refs| then refs[i].componentKey else ""
  {
    var i := Find(refs, k);
    if i < |refs| {
      SaidByOne(refs, i);
    } else {
      NothingSaid(refs, k);
    }
  }

  lemma FindIs(refs: seq<ManifestRef>, i: nat)
    requires i < |refs| && DistinctKeys(refs)
    ensures Find(refs, KeyOf(refs[i])) == i
  {}

  /** Merging a reference in says what appending it says. */
  lemma MergeOneMeans(existing: seq<ManifestRef>, r: ManifestRef)
    requires DistinctKeys(existing) && Named(r)
    ensures DistinctKeys(MergeOne(existing, r))
    ensures SameMeaning(MergeOne(existing, r), existing + [r])
  {
    var merged := MergeOne(existing, r);
    MergeOneDistinct(existing, r);
    forall k ensures SameFor(merged, existing + [r], k) {
      SaidBy(existing, k);
      SaidBy(merged, k);
      MergedEntry(existing, r, k);
    }
  }

  lemma MergeOneDistinct(existing: seq<ManifestRef>, r: ManifestRef)
    requires DistinctKeys(existing) && Named(r)
    ensures DistinctKeys(MergeOne(existing, r))
  {
    var i := Find(existing, KeyOf(r));
    if i < |existing| {
      assert KeyOf(MergeInto(existing[i], r)) == KeyOf(existing[i]);
    }
  }

  lemma MergedEntry(existing: seq<ManifestRef>, r: ManifestRef, k: Key)
    requires DistinctKeys(existing) && DistinctKeys(MergeOne(existing, r)) && Named(r)
    ensures var merged, i := MergeOne(existing, r), Find(existing, k);
            var j := Find(merged, k);
            (j < |merged| <==> i < |existing| || k == KeyOf(r))
            && (j < |merged| ==>
                  GroupSet(merged[j].groups) == (if i < |existing| then GroupSet(existing[i].groups) else {})
                                                + (if k == KeyOf(r) then GroupSet(r.groups) else {})
                  && merged[j].componentKey ==
                       if i < |existing| && (k != KeyOf(r) || existing[i].componentKey != "") then existing[i].componentKey
                       else r.componentKey)
  {
    var merged, i, m := MergeOne(existing, r), Find(existing, k), Find(existing, KeyOf(r));
    if i < |existing| {
      assert KeyOf(merged[i]) == k;
      FindIs(merged, i);
      GroupedMeans(existing[i].groups, r.groups);
      assert i == m <==> k == KeyOf(r);
    } else if k == KeyOf(r) {
      assert KeyOf(merged[|existing|]) == k;
      FindIs(merged, |existing|);
      GroupedMeans([], r.groups);
    } else {
      assert forall j :: 0 <= j < |merged| ==> KeyOf(merged[j]) == if j < |existing| then KeyOf(existing[j]) else KeyOf(r);
    }
  }

  /** The groups after merging a reference in: those of the entry it goes into, if there is one, and its own
      trimmed groups, each added once. */
  lemma MergedGroups(existing: seq<ManifestRef>, r: ManifestRef, g: string)
    requires Named(r)
    ensures var merged, i := MergeOne(existing, r), Find(existing, KeyOf(r));
            i < |merged| && KeyOf(merged[i]) == KeyOf(r)
            && (g in merged[i].groups <==> (i < |existing| && g in existing[i].groups) || g in GroupSet(r.groups))
            && ((i < |existing| ==> NoRepeats(existing[i].groups)) ==> NoRepeats(merged[i].groups))
            && |merged| == (if i < |existing| then |existing| else |existing| + 1)
            && forall j :: 0 <= j < |existing| && j != i ==> merged[j] == existing[j]
  {
    var i := Find(existing, KeyOf(r));
    GroupedMeans(if i < |existing| then existing[i].groups else [], r.groups);
  }

  // ---- Merging a whole list ----

  function MergeAll(refs: seq<ManifestRef>): seq<ManifestRef> {
    if refs == [] then [] else MergeOne(MergeAll(refs[..|refs| - 1]), refs[|refs| - 1])
  }

  /** The references that a merge does not skip. */
  function NamedOnly(refs: seq<ManifestRef>): seq<ManifestRef> {
    if refs == [] then []
    else
      var n := |refs| - 1;
      NamedOnly(refs[..n]) + if Named(refs[n]) then [refs[n]] else []
  }

  lemma AppendKeepsMeaning(a: seq<ManifestRef>, b: seq<ManifestRef>, r: ManifestRef)
    requires SameMeaning(a, b)
    ensures SameMeaning(a + [r], b + [r])
  {
    forall k ensures SameFor(a + [r], b + [r], k) {
      assert SameFor(a, b, k);
    }
  }

  lemma SameMeaningChains(a: seq<ManifestRef>, b: seq<ManifestRef>, c: seq<ManifestRef>)
    requires SameMeaning(a, b) && SameMeaning(b, c)
    ensures SameMeaning(a, c)
  {
    forall k ensures SameFor(a, c, k) {
      assert SameFor(a, b, k) && SameFor(b, c, k);
    }
  }

  lemma {:induction false} MergeAllMeans(refs: seq<ManifestRef>)
    ensures DistinctKeys(MergeAll(refs)) && SameMeaning(MergeAll(refs), NamedOnly(refs))
  {
    if refs != [] {
      var n := |refs| - 1;
      var before, r := MergeAll(refs[..n]), refs[n];
      MergeAllMeans(refs[..n]);
      if Named(r) {
        MergeOneMeans(before, r);
        AppendKeepsMeaning(before, NamedOnly(refs[..n]), r);
        SameMeaningChains(MergeOne(before, r), before + [r], NamedOnly(refs[..n]) + [r]);
      } else {
        assert NamedOnly(refs[..n]) + [] == NamedOnly(refs[..n]);
      }
    }
  }

  // ---- The canonical form ----

  predicate KeyLess(a: Key, b: Key) { Less(a.manager, b.manager) || (a.manager == b.manager && Less(a.path, b.path)) }

  predicate ByKey(a: ManifestRef, b: ManifestRef) { KeyOf(a) == KeyOf(b) || KeyLess(KeyOf(a), KeyOf(b)) }

  ghost predicate SortedByKey(refs: seq<ManifestRef>) {
    forall i, j :: 0 <= i < j < |refs| ==> KeyLess(KeyOf(refs[i]), KeyOf(refs[j]))
  }

  /** One reference per key: all its groups, sorted, and the first component key. */
  ghost predicate IsEntry(r: ManifestRef, refs: seq<ManifestRef>) {
    KeyOf(r) in Keys(refs)
    && StrictlySorted(r.groups) && (forall g :: g in r.groups <==> g in GroupsOf(refs, KeyOf(r)))
    && r.componentKey == ComponentOf(refs, KeyOf(r))
  }

  ghost predicate IsCanonical(out: seq<ManifestRef>, refs: seq<ManifestRef>) {
    SortedByKey(out) && Keys(out) == Keys(refs) && forall r :: r in out ==> IsEntry(r, refs)
  }

  method SortedUniqueStrings(values: seq<string>) returns (out: seq<string>)
    ensures StrictlySorted(out) && forall v :: v in out <==> v in values
  {
    out := [];
    var seen := {};
    for i := 0 to |values|
      invariant NoRepeats(out) && (forall v :: v in seen <==> v in out) && forall v :: v in out <==> v in values[..i]
    {
      assert values[..i + 1] == values[..i] + [values[i]];
      if values[i] !in seen {
        seen := seen + {values[i]};
        out := out + [values[i]];
      }
    }
    assert values[..|values|] == values;
    SameMembers(SortStrings(out), out);
    out := SortStrings(out);
  }

  datatype Value = Value(componentKey: string, groups: seq<string>)

  ghost predicate CollectedFor(merged: map<Key, Value>, refs: seq<ManifestRef>, k: Key) {
    (k in merged <==> k in Keys(refs))
    && (k in merged ==>
          merged[k].componentKey == ComponentOf(refs, k) && forall g :: g in merged[k].groups <==> g in GroupsOf(refs, k))
  }

  ghost predicate Collected(merged: map<Key, Value>, refs: seq<ManifestRef>) {
    forall k :: CollectedFor(merged, refs, k)
  }

  method SortAndUniqueManifestRefs(refs: seq<ManifestRef>) returns (out: seq<ManifestRef>)
    ensures IsCanonical(out, refs)
  {
    if refs == [] {
      return refs;
    }
    var merged: map<Key, Value> := map[];
    for i := 0 to |refs|
      invariant Collected(merged, refs[..i])
    {
      var r := refs[i];
      var k := KeyOf(r);
      var cur := if k in merged then merged[k] else Value("", []);
      var componentKey := if cur.componentKey == "" then r.componentKey else cur.componentKey;
      var groups := MergeGroups(cur.groups, r.groups);
      CollectOne(merged, refs[..i], r);
      merged := merged[k := Value(componentKey, groups)];
      assert refs[..i + 1] == refs[..i] + [r];
    }
    assert refs[..|refs|] == refs;
    assert merged.Keys == Keys(refs) by {
      forall k ensures k in merged.Keys <==> k in Keys(refs) {
        assert CollectedFor(merged, refs, k);
      }
    }
    out := [];
    var left := merged.Keys;
    while left != {}
      invariant left <= merged.Keys && Keys(out) == merged.Keys - left && DistinctKeys(out)
      invariant forall r :: r in out ==> IsEntry(r, refs)
      decreases left
    {
      var k :| k in left;
      left := left - {k};
      var groups := SortedUniqueStrings(merged[k].groups);
      var r := ManifestRef(k.manager, k.path, groups, merged[k].componentKey);
      assert CollectedFor(merged, refs, k) && KeyOf(r) == k;
      assert forall q :: q in out ==> KeyOf(q) in Keys(out);
      forall q ensures (q in Keys(out + [r])) == (q in Keys(out) || q == k) {}
      out := out + [r];
    }
    SortByKey(out, refs);
    out := Sort(out, ByKey);
  }

  function CollectInto(cur: Value, r: ManifestRef): Value {
    Value(if cur.componentKey == "" then r.componentKey else cur.componentKey, Grouped(cur.groups, r.groups))
  }

  lemma CollectOne(merged: map<Key, Value>, refs: seq<ManifestRef>, r: ManifestRef)
    requires Collected(merged, refs)
    ensures var k := KeyOf(r);
            Collected(merged[k := CollectInto(if k in merged then merged[k] else Value("", []), r)], refs + [r])
  {
    var k := KeyOf(r);
    var cur := if k in merged then merged[k] else Value("", []);
    var after := merged[k := CollectInto(cur, r)];
    forall q ensures CollectedFor(after, refs + [r], q) {
      assert CollectedFor(merged, refs, q);
      if q == k {
        CollectOwn(merged, refs, r);
      }
    }
  }

  lemma CollectOwn(merged: map<Key, Value>, refs: seq<ManifestRef>, r: ManifestRef)
    requires CollectedFor(merged, refs, KeyOf(r))
    ensures var k := KeyOf(r);
            var v := CollectInto(if k in merged then merged[k] else Value("", []), r);
            v.componentKey == ComponentOf(refs + [r], k)
            && forall g :: g in v.groups <==> g in GroupsOf(refs + [r], k)
  {
    var k := KeyOf(r);
    var cur := if k in merged then merged[k] else Value("", []);
    GroupedMeans(cur.groups, r.groups);
    if k !in merged {
      NotAKey(refs, k);
    }
  }

  lemma ByKeyOrders(s: seq<ManifestRef>)
    ensures Orders(ByKey, s)
  {
    forall x, y | x in s && y in s ensures ByKey(x, y) || ByKey(y, x) {
      LessTotal(x.manager, y.manager);
      LessTotal(x.path, y.path);
    }
    forall x, y, z | x in s && y in s && z in s && ByKey(x, y) && ByKey(y, z) ensures ByKey(x, z) {
      KeyLessChains(KeyOf(x), KeyOf(y), KeyOf(z));
    }
  }

  lemma KeyLessChains(a: Key, b: Key, c: Key)
    ensures KeyLess(a, b) && KeyLess(b, c) ==> KeyLess(a, c)
  {
    if Less(a.manager, b.manager) && Less(b.manager, c.manager) {
      LessTransitive(a.manager, b.manager, c.manager);
    }
    if Less(a.path, b.path) && Less(b.path, c.path) {
      LessTransitive(a.path, b.path, c.path);
    }
  }

  lemma KeyLessIrreflexive(a: Key)
    ensures !KeyLess(a, a)
  {
    LessTotal(a.manager, a.manager);
    LessTotal(a.path, a.path);
  }

  lemma SortByKey(found: seq<ManifestRef>, refs: seq<ManifestRef>)
    requires DistinctKeys(found) && Keys(found) == Keys(refs) && forall r :: r in found ==> IsEntry(r, refs)
    ensures IsCanonical(Sort(found, ByKey), refs)
  {
    var out := Sort(found, ByKey);
    ByKeyOrders(found);
    SortSorts(found, ByKey);
    SortPermutes(found, ByKey);
    PermutationKeepsNoRepeats(found, out);
    forall r ensures r in out <==> r in found {
      SortMember(found, ByKey, r);
    }
    forall i, j | 0 <= i < j < |out| ensures KeyLess(KeyOf(out[i]), KeyOf(out[j])) {
      assert out[i] in found && out[j] in found && out[i] != out[j];
    }
  }

  lemma SortedIsDistinct(refs: seq<ManifestRef>)
    requires SortedByKey(refs)
    ensures DistinctKeys(refs)
  {
    forall i, j | 0 <= i < j < |refs| ensures KeyOf(refs[i]) != KeyOf(refs[j]) {
      KeyLessIrreflexive(KeyOf(refs[i]));
    }
  }

  /** The canonical form is ordered by manager and then by path, with one reference for every manager and path
      that some reference has, and nothing else. */
  lemma CanonicalOrder(out: seq<ManifestRef>, refs: seq<ManifestRef>, manager: string, path: string)
    requires IsCanonical(out, refs)
    ensures forall i, j :: 0 <= i < j < |out| ==>
              Less(out[i].manager, out[j].manager) || (out[i].manager == out[j].manager && Less(out[i].path, out[j].path))
    ensures (exists r :: r in out && r.manager == manager && r.path == path) <==>
            (exists r :: r in refs && r.manager == manager && r.path == path)
  {
    forall i, j | 0 <= i < j < |out|
      ensures Less(out[i].manager, out[j].manager) || (out[i].manager == out[j].manager && Less(out[i].path, out[j].path))
    {
      assert KeyLess(KeyOf(out[i]), KeyOf(out[j]));
    }
    assert Key(manager, path) in Keys(out) <==> exists r :: r in out && KeyOf(r) == Key(manager, path);
    assert Key(manager, path) in Keys(refs) <==> exists r :: r in refs && KeyOf(r) == Key(manager, path);
  }

  /** Lists that say the same have one canonical form: the order of a map walk leaves no trace. */
  lemma CanonicalUnique(a: seq<ManifestRef>, b: seq<ManifestRef>, refs: seq<ManifestRef>, refs': seq<ManifestRef>)
    requires SameMeaning(refs, refs') && IsCanonical(a, refs) && IsCanonical(b, refs')
    ensures a == b
  {
    forall r ensures r in a ==> r in b {
      if r in a {
        EntryInBoth(a, b, refs, refs', r);
      }
    }
    forall k ensures SameFor(refs', refs, k) {
      assert SameFor(refs, refs', k);
    }
    forall r ensures r in b ==> r in a {
      if r in b {
        EntryInBoth(b, a, refs', refs, r);
      }
    }
    SortedIsDistinct(a);
    SortedIsDistinct(b);
    NoRepeatsSameMembers(a, b);
    forall x, y | x in a && y in a && ByKey(x, y) && ByKey(y, x) ensures x == y {
      KeyLessChains(KeyOf(x), KeyOf(y), KeyOf(x));
      KeyLessIrreflexive(KeyOf(x));
    }
    assert Sorted(a, ByKey) && Sorted(b, ByKey);
    SortedUnique(a, b, ByKey);
  }

  lemma EntryInBoth(a: seq<ManifestRef>, b: seq<ManifestRef>, refs: seq<ManifestRef>, refs': seq<ManifestRef>, r: ManifestRef)
    requires SameMeaning(refs, refs') && IsCanonical(a, refs) && IsCanonical(b, refs') && r in a
    ensures r in b
  {
    var k := KeyOf(r);
    assert SameFor(refs, refs', k) && IsEntry(r, refs);
    assert k in Keys(b);
    var q :| q in b && KeyOf(q) == k;
    assert IsEntry(q, refs');
    StrictlySortedUnique(r.groups, q.groups);
  }

  /** Merging one by one and then canonicalising gives what canonicalising the merged references at once gives. */
  lemma IncrementalIsBatch(refs: seq<ManifestRef>, incremental: seq<ManifestRef>, batch: seq<ManifestRef>)
    requires IsCanonical(incremental, MergeAll(refs)) && IsCanonical(batch, NamedOnly(refs))
    ensures incremental == batch
  {
    MergeAllMeans(refs);
    CanonicalUnique(incremental, batch, MergeAll(refs), NamedOnly(refs));
  }

  lemma {:induction false} NamedOnlyMember(refs: seq<ManifestRef>, r: ManifestRef)
    ensures r in NamedOnly(refs) <==> r in refs && Named(r)
  {
    if refs != [] {
      assert refs == refs[..|refs| - 1] + [refs[|refs| - 1]];
      NamedOnlyMember(refs[..|refs| - 1], r);
    }
  }

  lemma {:induction false} AllNamed(refs: seq<ManifestRef>)
    requires forall i :: 0 <= i < |refs| ==> Named(refs[i])
    ensures NamedOnly(refs) == refs
  {
    if refs != [] {
      var n := |refs| - 1;
      AllNamed(refs[..n]);
      assert refs == refs[..n] + [refs[n]];
    }
  }

  /** On the whole list the two agree exactly when every reference has a path and a manager: the batch form
      keeps references that the incremental form skips. */
  lemma IncrementalIsBatchOnAll(refs: seq<ManifestRef>, incremental: seq<ManifestRef>, batch: seq<ManifestRef>)
    requires IsCanonical(incremental, MergeAll(refs)) && IsCanonical(batch, refs)
    ensures incremental == batch <==> forall r :: r in refs ==> Named(r)
  {
    if forall r :: r in refs ==> Named(r) {
      AllNamed(refs);
      IncrementalIsBatch(refs, incremental, batch);
    } else {
      var r :| r in refs && !Named(r);
      SkippedKey(refs, KeyOf(r));
      assert KeyOf(r) in Keys(batch);
    }
  }

  lemma SkippedKey(refs: seq<ManifestRef>, k: Key)
    requires k.path == "" || k.manager == ""
    ensures k !in Keys(MergeAll(refs))
  {
    MergeAllMeans(refs);
    assert SameFor(MergeAll(refs), NamedOnly(refs), k);
    forall r | r in NamedOnly(refs) ensures KeyOf(r) != k {
      NamedOnlyMember(refs, r);
    }
  }

  /** A canonical list is its own canonical form. */
  lemma CanonicalIsFixed(refs: seq<ManifestRef>, out: seq<ManifestRef>, again: seq<ManifestRef>)
    requires IsCanonical(out, refs) && IsCanonical(again, out)
    ensures again == out
  {
    SortedIsDistinct(out);
    forall k ensures SameFor(out, refs, k) {
      CanonicalSays(refs, out, k);
    }
    CanonicalUnique(again, out, out, refs);
  }

  lemma CanonicalSays(refs: seq<ManifestRef>, out: seq<ManifestRef>, k: Key)
    requires IsCanonical(out, refs) && DistinctKeys(out)
    ensures SameFor(out, refs, k)
  {
    SaidBy(out, k);
    var i := Find(out, k);
    if i < |out| {
      assert out[i] in out && IsEntry(out[i], refs);
      CanonicalGroups(out[i].groups, refs, k);
    } else {
      NotAKey(refs, k);
    }
  }

  lemma {:induction false} GroupsAreTrimmed(refs: seq<ManifestRef>, k: Key, g: string)
    requires g in GroupsOf(refs, k)
    ensures TrimSpace(g) == g && g != ""
  {
    var n := |refs| - 1;
    if g in GroupsOf(refs[..n], k) {
      GroupsAreTrimmed(refs[..n], k, g);
    } else {
      GroupSetTrimmed(refs[n].groups, g);
    }
  }

  lemma {:induction false} GroupSetTrimmed(groups: seq<string>, g: string)
    requires g in GroupSet(groups)
    ensures TrimSpace(g) == g && g != ""
  {
    var n := |groups| - 1;
    if g in GroupSet(groups[..n]) {
      GroupSetTrimmed(groups[..n], g);
    } else {
      TrimTwice(groups[n]);
    }
  }

  lemma {:induction false} TrimmedGroupSet(groups: seq<string>)
    requires forall g :: g in groups ==> TrimSpace(g) == g && g != ""
    ensures forall g :: g in GroupSet(groups) <==> g in groups
  {
    if groups != [] {
      var n := |groups| - 1;
      assert groups == groups[..n] + [groups[n]];
      TrimmedGroupSet(groups[..n]);
    }
  }

  lemma CanonicalGroups(groups: seq<string>, refs: seq<ManifestRef>, k: Key)
    requires forall g :: g in groups <==> g in GroupsOf(refs, k)
    ensures GroupSet(groups) == GroupsOf(refs, k)
  {
    forall g | g in groups ensures TrimSpace(g) == g && g != "" {
      GroupsAreTrimmed(refs, k, g);
    }
    TrimmedGroupSet(groups);
  }
}

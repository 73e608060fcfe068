// internal/license/license.go: the license scan of a local workspace.
module LicenseScan {
  import opened Options
  import opened Order
  import opened LicenseWorkers

  /** `ids` is what license detection reports for the file's contents: empty when unreadable or unknown. */
  datatype Node = File(ids: seq<string>) | Dir(readable: bool, entries: seq<Entry>)
  datatype Entry = Entry(name: string, node: Node)

  /** A path is the list of names from the workspace root; the root itself is the empty path. */
  type Path = seq<string>

  ghost predicate DistinctNames(n: Node) {
    n.Dir? ==>
      (forall i, j :: 0 <= i < j < |n.entries| ==> n.entries[i].name != n.entries[j].name)
      && forall e :: e in n.entries ==> DistinctNames(e.node)
  }

  function Find(entries: seq<Entry>, name: string): Option<Node> {
    if entries == [] then None
    else if entries[0].name == name then Some(entries[0].node)
    else Find(entries[1..], name)
  }

  function Lookup(n: Node, p: Path): Option<Node>
    decreases |p|
  {
    if p == [] then Some(n)
    else if n.File? then None
    else match Find(n.entries, p[0])
      case None => None
      case Some(child) => Lookup(child, p[1..])
  }

  lemma {:induction false} FindEntry(entries: seq<Entry>, k: nat)
    requires k < |entries| && forall i, j :: 0 <= i < j < |entries| ==> entries[i].name != entries[j].name
    ensures Find(entries, entries[k].name) == Some(entries[k].node)
  {
    if k > 0 {
      FindEntry(entries[1..], k - 1);
    }
  }

  lemma {:induction false} FindNames(entries: seq<Entry>, name: string)
    requires Find(entries, name).Some?
    ensures exists k :: 0 <= k < |entries| && entries[k].name == name
  {
    if entries[0].name != name {
      FindNames(entries[1..], name);
      var k :| 0 <= k < |entries[1..]| && entries[1..][k].name == name;
      assert entries[k + 1].name == name;
    }
  }

  lemma {:induction false} LookupStep(n: Node, d: Path, rest: Path)
    ensures Lookup(n, d + rest) == (if Lookup(n, d).Some? then Lookup(Lookup(n, d).value, rest) else None)
    decreases |d|
  {
    if d == [] {
      assert d + rest == rest;
    } else {
      assert (d + rest)[1..] == d[1..] + rest;
      if n.Dir? && Find(n.entries, d[0]).Some? {
        LookupStep(Find(n.entries, d[0]).value, d[1..], rest);
      }
    }
  }

  lemma {:induction false} LookupDistinct(n: Node, d: Path)
    requires DistinctNames(n) && Lookup(n, d).Some?
    ensures DistinctNames(Lookup(n, d).value)
    decreases |d|
  {
    if d != [] {
      FindIsEntry(n.entries, d[0]);
      LookupDistinct(Find(n.entries, d[0]).value, d[1..]);
    }
  }

  lemma {:induction false} FindIsEntry(entries: seq<Entry>, name: string)
    requires Find(entries, name).Some?
    ensures exists e :: e in entries && e.name == name && e.node == Find(entries, name).value
  {
    if entries[0].name == name {
      assert entries[0] in entries;
    } else {
      FindIsEntry(entries[1..], name);
    }
  }

  // ---- Names ----

  const DEFAULT_NAMES: seq<string> :=
    ["LICENSE", "LICENSE.txt", "LICENSE.md", "COPYING", "COPYING.txt", "COPYRIGHT", "UNLICENSE"]

  /** `unicode.ToLower`, for the characters whose lower case is one of the letters compared below. */
  function LowerChar(c: char): char {
    if 'A' <= c <= 'Z' then c + 32 as char else if c == '\U{0130}' then 'i' else c
  }

  function Lower(s: string): string { seq(|s|, i requires 0 <= i < |s| => LowerChar(s[i])) }

  predicate LicenseNamed(name: string) {
    var l := Lower(name);
    "license" <= l || "copying" <= l || l == "copyright" || l == "unlicense" || "licence" <= l
  }

  predicate Hidden(name: string) { "." <= name && name != "." }

  // ---- What the scan examines ----

  predicate DirAt(root: Node, d: Path) { Lookup(root, d).Some? && Lookup(root, d).value.Dir? }

  predicate ReadableAt(root: Node, d: Path) { DirAt(root, d) && Lookup(root, d).value.readable }

  predicate FileAt(root: Node, p: Path) { Lookup(root, p).Some? && Lookup(root, p).value.File? }

  predicate WalkedDir(root: Node, d: Path) {
    |d| <= 3 && (forall i :: 0 <= i < |d| ==> !Hidden(d[i]))
    && DirAt(root, d) && forall i :: 0 <= i < |d| ==> ReadableAt(root, d[..i])
  }

  /** A license-named file with at most two separators in its path, no hidden ancestor, and every
      ancestor readable. */
  predicate Shallow(root: Node, p: Path) {
    1 <= |p| <= 3 && LicenseNamed(p[|p| - 1]) && FileAt(root, p)
    && (forall i :: 0 <= i < |p| - 1 ==> !Hidden(p[i]))
    && forall i :: 0 <= i < |p| ==> ReadableAt(root, p[..i])
  }

  predicate WellKnown(root: Node, p: Path) { |p| == 1 && p[0] in DEFAULT_NAMES && FileAt(root, p) }

  /** The well-known names are looked up at the root even when the root cannot be listed. */
  predicate Examined(root: Node, p: Path) {
    Shallow(root, p)
    || WellKnown(root, p)
  }

  // ---- Which files those are ----

  /** The same letter in either case; a capital I may carry its dot. */
  predicate SameLetter(c: char, l: char) {
    c == l || ('a' <= l <= 'z' && c as int == l as int - 'a' as int + 'A' as int) || (l == 'i' && c == '\U{0130}')
  }

  /** `name` starts with the small letters `word`, in any case. */
  predicate Starts(name: string, word: string) {
    |word| <= |name| && forall i :: 0 <= i < |word| ==> SameLetter(name[i], word[i])
  }

  predicate SmallLetters(word: string) { forall i :: 0 <= i < |word| ==> 'a' <= word[i] <= 'z' }

  lemma LowerStarts(name: string, word: string)
    requires SmallLetters(word)
    ensures word <= Lower(name) <==> Starts(name, word)
    ensures word == Lower(name) <==> Starts(name, word) && |name| == |word|
  {
    assert |Lower(name)| == |name|;
    if Starts(name, word) {
      assert forall i :: 0 <= i < |word| ==> Lower(name)[i] == word[i];
    }
    if word <= Lower(name) {
      assert forall i :: 0 <= i < |word| ==> Lower(name)[i] == word[i];
    }
  }

  /** The names that look like a license, in any case: those that start with `license`, `licence` or `copying`,
      and `copyright` and `unlicense` themselves. */
  lemma LicenseNames(name: string)
    ensures LicenseNamed(name) <==>
            Starts(name, "license") || Starts(name, "licence") || Starts(name, "copying")
            || (Starts(name, "copyright") && |name| == 9) || (Starts(name, "unlicense") && |name| == 9)
  {
    LowerStarts(name, "license");
    LowerStarts(name, "licence");
    LowerStarts(name, "copying");
    LowerStarts(name, "copyright");
    LowerStarts(name, "unlicense");
  }

  lemma DefaultNames(name: string)
    ensures name in DEFAULT_NAMES <==>
            name == "LICENSE" || name == "LICENSE.txt" || name == "LICENSE.md" || name == "COPYING"
            || name == "COPYING.txt" || name == "COPYRIGHT" || name == "UNLICENSE"
  {}

  /** A directory that the traversal may enter: its name does not start with a dot, except for the dot itself. */
  predicate Plain(name: string) { name == "." || name == "" || name[0] != '.' }

  predicate CanBeListed(n: Option<Node>) {
    match n
    case Some(Dir(readable, _)) => readable
    case _ => false
  }

  /** A file in the directory `d` is examined exactly when its name looks like a license, it is at most two
      directories deep, none of them hidden, and all of them and the root can be listed; or when it is in the
      root under one of the well-known names. */
  lemma ExaminedExactly(root: Node, d: Path, name: string)
    ensures Examined(root, d + [name]) <==>
            Lookup(root, d + [name]).Some? && Lookup(root, d + [name]).value.File?
            && ((LicenseNamed(name) && |d| <= 2 && (forall i :: 0 <= i < |d| ==> Plain(d[i]))
                 && forall i :: 0 <= i <= |d| ==> CanBeListed(Lookup(root, d[..i])))
                || (d == [] && name in DEFAULT_NAMES))
  {
    var p := d + [name];
    assert forall i :: 0 <= i <= |d| ==> p[..i] == d[..i];
    assert forall i :: 0 <= i < |d| ==> p[i] == d[i];
    forall n: string ensures Hidden(n) <==> !Plain(n) {
      assert "." <= n ==> n[0] == '.';
      assert n != "" && n[0] == '.' ==> n[..1] == ".";
    }
  }

  function Size(n: Node): nat { match n case File(_) => 1 case Dir(_, entries) => 1 + Sizes(entries) }

  function Sizes(entries: seq<Entry>): nat {
    if entries == [] then 0 else Size(entries[0].node) + Sizes(entries[1..])
  }

  lemma {:induction false} SizesAppend(a: seq<Entry>, e: Entry)
    ensures Sizes(a + [e]) == Sizes(a) + Size(e.node)
  {
    if a != [] {
      assert (a + [e])[1..] == a[1..] + [e];
      SizesAppend(a[1..], e);
    } else {
      assert a + [e] == [e];
    }
  }

  ghost function Work(root: Node, stack: seq<Path>): nat {
    if stack == [] then 0
    else Work(root, stack[..|stack| - 1])
         + if Lookup(root, stack[|stack| - 1]).Some? then Size(Lookup(root, stack[|stack| - 1]).value) else 0
  }

  /** Reaching a shallow file from a walked directory goes through exactly one of its entries. */
  lemma NextEntry(root: Node, d: Path, p: Path)
    requires DistinctNames(root) && WalkedDir(root, d) && Shallow(root, p) && d < p
    ensures exists k :: 0 <= k < |Lookup(root, d).value.entries| && Lookup(root, d).value.entries[k].name == p[|d|]
  {
    assert p == d + p[|d|..];
    LookupStep(root, d, p[|d|..]);
    FindNames(Lookup(root, d).value.entries, p[|d|]);
  }

  lemma ChildLookup(root: Node, d: Path, k: nat)
    requires DistinctNames(root) && Lookup(root, d).Some? && Lookup(root, d).value.Dir?
    requires k < |Lookup(root, d).value.entries|
    ensures var e := Lookup(root, d).value.entries[k]; Lookup(root, d + [e.name]) == Some(e.node)
  {
    var e := Lookup(root, d).value.entries[k];
    LookupStep(root, d, [e.name]);
    LookupDistinct(root, d);
    FindEntry(Lookup(root, d).value.entries, k);
  }

  method WellKnownFiles(root: Node) returns (found: seq<Path>)
    ensures forall p :: p in found <==> WellKnown(root, p)
  {
    found := [];
    for i := 0 to |DEFAULT_NAMES|
      invariant forall p :: p in found <==> WellKnown(root, p) && p[0] in DEFAULT_NAMES[..i]
    {
      var name := DEFAULT_NAMES[i];
      assert DEFAULT_NAMES[..i + 1] == DEFAULT_NAMES[..i] + [name] && name in DEFAULT_NAMES;
      assert forall p: Path :: |p| == 1 && p[0] == name ==> p == [name];
      if FileAt(root, [name]) {
        found := found + [[name]];
      }
    }
    assert DEFAULT_NAMES[..|DEFAULT_NAMES|] == DEFAULT_NAMES;
  }

  /** The traversal: an explicit stack of directories still to list. */
  method CollectCandidates(root: Node) returns (candidates: seq<Path>)
    requires root.Dir? && DistinctNames(root)
    ensures forall p :: p in candidates <==> Examined(root, p)
  {
    candidates := WellKnownFiles(root);
    var stack: seq<Path> := [[]];
    assert [] in stack && forall p :: Shallow(root, p) ==> [] < p;
    while stack != []
      invariant forall d :: d in stack ==> WalkedDir(root, d)
      invariant forall p :: p in candidates ==> Examined(root, p)
      invariant forall p :: WellKnown(root, p) ==> p in candidates
      invariant forall p :: Shallow(root, p) ==> p in candidates || exists d :: d in stack && d < p
      decreases Work(root, stack)
    {
      candidates, stack := Visit(root, candidates, stack);
    }
  }

  /** One turn of the loop: pop a directory, list it, push its directories and record its license files. */
  method Visit(root: Node, candidates: seq<Path>, stack: seq<Path>) returns (candidates': seq<Path>, stack': seq<Path>)
    requires DistinctNames(root) && stack != []
    requires forall d :: d in stack ==> WalkedDir(root, d)
    requires forall p :: p in candidates ==> Examined(root, p)
    requires forall p :: Shallow(root, p) ==> p in candidates || exists d :: d in stack && d < p
    ensures forall d :: d in stack' ==> WalkedDir(root, d)
    ensures forall p :: p in candidates ==> p in candidates'
    ensures forall p :: p in candidates' ==> Examined(root, p)
    ensures forall p :: Shallow(root, p) ==> p in candidates' || exists d :: d in stack' && d < p
    ensures Work(root, stack') < Work(root, stack)
  {
    var current := stack[|stack| - 1];
    var rest := stack[..|stack| - 1];
    assert stack == rest + [current] && current in stack && WalkedDir(root, current);
    if !Lookup(root, current).value.readable {
      candidates', stack' := candidates, rest;
    } else {
      candidates', stack' := List(root, current, candidates, rest);
    }
    forall p | Shallow(root, p) && p !in candidates' ensures exists d :: d in stack' && d < p {
      var d :| d in stack && d < p;
      assert ReadableAt(root, p[..|d|]) && p[..|d|] == d;
      if d == current {
        NextEntry(root, current, p);
        var k :| 0 <= k < |Lookup(root, d).value.entries| && Lookup(root, d).value.entries[k].name == p[|d|];
        assert EntryCovered(root, current, k, candidates', stack');
      } else {
        assert d in rest;
      }
    }
  }

  method List(root: Node, current: Path, candidates: seq<Path>, rest: seq<Path>)
    returns (candidates': seq<Path>, stack: seq<Path>)
    requires DistinctNames(root) && WalkedDir(root, current) && ReadableAt(root, current)
    requires forall d :: d in rest ==> WalkedDir(root, d)
    requires forall p :: p in candidates ==> Examined(root, p)
    ensures forall d :: d in rest ==> d in stack
    ensures forall d :: d in stack ==> WalkedDir(root, d)
    ensures forall p :: p in candidates ==> p in candidates'
    ensures forall p :: p in candidates' ==> Examined(root, p)
    ensures forall j :: 0 <= j < |Lookup(root, current).value.entries| ==> EntryCovered(root, current, j, candidates', stack)
    ensures Work(root, stack) <= Work(root, rest) + Sizes(Lookup(root, current).value.entries)
  {
    var entries := Lookup(root, current).value.entries;
    candidates', stack := candidates, rest;
    for k := 0 to |entries|
      invariant forall d :: d in rest ==> d in stack
      invariant forall d :: d in stack ==> WalkedDir(root, d)
      invariant forall p :: p in candidates ==> p in candidates'
      invariant forall p :: p in candidates' ==> Examined(root, p)
      invariant forall j :: 0 <= j < k ==> EntryCovered(root, current, j, candidates', stack)
      invariant Work(root, stack) <= Work(root, rest) + Sizes(entries[..k])
    {
      assert entries[..k + 1] == entries[..k] + [entries[k]];
      SizesAppend(entries[..k], entries[k]);
      ghost var c0, s0 := candidates', stack;
      candidates', stack := ListEntry(root, current, k, candidates', stack);
      forall j | 0 <= j < k ensures EntryCovered(root, current, j, candidates', stack) {
        CoveredGrows(root, current, j, c0, s0, candidates', stack);
      }
    }
    assert entries[..|entries|] == entries;
  }

  /** Every shallow file reached through entry `j` is recorded, or below a directory still to list. */
  ghost predicate EntryCovered(root: Node, current: Path, j: nat, candidates: seq<Path>, stack: seq<Path>)
    requires DirAt(root, current) && j < |Lookup(root, current).value.entries|
  {
    forall p :: Shallow(root, p) && current < p && p[|current|] == Lookup(root, current).value.entries[j].name
                ==> p in candidates || exists d :: d in stack && d < p
  }

  lemma CoveredGrows(root: Node, current: Path, j: nat, c: seq<Path>, s: seq<Path>, c': seq<Path>, s': seq<Path>)
    requires DirAt(root, current) && j < |Lookup(root, current).value.entries| && EntryCovered(root, current, j, c, s)
    requires (forall p :: p in c ==> p in c') && forall d :: d in s ==> d in s'
    ensures EntryCovered(root, current, j, c', s')
  {}

  lemma PushedIsWalked(root: Node, d: Path, k: nat)
    requires DistinctNames(root) && WalkedDir(root, d) && ReadableAt(root, d) && |d| <= 2
    requires k < |Lookup(root, d).value.entries| && Lookup(root, d).value.entries[k].node.Dir?
    requires !Hidden(Lookup(root, d).value.entries[k].name)
    ensures WalkedDir(root, d + [Lookup(root, d).value.entries[k].name])
  {
    var rel := d + [Lookup(root, d).value.entries[k].name];
    ChildLookup(root, d, k);
    forall i | 0 <= i < |rel| ensures rel[..i] == d[..i] && ReadableAt(root, rel[..i]) {
      assert i == |d| ==> d[..i] == d;
    }
  }

  /** What has to be kept of entry `k` for its shallow files to be covered. */
  lemma EntryIsCovered(root: Node, d: Path, k: nat, candidates: seq<Path>, stack: seq<Path>)
    requires DistinctNames(root) && WalkedDir(root, d) && k < |Lookup(root, d).value.entries|
    requires var e := Lookup(root, d).value.entries[k];
             if e.node.Dir? then Hidden(e.name) || |d| > 2 || d + [e.name] in stack
             else |d| > 2 || !LicenseNamed(e.name) || d + [e.name] in candidates
    ensures EntryCovered(root, d, k, candidates, stack)
  {
    ThroughEntry(root, d, k);
  }

  method ListEntry(root: Node, current: Path, k: nat, candidates: seq<Path>, stack: seq<Path>)
    returns (candidates': seq<Path>, stack': seq<Path>)
    requires DistinctNames(root) && WalkedDir(root, current) && ReadableAt(root, current)
    requires k < |Lookup(root, current).value.entries|
    ensures candidates <= candidates' && forall p :: p in candidates' ==> p in candidates || Examined(root, p)
    ensures stack <= stack' && forall d :: d in stack' ==> d in stack || WalkedDir(root, d)
    ensures EntryCovered(root, current, k, candidates', stack')
    ensures Work(root, stack') <= Work(root, stack) + Size(Lookup(root, current).value.entries[k].node)
  {
    var e := Lookup(root, current).value.entries[k];
    var rel := current + [e.name];
    candidates', stack' := candidates, stack;
    ChildLookup(root, current, k);
    if e.node.Dir? {
      if Hidden(e.name) || |rel| - 1 > 2 {
        EntryIsCovered(root, current, k, candidates', stack');
        return;
      }
      PushedIsWalked(root, current, k);
      stack' := stack + [rel];
      assert stack'[..|stack'| - 1] == stack && stack'[|stack|] == rel;
      EntryIsCovered(root, current, k, candidates', stack');
      return;
    }
    if |rel| - 1 > 2 {
      EntryIsCovered(root, current, k, candidates', stack');
      return;
    }
    if LicenseNamed(e.name) {
      FileIsShallow(root, current, k);
      candidates' := candidates + [rel];
      assert candidates'[|candidates|] == rel;
    }
    EntryIsCovered(root, current, k, candidates', stack');
  }

  /** A shallow file reached through entry `k` is that entry itself, or lies below it. */
  lemma ThroughEntry(root: Node, d: Path, k: nat)
    requires DistinctNames(root) && WalkedDir(root, d) && k < |Lookup(root, d).value.entries|
    ensures var e := Lookup(root, d).value.entries[k];
            forall p :: Shallow(root, p) && d < p && p[|d|] == e.name ==>
              if e.node.File? then p == d + [e.name] && |p| <= 3 && LicenseNamed(e.name)
              else d + [e.name] < p && !Hidden(e.name) && |d| + 1 <= 2
  {
    var e := Lookup(root, d).value.entries[k];
    var rel := d + [e.name];
    ChildLookup(root, d, k);
    forall p | Shallow(root, p) && d < p && p[|d|] == e.name
      ensures if e.node.File? then p == rel && |p| <= 3 && LicenseNamed(e.name)
              else rel < p && !Hidden(e.name) && |d| + 1 <= 2
    {
      assert p[..|rel|] == rel;
      if |p| > |rel| {
        assert ReadableAt(root, p[..|rel|]);
      } else {
        assert p == rel;
      }
    }
  }

  lemma FileIsShallow(root: Node, d: Path, k: nat)
    requires DistinctNames(root) && WalkedDir(root, d) && ReadableAt(root, d)
    requires k < |Lookup(root, d).value.entries| && Lookup(root, d).value.entries[k].node.File? && |d| <= 2
    requires LicenseNamed(Lookup(root, d).value.entries[k].name)
    ensures Shallow(root, d + [Lookup(root, d).value.entries[k].name])
  {
    var rel := d + [Lookup(root, d).value.entries[k].name];
    ChildLookup(root, d, k);
    forall i | 0 <= i < |rel| ensures rel[..i] == d[..i] {}
  }

  // ---- The result ----

  function IdsAt(root: Node, p: Path): seq<string> { if FileAt(root, p) then Lookup(root, p).value.ids else [] }

  ghost predicate FoundIn(root: Node, paths: seq<Path>, id: string) {
    id != "" && exists p :: p in paths && id in IdsAt(root, p)
  }

  ghost predicate Detected(root: Node, id: string) {
    id != "" && exists p :: Examined(root, p) && id in IdsAt(root, p)
  }

  /** An identifier is reported exactly when it is not blank and some examined file holds it. */
  lemma DetectedMeans(root: Node, id: string)
    ensures Detected(root, id) <==>
            id != "" && exists p :: Examined(root, p) && match Lookup(root, p)
                                                         case Some(File(ids)) => id in ids
                                                         case _ => false
  {}

  function NonBlank(ids: seq<string>): seq<string> {
    if ids == [] then [] else NonBlank(ids[..|ids| - 1]) + if ids[|ids| - 1] == "" then [] else [ids[|ids| - 1]]
  }

  lemma {:induction false} NonBlankMeans(ids: seq<string>, id: string)
    ensures id in NonBlank(ids) <==> id in ids && id != ""
  {
    if ids != [] {
      assert ids == ids[..|ids| - 1] + [ids[|ids| - 1]];
      NonBlankMeans(ids[..|ids| - 1], id);
    }
  }

  /** What each goroutine puts on the channel. */
  function WorkOf(root: Node, candidates: seq<Path>): Work {
    seq(|candidates|, i requires 0 <= i < |candidates| => NonBlank(IdsAt(root, candidates[i])))
  }

  lemma WorkMeans(root: Node, candidates: seq<Path>, id: string)
    ensures id in AllItems(WorkOf(root, candidates), |candidates|) <==> FoundIn(root, candidates, id)
  {
    var work := WorkOf(root, candidates);
    ItemsAreFrom(work, |candidates|, id);
    forall i | 0 <= i < |candidates| ensures id in work[i] <==> id != "" && id in IdsAt(root, candidates[i]) {
      NonBlankMeans(IdsAt(root, candidates[i]), id);
    }
    if FoundIn(root, candidates, id) {
      var p :| p in candidates && id in IdsAt(root, p);
      var i :| 0 <= i < |candidates| && candidates[i] == p;
      assert id in work[i];
    }
    if i :| 0 <= i < |candidates| && id in work[i] {
      assert candidates[i] in candidates;
    }
  }

  /** The launcher, the goroutines and the reader, in the order `schedule` moves them. */
  method Schedule(work: Work, schedule: seq<Move>) returns (s: State)
    ensures s == Run(work, Start(work), schedule)
  {
    s := Start(work);
    for i := 0 to |schedule|
      invariant s == Run(work, Start(work), schedule[..i])
    {
      assert schedule[..i + 1][..i] == schedule[..i];
      s := Step(work, s, schedule[i]);
    }
    assert schedule[..|schedule|] == schedule;
  }

  /** Duplicates are dropped as they arrive, and the rest is sorted. */
  method Collect(arrivals: seq<string>) returns (out: seq<string>)
    ensures StrictlySorted(out) && forall id :: id in out <==> id in arrivals
  {
    var seen: set<string> := {};
    out := [];
    for i := 0 to |arrivals|
      invariant NoRepeats(out) && (forall id :: id in out <==> id in seen) && forall id :: id in seen <==> id in arrivals[..i]
    {
      assert arrivals[..i + 1] == arrivals[..i] + [arrivals[i]];
      if arrivals[i] in seen {
        continue;
      }
      seen := seen + {arrivals[i]};
      out := out + [arrivals[i]];
    }
    assert arrivals[..|arrivals|] == arrivals;
    SameMembers(SortStrings(out), out);
    out := SortStrings(out);
  }

  /** Whatever schedule the goroutines run in, a scan that returns yields the strictly sorted list of the
      identifiers detected in the examined files, and there is only one such list. None is a scan that the
      schedule leaves running or hanging. */
  method LocalRepoLicenseScan(root: Node, schedule: seq<Move>) returns (out: Option<seq<string>>, ghost candidates: seq<Path>)
    requires root.Dir? && DistinctNames(root)
    ensures forall p :: p in candidates <==> Examined(root, p)
    ensures var work := WorkOf(root, candidates);
            out.Some? <==> candidates == [] || Returned(work, Run(work, Start(work), schedule))
    ensures out.Some? ==> StrictlySorted(out.value) && forall id :: id in out.value <==> Detected(root, id)
    ensures out.Some? ==> forall other :: StrictlySorted(other) && (forall id :: id in other <==> Detected(root, id)) ==> other == out.value
  {
    var found := CollectCandidates(root);
    candidates := found;
    var list: seq<string> := [];
    if found != [] {
      var work := WorkOf(root, found);
      var s := Schedule(work, schedule);
      if !Returned(work, s) {
        return None, candidates;
      }
      list := Collect(s.received);
      ReturnedHasAll(work, schedule);
      assert forall id :: id in s.received <==> id in multiset(s.received);
    }
    OneList(root, candidates, list);
    out := Some(list);
  }

  lemma OneList(root: Node, candidates: seq<Path>, list: seq<string>)
    requires forall p :: p in candidates <==> Examined(root, p)
    requires StrictlySorted(list) && forall id :: id in list <==> id in AllItems(WorkOf(root, candidates), |candidates|)
    ensures forall id :: id in list <==> Detected(root, id)
    ensures forall other :: StrictlySorted(other) && (forall id :: id in other <==> Detected(root, id)) ==> other == list
  {
    forall id ensures id in list <==> Detected(root, id) {
      WorkMeans(root, candidates, id);
    }
    forall other | StrictlySorted(other) && forall id :: id in other <==> Detected(root, id) ensures other == list {
      StrictlySortedUnique(other, list);
    }
  }
}

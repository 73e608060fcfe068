/** Slash-separated paths, as Go's `path` package treats them. */
module Paths {
  import opened Text

  predicate NoSlash(s: string) { '/' !in s }

  function Split(p: string): (segs: seq<string>)
    ensures segs != []
    decreases |p|
  {
    if p == "" then [""]
    else
      var rest := Split(p[1..]);
      if p[0] == '/' then [""] + rest else [[p[0]] + rest[0]] + rest[1..]
  }

  function Join(segs: seq<string>): string {
    if segs == [] then "" else if |segs| == 1 then segs[0] else segs[0] + "/" + Join(segs[1..])
  }

  lemma {:induction false} SplitSegments(p: string)
    ensures forall s :: s in Split(p) ==> NoSlash(s)
    decreases |p|
  {
    if p != "" {
      SplitSegments(p[1..]);
      var rest := Split(p[1..]);
      assert rest[0] in rest && forall s :: s in rest[1..] ==> s in rest;
    }
  }

  lemma {:induction false} SplitName(s: string)
    requires NoSlash(s)
    ensures Split(s) == [s]
    decreases |s|
  {
    if s != "" {
      assert s[0] in s && forall c :: c in s[1..] ==> c in s;
      SplitName(s[1..]);
      assert s == [s[0]] + s[1..];
    }
  }

  lemma {:induction false} SplitAtSlash(s: string, t: string)
    requires NoSlash(s)
    ensures Split(s + "/" + t) == [s] + Split(t)
    decreases |s|
  {
    var p := s + "/" + t;
    if s == "" {
      assert p[1..] == t;
    } else {
      assert s[0] in s && forall c :: c in s[1..] ==> c in s;
      assert p[1..] == s[1..] + "/" + t;
      SplitAtSlash(s[1..], t);
      assert s == [s[0]] + s[1..];
    }
  }

  lemma {:induction false} SplitJoin(segs: seq<string>)
    requires segs != [] && forall s :: s in segs ==> NoSlash(s)
    ensures Split(Join(segs)) == segs
  {
    assert segs[0] in segs;
    if |segs| == 1 {
      SplitName(segs[0]);
    } else {
      assert forall s :: s in segs[1..] ==> s in segs;
      SplitJoin(segs[1..]);
      SplitAtSlash(segs[0], Join(segs[1..]));
    }
  }

  // ---- path.Clean ----

  /** One more segment: empty and "." vanish, ".." takes back the segment before it when it can. */
  function Push(rooted: bool, out: seq<string>, seg: string): seq<string> {
    if seg == "" || seg == "." then out
    else if seg != ".." then out + [seg]
    else if out != [] && out[|out| - 1] != ".." then out[..|out| - 1]
    else if rooted then out
    else out + [seg]
  }

  function CleanSegs(rooted: bool, segs: seq<string>): seq<string> {
    if segs == [] then [] else Push(rooted, CleanSegs(rooted, segs[..|segs| - 1]), segs[|segs| - 1])
  }

  function Rooted(p: string): bool { p != "" && p[0] == '/' }

  /** A cleaned path: whether it starts at the root, and its segments. */
  datatype Clean = Clean(rooted: bool, segs: seq<string>) {
    function Show(): string {
      if rooted then "/" + Join(segs) else if segs == [] then "." else Join(segs)
    }

    ghost predicate Normal() {
      (forall i :: 0 <= i < |segs| ==> NoSlash(segs[i]) && segs[i] != "" && segs[i] != ".")
      && (rooted ==> ".." !in segs)
      && forall i, j :: 0 <= i < j < |segs| && segs[j] == ".." ==> segs[i] == ".."
    }
  }

  function CleanOf(p: string): Clean { Clean(Rooted(p), CleanSegs(Rooted(p), Split(p))) }

  /** The directory part of a path, cleaned: `path.Dir` is its printed form. */
  function DirOf(p: string): Clean {
    Clean(Rooted(p), CleanSegs(Rooted(p), Split(p)[..|Split(p)| - 1]))
  }

  function Dir(p: string): string { DirOf(p).Show() }

  function Base(p: string): string {
    var t := TrimRight(p, IsSlash);
    if p == "" then "." else if t == "" then "/" else Split(t)[|Split(t)| - 1]
  }

  lemma {:induction false} CleanIsNormal(rooted: bool, segs: seq<string>)
    requires forall s :: s in segs ==> NoSlash(s)
    ensures Clean(rooted, CleanSegs(rooted, segs)).Normal()
  {
    if segs != [] {
      assert segs[|segs| - 1] in segs;
      CleanIsNormal(rooted, segs[..|segs| - 1]);
    }
  }

  lemma DirIsNormal(p: string)
    ensures DirOf(p).Normal()
  {
    SplitSegments(p);
    assert forall s :: s in Split(p)[..|Split(p)| - 1] ==> s in Split(p);
    CleanIsNormal(Rooted(p), Split(p)[..|Split(p)| - 1]);
  }

  lemma CleanLast(rooted: bool, segs: seq<string>, seg: string)
    ensures CleanSegs(rooted, segs + [seg]) == Push(rooted, CleanSegs(rooted, segs), seg)
  {
    assert (segs + [seg])[..|segs|] == segs;
  }

  predicate Name(s: string) { s != "" && s != "." && s != ".." }

  /** What cleaning makes of one more segment: empty ones and dots vanish, names stay, and a name is taken back
      by the two dots behind it. */
  lemma CleanSteps(rooted: bool, segs: seq<string>, name: string)
    requires Name(name)
    ensures CleanSegs(rooted, segs + [""]) == CleanSegs(rooted, segs) == CleanSegs(rooted, segs + ["."])
    ensures CleanSegs(rooted, segs + [name]) == CleanSegs(rooted, segs) + [name]
    ensures CleanSegs(rooted, segs + [name] + [".."]) == CleanSegs(rooted, segs)
  {
    CleanLast(rooted, segs, "");
    CleanLast(rooted, segs, ".");
    CleanLast(rooted, segs, name);
    CleanLast(rooted, segs + [name], "..");
  }

  /** Nothing is above the root, and above the start of a relative path the two dots stay. */
  lemma CleanAbove(rooted: bool, segs: seq<string>)
    requires forall s :: s in CleanSegs(rooted, segs) ==> s == ".."
    ensures CleanSegs(true, []) == []
    ensures !rooted ==> CleanSegs(rooted, segs + [".."]) == CleanSegs(rooted, segs) + [".."]
    ensures rooted && CleanSegs(rooted, segs) == [] ==> CleanSegs(rooted, segs + [".."]) == []
  {
    var out := CleanSegs(rooted, segs);
    CleanLast(rooted, segs, "..");
    assert out != [] ==> out[|out| - 1] in out;
  }

  lemma {:induction false} SplitBehind(d: string, n: string)
    requires NoSlash(n)
    ensures Split(d + "/" + n) == Split(d) + [n]
    decreases |d|
  {
    var p := d + "/" + n;
    if d == "" {
      assert p[1..] == n;
      SplitName(n);
    } else {
      assert p[1..] == d[1..] + "/" + n && p[0] == d[0];
      SplitBehind(d[1..], n);
    }
  }

  /** The empty path and the root. */
  lemma EmptyAndRoot()
    ensures Base("") == "." && Base("/") == "/"
    ensures Clean(false, []).Show() == "." && Clean(true, []).Show() == "/"
    ensures Dir("") == "." && Dir("/") == "/"
  {
    assert Split("") == [""] && [""][..0] == [];
    DirAndBase("", "");
    assert "" + "/" + "" == "/";
    assert TrimRight("/", IsSlash) == TrimRight("/"[..0], IsSlash) == "";
  }

  /** The directory and the base name of `d/n`. */
  lemma DirAndBase(d: string, n: string)
    requires NoSlash(n)
    ensures DirOf(d + "/" + n) == if d == "" then Clean(true, []) else CleanOf(d)
    ensures n != "" ==> Base(d + "/" + n) == Base(n) == n
    ensures DirOf(n) == Clean(false, [])
  {
    var p := d + "/" + n;
    SplitBehind(d, n);
    SplitName(n);
    assert (Split(d) + [n])[..|Split(d)|] == Split(d);
    assert [""][..0] == [];
    if n != "" {
      assert n[|n| - 1] in n;
      assert p[|p| - 1] == n[|n| - 1];
    }
    if d == "" {
      SplitName("");
      CleanLast(true, [], "");
      assert [] + [""] == [""];
    } else {
      assert p[0] == d[0];
    }
  }

  /** Cleaning a cleaned path changes nothing. */
  lemma {:induction false} CleanNormal(c: Clean)
    requires c.Normal()
    ensures CleanSegs(c.rooted, c.segs) == c.segs
    decreases |c.segs|
  {
    if c.segs != [] {
      var head := Clean(c.rooted, c.segs[..|c.segs| - 1]);
      AboveIsNormal(head, c);
      CleanNormal(head);
      PushNormal(c);
    }
  }

  lemma PushNormal(c: Clean)
    requires c.Normal() && c.segs != []
    ensures Push(c.rooted, c.segs[..|c.segs| - 1], c.segs[|c.segs| - 1]) == c.segs
  {
    var n := |c.segs| - 1;
    assert c.segs == c.segs[..n] + [c.segs[n]];
    if c.segs[n] == ".." {
      assert c.segs[n] in c.segs;
      assert n > 0 ==> c.segs[n - 1] == "..";
    }
  }

  lemma {:induction false} CleanSkipsLeadingEmpty(rooted: bool, segs: seq<string>)
    ensures CleanSegs(rooted, [""] + segs) == CleanSegs(rooted, segs)
  {
    if segs == [] {
      assert [""] + segs == [""] && [""][..0] == [];
    } else {
      assert ([""] + segs)[..|segs|] == [""] + segs[..|segs| - 1];
      CleanSkipsLeadingEmpty(rooted, segs[..|segs| - 1]);
    }
  }

  lemma SplitShow(c: Clean)
    requires c.Normal() && c.segs != []
    ensures Rooted(c.Show()) == c.rooted
    ensures Split(c.Show()) == (if c.rooted then [""] else []) + c.segs
  {
    SplitJoin(c.segs);
    assert c.segs[0][0] in c.segs[0];
    assert Join(c.segs)[0] == c.segs[0][0];
    if c.rooted {
      assert "/" + Join(c.segs) == "" + "/" + Join(c.segs);
      SplitAtSlash("", Join(c.segs));
    }
  }

  /** `path.Dir` of a cleaned path drops its last segment. */
  lemma DirDropsLast(c: Clean)
    requires c.Normal() && c.segs != []
    ensures DirOf(c.Show()) == Clean(c.rooted, c.segs[..|c.segs| - 1])
  {
    var head := c.segs[..|c.segs| - 1];
    CleanNormal(Clean(c.rooted, head));
    if c.rooted {
      CleanSkipsLeadingEmpty(true, head);
    }
    SplitShow(c);
    assert Split(c.Show())[..|Split(c.Show())| - 1] == if c.rooted then [""] + head else head;
  }

  lemma ShowIsNotTop(c: Clean)
    requires c.Normal() && c.segs != []
    ensures c.Show() != "." && c.Show() != "/"
  {
    SplitShow(c);
    SplitName(".");
    SplitName("");
    SplitAtSlash("", "");
    assert "" + "/" + "" == "/" + "" == "/";
    assert c.segs[0] != "" && c.segs[0] != ".";
  }

  /** Different cleaned paths print differently. */
  lemma ShowInjective(c: Clean, d: Clean)
    requires c.Normal() && d.Normal() && c.Show() == d.Show()
    ensures c == d
  {
    if c.segs != [] {
      ShowIsNotTop(c);
    }
    if d.segs != [] {
      ShowIsNotTop(d);
    }
    assert c.rooted && c.segs == [] ==> c.Show() == "/";
    assert d.rooted && d.segs == [] ==> d.Show() == "/";
    if c.segs != [] && d.segs != [] {
      SplitShow(c);
      SplitShow(d);
      assert ([""] + c.segs)[1..] == c.segs && ([""] + d.segs)[1..] == d.segs;
      assert [] + c.segs == c.segs && [] + d.segs == d.segs;
    }
  }

  /** `d` is a prefix of `c`: the same path, or what is left of it after dropping trailing segments. */
  predicate AtOrAbove(d: Clean, c: Clean) { d.rooted == c.rooted && d.segs <= c.segs }

  lemma AboveIsNormal(d: Clean, c: Clean)
    requires AtOrAbove(d, c) && c.Normal()
    ensures d.Normal()
  {
    assert forall i :: 0 <= i < |d.segs| ==> d.segs[i] == c.segs[i];
  }
}

// internal/globmatch: path matchers compiled from gitignore-flavoured patterns.
module GlobMatch {
  import opened Text
  import opened Glob

  datatype Compiled<+T> = Ok(value: T) | Malformed(pattern: string)

  /** A matcher holds its compiled globs, each identified by its expression. */
  datatype Matcher = Matcher(globs: seq<string>) {
    predicate Selects(p: string) {
      var t := PathOf(p);
      t != "" && exists g :: g in globs && Matches(g, t)
    }
  }

  function ToSlash(p: string): string {
    seq(|p|, i requires 0 <= i < |p| => if p[i] == '\\' then '/' else p[i])
  }

  /** The path a matcher looks at: slash-separated, without outer slashes. */
  function PathOf(p: string): string { Trim(ToSlash(p), IsSlash) }

  function Strip(p: string): string {
    if HasSuffix(p, "/**") then Strip(p[..|p| - 3])
    else if HasSuffix(p, "/") then Strip(p[..|p| - 1])
    else p
  }

  function Normal(p: string): string { Strip(TrimSpace(ToSlash(p))) }

  method Normalize(p: string) returns (q: string)
    ensures q == Normal(p)
  {
    q := TrimSpace(ToSlash(p));
    while true
      invariant Strip(q) == Normal(p)
      decreases |q|
    {
      if HasSuffix(q, "/**") {
        q := q[..|q| - 3];
      } else if HasSuffix(q, "/") {
        q := q[..|q| - 1];
      } else {
        return;
      }
    }
  }

  function Expand(base: string, anyDepth: bool): seq<string> {
    [base, base + "/**"]
    + if '/' !in base then ["**/" + base, "**/" + base + "/**"]
      else if "**/" <= base then [base[3..], base[3..] + "/**"]
      else if anyDepth then ["**/" + base, "**/" + base + "/**"]
      else []
  }

  ghost predicate Wanted(raw: string, anyDepth: bool, expr: string) {
    Normal(raw) != "" && expr != "" && expr in Expand(Normal(raw), anyDepth)
  }

  ghost predicate Selected(patterns: seq<string>, anyDepth: bool, p: string) {
    PathOf(p) != "" && exists raw, e :: raw in patterns && Wanted(raw, anyDepth, e) && Matches(e, PathOf(p))
  }

  ghost predicate AnyWants(patterns: seq<string>, anyDepth: bool, expr: string) {
    patterns != []
    && (AnyWants(patterns[..|patterns| - 1], anyDepth, expr) || Wanted(patterns[|patterns| - 1], anyDepth, expr))
  }

  lemma AnyWantsAppend(patterns: seq<string>, last: string, anyDepth: bool)
    ensures forall e :: AnyWants(patterns + [last], anyDepth, e) <==> AnyWants(patterns, anyDepth, e) || Wanted(last, anyDepth, e)
  {
    assert (patterns + [last])[..|patterns|] == patterns;
  }

  lemma {:induction false} WantedByOne(patterns: seq<string>, anyDepth: bool, expr: string) returns (k: nat)
    requires AnyWants(patterns, anyDepth, expr)
    ensures k < |patterns| && Wanted(patterns[k], anyDepth, expr)
  {
    k := |patterns| - 1;
    if !Wanted(patterns[k], anyDepth, expr) {
      k := WantedByOne(patterns[..k], anyDepth, expr);
    }
  }

  lemma {:induction false} OneWants(patterns: seq<string>, anyDepth: bool, expr: string, k: nat)
    requires k < |patterns| && Wanted(patterns[k], anyDepth, expr)
    ensures AnyWants(patterns, anyDepth, expr)
  {
    if k < |patterns| - 1 {
      OneWants(patterns[..|patterns| - 1], anyDepth, expr, k);
    }
  }

  lemma WantedAreSelected(globs: seq<string>, patterns: seq<string>, anyDepth: bool)
    requires forall e :: e in globs <==> AnyWants(patterns, anyDepth, e)
    ensures forall p :: Matcher(globs).Selects(p) <==> Selected(patterns, anyDepth, p)
  {
    forall p ensures Matcher(globs).Selects(p) <==> Selected(patterns, anyDepth, p) {
      var t := PathOf(p);
      if g :| g in globs && Matches(g, t) {
        var k := WantedByOne(patterns, anyDepth, g);
        assert patterns[k] in patterns;
      }
      if raw, e :| raw in patterns && Wanted(raw, anyDepth, e) && Matches(e, t) {
        var k :| 0 <= k < |patterns| && patterns[k] == raw;
        OneWants(patterns, anyDepth, e, k);
      }
    }
  }

  ghost predicate Distinct(s: seq<string>) { forall i, j :: 0 <= i < j < |s| ==> s[i] != s[j] }

  /** Adds the expressions not compiled yet, stopping at the first malformed one. */
  method Add(globs: seq<string>, seen: set<string>, exprs: seq<string>)
    returns (ok: bool, globs': seq<string>, seen': set<string>)
    requires Distinct(globs) && forall e :: e in globs <==> e in seen
    ensures ok ==> forall e :: e in exprs && e != "" && e !in seen ==> InDialect(e)
    ensures !ok ==> exists e :: e in exprs && !InDialect(e)
    ensures ok ==> Distinct(globs') && forall e :: e in globs' <==> e in seen'
    ensures ok ==> forall e :: e in seen' <==> e in seen || (e != "" && e in exprs)
  {
    globs', seen' := globs, seen;
    for i := 0 to |exprs|
      invariant Distinct(globs') && forall e :: e in globs' <==> e in seen'
      invariant forall e :: e in seen' <==> e in seen || (e != "" && e in exprs[..i])
      invariant forall e :: e in exprs[..i] && e != "" && e !in seen ==> InDialect(e)
    {
      var expr := exprs[i];
      assert exprs[..i + 1] == exprs[..i] + [expr];
      if expr == "" || expr in seen' {
        continue;
      }
      if !InDialect(expr) {
        return false, globs', seen';
      }
      seen' := seen' + {expr};
      globs' := globs' + [expr];
    }
    assert exprs[..|exprs|] == exprs;
    ok := true;
  }

  ghost predicate FirstMalformed(patterns: seq<string>, k: nat) {
    k < |patterns| && !InDialect(Normal(patterns[k])) && forall j :: 0 <= j < k ==> InDialect(Normal(patterns[j]))
  }

  /** Adds the variants of one pattern; a blank pattern adds nothing. */
  method AddPattern(raw: string, anyDepth: bool, globs: seq<string>, seen: set<string>)
    returns (ok: bool, globs': seq<string>, seen': set<string>)
    requires Distinct(globs) && (forall e :: e in globs <==> e in seen) && forall e :: e in seen ==> InDialect(e)
    ensures ok <==> InDialect(Normal(raw))
    ensures ok ==> Distinct(globs') && (forall e :: e in globs' <==> e in seen') && forall e :: e in seen' ==> InDialect(e)
    ensures ok ==> forall e :: e in seen' <==> e in seen || Wanted(raw, anyDepth, e)
  {
    var base := Normalize(raw);
    if base == "" {
      return true, globs, seen;
    }
    StripLeavesNoSlash(TrimSpace(ToSlash(raw)));
    VariantsShareDialect(base, anyDepth);
    assert base in Expand(base, anyDepth);
    ok, globs', seen' := Add(globs, seen, Expand(base, anyDepth));
  }

  ghost predicate WellFormed(patterns: seq<string>) {
    patterns != [] ==> WellFormed(patterns[..|patterns| - 1]) && InDialect(Normal(patterns[|patterns| - 1]))
  }

  lemma {:induction false} WellFormedMeans(patterns: seq<string>)
    ensures WellFormed(patterns) <==> forall raw :: raw in patterns ==> InDialect(Normal(raw))
  {
    if patterns != [] {
      var n := |patterns| - 1;
      WellFormedMeans(patterns[..n]);
      assert patterns == patterns[..n] + [patterns[n]];
    }
  }

  lemma FirstIsMalformed(patterns: seq<string>, k: nat)
    requires k < |patterns| && WellFormed(patterns[..k]) && !InDialect(Normal(patterns[k]))
    ensures FirstMalformed(patterns, k) && !WellFormed(patterns)
  {
    WellFormedMeans(patterns[..k]);
    WellFormedMeans(patterns);
    assert patterns[k] in patterns && forall j :: 0 <= j < k ==> patterns[j] in patterns[..k];
  }

  /** What the patterns visited so far have added. */
  ghost predicate CompiledSoFar(globs: seq<string>, seen: set<string>, patterns: seq<string>, anyDepth: bool) {
    Distinct(globs) && (forall e :: e in globs <==> e in seen) && (forall e :: e in seen ==> InDialect(e))
    && WellFormed(patterns) && forall e :: e in globs <==> AnyWants(patterns, anyDepth, e)
  }

  method CompileNext(ghost before: seq<string>, raw: string, anyDepth: bool, globs: seq<string>, seen: set<string>)
    returns (ok: bool, globs': seq<string>, seen': set<string>)
    requires CompiledSoFar(globs, seen, before, anyDepth)
    ensures ok <==> InDialect(Normal(raw))
    ensures ok ==> CompiledSoFar(globs', seen', before + [raw], anyDepth)
  {
    AnyWantsAppend(before, raw, anyDepth);
    assert (before + [raw])[..|before|] == before;
    ok, globs', seen' := AddPattern(raw, anyDepth, globs, seen);
  }

  method Compile(patterns: seq<string>, anyDepth: bool) returns (r: Compiled<Matcher>)
    ensures r.Ok? <==> WellFormed(patterns)
    ensures r.Ok? ==> Distinct(r.value.globs) && forall p :: r.value.Selects(p) <==> Selected(patterns, anyDepth, p)
    ensures r.Malformed? ==> exists k: nat :: FirstMalformed(patterns, k) && patterns[k] == r.pattern
  {
    var globs: seq<string>, seen: set<string> := [], {};
    for k := 0 to |patterns|
      invariant CompiledSoFar(globs, seen, patterns[..k], anyDepth)
    {
      var ok;
      ok, globs, seen := CompileNext(patterns[..k], patterns[k], anyDepth, globs, seen);
      if !ok {
        FirstIsMalformed(patterns, k);
        return Malformed(patterns[k]);
      }
      assert patterns[..k + 1] == patterns[..k] + [patterns[k]];
    }
    assert patterns[..|patterns|] == patterns;
    WantedAreSelected(globs, patterns, anyDepth);
    r := Ok(Matcher(globs));
  }

  method MatchPath(m: Matcher, p: string) returns (found: bool)
    ensures found == m.Selects(p)
  {
    if m.globs == [] {
      return false;
    }
    var t := PathOf(p);
    if t == "" {
      return false;
    }
    for i := 0 to |m.globs|
      invariant forall j :: 0 <= j < i ==> !Matches(m.globs[j], t)
    {
      if Matches(m.globs[i], t) {
        return true;
      }
    }
    return false;
  }

  lemma {:induction false} StripLeavesNoSlash(p: string)
    ensures Strip(p) <= p && !HasSuffix(Strip(p), "/") && !HasSuffix(Strip(p), "/**")
  {
    if HasSuffix(p, "/**") {
      StripLeavesNoSlash(p[..|p| - 3]);
    } else if HasSuffix(p, "/") {
      StripLeavesNoSlash(p[..|p| - 1]);
    }
  }

  // The first expression compiled for a base is the base itself, and no variant adds a character
  // from outside the dialect.
  lemma VariantsShareDialect(base: string, anyDepth: bool)
    requires !HasSuffix(base, "/") && base != ""
    ensures Expand(base, anyDepth)[0] == base
    ensures InDialect(base) <==> forall e :: e in Expand(base, anyDepth) ==> e != "" && InDialect(e)
  {
    assert base in Expand(base, anyDepth);
    DialectAppend(base, "/**");
    DialectAppend("**/", base);
    DialectAppend("**/" + base, "/**");
    if "**/" <= base {
      assert base == "**/" + base[3..];
      DialectAppend("**/", base[3..]);
      DialectAppend(base[3..], "/**");
    }
  }

  lemma DialectAppend(a: string, b: string)
    ensures InDialect(a + b) <==> InDialect(a) && InDialect(b)
    ensures InDialect("**/") && InDialect("/**")
  {
    assert forall c :: c in a + b <==> c in a || c in b;
    assert forall c :: c in "**/" || c in "/**" ==> c == '*' || c == '/';
  }

  // ---- What a pattern denotes ----

  function Core(base: string): string { if "**/" <= base then base[3..] else base }

  predicate Deep(base: string, anyDepth: bool) { anyDepth || '/' !in base || "**/" <= base }

  /** The segments of `t` from `a` to `i` are whole, and match the core of the pattern. */
  predicate RunMatches(base: string, anyDepth: bool, t: string, a: int, i: int) {
    0 <= a <= i && Cut(t, i) && (a == 0 || t[a - 1] == '/') && (Deep(base, anyDepth) || a == 0)
    && Matches(Core(base), t[a..i])
  }

  ghost predicate Denotes(base: string, anyDepth: bool, t: string) {
    exists a, i :: RunMatches(base, anyDepth, t, a, i)
  }

  ghost predicate Under(expr: string, t: string) { exists i :: Cut(t, i) && Matches(expr, t[..i]) }

  lemma UnderAnyDepth(core: string, t: string)
    ensures Under("**/" + core, t) <==>
            exists a, i :: 0 < a <= i && Cut(t, i) && t[a - 1] == '/' && Matches(core, t[a..i])
  {
    forall i | Cut(t, i)
      ensures Matches("**/" + core, t[..i]) <==> exists a :: 0 < a <= i && t[a - 1] == '/' && Matches(core, t[a..i])
    {
      AnyDepthIsSuffix(core, t[..i]);
      if j :| 0 <= j < i && t[..i][j] == '/' && Matches(core, t[..i][j + 1..]) {
        assert t[..i][j + 1..] == t[j + 1..i];
        assert t[(j + 1) - 1] == '/';
      }
      if a :| 0 < a <= i && t[a - 1] == '/' && Matches(core, t[a..i]) {
        assert t[..i][a - 1] == '/' && t[..i][(a - 1) + 1..] == t[a..i];
      }
    }
  }

  /** The variants compiled for a pattern select a path exactly when some run of whole segments of it,
      anchored at the root unless the pattern is deep, matches the core of the pattern. */
  lemma ExpansionDenotes(base: string, anyDepth: bool, t: string)
    requires base != "" && !HasSuffix(base, "/")
    ensures (exists e :: e in Expand(base, anyDepth) && e != "" && Matches(e, t)) <==> Denotes(base, anyDepth, t)
  {
    var core := Core(base);
    SubtreeIsAncestor(base, t);
    SubtreeIsAncestor(core, t);
    SubtreeIsAncestor("**/" + core, t);
    UnderAnyDepth(core, t);
    assert "**/" <= base ==> base == "**/" + core;
    var out := Expand(base, anyDepth);
    assert (exists e :: e in out && e != "" && Matches(e, t)) <==>
           Under(core, t) || (Deep(base, anyDepth) && Under("**/" + core, t)) by {
      assert out[0] == base && out[1] == base + "/**";
      if Deep(base, anyDepth) {
        assert |out| == 4;
        assert "**/" <= base ==> out[2] == core && out[3] == core + "/**";
        assert !("**/" <= base) ==> out[2] == "**/" + core && out[3] == "**/" + core + "/**";
      } else {
        assert |out| == 2;
      }
      assert forall k :: 0 <= k < |out| ==> out[k] in out && out[k] != "";
      assert Matches(base, t) || Matches(base + "/**", t) <==> Under(base, t);
      assert Matches(core, t) || Matches(core + "/**", t) <==> Under(core, t);
      assert Matches("**/" + core, t) || Matches("**/" + core + "/**", t) <==> Under("**/" + core, t);
    }
    if i :| Cut(t, i) && Matches(core, t[..i]) {
      assert t[0..i] == t[..i];
      assert RunMatches(base, anyDepth, t, 0, i);
    }
    if Deep(base, anyDepth) {
      if a, i :| 0 < a <= i && Cut(t, i) && t[a - 1] == '/' && Matches(core, t[a..i]) {
        assert RunMatches(base, anyDepth, t, a, i);
      }
    }
    if a, i :| RunMatches(base, anyDepth, t, a, i) {
      if a == 0 {
        assert t[0..i] == t[..i];
        assert Under(core, t);
      }
    }
  }

  lemma SelectedDenotes(patterns: seq<string>, anyDepth: bool, p: string)
    ensures Selected(patterns, anyDepth, p) <==>
            PathOf(p) != "" && exists raw :: raw in patterns && Normal(raw) != "" && Denotes(Normal(raw), anyDepth, PathOf(p))
  {
    forall raw | raw in patterns && Normal(raw) != ""
      ensures (exists e :: Wanted(raw, anyDepth, e) && Matches(e, PathOf(p))) <==> Denotes(Normal(raw), anyDepth, PathOf(p))
    {
      StripLeavesNoSlash(TrimSpace(ToSlash(raw)));
      ExpansionDenotes(Normal(raw), anyDepth, PathOf(p));
      forall e | e in Expand(Normal(raw), anyDepth) && e != ""
        ensures Wanted(raw, anyDepth, e)
      {}
    }
  }

  // ---- Laws of the matcher ----

  lemma AnyDepthWidens(patterns: seq<string>, p: string)
    requires Selected(patterns, false, p)
    ensures Selected(patterns, true, p)
  {
    SelectedDenotes(patterns, false, p);
    SelectedDenotes(patterns, true, p);
    var raw :| raw in patterns && Normal(raw) != "" && Denotes(Normal(raw), false, PathOf(p));
    var a, i :| RunMatches(Normal(raw), false, PathOf(p), a, i);
    assert RunMatches(Normal(raw), true, PathOf(p), a, i);
  }

  lemma ToSlashAppend(a: string, b: string)
    ensures ToSlash(a + b) == ToSlash(a) + ToSlash(b)
  {}

  /** A backslash counts as a separator, in patterns and in paths. */
  lemma BackslashIsSlash(a: string, b: string)
    ensures Normal(a + "\\" + b) == Normal(a + "/" + b)
    ensures PathOf(a + "\\" + b) == PathOf(a + "/" + b)
    ensures '\\' !in a ==> ToSlash(a) == a
  {
    assert ToSlash(a + "\\" + b) == ToSlash(a + "/" + b);
  }

  /** Trimming what ends in a separator and continues with a trimmed core keeps the separator or drops all. */
  lemma TrimBelow(u: string, t: string, r: string) returns (x: string)
    requires u != "" && u[|u| - 1] == '/' && t != "" && Trimmed(t, IsSlash) && All(r, IsSlash)
    ensures Trim(u + t + r, IsSlash) == x + t && (x == "" || x[|x| - 1] == '/')
  {
    var a := TrimLeftSplits(u, IsSlash);
    x := TrimLeft(u, IsSlash);
    assert u + t + r == a + (x + t) + r;
    assert (x + t)[|x + t| - 1] == t[|t| - 1];
    TrimIs(a, x + t, r, IsSlash);
  }

  lemma TrimWithin(l: string, t: string, u: string) returns (y: string)
    requires u != "" && u[0] == '/' && t != "" && Trimmed(t, IsSlash) && All(l, IsSlash)
    ensures Trim(l + t + u, IsSlash) == t + y && (y == "" || y[0] == '/')
  {
    var b := TrimRightSplits(u, IsSlash);
    y := TrimRight(u, IsSlash);
    assert l + t + u == l + (t + y) + b;
    assert (t + y)[0] == t[0];
    TrimIs(l, t + y, b, IsSlash);
  }

  lemma PathOfBelow(d: string, p: string) returns (x: string)
    requires PathOf(p) != ""
    ensures PathOf(d + "/" + p) == x + PathOf(p) && (x == "" || x[|x| - 1] == '/')
  {
    var t := PathOf(p);
    var l, r := TrimSplits(ToSlash(p), IsSlash);
    ToSlashAppend(d + "/", p);
    ToSlashAppend(d, "/");
    var slash := ToSlash(d) + "/";
    assert l != "" ==> l[|l| - 1] in l;
    x := TrimBelow(slash + l, t, r);
    assert ToSlash("/") == "/";
    assert ToSlash(d + "/" + p) == slash + ToSlash(p) == slash + (l + t + r);
    Regroup(slash, l, t, r);
  }

  lemma Regroup(a: string, b: string, c: string, d: string)
    ensures a + (b + c + d) == (a + b) + c + d
  {}

  lemma PathOfWithin(p: string, e: string) returns (y: string)
    requires PathOf(p) != ""
    ensures PathOf(p + "/" + e) == PathOf(p) + y && (y == "" || y[0] == '/')
  {
    var t := PathOf(p);
    var l, r := TrimSplits(ToSlash(p), IsSlash);
    ToSlashAppend(p + "/", e);
    ToSlashAppend(p, "/");
    var u := r + "/" + ToSlash(e);
    assert r != "" ==> r[0] in r;
    y := TrimWithin(l, t, u);
    assert ToSlash(p + "/" + e) == l + t + u;
  }

  lemma RunShifts(base: string, t: string, a: int, i: int, x: string)
    requires RunMatches(base, true, t, a, i) && (x == "" || x[|x| - 1] == '/')
    ensures RunMatches(base, true, x + t, |x| + a, |x| + i)
  {
    assert (x + t)[|x| + a..|x| + i] == t[a..i];
  }

  lemma RunExtends(base: string, anyDepth: bool, t: string, a: int, i: int, y: string)
    requires RunMatches(base, anyDepth, t, a, i) && (y == "" || y[0] == '/')
    ensures RunMatches(base, anyDepth, t + y, a, i)
  {
    assert (t + y)[a..i] == t[a..i];
  }

  /** With any-depth matching, a selected path stays selected below any further directories. */
  lemma LeadingDirectoriesKeep(patterns: seq<string>, d: string, p: string)
    requires Selected(patterns, true, p)
    ensures Selected(patterns, true, d + "/" + p)
  {
    SelectedDenotes(patterns, true, p);
    SelectedDenotes(patterns, true, d + "/" + p);
    var t := PathOf(p);
    var x := PathOfBelow(d, p);
    var raw :| raw in patterns && Normal(raw) != "" && Denotes(Normal(raw), true, t);
    var a, i :| RunMatches(Normal(raw), true, t, a, i);
    RunShifts(Normal(raw), t, a, i, x);
  }

  /** In both modes, everything beneath a selected path is selected. */
  lemma SubtreeIsSelected(patterns: seq<string>, anyDepth: bool, p: string, e: string)
    requires Selected(patterns, anyDepth, p)
    ensures Selected(patterns, anyDepth, p + "/" + e)
  {
    SelectedDenotes(patterns, anyDepth, p);
    SelectedDenotes(patterns, anyDepth, p + "/" + e);
    var t := PathOf(p);
    var y := PathOfWithin(p, e);
    var raw :| raw in patterns && Normal(raw) != "" && Denotes(Normal(raw), anyDepth, t);
    var a, i :| RunMatches(Normal(raw), anyDepth, t, a, i);
    RunExtends(Normal(raw), anyDepth, t, a, i, y);
  }

  /** Any mix of the two optional suffixes; `true` stands for the one with the stars. */
  function Suffix(units: seq<bool>): string {
    if units == [] then "" else Suffix(units[..|units| - 1]) + if units[|units| - 1] then "/**" else "/"
  }

  lemma StripDropsUnit(q: string)
    ensures Strip(q + "/") == Strip(q) && Strip(q + "/**") == Strip(q)
  {
    assert (q + "/")[..|q + "/"| - 1] == q && HasSuffix(q + "/", "/");
    assert (q + "/")[|q|] == '/';
    assert (q + "/**")[..|q + "/**"| - 3] == q && HasSuffix(q + "/**", "/**");
  }

  lemma {:induction false} StripDropsSuffix(q: string, units: seq<bool>)
    ensures Strip(q + Suffix(units)) == Strip(q)
  {
    if units == [] {
      assert q + Suffix(units) == q;
    } else {
      var head := q + Suffix(units[..|units| - 1]);
      assert q + Suffix(units) == head + if units[|units| - 1] then "/**" else "/";
      StripDropsUnit(head);
      StripDropsSuffix(q, units[..|units| - 1]);
    }
  }

  lemma {:induction false} SuffixIsSlashes(units: seq<bool>)
    ensures ToSlash(Suffix(units)) == Suffix(units)
    ensures units != [] ==> Suffix(units) != "" && !IsSpace(Suffix(units)[0]) && !IsSpace(Suffix(units)[|Suffix(units)| - 1])
  {
    if units != [] {
      SuffixIsSlashes(units[..|units| - 1]);
    }
  }

  predicate EndsInSpace(s: string) { s != "" && IsSpace(s[|s| - 1]) }

  // `p`, `p/`, `p/**` and any further mix of those suffixes compile to the same expressions exactly
  // when `p` does not end in white space, or is nothing but white space.
  lemma SpellingsCompileAlike(p: string, units: seq<bool>)
    requires units != []
    ensures Normal(p + Suffix(units)) == Normal(p) <==> !EndsInSpace(p) || TrimSpace(p) == ""
  {
    var core := TrimLeft(ToSlash(p), IsSpace);
    NormalWithSuffix(p, units);
    TrimLeftEnds(ToSlash(p));
    SpacesSurviveToSlash(p);
    if core == "" {
      assert Normal(p) == Strip("");
    } else {
      CoreEnds(core);
    }
  }

  lemma NormalWithSuffix(p: string, units: seq<bool>)
    requires units != []
    ensures Normal(p + Suffix(units)) == Strip(TrimLeft(ToSlash(p), IsSpace))
  {
    var s, t := ToSlash(p), Suffix(units);
    SuffixIsSlashes(units);
    ToSlashAppend(p, t);
    TrimSpaceWithSuffix(s, t);
    StripDropsSuffix(TrimLeft(s, IsSpace), units);
  }

  lemma TrimSpaceWithSuffix(s: string, t: string)
    requires t != "" && !IsSpace(t[0]) && !IsSpace(t[|t| - 1])
    ensures TrimSpace(s + t) == TrimLeft(s, IsSpace) + t
  {
    var a := TrimLeftSplits(s, IsSpace);
    var core := TrimLeft(s, IsSpace);
    assert s + t == a + (core + t) + "";
    assert (core + t)[|core + t| - 1] == t[|t| - 1];
    TrimIs(a, core + t, "", IsSpace);
  }

  lemma TrimLeftEnds(s: string)
    ensures TrimLeft(s, IsSpace) != "" ==> EndsInSpace(TrimLeft(s, IsSpace)) == EndsInSpace(s)
  {
    var a := TrimLeftSplits(s, IsSpace);
    var core := TrimLeft(s, IsSpace);
    assert core != "" ==> s[|s| - 1] == core[|core| - 1];
  }

  lemma CoreEnds(core: string)
    requires core != ""
    ensures Strip(TrimRight(core, IsSpace)) == Strip(core) <==> !EndsInSpace(core)
  {
    var b := TrimRightSplits(core, IsSpace);
    if EndsInSpace(core) {
      assert Strip(core) == core;
      StripLeavesNoSlash(TrimRight(core, IsSpace));
    } else {
      TrimRightIs(core, "", IsSpace);
      assert core + "" == core;
    }
  }

  lemma SpacesSurviveToSlash(p: string)
    ensures EndsInSpace(ToSlash(p)) == EndsInSpace(p)
    ensures TrimSpace(ToSlash(p)) == "" <==> TrimSpace(p) == ""
    ensures TrimLeft(ToSlash(p), IsSpace) == "" <==> TrimSpace(p) == ""
  {
    TrimsAway(p);
    TrimsAway(ToSlash(p));
    if All(p, IsSpace) {
      forall c | c in ToSlash(p) ensures IsSpace(c) {
        var i :| 0 <= i < |p| && ToSlash(p)[i] == c;
        assert p[i] in p;
      }
    }
    if All(ToSlash(p), IsSpace) {
      forall c | c in p ensures IsSpace(c) {
        var i :| 0 <= i < |p| && p[i] == c;
        assert ToSlash(p)[i] in ToSlash(p);
      }
    }
  }

  lemma TrimsAway(s: string)
    ensures TrimSpace(s) == "" <==> All(s, IsSpace)
    ensures TrimLeft(s, IsSpace) == "" <==> All(s, IsSpace)
  {
    var a := TrimLeftSplits(s, IsSpace);
    var core := TrimLeft(s, IsSpace);
    var b := TrimRightSplits(core, IsSpace);
    if core != "" {
      assert core[0] in s;
      assert core == TrimRight(core, IsSpace) + b;
    }
  }

  // White space stands directly in front of the run of `/` and `/**` that the pattern ends in.
  ghost predicate SpaceBeforeSuffix(p: string) { exists x, units :: EndsAs(p, x, units) }

  predicate EndsAs(p: string, x: string, units: seq<bool>) {
    EndsInSpace(x) && units != [] && TrimSpace(ToSlash(p)) == x + Suffix(units)
  }

  lemma {:induction false} StripSplits(p: string) returns (units: seq<bool>)
    ensures p == Strip(p) + Suffix(units)
    ensures units == [] <==> Strip(p) == p
    decreases |p|
  {
    units := [];
    if HasSuffix(p, "/**") || HasSuffix(p, "/") {
      var head, stars := LastUnit(p);
      var us := StripSplits(head);
      units := us + [stars];
      SplitExtends(Strip(head), us, stars);
    }
  }

  lemma SplitExtends(q: string, us: seq<bool>, stars: bool)
    ensures q + Suffix(us) + Suffix([stars]) == q + Suffix(us + [stars])
  {
    SuffixAppend(us, stars);
    assert q + (Suffix(us) + Suffix([stars])) == q + Suffix(us) + Suffix([stars]);
  }

  lemma LastUnit(p: string) returns (head: string, stars: bool)
    requires HasSuffix(p, "/**") || HasSuffix(p, "/")
    ensures |head| < |p| && p == head + Suffix([stars])
    ensures Strip(p) == Strip(head) && Strip(p) != p
  {
    stars := HasSuffix(p, "/**");
    head := p[..|p| - if stars then 3 else 1];
    SuffixAppend([], stars);
    assert [] + [stars] == [stars];
    StripLeavesNoSlash(p);
  }

  lemma SuffixAppend(units: seq<bool>, stars: bool)
    ensures Suffix(units + [stars]) == Suffix(units) + Suffix([stars])
    ensures Suffix([stars]) == if stars then "/**" else "/"
  {
    assert (units + [stars])[..|units|] == units;
    assert [stars][..0] == [];
  }

  lemma NormalEndsInSpace(p: string)
    ensures EndsInSpace(Normal(p)) <==> SpaceBeforeSuffix(p)
  {
    var s := TrimSpace(ToSlash(p));
    var a, b := TrimSplits(ToSlash(p), IsSpace);
    if EndsInSpace(Normal(p)) {
      var units := StripSplits(s);
      assert EndsAs(p, Normal(p), units);
    }
    if x, units :| EndsAs(p, x, units) {
      StripDropsSuffix(x, units);
    }
  }

  /** Normalising again changes nothing except when white space stands in front of a stripped suffix. */
  lemma NormalIdempotent(p: string)
    ensures Normal(Normal(p)) == Normal(p) <==> !SpaceBeforeSuffix(p)
  {
    NormalEndsInSpace(p);
    NormalStaysSlashed(p);
    NormalStart(p);
    var q := Normal(p);
    if !EndsInSpace(q) {
      assert q == "" + q + "";
      TrimIs("", q, "", IsSpace);
    } else {
      var a, b := TrimSplits(q, IsSpace);
      StripLeavesNoSlash(TrimSpace(q));
      assert |TrimSpace(q)| <= |q| && TrimSpace(q) != q;
    }
  }

  lemma NormalStaysSlashed(p: string)
    ensures ToSlash(Normal(p)) == Normal(p) && Strip(Normal(p)) == Normal(p)
  {
    var s := ToSlash(p);
    var a, b := TrimSplits(s, IsSpace);
    StripLeavesNoSlash(TrimSpace(s));
    forall i | 0 <= i < |Normal(p)| ensures Normal(p)[i] != '\\' {
      assert Normal(p)[i] == TrimSpace(s)[i] == s[|a| + i];
    }
  }

  lemma NormalStart(p: string)
    ensures Normal(p) != "" ==> !IsSpace(Normal(p)[0])
  {
    var s := ToSlash(p);
    var a, b := TrimSplits(s, IsSpace);
    StripLeavesNoSlash(TrimSpace(s));
    assert Normal(p) != "" ==> Normal(p)[0] == TrimSpace(s)[0];
  }

  // ---- What patterns of the documented forms select ----

  /** Spelled so that normalising leaves it alone. */
  predicate Tidy(p: string) {
    p != "" && '\\' !in p && !IsSpace(p[0]) && !IsSpace(p[|p| - 1]) && p[|p| - 1] != '/' && !HasSuffix(p, "/**")
  }

  lemma TidyIsNormal(p: string)
    requires Tidy(p)
    ensures Normal(p) == p
  {
    assert ToSlash(p) == p == "" + p + "";
    TrimIs("", p, "", IsSpace);
    assert !HasSuffix(p, "/");
  }

  /** What one tidy pattern selects. */
  lemma OnePattern(p: string, anyDepth: bool, path: string)
    requires Tidy(p)
    ensures Selected([p], anyDepth, path) <==> PathOf(path) != "" && Denotes(p, anyDepth, PathOf(path))
  {
    TidyIsNormal(p);
    SelectedDenotes([p], anyDepth, path);
    assert p in [p];
  }

  /** The characters of `t` from `a` to `i` are one or more whole segments. */
  predicate WholeSegments(t: string, a: int, i: int) { 0 <= a <= i && Cut(t, i) && (a == 0 || t[a - 1] == '/') }

  /** The path has the text as one or more whole segments. */
  ghost predicate HasSegments(t: string, u: string) { exists a, i :: WholeSegments(t, a, i) && t[a..i] == u }

  /** A plain name selects exactly the paths that have it as a segment, at any depth; with any-depth matching
      a plain path does so too. */
  lemma NameAtAnyDepth(name: string, anyDepth: bool, path: string)
    requires Tidy(name) && Plain(name) && (anyDepth || '/' !in name)
    ensures Selected([name], anyDepth, path) <==> HasSegments(PathOf(path), name)
  {
    var t := PathOf(path);
    OnePattern(name, anyDepth, path);
    assert name[0] in name;
    forall a, i ensures RunMatches(name, anyDepth, t, a, i) <==> WholeSegments(t, a, i) && t[a..i] == name {
      if WholeSegments(t, a, i) {
        WildcardsMean(t[a..i], name);
      }
    }
  }

  lemma PrefixIsTidy(prefix: string, name: string)
    requires Tidy(name) && Plain(name) && (prefix == "~/" || prefix == "**/")
    ensures Tidy(prefix + name)
    ensures prefix == "~/" ==> Plain(prefix + name)
  {
    var p := prefix + name;
    assert p[|p| - 1] == name[|name| - 1] && name[|name| - 1] in name;
    NoStarAtEnd(p);
    assert '\\' !in prefix && !IsSpace(prefix[0]) && (prefix == "~/" ==> Plain(prefix));
    assert p[0] == prefix[0];
  }

  lemma NoStarAtEnd(p: string)
    requires p != "" && p[|p| - 1] != '*'
    ensures !HasSuffix(p, "/**")
  {
    assert |p| >= 3 ==> p[|p| - 3..][2] == p[|p| - 1];
  }

  // `**/name` means the same.
  lemma StarsMeanAnyDepth(name: string, anyDepth: bool, path: string)
    requires Tidy(name) && Plain(name)
    ensures Selected(["**/" + name], anyDepth, path) <==> HasSegments(PathOf(path), name)
  {
    var t, p := PathOf(path), "**/" + name;
    assert p[3..] == name && "**/" <= p;
    PrefixIsTidy("**/", name);
    OnePattern(p, anyDepth, path);
    forall a, i ensures RunMatches(p, anyDepth, t, a, i) <==> WholeSegments(t, a, i) && t[a..i] == name {
      if WholeSegments(t, a, i) {
        WildcardsMean(t[a..i], name);
      }
    }
  }

  /** A plain path with a separator selects exactly itself and what lies beneath it. */
  lemma PathIsAnchored(d: string, path: string)
    requires Tidy(d) && Plain(d) && '/' in d
    ensures Selected([d], false, path) <==> PathOf(path) == d || d + "/" <= PathOf(path)
  {
    var t := PathOf(path);
    OnePattern(d, false, path);
    assert d[0] in d;
    forall a, i ensures RunMatches(d, false, t, a, i) <==> a == 0 <= i && Cut(t, i) && t[..i] == d {
      if a == 0 <= i && Cut(t, i) {
        assert t[0..i] == t[..i];
        WildcardsMean(t[..i], d);
      }
    }
    AtACut(d, t);
    if i :| Cut(t, i) && t[..i] == d {
      assert RunMatches(d, false, t, 0, i);
    }
  }

  lemma AtACut(d: string, t: string)
    ensures (exists i :: Cut(t, i) && t[..i] == d) <==> t == d || d + "/" <= t
  {
    if d + "/" <= t {
      assert t[..|d|] == (d + "/")[..|d|] == d && t[|d|] == (d + "/")[|d|];
      assert Cut(t, |d|);
    }
    if t == d {
      assert Cut(t, |t|) && t[..|t|] == d;
    }
    if i :| Cut(t, i) && t[..i] == d && i < |t| {
      assert t[..i + 1] == d + "/";
    }
  }

  lemma PathOfClean(path: string)
    requires path != "" && path[0] != '/' && path[|path| - 1] != '/' && '\\' !in path
    ensures PathOf(path) == path
  {
    assert ToSlash(path) == path;
    assert path == "" + path + "";
    TrimIs("", path, "", IsSlash);
  }

  /** `u` is an entry of the directory `d` whose name ends in `x`. */
  predicate EntryEndingIn(d: string, x: string, u: string) {
    d + "/" <= u && var name := u[|d| + 1..]; |x| <= |name| && name[|name| - |x|..] == x && '/' !in name[..|name| - |x|]
  }

  lemma EntryMatches(d: string, x: string, u: string)
    requires Plain(d) && Plain(x)
    ensures Matches(d + "/" + ("*" + x), u) <==> EntryEndingIn(d, x, u)
  {
    MatchesAcrossSlash(d, "*" + x, u);
    if j :| 0 <= j < |u| && u[j] == '/' && Matches(d, u[..j]) && Matches("*" + x, u[j + 1..]) {
      MatchIsEntry(d, x, u, j);
    }
    if EntryEndingIn(d, x, u) {
      EntryIsMatch(d, x, u);
    }
  }

  lemma DirectoryIs(d: string, u: string)
    ensures d + "/" <= u <==> |d| < |u| && u[..|d|] == d && u[|d|] == '/'
  {
    if |d| < |u| && u[..|d|] == d && u[|d|] == '/' {
      assert u[..|d| + 1] == d + "/";
    }
    if d + "/" <= u {
      assert u[|d|] == (d + "/")[|d|];
      assert u[..|d|] == (d + "/")[..|d|] == d;
    }
  }

  lemma MatchIsEntry(d: string, x: string, u: string, j: nat)
    requires Plain(d) && Plain(x) && j < |u| && u[j] == '/' && Matches(d, u[..j]) && Matches("*" + x, u[j + 1..])
    ensures EntryEndingIn(d, x, u)
  {
    WildcardsMean(u[..j], d);
    DirectoryIs(d, u);
    StarSuffix(x, u[|d| + 1..]);
  }

  lemma EntryIsMatch(d: string, x: string, u: string)
    requires Plain(d) && Plain(x) && EntryEndingIn(d, x, u)
    ensures |d| < |u| && u[|d|] == '/' && Matches(d, u[..|d|]) && Matches("*" + x, u[|d| + 1..])
  {
    DirectoryIs(d, u);
    WildcardsMean(u[..|d|], d);
    StarSuffix(x, u[|d| + 1..]);
  }

  // `d/*x` selects exactly the entries of `d` whose own name ends in `x`, and what lies beneath such an entry.
  lemma StarStaysInSegment(d: string, x: string, path: string)
    requires Tidy(d + "/" + ("*" + x)) && d != "" && Plain(d) && Plain(x)
    ensures Selected([d + "/" + ("*" + x)], false, path) <==>
            exists i :: Cut(PathOf(path), i) && EntryEndingIn(d, x, PathOf(path)[..i])
  {
    var p, t := d + "/" + ("*" + x), PathOf(path);
    OnePattern(p, false, path);
    assert p[0] == d[0] && d[0] in d && p[|d|] == '/';
    forall i ensures RunMatches(p, false, t, 0, i) <==> Cut(t, i) && EntryEndingIn(d, x, t[..i]) {
      if Cut(t, i) {
        assert t[0..i] == t[..i];
        EntryMatches(d, x, t[..i]);
      }
    }
    if i :| Cut(t, i) && EntryEndingIn(d, x, t[..i]) {
      assert t != "" && RunMatches(p, false, t, 0, i);
    }
    if a, i :| RunMatches(p, false, t, a, i) {
      assert a == 0;
    }
  }

  /** Two levels below `d` a file is selected only because of the directory it is in. */
  lemma TwoLevelsDown(d: string, x: string, y: string, z: string)
    requires Tidy(d + "/" + ("*" + x)) && d != "" && d[0] != '/' && Plain(d) && Plain(x) && '/' !in x
    requires '/' !in y && '\\' !in y && z != "" && '/' !in z && '\\' !in z
    ensures Selected([d + "/" + ("*" + x)], false, d + "/" + y + "/" + z) <==> |x| <= |y| && y[|y| - |x|..] == x
  {
    var t := d + "/" + y + "/" + z;
    var p := d + "/" + ("*" + x);
    StarStaysInSegment(d, x, t);
    assert forall c :: c in d ==> c in p;
    PathOfClean(t);
    if i :| Cut(t, i) && EntryEndingIn(d, x, t[..i]) {
      OnlyTheDirectory(d, x, y, z, t, i);
    }
    if |x| <= |y| && y[|y| - |x|..] == x {
      DirectoryFits(d, x, y, t, z);
    }
  }

  lemma DirectoryFits(d: string, x: string, y: string, t: string, z: string)
    requires t == d + "/" + y + "/" + z && '/' !in y && |x| <= |y| && y[|y| - |x|..] == x
    ensures Cut(t, |d| + 1 + |y|) && EntryEndingIn(d, x, t[..|d| + 1 + |y|])
  {
    var u := t[..|d| + 1 + |y|];
    assert u == d + "/" + y && u[|d| + 1..] == y;
    assert forall c :: c in y[..|y| - |x|] ==> c in y;
  }

  lemma OnlyTheDirectory(d: string, x: string, y: string, z: string, t: string, i: nat)
    requires t == d + "/" + y + "/" + z && '/' !in x && '/' !in y && '/' !in z
    requires Cut(t, i) && EntryEndingIn(d, x, t[..i])
    ensures |x| <= |y| && y[|y| - |x|..] == x
  {
    var lo := |d| + 1;
    var k, name := lo + |y|, t[..i][lo..];
    assert name == name[..|name| - |x|] + x == t[lo..i] && y == t[lo..k];
    assert forall j :: lo <= j < k ==> t[j] == y[j - lo] && t[j] in y;
    if k < i {
      SeparatorInside(t, lo, i, k);
    }
  }

  lemma SeparatorInside(t: string, lo: nat, hi: nat, k: nat)
    requires lo <= k < hi <= |t| && t[k] == '/'
    ensures '/' in t[lo..hi]
  {
    assert t[lo..hi][k - lo] == '/';
  }
}

// internal/ai/guardrails.go: rules that allow, deny or flag commands and file operations, and their merging.
module Guardrails {
  import opened Options
  import Glob
  import GlobMatch

  datatype CommandRules = CommandRules(
    denyPatterns: seq<string>, allowPatterns: seq<string>, highRiskPatterns: seq<string>,
    denyCommands: seq<string>, allowCommands: seq<string>)

  datatype FileRules = FileRules(
    denyPaths: seq<string>, allowPaths: seq<string>, highRiskPaths: seq<string>,
    denyExtensions: seq<string>, allowExtensions: seq<string>, denyActions: seq<string>, workspaceOnly: bool)

  datatype NetworkRules = NetworkRules(
    denyHosts: seq<string>, allowHosts: seq<string>, denyPorts: seq<int>, allowPorts: seq<int>)

  /** What a custom evaluator answers. */
  datatype Answer = Deny | Flag | Pass

  datatype CustomRules = CustomRules(command: Option<string -> Answer>, file: Option<(string, string) -> Answer>)

  datatype Rules = Rules(commands: CommandRules, files: FileRules, network: NetworkRules, custom: CustomRules)

  /** Which rule decided. */
  datatype Rule = NoRule | ByCustom | DenyPattern(i: nat) | DenyCommands | AllowCommands | AllowPatterns
    | HighRiskPattern(i: nat) | WorkspaceOnly | DenyActions | DenyPaths | DenyExtensions | AllowExtensions
    | AllowPaths | HighRiskPaths

  datatype Verdict = Verdict(allowed: bool, highRisk: bool, rule: Rule)

  function Allow(): Verdict { Verdict(true, false, NoRule) }
  function Refuse(rule: Rule): Verdict { Verdict(false, false, rule) }
  function Risky(rule: Rule): Verdict { Verdict(true, true, rule) }

  /** Operations of the platform: regular expressions, case folding, and the parts of a command or path. */
  datatype Platform = Platform(
    compiles: string -> bool, matches: (string, string) -> bool,
    commandName: string -> string, sameFold: (string, string) -> bool,
    cleanPath: string -> string, extension: string -> string, inside: (string, string) -> bool)

  // ---- Commands ----

  datatype Compiled = Compiled(deny: seq<string>, allow: seq<string>, highRisk: seq<string>)

  predicate AllCompile(os: Platform, patterns: seq<string>) { forall p :: p in patterns ==> os.compiles(p) }

  predicate AllPatternsCompile(os: Platform, r: CommandRules) {
    AllCompile(os, r.denyPatterns) && AllCompile(os, r.allowPatterns) && AllCompile(os, r.highRiskPatterns)
  }

  /** Compilation stops at the first group holding a malformed pattern; that group and the later ones stay empty. */
  function Compile(os: Platform, r: CommandRules): Compiled {
    if !AllCompile(os, r.denyPatterns) then Compiled([], [], [])
    else if !AllCompile(os, r.allowPatterns) then Compiled(r.denyPatterns, [], [])
    else if !AllCompile(os, r.highRiskPatterns) then Compiled(r.denyPatterns, r.allowPatterns, [])
    else Compiled(r.denyPatterns, r.allowPatterns, r.highRiskPatterns)
  }

  predicate AnyMatches(os: Platform, patterns: seq<string>, s: string) { exists p :: p in patterns && os.matches(p, s) }

  predicate AnyFolds(os: Platform, names: seq<string>, s: string) { exists n :: n in names && os.sameFold(s, n) }

  /** The first matching pattern, or the number of patterns. */
  function FirstMatch(os: Platform, patterns: seq<string>, s: string): (i: nat)
    ensures i <= |patterns| && (i < |patterns| <==> AnyMatches(os, patterns, s))
    ensures i < |patterns| ==> os.matches(patterns[i], s)
    ensures forall j :: 0 <= j < i ==> !os.matches(patterns[j], s)
  {
    if patterns == [] then 0
    else if os.matches(patterns[0], s) then
      assert patterns[0] in patterns;
      0
    else
      assert patterns == [patterns[0]] + patterns[1..];
      1 + FirstMatch(os, patterns[1..], s)
  }

  function EvalCommand(os: Platform, r: CommandRules, custom: Option<string -> Answer>, cmd: string): Verdict {
    var c, name, answer := Compile(os, r), os.commandName(cmd), if custom.Some? then custom.value(cmd) else Pass;
    if answer.Deny? then Refuse(ByCustom)
    else if answer.Flag? then Risky(ByCustom)
    else if AnyMatches(os, c.deny, cmd) then Refuse(DenyPattern(FirstMatch(os, c.deny, cmd)))
    else if AnyFolds(os, r.denyCommands, name) then Refuse(DenyCommands)
    else if |r.allowCommands| > 0 && !AnyFolds(os, r.allowCommands, name) then Refuse(AllowCommands)
    else if |c.allow| > 0 && !AnyMatches(os, c.allow, cmd) then Refuse(AllowPatterns)
    else if AnyMatches(os, c.highRisk, cmd) then Risky(HighRiskPattern(FirstMatch(os, c.highRisk, cmd)))
    else Allow()
  }

  /** Command rules with the compiled patterns cached on first use. */
  class CommandGuardrails {
    const rules: CommandRules
    var compiled: Option<Compiled>

    ghost predicate Valid(os: Platform)
      reads this
    {
      compiled.Some? ==> compiled.value == Compile(os, rules)
    }

    constructor (rules: CommandRules)
      ensures this.rules == rules && compiled == None
    {
      this.rules := rules;
      compiled := None;
    }

    method CompilePatterns(os: Platform)
      modifies this
      ensures compiled == Some(Compile(os, rules))
    {
      compiled := Some(Compiled([], [], []));
      if !AllCompile(os, rules.denyPatterns) {
        return;
      }
      compiled := Some(compiled.value.(deny := rules.denyPatterns));
      if !AllCompile(os, rules.allowPatterns) {
        return;
      }
      compiled := Some(compiled.value.(allow := rules.allowPatterns));
      if !AllCompile(os, rules.highRiskPatterns) {
        return;
      }
      compiled := Some(compiled.value.(highRisk := rules.highRiskPatterns));
    }

    /** Caching changes nothing: the verdict is the one a fresh compilation gives. */
    method Eval(os: Platform, custom: Option<string -> Answer>, cmd: string) returns (v: Verdict)
      requires Valid(os)
      modifies this
      ensures Valid(os) && compiled.Some?
      ensures v == EvalCommand(os, rules, custom, cmd)
    {
      if compiled.None? {
        CompilePatterns(os);
      }
      if custom.Some? {
        var answer := custom.value(cmd);
        if answer.Deny? {
          return Refuse(ByCustom);
        }
        if answer.Flag? {
          return Risky(ByCustom);
        }
      }
      var c := compiled.value;
      var hit := FindPattern(os, c.deny, cmd);
      if hit < |c.deny| {
        return Refuse(DenyPattern(hit));
      }
      var name := os.commandName(cmd);
      var denied := FindFold(os, rules.denyCommands, name);
      if denied {
        return Refuse(DenyCommands);
      }
      if |rules.allowCommands| > 0 {
        var listed := FindFold(os, rules.allowCommands, name);
        if !listed {
          return Refuse(AllowCommands);
        }
      }
      if |c.allow| > 0 {
        hit := FindPattern(os, c.allow, cmd);
        if hit == |c.allow| {
          return Refuse(AllowPatterns);
        }
      }
      hit := FindPattern(os, c.highRisk, cmd);
      if hit < |c.highRisk| {
        return Risky(HighRiskPattern(hit));
      }
      return Allow();
    }
  }

  /** The scan over a group of compiled patterns. */
  method FindPattern(os: Platform, patterns: seq<string>, s: string) returns (i: nat)
    ensures i == FirstMatch(os, patterns, s)
  {
    i := 0;
    while i < |patterns| && !os.matches(patterns[i], s)
      invariant i <= FirstMatch(os, patterns, s)
    {
      i := i + 1;
    }
  }

  method FindFold(os: Platform, names: seq<string>, s: string) returns (found: bool)
    ensures found == AnyFolds(os, names, s)
  {
    for i := 0 to |names|
      invariant forall j :: 0 <= j < i ==> !os.sameFold(s, names[j])
    {
      if os.sameFold(s, names[i]) {
        return true;
      }
    }
    return false;
  }

  // ---- Files ----

  predicate Contains(s: string, sub: string) { exists i :: 0 <= i <= |s| && sub <= s[i..] }

  /** Home-relative paths are kept as they are; all others are cleaned. */
  function NormalizePath(os: Platform, path: string): string {
    if "~/" <= path || path == "~" then path else os.cleanPath(path)
  }

  /** A home-directory pattern applies at any depth to paths without hidden parts that are not home-relative. */
  function RulePattern(path: string, pattern: string): string {
    if "~/" <= pattern && !("~/" <= path) && !Contains(path, "/.") then "**/" + pattern[2..] else pattern
  }

  /** A malformed pattern matches nothing. */
  ghost predicate PathRule(path: string, pattern: string) {
    var p := RulePattern(path, pattern);
    Glob.InDialect(GlobMatch.Normal(p)) && GlobMatch.Selected([p], true, path)
  }

  method MatchPath(path: string, pattern: string) returns (found: bool)
    ensures found == PathRule(path, pattern)
  {
    var p := RulePattern(path, pattern);
    var m := GlobMatch.Compile([p], true);
    if m.Malformed? {
      ghost var k: nat :| k < |[p]| && [p][k] == m.pattern && GlobMatch.FirstMalformed([p], k);
      return false;
    }
    assert p in [p];
    found := GlobMatch.MatchPath(m.value, path);
  }

  ghost predicate AnyPathRule(path: string, patterns: seq<string>) { exists p :: p in patterns && PathRule(path, p) }

  predicate AnyExtension(os: Platform, names: seq<string>, ext: string) {
    exists n :: n in names && (os.sameFold(ext, n) || os.sameFold(ext, "." + n))
  }

  ghost function EvalFile(os: Platform, r: FileRules, custom: Option<(string, string) -> Answer>, path: string, action: string, workDir: string): Verdict {
    var p, ext := NormalizePath(os, path), os.extension(path);
    var answer := if custom.Some? then custom.value(path, action) else Pass;
    if answer.Deny? then Refuse(ByCustom)
    else if answer.Flag? then Risky(ByCustom)
    else if r.workspaceOnly && workDir != "" && !os.inside(path, workDir) then Refuse(WorkspaceOnly)
    else if AnyFolds(os, r.denyActions, action) then Refuse(DenyActions)
    else if AnyPathRule(p, r.denyPaths) then Refuse(DenyPaths)
    else if AnyExtension(os, r.denyExtensions, ext) then Refuse(DenyExtensions)
    else if |r.allowExtensions| > 0 && !AnyExtension(os, r.allowExtensions, ext) && ext != "" then Refuse(AllowExtensions)
    else if |r.allowPaths| > 0 && !AnyPathRule(p, r.allowPaths) then Refuse(AllowPaths)
    else if AnyPathRule(p, r.highRiskPaths) then Risky(HighRiskPaths)
    else Allow()
  }

  lemma AnyPathRuleOf(path: string, patterns: seq<string>, i: nat)
    requires i < |patterns| && !AnyPathRule(path, patterns[..i])
    ensures AnyPathRule(path, patterns[..i + 1]) <==> PathRule(path, patterns[i])
    ensures PathRule(path, patterns[i]) ==> AnyPathRule(path, patterns)
  {
    assert patterns[..i + 1] == patterns[..i] + [patterns[i]];
    assert patterns[i] in patterns[..i + 1] && patterns[i] in patterns;
  }

  method FindPathRule(path: string, patterns: seq<string>) returns (found: bool)
    ensures found == AnyPathRule(path, patterns)
  {
    for i := 0 to |patterns|
      invariant !AnyPathRule(path, patterns[..i])
    {
      var m := MatchPath(path, patterns[i]);
      AnyPathRuleOf(path, patterns, i);
      if m {
        return true;
      }
    }
    assert patterns[..|patterns|] == patterns;
    return false;
  }

  method EvaluateFile(os: Platform, r: FileRules, custom: Option<(string, string) -> Answer>, path: string, action: string, workDir: string)
    returns (v: Verdict)
    ensures v == EvalFile(os, r, custom, path, action, workDir)
  {
    var p := NormalizePath(os, path);
    if custom.Some? {
      var answer := custom.value(path, action);
      if answer.Deny? {
        return Refuse(ByCustom);
      }
      if answer.Flag? {
        return Risky(ByCustom);
      }
    }
    if r.workspaceOnly && workDir != "" && !os.inside(path, workDir) {
      return Refuse(WorkspaceOnly);
    }
    var denied := FindFold(os, r.denyActions, action);
    if denied {
      return Refuse(DenyActions);
    }
    denied := FindPathRule(p, r.denyPaths);
    if denied {
      return Refuse(DenyPaths);
    }
    var ext := os.extension(path);
    if AnyExtension(os, r.denyExtensions, ext) {
      return Refuse(DenyExtensions);
    }
    if |r.allowExtensions| > 0 && !AnyExtension(os, r.allowExtensions, ext) && ext != "" {
      return Refuse(AllowExtensions);
    }
    if |r.allowPaths| > 0 {
      var listed := FindPathRule(p, r.allowPaths);
      if !listed {
        return Refuse(AllowPaths);
      }
    }
    var risky := FindPathRule(p, r.highRiskPaths);
    return if risky then Risky(HighRiskPaths) else Allow();
  }

  // ---- What the rules mean ----

  /** Without a custom evaluator a command is allowed exactly when no deny pattern matches it, no deny command
      is its name, and each allow list that holds anything holds something for it; it is high-risk exactly
      when it is allowed and a high-risk pattern matches. A group of patterns counts only if it and the
      groups before it compile. */
  lemma CommandAllowedExactly(os: Platform, r: CommandRules, cmd: string)
    ensures var v, name := EvalCommand(os, r, None, cmd), os.commandName(cmd);
            var denies := forall p :: p in r.denyPatterns ==> os.compiles(p);
            var allows := denies && forall p :: p in r.allowPatterns ==> os.compiles(p);
            var flags := allows && forall p :: p in r.highRiskPatterns ==> os.compiles(p);
            (v.allowed <==>
              !(denies && exists p :: p in r.denyPatterns && os.matches(p, cmd))
              && !(exists n :: n in r.denyCommands && os.sameFold(name, n))
              && (r.allowCommands == [] || exists n :: n in r.allowCommands && os.sameFold(name, n))
              && (!allows || r.allowPatterns == [] || exists p :: p in r.allowPatterns && os.matches(p, cmd)))
            && (v.highRisk <==> v.allowed && flags && exists p :: p in r.highRiskPatterns && os.matches(p, cmd))
  {}

  predicate FirstHit(os: Platform, patterns: seq<string>, s: string, i: nat) {
    i < |patterns| && os.matches(patterns[i], s) && forall j :: 0 <= j < i ==> !os.matches(patterns[j], s)
  }

  /** The rule that is reported: deny patterns come before deny commands, those before the allow lists, and
      of several patterns the first one counts. */
  lemma ReportedRule(os: Platform, r: CommandRules, cmd: string)
    requires AllPatternsCompile(os, r)
    ensures var v, name := EvalCommand(os, r, None, cmd), os.commandName(cmd);
            (v.rule.DenyPattern? <==> exists p :: p in r.denyPatterns && os.matches(p, cmd))
            && (v.rule.DenyPattern? ==> FirstHit(os, r.denyPatterns, cmd, v.rule.i))
            && (v.rule.DenyCommands? <==> !v.rule.DenyPattern? && exists n :: n in r.denyCommands && os.sameFold(name, n))
            && (v.rule.AllowPatterns? ==> r.allowCommands == [] || exists n :: n in r.allowCommands && os.sameFold(name, n))
            && (v.rule.HighRiskPattern? <==> v.highRisk)
            && (v.rule.HighRiskPattern? ==> FirstHit(os, r.highRiskPatterns, cmd, v.rule.i))
            && (v.rule.NoRule? <==> v.allowed && !v.highRisk)
  {}

  /** Without a custom evaluator a file operation is allowed exactly when it is inside the workspace if it
      must be, no deny action, path or extension is its own, and each allow list that holds anything holds
      something for it, where a file without extension passes the extensions; it is high-risk exactly when it
      is allowed and a high-risk path holds. Extensions may be listed with or without their dot. */
  lemma FileAllowedExactly(os: Platform, r: FileRules, path: string, action: string, workDir: string)
    ensures var v, ext := EvalFile(os, r, None, path, action, workDir), os.extension(path);
            var p := if "~/" <= path || path == "~" then path else os.cleanPath(path);
            (v.allowed <==>
              (r.workspaceOnly && workDir != "" ==> os.inside(path, workDir))
              && !(exists a :: a in r.denyActions && os.sameFold(action, a))
              && !(exists d :: d in r.denyPaths && PathRule(p, d))
              && !(exists n :: n in r.denyExtensions && (os.sameFold(ext, n) || os.sameFold(ext, "." + n)))
              && (r.allowExtensions == [] || ext == ""
                  || exists n :: n in r.allowExtensions && (os.sameFold(ext, n) || os.sameFold(ext, "." + n)))
              && (r.allowPaths == [] || exists d :: d in r.allowPaths && PathRule(p, d)))
            && (v.highRisk <==> v.allowed && exists d :: d in r.highRiskPaths && PathRule(p, d))
  {
    FileVerdict(os, r, path, action, workDir);
  }

  /** A custom file evaluator, asked about the path and the action as they are, decides before any rule when
      it denies or flags. */
  lemma CustomFileDecides(os: Platform, r: FileRules, f: (string, string) -> Answer, path: string, action: string, workDir: string)
    ensures var v, rules := EvalFile(os, r, Some(f), path, action, workDir), EvalFile(os, r, None, path, action, workDir);
            (v.allowed <==> f(path, action).Flag? || (f(path, action).Pass? && rules.allowed))
            && (v.highRisk <==> f(path, action).Flag? || (f(path, action).Pass? && rules.highRisk))
  {}

  /** A path rule without wildcards holds for a path that has it as whole segments, at any depth. */
  lemma PlainPathRule(path: string, pattern: string)
    requires GlobMatch.Tidy(pattern) && Glob.Plain(pattern) && Glob.InDialect(pattern) && !("~/" <= pattern)
    ensures PathRule(path, pattern) <==> GlobMatch.HasSegments(GlobMatch.PathOf(path), pattern)
  {
    GlobMatch.TidyIsNormal(pattern);
    GlobMatch.NameAtAnyDepth(pattern, true, path);
  }

  /** So does a rule for the home directory, with its `~/` dropped unless the path starts with one or has a
      hidden part behind a separator. */
  lemma HomePathRule(path: string, rest: string)
    requires GlobMatch.Tidy(rest) && Glob.Plain(rest) && Glob.InDialect(rest)
    ensures var kept := "~/" <= path || exists k :: 0 <= k < |path| - 1 && path[k] == '/' && path[k + 1] == '.';
            PathRule(path, "~/" + rest) <==> GlobMatch.HasSegments(GlobMatch.PathOf(path), if kept then "~/" + rest else rest)
  {
    var home, p := "~/" + rest, "**/" + rest;
    assert home[2..] == rest;
    HiddenPart(path);
    if RulePattern(path, home) == home {
      GlobMatch.PrefixIsTidy("~/", rest);
      assert forall c :: c in home ==> c in rest || c == '~' || c == '/';
      GlobMatch.TidyIsNormal(home);
      GlobMatch.NameAtAnyDepth(home, true, path);
    } else {
      GlobMatch.StarsMeanAnyDepth(rest, true, path);
      GlobMatch.DialectAppend("**/", rest);
      GlobMatch.PrefixIsTidy("**/", rest);
      GlobMatch.TidyIsNormal(p);
    }
  }

  lemma HiddenPart(path: string)
    ensures Contains(path, "/.") <==> exists k :: 0 <= k < |path| - 1 && path[k] == '/' && path[k + 1] == '.'
  {
    if k :| 0 <= k < |path| - 1 && path[k] == '/' && path[k + 1] == '.' {
      assert path[k..][0] == '/' && path[k..][1] == '.';
      assert "/." <= path[k..];
    }
    if i :| 0 <= i <= |path| && "/." <= path[i..] {
      assert path[i..][0] == ("/.")[0] && path[i..][1] == ("/.")[1];
      assert path[i] == '/' && path[i + 1] == '.';
    }
  }

  // ---- Merging ----

  /** Allow lists of the overlay replace those of the base. */
  function Replace<T>(base: seq<T>, overlay: seq<T>): seq<T> { if |overlay| > 0 then overlay else base }

  function MergeCommands(g: CommandRules, o: CommandRules): CommandRules {
    CommandRules(g.denyPatterns + o.denyPatterns, Replace(g.allowPatterns, o.allowPatterns),
                 g.highRiskPatterns + o.highRiskPatterns, g.denyCommands + o.denyCommands,
                 Replace(g.allowCommands, o.allowCommands))
  }

  function MergeFiles(g: FileRules, o: FileRules): FileRules {
    FileRules(g.denyPaths + o.denyPaths, Replace(g.allowPaths, o.allowPaths), g.highRiskPaths + o.highRiskPaths,
              g.denyExtensions + o.denyExtensions, Replace(g.allowExtensions, o.allowExtensions),
              g.denyActions + o.denyActions, g.workspaceOnly || o.workspaceOnly)
  }

  function MergeNetwork(g: NetworkRules, o: NetworkRules): NetworkRules {
    NetworkRules(g.denyHosts + o.denyHosts, Replace(g.allowHosts, o.allowHosts),
                 g.denyPorts + o.denyPorts, Replace(g.allowPorts, o.allowPorts))
  }

  function Merge(g: Rules, overlay: Option<Rules>): Rules {
    if overlay.None? then g
    else
      var o := overlay.value;
      Rules(MergeCommands(g.commands, o.commands), MergeFiles(g.files, o.files), MergeNetwork(g.network, o.network), o.custom)
  }

  const NO_RULES := Rules(CommandRules([], [], [], [], []), FileRules([], [], [], [], [], [], false),
                          NetworkRules([], [], [], []), CustomRules(None, None))

  /** Layering three rule sets gives the same rules whichever two are merged first. */
  lemma MergeAssociative(a: Rules, b: Rules, c: Rules)
    ensures Merge(Merge(a, Some(b)), Some(c)) == Merge(a, Some(Merge(b, Some(c))))
  {
    assert forall x: seq<string>, y: seq<string>, z: seq<string> :: (x + y) + z == x + (y + z);
    assert forall x: seq<int>, y: seq<int>, z: seq<int> :: (x + y) + z == x + (y + z);
  }

  /** Empty rules are a left identity; on the right they drop the base's custom evaluators. */
  lemma MergeIdentity(g: Rules)
    ensures Merge(NO_RULES, Some(g)) == g
    ensures Merge(g, Some(NO_RULES)) == g <==> g.custom == NO_RULES.custom
  {
    assert forall x: seq<string> :: [] + x == x && x + [] == x;
    assert forall x: seq<int> :: [] + x == x && x + [] == x;
  }

  /** Merged command rules: what either side denies or flags counts, and an allow list of the overlay replaces
      that of the base. */
  lemma MergedCommands(os: Platform, base: Rules, overlay: Rules, cmd: string)
    requires AllPatternsCompile(os, base.commands) && AllPatternsCompile(os, overlay.commands)
    ensures var v, name := EvalCommand(os, Merge(base, Some(overlay)).commands, None, cmd), os.commandName(cmd);
            var g, o := base.commands, overlay.commands;
            var names := if o.allowCommands != [] then o.allowCommands else g.allowCommands;
            var patterns := if o.allowPatterns != [] then o.allowPatterns else g.allowPatterns;
            (v.allowed <==>
              !(exists p :: (p in g.denyPatterns || p in o.denyPatterns) && os.matches(p, cmd))
              && !(exists n :: (n in g.denyCommands || n in o.denyCommands) && os.sameFold(name, n))
              && (names == [] || exists n :: n in names && os.sameFold(name, n))
              && (patterns == [] || exists p :: p in patterns && os.matches(p, cmd)))
            && (v.highRisk <==>
                  v.allowed && exists p :: (p in g.highRiskPatterns || p in o.highRiskPatterns) && os.matches(p, cmd))
  {
    var g, o := base.commands, overlay.commands;
    var m := MergeCommands(g, o);
    CommandAllowedExactly(os, m, cmd);
    assert forall p :: p in m.denyPatterns <==> p in g.denyPatterns || p in o.denyPatterns;
    assert forall p :: p in m.highRiskPatterns <==> p in g.highRiskPatterns || p in o.highRiskPatterns;
    assert forall n :: n in m.denyCommands <==> n in g.denyCommands || n in o.denyCommands;
  }

  /** The base's patterns come first: the one that decided on the base alone is reported for the merged rules. */
  lemma BaseDecidesFirst(os: Platform, g: CommandRules, o: CommandRules, cmd: string)
    requires AllPatternsCompile(os, g) && AllPatternsCompile(os, o)
    requires EvalCommand(os, g, None, cmd).rule.DenyPattern?
    ensures EvalCommand(os, MergeCommands(g, o), None, cmd) == EvalCommand(os, g, None, cmd)
  {
    var i := EvalCommand(os, g, None, cmd).rule.i;
    var merged := g.denyPatterns + o.denyPatterns;
    assert merged[i] in merged && os.matches(merged[i], cmd);
    assert forall j :: 0 <= j < i ==> merged[j] == g.denyPatterns[j];
  }

  /** Merged file rules, likewise; and a base or an overlay that wants the workspace only gets it. */
  lemma MergedFiles(os: Platform, base: Rules, overlay: Rules, path: string, action: string, workDir: string)
    ensures var v, ext := EvalFile(os, Merge(base, Some(overlay)).files, None, path, action, workDir), os.extension(path);
            var p, g, o := NormalizePath(os, path), base.files, overlay.files;
            var extensions := if o.allowExtensions != [] then o.allowExtensions else g.allowExtensions;
            var paths := if o.allowPaths != [] then o.allowPaths else g.allowPaths;
            (v.allowed <==>
              ((g.workspaceOnly || o.workspaceOnly) && workDir != "" ==> os.inside(path, workDir))
              && !(AnyFolds(os, g.denyActions, action) || AnyFolds(os, o.denyActions, action))
              && !(AnyPathRule(p, g.denyPaths) || AnyPathRule(p, o.denyPaths))
              && !(AnyExtension(os, g.denyExtensions, ext) || AnyExtension(os, o.denyExtensions, ext))
              && (extensions == [] || ext == "" || AnyExtension(os, extensions, ext))
              && (paths == [] || AnyPathRule(p, paths)))
            && (v.highRisk <==> v.allowed && (AnyPathRule(p, g.highRiskPaths) || AnyPathRule(p, o.highRiskPaths)))
  {
    var g, o := base.files, overlay.files;
    FileVerdict(os, MergeFiles(g, o), path, action, workDir);
    AnyFoldsAppend(os, g.denyActions, o.denyActions, action);
    AnyPathRuleAppend(NormalizePath(os, path), g.denyPaths, o.denyPaths);
    AnyPathRuleAppend(NormalizePath(os, path), g.highRiskPaths, o.highRiskPaths);
    AnyExtensionAppend(os, g.denyExtensions, o.denyExtensions, os.extension(path));
  }

  lemma AnyFoldsAppend(os: Platform, a: seq<string>, b: seq<string>, s: string)
    ensures AnyFolds(os, a + b, s) <==> AnyFolds(os, a, s) || AnyFolds(os, b, s)
  {
    assert forall p :: p in a + b <==> p in a || p in b;
  }

  lemma AnyPathRuleAppend(path: string, a: seq<string>, b: seq<string>)
    ensures AnyPathRule(path, a + b) <==> AnyPathRule(path, a) || AnyPathRule(path, b)
  {
    assert forall p :: p in a + b <==> p in a || p in b;
  }

  /** Merged network rules: denials add up, and an allow list of the overlay replaces that of the base. */
  lemma MergedNetwork(base: Rules, overlay: Rules, host: string, port: int)
    ensures var m, g, o := Merge(base, Some(overlay)).network, base.network, overlay.network;
            (host in m.denyHosts <==> host in g.denyHosts || host in o.denyHosts)
            && (port in m.denyPorts <==> port in g.denyPorts || port in o.denyPorts)
            && (host in m.allowHosts <==> if o.allowHosts != [] then host in o.allowHosts else host in g.allowHosts)
            && (port in m.allowPorts <==> if o.allowPorts != [] then port in o.allowPorts else port in g.allowPorts)
  {}

  /** What an overlay rejects by its own deny rules. */
  predicate RejectsCommand(os: Platform, o: CommandRules, cmd: string) {
    AnyMatches(os, o.denyPatterns, cmd) || AnyFolds(os, o.denyCommands, os.commandName(cmd))
  }

  /** What the command lists reject, patterns aside. */
  predicate ListsReject(os: Platform, r: CommandRules, cmd: string) {
    var name := os.commandName(cmd);
    AnyFolds(os, r.denyCommands, name) || (|r.allowCommands| > 0 && !AnyFolds(os, r.allowCommands, name))
  }

  /** What the patterns reject that survive compilation. */
  predicate PatternsReject(os: Platform, r: CommandRules, cmd: string) {
    var c := Compile(os, r);
    AnyMatches(os, c.deny, cmd) || (|c.allow| > 0 && !AnyMatches(os, c.allow, cmd))
  }

  /** The law for a command: it passes the merged rules exactly when it passes the base and no deny rule of
      the overlay rejects it. */
  predicate OnlyTightens(os: Platform, g: CommandRules, o: CommandRules, cmd: string) {
    EvalCommand(os, MergeCommands(g, o), None, cmd).allowed
    <==> EvalCommand(os, g, None, cmd).allowed && !RejectsCommand(os, o, cmd)
  }

  /** The law for its risk: what passes is high-risk exactly when either side's patterns say so. */
  predicate KeepsRisk(os: Platform, g: CommandRules, o: CommandRules, cmd: string) {
    var m, b := EvalCommand(os, MergeCommands(g, o), None, cmd), EvalCommand(os, g, None, cmd);
    m.allowed ==> (m.highRisk <==> b.highRisk || AnyMatches(os, o.highRiskPatterns, cmd))
  }

  lemma CommandVerdict(os: Platform, r: CommandRules, cmd: string)
    ensures var v := EvalCommand(os, r, None, cmd);
            (v.allowed <==> !ListsReject(os, r, cmd) && !PatternsReject(os, r, cmd))
            && (v.highRisk <==> v.allowed && AnyMatches(os, Compile(os, r).highRisk, cmd))
  {}

  lemma MergedLists(os: Platform, g: CommandRules, o: CommandRules, cmd: string)
    requires o.allowCommands == []
    ensures ListsReject(os, MergeCommands(g, o), cmd)
            <==> ListsReject(os, g, cmd) || AnyFolds(os, o.denyCommands, os.commandName(cmd))
  {
    assert forall n :: n in g.denyCommands + o.denyCommands <==> n in g.denyCommands || n in o.denyCommands;
  }

  /** An overlay without allow lists only tightens exactly when every deny pattern of both sides compiles, or
      whatever patterns reject the command lists reject as well; and no high-risk flag is lost exactly when
      all patterns of the three groups compile, or the command is rejected, or nobody's patterns flag it. */
  lemma MergeTightensCommands(os: Platform, g: CommandRules, o: CommandRules, cmd: string)
    requires o.allowPatterns == [] && o.allowCommands == []
    ensures OnlyTightens(os, g, o, cmd) <==>
            AllCompile(os, g.denyPatterns + o.denyPatterns)
            || (PatternsReject(os, g, cmd) || AnyMatches(os, o.denyPatterns, cmd) ==> ListsReject(os, MergeCommands(g, o), cmd))
    ensures KeepsRisk(os, g, o, cmd) <==>
            AllPatternsCompile(os, MergeCommands(g, o))
            || !EvalCommand(os, MergeCommands(g, o), None, cmd).allowed
            || (!EvalCommand(os, g, None, cmd).highRisk && !AnyMatches(os, o.highRiskPatterns, cmd))
  {
    var m := MergeCommands(g, o);
    CommandVerdict(os, g, cmd);
    CommandVerdict(os, m, cmd);
    MergedLists(os, g, o, cmd);
    assert forall p :: p in m.denyPatterns <==> p in g.denyPatterns || p in o.denyPatterns;
    assert forall p :: p in m.highRiskPatterns <==> p in g.highRiskPatterns || p in o.highRiskPatterns;
  }

  /** One malformed deny pattern in the overlay empties the merged deny and allow patterns, so a command that
      only a pattern of the base rejects, by matching a deny pattern or by missing the allow patterns,
      passes the merged rules. */
  lemma MalformedDenyLoosens(os: Platform, g: CommandRules, o: CommandRules, cmd: string)
    requires o.allowPatterns == [] && o.allowCommands == [] && !AllCompile(os, o.denyPatterns)
    requires PatternsReject(os, g, cmd) && !ListsReject(os, MergeCommands(g, o), cmd)
    ensures !EvalCommand(os, g, None, cmd).allowed
    ensures EvalCommand(os, MergeCommands(g, o), None, cmd).allowed
    ensures !OnlyTightens(os, g, o, cmd)
  {
    var bad :| bad in o.denyPatterns && !os.compiles(bad);
    assert bad in MergeCommands(g, o).denyPatterns;
    MergeTightensCommands(os, g, o, cmd);
    CommandVerdict(os, MergeCommands(g, o), cmd);
  }

  /** One malformed high-risk pattern in the overlay drops every high-risk flag of the base. */
  lemma MalformedRiskIsLost(os: Platform, g: CommandRules, o: CommandRules, cmd: string)
    requires o.allowPatterns == [] && o.allowCommands == [] && !AllCompile(os, o.highRiskPatterns)
    requires AllCompile(os, o.denyPatterns) && !RejectsCommand(os, o, cmd)
    requires EvalCommand(os, g, None, cmd).highRisk
    ensures var m := EvalCommand(os, MergeCommands(g, o), None, cmd); m.allowed && !m.highRisk
  {
    var bad :| bad in o.highRiskPatterns && !os.compiles(bad);
    assert bad in MergeCommands(g, o).highRiskPatterns;
    CommandVerdict(os, g, cmd);
    MergeTightensCommands(os, g, o, cmd);
    CommandVerdict(os, MergeCommands(g, o), cmd);
  }

  /** A custom evaluator's flag decides before any deny rule is looked at. */
  lemma CustomFlagDecides(os: Platform, r: CommandRules, f: string -> Answer, cmd: string)
    ensures EvalCommand(os, r, Some(f), cmd).allowed <==>
            f(cmd).Flag? || (f(cmd).Pass? && EvalCommand(os, r, None, cmd).allowed)
  {}

  ghost predicate RejectsFile(os: Platform, o: FileRules, path: string, action: string, workDir: string) {
    (o.workspaceOnly && workDir != "" && !os.inside(path, workDir))
    || AnyFolds(os, o.denyActions, action)
    || AnyPathRule(NormalizePath(os, path), o.denyPaths)
    || AnyExtension(os, o.denyExtensions, os.extension(path))
  }

  lemma AnyExtensionAppend(os: Platform, a: seq<string>, b: seq<string>, ext: string)
    ensures AnyExtension(os, a + b, ext) <==> AnyExtension(os, a, ext) || AnyExtension(os, b, ext)
  {
    assert forall p :: p in a + b <==> p in a || p in b;
  }

  /** What a verdict without custom rules depends on: rejection, the allow lists, and the risk. */
  predicate MissesAllowLists(extensionsListed: bool, extensionMatches: bool, pathsListed: bool, pathMatches: bool) {
    (extensionsListed && !extensionMatches) || (pathsListed && !pathMatches)
  }

  lemma FileVerdict(os: Platform, r: FileRules, path: string, action: string, workDir: string)
    ensures var v, p, ext := EvalFile(os, r, None, path, action, workDir), NormalizePath(os, path), os.extension(path);
            (v.allowed <==> !RejectsFile(os, r, path, action, workDir)
                            && !MissesAllowLists(|r.allowExtensions| > 0, AnyExtension(os, r.allowExtensions, ext) || ext == "",
                                                 |r.allowPaths| > 0, AnyPathRule(p, r.allowPaths)))
            && (v.allowed ==> (v.highRisk <==> AnyPathRule(p, r.highRiskPaths)))
  {}

  /** The same for file operations; here malformed patterns do no harm. */
  lemma MergeTightensFiles(os: Platform, g: FileRules, o: FileRules, path: string, action: string, workDir: string)
    requires o.allowPaths == [] && o.allowExtensions == []
    ensures var m, b := EvalFile(os, MergeFiles(g, o), None, path, action, workDir), EvalFile(os, g, None, path, action, workDir);
            (m.allowed <==> b.allowed && !RejectsFile(os, o, path, action, workDir))
            && (m.allowed ==> (m.highRisk <==> b.highRisk || AnyPathRule(NormalizePath(os, path), o.highRiskPaths)))
  {
    FileVerdict(os, g, path, action, workDir);
    FileVerdict(os, MergeFiles(g, o), path, action, workDir);
    MergedRejects(os, g, o, path, action, workDir);
  }

  lemma MergedRejects(os: Platform, g: FileRules, o: FileRules, path: string, action: string, workDir: string)
    ensures RejectsFile(os, MergeFiles(g, o), path, action, workDir) <==>
            RejectsFile(os, g, path, action, workDir) || RejectsFile(os, o, path, action, workDir)
  {
    AnyFoldsAppend(os, g.denyActions, o.denyActions, action);
    AnyPathRuleAppend(NormalizePath(os, path), g.denyPaths, o.denyPaths);
    AnyExtensionAppend(os, g.denyExtensions, o.denyExtensions, os.extension(path));
  }

  /** A path rule that is not about the home directory holds at every depth. */
  lemma PathRuleAtAnyDepth(dir: string, path: string, pattern: string)
    requires PathRule(path, pattern) && !("~/" <= pattern)
    ensures PathRule(dir + "/" + path, pattern)
  {
    GlobMatch.LeadingDirectoriesKeep([pattern], dir, path);
  }
}

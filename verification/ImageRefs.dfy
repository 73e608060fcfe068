// internal/dockerfile/parser.go, internal/compare/container_image.go: parsing and printing image references.
module ImageRefs {
  datatype Ref = Ref(registry: string, repository: string, tag: string, digest: string)

  // ---- Cutting strings ----

  datatype Cut = Whole | Parts(left: string, right: string)

  /** `s` at the first `c`. */
  function FirstCut(s: string, c: char): Cut {
    if s == "" then Whole
    else if s[0] == c then Parts("", s[1..])
    else
      match FirstCut(s[1..], c)
      case Whole => Whole
      case Parts(l, r) => Parts([s[0]] + l, r)
  }

  /** `s` at the last `c`. */
  function LastCut(s: string, c: char): Cut {
    if s == "" then Whole
    else if s[|s| - 1] == c then Parts(s[..|s| - 1], "")
    else
      match LastCut(s[..|s| - 1], c)
      case Whole => Whole
      case Parts(l, r) => Parts(l, r + [s[|s| - 1]])
  }

  lemma {:induction false} FirstCutSplits(s: string, c: char)
    ensures var f := FirstCut(s, c);
            if c in s then f.Parts? && s == f.left + [c] + f.right && c !in f.left else f == Whole
  {
    if s != "" {
      assert s == [s[0]] + s[1..];
      if s[0] == c {
        assert s == "" + [c] + s[1..];
      } else {
        FirstCutSplits(s[1..], c);
      }
    }
  }

  lemma {:induction false} LastCutSplits(s: string, c: char)
    ensures var f := LastCut(s, c);
            if c in s then f.Parts? && s == f.left + [c] + f.right && c !in f.right else f == Whole
  {
    if s != "" {
      assert s == s[..|s| - 1] + [s[|s| - 1]];
      if s[|s| - 1] == c {
        assert s == s[..|s| - 1] + [c] + "";
      } else {
        LastCutSplits(s[..|s| - 1], c);
      }
    }
  }

  lemma {:induction false} FirstCutIs(l: string, c: char, r: string)
    requires c !in l
    ensures FirstCut(l + [c] + r, c) == Parts(l, r)
  {
    var s := l + [c] + r;
    if l == "" {
      assert s[1..] == r;
    } else {
      assert s[0] == l[0] && s[1..] == l[1..] + [c] + r && l == [l[0]] + l[1..];
      FirstCutIs(l[1..], c, r);
    }
  }

  lemma {:induction false} LastCutIs(l: string, c: char, r: string)
    requires c !in r
    ensures LastCut(l + [c] + r, c) == Parts(l, r)
  {
    var s := l + [c] + r;
    if r == "" {
      assert s[..|s| - 1] == l;
    } else {
      assert s[|s| - 1] == r[|r| - 1] && s[..|s| - 1] == l + [c] + r[..|r| - 1] && r == r[..|r| - 1] + [r[|r| - 1]];
      LastCutIs(l, c, r[..|r| - 1]);
    }
  }

  // ---- Parsing and printing ----

  datatype Named = Named(body: string, tag: string)

  /** A colon separates a tag unless a slash follows it: then it belongs to a registry's port. */
  function CutTag(name: string): Named {
    match LastCut(name, ':')
    case Whole => Named(name, "")
    case Parts(l, r) => if '/' in r then Named(name, "") else Named(l, r)
  }

  predicate LooksLikeRegistry(host: string) { '.' in host || ':' in host || host == "localhost" }

  const HUB := "docker.io"
  const LIBRARY := "library/"

  datatype Place = Place(registry: string, repository: string)

  function Locate(body: string): Place {
    match FirstCut(body, '/')
    case Whole => Place(HUB, LIBRARY + body)
    case Parts(l, r) => if LooksLikeRegistry(l) then Place(l, r) else Place(HUB, body)
  }

  function Assemble(name: string, digest: string): Ref {
    var n := CutTag(name);
    var p := Locate(n.body);
    Ref(p.registry, p.repository, if n.tag == "" && digest == "" then "latest" else n.tag, digest)
  }

  function Parse(ref: string): Ref {
    match FirstCut(ref, '@')
    case Whole => Assemble(ref, "")
    case Parts(l, r) => Assemble(l, r)
  }

  /** ImageRef.String, with an empty Reference. */
  function Print(r: Ref): string {
    var place := if r.repository == "" then r.registry
                 else if r.registry == "" then r.repository
                 else r.registry + "/" + r.repository;
    if r.digest != "" then place + "@" + r.digest
    else if r.tag != "" then place + ":" + r.tag
    else place
  }

  class ImageRef {
    const full: string
    var registry: string
    var repository: string
    var tag: string
    var digest: string

    constructor (full: string)
      ensures this.full == full && registry == repository == tag == digest == ""
    {
      this.full := full;
      registry, repository, tag, digest := "", "", "", "";
    }

    function Value(): Ref
      reads this
    {
      Ref(registry, repository, tag, digest)
    }
  }

  /** `strings.Index` and `strings.LastIndex` for one character. */
  function IndexByte(s: string, c: char): int {
    match FirstCut(s, c)
    case Whole => -1
    case Parts(l, _) => |l|
  }

  function LastIndexByte(s: string, c: char): int {
    match LastCut(s, c)
    case Whole => -1
    case Parts(l, _) => |l|
  }

  lemma IndexCuts(s: string, c: char)
    ensures var i := IndexByte(s, c);
            if i == -1 then FirstCut(s, c) == Whole else 0 <= i < |s| && FirstCut(s, c) == Parts(s[..i], s[i + 1..])
  {
    FirstCutSplits(s, c);
    match FirstCut(s, c)
    case Whole =>
    case Parts(l, r) => Around(l, c, r);
  }

  lemma Around(l: string, c: char, r: string)
    ensures var s := l + [c] + r; s[..|l|] == l && s[|l| + 1..] == r
  {}

  lemma ParseAt(text: string)
    ensures var at := IndexByte(text, '@');
            if at == -1 then Parse(text) == Assemble(text, "")
            else 0 <= at < |text| && Parse(text) == Assemble(text[..at], text[at + 1..])
  {
    IndexCuts(text, '@');
  }

  lemma CutTagAt(name: string)
    ensures var colon := LastIndexByte(name, ':');
            -1 <= colon < |name|
            && CutTag(name) == if colon != -1 && '/' !in name[colon + 1..] then Named(name[..colon], name[colon + 1..])
                               else Named(name, "")
  {
    LastCutSplits(name, ':');
  }

  lemma LocateAt(body: string)
    ensures var slash := IndexByte(body, '/');
            -1 <= slash < |body|
            && Locate(body) == if slash == -1 then Place(HUB, LIBRARY + body)
                               else if LooksLikeRegistry(body[..slash]) then Place(body[..slash], body[slash + 1..])
                               else Place(HUB, body)
  {
    IndexCuts(body, '/');
  }

  method ParseImageRefSimple(text: string) returns (ir: ImageRef)
    ensures fresh(ir) && ir.full == text && ir.Value() == Parse(text)
  {
    var ref := text;
    ir := new ImageRef(ref);

    ParseAt(ref);
    var at := IndexByte(ref, '@');
    if at != -1 {
      ir.digest := ref[at + 1..];
      ref := ref[..at];
    }

    CutTagAt(ref);
    var colon := LastIndexByte(ref, ':');
    if colon != -1 {
      var afterColon := ref[colon + 1..];
      if '/' !in afterColon {
        ir.tag := afterColon;
        ref := ref[..colon];
      }
    }

    LocateAt(ref);
    var slash := IndexByte(ref, '/');
    if slash == -1 {
      ir.registry, ir.repository := HUB, LIBRARY + ref;
    } else if LooksLikeRegistry(ref[..slash]) {
      ir.registry, ir.repository := ref[..slash], ref[slash + 1..];
    } else {
      ir.registry, ir.repository := HUB, ref;
    }

    if ir.tag == "" && ir.digest == "" {
      ir.tag := "latest";
    }
  }

  // ---- What references of the usual forms mean ----

  lemma LocateBare(n: string)
    requires '/' !in n
    ensures Locate(n) == Place("docker.io", "library/" + n)
  {
    FirstCutSplits(n, '/');
  }

  lemma LocateBelow(first: string, rest: string)
    requires '/' !in first
    ensures Locate(first + "/" + rest) ==
            if '.' in first || ':' in first || first == "localhost" then Place(first, rest)
            else Place("docker.io", first + "/" + rest)
  {
    FirstCutIs(first, '/', rest);
  }

  /** A tag is what follows the last colon, if no slash follows it; without tag and digest it is `latest`. */
  lemma ParseAssembles(body: string, tag: string, digest: string)
    requires '@' !in body && '@' !in tag && ':' !in tag && '/' !in tag
    ensures var p := Locate(body);
            Parse(body + ":" + tag) == Ref(p.registry, p.repository, if tag == "" then "latest" else tag, "")
            && Parse(body + ":" + tag + "@" + digest)
               == Ref(p.registry, p.repository, if tag == "" && digest == "" then "latest" else tag, digest)
  {
    var name := body + ":" + tag;
    LastCutIs(body, ':', tag);
    FirstCutSplits(name, '@');
    assert '@' !in name;
    FirstCutIs(name, '@', digest);
  }

  /** A name alone is an official image of Docker Hub. */
  lemma BareNameMeans(n: string)
    requires '/' !in n && ':' !in n && '@' !in n
    ensures Parse(n) == Ref("docker.io", "library/" + n, "latest", "")
  {
    FirstCutSplits(n, '@');
    LastCutSplits(n, ':');
    LocateBare(n);
  }

  /** Behind a first segment with a dot or a colon, or `localhost`, is a registry's image; any other first
      segment belongs to an image of Docker Hub. A colon in front of a slash is a port. */
  lemma QualifiedNameMeans(first: string, rest: string)
    requires '/' !in first && '@' !in first && ':' !in rest && '@' !in rest
    ensures Parse(first + "/" + rest) ==
            if '.' in first || ':' in first || first == "localhost" then Ref(first, rest, "latest", "")
            else Ref("docker.io", first + "/" + rest, "latest", "")
  {
    var name := first + "/" + rest;
    assert '@' !in name;
    FirstCutSplits(name, '@');
    NoTagBehind(first, rest);
    LocateBelow(first, rest);
  }

  lemma NoTagBehind(first: string, rest: string)
    requires ':' !in rest
    ensures CutTag(first + "/" + rest) == Named(first + "/" + rest, "")
  {
    var name := first + "/" + rest;
    LastCutSplits(name, ':');
    match LastCut(name, ':')
    case Whole =>
    case Parts(l, r) =>
      assert name[|l|] == ':';
      assert forall k :: |first| < k < |name| ==> name[k] == rest[k - |first| - 1] && name[k] in rest;
      assert r[|first| - |l| - 1] == name[|first|] == '/';
  }

  // ---- When a printed reference parses back ----

  function LastSegment(s: string): string {
    match LastCut(s, '/')
    case Whole => s
    case Parts(_, r) => r
  }

  /** No slash after the last colon means that the last path segment holds it. */
  lemma ColonInLastSegment(name: string)
    ensures ':' in LastSegment(name) <==> LastCut(name, ':').Parts? && '/' !in LastCut(name, ':').right
  {
    LastCutSplits(name, ':');
    LastCutSplits(name, '/');
    if ':' in name && '/' in name {
      var c, d := LastCut(name, ':'), LastCut(name, '/');
    }
  }

  lemma LastSegmentBehind(a: string, b: string)
    ensures LastSegment(a + "/" + b) == LastSegment(b)
  {
    LastCutSplits(b, '/');
    match LastCut(b, '/')
    case Whole => LastCutIs(a, '/', b);
    case Parts(l, r) =>
      assert a + "/" + b == (a + "/" + l) + ['/'] + r;
      LastCutIs(a + "/" + l, '/', r);
  }

  /** What parsing yields. */
  predicate RegistryShape(registry: string) {
    LooksLikeRegistry(registry) && '/' !in registry && '@' !in registry && registry != ""
  }

  predicate TagShape(tag: string) { ':' !in tag && '/' !in tag && '@' !in tag }

  predicate Parsed(r: Ref) {
    RegistryShape(r.registry) && '@' !in r.repository && (r.digest == "" ==> r.tag != "" && TagShape(r.tag))
  }

  lemma LocatedShape(body: string)
    requires '@' !in body
    ensures RegistryShape(Locate(body).registry) && '@' !in Locate(body).repository
  {
    FirstCutSplits(body, '/');
  }

  lemma TaggedShape(name: string)
    requires '@' !in name
    ensures '@' !in CutTag(name).body && TagShape(CutTag(name).tag)
  {
    LastCutSplits(name, ':');
  }

  lemma AssembleYieldsParsed(name: string, digest: string)
    requires '@' !in name
    ensures Parsed(Assemble(name, digest))
  {
    TaggedShape(name);
    LocatedShape(CutTag(name).body);
  }

  lemma ParseYieldsParsed(ref: string)
    ensures Parsed(Parse(ref))
  {
    FirstCutSplits(ref, '@');
    match FirstCut(ref, '@')
    case Whole => AssembleYieldsParsed(ref, "");
    case Parts(l, r) => AssembleYieldsParsed(l, r);
  }

  /** A printed place is located where it was. */
  lemma Relocate(registry: string, repository: string)
    requires RegistryShape(registry)
    ensures Locate(registry + "/" + repository) == Place(registry, repository)
  {
    FirstCutIs(registry, '/', repository);
  }

  /** Without a digest, the printed reference parses back. */
  lemma ParseTagged(r: Ref)
    requires Parsed(r) && r.repository != "" && r.digest == ""
    ensures Parse(Print(r)) == r
  {
    var place := r.registry + "/" + r.repository;
    FirstCutSplits(place + ":" + r.tag, '@');
    assert '@' !in place + ":" + r.tag;
    LastCutIs(place, ':', r.tag);
    Relocate(r.registry, r.repository);
  }

  /** With a digest, the printed place is parsed again; a colon in its last segment is taken for a tag. */
  lemma ParsePinned(r: Ref)
    requires Parsed(r) && r.repository != "" && r.digest != ""
    ensures var n := CutTag(r.repository);
            Parse(Print(r)) == Ref(r.registry, n.body, n.tag, r.digest)
            && (n.body == r.repository <==> ':' !in LastSegment(r.repository))
            && (n.body == r.repository ==> n.tag == "")
  {
    var place := r.registry + "/" + r.repository;
    assert '@' !in place;
    FirstCutIs(place, '@', r.digest);
    ColonInLastSegment(r.repository);
    LastCutSplits(r.repository, ':');
    PlaceTag(r.registry, r.repository);
    Relocate(r.registry, CutTag(r.repository).body);
  }

  lemma PlaceTag(registry: string, repository: string)
    ensures var n := CutTag(repository);
            CutTag(registry + "/" + repository) == Named(registry + "/" + n.body, n.tag)
  {
    var place := registry + "/" + repository;
    ColonInLastSegment(place);
    ColonInLastSegment(repository);
    LastSegmentBehind(registry, repository);
    LastCutSplits(repository, ':');
    var c := LastCut(repository, ':');
    if c.Parts? && '/' !in c.right {
      assert place == (registry + "/" + c.left) + [':'] + c.right;
      LastCutIs(registry + "/" + c.left, ':', c.right);
    }
  }

  /** A reference without a repository prints as a bare name, which parses as a library image. */
  lemma ParseBare(r: Ref)
    requires Parsed(r) && r.repository == ""
    ensures Parse(Print(r)).repository != ""
  {
    if r.digest != "" {
      FirstCutIs(r.registry, '@', r.digest);
      BareAssembles(r.registry, r.digest);
    } else {
      FirstCutSplits(r.registry + ":" + r.tag, '@');
      BareAssembles(r.registry + ":" + r.tag, "");
    }
  }

  lemma BareAssembles(name: string, digest: string)
    requires '/' !in name
    ensures Assemble(name, digest).repository != ""
  {
    LastCutSplits(name, ':');
    FirstCutSplits(CutTag(name).body, '/');
  }

  /** What a caller can check before relying on the round trip. */
  predicate Reparses(r: Ref) {
    r.repository != "" && (r.digest == "" || (r.tag == "" && ':' !in LastSegment(r.repository)))
  }

  /** Printing what was parsed and parsing it again yields the same reference exactly when the repository
      is not empty and, if there is a digest, no tag stands beside it and no colon is left in the
      repository's last segment. */
  lemma ParsePrintParse(text: string)
    ensures Parse(Print(Parse(text))) == Parse(text) <==> Reparses(Parse(text))
  {
    var r := Parse(text);
    ParseYieldsParsed(text);
    if r.repository == "" {
      ParseBare(r);
    } else if r.digest != "" {
      ParsePinned(r);
    } else {
      ParseTagged(r);
    }
  }

  /** An empty tag in front of a digest leaves such a colon: no tag beside the digest is not enough. */
  lemma EmptyTagIsNotStable(x: string, t: string, d: string)
    requires TagShape(x) && TagShape(t) && d != ""
    ensures var r := Parse(x + ":" + t + ":" + "@" + d);
            r == Ref(HUB, LIBRARY + (x + ":" + t), "", d) && Parse(Print(r)) == Ref(HUB, LIBRARY + x, t, d)
  {
    var body := x + ":" + t;
    EmptyTagParses(body, d);
    ParseYieldsParsed(body + ":" + "@" + d);
    LibraryTag(x, t);
    ParsePinned(Ref(HUB, LIBRARY + body, "", d));
  }

  lemma EmptyTagParses(body: string, d: string)
    requires '/' !in body && '@' !in body && d != ""
    ensures Parse(body + ":" + "@" + d) == Ref(HUB, LIBRARY + body, "", d)
  {
    FirstCutIs(body + ":", '@', d);
    LastCutIs(body, ':', "");
    assert body + [':'] + "" == body + ":";
    FirstCutSplits(body, '/');
  }

  lemma LibraryTag(x: string, t: string)
    requires TagShape(t)
    ensures CutTag(LIBRARY + (x + ":" + t)) == Named(LIBRARY + x, t)
  {
    LastCutIs(LIBRARY + x, ':', t);
    assert LIBRARY + (x + ":" + t) == (LIBRARY + x) + [':'] + t;
  }
}

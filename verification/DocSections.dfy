// internal/docsgen/docsgen.go: generated sections kept between two marker comments, on a file's text.
module DocSections {
  /** `Panic` is Go's slice-bounds panic. */
  datatype Outcome = Ok(text: string) | Missing | Panic

  predicate At(s: string, m: string, i: int) { 0 <= i <= i + |m| <= |s| && s[i..i + |m|] == m }

  predicate Contains(s: string, m: string) { Index(s, m) != -1 }

  function IndexFrom(s: string, m: string, i: nat): (r: int)
    requires i <= |s|
    ensures r == -1 || i <= r <= |s| - |m|
    decreases |s| - i
  {
    if At(s, m, i) then i else if i == |s| then -1 else IndexFrom(s, m, i + 1)
  }

  /** `strings.Index`. */
  function Index(s: string, m: string): (r: int)
    ensures r == -1 || 0 <= r <= |s| - |m|
  {
    IndexFrom(s, m, 0)
  }

  lemma {:induction false} IndexFromFirst(s: string, m: string, i: nat)
    requires i <= |s|
    ensures var r := IndexFrom(s, m, i);
            (r != -1 ==> At(s, m, r)) && forall j: int :: i <= j && (r == -1 || j < r) ==> !At(s, m, j)
    decreases |s| - i
  {
    if !At(s, m, i) && i < |s| {
      IndexFromFirst(s, m, i + 1);
    }
  }

  /** `Index` is where the text first occurs, or -1 when it does not. */
  lemma IndexFirst(s: string, m: string)
    ensures var r := Index(s, m);
            (r != -1 ==> At(s, m, r)) && forall j: int :: r == -1 || j < r ==> !At(s, m, j)
  {
    IndexFromFirst(s, m, 0);
  }

  lemma IndexIs(s: string, m: string, i: int)
    requires At(s, m, i) && forall j: int :: 0 <= j < i ==> !At(s, m, j)
    ensures Index(s, m) == i
  {
    IndexFirst(s, m);
  }

  function TrimNewline(s: string): string { if s != "" && s[0] == '\n' then s[1..] else s }

  function Put(src: string, begin: string, end: string, content: string): Outcome {
    var b, e := Index(src, begin), Index(src, end);
    if b == -1 || e == -1 || e < b then Missing
    else Ok(src[..b + |begin|] + ("\n" + content) + end + src[e + |end|..])
  }

  function Get(src: string, begin: string, end: string): Outcome {
    var b, e := Index(src, begin), Index(src, end);
    if b == -1 || e == -1 || e < b then Missing
    else if e < b + |begin| then Panic
    else Ok(TrimNewline(src[b + |begin|..e]))
  }

  function BeginMarker(name: string): string { "<!-- BEGIN GENERATED: " + name + " -->" }

  function EndMarker(name: string): string { "<!-- END GENERATED: " + name + " -->" }

  function UpdateSection(src: string, name: string, content: string): Outcome {
    Put(src, BeginMarker(name), EndMarker(name), content)
  }

  function Section(src: string, name: string): Outcome { Get(src, BeginMarker(name), EndMarker(name)) }

  // ---- Markers cannot overlap ----

  /** Nothing but the first character of a marker is a `<`, so two occurrences never overlap. */
  predicate Marker(m: string) { m != "" && m[0] == '<' && forall k :: 0 < k < |m| ==> m[k] != '<' }

  predicate Markers(begin: string, end: string) {
    Marker(begin) && Marker(end) && |begin| > 5 && |end| > 5 && begin[5] != end[5]
  }

  /** Where a marker stands, there is no further `<` inside it. */
  lemma NoneInside(s: string, m: string, p: int, j: int)
    requires Marker(m) && At(s, m, p) && p < j < p + |m|
    ensures s[j] != '<'
  {}

  lemma SharedPrefix(s: string, u: string, n: nat, m: string, p: int)
    requires n <= |s| && n <= |u| && s[..n] == u[..n] && p + |m| <= n
    ensures At(s, m, p) == At(u, m, p)
  {
    if 0 <= p {
      assert s[p..p + |m|] == s[..n][p..p + |m|];
      assert u[p..p + |m|] == u[..n][p..p + |m|];
    }
  }

  lemma SharedSuffix(a: string, t: string, m: string, p: int)
    requires |a| <= p
    ensures At(a + t, m, p) == At(t, m, p - |a|)
  {
    if p + |m| <= |a + t| {
      assert (a + t)[p..p + |m|] == t[p - |a|..p - |a| + |m|];
    }
  }

  /** What is read is what stands between the markers, without the newline behind the begin marker if there
      is one. */
  lemma GetMeans(src: string, begin: string, end: string)
    requires Get(src, begin, end).Ok?
    ensures var inside := src[Index(src, begin) + |begin|..Index(src, end)];
            inside == (if inside != "" && inside[0] == '\n' then "\n" else "") + Get(src, begin, end).text
  {}

  // ---- The section of an updated document ----

  /** Keeping a document up to the end of its first begin marker keeps that marker first. */
  lemma BeginStays(src: string, u: string, begin: string, b: int)
    requires Index(src, begin) == b >= 0
    requires b + |begin| <= |u| && u[..b + |begin|] == src[..b + |begin|]
    ensures Index(u, begin) == b
  {
    IndexFirst(src, begin);
    forall p: int | 0 <= p <= b ensures At(src, begin, p) == At(u, begin, p) {
      SharedPrefix(src, u, b + |begin|, begin, p);
    }
    IndexIs(u, begin, b);
  }

  /** And no end marker starts before the end of that begin marker. */
  lemma EndBehind(src: string, u: string, begin: string, end: string, b: int, p: int)
    requires Markers(begin, end)
    requires Index(src, begin) == b >= 0 && (Index(src, end) == -1 || b <= Index(src, end))
    requires b + |begin| <= |u| && u[..b + |begin|] == src[..b + |begin|]
    requires p < b + |begin|
    ensures !At(u, end, p)
  {
    IndexFirst(src, begin);
    IndexFirst(src, end);
    SharedPrefix(src, u, b + |begin|, begin, b);
    if At(u, end, p) {
      if p > b {
        NoneInside(u, begin, b, p);
      } else if p == b {
      } else if b < p + |end| {
        NoneInside(u, end, p, b);
      } else {
        SharedPrefix(src, u, b + |begin|, end, p);
      }
    }
  }

  /** What content is read back as: all of it, or what precedes an end marker in it. */
  function Readable(content: string, end: string): (r: string)
    ensures r <= content
  {
    var q := Index(content, end);
    if q == -1 then content else content[..q]
  }

  /** The first end marker of a text that is followed by an end marker. */
  lemma FirstEnd(c: string, end: string, rest: string)
    requires Marker(end)
    ensures Index(c + end + rest, end) == |Readable(c, end)|
  {
    IndexFirst(c, end);
    var t := c + end + rest;
    forall p: int | 0 <= p < |c| ensures At(t, end, p) == At(c, end, p) {
      if p + |end| <= |c| {
        SharedPrefix(c, t, |c|, end, p);
      } else if At(t, end, p) {
        NoneInside(t, end, p, |c|);
      }
    }
    IndexIs(t, end, |Readable(c, end)|);
  }

  /** The first end marker behind a head that holds none and a newline. */
  lemma EndAfter(head: string, tail: string, end: string, q: int)
    requires Marker(end) && Index(tail, end) == q >= 0
    requires forall p: int :: p < |head| ==> !At(head + "\n" + tail, end, p)
    ensures Index(head + "\n" + tail, end) == |head| + 1 + q
  {
    IndexFirst(tail, end);
    var u := head + "\n" + tail;
    forall p: int | |head| <= p <= |head| + 1 + q ensures At(u, end, p) <==> p == |head| + 1 + q {
      if p == |head| {
        assert u[p] == '\n';
      } else {
        SharedSuffix(head + "\n", tail, end, p);
      }
    }
    IndexIs(u, end, |head| + 1 + q);
  }

  /** `u` is the document `src` with `content` between the markers found at `b` and `e`. */
  predicate Spliced(src: string, begin: string, end: string, content: string, b: nat, e: nat, u: string) {
    Index(src, begin) == b <= e == Index(src, end)
    && u == src[..b + |begin|] + ("\n" + content) + end + src[e + |end|..]
  }

  lemma SplicedShape(head: string, content: string, end: string, rest: string, u: string)
    requires u == head + ("\n" + content) + end + rest
    ensures u == head + "\n" + (content + end + rest)
    ensures |head| <= |u| && u[..|head|] == head && u[|head|..] == "\n" + content + end + rest
  {}

  lemma MarkersOrdered(src: string, begin: string, end: string, b: nat, e: nat)
    requires Markers(begin, end) && Index(src, begin) == b <= e == Index(src, end)
    ensures b + |begin| <= e
  {
    IndexFirst(src, end);
    if e < b + |begin| {
      EndBehind(src, src, begin, end, b, e);
    }
  }

  /** Where the markers of an updated document are. */
  lemma SplicedMarkers(src: string, begin: string, end: string, content: string, b: nat, e: nat, u: string)
    requires Markers(begin, end) && Spliced(src, begin, end, content, b, e, u)
    ensures Index(u, begin) == b && Index(u, end) == b + |begin| + 1 + |Readable(content, end)|
  {
    var head, rest := src[..b + |begin|], src[e + |end|..];
    SplicedShape(head, content, end, rest, u);
    BeginStays(src, u, begin, b);
    forall p: int | p < b + |begin| ensures !At(u, end, p) {
      EndBehind(src, u, begin, end, b, p);
    }
    FirstEnd(content, end, rest);
    EndAfter(head, content + end + rest, end, |Readable(content, end)|);
  }

  /** Reading a section just written gives its content back, up to an end marker if the content holds one. */
  lemma ReadAfterPut(src: string, begin: string, end: string, content: string)
    requires Markers(begin, end) && Put(src, begin, end, content).Ok?
    ensures Get(Put(src, begin, end, content).text, begin, end) == Ok(Readable(content, end))
  {
    var u, b, e := Put(src, begin, end, content).text, Index(src, begin), Index(src, end);
    ReadSpliced(src, begin, end, content, b, e, u);
  }

  lemma ReadSpliced(src: string, begin: string, end: string, content: string, b: nat, e: nat, u: string)
    requires Markers(begin, end) && Spliced(src, begin, end, content, b, e, u)
    ensures Get(u, begin, end) == Ok(Readable(content, end))
  {
    SplicedMarkers(src, begin, end, content, b, e, u);
  }

  /** So content survives the round trip exactly when it does not contain the end marker. */
  lemma PutGet(src: string, name: string, content: string)
    requires '<' !in name && UpdateSection(src, name, content).Ok?
    ensures Section(UpdateSection(src, name, content).text, name) == Ok(content)
            <==> !Contains(content, EndMarker(name))
  {
    ReadAfterPut(src, BeginMarker(name), EndMarker(name), content);
  }

  lemma PutTwice(src: string, begin: string, end: string, first: string, second: string)
    requires Markers(begin, end) && Put(src, begin, end, first).Ok?
    ensures Put(Put(src, begin, end, first).text, begin, end, second) == Put(src, begin, end, second)
            <==> !Contains(first, end)
  {
    var u, b, e := Put(src, begin, end, first).text, Index(src, begin), Index(src, end);
    PutSpliced(src, begin, end, first, second, b, e, u);
  }

  lemma PutSpliced(src: string, begin: string, end: string, first: string, second: string, b: nat, e: nat, u: string)
    requires Markers(begin, end) && Spliced(src, begin, end, first, b, e, u)
    ensures Put(u, begin, end, second) == Put(src, begin, end, second) <==> !Contains(first, end)
  {
    SplicedMarkers(src, begin, end, first, b, e, u);
  }

  /** A second update overwrites the first as if it had not happened exactly when the first content does
      not contain the end marker. */
  lemma PutPut(src: string, name: string, first: string, second: string)
    requires '<' !in name && UpdateSection(src, name, first).Ok?
    ensures UpdateSection(UpdateSection(src, name, first).text, name, second) == UpdateSection(src, name, second)
            <==> !Contains(first, EndMarker(name))
  {
    PutTwice(src, BeginMarker(name), EndMarker(name), first, second);
  }

  lemma PutBack(src: string, begin: string, end: string)
    requires Markers(begin, end) && Get(src, begin, end).Ok?
    ensures var after := Index(src, begin) + |begin|;
            Put(src, begin, end, Get(src, begin, end).text) == Ok(src) <==> after < |src| && src[after] == '\n'
  {
    var b, e := Index(src, begin), Index(src, end);
    var content := Get(src, begin, end).text;
    var u := Put(src, begin, end, content).text;
    IndexFirst(src, end);
    PutBackSpliced(src, begin, end, content, b, e, u);
  }

  lemma PutBackSpliced(src: string, begin: string, end: string, content: string, b: nat, e: nat, u: string)
    requires Marker(end) && Spliced(src, begin, end, content, b, e, u) && At(src, end, e)
    requires b + |begin| <= e && content == TrimNewline(src[b + |begin|..e])
    ensures b + |begin| < |src| && (u == src <==> src[b + |begin|] == '\n')
  {
    EndStarts(src, end, e);
    WriteBack(src, b + |begin|, e, end, src[e + |end|..]);
  }

  lemma EndStarts(src: string, end: string, e: nat)
    requires Marker(end) && At(src, end, e)
    ensures e < |src| && src[e] == '<' && src[e..] == end + src[e + |end|..]
  {}

  lemma WriteBack(src: string, after: nat, e: nat, end: string, rest: string)
    requires after <= e < |src| && src[e..] == end + rest && src[e] != '\n'
    ensures src[..after] + ("\n" + TrimNewline(src[after..e])) + end + rest == src <==> src[after] == '\n'
  {
    var inside := src[after..e];
    var u := src[..after] + ("\n" + TrimNewline(inside)) + end + rest;
    assert src == src[..after] + inside + (end + rest);
    assert u == src[..after] + ("\n" + TrimNewline(inside)) + (end + rest);
    if src[after] == '\n' {
      assert "\n" + TrimNewline(inside) == inside;
    } else {
      assert u[after] == '\n';
    }
  }

  /** Writing back what was read changes nothing exactly when a newline follows the begin marker. */
  lemma GetPut(src: string, name: string)
    requires '<' !in name && Section(src, name).Ok?
    ensures var after := Index(src, BeginMarker(name)) + |BeginMarker(name)|;
            UpdateSection(src, name, Section(src, name).text) == Ok(src) <==> after < |src| && src[after] == '\n'
  {
    PutBack(src, BeginMarker(name), EndMarker(name));
  }

  /** Neither operation panics, and both find the markers or neither does, for every document and content. */
  lemma NeverPanics(src: string, name: string, content: string)
    requires '<' !in name
    ensures !Section(src, name).Panic? && !UpdateSection(src, name, content).Panic?
    ensures Section(src, name).Ok? <==> UpdateSection(src, name, content).Ok?
  {
    var begin, end := BeginMarker(name), EndMarker(name);
    var b, e := Index(src, begin), Index(src, end);
    if 0 <= b <= e {
      MarkersOrdered(src, begin, end, b, e);
    }
  }

  /** From `p` on, the begin marker and an end marker put there agree as far as both go. */
  predicate OverlapAt(begin: string, end: string, p: nat) {
    p < |begin| && (begin[p..] <= end || end <= begin[p..])
  }

  predicate Overlap(begin: string, end: string) { exists p: nat :: p < |begin| && OverlapAt(begin, end, p) }

  lemma PanicOverlaps(src: string, begin: string, end: string)
    requires Get(src, begin, end).Panic?
    ensures Overlap(begin, end)
  {
    var b, e := Index(src, begin), Index(src, end);
    IndexFirst(src, begin);
    IndexFirst(src, end);
    AgreeFrom(src, begin, end, b, e - b);
  }

  lemma AgreeFrom(src: string, begin: string, end: string, b: nat, p: nat)
    requires At(src, begin, b) && At(src, end, b + p) && p < |begin|
    ensures OverlapAt(begin, end, p)
  {
    assert begin[p..] == src[b + p..b + |begin|];
    assert end == src[b + p..b + p + |end|];
  }

  lemma OverlapPanics(begin: string, end: string, p: nat) returns (src: string)
    requires begin != "" && end != "" && OverlapAt(begin, end, p)
    ensures Get(src, begin, end).Panic?
  {
    src := if begin[p..] <= end then begin + end[|begin| - p..] else begin;
    assert At(src, begin, 0);
    IndexIs(src, begin, 0);
    assert src[p..p + |end|] == end by {
      if begin[p..] <= end {
        assert src[p..] == begin[p..] + end[|begin| - p..] == end;
      } else {
        assert src[p..p + |end|] == begin[p..][..|end|];
      }
    }
    assert At(src, end, p);
    IndexFirst(src, end);
  }

  /** `Section` panics on some document exactly when the end marker can start inside the begin marker.
      Only a name that contains a `<` allows that. */
  lemma PanicsExactly(name: string)
    ensures (exists src :: Section(src, name).Panic?) <==> Overlap(BeginMarker(name), EndMarker(name))
    ensures Overlap(BeginMarker(name), EndMarker(name)) ==> '<' in name
  {
    var begin, end := BeginMarker(name), EndMarker(name);
    if src :| Section(src, name).Panic? {
      PanicOverlaps(src, begin, end);
    }
    if p: nat :| p < |begin| && OverlapAt(begin, end, p) {
      var src := OverlapPanics(begin, end, p);
      assert Section(src, name).Panic?;
      if '<' !in name {
        NeverPanics(src, name, "");
      }
    }
  }

  lemma OverlapOf(x: string, y: string, z: string)
    requires x != "" && y != ""
    ensures Overlap(x + (z + y) + z, y + (z + y) + z)
  {
    var begin, end := x + (z + y) + z, y + (z + y) + z;
    assert begin == (x + z) + (y + z);
    assert begin[|x + z|..] == y + z;
    assert end == (y + z) + (y + z);
    assert OverlapAt(begin, end, |x + z|);
  }

  /** A name with which it does: the one that closes the begin marker and opens an end marker. */
  lemma NameThatPanics() returns (src: string)
    ensures Section(src, " -->" + "<!-- END GENERATED: ").Panic?
  {
    var name := " -->" + "<!-- END GENERATED: ";
    OverlapOf("<!-- BEGIN GENERATED: ", "<!-- END GENERATED: ", " -->");
    PanicsExactly(name);
    src :| Section(src, name).Panic?;
  }

  /** Everything up to the begin marker and everything from the end marker on is kept, for any name. */
  lemma OutsideUntouched(src: string, name: string, content: string)
    requires UpdateSection(src, name, content).Ok?
    ensures var u := UpdateSection(src, name, content).text;
            var b, e := Index(src, BeginMarker(name)) + |BeginMarker(name)|, Index(src, EndMarker(name));
            u == src[..b] + ("\n" + content) + src[e..]
  {
    OutsideKept(src, BeginMarker(name), EndMarker(name), content);
  }

  lemma OutsideKept(src: string, begin: string, end: string, content: string)
    requires Put(src, begin, end, content).Ok?
    ensures Put(src, begin, end, content).text
         == src[..Index(src, begin) + |begin|] + ("\n" + content) + src[Index(src, end)..]
  {
    IndexFirst(src, end);
    var e := Index(src, end);
    assert src[e..] == end + src[e + |end|..];
  }
}

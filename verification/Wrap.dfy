// internal/explain/renderer.go: greedy wrapping of text to a width counted in bytes.
module Wrap {
  import opened Text

  /** Bytes of a character in UTF-8, and of a string: Go's `len`. */
  function CharBytes(c: char): nat {
    if c < '\U{80}' then 1 else if c < '\U{800}' then 2 else if c < '\U{10000}' then 3 else 4
  }

  function ByteLen(s: string): nat { if s == "" then 0 else ByteLen(s[..|s| - 1]) + CharBytes(s[|s| - 1]) }

  lemma {:induction false} ByteLenAppend(a: string, b: string)
    ensures ByteLen(a + b) == ByteLen(a) + ByteLen(b)
  {
    if b == "" {
      assert a + b == a;
    } else {
      assert (a + b)[..|a + b| - 1] == a + b[..|b| - 1];
      ByteLenAppend(a, b[..|b| - 1]);
    }
  }

  // ---- Words, lines and paragraphs ----

  function Word(w: string): seq<string> { if w == "" then [] else [w] }

  function FieldsFrom(w: string, s: string): seq<string>
    decreases |s|
  {
    if s == "" then Word(w)
    else if IsSpace(s[0]) then Word(w) + FieldsFrom("", s[1..])
    else FieldsFrom(w + [s[0]], s[1..])
  }

  /** `strings.Fields`: the runs of characters between white space. */
  function Fields(s: string): seq<string> { FieldsFrom("", s) }

  predicate IsWord(w: string) { w != "" && forall i :: 0 <= i < |w| ==> !IsSpace(w[i]) }

  predicate AllWords(ws: seq<string>) { forall i :: 0 <= i < |ws| ==> IsWord(ws[i]) }

  lemma {:induction false} FieldsFromWords(w: string, s: string)
    requires w == "" || IsWord(w)
    ensures AllWords(FieldsFrom(w, s))
    decreases |s|
  {
    if s != "" {
      if IsSpace(s[0]) {
        FieldsFromWords("", s[1..]);
      } else {
        FieldsFromWords(w + [s[0]], s[1..]);
      }
    }
  }

  lemma {:induction false} FieldsFromWord(w: string, s: string)
    requires forall i :: 0 <= i < |s| ==> !IsSpace(s[i])
    ensures FieldsFrom(w, s) == Word(w + s)
    decreases |s|
  {
    if s == "" {
      assert w + s == w;
    } else {
      FieldsFromWord(w + [s[0]], s[1..]);
      assert w + [s[0]] + s[1..] == w + s;
    }
  }

  lemma FieldsOfWord(w: string)
    requires IsWord(w)
    ensures Fields(w) == [w]
  {
    FieldsFromWord("", w);
    assert "" + w == w;
  }

  lemma {:induction false} FieldsFromSpace(w: string, a: string, c: char, b: string)
    requires IsSpace(c)
    ensures FieldsFrom(w, a + [c] + b) == FieldsFrom(w, a) + Fields(b)
    decreases |a|
  {
    var s := a + [c] + b;
    if a == "" {
      assert s[1..] == b;
    } else {
      assert s[1..] == a[1..] + [c] + b;
      if IsSpace(a[0]) {
        FieldsFromSpace("", a[1..], c, b);
        assert Word(w) + (FieldsFrom("", a[1..]) + Fields(b)) == Word(w) + FieldsFrom("", a[1..]) + Fields(b);
      } else {
        FieldsFromSpace(w + [a[0]], a[1..], c, b);
      }
    }
  }

  /** White space separates words. */
  lemma FieldsAround(a: string, c: char, b: string)
    requires IsSpace(c)
    ensures Fields(a + [c] + b) == Fields(a) + Fields(b)
  {
    FieldsFromSpace("", a, c, b);
  }

  function FieldsOf(ls: seq<string>): seq<string> {
    if ls == [] then [] else FieldsOf(ls[..|ls| - 1]) + Fields(ls[|ls| - 1])
  }

  lemma {:induction false} FieldsOfAppend(a: seq<string>, b: seq<string>)
    ensures FieldsOf(a + b) == FieldsOf(a) + FieldsOf(b)
  {
    if b == [] {
      assert a + b == a;
    } else {
      assert (a + b)[..|a + b| - 1] == a + b[..|b| - 1];
      FieldsOfAppend(a, b[..|b| - 1]);
    }
  }

  function JoinLines(ls: seq<string>): string {
    if ls == [] then ""
    else if |ls| == 1 then ls[0]
    else JoinLines(ls[..|ls| - 1]) + "\n" + ls[|ls| - 1]
  }

  lemma {:induction false} FieldsOfJoin(ls: seq<string>)
    ensures Fields(JoinLines(ls)) == FieldsOf(ls)
  {
    if |ls| == 1 {
      assert FieldsOf(ls[..0]) == [];
    } else if |ls| > 1 {
      var n := |ls| - 1;
      FieldsOfJoin(ls[..n]);
      FieldsAround(JoinLines(ls[..n]), '\n', ls[n]);
    }
  }

  lemma {:induction false} JoinAppend(a: seq<string>, b: seq<string>)
    requires a != [] && b != []
    ensures JoinLines(a + b) == JoinLines(a) + "\n" + JoinLines(b)
  {
    var n := |b| - 1;
    assert (a + b)[..|a + b| - 1] == a + b[..n];
    if n == 0 {
      assert a + b[..n] == a;
    } else {
      JoinAppend(a, b[..n]);
      assert JoinLines(a) + "\n" + JoinLines(b[..n]) + "\n" + b[n] == JoinLines(a) + "\n" + (JoinLines(b[..n]) + "\n" + b[n]);
    }
  }

  /** `strings.Split(s, "\n")`. */
  function Lines(s: string): (ls: seq<string>)
    ensures ls != []
  {
    if s == "" then [""]
    else
      var n := |s| - 1;
      var rest := Lines(s[..n]);
      if s[n] == '\n' then rest + [""] else rest[..|rest| - 1] + [rest[|rest| - 1] + [s[n]]]
  }

  predicate OneLine(l: string) { forall i :: 0 <= i < |l| ==> l[i] != '\n' }

  lemma {:induction false} LinesAppend(s: string, l: string)
    requires OneLine(l)
    ensures Lines(s + "\n" + l) == Lines(s) + [l]
  {
    var t := s + "\n" + l;
    if l == "" {
      assert t[..|t| - 1] == s;
    } else {
      var n := |l| - 1;
      assert t[..|t| - 1] == s + "\n" + l[..n];
      LinesAppend(s, l[..n]);
      assert (Lines(s) + [l[..n]])[..|Lines(s)|] == Lines(s);
      assert l == l[..n] + [l[n]];
    }
  }

  lemma {:induction false} LinesOfLine(l: string)
    requires OneLine(l)
    ensures Lines(l) == [l]
  {
    if l != "" {
      LinesOfLine(l[..|l| - 1]);
      assert l == l[..|l| - 1] + [l[|l| - 1]];
    }
  }

  lemma {:induction false} LinesOfJoin(ls: seq<string>)
    requires ls != [] && forall i :: 0 <= i < |ls| ==> OneLine(ls[i])
    ensures Lines(JoinLines(ls)) == ls
  {
    var n := |ls| - 1;
    if n == 0 {
      LinesOfLine(ls[0]);
    } else {
      assert ls == ls[..n] + [ls[n]];
      LinesOfJoin(ls[..n]);
      LinesAppend(JoinLines(ls[..n]), ls[n]);
    }
  }

  /** `strings.Split(s, "\n\n")`. */
  function Paragraphs(s: string): (ps: seq<string>)
    ensures ps != []
    decreases |s|
  {
    if s == "" then [""]
    else if |s| >= 2 && s[0] == s[1] == '\n' then [""] + Paragraphs(s[2..])
    else
      var rest := Paragraphs(s[1..]);
      [[s[0]] + rest[0]] + rest[1..]
  }

  function JoinParagraphs(ps: seq<string>): string {
    if ps == [] then "" else if |ps| == 1 then ps[0] else ps[0] + "\n" + ("\n" + JoinParagraphs(ps[1..]))
  }

  lemma {:induction false} ParagraphsJoin(s: string)
    ensures JoinParagraphs(Paragraphs(s)) == s
    decreases |s|
  {
    if s == "" {
    } else if |s| >= 2 && s[0] == s[1] == '\n' {
      ParagraphsJoin(s[2..]);
    } else {
      ParagraphsJoin(s[1..]);
    }
  }

  lemma {:induction false} FieldsOfParagraphs(ps: seq<string>)
    ensures Fields(JoinParagraphs(ps)) == FieldsOf(ps)
  {
    if |ps| == 1 {
      assert FieldsOf(ps[..0]) == [];
    } else if |ps| > 1 {
      var rest := JoinParagraphs(ps[1..]);
      FieldsOfParagraphs(ps[1..]);
      FieldsAround(ps[0], '\n', "\n" + rest);
      FieldsAround("", '\n', rest);
      assert "" + ['\n'] + rest == "\n" + rest;
      assert ps == [ps[0]] + ps[1..] && FieldsOf([ps[0]][..0]) == [];
      FieldsOfAppend([ps[0]], ps[1..]);
    }
  }

  // ---- Wrapping ----

  /** Finished lines, and the line being filled. */
  datatype Page = Page(lines: seq<string>, line: string)

  function Place(p: Page, word: string, width: int): Page {
    if ByteLen(p.line) + ByteLen(word) + 1 > width then Page(p.lines + [p.line], word)
    else Page(p.lines, if p.line == "" then word else p.line + " " + word)
  }

  function Fill(words: seq<string>, width: int): Page {
    if words == [] then Page([], "") else Place(Fill(words[..|words| - 1], width), words[|words| - 1], width)
  }

  function WrapWords(words: seq<string>, width: int): seq<string> {
    var p := Fill(words, width);
    p.lines + if p.line == "" then [] else [p.line]
  }

  /** The first `n` paragraphs wrapped; a blank line follows each but the last, and none a blank paragraph. */
  function Blocks(ps: seq<string>, n: nat, width: int): seq<string>
    requires n <= |ps|
  {
    if n == 0 then []
    else Blocks(ps, n - 1, width) + Block(Fields(ps[n - 1]), n < |ps|, width)
  }

  function Block(words: seq<string>, more: bool, width: int): seq<string> {
    if words == [] then [] else [JoinLines(WrapWords(words, width))] + Separator(more)
  }

  function Separator(more: bool): seq<string> { if more then [""] else [] }

  function Wrapped(text: string, width: int): string {
    if ByteLen(text) <= width then text
    else
      var ps := Paragraphs(text);
      JoinLines(Blocks(ps, |ps|, width))
  }

  method WrapParagraph(words: seq<string>, width: int) returns (lines: seq<string>)
    ensures lines == WrapWords(words, width)
  {
    lines := [];
    var line := "";
    for j := 0 to |words|
      invariant Page(lines, line) == Fill(words[..j], width)
    {
      assert words[..j + 1][..j] == words[..j];
      if ByteLen(line) + ByteLen(words[j]) + 1 > width {
        lines := lines + [line];
        line := "";
      }
      if ByteLen(line) > 0 {
        line := line + " ";
      }
      line := line + words[j];
    }
    assert words[..|words|] == words;
    if ByteLen(line) > 0 {
      lines := lines + [line];
    }
  }

  method WrapBlock(words: seq<string>, more: bool, width: int) returns (block: seq<string>)
    ensures block == Block(words, more, width)
  {
    block := [];
    if words != [] {
      var lines := WrapParagraph(words, width);
      block := [JoinLines(lines)];
      if more {
        block := block + [""];
      }
    }
  }

  method WrapText(text: string, width: int) returns (wrapped: string)
    ensures wrapped == Wrapped(text, width)
  {
    if ByteLen(text) <= width {
      return text;
    }
    var paragraphs := Paragraphs(text);
    var result: seq<string> := [];
    for i := 0 to |paragraphs|
      invariant result == Blocks(paragraphs, i, width)
    {
      var block := WrapBlock(Fields(paragraphs[i]), i < |paragraphs| - 1, width);
      result := result + block;
    }
    wrapped := JoinLines(result);
  }

  // ---- What a wrapped paragraph is ----

  /** A line is empty, or no longer than the width, or a single word. */
  predicate Fits(l: string, width: int) { l == "" || ByteLen(l) <= width || Fields(l) == [l] }

  function FirstWord(l: string): string { if Fields(l) == [] then "" else Fields(l)[0] }

  /** The first word of `l` would not have fitted on the line before. */
  predicate Tight(before: string, l: string, width: int) { ByteLen(before) + 1 + ByteLen(FirstWord(l)) > width }

  predicate GoodLine(l: string, width: int) { OneLine(l) && Fits(l, width) && (l != "" ==> Fields(l) != []) }

  /** The lines of a page so far, the unfinished one last. */
  function Sheet(p: Page): seq<string> { p.lines + [p.line] }

  predicate GoodSheet(ls: seq<string>, width: int) {
    (forall i :: 0 <= i < |ls| ==> GoodLine(ls[i], width))
    && (forall i :: 0 < i < |ls| ==> ls[i] != "")
    && forall i :: 0 < i < |ls| ==> Tight(ls[i - 1], ls[i], width)
  }

  lemma WordIsGoodLine(w: string, width: int)
    requires IsWord(w)
    ensures GoodLine(w, width) && Fields(w) == [w] && FirstWord(w) == w
  {
    FieldsOfWord(w);
  }

  lemma LongerLine(line: string, w: string, width: int)
    requires GoodLine(line, width) && line != "" && IsWord(w) && ByteLen(line) + ByteLen(w) + 1 <= width
    ensures var l := line + " " + w;
            GoodLine(l, width) && Fields(l) == Fields(line) + [w] && FirstWord(l) == FirstWord(line)
  {
    FieldsAround(line, ' ', w);
    FieldsOfWord(w);
    ByteLenAppend(line + " ", w);
    ByteLenAppend(line, " ");
    assert " "[..0] == "";
    assert ByteLen(" ") == 1;
  }

  /** Placing a word changes the last line, or adds one after it. */
  lemma PlaceOne(p: Page, w: string, width: int)
    requires IsWord(w) && GoodSheet(Sheet(p), width)
    ensures var q := Place(p, w, width);
            GoodSheet(Sheet(q), width) && q.line != "" && FieldsOf(Sheet(q)) == FieldsOf(Sheet(p)) + [w]
  {
    var q := Place(p, w, width);
    WordIsGoodLine(w, width);
    FieldsOfAppend(p.lines, [p.line]);
    assert [p.line][..0] == [];
    FieldsOfAppend(q.lines, [q.line]);
    assert [q.line][..0] == [];
    if ByteLen(p.line) + ByteLen(w) + 1 > width {
      if p.lines != [] {
        assert Sheet(p)[|p.lines|] != "";
      }
      FlushKeepsGood(p, w, width);
    } else {
      assert Sheet(p)[|p.lines|] == p.line && GoodLine(Sheet(p)[|p.lines|], width);
      if p.line == "" {
        assert p.lines == [];
      } else {
        LongerLine(p.line, w, width);
      }
      ReplaceKeepsGood(p.lines, p.line, q.line, width);
      assert FieldsOf(p.lines) + (Fields(p.line) + [w]) == FieldsOf(p.lines) + Fields(p.line) + [w];
    }
  }

  lemma FlushKeepsGood(p: Page, w: string, width: int)
    requires IsWord(w) && GoodSheet(Sheet(p), width) && GoodLine(w, width) && Tight(p.line, w, width)
    ensures GoodSheet(Sheet(p) + [w], width)
  {
    var ls := Sheet(p) + [w];
    forall i | 0 < i < |ls| ensures Tight(ls[i - 1], ls[i], width) {
      if i < |ls| - 1 {
        assert Tight(Sheet(p)[i - 1], Sheet(p)[i], width);
      }
    }
    forall i | 0 <= i < |ls| ensures GoodLine(ls[i], width) {
      if i < |ls| - 1 {
        assert GoodLine(Sheet(p)[i], width);
      }
    }
  }

  lemma ReplaceKeepsGood(lines: seq<string>, line: string, l: string, width: int)
    requires GoodSheet(lines + [line], width) && GoodLine(l, width) && l != ""
    requires lines == [] || FirstWord(l) == FirstWord(line)
    ensures GoodSheet(lines + [l], width)
  {
    var before, ls := lines + [line], lines + [l];
    forall i | 0 < i < |ls| ensures Tight(ls[i - 1], ls[i], width) {
      assert Tight(before[i - 1], before[i], width);
    }
    forall i | 0 <= i < |ls| ensures GoodLine(ls[i], width) {
      assert GoodLine(before[i], width);
    }
    forall i | 0 < i < |ls| ensures ls[i] != "" {
      assert before[i] != "" || i == |lines|;
    }
  }

  lemma EmptySheet(width: int)
    ensures GoodSheet([""], width) && FieldsOf([""]) == []
  {
    assert Fields("") == [] && [""][..0] == [];
  }

  predicate Holds(p: Page, words: seq<string>, width: int) {
    GoodSheet(Sheet(p), width) && (words != [] ==> p.line != "") && FieldsOf(Sheet(p)) == words
  }

  lemma HoldsOneMore(p: Page, words: seq<string>, w: string, width: int)
    requires Holds(p, words, width) && IsWord(w)
    ensures Holds(Place(p, w, width), words + [w], width)
  {
    PlaceOne(p, w, width);
  }

  lemma {:induction false} FillKeepsWords(words: seq<string>, width: int)
    requires AllWords(words)
    ensures Holds(Fill(words, width), words, width)
  {
    if words == [] {
      assert Sheet(Page([], "")) == [""];
      EmptySheet(width);
    } else {
      var n := |words| - 1;
      FillKeepsWords(words[..n], width);
      HoldsOneMore(Fill(words[..n], width), words[..n], words[n], width);
      assert words == words[..n] + [words[n]];
    }
  }

  /** A wrapped paragraph holds its words in order, in lines that fit and could not have taken one more word. */
  lemma ParagraphWrapped(words: seq<string>, width: int)
    requires AllWords(words) && words != []
    ensures var ls := WrapWords(words, width);
            ls != [] && FieldsOf(ls) == words && GoodSheet(ls, width)
  {
    FillKeepsWords(words, width);
  }

  lemma {:induction false} FirstLine(words: seq<string>, width: int)
    requires AllWords(words) && words != []
    ensures var ls := Sheet(Fill(words, width)); |ls| > 1 || ls[0] != ""
    ensures Sheet(Fill(words, width))[0] == "" <==> ByteLen(words[0]) >= width
  {
    var n := |words| - 1;
    var p := Fill(words[..n], width);
    if n == 0 {
      assert p == Page([], "");
    } else {
      FirstLine(words[..n], width);
      assert words[..n][0] == words[0];
    }
  }

  /** A paragraph starts with an empty line exactly when its first word is as long as the width or longer;
      no other line of it is empty. */
  lemma EmptyFirstLine(words: seq<string>, width: int)
    requires AllWords(words) && words != []
    ensures var ls := WrapWords(words, width);
            ls != [] && forall i :: 0 <= i < |ls| ==> (ls[i] == "" <==> i == 0 && ByteLen(words[0]) >= width)
  {
    FillKeepsWords(words, width);
    FirstLine(words, width);
  }

  /** One byte for ASCII, and up to four for what lies beyond. */
  lemma BytesOfChars()
    ensures CharBytes('\n') == CharBytes('z') == CharBytes('\U{7F}') == 1
    ensures CharBytes('\U{80}') == CharBytes('\U{7FF}') == 2
    ensures CharBytes('\U{800}') == CharBytes('\U{FFFF}') == 3
    ensures CharBytes('\U{10000}') == CharBytes('\U{10FFFF}') == 4
  {}

  /** No blank line, and no newline at the end. */
  predicate OneParagraph(p: string) {
    p != "" && p[|p| - 1] != '\n' && forall i :: 0 < i < |p| ==> !(p[i - 1] == p[i] == '\n')
  }

  lemma {:induction false} ParagraphsFirst(p: string, rest: string)
    requires forall i :: 0 < i < |p| ==> !(p[i - 1] == p[i] == '\n')
    requires p != "" ==> p[|p| - 1] != '\n'
    ensures Paragraphs(p + "\n\n" + rest) == [p] + Paragraphs(rest)
    ensures Paragraphs(p) == [p]
    decreases |p|
  {
    var s := p + "\n\n" + rest;
    if p == "" {
      assert s[2..] == rest;
    } else {
      assert s[1..] == p[1..] + "\n\n" + rest && s[0] == p[0];
      assert |p| > 1 ==> s[1] == p[1];
      ParagraphsFirst(p[1..], rest);
      assert p == [p[0]] + p[1..];
    }
  }

  lemma TwoParagraphs(a: string, b: string)
    requires OneParagraph(a) && OneParagraph(b)
    ensures Paragraphs(a + "\n\n" + b) == [a, b]
  {
    ParagraphsFirst(a, b);
    ParagraphsFirst(b, "");
  }

  /** A blank line keeps two paragraphs apart, each wrapped on its own; behind the last there is none. */
  lemma ParagraphsStayApart(a: string, b: string, width: int)
    requires OneParagraph(a) && OneParagraph(b) && Fields(a) != [] && Fields(b) != []
    requires ByteLen(a + "\n\n" + b) > width
    ensures Wrapped(a + "\n\n" + b, width)
         == JoinLines(WrapWords(Fields(a), width)) + "\n\n" + JoinLines(WrapWords(Fields(b), width))
  {
    TwoParagraphs(a, b);
    TwoBlocks(a, b, width);
    JoinThree(JoinLines(WrapWords(Fields(a), width)), JoinLines(WrapWords(Fields(b), width)));
  }

  lemma TwoBlocks(a: string, b: string, width: int)
    requires Fields(a) != [] && Fields(b) != []
    ensures Blocks([a, b], 2, width) == [JoinLines(WrapWords(Fields(a), width)), "", JoinLines(WrapWords(Fields(b), width))]
  {
    var ps := [a, b];
    assert Blocks(ps, 0, width) == [];
    assert Blocks(ps, 1, width) == [] + Block(Fields(a), true, width);
    assert Blocks(ps, 2, width) == Blocks(ps, 1, width) + Block(Fields(b), false, width);
  }

  lemma JoinThree(x: string, y: string)
    ensures JoinLines([x, "", y]) == x + "\n\n" + y
  {
    assert [x, "", y][..2] == [x, ""] && [x, ""][..1] == [x];
    assert JoinLines([x, ""]) == x + "\n" + "";
    assert (x + "\n" + "") + "\n" + y == x + "\n\n" + y;
  }

  // ---- What a wrapped text is ----

  /** The lines of all blocks, in one list. */
  function AllLines(ps: seq<string>, n: nat, width: int): seq<string>
    requires n <= |ps|
  {
    if n == 0 then []
    else AllLines(ps, n - 1, width) + ParagraphLines(Fields(ps[n - 1]), n < |ps|, width)
  }

  function ParagraphLines(words: seq<string>, more: bool, width: int): seq<string> {
    if words == [] then [] else WrapWords(words, width) + Separator(more)
  }

  lemma JoinNested(a: seq<string>, ls: seq<string>, rest: seq<string>, a': seq<string>)
    requires ls != [] && JoinLines(a) == JoinLines(a') && (a == [] <==> a' == [])
    ensures JoinLines(a + ([JoinLines(ls)] + rest)) == JoinLines(a' + (ls + rest))
  {
    var l := JoinLines(ls);
    assert JoinLines([l] + rest) == JoinLines(ls + rest) by {
      if rest == [] {
        assert [l] + rest == [l] && ls + rest == ls;
      } else {
        JoinAppend([l], rest);
        JoinAppend(ls, rest);
      }
    }
    if a == [] {
      assert a + ([l] + rest) == [l] + rest && a' + (ls + rest) == ls + rest;
    } else {
      JoinAppend(a, [l] + rest);
      JoinAppend(a', ls + rest);
    }
  }

  lemma BlockAppend(a: seq<string>, a': seq<string>, words: seq<string>, more: bool, width: int)
    requires AllWords(words) && JoinLines(a) == JoinLines(a') && (a == [] <==> a' == [])
    ensures var b, b' := Block(words, more, width), ParagraphLines(words, more, width);
            JoinLines(a + b) == JoinLines(a' + b') && (a + b == [] <==> a' + b' == [])
  {
    if words == [] {
      assert a + [] == a && a' + [] == a';
    } else {
      ParagraphWrapped(words, width);
      JoinNested(a, WrapWords(words, width), Separator(more), a');
    }
  }

  lemma {:induction false} BlocksAreLines(ps: seq<string>, n: nat, width: int)
    requires n <= |ps|
    ensures JoinLines(Blocks(ps, n, width)) == JoinLines(AllLines(ps, n, width))
    ensures Blocks(ps, n, width) == [] <==> AllLines(ps, n, width) == []
  {
    if n > 0 {
      BlocksAreLines(ps, n - 1, width);
      FieldsFromWords("", ps[n - 1]);
      BlockAppend(Blocks(ps, n - 1, width), AllLines(ps, n - 1, width), Fields(ps[n - 1]), n < |ps|, width);
    }
  }

  /** Lines that fit, and of which no two neighbours with words could have been filled better. */
  predicate GoodLines(ls: seq<string>, width: int) {
    (forall i :: 0 <= i < |ls| ==> GoodLine(ls[i], width))
    && forall i :: 0 < i < |ls| && ls[i - 1] != "" && ls[i] != "" ==> Tight(ls[i - 1], ls[i], width)
  }

  lemma GoodAppend(a: seq<string>, b: seq<string>, width: int)
    requires GoodLines(a, width) && GoodLines(b, width) && (a == [] || b == [] || a[|a| - 1] == "" || b[0] == "")
    ensures GoodLines(a + b, width)
  {
    var ls := a + b;
    forall i | 0 <= i < |ls| ensures GoodLine(ls[i], width) {
      assert ls[i] == if i < |a| then a[i] else b[i - |a|];
    }
    forall i | 0 < i < |ls| && ls[i - 1] != "" && ls[i] != "" ensures Tight(ls[i - 1], ls[i], width) {
      if i < |a| {
        assert Tight(a[i - 1], a[i], width);
      } else if i > |a| {
        assert Tight(b[i - |a| - 1], b[i - |a|], width);
      }
    }
  }

  /** Lines behind which another paragraph may follow. */
  predicate Open(ls: seq<string>) { ls == [] || ls[|ls| - 1] == "" }

  lemma ParagraphLinesGood(words: seq<string>, more: bool, width: int)
    requires AllWords(words)
    ensures var ls := ParagraphLines(words, more, width);
            GoodLines(ls, width) && FieldsOf(ls) == words && (more ==> Open(ls))
  {
    if words != [] {
      var ls := WrapWords(words, width);
      ParagraphWrapped(words, width);
      EmptySheet(width);
      assert GoodLines(ls, width);
      if more {
        GoodAppend(ls, [""], width);
        FieldsOfAppend(ls, [""]);
      } else {
        assert ls + [] == ls;
      }
    }
  }

  lemma GoodFollows(before: seq<string>, words: seq<string>, more: bool, width: int)
    requires GoodLines(before, width) && Open(before) && AllWords(words)
    ensures var ls := before + ParagraphLines(words, more, width);
            GoodLines(ls, width) && FieldsOf(ls) == FieldsOf(before) + words && (more ==> Open(ls))
  {
    var ls := ParagraphLines(words, more, width);
    ParagraphLinesGood(words, more, width);
    GoodAppend(before, ls, width);
    FieldsOfAppend(before, ls);
    if ls != [] {
      assert (before + ls)[|before + ls| - 1] == ls[|ls| - 1];
    } else {
      assert before + ls == before;
    }
  }

  lemma {:induction false} AllLinesGood(ps: seq<string>, n: nat, width: int)
    requires n <= |ps|
    ensures var ls := AllLines(ps, n, width);
            GoodLines(ls, width) && FieldsOf(ls) == FieldsOf(ps[..n]) && (n < |ps| ==> Open(ls))
  {
    if n > 0 {
      AllLinesGood(ps, n - 1, width);
      assert ps[..n][..n - 1] == ps[..n - 1];
      FieldsFromWords("", ps[n - 1]);
      GoodFollows(AllLines(ps, n - 1, width), Fields(ps[n - 1]), n < |ps|, width);
    }
  }

  /** Wrapping keeps the words and their order, for every text and width. */
  lemma WrapKeepsWords(text: string, width: int)
    ensures Fields(Wrapped(text, width)) == Fields(text)
  {
    if ByteLen(text) > width {
      var ps := Paragraphs(text);
      BlocksAreLines(ps, |ps|, width);
      AllLinesGood(ps, |ps|, width);
      FieldsOfJoin(AllLines(ps, |ps|, width));
      assert ps[..|ps|] == ps;
      FieldsOfParagraphs(ps);
      ParagraphsJoin(text);
    }
  }

  lemma WrappedLines(text: string, width: int)
    requires ByteLen(text) > width
    ensures GoodLines(Lines(Wrapped(text, width)), width)
  {
    var ps := Paragraphs(text);
    var ls := AllLines(ps, |ps|, width);
    BlocksAreLines(ps, |ps|, width);
    AllLinesGood(ps, |ps|, width);
    if ls == [] {
      assert Lines("") == [""];
    } else {
      LinesOfJoin(ls);
    }
  }

  lemma {:induction false} LinesAreShorter(s: string, i: nat)
    requires i < |Lines(s)|
    ensures ByteLen(Lines(s)[i]) <= ByteLen(s)
  {
    if s != "" {
      var n := |s| - 1;
      var rest := Lines(s[..n]);
      if i < |rest| {
        LinesAreShorter(s[..n], i);
      }
      if s[n] != '\n' && i == |rest| - 1 {
        ByteLenAppend(rest[i], [s[n]]);
        assert [s[n]][..0] == "";
      }
    }
  }

  /** Every line of the result is empty, no longer than the width, or a single word. */
  lemma LinesFit(text: string, width: int, i: nat)
    requires i < |Lines(Wrapped(text, width))|
    ensures Fits(Lines(Wrapped(text, width))[i], width)
  {
    if ByteLen(text) > width {
      WrappedLines(text, width);
      assert GoodLine(Lines(Wrapped(text, width))[i], width);
    } else {
      LinesAreShorter(text, i);
    }
  }

  /** Wrapping is greedy: a line that follows another starts with a word that would not have fitted there. */
  lemma WrapIsGreedy(text: string, width: int, i: nat)
    requires ByteLen(text) > width && i + 1 < |Lines(Wrapped(text, width))|
    ensures var ls := Lines(Wrapped(text, width));
            ls[i] != "" && ls[i + 1] != "" ==> ByteLen(ls[i]) + 1 + ByteLen(FirstWord(ls[i + 1])) > width
  {
    WrappedLines(text, width);
    var ls := Lines(Wrapped(text, width));
    assert ls[i] != "" && ls[i + 1] != "" ==> Tight(ls[i + 1 - 1], ls[i + 1], width);
  }

  // ---- Indented wrapping ----

  function Spaces(n: nat): string { if n == 0 then "" else " " + Spaces(n - 1) }

  /** All lines but the first are indented. */
  function Indented(ls: seq<string>, indent: nat): seq<string> {
    seq(|ls|, i requires 0 <= i < |ls| => if i == 0 then ls[0] else Spaces(indent) + ls[i])
  }

  lemma {:induction false} SpacesAre(n: nat)
    ensures |Spaces(n)| == n && forall k :: 0 <= k < n ==> Spaces(n)[k] == ' '
  {
    if n > 0 {
      SpacesAre(n - 1);
    }
  }

  /** The first line is left alone, and every other line gets the indentation in front of it. */
  lemma IndentedMeans(ls: seq<string>, indent: nat, i: nat)
    requires i < |ls|
    ensures var l := Indented(ls, indent)[i];
            if i == 0 then l == ls[0]
            else |l| == indent + |ls[i]| && l[indent..] == ls[i] && forall k :: 0 <= k < indent ==> l[k] == ' '
    ensures |Indented(ls, indent)| == |ls|
  {
    SpacesAre(indent);
  }

  method IndentLines(plain: seq<string>, indent: nat) returns (lines: seq<string>)
    requires plain != []
    ensures lines == Indented(plain, indent)
  {
    lines := plain;
    var indentStr := Spaces(indent);
    for i := 1 to |lines|
      invariant |lines| == |plain|
      invariant forall j :: 0 <= j < |lines| ==> lines[j] == if 0 < j < i then indentStr + plain[j] else plain[j]
    {
      lines := lines[i := indentStr + lines[i]];
    }
  }

  method WrapIndent(text: string, indent: nat, width: int) returns (wrapped: string)
    ensures wrapped == JoinLines(Indented(Lines(Wrapped(text, width - indent)), indent))
  {
    var plain := WrapText(text, width - indent);
    var lines := IndentLines(Lines(plain), indent);
    wrapped := JoinLines(lines);
  }

  lemma {:induction false} FieldsOfIndented(n: nat, l: string)
    ensures Fields(Spaces(n) + l) == Fields(l)
    ensures ByteLen(Spaces(n) + l) == n + ByteLen(l)
  {
    ByteLenAppend(Spaces(n), l);
    if n == 0 {
      assert Spaces(n) + l == l;
    } else {
      FieldsOfIndented(n - 1, l);
      FieldsAround("", ' ', Spaces(n - 1) + l);
      assert "" + [' '] + (Spaces(n - 1) + l) == Spaces(n) + l;
      ByteLenAppend(" ", Spaces(n - 1));
      ByteLenAppend(Spaces(n - 1), l);
      assert " "[..0] == "" && ByteLen(" ") == 1;
    }
  }

  lemma {:induction false} FieldsOfSame(a: seq<string>, b: seq<string>)
    requires |a| == |b| && forall i :: 0 <= i < |a| ==> Fields(a[i]) == Fields(b[i])
    ensures FieldsOf(a) == FieldsOf(b)
  {
    if a != [] {
      FieldsOfSame(a[..|a| - 1], b[..|b| - 1]);
    }
  }

  lemma {:induction false} LinesJoin(s: string)
    ensures JoinLines(Lines(s)) == s
  {
    if s != "" {
      var n := |s| - 1;
      var rest := Lines(s[..n]);
      LinesJoin(s[..n]);
      assert s == s[..n] + [s[n]];
      if s[n] == '\n' {
        assert (rest + [""])[..|rest|] == rest;
      } else {
        assert rest == rest[..|rest| - 1] + [rest[|rest| - 1]];
      }
    }
  }

  lemma IndentedWords(plain: seq<string>, indent: nat)
    ensures FieldsOf(Indented(plain, indent)) == FieldsOf(plain)
  {
    var ls := Indented(plain, indent);
    forall j | 0 <= j < |ls| ensures Fields(ls[j]) == Fields(plain[j]) {
      FieldsOfIndented(indent, plain[j]);
    }
    FieldsOfSame(ls, plain);
  }

  /** Indenting keeps the words. */
  lemma IndentKeepsWords(text: string, indent: nat, width: int)
    ensures Fields(JoinLines(Indented(Lines(Wrapped(text, width - indent)), indent))) == Fields(text)
  {
    var w := Wrapped(text, width - indent);
    WrapKeepsWords(text, width - indent);
    LinesJoin(w);
    FieldsOfJoin(Lines(w));
    IndentedWords(Lines(w), indent);
    FieldsOfJoin(Indented(Lines(w), indent));
  }

  /** Indenting lines that fit into what is left of the width gives lines that are no longer than the width
      or hold at most one word. */
  lemma IndentedLinesFit(plain: seq<string>, indent: nat, width: int, i: nat)
    requires i < |plain| && Fits(plain[i], width - indent)
    ensures var l := Indented(plain, indent)[i]; ByteLen(l) <= width || |Fields(l)| <= 1
  {
    FieldsOfIndented(indent, plain[i]);
  }
}

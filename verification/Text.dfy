/** The string operations of Go's `strings` and `unicode` packages that the modelled code relies
    on: white space, and trimming at either end.
    Trimming is characterised by the one way to split a string into a core and what was cut. */
module Text {
  /** White space as `unicode.IsSpace` defines it. */
  predicate IsSpace(c: char) {
    c == ' ' || ('\t' <= c <= '\r') || c == '\U{0085}' || c == '\U{00A0}' || c == '\U{1680}'
    || ('\U{2000}' <= c <= '\U{200A}') || c == '\U{2028}' || c == '\U{2029}' || c == '\U{202F}'
    || c == '\U{205F}' || c == '\U{3000}'
  }

  /** The white space of Unicode, by name. */
  lemma WhiteSpace()
    ensures IsSpace('\t') && IsSpace('\n') && IsSpace('\U{000B}') && IsSpace('\U{000C}') && IsSpace('\r') && IsSpace(' ')
    ensures IsSpace('\U{0085}') && IsSpace('\U{00A0}') && IsSpace('\U{1680}')
    ensures IsSpace('\U{2000}') && IsSpace('\U{2001}') && IsSpace('\U{2005}') && IsSpace('\U{2009}') && IsSpace('\U{200A}')
    ensures IsSpace('\U{2028}') && IsSpace('\U{2029}') && IsSpace('\U{202F}') && IsSpace('\U{205F}') && IsSpace('\U{3000}')
    ensures forall c: char :: '!' <= c <= '~' ==> !IsSpace(c)
  {}

  predicate IsSlash(c: char) { c == '/' }

  function TrimLeft(s: string, cut: char -> bool): string {
    if s != "" && cut(s[0]) then TrimLeft(s[1..], cut) else s
  }

  function TrimRight(s: string, cut: char -> bool): string {
    if s != "" && cut(s[|s| - 1]) then TrimRight(s[..|s| - 1], cut) else s
  }

  function Trim(s: string, cut: char -> bool): string {
    TrimRight(TrimLeft(s, cut), cut)
  }

  function TrimSpace(s: string): string { Trim(s, IsSpace) }

  ghost predicate All(s: string, cut: char -> bool) { forall c :: c in s ==> cut(c) }

  /** Nothing left to cut at either end. */
  predicate Trimmed(s: string, cut: char -> bool) {
    s == "" || (!cut(s[0]) && !cut(s[|s| - 1]))
  }

  /** Trimming on the left drops exactly a run of cut characters. */
  lemma {:induction false} TrimLeftIs(a: string, t: string, cut: char -> bool)
    requires All(a, cut)
    requires t == "" || !cut(t[0])
    ensures TrimLeft(a + t, cut) == t
  {
    if a == "" {
      assert a + t == t;
    } else {
      assert a[0] in a;
      assert (a + t)[1..] == a[1..] + t;
      TrimLeftIs(a[1..], t, cut);
    }
  }

  lemma {:induction false} TrimRightIs(t: string, b: string, cut: char -> bool)
    requires All(b, cut)
    requires t == "" || !cut(t[|t| - 1])
    ensures TrimRight(t + b, cut) == t
  {
    if b == "" {
      assert t + b == t;
    } else {
      assert b[|b| - 1] in b;
      assert (t + b)[..|t + b| - 1] == t + b[..|b| - 1];
      TrimRightIs(t, b[..|b| - 1], cut);
    }
  }

  lemma {:induction false} TrimLeftSplits(s: string, cut: char -> bool) returns (a: string)
    ensures s == a + TrimLeft(s, cut) && All(a, cut)
    ensures TrimLeft(s, cut) == "" || !cut(TrimLeft(s, cut)[0])
  {
    if s != "" && cut(s[0]) {
      var b := TrimLeftSplits(s[1..], cut);
      a := [s[0]] + b;
      assert s == [s[0]] + s[1..];
    } else {
      a := "";
    }
  }

  lemma {:induction false} TrimRightSplits(s: string, cut: char -> bool) returns (b: string)
    ensures s == TrimRight(s, cut) + b && All(b, cut)
    ensures TrimRight(s, cut) == "" || !cut(TrimRight(s, cut)[|TrimRight(s, cut)| - 1])
  {
    if s != "" && cut(s[|s| - 1]) {
      var c := TrimRightSplits(s[..|s| - 1], cut);
      b := c + [s[|s| - 1]];
      assert s == s[..|s| - 1] + [s[|s| - 1]];
    } else {
      b := "";
    }
  }

  /** A string is its trimmed core between two runs of cut characters. */
  lemma TrimSplits(s: string, cut: char -> bool) returns (a: string, b: string)
    ensures s == a + Trim(s, cut) + b && All(a, cut) && All(b, cut)
    ensures Trimmed(Trim(s, cut), cut)
  {
    a := TrimLeftSplits(s, cut);
    b := TrimRightSplits(TrimLeft(s, cut), cut);
    assert s == a + Trim(s, cut) + b;
    if Trim(s, cut) != "" {
      assert TrimLeft(s, cut)[0] == Trim(s, cut)[0];
    }
  }

  /** The core is unique. */
  lemma TrimIs(a: string, t: string, b: string, cut: char -> bool)
    requires All(a, cut) && All(b, cut) && Trimmed(t, cut)
    ensures Trim(a + t + b, cut) == t
  {
    if t == "" {
      var r := TrimLeft(a + t + b, cut);
      assert a + t + b == a + b;
      assert All(a + b, cut);
      TrimLeftIs(a + b, "", cut);
      assert (a + b) + "" == a + b;
    } else {
      assert a + t + b == a + (t + b);
      assert (t + b)[0] == t[0];
      TrimLeftIs(a, t + b, cut);
      TrimRightIs(t, b, cut);
    }
  }

  predicate HasSuffix(s: string, suffix: string) {
    |suffix| <= |s| && s[|s| - |suffix|..] == suffix
  }
}

/** Globs over '/': literals, `?` (one other character), `*` (a run without '/') and `**` (any run). */
module Glob {
  datatype Token = Lit(c: char) | One | Star | Super

  /** Escapes, character classes and alternatives are not part of this dialect. */
  predicate InDialect(expr: string) {
    forall c :: c in expr ==> c !in {'\\', '[', ']', '{', '}'}
  }

  function Tokens(expr: string): seq<Token> {
    if expr == "" then []
    else if expr[0] == '*' then
      if |expr| > 1 && expr[1] == '*' then [Super] + Tokens(expr[2..]) else [Star] + Tokens(expr[1..])
    else [if expr[0] == '?' then One else Lit(expr[0])] + Tokens(expr[1..])
  }

  predicate Match(ts: seq<Token>, s: string)
    decreases |ts| + |s|
  {
    if ts == [] then s == ""
    else match ts[0]
      case Lit(c) => s != "" && s[0] == c && Match(ts[1..], s[1..])
      case One => s != "" && s[0] != '/' && Match(ts[1..], s[1..])
      case Star => Match(ts[1..], s) || (s != "" && s[0] != '/' && Match(ts, s[1..]))
      case Super => Match(ts[1..], s) || (s != "" && Match(ts, s[1..]))
  }

  predicate Matches(expr: string, s: string) { Match(Tokens(expr), s) }

  /** A path boundary: the end of the path, or a separator. */
  predicate Cut(s: string, i: int) { 0 <= i <= |s| && (i == |s| || s[i] == '/') }

  lemma {:induction false} MatchAppend(a: seq<Token>, b: seq<Token>, x: string, y: string)
    requires Match(a, x) && Match(b, y)
    ensures Match(a + b, x + y)
    decreases |a| + |x|
  {
    if a == [] {
      assert a + b == b && x + y == y;
    } else {
      assert (a + b)[1..] == a[1..] + b;
      if x != "" {
        assert (x + y)[1..] == x[1..] + y;
      }
      if (a[0].Star? || a[0].Super?) && Match(a[1..], x) {
        MatchAppend(a[1..], b, x, y);
      } else if a[0].Star? || a[0].Super? {
        MatchAppend(a, b, x[1..], y);
      } else {
        MatchAppend(a[1..], b, x[1..], y);
      }
    }
  }

  lemma {:induction false} MatchSplit(a: seq<Token>, b: seq<Token>, s: string) returns (i: nat)
    requires Match(a + b, s)
    ensures i <= |s| && Match(a, s[..i]) && Match(b, s[i..])
    decreases |a| + |s|
  {
    if a == [] {
      assert a + b == b && s[0..] == s;
      i := 0;
    } else {
      assert (a + b)[1..] == a[1..] + b;
      if (a[0].Star? || a[0].Super?) && Match((a + b)[1..], s) {
        i := MatchSplit(a[1..], b, s);
      } else {
        var j := MatchSplit(if a[0].Star? || a[0].Super? then a else a[1..], b, s[1..]);
        i := j + 1;
        assert s[..i][1..] == s[1..][..j] && s[i..] == s[1..][j..];
      }
    }
  }

  lemma {:induction false} SuperMatchesAll(s: string)
    ensures Match([Super], s)
  {
    if s != "" {
      SuperMatchesAll(s[1..]);
    }
  }

  /** Tokenising never looks across a separator. */
  lemma {:induction false} TokensAcrossSlash(a: string, b: string)
    ensures Tokens(a + "/" + b) == Tokens(a) + [Lit('/')] + Tokens(b)
  {
    var s := a + "/" + b;
    if a == "" {
      assert s[1..] == b;
    } else if a[0] == '*' && |a| > 1 && a[1] == '*' {
      assert s[2..] == a[2..] + "/" + b;
      TokensAcrossSlash(a[2..], b);
    } else {
      assert s[1..] == a[1..] + "/" + b;
      TokensAcrossSlash(a[1..], b);
    }
  }

  lemma SplitAtSlash(ta: seq<Token>, tb: seq<Token>, s: string) returns (i: nat)
    requires Match(ta + [Lit('/')] + tb, s)
    ensures i < |s| && s[i] == '/' && Match(ta, s[..i]) && Match(tb, s[i + 1..])
  {
    var rest := [Lit('/')] + tb;
    assert ta + [Lit('/')] + tb == ta + rest && rest[1..] == tb;
    i := MatchSplit(ta, rest, s);
    assert s[i..][1..] == s[i + 1..];
  }

  lemma JoinAtSlash(ta: seq<Token>, tb: seq<Token>, s: string, i: nat)
    requires i < |s| && s[i] == '/' && Match(ta, s[..i]) && Match(tb, s[i + 1..])
    ensures Match(ta + [Lit('/')] + tb, s)
  {
    var rest := [Lit('/')] + tb;
    assert ta + [Lit('/')] + tb == ta + rest && rest[1..] == tb;
    assert s[i..][1..] == s[i + 1..];
    MatchAppend(ta, rest, s[..i], s[i..]);
    assert s == s[..i] + s[i..];
  }

  /** `a/b` matches exactly the strings that split at a separator into a match of `a` and one of `b`. */
  lemma MatchesAcrossSlash(a: string, b: string, s: string)
    ensures Matches(a + "/" + b, s) <==>
            exists i :: 0 <= i < |s| && s[i] == '/' && Matches(a, s[..i]) && Matches(b, s[i + 1..])
  {
    TokensAcrossSlash(a, b);
    if Matches(a + "/" + b, s) {
      var i := SplitAtSlash(Tokens(a), Tokens(b), s);
    }
    if i :| 0 <= i < |s| && s[i] == '/' && Matches(a, s[..i]) && Matches(b, s[i + 1..]) {
      JoinAtSlash(Tokens(a), Tokens(b), s, i);
    }
  }

  // `p` and `p/**` together match a path exactly when `p` matches it or one of its ancestors.
  lemma SubtreeIsAncestor(p: string, s: string)
    ensures Matches(p, s) || Matches(p + "/**", s) <==> exists i :: Cut(s, i) && Matches(p, s[..i])
  {
    assert p + "/**" == p + "/" + "**";
    MatchesAcrossSlash(p, "**", s);
    assert Tokens("**") == [Super] + Tokens("**"[2..]) == [Super];
    forall t: string ensures Matches("**", t) {
      SuperMatchesAll(t);
    }
    if Matches(p, s) {
      assert Cut(s, |s|) && s[..|s|] == s;
    }
    if i :| Cut(s, i) && Matches(p, s[..i]) {
      assert i == |s| ==> s[..i] == s;
      assert i < |s| ==> Matches("**", s[i + 1..]);
    }
    if i :| 0 <= i < |s| && s[i] == '/' && Matches(p, s[..i]) && Matches("**", s[i + 1..]) {
      assert Cut(s, i);
    }
  }

  // `**/p` matches exactly what has a match of `p` after some separator.
  lemma AnyDepthIsSuffix(p: string, s: string)
    ensures Matches("**/" + p, s) <==> exists i :: 0 <= i < |s| && s[i] == '/' && Matches(p, s[i + 1..])
  {
    assert "**/" + p == "**" + "/" + p;
    MatchesAcrossSlash("**", p, s);
    assert Tokens("**") == [Super] + Tokens("**"[2..]) == [Super];
    forall t: string ensures Matches("**", t) {
      SuperMatchesAll(t);
    }
    forall i | 0 <= i < |s| && s[i] == '/' && Matches(p, s[i + 1..])
      ensures Matches("**/" + p, s)
    {
      assert Matches("**", s[..i]);
    }
  }

  // ---- What the wildcards stand for ----

  /** The text that one token may stand for. */
  predicate Piece(t: Token, p: string) {
    match t
    case Lit(c) => p == [c]
    case One => |p| == 1 && p[0] != '/'
    case Star => '/' !in p
    case Super => true
  }

  function Join(pieces: seq<string>): string { if pieces == [] then "" else pieces[0] + Join(pieces[1..]) }

  ghost predicate Pieces(ts: seq<Token>, s: string, pieces: seq<string>) {
    |pieces| == |ts| && Join(pieces) == s && forall i :: 0 <= i < |ts| ==> Piece(ts[i], pieces[i])
  }

  lemma {:induction false} OneTokenMatches(t: Token, s: string)
    ensures Match([t], s) <==> Piece(t, s)
  {
    assert [t][1..] == [];
    match t {
      case Lit(c) => assert s != "" ==> s == [s[0]] + s[1..];
      case One => assert s != "" ==> s == [s[0]] + s[1..];
      case Star =>
        if s != "" {
          OneTokenMatches(t, s[1..]);
          assert s == [s[0]] + s[1..];
        }
      case Super => SuperMatchesAll(s);
    }
  }

  lemma {:induction false} MatchHasPieces(ts: seq<Token>, s: string) returns (pieces: seq<string>)
    requires Match(ts, s)
    ensures Pieces(ts, s, pieces)
  {
    if ts == [] {
      pieces := [];
    } else {
      assert ts == [ts[0]] + ts[1..];
      var i := MatchSplit([ts[0]], ts[1..], s);
      OneTokenMatches(ts[0], s[..i]);
      var rest := MatchHasPieces(ts[1..], s[i..]);
      pieces := [s[..i]] + rest;
      assert pieces[1..] == rest && s == s[..i] + s[i..];
    }
  }

  lemma {:induction false} PiecesMatch(ts: seq<Token>, s: string, pieces: seq<string>)
    requires Pieces(ts, s, pieces)
    ensures Match(ts, s)
  {
    if ts != [] {
      assert ts == [ts[0]] + ts[1..];
      OneTokenMatches(ts[0], pieces[0]);
      PiecesMatch(ts[1..], Join(pieces[1..]), pieces[1..]);
      MatchAppend([ts[0]], ts[1..], pieces[0], Join(pieces[1..]));
    }
  }

  /** A text matches exactly when it falls into pieces, one for each token: the literal itself, one character
      other than '/', a run without '/', or any run. */
  lemma MatchMeans(ts: seq<Token>, s: string)
    ensures Match(ts, s) <==> exists pieces :: Pieces(ts, s, pieces)
  {
    if Match(ts, s) {
      var pieces := MatchHasPieces(ts, s);
    }
    if pieces :| Pieces(ts, s, pieces) {
      PiecesMatch(ts, s, pieces);
    }
  }

  /** No wildcard. */
  predicate Plain(e: string) { '*' !in e && '?' !in e }

  lemma {:induction false} PlainMatches(e: string, s: string)
    requires Plain(e)
    ensures Match(Tokens(e), s) <==> s == e
  {
    if e != "" {
      assert e[0] in e && Tokens(e) == [Lit(e[0])] + Tokens(e[1..]);
      assert e == [e[0]] + e[1..];
      if s != "" {
        assert s == [s[0]] + s[1..];
        PlainMatches(e[1..], s[1..]);
      }
    }
  }

  /** `*` matches the texts without a separator, `?` one character that is none, `**` everything, and an
      expression without wildcards itself only. */
  lemma WildcardsMean(s: string, e: string)
    ensures Matches("*", s) <==> '/' !in s
    ensures Matches("?", s) <==> |s| == 1 && s[0] != '/'
    ensures Matches("**", s)
    ensures Plain(e) ==> (Matches(e, s) <==> s == e)
  {
    assert Tokens("*") == [Star] + Tokens("*"[1..]) == [Star];
    assert Tokens("?") == [One] + Tokens("?"[1..]) == [One];
    assert Tokens("**") == [Super] + Tokens("**"[2..]) == [Super];
    OneTokenMatches(Star, s);
    OneTokenMatches(One, s);
    OneTokenMatches(Super, s);
    if Plain(e) {
      PlainMatches(e, s);
    }
  }

  lemma StarSplits(x: string, s: string, i: nat)
    requires Plain(x) && i <= |s| && Match([Star], s[..i]) && Match(Tokens(x), s[i..])
    ensures s == s[..i] + x && '/' !in s[..i]
  {
    OneTokenMatches(Star, s[..i]);
    PlainMatches(x, s[i..]);
    assert s == s[..i] + s[i..];
  }

  /** `*` in front of a plain suffix matches what ends in the suffix and holds no separator before it. */
  lemma StarSuffix(x: string, s: string)
    requires Plain(x)
    ensures Matches("*" + x, s) <==> |x| <= |s| && s[|s| - |x|..] == x && '/' !in s[..|s| - |x|]
  {
    assert ("*" + x)[1..] == x && (x != "" ==> x[0] in x);
    assert Tokens("*" + x) == [Star] + Tokens(x);
    if Matches("*" + x, s) {
      var i := MatchSplit([Star], Tokens(x), s);
      StarSplits(x, s, i);
      assert i == |s| - |x| && s[|s[..i]|..] == x;
    }
    if |x| <= |s| && s[|s| - |x|..] == x && '/' !in s[..|s| - |x|] {
      var i := |s| - |x|;
      OneTokenMatches(Star, s[..i]);
      PlainMatches(x, x);
      MatchAppend([Star], Tokens(x), s[..i], x);
      assert s == s[..i] + x;
    }
  }
}

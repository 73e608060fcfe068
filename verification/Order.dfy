/** Byte-wise string order, and sorting: what Go's `strings.Compare`, `slices.Sort` and
    `slices.SortFunc` provide.
    UTF-8 keeps code points in order, so comparing characters agrees with comparing bytes. */
module Order {
  predicate Less(a: string, b: string) {
    b != "" && (a == "" || a[0] < b[0] || (a[0] == b[0] && Less(a[1..], b[1..])))
  }

  predicate LessEq(a: string, b: string) { a == b || Less(a, b) }

  /** `a` comes before `b` at `i`: equal up to there, and then `a` ends or has the smaller character. */
  predicate FirstDifference(a: string, b: string, i: nat) {
    i <= |a| && i < |b| && a[..i] == b[..i] && (i == |a| || a[i] < b[i])
  }

  /** The order is decided at the first difference. */
  lemma {:induction false} LessMeans(a: string, b: string)
    ensures Less(a, b) <==> exists i: nat :: FirstDifference(a, b, i)
  {
    if b != "" {
      if a == "" || a[0] < b[0] {
        assert FirstDifference(a, b, 0);
      } else if a[0] == b[0] {
        LessMeans(a[1..], b[1..]);
        if i: nat :| FirstDifference(a[1..], b[1..], i) {
          assert a[..i + 1] == [a[0]] + a[1..][..i] && b[..i + 1] == [b[0]] + b[1..][..i];
          assert FirstDifference(a, b, i + 1);
        }
        if i: nat :| FirstDifference(a, b, i) {
          assert a[1..][..i - 1] == a[..i][1..] && b[1..][..i - 1] == b[..i][1..];
          assert FirstDifference(a[1..], b[1..], i - 1);
        }
      }
    }
  }

  lemma {:induction false} LessTransitive(a: string, b: string, c: string)
    requires Less(a, b) && Less(b, c)
    ensures Less(a, c)
  {
    if a != "" && a[0] == b[0] == c[0] {
      LessTransitive(a[1..], b[1..], c[1..]);
    }
  }

  lemma {:induction false} LessTotal(a: string, b: string)
    ensures Less(a, b) || a == b || Less(b, a)
    ensures !(Less(a, b) && Less(b, a)) && !Less(a, a)
  {
    if a != "" && b != "" && a[0] == b[0] {
      LessTotal(a[1..], b[1..]);
      assert a == [a[0]] + a[1..] && b == [b[0]] + b[1..];
    }
    if a != "" {
      LessTotal(a[1..], a[1..]);
    }
  }

  /** `le` orders the elements of `s`: any two compare, and comparing chains. */
  ghost predicate Orders<T>(le: (T, T) -> bool, s: seq<T>) {
    (forall x, y :: x in s && y in s ==> le(x, y) || le(y, x))
    && forall x, y, z :: x in s && y in s && z in s && le(x, y) && le(y, z) ==> le(x, z)
  }

  ghost predicate Antisymmetric<T>(le: (T, T) -> bool, s: seq<T>) {
    forall x, y :: x in s && y in s && le(x, y) && le(y, x) ==> x == y
  }

  ghost predicate Sorted<T>(s: seq<T>, le: (T, T) -> bool) {
    forall i, j :: 0 <= i < j < |s| ==> le(s[i], s[j])
  }

  function Insert<T>(x: T, s: seq<T>, le: (T, T) -> bool): seq<T> {
    if s == [] then [x] else if le(x, s[0]) then [x] + s else [s[0]] + Insert(x, s[1..], le)
  }

  function Sort<T>(s: seq<T>, le: (T, T) -> bool): seq<T> {
    if s == [] then [] else Insert(s[0], Sort(s[1..], le), le)
  }

  lemma {:induction false} InsertAdds<T>(x: T, s: seq<T>, le: (T, T) -> bool)
    ensures multiset(Insert(x, s, le)) == multiset(s) + multiset{x}
  {
    if s != [] && !le(x, s[0]) {
      InsertAdds(x, s[1..], le);
      assert s == [s[0]] + s[1..];
    }
  }

  lemma SameMembers<T>(a: seq<T>, b: seq<T>)
    requires multiset(a) == multiset(b)
    ensures forall x :: x in a <==> x in b
    ensures |a| == |b|
  {
    forall x ensures x in a <==> x in b {
      assert x in multiset(a) <==> x in multiset(b);
    }
    assert |multiset(a)| == |multiset(b)|;
  }

  lemma {:induction false} SortPermutes<T>(s: seq<T>, le: (T, T) -> bool)
    ensures multiset(Sort(s, le)) == multiset(s)
    ensures forall x :: x in Sort(s, le) <==> x in s
    ensures |Sort(s, le)| == |s|
  {
    if s != [] {
      SortPermutes(s[1..], le);
      InsertAdds(s[0], Sort(s[1..], le), le);
      assert s == [s[0]] + s[1..];
    }
    SameMembers(Sort(s, le), s);
  }

  lemma SortMember<T>(s: seq<T>, le: (T, T) -> bool, x: T)
    ensures x in Sort(s, le) <==> x in s
  {
    SortPermutes(s, le);
    assert x in Sort(s, le) <==> x in multiset(Sort(s, le));
    assert x in s <==> x in multiset(s);
  }

  lemma {:induction false} InsertSorts<T>(x: T, s: seq<T>, le: (T, T) -> bool, all: seq<T>)
    requires Orders(le, all) && x in all && (forall y :: y in s ==> y in all) && Sorted(s, le)
    ensures Sorted(Insert(x, s, le), le)
  {
    if s != [] {
      assert s[0] in s;
      if le(x, s[0]) {
        forall y | y in s ensures le(x, y) {}
      } else {
        var rest := Insert(x, s[1..], le);
        InsertSorts(x, s[1..], le, all);
        InsertAdds(x, s[1..], le);
        forall y | y in rest ensures le(s[0], y) {
          assert y in multiset(rest);
          if y in s[1..] {
            var k :| 0 <= k < |s[1..]| && s[1..][k] == y;
            assert s[k + 1] == y;
          }
        }
      }
    }
  }

  lemma {:induction false} SortSortsWithin<T>(s: seq<T>, le: (T, T) -> bool, all: seq<T>)
    requires Orders(le, all) && forall y :: y in s ==> y in all
    ensures Sorted(Sort(s, le), le)
  {
    if s != [] {
      assert s[0] in s && forall y :: y in s[1..] ==> y in s;
      SortSortsWithin(s[1..], le, all);
      SortPermutes(s[1..], le);
      forall y | y in Sort(s[1..], le) ensures y in all {
        assert y in multiset(Sort(s[1..], le));
      }
      InsertSorts(s[0], Sort(s[1..], le), le, all);
    }
  }

  lemma SortSorts<T>(s: seq<T>, le: (T, T) -> bool)
    requires Orders(le, s)
    ensures Sorted(Sort(s, le), le)
  {
    SortSortsWithin(s, le, s);
  }

  /** A sorted arrangement of given elements is unique when no two different elements tie. */
  lemma {:induction false} SortedUnique<T>(a: seq<T>, b: seq<T>, le: (T, T) -> bool)
    requires multiset(a) == multiset(b) && Sorted(a, le) && Sorted(b, le) && Antisymmetric(le, a)
    ensures a == b
  {
    SameMembers(a, b);
    if a != [] {
      assert a[0] in b && b[0] in a;
      assert a[0] in a && a[0] == b[0];
      TailMultiset(a);
      TailMultiset(b);
      SortedUnique(a[1..], b[1..], le);
    }
  }

  lemma TailMultiset<T>(a: seq<T>)
    requires a != []
    ensures a == [a[0]] + a[1..] && multiset(a[1..]) == multiset(a) - multiset{a[0]}
  {
    assert a == [a[0]] + a[1..];
  }

  lemma LessEqOrders(s: seq<string>)
    ensures Orders(LessEq, s) && Antisymmetric(LessEq, s)
  {
    forall x, y ensures (LessEq(x, y) || LessEq(y, x)) && (LessEq(x, y) && LessEq(y, x) ==> x == y) {
      LessTotal(x, y);
    }
    forall x, y, z | LessEq(x, y) && LessEq(y, z) ensures LessEq(x, z) {
      if x != y && y != z {
        LessTransitive(x, y, z);
      }
    }
  }

  ghost predicate NoRepeats<T>(s: seq<T>) { forall i, j :: 0 <= i < j < |s| ==> s[i] != s[j] }

  lemma {:induction false} NoRepeatsCounts<T>(s: seq<T>, x: T)
    ensures NoRepeats(s) ==> multiset(s)[x] == if x in s then 1 else 0
  {
    if s != [] {
      assert s == [s[0]] + s[1..];
      NoRepeatsCounts(s[1..], x);
      assert NoRepeats(s) ==> NoRepeats(s[1..]);
    }
  }

  lemma NoRepeatsSameMembers<T>(a: seq<T>, b: seq<T>)
    requires NoRepeats(a) && NoRepeats(b) && forall x :: x in a <==> x in b
    ensures multiset(a) == multiset(b)
  {
    forall x ensures multiset(a)[x] == multiset(b)[x] {
      NoRepeatsCounts(a, x);
      NoRepeatsCounts(b, x);
    }
  }

  lemma RepeatCounts<T>(b: seq<T>, i: nat, j: nat)
    requires i < j < |b| && b[i] == b[j]
    ensures multiset(b)[b[i]] >= 2
  {
    assert b == b[..i] + [b[i]] + b[i + 1..j] + [b[j]] + b[j + 1..];
  }

  lemma PermutationKeepsNoRepeats<T>(a: seq<T>, b: seq<T>)
    requires NoRepeats(a) && multiset(a) == multiset(b)
    ensures NoRepeats(b)
  {
    forall i, j | 0 <= i < j < |b| ensures b[i] != b[j] {
      NoRepeatsCounts(a, b[i]);
      if b[i] == b[j] {
        RepeatCounts(b, i, j);
      }
    }
  }

  ghost predicate StrictlySorted(s: seq<string>) { forall i, j :: 0 <= i < j < |s| ==> Less(s[i], s[j]) }

  /** The strictly sorted list of a set of strings is unique. */
  lemma StrictlySortedUnique(a: seq<string>, b: seq<string>)
    requires StrictlySorted(a) && StrictlySorted(b) && forall x :: x in a <==> x in b
    ensures a == b
  {
    StrictIsSortedDistinct(a);
    StrictIsSortedDistinct(b);
    NoRepeatsSameMembers(a, b);
    LessEqOrders(a);
    SortedUnique(a, b, LessEq);
  }

  lemma StrictIsSortedDistinct(s: seq<string>)
    ensures StrictlySorted(s) <==> Sorted(s, LessEq) && NoRepeats(s)
  {
    forall i, j | 0 <= i < j < |s| ensures Less(s[i], s[j]) <==> LessEq(s[i], s[j]) && s[i] != s[j] {
      LessTotal(s[i], s[j]);
    }
  }

  /** `slices.Sort` on a list of distinct strings. */
  function SortStrings(s: seq<string>): (r: seq<string>)
    ensures multiset(r) == multiset(s)
    ensures NoRepeats(s) ==> StrictlySorted(r)
  {
    var r := Sort(s, LessEq);
    SortPermutes(s, LessEq);
    LessEqOrders(s);
    SortSorts(s, LessEq);
    StrictIsSortedDistinct(r);
    assert NoRepeats(s) ==> NoRepeats(r) by {
      if NoRepeats(s) {
        PermutationKeepsNoRepeats(s, r);
      }
    }
    r
  }
}

/** Ascending order of strings and the sorting of string lists. */
module Strings {
  import opened Sequences

  /** Code points in ascending order, which is also the order of the encoded bytes. */
  predicate Leq(a: string, b: string) {
    a == [] || (b != [] && (a[0] < b[0] || (a[0] == b[0] && Leq(a[1..], b[1..]))))
  }

  /** Lexicographic: what comes first is a prefix, or has the smaller character at the first
      difference. */
  lemma {:induction false} LeqIff(a: string, b: string)
    ensures Leq(a, b) <==> a <= b || exists i: nat :: FirstDifference(a, b, i) && a[i] < b[i]
  {
    if a != [] && b != [] {
      LeqIff(a[1..], b[1..]);
      if a[0] != b[0] {
        assert FirstDifference(a, b, 0);
      } else {
        assert a <= b <==> a[1..] <= b[1..] by { assert a == [a[0]] + a[1..] && b == [b[0]] + b[1..]; }
        forall i: nat
          ensures FirstDifference(a, b, i + 1) <==> FirstDifference(a[1..], b[1..], i)
        {
          FirstDifferenceStep(a, b, i);
        }
        if i: nat :| FirstDifference(a[1..], b[1..], i) && a[1..][i] < b[1..][i] {
          assert FirstDifference(a, b, i + 1) && a[i + 1] < b[i + 1];
        }
        if i: nat :| FirstDifference(a, b, i) && a[i] < b[i] {
          assert i > 0 && FirstDifference(a[1..], b[1..], i - 1) && a[1..][i - 1] < b[1..][i - 1];
        }
      }
    }
  }

  predicate FirstDifference(a: string, b: string, i: nat) {
    i < |a| && i < |b| && a[i] != b[i] && a[..i] == b[..i]
  }

  lemma FirstDifferenceStep(a: string, b: string, i: nat)
    requires a != [] && b != [] && a[0] == b[0]
    ensures FirstDifference(a, b, i + 1) <==> FirstDifference(a[1..], b[1..], i)
  {
    if i + 1 < |a| && i + 1 < |b| {
      assert a[..i + 1] == [a[0]] + a[1..][..i] && b[..i + 1] == [b[0]] + b[1..][..i];
      assert a[..i + 1][1..] == a[1..][..i] && b[..i + 1][1..] == b[1..][..i];
    }
  }

  lemma {:induction false} LeqReflexive(a: string)
    ensures Leq(a, a)
  {
    if a != [] {
      LeqReflexive(a[1..]);
    }
  }

  lemma {:induction false} LeqAntisymmetric(a: string, b: string)
    requires Leq(a, b) && Leq(b, a)
    ensures a == b
  {
    if a != [] && b != [] {
      LeqAntisymmetric(a[1..], b[1..]);
      assert a == [a[0]] + a[1..] && b == [b[0]] + b[1..];
    }
  }

  lemma {:induction false} LeqTotal(a: string, b: string)
    ensures Leq(a, b) || Leq(b, a)
  {
    if a != [] && b != [] {
      LeqTotal(a[1..], b[1..]);
    }
  }

  lemma {:induction false} LeqTransitive(a: string, b: string, c: string)
    requires Leq(a, b) && Leq(b, c)
    ensures Leq(a, c)
  {
    if a != [] && b != [] && c != [] && a[0] == b[0] == c[0] {
      LeqTransitive(a[1..], b[1..], c[1..]);
    }
  }

  ghost predicate Sorted(s: seq<string>) {
    forall i, j :: 0 <= i < j < |s| ==> Leq(s[i], s[j])
  }

  ghost predicate StrictlySorted(s: seq<string>) {
    forall i, j :: 0 <= i < j < |s| ==> Leq(s[i], s[j]) && s[i] != s[j]
  }

  lemma InsertedCounts(s: seq<string>, i: nat, x: string)
    requires i <= |s|
    ensures multiset(s[..i] + [x] + s[i..]) == multiset(s) + multiset{x}
  {
    assert s == s[..i] + s[i..];
  }

  lemma InsertedSorted(s: seq<string>, i: nat, x: string)
    requires Sorted(s) && i <= |s|
    requires forall j :: 0 <= j < i ==> Leq(s[j], x)
    requires i < |s| ==> Leq(x, s[i])
    ensures Sorted(s[..i] + [x] + s[i..])
  {
    forall j | i <= j < |s| ensures Leq(x, s[j]) {
      if i < j {
        LeqTransitive(x, s[i], s[j]);
      }
    }
    var r := s[..i] + [x] + s[i..];
    forall j, k | 0 <= j < k < |r| ensures Leq(r[j], r[k]) {
      assert r[j] == if j < i then s[j] else if j == i then x else s[j - 1];
      assert r[k] == if k < i then s[k] else if k == i then x else s[k - 1];
    }
  }

  method Insert(x: string, s: seq<string>) returns (r: seq<string>)
    requires Sorted(s)
    ensures Sorted(r) && multiset(r) == multiset(s) + multiset{x}
  {
    var i := 0;
    while i < |s| && Leq(s[i], x)
      invariant 0 <= i <= |s|
      invariant forall j :: 0 <= j < i ==> Leq(s[j], x)
    {
      i := i + 1;
    }
    r := s[..i] + [x] + s[i..];
    if i < |s| {
      LeqTotal(s[i], x);
    }
    InsertedSorted(s, i, x);
    InsertedCounts(s, i, x);
  }

  method Sort(s: seq<string>) returns (r: seq<string>)
    ensures Sorted(r) && multiset(r) == multiset(s)
  {
    r := [];
    for i := 0 to |s|
      invariant Sorted(r) && multiset(r) == multiset(s[..i])
    {
      assert s[..i + 1] == s[..i] + [s[i]];
      r := Insert(s[i], r);
    }
    assert s[..|s|] == s;
  }

  lemma LeastComesFirst(a: seq<string>, b: seq<string>)
    requires Sorted(a) && Sorted(b) && a != [] && multiset(a) == multiset(b)
    ensures b != [] && Leq(b[0], a[0])
  {
    assert a[0] in multiset(b);
    var i :| 0 <= i < |b| && b[i] == a[0];
    LeqReflexive(a[0]);
  }

  lemma TailCounts(a: seq<string>)
    requires a != []
    ensures multiset(a[1..]) == multiset(a) - multiset{a[0]}
  {
    assert a == [a[0]] + a[1..];
  }

  lemma HeadsAgree(a: seq<string>, b: seq<string>)
    requires Sorted(a) && Sorted(b) && a != [] && multiset(a) == multiset(b)
    ensures b != [] && a[0] == b[0]
    ensures Sorted(a[1..]) && Sorted(b[1..]) && multiset(a[1..]) == multiset(b[1..])
  {
    LeastComesFirst(a, b);
    LeastComesFirst(b, a);
    LeqAntisymmetric(a[0], b[0]);
    TailCounts(a);
    TailCounts(b);
  }

  /** There is one sorted arrangement of given strings. */
  lemma {:induction false} SortedIsUnique(a: seq<string>, b: seq<string>)
    requires Sorted(a) && Sorted(b) && multiset(a) == multiset(b)
    ensures a == b
  {
    if a == [] {
      assert |multiset(b)| == 0;
    } else {
      HeadsAgree(a, b);
      SortedIsUnique(a[1..], b[1..]);
      assert a == [a[0]] + a[1..] && b == [b[0]] + b[1..];
    }
  }

  /** The elements of a set in ascending order. */
  method SortedList(s: set<string>) returns (r: seq<string>)
    ensures StrictlySorted(r) && forall x :: x in r <==> x in s
  {
    var todo, all := s, [];
    while todo != {}
      invariant todo <= s
      invariant forall x :: x in all <==> x in s && x !in todo
      invariant forall i, j :: 0 <= i < j < |all| ==> all[i] != all[j]
      decreases todo
    {
      var x :| x in todo;
      all := all + [x];
      todo := todo - {x};
    }
    r := Sort(all);
    SameMembers(all, r);
    DistinctStays(all, r);
  }

  lemma SameMembers(a: seq<string>, b: seq<string>)
    requires multiset(a) == multiset(b)
    ensures forall x :: x in a <==> x in b
  {
    forall x ensures x in a <==> x in b {
      assert x in a <==> x in multiset(a);
      assert x in b <==> x in multiset(b);
    }
  }

  lemma {:induction false} DistinctCounts(a: seq<string>, x: string)
    requires forall i, j :: 0 <= i < j < |a| ==> a[i] != a[j]
    ensures multiset(a)[x] <= 1
  {
    if a != [] {
      assert a == [a[0]] + a[1..];
      DistinctCounts(a[1..], x);
      assert a[0] !in a[1..];
    }
  }

  lemma DistinctStays(a: seq<string>, b: seq<string>)
    requires multiset(a) == multiset(b)
    requires forall i, j :: 0 <= i < j < |a| ==> a[i] != a[j]
    ensures forall i, j :: 0 <= i < j < |b| ==> b[i] != b[j]
  {
    forall i, j | 0 <= i < j < |b| ensures b[i] != b[j] {
      DistinctCounts(a, b[i]);
      RepeatedCounts(b, i, j);
    }
  }
}

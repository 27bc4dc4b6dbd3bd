/** Order-preserving operations on sequences, and what is known about them. */
module Sequences {

  function MapSeq<T, R>(s: seq<T>, f: T -> R): (r: seq<R>)
    ensures |r| == |s|
    ensures forall i :: 0 <= i < |s| ==> r[i] == f(s[i])
  {
    if s == [] then [] else [f(s[0])] + MapSeq(s[1..], f)
  }

  function Filter<T(!new)>(s: seq<T>, keep: T -> bool): (r: seq<T>)
    ensures forall x :: x in r <==> x in s && keep(x)
  {
    if s == [] then []
    else if keep(s[0]) then [s[0]] + Filter(s[1..], keep)
    else Filter(s[1..], keep)
  }

  lemma {:induction false} FilterAppend<T(!new)>(s: seq<T>, x: T, keep: T -> bool)
    ensures Filter(s + [x], keep) == Filter(s, keep) + if keep(x) then [x] else []
  {
    if s == [] {
      assert [] + [x] == [x];
    } else {
      assert (s + [x])[1..] == s[1..] + [x];
      FilterAppend(s[1..], x, keep);
    }
  }

  lemma FilterPrefix<T(!new)>(s: seq<T>, i: nat, keep: T -> bool)
    requires i < |s|
    ensures Filter(s[..i + 1], keep) == Filter(s[..i], keep) + if keep(s[i]) then [s[i]] else []
  {
    assert s[..i + 1] == s[..i] + [s[i]];
    FilterAppend(s[..i], s[i], keep);
  }

  lemma MapSeqAppend<T, R>(s: seq<T>, x: T, f: T -> R)
    ensures MapSeq(s + [x], f) == MapSeq(s, f) + [f(x)]
  {
  }

  lemma {:induction false} FilterAll<T(!new)>(s: seq<T>, keep: T -> bool)
    requires forall x :: x in s ==> keep(x)
    ensures Filter(s, keep) == s
  {
    if s != [] {
      FilterAll(s[1..], keep);
    }
  }

  /** Filtering and mapping commute when the map does not change what the filter sees. */
  lemma {:induction false} FilterOfMap<T(!new)>(s: seq<T>, f: T -> T, keep: T -> bool)
    requires forall x :: x in s ==> keep(f(x)) == keep(x)
    ensures Filter(MapSeq(s, f), keep) == MapSeq(Filter(s, keep), f)
  {
    if s != [] {
      assert MapSeq(s, f)[1..] == MapSeq(s[1..], f);
      FilterOfMap(s[1..], f, keep);
      assert forall x :: x in s[1..] ==> x in s;
      var rest := Filter(s[1..], keep);
      assert MapSeq([s[0]] + rest, f) == [f(s[0])] + MapSeq(rest, f);
    }
  }

  /** `r` is the order-preserving sublist of `s` at the positions `idx`, and those are exactly
      the positions that hold a kept element. */
  ghost predicate PicksOut<T(!new)>(r: seq<T>, idx: seq<nat>, s: seq<T>, keep: T -> bool) {
    && |r| == |idx|
    && (forall j, k :: 0 <= j < k < |idx| ==> idx[j] < idx[k])
    && (forall i: nat :: i in idx <==> i < |s| && keep(s[i]))
    && (forall j :: 0 <= j < |idx| ==> idx[j] in idx && r[j] == s[idx[j]])
  }

  lemma {:induction false} FilterPicksOut<T(!new)>(s: seq<T>, keep: T -> bool) returns (idx: seq<nat>)
    ensures PicksOut(Filter(s, keep), idx, s, keep)
  {
    if s == [] {
      idx := [];
    } else {
      var front, x := s[..|s| - 1], s[|s| - 1];
      assert s == front + [x];
      FilterAppend(front, x, keep);
      var idx0 := FilterPicksOut(front, keep);
      if keep(x) {
        idx := idx0 + [|front|];
        assert idx[|idx0|] == |front|;
        forall i: nat
          ensures i in idx <==> i < |s| && keep(s[i])
        {
          assert i in idx <==> i in idx0 || i == |front|;
        }
      } else {
        idx := idx0;
      }
    }
  }

  lemma Joined<T>(a: seq<T>, b: seq<T>, c: seq<T>, d: seq<T>)
    ensures a + b + c + d == a + (b + c + d)
  {
  }

  /** How many elements satisfy `p`. */
  function Count<T>(s: seq<T>, p: T -> bool): nat {
    if s == [] then 0 else (if p(s[0]) then 1 else 0) + Count(s[1..], p)
  }

  lemma {:induction false} CountConcat<T>(a: seq<T>, b: seq<T>, p: T -> bool)
    ensures Count(a + b, p) == Count(a, p) + Count(b, p)
  {
    if a == [] {
      assert a + b == b;
    } else {
      assert (a + b)[1..] == a[1..] + b;
      CountConcat(a[1..], b, p);
    }
  }

  // ---- Sums over a pool ----

  function Total<T>(s: seq<T>, f: T -> nat): nat {
    if s == [] then 0 else f(s[0]) + Total(s[1..], f)
  }

  lemma {:induction false} TotalUpdate<T>(s: seq<T>, i: nat, x: T, f: T -> nat)
    requires i < |s|
    ensures Total(s[i := x], f) + f(s[i]) == Total(s, f) + f(x)
  {
    if i == 0 {
      assert s[0 := x][1..] == s[1..];
    } else {
      assert s[i := x][1..] == s[1..][i - 1 := x];
      TotalUpdate(s[1..], i - 1, x, f);
    }
  }

  lemma {:induction false} TotalSame<T>(s: seq<T>, f: T -> nat, n: nat)
    requires forall i :: 0 <= i < |s| ==> f(s[i]) == n
    ensures Total(s, f) == |s| * n
  {
    if s != [] {
      TotalSame(s[1..], f, n);
    }
  }

  lemma {:induction false} TotalAtLeast<T>(s: seq<T>, i: nat, f: T -> nat)
    requires i < |s|
    ensures Total(s, f) >= f(s[i])
  {
    if i > 0 {
      TotalAtLeast(s[1..], i - 1, f);
    }
  }

  // ---- Counting in multisets ----

  lemma AppendCount<T>(s: seq<T>, x: T, item: T)
    ensures multiset(s + [x])[item] == multiset(s)[item] + if x == item then 1 else 0
  {
  }

  lemma TailCount<T>(s: seq<T>, item: T)
    requires s != []
    ensures multiset(s)[item] == multiset(s[1..])[item] + if s[0] == item then 1 else 0
  {
    assert s == [s[0]] + s[1..];
  }

  lemma FirstCounts<T>(s: seq<T>)
    ensures s != [] ==> multiset(s)[s[0]] > 0
  {
    if s != [] {
      assert s[0] in multiset(s);
    }
  }

  /** An element that is counted at most once stands in one position only. */
  lemma RepeatedCounts<T>(s: seq<T>, i: nat, j: nat)
    requires i < j < |s|
    ensures s[i] == s[j] ==> multiset(s)[s[i]] >= 2
  {
    if s[i] == s[j] {
      assert s == s[..j] + [s[j]] + s[j + 1..];
      assert s[i] in s[..j] by { assert s[..j][i] == s[i]; }
    }
  }
}

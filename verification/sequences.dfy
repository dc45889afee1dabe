/** Filtering, counting, summing and key-sorting of sequences, with the fact each
    proof needs about them: none depends on anything but the multiset of elements.
 */
module Sequences {

  datatype Option<+T> = None | Some(value: T)

  predicate NoDup<T(==)>(s: seq<T>) {
    forall i, j :: 0 <= i < j < |s| ==> s[i] != s[j]
  }

  function Take<T>(s: seq<T>, n: nat): seq<T> {
    if n < |s| then s[..n] else s
  }

  function Min(a: int, b: int): int {
    if a <= b then a else b
  }

  /** `Enumerable#select`. */
  function Filter<T(!new)>(s: seq<T>, keep: T -> bool): (r: seq<T>)
    ensures |r| <= |s|
    ensures forall x :: x in r <==> x in s && keep(x)
  {
    if s == [] then [] else
      var r := Filter(s[..|s|-1], keep);
      assert s == s[..|s|-1] + [s[|s|-1]];
      if keep(s[|s|-1]) then r + [s[|s|-1]] else r
  }

  function Count<T(!new)>(s: seq<T>, keep: T -> bool): nat {
    |Filter(s, keep)|
  }

  function Sum<T>(s: seq<T>, value: T -> real): real {
    if s == [] then 0.0 else Sum(s[..|s|-1], value) + value(s[|s|-1])
  }

  lemma {:induction false} FilterSnoc<T(!new)>(s: seq<T>, x: T, keep: T -> bool)
    ensures Filter(s + [x], keep) == if keep(x) then Filter(s, keep) + [x] else Filter(s, keep)
  {
    assert (s + [x])[..|s|] == s;
  }

  /** Filtering twice is filtering by both tests at once. */
  lemma {:induction false} FilterTwice<T(!new)>(s: seq<T>, first: T -> bool, second: T -> bool, both: T -> bool)
    requires forall x :: both(x) <==> first(x) && second(x)
    ensures Filter(Filter(s, first), second) == Filter(s, both)
  {
    if s != [] {
      var front, x := s[..|s|-1], s[|s|-1];
      assert s == front + [x];
      FilterTwice(front, first, second, both);
      FilterSnoc(Filter(front, first), x, second);
    }
  }

  lemma {:induction false} FilterMultiplicity<T(!new)>(s: seq<T>, keep: T -> bool, x: T)
    ensures multiset(Filter(s, keep))[x] == if keep(x) then multiset(s)[x] else 0
  {
    if s != [] {
      FilterMultiplicity(s[..|s|-1], keep, x);
      assert s == s[..|s|-1] + [s[|s|-1]];
    }
  }

  lemma {:induction false} CountPermuted<T(!new)>(a: seq<T>, b: seq<T>, keep: T -> bool)
    requires multiset(a) == multiset(b)
    ensures multiset(Filter(a, keep)) == multiset(Filter(b, keep))
    ensures Count(a, keep) == Count(b, keep)
  {
    forall x ensures multiset(Filter(a, keep))[x] == multiset(Filter(b, keep))[x] {
      FilterMultiplicity(a, keep, x);
      FilterMultiplicity(b, keep, x);
    }
    assert |multiset(Filter(a, keep))| == |Filter(a, keep)|;
    assert |multiset(Filter(b, keep))| == |Filter(b, keep)|;
  }

  lemma {:induction false} SumRemove<T>(s: seq<T>, i: nat, value: T -> real)
    requires i < |s|
    ensures Sum(s, value) == Sum(s[..i] + s[i+1..], value) + value(s[i])
  {
    if i == |s| - 1 {
      assert s[..i] + s[i+1..] == s[..i];
    } else {
      var init, last := s[..|s|-1], s[|s|-1];
      SumRemove(init, i, value);
      assert s[..i] + s[i+1..] == (init[..i] + init[i+1..]) + [last];
      assert ((init[..i] + init[i+1..]) + [last])[..|s|-2] == init[..i] + init[i+1..];
    }
  }

  lemma {:induction false} RemoveOne<T>(s: seq<T>, i: nat)
    requires i < |s|
    ensures multiset(s[..i] + s[i+1..]) == multiset(s) - multiset{s[i]}
  {
    assert s == s[..i] + [s[i]] + s[i+1..];
  }

  lemma {:induction false} FindIn<T>(s: seq<T>, x: T) returns (i: nat)
    requires x in multiset(s)
    ensures i < |s| && s[i] == x
  {
    i :| 0 <= i < |s| && s[i] == x;
  }

  lemma {:induction false} SumPermuted<T>(a: seq<T>, b: seq<T>, value: T -> real)
    requires multiset(a) == multiset(b)
    ensures Sum(a, value) == Sum(b, value)
    decreases |a|
  {
    assert |multiset(a)| == |a| && |multiset(b)| == |b|;
    if a != [] {
      var n := |a| - 1;
      assert a[n] in multiset(a);
      var i := FindIn(b, a[n]);
      RemoveOne(a, n);
      RemoveOne(b, i);
      assert a[..n] + a[n+1..] == a[..n];
      SumPermuted(a[..n], b[..i] + b[i+1..], value);
      SumRemove(b, i, value);
    }
  }

  lemma {:induction false} FilterNoDup<T(!new)>(s: seq<T>, keep: T -> bool)
    requires NoDup(s)
    ensures NoDup(Filter(s, keep))
  {
    if s != [] {
      FilterNoDup(s[..|s|-1], keep);
    }
  }

  lemma {:induction false} NoDupMultiplicity<T>(s: seq<T>, x: T)
    requires NoDup(s)
    ensures multiset(s)[x] == if x in s then 1 else 0
  {
    if s != [] {
      NoDupMultiplicity(s[..|s|-1], x);
      assert s == s[..|s|-1] + [s[|s|-1]];
    }
  }

  /** Two duplicate-free lists of the same elements are rearrangements of each other. */
  lemma {:induction false} SameElements<T(!new)>(a: seq<T>, b: seq<T>)
    requires NoDup(a) && NoDup(b)
    requires forall x :: x in a <==> x in b
    ensures multiset(a) == multiset(b) && |a| == |b|
  {
    forall x ensures multiset(a)[x] == multiset(b)[x] {
      NoDupMultiplicity(a, x);
      NoDupMultiplicity(b, x);
    }
    assert |multiset(a)| == |a| && |multiset(b)| == |b|;
  }

  lemma {:induction false} Repeated<T>(s: seq<T>, i: nat, j: nat)
    requires i < j < |s| && s[i] == s[j]
    ensures multiset(s)[s[i]] >= 2
  {
    assert s == s[..i] + [s[i]] + s[i+1..j] + [s[j]] + s[j+1..];
  }

  lemma {:induction false} MultiplicityNoDup<T>(s: seq<T>)
    requires forall x :: multiset(s)[x] <= 1
    ensures NoDup(s)
  {
    forall i, j | 0 <= i < j < |s| ensures s[i] != s[j] {
      if s[i] == s[j] {
        Repeated(s, i, j);
      }
    }
  }

  lemma {:induction false} PermutedNoDup<T(!new)>(a: seq<T>, b: seq<T>)
    requires multiset(a) == multiset(b) && NoDup(a)
    ensures NoDup(b) && |a| == |b|
    ensures forall x :: x in a <==> x in b
  {
    forall x ensures multiset(b)[x] <= 1 && (x in a <==> x in b) {
      NoDupMultiplicity(a, x);
      assert x in multiset(a) <==> x in multiset(b);
    }
    MultiplicityNoDup(b);
    assert |multiset(a)| == |a| && |multiset(b)| == |b|;
  }

  /** A `sort_by` key of up to three components, compared left to right. */
  datatype Rank = Rank(first: real, second: int, third: int)

  predicate Before(a: Rank, b: Rank) {
    a.first < b.first ||
    (a.first == b.first && (a.second < b.second || (a.second == b.second && a.third < b.third)))
  }

  ghost predicate Sorted<T>(s: seq<T>, rank: map<T, Rank>)
    requires forall x :: x in s ==> x in rank
  {
    forall i, j :: 0 <= i < j < |s| ==> !Before(rank[s[j]], rank[s[i]])
  }

  ghost predicate Injective<T(!new)>(rank: map<T, Rank>) {
    forall x, y :: x in rank && y in rank && rank[x] == rank[y] ==> x == y
  }

  function Insert<T(==,!new)>(s: seq<T>, x: T, rank: map<T, Rank>): (r: seq<T>)
    requires x in rank && forall y :: y in s ==> y in rank
    ensures multiset(r) == multiset(s) + multiset{x}
    ensures forall y :: y in r <==> y in s || y == x
  {
    if s == [] then [x]
    else if Before(rank[x], rank[s[|s|-1]]) then
      var r := Insert(s[..|s|-1], x, rank) + [s[|s|-1]];
      assert s == s[..|s|-1] + [s[|s|-1]];
      r
    else s + [x]
  }

  /** `sort_by` for keys that decide every tie. */
  function SortBy<T(==,!new)>(s: seq<T>, rank: map<T, Rank>): (r: seq<T>)
    requires forall x :: x in s ==> x in rank
    ensures multiset(r) == multiset(s) && |r| == |s|
    ensures forall x :: x in r <==> x in s
  {
    if s == [] then [] else
      var r := Insert(SortBy(s[..|s|-1], rank), s[|s|-1], rank);
      assert s == s[..|s|-1] + [s[|s|-1]];
      assert |multiset(r)| == |r| && |multiset(s)| == |s|;
      r
  }

  lemma {:induction false} InsertSorted<T(!new)>(s: seq<T>, x: T, rank: map<T, Rank>)
    requires x in rank && (forall y :: y in s ==> y in rank) && Sorted(s, rank)
    ensures Sorted(Insert(s, x, rank), rank)
  {
    if s != [] && Before(rank[x], rank[s[|s|-1]]) {
      InsertSorted(s[..|s|-1], x, rank);
      var r := Insert(s[..|s|-1], x, rank);
      forall i | 0 <= i < |r| ensures !Before(rank[s[|s|-1]], rank[r[i]]) {
        assert r[i] in r;
        if r[i] != x {
          var k :| 0 <= k < |s| - 1 && s[k] == r[i];
        }
      }
    } else if s != [] {
      forall i | 0 <= i < |s| ensures !Before(rank[x], rank[s[i]]) {
        assert i < |s| - 1 ==> !Before(rank[s[|s|-1]], rank[s[i]]);
      }
    }
  }

  lemma {:induction false} SortBySorted<T(!new)>(s: seq<T>, rank: map<T, Rank>)
    requires forall x :: x in s ==> x in rank
    ensures Sorted(SortBy(s, rank), rank)
  {
    if s != [] {
      SortBySorted(s[..|s|-1], rank);
      InsertSorted(SortBy(s[..|s|-1], rank), s[|s|-1], rank);
    }
  }

  lemma {:induction false} SortByAt<T(!new)>(s: seq<T>, rank: map<T, Rank>, i: nat, j: nat)
    requires (forall x :: x in s ==> x in rank) && i < j < |s|
    ensures SortBy(s, rank)[i] in s && SortBy(s, rank)[j] in s
    ensures !Before(rank[SortBy(s, rank)[j]], rank[SortBy(s, rank)[i]])
  {
    SortBySorted(s, rank);
    assert SortBy(s, rank)[i] in SortBy(s, rank) && SortBy(s, rank)[j] in SortBy(s, rank);
  }

  lemma {:induction false} LastIsGreatest<T(!new)>(s: seq<T>, y: T, rank: map<T, Rank>)
    requires s != [] && (forall x :: x in s ==> x in rank) && Sorted(s, rank) && y in s
    ensures !Before(rank[s[|s|-1]], rank[y])
  {
    var i :| 0 <= i < |s| && s[i] == y;
    assert i < |s| - 1 ==> !Before(rank[s[|s|-1]], rank[s[i]]);
  }

  lemma {:induction false} FirstIsLeast<T(!new)>(s: seq<T>, y: T, rank: map<T, Rank>)
    requires s != [] && (forall x :: x in s ==> x in rank) && Sorted(s, rank) && y in s
    ensures !Before(rank[y], rank[s[0]])
  {
    var i :| 0 <= i < |s| && s[i] == y;
    assert 0 < i ==> !Before(rank[s[i]], rank[s[0]]);
  }

  lemma {:induction false} SortedInit<T(!new)>(s: seq<T>, rank: map<T, Rank>)
    requires s != [] && (forall x :: x in s ==> x in rank) && Sorted(s, rank)
    ensures (forall x :: x in s[..|s|-1] ==> x in rank) && Sorted(s[..|s|-1], rank)
  {
  }

  lemma {:induction false} DropLast<T(!new)>(a: seq<T>, b: seq<T>)
    requires a != [] && b != [] && multiset(a) == multiset(b) && a[|a|-1] == b[|b|-1]
    ensures multiset(a[..|a|-1]) == multiset(b[..|b|-1])
  {
    assert a == a[..|a|-1] + [a[|a|-1]];
    assert b == b[..|b|-1] + [b[|b|-1]];
    assert multiset(a[..|a|-1]) == multiset(a) - multiset{a[|a|-1]};
    assert multiset(b[..|b|-1]) == multiset(b) - multiset{b[|b|-1]};
  }

  /** With keys that decide every tie there is one sorted rearrangement. */
  lemma {:induction false} SortedUnique<T(!new)>(a: seq<T>, b: seq<T>, rank: map<T, Rank>)
    requires (forall x :: x in a ==> x in rank) && (forall x :: x in b ==> x in rank)
    requires Injective(rank) && Sorted(a, rank) && Sorted(b, rank) && multiset(a) == multiset(b)
    ensures a == b
    decreases |a|
  {
    assert |multiset(a)| == |a| && |multiset(b)| == |b|;
    if a != [] {
      var x, y := a[|a|-1], b[|b|-1];
      assert x in multiset(b) && y in multiset(a);
      LastIsGreatest(a, y, rank);
      LastIsGreatest(b, x, rank);
      assert rank[x] == rank[y];
      SortedInit(a, rank);
      SortedInit(b, rank);
      DropLast(a, b);
      SortedUnique(a[..|a|-1], b[..|b|-1], rank);
      assert a == a[..|a|-1] + [x];
    }
  }

  /** Sorting forgets the order of its input. */
  lemma {:induction false} SortByPermuted<T(!new)>(a: seq<T>, b: seq<T>, rank: map<T, Rank>)
    requires multiset(a) == multiset(b)
    requires forall x :: x in a ==> x in rank
    requires Injective(rank)
    ensures forall x :: x in b ==> x in rank
    ensures SortBy(a, rank) == SortBy(b, rank)
  {
    forall x | x in b ensures x in rank {
      assert x in multiset(b);
    }
    SortBySorted(a, rank);
    SortBySorted(b, rank);
    SortedUnique(SortBy(a, rank), SortBy(b, rank), rank);
  }
}

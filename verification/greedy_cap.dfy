/** The greedy per-key cap shared by the store wall, the cross-store wall and the
    hidden-gems crate: walk a ranked list, keep an entry while its key has been kept
    fewer than `cap` times, then cut at `limit`.  The theorems say this is optimal.
 */
module GreedyCap {
  import opened Sequences

  function HasKey<T, K(==)>(key: T -> K, k: K): T -> bool {
    (x: T) => key(x) == k
  }

  function LacksKey<T, K(==)>(key: T -> K, k: K): T -> bool {
    (x: T) => key(x) != k
  }

  function Among<T(==)>(s: seq<T>): T -> bool {
    (x: T) => x in s
  }

  /** What the counter loop keeps, read from the end of the list. */
  function Capped<T(!new), K(==)>(ranked: seq<T>, key: T -> K, admits: K -> bool, cap: nat): seq<T> {
    if ranked == [] then [] else
      var kept := Capped(ranked[..|ranked|-1], key, admits, cap);
      var x := ranked[|ranked|-1];
      if admits(key(x)) && Count(kept, HasKey(key, key(x))) < cap then kept + [x] else kept
  }

  function Greedy<T(!new), K(==)>(ranked: seq<T>, key: T -> K, admits: K -> bool, cap: nat, limit: nat): seq<T> {
    Take(Capped(ranked, key, admits, cap), limit)
  }

  lemma {:induction false} CappedSnoc<T(!new), K(!new)>(front: seq<T>, x: T, key: T -> K, admits: K -> bool, cap: nat)
    ensures var kept := Capped(front, key, admits, cap);
      Capped(front + [x], key, admits, cap)
      == if admits(key(x)) && Count(kept, HasKey(key, key(x))) < cap then kept + [x] else kept
  {
    assert (front + [x])[..|front|] == front;
  }

  lemma {:induction false} CountSnoc<T(!new), K(!new)>(s: seq<T>, x: T, key: T -> K, k: K)
    ensures Count(s + [x], HasKey(key, k)) == Count(s, HasKey(key, k)) + if key(x) == k then 1 else 0
  {
    FilterSnoc(s, x, HasKey(key, k));
  }

  /** The hash counts what has been kept under each key. */
  ghost predicate Tallies<T(!new), K(!new)>(seen: map<K, nat>, kept: seq<T>, key: T -> K) {
    forall k :: (if k in seen then seen[k] else 0) == Count(kept, HasKey(key, k))
  }

  lemma {:induction false} TalliesSnoc<T(!new), K(!new)>(seen: map<K, nat>, kept: seq<T>, key: T -> K, x: T)
    requires Tallies(seen, kept, key)
    ensures Tallies(seen[key(x) := Count(kept, HasKey(key, key(x))) + 1], kept + [x], key)
  {
    forall k ensures Count(kept + [x], HasKey(key, k)) == Count(kept, HasKey(key, k)) + if k == key(x) then 1 else 0 {
      CountSnoc(kept, x, key, k);
    }
  }

  /** The loop over the `genre_seen` hash. */
  method CapFilter<T(!new), K(==,!new)>(ranked: seq<T>, key: T -> K, admits: K -> bool, cap: nat)
    returns (kept: seq<T>)
    ensures kept == Capped(ranked, key, admits, cap)
  {
    kept := [];
    var seen: map<K, nat> := map[];
    for i := 0 to |ranked|
      invariant kept == Capped(ranked[..i], key, admits, cap)
      invariant Tallies(seen, kept, key)
    {
      var x := ranked[i];
      var k := key(x);
      var count := if k in seen then seen[k] else 0;
      assert count == Count(kept, HasKey(key, k));
      assert ranked[..i+1] == ranked[..i] + [x];
      CappedSnoc(ranked[..i], x, key, admits, cap);
      if admits(k) && count < cap {
        TalliesSnoc(seen, kept, key, x);
        seen := seen[k := count + 1];
        kept := kept + [x];
      }
    }
    assert ranked[..|ranked|] == ranked;
  }

  lemma {:induction false} CappedWithin<T(!new), K(!new)>(ranked: seq<T>, key: T -> K, admits: K -> bool, cap: nat)
    ensures forall x :: x in Capped(ranked, key, admits, cap) ==> x in ranked && admits(key(x))
    ensures NoDup(ranked) ==> NoDup(Capped(ranked, key, admits, cap))
  {
    if ranked != [] {
      CappedWithin(ranked[..|ranked|-1], key, admits, cap);
    }
  }

  /** Per key the loop keeps exactly min(cap, matches); nothing under a key it does not admit. */
  lemma {:induction false} CappedCount<T(!new), K(!new)>(ranked: seq<T>, key: T -> K, admits: K -> bool, cap: nat, k: K)
    ensures Count(Capped(ranked, key, admits, cap), HasKey(key, k))
         == if admits(k) then Min(cap, Count(ranked, HasKey(key, k))) else 0
  {
    if ranked != [] {
      var front, x := ranked[..|ranked|-1], ranked[|ranked|-1];
      assert ranked == front + [x];
      CappedCount(front, key, admits, cap, k);
      CappedSnoc(front, x, key, admits, cap);
      CountSnoc(front, x, key, k);
      CountSnoc(Capped(front, key, admits, cap), x, key, k);
    }
  }

  lemma {:induction false} CappedPrefix<T(!new), K(!new)>(ranked: seq<T>, key: T -> K, admits: K -> bool, cap: nat, n: nat)
    requires n <= |ranked|
    ensures Capped(ranked[..n], key, admits, cap) <= Capped(ranked, key, admits, cap)
    decreases |ranked|
  {
    if n < |ranked| {
      CappedPrefix(ranked[..|ranked|-1], key, admits, cap, n);
      assert ranked[..|ranked|-1][..n] == ranked[..n];
    } else {
      assert ranked[..n] == ranked;
    }
  }

  // ----- counting by key

  function TallySum<T(!new), K(==)>(s: seq<T>, key: T -> K, keys: seq<K>): nat {
    if keys == [] then 0
    else TallySum(s, key, keys[..|keys|-1]) + Count(s, HasKey(key, keys[|keys|-1]))
  }

  /** The sum over `keys` of min(cap, matches). */
  function CapSum<T(!new), K(==)>(s: seq<T>, key: T -> K, admits: K -> bool, cap: nat, keys: seq<K>): int {
    if keys == [] then 0
    else
      var k := keys[|keys|-1];
      CapSum(s, key, admits, cap, keys[..|keys|-1]) + if admits(k) then Min(cap, Count(s, HasKey(key, k))) else 0
  }

  lemma {:induction false} WithoutKey<T(!new), K(!new)>(s: seq<T>, key: T -> K, gone: K, k: K)
    ensures Count(Filter(s, LacksKey(key, gone)), HasKey(key, k)) == if k == gone then 0 else Count(s, HasKey(key, k))
    ensures |s| == Count(s, HasKey(key, gone)) + |Filter(s, LacksKey(key, gone))|
  {
    if s != [] {
      var init, x := s[..|s|-1], s[|s|-1];
      WithoutKey(init, key, gone, k);
      FilterSnoc(Filter(init, LacksKey(key, gone)), x, HasKey(key, k));
    }
  }

  lemma {:induction false} TallySumWithout<T(!new), K(!new)>(s: seq<T>, key: T -> K, keys: seq<K>, gone: K)
    requires gone !in keys
    ensures TallySum(Filter(s, LacksKey(key, gone)), key, keys) == TallySum(s, key, keys)
  {
    if keys != [] {
      TallySumWithout(s, key, keys[..|keys|-1], gone);
      WithoutKey(s, key, gone, keys[|keys|-1]);
    }
  }

  lemma {:induction false} NonEmptyHasMember<T>(s: seq<T>)
    ensures s == [] || exists x :: x in s
  {
    if s != [] {
      assert s[0] in s;
    }
  }

  lemma {:induction false} LengthByKeys<T(!new), K(!new)>(s: seq<T>, key: T -> K, keys: seq<K>)
    requires NoDup(keys) && forall x :: x in s ==> key(x) in keys
    ensures |s| == TallySum(s, key, keys)
    decreases |keys|
  {
    if keys == [] {
      NonEmptyHasMember(s);
    } else {
      var init, k := keys[..|keys|-1], keys[|keys|-1];
      var rest := Filter(s, LacksKey(key, k));
      forall x | x in rest ensures key(x) in init {
        assert key(x) in keys && key(x) != k;
      }
      LengthByKeys(rest, key, init);
      TallySumWithout(s, key, init, k);
      WithoutKey(s, key, k, k);
    }
  }

  lemma {:induction false} TallySumMonotone<T(!new), K(!new)>(a: seq<T>, b: seq<T>, key: T -> K, keys: seq<K>)
    requires forall k :: Count(a, HasKey(key, k)) <= Count(b, HasKey(key, k))
    ensures TallySum(a, key, keys) <= TallySum(b, key, keys)
  {
    if keys != [] {
      TallySumMonotone(a, b, key, keys[..|keys|-1]);
    }
  }

  /** The distinct keys of a list. */
  function KeysOf<T(!new), K(==,!new)>(s: seq<T>, key: T -> K): (keys: seq<K>)
    ensures NoDup(keys)
    ensures forall x :: x in s ==> key(x) in keys
  {
    if s == [] then [] else
      var keys := KeysOf(s[..|s|-1], key);
      assert s == s[..|s|-1] + [s[|s|-1]];
      if key(s[|s|-1]) in keys then keys else keys + [key(s[|s|-1])]
  }

  lemma {:induction false} FewerPerKeyIsFewer<T(!new), K(!new)>(a: seq<T>, b: seq<T>, key: T -> K)
    requires forall k :: Count(a, HasKey(key, k)) <= Count(b, HasKey(key, k))
    ensures |a| <= |b|
  {
    var keys := KeysOf(a + b, key);
    forall x | x in a || x in b ensures key(x) in keys {
      assert x in a + b;
    }
    LengthByKeys(a, key, keys);
    LengthByKeys(b, key, keys);
    TallySumMonotone(a, b, key, keys);
  }

  lemma {:induction false} CappedTally<T(!new), K(!new)>(ranked: seq<T>, key: T -> K, admits: K -> bool, cap: nat, keys: seq<K>)
    ensures TallySum(Capped(ranked, key, admits, cap), key, keys) == CapSum(ranked, key, admits, cap, keys)
  {
    if keys != [] {
      CappedTally(ranked, key, admits, cap, keys[..|keys|-1]);
      CappedCount(ranked, key, admits, cap, keys[|keys|-1]);
    }
  }

  /** The selection has exactly min(limit, sum over keys of min(cap, matches)) entries. */
  lemma {:induction false} GreedySize<T(!new), K(!new)>(ranked: seq<T>, key: T -> K, admits: K -> bool, cap: nat, limit: nat, keys: seq<K>)
    requires NoDup(keys) && forall x :: x in ranked ==> key(x) in keys
    ensures |Greedy(ranked, key, admits, cap, limit)| == Min(limit, CapSum(ranked, key, admits, cap, keys))
  {
    CappedWithin(ranked, key, admits, cap);
    LengthByKeys(Capped(ranked, key, admits, cap), key, keys);
    CappedTally(ranked, key, admits, cap, keys);
  }

  // ----- optimality

  /** A selection the policy allows: distinct entries of the list, admitted keys, at most
      `cap` per key, at most `limit` in all. */
  ghost predicate Allowed<T(!new), K(!new)>(chosen: seq<T>, ranked: seq<T>, key: T -> K, admits: K -> bool, cap: nat, limit: nat) {
    NoDup(chosen) && |chosen| <= limit
    && (forall x :: x in chosen ==> x in ranked && admits(key(x)))
    && forall k :: Count(chosen, HasKey(key, k)) <= cap
  }

  lemma {:induction false} CountOfPrefix<T(!new)>(s: seq<T>, n: nat, keep: T -> bool)
    requires n <= |s|
    ensures Count(s[..n], keep) <= Count(s, keep)
    decreases |s|
  {
    if n < |s| {
      CountOfPrefix(s[..|s|-1], n, keep);
      assert s[..|s|-1][..n] == s[..n];
    } else {
      assert s[..n] == s;
    }
  }

  lemma {:induction false} GreedyAllowed<T(!new), K(!new)>(ranked: seq<T>, key: T -> K, admits: K -> bool, cap: nat, limit: nat)
    requires NoDup(ranked)
    ensures Allowed(Greedy(ranked, key, admits, cap, limit), ranked, key, admits, cap, limit)
  {
    CappedWithin(ranked, key, admits, cap);
    var kept := Capped(ranked, key, admits, cap);
    forall k ensures Count(Take(kept, limit), HasKey(key, k)) <= cap {
      CappedCount(ranked, key, admits, cap, k);
      if limit < |kept| {
        CountOfPrefix(kept, limit, HasKey(key, k));
      }
    }
  }

  /** Of any sublist, `a` holds no more entries than `b` when every entry of `a` is in `b`. */
  lemma {:induction false} SubsetCount<T(!new)>(a: seq<T>, b: seq<T>, keep: T -> bool)
    requires NoDup(a) && NoDup(b) && forall x :: x in a ==> x in b
    ensures Count(a, keep) <= Count(b, keep)
  {
    FilterNoDup(a, keep);
    FilterNoDup(b, keep);
    SubsetLength(Filter(a, keep), Filter(b, keep));
  }

  lemma {:induction false} SubsetLength<T(!new)>(a: seq<T>, b: seq<T>)
    requires NoDup(a) && NoDup(b) && forall x :: x in a ==> x in b
    ensures |a| <= |b|
  {
    forall x ensures multiset(a)[x] <= multiset(b)[x] {
      NoDupMultiplicity(a, x);
      NoDupMultiplicity(b, x);
    }
    assert multiset(a) <= multiset(b);
    assert multiset(b) == multiset(a) + (multiset(b) - multiset(a));
    assert |multiset(a)| == |a| && |multiset(b)| == |b|;
  }

  /** Among the first `n` ranked entries, greedy has taken at least as many as any allowed selection. */
  lemma {:induction false} GreedyDominates<T(!new), K(!new)>(ranked: seq<T>, key: T -> K, admits: K -> bool, cap: nat, limit: nat,
                                          chosen: seq<T>, n: nat)
    requires NoDup(ranked) && Allowed(chosen, ranked, key, admits, cap, limit) && n <= |ranked|
    ensures Count(ranked[..n], Among(chosen)) <= |Greedy(ranked[..n], key, admits, cap, limit)|
  {
    var front := ranked[..n];
    var picked := Filter(front, Among(chosen));
    FilterNoDup(front, Among(chosen));
    SubsetLength(picked, chosen);
    forall k ensures Count(picked, HasKey(key, k)) <= Count(Capped(front, key, admits, cap), HasKey(key, k)) {
      SubsetCount(picked, chosen, HasKey(key, k));
      SubsetCount(picked, front, HasKey(key, k));
      CappedCount(front, key, admits, cap, k);
      assert Filter(picked, HasKey(key, k)) == [] || Filter(picked, HasKey(key, k))[0] in chosen;
    }
    FewerPerKeyIsFewer(picked, Capped(front, key, admits, cap), key);
  }

  ghost predicate Descending<T>(ranked: seq<T>, score: T -> real) {
    forall i, j :: 0 <= i < j < |ranked| ==> score(ranked[i]) >= score(ranked[j])
  }

  function Scaled(d: int, x: real): real {
    d as real * x
  }

  lemma {:induction false} ScaleMonotone(d: int, x: real, y: real)
    requires d >= 0 && x >= y
    ensures Scaled(d, x) >= Scaled(d, y)
  {
    assert (d as real) * (x - y) >= 0.0;
  }

  lemma {:induction false} ScaleStep(d: int, x: real)
    ensures Scaled(d + 1, x) == Scaled(d, x) + x && Scaled(d - 1, x) == Scaled(d, x) - x && Scaled(0, x) == 0.0
  {
    assert (d + 1) as real == d as real + 1.0;
    assert (d - 1) as real == d as real - 1.0;
  }

  /** `ours` leads `theirs` in score by at least its lead in number times `bound`. */
  ghost predicate Leads<T>(ours: seq<T>, theirs: seq<T>, score: T -> real, bound: real) {
    Sum(ours, score) - Sum(theirs, score) >= Scaled(|ours| - |theirs|, bound)
  }

  ghost predicate SameOrPlus<T>(before: seq<T>, after: seq<T>, x: T) {
    after == before || after == before + [x]
  }

  lemma {:induction false} LowerBound<T>(ours: seq<T>, theirs: seq<T>, score: T -> real, high: real, low: real)
    requires Leads(ours, theirs, score, high) && high >= low && |ours| >= |theirs|
    ensures Leads(ours, theirs, score, low)
  {
    ScaleMonotone(|ours| - |theirs|, high, low);
  }

  lemma {:induction false} LeadWhenEqual<T>(ours: seq<T>, theirs: seq<T>, score: T -> real, bound: real)
    requires Leads(ours, theirs, score, bound) && |ours| == |theirs|
    ensures Sum(theirs, score) <= Sum(ours, score)
  {
    ScaleStep(0, bound);
  }

  lemma {:induction false} SumSnoc<T>(s: seq<T>, x: T, score: T -> real)
    ensures Sum(s + [x], score) == Sum(s, score) + score(x)
  {
    assert (s + [x])[..|s|] == s;
  }

  lemma {:induction false} LeadStep<T>(ours: seq<T>, theirs: seq<T>, ours': seq<T>, theirs': seq<T>, x: T, score: T -> real)
    requires Leads(ours, theirs, score, score(x))
    requires SameOrPlus(ours, ours', x) && SameOrPlus(theirs, theirs', x)
    ensures Leads(ours', theirs', score, score(x))
  {
    SumSnoc(ours, x, score);
    SumSnoc(theirs, x, score);
    ScaleStep(|ours| - |theirs|, score(x));
  }

  lemma {:induction false} GreedyStep<T(!new), K(!new)>(ranked: seq<T>, x: T, key: T -> K, admits: K -> bool, cap: nat, limit: nat)
    ensures SameOrPlus(Greedy(ranked, key, admits, cap, limit), Greedy(ranked + [x], key, admits, cap, limit), x)
  {
    assert (ranked + [x])[..|ranked|] == ranked;
    var kept := Capped(ranked, key, admits, cap);
    if limit <= |kept| {
      assert (kept + [x])[..limit] == kept[..limit];
      assert kept[..|kept|] == kept;
    }
  }

  /** Summation by parts: over the first `n` entries greedy leads by the score just passed. */
  lemma {:induction false} LeadByParts<T(!new), K(!new)>(ranked: seq<T>, key: T -> K, admits: K -> bool, cap: nat, limit: nat,
                                                          chosen: seq<T>, score: T -> real, n: nat)
    requires NoDup(ranked) && Descending(ranked, score)
    requires Allowed(chosen, ranked, key, admits, cap, limit) && 0 < n <= |ranked|
    ensures Leads(Greedy(ranked[..n], key, admits, cap, limit), Filter(ranked[..n], Among(chosen)), score, score(ranked[n-1]))
    decreases n
  {
    var front, x := ranked[..n-1], ranked[n-1];
    var ours, theirs := Greedy(front, key, admits, cap, limit), Filter(front, Among(chosen));
    if n > 1 {
      LeadByParts(ranked, key, admits, cap, limit, chosen, score, n - 1);
      GreedyDominates(ranked, key, admits, cap, limit, chosen, n - 1);
      LowerBound(ours, theirs, score, score(ranked[n-2]), score(x));
    }
    assert ranked[..n] == front + [x];
    GreedyStep(front, x, key, admits, cap, limit);
    FilterSnoc(front, x, Among(chosen));
    LeadStep(ours, theirs, Greedy(front + [x], key, admits, cap, limit), Filter(front + [x], Among(chosen)), x, score);
  }

  /** No allowed selection is larger, and none of the same size has a higher total score. */
  lemma {:induction false} GreedyOptimal<T(!new), K(!new)>(ranked: seq<T>, key: T -> K, admits: K -> bool, cap: nat, limit: nat,
                                        score: T -> real, chosen: seq<T>)
    requires NoDup(ranked) && Descending(ranked, score)
    requires Allowed(chosen, ranked, key, admits, cap, limit)
    ensures |chosen| <= |Greedy(ranked, key, admits, cap, limit)|
    ensures |chosen| == |Greedy(ranked, key, admits, cap, limit)|
            ==> Sum(chosen, score) <= Sum(Greedy(ranked, key, admits, cap, limit), score)
  {
    var n := |ranked|;
    assert ranked[..n] == ranked;
    var ours, theirs := Greedy(ranked, key, admits, cap, limit), Filter(ranked, Among(chosen));
    FilterNoDup(ranked, Among(chosen));
    SameElements(theirs, chosen);
    GreedyDominates(ranked, key, admits, cap, limit, chosen, n);
    if n > 0 && |chosen| == |ours| {
      SumPermuted(theirs, chosen, score);
      LeadByParts(ranked, key, admits, cap, limit, chosen, score, n);
      LeadWhenEqual(ours, theirs, score, score(ranked[n-1]));
    }
  }
}

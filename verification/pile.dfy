/** Adding a shopper's pile to a Discogs wantlist (app/services/create_pile_wantlist_service.rb). */
module Pile {
  import opened Sequences

  type ItemId = nat
  type ReleaseId = nat

  const MAX_RELEASES_PER_ACTION := 50

  /** `resolve_store_release_ids`: releases of the items the store has, each once, in pile order. */
  function ResolveReleases(items: seq<ItemId>, releases: map<ItemId, Option<ReleaseId>>): (r: seq<ReleaseId>)
    ensures NoDup(r) && |r| <= |items|
  {
    if items == [] then [] else
      var r := ResolveReleases(items[..|items|-1], releases);
      var item := items[|items|-1];
      if item !in releases || releases[item].None? || releases[item].value in r then r else r + [releases[item].value]
  }

  /** Exactly the releases that some item of the pile has in the store. */
  lemma {:induction false} ResolvedExactly(items: seq<ItemId>, releases: map<ItemId, Option<ReleaseId>>, id: ReleaseId)
    ensures id in ResolveReleases(items, releases)
            <==> exists i :: 0 <= i < |items| && items[i] in releases && releases[items[i]] == Some(id)
  {
    if items != [] {
      var n := |items| - 1;
      ResolvedExactly(items[..n], releases, id);
      if i :| 0 <= i < n && items[..n][i] in releases && releases[items[..n][i]] == Some(id) {
        assert items[i] == items[..n][i];
      }
      if i :| 0 <= i < |items| && items[i] in releases && releases[items[i]] == Some(id) && i < n {
        assert items[..n][i] == items[i];
      }
    }
  }

  /** In the order of the pile: a longer pile only adds releases at the end. */
  lemma {:induction false} ResolvedInOrder(items: seq<ItemId>, releases: map<ItemId, Option<ReleaseId>>, n: nat)
    requires n <= |items|
    ensures ResolveReleases(items[..n], releases) <= ResolveReleases(items, releases)
    decreases |items|
  {
    if n == |items| {
      assert items[..n] == items;
    } else {
      assert items[..|items|-1][..n] == items[..n];
      ResolvedInOrder(items[..|items|-1], releases, n);
    }
  }

  datatype Answer = Added | ApiError | RateLimited

  datatype Stats = Stats(added: nat, skipped: int)

  /** How far the loop gets: up to and including the first rate-limited release. */
  function Attempted(releases: seq<ReleaseId>, answers: nat -> Answer): (r: nat)
    ensures r <= |releases|
    ensures forall i :: 0 <= i < r - 1 ==> answers(i) != RateLimited
    ensures r < |releases| ==> r > 0 && answers(r - 1) == RateLimited
  {
    if releases == [] then 0 else
      var n := |releases| - 1;
      var before := Attempted(releases[..n], answers);
      if before == n && (n == 0 || answers(n - 1) != RateLimited) then n + 1 else before
  }

  function IsAdded(answers: nat -> Answer): nat -> bool {
    (i: nat) => answers(i) == Added
  }

  function Positions(n: nat): seq<nat> {
    seq(n, i requires 0 <= i < n => i)
  }

  /** `add_with_pacing`: every item of the pile ends up added or skipped, and the releases tried are a
      duplicate-free prefix of the resolved ones that stops at a rate limit only. */
  method AddWithPacing(items: seq<ItemId>, releases: seq<ReleaseId>, answers: nat -> Answer)
    returns (stats: Stats, tried: seq<ReleaseId>)
    requires NoDup(releases) && |releases| <= |items|
    ensures stats.added + stats.skipped == |items| && stats.skipped >= 0
    ensures tried <= releases && NoDup(tried) && |tried| == Attempted(releases, answers)
    ensures forall i :: 0 <= i < |tried| - 1 ==> answers(i) != RateLimited
    ensures |tried| < |releases| ==> tried != [] && answers(|tried| - 1) == RateLimited
    ensures stats.added == Count(Positions(|tried|), IsAdded(answers))
  {
    var added, skipped := 0, |items| - |releases|;
    var i, go := 0, true;
    while i < |releases| && go
      invariant 0 <= i <= |releases| && skipped >= 0
      invariant added + skipped == |items| - if go then |releases| - i else 0
      invariant i > 0 ==> go == (answers(i - 1) != RateLimited)
      invariant i == 0 ==> go
      invariant added == Count(Positions(i), IsAdded(answers))
      invariant Attempted(releases[..i], answers) == i
      decreases |releases| - i
    {
      OneMore(releases, answers, i);
      OneMoreAdded(answers, i);
      match answers(i) {
        case Added => added := added + 1;
        case ApiError => skipped := skipped + 1;
        case RateLimited =>
          skipped := skipped + 1 + (|releases| - i - 1);
          go := false;
      }
      i := i + 1;
    }
    assert releases[..|releases|] == releases;
    if !go {
      StopsForGood(releases, answers, i);
    }
    stats, tried := Stats(added, skipped), releases[..i];
  }

  lemma {:induction false} OneMore(releases: seq<ReleaseId>, answers: nat -> Answer, i: nat)
    requires i < |releases| && Attempted(releases[..i], answers) == i && (i > 0 ==> answers(i - 1) != RateLimited)
    ensures Attempted(releases[..i+1], answers) == i + 1
  {
    assert releases[..i+1][..i] == releases[..i];
  }

  lemma {:induction false} OneMoreAdded(answers: nat -> Answer, i: nat)
    ensures Count(Positions(i + 1), IsAdded(answers)) == Count(Positions(i), IsAdded(answers)) + if answers(i) == Added then 1 else 0
  {
    assert Positions(i + 1) == Positions(i) + [i];
    FilterSnoc<nat>(Positions(i), i, IsAdded(answers));
  }

  lemma {:induction false} StopsForGood(releases: seq<ReleaseId>, answers: nat -> Answer, i: nat)
    requires 0 < i <= |releases| && answers(i - 1) == RateLimited && Attempted(releases[..i], answers) == i
    ensures Attempted(releases, answers) == i
    decreases |releases|
  {
    if i == |releases| {
      assert releases[..i] == releases;
    } else {
      var n := |releases| - 1;
      assert releases[..n][..i] == releases[..i];
      StopsForGood(releases[..n], answers, i);
    }
  }

  datatype Result = Failed(reason: Reason) | Done(addedCount: nat, skippedCount: int)

  datatype Reason = NoItems | NotAuthenticated | NothingResolved | TooMany | NothingAdded

  /** `call`: a successful result says how many of the releases tried were added and accounts for every
      other item of the pile as skipped; every other outcome has its reason, the first that applies. */
  method Call(items: seq<ItemId>, authenticated: bool, releases: map<ItemId, Option<ReleaseId>>, answers: nat -> Answer)
    returns (r: Result)
    ensures var ids := ResolveReleases(items, releases);
            var added := Count(Positions(Attempted(ids, answers)), IsAdded(answers));
      r == if items == [] then Failed(NoItems)
           else if !authenticated then Failed(NotAuthenticated)
           else if ids == [] then Failed(NothingResolved)
           else if |ids| > 50 then Failed(TooMany)
           else if added == 0 then Failed(NothingAdded)
           else Done(added, |items| - added)
    ensures r.Done? ==> r.addedCount > 0 && r.addedCount + r.skippedCount == |items| && r.skippedCount >= 0
  {
    if items == [] {
      return Failed(NoItems);
    }
    if !authenticated {
      return Failed(NotAuthenticated);
    }
    var ids := ResolveReleases(items, releases);
    if ids == [] {
      return Failed(NothingResolved);
    }
    if |ids| > MAX_RELEASES_PER_ACTION {
      return Failed(TooMany);
    }
    var stats, tried := AddWithPacing(items, ids, answers);
    if stats.added == 0 {
      return Failed(NothingAdded);
    }
    return Done(stats.added, stats.skipped);
  }
}

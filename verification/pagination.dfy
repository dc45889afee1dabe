/** Paged inventory fetching: the page loop, the two-pass strategy, the completeness and coverage
    verdicts and the progress percentage, against one fixed remote inventory.
 */
module Pagination {
  import opened Sequences

  const PER_PAGE := 100
  const PAGE_LIMIT := 100

  /** A seller's inventory in descending order.  An empty one may report 0 pages or 1. */
  datatype Remote<T> = Remote(items: seq<T>, pagesWhenEmpty: nat) {
    predicate Valid() { pagesWhenEmpty <= 1 }

    function Pages(): nat {
      if items == [] then pagesWhenEmpty else (|items| + PER_PAGE - 1) / PER_PAGE
    }
  }

  datatype Order = Desc | Asc

  datatype Response<T> = Page(listings: seq<T>, pages: nat) | PageLimitError

  function Reversed<T>(s: seq<T>): (r: seq<T>)
    ensures |r| == |s|
    ensures forall i :: 0 <= i < |s| ==> r[i] == s[|s| - 1 - i]
  {
    if s == [] then [] else [s[|s|-1]] + Reversed(s[..|s|-1])
  }

  function InOrder<T>(remote: Remote<T>, order: Order): (r: seq<T>)
    ensures |r| == |remote.items|
  {
    if order == Desc then remote.items else Reversed(remote.items)
  }

  /** One request: pages above 100 are refused, whatever the inventory holds. */
  function SellerInventory<T>(remote: Remote<T>, page: nat, order: Order): Response<T>
    requires page >= 1
  {
    if page > PAGE_LIMIT then PageLimitError
    else
      var all := InOrder(remote, order);
      Page(all[Min(PER_PAGE * (page - 1), |all|)..Min(PER_PAGE * page, |all|)], remote.Pages())
  }

  // ----- progress

  /** `(current / total * 100).round` clamped to 0..100, rounding halves up. */
  function Percent(current: nat, total: nat): int {
    if total == 0 then 0 else Min(100, (200 * current + total) / (2 * total))
  }

  function Ticks(current: nat, total: nat): seq<int> {
    seq(current + 1, i requires 0 <= i => Percent(i, total))
  }

  class ProgressTracker {
    var current: nat
    var total: nat
    var pct: int
    ghost var history: seq<int>   // every percentage written to the store since the total was set

    constructor ()
      ensures current == 0 && total == 0 && pct == 0 && history == []
    {
      current, total, pct, history := 0, 0, 0, [];
    }

    method SetTotal(value: nat)
      requires current == 0
      modifies this
      ensures total == value && current == 0 && history == Ticks(0, value)
      ensures pct == Percent(current, total)
    {
      total := value;
      pct := Percent(current, total);
      history := [pct];
    }

    method Increment()
      requires history == Ticks(current, total)
      modifies this
      ensures total == old(total) && current == old(current) + 1 && history == Ticks(current, total)
      ensures pct == Percent(current, total)
    {
      current := current + 1;
      pct := Percent(current, total);
      history := history + [pct];
    }
  }

  // ----- one pass

  datatype FetchResult<T> = FetchResult(listings: seq<T>, pagesFetched: nat, hitPageLimit: bool)

  function AtLeastOne(m: nat): nat {
    if m == 0 then 1 else m
  }

  /** Pages of listings one pass collects. */
  function PagesCollected<T>(remote: Remote<T>, maxPages: Option<nat>): nat {
    if remote.items == [] then 0
    else
      var reachable := Min(remote.Pages(), PAGE_LIMIT);
      match maxPages
      case None => reachable
      case Some(m) => Min(reachable, AtLeastOne(m))
  }

  predicate HitsLimit<T>(remote: Remote<T>, maxPages: Option<nat>) {
    remote.items != [] && remote.Pages() > PAGE_LIMIT && (maxPages.None? || maxPages.value > PAGE_LIMIT)
  }

  /** The outcome of one pass in closed form. */
  function Fetched<T>(remote: Remote<T>, order: Order, maxPages: Option<nat>): FetchResult<T> {
    var pages := PagesCollected(remote, maxPages);
    FetchResult(
      InOrder(remote, order)[..Min(PER_PAGE * pages, |remote.items|)],
      if remote.items == [] || HitsLimit(remote, maxPages) then pages + 1 else pages,
      HitsLimit(remote, maxPages))
  }

  lemma {:induction false} PageArithmetic<T>(remote: Remote<T>)
    requires remote.items != []
    ensures remote.Pages() >= 1
    ensures PER_PAGE * (remote.Pages() - 1) < |remote.items| <= PER_PAGE * remote.Pages()
  {
  }

  lemma {:induction false} CollectPage<T>(remote: Remote<T>, page: nat, order: Order)
    requires 1 <= page <= PAGE_LIMIT && (remote.items != [] ==> page <= remote.Pages())
    ensures var r := SellerInventory(remote, page, order); var all := InOrder(remote, order);
      && r.Page?
      && (r.listings == [] <==> remote.items == [])
      && all[..Min(PER_PAGE * (page - 1), |all|)] + r.listings == all[..Min(PER_PAGE * page, |all|)]
  {
    if remote.items != [] {
      PageArithmetic(remote);
      assert PER_PAGE * (page - 1) < |remote.items|;
    }
  }

  /** The last page fetched was not the last one wanted. */
  ghost predicate UnderWay<T>(remote: Remote<T>, pages: nat, maxPages: Option<nat>) {
    pages > 0 ==> remote.items != [] && pages < remote.Pages() && (maxPages.None? || pages < maxPages.value)
  }

  /** Progress as it stands between two requests, when it is tracked at all. */
  ghost predicate Tracked(progress: ProgressTracker?)
    reads progress
  {
    progress != null ==> progress.history == Ticks(progress.current, progress.total)
  }

  /** One of `count` requests from the one numbered `sent` on fails. */
  ghost predicate AnyFails(fails: nat -> bool, sent: nat, count: nat) {
    exists k :: sent <= k < sent + count && fails(k)
  }

  lemma {:induction false} AnyFailsSplit(fails: nat -> bool, sent: nat, first: nat, second: nat)
    ensures AnyFails(fails, sent, first + second)
            <==> AnyFails(fails, sent, first) || AnyFails(fails, sent + first, second)
  {
  }

  /** The page loop of `InventoryFetcher#fetch`, from the request numbered `sent` on; requests can fail
      with errors other than the page limit.  It ends within 101 requests, and raises exactly when
      one of the requests it has to make fails. */
  method Fetch<T>(remote: Remote<T>, order: Order, maxPages: Option<nat>, progress: ProgressTracker?,
                  fails: nat -> bool, sent: nat)
    returns (r: FetchResult<T>, requests: nat, raised: bool)
    requires remote.Valid() && Tracked(progress)
    modifies progress
    ensures requests <= PAGE_LIMIT + 1
    ensures raised <==> AnyFails(fails, sent, Fetched(remote, order, maxPages).pagesFetched)
    ensures !raised ==> r == Fetched(remote, order, maxPages) && requests == r.pagesFetched
    ensures Tracked(progress) && (progress != null ==> progress.total == old(progress.total))
    ensures progress != null && !raised ==> progress.current == old(progress.current) + PagesCollected(remote, maxPages)
    ensures progress != null && raised ==> progress.current == old(progress.current) + requests - 1
  {
    var listings: seq<T> := [];
    var pagesFetched, hit, more := 0, false, true;
    requests, raised := 0, false;
    while more
      invariant requests == pagesFetched <= PAGE_LIMIT + 1 && !raised
      invariant forall k :: sent <= k < sent + requests ==> !fails(k)
      invariant Tracked(progress) && (progress != null ==> progress.total == old(progress.total))
      invariant more ==> !hit && pagesFetched <= PAGE_LIMIT && UnderWay(remote, pagesFetched, maxPages)
      invariant more ==> pagesFetched < Fetched(remote, order, maxPages).pagesFetched
      invariant more ==> listings == InOrder(remote, order)[..Min(PER_PAGE * pagesFetched, |remote.items|)]
      invariant more && progress != null ==> progress.current == old(progress.current) + pagesFetched
      invariant !more ==> FetchResult(listings, pagesFetched, hit) == Fetched(remote, order, maxPages)
      invariant !more && progress != null
                ==> progress.current == old(progress.current) + PagesCollected(remote, maxPages)
      decreases PAGE_LIMIT + 2 - pagesFetched, more
    {
      pagesFetched := pagesFetched + 1;
      requests := requests + 1;
      if fails(sent + requests - 1) {
        raised := true;
        r := FetchResult(listings, pagesFetched, hit);
        return;
      }
      var response := SellerInventory(remote, pagesFetched, order);
      if response.PageLimitError? {
        hit, more := true, false;
      } else {
        if pagesFetched == 1 && remote.items != [] { PageArithmetic(remote); }
        CollectPage(remote, pagesFetched, order);
        if response.listings == [] {
          more := false;
        } else {
          listings := listings + response.listings;
          if progress != null {
            progress.Increment();
          }
          more := !(pagesFetched >= response.pages || (maxPages.Some? && pagesFetched >= maxPages.value));
        }
      }
    }
    r := FetchResult(listings, pagesFetched, hit);
  }

  // ----- the two-pass strategy

  datatype Coverage = Unknown | NearComplete | Partial

  /** `CoverageClassifier#call`. */
  function ClassifyCoverage(observed: nat, maxPages: Option<nat>): Coverage {
    if maxPages.Some? && observed > maxPages.value then Partial
    else if observed > PAGE_LIMIT then Partial
    else NearComplete
  }

  datatype SyncResult<R> = SyncResult(listings: seq<R>, complete: bool, coverage: Option<Coverage>)

  function FilterMap<T, R>(s: seq<T>, f: T -> Option<R>): seq<R> {
    if s == [] then [] else
      match f(s[|s|-1])
      case None => FilterMap(s[..|s|-1], f)
      case Some(r) => FilterMap(s[..|s|-1], f) + [r]
  }

  /** The records of the listings that have one, in order. */
  lemma {:induction false} FilterMapExactly<T, R>(a: seq<T>, x: T, f: T -> Option<R>)
    ensures FilterMap([], f) == []
    ensures FilterMap(a + [x], f) == FilterMap(a, f) + match f(x) case None => [] case Some(r) => [r]
  {
    assert (a + [x])[..|a|] == a;
  }

  function Passes<T>(remote: Remote<T>): nat {
    if remote.Pages() > PAGE_LIMIT then 2 else 1
  }

  function Fetchable<T>(remote: Remote<T>, maxPages: Option<nat>): nat {
    var reachable := Min(remote.Pages(), PAGE_LIMIT);
    if maxPages.Some? then Min(reachable, maxPages.value) else reachable
  }

  function AscPass<T>(remote: Remote<T>, maxPages: Option<nat>): FetchResult<T> {
    if remote.Pages() > PAGE_LIMIT then Fetched(remote, Asc, maxPages) else FetchResult([], 0, false)
  }

  /** Everything both passes bring back. */
  function RawListings<T>(remote: Remote<T>, maxPages: Option<nat>): seq<T> {
    Fetched(remote, Desc, maxPages).listings + AscPass(remote, maxPages).listings
  }

  function ComputeComplete<T>(desc: FetchResult<T>, asc: FetchResult<T>, totalPages: nat): bool {
    !desc.hitPageLimit && !asc.hitPageLimit && desc.pagesFetched + asc.pagesFetched >= totalPages
  }

  function ComputeCoverage<T>(desc: FetchResult<T>, asc: FetchResult<T>, maxPages: Option<nat>): Coverage {
    ClassifyCoverage(if desc.pagesFetched >= asc.pagesFetched then desc.pagesFetched else asc.pagesFetched, maxPages)
  }

  /** Whether a sync of this remote is declared complete. */
  function IsComplete<T>(remote: Remote<T>, maxPages: Option<nat>): bool {
    ComputeComplete(Fetched(remote, Desc, maxPages), AscPass(remote, maxPages), remote.Pages())
  }

  /** The coverage a sync of this remote reports. */
  function CoverageOf<T>(remote: Remote<T>, maxPages: Option<nat>): Coverage {
    ComputeCoverage(Fetched(remote, Desc, maxPages), AscPass(remote, maxPages), maxPages)
  }

  /** Requests a sync has to make: the probe and both passes. */
  function RequestsOf<T>(remote: Remote<T>, maxPages: Option<nat>): nat {
    1 + Fetched(remote, Desc, maxPages).pagesFetched + AscPass(remote, maxPages).pagesFetched
  }

  /** `fetch_asc_pass`. */
  method FetchAscPass<T>(remote: Remote<T>, maxPages: Option<nat>, progress: ProgressTracker?, fails: nat -> bool, sent: nat)
    returns (r: FetchResult<T>, raised: bool)
    requires remote.Valid() && Tracked(progress)
    modifies progress
    ensures raised <==> AnyFails(fails, sent, AscPass(remote, maxPages).pagesFetched)
    ensures !raised ==> r == AscPass(remote, maxPages)
    ensures Tracked(progress) && (progress != null ==> progress.total == old(progress.total))
    ensures progress != null && !raised
            ==> progress.current == old(progress.current) + if Passes(remote) == 2 then PagesCollected(remote, maxPages) else 0
  {
    if remote.Pages() <= PAGE_LIMIT {
      return FetchResult([], 0, false), false;
    }
    var requests;
    r, requests, raised := Fetch(remote, Asc, maxPages, progress, fails, sent);
  }

  /** `PublicApi#call`, with or without a progress tracker.  It has no result exactly when one of the
      requests it has to make fails. */
  method PublicApiSync<T, R>(remote: Remote<T>, maxPages: Option<nat>, normalize: T -> Option<R>,
                             progress: ProgressTracker?, fails: nat -> bool)
    returns (r: Option<SyncResult<R>>)
    requires remote.Valid() && (progress != null ==> progress.current == 0)
    modifies progress
    ensures r == None <==> AnyFails(fails, 0, RequestsOf(remote, maxPages))
    ensures r != None ==> r.value == SyncResult(FilterMap(RawListings(remote, maxPages), normalize),
                                                IsComplete(remote, maxPages), Some(CoverageOf(remote, maxPages)))
    ensures progress != null && fails(0) ==> progress.history == old(progress.history)
    ensures !fails(0) ==> Tracked(progress)
    ensures r != None && progress != null
            ==> progress.total == Fetchable(remote, maxPages) * Passes(remote)
                && progress.current == PagesCollected(remote, maxPages) * Passes(remote)
  {
    RequestsFail(remote, maxPages, fails);
    TimesPasses(remote, PagesCollected(remote, maxPages));
    if fails(0) {
      return None;
    }
    var totalPages := SellerInventory(remote, 1, Desc).pages;
    if progress != null {
      progress.SetTotal(Fetchable(remote, maxPages) * Passes(remote));
    }
    var desc, requests, raised := Fetch(remote, Desc, maxPages, progress, fails, 1);
    if raised {
      return None;
    }
    var asc;
    asc, raised := FetchAscPass(remote, maxPages, progress, fails, 1 + requests);
    if raised {
      return None;
    }
    var records := FilterMap(desc.listings + asc.listings, normalize);
    return Some(SyncResult(records, ComputeComplete(desc, asc, totalPages), Some(ComputeCoverage(desc, asc, maxPages))));
  }

  lemma {:induction false} TimesPasses<T>(remote: Remote<T>, n: nat)
    ensures n * Passes(remote) == n + if Passes(remote) == 2 then n else 0
  {
  }

  lemma {:induction false} RequestsFail<T>(remote: Remote<T>, maxPages: Option<nat>, fails: nat -> bool)
    ensures var d, a := Fetched(remote, Desc, maxPages).pagesFetched, AscPass(remote, maxPages).pagesFetched;
            AnyFails(fails, 0, RequestsOf(remote, maxPages))
            <==> fails(0) || AnyFails(fails, 1, d) || AnyFails(fails, 1 + d, a)
  {
    var d, a := Fetched(remote, Desc, maxPages).pagesFetched, AscPass(remote, maxPages).pagesFetched;
    AnyFailsSplit(fails, 0, 1, d + a);
    AnyFailsSplit(fails, 1, d, a);
    assert AnyFails(fails, 0, 1) <==> fails(0);
  }

  // ----- what the verdicts mean

  lemma {:induction false} RawParts<T>(remote: Remote<T>, maxPages: Option<nat>)
    ensures var take := Min(PER_PAGE * PagesCollected(remote, maxPages), |remote.items|);
            0 <= take <= |remote.items|
            && RawListings(remote, maxPages)
               == remote.items[..take] + if remote.Pages() > PAGE_LIMIT then Reversed(remote.items)[..take] else []
  {
    if remote.items != [] {
      PageArithmetic(remote);
    }
  }

  lemma {:induction false} SliceMembers<T>(s: seq<T>, take: nat, twoPass: bool, i: nat)
    requires NoDup(s) && take <= |s| && i < |s|
    ensures var raw := s[..take] + if twoPass then Reversed(s)[..take] else [];
            (s[i] in raw <==> i < take || (twoPass && i >= |s| - take)) && forall x :: x in raw ==> x in s
  {
    PrefixMember(s, take, i);
    ReversedMember(s, take, i);
    ReversedWithin(s, take);
  }

  /** Listing `i` is brought back exactly when it lies in the first pages or, with two passes, in
      the last pages; everything brought back is remote. */
  lemma {:induction false} FetchedExactly<T>(remote: Remote<T>, maxPages: Option<nat>, i: nat)
    requires remote.Valid() && NoDup(remote.items) && i < |remote.items|
    ensures var reach := PER_PAGE * PagesCollected(remote, maxPages);
            remote.items[i] in RawListings(remote, maxPages)
            <==> i < reach || (remote.Pages() > PAGE_LIMIT && i >= |remote.items| - reach)
    ensures forall x :: x in RawListings(remote, maxPages) ==> x in remote.items
  {
    var take := Min(PER_PAGE * PagesCollected(remote, maxPages), |remote.items|);
    RawParts(remote, maxPages);
    SliceMembers(remote.items, take, remote.Pages() > PAGE_LIMIT, i);
  }

  lemma {:induction false} ReversedWithin<T>(s: seq<T>, take: nat)
    requires take <= |s|
    ensures forall x :: x in Reversed(s)[..take] ==> x in s
  {
    forall x | x in Reversed(s)[..take] ensures x in s {
      var k :| 0 <= k < take && Reversed(s)[..take][k] == x;
      assert x == s[|s| - 1 - k];
    }
  }

  lemma {:induction false} PrefixMember<T>(s: seq<T>, take: nat, i: nat)
    requires NoDup(s) && take <= |s| && i < |s|
    ensures s[i] in s[..take] <==> i < take
  {
    if i < take {
      assert s[..take][i] == s[i];
    }
  }

  lemma {:induction false} ReversedMember<T>(s: seq<T>, take: nat, i: nat)
    requires NoDup(s) && take <= |s| && i < |s|
    ensures s[i] in Reversed(s)[..take] <==> i >= |s| - take
  {
    if i >= |s| - take {
      assert Reversed(s)[..take][|s| - 1 - i] == s[i];
    }
  }

  /** A snapshot declared complete holds every remote listing. */
  lemma {:induction false} CompleteIsSound<T>(remote: Remote<T>, maxPages: Option<nat>)
    requires remote.Valid() && NoDup(remote.items) && IsComplete(remote, maxPages)
    ensures forall x :: x in remote.items <==> x in RawListings(remote, maxPages)
  {
    forall i | 0 <= i < |remote.items|
      ensures remote.items[i] in RawListings(remote, maxPages)
    {
      PageArithmetic(remote);
      FetchedExactly(remote, maxPages, i);
    }
    if remote.items != [] {
      FetchedExactly(remote, maxPages, 0);
    } else {
      assert RawListings(remote, maxPages) == [];
    }
  }

  /** When a run is declared complete, from the remote's page count and the caller's limit alone. */
  lemma {:induction false} CompleteIff<T>(remote: Remote<T>, maxPages: Option<nat>)
    requires remote.Valid()
    ensures var p := remote.Pages();
            IsComplete(remote, maxPages) <==>
              || remote.items == []
              || (p <= 100 && (maxPages.None? || maxPages.value >= p || p == 1))
              || (p > 100 && maxPages.Some? && maxPages.value <= 100 && 2 * maxPages.value >= p)
  {
    if remote.items != [] {
      PageArithmetic(remote);
    }
  }

  /** Without a caller's limit: up to 200 pages nothing is missed, even though the limit is hit and
      the run is not declared complete; beyond 200 exactly the middle slice is missed. */
  lemma {:induction false} MissedSlice<T>(remote: Remote<T>, i: nat)
    requires remote.Valid() && NoDup(remote.items) && i < |remote.items|
    ensures remote.Pages() <= 200 ==> remote.items[i] in RawListings(remote, None)
    ensures remote.Pages() > 200 ==>
              (remote.items[i] !in RawListings(remote, None) <==> 10_000 <= i < |remote.items| - 10_000)
    ensures IsComplete(remote, None) <==> remote.Pages() <= 100
  {
    PageArithmetic(remote);
    FetchedExactly(remote, None, i);
  }

  /** Without a caller's limit: a run brings back everything and is still not declared complete if and
      only if the inventory has from 101 to 200 pages. */
  lemma {:induction false} UndeclaredIff<T>(remote: Remote<T>)
    requires remote.Valid() && NoDup(remote.items)
    ensures (forall i :: 0 <= i < |remote.items| ==> remote.items[i] in RawListings(remote, None)) && !IsComplete(remote, None)
            <==> 100 < remote.Pages() <= 200
  {
    CompleteIff(remote, None);
    forall i | 0 <= i < |remote.items| && remote.Pages() <= 2 * PAGE_LIMIT
      ensures remote.items[i] in RawListings(remote, None)
    {
      MissedSlice(remote, i);
    }
    if remote.Pages() > 2 * PAGE_LIMIT {
      PageArithmetic(remote);
      MissedSlice(remote, PER_PAGE * PAGE_LIMIT);
    }
  }

  /** What one pass of a two-pass fetch reaches. */
  function Reach<T>(remote: Remote<T>, maxPages: Option<nat>): nat {
    PER_PAGE * PagesCollected(remote, maxPages)
  }

  predicate FetchedTwice<T(==)>(remote: Remote<T>, maxPages: Option<nat>, i: nat)
    requires i < |remote.items|
  {
    remote.items[i] in Fetched(remote, Desc, maxPages).listings && remote.items[i] in AscPass(remote, maxPages).listings
  }

  lemma {:induction false} TwoPasses<T>(remote: Remote<T>, maxPages: Option<nat>)
    requires remote.Valid() && remote.Pages() > PAGE_LIMIT
    ensures 0 < Reach(remote, maxPages) <= PER_PAGE * PAGE_LIMIT < |remote.items|
    ensures maxPages == None ==> Reach(remote, maxPages) == PER_PAGE * PAGE_LIMIT
    ensures Fetched(remote, Desc, maxPages).listings == remote.items[..Reach(remote, maxPages)]
    ensures AscPass(remote, maxPages).listings == Reversed(remote.items)[..Reach(remote, maxPages)]
  {
    PageArithmetic(remote);
  }

  /** With two passes, listing `i` is fetched by both exactly when it lies in the first pages and in
      the last ones. */
  lemma {:induction false} FetchedTwiceIff<T>(remote: Remote<T>, maxPages: Option<nat>, i: nat)
    requires remote.Valid() && NoDup(remote.items) && i < |remote.items| && remote.Pages() > PAGE_LIMIT
    ensures FetchedTwice(remote, maxPages, i)
            <==> |remote.items| - Reach(remote, maxPages) <= i < Reach(remote, maxPages)
  {
    TwoPasses(remote, maxPages);
    PrefixMember(remote.items, Reach(remote, maxPages), i);
    ReversedMember(remote.items, Reach(remote, maxPages), i);
  }

  /** Some listing is fetched by both passes if and only if the inventory holds fewer than twice what
      one pass reaches: without a caller's limit, fewer than 20,000 listings. */
  lemma {:induction false} PassesOverlapIff<T>(remote: Remote<T>, maxPages: Option<nat>)
    requires remote.Valid() && NoDup(remote.items) && remote.Pages() > PAGE_LIMIT
    ensures (exists i :: 0 <= i < |remote.items| && FetchedTwice(remote, maxPages, i))
            <==> |remote.items| < 2 * Reach(remote, maxPages)
    ensures maxPages == None ==> 2 * Reach(remote, maxPages) == 20_000
  {
    TwoPasses(remote, maxPages);
    var first := |remote.items| - Reach(remote, maxPages);
    FetchedTwiceIff(remote, maxPages, first);
    if i :| 0 <= i < |remote.items| && FetchedTwice(remote, maxPages, i) {
      FetchedTwiceIff(remote, maxPages, i);
    }
  }

  /** The overlap is real: of any 19,950 listings on 200 pages both passes fetch number 9,960. */
  lemma {:induction false} PassesOverlap<T>(items: seq<T>)
    requires |items| == 19_950 && NoDup(items)
    ensures Remote(items, 0).Pages() == 200 && FetchedTwice(Remote(items, 0), None, 9_960)
  {
    TwoPasses(Remote(items, 0), None);
    FetchedTwiceIff(Remote(items, 0), None, 9_960);
  }

  /** Partial coverage means the 100-page limit was hit, or a limit of zero pages was asked for;
      a run cut short by a positive limit up to 100 is near-complete all the same. */
  lemma {:induction false} PartialIff<T>(remote: Remote<T>, maxPages: Option<nat>)
    requires remote.Valid()
    ensures CoverageOf(remote, maxPages) == Partial
            <==> || (remote.items != [] && remote.Pages() > 100 && (maxPages == None || maxPages.value > 100))
                 || maxPages == Some(0)
    ensures CoverageOf(remote, maxPages) != Unknown
  {
    if remote.items != [] {
      PageArithmetic(remote);
    }
  }

  /** For a non-empty inventory and a positive or absent limit, the predicted number of pages is the
      number collected: the percentage starts at 0, never falls, stays in range and ends at 100. */
  lemma {:induction false} ProgressExact<T>(remote: Remote<T>, maxPages: Option<nat>)
    requires remote.Valid() && remote.items != [] && maxPages != Some(0)
    ensures var total := Fetchable(remote, maxPages) * Passes(remote);
            var done := PagesCollected(remote, maxPages) * Passes(remote);
            var ticks := Ticks(done, total);
            && done == total > 0
            && ticks[0] == 0 && ticks[done] == 100
            && (forall i, j :: 0 <= i && j == i + 1 <= done ==> 0 <= ticks[i] <= ticks[j] <= 100)
  {
    PredictionExact(remote, maxPages);
    TicksClimb(Fetchable(remote, maxPages) * Passes(remote));
  }

  lemma {:induction false} PredictionExact<T>(remote: Remote<T>, maxPages: Option<nat>)
    requires remote.Valid() && remote.items != [] && maxPages != Some(0)
    ensures Fetchable(remote, maxPages) == PagesCollected(remote, maxPages) > 0
    ensures Fetchable(remote, maxPages) * Passes(remote) > 0
  {
    PageArithmetic(remote);
  }

  lemma {:induction false} TicksClimb(total: nat)
    requires total > 0
    ensures var ticks := Ticks(total, total);
            && ticks[0] == 0 && ticks[total] == 100
            && (forall i, j :: 0 <= i && j == i + 1 <= total ==> 0 <= ticks[i] <= ticks[j] <= 100)
  {
    var ticks := Ticks(total, total);
    PercentClimbs(0, total);
    forall i, j | 0 <= i && j == i + 1 <= total ensures 0 <= ticks[i] <= ticks[j] <= 100 {
      PercentClimbs(i, total);
    }
  }

  lemma {:induction false} PercentClimbs(i: nat, total: nat)
    requires i < total
    ensures 0 <= Percent(i, total) <= Percent(i + 1, total) <= 100
    ensures Percent(0, total) == 0 && Percent(total, total) == 100
  {
    var d := 2 * total;
    DivMonotone(200 * i + total, 200 * (i + 1) + total, d);
    DivExact(0, total, d);
    DivExact(100, total, d);
    assert 200 * total + total == 100 * d + total;
  }

  /** The percentage is the exact one rounded to the nearest whole number, halves up. */
  lemma {:induction false} PercentRounds(current: nat, total: nat)
    ensures total == 0 ==> Percent(current, total) == 0
    ensures 0 < total && current <= total ==> 2 * total * Percent(current, total) <= 200 * current + total < 2 * total * (Percent(current, total) + 1)
    ensures 0 < total < current ==> Percent(current, total) == 100
  {
    if total > 0 {
      var d := 2 * total;
      DivExact(100, total, d);
      DivMonotone(if current <= total then 200 * current + total else 200 * total + total,
                  if current <= total then 200 * total + total else 200 * current + total, d);
    }
  }

  lemma {:induction false} MulMonotone(d: nat, x: int, y: int)
    requires x <= y
    ensures d * x <= d * y
  {
  }

  lemma {:induction false} DivMonotone(a: nat, b: nat, d: nat)
    requires a <= b && d > 0
    ensures a / d <= b / d
  {
    var x, y := a / d, b / d;
    if y + 1 <= x {
      MulMonotone(d, y + 1, x);
    }
  }

  lemma {:induction false} DivExact(q: nat, r: nat, d: nat)
    requires r < d
    ensures (q * d + r) / d == q
  {
    var x := (q * d + r) / d;
    if q + 1 <= x {
      MulMonotone(d, q + 1, x);
    } else if x <= q - 1 {
      MulMonotone(d, x, q - 1);
    }
  }
}

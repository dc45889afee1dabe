/** The crate strategies: which listings each crate would take from a pool, given the ids
    already shown.  Scores, tie-breaks, the clock and the daily seed are parameters.
 */
module Selection {
  import opened Sequences
  import opened Catalog
  import opened GreedyCap
  import opened StyleTiers

  const CRATE_SIZE := 50
  const WINDOWS := [7, 14, 30, 90, 365]
  const DAY := 86400
  const HIDDEN_GEM_CAP := 3
  const MAX_ENGAGEMENT := 100
  const MIN_WANTS := 10
  const AXIS_THRESHOLD := 3

  datatype Theme = Theme(axis: Axis, name: Name)

  /** What one curation run fixes.  The sorts may break ties in any way (`Valid`), because
      Ruby's `sort_by` is not stable. */
  datatype Env = Env(
    wallCount: nat,
    score: Listing -> real,
    wallScore: Listing -> real,
    scoreSort: seq<Listing> -> seq<Listing>,
    wallSort: seq<Listing> -> seq<Listing>,
    popularSort: seq<Listing> -> seq<Listing>,
    themeSort: seq<Theme> -> seq<Theme>,
    floors: Floors,
    deep: (nat, nat) -> bool,
    now: int,
    seed: nat)
  {
    ghost predicate Valid() {
      && (forall s :: multiset(scoreSort(s)) == multiset(s) && Descending(scoreSort(s), score))
      && (forall s :: multiset(wallSort(s)) == multiset(s) && Descending(wallSort(s), wallScore))
      && (forall s :: multiset(popularSort(s)) == multiset(s))
      && (forall s :: multiset(themeSort(s)) == multiset(s))
    }
  }

  /** One way to sort by score: insertion, ties in input order. */
  function InsertByScore(s: seq<Listing>, x: Listing, score: Listing -> real): (r: seq<Listing>)
    ensures multiset(r) == multiset(s) + multiset{x}
  {
    if s == [] then [x]
    else if score(s[|s|-1]) < score(x) then
      assert s == s[..|s|-1] + [s[|s|-1]];
      InsertByScore(s[..|s|-1], x, score) + [s[|s|-1]]
    else s + [x]
  }

  function SortByScore(s: seq<Listing>, score: Listing -> real): (r: seq<Listing>)
    ensures multiset(r) == multiset(s)
  {
    if s == [] then [] else
      assert s == s[..|s|-1] + [s[|s|-1]];
      InsertByScore(SortByScore(s[..|s|-1], score), s[|s|-1], score)
  }

  lemma {:induction false} InsertDescends(s: seq<Listing>, x: Listing, score: Listing -> real)
    requires Descending(s, score)
    ensures Descending(InsertByScore(s, x, score), score)
  {
    if s != [] && score(s[|s|-1]) < score(x) {
      var init, last := s[..|s|-1], s[|s|-1];
      InsertDescends(init, x, score);
      var r := InsertByScore(init, x, score);
      forall i | 0 <= i < |r| ensures score(r[i]) >= score(last) {
        assert r[i] in multiset(init) + multiset{x};
        if r[i] != x {
          var k :| 0 <= k < |init| && init[k] == r[i];
        }
      }
    }
  }

  lemma {:induction false} SortDescends(s: seq<Listing>, score: Listing -> real)
    ensures Descending(SortByScore(s, score), score)
  {
    if s != [] {
      SortDescends(s[..|s|-1], score);
      InsertDescends(SortByScore(s[..|s|-1], score), s[|s|-1], score);
    }
  }

  /** Whatever the scores, there are sorts that meet `Valid`: the theorems below are not vacuous. */
  lemma {:induction false} ValidSortsExist(env: Env)
    ensures env.(scoreSort := (s: seq<Listing>) => SortByScore(s, env.score),
                 wallSort := (s: seq<Listing>) => SortByScore(s, env.wallScore),
                 popularSort := (s: seq<Listing>) => s,
                 themeSort := (s: seq<Theme>) => s).Valid()
  {
    forall s: seq<Listing> ensures Descending(SortByScore(s, env.score), env.score)
                           ensures Descending(SortByScore(s, env.wallScore), env.wallScore)
    {
      SortDescends(s, env.score);
      SortDescends(s, env.wallScore);
    }
  }

  /** `curation_axis`: genres when at least three of them are deep, styles otherwise. */
  function IsDeep(pool: seq<Listing>, env: Env): Name -> bool {
    (n: Name) => env.deep(NameCount(Genres, pool, n), |pool|)
  }

  function AxisFor(pool: seq<Listing>, env: Env): Axis {
    if Count(AllNames(Genres, pool), IsDeep(pool, env)) >= AXIS_THRESHOLD then Genres else Styles
  }

  function DeepGenres(pool: seq<Listing>, env: Env): seq<Name> {
    Filter(AllNames(Genres, pool), IsDeep(pool, env))
  }

  lemma {:induction false} DeepGenresMember(pool: seq<Listing>, env: Env, n: Name)
    ensures n in DeepGenres(pool, env) <==> OccursDeep(pool, env, n)
    ensures NoDup(DeepGenres(pool, env))
  {
    AllNamesAreCounted(Genres, pool, n);
    FilterNoDup(AllNames(Genres, pool), IsDeep(pool, env));
  }

  /** The page is built on genres if and only if three different primary genres occur and are deep. */
  lemma {:induction false} AxisIsGenresIff(pool: seq<Listing>, env: Env)
    ensures AxisFor(pool, env) == Genres
      <==> exists a, b, c :: a != b && b != c && a != c
             && OccursDeep(pool, env, a) && OccursDeep(pool, env, b) && OccursDeep(pool, env, c)
  {
    var deep := DeepGenres(pool, env);
    assert AxisFor(pool, env) == Genres <==> |deep| >= 3;
    DeepGenresMember(pool, env, 0);
    if |deep| >= 3 {
      DeepGenresMember(pool, env, deep[0]);
      DeepGenresMember(pool, env, deep[1]);
      DeepGenresMember(pool, env, deep[2]);
    }
    if a, b, c :| a != b && b != c && a != c
                  && OccursDeep(pool, env, a) && OccursDeep(pool, env, b) && OccursDeep(pool, env, c) {
      DeepGenresMember(pool, env, a);
      DeepGenresMember(pool, env, b);
      DeepGenresMember(pool, env, c);
      SubsetLength([a, b, c], deep);
    }
  }

  ghost predicate OccursDeep(pool: seq<Listing>, env: Env, n: Name) {
    NameCount(Genres, pool, n) > 0 && env.deep(NameCount(Genres, pool, n), |pool|)
  }

  // ----- the wall

  function GenreCap(count: nat): nat {
    if count / 3 >= 2 then count / 3 else 2
  }

  function AnyKey(): Option<Name> -> bool {
    (k: Option<Name>) => true
  }

  function RankedWall(pool: seq<Listing>, env: Env): seq<Listing> {
    env.wallSort(Filter(pool, OutsideIds({})))
  }

  /** `Wall#select`: rank, cap per key (no key counts as a key), drop repeated ids, take `count`. */
  method WallSelect(pool: seq<Listing>, axis: Axis, env: Env) returns (selected: seq<Listing>)
    ensures selected == WallSelection(pool, axis, env)
  {
    var kept := CapFilter(RankedWall(pool, env), KeyOn(axis), AnyKey(), GenreCap(env.wallCount));
    selected := Take(UniqById(kept), env.wallCount);
  }

  function WallSelection(pool: seq<Listing>, axis: Axis, env: Env): seq<Listing> {
    Take(UniqById(Capped(RankedWall(pool, env), KeyOn(axis), AnyKey(), GenreCap(env.wallCount))), env.wallCount)
  }

  lemma {:induction false} KeepsAll(pool: seq<Listing>)
    ensures Filter(pool, OutsideIds({})) == pool
  {
    if pool != [] {
      var front, last := pool[..|pool|-1], pool[|pool|-1];
      KeepsAll(front);
      FilterSnoc(front, last, OutsideIds({}));
      assert pool == front + [last];
    }
  }

  lemma {:induction false} RankedWallRearranges(pool: seq<Listing>, env: Env)
    requires DistinctIds(pool) && env.Valid()
    ensures var ranked := RankedWall(pool, env);
            multiset(ranked) == multiset(pool) && Descending(ranked, env.wallScore) && NoDup(ranked)
    ensures forall l :: l in RankedWall(pool, env) <==> l in pool
  {
    KeepsAll(pool);
    var ranked := RankedWall(pool, env);
    PermutedDrawn(pool, ranked, pool);
    DistinctIdsNoDup(ranked);
  }

  lemma {:induction false} WallIsGreedy(pool: seq<Listing>, axis: Axis, env: Env)
    requires DistinctIds(pool) && env.Valid()
    ensures WallSelection(pool, axis, env)
         == Greedy(RankedWall(pool, env), KeyOn(axis), AnyKey(), GenreCap(env.wallCount), env.wallCount)
    ensures DrawnFrom(WallSelection(pool, axis, env), pool)
  {
    RankedWallRearranges(pool, env);
    CappedDrawn(RankedWall(pool, env), axis, GenreCap(env.wallCount), pool);
    UniqKeepsDistinct(Capped(RankedWall(pool, env), KeyOn(axis), AnyKey(), GenreCap(env.wallCount)));
  }

  lemma {:induction false} CappedDrawn(ranked: seq<Listing>, axis: Axis, cap: nat, pool: seq<Listing>)
    requires DistinctIds(pool) && NoDup(ranked) && forall l :: l in ranked ==> l in pool
    ensures DrawnFrom(Capped(ranked, KeyOn(axis), AnyKey(), cap), pool)
  {
    CappedWithin(ranked, KeyOn(axis), AnyKey(), cap);
    NoDupDrawn(Capped(ranked, KeyOn(axis), AnyKey(), cap), pool);
  }

  /** A wall the policy allows: distinct listings of the pool, at most the cap for each key,
      listings without a key included, at most `wallCount` in all. */
  ghost predicate AllowedWall(chosen: seq<Listing>, pool: seq<Listing>, axis: Axis, env: Env) {
    Allowed(chosen, pool, KeyOn(axis), AnyKey(), GenreCap(env.wallCount), env.wallCount)
  }

  /** The wall is allowed, has min(count, sum of min(cap, matches)) listings, is as large as any
      allowed wall, and none of its size scores higher in total. */
  lemma {:induction false} WallOptimal(pool: seq<Listing>, axis: Axis, env: Env, chosen: seq<Listing>, keys: seq<Option<Name>>)
    requires DistinctIds(pool) && env.Valid() && AllowedWall(chosen, pool, axis, env)
    requires NoDup(keys) && forall l :: l in pool ==> KeyOn(axis)(l) in keys
    ensures var wall := WallSelection(pool, axis, env);
            && AllowedWall(wall, pool, axis, env)
            && |wall| == Min(env.wallCount, CapSum(pool, KeyOn(axis), AnyKey(), GenreCap(env.wallCount), keys))
            && |chosen| <= |wall|
            && (|chosen| == |wall| ==> Sum(chosen, env.wallScore) <= Sum(wall, env.wallScore))
  {
    RankedWallRearranges(pool, env);
    WallIsGreedy(pool, axis, env);
    var ranked, cap := RankedWall(pool, env), GenreCap(env.wallCount);
    GreedyAllowed(ranked, KeyOn(axis), AnyKey(), cap, env.wallCount);
    GreedySize(ranked, KeyOn(axis), AnyKey(), cap, env.wallCount, keys);
    GreedyOptimal(ranked, KeyOn(axis), AnyKey(), cap, env.wallCount, env.wallScore, chosen);
    CapSumPermuted(pool, ranked, KeyOn(axis), AnyKey(), cap, keys);
  }

  /** The policy in numbers: under every key, no key included, the wall shows at most a third of its
      count and never fewer than two; while it has room it shows that many wherever the pool has them. */
  lemma {:induction false} WallCapped(pool: seq<Listing>, axis: Axis, env: Env, k: Option<Name>)
    requires DistinctIds(pool) && env.Valid()
    ensures var wall := WallSelection(pool, axis, env);
            var cap := if env.wallCount / 3 >= 2 then env.wallCount / 3 else 2;
            var shown, held := Count(wall, HasKey(KeyOn(axis), k)), Count(pool, HasKey(KeyOn(axis), k));
            && |wall| <= env.wallCount && shown <= cap
            && (|wall| < env.wallCount ==> shown == if held < cap then held else cap)
  {
    RankedWallRearranges(pool, env);
    WallIsGreedy(pool, axis, env);
    var ranked, cap := RankedWall(pool, env), GenreCap(env.wallCount);
    var kept := Capped(ranked, KeyOn(axis), AnyKey(), cap);
    CappedCount(ranked, KeyOn(axis), AnyKey(), cap, k);
    CountPermuted(pool, ranked, HasKey(KeyOn(axis), k));
    CountOfPrefix(kept, if env.wallCount < |kept| then env.wallCount else |kept|, HasKey(KeyOn(axis), k));
    assert kept[..|kept|] == kept;
  }

  /** The explore page runs the same cap over all ready stores' listings, with its own limit. */
  method CrossStoreWall(listings: seq<Listing>, env: Env, limit: nat) returns (diverse: seq<Listing>)
    requires env.Valid()
    ensures diverse == WallSelection(listings, AxisFor(listings, env), env.(wallCount := limit))
  {
    if listings == [] {
      assert |multiset(env.wallSort([]))| == |env.wallSort([])|;
      diverse := [];
    } else {
      KeepsAll(listings);
      var kept := CapFilter(env.wallSort(listings), KeyOn(AxisFor(listings, env)), AnyKey(), GenreCap(limit));
      diverse := Take(UniqById(kept), limit);
    }
  }

  lemma {:induction false} CapSumPermuted(a: seq<Listing>, b: seq<Listing>, key: Listing -> Option<Name>,
                                          admits: Option<Name> -> bool, cap: nat, keys: seq<Option<Name>>)
    requires multiset(a) == multiset(b)
    ensures CapSum(a, key, admits, cap, keys) == CapSum(b, key, admits, cap, keys)
  {
    if keys != [] {
      CapSumPermuted(a, b, key, admits, cap, keys[..|keys|-1]);
      CountPermuted(a, b, HasKey(key, keys[|keys|-1]));
    }
  }

  // ----- the featured strategies

  function ListedSince(cutoff: int): Listing -> bool {
    (l: Listing) => l.listedAt.Some? && l.listedAt.value >= cutoff
  }

  /** `recent_in_window`. */
  function Recent(candidates: seq<Listing>, days: int, env: Env): seq<Listing> {
    Filter(candidates, ListedSince(env.now - days * DAY))
  }

  /** `select_from_windows`: the first window holding enough listings, if any. */
  function FirstWindow(candidates: seq<Listing>, windows: seq<int>, env: Env): Option<int> {
    if windows == [] then None
    else if |Recent(candidates, windows[0], env)| >= MIN_RECORDS then Some(windows[0])
    else FirstWindow(candidates, windows[1..], env)
  }

  /** Unseen and listed no longer ago than the cutoff. */
  function UnseenSince(seen: set<int>, cutoff: int): Listing -> bool {
    (l: Listing) => l.id !in seen && l.listedAt.Some? && l.listedAt.value >= cutoff
  }

  lemma {:induction false} RecentExactly(pool: seq<Listing>, seen: set<int>, days: int, env: Env)
    ensures Recent(Filter(pool, OutsideIds(seen)), days, env) == Filter(pool, UnseenSince(seen, env.now - days * 86400))
  {
    FilterTwice(pool, OutsideIds(seen), ListedSince(env.now - days * DAY), UnseenSince(seen, env.now - days * 86400));
  }

  function NewArrivals(pool: seq<Listing>, seen: set<int>, env: Env): seq<Listing> {
    var candidates := Filter(pool, OutsideIds(seen));
    if candidates == [] then []
    else match FirstWindow(candidates, WINDOWS, env)
      case Some(days) => env.scoreSort(Recent(candidates, days, env))
      case None => env.scoreSort(candidates)
  }

  function ThemeListings(theme: Theme, pool: seq<Listing>, env: Env): seq<Listing> {
    env.popularSort(Filter(pool, Matches(theme.axis, theme.name)))
  }

  function Eligible(pool: seq<Listing>, env: Env): Theme -> bool {
    (t: Theme) => |ThemeListings(t, pool, env)| >= MIN_RECORDS
  }

  function ThemesNamed(axis: Axis, names: seq<Name>): seq<Theme> {
    if names == [] then [] else ThemesNamed(axis, names[..|names|-1]) + [Theme(axis, names[|names|-1])]
  }

  /** `thematic_candidates`. */
  function ThemeCandidates(axis: Axis, pool: seq<Listing>, env: Env): seq<Theme> {
    match axis
    case Styles => ThemesNamed(Styles, RotationStyles(pool, env.floors))
    case Genres => ThemesNamed(Styles, AllNames(Styles, pool)) + ThemesNamed(Genres, AllNames(Genres, pool))
  }

  function Thematic(pool: seq<Listing>, axis: Axis, seen: set<int>, env: Env): Option<(Name, seq<Listing>)> {
    var candidates := Filter(pool, OutsideIds(seen));
    if candidates == [] then None else
      var themes := env.themeSort(Filter(ThemeCandidates(axis, pool, env), Eligible(candidates, env)));
      if themes == [] then None else
        var theme := themes[env.seed % |themes|];
        var matched := ThemeListings(theme, candidates, env);
        if |matched| < MIN_RECORDS then None else Some((theme.name, env.scoreSort(matched)))
  }

  /** `obscure_listing?`. */
  function Obscure(): Listing -> bool {
    (l: Listing) =>
      var want := match l.want case Some(n) => n case None => 0;
      var have := match l.have case Some(n) => n case None => 0;
      l.pictured && want >= MIN_WANTS && want + have <= MAX_ENGAGEMENT && want > have
  }

  function ProperKey(): Option<Name> -> bool {
    (k: Option<Name>) => k.Some?
  }

  function ObscureIn(pool: seq<Listing>, seen: set<int>): seq<Listing> {
    Filter(Filter(pool, OutsideIds(seen)), Obscure())
  }

  /** `HiddenGems#select`: the same counter loop, with listings without a key refused. */
  method HiddenGemsSelect(pool: seq<Listing>, axis: Axis, seen: set<int>, env: Env) returns (gems: seq<Listing>)
    ensures gems == HiddenGems(pool, axis, seen, env)
  {
    var obscure := ObscureIn(pool, seen);
    if |obscure| < MIN_RECORDS {
      gems := [];
    } else {
      gems := CapFilter(env.scoreSort(obscure), KeyOn(axis), ProperKey(), HIDDEN_GEM_CAP);
    }
  }

  function HiddenGems(pool: seq<Listing>, axis: Axis, seen: set<int>, env: Env): seq<Listing> {
    var obscure := ObscureIn(pool, seen);
    if |obscure| < MIN_RECORDS then [] else Capped(env.scoreSort(obscure), KeyOn(axis), ProperKey(), HIDDEN_GEM_CAP)
  }

  /** `CrateStrategies::Genre#select`. */
  function GenreCandidates(pool: seq<Listing>, axis: Axis, name: Name, seen: set<int>): seq<Listing> {
    Filter(Filter(pool, OutsideIds(seen)), Matches(axis, name))
  }

  function GenreSelect(pool: seq<Listing>, axis: Axis, name: Name, seen: set<int>, env: Env): seq<Listing> {
    var candidates := env.scoreSort(GenreCandidates(pool, axis, name, seen));
    if |candidates| < MIN_RECORDS then [] else Take(candidates, CRATE_SIZE)
  }

  // ----- every strategy draws unseen listings, each once

  ghost predicate Fresh(s: seq<Listing>, pool: seq<Listing>, seen: set<int>) {
    DrawnFrom(s, pool) && forall l :: l in s ==> l.id !in seen
  }

  lemma {:induction false} CandidatesFresh(pool: seq<Listing>, seen: set<int>)
    requires DistinctIds(pool)
    ensures Fresh(Filter(pool, OutsideIds(seen)), pool, seen)
  {
    FilterDrawn(pool, OutsideIds(seen), pool);
  }

  lemma {:induction false} FilterFresh(s: seq<Listing>, keep: Listing -> bool, pool: seq<Listing>, seen: set<int>)
    requires DistinctIds(pool) && Fresh(s, pool, seen)
    ensures Fresh(Filter(s, keep), pool, seen)
  {
    FilterDrawn(s, keep, pool);
  }

  lemma {:induction false} PermutedFresh(a: seq<Listing>, b: seq<Listing>, pool: seq<Listing>, seen: set<int>)
    requires DistinctIds(pool) && Fresh(a, pool, seen) && multiset(a) == multiset(b)
    ensures Fresh(b, pool, seen) && |a| == |b|
    ensures forall l :: l in a <==> l in b
  {
    PermutedDrawn(a, b, pool);
  }

  lemma {:induction false} TakeFresh(s: seq<Listing>, n: nat, pool: seq<Listing>, seen: set<int>)
    requires Fresh(s, pool, seen)
    ensures Fresh(Take(s, n), pool, seen)
  {
  }

  lemma {:induction false} NewArrivalsFresh(pool: seq<Listing>, seen: set<int>, env: Env)
    requires DistinctIds(pool) && env.Valid()
    ensures Fresh(NewArrivals(pool, seen, env), pool, seen)
  {
    CandidatesFresh(pool, seen);
    var candidates := Filter(pool, OutsideIds(seen));
    match FirstWindow(candidates, WINDOWS, env)
    case Some(days) =>
      FilterFresh(candidates, ListedSince(env.now - days * DAY), pool, seen);
      PermutedFresh(Recent(candidates, days, env), env.scoreSort(Recent(candidates, days, env)), pool, seen);
    case None =>
      PermutedFresh(candidates, env.scoreSort(candidates), pool, seen);
  }

  lemma {:induction false} ThemeListingsFresh(theme: Theme, pool: seq<Listing>, seen: set<int>, env: Env)
    requires DistinctIds(pool) && env.Valid()
    ensures Fresh(env.scoreSort(ThemeListings(theme, Filter(pool, OutsideIds(seen)), env)), pool, seen)
  {
    CandidatesFresh(pool, seen);
    var raw := Filter(Filter(pool, OutsideIds(seen)), Matches(theme.axis, theme.name));
    FilterFresh(Filter(pool, OutsideIds(seen)), Matches(theme.axis, theme.name), pool, seen);
    PermutedFresh(raw, env.popularSort(raw), pool, seen);
    PermutedFresh(env.popularSort(raw), env.scoreSort(env.popularSort(raw)), pool, seen);
  }

  lemma {:induction false} ThematicFresh(pool: seq<Listing>, axis: Axis, seen: set<int>, env: Env)
    requires DistinctIds(pool) && env.Valid()
    ensures var r := Thematic(pool, axis, seen, env); r.Some? ==> Fresh(r.value.1, pool, seen)
  {
    var themes := EligibleThemes(pool, axis, seen, env);
    if themes != [] {
      ThemeListingsFresh(themes[env.seed % |themes|], pool, seen, env);
    }
  }

  lemma {:induction false} HiddenGemsFresh(pool: seq<Listing>, axis: Axis, seen: set<int>, env: Env)
    requires DistinctIds(pool) && env.Valid()
    ensures Fresh(HiddenGems(pool, axis, seen, env), pool, seen)
  {
    CandidatesFresh(pool, seen);
    var obscure := ObscureIn(pool, seen);
    FilterFresh(Filter(pool, OutsideIds(seen)), Obscure(), pool, seen);
    var ranked := env.scoreSort(obscure);
    PermutedFresh(obscure, ranked, pool, seen);
    DistinctIdsNoDup(ranked);
    CappedWithin(ranked, KeyOn(axis), ProperKey(), HIDDEN_GEM_CAP);
    NoDupDrawn(Capped(ranked, KeyOn(axis), ProperKey(), HIDDEN_GEM_CAP), pool);
  }

  /** What a bin draws from: the unseen listings of the pool that answer to its name. */
  lemma {:induction false} GenreCandidatesExactly(pool: seq<Listing>, axis: Axis, name: Name, seen: set<int>, l: Listing)
    ensures l in GenreCandidates(pool, axis, name, seen)
      <==> l in pool && l.id !in seen
           && if axis == Genres then l.genres != [] && l.genres[0] == name else name in l.styles
  {
    NamesExactly(l, name);
  }

  lemma {:induction false} GenreSelectFresh(pool: seq<Listing>, axis: Axis, name: Name, seen: set<int>, env: Env)
    requires DistinctIds(pool) && env.Valid()
    ensures var candidates := GenreCandidates(pool, axis, name, seen);
            Fresh(candidates, pool, seen) && Fresh(env.scoreSort(candidates), pool, seen)
            && |env.scoreSort(candidates)| == |candidates|
            && (forall l :: l in env.scoreSort(candidates) <==> l in candidates)
    ensures Fresh(GenreSelect(pool, axis, name, seen, env), pool, seen)
  {
    CandidatesFresh(pool, seen);
    FilterFresh(Filter(pool, OutsideIds(seen)), Matches(axis, name), pool, seen);
    var candidates := GenreCandidates(pool, axis, name, seen);
    PermutedFresh(candidates, env.scoreSort(candidates), pool, seen);
    TakeFresh(env.scoreSort(candidates), CRATE_SIZE, pool, seen);
  }

  /** The unseen listings of a theme. */
  function UnseenInTheme(pool: seq<Listing>, seen: set<int>, t: Theme): seq<Listing> {
    Filter(Filter(pool, OutsideIds(seen)), Matches(t.axis, t.name))
  }

  function EligibleThemes(pool: seq<Listing>, axis: Axis, seen: set<int>, env: Env): seq<Theme> {
    env.themeSort(Filter(ThemeCandidates(axis, pool, env), Eligible(Filter(pool, OutsideIds(seen)), env)))
  }

  lemma {:induction false} ThemeIsEligible(pool: seq<Listing>, axis: Axis, seen: set<int>, env: Env, t: Theme)
    requires env.Valid()
    ensures t in EligibleThemes(pool, axis, seen, env)
      <==> t in ThemeCandidates(axis, pool, env) && |UnseenInTheme(pool, seen, t)| >= MIN_RECORDS
    ensures |ThemeListings(t, Filter(pool, OutsideIds(seen)), env)| == |UnseenInTheme(pool, seen, t)|
  {
    var unseen := Filter(pool, OutsideIds(seen));
    var eligible := Filter(ThemeCandidates(axis, pool, env), Eligible(unseen, env));
    SameLength(ThemeListings(t, unseen, env), UnseenInTheme(pool, seen, t));
    SameMembers(EligibleThemes(pool, axis, seen, env), eligible, t);
  }

  lemma {:induction false} SameMembers<T>(a: seq<T>, b: seq<T>, x: T)
    requires multiset(a) == multiset(b)
    ensures x in a <==> x in b
  {
    assert x in multiset(a) <==> x in multiset(b);
  }

  lemma {:induction false} ThemesNamedMembers(axis: Axis, names: seq<Name>, t: Theme)
    ensures t in ThemesNamed(axis, names) <==> t.axis == axis && t.name in names
  {
    if names != [] {
      ThemesNamedMembers(axis, names[..|names|-1], t);
      assert names == names[..|names|-1] + [names[|names|-1]];
    }
  }

  /** The candidate themes: on the style axis the rotation styles, on the genre axis every style and
      every genre that occurs. */
  lemma {:induction false} ThemeCandidatesExactly(axis: Axis, pool: seq<Listing>, env: Env, t: Theme)
    ensures var count := NameCount(t.axis, pool, t.name);
      t in ThemeCandidates(axis, pool, env)
      <==> if axis == Genres then count > 0
           else t.axis == Styles && count >= 4 && env.floors.rotation(|pool|) <= count < env.floors.main(|pool|)
  {
    match axis
    case Styles =>
      TiersPartition(pool, env.floors);
      ThemesNamedMembers(Styles, RotationStyles(pool, env.floors), t);
    case Genres =>
      ThemesNamedMembers(Styles, AllNames(Styles, pool), t);
      ThemesNamedMembers(Genres, AllNames(Genres, pool), t);
      AllNamesAreCounted(t.axis, pool, t.name);
  }

  /** There is a theme exactly when some candidate theme has four unseen listings.  The day's seed
      turns through these themes, and the crate holds all the unseen listings of the one it points
      at, best first. */
  lemma {:induction false} ThematicPicks(pool: seq<Listing>, axis: Axis, seen: set<int>, env: Env)
    requires env.Valid()
    ensures Thematic(pool, axis, seen, env) == None
      <==> forall t :: t in ThemeCandidates(axis, pool, env) ==> |UnseenInTheme(pool, seen, t)| < 4
    ensures var themes := EligibleThemes(pool, axis, seen, env);
      && (forall t :: t in themes <==> t in ThemeCandidates(axis, pool, env) && |UnseenInTheme(pool, seen, t)| >= 4)
      && (themes != [] ==> Thematic(pool, axis, seen, env).Some?)
      && (themes != [] ==>
            PickedTheme(pool, seen, env, themes[env.seed % |themes|], Thematic(pool, axis, seen, env).value))
  {
    var themes := EligibleThemes(pool, axis, seen, env);
    forall t ensures t in themes <==> t in ThemeCandidates(axis, pool, env) && |UnseenInTheme(pool, seen, t)| >= MIN_RECORDS {
      ThemeIsEligible(pool, axis, seen, env, t);
    }
    NonEmptyHasMember(themes);
    if themes != [] {
      var t := themes[env.seed % |themes|];
      assert t in themes;
      ThemeIsEligible(pool, axis, seen, env, t);
      assert Thematic(pool, axis, seen, env) == Some((t.name, env.scoreSort(ThemeListings(t, Filter(pool, OutsideIds(seen)), env))));
      assert PickedTheme(pool, seen, env, t, Thematic(pool, axis, seen, env).value);
    }
  }

  ghost predicate PickedTheme(pool: seq<Listing>, seen: set<int>, env: Env, t: Theme, picked: (Name, seq<Listing>)) {
    && picked.0 == t.name && |UnseenInTheme(pool, seen, t)| >= 4
    && multiset(picked.1) == multiset(UnseenInTheme(pool, seen, t)) && Descending(picked.1, env.score)
  }

  lemma {:induction false} SameLength<T>(a: seq<T>, b: seq<T>)
    requires multiset(a) == multiset(b)
    ensures |a| == |b|
  {
    assert |multiset(a)| == |a| && |multiset(b)| == |b|;
  }

  /** What counts as obscure: a picture, ten wants or more, at most a hundred wants and haves
      together, and more wants than haves; a missing number counts as none. */
  lemma {:induction false} ObscureExactly(pool: seq<Listing>, seen: set<int>, l: Listing)
    ensures var want := if l.want.Some? then l.want.value else 0; var have := if l.have.Some? then l.have.value else 0;
      l in ObscureIn(pool, seen)
      <==> l in pool && l.id !in seen && l.pictured && want >= 10 && want + have <= 100 && want > have
  {
  }

  /** Hidden gems in numbers: nothing at all under four obscure listings, otherwise three of each key
      or as many as there are, and none without a key. */
  lemma {:induction false} HiddenGemsCapped(pool: seq<Listing>, axis: Axis, seen: set<int>, env: Env, k: Option<Name>)
    requires env.Valid()
    ensures var held := Count(ObscureIn(pool, seen), HasKey(KeyOn(axis), k));
            Count(HiddenGems(pool, axis, seen, env), HasKey(KeyOn(axis), k))
            == if |ObscureIn(pool, seen)| < 4 || k == None then 0 else if held < 3 then held else 3
    ensures |ObscureIn(pool, seen)| < 4 ==> HiddenGems(pool, axis, seen, env) == []
  {
    var obscure := ObscureIn(pool, seen);
    CountPermuted(obscure, env.scoreSort(obscure), HasKey(KeyOn(axis), k));
    CappedCount(env.scoreSort(obscure), KeyOn(axis), ProperKey(), HIDDEN_GEM_CAP, k);
  }

  /** The hidden-gems crate cut at any size is optimal among unseen obscure listings with a key,
      three to a key. */
  lemma {:induction false} HiddenGemsOptimal(pool: seq<Listing>, axis: Axis, seen: set<int>, env: Env, size: nat, chosen: seq<Listing>)
    requires DistinctIds(pool) && env.Valid() && |ObscureIn(pool, seen)| >= MIN_RECORDS
    requires Allowed(chosen, ObscureIn(pool, seen), KeyOn(axis), ProperKey(), HIDDEN_GEM_CAP, size)
    ensures var gems := Take(HiddenGems(pool, axis, seen, env), size);
            && Allowed(gems, ObscureIn(pool, seen), KeyOn(axis), ProperKey(), HIDDEN_GEM_CAP, size)
            && |chosen| <= |gems|
            && (|chosen| == |gems| ==> Sum(chosen, env.score) <= Sum(gems, env.score))
  {
    CandidatesFresh(pool, seen);
    var obscure := ObscureIn(pool, seen);
    FilterFresh(Filter(pool, OutsideIds(seen)), Obscure(), pool, seen);
    PermutedFresh(obscure, env.scoreSort(obscure), pool, seen);
    DistinctIdsNoDup(env.scoreSort(obscure));
    GreedyAllowed(env.scoreSort(obscure), KeyOn(axis), ProperKey(), HIDDEN_GEM_CAP, size);
    GreedyOptimal(env.scoreSort(obscure), KeyOn(axis), ProperKey(), HIDDEN_GEM_CAP, size, env.score, chosen);
  }

  lemma {:induction false} NewArrivalsByWindow(pool: seq<Listing>, seen: set<int>, env: Env, i: nat)
    requires DistinctIds(pool) && env.Valid() && i <= |WINDOWS|
    requires var unseen := Filter(pool, OutsideIds(seen));
             && (forall j :: 0 <= j < i ==> |Recent(unseen, WINDOWS[j], env)| < MIN_RECORDS)
             && (i < |WINDOWS| ==> |Recent(unseen, WINDOWS[i], env)| >= MIN_RECORDS)
    ensures Descending(NewArrivals(pool, seen, env), env.score)
    ensures forall l :: l in NewArrivals(pool, seen, env) <==>
              l in pool && l.id !in seen
              && (i < |WINDOWS| ==> ListedSince(env.now - WINDOWS[i] * DAY)(l))
  {
    var windows, unseen := WINDOWS, Filter(pool, OutsideIds(seen));
    WindowFound(unseen, windows, env, i);
    CandidatesFresh(pool, seen);
    if i < |windows| {
      NewArrivalsInWindow(pool, seen, env, windows[i]);
    } else {
      PermutedFresh(unseen, env.scoreSort(unseen), pool, seen);
    }
  }

  /** Fewer than four unseen listings in each of the first `i` windows, and four in the next if any. */
  ghost predicate NarrowestIs(pool: seq<Listing>, seen: set<int>, now: int, i: nat)
    requires i <= 5
  {
    var days := [7, 14, 30, 90, 365];
    && (forall j :: 0 <= j < i ==> Count(pool, UnseenSince(seen, now - days[j] * 86400)) < 4)
    && (i < 5 ==> Count(pool, UnseenSince(seen, now - days[i] * 86400)) >= 4)
  }

  lemma {:induction false} WindowCounts(pool: seq<Listing>, seen: set<int>, env: Env, i: nat)
    requires i <= 5 && NarrowestIs(pool, seen, env.now, i)
    ensures var unseen := Filter(pool, OutsideIds(seen));
            && (forall j :: 0 <= j < i ==> |Recent(unseen, WINDOWS[j], env)| < MIN_RECORDS)
            && (i < 5 ==> |Recent(unseen, WINDOWS[i], env)| >= MIN_RECORDS)
  {
    var unseen := Filter(pool, OutsideIds(seen));
    var days := [7, 14, 30, 90, 365];
    forall j | 0 <= j < i ensures |Recent(unseen, WINDOWS[j], env)| < MIN_RECORDS {
      assert days[j] == WINDOWS[j];
      RecentExactly(pool, seen, WINDOWS[j], env);
    }
    if i < 5 {
      RecentExactly(pool, seen, WINDOWS[i], env);
    }
  }

  /** New Arrivals shows the narrowest of the windows of 7, 14, 30, 90 and 365 days with four unseen
      listings, ranked; only when none has four does it show all that is unseen. */
  lemma {:induction false} NewArrivalsNarrowest(pool: seq<Listing>, seen: set<int>, env: Env, i: nat)
    requires DistinctIds(pool) && env.Valid() && i <= 5 && NarrowestIs(pool, seen, env.now, i)
    ensures Descending(NewArrivals(pool, seen, env), env.score)
    ensures forall l :: l in NewArrivals(pool, seen, env) <==>
              && l in pool && l.id !in seen
              && (i < 5 ==> l.listedAt.Some? && l.listedAt.value >= env.now - [7, 14, 30, 90, 365][i] * 86400)
  {
    WindowCounts(pool, seen, env, i);
    NewArrivalsByWindow(pool, seen, env, i);
  }

  lemma {:induction false} NewArrivalsInWindow(pool: seq<Listing>, seen: set<int>, env: Env, days: int)
    requires DistinctIds(pool) && env.Valid()
    requires FirstWindow(Filter(pool, OutsideIds(seen)), WINDOWS, env) == Some(days)
    ensures var unseen := Filter(pool, OutsideIds(seen));
            NewArrivals(pool, seen, env) == if unseen == [] then [] else env.scoreSort(Recent(unseen, days, env))
    ensures Descending(NewArrivals(pool, seen, env), env.score)
    ensures forall l :: l in NewArrivals(pool, seen, env) <==>
              l in pool && l.id !in seen && ListedSince(env.now - days * DAY)(l)
  {
    var unseen := Filter(pool, OutsideIds(seen));
    CandidatesFresh(pool, seen);
    var recent := Recent(unseen, days, env);
    FilterFresh(unseen, ListedSince(env.now - days * DAY), pool, seen);
    PermutedFresh(recent, env.scoreSort(recent), pool, seen);
  }

  lemma {:induction false} WindowFound(candidates: seq<Listing>, windows: seq<int>, env: Env, i: nat)
    requires i <= |windows|
    requires forall j :: 0 <= j < i ==> |Recent(candidates, windows[j], env)| < MIN_RECORDS
    requires i < |windows| ==> |Recent(candidates, windows[i], env)| >= MIN_RECORDS
    ensures FirstWindow(candidates, windows, env) == if i < |windows| then Some(windows[i]) else None
    decreases i
  {
    if i > 0 {
      assert |Recent(candidates, windows[0], env)| < MIN_RECORDS;
      forall j | 0 <= j < i - 1 ensures |Recent(candidates, windows[1..][j], env)| < MIN_RECORDS {
        assert windows[1..][j] == windows[j+1];
      }
      WindowFound(candidates, windows[1..], env, i - 1);
    }
  }
}

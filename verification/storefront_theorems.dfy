/** What every storefront built by module Storefront satisfies. */
module StorefrontTheorems {
  import opened Sequences
  import opened Catalog
  import opened StyleTiers
  import opened Selection
  import opened Storefront

  // ----- disjointness

  lemma {:induction false} FreshConcat(a: seq<Listing>, b: seq<Listing>, pool: seq<Listing>, seen: set<int>)
    requires Fresh(a, pool, seen) && Fresh(b, pool, seen + Ids(a))
    ensures Fresh(a + b, pool, seen)
  {
    var s := a + b;
    forall i, j | 0 <= i < j < |s| ensures s[i].id != s[j].id {
      if i < |a| && |a| <= j {
        assert s[i] in a && s[j] in b;
        assert s[i].id in Ids(a);
      }
    }
  }

  lemma {:induction false} ViableFresh(crate: Crate, pool: seq<Listing>, seen: set<int>)
    requires Fresh(crate.listings, pool, seen)
    ensures Fresh(Listings(Viable(crate)), pool, seen)
  {
    if |crate.listings| >= MIN_RECORDS {
      assert Viable(crate)[..0] == [];
      assert Listings(Viable(crate)) == crate.listings;
    }
  }

  lemma {:induction false} ShownFresh(a: seq<Crate>, b: seq<Crate>, pool: seq<Listing>, seen: set<int>)
    requires Fresh(Listings(a), pool, seen) && Fresh(Listings(b), pool, seen + Ids(Listings(a)))
    ensures Fresh(Listings(a + b), pool, seen)
    ensures Ids(Listings(a + b)) == Ids(Listings(a)) + Ids(Listings(b))
  {
    ListingsConcat(a, b);
    ShownIdsConcat(a, b);
    FreshConcat(Listings(a), Listings(b), pool, seen);
  }

  lemma {:induction false} NewArrivalsStageFresh(pool: seq<Listing>, env: Env, seen: set<int>)
    requires DistinctIds(pool) && env.Valid()
    ensures Fresh(Listings(NewArrivalsStage(pool, env, seen)), pool, seen)
  {
    NewArrivalsFresh(pool, seen, env);
    ViableFresh(NewArrivalsCrate(Take(NewArrivals(pool, seen, env), CRATE_SIZE)), pool, seen);
  }

  lemma {:induction false} ThemedCrateFresh(picked: Option<(Name, seq<Listing>)>, pool: seq<Listing>, seen: set<int>)
    requires picked.Some? ==> Fresh(picked.value.1, pool, seen)
    ensures Fresh(Listings(ThemedCrate(picked)), pool, seen)
  {
    if picked.Some? {
      ViableFresh(ThematicCrate(picked.value.0, Take(picked.value.1, CRATE_SIZE)), pool, seen);
    }
  }

  lemma {:induction false} ThematicStageFresh(pool: seq<Listing>, axis: Axis, env: Env, seen: set<int>)
    requires DistinctIds(pool) && env.Valid()
    ensures Fresh(Listings(ThematicStage(pool, axis, env, seen)), pool, seen)
  {
    ThematicFresh(pool, axis, seen, env);
    ThemedCrateFresh(Thematic(pool, axis, seen, env), pool, seen);
  }

  lemma {:induction false} HiddenGemsStageFresh(pool: seq<Listing>, axis: Axis, env: Env, seen: set<int>)
    requires DistinctIds(pool) && env.Valid()
    ensures Fresh(Listings(HiddenGemsStage(pool, axis, env, seen)), pool, seen)
  {
    HiddenGemsFresh(pool, axis, seen, env);
    ViableFresh(HiddenGemsCrate(Take(HiddenGems(pool, axis, seen, env), CRATE_SIZE)), pool, seen);
  }

  lemma {:induction false} FeaturedFresh(pool: seq<Listing>, axis: Axis, env: Env, seen: set<int>)
    requires DistinctIds(pool) && env.Valid()
    ensures Fresh(Listings(Featured(pool, axis, env, seen)), pool, seen)
  {
    var a := NewArrivalsStage(pool, env, seen);
    var b := ThematicStage(pool, axis, env, seen + Ids(Listings(a)));
    NewArrivalsStageFresh(pool, env, seen);
    ThematicStageFresh(pool, axis, env, seen + Ids(Listings(a)));
    ShownFresh(a, b, pool, seen);
    var seenB := seen + Ids(Listings(a)) + Ids(Listings(b));
    assert seenB == seen + Ids(Listings(a + b));
    HiddenGemsStageFresh(pool, axis, env, seenB);
    ShownFresh(a + b, HiddenGemsStage(pool, axis, env, seenB), pool, seen);
  }

  lemma {:induction false} AllocateFresh(pool: seq<Listing>, axis: Axis, env: Env, order: seq<Name>, seen: set<int>)
    requires DistinctIds(pool) && env.Valid()
    ensures Fresh(Listings(Allocate(pool, axis, env, order, seen)), pool, seen)
  {
    if order != [] {
      var init, name := order[..|order|-1], order[|order|-1];
      AllocateFresh(pool, axis, env, init, seen);
      var built := Allocate(pool, axis, env, init, seen);
      var seen' := seen + Ids(Listings(built));
      GenreSelectFresh(pool, axis, name, seen', env);
      ViableFresh(Bin(name, GenreSelect(pool, axis, name, seen', env)), pool, seen');
      ShownFresh(built, BinStage(pool, axis, env, name, seen'), pool, seen);
    }
  }

  lemma {:induction false} ListingsOfOne(c: Crate)
    ensures Listings([c]) == c.listings
  {
    assert [c][..0] == [];
  }

  lemma {:induction false} ListingsMiddle(front: seq<Crate>, c: Crate, back: seq<Crate>)
    ensures Listings(front + ([c] + back)) == Listings(front) + (c.listings + Listings(back))
  {
    ListingsConcat(front, [c] + back);
    ListingsConcat([c], back);
    ListingsOfOne(c);
  }

  lemma {:induction false} SplitAt<T>(s: seq<T>, i: nat)
    requires i < |s|
    ensures s == s[..i] + ([s[i]] + s[i+1..])
  {
  }

  lemma {:induction false} ListingsRemove(s: seq<Crate>, i: nat)
    requires i < |s|
    ensures multiset(Listings(s)) == multiset(Listings(s[..i] + s[i+1..])) + multiset(s[i].listings)
  {
    var front, back := s[..i], s[i+1..];
    SplitAt(s, i);
    ListingsMiddle(front, s[i], back);
    ListingsConcat(front, back);
    MiddleOut(Listings(front), s[i].listings, Listings(back));
  }

  lemma {:induction false} MiddleOut<T>(x: seq<T>, y: seq<T>, z: seq<T>)
    ensures multiset(x + (y + z)) == multiset(x + z) + multiset(y)
  {
  }

  /** Rearranging crates rearranges their listings. */
  lemma {:induction false} ListingsPermuted(a: seq<Crate>, b: seq<Crate>)
    requires multiset(a) == multiset(b)
    ensures multiset(Listings(a)) == multiset(Listings(b))
    decreases |a|
  {
    assert |multiset(a)| == |a| && |multiset(b)| == |b|;
    if a != [] {
      var n := |a| - 1;
      assert a[n] in multiset(a);
      var i := FindIn(b, a[n]);
      RemoveOne(a, n);
      RemoveOne(b, i);
      assert a[..n] + a[n+1..] == a[..n];
      ListingsPermuted(a[..n], b[..i] + b[i+1..]);
      ListingsRemove(b, i);
    }
  }

  lemma {:induction false} BinsRearrangeAllocation(pool: seq<Listing>, axis: Axis, env: Env, seen: set<int>)
    requires DistinctIds(pool) && env.Valid()
    ensures var built := Allocate(pool, axis, env, AllocationOrder(axis, pool, env.floors), seen);
            multiset(Bins(pool, axis, env, seen)) == multiset(built)
            && (forall c :: c in Bins(pool, axis, env, seen) <==> c in built)
            && Ids(Listings(Bins(pool, axis, env, seen))) == Ids(Listings(built))
    ensures Fresh(Listings(Bins(pool, axis, env, seen)), pool, seen)
  {
    var order := AllocationOrder(axis, pool, env.floors);
    var built := Allocate(pool, axis, env, order, seen);
    AllocatesBins(pool, axis, env, order, seen);
    AllocateFresh(pool, axis, env, order, seen);
    ListingsPermuted(built, Bins(pool, axis, env, seen));
    PermutedFresh(Listings(built), Listings(Bins(pool, axis, env, seen)), pool, seen);
  }

  lemma {:induction false} IdsShown(wall: Crate, featured: seq<Crate>)
    ensures Listings([wall]) == wall.listings
    ensures Ids(Listings([wall] + featured)) == Ids(wall.listings) + Ids(Listings(featured))
  {
    ListingsOfOne(wall);
    ShownIdsConcat([wall], featured);
  }

  /** The parts of a page, each built against exactly the ids of the crates shown before it. */
  lemma {:induction false} PageParts(pool: seq<Listing>, env: Env)
    ensures var g, axis := GroupsOf(pool, env), AxisFor(pool, env);
            && g.wall == WallCrate(WallSelection(pool, axis, env))
            && g.featured == Featured(pool, axis, env, Ids(Listings([g.wall])))
            && g.bins == Bins(pool, axis, env, Ids(Listings([g.wall] + g.featured)))
  {
    var g := GroupsOf(pool, env);
    IdsShown(g.wall, g.featured);
  }

  lemma {:induction false} PartsFresh(pool: seq<Listing>, axis: Axis, env: Env, wall: Crate, featured: seq<Crate>, bins: seq<Crate>)
    requires DistinctIds(pool) && env.Valid() && wall == WallCrate(WallSelection(pool, axis, env))
    requires featured == Featured(pool, axis, env, Ids(Listings([wall])))
    requires bins == Bins(pool, axis, env, Ids(Listings([wall] + featured)))
    ensures Fresh(Listings([wall] + featured + bins), pool, {})
    ensures Ids(Listings([wall] + featured + bins)) == Ids(Listings([wall] + featured)) + Ids(Listings(bins))
  {
    WallIsGreedy(pool, axis, env);
    IdsShown(wall, featured);
    FeaturedFresh(pool, axis, env, Ids(wall.listings));
    ShownFresh([wall], featured, pool, {});
    BinsRearrangeAllocation(pool, axis, env, Ids(Listings([wall] + featured)));
    ShownFresh([wall] + featured, bins, pool, {});
  }

  /** No listing is shown twice, the ids excluded from each stage are exactly those of the crates
      shown before it, and dropping repeated ids from the page drops nothing. */
  lemma {:induction false} ShownOnce(pool: seq<Listing>, env: Env)
    requires DistinctIds(pool) && env.Valid()
    ensures DrawnFrom(Listings(Shown(GroupsOf(pool, env))), pool)
    ensures UniqById(Listings(Shown(GroupsOf(pool, env)))) == Listings(Shown(GroupsOf(pool, env)))
    ensures var g := GroupsOf(pool, env); var axis := AxisFor(pool, env);
            && g.featured == Featured(pool, axis, env, Ids(Listings([g.wall])))
            && g.bins == Bins(pool, axis, env, Ids(Listings([g.wall] + g.featured)))
            && Ids(Listings(Shown(g))) == Ids(Listings([g.wall] + g.featured)) + Ids(Listings(g.bins))
  {
    var g := GroupsOf(pool, env);
    PageParts(pool, env);
    PartsFresh(pool, AxisFor(pool, env), env, g.wall, g.featured, g.bins);
    UniqKeepsDistinct(Listings(Shown(g)));
  }

  /** The page's wall, in the policy's numbers: under every key at most a third of its count and never
      fewer than two, and while it has room that many wherever the pool has them. */
  lemma {:induction false} PageWall(pool: seq<Listing>, env: Env, k: Option<Name>)
    requires DistinctIds(pool) && env.Valid()
    ensures var wall := GroupsOf(pool, env).wall; var key := KeyOn(AxisFor(pool, env));
            var cap := if env.wallCount / 3 >= 2 then env.wallCount / 3 else 2;
            var shown := Count(wall.listings, GreedyCap.HasKey(key, k));
            var held := Count(pool, GreedyCap.HasKey(key, k));
            && wall.WallCrate? && |wall.listings| <= env.wallCount && shown <= cap
            && (|wall.listings| < env.wallCount ==> shown == if held < cap then held else cap)
  {
    WallCapped(pool, AxisFor(pool, env), env, k);
  }

  /** At most three featured crates; every featured crate and every bin holds 4 to 50 listings, and
      every bin only listings with its name as primary genre or, on a page of styles, among their styles. */
  lemma {:induction false} CratesViable(pool: seq<Listing>, env: Env, c: Crate)
    requires DistinctIds(pool) && env.Valid()
    ensures |GroupsOf(pool, env).featured| <= 3
    ensures c in GroupsOf(pool, env).featured || c in GroupsOf(pool, env).bins ==> 4 <= |c.listings| <= 50
    ensures c in GroupsOf(pool, env).bins ==> c.Bin?
    ensures c in GroupsOf(pool, env).bins ==> forall l :: l in c.listings ==>
              if AxisFor(pool, env) == Genres then l.genres != [] && l.genres[0] == c.name else c.name in l.styles
  {
    var g, axis := GroupsOf(pool, env), AxisFor(pool, env);
    ShownOnce(pool, env);
    var seen := Ids(Listings([g.wall] + g.featured));
    BinsRearrangeAllocation(pool, axis, env, seen);
    BinShapes(pool, axis, env, AllocationOrder(axis, pool, env.floors), seen, c);
    FeaturedShapes(pool, axis, env, Ids(Listings([g.wall])), c);
    if c in g.bins {
      forall l | l in c.listings
        ensures if axis == Genres then l.genres != [] && l.genres[0] == c.name else c.name in l.styles
      {
        NamesExactly(l, c.name);
      }
    }
  }

  // ----- which crates are featured

  function Unseen(seen: set<int>): Listing -> bool {
    (l: Listing) => l.id !in seen
  }

  /** New Arrivals appears exactly when four listings of the pool are still unseen. */
  ghost predicate ArrivalsFeatured(s: seq<Crate>, pool: seq<Listing>, env: Env, seen: set<int>) {
    if Count(pool, Unseen(seen)) < 4 then s == []
    else |s| == 1 && s[0].NewArrivalsCrate? && s[0].listings == Take(NewArrivals(pool, seen, env), 50)
  }

  /** The themed crate appears exactly when some candidate theme has four unseen listings, and shows
      the first fifty of the theme picked. */
  ghost predicate ThemeFeatured(s: seq<Crate>, pool: seq<Listing>, axis: Axis, env: Env, seen: set<int>) {
    if forall t :: t in ThemeCandidates(axis, pool, env) ==> |UnseenInTheme(pool, seen, t)| < 4 then s == []
    else
      && |s| == 1 && s[0].ThematicCrate? && Thematic(pool, axis, seen, env).Some?
      && s[0].theme == Thematic(pool, axis, seen, env).value.0
      && s[0].listings == Take(Thematic(pool, axis, seen, env).value.1, 50)
  }

  /** Hidden Gems appears exactly when four gems are left under the cap. */
  ghost predicate GemsFeatured(s: seq<Crate>, pool: seq<Listing>, axis: Axis, env: Env, seen: set<int>) {
    if |HiddenGems(pool, axis, seen, env)| < 4 then s == []
    else |s| == 1 && s[0].HiddenGemsCrate? && s[0].listings == Take(HiddenGems(pool, axis, seen, env), 50)
  }

  lemma {:induction false} ArrivalsStage(pool: seq<Listing>, env: Env, seen: set<int>)
    requires DistinctIds(pool) && env.Valid()
    ensures ArrivalsFeatured(NewArrivalsStage(pool, env, seen), pool, env, seen)
  {
    var unseen := Filter(pool, OutsideIds(seen));
    UnseenCount(pool, seen);
    CandidatesFresh(pool, seen);
    match FirstWindow(unseen, WINDOWS, env)
    case Some(days) =>
      WindowIsLarge(unseen, WINDOWS, env);
      SameLength(env.scoreSort(Recent(unseen, days, env)), Recent(unseen, days, env));
    case None =>
      SameLength(env.scoreSort(unseen), unseen);
  }

  lemma {:induction false} UnseenCount(pool: seq<Listing>, seen: set<int>)
    ensures |Filter(pool, OutsideIds(seen))| == Count(pool, Unseen(seen))
  {
    if pool != [] {
      UnseenCount(pool[..|pool|-1], seen);
    }
  }

  lemma {:induction false} WindowIsLarge(candidates: seq<Listing>, windows: seq<int>, env: Env)
    ensures var w := FirstWindow(candidates, windows, env);
            w.Some? ==> 4 <= |Recent(candidates, w.value, env)| <= |candidates|
  {
    if windows != [] {
      WindowIsLarge(candidates, windows[1..], env);
    }
  }

  lemma {:induction false} ThemeStage(pool: seq<Listing>, axis: Axis, env: Env, seen: set<int>)
    requires DistinctIds(pool) && env.Valid()
    ensures ThemeFeatured(ThematicStage(pool, axis, env, seen), pool, axis, env, seen)
  {
    ThematicPicks(pool, axis, seen, env);
    var themes := EligibleThemes(pool, axis, seen, env);
    if themes == [] {
      assert Thematic(pool, axis, seen, env) == None;
    } else {
      var t := themes[env.seed % |themes|];
      SameLength(Thematic(pool, axis, seen, env).value.1, UnseenInTheme(pool, seen, t));
    }
  }

  /** The featured crates of every page, in their order, each against exactly what is shown before it. */
  lemma {:induction false} FeaturedExactly(pool: seq<Listing>, env: Env)
    requires DistinctIds(pool) && env.Valid()
    ensures var g, axis := GroupsOf(pool, env), AxisFor(pool, env);
      exists arrivals, theme, gems ::
        && g.featured == arrivals + theme + gems
        && ArrivalsFeatured(arrivals, pool, env, Ids(g.wall.listings))
        && ThemeFeatured(theme, pool, axis, env, Ids(g.wall.listings) + Ids(Listings(arrivals)))
        && GemsFeatured(gems, pool, axis, env, Ids(g.wall.listings) + Ids(Listings(arrivals)) + Ids(Listings(theme)))
  {
    var g, axis := GroupsOf(pool, env), AxisFor(pool, env);
    var seen := Ids(g.wall.listings);
    var a := NewArrivalsStage(pool, env, seen);
    var b := ThematicStage(pool, axis, env, seen + Ids(Listings(a)));
    var c := HiddenGemsStage(pool, axis, env, seen + Ids(Listings(a)) + Ids(Listings(b)));
    ArrivalsStage(pool, env, seen);
    ThemeStage(pool, axis, env, seen + Ids(Listings(a)));
    assert GemsFeatured(c, pool, axis, env, seen + Ids(Listings(a)) + Ids(Listings(b)));
    assert g.featured == a + b + c;
  }

  lemma {:induction false} ViableShape(crate: Crate, c: Crate)
    requires |crate.listings| <= CRATE_SIZE
    ensures |Viable(crate)| <= 1 && (c in Viable(crate) ==> MIN_RECORDS <= |c.listings| <= CRATE_SIZE)
  {
  }

  lemma {:induction false} FeaturedShapes(pool: seq<Listing>, axis: Axis, env: Env, seen: set<int>, c: Crate)
    ensures |Featured(pool, axis, env, seen)| <= 3
    ensures c in Featured(pool, axis, env, seen) ==> MIN_RECORDS <= |c.listings| <= CRATE_SIZE
  {
    var seenA := seen + Ids(Listings(NewArrivalsStage(pool, env, seen)));
    var seenB := seenA + Ids(Listings(ThematicStage(pool, axis, env, seenA)));
    ViableShape(NewArrivalsCrate(Take(NewArrivals(pool, seen, env), CRATE_SIZE)), c);
    ThemedShape(Thematic(pool, axis, seenA, env), c);
    ViableShape(HiddenGemsCrate(Take(HiddenGems(pool, axis, seenB, env), CRATE_SIZE)), c);
  }

  lemma {:induction false} ThemedShape(picked: Option<(Name, seq<Listing>)>, c: Crate)
    ensures |ThemedCrate(picked)| <= 1 && (c in ThemedCrate(picked) ==> MIN_RECORDS <= |c.listings| <= CRATE_SIZE)
  {
    if picked.Some? {
      ViableShape(ThematicCrate(picked.value.0, Take(picked.value.1, CRATE_SIZE)), c);
    }
  }

  lemma {:induction false} BinShapes(pool: seq<Listing>, axis: Axis, env: Env, order: seq<Name>, seen: set<int>, c: Crate)
    requires DistinctIds(pool) && env.Valid()
    ensures c in Allocate(pool, axis, env, order, seen)
            ==> c.Bin? && MIN_RECORDS <= |c.listings| <= CRATE_SIZE && forall l :: l in c.listings ==> Matches(axis, c.name)(l)
  {
    if order != [] {
      var init, name := order[..|order|-1], order[|order|-1];
      BinShapes(pool, axis, env, init, seen, c);
      GenreSelectFresh(pool, axis, name, seen + Ids(Listings(Allocate(pool, axis, env, init, seen))), env);
    }
  }

  // ----- the allocation is maximal

  /** What a name is owed once `shown` has been shown: either it has a bin of 4 to 50 of its
      listings, best first, and whatever it could still claim is nothing (bin not full) or scores
      no higher than anything in the bin; or it has no bin and could claim fewer than four. */
  ghost predicate Settled(name: Name, built: seq<Crate>, pool: seq<Listing>, axis: Axis, env: Env, shown: set<int>) {
    var left := GenreCandidates(pool, axis, name, shown);
    || (exists c :: c in built && Served(c, name, left, axis, env))
    || ((forall c :: c in built && c.Bin? ==> c.name != name) && |left| < 4)
  }

  ghost predicate Served(c: Crate, name: Name, left: seq<Listing>, axis: Axis, env: Env) {
    && c.Bin? && c.name == name && 4 <= |c.listings| <= 50
    && (forall l :: l in c.listings ==> Matches(axis, name)(l))
    && GreedyCap.Descending(c.listings, env.score)
    && (|c.listings| < 50 ==> left == [])
    && (forall l, r :: l in left && r in c.listings ==> env.score(l) <= env.score(r))
  }

  lemma {:induction false} CandidatesShrink(pool: seq<Listing>, axis: Axis, name: Name, shown: set<int>, more: set<int>)
    requires DistinctIds(pool) && shown <= more
    ensures var left, less := GenreCandidates(pool, axis, name, shown), GenreCandidates(pool, axis, name, more);
            |less| <= |left| && forall l :: l in less ==> l in left
  {
    var left, less := GenreCandidates(pool, axis, name, shown), GenreCandidates(pool, axis, name, more);
    FilterDrawn(pool, OutsideIds(shown), pool);
    FilterDrawn(pool, OutsideIds(more), pool);
    FilterDrawn(Filter(pool, OutsideIds(shown)), Matches(axis, name), pool);
    FilterDrawn(Filter(pool, OutsideIds(more)), Matches(axis, name), pool);
    DistinctIdsNoDup(left);
    DistinctIdsNoDup(less);
    GreedyCap.SubsetLength(less, left);
  }

  lemma {:induction false} SettledStays(name: Name, built: seq<Crate>, more: seq<Crate>, pool: seq<Listing>, axis: Axis, env: Env,
                     shown: set<int>, shown': set<int>)
    requires DistinctIds(pool) && Settled(name, built, pool, axis, env, shown) && shown <= shown'
    requires forall c :: c in more && c.Bin? ==> c.name != name
    ensures Settled(name, built + more, pool, axis, env, shown')
  {
    CandidatesShrink(pool, axis, name, shown, shown');
    var left, less := GenreCandidates(pool, axis, name, shown), GenreCandidates(pool, axis, name, shown');
    if c :| c in built && Served(c, name, left, axis, env) {
      assert c in built + more && Served(c, name, less, axis, env);
    }
  }

  /** A bin built against `seen` settles its name. */
  lemma {:induction false} BinSettles(pool: seq<Listing>, axis: Axis, env: Env, name: Name, seen: set<int>)
    requires DistinctIds(pool) && env.Valid()
    ensures var bin := BinStage(pool, axis, env, name, seen);
            Settled(name, bin, pool, axis, env, seen + Ids(Listings(bin)))
  {
    GenreSelectFresh(pool, axis, name, seen, env);
    var candidates := GenreCandidates(pool, axis, name, seen);
    var ranked := env.scoreSort(candidates);
    var bin := BinStage(pool, axis, env, name, seen);
    var shown := seen + Ids(Listings(bin));
    CandidatesShrink(pool, axis, name, seen, shown);
    if |ranked| >= MIN_RECORDS {
      var c := Bin(name, Take(ranked, CRATE_SIZE));
      assert bin == [c] && bin[..0] == [];
      assert Listings(bin) == c.listings;
      BinServes(pool, axis, env, name, seen);
      assert c in bin;
    } else {
      assert bin == [];
    }
  }

  lemma {:induction false} TakeHas<T>(s: seq<T>, n: nat, i: nat)
    requires i < |s|
    ensures i < |Take(s, n)| ==> s[i] in Take(s, n)
  {
    if i < |Take(s, n)| {
      assert Take(s, n)[i] == s[i];
    }
  }

  lemma {:induction false} BinServes(pool: seq<Listing>, axis: Axis, env: Env, name: Name, seen: set<int>)
    requires DistinctIds(pool) && env.Valid()
    requires |env.scoreSort(GenreCandidates(pool, axis, name, seen))| >= MIN_RECORDS
    ensures var taken := Take(env.scoreSort(GenreCandidates(pool, axis, name, seen)), CRATE_SIZE);
            Served(Bin(name, taken), name, GenreCandidates(pool, axis, name, seen + Ids(taken)), axis, env)
  {
    GenreSelectFresh(pool, axis, name, seen, env);
    var ranked := env.scoreSort(GenreCandidates(pool, axis, name, seen));
    var taken := Take(ranked, CRATE_SIZE);
    var left := GenreCandidates(pool, axis, name, seen + Ids(taken));
    forall l | l in left ensures CRATE_SIZE < |ranked| && forall r :: r in taken ==> env.score(l) <= env.score(r) {
      assert l in ranked && l !in taken;
      var i :| 0 <= i < |ranked| && ranked[i] == l;
      TakeHas(ranked, CRATE_SIZE, i);
    }
    GreedyCap.NonEmptyHasMember(left);
  }

  lemma {:induction false} BinNames(pool: seq<Listing>, axis: Axis, env: Env, order: seq<Name>, seen: set<int>)
    ensures forall c :: c in Allocate(pool, axis, env, order, seen) ==> c.Bin? && c.name in order
  {
    if order != [] {
      BinNames(pool, axis, env, order[..|order|-1], seen);
    }
  }

  /** After the whole allocation every name in the order is settled, whatever the later bins took. */
  lemma {:induction false} AllocateSettles(pool: seq<Listing>, axis: Axis, env: Env, order: seq<Name>, seen: set<int>, name: Name)
    requires DistinctIds(pool) && env.Valid() && NoDup(order) && name in order
    ensures var built := Allocate(pool, axis, env, order, seen);
            Settled(name, built, pool, axis, env, seen + Ids(Listings(built)))
    decreases |order|
  {
    var init, last := order[..|order|-1], order[|order|-1];
    assert order == init + [last];
    var built := Allocate(pool, axis, env, init, seen);
    var bin := BinStage(pool, axis, env, last, seen + Ids(Listings(built)));
    ShownIdsConcat(built, bin);
    var shown := seen + Ids(Listings(built + bin));
    if name == last {
      BinSettles(pool, axis, env, last, seen + Ids(Listings(built)));
      assert shown == seen + Ids(Listings(built)) + Ids(Listings(bin));
      BinNames(pool, axis, env, init, seen);
      SettledAfter(name, built, bin, pool, axis, env, shown);
    } else {
      AllocateSettles(pool, axis, env, init, seen, name);
      SettledStays(name, built, bin, pool, axis, env, seen + Ids(Listings(built)), shown);
    }
  }

  lemma {:induction false} SettledAfter(name: Name, earlier: seq<Crate>, bin: seq<Crate>, pool: seq<Listing>, axis: Axis, env: Env, shown: set<int>)
    requires Settled(name, bin, pool, axis, env, shown)
    requires forall c :: c in earlier && c.Bin? ==> c.name != name
    ensures Settled(name, earlier + bin, pool, axis, env, shown)
  {
    var left := GenreCandidates(pool, axis, name, shown);
    if c :| c in bin && Served(c, name, left, axis, env) {
      assert c in earlier + bin;
    }
  }

  /** Maximality of the page: every name of the allocation order is settled by the bins shown,
      against everything shown anywhere on the page. */
  lemma {:induction false} AllocationMaximal(pool: seq<Listing>, env: Env, name: Name)
    requires DistinctIds(pool) && env.Valid()
    requires name in AllocationOrder(AxisFor(pool, env), pool, env.floors)
    ensures var g := GroupsOf(pool, env);
            Settled(name, g.bins, pool, AxisFor(pool, env), env, Ids(Listings(Shown(g))))
  {
    var g, axis := GroupsOf(pool, env), AxisFor(pool, env);
    var order := AllocationOrder(axis, pool, env.floors);
    ShownOnce(pool, env);
    OrdersNoDup(axis, pool, env.floors);
    var seen := Ids(Listings([g.wall] + g.featured));
    var built := Allocate(pool, axis, env, order, seen);
    BinsRearrangeAllocation(pool, axis, env, seen);
    AllocateSettles(pool, axis, env, order, seen, name);
    assert seen + Ids(Listings(built)) == Ids(Listings(Shown(g)));
  }

  // ----- earlier names choose first

  function NamedIn(names: seq<Name>): Crate -> bool {
    (c: Crate) => c.Bin? && c.name in names
  }

  lemma {:induction false} FilterAll<T(!new)>(s: seq<T>, keep: T -> bool)
    requires forall x :: x in s ==> keep(x)
    ensures Filter(s, keep) == s
  {
    if s != [] {
      FilterAll(s[..|s|-1], keep);
      assert s == s[..|s|-1] + [s[|s|-1]];
    }
  }

  /** What the first names of the order get does not depend on the rest. */
  lemma {:induction false} AllocatePrefix(pool: seq<Listing>, axis: Axis, env: Env, order: seq<Name>, seen: set<int>, n: nat)
    requires NoDup(order) && n <= |order|
    ensures Filter(Allocate(pool, axis, env, order, seen), NamedIn(order[..n])) == Allocate(pool, axis, env, order[..n], seen)
    decreases |order|
  {
    if n == |order| {
      assert order[..n] == order;
      BinNames(pool, axis, env, order, seen);
      FilterAll(Allocate(pool, axis, env, order, seen), NamedIn(order));
    } else {
      var init, last := order[..|order|-1], order[|order|-1];
      assert init[..n] == order[..n] && last !in order[..n];
      AllocatePrefix(pool, axis, env, init, seen, n);
      var built := Allocate(pool, axis, env, init, seen);
      var bin := BinStage(pool, axis, env, last, seen + Ids(Listings(built)));
      if bin == [] {
        assert built + bin == built;
      } else {
        FilterSnoc(built, bin[0], NamedIn(order[..n]));
      }
    }
  }

  lemma {:induction false} SettledIn(name: Name, a: seq<Crate>, b: seq<Crate>, pool: seq<Listing>, axis: Axis, env: Env, shown: set<int>)
    requires Settled(name, a, pool, axis, env, shown)
    requires forall c :: c in a ==> c in b
    requires forall c :: c in b && c.Bin? && c.name == name ==> c in a
    ensures Settled(name, b, pool, axis, env, shown)
  {
    var left := GenreCandidates(pool, axis, name, shown);
    if c :| c in a && Served(c, name, left, axis, env) {
      assert c in b;
    }
  }

  lemma {:induction false} SameIds(a: seq<Crate>, b: seq<Crate>)
    requires multiset(a) == multiset(b)
    ensures Ids(Listings(a)) == Ids(Listings(b))
  {
    ListingsPermuted(a, b);
    forall l ensures l in Listings(a) <==> l in Listings(b) {
      assert l in multiset(Listings(a)) <==> l in multiset(Listings(b));
    }
  }

  lemma {:induction false} PrefixNoDup<T>(names: seq<T>, order: seq<T>)
    requires NoDup(order) && names <= order
    ensures NoDup(names) && order[..|names|] == names
  {
    assert order[..|names|] == names;
  }

  /** The bins of the first names, and their ids, are what allocating those names alone gives. */
  ghost predicate FirstOf(first: seq<Crate>, bins: seq<Crate>, names: seq<Name>) {
    && (forall c :: c in first <==> c in bins && c.Bin? && c.name in names)
    && Ids(Listings(Filter(bins, NamedIn(names)))) == Ids(Listings(first))
  }

  lemma {:induction false} FilterIsFirst(bins: seq<Crate>, built: seq<Crate>, names: seq<Name>)
    requires multiset(bins) == multiset(built)
    ensures FirstOf(Filter(built, NamedIn(names)), bins, names)
  {
    CountPermuted(bins, built, NamedIn(names));
    SameIds(Filter(bins, NamedIn(names)), Filter(built, NamedIn(names)));
    forall c ensures c in bins <==> c in built {
      assert c in multiset(bins) <==> c in multiset(built);
    }
  }

  lemma {:induction false} FirstBins(pool: seq<Listing>, axis: Axis, env: Env, seen: set<int>, names: seq<Name>)
    requires DistinctIds(pool) && env.Valid()
    requires NoDup(AllocationOrder(axis, pool, env.floors)) && names <= AllocationOrder(axis, pool, env.floors)
    ensures FirstOf(Allocate(pool, axis, env, names, seen), Bins(pool, axis, env, seen), names)
  {
    var order := AllocationOrder(axis, pool, env.floors);
    var bins, built := Bins(pool, axis, env, seen), Allocate(pool, axis, env, order, seen);
    assert multiset(bins) == multiset(built) by {
      BinsRearrangeAllocation(pool, axis, env, seen);
    }
    PrefixNoDup(names, order);
    AllocatePrefix(pool, axis, env, order, seen, |names|);
    FilterIsFirst(bins, built, names);
  }

  lemma {:induction false} SettledAmong(name: Name, first: seq<Crate>, bins: seq<Crate>, names: seq<Name>,
                                        pool: seq<Listing>, axis: Axis, env: Env, shown: set<int>)
    requires FirstOf(first, bins, names) && name in names && Settled(name, first, pool, axis, env, shown)
    ensures Settled(name, bins, pool, axis, env, shown)
  {
    SettledIn(name, first, bins, pool, axis, env, shown);
  }

  lemma {:induction false} BinsChooseFirst(pool: seq<Listing>, axis: Axis, env: Env, seen: set<int>, names: seq<Name>)
    requires DistinctIds(pool) && env.Valid() && names != []
    requires NoDup(AllocationOrder(axis, pool, env.floors)) && names <= AllocationOrder(axis, pool, env.floors)
    ensures var bins := Bins(pool, axis, env, seen);
            Settled(names[|names|-1], bins, pool, axis, env, seen + Ids(Listings(Filter(bins, NamedIn(names)))))
  {
    var bins, first, name := Bins(pool, axis, env, seen), Allocate(pool, axis, env, names, seen), names[|names|-1];
    PrefixNoDup(names, AllocationOrder(axis, pool, env.floors));
    FirstBins(pool, axis, env, seen, names);
    AllocateSettles(pool, axis, env, names, seen, name);
    SettledAmong(name, first, bins, names, pool, axis, env, seen + Ids(Listings(first)));
  }

  /** The name at `i` of an order is settled against `before` and the bins up to its own. */
  ghost predicate ChoosesFirst(order: seq<Name>, i: nat, bins: seq<Crate>, pool: seq<Listing>, axis: Axis, env: Env, before: set<int>)
    requires i < |order|
  {
    Settled(order[i], bins, pool, axis, env, before + Ids(Listings(Filter(bins, NamedIn(order[..i+1])))))
  }

  lemma {:induction false} FirstNames<T>(order: seq<T>, i: nat)
    requires i < |order|
    ensures var names := order[..i+1]; names != [] && names <= order && names[|names|-1] == order[i]
  {
  }

  lemma {:induction false} BinAtChoosesFirst(order: seq<Name>, i: nat, pool: seq<Listing>, axis: Axis, env: Env, seen: set<int>)
    requires DistinctIds(pool) && env.Valid() && i < |order|
    requires NoDup(order) && order == AllocationOrder(axis, pool, env.floors)
    ensures ChoosesFirst(order, i, Bins(pool, axis, env, seen), pool, axis, env, seen)
  {
    var names := order[..i+1];
    FirstNames(order, i);
    BinsChooseFirst(pool, axis, env, seen, names);
    assert Settled(order[i], Bins(pool, axis, env, seen), pool, axis, env,
                   seen + Ids(Listings(Filter(Bins(pool, axis, env, seen), NamedIn(names)))));
  }

  /** Names choose in allocation order: each is settled against the wall, the featured crates and the
      bins up to its own alone.  No later bin ever costs it a listing. */
  lemma {:induction false} EarlierNamesChooseFirst(pool: seq<Listing>, env: Env, i: nat)
    requires DistinctIds(pool) && env.Valid()
    requires i < |AllocationOrder(AxisFor(pool, env), pool, env.floors)|
    ensures var g, axis := GroupsOf(pool, env), AxisFor(pool, env);
            ChoosesFirst(AllocationOrder(axis, pool, env.floors), i, g.bins, pool, axis, env,
                         Ids(Listings([g.wall] + g.featured)))
  {
    var g := GroupsOf(pool, env);
    PageParts(pool, env);
    var axis := AxisFor(pool, env);
    var order := AllocationOrder(axis, pool, env.floors);
    assert NoDup(order) by {
      OrdersNoDup(axis, pool, env.floors);
    }
    BinAtChoosesFirst(order, i, pool, axis, env, Ids(Listings([g.wall] + g.featured)));
  }

  // ----- display order

  function NamesOf(crates: seq<Crate>): seq<Name> {
    if crates == [] then [] else
      var last := crates[|crates|-1];
      NamesOf(crates[..|crates|-1]) + if last.Bin? then [last.name] else []
  }

  lemma {:induction false} NamesOfBins(crates: seq<Crate>)
    requires AllBins(crates)
    ensures |NamesOf(crates)| == |crates|
    ensures forall i :: 0 <= i < |crates| ==> NamesOf(crates)[i] == crates[i].name
  {
    if crates != [] {
      NamesOfBins(crates[..|crates|-1]);
    }
  }

  lemma {:induction false} AllocateNames(pool: seq<Listing>, axis: Axis, env: Env, order: seq<Name>, seen: set<int>)
    requires NoDup(order)
    ensures NoDup(NamesOf(Allocate(pool, axis, env, order, seen)))
    ensures forall n :: n in NamesOf(Allocate(pool, axis, env, order, seen)) ==> n in order
  {
    if order != [] {
      var init, last := order[..|order|-1], order[|order|-1];
      AllocateNames(pool, axis, env, init, seen);
      var built := Allocate(pool, axis, env, init, seen);
      var bin := BinStage(pool, axis, env, last, seen + Ids(Listings(built)));
      assert order == init + [last];
      assert (built + bin)[..|built|] == built;
      assert bin == [] ==> built + bin == built;
      assert last !in NamesOf(built);
    }
  }

  lemma {:induction false} IndexOfAt(display: seq<Name>, i: nat)
    requires i < |display| && NoDup(display)
    ensures IndexOf(display, display[i]) == i
  {
    var k := IndexOf(display, display[i]);
    assert k <= i;
  }

  lemma {:induction false} NamesPermuted(a: seq<Crate>, b: seq<Crate>)
    requires AllBins(a) && multiset(a) == multiset(b)
    ensures AllBins(b) && forall n :: n in NamesOf(a) <==> n in NamesOf(b)
  {
    forall c | c in b ensures c.Bin? {
      assert c in multiset(b);
    }
    NamesOfBins(a);
    NamesOfBins(b);
    forall n ensures n in NamesOf(a) <==> n in NamesOf(b) {
      if n in NamesOf(a) {
        var i :| 0 <= i < |a| && a[i].name == n;
        assert a[i] in multiset(b);
        var j :| 0 <= j < |b| && b[j] == a[i];
        assert NamesOf(b)[j] == n;
      }
      if n in NamesOf(b) {
        var i :| 0 <= i < |b| && b[i].name == n;
        assert b[i] in multiset(a);
        var j :| 0 <= j < |a| && a[j] == b[i];
        assert NamesOf(a)[j] == n;
      }
    }
  }

  /** Two lists of names without repeats, both climbing through `display`, with the same members, are equal. */
  lemma {:induction false} ClimbUnique(a: seq<Name>, b: seq<Name>, display: seq<Name>)
    requires Climbs(a, display) && Climbs(b, display) && forall n :: n in a <==> n in b
    ensures a == b
    decreases |a|
  {
    if a == [] {
      GreedyCap.NonEmptyHasMember(b);
    } else {
      var x := a[|a|-1];
      assert x in a && x in b;
      var y := b[|b|-1];
      assert y in b && y in a;
      var i :| 0 <= i < |a| && a[i] == y;
      var j :| 0 <= j < |b| && b[j] == x;
      assert IndexOf(display, y) <= IndexOf(display, x) && IndexOf(display, x) <= IndexOf(display, y);
      assert x == y;
      ClimbInit(a, display);
      ClimbInit(b, display);
      var a', b' := a[..|a|-1], b[..|b|-1];
      forall n ensures n in a' <==> n in b' {
        assert n in a <==> n in b;
      }
      ClimbUnique(a', b', display);
      assert a == a[..|a|-1] + [x];
    }
  }

  lemma {:induction false} ClimbInit(a: seq<Name>, display: seq<Name>)
    requires Climbs(a, display) && a != []
    ensures Climbs(a[..|a|-1], display)
    ensures forall n :: n in a[..|a|-1] <==> n in a && n != a[|a|-1]
  {
    var init, x := a[..|a|-1], a[|a|-1];
    assert a == init + [x];
    assert forall k :: 0 <= k < |init| ==> IndexOf(display, a[k]) < IndexOf(display, x);
  }

  ghost predicate Climbs(names: seq<Name>, display: seq<Name>) {
    (forall i :: 0 <= i < |names| ==> names[i] in display)
    && forall i, j :: 0 <= i < j < |names| ==> IndexOf(display, names[i]) < IndexOf(display, names[j])
  }

  ghost predicate Below(names: seq<Name>, display: seq<Name>, bound: int) {
    forall i :: 0 <= i < |names| ==> IndexOf(display, names[i]) < bound
  }

  lemma {:induction false} ClimbSnoc(names: seq<Name>, x: Name, display: seq<Name>)
    requires Climbs(names, display) && x in display && Below(names, display, IndexOf(display, x))
    ensures Climbs(names + [x], display) && Below(names + [x], display, IndexOf(display, x) + 1)
  {
  }

  lemma {:induction false} FilterClimbs(display: seq<Name>, n: nat, keep: Name -> bool)
    requires NoDup(display) && n <= |display|
    ensures Climbs(Filter(display[..n], keep), display) && Below(Filter(display[..n], keep), display, n)
  {
    if n > 0 {
      var front, x := display[..n-1], display[n-1];
      FilterClimbs(display, n - 1, keep);
      assert display[..n] == front + [x];
      FilterSnoc(front, x, keep);
      IndexOfAt(display, n - 1);
      ClimbSnoc(Filter(front, keep), x, display);
    }
  }

  /** A climbing list is the display order restricted to its members. */
  lemma {:induction false} ClimbingIsRestriction(names: seq<Name>, display: seq<Name>)
    requires NoDup(display) && Climbs(names, display)
    ensures names == Filter(display, GreedyCap.Among(names))
  {
    FilterClimbs(display, |display|, GreedyCap.Among(names));
    assert display[..|display|] == display;
    var restricted := Filter(display, GreedyCap.Among(names));
    forall n ensures n in names <==> n in restricted {
      assert n in names ==> n in display;
    }
    ClimbUnique(names, restricted, display);
  }

  lemma {:induction false} SortedBinsNoDup(built: seq<Crate>, sorted: seq<Crate>)
    requires AllBins(built) && NoDup(NamesOf(built)) && multiset(built) == multiset(sorted)
    ensures AllBins(sorted) && NoDup(NamesOf(sorted))
  {
    NamesPermuted(built, sorted);
    NamesOfBins(sorted);
    CratesNoDup(built);
    PermutedNoDup(built, sorted);
    forall i, j | 0 <= i < j < |sorted| ensures sorted[i].name != sorted[j].name {
      if sorted[i].name == sorted[j].name {
        SameNameSameBin(built, sorted[i], sorted[j]);
      }
    }
  }

  lemma {:induction false} IndexesDiffer(display: seq<Name>, m: Name, n: Name)
    requires m in display && n in display && m != n
    ensures IndexOf(display, m) != IndexOf(display, n)
  {
    var i := IndexOf(display, m);
    assert i < |display|;
  }

  lemma {:induction false} SortedBinsClimb(built: seq<Crate>, display: seq<Name>)
    requires AllBins(built) && NoDup(display) && NoDup(NamesOf(built)) && forall n :: n in NamesOf(built) ==> n in display
    ensures AllBins(SortForDisplay(built, display))
    ensures Climbs(NamesOf(SortForDisplay(built, display)), display)
    ensures forall n :: n in NamesOf(SortForDisplay(built, display)) <==> n in NamesOf(built)
  {
    var sorted, ranks := SortForDisplay(built, display), DisplayRanks(built, display);
    NamesPermuted(built, sorted);
    SortedBinsNoDup(built, sorted);
    NamesOfBins(sorted);
    SortBySorted(built, ranks);
    var names := NamesOf(sorted);
    forall i, j | 0 <= i < j < |names| ensures IndexOf(display, names[i]) < IndexOf(display, names[j]) {
      assert !Before(ranks[sorted[j]], ranks[sorted[i]]);
      assert names[i] in names && names[j] in names && names[i] != names[j];
      IndexesDiffer(display, names[i], names[j]);
    }
  }

  lemma {:induction false} CratesNoDup(built: seq<Crate>)
    requires AllBins(built) && NoDup(NamesOf(built))
    ensures NoDup(built)
  {
    NamesOfBins(built);
    forall i, j | 0 <= i < j < |built| ensures built[i] != built[j] {
      assert NamesOf(built)[i] != NamesOf(built)[j];
    }
  }

  lemma {:induction false} SameNameSameBin(built: seq<Crate>, c: Crate, d: Crate)
    requires AllBins(built) && NoDup(NamesOf(built)) && c in built && d in built && c.name == d.name
    ensures c == d
  {
    NamesOfBins(built);
    var i :| 0 <= i < |built| && built[i] == c;
    var j :| 0 <= j < |built| && built[j] == d;
    assert NamesOf(built)[i] == NamesOf(built)[j];
  }

  /** The bins appear as the display order restricted to the names that got a bin: the re-sort
      loses nothing, adds nothing and follows the display order. */
  lemma {:induction false} BinsFollowDisplay(pool: seq<Listing>, env: Env)
    requires DistinctIds(pool) && env.Valid()
    ensures var g := GroupsOf(pool, env); var axis := AxisFor(pool, env);
            && AllBins(g.bins)
            && NamesOf(g.bins) == Filter(DisplayOrder(axis, pool, env.floors), GreedyCap.Among(NamesOf(g.bins)))
            && multiset(g.bins) == multiset(Allocate(pool, axis, env, AllocationOrder(axis, pool, env.floors),
                                                     Ids(Listings([g.wall] + g.featured))))
  {
    var g, axis := GroupsOf(pool, env), AxisFor(pool, env);
    var order, display := AllocationOrder(axis, pool, env.floors), DisplayOrder(axis, pool, env.floors);
    var seen := Ids(Listings([g.wall] + g.featured));
    ShownOnce(pool, env);
    OrdersNoDup(axis, pool, env.floors);
    BinsRearrangeAllocation(pool, axis, env, seen);
    var built := Allocate(pool, axis, env, order, seen);
    AllocatesBins(pool, axis, env, order, seen);
    AllocateNames(pool, axis, env, order, seen);
    PermutedNoDup(order, display);
    SortedBinsClimb(built, display);
    ClimbingIsRestriction(NamesOf(g.bins), display);
  }
}

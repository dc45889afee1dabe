/** app/services/storefront_curation.rb: the wall, the featured crates and the bins of one
    storefront, built against a shared set of ids already shown.
 */
module Storefront {
  import opened Sequences
  import opened Catalog
  import opened StyleTiers
  import opened Selection

  datatype Crate =
    | WallCrate(listings: seq<Listing>)
    | NewArrivalsCrate(listings: seq<Listing>)
    | ThematicCrate(theme: Name, listings: seq<Listing>)
    | HiddenGemsCrate(listings: seq<Listing>)
    | Bin(name: Name, listings: seq<Listing>)

  datatype Groups = Groups(wall: Crate, featured: seq<Crate>, bins: seq<Crate>)

  function Listings(crates: seq<Crate>): seq<Listing> {
    if crates == [] then [] else Listings(crates[..|crates|-1]) + crates[|crates|-1].listings
  }

  /** The crates of a storefront in page order. */
  function Shown(g: Groups): seq<Crate> {
    [g.wall] + g.featured + g.bins
  }

  // ----- the construction on values

  /** `viable_crate`: cut to size, dropped under four. */
  function Viable(crate: Crate): seq<Crate> {
    if |crate.listings| >= MIN_RECORDS then [crate] else []
  }

  function NewArrivalsStage(pool: seq<Listing>, env: Env, seen: set<int>): seq<Crate> {
    Viable(NewArrivalsCrate(Take(NewArrivals(pool, seen, env), CRATE_SIZE)))
  }

  function ThemedCrate(picked: Option<(Name, seq<Listing>)>): seq<Crate> {
    if picked.None? then [] else Viable(ThematicCrate(picked.value.0, Take(picked.value.1, CRATE_SIZE)))
  }

  function ThematicStage(pool: seq<Listing>, axis: Axis, env: Env, seen: set<int>): seq<Crate> {
    ThemedCrate(Thematic(pool, axis, seen, env))
  }

  function HiddenGemsStage(pool: seq<Listing>, axis: Axis, env: Env, seen: set<int>): seq<Crate> {
    Viable(HiddenGemsCrate(Take(HiddenGems(pool, axis, seen, env), CRATE_SIZE)))
  }

  function Featured(pool: seq<Listing>, axis: Axis, env: Env, seen: set<int>): seq<Crate> {
    var a := NewArrivalsStage(pool, env, seen);
    var b := ThematicStage(pool, axis, env, seen + Ids(Listings(a)));
    var c := HiddenGemsStage(pool, axis, env, seen + Ids(Listings(a)) + Ids(Listings(b)));
    a + b + c
  }

  /** The bin for one name, if it is viable. */
  function BinStage(pool: seq<Listing>, axis: Axis, env: Env, name: Name, seen: set<int>): seq<Crate> {
    Viable(Bin(name, GenreSelect(pool, axis, name, seen, env)))
  }

  /** Bins built in allocation order, each against what the earlier ones took. */
  function Allocate(pool: seq<Listing>, axis: Axis, env: Env, order: seq<Name>, seen: set<int>): seq<Crate> {
    if order == [] then [] else
      var built := Allocate(pool, axis, env, order[..|order|-1], seen);
      built + BinStage(pool, axis, env, order[|order|-1], seen + Ids(Listings(built)))
  }

  /** `display.index(name) || display.size`. */
  function IndexOf(display: seq<Name>, name: Name): (i: nat)
    ensures i <= |display|
    ensures i < |display| ==> display[i] == name
    ensures forall j :: 0 <= j < i ==> display[j] != name
  {
    if display == [] then 0
    else if display[0] == name then 0
    else 1 + IndexOf(display[1..], name)
  }

  function DisplayRanks(crates: seq<Crate>, display: seq<Name>): map<Crate, Rank> {
    map c | c in crates && c.Bin? :: Rank(0.0, IndexOf(display, c.name), 0)
  }

  ghost predicate AllBins(crates: seq<Crate>) {
    forall c :: c in crates ==> c.Bin?
  }

  function SortForDisplay(crates: seq<Crate>, display: seq<Name>): seq<Crate>
    requires AllBins(crates)
  {
    SortBy(crates, DisplayRanks(crates, display))
  }

  lemma {:induction false} AllocatesBins(pool: seq<Listing>, axis: Axis, env: Env, order: seq<Name>, seen: set<int>)
    ensures AllBins(Allocate(pool, axis, env, order, seen))
  {
    if order != [] {
      AllocatesBins(pool, axis, env, order[..|order|-1], seen);
    }
  }

  function Bins(pool: seq<Listing>, axis: Axis, env: Env, seen: set<int>): seq<Crate> {
    var order := AllocationOrder(axis, pool, env.floors);
    AllocatesBins(pool, axis, env, order, seen);
    SortForDisplay(Allocate(pool, axis, env, order, seen), DisplayOrder(axis, pool, env.floors))
  }

  function GroupsOf(pool: seq<Listing>, env: Env): Groups {
    var axis := AxisFor(pool, env);
    var wall := WallSelection(pool, axis, env);
    var featured := Featured(pool, axis, env, Ids(wall));
    Groups(WallCrate(wall), featured, Bins(pool, axis, env, Ids(wall) + Ids(Listings(featured))))
  }

  // ----- the construction as written, with shared mutable sets

  /** A Ruby Set of listing ids: an object that several callers may hold. */
  class IdSet {
    var ids: set<int>

    constructor (ids: set<int>)
      ensures this.ids == ids
    {
      this.ids := ids;
    }

    method AddAll(listings: seq<Listing>)
      modifies this
      ensures ids == old(ids) + Ids(listings)
    {
      for i := 0 to |listings|
        invariant ids == old(ids) + Ids(listings[..i])
      {
        assert listings[..i+1] == listings[..i] + [listings[i]];
        ids := ids + {listings[i].id};
      }
      assert listings[..|listings|] == listings;
    }
  }

  /** app/models/wall.rb: the selection, and the exclusion set it hands out once and keeps. */
  class Wall {
    const crate: Crate
    var excluded: IdSet?

    constructor (pool: seq<Listing>, axis: Axis, env: Env)
      ensures crate == WallCrate(WallSelection(pool, axis, env))
      ensures excluded == null
    {
      var selected := WallSelect(pool, axis, env);
      crate := WallCrate(selected);
      excluded := null;
    }

    /** The memoised set: every call returns the same object, with whatever callers have put in it. */
    method ExcludedIds() returns (s: IdSet)
      modifies this
      ensures excluded == s
      ensures old(excluded) == null ==> fresh(s) && s.ids == Ids(crate.listings)
      ensures old(excluded) != null ==> s == old(excluded) && s.ids == old(excluded.ids)
    {
      if excluded == null {
        excluded := new IdSet(Ids(crate.listings));
      }
      s := excluded;
    }
  }

  /** `add_crate`. */
  method AddCrate(seen: IdSet, crates: seq<Crate>) returns (added: seq<Crate>)
    requires |crates| <= 1
    modifies seen
    ensures added == crates && seen.ids == old(seen.ids) + Ids(Listings(crates))
  {
    if |crates| == 1 {
      seen.AddAll(crates[0].listings);
      assert crates == [crates[0]] && crates[..0] == [];
      assert Listings(crates) == crates[0].listings;
    } else {
      assert Listings(crates) == [];
    }
    added := crates;
  }

  method BuildFeatured(pool: seq<Listing>, axis: Axis, env: Env, excluded: IdSet) returns (crates: seq<Crate>)
    ensures crates == Featured(pool, axis, env, excluded.ids)
  {
    var seen := new IdSet(excluded.ids);
    var a := AddCrate(seen, NewArrivalsStage(pool, env, seen.ids));
    var b := AddCrate(seen, ThematicStage(pool, axis, env, seen.ids));
    var gems := HiddenGemsSelect(pool, axis, seen.ids, env);
    var c := AddCrate(seen, Viable(HiddenGemsCrate(Take(gems, CRATE_SIZE))));
    crates := a + b + c;
  }

  lemma {:induction false} ListingsSnoc(crates: seq<Crate>, c: Crate)
    ensures Listings(crates + [c]) == Listings(crates) + c.listings
  {
    assert (crates + [c])[..|crates|] == crates;
  }

  lemma {:induction false} ListingsConcat(a: seq<Crate>, b: seq<Crate>)
    ensures Listings(a + b) == Listings(a) + Listings(b)
    decreases |b|
  {
    if b == [] {
      assert a + b == a;
    } else {
      var init, last := b[..|b|-1], b[|b|-1];
      ListingsConcat(a, init);
      ListingsSnoc(a + init, last);
      ListingsSnoc(init, last);
      assert b == init + [last];
      assert a + b == (a + init) + [last];
      Associative(Listings(a), Listings(init), last.listings);
    }
  }

  lemma {:induction false} Associative<T>(x: seq<T>, y: seq<T>, z: seq<T>)
    ensures (x + y) + z == x + (y + z)
  {
  }

  lemma {:induction false} IdsConcat(a: seq<Listing>, b: seq<Listing>)
    ensures Ids(a + b) == Ids(a) + Ids(b)
  {
    assert forall l :: l in a + b <==> l in a || l in b;
  }

  lemma {:induction false} ShownIdsConcat(a: seq<Crate>, b: seq<Crate>)
    ensures Ids(Listings(a + b)) == Ids(Listings(a)) + Ids(Listings(b))
  {
    ListingsConcat(a, b);
    IdsConcat(Listings(a), Listings(b));
  }

  lemma {:induction false} AllocateSnoc(pool: seq<Listing>, axis: Axis, env: Env, order: seq<Name>, i: nat, seen: set<int>)
    requires i < |order|
    ensures Allocate(pool, axis, env, order[..i+1], seen)
         == Allocate(pool, axis, env, order[..i], seen)
            + BinStage(pool, axis, env, order[i], seen + Ids(Listings(Allocate(pool, axis, env, order[..i], seen))))
  {
    assert order[..i+1][..i] == order[..i];
  }

  /** The loop over `genre_crate`, each viable bin merged into the set of seen ids. */
  method AllocateBins(pool: seq<Listing>, axis: Axis, env: Env, order: seq<Name>, excluded: IdSet) returns (built: seq<Crate>)
    ensures built == Allocate(pool, axis, env, order, excluded.ids)
  {
    var seen := new IdSet(excluded.ids);
    built := [];
    for i := 0 to |order|
      invariant built == Allocate(pool, axis, env, order[..i], excluded.ids)
      invariant seen.ids == excluded.ids + Ids(Listings(built))
      invariant fresh(seen)
    {
      AllocateSnoc(pool, axis, env, order, i, excluded.ids);
      var stage := BinStage(pool, axis, env, order[i], seen.ids);
      ShownIdsConcat(built, stage);
      var bin := AddCrate(seen, stage);
      built := built + bin;
    }
    assert order[..|order|] == order;
  }

  method BuildBins(pool: seq<Listing>, axis: Axis, env: Env, excluded: IdSet) returns (crates: seq<Crate>)
    ensures crates == Bins(pool, axis, env, excluded.ids)
  {
    var order := AllocationOrder(axis, pool, env.floors);
    var built := AllocateBins(pool, axis, env, order, excluded);
    AllocatesBins(pool, axis, env, order, excluded.ids);
    crates := SortForDisplay(built, DisplayOrder(axis, pool, env.floors));
  }

  method AddShown(seen: IdSet, crates: seq<Crate>)
    modifies seen
    ensures seen.ids == old(seen.ids) + Ids(Listings(crates))
  {
    for i := 0 to |crates|
      invariant seen.ids == old(seen.ids) + Ids(Listings(crates[..i]))
    {
      seen.AddAll(crates[i].listings);
      assert crates[..i+1][..i] == crates[..i];
      IdsConcat(Listings(crates[..i]), crates[i].listings);
    }
    assert crates[..|crates|] == crates;
  }

  /** `storefront_groups`: the featured ids are put into the wall's own set, in place. */
  method StorefrontGroups(pool: seq<Listing>, env: Env) returns (g: Groups)
    ensures g == GroupsOf(pool, env)
  {
    var axis := AxisFor(pool, env);
    var wall := new Wall(pool, axis, env);
    var seen := wall.ExcludedIds();
    var featured := BuildFeatured(pool, axis, env, seen);
    AddShown(seen, featured);
    var bins := BuildBins(pool, axis, env, seen);
    g := Groups(wall.crate, featured, bins);
  }

  /** `crates`: the featured ids go into a fresh union, and the wall's set is read twice. */
  method Crates(pool: seq<Listing>, env: Env) returns (crates: seq<Crate>)
    ensures var g := GroupsOf(pool, env); crates == [g.wall] + g.featured + g.bins
  {
    var axis := AxisFor(pool, env);
    var wall := new Wall(pool, axis, env);
    var excluded := wall.ExcludedIds();
    var featured := BuildFeatured(pool, axis, env, excluded);
    var featuredIds := Ids(Listings(featured));
    var again := wall.ExcludedIds();
    var union := new IdSet(again.ids + featuredIds);
    var bins := BuildBins(pool, axis, env, union);
    crates := [wall.crate] + featured + bins;
  }

  /** `surfaced_listings`. */
  method SurfacedListings(pool: seq<Listing>, env: Env) returns (surfaced: seq<Listing>)
    ensures var g := GroupsOf(pool, env); surfaced == UniqById(Listings([g.wall] + g.featured + g.bins))
  {
    var g := StorefrontGroups(pool, env);
    surfaced := UniqById(Listings([g.wall] + g.featured + g.bins));
  }
}

/** The tiers and orders of app/models/style_selection.rb, and the genre orders of
    app/services/genres_axis.rb.
 */
module StyleTiers {
  import opened Sequences
  import opened Catalog

  const MIN_RECORDS := 4

  /** The 5% and 1% floors as functions of the number of listings.  Any two functions will
      do below, so the rounding of the float products is not modelled. */
  datatype Floors = Floors(main: nat -> int, rotation: nat -> int)

  // ----- support

  /** `build_support`: one count per listing and style, styles repeated in a listing counted once. */
  method BuildSupport(listings: seq<Listing>) returns (keys: seq<Name>, counts: map<Name, nat>)
    ensures keys == AllNames(Styles, listings)
    ensures forall n :: n in counts <==> n in keys
    ensures forall n :: n in counts ==> counts[n] == NameCount(Styles, listings, n)
  {
    keys, counts := [], map[];
    for i := 0 to |listings|
      invariant keys == AllNames(Styles, listings[..i])
      invariant forall n :: n in counts <==> n in keys
      invariant forall n :: (if n in counts then counts[n] else 0) == NameCount(Styles, listings[..i], n)
    {
      var styles := listings[i].styles;
      counts := CountStyles(counts, styles);
      CountOneMore(listings, i);
      keys := AddNames(keys, styles);
    }
    assert listings[..|listings|] == listings;
  }

  lemma {:induction false} CountOneMore(listings: seq<Listing>, i: nat)
    requires i < |listings|
    ensures AllNames(Styles, listings[..i+1]) == AddNames(AllNames(Styles, listings[..i]), listings[i].styles)
    ensures forall n :: NameCount(Styles, listings[..i+1], n)
              == NameCount(Styles, listings[..i], n) + if n in listings[i].styles then 1 else 0
  {
    assert listings[..i+1][..i] == listings[..i];
    assert listings[..i+1] == listings[..i] + [listings[i]];
    forall n ensures NameCount(Styles, listings[..i+1], n)
                  == NameCount(Styles, listings[..i], n) + if n in listings[i].styles then 1 else 0
    {
      FilterSnoc(listings[..i], listings[i], Matches(Styles, n));
    }
  }

  /** One pass of the inner loop: each distinct style of a listing counted once. */
  method CountStyles(counts: map<Name, nat>, styles: seq<Name>) returns (r: map<Name, nat>)
    ensures forall n :: n in r <==> n in counts || n in styles
    ensures forall n :: (if n in r then r[n] else 0) == (if n in counts then counts[n] else 0) + (if n in styles then 1 else 0)
  {
    r := counts;
    var uniq := AddNames([], styles);
    for j := 0 to |uniq|
      invariant forall n :: n in r <==> n in counts || n in uniq[..j]
      invariant forall n :: (if n in r then r[n] else 0)
                         == (if n in counts then counts[n] else 0) + (if n in uniq[..j] then 1 else 0)
    {
      var n := uniq[j];
      assert n !in uniq[..j];
      assert uniq[..j+1] == uniq[..j] + [n];
      r := r[n := (if n in r then r[n] else 0) + 1];
    }
    assert uniq[..|uniq|] == uniq;
  }

  // ----- tiers

  function NameRanks(names: seq<Name>): map<Name, Rank> {
    map n | n in names :: Rank(0.0, 0, n)
  }

  function IsMain(listings: seq<Listing>, floors: Floors): Name -> bool {
    (n: Name) => NameCount(Styles, listings, n) >= MIN_RECORDS && NameCount(Styles, listings, n) >= floors.main(|listings|)
  }

  function MainStyles(listings: seq<Listing>, floors: Floors): seq<Name> {
    var names := Filter(AllNames(Styles, listings), IsMain(listings, floors));
    SortBy(names, NameRanks(names))
  }

  function IsRotation(listings: seq<Listing>, floors: Floors): Name -> bool {
    (n: Name) => n !in MainStyles(listings, floors)
      && NameCount(Styles, listings, n) >= MIN_RECORDS && NameCount(Styles, listings, n) >= floors.rotation(|listings|)
  }

  function RotationStyles(listings: seq<Listing>, floors: Floors): seq<Name> {
    var names := Filter(AllNames(Styles, listings), IsRotation(listings, floors));
    SortBy(names, NameRanks(names))
  }

  function CountRanks(axis: Axis, listings: seq<Listing>, names: seq<Name>): map<Name, Rank> {
    map n | n in names :: Rank(0.0, 0 - NameCount(axis, listings, n), n)
  }

  /** `display_order`, and `main_styles_by_support`: most supported first, then by name. */
  function StyleDisplayOrder(listings: seq<Listing>, floors: Floors): seq<Name> {
    var main := MainStyles(listings, floors);
    SortBy(main, CountRanks(Styles, listings, main))
  }

  // ----- overlap risk

  function CarriesAny(names: seq<Name>): Listing -> bool {
    (l: Listing) => exists n :: n in l.styles && n in names
  }

  /** Share of a style's listings that also carry a higher style; none for the top style. */
  function OverlapFraction(listings: seq<Listing>, style: Name, higher: seq<Name>): Option<real> {
    var own := Filter(listings, Matches(Styles, style));
    if higher == [] || own == [] then None else Some(Count(own, CarriesAny(higher)) as real / |own| as real)
  }

  function OverlapRisk(listings: seq<Listing>, ordered: seq<Name>): map<Name, real> {
    if ordered == [] then map[] else
      var higher, style := ordered[..|ordered|-1], ordered[|ordered|-1];
      var risks := OverlapRisk(listings, higher);
      match OverlapFraction(listings, style, higher)
      case None => risks
      case Some(fraction) => risks[style := fraction]
  }

  /** `compute_overlap_risk`: the loop that fills the risks hash. */
  method ComputeOverlapRisk(listings: seq<Listing>, ordered: seq<Name>) returns (risks: map<Name, real>)
    ensures risks == OverlapRisk(listings, ordered)
  {
    risks := map[];
    for i := 0 to |ordered|
      invariant risks == OverlapRisk(listings, ordered[..i])
    {
      assert ordered[..i+1][..i] == ordered[..i];
      var fraction := OverlapFraction(listings, ordered[i], ordered[..i]);
      if fraction.Some? {
        risks := risks[ordered[i] := fraction.value];
      }
    }
    assert ordered[..|ordered|] == ordered;
  }

  function RiskOf(risks: map<Name, real>, n: Name): real {
    if n in risks then risks[n] else 0.0
  }

  function AllocationRanks(listings: seq<Listing>, names: seq<Name>, risks: map<Name, real>): map<Name, Rank> {
    map n | n in names :: Rank(-RiskOf(risks, n), NameCount(Styles, listings, n), n)
  }

  /** `allocation_order`: most at risk first, then least supported, then by name. */
  function StyleAllocationOrder(listings: seq<Listing>, floors: Floors): seq<Name> {
    var main := MainStyles(listings, floors);
    SortBy(main, AllocationRanks(listings, main, OverlapRisk(listings, StyleDisplayOrder(listings, floors))))
  }

  /** `GenresAxis#allocation_order`, which is also its display order. */
  function GenreOrder(listings: seq<Listing>): seq<Name> {
    var names := AllNames(Genres, listings);
    SortBy(names, CountRanks(Genres, listings, names))
  }

  function AllocationOrder(axis: Axis, listings: seq<Listing>, floors: Floors): seq<Name> {
    if axis == Genres then GenreOrder(listings) else StyleAllocationOrder(listings, floors)
  }

  function DisplayOrder(axis: Axis, listings: seq<Listing>, floors: Floors): seq<Name> {
    if axis == Genres then GenreOrder(listings) else StyleDisplayOrder(listings, floors)
  }

  // ----- the tiers partition the supported styles

  lemma {:induction false} MainMembers(listings: seq<Listing>, floors: Floors, n: Name)
    ensures n in MainStyles(listings, floors) <==> IsMain(listings, floors)(n)
    ensures NoDup(MainStyles(listings, floors))
  {
    AllNamesAreCounted(Styles, listings, n);
    var names := Filter(AllNames(Styles, listings), IsMain(listings, floors));
    FilterNoDup(AllNames(Styles, listings), IsMain(listings, floors));
    PermutedNoDup(names, MainStyles(listings, floors));
  }

  lemma {:induction false} RotationMembers(listings: seq<Listing>, floors: Floors, n: Name)
    ensures n in RotationStyles(listings, floors) <==> IsRotation(listings, floors)(n)
    ensures NoDup(RotationStyles(listings, floors))
  {
    AllNamesAreCounted(Styles, listings, n);
    var names := Filter(AllNames(Styles, listings), IsRotation(listings, floors));
    FilterNoDup(AllNames(Styles, listings), IsRotation(listings, floors));
    PermutedNoDup(names, RotationStyles(listings, floors));
  }

  /** Main and rotation never share a style, hold exactly the styles over their floors, and both
      crate orders rearrange the main styles. */
  lemma {:induction false} TiersPartition(listings: seq<Listing>, floors: Floors)
    ensures forall n :: n in MainStyles(listings, floors) <==>
              NameCount(Styles, listings, n) >= 4 && NameCount(Styles, listings, n) >= floors.main(|listings|)
    ensures forall n :: n in RotationStyles(listings, floors) <==>
              n !in MainStyles(listings, floors)
              && NameCount(Styles, listings, n) >= 4 && NameCount(Styles, listings, n) >= floors.rotation(|listings|)
    ensures NoDup(MainStyles(listings, floors)) && NoDup(RotationStyles(listings, floors))
    ensures multiset(StyleAllocationOrder(listings, floors)) == multiset(MainStyles(listings, floors))
         == multiset(StyleDisplayOrder(listings, floors))
  {
    forall n ensures n in MainStyles(listings, floors) <==> IsMain(listings, floors)(n) {
      MainMembers(listings, floors, n);
    }
    forall n ensures n in RotationStyles(listings, floors) <==> IsRotation(listings, floors)(n) {
      RotationMembers(listings, floors, n);
    }
    MainMembers(listings, floors, 0);
    RotationMembers(listings, floors, 0);
  }

  lemma {:induction false} SortedByName(names: seq<Name>, i: nat, j: nat)
    requires NoDup(names) && i < j < |names|
    ensures SortBy(names, NameRanks(names))[i] < SortBy(names, NameRanks(names))[j]
  {
    SortByAt(names, NameRanks(names), i, j);
    PermutedNoDup(names, SortBy(names, NameRanks(names)));
  }

  /** Both tiers are listed by name. */
  lemma {:induction false} TiersByName(listings: seq<Listing>, floors: Floors, i: nat, j: nat)
    ensures i < j < |MainStyles(listings, floors)|
            ==> MainStyles(listings, floors)[i] < MainStyles(listings, floors)[j]
    ensures i < j < |RotationStyles(listings, floors)|
            ==> RotationStyles(listings, floors)[i] < RotationStyles(listings, floors)[j]
  {
    var main, rotation := Filter(AllNames(Styles, listings), IsMain(listings, floors)),
                          Filter(AllNames(Styles, listings), IsRotation(listings, floors));
    FilterNoDup(AllNames(Styles, listings), IsMain(listings, floors));
    FilterNoDup(AllNames(Styles, listings), IsRotation(listings, floors));
    if i < j < |main| { SortedByName(main, i, j); }
    if i < j < |rotation| { SortedByName(rotation, i, j); }
  }

  /** Both orders hold every genre that occurs on the genre axis, every main style on the style axis. */
  lemma {:induction false} OrderMembers(axis: Axis, listings: seq<Listing>, floors: Floors, n: Name)
    ensures n in DisplayOrder(axis, listings, floors)
            <==> if axis == Genres then NameCount(Genres, listings, n) > 0 else n in MainStyles(listings, floors)
    ensures n in AllocationOrder(axis, listings, floors) <==> n in DisplayOrder(axis, listings, floors)
  {
    AllNamesAreCounted(Genres, listings, n);
  }

  lemma {:induction false} OrdersNoDup(axis: Axis, listings: seq<Listing>, floors: Floors)
    ensures NoDup(AllocationOrder(axis, listings, floors)) && NoDup(DisplayOrder(axis, listings, floors))
    ensures multiset(AllocationOrder(axis, listings, floors)) == multiset(DisplayOrder(axis, listings, floors))
  {
    match axis
    case Genres => PermutedNoDup(AllNames(Genres, listings), GenreOrder(listings));
    case Styles =>
      TiersPartition(listings, floors);
      PermutedNoDup(MainStyles(listings, floors), StyleAllocationOrder(listings, floors));
      PermutedNoDup(MainStyles(listings, floors), StyleDisplayOrder(listings, floors));
  }

  lemma {:induction false} CountsRank(axis: Axis, listings: seq<Listing>, names: seq<Name>, i: nat, j: nat)
    requires NoDup(names) && i < j < |names|
    ensures var order := SortBy(names, CountRanks(axis, listings, names));
            var more, less := NameCount(axis, listings, order[i]), NameCount(axis, listings, order[j]);
            more > less || (more == less && order[i] < order[j])
  {
    SortByAt(names, CountRanks(axis, listings, names), i, j);
    PermutedNoDup(names, SortBy(names, CountRanks(axis, listings, names)));
  }

  /** Bins are displayed by falling support, then name; genre bins are also allocated in that order. */
  lemma {:induction false} DisplayRank(axis: Axis, listings: seq<Listing>, floors: Floors, i: nat, j: nat)
    requires i < j < |DisplayOrder(axis, listings, floors)|
    ensures var order := DisplayOrder(axis, listings, floors);
            var more, less := NameCount(axis, listings, order[i]), NameCount(axis, listings, order[j]);
            more > less || (more == less && order[i] < order[j])
    ensures AllocationOrder(Genres, listings, floors) == DisplayOrder(Genres, listings, floors)
  {
    if axis == Genres {
      CountsRank(Genres, listings, AllNames(Genres, listings), i, j);
    } else {
      TiersPartition(listings, floors);
      CountsRank(Styles, listings, MainStyles(listings, floors), i, j);
    }
  }

  /** Style bins are allocated by falling overlap risk, then rising support, then name. */
  lemma {:induction false} AllocationRank(listings: seq<Listing>, floors: Floors, i: nat, j: nat)
    requires i < j < |AllocationOrder(Styles, listings, floors)|
    ensures var order := AllocationOrder(Styles, listings, floors);
            var risks := OverlapRisk(listings, DisplayOrder(Styles, listings, floors));
            var high, low := RiskOf(risks, order[i]), RiskOf(risks, order[j]);
            var less, more := NameCount(Styles, listings, order[i]), NameCount(Styles, listings, order[j]);
            high > low || (high == low && (less < more || (less == more && order[i] < order[j])))
  {
    TiersPartition(listings, floors);
    RisksRank(listings, MainStyles(listings, floors), OverlapRisk(listings, StyleDisplayOrder(listings, floors)), i, j);
  }

  lemma {:induction false} RisksRank(listings: seq<Listing>, names: seq<Name>, risks: map<Name, real>, i: nat, j: nat)
    requires NoDup(names) && i < j < |names|
    ensures var order := SortBy(names, AllocationRanks(listings, names, risks));
            var high, low := RiskOf(risks, order[i]), RiskOf(risks, order[j]);
            var less, more := NameCount(Styles, listings, order[i]), NameCount(Styles, listings, order[j]);
            high > low || (high == low && (less < more || (less == more && order[i] < order[j])))
  {
    SortByAt(names, AllocationRanks(listings, names, risks), i, j);
    PermutedNoDup(names, SortBy(names, AllocationRanks(listings, names, risks)));
  }

  // ----- risk

  /** Listings that carry the style and one of the others as well. */
  function CarriesBoth(style: Name, others: seq<Name>): Listing -> bool {
    (l: Listing) => style in l.styles && exists n :: n in l.styles && n in others
  }

  /** The share of the style's listings that carry one of the higher ones as well. */
  function ShareWith(listings: seq<Listing>, style: Name, higher: seq<Name>): real
    requires NameCount(Styles, listings, style) > 0
  {
    Count(listings, CarriesBoth(style, higher)) as real / NameCount(Styles, listings, style) as real
  }

  lemma {:induction false} FractionIsShare(listings: seq<Listing>, style: Name, higher: seq<Name>)
    ensures var fraction := OverlapFraction(listings, style, higher);
            if higher != [] && NameCount(Styles, listings, style) > 0
            then fraction == Some(ShareWith(listings, style, higher)) && 0.0 <= fraction.value <= 1.0
            else fraction == None
  {
    var own := Filter(listings, Matches(Styles, style));
    FilterTwice(listings, Matches(Styles, style), CarriesAny(higher), CarriesBoth(style, higher));
    if own != [] {
      ShareInUnit(Count(own, CarriesAny(higher)), |own|);
    }
  }

  lemma {:induction false} RiskSnoc(listings: seq<Listing>, higher: seq<Name>, style: Name, n: Name)
    ensures var risks, fraction := OverlapRisk(listings, higher + [style]), OverlapFraction(listings, style, higher);
      && (n != style ==> (n in risks <==> n in OverlapRisk(listings, higher))
                         && RiskOf(risks, n) == RiskOf(OverlapRisk(listings, higher), n))
      && (n == style && n !in OverlapRisk(listings, higher) ==>
            (n in risks <==> fraction.Some?) && RiskOf(risks, n) == match fraction case None => 0.0 case Some(f) => f)
  {
    assert (higher + [style])[..|higher|] == higher;
  }

  /** A style has a risk exactly when some listing carries it and a style stands above it.  The risk
      is the share of its listings that carry one of the styles above it, and counts as 0 without one. */
  lemma {:induction false} RiskIsShare(listings: seq<Listing>, ordered: seq<Name>, i: nat)
    requires i < |ordered| && NoDup(ordered)
    ensures var risks, style := OverlapRisk(listings, ordered), ordered[i];
            var atRisk := i > 0 && NameCount(Styles, listings, style) > 0;
            && (style in risks <==> atRisk)
            && RiskOf(risks, style) == (if atRisk then ShareWith(listings, style, ordered[..i]) else 0.0)
            && 0.0 <= RiskOf(risks, style) <= 1.0
    decreases |ordered|
  {
    var higher, style := ordered[..|ordered|-1], ordered[|ordered|-1];
    assert ordered == higher + [style];
    RiskSnoc(listings, higher, style, ordered[i]);
    if i < |higher| {
      assert higher[..i] == ordered[..i];
      RiskIsShare(listings, higher, i);
    } else {
      RiskNames(listings, higher);
      FractionIsShare(listings, style, higher);
    }
  }

  lemma {:induction false} ShareInUnit(part: nat, whole: nat)
    requires part <= whole && whole > 0
    ensures 0.0 <= part as real / whole as real <= 1.0
  {
    assert part as real <= whole as real;
  }

  lemma {:induction false} RiskNames(listings: seq<Listing>, ordered: seq<Name>)
    ensures forall n :: n in OverlapRisk(listings, ordered) ==> n in ordered
  {
    if ordered != [] {
      RiskNames(listings, ordered[..|ordered|-1]);
    }
  }

  lemma {:induction false} TopHasNoRisk(listings: seq<Listing>, ordered: seq<Name>, i: nat)
    requires i < |ordered| && NoDup(ordered)
    ensures RiskOf(OverlapRisk(listings, ordered), ordered[i]) >= 0.0
    ensures i == 0 ==> RiskOf(OverlapRisk(listings, ordered), ordered[i]) == 0.0
  {
    RiskIsShare(listings, ordered, i);
  }

  /** A style with strictly greatest support is allocated last. */
  lemma {:induction false} GreatestSupportLast(listings: seq<Listing>, floors: Floors, top: Name)
    requires top in MainStyles(listings, floors)
    requires forall n :: n in MainStyles(listings, floors) && n != top
               ==> NameCount(Styles, listings, n) < NameCount(Styles, listings, top)
    ensures var order := AllocationOrder(Styles, listings, floors);
            order != [] && order[|order|-1] == top
  {
    var main, display := MainStyles(listings, floors), StyleDisplayOrder(listings, floors);
    var order := StyleAllocationOrder(listings, floors);
    var ranks := AllocationRanks(listings, main, OverlapRisk(listings, display));
    OrdersNoDup(Styles, listings, floors);
    SortBySorted(main, CountRanks(Styles, listings, main));
    assert top in display && display[0] in main;
    FirstIsLeast(display, top, CountRanks(Styles, listings, main));
    assert display[0] == top;
    TopHasNoRisk(listings, display, 0);
    var last := order[|order|-1];
    assert last in main;
    var j :| 0 <= j < |display| && display[j] == last;
    TopHasNoRisk(listings, display, j);
    SortBySorted(main, ranks);
    LastIsGreatest(order, top, ranks);
  }

  // ----- nothing depends on the order of the listings

  lemma {:induction false} CountsPermuted(axis: Axis, a: seq<Listing>, b: seq<Listing>)
    requires multiset(a) == multiset(b)
    ensures |a| == |b|
    ensures forall n :: NameCount(axis, a, n) == NameCount(axis, b, n)
    ensures multiset(AllNames(axis, a)) == multiset(AllNames(axis, b))
  {
    assert |multiset(a)| == |a| && |multiset(b)| == |b|;
    forall n ensures NameCount(axis, a, n) == NameCount(axis, b, n) {
      CountPermuted(a, b, Matches(axis, n));
    }
    forall x ensures x in AllNames(axis, a) <==> x in AllNames(axis, b) {
      AllNamesAreCounted(axis, a, x);
      AllNamesAreCounted(axis, b, x);
    }
    SameElements(AllNames(axis, a), AllNames(axis, b));
  }

  lemma {:induction false} NameRanksInjective(names: seq<Name>)
    ensures Injective(NameRanks(names))
  {
    var ranks := NameRanks(names);
    forall x, y | x in ranks && y in ranks && ranks[x] == ranks[y] ensures x == y {
      assert ranks[x].third == x && ranks[y].third == y;
    }
  }

  /** Sorting by name makes a list of names canonical. */
  lemma {:induction false} SortedNamesEqual(a: seq<Name>, b: seq<Name>)
    requires NoDup(a) && NoDup(b) && forall n :: n in a <==> n in b
    ensures SortBy(a, NameRanks(a)) == SortBy(b, NameRanks(b))
  {
    forall n ensures n in a <==> n in b {
      assert n in a ==> n in b;
    }
    SameElements(a, b);
    assert NameRanks(a) == NameRanks(b);
    NameRanksInjective(a);
    SortByPermuted(a, b, NameRanks(a));
  }

  lemma {:induction false} TiersPermuted(a: seq<Listing>, b: seq<Listing>, floors: Floors)
    requires multiset(a) == multiset(b)
    ensures MainStyles(a, floors) == MainStyles(b, floors)
    ensures RotationStyles(a, floors) == RotationStyles(b, floors)
  {
    CountsPermuted(Styles, a, b);
    FilterNoDup(AllNames(Styles, a), IsMain(a, floors));
    FilterNoDup(AllNames(Styles, b), IsMain(b, floors));
    forall n ensures n in AllNames(Styles, a) <==> n in AllNames(Styles, b) {
      AllNamesAreCounted(Styles, a, n);
      AllNamesAreCounted(Styles, b, n);
    }
    SortedNamesEqual(Filter(AllNames(Styles, a), IsMain(a, floors)), Filter(AllNames(Styles, b), IsMain(b, floors)));
    FilterNoDup(AllNames(Styles, a), IsRotation(a, floors));
    FilterNoDup(AllNames(Styles, b), IsRotation(b, floors));
    SortedNamesEqual(Filter(AllNames(Styles, a), IsRotation(a, floors)), Filter(AllNames(Styles, b), IsRotation(b, floors)));
  }

  lemma {:induction false} RiskPermuted(a: seq<Listing>, b: seq<Listing>, ordered: seq<Name>)
    requires multiset(a) == multiset(b)
    ensures OverlapRisk(a, ordered) == OverlapRisk(b, ordered)
  {
    if ordered != [] {
      var higher, style := ordered[..|ordered|-1], ordered[|ordered|-1];
      RiskPermuted(a, b, higher);
      CountPermuted(a, b, Matches(Styles, style));
      CountPermuted(Filter(a, Matches(Styles, style)), Filter(b, Matches(Styles, style)), CarriesAny(higher));
    }
  }

  lemma {:induction false} CountRanksEqual(axis: Axis, a: seq<Listing>, b: seq<Listing>, names: seq<Name>, names': seq<Name>)
    requires forall n :: NameCount(axis, a, n) == NameCount(axis, b, n)
    requires forall n :: n in names <==> n in names'
    ensures CountRanks(axis, a, names) == CountRanks(axis, b, names')
  {
    var r, r' := CountRanks(axis, a, names), CountRanks(axis, b, names');
    forall n ensures n in r <==> n in r' {
    }
    forall n | n in r ensures r[n] == r'[n] {
      assert NameCount(axis, a, n) == NameCount(axis, b, n);
    }
  }

  lemma {:induction false} AllocationRanksEqual(a: seq<Listing>, b: seq<Listing>, names: seq<Name>, risks: map<Name, real>)
    requires forall n :: NameCount(Styles, a, n) == NameCount(Styles, b, n)
    ensures AllocationRanks(a, names, risks) == AllocationRanks(b, names, risks)
  {
    var r, r' := AllocationRanks(a, names, risks), AllocationRanks(b, names, risks);
    forall n | n in r ensures r[n] == r'[n] {
      assert NameCount(Styles, a, n) == NameCount(Styles, b, n);
    }
  }

  lemma {:induction false} DisplayPermuted(a: seq<Listing>, b: seq<Listing>, floors: Floors)
    requires multiset(a) == multiset(b)
    ensures StyleDisplayOrder(a, floors) == StyleDisplayOrder(b, floors)
  {
    CountsPermuted(Styles, a, b);
    TiersPermuted(a, b, floors);
    CountRanksEqual(Styles, a, b, MainStyles(a, floors), MainStyles(b, floors));
  }

  lemma {:induction false} AllocationPermuted(a: seq<Listing>, b: seq<Listing>, floors: Floors)
    requires multiset(a) == multiset(b)
    ensures OverlapRisk(a, StyleDisplayOrder(a, floors)) == OverlapRisk(b, StyleDisplayOrder(b, floors))
    ensures StyleAllocationOrder(a, floors) == StyleAllocationOrder(b, floors)
  {
    CountsPermuted(Styles, a, b);
    TiersPermuted(a, b, floors);
    DisplayPermuted(a, b, floors);
    RiskPermuted(a, b, StyleDisplayOrder(a, floors));
    AllocationRanksEqual(a, b, MainStyles(a, floors), OverlapRisk(a, StyleDisplayOrder(a, floors)));
  }

  lemma {:induction false} CountRanksInjective(axis: Axis, listings: seq<Listing>, names: seq<Name>)
    ensures Injective(CountRanks(axis, listings, names))
  {
    var ranks := CountRanks(axis, listings, names);
    forall x, y | x in ranks && y in ranks && ranks[x] == ranks[y] ensures x == y {
      assert ranks[x].third == x && ranks[y].third == y;
    }
  }

  lemma {:induction false} GenreOrderPermuted(a: seq<Listing>, b: seq<Listing>)
    requires multiset(a) == multiset(b)
    ensures GenreOrder(a) == GenreOrder(b)
  {
    CountsPermuted(Genres, a, b);
    var names, names' := AllNames(Genres, a), AllNames(Genres, b);
    PermutedNoDup(names, names');
    CountRanksEqual(Genres, a, b, names, names');
    CountRanksInjective(Genres, a, names);
    SortByPermuted(names, names', CountRanks(Genres, a, names));
  }

  /** Support, tiers, risk and both orders depend only on the multiset of listings. */
  lemma {:induction false} OrderIndependent(a: seq<Listing>, b: seq<Listing>, floors: Floors, axis: Axis)
    requires multiset(a) == multiset(b)
    ensures forall n :: NameCount(Styles, a, n) == NameCount(Styles, b, n)
    ensures MainStyles(a, floors) == MainStyles(b, floors)
    ensures RotationStyles(a, floors) == RotationStyles(b, floors)
    ensures OverlapRisk(a, StyleDisplayOrder(a, floors)) == OverlapRisk(b, StyleDisplayOrder(b, floors))
    ensures AllocationOrder(axis, a, floors) == AllocationOrder(axis, b, floors)
    ensures DisplayOrder(axis, a, floors) == DisplayOrder(axis, b, floors)
  {
    CountsPermuted(Styles, a, b);
    TiersPermuted(a, b, floors);
    match axis
    case Genres => GenreOrderPermuted(a, b); AllocationPermuted(a, b, floors);
    case Styles => DisplayPermuted(a, b, floors); AllocationPermuted(a, b, floors);
  }
}

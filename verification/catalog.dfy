/** Listings as curation sees them, and the two axes (genres, styles) that name them. */
module Catalog {
  import opened Sequences

  /** A genre or style name, identified with its place in byte order. */
  type Name = int

  datatype Listing = Listing(
    id: int,
    genres: seq<Name>,
    styles: seq<Name>,
    listedAt: Option<int>,
    want: Option<int>,
    have: Option<int>,
    pictured: bool)

  datatype Axis = Genres | Styles

  /** The names a listing answers to: its primary genre only, or all its styles. */
  function NamesOn(axis: Axis, l: Listing): seq<Name> {
    match axis
    case Genres => Take(l.genres, 1)
    case Styles => l.styles
  }

  /** `key_for`: the first name, or none. */
  function KeyOn(axis: Axis): Listing -> Option<Name> {
    (l: Listing) => if NamesOn(axis, l) == [] then None else Some(NamesOn(axis, l)[0])
  }

  /** `matches?`. */
  function Matches(axis: Axis, name: Name): Listing -> bool {
    (l: Listing) => name in NamesOn(axis, l)
  }

  /** A listing's only genre name is its primary genre, which is also its key; it answers to all its
      styles and is keyed by the first. */
  lemma {:induction false} NamesExactly(l: Listing, name: Name)
    ensures Matches(Genres, name)(l) <==> l.genres != [] && l.genres[0] == name
    ensures Matches(Styles, name)(l) <==> name in l.styles
    ensures KeyOn(Genres)(l) == if l.genres == [] then None else Some(l.genres[0])
    ensures KeyOn(Styles)(l) == if l.styles == [] then None else Some(l.styles[0])
  {
    assert NamesOn(Genres, l) == if l.genres == [] then [] else [l.genres[0]];
  }

  function NameCount(axis: Axis, listings: seq<Listing>, name: Name): nat {
    Count(listings, Matches(axis, name))
  }

  /** The keys of a Ruby hash after these names are entered in turn. */
  function AddNames(keys: seq<Name>, names: seq<Name>): (r: seq<Name>)
    requires NoDup(keys)
    ensures NoDup(r)
    ensures forall x :: x in r <==> x in keys || x in names
  {
    if names == [] then keys else
      var r := AddNames(keys, names[..|names|-1]);
      assert names == names[..|names|-1] + [names[|names|-1]];
      if names[|names|-1] in r then r else r + [names[|names|-1]]
  }

  /** All names carried by the listings, in order of first appearance. */
  function AllNames(axis: Axis, listings: seq<Listing>): (r: seq<Name>)
    ensures NoDup(r)
  {
    if listings == [] then [] else
      AddNames(AllNames(axis, listings[..|listings|-1]), NamesOn(axis, listings[|listings|-1]))
  }

  lemma {:induction false} AllNamesAreCounted(axis: Axis, listings: seq<Listing>, name: Name)
    ensures name in AllNames(axis, listings) <==> NameCount(axis, listings, name) > 0
  {
    if listings != [] {
      AllNamesAreCounted(axis, listings[..|listings|-1], name);
    }
  }

  predicate DistinctIds(s: seq<Listing>) {
    forall i, j :: 0 <= i < j < |s| ==> s[i].id != s[j].id
  }

  function Ids(s: seq<Listing>): set<int> {
    set l | l in s :: l.id
  }

  function OutsideIds(ids: set<int>): Listing -> bool {
    (l: Listing) => l.id !in ids
  }

  /** `uniq(&:id)`: the first listing with each id. */
  function UniqById(s: seq<Listing>): seq<Listing> {
    if s == [] then [] else
      var r := UniqById(s[..|s|-1]);
      if s[|s|-1].id in Ids(r) then r else r + [s[|s|-1]]
  }

  lemma {:induction false} UniqKeepsDistinct(s: seq<Listing>)
    requires DistinctIds(s)
    ensures UniqById(s) == s
  {
    if s != [] {
      UniqKeepsDistinct(s[..|s|-1]);
      assert s == s[..|s|-1] + [s[|s|-1]];
    }
  }

  lemma {:induction false} UniqIds(s: seq<Listing>)
    ensures DistinctIds(UniqById(s)) && Ids(UniqById(s)) == Ids(s)
  {
    if s != [] {
      var front, last := s[..|s|-1], s[|s|-1];
      UniqIds(front);
      assert s == front + [last];
      assert Ids(s) == Ids(front) + {last.id};
      assert Ids(UniqById(front) + [last]) == Ids(UniqById(front)) + {last.id};
    }
  }

  /** The ids stay, each once, with the first listing that carries it. */
  lemma {:induction false} UniqKeepsFirst(s: seq<Listing>, i: nat)
    requires i < |s| && forall j :: 0 <= j < i ==> s[j].id != s[i].id
    ensures DistinctIds(UniqById(s)) && Ids(UniqById(s)) == Ids(s) && s[i] in UniqById(s)
    decreases |s|
  {
    var front := s[..|s|-1];
    UniqIds(s);
    UniqIds(front);
    if i < |front| {
      UniqKeepsFirst(front, i);
    } else {
      assert s[i].id !in Ids(front);
    }
  }

  /** Listings of `pool`, each at most once. */
  ghost predicate DrawnFrom(s: seq<Listing>, pool: seq<Listing>) {
    DistinctIds(s) && forall l :: l in s ==> l in pool
  }

  lemma {:induction false} DistinctIdsNoDup(s: seq<Listing>)
    requires DistinctIds(s)
    ensures NoDup(s)
  {
    forall i, j | 0 <= i < j < |s| ensures s[i] != s[j] {
      assert s[i].id != s[j].id;
    }
  }

  /** In a pool with distinct ids, an id names one listing. */
  lemma {:induction false} SameIdSameListing(pool: seq<Listing>, l: Listing, m: Listing)
    requires DistinctIds(pool) && l in pool && m in pool && l.id == m.id
    ensures l == m
  {
    var i :| 0 <= i < |pool| && pool[i] == l;
    var j :| 0 <= j < |pool| && pool[j] == m;
    if i != j {
      assert pool[i].id != pool[j].id;
    }
  }

  lemma {:induction false} NoDupDrawn(s: seq<Listing>, pool: seq<Listing>)
    requires DistinctIds(pool) && NoDup(s) && forall l :: l in s ==> l in pool
    ensures DrawnFrom(s, pool)
  {
    forall i, j | 0 <= i < j < |s| ensures s[i].id != s[j].id {
      if s[i].id == s[j].id {
        SameIdSameListing(pool, s[i], s[j]);
      }
    }
  }

  lemma {:induction false} PermutedDrawn(a: seq<Listing>, b: seq<Listing>, pool: seq<Listing>)
    requires DistinctIds(pool) && DrawnFrom(a, pool) && multiset(a) == multiset(b)
    ensures DrawnFrom(b, pool) && |a| == |b|
    ensures forall l :: l in a <==> l in b
  {
    DistinctIdsNoDup(a);
    PermutedNoDup(a, b);
    NoDupDrawn(b, pool);
  }

  lemma {:induction false} FilterDrawn(s: seq<Listing>, keep: Listing -> bool, pool: seq<Listing>)
    requires DistinctIds(pool) && DrawnFrom(s, pool)
    ensures DrawnFrom(Filter(s, keep), pool)
  {
    DistinctIdsNoDup(s);
    FilterNoDup(s, keep);
    NoDupDrawn(Filter(s, keep), pool);
  }
}

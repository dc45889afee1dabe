/** app/services/daily_curation_service.rb: surface counters and cache pre-warming for one store. */
module DailyCuration {
  import opened Sequences
  import opened Catalog
  import opened Selection
  import opened Storefront
  import opened StorefrontTheorems
  import CacheProtocol

  /** What the cache holds: the page sections and the flat list of crates, computed separately. */
  datatype Payload = Payload(sections: Groups, crates: seq<Crate>)

  /** Ids appearing anywhere in a payload. */
  function PayloadIds(p: Payload): set<int> {
    Ids(Listings(Shown(p.sections))) + Ids(Listings(p.crates))
  }

  ghost predicate Presents(p: Payload, pool: seq<Listing>, env: Env) {
    p.sections == GroupsOf(pool, env) && p.crates == Shown(p.sections)
  }

  /** The listings counted as surfaced are those of the payload. */
  lemma {:induction false} SurfacedIsPresented(pool: seq<Listing>, env: Env, p: Payload)
    requires DistinctIds(pool) && env.Valid() && Presents(p, pool, env)
    ensures Ids(UniqById(Listings(Shown(GroupsOf(pool, env))))) == PayloadIds(p)
  {
    ShownOnce(pool, env);
  }

  /** The three constructions of one run: the surfaced ids, then the two halves of the payload.
      None of them reads what the run writes. */
  method BuildPage(pool: seq<Listing>, env: Env) returns (surfaced: set<int>, p: Payload)
    requires DistinctIds(pool) && env.Valid()
    ensures Presents(p, pool, env) && surfaced == PayloadIds(p)
  {
    var listings := SurfacedListings(pool, env);
    surfaced := Ids(listings);
    var sections := StorefrontGroups(pool, env);
    var crates := Crates(pool, env);
    p := Payload(sections, crates);
    SurfacedIsPresented(pool, env, p);
  }

  /** Every counter in `ids` up by one, every other unchanged. */
  function CountedOnce(counts: map<int, nat>, ids: set<int>): map<int, nat> {
    map id | id in counts :: counts[id] + if id in ids then 1 else 0
  }

  function Stamped(stamps: map<int, int>, ids: set<int>, clock: int): map<int, int> {
    stamps + (map id | id in ids :: clock)
  }

  /** A row of the payload goes up by one and takes the run's time; no other row changes, and no row
      appears or goes. */
  lemma {:induction false} CountedExactly(counts: map<int, nat>, stamps: map<int, int>, ids: set<int>, clock: int, id: int)
    requires id in counts
    ensures var counts', stamps' := CountedOnce(counts, ids), Stamped(stamps, counts.Keys * ids, clock);
      && counts'.Keys == counts.Keys
      && (id in ids ==> counts'[id] == counts[id] + 1 && id in stamps' && stamps'[id] == clock)
      && (id !in ids ==> counts'[id] == counts[id] && (id in stamps' <==> id in stamps))
      && (id !in ids && id in stamps ==> stamps'[id] == stamps[id])
  {
  }

  class CurationRecords {
    var surfaceCount: map<int, nat>
    var lastSurfaced: map<int, int>
    var cache: map<CacheProtocol.Key, Payload>

    constructor ()
      ensures surfaceCount == map[] && lastSurfaced == map[] && cache == map[]
    {
      surfaceCount, lastSurfaced, cache := map[], map[], map[];
    }

    /** `update_all` on the rows with these ids: one statement, so each row is counted once. */
    method UpdateSurfaced(ids: set<int>, clock: int)
      modifies this`surfaceCount, this`lastSurfaced
      ensures surfaceCount == CountedOnce(old(surfaceCount), ids)
      ensures lastSurfaced == Stamped(old(lastSurfaced), old(surfaceCount).Keys * ids, clock)
    {
      lastSurfaced := lastSurfaced + (map id | id in surfaceCount.Keys * ids :: clock);
      surfaceCount := map id | id in surfaceCount :: surfaceCount[id] + if id in ids then 1 else 0;
    }

    /** `write_curation_cache`. */
    method WriteCache(key: CacheProtocol.Key, payload: Payload)
      modifies this`cache
      ensures cache == old(cache)[key := payload]
    {
      cache := cache[key := payload];
    }

    method Record(surfaced: set<int>, key: CacheProtocol.Key, payload: Payload, clock: int)
      modifies this
      ensures cache == old(cache)[key := payload]
      ensures surfaceCount == CountedOnce(old(surfaceCount), surfaced)
      ensures lastSurfaced == Stamped(old(lastSurfaced), old(surfaceCount).Keys * surfaced, clock)
    {
      UpdateSurfaced(surfaced, clock);
      WriteCache(key, payload);
    }

    /** One run: the page is built once for the counters and twice more for the payload.  The rows
        counted and stamped are precisely those in the payload it leaves in the cache, each once. */
    method Curate(pool: seq<Listing>, env: Env, key: CacheProtocol.Key, clock: int) returns (payload: Payload)
      requires DistinctIds(pool) && env.Valid()
      modifies this
      ensures Presents(payload, pool, env) && cache == old(cache)[key := payload]
      ensures surfaceCount == CountedOnce(old(surfaceCount), PayloadIds(payload))
      ensures lastSurfaced == Stamped(old(lastSurfaced), old(surfaceCount).Keys * PayloadIds(payload), clock)
    {
      var surfaced: set<int>;
      surfaced, payload := BuildPage(pool, env);
      Record(surfaced, key, payload, clock);
    }
  }
}

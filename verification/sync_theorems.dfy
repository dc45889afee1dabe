/** What a sync run does to the listings table, and what visitors may see after it. */
module SyncTheorems {
  import opened Sequences
  import opened Pagination
  import opened Inventory

  const RECENCY := 3 * 86400

  // ----- the table after a run

  /** Ids of the snapshot that this store can hold: those no other store's row already uses. */
  function Claimable(rows: Table, store: StoreId, listings: seq<Record>): set<ListingId> {
    RecordIds(listings) - ForeignIds(rows, store)
  }

  lemma {:induction false} CallRow(s: State, store: StoreId, listings: seq<Record>, id: ListingId)
    ensures var rows := AfterCall(s, store, listings).rows;
            && (id in OwnIds(rows, store) <==> id in OwnIds(s.rows, store) + Claimable(s.rows, store, listings))
            && (id in ForeignIds(rows, store) <==> id in ForeignIds(s.rows, store))
  {
    var batch := IndexById(listings);
    BatchIds(listings);
    if listings != [] {
      UpsertedRows(s.rows, store, batch, id);
      if id in RecordIds(batch) {
        var r :| r in batch && r.id == id;
        assert Upserted(s.rows, store, batch)[id] == UpsertRow(s.rows, store, r);
      }
    }
  }

  lemma {:induction false} CallOwns(s: State, store: StoreId, listings: seq<Record>)
    ensures var t := AfterCall(s, store, listings);
            && OwnIds(t.rows, store) == OwnIds(s.rows, store) + Claimable(s.rows, store, listings)
            && ForeignIds(t.rows, store) == ForeignIds(s.rows, store)
  {
    var rows := AfterCall(s, store, listings).rows;
    var own, foreign := OwnIds(s.rows, store) + Claimable(s.rows, store, listings), ForeignIds(s.rows, store);
    forall id ensures id in OwnIds(rows, store) <==> id in own
              ensures id in ForeignIds(rows, store) <==> id in foreign
    {
      CallRow(s, store, listings, id);
    }
  }

  /** The ids a run leaves: after a complete snapshot exactly the claimable ids of the snapshot,
      otherwise those added to the old ones; the version rises by one exactly when a row went;
      click events are detached exactly from the rows that went. */
  lemma {:induction false} SnapshotApplied(s: State, store: StoreId, result: SyncResult<Record>)
    ensures var t := AfterUpdate(s, store, result); var stale := OwnIds(s.rows, store) - RecordIds(result.listings);
      && OwnIds(t.rows, store) == (if result.complete then {} else OwnIds(s.rows, store)) + Claimable(s.rows, store, result.listings)
      && ForeignIds(t.rows, store) == ForeignIds(s.rows, store)
      && t.version == s.version + (if result.complete && stale != {} then 1 else 0)
      && t.clicks == (if result.complete then Detached(s.clicks, stale) else s.clicks)
  {
    CallOwns(s, store, result.listings);
    var called := AfterCall(s, store, result.listings);
    if result.complete {
      var stale := StaleIds(called.rows, store, result.listings);
      assert stale == OwnIds(s.rows, store) - RecordIds(result.listings);
      var t := AfterRemoveStale(called, store, result.listings);
      assert OwnIds(t.rows, store) == OwnIds(called.rows, store) - stale;
      assert OwnIds(s.rows, store) * RecordIds(result.listings) <= Claimable(s.rows, store, result.listings);
      assert ForeignIds(t.rows, store) == ForeignIds(called.rows, store);
    }
  }

  /** After a complete run the store's ids are those of the snapshot if and only if no snapshot id
      belongs to another store. */
  lemma {:induction false} MirrorsSnapshotIff(s: State, store: StoreId, result: SyncResult<Record>)
    requires result.complete
    ensures OwnIds(AfterUpdate(s, store, result).rows, store) == RecordIds(result.listings)
            <==> RecordIds(result.listings) !! ForeignIds(s.rows, store)
  {
    SnapshotApplied(s, store, result);
    var ids, foreign := RecordIds(result.listings), ForeignIds(s.rows, store);
    if ids - foreign == ids {
      forall id | id in ids ensures id !in foreign {
        assert id in ids - foreign;
      }
    } else {
      assert ids !! foreign ==> ids - foreign == ids;
    }
  }

  function Holding(rows: Table, coverage: Coverage): State {
    State(rows, 0, map[], Idle, None, None, None, None, coverage)
  }

  /** The exception is real: listing 5 is fetched for store 1 while store 2 has a row for it. */
  lemma {:induction false} ForeignRowBreaksMirror(f: Fields, e: Enriched)
    ensures var s := Holding(map[5 := Row(2, f, e)], Unknown);
            var result := SyncResult([Record(5, f, e)], true, None);
            RecordIds(result.listings) == {5} && OwnIds(AfterUpdate(s, 1, result).rows, 1) == {}
  {
    var s := Holding(map[5 := Row(2, f, e)], Unknown);
    var result := SyncResult([Record(5, f, e)], true, None);
    assert RecordIds(result.listings) == {5} && ForeignIds(s.rows, 1) == {5};
    SnapshotApplied(s, 1, result);
  }

  /** Row contents: a fetched id carries the last record fetched for it, prices as stored; a row that
      was already there keeps its store, format, genres, styles and cover; others are untouched. */
  lemma {:induction false} RowContents(s: State, store: StoreId, result: SyncResult<Record>, i: nat)
    requires i < |result.listings| && forall j :: i < j < |result.listings| ==> result.listings[j].id != result.listings[i].id
    ensures var t := AfterUpdate(s, store, result); var r := result.listings[i];
      && r.id in t.rows && t.rows[r.id].fields == CastFields(r.fields)
      && (r.id in s.rows ==> t.rows[r.id].enriched == s.rows[r.id].enriched && t.rows[r.id].store == s.rows[r.id].store)
      && (r.id !in s.rows ==> t.rows[r.id].enriched == r.enriched && t.rows[r.id].store == store)
    ensures var t := AfterUpdate(s, store, result);
      forall id :: id in t.rows && id !in RecordIds(result.listings) ==> id in s.rows && t.rows[id] == s.rows[id]
  {
    var listings := result.listings;
    var r, batch := listings[i], IndexById(listings);
    BatchHoldsLast(listings, i);
    UpsertedRows(s.rows, store, batch, r.id);
    assert r.id in RecordIds(listings);
    forall id | id in AfterUpdate(s, store, result).rows && id !in RecordIds(listings)
      ensures id in s.rows && AfterUpdate(s, store, result).rows[id] == s.rows[id]
    {
      UpsertedRows(s.rows, store, batch, id);
    }
  }

  // ----- from the remote to the table

  function NormalizedIds<T(==)>(items: seq<T>, normalize: T -> Option<Record>): set<ListingId> {
    set x | x in items && normalize(x).Some? :: normalize(x).value.id
  }

  lemma {:induction false} FilterMapIds<T>(items: seq<T>, normalize: T -> Option<Record>)
    ensures RecordIds(FilterMap(items, normalize)) == NormalizedIds(items, normalize)
  {
    if items != [] {
      var init, x := items[..|items|-1], items[|items|-1];
      FilterMapIds(init, normalize);
      assert items == init + [x];
      var rest := FilterMap(init, normalize);
      match normalize(x) {
        case None =>
          assert NormalizedIds(items, normalize) == NormalizedIds(init, normalize);
        case Some(r) =>
          assert RecordIds(rest + [r]) == RecordIds(rest) + {r.id};
          assert NormalizedIds(items, normalize) == NormalizedIds(init, normalize) + {r.id};
      }
    }
  }

  /** End to end: whenever a sync of a fixed remote is declared complete, whatever page limit it ran
      under, the store ends with exactly the normalised remote ids it can hold. */
  lemma {:induction false} CompleteSyncMirrorsRemote<T>(s: State, store: StoreId, remote: Remote<T>, maxPages: Option<nat>,
                                     normalize: T -> Option<Record>, startedAt: int)
    requires remote.Valid() && NoDup(remote.items) && IsComplete(remote, maxPages)
    ensures var result := SyncResult(FilterMap(RawListings(remote, maxPages), normalize), true, Some(CoverageOf(remote, maxPages)));
            var t := AfterSync(s, store, SyncRun(startedAt, Succeeded(result)));
            && OwnIds(t.rows, store) == NormalizedIds(remote.items, normalize) - ForeignIds(s.rows, store)
            && t.total == Some(|OwnIds(t.rows, store)|)
  {
    var raw := RawListings(remote, maxPages);
    var result := SyncResult(FilterMap(raw, normalize), true, Some(CoverageOf(remote, maxPages)));
    CompleteIsSound(remote, maxPages);
    assert NormalizedIds(raw, normalize) == NormalizedIds(remote.items, normalize);
    FilterMapIds(raw, normalize);
    SnapshotApplied(Began(s), store, result);
  }

  // ----- repeating a run

  ghost predicate SameButSeen(a: Record, b: Record) {
    b == a.(fields := a.fields.(lastSeen := b.fields.lastSeen))
  }

  /** The same snapshot fetched again, at other times. */
  ghost predicate Refetched(listings: seq<Record>, again: seq<Record>) {
    |listings| == |again| && forall i :: 0 <= i < |again| ==> SameButSeen(listings[i], again[i])
  }

  lemma {:induction false} RefetchedIds(listings: seq<Record>, again: seq<Record>)
    requires Refetched(listings, again)
    ensures RecordIds(again) == RecordIds(listings)
  {
    forall id ensures id in RecordIds(again) <==> id in RecordIds(listings) {
      if id in RecordIds(again) {
        var i :| 0 <= i < |again| && again[i].id == id;
        assert SameButSeen(listings[i], again[i]) && listings[i] in listings;
      }
      if id in RecordIds(listings) {
        var i :| 0 <= i < |listings| && listings[i].id == id;
        assert SameButSeen(listings[i], again[i]) && again[i] in again;
      }
    }
  }

  lemma {:induction false} RefetchedReplaced(batch: seq<Record>, batch': seq<Record>, r: Record, r': Record)
    requires Refetched(batch, batch') && SameButSeen(r, r')
    ensures Refetched(Replaced(batch, r), Replaced(batch', r'))
    ensures Refetched(batch + [r], batch' + [r'])
  {
    var s, s' := Replaced(batch, r), Replaced(batch', r');
    forall i | 0 <= i < |s'| ensures SameButSeen(s[i], s'[i]) {
      assert SameButSeen(batch[i], batch'[i]);
    }
  }

  lemma {:induction false} RefetchedBatch(listings: seq<Record>, again: seq<Record>)
    requires Refetched(listings, again)
    ensures Refetched(IndexById(listings), IndexById(again))
    ensures RecordIds(again) == RecordIds(listings)
    decreases |listings|
  {
    RefetchedIds(listings, again);
    if listings != [] {
      var n := |listings| - 1;
      var init, init' := listings[..n], again[..n];
      assert Refetched(init, init') by {
        forall i | 0 <= i < n ensures SameButSeen(init[i], init'[i]) {
          assert SameButSeen(listings[i], again[i]);
        }
      }
      RefetchedBatch(init, init');
      RefetchedIds(IndexById(init), IndexById(init'));
      assert SameButSeen(listings[n], again[n]);
      RefetchedReplaced(IndexById(init), IndexById(init'), listings[n], again[n]);
    }
  }

  /** Prices the store keeps as they came. */
  ghost predicate PricesKept(rows: Table, store: StoreId, batch: seq<Record>) {
    forall r :: r in batch && r.id !in ForeignIds(rows, store) ==> TwoDecimals(r.fields.price)
  }

  lemma {:induction false} CastPriceUnchanged(f: Fields)
    ensures CastFields(f).price == f.price <==> TwoDecimals(f.price)
  {
    if f.price.Some? {
      CastKeepsTwoDecimals(f.price.value);
    }
  }

  /** Row by row: what the second upsert finds and leaves. */
  lemma {:induction false} SecondUpsertRow(rows: Table, store: StoreId, listings: seq<Record>, again: seq<Record>, k: nat)
    requires Refetched(listings, again) && k < |IndexById(again)|
    ensures |IndexById(listings)| == |IndexById(again)|
    ensures var t := Upserted(rows, store, IndexById(listings)); var r := IndexById(again)[k];
      && r.id in t && SameButSeen(IndexById(listings)[k], r)
      && t[r.id].fields == CastFields(IndexById(listings)[k].fields)
      && UpsertRow(t, store, r) == t[r.id].(fields := t[r.id].fields.(lastSeen := r.fields.lastSeen))
      && (t[r.id].store == store <==> r.id !in ForeignIds(rows, store))
      && (MateriallyChanged(t[r.id].fields, r.fields) <==> !TwoDecimals(r.fields.price))
  {
    RefetchedBatch(listings, again);
    var first, r := IndexById(listings)[k], IndexById(again)[k];
    UpsertedRows(rows, store, IndexById(listings), r.id);
    assert first in IndexById(listings) && first.id == r.id;
    CastPriceUnchanged(r.fields);
  }

  /** Running the same complete snapshot again deletes nothing, leaves the version alone and changes
      only last-seen times; and it asks for re-enrichment of no row if and only if every price the
      store took in has at most two decimals. */
  lemma {:induction false} SecondRunIdle(s: State, store: StoreId, listings: seq<Record>, again: seq<Record>)
    requires Refetched(listings, again)
    ensures var t := AfterUpdate(s, store, SyncResult(listings, true, None));
            var t' := AfterUpdate(t, store, SyncResult(again, true, None));
      && t'.version == t.version && t'.clicks == t.clicks
      && t'.rows.Keys == t.rows.Keys
      && (forall id :: id in t.rows ==>
            t'.rows[id] == t.rows[id].(fields := t.rows[id].fields.(lastSeen := t'.rows[id].fields.lastSeen)))
      && (Flagged(t, store, again) == {} <==> PricesKept(s.rows, store, IndexById(again)))
  {
    var result := SyncResult(listings, true, None);
    var result' := SyncResult(again, true, None);
    var t := AfterUpdate(s, store, result);
    var t' := AfterUpdate(t, store, result');
    RefetchedBatch(listings, again);
    SnapshotApplied(s, store, result);
    SnapshotApplied(t, store, result');
    FirstRunRows(s, store, listings);
    SecondRunRows(s, store, listings, again);
    assert OwnIds(t.rows, store) - RecordIds(again) == {};
    assert Detached(t.clicks, {}) == t.clicks;
    SecondRunFlags(s, store, listings, again);
  }

  /** The exception is real: a price of 10.999 is stored as 11 and flagged on every identical run. */
  lemma {:induction false} ThirdDecimalFlagsAgain(f: Fields, e: Enriched)
    ensures var s := Holding(map[], Unknown);
            var listings := [Record(5, f.(price := Some(10.999)), e)];
            Flagged(AfterUpdate(s, 1, SyncResult(listings, true, None)), 1, listings) != {}
  {
    var s := Holding(map[], Unknown);
    var r := Record(5, f.(price := Some(10.999)), e);
    assert [r][..0] == [] && IndexById([r]) == [r];
    assert (100.0 * 10.999).Floor == 1099 && !TwoDecimals(r.fields.price);
    assert r.id !in ForeignIds(s.rows, 1);
    SecondRunIdle(s, 1, [r], [r]);
  }

  lemma {:induction false} FirstRunRows(s: State, store: StoreId, listings: seq<Record>)
    ensures var t := AfterUpdate(s, store, SyncResult(listings, true, None));
            var up := Upserted(s.rows, store, IndexById(listings));
            (forall id :: id in t.rows <==> id in up && (id in RecordIds(listings) || up[id].store != store))
            && (forall id :: id in t.rows ==> t.rows[id] == up[id])
  {
  }

  lemma {:induction false} SecondRunRows(s: State, store: StoreId, listings: seq<Record>, again: seq<Record>)
    requires Refetched(listings, again)
    ensures var t := AfterUpdate(s, store, SyncResult(listings, true, None));
            var t' := AfterUpdate(t, store, SyncResult(again, true, None));
      && t'.rows.Keys == t.rows.Keys
      && (forall id :: id in t.rows ==>
            t'.rows[id] == t.rows[id].(fields := t.rows[id].fields.(lastSeen := t'.rows[id].fields.lastSeen)))
  {
    var t := AfterUpdate(s, store, SyncResult(listings, true, None));
    var t' := AfterUpdate(t, store, SyncResult(again, true, None));
    var batch' := IndexById(again);
    RefetchedBatch(listings, again);
    BatchIds(again);
    FirstRunRows(s, store, listings);
    FirstRunRows(t, store, again);
    forall id ensures id in t'.rows <==> id in t.rows
              ensures id in t.rows ==> t'.rows[id] == t.rows[id].(fields := t.rows[id].fields.(lastSeen := t'.rows[id].fields.lastSeen))
    {
      UpsertedRows(t.rows, store, batch', id);
      UpsertedRows(s.rows, store, IndexById(listings), id);
      BatchIds(listings);
      if id in RecordIds(batch') {
        var k :| 0 <= k < |batch'| && batch'[k].id == id;
        SecondUpsertRow(s.rows, store, listings, again, k);
        assert t.rows[id] == Upserted(s.rows, store, IndexById(listings))[id];
        assert UpsertRow(t.rows, store, batch'[k]) == UpsertRow(Upserted(s.rows, store, IndexById(listings)), store, batch'[k]);
        assert batch'[k] in batch';
      }
    }
  }

  /** The rows a second run flags for re-enrichment. */
  function Flagged(t: State, store: StoreId, again: seq<Record>): set<ListingId> {
    ChangedIds(t.rows, store, IndexById(again)) * OwnIds(AfterCall(t, store, again).rows, store)
  }

  lemma {:induction false} FlaggedMember(t: State, store: StoreId, again: seq<Record>, r: Record)
    requires r in IndexById(again)
    ensures r.id in Flagged(t, store, again)
      <==> r.id in OwnIds(AfterCall(t, store, again).rows, store)
           && (r.id !in OwnIds(t.rows, store) || MateriallyChanged(t.rows[r.id].fields, r.fields))
  {
    var batch := IndexById(again);
    forall q | q in batch && q.id == r.id ensures q == r {
      var i :| 0 <= i < |batch| && batch[i] == q;
      var j :| 0 <= j < |batch| && batch[j] == r;
    }
  }

  lemma {:induction false} FlaggedRow(s: State, store: StoreId, listings: seq<Record>, again: seq<Record>, k: nat)
    requires Refetched(listings, again) && k < |IndexById(again)|
    ensures var t := AfterUpdate(s, store, SyncResult(listings, true, None)); var r := IndexById(again)[k];
            r.id in Flagged(t, store, again) <==> r.id !in ForeignIds(s.rows, store) && !TwoDecimals(r.fields.price)
  {
    var t := AfterUpdate(s, store, SyncResult(listings, true, None));
    var r := IndexById(again)[k];
    RefetchedBatch(listings, again);
    BatchIds(again);
    SecondUpsertRow(s.rows, store, listings, again, k);
    assert r in IndexById(again) && r.id in RecordIds(listings);
    FirstRunRows(s, store, listings);
    CallRow(t, store, again, r.id);
    FlaggedMember(t, store, again, r);
  }

  lemma {:induction false} SecondRunFlags(s: State, store: StoreId, listings: seq<Record>, again: seq<Record>)
    requires Refetched(listings, again)
    ensures Flagged(AfterUpdate(s, store, SyncResult(listings, true, None)), store, again) == {}
            <==> PricesKept(s.rows, store, IndexById(again))
  {
    var t := AfterUpdate(s, store, SyncResult(listings, true, None));
    var batch', flagged := IndexById(again), Flagged(t, store, again);
    forall r | r in batch'
      ensures r.id in flagged <==> r.id !in ForeignIds(s.rows, store) && !TwoDecimals(r.fields.price)
    {
      var k :| 0 <= k < |batch'| && batch'[k] == r;
      FlaggedRow(s, store, listings, again, k);
    }
    assert forall id :: id in flagged ==> exists r :: r in batch' && r.id == id;
  }

  // ----- availability

  /** `Listings::AvailableQuery` on one of the store's rows. */
  predicate IsAvailable(s: State, row: Row, now: int) {
    if s.coverage == Partial then row.fields.lastSeen > now - RECENCY
    else match s.lastSynced
      case Some(at) => row.fields.lastSeen >= at
      case None => row.fields.lastSeen > now - RECENCY
  }

  function AvailableIds(s: State, store: StoreId, now: int): set<ListingId> {
    set id | id in s.rows && s.rows[id].store == store && IsAvailable(s, s.rows[id], now)
  }

  /** The earliest last-seen time that makes a row available: within three days for a partial store and
      for one never synced, otherwise the start of the last successful run. */
  function AvailableFrom(s: State, now: int): int {
    if s.coverage == Partial || s.lastSynced == None then now - 3 * 86400 + 1 else s.lastSynced.value
  }

  lemma {:induction false} AvailableExactly(s: State, store: StoreId, now: int, id: ListingId)
    ensures id in AvailableIds(s, store, now)
      <==> id in s.rows && s.rows[id].store == store && s.rows[id].fields.lastSeen >= AvailableFrom(s, now)
  {
  }

  /** Records stamped no earlier than the run began. */
  ghost predicate StampedSince(listings: seq<Record>, startedAt: int) {
    forall r :: r in listings ==> r.fields.lastSeen >= startedAt
  }

  /** Rows a run leaves are fetched rows with the run's stamps, or old rows unchanged. */
  lemma {:induction false} RunRows(s: State, store: StoreId, result: SyncResult<Record>, startedAt: int, id: ListingId)
    requires StampedSince(result.listings, startedAt)
    ensures var t := AfterUpdate(s, store, result);
      && (id in t.rows && id in RecordIds(result.listings)
          ==> exists r :: r in result.listings && r.id == id && t.rows[id].fields.lastSeen == r.fields.lastSeen >= startedAt)
      && (id in t.rows && id !in RecordIds(result.listings) ==> id in s.rows && t.rows[id] == s.rows[id])
  {
    var batch := IndexById(result.listings);
    BatchIds(result.listings);
    UpsertedRows(s.rows, store, batch, id);
    if id in RecordIds(batch) {
      var r :| r in batch && r.id == id;
      assert r in result.listings;
      assert Upserted(s.rows, store, batch)[id] == UpsertRow(s.rows, store, r);
    }
  }

  /** What is available after a successful non-partial run: the snapshot, and those rows left over
      whose stamp is as late as the run's start. */
  lemma {:induction false} AvailableParts(s: State, store: StoreId, run: SyncRun, now: int, id: ListingId)
    requires run.outcome.Succeeded? && StampedSince(run.outcome.result.listings, run.startedAt)
    requires AfterSync(s, store, run).coverage != Partial
    ensures var result := run.outcome.result;
      id in AvailableIds(AfterSync(s, store, run), store, now)
      <==> id in Claimable(s.rows, store, result.listings)
           || (!result.complete && id in OwnIds(s.rows, store) - RecordIds(result.listings)
               && s.rows[id].fields.lastSeen >= run.startedAt)
  {
    var result := run.outcome.result;
    var t := AfterSync(s, store, run);
    assert t.rows == AfterUpdate(Began(s), store, result).rows;
    SnapshotApplied(Began(s), store, result);
    RunRows(Began(s), store, result, run.startedAt, id);
    assert id in AvailableIds(t, store, now) <==> id in OwnIds(t.rows, store) && t.rows[id].fields.lastSeen >= run.startedAt;
  }

  /** After a successful run with non-partial coverage, at any time: the available listings are
      exactly those the run brought in, if and only if the snapshot was complete or no other row of
      the store carries a stamp as late as the run's start. */
  lemma {:induction false} AvailableIsSnapshotIff(s: State, store: StoreId, run: SyncRun, now: int)
    requires run.outcome.Succeeded? && StampedSince(run.outcome.result.listings, run.startedAt)
    requires AfterSync(s, store, run).coverage != Partial
    ensures var listings := run.outcome.result.listings;
      AvailableIds(AfterSync(s, store, run), store, now) == Claimable(s.rows, store, listings)
      <==> run.outcome.result.complete
           || forall id :: id in OwnIds(s.rows, store) - RecordIds(listings) ==> s.rows[id].fields.lastSeen < run.startedAt
  {
    var result := run.outcome.result;
    var available := AvailableIds(AfterSync(s, store, run), store, now);
    var claimable, others := Claimable(s.rows, store, result.listings), OwnIds(s.rows, store) - RecordIds(result.listings);
    forall id ensures id in available
      <==> id in claimable || (!result.complete && id in others && s.rows[id].fields.lastSeen >= run.startedAt)
    {
      AvailableParts(s, store, run, now, id);
    }
    assert claimable !! others;
  }

  /** The exception is real: an incomplete run that fetched nothing leaves a row stamped at its start available. */
  lemma {:induction false} LeftoverStaysAvailable(f: Fields, e: Enriched, now: int)
    ensures var s := Holding(map[5 := Row(1, f, e)], NearComplete);
            var run := SyncRun(f.lastSeen, Succeeded(SyncResult([], false, None)));
            AvailableIds(AfterSync(s, 1, run), 1, now) != Claimable(s.rows, 1, [])
  {
    var s := Holding(map[5 := Row(1, f, e)], NearComplete);
    var run := SyncRun(f.lastSeen, Succeeded(SyncResult([], false, None)));
    AvailableIsSnapshotIff(s, 1, run, now);
    assert 5 in OwnIds(s.rows, 1) - RecordIds([]);
  }

  /** With partial coverage everything the run brought in is available for three days. */
  lemma {:induction false} PartialIncludesSnapshot(s: State, store: StoreId, run: SyncRun, now: int)
    requires run.outcome.Succeeded? && StampedSince(run.outcome.result.listings, now - RECENCY + 1)
    requires AfterSync(s, store, run).coverage == Partial
    ensures Claimable(s.rows, store, run.outcome.result.listings) <= AvailableIds(AfterSync(s, store, run), store, now)
  {
    var result := run.outcome.result;
    var t := AfterSync(s, store, run);
    SnapshotApplied(Began(s), store, result);
    forall id | id in Claimable(s.rows, store, result.listings) ensures id in AvailableIds(t, store, now) {
      assert id in OwnIds(AfterUpdate(Began(s), store, result).rows, store);
      RunRows(Began(s), store, result, now - RECENCY + 1, id);
    }
  }

  /** After a successful run with partial coverage, a row is available exactly if the run brought it in
      within three days, or it is a leftover of an incomplete run seen within three days. */
  lemma {:induction false} PartialAvailableIff(s: State, store: StoreId, run: SyncRun, now: int, id: ListingId)
    requires run.outcome.Succeeded? && StampedSince(run.outcome.result.listings, now - 3 * 86400 + 1)
    requires AfterSync(s, store, run).coverage == Partial
    ensures var result := run.outcome.result;
      id in AvailableIds(AfterSync(s, store, run), store, now)
      <==> id in Claimable(s.rows, store, result.listings)
           || (!result.complete && id in OwnIds(s.rows, store) - RecordIds(result.listings)
               && s.rows[id].fields.lastSeen > now - 3 * 86400)
  {
    var result := run.outcome.result;
    var t := AfterSync(s, store, run);
    assert t.rows == AfterUpdate(Began(s), store, result).rows;
    SnapshotApplied(Began(s), store, result);
    RunRows(Began(s), store, result, now - 3 * 86400 + 1, id);
    AvailableExactly(t, store, now, id);
  }

  /** The hiding is real: the leftover of an incomplete partial run, last seen thirty days ago, is gone
      from the storefront. */
  lemma {:induction false} StaleLeftoverHidden(f: Fields, e: Enriched)
    ensures var s := Holding(map[5 := Row(1, f, e)], Partial); var now := f.lastSeen + 30 * 86400;
            var run := SyncRun(now, Succeeded(SyncResult([], false, Some(Partial))));
            5 in AfterSync(s, 1, run).rows && AvailableIds(AfterSync(s, 1, run), 1, now) == {}
  {
    var s := Holding(map[5 := Row(1, f, e)], Partial);
    var now := f.lastSeen + 30 * 86400;
    var run := SyncRun(now, Succeeded(SyncResult([], false, Some(Partial))));
    forall id ensures id !in AvailableIds(AfterSync(s, 1, run), 1, now) {
      PartialAvailableIff(s, 1, run, now, id);
    }
  }

  /** A run whose fetch raises changes no row, and for a synced non-partial store it leaves the
      available set unchanged at any two moments. */
  lemma {:induction false} FailedFetchKeepsAvailability(s: State, store: StoreId, run: SyncRun, now: int, later: int)
    requires run.outcome.FetchFailed?
    ensures AfterSync(s, store, run).rows == s.rows && AfterSync(s, store, run).version == s.version
    ensures AvailableIds(AfterSync(s, store, run), store, now) == AvailableIds(s, store, now)
    ensures s.coverage != Partial && s.lastSynced.Some?
            ==> AvailableIds(AfterSync(s, store, run), store, later) == AvailableIds(s, store, now)
  {
  }

  // ----- runs cut short

  lemma {:induction false} RemovalUpToOwns(s: State, store: StoreId, listings: seq<Record>, reached: UpdateStep)
    ensures var t := RemovalUpTo(s, store, listings, reached); var stale := StaleIds(s.rows, store, listings);
            var deleted := reached.RowsDeleted? || reached.VersionBumped?;
      && OwnIds(t.rows, store) == OwnIds(s.rows, store) - (if deleted then stale else {})
      && ForeignIds(t.rows, store) == ForeignIds(s.rows, store)
      && t.version == s.version + (if reached.VersionBumped? && stale != {} then 1 else 0)
      && t.clicks == (if deleted || reached.ClicksDetached? then Detached(s.clicks, stale) else s.clicks)
  {
    var stale := StaleIds(s.rows, store, listings);
    assert OwnIds(s.rows - stale, store) == OwnIds(s.rows, store) - stale;
    assert ForeignIds(s.rows - stale, store) == ForeignIds(s.rows, store);
  }

  /** Ids, version and clicks after an update that got as far as `reached`. */
  lemma {:induction false} UpdateUpToOwns(s: State, store: StoreId, result: SyncResult<Record>, reached: UpdateStep)
    ensures var t := UpdateUpTo(s, store, result, reached); var stale := OwnIds(s.rows, store) - RecordIds(result.listings);
            var deleted := reached.RowsDeleted? || reached.VersionBumped?;
            var claimed := if reached == Started then {} else Claimable(s.rows, store, result.listings);
      && OwnIds(t.rows, store) == (OwnIds(s.rows, store) - if result.complete && deleted then stale else {}) + claimed
      && ForeignIds(t.rows, store) == ForeignIds(s.rows, store)
      && t.version == s.version + (if result.complete && reached.VersionBumped? && stale != {} then 1 else 0)
      && t.clicks == (if result.complete && (deleted || reached.ClicksDetached?) then Detached(s.clicks, stale) else s.clicks)
  {
    if reached != Started {
      CallOwns(s, store, result.listings);
      var called := AfterCall(s, store, result.listings);
      var own, ids, claimed := OwnIds(s.rows, store), RecordIds(result.listings), Claimable(s.rows, store, result.listings);
      assert claimed <= ids;
      assert StaleIds(called.rows, store, result.listings) == own - ids;
      assert (own + claimed) - (own - ids) == (own - (own - ids)) + claimed;
      RemovalUpToOwns(called, store, result.listings, reached);
    }
  }

  /** What a run whose complete snapshot has these ids does to rows, clicks and version. */
  ghost predicate Completed(s: State, u: State, store: StoreId, ids: set<ListingId>) {
    var stale := OwnIds(s.rows, store) - ids;
    && OwnIds(u.rows, store) == ids - ForeignIds(s.rows, store)
    && u.clicks == Detached(s.clicks, stale)
    && u.version == s.version + if stale == {} then 0 else 1
  }

  /** What a run with such a snapshot does when it is cut short. */
  ghost predicate CutShort(s: State, t: State, store: StoreId, ids: set<ListingId>, reached: UpdateStep) {
    var stale := OwnIds(s.rows, store) - ids;
    var deleted := reached.RowsDeleted? || reached.VersionBumped?;
    && ForeignIds(t.rows, store) == ForeignIds(s.rows, store)
    && OwnIds(t.rows, store) - ids == (if deleted then {} else stale)
    && t.clicks == (if deleted || reached.ClicksDetached? then Detached(s.clicks, stale) else s.clicks)
    && t.version == s.version + if reached.VersionBumped? && stale != {} then 1 else 0
  }

  lemma {:induction false} SucceededCompletes(s: State, store: StoreId, run: SyncRun)
    requires run.outcome.Succeeded? && run.outcome.result.complete
    ensures Completed(s, AfterSync(s, store, run), store, RecordIds(run.outcome.result.listings))
  {
    SnapshotApplied(Began(s), store, run.outcome.result);
  }

  lemma {:induction false} UpdateCutsShort(s: State, store: StoreId, result: SyncResult<Record>, reached: UpdateStep)
    requires result.complete
    ensures CutShort(s, UpdateUpTo(s, store, result, reached), store, RecordIds(result.listings), reached)
  {
    UpdateUpToOwns(s, store, result, reached);
    var own, ids := OwnIds(s.rows, store), RecordIds(result.listings);
    assert Claimable(s.rows, store, result.listings) <= ids;
    assert (own - (own - ids)) - ids == {};
  }

  lemma {:induction false} MarkingKeepsRows(s: State, store: StoreId, failure: Failure)
    ensures var t := MarkedFailed(s, failure); t.rows == s.rows && t.clicks == s.clicks && t.version == s.version
  {
  }

  lemma {:induction false} UpdateFailedCutsShort(s: State, store: StoreId, run: SyncRun)
    requires run.outcome.UpdateFailed? && run.outcome.result.complete
    ensures CutShort(s, AfterSync(s, store, run), store, RecordIds(run.outcome.result.listings), run.outcome.reached)
  {
    var result, reached := run.outcome.result, run.outcome.reached;
    var t := UpdateUpTo(Began(s), store, result, reached);
    UpdateCutsShort(Began(s), store, result, reached);
    assert CutShort(s, t, store, RecordIds(result.listings), reached);
    MarkingKeepsRows(t, store, run.outcome.failure);
    assert AfterSync(s, store, run) == MarkedFailed(t, run.outcome.failure);
  }

  lemma {:induction false} DetachedTwice(clicks: map<nat, Option<ListingId>>, gone: set<ListingId>)
    ensures Detached(Detached(clicks, gone), gone) == Detached(clicks, gone) && Detached(clicks, {}) == clicks
  {
  }

  lemma {:induction false} CompletedAfterCut(s: State, t: State, u: State, once: State, store: StoreId,
                                             ids: set<ListingId>, reached: UpdateStep)
    requires CutShort(s, t, store, ids, reached) && Completed(t, u, store, ids) && Completed(s, once, store, ids)
    ensures OwnIds(u.rows, store) == OwnIds(once.rows, store) && u.clicks == once.clicks
    ensures once.version == u.version + if OwnIds(s.rows, store) - ids != {} && reached == RowsDeleted then 1 else 0
  {
    DetachedTwice(s.clicks, OwnIds(s.rows, store) - ids);
    DetachedTwice(t.clicks, {});
  }

  /** A complete update cut short anywhere and run again with the same ids ends with the rows and the
      clicks of an uninterrupted one.  When rows had to go, the two runs together bump the version
      once, unless the first stopped between its delete and its bump: then the rows are gone and no
      bump is ever made for them. */
  lemma {:induction false} RetryConverges(s: State, store: StoreId, first: SyncRun, second: SyncRun)
    requires first.outcome.UpdateFailed? && first.outcome.result.complete
    requires second.outcome.Succeeded? && second.outcome.result.complete
    requires RecordIds(first.outcome.result.listings) == RecordIds(second.outcome.result.listings)
    ensures var u := AfterSync(AfterSync(s, store, first), store, second);
            var once := AfterSync(s, store, second);
            var stale := OwnIds(s.rows, store) - RecordIds(second.outcome.result.listings);
      && OwnIds(u.rows, store) == OwnIds(once.rows, store) && u.clicks == once.clicks
      && (u.version == s.version + 1 <==> stale != {} && first.outcome.reached != RowsDeleted)
      && (u.version != s.version + 1 ==> u.version == s.version)
  {
    var t := AfterSync(s, store, first);
    var ids := RecordIds(second.outcome.result.listings);
    UpdateFailedCutsShort(s, store, first);
    SucceededCompletes(t, store, second);
    SucceededCompletes(s, store, second);
    CompletedAfterCut(s, t, AfterSync(t, store, second), AfterSync(s, store, second), store, ids, first.outcome.reached);
  }

  /** The lost bump is real: a run that dies after deleting the one row, and its retry. */
  lemma {:induction false} BumpLost(f: Fields, e: Enriched)
    ensures var s := Holding(map[5 := Row(1, f, e)], NearComplete);
            var empty := SyncResult([], true, None);
            var u := AfterSync(AfterSync(s, 1, SyncRun(0, UpdateFailed(empty, RowsDeleted, Died))), 1, SyncRun(1, Succeeded(empty)));
            OwnIds(s.rows, 1) == {5} && OwnIds(u.rows, 1) == {} && u.version == s.version
  {
    var s := Holding(map[5 := Row(1, f, e)], NearComplete);
    var empty := SyncResult([], true, None);
    var first, second := SyncRun(0, UpdateFailed(empty, RowsDeleted, Died)), SyncRun(1, Succeeded(empty));
    assert 5 in OwnIds(s.rows, 1);
    RetryConverges(s, 1, first, second);
    SucceededCompletes(s, 1, second);
  }

  /** What visitors see after an update cut short, on any store whose run stamped its records late
      enough to be seen: what was available before and this run's listings side by side, without the
      rows already deleted. */
  lemma {:induction false} UpdateFailedAvailability(s: State, store: StoreId, run: SyncRun, now: int)
    requires run.outcome.UpdateFailed? && StampedSince(run.outcome.result.listings, AvailableFrom(s, now))
    ensures var listings, reached := run.outcome.result.listings, run.outcome.reached;
            var deleted := run.outcome.result.complete && (reached.RowsDeleted? || reached.VersionBumped?);
            AvailableIds(AfterSync(s, store, run), store, now)
            == (AvailableIds(s, store, now) - if deleted then OwnIds(s.rows, store) - RecordIds(listings) else {})
               + if reached == Started then {} else Claimable(s.rows, store, listings)
  {
    var result, reached := run.outcome.result, run.outcome.reached;
    var t := AfterSync(s, store, run);
    var deleted := result.complete && (reached.RowsDeleted? || reached.VersionBumped?);
    UpdateUpToOwns(Began(s), store, result, reached);
    assert t.rows == UpdateUpTo(Began(s), store, result, reached).rows;
    assert AvailableFrom(t, now) == AvailableFrom(s, now);
    forall id | id in OwnIds(t.rows, store)
      ensures id in AvailableIds(t, store, now)
        <==> (id in AvailableIds(s, store, now) || (reached != Started && id in Claimable(s.rows, store, result.listings)))
    {
      AvailableExactly(t, store, now, id);
      AvailableExactly(s, store, now, id);
      if reached != Started {
        RunRows(Began(s), store, result, AvailableFrom(s, now), id);
        RunRows(Began(s), store, result.(complete := false), AvailableFrom(s, now), id);
        UpdateUpToRows(Began(s), store, result, reached);
      }
    }
  }

  /** Every click event that points at a listing points at a row there is, as the foreign key demands. */
  ghost predicate ClicksResolve(s: State) {
    forall c :: c in s.clicks && s.clicks[c].Some? ==> s.clicks[c].value in s.rows
  }

  lemma {:induction false} SameTables(s: State, t: State)
    requires ClicksResolve(s) && t.rows == s.rows && t.clicks == s.clicks
    ensures ClicksResolve(t)
  {
  }

  lemma {:induction false} WholeUpdate(s: State, store: StoreId, result: SyncResult<Record>)
    ensures UpdateUpTo(s, store, result, VersionBumped) == AfterUpdate(s, store, result)
  {
  }

  /** No run leaves a dangling click event, wherever it is cut. */
  lemma {:induction false} ClicksStayResolved(s: State, store: StoreId, run: SyncRun)
    requires ClicksResolve(s)
    ensures ClicksResolve(AfterSync(s, store, run))
  {
    var t := AfterSync(s, store, run);
    match run.outcome
    case FetchFailed(_) =>
      SameTables(s, t);
    case UpdateFailed(result, reached, failure) =>
      UpdateResolves(Began(s), store, result, reached);
      MarkingKeepsRows(UpdateUpTo(Began(s), store, result, reached), store, failure);
      SameTables(UpdateUpTo(Began(s), store, result, reached), t);
    case Succeeded(result) =>
      UpdateResolves(Began(s), store, result, VersionBumped);
      WholeUpdate(Began(s), store, result);
      SameTables(AfterUpdate(Began(s), store, result), t);
  }

  lemma {:induction false} UpdateResolves(s: State, store: StoreId, result: SyncResult<Record>, reached: UpdateStep)
    requires ClicksResolve(s)
    ensures ClicksResolve(UpdateUpTo(s, store, result, reached))
  {
    var called := AfterCall(s, store, result.listings);
    assert ClicksResolve(called) by {
      forall id | id in s.rows ensures id in called.rows {
        UpsertedRows(s.rows, store, IndexById(result.listings), id);
      }
    }
    var t := RemovalUpTo(called, store, result.listings, reached);
    forall c | c in t.clicks && t.clicks[c].Some? ensures t.clicks[c].value in t.rows {
      assert c in called.clicks && t.clicks[c] == called.clicks[c];
    }
  }

  // ----- histories of runs

  /** Every stamp in the store's rows is older than `clock`. */
  ghost predicate StampsBefore(s: State, store: StoreId, clock: int) {
    forall id :: id in OwnIds(s.rows, store) ==> s.rows[id].fields.lastSeen < clock
  }

  /** One run on a clock: it starts after every earlier stamp, and its own stamps fall between
      its start and its end. */
  datatype TimedRun = TimedRun(run: SyncRun, endedAt: int)

  ghost predicate StampedWithin(run: SyncRun, endedAt: int) {
    && run.startedAt <= endedAt
    && (!run.outcome.FetchFailed? ==> StampedSince(run.outcome.result.listings, run.startedAt))
    && (!run.outcome.FetchFailed? ==> forall r :: r in run.outcome.result.listings ==> r.fields.lastSeen < endedAt)
  }

  ghost predicate OnClock(runs: seq<TimedRun>, clock: int) {
    && (forall i :: 0 <= i < |runs| ==> clock <= runs[i].run.startedAt && StampedWithin(runs[i].run, runs[i].endedAt))
    && (forall i, j :: 0 <= i < j < |runs| ==> runs[i].endedAt <= runs[j].run.startedAt)
  }

  function AfterRuns(s: State, store: StoreId, runs: seq<TimedRun>): State {
    if runs == [] then s else AfterSync(AfterRuns(s, store, runs[..|runs|-1]), store, runs[|runs|-1].run)
  }

  lemma {:induction false} StampsAfterUpdate(s: State, store: StoreId, result: SyncResult<Record>, startedAt: int, endedAt: int)
    requires StampsBefore(s, store, endedAt) && StampedSince(result.listings, startedAt)
    requires forall r :: r in result.listings ==> r.fields.lastSeen < endedAt
    ensures StampsBefore(AfterUpdate(s, store, result), store, endedAt)
  {
    var t := AfterUpdate(s, store, result);
    SnapshotApplied(s, store, result);
    forall id | id in OwnIds(t.rows, store) ensures t.rows[id].fields.lastSeen < endedAt {
      RunRows(s, store, result, startedAt, id);
      assert id !in RecordIds(result.listings) ==> id in OwnIds(s.rows, store);
    }
  }

  /** An update cut short leaves the rows it found, or those of an update that removes nothing, or
      those of the whole update. */
  lemma {:induction false} UpdateUpToRows(s: State, store: StoreId, result: SyncResult<Record>, reached: UpdateStep)
    ensures var rows := UpdateUpTo(s, store, result, reached).rows;
            || rows == s.rows
            || rows == AfterUpdate(s, store, result).rows
            || rows == AfterUpdate(s, store, result.(complete := false)).rows
  {
  }

  lemma {:induction false} StampsAfterSync(s: State, store: StoreId, run: SyncRun, clock: int, endedAt: int)
    requires StampsBefore(s, store, clock) && clock <= run.startedAt && StampedWithin(run, endedAt)
    ensures StampsBefore(AfterSync(s, store, run), store, endedAt)
  {
    assert StampsBefore(Began(s), store, endedAt);
    if !run.outcome.FetchFailed? {
      var result := run.outcome.result;
      StampsAfterUpdate(Began(s), store, result, run.startedAt, endedAt);
      StampsAfterUpdate(Began(s), store, result.(complete := false), run.startedAt, endedAt);
      if run.outcome.UpdateFailed? {
        UpdateUpToRows(Began(s), store, result, run.outcome.reached);
      }
    }
  }

  lemma {:induction false} StampsAfterRuns(s: State, store: StoreId, runs: seq<TimedRun>, clock: int)
    requires StampsBefore(s, store, clock) && OnClock(runs, clock)
    ensures StampsBefore(AfterRuns(s, store, runs), store, if runs == [] then clock else runs[|runs|-1].endedAt)
  {
    if runs != [] {
      var init, last := runs[..|runs|-1], runs[|runs|-1];
      StampsAfterRuns(s, store, init, clock);
      var before := if init == [] then clock else init[|init|-1].endedAt;
      assert before <= last.run.startedAt;
      StampsAfterSync(AfterRuns(s, store, init), store, last.run, before, last.endedAt);
    }
  }

  /** Over any history of syncs, complete or not, failed or not: right after each success that leaves
      the store non-partial, the available listings are exactly those that run brought in. */
  lemma {:induction false} AvailabilityOverRuns(s: State, store: StoreId, runs: seq<TimedRun>, clock: int, now: int)
    requires StampsBefore(s, store, clock) && OnClock(runs, clock)
    requires runs != [] && runs[|runs|-1].run.outcome.Succeeded?
    requires AfterRuns(s, store, runs).coverage != Partial
    ensures var before := AfterRuns(s, store, runs[..|runs|-1]);
            AvailableIds(AfterRuns(s, store, runs), store, now)
            == Claimable(before.rows, store, runs[|runs|-1].run.outcome.result.listings)
  {
    var init, last := runs[..|runs|-1], runs[|runs|-1];
    var before := AfterRuns(s, store, init);
    StampsAfterRuns(s, store, init, clock);
    assert (if init == [] then clock else init[|init|-1].endedAt) <= last.run.startedAt;
    AvailableIsSnapshotIff(before, store, last.run, now);
  }
}

/** Applying a fetched snapshot to the listings table: upsert, stale removal, the sync job around
    them, and which listings count as available afterwards.
 */
module Inventory {
  import opened Sequences
  import opened Pagination

  type ListingId = nat
  type StoreId = nat
  type Text = Option<string>

  /** The columns an upsert overwrites on an existing row. */
  datatype Fields = Fields(
    releaseId: string, artist: Text, title: Text, recordLabel: Text, year: Option<int>, condition: Text,
    price: Option<real>, currency: Text, thumbnail: Text, notes: Text, listedAt: Option<int>, lastSeen: int)

  /** The columns written only when a row is inserted. */
  datatype Enriched = Enriched(format: Text, genres: seq<string>, styles: seq<string>, cover: Text)

  datatype Record = Record(id: ListingId, fields: Fields, enriched: Enriched)

  /** A row of the listings table, which all stores share; listing ids are unique across it. */
  datatype Row = Row(store: StoreId, fields: Fields, enriched: Enriched)

  type Table = map<ListingId, Row>

  function OwnIds(rows: Table, store: StoreId): set<ListingId> {
    set id | id in rows && rows[id].store == store
  }

  function ForeignIds(rows: Table, store: StoreId): set<ListingId> {
    set id | id in rows && rows[id].store != store
  }

  function RecordIds(records: seq<Record>): set<ListingId> {
    set r | r in records :: r.id
  }

  predicate DistinctRecords(records: seq<Record>) {
    forall i, j :: 0 <= i < j < |records| ==> records[i].id != records[j].id
  }

  // ----- prices as stored

  /** decimal(8, 2): two decimals, halves away from zero. */
  function CastPrice(p: real): real {
    if p >= 0.0 then (100.0 * p + 0.5).Floor as real / 100.0 else -((0.5 - 100.0 * p).Floor as real / 100.0)
  }

  predicate TwoDecimals(p: Option<real>) {
    p.Some? ==> (100.0 * p.value).Floor as real == 100.0 * p.value
  }

  function CastFields(f: Fields): Fields {
    f.(price := match f.price case None => None case Some(p) => Some(CastPrice(p)))
  }

  lemma {:induction false} CastKeepsTwoDecimals(p: real)
    ensures CastPrice(p) == p <==> TwoDecimals(Some(p))
  {
    var cents := 100.0 * p;
    if p >= 0.0 {
      FloorShift(cents);
    } else {
      FloorShift(-cents);
      FloorNegated(cents);
    }
  }

  lemma {:induction false} FloorOfInt(n: int)
    ensures (n as real).Floor == n
  {
  }

  lemma {:induction false} FloorNegated(x: real)
    ensures x.Floor as real == x <==> (-x).Floor as real == -x
  {
    var n, m := x.Floor, (-x).Floor;
    FloorOfInt(-n);
    FloorOfInt(-m);
    assert (-n) as real == -(n as real) && (-m) as real == -(m as real);
    assert n as real == x ==> (-n) as real == -x;
    assert m as real == -x ==> (-m) as real == x;
  }

  lemma {:induction false} FloorOfHalf(n: int)
    ensures (n as real + 0.5).Floor == n
  {
  }

  lemma {:induction false} FloorShift(x: real)
    ensures (x + 0.5).Floor as real == x <==> x.Floor as real == x
  {
    FloorOfInt((x + 0.5).Floor);
    FloorOfHalf(x.Floor);
  }

  /** Storage rounds to the nearest cent, halves away from zero, and touches no other column. */
  lemma {:induction false} CastRounds(p: real, f: Fields)
    ensures TwoDecimals(Some(CastPrice(p)))
    ensures if p >= 0.0 then p - 0.005 < CastPrice(p) <= p + 0.005 else p - 0.005 <= CastPrice(p) < p + 0.005
    ensures CastFields(f) == f.(price := if f.price.Some? then Some(CastPrice(f.price.value)) else None)
  {
    if p >= 0.0 {
      CentsAreWhole((100.0 * p + 0.5).Floor);
    } else {
      CentsAreWhole(-(0.5 - 100.0 * p).Floor);
      assert CastPrice(p) == (-(0.5 - 100.0 * p).Floor) as real / 100.0;
    }
  }

  lemma {:induction false} CentsAreWhole(cents: int)
    ensures TwoDecimals(Some(cents as real / 100.0))
  {
    FloorOfInt(cents);
    assert 100.0 * (cents as real / 100.0) == cents as real;
  }

  // ----- upsert

  /** `index_by`: later records replace earlier ones of the same id, in the earlier one's place. */
  function IndexById(listings: seq<Record>): (batch: seq<Record>)
    ensures DistinctRecords(batch)
    ensures forall r :: r in batch ==> r in listings
  {
    if listings == [] then [] else
      var batch := IndexById(listings[..|listings|-1]);
      var r := listings[|listings|-1];
      assert listings == listings[..|listings|-1] + [r];
      if r.id in RecordIds(batch) then Replaced(batch, r) else batch + [r]
  }

  function Replaced(batch: seq<Record>, r: Record): (s: seq<Record>)
    ensures |s| == |batch|
    ensures forall i :: 0 <= i < |s| ==> s[i] == if batch[i].id == r.id then r else batch[i]
    ensures forall i :: 0 <= i < |s| ==> s[i].id == batch[i].id
  {
    seq(|batch|, i requires 0 <= i < |batch| => if batch[i].id == r.id then r else batch[i])
  }

  /** The batch holds each fetched id once, with the last record fetched for it. */
  lemma {:induction false} BatchHoldsLast(listings: seq<Record>, i: nat)
    requires i < |listings| && forall j :: i < j < |listings| ==> listings[j].id != listings[i].id
    ensures listings[i] in IndexById(listings)
    ensures RecordIds(IndexById(listings)) == RecordIds(listings)
    decreases |listings|
  {
    var init, r := listings[..|listings|-1], listings[|listings|-1];
    assert listings == init + [r];
    assert RecordIds(listings) == RecordIds(init) + {r.id};
    var batch := IndexById(init);
    BatchIds(init);
    ReplacedIds(batch, r);
    if i < |init| {
      BatchHoldsLast(init, i);
      var k :| 0 <= k < |batch| && batch[k] == listings[i];
      if r.id in RecordIds(batch) {
        assert Replaced(batch, r)[k] == listings[i];
      }
    } else if r.id in RecordIds(batch) {
      var k :| 0 <= k < |batch| && batch[k].id == r.id;
      assert Replaced(batch, r)[k] == r;
    }
  }

  lemma {:induction false} ReplacedIds(batch: seq<Record>, r: Record)
    ensures RecordIds(Replaced(batch, r)) == RecordIds(batch)
    ensures RecordIds(batch + [r]) == RecordIds(batch) + {r.id}
  {
    var s := Replaced(batch, r);
    forall id ensures id in RecordIds(s) <==> id in RecordIds(batch) {
      if id in RecordIds(s) {
        var i :| 0 <= i < |s| && s[i].id == id;
        assert batch[i] in batch;
      }
      if id in RecordIds(batch) {
        var i :| 0 <= i < |batch| && batch[i].id == id;
        assert s[i] in s;
      }
    }
  }

  lemma {:induction false} BatchIds(listings: seq<Record>)
    ensures RecordIds(IndexById(listings)) == RecordIds(listings)
  {
    if listings != [] {
      var init, r := listings[..|listings|-1], listings[|listings|-1];
      BatchIds(init);
      ReplacedIds(IndexById(init), r);
      assert listings == init + [r];
      assert RecordIds(listings) == RecordIds(init) + {r.id};
    }
  }

  /** One row of `INSERT .. ON CONFLICT DO UPDATE`: an existing row keeps its store and enrichment. */
  function UpsertRow(rows: Table, store: StoreId, r: Record): Row {
    if r.id in rows then rows[r.id].(fields := CastFields(r.fields))
    else Row(store, CastFields(r.fields), r.enriched)
  }

  function Upserted(rows: Table, store: StoreId, batch: seq<Record>): Table {
    if batch == [] then rows else
      var t := Upserted(rows, store, batch[..|batch|-1]);
      t[batch[|batch|-1].id := UpsertRow(t, store, batch[|batch|-1])]
  }

  lemma {:induction false} UpsertedRows(rows: Table, store: StoreId, batch: seq<Record>, id: ListingId)
    requires DistinctRecords(batch)
    ensures var t := Upserted(rows, store, batch);
            && (id in t <==> id in rows || id in RecordIds(batch))
            && (id in rows && id !in RecordIds(batch) ==> t[id] == rows[id])
            && (forall r :: r in batch && r.id == id ==> t[id] == UpsertRow(rows, store, r))
  {
    if batch != [] {
      var init, r := batch[..|batch|-1], batch[|batch|-1];
      UpsertedRows(rows, store, init, id);
      assert batch == init + [r];
      assert r.id !in RecordIds(init);
      assert RecordIds(batch) == RecordIds(init) + {r.id};
      if id == r.id {
        UpsertedRows(rows, store, init, r.id);
      }
    }
  }

  // ----- change detection

  /** `materially_changed?`: the stored price is compared with the price as fetched. */
  predicate MateriallyChanged(stored: Fields, incoming: Fields) {
    stored.releaseId != incoming.releaseId || stored.price != incoming.price
    || stored.condition != incoming.condition || stored.notes != incoming.notes
  }

  /** `detect_changes`: ids of the batch the store does not have or has with other material fields. */
  function ChangedIds(rows: Table, store: StoreId, batch: seq<Record>): set<ListingId> {
    set r | r in batch && (r.id !in OwnIds(rows, store) || MateriallyChanged(rows[r.id].fields, r.fields)) :: r.id
  }

  /** A fetched record counts as changed exactly if the store has no such row, or the row differs in
      release, price, condition or notes; nothing else asks for enrichment. */
  lemma {:induction false} ChangedExactly(rows: Table, store: StoreId, batch: seq<Record>, r: Record)
    requires r in batch && DistinctRecords(batch)
    ensures r.id in ChangedIds(rows, store, batch)
      <==> || r.id !in rows
           || rows[r.id].store != store
           || rows[r.id].fields.releaseId != r.fields.releaseId
           || rows[r.id].fields.price != r.fields.price
           || rows[r.id].fields.condition != r.fields.condition
           || rows[r.id].fields.notes != r.fields.notes
  {
    forall q | q in batch && q.id == r.id ensures q == r {
      var i :| 0 <= i < |batch| && batch[i] == q;
      var j :| 0 <= j < |batch| && batch[j] == r;
    }
  }

  // ----- the store and the job

  datatype SyncStatus = Idle | Syncing | SyncFailed

  datatype State = State(
    rows: Table,
    version: nat,
    clicks: map<nat, Option<ListingId>>,   // click events and the listing each points at
    status: SyncStatus,
    error: Option<string>,
    errorAt: Option<int>,
    lastSynced: Option<int>,
    total: Option<nat>,
    coverage: Coverage)

  function StaleIds(rows: Table, store: StoreId, listings: seq<Record>): set<ListingId> {
    OwnIds(rows, store) - RecordIds(listings)
  }

  function Detached(clicks: map<nat, Option<ListingId>>, gone: set<ListingId>): map<nat, Option<ListingId>> {
    map c | c in clicks :: if clicks[c].Some? && clicks[c].value in gone then None else clicks[c]
  }

  /** Detaching clears the click events that point at a row that goes, and no others. */
  lemma {:induction false} DetachedExactly(clicks: map<nat, Option<ListingId>>, gone: set<ListingId>, c: nat)
    ensures c in Detached(clicks, gone) <==> c in clicks
    ensures c in clicks ==> Detached(clicks, gone)[c] == if clicks[c].Some? && clicks[c].value in gone then None else clicks[c]
  {
  }

  function AfterCall(s: State, store: StoreId, listings: seq<Record>): State {
    if listings == [] then s else s.(rows := Upserted(s.rows, store, IndexById(listings)))
  }

  function AfterRemoveStale(s: State, store: StoreId, listings: seq<Record>): State {
    var stale := StaleIds(s.rows, store, listings);
    s.(rows := s.rows - stale, clicks := Detached(s.clicks, stale),
       version := s.version + if stale == {} then 0 else 1)
  }

  /** `apply_inventory_update`. */
  function AfterUpdate(s: State, store: StoreId, result: SyncResult<Record>): State {
    var called := AfterCall(s, store, result.listings);
    if result.complete then AfterRemoveStale(called, store, result.listings) else called
  }

  // ----- updates cut short

  /** How far an update got before an exception, or before the process died. */
  datatype UpdateStep = Started | RowsUpserted | ClicksDetached | RowsDeleted | VersionBumped

  function RemovalUpTo(s: State, store: StoreId, listings: seq<Record>, reached: UpdateStep): State {
    var stale := StaleIds(s.rows, store, listings);
    match reached
    case Started => s
    case RowsUpserted => s
    case ClicksDetached => s.(clicks := Detached(s.clicks, stale))
    case RowsDeleted => s.(rows := s.rows - stale, clicks := Detached(s.clicks, stale))
    case VersionBumped => AfterRemoveStale(s, store, listings)
  }

  function UpdateUpTo(s: State, store: StoreId, result: SyncResult<Record>, reached: UpdateStep): State {
    if reached == Started then s
    else
      var called := AfterCall(s, store, result.listings);
      if result.complete then RemovalUpTo(called, store, result.listings, reached) else called
  }

  /** A failure is recorded on the store unless the process itself went away. */
  datatype Failure = Died | Reported(error: string, at: int)

  datatype Outcome =
    | FetchFailed(failure: Failure)
    | UpdateFailed(result: SyncResult<Record>, reached: UpdateStep, failure: Failure)
    | Succeeded(result: SyncResult<Record>)

  datatype SyncRun = SyncRun(startedAt: int, outcome: Outcome)

  function Began(s: State): State {
    s.(status := Syncing)
  }

  function MarkedFailed(s: State, failure: Failure): State {
    match failure
    case Died => s
    case Reported(error, at) => s.(status := SyncFailed, error := Some(error), errorAt := Some(at))
  }

  function Finished(t: State, store: StoreId, startedAt: int, coverage: Option<Coverage>): State {
    t.(status := Idle, error := None, errorAt := None, lastSynced := Some(startedAt),
       total := Some(|OwnIds(t.rows, store)|),
       coverage := match coverage case None => t.coverage case Some(c) => c)
  }

  function AfterSync(s: State, store: StoreId, run: SyncRun): State {
    match run.outcome
    case FetchFailed(failure) => MarkedFailed(Began(s), failure)
    case UpdateFailed(result, reached, failure) => MarkedFailed(UpdateUpTo(Began(s), store, result, reached), failure)
    case Succeeded(result) => Finished(AfterUpdate(Began(s), store, result), store, run.startedAt, result.coverage)
  }

  ghost predicate SameReports(s: State, t: State) {
    && t.status == s.status && t.error == s.error && t.errorAt == s.errorAt
    && t.lastSynced == s.lastSynced && t.total == s.total && t.coverage == s.coverage
  }

  lemma {:induction false} UpdateReportsNothing(s: State, store: StoreId, result: SyncResult<Record>, reached: UpdateStep)
    ensures SameReports(s, UpdateUpTo(s, store, result, reached)) && SameReports(s, AfterUpdate(s, store, result))
  {
  }

  ghost predicate Success(s: State, t: State, store: StoreId, startedAt: int, coverage: Option<Coverage>) {
    && t.status == Idle && t.error == None && t.errorAt == None && t.lastSynced == Some(startedAt)
    && t.total == Some(|OwnIds(t.rows, store)|)
    && t.coverage == if coverage.Some? then coverage.value else s.coverage
  }

  ghost predicate Failed(s: State, t: State, failure: Failure) {
    && t.lastSynced == s.lastSynced && t.total == s.total && t.coverage == s.coverage
    && match failure
       case Died => t.status == Syncing && t.error == s.error && t.errorAt == s.errorAt
       case Reported(error, at) => t.status == SyncFailed && t.error == Some(error) && t.errorAt == Some(at)
  }

  /** What a run says about itself on the store.  A success clears the error, records its own start and
      the rows counted at its end, and keeps the coverage unless it brings one; a failure keeps all
      that and records the error, or leaves the store syncing when the process died. */
  lemma {:induction false} RunReports(s: State, store: StoreId, run: SyncRun)
    ensures match run.outcome
      case Succeeded(result) => Success(s, AfterSync(s, store, run), store, run.startedAt, result.coverage)
      case UpdateFailed(_, _, failure) => Failed(s, AfterSync(s, store, run), failure)
      case FetchFailed(failure) => Failed(s, AfterSync(s, store, run), failure)
  {
    match run.outcome
    case Succeeded(result) => UpdateReportsNothing(Began(s), store, result, VersionBumped);
    case UpdateFailed(result, reached, _) => UpdateReportsNothing(Began(s), store, result, reached);
    case FetchFailed(_) =>
  }

  class StoreSync {
    const id: StoreId
    var state: State

    constructor (id: StoreId, state: State)
      ensures this.id == id && this.state == state
    {
      this.id, this.state := id, state;
    }

    /** `InventoryUpdater#call`: returns the store's rows to enrich. */
    method Call(listings: seq<Record>) returns (enrich: set<ListingId>)
      modifies this
      ensures state == AfterCall(old(state), id, listings)
      ensures enrich == ChangedIds(old(state.rows), id, IndexById(listings)) * OwnIds(state.rows, id)
    {
      if listings == [] {
        enrich := {};
      } else {
        var batch := IndexById(listings);
        var changed := ChangedIds(state.rows, id, batch);
        state := state.(rows := Upserted(state.rows, id, batch));
        enrich := changed * OwnIds(state.rows, id);
      }
    }

    /** `InventoryUpdater#remove_stale`, as far as `reached`: the two SQL branches, then the bump when
        a row went. */
    method RemoveStale(listings: seq<Record>, reached: UpdateStep)
      requires reached.ClicksDetached? || reached.RowsDeleted? || reached.VersionBumped?
      modifies this
      ensures state == RemovalUpTo(old(state), id, listings, reached)
    {
      var current := RecordIds(listings);
      var deleted: set<ListingId>;
      if current == {} {
        deleted := OwnIds(state.rows, id);
      } else {
        deleted := set l | l in state.rows && state.rows[l].store == id && l !in current;
      }
      assert deleted == StaleIds(state.rows, id, listings);
      state := state.(clicks := Detached(state.clicks, deleted));
      if reached == ClicksDetached {
        return;
      }
      state := state.(rows := state.rows - deleted);
      if reached == RowsDeleted {
        return;
      }
      if |deleted| > 0 {
        state := state.(version := state.version + 1);
      }
    }

    /** `FullStoreSyncJob#perform`. */
    method Perform(run: SyncRun) returns (succeeded: bool)
      modifies this
      ensures state == AfterSync(old(state), id, run) && succeeded == run.outcome.Succeeded?
    {
      state := Began(state);
      match run.outcome {
        case FetchFailed(failure) =>
          MarkFailed(failure);
        case UpdateFailed(result, reached, failure) =>
          ApplyUpdate(result, reached);
          MarkFailed(failure);
        case Succeeded(result) =>
          ApplyUpdate(result, VersionBumped);
          FinalizeSync(run.startedAt, result.coverage);
      }
      succeeded := run.outcome.Succeeded?;
    }

    method ApplyUpdate(result: SyncResult<Record>, reached: UpdateStep)
      modifies this
      ensures state == UpdateUpTo(old(state), id, result, reached)
    {
      if reached == Started {
        return;
      }
      var enrich := Call(result.listings);
      if result.complete && reached != RowsUpserted {
        RemoveStale(result.listings, reached);
      }
    }

    method MarkFailed(failure: Failure)
      modifies this
      ensures state == MarkedFailed(old(state), failure)
    {
      match failure {
        case Died =>
        case Reported(error, at) =>
          state := state.(status := SyncFailed, error := Some(error), errorAt := Some(at));
      }
    }

    method FinalizeSync(startedAt: int, coverage: Option<Coverage>)
      modifies this
      ensures state == Finished(old(state), id, startedAt, coverage)
    {
      var total := |OwnIds(state.rows, id)|;
      if coverage.Some? {
        state := state.(coverage := coverage.value);
      }
      state := state.(status := Idle, error := None, errorAt := None, lastSynced := Some(startedAt), total := Some(total));
    }
  }
}

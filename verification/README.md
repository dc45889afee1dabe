# Milkcrate: storefront curation and inventory lifecycle

Milkcrate shows a record store's Discogs inventory as a storefront. This project models the
parts of it where state, order and failure matter, and proves what they guarantee.

**Curation.** A storefront is a Wall (ranked listings under a per-key cap), up to three featured
crates and a set of genre or style bins. All of them draw on one pool of listings and on a shared
set of ids already shown. The modules `GreedyCap`, `StyleTiers`, `Selection`, `Storefront` and
`DailyCuration` follow the code; `StorefrontTheorems` says what every page satisfies. Scores,
tie-breaks, the day's seed and the clock are parameters (`Selection.Env`); the score sorts may
break ties in any way, since Ruby's `sort_by` is not stable.

**Inventory.** A sync fetches up to 100 pages in each of two orders (`Pagination`), upserts and
deletes stale rows (`Inventory`), and thereby decides what is available (`SyncTheorems`). Sales
polling removes sold rows from orders that arrive more than once (`Sales`). Both removals bump
`inventory_version`, which keys the curation cache (`CacheProtocol`).

**Small protocols.** The Discogs pacing and retry middleware (`RateLimit`), the seller-lookup hook
(`Lookup`) and the pile-to-wantlist loop (`Pile`).

Loops and objects of the source are methods and classes proved equal to specification functions;
the theorems are about those functions. Interleavings are state machines over events.

## What turned out not to hold as promised

Each of these is proved as an if-and-only-if over all inputs. Where a second lemma is named after it,
that one is a failing input.

- A sync declared complete mirrors the remote only if no remote id belongs to another store's row:
  listing ids are unique across all stores (`SyncTheorems.MirrorsSnapshotIff`,
  `SyncTheorems.ForeignRowBreaksMirror`).
- Re-running an identical complete sync asks for re-enrichment of nothing only if every price kept
  has at most two decimals: the stored, rounded price is compared with the fetched one
  (`SyncTheorems.SecondRunIdle`, `SyncTheorems.ThirdDecimalFlagsAgain`).
- After an incomplete run the available listings are exactly the fetched ones only if no leftover row
  has a stamp as late as the run's start (`SyncTheorems.AvailableIsSnapshotIff`,
  `SyncTheorems.LeftoverStaysAvailable`).
- A sync cut short and run again reaches the same rows, but if it stopped between deleting rows and
  bumping the version no bump is ever made for them (`SyncTheorems.RetryConverges`,
  `SyncTheorems.BumpLost`).
- A poll that would sell a live listing with a click event cannot complete, because that path does
  not detach click events and the foreign key refuses the delete (`Sales.WalkFailsIff`,
  `Sales.ClickedListingBlocksPoll`).
- A failed poll has moved the cursor exactly if it failed on recording its success after finding a
  new latest activity (`Sales.FailedPollMovesCursorIff`, `Sales.FailedPollMovesCursor`).
- A deleted row can be on a page of the version loaded now exactly if the cache still holds it under
  that version, or a curator is about to file it there, or such a page was served already
  (`CacheProtocol.DeadRowServableIff`). A remover that dies between delete and bump leaves such a
  cache entry, and its retry does not bump (`CacheProtocol.CrashBeforeBump`,
  `CacheProtocol.CrashBeforeBumpServesDeadRow`).
- The request after one that raised a transport exception is never delayed; it is paced exactly if
  the raising request's latency and the time idled come to 1.1 s
  (`RateLimit.NextAfterRaiseIff`, `RateLimit.RaisedCallsAreNotPaced`).
- A failed lookup is announced a second time exactly if its timer, which stays armed, fires
  (`Lookup.FailureAnnouncedAgainIff`, `Lookup.FailureAnnouncedTwice`).
- A run without a page limit fetches everything and is still declared incomplete exactly from 101 to
  200 pages (`Pagination.UndeclaredIff`).
- The comment in app/services/sync_strategies/public_api.rb:10-12 says that the pages of the two passes
  do not overlap. Without a page limit they do exactly below 20,000 listings
  (`Pagination.PassesOverlapIff`, `Pagination.PassesOverlap`).

## Model

| member | source | states |
|---|---|---|
| GreedyCap.CapFilter | app/services/crate_strategies/wall.rb:36-53 | the counter loop keeps an entry exactly while fewer than the cap have been kept under its key |
| GreedyCap.CappedCount | app/services/wall_policy.rb:3-7 | under every admitted key exactly min(cap, matches) entries are kept, under any other none |
| GreedyCap.GreedySize | app/services/crate_strategies/wall.rb:29-34 | the selection has min(limit, sum over keys of min(cap, matches)) entries |
| GreedyCap.GreedyAllowed | app/services/crate_strategies/wall.rb:47-53 | the selection itself respects cap, limit and distinctness |
| GreedyCap.GreedyDominates | app/services/crate_strategies/wall.rb:29-34 | among the first n ranked entries it holds at least as many as any allowed selection, for every n |
| GreedyCap.GreedyOptimal | app/services/crate_strategies/wall.rb:29-53 | no allowed selection is larger, none of the same size has a higher total score |
| Catalog.NamesExactly | app/services/genres_axis.rb:2-8 | a listing answers to its primary genre alone, or to all its styles, and is keyed by the first |
| Catalog.UniqKeepsFirst | app/services/storefront_curation.rb:39-42 | dropping repeated ids keeps every id once, with its first listing |
| Selection.ValidSortsExist | app/services/crate_strategies/selection_pipeline.rb:27-32 | for any scores there are sorts that rearrange and rank as every theorem on pages assumes |
| Selection.AxisIsGenresIff | app/services/storefront_curation.rb:143-150 | the page is built on genres if and only if three different primary genres occur and are deep |
| Selection.WallSelect | app/services/crate_strategies/wall.rb:16-34 | rank, cap, drop repeated ids, take the count; with which cap is stated by `Selection.WallCapped` |
| Selection.WallIsGreedy | app/services/crate_strategies/wall.rb:29-34 | on a pool with distinct ids dropping repeated ids changes nothing, and each selected listing is from the pool, once |
| Selection.WallOptimal | app/models/wall.rb:24-30 | for any pool and any tie-breaking: the wall is allowed, has the formula's size and is optimal in size and total score |
| Selection.WallCapped | app/services/wall_policy.rb:3-7 | under every key at most max(count / 3, 2) listings, and while the wall has room exactly that many or all the pool has |
| Selection.CrossStoreWall | app/services/cross_store_wall_curation.rb:69-88 | the explore wall is the same selection with its own limit, so the same optimality applies |
| Selection.HiddenGemsSelect | app/services/crate_strategies/hidden_gems.rb:17-50 | the same loop with cap three, refusing listings without a key, empty under four obscure ones |
| Selection.ObscureExactly | app/services/crate_strategies/hidden_gems.rb:33-37 | obscure: a picture, at least 10 wants, at most 100 wants and haves together, more wants than haves |
| Selection.HiddenGemsCapped | app/services/crate_strategies/hidden_gems.rb:17-50 | nothing under four obscure listings, otherwise three per key or as many as there are, none without a key |
| Selection.HiddenGemsOptimal | app/services/crate_strategies/hidden_gems.rb:17-50 | cut at any size it is optimal among unseen obscure listings with a key, three to a key |
| Selection.NewArrivalsNarrowest | app/services/crate_strategies/new_arrivals.rb:13-39 | exactly the unseen listings of the first window of 7, 14, 30, 90 or 365 days that holds four, or all unseen ones, ranked |
| Selection.ThematicPicks | app/services/crate_strategies/thematic.rb:17-61 | a theme exists exactly when a candidate has four unseen listings; the day's seed picks among these, and all of the one picked are shown ranked |
| Selection.ThemeCandidatesExactly | app/services/styles_axis.rb:26-30 | candidates are the styles between the rotation and the main floor, or on the genre axis every style and genre that occurs |
| Selection.GenreCandidatesExactly | app/services/crate_strategies/genre.rb:17-25 | a bin draws from exactly the unseen listings with its name as primary genre, or among their styles |
| Selection.GenreSelectFresh | app/services/crate_strategies/genre.rb:17-25 | a bin takes only unseen pool listings, each once; ranking loses and adds none |
| StyleTiers.BuildSupport | app/models/style_selection.rb:60-66 | the support hash counts, for each style that occurs, the listings that carry it |
| StyleTiers.ComputeOverlapRisk | app/models/style_selection.rb:68-92 | the loop fills the risks hash in support order |
| StyleTiers.TiersPartition | app/models/style_selection.rb:23-56 | main and rotation are the styles over their floors, disjoint; both orders rearrange the main styles |
| StyleTiers.TiersByName | app/models/style_selection.rb:23-56 | both tiers are listed by name |
| StyleTiers.RiskIsShare | app/models/style_selection.rb:75-92 | a style has a risk exactly when it occurs and is not the top style: the share of its listings that carry a style above it |
| StyleTiers.AllocationRank | app/models/style_selection.rb:33-37 | style bins are allocated by falling risk, then rising support, then name |
| StyleTiers.DisplayRank | app/models/style_selection.rb:39-43 | display goes by falling support (genres: count), then name; genre bins are allocated in the same order |
| StyleTiers.OrderMembers | app/services/genres_axis.rb:14-24 | both orders hold exactly the genres that occur, or the main styles |
| StyleTiers.GreatestSupportLast | app/models/style_selection.rb:33-37 | a main style with strictly greatest support is allocated last |
| StyleTiers.GenreOrderPermuted | app/services/genres_axis.rb:18-24 | the genre order does not depend on the order of the listings |
| StyleTiers.OrderIndependent | app/models/style_selection.rb:19-56 | support, tiers, risk and both orders depend only on the multiset of listings |
| Storefront.IdSet.AddAll | app/services/storefront_curation.rb:54-58 | adding a crate's listings to a shared set adds exactly their ids |
| Storefront.Wall.ExcludedIds | app/models/wall.rb:18-20 | every call returns the same set object, with whatever callers have put in it |
| Storefront.BuildFeatured | app/services/storefront_curation.rb:46-84 | each featured crate is built against the ids before it, on a copy: the caller's set is unchanged |
| Storefront.BuildBins | app/services/storefront_curation.rb:86-113 | bins are built in allocation order against a copied set that grows by each viable bin, then re-sorted |
| Storefront.StorefrontGroups | app/services/storefront_curation.rb:25-37 | the version that mutates the wall's own set yields the specified page |
| Storefront.Crates | app/services/storefront_curation.rb:13-23 | the version that builds a fresh union yields the wall, featured and bins of the same page, in order |
| Storefront.SurfacedListings | app/services/storefront_curation.rb:39-42 | the surfaced listings are those of the same page without repeated ids |
| StorefrontTheorems.ShownOnce | app/services/storefront_curation.rb:25-58 | no listing is shown twice, each stage excludes exactly the ids shown before it, and removing repeated ids removes nothing |
| StorefrontTheorems.PageWall | app/models/wall.rb:5-30 | the wall of every page, in the policy's numbers |
| StorefrontTheorems.FeaturedExactly | app/services/storefront_curation.rb:46-84 | which featured crates a page has, in which order, and what each shows, against exactly what is shown before it |
| StorefrontTheorems.CratesViable | app/models/curated_crate.rb:4-17 | at most three featured crates; featured crates and bins hold 4 to 50 listings, bins only listings of their primary genre or style |
| StorefrontTheorems.AllocationMaximal | app/services/storefront_curation.rb:86-113 | against the whole page, each name of the order has a bin that leaves it nothing (not full) or nothing better (full), or no bin and fewer than four listings left |
| StorefrontTheorems.EarlierNamesChooseFirst | app/services/storefront_curation.rb:86-113 | each name is settled in the same sense against the wall, the featured crates and the bins up to its own alone: no later bin costs it a listing |
| StorefrontTheorems.BinsFollowDisplay | app/services/storefront_curation.rb:92-95 | the re-sort rearranges the built bins into the display order restricted to their names |
| DailyCuration.CurationRecords.Curate | app/services/daily_curation_service.rb:3-36 | the counters of precisely the payload's ids rise by one, and that payload is what the cache then holds |
| DailyCuration.CountedExactly | app/services/daily_curation_service.rb:22-36 | a row counted goes up by one and takes the run's time, every other row is unchanged |
| DailyCuration.SurfacedIsPresented | app/services/daily_curation_service.rb:22-36 | the ids counted as surfaced are the ids of both halves of the payload |
| CacheProtocol.RunKeepsInv | app/services/storefront_curation/cache_manager.rb:10-45 | every run keeps: what is filed or served under version v held no row deleted before the version reached v; versions only grow and dead rows stay dead |
| CacheProtocol.RowsAccounted | app/services/store_sales/sold_listing_remover.rb:26-39 | over any run a row is live if and only if it was inserted and is not recorded as gone |
| CacheProtocol.VersionCountsBumps | app/models/store.rb:59-62 | over any run the version is the number of bumps |
| CacheProtocol.RemovalCompletes | app/services/store_sales/sold_listing_remover.rb:14-39 | from any reachable state a removal that runs to its end takes exactly the wanted rows, bumps once and protects them all |
| CacheProtocol.StaleRemovalCompletes | app/services/store_sync/inventory_updater.rb:19-36 | likewise a stale removal takes exactly the rows outside its snapshot |
| CacheProtocol.StepRemoves | app/services/store_sales/sold_listing_remover.rb:26-33 | which rows each step adds and removes, and that what goes is recorded as gone |
| CacheProtocol.StepServes | app/services/storefront_curation/cache_manager.rb:10-45 | what each step files in the cache and hands out, under which key |
| CacheProtocol.CacheSafety | app/services/store_sales/sold_listing_remover.rb:26-39 | over all interleavings no entry or page under a version holds a row deleted at a lower version; the remover's own bump is such a later version |
| CacheProtocol.NeverServedAfterBump | app/models/store.rb:59-62 | a request that loads the store row after a bump is never served the removed row |
| CacheProtocol.DeadRowServableIff | app/services/storefront_curation/cache_manager.rb:10-45 | from any reachable state: some continuation of a load serves a deleted row under the loaded version if and only if it is filed, about to be filed or already served there |
| CacheProtocol.ExpiryForgets | app/services/storefront_curation/cache_manager.rb:10-45 | an entry may expire at any time, and a deleted row it held is then servable only if pending or served already |
| CacheProtocol.CrashBeforeBump | app/services/store_sales/sold_listing_remover.rb:14-36 | from any reachable state: a remover dying between delete and bump leaves every deleted row of the cached page servable, and trying it again changes nothing |
| CacheProtocol.CrashBeforeBumpServesDeadRow | app/services/store_sales/sold_listing_remover.rb:18-19 | a concrete run whose remover dies between delete and bump: the dead row is servable and the retry does not bump |
| Pagination.Fetch | app/services/store_sync/inventory_fetcher.rb:17-62 | the page loop ends within 101 requests; it raises exactly when a request it has to make fails, otherwise yields the closed-form listings, page count and limit flag |
| Pagination.PublicApiSync | app/services/sync_strategies/public_api.rb:15-60 | with or without a tracker: no result exactly when one of the required requests fails, otherwise the listings, verdicts and progress in terms of the remote and the page limit |
| Pagination.FetchedExactly | app/services/sync_strategies/public_api.rb:37-49 | listing i is fetched exactly when it lies in the first pages or, with two passes, the last |
| Pagination.CompleteIsSound | app/services/sync_strategies/public_api.rb:51-55 | a snapshot declared complete holds every remote listing and no other |
| Pagination.CompleteIff | app/services/sync_strategies/public_api.rb:25-55 | when a run is declared complete, from the page count and the caller's limit alone |
| Pagination.MissedSlice | app/services/sync_strategies/public_api.rb:10-13 | without a limit up to 200 pages nothing is missed, beyond that exactly the middle slice |
| Pagination.UndeclaredIff | app/services/sync_strategies/public_api.rb:51-55 | without a limit everything is fetched and the run still not declared complete if and only if there are 101 to 200 pages |
| Pagination.FetchedTwiceIff | app/services/sync_strategies/public_api.rb:10-12 | with two passes listing i is fetched by both exactly when it lies both in the last pages and in the first |
| Pagination.PassesOverlapIff | app/services/sync_strategies/public_api.rb:10-12 | the passes overlap if and only if the inventory holds fewer than twice what one pass reaches, without a limit fewer than 20,000 listings |
| Pagination.PassesOverlap | app/services/sync_strategies/public_api.rb:10-12 | of any 19,950 listings both passes fetch number 9,960 |
| Pagination.PartialIff | app/services/store_sync/coverage_classifier.rb:12-23 | coverage is partial exactly when the 100-page limit was hit or zero pages were asked for |
| Pagination.ProgressTracker.Increment | app/services/store_sync/progress_tracker.rb:17-27 | each page moves the count by one and writes the rounded, clamped percentage |
| Pagination.PercentRounds | app/services/store_sync/progress_tracker.rb:24-27 | the percentage is the exact one rounded to the nearest whole number, at most 100 |
| Pagination.ProgressExact | app/services/sync_strategies/public_api.rb:25-35 | the predicted pages are the pages collected; the percentage starts at 0, never falls, ends at 100 |
| Inventory.StoreSync.Call | app/services/store_sync/inventory_updater.rb:13-78 | the table after an upsert batch, and the store's rows returned for enrichment |
| Inventory.ChangedExactly | app/services/store_sync/inventory_updater.rb:58-96 | a record asks for enrichment exactly if the store has no such row or it differs in release, price, condition or notes |
| Inventory.StoreSync.RemoveStale | app/services/store_sync/inventory_updater.rb:19-40 | both branches delete the store's rows outside the snapshot, detach their clicks, bump if any went; cut short, as far as it got |
| Inventory.StoreSync.Perform | app/jobs/full_store_sync_job.rb:6-51 | the store's whole state after a run that succeeded, whose fetch failed, or whose update failed or died at any step |
| Inventory.RunReports | app/jobs/full_store_sync_job.rb:16-52 | status, error, sync time, total and coverage after a success, a recorded failure and a process that died |
| Inventory.BatchHoldsLast | app/services/store_sync/inventory_updater.rb:49-51 | the batch has the fetched ids and, for each, the last record fetched |
| Inventory.UpsertedRows | app/services/store_sync/inventory_updater.rb:66-72 | row by row, what a batch of distinct ids does to the table |
| Inventory.CastKeepsTwoDecimals | app/services/store_sync/inventory_updater.rb:94-96 | a price survives storage unchanged exactly when it has at most two decimals |
| Inventory.CastRounds | db/schema.rb:89 | storage rounds a price to the nearest cent, halves away from zero, and touches no other column |
| SyncTheorems.SnapshotApplied | app/jobs/full_store_sync_job.rb:25-29 | ids, version and clicks after a complete and after an incomplete run; the version rises by one exactly when a row went |
| SyncTheorems.MirrorsSnapshotIff | app/services/store_sync/inventory_updater.rb:26-36 | after a complete run the ids are the snapshot's if and only if no other store owns one of them |
| SyncTheorems.ForeignRowBreaksMirror | app/services/store_sync/inventory_updater.rb:66-72 | a snapshot with an id of another store's row: the store ends without it |
| SyncTheorems.RowContents | app/services/store_sync/inventory_updater.rb:3-7 | fetched rows carry the last record's fields, old rows keep format, genres, styles, cover and store, others are untouched |
| SyncTheorems.CompleteSyncMirrorsRemote | app/jobs/full_store_sync_job.rb:16-29 | from the remote to the table: a complete sync leaves exactly the normalised remote ids the store can hold |
| SyncTheorems.SecondRunIdle | app/services/store_sync/inventory_updater.rb:42-96 | the same complete snapshot again deletes nothing, bumps nothing and rewrites only last-seen times; it flags nothing if and only if kept prices have two decimals |
| SyncTheorems.ThirdDecimalFlagsAgain | app/services/store_sync/inventory_updater.rb:81-96 | a price of 10.999 is flagged again by an identical run |
| SyncTheorems.AvailableIsSnapshotIff | app/queries/listings/available_query.rb:10-31 | with non-partial coverage the available listings are the fetched ones if and only if complete or no leftover is stamped as late as the start |
| SyncTheorems.LeftoverStaysAvailable | app/queries/listings/available_query.rb:10-31 | an incomplete run that fetched nothing leaves a row stamped at its start available |
| SyncTheorems.PartialIncludesSnapshot | app/queries/listings/available_query.rb:13-16 | with partial coverage everything fetched within three days is available |
| SyncTheorems.PartialAvailableIff | app/queries/listings/available_query.rb:12-16 | after a partial run within three days: available are exactly the listings it brought in and the leftovers of an incomplete run seen within three days |
| SyncTheorems.StaleLeftoverHidden | app/queries/listings/available_query.rb:12-16 | a leftover of a partial store last seen thirty days ago is hidden |
| SyncTheorems.FailedFetchKeepsAvailability | app/jobs/full_store_sync_job.rb:8-12 | a run whose fetch raises leaves rows, version and, when synced and non-partial, the available set unchanged at any two moments |
| SyncTheorems.RetryConverges | app/jobs/full_store_sync_job.rb:8-29 | a complete update cut short at any step and run again ends with the rows and clicks of one run; the version rises once if and only if rows went and the cut was not between delete and bump |
| SyncTheorems.BumpLost | app/services/store_sync/inventory_updater.rb:19-22 | a run that dies after its delete, and its retry: the row is gone and the version unchanged |
| SyncTheorems.UpdateFailedAvailability | app/jobs/full_store_sync_job.rb:8-29 | after an update cut short any store, partial, synced or never synced, shows what it showed before and this run's listings, without those already deleted |
| SyncTheorems.AvailableExactly | app/queries/listings/available_query.rb:10-31 | available is what was seen within three days on a partial or never synced store, since the last sync's start on any other |
| SyncTheorems.ClicksStayResolved | app/services/store_sync/inventory_updater.rb:26-40 | no run, wherever it is cut, leaves a click event pointing at a row that is gone |
| SyncTheorems.AvailabilityOverRuns | app/jobs/full_store_sync_job.rb:16-40 | over any history of runs, failed ones and ones cut short included, right after each non-partial success the available listings are exactly those fetched |
| Sales.ListingIdsDistinct | app/services/store_sales/order_listing_ids.rb:17-46 | exactly the proper item ids are taken, each once |
| Sales.SalesStore.RemoveSold | app/services/store_sales/sold_listing_remover.rb:14-39 | delete, then bump and recount when a row went; all or nothing at each cut |
| Sales.SalesStore.ProcessSingleOrder | app/services/store_sales/order_poller.rb:46-52 | skip, or remove and record, or fail at a given step |
| Sales.SalesStore.ProcessEachOrder | app/services/store_sales/order_poller.rb:41-44 | the walk over the orders stops at the first exception |
| Sales.SalesStore.Call | app/services/store_sales/order_poller.rb:13-39 | the store and the result after a poll, including failure at any point |
| Sales.StepEffect | app/services/store_sales/order_event_processor.rb:15-46 | whether skipped by the 60-second rule or processed, an order's listings are gone afterwards |
| Sales.SkippedIff | app/services/store_sales/order_event_processor.rb:39-46 | an order is skipped exactly if it is on record, has an activity and was processed no more than 60 seconds before it |
| Sales.OrderRecorded | app/services/store_sales/order_event_processor.rb:25-36 | processing puts the order on record with its time, activity, listings and removed count; nothing else touches the record |
| Sales.DedupWindow | app/services/store_sales/order_event_processor.rb:15-46 | a processed order is skipped when it comes next if and only if its activity is no later than 60 seconds after it was processed |
| Sales.WalkRemovesReached | app/services/store_sales/order_poller.rb:33-52 | a walk that ends anywhere has removed exactly the listings of the orders it reached |
| Sales.WalkFailsIff | app/services/store_sales/sold_listing_remover.rb:26-32 | a walk not cut off at an order fails exactly when a listing it sells is live and has a click event |
| Sales.CutWalkReaches | app/services/store_sales/order_poller.rb:41-52 | a walk cut off at a due order has done everything before it and exactly the steps of that order before the cut |
| Sales.PollCompletesIff | app/services/store_sales/order_poller.rb:13-39 | when a poll not cut off at an order completes, in terms of the store and the orders it finds |
| Sales.ClickedListingBlocksPoll | app/services/store_sales/sold_listing_remover.rb:26-32 | one live listing with a click event, sold by one order: the poll fails and the listing stays |
| Sales.ExactlyOnce | app/services/store_sales/order_poller.rb:33-52 | after any history of completed, replayed and interrupted polls, live = initial minus the listings of every order reached |
| Sales.ReplayChangesNothing | app/services/store_sales/sold_listing_remover.rb:5 | polling the same orders again removes nothing and bumps nothing |
| Sales.PollsConserve | app/services/store_sales/order_poller.rb:69-98 | over completed polls removed counts sum to the drop, the version counts the removing orders, the total is the live count |
| Sales.CompletedPollMarks | app/services/store_sales/order_poller.rb:33-39 | a completed poll leaves its time, no error and the cursor at the latest activity processed, and reports orders, removals and the advance truly |
| Sales.LatestNewExactly | app/services/store_sales/order_poller.rb:69-75 | the latest activity is that of an order not skipped, and at least that of every other |
| Sales.FailedPollMarks | app/services/store_sales/poll_state_tracker.rb:12-31 | a failed poll never moves the polled time, and the cursor exactly when it walked through, found another latest activity and failed on recording its success |
| Sales.FailedPollMovesCursorIff | app/services/store_sales/order_poller.rb:13-39 | the same in terms of the store and orders found: no live clicked listing is sold and the latest unprocessed activity is not the cursor |
| Sales.FailedPollMovesCursor | app/services/store_sales/order_poller.rb:13-39 | one order with activity at 100: the poll fails and the cursor is at 100 |
| RateLimit.Middleware.Call | app/services/discogs_rate_limit_middleware.rb:9-40 | sleep, request with retries, quota pause and recording of the time as one step of the pacer, and the ending the caller gets |
| RateLimit.CallRetries | app/services/discogs_rate_limit_middleware.rb:19-25 | a call tries again exactly after a limited answer and at most three times; the caller gets the last answer or its exception |
| RateLimit.RetriesSpaced | app/services/discogs_rate_limit_middleware.rb:19-25 | retries start 2, 4 and 8 seconds after the answer before them |
| RateLimit.ConcludesExactly | app/services/discogs_rate_limit_middleware.rb:9-31 | an answer with five or fewer requests remaining is followed by a ten-second pause, no other is; then the time is recorded |
| RateLimit.SleepsJustEnough | app/services/discogs_rate_limit_middleware.rb:33-40 | a call sleeps exactly until 1.1 s after the recorded time, and not at all past it |
| RateLimit.CallPaced | app/services/discogs_rate_limit_middleware.rb:19-25 | a call makes at most four attempts with at most 14 s of backoff and keeps the pacing |
| RateLimit.RunPaced | app/services/discogs_rate_limit_middleware.rb:33-40 | over any run consecutive requests start 1.1 s apart, retries included, except after one that raised |
| RateLimit.RateBound | app/services/discogs_rate_limit_middleware.rb:5 | without transport exceptions any closed 60-second window holds at most 55 requests |
| RateLimit.NextAfterRaiseIff | app/services/discogs_rate_limit_middleware.rb:9-40 | after any call that raised the next one never sleeps, and is paced if and only if the raising request's latency plus idle time plus delay is 1.1 s |
| RateLimit.RaisedCallsAreNotPaced | app/services/discogs_rate_limit_middleware.rb:9-15 | two calls that raise at once start at the same moment |
| RateLimit.Backoffs | app/services/discogs/rate_limit.rb:8-13 | the three backoffs are 2, 4 and 8 seconds |
| Lookup.RunKeepsInv | app/frontend/hooks/use_discogs_lookup.ts:51-145 | every run keeps: older controllers are aborted, an armed timer belongs to the live request, loading is live and timed |
| Lookup.StepShows | app/frontend/hooks/use_discogs_lookup.ts:51-145 | every step in terms of the screen and the announcements: which reply shows and says what, and what shows nothing |
| Lookup.StepCancels | app/frontend/hooks/use_discogs_lookup.ts:108-160 | a lookup and a reset cancel the request and the timer before; only a lookup starts new ones |
| Lookup.LatestLookupWins | app/frontend/hooks/use_discogs_lookup.ts:81-145 | a shown result is about the last username; loading has a live controller whose timer ends it |
| Lookup.OnlyLiveRequestMatters | app/frontend/hooks/use_discogs_lookup.ts:51-96 | a settling fetch or firing timer changes view or announcements only for the current uncancelled request, while loading or, for a timer, after an error |
| Lookup.ResetStays | app/frontend/hooks/use_discogs_lookup.ts:158-160 | after a reset at any point of any run nothing but a new lookup changes the view or announces anything |
| Lookup.FailureAnnouncedTwice | app/frontend/hooks/use_discogs_lookup.ts:91-96 | a failed fetch leaves the timer armed and its firing announces the error again |
| Lookup.FailureAnnouncedAgainIff | app/frontend/hooks/use_discogs_lookup.ts:51-96 | in every run from a failed live fetch up to the next lookup, the error is announced again if and only if its timer fires |
| Pile.AddWithPacing | app/services/create_pile_wantlist_service.rb:58-86 | added plus skipped is the pile's size; what is tried is a duplicate-free prefix that ends early exactly at the first rate limit |
| Pile.ResolvedExactly | app/services/create_pile_wantlist_service.rb:103-108 | the releases tried are exactly those some item of the pile has in the store |
| Pile.ResolvedInOrder | app/services/create_pile_wantlist_service.rb:103-108 | they come in pile order: a longer pile only adds releases at the end |
| Pile.Call | app/services/create_pile_wantlist_service.rb:15-37 | the outcome of a pile action: the first reason that applies, or how many were added with every other item skipped |

## Left out

- Score strategies, MD5 tie-breaks, the seed and slug order: parameters of `Selection.Env`, constrained only as sorts.
- StyleTiers.TiersPartition: the 5% and 1% floors are arbitrary functions of the total, because the code rounds a float product (`0.05 * 140` is above 7), and likewise the 5% depth test behind the choice of axis.
- Selection.NewArrivalsNarrowest: one run reads one clock; in the code each construction of a page reads it again, so a listing that crosses a window boundary within a run is not modelled.
- DailyCuration.CurationRecords.Curate: the listings deleted by others during a run are those missing from the counter table; presenters and logging are left out.
- CacheProtocol.CacheSafety: freshness for inserts and availability changes is not claimed, since the key tracks deletions only; expiry may happen at any time.
- Pagination.PublicApiSync: the remote is fixed during a sync; a request that fails otherwise than by the page limit is one failed request, whatever the client retried inside it.
- Pagination.ProgressExact: the percentage is rounded on the exact ratio, not on a float.
- Inventory.StoreSync.Perform: the progress column, which `Pagination.ProgressTracker` models, is not a field of its state, and an exception while logging a finished run is left out; the CSV strategy enters only as a complete result without coverage.
- Inventory.CastKeepsTwoDecimals: prices too large for the column, which the database refuses, are not modelled.
- SyncTheorems.SecondRunIdle: the timestamps the framework keeps on every row (`updated_at`, read nowhere) are outside the model; the upsert touches them with the last-seen time.
- SyncTheorems.AvailabilityOverRuns: runs of other stores in between, which could restamp a row they also list, are not interleaved.
- Sales.ExactlyOnce: no listing is inserted between polls; a sync that re-inserts a sold listing is not interleaved. The cursor is not claimed to be monotone.
- RateLimit.RunPaced: the inner retry layer for 503 responses lies inside one attempt.
- CacheProtocol and Lookup are state machines on values: the cache store, the refs and the timers are fields of a state, not heap objects.
- Lookup.LatestLookupWins: unmounting the component is left out; the parsing of replies is a settlement with success or failure.
- Pile.AddWithPacing: the 1.2-second sleeps and the wantlist client's own retries are inside one answer.
- Authentication, sessions, mail, presenters, user interface, CSV parsing, enrichment and the unused listing reconciler: I/O or straight-line mapping.

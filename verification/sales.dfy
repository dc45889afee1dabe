/** Sales polling: recent orders are deduplicated, their listings removed, and an event recorded.
    A poll can be interrupted at any step, and the same orders come again later.
 */
module Sales {
  import opened Sequences
  import opened Inventory

  type OrderId = nat

  const DEDUP_SLACK := 60

  /** An order as fetched: item ids that are missing or blank are None. */
  datatype Order = Order(id: OrderId, items: seq<Option<ListingId>>, activity: Option<int>)

  datatype OrderEvent = OrderEvent(processedAt: int, activity: Option<int>, listingIds: seq<ListingId>, removed: nat)

  /** One store: its listings, the listings some click event points at, and its poll state. */
  datatype Store = Store(
    live: set<ListingId>,
    clicked: set<ListingId>,
    version: nat,
    total: Option<nat>,
    events: map<OrderId, OrderEvent>,
    cursor: Option<int>,
    polledAt: Option<int>,
    error: bool)

  /** `OrderListingIds#call` and the remover's own clean-up: proper ids, each once. */
  function ListingIdsOf(items: seq<Option<ListingId>>): seq<ListingId> {
    if items == [] then [] else
      var r := ListingIdsOf(items[..|items|-1]);
      match items[|items|-1]
      case None => r
      case Some(id) => if id in r then r else r + [id]
  }

  lemma {:induction false} ListingIdsDistinct(items: seq<Option<ListingId>>, id: ListingId)
    ensures NoDup(ListingIdsOf(items))
    ensures id in ListingIdsOf(items) <==> Some(id) in items
  {
    if items != [] {
      var front, last := items[..|items|-1], items[|items|-1];
      ListingIdsDistinct(front, id);
      assert items == front + [last];
      assert Some(id) in items <==> Some(id) in front || last == Some(id);
      var r := ListingIdsOf(front);
      assert last.Some? && last.value !in r ==> NoDup(r + [last.value]);
    }
  }

  function ItemSet(order: Order): set<ListingId> {
    set id | id in ListingIdsOf(order.items)
  }

  /** `already_processed?`. */
  predicate AlreadyProcessed(events: map<OrderId, OrderEvent>, order: Order) {
    order.id in events && order.activity.Some? && events[order.id].processedAt >= order.activity.value - DEDUP_SLACK
  }

  // ----- one order

  /** Steps at which handling an order can be cut off, by an exception or by the process dying. */
  datatype Phase = BeforeDelete | AfterDelete | AfterBump

  datatype OrderResult = OrderResult(activity: Option<int>, removed: nat)

  datatype Step =
    | Skipped
    | Processed(result: OrderResult)
    | Failed(removedFirst: bool)   // whether the delete had gone through

  function Deletable(s: Store, order: Order): set<ListingId> {
    ItemSet(order) * s.live
  }

  /** A click event that points at a row keeps the database from deleting it: the whole delete fails. */
  predicate DeleteFails(s: Store, order: Order) {
    Deletable(s, order) * s.clicked != {}
  }

  function WithoutSold(s: Store, order: Order): Store {
    s.(live := s.live - ItemSet(order))
  }

  function WithBump(s: Store, removed: set<ListingId>): Store {
    if removed == {} then s else s.(version := s.version + 1, total := Some(|s.live|))
  }

  function WithEvent(s: Store, order: Order, removed: nat, now: int): Store {
    s.(events := s.events[order.id := OrderEvent(now, order.activity, ListingIdsOf(order.items), removed)])
  }

  /** `process_single_order`, cut off at `cut` if that is given. */
  function ProcessOrder(s: Store, order: Order, now: int, cut: Option<Phase>): (Store, Step) {
    if AlreadyProcessed(s.events, order) then (s, Skipped)
    else if cut == Some(BeforeDelete) || DeleteFails(s, order) then (s, Failed(false))
    else
      var removed := Deletable(s, order);
      var deleted := WithoutSold(s, order);
      if cut == Some(AfterDelete) then (deleted, Failed(true))
      else
        var bumped := WithBump(deleted, removed);
        if cut == Some(AfterBump) then (bumped, Failed(true))
        else (WithEvent(bumped, order, |removed|, now), Processed(OrderResult(order.activity, |removed|)))
  }

  /** An order is skipped exactly if it is on record, shows a last activity, and was processed no more
      than 60 seconds before that activity. */
  lemma {:induction false} SkippedIff(s: Store, order: Order, now: int, cut: Option<Phase>)
    ensures ProcessOrder(s, order, now, cut).1 == Skipped
      <==> order.id in s.events && order.activity != None && order.activity.value <= s.events[order.id].processedAt + 60
    ensures ProcessOrder(s, order, now, cut).1 == Skipped ==> ProcessOrder(s, order, now, cut).0 == s
  {
  }

  /** Processing an order puts it on record with its time, its activity, its listings and how many of
      them went; no other step touches the record. */
  lemma {:induction false} OrderRecorded(s: Store, order: Order, now: int, cut: Option<Phase>)
    ensures var (t, step) := ProcessOrder(s, order, now, cut);
      t.events == if step.Processed?
                  then s.events[order.id := OrderEvent(now, order.activity, ListingIdsOf(order.items), |ItemSet(order) * s.live|)]
                  else s.events
    ensures var step := ProcessOrder(s, order, now, cut).1;
      step.Processed? ==> step.result == OrderResult(order.activity, |ItemSet(order) * s.live|)
  {
  }

  /** An order processed at `now` is skipped when it comes next if and only if it shows an activity no
      later than 60 seconds after that; only with a later one is it processed again. */
  lemma {:induction false} DedupWindow(s: Store, order: Order, now: int, cut: Option<Phase>, again: Order, later: int, cut': Option<Phase>)
    requires ProcessOrder(s, order, now, cut).1.Processed? && again.id == order.id
    ensures ProcessOrder(ProcessOrder(s, order, now, cut).0, again, later, cut').1 == Skipped
      <==> again.activity != None && again.activity.value <= now + 60
  {
    OrderRecorded(s, order, now, cut);
    SkippedIff(ProcessOrder(s, order, now, cut).0, again, later, cut');
  }

  // ----- one poll

  /** Where a poll is cut off, if anywhere. */
  datatype Fault = NoFault | AtOrder(index: nat, phase: Phase) | BeforeCursor | BeforeSuccess

  datatype Poll = Poll(
    authorized: bool, fetched: bool, orders: seq<Order>, clock: nat -> int, fault: Fault, endedAt: int, killed: bool)

  function CutAt(fault: Fault, i: nat): Option<Phase> {
    if fault.AtOrder? && fault.index == i then Some(fault.phase) else None
  }

  /** State of the walk over the orders: results so far, how many orders have had their listings
      removed (now or earlier), and whether the walk was cut off. */
  datatype Walk = Walk(store: Store, results: seq<OrderResult>, reached: nat, failed: bool)

  /** One more order of the walk; a walk that was cut off stays where it is. */
  function Advance(w: Walk, order: Order, now: int, cut: Option<Phase>): Walk {
    if w.failed then w else
      var (t, step) := ProcessOrder(w.store, order, now, cut);
      match step
      case Skipped => Walk(t, w.results, w.reached + 1, false)
      case Processed(r) => Walk(t, w.results + [r], w.reached + 1, false)
      case Failed(removedFirst) => Walk(t, w.results, if removedFirst then w.reached + 1 else w.reached, true)
  }

  function WalkOrders(s: Store, orders: seq<Order>, clock: nat -> int, fault: Fault): Walk {
    if orders == [] then Walk(s, [], 0, false) else
      var n := |orders| - 1;
      Advance(WalkOrders(s, orders[..n], clock, fault), orders[n], clock(n), CutAt(fault, n))
  }

  function TotalRemoved(results: seq<OrderResult>): nat {
    if results == [] then 0 else TotalRemoved(results[..|results|-1]) + results[|results|-1].removed
  }

  function Later(a: Option<int>, b: Option<int>): Option<int> {
    if a.None? then b else if b.None? || a.value >= b.value then a else b
  }

  /** `max_activity`. */
  function MaxActivity(results: seq<OrderResult>): Option<int> {
    if results == [] then None else Later(MaxActivity(results[..|results|-1]), results[|results|-1].activity)
  }

  function MarkFailure(s: Store, killed: bool): Store {
    if killed then s else s.(error := true)
  }

  function MarkSuccess(s: Store, at: int): Store {
    s.(polledAt := Some(at), error := false)
  }

  function AdvanceCursor(s: Store, activity: Option<int>): Store {
    if activity.None? then s else s.(cursor := activity)
  }

  datatype PollResult = PollFailed | PollDone(orderCount: nat, removedCount: nat, cursorAdvanced: bool)

  function WalkOf(s: Store, poll: Poll): Walk {
    WalkOrders(s, poll.orders, poll.clock, poll.fault)
  }

  /** `OrderPoller#call`. */
  function AfterPoll(s: Store, poll: Poll): (Store, PollResult) {
    if !poll.authorized || !poll.fetched then (MarkFailure(s, poll.killed), PollFailed)
    else if poll.orders == [] then
      if poll.fault == BeforeSuccess then (MarkFailure(s, poll.killed), PollFailed)
      else (MarkSuccess(s, poll.endedAt), PollDone(0, 0, false))
    else
      var w := WalkOf(s, poll);
      if w.failed || poll.fault == BeforeCursor then (MarkFailure(w.store, poll.killed), PollFailed)
      else
        var t := AdvanceCursor(w.store, MaxActivity(w.results));
        if poll.fault == BeforeSuccess then (MarkFailure(t, poll.killed), PollFailed)
        else (MarkSuccess(t, poll.endedAt),
              PollDone(|w.results|, TotalRemoved(w.results), MaxActivity(w.results).Some?))
  }

  // ----- the code as written, on a mutable store

  class SalesStore {
    var state: Store

    constructor (state: Store)
      ensures this.state == state
    {
      this.state := state;
    }

    /** `SoldListingRemover#call`: delete, then bump and recount.  An empty list or no match changes nothing. */
    method RemoveSold(order: Order, cut: Option<Phase>) returns (failed: bool, removedFirst: bool, count: nat)
      modifies this
      ensures failed == (cut.Some? || DeleteFails(old(state), order))
      ensures count == |Deletable(old(state), order)|
      ensures removedFirst == !(cut == Some(BeforeDelete) || DeleteFails(old(state), order))
      ensures !removedFirst ==> state == old(state)
      ensures cut == Some(AfterDelete) && removedFirst ==> state == WithoutSold(old(state), order)
      ensures cut != Some(AfterDelete) && removedFirst
              ==> state == WithBump(WithoutSold(old(state), order), Deletable(old(state), order))
    {
      var removed := Deletable(state, order);
      count := |removed|;
      if cut == Some(BeforeDelete) || DeleteFails(state, order) {
        return true, false, count;
      }
      state := WithoutSold(state, order);
      if cut == Some(AfterDelete) {
        return true, true, count;
      }
      state := WithBump(state, removed);
      return cut.Some?, true, count;
    }

    /** `process_single_order`. */
    method ProcessSingleOrder(order: Order, now: int, cut: Option<Phase>) returns (step: Step)
      modifies this
      ensures (state, step) == ProcessOrder(old(state), order, now, cut)
    {
      if AlreadyProcessed(state.events, order) {
        return Skipped;
      }
      var failed, removedFirst, count := RemoveSold(order, cut);
      if failed {
        assert removedFirst ==> cut.value.AfterDelete? || cut.value.AfterBump?;
        return Failed(removedFirst);
      }
      state := WithEvent(state, order, count, now);
      return Processed(OrderResult(order.activity, count));
    }

    /** `process_each_order`: stops at the first exception. */
    method ProcessEachOrder(poll: Poll) returns (results: seq<OrderResult>, failed: bool, ghost reached: nat)
      modifies this
      ensures Walk(state, results, reached, failed) == WalkOf(old(state), poll)
    {
      var orders := poll.orders;
      results, failed, reached := [], false, 0;
      var i := 0;
      while i < |orders| && !failed
        invariant 0 <= i <= |orders|
        invariant Walk(state, results, reached, failed) == WalkOrders(old(state), orders[..i], poll.clock, poll.fault)
      {
        WalkSnoc(old(state), orders, poll.clock, poll.fault, i);
        var step := ProcessSingleOrder(orders[i], poll.clock(i), CutAt(poll.fault, i));
        match step {
          case Skipped => reached := reached + 1;
          case Processed(r) => results, reached := results + [r], reached + 1;
          case Failed(removedFirst) =>
            failed := true;
            if removedFirst { reached := reached + 1; }
        }
        i := i + 1;
      }
      if failed {
        FailureSticks(old(state), orders, poll.clock, poll.fault, i);
      }
      assert orders[..|orders|] == orders;
    }

    /** `OrderPoller#call`. */
    method Call(poll: Poll) returns (r: PollResult)
      modifies this
      ensures (state, r) == AfterPoll(old(state), poll)
    {
      if !poll.authorized || !poll.fetched {
        state := MarkFailure(state, poll.killed);
        return PollFailed;
      }
      if poll.orders == [] {
        if poll.fault == BeforeSuccess {
          state := MarkFailure(state, poll.killed);
          return PollFailed;
        }
        state := MarkSuccess(state, poll.endedAt);
        return PollDone(0, 0, false);
      }
      ghost var reached: nat;
      var results, failed;
      results, failed, reached := ProcessEachOrder(poll);
      if failed || poll.fault == BeforeCursor {
        state := MarkFailure(state, poll.killed);
        return PollFailed;
      }
      var activity := MaxActivity(results);
      state := AdvanceCursor(state, activity);
      if poll.fault == BeforeSuccess {
        state := MarkFailure(state, poll.killed);
        return PollFailed;
      }
      state := MarkSuccess(state, poll.endedAt);
      return PollDone(|results|, TotalRemoved(results), activity.Some?);
    }
  }

  lemma {:induction false} WalkSnoc(s: Store, orders: seq<Order>, clock: nat -> int, fault: Fault, i: nat)
    requires i < |orders|
    ensures WalkOrders(s, orders[..i+1], clock, fault)
         == Advance(WalkOrders(s, orders[..i], clock, fault), orders[i], clock(i), CutAt(fault, i))
  {
    assert orders[..i+1][..i] == orders[..i];
  }

  lemma {:induction false} FailureSticks(s: Store, orders: seq<Order>, clock: nat -> int, fault: Fault, i: nat)
    requires i <= |orders| && WalkOrders(s, orders[..i], clock, fault).failed
    ensures WalkOrders(s, orders, clock, fault) == WalkOrders(s, orders[..i], clock, fault)
    decreases |orders|
  {
    if i == |orders| {
      assert orders[..i] == orders;
    } else {
      assert orders[..|orders|-1][..i] == orders[..i];
      FailureSticks(s, orders[..|orders|-1], clock, fault, i);
    }
  }

  // ----- exactly-once effect

  /** What each order id sells, fixed for good. */
  type Contents = map<OrderId, set<ListingId>>

  ghost predicate Consistent(orders: seq<Order>, contents: Contents) {
    forall o :: o in orders ==> o.id in contents && contents[o.id] == ItemSet(o)
  }

  /** Every recorded order has had its listings removed. */
  ghost predicate EventsHonest(s: Store, contents: Contents) {
    forall id :: id in s.events ==> id in contents && contents[id] !! s.live
  }

  function SoldBy(orders: seq<Order>): set<ListingId> {
    if orders == [] then {} else SoldBy(orders[..|orders|-1]) + ItemSet(orders[|orders|-1])
  }

  lemma {:induction false} SkippedIsGone(s: Store, order: Order, contents: Contents)
    requires order.id in contents && contents[order.id] == ItemSet(order) && EventsHonest(s, contents)
    requires AlreadyProcessed(s.events, order)
    ensures Deletable(s, order) == {} && s.live - ItemSet(order) == s.live
  {
    assert contents[order.id] !! s.live;
  }

  /** One order: skipped only when its listings are gone already, removed when the delete went through,
      nothing changed otherwise. */
  lemma {:induction false} StepEffect(s: Store, order: Order, now: int, cut: Option<Phase>, contents: Contents)
    requires order.id in contents && contents[order.id] == ItemSet(order) && EventsHonest(s, contents)
    ensures var (t, step) := ProcessOrder(s, order, now, cut);
      t.live == (if step == Failed(false) then s.live else s.live - ItemSet(order)) && t.clicked == s.clicked
  {
    if AlreadyProcessed(s.events, order) {
      SkippedIsGone(s, order, contents);
    }
  }

  lemma {:induction false} StepFails(s: Store, order: Order, now: int, contents: Contents)
    requires order.id in contents && contents[order.id] == ItemSet(order) && EventsHonest(s, contents)
    ensures ProcessOrder(s, order, now, None).1.Failed? <==> Deletable(s, order) * s.clicked != {}
  {
    if AlreadyProcessed(s.events, order) {
      SkippedIsGone(s, order, contents);
    }
  }

  lemma {:induction false} StepEvents(s: Store, order: Order, now: int, cut: Option<Phase>)
    ensures var (t, step) := ProcessOrder(s, order, now, cut);
      forall id :: id in t.events ==> id in s.events || (id == order.id && step.Processed?)
  {
  }

  lemma {:induction false} StepHonest(s: Store, order: Order, now: int, cut: Option<Phase>, contents: Contents)
    requires order.id in contents && contents[order.id] == ItemSet(order) && EventsHonest(s, contents)
    ensures EventsHonest(ProcessOrder(s, order, now, cut).0, contents)
  {
    StepEffect(s, order, now, cut, contents);
    StepEvents(s, order, now, cut);
    var (t, step) := ProcessOrder(s, order, now, cut);
    assert t.live <= s.live && (step.Processed? ==> t.live == s.live - ItemSet(order));
    forall id | id in t.events ensures id in contents && contents[id] !! t.live {
      if id in s.events {
        assert contents[id] !! s.live;
      }
    }
  }

  lemma {:induction false} SoldByPrefix(orders: seq<Order>, n: nat)
    requires n < |orders|
    ensures SoldBy(orders[..n+1]) == SoldBy(orders[..n]) + ItemSet(orders[n])
  {
    assert orders[..n+1][..n] == orders[..n];
  }

  /** The live listings of a walk are the initial ones without those of the orders it reached. */
  ghost predicate Reaches(w: Walk, s: Store, orders: seq<Order>, contents: Contents) {
    && w.reached <= |orders| && (!w.failed ==> w.reached == |orders|)
    && w.store.live == s.live - SoldBy(orders[..w.reached])
    && EventsHonest(w.store, contents)
    && w.store.clicked == s.clicked
  }

  lemma {:induction false} AdvanceReaches(w: Walk, s: Store, orders: seq<Order>, now: int, cut: Option<Phase>, contents: Contents)
    requires orders != [] && Consistent(orders, contents)
    requires Reaches(w, s, orders[..|orders|-1], contents)
    ensures Reaches(Advance(w, orders[|orders|-1], now, cut), s, orders, contents)
  {
    var n := |orders| - 1;
    var w' := Advance(w, orders[n], now, cut);
    assert orders[..n][..w.reached] == orders[..w.reached];
    if !w.failed {
      assert orders[n] in orders;
      StepEffect(w.store, orders[n], now, cut, contents);
      StepHonest(w.store, orders[n], now, cut, contents);
      if w'.reached == n + 1 {
        SoldByPrefix(orders, n);
        assert w'.store.live == (s.live - SoldBy(orders[..n])) - ItemSet(orders[n]);
        assert w'.store.live == s.live - SoldBy(orders[..n+1]);
      } else {
        assert w'.reached == n && w'.failed && w'.store.live == w.store.live;
      }
    }
  }

  /** However the walk ends, it has removed exactly the listings of the orders it reached: skipping
      an order is as good as processing it. */
  lemma {:induction false} WalkRemovesReached(s: Store, orders: seq<Order>, clock: nat -> int, fault: Fault, contents: Contents)
    requires Consistent(orders, contents) && EventsHonest(s, contents)
    ensures Reaches(WalkOrders(s, orders, clock, fault), s, orders, contents)
  {
    if orders == [] {
      assert SoldBy(orders[..0]) == {};
    } else {
      var n := |orders| - 1;
      WalkRemovesReached(s, orders[..n], clock, fault, contents);
      AdvanceReaches(WalkOrders(s, orders[..n], clock, fault), s, orders, clock(n), CutAt(fault, n), contents);
    }
  }

  /** A walk that is not cut off at an order fails exactly when some listing it would sell is still
      live and has a click event, because the sold-listing path does not detach click events. */
  lemma {:induction false} WalkFailsIff(s: Store, orders: seq<Order>, clock: nat -> int, fault: Fault, contents: Contents)
    requires Consistent(orders, contents) && EventsHonest(s, contents) && !fault.AtOrder?
    ensures WalkOrders(s, orders, clock, fault).failed <==> SoldBy(orders) * s.live * s.clicked != {}
  {
    if orders != [] {
      var n := |orders| - 1;
      WalkFailsIff(s, orders[..n], clock, fault, contents);
      WalkRemovesReached(s, orders[..n], clock, fault, contents);
      assert orders[n] in orders;
      PoisonSplits(s, SoldBy(orders[..n]), ItemSet(orders[n]));
      AdvanceFailsIff(WalkOrders(s, orders[..n], clock, fault), s, orders, clock(n), contents);
    }
  }

  /** The failure is real: one live listing with a click event, sold by one order. */
  lemma {:induction false} ClickedListingBlocksPoll(clock: nat -> int, endedAt: int)
    ensures var s := Store({1}, {1}, 0, None, map[], None, None, false);
            var poll := Poll(true, true, [Order(7, [Some(1)], None)], clock, NoFault, endedAt, false);
            AfterPoll(s, poll) == (s.(error := true), PollFailed)
  {
    var s := Store({1}, {1}, 0, None, map[], None, None, false);
    var order := Order(7, [Some(1)], None);
    assert [Some(1)][..0] == [];
    assert ListingIdsOf([Some(1)]) == [1];
    assert 1 in Deletable(s, order) * s.clicked;
    assert [order][..0] == [];
    assert WalkOrders(s, [order], clock, NoFault) == Walk(s, [], 0, true);
  }

  lemma {:induction false} AdvanceFailsIff(w: Walk, s: Store, orders: seq<Order>, now: int, contents: Contents)
    requires orders != [] && Consistent(orders, contents) && Reaches(w, s, orders[..|orders|-1], contents)
    ensures var n := |orders| - 1;
            Advance(w, orders[n], now, None).failed
            <==> w.failed || ItemSet(orders[n]) * (s.live - SoldBy(orders[..n])) * s.clicked != {}
  {
    var n := |orders| - 1;
    if !w.failed {
      assert orders[..n][..n] == orders[..n];
      assert orders[n] in orders;
      StepFails(w.store, orders[n], now, contents);
      assert Deletable(w.store, orders[n]) == ItemSet(orders[n]) * (s.live - SoldBy(orders[..n]));
    }
  }

  lemma {:induction false} PoisonSplits(s: Store, sold: set<ListingId>, items: set<ListingId>)
    ensures (sold + items) * s.live * s.clicked != {}
            <==> sold * s.live * s.clicked != {} || items * (s.live - sold) * s.clicked != {}
  {
    var both := (sold + items) * s.live * s.clicked;
    if id :| id in both {
      assert id in sold * s.live * s.clicked || id in items * (s.live - sold) * s.clicked;
    }
    if id :| id in sold * s.live * s.clicked {
      assert id in both;
    }
    if id :| id in items * (s.live - sold) * s.clicked {
      assert id in both;
    }
  }

  /** A poll that is not cut off at an order completes if and only if it may start, gets its orders, sells
      no live listing with a click event, and can record its cursor and its success. */
  lemma {:induction false} PollCompletesIff(s: Store, poll: Poll, contents: Contents)
    requires Consistent(poll.orders, contents) && EventsHonest(s, contents) && !poll.fault.AtOrder?
    ensures AfterPoll(s, poll).1.PollDone?
      <==> poll.authorized && poll.fetched && SoldBy(poll.orders) * s.live * s.clicked == {}
           && poll.fault != BeforeSuccess && (poll.fault == BeforeCursor ==> poll.orders == [])
  {
    WalkFailsIff(s, poll.orders, poll.clock, poll.fault, contents);
  }

  // ----- walks cut off at an order

  lemma {:induction false} SameBeforeCut(s: Store, orders: seq<Order>, clock: nat -> int, fault: Fault)
    requires fault.AtOrder? && |orders| <= fault.index
    ensures WalkOrders(s, orders, clock, fault) == WalkOrders(s, orders, clock, NoFault)
  {
    if orders != [] {
      SameBeforeCut(s, orders[..|orders|-1], clock, fault);
    }
  }

  lemma {:induction false} PoisonInPrefix(s: Store, orders: seq<Order>, n: nat)
    requires n <= |orders| && SoldBy(orders) * s.live * s.clicked == {}
    ensures SoldBy(orders[..n]) * s.live * s.clicked == {}
    decreases |orders|
  {
    if n == |orders| {
      assert orders[..n] == orders;
    } else {
      var init := orders[..|orders|-1];
      PoisonSplits(s, SoldBy(init), ItemSet(orders[|orders|-1]));
      assert init[..n] == orders[..n];
      PoisonInPrefix(s, init, n);
    }
  }

  lemma {:induction false} AdvanceCut(w: Walk, order: Order, now: int, phase: Phase)
    requires !w.failed && !AlreadyProcessed(w.store.events, order) && !DeleteFails(w.store, order)
    ensures var t := Advance(w, order, now, Some(phase));
      && t.failed && t.results == w.results && t.store.events == w.store.events
      && t.reached == w.reached + (if phase == BeforeDelete then 0 else 1)
      && t.store.version == w.store.version + (if phase == AfterBump && Deletable(w.store, order) != {} then 1 else 0)
  {
  }

  lemma {:induction false} NotPoisoned(s: Store, orders: seq<Order>, i: nat, before: Walk, contents: Contents)
    requires i < |orders| && SoldBy(orders) * s.live * s.clicked == {}
    requires Reaches(before, s, orders[..i], contents) && !before.failed
    ensures !DeleteFails(before.store, orders[i])
  {
    PoisonInPrefix(s, orders, i + 1);
    SoldByPrefix(orders, i);
    PoisonSplits(s, SoldBy(orders[..i]), ItemSet(orders[i]));
    assert orders[..i][..i] == orders[..i];
    assert Deletable(before.store, orders[i]) == ItemSet(orders[i]) * (s.live - SoldBy(orders[..i]));
  }

  lemma {:induction false} DueAfterOthers(s: Store, orders: seq<Order>, clock: nat -> int, i: nat)
    requires DistinctOrders(orders) && i < |orders|
    ensures AlreadyProcessed(WalkOrders(s, orders[..i], clock, NoFault).store.events, orders[i])
         == AlreadyProcessed(s.events, orders[i])
  {
    var init := orders[..i];
    forall j | 0 <= j < |init| ensures init[j].id != orders[i].id {
      assert init[j] == orders[j];
    }
    OthersUntouched(s, init, clock, NoFault, orders[i]);
  }

  /** A walk cut off at an order that is due has done everything before it and, of that order, exactly
      the steps before the cut: its listings are gone unless it was cut before the delete, and the
      version speaks for them only if it was cut after the bump. */
  lemma {:induction false} CutWalkReaches(s: Store, orders: seq<Order>, clock: nat -> int, i: nat, phase: Phase, contents: Contents)
    requires Consistent(orders, contents) && EventsHonest(s, contents) && DistinctOrders(orders)
    requires i < |orders| && SoldBy(orders) * s.live * s.clicked == {} && !AlreadyProcessed(s.events, orders[i])
    ensures var w, before := WalkOrders(s, orders, clock, AtOrder(i, phase)), WalkOrders(s, orders[..i], clock, NoFault);
      && w.failed && !before.failed && w.results == before.results && w.store.events == before.store.events
      && w.reached == (if phase == BeforeDelete then i else i + 1)
      && w.store.live == s.live - SoldBy(orders[..w.reached])
      && w.store.version == before.store.version
                            + (if phase == AfterBump && ItemSet(orders[i]) * before.store.live != {} then 1 else 0)
  {
    var fault, init := AtOrder(i, phase), orders[..i];
    var before := WalkOrders(s, init, clock, NoFault);
    SameBeforeCut(s, init, clock, fault);
    PoisonInPrefix(s, orders, i);
    assert Consistent(init, contents);
    WalkFailsIff(s, init, clock, NoFault, contents);
    WalkRemovesReached(s, init, clock, NoFault, contents);
    DueAfterOthers(s, orders, clock, i);
    NotPoisoned(s, orders, i, before, contents);
    AdvanceCut(before, orders[i], clock(i), phase);
    WalkSnoc(s, orders, clock, fault, i);
    FailureSticks(s, orders, clock, fault, i + 1);
    CutWalkLive(s, orders, clock, fault, contents);
  }

  lemma {:induction false} CutWalkLive(s: Store, orders: seq<Order>, clock: nat -> int, fault: Fault, contents: Contents)
    requires Consistent(orders, contents) && EventsHonest(s, contents)
    ensures var w := WalkOrders(s, orders, clock, fault);
            w.reached <= |orders| && w.store.live == s.live - SoldBy(orders[..w.reached])
  {
    WalkRemovesReached(s, orders, clock, fault, contents);
  }

  // ----- histories

  function AfterPolls(s: Store, polls: seq<Poll>): Store {
    if polls == [] then s else AfterPoll(AfterPolls(s, polls[..|polls|-1]), polls[|polls|-1]).0
  }

  /** The orders a poll got to, in the store it found. */
  function ReachedBy(s: Store, poll: Poll): seq<Order> {
    if !poll.authorized || !poll.fetched then []
    else Take(poll.orders, WalkOf(s, poll).reached)
  }

  /** Every listing of every order that any poll of the history got to. */
  function Touched(s: Store, polls: seq<Poll>): set<ListingId> {
    if polls == [] then {} else
      var init := polls[..|polls|-1];
      Touched(s, init) + SoldBy(ReachedBy(AfterPolls(s, init), polls[|polls|-1]))
  }

  ghost predicate ConsistentPolls(polls: seq<Poll>, contents: Contents) {
    forall p :: p in polls ==> Consistent(p.orders, contents)
  }

  lemma {:induction false} PollRemovesReached(s: Store, poll: Poll, contents: Contents)
    requires Consistent(poll.orders, contents) && EventsHonest(s, contents)
    ensures var (t, r) := AfterPoll(s, poll);
      && t.live == s.live - SoldBy(ReachedBy(s, poll)) && EventsHonest(t, contents)
      && (r.PollDone? ==> ReachedBy(s, poll) == poll.orders)
  {
    WalkRemovesReached(s, poll.orders, poll.clock, poll.fault, contents);
    var w := WalkOf(s, poll);
    assert poll.orders[..|poll.orders|] == poll.orders;
  }

  /** After any history of completed, replayed and interrupted polls, the live listings are the
      initial ones without the listings of every order some poll got to; a completed poll got to all
      of its orders.  Timestamps, repetition and the point of interruption make no difference. */
  lemma {:induction false} ExactlyOnce(s: Store, polls: seq<Poll>, contents: Contents)
    requires ConsistentPolls(polls, contents) && EventsHonest(s, contents)
    ensures AfterPolls(s, polls).live == s.live - Touched(s, polls)
    ensures EventsHonest(AfterPolls(s, polls), contents)
    ensures polls != [] && AfterPoll(AfterPolls(s, polls[..|polls|-1]), polls[|polls|-1]).1.PollDone?
            ==> SoldBy(polls[|polls|-1].orders) <= Touched(s, polls)
  {
    if polls != [] {
      var init, last := polls[..|polls|-1], polls[|polls|-1];
      assert polls == init + [last] && last in polls;
      ExactlyOnce(s, init, contents);
      PollRemovesReached(AfterPolls(s, init), last, contents);
    }
  }

  /** Polling the same orders again after a completed poll, whenever, removes nothing and bumps nothing. */
  lemma {:induction false} ReplayChangesNothing(s: Store, poll: Poll, again: Poll, contents: Contents)
    requires Consistent(poll.orders, contents) && EventsHonest(s, contents)
    requires AfterPoll(s, poll).1.PollDone? && again.orders == poll.orders
    ensures var t := AfterPoll(s, poll).0; var t' := AfterPoll(t, again).0;
            t'.live == t.live && t'.version == t.version && t'.total == t.total
  {
    PollRemovesReached(s, poll, contents);
    var t := AfterPoll(s, poll).0;
    assert SoldBy(poll.orders) !! t.live;
    NothingToRemove(t, again.orders, again.clock, again.fault);
  }

  lemma {:induction false} StepNothing(s: Store, order: Order, now: int, cut: Option<Phase>)
    requires ItemSet(order) !! s.live
    ensures var t := ProcessOrder(s, order, now, cut).0;
            t.live == s.live && t.version == s.version && t.total == s.total
  {
    assert Deletable(s, order) == {};
    assert s.live - ItemSet(order) == s.live;
  }

  lemma {:induction false} NothingToRemove(s: Store, orders: seq<Order>, clock: nat -> int, fault: Fault)
    requires SoldBy(orders) !! s.live
    ensures var t := WalkOrders(s, orders, clock, fault).store;
            t.live == s.live && t.version == s.version && t.total == s.total
  {
    if orders != [] {
      var n := |orders| - 1;
      NothingToRemove(s, orders[..n], clock, fault);
      var w := WalkOrders(s, orders[..n], clock, fault);
      StepNothing(w.store, orders[n], clock(n), CutAt(fault, n));
    }
  }

  // ----- conservation

  function RemovedSome(): OrderResult -> bool {
    (r: OrderResult) => r.removed > 0
  }

  lemma {:induction false} SplitLive(s: Store, order: Order)
    ensures |s.live| == |s.live - ItemSet(order)| + |Deletable(s, order)|
    ensures Deletable(s, order) == {} ==> s.live - ItemSet(order) == s.live
  {
    assert s.live == (s.live - ItemSet(order)) + Deletable(s, order);
  }

  lemma {:induction false} StepConserves(s: Store, order: Order, now: int, cut: Option<Phase>)
    ensures var (t, step) := ProcessOrder(s, order, now, cut);
      && (step.Skipped? ==> t == s)
      && (step.Processed? ==> |s.live| == |t.live| + step.result.removed)
      && (step.Processed? && step.result.removed > 0 ==> t.version == s.version + 1 && t.total == Some(|t.live|))
      && (step.Processed? && step.result.removed == 0 ==> t.version == s.version && t.total == s.total && t.live == s.live)
  {
    SplitLive(s, order);
  }

  /** Removed counts add up to the drop in live listings; the version has risen once per order that
      removed something, and once any has the total is the live count. */
  ghost predicate Conserves(s: Store, w: Walk) {
    var bumps := Count(w.results, RemovedSome());
    && |s.live| == |w.store.live| + TotalRemoved(w.results)
    && w.store.version == s.version + bumps
    && w.store.total == (if bumps > 0 then Some(|w.store.live|) else s.total)
    && (bumps == 0 ==> w.store.live == s.live)
  }

  lemma {:induction false} AdvanceConserves(s: Store, w: Walk, order: Order, now: int, cut: Option<Phase>)
    requires Conserves(s, w) && !Advance(w, order, now, cut).failed
    ensures Conserves(s, Advance(w, order, now, cut))
  {
    StepConserves(w.store, order, now, cut);
    var step := ProcessOrder(w.store, order, now, cut).1;
    if step.Processed? {
      FilterSnoc(w.results, step.result, RemovedSome());
      assert (w.results + [step.result])[..|w.results|] == w.results;
    }
  }

  lemma {:induction false} WalkConserves(s: Store, orders: seq<Order>, clock: nat -> int, fault: Fault)
    requires !WalkOrders(s, orders, clock, fault).failed
    ensures Conserves(s, WalkOrders(s, orders, clock, fault))
  {
    if orders != [] {
      var n := |orders| - 1;
      WalkConserves(s, orders[..n], clock, fault);
      AdvanceConserves(s, WalkOrders(s, orders[..n], clock, fault), orders[n], clock(n), CutAt(fault, n));
    }
  }

  function RemovedTotal(s: Store, polls: seq<Poll>): nat {
    if polls == [] then 0 else
      var init := polls[..|polls|-1];
      RemovedTotal(s, init) + match AfterPoll(AfterPolls(s, init), polls[|polls|-1]).1
                              case PollDone(_, removed, _) => removed
                              case PollFailed => 0
  }

  function BumpingOrders(s: Store, polls: seq<Poll>): nat {
    if polls == [] then 0 else
      var init, last := polls[..|polls|-1], polls[|polls|-1];
      BumpingOrders(s, init) + Count(WalkOf(AfterPolls(s, init), last).results, RemovedSome())
  }

  ghost predicate AllComplete(s: Store, polls: seq<Poll>) {
    forall i :: 0 <= i < |polls| ==> AfterPoll(AfterPolls(s, polls[..i]), polls[i]).1.PollDone?
  }

  lemma {:induction false} PollConserves(s: Store, poll: Poll)
    requires AfterPoll(s, poll).1.PollDone?
    ensures var (t, r) := AfterPoll(s, poll); var bumps := Count(WalkOf(s, poll).results, RemovedSome());
      && |s.live| == |t.live| + r.removedCount && r.orderCount == |WalkOf(s, poll).results|
      && t.version == s.version + bumps
      && t.total == (if bumps > 0 then Some(|t.live|) else s.total)
      && (bumps == 0 ==> t.live == s.live)
  {
    WalkConserves(s, poll.orders, poll.clock, poll.fault);
  }

  /** Over any sequence of completed polls the returned removed counts sum to the drop in live
      listings, the version grows by the number of processed orders that removed something, and
      once any has, the stored total is the live count. */
  lemma {:induction false} PollsConserve(s: Store, polls: seq<Poll>)
    requires AllComplete(s, polls)
    ensures var t := AfterPolls(s, polls);
      && |s.live| == |t.live| + RemovedTotal(s, polls)
      && t.version == s.version + BumpingOrders(s, polls)
      && t.total == (if BumpingOrders(s, polls) > 0 then Some(|t.live|) else s.total)
  {
    if polls != [] {
      var n := |polls| - 1;
      var init := polls[..n];
      forall i | 0 <= i < n ensures AfterPoll(AfterPolls(s, init[..i]), init[i]).1.PollDone? {
        assert init[..i] == polls[..i];
      }
      PollsConserve(s, init);
      PollConserves(AfterPolls(s, init), polls[n]);
    }
  }

  /** A failed poll never moves the last-polled time.  It moves the cursor exactly when it walked
      through its orders, found a later activity and failed only on recording its success; then the
      cursor is that activity. */
  lemma {:induction false} FailedPollMarks(s: Store, poll: Poll)
    requires AfterPoll(s, poll).1.PollFailed?
    ensures var t := AfterPoll(s, poll).0; var w := WalkOf(s, poll);
      && t.polledAt == s.polledAt
      && t.error == (s.error || !poll.killed)
      && (t.cursor != s.cursor <==>
            poll.authorized && poll.fetched && !w.failed && poll.fault == BeforeSuccess
            && MaxActivity(w.results) != None && MaxActivity(w.results) != s.cursor)
      && (t.cursor != s.cursor ==> t.cursor == MaxActivity(w.results))
  {
    WalkKeepsMarks(s, poll.orders, poll.clock, poll.fault);
  }

  /** The latest activity among the orders no event on record makes the poll skip. */
  function LatestNew(events: map<OrderId, OrderEvent>, orders: seq<Order>): Option<int> {
    if orders == [] then None else
      var before, order := LatestNew(events, orders[..|orders|-1]), orders[|orders|-1];
      if AlreadyProcessed(events, order) then before else Later(before, order.activity)
  }

  ghost predicate DistinctOrders(orders: seq<Order>) {
    forall i, j :: 0 <= i < j < |orders| ==> orders[i].id != orders[j].id
  }

  lemma {:induction false} AdvanceUntouched(w: Walk, order: Order, now: int, cut: Option<Phase>, other: Order)
    requires order.id != other.id
    ensures AlreadyProcessed(Advance(w, order, now, cut).store.events, other) == AlreadyProcessed(w.store.events, other)
  {
  }

  /** Walking over orders leaves the events of every other order alone. */
  lemma {:induction false} OthersUntouched(s: Store, orders: seq<Order>, clock: nat -> int, fault: Fault, other: Order)
    requires forall i :: 0 <= i < |orders| ==> orders[i].id != other.id
    ensures AlreadyProcessed(WalkOrders(s, orders, clock, fault).store.events, other) == AlreadyProcessed(s.events, other)
  {
    if orders != [] {
      var n := |orders| - 1;
      var init := orders[..n];
      forall i | 0 <= i < |init| ensures init[i].id != other.id {
        assert init[i] == orders[i];
      }
      OthersUntouched(s, init, clock, fault, other);
      AdvanceUntouched(WalkOrders(s, init, clock, fault), orders[n], clock(n), CutAt(fault, n), other);
    }
  }

  lemma {:induction false} AdvanceActivity(w: Walk, order: Order, now: int, cut: Option<Phase>)
    requires !Advance(w, order, now, cut).failed
    ensures !w.failed
    ensures |Advance(w, order, now, cut).results| == |w.results| + if AlreadyProcessed(w.store.events, order) then 0 else 1
    ensures var latest := MaxActivity(w.results);
            MaxActivity(Advance(w, order, now, cut).results)
            == if AlreadyProcessed(w.store.events, order) then latest else Later(latest, order.activity)
  {
    var r := OrderResult(order.activity, |Deletable(w.store, order)|);
    assert (w.results + [r])[..|w.results|] == w.results;
  }

  lemma {:induction false} WalkActivity(s: Store, orders: seq<Order>, clock: nat -> int, fault: Fault)
    requires DistinctOrders(orders) && !WalkOrders(s, orders, clock, fault).failed
    ensures MaxActivity(WalkOrders(s, orders, clock, fault).results) == LatestNew(s.events, orders)
  {
    if orders != [] {
      var n := |orders| - 1;
      var init := orders[..n];
      forall i | 0 <= i < |init| ensures init[i].id != orders[n].id {
        assert init[i] == orders[i];
      }
      AdvanceActivity(WalkOrders(s, init, clock, fault), orders[n], clock(n), CutAt(fault, n));
      WalkActivity(s, init, clock, fault);
      OthersUntouched(s, init, clock, fault, orders[n]);
    }
  }

  /** `LatestNew` is the greatest activity of the orders not skipped: at least each of them, and one of them. */
  lemma {:induction false} LatestNewExactly(events: map<OrderId, OrderEvent>, orders: seq<Order>)
    ensures forall o :: o in orders && !AlreadyProcessed(events, o) && o.activity.Some?
              ==> LatestNew(events, orders).Some? && o.activity.value <= LatestNew(events, orders).value
    ensures LatestNew(events, orders).Some?
      ==> exists o :: o in orders && !AlreadyProcessed(events, o) && o.activity == LatestNew(events, orders)
  {
    if orders != [] {
      var init, last := orders[..|orders|-1], orders[|orders|-1];
      assert orders == init + [last];
      LatestNewExactly(events, init);
      if LatestNew(events, init).Some? {
        var o :| o in init && !AlreadyProcessed(events, o) && o.activity == LatestNew(events, init);
        assert o in orders;
      }
      assert last in orders;
    }
  }

  function NotSkipped(events: map<OrderId, OrderEvent>): Order -> bool {
    (o: Order) => !AlreadyProcessed(events, o)
  }

  /** How many of the orders no event on record makes the poll skip. */
  function NewOrders(events: map<OrderId, OrderEvent>, orders: seq<Order>): nat {
    if orders == [] then 0 else
      NewOrders(events, orders[..|orders|-1]) + if AlreadyProcessed(events, orders[|orders|-1]) then 0 else 1
  }

  lemma {:induction false} NewOrdersCounted(events: map<OrderId, OrderEvent>, orders: seq<Order>)
    ensures NewOrders(events, orders) == Count(orders, NotSkipped(events))
  {
    if orders != [] {
      NewOrdersCounted(events, orders[..|orders|-1]);
    }
  }

  lemma {:induction false} WalkResults(s: Store, orders: seq<Order>, clock: nat -> int, fault: Fault)
    requires DistinctOrders(orders) && !WalkOrders(s, orders, clock, fault).failed
    ensures |WalkOrders(s, orders, clock, fault).results| == NewOrders(s.events, orders)
  {
    if orders != [] {
      var n := |orders| - 1;
      DistinctInit(orders);
      AdvanceActivity(WalkOrders(s, orders[..n], clock, fault), orders[n], clock(n), CutAt(fault, n));
      WalkResults(s, orders[..n], clock, fault);
      OthersUntouched(s, orders[..n], clock, fault, orders[n]);
    }
  }

  lemma {:induction false} DistinctInit(orders: seq<Order>)
    requires DistinctOrders(orders) && orders != []
    ensures var init, last := orders[..|orders|-1], orders[|orders|-1];
            DistinctOrders(init) && forall i :: 0 <= i < |init| ==> init[i].id != last.id
  {
  }

  /** What a completed poll leaves: its time, no error, and the cursor at the latest activity it
      processed, or where it was if there was none; and what it reports about itself. */
  lemma {:induction false} CompletedPollMarks(s: Store, poll: Poll)
    requires AfterPoll(s, poll).1.PollDone? && DistinctOrders(poll.orders)
    ensures var (t, r) := AfterPoll(s, poll); var latest := LatestNew(s.events, poll.orders);
      && t.polledAt == Some(poll.endedAt) && !t.error
      && t.cursor == (if latest.Some? then latest else s.cursor)
      && r.cursorAdvanced == latest.Some?
      && r.orderCount == Count(poll.orders, NotSkipped(s.events))
      && r.removedCount == |s.live| - |t.live|
  {
    WalkKeepsMarks(s, poll.orders, poll.clock, poll.fault);
    WalkActivity(s, poll.orders, poll.clock, poll.fault);
    WalkResults(s, poll.orders, poll.clock, poll.fault);
    NewOrdersCounted(s.events, poll.orders);
    PollConserves(s, poll);
  }

  /** When a poll fails and still moves the cursor, in terms of the store and the orders it finds:
      it fails on recording its success, sells no live listing with a click event, and the latest
      activity it has not yet processed is not where the cursor stands. */
  lemma {:induction false} FailedPollMovesCursorIff(s: Store, poll: Poll, contents: Contents)
    requires Consistent(poll.orders, contents) && EventsHonest(s, contents) && DistinctOrders(poll.orders)
    ensures var (t, r) := AfterPoll(s, poll); var latest := LatestNew(s.events, poll.orders);
      r.PollFailed? && t.cursor != s.cursor
      <==> poll.authorized && poll.fetched && poll.fault == BeforeSuccess
           && SoldBy(poll.orders) * s.live * s.clicked == {}
           && latest != None && latest != s.cursor
  {
    if AfterPoll(s, poll).1.PollFailed? {
      FailedPollMarks(s, poll);
    }
    if poll.fault == BeforeSuccess {
      WalkFailsIff(s, poll.orders, poll.clock, poll.fault, contents);
      if !WalkOf(s, poll).failed {
        WalkActivity(s, poll.orders, poll.clock, poll.fault);
      }
    }
  }

  /** The move is real: a poll of one order with activity at 100 fails and leaves the cursor at 100. */
  lemma {:induction false} FailedPollMovesCursor(clock: nat -> int, endedAt: int)
    ensures var s := Store({}, {}, 0, None, map[], None, None, false);
            var poll := Poll(true, true, [Order(7, [], Some(100))], clock, BeforeSuccess, endedAt, false);
            var (t, r) := AfterPoll(s, poll);
            r.PollFailed? && s.cursor == None && t.cursor == Some(100) && t.polledAt == None
  {
    var s := Store({}, {}, 0, None, map[], None, None, false);
    var order := Order(7, [], Some(100));
    var poll := Poll(true, true, [order], clock, BeforeSuccess, endedAt, false);
    var contents: Contents := map[7 := {}];
    assert ItemSet(order) == {};
    assert [order][..0] == [];
    assert SoldBy([order]) == {} + ItemSet(order);
    assert LatestNew(s.events, [order]) == Some(100);
    FailedPollMovesCursorIff(s, poll, contents);
    FailedPollMarks(s, poll);
    WalkActivity(s, [order], clock, BeforeSuccess);
  }

  lemma {:induction false} StepKeepsMarks(s: Store, order: Order, now: int, cut: Option<Phase>)
    ensures var t := ProcessOrder(s, order, now, cut).0;
            t.cursor == s.cursor && t.polledAt == s.polledAt && t.error == s.error
  {
  }

  lemma {:induction false} WalkKeepsMarks(s: Store, orders: seq<Order>, clock: nat -> int, fault: Fault)
    ensures var t := WalkOrders(s, orders, clock, fault).store;
            t.cursor == s.cursor && t.polledAt == s.polledAt && t.error == s.error
  {
    if orders != [] {
      var n := |orders| - 1;
      WalkKeepsMarks(s, orders[..n], clock, fault);
      var w := WalkOrders(s, orders[..n], clock, fault);
      StepKeepsMarks(w.store, orders[n], clock(n), CutAt(fault, n));
    }
  }
}

/** The version-keyed curation cache of one store, as a protocol: removers delete rows and only
    then bump `inventory_version`; requests and pre-warming load the version, read the listings
    and write the payload under the version they loaded.  Steps interleave in any order.
 */
module CacheProtocol {
  import opened Sequences

  type RowId = nat
  type Pid = nat

  /** Everything in the cache key beside the version: date, scope, wall count. */
  datatype Context = Context(date: int, availableOnly: bool, wallCount: nat)

  datatype Key = Key(context: Context, version: nat)

  datatype Proc =
    | Plucked(rows: set<RowId>)             // remover, before its delete
    | Deleted(rows: set<RowId>)             // remover, deleted but not yet bumped
    | Loaded(key: Key)                      // curator, version loaded
    | Read(key: Key, payload: set<RowId>)   // curator, listings read

  /** One page handed to a visitor, with the key of the store row the request loaded. */
  datatype Response = Response(key: Key, payload: set<RowId>)

  datatype State = State(
    version: nat,
    live: set<RowId>,
    cache: map<Key, set<RowId>>,
    procs: map<Pid, Proc>,
    served: set<Response>,
    // history, read by the theorems only
    used: set<RowId>,            // every row id ever handed out
    gone: map<RowId, nat>,       // deleted rows, with the version at their deletion
    bumped: map<RowId, nat>)     // rows whose remover has bumped, with the version that produced

  datatype Event =
    | Insert(rows: set<RowId>)
    | Pluck(pid: Pid, wanted: set<RowId>)
    | Delete(pid: Pid)
    | DeleteStale(pid: Pid, keep: set<RowId>)
    | Bump(pid: Pid)
    | Crash(pid: Pid)
    | Load(pid: Pid, context: Context)
    | Hit(pid: Pid)
    | ReadListings(pid: Pid, payload: set<RowId>)
    | Write(pid: Pid)
    | Expire(key: Key)

  const INIT := State(0, {}, map[], map[], {}, {}, map[], map[])

  predicate Enabled(s: State, e: Event) {
    match e
    case Insert(rows) => rows !! s.used            // row ids come from a sequence, never reused
    case Pluck(pid, _) => pid !in s.procs
    case Delete(pid) => pid in s.procs && s.procs[pid].Plucked?
    case DeleteStale(pid, _) => pid !in s.procs
    case Bump(pid) => pid in s.procs && s.procs[pid].Deleted?
    case Crash(pid) => pid in s.procs
    case Load(pid, _) => pid !in s.procs
    case Hit(pid) => pid in s.procs && s.procs[pid].Loaded? && s.procs[pid].key in s.cache
    case ReadListings(pid, payload) => pid in s.procs && s.procs[pid].Loaded? && payload <= s.live
    case Write(pid) => pid in s.procs && s.procs[pid].Read?
    case Expire(_) => true
  }

  /** Deletion recorded at the current version, keeping the first record of a row. */
  function Bury(s: State, rows: set<RowId>): map<RowId, nat> {
    s.gone + (map r | r in rows && r !in s.gone :: s.version)
  }

  function Apply(s: State, e: Event): State
    requires Enabled(s, e)
  {
    match e
    case Insert(rows) =>
      s.(live := s.live + rows, used := s.used + rows)
    case Pluck(pid, wanted) =>
      if wanted * s.live == {} then s
      else s.(procs := s.procs[pid := Plucked(wanted * s.live)])
    case Delete(pid) =>
      var rows := s.procs[pid].rows;
      s.(live := s.live - rows, gone := Bury(s, rows), procs := s.procs[pid := Deleted(rows)])
    case DeleteStale(pid, keep) =>
      var rows := s.live - keep;
      if rows == {} then s
      else s.(live := s.live - rows, gone := Bury(s, rows), procs := s.procs[pid := Deleted(rows)])
    case Bump(pid) =>
      var v := s.version + 1;
      var rows := s.procs[pid].rows;
      s.(version := v, procs := s.procs - {pid}, bumped := s.bumped + (map r | r in rows && r !in s.bumped :: v))
    case Crash(pid) =>
      s.(procs := s.procs - {pid})
    case Load(pid, context) =>
      s.(procs := s.procs[pid := Loaded(Key(context, s.version))])
    case Hit(pid) =>
      var key := s.procs[pid].key;
      s.(procs := s.procs - {pid}, served := s.served + {Response(key, s.cache[key])})
    case ReadListings(pid, payload) =>
      s.(procs := s.procs[pid := Read(s.procs[pid].key, payload)])
    case Write(pid) =>
      var p := s.procs[pid];
      s.(cache := s.cache[p.key := p.payload], procs := s.procs - {pid},
         served := s.served + {Response(p.key, p.payload)})
    case Expire(key) =>
      s.(cache := s.cache - {key})
  }

  /** The state after a run, or none if some step was not enabled. */
  function Run(s: State, events: seq<Event>): Option<State> {
    if events == [] then Some(s) else
      match Run(s, events[..|events|-1])
      case None => None
      case Some(t) =>
        if Enabled(t, events[|events|-1]) then Some(Apply(t, events[|events|-1])) else None
  }

  // ----- the invariant

  /** A payload filed under `key` holds only rows that were still alive when the version stood at
      `key.version` or later. */
  ghost predicate Sound(s: State, key: Key, payload: set<RowId>) {
    && key.version <= s.version
    && payload <= s.used
    && forall r :: r in payload && r in s.gone ==> s.gone[r] >= key.version
  }

  ghost predicate ProcInv(s: State, p: Proc) {
    match p
    case Plucked(rows) => rows <= s.used
    case Deleted(rows) => rows <= s.gone.Keys
    case Loaded(key) => key.version <= s.version
    case Read(key, payload) => Sound(s, key, payload)
  }

  ghost predicate RowInv(s: State) {
    && s.live + s.gone.Keys == s.used && s.live !! s.gone.Keys
    && (forall r :: r in s.gone ==> s.gone[r] <= s.version)
    && (forall r :: r in s.bumped ==> r in s.gone && s.gone[r] < s.bumped[r] <= s.version)
  }

  ghost predicate Inv(s: State) {
    && RowInv(s)
    && (forall pid :: pid in s.procs ==> ProcInv(s, s.procs[pid]))
    && (forall key :: key in s.cache ==> Sound(s, key, s.cache[key]))
    && (forall r :: r in s.served ==> Sound(s, r.key, r.payload))
  }

  /** What a step may do to the history: versions only grow, dead rows stay dead. */
  ghost predicate Later(s: State, t: State) {
    && s.version <= t.version && s.used <= t.used
    && (forall r :: r in s.gone ==> r in t.gone && t.gone[r] == s.gone[r])
    && (forall r :: r in t.gone && r !in s.gone ==> t.gone[r] >= s.version)
    && (forall r :: r in s.bumped ==> r in t.bumped && t.bumped[r] == s.bumped[r])
  }

  lemma {:induction false} SoundStays(s: State, t: State, key: Key, payload: set<RowId>)
    requires Later(s, t) && Sound(s, key, payload)
    ensures Sound(t, key, payload)
  {
  }

  lemma {:induction false} ProcStays(s: State, t: State, p: Proc)
    requires Later(s, t) && ProcInv(s, p)
    ensures ProcInv(t, p)
  {
  }

  lemma {:induction false} StepRows(s: State, e: Event)
    requires Inv(s) && Enabled(s, e)
    ensures Later(s, Apply(s, e)) && RowInv(Apply(s, e))
  {
    match e
    case Delete(pid) => assert ProcInv(s, s.procs[pid]);
    case Bump(pid) => assert ProcInv(s, s.procs[pid]);
    case _ =>
  }

  lemma {:induction false} StepKeepsInv(s: State, e: Event)
    requires Inv(s) && Enabled(s, e)
    ensures Inv(Apply(s, e))
  {
    var t := Apply(s, e);
    StepRows(s, e);
    forall pid | pid in t.procs ensures ProcInv(t, t.procs[pid]) {
      if pid in s.procs && s.procs[pid] == t.procs[pid] {
        ProcStays(s, t, s.procs[pid]);
      } else if pid in s.procs {
        assert ProcInv(s, s.procs[pid]);
      }
    }
    forall key | key in t.cache ensures Sound(t, key, t.cache[key]) {
      if key in s.cache && s.cache[key] == t.cache[key] {
        SoundStays(s, t, key, s.cache[key]);
      } else {
        assert ProcInv(s, s.procs[e.pid]);
        SoundStays(s, t, key, t.cache[key]);
      }
    }
    forall r | r in t.served ensures Sound(t, r.key, r.payload) {
      if r in s.served {
        SoundStays(s, t, r.key, r.payload);
      } else {
        assert ProcInv(s, s.procs[e.pid]);
        SoundStays(s, t, r.key, r.payload);
      }
    }
  }

  lemma {:induction false} RunKeepsInv(s: State, events: seq<Event>)
    requires Inv(s) && Run(s, events).Some?
    ensures Inv(Run(s, events).value) && Later(s, Run(s, events).value)
  {
    if events != [] {
      RunKeepsInv(s, events[..|events|-1]);
      var t := Run(s, events[..|events|-1]).value;
      StepKeepsInv(t, events[|events|-1]);
      StepRows(t, events[|events|-1]);
    }
  }

  /** Every row ever inserted is live or recorded as gone, never both. */
  lemma {:induction false} RowsAccounted(events: seq<Event>, row: RowId)
    requires Run(INIT, events).Some?
    ensures var s := Run(INIT, events).value;
            (row in s.live <==> row in Inserted(events) && row !in s.gone) && (row in s.gone ==> row in Inserted(events))
  {
    RunKeepsInv(INIT, events);
    UsedIsInserted(events);
  }

  /** The rows inserted over a run. */
  function Inserted(events: seq<Event>): set<RowId> {
    if events == [] then {} else
      Inserted(events[..|events|-1]) + match events[|events|-1] case Insert(rows) => rows case _ => {}
  }

  lemma {:induction false} UsedIsInserted(events: seq<Event>)
    requires Run(INIT, events).Some?
    ensures Run(INIT, events).value.used == Inserted(events)
  {
    if events != [] {
      UsedIsInserted(events[..|events|-1]);
    }
  }

  function IsBump(): Event -> bool {
    (e: Event) => e.Bump?
  }

  lemma {:induction false} OnlyBumpsMoveVersion(s: State, e: Event)
    requires Enabled(s, e)
    ensures Apply(s, e).version == s.version + if e.Bump? then 1 else 0
  {
  }

  /** The version counts the bumps: nothing else moves it. */
  lemma {:induction false} VersionCountsBumps(events: seq<Event>)
    requires Run(INIT, events).Some?
    ensures Run(INIT, events).value.version == Count(events, IsBump())
  {
    if events != [] {
      var init, e := events[..|events|-1], events[|events|-1];
      VersionCountsBumps(init);
      OnlyBumpsMoveVersion(Run(INIT, init).value, e);
      FilterSnoc(init, e, IsBump());
      assert events == init + [e];
    }
  }

  /** What one step puts into the store and takes out of it: a remover takes the rows it plucked, a
      stale removal everything outside its snapshot, and what goes is recorded as gone. */
  lemma {:induction false} StepRemoves(s: State, e: Event)
    requires Inv(s) && Enabled(s, e)
    ensures var t := Apply(s, e);
      && s.live - t.live == (match e case Delete(pid) => s.procs[pid].rows * s.live case DeleteStale(_, keep) => s.live - keep case _ => {})
      && t.live - s.live == (match e case Insert(rows) => rows case _ => {})
      && t.gone.Keys - s.gone.Keys == s.live - t.live
      && t.bumped.Keys == s.bumped.Keys + (match e case Bump(pid) => s.procs[pid].rows case _ => {})
  {
    match e
    case Insert(rows) =>
      assert rows !! s.live;
    case Delete(pid) =>
      assert ProcInv(s, s.procs[pid]);
    case _ =>
  }

  /** Where one step leaves the process that takes it, if it is still there; no other process moves. */
  function Moved(s: State, e: Event): Option<Proc>
    requires Enabled(s, e)
  {
    match e
    case Pluck(_, wanted) => if wanted * s.live == {} then None else Some(Plucked(wanted * s.live))
    case Delete(pid) => Some(Deleted(s.procs[pid].rows))
    case DeleteStale(_, keep) => if s.live - keep == {} then None else Some(Deleted(s.live - keep))
    case Load(_, context) => Some(Loaded(Key(context, s.version)))
    case ReadListings(pid, payload) => Some(Read(s.procs[pid].key, payload))
    case _ => None
  }

  lemma {:induction false} StepMoves(s: State, e: Event)
    requires Enabled(s, e) && !e.Insert? && !e.Expire?
    ensures Apply(s, e).procs == match Moved(s, e) case None => s.procs - {e.pid} case Some(p) => s.procs[e.pid := p]
  {
    assert e.Pluck? || e.DeleteStale? ==> s.procs - {e.pid} == s.procs;
  }

  /** What one step files and hands out: a hit the entry found, a write the listings its curator read,
      under the key it loaded; only an expiry takes an entry away. */
  lemma {:induction false} StepServes(s: State, e: Event)
    requires Enabled(s, e)
    ensures var t := Apply(s, e);
      && t.cache == (match e case Write(pid) => s.cache[s.procs[pid].key := s.procs[pid].payload]
                             case Expire(key) => s.cache - {key}
                             case _ => s.cache)
      && t.served == s.served + (match e case Write(pid) => {Response(s.procs[pid].key, s.procs[pid].payload)}
                                         case Hit(pid) => {Response(s.procs[pid].key, s.cache[s.procs[pid].key])}
                                         case _ => {})
  {
  }

  /** A removal that runs to its end: from any reachable state the wanted rows are no longer live, all
      others still are, and if any was, the version is one higher and protects every one of them. */
  lemma {:induction false} RemovalCompletes(before: seq<Event>, pid: Pid, wanted: set<RowId>)
    requires Run(INIT, before).Some? && pid !in Run(INIT, before).value.procs
    requires wanted * Run(INIT, before).value.live != {}
    ensures var s := Run(INIT, before).value; var run := before + [Pluck(pid, wanted)] + [Delete(pid)] + [Bump(pid)];
      Run(INIT, run).Some?
      && var t := Run(INIT, run).value;
         t.live == s.live - wanted && t.version == s.version + 1 && wanted * s.live <= t.bumped.Keys
  {
    RunKeepsInv(INIT, before);
    var s := Run(INIT, before).value;
    RunStep(before, s, Pluck(pid, wanted));
    var s1 := Apply(s, Pluck(pid, wanted));
    RunStep(before + [Pluck(pid, wanted)], s1, Delete(pid));
    var s2 := Apply(s1, Delete(pid));
    RunStep(before + [Pluck(pid, wanted)] + [Delete(pid)], s2, Bump(pid));
    assert s2.procs[pid].rows == wanted * s.live;
  }

  /** A stale removal likewise, keeping what the snapshot holds. */
  lemma {:induction false} StaleRemovalCompletes(before: seq<Event>, pid: Pid, keep: set<RowId>)
    requires Run(INIT, before).Some? && pid !in Run(INIT, before).value.procs
    requires Run(INIT, before).value.live - keep != {}
    ensures var s := Run(INIT, before).value; var run := before + [DeleteStale(pid, keep)] + [Bump(pid)];
      Run(INIT, run).Some?
      && var t := Run(INIT, run).value;
         t.live == s.live * keep && t.version == s.version + 1 && s.live - keep <= t.bumped.Keys
  {
    RunKeepsInv(INIT, before);
    var s := Run(INIT, before).value;
    RunStep(before, s, DeleteStale(pid, keep));
    var s1 := Apply(s, DeleteStale(pid, keep));
    RunStep(before + [DeleteStale(pid, keep)], s1, Bump(pid));
    assert s1.procs[pid].rows == s.live - keep;
  }

  // ----- safety

  /** Over every interleaving: a removed row is in no entry stored under a version above the one at
      its deletion, and on no page served to a request that loaded such a version.  Any bump after
      the deletion protects; the version its own remover's bump produced is one of them. */
  lemma {:induction false} CacheSafety(events: seq<Event>)
    requires Run(INIT, events).Some?
    ensures var s := Run(INIT, events).value;
            && (forall key, r :: key in s.cache && r in s.gone && s.gone[r] < key.version ==> r !in s.cache[key])
            && (forall page, r :: page in s.served && r in s.gone && s.gone[r] < page.key.version ==> r !in page.payload)
            && (forall r :: r in s.bumped ==> r in s.gone && s.gone[r] < s.bumped[r] <= s.version)
  {
    RunKeepsInv(INIT, events);
    var s := Run(INIT, events).value;
    forall key, r | key in s.cache && r in s.gone && s.gone[r] < key.version ensures r !in s.cache[key] {
      assert Sound(s, key, s.cache[key]);
    }
    forall page, r | page in s.served && r in s.gone && s.gone[r] < page.key.version ensures r !in page.payload {
      assert Sound(s, page.key, page.payload);
    }
  }

  /** A request that loads the store row after a removal's bump is never served the removed row,
      whatever else runs before and after it. */
  lemma {:induction false} NeverServedAfterBump(before: seq<Event>, pid: Pid, context: Context, after: seq<Event>, row: RowId)
    requires Run(INIT, before).Some? && row in Run(INIT, before).value.bumped
    requires Enabled(Run(INIT, before).value, Load(pid, context))
    requires Run(Apply(Run(INIT, before).value, Load(pid, context)), after).Some?
    ensures var s := Run(INIT, before).value;
            var key := Apply(s, Load(pid, context)).procs[pid].key;
            var t := Run(Apply(s, Load(pid, context)), after).value;
            forall page :: page in t.served && page.key == key ==> row !in page.payload
  {
    RunKeepsInv(INIT, before);
    var s := Run(INIT, before).value;
    var s1 := Apply(s, Load(pid, context));
    StepKeepsInv(s, Load(pid, context));
    RunKeepsInv(s1, after);
    var t := Run(s1, after).value;
    forall page | page in t.served && page.key == s1.procs[pid].key ensures row !in page.payload {
      assert Sound(t, page.key, page.payload);
      assert t.bumped[row] == s.bumped[row];
    }
  }

  // ----- rows deleted and not yet bumped for

  ghost predicate Serves(s: State, key: Key, row: RowId) {
    exists page :: page in s.served && page.key == key && row in page.payload
  }

  /** A curator has read the row and is about to file it under the key. */
  ghost predicate Pending(s: State, key: Key, row: RowId) {
    exists pid :: pid in s.procs && s.procs[pid].Read? && s.procs[pid].key == key && row in s.procs[pid].payload
  }

  predicate Filed(s: State, key: Key, row: RowId) {
    key in s.cache && row in s.cache[key]
  }

  /** Some way on from here the row is on a page served under the key. */
  ghost predicate CanServe(s: State, key: Key, row: RowId) {
    exists events :: Run(s, events).Some? && Serves(Run(s, events).value, key, row)
  }

  /** Nothing brings a deleted row back under a key that holds it nowhere. */
  ghost predicate Forgotten(s: State, key: Key, row: RowId) {
    row in s.gone && !Filed(s, key, row) && !Pending(s, key, row) && !Serves(s, key, row)
  }

  lemma {:induction false} StepForgets(s: State, e: Event, key: Key, row: RowId)
    requires Inv(s) && Enabled(s, e) && Forgotten(s, key, row)
    ensures Forgotten(Apply(s, e), key, row)
  {
  }

  lemma {:induction false} RunForgets(s: State, events: seq<Event>, key: Key, row: RowId)
    requires Inv(s) && Run(s, events).Some? && Forgotten(s, key, row)
    ensures Forgotten(Run(s, events).value, key, row)
  {
    if events != [] {
      var init := events[..|events|-1];
      RunForgets(s, init, key, row);
      RunKeepsInv(s, init);
      StepForgets(Run(s, init).value, events[|events|-1], key, row);
    }
  }

  lemma {:induction false} OneStepRun(s: State, e: Event)
    requires Enabled(s, e)
    ensures Run(s, []) == Some(s) && Run(s, [e]) == Some(Apply(s, e))
  {
    assert [e][..0] == [];
  }

  /** Exactly when a deleted row can be on a page of the version a request loads now: the row is in
      the cache under that version, or a curator is about to file it there, or such a page has been
      served already. */
  lemma {:induction false} DeadRowServableIff(before: seq<Event>, pid: Pid, context: Context, row: RowId)
    requires Run(INIT, before).Some? && Enabled(Run(INIT, before).value, Load(pid, context))
    requires row in Run(INIT, before).value.gone
    ensures var s := Run(INIT, before).value; var key := Key(context, s.version);
            CanServe(Apply(s, Load(pid, context)), key, row)
            <==> Filed(s, key, row) || Pending(s, key, row) || Serves(s, key, row)
  {
    RunKeepsInv(INIT, before);
    var s := Run(INIT, before).value;
    var key, t := Key(context, s.version), Apply(s, Load(pid, context));
    StepKeepsInv(s, Load(pid, context));
    if Filed(s, key, row) {
      OneStepRun(t, Hit(pid));
      assert Response(key, s.cache[key]) in Apply(t, Hit(pid)).served;
    } else if Pending(s, key, row) {
      var writer :| writer in s.procs && s.procs[writer].Read? && s.procs[writer].key == key && row in s.procs[writer].payload;
      OneStepRun(t, Write(writer));
      assert Response(key, s.procs[writer].payload) in Apply(t, Write(writer)).served;
    } else if Serves(s, key, row) {
      assert Run(t, []) == Some(t);
    } else {
      StepForgets(s, Load(pid, context), key, row);
      forall events | Run(t, events).Some? ensures !Serves(Run(t, events).value, key, row) {
        RunForgets(t, events, key, row);
      }
    }
  }

  /** An entry may expire at any time; then a deleted row it held can no longer be served under its
      version, unless a curator is about to file it again or such a page was served before. */
  lemma {:induction false} ExpiryForgets(before: seq<Event>, pid: Pid, context: Context, row: RowId)
    requires Run(INIT, before).Some? && pid !in Run(INIT, before).value.procs && row in Run(INIT, before).value.gone
    ensures var s := Run(INIT, before).value; var key := Key(context, s.version); var run := before + [Expire(key)];
      Run(INIT, run).Some?
      && var t := Run(INIT, run).value;
         CanServe(Apply(t, Load(pid, context)), key, row) <==> Pending(s, key, row) || Serves(s, key, row)
  {
    var s := Run(INIT, before).value;
    var key := Key(context, s.version);
    RunStep(before, s, Expire(key));
    DeadRowServableIff(before + [Expire(key)], pid, context, row);
  }

  /** The bump is what protects: when a remover dies between its delete and its bump, a deleted row
      of a cached page can still be served at the current version, and the same removal tried again
      finds no row and changes nothing. */
  lemma {:induction false} CrashBeforeBump(before: seq<Event>, pid: Pid, context: Context, row: RowId)
    requires Run(INIT, before).Some?
    requires var s := Run(INIT, before).value;
             pid in s.procs && s.procs[pid].Deleted? && row in s.procs[pid].rows && Filed(s, Key(context, s.version), row)
    ensures var s := Run(INIT, before).value; var t := Apply(s, Crash(pid));
            && Apply(t, Pluck(pid, s.procs[pid].rows)) == t
            && CanServe(Apply(t, Load(pid, context)), Key(context, t.version), row)
  {
    RunKeepsInv(INIT, before);
    var s := Run(INIT, before).value;
    var t := Apply(s, Crash(pid));
    var key := Key(context, s.version);
    assert ProcInv(s, s.procs[pid]);
    assert s.procs[pid].rows * t.live == {};
    var t1 := Apply(t, Load(pid, context));
    OneStepRun(t1, Hit(pid));
    assert Response(key, s.cache[key]) in Apply(t1, Hit(pid)).served;
  }

  lemma {:induction false} RunStep(events: seq<Event>, s: State, e: Event)
    requires Run(INIT, events) == Some(s) && Enabled(s, e)
    ensures Run(INIT, events + [e]) == Some(Apply(s, e))
  {
    assert (events + [e])[..|events|] == events;
  }

  /** Row 1 live, and on the page cached under version 0. */
  function Cached(context: Context): State {
    var key := Key(context, 0);
    State(0, {1}, map[key := {1}], map[], {Response(key, {1})}, {1}, map[], map[])
  }

  function CachingRun(context: Context): seq<Event> {
    [Insert({1})] + [Load(1, context)] + [ReadListings(1, {1})] + [Write(1)]
  }

  lemma {:induction false} CachingRunCaches(context: Context)
    ensures Run(INIT, CachingRun(context)) == Some(Cached(context))
  {
    RunStep([], INIT, Insert({1}));
    var s1 := Apply(INIT, Insert({1}));
    assert [] + [Insert({1})] == [Insert({1})];
    RunStep([Insert({1})], s1, Load(1, context));
    var s2 := Apply(s1, Load(1, context));
    RunStep([Insert({1})] + [Load(1, context)], s2, ReadListings(1, {1}));
    var s3 := Apply(s2, ReadListings(1, {1}));
    RunStep([Insert({1})] + [Load(1, context)] + [ReadListings(1, {1})], s3, Write(1));
    assert Apply(s3, Write(1)) == Cached(context);
  }

  /** Such a crash is reachable: after it the row is served at the current version, and the retry
      finds nothing to bump for. */
  lemma {:induction false} CrashBeforeBumpServesDeadRow(context: Context)
    ensures var run := CachingRun(context) + [Pluck(2, {1})] + [Delete(2)] + [Crash(2)];
            Run(INIT, run).Some? && ServesDeadRow(Run(INIT, run).value, context)
  {
    var e4, s4 := CachingRun(context), Cached(context);
    CachingRunCaches(context);
    RunStep(e4, s4, Pluck(2, {1}));
    var s5 := Apply(s4, Pluck(2, {1}));
    assert {1} * s4.live == {1};
    assert s5.procs[2] == Plucked({1});
    RunStep(e4 + [Pluck(2, {1})], s5, Delete(2));
    var s6 := Apply(s5, Delete(2));
    RunStep(e4 + [Pluck(2, {1})] + [Delete(2)], s6, Crash(2));
    var s7 := Apply(s6, Crash(2));
    assert s7.live == {} && s7.procs == map[] && s7.cache == s4.cache;
  }

  /** A dead row that the current version still serves, and that no retry can get bumped. */
  ghost predicate ServesDeadRow(s: State, context: Context) {
    && 1 in s.gone && 1 !in s.live && 1 !in s.bumped && s.procs == map[]
    && Enabled(s, Pluck(2, {1})) && Apply(s, Pluck(2, {1})) == s
    && var s' := Apply(s, Load(3, context));
       Enabled(s', Hit(3)) && Response(Key(context, s.version), {1}) in Apply(s', Hit(3)).served
  }
}

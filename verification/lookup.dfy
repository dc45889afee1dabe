/** The seller-lookup hook (app/frontend/hooks/use_discogs_lookup.ts) as a protocol: lookups and
    resets by the user interleave with fetches settling and timers firing.
 */
module Lookup {
  import opened Sequences

  type Username = nat

  datatype StoreStatus = ActiveStore | ActiveApplicant | NotListed

  /** A reply, and the username it is about. */
  datatype Reply = Reply(found: bool, status: StoreStatus, about: Username)

  datatype View =
    | Idle
    | Loading
    | Preview(result: Reply)
    | ErrorNotFound
    | ErrorActiveStore(result: Reply)
    | ErrorApplicant(result: Reply)
    | ErrorApi

  datatype Announcement = Checking | Found | NotFound | AlreadyHere | AlreadyApplied | Wrong

  /** Controllers, their fetches and their timers are numbered by lookup. */
  datatype State = State(
    requests: seq<Username>,
    current: Option<nat>,     // abortRef
    timer: Option<nat>,       // timeoutRef
    aborted: set<nat>,
    armed: set<nat>,          // timers the browser will still fire
    pending: set<nat>,        // fetches not yet settled
    view: View,
    announced: seq<Announcement>)

  const INIT := State([], None, None, {}, {}, {}, Idle, [])

  datatype Settlement = Success(reply: Reply) | Failure(isAbort: bool)

  datatype Event =
    | LookUp(username: Username)
    | Reset
    | Settle(request: nat, how: Settlement)
    | TimerFires(request: nat)

  predicate Enabled(s: State, e: Event) {
    match e
    case LookUp(_) => true
    case Reset => true
    case Settle(c, how) =>
      c in s.pending && c < |s.requests| && (how.Success? ==> how.reply.about == s.requests[c])
    case TimerFires(c) => c in s.armed
  }

  /** `cancelLookup`. */
  function Cancel(s: State): State {
    s.(aborted := if s.current.Some? then s.aborted + {s.current.value} else s.aborted,
       armed := if s.timer.Some? then s.armed - {s.timer.value} else s.armed)
  }

  /** `resolveLookupState`. */
  function Resolve(reply: Reply): (View, Announcement) {
    if !reply.found then (ErrorNotFound, NotFound)
    else match reply.status
      case ActiveStore => (ErrorActiveStore(reply), AlreadyHere)
      case ActiveApplicant => (ErrorApplicant(reply), AlreadyApplied)
      case NotListed => (Preview(reply), Found)
  }

  /** The guard every handler starts with. */
  predicate IsLive(s: State, c: nat) {
    s.current == Some(c) && c !in s.aborted
  }

  function ShowError(s: State): State {
    s.(view := ErrorApi, announced := s.announced + [Wrong])
  }

  function HandleSuccess(s: State, c: nat, reply: Reply): State {
    if !IsLive(s, c) then s
    else
      var t := if s.timer.Some? then s.(armed := s.armed - {s.timer.value}, timer := None) else s;
      t.(aborted := t.aborted + {c}, view := Resolve(reply).0, announced := t.announced + [Resolve(reply).1])
  }

  function HandleError(s: State, c: nat, isAbort: bool): State {
    if !IsLive(s, c) || isAbort then s else ShowError(s)
  }

  function HandleTimeout(s: State, c: nat): State {
    if !IsLive(s, c) then s else ShowError(s.(aborted := s.aborted + {c}))
  }

  function PerformLookup(s: State, username: Username): State {
    var t := Cancel(s);
    var c := |s.requests|;
    t.(requests := s.requests + [username], current := Some(c), view := Loading, announced := s.announced + [Checking],
       timer := Some(c), armed := t.armed + {c}, pending := s.pending + {c})
  }

  function Apply(s: State, e: Event): State
    requires Enabled(s, e)
  {
    match e
    case LookUp(username) => PerformLookup(s, username)
    case Reset => Cancel(s).(view := Idle)
    case Settle(c, how) =>
      var t := s.(pending := s.pending - {c});
      (match how
       case Success(reply) => HandleSuccess(t, c, reply)
       case Failure(isAbort) => HandleError(t, c, isAbort))
    case TimerFires(c) => HandleTimeout(s.(armed := s.armed - {c}), c)
  }

  function Run(s: State, events: seq<Event>): Option<State> {
    if events == [] then Some(s) else
      match Run(s, events[..|events|-1])
      case None => None
      case Some(t) =>
        if Enabled(t, events[|events|-1]) then Some(Apply(t, events[|events|-1])) else None
  }

  // ----- the invariant

  predicate ShowsResult(v: View) {
    v.Preview? || v.ErrorActiveStore? || v.ErrorApplicant?
  }

  ghost predicate Inv(s: State) {
    && (s.current == if s.requests == [] then None else Some(|s.requests| - 1))
    && (forall c :: 0 <= c < |s.requests| - 1 ==> c in s.aborted)
    && (forall c :: c in s.aborted || c in s.pending ==> c < |s.requests|)
    && (forall c :: c in s.armed ==> s.timer == Some(c) && IsLive(s, c))
    && (s.timer.Some? ==> s.timer == s.current)
    && (s.view == Loading ==> s.current.Some? && IsLive(s, s.current.value) && s.current.value in s.armed)
    && (forall c :: c in s.pending && IsLive(s, c) ==> s.view == Loading)
    && (s.armed != {} ==> s.view == Loading || s.view == ErrorApi)
    && (ShowsResult(s.view) ==> s.requests != [] && s.view.result.about == s.requests[|s.requests|-1])
  }

  lemma {:induction false} StepKeepsInv(s: State, e: Event)
    requires Inv(s) && Enabled(s, e)
    ensures Inv(Apply(s, e))
  {
    match e
    case LookUp(_) =>
    case Reset =>
    case Settle(c, how) =>
    case TimerFires(c) =>
  }

  lemma {:induction false} RunKeepsInv(events: seq<Event>)
    requires Run(INIT, events).Some?
    ensures Inv(Run(INIT, events).value)
  {
    if events != [] {
      RunKeepsInv(events[..|events|-1]);
      StepKeepsInv(Run(INIT, events[..|events|-1]).value, events[|events|-1]);
    }
  }

  // ----- what the user sees and hears

  /** What a reply shows and says. */
  ghost predicate Answers(reply: Reply, view: View, said: Announcement) {
    if !reply.found then view == ErrorNotFound && said == NotFound
    else if reply.status == ActiveStore then view == ErrorActiveStore(reply) && said == AlreadyHere
    else if reply.status == ActiveApplicant then view == ErrorApplicant(reply) && said == AlreadyApplied
    else view == Preview(reply) && said == Found
  }

  /** Each step in terms of the screen and the announcements: a lookup shows and says that it is
      checking; a live success shows what the reply says and disarms the timer; a live failure or
      timeout shows and says the error, an abort and anything not live nothing; a reset is silent. */
  lemma {:induction false} StepShows(s: State, e: Event)
    requires Inv(s) && Enabled(s, e)
    ensures var t := Apply(s, e);
      && (e.LookUp? ==> t.view == Loading && t.announced == s.announced + [Checking])
      && (e.Reset? ==> t.view == Idle && t.announced == s.announced)
      && (e.Settle? && IsLive(s, e.request) && e.how.Success? ==>
            |t.announced| == |s.announced| + 1 && t.announced[..|s.announced|] == s.announced
            && Answers(e.how.reply, t.view, t.announced[|s.announced|]) && t.armed == {})
      && ((e.Settle? && IsLive(s, e.request) && e.how == Failure(false)) || e.TimerFires? ==>
            t.view == ErrorApi && t.announced == s.announced + [Wrong])
      && (e.Settle? && (!IsLive(s, e.request) || e.how == Failure(true)) ==> t.view == s.view && t.announced == s.announced)
  {
    match e
    case LookUp(_) =>
    case Reset =>
    case Settle(_, _) =>
    case TimerFires(_) =>
  }

  /** What a lookup and a reset cancel: the request before loses its controller and its timer, and only
      a lookup starts a new one. */
  lemma {:induction false} StepCancels(s: State, e: Event)
    requires Inv(s) && (e.LookUp? || e.Reset?)
    ensures var t := Apply(s, e);
      && (s.current.Some? ==> s.current.value in t.aborted)
      && (e.Reset? ==> t.armed == {} && t.requests == s.requests && t.pending == s.pending)
      && (e.LookUp? ==> t.armed == {|s.requests|} && t.pending == s.pending + {|s.requests|}
                        && t.requests == s.requests + [e.username] && IsLive(t, |s.requests|))
  {
    if s.timer.Some? {
      assert s.armed - {s.timer.value} == {};
    }
  }

  // ----- the latest lookup wins

  /** In every interleaving: a shown result is about the last username looked up; a loading view has
      a live controller, and its armed timer can always end the loading with an error. */
  lemma {:induction false} LatestLookupWins(events: seq<Event>)
    requires Run(INIT, events).Some?
    ensures var s := Run(INIT, events).value;
      && (ShowsResult(s.view) ==> s.requests != [] && s.view.result.about == s.requests[|s.requests|-1])
      && (s.view == Loading ==>
            s.current == Some(|s.requests| - 1) && IsLive(s, |s.requests| - 1)
            && Enabled(s, TimerFires(|s.requests| - 1))
            && Apply(s, TimerFires(|s.requests| - 1)).view == ErrorApi)
  {
    RunKeepsInv(events);
  }

  /** A fetch settling or a timer firing changes what the user sees or hears only for the request
      made last and not cancelled since. */
  lemma {:induction false} OnlyLiveRequestMatters(events: seq<Event>, e: Event)
    requires Run(INIT, events).Some? && (e.Settle? || e.TimerFires?) && Enabled(Run(INIT, events).value, e)
    ensures var s := Run(INIT, events).value; var t := Apply(s, e);
      t.view != s.view || t.announced != s.announced
      ==> e.request == |s.requests| - 1 && e.request !in s.aborted
          && (s.view == Loading || (s.view == ErrorApi && e.TimerFires?))
  {
    RunKeepsInv(events);
  }

  lemma {:induction false} CancelledStays(s: State, later: seq<Event>)
    requires Inv(s) && s.view == Idle && (s.current.Some? ==> s.current.value in s.aborted)
    requires Run(s, later).Some? && forall i :: 0 <= i < |later| ==> !later[i].LookUp?
    ensures var t := Run(s, later).value;
      Inv(t) && t.view == Idle && t.announced == s.announced && t.current == s.current
      && (t.current.Some? ==> t.current.value in t.aborted)
  {
    if later != [] {
      var n := |later| - 1;
      assert forall i :: 0 <= i < n ==> later[..n][i] == later[i];
      CancelledStays(s, later[..n]);
      StepKeepsInv(Run(s, later[..n]).value, later[n]);
    }
  }

  lemma {:induction false} RunSplits(s: State, first: seq<Event>, second: seq<Event>)
    ensures Run(s, first + second)
         == match Run(s, first) case None => None case Some(t) => Run(t, second)
    decreases |second|
  {
    var events := first + second;
    if second == [] {
      assert events == first;
    } else {
      assert events[..|events|-1] == first + second[..|second|-1];
      RunSplits(s, first, second[..|second|-1]);
    }
  }

  /** A reset stays: whatever was in flight before it, nothing but a new lookup changes the view or
      announces anything after it. */
  lemma {:induction false} ResetStays(before: seq<Event>, later: seq<Event>)
    requires Run(INIT, before + [Reset] + later).Some? && forall i :: 0 <= i < |later| ==> !later[i].LookUp?
    ensures Run(INIT, before).Some?
    ensures var s := Run(INIT, before).value; var t := Run(INIT, before + [Reset] + later).value;
            t.view == Idle && t.announced == s.announced && t.current == s.current
            && (t.current.Some? ==> t.current.value in t.aborted)
  {
    RunSplits(INIT, before + [Reset], later);
    RunSplits(INIT, before, [Reset]);
    var s := Run(INIT, before).value;
    assert [Reset][..0] == [] && Run(s, [Reset]) == Some(Apply(s, Reset));
    RunKeepsInv(before + [Reset]);
    CancelledStays(Apply(s, Reset), later);
  }

  /** A failed fetch leaves its timer armed, and the timer's firing announces the error a second time. */
  lemma {:induction false} FailureAnnouncedTwice(s: State, c: nat)
    requires Inv(s) && s.view == Loading && c in s.pending && s.current == Some(c)
    ensures Enabled(s, Settle(c, Failure(false)))
    ensures var t := Apply(s, Settle(c, Failure(false)));
      && t.view == ErrorApi && Enabled(t, TimerFires(c))
      && Apply(t, TimerFires(c)).announced == s.announced + [Wrong, Wrong]
  {
    var t := Apply(s, Settle(c, Failure(false)));
    assert t.announced + [Wrong] == s.announced + [Wrong, Wrong];
  }

  /** Without a new lookup, once the last request's fetch has settled only its timer can speak. */
  lemma {:induction false} OnlyTimerSpeaksStep(s: State, c: nat, e: Event)
    requires Inv(s) && s.current == Some(c) && c !in s.pending && Enabled(s, e) && !e.LookUp?
    ensures var t := Apply(s, e);
      && t.current == Some(c) && c !in t.pending && s.aborted <= t.aborted
      && t.announced == s.announced + (if e == TimerFires(c) then [Wrong] else [])
      && (e == TimerFires(c) ==> c !in s.aborted && c in t.aborted)
  {
    match e
    case Reset =>
    case Settle(_, _) =>
    case TimerFires(_) =>
  }

  lemma {:induction false} OnlyTimerSpeaks(s: State, c: nat, later: seq<Event>)
    requires Inv(s) && s.current == Some(c) && c !in s.pending
    requires Run(s, later).Some? && forall i :: 0 <= i < |later| ==> !later[i].LookUp?
    ensures var t := Run(s, later).value;
      && Inv(t) && t.current == Some(c) && c !in t.pending && (TimerFires(c) in later ==> c in t.aborted)
      && t.announced == s.announced + if TimerFires(c) in later then [Wrong] else []
  {
    if later != [] {
      var n := |later| - 1;
      var init, e := later[..n], later[n];
      assert later == init + [e] && forall i :: 0 <= i < n ==> init[i] == later[i];
      OnlyTimerSpeaks(s, c, init);
      StepKeepsInv(Run(s, init).value, e);
      OnlyTimerSpeaksStep(Run(s, init).value, c, e);
    }
  }

  /** After a failed live fetch, in every run up to the next lookup, resets included: the error is
      announced once more if and only if the timer of that request fires. */
  lemma {:induction false} FailureAnnouncedAgainIff(s: State, c: nat, later: seq<Event>)
    requires Inv(s) && s.view == Loading && c in s.pending && s.current == Some(c)
    requires var t := Apply(s, Settle(c, Failure(false)));
             Run(t, later).Some? && forall i :: 0 <= i < |later| ==> !later[i].LookUp?
    ensures var t := Apply(s, Settle(c, Failure(false)));
            Run(t, later).value.announced == s.announced + if TimerFires(c) in later then [Wrong, Wrong] else [Wrong]
  {
    var t := Apply(s, Settle(c, Failure(false)));
    StepKeepsInv(s, Settle(c, Failure(false)));
    OnlyTimerSpeaks(t, c, later);
    assert s.announced + [Wrong] + [Wrong] == s.announced + [Wrong, Wrong];
  }
}

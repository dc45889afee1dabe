/** Pacing and retries of the Discogs middleware, on a real-valued clock. */
module RateLimit {
  import opened Sequences

  const SLEEP := 1.1
  const LOW := 5
  const PAUSE := 10.0
  const MAX_RETRIES := 3
  const BACKOFF_BASE := 2

  function Power(base: nat, n: nat): nat {
    if n == 0 then 1 else base * Power(base, n - 1)
  }

  /** `backoff_for`. */
  function BackoffFor(attempt: nat): int {
    Min(Power(BACKOFF_BASE, attempt), 60)
  }

  /** One request sent, and whether it ended in a transport exception. */
  datatype Attempt = Attempt(start: real, raised: bool)

  /** What the network does with one attempt; `delay` is time lost before it starts. */
  datatype Reply = Reply(delay: real, latency: real, raises: bool, limited: bool, remaining: Option<int>)

  /** What the outside world does during one call. */
  datatype Input = Input(idle: real, replies: nat -> Reply)

  ghost predicate Physical(input: Input) {
    input.idle >= 0.0 && forall i :: input.replies(i).delay >= 0.0 && input.replies(i).latency >= 0.0
  }

  /** The clock, `@last_request_time` and every request sent so far. */
  datatype Pacer = Pacer(now: real, last: Option<real>, log: seq<Attempt>)

  function SleepIfNeeded(p: Pacer): Pacer {
    if p.last.Some? && p.now - p.last.value < SLEEP then p.(now := p.now + (SLEEP - (p.now - p.last.value))) else p
  }

  function Send(p: Pacer, r: Reply): Pacer {
    p.(log := p.log + [Attempt(p.now + r.delay, r.raises)], now := p.now + r.delay + r.latency)
  }

  function Waited(p: Pacer, r: Reply, wait: int): Pacer {
    var sent := Send(p, r);
    sent.(now := sent.now + wait as real)
  }

  datatype Ending = Raised | Answered(reply: Reply)

  /** `request_with_retry` from a given attempt: the pacer after it, how it ended, seconds of backoff. */
  function RequestWithRetry(p: Pacer, attempt: nat, replies: nat -> Reply): (Pacer, Ending, int)
    decreases MAX_RETRIES + 1 - attempt
  {
    var r := replies(attempt);
    var sent := Send(p, r);
    if r.raises then (sent, Raised, 0)
    else if !r.limited || attempt > MAX_RETRIES then (sent, Answered(r), 0)
    else
      var backoff := BackoffFor(attempt);
      var later := RequestWithRetry(Waited(p, r, backoff), attempt + 1, replies);
      (later.0, later.1, backoff + later.2)
  }

  function PauseIfQuotaLow(p: Pacer, r: Reply): Pacer {
    if r.remaining.Some? && r.remaining.value <= LOW then p.(now := p.now + PAUSE) else p
  }

  /** The end of a call: the quota pause and the recording of the time. */
  function Conclude(t: Pacer, ending: Ending): Pacer {
    match ending
    case Raised => t
    case Answered(r) =>
      var u := PauseIfQuotaLow(t, r);
      u.(last := Some(u.now))
  }

  function Entered(p: Pacer, input: Input): Pacer {
    SleepIfNeeded(p.(now := p.now + input.idle))
  }

  /** What a call hands back to its caller. */
  function EndingOf(p: Pacer, input: Input): Ending {
    RequestWithRetry(Entered(p, input), 1, input.replies).1
  }

  function AfterCall(p: Pacer, input: Input): Pacer {
    var r := RequestWithRetry(Entered(p, input), 1, input.replies);
    Conclude(r.0, r.1)
  }

  /** The middleware object. */
  class Middleware {
    var pacer: Pacer

    constructor (now: real)
      ensures pacer == Pacer(now, None, [])
    {
      pacer := Pacer(now, None, []);
    }

    method Call(input: Input) returns (ending: Ending)
      modifies this
      ensures pacer == AfterCall(old(pacer), input) && ending == EndingOf(old(pacer), input)
    {
      pacer := pacer.(now := pacer.now + input.idle);
      pacer := SleepIfNeeded(pacer);
      var backoff;
      ending, backoff := Request(1, input.replies);
      if ending.Answered? {
        pacer := PauseIfQuotaLow(pacer, ending.reply);
        pacer := pacer.(last := Some(pacer.now));
      }
    }

    method Request(attempt: nat, replies: nat -> Reply) returns (ending: Ending, backoff: int)
      modifies this
      ensures (pacer, ending, backoff) == RequestWithRetry(old(pacer), attempt, replies)
      decreases MAX_RETRIES + 1 - attempt
    {
      var r := replies(attempt);
      pacer := Send(pacer, r);
      if r.raises {
        return Raised, 0;
      }
      if !r.limited || attempt > MAX_RETRIES {
        return Answered(r), 0;
      }
      pacer := pacer.(now := pacer.now + BackoffFor(attempt) as real);
      ending, backoff := Request(attempt + 1, replies);
      backoff := BackoffFor(attempt) + backoff;
    }
  }

  // ----- pacing

  /** Each request starts at least 1.1 s after the one before, unless that one raised. */
  ghost predicate Paced(log: seq<Attempt>) {
    forall j :: 1 <= j < |log| ==> PacedAt(log, j)
  }

  ghost predicate PacedAt(log: seq<Attempt>, j: nat)
    requires 1 <= j < |log|
  {
    log[j-1].raised || log[j].start - log[j-1].start >= SLEEP
  }

  /** The clock is past everything recorded, and an unraised last request is covered by `last`. */
  ghost predicate Inv(p: Pacer) {
    && Paced(p.log)
    && (p.log != [] ==> p.log[|p.log|-1].start <= p.now)
    && (p.last.Some? ==> p.last.value <= p.now)
    && (p.log != [] && !p.log[|p.log|-1].raised ==> p.last.Some? && p.log[|p.log|-1].start <= p.last.value)
  }

  /** The next request may start: enough time has passed since the last unraised one. */
  ghost predicate Ready(p: Pacer) {
    && Paced(p.log)
    && (p.log != [] ==> p.log[|p.log|-1].start <= p.now)
    && (p.log != [] && !p.log[|p.log|-1].raised ==> p.now - p.log[|p.log|-1].start >= SLEEP)
    && (p.last.Some? ==> p.last.value <= p.now)
  }

  lemma {:induction false} SendPaced(p: Pacer, r: Reply)
    requires Ready(p) && r.delay >= 0.0 && r.latency >= 0.0
    ensures var t := Send(p, r);
      && Paced(t.log) && |t.log| == |p.log| + 1
      && t.log[|p.log|].start <= t.now && t.log[|p.log|].raised == r.raises
      && t.now >= p.now && t.last == p.last
  {
    var t := Send(p, r);
    forall j | 1 <= j < |t.log| ensures PacedAt(t.log, j) {
      assert j < |p.log| ==> PacedAt(p.log, j);
    }
  }

  lemma {:induction false} Backoffs()
    ensures BackoffFor(1) == 2 && BackoffFor(2) == 4 && BackoffFor(3) == 8
  {
    assert Power(2, 1) == 2 && Power(2, 2) == 4 && Power(2, 3) == 8;
  }

  /** Seconds of backoff still possible from a given attempt. */
  function BackoffLeft(attempt: nat): int {
    if attempt == 1 then 14 else if attempt == 2 then 12 else if attempt == 3 then 8 else 0
  }

  lemma {:induction false} WaitReady(p: Pacer, r: Reply, wait: int)
    requires Ready(p) && r.delay >= 0.0 && r.latency >= 0.0 && !r.raises && wait >= 2
    ensures Ready(Waited(p, r, wait)) && |Waited(p, r, wait).log| == |p.log| + 1
    ensures Waited(p, r, wait).now >= p.now && Waited(p, r, wait).last == p.last
  {
    SendPaced(p, r);
  }

  ghost predicate Requested(p: Pacer, attempt: nat, t: Pacer, ending: Ending, backoff: int) {
    && Paced(t.log) && |p.log| < |t.log| <= |p.log| + MAX_RETRIES + 2 - attempt
    && t.log[|t.log|-1].start <= t.now && t.log[|t.log|-1].raised == ending.Raised?
    && t.last == p.last && t.now >= p.now
    && 0 <= backoff <= BackoffLeft(attempt)
  }

  /** A call makes at most four attempts with at most 14 s of backoff, and keeps the pacing. */
  lemma {:induction false} RequestPaced(p: Pacer, attempt: nat, replies: nat -> Reply)
    requires Ready(p) && 1 <= attempt <= MAX_RETRIES + 1
    requires forall i :: replies(i).delay >= 0.0 && replies(i).latency >= 0.0
    ensures var r := RequestWithRetry(p, attempt, replies);
            Requested(p, attempt, r.0, r.1, r.2)
    decreases MAX_RETRIES + 1 - attempt
  {
    var r := replies(attempt);
    SendPaced(p, r);
    if !r.raises && r.limited && attempt <= MAX_RETRIES {
      Backoffs();
      var wait := BackoffFor(attempt);
      var waited := Waited(p, r, wait);
      WaitReady(p, r, wait);
      RequestPaced(waited, attempt + 1, replies);
      var later := RequestWithRetry(waited, attempt + 1, replies);
      RequestedEarlier(p, waited, attempt, later.0, later.1, wait, later.2);
      assert RequestWithRetry(p, attempt, replies) == (later.0, later.1, wait + later.2);
    } else {
      assert Requested(p, attempt, Send(p, r), if r.raises then Raised else Answered(r), 0);
    }
  }

  lemma {:induction false} RequestedEarlier(p: Pacer, waited: Pacer, attempt: nat, t: Pacer, ending: Ending, wait: int, rest: int)
    requires 1 <= attempt <= MAX_RETRIES && Requested(waited, attempt + 1, t, ending, rest)
    requires wait == BackoffFor(attempt) && waited.now >= p.now && waited.last == p.last && |waited.log| == |p.log| + 1
    ensures Requested(p, attempt, t, ending, wait + rest)
  {
    Backoffs();
  }

  lemma {:induction false} ConcludeInv(p: Pacer, t: Pacer, ending: Ending, backoff: int)
    requires Requested(p, 1, t, ending, backoff) && (p.last.Some? ==> p.last.value <= p.now)
    ensures Inv(Conclude(t, ending)) && Conclude(t, ending).log == t.log
  {
  }

  lemma {:induction false} CallPaced(p: Pacer, input: Input)
    requires Inv(p) && Physical(input)
    ensures Inv(AfterCall(p, input))
    ensures |p.log| < |AfterCall(p, input).log| <= |p.log| + 4
    ensures RequestWithRetry(Entered(p, input), 1, input.replies).2 <= 14
  {
    var ready := Entered(p, input);
    EnteredReady(p, input);
    RequestPaced(ready, 1, input.replies);
    var r := RequestWithRetry(ready, 1, input.replies);
    ConcludeInv(ready, r.0, r.1, r.2);
    assert AfterCall(p, input) == Conclude(r.0, r.1);
  }

  lemma {:induction false} EnteredReady(p: Pacer, input: Input)
    requires Inv(p) && Physical(input)
    ensures Ready(Entered(p, input)) && Entered(p, input).log == p.log
  {
  }

  function AfterCalls(p: Pacer, inputs: seq<Input>): Pacer {
    if inputs == [] then p else AfterCall(AfterCalls(p, inputs[..|inputs|-1]), inputs[|inputs|-1])
  }

  /** Over any run of calls, retries included: consecutive requests start at least 1.1 s apart
      except after a request that raised. */
  lemma {:induction false} RunPaced(start: real, inputs: seq<Input>)
    requires forall i :: 0 <= i < |inputs| ==> Physical(inputs[i])
    ensures Inv(AfterCalls(Pacer(start, None, []), inputs))
  {
    if inputs != [] {
      RunPaced(start, inputs[..|inputs|-1]);
      CallPaced(AfterCalls(Pacer(start, None, []), inputs[..|inputs|-1]), inputs[|inputs|-1]);
    }
  }

  // ----- which answers are retried, and when

  lemma {:induction false} RetriesFrom(p: Pacer, attempt: nat, replies: nat -> Reply)
    requires 1 <= attempt <= 4
    ensures var (t, ending, _) := RequestWithRetry(p, attempt, replies); var last := attempt + |t.log| - |p.log| - 1;
      && attempt <= last <= 4
      && (forall j :: attempt <= j < last ==> !replies(j).raises && replies(j).limited)
      && (last < 4 ==> replies(last).raises || !replies(last).limited)
      && ending == if replies(last).raises then Raised else Answered(replies(last))
    decreases 4 - attempt
  {
    var r := replies(attempt);
    if !r.raises && r.limited && attempt < 4 {
      RetriesFrom(Waited(p, r, BackoffFor(attempt)), attempt + 1, replies);
    }
  }

  /** A call tries again exactly after an answer that says too many requests, at most three times: with
      `k` requests sent, every answer before the last is limited, the last is not unless it is the
      fourth, and it is the last answer, or its exception, that the caller gets. */
  lemma {:induction false} CallRetries(p: Pacer, input: Input)
    ensures var t := AfterCall(p, input); var k := |t.log| - |p.log|;
      && 1 <= k <= 4
      && (forall j :: 1 <= j < k ==> !input.replies(j).raises && input.replies(j).limited)
      && (k < 4 ==> input.replies(k).raises || !input.replies(k).limited)
      && EndingOf(p, input) == if input.replies(k).raises then Raised else Answered(input.replies(k))
  {
    RetriesFrom(Entered(p, input), 1, input.replies);
    ConcludesExactly(RequestWithRetry(Entered(p, input), 1, input.replies).0, EndingOf(p, input));
  }

  /** Seconds slept before the attempt after this one. */
  function Wait(attempt: nat): real {
    if attempt == 1 then 2.0 else if attempt == 2 then 4.0 else 8.0
  }

  /** The attempts of a call, from one on, as they appear in the log after `n` entries. */
  ghost predicate Spaced(log: seq<Attempt>, n: nat, attempt: nat, replies: nat -> Reply)
    requires n < |log|
  {
    forall j :: n <= j < |log| - 1 ==>
      log[j+1].start == log[j].start + replies(attempt + j - n).latency + Wait(attempt + j - n) + replies(attempt + j - n + 1).delay
  }

  /** Retries start 2, 4 and 8 seconds after the answer before them. */
  lemma {:induction false} RetriesSpaced(p: Pacer, attempt: nat, replies: nat -> Reply)
    requires 1 <= attempt <= 4
    ensures var t := RequestWithRetry(p, attempt, replies).0;
      && |t.log| > |p.log| && t.log[..|p.log|] == p.log
      && t.log[|p.log|] == Attempt(p.now + replies(attempt).delay, replies(attempt).raises)
      && Spaced(t.log, |p.log|, attempt, replies)
    decreases 4 - attempt
  {
    var r := replies(attempt);
    if !r.raises && r.limited && attempt < 4 {
      Backoffs();
      var waited := Waited(p, r, BackoffFor(attempt));
      RetriesSpaced(waited, attempt + 1, replies);
      SpacedEarlier(p, r, RequestWithRetry(waited, attempt + 1, replies).0.log, attempt, replies);
    }
  }

  lemma {:induction false} SpacedEarlier(p: Pacer, r: Reply, log: seq<Attempt>, attempt: nat, replies: nat -> Reply)
    requires 1 <= attempt < 4 && r == replies(attempt) && |log| > |p.log| + 1
    requires var waited := Waited(p, r, BackoffFor(attempt));
             && log[..|p.log|+1] == waited.log
             && log[|p.log|+1].start == waited.now + replies(attempt + 1).delay
    requires Spaced(log, |p.log| + 1, attempt + 1, replies)
    ensures log[..|p.log|] == p.log && log[|p.log|] == Attempt(p.now + r.delay, r.raises)
    ensures Spaced(log, |p.log|, attempt, replies)
  {
    Backoffs();
    var n := |p.log|;
    assert log[..n+1][n] == log[n] && log[..n+1][..n] == log[..n];
    forall j | n <= j < |log| - 1
      ensures log[j+1].start == log[j].start + replies(attempt + j - n).latency + Wait(attempt + j - n) + replies(attempt + j - n + 1).delay
    {
      if j > n {
        assert attempt + 1 + j - (n + 1) == attempt + j - n;
      }
    }
  }

  /** A call that is answered pauses ten seconds when five or fewer requests are said to remain, and not
      otherwise, and then records the time; one that raises does neither. */
  lemma {:induction false} ConcludesExactly(t: Pacer, ending: Ending)
    ensures var u := Conclude(t, ending);
      && u.log == t.log
      && (ending.Raised? ==> u == t)
      && (ending.Answered? ==>
            var low := ending.reply.remaining.Some? && ending.reply.remaining.value <= 5;
            u.now == (if low then t.now + 10.0 else t.now) && u.last == Some(u.now))
  {
  }

  /** A call sleeps before its first request for as long as the 1.1 s since the recorded time ask, and
      not at all when none is recorded or they are over. */
  lemma {:induction false} SleepsJustEnough(p: Pacer, input: Input)
    ensures var arrived := p.now + input.idle; var u := Entered(p, input);
      && u.log == p.log && u.last == p.last
      && u.now == if p.last.Some? && arrived < p.last.value + 1.1 then p.last.value + 1.1 else arrived
  {
  }

  // ----- the rate bound

  function InWindow(t: real): Attempt -> bool {
    (a: Attempt) => t <= a.start <= t + 60.0
  }

  ghost predicate NoneRaised(log: seq<Attempt>) {
    forall a :: a in log ==> !a.raised
  }

  lemma {:induction false} Spread(log: seq<Attempt>, i: nat, j: nat)
    requires Paced(log) && NoneRaised(log) && i <= j < |log|
    ensures log[j].start - log[i].start >= SLEEP * (j - i) as real
    decreases j - i
  {
    if i < j {
      Spread(log, i, j - 1);
      var k := j - 1;
      assert log[k] in log;
      assert PacedAt(log, j);
    }
  }

  lemma {:induction false} WindowCount(log: seq<Attempt>, n: nat, t: real)
    requires Paced(log) && NoneRaised(log) && n <= |log|
    ensures Count(log[..n], InWindow(t)) > 0 ==>
              exists i :: 0 <= i < n && InWindow(t)(log[i]) && Count(log[..n], InWindow(t)) <= n - i
  {
    if n > 0 {
      WindowCount(log, n - 1, t);
      assert log[..n] == log[..n-1] + [log[n-1]];
      FilterSnoc(log[..n-1], log[n-1], InWindow(t));
      if Count(log[..n-1], InWindow(t)) == 0 {
        assert Count(log[..n], InWindow(t)) > 0 ==> InWindow(t)(log[n-1]);
      }
    }
  }

  /** Any closed 60-second window of a run without transport exceptions holds at most 55 requests. */
  lemma {:induction false} RateBound(start: real, inputs: seq<Input>, t: real)
    requires forall i :: 0 <= i < |inputs| ==> Physical(inputs[i])
    requires NoneRaised(AfterCalls(Pacer(start, None, []), inputs).log)
    ensures Count(AfterCalls(Pacer(start, None, []), inputs).log, InWindow(t)) <= 55
  {
    RunPaced(start, inputs);
    var log := AfterCalls(Pacer(start, None, []), inputs).log;
    LastInWindow(log, |log|, t);
    assert log[..|log|] == log;
  }

  lemma {:induction false} LastInWindow(log: seq<Attempt>, n: nat, t: real)
    requires Paced(log) && NoneRaised(log) && n <= |log|
    ensures Count(log[..n], InWindow(t)) <= 55
  {
    if n > 0 {
      assert log[..n] == log[..n-1] + [log[n-1]];
      FilterSnoc(log[..n-1], log[n-1], InWindow(t));
      if InWindow(t)(log[n-1]) {
        WindowCount(log, n, t);
        var i :| 0 <= i < n && InWindow(t)(log[i]) && Count(log[..n], InWindow(t)) <= n - i;
        Spread(log, i, n - 1);
      } else {
        LastInWindow(log, n - 1, t);
      }
    }
  }

  // ----- after a call that raised

  /** A request that raises is the last one sent, and the clock then stands at its start plus its latency. */
  lemma {:induction false} RaisingAttempt(p: Pacer, attempt: nat, replies: nat -> Reply)
    requires RequestWithRetry(p, attempt, replies).1.Raised?
    ensures var t := RequestWithRetry(p, attempt, replies).0;
      && |t.log| > |p.log| && var k := attempt + (|t.log| - |p.log|) - 1;
         replies(k).raises && t.now == t.log[|t.log|-1].start + replies(k).latency
    decreases MAX_RETRIES + 1 - attempt
  {
    var r := replies(attempt);
    if !r.raises {
      RaisingAttempt(Waited(p, r, BackoffFor(attempt)), attempt + 1, replies);
    }
  }

  /** What a call that raises leaves behind, after `k` attempts. */
  ghost predicate RaisedAfter(p: Pacer, input: Input, t: Pacer, k: nat) {
    && 1 <= k <= MAX_RETRIES + 1 && |t.log| == |p.log| + k && input.replies(k).raises
    && t.now == t.log[|t.log|-1].start + input.replies(k).latency
    && t.last == p.last && t.now >= Entered(p, input).now
  }

  lemma {:induction false} CallRaises(p: Pacer, input: Input)
    requires Inv(p) && Physical(input) && RequestWithRetry(Entered(p, input), 1, input.replies).1.Raised?
    ensures var t := AfterCall(p, input);
            |t.log| > |p.log| && RaisedAfter(p, input, t, |t.log| - |p.log|)
  {
    var ready := Entered(p, input);
    EnteredReady(p, input);
    RequestPaced(ready, 1, input.replies);
    RaisingAttempt(ready, 1, input.replies);
    assert AfterCall(p, input) == RequestWithRetry(ready, 1, input.replies).0;
  }

  /** A call that raises leaves the recorded time where it was, and that is no longer near: the next
      call never sleeps.  Its first request follows the raising one after nothing but that one's
      latency, the idle time and the delay, so it is paced if and only if these come to 1.1 s. */
  lemma {:induction false} NextAfterRaiseIff(p: Pacer, input: Input, next: Input)
    requires Inv(p) && Physical(input) && Physical(next)
    requires RequestWithRetry(Entered(p, input), 1, input.replies).1.Raised?
    ensures var t := AfterCall(p, input); var k := |t.log| - |p.log|; var u := AfterCall(t, next);
      && Entered(t, next) == t.(now := t.now + next.idle)
      && 1 <= k <= MAX_RETRIES + 1 && input.replies(k).raises && |t.log| < |u.log|
      && (u.log[|t.log|].start - t.log[|t.log|-1].start >= SLEEP
          <==> input.replies(k).latency + next.idle + next.replies(1).delay >= SLEEP)
  {
    var t := AfterCall(p, input);
    CallRaises(p, input);
    EntersAwake(p, input, t, next);
    CallSendsFirst(t, next);
  }

  lemma {:induction false} EntersAwake(p: Pacer, input: Input, t: Pacer, next: Input)
    requires Physical(next) && t.last == p.last && t.now >= Entered(p, input).now
    ensures Entered(t, next) == t.(now := t.now + next.idle)
  {
  }

  /** The first request a call sends. */
  lemma {:induction false} FirstSent(p: Pacer, attempt: nat, replies: nat -> Reply)
    ensures var log := RequestWithRetry(p, attempt, replies).0.log;
            |log| > |p.log| && log[|p.log|].start == p.now + replies(attempt).delay
    ensures p.log <= RequestWithRetry(p, attempt, replies).0.log
    decreases MAX_RETRIES + 1 - attempt
  {
    var r := replies(attempt);
    if !r.raises && r.limited && attempt <= MAX_RETRIES {
      FirstSent(Waited(p, r, BackoffFor(attempt)), attempt + 1, replies);
    }
  }

  lemma {:induction false} CallSendsFirst(t: Pacer, next: Input)
    ensures var log := AfterCall(t, next).log;
            |log| > |t.log| && log[|t.log|].start == Entered(t, next).now + next.replies(1).delay
  {
    FirstSent(Entered(t, next), 1, next.replies);
    assert Entered(t, next).log == t.log;
  }

  /** The exception is real: two calls that raise at once start their requests at the same moment. */
  lemma {:induction false} RaisedCallsAreNotPaced(start: real)
    ensures var raise := Input(0.0, _ => Reply(0.0, 0.0, true, false, None));
            var log := AfterCalls(Pacer(start, None, []), [raise, raise]).log;
            Physical(raise) && |log| == 2 && log[0].start == log[1].start == start
  {
    var raise := Input(0.0, _ => Reply(0.0, 0.0, true, false, None));
    var p := Pacer(start, None, []);
    assert [raise, raise][..1] == [raise] && [raise][..0] == [];
    var one := AfterCall(p, raise);
    assert one == Pacer(start, None, [Attempt(start, true)]);
    assert AfterCalls(p, [raise]) == one;
    assert AfterCalls(p, [raise, raise]) == AfterCall(one, raise);
  }
}

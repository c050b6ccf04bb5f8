/**
 * The retrying transport: the shared rate-limit gate, and one request's attempts
 * under classification-aware backoff. Durations are in milliseconds.
 */
module Retry {
  import opened Wrappers

  const RETRY_AFTER_CAP := 300000
  const BODY_SNIPPET_MAX := 500
  const DEFAULT_BACKOFF: seq<int> := [100, 200, 400]
  const SQC_429_BACKOFF: seq<int> := [5000, 15000, 30000, 60000, 120000, 300000]
  const NON_SQC_429_BACKOFF: seq<int> := [2000]
  const RETRYABLE_STATUS_CODES: set<int> := {429, 500, 502, 503, 504}

  function Max(a: int, b: int): (m: int) {
    if a < b then b else a
  }

  // ---------------------------------------------------------------------------
  // The gate

  /** One extension of the gate: when it was made, and the deadline it asked for. */
  datatype Extension = Extension(now: int, until: int)

  class RateLimitGate {
    var blocked: int

    constructor (longAgo: int)
      ensures blocked == longAgo
    {
      blocked := longAgo;
    }

    /** Pushes the deadline out and returns the pause this call adds to what was already pending. */
    method Extend(until: int, now: int) returns (added: int)
      modifies this
      ensures blocked == Max(old(blocked), until)
      ensures added == Added(old(blocked), Extension(now, until))
    {
      var effectivePrev := blocked;
      if effectivePrev < now {
        effectivePrev := now;
      }
      if blocked < until {
        blocked := until;
      }
      added := blocked - effectivePrev;
      if added < 0 {
        added := 0;
      }
    }
  }

  /** The part of [now, until) past the pending deadline. */
  function Added(blocked: int, e: Extension): (added: int) {
    Max(0, e.until - Max(blocked, e.now))
  }

  function Deadline(longAgo: int, es: seq<Extension>): (deadline: int) {
    if es == [] then longAgo else Max(Deadline(longAgo, es[..|es| - 1]), es[|es| - 1].until)
  }

  function TotalAdded(longAgo: int, es: seq<Extension>): (total: int) {
    if es == [] then 0
    else TotalAdded(longAgo, es[..|es| - 1]) + Added(Deadline(longAgo, es[..|es| - 1]), es[|es| - 1])
  }

  function Interval(from: int, to: int): (ticks: set<int>)
    ensures forall t :: t in ticks <==> from <= t < to
    decreases if from < to then to - from else 0
  {
    if from < to then Interval(from, to - 1) + {to - 1} else {}
  }

  /** The milliseconds in which some extension held requests back. */
  function Paused(es: seq<Extension>): (ticks: set<int>) {
    if es == [] then {} else Paused(es[..|es| - 1]) + Interval(es[|es| - 1].now, es[|es| - 1].until)
  }

  /** The clock never runs backwards, and starts after whatever the gate was created with. */
  ghost predicate ClockAdvances(longAgo: int, es: seq<Extension>) {
    && (forall k | 0 <= k < |es| :: longAgo <= es[k].now)
    && (forall a, b | 0 <= a < b < |es| :: es[a].now <= es[b].now)
  }

  lemma {:induction false} IntervalSize(from: int, to: int)
    ensures |Interval(from, to)| == Max(0, to - from)
    decreases if from < to then to - from else 0
  {
    if from < to {
      IntervalSize(from, to - 1);
      assert to - 1 !in Interval(from, to - 1);
    }
  }

  /** From the latest extension on, what is paused is exactly what lies before the deadline. */
  lemma {:induction false} PausedUpToDeadline(longAgo: int, es: seq<Extension>, now: int)
    requires ClockAdvances(longAgo, es) && longAgo <= now
    requires forall k | 0 <= k < |es| :: es[k].now <= now
    ensures forall t | now <= t :: t in Paused(es) <==> t < Deadline(longAgo, es)
    ensures forall t | t in Paused(es) :: t < Deadline(longAgo, es)
  {
    if es != [] {
      PausedUpToDeadline(longAgo, es[..|es| - 1], now);
    }
  }

  /** An extension pauses anew exactly the time past the pending deadline. */
  lemma NewlyPaused(longAgo: int, init: seq<Extension>, e: Extension)
    requires ClockAdvances(longAgo, init) && longAgo <= e.now
    requires forall k | 0 <= k < |init| :: init[k].now <= e.now
    ensures var tail := Interval(Max(Deadline(longAgo, init), e.now), e.until);
            Paused(init) !! tail && Paused(init) + Interval(e.now, e.until) == Paused(init) + tail
  {
    PausedUpToDeadline(longAgo, init, e.now);
  }

  lemma DisjointSize(a: set<int>, b: set<int>)
    requires a !! b
    ensures |a + b| == |a| + |b|
  {
  }

  /**
   * Summing what each call added gives the wall-clock time requests were held back:
   * overlapping pauses are counted once, and gaps between them not at all.
   */
  lemma {:induction false} AddedTimeIsPausedTime(longAgo: int, es: seq<Extension>)
    requires ClockAdvances(longAgo, es)
    ensures TotalAdded(longAgo, es) == |Paused(es)|
  {
    if es != [] {
      var init, e := es[..|es| - 1], es[|es| - 1];
      var from := Max(Deadline(longAgo, init), e.now);
      AddedTimeIsPausedTime(longAgo, init);
      NewlyPaused(longAgo, init, e);
      IntervalSize(from, e.until);
      DisjointSize(Paused(init), Interval(from, e.until));
    }
  }

  // ---------------------------------------------------------------------------
  // One request

  datatype RateLimitKind = Unknown429 | SQCRateLimit | CloudflareRateLimit

  /** What one attempt came back with. `retryAfter` is 0 when the header is absent. */
  datatype Outcome =
    | NetworkError
    | Response(status: int, kind: RateLimitKind, retryAfter: int, waited: int, body: seq<char>)
  {
    predicate Is429() {
      Response? && status == 429
    }

    predicate IsSonarRateLimit() {
      Is429() && kind == SQCRateLimit
    }
  }

  /** Statuses handed back at once when they took at least `after`. */
  datatype SkipRetry = SkipRetry(after: int, codes: set<int>)

  datatype Transport = Transport(backoff: seq<int>, sqcBackoff: Option<seq<int>>, nonSQCBackoff: Option<seq<int>>) {
    function ScheduleFor(o: Outcome): (schedule: seq<int>) {
      if !o.Is429() then backoff
      else
        var override := if o.kind == SQCRateLimit then sqcBackoff else nonSQCBackoff;
        if override.Some? then override.value else backoff
    }

    function NextWait(o: Outcome, attempt: nat): (wait: Option<int>) {
      var schedule := ScheduleFor(o);
      if |schedule| <= attempt then None
      else if o.IsSonarRateLimit() && 0 < o.retryAfter then Some(ClampRetryAfter(o.retryAfter, schedule[attempt]))
      else Some(schedule[attempt])
    }

    function LongestSchedule(): (n: nat) {
      var longer := if sqcBackoff.Some? && |backoff| < |sqcBackoff.value| then |sqcBackoff.value| else |backoff|;
      if nonSQCBackoff.Some? && longer < |nonSQCBackoff.value| then |nonSQCBackoff.value| else longer
    }
  }

  const CLOUD_TRANSPORT := Transport(DEFAULT_BACKOFF, Some(SQC_429_BACKOFF), Some(NON_SQC_429_BACKOFF))

  function ClampRetryAfter(server: int, scheduled: int): (wait: int) {
    var d := if server < scheduled then scheduled else server;
    if RETRY_AFTER_CAP < d then RETRY_AFTER_CAP else d
  }

  /**
   * An honoured Retry-After (section 7.1.3 of RFC 7231) never passes the cap, and
   * it keeps at least the scheduled wait exactly when the schedule itself does not
   * pass the cap. The shipped schedules never do.
   */
  lemma RetryAfterIsBounded(server: int, scheduled: int)
    ensures ClampRetryAfter(server, scheduled) <= RETRY_AFTER_CAP
    ensures scheduled <= ClampRetryAfter(server, scheduled) <==> scheduled <= RETRY_AFTER_CAP
    ensures scheduled <= server <= RETRY_AFTER_CAP ==> ClampRetryAfter(server, scheduled) == server
    ensures forall attempt: nat, o: Outcome ::
              o.IsSonarRateLimit() && CLOUD_TRANSPORT.NextWait(o, attempt).Some?
              ==> SQC_429_BACKOFF[attempt] <= CLOUD_TRANSPORT.NextWait(o, attempt).value <= RETRY_AFTER_CAP
  {
    assert forall k | 0 <= k < |SQC_429_BACKOFF| :: SQC_429_BACKOFF[k] <= RETRY_AFTER_CAP;
  }

  /**
   * The world one request meets, by attempt: what each attempt comes back with, whether
   * the body can be sent again, whether the context ends during the wait that follows,
   * when the attempt comes to the gate and when its answer is dealt with, whether the
   * context ends while it waits at the gate, and how other requests extend the shared
   * gate while it is in flight.
   */
  datatype Upstream = Upstream(
    outcome: nat -> Outcome, replayable: nat -> bool, cancelled: nat -> bool, skip: Option<SkipRetry>,
    arrives: nat -> int, answered: nat -> int, expired: nat -> bool, others: nat -> seq<Extension>)

  predicate ShouldRetry(o: Outcome) {
    o.NetworkError? || o.status in RETRYABLE_STATUS_CODES
  }

  predicate RetrySkipped(skip: Option<SkipRetry>, o: Outcome) {
    o.Response? && o.status != 429 && skip.Some? && o.status in skip.value.codes && skip.value.after <= o.waited
  }

  /** The attempt's outcome is retryable, and it is not handed back early. */
  predicate IsPlanned(up: Upstream, attempt: nat) {
    ShouldRetry(up.outcome(attempt)) && !RetrySkipped(up.skip, up.outcome(attempt))
  }

  /** Another attempt is scheduled and possible. */
  predicate More(t: Transport, up: Upstream, attempt: nat) {
    t.NextWait(up.outcome(attempt), attempt).Some? && up.replayable(attempt)
  }

  /** After `attempt` the request is sent again. */
  predicate Continues(t: Transport, up: Upstream, attempt: nat) {
    IsPlanned(up, attempt) && More(t, up, attempt) && !up.cancelled(attempt)
  }

  /** The first `n` attempts were each followed by another. */
  predicate AllContinue(t: Transport, up: Upstream, n: nat) {
    n == 0 || (AllContinue(t, up, n - 1) && Continues(t, up, n - 1))
  }

  function WaitAt(t: Transport, up: Upstream, attempt: nat): (wait: int) {
    var wait := t.NextWait(up.outcome(attempt), attempt);
    if wait.Some? then wait.value else 0
  }

  /** The waits of the first `n` attempts, before jitter. */
  function Waits(t: Transport, up: Upstream, n: nat): (waits: seq<int>) {
    if n == 0 then [] else Waits(t, up, n - 1) + [WaitAt(t, up, n - 1)]
  }

  /** Rate-limit backoff slept through by the first `n` attempts. */
  function RateLimitWaits(t: Transport, up: Upstream, n: nat): (total: int) {
    if n == 0 then 0
    else RateLimitWaits(t, up, n - 1) + if up.outcome(n - 1).Is429() then WaitAt(t, up, n - 1) else 0
  }

  predicate PausedBefore(up: Upstream, n: nat) {
    n != 0 && (PausedBefore(up, n - 1) || up.outcome(n - 1).Is429())
  }

  datatype Recovery = Recovery(retries: nat, waited: int)

  /** The wait after an attempt, when another one is planned. */
  function PlannedWait(t: Transport, up: Upstream, attempt: nat): (wait: Option<int>) {
    if IsPlanned(up, attempt) && More(t, up, attempt) then t.NextWait(up.outcome(attempt), attempt) else None
  }

  /** An attempt that plans a wait and is not cancelled is within the schedules, and another follows it. */
  lemma PlannedWaitContinues(t: Transport, up: Upstream, attempt: nat)
    requires PlannedWait(t, up, attempt).Some? && !up.cancelled(attempt)
    ensures Continues(t, up, attempt) && attempt < t.LongestSchedule()
    ensures PlannedWait(t, up, attempt).value == WaitAt(t, up, attempt)
  {
  }

  // ---------------------------------------------------------------------------
  // The gate as one request uses it

  /** How an attempt extends the gate: by its wait, when a Sonar rate limit makes it try again. */
  function Own(t: Transport, up: Upstream, attempt: nat): (e: Option<Extension>) {
    var wait := PlannedWait(t, up, attempt);
    if wait.Some? && up.outcome(attempt).IsSonarRateLimit()
    then Some(Extension(up.answered(attempt), up.answered(attempt) + wait.value)) else None
  }

  /** The gate's deadline at the start of attempt `n`. */
  function DeadlineAt(t: Transport, up: Upstream, blocked: int, n: nat): (deadline: int)
    decreases n, 0
  {
    if n == 0 then blocked
    else if Own(t, up, n - 1).None? then Pending(t, up, blocked, n - 1)
    else Max(Pending(t, up, blocked, n - 1), Own(t, up, n - 1).value.until)
  }

  /** The deadline an attempt's answer finds: others may have moved it meanwhile. */
  function Pending(t: Transport, up: Upstream, blocked: int, attempt: nat): (deadline: int)
    decreases attempt, 1
  {
    Deadline(DeadlineAt(t, up, blocked, attempt), up.others(attempt))
  }

  /** Every extension of the gate up to the start of attempt `n`, this request's and the others'. */
  function Extensions(t: Transport, up: Upstream, n: nat): (es: seq<Extension>) {
    if n == 0 then []
    else
      var own := Own(t, up, n - 1);
      Extensions(t, up, n - 1) + up.others(n - 1) + if own.Some? then [own.value] else []
  }

  lemma {:induction false} DeadlineConcat(blocked: int, es: seq<Extension>, more: seq<Extension>)
    ensures Deadline(blocked, es + more) == Deadline(Deadline(blocked, es), more)
  {
    if more == [] {
      assert es + more == es;
    } else {
      DeadlineConcat(blocked, es, more[..|more| - 1]);
      assert (es + more)[..|es + more| - 1] == es + more[..|more| - 1];
    }
  }

  /** The gate stands where the whole history of its extensions puts it. */
  lemma {:induction false} DeadlineOfExtensions(t: Transport, up: Upstream, blocked: int, n: nat)
    ensures DeadlineAt(t, up, blocked, n) == Deadline(blocked, Extensions(t, up, n))
  {
    if n != 0 {
      DeadlineOfExtensions(t, up, blocked, n - 1);
      var es, own := Extensions(t, up, n - 1), Own(t, up, n - 1);
      DeadlineConcat(blocked, es, up.others(n - 1));
      if own.Some? {
        OneExtension(blocked, es + up.others(n - 1), own.value);
      } else {
        assert es + up.others(n - 1) + [] == es + up.others(n - 1);
      }
    }
  }

  lemma OneExtension(blocked: int, es: seq<Extension>, e: Extension)
    ensures Deadline(blocked, es + [e]) == Max(Deadline(blocked, es), e.until)
  {
    assert (es + [e])[..|es + [e]| - 1] == es;
  }

  /** When attempt `k` may be sent: not before the deadline it finds, unless the context ends there. */
  function SendTime(t: Transport, up: Upstream, gated: bool, blocked: int, k: nat): (time: int) {
    if gated && !up.expired(k) then Max(up.arrives(k), DeadlineAt(t, up, blocked, k)) else up.arrives(k)
  }

  function SendTimes(t: Transport, up: Upstream, gated: bool, blocked: int, n: nat): (sent: seq<int>) {
    if n == 0 then [] else SendTimes(t, up, gated, blocked, n - 1) + [SendTime(t, up, gated, blocked, n - 1)]
  }

  /** What the observer is told about a 429. */
  datatype Event = Event(kind: RateLimitKind, wait: int, added: int)

  /**
   * The event of an attempt that found the deadline at `pending`: a request that gives
   * up adds nothing, a Sonar rate limit what the gate gained, any other 429 its wait.
   */
  function EventOf(t: Transport, up: Upstream, gated: bool, pending: int, attempt: nat): (events: seq<Event>) {
    var o, wait, own := up.outcome(attempt), PlannedWait(t, up, attempt), Own(t, up, attempt);
    if !o.Is429() then []
    else if wait.None? then [Event(o.kind, 0, 0)]
    else if own.None? then [Event(o.kind, wait.value, wait.value)]
    else [Event(o.kind, wait.value, if gated then Added(pending, own.value) else 0)]
  }

  function EventsAt(t: Transport, up: Upstream, gated: bool, blocked: int, attempt: nat): (events: seq<Event>) {
    EventOf(t, up, gated, Pending(t, up, blocked, attempt), attempt)
  }

  function Events(t: Transport, up: Upstream, gated: bool, blocked: int, n: nat): (events: seq<Event>) {
    if n == 0 then [] else Events(t, up, gated, blocked, n - 1) + EventsAt(t, up, gated, blocked, n - 1)
  }

  /** The pause the observer is told Sonar's rate limits added. */
  function SonarAdded(events: seq<Event>): (total: int) {
    if events == [] then 0
    else
      var last := events[|events| - 1];
      SonarAdded(events[..|events| - 1]) + if last.kind == SQCRateLimit then last.added else 0
  }

  /** What the other requests are told their extensions added, up to the start of attempt `n`. */
  function OthersAdded(t: Transport, up: Upstream, blocked: int, n: nat): (total: int) {
    if n == 0 then 0
    else OthersAdded(t, up, blocked, n - 1) + TotalAdded(DeadlineAt(t, up, blocked, n - 1), up.others(n - 1))
  }

  lemma {:induction false} TotalAddedConcat(blocked: int, es: seq<Extension>, more: seq<Extension>)
    ensures TotalAdded(blocked, es + more) == TotalAdded(blocked, es) + TotalAdded(Deadline(blocked, es), more)
  {
    if more == [] {
      assert es + more == es;
    } else {
      var init, last := more[..|more| - 1], more[|more| - 1];
      TotalAddedConcat(blocked, es, init);
      DeadlineConcat(blocked, es, init);
      assert (es + more)[..|es + more| - 1] == es + init;
    }
  }

  lemma OneMoreAdded(blocked: int, es: seq<Extension>, e: Extension)
    ensures TotalAdded(blocked, es + [e]) == TotalAdded(blocked, es) + Added(Deadline(blocked, es), e)
  {
    assert (es + [e])[..|es + [e]| - 1] == es;
  }

  lemma AttemptReports(t: Transport, up: Upstream, blocked: int, attempt: nat)
    ensures var own := Own(t, up, attempt);
            SonarAdded(Events(t, up, true, blocked, attempt + 1))
            == SonarAdded(Events(t, up, true, blocked, attempt))
               + if own.Some? then Added(Pending(t, up, blocked, attempt), own.value) else 0
  {
    hide EventsAt, Own, SonarAdded, Pending;
    SonarAddedConcat(Events(t, up, true, blocked, attempt), EventsAt(t, up, true, blocked, attempt));
    OwnAddedIsReported(t, up, blocked, attempt);
  }

  /** What an attempt's own extension adds is what its event reports. */
  lemma OwnAddedIsReported(t: Transport, up: Upstream, blocked: int, attempt: nat)
    ensures var own, pending := Own(t, up, attempt), Pending(t, up, blocked, attempt);
            SonarAdded(EventsAt(t, up, true, blocked, attempt))
            == if own.Some? then Added(pending, own.value) else 0
  {
    var events := EventsAt(t, up, true, blocked, attempt);
    if events != [] {
      assert events == [events[0]] && SonarAdded([events[0]][..0]) == 0;
    }
  }

  lemma {:induction false} SonarAddedConcat(a: seq<Event>, b: seq<Event>)
    ensures SonarAdded(a + b) == SonarAdded(a) + SonarAdded(b)
  {
    if b == [] {
      assert a + b == a;
    } else {
      SonarAddedConcat(a, b[..|b| - 1]);
      assert (a + b)[..|a + b| - 1] == a + b[..|b| - 1];
    }
  }

  lemma {:induction false} ReportedIsAdded(t: Transport, up: Upstream, blocked: int, n: nat)
    ensures SonarAdded(Events(t, up, true, blocked, n)) + OthersAdded(t, up, blocked, n)
            == TotalAdded(blocked, Extensions(t, up, n))
  {
    hide Own, Pending, DeadlineAt, EventsAt, Deadline, Added;
    if n != 0 {
      hide TotalAdded, SonarAdded, Events, Extensions;
      ReportedIsAdded(t, up, blocked, n - 1);
      AttemptReports(t, up, blocked, n - 1);
      AttemptAdds(t, up, blocked, n - 1);
    } else {
      assert Events(t, up, true, blocked, 0) == [] && Extensions(t, up, 0) == [];
    }
  }

  lemma AttemptAdds(t: Transport, up: Upstream, blocked: int, attempt: nat)
    ensures var es, own := Extensions(t, up, attempt), Own(t, up, attempt);
            TotalAdded(blocked, Extensions(t, up, attempt + 1))
            == TotalAdded(blocked, es) + TotalAdded(DeadlineAt(t, up, blocked, attempt), up.others(attempt))
               + if own.Some? then Added(Pending(t, up, blocked, attempt), own.value) else 0
  {
    hide Own, TotalAdded, Deadline;
    var es, own, others := Extensions(t, up, attempt), Own(t, up, attempt), up.others(attempt);
    DeadlineOfExtensions(t, up, blocked, attempt);
    TotalAddedConcat(blocked, es, others);
    DeadlineConcat(blocked, es, others);
    if own.Some? {
      OneMoreAdded(blocked, es + others, own.value);
    } else {
      assert es + others + [] == es + others;
    }
  }

  /**
   * What this request and the others report as added by Sonar's rate limits is the
   * wall-clock time anyone was held back at the gate, each millisecond counted once.
   */
  lemma ReportedTimeIsPausedTime(t: Transport, up: Upstream, blocked: int, n: nat)
    requires ClockAdvances(blocked, Extensions(t, up, n))
    ensures SonarAdded(Events(t, up, true, blocked, n)) + OthersAdded(t, up, blocked, n)
            == |Paused(Extensions(t, up, n))|
  {
    ReportedIsAdded(t, up, blocked, n);
    AddedTimeIsPausedTime(blocked, Extensions(t, up, n));
  }

  /** A 429's body is peeked at, to classify it; the rest stays unread. */
  method ObserveRateLimit(o: Outcome) returns (consumed: seq<char>, rest: seq<char>)
    requires o.Response?
    ensures consumed + rest == o.body
    ensures |consumed| <= BODY_SNIPPET_MAX + 1 && (!o.Is429() ==> consumed == [])
  {
    if !o.Is429() {
      return [], o.body;
    }
    var n := if |o.body| < BODY_SNIPPET_MAX + 1 then |o.body| else BODY_SNIPPET_MAX + 1;
    return o.body[..n], o.body[n..];
  }

  method RestoreConsumedBody(consumed: seq<char>, rest: seq<char>) returns (body: seq<char>)
    ensures body == consumed + rest
  {
    body := if |consumed| == 0 then rest else consumed + rest;
  }

  /** Other requests extend the gate while an attempt is in flight. */
  method LetOthersExtend(gate: RateLimitGate?, es: seq<Extension>)
    modifies gate
    ensures gate != null ==> gate.blocked == Deadline(old(gate.blocked), es)
  {
    if gate == null {
      return;
    }
    for k := 0 to |es|
      invariant gate.blocked == Deadline(old(gate.blocked), es[..k])
    {
      assert es[..k + 1][..k] == es[..k];
      var added := gate.Extend(es[k].until, es[k].now);
    }
    assert es[..|es|] == es;
  }

  /** Waits for the gate, sends, and lets the world go on until the answer is in. */
  method Send(t: Transport, up: Upstream, attempt: nat, gate: RateLimitGate?, ghost blocked: int) returns (sent: int)
    requires gate != null ==> gate.blocked == DeadlineAt(t, up, blocked, attempt)
    modifies gate
    ensures sent == SendTime(t, up, gate != null, blocked, attempt)
    ensures gate != null ==> gate.blocked == Pending(t, up, blocked, attempt)
  {
    sent := up.arrives(attempt);
    if gate != null && !up.expired(attempt) && sent < gate.blocked {
      sent := gate.blocked;
    }
    LetOthersExtend(gate, up.others(attempt));
  }

  /**
   * Deals with one retryable outcome: whether another attempt follows, and after what
   * wait; the body, kept whole only when this is the end; the gate and the observer.
   */
  method PlanRetry(t: Transport, up: Upstream, attempt: nat, gate: RateLimitGate?, ghost blocked: int)
    returns (result: Outcome, wait: Option<int>, events: seq<Event>)
    requires IsPlanned(up, attempt)
    requires gate != null ==> gate.blocked == Pending(t, up, blocked, attempt)
    modifies gate
    ensures wait == PlannedWait(t, up, attempt)
    ensures wait.None? ==> result == up.outcome(attempt)
    ensures gate != null ==> gate.blocked == DeadlineAt(t, up, blocked, attempt + 1)
    ensures events == EventsAt(t, up, gate != null, blocked, attempt)
  {
    var o := up.outcome(attempt);
    wait := if up.replayable(attempt) then t.NextWait(o, attempt) else None;
    result, events := o, [];
    if o.Response? {
      var consumed, rest := ObserveRateLimit(o);
      var body := [];
      if wait.None? {
        body := RestoreConsumedBody(consumed, rest);
      }
      result := o.(body := body);
    }
    var chosen := if wait.Some? then wait.value else 0;
    var added := WallClockAdded(t, up, attempt, wait, gate, blocked);
    if o.Is429() {
      events := [Event(o.kind, chosen, added)];
    }
  }

  method WallClockAdded(t: Transport, up: Upstream, attempt: nat, wait: Option<int>, gate: RateLimitGate?,
                        ghost blocked: int)
    returns (added: int)
    requires IsPlanned(up, attempt) && wait == PlannedWait(t, up, attempt)
    requires gate != null ==> gate.blocked == Pending(t, up, blocked, attempt)
    modifies gate
    ensures gate != null ==> gate.blocked == DeadlineAt(t, up, blocked, attempt + 1)
    ensures added == if wait.None? then 0
                     else if Own(t, up, attempt).None? then wait.value
                     else if gate == null then 0
                     else Added(Pending(t, up, blocked, attempt), Own(t, up, attempt).value)
  {
    if wait.None? {
      return 0;
    }
    if !up.outcome(attempt).IsSonarRateLimit() {
      return wait.value;
    }
    added := 0;
    if gate != null {
      added := gate.Extend(up.answered(attempt) + wait.value, up.answered(attempt));
    }
  }

  /** One attempt: what came back, the wait before the next when there is one, and what it adds to the logs. */
  method Attempt(t: Transport, up: Upstream, attempt: nat, gate: RateLimitGate?, ghost blocked: int,
                 sentSoFar: seq<int>, eventsSoFar: seq<Event>)
    returns (result: Outcome, wait: Option<int>, sent: seq<int>, events: seq<Event>)
    requires gate != null ==> gate.blocked == DeadlineAt(t, up, blocked, attempt)
    requires sentSoFar == SendTimes(t, up, gate != null, blocked, attempt)
    requires eventsSoFar == Events(t, up, gate != null, blocked, attempt)
    modifies gate
    ensures wait == PlannedWait(t, up, attempt)
    ensures wait.None? ==> result == up.outcome(attempt)
    ensures sent == SendTimes(t, up, gate != null, blocked, attempt + 1)
    ensures events == Events(t, up, gate != null, blocked, attempt + 1)
    ensures gate != null ==> gate.blocked == DeadlineAt(t, up, blocked, attempt + 1)
  {
    var time := Send(t, up, attempt, gate, blocked);
    sent := sentSoFar + [time];
    if !IsPlanned(up, attempt) {
      return up.outcome(attempt), None, sent, eventsSoFar;
    }
    var reported;
    result, wait, reported := PlanRetry(t, up, attempt, gate, blocked);
    events := eventsSoFar + reported;
  }

  /** Sleeps until the next attempt. */
  method WaitOut(t: Transport, up: Upstream, attempt: nat, wait: int, waitsSoFar: seq<int>, pausedBefore: bool,
                 waited: int)
    returns (waits: seq<int>, paused: bool, totalWaited: int)
    requires wait == WaitAt(t, up, attempt) && waitsSoFar == Waits(t, up, attempt)
    requires pausedBefore == PausedBefore(up, attempt) && waited == RateLimitWaits(t, up, attempt)
    ensures waits == Waits(t, up, attempt + 1)
    ensures paused == PausedBefore(up, attempt + 1) && totalWaited == RateLimitWaits(t, up, attempt + 1)
  {
    waits, paused, totalWaited := waitsSoFar + [wait], pausedBefore, waited;
    if up.outcome(attempt).Is429() {
      paused, totalWaited := true, totalWaited + wait;
    }
  }

  /** Recovery is reported when an attempt gets through after the request slept for a 429. */
  function RecoveryAt(t: Transport, up: Upstream, attempt: nat): (recovery: Option<Recovery>) {
    if !ShouldRetry(up.outcome(attempt)) && PausedBefore(up, attempt)
    then Some(Recovery(attempt, RateLimitWaits(t, up, attempt))) else None
  }

  /** What a request came to after `attempts` attempts. */
  datatype Trip = Trip(result: Outcome, cancelled: bool, attempts: nat, recovery: Option<Recovery>)

  /** What every request comes to: the attempts before the last one continue, and the last one does not. */
  ghost predicate Ends(t: Transport, up: Upstream, trip: Trip) {
    && 1 <= trip.attempts <= 1 + t.LongestSchedule()
    && var last := trip.attempts - 1;
       && AllContinue(t, up, last) && !Continues(t, up, last)
       && (trip.cancelled <==> IsPlanned(up, last) && More(t, up, last))
       && (!trip.cancelled ==> trip.result == up.outcome(last))
       && trip.recovery == RecoveryAt(t, up, last)
  }

  // ---------------------------------------------------------------------------
  // What that means in terms of the three schedules

  /** An attempt worth repeating that can be repeated: what it came to, its body and its context allow it. */
  predicate Repeatable(up: Upstream, k: nat) {
    var o := up.outcome(k);
    && (o.NetworkError? || o.status in {429, 500, 502, 503, 504})
    && (o.Response? && o.status != 429 && up.skip.Some? && o.status in up.skip.value.codes
        ==> o.waited < up.skip.value.after)
    && up.replayable(k) && !up.cancelled(k)
  }

  /** Attempt `k` of a trip was followed by another exactly when this schedule had a wait left for it. */
  predicate Obeys(schedule: seq<int>, k: nat, trip: Trip) {
    k + 1 < trip.attempts <==> k < |schedule|
  }

  /** How long Sonar's own rate limit makes the client wait, by a header of `server` or by the schedule alone. */
  ghost predicate IsSonarWait(wait: int, server: int, scheduled: int) {
    if server <= 0 then wait == scheduled
    else
      && (server <= scheduled <= RETRY_AFTER_CAP ==> wait == scheduled)
      && (scheduled <= server <= RETRY_AFTER_CAP ==> wait == server)
      && (RETRY_AFTER_CAP <= server || RETRY_AFTER_CAP <= scheduled ==> wait == RETRY_AFTER_CAP)
  }

  /** The schedule of each kind of 429 falls back to that of the other failures. */
  function OrElse(schedule: Option<seq<int>>, backoff: seq<int>): (chosen: seq<int>) {
    if schedule.Some? then schedule.value else backoff
  }

  /**
   * Every attempt that can be repeated is, as long as the schedule of its own kind of
   * failure lasts, and after that schedule's wait; no other attempt is.
   */
  ghost predicate FollowsSchedules(t: Transport, up: Upstream, trip: Trip, waits: seq<int>) {
    && |waits| == trip.attempts - 1
    && forall k: nat | k < trip.attempts ::
         var o := up.outcome(k);
         if !Repeatable(up, k) then k + 1 == trip.attempts
         else if o.NetworkError? || o.status != 429 then
           Obeys(t.backoff, k, trip) && (k + 1 < trip.attempts ==> waits[k] == t.backoff[k])
         else if o.kind != SQCRateLimit then
           var schedule := OrElse(t.nonSQCBackoff, t.backoff);
           Obeys(schedule, k, trip) && (k + 1 < trip.attempts ==> waits[k] == schedule[k])
         else
           var schedule := OrElse(t.sqcBackoff, t.backoff);
           Obeys(schedule, k, trip) && (k + 1 < trip.attempts ==> IsSonarWait(waits[k], o.retryAfter, schedule[k]))
  }

  /** Attempt by attempt, continuing is following the schedule of its own kind of failure. */
  lemma ContinuesBySchedule(t: Transport, up: Upstream, k: nat)
    ensures !Repeatable(up, k) ==> !Continues(t, up, k)
    ensures Repeatable(up, k) ==>
              var o := up.outcome(k);
              if o.NetworkError? || o.status != 429 then
                (Continues(t, up, k) <==> k < |t.backoff|)
                && (k < |t.backoff| ==> WaitAt(t, up, k) == t.backoff[k])
              else if o.kind != SQCRateLimit then
                var schedule := OrElse(t.nonSQCBackoff, t.backoff);
                (Continues(t, up, k) <==> k < |schedule|) && (k < |schedule| ==> WaitAt(t, up, k) == schedule[k])
              else
                var schedule := OrElse(t.sqcBackoff, t.backoff);
                (Continues(t, up, k) <==> k < |schedule|)
                && (k < |schedule| ==> IsSonarWait(WaitAt(t, up, k), o.retryAfter, schedule[k]))
  {
  }

  lemma {:induction false} AllBeforeContinue(t: Transport, up: Upstream, n: nat, k: nat)
    requires AllContinue(t, up, n) && k < n
    ensures Continues(t, up, k) && |Waits(t, up, n)| == n && Waits(t, up, n)[k] == WaitAt(t, up, k)
  {
    WaitsLength(t, up, n - 1);
    if k < n - 1 {
      AllBeforeContinue(t, up, n - 1, k);
    }
  }

  lemma {:induction false} WaitsLength(t: Transport, up: Upstream, n: nat)
    ensures |Waits(t, up, n)| == n
  {
    if n != 0 {
      WaitsLength(t, up, n - 1);
    }
  }

  lemma EndsFollowsSchedules(t: Transport, up: Upstream, trip: Trip)
    requires Ends(t, up, trip)
    ensures FollowsSchedules(t, up, trip, Waits(t, up, trip.attempts - 1))
  {
    var last, waits := trip.attempts - 1, Waits(t, up, trip.attempts - 1);
    WaitsLength(t, up, last);
    forall k: nat | k < trip.attempts
      ensures Continues(t, up, k) <==> k < last
      ensures k < last ==> waits[k] == WaitAt(t, up, k)
    {
      if k < last {
        AllBeforeContinue(t, up, last, k);
      }
    }
    hide Continues, WaitAt, Repeatable, IsSonarWait, Waits;
    forall k: nat | k < trip.attempts
      ensures var o := up.outcome(k);
              if !Repeatable(up, k) then k + 1 == trip.attempts
              else if o.NetworkError? || o.status != 429 then
                Obeys(t.backoff, k, trip) && (k + 1 < trip.attempts ==> waits[k] == t.backoff[k])
              else if o.kind != SQCRateLimit then
                var schedule := OrElse(t.nonSQCBackoff, t.backoff);
                Obeys(schedule, k, trip) && (k + 1 < trip.attempts ==> waits[k] == schedule[k])
              else
                var schedule := OrElse(t.sqcBackoff, t.backoff);
                Obeys(schedule, k, trip)
                && (k + 1 < trip.attempts ==> IsSonarWait(waits[k], o.retryAfter, schedule[k]))
    {
      ContinuesBySchedule(t, up, k);
    }
  }

  // ---------------------------------------------------------------------------
  // What the gate and the observer get, attempt by attempt

  predicate IsRateLimit(up: Upstream, k: nat) {
    up.outcome(k).Response? && up.outcome(k).status == 429
  }

  predicate IsSonarLimit(up: Upstream, k: nat) {
    IsRateLimit(up, k) && up.outcome(k).kind == SQCRateLimit
  }

  /** How many of the first `n` attempts met a 429. */
  function RateLimits(up: Upstream, n: nat): (count: nat) {
    if n == 0 then 0 else RateLimits(up, n - 1) + if IsRateLimit(up, n - 1) then 1 else 0
  }

  /** The part of these waits that followed a 429. */
  function WaitedForLimits(up: Upstream, waits: seq<int>): (total: int) {
    if waits == [] then 0
    else
      var last := |waits| - 1;
      WaitedForLimits(up, waits[..last]) + if IsRateLimit(up, last) then waits[last] else 0
  }

  /**
   * One event for each 429, in order: with its wait when another attempt followed, with
   * nothing when the trip ended there by itself; a limit that is not Sonar's adds its wait.
   */
  ghost predicate TellsRateLimits(up: Upstream, trip: Trip, waits: seq<int>, events: seq<Event>) {
    && |waits| == trip.attempts - 1 && |events| == RateLimits(up, trip.attempts)
    && forall k: nat | k < trip.attempts && IsRateLimit(up, k) ::
         var o, at := up.outcome(k), RateLimits(up, k);
         && at < |events| && events[at].kind == o.kind
         && (k < |waits| ==> events[at].wait == waits[k])
         && (k < |waits| && o.kind != SQCRateLimit ==> events[at].added == waits[k])
         && (k == |waits| && !trip.cancelled ==> events[at] == Event(o.kind, 0, 0))
  }

  /** Recovery is reported exactly when an attempt gets through after a 429, with the waits those cost. */
  ghost predicate TellsRecovery(up: Upstream, trip: Trip, waits: seq<int>) {
    && 1 <= trip.attempts
    && var last := up.outcome(trip.attempts - 1);
       && (trip.recovery.Some? <==>
             && last.Response? && last.status !in {429, 500, 502, 503, 504}
             && exists k: nat :: k < trip.attempts - 1 && IsRateLimit(up, k))
       && (trip.recovery.Some? ==> trip.recovery.value == Recovery(trip.attempts - 1, WaitedForLimits(up, waits)))
  }

  /** A Sonar rate limit closes the gate for its wait, and this request too keeps to that. */
  ghost predicate ClosesGate(up: Upstream, waits: seq<int>, sent: seq<int>, deadline: int) {
    && |sent| == |waits| + 1
    && forall k: nat | k < |waits| && IsSonarLimit(up, k) ::
         && up.answered(k) + waits[k] <= deadline
         && (!up.expired(k + 1) ==> up.answered(k) + waits[k] <= sent[k + 1])
  }

  /** An attempt is sent when it comes to the gate, or when a pause that someone asked for before it is over. */
  ghost predicate SentAsSoonAsOpen(up: Upstream, waits: seq<int>, sent: seq<int>, gated: bool, blocked: int) {
    && |sent| == |waits| + 1
    && forall k: nat | k <= |waits| ::
         || sent[k] == up.arrives(k)
         || (gated && !up.expired(k) && up.arrives(k) < sent[k]
             && (|| sent[k] == blocked
                 || (exists j: nat, e :: j < k && e in up.others(j) && sent[k] == e.until)
                 || (exists j: nat :: j < k && IsSonarLimit(up, j) && sent[k] == up.answered(j) + waits[j])))
  }

  /** What last moved the gate: nothing, another request, or a Sonar rate limit of this one. */
  ghost predicate IsOwed(up: Upstream, trip: Trip, waits: seq<int>, blocked: int, deadline: int) {
    || deadline == blocked
    || (exists k: nat, e :: k < trip.attempts && e in up.others(k) && deadline == e.until)
    || (exists k: nat :: k < |waits| && IsSonarLimit(up, k) && deadline == up.answered(k) + waits[k])
    || (trip.cancelled && 0 < trip.attempts && IsSonarLimit(up, trip.attempts - 1))
  }

  lemma {:induction false} DeadlineIsSomeones(blocked: int, es: seq<Extension>)
    ensures Deadline(blocked, es) == blocked || exists e :: e in es && Deadline(blocked, es) == e.until
  {
    if es != [] {
      DeadlineIsSomeones(blocked, es[..|es| - 1]);
      assert es[|es| - 1] in es;
      assert forall e | e in es[..|es| - 1] :: e in es;
    }
  }

  lemma {:induction false} DeadlineIsOwed(t: Transport, up: Upstream, blocked: int, n: nat)
    ensures var deadline := DeadlineAt(t, up, blocked, n);
            || deadline == blocked
            || (exists k: nat, e :: k < n && e in up.others(k) && deadline == e.until)
            || (exists k: nat :: k < n && Own(t, up, k).Some? && deadline == Own(t, up, k).value.until)
    decreases n
  {
    if n != 0 {
      DeadlineIsOwed(t, up, blocked, n - 1);
      DeadlineIsSomeones(DeadlineAt(t, up, blocked, n - 1), up.others(n - 1));
      hide Own, Deadline;
      assert n - 1 < n;
    }
  }

  lemma EndsIsOwed(t: Transport, up: Upstream, blocked: int, trip: Trip)
    requires Ends(t, up, trip)
    ensures IsOwed(up, trip, Waits(t, up, trip.attempts - 1), blocked, DeadlineAt(t, up, blocked, trip.attempts))
  {
    hide DeadlineAt, AllContinue, Waits;
    var last, deadline := trip.attempts - 1, DeadlineAt(t, up, blocked, trip.attempts);
    WaitsLength(t, up, last);
    DeadlineIsOwed(t, up, blocked, trip.attempts);
    if k: nat :| k < trip.attempts && Own(t, up, k).Some? && deadline == Own(t, up, k).value.until {
      assert IsSonarLimit(up, k);
      if k < last {
        AllBeforeContinue(t, up, last, k);
      }
    }
  }

  lemma {:induction false} EventsCount(t: Transport, up: Upstream, gated: bool, blocked: int, n: nat)
    ensures |Events(t, up, gated, blocked, n)| == RateLimits(up, n)
  {
    if n != 0 {
      EventsCount(t, up, gated, blocked, n - 1);
    }
  }

  /** The event of attempt `k` stands at its place among the 429s. */
  lemma {:induction false} EventsPlace(t: Transport, up: Upstream, gated: bool, blocked: int, n: nat, k: nat)
    requires k < n && IsRateLimit(up, k)
    ensures RateLimits(up, k) < |Events(t, up, gated, blocked, n)|
    ensures EventsAt(t, up, gated, blocked, k) == [Events(t, up, gated, blocked, n)[RateLimits(up, k)]]
  {
    hide Pending;
    EventsCount(t, up, gated, blocked, n - 1);
    if k < n - 1 {
      EventsPlace(t, up, gated, blocked, n - 1, k);
    }
  }

  lemma EndsTellsRateLimits(t: Transport, up: Upstream, gated: bool, blocked: int, trip: Trip)
    requires Ends(t, up, trip)
    ensures TellsRateLimits(up, trip, Waits(t, up, trip.attempts - 1), Events(t, up, gated, blocked, trip.attempts))
  {
    hide Events, Pending, AllContinue, Waits;
    var last := trip.attempts - 1;
    WaitsLength(t, up, last);
    EventsCount(t, up, gated, blocked, trip.attempts);
    forall k: nat | k < trip.attempts && IsRateLimit(up, k)
      ensures var o, at := up.outcome(k), RateLimits(up, k);
              var waits, events := Waits(t, up, last), Events(t, up, gated, blocked, trip.attempts);
              && at < |events| && events[at].kind == o.kind
              && (k < last ==> events[at].wait == waits[k])
              && (k < last && o.kind != SQCRateLimit ==> events[at].added == waits[k])
              && (k == last && !trip.cancelled ==> events[at] == Event(o.kind, 0, 0))
    {
      EventsPlace(t, up, gated, blocked, trip.attempts, k);
      if k < last {
        AllBeforeContinue(t, up, last, k);
      }
    }
  }

  lemma {:induction false} LimitsBefore(up: Upstream, n: nat)
    ensures PausedBefore(up, n) <==> exists k: nat :: k < n && IsRateLimit(up, k)
  {
    if n != 0 {
      LimitsBefore(up, n - 1);
      assert IsRateLimit(up, n - 1) <==> up.outcome(n - 1).Is429();
    }
  }

  lemma {:induction false} WaitsForLimits(t: Transport, up: Upstream, n: nat)
    ensures RateLimitWaits(t, up, n) == WaitedForLimits(up, Waits(t, up, n))
  {
    if n != 0 {
      assert Waits(t, up, n) == Waits(t, up, n - 1) + [WaitAt(t, up, n - 1)];
      hide WaitAt, Waits, WaitedForLimits;
      WaitsForLimits(t, up, n - 1);
      WaitsLength(t, up, n - 1);
      OneMoreWait(up, Waits(t, up, n - 1), WaitAt(t, up, n - 1));
    }
  }

  lemma OneMoreWait(up: Upstream, waits: seq<int>, wait: int)
    ensures WaitedForLimits(up, waits + [wait])
            == WaitedForLimits(up, waits) + if IsRateLimit(up, |waits|) then wait else 0
  {
    assert (waits + [wait])[..|waits|] == waits;
  }

  lemma EndsTellsRecovery(t: Transport, up: Upstream, trip: Trip)
    requires Ends(t, up, trip)
    ensures TellsRecovery(up, trip, Waits(t, up, trip.attempts - 1))
  {
    LimitsBefore(up, trip.attempts - 1);
    WaitsForLimits(t, up, trip.attempts - 1);
  }

  lemma {:induction false} DeadlineGrows(t: Transport, up: Upstream, blocked: int, k: nat, n: nat)
    requires k < n
    ensures Own(t, up, k).Some? ==> Own(t, up, k).value.until <= DeadlineAt(t, up, blocked, n)
    decreases n
  {
    hide Own;
    if k < n - 1 {
      DeadlineGrows(t, up, blocked, k, n - 1);
      DeadlineOnlyGrows(DeadlineAt(t, up, blocked, n - 1), up.others(n - 1));
    }
  }

  lemma {:induction false} DeadlineOnlyGrows(blocked: int, es: seq<Extension>)
    ensures blocked <= Deadline(blocked, es)
  {
    if es != [] {
      DeadlineOnlyGrows(blocked, es[..|es| - 1]);
    }
  }

  lemma {:induction false} SendTimesAt(t: Transport, up: Upstream, gated: bool, blocked: int, n: nat, k: nat)
    ensures |SendTimes(t, up, gated, blocked, n)| == n
    ensures k < n ==> SendTimes(t, up, gated, blocked, n)[k] == SendTime(t, up, gated, blocked, k)
  {
    hide DeadlineAt;
    if n != 0 {
      SendTimesAt(t, up, gated, blocked, n - 1, k);
    }
  }

  lemma EndsClosesGate(t: Transport, up: Upstream, blocked: int, trip: Trip)
    requires Ends(t, up, trip)
    ensures ClosesGate(up, Waits(t, up, trip.attempts - 1), SendTimes(t, up, true, blocked, trip.attempts),
                       DeadlineAt(t, up, blocked, trip.attempts))
  {
    hide DeadlineAt, AllContinue, Waits, SendTimes;
    var last := trip.attempts - 1;
    var waits, sent := Waits(t, up, last), SendTimes(t, up, true, blocked, trip.attempts);
    WaitsLength(t, up, last);
    SendTimesAt(t, up, true, blocked, trip.attempts, 0);
    forall k: nat | k < last && IsSonarLimit(up, k)
      ensures up.answered(k) + waits[k] <= DeadlineAt(t, up, blocked, trip.attempts)
      ensures !up.expired(k + 1) ==> up.answered(k) + waits[k] <= sent[k + 1]
    {
      AllBeforeContinue(t, up, last, k);
      DeadlineGrows(t, up, blocked, k, trip.attempts);
      DeadlineGrows(t, up, blocked, k, k + 1);
      SendTimesAt(t, up, true, blocked, trip.attempts, k + 1);
    }
  }

  lemma EndsSentAsSoonAsOpen(t: Transport, up: Upstream, gated: bool, blocked: int, trip: Trip)
    requires Ends(t, up, trip)
    ensures SentAsSoonAsOpen(up, Waits(t, up, trip.attempts - 1), SendTimes(t, up, gated, blocked, trip.attempts),
                             gated, blocked)
  {
    hide DeadlineAt, AllContinue, Waits, SendTimes;
    var last := trip.attempts - 1;
    var waits, sent := Waits(t, up, last), SendTimes(t, up, gated, blocked, trip.attempts);
    WaitsLength(t, up, last);
    SendTimesAt(t, up, gated, blocked, trip.attempts, 0);
    forall k: nat | k <= last && sent[k] != up.arrives(k)
      ensures gated && !up.expired(k) && up.arrives(k) < sent[k]
      ensures || sent[k] == blocked
              || (exists j: nat, e :: j < k && e in up.others(j) && sent[k] == e.until)
              || (exists j: nat :: j < k && IsSonarLimit(up, j) && sent[k] == up.answered(j) + waits[j])
    {
      SendTimesAt(t, up, gated, blocked, trip.attempts, k);
      DeadlineIsOwed(t, up, blocked, k);
      if j: nat :| j < k && Own(t, up, j).Some? && DeadlineAt(t, up, blocked, k) == Own(t, up, j).value.until {
        AllBeforeContinue(t, up, last, j);
        assert IsSonarLimit(up, j);
      }
    }
  }

  /** All of this about one trip, and about the deadline it leaves at the gate. */
  ghost predicate IsFaithful(t: Transport, up: Upstream, gated: bool, blocked: int, trip: Trip, sent: seq<int>,
                             waits: seq<int>, events: seq<Event>, deadline: int)
  {
    && FollowsSchedules(t, up, trip, waits)
    && TellsRateLimits(up, trip, waits, events) && TellsRecovery(up, trip, waits)
    && SentAsSoonAsOpen(up, waits, sent, gated, blocked)
    && (gated ==> ClosesGate(up, waits, sent, deadline) && IsOwed(up, trip, waits, blocked, deadline))
  }

  lemma EveryTripIsFaithful(t: Transport, up: Upstream, gated: bool, blocked: int, trip: Trip)
    requires Ends(t, up, trip)
    ensures IsFaithful(t, up, gated, blocked, trip, SendTimes(t, up, gated, blocked, trip.attempts),
                       Waits(t, up, trip.attempts - 1), Events(t, up, gated, blocked, trip.attempts),
                       DeadlineAt(t, up, blocked, trip.attempts))
  {
    EndsFollowsSchedules(t, up, trip);
    EndsTellsRateLimits(t, up, gated, blocked, trip);
    EndsTellsRecovery(t, up, trip);
    EndsClosesGate(t, up, blocked, trip);
    EndsIsOwed(t, up, blocked, trip);
    EndsSentAsSoonAsOpen(t, up, gated, blocked, trip);
  }

  /** The last attempt; it reports a recovery when it got through after a pause. */
  method Finish(t: Transport, up: Upstream, attempt: nat, o: Outcome, wait: Option<int>, paused: bool, totalWaited: int)
    returns (trip: Trip)
    requires attempt <= t.LongestSchedule() && AllContinue(t, up, attempt)
    requires wait == PlannedWait(t, up, attempt)
    requires wait.None? ==> o == up.outcome(attempt)
    requires wait.None? || up.cancelled(attempt)
    requires paused == PausedBefore(up, attempt) && totalWaited == RateLimitWaits(t, up, attempt)
    ensures Ends(t, up, trip) && trip.attempts == attempt + 1
  {
    var recovered := !ShouldRetry(up.outcome(attempt)) && paused;
    trip := Trip(o, wait.Some?, attempt + 1, if recovered then Some(Recovery(attempt, totalWaited)) else None);
  }

  /**
   * Sends a request until an attempt does not continue. The result is that attempt's
   * outcome with its body intact, except that a wait cut short by cancellation comes
   * back with the context's error and a drained body. No attempt is sent before the
   * deadline it finds at the gate, and the gate is extended by exactly this request's
   * Sonar rate limits, besides what the others do; what all of them report as added
   * is the time the gate was closed.
   */
  method RoundTrip(t: Transport, up: Upstream, gate: RateLimitGate?)
    returns (trip: Trip, sent: seq<int>, waits: seq<int>, events: seq<Event>, ghost blocked: int)
    modifies gate
    ensures gate != null ==> blocked == old(gate.blocked)
    ensures Ends(t, up, trip)
    ensures IsFaithful(t, up, gate != null, blocked, trip, sent, waits, events,
                       if gate != null then gate.blocked else DeadlineAt(t, up, blocked, trip.attempts))
    ensures sent == SendTimes(t, up, gate != null, blocked, trip.attempts) && waits == Waits(t, up, trip.attempts - 1)
    ensures events == Events(t, up, gate != null, blocked, trip.attempts)
    ensures gate != null ==> gate.blocked == DeadlineAt(t, up, blocked, trip.attempts)
    ensures var history := Extensions(t, up, trip.attempts);
            gate != null && ClockAdvances(blocked, history)
            ==> SonarAdded(events) + OthersAdded(t, up, blocked, trip.attempts) == |Paused(history)|
  {
    hide IsFaithful;
    blocked := if gate != null then gate.blocked else 0;
    var attempt, paused, totalWaited := 0, false, 0;
    sent, waits, events := [], [], [];
    while true
      invariant attempt <= t.LongestSchedule() && AllContinue(t, up, attempt)
      invariant sent == SendTimes(t, up, gate != null, blocked, attempt) && waits == Waits(t, up, attempt)
      invariant paused == PausedBefore(up, attempt) && totalWaited == RateLimitWaits(t, up, attempt)
      invariant events == Events(t, up, gate != null, blocked, attempt)
      invariant gate != null ==> gate.blocked == DeadlineAt(t, up, blocked, attempt)
      decreases t.LongestSchedule() - attempt
    {
      var o, wait;
      o, wait, sent, events := Attempt(t, up, attempt, gate, blocked, sent, events);
      if wait.None? || up.cancelled(attempt) {
        trip := Finish(t, up, attempt, o, wait, paused, totalWaited);
        EveryTripIsFaithful(t, up, gate != null, blocked, trip);
        if gate != null && ClockAdvances(blocked, Extensions(t, up, attempt + 1)) {
          ReportedTimeIsPausedTime(t, up, blocked, attempt + 1);
        }
        return;
      }
      PlannedWaitContinues(t, up, attempt);
      waits, paused, totalWaited := WaitOut(t, up, attempt, wait.value, waits, paused, totalWaited);
      attempt := attempt + 1;
    }
  }
}

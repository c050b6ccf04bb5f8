/**
 * The sliding-window rate limiter: a FIFO of waiters and the timestamps of the calls
 * granted within the trailing window. Every mutex-held body is one step.
 */
module RateLimiter {
  /** A waiter's notification channel, numbered in order of arrival. */
  type Waiter = nat

  /** One millisecond, in nanoseconds. */
  const MILLISECOND := 1000000

  datatype Grant = Grant(waiter: Waiter, time: int)

  /**
   * The limiter's fields, and what surrounds it: which waiters sleep in their select,
   * which channels hold an unread notification, and the history of grants and
   * departures.
   */
  datatype State = State(
    maxPerMinute: nat, window: nat,
    timestamps: seq<int>, queue: seq<Waiter>, tokens: set<Waiter>,
    arrivals: nat, asleep: set<Waiter>, clock: int,
    grants: seq<Grant>, cancelled: set<Waiter>)

  datatype Step =
    | Enqueue
    | TryAcquire(ch: Waiter, now: int)
    | WakeByToken(ch: Waiter)
    | WakeByTimer(ch: Waiter)
    | Cancel(ch: Waiter)

  function Start(maxPerMinute: int, window: nat, now: int): (s: State) {
    State(if maxPerMinute <= 0 then 1 else maxPerMinute, window, [], [], {}, 0, {}, now, [], {})
  }

  // ---------------------------------------------------------------------------
  // The step functions

  /** The timestamps left after dropping the stale prefix. */
  function Purge(timestamps: seq<int>, cutoff: int): (kept: seq<int>) {
    if timestamps != [] && timestamps[0] < cutoff then Purge(timestamps[1..], cutoff) else timestamps
  }

  function WithHeadWoken(queue: seq<Waiter>, tokens: set<Waiter>): (woken: set<Waiter>) {
    if queue == [] then tokens else tokens + {queue[0]}
  }

  function WaitFor(timestamps: seq<int>, window: nat, now: int): (wait: int) {
    if timestamps == [] then MILLISECOND
    else if timestamps[0] + window - now <= 0 then MILLISECOND
    else timestamps[0] + window - now
  }

  function Kept(s: State, now: int): (kept: seq<int>) {
    Purge(s.timestamps, now - s.window)
  }

  predicate Grants(s: State, ch: Waiter, now: int) {
    |Kept(s, now)| < s.maxPerMinute && s.queue != [] && s.queue[0] == ch
  }

  function AfterTry(s: State, ch: Waiter, now: int): (t: State) {
    var kept := Kept(s, now);
    if Grants(s, ch, now) then
      s.(timestamps := kept + [now], queue := s.queue[1..], tokens := WithHeadWoken(s.queue[1..], s.tokens),
         asleep := s.asleep - {ch}, clock := now, grants := s.grants + [Grant(ch, now)])
    else
      s.(timestamps := kept, tokens := if |kept| < s.maxPerMinute then WithHeadWoken(s.queue, s.tokens) else s.tokens,
         asleep := s.asleep + {ch}, clock := now)
  }

  /** The queue without the first occurrence of `ch`. */
  function Removed(queue: seq<Waiter>, ch: Waiter): (rest: seq<Waiter>) {
    if queue == [] then [] else if queue[0] == ch then queue[1..] else [queue[0]] + Removed(queue[1..], ch)
  }

  function AfterDequeue(s: State, ch: Waiter): (t: State) {
    if ch in s.queue then
      var rest := Removed(s.queue, ch);
      s.(queue := rest, tokens := WithHeadWoken(rest, s.tokens), asleep := s.asleep - {ch},
         cancelled := s.cancelled + {ch})
    else s
  }

  /** A waiter retries while it is awake and queued; a sleeping one wakes or gives up. */
  predicate Enabled(s: State, step: Step) {
    match step
    case Enqueue => true
    case TryAcquire(ch, now) => ch in s.queue && ch !in s.asleep && s.clock <= now
    case WakeByToken(ch) => ch in s.queue && ch in s.asleep && ch in s.tokens
    case WakeByTimer(ch) => ch in s.queue && ch in s.asleep
    case Cancel(ch) => ch in s.queue && ch in s.asleep
  }

  function Apply(s: State, step: Step): (after: State) {
    match step
    case Enqueue => s.(queue := s.queue + [s.arrivals], arrivals := s.arrivals + 1)
    case TryAcquire(ch, now) => AfterTry(s, ch, now)
    case WakeByToken(ch) => s.(tokens := s.tokens - {ch}, asleep := s.asleep - {ch})
    case WakeByTimer(ch) => s.(asleep := s.asleep - {ch})
    case Cancel(ch) => AfterDequeue(s, ch)
  }

  predicate IsRun(s: State, steps: seq<Step>)
    decreases |steps|
  {
    steps == [] || (Enabled(s, steps[0]) && IsRun(Apply(s, steps[0]), steps[1..]))
  }

  function Run(s: State, steps: seq<Step>): (after: State)
    decreases |steps|
  {
    if steps == [] then s else Run(Apply(s, steps[0]), steps[1..])
  }

  // ---------------------------------------------------------------------------
  // The limiter itself

  class SlidingWindowLimiter {
    const maxPerMinute: nat
    const window: nat
    var timestamps: seq<int>
    var queue: seq<Waiter>
    /** Channels with a notification in their one-place buffer. */
    var tokens: set<Waiter>
    var arrivals: nat

    constructor (maxPerMinute: int, window: nat)
      ensures forall now :: Matches(Start(maxPerMinute, window, now))
    {
      this.maxPerMinute := if maxPerMinute <= 0 then 1 else maxPerMinute;
      this.window := window;
      timestamps, queue, tokens, arrivals := [], [], {}, 0;
    }

    /** The fields are those of `s`. */
    ghost predicate Matches(s: State)
      reads this
    {
      && s.maxPerMinute == maxPerMinute && s.window == window
      && s.timestamps == timestamps && s.queue == queue && s.tokens == tokens && s.arrivals == arrivals
    }

    method Enqueue(ghost s: State) returns (ch: Waiter)
      requires Matches(s)
      modifies this
      ensures Matches(Apply(s, Step.Enqueue)) && ch == s.arrivals
    {
      ch := arrivals;
      arrivals := arrivals + 1;
      queue := queue + [ch];
    }

    method WakeHead()
      modifies this`tokens
      ensures tokens == WithHeadWoken(queue, old(tokens))
    {
      if |queue| != 0 {
        tokens := tokens + {queue[0]};
      }
    }

    method TryAcquire(ch: Waiter, now: int, ghost s: State) returns (wait: int)
      requires Matches(s)
      modifies this
      ensures Matches(Apply(s, Step.TryAcquire(ch, now)))
      ensures wait == if Grants(s, ch, now) then 0 else WaitFor(Kept(s, now), window, now)
    {
      var cutoff := now - window;
      var i := 0;
      while i < |timestamps| && timestamps[i] < cutoff
        invariant i <= |timestamps|
        invariant Purge(timestamps, cutoff) == Purge(timestamps[i..], cutoff)
      {
        assert timestamps[i..][1..] == timestamps[i + 1..];
        i := i + 1;
      }
      timestamps := timestamps[i..];
      if |timestamps| < maxPerMinute && |queue| > 0 && queue[0] == ch {
        timestamps := timestamps + [now];
        queue := queue[1..];
        WakeHead();
        return 0;
      }
      if |timestamps| < maxPerMinute {
        WakeHead();
      }
      if |timestamps| == 0 {
        return MILLISECOND;
      }
      wait := timestamps[0] + window - now;
      if wait <= 0 {
        wait := MILLISECOND;
      }
    }

    /** Removes a waiter that gives up; one already granted is gone and nothing changes. */
    method Dequeue(ch: Waiter, ghost s: State)
      requires Matches(s)
      modifies this
      ensures Matches(AfterDequeue(s, ch))
    {
      for i := 0 to |queue|
        invariant queue == old(queue) && tokens == old(tokens)
        invariant forall j | 0 <= j < i :: queue[j] != ch
      {
        if queue[i] == ch {
          RemovedAt(queue, ch, i);
          queue := queue[..i] + queue[i + 1..];
          WakeHead();
          return;
        }
      }
    }
  }

  // ---------------------------------------------------------------------------
  // What every step keeps

  ghost predicate Sorted(times: seq<int>) {
    forall a, b | 0 <= a < b < |times| :: times[a] <= times[b]
  }

  /** The stored timestamps are those of the latest grants; every earlier grant has left the window. */
  ghost predicate RemembersWindow(window: nat, timestamps: seq<int>, grants: seq<Grant>, clock: int) {
    var dropped := |grants| - |timestamps|;
    && 0 <= dropped
    && (forall k | 0 <= k < |timestamps| :: timestamps[k] == grants[dropped + k].time)
    && (forall a, b | 0 <= a < b < |grants| :: grants[a].time <= grants[b].time)
    && (forall k | 0 <= k < |grants| :: grants[k].time <= clock)
    && (forall k | 0 <= k < dropped :: grants[k].time + window < clock)
  }

  /** Any max + 1 consecutive grants span strictly more than the window. */
  ghost predicate RateHolds(max: nat, window: nat, grants: seq<Grant>) {
    forall a, b | 0 <= a < |grants| && 0 <= b < |grants| && b == a + max :: window < grants[b].time - grants[a].time
  }

  /** The waiters granted so far, in order. */
  function Waiters(grants: seq<Grant>): (waiters: seq<Waiter>) {
    if grants == [] then [] else Waiters(grants[..|grants| - 1]) + [grants[|grants| - 1].waiter]
  }

  ghost predicate Ascending(line: seq<Waiter>) {
    forall a, b | 0 <= a < b < |line| :: line[a] < line[b]
  }

  /**
   * Grants follow arrival order: those granted, then those queued, form one line in
   * order of arrival, and whoever is not in it gave up.
   */
  ghost predicate FirstComeFirstServed(line: seq<Waiter>, arrivals: nat, cancelled: set<Waiter>) {
    && Ascending(line)
    && (forall w | w in line :: w < arrivals)
    && (forall w: Waiter | w < arrivals :: w in line || w in cancelled)
  }

  function Line(s: State): (line: seq<Waiter>) {
    Waiters(s.grants) + s.queue
  }

  /** While a slot is known to be free, the head of the queue is awake or has a notification waiting. */
  ghost predicate NoLostWakeup(s: State) {
    |s.timestamps| < s.maxPerMinute && s.queue != [] ==> s.queue[0] !in s.asleep || s.queue[0] in s.tokens
  }

  ghost predicate Invariant(s: State) {
    && 1 <= s.maxPerMinute && |s.timestamps| <= s.maxPerMinute
    && RemembersWindow(s.window, s.timestamps, s.grants, s.clock)
    && RateHolds(s.maxPerMinute, s.window, s.grants)
    && FirstComeFirstServed(Line(s), s.arrivals, s.cancelled)
    && NoLostWakeup(s)
    && (forall w | w in s.asleep :: w < s.arrivals)
  }

  lemma {:induction false} PurgeIsSuffix(timestamps: seq<int>, cutoff: int)
    ensures var kept := Purge(timestamps, cutoff);
            && |kept| <= |timestamps|
            && kept == timestamps[|timestamps| - |kept|..]
            && (forall k | 0 <= k < |timestamps| - |kept| :: timestamps[k] < cutoff)
            && (kept != [] ==> cutoff <= kept[0])
  {
    if timestamps != [] && timestamps[0] < cutoff {
      PurgeIsSuffix(timestamps[1..], cutoff);
      var kept := Purge(timestamps, cutoff);
      forall k | 0 <= k < |timestamps| - |kept| ensures timestamps[k] < cutoff {
        if 0 < k {
          assert timestamps[k] == timestamps[1..][k - 1];
        }
      }
    }
  }

  lemma PurgeRemembersWindow(window: nat, timestamps: seq<int>, grants: seq<Grant>, clock: int, now: int)
    requires RemembersWindow(window, timestamps, grants, clock) && clock <= now
    ensures RemembersWindow(window, Purge(timestamps, now - window), grants, now)
  {
    var kept := Purge(timestamps, now - window);
    PurgeIsSuffix(timestamps, now - window);
    var dropped := |grants| - |timestamps|;
    forall k | 0 <= k < |grants| - |kept| ensures grants[k].time + window < now {
      if dropped <= k {
        assert timestamps[k - dropped] == grants[dropped + (k - dropped)].time;
      }
    }
  }

  lemma GrantIsRemembered(window: nat, timestamps: seq<int>, grants: seq<Grant>, g: Grant)
    requires RemembersWindow(window, timestamps, grants, g.time)
    ensures RemembersWindow(window, timestamps + [g.time], grants + [g], g.time)
  {
    var all, dropped := grants + [g], |grants| - |timestamps|;
    forall a, b | 0 <= a < b < |all| ensures all[a].time <= all[b].time {
      assert a < |grants| && all[a] == grants[a];
    }
    forall k | 0 <= k < |timestamps| + 1 ensures (timestamps + [g.time])[k] == all[dropped + k].time {
    }
  }

  lemma GrantKeepsRate(max: nat, window: nat, timestamps: seq<int>, grants: seq<Grant>, g: Grant)
    requires 1 <= max && |timestamps| < max
    requires RemembersWindow(window, timestamps, grants, g.time) && RateHolds(max, window, grants)
    ensures RateHolds(max, window, grants + [g])
  {
    var all := grants + [g];
    forall a, b | 0 <= a < |all| && 0 <= b < |all| && b == a + max ensures window < all[b].time - all[a].time {
      if b == |grants| {
        assert a < |grants| - |timestamps| && all[a] == grants[a];
      } else {
        assert all[a] == grants[a] && all[b] == grants[b];
      }
    }
  }

  lemma TryKeepsLine(s: State, ch: Waiter, now: int)
    ensures Line(AfterTry(s, ch, now)) == Line(s)
  {
    var t := AfterTry(s, ch, now);
    if Grants(s, ch, now) {
      assert t.grants[..|t.grants| - 1] == s.grants;
      assert s.queue == [ch] + t.queue;
    }
  }

  function Without(line: seq<Waiter>, k: nat): (rest: seq<Waiter>)
    requires k < |line|
  {
    line[..k] + line[k + 1..]
  }

  lemma WithoutKeepsAscending(line: seq<Waiter>, at: nat)
    requires at < |line| && Ascending(line)
    ensures Ascending(Without(line, at))
  {
    var rest := Without(line, at);
    forall a, b | 0 <= a < b < |rest| ensures rest[a] < rest[b] {
      var i, j := if a < at then a else a + 1, if b < at then b else b + 1;
      assert rest[a] == line[i] && rest[b] == line[j];
    }
  }

  lemma WithoutMembers(line: seq<Waiter>, at: nat)
    requires at < |line|
    ensures forall w :: w in line <==> w in Without(line, at) || w == line[at]
  {
    assert line == line[..at] + [line[at]] + line[at + 1..];
  }

  lemma LeavingKeepsOrder(line: seq<Waiter>, at: nat, arrivals: nat, cancelled: set<Waiter>)
    requires at < |line| && FirstComeFirstServed(line, arrivals, cancelled)
    ensures FirstComeFirstServed(Without(line, at), arrivals, cancelled + {line[at]})
  {
    WithoutKeepsAscending(line, at);
    WithoutMembers(line, at);
  }

  lemma {:induction false} RemovedAt(queue: seq<Waiter>, ch: Waiter, k: nat)
    requires k < |queue| && queue[k] == ch && forall j | 0 <= j < k :: queue[j] != ch
    ensures Removed(queue, ch) == queue[..k] + queue[k + 1..]
    decreases k
  {
    if 0 < k {
      RemovedAt(queue[1..], ch, k - 1);
      assert queue[..k] == [queue[0]] + queue[1..][..k - 1];
      assert queue[1..][k..] == queue[k + 1..];
    }
  }

  lemma {:induction false} FirstPlace(queue: seq<Waiter>, ch: Waiter) returns (k: nat)
    requires ch in queue
    ensures k < |queue| && queue[k] == ch && forall j | 0 <= j < k :: queue[j] != ch
  {
    k := 0;
    if queue[0] != ch {
      var rest := FirstPlace(queue[1..], ch);
      k := rest + 1;
      forall j | 0 <= j < k ensures queue[j] != ch {
        if 0 < j {
          assert queue[j] == queue[1..][j - 1];
        }
      }
    }
  }

  lemma WithoutFromRight(left: seq<Waiter>, right: seq<Waiter>, k: nat)
    requires k < |right|
    ensures left + Without(right, k) == Without(left + right, |left| + k)
  {
    assert (left + right)[..|left| + k] == left + right[..k];
    assert (left + right)[|left| + k + 1..] == right[k + 1..];
    assert left + (right[..k] + right[k + 1..]) == (left + right[..k]) + right[k + 1..];
  }

  /** A waiter that gives up leaves the line from its own place. */
  lemma CancelLeavesLine(s: State, ch: Waiter) returns (at: nat)
    requires ch in s.queue
    ensures at < |Line(s)| && Line(s)[at] == ch
    ensures Line(AfterDequeue(s, ch)) == Without(Line(s), at)
  {
    var k := FirstPlace(s.queue, ch);
    RemovedAt(s.queue, ch, k);
    WithoutFromRight(Waiters(s.grants), s.queue, k);
    at := |Waiters(s.grants)| + k;
  }

  lemma CancelKeepsOrder(s: State, ch: Waiter)
    requires FirstComeFirstServed(Line(s), s.arrivals, s.cancelled) && ch in s.queue
    ensures FirstComeFirstServed(Line(AfterDequeue(s, ch)), s.arrivals, s.cancelled + {ch})
  {
    var at := CancelLeavesLine(s, ch);
    LeavingKeepsOrder(Line(s), at, s.arrivals, s.cancelled);
  }

  lemma EnqueueKeepsOrder(line: seq<Waiter>, arrivals: nat, cancelled: set<Waiter>)
    requires FirstComeFirstServed(line, arrivals, cancelled)
    ensures FirstComeFirstServed(line + [arrivals], arrivals + 1, cancelled)
  {
    forall a | 0 <= a < |line| ensures line[a] < arrivals {
      assert line[a] in line;
    }
    assert forall w | w in line :: w in line + [arrivals];
    assert arrivals in line + [arrivals];
  }

  lemma QueuedHasArrived(s: State, ch: Waiter)
    requires FirstComeFirstServed(Line(s), s.arrivals, s.cancelled) && ch in s.queue
    ensures ch < s.arrivals
  {
    assert ch in Line(s);
  }

  lemma TryKeepsRate(s: State, ch: Waiter, now: int)
    requires 1 <= s.maxPerMinute && |s.timestamps| <= s.maxPerMinute && s.clock <= now
    requires RemembersWindow(s.window, s.timestamps, s.grants, s.clock) && RateHolds(s.maxPerMinute, s.window, s.grants)
    ensures var t := AfterTry(s, ch, now);
            && |t.timestamps| <= s.maxPerMinute
            && RemembersWindow(s.window, t.timestamps, t.grants, now)
            && RateHolds(s.maxPerMinute, s.window, t.grants)
  {
    var kept := Kept(s, now);
    PurgeRemembersWindow(s.window, s.timestamps, s.grants, s.clock, now);
    PurgeIsSuffix(s.timestamps, now - s.window);
    if Grants(s, ch, now) {
      GrantIsRemembered(s.window, kept, s.grants, Grant(ch, now));
      GrantKeepsRate(s.maxPerMinute, s.window, kept, s.grants, Grant(ch, now));
    }
  }

  lemma TryKeepsInvariant(s: State, ch: Waiter, now: int)
    requires Invariant(s) && Enabled(s, TryAcquire(ch, now))
    ensures Invariant(AfterTry(s, ch, now))
  {
    TryKeepsRate(s, ch, now);
    TryKeepsLine(s, ch, now);
    QueuedHasArrived(s, ch);
  }

  lemma StepKeepsInvariant(s: State, step: Step)
    requires Invariant(s) && Enabled(s, step)
    ensures Invariant(Apply(s, step))
  {
    match step
    case Enqueue =>
      EnqueueKeepsOrder(Line(s), s.arrivals, s.cancelled);
      assert Line(Apply(s, step)) == Line(s) + [s.arrivals];
    case TryAcquire(ch, now) => TryKeepsInvariant(s, ch, now);
    case WakeByToken(ch) =>
    case WakeByTimer(ch) =>
    case Cancel(ch) => CancelKeepsOrder(s, ch);
  }

  /** Over every run, from the start: the rate, the order, and no lost wakeup. */
  lemma {:induction false} EveryRunIsSafe(s: State, steps: seq<Step>)
    requires Invariant(s) && IsRun(s, steps)
    ensures Invariant(Run(s, steps))
    ensures Run(s, steps).window == s.window && Run(s, steps).maxPerMinute == s.maxPerMinute
    decreases |steps|
  {
    if steps != [] {
      StepKeepsInvariant(s, steps[0]);
      EveryRunIsSafe(Apply(s, steps[0]), steps[1..]);
    }
  }

  lemma LimiterIsSafe(maxPerMinute: int, window: nat, now: int, steps: seq<Step>)
    requires IsRun(Start(maxPerMinute, window, now), steps)
    ensures var s := Run(Start(maxPerMinute, window, now), steps);
            && s.maxPerMinute == (if maxPerMinute <= 0 then 1 else maxPerMinute)
            && RateHolds(s.maxPerMinute, window, s.grants)
            && FirstComeFirstServed(Line(s), s.arrivals, s.cancelled)
            && NoLostWakeup(s)
            && |s.timestamps| <= s.maxPerMinute && Sorted(s.timestamps)
  {
    EveryRunIsSafe(Start(maxPerMinute, window, now), steps);
  }

  lemma WaitedForHeadIsPurged(kept: seq<int>, window: nat, now: int, later: int)
    requires kept != [] && now + WaitFor(kept, window, now) < later
    ensures |Purge(kept, later - window)| < |kept|
  {
    PurgeIsSuffix(kept[1..], later - window);
  }

  lemma KeptIsRecent(s: State, now: int)
    requires Invariant(s) && s.clock <= now
    ensures |Kept(s, now)| <= s.maxPerMinute
    ensures Kept(s, now) != [] ==> now - s.window <= Kept(s, now)[0] <= now
  {
    PurgeRemembersWindow(s.window, s.timestamps, s.grants, s.clock, now);
    PurgeIsSuffix(s.timestamps, now - s.window);
    var kept := Kept(s, now);
    if kept != [] {
      assert kept[0] == s.grants[|s.grants| - |kept|].time;
    }
  }

  /**
   * A waiter refused at `now` sleeps at most the window (or a millisecond), and at the head of the
   * queue it is granted by any retry past the time it was told to wait for.
   */
  lemma WaitIsLongEnough(s: State, ch: Waiter, now: int, later: int)
    requires Invariant(s) && Enabled(s, TryAcquire(ch, now)) && !Grants(s, ch, now)
    ensures var wait := WaitFor(Kept(s, now), s.window, now);
            && 0 < wait
            && (wait <= s.window || wait == MILLISECOND)
            && var t := AfterTry(s, ch, now);
               now + wait < later && t.queue[0] == ch ==> Grants(t, ch, later)
  {
    KeptIsRecent(s, now);
    var kept := Kept(s, now);
    if now + WaitFor(kept, s.window, now) < later && s.queue[0] == ch {
      WaitedForHeadIsPurged(kept, s.window, now, later);
    }
  }

  /** The head of the queue is granted exactly when the latest grants it must not crowd have left the window. */
  lemma GrantedAsSoonAsAllowed(s: State, ch: Waiter, now: int)
    requires Invariant(s) && s.clock <= now
    ensures Grants(s, ch, now) <==>
              && s.queue != [] && s.queue[0] == ch
              && (|s.grants| < s.maxPerMinute || s.grants[|s.grants| - s.maxPerMinute].time + s.window < now)
  {
    hide Purge, RemembersWindow, RateHolds, FirstComeFirstServed, NoLostWakeup;
    var kept := Kept(s, now);
    PurgeRemembersWindow(s.window, s.timestamps, s.grants, s.clock, now);
    PurgeIsSuffix(s.timestamps, now - s.window);
    RoomInWindow(s.window, kept, s.grants, now, s.maxPerMinute);
  }

  /** Fewer than `max` grants are remembered exactly when the `max`th latest has left the window. */
  lemma RoomInWindow(window: nat, kept: seq<int>, grants: seq<Grant>, now: int, max: nat)
    requires RemembersWindow(window, kept, grants, now) && 1 <= max && (kept != [] ==> now - window <= kept[0])
    ensures |kept| < max <==> |grants| < max || grants[|grants| - max].time + window < now
  {
    if kept != [] {
      assert kept[0] == grants[|grants| - |kept|].time;
    }
  }

  /**
   * Nor does anyone refused at a full window sleep too long: until the wait is over no
   * retry is granted, and it is over when the oldest grant in the window leaves it,
   * except that it is never less than a millisecond.
   */
  lemma WaitIsNotTooLong(s: State, ch: Waiter, now: int, other: Waiter, later: int)
    requires Invariant(s) && Enabled(s, TryAcquire(ch, now)) && |Kept(s, now)| == s.maxPerMinute && now <= later
    ensures 1 <= s.maxPerMinute <= |s.grants|
    ensures var wait, oldest := WaitFor(Kept(s, now), s.window, now), s.grants[|s.grants| - s.maxPerMinute].time;
            && (later <= now + wait && wait != MILLISECOND ==> !Grants(AfterTry(s, ch, now), other, later))
            && (if now < oldest + s.window then now + wait == oldest + s.window else wait == MILLISECOND)
  {
    var kept := Kept(s, now);
    KeptIsRecent(s, now);
    PurgeRemembersWindow(s.window, s.timestamps, s.grants, s.clock, now);
    assert kept[0] == s.grants[|s.grants| - |kept|].time;
    if later <= kept[0] + s.window {
      assert Purge(kept, later - s.window) == kept;
    }
  }
}

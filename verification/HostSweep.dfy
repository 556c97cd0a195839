/** The periodic sweep over one session: stuck containers, crashed work and its retries.

    Times are in milliseconds. A claim whose timestamp cannot be parsed has `None` for its time. */
module HostSweep {
  import opened Options

  type MessageId = string

  const ABSOLUTE_CEILING_MS := 30 * 60 * 1000
  const CLAIM_STUCK_MS := 60 * 1000
  const MAX_TRIES := 5
  const BACKOFF_BASE_MS := 5000

  // ---------------------------------------------------------------------------------------------
  // decideStuckAction
  // ---------------------------------------------------------------------------------------------

  datatype ContainerState = ContainerState(currentTool: Option<string>, declaredTimeoutMs: Option<int>)

  datatype Claim = Claim(messageId: MessageId, claimedAt: Option<int>)

  datatype Decision =
    | Ok
    | KillCeiling(heartbeatAgeMs: int, ceilingMs: int)
    | KillIdle(heartbeatAgeMs: int, thresholdMs: int)
    | KillClaim(messageId: MessageId, claimAgeMs: int, toleranceMs: int)

  function BashTimeoutMs(state: Option<ContainerState>): Option<int> {
    if state.None? || state.value.currentTool != Some("Bash") then None else state.value.declaredTimeoutMs
  }

  function AtLeast(floor: int, declared: Option<int>): int {
    if declared.Some? && declared.value > floor then declared.value else floor
  }

  /** What the sweep sees of a running container. `heartbeat` is 0 when the file is absent. */
  datatype Sight = Sight(now: int, heartbeat: int, bash: Option<int>, idleThreshold: int, claims: seq<Claim>)

  predicate PastCeiling(v: Sight) {
    v.heartbeat != 0 && v.now - v.heartbeat > AtLeast(ABSOLUTE_CEILING_MS, v.bash)
  }

  predicate PastIdle(v: Sight) {
    v.heartbeat != 0 && v.claims == [] && v.bash.None? && v.now - v.heartbeat > v.idleThreshold
  }

  /** Claimed longer ago than tolerated, and no heartbeat since. */
  predicate IsStuck(v: Sight, c: Claim) {
    && c.claimedAt.Some?
    && v.now - c.claimedAt.value > AtLeast(CLAIM_STUCK_MS, v.bash)
    && v.heartbeat <= c.claimedAt.value
  }

  predicate AnyStuck(v: Sight) {
    exists i :: 0 <= i < |v.claims| && IsStuck(v, v.claims[i])
  }

  method DecideStuckAction(v: Sight) returns (d: Decision)
    ensures d.Ok? <==> !PastCeiling(v) && !PastIdle(v) && !AnyStuck(v)
    ensures d.KillCeiling? <==> PastCeiling(v)
    ensures d.KillCeiling? ==> d.heartbeatAgeMs == v.now - v.heartbeat > d.ceilingMs == AtLeast(ABSOLUTE_CEILING_MS, v.bash)
    ensures d.KillIdle? <==> !PastCeiling(v) && PastIdle(v)
    ensures d.KillIdle? ==> d.heartbeatAgeMs == v.now - v.heartbeat > d.thresholdMs == v.idleThreshold
    ensures d.KillClaim? ==> exists i :: FirstStuckAt(v, i) && IsAbout(d, v, v.claims[i])
  {
    if v.heartbeat != 0 {
      var heartbeatAge := v.now - v.heartbeat;
      var ceiling := AtLeast(ABSOLUTE_CEILING_MS, v.bash);
      if heartbeatAge > ceiling {
        return KillCeiling(heartbeatAge, ceiling);
      }
    }
    if v.heartbeat != 0 && |v.claims| == 0 && v.bash.None? {
      var heartbeatAge := v.now - v.heartbeat;
      if heartbeatAge > v.idleThreshold {
        return KillIdle(heartbeatAge, v.idleThreshold);
      }
    }
    var tolerance := AtLeast(CLAIM_STUCK_MS, v.bash);
    for i := 0 to |v.claims|
      invariant forall j :: 0 <= j < i ==> !IsStuck(v, v.claims[j])
    {
      var claim := v.claims[i];
      if claim.claimedAt.None? {
        continue;
      }
      var claimAge := v.now - claim.claimedAt.value;
      if claimAge <= tolerance {
        continue;
      }
      if v.heartbeat > claim.claimedAt.value {
        continue;
      }
      assert FirstStuckAt(v, i);
      return KillClaim(claim.messageId, claimAge, tolerance);
    }
    return Ok;
  }

  /** A kill over this claim, with its age and the tolerance that it exceeds. */
  predicate IsAbout(d: Decision, v: Sight, c: Claim) {
    && d.KillClaim? && c.claimedAt.Some? && d.messageId == c.messageId
    && d.claimAgeMs == v.now - c.claimedAt.value && d.toleranceMs == AtLeast(CLAIM_STUCK_MS, v.bash)
  }

  predicate FirstStuckAt(v: Sight, i: int) {
    0 <= i < |v.claims| && IsStuck(v, v.claims[i]) && forall j :: 0 <= j < i ==> !IsStuck(v, v.claims[j])
  }

  function ClaimDecision(v: Sight, c: Claim): Decision
    requires c.claimedAt.Some?
  {
    KillClaim(c.messageId, v.now - c.claimedAt.value, AtLeast(CLAIM_STUCK_MS, v.bash))
  }

  function FirstStuck(v: Sight, from: nat): (i: Option<nat>)
    requires from <= |v.claims|
    ensures i.None? ==> forall j :: from <= j < |v.claims| ==> !IsStuck(v, v.claims[j])
    ensures i.Some? ==> from <= i.value < |v.claims| && IsStuck(v, v.claims[i.value])
                        && forall j :: from <= j < i.value ==> !IsStuck(v, v.claims[j])
    decreases |v.claims| - from
  {
    if from == |v.claims| then None
    else if IsStuck(v, v.claims[from]) then Some(from)
    else FirstStuck(v, from + 1)
  }

  /** The decision as a function; the contract of `DecideStuckAction` admits no other. */
  function Decide(v: Sight): Decision {
    if PastCeiling(v) then KillCeiling(v.now - v.heartbeat, AtLeast(ABSOLUTE_CEILING_MS, v.bash))
    else if PastIdle(v) then KillIdle(v.now - v.heartbeat, v.idleThreshold)
    else
      var i := FirstStuck(v, 0);
      if i.Some? then ClaimDecision(v, v.claims[i.value]) else Ok
  }

  lemma DecisionIsDetermined(v: Sight, d: Decision)
    requires d.Ok? <==> !PastCeiling(v) && !PastIdle(v) && !AnyStuck(v)
    requires d.KillCeiling? <==> PastCeiling(v)
    requires d.KillCeiling? ==> d.heartbeatAgeMs == v.now - v.heartbeat && d.ceilingMs == AtLeast(ABSOLUTE_CEILING_MS, v.bash)
    requires d.KillIdle? <==> !PastCeiling(v) && PastIdle(v)
    requires d.KillIdle? ==> d.heartbeatAgeMs == v.now - v.heartbeat && d.thresholdMs == v.idleThreshold
    requires d.KillClaim? ==> exists i :: FirstStuckAt(v, i) && IsAbout(d, v, v.claims[i])
    ensures d == Decide(v)
  {
    if d.KillClaim? {
      var i :| FirstStuckAt(v, i) && IsAbout(d, v, v.claims[i]);
      var j := FirstStuck(v, 0);
      assert j == Some(i);
    }
  }

  /** With everything else fixed, a kill stays a kill at every later time. */
  lemma KillIsMonotone(v: Sight, later: int)
    requires v.now <= later && !Decide(v).Ok?
    ensures !Decide(v.(now := later)).Ok?
  {
    var w := v.(now := later);
    if !PastCeiling(v) && !PastIdle(v) {
      var i := FirstStuck(v, 0).value;
      assert IsStuck(w, w.claims[i]);
    }
  }

  /** A container that has just touched its heartbeat is never killed. */
  lemma FreshHeartbeatIsSafe(v: Sight)
    requires v.heartbeat == v.now && v.idleThreshold > 0
    ensures Decide(v).Ok?
  {
  }

  /** While Bash declares a timeout, silence and claims no older than it are tolerated. */
  lemma DeclaredBashIsSafe(v: Sight)
    requires v.bash.Some?
    requires v.heartbeat != 0 ==> v.now - v.heartbeat <= v.bash.value
    requires forall i :: 0 <= i < |v.claims| && v.claims[i].claimedAt.Some? ==>
               v.now - v.claims[i].claimedAt.value <= v.bash.value
    ensures Decide(v).Ok?
  {
  }

  /** The tolerances in numbers: half an hour of silence, a minute for a claim; a timeout that Bash declares counts only
      if it is longer, and what another tool declares not at all. */
  lemma TolerancesOf(tool: Option<ContainerState>, now: int, heartbeat: int, idle: int, claims: seq<Claim>)
    ensures var v := Sight(now, heartbeat, BashTimeoutMs(tool), idle, claims);
            var declared := tool.Some? && tool.value.currentTool == Some("Bash") && tool.value.declaredTimeoutMs.Some?;
            var ms := if declared then tool.value.declaredTimeoutMs.value else 0;
            && (PastCeiling(v) <==> heartbeat != 0 && now - heartbeat > 1800000 && now - heartbeat > ms)
            && (PastIdle(v) <==> heartbeat != 0 && claims == [] && !declared && now - heartbeat > idle)
            && (AnyStuck(v) <==>
                  exists i :: 0 <= i < |claims| && claims[i].claimedAt.Some? && heartbeat <= claims[i].claimedAt.value
                    && now - claims[i].claimedAt.value > 60000 && now - claims[i].claimedAt.value > ms)
  {
    var v := Sight(now, heartbeat, BashTimeoutMs(tool), idle, claims);
    if i :| 0 <= i < |claims| && claims[i].claimedAt.Some? && heartbeat <= claims[i].claimedAt.value
            && now - claims[i].claimedAt.value > 60000
            && now - claims[i].claimedAt.value > AtLeast(0, BashTimeoutMs(tool)) {
      assert IsStuck(v, v.claims[i]);
    }
    if i :| 0 <= i < |v.claims| && IsStuck(v, v.claims[i]) {
      assert v.claims[i] == claims[i];
    }
  }

  // ---------------------------------------------------------------------------------------------
  // One message under retries
  // ---------------------------------------------------------------------------------------------

  datatype Status = Pending | Paused | Failed | Completed

  datatype Row = Row(status: Status, tries: nat, processAfter: Option<int>, trigger: bool)

  function Pow2(n: nat): nat {
    if n == 0 then 1 else 2 * Pow2(n - 1)
  }

  function BackoffSec(tries: nat): nat {
    BACKOFF_BASE_MS * Pow2(tries) / 1000
  }

  /** `datetime('now')` has whole seconds. */
  function FloorSec(ms: int): int {
    ms - ms % 1000
  }

  predicate Retryable(r: Row, now: int) {
    r.status.Pending? && (r.processAfter.Some? ==> r.processAfter.value <= now)
  }

  function ResetRow(r: Row, now: int): Row {
    if !Retryable(r, now) then r
    else if r.tries >= MAX_TRIES then r.(status := Failed)
    else r.(tries := r.tries + 1, processAfter := Some(FloorSec(now) + 1000 * BackoffSec(r.tries)))
  }

  /** Exactly which messages a reset changes, and how: pending ones without a time or with one that has come are put off
      by 5 seconds doubled with each try, or given up after the fifth. */
  lemma ResetChangesIff(r: Row, now: int)
    ensures ResetRow(r, now) != r <==>
              r.status.Pending? && (r.processAfter.None? || r.processAfter.value <= now)
    ensures ResetRow(r, now) != r ==>
              ResetRow(r, now) == if r.tries >= 5 then r.(status := Failed)
                                  else r.(tries := r.tries + 1,
                                          processAfter := Some(now / 1000 * 1000 + 5000 * Pow2(r.tries)))
  {
    assert BACKOFF_BASE_MS * Pow2(r.tries) / 1000 == 5 * Pow2(r.tries);
  }

  function AckRow(r: Row): Row {
    r.(status := Completed)
  }

  /** What can happen to a message: it is inserted; it is claimed by a dead container; its container
      acknowledges it; and the task commands reschedule, pause, resume or cancel it. */
  datatype RowEvent =
    | Inserted(processAfter: Option<int>, trigger: bool)
    | ResetAt(now: int)
    | Acknowledged
    | Rescheduled(to: int)
    | PausedTask
    | ResumedTask
    | Cancelled

  predicate IsOpen(r: Row) {
    r.status.Pending? || r.status.Paused?
  }

  function RowStep(r: Row, e: RowEvent): Row {
    match e
    case Inserted(_, _) => r  // the id is taken
    case ResetAt(now) => ResetRow(r, now)
    case Acknowledged => AckRow(r)
    case Rescheduled(to) => if IsOpen(r) then r.(processAfter := Some(to)) else r
    case PausedTask => if r.status.Pending? then r.(status := Paused) else r
    case ResumedTask => if r.status.Paused? then r.(status := Pending) else r
    case Cancelled => if IsOpen(r) then r.(status := Completed) else r
  }

  function RowRun(r: Row, events: seq<RowEvent>): Row
    decreases |events|
  {
    if events == [] then r else RowRun(RowStep(r, events[0]), events[1..])
  }

  /** The delays, in seconds, that a run of events puts on a message. */
  function Backoffs(r: Row, events: seq<RowEvent>): seq<nat>
    decreases |events|
  {
    if events == [] then []
    else
      var e := events[0];
      (if e.ResetAt? && Retryable(r, e.now) && r.tries < MAX_TRIES then [BackoffSec(r.tries)] else [])
      + Backoffs(RowStep(r, e), events[1..])
  }

  const SCHEDULE: seq<nat> := [5, 10, 20, 40, 80]

  lemma ScheduleIsBackoff(i: nat)
    requires i < MAX_TRIES
    ensures |SCHEDULE| == MAX_TRIES && SCHEDULE[i] == BackoffSec(i)
  {
    assert Pow2(0) == 1 && Pow2(1) == 2 && Pow2(2) == 4 && Pow2(3) == 8 && Pow2(4) == 16;
  }

  lemma ScheduleHead(from: nat, to: nat)
    requires from < to <= MAX_TRIES
    ensures |SCHEDULE| == MAX_TRIES && SCHEDULE[from..to] == [BackoffSec(from)] + SCHEDULE[from + 1..to]
  {
    ScheduleIsBackoff(from);
  }

  predicate OnSchedule(r: Row) {
    r.tries <= MAX_TRIES && (r.status.Failed? ==> r.tries == MAX_TRIES)
  }

  lemma StepStaysOnSchedule(r: Row, e: RowEvent)
    requires OnSchedule(r)
    ensures var next := RowStep(r, e);
            && OnSchedule(next)
            && next.tries == r.tries + if e.ResetAt? && Retryable(r, e.now) && r.tries < MAX_TRIES then 1 else 0
  {
  }

  /** In every run a message is delayed by 5, 10, 20, 40 and 80 seconds, in this order, and only
      then fails; the try counter never passes five. */
  lemma {:induction false} RetriesFollowSchedule(r: Row, events: seq<RowEvent>)
    requires OnSchedule(r)
    ensures OnSchedule(RowRun(r, events)) && r.tries <= RowRun(r, events).tries
    ensures |SCHEDULE| == MAX_TRIES && Backoffs(r, events) == SCHEDULE[r.tries..RowRun(r, events).tries]
    decreases |events|
  {
    if events != [] {
      var next := RowStep(r, events[0]);
      StepStaysOnSchedule(r, events[0]);
      RetriesFollowSchedule(next, events[1..]);
      var last := RowRun(r, events).tries;
      if next.tries == r.tries + 1 {
        ScheduleHead(r.tries, last);
      } else {
        assert Backoffs(r, events) == [] + Backoffs(next, events[1..]);
      }
    }
  }

  lemma FloorKeepsWholeSeconds(t: int, now: int)
    requires t % 1000 == 0 && t <= now
    ensures t <= FloorSec(now) && FloorSec(now) % 1000 == 0
  {
  }

  lemma BackoffIsFiveTimes(tries: nat)
    ensures BackoffSec(tries) == 5 * Pow2(tries)
  {
  }

  /** The message waits at least for the delays of the tries it has had since `start`. */
  predicate Waits(r: Row, start: int) {
    && IsOpen(r) && 1 <= r.tries <= MAX_TRIES
    && r.processAfter.Some? && r.processAfter.value % 1000 == 0
    && r.processAfter.value >= FloorSec(start) + 5000 * (Pow2(r.tries) - 1)
  }

  lemma ResetKeepsWaiting(r: Row, now: int, start: int)
    requires Waits(r, start)
    ensures ResetRow(r, now).status.Failed? ==> now >= FloorSec(start) + 155000
    ensures !ResetRow(r, now).status.Failed? ==> Waits(ResetRow(r, now), start)
  {
    if Retryable(r, now) {
      FloorKeepsWholeSeconds(r.processAfter.value, now);
      if r.tries < MAX_TRIES {
        BackoffIsFiveTimes(r.tries);
      } else {
        FivePowers();
      }
    }
  }

  lemma FivePowers()
    ensures Pow2(5) == 32
  {
    assert Pow2(1) == 2 && Pow2(2) == 4 && Pow2(3) == 8 && Pow2(4) == 16;
  }

  /** All delays of the schedule together. */
  const TOTAL_BACKOFF_MS := 155000

  predicate LateReset(e: RowEvent, time: int) {
    e.ResetAt? && e.now >= time
  }

  predicate AnyLate(events: seq<RowEvent>, time: int) {
    exists i :: 0 <= i < |events| && LateReset(events[i], time)
  }

  lemma LateInRest(events: seq<RowEvent>, time: int)
    requires events != [] && AnyLate(events[1..], time)
    ensures AnyLate(events, time)
  {
    var i :| 0 <= i < |events[1..]| && LateReset(events[1..][i], time);
    assert LateReset(events[i + 1], time);
  }

  predicate IsReschedule(e: RowEvent) {
    e.Rescheduled?
  }

  predicate NeverRescheduled(events: seq<RowEvent>) {
    forall i :: 0 <= i < |events| ==> !IsReschedule(events[i])
  }

  lemma RestNeverRescheduled(events: seq<RowEvent>)
    requires events != [] && NeverRescheduled(events)
    ensures NeverRescheduled(events[1..])
  {
    assert forall i :: 0 <= i < |events[1..]| ==> events[1..][i] == events[i + 1];
  }

  lemma OtherEventKeepsWaiting(r: Row, e: RowEvent, start: int)
    requires Waits(r, start) && !e.ResetAt? && !IsReschedule(e)
    ensures RowStep(r, e).status.Completed? || Waits(RowStep(r, e), start)
  {
  }

  /** A message that is never rescheduled and whose first reset is at `start` is not given up before 155
      seconds have passed. */
  lemma {:induction false} NotFailedBeforeTotalBackoff(r: Row, events: seq<RowEvent>, start: int)
    requires Waits(r, start) && RowRun(r, events).status.Failed? && NeverRescheduled(events)
    ensures AnyLate(events, FloorSec(start) + TOTAL_BACKOFF_MS)
    decreases |events|
  {
    var e := events[0];
    var next := RowStep(r, e);
    assert !IsReschedule(events[0]);
    RestNeverRescheduled(events);
    if next.status.Completed? { CompletedIsFinal(next, events[1..]); }
    if e.ResetAt? {
      ResetKeepsWaiting(r, e.now, start);
    } else {
      OtherEventKeepsWaiting(r, e, start);
    }
    if next.status.Failed? {
      assert LateReset(events[0], FloorSec(start) + TOTAL_BACKOFF_MS);
    } else {
      NotFailedBeforeTotalBackoff(next, events[1..], start);
      LateInRest(events, FloorSec(start) + TOTAL_BACKOFF_MS);
    }
  }

  /** Sweeps are `interval` apart, but the first one of a process comes at once. The resets among these events
      come so after `last`, with at most `restarts` of them right after a restart. */
  predicate Paced(events: seq<RowEvent>, last: int, interval: nat, restarts: nat)
    decreases |events|
  {
    if events == [] then true
    else if !events[0].ResetAt? then Paced(events[1..], last, interval, restarts)
    else
      var now := events[0].now;
      && last <= now
      && ((last + interval <= now && Paced(events[1..], now, interval, restarts))
          || (restarts > 0 && Paced(events[1..], now, interval, restarts - 1)))
  }

  /** The time that `resets` of them take. */
  function Span(interval: nat, resets: int, restarts: nat): nat {
    if resets <= restarts then 0 else interval * (resets - restarts)
  }

  lemma SpanOfOneMore(interval: nat, resets: nat, restarts: nat)
    ensures Span(interval, resets + 1, restarts) <= interval + Span(interval, resets, restarts)
    ensures restarts > 0 ==> Span(interval, resets + 1, restarts) == Span(interval, resets, restarts - 1)
    ensures Span(interval, resets, restarts) <= Span(interval, resets + 1, restarts)
  {
    if resets > restarts {
      assert interval * (resets + 1 - restarts) == interval * (resets - restarts) + interval;
    }
  }

  /** The tries that are left take that time, however often the message is rescheduled. */
  lemma {:induction false} PacedFailsLate(r: Row, events: seq<RowEvent>, last: int, interval: nat, restarts: nat)
    requires OnSchedule(r) && !r.status.Failed? && RowRun(r, events).status.Failed?
    requires Paced(events, last, interval, restarts)
    ensures AnyLate(events, last + Span(interval, MAX_TRIES + 1 - r.tries, restarts))
    decreases |events|
  {
    var e, next := events[0], RowStep(r, events[0]);
    var time := last + Span(interval, MAX_TRIES + 1 - r.tries, restarts);
    StepStaysOnSchedule(r, e);
    SpanOfOneMore(interval, MAX_TRIES - r.tries, restarts);
    if next.status.Failed? {
      assert LateReset(events[0], time);
    } else if !e.ResetAt? {
      PacedFailsLate(next, events[1..], last, interval, restarts);
      LateInRest(events, time);
    } else {
      var long := last + interval <= e.now && Paced(events[1..], e.now, interval, restarts);
      var left := if long then restarts else restarts - 1;
      PacedFailsLate(next, events[1..], e.now, interval, left);
      if left < restarts && next.tries == r.tries { SpanOfOneMore(interval, MAX_TRIES + 1 - r.tries, restarts); }
      LateIsEarlier(events[1..], e.now + Span(interval, MAX_TRIES + 1 - next.tries, left), time);
      LateInRest(events, time);
    }
  }

  lemma LateIsEarlier(events: seq<RowEvent>, late: int, time: int)
    requires AnyLate(events, late) && time <= late
    ensures AnyLate(events, time)
  {
    var i :| 0 <= i < |events| && LateReset(events[i], late);
    assert LateReset(events[i], time);
  }

  /** What keeps a message for the whole 155 seconds: nobody reschedules it, or its resets take that long. */
  predicate Unhurried(events: seq<RowEvent>, interval: nat, restarts: nat) {
    NeverRescheduled(events) || Span(interval, MAX_TRIES, restarts) >= TOTAL_BACKOFF_MS
  }

  /** They start with the first reset of a fresh message. */
  lemma FreshMessageLastsTotalBackoff(r: Row, start: int, events: seq<RowEvent>, interval: nat, restarts: nat)
    requires r.tries == 0 && Retryable(r, start)
    requires RowRun(ResetRow(r, start), events).status.Failed?
    requires Paced(events, start, interval, restarts) && Unhurried(events, interval, restarts)
    ensures AnyLate(events, FloorSec(start) + TOTAL_BACKOFF_MS)
  {
    var first := ResetRow(r, start);
    assert BackoffSec(0) == 5 && Pow2(1) == 2 * Pow2(0);
    assert first.processAfter == Some(FloorSec(start) + 5000) && first.tries == 1;
    if NeverRescheduled(events) {
      assert FloorSec(start) % 1000 == 0;
      NotFailedBeforeTotalBackoff(first, events, start);
    } else {
      PacedFailsLate(first, events, start, interval, restarts);
      LateIsEarlier(events, start + Span(interval, MAX_TRIES, restarts), FloorSec(start) + TOTAL_BACKOFF_MS);
    }
  }

  /** A paused task is left alone by resets and taken up again as it was; a cancelled one is over. */
  lemma PausedIsLeftAlone(r: Row, now: int, events: seq<RowEvent>)
    requires r.status.Pending?
    ensures RowStep(RowStep(RowStep(r, PausedTask), ResetAt(now)), ResumedTask) == r
    ensures !IsDue(RowStep(r, PausedTask), now)
    ensures RowRun(RowStep(r, Cancelled), events) == r.(status := Completed)
    ensures RowRun(RowStep(RowStep(r, PausedTask), Cancelled), events) == r.(status := Completed)
  {
    CompletedIsFinal(r.(status := Completed), events);
  }

  /** No event raises this rank; a reset of a message that may be retried lowers it, and so does an
      acknowledgement of one that is not yet completed. */
  function Rank(r: Row): nat
    requires r.tries <= MAX_TRIES
  {
    match r.status
    case Pending => 2 + MAX_TRIES - r.tries
    case Paused => 2 + MAX_TRIES - r.tries
    case Failed => 1
    case Completed => 0
  }

  lemma EventsLowerRank(r: Row, e: RowEvent)
    requires r.tries <= MAX_TRIES
    ensures var next := RowStep(r, e);
            && next.tries <= MAX_TRIES && Rank(next) <= Rank(r)
            && (e.ResetAt? || e.Acknowledged? || e.Cancelled? ==> next == r || Rank(next) < Rank(r))
            && (e.ResetAt? && Retryable(r, e.now) ==> Rank(next) < Rank(r))
  {
  }

  lemma {:induction false} CompletedIsFinal(r: Row, events: seq<RowEvent>)
    requires r.status.Completed?
    ensures RowRun(r, events) == r
    decreases |events|
  {
    if events != [] {
      CompletedIsFinal(RowStep(r, events[0]), events[1..]);
    }
  }

  /** No reset ever revives a failed message. What does is an acknowledgement that arrives late. */
  lemma {:induction false} FailedIsFinalIffNeverAcknowledged(r: Row, events: seq<RowEvent>)
    requires r.status.Failed?
    ensures RowRun(r, events) == r <==> Acknowledged !in events
    ensures Acknowledged in events ==> RowRun(r, events) == AckRow(r)
    decreases |events|
  {
    if events != [] {
      assert events == [events[0]] + events[1..];
      if events[0].Acknowledged? {
        CompletedIsFinal(AckRow(r), events[1..]);
      } else {
        FailedIsFinalIffNeverAcknowledged(r, events[1..]);
      }
    }
  }

  // ---------------------------------------------------------------------------------------------
  // One message from its insertion on
  // ---------------------------------------------------------------------------------------------

  /** The message under an id, if there is one yet. */
  function LifeStep(o: Option<Row>, e: RowEvent): Option<Row> {
    if o.Some? then Some(RowStep(o.value, e))
    else if e.Inserted? then Some(Row(Pending, 0, e.processAfter, e.trigger))
    else None
  }

  function Life(o: Option<Row>, events: seq<RowEvent>): Option<Row>
    decreases |events|
  {
    if events == [] then o else Life(LifeStep(o, events[0]), events[1..])
  }

  function LifeBackoffs(o: Option<Row>, events: seq<RowEvent>): seq<nat>
    decreases |events|
  {
    if events == [] then []
    else if o.Some? then Backoffs(o.value, events)
    else LifeBackoffs(LifeStep(o, events[0]), events[1..])
  }

  lemma {:induction false} LifeOfRow(r: Row, events: seq<RowEvent>)
    ensures Life(Some(r), events) == Some(RowRun(r, events))
    decreases |events|
  {
    if events != [] { LifeOfRow(RowStep(r, events[0]), events[1..]); }
  }

  lemma {:induction false} LifeSplits(o: Option<Row>, a: seq<RowEvent>, b: seq<RowEvent>)
    ensures Life(o, a + b) == Life(Life(o, a), b)
    decreases |a|
  {
    if a == [] {
      assert a + b == b;
    } else {
      assert (a + b)[1..] == a[1..] + b;
      LifeSplits(LifeStep(o, a[0]), a[1..], b);
    }
  }

  lemma LifeSplitsInThree(o: Option<Row>, a: seq<RowEvent>, b: seq<RowEvent>, c: seq<RowEvent>)
    ensures Life(o, a + b + c) == Life(Life(Life(o, a), b), c)
  {
    LifeSplits(o, a + b, c);
    LifeSplits(o, a, b);
  }

  predicate IsNew(o: Option<Row>) {
    o.Some? ==> o.value.status.Pending? && o.value.tries == 0
  }

  /** From its insertion on, a message is put off along the schedule and fails only at its end. */
  lemma {:induction false} LifeFollowsSchedule(o: Option<Row>, events: seq<RowEvent>)
    requires IsNew(o)
    ensures |SCHEDULE| == MAX_TRIES
    ensures Life(o, events).Some? ==>
              var final := Life(o, events).value;
              && final.tries <= MAX_TRIES
              && LifeBackoffs(o, events) == SCHEDULE[..final.tries]
              && (final.status.Failed? ==> LifeBackoffs(o, events) == SCHEDULE)
    decreases |events|
  {
    assert SCHEDULE[..0] == [] && SCHEDULE[..MAX_TRIES] == SCHEDULE;
    if o.Some? {
      LifeOfRow(o.value, events);
      RetriesFollowSchedule(o.value, events);
    } else if events != [] {
      LifeFollowsSchedule(LifeStep(o, events[0]), events[1..]);
    }
  }

  /** A reset and, the whole schedule later, another one. */
  predicate Lasts(events: seq<RowEvent>) {
    exists i :: 0 <= i < |events| && events[i].ResetAt?
                && AnyLate(events[i + 1..], FloorSec(events[i].now) + TOTAL_BACKOFF_MS)
  }

  lemma LastsInRest(events: seq<RowEvent>)
    requires events != [] && Lasts(events[1..])
    ensures Lasts(events)
  {
    var rest := events[1..];
    var i :| 0 <= i < |rest| && rest[i].ResetAt? && AnyLate(rest[i + 1..], FloorSec(rest[i].now) + TOTAL_BACKOFF_MS);
    assert rest[i + 1..] == events[i + 1 + 1..] && events[i + 1] == rest[i];
  }

  lemma {:induction false} PacedIsMonotone(events: seq<RowEvent>, last: int, earlier: int, interval: nat, few: nat,
      restarts: nat)
    requires Paced(events, last, interval, few) && earlier <= last && few <= restarts
    ensures Paced(events, earlier, interval, restarts)
    decreases |events|
  {
    if events != [] {
      if !events[0].ResetAt? {
        PacedIsMonotone(events[1..], last, earlier, interval, few, restarts);
      } else {
        var now := events[0].now;
        if Paced(events[1..], now, interval, few) {
          PacedIsMonotone(events[1..], now, now, interval, few, restarts);
        }
        if few > 0 && Paced(events[1..], now, interval, few - 1) {
          PacedIsMonotone(events[1..], now, now, interval, few - 1, restarts - 1);
        }
      }
    }
  }

  predicate IsUntried(o: Option<Row>) {
    o.Some? ==> o.value.tries == 0 && !o.value.status.Failed?
  }

  /** A message that is given up has been on its schedule for 155 seconds. */
  lemma {:induction false} LifeLasts(o: Option<Row>, events: seq<RowEvent>, last: int, interval: nat, restarts: nat)
    requires IsUntried(o) && Paced(events, last, interval, restarts) && Unhurried(events, interval, restarts)
    requires Life(o, events).Some? && Life(o, events).value.status.Failed?
    ensures Lasts(events)
    decreases |events|
  {
    var e, rest := events[0], events[1..];
    if NeverRescheduled(events) { RestNeverRescheduled(events); }
    if o.Some? && e.ResetAt? && Retryable(o.value, e.now) {
      LifeOfRow(ResetRow(o.value, e.now), rest);
      PacedFromReset(events, last, interval, restarts);
      FreshMessageLastsTotalBackoff(o.value, e.now, rest, interval, restarts);
      assert events[0].ResetAt? && AnyLate(events[0 + 1..], FloorSec(events[0].now) + TOTAL_BACKOFF_MS);
    } else {
      if e.ResetAt? { PacedFromReset(events, last, interval, restarts); }
      LifeLasts(LifeStep(o, e), rest, if e.ResetAt? then e.now else last, interval, restarts);
      LastsInRest(events);
    }
  }

  lemma PacedFromReset(events: seq<RowEvent>, last: int, interval: nat, restarts: nat)
    requires events != [] && events[0].ResetAt? && Paced(events, last, interval, restarts)
    ensures Paced(events[1..], events[0].now, interval, restarts)
  {
    var now := events[0].now;
    if restarts > 0 && Paced(events[1..], now, interval, restarts - 1) {
      PacedIsMonotone(events[1..], now, now, interval, restarts - 1, restarts);
    }
  }

  /** A reset within four seconds of another changes nothing, unless the row became due only in between. */
  lemma SecondResetIsIdle(r: Row, now: int, again: int)
    requires now <= again <= now + 4000
    ensures ResetRow(ResetRow(r, now), again) == ResetRow(r, now) <==> !(Retryable(r, again) && !Retryable(r, now))
  {
    if Retryable(r, now) && r.tries < MAX_TRIES {
      BackoffIsPositive(r.tries);
    }
  }

  lemma {:induction false} BackoffIsPositive(tries: nat)
    ensures Pow2(tries) >= 1 && BackoffSec(tries) >= 5
  {
    if tries > 0 {
      BackoffIsPositive(tries - 1);
    }
  }

  // ---------------------------------------------------------------------------------------------
  // The rows of a session
  // ---------------------------------------------------------------------------------------------

  type Rows = map<MessageId, Row>

  /** getMessageForRetry finds pending rows only; an unknown id is skipped. */
  function ResetOne(rows: Rows, m: MessageId, now: int): Rows {
    if m in rows then rows[m := ResetRow(rows[m], now)] else rows
  }

  function ResetAll(rows: Rows, claims: seq<Claim>, now: int): Rows {
    if claims == [] then rows else ResetAll(ResetOne(rows, claims[0].messageId, now), claims[1..], now)
  }

  function Sync(rows: Rows, done: seq<MessageId>): Rows {
    if done == [] then rows
    else Sync(if done[0] in rows then rows[done[0] := AckRow(rows[done[0]])] else rows, done[1..])
  }

  function At(rows: Rows, m: MessageId): Option<Row> {
    if m in rows then Some(rows[m]) else None
  }

  /** What happens to the messages while something else is awaited, by message. */
  type Changes = map<MessageId, seq<RowEvent>>

  function ChangesOf(changes: Changes, m: MessageId): seq<RowEvent> {
    if m in changes then changes[m] else []
  }

  function Change(rows: Rows, changes: Changes): Rows {
    map m | m in rows.Keys + changes.Keys && Life(At(rows, m), ChangesOf(changes, m)).Some?
      :: Life(At(rows, m), ChangesOf(changes, m)).value
  }

  lemma ChangeIsPerMessage(rows: Rows, changes: Changes, m: MessageId)
    ensures At(Change(rows, changes), m) == Life(At(rows, m), ChangesOf(changes, m))
  {
  }

  /** A message that arrives is pending, untried, and due and silent as it was sent. */
  lemma InsertedMessage(rows: Rows, changes: Changes, m: MessageId, processAfter: Option<int>, trigger: bool)
    requires m !in rows && ChangesOf(changes, m) == [Inserted(processAfter, trigger)]
    ensures At(Change(rows, changes), m) == Some(Row(Pending, 0, processAfter, trigger))
  {
    ChangeIsPerMessage(rows, changes, m);
    LifeOfOne(None, Inserted(processAfter, trigger));
  }

  predicate Claimed(claims: seq<Claim>, m: MessageId) {
    exists i :: 0 <= i < |claims| && claims[i].messageId == m
  }

  lemma ResetTwiceAtOnce(r: Row, now: int)
    ensures ResetRow(ResetRow(r, now), now) == ResetRow(r, now)
  {
    SecondResetIsIdle(r, now, now);
  }

  lemma ClaimedHead(claims: seq<Claim>, m: MessageId)
    requires claims != []
    ensures Claimed(claims, m) <==> claims[0].messageId == m || Claimed(claims[1..], m)
  {
    if i :| 0 <= i < |claims| && claims[i].messageId == m {
      assert i > 0 ==> claims[1..][i - 1].messageId == m;
    }
    if i :| 0 <= i < |claims[1..]| && claims[1..][i].messageId == m {
      assert claims[i + 1].messageId == m;
    }
  }

  /** A reset pass works on each claimed message once, whatever the order of the claims and even if
      one is listed twice, and leaves every other message alone. */
  lemma {:induction false} ResetAllIsPerMessage(rows: Rows, claims: seq<Claim>, now: int)
    ensures var rows' := ResetAll(rows, claims, now);
            && rows'.Keys == rows.Keys
            && forall m :: m in rows ==>
                 rows'[m] == if Claimed(claims, m) then ResetRow(rows[m], now) else rows[m]
    decreases |claims|
  {
    if claims != [] {
      ResetAllIsPerMessage(ResetOne(rows, claims[0].messageId, now), claims[1..], now);
      forall m | m in rows
        ensures ResetAll(rows, claims, now)[m] == if Claimed(claims, m) then ResetRow(rows[m], now) else rows[m]
      {
        ClaimedHead(claims, m);
        ResetTwiceAtOnce(rows[m], now);
      }
    }
  }

  /** Repeating a reset at once changes no message, whether or not the claims were deleted between. */
  lemma ResetIsIdempotent(rows: Rows, claims: seq<Claim>, now: int, left: seq<Claim>)
    requires left == claims || left == []
    ensures ResetAll(ResetAll(rows, claims, now), left, now) == ResetAll(rows, claims, now)
  {
    var once := ResetAll(rows, claims, now);
    ResetAllIsPerMessage(rows, claims, now);
    ResetAllIsPerMessage(once, left, now);
    forall m | m in rows
      ensures ResetAll(once, left, now)[m] == once[m]
    {
      ResetTwiceAtOnce(rows[m], now);
    }
  }

  lemma {:induction false} SyncIsPerMessage(rows: Rows, done: seq<MessageId>)
    ensures var rows' := Sync(rows, done);
            && rows'.Keys == rows.Keys
            && forall m :: m in rows ==> rows'[m] == if m in done then AckRow(rows[m]) else rows[m]
    decreases |done|
  {
    if done != [] {
      SyncIsPerMessage(if done[0] in rows then rows[done[0] := AckRow(rows[done[0]])] else rows, done[1..]);
      assert done == [done[0]] + done[1..];
    }
  }

  // ---------------------------------------------------------------------------------------------
  // A sweep pass
  // ---------------------------------------------------------------------------------------------

  /** What the databases, the heartbeat file and the runner say about the session. */
  datatype Session = Session(
    rows: Rows,
    claims: seq<Claim>,        // processing_ack rows in status processing
    done: seq<MessageId>,      // processing_ack rows in status completed or failed
    heartbeat: int,
    tool: Option<ContainerState>,
    running: bool)

  /** What the surroundings decide during one pass. `woken` is how the session looks when
      `await wakeContainer` comes back, and `later` the time then. */
  datatype Surroundings = Surroundings(
    now: int,
    later: int,
    idleThreshold: int,
    outboundOpens: bool,
    woken: Woken,
    claimsDeletable: bool)

  /** `changes` are those to the messages during the wake: new ones arrive, tasks are rescheduled. */
  datatype Woken = Woken(
    running: bool,
    heartbeat: int,
    claims: seq<Claim>,
    done: seq<MessageId>,
    tool: Option<ContainerState>,
    changes: Changes)

  datatype Outcome = Outcome(session: Session, woke: bool, decision: Option<Decision>, killed: bool)

  predicate IsDue(r: Row, now: int) {
    r.status.Pending? && r.trigger && (r.processAfter.Some? ==> FloorSec(r.processAfter.value) <= FloorSec(now))
  }

  predicate AnyDue(rows: Rows, now: int) {
    exists m :: m in rows && IsDue(rows[m], now)
  }

  function ResetSession(s: Session, env: Surroundings): Session {
    s.(rows := ResetAll(s.rows, s.claims, env.later), claims := if env.claimsDeletable then [] else s.claims)
  }

  function SightOf(s: Session, env: Surroundings): Sight {
    Sight(env.later, s.heartbeat, BashTimeoutMs(s.tool), env.idleThreshold, s.claims)
  }

  function AfterWake(s: Session, env: Surroundings): Session {
    Session(Change(s.rows, env.woken.changes), env.woken.claims, env.woken.done, env.woken.heartbeat, env.woken.tool,
            env.woken.running)
  }

  function Pass(s0: Session, env: Surroundings): Outcome {
    var s1 := if env.outboundOpens then s0.(rows := Sync(s0.rows, s0.done)) else s0;
    var woke := AnyDue(s1.rows, env.now) && !s1.running;
    var s2 := if woke then AfterWake(s1, env) else s1;
    if !env.outboundOpens then Outcome(s2, woke, None, false)
    else if !s2.running then Outcome(ResetSession(s2, env), woke, None, false)
    else
      var d := Decide(SightOf(s2, env));
      match d
      case Ok => Outcome(s2, woke, Some(d), false)
      case KillIdle(_, _) => Outcome(s2, woke, Some(d), true)
      case _ => Outcome(ResetSession(s2, env), woke, Some(d), true)
  }

  /** The row under an id after the acknowledgements of the pass, which are seen only if the outbound database opens. */
  predicate IsLeftOpen(s: Session, env: Surroundings, m: MessageId) {
    m in s.rows && s.rows[m].status.Pending? && !(env.outboundOpens && m in s.done)
  }

  /** Exactly when a pass wakes a container: none runs, and a pending message that is not accumulated silently has
      no time or one whose whole second has come. */
  lemma PassWakesIff(s: Session, env: Surroundings)
    ensures Pass(s, env).woke <==>
              !s.running && exists m :: (IsLeftOpen(s, env, m) && s.rows[m].trigger
                && (s.rows[m].processAfter.Some? ==> s.rows[m].processAfter.value / 1000 <= env.now / 1000))
  {
    SyncIsPerMessage(s.rows, s.done);
    var s1 := if env.outboundOpens then s.(rows := Sync(s.rows, s.done)) else s;
    forall m | m in s.rows
      ensures s.rows[m].processAfter.Some? ==>
                (FloorSec(s.rows[m].processAfter.value) <= FloorSec(env.now)
                 <==> s.rows[m].processAfter.value / 1000 <= env.now / 1000)
    {
      if s.rows[m].processAfter.Some? { WholeSeconds(s.rows[m].processAfter.value, env.now); }
    }
    if m :| IsLeftOpen(s, env, m) && s.rows[m].trigger
            && (s.rows[m].processAfter.Some? ==> s.rows[m].processAfter.value / 1000 <= env.now / 1000) {
      assert s1.rows[m] == s.rows[m] && IsDue(s1.rows[m], env.now);
    }
    if m :| m in s1.rows && IsDue(s1.rows[m], env.now) {
      assert s1.rows[m] == s.rows[m] && IsLeftOpen(s, env, m);
    }
  }

  lemma WholeSeconds(a: int, b: int)
    ensures FloorSec(a) <= FloorSec(b) <==> a / 1000 <= b / 1000
  {
    assert FloorSec(a) == 1000 * (a / 1000) && FloorSec(b) == 1000 * (b / 1000);
  }

  /** A new message for a stopped session wakes it in the next pass. */
  lemma NewMessageWakes(s: Session, env: Surroundings, m: MessageId)
    requires !s.running && m !in s.done && m in s.rows && s.rows[m] == Row(Pending, 0, None, true)
    ensures Pass(s, env).woke
  {
    PassWakesIff(s, env);
    assert IsLeftOpen(s, env, m);
  }

  /** Silently accumulated messages alone never do. */
  lemma SilentMessagesWakeNobody(s: Session, env: Surroundings)
    requires forall m :: m in s.rows ==> !s.rows[m].trigger
    ensures !Pass(s, env).woke
  {
    PassWakesIff(s, env);
  }

  /** Exactly when a pass kills: the outbound database opens, a container runs after the wake, and one of the three
      conditions holds for what the session looks like then. A quiet one without claims leaves the messages alone. */
  lemma PassKillsIff(s: Session, env: Surroundings)
    ensures var s2 := BeforeReset(s, env);
            var v := SightOf(s2, env);
            && (Pass(s, env).killed <==>
                  env.outboundOpens && s2.running && (PastCeiling(v) || PastIdle(v) || AnyStuck(v)))
            && (Pass(s, env).killed && !PastCeiling(v) && PastIdle(v) ==> Pass(s, env).session == s2)
  {
  }

  /** A claim that nothing has vouched for since, past the tolerance under this tool. */
  predicate IsOld(c: Claim, now: int, tool: Option<ContainerState>) {
    c.claimedAt.Some? && c.claimedAt.value >= 0 && now - c.claimedAt.value > AtLeast(CLAIM_STUCK_MS, BashTimeoutMs(tool))
  }

  predicate AnyOld(claims: seq<Claim>, now: int, tool: Option<ContainerState>) {
    exists i :: 0 <= i < |claims| && IsOld(claims[i], now, tool)
  }

  /** The wake of this pass starts a container, which has not yet run: its heartbeat file has just been
      removed, and the claims are still those of the container before. */
  predicate StartsFresh(s: Session, env: Surroundings) {
    Pass(s, env).woke && env.woken.running && env.woken.heartbeat == 0 && env.woken.claims == s.claims
  }

  /** Such a container is killed in the same pass exactly when an old claim was left over. */
  lemma FreshContainerKilledIffOldClaim(s: Session, env: Surroundings)
    requires env.outboundOpens && StartsFresh(s, env)
    ensures Pass(s, env).killed <==> AnyOld(s.claims, env.later, env.woken.tool)
  {
    var v := Sight(env.later, 0, BashTimeoutMs(env.woken.tool), env.idleThreshold, s.claims);
    assert SightOf(AfterWake(s.(rows := Sync(s.rows, s.done)), env), env) == v;
    assert forall i :: 0 <= i < |s.claims| ==> (IsStuck(v, v.claims[i]) <==> IsOld(s.claims[i], env.later, env.woken.tool));
  }

  /** Recovery: a pass that kills over claims or silence puts every claimed message off or gives it up. The
      container that the next pass wakes is killed again exactly if the claims could not be deleted and one of
      them is old by then. */
  lemma KillRepeatsIff(s: Session, env: Surroundings, next: Session, env2: Surroundings)
    requires Pass(s, env).killed && !Pass(s, env).decision.value.KillIdle?
    requires next == Pass(s, env).session.(running := false)  // the killed container has exited
    requires env2.outboundOpens && StartsFresh(next, env2)
    ensures forall m :: m in next.rows && Claimed(BeforeReset(s, env).claims, m) ==> !Retryable(next.rows[m], env.later)
    ensures Pass(next, env2).killed <==>
              !env.claimsDeletable && AnyOld(BeforeReset(s, env).claims, env2.later, env2.woken.tool)
  {
    var s2 := BeforeReset(s, env);
    PassInStages(s, env);
    ResetAllIsPerMessage(s2.rows, s2.claims, env.later);
    forall m | m in s2.rows
      ensures !Retryable(ResetRow(s2.rows[m], env.later), env.later)
    {
      if Retryable(s2.rows[m], env.later) { BackoffIsPositive(s2.rows[m].tries); }
    }
    FreshContainerKilledIffOldClaim(next, env2);
  }

  /** The session as the last steps of the pass find it. */
  function BeforeReset(s0: Session, env: Surroundings): Session {
    var s1 := if env.outboundOpens then s0.(rows := Sync(s0.rows, s0.done)) else s0;
    if AnyDue(s1.rows, env.now) && !s1.running then AfterWake(s1, env) else s1
  }

  predicate Resets(s0: Session, env: Surroundings) {
    var o := Pass(s0, env);
    env.outboundOpens && (o.decision.None? || o.decision.value.KillCeiling? || o.decision.value.KillClaim?)
  }

  lemma PassInStages(s: Session, env: Surroundings)
    ensures var s2 := BeforeReset(s, env);
            Pass(s, env).session == if Resets(s, env) then ResetSession(s2, env) else s2
  {
  }

  predicate Wakes(s0: Session, env: Surroundings) {
    var s1 := if env.outboundOpens then s0.(rows := Sync(s0.rows, s0.done)) else s0;
    AnyDue(s1.rows, env.now) && !s1.running
  }

  function AcksOfPass(s: Session, env: Surroundings, m: MessageId): seq<RowEvent> {
    if env.outboundOpens && m in s.done then [Acknowledged] else []
  }

  function ChangesOfPass(s: Session, env: Surroundings, m: MessageId): seq<RowEvent> {
    if Wakes(s, env) then ChangesOf(env.woken.changes, m) else []
  }

  function ResetsOfPass(s: Session, env: Surroundings, m: MessageId): seq<RowEvent> {
    if Resets(s, env) && Claimed(BeforeReset(s, env).claims, m) then [ResetAt(env.later)] else []
  }

  /** What one pass does to one message: an acknowledgement it found, then whatever happens to it during
      the wake, then a reset of its claim. */
  function EventsOfPass(s: Session, env: Surroundings, m: MessageId): seq<RowEvent> {
    AcksOfPass(s, env, m) + ChangesOfPass(s, env, m) + ResetsOfPass(s, env, m)
  }

  lemma AckedRow(s: Session, env: Surroundings, m: MessageId)
    ensures var s1 := if env.outboundOpens then s.(rows := Sync(s.rows, s.done)) else s;
            At(s1.rows, m) == Life(At(s.rows, m), AcksOfPass(s, env, m))
  {
    SyncIsPerMessage(s.rows, s.done);
    assert [Acknowledged][1..] == [];
    assert Life(LifeStep(At(s.rows, m), Acknowledged), []) == LifeStep(At(s.rows, m), Acknowledged);
    assert Life(At(s.rows, m), [Acknowledged]) == Life(LifeStep(At(s.rows, m), [Acknowledged][0]), [Acknowledged][1..]);
  }

  lemma ResetRowOfPass(s: Session, env: Surroundings, m: MessageId)
    ensures At(Pass(s, env).session.rows, m) == Life(At(BeforeReset(s, env).rows, m), ResetsOfPass(s, env, m))
  {
    PassInStages(s, env);
    var s2 := BeforeReset(s, env);
    ResetAllIsPerMessage(s2.rows, s2.claims, env.later);
    var reset := [ResetAt(env.later)];
    assert reset[1..] == [];
    assert Life(At(s2.rows, m), reset) == Life(LifeStep(At(s2.rows, m), reset[0]), reset[1..]);
  }

  lemma PassIsARowRun(s: Session, env: Surroundings, m: MessageId)
    ensures At(Pass(s, env).session.rows, m) == Life(At(s.rows, m), EventsOfPass(s, env, m))
  {
    AckedRow(s, env, m);
    var s1 := if env.outboundOpens then s.(rows := Sync(s.rows, s.done)) else s;
    ChangeIsPerMessage(s1.rows, env.woken.changes, m);
    ResetRowOfPass(s, env, m);
    LifeSplitsInThree(At(s.rows, m), AcksOfPass(s, env, m), ChangesOfPass(s, env, m), ResetsOfPass(s, env, m));
  }

  /** One tick of the sweep. Since the tick before, everything may have changed but the rows, and those by
      row events. */
  datatype Tick = Tick(changes: Changes, seen: Session, env: Surroundings, first: bool)  // first of its process

  function Seen(rows: Rows, tick: Tick): Session {
    tick.seen.(rows := Change(rows, tick.changes))
  }

  function RowsAfter(rows: Rows, ticks: seq<Tick>): Rows
    decreases |ticks|
  {
    if ticks == [] then rows
    else RowsAfter(Pass(Seen(rows, ticks[0]), ticks[0].env).session.rows, ticks[1..])
  }

  function EventsOfTick(rows: Rows, tick: Tick, m: MessageId): seq<RowEvent> {
    ChangesOf(tick.changes, m) + EventsOfPass(Seen(rows, tick), tick.env, m)
  }

  function EventsOfTicks(rows: Rows, ticks: seq<Tick>, m: MessageId): seq<RowEvent>
    decreases |ticks|
  {
    if ticks == [] then []
    else
      EventsOfTick(rows, ticks[0], m)
      + EventsOfTicks(Pass(Seen(rows, ticks[0]), ticks[0].env).session.rows, ticks[1..], m)
  }

  lemma {:induction false} TicksAreARowRun(rows: Rows, ticks: seq<Tick>, m: MessageId)
    ensures At(RowsAfter(rows, ticks), m) == Life(At(rows, m), EventsOfTicks(rows, ticks, m))
    decreases |ticks|
  {
    if ticks != [] {
      var s := Seen(rows, ticks[0]);
      var after := Pass(s, ticks[0].env).session.rows;
      ChangeIsPerMessage(rows, ticks[0].changes, m);
      PassIsARowRun(s, ticks[0].env, m);
      TicksAreARowRun(after, ticks[1..], m);
      LifeSplits(At(rows, m), ChangesOf(ticks[0].changes, m), EventsOfPass(s, ticks[0].env, m));
      LifeSplits(At(rows, m), EventsOfTick(rows, ticks[0], m), EventsOfTicks(after, ticks[1..], m));
    }
  }

  /** Over any number of sweeps, whatever crashes, wakes, acknowledgements, insertions and task commands
      come between them and during their wakes, every message that was new or not yet there is put off
      along the schedule and fails only at its end. */
  lemma SweepsFollowSchedule(rows: Rows, ticks: seq<Tick>, m: MessageId)
    requires IsNew(At(rows, m))
    ensures |SCHEDULE| == MAX_TRIES
    ensures m in RowsAfter(rows, ticks) ==>
              var final := RowsAfter(rows, ticks)[m];
              var backoffs := LifeBackoffs(At(rows, m), EventsOfTicks(rows, ticks, m));
              && final.tries <= MAX_TRIES && backoffs == SCHEDULE[..final.tries]
              && (final.status.Failed? ==> backoffs == SCHEDULE)
  {
    TicksAreARowRun(rows, ticks, m);
    LifeFollowsSchedule(At(rows, m), EventsOfTicks(rows, ticks, m));
  }

  // ---------------------------------------------------------------------------------------------
  // The sweeps in time
  // ---------------------------------------------------------------------------------------------

  /** The local scheduler waits so long after a tick has ended. */
  const SWEEP_INTERVAL_MS := 60 * 1000

  predicate OnTime(ticks: seq<Tick>, last: int, interval: nat)
    decreases |ticks|
  {
    ticks == []
    || (&& last + (if ticks[0].first then 0 else interval) <= ticks[0].env.now <= ticks[0].env.later
        && OnTime(ticks[1..], ticks[0].env.later, interval))
  }

  function Starts(ticks: seq<Tick>): nat {
    if ticks == [] then 0 else (if ticks[0].first then 1 else 0) + Starts(ticks[1..])
  }

  predicate NoResets(events: seq<RowEvent>) {
    forall i :: 0 <= i < |events| ==> !events[i].ResetAt?
  }

  /** Nothing but a sweep resets messages. */
  ghost predicate OnlySweepsReset(ticks: seq<Tick>) {
    forall i, m :: 0 <= i < |ticks| ==>
      NoResets(ChangesOf(ticks[i].changes, m)) && NoResets(ChangesOf(ticks[i].env.woken.changes, m))
  }

  lemma {:induction false} PacedAfterQuiet(a: seq<RowEvent>, b: seq<RowEvent>, last: int, interval: nat, restarts: nat)
    requires NoResets(a)
    ensures Paced(a + b, last, interval, restarts) == Paced(b, last, interval, restarts)
    decreases |a|
  {
    if a == [] {
      assert a + b == b;
    } else {
      assert (a + b)[1..] == a[1..] + b && (a + b)[0] == a[0];
      PacedAfterQuiet(a[1..], b, last, interval, restarts);
    }
  }

  /** The events of a tick before its reset. */
  function Before(rows: Rows, tick: Tick, m: MessageId): seq<RowEvent> {
    var s := Seen(rows, tick);
    ChangesOf(tick.changes, m) + AcksOfPass(s, tick.env, m) + ChangesOfPass(s, tick.env, m)
  }

  lemma BeforeIsQuiet(rows: Rows, tick: Tick, m: MessageId)
    requires NoResets(ChangesOf(tick.changes, m)) && NoResets(ChangesOf(tick.env.woken.changes, m))
    ensures NoResets(Before(rows, tick, m))
  {
  }

  lemma TickInParts(rows: Rows, tick: Tick, m: MessageId, rest: seq<RowEvent>)
    ensures EventsOfTick(rows, tick, m) + rest
         == Before(rows, tick, m) + (ResetsOfPass(Seen(rows, tick), tick.env, m) + rest)
  {
    var s := Seen(rows, tick);
    FourParts(ChangesOf(tick.changes, m), AcksOfPass(s, tick.env, m), ChangesOfPass(s, tick.env, m),
              ResetsOfPass(s, tick.env, m), rest);
  }

  lemma FourParts<T>(a: seq<T>, b: seq<T>, c: seq<T>, d: seq<T>, rest: seq<T>)
    ensures a + (b + c + d) + rest == a + b + c + (d + rest)
  {
  }

  lemma TickIsPaced(rows: Rows, tick: Tick, rest: seq<RowEvent>, m: MessageId, last: int, interval: nat, few: nat)
    requires NoResets(ChangesOf(tick.changes, m)) && NoResets(ChangesOf(tick.env.woken.changes, m))
    requires last + (if tick.first then 0 else interval) <= tick.env.now <= tick.env.later
    requires Paced(rest, tick.env.later, interval, few)
    ensures Paced(EventsOfTick(rows, tick, m) + rest, last, interval, few + if tick.first then 1 else 0)
  {
    var before, resets := Before(rows, tick, m), ResetsOfPass(Seen(rows, tick), tick.env, m);
    BeforeIsQuiet(rows, tick, m);
    TickInParts(rows, tick, m, rest);
    PacedAfterQuiet(before, resets + rest, last, interval, few + if tick.first then 1 else 0);
    PacedByReset(resets, rest, tick.env.later, tick.first, last, interval, few);
  }

  lemma PacedByReset(resets: seq<RowEvent>, rest: seq<RowEvent>, now: int, first: bool, last: int, interval: nat,
      few: nat)
    requires resets == [] || resets == [ResetAt(now)]
    requires last + (if first then 0 else interval) <= now && Paced(rest, now, interval, few)
    ensures Paced(resets + rest, last, interval, few + if first then 1 else 0)
  {
    if resets == [] {
      assert resets + rest == rest;
      PacedIsMonotone(rest, now, last, interval, few, few + if first then 1 else 0);
    } else {
      assert (resets + rest)[1..] == rest && (resets + rest)[0] == ResetAt(now);
    }
  }

  lemma {:induction false} TicksArePaced(rows: Rows, ticks: seq<Tick>, m: MessageId, last: int, interval: nat)
    requires OnTime(ticks, last, interval) && OnlySweepsReset(ticks)
    ensures Paced(EventsOfTicks(rows, ticks, m), last, interval, Starts(ticks))
    decreases |ticks|
  {
    if ticks != [] {
      var tick, rest := ticks[0], ticks[1..];
      var after := Pass(Seen(rows, tick), tick.env).session.rows;
      assert OnlySweepsReset(rest) by {
        assert forall i :: 0 <= i < |rest| ==> rest[i] == ticks[i + 1];
      }
      TicksArePaced(after, rest, m, tick.env.later, interval);
      TickIsPaced(rows, tick, EventsOfTicks(after, rest, m), m, last, interval, Starts(rest));
    }
  }

  /** Over any number of sweeps on time, a message that ends up failed had a reset, and another one 155 seconds
      later, if it was never rescheduled or the sweeps of its tries take that long. */
  lemma SweepsLastTotalBackoff(rows: Rows, ticks: seq<Tick>, m: MessageId, last: int, interval: nat)
    requires IsNew(At(rows, m)) && OnTime(ticks, last, interval) && OnlySweepsReset(ticks)
    requires Unhurried(EventsOfTicks(rows, ticks, m), interval, Starts(ticks))
    requires m in RowsAfter(rows, ticks) && RowsAfter(rows, ticks)[m].status.Failed?
    ensures Lasts(EventsOfTicks(rows, ticks, m))
  {
    TicksAreARowRun(rows, ticks, m);
    TicksArePaced(rows, ticks, m, last, interval);
    LifeLasts(At(rows, m), EventsOfTicks(rows, ticks, m), last, interval, Starts(ticks));
  }

  /** Sweeps on time, of which at most `restarts` come right after a restart, give up a new message early. */
  ghost predicate GivesUpEarly(rows: Rows, ticks: seq<Tick>, m: MessageId, last: int, interval: nat, restarts: nat) {
    && IsNew(At(rows, m)) && OnTime(ticks, last, interval) && OnlySweepsReset(ticks) && Starts(ticks) <= restarts
    && m in RowsAfter(rows, ticks) && RowsAfter(rows, ticks)[m].status.Failed?
    && !Lasts(EventsOfTicks(rows, ticks, m))
  }

  lemma EarlyNeedsHurry(rows: Rows, ticks: seq<Tick>, m: MessageId, last: int, interval: nat, restarts: nat)
    requires GivesUpEarly(rows, ticks, m, last, interval, restarts)
    ensures Span(interval, MAX_TRIES, restarts) < TOTAL_BACKOFF_MS
  {
    SpanIsMonotone(interval, Starts(ticks), restarts);
    if Span(interval, MAX_TRIES, restarts) >= TOTAL_BACKOFF_MS {
      SweepsLastTotalBackoff(rows, ticks, m, last, interval);
    }
  }

  lemma SpanIsMonotone(interval: nat, few: nat, restarts: nat)
    requires few <= restarts
    ensures Span(interval, MAX_TRIES, restarts) <= Span(interval, MAX_TRIES, few)
  {
    if restarts < MAX_TRIES {
      assert interval * (MAX_TRIES - few) == interval * (MAX_TRIES - restarts) + interval * (restarts - few);
    }
  }

  /** A tick that finds the message put forward and claimed by a dead container. A wake fails, and the claim
      cannot be deleted. */
  function HurryingTick(m: MessageId, t: int, first: bool): Tick {
    var claims := [Claim(m, Some(0))];
    Tick(map[m := [Rescheduled(t)]],
         Session(map[], claims, [], 0, None, false),
         Surroundings(t, t, 0, true, Woken(false, 0, claims, [], None, map[]), false),
         first)
  }

  /** As many of them as that, as soon as they can come. */
  function HurryingTicks(m: MessageId, ticks: nat, last: int, interval: nat, restarts: nat): seq<Tick>
    decreases ticks
  {
    if ticks == 0 then []
    else if restarts > 0 then
      [HurryingTick(m, last, true)] + HurryingTicks(m, ticks - 1, last, interval, restarts - 1)
    else
      [HurryingTick(m, last + interval, false)] + HurryingTicks(m, ticks - 1, last + interval, interval, 0)
  }

  function HurriedRow(r: Row, t: int): Row {
    ResetRow(r.(processAfter := Some(t)), t)
  }

  lemma HurryingTickResets(rows: Rows, m: MessageId, t: int, first: bool)
    requires m in rows && rows[m].status.Pending?
    ensures var tick := HurryingTick(m, t, first);
            && EventsOfTick(rows, tick, m) == [Rescheduled(t), ResetAt(t)]
            && At(Pass(Seen(rows, tick), tick.env).session.rows, m) == Some(HurriedRow(rows[m], t))
  {
    var tick := HurryingTick(m, t, first);
    var s := Seen(rows, tick);
    assert s.claims[0].messageId == m && BeforeReset(s, tick.env).claims == s.claims;
    assert ResetsOfPass(s, tick.env, m) == [ResetAt(t)];
    assert EventsOfPass(s, tick.env, m) == [ResetAt(t)];
    ChangeIsPerMessage(rows, tick.changes, m);
    PassIsARowRun(s, tick.env, m);
    LifeOfOne(At(rows, m), Rescheduled(t));
    LifeOfOne(At(s.rows, m), ResetAt(t));
  }

  lemma LifeOfOne(o: Option<Row>, e: RowEvent)
    ensures Life(o, [e]) == LifeStep(o, e)
  {
    assert [e][0] == e && [e][1..] == [];
    assert Life(LifeStep(o, e), []) == LifeStep(o, e);
  }

  predicate ResetsWithin(events: seq<RowEvent>, from: int, to: int) {
    forall i :: 0 <= i < |events| && events[i].ResetAt? ==> from <= events[i].now <= to
  }

  lemma {:induction false} HurryingTicksAreOnTime(m: MessageId, ticks: nat, last: int, interval: nat, restarts: nat)
    ensures var run := HurryingTicks(m, ticks, last, interval, restarts);
            OnTime(run, last, interval) && OnlySweepsReset(run) && Starts(run) <= restarts
    decreases ticks
  {
    if ticks > 0 {
      var t, few := if restarts > 0 then last else last + interval, if restarts > 0 then restarts - 1 else 0;
      var tick, rest := HurryingTick(m, t, restarts > 0), HurryingTicks(m, ticks - 1, t, interval, few);
      HurryingTicksAreOnTime(m, ticks - 1, t, interval, few);
      assert HurryingTicks(m, ticks, last, interval, restarts) == [tick] + rest;
      OneMoreTickOnTime(tick, rest, last, interval);
      OneMoreSweep(m, t, restarts > 0, rest);
    }
  }

  lemma OneMoreTickOnTime(tick: Tick, rest: seq<Tick>, last: int, interval: nat)
    requires last + (if tick.first then 0 else interval) <= tick.env.now <= tick.env.later
    requires OnTime(rest, tick.env.later, interval)
    ensures OnTime([tick] + rest, last, interval)
    ensures Starts([tick] + rest) == Starts(rest) + if tick.first then 1 else 0
  {
    assert ([tick] + rest)[1..] == rest;
  }

  lemma OneMoreSweep(m: MessageId, t: int, first: bool, rest: seq<Tick>)
    requires OnlySweepsReset(rest)
    ensures OnlySweepsReset([HurryingTick(m, t, first)] + rest)
  {
    var ticks := [HurryingTick(m, t, first)] + rest;
    forall i, x | 0 <= i < |ticks|
      ensures NoResets(ChangesOf(ticks[i].changes, x)) && NoResets(ChangesOf(ticks[i].env.woken.changes, x))
    {
      if i > 0 { assert ticks[i] == rest[i - 1]; }
    }
  }

  /** The row that so many counted resets give up. */
  predicate IsGivenUpAfter(r: Row, resets: nat) {
    if resets == 0 then r.status.Failed? else r.status.Pending? && r.tries + resets == MAX_TRIES + 1
  }

  lemma HurriedRowIsCloser(r: Row, t: int, resets: nat)
    requires resets > 0 && IsGivenUpAfter(r, resets)
    ensures IsGivenUpAfter(HurriedRow(r, t), resets - 1)
  {
  }

  /** These ticks give the message up, by resets between those times. */
  predicate GivesUp(rows: Rows, ticks: seq<Tick>, m: MessageId, from: int, to: int) {
    && m in RowsAfter(rows, ticks) && RowsAfter(rows, ticks)[m].status.Failed?
    && ResetsWithin(EventsOfTicks(rows, ticks, m), from, to)
  }

  lemma OneMoreGivesUp(rows: Rows, rest: seq<Tick>, m: MessageId, t: int, first: bool, to: int, last: int)
    requires m in rows && rows[m].status.Pending? && last <= t <= to
    requires var tick := HurryingTick(m, t, first); GivesUp(Pass(Seen(rows, tick), tick.env).session.rows, rest, m, t, to)
    ensures GivesUp(rows, [HurryingTick(m, t, first)] + rest, m, last, to)
  {
    var tick := HurryingTick(m, t, first);
    HurryingTickResets(rows, m, t, first);
    OneMoreHurry(rows, tick, rest, m, t);
    WithinWider([Rescheduled(t), ResetAt(t)],
                EventsOfTicks(Pass(Seen(rows, tick), tick.env).session.rows, rest, m), t, to, last);
  }

  /** They give the message up, in the shortest time that such sweeps can take. */
  lemma {:induction false} HurryingTicksGiveUp(rows: Rows, m: MessageId, ticks: nat, last: int, interval: nat,
      restarts: nat)
    requires m in rows && IsGivenUpAfter(rows[m], ticks)
    ensures GivesUp(rows, HurryingTicks(m, ticks, last, interval, restarts), m, last, last + Span(interval, ticks, restarts))
    decreases ticks, 0
  {
    if ticks > 0 {
      var first := restarts > 0;
      var t, few := if first then last else last + interval, if first then restarts - 1 else 0;
      var to := t + Span(interval, ticks - 1, few);
      HurriedRowIsCloser(rows[m], t, ticks);
      HurriedTicksGiveUp(rows, m, t, first, ticks - 1, interval, few);
      OneMoreGivesUp(rows, HurryingTicks(m, ticks - 1, t, interval, few), m, t, first, to, last);
      SpanOfHurry(interval, ticks, restarts);
      FirstHurryingTick(m, ticks, last, interval, restarts);
    }
  }

  lemma HurriedTicksGiveUp(rows: Rows, m: MessageId, t: int, first: bool, ticks: nat, interval: nat, restarts: nat)
    requires m in rows && rows[m].status.Pending? && IsGivenUpAfter(HurriedRow(rows[m], t), ticks)
    ensures var tick := HurryingTick(m, t, first);
            GivesUp(Pass(Seen(rows, tick), tick.env).session.rows, HurryingTicks(m, ticks, t, interval, restarts), m, t,
                    t + Span(interval, ticks, restarts))
    decreases ticks, 1
  {
    HurryingTickResets(rows, m, t, first);
    var tick := HurryingTick(m, t, first);
    HurryingTicksGiveUp(Pass(Seen(rows, tick), tick.env).session.rows, m, ticks, t, interval, restarts);
  }

  lemma FirstHurryingTick(m: MessageId, ticks: nat, last: int, interval: nat, restarts: nat)
    requires ticks > 0
    ensures var first := restarts > 0;
            var t := if first then last else last + interval;
            HurryingTicks(m, ticks, last, interval, restarts)
            == [HurryingTick(m, t, first)] + HurryingTicks(m, ticks - 1, t, interval, if first then restarts - 1 else 0)
  {
  }

  lemma SpanOfHurry(interval: nat, ticks: nat, restarts: nat)
    requires ticks > 0
    ensures Span(interval, ticks, restarts)
         == if restarts > 0 then Span(interval, ticks - 1, restarts - 1) else interval + Span(interval, ticks - 1, 0)
  {
  }

  lemma OneMoreHurry(rows: Rows, tick: Tick, rest: seq<Tick>, m: MessageId, t: int)
    requires EventsOfTick(rows, tick, m) == [Rescheduled(t), ResetAt(t)]
    ensures var after := Pass(Seen(rows, tick), tick.env).session.rows;
            && RowsAfter(rows, [tick] + rest) == RowsAfter(after, rest)
            && EventsOfTicks(rows, [tick] + rest, m) == [Rescheduled(t), ResetAt(t)] + EventsOfTicks(after, rest, m)
  {
    assert ([tick] + rest)[1..] == rest;
  }

  lemma WithinWider(a: seq<RowEvent>, b: seq<RowEvent>, t: int, to: int, last: int)
    requires a == [Rescheduled(t), ResetAt(t)] && last <= t <= to
    requires ResetsWithin(b, t, to)
    ensures ResetsWithin(a + b, last, to)
  {
    forall i | 0 <= i < |a + b| && (a + b)[i].ResetAt?
      ensures last <= (a + b)[i].now <= to
    {
      if i >= 2 { assert (a + b)[i] == b[i - 2]; }
    }
  }

  lemma NotLasting(events: seq<RowEvent>, from: int, to: int)
    requires ResetsWithin(events, from, to) && from % 1000 == 0 && to < from + TOTAL_BACKOFF_MS
    ensures !Lasts(events)
  {
    if Lasts(events) {
      var i :| 0 <= i < |events| && events[i].ResetAt?
               && AnyLate(events[i + 1..], FloorSec(events[i].now) + TOTAL_BACKOFF_MS);
      FloorKeepsWholeSeconds(from, events[i].now);
    }
  }

  const FRESH := Row(Pending, 0, None, false)

  /** A first reset at `start`, and five more as soon as they can come. */
  function Hurry(m: MessageId, start: int, interval: nat, restarts: nat): seq<Tick> {
    [HurryingTick(m, start, false)] + HurryingTicks(m, MAX_TRIES, start, interval, restarts)
  }

  lemma HurryIsOnTime(m: MessageId, start: int, last: int, interval: nat, restarts: nat)
    requires last + interval <= start
    ensures var ticks := Hurry(m, start, interval, restarts);
            OnTime(ticks, last, interval) && OnlySweepsReset(ticks) && Starts(ticks) <= restarts
  {
    var rest := HurryingTicks(m, MAX_TRIES, start, interval, restarts);
    HurryingTicksAreOnTime(m, MAX_TRIES, start, interval, restarts);
    OneMoreTickOnTime(HurryingTick(m, start, false), rest, last, interval);
    OneMoreSweep(m, start, false, rest);
  }

  lemma HurryGivesUp(m: MessageId, start: int, interval: nat, restarts: nat)
    ensures GivesUp(map[m := FRESH], Hurry(m, start, interval, restarts), m, start,
                    start + Span(interval, MAX_TRIES, restarts))
  {
    HurriedRowIsCloser(FRESH, start, MAX_TRIES + 1);
    HurriedTicksGiveUp(map[m := FRESH], m, start, false, MAX_TRIES, interval, restarts);
    OneMoreGivesUp(map[m := FRESH], HurryingTicks(m, MAX_TRIES, start, interval, restarts), m, start, false,
                   start + Span(interval, MAX_TRIES, restarts), start);
  }

  lemma HurryGivesUpEarly(m: MessageId, last: int, interval: nat, restarts: nat)
    requires Span(interval, MAX_TRIES, restarts) < TOTAL_BACKOFF_MS
    ensures var start := FloorSec(last + interval) + 1000;
            GivesUpEarly(map[m := FRESH], Hurry(m, start, interval, restarts), m, last, interval, restarts)
  {
    var start := FloorSec(last + interval) + 1000;
    assert start >= last + interval && start % 1000 == 0;
    HurryIsOnTime(m, start, last, interval, restarts);
    HurryGivesUp(m, start, interval, restarts);
    NotLasting(EventsOfTicks(map[m := FRESH], Hurry(m, start, interval, restarts), m), start,
               start + Span(interval, MAX_TRIES, restarts));
  }

  /** Exactly when sweeps that are `interval` apart, but for restarts, can give up a new message within 155 seconds
      of its first reset: when five of them, less one for each restart, take less. */
  lemma EarlyGiveUpIff(m: MessageId, last: int, interval: nat, restarts: nat)
    ensures (exists rows, ticks :: GivesUpEarly(rows, ticks, m, last, interval, restarts))
       <==> Span(interval, MAX_TRIES, restarts) < TOTAL_BACKOFF_MS
  {
    if rows, ticks :| GivesUpEarly(rows, ticks, m, last, interval, restarts) {
      EarlyNeedsHurry(rows, ticks, m, last, interval, restarts);
    }
    if Span(interval, MAX_TRIES, restarts) < TOTAL_BACKOFF_MS {
      HurryGivesUpEarly(m, last, interval, restarts);
    }
  }

  /** At one sweep a minute that takes three restarts of the process; in one process life it cannot happen. */
  lemma EarlyGiveUpTakesThreeRestarts(m: MessageId, last: int, restarts: nat)
    ensures (exists rows, ticks :: GivesUpEarly(rows, ticks, m, last, 60000, restarts)) <==> restarts >= 3
  {
    EarlyGiveUpIff(m, last, SWEEP_INTERVAL_MS, restarts);
    MinutesOfTries(restarts);
  }

  lemma MinutesOfTries(restarts: nat)
    ensures Span(SWEEP_INTERVAL_MS, MAX_TRIES, restarts) < TOTAL_BACKOFF_MS <==> restarts >= 3
  {
  }

  // ---------------------------------------------------------------------------------------------
  // The code of a pass
  // ---------------------------------------------------------------------------------------------

  lemma SameRow(rows: Rows, m: MessageId)
    ensures m in rows ==> rows[m := rows[m]] == rows
  {
  }

  class Sweeper {
    var rows: Rows
    var claims: seq<Claim>
    var done: seq<MessageId>
    var heartbeat: int
    var tool: Option<ContainerState>
    var running: bool
    var killRequested: bool

    function View(): Session
      reads this
    {
      Session(rows, claims, done, heartbeat, tool, running)
    }

    method SyncProcessingAcks()
      modifies this`rows
      ensures rows == Sync(old(rows), done)
    {
      for i := 0 to |done|
        invariant Sync(rows, done[i..]) == Sync(old(rows), done)
      {
        assert done[i..][1..] == done[i + 1..];
        SameRow(rows, done[i]);
        if done[i] in rows && !rows[done[i]].status.Completed? {
          rows := rows[done[i] := rows[done[i]].(status := Completed)];
        }
      }
    }

    method ResetStuckProcessingRows(now: int, deletable: bool)
      modifies this`rows, this`claims
      ensures rows == ResetAll(old(rows), old(claims), now)
      ensures claims == if deletable then [] else old(claims)
    {
      for i := 0 to |claims|
        invariant claims == old(claims)
        invariant ResetAll(rows, claims[i..], now) == ResetAll(old(rows), claims, now)
      {
        var m := claims[i].messageId;
        assert claims[i..][1..] == claims[i + 1..];
        SameRow(rows, m);
        if m !in rows || !rows[m].status.Pending? {
          continue;
        }
        var msg := rows[m];
        if msg.processAfter.Some? && msg.processAfter.value > now {
          continue;
        }
        if msg.tries >= MAX_TRIES {
          rows := rows[m := msg.(status := Failed)];
        } else {
          var backoffMs := BACKOFF_BASE_MS * Pow2(msg.tries);
          var backoffSec := backoffMs / 1000;
          rows := rows[m := msg.(tries := msg.tries + 1, processAfter := Some(FloorSec(now) + 1000 * backoffSec))];
        }
      }
      if deletable {
        claims := [];
      }
    }

    method EnforceRunningContainerSla(env: Surroundings) returns (d: Decision)
      modifies this`rows, this`claims, this`killRequested
      ensures d == Decide(old(SightOf(View(), env)))
      ensures killRequested <==> old(killRequested) || !d.Ok?
      ensures View() == if d.KillCeiling? || d.KillClaim? then ResetSession(old(View()), env) else old(View())
    {
      d := DecideStuckAction(SightOf(View(), env));
      DecisionIsDetermined(SightOf(View(), env), d);
      match d {
        case Ok =>
        case KillCeiling(_, _) =>
          killRequested := true;
          ResetStuckProcessingRows(env.later, env.claimsDeletable);
        case KillIdle(_, _) =>
          killRequested := true;
        case KillClaim(_, _, _) =>
          killRequested := true;
          ResetStuckProcessingRows(env.later, env.claimsDeletable);
      }
    }

    /** `await wakeContainer`: the container may start, and messages come in or are changed. */
    method AwaitWake(woken: Woken)
      modifies this`rows, this`claims, this`done, this`heartbeat, this`tool, this`running
      ensures View() == Session(Change(old(rows), woken.changes), woken.claims, woken.done, woken.heartbeat, woken.tool,
                                woken.running)
    {
      rows := Change(rows, woken.changes);
      claims, done, heartbeat, tool, running := woken.claims, woken.done, woken.heartbeat, woken.tool, woken.running;
    }

    method SweepSession(env: Surroundings) returns (woke: bool, decision: Option<Decision>)
      requires !killRequested
      modifies this
      ensures Outcome(View(), woke, decision, killRequested) == Pass(old(View()), env)
    {
      if env.outboundOpens {
        SyncProcessingAcks();
      }
      var due := exists m :: m in rows && IsDue(rows[m], env.now);
      woke := false;
      if due && !running {
        woke := true;
        AwaitWake(env.woken);
      }
      var alive := running;
      decision := None;
      if alive && env.outboundOpens {
        var d := EnforceRunningContainerSla(env);
        decision := Some(d);
      }
      if !alive && env.outboundOpens {
        ResetStuckProcessingRows(env.later, env.claimsDeletable);
      }
    }
  }
}

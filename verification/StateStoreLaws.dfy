/** What the tables of the chat state adapter promise over whole runs. */
module StateStoreLaws {
  import opened Options
  import opened StateStore

  // ---------------------------------------------------------------------------------------------
  // Cleanup is invisible
  // ---------------------------------------------------------------------------------------------

  lemma VisibleSurvivesCleaning(rows: Rows, t: int, now: int)
    requires t <= now
    ensures Visible(CleanRows(rows, t), now) == Visible(rows, now)
  {
    var a, b := Visible(CleanRows(rows, t), now), Visible(rows, now);
    forall i | i in b
      ensures i in a
    {
      assert i in CleanRows(rows, t);
    }
  }

  /** Running the cleanup before a call changes the answer of that call to none. What it may change for
      calls after an append or an extension is said below. */
  lemma CleanupIsInvisible(s: Store, t: int, now: int, key: string, lag: nat)
    requires t <= now - lag
    ensures Get(Cleanup(s, t), key, lag, now).1 == Get(s, key, lag, now).1
    ensures GetList(Cleanup(s, t), key, now) == GetList(s, key, now)
    ensures Acquire(Cleanup(s, t), key, "", 0, now).1 == Acquire(s, key, "", 0, now).1
  {
    assert RowsOf(Cleanup(s, t), key) == CleanRows(RowsOf(s, key), t);
    VisibleSurvivesCleaning(RowsOf(s, key), t, now);
  }

  // ---------------------------------------------------------------------------------------------
  // Keys and values refine a map whose entries are overwritten or deleted but never expire away
  // ---------------------------------------------------------------------------------------------

  type Written = map<string, KvRow>

  predicate IsLive(w: Written, key: string, now: int) {
    key in w && !Expired(w[key].expires, now)
  }

  function WriteStep(w: Written, e: Event): Written {
    match e.op
    case OpSet(key, value, ttl) => w[key := KvRow(value, Expiry(e.now, ttl))]
    case OpSetIfNotExists(key, value, ttl) =>
      if IsLive(w, key, e.now) then w else w[key := KvRow(value, Expiry(e.now, ttl))]
    case OpDelete(key) => w - {key}
    case _ => w
  }

  function AllWritten(w: Written, events: seq<Event>): Written
    decreases |events|
  {
    if events == [] then w else AllWritten(WriteStep(w, events[0]), events[1..])
  }

  /** An expiry that falls on the very millisecond zero is read as "never" by part of the code. */
  predicate ProperExpiry(e: Event) {
    match e.op
    case OpSet(_, _, ttl) => Expiry(e.now, ttl) != Some(0)
    case OpSetIfNotExists(_, _, ttl) => Expiry(e.now, ttl) != Some(0)
    case _ => true
  }

  predicate ProperExpiries(events: seq<Event>) {
    forall i :: 0 <= i < |events| ==> ProperExpiry(events[i])
  }

  /** The table holds every entry that is still live, and nothing that was not written. */
  predicate Refines(kv: map<string, KvRow>, w: Written, now: int) {
    && (forall k :: k in kv ==> k in w && kv[k] == w[k])
    && (forall k :: k in w ==> w[k].expires != Some(0))
    && (forall k :: k in w && k !in kv ==> Expired(w[k].expires, now))
  }

  lemma KvCleanupRefines(s: Store, w: Written, t: int, was: int, now: int)
    requires Refines(s.kv, w, was) && was <= now && t <= now
    ensures Refines(Cleanup(s, t).kv, w, now)
  {
  }

  lemma KvGetRefines(s: Store, w: Written, key: string, lag: nat, was: int, now: int)
    requires Refines(s.kv, w, was) && was <= now
    ensures Refines(Get(s, key, lag, now).0.kv, w, now)
    ensures Get(s, key, lag, now).1 == if IsLive(w, key, now) then Some(w[key].value) else None
  {
    KvCleanupRefines(s, w, now - lag, was, now);
  }

  /** A row that `get` finds lapsed is gone afterwards. */
  lemma GetDropsLapsed(s: Store, key: string, lag: nat, now: int)
    ensures var row := Get(s, key, lag, now).0.kv;
            key in row && row[key].expires.Some? ==> row[key].expires.value == 0 || row[key].expires.value >= now
  {
  }

  lemma KvWriteRefines(kv: map<string, KvRow>, w: Written, key: string, row: KvRow, was: int, now: int)
    requires Refines(kv, w, was) && was <= now && row.expires != Some(0)
    ensures Refines(kv[key := row], w[key := row], now)
  {
  }

  lemma KvStepRefines(s: Store, w: Written, e: Event, now: int)
    requires Refines(s.kv, w, now) && now <= e.now && ProperExpiry(e)
    ensures Refines(Step(s, e).0.kv, WriteStep(w, e), e.now)
    ensures e.op.OpGet? ==>
              Step(s, e).1 == Found(if IsLive(w, e.op.key, e.now) then Some(w[e.op.key].value) else None)
    ensures e.op.OpSetIfNotExists? ==> Step(s, e).1 == Flag(!IsLive(w, e.op.key, e.now))
  {
    match e.op
    case OpConnect => KvCleanupRefines(s, w, e.now, now, e.now);
    case OpGet(key, lag) => KvGetRefines(s, w, key, lag, now, e.now);
    case OpSet(key, value, ttl) => KvWriteRefines(s.kv, w, key, KvRow(value, Expiry(e.now, ttl)), now, e.now);
    case OpSetIfNotExists(key, value, ttl) => KvSetIfNotExistsRefines(s, w, key, value, ttl, now, e.now);
    case OpDelete(key) => KvDeleteRefines(s.kv, w, key, now, e.now);
    case _ => assert Step(s, e).0.kv == s.kv;
  }

  lemma KvSetIfNotExistsRefines(s: Store, w: Written, key: string, value: Value, ttl: Option<int>, was: int, now: int)
    requires Refines(s.kv, w, was) && was <= now && Expiry(now, ttl) != Some(0)
    ensures SetIfNotExists(s, key, value, ttl, now).1 == !IsLive(w, key, now)
    ensures Refines(SetIfNotExists(s, key, value, ttl, now).0.kv,
                    if IsLive(w, key, now) then w else w[key := KvRow(value, Expiry(now, ttl))], now)
  {
    KvWriteRefines(s.kv, w, key, KvRow(value, Expiry(now, ttl)), was, now);
  }

  lemma KvDeleteRefines(kv: map<string, KvRow>, w: Written, key: string, was: int, now: int)
    requires Refines(kv, w, was) && was <= now
    ensures Refines(kv - {key}, w - {key}, now)
  {
  }

  function LastTime(events: seq<Event>, start: int): int
    decreases |events|
  {
    if events == [] then start else LastTime(events[1..], events[0].now)
  }

  lemma {:induction false} KvRunRefines(s: Store, w: Written, events: seq<Event>, now: int)
    requires Refines(s.kv, w, now) && ClockFrom(events, now) && ProperExpiries(events)
    ensures Refines(Run(s, events).kv, AllWritten(w, events), LastTime(events, now))
    decreases |events|
  {
    if events != [] {
      KvStepRefines(s, w, events[0], now);
      assert ProperExpiries(events[1..]);
      KvRunRefines(Step(s, events[0]).0, WriteStep(w, events[0]), events[1..], events[0].now);
    }
  }

  /** After any run under a clock that does not go back, `get` answers with the value written last,
      as long as its time has not passed, and `setIfNotExists` succeeds exactly when it has. */
  lemma KvAnswersAreRight(events: seq<Event>, start: int, e: Event)
    requires ClockFrom(events, start) && LastTime(events, start) <= e.now
    requires ProperExpiries(events) && ProperExpiry(e)
    ensures var w := AllWritten(map[], events);
            && (e.op.OpGet? ==> Step(Run(EMPTY, events), e).1
                                == Found(if IsLive(w, e.op.key, e.now) then Some(w[e.op.key].value) else None))
            && (e.op.OpSetIfNotExists? ==> Step(Run(EMPTY, events), e).1 == Flag(!IsLive(w, e.op.key, e.now)))
  {
    KvRunRefines(EMPTY, map[], events, start);
    KvStepRefines(Run(EMPTY, events), AllWritten(map[], events), e, LastTime(events, start));
  }

  lemma {:induction false} WritesOfParts(w: Written, a: seq<Event>, b: seq<Event>)
    ensures AllWritten(w, a + b) == AllWritten(AllWritten(w, a), b)
    decreases |a|
  {
    if a == [] {
      assert a + b == b;
    } else {
      assert (a + b)[1..] == a[1..] + b;
      WritesOfParts(WriteStep(w, a[0]), a[1..], b);
    }
  }

  lemma {:induction false} OthersKeepWritten(w: Written, events: seq<Event>, key: string)
    requires key in w && forall i :: 0 <= i < |events| ==> !IsWriteTo(events[i], key)
    ensures key in AllWritten(w, events) && AllWritten(w, events)[key] == w[key]
    decreases |events|
  {
    if events != [] {
      assert !IsWriteTo(events[0], key);
      OthersKeepWritten(WriteStep(w, events[0]), events[1..], key);
    }
  }

  predicate IsWriteTo(e: Event, key: string) {
    (e.op.OpSet? || e.op.OpSetIfNotExists? || e.op.OpDelete?) && e.op.key == key
  }

  /** A value set with a lifetime is there up to and including its last millisecond, and without one, or with one of
      zero, for good; whatever else happens, as long as nobody writes the key again. */
  lemma SetLasts(before: seq<Event>, t: int, key: string, value: Value, ttl: Option<nat>, after: seq<Event>, start: int,
      now: int, lag: nat)
    requires start >= 0
    requires var put := Event(t, OpSet(key, value, ttl));
             ClockFrom(before + [put] + after, start) && LastTime(before + [put] + after, start) <= now
    requires ProperExpiries(before) && ProperExpiries(after)
    requires forall i :: 0 <= i < |after| ==> !IsWriteTo(after[i], key)
    ensures var put := Event(t, OpSet(key, value, ttl));
            Step(Run(EMPTY, before + [put] + after), Event(now, OpGet(key, lag))).1
            == Found(if ttl.Some? && ttl.value > 0 && now > t + ttl.value then None else Some(value))
  {
    var put := Event(t, OpSet(key, value, ttl));
    var w := AllWritten(map[], before);
    ClockPasses(before, put, after, start);
    assert ProperExpiries(before + [put] + after) by {
      assert forall i :: 0 <= i < |before + [put] + after| ==>
        (before + [put] + after)[i] == if i < |before| then before[i] else if i == |before| then put
                                       else after[i - |before| - 1];
    }
    KvAnswersAreRight(before + [put] + after, start, Event(now, OpGet(key, lag)));
    WritesOfParts(map[], before + [put], after);
    WritesOfParts(map[], before, [put]);
    WriteOfOne(w, put);
    OthersKeepWritten(WriteStep(w, put), after, key);
  }

  lemma WriteOfOne(w: Written, e: Event)
    ensures AllWritten(w, [e]) == WriteStep(w, e)
  {
    assert [e][0] == e && [e][1..] == [];
    assert AllWritten(WriteStep(w, e), []) == WriteStep(w, e);
  }

  lemma {:induction false} ClockPasses(before: seq<Event>, e: Event, after: seq<Event>, start: int)
    requires ClockFrom(before + [e] + after, start)
    ensures start <= e.now
    decreases |before|
  {
    var all := before + [e] + after;
    if before != [] {
      assert all[1..] == before[1..] + [e] + after && all[0] == before[0];
      ClockPasses(before[1..], e, after, before[0].now);
    } else {
      assert all[0] == e;
    }
  }

  predicate IsCleanup(e: Event) {
    e.op.OpConnect? || e.op.OpGet?
  }

  /** A cleanup anywhere in a run, also that of another `get`, changes no later answer of `get` or
      `setIfNotExists`. */
  lemma CleanupInRunIsInvisible(a: seq<Event>, cleanup: Event, b: seq<Event>, start: int, e: Event)
    requires IsCleanup(cleanup) && (e.op.OpGet? || e.op.OpSetIfNotExists?)
    requires ClockFrom(a + [cleanup] + b, start) && LastTime(a + [cleanup] + b, start) <= e.now
    requires ProperExpiries(a + b) && ProperExpiry(e)
    ensures Step(Run(EMPTY, a + [cleanup] + b), e).1 == Step(Run(EMPTY, a + b), e).1
  {
    WritesOfParts(map[], a, b);
    WritesOfParts(map[], a + [cleanup], b);
    WritesOfParts(map[], a, [cleanup]);
    var w := AllWritten(map[], a);
    assert [cleanup][1..] == [];
    assert AllWritten(w, [cleanup]) == AllWritten(WriteStep(w, [cleanup][0]), [cleanup][1..]);
    ProperWithCleanup(a, cleanup, b);
    ClockWithout(a, cleanup, b, start);
    KvAnswersAreRight(a + [cleanup] + b, start, e);
    KvAnswersAreRight(a + b, start, e);
  }

  lemma {:induction false} ClockOfParts(a: seq<Event>, b: seq<Event>, start: int)
    ensures ClockFrom(a + b, start) <==> ClockFrom(a, start) && ClockFrom(b, LastTime(a, start))
    ensures LastTime(a + b, start) == LastTime(b, LastTime(a, start))
    decreases |a|
  {
    if a == [] {
      assert a + b == b;
    } else {
      assert (a + b)[1..] == a[1..] + b;
      ClockOfParts(a[1..], b, a[0].now);
    }
  }

  /** Leaving an event out keeps the clock from going back. */
  lemma ClockWithout(a: seq<Event>, e: Event, b: seq<Event>, start: int)
    requires ClockFrom(a + [e] + b, start)
    ensures ClockFrom(a + b, start) && LastTime(a + b, start) <= LastTime(a + [e] + b, start)
  {
    var s := LastTime(a, start);
    assert a + [e] + b == a + ([e] + b) && ([e] + b)[1..] == b;
    ClockOfParts(a, [e] + b, start);
    ClockOfParts(a, b, start);
    assert LastTime([e] + b, s) == LastTime(b, e.now);
  }

  lemma ProperWithCleanup(a: seq<Event>, cleanup: Event, b: seq<Event>)
    requires IsCleanup(cleanup) && ProperExpiries(a + b)
    ensures ProperExpiries(a + [cleanup] + b)
  {
    var all := a + [cleanup] + b;
    forall i | 0 <= i < |all|
      ensures ProperExpiry(all[i])
    {
      if i < |a| {
        assert all[i] == (a + b)[i];
      } else if i > |a| {
        assert all[i] == (a + b)[i - 1];
      }
    }
  }

  /** In any state, `setIfNotExists` succeeds exactly when there is no live row, except for a row whose
      expiry is the time zero, which it takes for a row without an expiry. */
  lemma SetIfNotExistsIsRightIff(s: Store, key: string, value: Value, ttl: Option<int>, now: int)
    ensures SetIfNotExists(s, key, value, ttl, now).1 == !IsLive(s.kv, key, now)
       <==> !(key in s.kv && s.kv[key].expires == Some(0) && now > 0)
  {
  }

  /** Such a row can be written at any time, and then blocks `setIfNotExists` although it has expired. */
  lemma ZeroExpiryBlocks(start: int, now: int, value: Value)
    requires start > 0 && now > 0
    ensures var s := Set(EMPTY, "k", value, Some(-start), start);
            && !IsLive(s.kv, "k", now)
            && !SetIfNotExists(s, "k", value, None, now).1
  {
  }

  // ---------------------------------------------------------------------------------------------
  // Subscriptions
  // ---------------------------------------------------------------------------------------------

  /** Whether the last word on the thread was to subscribe. */
  predicate LastSubscribed(events: seq<Event>, thread: string) {
    if events == [] then false
    else
      var e := events[|events| - 1];
      if e.op.OpSubscribe? && e.op.thread == thread then e.op.on else LastSubscribed(events[..|events| - 1], thread)
  }

  lemma {:induction false} RunOfMore(s: Store, events: seq<Event>, e: Event)
    ensures Run(s, events + [e]) == Step(Run(s, events), e).0
    decreases |events|
  {
    if events == [] {
      assert (events + [e])[1..] == [];
    } else {
      assert (events + [e])[1..] == events[1..] + [e];
      RunOfMore(Step(s, events[0]).0, events[1..], e);
    }
  }

  lemma {:induction false} SubscribedIffLastWord(events: seq<Event>, thread: string)
    ensures thread in Run(EMPTY, events).subscriptions <==> LastSubscribed(events, thread)
    decreases |events|
  {
    if events != [] {
      var n := |events| - 1;
      assert events == events[..n] + [events[n]];
      RunOfMore(EMPTY, events[..n], events[n]);
      SubscribedIffLastWord(events[..n], thread);
      StepSubscribes(Run(EMPTY, events[..n]), events[n], thread);
    }
  }

  lemma StepSubscribes(s: Store, e: Event, thread: string)
    ensures thread in Step(s, e).0.subscriptions
       <==> if e.op.OpSubscribe? && e.op.thread == thread then e.op.on else thread in s.subscriptions
  {
  }

  // ---------------------------------------------------------------------------------------------
  // Locks
  // ---------------------------------------------------------------------------------------------

  /** The operations that can end a hold from outside. */
  predicate Frees(op: Op, thread: string, token: Token) {
    op == OpRelease(thread, token) || op == OpForceRelease(thread)
  }

  predicate Extends(op: Op, thread: string, token: Token) {
    op.OpExtend? && op.thread == thread && op.token == token
  }

  predicate Issues(op: Op, thread: string, token: Token) {
    op.OpAcquire? && op.thread == thread && op.token == token
  }

  /** A hold that is neither freed nor past its expiry outlasts a step, and no acquire succeeds. */
  lemma HoldOutlastsStep(s: Store, e: Event, thread: string, token: Token)
    requires Holds(s, thread, token) && e.now <= s.locks[thread].expires && !Frees(e.op, thread, token)
    ensures Holds(Step(s, e).0, thread, token)
    ensures e.op.OpAcquire? && e.op.thread == thread ==> Step(s, e).1 == Flag(false)
    ensures Step(s, e).0.locks[thread].expires
         == if Extends(e.op, thread, token) then e.now + e.op.lockTtl else s.locks[thread].expires
  {
  }

  /** Every event comes no later than the expiry the row has at that time. */
  predicate WithinLease(s: Store, events: seq<Event>, thread: string)
    decreases |events|
  {
    events == [] ||
    (thread in s.locks && events[0].now <= s.locks[thread].expires
     && WithinLease(Step(s, events[0]).0, events[1..], thread))
  }

  /** Mutual exclusion: as long as a holder neither frees its lock nor lets it lapse, it keeps the
      lock and every other acquire on the thread is refused. */
  lemma {:induction false} LockIsExclusive(s: Store, events: seq<Event>, thread: string, token: Token)
    requires Holds(s, thread, token) && WithinLease(s, events, thread)
    requires forall i :: 0 <= i < |events| ==> !Frees(events[i].op, thread, token)
    ensures Holds(Run(s, events), thread, token)
    ensures |Replies(s, events)| == |events|
    ensures forall i :: 0 <= i < |events| && events[i].op.OpAcquire? && events[i].op.thread == thread ==>
              Replies(s, events)[i] == Flag(false)
    ensures forall other, ttl, now :: Acquire(Run(s, events), thread, other, ttl, now).1
                                      <==> Run(s, events).locks[thread].expires < now
    decreases |events|
  {
    if events != [] {
      HoldOutlastsStep(s, events[0], thread, token);
      LockIsExclusive(Step(s, events[0]).0, events[1..], thread, token);
      forall i | 0 <= i < |events| && events[i].op.OpAcquire? && events[i].op.thread == thread
        ensures Replies(s, events)[i] == Flag(false)
      {
        if i > 0 { assert events[i] == events[1..][i - 1]; }
      }
    }
  }

  /** Freeing a lock frees it: the next acquire succeeds at any time. A release by anyone but the holder
      changes nothing. */
  lemma FreedLockCanBeTaken(s: Store, e: Event, thread: string, token: Token, other: Token, ttl: int, now: int)
    requires Holds(s, thread, token) && (e.op == OpForceRelease(thread) || e.op == OpRelease(thread, other))
    ensures Frees(e.op, thread, token) ==>
              Acquire(Step(s, e).0, thread, other, ttl, now).1
              && Acquire(Step(s, e).0, thread, other, ttl, now).0 == s.(locks := s.locks[thread := LockRow(other, now + ttl)])
    ensures !Frees(e.op, thread, token) ==> Step(s, e).0 == s
  {
    if Frees(e.op, thread, token) {
      assert (s.locks - {thread})[thread := LockRow(other, now + ttl)] == s.locks[thread := LockRow(other, now + ttl)];
    }
  }

  /** A holder may still extend a lock that has lapsed, but only until a cleanup finds it so. */
  lemma ExtendAfterCleanupIff(s: Store, thread: string, token: Token, t: int, ttl: int, now: int)
    requires Holds(s, thread, token)
    ensures Extend(s, thread, token, ttl, now).1
    ensures Extend(Cleanup(s, t), thread, token, ttl, now).1 <==> s.locks[thread].expires >= t
  {
  }

  /** So a cleanup before an extension decides over a later acquire: exactly if the lock had lapsed and the
      extension would have lasted until then. */
  lemma CleanupBeforeExtendIff(s: Store, thread: string, token: Token, t: int, ttl: int, now: int, other: Token,
      later: int)
    requires Holds(s, thread, token)
    ensures var plain := Extend(s, thread, token, ttl, now).0;
            var cleaned := Extend(Cleanup(s, t), thread, token, ttl, now).0;
            Acquire(cleaned, thread, other, 0, later).1 == Acquire(plain, thread, other, 0, later).1
            <==> !(s.locks[thread].expires < t && now + ttl >= later)
  {
    var c := Cleanup(s, t);
    assert thread in c.locks <==> s.locks[thread].expires >= t;
  }

  /** No operation on one thread's lock touches another's, except that a cleanup removes what has lapsed. */
  lemma OtherLocksStay(s: Store, e: Event, thread: string)
    requires match e.op
             case OpAcquire(t, _, _) => t != thread
             case OpRelease(t, _) => t != thread
             case OpExtend(t, _, _) => t != thread
             case OpForceRelease(t) => t != thread
             case _ => true
    ensures thread in Step(s, e).0.locks ==> thread in s.locks && Step(s, e).0.locks[thread] == s.locks[thread]
    ensures thread in s.locks && thread !in Step(s, e).0.locks ==> s.locks[thread].expires < e.now
  {
  }

  /** Once a token has lost its lock it never gets it back: in every run that issues fresh tokens,
      its old holder can extend nothing, and its releases change nothing. */
  lemma {:induction false} SupersededStaysOut(s: Store, events: seq<Event>, thread: string, token: Token)
    requires !Holds(s, thread, token)
    requires forall i :: 0 <= i < |events| ==> !Issues(events[i].op, thread, token)
    ensures !Holds(Run(s, events), thread, token)
    ensures |Replies(s, events)| == |events|
    ensures forall i :: 0 <= i < |events| && Extends(events[i].op, thread, token) ==>
              Replies(s, events)[i] == Flag(false)
    ensures Release(Run(s, events), thread, token) == Run(s, events)
    decreases |events|
  {
    if events != [] {
      SupersededStep(s, events[0], thread, token);
      SupersededStaysOut(Step(s, events[0]).0, events[1..], thread, token);
      forall i | 0 <= i < |events| && Extends(events[i].op, thread, token)
        ensures Replies(s, events)[i] == Flag(false)
      {
        if i > 0 { assert events[i] == events[1..][i - 1]; }
      }
    }
  }

  lemma SupersededStep(s: Store, e: Event, thread: string, token: Token)
    requires !Holds(s, thread, token) && !Issues(e.op, thread, token)
    ensures !Holds(Step(s, e).0, thread, token)
    ensures e.op == OpRelease(thread, token) ==> Step(s, e).0 == s
    ensures Extends(e.op, thread, token) ==> Step(s, e) == (s, Flag(false))
  {
  }

  // ---------------------------------------------------------------------------------------------
  // Lists
  // ---------------------------------------------------------------------------------------------

  lemma NextIsBeyond(rows: Rows)
    ensures forall i :: i in rows ==> i < NextIdx(rows)
  {
    assert forall i :: i in rows ==> i in rows.Keys;
  }

  predicate NonNegative(rows: Rows) {
    forall i :: i in rows ==> i >= 0
  }

  /** Trimming keeps the new row and, before it, the rows of the highest indices: at most maxLength
      rows in all, and none skipped. */
  lemma TrimmingKeepsSuffix(rows: Rows, row: ListRow, maxLength: int)
    requires maxLength > 0 && NonNegative(rows)
    ensures var rows' := Append(rows, row, Some(maxLength));
            var next := NextIdx(rows);
            && next in rows' && rows'[next] == row
            && (forall i :: i in rows' && i != next ==> i in rows && rows'[i] == rows[i])
            && (forall i, j :: i in rows' && j in rows && i <= j ==> j in rows')
            && |rows'| <= maxLength
            && NonNegative(rows')
  {
    NextIsBeyond(rows);
    var rows' := Append(rows, row, Some(maxLength));
    var next := NextIdx(rows);
    var first := if next < maxLength then 0 else next - maxLength + 1;
    var span := Interval(first, next + 1);
    assert rows'.Keys <= span;
    SubsetSize(rows'.Keys, span);
    assert |rows'| == |rows'.Keys|;
  }

  predicate AllNonNegative(s: Store) {
    forall key :: key in s.lists ==> NonNegative(s.lists[key])
  }

  /** The indices are never negative, in any run. */
  lemma {:induction false} IndicesStayNonNegative(s: Store, events: seq<Event>)
    requires AllNonNegative(s)
    ensures AllNonNegative(Run(s, events))
    decreases |events|
  {
    if events != [] {
      StepKeepsNonNegative(s, events[0]);
      IndicesStayNonNegative(Step(s, events[0]).0, events[1..]);
    }
  }

  lemma AppendKeepsNonNegative(rows: Rows, row: ListRow, maxLength: Option<int>)
    requires NonNegative(rows)
    ensures NonNegative(Append(rows, row, maxLength))
  {
  }

  lemma UpdatedKeepsNonNegative(s: Store, key: string, rows: Rows)
    requires AllNonNegative(s) && NonNegative(rows)
    ensures AllNonNegative(s.(lists := s.lists[key := rows]))
  {
  }

  lemma CleanupKeepsNonNegative(s: Store, now: int)
    requires AllNonNegative(s)
    ensures AllNonNegative(Cleanup(s, now))
  {
    forall key | key in s.lists
      ensures NonNegative(CleanRows(s.lists[key], now))
    {
      assert NonNegative(s.lists[key]);
    }
  }

  lemma StepKeepsNonNegative(s: Store, e: Event)
    requires AllNonNegative(s)
    ensures AllNonNegative(Step(s, e).0)
  {
    match e.op
    case OpConnect => CleanupKeepsNonNegative(s, e.now);
    case OpGet(_, lag) => CleanupKeepsNonNegative(s, e.now - lag);
    case OpAppend(key, value, maxLength, ttl) => AppendedKeepsNonNegative(s, key, ListRow(value, Expiry(e.now, ttl)), maxLength);
    case OpEnqueue(thread, value, maxSize) =>
      AppendedKeepsNonNegative(s, QueueKey(thread), ListRow(value, None), Some(maxSize));
    case OpDequeue(thread) =>
      var rows := RowsOf(s, QueueKey(thread));
      assert NonNegative(rows);
      if rows.Keys != {} { UpdatedKeepsNonNegative(s, QueueKey(thread), rows - {MinOf(rows.Keys)}); }
    case _ =>
  }

  lemma AppendedKeepsNonNegative(s: Store, key: string, row: ListRow, maxLength: Option<int>)
    requires AllNonNegative(s)
    ensures AllNonNegative(s.(lists := s.lists[key := Append(RowsOf(s, key), row, maxLength)]))
  {
    assert NonNegative(RowsOf(s, key));
    AppendKeepsNonNegative(RowsOf(s, key), row, maxLength);
    UpdatedKeepsNonNegative(s, key, Append(RowsOf(s, key), row, maxLength));
  }

  function Interval(lo: int, hi: int): (r: set<int>)
    requires lo <= hi
    ensures forall i :: i in r <==> lo <= i < hi
    ensures |r| == hi - lo
    decreases hi - lo
  {
    if lo == hi then {} else Interval(lo, hi - 1) + {hi - 1}
  }

  lemma SubsetSize(a: set<int>, b: set<int>)
    requires a <= b
    ensures |a| <= |b|
  {
    assert b == a + (b - a) && a * (b - a) == {};
  }

  // ---------------------------------------------------------------------------------------------
  // Queues refine sequences
  // ---------------------------------------------------------------------------------------------

  /** The rows of a queue: consecutive indices, entries in order, no expiry. */
  ghost predicate IsQueue(rows: Rows, first: int, q: seq<Value>) {
    && first >= 0
    && (forall i :: i in rows <==> first <= i < first + |q|)
    && (forall i :: i in rows ==> rows[i] == ListRow(q[i - first], None))
  }

  ghost predicate Represents(rows: Rows, q: seq<Value>) {
    exists first :: IsQueue(rows, first, q)
  }

  /** What `enqueue` does to the queue, for every size it may be given. */
  function Enqueued(q: seq<Value>, v: Value, maxSize: int): seq<Value> {
    var grown := q + [v];
    if maxSize == 0 then grown
    else if maxSize < 0 then []
    else if |grown| <= maxSize then grown
    else grown[|grown| - maxSize..]
  }

  function Dequeued(q: seq<Value>): seq<Value> {
    if q == [] then [] else q[1..]
  }

  lemma NextOfQueue(rows: Rows, first: int, q: seq<Value>)
    requires IsQueue(rows, first, q)
    ensures NextIdx(rows) == if q == [] then 0 else first + |q|
  {
    if q == [] {
      assert forall i :: i !in rows.Keys;
    } else {
      assert first + |q| - 1 in rows.Keys;
      assert MaxOf(rows.Keys) in rows;
    }
  }

  lemma GrownQueue(rows: Rows, first: int, q: seq<Value>, v: Value)
    requires IsQueue(rows, first, q)
    ensures IsQueue(rows[first + |q| := ListRow(v, None)], first, q + [v])
  {
  }

  lemma TrimmedQueue(rows: Rows, first: int, q: seq<Value>, cutoff: int)
    requires IsQueue(rows, first, q) && cutoff >= 0
    ensures cutoff < first ==> IsQueue(Above(rows, cutoff), first, q)
    ensures first <= cutoff < first + |q| ==> IsQueue(Above(rows, cutoff), cutoff + 1, q[cutoff + 1 - first..])
    ensures first + |q| <= cutoff ==> IsQueue(Above(rows, cutoff), first, [])
  {
  }

  lemma TrimmedRepresents(rows: Rows, first: int, q: seq<Value>, cutoff: int)
    requires IsQueue(rows, first, q) && cutoff >= 0
    ensures Represents(Above(rows, cutoff),
                       if cutoff < first then q else if cutoff < first + |q| then q[cutoff + 1 - first..] else [])
  {
    TrimmedQueue(rows, first, q, cutoff);
  }

  /** `Enqueued` in terms of the cutoff, for a queue whose indices start at `start`. */
  lemma EnqueuedByCutoff(start: nat, q: seq<Value>, v: Value, maxSize: int)
    ensures var cutoff := start + |q| - maxSize;
            Enqueued(q, v, maxSize)
            == if maxSize == 0 || cutoff < start then q + [v]
               else if cutoff < start + |q| + 1 then (q + [v])[cutoff + 1 - start..] else []
  {
  }

  lemma EnqueueRefines(rows: Rows, q: seq<Value>, v: Value, maxSize: int)
    requires Represents(rows, q)
    ensures Represents(Append(rows, ListRow(v, None), Some(maxSize)), Enqueued(q, v, maxSize))
  {
    var first :| IsQueue(rows, first, q);
    NextOfQueue(rows, first, q);
    StartedRepresents(rows, if q == [] then 0 else first, q, v, maxSize);
  }

  lemma StartedRepresents(rows: Rows, start: nat, q: seq<Value>, v: Value, maxSize: int)
    requires IsQueue(rows, start, q) && NextIdx(rows) == start + |q|
    ensures Represents(Append(rows, ListRow(v, None), Some(maxSize)), Enqueued(q, v, maxSize))
  {
    GrownQueue(rows, start, q, v);
    EnqueuedByCutoff(start, q, v, maxSize);
    if maxSize != 0 && start + |q| - maxSize >= 0 {
      TrimmedRepresents(rows[start + |q| := ListRow(v, None)], start, q + [v], start + |q| - maxSize);
    }
  }

  lemma DequeueRefines(rows: Rows, q: seq<Value>)
    requires Represents(rows, q)
    ensures rows.Keys == {} <==> q == []
    ensures q != [] ==> var m := MinOf(rows.Keys); rows[m].value == q[0] && Represents(rows - {m}, q[1..])
  {
    var first :| IsQueue(rows, first, q);
    if q != [] {
      assert first in rows.Keys;
      assert MinOf(rows.Keys) == first;
      assert IsQueue(rows - {first}, first + 1, q[1..]);
    } else {
      assert forall i :: i !in rows;
    }
  }

  lemma QueueSize(rows: Rows, q: seq<Value>)
    requires Represents(rows, q)
    ensures |rows| == |q|
  {
    var first :| IsQueue(rows, first, q);
    assert rows.Keys == Interval(first, first + |q|);
    assert |rows| == |rows.Keys|;
  }

  lemma CleaningKeepsQueue(rows: Rows, q: seq<Value>, now: int)
    requires Represents(rows, q)
    ensures CleanRows(rows, now) == rows
  {
    var first :| IsQueue(rows, first, q);
    forall i | i in rows
      ensures i in CleanRows(rows, now)
    {
      assert rows[i] == ListRow(q[i - first], None);
    }
  }

  /** The abstract queue of one thread over a run. */
  function QueueStep(q: seq<Value>, e: Event, thread: string): seq<Value> {
    match e.op
    case OpEnqueue(t, v, maxSize) => if t == thread then Enqueued(q, v, maxSize) else q
    case OpDequeue(t) => if t == thread then Dequeued(q) else q
    case _ => q
  }

  function QueueAfter(q: seq<Value>, events: seq<Event>, thread: string): seq<Value>
    decreases |events|
  {
    if events == [] then q else QueueAfter(QueueStep(q, events[0], thread), events[1..], thread)
  }

  /** Queues are written through `enqueue` and `dequeue` only. */
  predicate LeavesQueuesAlone(e: Event) {
    e.op.OpAppend? ==> !("queue:" <= e.op.key)
  }

  lemma QueueKeysDiffer(a: string, b: string)
    ensures QueueKey(a) == QueueKey(b) <==> a == b
    ensures "queue:" <= QueueKey(a)
  {
    assert QueueKey(a)[6..] == a && QueueKey(b)[6..] == b;
  }

  lemma QueueStepRefines(s: Store, q: seq<Value>, e: Event, thread: string)
    requires Represents(RowsOf(s, QueueKey(thread)), q) && LeavesQueuesAlone(e)
    ensures Represents(RowsOf(Step(s, e).0, QueueKey(thread)), QueueStep(q, e, thread))
    ensures e.op.OpDequeue? && e.op.thread == thread ==>
              Step(s, e).1 == Found(if q == [] then None else Some(q[0]))
    ensures e.op == OpQueueDepth(thread) ==> Step(s, e).1 == Depth(|q|)
  {
    match e.op
    case OpEnqueue(t, v, maxSize) => EnqueueStepRefines(s, q, t, v, maxSize, e.now, thread);
    case OpQueueDepth(t) => QueueSize(RowsOf(s, QueueKey(thread)), q);
    case OpDequeue(t) => DequeueStepRefines(s, q, t, thread);
    case OpAppend(_, _, _, _) => QueueKeysDiffer(thread, thread);
    case OpConnect => CleanupKeepsQueue(s, q, e.now, thread);
    case OpGet(_, lag) => CleanupKeepsQueue(s, q, e.now - lag, thread);
    case _ => OthersKeepLists(s, e);
  }

  lemma OthersKeepLists(s: Store, e: Event)
    requires !e.op.OpEnqueue? && !e.op.OpDequeue? && !e.op.OpAppend? && !e.op.OpConnect? && !e.op.OpGet?
    ensures Step(s, e).0.lists == s.lists
  {
  }

  lemma EnqueueStepRefines(s: Store, q: seq<Value>, t: string, v: Value, maxSize: int, now: int, thread: string)
    requires Represents(RowsOf(s, QueueKey(thread)), q)
    ensures Represents(RowsOf(Enqueue(s, t, v, maxSize, now), QueueKey(thread)),
                       if t == thread then Enqueued(q, v, maxSize) else q)
  {
    QueueKeysDiffer(t, thread);
    if t == thread { EnqueueRefines(RowsOf(s, QueueKey(thread)), q, v, maxSize); }
  }

  lemma DequeueStepRefines(s: Store, q: seq<Value>, t: string, thread: string)
    requires Represents(RowsOf(s, QueueKey(thread)), q)
    ensures Represents(RowsOf(Dequeue(s, t).0, QueueKey(thread)), if t == thread then Dequeued(q) else q)
    ensures t == thread ==> Dequeue(s, t).1 == if q == [] then None else Some(q[0])
  {
    QueueKeysDiffer(t, thread);
    if t == thread { DequeueRefines(RowsOf(s, QueueKey(thread)), q); }
  }

  lemma CleanupKeepsQueue(s: Store, q: seq<Value>, now: int, thread: string)
    requires Represents(RowsOf(s, QueueKey(thread)), q)
    ensures RowsOf(Cleanup(s, now), QueueKey(thread)) == RowsOf(s, QueueKey(thread))
  {
    CleaningKeepsQueue(RowsOf(s, QueueKey(thread)), q, now);
  }

  /** In every run, each queue behaves as a sequence: `enqueue` appends and keeps the newest maxSize
      entries, `dequeue` takes the oldest, and nothing else, cleanup included, touches it. */
  lemma {:induction false} QueueRunRefines(s: Store, q: seq<Value>, events: seq<Event>, thread: string)
    requires Represents(RowsOf(s, QueueKey(thread)), q)
    requires forall i :: 0 <= i < |events| ==> LeavesQueuesAlone(events[i])
    ensures Represents(RowsOf(Run(s, events), QueueKey(thread)), QueueAfter(q, events, thread))
    decreases |events|
  {
    if events != [] {
      QueueStepRefines(s, q, events[0], thread);
      QueueRunRefines(Step(s, events[0]).0, QueueStep(q, events[0], thread), events[1..], thread);
    }
  }

  /** From the empty database: what `dequeue` and the depth answer at the end of any run. */
  lemma QueueAnswersAreRight(events: seq<Event>, e: Event, thread: string)
    requires LeavesQueuesAlone(e) && forall i :: 0 <= i < |events| ==> LeavesQueuesAlone(events[i])
    ensures var q := QueueAfter([], events, thread);
            && (e.op == OpDequeue(thread) ==>
                  Step(Run(EMPTY, events), e).1 == Found(if q == [] then None else Some(q[0])))
            && (e.op == OpQueueDepth(thread) ==> Step(Run(EMPTY, events), e).1 == Depth(|q|))
  {
    assert IsQueue(RowsOf(EMPTY, QueueKey(thread)), 0, []);
    QueueRunRefines(EMPTY, [], events, thread);
    QueueStepRefines(Run(EMPTY, events), QueueAfter([], events, thread), e, thread);
  }

  /** A size of one or more bounds the depth; a size of zero bounds it by nothing. */
  lemma DepthIsBoundedBySize(q: seq<Value>, v: Value, maxSize: nat)
    ensures |Enqueued(q, v, maxSize)| <= maxSize <==> maxSize > 0
    ensures maxSize == 0 ==> |Enqueued(q, v, maxSize)| == |q| + 1
  {
  }
}

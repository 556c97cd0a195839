/** Draining the sessions' outbound queues.

    `deliverSessionMessages` may be called by any number of pollers. It is cut at its `await`s;
    an `Action` is one block that runs without interruption, or the container posting a message.
    Message ids are unique over all sessions and database writes succeed. */
module Delivery {
  import opened Options

  type SessionId = string
  type MessageId = string
  type DrainId = nat

  const MAX_DELIVERY_ATTEMPTS := 3

  /** The status column of the `delivered` table. */
  datatype Record = Delivered | Failed

  /** One running `drainSession` loop: the message inside `deliverMessage`, and those still to come. */
  datatype Drain = Drain(session: SessionId, current: Option<MessageId>, rest: seq<MessageId>)

  datatype State = State(
    home: map<MessageId, SessionId>,    // messages_out, by id
    delivered: map<MessageId, Record>,
    attempts: map<MessageId, nat>,
    inflight: set<SessionId>,
    drains: map<DrainId, Drain>,
    next: DrainId)

  /** A process starts with what the tables hold; its own maps are empty. */
  function Start(home: map<MessageId, SessionId>, delivered: map<MessageId, Record>): State {
    State(home, delivered, map[], {}, map[], 0)
  }

  predicate IsStart(st: State) {
    st == Start(st.home, st.delivered)
  }

  datatype Action =
    | Post(session: SessionId, id: MessageId)
    | Begin(session: SessionId, due: seq<MessageId>)  // due: the rows getDueOutboundMessages returns
    | Take(drain: DrainId)
    | Sent(drain: DrainId)
    | Threw(drain: DrainId)
    | End(drain: DrainId)

  predicate Distinct(ids: seq<MessageId>) {
    forall i, j :: 0 <= i < j < |ids| ==> ids[i] != ids[j]
  }

  function Undelivered(due: seq<MessageId>, delivered: map<MessageId, Record>): (r: seq<MessageId>)
    ensures forall m :: m in r <==> m in due && m !in delivered
    ensures Distinct(due) ==> Distinct(r)
  {
    if due == [] then []
    else
      var r := Undelivered(due[1..], delivered);
      assert Distinct(due) ==> Distinct(due[1..]) && due[0] !in due[1..];
      assert due[0] !in due[1..] ==> due[0] !in r;
      if due[0] in delivered then r else [due[0]] + r
  }

  /** The rows a query can return: rows of this session, each once. */
  predicate CanRead(st: State, s: SessionId, due: seq<MessageId>) {
    Distinct(due) && forall m :: m in due ==> m in st.home && st.home[m] == s
  }

  predicate InDelivery(st: State, d: DrainId) {
    d in st.drains && st.drains[d].current.Some?
  }

  function Attempts(st: State, m: MessageId): nat {
    if m in st.attempts then st.attempts[m] else 0
  }

  /** INSERT OR IGNORE */
  function Mark(delivered: map<MessageId, Record>, m: MessageId, r: Record): map<MessageId, Record> {
    if m in delivered then delivered else delivered[m := r]
  }

  function BeginStep(st: State, s: SessionId, due: seq<MessageId>): State {
    if s in st.inflight || !CanRead(st, s, due) then st
    else st.(inflight := st.inflight + {s},
             drains := st.drains[st.next := Drain(s, None, Undelivered(due, st.delivered))],
             next := st.next + 1)
  }

  function TakeStep(st: State, d: DrainId): State {
    if d in st.drains && st.drains[d].current.None? && st.drains[d].rest != [] then
      var dr := st.drains[d];
      st.(drains := st.drains[d := dr.(current := Some(dr.rest[0]), rest := dr.rest[1..])])
    else st
  }

  function SentStep(st: State, d: DrainId): State {
    if !InDelivery(st, d) then st
    else
      var m := st.drains[d].current.value;
      st.(delivered := Mark(st.delivered, m, Delivered),
          attempts := st.attempts - {m},
          drains := st.drains[d := st.drains[d].(current := None)])
  }

  function ThrewStep(st: State, d: DrainId): State {
    if !InDelivery(st, d) then st
    else
      var m := st.drains[d].current.value;
      var n := Attempts(st, m) + 1;
      var freed := st.drains[d := st.drains[d].(current := None)];
      if n >= MAX_DELIVERY_ATTEMPTS then
        st.(delivered := Mark(st.delivered, m, Failed), attempts := st.attempts - {m}, drains := freed)
      else
        st.(attempts := st.attempts[m := n], drains := freed)
  }

  function EndStep(st: State, d: DrainId): State {
    if d in st.drains && st.drains[d].current.None? && st.drains[d].rest == [] then
      st.(inflight := st.inflight - {st.drains[d].session}, drains := st.drains - {d})
    else st
  }

  function Step(st: State, a: Action): State {
    match a
    case Post(s, m) => if m in st.home then st else st.(home := st.home[m := s])
    case Begin(s, due) => BeginStep(st, s, due)
    case Take(d) => TakeStep(st, d)
    case Sent(d) => SentStep(st, d)
    case Threw(d) => ThrewStep(st, d)
    case End(d) => EndStep(st, d)
  }

  function Last(actions: seq<Action>): Action
    requires actions != []
  {
    actions[|actions| - 1]
  }

  function Front(actions: seq<Action>): seq<Action>
    requires actions != []
  {
    actions[..|actions| - 1]
  }

  function Run(st: State, actions: seq<Action>): State
    decreases |actions|
  {
    if actions == [] then st else Step(Run(st, Front(actions)), Last(actions))
  }

  // ---------------------------------------------------------------------------------------------
  // The invariant
  // ---------------------------------------------------------------------------------------------

  function Queue(dr: Drain): seq<MessageId> {
    (if dr.current.Some? then [dr.current.value] else []) + dr.rest
  }

  ghost predicate DrainOk(st: State, d: DrainId)
    requires d in st.drains
  {
    var dr := st.drains[d];
    && d < st.next
    && dr.session in st.inflight
    && Distinct(Queue(dr))
    && (forall m :: m in Queue(dr) ==> m in st.home && st.home[m] == dr.session && m !in st.delivered)
  }

  ghost predicate OneDrainEach(st: State) {
    && (forall d :: d in st.drains ==> st.drains[d].session in st.inflight && d < st.next)
    && (forall d, e :: d in st.drains && e in st.drains && st.drains[d].session == st.drains[e].session ==> d == e)
  }

  ghost predicate AttemptsOk(st: State) {
    forall m :: m in st.attempts ==> 1 <= st.attempts[m] < MAX_DELIVERY_ATTEMPTS && m !in st.delivered
  }

  /** A drain and the `inflightDeliveries` entry of its session come and go together, one drain per
      session; everything a drain may still hand over is unrecorded; and the attempts map holds
      exactly retryable counts of unrecorded messages. */
  ghost predicate Inv(st: State) {
    && OneDrainEach(st)
    && (forall s :: s in st.inflight ==> HasDrain(st, s))
    && (forall d :: d in st.drains ==> DrainOk(st, d))
    && AttemptsOk(st)
  }

  ghost predicate HasDrain(st: State, s: SessionId) {
    exists d :: d in st.drains && st.drains[d].session == s
  }

  lemma SplitQueue(dr: Drain)
    requires Distinct(Queue(dr))
    ensures dr.current.None? && dr.rest != [] ==>
              Queue(dr.(current := Some(dr.rest[0]), rest := dr.rest[1..])) == Queue(dr)
    ensures dr.current.Some? ==>
              && Queue(dr) == [dr.current.value] + Queue(dr.(current := None))
              && dr.current.value !in Queue(dr.(current := None))
              && Distinct(Queue(dr.(current := None)))
  {
    if dr.current.Some? {
      var tail := Queue(dr.(current := None));
      assert Queue(dr) == [dr.current.value] + tail;
      forall i | 0 <= i < |tail|
        ensures tail[i] == Queue(dr)[i + 1] && tail[i] != dr.current.value
      {
        assert Queue(dr)[0] != Queue(dr)[i + 1];
      }
    }
  }

  lemma BeginKeepsDrains(st: State, s: SessionId, due: seq<MessageId>)
    requires Inv(st) && s !in st.inflight && CanRead(st, s, due)
    ensures var st' := BeginStep(st, s, due);
            OneDrainEach(st') && forall d :: d in st'.drains ==> DrainOk(st', d)
  {
    var st' := BeginStep(st, s, due);
    var r := Undelivered(due, st.delivered);
    assert Queue(Drain(s, None, r)) == r;
    forall d | d in st'.drains
      ensures DrainOk(st', d)
    {
      if d in st.drains {
        assert DrainOk(st, d);
        assert st'.drains[d] == st.drains[d];
      } else {
        assert st'.drains[d] == Drain(s, None, r);
      }
    }
  }

  lemma BeginKeepsInv(st: State, s: SessionId, due: seq<MessageId>)
    requires Inv(st)
    ensures Inv(BeginStep(st, s, due))
  {
    var st' := BeginStep(st, s, due);
    if s !in st.inflight && CanRead(st, s, due) {
      BeginKeepsDrains(st, s, due);
      assert st'.drains[st.next].session == s;
      forall x | x in st'.inflight
        ensures HasDrain(st', x)
      {
        if x != s {
          var d :| d in st.drains && st.drains[d].session == x;
          assert st'.drains[d].session == x;
        }
      }
    }
  }

  lemma TakeKeepsInv(st: State, d: DrainId)
    requires Inv(st)
    ensures Inv(TakeStep(st, d))
  {
    var st' := TakeStep(st, d);
    if st' != st {
      assert DrainOk(st, d);
      SplitQueue(st.drains[d]);
      SameSessionsSameDrains(st, st');
      forall e | e in st'.drains
        ensures DrainOk(st', e)
      {
        assert DrainOk(st, e);
      }
    }
  }

  lemma SameSessionsSameDrains(st: State, st': State)
    requires OneDrainEach(st) && (forall s :: s in st.inflight ==> HasDrain(st, s))
    requires st'.drains.Keys == st.drains.Keys && st'.inflight == st.inflight && st'.next == st.next
    requires forall d :: d in st.drains ==> st'.drains[d].session == st.drains[d].session
    ensures OneDrainEach(st') && (forall s :: s in st'.inflight ==> HasDrain(st', s))
  {
    forall s | s in st'.inflight
      ensures HasDrain(st', s)
    {
      var d :| d in st.drains && st.drains[d].session == s;
      assert st'.drains[d].session == s;
    }
  }

  /** What a result changes of the drains and of the table, recorded or not. */
  ghost predicate Settled(st: State, d: DrainId, st': State)
    requires InDelivery(st, d)
  {
    && st'.home == st.home && st'.inflight == st.inflight && st'.next == st.next
    && st'.drains == st.drains[d := st.drains[d].(current := None)]
    && forall m :: m in st'.delivered ==> m in st.delivered || m == st.drains[d].current.value
  }

  lemma ResultSettles(st: State, d: DrainId)
    requires InDelivery(st, d)
    ensures Settled(st, d, SentStep(st, d)) && Settled(st, d, ThrewStep(st, d))
  {
  }

  /** Recording or retrying the message in delivery leaves every other queue unrecorded. */
  lemma ResultKeepsDrains(st: State, d: DrainId, st': State, e: DrainId)
    requires OneDrainEach(st) && InDelivery(st, d) && DrainOk(st, d)
    requires e in st.drains && DrainOk(st, e)
    requires Settled(st, d, st')
    ensures DrainOk(st', e)
  {
    if e != d {
      var m := st.drains[d].current.value;
      assert m == Queue(st.drains[d])[0] && m !in Queue(st.drains[e]);
      assert st'.drains[e] == st.drains[e];
    } else {
      SplitQueue(st.drains[d]);
    }
  }

  lemma ResultKeepsInv(st: State, d: DrainId, st': State)
    requires Inv(st) && InDelivery(st, d)
    requires st' == SentStep(st, d) || st' == ThrewStep(st, d)
    ensures Inv(st')
  {
    assert DrainOk(st, d);
    ResultSettles(st, d);
    SettledKeepsDrains(st, d, st');
    ResultKeepsAttempts(st, d, st');
  }

  lemma SettledKeepsDrains(st: State, d: DrainId, st': State)
    requires Inv(st) && InDelivery(st, d) && Settled(st, d, st')
    ensures OneDrainEach(st') && (forall s :: s in st'.inflight ==> HasDrain(st', s))
    ensures forall e :: e in st'.drains ==> DrainOk(st', e)
  {
    SameSessionsSameDrains(st, st');
    assert DrainOk(st, d);
    forall e | e in st'.drains
      ensures DrainOk(st', e)
    {
      assert DrainOk(st, e);
      ResultKeepsDrains(st, d, st', e);
    }
  }

  lemma ResultKeepsAttempts(st: State, d: DrainId, st': State)
    requires AttemptsOk(st) && InDelivery(st, d) && DrainOk(st, d)
    requires st' == SentStep(st, d) || st' == ThrewStep(st, d)
    ensures AttemptsOk(st')
  {
    assert st.drains[d].current.value == Queue(st.drains[d])[0];
  }

  lemma EndKeepsInv(st: State, d: DrainId)
    requires Inv(st)
    ensures Inv(EndStep(st, d))
  {
    if EndStep(st, d) != st {
      EndKeepsSessions(st, d);
      EndKeepsDrains(st, d);
    }
  }

  lemma EndKeepsSessions(st: State, d: DrainId)
    requires OneDrainEach(st) && (forall s :: s in st.inflight ==> HasDrain(st, s)) && d in st.drains
    ensures var st' := st.(inflight := st.inflight - {st.drains[d].session}, drains := st.drains - {d});
            OneDrainEach(st') && forall s :: s in st'.inflight ==> HasDrain(st', s)
  {
    var st' := st.(inflight := st.inflight - {st.drains[d].session}, drains := st.drains - {d});
    forall s | s in st'.inflight
      ensures HasDrain(st', s)
    {
      var e :| e in st.drains && st.drains[e].session == s;
      assert st'.drains[e].session == s;
    }
  }

  lemma EndKeepsDrains(st: State, d: DrainId)
    requires OneDrainEach(st) && (forall e :: e in st.drains ==> DrainOk(st, e)) && d in st.drains
    ensures var st' := st.(inflight := st.inflight - {st.drains[d].session}, drains := st.drains - {d});
            forall e :: e in st'.drains ==> DrainOk(st', e)
  {
    var st' := st.(inflight := st.inflight - {st.drains[d].session}, drains := st.drains - {d});
    forall e | e in st'.drains
      ensures DrainOk(st', e)
    {
      assert DrainOk(st, e);
    }
  }

  lemma PostKeepsInv(st: State, s: SessionId, m: MessageId)
    requires Inv(st)
    ensures Inv(Step(st, Post(s, m)))
  {
    var st' := Step(st, Post(s, m));
    SameSessionsSameDrains(st, st');
    forall d | d in st.drains
      ensures DrainOk(st', d)
    {
      assert DrainOk(st, d);
    }
  }

  lemma StepKeepsInv(st: State, a: Action)
    requires Inv(st)
    ensures Inv(Step(st, a))
  {
    match a
    case Post(s, m) => PostKeepsInv(st, s, m);
    case Begin(s, due) => BeginKeepsInv(st, s, due);
    case Take(d) => TakeKeepsInv(st, d);
    case Sent(d) => if InDelivery(st, d) { ResultKeepsInv(st, d, SentStep(st, d)); }
    case Threw(d) => if InDelivery(st, d) { ResultKeepsInv(st, d, ThrewStep(st, d)); }
    case End(d) => EndKeepsInv(st, d);
  }

  lemma {:induction false} RunKeepsInv(st: State, actions: seq<Action>)
    requires Inv(st)
    ensures Inv(Run(st, actions))
    decreases |actions|
  {
    if actions != [] {
      RunKeepsInv(st, Front(actions));
      StepKeepsInv(Run(st, Front(actions)), Last(actions));
    }
  }

  lemma StartHasInv(st: State)
    requires IsStart(st)
    ensures Inv(st)
  {
  }

  // ---------------------------------------------------------------------------------------------
  // What happened to one message over a whole run
  // ---------------------------------------------------------------------------------------------

  /** What is seen of a message from outside: it goes into `deliverMessage`, which returns or throws. */
  datatype Event = Handed | Returned | Raised

  function EventOf(st: State, a: Action, m: MessageId): seq<Event> {
    match a
    case Take(d) =>
      if d in st.drains && st.drains[d].current.None? && st.drains[d].rest != [] && st.drains[d].rest[0] == m
      then [Handed] else []
    case Sent(d) => if InDelivery(st, d) && st.drains[d].current.value == m then [Returned] else []
    case Threw(d) => if InDelivery(st, d) && st.drains[d].current.value == m then [Raised] else []
    case _ => []
  }

  function History(st: State, actions: seq<Action>, m: MessageId): seq<Event>
    decreases |actions|
  {
    if actions == [] then []
    else History(st, Front(actions), m) + EventOf(Run(st, Front(actions)), Last(actions), m)
  }

  function FailedTries(n: nat): seq<Event> {
    if n == 0 then [] else FailedTries(n - 1) + [Handed, Raised]
  }

  predicate BeingDelivered(st: State, m: MessageId) {
    exists d :: d in st.drains && st.drains[d].current == Some(m)
  }

  /** The history a state accounts for. */
  ghost predicate Accounts(st: State, m: MessageId, h: seq<Event>) {
    if m !in st.delivered then
      h == FailedTries(Attempts(st, m)) + if BeingDelivered(st, m) then [Handed] else []
    else if st.delivered[m].Failed? then
      h == FailedTries(3)
    else
      exists n: nat :: n < 3 && h == FailedTries(n) + [Handed, Returned]
  }

  /** The attempts map and the delivered table say exactly what happened to each message in this process
      life, however the drains interleave: recorded as failed after three throws, as delivered after at
      most two throws and one return, and otherwise still within its attempts. */
  lemma {:induction false} StateAccountsForHistory(start: State, actions: seq<Action>, m: MessageId)
    requires IsStart(start) && m !in start.delivered
    ensures Accounts(Run(start, actions), m, History(start, actions, m))
    decreases |actions|
  {
    if actions == [] {
      assert FailedTries(0) + [] == [];
    } else {
      var st, a := Run(start, Front(actions)), Last(actions);
      StateAccountsForHistory(start, Front(actions), m);
      StartHasInv(start);
      RunKeepsInv(start, Front(actions));
      StepAccounts(st, a, m, History(start, Front(actions), m));
    }
  }

  lemma StepAccounts(st: State, a: Action, m: MessageId, h: seq<Event>)
    requires Inv(st) && Accounts(st, m, h)
    ensures Accounts(Step(st, a), m, h + EventOf(st, a, m))
  {
    match a
    case Post(s, id) => assert h + [] == h; SameDelivery(st, Step(st, a), m);
    case Begin(s, due) => assert h + [] == h; BeginKeepsDelivery(st, s, due, m);
    case Take(d) => TakeAccounts(st, d, m, h);
    case Sent(d) => ResultAccounts(st, a, d, m, h);
    case Threw(d) => ResultAccounts(st, a, d, m, h);
    case End(d) => assert h + [] == h; EndKeepsDelivery(st, d, m);
  }

  lemma SameDelivery(st: State, st': State, m: MessageId)
    requires st'.drains == st.drains
    ensures BeingDelivered(st', m) == BeingDelivered(st, m)
  {
  }

  lemma BeginKeepsDelivery(st: State, s: SessionId, due: seq<MessageId>, m: MessageId)
    requires Inv(st)
    ensures BeingDelivered(BeginStep(st, s, due), m) == BeingDelivered(st, m)
  {
    var st' := BeginStep(st, s, due);
    if d :| d in st.drains && st.drains[d].current == Some(m) {
      assert DrainOk(st, d) && st'.drains[d].current == Some(m);
    }
  }

  lemma EndKeepsDelivery(st: State, d: DrainId, m: MessageId)
    requires Inv(st)
    ensures BeingDelivered(EndStep(st, d), m) == BeingDelivered(st, m)
  {
    var st' := EndStep(st, d);
    if e :| e in st.drains && st.drains[e].current == Some(m) {
      assert e in st'.drains && st'.drains[e].current == Some(m);
    }
  }

  /** Two drains never hold the same message. */
  lemma HeldOnce(st: State, d: DrainId, e: DrainId, m: MessageId)
    requires Inv(st) && d in st.drains && e in st.drains
    requires m in Queue(st.drains[d]) && m in Queue(st.drains[e])
    ensures d == e && m !in st.delivered
  {
    assert DrainOk(st, d) && DrainOk(st, e);
  }

  lemma TakeChangesDelivery(st: State, d: DrainId, m: MessageId)
    requires Inv(st)
    ensures var taken := EventOf(st, Take(d), m) != [];
            && BeingDelivered(TakeStep(st, d), m) == (BeingDelivered(st, m) || taken)
            && (taken ==> !BeingDelivered(st, m) && m !in st.delivered)
  {
    var st' := TakeStep(st, d);
    if EventOf(st, Take(d), m) != [] {
      assert m in Queue(st.drains[d]);
      HeldOnce(st, d, d, m);
      forall e | e in st.drains
        ensures st.drains[e].current != Some(m)
      {
        if m in Queue(st.drains[e]) { HeldOnce(st, d, e, m); }
      }
      assert st'.drains[d].current == Some(m);
    } else {
      if e :| e in st.drains && st.drains[e].current == Some(m) {
        assert st'.drains[e].current == Some(m);
      }
    }
  }

  lemma ResultChangesDelivery(st: State, a: Action, d: DrainId, m: MessageId)
    requires Inv(st) && (a == Sent(d) || a == Threw(d))
    ensures var over := EventOf(st, a, m) != [];
            && BeingDelivered(Step(st, a), m) == (BeingDelivered(st, m) && !over)
            && (over ==> BeingDelivered(st, m) && m !in st.delivered)
  {
    var st' := Step(st, a);
    if EventOf(st, a, m) != [] {
      assert m in Queue(st.drains[d]);
      HeldOnce(st, d, d, m);
      forall e | e in st'.drains
        ensures st'.drains[e].current != Some(m)
      {
        if m in Queue(st.drains[e]) { HeldOnce(st, d, e, m); }
      }
    } else {
      if e :| e in st.drains && st.drains[e].current == Some(m) {
        assert st'.drains[e].current == Some(m);
      }
    }
  }

  lemma TakeAccounts(st: State, d: DrainId, m: MessageId, h: seq<Event>)
    requires Inv(st) && Accounts(st, m, h)
    ensures Accounts(TakeStep(st, d), m, h + EventOf(st, Take(d), m))
  {
    TakeChangesDelivery(st, d, m);
    var tries := FailedTries(Attempts(st, m));
    assert h + [] == h && (tries + []) + [Handed] == tries + [Handed];
  }

  lemma SentAccounts(st: State, d: DrainId, m: MessageId, h: seq<Event>)
    requires InDelivery(st, d) && st.drains[d].current == Some(m) && m !in st.delivered
    requires Attempts(st, m) < MAX_DELIVERY_ATTEMPTS && h == FailedTries(Attempts(st, m)) + [Handed]
    ensures Accounts(SentStep(st, d), m, h + [Returned])
  {
    var n := Attempts(st, m);
    assert h + [Returned] == FailedTries(n) + [Handed, Returned];
    assert SentStep(st, d).delivered[m] == Delivered;
  }

  lemma ThrewAccounts(st: State, d: DrainId, m: MessageId, h: seq<Event>)
    requires InDelivery(st, d) && st.drains[d].current == Some(m) && m !in st.delivered
    requires Attempts(st, m) < MAX_DELIVERY_ATTEMPTS && h == FailedTries(Attempts(st, m)) + [Handed]
    requires !BeingDelivered(ThrewStep(st, d), m)
    ensures Accounts(ThrewStep(st, d), m, h + [Raised])
  {
    var n := Attempts(st, m);
    assert h + [Raised] == FailedTries(n) + [Handed, Raised];
    assert FailedTries(n + 1) + [] == FailedTries(n + 1);
  }

  lemma ResultAccounts(st: State, a: Action, d: DrainId, m: MessageId, h: seq<Event>)
    requires Inv(st) && Accounts(st, m, h)
    requires a == Sent(d) || a == Threw(d)
    ensures Accounts(Step(st, a), m, h + EventOf(st, a, m))
  {
    ResultChangesDelivery(st, a, d, m);
    if EventOf(st, a, m) == [] {
      assert h + [] == h;
      OtherMessageKept(st, a, d, m);
    } else if a.Sent? {
      SentAccounts(st, d, m, h);
    } else {
      ThrewAccounts(st, d, m, h);
    }
  }

  lemma OtherMessageKept(st: State, a: Action, d: DrainId, m: MessageId)
    requires a == Sent(d) || a == Threw(d)
    requires EventOf(st, a, m) == []
    ensures Attempts(Step(st, a), m) == Attempts(st, m)
    ensures m in Step(st, a).delivered <==> m in st.delivered
    ensures m in st.delivered ==> Step(st, a).delivered[m] == st.delivered[m]
  {
  }

  function Handovers(h: seq<Event>): nat {
    if h == [] then 0 else Handovers(h[..|h| - 1]) + if h[|h| - 1].Handed? then 1 else 0
  }

  lemma {:induction false} HandoversOfTries(n: nat)
    ensures Handovers(FailedTries(n)) == n
    ensures Handovers(FailedTries(n) + [Handed]) == n + 1
    ensures Handovers(FailedTries(n) + [Handed, Returned]) == n + 1
  {
    var t := FailedTries(n);
    if n > 0 {
      HandoversOfTries(n - 1);
      assert t[..|t| - 1] == FailedTries(n - 1) + [Handed];
    }
    assert (t + [Handed])[..|t|] == t;
    assert (t + [Handed, Returned])[..|t| + 1] == t + [Handed];
  }

  /** No message gets more than three delivery attempts in one process life. */
  lemma AtMostThreeAttempts(start: State, actions: seq<Action>, m: MessageId)
    requires IsStart(start)
    ensures Handovers(History(start, actions, m)) <= 3
  {
    StartHasInv(start);
    if m in start.delivered {
      RecordedIsFinal(start, [], actions, m);
      assert [] + actions == actions;
    } else {
      StateAccountsForHistory(start, actions, m);
      RunKeepsInv(start, actions);
      AccountsBoundsHandovers(Run(start, actions), m, History(start, actions, m));
    }
  }

  lemma AccountsBoundsHandovers(st: State, m: MessageId, h: seq<Event>)
    requires Accounts(st, m, h) && AttemptsOk(st)
    ensures Handovers(h) <= MAX_DELIVERY_ATTEMPTS
  {
    if m !in st.delivered {
      HandoversOfTries(Attempts(st, m));
      assert FailedTries(Attempts(st, m)) + [] == FailedTries(Attempts(st, m));
    } else if st.delivered[m].Failed? {
      HandoversOfTries(MAX_DELIVERY_ATTEMPTS);
    } else {
      var n: nat :| n < MAX_DELIVERY_ATTEMPTS && h == FailedTries(n) + [Handed, Returned];
      HandoversOfTries(n);
    }
  }

  /** Once recorded, a message keeps its record and is never handed to `deliverMessage` again in the same
      process life. */
  lemma {:induction false} RecordedIsFinal(start: State, actions: seq<Action>, more: seq<Action>, m: MessageId)
    requires IsStart(start) && m in Run(start, actions).delivered
    ensures m in Run(start, actions + more).delivered
    ensures Run(start, actions + more).delivered[m] == Run(start, actions).delivered[m]
    ensures History(start, actions + more, m) == History(start, actions, m)
    decreases |more|
  {
    if more == [] {
      assert actions + more == actions;
    } else {
      assert Front(actions + more) == actions + Front(more) && Last(actions + more) == Last(more);
      RecordedIsFinal(start, actions, Front(more), m);
      OneMoreChangesNothing(start, actions + Front(more), Last(more), m);
    }
  }

  lemma OneMoreChangesNothing(start: State, actions: seq<Action>, a: Action, m: MessageId)
    requires IsStart(start) && m in Run(start, actions).delivered
    ensures var st := Run(start, actions);
            EventOf(st, a, m) == [] && m in Step(st, a).delivered && Step(st, a).delivered[m] == st.delivered[m]
  {
    StartHasInv(start);
    RunKeepsInv(start, actions);
    OnlyUnrecordedHasEvents(Run(start, actions), a, m);
  }

  lemma OnlyUnrecordedHasEvents(st: State, a: Action, m: MessageId)
    requires Inv(st)
    ensures m in st.delivered ==> EventOf(st, a, m) == []
  {
    match a
    case Take(d) => TakeChangesDelivery(st, d, m);
    case Sent(d) => ResultChangesDelivery(st, a, d, m);
    case Threw(d) => ResultChangesDelivery(st, a, d, m);
    case _ =>
  }

  /** A message that a container posts is in its session's table from then on. */
  lemma {:induction false} PostedStays(st: State, s: SessionId, m: MessageId, more: seq<Action>)
    requires m !in st.home
    ensures var st' := Run(Step(st, Post(s, m)), more); m in st'.home && st'.home[m] == s
    decreases |more|
  {
    if more != [] { PostedStays(st, s, m, Front(more)); }
  }

  // ---------------------------------------------------------------------------------------------
  // Restarts of the process
  // ---------------------------------------------------------------------------------------------

  /** The process stops anywhere and starts again: drains and counts are gone, the tables stay. */
  function Restarted(st: State): State {
    Start(st.home, st.delivered)
  }

  /** The start of the process life after these. */
  function AfterLives(start: State, lives: seq<seq<Action>>): State
    decreases |lives|
  {
    if lives == [] then start else AfterLives(Restarted(Run(start, lives[0])), lives[1..])
  }

  /** What happens to a message over all of them. */
  function LongHistory(start: State, lives: seq<seq<Action>>, m: MessageId): seq<Event>
    decreases |lives|
  {
    if lives == [] then []
    else History(start, lives[0], m) + LongHistory(Restarted(Run(start, lives[0])), lives[1..], m)
  }

  /** A recorded message keeps its record over every number of process lives, and is never handed to
      `deliverMessage` again. */
  lemma {:induction false} RecordedOutlastsRestarts(start: State, lives: seq<seq<Action>>, m: MessageId)
    requires IsStart(start) && m in start.delivered
    ensures m in AfterLives(start, lives).delivered && AfterLives(start, lives).delivered[m] == start.delivered[m]
    ensures LongHistory(start, lives, m) == []
    decreases |lives|
  {
    if lives != [] {
      RecordedIsFinal(start, [], lives[0], m);
      assert [] + lives[0] == lives[0];
      RecordedOutlastsRestarts(Restarted(Run(start, lives[0])), lives[1..], m);
    }
  }

  function Returns(h: seq<Event>): nat {
    if h == [] then 0 else Returns(h[..|h| - 1]) + if h[|h| - 1].Returned? then 1 else 0
  }

  lemma {:induction false} ReturnsOfTries(n: nat)
    ensures Returns(FailedTries(n)) == 0
    ensures Returns(FailedTries(n) + [Handed]) == 0
    ensures Returns(FailedTries(n) + [Handed, Returned]) == 1
  {
    var t := FailedTries(n);
    if n > 0 {
      ReturnsOfTries(n - 1);
      assert t[..|t| - 1] == FailedTries(n - 1) + [Handed];
    }
    assert (t + [Handed])[..|t|] == t;
    assert (t + [Handed, Returned])[..|t| + 1] == t + [Handed];
  }

  lemma AccountsForReturns(st: State, m: MessageId, h: seq<Event>)
    requires Accounts(st, m, h)
    ensures Returns(h) == if m in st.delivered && st.delivered[m].Delivered? then 1 else 0
  {
    if m !in st.delivered {
      NoReturnYet(Attempts(st, m), BeingDelivered(st, m));
    } else if st.delivered[m].Failed? {
      ReturnsOfTries(MAX_DELIVERY_ATTEMPTS);
    } else {
      var n: nat :| n < MAX_DELIVERY_ATTEMPTS && h == FailedTries(n) + [Handed, Returned];
      ReturnsOfTries(n);
    }
  }

  lemma NoReturnYet(n: nat, handed: bool)
    ensures Returns(FailedTries(n) + if handed then [Handed] else []) == 0
  {
    ReturnsOfTries(n);
    if !handed {
      assert FailedTries(n) + [] == FailedTries(n);
    }
  }

  /** However often the process restarts, at most one delivery of a message returns, and one did exactly
      if the message ends up recorded as delivered. */
  lemma {:induction false} ReturnsOnceIffDelivered(start: State, lives: seq<seq<Action>>, m: MessageId)
    requires IsStart(start) && m !in start.delivered
    ensures var after := AfterLives(start, lives);
            Returns(LongHistory(start, lives, m)) == if m in after.delivered && after.delivered[m].Delivered? then 1 else 0
    decreases |lives|
  {
    if lives != [] {
      var st := Run(start, lives[0]);
      var h := History(start, lives[0], m);
      StateAccountsForHistory(start, lives[0], m);
      AccountsForReturns(st, m, h);
      if m in st.delivered {
        RecordedOutlastsRestarts(Restarted(st), lives[1..], m);
        assert h + [] == h;
      } else {
        ReturnsOnceIffDelivered(Restarted(st), lives[1..], m);
        ReturnsOfParts(h, LongHistory(Restarted(st), lives[1..], m));
      }
    }
  }

  lemma {:induction false} ReturnsOfParts(a: seq<Event>, b: seq<Event>)
    ensures Returns(a + b) == Returns(a) + Returns(b)
    decreases |b|
  {
    if b == [] {
      assert a + b == a;
    } else {
      assert (a + b)[..|a + b| - 1] == a + b[..|b| - 1];
      ReturnsOfParts(a, b[..|b| - 1]);
    }
  }

  // ---------------------------------------------------------------------------------------------
  // What other pollers can do while one drain waits
  // ---------------------------------------------------------------------------------------------

  lemma {:induction false} RunsCompose(st: State, a: seq<Action>, b: seq<Action>)
    ensures Run(st, a + b) == Run(Run(st, a), b)
    decreases |b|
  {
    if b == [] {
      assert a + b == a;
    } else {
      assert Front(a + b) == a + Front(b) && Last(a + b) == Last(b);
      RunsCompose(st, a, Front(b));
    }
  }

  lemma OneMoreStep(st: State, actions: seq<Action>, a: Action)
    ensures Run(st, actions + [a]) == Step(Run(st, actions), a)
  {
    assert Front(actions + [a]) == actions;
  }

  predicate IsBy(a: Action, d: DrainId) {
    (a.Take? || a.Sent? || a.Threw? || a.End?) && a.drain == d
  }

  predicate Spares(actions: seq<Action>, d: DrainId) {
    forall i :: 0 <= i < |actions| ==> !IsBy(actions[i], d)
  }

  predicate SameMessage(st: State, st': State, m: MessageId) {
    && Attempts(st', m) == Attempts(st, m)
    && (m in st'.delivered <==> m in st.delivered)
    && (m in st.delivered ==> st'.delivered[m] == st.delivered[m])
  }

  /** Every message of session `s` is as it was. */
  predicate Untouched(st: State, st': State, s: SessionId) {
    forall m :: m in st.home && st.home[m] == s ==>
      m in st'.home && st'.home[m] == s && SameMessage(st, st', m)
  }

  /** Nothing that runs while a drain waits for its channel touches that drain, or any message of
      its session. */
  lemma {:induction false} OthersLeaveTheDrainAlone(st: State, actions: seq<Action>, d: DrainId)
    requires Inv(st) && d in st.drains && Spares(actions, d)
    ensures var st' := Run(st, actions);
            && Inv(st') && d in st'.drains && st'.drains[d] == st.drains[d]
            && Untouched(st, st', st.drains[d].session)
    decreases |actions|
  {
    if actions != [] {
      var mid := Run(st, Front(actions));
      OthersLeaveTheDrainAlone(st, Front(actions), d);
      StepKeepsInv(mid, Last(actions));
      OtherStep(mid, Last(actions), d);
    }
  }

  lemma OtherStep(st: State, a: Action, d: DrainId)
    requires Inv(st) && d in st.drains && !IsBy(a, d)
    ensures var st' := Step(st, a);
            && d in st'.drains && st'.drains[d] == st.drains[d]
            && Untouched(st, st', st.drains[d].session)
  {
    match a
    case Sent(e) => OtherResult(st, a, d, e);
    case Threw(e) => OtherResult(st, a, d, e);
    case Begin(s, due) => BeginSpares(st, s, due, d);
    case Take(e) => QuietStep(st, TakeStep(st, e), d);
    case End(e) => QuietStep(st, EndStep(st, e), d);
    case Post(s, m) => PostSpares(st, s, m, d);
  }

  lemma PostSpares(st: State, s: SessionId, m: MessageId, d: DrainId)
    requires d in st.drains
    ensures var st' := Step(st, Post(s, m));
            && d in st'.drains && st'.drains[d] == st.drains[d]
            && Untouched(st, st', st.drains[d].session)
  {
  }

  lemma QuietStep(st: State, st': State, d: DrainId)
    requires d in st.drains && d in st'.drains && st'.drains[d] == st.drains[d]
    requires st'.home == st.home && st'.delivered == st.delivered && st'.attempts == st.attempts
    ensures Untouched(st, st', st.drains[d].session)
  {
  }

  lemma BeginSpares(st: State, s: SessionId, due: seq<MessageId>, d: DrainId)
    requires Inv(st) && d in st.drains
    ensures var st' := BeginStep(st, s, due);
            && d in st'.drains && st'.drains[d] == st.drains[d]
            && Untouched(st, st', st.drains[d].session)
  {
    assert DrainOk(st, d);
    QuietStep(st, BeginStep(st, s, due), d);
  }

  lemma OtherResult(st: State, a: Action, d: DrainId, e: DrainId)
    requires Inv(st) && d in st.drains && e != d && (a == Sent(e) || a == Threw(e))
    ensures var st' := Step(st, a);
            && d in st'.drains && st'.drains[d] == st.drains[d]
            && Untouched(st, st', st.drains[d].session)
  {
    if InDelivery(st, e) {
      var m := st.drains[e].current.value;
      assert DrainOk(st, e) && m == Queue(st.drains[e])[0];
      assert st.home[m] != st.drains[d].session;
      ResultSettles(st, e);
      ResultSpares(st, a, e);
    }
  }

  lemma ResultSpares(st: State, a: Action, e: DrainId)
    requires InDelivery(st, e) && (a == Sent(e) || a == Threw(e))
    ensures forall x :: x != st.drains[e].current.value ==> SameMessage(st, Step(st, a), x)
  {
  }

  /** One attempt was made on the message, and its result is recorded where the code says. */
  predicate AttemptedOnce(st: State, st': State, m: MessageId) {
    var n := Attempts(st, m) + 1;
    if m !in st'.delivered then n < MAX_DELIVERY_ATTEMPTS && Attempts(st', m) == n
    else Attempts(st', m) == 0 && (st'.delivered[m].Failed? ==> n == MAX_DELIVERY_ATTEMPTS)
  }

  /** `m` is the head of the queue; the other messages of the session are left as they were. */
  ghost predicate OneTurn(st: State, st': State, s: SessionId, m: MessageId) {
    && AttemptedOnce(st, st', m)
    && forall x :: x in st.home && st.home[x] == s ==>
         x in st'.home && st'.home[x] == s && (x != m ==> SameMessage(st, st', x))
  }

  predicate ReadyToTake(st: State, d: DrainId) {
    d in st.drains && st.drains[d].current.None? && st.drains[d].rest != []
  }

  lemma SentTouchesOneMessage(st: State, d: DrainId)
    requires Inv(st) && InDelivery(st, d)
    ensures var m := st.drains[d].current.value;
            AttemptedOnce(st, SentStep(st, d), m) && forall x :: x != m ==> SameMessage(st, SentStep(st, d), x)
  {
    assert st.drains[d].current.value in Queue(st.drains[d]);
    HeldOnce(st, d, d, st.drains[d].current.value);
  }

  lemma ThrewTouchesOneMessage(st: State, d: DrainId)
    requires Inv(st) && InDelivery(st, d)
    ensures var m := st.drains[d].current.value;
            AttemptedOnce(st, ThrewStep(st, d), m) && forall x :: x != m ==> SameMessage(st, ThrewStep(st, d), x)
  {
    assert st.drains[d].current.value in Queue(st.drains[d]);
    HeldOnce(st, d, d, st.drains[d].current.value);
  }

  lemma ResultTouchesOneMessage(st: State, d: DrainId, ok: bool)
    requires Inv(st) && InDelivery(st, d)
    ensures var st' := Step(st, if ok then Sent(d) else Threw(d));
            var m := st.drains[d].current.value;
            && st'.home == st.home
            && AttemptedOnce(st, st', m)
            && forall x :: x != m ==> SameMessage(st, st', x)
  {
    SentTouchesOneMessage(st, d);
    ThrewTouchesOneMessage(st, d);
  }

  lemma ComposeTurn(st: State, taken: State, waited: State, st': State, s: SessionId, m: MessageId)
    requires m in st.home && st.home[m] == s
    requires taken.home == st.home && forall x :: SameMessage(st, taken, x)
    requires Untouched(taken, waited, s)
    requires st'.home == waited.home && AttemptedOnce(waited, st', m)
    requires forall x :: x != m ==> SameMessage(waited, st', x)
    ensures OneTurn(st, st', s, m)
  {
    assert SameMessage(st, taken, m) && SameMessage(taken, waited, m);
    forall x | x in st.home && st.home[x] == s && x != m
      ensures SameMessage(st, st', x)
    {
      assert SameMessage(st, taken, x) && SameMessage(taken, waited, x) && SameMessage(waited, st', x);
    }
  }

  lemma TakeFacts(st: State, d: DrainId)
    requires Inv(st) && ReadyToTake(st, d)
    ensures var m := st.drains[d].rest[0];
            var taken := TakeStep(st, d);
            && Inv(taken) && d in taken.drains
            && taken.drains[d] == Drain(st.drains[d].session, Some(m), st.drains[d].rest[1..])
            && m in st.home && st.home[m] == st.drains[d].session
            && taken.home == st.home && forall x :: SameMessage(st, taken, x)
  {
    TakeKeepsInv(st, d);
    assert DrainOk(st, d);
    assert st.drains[d].rest[0] in Queue(st.drains[d]);
  }

  /** One turn of the drain loop: take the next message, let the others run, record the result. */
  lemma TurnSummary(st: State, d: DrainId, others: seq<Action>, ok: bool)
    requires Inv(st) && ReadyToTake(st, d) && Spares(others, d)
    ensures var st' := Step(Run(TakeStep(st, d), others), if ok then Sent(d) else Threw(d));
            var dr := st.drains[d];
            && Inv(st') && d in st'.drains && st'.drains[d] == dr.(rest := dr.rest[1..])
            && OneTurn(st, st', dr.session, dr.rest[0])
  {
    TakeFacts(st, d);
    var taken := TakeStep(st, d);
    OthersLeaveTheDrainAlone(taken, others, d);
    var waited := Run(taken, others);
    var result := if ok then Sent(d) else Threw(d);
    StepKeepsInv(waited, result);
    ResultTouchesOneMessage(waited, d, ok);
    ResultFreesDrain(waited, d, ok);
    ComposeTurn(st, taken, waited, Step(waited, result), st.drains[d].session, st.drains[d].rest[0]);
  }

  lemma ResultFreesDrain(st: State, d: DrainId, ok: bool)
    requires InDelivery(st, d)
    ensures var st' := Step(st, if ok then Sent(d) else Threw(d));
            d in st'.drains && st'.drains[d] == st.drains[d].(current := None)
  {
  }

  lemma TurnIsARun(st: State, d: DrainId, others: seq<Action>, result: Action)
    ensures Run(st, [Take(d)] + others + [result]) == Step(Run(TakeStep(st, d), others), result)
  {
    OneMoreStep(st, [], Take(d));
    assert [] + [Take(d)] == [Take(d)];
    RunsCompose(st, [Take(d)], others);
    OneMoreStep(st, [Take(d)] + others, result);
  }

  /** The first `i` messages have been attempted once since `st0`, the rest not at all. */
  ghost predicate Progress(st0: State, st: State, s: SessionId, ids: seq<MessageId>, i: nat) {
    && i <= |ids| && Distinct(ids)
    && (forall j :: 0 <= j < |ids| ==> ids[j] in st.home && st.home[ids[j]] == s)
    && (forall j :: 0 <= j < i ==> AttemptedOnce(st0, st, ids[j]))
    && (forall j :: i <= j < |ids| ==> SameMessage(st0, st, ids[j]))
  }

  lemma TurnMakesProgress(st0: State, st: State, st': State, s: SessionId, ids: seq<MessageId>, i: nat)
    requires Progress(st0, st, s, ids, i) && i < |ids|
    requires OneTurn(st, st', s, ids[i])
    ensures Progress(st0, st', s, ids, i + 1)
  {
    forall j | 0 <= j < |ids| && j != i
      ensures SameMessage(st, st', ids[j])
    {
      assert ids[j] in st.home;
    }
  }

  lemma EndFinishes(st0: State, st: State, d: DrainId, s: SessionId, ids: seq<MessageId>)
    requires Inv(st) && d in st.drains && st.drains[d] == Drain(s, None, [])
    requires Progress(st0, st, s, ids, |ids|)
    ensures var st' := EndStep(st, d);
            && Inv(st') && s !in st'.inflight
            && forall m :: m in ids ==> AttemptedOnce(st0, st', m)
  {
    EndKeepsInv(st, d);
    forall m | m in ids
      ensures AttemptedOnce(st0, EndStep(st, d), m)
    {
      assert AttemptedOnce(st0, st, m);
    }
  }

  lemma BeginMakesProgress(st: State, s: SessionId, due: seq<MessageId>)
    requires Inv(st) && CanRead(st, s, due) && s !in st.inflight
    ensures var ids := Undelivered(due, st.delivered);
            var st' := BeginStep(st, s, due);
            && Inv(st') && Progress(st, st', s, ids, 0)
            && st'.drains == st.drains[st.next := Drain(s, None, ids)]
  {
    BeginKeepsInv(st, s, due);
  }

  // ---------------------------------------------------------------------------------------------
  // The order in which the messages of a session are handed over
  // ---------------------------------------------------------------------------------------------

  /** The message of session `s` that this block hands to `deliverMessage`. */
  function HandedBy(st: State, a: Action, s: SessionId): seq<MessageId> {
    if a.Take? && ReadyToTake(st, a.drain) && st.drains[a.drain].session == s
    then [Step(st, a).drains[a.drain].current.value] else []
  }

  function HandedOver(st: State, actions: seq<Action>, s: SessionId): seq<MessageId>
    decreases |actions|
  {
    if actions == [] then []
    else HandedOver(st, Front(actions), s) + HandedBy(Run(st, Front(actions)), Last(actions), s)
  }

  lemma {:induction false} HandedOverInParts(st: State, a: seq<Action>, b: seq<Action>, s: SessionId)
    ensures HandedOver(st, a + b, s) == HandedOver(st, a, s) + HandedOver(Run(st, a), b, s)
    decreases |b|
  {
    if b == [] {
      assert a + b == a;
    } else {
      assert Front(a + b) == a + Front(b) && Last(a + b) == Last(b);
      HandedOverInParts(st, a, Front(b), s);
      RunsCompose(st, a, Front(b));
    }
  }

  lemma HandedOverByOne(st: State, a: Action, s: SessionId)
    ensures HandedOver(st, [a], s) == HandedBy(st, a, s)
  {
    assert Front([a]) == [] && HandedOver(st, [], s) == [];
  }

  /** While a drain waits, nobody else hands over messages of its session. */
  lemma {:induction false} OthersHandOverNothing(st: State, actions: seq<Action>, d: DrainId)
    requires Inv(st) && d in st.drains && Spares(actions, d)
    ensures HandedOver(st, actions, st.drains[d].session) == []
    decreases |actions|
  {
    if actions != [] {
      OthersLeaveTheDrainAlone(st, Front(actions), d);
      OthersHandOverNothing(st, Front(actions), d);
      assert !IsBy(Last(actions), d);
    }
  }

  /** One turn of the drain loop hands over the first message that is left. */
  lemma TurnHandsOver(st: State, d: DrainId, others: seq<Action>, ok: bool)
    requires Inv(st) && ReadyToTake(st, d) && Spares(others, d)
    ensures HandedOver(st, [Take(d)] + others + [if ok then Sent(d) else Threw(d)], st.drains[d].session)
         == [st.drains[d].rest[0]]
  {
    var s, result := st.drains[d].session, if ok then Sent(d) else Threw(d);
    HandedOverInParts(st, [Take(d)] + others, [result], s);
    HandedOverInParts(st, [Take(d)], others, s);
    TakeHandsOver(st, d);
    OthersHandOverNothing(TakeStep(st, d), others, d);
    HandedOverByOne(Run(st, [Take(d)] + others), result, s);
    assert HandedBy(Run(st, [Take(d)] + others), result, s) == [];
  }

  lemma TakeHandsOver(st: State, d: DrainId)
    requires Inv(st) && ReadyToTake(st, d)
    ensures var taken := TakeStep(st, d);
            && HandedOver(st, [Take(d)], st.drains[d].session) == [st.drains[d].rest[0]]
            && Run(st, [Take(d)]) == taken && Inv(taken) && d in taken.drains
            && taken.drains[d].session == st.drains[d].session
  {
    TakeFacts(st, d);
    OneMoreStep(st, [], Take(d));
    assert [] + [Take(d)] == [Take(d)];
    HandedOverByOne(st, Take(d), st.drains[d].session);
  }

  predicate Precedes(x: MessageId, y: MessageId, handed: seq<MessageId>) {
    exists k, l :: 0 <= k < l < |handed| && handed[k] == x && handed[l] == y
  }

  /** Of the rows that were read, those without a record, each once and in the order of the query. */
  ghost predicate IsInOrder(handed: seq<MessageId>, due: seq<MessageId>, delivered: map<MessageId, Record>) {
    && Distinct(handed)
    && (forall m :: m in handed <==> m in due && m !in delivered)
    && (forall i, j :: 0 <= i < j < |due| && due[i] !in delivered && due[j] !in delivered ==>
          Precedes(due[i], due[j], handed))
  }

  lemma {:induction false} UndeliveredIsInOrder(due: seq<MessageId>, delivered: map<MessageId, Record>)
    requires Distinct(due)
    ensures IsInOrder(Undelivered(due, delivered), due, delivered)
    decreases |due|
  {
    if due != [] {
      var rest, handed := Undelivered(due[1..], delivered), Undelivered(due, delivered);
      UndeliveredIsInOrder(due[1..], delivered);
      forall i, j | 0 <= i < j < |due| && due[i] !in delivered && due[j] !in delivered
        ensures Precedes(due[i], due[j], handed)
      {
        if i > 0 {
          assert due[1..][i - 1] == due[i] && due[1..][j - 1] == due[j];
          PrecedesAfterMore(due[i], due[j], rest, handed);
        } else {
          assert due[1..][j - 1] == due[j] && due[j] in rest;
          var l :| 0 <= l < |rest| && rest[l] == due[j];
          assert handed[0] == due[0] && handed[l + 1] == due[j];
        }
      }
    }
  }

  lemma PrecedesAfterMore(x: MessageId, y: MessageId, rest: seq<MessageId>, handed: seq<MessageId>)
    requires Precedes(x, y, rest) && (handed == rest || (handed != [] && handed[1..] == rest))
    ensures Precedes(x, y, handed)
  {
    var k, l :| 0 <= k < l < |rest| && rest[k] == x && rest[l] == y;
    if handed != rest {
      assert handed[k + 1] == x && handed[l + 1] == y;
    }
  }

  /** A drain of those messages after its first `i` turns. */
  ghost predicate DrainedTo(st0: State, trace: seq<Action>, d: DrainId, s: SessionId, ids: seq<MessageId>, i: nat) {
    var st := Run(st0, trace);
    && i <= |ids| && Inv(st) && Progress(st0, st, s, ids, i)
    && d in st.drains && st.drains[d] == Drain(s, None, ids[i..])
    && HandedOver(st0, trace, s) == ids[..i]
  }

  lemma BeginDrains(st0: State, s: SessionId, due: seq<MessageId>)
    requires Inv(st0) && CanRead(st0, s, due) && s !in st0.inflight
    ensures DrainedTo(st0, [Begin(s, due)], st0.next, s, Undelivered(due, st0.delivered), 0)
  {
    BeginMakesProgress(st0, s, due);
    OneMoreStep(st0, [], Begin(s, due));
    assert [] + [Begin(s, due)] == [Begin(s, due)];
    HandedOverByOne(st0, Begin(s, due), s);
  }

  lemma TurnDrains(st0: State, trace: seq<Action>, d: DrainId, s: SessionId, ids: seq<MessageId>, i: nat,
      st: State, turn: seq<Action>, st': State)
    requires st == Run(st0, trace) && st' == Run(st, turn) && Inv(st')
    requires DrainedTo(st0, trace, d, s, ids, i) && i < |ids|
    requires OneTurn(st, st', s, ids[i]) && HandedOver(st, turn, s) == [ids[i]]
    requires d in st'.drains && st'.drains[d] == Drain(s, None, ids[i..][1..])
    ensures DrainedTo(st0, trace + turn, d, s, ids, i + 1) && st' == Run(st0, trace + turn)
  {
    RunsCompose(st0, trace, turn);
    HandedOverInParts(st0, trace, turn, s);
    OneMoreOf(ids, i);
    TurnMakesProgress(st0, st, st', s, ids, i);
  }

  lemma OneMoreOf<T>(s: seq<T>, i: nat)
    requires i < |s|
    ensures s[i..][1..] == s[i + 1..] && s[..i] + [s[i]] == s[..i + 1]
  {
  }

  lemma DrainIsReady(st0: State, trace: seq<Action>, d: DrainId, s: SessionId, ids: seq<MessageId>, i: nat)
    requires DrainedTo(st0, trace, d, s, ids, i)
    ensures var st := Run(st0, trace);
            && Inv(st) && d in st.drains && st.drains[d] == Drain(s, None, ids[i..])
            && (st.drains[d].rest != [] ==> i < |ids| && ReadyToTake(st, d) && ids[i..][0] == ids[i])
  {
  }

  lemma EndDrains(st0: State, trace: seq<Action>, d: DrainId, s: SessionId, due: seq<MessageId>)
    requires Distinct(due)
    requires var ids := Undelivered(due, st0.delivered); DrainedTo(st0, trace, d, s, ids, |ids|)
    ensures var st' := Run(st0, trace + [End(d)]);
            && st' == EndStep(Run(st0, trace), d) && Inv(st') && s !in st'.inflight
            && (forall m :: m in due && m !in st0.delivered ==> AttemptedOnce(st0, st', m))
            && IsInOrder(HandedOver(st0, trace + [End(d)], s), due, st0.delivered)
  {
    var ids := Undelivered(due, st0.delivered);
    DrainIsOver(st0, trace, d, s, ids);
    EndFinishes(st0, Run(st0, trace), d, s, ids);
    EndHandsOverNothing(st0, trace, d, s);
    UndeliveredIsInOrder(due, st0.delivered);
  }

  lemma DrainIsOver(st0: State, trace: seq<Action>, d: DrainId, s: SessionId, ids: seq<MessageId>)
    requires DrainedTo(st0, trace, d, s, ids, |ids|)
    ensures var st := Run(st0, trace);
            && Inv(st) && Progress(st0, st, s, ids, |ids|)
            && d in st.drains && st.drains[d] == Drain(s, None, [])
            && HandedOver(st0, trace, s) == ids
  {
    assert ids[|ids|..] == [] && ids[..|ids|] == ids;
  }

  lemma EndHandsOverNothing(st0: State, trace: seq<Action>, d: DrainId, s: SessionId)
    ensures HandedOver(st0, trace + [End(d)], s) == HandedOver(st0, trace, s)
    ensures Run(st0, trace + [End(d)]) == EndStep(Run(st0, trace), d)
  {
    OneMoreStep(st0, trace, End(d));
    HandedOverInParts(st0, trace, [End(d)], s);
    HandedOverByOne(Run(st0, trace), End(d), s);
    assert HandedOver(st0, trace, s) + [] == HandedOver(st0, trace, s);
  }

  // ---------------------------------------------------------------------------------------------
  // The module's maps and the drain loop
  // ---------------------------------------------------------------------------------------------

  class Deliverer {
    var home: map<MessageId, SessionId>
    var delivered: map<MessageId, Record>
    var deliveryAttempts: map<MessageId, nat>
    var inflightDeliveries: set<SessionId>
    var drains: map<DrainId, Drain>
    var next: DrainId

    function View(): State
      reads this
    {
      State(home, delivered, deliveryAttempts, inflightDeliveries, drains, next)
    }

    /** A process starts on the tables as they are. */
    constructor (home: map<MessageId, SessionId>, delivered: map<MessageId, Record>)
      ensures View() == Start(home, delivered)
    {
      this.home, this.delivered, this.deliveryAttempts := home, delivered, map[];
      this.inflightDeliveries, this.drains, this.next := {}, map[], 0;
    }

    /** An `await`: containers post messages and other pollers run their own drains. */
    method Await(ghost d: DrainId) returns (ghost others: seq<Action>)
      modifies this
      ensures Spares(others, d) && View() == Run(old(View()), others)
    {
      others := [];
    }

    /** `await deliverMessage` came back; `ok` says whether it returned or threw. */
    method RecordResult(d: DrainId, ok: bool)
      requires InDelivery(View(), d)
      modifies this
      ensures View() == Step(old(View()), if ok then Sent(d) else Threw(d))
    {
      var m := drains[d].current.value;
      drains := drains[d := drains[d].(current := None)];
      if ok {
        if m !in delivered {
          delivered := delivered[m := Delivered];
        }
        deliveryAttempts := deliveryAttempts - {m};
      } else {
        var attempts := (if m in deliveryAttempts then deliveryAttempts[m] else 0) + 1;
        if attempts >= MAX_DELIVERY_ATTEMPTS {
          if m !in delivered {
            delivered := delivered[m := Failed];
          }
          deliveryAttempts := deliveryAttempts - {m};
        } else {
          deliveryAttempts := deliveryAttempts[m := attempts];
        }
      }
    }

    method StartDrain(s: SessionId, due: seq<MessageId>) returns (d: DrainId)
      requires s !in inflightDeliveries && CanRead(View(), s, due)
      modifies this
      ensures View() == BeginStep(old(View()), s, due) && d == old(next)
    {
      d := next;
      inflightDeliveries := inflightDeliveries + {s};
      drains := drains[d := Drain(s, None, Undelivered(due, delivered))];
      next := next + 1;
    }

    method TakeNext(d: DrainId)
      requires ReadyToTake(View(), d)
      modifies this`drains
      ensures View() == TakeStep(old(View()), d)
    {
      var dr := drains[d];
      drains := drains[d := dr.(current := Some(dr.rest[0]), rest := dr.rest[1..])];
    }

    method FinishDrain(d: DrainId)
      requires d in drains && drains[d].current.None? && drains[d].rest == []
      modifies this
      ensures View() == EndStep(old(View()), d)
    {
      inflightDeliveries := inflightDeliveries - {drains[d].session};
      drains := drains - {d};
    }

    /** One turn of the drain loop, with anything happening at its `await`. */
    method AttemptNext(d: DrainId) returns (ghost trace: seq<Action>)
      requires Inv(View()) && ReadyToTake(View(), d)
      modifies this
      ensures View() == Run(old(View()), trace) && Inv(View())
      ensures d in drains && drains[d] == old(drains[d]).(rest := old(drains[d]).rest[1..])
      ensures OneTurn(old(View()), View(), old(drains[d]).session, old(drains[d]).rest[0])
      ensures HandedOver(old(View()), trace, old(drains[d]).session) == [old(drains[d]).rest[0]]
    {
      ghost var st := View();
      TakeFacts(st, d);
      TakeNext(d);
      ghost var taken := View();
      ghost var others := Await(d);
      OthersLeaveTheDrainAlone(taken, others, d);
      var ok: bool := *;
      RecordResult(d, ok);
      trace := [Take(d)] + others + [if ok then Sent(d) else Threw(d)];
      TurnIsARun(st, d, others, if ok then Sent(d) else Threw(d));
      TurnSummary(st, d, others, ok);
      TurnHandsOver(st, d, others, ok);
    }

    /** Whatever the other pollers do at each `await`, a call either skips a session that is being
        drained, or makes exactly one attempt at every undelivered message it read, in the order of the rows. */
    method DeliverSessionMessages(s: SessionId, due: seq<MessageId>) returns (skipped: bool, ghost trace: seq<Action>)
      requires Inv(View()) && CanRead(View(), s, due)
      modifies this
      ensures View() == Run(old(View()), trace) && Inv(View())
      ensures skipped <==> s in old(inflightDeliveries)
      ensures skipped ==> View() == old(View())
      ensures !skipped ==> s !in inflightDeliveries
      ensures !skipped ==>
                forall m :: m in due && m !in old(delivered) ==> AttemptedOnce(old(View()), View(), m)
      ensures !skipped ==> IsInOrder(HandedOver(old(View()), trace, s), due, old(delivered))
    {
      if s in inflightDeliveries {
        return true, [];
      }
      skipped := false;
      ghost var st0 := View();
      BeginDrains(st0, s, due);
      var d := StartDrain(s, due);
      OneMoreStep(st0, [], Begin(s, due));
      assert [] + [Begin(s, due)] == [Begin(s, due)];
      trace := DrainAll(d, s, Undelivered(due, st0.delivered), st0, [Begin(s, due)]);
      EndDrains(st0, trace, d, s, due);
      trace := trace + [End(d)];
      FinishDrain(d);
    }

    method DrainAll(d: DrainId, ghost s: SessionId, ghost ids: seq<MessageId>, ghost st0: State,
        ghost before: seq<Action>)
      returns (ghost trace: seq<Action>)
      requires View() == Run(st0, before) && DrainedTo(st0, before, d, s, ids, 0)
      modifies this
      ensures View() == Run(st0, trace) && DrainedTo(st0, trace, d, s, ids, |ids|)
    {
      trace := before;
      ghost var i := 0;
      while drains[d].rest != []
        invariant View() == Run(st0, trace) && DrainedTo(st0, trace, d, s, ids, i)
        invariant i <= |ids| && d in drains && drains[d].rest == ids[i..]
        decreases |ids| - i
      {
        trace := TakeTurn(d, s, ids, st0, trace, i);
        i := i + 1;
      }
    }

    method TakeTurn(d: DrainId, ghost s: SessionId, ghost ids: seq<MessageId>, ghost st0: State,
        ghost before: seq<Action>, ghost i: nat)
      returns (ghost trace: seq<Action>)
      requires View() == Run(st0, before) && DrainedTo(st0, before, d, s, ids, i) && i < |ids|
      modifies this
      ensures View() == Run(st0, trace) && DrainedTo(st0, trace, d, s, ids, i + 1)
      ensures d in drains && drains[d].rest == ids[i + 1..]
    {
      ghost var st := View();
      DrainIsReady(st0, before, d, s, ids, i);
      ghost var turn := AttemptNext(d);
      TurnDrains(st0, before, d, s, ids, i, st, turn, View());
      trace := before + turn;
    }
  }
}

/** Finding or creating the session a message belongs to. */
module Sessions {
  import opened Options

  /** `createdAt` is the creation time; `active` is `status = 'active'`. */
  datatype Session = Session(
    id: string, agent: string, mg: Option<string>, thread: Option<string>, active: bool, createdAt: int)

  /** The rows in the order of their insertion. */
  type Table = seq<Session>

  datatype Mode = Shared | PerThread | AgentShared

  predicate Matches(r: Session, agent: string, mg: string, thread: Option<string>) {
    && r.active && r.agent == agent && r.mg == Some(mg)
    && r.thread == if Truthy(thread) then thread else None
  }

  function FindForAgent(t: Table, agent: string, mg: string, thread: Option<string>): (r: Option<Session>)
    ensures r.Some? ==> r.value in t && Matches(r.value, agent, mg, thread)
    ensures r.None? ==> forall i :: 0 <= i < |t| ==> !Matches(t[i], agent, mg, thread)
  {
    if t == [] then None
    else if Matches(t[0], agent, mg, thread) then Some(t[0])
    else
      var r := FindForAgent(t[1..], agent, mg, thread);
      assert t == [t[0]] + t[1..];
      r
  }

  /** `ORDER BY created_at DESC LIMIT 1` over the active sessions of the agent. */
  function FindByAgent(t: Table, agent: string): (r: Option<Session>)
    ensures r.Some? ==> r.value in t && r.value.active && r.value.agent == agent
    ensures r.Some? ==> forall i :: 0 <= i < |t| && t[i].active && t[i].agent == agent ==>
                          t[i].createdAt <= r.value.createdAt
    ensures r.None? ==> forall i :: 0 <= i < |t| ==> !(t[i].active && t[i].agent == agent)
  {
    if t == [] then None
    else
      var r := FindByAgent(t[1..], agent);
      assert t == [t[0]] + t[1..];
      if t[0].active && t[0].agent == agent && (r.None? || r.value.createdAt <= t[0].createdAt) then Some(t[0]) else r
  }

  function Lookup(t: Table, agent: string, mg: Option<string>, thread: Option<string>, mode: Mode): Option<Session> {
    if mode.AgentShared? then FindByAgent(t, agent)
    else if Truthy(mg) then FindForAgent(t, agent, mg.value, if mode.Shared? then None else thread)
    else None
  }

  datatype Request = Request(agent: string, mg: Option<string>, thread: Option<string>, mode: Mode)

  /** The session a request would create. */
  function NewSession(q: Request, id: string, now: int): Session {
    Session(id, q.agent, q.mg, if q.mode.PerThread? then q.thread else None, true, now)
  }

  datatype Resolution = Resolution(table: Table, session: Session, created: bool)

  function Resolve(t: Table, q: Request, id: string, now: int): Resolution {
    var found := Lookup(t, q.agent, q.mg, q.thread, q.mode);
    if found.Some? then Resolution(t, found.value, false)
    else Resolution(t + [NewSession(q, id, now)], NewSession(q, id, now), true)
  }

  // ---------------------------------------------------------------------------------------------
  // Runs
  // ---------------------------------------------------------------------------------------------

  datatype Event = Resolved(q: Request, id: string, now: int) | Closed(id: string) | Deleted(id: string)

  function CloseRow(t: Table, id: string): (r: Table)
    ensures |r| == |t|
    ensures forall i :: 0 <= i < |t| ==> r[i] == if t[i].id == id then t[i].(active := false) else t[i]
  {
    seq(|t|, i requires 0 <= i < |t| => if t[i].id == id then t[i].(active := false) else t[i])
  }

  function DeleteRow(t: Table, id: string): Table {
    if t == [] then []
    else if t[|t| - 1].id == id then DeleteRow(t[..|t| - 1], id)
    else DeleteRow(t[..|t| - 1], id) + [t[|t| - 1]]
  }

  function Step(t: Table, e: Event): Table {
    match e
    case Resolved(q, id, now) => Resolve(t, q, id, now).table
    case Closed(id) => CloseRow(t, id)
    case Deleted(id) => DeleteRow(t, id)
  }

  function Run(t: Table, events: seq<Event>): Table
    decreases |events|
  {
    if events == [] then t else Run(Step(t, events[0]), events[1..])
  }

  lemma {:induction false} RunOfParts(t: Table, a: seq<Event>, b: seq<Event>)
    ensures Run(t, a + b) == Run(Run(t, a), b)
    decreases |a|
  {
    if a == [] {
      assert a + b == b;
    } else {
      assert (a + b)[1..] == a[1..] + b;
      RunOfParts(Step(t, a[0]), a[1..], b);
    }
  }

  // ---------------------------------------------------------------------------------------------
  // At most one active session for each key
  // ---------------------------------------------------------------------------------------------

  predicate SameKey(a: Session, b: Session) {
    a.agent == b.agent && a.mg == b.mg && a.thread == b.thread
  }

  /** The keys the lookup can express: a messaging group, and no thread or a named one. */
  predicate Addressable(r: Session) {
    Truthy(r.mg) && r.thread != Some("")
  }

  predicate Clash(a: Session, b: Session) {
    a.active && b.active && SameKey(a, b) && Addressable(a)
  }

  predicate OnePerKey(t: Table) {
    forall i, j :: 0 <= i < j < |t| ==> !Clash(t[i], t[j])
  }

  lemma ResolveKeepsOnePerKey(t: Table, q: Request, id: string, now: int)
    requires OnePerKey(t)
    ensures OnePerKey(Resolve(t, q, id, now).table)
  {
    var r := Resolve(t, q, id, now);
    if r.created {
      forall i | 0 <= i < |t|
        ensures !Clash(t[i], r.session)
      {
        if Truthy(q.mg) && Clash(t[i], r.session) {
          assert Matches(t[i], q.agent, q.mg.value, r.session.thread);
        }
      }
    }
  }

  lemma {:induction false} DeletedRows(t: Table, id: string)
    requires OnePerKey(t)
    ensures OnePerKey(DeleteRow(t, id))
    ensures forall r :: r in DeleteRow(t, id) <==> r in t && r.id != id
    decreases |t|
  {
    if t != [] {
      var rest, last := t[..|t| - 1], t[|t| - 1];
      assert t == rest + [last];
      assert OnePerKey(rest);
      DeletedRows(rest, id);
      var kept := DeleteRow(rest, id);
      forall i | 0 <= i < |kept|
        ensures !Clash(kept[i], last)
      {
        assert kept[i] in rest;
        var j :| 0 <= j < |rest| && rest[j] == kept[i];
        assert !Clash(t[j], t[|t| - 1]);
      }
    }
  }

  lemma StepKeepsOnePerKey(t: Table, e: Event)
    requires OnePerKey(t)
    ensures OnePerKey(Step(t, e))
  {
    match e
    case Resolved(q, id, now) => ResolveKeepsOnePerKey(t, q, id, now);
    case Closed(id) =>
      forall i, j | 0 <= i < j < |t|
        ensures !Clash(CloseRow(t, id)[i], CloseRow(t, id)[j])
      {
        assert !Clash(t[i], t[j]);
      }
    case Deleted(id) => DeletedRows(t, id);
  }

  /** In every run, whatever the modes: at most one active session for each agent, messaging group
      and thread. */
  lemma {:induction false} RunKeepsOnePerKey(t: Table, events: seq<Event>)
    requires OnePerKey(t)
    ensures OnePerKey(Run(t, events))
    decreases |events|
  {
    if events != [] {
      StepKeepsOnePerKey(t, events[0]);
      RunKeepsOnePerKey(Step(t, events[0]), events[1..]);
    }
  }

  predicate IsTaken(t: Table, r: Session) {
    exists i :: 0 <= i < |t| && t[i].active && SameKey(t[i], r)
  }

  /** Exactly which requests add a second active session under a key that has one: those the lookup
      cannot express, that is without a messaging group, or for the thread named by the empty string
      while no session without a thread is there to stand in for it. */
  lemma DuplicatesIff(t: Table, q: Request, id: string, now: int)
    ensures Resolve(t, q, id, now).created && IsTaken(t, NewSession(q, id, now))
       <==> && !q.mode.AgentShared? && IsTaken(t, NewSession(q, id, now))
            && (Truthy(q.mg) ==>
                  q.mode.PerThread? && q.thread == Some("") && FindForAgent(t, q.agent, q.mg.value, None).None?)
  {
    var r := NewSession(q, id, now);
    if IsTaken(t, r) {
      var i :| 0 <= i < |t| && t[i].active && SameKey(t[i], r);
      assert t[i].agent == q.agent;
      if Truthy(q.mg) && r.thread != Some("") {
        assert Matches(t[i], q.agent, q.mg.value, r.thread);
      }
    }
  }

  /** For instance: two messages of the thread "" get two sessions. */
  lemma EmptyThreadDuplicates()
    ensures var q := Request("a", Some("g"), Some(""), PerThread);
            var first := Resolve([], q, "s1", 1);
            var second := Resolve(first.table, q, "s2", 2);
            && first.created && second.created && SameKey(first.session, second.session)
            && first.session in second.table && second.session in second.table
  {
    var q := Request("a", Some("g"), Some(""), PerThread);
    var first := Resolve([], q, "s1", 1);
    assert first.table == [NewSession(q, "s1", 1)];
    assert !Matches(first.table[0], "a", "g", Some(""));
    var second := Resolve(first.table, q, "s2", 2);
    assert second.table[0] == first.session && second.table[1] == second.session;
  }

  // ---------------------------------------------------------------------------------------------
  // Stability
  // ---------------------------------------------------------------------------------------------

  predicate Ends(e: Event, id: string) {
    e == Closed(id) || e == Deleted(id)
  }

  predicate NeverEnds(events: seq<Event>, id: string) {
    forall i :: 0 <= i < |events| ==> !Ends(events[i], id)
  }

  lemma {:induction false} OthersStay(t: Table, id: string, r: Session)
    requires r in t && r.id != id
    ensures r in DeleteRow(t, id)
    decreases |t|
  {
    var rest, last := t[..|t| - 1], t[|t| - 1];
    assert t == rest + [last];
    if r in rest { OthersStay(rest, id, r); }
  }

  lemma {:induction false} RowSurvives(t: Table, events: seq<Event>, r: Session)
    requires r in t && NeverEnds(events, r.id)
    ensures r in Run(t, events)
    decreases |events|
  {
    if events != [] {
      assert !Ends(events[0], r.id);
      match events[0] {
        case Resolved(q, id, now) =>
        case Closed(id) =>
          var i :| 0 <= i < |t| && t[i] == r;
          assert CloseRow(t, id)[i] == r;
        case Deleted(id) => OthersStay(t, id, r);
      }
      RowSurvives(Step(t, events[0]), events[1..], r);
    }
  }

  lemma SameKeySameRow(t: Table, a: Session, b: Session)
    requires OnePerKey(t) && a in t && b in t && a.active && b.active && SameKey(a, b) && Addressable(a)
    ensures a == b
  {
    var i :| 0 <= i < |t| && t[i] == a;
    var j :| 0 <= j < |t| && t[j] == b;
    if i != j { NoClash(t, i, j); }
  }

  lemma NoClash(t: Table, i: nat, j: nat)
    requires OnePerKey(t) && i < |t| && j < |t| && i != j
    ensures !Clash(t[i], t[j])
  {
    if Clash(t[i], t[j]) { assert Clash(t[j], t[i]); }
  }

  lemma FoundSession(t: Table, q: Request, id: string, now: int)
    requires !q.mode.AgentShared?
    ensures var r := Resolve(t, q, id, now);
            && r.session in r.table && r.session.active && r.session.agent == q.agent && r.session.mg == q.mg
            && (r.session.thread != Some("") ==>
                  r.session.thread == if q.mode.PerThread? && Truthy(q.thread) then q.thread else None)
            && (r.session.thread == Some("") ==> r.created)
  {
    var r := Resolve(t, q, id, now);
    if r.created { assert r.table[|t|] == r.session; }
  }

  /** A session that has to be made gets the id that was drawn for it and the time, and is the last row. */
  lemma MadeSession(t: Table, q: Request, id: string, now: int)
    ensures var r := Resolve(t, q, id, now);
            if r.created then
              && r.table == t + [r.session] && r.session.id == id && r.session.createdAt == now && r.session.active
              && r.session.agent == q.agent && r.session.mg == q.mg
            else r.table == t && r.session in t
  {
  }

  /** What a caller can check before a shared or per-thread request: there is a messaging group, and the
      thread is not the one named by the empty string, or a session without a thread stands in for it. */
  predicate IsMetAgain(t: Table, q: Request) {
    && Truthy(q.mg)
    && (q.mode.PerThread? && q.thread == Some("") ==> FindForAgent(t, q.agent, q.mg.value, None).Some?)
  }

  lemma MetAgainIffAddressable(t: Table, q: Request, id: string, now: int)
    requires !q.mode.AgentShared?
    ensures IsMetAgain(t, q) <==> Addressable(Resolve(t, q, id, now).session)
  {
    FoundSession(t, q, id, now);
    if Truthy(q.mg) && q.mode.PerThread? && q.thread == Some("") {
      SameLookup(t, q.agent, q.mg.value);
    }
  }

  lemma {:induction false} SameLookup(t: Table, agent: string, mg: string)
    ensures FindForAgent(t, agent, mg, Some("")) == FindForAgent(t, agent, mg, None)
    decreases |t|
  {
    if t != [] { SameLookup(t[1..], agent, mg); }
  }

  /** A shared or per-thread request meets the same session again, whatever else is resolved, closed or
      deleted in between, exactly when this could be told before the first time. */
  lemma ResolutionIsStable(t: Table, q: Request, id: string, now: int, events: seq<Event>, id': string, now': int)
    requires OnePerKey(t) && !q.mode.AgentShared?
    requires NeverEnds(events, Resolve(t, q, id, now).session.id)
    ensures var first := Resolve(t, q, id, now);
            var later := Run(first.table, events);
            Resolve(later, q, id', now') == Resolution(later, first.session, false) <==> IsMetAgain(t, q)
  {
    var first := Resolve(t, q, id, now);
    var later := Run(first.table, events);
    var again := Resolve(later, q, id', now');
    MetAgainIffAddressable(t, q, id, now);
    FoundSession(t, q, id, now);
    FoundSession(later, q, id', now');
    if Addressable(first.session) {
      ResolveKeepsOnePerKey(t, q, id, now);
      RunKeepsOnePerKey(first.table, events);
      RowSurvives(first.table, events, first.session);
      assert Matches(first.session, q.agent, q.mg.value, if q.mode.Shared? then None else q.thread);
      SameKeySameRow(later, again.session, first.session);
    }
  }

  // ---------------------------------------------------------------------------------------------
  // Agent-shared requests
  // ---------------------------------------------------------------------------------------------

  predicate IsRival(r: Session, agent: string) {
    r.active && r.agent == agent
  }

  /** Row i is active for the agent, and newer than every such row before it. */
  predicate LeadsAt(t: Table, agent: string, i: int) {
    && 0 <= i < |t| && IsRival(t[i], agent)
    && forall j :: 0 <= j < i && IsRival(t[j], agent) ==> t[j].createdAt < t[i].createdAt
  }

  predicate Overtaken(t: Table, r: Session) {
    exists j :: 0 <= j < |t| && IsRival(t[j], r.agent) && t[j].createdAt > r.createdAt
  }

  predicate Leads(t: Table, r: Session) {
    exists i :: 0 <= i < |t| && LeadsAt(t, r.agent, i) && t[i] == r
  }

  /** The first inserted among the newest active sessions of the agent. */
  predicate IsNewest(t: Table, r: Session) {
    Leads(t, r) && !Overtaken(t, r)
  }

  lemma {:induction false} FoundLeads(t: Table, agent: string)
    ensures FindByAgent(t, agent).Some? ==> IsNewest(t, FindByAgent(t, agent).value)
    decreases |t|
  {
    var found := FindByAgent(t, agent);
    if found.Some? {
      if found == Some(t[0]) && IsRival(t[0], agent) {
        assert LeadsAt(t, agent, 0);
      } else {
        FoundLeads(t[1..], agent);
        var i :| 0 <= i < |t[1..]| && LeadsAt(t[1..], agent, i) && t[1..][i] == found.value;
        NextLeads(t, agent, i);
      }
    }
  }

  lemma NextLeads(t: Table, agent: string, i: int)
    requires t != [] && LeadsAt(t[1..], agent, i)
    requires IsRival(t[0], agent) ==> t[0].createdAt < t[1..][i].createdAt
    ensures LeadsAt(t, agent, i + 1) && t[i + 1] == t[1..][i]
  {
    forall j | 0 <= j < i + 1 && IsRival(t[j], agent)
      ensures t[j].createdAt < t[i + 1].createdAt
    {
      if j > 0 { assert t[1..][j - 1] == t[j]; }
    }
  }

  lemma NewestIsUnique(t: Table, a: Session, b: Session)
    requires IsNewest(t, a) && IsNewest(t, b) && a.agent == b.agent
    ensures a == b
  {
    var i :| 0 <= i < |t| && LeadsAt(t, a.agent, i) && t[i] == a;
    var j :| 0 <= j < |t| && LeadsAt(t, b.agent, j) && t[j] == b;
    assert IsRival(t[i], b.agent) && IsRival(t[j], a.agent);
  }

  /** Exactly which session an agent-shared request meets. */
  lemma AgentSharedMeetsNewest(t: Table, agent: string, r: Session)
    requires r.agent == agent
    ensures FindByAgent(t, agent) == Some(r) <==> IsNewest(t, r)
  {
    FoundLeads(t, agent);
    if IsNewest(t, r) {
      var i :| 0 <= i < |t| && LeadsAt(t, agent, i) && t[i] == r;
      NewestIsUnique(t, FindByAgent(t, agent).value, r);
    }
  }

  lemma AppendedLeads(t: Table, added: Session, r: Session)
    requires Leads(t, r)
    ensures Leads(t + [added], r)
  {
    var i :| 0 <= i < |t| && LeadsAt(t, r.agent, i) && t[i] == r;
    assert LeadsAt(t + [added], r.agent, i);
  }

  lemma ClosedLeads(t: Table, id: string, r: Session)
    requires Leads(t, r) && r.id != id
    ensures Leads(CloseRow(t, id), r)
  {
    var i :| 0 <= i < |t| && LeadsAt(t, r.agent, i) && t[i] == r;
    assert LeadsAt(CloseRow(t, id), r.agent, i);
  }

  lemma {:induction false} DeletedLeads(t: Table, id: string, r: Session)
    requires Leads(t, r) && r.id != id
    ensures Leads(DeleteRow(t, id), r)
    decreases |t|
  {
    var n := |t| - 1;
    var rest := t[..n];
    var i :| 0 <= i < |t| && LeadsAt(t, r.agent, i) && t[i] == r;
    if i < n {
      assert LeadsAt(rest, r.agent, i);
      DeletedLeads(rest, id, r);
      if t[n].id != id { AppendedLeads(DeleteRow(rest, id), t[n], r); }
    } else {
      var kept := DeleteRow(rest, id);
      forall j | 0 <= j < |kept| && IsRival(kept[j], r.agent)
        ensures kept[j].createdAt < r.createdAt
      {
        KeptWasThere(rest, id, kept[j]);
        var k :| 0 <= k < |rest| && rest[k] == kept[j];
        assert t[k] == kept[j];
      }
      assert LeadsAt(kept + [t[n]], r.agent, |kept|);
    }
  }

  lemma {:induction false} KeptWasThere(t: Table, id: string, r: Session)
    requires r in DeleteRow(t, id)
    ensures r in t
    decreases |t|
  {
    var rest, last := t[..|t| - 1], t[|t| - 1];
    assert t == rest + [last];
    if r in DeleteRow(rest, id) { KeptWasThere(rest, id, r); }
  }

  lemma {:induction false} LeaderStaysAhead(t: Table, events: seq<Event>, r: Session)
    requires Leads(t, r) && NeverEnds(events, r.id)
    ensures Leads(Run(t, events), r)
    decreases |events|
  {
    if events != [] {
      assert !Ends(events[0], r.id);
      match events[0] {
        case Resolved(q, id, now) =>
          if Resolve(t, q, id, now).created { AppendedLeads(t, NewSession(q, id, now), r); }
        case Closed(id) => ClosedLeads(t, id, r);
        case Deleted(id) => DeletedLeads(t, id, r);
      }
      LeaderStaysAhead(Step(t, events[0]), events[1..], r);
    }
  }

  /** Whether a request of the run made a session for the agent of `r` that is newer than `r` and active
      in `later`. */
  predicate OvertakenByRun(events: seq<Event>, later: Table, r: Session) {
    exists i :: 0 <= i < |events| && MadeRival(events[i], later, r)
  }

  predicate MadeRival(e: Event, later: Table, r: Session) {
    && e.Resolved?
    && var made := NewSession(e.q, e.id, e.now);
       made in later && IsRival(made, r.agent) && made.createdAt > r.createdAt
  }

  lemma StepRowsComeFrom(t: Table, e: Event, r: Session)
    requires r in Step(t, e) && r.active
    ensures r in t || (e.Resolved? && r == NewSession(e.q, e.id, e.now))
  {
    match e
    case Resolved(q, id, now) =>
    case Closed(id) =>
      var i :| 0 <= i < |t| && CloseRow(t, id)[i] == r;
      assert t[i] == r;
    case Deleted(id) => KeptWasThere(t, id, r);
  }

  predicate MadeBy(e: Event, r: Session) {
    e.Resolved? && r == NewSession(e.q, e.id, e.now)
  }

  lemma {:induction false} RunRowsComeFrom(t: Table, events: seq<Event>, r: Session)
    requires r in Run(t, events) && r.active
    ensures r in t || exists i :: 0 <= i < |events| && MadeBy(events[i], r)
    decreases |events|
  {
    if events != [] {
      var next := Step(t, events[0]);
      RunRowsComeFrom(next, events[1..], r);
      if r in next {
        StepRowsComeFrom(t, events[0], r);
        if r !in t { assert MadeBy(events[0], r); }
      } else {
        var i :| 0 <= i < |events[1..]| && MadeBy(events[1..][i], r);
        assert MadeBy(events[i + 1], r);
      }
    }
  }

  lemma OvertakenIffByRun(t: Table, events: seq<Event>, r: Session)
    requires !Overtaken(t, r)
    ensures Overtaken(Run(t, events), r) <==> OvertakenByRun(events, Run(t, events), r)
  {
    var later := Run(t, events);
    if Overtaken(later, r) {
      var j :| 0 <= j < |later| && IsRival(later[j], r.agent) && later[j].createdAt > r.createdAt;
      RunRowsComeFrom(t, events, later[j]);
      if later[j] !in t {
        var i :| 0 <= i < |events| && MadeBy(events[i], later[j]);
        assert MadeRival(events[i], later, r);
      }
    }
    if OvertakenByRun(events, later, r) {
      var i :| 0 <= i < |events| && MadeRival(events[i], later, r);
      var made := NewSession(events[i].q, events[i].id, events[i].now);
      var j :| 0 <= j < |later| && later[j] == made;
    }
  }

  /** An agent-shared request meets the same session again, if that is neither closed nor deleted, exactly
      when no request of the run made a newer session for the agent that is still active. */
  lemma AgentSharedIsStableIff(t: Table, q: Request, id: string, now: int, events: seq<Event>, id': string, now': int)
    requires q.mode.AgentShared? && NeverEnds(events, Resolve(t, q, id, now).session.id)
    ensures var first := Resolve(t, q, id, now);
            var later := Run(first.table, events);
            Resolve(later, q, id', now') == Resolution(later, first.session, false)
            <==> !OvertakenByRun(events, later, first.session)
  {
    var first := Resolve(t, q, id, now);
    var later := Run(first.table, events);
    if first.created {
      assert LeadsAt(first.table, q.agent, |t|);
    } else {
      FoundLeads(t, q.agent);
    }
    assert IsNewest(first.table, first.session);
    LeaderStaysAhead(first.table, events, first.session);
    OvertakenIffByRun(first.table, events, first.session);
    AgentSharedMeetsNewest(later, q.agent, first.session);
    RowSurvives(first.table, events, first.session);
  }

  /** For instance, it moves to a session made later in another group. */
  lemma AgentSharedMoves()
    ensures var q := Request("a", Some("g"), None, AgentShared);
            var first := Resolve([], q, "s1", 1);
            var later := Run(first.table, [Resolved(Request("a", Some("h"), None, Shared), "s2", 2)]);
            first.session in later && Resolve(later, q, "s3", 3).session != first.session
  {
    var q := Request("a", Some("g"), None, AgentShared);
    var first := Resolve([], q, "s1", 1);
    assert first.table == [NewSession(q, "s1", 1)];
    var other := Request("a", Some("h"), None, Shared);
    assert !Matches(first.table[0], "a", "h", None);
    var e := Resolved(other, "s2", 2);
    var later := Run(first.table, [e]);
    assert [e][1..] == [] && Run(Step(first.table, e), []) == Step(first.table, e);
    assert later == Run(Step(first.table, [e][0]), [e][1..]);
    assert later == [NewSession(q, "s1", 1), NewSession(other, "s2", 2)];
    assert later[0] == first.session && later[1].active && later[1].agent == "a";
  }

  // ---------------------------------------------------------------------------------------------
  // The object
  // ---------------------------------------------------------------------------------------------

  class SessionManager {
    var rows: Table
    var folders: set<string>

    constructor ()
      ensures rows == [] && folders == {}
    {
      rows, folders := [], {};
    }

    /** A folder is made for a new session and for no other. */
    method ResolveSession(agent: string, mg: Option<string>, thread: Option<string>, mode: Mode, id: string, now: int)
      returns (session: Session, created: bool)
      modifies this
      ensures Resolution(rows, session, created) == Resolve(old(rows), Request(agent, mg, thread, mode), id, now)
      ensures folders == if created then old(folders) + {session.id} else old(folders)
      ensures old(OnePerKey(rows)) ==> OnePerKey(rows)
    {
      if OnePerKey(rows) { ResolveKeepsOnePerKey(rows, Request(agent, mg, thread, mode), id, now); }
      if mode.AgentShared? {
        var existing := FindByAgent(rows, agent);
        if existing.Some? { return existing.value, false; }
      } else if Truthy(mg) {
        var lookupThread := if mode.Shared? then None else thread;
        var existing := FindForAgent(rows, agent, mg.value, lookupThread);
        if existing.Some? { return existing.value, false; }
      }
      session := Session(id, agent, mg, if mode.PerThread? then thread else None, true, now);
      rows := rows + [session];
      folders := folders + {id};
      created := true;
    }
  }
}

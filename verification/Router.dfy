/** Routing one inbound message: who engages, the gate, and the fan-out to the agents' sessions. */
module Router {
  import opened Options
  import opened Sessions

  datatype EngageMode = Pattern | Mention | MentionSticky | Unknown
  datatype Policy = Accumulate | Drop
  datatype Command = Pass | Filter | Deny

  /** One agent wired to the chat. What depends on code outside this model is given per message:
      `hit` is the outcome of the pattern test (true for '.' and for a malformed pattern), `access` and
      `scope` what the two sender gates answer (true where none is registered), `command` what the slash
      command gate answers, `adk` whether the configured provider is "adk", `known` whether the agent
      group still exists. */
  datatype Wiring = Wiring(
    agent: string, known: bool, engage: EngageMode, hit: bool, policy: Policy, mode: Mode,
    access: bool, scope: bool, command: Command, adk: bool)

  datatype Group = Group(id: string, isGroup: bool, denied: bool)
  datatype Adapter = Adapter(supportsThreads: bool, canSubscribe: bool)
  datatype Message = Message(isMention: bool, thread: Option<string>)

  // ---------------------------------------------------------------------------------------------
  // Decisions
  // ---------------------------------------------------------------------------------------------

  datatype Decision = Decision(w: Wiring, engages: bool, accessOk: bool, scopeOk: bool)

  function Engages(w: Wiring, t: Table, g: Group, isMention: bool, thread: Option<string>): bool {
    match w.engage
    case Pattern => w.hit
    case Mention => isMention
    case MentionSticky => isMention || (g.isGroup && FindForAgent(t, w.agent, g.id, thread).Some?)
    case Unknown => false
  }

  function Decide(w: Wiring, t: Table, g: Group, m: Message): Decision {
    var engages := Engages(w, t, g, m.isMention, m.thread);
    Decision(w, engages, engages && w.access, engages && w.scope)
  }

  function Decisions(ws: seq<Wiring>, t: Table, g: Group, m: Message): seq<Decision> {
    if ws == [] then []
    else
      var rest, last := Decisions(ws[..|ws| - 1], t, g, m), ws[|ws| - 1];
      if last.known then rest + [Decide(last, t, g, m)] else rest
  }

  predicate WillEngage(d: Decision) {
    d.engages && d.accessOk && d.scopeOk
  }

  predicate WillAccumulate(d: Decision) {
    d.w.policy.Accumulate? && !(d.engages && (!d.accessOk || !d.scopeOk))
  }

  predicate Acts(d: Decision) {
    WillEngage(d) || WillAccumulate(d)
  }

  predicate WillAnyAgentAct(ds: seq<Decision>) {
    exists i :: 0 <= i < |ds| && Acts(ds[i])
  }

  // ---------------------------------------------------------------------------------------------
  // The gate
  // ---------------------------------------------------------------------------------------------

  datatype Classification = InSecure | BiblioAdk | BiblioOther

  /** A classification, possibly followed by an exception before the gate block is left. */
  datatype GateRun = Verdict(c: Classification) | LateThrow(c: Classification) | Throws

  /** Blocked: routing ends. Open: routing goes on, with the classification if there is one. */
  datatype Gate = Blocked | Open(c: Option<Classification>)

  function Evaluate(enabled: bool, acts: bool, run: GateRun): Gate {
    if !enabled || !acts then Open(None)
    else match run
      case Verdict(c) => if c.InSecure? then Blocked else Open(Some(c))
      case LateThrow(_) => Open(None)
      case Throws => Open(None)
  }

  predicate Mismatch(c: Option<Classification>, adk: bool) {
    (c == Some(BiblioAdk) && !adk) || (c == Some(BiblioOther) && adk)
  }

  // ---------------------------------------------------------------------------------------------
  // Delivery to one agent
  // ---------------------------------------------------------------------------------------------

  /** What became of the message for one agent. */
  datatype Outcome =
    | Stopped
    | NotEngaged
    | ProviderMismatch
    | AdkDropped
    | AdkDispatched
    | Filtered
    | Denied(session: Session)
    | Written(session: Session, trigger: bool)

  /** The chat the message came from, after the thread policy of the adapter. */
  datatype Context = Context(g: Group, thread: Option<string>, threads: bool, canSubscribe: bool, now: int)

  function EffectiveMode(w: Wiring, x: Context): Mode {
    if x.threads && !w.mode.AgentShared? && x.g.isGroup then PerThread else w.mode
  }

  function RequestFor(w: Wiring, x: Context): Request {
    Request(w.agent, Some(x.g.id), x.thread, EffectiveMode(w, x))
  }

  function Deliver(t: Table, w: Wiring, x: Context, wake: bool, c: Option<Classification>, id: string): (Table,
      Outcome) {
    if Mismatch(c, w.adk) then (t, ProviderMismatch)
    else if w.adk then (t, if wake then AdkDispatched else AdkDropped)
    else
      var r := Resolve(t, RequestFor(w, x), id, x.now);
      (r.table, match w.command
                case Filter => Filtered
                case Deny => Denied(r.session)
                case Pass => Written(r.session, wake))
  }

  // ---------------------------------------------------------------------------------------------
  // The fan-out
  // ---------------------------------------------------------------------------------------------

  /** What the rest of the host does to the sessions while the message is on its way: at the `await` of
      the gate, and at those of each delivery. `ids` are the identifiers of sessions that have to be made,
      one for each decision. */
  datatype Meanwhile = Meanwhile(ids: seq<string>, gate: seq<Event>, deliveries: seq<seq<Event>>)

  function IdAt(o: Meanwhile, n: nat): string {
    if n < |o.ids| then o.ids[n] else ""
  }

  function EventsAt(o: Meanwhile, n: nat): seq<Event> {
    if n < |o.deliveries| then o.deliveries[n] else []
  }

  datatype Tally = Tally(table: Table, outcomes: seq<Outcome>, engaged: nat, accumulated: nat, subscribes: nat)

  predicate WantsSubscription(d: Decision, x: Context) {
    WillEngage(d) && d.w.engage.MentionSticky? && x.threads && x.canSubscribe && x.thread.Some? && x.g.isGroup
  }

  function FanOutOne(s: Tally, d: Decision, x: Context, c: Option<Classification>, id: string,
      after: seq<Event>): Tally {
    if WillEngage(d) then
      var r := Deliver(s.table, d.w, x, true, c, id);
      Tally(Run(r.0, after), s.outcomes + [r.1], s.engaged + 1, s.accumulated,
            if s.subscribes == 0 && WantsSubscription(d, x) then 1 else s.subscribes)
    else if WillAccumulate(d) then
      var r := Deliver(s.table, d.w, x, false, c, id);
      s.(table := Run(r.0, after), outcomes := s.outcomes + [r.1], accumulated := s.accumulated + 1)
    else s.(outcomes := s.outcomes + [NotEngaged])
  }

  function FanOut(t: Table, ds: seq<Decision>, x: Context, c: Option<Classification>, o: Meanwhile): (r: Tally)
    ensures |r.outcomes| == |ds|
  {
    if ds == [] then Tally(t, [], 0, 0, 0)
    else
      var n := |ds| - 1;
      FanOutOne(FanOut(t, ds[..n], x, c, o), ds[n], x, c, IdAt(o, n), EventsAt(o, n))
  }

  lemma {:induction false} FanOutIsLocal(t: Table, ds: seq<Decision>, x: Context, c: Option<Classification>,
      o: Meanwhile,
      o': Meanwhile)
    requires o.ids == o'.ids && forall n :: 0 <= n < |ds| ==> EventsAt(o, n) == EventsAt(o', n)
    ensures FanOut(t, ds, x, c, o) == FanOut(t, ds, x, c, o')
    decreases |ds|
  {
    if ds != [] { FanOutIsLocal(t, ds[..|ds| - 1], x, c, o, o'); }
  }

  function Later(o: Meanwhile, after: seq<Event>): Meanwhile {
    o.(deliveries := o.deliveries + [after])
  }

  /** One more decision, with what happens at its delivery. */
  lemma FanOutStep(t: Table, ds: seq<Decision>, i: nat, x: Context, c: Option<Classification>, o: Meanwhile,
      after: seq<Event>)
    requires i < |ds| && |o.deliveries| == i
    ensures FanOut(t, ds[..i + 1], x, c, Later(o, after))
         == FanOutOne(FanOut(t, ds[..i], x, c, o), ds[i], x, c, IdAt(o, i), after)
  {
    assert ds[..i + 1][..i] == ds[..i];
    FanOutIsLocal(t, ds[..i], x, c, o, Later(o, after));
  }

  // ---------------------------------------------------------------------------------------------
  // The whole route
  // ---------------------------------------------------------------------------------------------

  datatype Reason = NoAgentWired | NoAgentEngaged | NoAgentEngagedAfterGate

  datatype Routed = Routed(table: Table, decisions: seq<Decision>, outcomes: seq<Outcome>, record: Option<Reason>,
                           subscribes: nat)

  /** One inbound message. `g` is None when the chat is not known; it is then made known only for a mention.
      `run` is what the gate would do. */
  datatype Call = Call(g: Option<Group>, adapter: Option<Adapter>, ws: seq<Wiring>, m: Message, enabled: bool, run: GateRun,
                       now: int)

  predicate IsWired(k: Call) {
    k.g.Some? && k.ws != []
  }

  function Collapse(adapter: Option<Adapter>, thread: Option<string>): Option<string> {
    if adapter.Some? && !adapter.value.supportsThreads then None else thread
  }

  function ContextOf(g: Group, adapter: Option<Adapter>, m: Message, now: int): Context {
    Context(g, Collapse(adapter, m.thread), adapter.Some? && adapter.value.supportsThreads,
            adapter.Some? && adapter.value.canSubscribe, now)
  }

  function DecisionsOf(t: Table, k: Call): seq<Decision>
    requires IsWired(k)
  {
    Decisions(k.ws, t, k.g.value, k.m.(thread := Collapse(k.adapter, k.m.thread)))
  }

  /** Every decision is that of a wired agent, made on the sessions as they were. */
  lemma DecisionsFit(ws: seq<Wiring>, t: Table, g: Group, m: Message)
    ensures forall i :: 0 <= i < |Decisions(ws, t, g, m)| ==>
              var d := Decisions(ws, t, g, m)[i]; d.w in ws && d.w.known && d == Decide(d.w, t, g, m)
  {
    if ws != [] {
      DecisionsFit(ws[..|ws| - 1], t, g, m);
    }
  }

  /** The fan-out, and the drop record if nobody was counted. */
  function Dispatch(t: Table, ds: seq<Decision>, x: Context, c: Option<Classification>, o: Meanwhile): Routed {
    var s := FanOut(t, ds, x, c, o);
    Routed(s.table, ds, s.outcomes,
           if s.engaged + s.accumulated > 0 then None
           else if c.Some? then Some(NoAgentEngagedAfterGate) else Some(NoAgentEngaged),
           s.subscribes)
  }

  predicate AsksGate(t: Table, k: Call)
    requires IsWired(k)
  {
    k.enabled && WillAnyAgentAct(DecisionsOf(t, k))
  }

  function GateOf(t: Table, k: Call): Gate
    requires IsWired(k)
  {
    Evaluate(k.enabled, WillAnyAgentAct(DecisionsOf(t, k)), k.run)
  }

  /** The sessions when the gate has answered. */
  function AfterGate(t: Table, k: Call, o: Meanwhile): Table
    requires IsWired(k)
  {
    if AsksGate(t, k) then Run(t, o.gate) else t
  }

  function Route(t: Table, k: Call, o: Meanwhile): Routed {
    if !IsWired(k) then
      Routed(t, [], [], if k.m.isMention && !(k.g.Some? && k.g.value.denied) then Some(NoAgentWired) else None, 0)
    else
      var ds, gate := DecisionsOf(t, k), GateOf(t, k);
      if gate.Blocked? then Routed(AfterGate(t, k, o), ds, seq(|ds|, _ => Stopped), None, 0)
      else Dispatch(AfterGate(t, k, o), ds, ContextOf(k.g.value, k.adapter, k.m, k.now), gate.c, o)
  }

  // ---------------------------------------------------------------------------------------------
  // The object
  // ---------------------------------------------------------------------------------------------

  class Router {
    var rows: Table
    var drops: seq<Reason>
    var subscribes: nat

    constructor ()
      ensures rows == [] && drops == [] && subscribes == 0
    {
      rows, drops, subscribes := [], [], 0;
    }

    /** An `await`: sessions are resolved for other messages, closed and deleted. */
    method Await() returns (ghost others: seq<Event>)
      modifies `rows
      ensures rows == Run(old(rows), others)
    {
      others := [];
    }

    method Decide(g: Group, m: Message, wirings: seq<Wiring>) returns (decisions: seq<Decision>, willAnyAgentAct: bool)
      ensures decisions == Decisions(wirings, rows, g, m)
      ensures willAnyAgentAct == WillAnyAgentAct(decisions)
    {
      decisions := [];
      willAnyAgentAct := false;
      for i := 0 to |wirings|
        invariant decisions == Decisions(wirings[..i], rows, g, m)
        invariant willAnyAgentAct == WillAnyAgentAct(decisions)
      {
        var w := wirings[i];
        assert wirings[..i + 1][..i] == wirings[..i];
        if w.known {
          var engages := Engages(w, rows, g, m.isMention, m.thread);
          var d := Decision(w, engages, engages && w.access, engages && w.scope);
          ghost var was := decisions;
          decisions := decisions + [d];
          assert forall k :: 0 <= k < |was| ==> decisions[k] == was[k];
          willAnyAgentAct := willAnyAgentAct || WillEngage(d) || WillAccumulate(d);
          assert Acts(d) ==> Acts(decisions[|was|]);
        }
      }
      assert wirings[..|wirings|] == wirings;
    }

    method DeliverToAgent(w: Wiring, x: Context, wake: bool, c: Option<Classification>,
        id: string) returns (outcome: Outcome)
      modifies `rows
      ensures (rows, outcome) == Deliver(old(rows), w, x, wake, c, id)
    {
      if c.Some? {
        var shouldSkip := (c.value.BiblioAdk? && !w.adk) || (c.value.BiblioOther? && w.adk);
        if shouldSkip { return ProviderMismatch; }
      }
      if w.adk {
        return if wake then AdkDispatched else AdkDropped;
      }
      var mode := w.mode;
      if x.threads && !mode.AgentShared? && x.g.isGroup {
        mode := PerThread;
      }
      var r := Resolve(rows, Request(w.agent, Some(x.g.id), x.thread, mode), id, x.now);
      rows := r.table;
      if w.command.Filter? { return Filtered; }
      if w.command.Deny? { return Denied(r.session); }
      outcome := Written(r.session, wake);
    }

    /** One pass over the decisions, with anything happening at the deliveries. */
    method FanOutAll(decisions: seq<Decision>, x: Context, c: Option<Classification>, ids: seq<string>,
        ghost atGate: seq<Event>)
      returns (outcomes: seq<Outcome>, engagedCount: nat, accumulatedCount: nat, ghost o: Meanwhile)
      requires |ids| >= |decisions|
      modifies `rows, `subscribes
      ensures o.ids == ids && o.gate == atGate
      ensures var r := FanOut(old(rows), decisions, x, c, o);
              && Tally(rows, outcomes, engagedCount, accumulatedCount, r.subscribes) == r
              && subscribes == old(subscribes) + r.subscribes
    {
      outcomes, engagedCount, accumulatedCount := [], 0, 0;
      o := Meanwhile(ids, atGate, []);
      var subscribed := false;
      ghost var r := Tally(rows, [], 0, 0, 0);
      for i := 0 to |decisions|
        invariant o.ids == ids && o.gate == atGate && |o.deliveries| == i
        invariant r == FanOut(old(rows), decisions[..i], x, c, o)
        invariant Tally(rows, outcomes, engagedCount, accumulatedCount, r.subscribes) == r
        invariant subscribes == old(subscribes) + r.subscribes
        invariant subscribed == (r.subscribes > 0)
      {
        var d := decisions[i];
        ghost var after: seq<Event> := [];
        if d.engages && d.accessOk && d.scopeOk {
          var outcome := DeliverToAgent(d.w, x, true, c, ids[i]);
          after := Await();
          outcomes := outcomes + [outcome];
          engagedCount := engagedCount + 1;
          if !subscribed && d.w.engage.MentionSticky? && x.threads && x.canSubscribe && x.thread.Some? && x.g.isGroup {
            subscribed := true;
            subscribes := subscribes + 1;
          }
        } else if d.w.policy.Accumulate? && !(d.engages && (!d.accessOk || !d.scopeOk)) {
          var outcome := DeliverToAgent(d.w, x, false, c, ids[i]);
          after := Await();
          outcomes := outcomes + [outcome];
          accumulatedCount := accumulatedCount + 1;
        } else {
          outcomes := outcomes + [NotEngaged];
        }
        FanOutStep(old(rows), decisions, i, x, c, o, after);
        r := FanOutOne(r, d, x, c, ids[i], after);
        o := Later(o, after);
      }
      assert decisions[..|decisions|] == decisions;
    }

    /** The gate is asked only if somebody acts. Returns whether it stops the message, and otherwise the
        classification to go on with. */
    method AskGate(gateEnabled: bool, willAnyAgentAct: bool, run: GateRun)
      returns (blocked: bool, result: Option<Classification>, ghost others: seq<Event>)
      modifies `rows
      ensures Evaluate(gateEnabled, willAnyAgentAct, run) == if blocked then Blocked else Open(result)
      ensures rows == if gateEnabled && willAnyAgentAct then Run(old(rows), others) else old(rows)
    {
      blocked, result, others := false, None, [];
      if gateEnabled && willAnyAgentAct {
        others := Await();
        match run {
          case Verdict(c) =>
            if c.InSecure? { blocked := true; } else { result := Some(c); }
          case LateThrow(_) => result := None;
          case Throws => result := None;
        }
      }
    }

    /** The state after a message is what the routing function says. */
    ghost predicate Reflects(r: Routed, outcomes: seq<Outcome>, oldDrops: seq<Reason>, oldSubscribes: nat)
      reads this
    {
      && rows == r.table && outcomes == r.outcomes
      && drops == oldDrops + (if r.record.Some? then [r.record.value] else [])
      && subscribes == oldSubscribes + r.subscribes
    }

    method DispatchAll(decisions: seq<Decision>, x: Context, c: Option<Classification>, ids: seq<string>,
        ghost atGate: seq<Event>)
      returns (outcomes: seq<Outcome>, ghost o: Meanwhile)
      requires |ids| >= |decisions|
      modifies this
      ensures o.ids == ids && o.gate == atGate
      ensures Reflects(Dispatch(old(rows), decisions, x, c, o), outcomes, old(drops), old(subscribes))
    {
      var engagedCount, accumulatedCount;
      outcomes, engagedCount, accumulatedCount, o := FanOutAll(decisions, x, c, ids, atGate);
      if engagedCount + accumulatedCount == 0 {
        drops := drops + [if c.Some? then NoAgentEngagedAfterGate else NoAgentEngaged];
      }
    }

    method RouteWired(k: Call, ids: seq<string>) returns (outcomes: seq<Outcome>, ghost o: Meanwhile)
      requires IsWired(k) && |ids| >= |k.ws|
      modifies this
      ensures Reflects(Route(old(rows), k, o), outcomes, old(drops), old(subscribes))
    {
      var group := k.g.value;
      var thread := if k.adapter.Some? && !k.adapter.value.supportsThreads then None else k.m.thread;
      var decisions, willAnyAgentAct := Decide(group, k.m.(thread := thread), k.ws);
      FewerDecisions(k.ws, rows, group, k.m.(thread := thread));
      var blocked, result;
      ghost var atGate;
      blocked, result, atGate := AskGate(k.enabled, willAnyAgentAct, k.run);
      if blocked {
        return seq(|decisions|, _ => Stopped), Meanwhile(ids, atGate, []);
      }
      var threads := k.adapter.Some? && k.adapter.value.supportsThreads;
      var x := Context(group, thread, threads, k.adapter.Some? && k.adapter.value.canSubscribe, k.now);
      outcomes, o := DispatchAll(decisions, x, result, ids, atGate);
    }

    /** Whatever the host does at the `await`s of the message, the route is the one of the specification. */
    method RouteInbound(k: Call, ids: seq<string>) returns (outcomes: seq<Outcome>, ghost o: Meanwhile)
      requires |ids| >= |k.ws|
      modifies this
      ensures Reflects(Route(old(rows), k, o), outcomes, old(drops), old(subscribes))
    {
      if k.g.None? || |k.ws| == 0 {
        if k.m.isMention && !(k.g.Some? && k.g.value.denied) {
          drops := drops + [NoAgentWired];
        }
        return [], Meanwhile(ids, [], []);
      }
      outcomes, o := RouteWired(k, ids);
    }
  }

  lemma FewerDecisions(ws: seq<Wiring>, t: Table, g: Group, m: Message)
    ensures |Decisions(ws, t, g, m)| <= |ws|
  {
    if ws != [] { FewerDecisions(ws[..|ws| - 1], t, g, m); }
  }
}

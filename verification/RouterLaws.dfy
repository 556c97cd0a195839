/** What routing promises: about the fan-out, the gate, the drop record and mention-sticky threads.

    Everything holds for whatever the rest of the host does to the sessions meanwhile. */
module RouterLaws {
  import opened Options
  import opened Sessions
  import opened Router

  // ---------------------------------------------------------------------------------------------
  // The fan-out
  // ---------------------------------------------------------------------------------------------

  /** The two counters tell whether anybody acts: a delivery that is skipped is counted all the same. */
  lemma {:induction false} CountsAreZeroIffNobodyActs(t: Table, ds: seq<Decision>, x: Context,
      c: Option<Classification>,
      o: Meanwhile)
    ensures var s := FanOut(t, ds, x, c, o);
            s.engaged + s.accumulated == 0 <==> !WillAnyAgentAct(ds)
    decreases |ds|
  {
    if ds != [] {
      var n := |ds| - 1;
      CountsAreZeroIffNobodyActs(t, ds[..n], x, c, o);
      LastActs(ds);
      OneMoreCounts(FanOut(t, ds[..n], x, c, o), ds[n], x, c, IdAt(o, n), EventsAt(o, n));
    }
  }

  lemma OneMoreCounts(s: Tally, d: Decision, x: Context, c: Option<Classification>, id: string, after: seq<Event>)
    ensures var s' := FanOutOne(s, d, x, c, id, after);
            s'.engaged + s'.accumulated == s.engaged + s.accumulated + if Acts(d) then 1 else 0
  {
  }

  lemma LastActs(ds: seq<Decision>)
    requires ds != []
    ensures WillAnyAgentAct(ds) <==> WillAnyAgentAct(ds[..|ds| - 1]) || Acts(ds[|ds| - 1])
  {
    OneMoreActs(ds[..|ds| - 1], ds[|ds| - 1]);
    assert ds == ds[..|ds| - 1] + [ds[|ds| - 1]];
  }

  lemma OneMoreActs(ds: seq<Decision>, d: Decision)
    ensures WillAnyAgentAct(ds + [d]) <==> WillAnyAgentAct(ds) || Acts(d)
  {
    if i :| 0 <= i < |ds + [d]| && Acts((ds + [d])[i]) {
      if i < |ds| { assert Acts(ds[i]); }
    }
    if i :| 0 <= i < |ds| && Acts(ds[i]) { assert Acts((ds + [d])[i]); }
    assert (ds + [d])[|ds|] == d;
  }

  /** What one decision leads to, whatever happened before. */
  predicate OutcomeFits(d: Decision, c: Option<Classification>, out: Outcome) {
    && (out.NotEngaged? <==> !Acts(d))
    && (out.ProviderMismatch? <==> Acts(d) && Mismatch(c, d.w.adk))
    && (out.AdkDispatched? <==> WillEngage(d) && d.w.adk && !Mismatch(c, true))
    && (out.AdkDropped? <==> Acts(d) && !WillEngage(d) && d.w.adk && !Mismatch(c, true))
    && (out.Filtered? || out.Denied? || out.Written? <==> Acts(d) && !d.w.adk && !Mismatch(c, false))
    && (out.Filtered? ==> d.w.command.Filter?)
    && (out.Denied? ==> d.w.command.Deny? && out.session.agent == d.w.agent)
    && (out.Written? ==> d.w.command.Pass? && out.trigger == WillEngage(d) && out.session.agent == d.w.agent)
    && !out.Stopped?
  }

  lemma DeliverFits(t: Table, d: Decision, x: Context, c: Option<Classification>, id: string)
    requires Acts(d)
    ensures OutcomeFits(d, c, Deliver(t, d.w, x, WillEngage(d), c, id).1)
  {
  }

  lemma {:induction false} FanOutFits(t: Table, ds: seq<Decision>, x: Context, c: Option<Classification>,
      o: Meanwhile, i: nat)
    requires i < |ds|
    ensures OutcomeFits(ds[i], c, FanOut(t, ds, x, c, o).outcomes[i])
    decreases |ds|
  {
    var n := |ds| - 1;
    var before := FanOut(t, ds[..n], x, c, o);
    if i < n {
      FanOutFits(t, ds[..n], x, c, o, i);
    } else if Acts(ds[n]) {
      DeliverFits(before.table, ds[n], x, c, IdAt(o, n));
    }
  }

  /** Whether the message went on to a session or a dispatcher. */
  predicate Passed(out: Outcome) {
    !out.Stopped? && !out.NotEngaged? && !out.ProviderMismatch?
  }

  /** The two classifications share the acting agents out by provider, and without one all are passed,
      each time whatever else happens meanwhile. */
  lemma ProvidersPartitionTheActing(t: Table, ds: seq<Decision>, x: Context, o: Meanwhile, o': Meanwhile,
      o'': Meanwhile, i: nat)
    requires i < |ds|
    ensures var adk := FanOut(t, ds, x, Some(BiblioAdk), o).outcomes[i];
            var other := FanOut(t, ds, x, Some(BiblioOther), o').outcomes[i];
            var unclassified := FanOut(t, ds, x, None, o'').outcomes[i];
            && (Passed(adk) <==> Acts(ds[i]) && ds[i].w.adk)
            && (Passed(other) <==> Acts(ds[i]) && !ds[i].w.adk)
            && (Passed(unclassified) <==> Passed(adk) || Passed(other))
            && !(Passed(adk) && Passed(other))
  {
    FanOutFits(t, ds, x, Some(BiblioAdk), o, i);
    FanOutFits(t, ds, x, Some(BiblioOther), o', i);
    FanOutFits(t, ds, x, None, o'', i);
  }

  predicate AnyWantsSubscription(ds: seq<Decision>, x: Context) {
    exists i :: 0 <= i < |ds| && WantsSubscription(ds[i], x)
  }

  lemma OneMoreWants(ds: seq<Decision>, d: Decision, x: Context)
    ensures AnyWantsSubscription(ds + [d], x) <==> AnyWantsSubscription(ds, x) || WantsSubscription(d, x)
  {
    if i :| 0 <= i < |ds + [d]| && WantsSubscription((ds + [d])[i], x) {
      if i < |ds| { assert WantsSubscription(ds[i], x); }
    }
    if i :| 0 <= i < |ds| && WantsSubscription(ds[i], x) { assert WantsSubscription((ds + [d])[i], x); }
    assert (ds + [d])[|ds|] == d;
  }

  lemma LastWants(ds: seq<Decision>, x: Context)
    requires ds != []
    ensures AnyWantsSubscription(ds, x) <==>
              AnyWantsSubscription(ds[..|ds| - 1], x) || WantsSubscription(ds[|ds| - 1], x)
  {
    OneMoreWants(ds[..|ds| - 1], ds[|ds| - 1], x);
    assert ds == ds[..|ds| - 1] + [ds[|ds| - 1]];
  }

  lemma NextSubscribes(s: Tally, d: Decision, x: Context, c: Option<Classification>, id: string, after: seq<Event>)
    requires s.subscribes <= 1
    ensures FanOutOne(s, d, x, c, id, after).subscribes == if WantsSubscription(d, x) then 1 else s.subscribes
  {
  }

  /** At most one subscription is asked for, and one exactly when a mention-sticky agent engages in a
      thread of a group on a threaded adapter that can subscribe. */
  lemma {:induction false} SubscribesOnce(t: Table, ds: seq<Decision>, x: Context, c: Option<Classification>,
      o: Meanwhile)
    ensures FanOut(t, ds, x, c, o).subscribes == if AnyWantsSubscription(ds, x) then 1 else 0
    decreases |ds|
  {
    if ds != [] {
      var n := |ds| - 1;
      SubscribesOnce(t, ds[..n], x, c, o);
      LastWants(ds, x);
      NextSubscribes(FanOut(t, ds[..n], x, c, o), ds[n], x, c, IdAt(o, n), EventsAt(o, n));
    }
  }

  lemma DeliverKeepsOnePerKey(t: Table, w: Wiring, x: Context, wake: bool, c: Option<Classification>, id: string,
      after: seq<Event>)
    requires OnePerKey(t)
    ensures OnePerKey(Run(Deliver(t, w, x, wake, c, id).0, after))
  {
    ResolveKeepsOnePerKey(t, RequestFor(w, x), id, x.now);
    RunKeepsOnePerKey(Deliver(t, w, x, wake, c, id).0, after);
  }

  /** The fan-out leaves at most one active session for each key. */
  lemma {:induction false} FanOutKeepsOnePerKey(t: Table, ds: seq<Decision>, x: Context, c: Option<Classification>,
      o: Meanwhile)
    requires OnePerKey(t)
    ensures OnePerKey(FanOut(t, ds, x, c, o).table)
    decreases |ds|
  {
    if ds != [] {
      var n := |ds| - 1;
      FanOutKeepsOnePerKey(t, ds[..n], x, c, o);
      var before := FanOut(t, ds[..n], x, c, o).table;
      DeliverKeepsOnePerKey(before, ds[n].w, x, WillEngage(ds[n]), c, IdAt(o, n), EventsAt(o, n));
    }
  }

  // ---------------------------------------------------------------------------------------------
  // The whole route
  // ---------------------------------------------------------------------------------------------

  /** Routing a message leaves at most one active session for each key. */
  lemma RouteKeepsOnePerKey(t: Table, k: Call, o: Meanwhile)
    requires OnePerKey(t)
    ensures OnePerKey(Route(t, k, o).table)
  {
    if IsWired(k) {
      RunKeepsOnePerKey(t, o.gate);
      if GateOf(t, k).Open? {
        FanOutKeepsOnePerKey(AfterGate(t, k, o), DecisionsOf(t, k), ContextOf(k.g.value, k.adapter, k.m, k.now),
                             GateOf(t, k).c, o);
      }
    }
  }

  /** Exactly when a dropped message is recorded, and why. The reason kept for a drop after the gate is
      never recorded: the gate is only asked when somebody acts, and whoever acts is counted. */
  lemma DropIsRecordedIff(t: Table, k: Call, o: Meanwhile)
    ensures Route(t, k, o).record == Some(NoAgentEngaged)
       <==> k.g.Some? && k.ws != [] && !WillAnyAgentAct(DecisionsOf(t, k))
    ensures Route(t, k, o).record == Some(NoAgentWired)
       <==> (k.g.None? || k.ws == []) && k.m.isMention && !(k.g.Some? && k.g.value.denied)
    ensures Route(t, k, o).record != Some(NoAgentEngagedAfterGate)
  {
    if IsWired(k) && GateOf(t, k).Open? {
      CountsAreZeroIffNobodyActs(AfterGate(t, k, o), DecisionsOf(t, k), ContextOf(k.g.value, k.adapter, k.m, k.now),
                                 GateOf(t, k).c, o);
    }
  }

  /** A message to a chat that is not known or has no agents touches no session and asks for no subscription. */
  lemma UnwiredReachesNobody(t: Table, k: Call, o: Meanwhile)
    requires k.g.None? || k.ws == []
    ensures var r := Route(t, k, o); r.table == t && r.outcomes == [] && r.subscribes == 0
  {
  }

  lemma RouteFits(t: Table, k: Call, o: Meanwhile, i: nat)
    requires IsWired(k) && i < |DecisionsOf(t, k)|
    ensures |Route(t, k, o).outcomes| == |DecisionsOf(t, k)| && Route(t, k, o).decisions == DecisionsOf(t, k)
    ensures GateOf(t, k).Blocked? ==> Route(t, k, o).outcomes[i] == Stopped
    ensures GateOf(t, k).Open? ==> OutcomeFits(DecisionsOf(t, k)[i], GateOf(t, k).c, Route(t, k, o).outcomes[i])
  {
    if GateOf(t, k).Open? {
      FanOutFits(AfterGate(t, k, o), DecisionsOf(t, k), ContextOf(k.g.value, k.adapter, k.m, k.now), GateOf(t, k).c, o, i);
    }
  }

  /** An agent for which a sender gate refused the message gets nothing, under either policy and
      whatever the gate says. */
  lemma RefusedAgentGetsNothing(t: Table, k: Call, o: Meanwhile, i: nat)
    requires IsWired(k) && i < |DecisionsOf(t, k)|
    requires var d := DecisionsOf(t, k)[i]; d.engages && !(d.w.access && d.w.scope)
    ensures |Route(t, k, o).outcomes| == |DecisionsOf(t, k)| && !Passed(Route(t, k, o).outcomes[i])
  {
    RouteFits(t, k, o, i);
    DecisionsFit(k.ws, t, k.g.value, k.m.(thread := Collapse(k.adapter, k.m.thread)));
  }

  lemma FittingIsPassedIff(d: Decision, c: Option<Classification>, out: Outcome)
    requires OutcomeFits(d, c, out)
    ensures Passed(out) <==> Acts(d) && !Mismatch(c, d.w.adk)
  {
  }

  /** Who is passed the message, for every result of the gate: of the acting agents, none if it blocks, those
      of one provider if it classifies, and all if it is off or throws at any point. */
  lemma WhoIsPassed(t: Table, k: Call, o: Meanwhile, i: nat)
    requires IsWired(k) && i < |DecisionsOf(t, k)|
    ensures |Route(t, k, o).outcomes| == |DecisionsOf(t, k)|
    ensures var d := DecisionsOf(t, k)[i];
            var passed := Passed(Route(t, k, o).outcomes[i]);
            if !k.enabled || !k.run.Verdict? then passed <==> Acts(d)
            else match k.run.c
              case InSecure => !passed
              case BiblioAdk => passed <==> Acts(d) && d.w.adk
              case BiblioOther => passed <==> Acts(d) && !d.w.adk
  {
    PassedIffGateOpens(t, k, o, i);
    var d := DecisionsOf(t, k)[i];
    if Acts(d) {
      assert WillAnyAgentAct(DecisionsOf(t, k));
      GateByResult(k.enabled, k.run, d.w.adk);
    }
  }

  lemma PassedIffGateOpens(t: Table, k: Call, o: Meanwhile, i: nat)
    requires IsWired(k) && i < |DecisionsOf(t, k)|
    ensures |Route(t, k, o).outcomes| == |DecisionsOf(t, k)|
    ensures var d, gate := DecisionsOf(t, k)[i], GateOf(t, k);
            Passed(Route(t, k, o).outcomes[i]) <==> Acts(d) && gate.Open? && !Mismatch(gate.c, d.w.adk)
  {
    RouteFits(t, k, o, i);
    if GateOf(t, k).Open? {
      FittingIsPassedIff(DecisionsOf(t, k)[i], GateOf(t, k).c, Route(t, k, o).outcomes[i]);
    }
  }

  lemma GateByResult(enabled: bool, run: GateRun, adk: bool)
    ensures var gate := Evaluate(enabled, true, run);
            gate.Open? && !Mismatch(gate.c, adk) <==>
              if !enabled || !run.Verdict? then true
              else match run.c
                case InSecure => false
                case BiblioAdk => adk
                case BiblioOther => !adk
  {
  }

  /** A verdict of insecure passes the message to nobody, resolves no session, asks for no subscription and
      leaves no drop record. */
  lemma InsecureReachesNobody(t: Table, k: Call, o: Meanwhile)
    requires IsWired(k) && AsksGate(t, k) && k.run == Verdict(InSecure)
    ensures var r := Route(t, k, o);
            && r.table == Run(t, o.gate) && r.record.None? && r.subscribes == 0
            && |r.outcomes| == |DecisionsOf(t, k)|
            && forall i :: 0 <= i < |r.outcomes| ==> !Passed(r.outcomes[i])
  {
    forall i | 0 <= i < |DecisionsOf(t, k)|
      ensures !Passed(Route(t, k, o).outcomes[i])
    {
      WhoIsPassed(t, k, o, i);
    }
  }

  // ---------------------------------------------------------------------------------------------
  // What becomes of the message for each wired agent
  // ---------------------------------------------------------------------------------------------

  /** The wirings whose agent group still exists. */
  function Known(ws: seq<Wiring>): seq<Wiring> {
    if ws == [] then [] else (if ws[0].known then [ws[0]] else []) + Known(ws[1..])
  }

  lemma {:induction false} KnownOfParts(a: seq<Wiring>, b: seq<Wiring>)
    ensures Known(a + b) == Known(a) + Known(b)
    decreases |a|
  {
    if a == [] {
      assert a + b == b;
    } else {
      HeadAndRest(a, b);
      KnownOfParts(a[1..], b);
      Assoc(if a[0].known then [a[0]] else [], Known(a[1..]), Known(b));
    }
  }

  lemma HeadAndRest<T>(a: seq<T>, b: seq<T>)
    requires a != []
    ensures a + b != [] && (a + b)[0] == a[0] && (a + b)[1..] == a[1..] + b
  {
  }

  lemma Assoc<T>(a: seq<T>, b: seq<T>, c: seq<T>)
    ensures a + b + c == a + (b + c)
  {
  }

  lemma {:induction false} OneDecisionEach(ws: seq<Wiring>, t: Table, g: Group, m: Message)
    ensures var ds := Decisions(ws, t, g, m);
            |ds| == |Known(ws)| && forall i :: 0 <= i < |ds| ==> ds[i] == Decide(Known(ws)[i], t, g, m)
    decreases |ws|
  {
    if ws != [] {
      var n := |ws| - 1;
      OneDecisionEach(ws[..n], t, g, m);
      KnownOfParts(ws[..n], [ws[n]]);
      assert ws == ws[..n] + [ws[n]] && [ws[n]][1..] == [];
    }
  }

  /** A session the agent already has for this chat and thread. */
  predicate HasSession(t: Table, agent: string, chat: string, thread: Option<string>) {
    exists i :: 0 <= i < |t| && t[i].active && t[i].agent == agent && t[i].mg == Some(chat)
                && t[i].thread == if thread == Some("") then None else thread
  }

  /** Whether the message is meant for the agent, by the way it is wired. */
  predicate IsMeant(w: Wiring, t: Table, g: Group, isMention: bool, thread: Option<string>) {
    || (w.engage.Pattern? && w.hit)
    || (w.engage.Mention? && isMention)
    || (w.engage.MentionSticky? && (isMention || (g.isGroup && HasSession(t, w.agent, g.id, thread))))
  }

  lemma EngagesIffMeant(w: Wiring, t: Table, g: Group, isMention: bool, thread: Option<string>)
    ensures Engages(w, t, g, isMention, thread) <==> IsMeant(w, t, g, isMention, thread)
  {
    var r := FindForAgent(t, w.agent, g.id, thread);
    if i :| 0 <= i < |t| && t[i].active && t[i].agent == w.agent && t[i].mg == Some(g.id)
            && t[i].thread == if thread == Some("") then None else thread {
      assert Matches(t[i], w.agent, g.id, thread);
    }
  }

  /** With the gate off or thrown: an agent that the message is meant for is woken with it if both sender gates
      admit the sender, and gets nothing otherwise; any other agent gets it silently if its policy is to accumulate. */
  lemma OutcomeOfWiring(t: Table, k: Call, o: Meanwhile, i: nat)
    requires IsWired(k) && (!k.enabled || !k.run.Verdict?) && i < |Known(k.ws)|
    ensures |Route(t, k, o).outcomes| == |Known(k.ws)|
    ensures var w, out := Known(k.ws)[i], Route(t, k, o).outcomes[i];
            var meant := IsMeant(w, t, k.g.value, k.m.isMention, Collapse(k.adapter, k.m.thread));
            if (meant && !(w.access && w.scope)) || (!meant && w.policy.Drop?) then out == NotEngaged
            else if w.adk then out == if meant then AdkDispatched else AdkDropped
            else match w.command
              case Pass => out.Written? && out.trigger == meant
              case Filter => out == Filtered
              case Deny => out.Denied?
  {
    var m := k.m.(thread := Collapse(k.adapter, k.m.thread));
    OneDecisionEach(k.ws, t, k.g.value, m);
    var d := DecisionsOf(t, k)[i];
    EngagesIffMeant(d.w, t, k.g.value, m.isMention, m.thread);
    if Acts(d) { assert WillAnyAgentAct(DecisionsOf(t, k)); }
    UnclassifiedGate(t, k);
    RouteFits(t, k, o, i);
    FittingOutcome(d, Route(t, k, o).outcomes[i]);
  }

  lemma UnclassifiedGate(t: Table, k: Call)
    requires IsWired(k) && (!k.enabled || !k.run.Verdict?)
    ensures GateOf(t, k) == Open(None)
  {
  }

  lemma FittingOutcome(d: Decision, out: Outcome)
    requires OutcomeFits(d, None, out)
    ensures !Acts(d) ==> out == NotEngaged
    ensures Acts(d) && d.w.adk ==> out == if WillEngage(d) then AdkDispatched else AdkDropped
    ensures Acts(d) && !d.w.adk ==>
              match d.w.command
              case Pass => out.Written? && out.trigger == WillEngage(d)
              case Filter => out == Filtered
              case Deny => out.Denied?
  {
  }

  /** The session that a message of this chat belongs to: threads have sessions of their own in groups on threaded
      adapters, and elsewhere if the wiring says so. */
  predicate SessionFits(r: Session, w: Wiring, g: Group, threads: bool, thread: Option<string>) {
    var own := (threads && g.isGroup) || w.mode.PerThread?;
    && r.active && r.agent == w.agent
    && (!w.mode.AgentShared? ==>
          && r.mg == Some(g.id)
          && (r.thread == (if own then thread else None) || (r.thread == None && thread == Some(""))))
  }

  predicate OutcomeSessionFits(out: Outcome, w: Wiring, x: Context) {
    (out.Written? || out.Denied?) ==> SessionFits(out.session, w, x.g, x.threads, x.thread)
  }

  lemma {:induction false} FanOutSessions(t: Table, ds: seq<Decision>, x: Context, c: Option<Classification>,
      o: Meanwhile, i: nat)
    requires i < |ds|
    ensures OutcomeSessionFits(FanOut(t, ds, x, c, o).outcomes[i], ds[i].w, x)
    decreases |ds|
  {
    var n := |ds| - 1;
    NextOutcomeSession(FanOut(t, ds[..n], x, c, o), ds[n], x, c, IdAt(o, n), EventsAt(o, n));
    if i < n { FanOutSessions(t, ds[..n], x, c, o, i); }
  }

  lemma NextOutcomeSession(s: Tally, d: Decision, x: Context, c: Option<Classification>, id: string, after: seq<Event>)
    ensures var outcomes := FanOutOne(s, d, x, c, id, after).outcomes;
            && |outcomes| == |s.outcomes| + 1 && outcomes[..|s.outcomes|] == s.outcomes
            && OutcomeSessionFits(outcomes[|s.outcomes|], d.w, x)
  {
    if WillEngage(d) {
      DeliveredSessionFits(s.table, d.w, x, true, c, id);
    } else if WillAccumulate(d) {
      DeliveredSessionFits(s.table, d.w, x, false, c, id);
    }
  }

  lemma DeliveredSessionFits(t: Table, w: Wiring, x: Context, wake: bool, c: Option<Classification>, id: string)
    ensures OutcomeSessionFits(Deliver(t, w, x, wake, c, id).1, w, x)
  {
    ResolvedSessionFits(t, w, x, id);
  }

  lemma ResolvedSessionFits(t: Table, w: Wiring, x: Context, id: string)
    ensures SessionFits(Resolve(t, RequestFor(w, x), id, x.now).session, w, x.g, x.threads, x.thread)
  {
    if !w.mode.AgentShared? { FoundSession(t, RequestFor(w, x), id, x.now); }
  }

  /** Where a message is written or refused by a command, it is in such a session. */
  lemma SessionOfWiring(t: Table, k: Call, o: Meanwhile, i: nat)
    requires IsWired(k) && i < |Route(t, k, o).outcomes|
    ensures |Route(t, k, o).outcomes| == |Known(k.ws)|
    ensures var w, out := Known(k.ws)[i], Route(t, k, o).outcomes[i];
            out.Written? || out.Denied? ==>
              SessionFits(out.session, w, k.g.value, k.adapter.Some? && k.adapter.value.supportsThreads,
                          if k.adapter.Some? && !k.adapter.value.supportsThreads then None else k.m.thread)
  {
    OneDecisionEach(k.ws, t, k.g.value, k.m.(thread := Collapse(k.adapter, k.m.thread)));
    if GateOf(t, k).Open? {
      FanOutSessions(AfterGate(t, k, o), DecisionsOf(t, k), ContextOf(k.g.value, k.adapter, k.m, k.now),
                     GateOf(t, k).c, o, i);
    }
  }

  /** Whether an agent is woken with the message and then wants the thread subscribed. */
  predicate IsSubscriber(w: Wiring, t: Table, k: Call)
    requires k.g.Some?
  {
    && w.engage.MentionSticky? && w.access && w.scope
    && IsMeant(w, t, k.g.value, k.m.isMention, Collapse(k.adapter, k.m.thread))
  }

  /** Exactly when the adapter is asked to subscribe to the thread, and then once: the gate lets the message pass, it
      is in a thread of a group, the adapter has threads and can subscribe, and some mention-sticky agent is woken. */
  lemma RouteSubscribesIff(t: Table, k: Call, o: Meanwhile)
    requires IsWired(k)
    ensures Route(t, k, o).subscribes ==
            if GateOf(t, k).Open? && k.g.value.isGroup && k.m.thread.Some?
               && k.adapter.Some? && k.adapter.value.supportsThreads && k.adapter.value.canSubscribe
               && exists i :: 0 <= i < |Known(k.ws)| && IsSubscriber(Known(k.ws)[i], t, k)
            then 1 else 0
  {
    var m := k.m.(thread := Collapse(k.adapter, k.m.thread));
    var ds := DecisionsOf(t, k);
    var x := ContextOf(k.g.value, k.adapter, k.m, k.now);
    OneDecisionEach(k.ws, t, k.g.value, m);
    forall i | 0 <= i < |ds|
      ensures WantsSubscription(ds[i], x) <==>
                IsSubscriber(Known(k.ws)[i], t, k) && x.threads && x.canSubscribe && x.thread.Some? && x.g.isGroup
    {
      EngagesIffMeant(ds[i].w, t, k.g.value, m.isMention, m.thread);
    }
    if GateOf(t, k).Open? { SubscribesOnce(AfterGate(t, k, o), ds, x, GateOf(t, k).c, o); }
  }

  /** The gate is only waited for if it is on and some agent would act. */
  lemma NoGateNoWait(t: Table, k: Call, o: Meanwhile, gate: seq<Event>)
    requires IsWired(k) && (!k.enabled || !WillAnyAgentAct(DecisionsOf(t, k)))
    ensures Route(t, k, o) == Route(t, k, o.(gate := gate))
  {
    FanOutIsLocal(t, DecisionsOf(t, k), ContextOf(k.g.value, k.adapter, k.m, k.now), GateOf(t, k).c, o,
                  o.(gate := gate));
  }

  /** What happens to the sessions table at one decision: the session is resolved for an agent that is passed the message
      and is not of the dispatcher, and then come the events of that delivery. */
  function EventsOfDecision(d: Decision, x: Context, c: Option<Classification>, id: string,
      after: seq<Event>): seq<Event> {
    if !Acts(d) then []
    else (if d.w.adk || c == Some(BiblioAdk) then [] else [Resolved(RequestFor(d.w, x), id, x.now)]) + after
  }

  function FanOutEvents(ds: seq<Decision>, x: Context, c: Option<Classification>, o: Meanwhile): seq<Event> {
    if ds == [] then []
    else
      var n := |ds| - 1;
      FanOutEvents(ds[..n], x, c, o) + EventsOfDecision(ds[n], x, c, IdAt(o, n), EventsAt(o, n))
  }

  lemma RunOfOne(t: Table, e: Event)
    ensures Run(t, [e]) == Step(t, e)
  {
    assert [e][0] == e && [e][1..] == [];
    assert Run(Step(t, e), []) == Step(t, e);
  }

  lemma DecisionIsARun(s: Tally, d: Decision, x: Context, c: Option<Classification>, id: string, after: seq<Event>)
    ensures FanOutOne(s, d, x, c, id, after).table == Run(s.table, EventsOfDecision(d, x, c, id, after))
  {
    var e := Resolved(RequestFor(d.w, x), id, x.now);
    RunOfOne(s.table, e);
    RunOfParts(s.table, [e], after);
    assert [] + after == after;
  }

  lemma {:induction false} FanOutIsARun(t: Table, ds: seq<Decision>, x: Context, c: Option<Classification>, o: Meanwhile)
    ensures FanOut(t, ds, x, c, o).table == Run(t, FanOutEvents(ds, x, c, o))
    decreases |ds|
  {
    if ds != [] {
      var n := |ds| - 1;
      FanOutIsARun(t, ds[..n], x, c, o);
      DecisionIsARun(FanOut(t, ds[..n], x, c, o), ds[n], x, c, IdAt(o, n), EventsAt(o, n));
      RunOfParts(t, FanOutEvents(ds[..n], x, c, o), EventsOfDecision(ds[n], x, c, IdAt(o, n), EventsAt(o, n)));
    }
  }

  /** The whole route acts on the sessions as its own resolutions, one for each agent that is passed the message, and
      whatever else happens at its awaits, in this order; nothing is lost or done twice. */
  lemma RouteIsARun(t: Table, k: Call, o: Meanwhile)
    requires IsWired(k)
    ensures Route(t, k, o).table ==
            Run(t, (if AsksGate(t, k) then o.gate else [])
                   + if GateOf(t, k).Blocked? then []
                     else FanOutEvents(DecisionsOf(t, k), ContextOf(k.g.value, k.adapter, k.m, k.now), GateOf(t, k).c, o))
  {
    var gate := if AsksGate(t, k) then o.gate else [];
    if GateOf(t, k).Blocked? {
      assert gate + [] == gate;
    } else {
      var x := ContextOf(k.g.value, k.adapter, k.m, k.now);
      FanOutIsARun(AfterGate(t, k, o), DecisionsOf(t, k), x, GateOf(t, k).c, o);
      RunOfParts(t, gate, FanOutEvents(DecisionsOf(t, k), x, GateOf(t, k).c, o));
    }
  }

  /** An agent-shared wiring makes no session while the agent has an active one, in whatever chat and thread. */
  lemma AgentSharedDelivery(t: Table, w: Wiring, x: Context, wake: bool, c: Option<Classification>, id: string)
    requires w.mode.AgentShared? && exists i :: 0 <= i < |t| && t[i].active && t[i].agent == w.agent
    ensures Deliver(t, w, x, wake, c, id).0 == t
    ensures var out := Deliver(t, w, x, wake, c, id).1;
            out.Written? || out.Denied? ==> IsNewest(t, out.session)
  {
    var newest := FindByAgent(t, w.agent);
    assert newest.Some?;
    AgentSharedMeetsNewest(t, w.agent, newest.value);
  }

  predicate Vanishes(d: Decision, c: Option<Classification>) {
    Acts(d) ==> Mismatch(c, d.w.adk) || (d.w.adk && !WillEngage(d))
  }

  /** Whether the message is taken by nobody and yet recorded nowhere. */
  predicate LostUnrecorded(r: Routed) {
    && r.record.None?
    && forall i :: 0 <= i < |r.outcomes| ==>
         r.outcomes[i].NotEngaged? || r.outcomes[i].ProviderMismatch? || r.outcomes[i].AdkDropped?
  }

  /** Exactly when a message to a wired chat is lost without a record: somebody acts, the gate lets the
      message through, and every acting agent is of the other provider or an ADK agent that only
      accumulates. */
  lemma LostUnrecordedIff(t: Table, k: Call, o: Meanwhile)
    requires IsWired(k)
    ensures var ds := DecisionsOf(t, k);
            LostUnrecorded(Route(t, k, o)) <==>
              && WillAnyAgentAct(ds) && GateOf(t, k).Open?
              && forall i :: 0 <= i < |ds| ==> Vanishes(ds[i], GateOf(t, k).c)
  {
    var r, ds := Route(t, k, o), DecisionsOf(t, k);
    DropIsRecordedIff(t, k, o);
    forall i | 0 <= i < |ds|
      ensures |r.outcomes| == |ds|
      ensures GateOf(t, k).Blocked? ==> r.outcomes[i] == Stopped
      ensures GateOf(t, k).Open? ==> OutcomeFits(ds[i], GateOf(t, k).c, r.outcomes[i])
    {
      RouteFits(t, k, o, i);
    }
  }

  // ---------------------------------------------------------------------------------------------
  // Mention-sticky threads
  // ---------------------------------------------------------------------------------------------

  /** Which resolutions leave a session that the sticky lookup finds for the same thread. */
  predicate Remembers(mode: Mode, thread: Option<string>, created: bool) {
    match mode
    case PerThread => thread != Some("")
    case Shared => !Truthy(thread)
    case AgentShared => created && !Truthy(thread)
  }

  /** After a message was resolved, exactly when the next one in the thread engages without a mention. */
  lemma StickyEngagesIff(t: Table, w: Wiring, x: Context, id: string)
    requires w.engage.MentionSticky? && Truthy(Some(x.g.id))
    ensures var r := Resolve(t, RequestFor(w, x), id, x.now);
            Engages(w, r.table, x.g, false, x.thread) <==>
              && x.g.isGroup
              && (FindForAgent(t, w.agent, x.g.id, x.thread).Some? || Remembers(EffectiveMode(w, x), x.thread, r.created))
  {
    var q := RequestFor(w, x);
    var r := Resolve(t, q, id, x.now);
    var later := FindForAgent(r.table, w.agent, x.g.id, x.thread);
    var earlier := FindForAgent(t, w.agent, x.g.id, x.thread);
    if earlier.Some? {
      assert earlier.value in r.table;
    }
    if r.created {
      assert r.table[|t|] == r.session;
    }
    if later.Some? && earlier.None? {
      assert later.value == r.session;
    }
  }

  lemma {:induction false} StaysFindable(t: Table, events: seq<Event>, r: Session, agent: string, mg: string,
      thread: Option<string>)
    requires r in t && Matches(r, agent, mg, thread) && NeverEnds(events, r.id)
    ensures FindForAgent(Run(t, events), agent, mg, thread).Some?
  {
    RowSurvives(t, events, r);
  }

  /** Once a message of a thread reached session resolution, a mention-sticky agent in a group chat with
      a registered adapter, not wired agent-shared, engages on every later message there, for as long as
      that session is neither closed nor deleted. */
  lemma StickyKeepsEngaging(t: Table, w: Wiring, g: Group, adapter: Adapter, m: Message, id: string, now: int,
      events: seq<Event>)
    requires w.engage.MentionSticky? && !w.mode.AgentShared? && g.isGroup && Truthy(Some(g.id))
    requires Collapse(Some(adapter), m.thread) != Some("")
    requires var r := Resolve(t, RequestFor(w, ContextOf(g, Some(adapter), m, now)), id, now);
             NeverEnds(events, r.session.id)
    ensures var x := ContextOf(g, Some(adapter), m, now);
            Engages(w, Run(Resolve(t, RequestFor(w, x), id, now).table, events), g, false, x.thread)
  {
    var x := ContextOf(g, Some(adapter), m, now);
    var r := Resolve(t, RequestFor(w, x), id, now);
    FoundSession(t, RequestFor(w, x), id, now);
    StaysFindable(r.table, events, r.session, w.agent, g.id, x.thread);
  }
}

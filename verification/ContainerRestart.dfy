/** Restarting every running container of an agent group. */
module ContainerRestart {
  import opened Options
  import opened ContainerRunner

  datatype SessionRow = SessionRow(id: SessionId, agentGroup: string, active: bool)

  /** The message a restart leaves for the next container of a session. */
  datatype WakeMessage = WakeMessage(session: SessionId, text: string, trigger: nat, onWake: nat)

  predicate IsTarget(row: SessionRow, agentGroup: string, h: Host) {
    row.agentGroup == agentGroup && row.active && row.id in h.active
  }

  function Targets(rows: seq<SessionRow>, agentGroup: string, h: Host): (ids: seq<SessionId>)
    ensures forall i :: 0 <= i < |ids| ==> ids[i] in h.active
  {
    if rows == [] then []
    else (if IsTarget(rows[0], agentGroup, h) then [rows[0].id] else []) + Targets(rows[1..], agentGroup, h)
  }

  predicate Distinct<T(==)>(xs: seq<T>) {
    forall i, j :: 0 <= i < j < |xs| ==> xs[i] != xs[j]
  }

  predicate DistinctRows(rows: seq<SessionRow>) {
    forall i, j :: 0 <= i < j < |rows| ==> rows[i].id != rows[j].id
  }

  lemma {:induction false} TargetsAreTheRunningSessions(rows: seq<SessionRow>, agentGroup: string, h: Host)
    ensures forall s :: s in Targets(rows, agentGroup, h) <==>
                        exists i :: 0 <= i < |rows| && rows[i].id == s && rows[i].agentGroup == agentGroup
                                    && rows[i].active && s in h.active
  {
    if rows != [] {
      TargetsAreTheRunningSessions(rows[1..], agentGroup, h);
      var rest := Targets(rows[1..], agentGroup, h);
      forall s | s in Targets(rows, agentGroup, h)
        ensures exists i :: 0 <= i < |rows| && rows[i].id == s && IsTarget(rows[i], agentGroup, h)
      {
        if s in rest {
          var i :| 0 <= i < |rows[1..]| && rows[1..][i].id == s && IsTarget(rows[1..][i], agentGroup, h);
          assert rows[i + 1].id == s;
        }
      }
      forall i | 0 <= i < |rows| && IsTarget(rows[i], agentGroup, h)
        ensures rows[i].id in Targets(rows, agentGroup, h)
      {
        if i > 0 {
          assert rows[1..][i - 1].id == rows[i].id;
        }
      }
    }
  }

  lemma {:induction false} TargetsAreDistinct(rows: seq<SessionRow>, agentGroup: string, h: Host)
    requires DistinctRows(rows)
    ensures Distinct(Targets(rows, agentGroup, h))
  {
    if rows != [] {
      TargetsAreDistinct(rows[1..], agentGroup, h);
      TargetsAreTheRunningSessions(rows[1..], agentGroup, h);
      var rest := Targets(rows[1..], agentGroup, h);
      assert rows[0].id !in rest;
      assert forall i :: 0 <= i < |rest| ==> rest[i] in rest;
    }
  }

  function KillAll(h: Host, ids: seq<SessionId>, restart: bool): Host
    decreases |ids|
  {
    if ids == [] then h else KillAll(KillStep(h, ids[0], restart), ids[1..], restart)
  }

  function MessagesFor(ids: seq<SessionId>, text: string): seq<WakeMessage> {
    seq(|ids|, i requires 0 <= i < |ids| => WakeMessage(ids[i], text, 1, 1))
  }

  ghost predicate KilledExactly(h: Host, h': Host, ids: seq<SessionId>, restart: bool) {
    && h'.active == h.active && h'.wakes == h.wakes && h'.next == h.next && h'.sessions == h.sessions
    && h'.containers.Keys == h.containers.Keys
    && forall c :: c in h.containers ==> h'.containers[c] == AfterKill(h, c, ids, restart)
  }

  ghost function AfterKill(h: Host, c: Handle, ids: seq<SessionId>, restart: bool): Container
    requires c in h.containers
  {
    var box := h.containers[c];
    if IsActive(h, c, box.session) && box.session in ids then
      box.(killed := true, callbacks := box.callbacks + if restart then [RestartWake] else [])
    else box
  }

  predicate EntriesKnown(h: Host) {
    forall s :: s in h.active ==> h.active[s] in h.containers && h.containers[h.active[s]].session == s
  }

  lemma AfterOneKill(h: Host, c: Handle, s: SessionId, rest: seq<SessionId>, restart: bool)
    requires EntriesKnown(h) && c in h.containers && s in h.active && s !in rest
    ensures AfterKill(KillStep(h, s, restart), c, rest, restart) == AfterKill(h, c, [s] + rest, restart)
  {
    var box := h.containers[c];
    assert box.session in [s] + rest <==> box.session == s || box.session in rest;
    if c != h.active[s] {
      assert KillStep(h, s, restart).containers[c] == box;
    }
  }

  /** Each target's own container is marked once and gets at most one respawn; no other container,
      map entry or in-flight wake changes. */
  lemma {:induction false} KillAllTouchesTargetsOnly(h: Host, ids: seq<SessionId>, restart: bool)
    requires Distinct(ids)
    requires EntriesKnown(h)
    requires forall i :: 0 <= i < |ids| ==> ids[i] in h.active
    ensures KilledExactly(h, KillAll(h, ids, restart), ids, restart)
    decreases |ids|
  {
    if ids != [] {
      var k := KillStep(h, ids[0], restart);
      var rest := ids[1..];
      assert forall i :: 0 <= i < |rest| ==> rest[i] == ids[i + 1];
      KillAllTouchesTargetsOnly(k, rest, restart);
      forall c | c in h.containers
        ensures AfterKill(k, c, rest, restart) == AfterKill(h, c, ids, restart)
      {
        AfterOneKill(h, c, ids[0], rest, restart);
        assert ids == [ids[0]] + rest;
      }
    } else {
      assert forall c :: c in h.containers ==> AfterKill(h, c, ids, restart) == h.containers[c];
    }
  }

  lemma KilledTargetAwaitsRestart(h0: Host, h: Host, ids: seq<SessionId>, s: SessionId)
    requires s in h0.active && h0.active[s] in h0.containers && Placed(h0, h0.active[s])
    requires h0.containers[h0.active[s]].session == s && s in ids
    requires KilledExactly(h0, h, ids, true)
    ensures AwaitsRestart(h, h0.active[s], s)
  {
    var c := h0.active[s];
    assert IsActive(h0, c, s);
    assert h.containers[c] == AfterKill(h0, c, ids, true);
    assert h.containers[c].callbacks == h0.containers[c].callbacks + [RestartWake];
  }

  lemma {:induction false} KillAllKeepsInv(h: Host, ids: seq<SessionId>, restart: bool)
    requires Inv(h)
    ensures Inv(KillAll(h, ids, restart))
    decreases |ids|
  {
    if ids != [] {
      KillKeepsInv(h, ids[0], restart);
      KillAllKeepsInv(KillStep(h, ids[0], restart), ids[1..], restart);
    }
  }

  /** After a restart with a wake message, whatever happens before the exit of a target is noticed: the
      target is spawned again exactly when its session row still exists at that moment. */
  lemma RestartedSessionComesBackIffItExists(before: seq<Action>, ids: seq<SessionId>, s: SessionId, between: seq<Action>)
    requires Distinct(ids) && s in ids
    requires forall i :: 0 <= i < |ids| ==> ids[i] in Run(INIT, before).active
    requires Unnoticed(between, Run(INIT, before).active[s])
    ensures var c := Run(INIT, before).active[s];
            var h := Run(KillAll(Run(INIT, before), ids, true), between);
            var h' := DrainCallbacks(ProcessExitsStep(h, c), c);
            && IsActive(h, c, s) && s !in h.wakes && s !in h'.active
            && (h'.wakes == h.wakes[s := Preparing] <==> s in h.sessions)
            && (h'.wakes == h.wakes <==> s !in h.sessions)
  {
    var h0 := Run(INIT, before);
    RunKeepsInv(INIT, before);
    var c := h0.active[s];
    assert Placed(h0, c);
    KillAllTouchesTargetsOnly(h0, ids, true);
    var killed := KillAll(h0, ids, true);
    KilledTargetAwaitsRestart(h0, killed, ids, s);
    KillAllKeepsInv(h0, ids, true);
    AwaitingOutlastsRun(killed, between, c, s);
    NoticedRestart(Run(killed, between), c, s);
  }

  lemma KillKeepsEntries(h: Host, s: SessionId, restart: bool)
    requires EntriesKnown(h)
    ensures EntriesKnown(KillStep(h, s, restart))
  {
  }

  lemma KillAllUnfold(h: Host, ids: seq<SessionId>, i: nat, restart: bool)
    requires i < |ids|
    ensures KillAll(h, ids[i..], restart) == KillAll(KillStep(h, ids[i], restart), ids[i + 1..], restart)
  {
    assert ids[i..][1..] == ids[i + 1..];
  }

  /** An empty wake message is none. */
  function InboxFor(ids: seq<SessionId>, wakeMessage: Option<string>): seq<WakeMessage> {
    if Truthy(wakeMessage) then MessagesFor(ids, wakeMessage.value) else []
  }

  /** Each target gets one message with that text, which triggers its next container on waking; without a text, or with
      an empty one, there is none. */
  lemma OneMessageEach(ids: seq<SessionId>, text: string)
    ensures InboxFor(ids, None) == [] && InboxFor(ids, Some("")) == []
    ensures text != "" ==>
              && |InboxFor(ids, Some(text))| == |ids|
              && forall i :: 0 <= i < |ids| ==> InboxFor(ids, Some(text))[i] == WakeMessage(ids[i], text, 1, 1)
  {
  }

  lemma InboxForOneMore(ids: seq<SessionId>, i: nat, wakeMessage: Option<string>)
    requires i < |ids|
    ensures InboxFor(ids[..i + 1], wakeMessage) == InboxFor(ids[..i], wakeMessage) + InboxFor([ids[i]], wakeMessage)
  {
  }

  /** The first `i` of them have been killed and left their messages. */
  predicate AreRestarted(h0: Host, h: Host, inbox0: seq<WakeMessage>, inbox: seq<WakeMessage>, ids: seq<SessionId>,
      i: nat, wakeMessage: Option<string>) {
    && i <= |ids| && KillAll(h, ids[i..], Truthy(wakeMessage)) == KillAll(h0, ids, Truthy(wakeMessage))
    && inbox == inbox0 + InboxFor(ids[..i], wakeMessage)
  }

  lemma OneMoreRestarted(h0: Host, h: Host, inbox0: seq<WakeMessage>, inbox: seq<WakeMessage>, ids: seq<SessionId>,
      i: nat, wakeMessage: Option<string>)
    requires AreRestarted(h0, h, inbox0, inbox, ids, i, wakeMessage) && i < |ids|
    ensures AreRestarted(h0, KillStep(h, ids[i], Truthy(wakeMessage)), inbox0, inbox + InboxFor([ids[i]], wakeMessage), ids,
                         i + 1, wakeMessage)
  {
    KillAllUnfold(h, ids, i, Truthy(wakeMessage));
    InboxForOneMore(ids, i, wakeMessage);
  }

  lemma AllRestarted(h0: Host, h: Host, inbox0: seq<WakeMessage>, inbox: seq<WakeMessage>, ids: seq<SessionId>,
      wakeMessage: Option<string>)
    requires AreRestarted(h0, h, inbox0, inbox, ids, |ids|, wakeMessage)
    ensures h == KillAll(h0, ids, Truthy(wakeMessage)) && inbox == inbox0 + InboxFor(ids, wakeMessage)
  {
    assert ids[|ids|..] == [] && ids[..|ids|] == ids;
  }

  lemma TargetsStep(rows: seq<SessionRow>, j: nat, agentGroup: string, h: Host)
    requires j < |rows|
    ensures Targets(rows[j..], agentGroup, h)
         == (if IsTarget(rows[j], agentGroup, h) then [rows[j].id] else []) + Targets(rows[j + 1..], agentGroup, h)
  {
    assert rows[j..][1..] == rows[j + 1..];
  }

  class Restarter {
    const runner: Runner
    var rows: seq<SessionRow>
    var inbox: seq<WakeMessage>

    constructor (runner: Runner, rows: seq<SessionRow>)
      ensures this.runner == runner && this.rows == rows && inbox == []
    {
      this.runner, this.rows, this.inbox := runner, rows, [];
    }

    /** The sessions to restart are fixed before the first kill. */
    method RunningSessions(agentGroup: string) returns (ids: seq<SessionId>)
      ensures ids == Targets(rows, agentGroup, runner.View())
    {
      ids := [];
      ghost var h := runner.View();
      for j := 0 to |rows|
        invariant ids + Targets(rows[j..], agentGroup, h) == Targets(rows, agentGroup, h)
      {
        TargetsStep(rows, j, agentGroup, h);
        if rows[j].agentGroup == agentGroup && rows[j].active && rows[j].id in runner.activeContainers {
          ids := ids + [rows[j].id];
        }
      }
    }

    method RestartSession(s: SessionId, wakeMessage: Option<string>)
      requires EntriesKnown(runner.View())
      modifies this`inbox, runner
      ensures runner.View() == KillStep(old(runner.View()), s, Truthy(wakeMessage)) && EntriesKnown(runner.View())
      ensures inbox == old(inbox) + InboxFor([s], wakeMessage)
    {
      if Truthy(wakeMessage) {
        inbox := inbox + [WakeMessage(s, wakeMessage.value, 1, 1)];
      }
      KillKeepsEntries(runner.View(), s, Truthy(wakeMessage));
      runner.KillContainer(s, Truthy(wakeMessage));
    }

    method RestartAgentGroupContainers(agentGroup: string, wakeMessage: Option<string>) returns (count: nat)
      requires EntriesKnown(runner.View())
      modifies this`inbox, runner
      ensures var ids := Targets(rows, agentGroup, old(runner.View()));
              && count == |ids|
              && runner.View() == KillAll(old(runner.View()), ids, Truthy(wakeMessage))
              && inbox == old(inbox) + InboxFor(ids, wakeMessage)
    {
      ghost var h0 := runner.View();
      var ids := RunningSessions(agentGroup);
      for i := 0 to |ids|
        invariant EntriesKnown(runner.View())
        invariant AreRestarted(h0, runner.View(), old(inbox), inbox, ids, i, wakeMessage)
      {
        ghost var h, messages := runner.View(), inbox;
        RestartSession(ids[i], wakeMessage);
        OneMoreRestarted(h0, h, old(inbox), messages, ids, i, wakeMessage);
      }
      AllRestarted(h0, runner.View(), old(inbox), inbox, ids, wakeMessage);
      return |ids|;
    }
  }
}

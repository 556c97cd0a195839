/** Waking, spawning, killing and restarting agent containers.

    `wakeContainer` and `spawnContainer` are cut where they wait for something outside the process.
    One `Action` is one such block, or one thing that happens by itself: the runtime's, or a session
    row made or deleted. A run is any sequence of actions, so it covers every interleaving of events.

    From the moment `runtime.spawn` is answered until the wake promise is deleted, only continuations
    of settled promises run. No exit can be noticed in between, and a wake, a kill or a change of the
    session rows there has the effect it has right before or after. So this is one block. */
module ContainerRunner {
  import opened Options
  import opened Sets

  type SessionId = string

  /** Containers are numbered in the order in which the runtime starts them. */
  type Handle = nat

  /** How far the promise kept in `wakePromises` has come. */
  datatype Stage =
    | Preparing                 // before the runtime accepted the spawn
    | Launched(handle: Handle)  // container started, code after `await runtime.spawn` still to run

  /** A reaction registered on a handle's exit promise. Reactions run in registration order. */
  datatype Callback = ExitHandler | RestartWake

  datatype Container = Container(session: SessionId, exited: bool, killed: bool, callbacks: seq<Callback>)

  /** `sessions` are the ids in the sessions table. */
  datatype Host = Host(
    active: map<SessionId, Handle>,
    wakes: map<SessionId, Stage>,
    containers: map<Handle, Container>,
    next: Handle,
    sessions: set<SessionId>)

  const INIT := Host(map[], map[], map[], 0, {})

  datatype Action =
    | Wake(session: SessionId)
    | Launch(session: SessionId)
    | SpawnFails(session: SessionId)
    | Register(session: SessionId)
    | ProcessExits(handle: Handle)
    | RunCallback(handle: Handle)
    | Kill(session: SessionId, restart: bool)
    | CreateSession(session: SessionId)
    | DeleteSession(session: SessionId)

  // ---------------------------------------------------------------------------------------------
  // One block each. An action that is not enabled leaves the host as it is.
  // ---------------------------------------------------------------------------------------------

  function WakeStep(h: Host, s: SessionId): Host {
    if s in h.active || s in h.wakes then h else h.(wakes := h.wakes[s := Preparing])
  }

  function LaunchStep(h: Host, s: SessionId): Host {
    if s in h.wakes && h.wakes[s].Preparing? then
      h.(containers := h.containers[h.next := Container(s, false, false, [])],
         wakes := h.wakes[s := Launched(h.next)],
         next := h.next + 1)
    else h
  }

  /** `spawnContainer` throws, and the wake promise is deleted. */
  function SpawnFailsStep(h: Host, s: SessionId): Host {
    if s in h.wakes && h.wakes[s].Preparing? then h.(wakes := h.wakes - {s}) else h
  }

  /** The code after `await runtime.spawn`, and the deletion of the wake promise. */
  function RegisterStep(h: Host, s: SessionId): Host {
    if s in h.wakes && h.wakes[s].Launched? && h.wakes[s].handle in h.containers then
      var c := h.wakes[s].handle;
      h.(active := h.active[s := c],
         containers := h.containers[c := h.containers[c].(callbacks := h.containers[c].callbacks + [ExitHandler])],
         wakes := h.wakes - {s})
    else h
  }

  function ProcessExitsStep(h: Host, c: Handle): Host {
    if c in h.containers then h.(containers := h.containers[c := h.containers[c].(exited := true)]) else h
  }

  predicate CallbackReady(h: Host, c: Handle) {
    c in h.containers && h.containers[c].exited && h.containers[c].callbacks != []
  }

  function RunCallbackStep(h: Host, c: Handle): Host {
    if !CallbackReady(h, c) then h
    else
      var box := h.containers[c];
      var popped := h.(containers := h.containers[c := box.(callbacks := box.callbacks[1..])]);
      match box.callbacks[0]
      case ExitHandler => popped.(active := popped.active - {box.session})
      case RestartWake => if box.session in h.sessions then WakeStep(popped, box.session) else popped
  }

  function KillStep(h: Host, s: SessionId, restart: bool): Host {
    if s in h.active && h.active[s] in h.containers then
      var c := h.active[s];
      var box := h.containers[c];
      h.(containers := h.containers[c := box.(killed := true,
                                              callbacks := box.callbacks + if restart then [RestartWake] else [])])
    else h
  }

  function Step(h: Host, a: Action): Host {
    match a
    case Wake(s) => WakeStep(h, s)
    case Launch(s) => LaunchStep(h, s)
    case SpawnFails(s) => SpawnFailsStep(h, s)
    case Register(s) => RegisterStep(h, s)
    case ProcessExits(c) => ProcessExitsStep(h, c)
    case RunCallback(c) => RunCallbackStep(h, c)
    case Kill(s, restart) => KillStep(h, s, restart)
    case CreateSession(s) => h.(sessions := h.sessions + {s})
    case DeleteSession(s) => h.(sessions := h.sessions - {s})
  }

  function Run(h: Host, actions: seq<Action>): Host
    decreases |actions|
  {
    if actions == [] then h else Run(Step(h, actions[0]), actions[1..])
  }

  // ---------------------------------------------------------------------------------------------
  // The invariant
  // ---------------------------------------------------------------------------------------------

  predicate OnlyRestarts(callbacks: seq<Callback>) {
    forall i :: 0 <= i < |callbacks| ==> callbacks[i].RestartWake?
  }

  predicate IsLaunching(h: Host, c: Handle, s: SessionId) {
    s in h.wakes && h.wakes[s] == Launched(c)
  }

  predicate IsActive(h: Host, c: Handle, s: SessionId) {
    s in h.active && h.active[s] == c
  }

  /** Every container is in exactly one of three places: held by the wake that is launching it,
      held by `activeContainers` with its exit handler first in line, or gone from both. */
  ghost predicate Placed(h: Host, c: Handle)
    requires c in h.containers
  {
    var box := h.containers[c];
    var s := box.session;
    && c < h.next
    && (IsLaunching(h, c, s) ==> box.callbacks == [] && s !in h.active)
    && (IsActive(h, c, s) ==> box.callbacks != [] && box.callbacks[0].ExitHandler? && OnlyRestarts(box.callbacks[1..]))
    && (!IsLaunching(h, c, s) && !IsActive(h, c, s) ==>
          && box.exited && OnlyRestarts(box.callbacks)
          && (s in h.active ==> c < h.active[s])
          && (s in h.wakes && h.wakes[s].Launched? ==> c < h.wakes[s].handle))
  }

  ghost predicate Inv(h: Host) {
    && (forall c :: c in h.containers ==> Placed(h, c))
    && (forall s :: s in h.active ==> h.active[s] in h.containers && h.containers[h.active[s]].session == s)
    && (forall s :: s in h.wakes && h.wakes[s].Launched? ==>
          h.wakes[s].handle in h.containers && h.containers[h.wakes[s].handle].session == s)
    && (forall s :: s in h.wakes ==> s !in h.active)
  }

  lemma WakeKeepsInv(h: Host, s: SessionId)
    requires Inv(h)
    ensures Inv(WakeStep(h, s))
  {
    var h' := WakeStep(h, s);
    forall c | c in h'.containers
      ensures Placed(h', c)
    {
      assert Placed(h, c);
    }
  }

  lemma LaunchKeepsInv(h: Host, s: SessionId)
    requires Inv(h)
    ensures Inv(LaunchStep(h, s))
  {
    var h' := LaunchStep(h, s);
    forall c | c in h'.containers
      ensures Placed(h', c)
    {
      if c in h.containers {
        assert Placed(h, c);
      }
    }
  }

  lemma SpawnFailsKeepsInv(h: Host, s: SessionId)
    requires Inv(h)
    ensures Inv(SpawnFailsStep(h, s))
  {
    forall c | c in h.containers
      ensures Placed(SpawnFailsStep(h, s), c)
    {
      assert Placed(h, c);
    }
  }

  lemma RegisterKeepsInv(h: Host, s: SessionId)
    requires Inv(h)
    ensures Inv(RegisterStep(h, s))
  {
    var h' := RegisterStep(h, s);
    forall c | c in h'.containers
      ensures Placed(h', c)
    {
      assert Placed(h, c);
    }
  }

  lemma ProcessExitsKeepsInv(h: Host, c: Handle)
    requires Inv(h)
    ensures Inv(ProcessExitsStep(h, c))
  {
    var h' := ProcessExitsStep(h, c);
    forall d | d in h'.containers
      ensures Placed(h', d)
    {
      assert Placed(h, d);
    }
  }

  lemma KillKeepsInv(h: Host, s: SessionId, restart: bool)
    requires Inv(h)
    ensures Inv(KillStep(h, s, restart))
  {
    var h' := KillStep(h, s, restart);
    forall c | c in h'.containers
      ensures Placed(h', c)
    {
      assert Placed(h, c);
    }
  }

  lemma ExitHandlerKeepsInv(h: Host, c: Handle)
    requires Inv(h) && CallbackReady(h, c) && h.containers[c].callbacks[0].ExitHandler?
    ensures Inv(RunCallbackStep(h, c))
  {
    var h' := RunCallbackStep(h, c);
    assert Placed(h, c);
    assert IsActive(h, c, h.containers[c].session);
    forall d | d in h'.containers
      ensures Placed(h', d)
    {
      assert Placed(h, d);
    }
  }

  lemma PoppedWakeKeepsInv(h: Host, c: Handle)
    requires Inv(h) && CallbackReady(h, c) && !h.containers[c].callbacks[0].ExitHandler?
    ensures var box := h.containers[c];
            Inv(h.(containers := h.containers[c := box.(callbacks := box.callbacks[1..])]))
  {
    var box := h.containers[c];
    var popped := h.(containers := h.containers[c := box.(callbacks := box.callbacks[1..])]);
    assert Placed(h, c);
    assert !IsActive(h, c, box.session) && !IsLaunching(h, c, box.session);
    forall d | d in popped.containers
      ensures Placed(popped, d)
    {
      assert Placed(h, d);
    }
  }

  lemma RunCallbackKeepsInv(h: Host, c: Handle)
    requires Inv(h)
    ensures Inv(RunCallbackStep(h, c))
  {
    if CallbackReady(h, c) {
      var box := h.containers[c];
      if box.callbacks[0].ExitHandler? {
        ExitHandlerKeepsInv(h, c);
      } else {
        PoppedWakeKeepsInv(h, c);
        WakeKeepsInv(h.(containers := h.containers[c := box.(callbacks := box.callbacks[1..])]), box.session);
      }
    }
  }

  lemma StepKeepsInv(h: Host, a: Action)
    requires Inv(h)
    ensures Inv(Step(h, a))
  {
    match a
    case Wake(s) => WakeKeepsInv(h, s);
    case Launch(s) => LaunchKeepsInv(h, s);
    case SpawnFails(s) => SpawnFailsKeepsInv(h, s);
    case Register(s) => RegisterKeepsInv(h, s);
    case ProcessExits(c) => ProcessExitsKeepsInv(h, c);
    case RunCallback(c) => RunCallbackKeepsInv(h, c);
    case Kill(s, restart) => KillKeepsInv(h, s, restart);
    case CreateSession(s) => SessionRowsDoNotMatter(h, Step(h, a));
    case DeleteSession(s) => SessionRowsDoNotMatter(h, Step(h, a));
  }

  lemma SessionRowsDoNotMatter(h: Host, h': Host)
    requires Inv(h) && h' == h.(sessions := h'.sessions)
    ensures Inv(h')
  {
    forall c | c in h'.containers
      ensures Placed(h', c)
    {
      assert Placed(h, c);
    }
  }

  lemma {:induction false} RunKeepsInv(h: Host, actions: seq<Action>)
    requires Inv(h)
    ensures Inv(Run(h, actions))
    decreases |actions|
  {
    if actions != [] {
      StepKeepsInv(h, actions[0]);
      RunKeepsInv(Step(h, actions[0]), actions[1..]);
    }
  }

  // ---------------------------------------------------------------------------------------------
  // What holds in every run
  // ---------------------------------------------------------------------------------------------

  function Live(h: Host, s: SessionId): set<Handle> {
    set c | c in h.containers && h.containers[c].session == s && !h.containers[c].exited
  }

  /** Containers alive for the session, plus a spawn that has not produced its container yet. */
  function Occupancy(h: Host, s: SessionId): nat {
    |Live(h, s)| + if s in h.wakes && h.wakes[s].Preparing? then 1 else 0
  }

  /** No interleaving gives one session two containers, or a container and a second spawn. */
  lemma AtMostOneContainer(actions: seq<Action>, s: SessionId)
    ensures Occupancy(Run(INIT, actions), s) <= 1
  {
    RunKeepsInv(INIT, actions);
    var h := Run(INIT, actions);
    forall c | c in Live(h, s)
      ensures IsLaunching(h, c, s) || IsActive(h, c, s)
    {
      assert Placed(h, c);
    }
    forall c, d | c in Live(h, s) && d in Live(h, s)
      ensures c == d
    {
      assert Placed(h, c) && Placed(h, d);
    }
    if Live(h, s) != {} {
      var c := Pick(Live(h, s));
      assert Live(h, s) == {c};
    }
  }

  /** When a spawn reaches the runtime, every earlier container of the session has exited and its
      exit handler has run. */
  lemma LaunchFindsSessionFree(actions: seq<Action>, s: SessionId, c: Handle)
    requires var h := Run(INIT, actions);
             && s in h.wakes && h.wakes[s].Preparing?
             && c in h.containers && h.containers[c].session == s
    ensures var h := Run(INIT, actions);
            s !in h.active && h.containers[c].exited && ExitHandler !in h.containers[c].callbacks
  {
    RunKeepsInv(INIT, actions);
    assert Placed(Run(INIT, actions), c);
  }

  /** An exit handler removes the entry of its own handle, and nothing else. */
  lemma ExitHandlerRemovesOwnEntry(actions: seq<Action>, c: Handle)
    requires CallbackReady(Run(INIT, actions), c)
    requires Run(INIT, actions).containers[c].callbacks[0].ExitHandler?
    ensures var h := Run(INIT, actions);
            var s := h.containers[c].session;
            && IsActive(h, c, s)
            && RunCallbackStep(h, c).active == h.active - {s}
            && RunCallbackStep(h, c).wakes == h.wakes
  {
    RunKeepsInv(INIT, actions);
    assert Placed(Run(INIT, actions), c);
  }

  /** The session has a container, or a wake in flight, younger than `c`. */
  predicate ComesBack(h: Host, s: SessionId, c: Handle) {
    || (s in h.active && h.active[s] > c)
    || (s in h.wakes && (h.wakes[s].Launched? ==> h.wakes[s].handle > c))
  }

  /** When a restart's wake runs, the killed handle is gone from `activeContainers`, so that it is never
      taken for running: if the session row still exists, the session comes back, by this wake or by a
      younger one, and if not, the wake does nothing. */
  lemma RestartWakeIsNeverSwallowed(actions: seq<Action>, c: Handle)
    requires CallbackReady(Run(INIT, actions), c)
    requires Run(INIT, actions).containers[c].callbacks[0].RestartWake?
    ensures var h := Run(INIT, actions);
            var s := h.containers[c].session;
            var h' := RunCallbackStep(h, c);
            && !IsActive(h, c, s) && !IsLaunching(h, c, s)
            && (s in h.sessions ==> ComesBack(h', s, c))
            && (s in h.sessions && !ComesBack(h, s, c) ==> h'.wakes == h.wakes[s := Preparing])
            && (s !in h.sessions || ComesBack(h, s, c) ==> h'.active == h.active && h'.wakes == h.wakes)
  {
    RunKeepsInv(INIT, actions);
    assert Placed(Run(INIT, actions), c);
  }

  /** The reactions registered before the process exits run back to back. */
  function DrainCallbacks(h: Host, c: Handle): Host
    decreases if c in h.containers then |h.containers[c].callbacks| else 0
  {
    if CallbackReady(h, c) then DrainCallbacks(RunCallbackStep(h, c), c) else h
  }

  lemma {:induction false} DrainRestarts(h: Host, c: Handle)
    requires c in h.containers && h.containers[c].exited
    requires OnlyRestarts(h.containers[c].callbacks)
    ensures var s := h.containers[c].session;
            var h' := DrainCallbacks(h, c);
            && h'.active == h.active
            && h'.wakes == if h.containers[c].callbacks == [] || s in h.active || s in h.wakes || s !in h.sessions
                           then h.wakes else h.wakes[s := Preparing]
    decreases |h.containers[c].callbacks|
  {
    if h.containers[c].callbacks != [] {
      DrainRestarts(RunCallbackStep(h, c), c);
    }
  }

  /** Draining an exited container that is still recorded: its entry goes, and the restart that was
      queued behind the exit handler starts a spawn if the session row is there. */
  lemma DrainActiveRestart(h: Host, s: SessionId)
    requires s in h.active && h.active[s] in h.containers && s !in h.wakes
    requires var box := h.containers[h.active[s]];
             && box.session == s && box.exited && |box.callbacks| > 1
             && box.callbacks[0].ExitHandler? && OnlyRestarts(box.callbacks[1..])
    ensures var h' := DrainCallbacks(h, h.active[s]);
            && h'.active == h.active - {s}
            && h'.wakes == if s in h.sessions then h.wakes[s := Preparing] else h.wakes
  {
    DrainRestarts(RunCallbackStep(h, h.active[s]), h.active[s]);
  }

  /** No reaction of `c` runs. */
  predicate Unnoticed(actions: seq<Action>, c: Handle) {
    forall i :: 0 <= i < |actions| ==> actions[i] != RunCallback(c)
  }

  /** `c` is the session's container, with a restart queued behind its exit handler. */
  predicate AwaitsRestart(h: Host, c: Handle, s: SessionId) {
    IsActive(h, c, s) && c in h.containers && h.containers[c].session == s && |h.containers[c].callbacks| > 1
  }

  lemma AwaitingOutlastsStep(h: Host, a: Action, c: Handle, s: SessionId)
    requires Inv(h) && AwaitsRestart(h, c, s) && a != RunCallback(c)
    ensures AwaitsRestart(Step(h, a), c, s)
  {
    assert Placed(h, c);
    if a.RunCallback? && CallbackReady(h, a.handle) {
      assert Placed(h, a.handle);
    }
  }

  /** Whatever happens before the exit is noticed, the entry and the queued restart stay. */
  lemma {:induction false} AwaitingOutlastsRun(h: Host, actions: seq<Action>, c: Handle, s: SessionId)
    requires Inv(h) && AwaitsRestart(h, c, s) && Unnoticed(actions, c)
    ensures Inv(Run(h, actions)) && AwaitsRestart(Run(h, actions), c, s)
    decreases |actions|
  {
    if actions != [] {
      assert actions[0] != RunCallback(c);
      AwaitingOutlastsStep(h, actions[0], c, s);
      StepKeepsInv(h, actions[0]);
      assert Unnoticed(actions[1..], c) by {
        assert forall i :: 0 <= i < |actions[1..]| ==> actions[1..][i] == actions[i + 1];
      }
      AwaitingOutlastsRun(Step(h, actions[0]), actions[1..], c, s);
    }
  }

  lemma NoticedRestart(h: Host, c: Handle, s: SessionId)
    requires Inv(h) && AwaitsRestart(h, c, s)
    ensures var h' := DrainCallbacks(ProcessExitsStep(h, c), c);
            && s !in h.wakes && h'.active == h.active - {s}
            && h'.wakes == if s in h.sessions then h.wakes[s := Preparing] else h.wakes
  {
    assert Placed(h, c);
    DrainActiveRestart(ProcessExitsStep(h, c), s);
  }

  /** A container is killed for a restart, anything at all happens, and then its exit is noticed: the
      session is spawned again exactly when its row exists at that moment. */
  lemma RestartRespawnsIffSessionExists(before: seq<Action>, s: SessionId, between: seq<Action>)
    requires s in Run(INIT, before).active && Unnoticed(between, Run(INIT, before).active[s])
    ensures var c := Run(INIT, before).active[s];
            var h := Run(KillStep(Run(INIT, before), s, true), between);
            var h' := DrainCallbacks(ProcessExitsStep(h, c), c);
            && IsActive(h, c, s) && s !in h.wakes && s !in h'.active
            && (h'.wakes == h.wakes[s := Preparing] <==> s in h.sessions)
            && (h'.wakes == h.wakes <==> s !in h.sessions)
  {
    RunKeepsInv(INIT, before);
    var h0 := Run(INIT, before);
    var c := h0.active[s];
    assert Placed(h0, c);
    KillKeepsInv(h0, s, true);
    AwaitingOutlastsRun(KillStep(h0, s, true), between, c, s);
    NoticedRestart(Run(KillStep(h0, s, true), between), c, s);
  }

  // ---------------------------------------------------------------------------------------------
  // One container's way through the host
  // ---------------------------------------------------------------------------------------------

  predicate IsIdle(h: Host, s: SessionId) {
    s !in h.active && s !in h.wakes
  }

  /** A failed spawn takes the wake back and nothing else, so that the next wake tries again. */
  lemma FailedSpawnIsRetried(actions: seq<Action>, s: SessionId)
    requires var h := Run(INIT, actions); s in h.wakes && h.wakes[s].Preparing?
    ensures var h := Run(INIT, actions);
            var h' := Step(h, SpawnFails(s));
            && IsIdle(h', s)
            && h'.active == h.active && h'.containers == h.containers && h'.sessions == h.sessions && h'.next == h.next
            && (forall x :: x != s ==> (x in h'.wakes <==> x in h.wakes) && (x in h.wakes ==> h'.wakes[x] == h.wakes[x]))
            && Step(h', Wake(s)) == h
  {
    RunKeepsInv(INIT, actions);
    var h := Run(INIT, actions);
    assert Step(Step(h, SpawnFails(s)), Wake(s)).wakes == h.wakes;
  }

  /** In any host, an idle session is woken into a live container of its own, and a kill without a restart makes it
      idle again; other sessions notice neither. */
  lemma StartAndStop(h: Host, s: SessionId)
    requires IsIdle(h, s)
    ensures var up := Run(h, [Wake(s), Launch(s), Register(s)]);
            var down := Run(up, [Kill(s, false), ProcessExits(h.next), RunCallback(h.next)]);
            && up == h.(active := h.active[s := h.next], next := h.next + 1,
                        containers := h.containers[h.next := Container(s, false, false, [ExitHandler])])
            && down == h.(next := h.next + 1, containers := h.containers[h.next := Container(s, true, true, [])])
  {
    var up := Run(h, [Wake(s), Launch(s), Register(s)]);
    RunThree(h, Wake(s), Launch(s), Register(s));
    Started(h, s);
    RunThree(up, Kill(s, false), ProcessExits(h.next), RunCallback(h.next));
    Stopped(h, s);
  }

  lemma RunThree(h: Host, a: Action, b: Action, c: Action)
    ensures Run(h, [a, b, c]) == Step(Step(Step(h, a), b), c)
  {
    assert [a, b, c] == [a] + [b, c];
    RunOneMore(h, a, [b, c]);
    RunTwo(Step(h, a), b, c);
  }

  function WithContainer(h: Host, s: SessionId): Host {
    h.(active := h.active[s := h.next], next := h.next + 1,
       containers := h.containers[h.next := Container(s, false, false, [ExitHandler])])
  }

  lemma Started(h: Host, s: SessionId)
    requires IsIdle(h, s)
    ensures Step(Step(Step(h, Wake(s)), Launch(s)), Register(s)) == WithContainer(h, s)
  {
    var launched := Step(Step(h, Wake(s)), Launch(s));
    assert launched.wakes[s] == Launched(h.next) && launched.containers[h.next] == Container(s, false, false, []);
    assert launched.wakes - {s} == h.wakes && [] + [ExitHandler] == [ExitHandler];
  }

  lemma Stopped(h: Host, s: SessionId)
    requires s !in h.active
    ensures Step(Step(Step(WithContainer(h, s), Kill(s, false)), ProcessExits(h.next)), RunCallback(h.next))
         == h.(next := h.next + 1, containers := h.containers[h.next := Container(s, true, true, [])])
  {
    var exited := Step(Step(WithContainer(h, s), Kill(s, false)), ProcessExits(h.next));
    assert [ExitHandler] + [] == [ExitHandler] && [ExitHandler][1..] == [];
    assert exited.containers[h.next] == Container(s, true, true, [ExitHandler]);
    assert h.active[s := h.next] - {s} == h.active;
  }

  const STARTED_SESSION: seq<Action> :=
    [CreateSession("s"), Wake("s"), Launch("s"), Register("s")]

  const DELETED_MEANWHILE: seq<Action> := [Kill("s", false), DeleteSession("s")]

  lemma RunOneMore(h: Host, a: Action, rest: seq<Action>)
    ensures Run(h, [a] + rest) == Run(Step(h, a), rest)
  {
    assert ([a] + rest)[1..] == rest;
  }

  lemma RunTwo(h: Host, a: Action, b: Action)
    ensures Run(h, [a, b]) == Step(Step(h, a), b)
  {
    assert [a, b] == [a] + ([b] + []);
    RunOneMore(h, a, [b] + []);
    RunOneMore(Step(h, a), b, []);
  }

  lemma RunFour(h: Host, a: Action, b: Action, c: Action, d: Action)
    ensures Run(h, [a, b, c, d]) == Step(Step(Step(Step(h, a), b), c), d)
  {
    assert [a, b, c, d] == [a] + ([b] + [c, d]);
    RunOneMore(h, a, [b] + [c, d]);
    RunOneMore(Step(h, a), b, [c, d]);
    RunTwo(Step(Step(h, a), b), c, d);
  }

  lemma StartedSessionRuns()
    ensures Run(INIT, STARTED_SESSION)
         == Host(map["s" := 0], map[], map[0 := Container("s", false, false, [ExitHandler])], 1, {"s"})
  {
    RunFour(INIT, CreateSession("s"), Wake("s"), Launch("s"), Register("s"));
    var h1 := Step(Step(Step(INIT, CreateSession("s")), Wake("s")), Launch("s"));
    assert h1 == Host(map[], map["s" := Launched(0)], map[0 := Container("s", false, false, [])], 1, {"s"});
    assert [] + [ExitHandler] == [ExitHandler];
    assert Step(h1, Register("s")).wakes == map[];
  }

  /** The other case does occur: a session that is cleaned up, by a kill and the deletion of its row, while
      a restart of it is pending stays down. */
  lemma RestartOfDeletedSession()
    ensures var h := Run(KillStep(Run(INIT, STARTED_SESSION), "s", true), DELETED_MEANWHILE);
            var h' := DrainCallbacks(ProcessExitsStep(h, 0), 0);
            "s" in Run(INIT, STARTED_SESSION).active && "s" !in h'.active && "s" !in h'.wakes
  {
    StartedSessionRuns();
    RestartRespawnsIffSessionExists(STARTED_SESSION, "s", DELETED_MEANWHILE);
    RunTwo(KillStep(Run(INIT, STARTED_SESSION), "s", true), Kill("s", false), DeleteSession("s"));
  }

  // ---------------------------------------------------------------------------------------------
  // The module's maps and the code that updates them
  // ---------------------------------------------------------------------------------------------

  datatype WakeOutcome = AlreadyRunning | Joined | Spawning

  class Runner {
    var activeContainers: map<SessionId, Handle>
    var wakePromises: map<SessionId, Stage>
    var containers: map<Handle, Container>
    var next: Handle
    var sessions: set<SessionId>

    function View(): Host
      reads this
    {
      Host(activeContainers, wakePromises, containers, next, sessions)
    }

    constructor ()
      ensures View() == INIT
    {
      activeContainers, wakePromises, containers, next, sessions := map[], map[], map[], 0, {};
    }

    method WakeContainer(s: SessionId) returns (outcome: WakeOutcome)
      modifies this
      ensures View() == WakeStep(old(View()), s)
      ensures outcome.AlreadyRunning? <==> s in old(activeContainers)
      ensures outcome.Spawning? <==> s !in old(activeContainers) && s !in old(wakePromises)
      ensures outcome.Spawning? ==> wakePromises == old(wakePromises)[s := Preparing]
    {
      if s in activeContainers {
        return AlreadyRunning;
      }
      if s in wakePromises {
        return Joined;
      }
      wakePromises := wakePromises[s := Preparing];
      return Spawning;
    }

    /** `runtime.spawn` succeeds: the container exists, its handle is on the way back. */
    method RuntimeSpawned(s: SessionId) returns (handle: Handle)
      requires s in wakePromises && wakePromises[s].Preparing?
      modifies this
      ensures View() == LaunchStep(old(View()), s)
      ensures handle == old(next)
    {
      handle := next;
      containers := containers[handle := Container(s, false, false, [])];
      wakePromises := wakePromises[s := Launched(handle)];
      next := next + 1;
    }

    /** `spawnContainer` throws anywhere before the container exists; `.finally` deletes the promise. */
    method SpawnThrew(s: SessionId)
      requires s in wakePromises && wakePromises[s].Preparing?
      modifies this`wakePromises
      ensures View() == SpawnFailsStep(old(View()), s)
      ensures s !in wakePromises && wakePromises == old(wakePromises) - {s}
    {
      wakePromises := wakePromises - {s};
    }

    /** The code after `await runtime.spawn`: record the handle, register the exit handler, and `.finally`
        delete the promise. */
    method SpawnReturned(s: SessionId)
      requires s in wakePromises && wakePromises[s].Launched? && wakePromises[s].handle in containers
      modifies this
      ensures View() == RegisterStep(old(View()), s)
    {
      var handle := wakePromises[s].handle;
      activeContainers := activeContainers[s := handle];
      var box := containers[handle];
      containers := containers[handle := box.(callbacks := box.callbacks + [ExitHandler])];
      wakePromises := wakePromises - {s};
    }

    method KillContainer(s: SessionId, restart: bool)
      requires s in activeContainers ==> activeContainers[s] in containers
      modifies this`containers
      ensures View() == KillStep(old(View()), s, restart)
    {
      if s !in activeContainers {
        return;
      }
      var handle := activeContainers[s];
      if restart {
        var box := containers[handle];
        containers := containers[handle := box.(callbacks := box.callbacks + [RestartWake])];
      }
      containers := containers[handle := containers[handle].(killed := true)];
      assert restart || old(containers)[handle].callbacks == old(containers)[handle].callbacks + [];
    }

    method ProcessExited(handle: Handle)
      requires handle in containers
      modifies this`containers
      ensures View() == ProcessExitsStep(old(View()), handle)
    {
      containers := containers[handle := containers[handle].(exited := true)];
    }

    /** Runs the first reaction still registered on an exited handle. */
    method RunNextCallback(handle: Handle)
      requires CallbackReady(View(), handle)
      modifies this
      ensures View() == RunCallbackStep(old(View()), handle)
    {
      var box := containers[handle];
      containers := containers[handle := box.(callbacks := box.callbacks[1..])];
      match box.callbacks[0] {
        case ExitHandler =>
          activeContainers := activeContainers - {box.session};
        case RestartWake =>
          if box.session in sessions {
            var _ := WakeContainer(box.session);
          }
      }
    }
  }
}

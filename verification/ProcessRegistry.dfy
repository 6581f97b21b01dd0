/** The background-process registry (sidecar_processes.py): handles, the registry itself, and the map
    of exposed ports. A `State` and its atomic steps - the stretches between two waiting points of
    any number of coroutines - give the interleavings; the class performs the same steps in place. */
module ProcessRegistry {
  import opened Wrappers

  datatype Status = Running | Exited | Stopped | Killed

  /** `leaving`: the reader or a stop call has settled the status and will release the port. */
  datatype Handle = Handle(status: Status, port: Option<int>, exitCode: Option<int>, leaving: bool)

  datatype Config = Config(maxProcesses: nat, maxRuntime: int, portMin: int, portMax: int, sidecarPort: int)

  /** `starting` is the port asked for by the start call that holds the lock while it spawns. */
  datatype State = State(handles: map<nat, Handle>, registry: set<nat>, ports: map<int, nat>,
                         starting: Option<Option<int>>)

  datatype Step =
    | StartBegin(runtime: int, port: Option<int>)  // checks, then the spawn begins, holding the lock
    | StartEnd(id: nat, spawned: bool)             // the spawn is over; `id` is a fresh uuid
    | ReaderEnd(id: nat, code: int)                // end of output: exit code and status
    | WatchdogKill(id: nat)
    | StopMark(id: nat)                            // a stop call settles the status
    | StopEnd(id: nat, code: int)                  // the process is gone; the stop call notes its exit code
    | Release(id: nat)                             // the reader or a stop call, holding the lock
    | KillAll

  const INITIAL := State(map[], {}, map[], None)

  function RunningIn(s: State): set<nat> {
    set id | id in s.registry && id in s.handles && s.handles[id].status == Running
  }

  predicate BadRequest(c: Config, runtime: int, port: Option<int>) {
    || runtime <= 0 || runtime > c.maxRuntime
    || (port.Some? && (port.value == c.sidecarPort || !(c.portMin <= port.value <= c.portMax)))
  }

  /** The HTTP status that refuses a start, if any. */
  function Refusal(c: Config, s: State, runtime: int, port: Option<int>): Option<int> {
    if BadRequest(c, runtime, port) then Some(400)
    else if |RunningIn(s)| >= c.maxProcesses then Some(429)
    else if port.Some? && port.value in s.ports then Some(409)
    else None
  }

  function With(s: State, id: nat, h: Handle): State { s.(handles := s.handles[id := h]) }

  function Killing(handles: map<nat, Handle>, ids: set<nat>): map<nat, Handle> {
    map id | id in handles :: if id in ids then handles[id].(status := Killed) else handles[id]
  }

  lemma KillingOneMore(handles: map<nat, Handle>, ids: set<nat>, id: nat)
    requires id in handles
    ensures Killing(handles, ids + {id}) ==
            Killing(handles, ids)[id := Killing(handles, ids)[id].(status := Killed)]
  {}

  lemma KillingNone(handles: map<nat, Handle>)
    ensures Killing(handles, {}) == handles
  {}

  /** A step that is not possible in `s` (lock taken, unknown process) leaves it as it is. */
  function Next(c: Config, s: State, step: Step): State {
    match step
    case StartBegin(runtime, port) =>
      if s.starting.None? && Refusal(c, s, runtime, port).None? then s.(starting := Some(port)) else s
    case StartEnd(id, spawned) =>
      if s.starting.None? || id in s.handles then s
      else if !spawned then s.(starting := None)
      else
        var port := s.starting.value;
        State(s.handles[id := Handle(Running, port, None, false)], s.registry + {id},
              if port.Some? then s.ports[port.value := id] else s.ports, None)
    case ReaderEnd(id, code) =>
      if id !in s.handles then s
      else
        var h := s.handles[id];
        var status := if h.status == Running then Exited else h.status;
        With(s, id, h.(status := status, exitCode := Some(code), leaving := true))
    case WatchdogKill(id) =>
      if id !in s.handles then s else With(s, id, s.handles[id].(status := Killed))
    case StopMark(id) =>
      if id !in s.handles then s
      else
        var h := s.handles[id];
        With(s, id, h.(status := if h.status == Running then Stopped else h.status, leaving := true))
    case StopEnd(id, code) =>
      if id !in s.handles then s else With(s, id, s.handles[id].(exitCode := Some(code)))
    case Release(id) =>
      if s.starting.Some? || id !in s.handles || !s.handles[id].leaving || s.handles[id].port.None? then s
      else
        var port := s.handles[id].port.value;
        if port in s.ports && s.ports[port] == id then s.(ports := s.ports - {port}) else s
    case KillAll =>
      if s.starting.Some? then s
      else State(Killing(s.handles, s.registry), {}, map[], None)
  }

  function Run(c: Config, s: State, steps: seq<Step>): State {
    if steps == [] then s else Next(c, Run(c, s, steps[..|steps| - 1]), steps[|steps| - 1])
  }

  // ------------------------------------------------------------------ invariants

  ghost predicate PortsOwned(s: State) {
    forall p | p in s.ports ::
      s.ports[p] in s.registry && s.ports[p] in s.handles && s.handles[s.ports[p]].port == Some(p)
  }

  ghost predicate RunningOwnPorts(s: State) {
    forall id | id in RunningIn(s) && s.handles[id].port.Some? ::
      s.handles[id].port.value in s.ports && s.ports[s.handles[id].port.value] == id
  }

  /** No port outside the configured range, and never the sidecar's own. */
  ghost predicate PortsInRange(c: Config, s: State) {
    && (forall p | p in s.ports :: c.portMin <= p <= c.portMax && p != c.sidecarPort)
    && (forall id | id in s.handles && s.handles[id].port.Some? ::
          c.portMin <= s.handles[id].port.value <= c.portMax && s.handles[id].port.value != c.sidecarPort)
    && (s.starting.Some? && s.starting.value.Some? ==>
          c.portMin <= s.starting.value.value <= c.portMax && s.starting.value.value != c.sidecarPort)
  }

  ghost predicate Inv(c: Config, s: State) {
    Accounted(c, s) && PortsInRange(c, s)
  }

  ghost predicate Accounted(c: Config, s: State) {
    && s.registry <= s.handles.Keys
    && |RunningIn(s)| + (if s.starting.Some? then 1 else 0) <= c.maxProcesses
    && PortsOwned(s) && RunningOwnPorts(s)
    && (s.starting.Some? && s.starting.value.Some? ==> s.starting.value.value !in s.ports)
    && (forall id | id in s.handles && s.handles[id].leaving :: s.handles[id].status != Running)
  }

  lemma {:induction false} SubsetSize<T>(a: set<T>, b: set<T>)
    requires a <= b
    ensures |a| <= |b|
  {
    if a != {} {
      var x :| x in a;
      SubsetSize(a - {x}, b - {x});
    }
  }

  /** Settling one handle: it may stop running, but keeps its port request. */
  lemma SettlingKeepsInv(c: Config, s: State, id: nat, h: Handle)
    requires Accounted(c, s) && id in s.handles && h.port == s.handles[id].port
    requires h.status == Running ==> s.handles[id].status == Running && !h.leaving
    ensures Accounted(c, With(s, id, h))
  {
    SubsetSize(RunningIn(With(s, id, h)), RunningIn(s));
  }

  lemma StartKeepsInv(c: Config, s: State, id: nat)
    requires Accounted(c, s)
    ensures Accounted(c, Next(c, s, StartEnd(id, true)))
  {
    var t := Next(c, s, StartEnd(id, true));
    if t != s {
      assert id !in s.registry;
      assert RunningIn(t) == RunningIn(s) + {id};
      assert forall r | r in RunningIn(s) :: t.handles[r] == s.handles[r];
      assert forall p | p in s.ports ::
        p in t.ports && t.ports[p] == s.ports[p] && t.handles[s.ports[p]] == s.handles[s.ports[p]];
    }
  }

  lemma ReleaseKeepsInv(c: Config, s: State, id: nat)
    requires Accounted(c, s)
    ensures Accounted(c, Next(c, s, Release(id)))
  {
    assert RunningIn(Next(c, s, Release(id))) == RunningIn(s);
  }

  lemma NextKeepsInv(c: Config, s: State, step: Step)
    requires Inv(c, s)
    ensures Inv(c, Next(c, s, step))
  {
    NextKeepsAccounts(c, s, step);
    NextKeepsRange(c, s, step);
  }

  lemma NextKeepsRange(c: Config, s: State, step: Step)
    requires PortsInRange(c, s)
    ensures PortsInRange(c, Next(c, s, step))
  {}

  lemma NextKeepsAccounts(c: Config, s: State, step: Step)
    requires Accounted(c, s)
    ensures Accounted(c, Next(c, s, step))
  {
    match step
    case StartBegin(runtime, port) =>
      assert RunningIn(Next(c, s, step)) == RunningIn(s);
    case StartEnd(id, spawned) =>
      StartKeepsInv(c, s, id);
      assert RunningIn(s.(starting := None)) == RunningIn(s);
    case Release(id) =>
      ReleaseKeepsInv(c, s, id);
    case KillAll =>
      if s.starting.None? {
        assert RunningIn(Next(c, s, step)) == {};
      }
    case _ =>
      if step.id in s.handles {
        SettlingKeepsInv(c, s, step.id, Next(c, s, step).handles[step.id]);
      }
  }

  /** In every reachable state: at most `maxProcesses` registered processes run, every exposed port
      names a registered process that asked for it, every running one still owns its port, and every port is
      in the configured range and not the sidecar's. */
  lemma {:induction false} AlwaysInv(c: Config, steps: seq<Step>)
    ensures Inv(c, Run(c, INITIAL, steps))
  {
    if steps == [] {
      assert RunningIn(INITIAL) == {};
    } else {
      AlwaysInv(c, steps[..|steps| - 1]);
      NextKeepsInv(c, Run(c, INITIAL, steps[..|steps| - 1]), steps[|steps| - 1]);
    }
  }

  /** "running" is never entered again. */
  lemma {:induction false} NeverRunsAgain(c: Config, s: State, steps: seq<Step>, id: nat)
    requires id in s.handles && s.handles[id].status != Running
    ensures id in Run(c, s, steps).handles && Run(c, s, steps).handles[id].status != Running
    ensures Run(c, s, steps).handles[id].port == s.handles[id].port
  {
    if steps != [] {
      NeverRunsAgain(c, s, steps[..|steps| - 1], id);
    }
  }

  /** Releasing frees no port but the process's own, and never that of a running process. */
  lemma ReleaseFreesOwnPortOnly(c: Config, s: State, id: nat)
    requires Inv(c, s)
    ensures var t := Next(c, s, Release(id));
      && t.handles == s.handles && t.registry == s.registry
      && (forall p | p in s.ports && s.ports[p] != id :: p in t.ports && t.ports[p] == s.ports[p])
      && (forall p | p in t.ports :: p in s.ports && t.ports[p] == s.ports[p])
      && (forall r | r in RunningIn(s) && s.handles[r].port.Some? :: s.handles[r].port.value in t.ports)
  {}

  /** A process that has ended and is released leaves its port to others: after the end of its reader, or a
      stop call, and its release no port names it. */
  lemma EndedFreesItsPort(c: Config, s: State, id: nat, code: int)
    requires Inv(c, s) && s.starting.None? && id in s.handles
    ensures forall p | p in Next(c, Next(c, s, ReaderEnd(id, code)), Release(id)).ports ::
      p in s.ports && s.ports[p] != id
    ensures forall p | p in Next(c, Next(c, s, StopMark(id)), Release(id)).ports :: p in s.ports && s.ports[p] != id
    ensures forall p | p in s.ports && s.ports[p] != id ::
      p in Next(c, Next(c, s, ReaderEnd(id, code)), Release(id)).ports
      && p in Next(c, Next(c, s, StopMark(id)), Release(id)).ports
  {
    NextKeepsInv(c, s, ReaderEnd(id, code));
    NextKeepsInv(c, s, StopMark(id));
  }

  // A run in which a release comes late: process 0 on port 3000 is stopped and releases it, process 1
  // takes the port, and then a second stop call for process 0 arrives at its release.

  predicate Suits(c: Config) {
    c.maxProcesses >= 1 && c.maxRuntime >= 60 && c.portMin <= 3000 <= c.portMax && c.sidecarPort != 3000
  }

  const PORT := Some(3000)
  const ALIVE := Handle(Running, PORT, None, false)
  const GONE := Handle(Stopped, PORT, None, true)
  const STARTED := State(map[0 := ALIVE], {0}, map[3000 := 0], None)
  const STOPPED := State(map[0 := GONE], {0}, map[3000 := 0], None)
  const RELEASED := State(map[0 := GONE], {0}, map[], None)
  const RESTARTED := State(map[0 := GONE, 1 := ALIVE], {0, 1}, map[3000 := 1], None)

  lemma FirstStart(c: Config)
    requires Suits(c)
    ensures Next(c, INITIAL, StartBegin(60, PORT)) == INITIAL.(starting := Some(PORT))
    ensures Next(c, INITIAL.(starting := Some(PORT)), StartEnd(0, true)) == STARTED
  {
    assert RunningIn(INITIAL) == {};
    assert |RunningIn(INITIAL)| == 0;
  }

  lemma FirstStop(c: Config)
    ensures Next(c, STARTED, StopMark(0)) == STOPPED
    ensures Next(c, STOPPED, Release(0)) == RELEASED
  {
    assert map[0 := ALIVE][0 := GONE] == map[0 := GONE];
    assert map[3000 := 0] - {3000} == map[];
  }

  lemma SecondStart(c: Config)
    requires Suits(c)
    ensures Next(c, RELEASED, StartBegin(60, PORT)) == RELEASED.(starting := Some(PORT))
    ensures Next(c, RELEASED.(starting := Some(PORT)), StartEnd(1, true)) == RESTARTED
  {
    assert RunningIn(RELEASED) == {};
    assert |RunningIn(RELEASED)| == 0;
    assert map[0 := GONE][1 := ALIVE] == map[0 := GONE, 1 := ALIVE];
    assert {0} + {1} == {0, 1};
  }

  const STOP_AND_RESTART := [StartBegin(60, PORT)] + [StartEnd(0, true)] + [StopMark(0)] + [Release(0)]
                            + [StartBegin(60, PORT)] + [StartEnd(1, true)]

  lemma RunOne(c: Config, s: State, steps: seq<Step>, step: Step)
    ensures Run(c, s, steps + [step]) == Next(c, Run(c, s, steps), step)
  {
    assert (steps + [step])[..|steps|] == steps;
  }

  lemma RunOfRestart(c: Config)
    requires Suits(c)
    ensures Run(c, INITIAL, STOP_AND_RESTART) == RESTARTED
  {
    var t1 := [StartBegin(60, PORT)];
    var t2 := t1 + [StartEnd(0, true)];
    var t3 := t2 + [StopMark(0)];
    var t4 := t3 + [Release(0)];
    var t5 := t4 + [StartBegin(60, PORT)];
    assert [] + t1 == t1;
    RunOne(c, INITIAL, [], StartBegin(60, PORT));
    RunOne(c, INITIAL, t1, StartEnd(0, true));
    FirstStart(c);
    RunOne(c, INITIAL, t2, StopMark(0));
    RunOne(c, INITIAL, t3, Release(0));
    FirstStop(c);
    RunOne(c, INITIAL, t4, StartBegin(60, PORT));
    RunOne(c, INITIAL, t5, StartEnd(1, true));
    SecondStart(c);
  }

  /** The guard in the release is needed: the late release finds the port in the hands of a newer process,
      and leaves it there. */
  lemma StaleReleaseHappens(c: Config)
    requires Suits(c)
    ensures var s := Run(c, INITIAL, STOP_AND_RESTART);
      && s.ports == map[3000 := 1] && s.starting.None?
      && 0 in s.handles && s.handles[0].leaving && s.handles[0].port == Some(3000)
      && Next(c, s, Release(0)) == s
  {
    RunOfRestart(c);
  }

  /** A process that is known, but neither registered nor exposed, stays so whatever happens. */
  lemma {:induction false} NeverRegisteredAgain(c: Config, s: State, steps: seq<Step>, id: nat)
    requires id in s.handles && id !in s.registry && forall p | p in s.ports :: s.ports[p] != id
    ensures var t := Run(c, s, steps);
      id in t.handles && id !in t.registry && forall p | p in t.ports :: t.ports[p] != id
  {
    if steps != [] {
      NeverRegisteredAgain(c, s, steps[..|steps| - 1], id);
    }
  }

  /** Kill-all is final: in no later state is a process that was registered before it running, registered
      or exposed on a port. */
  lemma {:induction false} KilledNeverReturns(c: Config, s: State, steps: seq<Step>, id: nat)
    requires Inv(c, s) && s.starting.None? && id in s.registry
    ensures var t := Run(c, Next(c, s, KillAll), steps);
      && id in t.handles && t.handles[id].status != Running
      && id !in t.registry && forall p | p in t.ports :: t.ports[p] != id
  {
    var killed := Next(c, s, KillAll);
    assert killed.handles[id].status == Killed;
    NeverRegisteredAgain(c, killed, steps, id);
    NeverRunsAgain(c, killed, steps, id);
  }

  /** The start adds exactly the new process to those that run. */
  lemma StartAddsRunning(c: Config, s: State, id: nat, spawned: bool)
    requires Inv(c, s) && s.starting.Some? && id !in s.handles
    ensures RunningIn(Next(c, s, StartEnd(id, spawned))) == RunningIn(s) + if spawned then {id} else {}
  {
    var t := Next(c, s, StartEnd(id, spawned));
    var expected := RunningIn(s) + if spawned then {id} else {};
    forall r ensures r in RunningIn(t) <==> r in expected {
      if r == id {
        assert id !in s.registry;
      } else {
        assert r in t.handles <==> r in s.handles;
        assert r in s.handles ==> t.handles[r] == s.handles[r];
      }
    }
  }

  // ------------------------------------------------------------- the registry itself

  class Registry {
    const config: Config
    var handles: map<nat, Handle>
    var registry: set<nat>
    var ports: map<int, nat>
    var starting: Option<Option<int>>

    ghost function View(): State
      reads this
    {
      State(handles, registry, ports, starting)
    }

    constructor (config: Config)
      ensures this.config == config && View() == INITIAL && Valid()
    {
      this.config := config;
      handles, registry, ports, starting := map[], {}, map[], None;
      new;
      AlwaysInv(config, []);
    }

    ghost predicate Valid()
      reads this
    {
      Inv(config, View())
    }

    /** `process_start` up to the spawn; `refusal` is the HTTP status it fails with. */
    method BeginStart(runtime: int, port: Option<int>) returns (refusal: Option<int>)
      requires Valid() && starting.None?
      modifies this`starting
      ensures Valid() && View() == Next(config, old(View()), StartBegin(runtime, port))
      ensures refusal.None? <==>
        && 0 < runtime <= config.maxRuntime
        && (port.Some? ==> config.portMin <= port.value <= config.portMax && port.value != config.sidecarPort)
        && |set id | id in registry && id in handles && handles[id].status == Running| < config.maxProcesses
        && (port.Some? ==> port.value !in ports)
      ensures refusal == Some(400) <==>
        || runtime <= 0 || runtime > config.maxRuntime
        || (port.Some? && (port.value < config.portMin || port.value > config.portMax
                           || port.value == config.sidecarPort))
      ensures refusal == Some(409) ==> port.Some? && port.value in ports && |RunningIn(View())| < config.maxProcesses
      ensures refusal.None? || refusal == Some(400) || refusal == Some(429) || refusal == Some(409)
      ensures refusal == Some(429) ==> |RunningIn(View())| >= config.maxProcesses
      ensures starting == if refusal.None? then Some(port) else None
    {
      NextKeepsInv(config, View(), StartBegin(runtime, port));
      if runtime <= 0 || runtime > config.maxRuntime {
        return Some(400);
      }
      if port.Some? {
        if port.value == config.sidecarPort || !(config.portMin <= port.value <= config.portMax) {
          return Some(400);
        }
      }
      var active := set id | id in registry && id in handles && handles[id].status == Running;
      assert active == RunningIn(View());
      if |active| >= config.maxProcesses {
        return Some(429);
      }
      if port.Some? && port.value in ports {
        return Some(409);
      }
      starting := Some(port);
      assert RunningIn(View()) == active;
      return None;
    }

    /** `process_start` after the spawn: the new process runs, is registered and owns the port it asked
        for, and nobody else is touched. */
    method EndStart(id: nat, spawned: bool)
      requires Valid() && starting.Some? && id !in handles
      modifies this
      ensures Valid() && View() == Next(config, old(View()), StartEnd(id, spawned))
      ensures RunningIn(View()) == old(RunningIn(View())) + if spawned then {id} else {}
      ensures spawned && old(starting).value.Some? ==>
        old(starting).value.value in ports && ports[old(starting).value.value] == id
      ensures starting.None? && registry == old(registry) + if spawned then {id} else {}
      ensures handles == if spawned then old(handles)[id := Handle(Running, old(starting).value, None, false)]
                         else old(handles)
      ensures ports == if spawned && old(starting).value.Some? then old(ports)[old(starting).value.value := id]
                       else old(ports)
    {
      NextKeepsInv(config, View(), StartEnd(id, spawned));
      StartAddsRunning(config, View(), id, spawned);
      var port := starting.value;
      starting := None;
      if spawned {
        handles := handles[id := Handle(Running, port, None, false)];
        registry := registry + {id};
        if port.Some? {
          ports := ports[port.value := id];
        }
      }
      assert View() == Next(config, old(View()), StartEnd(id, spawned));
    }

    /** The end of `_process_reader_loop`, before the release: the process no longer runs, but why it ended
        is not overwritten. */
    method EndReader(id: nat, code: int)
      requires Valid() && id in handles
      modifies this`handles
      ensures Valid() && View() == Next(config, old(View()), ReaderEnd(id, code))
      ensures RunningIn(View()) == old(RunningIn(View())) - {id}
      ensures handles == old(handles)[id := old(handles)[id].(
        status := if old(handles)[id].status == Running then Exited else old(handles)[id].status,
        exitCode := Some(code), leaving := true)]
    {
      NextKeepsInv(config, View(), ReaderEnd(id, code));
      var h := handles[id];
      if h.status == Running {
        h := h.(status := Exited);
      }
      handles := handles[id := h.(exitCode := Some(code), leaving := true)];
    }

    /** `_process_watchdog`, once the time is over and the process was seen alive: it stops counting as
        running, and keeps its port until its reader releases it. */
    method FireWatchdog(id: nat)
      requires Valid() && id in handles
      modifies this`handles
      ensures Valid() && View() == Next(config, old(View()), WatchdogKill(id))
      ensures RunningIn(View()) == old(RunningIn(View())) - {id}
      ensures handles == old(handles)[id := old(handles)[id].(status := Killed)]
    {
      NextKeepsInv(config, View(), WatchdogKill(id));
      handles := handles[id := handles[id].(status := Killed)];
    }

    /** The start of `_stop_process`: the process stops counting as running; one that had ended before
        keeps its status. */
    method MarkStopped(id: nat)
      requires Valid() && id in handles
      modifies this`handles
      ensures Valid() && View() == Next(config, old(View()), StopMark(id))
      ensures RunningIn(View()) == old(RunningIn(View())) - {id}
      ensures handles == old(handles)[id := old(handles)[id].(
        status := if old(handles)[id].status == Running then Stopped else old(handles)[id].status, leaving := true)]
    {
      NextKeepsInv(config, View(), StopMark(id));
      var h := handles[id];
      if h.status == Running {
        h := h.(status := Stopped);
      }
      handles := handles[id := h.(leaving := true)];
    }

    /** The end of `_stop_process`. */
    method EndStop(id: nat, code: int)
      requires Valid() && id in handles
      modifies this`handles
      ensures Valid() && View() == Next(config, old(View()), StopEnd(id, code))
      ensures RunningIn(View()) == old(RunningIn(View()))
      ensures handles == old(handles)[id := old(handles)[id].(exitCode := Some(code))]
    {
      NextKeepsInv(config, View(), StopEnd(id, code));
      handles := handles[id := handles[id].(exitCode := Some(code))];
    }

    /** `_release_exposed_port`, by a coroutine that has settled the status before: afterwards no port names
        the process, and every other process keeps its port. */
    method ReleaseExposedPort(id: nat)
      requires Valid() && starting.None? && id in handles && handles[id].leaving
      modifies this`ports
      ensures Valid() && View() == Next(config, old(View()), Release(id))
      ensures forall p :: p in ports <==> p in old(ports) && old(ports)[p] != id
      ensures forall p | p in ports :: ports[p] == old(ports)[p]
    {
      NextKeepsInv(config, View(), Release(id));
      var port := handles[id].port;
      if port.Some? {
        if port.value in ports && ports[port.value] == id {
          ports := ports - {port.value};
        }
      }
    }

    /** `_kill_all_processes`; returns how many of the tracked processes it had to signal. */
    method KillAllProcesses(alive: set<nat>) returns (killed: nat)
      requires Valid() && starting.None?
      modifies this`handles, this`registry, this`ports
      ensures Valid() && View() == Next(config, old(View()), KillAll)
      ensures RunningIn(View()) == {} && killed == |old(registry) * alive| && registry == {} && ports == map[]
      ensures handles.Keys == old(handles.Keys)
      ensures forall id | id in handles ::
        handles[id] == if id in old(registry) then old(handles)[id].(status := Killed) else old(handles)[id]
    {
      NextKeepsInv(config, View(), KillAll);
      var tracked := registry;
      registry, ports := {}, map[];
      MarkKilled(tracked);
      killed := |tracked * alive|;
    }

    /** The loop over the handles that kill-all has taken out of the registry. */
    method MarkKilled(tracked: set<nat>)
      requires tracked <= handles.Keys
      modifies this`handles
      ensures handles == Killing(old(handles), tracked)
    {
      var rest, done := tracked, {};
      KillingNone(handles);
      while rest != {}
        invariant rest <= handles.Keys && tracked == done + rest && handles.Keys == old(handles.Keys)
        invariant handles == Killing(old(handles), done)
        decreases rest
      {
        var id :| id in rest;
        KillingOneMore(old(handles), done, id);
        handles := handles[id := handles[id].(status := Killed)];
        rest, done := rest - {id}, done + {id};
      }
    }

    /** Any schedule of steps, taken whenever possible, performed in place: the registry goes through
        the states of `Run`, so all of its invariants hold. */
    method Perform(steps: seq<Step>)
      requires View() == INITIAL
      modifies this
      ensures View() == Run(config, INITIAL, steps) && Valid()
    {
      AlwaysInv(config, []);
      for i := 0 to |steps|
        invariant View() == Run(config, INITIAL, steps[..i]) && Valid()
      {
        assert steps[..i + 1][..i] == steps[..i];
        match steps[i]
        case StartBegin(runtime, port) =>
          if starting.None? { var _ := BeginStart(runtime, port); }
        case StartEnd(id, spawned) =>
          if starting.Some? && id !in handles { EndStart(id, spawned); }
        case ReaderEnd(id, code) =>
          if id in handles { EndReader(id, code); }
        case WatchdogKill(id) =>
          if id in handles { FireWatchdog(id); }
        case StopMark(id) =>
          if id in handles { MarkStopped(id); }
        case StopEnd(id, code) =>
          if id in handles { EndStop(id, code); }
        case Release(id) =>
          if starting.None? && id in handles && handles[id].leaving { ReleaseExposedPort(id); }
        case KillAll =>
          if starting.None? { var _ := KillAllProcesses(registry); }
      }
      assert steps[..|steps|] == steps;
    }
  }
}

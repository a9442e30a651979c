/** The Pi supervisor's session table, and all that may go on around it at once: starts, stops, natural exits,
    shutdown, and the maintenance of the Pi installation that must not meet a live session. */
module Supervisor {
  type Thread = nat
  type Generation = nat

  /** A managed session is identified by its generation. */
  datatype Table = Table(sessions: map<Thread, Generation>, starting: set<Thread>, exiting: set<Thread>, closed: bool)

  datatype Refusal = Granted | SupervisorClosed | ThreadRunning | ThreadNotRunning

  // ---------------------------------------------------------------- the table's critical sections

  function Claim(t: Table, thread: Thread): Refusal {
    if t.closed then SupervisorClosed
    else if thread in t.sessions || thread in t.starting || thread in t.exiting then ThreadRunning
    else Granted
  }

  function Register(t: Table, thread: Thread, g: Generation): (Refusal, Table) {
    var u := t.(starting := t.starting - {thread});
    if t.closed then (SupervisorClosed, u)
    else if thread in t.sessions then (ThreadRunning, u)
    else (Granted, u.(sessions := u.sessions[thread := g]))
  }

  predicate Runs(t: Table, thread: Thread, g: Generation) {
    thread in t.sessions && t.sessions[thread] == g
  }

  function Remove(t: Table, thread: Thread, g: Generation): Table {
    if Runs(t, thread, g) then t.(sessions := t.sessions - {thread}) else t
  }

  function BeginExit(t: Table, thread: Thread, g: Generation): Table {
    if Runs(t, thread, g) then t.(sessions := t.sessions - {thread}, exiting := t.exiting + {thread}) else t
  }

  predicate Unstable(t: Table) { t.starting != {} || t.exiting != {} }

  /** The threads that have a process, or are about to have one, or whose exit is still being told. */
  function Active(t: Table): set<Thread> { t.sessions.Keys + t.starting + t.exiting }

  /** A thread is in at most one of the three tables. */
  ghost predicate OnePlace(t: Table) {
    t.sessions.Keys !! t.starting && t.sessions.Keys !! t.exiting && t.starting !! t.exiting
  }

  /** What StopAll comes to: refused, or all sessions out of the table and these of them not closed cleanly. */
  datatype Stopping = Unsettled | Stopped(errors: set<Generation>)

  class Supervisor {
    var sessions: map<Thread, Generation>
    var starting: set<Thread>
    var exiting: set<Thread>
    var closed: bool
    var nextGeneration: Generation

    function View(): Table
      reads this
    {
      Table(sessions, starting, exiting, closed)
    }

    constructor ()
      ensures View() == Table(map[], {}, {}, false) && nextGeneration == 0
    {
      sessions, starting, exiting, closed, nextGeneration := map[], {}, {}, false, 0;
    }

    /** Start up to the process start. */
    method BeginStart(thread: Thread) returns (r: Refusal)
      modifies this`starting
      ensures r.SupervisorClosed? <==> closed
      ensures r.Granted? <==> !closed && thread !in sessions && thread !in old(starting) && thread !in exiting
      ensures r == Claim(old(View()), thread)
      ensures View() == if r.Granted? then old(View()).(starting := old(starting) + {thread}) else old(View())
    {
      if closed {
        return SupervisorClosed;
      }
      if thread in sessions || thread in starting || thread in exiting {
        return ThreadRunning;
      }
      starting := starting + {thread};
      return Granted;
    }

    method NewGeneration() returns (g: Generation)
      modifies this`nextGeneration
      ensures g == nextGeneration == old(nextGeneration) + 1
    {
      nextGeneration := nextGeneration + 1;
      g := nextGeneration;
    }

    /** Start once the process runs. */
    method FinishStart(thread: Thread, g: Generation) returns (r: Refusal)
      modifies this`starting, this`sessions
      ensures r == if closed then SupervisorClosed else if thread in old(sessions) then ThreadRunning else Granted
      ensures starting == old(starting) - {thread}
      ensures sessions == if r.Granted? then old(sessions)[thread := g] else old(sessions)
      ensures (r, View()) == Register(old(View()), thread, g)
    {
      starting := starting - {thread};
      if closed {
        return SupervisorClosed;
      }
      if thread in sessions {
        return ThreadRunning;
      }
      sessions := sessions[thread := g];
      return Granted;
    }

    /** The deferred delete of Start. */
    method Unclaim(thread: Thread)
      modifies this`starting
      ensures View() == old(View()).(starting := old(starting) - {thread})
    {
      starting := starting - {thread};
    }

    method Stop(thread: Thread) returns (r: Refusal)
      modifies this`sessions
      ensures View() == old(View()).(sessions := old(sessions) - {thread})
      ensures r == if thread in old(sessions) then Granted
                   else if thread in starting then ThreadRunning else ThreadNotRunning
    {
      r := Granted;
      if thread in sessions {
        sessions := sessions - {thread};
      } else if thread in starting {
        r := ThreadRunning;
      } else {
        r := ThreadNotRunning;
      }
    }

    /** fails says which sessions do not close cleanly. */
    method StopAll(fails: Generation -> bool) returns (r: Stopping)
      modifies this`sessions
      ensures r.Unsettled? <==> starting != {} || exiting != {}
      ensures View() == if r.Unsettled? then old(View()) else old(View()).(sessions := map[])
      ensures r.Stopped? ==> forall g :: g in r.errors <==> g in old(sessions).Values && fails(g)
    {
      if starting != {} || exiting != {} {
        return Unsettled;
      }
      var stopped := sessions;
      sessions := map[];
      var errors, rest := {}, stopped.Keys;
      while rest != {}
        invariant rest <= stopped.Keys
        invariant forall g :: g in errors <==> fails(g) && exists th :: th in stopped.Keys - rest && stopped[th] == g
        decreases |rest|
      {
        var th :| th in rest;
        rest := rest - {th};
        if fails(stopped[th]) {
          errors := errors + {stopped[th]};
        }
      }
      return Stopped(errors);
    }

    method Shutdown()
      modifies this`sessions, this`closed
      ensures View() == old(View()).(sessions := map[], closed := true)
    {
      closed := true;
      sessions := map[];
    }

    method RemoveSession(thread: Thread, expected: Generation) returns (removed: bool)
      modifies this`sessions
      ensures removed <==> thread in old(sessions) && old(sessions)[thread] == expected
      ensures sessions == if removed then old(sessions) - {thread} else old(sessions)
      ensures removed == Runs(old(View()), thread, expected) && View() == Remove(old(View()), thread, expected)
    {
      removed := thread in sessions && sessions[thread] == expected;
      if removed {
        sessions := sessions - {thread};
      }
    }

    /** watch, when the session's client is done. */
    method WatchExit(thread: Thread, session: Generation) returns (mine: bool)
      modifies this`sessions, this`exiting
      ensures mine <==> thread in old(sessions) && old(sessions)[thread] == session
      ensures sessions == if mine then old(sessions) - {thread} else old(sessions)
      ensures exiting == if mine then old(exiting) + {thread} else old(exiting)
      ensures mine == Runs(old(View()), thread, session) && View() == BeginExit(old(View()), thread, session)
    {
      mine := thread in sessions && sessions[thread] == session;
      if mine {
        sessions := sessions - {thread};
        exiting := exiting + {thread};
      }
    }

    /** The deferred delete of watch. */
    method EndExit(thread: Thread)
      modifies this`exiting
      ensures View() == old(View()).(exiting := old(exiting) - {thread})
    {
      exiting := exiting - {thread};
    }

    /** Start, when nothing else comes in between. spawns: the process starts; ready: it answers the first call. A
        start that fails leaves the table as it was; one that succeeds has a generation that was never used. */
    method Start(thread: Thread, spawns: bool, ready: bool) returns (r: Refusal, ok: bool, g: Generation)
      modifies this`starting, this`nextGeneration, this`sessions
      ensures r.SupervisorClosed? <==> closed
      ensures r.Granted? <==> !closed && thread !in old(sessions) && thread !in old(starting) && thread !in exiting
      ensures ok == (r.Granted? && spawns && ready)
      ensures View() == if ok then old(View()).(sessions := old(sessions)[thread := g]) else old(View())
      ensures nextGeneration == old(nextGeneration) + if r.Granted? && spawns then 1 else 0
      ensures ok ==> g == nextGeneration
    {
      ok, g := false, 0;
      r := BeginStart(thread);
      if !r.Granted? {
        return;
      }
      if !spawns {
        Unclaim(thread);
        return;
      }
      g := NewGeneration();
      var registered := FinishStart(thread, g);
      assert registered.Granted?;
      if !ready {
        var removed := RemoveSession(thread, g);
        return;
      }
      ok := true;
    }

    /** watch, when nothing else comes in between: the session is gone if it was still there, and told of only then. */
    method Watch(thread: Thread, session: Generation) returns (told: bool)
      modifies this`sessions, this`exiting
      ensures told <==> thread in old(sessions) && old(sessions)[thread] == session
      ensures sessions == if told then old(sessions) - {thread} else old(sessions)
      ensures thread !in old(exiting) ==> exiting == old(exiting)
    {
      told := WatchExit(thread, session);
      if told {
        EndExit(thread);
      }
    }

    /** ActiveCount: no thread is counted twice, and none is left out. */
    method CountActive() returns (n: nat)
      ensures n == 0 <==> sessions == map[] && starting == {} && exiting == {}
      ensures OnePlace(View()) ==> n == |sessions.Keys + starting + exiting|
    {
      n := |sessions| + |starting| + |exiting|;
      assert OnePlace(View()) ==> |sessions.Keys + starting| == |sessions.Keys| + |starting|;
    }
  }

  // ---------------------------------------------------------------- everything together

  /** Failing: the process did not start. Refused: the supervisor did not take the session. In both the
      deferred delete is still to come; a refused start has deleted its claim already. */
  datatype Phase = Entered | Claimed | Spawned(g: Generation) | Registered(g: Generation) | Failing | Refused

  datatype Start = Start(thread: Thread, phase: Phase)

  datatype Watching = Watches | Exiting | Emitted | Over

  datatype Watcher = Watcher(thread: Thread, phase: Watching)

  /** Preparing: the maintenance lock is held for writing, StopAll has not run. Closing: StopAll has emptied the
      table and still has to close the sessions left. */
  datatype Maintenance = NoMaintenance | Preparing | Closing(left: set<Generation>, failed: bool) | Prepared

  datatype Entry = Entry(thread: Thread, g: Generation)

  /** starts are the StartSession calls that hold the maintenance lock for reading; log lists the sessions
      ever registered, exits the runtime_exit events ever emitted. */
  datatype State = State(table: Table, next: Generation, starts: map<nat, Start>, watchers: map<Generation, Watcher>,
                         maintenance: Maintenance, log: seq<Entry>, exits: seq<Generation>)

  datatype Act =
    | Enter(id: nat, thread: Thread)
    | TryClaim(id: nat)
    | SpawnOk(id: nat)
    | SpawnFails(id: nat)
    | TryRegister(id: nat)
    | Deferred(id: nat)
    | ReadyOk(id: nat)
    | ReadyFails(id: nat)
    | StopThread(thread: Thread)
    | ShutDown
    | Wake(g: Generation)
    | Emit(g: Generation)
    | Left(g: Generation)
    | Prepare
    | NoRuntime
    | StopEverything
    | CloseOne(g: Generation, ok: bool)
    | AllClosed
    | Resume

  predicate InPhase(s: State, id: nat, p: Phase) { id in s.starts && s.starts[id].phase == p }

  predicate Can(s: State, a: Act) {
    match a
    case Enter(id, _) => id !in s.starts && s.maintenance == NoMaintenance
    case TryClaim(id) => InPhase(s, id, Entered)
    case SpawnOk(id) => InPhase(s, id, Claimed)
    case SpawnFails(id) => InPhase(s, id, Claimed)
    case TryRegister(id) => id in s.starts && s.starts[id].phase.Spawned?
    case Deferred(id) => InPhase(s, id, Failing) || InPhase(s, id, Refused)
    case ReadyOk(id) => id in s.starts && s.starts[id].phase.Registered?
    case ReadyFails(id) => id in s.starts && s.starts[id].phase.Registered?
    case StopThread(_) => true
    case ShutDown => true
    case Wake(g) => g in s.watchers && s.watchers[g].phase == Watches
    case Emit(g) => g in s.watchers && s.watchers[g].phase == Exiting
    case Left(g) => g in s.watchers && s.watchers[g].phase == Emitted
    case Prepare => s.maintenance == NoMaintenance && s.starts == map[]
    case NoRuntime => s.maintenance == Preparing
    case StopEverything => s.maintenance == Preparing
    case CloseOne(g, _) => s.maintenance.Closing? && g in s.maintenance.left
    case AllClosed => s.maintenance.Closing? && s.maintenance.left == {}
    case Resume => s.maintenance == Prepared
  }

  function EnterPhase(s: State, id: nat, p: Phase): State
    requires id in s.starts
  {
    s.(starts := s.starts[id := s.starts[id].(phase := p)])
  }

  function Watch(s: State, g: Generation, p: Watching): State
    requires g in s.watchers
  {
    s.(watchers := s.watchers[g := s.watchers[g].(phase := p)])
  }

  function DoRegister(s: State, id: nat): State
    requires Can(s, TryRegister(id))
  {
    var thread, g := s.starts[id].thread, s.starts[id].phase.g;
    match Register(s.table, thread, g)
    case (Granted, t) =>
      EnterPhase(s, id, Registered(g)).(
        table := t, watchers := s.watchers[g := Watcher(thread, Watches)], log := s.log + [Entry(thread, g)])
    case (_, t) => EnterPhase(s, id, Refused).(table := t)
  }

  function Do(s: State, a: Act): State
    requires Can(s, a)
  {
    match a
    case Enter(id, thread) => s.(starts := s.starts[id := Start(thread, Entered)])
    case TryClaim(id) =>
      var thread := s.starts[id].thread;
      if Claim(s.table, thread) == Granted
      then EnterPhase(s, id, Claimed).(table := s.table.(starting := s.table.starting + {thread}))
      else s.(starts := s.starts - {id})
    case SpawnOk(id) => EnterPhase(s, id, Spawned(s.next + 1)).(next := s.next + 1)
    case SpawnFails(id) => EnterPhase(s, id, Failing)
    case TryRegister(id) => DoRegister(s, id)
    case Deferred(id) =>
      s.(table := s.table.(starting := s.table.starting - {s.starts[id].thread}), starts := s.starts - {id})
    case ReadyOk(id) => s.(starts := s.starts - {id})
    case ReadyFails(id) =>
      s.(table := Remove(s.table, s.starts[id].thread, s.starts[id].phase.g), starts := s.starts - {id})
    case StopThread(thread) => s.(table := s.table.(sessions := s.table.sessions - {thread}))
    case ShutDown => s.(table := s.table.(sessions := map[], closed := true))
    case Wake(g) =>
      var thread := s.watchers[g].thread;
      Watch(s, g, if Runs(s.table, thread, g) then Exiting else Over).(table := BeginExit(s.table, thread, g))
    case Emit(g) => Watch(s, g, Emitted).(exits := s.exits + [g])
    case Left(g) => Watch(s, g, Over).(table := s.table.(exiting := s.table.exiting - {s.watchers[g].thread}))
    case Prepare => s.(maintenance := Preparing)
    case NoRuntime => s.(maintenance := NoMaintenance)
    case StopEverything =>
      if Unstable(s.table) then s.(maintenance := NoMaintenance)
      else s.(maintenance := Closing(s.table.sessions.Values, false), table := s.table.(sessions := map[]))
    case CloseOne(g, ok) =>
      s.(maintenance := Closing(s.maintenance.left - {g}, s.maintenance.failed || !ok))
    case AllClosed => s.(maintenance := if s.maintenance.failed then NoMaintenance else Prepared)
    case Resume => s.(maintenance := NoMaintenance)
  }

  // ---------------------------------------------------------------- invariant

  /** The claim of the start is in the table. */
  predicate Claims(p: Phase) { p.Claimed? || p.Spawned? || p.Failing? }

  predicate Leaving(p: Watching) { p == Exiting || p == Emitted }

  /** Each claimed thread is claimed by one start; a refused start has no claim, and nobody can make one any more. */
  ghost predicate ClaimsInv(t: Table, starts: map<nat, Start>) {
    && (forall id :: id in starts && Claims(starts[id].phase) ==> starts[id].thread in t.starting)
    && (forall th :: th in t.starting ==> Claimed1(starts, th))
    && (forall x, y :: x in starts && y in starts && x != y && Claims(starts[x].phase) && Claims(starts[y].phase)
                       ==> starts[x].thread != starts[y].thread)
    && (forall id :: id in starts && starts[id].phase.Refused? ==> t.closed && starts[id].thread !in t.starting)
  }

  ghost predicate Claimed1(starts: map<nat, Start>, thread: Thread) {
    exists id :: id in starts && Claims(starts[id].phase) && starts[id].thread == thread
  }

  /** Each exiting thread is left by one watcher; each session is watched. */
  ghost predicate WatchersInv(t: Table, watchers: map<Generation, Watcher>, exits: seq<Generation>) {
    && (forall th :: th in t.sessions ==>
        t.sessions[th] in watchers && watchers[t.sessions[th]] == Watcher(th, Watches))
    && (forall g :: g in watchers && Leaving(watchers[g].phase) ==> watchers[g].thread in t.exiting)
    && (forall x, y ::
          x in watchers && y in watchers && x != y && Leaving(watchers[x].phase) && Leaving(watchers[y].phase) ==>
            watchers[x].thread != watchers[y].thread)
    && (forall g :: g in exits ==> g in watchers && (watchers[g].phase == Emitted || watchers[g].phase == Over))
    && (forall i, j :: 0 <= i < j < |exits| ==> exits[i] != exits[j])
  }

  ghost predicate GenerationsInv(next: Generation, starts: map<nat, Start>, watchers: map<Generation, Watcher>,
                                 log: seq<Entry>) {
    && (forall g :: g in watchers ==> g <= next)
    && (forall k :: 0 <= k < |log| ==> log[k].g <= next)
    && (forall i, j :: 0 <= i < j < |log| && log[i].thread == log[j].thread ==> log[i].g < log[j].g)
    && (forall id :: id in starts && starts[id].phase.Spawned? ==> SpawnInv(next, starts[id], watchers, log))
    && (forall x, y :: x in starts && y in starts && x != y && starts[x].phase.Spawned? && starts[y].phase.Spawned?
                       ==> starts[x].phase.g != starts[y].phase.g)
  }

  ghost predicate SpawnInv(next: Generation, st: Start, watchers: map<Generation, Watcher>, log: seq<Entry>)
    requires st.phase.Spawned?
  {
    && st.phase.g <= next && st.phase.g !in watchers
    && forall k :: 0 <= k < |log| && log[k].thread == st.thread ==> log[k].g < st.phase.g
  }

  ghost predicate MaintenanceInv(s: State) {
    && (s.maintenance != NoMaintenance ==> s.starts == map[])
    && (s.maintenance == Prepared || s.maintenance.Closing? ==> s.table.sessions == map[] && s.table.exiting == {})
  }

  ghost predicate Inv(s: State) {
    && OnePlace(s.table) && ClaimsInv(s.table, s.starts) && WatchersInv(s.table, s.watchers, s.exits)
    && GenerationsInv(s.next, s.starts, s.watchers, s.log) && MaintenanceInv(s)
  }

  /** The deferred delete of one start never removes the claim of another. */
  lemma DeferredDeleteIsOwn(s: State, id: nat, other: nat)
    requires Inv(s) && Can(s, Deferred(id)) && other in s.starts && other != id && Claims(s.starts[other].phase)
    ensures s.starts[other].thread in Do(s, Deferred(id)).table.starting
  {}

  /** A session is never refused because another one got in between. */
  lemma RegisterIsOnlyRefusedWhenClosed(s: State, id: nat)
    requires Inv(s) && Can(s, TryRegister(id))
    ensures Register(s.table, s.starts[id].thread, s.starts[id].phase.g).0
            == if s.table.closed then SupervisorClosed else Granted
  {}

  /** While maintenance is prepared nothing is active. */
  lemma MaintenanceIsQuiet(s: State)
    requires Inv(s)
    ensures s.maintenance == Prepared || s.maintenance.Closing? ==> Active(s.table) == {}
    ensures s.maintenance == Preparing ==> (Unstable(s.table) <==> s.table.exiting != {})
  {
    if s.maintenance != NoMaintenance {
      assert s.table.starting == {};
    }
  }

  // ---------------------------------------------------------------- what a start and an exit come to

  /** A start gets its claim exactly if the supervisor is open and its own thread has no session, start or exit. */
  lemma ClaimedIff(s: State, id: nat)
    requires Can(s, TryClaim(id))
    ensures var r, th := Do(s, TryClaim(id)), s.starts[id].thread;
            if !s.table.closed && th !in s.table.sessions && th !in s.table.starting && th !in s.table.exiting
            then InPhase(r, id, Claimed) && r.table == s.table.(starting := s.table.starting + {th})
            else id !in r.starts && r.table == s.table
  {}

  /** The step may change what the tables say of this thread. */
  predicate Concerns(s: State, a: Act, thread: Thread)
    requires Can(s, a)
  {
    match a
    case TryClaim(id) => s.starts[id].thread == thread
    case TryRegister(id) => s.starts[id].thread == thread
    case Deferred(id) => s.starts[id].thread == thread
    case ReadyFails(id) => s.starts[id].thread == thread
    case StopThread(th) => th == thread
    case ShutDown => true
    case Wake(g) => s.watchers[g].thread == thread
    case Left(g) => s.watchers[g].thread == thread
    case StopEverything => true
    case _ => false
  }

  predicate OfOthers(s: State, acts: seq<Act>, thread: Thread)
    requires CanRun(s, acts)
    decreases |acts|
  {
    |acts| == 0 || (!Concerns(s, acts[0], thread) && OfOthers(Do(s, acts[0]), acts[1..], thread))
  }

  ghost predicate SameFor(t: Table, u: Table, thread: Thread) {
    && (thread in t.sessions <==> thread in u.sessions) && (thread in t.starting <==> thread in u.starting)
    && (thread in t.exiting <==> thread in u.exiting) && t.closed == u.closed
    && (thread in t.sessions ==> t.sessions[thread] == u.sessions[thread])
  }

  lemma OthersStep(s: State, a: Act, thread: Thread)
    requires Can(s, a) && !Concerns(s, a, thread)
    ensures SameFor(s.table, Do(s, a).table, thread)
  {}

  lemma {:induction false} OthersDoNotMatter(s: State, acts: seq<Act>, thread: Thread)
    requires CanRun(s, acts) && OfOthers(s, acts, thread)
    ensures SameFor(s.table, Run(s, acts).table, thread)
    decreases |acts|
  {
    if |acts| > 0 {
      OthersStep(s, acts[0], thread);
      OthersDoNotMatter(Do(s, acts[0]), acts[1..], thread);
    }
  }

  /** Whatever other threads start, stop or leave in the meantime: a start whose thread is free gets its claim. */
  lemma FreeThreadIsClaimed(s: State, acts: seq<Act>, id: nat)
    requires CanRun(s, acts) && id in s.starts && OfOthers(s, acts, s.starts[id].thread)
    requires var r := Run(s, acts); Can(r, TryClaim(id)) && r.starts[id].thread == s.starts[id].thread
    requires var t, th := s.table, s.starts[id].thread;
             !t.closed && th !in t.sessions && th !in t.starting && th !in t.exiting
    ensures InPhase(Do(Run(s, acts), TryClaim(id)), id, Claimed)
  {
    OthersDoNotMatter(s, acts, s.starts[id].thread);
    ClaimedIff(Run(s, acts), id);
  }

  /** A process that has started becomes the session of its thread, unless the supervisor is closed. */
  lemma SpawnedIsEntered(s: State, id: nat)
    requires Inv(s) && Can(s, TryRegister(id)) && !s.table.closed
    ensures var r, th, g := Do(s, TryRegister(id)), s.starts[id].thread, s.starts[id].phase.g;
            && r.table == s.table.(sessions := s.table.sessions[th := g], starting := s.table.starting - {th})
            && InPhase(r, id, Registered(g)) && Can(r, Wake(g)) && r.log == s.log + [Entry(th, g)]
  {
    RegisterIsOnlyRefusedWhenClosed(s, id);
  }

  /** A claimed start goes on to a session of a generation of its own, if nobody shuts the supervisor down. */
  lemma ClaimBecomesSession(s: State, id: nat)
    requires Inv(s) && InPhase(s, id, Claimed) && !s.table.closed
    ensures Can(s, SpawnOk(id)) && Can(Do(s, SpawnOk(id)), TryRegister(id))
    ensures var r, th, g := Do(Do(s, SpawnOk(id)), TryRegister(id)), s.starts[id].thread, s.next + 1;
            && r.table == s.table.(sessions := s.table.sessions[th := g], starting := s.table.starting - {th})
            && Can(r, ReadyOk(id)) && Do(r, ReadyOk(id)).table == r.table && id !in Do(r, ReadyOk(id)).starts
            && Can(r, Wake(g)) && r.log == s.log + [Entry(th, g)]
  {
    StepKeeps(s, SpawnOk(id));
    SpawnedIsEntered(Do(s, SpawnOk(id)), id);
  }

  /** A session whose process ends while it is in the table leaves it, is told of once, and makes room for the next; one
      that was taken out before is not told of. */
  lemma ExitIsTold(s: State, g: Generation)
    requires Inv(s) && g in s.watchers && s.watchers[g].phase == Watches
    ensures var a, th := Do(s, Wake(g)), s.watchers[g].thread;
            if th in s.table.sessions && s.table.sessions[th] == g
            then && a.table == s.table.(sessions := s.table.sessions - {th}, exiting := s.table.exiting + {th})
                 && Can(a, Emit(g)) && Do(a, Emit(g)).exits == s.exits + [g] && Do(a, Emit(g)).table == a.table
                 && Can(Do(a, Emit(g)), Left(g))
                 && Do(Do(a, Emit(g)), Left(g)).table == s.table.(sessions := s.table.sessions - {th})
            else a.table == s.table && a.exits == s.exits && !Can(a, Emit(g)) && !Can(a, Wake(g))
  {
    var th := s.watchers[g].thread;
    if th in s.table.sessions && s.table.sessions[th] == g {
      assert th !in s.table.exiting;
      assert s.table.exiting + {th} - {th} == s.table.exiting;
    }
  }

  /** A start that does not become ready takes its own session out, and no other. */
  lemma NotReadyIsRemoved(s: State, id: nat)
    requires Can(s, ReadyFails(id))
    ensures var r, th, g := Do(s, ReadyFails(id)), s.starts[id].thread, s.starts[id].phase.g;
            && id !in r.starts
            && r.table == if th in s.table.sessions && s.table.sessions[th] == g
                          then s.table.(sessions := s.table.sessions - {th}) else s.table
  {}

  predicate NoneFails(acts: seq<Act>) {
    |acts| == 0 || ((acts[0].CloseOne? ==> acts[0].ok) && NoneFails(acts[1..]))
  }

  predicate StillClosing(acts: seq<Act>) {
    |acts| == 0 || (acts[0] != AllClosed && StillClosing(acts[1..]))
  }

  function Closed(acts: seq<Act>): set<Generation> {
    if |acts| == 0 then {} else (if acts[0].CloseOne? then {acts[0].g} else {}) + Closed(acts[1..])
  }

  lemma ClosingStep(s: State, a: Act)
    requires Can(s, a) && s.maintenance.Closing? && a != AllClosed
    ensures Do(s, a).maintenance
            == if a.CloseOne? then Closing(s.maintenance.left - {a.g}, s.maintenance.failed || !a.ok)
                                    else s.maintenance
  {}

  /** Whatever else goes on, StopAll closes its sessions one by one. */
  lemma {:induction false} ClosingGoesOn(s: State, acts: seq<Act>)
    requires CanRun(s, acts) && StillClosing(acts) && s.maintenance.Closing?
    ensures Run(s, acts).maintenance
            == Closing(s.maintenance.left - Closed(acts), s.maintenance.failed || !NoneFails(acts))
    decreases |acts|
  {
    if |acts| > 0 {
      ClosingStep(s, acts[0]);
      ClosingGoesOn(Do(s, acts[0]), acts[1..]);
    }
  }

  lemma StopAllBegins(s: State)
    requires Inv(s) && s.maintenance == Preparing
    ensures Do(s, StopEverything) == if s.table.exiting != {} then s.(maintenance := NoMaintenance)
                                     else s.(maintenance := Closing(s.table.sessions.Values, false),
                                             table := s.table.(sessions := map[]))
  {
    MaintenanceIsQuiet(s);
  }

  /** A preparation that has its runtime is given up at once if an exit is under way when StopAll looks. Otherwise,
      whatever else goes on, it closes all sessions, and it succeeds exactly if all of them close cleanly. */
  lemma PreparedIff(s: State, acts: seq<Act>)
    requires Inv(s) && s.maintenance == Preparing
    ensures var r := Do(s, StopEverything);
            && (s.table.exiting != {} ==> r == s.(maintenance := NoMaintenance))
            && (s.table.exiting == {} && CanRun(r, acts) && StillClosing(acts) && Can(Run(r, acts), AllClosed) ==>
                  && s.table.sessions.Values <= Closed(acts)
                  && Do(Run(r, acts), AllClosed).maintenance == if NoneFails(acts) then Prepared else NoMaintenance)
  {
    StopAllBegins(s);
    var r := Do(s, StopEverything);
    if s.table.exiting == {} && CanRun(r, acts) && StillClosing(acts) && Can(Run(r, acts), AllClosed) {
      ClosingGoesOn(r, acts);
      var all := s.table.sessions.Values;
      assert all - Closed(acts) == {};
      assert all <= Closed(acts) + (all - Closed(acts));
    }
  }

  // ---------------------------------------------------------------- every step keeps it

  lemma ClaimKeeps(s: State, id: nat)
    requires Inv(s) && Can(s, TryClaim(id))
    ensures Inv(Do(s, TryClaim(id)))
  {
    var r := Do(s, TryClaim(id));
    if Claim(s.table, s.starts[id].thread) == Granted {
      forall th | th in r.table.starting ensures Claimed1(r.starts, th) {
        if th != s.starts[id].thread {
          var x :| x in s.starts && Claims(s.starts[x].phase) && s.starts[x].thread == th;
          assert r.starts[x] == s.starts[x];
        } else {
          assert r.starts[id].thread == th;
        }
      }
    } else {
      StillClaimed(s.starts, r.starts, id);
    }
  }

  /** Removing or changing a start that has no claim leaves the others' claims. */
  lemma StillClaimed(a: map<nat, Start>, b: map<nat, Start>, id: nat)
    requires id in a && !Claims(a[id].phase)
    requires forall x :: x in a && x != id ==> x in b && b[x] == a[x]
    ensures forall th :: Claimed1(a, th) ==> Claimed1(b, th)
  {
    forall th | Claimed1(a, th) ensures Claimed1(b, th) {
      var x :| x in a && Claims(a[x].phase) && a[x].thread == th;
      assert b[x] == a[x];
    }
  }

  /** Changing a start that keeps its claim leaves all claims. */
  lemma ClaimPasses(a: map<nat, Start>, b: map<nat, Start>, id: nat)
    requires id in a && id in b && (Claims(a[id].phase) ==> Claims(b[id].phase)) && b[id].thread == a[id].thread
    requires forall x :: x in a && x != id ==> x in b && b[x] == a[x]
    ensures forall th :: Claimed1(a, th) ==> Claimed1(b, th)
  {
    forall th | Claimed1(a, th) ensures Claimed1(b, th) {
      var x :| x in a && Claims(a[x].phase) && a[x].thread == th;
      assert b[x].thread == th && Claims(b[x].phase);
    }
  }

  lemma EnterKeeps(s: State, id: nat, thread: Thread)
    requires Inv(s) && Can(s, Enter(id, thread))
    ensures Inv(Do(s, Enter(id, thread)))
  {
    var r := Do(s, Enter(id, thread));
    forall th | th in s.table.starting ensures Claimed1(r.starts, th) {
      var x :| x in s.starts && Claims(s.starts[x].phase) && s.starts[x].thread == th;
      assert r.starts[x] == s.starts[x];
    }
  }

  lemma SpawnGenerations(s: State, id: nat)
    requires Inv(s) && Can(s, SpawnOk(id))
    ensures var r := Do(s, SpawnOk(id)); GenerationsInv(r.next, r.starts, r.watchers, r.log)
  {
    var r := Do(s, SpawnOk(id));
    forall x | x in r.starts && r.starts[x].phase.Spawned? ensures SpawnInv(r.next, r.starts[x], r.watchers, r.log) {
      if x != id { assert SpawnInv(s.next, s.starts[x], s.watchers, s.log); }
    }
  }

  lemma SpawnKeeps(s: State, id: nat)
    requires Inv(s) && Can(s, SpawnOk(id))
    ensures Inv(Do(s, SpawnOk(id)))
  {
    ClaimPasses(s.starts, Do(s, SpawnOk(id)).starts, id);
    SpawnGenerations(s, id);
  }

  lemma SpawnFailureKeeps(s: State, id: nat)
    requires Inv(s) && Can(s, SpawnFails(id))
    ensures Inv(Do(s, SpawnFails(id)))
  {
    ClaimPasses(s.starts, Do(s, SpawnFails(id)).starts, id);
  }

  /** A claim that is deleted was the deleting start's own. */
  lemma OwnClaimGone(t: Table, starts: map<nat, Start>, id: nat, less: map<nat, Start>)
    requires ClaimsInv(t, starts) && id in starts && (Claims(starts[id].phase) || starts[id].phase.Refused?)
    requires forall x :: x in starts && x != id ==> x in less && less[x] == starts[x]
    ensures forall th :: th in t.starting - {starts[id].thread} ==> Claimed1(less, th)
  {
    forall th | th in t.starting - {starts[id].thread} ensures Claimed1(less, th) {
      var x :| x in starts && Claims(starts[x].phase) && starts[x].thread == th;
      assert less[x] == starts[x];
    }
  }

  lemma RegisterClaims(s: State, id: nat)
    requires Inv(s) && Can(s, TryRegister(id))
    ensures var r := Do(s, TryRegister(id)); OnePlace(r.table) && ClaimsInv(r.table, r.starts) && MaintenanceInv(r)
  {
    OwnClaimGone(s.table, s.starts, id, Do(s, TryRegister(id)).starts);
  }

  lemma RegisterGenerations(s: State, id: nat)
    requires Inv(s) && Can(s, TryRegister(id))
    ensures var r := Do(s, TryRegister(id)); GenerationsInv(r.next, r.starts, r.watchers, r.log)
  {
    var r := Do(s, TryRegister(id));
    RegisterIsOnlyRefusedWhenClosed(s, id);
    assert SpawnInv(s.next, s.starts[id], s.watchers, s.log);
    forall x | x in r.starts && r.starts[x].phase.Spawned? ensures SpawnInv(r.next, r.starts[x], r.watchers, r.log) {
      assert r.starts[x] == s.starts[x];
      assert SpawnInv(s.next, s.starts[x], s.watchers, s.log);
    }
  }

  lemma RegisterWatchers(s: State, id: nat)
    requires Inv(s) && Can(s, TryRegister(id))
    ensures var r := Do(s, TryRegister(id)); WatchersInv(r.table, r.watchers, r.exits)
  {
    RegisterIsOnlyRefusedWhenClosed(s, id);
    assert SpawnInv(s.next, s.starts[id], s.watchers, s.log);
  }

  lemma DeferredKeeps(s: State, id: nat)
    requires Inv(s) && Can(s, Deferred(id))
    ensures Inv(Do(s, Deferred(id)))
  {
    OwnClaimGone(s.table, s.starts, id, Do(s, Deferred(id)).starts);
  }

  lemma ReadyKeeps(s: State, a: Act)
    requires Inv(s) && Can(s, a) && (a.ReadyOk? || a.ReadyFails?)
    ensures Inv(Do(s, a))
  {
    StillClaimed(s.starts, Do(s, a).starts, a.id);
  }

  lemma WakeWatchers(t: Table, watchers: map<Generation, Watcher>, exits: seq<Generation>, g: Generation)
    requires OnePlace(t) && WatchersInv(t, watchers, exits) && g in watchers && watchers[g].phase == Watches
    ensures var th := watchers[g].thread;
            WatchersInv(BeginExit(t, th, g),
                        watchers[g := watchers[g].(phase := if Runs(t, th, g) then Exiting else Over)], exits)
  {}

  lemma WakeKeeps(s: State, g: Generation)
    requires Inv(s) && Can(s, Wake(g))
    ensures Inv(Do(s, Wake(g)))
  {
    WakeWatchers(s.table, s.watchers, s.exits, g);
  }

  lemma EmitKeeps(s: State, g: Generation)
    requires Inv(s) && Can(s, Emit(g))
    ensures Inv(Do(s, Emit(g)))
  {}

  lemma LeftWatchers(t: Table, watchers: map<Generation, Watcher>, exits: seq<Generation>, g: Generation)
    requires WatchersInv(t, watchers, exits) && g in watchers && watchers[g].phase == Emitted
    ensures WatchersInv(t.(exiting := t.exiting - {watchers[g].thread}), watchers[g := watchers[g].(phase := Over)],
                        exits)
  {}

  lemma LeftKeeps(s: State, g: Generation)
    requires Inv(s) && Can(s, Left(g))
    ensures Inv(Do(s, Left(g)))
  {
    LeftWatchers(s.table, s.watchers, s.exits, g);
  }

  predicate OfMaintenance(a: Act) {
    a.Prepare? || a.NoRuntime? || a.StopEverything? || a.CloseOne? || a.AllClosed? || a.Resume?
  }

  lemma FewerSessionsKeep(s: State, r: State)
    requires Inv(s) && MaintenanceInv(r)
    requires r == s.(table := r.table, maintenance := r.maintenance) && r.table.starting == s.table.starting
    requires r.table.exiting == s.table.exiting && (s.table.closed ==> r.table.closed)
    requires r.table.sessions.Keys <= s.table.sessions.Keys
    requires forall th :: th in r.table.sessions ==> r.table.sessions[th] == s.table.sessions[th]
    ensures Inv(r)
  {}

  lemma StopKeeps(s: State, a: Act)
    requires Inv(s) && Can(s, a) && (a.StopThread? || a.ShutDown?)
    ensures Inv(Do(s, a))
  {
    FewerSessionsKeep(s, Do(s, a));
  }

  lemma MaintenanceKeeps(s: State, a: Act)
    requires Inv(s) && Can(s, a) && OfMaintenance(a)
    ensures Inv(Do(s, a))
  {
    FewerSessionsKeep(s, Do(s, a));
  }

  lemma StepKeeps(s: State, a: Act)
    requires Inv(s) && Can(s, a)
    ensures Inv(Do(s, a))
  {
    match a
    case Enter(id, thread) => EnterKeeps(s, id, thread);
    case TryClaim(id) => ClaimKeeps(s, id);
    case SpawnOk(id) => SpawnKeeps(s, id);
    case SpawnFails(id) => SpawnFailureKeeps(s, id);
    case TryRegister(id) =>
      RegisterClaims(s, id);
      RegisterGenerations(s, id);
      RegisterWatchers(s, id);
    case Deferred(id) => DeferredKeeps(s, id);
    case ReadyOk(_) => ReadyKeeps(s, a);
    case ReadyFails(_) => ReadyKeeps(s, a);
    case Wake(g) => WakeKeeps(s, g);
    case Emit(g) => EmitKeeps(s, g);
    case Left(g) => LeftKeeps(s, g);
    case StopThread(_) => StopKeeps(s, a);
    case ShutDown => StopKeeps(s, a);
    case _ => MaintenanceKeeps(s, a);
  }

  predicate CanRun(s: State, acts: seq<Act>)
    decreases |acts|
  {
    |acts| == 0 || (Can(s, acts[0]) && CanRun(Do(s, acts[0]), acts[1..]))
  }

  function Run(s: State, acts: seq<Act>): State
    requires CanRun(s, acts)
    decreases |acts|
  {
    if |acts| == 0 then s else Run(Do(s, acts[0]), acts[1..])
  }

  lemma {:induction false} RunKeeps(s: State, acts: seq<Act>)
    requires Inv(s) && CanRun(s, acts)
    ensures Inv(Run(s, acts))
    decreases |acts|
  {
    if |acts| > 0 {
      StepKeeps(s, acts[0]);
      RunKeeps(Do(s, acts[0]), acts[1..]);
    }
  }

  const START := State(Table(map[], {}, {}, false), 0, map[], map[], NoMaintenance, [], [])

  /** In every run: a thread is in at most one of the three tables, the generations of a thread strictly
      increase, each generation exits at most once, and nothing is active during maintenance. */
  lemma EveryRunIsOrderly(acts: seq<Act>)
    requires CanRun(START, acts)
    ensures var s := Run(START, acts);
            && OnePlace(s.table)
            && (forall i, j :: 0 <= i < j < |s.log| && s.log[i].thread == s.log[j].thread ==> s.log[i].g < s.log[j].g)
            && (forall i, j :: 0 <= i < j < |s.exits| ==> s.exits[i] != s.exits[j])
            && (s.maintenance == Prepared ==> Active(s.table) == {})
  {
    RunKeeps(START, acts);
    MaintenanceIsQuiet(Run(START, acts));
  }
}

/** The join of a verified SSH root generation with the repository and terminal services: three services that
    each keep their view of what is bound, and must agree. */
module Bindings {
  type WorkspaceId = nat
  type TargetId = nat
  type ThreadId = nat
  type Generation = nat
  type Runtime = nat

  const MAX_ACTIVE_THREADS := 500

  datatype Backend = Backend(identity: nat, workspace: WorkspaceId, generation: Generation)
  datatype Lease = Lease(identity: nat, workspace: WorkspaceId, generation: Generation)

  datatype Workspace = Workspace(target: TargetId, generation: Generation, runtime: Runtime)
  datatype Task = Task(workspace: WorkspaceId, generation: Generation, lease: Lease)
  datatype Thread = Thread(workspace: WorkspaceId, active: bool)

  datatype Views = Views(workspaces: map<WorkspaceId, Workspace>, tasks: map<ThreadId, Task>,
                         remote: map<WorkspaceId, Backend>, seen: map<WorkspaceId, Generation>,
                         threads: map<ThreadId, Thread>)

  datatype Outcome = Done | Stale | Invalid | Refused

  // ---------------------------------------------------------------- repository and terminal

  function Seen(seen: map<WorkspaceId, Generation>, w: WorkspaceId): Generation {
    if w in seen then seen[w] else 0
  }

  function BindRepository(v: Views, w: WorkspaceId, b: Backend): (Outcome, Views) {
    if w in v.remote && v.remote[w] == b then (Done, v)
    else if b.generation <= Seen(v.seen, w) then (Stale, v)
    else (Done, v.(remote := v.remote[w := b], seen := v.seen[w := b.generation]))
  }

  function ActiveThreads(threads: map<ThreadId, Thread>): set<ThreadId> {
    set th | th in threads && threads[th].active
  }

  /** ready: the remote terminal runtime is there and accepts the binding. */
  predicate AcceptsThread(threads: map<ThreadId, Thread>, th: ThreadId, w: WorkspaceId, ready: bool) {
    && ready && (th in threads ==> threads[th].workspace == w)
    && (th in threads || |ActiveThreads(threads)| < MAX_ACTIVE_THREADS)
  }

  function Deactivate(threads: map<ThreadId, Thread>, gone: set<ThreadId>): map<ThreadId, Thread> {
    map th | th in threads :: if th in gone then threads[th].(active := false) else threads[th]
  }

  datatype Route = Remote | Local | Inactive | OwnedByRemote

  /** Where a terminal request for a thread goes; workspace: the SSH workspace it names, if any. */
  function RuntimeFor(threads: map<ThreadId, Thread>, th: ThreadId, workspace: set<WorkspaceId>): Route
    requires |workspace| <= 1
  {
    if workspace != {} then
      (if th in threads && threads[th].active && {threads[th].workspace} == workspace then Remote else Inactive)
    else if th in threads then OwnedByRemote
    else Local
  }

  // ---------------------------------------------------------------- the coordinator

  /** The tasks that go when the workspaces ws are unbound. */
  function TasksOf(v: Views, ws: set<WorkspaceId>): set<ThreadId> {
    set th | th in v.tasks && v.tasks[th].workspace in ws && v.tasks[th].workspace in v.workspaces
             && v.tasks[th].generation == v.workspaces[v.tasks[th].workspace].generation
  }

  function BackendsOf(v: Views, ws: set<WorkspaceId>): set<WorkspaceId> {
    set w | w in v.remote && w in ws && w in v.workspaces && v.remote[w].generation == v.workspaces[w].generation
  }

  /** Bindings go in all three services together. */
  function UnbindAll(v: Views, ws: set<WorkspaceId>): Views {
    var gone := TasksOf(v, ws);
    v.(workspaces := v.workspaces - ws, tasks := v.tasks - gone, threads := Deactivate(v.threads, gone),
       remote := v.remote - BackendsOf(v, ws))
  }

  /** approved: the catalog still approves the identity, and the backend validates, for both checks in turn. */
  datatype Approval = Approval(coordinator: bool, repository: bool)

  /** The bind of a workspace that is not bound. */
  function BindUnbound(u: Views, w: WorkspaceId, target: TargetId, runtime: Runtime, b: Backend): (Outcome, Views) {
    match BindRepository(u, w, b)
    case (Done, r) => (Done, r.(workspaces := r.workspaces[w := Workspace(target, b.generation, runtime)]))
    case (e, r) => (e, r)
  }

  function AfterBindWorkspace(v: Views, w: WorkspaceId, target: TargetId, runtime: Runtime, b: Backend, ok: Approval)
    : (Outcome, Views)
  {
    if b.workspace != w || b.generation == 0 then (Invalid, v)
    else if !ok.coordinator then (Refused, v)
    else if w in v.workspaces && v.workspaces[w] == Workspace(target, b.generation, runtime) then (Done, v)
    else if w in v.workspaces && v.workspaces[w].generation >= b.generation then (Stale, v)
    else
      var u := if w in v.workspaces then UnbindAll(v, {w}) else v;
      if !ok.repository then (Refused, u)
      else BindUnbound(u, w, target, runtime, b)
  }

  function AfterBindTask(v: Views, th: ThreadId, w: WorkspaceId, lease: Lease, approved: bool, ready: bool)
    : (Outcome, Views)
  {
    if lease.workspace != w then (Invalid, v)
    else if !approved then (Refused, v)
    else if w !in v.workspaces || lease.generation != v.workspaces[w].generation then (Stale, v)
    else if th in v.tasks && v.tasks[th] != Task(w, lease.generation, lease) then (Refused, v)
    else if !AcceptsThread(v.threads, th, w, ready) then (Refused, v)
    else
      (Done,
       v.(tasks := v.tasks[th := Task(w, lease.generation, lease)], threads := v.threads[th := Thread(w, true)]))
  }

  function AfterUnbindTask(v: Views, th: ThreadId, lease: Lease): Views {
    if th !in v.tasks || v.tasks[th].lease != lease then v
    else v.(tasks := v.tasks - {th}, threads := Deactivate(v.threads, {th}))
  }

  function OnTarget(v: Views, target: TargetId): set<WorkspaceId> {
    set w | w in v.workspaces && v.workspaces[w].target == target
  }

  function AfterUnbindTarget(v: Views, target: TargetId): Views { UnbindAll(v, OnTarget(v, target)) }

  // ---------------------------------------------------------------- agreement

  /** The same generation is bound in coordinator and repository, or none in either; every task points at a live
      binding of its generation; a terminal thread is active if and only if it has a task. */
  ghost predicate Agree(v: Views) {
    && (forall w :: w in v.workspaces <==> w in v.remote)
    && (forall w :: w in v.workspaces ==>
        v.remote[w].generation == v.workspaces[w].generation == Seen(v.seen, w) && v.remote[w].generation > 0)
    && (forall th :: th in v.tasks ==>
          && v.tasks[th].workspace in v.workspaces
          && v.tasks[th].generation == v.tasks[th].lease.generation == v.workspaces[v.tasks[th].workspace].generation
          && v.tasks[th].lease.workspace == v.tasks[th].workspace)
    && (forall th :: th in v.tasks <==> th in v.threads && v.threads[th].active)
    && (forall th :: th in v.tasks ==> v.threads[th].workspace == v.tasks[th].workspace)
  }

  datatype Op =
    | OpBindWorkspace(w: WorkspaceId, target: TargetId, runtime: Runtime, b: Backend, ok: Approval)
    | OpBindTask(th: ThreadId, w: WorkspaceId, lease: Lease, approved: bool, ready: bool)
    | OpUnbindTask(th: ThreadId, lease: Lease)
    | OpUnbindTarget(target: TargetId)

  function Apply(v: Views, op: Op): Views {
    match op
    case OpBindWorkspace(w, target, runtime, b, ok) => AfterBindWorkspace(v, w, target, runtime, b, ok).1
    case OpBindTask(th, w, lease, approved, ready) => AfterBindTask(v, th, w, lease, approved, ready).1
    case OpUnbindTask(th, lease) => AfterUnbindTask(v, th, lease)
    case OpUnbindTarget(target) => AfterUnbindTarget(v, target)
  }

  lemma UnbindAgrees(v: Views, ws: set<WorkspaceId>)
    requires Agree(v)
    ensures Agree(UnbindAll(v, ws)) && UnbindAll(v, ws).seen == v.seen
  {
    var r := UnbindAll(v, ws);
    forall w | w in v.remote ensures w in r.remote <==> w !in ws {}
  }

  lemma BindUnboundAgrees(u: Views, w: WorkspaceId, target: TargetId, runtime: Runtime, b: Backend)
    requires Agree(u) && w !in u.workspaces
    ensures Agree(BindUnbound(u, w, target, runtime, b).1)
  {}

  lemma BindWorkspaceAgrees(v: Views, w: WorkspaceId, target: TargetId, runtime: Runtime, b: Backend, ok: Approval)
    requires Agree(v)
    ensures Agree(AfterBindWorkspace(v, w, target, runtime, b, ok).1)
  {
    UnbindAgrees(v, {w});
    var u := if w in v.workspaces then UnbindAll(v, {w}) else v;
    BindUnboundAgrees(u, w, target, runtime, b);
  }

  lemma BindTaskAgrees(v: Views, th: ThreadId, w: WorkspaceId, lease: Lease, approved: bool, ready: bool)
    requires Agree(v)
    ensures Agree(AfterBindTask(v, th, w, lease, approved, ready).1)
  {}

  lemma UnbindTaskAgrees(v: Views, th: ThreadId, lease: Lease)
    requires Agree(v)
    ensures Agree(AfterUnbindTask(v, th, lease))
  {}

  lemma ApplyAgrees(v: Views, op: Op)
    requires Agree(v)
    ensures Agree(Apply(v, op))
  {
    match op
    case OpBindWorkspace(w, target, runtime, b, ok) => BindWorkspaceAgrees(v, w, target, runtime, b, ok);
    case OpBindTask(th, w, lease, approved, ready) => BindTaskAgrees(v, th, w, lease, approved, ready);
    case OpUnbindTask(th, lease) => UnbindTaskAgrees(v, th, lease);
    case OpUnbindTarget(target) => UnbindAgrees(v, OnTarget(v, target));
  }

  /** A thread that was ever remote stays with its workspace. */
  ghost predicate ThreadsStay(v: Views, r: Views) {
    forall th :: th in v.threads ==> th in r.threads && r.threads[th].workspace == v.threads[th].workspace
  }

  lemma ApplyKeepsThreads(v: Views, op: Op)
    requires Agree(v)
    ensures ThreadsStay(v, Apply(v, op))
  {}

  predicate SameBinding(v: Views, r: Views, w: WorkspaceId)
    requires w in r.workspaces
  {
    w in v.workspaces && v.workspaces[w].generation == r.workspaces[w].generation
  }

  /** Whatever an operation newly binds in a workspace has a higher generation than anything bound there before. */
  ghost predicate BoundsGrow(v: Views, r: Views) {
    && (forall w :: Seen(v.seen, w) <= Seen(r.seen, w))
    && (forall w :: w in r.workspaces && !SameBinding(v, r, w) ==> Seen(v.seen, w) < r.workspaces[w].generation)
  }

  lemma BindUnboundGrows(u: Views, w: WorkspaceId, target: TargetId, runtime: Runtime, b: Backend)
    requires w !in u.workspaces && w !in u.remote
    ensures BoundsGrow(u, BindUnbound(u, w, target, runtime, b).1)
  {}

  /** Unbinding in between does not matter. */
  lemma GrowsThrough(v: Views, u: Views, r: Views)
    requires u.seen == v.seen && BoundsGrow(u, r)
    requires forall w :: w in u.workspaces ==> w in v.workspaces && v.workspaces[w] == u.workspaces[w]
    ensures BoundsGrow(v, r)
  {}

  lemma BindWorkspaceGrows(v: Views, w: WorkspaceId, target: TargetId, runtime: Runtime, b: Backend, ok: Approval)
    requires Agree(v)
    ensures BoundsGrow(v, AfterBindWorkspace(v, w, target, runtime, b, ok).1)
  {
    var u := if w in v.workspaces then UnbindAll(v, {w}) else v;
    BindWorkspaceIs(v, w, target, runtime, b, ok);
    BindUnboundGrows(u, w, target, runtime, b);
    GrowsThrough(v, u, BindUnbound(u, w, target, runtime, b).1);
    GrowsThrough(v, u, u);
  }

  /** A bind changes nothing, or unbinds at most, or goes on from there. */
  lemma BindWorkspaceIs(v: Views, w: WorkspaceId, target: TargetId, runtime: Runtime, b: Backend, ok: Approval)
    requires Agree(v)
    ensures var r := AfterBindWorkspace(v, w, target, runtime, b, ok).1;
            var u := if w in v.workspaces then UnbindAll(v, {w}) else v;
            && (r == v || r == u || r == BindUnbound(u, w, target, runtime, b).1)
            && u.seen == v.seen && w !in u.workspaces && w !in u.remote
  {}

  lemma ApplyGrows(v: Views, op: Op)
    requires Agree(v)
    ensures BoundsGrow(v, Apply(v, op))
  {
    match op
    case OpBindWorkspace(w, target, runtime, b, ok) => BindWorkspaceGrows(v, w, target, runtime, b, ok);
    case OpUnbindTarget(target) => UnbindAgrees(v, OnTarget(v, target));
    case _ =>
  }

  function ApplyAll(v: Views, ops: seq<Op>): Views
    decreases |ops|
  {
    if |ops| == 0 then v else ApplyAll(Apply(v, ops[0]), ops[1..])
  }

  const NOTHING := Views(map[], map[], map[], map[], map[])

  lemma {:induction false} RunAgrees(v: Views, ops: seq<Op>)
    requires Agree(v)
    ensures Agree(ApplyAll(v, ops)) && ThreadsStay(v, ApplyAll(v, ops))
    ensures forall w :: Seen(v.seen, w) <= Seen(ApplyAll(v, ops).seen, w)
    decreases |ops|
  {
    if |ops| > 0 {
      ApplyAgrees(v, ops[0]);
      ApplyKeepsThreads(v, ops[0]);
      ApplyGrows(v, ops[0]);
      RunAgrees(Apply(v, ops[0]), ops[1..]);
    }
  }

  /** In every run the three services agree. */
  lemma EveryRunAgrees(ops: seq<Op>)
    ensures Agree(ApplyAll(NOTHING, ops))
  {
    RunAgrees(NOTHING, ops);
  }

  /** Bindings of one workspace that are made later in a run have strictly higher generations. */
  lemma LaterBindingsAreNewer(v: Views, ops: seq<Op>, op: Op, w: WorkspaceId)
    requires Agree(v) && w in v.workspaces
    requires var u := ApplyAll(v, ops); var r := Apply(u, op);
             w in r.workspaces && !(w in u.workspaces && u.workspaces[w].generation == r.workspaces[w].generation)
    ensures v.workspaces[w].generation < Apply(ApplyAll(v, ops), op).workspaces[w].generation
  {
    RunAgrees(v, ops);
    ApplyGrows(ApplyAll(v, ops), op);
  }

  /** An unbind with any lease but the one that the thread's task holds changes nothing, whatever it has in common
      with that one; with the one it holds, the task is gone from both services and all else is as it was. */
  lemma StaleUnbindIsNoOp(v: Views, th: ThreadId, lease: Lease)
    requires Agree(v)
    ensures var r := AfterUnbindTask(v, th, lease);
            if th !in v.tasks || lease != v.tasks[th].lease then r == v
            else && th !in r.tasks && r.threads[th] == v.threads[th].(active := false)
                 && (forall j :: j != th ==> (j in r.tasks <==> j in v.tasks) && (j in r.threads <==> j in v.threads))
                 && (forall j :: j != th && j in v.tasks ==> r.tasks[j] == v.tasks[j])
                 && (forall j :: j != th && j in v.threads ==> r.threads[j] == v.threads[j])
                 && r.workspaces == v.workspaces && r.remote == v.remote
  {}

  /** A bind of a generation that was already seen in an unbound workspace, or is not newer than the bound one,
      changes nothing. */
  lemma StaleBindIsNoOp(v: Views, w: WorkspaceId, target: TargetId, runtime: Runtime, b: Backend, ok: Approval)
    requires Agree(v) && b.generation <= Seen(v.seen, w)
    ensures AfterBindWorkspace(v, w, target, runtime, b, ok).1 == v
  {}

  /** The terminal routes to the remote runtime exactly the threads that have a task in the workspace named,
      and never routes a thread with a task to the local one. */
  lemma RoutedIffTask(v: Views, th: ThreadId, w: WorkspaceId)
    requires Agree(v)
    ensures RuntimeFor(v.threads, th, {w}) == Remote <==> th in v.tasks && v.tasks[th].workspace == w
    ensures RuntimeFor(v.threads, th, {w}) == Remote || RuntimeFor(v.threads, th, {w}) == Inactive
    ensures th in v.tasks ==> RuntimeFor(v.threads, th, {}) != Local
    ensures RuntimeFor(v.threads, th, {}) == if th in v.threads then OwnedByRemote else Local
  {
    if th in v.threads && {v.threads[th].workspace} == {w} {
      assert v.threads[th].workspace in {w};
    }
  }

  // ---------------------------------------------------------------- what each operation comes to

  /** The workspace of a task, as the coordinator has it. */
  function BindingOf(v: Views, th: ThreadId): Workspace
    requires Agree(v) && th in v.tasks
  {
    v.workspaces[v.tasks[th].workspace]
  }

  /** In r all workspaces that are in gone are unbound in all services, their tasks are over, and their threads are
      inactive, in the workspace they were in; everything else is as in v. */
  ghost predicate OnlyGone(v: Views, r: Views, gone: set<WorkspaceId>) {
    && (forall w :: w in r.workspaces <==> w in v.workspaces && w !in gone)
    && (forall w :: w in r.workspaces ==> r.workspaces[w] == v.workspaces[w])
    && (forall w :: w in r.remote <==> w in v.remote && w !in gone)
    && (forall w :: w in r.remote ==> r.remote[w] == v.remote[w])
    && (forall th :: th in r.tasks <==> th in v.tasks && v.tasks[th].workspace !in gone)
    && (forall th :: th in r.tasks ==> r.tasks[th] == v.tasks[th])
    && (forall th :: th in r.threads <==> th in v.threads)
    && (forall th :: th in v.threads ==>
          r.threads[th] == Thread(v.threads[th].workspace, v.threads[th].active && v.threads[th].workspace !in gone))
    && r.seen == v.seen
  }

  lemma UnbindAllIs(v: Views, ws: set<WorkspaceId>)
    requires Agree(v) && forall w :: w in ws ==> w in v.workspaces
    ensures OnlyGone(v, UnbindAll(v, ws), ws)
  {
    forall th | th in v.threads
      ensures th in TasksOf(v, ws) <==> v.threads[th].active && v.threads[th].workspace in ws {}
  }

  /** Unbinding a target unbinds exactly the workspaces that are bound for it. */
  lemma UnbindTargetIs(v: Views, target: TargetId)
    requires Agree(v)
    ensures OnlyGone(v, AfterUnbindTarget(v, target), set w | w in v.workspaces && v.workspaces[w].target == target)
    ensures forall th ::
              th in AfterUnbindTarget(v, target).tasks <==> th in v.tasks && BindingOf(v, th).target != target
  {
    var doomed := set w | w in v.workspaces && v.workspaces[w].target == target;
    assert OnTarget(v, target) == doomed;
    UnbindAllIs(v, doomed);
  }

  /** A newer generation takes the place of whatever the workspace had, whose tasks are over. */
  ghost predicate Rebound(v: Views, r: Views, w: WorkspaceId, binding: Workspace, b: Backend) {
    exists u :: OnlyGone(v, u, {w})
                && r == u.(workspaces := u.workspaces[w := binding], remote := u.remote[w := b],
                           seen := u.seen[w := b.generation])
  }

  /** Binding a workspace: done if it is bound just so; otherwise done exactly for an approved backend of this workspace
      with a generation above all seen. A newer generation that the repository refuses leaves the workspace unbound. */
  lemma BindWorkspaceIff(v: Views, w: WorkspaceId, target: TargetId, runtime: Runtime, b: Backend, ok: Approval)
    requires Agree(v)
    ensures var (o, r) := AfterBindWorkspace(v, w, target, runtime, b, ok);
            var binding := Workspace(target, b.generation, runtime);
            var newer := b.generation > if w in v.seen then v.seen[w] else 0;
            if b.workspace != w || b.generation == 0 then o == Invalid && r == v
            else if !ok.coordinator then o == Refused && r == v
            else if w in v.workspaces && v.workspaces[w] == binding then o == Done && r == v
            else if !newer then r == v && o == if w in v.workspaces || ok.repository then Stale else Refused
            else if ok.repository then o == Done && Rebound(v, r, w, binding, b)
            else o == Refused && OnlyGone(v, r, {w})
  {
    var u := if w in v.workspaces then UnbindAll(v, {w}) else v;
    if w in v.workspaces { UnbindAllIs(v, {w}); } else { NotBoundIsGone(v, w); }
    assert OnlyGone(v, u, {w});
    BindWorkspaceIs(v, w, target, runtime, b, ok);
  }

  lemma NotBoundIsGone(v: Views, w: WorkspaceId)
    requires Agree(v) && w !in v.workspaces
    ensures OnlyGone(v, v, {w})
  {
    forall th | th in v.threads ensures v.threads[th].active ==> v.threads[th].workspace != w {}
  }

  /** A task is bound exactly with an approved lease of the bound generation of its workspace, to a thread that has no
      other lease, is of this workspace if it was ever remote, and fits below 500 active threads if not. */
  lemma BindTaskIff(v: Views, th: ThreadId, w: WorkspaceId, lease: Lease, approved: bool, ready: bool)
    requires Agree(v)
    ensures var (o, r) := AfterBindTask(v, th, w, lease, approved, ready);
            var known := th in v.threads;
            && (o == Done
                <==> && lease.workspace == w && approved && ready
                     && w in v.workspaces && lease.generation == v.workspaces[w].generation
                     && (th in v.tasks ==> v.tasks[th].lease == lease)
                     && if known then v.threads[th].workspace == w
                        else |set x | x in v.threads && v.threads[x].active| < 500)
            && (o == Invalid <==> lease.workspace != w)
            && (o == Stale <==> && lease.workspace == w && approved
                                && !(w in v.workspaces && lease.generation == v.workspaces[w].generation))
            && r == if o != Done then v
                    else v.(tasks := v.tasks[th := Task(w, lease.generation, lease)],
                            threads := v.threads[th := Thread(w, true)])
  {
    assert ActiveThreads(v.threads) == set x | x in v.threads && v.threads[x].active;
  }

  // ---------------------------------------------------------------- the objects

  class RepositoryService {
    var remote: map<WorkspaceId, Backend>
    var remoteSeen: map<WorkspaceId, Generation>

    constructor ()
      ensures remote == map[] && remoteSeen == map[]
    {
      remote, remoteSeen := map[], map[];
    }

    method BindRemoteWorkspace(w: WorkspaceId, b: Backend, approved: bool) returns (o: Outcome)
      modifies this
      ensures b.workspace == w && b.generation > 0 && approved ==>
                var v := Views(map[], map[], old(remote), old(remoteSeen), map[]);
                o == BindRepository(v, w, b).0 && v.(remote := remote, seen := remoteSeen) == BindRepository(v, w, b).1
      ensures o == Invalid <==> b.workspace != w || b.generation == 0
      ensures o == Refused <==> b.workspace == w && b.generation > 0 && !approved
      ensures o == Done <==> && b.workspace == w && b.generation > 0 && approved
                             && ((w in old(remote) && old(remote)[w] == b)
                                 || b.generation > if w in old(remoteSeen) then old(remoteSeen)[w] else 0)
      ensures o == Done ==> remote == old(remote)[w := b]
      ensures o != Done ==> remote == old(remote) && remoteSeen == old(remoteSeen)
    {
      if b.workspace != w || b.generation == 0 {
        return Invalid;
      }
      if !approved {
        return Refused;
      }
      if w in remote && remote[w] == b {
        assert remote == remote[w := b];
        return Done;
      }
      if b.generation <= (if w in remoteSeen then remoteSeen[w] else 0) {
        return Stale;
      }
      remote := remote[w := b];
      remoteSeen := remoteSeen[w := b.generation];
      return Done;
    }

    method UnbindRemoteWorkspace(w: WorkspaceId, g: Generation)
      modifies this`remote
      ensures remote == if w in old(remote) && old(remote)[w].generation == g then old(remote) - {w} else old(remote)
    {
      if w in remote && g == remote[w].generation {
        remote := remote - {w};
      }
    }
  }

  class TerminalService {
    var remoteThreads: map<ThreadId, Thread>

    constructor ()
      ensures remoteThreads == map[]
    {
      remoteThreads := map[];
    }

    method CountActive() returns (n: nat)
      ensures n == |ActiveThreads(remoteThreads)|
    {
      n := 0;
      var rest := remoteThreads.Keys;
      while rest != {}
        invariant rest <= remoteThreads.Keys && n == |ActiveThreads(remoteThreads) - rest|
        decreases |rest|
      {
        var th :| th in rest;
        CountOne(remoteThreads, rest, th);
        if remoteThreads[th].active {
          n := n + 1;
        }
        rest := rest - {th};
      }
      assert ActiveThreads(remoteThreads) - rest == ActiveThreads(remoteThreads);
    }

    method BindRemoteThread(th: ThreadId, w: WorkspaceId, ready: bool) returns (ok: bool)
      modifies this
      ensures ok <==> && ready && (th in old(remoteThreads) ==> old(remoteThreads)[th].workspace == w)
                      && (th in old(remoteThreads)
                          || |set x | x in old(remoteThreads) && old(remoteThreads)[x].active| < 500)
      ensures ok == AcceptsThread(old(remoteThreads), th, w, ready)
      ensures remoteThreads == if ok then old(remoteThreads)[th := Thread(w, true)] else old(remoteThreads)
    {
      if th in remoteThreads && remoteThreads[th].workspace != w {
        return false;
      }
      var active := CountActive();
      assert ActiveThreads(remoteThreads) == set x | x in remoteThreads && remoteThreads[x].active;
      if th !in remoteThreads && active >= MAX_ACTIVE_THREADS {
        return false;
      }
      if !ready {
        return false;
      }
      remoteThreads := remoteThreads[th := Thread(w, true)];
      return true;
    }

    method UnbindRemoteThread(th: ThreadId)
      modifies this
      ensures remoteThreads == if th !in old(remoteThreads) then old(remoteThreads)
                               else old(remoteThreads)[th := old(remoteThreads)[th].(active := false)]
      ensures remoteThreads == Deactivate(old(remoteThreads), {th})
    {
      if th in remoteThreads {
        remoteThreads := remoteThreads[th := remoteThreads[th].(active := false)];
      }
    }
  }

  lemma CountOne(threads: map<ThreadId, Thread>, rest: set<ThreadId>, th: ThreadId)
    requires th in rest && rest <= threads.Keys
    ensures |ActiveThreads(threads) - (rest - {th})|
            == |ActiveThreads(threads) - rest| + if threads[th].active then 1 else 0
  {
    var before, after := ActiveThreads(threads) - rest, ActiveThreads(threads) - (rest - {th});
    assert after == before + if threads[th].active then {th} else {};
  }

  lemma OneLess(doomed: set<WorkspaceId>, rest: set<WorkspaceId>, w: WorkspaceId)
    requires w in rest
    ensures doomed - (rest - {w}) == if w in doomed then doomed - rest + {w} else doomed - rest
  {}

  class Coordinator {
    const repository: RepositoryService
    const terminal: TerminalService
    var workspaces: map<WorkspaceId, Workspace>
    var tasks: map<ThreadId, Task>

    function View(): Views
      reads this, repository, terminal
    {
      Views(workspaces, tasks, repository.remote, repository.remoteSeen, terminal.remoteThreads)
    }

    constructor (repository: RepositoryService, terminal: TerminalService)
      ensures this.repository == repository && this.terminal == terminal && workspaces == map[] && tasks == map[]
    {
      this.repository, this.terminal := repository, terminal;
      workspaces, tasks := map[], map[];
    }

    /** The loop of unbindWorkspaceLocked over the tasks. */
    method UnbindTasks(w: WorkspaceId, g: Generation)
      requires w in workspaces && workspaces[w].generation == g
      modifies this`tasks, terminal
      ensures var gone := TasksOf(old(View()), {w});
              tasks == old(tasks) - gone && terminal.remoteThreads == Deactivate(old(terminal.remoteThreads), gone)
    {
      ghost var was := View();
      ghost var doomed := TasksOf(was, {w});
      var rest := tasks.Keys;
      DoomNone(was.tasks, was.threads, doomed, rest);
      while rest != {}
        invariant rest <= was.tasks.Keys && rest <= tasks.Keys
        invariant tasks == was.tasks - (doomed - rest)
        invariant terminal.remoteThreads == Deactivate(was.threads, doomed - rest)
        decreases |rest|
      {
        var th :| th in rest;
        DoomOne(was.tasks, was.threads, doomed, rest, th);
        if tasks[th].workspace == w && tasks[th].generation == g {
          terminal.UnbindRemoteThread(th);
          tasks := tasks - {th};
        }
        rest := rest - {th};
      }
      assert doomed - {} == doomed;
    }

    /** unbindWorkspaceLocked, with the generation that is bound. */
    method UnbindWorkspaceLocked(w: WorkspaceId)
      modifies this, repository, terminal
      ensures View() == if w in old(workspaces) then UnbindAll(old(View()), {w}) else old(View())
    {
      if w !in workspaces {
        return;
      }
      ghost var was := View();
      var g := workspaces[w].generation;
      UnbindTasks(w, g);
      repository.UnbindRemoteWorkspace(w, g);
      workspaces := workspaces - {w};
      assert BackendsOf(was, {w}) == if w in was.remote && was.remote[w].generation == g then {w} else {};
    }

    method UnbindTarget(target: TargetId)
      modifies this, repository, terminal
      ensures View() == AfterUnbindTarget(old(View()), target)
    {
      ghost var was := View();
      ghost var doomed := OnTarget(was, target);
      var rest := workspaces.Keys;
      UnbindNone(was);
      assert doomed - rest == {};
      while rest != {}
        invariant rest <= was.workspaces.Keys && rest <= workspaces.Keys
        invariant View() == UnbindAll(was, doomed - rest)
        decreases |rest|
      {
        var w :| w in rest;
        OneLess(doomed, rest, w);
        if workspaces[w].target == target {
          UnbindAlso(was, doomed - rest, w);
          UnbindWorkspaceLocked(w);
        }
        rest := rest - {w};
      }
      assert doomed - rest == doomed;
    }

    method BindWorkspaceBackend(w: WorkspaceId, target: TargetId, runtime: Runtime, b: Backend, ok: Approval)
      returns (o: Outcome)
      modifies this, repository, terminal
      ensures (o, View()) == AfterBindWorkspace(old(View()), w, target, runtime, b, ok)
    {
      if b.workspace != w || b.generation == 0 {
        return Invalid;
      }
      if !ok.coordinator {
        return Refused;
      }
      if w in workspaces {
        var current := workspaces[w];
        if current.target == target && current.generation == b.generation && current.runtime == runtime {
          return Done;
        }
        if current.generation >= b.generation {
          return Stale;
        }
        UnbindWorkspaceLocked(w);
      }
      o := repository.BindRemoteWorkspace(w, b, ok.repository);
      if o != Done {
        return;
      }
      workspaces := workspaces[w := Workspace(target, b.generation, runtime)];
    }

    method BindTask(th: ThreadId, w: WorkspaceId, lease: Lease, approved: bool, ready: bool) returns (o: Outcome)
      modifies this, terminal
      ensures (o, View()) == AfterBindTask(old(View()), th, w, lease, approved, ready)
    {
      if lease.workspace != w {
        return Invalid;
      }
      if !approved {
        return Refused;
      }
      if w !in workspaces || lease.generation != workspaces[w].generation {
        return Stale;
      }
      if th in tasks
        && (tasks[th].workspace != w || tasks[th].generation != workspaces[w].generation || tasks[th].lease != lease) {
        return Refused;
      }
      var accepted := terminal.BindRemoteThread(th, w, ready);
      if !accepted {
        return Refused;
      }
      tasks := tasks[th := Task(w, workspaces[w].generation, lease)];
      return Done;
    }

    method UnbindTask(th: ThreadId, lease: Lease)
      modifies this, terminal
      ensures View() == AfterUnbindTask(old(View()), th, lease)
    {
      if th !in tasks || tasks[th].lease != lease {
        return;
      }
      tasks := tasks - {th};
      terminal.UnbindRemoteThread(th);
    }
  }

  lemma DoomNone(tasks: map<ThreadId, Task>, threads: map<ThreadId, Thread>, doomed: set<ThreadId>, rest: set<ThreadId>)
    requires doomed <= rest
    ensures doomed - rest == {} && tasks - (doomed - rest) == tasks && Deactivate(threads, doomed - rest) == threads
  {
    assert doomed - rest == {};
  }

  lemma DoomOne(tasks: map<ThreadId, Task>, threads: map<ThreadId, Thread>, doomed: set<ThreadId>, rest: set<ThreadId>,
                th: ThreadId)
    requires th in rest
    ensures th !in doomed ==> doomed - (rest - {th}) == doomed - rest
    ensures th in doomed ==>
              Deactivate(Deactivate(threads, doomed - rest), {th}) == Deactivate(threads, doomed - (rest - {th}))
    ensures th in doomed ==> tasks - (doomed - rest) - {th} == tasks - (doomed - (rest - {th}))
  {}

  lemma UnbindNone(v: Views)
    ensures UnbindAll(v, {}) == v
  {
    assert TasksOf(v, {}) == {} && BackendsOf(v, {}) == {};
    assert Deactivate(v.threads, {}) == v.threads;
    assert v.workspaces - {} == v.workspaces && v.tasks - {} == v.tasks && v.remote - {} == v.remote;
  }

  /** Unbinding one workspace after others is unbinding them together. */
  lemma UnbindAlso(v: Views, ws: set<WorkspaceId>, w: WorkspaceId)
    requires w in v.workspaces && w !in ws
    ensures w in UnbindAll(v, ws).workspaces
    ensures UnbindAll(UnbindAll(v, ws), {w}) == UnbindAll(v, ws + {w})
  {
    var u := UnbindAll(v, ws);
    assert TasksOf(v, ws + {w}) == TasksOf(v, ws) + TasksOf(u, {w});
    assert BackendsOf(v, ws + {w}) == BackendsOf(v, ws) + BackendsOf(u, {w});
    var a, b := TasksOf(v, ws), TasksOf(u, {w});
    assert Deactivate(Deactivate(v.threads, a), b) == Deactivate(v.threads, a + b);
    assert v.tasks - a - b == v.tasks - (a + b);
    assert v.remote - BackendsOf(v, ws) - BackendsOf(u, {w}) == v.remote - (BackendsOf(v, ws) + BackendsOf(u, {w}));
    assert v.workspaces - ws - {w} == v.workspaces - (ws + {w});
  }
}

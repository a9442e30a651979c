/** The remote-helper protocol as a whole: one client generation and one server joined by two byte streams,
    any number of calls in flight, and a step for every critical section, every frame written and every frame read. */
module RemoteSession {
  import opened Bytes
  import opened RequestLane
  import T = RequestTable
  import opened Wrappers

  type Id = T.Id

  const MAX_PENDING := 64

  datatype Frame<M> = Frame(id: Id, msg: M)

  /** What the serve loop is doing. Refusing: it completes a request over the limit itself. Answering: it has done
      so, and has the refusal still to write. */
  datatype Loop = Idle | Notifying(id: Id) | Refusing(id: Id) | Answering(id: Id)

  /** Everything on either side that ends the transport. */
  datatype Fault = NoFault | UnknownReply(id: Id) | DuplicateRequest(id: Id) | UnknownControl(id: Id)
    | CreditRejected(id: Id) | NotActive(id: Id)

  /** A history variable. completed and times: all requests the server has completed, in order, and when. published:
      how many had been completed when the terminal frame of one was written. taken: those whose terminal frame the
      reader has taken, in order. readAt and peers: for each of these, how many identifiers had been given out and
      which calls were pending at that moment. */
  datatype Ledger = Ledger(completed: seq<Id>, times: seq<int>, published: map<Id, nat>, taken: seq<Id>,
                           readAt: map<Id, nat>, peers: map<Id, set<Id>>)

  /** When a frame of the up stream was written: how many identifiers had been given out, and whether its call
      was still pending. */
  datatype Stamp = Stamp(given: nat, awaited: bool)

  /** closing: the requests that are completed and whose terminal frame some goroutine has still to write. More
      history variables: sent, the stamps of the up stream; registered, what registerRequest has ever put
      into the table; and read, what each process has written. */
  datatype Session = Session(
    next: nat, pending: set<Id>, calls: map<Id, Call>, held: Option<Frame<DownMsg>>,
    up: seq<Frame<UpMsg>>, down: seq<Frame<DownMsg>>,
    table: T.Table, workers: map<Id, Worker>, closing: map<Id, DownMsg>, loop: Loop, now: int,
    fault: Fault, past: Ledger, sent: seq<Stamp>, registered: set<Id>, read: map<Id, Bytes>)

  /** After the handshake: the server has answered one ping, numbered 0. */
  function Start(now: int): Session {
    Session(0, {}, map[], None, [], [],
            T.AddTombstone(T.EMPTY, 0, now), map[], map[], Idle, now, NoFault,
            Ledger([0], [now], map[0 := 1], [0], map[0 := 0], map[0 := {}]), [], {0}, map[])
  }

  // ---------------------------------------------------------------- one request's share of the session

  function Share<M>(q: seq<Frame<M>>, id: Id): seq<M> {
    if |q| == 0 then [] else (if q[0].id == id then [q[0].msg] else []) + Share(q[1..], id)
  }

  function HeldFor(held: Option<Frame<DownMsg>>, id: Id): seq<DownMsg> {
    if held.Some? && held.value.id == id then [held.value.msg] else []
  }

  function View(s: Session, id: Id): Lane
    requires id in s.calls && id in s.read
  {
    Lane(s.calls[id], Share(s.up, id), HeldFor(s.held, id) + Share(s.down, id),
         if id in s.workers then Some(s.workers[id]) else None, s.loop == Notifying(id),
         if id in s.closing then Some(s.closing[id]) else None, s.read[id])
  }

  function Put(s: Session, id: Id, l: Lane): Session {
    s.(calls := s.calls[id := l.call],
       workers := if l.worker.Some? then s.workers[id := l.worker.value] else s.workers - {id},
       closing := if l.terminal.Some? then s.closing[id := l.terminal.value] else s.closing - {id},
       read := s.read[id := l.read])
  }

  // ---------------------------------------------------------------- steps

  datatype Act =
    | Allocate(op: Operation)
    | CallStep(id: Id, step: Step)
    | TakeFrame
    | ServeFrame
    | Signal
    | WorkStep(id: Id, step: Step)
    | WriteTerminal(id: Id)
    | Tick(at: int)

  predicate Known(s: Session, id: Id) { id in s.calls && id in s.read }

  predicate Can(s: Session, a: Act) {
    && s.fault == NoFault
    && match a
       case Allocate(_) => |s.pending| < MAX_PENDING
       case CallStep(id, step) =>
         && Known(s, id) && OfCall(step) && Enabled(View(s, id), step)
         && (step.Deliver? ==> s.held.Some? && s.held.value.id == id)
       case TakeFrame => s.held.None? && |s.down| > 0
       case ServeFrame => s.loop == Idle && |s.up| > 0
       case Signal => s.loop.Notifying?
       case WorkStep(id, step) => Known(s, id) && OfWorker(step) && Enabled(View(s, id), step)
       case WriteTerminal(id) => id in s.closing
       case Tick(at) => s.now <= at
  }

  function KindOf(op: Operation): T.Kind { if op == Bash then T.Process else T.Plain }

  function DoAllocate(s: Session, op: Operation): Session {
    var id := s.next + 1;
    s.(next := id, pending := s.pending + {id}, calls := s.calls[id := NewLane(op).call],
       read := s.read[id := []])
  }

  function DoCall(s: Session, id: Id, step: Step): Session
    requires Can(s, CallStep(id, step))
  {
    var l := View(s, id);
    var r := Apply(l, step);
    var p := Put(s, id, r);
    if Sends(step) then
      p.(up := s.up + [Frame(id, r.up[|l.up|])], sent := s.sent + [Stamp(s.next, id in s.pending)])
    else if step.Deliver? then p.(held := None)
    else p
  }

  /** The reader goroutine takes the next frame and looks its call up. */
  function DoTake(s: Session): Session
    requires Can(s, TakeFrame)
  {
    var f := s.down[0];
    if f.id !in s.pending then s.(fault := UnknownReply(f.id))
    else
      var t := s.(held := Some(f), down := s.down[1..]);
      if !Terminal(f.msg) then t
      else t.(pending := s.pending - {f.id},
              past := s.past.(taken := s.past.taken + [f.id], readAt := s.past.readAt[f.id := s.next],
                              peers := s.past.peers[f.id := s.pending - {f.id}]))
  }

  function PopUp(s: Session): Session
    requires |s.up| > 0
  {
    s.(up := s.up[1..], sent := if |s.sent| > 0 then s.sent[1..] else [])
  }

  function DoRegister(s: Session, id: Id, op: Operation): Session
    requires |s.up| > 0
  {
    match T.Register(s.table, id, KindOf(op), s.now)
    case Duplicate(_) => s.(fault := DuplicateRequest(id))
    case Registered(t, limited) =>
      PopUp(s).(table := t, registered := s.registered + {id}, workers := s.workers[id := NewWorker(op, limited)],
                loop := if limited then Refusing(id) else Idle)
  }

  function DoCancel(s: Session, id: Id): Session
    requires |s.up| > 0
  {
    match T.Find(s.table, id, s.now)
    case IsUnknown => s.(fault := UnknownControl(id))
    case IsCompleted => PopUp(s).(table := T.Prune(s.table, s.now))
    case IsActive =>
      if id !in s.workers then s.(fault := UnknownControl(id))
      else PopUp(s).(table := T.Prune(s.table, s.now), workers := s.workers[id := s.workers[id].(cancelled := true)])
  }

  function DoCredit(s: Session, id: Id, bytes: nat): Session
    requires |s.up| > 0
  {
    match T.Find(s.table, id, s.now)
    case IsUnknown => s.(fault := UnknownControl(id))
    case IsCompleted => PopUp(s).(table := T.Prune(s.table, s.now))
    case IsActive =>
      if id !in s.workers || s.workers[id].op != Bash || !CreditAccepted(s.workers[id], bytes)
      then s.(fault := CreditRejected(id))
      else PopUp(s).(table := T.Prune(s.table, s.now), loop := Notifying(id),
                     workers := s.workers[id := s.workers[id].(balance := s.workers[id].balance + bytes)])
  }

  /** The serve loop reads one frame: registerRequest, cancelRequest or handleClientEvent. */
  function DoServe(s: Session): Session
    requires Can(s, ServeFrame)
  {
    var id := s.up[0].id;
    match s.up[0].msg
    case Request(op) => DoRegister(s, id, op)
    case Cancel => DoCancel(s, id)
    case Credit(bytes) => DoCredit(s, id, bytes)
  }

  function DoSignal(s: Session): Session
    requires Can(s, Signal)
  {
    var id := s.loop.id;
    s.(loop := Idle, workers := if id in s.workers then s.workers[id := s.workers[id].(ready := true)] else s.workers)
  }

  /** One step of the goroutine that works on a request. Finish is completeRequest up to its unlock. */
  function DoWork(s: Session, id: Id, step: Step): Session
    requires Can(s, WorkStep(id, step))
  {
    var l := View(s, id);
    var r := Apply(l, step);
    var p := Put(s, id, r);
    var q := if Writes(step) then p.(down := s.down + [Frame(id, r.down[|l.down|])]) else p;
    if !step.Finish? then q
    else if id !in s.table.active then s.(fault := NotActive(id))
    else q.(table := T.Complete(s.table, id, s.now), loop := if s.loop == Refusing(id) then Answering(id) else s.loop,
            past := s.past.(completed := s.past.completed + [id], times := s.past.times + [s.now]))
  }

  /** The rest of completeRequest: the terminal frame is written. */
  function DoWriteTerminal(s: Session, id: Id): Session
    requires Can(s, WriteTerminal(id))
  {
    s.(down := s.down + [Frame(id, s.closing[id])], closing := s.closing - {id},
       loop := if s.loop == Answering(id) then Idle else s.loop,
       past := s.past.(published := s.past.published[id := |s.past.completed|]))
  }

  function Do(s: Session, a: Act): Session
    requires Can(s, a)
  {
    match a
    case Allocate(op) => DoAllocate(s, op)
    case CallStep(id, step) => DoCall(s, id, step)
    case TakeFrame => DoTake(s)
    case ServeFrame => DoServe(s)
    case Signal => DoSignal(s)
    case WorkStep(id, step) => DoWork(s, id, step)
    case WriteTerminal(id) => DoWriteTerminal(s, id)
    case Tick(at) => s.(now := at)
  }

  // ---------------------------------------------------------------- invariant

  ghost predicate IdsInv(s: Session) {
    && (forall id :: id in s.calls <==> 1 <= id <= s.next)
    && s.read.Keys == s.calls.Keys
    && s.workers.Keys <= s.calls.Keys && s.closing.Keys <= s.calls.Keys
    && s.pending <= s.calls.Keys
    && (forall k :: 0 <= k < |s.up| ==> s.up[k].id in s.calls)
    && (forall k :: 0 <= k < |s.down| ==> s.down[k].id in s.calls)
    && (s.held.Some? ==> s.held.value.id in s.calls)
    && (s.loop.Notifying? ==> s.loop.id in s.calls)
  }

  ghost predicate LanesInv(s: Session) {
    forall id :: Known(s, id) ==> LaneInv(View(s, id))
  }

  /** A call is pending exactly until the reader has taken its last frame. */
  ghost predicate PendingInv(s: Session) {
    && |s.pending| <= MAX_PENDING
    && (forall id :: Known(s, id) ==> (id in s.pending <==> StillDue(s, id)))
  }

  /** The last frame of the request is still to be decided, to be written, or to be taken. */
  predicate StillDue(s: Session, id: Id)
    requires Known(s, id)
  {
    !Done(View(s, id)) || Share(s.down, id) != [] || id in s.closing
  }

  ghost predicate TableInv(s: Session) {
    && T.Valid(s.table) && T.MadeBy(s.table, s.now)
    && s.table.active.Keys == s.workers.Keys
    && (forall id :: id in s.workers ==> (s.workers[id].work == Refused <==> s.loop == Refusing(id)))
    && (s.loop.Refusing? ==> s.loop.id in s.workers) && (s.loop.Answering? ==> s.loop.id in s.closing)
  }

  /** The table knows of each request it lists what kind it is. */
  ghost predicate KindsInv(active: map<Id, T.Kind>, workers: map<Id, Worker>) {
    forall id :: id in active && id in workers ==> active[id] == KindOf(workers[id].op)
  }

  function Terminals(q: seq<Frame<DownMsg>>): seq<Id> {
    if |q| == 0 then [] else (if Terminal(q[0].msg) then [q[0].id] else []) + Terminals(q[1..])
  }

  /** The completed requests are those the server has registered and no longer works on, and the ping. */
  ghost predicate FinishedInv(s: Session) {
    && (forall id :: Known(s, id) ==> (Done(View(s, id)) <==> id in s.past.completed))
    && (forall id :: id in s.past.completed ==> id == 0 || Known(s, id))
  }

  ghost predicate RegisteredInv(s: Session) {
    forall id :: id in s.registered <==> id in s.workers || id in s.past.completed
  }

  /** The requests whose terminal frame has been written, in order: those the reader has taken, then those still in
      the down stream. */
  function Written(p: Ledger, down: seq<Frame<DownMsg>>): seq<Id> { p.taken + Terminals(down) }

  ghost predicate Distinct(ids: seq<Id>) { forall i, j :: 0 <= i < j < |ids| ==> ids[i] != ids[j] }

  /** Each completed request has had its terminal frame written, once, or has it still to be written. */
  ghost predicate OrderInv(p: Ledger, down: seq<Frame<DownMsg>>, closing: set<Id>, now: int) {
    && |p.times| == |p.completed| && Distinct(p.completed) && Distinct(Written(p, down))
    && (forall i :: i in p.completed <==> i in Written(p, down) || i in closing)
    && (forall i :: i in closing ==> i !in Written(p, down))
    && (forall i :: i in p.readAt <==> i in p.taken)
    && (forall k :: 0 <= k < |p.completed| ==> p.times[k] <= now)
  }

  /** A terminal frame is written after its request has been completed, and the down stream keeps the order. */
  ghost predicate PublishedInv(p: Ledger, written: seq<Id>) {
    && (forall i :: i in p.published <==> i in written)
    && (forall k :: 0 <= k < |p.completed| && p.completed[k] in p.published ==> k < p.published[p.completed[k]])
    && (forall i :: i in p.published ==> p.published[i] <= |p.completed|)
    && (forall a, b :: 0 <= a < b < |written| ==> p.published[written[a]] <= p.published[written[b]])
  }

  /** The tombstone queue is the end of the list of completed requests. */
  ghost predicate QueueInv(q: seq<T.Tombstone>, p: Ledger) {
    && |q| <= |p.completed| == |p.times|
    && forall k :: |p.completed| - |q| <= k < |p.completed| ==>
         q[k - (|p.completed| - |q|)] == T.Tombstone(p.completed[k], p.times[k] + T.TOMBSTONE_TTL)
  }

  ghost predicate PeerOrYounger(p: Ledger, i: Id, j: Id)
    requires i in p.readAt && i in p.peers
  {
    j in p.peers[i] || j > p.readAt[i]
  }

  /** Whatever completes after the terminal frame of a taken call was written was pending when that was taken, or was
      allocated later. */
  ghost predicate PeersInv(p: Ledger, pending: set<Id>, next: nat) {
    && p.peers.Keys == p.readAt.Keys && p.readAt.Keys !! pending
    && (forall i :: i in p.readAt ==> |p.peers[i]| < MAX_PENDING && p.readAt[i] <= next)
    && (forall i, j :: i in p.readAt && j in pending ==> PeerOrYounger(p, i, j))
    && (forall i :: i in p.readAt ==> i in p.published)
    && (forall i, b :: i in p.readAt && p.published[i] <= b < |p.completed| ==> PeerOrYounger(p, i, p.completed[b]))
  }

  ghost predicate AllAtMost(ids: set<Id>, completed: seq<Id>, bound: nat) {
    && (forall id :: id in ids ==> id <= bound)
    && (forall k :: 0 <= k < |completed| ==> completed[k] <= bound)
  }

  /** When a frame of the up stream was written, every request registered by now had been given its identifier. */
  ghost predicate ControlsInv(p: Ledger, up: seq<Frame<UpMsg>>, sent: seq<Stamp>, next: nat, workers: set<Id>) {
    && |sent| == |up|
    && AllAtMost(workers, p.completed, next)
    && (forall k :: 0 <= k < |up| ==> up[k].id <= sent[k].given <= next)
    && (forall j, k :: 0 <= j <= k < |up| ==> sent[j].given <= sent[k].given)
    && (forall k :: 0 <= k < |up| ==> AllAtMost(workers, p.completed, sent[k].given))
    && (forall k :: 0 <= k < |up| && sent[k].awaited && up[k].id in p.readAt ==> sent[k].given <= p.readAt[up[k].id])
  }

  /** The request completed a tombstone's lifetime ago or longer, or has been followed by more completions than
      the table has room for. */
  predicate Forgettable(p: Ledger, c: nat, now: int)
    requires c < |p.completed| && |p.times| == |p.completed|
  {
    p.times[c] + T.TOMBSTONE_TTL <= now || |p.completed| - c > T.MAX_TOMBSTONES
  }

  /** The server still remembers every completed request that is not forgettable. */
  ghost predicate RetainedInv(p: Ledger, queued: nat, now: int) {
    && |p.times| == |p.completed|
    && forall c :: 0 <= c < |p.completed| - queued ==> Forgettable(p, c, now)
  }

  ghost predicate Inv(s: Session) {
    && IdsInv(s) && LanesInv(s) && PendingInv(s) && FinishedInv(s) && RegisteredInv(s) && TableInv(s)
    && KindsInv(s.table.active, s.workers)
    && OrderInv(s.past, s.down, s.closing.Keys, s.now) && PublishedInv(s.past, Written(s.past, s.down))
    && QueueInv(s.table.queue, s.past) && PeersInv(s.past, s.pending, s.next)
    && ControlsInv(s.past, s.up, s.sent, s.next, s.workers.Keys)
    && RetainedInv(s.past, |s.table.queue|, s.now)
  }

  // ---------------------------------------------------------------- shares of a queue

  lemma {:induction false} ShareAppend<M>(q: seq<Frame<M>>, f: Frame<M>, id: Id)
    ensures Share(q + [f], id) == Share(q, id) + if f.id == id then [f.msg] else []
  {
    var last := if f.id == id then [f.msg] else [];
    if |q| == 0 {
      assert q + [f] == [f] && [f][1..] == [];
      assert Share([f], id) == last + Share([], id);
    } else {
      assert (q + [f])[1..] == q[1..] + [f] && (q + [f])[0] == q[0];
      ShareAppend(q[1..], f, id);
      var first := if q[0].id == id then [q[0].msg] else [];
      assert first + (Share(q[1..], id) + last) == (first + Share(q[1..], id)) + last;
    }
  }

  lemma {:induction false} ShareIsMember<M>(q: seq<Frame<M>>, id: Id) returns (k: nat)
    requires Share(q, id) != []
    ensures k < |q| && q[k].id == id && q[k].msg == Share(q, id)[0]
  {
    if q[0].id == id {
      k := 0;
    } else {
      k := ShareIsMember(q[1..], id);
      k := k + 1;
    }
  }

  lemma {:induction false} MemberIsShared<M>(q: seq<Frame<M>>, k: nat)
    requires k < |q|
    ensures q[k].msg in Share(q, q[k].id)
  {
    if k > 0 {
      assert q[k] == q[1..][k - 1];
      MemberIsShared(q[1..], k - 1);
    }
  }

  lemma {:induction false} TerminalsAppend(q: seq<Frame<DownMsg>>, f: Frame<DownMsg>)
    ensures Terminals(q + [f]) == Terminals(q) + if Terminal(f.msg) then [f.id] else []
  {
    var t := if Terminal(f.msg) then [f.id] else [];
    if |q| == 0 {
      assert q + [f] == [f];
      assert Terminals([f][1..]) == [];
      assert t + [] == t && [] + t == t;
    } else {
      assert (q + [f])[1..] == q[1..] + [f] && (q + [f])[0] == q[0];
      TerminalsAppend(q[1..], f);
      var h := if Terminal(q[0].msg) then [q[0].id] else [];
      assert h + (Terminals(q[1..]) + t) == (h + Terminals(q[1..])) + t;
    }
  }

  lemma {:induction false} TerminalsAreShared(q: seq<Frame<DownMsg>>, id: Id)
    requires id in Terminals(q)
    ensures Share(q, id) != []
  {
    if !(Terminal(q[0].msg) && q[0].id == id) {
      TerminalsAreShared(q[1..], id);
    }
  }

  // ---------------------------------------------------------------- how steps show in the views

  ghost predicate SameViews(s: Session, r: Session) {
    && r.calls.Keys == s.calls.Keys && r.read.Keys == s.read.Keys
    && forall id :: Known(s, id) ==> View(r, id) == View(s, id)
  }

  /** Exactly one request takes a step. */
  ghost predicate OneMoves(s: Session, r: Session, id: Id, step: Step) {
    && r.calls.Keys == s.calls.Keys && r.read.Keys == s.read.Keys
    && Known(s, id) && Enabled(View(s, id), step) && Tolerable(View(s, id), step)
    && View(r, id) == Apply(View(s, id), step)
    && forall j :: Known(s, j) && j != id ==> View(r, j) == View(s, j)
  }

  lemma OneMovesKeepsLanes(s: Session, r: Session, id: Id, step: Step)
    requires LanesInv(s) && OneMoves(s, r, id, step)
    ensures LanesInv(r)
  {
    StepKeepsLane(View(s, id), step);
  }

  /** r is s with one request replaced by l; the queues may have changed for that request alone. */
  lemma PutViews(s: Session, r: Session, id: Id, l: Lane)
    requires Known(s, id)
    requires r.calls == s.calls[id := l.call] && r.read == s.read[id := l.read]
    requires r.workers == if l.worker.Some? then s.workers[id := l.worker.value] else s.workers - {id}
    requires r.closing == if l.terminal.Some? then s.closing[id := l.terminal.value] else s.closing - {id}
    requires Share(r.up, id) == l.up && HeldFor(r.held, id) + Share(r.down, id) == l.down
             && l.notifying == (r.loop == Notifying(id))
    requires forall j :: j != id ==>
               && Share(r.up, j) == Share(s.up, j) && Share(r.down, j) == Share(s.down, j)
               && HeldFor(r.held, j) == HeldFor(s.held, j) && (r.loop == Notifying(j) <==> s.loop == Notifying(j))
    ensures r.calls.Keys == s.calls.Keys && r.read.Keys == s.read.Keys
    ensures View(r, id) == l
    ensures forall j :: Known(s, j) && j != id ==> View(r, j) == View(s, j)
  {}

  lemma CallViews(s: Session, id: Id, step: Step)
    requires Can(s, CallStep(id, step))
    ensures OneMoves(s, DoCall(s, id, step), id, step)
  {
    var l, r := View(s, id), DoCall(s, id, step);
    var l' := Apply(l, step);
    CallTouches(l, step);
    if Sends(step) {
      forall j ensures Share(r.up, j) == Share(s.up, j) + if j == id then [l'.up[|l.up|]] else [] {
        ShareAppend(s.up, Frame(id, l'.up[|l.up|]), j);
      }
    }
    assert step.Deliver? ==> l'.down == HeldFor(None, id) + Share(s.down, id);
    PutViews(s, r, id, l');
  }

  lemma WorkViews(s: Session, id: Id, step: Step)
    requires Can(s, WorkStep(id, step)) && DoWork(s, id, step).fault == NoFault
    ensures OneMoves(s, DoWork(s, id, step), id, step)
  {
    var l, r := View(s, id), DoWork(s, id, step);
    var l' := Apply(l, step);
    WorkTouches(l, step);
    if Writes(step) {
      WriteShares(s, r, id, l, l'.down[|l.down|]);
    }
    PutViews(s, r, id, l');
  }

  lemma WriteShares(s: Session, r: Session, id: Id, l: Lane, m: DownMsg)
    requires Known(s, id) && l == View(s, id) && r.held == s.held && r.down == s.down + [Frame(id, m)]
    ensures forall j :: Share(r.down, j) == Share(s.down, j) + if j == id then [m] else []
    ensures HeldFor(r.held, id) + Share(r.down, id) == l.down + [m]
  {
    forall j ensures Share(r.down, j) == Share(s.down, j) + if j == id then [m] else [] {
      ShareAppend(s.down, Frame(id, m), j);
    }
  }

  /** What reading the front frame means for its request. */
  function ServeStep(s: Session): Step
    requires |s.up| > 0
  {
    var id := s.up[0].id;
    match s.up[0].msg
    case Request(op) => (match T.Register(s.table, id, KindOf(op), s.now)
                         case Registered(_, limited) => ServeRequest(limited)
                         case Duplicate(_) => ServeRequest(false))
    case Cancel => if id in s.workers then ServeCancel else ServeIgnored
    case Credit(_) => if id in s.workers then ServeCredit else ServeIgnored
  }

  lemma ServeTouches(l: Lane, step: Step)
    requires Enabled(l, step) && (step.ServeRequest? || step.ServeCancel? || step.ServeCredit? || step.ServeIgnored?)
    ensures var r := Apply(l, step);
            && r.call == l.call && r.down == l.down && r.read == l.read && |l.up| > 0 && r.up == l.up[1..]
            && r.notifying == (l.notifying || step.ServeCredit?) && r.terminal == l.terminal
  {}

  ghost predicate Puts(s: Session, r: Session, id: Id, l: Lane, loop: Loop) {
    && |s.up| > 0 && r.up == s.up[1..] && r.down == s.down && r.held == s.held
    && r.calls == s.calls[id := l.call] && r.read == s.read[id := l.read]
    && r.workers == (if l.worker.Some? then s.workers[id := l.worker.value] else s.workers - {id})
    && r.closing == (if l.terminal.Some? then s.closing[id := l.terminal.value] else s.closing - {id})
    && r.loop == loop
  }

  function LoopAfter(s: Session): Loop
    requires |s.up| > 0
  {
    if ServeStep(s) == ServeRequest(true) then Refusing(s.up[0].id)
    else if ServeStep(s).ServeCredit? then Notifying(s.up[0].id) else Idle
  }

  lemma RequestPuts(s: Session)
    requires TableInv(s) && Can(s, ServeFrame) && DoServe(s).fault == NoFault && s.up[0].msg.Request?
    requires Known(s, s.up[0].id) && Enabled(View(s, s.up[0].id), ServeStep(s))
    ensures Puts(s, DoServe(s), s.up[0].id, Apply(View(s, s.up[0].id), ServeStep(s)), LoopAfter(s))
  {
    var id := s.up[0].id;
    assert View(s, id).up[0] == s.up[0].msg;
    SameClosing(s, id);
  }

  lemma SameClosing(s: Session, id: Id)
    requires Known(s, id)
    ensures var t := View(s, id).terminal;
            s.closing == if t.Some? then s.closing[id := t.value] else s.closing - {id}
  {}

  lemma CancelPuts(s: Session)
    requires TableInv(s) && Can(s, ServeFrame) && DoServe(s).fault == NoFault && s.up[0].msg.Cancel?
    requires Known(s, s.up[0].id) && Enabled(View(s, s.up[0].id), ServeStep(s))
    ensures Puts(s, DoServe(s), s.up[0].id, Apply(View(s, s.up[0].id), ServeStep(s)), LoopAfter(s))
  {
    var id := s.up[0].id;
    T.FindIs(s.table, id, s.now);
    SameClosing(s, id);
    assert id !in s.workers ==> s.workers - {id} == s.workers;
  }

  lemma CreditPuts(s: Session)
    requires TableInv(s) && Can(s, ServeFrame) && DoServe(s).fault == NoFault && s.up[0].msg.Credit?
    requires Known(s, s.up[0].id) && Enabled(View(s, s.up[0].id), ServeStep(s))
    ensures Puts(s, DoServe(s), s.up[0].id, Apply(View(s, s.up[0].id), ServeStep(s)), LoopAfter(s))
  {
    var id := s.up[0].id;
    T.FindIs(s.table, id, s.now);
    SameClosing(s, id);
    assert View(s, id).up[0] == s.up[0].msg;
    assert id !in s.workers ==> s.workers - {id} == s.workers;
  }

  lemma ServePuts(s: Session)
    requires TableInv(s) && Can(s, ServeFrame) && DoServe(s).fault == NoFault
    requires Known(s, s.up[0].id) && Enabled(View(s, s.up[0].id), ServeStep(s))
    ensures Puts(s, DoServe(s), s.up[0].id, Apply(View(s, s.up[0].id), ServeStep(s)), LoopAfter(s))
  {
    if s.up[0].msg.Request? { RequestPuts(s); } else if s.up[0].msg.Cancel? { CancelPuts(s); } else { CreditPuts(s); }
  }

  /** Reading the front frame is a step of its request. */
  lemma PutsMoves(s: Session, r: Session, id: Id, step: Step, loop: Loop)
    requires Known(s, id) && |s.up| > 0 && s.up[0].id == id && s.loop == Idle
    requires Enabled(View(s, id), step) && Tolerable(View(s, id), step)
    requires step.ServeRequest? || step.ServeCancel? || step.ServeCredit? || step.ServeIgnored?
    requires Puts(s, r, id, Apply(View(s, id), step), loop)
    requires loop.Notifying? <==> step.ServeCredit?
    requires loop.Notifying? ==> loop.id == id
    ensures OneMoves(s, r, id, step)
  {
    var l := View(s, id);
    ServeTouches(l, step);
    assert l.up == [s.up[0].msg] + Share(s.up[1..], id);
    assert Share(r.up, id) == l.up[1..];
    PutViews(s, r, id, Apply(l, step));
  }

  lemma ServeViews(s: Session)
    requires TableInv(s) && Can(s, ServeFrame) && DoServe(s).fault == NoFault
    requires Known(s, s.up[0].id) && Enabled(View(s, s.up[0].id), ServeStep(s))
             && Tolerable(View(s, s.up[0].id), ServeStep(s))
    ensures OneMoves(s, DoServe(s), s.up[0].id, ServeStep(s))
  {
    ServePuts(s);
    PutsMoves(s, DoServe(s), s.up[0].id, ServeStep(s), LoopAfter(s));
  }

  lemma SignalViews(s: Session)
    requires Can(s, Signal) && Known(s, s.loop.id)
    ensures OneMoves(s, DoSignal(s), s.loop.id, Notify)
  {
    assert View(DoSignal(s), s.loop.id) == Apply(View(s, s.loop.id), Notify);
  }

  lemma TakeViews(s: Session)
    requires Can(s, TakeFrame)
    ensures SameViews(s, DoTake(s))
  {
    var r := DoTake(s);
    forall id | Known(s, id) ensures View(r, id) == View(s, id) {
      assert [] + Share(s.down, id) == Share(s.down, id);
    }
  }

  // ---------------------------------------------------------------- time passes

  lemma LaterRetained(p: Ledger, queued: nat, now: int, later: int)
    requires RetainedInv(p, queued, now) && now <= later
    ensures RetainedInv(p, queued, later)
  {
    forall c | 0 <= c < |p.completed| - queued ensures Forgettable(p, c, later) {
      assert Forgettable(p, c, now);
    }
  }

  lemma TickKeepsLocal(s: Session, at: int)
    requires IdsInv(s) && LanesInv(s) && PendingInv(s) && FinishedInv(s) && RegisteredInv(s)
    ensures var r := s.(now := at); IdsInv(r) && LanesInv(r) && PendingInv(r) && FinishedInv(r) && RegisteredInv(r)
  {
    assert SameViews(s, s.(now := at));
  }

  lemma TickKeepsTable(s: Session, at: int)
    requires TableInv(s) && s.now <= at
    ensures TableInv(s.(now := at))
  {
    T.MadeByLater(s.table, s.now, at);
  }

  lemma TickKeepsOrder(p: Ledger, down: seq<Frame<DownMsg>>, closing: set<Id>, now: int, later: int)
    requires OrderInv(p, down, closing, now) && now <= later
    ensures OrderInv(p, down, closing, later)
  {}

  lemma TickKeeps(s: Session, at: int)
    requires Inv(s) && Can(s, Tick(at))
    ensures Inv(Do(s, Tick(at)))
  {
    TickKeepsLocal(s, at);
    TickKeepsTable(s, at);
    TickKeepsOrder(s.past, s.down, s.closing.Keys, s.now, at);
    LaterRetained(s.past, |s.table.queue|, s.now, at);
  }

  // ---------------------------------------------------------------- a call starts

  lemma {:induction false} ShareOfStranger<M>(q: seq<Frame<M>>, id: Id)
    requires forall k :: 0 <= k < |q| ==> q[k].id != id
    ensures Share(q, id) == []
  {
    if |q| > 0 { ShareOfStranger(q[1..], id); }
  }

  lemma AllocateViews(s: Session, op: Operation)
    requires IdsInv(s)
    ensures var r := DoAllocate(s, op);
            && Known(r, s.next + 1) && View(r, s.next + 1) == NewLane(op)
            && forall id :: Known(s, id) ==> Known(r, id) && id != s.next + 1 && View(r, id) == View(s, id)
  {
    ShareOfStranger(s.up, s.next + 1);
    ShareOfStranger(s.down, s.next + 1);
    assert s.next + 1 !in s.calls;
    assert View(DoAllocate(s, op), s.next + 1) == NewLane(op);
  }

  lemma AllocateKeepsIds(s: Session, op: Operation)
    requires IdsInv(s)
    ensures IdsInv(DoAllocate(s, op))
  {}

  lemma AllocateKeepsLanes(s: Session, op: Operation)
    requires IdsInv(s) && LanesInv(s)
    ensures LanesInv(DoAllocate(s, op))
  {
    AllocateViews(s, op);
    NewLaneInv(op);
    forall id | Known(DoAllocate(s, op), id) ensures LaneInv(View(DoAllocate(s, op), id)) {
      if id != s.next + 1 { assert Known(s, id); }
    }
  }

  lemma AllocateKeepsFinished(s: Session, op: Operation)
    requires IdsInv(s) && FinishedInv(s)
    ensures FinishedInv(DoAllocate(s, op))
  {
    AllocateViews(s, op);
    NewLaneInv(op);
  }

  lemma AllocateKeepsPending(s: Session, op: Operation)
    requires IdsInv(s) && PendingInv(s) && Can(s, Allocate(op))
    ensures PendingInv(DoAllocate(s, op))
  {
    var r := DoAllocate(s, op);
    AllocateViews(s, op);
    forall id | Known(r, id) ensures id in r.pending <==> StillDue(r, id) {
      if id != s.next + 1 { assert Known(s, id) && (id in s.pending <==> StillDue(s, id)); }
    }
  }

  lemma AllocateKeepsPeers(s: Session, op: Operation)
    requires PeersInv(s.past, s.pending, s.next) && s.next + 1 !in s.past.readAt
    ensures var r := DoAllocate(s, op); PeersInv(r.past, r.pending, r.next)
  {}

  lemma AllocateKeepsControls(p: Ledger, up: seq<Frame<UpMsg>>, sent: seq<Stamp>, next: nat, workers: set<Id>)
    requires ControlsInv(p, up, sent, next, workers)
    ensures ControlsInv(p, up, sent, next + 1, workers)
  {}

  lemma AllocateKeeps(s: Session, op: Operation)
    requires Inv(s) && Can(s, Allocate(op))
    ensures Inv(Do(s, Allocate(op)))
  {
    AllocateKeepsIds(s, op);
    AllocateKeepsLanes(s, op);
    AllocateKeepsFinished(s, op);
    assert s.next + 1 !in s.past.readAt;
    AllocateKeepsPending(s, op);
    AllocateKeepsPeers(s, op);
    AllocateKeepsControls(s.past, s.up, s.sent, s.next, s.workers.Keys);
    AllocateKeepsTable(s, op);
  }

  lemma AllocateKeepsTable(s: Session, op: Operation)
    requires TableInv(s) && RegisteredInv(s)
    ensures TableInv(DoAllocate(s, op)) && RegisteredInv(DoAllocate(s, op))
  {}

  // ---------------------------------------------------------------- one request moves

  lemma InAppended(c: seq<Id>, id: Id)
    ensures forall j :: j in c + [id] <==> j in c || j == id
  {}

  lemma MoveKeepsFinished(s: Session, r: Session, id: Id, step: Step)
    requires LanesInv(s) && FinishedInv(s) && OneMoves(s, r, id, step)
    requires r.past.completed == if step.Finish? then s.past.completed + [id] else s.past.completed
    ensures FinishedInv(r)
  {
    DoneChange(View(s, id), step);
    InAppended(s.past.completed, id);
    assert Known(s, id) && Known(r, id) && (Done(View(r, id)) <==> id in r.past.completed);
    forall j | Known(r, j) && j != id ensures Done(View(r, j)) <==> j in r.past.completed {
      assert Known(s, j) && View(r, j) == View(s, j);
    }
  }

  lemma MoveKeepsPending(s: Session, r: Session, id: Id, step: Step)
    requires LanesInv(s) && PendingInv(s) && OneMoves(s, r, id, step)
    requires r.pending == s.pending && r.closing == s.closing && !step.Finish?
    requires forall j :: Share(r.down, j) == [] <==> Share(s.down, j) == []
    ensures PendingInv(r)
  {
    DoneChange(View(s, id), step);
    forall j | Known(r, j) ensures j in r.pending <==> StillDue(r, j) {
      assert Known(s, j) && (j in s.pending <==> StillDue(s, j));
    }
  }

  lemma SendKeepsControls(s: Session, f: Frame<UpMsg>)
    requires ControlsInv(s.past, s.up, s.sent, s.next, s.workers.Keys) && f.id <= s.next
    requires s.past.readAt.Keys !! s.pending
    ensures ControlsInv(s.past, s.up + [f], s.sent + [Stamp(s.next, f.id in s.pending)], s.next, s.workers.Keys)
  {}

  lemma CallChanges(s: Session, id: Id, step: Step)
    requires Can(s, CallStep(id, step))
    ensures var r := DoCall(s, id, step);
            && r.workers == s.workers && r.table == s.table && r.past == s.past && r.pending == s.pending
            && r.next == s.next && r.registered == s.registered && r.loop == s.loop && r.now == s.now
            && r.down == s.down && r.closing == s.closing && r.fault == NoFault
            && (r.held == s.held || r.held == None)
            && (if Sends(step) then |r.up| == |s.up| + 1 && r.up == s.up + [r.up[|s.up|]] && r.up[|s.up|].id == id
                  && r.sent == s.sent + [Stamp(s.next, id in s.pending)]
                else r.up == s.up && r.sent == s.sent)
  {
    CallTouches(View(s, id), step);
    assert DoCall(s, id, step).workers == s.workers;
    SameClosing(s, id);
  }

  lemma CallKeeps(s: Session, id: Id, step: Step)
    requires Inv(s) && Can(s, CallStep(id, step))
    ensures Inv(Do(s, CallStep(id, step)))
  {
    var r := DoCall(s, id, step);
    CallViews(s, id, step);
    CallChanges(s, id, step);
    OneMovesKeepsLanes(s, r, id, step);
    MoveKeepsFinished(s, r, id, step);
    MoveKeepsPending(s, r, id, step);
    if Sends(step) {
      SendKeepsControls(s, r.up[|s.up|]);
    }
    CallKeepsIds(s, id, step);
  }

  lemma CallKeepsIds(s: Session, id: Id, step: Step)
    requires IdsInv(s) && Can(s, CallStep(id, step))
    ensures IdsInv(DoCall(s, id, step))
  {
    CallViews(s, id, step);
    CallChanges(s, id, step);
  }

  // ---------------------------------------------------------------- the reader takes a frame

  /** The reader never meets an identifier it does not know. */
  lemma TakeFindsCall(s: Session)
    requires IdsInv(s) && PendingInv(s) && Can(s, TakeFrame)
    ensures s.down[0].id in s.pending && Known(s, s.down[0].id)
    ensures Share(s.down, s.down[0].id) == [s.down[0].msg] + Share(s.down[1..], s.down[0].id)
    ensures forall j :: j != s.down[0].id ==> Share(s.down, j) == Share(s.down[1..], j)
  {
    forall j | j != s.down[0].id ensures Share(s.down, j) == Share(s.down[1..], j) {
      assert [] + Share(s.down[1..], j) == Share(s.down[1..], j);
    }
  }

  /** The terminal frame of a request is the last of its frames in the down stream, and no earlier one is terminal. */
  lemma TakenFrameIsLastIffTerminal(s: Session)
    requires Inv(s) && Can(s, TakeFrame)
    ensures var f := s.down[0];
            && (Terminal(f.msg) ==> Done(View(s, f.id)) && Share(s.down[1..], f.id) == [] && f.id !in s.closing)
            && (!Terminal(f.msg) && Done(View(s, f.id)) ==> Share(s.down[1..], f.id) != [] || f.id in s.closing)
  {
    var f := s.down[0];
    TakeFindsCall(s);
    FrontIsLastIffTerminal(View(s, f.id), f.msg, Share(s.down[1..], f.id));
  }

  lemma TakeKeepsPending(s: Session)
    requires Inv(s) && Can(s, TakeFrame)
    ensures PendingInv(DoTake(s))
  {
    TakeFindsCall(s);
    TakenFrameIsLastIffTerminal(s);
    TakeViews(s);
    TakenPending(s);
  }

  lemma TakenPending(s: Session)
    requires PendingInv(s) && Can(s, TakeFrame) && s.down[0].id in s.pending && SameViews(s, DoTake(s))
    requires forall j :: j != s.down[0].id ==> Share(s.down, j) == Share(s.down[1..], j)
    requires Known(s, s.down[0].id)
    requires var f := s.down[0];
             Terminal(f.msg) <==> Done(View(s, f.id)) && Share(s.down[1..], f.id) == [] && f.id !in s.closing
    ensures PendingInv(DoTake(s))
  {
    var r := DoTake(s);
    assert r.pending <= s.pending;
    T.SubsetSize(r.pending, s.pending);
    forall id | Known(r, id) ensures id in r.pending <==> StillDue(r, id) {
      assert Known(s, id) && (id in s.pending <==> StillDue(s, id));
    }
  }

  lemma WrittenIsTaken(p: Ledger, r: Ledger, down: seq<Frame<DownMsg>>)
    requires |down| > 0 && r.taken == if Terminal(down[0].msg) then p.taken + [down[0].id] else p.taken
    ensures Written(r, down[1..]) == Written(p, down)
  {}

  lemma TakenOrder(p: Ledger, r: Ledger, down: seq<Frame<DownMsg>>, closing: set<Id>, now: int)
    requires OrderInv(p, down, closing, now) && |down| > 0
    requires r.completed == p.completed && r.times == p.times
    requires if !Terminal(down[0].msg) then r.taken == p.taken && r.readAt == p.readAt
             else r.taken == p.taken + [down[0].id] && r.readAt.Keys == p.readAt.Keys + {down[0].id}
    ensures OrderInv(r, down[1..], closing, now)
  {
    WrittenIsTaken(p, r, down);
  }

  lemma TakenPublished(p: Ledger, r: Ledger, down: seq<Frame<DownMsg>>)
    requires PublishedInv(p, Written(p, down)) && |down| > 0 && r.completed == p.completed && r.published == p.published
    requires r.taken == if Terminal(down[0].msg) then p.taken + [down[0].id] else p.taken
    ensures PublishedInv(r, Written(r, down[1..]))
  {
    WrittenIsTaken(p, r, down);
  }

  lemma TakeChanges(s: Session)
    requires Can(s, TakeFrame) && s.down[0].id in s.pending
    ensures var r, f := DoTake(s), s.down[0];
            && r.down == s.down[1..] && r.closing == s.closing && r.table == s.table && r.now == s.now
            && r.past.completed == s.past.completed && r.past.times == s.past.times
            && r.past.published == s.past.published
            && if !Terminal(f.msg) then r.past == s.past
               else r.past.taken == s.past.taken + [f.id] && r.past.readAt == s.past.readAt[f.id := s.next]
  {}

  lemma TakeKeepsOrder(s: Session)
    requires OrderInv(s.past, s.down, s.closing.Keys, s.now) && Can(s, TakeFrame) && s.down[0].id in s.pending
    ensures var r := DoTake(s); OrderInv(r.past, r.down, r.closing.Keys, r.now)
  {
    TakeChanges(s);
    TakenOrder(s.past, DoTake(s).past, s.down, s.closing.Keys, s.now);
  }

  lemma TakeKeepsPublished(s: Session)
    requires PublishedInv(s.past, Written(s.past, s.down)) && QueueInv(s.table.queue, s.past)
    requires Can(s, TakeFrame) && s.down[0].id in s.pending
    ensures var r := DoTake(s); PublishedInv(r.past, Written(r.past, r.down)) && QueueInv(r.table.queue, r.past)
  {
    TakeChanges(s);
    TakenPublished(s.past, DoTake(s).past, s.down);
  }

  lemma FrontIsWritten(p: Ledger, down: seq<Frame<DownMsg>>, closing: set<Id>, now: int)
    requires OrderInv(p, down, closing, now) && |down| > 0 && Terminal(down[0].msg)
    ensures Terminals(down)[0] == down[0].id && down[0].id in Written(p, down) && down[0].id !in p.readAt
  {
    var w := Written(p, down);
    assert w[|p.taken|] == down[0].id;
    forall k | 0 <= k < |p.taken| ensures p.taken[k] != down[0].id { assert w[k] == p.taken[k]; }
  }

  /** A completed request whose terminal frame the reader has not taken is pending. */
  lemma UntakenArePending(s: Session, i: Id)
    requires Inv(s) && i in s.past.completed && i !in s.past.readAt
    ensures i in s.pending
  {
    if i in s.closing {
      assert Known(s, i);
    } else {
      assert i in Terminals(s.down);
      TerminalsAreShared(s.down, i);
      var k := ShareIsMember(s.down, i);
      assert Known(s, i);
    }
  }

  lemma TakenWrittenBefore(p: Ledger, down: seq<Frame<DownMsg>>, i: Id, j: Id)
    requires PublishedInv(p, Written(p, down)) && i in Terminals(down) && j in p.taken
    ensures p.published[j] <= p.published[i]
  {
    var w := Written(p, down);
    var a :| 0 <= a < |p.taken| && p.taken[a] == j;
    var b :| 0 <= b < |Terminals(down)| && Terminals(down)[b] == i;
    assert w[a] == j && w[|p.taken| + b] == i;
  }

  /** What completes after a terminal frame was written cannot be taken before that frame is. */
  lemma LaterIsPending(s: Session, i: Id, b: nat)
    requires Inv(s) && i in s.past.published && i !in s.past.readAt && s.past.published[i] <= b < |s.past.completed|
    ensures s.past.completed[b] in s.pending && s.past.completed[b] != i
  {
    var j := s.past.completed[b];
    if j in s.past.readAt {
      TakenWrittenBefore(s.past, s.down, i, j);
      assert false;
    }
    UntakenArePending(s, j);
  }

  lemma AllLaterArePending(s: Session, i: Id)
    requires Inv(s) && i in s.past.published && i !in s.past.readAt
    ensures forall b :: s.past.published[i] <= b < |s.past.completed| ==>
                          s.past.completed[b] in s.pending && s.past.completed[b] != i
    ensures i in s.pending && s.past.published[i] <= |s.past.completed| && Distinct(s.past.completed)
  {
    forall b | s.past.published[i] <= b < |s.past.completed|
      ensures s.past.completed[b] in s.pending && s.past.completed[b] != i {
      LaterIsPending(s, i, b);
    }
    UntakenArePending(s, i);
  }

  lemma TakenPeers(p: Ledger, r: Ledger, pending: set<Id>, next: nat, id: Id)
    requires PeersInv(p, pending, next) && |pending| <= MAX_PENDING && id in pending && id in p.published
    requires r.completed == p.completed && r.published == p.published
    requires r.readAt == p.readAt[id := next] && r.peers == p.peers[id := pending - {id}]
    requires forall b :: p.published[id] <= b < |p.completed| ==> p.completed[b] in pending && p.completed[b] != id
    ensures PeersInv(r, pending - {id}, next)
  {
    assert |pending - {id}| == |pending| - 1;
    forall i, b | i in r.readAt && r.published[i] <= b < |r.completed| ensures PeerOrYounger(r, i, r.completed[b]) {
      if i != id { assert PeerOrYounger(p, i, p.completed[b]); }
    }
    forall i, j | i in r.readAt && j in pending - {id} ensures PeerOrYounger(r, i, j) {
      if i != id { assert PeerOrYounger(p, i, j); }
    }
  }

  lemma TakenIsPublished(s: Session)
    requires Inv(s) && Can(s, TakeFrame) && Terminal(s.down[0].msg)
    ensures s.down[0].id in s.past.published && s.down[0].id !in s.past.readAt
  {
    FrontIsWritten(s.past, s.down, s.closing.Keys, s.now);
  }

  lemma TakeKeepsPeers(s: Session)
    requires Inv(s) && Can(s, TakeFrame) && Terminal(s.down[0].msg)
    ensures var r := DoTake(s); PeersInv(r.past, r.pending, r.next)
  {
    TakeFindsCall(s);
    TakenIsPublished(s);
    AllLaterArePending(s, s.down[0].id);
    TakenPeers(s.past, DoTake(s).past, s.pending, s.next, s.down[0].id);
  }

  lemma TakeKeepsControls(s: Session)
    requires Inv(s) && Can(s, TakeFrame) && Terminal(s.down[0].msg)
    ensures var r := DoTake(s);
            && ControlsInv(r.past, r.up, r.sent, r.next, r.workers.Keys)
            && RetainedInv(r.past, |r.table.queue|, r.now)
  {
    TakeFindsCall(s);
    TakenKeepsControls(s.past, DoTake(s).past, s.up, s.sent, s.next, s.workers.Keys, s.down[0].id);
    TakenKeepsRetained(s.past, DoTake(s).past, |s.table.queue|, s.now);
  }

  lemma TakenKeepsControls(p: Ledger, r: Ledger, up: seq<Frame<UpMsg>>, sent: seq<Stamp>, next: nat, workers: set<Id>,
                           id: Id)
    requires ControlsInv(p, up, sent, next, workers) && r.completed == p.completed && r.readAt == p.readAt[id := next]
    ensures ControlsInv(r, up, sent, next, workers)
  {}

  lemma TakenKeepsRetained(p: Ledger, r: Ledger, queued: nat, now: int)
    requires RetainedInv(p, queued, now) && r.completed == p.completed && r.times == p.times
    ensures RetainedInv(r, queued, now)
  {
    forall c | 0 <= c < |r.completed| - queued ensures Forgettable(r, c, now) {
      assert Forgettable(p, c, now);
    }
  }

  lemma TakeKeeps(s: Session)
    requires Inv(s) && Can(s, TakeFrame)
    ensures Inv(Do(s, TakeFrame))
  {
    TakeFindsCall(s);
    TakeViews(s);
    TakeKeepsPending(s);
    TakeKeepsOrder(s);
    TakeKeepsPublished(s);
    if Terminal(s.down[0].msg) {
      TakeKeepsPeers(s);
      TakeKeepsControls(s);
    }
    TakeKeepsLocal(s);
  }

  lemma TakeKeepsLocal(s: Session)
    requires IdsInv(s) && LanesInv(s) && FinishedInv(s) && TableInv(s) && Can(s, TakeFrame) && s.down[0].id in s.pending
    ensures var r := DoTake(s); IdsInv(r) && LanesInv(r) && FinishedInv(r) && TableInv(r)
  {
    TakeViews(s);
  }

  // ---------------------------------------------------------------- the serve loop reads a frame

  lemma ActiveArePending(s: Session)
    requires Inv(s)
    ensures s.workers.Keys <= s.pending
  {
    forall id | id in s.workers ensures id in s.pending {
      assert Known(s, id) && View(s, id).worker.Some?;
    }
  }

  lemma TombstonesAreCompleted(s: Session, id: Id)
    requires T.Valid(s.table) && QueueInv(s.table.queue, s.past) && id in s.table.tombstones
    ensures exists k :: |s.past.completed| - |s.table.queue| <= k < |s.past.completed| && s.past.completed[k] == id
                     && s.table.tombstones[id] == s.past.times[k] + T.TOMBSTONE_TTL
  {
    var q, c := s.table.queue, s.past.completed;
    T.IndexHas(q, id);
    var j :| 0 <= j < |q| && q[j].id == id;
    T.IndexAt(q, j);
    var k := j + |c| - |q|;
    assert q[k - (|c| - |q|)] == q[j];
    assert c[k] == id;
  }

  /** What the lane of the frame at the front of the up stream looks like. */
  ghost predicate AtFront(l: Lane, msg: UpMsg) {
    && |l.up| > 0 && l.up[0] == msg && LaneInv(l)
    && (!msg.Request? ==> l.worker.Some? || Done(l))
  }

  lemma FrontFrame(s: Session)
    requires IdsInv(s) && LanesInv(s) && Can(s, ServeFrame)
    ensures Known(s, s.up[0].id) && AtFront(View(s, s.up[0].id), s.up[0].msg)
  {
    assert Known(s, s.up[0].id);
  }

  lemma RequestIsNew(s: Session)
    requires Inv(s) && Can(s, ServeFrame) && s.up[0].msg.Request?
    ensures s.up[0].id !in s.workers && s.up[0].id !in s.table.tombstones && s.up[0].id in s.pending
    ensures s.up[0].msg.op == s.calls[s.up[0].id].op && Enabled(View(s, s.up[0].id), ServeStep(s))
  {
    FrontFrame(s);
    var id := s.up[0].id;
    assert InTransit(View(s, id)) && !Done(View(s, id));
    if id in s.table.tombstones { TombstonesAreCompleted(s, id); }
  }

  lemma OneShort(a: set<Id>, b: set<Id>, id: Id)
    requires a <= b && id in b && id !in a
    ensures |a| < |b|
  {
    assert |a + {id}| == |a| + 1;
    T.SubsetSize(a + {id}, b);
  }

  lemma RoomForOne(s: Session, id: Id)
    requires Inv(s) && id in s.pending && id !in s.workers
    ensures |s.table.active| < T.MAX_CONCURRENT_REQUESTS
  {
    ActiveArePending(s);
    OneShort(s.table.active.Keys, s.pending, id);
  }

  /** The client's cap keeps the server below its own: no request is refused for their number, none is taken for
      a duplicate, and none but a process is refused at all. */
  lemma RequestsAreRegistered(s: Session)
    requires Inv(s) && Can(s, ServeFrame) && s.up[0].msg.Request?
    ensures |s.table.active| < T.MAX_CONCURRENT_REQUESTS
    ensures var reg := T.Register(s.table, s.up[0].id, KindOf(s.up[0].msg.op), s.now);
            reg.Registered? && (reg.limited ==> s.up[0].msg.op == Bash)
    ensures DoServe(s).fault == NoFault
    ensures Enabled(View(s, s.up[0].id), ServeStep(s)) && Tolerable(View(s, s.up[0].id), ServeStep(s))
  {
    RequestIsNew(s);
    RoomForOne(s, s.up[0].id);
    T.RegisterValid(s.table, s.up[0].id, KindOf(s.up[0].msg.op), s.now);
  }

  /** Position c of the completed requests is that of the request which the front frame names. */
  predicate Names(s: Session, c: nat) {
    |s.up| > 0 && c < |s.past.completed| && |s.past.times| == |s.past.completed| && s.past.completed[c] == s.up[0].id
  }

  /** The request of the front frame completed so long ago, or so many requests ago. */
  predicate ControlForgotten(s: Session) {
    exists c :: 0 <= c < |s.past.completed| && Names(s, c) && Forgettable(s.past, c, s.now)
  }

  /** The request of the front frame completed a tombstone's lifetime ago or longer. */
  predicate ControlExpired(s: Session) {
    exists c :: 0 <= c < |s.past.completed| && Names(s, c) && s.past.times[c] + T.TOMBSTONE_TTL <= s.now
  }

  lemma CompletedLookup(s: Session, c: nat)
    requires TableInv(s) && Distinct(s.past.completed) && QueueInv(s.table.queue, s.past)
    requires RetainedInv(s.past, |s.table.queue|, s.now) && c < |s.past.completed| && s.past.completed[c] !in s.workers
    ensures T.Find(s.table, s.past.completed[c], s.now)
            == if Forgettable(s.past, c, s.now) then T.IsUnknown else T.IsCompleted
  {
    var q, id := s.table.queue, s.past.completed[c];
    T.FindIs(s.table, id, s.now);
    if id in s.table.tombstones {
      TombstonesAreCompleted(s, id);
    } else if c >= |s.past.completed| - |q| {
      T.IndexAt(q, c - (|s.past.completed| - |q|));
    }
  }

  lemma ControlOfActive(s: Session)
    requires Inv(s) && Can(s, ServeFrame) && !s.up[0].msg.Request? && s.up[0].id in s.workers
    ensures !ControlForgotten(s) && DoServe(s).fault == NoFault && Enabled(View(s, s.up[0].id), ServeStep(s))
  {
    var id := s.up[0].id;
    FrontFrame(s);
    T.FindIs(s.table, id, s.now);
    assert !Done(View(s, id)) && id !in s.past.completed;
    if s.up[0].msg.Credit? { CreditIsNeverRefused(View(s, id)); }
  }

  lemma CompletedFault(s: Session)
    requires Can(s, ServeFrame) && !s.up[0].msg.Request? && T.Find(s.table, s.up[0].id, s.now) != T.IsActive
    ensures DoServe(s).fault
            == if T.Find(s.table, s.up[0].id, s.now) == T.IsUnknown then UnknownControl(s.up[0].id) else NoFault
  {}

  lemma ControlOfCompleted(s: Session)
    requires Inv(s) && Can(s, ServeFrame) && !s.up[0].msg.Request? && s.up[0].id !in s.workers
    ensures T.Find(s.table, s.up[0].id, s.now) == if ControlForgotten(s) then T.IsUnknown else T.IsCompleted
    ensures Enabled(View(s, s.up[0].id), ServeStep(s))
  {
    var id := s.up[0].id;
    FrontFrame(s);
    assert id in s.past.completed;
    var c :| 0 <= c < |s.past.completed| && s.past.completed[c] == id;
    assert Names(s, c);
    CompletedLookup(s, c);
  }

  /** A cancel or credit ends the server if and only if it is read a tombstone's lifetime or more after its
      request completed, or after more requests have completed than there are tombstones. */
  lemma ControlFrameFailsIffForgotten(s: Session)
    requires Inv(s) && Can(s, ServeFrame) && !s.up[0].msg.Request?
    ensures DoServe(s).fault == if ControlForgotten(s) then UnknownControl(s.up[0].id) else NoFault
    ensures !ControlForgotten(s) ==> Enabled(View(s, s.up[0].id), ServeStep(s))
  {
    if s.up[0].id in s.workers {
      ControlOfActive(s);
    } else {
      ControlOfCompleted(s);
      CompletedFault(s);
    }
  }

  // ---------------------------------------------------------------- frames that are written in time

  lemma {:induction false} DistinctFit(ids: seq<Id>, among: set<Id>)
    requires Distinct(ids) && forall i :: 0 <= i < |ids| ==> ids[i] in among
    ensures |ids| <= |among|
  {
    if |ids| > 0 {
      var last := |ids| - 1;
      DistinctFit(ids[..last], among - {ids[last]});
    }
  }

  function Between(low: nat, high: nat): (r: set<Id>)
    ensures forall x :: x in r <==> low < x <= high
    ensures |r| == if low <= high then high - low else 0
  {
    if high <= low then {} else Between(low, high - 1) + {high}
  }

  /** The front frame was written when its call was pending, or before slack more calls had started. */
  predicate WrittenWithin(s: Session, slack: nat)
    requires |s.up| > 0 && |s.sent| > 0
  {
    var id := s.up[0].id;
    s.sent[0].awaited || (id in s.past.readAt ==> s.sent[0].given <= s.past.readAt[id] + slack)
  }

  /** At most lag others completed between the completion of the request which the front frame names and the writing
      of its terminal frame, or have completed since if that is still to be written. */
  ghost predicate PublishedWithin(s: Session, lag: nat) {
    forall c :: 0 <= c < |s.past.completed| && Names(s, c) ==> CompletedBehind(s, s.up[0].id) - c - 1 <= lag
  }

  /** How many requests had completed when the terminal frame of one was written, or have completed by now. */
  function CompletedBehind(s: Session, id: Id): nat {
    if id in s.past.published then s.past.published[id] else |s.past.completed|
  }

  lemma LaterAreDistinct(completed: seq<Id>, n: nat)
    requires Distinct(completed) && n <= |completed|
    ensures var later := completed[n..];
            && Distinct(later) && (forall a :: 0 <= a < |later| ==> later[a] == completed[n + a])
  {}

  lemma OthersFit(ids: seq<Id>, among: set<Id>, id: Id)
    requires Distinct(ids) && id in among
    requires forall i :: 0 <= i < |ids| ==> ids[i] in among && ids[i] != id
    ensures |ids| < |among|
  {
    DistinctFit(ids, among - {id});
  }

  lemma LaterThanPending(s: Session, i: Id)
    requires Inv(s) && i in s.past.published && i !in s.past.readAt
    ensures |s.past.completed| - s.past.published[i] < MAX_PENDING
  {
    AllLaterArePending(s, i);
    LaterAreDistinct(s.past.completed, s.past.published[i]);
    OthersFit(s.past.completed[s.past.published[i]..], s.pending, i);
  }

  lemma LaterThanTaken(s: Session, i: Id, bound: nat)
    requires Inv(s) && i in s.past.readAt && AllAtMost({}, s.past.completed, bound)
    ensures var since := s.past.readAt[i];
            |s.past.completed| - s.past.published[i] < MAX_PENDING + if since <= bound then bound - since else 0
  {
    var later := s.past.completed[s.past.published[i]..];
    LaterAreDistinct(s.past.completed, s.past.published[i]);
    var young := Between(s.past.readAt[i], bound);
    forall a | 0 <= a < |later| ensures later[a] in s.past.peers[i] + young {
      assert PeerOrYounger(s.past, i, s.past.completed[s.past.published[i] + a]);
    }
    DistinctFit(later, s.past.peers[i] + young);
    assert |s.past.peers[i] + young| <= |s.past.peers[i]| + |young|;
  }

  lemma StampIsBound(p: Ledger, up: seq<Frame<UpMsg>>, sent: seq<Stamp>, next: nat, workers: set<Id>)
    requires ControlsInv(p, up, sent, next, workers) && |up| > 0
    ensures |sent| > 0 && AllAtMost({}, p.completed, sent[0].given)
    ensures sent[0].awaited && up[0].id in p.readAt ==> sent[0].given <= p.readAt[up[0].id]
  {}

  /** Between the writing of a request's terminal frame and the reading of a control frame that was written while its
      call was pending, at most 63 others complete: each was pending too. A control frame that is written later adds
      the calls started before it. */
  lemma FewCompleteBefore(s: Session, slack: nat)
    requires Inv(s) && Can(s, ServeFrame) && s.up[0].id in s.past.published && WrittenWithin(s, slack)
    ensures |s.past.completed| - s.past.published[s.up[0].id] < MAX_PENDING + if s.sent[0].awaited then 0 else slack
  {
    if s.up[0].id in s.past.readAt {
      StampIsBound(s.past, s.up, s.sent, s.next, s.workers.Keys);
      LaterThanTaken(s, s.up[0].id, s.sent[0].given);
    } else {
      LaterThanPending(s, s.up[0].id);
    }
  }

  /** How many requests may complete while a terminal frame is on its way from the table to the stream, and how many
      calls may start while a control frame is on its way from a call that has its answer, together. */
  const PROMPT := T.MAX_TOMBSTONES - MAX_PENDING

  /** If both are written promptly, a control frame fails only if its request's tombstone has expired; no eviction can
      drop it. */
  lemma PromptFrameFailsIffExpired(s: Session, slack: nat, lag: nat)
    requires Inv(s) && Can(s, ServeFrame) && !s.up[0].msg.Request?
    requires WrittenWithin(s, slack) && PublishedWithin(s, lag) && slack + lag <= PROMPT
    ensures DoServe(s).fault == if ControlExpired(s) then UnknownControl(s.up[0].id) else NoFault
  {
    ControlFrameFailsIffForgotten(s);
    if ControlForgotten(s) {
      var c :| 0 <= c < |s.past.completed| && Names(s, c) && Forgettable(s.past, c, s.now);
      if s.up[0].id in s.past.published { FewCompleteBefore(s, slack); }
    }
    if ControlExpired(s) {
      var c :| 0 <= c < |s.past.completed| && Names(s, c) && s.past.times[c] + T.TOMBSTONE_TTL <= s.now;
      assert Forgettable(s.past, c, s.now);
    }
  }

  // ---------------------------------------------------------------- the table after a frame is read

  lemma SuffixQueue(queue: seq<T.Tombstone>, d: nat, p: Ledger)
    requires QueueInv(queue, p) && d <= |queue|
    ensures QueueInv(queue[d..], p)
  {
    var q, n := queue[d..], |p.completed|;
    forall k | n - |q| <= k < n ensures q[k - (n - |q|)] == T.Tombstone(p.completed[k], p.times[k] + T.TOMBSTONE_TTL) {
      assert q[k - (n - |q|)] == queue[k - (n - |queue|)];
    }
  }

  lemma ExpiredAt(queue: seq<T.Tombstone>, d: nat, p: Ledger, k: nat, now: int)
    requires QueueInv(queue, p) && d <= |queue| && forall i :: 0 <= i < d ==> queue[i].expires <= now
    requires |p.completed| - |queue| <= k < |p.completed| - |queue| + d
    ensures p.times[k] + T.TOMBSTONE_TTL <= now
  {
    assert queue[k - (|p.completed| - |queue|)] == T.Tombstone(p.completed[k], p.times[k] + T.TOMBSTONE_TTL);
  }

  lemma SuffixRetained(queue: seq<T.Tombstone>, d: nat, p: Ledger, now: int)
    requires QueueInv(queue, p) && d <= |queue| && forall i :: 0 <= i < d ==> queue[i].expires <= now
    requires RetainedInv(p, |queue|, now)
    ensures RetainedInv(p, |queue| - d, now)
  {
    var n := |p.completed|;
    forall k | 0 <= k < n - (|queue| - d) ensures Forgettable(p, k, now) {
      if k >= n - |queue| { ExpiredAt(queue, d, p, k, now); }
    }
  }

  /** The table after the serve loop has pruned it. */
  lemma PrunedKeeps(s: Session, q: seq<T.Tombstone>)
    requires QueueInv(s.table.queue, s.past) && RetainedInv(s.past, |s.table.queue|, s.now)
    requires T.Valid(s.table) && q == T.Live(s.table.queue, s.now)
    ensures QueueInv(q, s.past)
    ensures RetainedInv(s.past, |q|, s.now)
  {
    T.LiveIsSuffix(s.table.queue, s.now);
    var d := |s.table.queue| - |q|;
    SuffixQueue(s.table.queue, d, s.past);
    SuffixRetained(s.table.queue, d, s.past, s.now);
  }

  lemma PoppedControls(s: Session, workers: set<Id>)
    requires ControlsInv(s.past, s.up, s.sent, s.next, s.workers.Keys) && |s.up| > 0
    requires workers <= s.workers.Keys + {s.up[0].id}
    ensures ControlsInv(s.past, s.up[1..], s.sent[1..], s.next, workers)
  {
    assert s.up[0].id <= s.sent[0].given;
  }

  ghost predicate OnlyPops(s: Session, r: Session)
    requires |s.up| > 0 && |s.sent| > 0
  {
    && r.up == s.up[1..] && r.sent == s.sent[1..] && r.past == s.past && r.next == s.next && r.now == s.now
    && r.pending == s.pending && r.down == s.down && r.held == s.held && r.calls == s.calls && r.read == s.read
    && r.closing == s.closing && r.table.queue == T.Live(s.table.queue, s.now)
  }

  lemma ServeRequestTable(s: Session)
    requires T.Valid(s.table) && T.MadeBy(s.table, s.now) && Can(s, ServeFrame) && s.up[0].msg.Request?
    requires T.Register(s.table, s.up[0].id, KindOf(s.up[0].msg.op), s.now).Registered?
    ensures var t := T.Register(s.table, s.up[0].id, KindOf(s.up[0].msg.op), s.now).table;
            && T.Valid(t) && T.MadeBy(t, s.now) && t.queue == T.Live(s.table.queue, s.now)
            && t.active.Keys == s.table.active.Keys + {s.up[0].id}
  {
    T.MadeByLater(s.table, s.now, s.now);
    T.PruneIsLive(s.table, s.now);
    T.RegisterValid(s.table, s.up[0].id, KindOf(s.up[0].msg.op), s.now);
  }

  function Served(s: Session, table: T.Table, registered: set<Id>, workers: map<Id, Worker>, loop: Loop): Session
    requires |s.up| > 0
  {
    PopUp(s).(table := table, registered := registered, workers := workers, loop := loop)
  }

  lemma ServedPops(s: Session, table: T.Table, registered: set<Id>, workers: map<Id, Worker>, loop: Loop)
    requires |s.up| > 0 && |s.sent| > 0 && table.queue == T.Live(s.table.queue, s.now)
    ensures OnlyPops(s, Served(s, table, registered, workers, loop))
  {}

  lemma ServeRequestShape(s: Session)
    requires Can(s, ServeFrame) && s.up[0].msg.Request? && DoServe(s).fault == NoFault
    ensures var id, op := s.up[0].id, s.up[0].msg.op;
            var reg := T.Register(s.table, id, KindOf(op), s.now);
            && reg.Registered?
            && DoServe(s) == Served(s, reg.table, s.registered + {id}, s.workers[id := NewWorker(op, reg.limited)],
                                if reg.limited then Refusing(id) else Idle)
  {}

  /** A new worker is refused exactly if the serve loop is to answer it itself. */
  lemma NewWorkerKeepsRefusals(s: Session, id: Id, op: Operation, limited: bool)
    requires TableInv(s) && s.loop == Idle && id !in s.workers
    ensures var workers := s.workers[id := NewWorker(op, limited)];
            var loop := if limited then Refusing(id) else Idle;
            && workers.Keys == s.workers.Keys + {id}
            && forall j :: j in workers ==> (workers[j].work == Refused <==> loop == Refusing(j))
  {}

  lemma ServeRequestChanges(s: Session)
    requires TableInv(s) && Can(s, ServeFrame) && s.up[0].msg.Request? && DoServe(s).fault == NoFault
    requires |s.sent| > 0 && s.up[0].id !in s.workers
    ensures var r := DoServe(s);
            && OnlyPops(s, r) && TableInv(r) && r.workers.Keys == s.workers.Keys + {s.up[0].id}
            && r.registered == s.registered + {s.up[0].id}
            && !r.loop.Notifying?
  {
    var id, op := s.up[0].id, s.up[0].msg.op;
    ServeRequestTable(s);
    ServeRequestShape(s);
    var reg := T.Register(s.table, id, KindOf(op), s.now);
    NewWorkerKeepsRefusals(s, id, op, reg.limited);
    ServedPops(s, reg.table, s.registered + {id}, s.workers[id := NewWorker(op, reg.limited)],
               if reg.limited then Refusing(id) else Idle);
  }

  lemma PrunedTable(t: T.Table, now: int)
    requires T.Valid(t) && T.MadeBy(t, now)
    ensures var p := T.Prune(t, now);
            T.Valid(p) && T.MadeBy(p, now) && p.queue == T.Live(t.queue, now) && p.active == t.active
  {
    T.MadeByLater(t, now, now);
    T.PruneIsLive(t, now);
  }

  ghost predicate ControlShape(s: Session, r: Session)
    requires |s.up| > 0
  {
    && r == Served(s, T.Prune(s.table, s.now), s.registered, r.workers, r.loop)
    && r.workers.Keys == s.workers.Keys
    && (forall j :: j in s.workers ==> r.workers[j].work == s.workers[j].work)
    && (r.loop == Idle || r.loop == Notifying(s.up[0].id))
  }

  lemma CancelShape(s: Session, id: Id)
    requires |s.up| > 0 && s.up[0].id == id && s.loop == Idle && s.fault == NoFault
    requires DoCancel(s, id).fault == NoFault
    ensures ControlShape(s, DoCancel(s, id))
  {}

  lemma CreditShape(s: Session, id: Id, bytes: nat)
    requires |s.up| > 0 && s.up[0].id == id && s.loop == Idle && s.fault == NoFault
    requires DoCredit(s, id, bytes).fault == NoFault
    ensures ControlShape(s, DoCredit(s, id, bytes))
  {}

  lemma ServeControlShape(s: Session)
    requires Can(s, ServeFrame) && !s.up[0].msg.Request? && DoServe(s).fault == NoFault
    ensures ControlShape(s, DoServe(s))
  {
    if s.up[0].msg.Cancel? { CancelShape(s, s.up[0].id); } else { CreditShape(s, s.up[0].id, s.up[0].msg.bytes); }
  }

  lemma ServeControlChanges(s: Session)
    requires TableInv(s) && Can(s, ServeFrame) && !s.up[0].msg.Request? && DoServe(s).fault == NoFault
    requires |s.sent| > 0
    ensures var r := DoServe(s);
            && OnlyPops(s, r) && TableInv(r) && r.workers.Keys == s.workers.Keys && r.registered == s.registered
            && (r.loop == Idle || r.loop == Notifying(s.up[0].id))
  {
    ServeControlShape(s);
    PrunedTable(s.table, s.now);
    var r := DoServe(s);
    ServedPops(s, T.Prune(s.table, s.now), s.registered, r.workers, r.loop);
  }

  lemma PoppedIds(s: Session, r: Session)
    requires IdsInv(s) && |s.up| > 0 && |s.sent| > 0 && OnlyPops(s, r)
    requires r.workers.Keys <= s.workers.Keys + {s.up[0].id} && (r.loop.Notifying? ==> r.loop.id == s.up[0].id)
    ensures IdsInv(r)
  {}

  lemma ServeIsAStep(s: Session)
    requires Inv(s) && Can(s, ServeFrame) && DoServe(s).fault == NoFault
    ensures Known(s, s.up[0].id)
    ensures OneMoves(s, DoServe(s), s.up[0].id, ServeStep(s))
  {
    FrontFrame(s);
    if s.up[0].msg.Request? { RequestsAreRegistered(s); } else { ControlFrameFailsIffForgotten(s); }
    ServeViews(s);
  }

  lemma RegisterKeepsKinds(s: Session, id: Id, op: Operation)
    requires KindsInv(s.table.active, s.workers) && |s.up| > 0
    ensures KindsInv(DoRegister(s, id, op).table.active, DoRegister(s, id, op).workers)
  {
    T.PruneKeepsActive(s.table, s.now);
  }

  lemma ControlKeepsKinds(table: T.Table, now: int, workers: map<Id, Worker>, id: Id, w: Worker)
    requires KindsInv(table.active, workers) && id in workers && w.op == workers[id].op
    ensures KindsInv(T.Prune(table, now).active, workers) && KindsInv(T.Prune(table, now).active, workers[id := w])
  {
    T.PruneKeepsActive(table, now);
  }

  lemma ServeKeepsKinds(s: Session)
    requires KindsInv(s.table.active, s.workers) && Can(s, ServeFrame)
    ensures KindsInv(DoServe(s).table.active, DoServe(s).workers)
  {
    var id := s.up[0].id;
    T.PruneKeepsActive(s.table, s.now);
    match s.up[0].msg {
      case Request(op) => RegisterKeepsKinds(s, id, op);
      case Cancel =>
        if id in s.workers { ControlKeepsKinds(s.table, s.now, s.workers, id, s.workers[id].(cancelled := true)); }
      case Credit(bytes) =>
        if id in s.workers {
          ControlKeepsKinds(s.table, s.now, s.workers, id,
                            s.workers[id].(balance := s.workers[id].balance + bytes));
        }
    }
  }

  lemma ServeKeepsLanes(s: Session)
    requires Inv(s) && Can(s, ServeFrame) && DoServe(s).fault == NoFault && |s.sent| > 0 && OnlyPops(s, DoServe(s))
    ensures var r := DoServe(s); LanesInv(r) && FinishedInv(r) && PendingInv(r)
  {
    var r := DoServe(s);
    ServeIsAStep(s);
    OneMovesKeepsLanes(s, r, s.up[0].id, ServeStep(s));
    MoveKeepsFinished(s, r, s.up[0].id, ServeStep(s));
    MoveKeepsPending(s, r, s.up[0].id, ServeStep(s));
  }

  /** What reading a frame does to the tables. */
  lemma ServeKeepsTables(s: Session)
    requires Inv(s) && Can(s, ServeFrame) && DoServe(s).fault == NoFault
    ensures var r := DoServe(s);
            && |s.sent| > 0 && OnlyPops(s, r) && TableInv(r) && RegisteredInv(r) && IdsInv(r)
            && r.workers.Keys <= s.workers.Keys + {s.up[0].id}
  {
    if s.up[0].msg.Request? {
      RequestIsNew(s);
      ServeRequestChanges(s);
    } else {
      ServeControlChanges(s);
    }
    PoppedIds(s, DoServe(s));
  }

  lemma ServeKeeps(s: Session)
    requires Inv(s) && Can(s, ServeFrame) && DoServe(s).fault == NoFault
    ensures Inv(Do(s, ServeFrame))
  {
    var r := DoServe(s);
    ServeKeepsTables(s);
    ServeKeepsLanes(s);
    PrunedKeeps(s, r.table.queue);
    PoppedControls(s, r.workers.Keys);
    ServeKeepsKinds(s);
  }

  lemma SignalKeepsTable(s: Session)
    requires TableInv(s) && Can(s, Signal)
    ensures TableInv(DoSignal(s)) && DoSignal(s).workers.Keys == s.workers.Keys
  {}

  lemma SignalKeeps(s: Session)
    requires Inv(s) && Can(s, Signal)
    ensures Inv(Do(s, Signal))
  {
    var r := DoSignal(s);
    SignalViews(s);
    SignalKeepsTable(s);
    OneMovesKeepsLanes(s, r, s.loop.id, Notify);
    MoveKeepsFinished(s, r, s.loop.id, Notify);
    MoveKeepsPending(s, r, s.loop.id, Notify);
  }

  // ---------------------------------------------------------------- a server goroutine moves

  lemma WorkChanges(s: Session, id: Id, step: Step)
    requires Can(s, WorkStep(id, step)) && !step.Finish?
    ensures var r := DoWork(s, id, step);
            && r.table == s.table && r.past == s.past && r.pending == s.pending && r.next == s.next && r.loop == s.loop
            && r.registered == s.registered && r.now == s.now && r.up == s.up && r.sent == s.sent && r.held == s.held
            && r.fault == NoFault && r.closing == s.closing
            && r.calls == s.calls && r.read.Keys == s.read.Keys && r.workers.Keys == s.workers.Keys
            && (if Writes(step) then |r.down| == |s.down| + 1 && r.down == s.down + [r.down[|s.down|]]
                                     && r.down[|s.down|].id == id
                                     && !Terminal(r.down[|s.down|].msg)
                else r.down == s.down)
  {
    WorkTouches(View(s, id), step);
    SameClosing(s, id);
    assert id in s.workers && id in s.calls;
  }

  lemma WorkKeepsRefusals(s: Session, id: Id, step: Step)
    requires Can(s, WorkStep(id, step)) && !step.Finish?
    ensures var r := DoWork(s, id, step);
            && r.workers.Keys == s.workers.Keys
            && forall j :: j in s.workers ==> (r.workers[j].work == Refused <==> s.workers[j].work == Refused)
  {
    WorkTouches(View(s, id), step);
    assert id in s.workers;
  }

  lemma WorkKeepsTable(s: Session, id: Id, step: Step)
    requires TableInv(s) && Can(s, WorkStep(id, step)) && !step.Finish?
    ensures TableInv(DoWork(s, id, step))
  {
    WorkChanges(s, id, step);
    WorkKeepsRefusals(s, id, step);
  }

  lemma WorkKeepsIds(s: Session, id: Id, step: Step)
    requires IdsInv(s) && Can(s, WorkStep(id, step)) && !step.Finish?
    ensures IdsInv(DoWork(s, id, step))
  {
    WorkChanges(s, id, step);
  }

  lemma WrittenPending(s: Session, r: Session, id: Id, step: Step, f: Frame<DownMsg>, j: Id)
    requires PendingInv(s) && OneMoves(s, r, id, step) && Known(r, j) && Known(s, j) && Known(s, id) && id in s.pending
    requires r.pending == s.pending && r.down == s.down + [f] && f.id == id
             && r.closing.Keys + {id} == s.closing.Keys + {id}
    ensures j in r.pending <==> StillDue(r, j)
  {
    ShareAppend(s.down, f, j);
    assert j in r.closing.Keys + {id} <==> j in s.closing.Keys + {id};
  }

  /** A frame of a pending call is written. */
  lemma WriteKeepsPending(s: Session, r: Session, id: Id, step: Step, f: Frame<DownMsg>)
    requires PendingInv(s) && OneMoves(s, r, id, step) && id in s.pending
    requires r.pending == s.pending && r.down == s.down + [f] && f.id == id
             && r.closing.Keys + {id} == s.closing.Keys + {id}
    ensures PendingInv(r)
  {
    forall j | Known(r, j) ensures j in r.pending <==> StillDue(r, j) {
      assert Known(s, j);
      WrittenPending(s, r, id, step, f, j);
    }
  }

  /** What is left of the invariant that does not speak of single requests. */
  ghost predicate PastInv(s: Session) {
    && OrderInv(s.past, s.down, s.closing.Keys, s.now) && PublishedInv(s.past, Written(s.past, s.down))
    && QueueInv(s.table.queue, s.past) && PeersInv(s.past, s.pending, s.next)
    && ControlsInv(s.past, s.up, s.sent, s.next, s.workers.Keys) && RetainedInv(s.past, |s.table.queue|, s.now)
  }

  lemma WorkKeepsPast(s: Session, id: Id, step: Step)
    requires PastInv(s) && Can(s, WorkStep(id, step)) && !step.Finish?
    ensures PastInv(DoWork(s, id, step))
  {
    var r := DoWork(s, id, step);
    WorkChanges(s, id, step);
    if Writes(step) { TerminalsAppend(s.down, r.down[|s.down|]); }
    assert Terminals(r.down) == Terminals(s.down);
  }

  lemma WorkKeepsKinds(s: Session, id: Id, step: Step)
    requires KindsInv(s.table.active, s.workers) && Can(s, WorkStep(id, step)) && !step.Finish?
    ensures KindsInv(DoWork(s, id, step).table.active, DoWork(s, id, step).workers)
  {
    WorkTouches(View(s, id), step);
    WorkKeepsOperation(View(s, id), step);
  }

  lemma WorkKeeps(s: Session, id: Id, step: Step)
    requires Inv(s) && Can(s, WorkStep(id, step)) && !step.Finish?
    ensures Inv(Do(s, WorkStep(id, step)))
  {
    WorkKeepsTable(s, id, step);
    WorkKeepsIds(s, id, step);
    WorkKeepsLanes(s, id, step);
    WorkKeepsPast(s, id, step);
    WorkKeepsKinds(s, id, step);
  }

  lemma WorkKeepsLanes(s: Session, id: Id, step: Step)
    requires LanesInv(s) && PendingInv(s) && FinishedInv(s) && Can(s, WorkStep(id, step)) && !step.Finish?
    ensures var r := DoWork(s, id, step); LanesInv(r) && PendingInv(r) && FinishedInv(r)
  {
    var r := DoWork(s, id, step);
    WorkViews(s, id, step);
    WorkChanges(s, id, step);
    OneMovesKeepsLanes(s, r, id, step);
    MoveKeepsFinished(s, r, id, step);
    if Writes(step) {
      assert Known(s, id) && !Done(View(s, id)) by { WorkTouches(View(s, id), step); }
      WriteKeepsPending(s, r, id, step, r.down[|s.down|]);
    } else {
      MoveKeepsPending(s, r, id, step);
    }
  }

  // ---------------------------------------------------------------- a request completes

  lemma FinishChanges(s: Session, id: Id, m: DownMsg)
    requires Can(s, WorkStep(id, Finish(m))) && id in s.table.active && id in s.workers
    ensures var r := DoWork(s, id, Finish(m));
            && r.table == T.Complete(s.table, id, s.now) && r.pending == s.pending && r.next == s.next
            && r.past == s.past.(completed := s.past.completed + [id], times := s.past.times + [s.now])
            && r.loop == (if s.loop == Refusing(id) then Answering(id) else s.loop) && r.registered == s.registered
            && r.now == s.now && r.up == s.up && r.sent == s.sent && r.held == s.held && r.fault == NoFault
            && r.calls == s.calls && r.read.Keys == s.read.Keys && r.workers == s.workers - {id}
            && r.down == s.down && r.closing == s.closing[id := m]
  {
    WorkTouches(View(s, id), Finish(m));
    assert id in s.calls;
  }

  lemma KeysAfter(closing: map<Id, DownMsg>, id: Id, m: DownMsg)
    ensures closing[id := m].Keys == closing.Keys + {id}
  {}

  lemma FinishedIsActive(s: Session, id: Id, m: DownMsg)
    requires TableInv(s) && Can(s, WorkStep(id, Finish(m)))
    ensures id in s.workers && id in s.table.active
  {
    WorkTouches(View(s, id), Finish(m));
    assert id in s.workers;
  }

  lemma FinishKeepsTable(s: Session, id: Id, m: DownMsg)
    requires TableInv(s) && Can(s, WorkStep(id, Finish(m))) && id in s.workers && id in s.table.active
    ensures TableInv(DoWork(s, id, Finish(m)))
    ensures DoWork(s, id, Finish(m)).table.queue == T.QueueAfter(s.table.queue, id, s.now)
  {
    FinishChanges(s, id, m);
    T.CompleteValid(s.table, id, s.now);
  }

  lemma FinishKeepsKinds(s: Session, id: Id, m: DownMsg)
    requires TableInv(s) && KindsInv(s.table.active, s.workers) && Can(s, WorkStep(id, Finish(m)))
    requires id in s.workers && id in s.table.active
    ensures KindsInv(DoWork(s, id, Finish(m)).table.active, DoWork(s, id, Finish(m)).workers)
  {
    FinishChanges(s, id, m);
    T.CompleteValid(s.table, id, s.now);
  }

  lemma FinishKeepsIds(s: Session, id: Id, m: DownMsg)
    requires IdsInv(s) && Can(s, WorkStep(id, Finish(m))) && id in s.workers && id in s.table.active
    ensures IdsInv(DoWork(s, id, Finish(m)))
  {
    FinishChanges(s, id, m);
  }

  function Completed(p: Ledger, id: Id, now: int): Ledger {
    p.(completed := p.completed + [id], times := p.times + [now])
  }

  lemma FinishKeepsOrder(p: Ledger, down: seq<Frame<DownMsg>>, closing: set<Id>, now: int, id: Id)
    requires OrderInv(p, down, closing, now) && id !in p.completed
    ensures OrderInv(Completed(p, id, now), down, closing + {id}, now)
  {
    InAppended(p.completed, id);
    assert Written(Completed(p, id, now), down) == Written(p, down);
  }

  lemma FinishKeepsPublished(p: Ledger, written: seq<Id>, now: int, id: Id)
    requires PublishedInv(p, written) && id !in written
    ensures PublishedInv(Completed(p, id, now), written)
  {
    InAppended(p.completed, id);
  }

  lemma FinishKeepsSequence(s: Session, r: Session, id: Id)
    requires OrderInv(s.past, s.down, s.closing.Keys, s.now) && PublishedInv(s.past, Written(s.past, s.down))
    requires id !in s.past.completed && r.past == Completed(s.past, id, s.now)
    requires r.down == s.down && r.now == s.now && r.closing.Keys == s.closing.Keys + {id}
    ensures OrderInv(r.past, r.down, r.closing.Keys, r.now) && PublishedInv(r.past, Written(r.past, r.down))
  {
    FinishKeepsOrder(s.past, s.down, s.closing.Keys, s.now, id);
    FinishKeepsPublished(s.past, Written(s.past, s.down), s.now, id);
  }

  lemma FinishKeepsPeers(s: Session, id: Id)
    requires PeersInv(s.past, s.pending, s.next) && id in s.pending
    ensures PeersInv(Completed(s.past, id, s.now), s.pending, s.next)
  {
    var c, p := s.past.completed, Completed(s.past, id, s.now);
    forall i, b | i in p.readAt && p.published[i] <= b < |c| + 1 ensures PeerOrYounger(p, i, (c + [id])[b]) {
      assert PeerOrYounger(s.past, i, (c + [id])[b]);
    }
    forall i, j | i in p.readAt && j in s.pending ensures PeerOrYounger(p, i, j) {
      assert PeerOrYounger(s.past, i, j);
    }
  }

  lemma FinishKeepsControls(s: Session, id: Id)
    requires ControlsInv(s.past, s.up, s.sent, s.next, s.workers.Keys) && id in s.workers
    ensures ControlsInv(s.past.(completed := s.past.completed + [id], times := s.past.times + [s.now]),
                        s.up, s.sent, s.next, (s.workers - {id}).Keys)
  {
    assert forall b :: AllAtMost(s.workers.Keys, s.past.completed, b) ==>
      AllAtMost((s.workers - {id}).Keys, s.past.completed + [id], b);
  }

  lemma RoomKeepsQueue(q: seq<T.Tombstone>, p: Ledger, id: Id, now: int)
    requires QueueInv(q, p)
    ensures QueueInv(T.QueueAfter(q, id, now), p.(completed := p.completed + [id], times := p.times + [now]))
  {
    T.LiveIsSuffix(q, now);
    var live := T.Live(q, now);
    var room := T.Room(live);
    var d := |q| - |room|;
    assert room == q[d..];
    var r := T.QueueAfter(q, id, now);
    var c, t := p.completed + [id], p.times + [now];
    forall k | |c| - |r| <= k < |c| ensures r[k - (|c| - |r|)] == T.Tombstone(c[k], t[k] + T.TOMBSTONE_TTL) {
      if k < |p.completed| {
        assert r[k - (|c| - |r|)] == room[k - (|c| - |r|)] == q[k - (|p.completed| - |q|)];
      }
    }
  }

  lemma RoomRetained(p: Ledger, live: seq<T.Tombstone>, id: Id, now: int)
    requires RetainedInv(p, |live|, now) && |live| <= T.MAX_TOMBSTONES
    ensures RetainedInv(p.(completed := p.completed + [id], times := p.times + [now]), |T.Room(live)| + 1, now)
  {
    var r := p.(completed := p.completed + [id], times := p.times + [now]);
    forall c | 0 <= c < |r.completed| - (|T.Room(live)| + 1) ensures Forgettable(r, c, now) {
      if c < |p.completed| - |live| { assert Forgettable(p, c, now); }
    }
  }

  lemma FinishKeepsRetained(s: Session, id: Id)
    requires QueueInv(s.table.queue, s.past) && RetainedInv(s.past, |s.table.queue|, s.now) && T.Valid(s.table)
    ensures RetainedInv(s.past.(completed := s.past.completed + [id], times := s.past.times + [s.now]),
                        |T.QueueAfter(s.table.queue, id, s.now)|, s.now)
  {
    var live := T.Live(s.table.queue, s.now);
    T.LiveIsSuffix(s.table.queue, s.now);
    PrunedKeeps(s, live);
    RoomRetained(s.past, live, id, s.now);
  }

  lemma FinishKeepsPending(s: Session, r: Session, id: Id, m: DownMsg)
    requires PendingInv(s) && OneMoves(s, r, id, Finish(m)) && id in s.pending
    requires r.pending == s.pending && r.down == s.down && r.closing == s.closing[id := m]
    ensures PendingInv(r)
  {
    forall j | Known(r, j) ensures j in r.pending <==> StillDue(r, j) {
      assert Known(s, j) && (j in s.pending <==> StillDue(s, j));
    }
  }

  lemma FinishKeepsPast(s: Session, id: Id, m: DownMsg)
    requires TableInv(s) && PastInv(s) && Can(s, WorkStep(id, Finish(m)))
    requires id in s.workers && id in s.pending && id !in s.past.completed
    ensures PastInv(DoWork(s, id, Finish(m)))
  {
    FinishChanges(s, id, m);
    FinishKeepsTable(s, id, m);
    KeysAfter(s.closing, id, m);
    FinishKeepsSequence(s, DoWork(s, id, Finish(m)), id);
    FinishKeepsPeers(s, id);
    FinishKeepsControls(s, id);
    RoomKeepsQueue(s.table.queue, s.past, id, s.now);
    FinishKeepsRetained(s, id);
  }

  lemma FinishKeepsLanes(s: Session, id: Id, m: DownMsg)
    requires Inv(s) && Can(s, WorkStep(id, Finish(m))) && id in s.workers && id in s.table.active && id in s.pending
    ensures var r := DoWork(s, id, Finish(m)); LanesInv(r) && FinishedInv(r) && PendingInv(r) && RegisteredInv(r)
  {
    var r := DoWork(s, id, Finish(m));
    WorkViews(s, id, Finish(m));
    FinishChanges(s, id, m);
    OneMovesKeepsLanes(s, r, id, Finish(m));
    MoveKeepsFinished(s, r, id, Finish(m));
    FinishKeepsPending(s, r, id, m);
    InAppended(s.past.completed, id);
  }

  lemma WorkedOnIsPending(s: Session, id: Id)
    requires Inv(s) && id in s.workers
    ensures id in s.pending && id !in s.past.completed
  {
    ActiveArePending(s);
    assert Known(s, id) && !Done(View(s, id));
  }

  lemma FinishKeeps(s: Session, id: Id, m: DownMsg)
    requires Inv(s) && Can(s, WorkStep(id, Finish(m)))
    ensures Inv(Do(s, WorkStep(id, Finish(m))))
  {
    FinishedIsActive(s, id, m);
    WorkedOnIsPending(s, id);
    FinishKeepsTable(s, id, m);
    FinishKeepsIds(s, id, m);
    FinishKeepsKinds(s, id, m);
    FinishKeepsLanes(s, id, m);
    FinishKeepsPast(s, id, m);
  }

  // ---------------------------------------------------------------- a terminal frame is written

  lemma TerminalViews(s: Session, id: Id)
    requires Known(s, id) && Can(s, WriteTerminal(id))
    ensures OneMoves(s, DoWriteTerminal(s, id), id, Publish)
  {
    var l, r := View(s, id), DoWriteTerminal(s, id);
    WriteShares(s, r, id, l, s.closing[id]);
    assert s.workers == if l.worker.Some? then s.workers[id := l.worker.value] else s.workers - {id};
    PutViews(s, r, id, Apply(l, Publish));
  }

  lemma WrittenGrows(p: Ledger, r: Ledger, down: seq<Frame<DownMsg>>, f: Frame<DownMsg>)
    requires Terminal(f.msg) && r.taken == p.taken
    ensures Written(r, down + [f]) == Written(p, down) + [f.id]
  {
    TerminalsAppend(down, f);
  }

  lemma TerminalKeepsOrder(p: Ledger, r: Ledger, down: seq<Frame<DownMsg>>, closing: set<Id>, now: int,
                           f: Frame<DownMsg>)
    requires OrderInv(p, down, closing, now) && f.id in closing && Terminal(f.msg)
    requires r == p.(published := p.published[f.id := |p.completed|])
    ensures OrderInv(r, down + [f], closing - {f.id}, now)
  {
    WrittenGrows(p, r, down, f);
    InAppended(Written(p, down), f.id);
  }

  lemma TerminalIsPublished(p: Ledger, r: Ledger, written: seq<Id>, id: Id)
    requires PublishedInv(p, written) && id !in written && r == p.(published := p.published[id := |p.completed|])
    ensures PublishedInv(r, written + [id])
  {
    InAppended(written, id);
  }

  lemma TerminalKeepsSequence(s: Session, id: Id)
    requires OrderInv(s.past, s.down, s.closing.Keys, s.now) && PublishedInv(s.past, Written(s.past, s.down))
    requires Can(s, WriteTerminal(id)) && Terminal(s.closing[id])
    ensures var r := DoWriteTerminal(s, id);
            OrderInv(r.past, r.down, r.closing.Keys, r.now) && PublishedInv(r.past, Written(r.past, r.down))
  {
    var r, f := DoWriteTerminal(s, id), Frame(id, s.closing[id]);
    TerminalKeepsOrder(s.past, r.past, s.down, s.closing.Keys, s.now, f);
    WrittenGrows(s.past, r.past, s.down, f);
    TerminalIsPublished(s.past, r.past, Written(s.past, s.down), id);
    assert r.closing.Keys == s.closing.Keys - {id};
  }

  lemma TerminalKeepsQueue(p: Ledger, r: Ledger, q: seq<T.Tombstone>)
    requires QueueInv(q, p) && r.completed == p.completed && r.times == p.times
    ensures QueueInv(q, r)
  {}

  lemma TerminalKeepsControls(p: Ledger, r: Ledger, up: seq<Frame<UpMsg>>, sent: seq<Stamp>, next: nat,
                              workers: set<Id>)
    requires ControlsInv(p, up, sent, next, workers) && r.completed == p.completed && r.readAt == p.readAt
    ensures ControlsInv(r, up, sent, next, workers)
  {}

  lemma TerminalKeepsPast(s: Session, id: Id)
    requires PastInv(s) && Can(s, WriteTerminal(id)) && Terminal(s.closing[id])
    ensures PastInv(DoWriteTerminal(s, id))
  {
    var r := DoWriteTerminal(s, id);
    TerminalKeepsSequence(s, id);
    UnwrittenIsUntaken(s.past, s.down, s.closing.Keys, s.now, id);
    TerminalKeepsPeers(s.past, r.past, s.pending, s.next, id);
    TerminalKeepsQueue(s.past, r.past, s.table.queue);
    TerminalKeepsControls(s.past, r.past, s.up, s.sent, s.next, s.workers.Keys);
    TakenKeepsRetained(s.past, r.past, |s.table.queue|, s.now);
  }

  lemma UnwrittenIsUntaken(p: Ledger, down: seq<Frame<DownMsg>>, closing: set<Id>, now: int, id: Id)
    requires OrderInv(p, down, closing, now) && id in closing
    ensures id !in p.readAt
  {
    assert forall x :: x in p.taken ==> x in Written(p, down);
  }

  lemma TerminalKeepsPeers(p: Ledger, r: Ledger, pending: set<Id>, next: nat, id: Id)
    requires PeersInv(p, pending, next) && id !in p.readAt && r == p.(published := p.published[id := |p.completed|])
    ensures PeersInv(r, pending, next)
  {
    forall i, b | i in r.readAt && r.published[i] <= b < |r.completed| ensures PeerOrYounger(r, i, r.completed[b]) {
      assert PeerOrYounger(p, i, p.completed[b]);
    }
    forall i, j | i in r.readAt && j in pending ensures PeerOrYounger(r, i, j) { assert PeerOrYounger(p, i, j); }
  }

  lemma TerminalKeepsTable(s: Session, id: Id)
    requires TableInv(s) && RegisteredInv(s) && IdsInv(s) && Can(s, WriteTerminal(id))
    ensures var r := DoWriteTerminal(s, id); TableInv(r) && RegisteredInv(r) && IdsInv(r)
  {}

  lemma ClosingIsPending(s: Session, id: Id)
    requires IdsInv(s) && LanesInv(s) && PendingInv(s) && id in s.closing
    ensures Known(s, id) && Terminal(s.closing[id]) && id in s.pending
  {
    assert Known(s, id) && LaneInv(View(s, id)) && View(s, id).terminal.Some?;
  }

  lemma TerminalKeepsLanes(s: Session, id: Id)
    requires LanesInv(s) && FinishedInv(s) && PendingInv(s) && Known(s, id) && Can(s, WriteTerminal(id))
             && id in s.pending
    ensures var r := DoWriteTerminal(s, id); LanesInv(r) && FinishedInv(r) && PendingInv(r)
  {
    var r := DoWriteTerminal(s, id);
    TerminalViews(s, id);
    OneMovesKeepsLanes(s, r, id, Publish);
    MoveKeepsFinished(s, r, id, Publish);
    WriteKeepsPending(s, r, id, Publish, Frame(id, s.closing[id]));
  }

  lemma TerminalKeeps(s: Session, id: Id)
    requires Inv(s) && Can(s, WriteTerminal(id))
    ensures Inv(Do(s, WriteTerminal(id)))
  {
    ClosingIsPending(s, id);
    TerminalKeepsLanes(s, id);
    TerminalKeepsTable(s, id);
    TerminalKeepsPast(s, id);
  }

  // ---------------------------------------------------------------- every run

  lemma StartTable(now: int)
    ensures var t := T.AddTombstone(T.EMPTY, 0, now);
            T.Valid(t) && T.MadeBy(t, now) && t.active == map[] && t.queue == [T.Tombstone(0, now + T.TOMBSTONE_TTL)]
  {
    T.AddTombstoneIs(T.EMPTY, 0, now);
    assert T.Live([], now) == [];
    assert T.QueueAfter([], 0, now) == [T.Tombstone(0, now + T.TOMBSTONE_TTL)];
  }

  lemma StartLocal(now: int)
    ensures var s := Start(now); IdsInv(s) && LanesInv(s) && PendingInv(s) && FinishedInv(s) && TableInv(s)
  {
    StartTable(now);
  }

  lemma StartPast(now: int)
    ensures var s := Start(now);
            && OrderInv(s.past, s.down, s.closing.Keys, s.now) && PublishedInv(s.past, Written(s.past, s.down))
            && PeersInv(s.past, s.pending, s.next) && ControlsInv(s.past, s.up, s.sent, s.next, s.workers.Keys)
  {
    assert Written(Start(now).past, []) == [0];
  }

  lemma StartQueue(now: int)
    ensures var s := Start(now);
            QueueInv(s.table.queue, s.past) && RetainedInv(s.past, |s.table.queue|, s.now)
  {
    StartTable(now);
  }

  lemma StartInv(now: int)
    ensures Inv(Start(now))
  {
    StartLocal(now);
    StartPast(now);
    StartQueue(now);
  }

  /** One step from a good state: the only fault an honest pair can meet is a cancel or credit that the server
      reads after it has forgotten the request, and it meets it exactly then. */
  lemma StepKeepsSession(s: Session, a: Act)
    requires Inv(s) && Can(s, a)
    ensures var late := a == ServeFrame && !s.up[0].msg.Request? && ControlForgotten(s);
            && Do(s, a).fault == (if late then UnknownControl(s.up[0].id) else NoFault)
            && (!late ==> Inv(Do(s, a)))
  {
    match a
    case Allocate(op) => AllocateKeeps(s, op);
    case CallStep(id, step) => CallStepKeeps(s, id, step);
    case TakeFrame => TakeStepKeeps(s);
    case ServeFrame => ServeStepKeeps(s);
    case Signal => SignalKeeps(s);
    case WorkStep(id, step) => WorkStepKeeps(s, id, step);
    case WriteTerminal(id) => TerminalKeeps(s, id);
    case Tick(at) => TickKeeps(s, at);
  }

  lemma CallStepKeeps(s: Session, id: Id, step: Step)
    requires Inv(s) && Can(s, CallStep(id, step))
    ensures DoCall(s, id, step).fault == NoFault && Inv(DoCall(s, id, step))
  {
    CallKeeps(s, id, step);
    CallChanges(s, id, step);
  }

  lemma TakeStepKeeps(s: Session)
    requires Inv(s) && Can(s, TakeFrame)
    ensures DoTake(s).fault == NoFault && Inv(DoTake(s))
  {
    TakeKeeps(s);
    TakeFindsCall(s);
  }

  lemma ServeStepKeeps(s: Session)
    requires Inv(s) && Can(s, ServeFrame)
    ensures var late := !s.up[0].msg.Request? && ControlForgotten(s);
            && DoServe(s).fault == (if late then UnknownControl(s.up[0].id) else NoFault)
            && (!late ==> Inv(DoServe(s)))
  {
    if s.up[0].msg.Request? { RequestsAreRegistered(s); } else { ControlFrameFailsIffForgotten(s); }
    if DoServe(s).fault == NoFault { ServeKeeps(s); }
  }

  lemma WorkStepKeeps(s: Session, id: Id, step: Step)
    requires Inv(s) && Can(s, WorkStep(id, step))
    ensures DoWork(s, id, step).fault == NoFault && Inv(DoWork(s, id, step))
  {
    if step.Finish? {
      FinishedIsActive(s, id, step.m);
      FinishChanges(s, id, step.m);
      FinishKeeps(s, id, step.m);
    } else {
      WorkChanges(s, id, step);
      WorkKeeps(s, id, step);
    }
  }

  predicate CanRun(s: Session, acts: seq<Act>)
    decreases |acts|
  {
    |acts| == 0 || (Can(s, acts[0]) && CanRun(Do(s, acts[0]), acts[1..]))
  }

  function Run(s: Session, acts: seq<Act>): Session
    requires CanRun(s, acts)
    decreases |acts|
  {
    if |acts| == 0 then s else Run(Do(s, acts[0]), acts[1..])
  }

  lemma {:induction false} RunKeeps(s: Session, acts: seq<Act>)
    requires Inv(s) && CanRun(s, acts) && s.fault == NoFault
    ensures Run(s, acts).fault == NoFault || Run(s, acts).fault.UnknownControl?
    ensures Run(s, acts).fault == NoFault ==> Inv(Run(s, acts))
    decreases |acts|
  {
    if |acts| > 0 {
      StepKeepsSession(s, acts[0]);
      var r := Do(s, acts[0]);
      if r.fault == NoFault {
        RunKeeps(r, acts[1..]);
      }
    }
  }

  /** In every run from the handshake on, until a control frame comes too late:
      - the server works only on calls the client still waits for, at most 64 of them;
      - each registered request that is no longer worked on has exactly one terminal frame, which is to be written, or
        is in the down stream, or has been taken by the reader, and no other request has any;
      - every frame of the down stream is for a call that is still pending;
      - no call has been given a frame that makes it kill the helper; the output of every Bash call is a prefix
        of what its process wrote, and all of it on success. */
  lemma EveryRunIsSound(now: int, acts: seq<Act>)
    requires CanRun(Start(now), acts)
    ensures var s := Run(Start(now), acts);
            && (s.fault == NoFault || s.fault.UnknownControl?)
            && (s.fault == NoFault ==>
                  && s.workers.Keys <= s.pending && |s.pending| <= MAX_PENDING && s.table.active.Keys == s.workers.Keys
                  && OneTerminalEach(s)
                  && (forall k :: 0 <= k < |s.down| ==> s.down[k].id in s.pending)
                  && (forall id :: Known(s, id) ==> SoundCall(s, id)))
  {
    StartInv(now);
    RunKeeps(Start(now), acts);
    var s := Run(Start(now), acts);
    if s.fault == NoFault {
      ActiveArePending(s);
      TerminalsAreOne(s);
      forall k | 0 <= k < |s.down| ensures s.down[k].id in s.pending {
        MemberIsShared(s.down, k);
        assert Known(s, s.down[k].id);
      }
      forall id | Known(s, id) ensures SoundCall(s, id) {
        NoCallIsKilled(View(s, id));
        OutputIsPrefix(View(s, id));
      }
    }
  }

  /** The terminal frames written so far, taken or still in the down stream, and those about to be written, are one
      for each request that has been registered and is not worked on any more. */
  ghost predicate OneTerminalEach(s: Session) {
    && Distinct(Written(s.past, s.down)) && (forall id :: id in s.closing ==> id !in Written(s.past, s.down))
    && (forall id :: id in Written(s.past, s.down) || id in s.closing <==> id in s.registered && id !in s.workers)
  }

  lemma TerminalsAreOne(s: Session)
    requires Inv(s)
    ensures OneTerminalEach(s)
  {
    forall id | id in s.workers ensures id !in s.past.completed {
      assert Known(s, id) && View(s, id).worker.Some?;
    }
  }

  ghost predicate SoundCall(s: Session, id: Id)
    requires Known(s, id)
  {
    var c := s.calls[id];
    && c.progress.status != Killed
    && IsPrefix(c.progress.output, s.read[id])
    && (c.op == Bash && c.progress.status == Succeeded ==> c.progress.output == s.read[id])
  }

  // ---------------------------------------------------------------- what is refused, and what a cancel does

  lemma ProcessesAreBash(active: map<Id, T.Kind>, workers: map<Id, Worker>)
    requires active.Keys == workers.Keys && KindsInv(active, workers)
    ensures (set i | i in active && active[i] == T.Process) == set i | i in workers && workers[i].op == Bash
  {
    forall i | i in active ensures active[i] == T.Process <==> workers[i].op == Bash {}
  }

  lemma RegisteredShape(s: Session, id: Id, op: Operation)
    requires |s.up| > 0 && T.Register(s.table, id, KindOf(op), s.now).Registered?
    ensures var r, limited := DoRegister(s, id, op), T.Register(s.table, id, KindOf(op), s.now).limited;
            && id in r.workers && r.loop == (if limited then Refusing(id) else Idle)
            && r.workers[id] == Worker(op, if limited then Refused else Queued, false, 0, false, 0, [])
  {}

  /** A Bash request is refused exactly if 16 others that are worked on are Bash requests; no other request is. */
  lemma RefusedIff(s: Session)
    requires Inv(s) && Can(s, ServeFrame) && s.up[0].msg.Request?
    ensures var r, id := DoServe(s), s.up[0].id;
            var full := s.up[0].msg.op == Bash && |set i | i in s.workers && s.workers[i].op == Bash| >= 16;
            && id in r.workers && r.loop == (if full then Refusing(id) else Idle)
            && r.workers[id] == Worker(s.up[0].msg.op, if full then Refused else Queued, false, 0, false, 0, [])
    ensures forall i :: i in s.workers ==> s.workers[i].work != Refused
  {
    var id, op := s.up[0].id, s.up[0].msg.op;
    RequestsAreRegistered(s);
    T.RegisterValid(s.table, id, KindOf(op), s.now);
    ProcessesAreBash(s.table.active, s.workers);
    RegisteredShape(s, id, op);
  }

  /** The step is one that cancels the request: its time is up, or the serve loop reads a cancel for it. */
  predicate Cancels(s: Session, a: Act, id: Id)
    requires Can(s, a)
  {
    a == WorkStep(id, Timeout) || (a == ServeFrame && s.up[0] == Frame(id, Cancel))
  }

  /** One worker may have changed, and is cancelled if it was, or if this has happened. */
  ghost predicate OneCancelled(before: map<Id, Worker>, after: map<Id, Worker>, id: Id, happened: bool) {
    && (forall j :: j in before && j != id ==> j in after && after[j] == before[j])
    && (id in before ==> id in after && (after[id].cancelled <==> before[id].cancelled || happened))
  }

  lemma DoCancelCancels(s: Session, id: Id)
    requires |s.up| > 0 && T.Valid(s.table) && s.table.active.Keys == s.workers.Keys && DoCancel(s, id).fault == NoFault
    requires s.fault == NoFault
    ensures OneCancelled(s.workers, DoCancel(s, id).workers, id, true)
  {
    T.FindIs(s.table, id, s.now);
  }

  lemma DoCreditCancels(s: Session, id: Id, bytes: nat)
    requires |s.up| > 0
    ensures OneCancelled(s.workers, DoCredit(s, id, bytes).workers, id, false)
  {}

  lemma ServeCancels(s: Session, id: Id)
    requires TableInv(s) && Can(s, ServeFrame) && DoServe(s).fault == NoFault && id in s.workers
    requires s.up[0].msg.Request? ==> s.up[0].id !in s.workers
    ensures var r := DoServe(s);
            id in r.workers && (r.workers[id].cancelled <==> s.workers[id].cancelled || s.up[0] == Frame(id, Cancel))
  {
    match s.up[0].msg
    case Request(op) =>
    case Cancel => DoCancelCancels(s, s.up[0].id);
    case Credit(bytes) => DoCreditCancels(s, s.up[0].id, bytes);
  }

  lemma WorkCancels(s: Session, id: Id, step: Step, j: Id)
    requires Can(s, WorkStep(id, step)) && j in s.workers && DoWork(s, id, step).fault == NoFault
    ensures var r := DoWork(s, id, step);
            && (j in r.workers <==> !(j == id && step.Finish?))
            && (j in r.workers ==> (r.workers[j].cancelled <==> s.workers[j].cancelled || (j == id && step == Timeout)))
  {
    WorkTouches(View(s, id), step);
  }

  lemma OtherActsCancel(s: Session, a: Act)
    requires Can(s, a) && (a.Allocate? || a.TakeFrame? || a.Signal? || a.WriteTerminal? || a.Tick?)
    ensures forall j :: j in s.workers ==>
              j in Do(s, a).workers && Do(s, a).workers[j].cancelled == s.workers[j].cancelled
  {}

  lemma CallCancels(s: Session, id: Id, step: Step)
    requires Can(s, CallStep(id, step))
    ensures DoCall(s, id, step).workers == s.workers
  {
    CallChanges(s, id, step);
  }

  lemma CancelledStep(s: Session, a: Act, id: Id)
    requires TableInv(s) && Can(s, a) && Do(s, a).fault == NoFault && id in s.workers
    requires a == ServeFrame && s.up[0].msg.Request? ==> s.up[0].id !in s.workers
    ensures id in Do(s, a).workers <==> !(a.WorkStep? && a.id == id && a.step.Finish?)
    ensures id in Do(s, a).workers ==>
              (Do(s, a).workers[id].cancelled <==> s.workers[id].cancelled || Cancels(s, a, id))
  {
    match a
    case CallStep(i, step) => CallCancels(s, i, step);
    case ServeFrame => ServeCancels(s, id);
    case WorkStep(i, step) => WorkCancels(s, i, step, id);
    case _ => OtherActsCancel(s, a);
  }

  /** A request that is worked on is cancelled by exactly these steps, and stays cancelled. */
  lemma CancelledIff(s: Session, a: Act, id: Id)
    requires Inv(s) && Can(s, a) && Do(s, a).fault == NoFault && id in s.workers
    ensures id in Do(s, a).workers <==> !(a.WorkStep? && a.id == id && a.step.Finish?)
    ensures id in Do(s, a).workers ==>
              (Do(s, a).workers[id].cancelled <==> s.workers[id].cancelled || Cancels(s, a, id))
  {
    if a == ServeFrame { NewRequestIsNew(s); }
    CancelledStep(s, a, id);
  }

  lemma NewRequestIsNew(s: Session)
    requires Inv(s) && Can(s, ServeFrame)
    ensures s.up[0].msg.Request? ==> s.up[0].id !in s.workers
    ensures TableInv(s)
  {
    if s.up[0].msg.Request? { RequestIsNew(s); }
  }

  /** Wherever a worker can look for a cancel, it may end with it. */
  predicate MayEndCancelled(s: Session, id: Id)
    requires id in s.workers
  {
    var work := s.workers[id].work;
    work == Queued || work.Blocked? || work == Ended ==> Can(s, WorkStep(id, Finish(Failure(Cancelled))))
  }

  lemma CancelledMayEnd(s: Session, id: Id)
    requires IdsInv(s) && LanesInv(s) && s.fault == NoFault && id in s.workers && s.workers[id].cancelled
    ensures MayEndCancelled(s, id)
  {
    assert Known(s, id) && LaneInv(View(s, id));
  }

  lemma {:induction false} StaysCancelled(s: Session, acts: seq<Act>, id: Id)
    requires Inv(s) && s.fault == NoFault && CanRun(s, acts) && Run(s, acts).fault == NoFault
    requires id in s.past.completed || (id in s.workers && s.workers[id].cancelled)
    ensures var r := Run(s, acts); Inv(r) && (id in r.past.completed || (id in r.workers && r.workers[id].cancelled))
    decreases |acts|
  {
    if |acts| > 0 {
      NoFaultBefore(s, acts);
      StepKeepsSession(s, acts[0]);
      CompletedGrow(s, acts[0]);
      if id in s.past.completed {
        PrefixHas(s.past.completed, Do(s, acts[0]).past.completed, id);
      } else {
        CancelledIff(s, acts[0], id);
      }
      StaysCancelled(Do(s, acts[0]), acts[1..], id);
    }
  }

  lemma PrefixHas(a: seq<Id>, b: seq<Id>, id: Id)
    requires a <= b && id in a
    ensures id in b
  {}

  lemma NoFaultBefore(s: Session, acts: seq<Act>)
    requires |acts| > 0 && CanRun(s, acts) && Run(s, acts).fault == NoFault
    ensures Do(s, acts[0]).fault == NoFault
  {
    if |acts| == 1 { assert acts[1..] == []; }
  }

  lemma ServeKeepsCompleted(s: Session)
    requires Can(s, ServeFrame)
    ensures DoServe(s).past == s.past
  {
    match s.up[0].msg
    case Request(op) => assert DoRegister(s, s.up[0].id, op).past == s.past;
    case Cancel => assert DoCancel(s, s.up[0].id).past == s.past;
    case Credit(bytes) => assert DoCredit(s, s.up[0].id, bytes).past == s.past;
  }

  lemma WorkCompletes(s: Session, id: Id, step: Step)
    requires Can(s, WorkStep(id, step)) && DoWork(s, id, step).fault == NoFault
    ensures DoWork(s, id, step).past.completed == s.past.completed + if step.Finish? then [id] else []
  {}

  lemma CompletedGrow(s: Session, a: Act)
    requires Can(s, a) && Do(s, a).fault == NoFault
    ensures Do(s, a).past.completed == s.past.completed + if a.WorkStep? && a.step.Finish? then [a.id] else []
  {
    match a
    case WorkStep(id, step) => WorkCompletes(s, id, step);
    case ServeFrame => ServeKeepsCompleted(s);
    case _ =>
  }

  lemma CancelIsNoFault(s: Session)
    requires Inv(s) && Can(s, ServeFrame) && s.up[0].msg.Cancel? && s.up[0].id in s.workers
    ensures DoServe(s).fault == NoFault && TableInv(s)
  {
    ControlOfActive(s);
  }

  lemma HeardNow(s: Session)
    requires TableInv(s) && Can(s, ServeFrame) && s.up[0].msg.Cancel? && s.up[0].id in s.workers
    requires DoServe(s).fault == NoFault
    ensures s.up[0].id in DoServe(s).workers && DoServe(s).workers[s.up[0].id].cancelled
  {
    ServeCancels(s, s.up[0].id);
  }

  /** A cancel that is read while its request is worked on reaches the worker: from then on, in every run, that may end
      with it wherever it looks, until it has ended. */
  lemma CancelIsHeard(s: Session, acts: seq<Act>)
    requires Inv(s) && Can(s, ServeFrame) && s.up[0].msg.Cancel? && s.up[0].id in s.workers
    requires CanRun(DoServe(s), acts) && Run(DoServe(s), acts).fault == NoFault
    ensures var r, id := Run(DoServe(s), acts), s.up[0].id;
            id in r.past.completed || (id in r.workers && MayEndCancelled(r, id))
  {
    var id := s.up[0].id;
    CancelIsNoFault(s);
    HeardNow(s);
    ServeKeeps(s);
    StaysCancelled(DoServe(s), acts, id);
    var r := Run(DoServe(s), acts);
    if id !in r.past.completed { CancelledMayEnd(r, id); }
  }

  /** A worker that has not been cancelled does not say that it was. */
  lemma NotCancelledBefore(s: Session, id: Id)
    requires id in s.workers && s.workers[id].op == Bash && !s.workers[id].cancelled
    ensures !Can(s, WorkStep(id, Finish(Failure(Cancelled))))
  {}

  // ---------------------------------------------------------------- no run gets stuck

  /** A step that needs no new call, no cancel, and no time to pass. */
  predicate GoesOn(s: Session, a: Act) {
    && Can(s, a)
    && match a
       case CallStep(_, step) => !step.SendCancel?
       case WorkStep(_, step) => !step.Timeout?
       case _ => !a.Allocate? && !a.Tick?
  }

  /** The frame that the reader holds back is taken by its call, which makes room for it if need be. */
  lemma HeldFrameGetsOn(s: Session) returns (a: Act)
    requires Inv(s) && s.fault == NoFault && s.held.Some?
    ensures GoesOn(s, a)
  {
    var id := s.held.value.id;
    var l := View(s, id);
    assert l.down[0] == s.held.value.msg;
    FramesGetOn(l);
    a := CallStep(id, if Enabled(l, Deliver) then Deliver else if Enabled(l, Receive) then Receive
                      else if Enabled(l, SendOwed) then SendOwed else SendFirstCredit);
  }

  lemma RefusalGetsOn(s: Session) returns (a: Act)
    requires IdsInv(s) && LanesInv(s) && TableInv(s) && s.fault == NoFault && s.loop.Refusing?
    ensures GoesOn(s, a)
  {
    var id := s.loop.id;
    assert Known(s, id) && LaneInv(View(s, id)) && s.workers[id].work == Refused;
    a := WorkStep(id, Finish(Failure(ResourceLimit)));
  }

  /** The serve loop or another goroutine of the server can go on with what it has in hand. */
  lemma ServerGetsOn(s: Session) returns (a: Act)
    requires Inv(s) && s.fault == NoFault && (s.loop != Idle || s.closing != map[])
    ensures GoesOn(s, a)
  {
    match s.loop {
      case Notifying(_) => a := Signal;
      case Refusing(_) => a := RefusalGetsOn(s);
      case _ =>
        var id :| id in s.closing;
        a := WriteTerminal(id);
    }
  }

  /** With nothing under way, a call that has not ended can go on, or its worker can. */
  lemma CallGetsOn(s: Session, id: Id) returns (a: Act)
    requires Inv(s) && s.fault == NoFault && Known(s, id) && (id in s.pending || s.calls[id].progress.status == Open)
    requires s.held == None && s.down == [] && s.loop == Idle && s.closing == map[] && s.up == []
    ensures GoesOn(s, a)
  {
    var step := LaneGetsOn(View(s, id));
    a := if OfCall(step) then CallStep(id, step) else WorkStep(id, step);
  }

  /** No state is stuck as long as some call has not ended: neither the one frame that the reader holds for all calls,
      nor the serve loop, nor a producer without credit can hold up all of them. */
  lemma SessionGetsOn(s: Session, id: Id) returns (a: Act)
    requires Inv(s) && s.fault == NoFault && Known(s, id) && (id in s.pending || s.calls[id].progress.status == Open)
    ensures GoesOn(s, a)
  {
    if s.held.Some? {
      a := HeldFrameGetsOn(s);
    } else if |s.down| > 0 {
      a := TakeFrame;
    } else if s.loop != Idle || s.closing != map[] {
      a := ServerGetsOn(s);
    } else if |s.up| > 0 {
      a := ServeFrame;
    } else {
      a := CallGetsOn(s, id);
    }
  }

  /** What a call has in the end: all output of its process, or an error it understands. */
  predicate HasEnded(s: Session, id: Id)
    requires Known(s, id)
  {
    var c := s.calls[id];
    && id !in s.pending && (c.progress.status == Succeeded || c.progress.status.Failed?)
    && (c.op == Bash && c.progress.status == Succeeded ==> c.progress.output == s.read[id])
  }

  lemma ReturnedHasEnded(s: Session, id: Id)
    requires LanesInv(s) && Known(s, id) && id !in s.pending && s.calls[id].progress.status != Open
    ensures HasEnded(s, id)
  {
    NoCallIsKilled(View(s, id));
    OutputIsPrefix(View(s, id));
  }

  lemma GoesOnUntilEnded(s: Session, id: Id)
    requires Inv(s) && s.fault == NoFault && Known(s, id)
    ensures HasEnded(s, id) || exists a :: GoesOn(s, a)
  {
    if id in s.pending || s.calls[id].progress.status == Open {
      var a := SessionGetsOn(s, id);
    } else {
      ReturnedHasEnded(s, id);
    }
  }

  /** A run from the handshake stands still only when every call that was ever made has ended. */
  lemma EveryRunGoesOn(now: int, acts: seq<Act>)
    requires CanRun(Start(now), acts)
    ensures var s := Run(Start(now), acts);
            s.fault == NoFault ==> (exists a :: GoesOn(s, a)) || forall id :: Known(s, id) ==> HasEnded(s, id)
  {
    StartInv(now);
    RunKeeps(Start(now), acts);
    var s := Run(Start(now), acts);
    if s.fault == NoFault {
      forall id | Known(s, id) ensures HasEnded(s, id) || exists a :: GoesOn(s, a) { GoesOnUntilEnded(s, id); }
    }
  }

  // ---------------------------------------------------------------- runs in which every control frame is in time

  /** The serve loop reads no control frame that was written too late, or whose request's terminal frame was, and reads
      every one within the lifetime of a tombstone. */
  ghost predicate InTime(s: Session, a: Act)
    requires Can(s, a)
  {
    a == ServeFrame && !s.up[0].msg.Request? ==>
      |s.sent| > 0 && !ControlExpired(s)
      && exists slack: nat, lag: nat :: WrittenWithin(s, slack) && PublishedWithin(s, lag) && slack + lag <= PROMPT
  }

  ghost predicate CanRunInTime(s: Session, acts: seq<Act>)
    decreases |acts|
  {
    |acts| == 0 || (Can(s, acts[0]) && InTime(s, acts[0]) && CanRunInTime(Do(s, acts[0]), acts[1..]))
  }

  /** Such runs meet no fault at all. */
  lemma {:induction false} RunInTimeIsFaultless(s: Session, acts: seq<Act>)
    requires Inv(s) && s.fault == NoFault && CanRunInTime(s, acts)
    ensures CanRun(s, acts) && Run(s, acts).fault == NoFault && Inv(Run(s, acts))
    decreases |acts|
  {
    if |acts| > 0 {
      StepInTime(s, acts[0]);
      RunInTimeIsFaultless(Do(s, acts[0]), acts[1..]);
    }
  }

  lemma StepInTime(s: Session, a: Act)
    requires Inv(s) && Can(s, a) && InTime(s, a)
    ensures Do(s, a).fault == NoFault && Inv(Do(s, a))
  {
    StepKeepsSession(s, a);
    if a == ServeFrame && !s.up[0].msg.Request? {
      var slack: nat, lag: nat :| WrittenWithin(s, slack) && PublishedWithin(s, lag) && slack + lag <= PROMPT;
      PromptFrameFailsIffExpired(s, slack, lag);
    }
  }

  // ---------------------------------------------------------------- three runs that end in an unknown control frame

  lemma FirstOfBoth(a: seq<Act>, b: seq<Act>)
    requires |a| > 0
    ensures |a + b| > 0 && (a + b)[0] == a[0] && (a + b)[1..] == a[1..] + b
  {}

  lemma {:induction false} RunJoins(s: Session, a: seq<Act>, b: seq<Act>)
    requires CanRun(s, a) && CanRun(Run(s, a), b)
    ensures CanRun(s, a + b) && Run(s, a + b) == Run(Run(s, a), b)
    decreases |a|
  {
    if |a| == 0 {
      assert a + b == b;
    } else {
      FirstOfBoth(a, b);
      RunJoins(Do(s, a[0]), a[1..], b);
    }
  }

  lemma RunThen(s: Session, acts: seq<Act>, a: Act)
    requires CanRun(s, acts) && Can(Run(s, acts), a)
    ensures CanRun(s, acts + [a]) && Run(s, acts + [a]) == Do(Run(s, acts), a)
  {
    assert [a][1..] == [];
    RunJoins(s, acts, [a]);
  }

  /** A run from the handshake that leads to s. */
  ghost predicate Leads(now: int, acts: seq<Act>, s: Session) {
    CanRun(Start(now), acts) && Run(Start(now), acts) == s && s.fault == NoFault
  }

  lemma LeadsOn(now: int, acts: seq<Act>, s: Session, a: Act)
    requires Leads(now, acts, s) && Can(s, a) && Do(s, a).fault == NoFault
    ensures Leads(now, acts + [a], Do(s, a))
  {
    RunThen(Start(now), acts, a);
  }

  lemma LeadsToGood(now: int, acts: seq<Act>, s: Session)
    requires Leads(now, acts, s)
    ensures Inv(s)
  {
    StartInv(now);
    RunKeeps(Start(now), acts);
  }

  lemma LeadsToIds(now: int, acts: seq<Act>, s: Session)
    requires Leads(now, acts, s)
    ensures IdsInv(s)
  {
    LeadsToGood(now, acts, s);
  }

  /** Nothing is under way but the frames given and the requests that are worked on. */
  ghost predicate Scene(s: Session, up: seq<Frame<UpMsg>>, down: seq<Frame<DownMsg>>, workers: map<Id, Worker>) {
    s.fault == NoFault && s.loop == Idle && s.up == up && s.down == down && s.workers == workers
  }

  /** Nothing moves; there may be answers that nobody has written yet. */
  ghost predicate Quiet(s: Session) { Scene(s, [], [], map[]) && s.held == None && |s.pending| < MAX_PENDING }

  /** A file query that has been asked, with what has reached its call. */
  function Query(inbox: seq<DownMsg>): Call { Call(FileQuery, Waiting, FRESH, 0, false, inbox) }

  const ANSWER := Response(0)

  ghost predicate SameCalls(s: Session, r: Session) {
    r.next == s.next && r.now == s.now && r.held == s.held && r.calls == s.calls && r.read.Keys == s.read.Keys
  }

  /** A call for a query has started. */
  ghost predicate AllocatedOne(s: Session, r: Session) {
    var id := s.next + 1;
    && Scene(r, [], [], map[]) && r.held == None && r.pending == s.pending + {id} && r.next == id && r.now == s.now
    && r.past == s.past && r.calls == s.calls[id := NewLane(FileQuery).call] && r.closing == s.closing
    && r.read.Keys == s.read.Keys + {id} && id !in s.pending && id !in s.closing && Known(r, id)
  }

  /** A query has been asked. */
  ghost predicate AskedOne(s: Session, r: Session) {
    var id := s.next + 1;
    && Scene(r, [Frame(id, Request(FileQuery))], [], map[]) && r.held == None && r.pending == s.pending + {id}
    && r.next == id && r.now == s.now && r.past == s.past && r.calls == s.calls[id := Query([])]
    && r.closing == s.closing && r.read.Keys == s.read.Keys + {id} && id !in s.pending && id !in s.closing
  }

  /** The server works on the query id. */
  ghost predicate RegisteredOne(s: Session, r: Session, id: Id) {
    && Scene(r, [], [], map[id := NewWorker(FileQuery, false)]) && SameCalls(s, r)
    && r.pending == s.pending && r.past == s.past && r.closing == s.closing
  }

  /** The query id is completed, and its answer still to be written. */
  ghost predicate CompletedOne(s: Session, r: Session, id: Id) {
    && Scene(r, [], [], map[]) && SameCalls(s, r) && r.pending == s.pending
    && r.past == Completed(s.past, id, s.now) && r.closing == s.closing[id := ANSWER]
  }

  /** Its answer is written. */
  ghost predicate WrittenOne(s: Session, r: Session, id: Id) {
    && Scene(r, [], [Frame(id, ANSWER)], map[]) && SameCalls(s, r) && r.pending == s.pending
    && r.past.completed == s.past.completed && r.past.times == s.past.times && r.closing == s.closing - {id}
  }

  /** Its answer has reached its call, which has not looked at it yet. */
  ghost predicate DeliveredOne(s: Session, r: Session, id: Id) {
    && Scene(r, [], [], map[]) && r.held == None && r.pending == s.pending - {id}
    && r.next == s.next && r.now == s.now && r.calls == s.calls[id := Query([ANSWER])] && r.read.Keys == s.read.Keys
    && r.past.completed == s.past.completed && r.past.times == s.past.times && r.closing == s.closing
  }

  ghost predicate AskedAndAnswered(s: Session, r: Session) {
    && Quiet(r) && r.next == s.next + 1 && r.now == s.now && r.pending == s.pending && r.closing == s.closing
    && r.past.completed == s.past.completed + [r.next] && r.past.times == s.past.times + [s.now]
    && r.calls == s.calls[r.next := Query([ANSWER])] && r.read.Keys == s.read.Keys + {r.next}
  }

  lemma CallsAfterOther(s: Session, a: Session, b: Session, c: Session, d: Session, r: Session)
    requires AskedOne(s, a) && RegisteredOne(a, b, s.next + 1) && CompletedOne(b, c, s.next + 1)
    requires WrittenOne(c, d, s.next + 1) && DeliveredOne(d, r, s.next + 1)
    ensures r.calls == s.calls[s.next + 1 := Query([ANSWER])] && r.read.Keys == s.read.Keys + {s.next + 1}
    ensures r.next == s.next + 1 && r.now == s.now
  {}

  lemma PastAfterOther(s: Session, a: Session, b: Session, c: Session, d: Session, r: Session)
    requires AskedOne(s, a) && RegisteredOne(a, b, s.next + 1) && CompletedOne(b, c, s.next + 1)
    requires WrittenOne(c, d, s.next + 1) && DeliveredOne(d, r, s.next + 1)
    ensures r.past.completed == s.past.completed + [s.next + 1] && r.past.times == s.past.times + [s.now]
    ensures r.pending == s.pending && r.closing == s.closing
  {}

  lemma OneAfterOther(s: Session, a: Session, b: Session, c: Session, d: Session, r: Session)
    requires Quiet(s) && AskedOne(s, a) && RegisteredOne(a, b, s.next + 1) && CompletedOne(b, c, s.next + 1)
    requires WrittenOne(c, d, s.next + 1) && DeliveredOne(d, r, s.next + 1)
    ensures AskedAndAnswered(s, r)
  {
    CallsAfterOther(s, a, b, c, d, r);
    PastAfterOther(s, a, b, c, d, r);
  }

  lemma NextIsNew(s: Session)
    requires IdsInv(s)
    ensures var id := s.next + 1; id !in s.pending && id !in s.closing
  {
    assert s.next + 1 !in s.calls;
  }

  lemma AllocatesOne(s: Session)
    requires Scene(s, [], [], map[]) && s.held == None && s.next + 1 !in s.pending && s.next + 1 !in s.closing
    ensures AllocatedOne(s, DoAllocate(s, FileQuery))
  {
    var r := DoAllocate(s, FileQuery);
    assert r.read.Keys == s.read.Keys + {s.next + 1} && r.calls == s.calls[s.next + 1 := NewLane(FileQuery).call];
    assert Scene(r, [], [], map[]);
  }

  lemma AskedByOne(s: Session, m: Session)
    requires AllocatedOne(s, m)
    ensures Can(m, CallStep(s.next + 1, SendRequest)) && AskedOne(s, DoCall(m, s.next + 1, SendRequest))
  {
    var id := s.next + 1;
    Asked(m, id);
    CallChanges(m, id, SendRequest);
    assert s.calls[id := m.calls[id]][id := Query([])] == s.calls[id := Query([])];
    assert Scene(DoCall(m, id, SendRequest), [Frame(id, Request(FileQuery))], [], map[]);
  }

  lemma AllocatedRun(now: int, acts: seq<Act>, s: Session) returns (more: seq<Act>, r: Session)
    requires Leads(now, acts, s) && Quiet(s)
    ensures Leads(now, more, r) && AllocatedOne(s, r)
  {
    var a := Allocate(FileQuery);
    LeadsToIds(now, acts, s);
    NextIsNew(s);
    AllocatesOne(s);
    LeadsOn(now, acts, s, a);
    more, r := acts + [a], DoAllocate(s, FileQuery);
  }

  lemma Asked(m: Session, id: Id)
    requires m.fault == NoFault && Known(m, id) && m.calls[id] == NewLane(FileQuery).call
    ensures Can(m, CallStep(id, SendRequest))
    ensures var r := DoCall(m, id, SendRequest);
            r.calls == m.calls[id := Query([])] && r.up == m.up + [Frame(id, Request(FileQuery))]
  {}

  lemma SentRun(now: int, acts: seq<Act>, s: Session, m: Session) returns (more: seq<Act>, r: Session)
    requires Leads(now, acts, m) && AllocatedOne(s, m)
    ensures Leads(now, more, r) && AskedOne(s, r)
  {
    var a := CallStep(s.next + 1, SendRequest);
    AskedByOne(s, m);
    LeadsOn(now, acts, m, a);
    more, r := acts + [a], Do(m, a);
  }

  lemma AskedRun(now: int, acts: seq<Act>, s: Session) returns (more: seq<Act>, r: Session)
    requires Leads(now, acts, s) && Quiet(s)
    ensures Leads(now, more, r) && AskedOne(s, r)
  {
    var a, m := AllocatedRun(now, acts, s);
    more, r := SentRun(now, a, s, m);
  }

  lemma RegistersOne(s: Session, id: Id)
    requires Scene(s, [Frame(id, Request(FileQuery))], [], map[]) && DoServe(s).fault == NoFault
    requires var reg := T.Register(s.table, id, KindOf(FileQuery), s.now); reg.Registered? ==> !reg.limited
    ensures RegisteredOne(s, DoServe(s), id)
  {}

  lemma RegisteredRun(now: int, acts: seq<Act>, s: Session, id: Id) returns (more: seq<Act>, r: Session)
    requires Leads(now, acts, s) && Scene(s, [Frame(id, Request(FileQuery))], [], map[])
    ensures Leads(now, more, r) && RegisteredOne(s, r, id)
  {
    LeadsToGood(now, acts, s);
    RequestsAreRegistered(s);
    RegistersOne(s, id);
    LeadsOn(now, acts, s, ServeFrame);
    more, r := acts + [ServeFrame], Do(s, ServeFrame);
  }

  lemma WorkedOnInRun(now: int, acts: seq<Act>, s: Session, id: Id)
    requires Leads(now, acts, s) && id in s.workers
    ensures id in s.table.active && Known(s, id)
  {
    LeadsToGood(now, acts, s);
  }

  lemma CompletesOne(s: Session, id: Id)
    requires Scene(s, [], [], map[id := NewWorker(FileQuery, false)]) && Known(s, id) && id in s.table.active
    ensures Can(s, WorkStep(id, Finish(ANSWER))) && CompletedOne(s, DoWork(s, id, Finish(ANSWER)), id)
  {
    FinishChanges(s, id, ANSWER);
    assert s.workers - {id} == map[];
    var r := DoWork(s, id, Finish(ANSWER));
    assert Scene(r, [], [], map[]) && SameCalls(s, r);
  }

  lemma CompletedRun(now: int, acts: seq<Act>, s: Session, id: Id) returns (more: seq<Act>, r: Session)
    requires Leads(now, acts, s) && Scene(s, [], [], map[id := NewWorker(FileQuery, false)])
    ensures Leads(now, more, r) && CompletedOne(s, r, id)
  {
    var a := WorkStep(id, Finish(ANSWER));
    WorkedOnInRun(now, acts, s, id);
    CompletesOne(s, id);
    LeadsOn(now, acts, s, a);
    more, r := acts + [a], Do(s, a);
  }

  lemma WrittenRun(now: int, acts: seq<Act>, s: Session, id: Id) returns (more: seq<Act>, r: Session)
    requires Leads(now, acts, s) && Scene(s, [], [], map[]) && id in s.closing && s.closing[id] == ANSWER
    ensures Leads(now, more, r) && WrittenOne(s, r, id)
  {
    var a := WriteTerminal(id);
    LeadsOn(now, acts, s, a);
    more, r := acts + [a], Do(s, a);
    assert [] + [Frame(id, ANSWER)] == [Frame(id, ANSWER)];
  }

  lemma TakesOne(s: Session, id: Id)
    requires Scene(s, [], [Frame(id, ANSWER)], map[]) && s.held == None && id in s.pending
    ensures Can(s, TakeFrame)
    ensures var m := DoTake(s);
            && Scene(m, [], [], map[]) && m.held == Some(Frame(id, ANSWER)) && m.pending == s.pending - {id}
            && SameCalls(s, m.(held := None)) && m.closing == s.closing
            && m.past.completed == s.past.completed && m.past.times == s.past.times
  {}

  lemma DeliversOne(s: Session, id: Id)
    requires Scene(s, [], [], map[]) && s.held == Some(Frame(id, ANSWER)) && Known(s, id) && s.calls[id] == Query([])
    ensures Can(s, CallStep(id, Deliver))
    ensures var r := DoCall(s, id, Deliver);
            && r.calls == s.calls[id := Query([ANSWER])] && r.held == None && r.read.Keys == s.read.Keys
  {
    assert View(s, id).down == [ANSWER] + Share([], id);
    assert DoCall(s, id, Deliver).calls[id].inbox == [ANSWER];
  }

  lemma DeliveredRun(now: int, acts: seq<Act>, s: Session, id: Id) returns (more: seq<Act>, r: Session)
    requires Leads(now, acts, s) && Scene(s, [], [Frame(id, ANSWER)], map[]) && s.held == None
    requires Known(s, id) && s.calls[id] == Query([]) && id in s.pending && id !in s.closing
    ensures Leads(now, more, r) && DeliveredOne(s, r, id)
  {
    TakesOne(s, id);
    LeadsOn(now, acts, s, TakeFrame);
    var m, a := Do(s, TakeFrame), CallStep(id, Deliver);
    DeliversOne(m, id);
    CallChanges(m, id, Deliver);
    LeadsOn(now, acts + [TakeFrame], m, a);
    more, r := acts + [TakeFrame] + [a], Do(m, a);
  }

  lemma Round(now: int, acts: seq<Act>, s: Session) returns (more: seq<Act>, r: Session)
    requires Leads(now, acts, s) && Quiet(s)
    ensures Leads(now, more, r) && AskedAndAnswered(s, r)
  {
    var id := s.next + 1;
    var a1, s1 := AskedRun(now, acts, s);
    var a2, s2 := RegisteredRun(now, a1, s1, id);
    var a3, s3 := CompletedRun(now, a2, s2, id);
    var a4, s4 := WrittenRun(now, a3, s3, id);
    more, r := DeliveredRun(now, a4, s4, id);
    OneAfterOther(s, s1, s2, s3, s4, r);
  }

  /** Any number of such queries come and go without the clock or the first call being touched. */
  lemma {:induction false} Rounds(now: int, acts: seq<Act>, s: Session, n: nat) returns (more: seq<Act>, r: Session)
    requires Leads(now, acts, s) && Quiet(s) && Known(s, 1) && 1 <= s.next && |s.past.completed| > 1
    ensures Leads(now, more, r) && Quiet(r) && r.now == s.now && |r.past.completed| == |s.past.completed| + n
    ensures r.past.completed[1] == s.past.completed[1] && r.pending == s.pending && r.closing == s.closing
    ensures Known(r, 1) && r.calls[1] == s.calls[1] && r.next == s.next + n
    decreases n
  {
    if n == 0 {
      more, r := acts, s;
    } else {
      var a, m := Rounds(now, acts, s, n - 1);
      more, r := Round(now, a, m);
    }
  }

  lemma NothingSent(now: int, acts: seq<Act>, s: Session)
    requires Leads(now, acts, s) && s.up == []
    ensures s.sent == []
  {
    LeadsToGood(now, acts, s);
  }

  /** A call that has not looked at an answer gives up and cancels. */
  lemma CancelRun(now: int, acts: seq<Act>, s: Session, down: seq<Frame<DownMsg>>, inbox: seq<DownMsg>)
    returns (more: seq<Act>, r: Session)
    requires Leads(now, acts, s) && Scene(s, [], down, map[]) && Known(s, 1) && s.calls[1] == Query(inbox)
    ensures Leads(now, more, r) && Scene(r, [Frame(1, Cancel)], down, map[])
    ensures r.sent == [Stamp(s.next, 1 in s.pending)] && r.closing == s.closing
    ensures r.now == s.now && r.past == s.past && r.next == s.next && r.pending == s.pending
  {
    NothingSent(now, acts, s);
    var a := CallStep(1, SendCancel);
    CallChangesClosing(s, 1, SendCancel);
    r := Do(s, a);
    LeadsOn(now, acts, s, a);
    more := acts + [a];
  }

  lemma CallChangesClosing(s: Session, id: Id, step: Step)
    requires Can(s, CallStep(id, step))
    ensures DoCall(s, id, step).closing == s.closing
  {
    CallTouches(View(s, id), step);
    SameClosing(s, id);
  }

  /** The cancel is read when its request is forgotten. */
  lemma ReadTooLate(now: int, acts: seq<Act>, s: Session, c: nat)
    requires Leads(now, acts, s) && s.loop == Idle && s.up == [Frame(1, Cancel)]
    requires c < |s.past.completed| == |s.past.times| && s.past.completed[c] == 1 && Forgettable(s.past, c, s.now)
    ensures CanRun(Start(now), acts + [ServeFrame])
    ensures Run(Start(now), acts + [ServeFrame]) == s.(fault := UnknownControl(1))
  {
    LeadsToGood(now, acts, s);
    assert Names(s, c);
    ControlFrameFailsIffForgotten(s);
    RunThen(Start(now), acts, ServeFrame);
  }

  /** One query has been asked and completed, and its answer is still to be written. */
  lemma CompletedFirst(now: int) returns (acts: seq<Act>, r: Session)
    ensures Leads(now, acts, r) && Quiet(r) && Known(r, 1) && r.calls[1] == Query([])
    ensures r.pending == {1} && r.next == 1 && r.now == now && r.closing == map[1 := ANSWER]
    ensures r.past.completed == [0, 1] && r.past.times == [now, now]
  {
    var a, s1 := AskedRun(now, [], Start(now));
    var b, s2 := RegisteredRun(now, a, s1, 1);
    acts, r := CompletedRun(now, b, s2, 1);
  }

  /** The first run: the cancel is written while its call is still pending, and read when the tombstone has expired. */
  lemma LateCancelEndsTheSession(now: int) returns (acts: seq<Act>)
    ensures CanRun(Start(now), acts)
    ensures var r := Run(Start(now), acts);
            && r.fault == UnknownControl(1) && r.now == now + T.TOMBSTONE_TTL && r.next == 1
            && r.sent == [Stamp(1, true)] && r.pending == {1} && r.down == [Frame(1, ANSWER)]
  {
    var a, s := CompletedFirst(now);
    var b, s1 := WrittenRun(now, a, s, 1);
    var c, s2 := CancelRun(now, b, s1, [Frame(1, ANSWER)], []);
    var tick := Tick(now + T.TOMBSTONE_TTL);
    LeadsOn(now, c, s2, tick);
    ReadTooLate(now, c + [tick], Do(s2, tick), 1);
    acts := c + [tick] + [ServeFrame];
  }

  /** The second run: no time passes, but 1024 other calls come and go before the cancel is written. */
  lemma OvertakenCancelEndsTheSession(now: int) returns (acts: seq<Act>)
    ensures CanRun(Start(now), acts)
    ensures var r := Run(Start(now), acts);
            && r.fault == UnknownControl(1) && r.now == now && r.next == 1 + T.MAX_TOMBSTONES
            && r.sent == [Stamp(r.next, false)] && r.pending == {}
  {
    var a, s1 := Round(now, [], Start(now));
    var b, s2 := Rounds(now, a, s1, T.MAX_TOMBSTONES);
    var c, s3 := CancelRun(now, b, s2, [], [ANSWER]);
    LeadsToGood(now, c, s3);
    ReadTooLate(now, c, s3, 1);
    acts := c + [ServeFrame];
  }

  /** The third run: the call is pending when its cancel is written and still pending when that is read, and no time
      passes. But its request is completed, and 1024 others have come and gone while its answer waits to be written. */
  lemma WaitingAnswerEndsTheSession(now: int) returns (acts: seq<Act>)
    ensures CanRun(Start(now), acts)
    ensures var r := Run(Start(now), acts);
            && r.fault == UnknownControl(1) && r.now == now && r.next == 1 + T.MAX_TOMBSTONES
            && r.sent == [Stamp(r.next, true)] && r.pending == {1} && r.closing == map[1 := ANSWER]
  {
    var a, s1 := CompletedFirst(now);
    var b, s2 := Rounds(now, a, s1, T.MAX_TOMBSTONES);
    var c, s3 := CancelRun(now, b, s2, [], []);
    LeadsToGood(now, c, s3);
    ReadTooLate(now, c, s3, 1);
    acts := c + [ServeFrame];
  }
}

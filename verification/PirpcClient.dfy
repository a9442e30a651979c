/** The pending table of the Pi RPC client: calls that register, wait, give up or are closed on, a reader that
    delivers replies, and the one finish that fails whatever is still pending. */
module PirpcClient {
  type Id = nat

  const MAX_ABANDONED := 256

  /** The result channel of a call is named by the call's identifier. */
  datatype Table = Table(pending: set<Id>, abandoned: set<Id>, order: seq<Id>)

  datatype Verdict = Deliver | Silent | Unknown

  // ---------------------------------------------------------------- the table's critical sections

  function Abandon(t: Table, id: Id): Table {
    if id !in t.pending then t
    else
      var order := t.order + [id];
      if |order| > MAX_ABANDONED then Table(t.pending - {id}, t.abandoned + {id} - {order[0]}, order[1..])
      else Table(t.pending - {id}, t.abandoned + {id}, order)
  }

  function Judge(t: Table, id: Id): Verdict {
    if id in t.abandoned then Silent else if id in t.pending then Deliver else Unknown
  }

  /** abandonedOrder lists exactly the abandoned identifiers, each once. */
  ghost predicate Valid(t: Table) {
    && t.pending !! t.abandoned
    && (forall i, j :: 0 <= i < j < |t.order| ==> t.order[i] != t.order[j])
    && (forall id :: id in t.abandoned <==> id in t.order)
    && |t.order| <= MAX_ABANDONED
  }

  class Client {
    var pending: set<Id>
    var abandoned: set<Id>
    var abandonedOrder: seq<Id>
    var closed: bool

    function View(): Table
      reads this
    {
      Table(pending, abandoned, abandonedOrder)
    }

    constructor ()
      ensures View() == Table({}, {}, []) && Valid(View()) && !closed
    {
      pending, abandoned, abandonedOrder, closed := {}, {}, [], false;
    }

    method Register(id: Id) returns (ok: bool)
      modifies this`pending
      ensures ok == !closed && View() == if ok then old(View()).(pending := old(pending) + {id}) else old(View())
    {
      ok := !closed;
      if ok {
        pending := pending + {id};
      }
    }

    method RemovePending(id: Id)
      modifies this`pending
      ensures View() == old(View()).(pending := old(pending) - {id})
    {
      pending := pending - {id};
    }

    method AbandonPending(id: Id)
      requires Valid(View())
      modifies this`pending, this`abandoned, this`abandonedOrder
      ensures View() == Abandon(old(View()), id) && Valid(View())
    {
      AbandonValid(View(), id);
      if id !in pending {
        return;
      }
      pending := pending - {id};
      abandoned := abandoned + {id};
      abandonedOrder := abandonedOrder + [id];
      if |abandonedOrder| > MAX_ABANDONED {
        var oldest := abandonedOrder[0];
        abandonedOrder := abandonedOrder[1..];
        abandoned := abandoned - {oldest};
      }
    }

    /** The lookup of handleRecord. */
    method Lookup(id: Id) returns (v: Verdict)
      modifies this`pending
      ensures v == Judge(old(View()), id) && View() == old(View()).(pending := old(pending) - {id})
      ensures v == Silent <==> id in abandoned
      ensures v == Deliver <==> id !in abandoned && id in old(pending)
    {
      var found := id in pending;
      if found {
        pending := pending - {id};
      }
      if id in abandoned {
        return Silent;
      }
      return if found then Deliver else Unknown;
    }

    /** The first half of finish: close(done). */
    method CloseDone()
      modifies this`closed
      ensures closed && View() == old(View())
    {
      closed := true;
    }

    /** The second half: it takes the whole table of pending calls. */
    method TakeAll() returns (all: set<Id>)
      modifies this`pending
      ensures all == old(pending) && View() == old(View()).(pending := {})
    {
      all := pending;
      pending := {};
    }

    /** finish, as far as the fields go: the first time, the client is closed, and all that is pending is to get the
        error; after that nothing happens. From then on no call registers. */
    method Finish() returns (all: set<Id>)
      modifies this`closed, this`pending
      ensures closed && all == if old(closed) then {} else old(pending)
      ensures View() == if old(closed) then old(View()) else old(View()).(pending := {})
    {
      if closed {
        return {};
      }
      CloseDone();
      all := TakeAll();
    }
  }

  lemma AbandonValid(t: Table, id: Id)
    requires Valid(t)
    ensures Valid(Abandon(t, id))
  {
    if id in t.pending {
      var order := t.order + [id];
      assert id !in t.order;
      assert forall i, j :: 0 <= i < j < |order| ==> order[i] != order[j];
      assert forall x :: x in t.abandoned + {id} <==> x in order;
      if |order| > MAX_ABANDONED {
        assert order == [order[0]] + order[1..];
        assert order[0] !in order[1..];
      }
    }
  }

  // ---------------------------------------------------------------- all calls together

  datatype Result = Reply | ClosedError

  /** Registered: in the table, the record not yet written. Returned: the call is over. */
  datatype Phase = Numbered | Registered | Waiting | Returned

  /** inbox: the channel's one slot; sent: all that has ever been sent to it. */
  datatype Call = Call(phase: Phase, inbox: seq<Result>, sent: nat)

  datatype Reader = Reading | Delivering(id: Id)

  /** finish: first the done channel is closed, then the table taken, then each of the calls in it sent the error. */
  datatype Finish = NotYet | DoneClosed | Sending(rest: set<Id>)

  /** history: every identifier that was abandoned, in order. */
  datatype State = State(table: Table, calls: map<Id, Call>, reader: Reader, finish: Finish, history: seq<Id>)

  datatype Act =
    | Number(id: Id)
    | Register(id: Id)
    | WriteDone(id: Id)
    | WriteFails(id: Id)
    | Receive(id: Id)
    | GiveUp(id: Id)
    | SeeClosed(id: Id)
    | GetReply(id: Id)
    | SendReply
    | CloseDone
    | TakePending
    | SendError(id: Id)

  predicate InPhase(s: State, id: Id, p: Phase) { id in s.calls && s.calls[id].phase == p }

  /** A send into the one-slot channel waits while the slot is taken. */
  predicate Can(s: State, a: Act) {
    match a
    case Number(id) => id !in s.calls
    case Register(id) => InPhase(s, id, Numbered)
    case WriteDone(id) => InPhase(s, id, Registered)
    case WriteFails(id) => InPhase(s, id, Registered)
    case Receive(id) => InPhase(s, id, Waiting) && |s.calls[id].inbox| > 0
    case GiveUp(id) => InPhase(s, id, Waiting)
    case SeeClosed(id) => InPhase(s, id, Waiting) && s.finish != NotYet
    case GetReply(_) => s.reader == Reading
    case SendReply => s.reader.Delivering? && s.reader.id in s.calls && |s.calls[s.reader.id].inbox| == 0
    case CloseDone => s.finish == NotYet
    case TakePending => s.finish == DoneClosed
    case SendError(id) => s.finish.Sending? && id in s.finish.rest && id in s.calls && |s.calls[id].inbox| == 0
  }

  function Enter(s: State, id: Id, p: Phase): State
    requires id in s.calls
  {
    s.(calls := s.calls[id := s.calls[id].(phase := p)])
  }

  function Send(s: State, id: Id, r: Result): State
    requires id in s.calls
  {
    var c := s.calls[id];
    s.(calls := s.calls[id := c.(inbox := c.inbox + [r], sent := c.sent + 1)])
  }

  function Drop(s: State, id: Id): State {
    s.(table := s.table.(pending := s.table.pending - {id}))
  }

  function Do(s: State, a: Act): State
    requires Can(s, a)
  {
    match a
    case Number(id) => s.(calls := s.calls[id := Call(Numbered, [], 0)])
    case Register(id) =>
      if s.finish != NotYet then Enter(s, id, Returned)
      else Enter(s, id, Registered).(table := s.table.(pending := s.table.pending + {id}))
    case WriteDone(id) => Enter(s, id, Waiting)
    case WriteFails(id) => Drop(Enter(s, id, Returned), id)
    case Receive(id) => s.(calls := s.calls[id := s.calls[id].(phase := Returned, inbox := s.calls[id].inbox[1..])])
    case GiveUp(id) =>
      Enter(s, id, Returned).(table := Abandon(s.table, id),
                              history := if id in s.table.pending then s.history + [id] else s.history)
    case SeeClosed(id) => Drop(Enter(s, id, Returned), id)
    case GetReply(id) => if Judge(s.table, id) == Deliver then Drop(s, id).(reader := Delivering(id)) else Drop(s, id)
    case SendReply => Send(s, s.reader.id, Reply).(reader := Reading)
    case CloseDone => s.(finish := DoneClosed)
    case TakePending => s.(finish := Sending(s.table.pending), table := s.table.(pending := {}))
    case SendError(id) => Send(s, id, ClosedError).(finish := Sending(s.finish.rest - {id}))
  }

  predicate Resting(s: State, id: Id) { s.finish.Sending? && id in s.finish.rest }

  /** Some thread will send to the call: its identifier is pending, or on its way. */
  predicate Owed(s: State, id: Id) {
    id in s.table.pending || s.reader == Delivering(id) || Resting(s, id)
  }

  /** Who may send to a call is one at a time, and none after something was sent. */
  ghost predicate CallInv(s: State, id: Id)
    requires id in s.calls
  {
    var c := s.calls[id];
    && !(id in s.table.pending && s.reader == Delivering(id))
    && !(Resting(s, id) && (id in s.table.pending || s.reader == Delivering(id)))
    && c.sent <= 1 && (Owed(s, id) ==> c.sent == 0)
    && |c.inbox| <= c.sent
    && (c.phase == Numbered ==> !Owed(s, id) && c.sent == 0 && id !in s.history)
    && (c.phase == Registered || c.phase == Waiting ==> (Owed(s, id) || |c.inbox| == 1) && id !in s.history)
    && (id in s.history ==> !Owed(s, id))
  }

  ghost predicate KnownInv(s: State) {
    && (forall id :: id in s.table.pending ==> id in s.calls)
    && (s.reader.Delivering? ==> s.reader.id in s.calls)
    && (s.finish.Sending? ==> s.table.pending == {} && forall id :: id in s.finish.rest ==> id in s.calls)
    && (forall id :: id in s.history ==> id in s.calls)
  }

  /** The abandoned identifiers are the last 256 of those that were given up while pending. */
  ghost predicate HistoryInv(t: Table, history: seq<Id>) {
    && Valid(t) && |t.order| <= |history|
    && t.order == history[|history| - |t.order|..]
    && (|t.order| == MAX_ABANDONED || t.order == history)
    && (forall i, j :: 0 <= i < j < |history| ==> history[i] != history[j])
  }

  ghost predicate Inv(s: State) {
    KnownInv(s) && HistoryInv(s.table, s.history) && forall id :: id in s.calls ==> CallInv(s, id)
  }

  /** No send blocks: whoever is to send finds the slot free. */
  lemma SendsNeverBlock(s: State, id: Id)
    requires Inv(s) && (s.reader == Delivering(id) || Resting(s, id))
    ensures id in s.calls && |s.calls[id].inbox| == 0
    ensures s.reader == Delivering(id) ==> Can(s, SendReply)
    ensures Resting(s, id) ==> Can(s, SendError(id))
  {
    assert CallInv(s, id);
  }

  /** No waiting call is stranded: it has a result, or some thread owes it one; and once finish has sent all
      its errors it has one, unless the reader is just about to send its reply. */
  lemma NoCallIsStranded(s: State, id: Id)
    requires Inv(s) && InPhase(s, id, Waiting)
    ensures |s.calls[id].inbox| == 1 || Owed(s, id)
    ensures s.finish == Sending({}) ==> |s.calls[id].inbox| == 1 || s.reader == Delivering(id)
  {
    assert CallInv(s, id);
  }

  lemma MemberAt(history: seq<Id>, k: nat, n: nat)
    requires n <= |history| && k < |history| && (forall i, j :: 0 <= i < j < |history| ==> history[i] != history[j])
    ensures history[k] in history[|history| - n..] <==> k >= |history| - n
  {
    var d := |history| - n;
    if k >= d {
      assert history[d..][k - d] == history[k];
    } else {
      forall j | 0 <= j < n ensures history[d..][j] != history[k] {}
    }
  }

  /** A late reply to a call that was given up is silent exactly while the call is one of the last 256 given up. */
  lemma LateReplySilentIff(s: State, k: nat)
    requires Inv(s) && k < |s.history|
    ensures Judge(s.table, s.history[k]) == if |s.history| - k <= MAX_ABANDONED then Silent else Unknown
  {
    var id := s.history[k];
    assert CallInv(s, id);
    MemberAt(s.history, k, |s.table.order|);
  }

  // ---------------------------------------------------------------- every step keeps it

  /** Only call id is touched, and nobody else is owed more or less. */
  ghost predicate Touches(s: State, r: State, id: Id) {
    && (forall x :: x in s.calls && x != id ==> x in r.calls && r.calls[x] == s.calls[x])
    && (forall x :: x in r.calls && x != id ==> x in s.calls)
    && (forall x :: x != id ==> (x in r.table.pending <==> x in s.table.pending))
    && (forall x :: x != id ==> (r.reader == Delivering(x) <==> s.reader == Delivering(x)))
    && (forall x :: x != id ==> (Resting(r, x) <==> Resting(s, x)))
    && (forall x :: x != id && x in r.table.abandoned ==> x in s.table.abandoned)
    && (forall x :: x != id ==> (x in r.history <==> x in s.history))
  }

  lemma OtherCalls(s: State, r: State, id: Id)
    requires Touches(s, r, id) && forall x :: x in s.calls ==> CallInv(s, x)
    ensures forall x :: x in r.calls && x != id ==> CallInv(r, x)
  {
    forall x | x in r.calls && x != id ensures CallInv(r, x) {
      assert CallInv(s, x);
    }
  }

  /** The call an act is about. */
  function Subject(s: State, a: Act): Id
    requires Can(s, a)
  {
    match a
    case SendReply => s.reader.id
    case CloseDone => 0
    case TakePending => 0
    case _ => a.id
  }

  lemma ActTouches(s: State, a: Act)
    requires Can(s, a) && !a.CloseDone? && !a.TakePending?
    ensures Touches(s, Do(s, a), Subject(s, a))
  {
    if a.GiveUp? {
      var t := Abandon(s.table, a.id);
      assert forall x :: x != a.id && x in t.abandoned ==> x in s.table.abandoned;
      forall x | x != a.id ensures x in Do(s, a).history <==> x in s.history {}
    }
  }

  lemma SubjectKept(s: State, a: Act)
    requires Inv(s) && Can(s, a) && !a.CloseDone? && !a.TakePending?
    ensures Subject(s, a) in Do(s, a).calls ==> CallInv(Do(s, a), Subject(s, a))
  {
    var id, r := Subject(s, a), Do(s, a);
    if id in s.calls {
      assert CallInv(s, id);
    } else {
      assert id !in s.table.pending && s.reader != Delivering(id) && !Resting(s, id) && id !in s.history;
    }
  }

  lemma AbandonedAreHistory(s: State, id: Id)
    requires HistoryInv(s.table, s.history)
    ensures id in s.table.abandoned ==> id in s.history
  {}

  lemma GiveUpKeepsHistory(s: State, id: Id)
    requires Inv(s) && Can(s, GiveUp(id))
    ensures HistoryInv(Do(s, GiveUp(id)).table, Do(s, GiveUp(id)).history)
  {
    if id in s.table.pending {
      assert CallInv(s, id);
      AbandonValid(s.table, id);
      GiveUpHistory(s.table, s.history, id);
    }
  }

  lemma RegisterKeepsHistory(s: State, id: Id)
    requires Inv(s) && Can(s, Register(id))
    ensures HistoryInv(Do(s, Register(id)).table, Do(s, Register(id)).history)
  {
    assert CallInv(s, id);
    AbandonedAreHistory(s, id);
  }

  lemma FewerPending(t: Table, u: Table, history: seq<Id>)
    requires HistoryInv(t, history) && u == t.(pending := u.pending) && u.pending <= t.pending
    ensures HistoryInv(u, history)
  {}

  lemma HistoryKept(s: State, a: Act)
    requires Inv(s) && Can(s, a)
    ensures HistoryInv(Do(s, a).table, Do(s, a).history)
  {
    match a
    case GiveUp(id) => GiveUpKeepsHistory(s, id);
    case Register(id) => RegisterKeepsHistory(s, id);
    case _ => FewerPending(s.table, Do(s, a).table, s.history);
  }

  lemma GiveUpHistory(t: Table, history: seq<Id>, id: Id)
    requires HistoryInv(t, history) && id in t.pending && id !in history && Valid(Abandon(t, id))
    ensures HistoryInv(Abandon(t, id), history + [id])
  {
    var h := history + [id];
    assert t.order + [id] == h[|h| - |t.order| - 1..];
    if |t.order| == MAX_ABANDONED {
      assert (t.order + [id])[1..] == h[|h| - |t.order|..];
    }
  }

  predicate OfCaller(a: Act) {
    a.Number? || a.Register? || a.WriteDone? || a.WriteFails? || a.Receive? || a.GiveUp? || a.SeeClosed?
  }

  lemma CallerKeepsKnown(s: State, a: Act)
    requires KnownInv(s) && Can(s, a) && OfCaller(a)
    ensures KnownInv(Do(s, a))
  {}

  lemma OthersKeepKnown(s: State, a: Act)
    requires KnownInv(s) && Can(s, a) && !OfCaller(a)
    ensures KnownInv(Do(s, a))
  {}

  lemma KnownKept(s: State, a: Act)
    requires Inv(s) && Can(s, a)
    ensures KnownInv(Do(s, a))
  {
    if OfCaller(a) { CallerKeepsKnown(s, a); } else { OthersKeepKnown(s, a); }
  }

  lemma TakeKeeps(s: State, id: Id)
    requires Inv(s) && Can(s, TakePending) && id in s.calls
    ensures CallInv(Do(s, TakePending), id)
  {
    assert CallInv(s, id);
  }

  lemma CloseKeeps(s: State, id: Id)
    requires Inv(s) && Can(s, CloseDone) && id in s.calls
    ensures CallInv(Do(s, CloseDone), id)
  {
    assert CallInv(s, id);
  }

  lemma StepKeeps(s: State, a: Act)
    requires Inv(s) && Can(s, a)
    ensures Inv(Do(s, a))
  {
    var r := Do(s, a);
    HistoryKept(s, a);
    KnownKept(s, a);
    if a.TakePending? {
      forall id | id in r.calls ensures CallInv(r, id) { TakeKeeps(s, id); }
    } else if a.CloseDone? {
      forall id | id in r.calls ensures CallInv(r, id) { CloseKeeps(s, id); }
    } else {
      ActTouches(s, a);
      OtherCalls(s, r, Subject(s, a));
      SubjectKept(s, a);
    }
  }

  predicate CanRun(s: State, acts: seq<Act>)
    decreases |acts|
  {
    |acts| == 0 || (Can(s, acts[0]) && CanRun(Do(s, acts[0]), acts[1..]))
  }

  function Run(s: State, acts: seq<Act>): State
    requires CanRun(s, acts)
    decreases |acts|
  {
    if |acts| == 0 then s else Run(Do(s, acts[0]), acts[1..])
  }

  lemma {:induction false} RunKeeps(s: State, acts: seq<Act>)
    requires Inv(s) && CanRun(s, acts)
    ensures Inv(Run(s, acts))
    decreases |acts|
  {
    if |acts| > 0 {
      StepKeeps(s, acts[0]);
      RunKeeps(Do(s, acts[0]), acts[1..]);
    }
  }

  const START := State(Table({}, {}, []), map[], Reading, NotYet, [])

  /** No channel gets more than one result, no send blocks, no waiting call is stranded, and the abandoned
      table is consistent. */
  ghost predicate Safe(s: State) {
    && Valid(s.table)
    && (forall id :: id in s.calls ==> s.calls[id].sent <= 1)
    && (s.reader.Delivering? ==> Can(s, SendReply))
    && (s.finish.Sending? ==> s.table.pending == {} && forall id :: id in s.finish.rest ==> Can(s, SendError(id)))
    && (forall id :: InPhase(s, id, Waiting) ==> |s.calls[id].inbox| == 1 || Owed(s, id))
  }

  lemma InvIsSafe(s: State)
    requires Inv(s)
    ensures Safe(s)
  {
    forall id | id in s.calls ensures s.calls[id].sent <= 1 { assert CallInv(s, id); }
    if s.reader.Delivering? { SendsNeverBlock(s, s.reader.id); }
    if s.finish.Sending? {
      forall id | id in s.finish.rest ensures Can(s, SendError(id)) { SendsNeverBlock(s, id); }
    }
    forall id | InPhase(s, id, Waiting) ensures |s.calls[id].inbox| == 1 || Owed(s, id) { NoCallIsStranded(s, id); }
  }

  lemma EveryRunIsSafe(acts: seq<Act>)
    requires CanRun(START, acts)
    ensures Safe(Run(START, acts))
  {
    RunKeeps(START, acts);
    InvIsSafe(Run(START, acts));
  }

  // ---------------------------------------------------------------- what a call gets

  /** A reply to a call that waits is handed over, and is what the call returns with. */
  lemma ReplyArrives(s: State, id: Id)
    requires Inv(s) && InPhase(s, id, Waiting) && id in s.table.pending && s.reader == Reading
    ensures Can(s, GetReply(id))
    ensures var a := Do(s, GetReply(id));
            && a.reader == Delivering(id) && a.table == s.table.(pending := s.table.pending - {id}) && Can(a, SendReply)
            && var b := Do(a, SendReply);
               && b.calls[id].inbox == [Reply] && b.reader == Reading && Can(b, Receive(id))
               && InPhase(Do(b, Receive(id)), id, Returned)
               && forall x :: x in s.calls && x != id ==> Do(b, Receive(id)).calls[x] == s.calls[x]
  {
    assert CallInv(s, id);
  }

  /** When the client is closed, each call that is pending gets the error. */
  lemma ErrorArrives(s: State, id: Id)
    requires Inv(s) && InPhase(s, id, Waiting) && id in s.table.pending && s.finish == DoneClosed
    ensures Can(s, TakePending)
    ensures var a := Do(s, TakePending);
            && a.table.pending == {} && Can(a, SendError(id))
            && var b := Do(a, SendError(id));
               && b.calls[id].inbox == [ClosedError] && Can(b, Receive(id))
               && InPhase(Do(b, Receive(id)), id, Returned)
  {
    assert CallInv(s, id);
  }

  /** A reply goes to the call that is pending under its identifier; to nobody, without a word, if that was given up
      lately; and ends the client otherwise. */
  lemma JudgeIff(s: State, id: Id)
    requires Inv(s)
    ensures Judge(s.table, id) == Deliver <==> id in s.table.pending
    ensures Judge(s.table, id) == Silent
            <==> exists k :: |s.history| - 256 <= k < |s.history| && 0 <= k && s.history[k] == id
  {
    if exists k :: 0 <= k < |s.history| && s.history[k] == id {
      var k :| 0 <= k < |s.history| && s.history[k] == id;
      LateReplySilentIff(s, k);
    }
    if id in s.table.abandoned {
      assert id in s.table.order;
      var j :| 0 <= j < |s.table.order| && s.table.order[j] == id;
      assert s.history[|s.history| - |s.table.order| + j] == id;
    }
  }

  /** Until the client is closed every new call is registered, and from then on none. */
  lemma RegisteredIff(s: State, id: Id)
    requires Can(s, Register(id))
    ensures var r := Do(s, Register(id));
            if s.finish == NotYet then InPhase(r, id, Registered) && r.table.pending == s.table.pending + {id}
            else InPhase(r, id, Returned) && r.table == s.table
  {}
}

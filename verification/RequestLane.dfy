/** One request seen from both ends: the client call that made it, the frames of this request that are
    under way in either direction, and the server goroutine that works on it.
    Bash requests stream their output under credit; all others are answered once. */
module RequestLane {
  import opened Bytes
  import opened Wrappers

  const STREAM_WINDOW := 65536       // the first credit a Bash call sends, and the largest chunk
  const MAX_CREDIT := 262144         // remoteprotocol.MaxStreamChunkBytes
  const MAX_BASH_OUTPUT := 16777216
  const RESULT_CAPACITY := 2         // of the channel from the reader to the call

  // ---------------------------------------------------------------- what is said

  datatype Operation = Bash | RootOpen | FileQuery | FileWrite | FileMkdir | Search | GitRead

  datatype Code =
    | InvalidRequest | Cancelled | OutputLimit | OutcomeUnknown | ResourceLimit
    | BashStartFailed | RootOpenFailed | UnsupportedLayout
    | FileNotFound | FileConflict | FileWriteFailed | GitUnavailable | GitConfigUnsafe

  datatype UpMsg = Request(op: Operation) | Cancel | Credit(bytes: nat)

  datatype DownMsg = Accepted | Data(sequence: nat, blob: Bytes) | Response(outputBytes: nat) | Failure(code: Code)

  predicate Terminal(m: DownMsg) { m.Response? || m.Failure? }

  /** Error codes with which the handler of a method can end a request it has started to work on. */
  function HandlerCodes(op: Operation): set<Code> {
    match op
    case Bash => {InvalidRequest, Cancelled, OutputLimit, OutcomeUnknown, BashStartFailed}
    case RootOpen => {InvalidRequest, Cancelled, UnsupportedLayout, ResourceLimit, RootOpenFailed}
    case FileQuery => {InvalidRequest, Cancelled, UnsupportedLayout, OutputLimit, FileNotFound}
    case FileWrite => {InvalidRequest, Cancelled, UnsupportedLayout, OutputLimit, FileConflict, FileWriteFailed}
    case FileMkdir => {InvalidRequest, Cancelled, OutcomeUnknown, FileConflict, FileWriteFailed}
    case Search => {InvalidRequest, Cancelled, GitUnavailable}
    case GitRead => {InvalidRequest, Cancelled, OutputLimit, GitUnavailable, GitConfigUnsafe}
  }

  /** Error codes that the client's decoder of a method knows. Any other code makes it kill the helper. */
  function KnownCodes(op: Operation): set<Code> {
    match op
    case Bash => {InvalidRequest, Cancelled, OutputLimit, OutcomeUnknown, BashStartFailed, ResourceLimit}
    case RootOpen => {InvalidRequest, Cancelled, UnsupportedLayout, ResourceLimit, RootOpenFailed}
    case FileQuery => {InvalidRequest, Cancelled, UnsupportedLayout, OutputLimit, FileNotFound}
    case FileWrite => {InvalidRequest, Cancelled, UnsupportedLayout, OutputLimit, FileConflict, FileWriteFailed,
                       OutcomeUnknown}
    case FileMkdir => {InvalidRequest, Cancelled, UnsupportedLayout, OutcomeUnknown, FileConflict, FileWriteFailed}
    case Search => {InvalidRequest, Cancelled, GitUnavailable}
    case GitRead => {InvalidRequest, Cancelled, OutputLimit, GitUnavailable, GitConfigUnsafe}
  }

  /** The client knows every code that the handler of an operation ends with. The refusal of the serve loop
      it understands for Bash and for opening a root alone: any other call would kill the helper for it. Besides that,
      the client knows two codes that no handler sends. That the outcome is unknown is understood by the methods that
      change something. */
  lemma RefusalsAreKnown(op: Operation)
    ensures HandlerCodes(op) <= KnownCodes(op)
    ensures ResourceLimit in KnownCodes(op) <==> op == Bash || op == RootOpen
    ensures KnownCodes(op) - HandlerCodes(op)
            == match op
               case Bash => {ResourceLimit}
               case FileWrite => {OutcomeUnknown}
               case FileMkdir => {UnsupportedLayout}
               case _ => {}
    ensures OutcomeUnknown in KnownCodes(op) <==> op == Bash || op == FileWrite || op == FileMkdir
  {}

  // ---------------------------------------------------------------- the client call

  datatype Status = Open | Succeeded | Failed(code: Code) | Killed

  /** What a call has made of the frames it has received. */
  datatype Progress = Progress(accepted: bool, sequence: nat, output: Bytes, status: Status)

  const FRESH := Progress(false, 0, [], Open)

  /** The switch of RunBash on one frame; for other methods, callFrame and the method's decoder. */
  function OnFrame(op: Operation, p: Progress, m: DownMsg): Progress {
    if p.status != Open then p.(status := Killed)
    else match m
      case Accepted =>
        if op != Bash || p.accepted then p.(status := Killed) else p.(accepted := true)
      case Data(sequence, blob) =>
        if op != Bash || !p.accepted || sequence != p.sequence + 1 || |blob| == 0 || |blob| > STREAM_WINDOW
           || |p.output| + |blob| > MAX_BASH_OUTPUT
        then p.(status := Killed)
        else p.(sequence := sequence, output := p.output + blob)
      case Response(outputBytes) =>
        if op == Bash && (!p.accepted || outputBytes != |p.output|) then p.(status := Killed)
        else p.(status := Succeeded)
      case Failure(code) =>
        if code in KnownCodes(op) then p.(status := Failed(code)) else p.(status := Killed)
  }

  function OnFrames(op: Operation, p: Progress, ms: seq<DownMsg>): Progress
    decreases |ms|
  {
    if |ms| == 0 then p else OnFrames(op, OnFrame(op, p, ms[0]), ms[1..])
  }

  /** Allocated: an identifier is pending, nothing sent. Sent: the request is written, a Bash call still owes
      its first credit. Waiting: in the receive loop. */
  datatype Phase = Allocated | Sent | Waiting

  /** owed is received output for which the credit is not yet written. */
  datatype Call = Call(op: Operation, phase: Phase, progress: Progress, owed: nat, cancelSent: bool,
                       inbox: seq<DownMsg>)

  // ---------------------------------------------------------------- the server goroutine

  /** Queued: registered. Refused: over the limit, the serve loop answers it. Running: between reads.
      Checking and Blocked are the two halves of the takeCredit loop. Charged: the credit is taken, the chunk
      not yet written. Ended: the process output is at its end. */
  datatype Work = Queued | Refused | Running | Checking(chunk: Bytes) | Blocked(chunk: Bytes) | Charged(chunk: Bytes)
    | Ended

  datatype Worker = Worker(op: Operation, work: Work, cancelled: bool, balance: int, ready: bool, sequence: nat,
                           written: Bytes)

  function NewWorker(op: Operation, limited: bool): Worker {
    Worker(op, if limited then Refused else Queued, false, 0, false, 0, [])
  }

  /** The chunk read from the process that is not yet written to the client. */
  function Chunk(w: Worker): Bytes {
    match w.work
    case Checking(c) => c
    case Blocked(c) => c
    case Charged(c) => c
    case _ => []
  }

  function CreditAccepted(w: Worker, bytes: nat): bool {
    bytes > 0 && w.balance <= MAX_CREDIT - bytes
  }

  /** Credit is refused exactly if it is none, or would bring the balance above 256 KiB. */
  lemma CreditAcceptedIff(w: Worker, bytes: nat)
    ensures CreditAccepted(w, bytes) <==> bytes > 0 && w.balance + bytes <= 262144
  {}

  // ---------------------------------------------------------------- both ends

  /** up and down are the frames of this request under way, oldest first; notifying says that the serve loop
      has added credit but not yet signalled it; terminal is the last frame of a request that is completed, as long
      as it is not written. read is a history variable: all output read from the process. */
  datatype Lane = Lane(call: Call, up: seq<UpMsg>, down: seq<DownMsg>, worker: Option<Worker>, notifying: bool,
                       terminal: Option<DownMsg>, read: Bytes)

  function NewLane(op: Operation): Lane {
    Lane(Call(op, Allocated, FRESH, 0, false, []), [], [], None, false, None, [])
  }

  datatype Step =
    | SendRequest | SendFirstCredit | SendCancel | SendOwed | Receive | Deliver
    | ServeRequest(limited: bool) | ServeCancel | ServeCredit | ServeIgnored | Notify
    | Timeout | Start | ReadChunk(chunk: Bytes) | TakeCredit | Block | Wake | WriteChunk | EndOfOutput
    | Finish(m: DownMsg) | Publish

  /** Which terminal frames a worker can end with where it stands. A cancel may come after the worker has looked
      for one. */
  predicate CanFinish(w: Worker, m: DownMsg) {
    if w.op != Bash then
      match w.work
      case Queued => m.Response? || (m.Failure? && m.code in HandlerCodes(w.op))
      case Refused => m == Failure(ResourceLimit)
      case _ => false
    else
      match w.work
      case Queued => m == Failure(InvalidRequest) || m == Failure(BashStartFailed)
           || (w.cancelled && m == Failure(Cancelled))
      case Refused => m == Failure(ResourceLimit)
      case Running => m == Failure(OutputLimit) || m == Failure(BashStartFailed)
      case Blocked(_) => w.cancelled && m == Failure(Cancelled)
      case Ended =>
        || (w.cancelled && m == Failure(Cancelled))
        || m == Response(|w.written|) || m == Failure(BashStartFailed) || m == Failure(OutcomeUnknown)
      case _ => false
  }

  predicate Enabled(l: Lane, s: Step) {
    match s
    case SendRequest => l.call.phase == Allocated
    case SendFirstCredit => l.call.phase == Sent
    case SendCancel => l.call.phase == Waiting && !l.call.cancelSent && l.call.owed == 0
         && l.call.progress.status == Open
    case SendOwed => l.call.owed > 0
    case Receive => |l.call.inbox| > 0 && l.call.phase == Waiting && l.call.owed == 0 && l.call.progress.status == Open
    case Deliver => |l.down| > 0 && |l.call.inbox| < RESULT_CAPACITY
    case ServeRequest(_) => |l.up| > 0 && l.up[0].Request? && l.worker == None
    case ServeCancel => |l.up| > 0 && l.up[0].Cancel? && l.worker.Some?
    case ServeCredit => |l.up| > 0 && l.up[0].Credit? && l.worker.Some? && l.worker.value.op == Bash
                        && CreditAccepted(l.worker.value, l.up[0].bytes) && !l.notifying
    case ServeIgnored => |l.up| > 0 && !l.up[0].Request? && l.worker == None
    case Notify => l.notifying
    case Timeout => l.worker.Some?
    case Start => l.worker.Some? && l.worker.value.work == Queued && l.worker.value.op == Bash
    case ReadChunk(chunk) => l.worker.Some? && l.worker.value.work == Running && 0 < |chunk| <= STREAM_WINDOW
                             && |l.worker.value.written| + |chunk| <= MAX_BASH_OUTPUT
    case TakeCredit => l.worker.Some? && l.worker.value.work.Checking?
         && l.worker.value.balance >= |l.worker.value.work.chunk|
    case Block => l.worker.Some? && l.worker.value.work.Checking?
         && l.worker.value.balance < |l.worker.value.work.chunk|
    case Wake => l.worker.Some? && l.worker.value.work.Blocked? && l.worker.value.ready
    case WriteChunk => l.worker.Some? && l.worker.value.work.Charged?
    case EndOfOutput => l.worker.Some? && l.worker.value.work == Running
    case Finish(m) => l.worker.Some? && CanFinish(l.worker.value, m)
    case Publish => l.terminal.Some?
  }

  function Apply(l: Lane, s: Step): Lane
    requires Enabled(l, s)
  {
    var c := l.call;
    match s
    case SendRequest =>
      l.(call := c.(phase := if c.op == Bash then Sent else Waiting), up := l.up + [Request(c.op)])
    case SendFirstCredit => l.(call := c.(phase := Waiting), up := l.up + [Credit(STREAM_WINDOW)])
    case SendCancel => l.(call := c.(cancelSent := true), up := l.up + [Cancel])
    case SendOwed => l.(call := c.(owed := 0), up := l.up + [Credit(c.owed)])
    case Receive =>
      var m := c.inbox[0];
      var p := OnFrame(c.op, c.progress, m);
      l.(call := c.(progress := p, inbox := c.inbox[1..], owed := if m.Data? && p.status == Open then |m.blob| else 0))
    case Deliver => l.(call := c.(inbox := c.inbox + [l.down[0]]), down := l.down[1..])
    case ServeRequest(limited) => l.(worker := Some(NewWorker(l.up[0].op, limited)), up := l.up[1..])
    case ServeCancel => l.(worker := Some(l.worker.value.(cancelled := true)), up := l.up[1..])
    case ServeCredit =>
      l.(worker := Some(l.worker.value.(balance := l.worker.value.balance + l.up[0].bytes)), up := l.up[1..],
         notifying := true)
    case ServeIgnored => l.(up := l.up[1..])
    case Notify =>
      l.(notifying := false, worker := if l.worker.Some? then Some(l.worker.value.(ready := true)) else None)
    case Timeout => l.(worker := Some(l.worker.value.(cancelled := true)))
    case Start => l.(worker := Some(l.worker.value.(work := Running)), down := l.down + [Accepted])
    case ReadChunk(chunk) => l.(worker := Some(l.worker.value.(work := Checking(chunk))), read := l.read + chunk)
    case TakeCredit =>
      var w := l.worker.value;
      l.(worker := Some(w.(work := Charged(w.work.chunk), balance := w.balance - |w.work.chunk|)))
    case Block => l.(worker := Some(l.worker.value.(work := Blocked(l.worker.value.work.chunk))))
    case Wake => l.(worker := Some(l.worker.value.(work := Checking(l.worker.value.work.chunk), ready := false)))
    case WriteChunk =>
      var w := l.worker.value;
      l.(worker := Some(w.(work := Running, sequence := w.sequence + 1, written := w.written + w.work.chunk)),
         down := l.down + [Data(w.sequence + 1, w.work.chunk)])
    case EndOfOutput => l.(worker := Some(l.worker.value.(work := Ended)))
    case Finish(m) => l.(worker := None, terminal := Some(m))
    case Publish => l.(terminal := None, down := l.down + [l.terminal.value])
  }

  // ---------------------------------------------------------------- where a request is in its life

  predicate Unsent(l: Lane) { l.call.phase == Allocated }
  predicate InTransit(l: Lane) { |l.up| > 0 && l.up[0].Request? }
  predicate Active(l: Lane) { l.worker.Some? }
  predicate Done(l: Lane) { !Unsent(l) && !InTransit(l) && !Active(l) }

  function Unwritten(l: Lane): seq<DownMsg> { if l.terminal.Some? then [l.terminal.value] else [] }

  /** Frames on their way to the call's receive loop, oldest first; the last one may still have to be written. */
  function Flight(l: Lane): seq<DownMsg> { l.call.inbox + l.down + Unwritten(l) }

  function CreditBytes(ms: seq<UpMsg>): nat {
    if |ms| == 0 then 0 else (if ms[0].Credit? then ms[0].bytes else 0) + CreditBytes(ms[1..])
  }

  function DataBytes(ms: seq<DownMsg>): nat {
    if |ms| == 0 then 0 else (if ms[0].Data? then |ms[0].blob| else 0) + DataBytes(ms[1..])
  }

  predicate Issued(l: Lane) { l.call.phase == Waiting }

  function Balance(l: Lane): int { if l.worker.Some? then l.worker.value.balance else 0 }

  function ChargedBytes(l: Lane): nat {
    if l.worker.Some? && l.worker.value.work.Charged? then |l.worker.value.work.chunk| else 0
  }

  /** All credit of a Bash stream, wherever it is. */
  function TotalCredit(l: Lane): int {
    Balance(l) + CreditBytes(l.up) + ChargedBytes(l) + DataBytes(Flight(l)) + l.call.owed
  }

  // ---------------------------------------------------------------- invariant

  /** What the call will have made of everything once all frames under way have reached it. */
  function Outlook(l: Lane): Progress { OnFrames(l.call.op, l.call.progress, Flight(l)) }

  ghost predicate UpShape(l: Lane) {
    && (forall k :: 0 < k < |l.up| ==> !l.up[k].Request?)
    && (|l.up| > 0 && l.up[0].Request? ==> l.up[0].op == l.call.op && l.worker == None)
    && (forall k :: 0 <= k < |l.up| && l.up[k].Credit? ==> l.call.op == Bash && 0 < l.up[k].bytes)
  }

  ghost predicate Untouched(l: Lane) {
    l.call.inbox == [] && l.down == [] && l.call.progress == FRESH && l.call.owed == 0 && !l.notifying
      && l.worker == None && l.terminal == None && l.read == []
  }

  ghost predicate WorkerInv(l: Lane, w: Worker) {
    && w.op == l.call.op && l.terminal == None
    && l.read == w.written + Chunk(w)
    && |l.read| <= MAX_BASH_OUTPUT && |Chunk(w)| <= STREAM_WINDOW
    && (w.work.Checking? || w.work.Blocked? || w.work.Charged? ==> 0 < |Chunk(w)|)
    && (w.op != Bash ==> w.work == Queued)
    && (w.work == Queued || w.work == Refused ==> w.sequence == 0 && w.written == [])
    && w.balance >= 0
    && (w.work.Blocked? && w.balance >= |w.work.chunk| ==> w.ready || l.notifying)
    && Outlook(l) == Progress(w.work != Queued && w.work != Refused, w.sequence, w.written, Open)
  }

  ghost predicate DoneInv(l: Lane) {
    var o := Outlook(l);
    && IsPrefix(o.output, l.read)
    && ((o.status == Succeeded && (l.call.op == Bash ==> o.output == l.read)) || o.status.Failed?)
  }

  ghost predicate CreditInv(l: Lane) {
    l.call.op == Bash ==> TotalCredit(l) == if Issued(l) then STREAM_WINDOW else 0
  }

  ghost predicate LaneInv(l: Lane) {
    && |l.call.inbox| <= RESULT_CAPACITY
    && UpShape(l)
    && (l.call.op != Bash ==> l.call.phase != Sent && l.call.owed == 0)
    && (Unsent(l) ==> l.up == [] && Untouched(l))
    && (InTransit(l) ==> Untouched(l))
    && (l.worker.Some? ==> WorkerInv(l, l.worker.value))
    && (l.terminal.Some? ==> Done(l) && Terminal(l.terminal.value))
    && (Done(l) ==> DoneInv(l))
    && (!Done(l) ==> CreditInv(l))
  }

  // ---------------------------------------------------------------- facts about frames

  lemma {:induction false} OnFramesAppend(op: Operation, p: Progress, ms: seq<DownMsg>, m: DownMsg)
    ensures OnFrames(op, p, ms + [m]) == OnFrame(op, OnFrames(op, p, ms), m)
    decreases |ms|
  {
    if |ms| == 0 {
      assert ms + [m] == [m];
      assert OnFrames(op, OnFrame(op, p, m), [m][1..]) == OnFrame(op, p, m);
    } else {
      assert (ms + [m])[1..] == ms[1..] + [m];
      OnFramesAppend(op, OnFrame(op, p, ms[0]), ms[1..], m);
    }
  }

  /** Output only grows, and a call that has returned reads nothing more. */
  lemma {:induction false} OnFramesGrows(op: Operation, p: Progress, ms: seq<DownMsg>)
    ensures IsPrefix(p.output, OnFrames(op, p, ms).output)
    ensures p.status != Open && |ms| > 0 ==> OnFrames(op, p, ms).status == Killed
    decreases |ms|
  {
    if |ms| > 0 {
      OnFramesGrows(op, OnFrame(op, p, ms[0]), ms[1..]);
    }
  }

  lemma {:induction false} CreditBytesAppend(ms: seq<UpMsg>, m: UpMsg)
    ensures CreditBytes(ms + [m]) == CreditBytes(ms) + if m.Credit? then m.bytes else 0
  {
    if |ms| == 0 {
      assert ms + [m] == [m];
    } else {
      assert (ms + [m])[1..] == ms[1..] + [m];
      CreditBytesAppend(ms[1..], m);
    }
  }

  lemma {:induction false} DataBytesAppend(ms: seq<DownMsg>, m: DownMsg)
    ensures DataBytes(ms + [m]) == DataBytes(ms) + if m.Data? then |m.blob| else 0
  {
    if |ms| == 0 {
      assert ms + [m] == [m];
    } else {
      assert (ms + [m])[1..] == ms[1..] + [m];
      DataBytesAppend(ms[1..], m);
    }
  }

  lemma CreditFront(ms: seq<UpMsg>)
    requires |ms| > 0 && ms[0].Credit?
    ensures ms[0].bytes <= CreditBytes(ms)
  {}

  // ---------------------------------------------------------------- every step keeps the invariant

  lemma SendAppends(l: Lane, s: Step, m: UpMsg)
    requires Enabled(l, s) && Apply(l, s).up == l.up + [m] && (s.SendFirstCredit? || s.SendCancel? || s.SendOwed?)
    ensures var r := Apply(l, s);
            && !m.Request? && m == r.up[|l.up|] && Flight(r) == Flight(l)
               && CreditBytes(r.up) == CreditBytes(l.up) + if m.Credit? then m.bytes else 0
  {
    assert Apply(l, s).up[|l.up|] == m;
    CreditBytesAppend(l.up, m);
  }

  lemma SendFirstCreditKeeps(l: Lane)
    requires LaneInv(l) && Enabled(l, SendFirstCredit)
    ensures LaneInv(Apply(l, SendFirstCredit))
  {
    SendAppends(l, SendFirstCredit, Credit(STREAM_WINDOW));
  }

  lemma SendCancelKeeps(l: Lane)
    requires LaneInv(l) && Enabled(l, SendCancel)
    ensures LaneInv(Apply(l, SendCancel))
  {
    SendAppends(l, SendCancel, Cancel);
  }

  lemma SendOwedKeepsCredit(l: Lane)
    requires CreditInv(l) && Enabled(l, SendOwed)
    ensures CreditInv(Apply(l, SendOwed))
  {
    SendAppends(l, SendOwed, Credit(l.call.owed));
  }

  lemma SendOwedKeeps(l: Lane)
    requires LaneInv(l) && Enabled(l, SendOwed)
    ensures LaneInv(Apply(l, SendOwed))
  {
    if !Done(l) { SendOwedKeepsCredit(l); }
    SendAppends(l, SendOwed, Credit(l.call.owed));
  }

  lemma SendRequestKeeps(l: Lane)
    requires LaneInv(l) && Enabled(l, SendRequest)
    ensures LaneInv(Apply(l, SendRequest))
  {
    var r := Apply(l, SendRequest);
    assert r.up == [Request(l.call.op)] && r.up[1..] == [];
    assert Flight(r) == [];
  }

  lemma DeliverKeeps(l: Lane)
    requires LaneInv(l) && Enabled(l, Deliver)
    ensures LaneInv(Apply(l, Deliver))
  {
    assert Flight(Apply(l, Deliver)) == Flight(l);
  }

  lemma ReceiveOutlook(l: Lane)
    requires Enabled(l, Receive)
    ensures Outlook(Apply(l, Receive)) == Outlook(l)
    ensures DataBytes(Flight(Apply(l, Receive)))
            == DataBytes(Flight(l)) - if l.call.inbox[0].Data? then |l.call.inbox[0].blob| else 0
  {
    var f := Flight(l);
    assert Flight(Apply(l, Receive)) == f[1..] && f[0] == l.call.inbox[0];
  }

  /** A received frame does not kill the call, and is not its last one while the server still works on it. */
  lemma ReceiveIsFine(l: Lane)
    requires LaneInv(l) && Enabled(l, Receive)
    ensures var p := Apply(l, Receive).call.progress;
            p.status != Killed && (l.worker.Some? ==> p.status == Open)
  {
    var r := Apply(l, Receive);
    ReceiveOutlook(l);
    OnFramesGrows(l.call.op, r.call.progress, Flight(r));
    if r.call.progress.status == Killed { StaysKilled(l.call.op, r.call.progress, Flight(r)); }
  }

  lemma ReceiveKeepsCredit(l: Lane)
    requires LaneInv(l) && Enabled(l, Receive) && !Done(l)
    ensures CreditInv(Apply(l, Receive))
  {
    ReceiveOutlook(l);
    ReceiveIsFine(l);
  }

  lemma ReceiveKeepsWorker(l: Lane)
    requires LaneInv(l) && Enabled(l, Receive) && l.worker.Some?
    ensures WorkerInv(Apply(l, Receive), l.worker.value)
  {
    ReceiveOutlook(l);
  }

  lemma ReceiveKeeps(l: Lane)
    requires LaneInv(l) && Enabled(l, Receive)
    ensures LaneInv(Apply(l, Receive))
  {
    ReceiveOutlook(l);
    if l.worker.Some? { ReceiveKeepsWorker(l); }
    if !Done(l) { ReceiveKeepsCredit(l); }
    assert UpShape(Apply(l, Receive));
  }

  lemma {:induction false} StaysKilled(op: Operation, p: Progress, ms: seq<DownMsg>)
    requires p.status == Killed
    ensures OnFrames(op, p, ms).status == Killed
    decreases |ms|
  {
    if |ms| > 0 { StaysKilled(op, OnFrame(op, p, ms[0]), ms[1..]); }
  }

  lemma ServeRequestKeeps(l: Lane, limited: bool)
    requires LaneInv(l) && Enabled(l, ServeRequest(limited)) && Tolerable(l, ServeRequest(limited))
    ensures LaneInv(Apply(l, ServeRequest(limited)))
  {
    assert Flight(Apply(l, ServeRequest(limited))) == Flight(l);
  }

  lemma ServeCancelKeeps(l: Lane)
    requires LaneInv(l) && Enabled(l, ServeCancel)
    ensures LaneInv(Apply(l, ServeCancel))
  {
    assert Flight(Apply(l, ServeCancel)) == Flight(l);
  }

  lemma ServeIgnoredKeeps(l: Lane)
    requires LaneInv(l) && Enabled(l, ServeIgnored)
    ensures LaneInv(Apply(l, ServeIgnored))
  {
    assert Flight(Apply(l, ServeIgnored)) == Flight(l);
  }

  lemma ServeCreditKeeps(l: Lane)
    requires LaneInv(l) && Enabled(l, ServeCredit)
    ensures LaneInv(Apply(l, ServeCredit))
  {
    assert Flight(Apply(l, ServeCredit)) == Flight(l);
  }

  lemma NotifyKeeps(l: Lane)
    requires LaneInv(l) && Enabled(l, Notify)
    ensures LaneInv(Apply(l, Notify))
  {
    assert Flight(Apply(l, Notify)) == Flight(l);
  }

  lemma TimeoutKeepsWorker(l: Lane)
    requires l.worker.Some? && WorkerInv(l, l.worker.value)
    ensures var r := Apply(l, Timeout); WorkerInv(r, r.worker.value)
  {
    assert Flight(Apply(l, Timeout)) == Flight(l);
  }

  lemma TimeoutKeeps(l: Lane)
    requires LaneInv(l) && Enabled(l, Timeout)
    ensures LaneInv(Apply(l, Timeout))
  {
    TimeoutKeepsWorker(l);
    assert Flight(Apply(l, Timeout)) == Flight(l);
  }

  lemma ReadChunkKeeps(l: Lane, chunk: Bytes)
    requires LaneInv(l) && Enabled(l, ReadChunk(chunk))
    ensures LaneInv(Apply(l, ReadChunk(chunk)))
  {
    assert Flight(Apply(l, ReadChunk(chunk))) == Flight(l);
  }

  lemma EndOfOutputKeeps(l: Lane)
    requires LaneInv(l) && Enabled(l, EndOfOutput)
    ensures LaneInv(Apply(l, EndOfOutput))
  {
    assert Flight(Apply(l, EndOfOutput)) == Flight(l);
  }

  lemma TakeCreditKeeps(l: Lane)
    requires LaneInv(l) && Enabled(l, TakeCredit)
    ensures LaneInv(Apply(l, TakeCredit))
  {
    assert Flight(Apply(l, TakeCredit)) == Flight(l);
  }

  lemma BlockKeeps(l: Lane)
    requires LaneInv(l) && Enabled(l, Block)
    ensures LaneInv(Apply(l, Block))
  {
    assert Flight(Apply(l, Block)) == Flight(l);
  }

  lemma WakeKeeps(l: Lane)
    requires LaneInv(l) && Enabled(l, Wake)
    ensures LaneInv(Apply(l, Wake))
  {
    assert Flight(Apply(l, Wake)) == Flight(l);
  }

  lemma OutlookAfter(l: Lane, r: Lane, m: DownMsg)
    requires r.call == l.call && l.terminal == None
    requires (r.down == l.down + [m] && r.terminal == None) || (r.down == l.down && r.terminal == Some(m))
    ensures Outlook(r) == OnFrame(l.call.op, Outlook(l), m)
    ensures DataBytes(Flight(r)) == DataBytes(Flight(l)) + if m.Data? then |m.blob| else 0
  {
    assert Flight(r) == Flight(l) + [m];
    OnFramesAppend(l.call.op, l.call.progress, Flight(l), m);
    DataBytesAppend(Flight(l), m);
  }

  /** Writing the terminal frame changes nothing for the call. */
  lemma PublishKeeps(l: Lane)
    requires LaneInv(l) && Enabled(l, Publish)
    ensures LaneInv(Apply(l, Publish))
  {
    assert Flight(Apply(l, Publish)) == Flight(l);
  }

  lemma StartKeeps(l: Lane)
    requires LaneInv(l) && Enabled(l, Start)
    ensures LaneInv(Apply(l, Start))
  {
    OutlookAfter(l, Apply(l, Start), Accepted);
  }

  lemma WriteChunkKeeps(l: Lane)
    requires LaneInv(l) && Enabled(l, WriteChunk)
    ensures LaneInv(Apply(l, WriteChunk))
  {
    var w := l.worker.value;
    OutlookAfter(l, Apply(l, WriteChunk), Data(w.sequence + 1, w.work.chunk));
  }

  /** The terminal frame ends the call well, and with the whole output if it is a response. */
  lemma FinishEnds(l: Lane, m: DownMsg)
    requires LaneInv(l) && Enabled(l, Finish(m))
    ensures DoneInv(Apply(l, Finish(m)))
  {
    var w := l.worker.value;
    OutlookAfter(l, Apply(l, Finish(m)), m);
    RefusalsAreKnown(l.call.op);
    if w.work == Ended {
      assert l.read == w.written;
    }
  }

  lemma FinishKeeps(l: Lane, m: DownMsg)
    requires LaneInv(l) && Enabled(l, Finish(m))
    ensures LaneInv(Apply(l, Finish(m)))
  {
    FinishEnds(l, m);
    FinishIsTerminal(l.worker.value, m);
    FinishIsDone(l, m);
  }

  lemma FinishIsDone(l: Lane, m: DownMsg)
    requires UpShape(l) && (Unsent(l) || InTransit(l) ==> Untouched(l)) && Enabled(l, Finish(m))
    ensures Done(Apply(l, Finish(m)))
  {}

  /** The serve loop refuses no request whose caller would kill the helper for it. */
  predicate Tolerable(l: Lane, s: Step) {
    s == ServeRequest(true) ==> l.call.op == Bash
  }

  lemma CallKeepsLane(l: Lane, s: Step)
    requires LaneInv(l) && Enabled(l, s) && OfCall(s)
    ensures LaneInv(Apply(l, s))
  {
    match s
    case SendRequest => SendRequestKeeps(l);
    case SendFirstCredit => SendFirstCreditKeeps(l);
    case SendCancel => SendCancelKeeps(l);
    case SendOwed => SendOwedKeeps(l);
    case Receive => ReceiveKeeps(l);
    case Deliver => DeliverKeeps(l);
  }

  lemma ServeKeepsLane(l: Lane, s: Step)
    requires LaneInv(l) && Enabled(l, s) && Tolerable(l, s) && !OfCall(s) && !OfWorker(s)
    ensures LaneInv(Apply(l, s))
  {
    match s
    case ServeRequest(limited) => ServeRequestKeeps(l, limited);
    case ServeCancel => ServeCancelKeeps(l);
    case ServeCredit => ServeCreditKeeps(l);
    case ServeIgnored => ServeIgnoredKeeps(l);
    case Notify => NotifyKeeps(l);
    case Publish => PublishKeeps(l);
  }

  lemma WriteKeepsLane(l: Lane, s: Step)
    requires LaneInv(l) && Enabled(l, s) && Writes(s)
    ensures LaneInv(Apply(l, s))
  {
    if s.Start? { StartKeeps(l); } else { WriteChunkKeeps(l); }
  }

  lemma CreditKeepsLane(l: Lane, s: Step)
    requires LaneInv(l) && Enabled(l, s) && (s.TakeCredit? || s.Block? || s.Wake?)
    ensures LaneInv(Apply(l, s))
  {
    if s.TakeCredit? { TakeCreditKeeps(l); } else if s.Block? { BlockKeeps(l); } else { WakeKeeps(l); }
  }

  lemma WorkKeepsLane(l: Lane, s: Step)
    requires LaneInv(l) && Enabled(l, s) && OfWorker(s)
    ensures LaneInv(Apply(l, s))
  {
    if Writes(s) {
      WriteKeepsLane(l, s);
    } else if s.Finish? {
      FinishKeeps(l, s.m);
    } else if s.Timeout? {
      TimeoutKeeps(l);
    } else if s.ReadChunk? {
      ReadChunkKeeps(l, s.chunk);
    } else if s.EndOfOutput? {
      EndOfOutputKeeps(l);
    } else {
      CreditKeepsLane(l, s);
    }
  }

  lemma StepKeepsLane(l: Lane, s: Step)
    requires LaneInv(l) && Enabled(l, s) && Tolerable(l, s)
    ensures LaneInv(Apply(l, s))
  {
    if OfCall(s) { CallKeepsLane(l, s); } else if OfWorker(s) { WorkKeepsLane(l, s); } else { ServeKeepsLane(l, s); }
  }

  lemma NewLaneInv(op: Operation)
    ensures LaneInv(NewLane(op))
  {}

  // ---------------------------------------------------------------- what the invariant gives a request

  /** No frame under way makes the call kill the helper, whichever of them comes next. */
  lemma NoCallIsKilled(l: Lane)
    requires LaneInv(l)
    ensures l.call.progress.status != Killed && Outlook(l).status != Killed
  {
    if l.call.progress.status == Killed {
      StaysKilled(l.call.op, l.call.progress, Flight(l));
    }
  }

  /** The output of a call is at all times a prefix of what the server has read from the process; once the call
      has succeeded it is all of it, and the byte count in the response was the length of the output. */
  lemma OutputIsPrefix(l: Lane)
    requires LaneInv(l)
    ensures IsPrefix(l.call.progress.output, l.read)
    ensures l.call.progress.status == Succeeded && l.call.op == Bash ==>
              l.call.progress.output == l.read && l.worker == None
  {
    OnFramesGrows(l.call.op, l.call.progress, Flight(l));
  }

  /** Credit is conserved, so the server accepts every credit frame of a request it works on. */
  lemma CreditIsNeverRefused(l: Lane)
    requires LaneInv(l) && l.worker.Some? && |l.up| > 0 && l.up[0].Credit?
    ensures l.call.op == Bash && l.worker.value.op == Bash && CreditAccepted(l.worker.value, l.up[0].bytes)
    ensures l.worker.value.balance + l.up[0].bytes <= STREAM_WINDOW
  {
    CreditFront(l.up);
  }

  /** With nothing under way and nothing owed, the whole window is back at the server: a blocked producer has
      been signalled and finds the credit it needs. */
  lemma DrainedStreamIsNotStuck(l: Lane)
    requires LaneInv(l) && l.worker.Some? && l.worker.value.work.Blocked? && Issued(l)
    requires l.up == [] && Flight(l) == [] && l.call.owed == 0 && !l.notifying
    ensures Enabled(l, Wake)
    ensures var woken := Apply(l, Wake); Enabled(woken, TakeCredit) && woken.worker.value.balance == STREAM_WINDOW
  {}

  /** A producer that has enough credit is never left asleep without a signal on its way. */
  lemma NoLostWakeUp(l: Lane)
    requires LaneInv(l) && l.worker.Some? && l.worker.value.work.Blocked?
    requires l.worker.value.balance >= |l.worker.value.work.chunk|
    ensures Enabled(l, Wake) || Enabled(l, Notify)
  {}

  /** Steps that wait for nobody: no cancel, no time limit, no frame read by the serve loop. */
  predicate OnItsOwn(s: Step) { (OfCall(s) && !s.SendCancel?) || (OfWorker(s) && !s.Timeout?) }

  /** A frame that has reached the reader or the call is taken further. */
  lemma FramesGetOn(l: Lane)
    requires LaneInv(l) && (|l.call.inbox| > 0 || |l.down| > 0)
    ensures Enabled(l, Deliver) || Enabled(l, Receive) || Enabled(l, SendOwed) || Enabled(l, SendFirstCredit)
    ensures Enabled(l, Deliver) ==> |l.down| > 0
    ensures l.call.progress.status == Open
  {
    OnFramesGrows(l.call.op, l.call.progress, Flight(l));
    NoCallIsKilled(l);
  }

  /** The worker of a request is never stuck once all frames to it have been read. */
  lemma WorkerGetsOn(l: Lane) returns (s: Step)
    requires LaneInv(l) && l.up == [] && l.down == [] && !l.notifying && l.worker.Some?
    requires l.worker.value.work != Refused
    ensures Enabled(l, s) && OnItsOwn(s) && !s.Deliver?
  {
    var w := l.worker.value;
    match w.work {
      case Queued => s := if w.op == Bash then Start else Finish(Response(0));
      case Running => s := EndOfOutput;
      case Checking(_) => s := if Enabled(l, TakeCredit) then TakeCredit else Block;
      case Charged(_) => s := WriteChunk;
      case Ended => s := Finish(Response(|w.written|));
      case Blocked(_) =>
        if |l.call.inbox| > 0 { FramesGetOn(l); }
        s := if Enabled(l, SendFirstCredit) then SendFirstCredit else if Enabled(l, SendOwed) then SendOwed
             else if Enabled(l, Receive) then Receive else Wake;
    }
  }

  /** With nothing on its way to or from the server, a call has ended, or it or its worker can go on. */
  lemma LaneGetsOn(l: Lane) returns (s: Step)
    requires LaneInv(l) && l.up == [] && l.down == [] && !l.notifying && l.terminal == None
    requires l.worker.Some? ==> l.worker.value.work != Refused
    requires l.call.progress.status == Open || !Done(l)
    ensures Enabled(l, s) && OnItsOwn(s) && !s.Deliver?
  {
    if Unsent(l) {
      s := SendRequest;
    } else if l.worker.Some? {
      s := WorkerGetsOn(l);
    } else {
      if |l.call.inbox| > 0 { FramesGetOn(l); }
      s := if Enabled(l, SendFirstCredit) then SendFirstCredit else if Enabled(l, SendOwed) then SendOwed else Receive;
    }
  }

  predicate CanRun(l: Lane, steps: seq<Step>)
    decreases |steps|
  {
    |steps| == 0 || (Enabled(l, steps[0]) && Tolerable(l, steps[0]) && CanRun(Apply(l, steps[0]), steps[1..]))
  }

  function Run(l: Lane, steps: seq<Step>): Lane
    requires CanRun(l, steps)
    decreases |steps|
  {
    if |steps| == 0 then l else Run(Apply(l, steps[0]), steps[1..])
  }

  lemma StepKeepsOperation(l: Lane, s: Step)
    requires Enabled(l, s)
    ensures Apply(l, s).call.op == l.call.op
  {}

  lemma {:induction false} RunKeepsOperation(l: Lane, steps: seq<Step>)
    requires CanRun(l, steps)
    ensures Run(l, steps).call.op == l.call.op
    decreases |steps|
  {
    if |steps| > 0 {
      StepKeepsOperation(l, steps[0]);
      RunKeepsOperation(Apply(l, steps[0]), steps[1..]);
    }
  }

  lemma {:induction false} RunKeepsLane(l: Lane, steps: seq<Step>)
    requires LaneInv(l) && CanRun(l, steps)
    ensures LaneInv(Run(l, steps))
    decreases |steps|
  {
    if |steps| > 0 {
      StepKeepsLane(l, steps[0]);
      RunKeepsLane(Apply(l, steps[0]), steps[1..]);
    }
  }

  /** In every run of one Bash request: from the first credit to the end of the server's work, the credit at the
      server, on its way, taken for a chunk, on its way back as data, and owed by the call is the window together. */
  lemma CreditIsConserved(steps: seq<Step>)
    requires CanRun(NewLane(Bash), steps)
    ensures var l := Run(NewLane(Bash), steps);
            && l.call.op == Bash && (Issued(l) && !Done(l) ==> TotalCredit(l) == STREAM_WINDOW)
            && l.call.progress.status != Killed && IsPrefix(l.call.progress.output, l.read)
  {
    NewLaneInv(Bash);
    RunKeepsLane(NewLane(Bash), steps);
    RunKeepsOperation(NewLane(Bash), steps);
    NoCallIsKilled(Run(NewLane(Bash), steps));
    OutputIsPrefix(Run(NewLane(Bash), steps));
  }

  // ---------------------------------------------------------------- where terminal frames stand

  lemma {:induction false} OnFramesSplit(op: Operation, p: Progress, a: seq<DownMsg>, b: seq<DownMsg>)
    ensures OnFrames(op, p, a + b) == OnFrames(op, OnFrames(op, p, a), b)
    decreases |a|
  {
    if |a| == 0 {
      assert a + b == b;
    } else {
      assert (a + b)[1..] == a[1..] + b;
      OnFramesSplit(op, OnFrame(op, p, a[0]), a[1..], b);
    }
  }

  /** A terminal frame under way is the last frame of its request, and the server is done with it. */
  lemma TerminalIsLast(l: Lane, k: nat)
    requires LaneInv(l) && k < |Flight(l)| && Terminal(Flight(l)[k])
    ensures k == |Flight(l)| - 1 && Done(l)
  {
    var f := Flight(l);
    var a, b := f[..k], f[k + 1..];
    assert f == (a + [f[k]]) + b;
    OnFramesSplit(l.call.op, l.call.progress, a + [f[k]], b);
    OnFramesAppend(l.call.op, l.call.progress, a, f[k]);
    OnFramesGrows(l.call.op, OnFrames(l.call.op, l.call.progress, a + [f[k]]), b);
    NoCallIsKilled(l);
  }

  /** Once the server is done, the last frame under way, if any, is terminal. */
  lemma DoneEndsWithTerminal(l: Lane)
    requires LaneInv(l) && Done(l) && |Flight(l)| > 0
    ensures Terminal(Flight(l)[|Flight(l)| - 1])
  {
    var f := Flight(l);
    assert f == f[..|f| - 1] + [f[|f| - 1]];
    OnFramesAppend(l.call.op, l.call.progress, f[..|f| - 1], f[|f| - 1]);
  }

  /** Of the frames on their way to the reader, the first is terminal exactly if it is the last of the request. */
  lemma FrontIsLastIffTerminal(l: Lane, m: DownMsg, rest: seq<DownMsg>)
    requires LaneInv(l) && l.down == [m] + rest
    ensures Terminal(m) ==> Done(l) && rest == [] && l.terminal == None
    ensures !Terminal(m) && Done(l) ==> rest != [] || l.terminal.Some?
  {
    assert Flight(l)[|l.call.inbox|] == m;
    if Terminal(m) {
      TerminalIsLast(l, |l.call.inbox|);
    } else if Done(l) {
      DoneEndsWithTerminal(l);
    }
  }

  // ---------------------------------------------------------------- which parts of a lane a step touches

  predicate Sends(step: Step) { step.SendRequest? || step.SendFirstCredit? || step.SendCancel? || step.SendOwed? }
  predicate Writes(step: Step) { step.Start? || step.WriteChunk? }
  predicate OfCall(step: Step) { Sends(step) || step.Receive? || step.Deliver? }
  predicate OfWorker(step: Step) {
    || Writes(step) || step.Finish? || step.Timeout? || step.ReadChunk? || step.TakeCredit? || step.Block? || step.Wake?
       || step.EndOfOutput?
  }

  lemma CallTouches(l: Lane, s: Step)
    requires Enabled(l, s) && OfCall(s)
    ensures var r := Apply(l, s);
            && r.worker == l.worker && r.notifying == l.notifying && r.read == l.read && r.terminal == l.terminal
            && (if Sends(s) then |r.up| == |l.up| + 1 && r.up == l.up + [r.up[|l.up|]] else r.up == l.up)
            && (if s.Deliver? then |l.down| > 0 && r.down == l.down[1..] else r.down == l.down)
  {}

  lemma FinishIsTerminal(w: Worker, m: DownMsg)
    requires CanFinish(w, m)
    ensures Terminal(m)
  {}

  lemma WorkTouches(l: Lane, s: Step)
    requires Enabled(l, s) && OfWorker(s)
    ensures var r := Apply(l, s);
            && r.call == l.call && r.up == l.up && r.notifying == l.notifying && l.worker.Some?
            && (r.worker.Some? <==> !s.Finish?) && r.terminal == (if s.Finish? then Some(s.m) else l.terminal)
            && (r.worker.Some? ==> (r.worker.value.work == Refused <==> l.worker.value.work == Refused))
            && (if Writes(s) then |r.down| == |l.down| + 1 && r.down == l.down + [r.down[|l.down|]]
                                  && !Terminal(r.down[|l.down|])
                else r.down == l.down)
  {}

  lemma WorkKeepsOperation(l: Lane, s: Step)
    requires Enabled(l, s) && OfWorker(s) && !s.Finish?
    ensures Apply(l, s).worker.Some? && Apply(l, s).worker.value.op == l.worker.value.op
  {}

  // ---------------------------------------------------------------- when a request is done

  lemma CallChangesDone(l: Lane, s: Step)
    requires LaneInv(l) && Enabled(l, s) && OfCall(s)
    ensures Done(Apply(l, s)) <==> Done(l)
  {
    CallTouches(l, s);
  }

  lemma WorkChangesDone(l: Lane, s: Step)
    requires LaneInv(l) && Enabled(l, s) && OfWorker(s)
    ensures Done(Apply(l, s)) <==> Done(l) || s.Finish?
  {
    WorkTouches(l, s);
  }

  lemma ServeChangesDone(l: Lane, s: Step)
    requires LaneInv(l) && Enabled(l, s) && !OfCall(s) && !OfWorker(s)
    ensures Done(Apply(l, s)) <==> Done(l)
  {}

  lemma DoneChange(l: Lane, s: Step)
    requires LaneInv(l) && Enabled(l, s)
    ensures Done(Apply(l, s)) <==> Done(l) || s.Finish?
  {
    if OfCall(s) {
      CallChangesDone(l, s);
    } else if OfWorker(s) {
      WorkChangesDone(l, s);
    } else {
      ServeChangesDone(l, s);
    }
  }
}

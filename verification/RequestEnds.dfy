/** The objects at the two ends of a request, with the fields the program updates in place:
    the credit of a helperRequest, the receive loop of RunBash, the chunk loop of runBash, and the
    pending map of the client. */
module RequestEnds {
  import opened Bytes
  import opened RequestLane
  import RemoteSession
  import opened Wrappers

  // ---------------------------------------------------------------- server: credit of one request

  class HelperRequest {
    var creditBalance: int
    var creditReady: bool // the one-slot channel

    constructor ()
      ensures creditBalance == 0 && !creditReady
    {
      creditBalance, creditReady := 0, false;
    }

    method PushCredit(value: int) returns (ok: bool)
      modifies this
      ensures ok == (0 < value && old(creditBalance) <= MAX_CREDIT - value)
      ensures creditBalance == old(creditBalance) + if ok then value else 0
      ensures creditReady == (old(creditReady) || ok)
    {
      if value <= 0 || creditBalance > MAX_CREDIT - value {
        return false;
      }
      creditBalance := creditBalance + value;
      creditReady := true;
      return true;
    }

    /** One turn of the takeCredit loop: either the credit is taken, or the signal must be waited for. */
    method TryTakeCredit(bytes: nat) returns (taken: bool)
      modifies this
      ensures taken == (old(creditBalance) >= bytes)
      ensures creditBalance == old(creditBalance) - if taken then bytes else 0
      ensures creditReady == old(creditReady)
    {
      taken := creditBalance >= bytes;
      if taken {
        creditBalance := creditBalance - bytes;
      }
    }
  }

  // ---------------------------------------------------------------- server: the chunk loop

  /** The frames of a Bash run that reads these chunks and then the end of the output. */
  function StreamFrames(chunks: seq<Bytes>): seq<DownMsg>
    decreases |chunks|
  {
    if |chunks| == 0 then [Accepted]
    else StreamFrames(chunks[..|chunks| - 1]) + [Data(|chunks|, chunks[|chunks| - 1])]
  }

  function Concat(chunks: seq<Bytes>): Bytes
    decreases |chunks|
  {
    if |chunks| == 0 then [] else Concat(chunks[..|chunks| - 1]) + chunks[|chunks| - 1]
  }

  ghost predicate Chunks(chunks: seq<Bytes>) {
    forall k :: 0 <= k < |chunks| ==> 0 < |chunks[k]| <= STREAM_WINDOW
  }

  /** What a Bash run meets when it has read all the chunks: the end of the output with a clean exit, the end and no
      exit status, the end and a root that is another one by now; a cancellation; or a read that fails. */
  datatype Ending = Exited | NoStatus | RootChanged | CancelledThen | ReadFails

  function LastFrame(chunks: seq<Bytes>, ending: Ending): DownMsg {
    match ending
    case Exited => Response(|Concat(chunks)|)
    case NoStatus => Failure(BashStartFailed)
    case ReadFails => Failure(BashStartFailed)
    case RootChanged => Failure(OutcomeUnknown)
    case CancelledThen => Failure(Cancelled)
  }

  /** runBash after the process has started: what it writes. patience: how many chunks get their credit before the
      request is cancelled. */
  method RunBashServer(chunks: seq<Bytes>, patience: nat, ending: Ending) returns (frames: seq<DownMsg>, read: nat)
    requires Chunks(chunks)
    ensures read <= |chunks| && |Concat(chunks[..read])| <= MAX_BASH_OUTPUT && read <= patience
    ensures read == |chunks| ==> frames == StreamFrames(chunks) + [LastFrame(chunks, ending)]
    ensures read < |chunks| ==>
              if |Concat(chunks[..read + 1])| > MAX_BASH_OUTPUT
              then frames == StreamFrames(chunks[..read]) + [Failure(OutputLimit)]
              else read == patience && frames == StreamFrames(chunks[..read]) + [Failure(Cancelled)]
  {
    frames := [Accepted];
    var outputBytes := 0;
    var sequence := 0;
    read := 0;
    assert chunks[..0] == [];
    while read < |chunks|
      invariant read == sequence <= |chunks| && read <= patience
      invariant outputBytes == |Concat(chunks[..read])| <= MAX_BASH_OUTPUT
      invariant frames == StreamFrames(chunks[..read])
    {
      ConcatNext(chunks, read);
      outputBytes := outputBytes + |chunks[read]|;
      if outputBytes > MAX_BASH_OUTPUT {
        frames := frames + [Failure(OutputLimit)];
        return;
      }
      if read == patience {
        frames := frames + [Failure(Cancelled)];
        return;
      }
      sequence := sequence + 1;
      frames := frames + [Data(sequence, chunks[read])];
      read := read + 1;
    }
    assert chunks[..read] == chunks;
    frames := frames + [if ending == Exited then Response(outputBytes) else LastFrame(chunks, ending)];
  }

  /** It reads all chunks exactly if they are within the limit and all get their credit. */
  lemma ReadsAllIff(chunks: seq<Bytes>, patience: nat, read: nat)
    requires Chunks(chunks) && read <= |chunks| && |Concat(chunks[..read])| <= MAX_BASH_OUTPUT && read <= patience
    requires read < |chunks| ==> |Concat(chunks[..read + 1])| > MAX_BASH_OUTPUT || read == patience
    ensures read == |chunks| <==> |Concat(chunks)| <= MAX_BASH_OUTPUT && |chunks| <= patience
  {
    if read < |chunks| { ConcatGrows(chunks, read + 1); }
    assert chunks[..|chunks|] == chunks;
  }

  lemma ConcatNext(chunks: seq<Bytes>, n: nat)
    requires n < |chunks|
    ensures Concat(chunks[..n + 1]) == Concat(chunks[..n]) + chunks[n]
    ensures StreamFrames(chunks[..n + 1]) == StreamFrames(chunks[..n]) + [Data(n + 1, chunks[n])]
  {
    assert chunks[..n + 1][..n] == chunks[..n];
  }

  lemma {:induction false} ConcatGrows(chunks: seq<Bytes>, n: nat)
    requires n <= |chunks|
    ensures |Concat(chunks[..n])| <= |Concat(chunks)|
    decreases |chunks|
  {
    if n < |chunks| {
      ConcatGrows(chunks[..|chunks| - 1], n);
      assert chunks[..|chunks| - 1][..n] == chunks[..n];
    } else {
      assert chunks[..n] == chunks;
    }
  }

  /** Whatever way the output of a process falls into chunks, the client puts it together again. */
  lemma {:induction false} StreamRoundTrip(chunks: seq<Bytes>)
    requires Chunks(chunks) && |Concat(chunks)| <= MAX_BASH_OUTPUT
    ensures OnFrames(Bash, FRESH, StreamFrames(chunks)) == Progress(true, |chunks|, Concat(chunks), Open)
    ensures OnFrames(Bash, FRESH, StreamFrames(chunks) + [Response(|Concat(chunks)|)])
            == Progress(true, |chunks|, Concat(chunks), Succeeded)
    decreases |chunks|
  {
    if |chunks| > 0 {
      var init := chunks[..|chunks| - 1];
      StreamRoundTrip(init);
      OnFramesAppend(Bash, FRESH, StreamFrames(init), Data(|chunks|, chunks[|chunks| - 1]));
    } else {
      assert OnFrames(Bash, OnFrame(Bash, FRESH, Accepted), [Accepted][1..]) == Progress(true, 0, [], Open);
    }
    OnFramesAppend(Bash, FRESH, StreamFrames(chunks), Response(|Concat(chunks)|));
  }

  // ---------------------------------------------------------------- what the client accepts

  /** The frames of some run whose output is within the limit, up to where it is read. */
  ghost predicate StreamOf(frames: seq<DownMsg>, chunks: seq<Bytes>) {
    Chunks(chunks) && |Concat(chunks)| <= MAX_BASH_OUTPUT && frames == StreamFrames(chunks)
  }

  /** Nothing, or the front of a stream. */
  ghost predicate FrontOfStream(frames: seq<DownMsg>) {
    frames == [] || exists chunks :: StreamOf(frames, chunks)
  }

  lemma NextData(frames: seq<DownMsg>, chunks: seq<Bytes>, sequence: nat, blob: Bytes)
    requires StreamOf(frames, chunks)
    requires OnFrame(Bash, Progress(true, |chunks|, Concat(chunks), Open), Data(sequence, blob)).status == Open
    ensures StreamOf(frames + [Data(sequence, blob)], chunks + [blob])
            && Concat(chunks + [blob]) == Concat(chunks) + blob
  {
    var more := chunks + [blob];
    assert more[..|chunks|] == chunks;
  }

  lemma NextFrame(frames: seq<DownMsg>, p: Progress, m: DownMsg)
    requires p == OnFrames(Bash, FRESH, frames) && OnFrame(Bash, p, m).status == Open
    requires || frames == []
             || exists chunks :: StreamOf(frames, chunks) && p == Progress(true, |chunks|, Concat(chunks), Open)
    ensures exists chunks :: StreamOf(frames + [m], chunks)
                             && OnFrame(Bash, p, m) == Progress(true, |chunks|, Concat(chunks), Open)
  {
    if frames == [] {
      assert StreamOf([Accepted], []) && Concat([]) == [];
    } else {
      var chunks :| StreamOf(frames, chunks) && p == Progress(true, |chunks|, Concat(chunks), Open);
      assert m.Data?;
      NextData(frames, chunks, m.sequence, m.blob);
    }
  }

  /** A call that is still open has been sent nothing, or the front of a stream. */
  lemma {:induction false} OpenFrames(frames: seq<DownMsg>)
    requires OnFrames(Bash, FRESH, frames).status == Open && frames != []
    ensures exists chunks :: StreamOf(frames, chunks)
                             && OnFrames(Bash, FRESH, frames) == Progress(true, |chunks|, Concat(chunks), Open)
    decreases |frames|
  {
    var front, m := frames[..|frames| - 1], frames[|frames| - 1];
    assert frames == front + [m];
    OnFramesAppend(Bash, FRESH, front, m);
    if front != [] { OpenFrames(front); }
    NextFrame(front, OnFrames(Bash, FRESH, front), m);
  }

  /** How a call that ends well has come to its last frame. */
  lemma SucceedsAfter(front: seq<DownMsg>, m: DownMsg) returns (chunks: seq<Bytes>)
    requires OnFrames(Bash, FRESH, front + [m]).status == Succeeded
    ensures StreamOf(front, chunks) && m == Response(|Concat(chunks)|)
  {
    OnFramesAppend(Bash, FRESH, front, m);
    if front == [] {
      assert false;
    }
    OpenFrames(front);
    chunks :| StreamOf(front, chunks) && OnFrames(Bash, FRESH, front) == Progress(true, |chunks|, Concat(chunks), Open);
  }

  /** The client takes exactly these sequences of frames for a success: the acceptance, numbered chunks none of which
      is empty or longer than the window, and a response with the number of bytes, no more than 16 MiB. */
  lemma SucceedsIff(frames: seq<DownMsg>)
    ensures OnFrames(Bash, FRESH, frames).status == Succeeded
            <==> exists chunks :: |Concat(chunks)| <= 16777216 && Chunks(chunks)
                                  && frames == StreamFrames(chunks) + [Response(|Concat(chunks)|)]
  {
    if chunks :| |Concat(chunks)| <= 16777216 && Chunks(chunks)
                 && frames == StreamFrames(chunks) + [Response(|Concat(chunks)|)] {
      StreamRoundTrip(chunks);
    }
    if OnFrames(Bash, FRESH, frames).status == Succeeded {
      var n := |frames| - 1;
      assert frames == frames[..n] + [frames[n]];
      var chunks := SucceedsAfter(frames[..n], frames[n]);
    }
  }

  lemma OpenIff(frames: seq<DownMsg>)
    ensures OnFrames(Bash, FRESH, frames).status == Open <==> FrontOfStream(frames)
  {
    if frames != [] && OnFrames(Bash, FRESH, frames).status == Open { OpenFrames(frames); }
    if chunks :| StreamOf(frames, chunks) { StreamRoundTrip(chunks); }
  }

  lemma FailsAfter(front: seq<DownMsg>, m: DownMsg, code: Code)
    ensures OnFrames(Bash, FRESH, front + [m]).status == Failed(code)
            <==> m == Failure(code) && code in KnownCodes(Bash) && OnFrames(Bash, FRESH, front).status == Open
  {
    OnFramesAppend(Bash, FRESH, front, m);
  }

  /** It takes exactly these for a failure with a code: anything that leaves the call open, and the code, if Bash knows
      it. */
  lemma FailsIff(frames: seq<DownMsg>, code: Code)
    ensures OnFrames(Bash, FRESH, frames).status == Failed(code)
            <==> |frames| > 0 && frames[|frames| - 1] == Failure(code) && code in KnownCodes(Bash)
                 && FrontOfStream(frames[..|frames| - 1])
  {
    if |frames| > 0 {
      var n := |frames| - 1;
      assert frames == frames[..n] + [frames[n]];
      FailsAfter(frames[..n], frames[n], code);
      OpenIff(frames[..n]);
    }
  }

  // ---------------------------------------------------------------- any output gets through

  /** A run of one request that leads to l. */
  ghost predicate Leads(op: Operation, steps: seq<Step>, l: Lane) {
    CanRun(NewLane(op), steps) && Run(NewLane(op), steps) == l
  }

  lemma {:induction false} RunOn(l: Lane, steps: seq<Step>, s: Step)
    requires CanRun(l, steps) && Enabled(Run(l, steps), s) && Tolerable(Run(l, steps), s)
    ensures CanRun(l, steps + [s]) && Run(l, steps + [s]) == Apply(Run(l, steps), s)
    decreases |steps|
  {
    if |steps| == 0 {
      assert steps + [s] == [s] && [s][1..] == [];
    } else {
      assert (steps + [s])[1..] == steps[1..] + [s];
      RunOn(Apply(l, steps[0]), steps[1..], s);
    }
  }

  lemma LeadsOn(op: Operation, steps: seq<Step>, l: Lane, s: Step) returns (more: seq<Step>, r: Lane)
    requires Leads(op, steps, l) && Enabled(l, s) && Tolerable(l, s)
    ensures Leads(op, more, r) && r == Apply(l, s)
  {
    RunOn(NewLane(op), steps, s);
    more, r := steps + [s], Apply(l, s);
  }

  /** Nothing under way, the whole window at the server, the worker between two reads, and all output at the client. */
  function Rest(n: nat, output: Bytes): Lane {
    Lane(Call(Bash, Waiting, Progress(true, n, output, Open), 0, false, []), [], [],
         Some(Worker(Bash, Running, false, STREAM_WINDOW, true, n, output)), false, None, output)
  }

  lemma Begins() returns (steps: seq<Step>, l: Lane)
    ensures Leads(Bash, steps, l) && l == Rest(0, [])
  {
    steps, l := [], NewLane(Bash);
    steps, l := LeadsOn(Bash, steps, l, SendRequest);
    steps, l := LeadsOn(Bash, steps, l, ServeRequest(false));
    steps, l := LeadsOn(Bash, steps, l, SendFirstCredit);
    steps, l := LeadsOn(Bash, steps, l, ServeCredit);
    steps, l := LeadsOn(Bash, steps, l, Notify);
    steps, l := LeadsOn(Bash, steps, l, Start);
    steps, l := LeadsOn(Bash, steps, l, Deliver);
    steps, l := LeadsOn(Bash, steps, l, Receive);
  }

  lemma ReadsChunk(steps: seq<Step>, n: nat, output: Bytes, chunk: Bytes) returns (more: seq<Step>, l: Lane)
    requires Leads(Bash, steps, Rest(n, output)) && 0 < |chunk| <= STREAM_WINDOW
    requires |output| + |chunk| <= MAX_BASH_OUTPUT
    ensures Leads(Bash, more, l)
    ensures l == Rest(n, output).(
              read := output + chunk,
              worker := Some(Worker(Bash, Charged(chunk), false, STREAM_WINDOW - |chunk|, true, n, output)))
  {
    more, l := LeadsOn(Bash, steps, Rest(n, output), ReadChunk(chunk));
    more, l := LeadsOn(Bash, more, l, TakeCredit);
  }

  lemma WritesChunk(steps: seq<Step>, n: nat, output: Bytes, chunk: Bytes) returns (more: seq<Step>, l: Lane)
    requires Leads(Bash, steps, Rest(n, output)) && 0 < |chunk| <= STREAM_WINDOW
    requires |output| + |chunk| <= MAX_BASH_OUTPUT
    ensures Leads(Bash, more, l)
    ensures l == Rest(n, output).(
              down := [Data(n + 1, chunk)], read := output + chunk,
              worker := Some(Worker(Bash, Running, false, STREAM_WINDOW - |chunk|, true, n + 1, output + chunk)))
  {
    more, l := ReadsChunk(steps, n, output, chunk);
    more, l := LeadsOn(Bash, more, l, WriteChunk);
    assert [] + [Data(n + 1, chunk)] == [Data(n + 1, chunk)];
  }

  lemma TakesChunk(steps: seq<Step>, n: nat, output: Bytes, chunk: Bytes) returns (more: seq<Step>, l: Lane)
    requires Leads(Bash, steps, Rest(n, output)) && 0 < |chunk| <= STREAM_WINDOW
    requires |output| + |chunk| <= MAX_BASH_OUTPUT
    ensures Leads(Bash, more, l) && l == Rest(n + 1, output + chunk)
  {
    more, l := WritesChunk(steps, n, output, chunk);
    more, l := LeadsOn(Bash, more, l, Deliver);
    more, l := LeadsOn(Bash, more, l, Receive);
    more, l := LeadsOn(Bash, more, l, SendOwed);
    more, l := LeadsOn(Bash, more, l, ServeCredit);
    more, l := LeadsOn(Bash, more, l, Notify);
  }

  lemma {:induction false} TakesChunks(chunks: seq<Bytes>) returns (steps: seq<Step>)
    requires Chunks(chunks) && |Concat(chunks)| <= MAX_BASH_OUTPUT
    ensures Leads(Bash, steps, Rest(|chunks|, Concat(chunks)))
    decreases |chunks|
  {
    if |chunks| == 0 {
      var l;
      steps, l := Begins();
    } else {
      var init, l := chunks[..|chunks| - 1], NewLane(Bash);
      steps := TakesChunks(init);
      steps, l := TakesChunk(steps, |init|, Concat(init), chunks[|chunks| - 1]);
    }
  }

  lemma Ends(steps: seq<Step>, n: nat, output: Bytes) returns (more: seq<Step>, l: Lane)
    requires Leads(Bash, steps, Rest(n, output))
    ensures Leads(Bash, more, l)
    ensures l == Rest(n, output).(worker := None, down := [Response(|output|)])
  {
    more, l := LeadsOn(Bash, steps, Rest(n, output), EndOfOutput);
    more, l := LeadsOn(Bash, more, l, Finish(Response(|output|)));
    more, l := LeadsOn(Bash, more, l, Publish);
    assert [] + [Response(|output|)] == [Response(|output|)];
  }

  /** Whatever a process writes, up to 16 MiB and in whatever chunks, there is a run that delivers all of it. */
  lemma AnyOutputIsDelivered(chunks: seq<Bytes>) returns (steps: seq<Step>)
    requires Chunks(chunks) && |Concat(chunks)| <= 16777216
    ensures CanRun(NewLane(Bash), steps)
    ensures var l := Run(NewLane(Bash), steps);
            && l.call.progress == Progress(true, |chunks|, Concat(chunks), Succeeded) && Done(l)
            && l.read == Concat(chunks) && Flight(l) == [] && l.up == []
  {
    steps := TakesChunks(chunks);
    var l;
    steps, l := Ends(steps, |chunks|, Concat(chunks));
    steps, l := LeadsOn(Bash, steps, l, Deliver);
    steps, l := LeadsOn(Bash, steps, l, Receive);
  }

  lemma Asks(op: Operation) returns (steps: seq<Step>, l: Lane)
    requires op != Bash
    ensures Leads(op, steps, l)
    ensures l == Lane(Call(op, Waiting, FRESH, 0, false, []), [], [], Some(NewWorker(op, false)), false, None, [])
  {
    steps, l := [], NewLane(op);
    steps, l := LeadsOn(op, steps, l, SendRequest);
    assert l.up == [Request(op)] && l.up[1..] == [];
    steps, l := LeadsOn(op, steps, l, ServeRequest(false));
  }

  /** Every answer that the handler of another method can give is delivered in some run. */
  lemma AnyAnswerIsDelivered(op: Operation, m: DownMsg) returns (steps: seq<Step>)
    requires op != Bash && (m.Response? || (m.Failure? && m.code in HandlerCodes(op)))
    ensures CanRun(NewLane(op), steps)
    ensures var l := Run(NewLane(op), steps);
            Done(l) && l.call.progress.status == if m.Response? then Succeeded else Failed(m.code)
  {
    var l;
    steps, l := Asks(op);
    steps, l := LeadsOn(op, steps, l, Finish(m));
    steps, l := LeadsOn(op, steps, l, Publish);
    assert l.down == [m];
    steps, l := LeadsOn(op, steps, l, Deliver);
    assert l.call.inbox == [m];
    RefusalsAreKnown(op);
    steps, l := LeadsOn(op, steps, l, Receive);
  }

  // ---------------------------------------------------------------- client: the receive loop

  class BashCall {
    var accepted: bool
    var sequence: nat
    var output: Bytes
    var status: Status

    function View(): Progress
      reads this
    {
      Progress(accepted, sequence, output, status)
    }

    constructor ()
      ensures View() == FRESH
    {
      accepted, sequence, output, status := false, 0, [], Open;
    }

    /** One turn of the loop: credit is the number of bytes to return to the server. */
    method HandleFrame(m: DownMsg) returns (credit: nat)
      requires status == Open
      modifies this
      ensures View() == OnFrame(Bash, old(View()), m)
      ensures credit == if m.Data? && status == Open then |m.blob| else 0
    {
      credit := 0;
      match m {
        case Accepted =>
          if accepted {
            status := Killed;
            return;
          }
          accepted := true;
        case Data(next, blob) =>
          if !accepted || next != sequence + 1 || |blob| == 0 || |blob| > STREAM_WINDOW
            || |output| + |blob| > MAX_BASH_OUTPUT {
            status := Killed;
            return;
          }
          sequence := next;
          output := output + blob;
          credit := |blob|;
        case Response(outputBytes) =>
          status := if !accepted || outputBytes != |output| then Killed else Succeeded;
        case Failure(code) =>
          status := if code in KnownCodes(Bash) then Failed(code) else Killed;
      }
    }

    /** The loop of RunBash over the frames that arrive, up to the one that ends it. */
    method Receive(frames: seq<DownMsg>) returns (used: nat, credit: nat)
      requires View() == FRESH
      modifies this
      ensures used <= |frames| && View() == OnFrames(Bash, FRESH, frames[..used])
      ensures status == Open ==> used == |frames|
      ensures status != Killed ==> credit == STREAM_WINDOW + DataBytes(frames[..used])
    {
      used, credit := 0, STREAM_WINDOW;
      while used < |frames| && status == Open
        invariant used <= |frames|
        invariant View() == OnFrames(Bash, FRESH, frames[..used])
        invariant status != Killed ==> credit == STREAM_WINDOW + DataBytes(frames[..used])
      {
        var more := HandleFrame(frames[used]);
        assert frames[..used + 1] == frames[..used] + [frames[used]];
        OnFramesAppend(Bash, FRESH, frames[..used], frames[used]);
        DataBytesAppend(frames[..used], frames[used]);
        credit := credit + more;
        used := used + 1;
      }
    }
  }

  // ---------------------------------------------------------------- client: the pending map

  class HelperGeneration {
    var nextRequest: nat
    var pending: set<nat>

    constructor ()
      ensures nextRequest == 0 && pending == {}
    {
      nextRequest, pending := 0, {};
    }

    ghost predicate Valid()
      reads this
    {
      |pending| <= RemoteSession.MAX_PENDING && forall id :: id in pending ==> 1 <= id <= nextRequest
    }

    /** The start of callFrame: a fresh identifier, or the limit. */
    method Allocate() returns (ok: bool, id: nat)
      requires Valid()
      modifies this
      ensures Valid() && ok == (|old(pending)| < RemoteSession.MAX_PENDING)
      ensures ok ==> id == nextRequest == old(nextRequest) + 1 && id !in old(pending) && pending == old(pending) + {id}
      ensures !ok ==> pending == old(pending) && nextRequest == old(nextRequest)
    {
      id := 0;
      ok := |pending| < RemoteSession.MAX_PENDING;
      if ok {
        nextRequest := nextRequest + 1;
        id := nextRequest;
        pending := pending + {id};
      }
    }

    /** The reader's lookup: an unknown identifier stops the transport, a terminal frame ends the call. */
    method Take(id: nat, terminal: bool) returns (known: bool)
      requires Valid()
      modifies this`pending
      ensures Valid() && known == (id in old(pending))
      ensures pending == if known && terminal then old(pending) - {id} else old(pending)
    {
      known := id in pending;
      if known && terminal {
        pending := pending - {id};
      }
    }
  }
}

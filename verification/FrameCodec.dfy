/** Frames of the remote protocol on a byte stream: a length, an envelope in JSON, and a blob. */
module FrameCodec {
  import opened Bytes
  import Utf8

  const VERSION := 1
  const DEFAULT_MAX_CONTROL := 1048576
  const DEFAULT_MAX_BLOB := 16777216
  const MAX_UINT32 := 0xFFFF_FFFF
  const MAX_ID := 256
  const MAX_METHOD := 128
  const MAX_ERROR_CODE := 128
  const MAX_ERROR_MESSAGE := 8192
  const MAX_TIMEOUT := 86400000

  // ---------------------------------------------------------------- envelopes

  datatype Kind = KindRequest | KindResponse | KindError | KindEvent | KindCancel | OtherKind

  datatype RemoteError = NoError | RemoteError(code: Bytes, message: Bytes)

  datatype Envelope = Envelope(version: nat, kind: Kind, id: Bytes, generation: nat, methodName: Bytes,
                               timeoutMillis: nat,
                               payload: Bytes, blobLength: nat, error: RemoteError)

  datatype Frame = Frame(envelope: Envelope, blob: Bytes)

  /** What decoding a control frame gives: an envelope and nothing behind it; no envelope; more JSON behind it; or
      something else behind it. */
  datatype Decoded = Parsed(envelope: Envelope) | NotAnEnvelope | MoreJson | NoJsonBehind

  /** What is not modelled of an envelope: its JSON, which characters are space or control, what is valid JSON. */
  datatype Text = Text(marshal: Envelope -> Bytes, decode: Bytes -> Decoded, plain: Bytes -> bool,
                       json: Bytes -> bool)

  predicate ValidToken(t: Text, value: Bytes, max: nat) {
    value == [] || (Utf8.Valid(value) && |value| <= max && t.plain(value))
  }

  predicate ValidError(t: Text, e: RemoteError)
    requires e.RemoteError?
  {
    && e.code != [] && ValidToken(t, e.code, MAX_ERROR_CODE)
    && e.message != [] && Utf8.Valid(e.message) && |e.message| <= MAX_ERROR_MESSAGE
  }

  /** ValidateEnvelope. */
  predicate ValidEnvelope(t: Text, e: Envelope) {
    && e.version == VERSION && e.generation != 0 && e.timeoutMillis <= MAX_TIMEOUT
    && ValidToken(t, e.id, MAX_ID) && ValidToken(t, e.methodName, MAX_METHOD)
    && (e.payload == [] || t.json(e.payload))
    && match e.kind
       case KindRequest => e.id != [] && e.methodName != [] && e.error.NoError?
       case KindResponse => e.id != [] && e.methodName == [] && e.error.NoError? && e.timeoutMillis == 0
       case KindError => e.id != [] && e.methodName == [] && e.error.RemoteError? && e.blobLength == 0
            && e.timeoutMillis == 0
                         && ValidError(t, e.error)
       case KindEvent => e.methodName != [] && e.error.NoError? && e.timeoutMillis == 0
       case KindCancel => e.id != [] && e.methodName == [] && e.error.NoError? && e.payload == [] && e.blobLength == 0
                          && e.timeoutMillis == 0
       case OtherKind => false
  }

  /** The same by its fields: what may be there in which kind of envelope, and how long. */
  lemma EnvelopeIff(t: Text, e: Envelope)
    ensures ValidEnvelope(t, e) <==>
              && e.kind != OtherKind && e.version == 1 && e.generation > 0
              && (e.timeoutMillis > 0 ==> e.kind == KindRequest && e.timeoutMillis <= 86400000)
              && (e.id == [] ==> e.kind == KindEvent)
              && (e.id != [] ==> Utf8.Valid(e.id) && |e.id| <= 256 && t.plain(e.id))
              && (e.methodName != [] <==> e.kind == KindRequest || e.kind == KindEvent)
              && (e.methodName != [] ==> Utf8.Valid(e.methodName) && |e.methodName| <= 128 && t.plain(e.methodName))
              && (e.payload != [] ==> e.kind != KindCancel && t.json(e.payload))
              && (e.blobLength > 0 ==> e.kind != KindError && e.kind != KindCancel)
              && (e.error.RemoteError? <==> e.kind == KindError)
              && (e.error.RemoteError? ==>
                    && 1 <= |e.error.code| <= 128 && Utf8.Valid(e.error.code) && t.plain(e.error.code)
                    && 1 <= |e.error.message| <= 8192 && Utf8.Valid(e.error.message))
  {}

  /** A valid envelope is read back from its JSON, which is never empty. */
  ghost predicate Faithful(t: Text) {
    forall e :: ValidEnvelope(t, e) ==> t.marshal(e) != [] && t.decode(t.marshal(e)) == Parsed(e)
  }

  // ---------------------------------------------------------------- reading

  datatype Limits = Limits(maxControl: nat, maxBlob: nat)

  function Normalized(maxControl: int, maxBlob: int): Limits {
    Limits(if maxControl <= 0 then DEFAULT_MAX_CONTROL else maxControl,
           if maxBlob <= 0 then DEFAULT_MAX_BLOB else maxBlob)
  }

  /** Big-endian, four bytes. */
  function Header(n: nat): (h: Bytes)
    requires n <= MAX_UINT32
    ensures |h| == 4
  {
    var a := n / 0x100;
    var b := a / 0x100;
    [b / 0x100, b % 0x100, a % 0x100, n % 0x100]
  }

  function Length(h: Bytes): nat
    requires |h| == 4
  {
    var a := (h[0] as int) * 0x100 + h[1] as int;
    var b := a * 0x100 + h[2] as int;
    b * 0x100 + h[3] as int
  }

  lemma LengthOfHeader(n: nat)
    requires n <= MAX_UINT32
    ensures Length(Header(n)) == n
  {}

  datatype Failure = ShortHeader | ControlTooLarge | ControlEmpty | ShortControl | BadJson | TrailingJson
    | BadTrailing | BadEnvelope | BlobTooLarge
    | ShortBlob

  datatype ReadResult = Got(frame: Frame, rest: Bytes) | EndOfStream | ReadFailed(error: Failure)

  /** What reading a frame from a stream gives, which ends there, or breaks off with an error. */
  function ReadFrame(t: Text, limits: Limits, stream: Bytes, broken: bool): ReadResult {
    if |stream| == 0 then (if broken then ReadFailed(ShortHeader) else EndOfStream)
    else if |stream| < 4 then ReadFailed(ShortHeader)
    else
      var n := Length(stream[..4]);
      if n > limits.maxControl then ReadFailed(ControlTooLarge)
      else if n == 0 then ReadFailed(ControlEmpty)
      else if |stream| < 4 + n then ReadFailed(ShortControl)
      else match t.decode(stream[4..4 + n])
           case NotAnEnvelope => ReadFailed(BadJson)
           case MoreJson => ReadFailed(TrailingJson)
           case NoJsonBehind => ReadFailed(BadTrailing)
           case Parsed(e) =>
             if !ValidEnvelope(t, e) then ReadFailed(BadEnvelope)
             else if e.blobLength > limits.maxBlob then ReadFailed(BlobTooLarge)
             else if |stream| < 4 + n + e.blobLength then ReadFailed(ShortBlob)
             else Got(Frame(e, stream[4 + n..4 + n + e.blobLength]), stream[4 + n + e.blobLength..])
  }

  class Reader {
    const limits: Limits
    /** What the stream still holds, and whether an error comes behind it. */
    var input: Bytes
    const broken: bool
    var header: Bytes

    constructor (input: Bytes, broken: bool, maxControl: int, maxBlob: int)
      ensures this.input == input && this.broken == broken
      ensures limits.maxControl == if maxControl <= 0 then 1048576 else maxControl
      ensures limits.maxBlob == if maxBlob <= 0 then 16777216 else maxBlob
    {
      this.input, this.broken, limits, header := input, broken, Normalized(maxControl, maxBlob), [0, 0, 0, 0];
    }

    /** io.ReadFull: it takes as much as there is. */
    method ReadFull(n: nat) returns (data: Bytes)
      modifies this`input
      ensures |old(input)| < n ==> data == old(input) && input == []
      ensures |old(input)| >= n ==> data == old(input)[..n] && input == old(input)[n..]
    {
      if |input| < n {
        data, input := input, [];
      } else {
        data, input := input[..n], input[n..];
      }
    }

    /** Reader.Read. */
    method Read(t: Text) returns (r: ReadResult)
      modifies this
      ensures r == ReadFrame(t, limits, old(input), broken)
      ensures r.Got? ==> input == r.rest
    {
      var data := ReadFull(4);
      if |data| < 4 {
        return if |data| == 0 && !broken then EndOfStream else ReadFailed(ShortHeader);
      }
      header := data;
      var controlLength := Length(header);
      if controlLength > limits.maxControl {
        return ReadFailed(ControlTooLarge);
      }
      if controlLength == 0 {
        return ReadFailed(ControlEmpty);
      }
      var control := ReadFull(controlLength);
      if |control| < controlLength {
        return ReadFailed(ShortControl);
      }
      assert control == old(input)[4..4 + controlLength];
      var decoded := t.decode(control);
      if !decoded.Parsed? {
        return ReadFailed(if decoded.MoreJson? then TrailingJson else if decoded.NoJsonBehind? then BadTrailing
                          else BadJson);
      }
      var envelope := decoded.envelope;
      if !ValidEnvelope(t, envelope) {
        return ReadFailed(BadEnvelope);
      }
      if envelope.blobLength > limits.maxBlob {
        return ReadFailed(BlobTooLarge);
      }
      var blob := ReadFull(envelope.blobLength);
      if |blob| < envelope.blobLength {
        return ReadFailed(ShortBlob);
      }
      return Got(Frame(envelope, blob), input);
    }
  }

  // ---------------------------------------------------------------- writing

  datatype WriteResult = Written | WriteBlobTooLarge | InvalidEnvelope | WriteControlTooLarge | StreamFailed

  /** The envelope as it is sent: it says how long the blob is. */
  function Sent(e: Envelope, blob: Bytes): Envelope { e.(blobLength := |blob|) }

  /** The checks of Write, in their order. */
  function Checked(t: Text, limits: Limits, e: Envelope, blob: Bytes): WriteResult {
    if |blob| > limits.maxBlob || |blob| > MAX_UINT32 then WriteBlobTooLarge
    else if !ValidEnvelope(t, Sent(e, blob)) then InvalidEnvelope
    else if |t.marshal(Sent(e, blob))| > limits.maxControl || |t.marshal(Sent(e, blob))| > MAX_UINT32
    then WriteControlTooLarge
    else Written
  }

  function FrameBytes(t: Text, e: Envelope, blob: Bytes): Bytes
    requires |t.marshal(Sent(e, blob))| <= MAX_UINT32
  {
    Header(|t.marshal(Sent(e, blob))|) + t.marshal(Sent(e, blob)) + blob
  }

  class Writer {
    const limits: Limits
    /** What the stream has taken. */
    var output: Bytes
    var header: Bytes

    constructor (maxControl: int, maxBlob: int)
      ensures output == []
      ensures limits.maxControl == if maxControl <= 0 then 1048576 else maxControl
      ensures limits.maxBlob == if maxBlob <= 0 then 16777216 else maxBlob
    {
      output, limits, header := [], Normalized(maxControl, maxBlob), [0, 0, 0, 0];
    }

    /** writeAll: the stream may take any part of what it is given; sent: how much it has taken in the end. */
    method WriteAll(value: Bytes) returns (ok: bool, ghost sent: nat)
      modifies this`output
      ensures sent <= |value| && output == old(output) + value[..sent] && (ok ==> sent == |value|)
    {
      var rest := value;
      sent := 0;
      while |rest| > 0
        invariant sent <= |value| && rest == value[sent..] && output == old(output) + value[..sent]
        decreases |rest|
      {
        var failed := *;
        if failed {
          return false, sent;
        }
        var written: int := *;
        if written <= 0 || written > |rest| {
          return false, sent;
        }
        Taken(old(output), value, sent, written);
        output := output + rest[..written];
        sent := sent + written;
        rest := rest[written..];
      }
      ok := true;
    }

    /** Writer.Write. It sends a whole frame, or nothing if a check fails, or part of the frame if the stream fails. */
    method Write(t: Text, envelope: Envelope, blob: Bytes) returns (r: WriteResult)
      modifies this
      ensures r == Checked(t, limits, envelope, blob)
              || (r == StreamFailed && Checked(t, limits, envelope, blob) == Written)
      ensures r == Written ==> output == old(output) + FrameBytes(t, envelope, blob)
      ensures r != Written && r != StreamFailed ==> output == old(output)
      ensures r == StreamFailed ==>
                exists n :: 0 <= n <= |FrameBytes(t, envelope, blob)|
                  && output == old(output) + FrameBytes(t, envelope, blob)[..n]
    {
      if |blob| > limits.maxBlob || |blob| > MAX_UINT32 {
        return WriteBlobTooLarge;
      }
      var sent := envelope.(blobLength := |blob|);
      if !ValidEnvelope(t, sent) {
        return InvalidEnvelope;
      }
      var control := t.marshal(sent);
      if |control| > limits.maxControl || |control| > MAX_UINT32 {
        return WriteControlTooLarge;
      }
      header := Header(|control|);
      ghost var frame := FrameBytes(t, envelope, blob);
      assert frame == header + control + blob && frame[..|frame|] == frame;
      var ok, taken := SendParts(control, blob);
      assert 0 <= taken <= |frame| && output == old(output) + frame[..taken];
      return if ok then Written else StreamFailed;
    }

    /** The three writes of a frame, its header first. */
    method SendParts(control: Bytes, blob: Bytes) returns (ok: bool, ghost sent: nat)
      modifies this`output
      ensures var frame := header + control + blob;
              sent <= |frame| && output == old(output) + frame[..sent] && (ok ==> sent == |frame|)
    {
      ghost var before := output;
      PrefixOfParts(header, control, blob);
      ok, sent := WriteAll(header);
      if ok {
        ghost var n;
        ok, n := WriteAll(control);
        sent := |header| + n;
        assert output == before + (header + control[..n]);
        if ok && |blob| > 0 {
          ghost var m;
          ok, m := WriteAll(blob);
          sent := |header| + |control| + m;
          assert output == before + (header + control + blob[..m]);
        }
      }
    }
  }

  lemma Taken(before: Bytes, value: Bytes, sent: nat, written: nat)
    requires sent + written <= |value|
    ensures before + value[..sent] + value[sent..][..written] == before + value[..sent + written]
    ensures value[sent..][written..] == value[sent + written..]
  {}

  lemma PrefixOfParts(a: Bytes, b: Bytes, c: Bytes)
    ensures forall k :: 0 <= k <= |a| ==> (a + b + c)[..k] == a[..k]
    ensures forall k :: 0 <= k <= |b| ==> (a + b + c)[..|a| + k] == a + b[..k]
    ensures forall k :: 0 <= k <= |c| ==> (a + b + c)[..|a| + |b| + k] == a + b + c[..k]
  {}

  // ---------------------------------------------------------------- reading back

  lemma Parts(h: Bytes, control: Bytes, blob: Bytes, rest: Bytes)
    requires |h| == 4
    ensures var s := h + control + blob + rest;
            && s[..4] == h && s[4..4 + |control|] == control
            && s[4 + |control|..4 + |control| + |blob|] == blob && s[4 + |control| + |blob|..] == rest
  {}

  /** A frame that was written is read back, and the stream is left at what follows. */
  lemma ReadsBack(t: Text, limits: Limits, e: Envelope, blob: Bytes, rest: Bytes, broken: bool)
    requires Faithful(t) && Checked(t, limits, e, blob) == Written
    ensures ReadFrame(t, limits, FrameBytes(t, e, blob) + rest, broken) == Got(Frame(Sent(e, blob), blob), rest)
  {
    var control := t.marshal(Sent(e, blob));
    LengthOfHeader(|control|);
    Parts(Header(|control|), control, blob, rest);
    assert t.decode(control) == Parsed(Sent(e, blob)) && control != [];
  }

  datatype Message = Message(envelope: Envelope, blob: Bytes)

  ghost predicate AllWritable(t: Text, limits: Limits, ms: seq<Message>) {
    forall m :: m in ms ==> Checked(t, limits, m.envelope, m.blob) == Written
  }

  function StreamOf(t: Text, limits: Limits, ms: seq<Message>): Bytes
    requires AllWritable(t, limits, ms)
  {
    if |ms| == 0 then [] else FrameBytes(t, ms[0].envelope, ms[0].blob) + StreamOf(t, limits, ms[1..])
  }

  /** All frames of a stream, and why reading ended. */
  function ReadAll(t: Text, limits: Limits, stream: Bytes, broken: bool): (seq<Frame>, ReadResult)
    decreases |stream|
  {
    var r := ReadFrame(t, limits, stream, broken);
    if r.Got? then
      var more := ReadAll(t, limits, r.rest, broken);
      ([r.frame] + more.0, more.1)
    else ([], r)
  }

  function FramesOf(ms: seq<Message>): seq<Frame> {
    if |ms| == 0 then [] else [Frame(Sent(ms[0].envelope, ms[0].blob), ms[0].blob)] + FramesOf(ms[1..])
  }

  /** Any list of frames that can be written is read back, up to the end of the stream or to where it breaks off. */
  lemma {:induction false} ListReadsBack(t: Text, limits: Limits, ms: seq<Message>, broken: bool)
    requires Faithful(t) && AllWritable(t, limits, ms)
    ensures ReadAll(t, limits, StreamOf(t, limits, ms), broken)
            == (FramesOf(ms), if broken then ReadFailed(ShortHeader) else EndOfStream)
  {
    if |ms| > 0 {
      ListReadsBack(t, limits, ms[1..], broken);
      ReadsBack(t, limits, ms[0].envelope, ms[0].blob, StreamOf(t, limits, ms[1..]), broken);
    }
  }

  /** A proper prefix of a frame never yields a frame; only the empty one, if the stream is not broken, is its end. */
  lemma PrefixYieldsNoFrame(t: Text, limits: Limits, e: Envelope, blob: Bytes, n: nat, broken: bool)
    requires Faithful(t) && Checked(t, limits, e, blob) == Written && n < |FrameBytes(t, e, blob)|
    ensures var r := ReadFrame(t, limits, FrameBytes(t, e, blob)[..n], broken);
            if n == 0 && !broken then r == EndOfStream
            else if n < 4 then r == ReadFailed(ShortHeader)
            else if n < 4 + |t.marshal(Sent(e, blob))| then r == ReadFailed(ShortControl)
            else r == ReadFailed(ShortBlob)
  {
    var control := t.marshal(Sent(e, blob));
    var frame := FrameBytes(t, e, blob);
    LengthOfHeader(|control|);
    Parts(Header(|control|), control, blob, []);
    assert frame + [] == frame;
    assert t.decode(control) == Parsed(Sent(e, blob)) && control != [];
    if n >= 4 { assert frame[..n][..4] == frame[..4]; }
    if n >= 4 + |control| { assert frame[..n][4..4 + |control|] == frame[4..4 + |control|]; }
  }

  // ---------------------------------------------------------------- what is read, and what is written

  /** A frame is read exactly if the stream begins with a length, a control part of that length, neither empty nor too
      long, that is the JSON of a valid envelope, and a blob of the length it says, not too long; the rest is left. */
  lemma GotIff(t: Text, limits: Limits, stream: Bytes, broken: bool, f: Frame, rest: Bytes)
    ensures ReadFrame(t, limits, stream, broken) == Got(f, rest)
            <==> && |stream| >= 4 && var n := Length(stream[..4]);
                 && 0 < n <= limits.maxControl && |stream| >= 4 + n
                 && stream == stream[..4] + stream[4..4 + n] + f.blob + rest
                 && t.decode(stream[4..4 + n]) == Parsed(f.envelope) && ValidEnvelope(t, f.envelope)
                 && |f.blob| == f.envelope.blobLength <= limits.maxBlob
  {
    if |stream| >= 4 && |stream| >= 4 + Length(stream[..4]) {
      var n := Length(stream[..4]);
      if stream == stream[..4] + stream[4..4 + n] + f.blob + rest {
        Parts(stream[..4], stream[4..4 + n], f.blob, rest);
      }
    }
  }

  /** Every header is that of its length: no two lengths share one, and no number of four bytes is left out. */
  lemma HeaderOfLength(h: Bytes)
    requires |h| == 4
    ensures Length(h) <= MAX_UINT32 && Header(Length(h)) == h
  {
    var a := (h[0] as int) * 0x100 + h[1] as int;
    LastByte(h[0] as int, h[1]);
    LastByte(a, h[2]);
    LastByte(a * 0x100 + h[2] as int, h[3]);
  }

  lemma LastByte(x: int, b: Byte)
    ensures (x * 0x100 + b as int) / 0x100 == x && (x * 0x100 + b as int) % 0x100 == b as int
  {}

  /** Which message is written: one whose blob and control part keep their limits, with an envelope that is valid once
      it says how long the blob is. The blob is looked at first, then the envelope, then the control part. */
  lemma WrittenIff(t: Text, limits: Limits, e: Envelope, blob: Bytes)
    ensures var sent := e.(blobLength := |blob|);
            var small := |blob| <= limits.maxBlob && |blob| <= 0xFFFFFFFF;
            var valid := ValidEnvelope(t, sent);
            && (Checked(t, limits, e, blob) == Written
                <==> small && valid && |t.marshal(sent)| <= limits.maxControl && |t.marshal(sent)| <= 0xFFFFFFFF)
            && (Checked(t, limits, e, blob) == WriteBlobTooLarge <==> !small)
            && (Checked(t, limits, e, blob) == InvalidEnvelope <==> small && !valid)
            && Checked(t, limits, e, blob) != StreamFailed
  {}
}

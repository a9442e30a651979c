/** Several Git outputs in one blob: how the helper packs them, and what the client accepts. */
module GitPack {
  import opened Bytes

  const MAX_BLOB := 8388608

  datatype Operation = Status | Files | Diff | Branches | Other

  /** A digest as it stands in a response; Malformed if it is not 64 lower-case hexadecimal digits. */
  datatype Hex = Hex(digest: Digest) | Malformed

  datatype Output = Output(name: string, value: Bytes)
  datatype Part = Part(name: string, offset: int, size: int, sha256: Hex)
  datatype Result = Result(operation: Operation, parts: seq<Part>, blob: Bytes)
  datatype Packed = Packed(result: Result) | OutputLimit

  function PartNames(operation: Operation): seq<string> {
    match operation
    case Status => ["status"]
    case Files => ["files"]
    case Diff => ["staged", "working"]
    case Branches => ["worktrees", "refs"]
    case Other => []
  }

  function Concat(outputs: seq<Output>): Bytes {
    if |outputs| == 0 then [] else outputs[0].value + Concat(outputs[1..])
  }

  function PartsFrom(outputs: seq<Output>, offset: int): seq<Part> {
    if |outputs| == 0 then []
    else
      var v := outputs[0].value;
      [Part(outputs[0].name, offset, |v|, Hex(Sha256(v)))] + PartsFrom(outputs[1..], offset + |v|)
  }

  function Pack(operation: Operation, outputs: seq<Output>): Packed {
    if |Concat(outputs)| > MAX_BLOB then OutputLimit
    else Packed(Result(operation, PartsFrom(outputs, 0), Concat(outputs)))
  }

  lemma {:induction false} ConcatJoins(a: seq<Output>, b: seq<Output>)
    ensures Concat(a + b) == Concat(a) + Concat(b)
  {
    if |a| == 0 {
      assert a + b == b;
    } else {
      assert (a + b)[1..] == a[1..] + b;
      ConcatJoins(a[1..], b);
    }
  }

  lemma {:induction false} PartsJoin(a: seq<Output>, b: seq<Output>, offset: int)
    ensures PartsFrom(a + b, offset) == PartsFrom(a, offset) + PartsFrom(b, offset + |Concat(a)|)
  {
    if |a| == 0 {
      assert a + b == b;
    } else {
      assert (a + b)[1..] == a[1..] + b;
      PartsJoin(a[1..], b, offset + |a[0].value|);
    }
  }

  /** packGitOutputs. */
  method PackGitOutputs(operation: Operation, outputs: seq<Output>) returns (r: Packed)
    ensures r == Pack(operation, outputs)
  {
    var parts: seq<Part> := [];
    var blob: Bytes := [];
    for i := 0 to |outputs|
      invariant blob == Concat(outputs[..i]) && |blob| <= MAX_BLOB
      invariant parts == PartsFrom(outputs[..i], 0)
    {
      var output := outputs[i];
      assert outputs == outputs[..i] + outputs[i..] && outputs[..i + 1] == outputs[..i] + [output];
      ConcatJoins(outputs[..i], outputs[i..]);
      ConcatJoins(outputs[..i], [output]);
      PartsJoin(outputs[..i], [output], 0);
      assert [output][1..] == [];
      if |blob| + |output.value| > MAX_BLOB {
        return OutputLimit;
      }
      parts := parts + [Part(output.name, |blob|, |output.value|, Hex(Sha256(output.value)))];
      blob := blob + output.value;
    }
    assert outputs[..|outputs|] == outputs;
    return Packed(Result(operation, parts, blob));
  }

  // ---------------------------------------------------------------- the client's check

  /** The parts cover the blob from offset on without gap or overlap, each with the digest of its slice. */
  predicate Covers(parts: seq<Part>, blob: Bytes, offset: int) {
    if |parts| == 0 then offset == |blob|
    else
      var p := parts[0];
      && 0 <= p.offset == offset && 0 <= p.size <= |blob| - offset
      && p.sha256 == Hex(Sha256(blob[offset..offset + p.size]))
      && Covers(parts[1..], blob, offset + p.size)
  }

  function Names(parts: seq<Part>): seq<string> {
    if |parts| == 0 then [] else [parts[0].name] + Names(parts[1..])
  }

  predicate Accepts(r: Result, operation: Operation) {
    && r.operation == operation && |r.blob| <= MAX_BLOB
    && Names(r.parts) == PartNames(operation) && Covers(r.parts, r.blob, 0)
  }

  /** validRuntimeGitResult. */
  method ValidGitResult(r: Result, operation: Operation) returns (ok: bool)
    ensures ok == Accepts(r, operation)
  {
    if r.operation != operation || |r.blob| > MAX_BLOB {
      return false;
    }
    if Names(r.parts) != PartNames(operation) {
      return false;
    }
    var offset := 0;
    for i := 0 to |r.parts|
      invariant 0 <= offset <= |r.blob|
      invariant Covers(r.parts, r.blob, 0) <==> Covers(r.parts[i..], r.blob, offset)
    {
      var part := r.parts[i];
      assert r.parts[i..][1..] == r.parts[i + 1..];
      if part.offset != offset || part.size < 0 || part.size > |r.blob| - offset || part.sha256.Malformed? {
        return false;
      }
      var end := offset + part.size;
      if Hex(Sha256(r.blob[offset..end])) != part.sha256 {
        return false;
      }
      offset := end;
    }
    return offset == |r.blob|;
  }

  /** The slice of the blob that each part names. */
  function Unpack(parts: seq<Part>, blob: Bytes, offset: int): seq<Output>
    requires Covers(parts, blob, offset)
  {
    if |parts| == 0 then []
    else
      [Output(parts[0].name, blob[offset..offset + parts[0].size])]
      + Unpack(parts[1..], blob, offset + parts[0].size)
  }

  lemma NextSlice(front: Bytes, v: Bytes, rest: Bytes)
    ensures front + (v + rest) == (front + v) + rest && (front + (v + rest))[|front|..|front| + |v|] == v
  {}

  lemma {:induction false} PackedCovers(outputs: seq<Output>, front: Bytes, blob: Bytes)
    requires blob == front + Concat(outputs)
    ensures Covers(PartsFrom(outputs, |front|), blob, |front|)
    ensures Unpack(PartsFrom(outputs, |front|), blob, |front|) == outputs
    decreases |outputs|
  {
    if |outputs| > 0 {
      var v := outputs[0].value;
      NextSlice(front, v, Concat(outputs[1..]));
      PackedCovers(outputs[1..], front + v, blob);
      assert PartsFrom(outputs, |front|)[1..] == PartsFrom(outputs[1..], |front + v|);
    }
  }

  /** What is packed unpacks to the original outputs, and is accepted exactly if it has the parts of its operation. */
  lemma PackRoundTrip(operation: Operation, outputs: seq<Output>)
    requires Pack(operation, outputs).Packed?
    ensures var r := Pack(operation, outputs).result;
            && Covers(r.parts, r.blob, 0) && Unpack(r.parts, r.blob, 0) == outputs
            && (Accepts(r, operation) <==> Names(PartsFrom(outputs, 0)) == PartNames(operation))
  {
    assert Concat(outputs) == [] + Concat(outputs);
    PackedCovers(outputs, [], Concat(outputs));
  }

  lemma SlicesJoin(blob: Bytes, a: nat, b: nat)
    requires a <= b <= |blob|
    ensures blob[a..b] + blob[b..] == blob[a..]
  {}

  lemma {:induction false} UnpackedRepacks(parts: seq<Part>, blob: Bytes, offset: int)
    requires 0 <= offset <= |blob| && Covers(parts, blob, offset)
    ensures var outputs := Unpack(parts, blob, offset);
            PartsFrom(outputs, offset) == parts && Concat(outputs) == blob[offset..]
  {
    if |parts| > 0 {
      var next := offset + parts[0].size;
      UnpackedRepacks(parts[1..], blob, next);
      var outputs := Unpack(parts, blob, offset);
      assert outputs[1..] == Unpack(parts[1..], blob, next);
      SlicesJoin(blob, offset, next);
    }
  }

  /** The client accepts nothing that is not the packing of some outputs: of those it unpacks. */
  lemma AcceptedIsPacked(r: Result, operation: Operation)
    requires Accepts(r, operation)
    ensures Pack(operation, Unpack(r.parts, r.blob, 0)) == Packed(r)
  {
    UnpackedRepacks(r.parts, r.blob, 0);
    assert r.blob[0..] == r.blob;
  }

  /** The client accepts exactly the packings of outputs that have the names of the parts of the operation. */
  lemma AcceptedIff(r: Result, operation: Operation)
    ensures Accepts(r, operation) <==> exists outputs :: PackedAs(r, operation, outputs)
  {
    if Accepts(r, operation) {
      AcceptedIsPacked(r, operation);
      var outputs := Unpack(r.parts, r.blob, 0);
      NamesAre(outputs, 0);
      assert PackedAs(r, operation, outputs);
    }
    if outputs :| PackedAs(r, operation, outputs) {
      PackRoundTrip(operation, outputs);
      NamesAre(outputs, 0);
    }
  }

  /** r packs the outputs, which are at most 8 MiB together, under these names. */
  ghost predicate PackedAs(r: Result, operation: Operation, outputs: seq<Output>) {
    && Pack(operation, outputs) == Packed(r) && |Concat(outputs)| <= 8388608
    && NamesOf(outputs) == match operation
                           case Status => ["status"]
                           case Files => ["files"]
                           case Diff => ["staged", "working"]
                           case Branches => ["worktrees", "refs"]
                           case Other => []
  }

  function NamesOf(outputs: seq<Output>): seq<string> {
    if |outputs| == 0 then [] else [outputs[0].name] + NamesOf(outputs[1..])
  }

  lemma {:induction false} NamesAre(outputs: seq<Output>, offset: int)
    ensures Names(PartsFrom(outputs, offset)) == NamesOf(outputs)
    decreases |outputs|
  {
    if |outputs| > 0 {
      NamesAre(outputs[1..], offset + |outputs[0].value|);
      assert PartsFrom(outputs, offset)[1..] == PartsFrom(outputs[1..], offset + |outputs[0].value|);
    }
  }

  // ---------------------------------------------------------------- from the request to the reply

  const MAX_OUTPUT := 4194304
  const MAX_DIFF := 1048576

  /** What a Git command comes to: its output, whole, or an error. */
  datatype Ran = Printed(value: Bytes) | Unavailable | Interrupted

  datatype GitReply = GitRead(result: Result) | InvalidRequest | GitUnavailable | GitCancelled | Unsafe | TooMuch

  function OutputLimitOf(operation: Operation): nat { if operation == Diff then MAX_DIFF else MAX_OUTPUT }

  /** The Git commands that a read may run. */
  datatype Command = StatusCommand | ListFiles | CachedDiff | WorkingDiff | ListWorktrees | ForEachRef

  /** What the helper runs for an operation, one after the other, and the part that each output becomes. */
  datatype Planned = Planned(name: string, command: Command)

  function Plan(operation: Operation): seq<Planned> {
    match operation
    case Status => [Planned("status", StatusCommand)]
    case Files => [Planned("files", ListFiles)]
    case Diff => [Planned("staged", CachedDiff), Planned("working", WorkingDiff)]
    case Branches => [Planned("worktrees", ListWorktrees), Planned("refs", ForEachRef)]
    case Other => []
  }

  function ValueOf(ran: Ran): Bytes { if ran.Printed? then ran.value else [] }

  /** What the client gets from a read: the output of each command under its name. */
  function Reading(operation: Operation, run: Command -> Ran): seq<Output> {
    match operation
    case Status => [Output("status", ValueOf(run(StatusCommand)))]
    case Files => [Output("files", ValueOf(run(ListFiles)))]
    case Diff => [Output("staged", ValueOf(run(CachedDiff))), Output("working", ValueOf(run(WorkingDiff)))]
    case Branches => [Output("worktrees", ValueOf(run(ListWorktrees))), Output("refs", ValueOf(run(ForEachRef)))]
    case Other => []
  }

  predicate Short(operation: Operation, ran: Ran) {
    ran.Printed? && |ran.value| <= if operation == Diff then 1048576 else 4194304
  }

  /** All commands of the operation print, and not too much. */
  predicate AllShort(operation: Operation, run: Command -> Ran) {
    match operation
    case Status => Short(operation, run(StatusCommand))
    case Files => Short(operation, run(ListFiles))
    case Diff => Short(operation, run(CachedDiff)) && Short(operation, run(WorkingDiff))
    case Branches => Short(operation, run(ListWorktrees)) && Short(operation, run(ForEachRef))
    case Other => true
  }

  /** The first command that does not print, or prints too much. */
  function FirstFailing(operation: Operation, run: Command -> Ran): Ran
    requires !AllShort(operation, run)
  {
    match operation
    case Status => run(StatusCommand)
    case Files => run(ListFiles)
    case Diff => if Short(operation, run(CachedDiff)) then run(WorkingDiff) else run(CachedDiff)
    case Branches => if Short(operation, run(ListWorktrees)) then run(ForEachRef) else run(ListWorktrees)
  }

  lemma NamesOfParts(a: Output, b: Output)
    ensures Names(PartsFrom([a], 0)) == [a.name] && Concat([a]) == a.value
    ensures Names(PartsFrom([a, b], 0)) == [a.name, b.name] && Concat([a, b]) == a.value + b.value
  {
    assert [a][1..] == [] && [a, b][1..] == [b] && [b][1..] == [];
    var p, q := PartsFrom([a], 0), PartsFrom([a, b], 0);
    assert p[1..] == [] && q[1..] == PartsFrom([b], |a.value|) && PartsFrom([b], |a.value|)[1..] == [];
  }

  /** The limits of the commands are such that the limit of the packing is never reached, and the helper's parts are
      those that the client expects. */
  lemma OutputsFit(operation: Operation, run: Command -> Ran)
    requires AllShort(operation, run)
    ensures |Concat(Reading(operation, run))| <= MAX_BLOB
    ensures Names(PartsFrom(Reading(operation, run), 0)) == PartNames(operation)
  {
    var outputs := Reading(operation, run);
    if |outputs| > 0 { NamesOfParts(outputs[0], outputs[|outputs| - 1]); }
  }

  /** The commands of an operation, up to the first that fails. */
  method RunPlan(operation: Operation, run: Command -> Ran) returns (outputs: seq<Output>, failed: bool, last: Ran)
    ensures !failed ==> AllShort(operation, run) && outputs == Reading(operation, run)
    ensures failed ==> !AllShort(operation, run) && last == FirstFailing(operation, run)
  {
    var plan := Plan(operation);
    outputs, failed, last := [], false, Unavailable;
    for i := 0 to |plan|
      invariant |outputs| == i && forall j :: 0 <= j < i ==> Short(operation, run(plan[j].command))
      invariant forall j :: 0 <= j < i ==> outputs[j] == Output(plan[j].name, ValueOf(run(plan[j].command)))
    {
      last := run(plan[i].command);
      assert i > 0 ==> Short(operation, run(plan[0].command));
      if !last.Printed? || |last.value| > OutputLimitOf(operation) {
        failed := true;
        return;
      }
      outputs := outputs + [Output(plan[i].name, last.value)];
    }
    assert |plan| > 0 ==> outputs[0] == Output(plan[0].name, ValueOf(run(plan[0].command)));
    assert |plan| > 1 ==> outputs[1] == Output(plan[1].name, ValueOf(run(plan[1].command)));
  }

  /** Git, past the checks of the root: it succeeds exactly if every command of the operation prints at most its limit
      and the root is still the same, and the client accepts what it says and gets each command's output under the name
      of its part. Otherwise the first command that fails says how, and only then the root. */
  method Git(operation: Operation, run: Command -> Ran, sameRoot: bool) returns (r: GitReply)
    ensures r.GitRead? <==> operation != Other && AllShort(operation, run) && sameRoot
    ensures r.GitRead? ==> Accepts(r.result, operation)
                           && Unpack(r.result.parts, r.result.blob, 0) == Reading(operation, run)
    ensures r == InvalidRequest <==> operation == Other
    ensures r == Unsafe <==> operation != Other && AllShort(operation, run) && !sameRoot
    ensures !AllShort(operation, run) ==> match FirstFailing(operation, run)
                                          case Printed(_) => r == TooMuch
                                          case Unavailable => r == GitUnavailable
                                          case Interrupted => r == GitCancelled
  {
    if operation == Other {
      return InvalidRequest;
    }
    var outputs, failed, last := RunPlan(operation, run);
    if failed {
      match last
      case Printed(_) => return TooMuch;
      case Unavailable => return GitUnavailable;
      case Interrupted => return GitCancelled;
    }
    if !sameRoot {
      return Unsafe;
    }
    OutputsFit(operation, run);
    var packed := PackGitOutputs(operation, outputs);
    PackRoundTrip(operation, outputs);
    return GitRead(packed.result);
  }
}

/** Records one to a line: what the RPC client reads from a stream, whatever pieces the stream comes in. */
module RecordFraming {
  import opened Bytes

  const DEFAULT_MAX := 67108864

  datatype Result = Finished | TooLarge | HandlerFailed | StreamFailed

  /** How a piece ends: with a line feed, because the buffer is full, at the end of the stream, or in an error. */
  datatype End = Line | BufferFull | Eof | Broken

  datatype Piece = Piece(bytes: Bytes, end: End)

  datatype Delivery = Delivery(records: seq<Bytes>, result: Result)

  /** The handler fails at the record with this number, if there are so many. */
  type Failing = nat

  function Limit(maxBytes: int): nat { if maxBytes <= 0 then DEFAULT_MAX else maxBytes }

  /** What a whole stream delivers. */
  function Parse(stream: Bytes, broken: bool, max: nat, failing: Failing): Delivery
    decreases |stream|
  {
    var i := IndexOf(stream, LF);
    if i < |stream| then
      if i > max then Delivery([], TooLarge)
      else if failing == 0 then Delivery([DropCR(stream[..i])], HandlerFailed)
      else
        var rest := Parse(stream[i + 1..], broken, max, failing - 1);
        Delivery([DropCR(stream[..i])] + rest.records, rest.result)
    else if |stream| > max + 1 then Delivery([], TooLarge)
    else if broken then Delivery([], StreamFailed)
    else if |stream| == 0 then Delivery([], Finished)
    else if |DropCR(stream)| > max then Delivery([], TooLarge)
    else Delivery([DropCR(stream)], if failing == 0 then HandlerFailed else Finished)
  }

  function Concat(pieces: seq<Piece>): Bytes {
    if |pieces| == 0 then [] else pieces[0].bytes + Concat(pieces[1..])
  }

  predicate IsLast(p: Piece) { p.end.Eof? || p.end.Broken? }

  /** A line feed only ends a piece. */
  predicate ProperPiece(p: Piece) {
    if p.end.Line? then |p.bytes| > 0 && IndexOf(p.bytes, LF) == |p.bytes| - 1 else LF !in p.bytes
  }

  /** What ReadSlice can return one after the other: the last piece, and no other, ends the stream. */
  predicate Proper(pieces: seq<Piece>)
    decreases |pieces|
  {
    && |pieces| > 0 && ProperPiece(pieces[0])
    && if IsLast(pieces[0]) then |pieces| == 1 else Proper(pieces[1..])
  }

  predicate EndsBroken(pieces: seq<Piece>)
    requires |pieces| > 0
  {
    pieces[|pieces| - 1].end.Broken?
  }

  lemma {:induction false} IndexPast(a: Bytes, b: Bytes)
    requires LF !in a
    ensures IndexOf(a + b, LF) == |a| + IndexOf(b, LF)
  {
    if |a| == 0 {
      assert a + b == b;
    } else {
      assert (a + b)[1..] == a[1..] + b;
      IndexPast(a[1..], b);
    }
  }

  lemma {:induction false} IndexKept(a: Bytes, b: Bytes)
    requires IndexOf(a, LF) < |a|
    ensures IndexOf(a + b, LF) == IndexOf(a, LF)
  {
    if a[0] != LF {
      assert (a + b)[1..] == a[1..] + b;
      IndexKept(a[1..], b);
    }
  }

  lemma LineSlices(record: Bytes, line: Bytes, rest: Bytes)
    requires |line| > 0
    ensures var stream := record + line + rest;
            var i := |record| + |line| - 1;
            stream[..i] == record + line[..|line| - 1] && stream[i + 1..] == rest && stream == record + (line + rest)
  {}

  lemma LineIndex(record: Bytes, line: Bytes, rest: Bytes)
    requires LF !in record && |line| > 0 && IndexOf(line, LF) == |line| - 1
    ensures var stream := record + line + rest;
            var i := |record| + |line| - 1;
            IndexOf(stream, LF) == i && stream[..i] == record + line[..|line| - 1] && stream[i + 1..] == rest
  {
    LineSlices(record, line, rest);
    IndexKept(line, rest);
    IndexPast(record, line + rest);
  }

  /** A complete line, at most max long in front of its line feed, is delivered, and what follows is parsed on its
      own. */
  lemma ParseLine(record: Bytes, line: Bytes, rest: Bytes, broken: bool, max: nat, failing: Failing)
    requires LF !in record && |line| > 0 && IndexOf(line, LF) == |line| - 1
    ensures var raw := record + line[..|line| - 1];
            Parse(record + line + rest, broken, max, failing)
            == if |raw| > max then Delivery([], TooLarge)
               else if failing == 0 then Delivery([DropCR(raw)], HandlerFailed)
               else var d := Parse(rest, broken, max, failing - 1); Delivery([DropCR(raw)] + d.records, d.result)
  {
    LineIndex(record, line, rest);
  }

  /** Once too much has come without a line feed, nothing that follows helps. */
  lemma ParseTooLong(record: Bytes, rest: Bytes, broken: bool, max: nat, failing: Failing)
    requires LF !in record && |record| > max + 1
    ensures Parse(record + rest, broken, max, failing) == Delivery([], TooLarge)
  {
    IndexPast(record, rest);
  }

  lemma NoFeed(b: Bytes)
    requires LF !in b
    ensures IndexOf(b, LF) == |b|
  {
    IndexPast(b, []);
    assert b + [] == b;
  }

  function Cons(r: Bytes, d: Delivery): Delivery { Delivery([r] + d.records, d.result) }

  /** What the loop delivers from the pieces that are left, with the record that is being put together. */
  function Fold(pieces: seq<Piece>, record: Bytes, max: nat, failing: Failing): Delivery
    requires Proper(pieces)
    decreases |pieces|
  {
    var all := record + pieces[0].bytes;
    if |all| > max + 1 then Delivery([], TooLarge)
    else match pieces[0].end
         case Line =>
           var r := DropCR(all[..|all| - 1]);
           if failing == 0 then Delivery([r], HandlerFailed) else Cons(r, Fold(pieces[1..], [], max, failing - 1))
         case BufferFull => Fold(pieces[1..], all, max, failing)
         case Eof =>
           if |all| == 0 then Delivery([], Finished)
           else if |DropCR(all)| > max then Delivery([], TooLarge)
           else Delivery([DropCR(all)], if failing == 0 then HandlerFailed else Finished)
         case Broken => Delivery([], StreamFailed)
  }

  lemma FoldLast(pieces: seq<Piece>, record: Bytes, stream: Bytes, broken: bool, max: nat, failing: Failing)
    requires Proper(pieces) && IsLast(pieces[0]) && LF !in record && stream == record + Concat(pieces)
             && broken == EndsBroken(pieces)
    ensures Fold(pieces, record, max, failing) == Parse(stream, broken, max, failing)
  {
    assert Concat(pieces[1..]) == [] && Concat(pieces) == pieces[0].bytes;
    NoFeed(stream);
  }

  /** What a complete line makes of a record, and of what follows. */
  function AfterLine(raw: Bytes, rest: Delivery, max: nat, failing: Failing): Delivery {
    if |raw| > max then Delivery([], TooLarge)
    else if failing == 0 then Delivery([DropCR(raw)], HandlerFailed)
    else Cons(DropCR(raw), rest)
  }

  lemma FoldOfLine(pieces: seq<Piece>, record: Bytes, max: nat, failing: Failing)
    requires Proper(pieces) && pieces[0].end.Line?
    ensures var line := pieces[0].bytes;
            Fold(pieces, record, max, failing)
            == AfterLine(record + line[..|line| - 1],
                         if failing > 0 then Fold(pieces[1..], [], max, failing - 1) else Delivery([], Finished),
                         max, failing)
  {
    var line := pieces[0].bytes;
    assert (record + line)[..|record + line| - 1] == record + line[..|line| - 1];
  }

  lemma FoldLine(pieces: seq<Piece>, record: Bytes, behind: Bytes, broken: bool, max: nat, failing: Failing)
    requires Proper(pieces) && pieces[0].end.Line? && LF !in record
    requires failing > 0 ==> Fold(pieces[1..], [], max, failing - 1) == Parse(behind, broken, max, failing - 1)
    ensures Fold(pieces, record, max, failing) == Parse(record + pieces[0].bytes + behind, broken, max, failing)
  {
    FoldOfLine(pieces, record, max, failing);
    ParseLine(record, pieces[0].bytes, behind, broken, max, failing);
  }

  lemma FoldFull(pieces: seq<Piece>, record: Bytes, behind: Bytes, broken: bool, max: nat, failing: Failing)
    requires Proper(pieces) && pieces[0].end.BufferFull? && LF !in record
    requires var all := record + pieces[0].bytes;
             Fold(pieces[1..], all, max, failing) == Parse(all + behind, broken, max, failing)
    ensures Fold(pieces, record, max, failing) == Parse(record + pieces[0].bytes + behind, broken, max, failing)
  {
    var all := record + pieces[0].bytes;
    if |all| > max + 1 { ParseTooLong(all, behind, broken, max, failing); }
  }

  /** A piece in front of others. */
  lemma FirstPiece(pieces: seq<Piece>, record: Bytes)
    requires Proper(pieces) && !IsLast(pieces[0])
    ensures Proper(pieces[1..]) && EndsBroken(pieces[1..]) == EndsBroken(pieces)
    ensures record + Concat(pieces) == record + pieces[0].bytes + Concat(pieces[1..])
  {
    PiecesBehind(pieces);
  }

  lemma PiecesBehind(pieces: seq<Piece>)
    requires Proper(pieces) && !IsLast(pieces[0])
    ensures Proper(pieces[1..]) && EndsBroken(pieces[1..]) == EndsBroken(pieces)
  {}

  lemma NothingBefore(b: Bytes)
    ensures [] + b == b
  {}

  /** What comes after a piece that ended with a line feed. */
  lemma {:induction false} BehindLine(pieces: seq<Piece>, behind: Bytes, broken: bool, max: nat, failing: Failing)
    requires Proper(pieces) && pieces[0].end.Line? && behind == Concat(pieces[1..]) && broken == EndsBroken(pieces)
    ensures failing > 0 ==> Fold(pieces[1..], [], max, failing - 1) == Parse(behind, broken, max, failing - 1)
    decreases |pieces|, 0
  {
    PiecesBehind(pieces);
    if failing > 0 { FromStart(pieces[1..], behind, broken, max, failing - 1); }
  }

  lemma {:induction false} FromStart(pieces: seq<Piece>, stream: Bytes, broken: bool, max: nat, failing: Failing)
    requires Proper(pieces) && stream == Concat(pieces) && broken == EndsBroken(pieces)
    ensures Fold(pieces, [], max, failing) == Parse(stream, broken, max, failing)
    decreases |pieces|, 3
  {
    NothingBefore(stream);
    PiecesDoNotMatter(pieces, [], stream, broken, max, failing);
  }

  lemma {:induction false} LineFirst(pieces: seq<Piece>, record: Bytes, behind: Bytes, broken: bool, max: nat,
                                     failing: Failing)
    requires Proper(pieces) && pieces[0].end.Line? && LF !in record && behind == Concat(pieces[1..])
             && broken == EndsBroken(pieces)
    ensures Fold(pieces, record, max, failing) == Parse(record + pieces[0].bytes + behind, broken, max, failing)
    decreases |pieces|, 1
  {
    BehindLine(pieces, behind, broken, max, failing);
    FoldLine(pieces, record, behind, broken, max, failing);
  }

  lemma {:induction false} FullFirst(pieces: seq<Piece>, record: Bytes, behind: Bytes, broken: bool, max: nat,
                                     failing: Failing)
    requires Proper(pieces) && pieces[0].end.BufferFull? && LF !in record && behind == Concat(pieces[1..])
             && broken == EndsBroken(pieces)
    ensures Fold(pieces, record, max, failing) == Parse(record + pieces[0].bytes + behind, broken, max, failing)
    decreases |pieces|, 0
  {
    FirstPiece(pieces, record);
    var all := record + pieces[0].bytes;
    PiecesDoNotMatter(pieces[1..], all, all + behind, broken, max, failing);
    FoldFull(pieces, record, behind, broken, max, failing);
  }

  /** What is delivered depends on the stream alone, not on the pieces it comes in. */
  lemma {:induction false} PiecesDoNotMatter(pieces: seq<Piece>, record: Bytes, stream: Bytes, broken: bool, max: nat,
                                             failing: Failing)
    requires Proper(pieces) && LF !in record && stream == record + Concat(pieces) && broken == EndsBroken(pieces)
    ensures Fold(pieces, record, max, failing) == Parse(stream, broken, max, failing)
    decreases |pieces|, 2
  {
    if IsLast(pieces[0]) {
      FoldLast(pieces, record, stream, broken, max, failing);
    } else {
      FirstPiece(pieces, record);
      var behind := Concat(pieces[1..]);
      if pieces[0].end.Line? {
        LineFirst(pieces, record, behind, broken, max, failing);
      } else {
        FullFirst(pieces, record, behind, broken, max, failing);
      }
    }
  }

  lemma RestOfPieces(pieces: seq<Piece>, i: nat)
    requires i < |pieces|
    ensures pieces[i..][0] == pieces[i] && pieces[i..][1..] == pieces[i + 1..]
  {}

  /** What is still to come, with the records that have been delivered in front. */
  function Before(records: seq<Bytes>, d: Delivery): Delivery {
    Delivery(records + d.records, d.result)
  }

  lemma BeforeOne(records: seq<Bytes>, r: Bytes, d: Delivery)
    ensures Before(records, Cons(r, d)) == Before(records + [r], d)
  {
    assert records + ([r] + d.records) == records + [r] + d.records;
  }

  /** The loop of ReadRecords. */
  method ReadPieces(pieces: seq<Piece>, max: nat, failing: Failing) returns (d: Delivery)
    requires Proper(pieces)
    ensures d == Fold(pieces, [], max, failing)
  {
    var record: Bytes := [];
    var records: seq<Bytes> := [];
    var i := 0;
    assert pieces[0..] == pieces;
    ghost var left := pieces;
    while true
      invariant 0 <= i < |pieces| && |records| <= failing && left == pieces[i..]
      invariant Proper(left)
      invariant Fold(pieces, [], max, failing) == Before(records, Fold(left, record, max, failing - |records|))
      decreases |left|
    {
      RestOfPieces(pieces, i);
      var piece := pieces[i];
      record := record + piece.bytes;
      if |record| > max + 1 {
        return Delivery(records, TooLarge);
      }
      match piece.end {
        case Line =>
          record := DropCR(record[..|record| - 1]);
          if |records| == failing {
            return Delivery(records + [record], HandlerFailed);
          }
          BeforeOne(records, record, Fold(left[1..], [], max, failing - |records| - 1));
          records := records + [record];
          record := [];
        case BufferFull =>
        case Eof =>
          if |record| == 0 {
            return Delivery(records, Finished);
          }
          record := DropCR(record);
          if |record| > max {
            return Delivery(records, TooLarge);
          }
          return Delivery(records + [record], if |records| == failing then HandlerFailed else Finished);
        case Broken =>
          return Delivery(records, StreamFailed);
      }
      left := left[1..];
      i := i + 1;
    }
  }

  /** ReadRecords. */
  method ReadRecords(pieces: seq<Piece>, maxBytes: int, failing: Failing) returns (d: Delivery)
    requires Proper(pieces)
    ensures d == Parse(Concat(pieces), EndsBroken(pieces), if maxBytes <= 0 then 67108864 else maxBytes, failing)
  {
    d := ReadPieces(pieces, Limit(maxBytes), failing);
    assert [] + Concat(pieces) == Concat(pieces);
    PiecesDoNotMatter(pieces, [], Concat(pieces), EndsBroken(pieces), Limit(maxBytes), failing);
  }

  // ---------------------------------------------------------------- encoding

  datatype Encoded = Encoded(bytes: Bytes) | RecordTooLarge

  /** EncodeRecord, of a value whose JSON is given. */
  function Encode(json: Bytes, maxBytes: int): Encoded {
    if |json| > Limit(maxBytes) then RecordTooLarge else Encoded(json + [LF])
  }

  /** JSON as it is marshalled has no line feed in it, and does not end in a carriage return. */
  predicate OneLine(json: Bytes) { LF !in json && DropCR(json) == json }

  function EncodeAll(values: seq<Bytes>): Bytes {
    if |values| == 0 then [] else values[0] + [LF] + EncodeAll(values[1..])
  }

  lemma ParseEncoded(v: Bytes, rest: Bytes, max: nat, failing: Failing)
    requires OneLine(v) && |v| <= max && failing > 0
    ensures Parse(v + [LF] + rest, false, max, failing) == Cons(v, Parse(rest, false, max, failing - 1))
  {
    ParseLine(v, [LF], rest, false, max, failing);
    assert v + [LF][..0] == v;
  }

  /** A value is encoded exactly if a reader with the same limit would read it back. */
  lemma EncodedIffReadable(json: Bytes, maxBytes: int)
    requires OneLine(json)
    ensures Encode(json, maxBytes).Encoded?
            <==> Parse(json + [LF], false, if maxBytes <= 0 then 67108864 else maxBytes, 1)
                 == Delivery([json], Finished)
    ensures Encode(json, maxBytes).Encoded? ==> Encode(json, maxBytes).bytes == json + [LF]
  {
    ParseLine(json, [LF], [], false, Limit(maxBytes), 1);
    ParseNothing(Limit(maxBytes), 0);
    assert json + [LF] + [] == json + [LF] && json + [LF][..0] == json;
  }

  lemma ParseNothing(max: nat, failing: Failing)
    ensures Parse([], false, max, failing) == Delivery([], Finished)
  {}

  predicate Readable(v: Bytes, max: nat) { OneLine(v) && |v| <= max }

  lemma EncodedInFront(v: Bytes, values: seq<Bytes>, rest: Bytes, max: nat, failing: Failing)
    requires Readable(v, max) && failing > 0 && Parse(rest, false, max, failing - 1) == Delivery(values, Finished)
    ensures Parse(v + [LF] + rest, false, max, failing) == Delivery([v] + values, Finished)
  {
    ParseEncoded(v, rest, max, failing);
  }

  /** What is encoded is read back, record for record. */
  lemma {:induction false} RoundTrip(values: seq<Bytes>, stream: Bytes, max: nat, failing: Failing)
    requires (forall v :: v in values ==> Readable(v, max)) && failing >= |values| && stream == EncodeAll(values)
    ensures Parse(stream, false, max, failing) == Delivery(values, Finished)
    decreases |values|
  {
    if |values| == 0 {
      ParseNothing(max, failing);
    } else {
      var v, more, rest := values[0], values[1..], EncodeAll(values[1..]);
      RoundTrip(more, rest, max, failing - 1);
      EncodedInFront(v, more, rest, max, failing);
      assert [v] + more == values;
    }
  }

  /** A record of the greatest length with a carriage return is accepted at the end of the stream, and refused before
      a line feed. */
  lemma CarriageReturnCounts(json: Bytes, max: nat)
    requires OneLine(json) && |json| == max && max > 0
    ensures Parse(json + [CR], false, max, 1) == Delivery([json], Finished)
    ensures Parse(json + [CR] + [LF], false, max, 1) == Delivery([], TooLarge)
  {
    NoFeed(json + [CR]);
    assert DropCR(json + [CR]) == json;
    ParseLine(json + [CR], [LF], [], false, max, 1);
    assert json + [CR] + [LF] + [] == json + [CR] + [LF];
    assert json + [CR] + [LF][..0] == json + [CR];
  }

  /** What comes of the end of a stream, behind its last line feed: nothing, a record without its carriage return, or
      too much; nothing but the error if the stream breaks off. */
  lemma ParseTail(tail: Bytes, broken: bool, max: nat, failing: Failing)
    requires LF !in tail
    ensures var r := if |tail| > 0 && tail[|tail| - 1] == CR then tail[..|tail| - 1] else tail;
            Parse(tail, broken, max, failing)
            == if |tail| > max + 1 then Delivery([], TooLarge)
               else if broken then Delivery([], StreamFailed)
               else if tail == [] then Delivery([], Finished)
               else if |r| > max then Delivery([], TooLarge)
               else Delivery([r], if failing == 0 then HandlerFailed else Finished)
  {
    NoFeed(tail);
  }
}

/** Reading a file page by page: the helper's Read, the client's check of a page, and the loop that puts the
    pages of a context file together again. */
module FilePages {
  import opened Bytes
  import Utf8

  const MAX_PAGE_BYTES := 51200
  const MAX_PAGE_LINES := 2000
  const MAX_LINE := 1048576
  const MAX_FILE := 16777216
  const MAX_CONTEXT := 262144

  // ---------------------------------------------------------------- lines

  datatype Scanned = Scanned(lines: seq<Bytes>, tooLong: bool)

  /** bufio.Scanner with ScanLines: it stops at a line that does not fit its buffer. */
  function Scan(data: Bytes): Scanned
    decreases |data|
  {
    var i := IndexOf(data, LF);
    if |data| == 0 then Scanned([], false)
    else if i > MAX_LINE then Scanned([], true)
    else if i == |data| then Scanned([DropCR(data)], false)
    else
      var rest := Scan(data[i + 1..]);
      Scanned([DropCR(data[..i])] + rest.lines, rest.tooLong)
  }

  lemma {:induction false} FirstAt(a: Bytes, c: Byte, b: Bytes)
    requires c !in a
    ensures IndexOf(a + [c] + b, c) == |a|
  {
    if |a| > 0 {
      assert (a + [c] + b)[1..] == a[1..] + [c] + b;
      FirstAt(a[1..], c, b);
    }
  }

  /** A line that a line feed ends, with whatever follows. The carriage return in front of the line feed is dropped, and
      no other; it counts when the line is measured. */
  lemma ScanLine(a: Bytes, b: Bytes)
    requires LF !in a
    ensures var rest := Scan(b);
            Scan(a + [LF] + b)
            == if |a| > 1048576 then Scanned([], true)
               else if |a| > 0 && a[|a| - 1] == CR then Scanned([a[..|a| - 1]] + rest.lines, rest.tooLong)
               else Scanned([a] + rest.lines, rest.tooLong)
  {
    var data := a + [LF] + b;
    FirstAt(a, LF, b);
    assert data[..|a|] == a && data[|a| + 1..] == b;
  }

  lemma ScanCrLf(a: Bytes, b: Bytes)
    requires LF !in a && |a| < 1048576
    ensures Scan(a + [CR, LF] + b) == Scanned([a] + Scan(b).lines, Scan(b).tooLong)
  {
    var line := a + [CR];
    TwoFeeds(a, b);
    ScanLine(line, b);
    assert line[..|a|] == a;
  }

  lemma TwoFeeds(a: Bytes, b: Bytes)
    ensures a + [CR, LF] + b == (a + [CR]) + [LF] + b
  {}

  /** The last line, if no line feed ends it. */
  lemma ScanLast(a: Bytes)
    requires LF !in a
    ensures Scan(a) == if a == [] then Scanned([], false)
                       else if |a| > 1048576 then Scanned([], true)
                       else if a[|a| - 1] == CR then Scanned([a[..|a| - 1]], false)
                       else Scanned([a], false)
  {
    NoFeed(a);
  }

  lemma {:induction false} NoFeed(a: Bytes)
    requires LF !in a
    ensures IndexOf(a, LF) == |a|
  {
    if |a| > 0 { NoFeed(a[1..]); }
  }

  function JoinLines(ls: seq<Bytes>): Bytes {
    if |ls| == 0 then [] else if |ls| == 1 then ls[0] else ls[0] + [LF] + JoinLines(ls[1..])
  }

  lemma {:induction false} LinesJoin(a: seq<Bytes>, b: seq<Bytes>)
    requires |a| > 0 && |b| > 0
    ensures JoinLines(a + b) == JoinLines(a) + [LF] + JoinLines(b)
  {
    if |a| == 1 {
      assert (a + b)[1..] == b;
    } else {
      LinesJoin(a[1..], b);
      assert (a + b)[1..] == a[1..] + b;
    }
  }

  lemma {:induction false} JoinedIsEmpty(ls: seq<Bytes>)
    requires |ls| > 0
    ensures JoinLines(ls) == [] <==> ls == [[]]
  {
    if |ls| > 1 { assert |JoinLines(ls)| >= 1; }
  }

  function Ending(data: Bytes): Bytes {
    if |data| > 0 && data[|data| - 1] == LF then [LF] else []
  }

  lemma CutAt(data: Bytes, i: nat)
    requires i < |data| && data[i] == LF && CR !in data
    ensures data == data[..i] + [LF] + data[i + 1..] && CR !in data[i + 1..] && DropCR(data[..i]) == data[..i]
    ensures i + 1 < |data| ==> Ending(data[i + 1..]) == Ending(data)
    ensures i + 1 == |data| ==> Ending(data) == [LF] && data[i + 1..] == []
  {}

  lemma LineAndRest(data: Bytes, line: Bytes, behind: Bytes, rest: seq<Bytes>, ending: Bytes)
    requires data == line + [LF] + behind && behind == JoinLines(rest) + ending && |rest| > 0
    ensures data == JoinLines([line] + rest) + ending
  {
    LinesJoin([line], rest);
    assert JoinLines([line]) == line;
  }

  /** The lines of a text without carriage returns, joined, are the text without its last line feed. */
  lemma {:induction false} LinesRebuild(data: Bytes)
    requires CR !in data && !Scan(data).tooLong && |data| > 0
    ensures |Scan(data).lines| > 0 && data == JoinLines(Scan(data).lines) + Ending(data)
    decreases |data|
  {
    var i := IndexOf(data, LF);
    if i < |data| {
      CutAt(data, i);
      var behind := data[i + 1..];
      if |behind| > 0 {
        LinesRebuild(behind);
        LineAndRest(data, data[..i], behind, Scan(behind).lines, Ending(data));
      } else {
        assert Scan(data).lines == [data[..i]];
      }
    } else {
      assert data[..i] == data;
    }
  }

  // ---------------------------------------------------------------- one page

  /** count whole lines, and cut: a last line that was cut to what was left. */
  datatype Extent = Extent(count: nat, cut: bool)

  function Sep(count: nat): nat { if count > 0 then 1 else 0 }

  /** How far a page from index s reaches, when it has count lines of so many bytes already. */
  function Reach(lines: seq<Bytes>, s: nat, count: nat, bytes: nat, maxLines: nat): (e: Extent)
    requires s + count <= |lines| && bytes <= MAX_PAGE_BYTES
    ensures count <= e.count && s + e.count <= |lines| && (count <= maxLines ==> e.count <= maxLines)
    ensures e.cut ==> s + e.count < |lines| && e.count < maxLines
    decreases |lines| - s - count
  {
    if s + count == |lines| || count >= maxLines || bytes + Sep(count) >= MAX_PAGE_BYTES then Extent(count, false)
    else if |lines[s + count]| > MAX_PAGE_BYTES - bytes - Sep(count) then Extent(count, true)
    else Reach(lines, s, count + 1, bytes + Sep(count) + |lines[s + count]|, maxLines)
  }

  datatype Page = Page(startLine: int, endLine: int, nextLine: int, truncated: bool, lineTruncated: bool,
                       content: Bytes)

  datatype ReadReply = Read(page: Page) | Unsupported | OutputLimit | InvalidRequest | NotFound | Cancelled

  ghost predicate AllText(ls: seq<Bytes>) { forall l :: l in ls ==> Utf8.Valid(l) }

  /** Every line that is looked at has to be text, the one behind the page too. */
  function LookedAt(lines: seq<Bytes>, s: nat, e: Extent): nat {
    if s + e.count < |lines| then s + e.count + 1 else |lines|
  }

  function CutText(line: Bytes, before: Bytes, count: nat): Bytes
    requires |before| + Sep(count) < MAX_PAGE_BYTES && |line| > MAX_PAGE_BYTES - |before| - Sep(count)
  {
    Utf8.LongestCut(line, MAX_PAGE_BYTES - |before| - Sep(count))
  }

  /** The page of a reach. */
  function PageOf(lines: seq<Bytes>, s: nat, e: Extent): Page
    requires s + e.count <= |lines|
    requires e.cut ==> s + e.count < |lines|
                       && |JoinLines(lines[s..s + e.count])| + Sep(e.count) < MAX_PAGE_BYTES
                       && |lines[s + e.count]| > MAX_PAGE_BYTES - |JoinLines(lines[s..s + e.count])| - Sep(e.count)
  {
    var whole := JoinLines(lines[s..s + e.count]);
    if e.cut then
      Page(s + 1, s + e.count + 1, s + e.count + 2, true, true,
           whole + (if e.count > 0 then [LF] else []) + CutText(lines[s + e.count], whole, e.count))
    else if s + e.count < |lines| then
      Page(s + 1, if e.count > 0 then s + e.count else 0, s + e.count + 1, true, false, whole)
    else Page(s + 1, if e.count > 0 then s + e.count else 0, 0, false, false, whole)
  }

  lemma JoinOneMore(lines: seq<Bytes>, s: nat, count: nat)
    requires s + count < |lines|
    ensures JoinLines(lines[s..s + count + 1])
            == JoinLines(lines[s..s + count]) + (if count > 0 then [LF] else []) + lines[s + count]
  {
    assert lines[s..s + count + 1] == lines[s..s + count] + [lines[s + count]];
    if count > 0 { LinesJoin(lines[s..s + count], [lines[s + count]]); }
  }

  /** The page of an extent keeps its budget; a cut line does not fit; and it stops early only when it is full. */
  ghost predicate Fills(lines: seq<Bytes>, s: nat, e: Extent, bytes: nat, maxLines: nat)
    requires s + e.count <= |lines| && (e.cut ==> s + e.count < |lines|)
  {
    && bytes <= MAX_PAGE_BYTES
    && (e.cut ==> bytes + Sep(e.count) < MAX_PAGE_BYTES && |lines[s + e.count]| > MAX_PAGE_BYTES - bytes - Sep(e.count))
    && (!e.cut && s + e.count < |lines| && e.count < maxLines ==> bytes + Sep(e.count) >= MAX_PAGE_BYTES)
  }

  lemma {:induction false} ReachBytes(lines: seq<Bytes>, s: nat, count: nat, bytes: nat, maxLines: nat)
    requires s + count <= |lines| && |JoinLines(lines[s..s + count])| == bytes <= MAX_PAGE_BYTES
    ensures var e := Reach(lines, s, count, bytes, maxLines);
            Fills(lines, s, e, |JoinLines(lines[s..s + e.count])|, maxLines)
    decreases |lines| - s - count
  {
    if s + count < |lines| && count < maxLines && bytes + Sep(count) < MAX_PAGE_BYTES
       && |lines[s + count]| <= MAX_PAGE_BYTES - bytes - Sep(count) {
      JoinOneMore(lines, s, count);
      ReachBytes(lines, s, count + 1, bytes + Sep(count) + |lines[s + count]|, maxLines);
    }
  }

  /** Where a page from line start begins: at most at the end. */
  function StartIndex(lines: seq<Bytes>, startLine: int): nat
    requires startLine >= 1
  {
    if startLine - 1 <= |lines| then startLine - 1 else |lines|
  }

  function ExtentFrom(lines: seq<Bytes>, s: nat, maxLines: nat): Extent
    requires s <= |lines|
  {
    Reach(lines, s, 0, 0, maxLines)
  }

  lemma ExtentIsPage(lines: seq<Bytes>, s: nat, maxLines: nat)
    requires s <= |lines|
    ensures var e := ExtentFrom(lines, s, maxLines); Fills(lines, s, e, |JoinLines(lines[s..s + e.count])|, maxLines)
  {
    assert lines[s..s + 0] == [];
    ReachBytes(lines, s, 0, 0, maxLines);
  }

  function PageAt(lines: seq<Bytes>, s: nat, maxLines: nat): Page
    requires s <= |lines|
  {
    ExtentIsPage(lines, s, maxLines);
    PageOf(lines, s, ExtentFrom(lines, s, maxLines))
  }

  /** What Read replies for a file of these lines. */
  ghost predicate IsReply(f: Scanned, startLine: int, maxLines: int, r: ReadReply) {
    if startLine < 1 || maxLines < 1 || maxLines > MAX_PAGE_LINES then r == InvalidRequest
    else
      var s := StartIndex(f.lines, startLine);
      var e := ExtentFrom(f.lines, s, maxLines);
      if !AllText(f.lines[..LookedAt(f.lines, s, e)]) || (s + e.count == |f.lines| && f.tooLong) then r == Unsupported
      else r == Read(PageAt(f.lines, s, maxLines).(startLine := startLine))
  }

  /** The same for a caller that gives up once so many lines have been looked at: it gets its own error exactly if the
      loop comes that far without finding the page or a line that is not text. */
  ghost predicate IsReplyWithin(f: Scanned, startLine: int, maxLines: int, patience: nat, r: ReadReply) {
    if ValidRange(startLine, maxLines) && GivesUp(f.lines, startLine, maxLines, patience) then r == Cancelled
    else IsReply(f, startLine, maxLines, r)
  }

  ghost predicate GivesUp(lines: seq<Bytes>, startLine: int, maxLines: int, patience: nat)
    requires ValidRange(startLine, maxLines)
  {
    var s := StartIndex(lines, startLine);
    patience < LookedAt(lines, s, ExtentFrom(lines, s, maxLines)) && TextUpTo(lines, patience)
  }

  predicate ValidRange(startLine: int, maxLines: int) {
    1 <= startLine && 1 <= maxLines <= MAX_PAGE_LINES
  }

  lemma BadReply(f: Scanned, startLine: int, maxLines: int, k: nat)
    requires ValidRange(startLine, maxLines) && k < |f.lines| && !Utf8.Valid(f.lines[k])
    requires var s := StartIndex(f.lines, startLine); k < LookedAt(f.lines, s, ExtentFrom(f.lines, s, maxLines))
    ensures IsReply(f, startLine, maxLines, Unsupported)
  {
    var s := StartIndex(f.lines, startLine);
    NotAllText(f.lines, k, LookedAt(f.lines, s, ExtentFrom(f.lines, s, maxLines)));
  }

  /** What the loop has when it ends: it stopped before a line, cut one, or came to the end. */
  ghost predicate Ended(lines: seq<Bytes>, s: nat, e: Extent, lineNumber: nat, p: Page) {
    && s + e.count <= |lines| && |JoinLines(lines[s..s + e.count])| <= MAX_PAGE_BYTES
    && var whole := JoinLines(lines[s..s + e.count]);
    if e.cut then
      && s + e.count < |lines| && lineNumber == s + e.count + 1
      && |whole| + Sep(e.count) < MAX_PAGE_BYTES && |lines[s + e.count]| > MAX_PAGE_BYTES - |whole| - Sep(e.count)
      && p == Page(p.startLine, lineNumber, lineNumber + 1, true, true,
                   whole + (if e.count > 0 then [LF] else []) + CutText(lines[s + e.count], whole, e.count))
    else
      && p.content == whole && !p.lineTruncated && p.endLine == (if e.count > 0 then s + e.count else 0)
      && if s + e.count < |lines| then p.truncated && p.nextLine == lineNumber == s + e.count + 1
         else !p.truncated && p.nextLine == 0 && lineNumber == |lines|
  }

  ghost predicate TextUpTo(lines: seq<Bytes>, n: nat)
    requires n <= |lines|
  {
    forall k :: 0 <= k < n ==> Utf8.Valid(lines[k])
  }

  lemma EndedIsReply(f: Scanned, startLine: int, maxLines: int, lineNumber: nat, p: Page)
    requires ValidRange(startLine, maxLines) && p.startLine == startLine
    requires lineNumber <= |f.lines| && TextUpTo(f.lines, lineNumber)
    requires var s := StartIndex(f.lines, startLine);
             && Ended(f.lines, s, ExtentFrom(f.lines, s, maxLines), lineNumber, p)
             && (lineNumber > s ==> s == startLine - 1)
    ensures IsReply(f, startLine, maxLines, if !p.truncated && f.tooLong then Unsupported else Read(p))
  {
    var s := StartIndex(f.lines, startLine);
    ExtentIsPage(f.lines, s, maxLines);
  }

  /** What the next line does to a page. */
  lemma ReachStep(lines: seq<Bytes>, s: nat, included: nat, builder: Bytes, maxLines: nat)
    requires s + included < |lines| && builder == JoinLines(lines[s..s + included]) && |builder| <= MAX_PAGE_BYTES
    ensures var e, line := Reach(lines, s, included, |builder|, maxLines), lines[s + included];
            if included >= maxLines || |builder| + Sep(included) >= MAX_PAGE_BYTES then e == Extent(included, false)
            else if |line| > MAX_PAGE_BYTES - |builder| - Sep(included) then e == Extent(included, true)
            else var longer := builder + (if included > 0 then [LF] else []) + line;
                 && longer == JoinLines(lines[s..s + included + 1]) && |longer| <= MAX_PAGE_BYTES
                 && Reach(lines, s, included + 1, |longer|, maxLines) == e
  {
    JoinOneMore(lines, s, included);
  }

  function EndLine(s: nat, included: nat): nat { if included > 0 then s + included else 0 }

  /** The loop stops before a line. */
  lemma EndsBefore(lines: seq<Bytes>, s: nat, included: nat, p: Page)
    requires s + included < |lines| && |JoinLines(lines[s..s + included])| <= MAX_PAGE_BYTES
    requires p == Page(p.startLine, EndLine(s, included), s + included + 1, true, false,
                       JoinLines(lines[s..s + included]))
    ensures Ended(lines, s, Extent(included, false), s + included + 1, p)
  {}

  /** The loop cuts a line. */
  lemma EndsInside(lines: seq<Bytes>, s: nat, included: nat, whole: Bytes, p: Page)
    requires s + included < |lines| && whole == JoinLines(lines[s..s + included])
    requires |whole| + Sep(included) < MAX_PAGE_BYTES
             && |lines[s + included]| > MAX_PAGE_BYTES - |whole| - Sep(included)
    requires p == Page(p.startLine, s + included + 1, s + included + 2, true, true,
                       whole + (if included > 0 then [LF] else []) + CutText(lines[s + included], whole, included))
    ensures Ended(lines, s, Extent(included, true), s + included + 1, p)
  {}

  /** The loop comes to the end. */
  lemma EndsBehind(lines: seq<Bytes>, s: nat, included: nat, p: Page)
    requires s + included == |lines| && |JoinLines(lines[s..s + included])| <= MAX_PAGE_BYTES
    requires p == Page(p.startLine, EndLine(s, included), 0, false, false, JoinLines(lines[s..s + included]))
    ensures Ended(lines, s, Extent(included, false), |lines|, p)
  {}

  lemma ReachStops(lines: seq<Bytes>, s: nat, included: nat, builder: Bytes, maxLines: nat)
    requires s + included < |lines| && |builder| <= MAX_PAGE_BYTES
    ensures var e := Reach(lines, s, included, |builder|, maxLines);
            var available := MAX_PAGE_BYTES - |builder| - Sep(included);
            && (included >= maxLines || available <= 0 ==> e == Extent(included, false))
            && (included < maxLines && 0 < available < |lines[s + included]| ==> e == Extent(included, true))
  {}

  /** The page while it grows. */
  datatype Draft = Draft(content: Bytes, included: nat, endLine: nat, nextLine: nat, truncated: bool,
                         lineTruncated: bool)

  function Finished(startLine: int, d: Draft): Page {
    Page(startLine, d.endLine, d.nextLine, d.truncated, d.lineTruncated, d.content)
  }

  /** The draft has the lines from s on that it counts, whole. */
  ghost predicate Holds(lines: seq<Bytes>, s: nat, maxLines: nat, d: Draft) {
    && s + d.included <= |lines| && d.included <= maxLines
    && d.content == JoinLines(lines[s..s + d.included]) && |d.content| <= MAX_PAGE_BYTES
    && d.endLine == EndLine(s, d.included) && d.nextLine == 0 && !d.truncated && !d.lineTruncated
  }

  /** A line that fits is added whole. */
  lemma AddsWhole(lines: seq<Bytes>, s: nat, maxLines: nat, d: Draft, r: Draft)
    requires Holds(lines, s, maxLines, d) && s + d.included < |lines| && d.included < maxLines
    requires |d.content| + Sep(d.included) < MAX_PAGE_BYTES
    requires |lines[s + d.included]| <= MAX_PAGE_BYTES - |d.content| - Sep(d.included)
    requires r == d.(content := d.content + (if d.included > 0 then [LF] else []) + lines[s + d.included],
                     included := d.included + 1, endLine := s + d.included + 1)
    ensures Holds(lines, s, maxLines, r)
    ensures Reach(lines, s, r.included, |r.content|, maxLines) == Reach(lines, s, d.included, |d.content|, maxLines)
  {
    ReachStep(lines, s, d.included, d.content, maxLines);
  }

  /** Read's loop, for one line that it does not skip. */
  method AddLine(ghost lines: seq<Bytes>, ghost s: nat, startLine: int, line: Bytes, lineNumber: nat, maxLines: nat,
                 d: Draft)
    returns (r: Draft)
    requires Holds(lines, s, maxLines, d) && s + d.included < |lines|
    requires line == lines[s + d.included] && lineNumber == s + d.included + 1
    ensures !r.truncated ==>
              && Holds(lines, s, maxLines, r) && r.included == d.included + 1
              && Reach(lines, s, r.included, |r.content|, maxLines)
                 == Reach(lines, s, d.included, |d.content|, maxLines)
    ensures r.truncated ==>
              Ended(lines, s, Reach(lines, s, d.included, |d.content|, maxLines), lineNumber, Finished(startLine, r))
  {
    ReachStops(lines, s, d.included, d.content, maxLines);
    var separator := if d.included > 0 then 1 else 0;
    var available := MAX_PAGE_BYTES - |d.content| - separator;
    if d.included >= maxLines || available <= 0 {
      r := d.(truncated := true, nextLine := lineNumber);
      EndsBefore(lines, s, d.included, Finished(startLine, r));
      return;
    }
    var feed := if d.included > 0 then [LF] else [];
    if |line| > available {
      var text := Utf8.Truncate(line, available);
      r := Draft(d.content + feed + text, d.included, lineNumber, lineNumber + 1, true, true);
      EndsInside(lines, s, d.included, d.content, Finished(startLine, r));
      return;
    }
    r := d.(content := d.content + feed + line, included := d.included + 1, endLine := lineNumber);
    AddsWhole(lines, s, maxLines, d, r);
  }

  datatype ScanEnd = Complete | NotText | GaveUp

  /** Read's loop. NotText: line lineNumber is not text. GaveUp: the caller gave up before it. */
  method ScanPage(lines: seq<Bytes>, startLine: int, maxLines: int, patience: nat)
    returns (ending: ScanEnd, lineNumber: nat, page: Page)
    requires ValidRange(startLine, maxLines)
    ensures lineNumber <= |lines| && TextUpTo(lines, lineNumber)
    ensures var s := StartIndex(lines, startLine);
            var e := ExtentFrom(lines, s, maxLines);
            match ending
            case NotText => lineNumber < LookedAt(lines, s, e) && lineNumber < patience
                 && !Utf8.Valid(lines[lineNumber])
            case GaveUp => lineNumber == patience < LookedAt(lines, s, e)
            case Complete => && (lineNumber > s ==> s == startLine - 1) && lineNumber <= patience
                             && page.startLine == startLine && Ended(lines, s, e, lineNumber, page)
  {
    ghost var s := StartIndex(lines, startLine);
    ghost var e := ExtentFrom(lines, s, maxLines);
    var draft := Draft([], 0, 0, 0, false, false);
    ending, lineNumber, page := Complete, 0, Finished(startLine, draft);
    while lineNumber < |lines|
      invariant lineNumber <= |lines| && TextUpTo(lines, lineNumber) && lineNumber <= patience
      invariant if lineNumber <= s then draft.included == 0 else draft.included == lineNumber - s && s == startLine - 1
      invariant Holds(lines, s, maxLines, draft)
      invariant Reach(lines, s, draft.included, |draft.content|, maxLines) == e
    {
      if lineNumber == patience {
        return GaveUp, lineNumber, page;
      }
      var line := lines[lineNumber];
      if !Utf8.Valid(line) {
        return NotText, lineNumber, page;
      }
      lineNumber := lineNumber + 1;
      if lineNumber < startLine {
        continue;
      }
      draft := AddLine(lines, s, startLine, line, lineNumber, maxLines, draft);
      if draft.truncated {
        page := Finished(startLine, draft);
        return;
      }
    }
    page := Finished(startLine, draft);
    EndsBehind(lines, s, draft.included, page);
  }

  lemma FoundInTime(lines: seq<Bytes>, startLine: int, maxLines: int, patience: nat, lineNumber: nat, p: Page)
    requires ValidRange(startLine, maxLines) && lineNumber <= |lines| && lineNumber <= patience
    requires var s := StartIndex(lines, startLine); Ended(lines, s, ExtentFrom(lines, s, maxLines), lineNumber, p)
    ensures !GivesUp(lines, startLine, maxLines, patience)
  {}

  /** Read, of a file of these lines. The scanner's error shows only if the loop runs to the end. */
  method ReadLines(f: Scanned, startLine: int, maxLines: int, patience: nat) returns (r: ReadReply)
    ensures IsReplyWithin(f, startLine, maxLines, patience, r)
  {
    if startLine < 1 || maxLines < 1 || maxLines > MAX_PAGE_LINES {
      return InvalidRequest;
    }
    var ending, lineNumber, page := ScanPage(f.lines, startLine, maxLines, patience);
    if ending.GaveUp? {
      return Cancelled;
    }
    if ending.NotText? {
      BadReply(f, startLine, maxLines, lineNumber);
      return Unsupported;
    }
    FoundInTime(f.lines, startLine, maxLines, patience, lineNumber, page);
    EndedIsReply(f, startLine, maxLines, lineNumber, page);
    if !page.truncated && f.tooLong {
      return Unsupported;
    }
    return Read(page);
  }

  lemma NotAllText(lines: seq<Bytes>, k: nat, n: nat)
    requires k < n <= |lines| && !Utf8.Valid(lines[k])
    ensures !AllText(lines[..n])
  {
    assert lines[..n][k] == lines[k];
  }

  // ---------------------------------------------------------------- the client's check of a page

  predicate Accepts(p: Page, startLine: int, maxLines: int) {
    var lineCount := if p.endLine >= p.startLine then p.endLine - p.startLine + 1 else 0;
    && p.startLine == startLine && p.endLine >= 0 && !(p.endLine > 0 && p.endLine < startLine)
    && lineCount <= maxLines && p.nextLine >= 0 && |p.content| <= MAX_PAGE_BYTES && Utf8.Valid(p.content)
  }

  /** The client takes a page from the line it asked for, empty or with no more lines than it asked for, that is a
      text of at most 50 KiB. */
  lemma AcceptsIff(p: Page, startLine: int, maxLines: int)
    requires startLine >= 1 && maxLines >= 0
    ensures Accepts(p, startLine, maxLines)
            <==> && p.startLine == startLine && (p.endLine == 0 || startLine <= p.endLine < startLine + maxLines)
                 && p.nextLine >= 0 && |p.content| <= 51200 && Utf8.Valid(p.content)
  {}

  lemma {:induction false} JoinedIsText(ls: seq<Bytes>)
    requires AllText(ls)
    ensures Utf8.Valid(JoinLines(ls))
  {
    if |ls| > 1 {
      JoinedIsText(ls[1..]);
      LineFeedIsText();
      Utf8.Joined(ls[0], [LF]);
      Utf8.Joined(ls[0] + [LF], JoinLines(ls[1..]));
    }
  }

  lemma LineFeedIsText()
    ensures Utf8.Valid([LF]) && Utf8.Valid([])
  {
    assert [LF][1..] == [];
  }

  lemma PageIsText(lines: seq<Bytes>, s: nat, e: Extent, whole: Bytes, cut: Bytes)
    requires s + e.count <= |lines| && AllText(lines[..s + e.count]) && whole == JoinLines(lines[s..s + e.count])
             && Utf8.Valid(cut)
    ensures Utf8.Valid(whole) && Utf8.Valid(whole + (if e.count > 0 then [LF] else []) + cut)
  {
    assert lines[s..s + e.count] == lines[..s + e.count][s..];
    JoinedIsText(lines[s..s + e.count]);
    LineFeedIsText();
    var sep := if e.count > 0 then [LF] else [];
    Utf8.Joined(whole, sep);
    Utf8.Joined(whole + sep, cut);
  }

  lemma LookedAtIsText(lines: seq<Bytes>, s: nat, e: Extent)
    requires s + e.count <= |lines| && (e.cut ==> s + e.count < |lines|) && AllText(lines[..LookedAt(lines, s, e)])
    ensures AllText(lines[..s + e.count]) && (e.cut ==> Utf8.Valid(lines[s + e.count]))
  {
    var n := LookedAt(lines, s, e);
    assert lines[..s + e.count] == lines[..n][..s + e.count];
    if e.cut { assert lines[..n][s + e.count] == lines[s + e.count]; }
  }

  lemma ContentIsText(lines: seq<Bytes>, s: nat, maxLines: nat)
    requires s <= |lines|
    requires AllText(lines[..LookedAt(lines, s, ExtentFrom(lines, s, maxLines))])
    ensures Utf8.Valid(PageAt(lines, s, maxLines).content) && |PageAt(lines, s, maxLines).content| <= MAX_PAGE_BYTES
  {
    var e := ExtentFrom(lines, s, maxLines);
    ExtentIsPage(lines, s, maxLines);
    LookedAtIsText(lines, s, e);
    LineFeedIsText();
    var whole := JoinLines(lines[s..s + e.count]);
    PageIsText(lines, s, e, whole, if e.cut then CutText(lines[s + e.count], whole, e.count) else []);
  }

  /** The client accepts every page that the helper replies with; and the next line, if there is one, is behind
      the first one asked for. */
  lemma PagesAreAccepted(f: Scanned, startLine: int, maxLines: int, r: ReadReply)
    requires IsReply(f, startLine, maxLines, r) && r.Read?
    ensures Accepts(r.page, startLine, maxLines)
    ensures r.page.truncated <==> r.page.nextLine > 0
    ensures r.page.truncated ==> r.page.nextLine > startLine
  {
    var s := StartIndex(f.lines, startLine);
    PageHasLine(f.lines, s, maxLines);
    ContentIsText(f.lines, s, maxLines);
  }

  /** A page within the file has a line, whole or cut. */
  lemma PageHasLine(lines: seq<Bytes>, s: nat, maxLines: nat)
    requires s <= |lines| && maxLines > 0
    ensures s < |lines| ==> ExtentFrom(lines, s, maxLines).count > 0 || ExtentFrom(lines, s, maxLines).cut
  {}

  // ---------------------------------------------------------------- all pages of a context file

  datatype Loaded = Loaded(value: Bytes) | LoadFailed(error: ReadReply)

  function Ext(lines: seq<Bytes>, s: nat): Extent
    requires s <= |lines|
  {
    ExtentFrom(lines, s, MAX_PAGE_LINES)
  }

  /** Some page from index s on has a cut line. */
  predicate SomeCut(lines: seq<Bytes>, s: nat)
    requires s <= |lines|
    decreases |lines| - s
  {
    var e := Ext(lines, s);
    e.cut || (0 < e.count && s + e.count < |lines| && SomeCut(lines, s + e.count))
  }

  /** The index at which the last page begins. */
  function LastPage(lines: seq<Bytes>, s: nat): (p: nat)
    requires s <= |lines|
    ensures s <= p <= |lines|
    decreases |lines| - s
  {
    var e := Ext(lines, s);
    if 0 < e.count && s + e.count < |lines| then LastPage(lines, s + e.count) else s
  }

  /** What the pages make together: the lines joined, without a last page that is one empty line. */
  function Whole(lines: seq<Bytes>): Bytes {
    var p := LastPage(lines, 0);
    if p > 0 && lines[p..] == [[]] then JoinLines(lines[..p]) else JoinLines(lines)
  }

  /** A page that more lines follow is not empty. */
  lemma FollowedPageIsNotEmpty(lines: seq<Bytes>, s: nat)
    requires s <= |lines| && !Ext(lines, s).cut && s + Ext(lines, s).count < |lines|
    ensures Ext(lines, s).count > 0 && JoinLines(lines[s..s + Ext(lines, s).count]) != []
  {
    ExtentIsPage(lines, s, MAX_PAGE_LINES);
    PageHasLine(lines, s, MAX_PAGE_LINES);
    JoinedIsEmpty(lines[s..s + Ext(lines, s).count]);
  }

  lemma JoinPages(lines: seq<Bytes>, s: nat, t: nat)
    requires 0 < s < t <= |lines|
    ensures JoinLines(lines[..t]) == JoinLines(lines[..s]) + [LF] + JoinLines(lines[s..t])
  {
    assert lines[..t] == lines[..s] + lines[s..t];
    LinesJoin(lines[..s], lines[s..t]);
  }

  /** What the loop has after the pages up to index s, and will have in the end. */
  ghost predicate Progress(lines: seq<Bytes>, s: nat, content: Bytes)
  {
    && s <= |lines| && content == JoinLines(lines[..s]) && (s > 0 ==> s < |lines| && content != [])
    && LastPage(lines, 0) == LastPage(lines, s) && (SomeCut(lines, 0) <==> SomeCut(lines, s))
  }

  /** What the loop makes of one more page. */
  function Append(content: Bytes, page: Bytes): Bytes {
    content + (if |content| > 0 && page != [] then [LF] else []) + page
  }

  lemma NextPage(lines: seq<Bytes>, s: nat, content: Bytes)
    requires Progress(lines, s, content) && !Ext(lines, s).cut && s + Ext(lines, s).count < |lines|
    ensures var e := Ext(lines, s);
            Progress(lines, s + e.count, Append(content, JoinLines(lines[s..s + e.count])))
  {
    var e := Ext(lines, s);
    FollowedPageIsNotEmpty(lines, s);
    if s > 0 { JoinPages(lines, s, s + e.count); }
  }

  lemma JoinRest(lines: seq<Bytes>, s: nat)
    requires 0 < s < |lines|
    ensures JoinLines(lines) == JoinLines(lines[..s]) + [LF] + JoinLines(lines[s..])
  {
    assert lines == lines[..s] + lines[s..];
    LinesJoin(lines[..s], lines[s..]);
  }

  lemma LastPart(lines: seq<Bytes>, s: nat, content: Bytes)
    requires s <= |lines| && content == JoinLines(lines[..s]) && (s > 0 ==> s < |lines| && content != [])
    ensures Append(content, JoinLines(lines[s..]))
            == if s > 0 && lines[s..] == [[]] then JoinLines(lines[..s]) else JoinLines(lines)
  {
    if s > 0 {
      JoinRest(lines, s);
      JoinedIsEmpty(lines[s..]);
    } else {
      assert lines[0..] == lines;
    }
  }

  lemma LastIsLast(lines: seq<Bytes>, s: nat)
    requires s <= |lines| && LastPage(lines, 0) == LastPage(lines, s) && (SomeCut(lines, 0) <==> SomeCut(lines, s))
    requires !Ext(lines, s).cut && s + Ext(lines, s).count == |lines|
    ensures LastPage(lines, 0) == s && !SomeCut(lines, 0)
  {}

  lemma WholeFrom(lines: seq<Bytes>, s: nat, content: Bytes)
    requires LastPage(lines, 0) == s <= |lines|
    requires content == JoinLines(lines[..s]) && (s > 0 ==> s < |lines| && content != [])
    ensures Append(content, JoinLines(lines[s..])) == Whole(lines)
  {
    LastPart(lines, s, content);
  }

  lemma ToTheEnd(lines: seq<Bytes>, s: nat, count: nat)
    requires s + count == |lines|
    ensures lines[s..s + count] == lines[s..]
  {}

  lemma WholeWith(lines: seq<Bytes>, s: nat, count: nat, content: Bytes)
    requires LastPage(lines, 0) == s && s + count == |lines|
    requires content == JoinLines(lines[..s]) && (s > 0 ==> s < |lines| && content != [])
    ensures Append(content, JoinLines(lines[s..s + count])) == Whole(lines)
  {
    ToTheEnd(lines, s, count);
    WholeFrom(lines, s, content);
  }

  lemma FinalPage(lines: seq<Bytes>, s: nat, content: Bytes, count: nat)
    requires Progress(lines, s, content) && Ext(lines, s) == Extent(count, false) && s + count == |lines|
    ensures Append(content, JoinLines(lines[s..s + count])) == Whole(lines) && !SomeCut(lines, 0)
  {
    LastIsLast(lines, s);
    WholeWith(lines, s, count, content);
  }

  lemma NextPageFits(lines: seq<Bytes>, s: nat, content: Bytes, count: nat)
    requires Progress(lines, s, content) && Ext(lines, s) == Extent(count, false) && s + count < |lines|
    ensures |Append(content, JoinLines(lines[s..s + count]))| <= |Whole(lines)|
  {
    NextPage(lines, s, content);
    FollowedPageIsNotEmpty(lines, s);
    PrefixOfWhole(lines, s + count);
  }

  /** The pages so far are no longer than what they make together. */
  lemma ProgressFits(lines: seq<Bytes>, s: nat, content: Bytes, count: nat)
    requires Progress(lines, s, content) && Ext(lines, s) == Extent(count, false)
    ensures |Append(content, JoinLines(lines[s..s + count]))| <= |Whole(lines)|
  {
    if s + count == |lines| { FinalPage(lines, s, content, count); } else { NextPageFits(lines, s, content, count); }
  }

  lemma PrefixOfWhole(lines: seq<Bytes>, s: nat)
    requires 0 < s < |lines| && LastPage(lines, 0) == LastPage(lines, s)
    ensures |JoinLines(lines[..s])| <= |Whole(lines)|
  {
    var p := LastPage(lines, 0);
    assert lines[..|lines|] == lines;
    JoinPages(lines, s, |lines|);
    if s < p { JoinPages(lines, s, p); }
  }

  lemma ReplyFacts(f: Scanned, s: nat, r: ReadReply)
    requires s <= |f.lines| && IsReply(f, s + 1, MAX_PAGE_LINES, r) && r.Read?
    ensures var e := Ext(f.lines, s);
            && r.page.lineTruncated == e.cut
            && (!e.cut ==> r.page.content == JoinLines(f.lines[s..s + e.count])
                           && r.page.nextLine == (if s + e.count < |f.lines| then s + e.count + 1 else 0)
                           && (r.page.truncated <==> s + e.count < |f.lines|))
            && (s + e.count == |f.lines| ==> AllText(f.lines) && !f.tooLong)
  {
    assert f.lines[..|f.lines|] == f.lines;
    ExtentIsPage(f.lines, s, MAX_PAGE_LINES);
  }

  lemma RefusalFacts(f: Scanned, s: nat, r: ReadReply)
    requires s <= |f.lines| && IsReply(f, s + 1, MAX_PAGE_LINES, r) && !r.Read?
    ensures r == Unsupported && (!AllText(f.lines) || f.tooLong)
  {
    var n := LookedAt(f.lines, s, Ext(f.lines, s));
    assert forall l :: l in f.lines[..n] ==> l in f.lines;
  }

  // ---------------------------------------------------------------- which files have a page with a cut line

  /** A page of the lines from s up to t would not go on: the file ends, or there are enough lines, or not even an
      empty line fits. */
  predicate Full(lines: seq<Bytes>, s: nat, t: nat)
    requires s < t <= |lines|
  {
    t == |lines| || t - s == MAX_PAGE_LINES || |JoinLines(lines[s..t])| >= MAX_PAGE_BYTES - 1
  }

  /** The lines from s up to t fit a page and fill it, and none of their fronts does. */
  ghost predicate FillsPage(lines: seq<Bytes>, s: nat, t: nat) {
    && s < t <= |lines| && |JoinLines(lines[s..t])| <= MAX_PAGE_BYTES && Full(lines, s, t)
    && forall u :: s < u < t ==> !Full(lines, s, u)
  }

  /** The lines from s on fall into such pages. */
  ghost predicate Falls(lines: seq<Bytes>, s: nat, ends: seq<nat>) {
    && |ends| > 0 && ends[0] == s && ends[|ends| - 1] == |lines|
    && forall k :: 0 < k < |ends| ==> FillsPage(lines, ends[k - 1], ends[k])
  }

  lemma {:induction false} JoinGrows(lines: seq<Bytes>, s: nat, t: nat, u: nat)
    requires s < t <= u <= |lines|
    ensures |JoinLines(lines[s..t])| <= |JoinLines(lines[s..u])|
    decreases u
  {
    if t < u {
      JoinGrows(lines, s, t, u - 1);
      JoinOneMore(lines, s, u - 1 - s);
    }
  }

  lemma TooMuchForAnyPage(lines: seq<Bytes>, s: nat, count: nat, t: nat)
    requires s + count < |lines| && |JoinLines(lines[s..s + count + 1])| > MAX_PAGE_BYTES
    requires (forall u :: s < u <= s + count ==> !Full(lines, s, u)) && s < t <= |lines|
    ensures !FillsPage(lines, s, t)
  {
    if t > s + count { JoinGrows(lines, s, s + count + 1, t); }
  }

  /** A page that has come to count lines without being full is cut exactly if there is nowhere for it to end. */
  lemma {:induction false} ReachFills(lines: seq<Bytes>, s: nat, count: nat, bytes: nat)
    requires s + count < |lines| && |JoinLines(lines[s..s + count])| == bytes <= MAX_PAGE_BYTES
    requires forall u :: s < u <= s + count ==> !Full(lines, s, u)
    ensures var e := Reach(lines, s, count, bytes, MAX_PAGE_LINES);
            && (!e.cut ==> FillsPage(lines, s, s + e.count))
            && (e.cut ==> forall t :: s < t <= |lines| ==> !FillsPage(lines, s, t))
    decreases |lines| - s - count
  {
    JoinOneMore(lines, s, count);
    NotFullBefore(lines, s, count);
    var next := |JoinLines(lines[s..s + count + 1])|;
    if next > MAX_PAGE_BYTES {
      forall t | s < t <= |lines| ensures !FillsPage(lines, s, t) { TooMuchForAnyPage(lines, s, count, t); }
    } else if Full(lines, s, s + count + 1) {
      assert FillsPage(lines, s, s + count + 1);
    } else {
      ReachFills(lines, s, count + 1, next);
    }
  }

  lemma NotFullBefore(lines: seq<Bytes>, s: nat, count: nat)
    requires s + count < |lines| && forall u :: s < u <= s + count ==> !Full(lines, s, u)
    ensures count < MAX_PAGE_LINES
  {
    if count >= MAX_PAGE_LINES { assert Full(lines, s, s + MAX_PAGE_LINES); }
  }

  lemma CutIff(lines: seq<Bytes>, s: nat)
    requires s < |lines|
    ensures var e := Ext(lines, s);
            && (!e.cut ==> FillsPage(lines, s, s + e.count))
            && (e.cut ==> forall t :: s < t <= |lines| ==> !FillsPage(lines, s, t))
  {
    assert lines[s..s + 0] == [];
    ReachFills(lines, s, 0, 0);
  }

  lemma OnePageMore(lines: seq<Bytes>, s: nat, t: nat, ends: seq<nat>)
    requires FillsPage(lines, s, t) && Falls(lines, t, ends)
    ensures Falls(lines, s, [s] + ends)
  {
    var all := [s] + ends;
    forall k | 0 < k < |all| ensures FillsPage(lines, all[k - 1], all[k]) {
      if k > 1 { assert FillsPage(lines, ends[k - 2], ends[k - 1]); }
    }
  }

  lemma OnePageLess(lines: seq<Bytes>, s: nat, ends: seq<nat>)
    requires Falls(lines, s, ends) && s < |lines|
    ensures |ends| > 1 && FillsPage(lines, s, ends[1]) && Falls(lines, ends[1], ends[1..])
  {
    var rest := ends[1..];
    assert FillsPage(lines, ends[0], ends[1]);
    forall k | 0 < k < |rest| ensures FillsPage(lines, rest[k - 1], rest[k]) {
      assert FillsPage(lines, ends[k], ends[k + 1]);
    }
  }

  lemma OnePageEnd(lines: seq<Bytes>, s: nat, t: nat, u: nat)
    requires FillsPage(lines, s, t) && FillsPage(lines, s, u)
    ensures t == u
  {}

  lemma {:induction false} FallsIfNoneCut(lines: seq<Bytes>, s: nat) returns (ends: seq<nat>)
    requires s <= |lines| && !SomeCut(lines, s)
    ensures Falls(lines, s, ends)
    decreases |lines| - s
  {
    if s == |lines| {
      ends := [s];
    } else {
      CutIff(lines, s);
      var t := s + Ext(lines, s).count;
      if t == |lines| {
        ends := [t];
      } else {
        ends := FallsIfNoneCut(lines, t);
      }
      OnePageMore(lines, s, t, ends);
      ends := [s] + ends;
    }
  }

  lemma {:induction false} NoneCutIfFalls(lines: seq<Bytes>, s: nat, ends: seq<nat>)
    requires s <= |lines| && Falls(lines, s, ends)
    ensures !SomeCut(lines, s)
    decreases |lines| - s
  {
    if s < |lines| {
      OnePageLess(lines, s, ends);
      CutIff(lines, s);
      OnePageEnd(lines, s, s + Ext(lines, s).count, ends[1]);
      NoneCutIfFalls(lines, ends[1], ends[1..]);
    }
  }

  /** No page has a cut line exactly if the file falls into pages each of which ends with a line after which not even
      an empty one fits, with its last line allowed, or with the file. */
  lemma NoneCutIff(lines: seq<Bytes>)
    ensures !SomeCut(lines, 0) <==> exists ends :: Falls(lines, 0, ends)
  {
    if !SomeCut(lines, 0) { var ends := FallsIfNoneCut(lines, 0); }
    if ends :| Falls(lines, 0, ends) { NoneCutIfFalls(lines, 0, ends); }
  }

  /** So a file that fits one page by its bytes is never refused. */
  lemma {:induction false} SmallIsNotCut(lines: seq<Bytes>, s: nat)
    requires s <= |lines| && |JoinLines(lines[s..])| <= MAX_PAGE_BYTES
    ensures !SomeCut(lines, s)
    decreases |lines| - s
  {
    if s < |lines| {
      CutIff(lines, s);
      var t := FirstEnd(lines, s, s + 1);
      assert lines[s..|lines|] == lines[s..];
      JoinGrows(lines, s, t, |lines|);
      assert FillsPage(lines, s, t);
      OnePageEnd(lines, s, s + Ext(lines, s).count, t);
      if t < |lines| {
        assert lines[s..] == lines[s..t] + lines[t..];
        LinesJoin(lines[s..t], lines[t..]);
        SmallIsNotCut(lines, t);
      }
    }
  }

  /** The first line from t on at which a page from s would end. */
  lemma {:induction false} FirstEnd(lines: seq<Bytes>, s: nat, t: nat) returns (end: nat)
    requires s < t <= |lines| && forall u :: s < u < t ==> !Full(lines, s, u)
    ensures t <= end <= |lines| && Full(lines, s, end) && forall u :: s < u < end ==> !Full(lines, s, u)
    decreases |lines| - t
  {
    if Full(lines, s, t) { end := t; } else { end := FirstEnd(lines, s, t + 1); }
  }

  /** When few lines are left, but too many bytes for one page, the next page is accepted exactly if some of the
      lines at its front come to 51,199 or 51,200 bytes. */
  lemma PageIff(lines: seq<Bytes>, s: nat)
    requires s < |lines| <= s + MAX_PAGE_LINES && |JoinLines(lines[s..])| > MAX_PAGE_BYTES
    ensures !Ext(lines, s).cut
            <==> exists t :: s < t < |lines| && MAX_PAGE_BYTES - 1 <= |JoinLines(lines[s..t])| <= MAX_PAGE_BYTES
  {
    CutIff(lines, s);
    assert lines[s..|lines|] == lines[s..];
    if !Ext(lines, s).cut {
      var t := s + Ext(lines, s).count;
      assert FillsPage(lines, s, t) && t < |lines|;
      assert MAX_PAGE_BYTES - 1 <= |JoinLines(lines[s..t])| <= MAX_PAGE_BYTES;
    }
    if t :| s < t < |lines| && MAX_PAGE_BYTES - 1 <= |JoinLines(lines[s..t])| <= MAX_PAGE_BYTES {
      var end := FirstEnd(lines, s, s + 1);
      assert Full(lines, s, t);
      JoinGrows(lines, s, end, t);
      assert FillsPage(lines, s, end);
    }
  }

  /** Two lines of 30,000 bytes each, nothing that is long in itself: refused. */
  lemma TwoLinesAreRefused(a: Bytes, b: Bytes)
    requires |a| == |b| == 30000
    ensures |JoinLines([a, b])| == 60001 < MAX_CONTEXT && SomeCut([a, b], 0) && !Loadable(Scanned([a, b], false))
  {
    var lines := [a, b];
    assert lines[1..] == [b] && JoinLines([b]) == b;
    assert lines[0..1] == [a] && JoinLines([a]) == a;
    assert lines[0..] == lines;
    PageIff(lines, 0);
    LoadableIff(Scanned(lines, false));
  }

  // ---------------------------------------------------------------- the loop

  ghost predicate Loadable(f: Scanned) {
    AllText(f.lines) && !f.tooLong && (exists ends :: Falls(f.lines, 0, ends)) && |Whole(f.lines)| <= MAX_CONTEXT
  }

  lemma LoadableIff(f: Scanned)
    ensures Loadable(f) <==> AllText(f.lines) && !f.tooLong && !SomeCut(f.lines, 0) && |Whole(f.lines)| <= MAX_CONTEXT
  {
    NoneCutIff(f.lines);
  }

  /** What the last page tells. */
  lemma LastPageOutcome(f: Scanned, s: nat, content: Bytes, r: ReadReply)
    requires Progress(f.lines, s, content) && IsReply(f, s + 1, MAX_PAGE_LINES, r) && r.Read?
    requires !r.page.lineTruncated && !r.page.truncated
    ensures Append(content, r.page.content) == Whole(f.lines) && r.page.nextLine == 0
    ensures AllText(f.lines) && !f.tooLong && !SomeCut(f.lines, 0)
  {
    ReplyFacts(f, s, r);
    FinalPage(f.lines, s, content, Ext(f.lines, s).count);
  }

  /** What a page with more behind it tells. */
  lemma NextPageOutcome(f: Scanned, s: nat, content: Bytes, r: ReadReply)
    requires Progress(f.lines, s, content) && IsReply(f, s + 1, MAX_PAGE_LINES, r) && r.Read?
    requires !r.page.lineTruncated && r.page.truncated
    ensures s + 1 < r.page.nextLine <= |f.lines|
            && Progress(f.lines, r.page.nextLine - 1, Append(content, r.page.content))
    ensures |Append(content, r.page.content)| <= |Whole(f.lines)|
  {
    ReplyFacts(f, s, r);
    ProgressFits(f.lines, s, content, Ext(f.lines, s).count);
    NextPage(f.lines, s, content);
    FollowedPageIsNotEmpty(f.lines, s);
  }

  /** What one more page tells. */
  lemma PageOutcome(f: Scanned, s: nat, content: Bytes, r: ReadReply)
    requires Progress(f.lines, s, content) && IsReply(f, s + 1, MAX_PAGE_LINES, r) && r.Read? && !r.page.lineTruncated
    ensures var c := Append(content, r.page.content);
            && |c| <= |Whole(f.lines)|
            && (|c| > MAX_CONTEXT ==> !Loadable(f))
            && (!r.page.truncated ==>
                c == Whole(f.lines) && r.page.nextLine == 0 && (|c| <= MAX_CONTEXT ==> Loadable(f)))
            && (r.page.truncated ==> s + 1 < r.page.nextLine <= |f.lines| && Progress(f.lines, r.page.nextLine - 1, c))
  {
    LoadableIff(f);
    if r.page.truncated { NextPageOutcome(f, s, content, r); } else { LastPageOutcome(f, s, content, r); }
  }

  lemma PageRefused(f: Scanned, s: nat, content: Bytes, r: ReadReply)
    requires Progress(f.lines, s, content) && IsReply(f, s + 1, MAX_PAGE_LINES, r)
    ensures !r.Read? ==> r == Unsupported && (!AllText(f.lines) || f.tooLong)
    ensures !r.Read? || r.page.lineTruncated ==> !Loadable(f)
  {
    LoadableIff(f);
    if r.Read? { ReplyFacts(f, s, r); } else { RefusalFacts(f, s, r); }
  }

  lemma PatientReply(f: Scanned, startLine: int, r: ReadReply)
    requires startLine >= 1 && IsReplyWithin(f, startLine, MAX_PAGE_LINES, |f.lines|, r)
    ensures IsReply(f, startLine, MAX_PAGE_LINES, r)
  {}

  datatype PageLoaded = Failed(error: ReadReply) | Last(content: Bytes) | More(content: Bytes, next: nat)

  /** One round of the loop of loadRemoteContext. */
  method LoadPage(f: Scanned, start: nat, content: Bytes) returns (r: PageLoaded)
    requires start >= 1 && Progress(f.lines, start - 1, content)
    ensures r.Failed? ==> !Loadable(f)
                          && (r.error == OutputLimit || (r.error == Unsupported && (!AllText(f.lines) || f.tooLong)))
    ensures r.Last? ==> Loadable(f) && r.content == Whole(f.lines)
    ensures r.More? ==> start < r.next <= |f.lines| && Progress(f.lines, r.next - 1, r.content)
  {
    var read := ReadLines(f, start, MAX_PAGE_LINES, |f.lines|);
    PatientReply(f, start, read);
    PageRefused(f, start - 1, content, read);
    if !read.Read? {
      return Failed(read);
    }
    if read.page.lineTruncated {
      return Failed(OutputLimit);
    }
    PageOutcome(f, start - 1, content, read);
    var longer := if |content| > 0 && read.page.content != [] then content + [LF] else content;
    assert longer + read.page.content == Append(content, read.page.content);
    if |longer| + |read.page.content| > MAX_CONTEXT {
      return Failed(OutputLimit);
    }
    longer := longer + read.page.content;
    if !read.page.truncated || read.page.nextLine == 0 {
      return Last(longer);
    }
    if read.page.nextLine <= start {
      assert false;
      return Failed(Unsupported);
    }
    return More(longer, read.page.nextLine);
  }

  /** loadRemoteContext's loop over the pages of one unchanged file: it gives the lines joined by line feeds,
      exactly if every line is text, the lines fall into pages without a cut, and the whole is not too big. */
  method LoadPages(f: Scanned) returns (r: Loaded)
    ensures r.Loaded? <==> Loadable(f)
    ensures r.Loaded? ==> r.value == Whole(f.lines)
    ensures r.LoadFailed? ==> r.error == OutputLimit || (r.error == Unsupported && (!AllText(f.lines) || f.tooLong))
  {
    var start := 1;
    var content: Bytes := [];
    while true
      invariant start >= 1 && Progress(f.lines, start - 1, content)
      decreases |f.lines| - start
    {
      var loaded := LoadPage(f, start, content);
      match loaded {
        case Failed(error) => return LoadFailed(error);
        case Last(value) => return Loaded(value);
        case More(longer, next) => start, content := next, longer;
      }
    }
  }

  /** A last page that is one empty line. */
  predicate DropsEmptyPage(lines: seq<Bytes>) {
    var p := LastPage(lines, 0); p > 0 && lines[p..] == [[]]
  }

  lemma DroppedPage(lines: seq<Bytes>, p: nat)
    requires 0 < p < |lines| && lines[p..] == [[]]
    ensures JoinLines(lines) == JoinLines(lines[..p]) + [LF]
  {
    JoinRest(lines, p);
    assert JoinLines(lines[p..]) == [];
  }

  /** So the context of a file without carriage returns is the file without its last line feed, and without one
      more if the last page was one empty line. */
  lemma ContextIsFile(data: Bytes)
    requires CR !in data && |data| > 0 && !Scan(data).tooLong
    ensures var lines := Scan(data).lines;
            data == Whole(lines) + (if DropsEmptyPage(lines) then [LF] else []) + Ending(data)
  {
    LinesRebuild(data);
    var lines := Scan(data).lines;
    if DropsEmptyPage(lines) { DroppedPage(lines, LastPage(lines, 0)); }
  }

  // ---------------------------------------------------------------- the context of a task

  /** What opening a file below the root gives. */
  datatype Opened = Missing | NotRegular | Regular(data: Bytes)

  /** Read, past the checks of the path. */
  method ReadFile(file: Opened, startLine: int, maxLines: int, patience: nat) returns (r: ReadReply)
    requires ValidRange(startLine, maxLines)
    ensures file.Missing? <==> r == NotFound
    ensures file.NotRegular? ==> r == Unsupported
    ensures file.Regular? ==>
              if |file.data| > MAX_FILE then r == OutputLimit
              else IsReplyWithin(Scan(file.data), startLine, maxLines, patience, r)
  {
    match file {
      case Missing => return NotFound;
      case NotRegular => return Unsupported;
      case Regular(data) =>
        if |data| > MAX_FILE {
          return OutputLimit;
        }
        r := ReadLines(Scan(data), startLine, maxLines, patience);
    }
  }

  const OVERRIDE: Bytes := [65, 71, 69, 78, 84, 83, 46, 111, 118, 101, 114, 114, 105, 100, 101, 46, 109, 100]
  const AGENTS: Bytes := [65, 71, 69, 78, 84, 83, 46, 109, 100]

  datatype Context = Context(value: Bytes, digest: Digest) | ContextFailed(error: ReadReply)

  function DigestOf(name: Bytes, value: Bytes): Digest { Sha256(name + [0] + value) }

  const NO_CONTEXT := Context([], Sha256([]))

  ghost predicate ContextOf(name: Bytes, file: Opened, r: Context) {
    && (r.Context? <==> file.Regular? && |file.data| <= MAX_FILE && Loadable(Scan(file.data)))
    && (r.Context? ==> r.value == Whole(Scan(file.data).lines) && r.digest == DigestOf(name, r.value))
    && (file.Regular? && |file.data| > MAX_FILE ==> r == ContextFailed(OutputLimit))
    && (file.NotRegular? ==> r == ContextFailed(Unsupported))
  }

  /** The loop over the pages of one of the two files. */
  method LoadOne(name: Bytes, file: Opened) returns (r: Context)
    requires !file.Missing?
    ensures ContextOf(name, file, r)
  {
    match file {
      case NotRegular => return ContextFailed(Unsupported);
      case Regular(data) =>
        if |data| > MAX_FILE {
          return ContextFailed(OutputLimit);
        }
        var loaded := LoadPages(Scan(data));
        match loaded {
          case LoadFailed(error) => return ContextFailed(error);
          case Loaded(value) => return Context(value, DigestOf(name, value));
        }
    }
  }

  /** loadRemoteContext: the first of the two files that is there, alone. */
  method LoadContext(overriding: Opened, agents: Opened) returns (r: Context)
    ensures !overriding.Missing? ==> ContextOf(OVERRIDE, overriding, r)
    ensures overriding.Missing? && !agents.Missing? ==> ContextOf(AGENTS, agents, r)
    ensures overriding.Missing? && agents.Missing? ==> r == NO_CONTEXT
  {
    if !overriding.Missing? {
      r := LoadOne(OVERRIDE, overriding);
      return;
    }
    if !agents.Missing? {
      r := LoadOne(AGENTS, agents);
      return;
    }
    return NO_CONTEXT;
  }

  /** The digest tells which file a context is from, and what is in it: a task whose digest is still the same has the
      same context. */
  lemma DigestTells(a: Bytes, x: Bytes, b: Bytes, y: Bytes)
    requires a in {OVERRIDE, AGENTS} && b in {OVERRIDE, AGENTS}
    ensures DigestOf(a, x) == DigestOf(b, y) <==> a == b && x == y
    ensures DigestOf(a, x) != NO_CONTEXT.digest
  {
    var u, v := a + [0] + x, b + [0] + y;
    if u == v {
      FirstAt(a, 0, x);
      FirstAt(b, 0, y);
      assert a == u[..|a|] && x == u[|a| + 1..] && b == v[..|b|] && y == v[|b| + 1..];
    }
  }
}

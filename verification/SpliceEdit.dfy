/** EditFileAll's in-memory part: find every old text once, sort the spans, refuse overlaps, splice all
    replacements in one pass under a size limit. */
module SpliceEdit {
  import opened Bytes
  import opened Sequences
  import Utf8
  import opened Wrappers

  const MAX_WRITE := 16777216
  const MAX_REPLACEMENTS := 256

  datatype Replacement = Replacement(oldText: Bytes, newText: Bytes)
  datatype Span = Span(start: nat, end: nat, text: Bytes)
  datatype Outcome = Invalid | Unsupported | Conflict | TooLarge | Edited(content: Bytes)

  // ---------------------------------------------------------------- finding

  predicate Occurs(content: Bytes, word: Bytes, at: nat) {
    at + |word| <= |content| && content[at..at + |word|] == word
  }

  ghost predicate NoneBetween(content: Bytes, word: Bytes, low: nat, high: nat) {
    forall q: nat :: low <= q < high ==> !Occurs(content, word, q)
  }

  ghost predicate NoneFrom(content: Bytes, word: Bytes, low: nat) {
    forall q: nat :: low <= q ==> !Occurs(content, word, q)
  }

  /** bytes.Index from a position on: the first occurrence, or -1. */
  function IndexFrom(content: Bytes, word: Bytes, from: nat): (r: int)
    ensures r >= 0 ==> r >= from && Occurs(content, word, r) && NoneBetween(content, word, from, r)
    ensures r < 0 ==> r == -1 && NoneFrom(content, word, from)
    decreases |content| - from
  {
    if from + |word| > |content| then -1
    else if content[from..from + |word|] == word then from
    else if from == |content| then -1
    else IndexFrom(content, word, from + 1)
  }

  /** The span of a replacement, if its old text is found and not found again behind the first occurrence. */
  function Locate(content: Bytes, r: Replacement): (s: Option<Span>)
    ensures s.Some? ==> s.value.start + |r.oldText| == s.value.end <= |content| && s.value.text == r.newText
    ensures s.Some? ==> Located(content, r.oldText, s.value.start)
  {
    var p := IndexFrom(content, r.oldText, 0);
    if p < 0 || IndexFrom(content[p + |r.oldText|..], r.oldText, 0) >= 0 then None
    else
      FoundIsLocated(content, r.oldText, p);
      Some(Span(p, p + |r.oldText|, r.newText))
  }

  ghost predicate OccursOnce(content: Bytes, word: Bytes) {
    exists p: nat :: Occurs(content, word, p) && forall q: nat :: Occurs(content, word, q) ==> q == p
  }

  lemma OccursBehind(content: Bytes, word: Bytes, base: nat, k: nat)
    requires base <= |content|
    ensures Occurs(content[base..], word, k) <==> Occurs(content, word, base + k)
  {
    if base + k + |word| <= |content| {
      assert content[base..][k..k + |word|] == content[base + k..base + k + |word|];
    }
  }

  /** Located at p: the first occurrence is at p, and none starts at or behind its end. */
  ghost predicate Located(content: Bytes, word: Bytes, p: nat) {
    Occurs(content, word, p) && NoneBetween(content, word, 0, p) && NoneFrom(content, word, p + |word|)
  }

  lemma NotFoundBehind(content: Bytes, word: Bytes, base: nat)
    requires base <= |content|
    ensures IndexFrom(content[base..], word, 0) < 0 <==> NoneFrom(content, word, base)
  {
    var s := IndexFrom(content[base..], word, 0);
    if s >= 0 {
      OccursBehind(content, word, base, s);
    } else {
      forall q: nat | q >= base ensures !Occurs(content, word, q) {
        OccursBehind(content, word, base, q - base);
      }
    }
  }

  lemma FoundIsLocated(content: Bytes, word: Bytes, p: nat)
    requires IndexFrom(content, word, 0) == p && IndexFrom(content[p + |word|..], word, 0) < 0
    ensures Located(content, word, p)
  {
    NotFoundBehind(content, word, p + |word|);
  }

  lemma LocatedIsFound(content: Bytes, r: Replacement, p: nat)
    requires Located(content, r.oldText, p)
    ensures Locate(content, r) == Some(Span(p, p + |r.oldText|, r.newText))
  {
    assert IndexFrom(content, r.oldText, 0) == p;
    NotFoundBehind(content, r.oldText, p + |r.oldText|);
  }

  /** word overlaps itself by b bytes. */
  predicate Border(word: Bytes, b: nat) {
    0 < b < |word| && word[..b] == word[|word| - b..]
  }

  ghost predicate Bordered(word: Bytes) { exists b: nat :: Border(word, b) }

  lemma OverlapIsBorder(content: Bytes, w: Bytes, p: nat, q: nat)
    requires Occurs(content, w, p) && Occurs(content, w, q) && p < q < p + |w|
    ensures Border(w, p + |w| - q)
  {
    var b := p + |w| - q;
    assert w[..b] == content[q..q + |w|][..b] == content[q..p + |w|];
    assert w[|w| - b..] == content[p..p + |w|][|w| - b..] == content[q..p + |w|];
  }

  /** What the search accepts is unique if the old text does not overlap itself. */
  lemma BorderlessIsUnique(content: Bytes, r: Replacement)
    requires r.oldText != [] && !Bordered(r.oldText)
    ensures Locate(content, r).Some? <==> OccursOnce(content, r.oldText)
  {
    var w := r.oldText;
    if Locate(content, r).Some? {
      var p := Locate(content, r).value.start;
      forall q: nat | Occurs(content, w, q) ensures q == p {
        if p < q < p + |w| { OverlapIsBorder(content, w, p, q); }
      }
    }
    if OccursOnce(content, w) {
      var p: nat :| Occurs(content, w, p) && forall q: nat :: Occurs(content, w, q) ==> q == p;
      LocatedIsFound(content, r, p);
    }
  }

  /** A self-overlapping old text is accepted somewhere although it occurs twice: in itself followed by the part
      behind its border. So exactly the texts without a border are safe. */
  lemma BorderedIsAcceptedTwice(r: Replacement, b: nat) returns (content: Bytes)
    requires Border(r.oldText, b)
    ensures Locate(content, r).Some? && !OccursOnce(content, r.oldText)
    ensures EditText(r.oldText) ==> EditText(content)
  {
    var w := r.oldText;
    content := w + w[b..];
    assert content[0..|w|] == w;
    assert content[|w| - b..|w| - b + |w|] == w[|w| - b..] + w[b..] == w[..b] + w[b..] == w;
    assert Occurs(content, w, 0) && Occurs(content, w, |w| - b);
    assert forall q: nat :: q >= |w| ==> !Occurs(content, w, q);
    LocatedIsFound(content, r, 0);
    if EditText(w) { BorderIsText(w, b); }
  }

  /** A text that overlaps itself does so by whole characters. */
  lemma BorderIsText(w: Bytes, b: nat)
    requires Border(w, b) && EditText(w)
    ensures EditText(w + w[b..])
  {
    BorderIsValid(w, b);
    Utf8.Joined(w, w[b..]);
  }

  lemma BorderIsValid(w: Bytes, b: nat)
    requires Border(w, b) && Utf8.Valid(w)
    ensures Utf8.Valid(w[b..])
  {
    BorderStarts(w, b);
    Utf8.StartsCharacter(w, |w| - b);
    Utf8.RestIsValid(w[..b], w[b..]);
  }

  lemma BorderStarts(w: Bytes, b: nat)
    requires Border(w, b)
    ensures w[|w| - b] == w[0] && w[|w| - b..] == w[..b] && w[..b] + w[b..] == w
  {
    assert w[|w| - b..][0] == w[|w| - b] && w[..b][0] == w[0];
  }

  lemma OverlapIsLocated()
    ensures Occurs([97, 97, 97], [97, 97], 0) && Occurs([97, 97, 97], [97, 97], 1)
    ensures Locate([97, 97, 97], Replacement([97, 97], [98])) == Some(Span(0, 2, [98]))
  {
    assert [97, 97, 97][0..2] == [97, 97] && [97, 97, 97][1..3] == [97, 97];
    LocatedIsFound([97, 97, 97], Replacement([97, 97], [98]), 0);
  }

  /** In aaa the text aa occurs twice, and is replaced. */
  lemma OverlapAcceptedExample()
    ensures Occurs([97, 97, 97], [97, 97], 0) && Occurs([97, 97, 97], [97, 97], 1)
    ensures EditAll([97, 97, 97], [Replacement([97, 97], [98])]) == Edited([98, 97])
  {
    var content, r := [97, 97, 97], Replacement([97, 97], [98]);
    OverlapIsLocated();
    AsciiIsText(content);
    AsciiIsText(r.oldText);
    AsciiIsText(r.newText);
    EditOne(content, r, Span(0, 2, [98]));
  }

  /** An edit with one replacement. */
  lemma EditOne(content: Bytes, r: Replacement, s: Span)
    requires GoodReplacement(r) && EditText(content) && Locate(content, r) == Some(s)
    ensures var edited := content[..s.start] + s.text + content[s.end..];
            EditAll(content, [r]) == if |edited| > MAX_WRITE then TooLarge else Edited(edited)
  {
    assert LocateAll(content, [r]).value == [s];
    assert SortSpans([s]) == [s] by { SortSorts([s]); }
    assert content[0..s.start] == content[..s.start];
    assert [s][1..] == [];
    assert Splice(content, [s], 0) == content[..s.start] + s.text + Splice(content, [], s.end);
  }

  lemma {:induction false} AsciiIsText(b: Bytes)
    requires forall k :: 0 <= k < |b| ==> 0 < b[k] < 0x80
    ensures EditText(b)
  {
    if |b| > 0 {
      AsciiIsText(b[1..]);
      assert Utf8.Head(b) == 1;
      assert b == [b[0]] + b[1..];
    }
  }

  // ---------------------------------------------------------------- sorting and splicing

  function LocateAll(content: Bytes, rs: seq<Replacement>): (r: Option<seq<Span>>)
    ensures r.Some? ==> |r.value| == |rs| && forall k :: 0 <= k < |rs| ==> Locate(content, rs[k]) == Some(r.value[k])
    ensures r.None? ==> exists k :: 0 <= k < |rs| && Locate(content, rs[k]).None?
  {
    if |rs| == 0 then Some([])
    else
      var first := Locate(content, rs[0]);
      var rest := LocateAll(content, rs[1..]);
      if first.None? then None
      else if rest.None? then
        assert exists k :: 0 <= k < |rs[1..]| && Locate(content, rs[1..][k]).None?;
        None
      else Some([first.value] + rest.value)
  }

  predicate StartLe(a: Span, b: Span) { a.start <= b.start }

  function SortSpans(spans: seq<Span>): seq<Span> { SortBy(spans, StartLe) }

  ghost predicate Sorted(spans: seq<Span>) {
    forall i, j :: 0 <= i < j < |spans| ==> spans[i].start <= spans[j].start
  }

  predicate Apart(spans: seq<Span>) {
    forall k :: 1 <= k < |spans| ==> spans[k - 1].end <= spans[k].start
  }

  ghost predicate Within(content: Bytes, spans: seq<Span>) {
    forall k :: 0 <= k < |spans| ==> spans[k].start <= spans[k].end <= |content|
  }

  /** The spans lie apart, in order, within the content, from a position on. */
  predicate Fits(content: Bytes, spans: seq<Span>, from: nat)
    decreases |spans|
  {
    if |spans| == 0 then from <= |content|
    else from <= spans[0].start <= spans[0].end <= |content| && Fits(content, spans[1..], spans[0].end)
  }

  lemma {:induction false} ApartFits(content: Bytes, spans: seq<Span>, from: nat)
    requires Within(content, spans) && Apart(spans) && from <= |content| && (|spans| > 0 ==> from <= spans[0].start)
    ensures Fits(content, spans, from)
    decreases |spans|
  {
    if |spans| > 0 { ApartFits(content, spans[1..], spans[0].end); }
  }

  /** One pass from the left. */
  function Splice(content: Bytes, spans: seq<Span>, from: nat): Bytes
    requires Fits(content, spans, from)
    decreases |spans|
  {
    if |spans| == 0 then content[from..]
    else content[from..spans[0].start] + spans[0].text + Splice(content, spans[1..], spans[0].end)
  }

  /** The meaning of the edit: replace the spans one at a time, the last first. */
  function ReplaceLastFirst(content: Bytes, spans: seq<Span>, from: nat): (r: Bytes)
    requires Fits(content, spans, from)
    ensures |r| >= from && r[..from] == content[..from]
    decreases |spans|
  {
    if |spans| == 0 then content
    else
      var c := ReplaceLastFirst(content, spans[1..], spans[0].end);
      assert c[..spans[0].end][..from] == c[..from] && content[..spans[0].end][..from] == content[..from];
      c[..spans[0].start] + spans[0].text + c[spans[0].end..]
  }

  lemma TwoCuts(c: Bytes, content: Bytes, from: nat, start: nat, end: nat, text: Bytes)
    requires from <= start <= end <= |c| && end <= |content| && c[..end] == content[..end]
    ensures (c[..start] + text + c[end..])[from..] == content[from..start] + text + c[end..]
  {
    assert c[from..start] == c[..end][from..start] == content[..end][from..start];
    assert (c[..start] + text + c[end..])[from..] == c[from..start] + text + c[end..];
  }

  lemma {:induction false} SpliceFrom(content: Bytes, spans: seq<Span>, from: nat)
    requires Fits(content, spans, from)
    ensures Splice(content, spans, from) == ReplaceLastFirst(content, spans, from)[from..]
    decreases |spans|
  {
    if |spans| > 0 {
      var s := spans[0];
      SpliceFrom(content, spans[1..], s.end);
      TwoCuts(ReplaceLastFirst(content, spans[1..], s.end), content, from, s.start, s.end, s.text);
    }
  }

  /** The one-pass splice is the replacement of the spans one at a time. */
  lemma SpliceIsSequential(content: Bytes, spans: seq<Span>)
    requires Fits(content, spans, 0)
    ensures Splice(content, spans, 0) == ReplaceLastFirst(content, spans, 0)
  {
    SpliceFrom(content, spans, 0);
  }

  function Growth(spans: seq<Span>): int {
    if |spans| == 0 then 0 else |spans[0].text| - (spans[0].end - spans[0].start) + Growth(spans[1..])
  }

  /** The length of the result is the old length plus the sum of the differences. */
  lemma {:induction false} SpliceLength(content: Bytes, spans: seq<Span>, from: nat)
    requires Fits(content, spans, from)
    ensures |Splice(content, spans, from)| == |content| - from + Growth(spans)
    decreases |spans|
  {
    if |spans| > 0 { SpliceLength(content, spans[1..], spans[0].end); }
  }

  // ---------------------------------------------------------------- undoing an edit

  /** The spans of the new texts in the edited content, each with the old text it replaced; position from of
      the content has become position at. */
  function Undo(content: Bytes, spans: seq<Span>, from: nat, at: nat): seq<Span>
    requires Fits(content, spans, from)
    decreases |spans|
  {
    if |spans| == 0 then []
    else
      var s := spans[0];
      var p := at + s.start - from;
      [Span(p, p + |s.text|, content[s.start..s.end])] + Undo(content, spans[1..], s.end, p + |s.text|)
  }

  lemma Pieces(full: Bytes, at: nat, a: Bytes, b: Bytes, c: Bytes)
    requires at <= |full| && full[at..] == a + b + c
    ensures at + |a| + |b| <= |full| && full[at..at + |a|] == a && full[at + |a| + |b|..] == c
  {
    assert full[at..][..|a|] == a;
    assert full[at..][|a| + |b|..] == c;
  }

  lemma Around(content: Bytes, s: Span, from: nat)
    requires from <= s.start <= s.end <= |content|
    ensures content[from..s.start] + content[s.start..s.end] + content[s.end..] == content[from..]
  {}

  lemma SpliceOne(full: Bytes, s: Span, rest: seq<Span>, at: nat, front: Bytes, behind: Bytes)
    requires at <= s.start <= s.end <= |full| && Fits(full, rest, s.end)
    requires full[at..s.start] == front && Splice(full, rest, s.end) == behind
    ensures Fits(full, [s] + rest, at) && Splice(full, [s] + rest, at) == front + s.text + behind
  {
    assert ([s] + rest)[0] == s && ([s] + rest)[1..] == rest;
  }

  /** Where the part of the new content behind the first span begins. */
  function Behind(spans: seq<Span>, from: nat, at: nat): int
    requires |spans| > 0
  {
    at + spans[0].start - from + |spans[0].text|
  }

  ghost predicate Restores(full: Bytes, undo: seq<Span>, at: int, original: Bytes) {
    0 <= at <= |full| && Fits(full, undo, at) && Splice(full, undo, at) == original
  }

  /** Undoing the spans in what full has from a position on gives the content back. */
  ghost predicate Undoes(content: Bytes, spans: seq<Span>, from: nat, full: Bytes, at: int)
    requires Fits(content, spans, from)
  {
    0 <= at && Restores(full, Undo(content, spans, from, at), at, content[from..])
  }

  lemma UndoOne(content: Bytes, spans: seq<Span>, from: nat, full: Bytes, at: nat)
    requires Fits(content, spans, from) && |spans| > 0 && at <= |full| && full[at..] == Splice(content, spans, from)
    ensures var next := Behind(spans, from, at);
            && at <= next - |spans[0].text| <= next <= |full|
            && full[at..next - |spans[0].text|] == content[from..spans[0].start]
            && full[next..] == Splice(content, spans[1..], spans[0].end)
  {
    Pieces(full, at, content[from..spans[0].start], spans[0].text, Splice(content, spans[1..], spans[0].end));
  }

  lemma UndoFirst(content: Bytes, spans: seq<Span>, from: nat, at: nat, next: nat)
    requires Fits(content, spans, from) && |spans| > 0 && next == Behind(spans, from, at)
    ensures var s := spans[0];
            Undo(content, spans, from, at)
            == [Span(next - |s.text|, next, content[s.start..s.end])] + Undo(content, spans[1..], s.end, next)
  {}

  /** What stands between two spans, the first of which is undone, is what the content has from there on. */
  lemma RedoSplice(content: Bytes, s: Span, from: nat, full: Bytes, at: nat, next: nat, rest: seq<Span>)
    requires from <= s.start <= s.end <= |content| && next == at + s.start - from + |s.text|
    requires at <= next - |s.text| <= next <= |full| && full[at..next - |s.text|] == content[from..s.start]
    requires Restores(full, rest, next, content[s.end..])
    ensures Restores(full, [Span(next - |s.text|, next, content[s.start..s.end])] + rest, at, content[from..])
  {
    var undone := Span(next - |s.text|, next, content[s.start..s.end]);
    SpliceOne(full, undone, rest, at, content[from..s.start], content[s.end..]);
    Around(content, s, from);
  }

  lemma {:induction false} UndoFrom(content: Bytes, spans: seq<Span>, from: nat, full: Bytes, at: nat)
    requires Fits(content, spans, from) && at <= |full| && full[at..] == Splice(content, spans, from)
    ensures Undoes(content, spans, from, full, at)
    decreases |spans|
  {
    if |spans| > 0 {
      var next := Behind(spans, from, at);
      UndoOne(content, spans, from, full, at);
      UndoFrom(content, spans[1..], spans[0].end, full, next);
      RedoSplice(content, spans[0], from, full, at, next, Undo(content, spans[1..], spans[0].end, next));
      UndoFirst(content, spans, from, at, next);
    }
  }

  /** Splicing the old texts back over the new ones restores the file. */
  lemma UndoRestores(content: Bytes, spans: seq<Span>)
    requires Fits(content, spans, 0)
    ensures var edited := Splice(content, spans, 0);
            var u := Undo(content, spans, 0, 0);
            Fits(edited, u, 0) && Splice(edited, u, 0) == content
  {
    UndoFrom(content, spans, 0, Splice(content, spans, 0), 0);
  }

  // ---------------------------------------------------------------- the order of the replacements does not matter

  ghost predicate Strict(spans: seq<Span>) {
    forall i, j :: 0 <= i < j < |spans| ==> spans[i].start < spans[j].start
  }

  ghost predicate Nonempty(spans: seq<Span>) {
    forall k :: 0 <= k < |spans| ==> spans[k].start < spans[k].end
  }

  lemma SortSorts(spans: seq<Span>)
    ensures Sorted(SortSpans(spans)) && multiset(SortSpans(spans)) == multiset(spans)
  {
    SortIn(spans, StartLe);
    SortOrders(spans, StartLe);
    OrderedIsSorted(SortSpans(spans));
  }

  lemma OrderedIsSorted(spans: seq<Span>)
    requires Ordered(spans, StartLe)
    ensures Sorted(spans)
  {
    forall i, j | 0 <= i < j < |spans| ensures spans[i].start <= spans[j].start { assert StartLe(spans[i], spans[j]); }
  }

  lemma {:induction false} ApartIsStrict(spans: seq<Span>, i: nat, j: nat)
    requires Apart(spans) && Nonempty(spans) && i < j < |spans|
    ensures spans[i].start < spans[j].start
  {
    if i + 1 < j { ApartIsStrict(spans, i, j - 1); }
  }

  lemma SameFirst(s: seq<Span>, t: seq<Span>)
    requires Strict(s) && Sorted(t) && multiset(s) == multiset(t) && |s| > 0
    ensures |t| > 0 && s[0] == t[0]
  {
    assert s[0] in multiset(t);
    assert t[0] in multiset(s);
    var j :| 0 <= j < |s| && s[j] == t[0];
    var k :| 0 <= k < |t| && t[k] == s[0];
  }

  /** Strictly sorted spans can be sorted in only one way. */
  lemma {:induction false} SortedOneWay(s: seq<Span>, t: seq<Span>)
    requires Strict(s) && Sorted(t) && multiset(s) == multiset(t)
    ensures s == t
  {
    if |s| == 0 {
      assert |multiset(t)| == 0;
    } else {
      SameFirst(s, t);
      SameRest(s, t, 0);
      WithoutFirst(t, 0);
      SortedOneWay(s[1..], t[1..]);
    }
  }

  /** Whatever order the sort leaves equal starts in, the overlap check and the spliced spans are the same. */
  lemma AnySortWillDo(s: seq<Span>, t: seq<Span>)
    requires Sorted(s) && Sorted(t) && multiset(s) == multiset(t) && Nonempty(s) && Nonempty(t)
    ensures Apart(s) <==> Apart(t)
    ensures Apart(s) ==> s == t
  {
    if Apart(s) {
      forall i, j | 0 <= i < j < |s| ensures s[i].start < s[j].start { ApartIsStrict(s, i, j); }
      SortedOneWay(s, t);
    }
    if Apart(t) {
      forall i, j | 0 <= i < j < |t| ensures t[i].start < t[j].start { ApartIsStrict(t, i, j); }
      SortedOneWay(t, s);
    }
  }

  predicate AllLocated(content: Bytes, rs: seq<Replacement>) {
    forall r :: r in rs ==> Locate(content, r).Some?
  }

  /** The spans of replacements that are all located. */
  function Spans(content: Bytes, rs: seq<Replacement>): seq<Span>
    requires AllLocated(content, rs)
  {
    if |rs| == 0 then [] else [Locate(content, rs[0]).value] + Spans(content, rs[1..])
  }

  lemma {:induction false} LocateAllIsSpans(content: Bytes, rs: seq<Replacement>)
    requires LocateAll(content, rs).Some?
    ensures AllLocated(content, rs) && LocateAll(content, rs).value == Spans(content, rs)
  {
    if |rs| > 0 { LocateAllIsSpans(content, rs[1..]); }
  }

  lemma WithoutFirst<T>(s: seq<T>, k: nat)
    requires k < |s|
    ensures k == 0 ==> Without(s, k) == s[1..]
    ensures k > 0 ==> Without(s, k) == [s[0]] + Without(s[1..], k - 1)
  {}

  lemma SpansOf(content: Bytes, r: Replacement, rs: seq<Replacement>)
    requires AllLocated(content, [r] + rs)
    ensures AllLocated(content, rs) && Spans(content, [r] + rs) == [Locate(content, r).value] + Spans(content, rs)
  {
    assert r in [r] + rs && forall x :: x in rs ==> x in [r] + rs;
    assert ([r] + rs)[1..] == rs;
  }

  lemma BagPlus<T>(x: T, s: seq<T>)
    ensures multiset([x] + s) == multiset{x} + multiset(s)
  {}

  lemma BagWithout<T>(first: T, more: seq<T>, less: seq<T>, x: T)
    requires multiset(more) == multiset(less) + multiset{x}
    ensures multiset([first] + more) == multiset([first] + less) + multiset{x}
  {
    BagPlus(first, more);
    BagPlus(first, less);
  }

  lemma WithoutIsLocated(content: Bytes, rs: seq<Replacement>, k: nat)
    requires AllLocated(content, rs) && k < |rs|
    ensures AllLocated(content, Without(rs, k))
  {}

  lemma SpansWithoutLater(content: Bytes, rs: seq<Replacement>, k: nat)
    requires AllLocated(content, rs) && 0 < k < |rs|
    ensures AllLocated(content, Without(rs, k)) && AllLocated(content, Without(rs[1..], k - 1))
    ensures Spans(content, Without(rs, k)) == [Locate(content, rs[0]).value] + Spans(content, Without(rs[1..], k - 1))
  {
    WithoutFirst(rs, k);
    WithoutIsLocated(content, rs, k);
    SpansOf(content, rs[0], Without(rs[1..], k - 1));
  }

  /** The spans of the replacements but one are the spans but one. */
  ghost predicate LosesOne(content: Bytes, rs: seq<Replacement>, k: nat) {
    && k < |rs| && AllLocated(content, rs) && AllLocated(content, Without(rs, k))
    && multiset(Spans(content, rs)) == multiset(Spans(content, Without(rs, k))) + multiset{Locate(content, rs[k]).value}
  }

  lemma LosesFirst(content: Bytes, rs: seq<Replacement>)
    requires AllLocated(content, rs) && |rs| > 0
    ensures LosesOne(content, rs, 0)
  {
    WithoutFirst(rs, 0);
    BagPlus(Locate(content, rs[0]).value, Spans(content, rs[1..]));
  }

  lemma LosesLater(content: Bytes, rs: seq<Replacement>, k: nat)
    requires AllLocated(content, rs) && 0 < k < |rs| && LosesOne(content, rs[1..], k - 1)
    ensures LosesOne(content, rs, k)
  {
    SpansWithoutLater(content, rs, k);
    BagWithout(Locate(content, rs[0]).value, Spans(content, rs[1..]), Spans(content, Without(rs[1..], k - 1)),
               Locate(content, rs[k]).value);
  }

  lemma {:induction false} SpansWithout(content: Bytes, rs: seq<Replacement>, k: nat)
    requires AllLocated(content, rs) && k < |rs|
    ensures LosesOne(content, rs, k)
  {
    if k == 0 {
      LosesFirst(content, rs);
    } else {
      SpansWithout(content, rs[1..], k - 1);
      LosesLater(content, rs, k);
    }
  }

  lemma SameRest<T>(a: seq<T>, b: seq<T>, k: nat)
    requires multiset(a) == multiset(b) && |a| > 0 && k < |b| && b[k] == a[0]
    ensures multiset(a[1..]) == multiset(Without(b, k))
  {
    assert a == [a[0]] + a[1..];
  }

  lemma {:induction false} SpansPermuted(content: Bytes, a: seq<Replacement>, b: seq<Replacement>)
    requires multiset(a) == multiset(b) && AllLocated(content, a) && AllLocated(content, b)
    ensures multiset(Spans(content, a)) == multiset(Spans(content, b))
    decreases |a|
  {
    if |a| == 0 {
      assert |multiset(b)| == 0;
    } else {
      assert a[0] in multiset(b);
      var k :| 0 <= k < |b| && b[k] == a[0];
      SpansWithout(content, b, k);
      SameRest(a, b, k);
      SpansPermuted(content, a[1..], Without(b, k));
    }
  }

  lemma SameFailures(content: Bytes, a: seq<Replacement>, b: seq<Replacement>)
    requires multiset(a) == multiset(b) && LocateAll(content, a).None?
    ensures LocateAll(content, b).None?
  {
    var k :| 0 <= k < |a| && Locate(content, a[k]).None?;
    assert a[k] in multiset(b);
    var j :| 0 <= j < |b| && b[j] == a[k];
  }

  // ---------------------------------------------------------------- the whole edit

  predicate EditText(text: Bytes) { Utf8.Valid(text) && 0 !in text }

  predicate GoodReplacement(r: Replacement) {
    && r.oldText != [] && |r.oldText| <= MAX_WRITE && |r.newText| <= MAX_WRITE
    && EditText(r.oldText) && EditText(r.newText)
  }

  predicate GoodRequest(rs: seq<Replacement>) {
    0 < |rs| <= MAX_REPLACEMENTS && forall k :: 0 <= k < |rs| ==> GoodReplacement(rs[k])
  }

  /** What an edit makes of a file's content. */
  function EditAll(content: Bytes, rs: seq<Replacement>): Outcome {
    if !GoodRequest(rs) then Invalid
    else if !EditText(content) then Unsupported
    else match LocateAll(content, rs)
         case None => Conflict
         case Some(found) =>
           var spans := SortSpans(found);
           if !Apart(spans) then Conflict
           else
             LocatedFits(content, rs);
             var edited := Splice(content, spans, 0);
             if |edited| > MAX_WRITE then TooLarge else Edited(edited)
  }

  lemma LocatedWithin(content: Bytes, rs: seq<Replacement>)
    requires LocateAll(content, rs).Some?
    ensures Within(content, SortSpans(LocateAll(content, rs).value))
    ensures (forall k :: 0 <= k < |rs| ==> rs[k].oldText != []) ==> Nonempty(SortSpans(LocateAll(content, rs).value))
  {
    var found := LocateAll(content, rs).value;
    var spans := SortSpans(found);
    SortSorts(found);
    forall k | 0 <= k < |spans|
      ensures spans[k].start <= spans[k].end <= |content|
      ensures (forall k :: 0 <= k < |rs| ==> rs[k].oldText != []) ==> spans[k].start < spans[k].end
    {
      assert spans[k] in multiset(found);
      var j :| 0 <= j < |found| && found[j] == spans[k];
      assert Locate(content, rs[j]) == Some(found[j]);
    }
  }

  lemma LocatedFits(content: Bytes, rs: seq<Replacement>)
    requires LocateAll(content, rs).Some? && Apart(SortSpans(LocateAll(content, rs).value))
    ensures Fits(content, SortSpans(LocateAll(content, rs).value), 0)
  {
    LocatedWithin(content, rs);
    ApartFits(content, SortSpans(LocateAll(content, rs).value), 0);
  }

  lemma PermutedIsGood(a: seq<Replacement>, b: seq<Replacement>)
    requires multiset(a) == multiset(b) && GoodRequest(a)
    ensures GoodRequest(b)
  {
    assert |multiset(a)| == |multiset(b)|;
    forall k | 0 <= k < |b| ensures GoodReplacement(b[k]) { assert b[k] in multiset(a); }
  }

  /** Permuting the replacements changes neither the outcome nor the error. */
  lemma EditIgnoresOrder(content: Bytes, a: seq<Replacement>, b: seq<Replacement>)
    requires multiset(a) == multiset(b)
    ensures EditAll(content, a) == EditAll(content, b)
  {
    if !GoodRequest(a) {
      if GoodRequest(b) { PermutedIsGood(b, a); }
    } else {
      PermutedIsGood(a, b);
      if LocateAll(content, a).None? {
        SameFailures(content, a, b);
      } else if LocateAll(content, b).None? {
        SameFailures(content, b, a);
      } else {
        SortedPermuted(content, a, b);
      }
    }
  }

  lemma SortedPermuted(content: Bytes, a: seq<Replacement>, b: seq<Replacement>)
    requires multiset(a) == multiset(b) && GoodRequest(a) && GoodRequest(b)
    requires LocateAll(content, a).Some? && LocateAll(content, b).Some?
    ensures var s, t := SortSpans(LocateAll(content, a).value), SortSpans(LocateAll(content, b).value);
            (Apart(s) <==> Apart(t)) && (Apart(s) ==> s == t)
  {
    LocateAllIsSpans(content, a);
    LocateAllIsSpans(content, b);
    SpansPermuted(content, a, b);
    LocatedWithin(content, a);
    LocatedWithin(content, b);
    SortSorts(LocateAll(content, a).value);
    SortSorts(LocateAll(content, b).value);
    AnySortWillDo(SortSpans(LocateAll(content, a).value), SortSpans(LocateAll(content, b).value));
  }

  // ---------------------------------------------------------------- what an edit gives

  /** The span covers a nonempty text and is replaced by a text. */
  predicate Covers(content: Bytes, s: Span) {
    s.start < s.end <= |content| && EditText(content[s.start..s.end]) && EditText(s.text)
  }

  ghost predicate CoverText(content: Bytes, spans: seq<Span>) {
    forall s :: s in spans ==> Covers(content, s)
  }

  lemma TextAround(content: Bytes, s: Span, from: nat)
    requires Covers(content, s) && from <= s.start && EditText(content[from..])
    ensures EditText(content[from..s.start]) && EditText(content[s.end..])
  {
    var word, p := content[s.start..s.end], s.start - from;
    assert content[from..][p..p + |word|] == word;
    Utf8.WordSplitsText(content[from..], word, p);
    assert content[from..][..p] == content[from..s.start] && content[from..][p + |word|..] == content[s.end..];
  }

  lemma TextsJoined(a: Bytes, b: Bytes, c: Bytes)
    requires EditText(a) && EditText(b) && EditText(c)
    ensures EditText(a + b + c)
  {
    Utf8.Joined(a, b);
    Utf8.Joined(a + b, c);
  }

  lemma {:induction false} SpliceKeepsText(content: Bytes, spans: seq<Span>, from: nat)
    requires CoverText(content, spans) && Fits(content, spans, from) && EditText(content[from..])
    ensures EditText(Splice(content, spans, from))
    decreases |spans|
  {
    if |spans| > 0 {
      TextAround(content, spans[0], from);
      SpliceKeepsText(content, spans[1..], spans[0].end);
      TextsJoined(content[from..spans[0].start], spans[0].text, Splice(content, spans[1..], spans[0].end));
    }
  }

  lemma LocatedCovers(content: Bytes, r: Replacement)
    requires GoodReplacement(r) && Locate(content, r).Some?
    ensures Covers(content, Locate(content, r).value)
  {}

  lemma LocatedCoverText(content: Bytes, rs: seq<Replacement>)
    requires GoodRequest(rs) && LocateAll(content, rs).Some?
    ensures CoverText(content, SortSpans(LocateAll(content, rs).value))
  {
    var found := LocateAll(content, rs).value;
    SortSorts(found);
    forall s | s in SortSpans(found) ensures Covers(content, s) {
      assert s in multiset(found);
      var j :| 0 <= j < |found| && found[j] == s;
      LocatedCovers(content, rs[j]);
    }
  }

  /** A successful edit replaces the located spans one at a time, gives valid text again, and changes the
      length by the sum of the differences; putting the old texts back restores the file. */
  lemma EditMeans(content: Bytes, rs: seq<Replacement>)
    requires EditAll(content, rs).Edited?
    ensures var spans, r := SortSpans(LocateAll(content, rs).value), EditAll(content, rs).content;
            && Fits(content, spans, 0) && r == ReplaceLastFirst(content, spans, 0)
            && |r| == |content| + Growth(spans) && |r| <= MAX_WRITE && EditText(r)
            && Fits(r, Undo(content, spans, 0, 0), 0)
            && ReplaceLastFirst(r, Undo(content, spans, 0, 0), 0) == content
  {
    var spans := SortSpans(LocateAll(content, rs).value);
    LocatedFits(content, rs);
    LocatedCoverText(content, rs);
    SpliceIsSequential(content, spans);
    SpliceLength(content, spans, 0);
    assert content[0..] == content;
    SpliceKeepsText(content, spans, 0);
    UndoRestores(content, spans);
    SpliceIsSequential(Splice(content, spans, 0), Undo(content, spans, 0, 0));
  }

  // ---------------------------------------------------------------- when an edit fails, and how

  /** The old texts of two replacements are found where they overlap. */
  ghost predicate Overlap(content: Bytes, a: Replacement, b: Replacement) {
    exists p: nat, q: nat :: Located(content, a.oldText, p) && Located(content, b.oldText, q)
                             && p < q + |b.oldText| && q < p + |a.oldText|
  }

  ghost predicate Missed(content: Bytes, r: Replacement) { forall p: nat :: !Located(content, r.oldText, p) }

  lemma LocateIff(content: Bytes, r: Replacement)
    ensures Locate(content, r).None? <==> Missed(content, r)
  {
    if !Missed(content, r) {
      var p: nat :| Located(content, r.oldText, p);
      LocatedIsFound(content, r, p);
    }
  }

  lemma OverlapIff(content: Bytes, a: Replacement, b: Replacement)
    requires Locate(content, a).Some? && Locate(content, b).Some?
    ensures var s, t := Locate(content, a).value, Locate(content, b).value;
            Overlap(content, a, b) <==> s.start < t.end && t.start < s.end
  {
    var s, t := Locate(content, a).value, Locate(content, b).value;
    if p: nat, q: nat :| Located(content, a.oldText, p) && Located(content, b.oldText, q)
                         && p < q + |b.oldText| && q < p + |a.oldText| {
      LocatedIsFound(content, a, p);
      LocatedIsFound(content, b, q);
    }
  }

  lemma {:induction false} ApartFar(spans: seq<Span>, i: nat, j: nat)
    requires Apart(spans) && Nonempty(spans) && i < j < |spans|
    ensures spans[i].end <= spans[j].start
  {
    if i + 1 < j { ApartFar(spans, i, j - 1); }
  }

  /** Sorted spans are apart exactly if no two of them, in whatever order they were found, overlap. */
  lemma ApartIff(found: seq<Span>, sorted: seq<Span>)
    requires Sorted(sorted) && multiset(sorted) == multiset(found) && Nonempty(sorted)
    ensures !Apart(sorted) <==> exists i, j :: 0 <= i < |found| && 0 <= j < |found| && i != j
                                               && found[i].start < found[j].end && found[j].start < found[i].end
  {
    if !Apart(sorted) {
      var k :| 1 <= k < |sorted| && sorted[k - 1].end > sorted[k].start;
      var i, j := TwoPlaces(sorted, found, k - 1, k);
      assert found[i].start < found[j].end && found[j].start < found[i].end;
    }
    if i, j :| 0 <= i < |found| && 0 <= j < |found| && i != j
               && found[i].start < found[j].end && found[j].start < found[i].end {
      var x, y := TwoPlaces(found, sorted, i, j);
      if Apart(sorted) { ApartFar(sorted, if x < y then x else y, if x < y then y else x); }
    }
  }

  /** The replacements cannot be made together: an old text is not found, or two are found where they overlap. */
  ghost predicate Clash(content: Bytes, rs: seq<Replacement>) {
    || (exists i :: 0 <= i < |rs| && Missed(content, rs[i]))
    || (exists i, j :: 0 <= i < |rs| && 0 <= j < |rs| && i != j && Overlap(content, rs[i], rs[j]))
  }

  lemma ClashIff(content: Bytes, rs: seq<Replacement>)
    requires forall k :: 0 <= k < |rs| ==> rs[k].oldText != []
    ensures Clash(content, rs)
            <==> LocateAll(content, rs).None? || !Apart(SortSpans(LocateAll(content, rs).value))
  {
    forall i | 0 <= i < |rs| ensures Locate(content, rs[i]).None? <==> Missed(content, rs[i]) {
      LocateIff(content, rs[i]);
    }
    if LocateAll(content, rs).Some? { FoundClash(content, rs); }
  }

  lemma FoundClash(content: Bytes, rs: seq<Replacement>)
    requires LocateAll(content, rs).Some? && forall k :: 0 <= k < |rs| ==> rs[k].oldText != []
    ensures (exists i, j :: 0 <= i < |rs| && 0 <= j < |rs| && i != j && Overlap(content, rs[i], rs[j]))
            <==> !Apart(SortSpans(LocateAll(content, rs).value))
  {
    var found := LocateAll(content, rs).value;
    LocatedWithin(content, rs);
    SortSorts(found);
    ApartIff(found, SortSpans(found));
    forall i, j | 0 <= i < |rs| && 0 <= j < |rs|
      ensures Overlap(content, rs[i], rs[j]) <==> found[i].start < found[j].end && found[j].start < found[i].end {
      OverlapIff(content, rs[i], rs[j]);
    }
  }

  /** By how much the replacements make a text longer. */
  function Lengthening(rs: seq<Replacement>): int {
    if |rs| == 0 then 0 else |rs[0].newText| - |rs[0].oldText| + Lengthening(rs[1..])
  }

  lemma {:induction false} GrowthOfSpans(content: Bytes, rs: seq<Replacement>)
    requires AllLocated(content, rs)
    ensures Growth(Spans(content, rs)) == Lengthening(rs)
  {
    if |rs| > 0 { GrowthOfSpans(content, rs[1..]); }
  }

  lemma {:induction false} GrowthWithout(spans: seq<Span>, k: nat)
    requires k < |spans|
    ensures Growth(spans) == Growth(Without(spans, k)) + |spans[k].text| - (spans[k].end - spans[k].start)
  {
    WithoutFirst(spans, k);
    if k > 0 {
      GrowthWithout(spans[1..], k - 1);
      assert Without(spans, k)[1..] == Without(spans[1..], k - 1);
    }
  }

  lemma {:induction false} GrowthPermuted(a: seq<Span>, b: seq<Span>)
    requires multiset(a) == multiset(b)
    ensures Growth(a) == Growth(b)
    decreases |a|
  {
    if |a| == 0 {
      assert |multiset(b)| == 0;
    } else {
      assert a[0] in multiset(b);
      var k :| 0 <= k < |b| && b[k] == a[0];
      SameRest(a, b, k);
      GrowthPermuted(a[1..], Without(b, k));
      GrowthWithout(b, k);
    }
  }

  lemma EditedLength(content: Bytes, rs: seq<Replacement>)
    requires LocateAll(content, rs).Some? && Apart(SortSpans(LocateAll(content, rs).value))
    ensures var spans := SortSpans(LocateAll(content, rs).value);
            Fits(content, spans, 0) && |Splice(content, spans, 0)| == |content| + Lengthening(rs)
  {
    var found := LocateAll(content, rs).value;
    LocatedFits(content, rs);
    SpliceLength(content, SortSpans(found), 0);
    SortSorts(found);
    LocateAllIsSpans(content, rs);
    GrowthPermuted(SortSpans(found), found);
    GrowthOfSpans(content, rs);
  }

  predicate Text(b: Bytes) { Utf8.Valid(b) && forall k :: 0 <= k < |b| ==> b[k] != 0 }

  /** At most 256 replacements, at least one, no old text empty, and all of them texts of at most 16 MiB. */
  predicate WellFormed(rs: seq<Replacement>) {
    && 1 <= |rs| <= 256
    && forall r :: r in rs ==> && 1 <= |r.oldText| <= 16777216 && |r.newText| <= 16777216
                               && Text(r.oldText) && Text(r.newText)
  }

  lemma GoodIff(rs: seq<Replacement>)
    ensures GoodRequest(rs) <==> WellFormed(rs)
  {}

  lemma OutcomeOfGood(content: Bytes, rs: seq<Replacement>)
    requires GoodRequest(rs) && EditText(content)
    ensures EditAll(content, rs) == Conflict <==> Clash(content, rs)
    ensures !Clash(content, rs) ==>
              match EditAll(content, rs)
              case TooLarge => |content| + Lengthening(rs) > 16777216
              case Edited(edited) => |edited| == |content| + Lengthening(rs) <= 16777216
              case _ => false
  {
    ClashIff(content, rs);
    if !Clash(content, rs) { EditedLength(content, rs); }
  }

  /** Which edits fail, and how: a request that is not well-formed; a file that is no text; an old text that is not
      found, or two that are found where they overlap; a result above 16 MiB. All others succeed. */
  lemma EditOutcome(content: Bytes, rs: seq<Replacement>)
    ensures match EditAll(content, rs)
            case Invalid => !WellFormed(rs)
            case Unsupported => WellFormed(rs) && !Text(content)
            case Conflict => WellFormed(rs) && Text(content) && Clash(content, rs)
            case TooLarge =>
              WellFormed(rs) && Text(content) && !Clash(content, rs) && |content| + Lengthening(rs) > 16777216
            case Edited(edited) =>
              WellFormed(rs) && Text(content) && !Clash(content, rs)
              && |edited| == |content| + Lengthening(rs) <= 16777216
  {
    GoodIff(rs);
    assert Text(content) <==> EditText(content);
    if GoodRequest(rs) && EditText(content) { OutcomeOfGood(content, rs); }
  }

  /** slices.SortFunc: some sorted permutation. */
  method SortFunc(spans: seq<Span>) returns (sorted: seq<Span>)
    ensures Sorted(sorted) && multiset(sorted) == multiset(spans)
  {
    sorted := Sort(spans, StartLe);
    OrderedIsSorted(sorted);
  }

  lemma Assoc(a: Bytes, b: Bytes, c: Bytes, d: Bytes)
    ensures a + (b + c + d) == (a + b + c) + d
  {}

  /** The loop that writes the spans into a buffer, checking the size as it grows. */
  method SpliceInto(content: Bytes, spans: seq<Span>) returns (o: Outcome)
    requires Fits(content, spans, 0)
    ensures o == if |Splice(content, spans, 0)| > MAX_WRITE then TooLarge else Edited(Splice(content, spans, 0))
  {
    var updated: Bytes := [];
    var previous: nat := 0;
    for i := 0 to |spans|
      invariant Fits(content, spans[i..], previous)
      invariant updated + Splice(content, spans[i..], previous) == Splice(content, spans, 0)
    {
      ghost var rest := Splice(content, spans[i + 1..], spans[i].end);
      Assoc(updated, content[previous..spans[i].start], spans[i].text, rest);
      assert spans[i..][1..] == spans[i + 1..];
      updated := updated + content[previous..spans[i].start] + spans[i].text;
      previous := spans[i].end;
      if |updated| > MAX_WRITE {
        return TooLarge;
      }
    }
    updated := updated + content[previous..];
    if |updated| > MAX_WRITE {
      return TooLarge;
    }
    return Edited(updated);
  }

  /** Find one old text, twice looked for. */
  method FindSpan(content: Bytes, r: Replacement) returns (s: Option<Span>)
    ensures s == Locate(content, r)
  {
    var position := IndexFrom(content, r.oldText, 0);
    if position < 0 {
      return None;
    }
    var end := position + |r.oldText|;
    if IndexFrom(content[end..], r.oldText, 0) >= 0 {
      return None;
    }
    return Some(Span(position, end, r.newText));
  }

  /** Find every old text; None is the conflict. */
  method FindSpans(content: Bytes, rs: seq<Replacement>) returns (found: Option<seq<Span>>)
    ensures found == LocateAll(content, rs)
  {
    var spans: seq<Span> := [];
    for i := 0 to |rs|
      invariant |spans| == i && forall k :: 0 <= k < i ==> Locate(content, rs[k]) == Some(spans[k])
    {
      var s := FindSpan(content, rs[i]);
      if s.None? {
        return None;
      }
      spans := spans + [s.value];
    }
    found := Some(spans);
    assert LocateAll(content, rs).Some? && LocateAll(content, rs).value == spans;
  }

  method CheckApart(spans: seq<Span>) returns (ok: bool)
    ensures ok == Apart(spans)
  {
    var index := 1;
    while index < |spans|
      invariant forall k :: 1 <= k < index && k < |spans| ==> spans[k - 1].end <= spans[k].start
    {
      if spans[index].start < spans[index - 1].end {
        return false;
      }
      index := index + 1;
    }
    return true;
  }

  method CheckRequest(rs: seq<Replacement>) returns (ok: bool)
    ensures ok == GoodRequest(rs)
  {
    if |rs| == 0 || |rs| > MAX_REPLACEMENTS {
      return false;
    }
    for i := 0 to |rs|
      invariant forall k :: 0 <= k < i ==> GoodReplacement(rs[k])
    {
      if !GoodReplacement(rs[i]) {
        return false;
      }
    }
    return true;
  }

  /** EditFileAll between reading the content and writing it back. */
  method EditFileAll(content: Bytes, rs: seq<Replacement>) returns (o: Outcome)
    ensures o == EditAll(content, rs)
  {
    var good := CheckRequest(rs);
    if !good {
      return Invalid;
    }
    if !EditText(content) {
      return Unsupported;
    }
    var found := FindSpans(content, rs);
    if found.None? {
      return Conflict;
    }
    var spans := SortFunc(found.value);
    SortedAsSpecified(content, rs, spans);
    var apart := CheckApart(spans);
    if !apart {
      return Conflict;
    }
    LocatedFits(content, rs);
    o := SpliceInto(content, spans);
  }

  lemma SortedAsSpecified(content: Bytes, rs: seq<Replacement>, spans: seq<Span>)
    requires GoodRequest(rs) && LocateAll(content, rs).Some?
    requires Sorted(spans) && multiset(spans) == multiset(LocateAll(content, rs).value)
    ensures Apart(spans) <==> Apart(SortSpans(LocateAll(content, rs).value))
    ensures Apart(spans) ==> spans == SortSpans(LocateAll(content, rs).value)
  {
    var t := SortSpans(LocateAll(content, rs).value);
    LocatedWithin(content, rs);
    SortSorts(LocateAll(content, rs).value);
    forall k | 0 <= k < |spans| ensures spans[k].start < spans[k].end {
      assert spans[k] in multiset(t);
      var j :| 0 <= j < |t| && t[j] == spans[k];
    }
    AnySortWillDo(spans, t);
  }

  /** The search accepts word in a text in which it does not occur once. */
  ghost predicate AcceptedWrongly(content: Bytes, word: Bytes) {
    EditText(content) && Locate(content, Replacement(word, [])).Some? && !OccursOnce(content, word)
  }

  /** The texts the search may accept wrongly, in some text: exactly those that overlap themselves. */
  lemma SearchIsExactIff(word: Bytes)
    requires word != [] && EditText(word)
    ensures Bordered(word)
            <==> exists content :: AcceptedWrongly(content, word)
  {
    var r := Replacement(word, []);
    if Bordered(word) {
      var b: nat :| Border(word, b);
      var content := BorderedIsAcceptedTwice(r, b);
      assert AcceptedWrongly(content, word);
    } else {
      forall content ensures Locate(content, r).Some? ==> OccursOnce(content, word) {
        BorderlessIsUnique(content, r);
      }
    }
  }
}

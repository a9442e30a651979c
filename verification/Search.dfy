/** Searching on the helper within limits and a byte budget, and the client's checks of what it finds. */
module Search {
  import opened Bytes
  import opened Paths
  import opened Sequences
  import Utf8
  import FilePages

  const MAX_CANDIDATES := 100000
  const MAX_RESULTS := 2000
  const MAX_RESPONSE := 131072
  const MAX_TEXT := 16384
  const MAX_FILE := 16777216
  const MAX_TOTAL_READ := 1073741824

  // ---------------------------------------------------------------- order

  /** strings.Compare(a, b) <= 0. */
  predicate Le(a: Bytes, b: Bytes)
    decreases |a|
  {
    |a| == 0 || (|b| > 0 && (a[0] < b[0] || (a[0] == b[0] && Le(a[1..], b[1..]))))
  }

  lemma {:induction false} LeTotal(a: Bytes, b: Bytes)
    ensures Le(a, b) || Le(b, a)
    decreases |a|
  {
    if |a| > 0 && |b| > 0 && a[0] == b[0] { LeTotal(a[1..], b[1..]); }
  }

  lemma {:induction false} LeAntisymmetric(a: Bytes, b: Bytes)
    requires Le(a, b) && Le(b, a)
    ensures a == b
    decreases |a|
  {
    if |a| > 0 {
      LeAntisymmetric(a[1..], b[1..]);
      assert a == [a[0]] + a[1..] && b == [b[0]] + b[1..];
    }
  }

  lemma {:induction false} LeTransitive(a: Bytes, b: Bytes, c: Bytes)
    requires Le(a, b) && Le(b, c)
    ensures Le(a, c)
    decreases |a|
  {
    if |a| > 0 && a[0] == b[0] == c[0] { LeTransitive(a[1..], b[1..], c[1..]); }
  }

  // ---------------------------------------------------------------- enumeration

  /** One name of Git's listing, or one entry of the directory walk below the search path. */
  datatype Entry = Entry(path: Bytes, regular: bool, directory: bool)

  datatype Listing = Git(names: seq<Entry>) | Walk(entries: seq<Entry>)

  /** What the enumeration does next: count a skipped path, hand a candidate to the search, or hit its limit. */
  datatype Step = Skip | Visit(path: Bytes) | Limit

  function GitSteps(plain: Bytes -> bool, root: Bytes, names: seq<Entry>, index: nat): seq<Step> {
    if |names| == 0 then []
    else if !ValidRelative(plain, names[0].path, false) then GitSteps(plain, root, names[1..], index)
    else if index >= MAX_CANDIDATES then [Limit]
    else (if !Within(root, names[0].path) then [] else if !names[0].regular then [Skip] else [Visit(names[0].path)])
         + GitSteps(plain, root, names[1..], index + 1)
  }

  function Unsupported(plain: Bytes -> bool, names: seq<Entry>): nat {
    if |names| == 0 then 0
    else (if ValidRelative(plain, names[0].path, false) then 0 else 1) + Unsupported(plain, names[1..])
  }

  function WalkSteps(plain: Bytes -> bool, entries: seq<Entry>, seen: nat): seq<Step> {
    if |entries| == 0 then []
    else if !ValidRelative(plain, entries[0].path, false) then [Skip] + WalkSteps(plain, entries[1..], seen)
    else if entries[0].directory then WalkSteps(plain, entries[1..], seen)
    else if !entries[0].regular then [Skip] + WalkSteps(plain, entries[1..], seen)
    else if seen + 1 > MAX_CANDIDATES then [Limit]
    else [Visit(entries[0].path)] + WalkSteps(plain, entries[1..], seen + 1)
  }

  function Steps(plain: Bytes -> bool, root: Bytes, l: Listing): seq<Step> {
    match l
    case Git(names) => GitSteps(plain, root, names, 0)
    case Walk(entries) => WalkSteps(plain, entries, 0)
  }

  function Entries(l: Listing): seq<Entry> { match l case Git(names) => names case Walk(entries) => entries }

  /** A walk stays below the search path. */
  ghost predicate ProperListing(root: Bytes, l: Listing) {
    l.Walk? ==> forall k :: 0 <= k < |l.entries| ==> Within(root, l.entries[k].path)
  }

  /** The candidates, in the order in which they are visited. */
  function Visited(steps: seq<Step>): seq<Bytes> {
    if |steps| == 0 then [] else (if steps[0].Visit? then [steps[0].path] else []) + Visited(steps[1..])
  }

  lemma {:induction false} VisitedJoins(a: seq<Step>, b: seq<Step>)
    ensures Visited(a + b) == Visited(a) + Visited(b)
  {
    if |a| == 0 {
      assert a + b == b;
    } else {
      var mine := if a[0].Visit? then [a[0].path] else [];
      VisitedJoins(a[1..], b);
      assert (a + b)[0] == a[0] && (a + b)[1..] == a[1..] + b;
      assert mine + (Visited(a[1..]) + Visited(b)) == mine + Visited(a[1..]) + Visited(b);
    }
  }

  /** A candidate may be shown to the client: a valid path within the search path. */
  predicate Shown(plain: Bytes -> bool, root: Bytes, path: Bytes) {
    ValidRelative(plain, path, false) && Within(root, path)
  }

  predicate Candidate(plain: Bytes -> bool, root: Bytes, git: bool, e: Entry) {
    ValidRelative(plain, e.path, false) && e.regular && if git then Within(root, e.path) else !e.directory
  }

  /** The paths of the entries that are candidates, however many there are. */
  function Candidates(plain: Bytes -> bool, root: Bytes, git: bool, es: seq<Entry>): seq<Bytes> {
    if |es| == 0 then []
    else (if Candidate(plain, root, git, es[0]) then [es[0].path] else []) + Candidates(plain, root, git, es[1..])
  }

  /** No candidate that passes the test is listed twice. */
  ghost predicate NoneListedTwice(plain: Bytes -> bool, root: Bytes, l: Listing, test: Bytes -> bool) {
    NoneTwiceIn(plain, root, l.Git?, Entries(l), test)
  }

  predicate TwoCandidates(plain: Bytes -> bool, root: Bytes, git: bool, a: Entry, b: Entry) {
    Candidate(plain, root, git, a) && Candidate(plain, root, git, b)
  }

  ghost predicate NoneTwiceIn(plain: Bytes -> bool, root: Bytes, git: bool, es: seq<Entry>, test: Bytes -> bool) {
    forall i, j ::
      0 <= i < j < |es| && TwoCandidates(plain, root, git, es[i], es[j]) && test(es[i].path) ==>
        es[i].path != es[j].path
  }

  lemma OneVisited(first: seq<Step>)
    requires |first| <= 1
    ensures Visited(first) == if |first| == 1 && first[0].Visit? then [first[0].path] else []
  {
    if |first| == 1 { assert first[1..] == []; }
  }

  /** a is the front of b, and all of it unless the enumeration came to its limit. */
  ghost predicate FrontOf(steps: seq<Step>, b: seq<Bytes>) {
    Visited(steps) <= b && (Limit !in steps ==> Visited(steps) == b)
  }

  lemma FrontGrows(first: seq<Step>, rest: seq<Step>, b: seq<Bytes>)
    requires |first| <= 1 && FrontOf(rest, b) && Limit !in first
    ensures FrontOf(first + rest, Visited(first) + b)
  {
    VisitedJoins(first, rest);
    assert forall x :: x in first + rest <==> x in first || x in rest;
  }

  lemma {:induction false} GitVisits(plain: Bytes -> bool, root: Bytes, names: seq<Entry>, index: nat)
    ensures FrontOf(GitSteps(plain, root, names, index), Candidates(plain, root, true, names))
  {
    if |names| == 0 {
    } else if !ValidRelative(plain, names[0].path, false) {
      GitVisits(plain, root, names[1..], index);
      assert [] + Candidates(plain, root, true, names[1..]) == Candidates(plain, root, true, names[1..]);
    } else if index < MAX_CANDIDATES {
      GitVisits(plain, root, names[1..], index + 1);
      var e := names[0];
      var first := if !Within(root, e.path) then [] else if !e.regular then [Skip] else [Visit(e.path)];
      OneVisited(first);
      FrontGrows(first, GitSteps(plain, root, names[1..], index + 1), Candidates(plain, root, true, names[1..]));
    } else {
      OneVisited([Limit]);
    }
  }

  lemma {:induction false} WalkVisits(plain: Bytes -> bool, root: Bytes, entries: seq<Entry>, seen: nat)
    ensures FrontOf(WalkSteps(plain, entries, seen), Candidates(plain, root, false, entries))
  {
    if |entries| > 0 {
      var e := entries[0];
      var valid := ValidRelative(plain, e.path, false);
      var visit := valid && !e.directory && e.regular;
      if visit && seen + 1 > MAX_CANDIDATES {
        OneVisited([Limit]);
      } else {
        var first := if visit then [Visit(e.path)] else if valid && e.directory then [] else [Skip];
        var next := if visit then seen + 1 else seen;
        WalkVisits(plain, root, entries[1..], next);
        OneVisited(first);
        FrontGrows(first, WalkSteps(plain, entries[1..], next), Candidates(plain, root, false, entries[1..]));
        assert WalkSteps(plain, entries, seen) == first + WalkSteps(plain, entries[1..], next);
      }
    }
  }

  lemma {:induction false} CandidatesAreShown(plain: Bytes -> bool, root: Bytes, git: bool, es: seq<Entry>)
    requires git || forall k :: 0 <= k < |es| ==> Within(root, es[k].path)
    ensures forall p :: p in Candidates(plain, root, git, es) ==> Shown(plain, root, p)
  {
    if |es| > 0 { CandidatesAreShown(plain, root, git, es[1..]); }
  }

  /** The enumeration hands over the candidates of the listing in their order, valid paths within the search path,
      and all of them unless it comes to its limit. */
  lemma StepsAreCandidates(plain: Bytes -> bool, root: Bytes, l: Listing)
    requires ProperListing(root, l)
    ensures FrontOf(Steps(plain, root, l), Candidates(plain, root, l.Git?, Entries(l)))
    ensures forall p :: p in Visited(Steps(plain, root, l)) ==> Shown(plain, root, p)
  {
    match l {
      case Git(names) => GitVisits(plain, root, names, 0);
      case Walk(entries) => WalkVisits(plain, root, entries, 0);
    }
    CandidatesAreShown(plain, root, l.Git?, Entries(l));
  }

  // ---------------------------------------------------------------- what is skipped, and where the enumeration ends

  function Skips(steps: seq<Step>): nat {
    if |steps| == 0 then 0 else Skips(steps[..|steps| - 1]) + if steps[|steps| - 1] == Skip then 1 else 0
  }

  lemma {:induction false} SkipsJoin(a: seq<Step>, b: seq<Step>)
    ensures Skips(a + b) == Skips(a) + Skips(b)
    decreases |b|
  {
    if |b| == 0 {
      assert a + b == a;
    } else {
      assert (a + b)[..|a + b| - 1] == a + b[..|b| - 1];
      SkipsJoin(a, b[..|b| - 1]);
    }
  }

  lemma SkipsFirst(first: seq<Step>, rest: seq<Step>)
    requires |first| <= 1
    ensures Skips(first + rest) == Skips(rest) + if first == [Skip] then 1 else 0
  {
    SkipsJoin(first, rest);
    if |first| == 1 { assert first[..0] == []; }
  }

  function Count(es: seq<Entry>, test: Entry -> bool): nat {
    if |es| == 0 then 0 else (if test(es[0]) then 1 else 0) + Count(es[1..], test)
  }

  /** An entry that the enumeration counts towards its limit: Git counts every valid path, the walk only files. */
  function Counted(plain: Bytes -> bool, git: bool): Entry -> bool {
    (e: Entry) => ValidRelative(plain, e.path, false) && (git || (!e.directory && e.regular))
  }

  /** An entry that is reported as skipped: its path is not valid, or it is no regular file. */
  function SkippedEntry(plain: Bytes -> bool, root: Bytes, git: bool): Entry -> bool {
    (e: Entry) => if git then ValidRelative(plain, e.path, false) && Within(root, e.path) && !e.regular
         else !ValidRelative(plain, e.path, false) || (!e.directory && !e.regular)
  }

  /** Where the enumeration of a listing ends: behind all entries, or before the one that is too many. */
  function EndOf(es: seq<Entry>, counted: Entry -> bool, room: nat): (k: nat)
    ensures k <= |es| && Count(es[..k], counted) <= room
    ensures k < |es| ==> counted(es[k]) && Count(es[..k], counted) == room
  {
    if |es| == 0 then 0
    else if counted(es[0]) && room == 0 then 0
    else
      var k := 1 + EndOf(es[1..], counted, if counted(es[0]) then room - 1 else room);
      assert es[..k][1..] == es[1..][..k - 1];
      k
  }

  /** What the enumeration does with the entries up to where it ends. */
  ghost predicate EndsAt(plain: Bytes -> bool, root: Bytes, git: bool, es: seq<Entry>, k: nat, steps: seq<Step>) {
    && k <= |es| && Visited(steps) == Candidates(plain, root, git, es[..k])
    && Skips(steps) == Count(es[..k], SkippedEntry(plain, root, git)) && (Limit in steps <==> k < |es|)
  }

  lemma EndsFurther(plain: Bytes -> bool, root: Bytes, git: bool, es: seq<Entry>, k: nat, first: seq<Step>,
                    rest: seq<Step>)
    requires |es| > 0 && EndsAt(plain, root, git, es[1..], k, rest) && |first| <= 1 && Limit !in first
    requires Visited(first) == if Candidate(plain, root, git, es[0]) then [es[0].path] else []
    requires first == [Skip] <==> SkippedEntry(plain, root, git)(es[0])
    ensures EndsAt(plain, root, git, es, k + 1, first + rest)
  {
    assert es[..k + 1][1..] == es[1..][..k];
    VisitedJoins(first, rest);
    SkipsFirst(first, rest);
    assert forall x :: x in first + rest <==> x in first || x in rest;
  }

  lemma StopsHere(plain: Bytes -> bool, root: Bytes, git: bool, es: seq<Entry>)
    requires |es| > 0
    ensures EndsAt(plain, root, git, es, 0, [Limit])
  {
    OneVisited([Limit]);
    SkipsFirst([Limit], []);
    assert es[..0] == [];
    assert [Limit] + [] == [Limit];
  }

  /** What the enumeration makes of a name of Git that is not one too many. */
  function GitStep(plain: Bytes -> bool, root: Bytes, e: Entry): seq<Step> {
    if !ValidRelative(plain, e.path, false) || !Within(root, e.path) then []
    else if !e.regular then [Skip]
    else [Visit(e.path)]
  }

  lemma GitOne(plain: Bytes -> bool, root: Bytes, e: Entry)
    ensures var first := GitStep(plain, root, e);
            && |first| <= 1 && Limit !in first && (first == [Skip] <==> SkippedEntry(plain, root, true)(e))
            && Visited(first) == (if Candidate(plain, root, true, e) then [e.path] else [])
  {
    OneVisited(GitStep(plain, root, e));
  }

  lemma GitMore(plain: Bytes -> bool, root: Bytes, names: seq<Entry>, index: nat)
    requires |names| > 0
    ensures var valid := Counted(plain, true)(names[0]);
            GitSteps(plain, root, names, index)
            == if valid && index >= MAX_CANDIDATES then [Limit]
               else GitStep(plain, root, names[0])
                    + GitSteps(plain, root, names[1..], if valid then index + 1 else index)
  {
    var rest := GitSteps(plain, root, names[1..], index);
    assert [] + rest == rest;
  }

  lemma EndOfMore(es: seq<Entry>, counted: Entry -> bool, room: nat)
    requires |es| > 0
    ensures EndOf(es, counted, room)
            == if !counted(es[0]) then 1 + EndOf(es[1..], counted, room)
               else if room == 0 then 0 else 1 + EndOf(es[1..], counted, room - 1)
  {}

  lemma {:induction false} GitEnds(plain: Bytes -> bool, root: Bytes, names: seq<Entry>, index: nat)
    requires index <= MAX_CANDIDATES
    ensures EndsAt(plain, root, true, names, EndOf(names, Counted(plain, true), MAX_CANDIDATES - index),
                   GitSteps(plain, root, names, index))
  {
    if |names| > 0 {
      var counted := Counted(plain, true);
      GitMore(plain, root, names, index);
      EndOfMore(names, counted, MAX_CANDIDATES - index);
      if counted(names[0]) && index >= MAX_CANDIDATES {
        StopsHere(plain, root, true, names);
      } else {
        var next := if counted(names[0]) then index + 1 else index;
        GitEnds(plain, root, names[1..], next);
        GitOne(plain, root, names[0]);
        EndsFurther(plain, root, true, names, EndOf(names[1..], counted, MAX_CANDIDATES - next),
                    GitStep(plain, root, names[0]), GitSteps(plain, root, names[1..], next));
      }
    }
  }

  /** What the walk makes of an entry that is not one too many. */
  function WalkStep(plain: Bytes -> bool, e: Entry): seq<Step> {
    if !ValidRelative(plain, e.path, false) then [Skip]
    else if e.directory then []
    else if !e.regular then [Skip]
    else [Visit(e.path)]
  }

  lemma WalkOne(plain: Bytes -> bool, root: Bytes, e: Entry)
    ensures var first := WalkStep(plain, e);
            && |first| <= 1 && Limit !in first && (first == [Skip] <==> SkippedEntry(plain, root, false)(e))
            && Visited(first) == (if Candidate(plain, root, false, e) then [e.path] else [])
            && (first == [Visit(e.path)] <==> Counted(plain, false)(e))
  {
    OneVisited(WalkStep(plain, e));
  }

  lemma WalkMore(plain: Bytes -> bool, entries: seq<Entry>, seen: nat)
    requires |entries| > 0
    ensures var visit := Counted(plain, false)(entries[0]);
            WalkSteps(plain, entries, seen)
            == if visit && seen + 1 > MAX_CANDIDATES then [Limit]
               else WalkStep(plain, entries[0]) + WalkSteps(plain, entries[1..], if visit then seen + 1 else seen)
  {
    var rest := WalkSteps(plain, entries[1..], seen);
    assert [] + rest == rest;
  }

  lemma {:induction false} WalkEnds(plain: Bytes -> bool, root: Bytes, entries: seq<Entry>, seen: nat)
    requires seen <= MAX_CANDIDATES
    ensures EndsAt(plain, root, false, entries, EndOf(entries, Counted(plain, false), MAX_CANDIDATES - seen),
                   WalkSteps(plain, entries, seen))
  {
    if |entries| > 0 {
      var counted := Counted(plain, false);
      WalkMore(plain, entries, seen);
      EndOfMore(entries, counted, MAX_CANDIDATES - seen);
      if counted(entries[0]) && seen + 1 > MAX_CANDIDATES {
        StopsHere(plain, root, false, entries);
      } else {
        var next := if counted(entries[0]) then seen + 1 else seen;
        WalkEnds(plain, root, entries[1..], next);
        WalkOne(plain, root, entries[0]);
        EndsFurther(plain, root, false, entries, EndOf(entries[1..], counted, MAX_CANDIDATES - next),
                    WalkStep(plain, entries[0]), WalkSteps(plain, entries[1..], next));
      }
    }
  }

  /** The enumeration hands over the candidates among the entries before the one that would be the 100,001st to count,
      or among all of them; it counts as skipped what it passes over there; and it comes to its limit exactly if there
      is such an entry. */
  lemma EnumerationEnds(plain: Bytes -> bool, root: Bytes, l: Listing)
    ensures EndsAt(plain, root, l.Git?, Entries(l), EndOf(Entries(l), Counted(plain, l.Git?), 100000),
                   Steps(plain, root, l))
  {
    match l {
      case Git(names) => GitEnds(plain, root, names, 0);
      case Walk(entries) => WalkEnds(plain, root, entries, 0);
    }
  }

  /** The names of Git that are no valid paths are counted as skipped, wherever they stand. */
  lemma {:induction false} UnsupportedIs(plain: Bytes -> bool, names: seq<Entry>)
    ensures Unsupported(plain, names) == Count(names, (e: Entry) => !ValidRelative(plain, e.path, false))
  {
    if |names| > 0 { UnsupportedIs(plain, names[1..]); }
  }

  // ---------------------------------------------------------------- find

  datatype FindReply = FindReply(paths: seq<Bytes>, skipped: nat, budgetReached: bool)

  /** searchPathBytes. */
  function PathBytes(paths: seq<Bytes>): nat {
    if |paths| == 0 then 0 else PathBytes(paths[..|paths| - 1]) + |paths[|paths| - 1]| + 3
  }

  function Filter(ps: seq<Bytes>, matches: Bytes -> bool): (r: seq<Bytes>)
    ensures forall p :: p in r ==> p in ps
  {
    if |ps| == 0 then [] else (if matches(ps[0]) then [ps[0]] else []) + Filter(ps[1..], matches)
  }

  lemma {:induction false} FilterHas(ps: seq<Bytes>, matches: Bytes -> bool, p: Bytes)
    ensures p in Filter(ps, matches) <==> p in ps && matches(p)
  {
    if |ps| > 0 { FilterHas(ps[1..], matches, p); }
  }

  lemma FilterFront(a: seq<Bytes>, b: seq<Bytes>, matches: Bytes -> bool)
    requires a <= b
    ensures Filter(a, matches) <= Filter(b, matches)
  {
    assert b == a + b[|a|..];
    FilterJoins(a, b[|a|..], matches);
  }

  lemma {:induction false} CandidatesHave(plain: Bytes -> bool, root: Bytes, git: bool, es: seq<Entry>, p: Bytes)
    ensures p in Candidates(plain, root, git, es)
            <==> exists k :: 0 <= k < |es| && Candidate(plain, root, git, es[k]) && es[k].path == p
  {
    if |es| > 0 {
      CandidatesHave(plain, root, git, es[1..], p);
      if k :| 0 <= k < |es| && Candidate(plain, root, git, es[k]) && es[k].path == p && k > 0 {
        assert es[1..][k - 1] == es[k];
      }
      if k :| 0 <= k < |es[1..]| && Candidate(plain, root, git, es[1..][k]) && es[1..][k].path == p {
        assert es[k + 1] == es[1..][k];
      }
    }
  }

  lemma DistinctFirst(x: Bytes, s: seq<Bytes>)
    ensures Distinct([x] + s) <==> Distinct(s) && x !in s
  {
    var r := [x] + s;
    if Distinct(r) {
      forall i, j | 0 <= i < j < |s| ensures s[i] != s[j] { assert r[i + 1] == s[i] && r[j + 1] == s[j]; }
      forall i | 0 <= i < |s| ensures s[i] != x { assert r[i + 1] == s[i] && r[0] == x; }
    }
    if Distinct(s) && x !in s { DistinctCons(x, s); }
  }

  lemma NoneTwiceFirst(plain: Bytes -> bool, root: Bytes, git: bool, es: seq<Entry>, test: Bytes -> bool)
    requires |es| > 0
    ensures var first, rest := es[0], Candidates(plain, root, git, es[1..]);
            NoneTwiceIn(plain, root, git, es, test)
            <==> NoneTwiceIn(plain, root, git, es[1..], test)
                 && (Candidate(plain, root, git, first) && test(first.path) ==> first.path !in rest)
  {
    var first, more := es[0], es[1..];
    CandidatesHave(plain, root, git, more, first.path);
    if NoneTwiceIn(plain, root, git, es, test) {
      forall i, j | 0 <= i < j < |more| && Candidate(plain, root, git, more[i]) && Candidate(plain, root, git, more[j])
                    && test(more[i].path) ensures more[i].path != more[j].path {
        assert more[i] == es[i + 1] && more[j] == es[j + 1];
      }
      forall k | 0 <= k < |more| && Candidate(plain, root, git, more[k]) && Candidate(plain, root, git, first)
        && test(first.path)
        ensures more[k].path != first.path {
        assert more[k] == es[k + 1] && first == es[0];
      }
    }
    forall i, j | 0 <= i < j < |es| ensures es[j] == more[j - 1] && (i > 0 ==> es[i] == more[i - 1]) {}
  }

  /** The candidates that pass a test are distinct exactly if none of them is listed twice. */
  lemma {:induction false} ListedTwice(plain: Bytes -> bool, root: Bytes, git: bool, es: seq<Entry>,
                                       test: Bytes -> bool)
    ensures Distinct(Filter(Candidates(plain, root, git, es), test)) <==> NoneTwiceIn(plain, root, git, es, test)
  {
    if |es| > 0 {
      var rest := Candidates(plain, root, git, es[1..]);
      ListedTwice(plain, root, git, es[1..], test);
      NoneTwiceFirst(plain, root, git, es, test);
      FilterHas(rest, test, es[0].path);
      var mine := if Candidate(plain, root, git, es[0]) then [es[0].path] else [];
      FilterJoins(mine, rest, test);
      if Candidate(plain, root, git, es[0]) {
        assert [es[0].path][1..] == [];
        DistinctFirst(es[0].path, Filter(rest, test));
        assert [] + Filter(rest, test) == Filter(rest, test);
      } else {
        assert [] + Filter(rest, test) == Filter(rest, test);
      }
    }
  }

  /** What find has after the first n steps: the matching candidates, and what it has skipped. If there are more steps,
      the next one is the limit of the enumeration, or a match that would be one too many or too much. */
  ghost predicate FoundUpTo(steps: seq<Step>, matches: Bytes -> bool, limit: nat, kept: seq<Bytes>, skipped: nat,
                            reached: bool, n: nat) {
    && n <= |steps| && kept == Filter(Visited(steps[..n]), matches) && skipped == Skips(steps[..n])
    && if !reached then n == |steps| && Limit !in steps
       else n < |steps| && match steps[n]
                           case Limit => true
                           case Skip => false
                           case Visit(p) => matches(p) && (|kept| == limit || PathBytes(kept) + |p| + 3 > 131072)
  }

  lemma PathBytesOne(kept: seq<Bytes>, p: Bytes)
    ensures PathBytes(kept + [p]) == PathBytes(kept) + |p| + 3
    ensures (kept + [p])[..|kept|] == kept && (kept + [p])[..|kept| + 1] == kept + [p]
  {}

  /** The callback of Find, run over the enumeration. */
  method FindPaths(steps: seq<Step>, matches: Bytes -> bool, limit: nat)
    returns (kept: seq<Bytes>, skipped: nat, reached: bool, ghost n: nat)
    ensures FoundUpTo(steps, matches, limit, kept, skipped, reached, n)
    ensures |kept| <= limit && PathBytes(kept) <= MAX_RESPONSE
  {
    kept, skipped, reached, n := [], 0, false, 0;
    for i := 0 to |steps|
      invariant kept == Filter(Visited(steps[..i]), matches) && |kept| <= limit && PathBytes(kept) <= MAX_RESPONSE
      invariant skipped == Skips(steps[..i]) && !reached && Limit !in steps[..i]
    {
      NextStep(steps, i, matches);
      NextCount(steps, i);
      match steps[i]
      case Skip => skipped := skipped + 1;
      case Limit => return kept, skipped, true, i;
      case Visit(candidate) =>
        if matches(candidate) {
          var projected := |candidate| + 3;
          PathBytesOne(kept, candidate);
          if |kept| >= limit || PathBytes(kept) + projected > MAX_RESPONSE {
            return kept, skipped, true, i;
          }
          kept := kept + [candidate];
        }
    }
    n := |steps|;
    assert steps[..|steps|] == steps;
  }

  lemma {:induction false} FilterJoins(a: seq<Bytes>, b: seq<Bytes>, matches: Bytes -> bool)
    ensures Filter(a + b, matches) == Filter(a, matches) + Filter(b, matches)
  {
    if |a| == 0 {
      assert a + b == b;
    } else {
      assert (a + b)[1..] == a[1..] + b;
      FilterJoins(a[1..], b, matches);
    }
  }

  lemma NextStep(steps: seq<Step>, i: nat, matches: Bytes -> bool)
    requires i < |steps|
    ensures var hits := Filter(Visited(steps[..i]), matches);
            Filter(Visited(steps[..i + 1]), matches)
            == if steps[i].Visit? && matches(steps[i].path) then hits + [steps[i].path] else hits
  {
    assert steps[..i + 1] == steps[..i] + [steps[i]];
    VisitedJoins(steps[..i], [steps[i]]);
    OneVisited([steps[i]]);
    FilterJoins(Visited(steps[..i]), Visited([steps[i]]), matches);
    if steps[i].Visit? { assert [steps[i].path][1..] == []; }
  }

  lemma NextCount(steps: seq<Step>, i: nat)
    requires i < |steps|
    ensures Skips(steps[..i + 1]) == Skips(steps[..i]) + if steps[i] == Skip then 1 else 0
    ensures Limit in steps[..i + 1] <==> Limit in steps[..i] || steps[i] == Limit
  {
    assert steps[..i + 1][..i] == steps[..i];
    assert steps[..i + 1] == steps[..i] + [steps[i]];
  }

  predicate SortedPaths(paths: seq<Bytes>) {
    forall k :: 1 <= k < |paths| ==> Le(paths[k - 1], paths[k])
  }

  predicate AcceptsPath(plain: Bytes -> bool, paths: seq<Bytes>, root: Bytes, k: nat)
    requires k < |paths|
  {
    Shown(plain, root, paths[k]) && paths[k] !in paths[..k]
  }

  predicate AcceptsFind(plain: Bytes -> bool, r: FindReply, root: Bytes, limit: nat) {
    && |r.paths| <= limit && |r.paths| <= MAX_RESULTS && SortedPaths(r.paths)
    && (forall k :: 0 <= k < |r.paths| ==> AcceptsPath(plain, r.paths, root, k))
    && PathBytes(r.paths) <= MAX_RESPONSE
  }

  /** Before in the order of bytes, and not the same. */
  predicate Less(a: Bytes, b: Bytes) { a != b && Le(a, b) }

  lemma {:induction false} SortedFar(paths: seq<Bytes>, i: nat, j: nat)
    requires SortedPaths(paths) && i < j < |paths|
    ensures Le(paths[i], paths[j])
  {
    if i + 1 < j {
      SortedFar(paths, i, j - 1);
      LeTransitive(paths[i], paths[j - 1], paths[j]);
    }
  }

  lemma StrictlySorted(paths: seq<Bytes>)
    ensures SortedPaths(paths) && Distinct(paths) <==> forall i, j :: 0 <= i < j < |paths| ==> Less(paths[i], paths[j])
  {
    if SortedPaths(paths) {
      forall i, j | 0 <= i < j < |paths| ensures Le(paths[i], paths[j]) { SortedFar(paths, i, j); }
    }
  }

  /** The client accepts exactly: as many paths as asked for at most, and 2000; each valid and within the search path;
      in strictly ascending order; and no more than 128 KiB with what is counted for each. */
  lemma AcceptsFindIff(plain: Bytes -> bool, r: FindReply, root: Bytes, limit: nat)
    ensures AcceptsFind(plain, r, root, limit)
            <==> && |r.paths| <= limit && |r.paths| <= 2000 && PathBytes(r.paths) <= 131072
                 && (forall p :: p in r.paths ==> ValidRelative(plain, p, false) && Within(root, p))
                 && forall i, j :: 0 <= i < j < |r.paths| ==> Less(r.paths[i], r.paths[j])
  {
    StrictlySorted(r.paths);
    if forall p :: p in r.paths ==> Shown(plain, root, p) {
      NoneTwice(plain, r.paths, root);
    } else {
      var p :| p in r.paths && !Shown(plain, root, p);
      var k :| 0 <= k < |r.paths| && r.paths[k] == p;
      assert !AcceptsPath(plain, r.paths, root, k);
    }
  }

  /** slices.IsSorted. */
  method IsSorted(paths: seq<Bytes>) returns (ok: bool)
    ensures ok == SortedPaths(paths)
  {
    for i := 0 to |paths|
      invariant forall k :: 1 <= k < i ==> Le(paths[k - 1], paths[k])
    {
      if i > 0 && !Le(paths[i - 1], paths[i]) {
        return false;
      }
    }
    return true;
  }

  /** validRuntimeFindResult. */
  method ValidFindResult(plain: Bytes -> bool, r: FindReply, root: Bytes, limit: nat) returns (ok: bool)
    ensures ok == AcceptsFind(plain, r, root, limit)
  {
    var sorted := IsSorted(r.paths);
    if |r.paths| > limit || |r.paths| > MAX_RESULTS || !sorted {
      return false;
    }
    var seen: set<Bytes> := {};
    var budget := 0;
    for i := 0 to |r.paths|
      invariant budget == PathBytes(r.paths[..i])
      invariant forall p :: p in seen <==> p in r.paths[..i]
      invariant forall k :: 0 <= k < i ==> AcceptsPath(plain, r.paths, root, k)
    {
      var candidate := r.paths[i];
      if !ValidRelative(plain, candidate, false) || !Within(root, candidate) || candidate in seen {
        assert !AcceptsPath(plain, r.paths, root, i);
        return false;
      }
      PathBytesOne(r.paths[..i], candidate);
      assert r.paths[..i + 1] == r.paths[..i] + [candidate];
      seen := seen + {candidate};
      budget := budget + |candidate| + 3;
    }
    assert r.paths[..|r.paths|] == r.paths;
    return budget <= MAX_RESPONSE;
  }

  lemma {:induction false} PathBytesPermuted(a: seq<Bytes>, b: seq<Bytes>)
    requires multiset(a) == multiset(b)
    ensures PathBytes(a) == PathBytes(b)
    decreases |a|
  {
    if |a| == 0 {
      assert |multiset(b)| == 0;
    } else {
      assert a[|a| - 1] in multiset(b);
      var k :| 0 <= k < |b| && b[k] == a[|a| - 1];
      LastRemoved(a, b, k);
      PathBytesPermuted(a[..|a| - 1], Without(b, k));
      PathBytesWithout(b, k);
    }
  }

  lemma {:induction false} PathBytesWithout(b: seq<Bytes>, k: nat)
    requires k < |b|
    ensures PathBytes(b) == PathBytes(Without(b, k)) + |b[k]| + 3
    decreases |b|
  {
    WithoutLast(b, k);
    if k < |b| - 1 { PathBytesWithout(b[..|b| - 1], k); }
  }

  predicate PathLe(a: Bytes, b: Bytes) { Le(a, b) }

  lemma PathOrder()
    ensures TotalPreorder(PathLe)
  {
    forall x, y ensures PathLe(x, y) || PathLe(y, x) { LeTotal(x, y); }
    forall x, y, z | PathLe(x, y) && PathLe(y, z) ensures PathLe(x, z) { LeTransitive(x, y, z); }
  }

  lemma NoneTwice(plain: Bytes -> bool, paths: seq<Bytes>, root: Bytes)
    requires forall p :: p in paths ==> Shown(plain, root, p)
    ensures (forall k :: 0 <= k < |paths| ==> AcceptsPath(plain, paths, root, k)) <==> Distinct(paths)
  {
    if Distinct(paths) {
      forall k | 0 <= k < |paths| ensures AcceptsPath(plain, paths, root, k) {}
    }
    if forall k :: 0 <= k < |paths| ==> AcceptsPath(plain, paths, root, k) {
      forall i, j | 0 <= i < j < |paths| ensures paths[i] != paths[j] {
        assert AcceptsPath(plain, paths, root, j) && paths[..j][i] == paths[i];
      }
    }
  }

  lemma SortingKeeps(plain: Bytes -> bool, root: Bytes, kept: seq<Bytes>, sorted: seq<Bytes>)
    requires multiset(sorted) == multiset(kept) && Ordered(sorted, PathLe)
    requires forall p :: p in kept ==> Shown(plain, root, p)
    ensures |sorted| == |kept| && PathBytes(sorted) == PathBytes(kept) && SortedPaths(sorted)
    ensures forall p :: p in sorted ==> Shown(plain, root, p)
  {
    PathBytesPermuted(sorted, kept);
    assert |multiset(sorted)| == |multiset(kept)|;
    forall p | p in sorted ensures Shown(plain, root, p) { assert p in multiset(kept); }
    forall k | 1 <= k < |sorted| ensures Le(sorted[k - 1], sorted[k]) { assert PathLe(sorted[k - 1], sorted[k]); }
  }

  /** The sorted result of a find is accepted exactly if no path was kept twice. */
  lemma FindIsAcceptedIff(plain: Bytes -> bool, root: Bytes, kept: seq<Bytes>, sorted: seq<Bytes>, skipped: nat,
                          stopped: bool, limit: nat)
    requires multiset(sorted) == multiset(kept) && Ordered(sorted, PathLe)
    requires |kept| <= limit <= MAX_RESULTS && PathBytes(kept) <= MAX_RESPONSE
    requires forall p :: p in kept ==> Shown(plain, root, p)
    ensures AcceptsFind(plain, FindReply(sorted, skipped, stopped), root, limit) <==> Distinct(kept)
  {
    SortingKeeps(plain, root, kept, sorted);
    NoneTwice(plain, sorted, root);
    SamePermuted(kept, sorted);
  }

  lemma SamePermuted(a: seq<Bytes>, b: seq<Bytes>)
    requires multiset(a) == multiset(b)
    ensures Distinct(a) <==> Distinct(b)
  {
    if Distinct(a) { SameDistinct(a, b); }
    if Distinct(b) { SameDistinct(b, a); }
  }

  /** All candidates that match, as they are handed over. */
  function Hits(plain: Bytes -> bool, root: Bytes, l: Listing, matches: Bytes -> bool): seq<Bytes> {
    Filter(Visited(Steps(plain, root, l)), matches)
  }

  lemma HitsAreListed(plain: Bytes -> bool, root: Bytes, l: Listing, matches: Bytes -> bool)
    requires ProperListing(root, l)
    ensures NoneListedTwice(plain, root, l, matches) ==> Distinct(Hits(plain, root, l, matches))
    ensures Limit !in Steps(plain, root, l) ==>
              (Distinct(Hits(plain, root, l, matches)) <==> NoneListedTwice(plain, root, l, matches))
  {
    var all := Candidates(plain, root, l.Git?, Entries(l));
    StepsAreCandidates(plain, root, l);
    ListedTwice(plain, root, l.Git?, Entries(l), matches);
    var v, w := Hits(plain, root, l, matches), Filter(all, matches);
    FilterFront(Visited(Steps(plain, root, l)), all, matches);
    if Distinct(w) {
      assert w == v + w[|v|..];
      FrontDistinct(v, w[|v|..]);
    }
  }

  lemma DistinctPrefix(a: seq<Bytes>, b: seq<Bytes>)
    requires a <= b
    ensures b[..|a|] == a && (Distinct(b) ==> Distinct(a)) && (|a| == |b| ==> a == b)
  {
    assert b == a + b[|a|..];
    if Distinct(b) { FrontDistinct(a, b[|a|..]); }
  }

  /** Find, past the checks of its request: it returns the first hits, sorted, and all of them unless it says that
      a limit was reached, which it says exactly if there was a reason to stop. The client accepts the result exactly if
      the hits are distinct; in particular if no candidate that matches is listed twice, and if no limit was reached,
      exactly then. */
  method Find(plain: Bytes -> bool, root: Bytes, l: Listing, matches: Bytes -> bool, limit: nat)
    returns (r: FindReply, ghost n: nat, ghost skipped: nat)
    requires ProperListing(root, l) && 1 <= limit <= MAX_RESULTS
    ensures var hits := Hits(plain, root, l, matches);
            && |r.paths| <= |hits| && multiset(r.paths) == multiset(hits[..|r.paths|])
            && FoundUpTo(Steps(plain, root, l), matches, limit, hits[..|r.paths|], skipped, r.budgetReached, n)
            && (AcceptsFind(plain, r, root, limit) <==> Distinct(hits[..|r.paths|]))
            && (!r.budgetReached ==> |r.paths| == |hits|)
    ensures r.skipped == skipped + if l.Git? then Unsupported(plain, l.names) else 0
    ensures NoneListedTwice(plain, root, l, matches) ==> AcceptsFind(plain, r, root, limit)
    ensures !r.budgetReached ==> (AcceptsFind(plain, r, root, limit) <==> NoneListedTwice(plain, root, l, matches))
  {
    var steps := Steps(plain, root, l);
    var kept, skips, reached;
    kept, skips, reached, n := FindPaths(steps, matches, limit);
    skipped := skips;
    PathOrder();
    var sorted := Sort(kept, PathLe);
    r := FindReply(sorted, skips + if l.Git? then Unsupported(plain, l.names) else 0, reached);
    FindReports(plain, root, l, matches, limit, kept, r, n);
  }

  lemma FindReports(plain: Bytes -> bool, root: Bytes, l: Listing, matches: Bytes -> bool, limit: nat,
                    kept: seq<Bytes>, r: FindReply, n: nat)
    requires ProperListing(root, l) && n <= |Steps(plain, root, l)|
    requires kept == Filter(Visited(Steps(plain, root, l)[..n]), matches)
    requires r.budgetReached || (n == |Steps(plain, root, l)| && Limit !in Steps(plain, root, l))
    requires |kept| <= limit <= MAX_RESULTS && PathBytes(kept) <= MAX_RESPONSE
    requires multiset(r.paths) == multiset(kept) && Ordered(r.paths, PathLe)
    ensures var hits := Hits(plain, root, l, matches);
            && |r.paths| == |kept| <= |hits| && kept == hits[..|r.paths|]
            && (AcceptsFind(plain, r, root, limit) <==> Distinct(kept))
            && (!r.budgetReached ==> |r.paths| == |hits|)
    ensures NoneListedTwice(plain, root, l, matches) ==> AcceptsFind(plain, r, root, limit)
    ensures !r.budgetReached ==> (AcceptsFind(plain, r, root, limit) <==> NoneListedTwice(plain, root, l, matches))
  {
    var steps := Steps(plain, root, l);
    KeptAreHits(plain, root, l, n, matches, kept);
    FindIsAcceptedIff(plain, root, kept, r.paths, r.skipped, r.budgetReached, limit);
    assert steps[..|steps|] == steps;
    HitsAreListed(plain, root, l, matches);
    assert |r.paths| == |kept| by { assert |multiset(r.paths)| == |multiset(kept)|; }
    DistinctPrefix(kept, Hits(plain, root, l, matches));
  }

  lemma KeptAreHits(plain: Bytes -> bool, root: Bytes, l: Listing, n: nat, matches: Bytes -> bool, kept: seq<Bytes>)
    requires ProperListing(root, l) && n <= |Steps(plain, root, l)|
    requires kept <= Filter(Visited(Steps(plain, root, l)[..n]), matches)
    ensures kept <= Hits(plain, root, l, matches)
    ensures forall p :: p in kept ==> Shown(plain, root, p)
  {
    var steps := Steps(plain, root, l);
    StepsAreCandidates(plain, root, l);
    assert steps == steps[..n] + steps[n..];
    VisitedJoins(steps[..n], steps[n..]);
    FilterFront(Visited(steps[..n]), Visited(steps), matches);
  }

  /** Git lists an unmerged file once for each of its stages. */
  function Unmerged(path: Bytes): Listing { Git([Entry(path, true, false), Entry(path, true, false)]) }

  lemma UnmergedHits(plain: Bytes -> bool, path: Bytes, matches: Bytes -> bool)
    requires ValidRelative(plain, path, false) && matches(path)
    ensures Visited(Steps(plain, HERE, Unmerged(path))) == [path, path]
    ensures Filter([path, path], matches) == [path, path]
    ensures !NoneListedTwice(plain, HERE, Unmerged(path), matches)
  {
    var es := Entries(Unmerged(path));
    assert es[1..] == [es[0]] && [es[0]][1..] == [];
    assert GitSteps(plain, HERE, [es[0]], 1) == [Visit(path)];
    assert [Visit(path), Visit(path)] == [Visit(path)] + [Visit(path)];
    OneVisited([Visit(path)]);
    VisitedJoins([Visit(path)], [Visit(path)]);
    assert [path, path] == [path] + [path];
    OneFiltered(path, matches);
    FilterJoins([path], [path], matches);
    assert Candidate(plain, HERE, true, es[0]) && Candidate(plain, HERE, true, es[1]);
  }

  /** The client disconnects for a result with both of them. */
  lemma UnmergedFileIsRejected(plain: Bytes -> bool, path: Bytes, matches: Bytes -> bool, r: FindReply, limit: nat)
    requires ValidRelative(plain, path, false) && matches(path)
    requires multiset(r.paths) == multiset(Hits(plain, HERE, Unmerged(path), matches))
    ensures !AcceptsFind(plain, r, HERE, limit)
  {
    UnmergedHits(plain, path, matches);
    assert |r.paths| == |multiset(r.paths)| == 2;
    assert r.paths[0] in multiset(r.paths) && r.paths[1] in multiset(r.paths);
    assert !AcceptsPath(plain, r.paths, HERE, 1);
  }

  lemma FrontDistinct(a: seq<Bytes>, b: seq<Bytes>)
    requires Distinct(a + b)
    ensures Distinct(a)
  {
    forall i, j | 0 <= i < j < |a| ensures a[i] != a[j] {
      assert (a + b)[i] == a[i] && (a + b)[j] == a[j];
    }
  }

  // ---------------------------------------------------------------- grep

  datatype Match = Match(path: Bytes, line: nat, text: Bytes, lineTruncated: bool)
  datatype GrepReply = GrepReply(matches: seq<Match>, skipped: nat, budgetReached: bool)

  function MatchBytes(ms: seq<Match>): nat {
    if |ms| == 0 then 0
    else MatchBytes(ms[..|ms| - 1]) + |ms[|ms| - 1].path| + |ms[|ms| - 1].text| + 32
  }

  predicate GoodLine(line: Bytes) { Utf8.Valid(line) && 0 !in line }

  function MatchOf(path: Bytes, n: nat, line: Bytes): Match {
    if |line| > MAX_TEXT then Match(path, n, Utf8.LongestCut(line, MAX_TEXT), true) else Match(path, n, line, false)
  }

  /** The matches among the first n lines. */
  function MatchesIn(path: Bytes, lines: seq<Bytes>, hit: Bytes -> bool, n: nat): seq<Match>
    requires n <= |lines|
  {
    if n == 0 then []
    else MatchesIn(path, lines, hit, n - 1) + if hit(lines[n - 1]) then [MatchOf(path, n, lines[n - 1])] else []
  }

  predicate IsText(f: FilePages.Scanned) {
    !f.tooLong && forall k :: 0 <= k < |f.lines| ==> GoodLine(f.lines[k])
  }

  /** What a file adds: all its matches, or nothing if it is not text. */
  function Contribution(path: Bytes, f: FilePages.Scanned, hit: Bytes -> bool): seq<Match> {
    if IsText(f) then MatchesIn(path, f.lines, hit, |f.lines|) else []
  }

  datatype FileOutcome = Searched | RolledBack | Stopped | Cancelled

  lemma MatchBytesOne(ms: seq<Match>, m: Match)
    ensures MatchBytes(ms + [m]) == MatchBytes(ms) + |m.path| + |m.text| + 32
  {
    assert (ms + [m])[..|ms|] == ms;
  }

  lemma MatchesOneMore(path: Bytes, lines: seq<Bytes>, hit: Bytes -> bool, n: nat, before: seq<Match>)
    requires 0 < n <= |lines| && hit(lines[n - 1])
    ensures before + MatchesIn(path, lines, hit, n - 1) + [MatchOf(path, n, lines[n - 1])]
            == before + MatchesIn(path, lines, hit, n)
  {}

  /** The match of a line, with its text cut if it is too long. */
  method NewMatch(path: Bytes, n: nat, line: Bytes) returns (m: Match)
    requires GoodLine(line)
    ensures m == MatchOf(path, n, line)
  {
    var text, truncated := line, false;
    if |text| > MAX_TEXT {
      text := Utf8.Truncate(text, MAX_TEXT);
      truncated := true;
    }
    m := Match(path, n, text, truncated);
  }

  /** The lines of one candidate. Matches are kept as they are found, and rolled back if the file turns out
      not to be text; responseBytes is always the size of the matches that are kept. */
  method GrepFile(path: Bytes, f: FilePages.Scanned, hit: Bytes -> bool, limit: nat, before: seq<Match>,
                  startBytes: nat)
    returns (matches: seq<Match>, responseBytes: nat, o: FileOutcome, ghost n: nat)
    requires startBytes == MatchBytes(before) <= MAX_RESPONSE && |before| <= limit
    ensures responseBytes == MatchBytes(matches) <= MAX_RESPONSE && |matches| <= limit
    ensures Grown(path, f, hit, limit, before, matches, o, n)
  {
    matches, responseBytes, n := before, startBytes, 0;
    var lineNumber := 0;
    while lineNumber < |f.lines|
      invariant 0 <= lineNumber <= |f.lines| && forall k :: 0 <= k < lineNumber ==> GoodLine(f.lines[k])
      invariant matches == before + MatchesIn(path, f.lines, hit, lineNumber)
      invariant responseBytes == MatchBytes(matches) <= MAX_RESPONSE && |matches| <= limit
    {
      var alive := *;
      if !alive {
        return before, startBytes, Cancelled, 0;
      }
      var line := f.lines[lineNumber];
      lineNumber := lineNumber + 1;
      if !GoodLine(line) {
        return before, startBytes, RolledBack, 0;
      }
      if !hit(line) {
        continue;
      }
      var found := NewMatch(path, lineNumber, line);
      var projected := |path| + |found.text| + 32;
      if |matches| >= limit || responseBytes + projected > MAX_RESPONSE {
        return matches, responseBytes, Stopped, lineNumber - 1;
      }
      MatchBytesOne(matches, found);
      MatchesOneMore(path, f.lines, hit, lineNumber, before);
      matches := matches + [found];
      responseBytes := responseBytes + projected;
    }
    if f.tooLong {
      return before, startBytes, RolledBack, 0;
    }
    o, n := Searched, |f.lines|;
  }

  /** One more match would be too many, or too much for the response. */
  predicate NoRoom(ms: seq<Match>, limit: nat, m: Match) {
    |ms| >= limit || MatchBytes(ms) + |m.path| + |m.text| + 32 > 131072
  }

  /** The search has come to line n, which matches and finds no room. */
  ghost predicate StopsAtLine(path: Bytes, f: FilePages.Scanned, hit: Bytes -> bool, limit: nat, before: seq<Match>,
                              after: seq<Match>, n: nat) {
    && n < |f.lines| && (forall k :: 0 <= k <= n ==> GoodLine(f.lines[k])) && hit(f.lines[n])
    && after == before + MatchesIn(path, f.lines, hit, n) && NoRoom(after, limit, MatchOf(path, n + 1, f.lines[n]))
  }

  /** A file that is searched or rolled back adds its contribution; one that stops the search adds the matches
      of its first lines, and the next one finds no room. */
  ghost predicate Grown(path: Bytes, f: FilePages.Scanned, hit: Bytes -> bool, limit: nat, before: seq<Match>,
                        after: seq<Match>, o: FileOutcome, n: nat) {
    && n <= |f.lines| && (forall k :: 0 <= k < n ==> GoodLine(f.lines[k]))
    && match o
       case Searched => IsText(f) && n == |f.lines| && after == before + MatchesIn(path, f.lines, hit, n)
       case RolledBack => !IsText(f) && after == before && n == 0
       case Stopped => StopsAtLine(path, f, hit, limit, before, after, n)
       case Cancelled => after == before && n == 0
  }

  predicate MatchOk(plain: Bytes -> bool, root: Bytes, m: Match) {
    Shown(plain, root, m.path) && m.line >= 1 && |m.text| <= MAX_TEXT && Utf8.Valid(m.text)
  }

  lemma {:induction false} MatchesInAre(path: Bytes, lines: seq<Bytes>, hit: Bytes -> bool, n: nat)
    requires n <= |lines| && forall k :: 0 <= k < n ==> GoodLine(lines[k])
    ensures var ms := MatchesIn(path, lines, hit, n);
            && (forall m :: m in ms ==>
                m.path == path && 1 <= m.line <= n && |m.text| <= MAX_TEXT && Utf8.Valid(m.text))
            && (forall i, j :: 0 <= i < j < |ms| ==> ms[i].line < ms[j].line)
  {
    if n > 0 { MatchesInAre(path, lines, hit, n - 1); }
  }

  /** A root's files: what opening a candidate gives. Nothing: it does not open, or is not a regular file of the size
      allowed. */
  function Opened(files: map<Bytes, Bytes>, path: Bytes): seq<Bytes> {
    if path in files && |files[path]| <= MAX_FILE then [files[path]] else []
  }

  function Adds(files: map<Bytes, Bytes>, glob: Bytes -> bool, hit: Bytes -> bool, path: Bytes): seq<Match> {
    if !glob(path) || Opened(files, path) == [] then [] else Contribution(path, FilePages.Scan(files[path]), hit)
  }

  /** What the candidates add together. */
  function AddAll(files: map<Bytes, Bytes>, glob: Bytes -> bool, hit: Bytes -> bool, paths: seq<Bytes>): seq<Match> {
    if |paths| == 0 then []
    else AddAll(files, glob, hit, paths[..|paths| - 1]) + Adds(files, glob, hit, paths[|paths| - 1])
  }

  lemma AddOne(files: map<Bytes, Bytes>, glob: Bytes -> bool, hit: Bytes -> bool, paths: seq<Bytes>, path: Bytes)
    ensures AddAll(files, glob, hit, paths + [path]) == AddAll(files, glob, hit, paths) + Adds(files, glob, hit, path)
  {
    assert (paths + [path])[..|paths|] == paths;
  }

  /** The matches of the first n lines of a file, which are text. */
  ghost predicate PartOf(files: map<Bytes, Bytes>, glob: Bytes -> bool, hit: Bytes -> bool, path: Bytes,
                         part: seq<Match>) {
    && glob(path) && Opened(files, path) != []
    && var f := FilePages.Scan(files[path]);
       exists n :: 0 <= n <= |f.lines| && PartAt(f, hit, path, part, n)
  }

  ghost predicate PartAt(f: FilePages.Scanned, hit: Bytes -> bool, path: Bytes, part: seq<Match>, n: nat) {
    n <= |f.lines| && (forall k :: 0 <= k < n ==> GoodLine(f.lines[k])) && part == MatchesIn(path, f.lines, hit, n)
  }

  /** A search that has gone through done and then, perhaps, through some lines of one more candidate. */
  ghost predicate Gathered(files: map<Bytes, Bytes>, glob: Bytes -> bool, hit: Bytes -> bool, done: seq<Bytes>,
                           more: seq<Bytes>, ms: seq<Match>) {
    && |more| <= 1 && AddAll(files, glob, hit, done) <= ms
    && var part := ms[|AddAll(files, glob, hit, done)|..];
       part != [] ==> |more| == 1 && PartOf(files, glob, hit, more[0], part)
  }

  /** How much of a candidate is read. */
  function ReadOf(files: map<Bytes, Bytes>, glob: Bytes -> bool, path: Bytes): nat {
    if glob(path) && Opened(files, path) != [] then |files[path]| else 0
  }

  function ReadOfAll(files: map<Bytes, Bytes>, glob: Bytes -> bool, paths: seq<Bytes>): nat {
    if |paths| == 0 then 0
    else ReadOfAll(files, glob, paths[..|paths| - 1]) + ReadOf(files, glob, paths[|paths| - 1])
  }

  /** The candidates that are searched but reported as skipped: they cannot be opened, or are no text. */
  function PassedOver(files: map<Bytes, Bytes>, glob: Bytes -> bool): Bytes -> bool {
    path => glob(path) && (Opened(files, path) == [] || !IsText(FilePages.Scan(files[path])))
  }

  /** Why a search stops at a candidate: to read it would be too much, or one of its lines finds no room. */
  ghost predicate Full(files: map<Bytes, Bytes>, glob: Bytes -> bool, hit: Bytes -> bool, limit: nat, path: Bytes,
                       read: nat, before: seq<Match>, after: seq<Match>) {
    && glob(path) && Opened(files, path) != []
    && (|| (read + |files[path]| > 1073741824 && after == before)
        || exists n :: StopsAtLine(path, FilePages.Scan(files[path]), hit, limit, before, after, n))
  }

  datatype GrepState = GrepState(matches: seq<Match>, responseBytes: nat, totalRead: nat, skipped: nat)

  predicate WithinBudget(s: GrepState, limit: nat) {
    s.responseBytes == MatchBytes(s.matches) <= MAX_RESPONSE && |s.matches| <= limit && s.totalRead <= MAX_TOTAL_READ
  }

  /** The callback of Grep for one candidate. */
  method GrepCandidate(files: map<Bytes, Bytes>, glob: Bytes -> bool, hit: Bytes -> bool, limit: nat, path: Bytes,
                       s: GrepState, ghost done: seq<Bytes>) returns (r: GrepState, o: FileOutcome)
    requires WithinBudget(s, limit) && s.matches == AddAll(files, glob, hit, done)
    ensures WithinBudget(r, limit) && o != RolledBack
    ensures o == Searched ==> && r.matches == AddAll(files, glob, hit, done + [path])
                              && r.totalRead == s.totalRead + ReadOf(files, glob, path)
                              && r.skipped == s.skipped + if PassedOver(files, glob)(path) then 1 else 0
    ensures o != Searched ==> Gathered(files, glob, hit, done, [path], r.matches)
    ensures o == Stopped ==>
              Full(files, glob, hit, limit, path, s.totalRead, s.matches, r.matches) && r.skipped == s.skipped
  {
    AddOne(files, glob, hit, done, path);
    if !glob(path) {
      return s, Searched;
    }
    var found := Opened(files, path);
    if found == [] {
      return s.(skipped := s.skipped + 1), Searched;
    }
    if s.totalRead + |found[0]| > MAX_TOTAL_READ {
      return s, Stopped;
    }
    var f := FilePages.Scan(found[0]);
    var matches, responseBytes, outcome, n := GrepFile(path, f, hit, limit, s.matches, s.responseBytes);
    if outcome == Stopped {
      assert matches[|s.matches|..] == MatchesIn(path, f.lines, hit, n);
      assert PartAt(f, hit, path, matches[|s.matches|..], n);
    }
    var skipped := if outcome == RolledBack then s.skipped + 1 else s.skipped;
    return GrepState(matches, responseBytes, s.totalRead + |found[0]|, skipped),
           if outcome == RolledBack then Searched else outcome;
  }

  predicate KeyLe(a: Match, b: Match) {
    if a.path == b.path then a.line <= b.line else Le(a.path, b.path)
  }

  lemma KeyTransitive(a: Match, b: Match, c: Match)
    requires KeyLe(a, b) && KeyLe(b, c)
    ensures KeyLe(a, c)
  {
    if a.path != b.path && b.path != c.path {
      LeTransitive(a.path, b.path, c.path);
      if a.path == c.path { LeAntisymmetric(a.path, b.path); }
    }
  }

  lemma KeyOrder()
    ensures TotalPreorder(KeyLe)
  {
    forall x, y ensures KeyLe(x, y) || KeyLe(y, x) { LeTotal(x.path, y.path); }
    forall x, y, z | KeyLe(x, y) && KeyLe(y, z) ensures KeyLe(x, z) { KeyTransitive(x, y, z); }
  }

  /** The client's test of two matches next to each other. */
  predicate Follows(previous: Match, m: Match) {
    Le(previous.path, m.path) && !(previous.path == m.path && previous.line >= m.line)
  }

  predicate AcceptsMatch(plain: Bytes -> bool, root: Bytes, ms: seq<Match>, k: nat)
    requires k < |ms|
  {
    MatchOk(plain, root, ms[k]) && (k > 0 ==> Follows(ms[k - 1], ms[k]))
  }

  predicate AcceptsGrep(plain: Bytes -> bool, r: GrepReply, root: Bytes, limit: nat) {
    && |r.matches| <= limit && |r.matches| <= MAX_RESULTS
    && (forall k :: 0 <= k < |r.matches| ==> AcceptsMatch(plain, root, r.matches, k))
    && MatchBytes(r.matches) <= MAX_RESPONSE
  }

  /** Before in path, or in the same path in an earlier line. */
  predicate KeyLess(a: Match, b: Match) { Less(a.path, b.path) || (a.path == b.path && a.line < b.line) }

  lemma FollowsIsLess(a: Match, b: Match)
    ensures Follows(a, b) <==> KeyLess(a, b)
  {
    LeTotal(a.path, a.path);
  }

  lemma StrictlyOrdered(ms: seq<Match>)
    ensures (forall k :: 1 <= k < |ms| ==> Follows(ms[k - 1], ms[k]))
            <==> forall i, j :: 0 <= i < j < |ms| ==> KeyLess(ms[i], ms[j])
  {
    if forall k :: 1 <= k < |ms| ==> Follows(ms[k - 1], ms[k]) {
      forall i, j | 0 <= i < j < |ms| ensures KeyLess(ms[i], ms[j]) { FollowingIsOrdered(ms, i, j); }
    }
    if forall i, j :: 0 <= i < j < |ms| ==> KeyLess(ms[i], ms[j]) {
      forall k | 1 <= k < |ms| ensures Follows(ms[k - 1], ms[k]) { FollowsIsLess(ms[k - 1], ms[k]); }
    }
  }

  /** The client accepts exactly: as many matches as asked for at most, and 2000; each with a valid path within the
      search path, a line from 1 on, and a text of at most 16 KiB; in strictly ascending order of path and line; and
      no more than 128 KiB with what is counted for each. */
  lemma AcceptsGrepIff(plain: Bytes -> bool, r: GrepReply, root: Bytes, limit: nat)
    ensures AcceptsGrep(plain, r, root, limit)
            <==> && |r.matches| <= limit && |r.matches| <= 2000 && MatchBytes(r.matches) <= 131072
                 && (forall m :: m in r.matches ==>
                       && ValidRelative(plain, m.path, false) && Within(root, m.path) && m.line >= 1
                       && |m.text| <= 16384 && Utf8.Valid(m.text))
                 && forall i, j :: 0 <= i < j < |r.matches| ==> KeyLess(r.matches[i], r.matches[j])
  {
    var ms := r.matches;
    if forall m :: m in ms ==> MatchOk(plain, root, m) {
      AcceptedMatches(plain, root, ms);
      StrictlyOrdered(ms);
    } else {
      var m :| m in ms && !MatchOk(plain, root, m);
      var k :| 0 <= k < |ms| && ms[k] == m;
      assert !AcceptsMatch(plain, root, ms, k);
    }
  }

  /** validRuntimeGrepResult. */
  method ValidGrepResult(plain: Bytes -> bool, r: GrepReply, root: Bytes, limit: nat) returns (ok: bool)
    ensures ok == AcceptsGrep(plain, r, root, limit)
  {
    if |r.matches| > limit || |r.matches| > MAX_RESULTS {
      return false;
    }
    var budget := 0;
    for i := 0 to |r.matches|
      invariant budget == MatchBytes(r.matches[..i])
      invariant forall k :: 0 <= k < i ==> AcceptsMatch(plain, root, r.matches, k)
    {
      var m := r.matches[i];
      if !AcceptsMatch(plain, root, r.matches, i) {
        return false;
      }
      MatchBytesOne(r.matches[..i], m);
      assert r.matches[..i + 1] == r.matches[..i] + [m];
      budget := budget + |m.path| + |m.text| + 32;
    }
    assert r.matches[..|r.matches|] == r.matches;
    return budget <= MAX_RESPONSE;
  }

  lemma {:induction false} MatchBytesPermuted(a: seq<Match>, b: seq<Match>)
    requires multiset(a) == multiset(b)
    ensures MatchBytes(a) == MatchBytes(b)
    decreases |a|
  {
    if |a| == 0 {
      assert |multiset(b)| == 0;
    } else {
      assert a[|a| - 1] in multiset(b);
      var k :| 0 <= k < |b| && b[k] == a[|a| - 1];
      LastRemoved(a, b, k);
      MatchBytesPermuted(a[..|a| - 1], Without(b, k));
      MatchBytesWithout(b, k);
    }
  }

  lemma {:induction false} MatchBytesWithout(b: seq<Match>, k: nat)
    requires k < |b|
    ensures MatchBytes(b) == MatchBytes(Without(b, k)) + |b[k].path| + |b[k].text| + 32
    decreases |b|
  {
    WithoutLast(b, k);
    if k < |b| - 1 { MatchBytesWithout(b[..|b| - 1], k); }
  }

  /** No line of a path is reported twice. */
  ghost predicate DistinctKeys(ms: seq<Match>) {
    forall i, j :: 0 <= i < j < |ms| ==> !(ms[i].path == ms[j].path && ms[i].line == ms[j].line)
  }

  lemma KeysPermuted(a: seq<Match>, b: seq<Match>)
    requires multiset(a) == multiset(b) && DistinctKeys(a)
    ensures DistinctKeys(b)
  {
    assert Distinct(a);
    SameDistinct(a, b);
    forall i, j | 0 <= i < j < |b| ensures !(b[i].path == b[j].path && b[i].line == b[j].line) {
      assert b[i] in multiset(a) && b[j] in multiset(a);
      var x :| 0 <= x < |a| && a[x] == b[i];
      var y :| 0 <= y < |a| && a[y] == b[j];
    }
  }

  lemma {:induction false} FollowingIsOrdered(ms: seq<Match>, i: nat, j: nat)
    requires i < j < |ms| && forall k :: 1 <= k < |ms| ==> Follows(ms[k - 1], ms[k])
    ensures KeyLe(ms[i], ms[j]) && !(ms[i].path == ms[j].path && ms[i].line == ms[j].line)
  {
    assert Follows(ms[j - 1], ms[j]);
    if i + 1 < j {
      FollowingIsOrdered(ms, i, j - 1);
      KeyTransitive(ms[i], ms[j - 1], ms[j]);
      if ms[i].path == ms[j].path && ms[j - 1].path != ms[j].path { LeAntisymmetric(ms[i].path, ms[j - 1].path); }
    }
  }

  lemma FollowsIff(sorted: seq<Match>)
    requires Ordered(sorted, KeyLe)
    ensures (forall k :: 1 <= k < |sorted| ==> Follows(sorted[k - 1], sorted[k])) <==> DistinctKeys(sorted)
  {
    if DistinctKeys(sorted) {
      forall k | 1 <= k < |sorted| ensures Follows(sorted[k - 1], sorted[k]) {
        assert KeyLe(sorted[k - 1], sorted[k]);
        LeTotal(sorted[k].path, sorted[k].path);
      }
    }
    if forall k :: 1 <= k < |sorted| ==> Follows(sorted[k - 1], sorted[k]) {
      forall i, j | 0 <= i < j < |sorted|
        ensures !(sorted[i].path == sorted[j].path && sorted[i].line == sorted[j].line) {
        FollowingIsOrdered(sorted, i, j);
      }
    }
  }

  lemma AcceptedMatches(plain: Bytes -> bool, root: Bytes, ms: seq<Match>)
    requires forall k :: 0 <= k < |ms| ==> MatchOk(plain, root, ms[k])
    ensures (forall k :: 0 <= k < |ms| ==> AcceptsMatch(plain, root, ms, k))
            <==> forall k :: 1 <= k < |ms| ==> Follows(ms[k - 1], ms[k])
  {
    if forall k :: 0 <= k < |ms| ==> AcceptsMatch(plain, root, ms, k) {
      forall k | 1 <= k < |ms| ensures Follows(ms[k - 1], ms[k]) { assert AcceptsMatch(plain, root, ms, k); }
    }
  }

  /** The sorted result of a grep is accepted exactly if no line of a path was reported twice. */
  lemma GrepIsAcceptedIff(plain: Bytes -> bool, root: Bytes, kept: seq<Match>, sorted: seq<Match>, skipped: nat,
                          stopped: bool, limit: nat)
    requires multiset(sorted) == multiset(kept) && Ordered(sorted, KeyLe)
    requires |kept| <= limit <= MAX_RESULTS && MatchBytes(kept) <= MAX_RESPONSE
    requires forall m :: m in kept ==> MatchOk(plain, root, m)
    ensures AcceptsGrep(plain, GrepReply(sorted, skipped, stopped), root, limit) <==> DistinctKeys(kept)
  {
    MatchBytesPermuted(sorted, kept);
    assert |multiset(sorted)| == |multiset(kept)|;
    forall k | 0 <= k < |sorted| ensures MatchOk(plain, root, sorted[k]) { assert sorted[k] in multiset(kept); }
    FollowsIff(sorted);
    AcceptedMatches(plain, root, sorted);
    if DistinctKeys(kept) { KeysPermuted(kept, sorted); }
    if DistinctKeys(sorted) { KeysPermuted(sorted, kept); }
  }

  lemma NextVisited(steps: seq<Step>, i: nat)
    requires i < |steps|
    ensures Visited(steps[..i + 1])
            == if steps[i].Visit? then Visited(steps[..i]) + [steps[i].path] else Visited(steps[..i])
  {
    assert steps[..i + 1] == steps[..i] + [steps[i]];
    VisitedJoins(steps[..i], [steps[i]]);
    OneVisited([steps[i]]);
  }

  /** Why a search stops: the enumeration has come to its limit, or the candidate finds no room. */
  ghost predicate StopsAtStep(files: map<Bytes, Bytes>, glob: Bytes -> bool, hit: Bytes -> bool, limit: nat, step: Step,
                              read: nat, before: seq<Match>, after: seq<Match>) {
    match step
    case Limit => after == before
    case Visit(path) => Full(files, glob, hit, limit, path, read, before, after)
    case Skip => false
  }

  /** A search that has gone through the first m steps: what it reports as skipped, and, if there are more steps, why it
      has not gone on. */
  ghost predicate Accounts(steps: seq<Step>, files: map<Bytes, Bytes>, glob: Bytes -> bool, hit: Bytes -> bool,
                           limit: nat, skipped: nat, stopped: bool, m: nat, ms: seq<Match>) {
    && m <= |steps| && var done := Visited(steps[..m]);
    && skipped == Skips(steps[..m]) + |Filter(done, PassedOver(files, glob))|
    && (if stopped then m < |steps| && StopsAtStep(files, glob, hit, limit, steps[m], ReadOfAll(files, glob, done),
                                                   AddAll(files, glob, hit, done), ms)
        else m == |steps| && ms == AddAll(files, glob, hit, done))
  }

  lemma NextAccount(steps: seq<Step>, i: nat, files: map<Bytes, Bytes>, glob: Bytes -> bool)
    requires i < |steps|
    ensures var before, after := Visited(steps[..i]), Visited(steps[..i + 1]);
            && ReadOfAll(files, glob, after)
               == ReadOfAll(files, glob, before) + (if steps[i].Visit? then ReadOf(files, glob, steps[i].path) else 0)
            && Skips(steps[..i + 1]) + |Filter(after, PassedOver(files, glob))|
               == Skips(steps[..i]) + |Filter(before, PassedOver(files, glob))|
                  + (match steps[i]
                     case Skip => 1
                     case Limit => 0
                     case Visit(path) => if PassedOver(files, glob)(path) then 1 else 0)
  {
    NextVisited(steps, i);
    NextStep(steps, i, PassedOver(files, glob));
    assert steps[..i + 1][..i] == steps[..i];
    if steps[i].Visit? { assert Visited(steps[..i + 1])[..|Visited(steps[..i])|] == Visited(steps[..i]); }
  }

  /** The state of a search that has gone through the first i steps. */
  ghost predicate SoFar(steps: seq<Step>, files: map<Bytes, Bytes>, glob: Bytes -> bool, hit: Bytes -> bool, i: nat,
                        s: GrepState) {
    && i <= |steps| && s.matches == AddAll(files, glob, hit, Visited(steps[..i]))
    && s.totalRead == ReadOfAll(files, glob, Visited(steps[..i]))
    && s.skipped == Skips(steps[..i]) + |Filter(Visited(steps[..i]), PassedOver(files, glob))|
  }

  lemma NextSoFar(steps: seq<Step>, i: nat, files: map<Bytes, Bytes>, glob: Bytes -> bool, hit: Bytes -> bool,
                  s: GrepState, r: GrepState)
    requires i < |steps| && SoFar(steps, files, glob, hit, i, s)
    requires match steps[i]
             case Limit => false
             case Skip => r.matches == s.matches && r.totalRead == s.totalRead && r.skipped == s.skipped + 1
             case Visit(path) => && r.matches == AddAll(files, glob, hit, Visited(steps[..i]) + [path])
                                 && r.totalRead == s.totalRead + ReadOf(files, glob, path)
                                 && r.skipped == s.skipped + if PassedOver(files, glob)(path) then 1 else 0
    ensures SoFar(steps, files, glob, hit, i + 1, r)
  {
    NextVisited(steps, i);
    NextAccount(steps, i, files, glob);
  }

  lemma StopAccounts(steps: seq<Step>, i: nat, files: map<Bytes, Bytes>, glob: Bytes -> bool, hit: Bytes -> bool,
                     limit: nat, s: GrepState, after: seq<Match>)
    requires i < |steps| && SoFar(steps, files, glob, hit, i, s)
    requires StopsAtStep(files, glob, hit, limit, steps[i], s.totalRead, s.matches, after)
    ensures Accounts(steps, files, glob, hit, limit, s.skipped, true, i, after)
  {}

  /** One step of the enumeration. */
  method GrepStep(steps: seq<Step>, i: nat, files: map<Bytes, Bytes>, glob: Bytes -> bool, hit: Bytes -> bool,
                  limit: nat, s: GrepState)
    returns (r: GrepState, o: FileOutcome)
    requires i < |steps| && WithinBudget(s, limit) && SoFar(steps, files, glob, hit, i, s)
    ensures WithinBudget(r, limit) && o != RolledBack
    ensures o == Searched ==> SoFar(steps, files, glob, hit, i + 1, r) && !steps[i].Limit?
    ensures o != Searched ==> GatheredUpTo(files, glob, hit, Visited(steps), |Visited(steps[..i])|, r.matches)
    ensures o == Stopped ==> Accounts(steps, files, glob, hit, limit, r.skipped, true, i, r.matches)
  {
    ghost var done := Visited(steps[..i]);
    match steps[i]
    case Skip =>
      r, o := s.(skipped := s.skipped + 1), Searched;
      NextSoFar(steps, i, files, glob, hit, s, r);
    case Limit =>
      StoppedIn(steps, i, files, glob, hit, s.matches);
      StopAccounts(steps, i, files, glob, hit, limit, s, s.matches);
      r, o := s, Stopped;
    case Visit(path) =>
      r, o := GrepCandidate(files, glob, hit, limit, path, s, done);
      if o == Searched {
        NextSoFar(steps, i, files, glob, hit, s, r);
      } else {
        StoppedIn(steps, i, files, glob, hit, r.matches);
        if o == Stopped { StopAccounts(steps, i, files, glob, hit, limit, s, r.matches); }
      }
  }

  /** What a search has gathered from the first of the paths. */
  ghost predicate GatheredUpTo(files: map<Bytes, Bytes>, glob: Bytes -> bool, hit: Bytes -> bool, paths: seq<Bytes>,
                               n: nat, ms: seq<Match>) {
    n <= |paths| && Gathered(files, glob, hit, paths[..n], if n < |paths| then [paths[n]] else [], ms)
  }

  /** Grep over the enumeration; cancelled: the search ends with the caller's error. */
  method GrepAll(steps: seq<Step>, files: map<Bytes, Bytes>, glob: Bytes -> bool, hit: Bytes -> bool, limit: nat)
    returns (s: GrepState, stopped: bool, cancelled: bool, ghost n: nat, ghost m: nat)
    ensures WithinBudget(s, limit) && GatheredUpTo(files, glob, hit, Visited(steps), n, s.matches)
    ensures !stopped && !cancelled ==> s.matches == AddAll(files, glob, hit, Visited(steps)) && Limit !in steps
    ensures !cancelled ==> Accounts(steps, files, glob, hit, limit, s.skipped, stopped, m, s.matches)
  {
    s, stopped, cancelled, n, m := GrepState([], 0, 0, 0), false, false, 0, 0;
    for i := 0 to |steps|
      invariant WithinBudget(s, limit) && SoFar(steps, files, glob, hit, i, s)
      invariant !stopped && !cancelled && Limit !in steps[..i]
    {
      var o;
      s, o := GrepStep(steps, i, files, glob, hit, limit, s);
      if o != Searched {
        return s, o == Stopped, o == Cancelled, |Visited(steps[..i])|, i;
      }
    }
    assert steps[..|steps|] == steps;
    n, m := |Visited(steps)|, |steps|;
    assert Visited(steps)[..n] == Visited(steps);
  }

  lemma StoppedIn(steps: seq<Step>, i: nat, files: map<Bytes, Bytes>, glob: Bytes -> bool, hit: Bytes -> bool,
                  ms: seq<Match>)
    requires i < |steps|
    requires Gathered(files, glob, hit, Visited(steps[..i]), if steps[i].Visit? then [steps[i].path] else [], ms)
    ensures GatheredUpTo(files, glob, hit, Visited(steps), |Visited(steps[..i])|, ms)
  {
    NextVisited(steps, i);
    assert steps == steps[..i + 1] + steps[i + 1..];
    VisitedJoins(steps[..i + 1], steps[i + 1..]);
    var more := if steps[i].Visit? then [steps[i].path] else [];
    Between(Visited(steps[..i]), more, Visited(steps[i + 1..]));
    assert Visited(steps) == Visited(steps[..i]) + more + Visited(steps[i + 1..]);
  }

  lemma Between(a: seq<Bytes>, b: seq<Bytes>, c: seq<Bytes>)
    ensures (a + b + c)[..|a|] == a && (|b| == 1 ==> [(a + b + c)[|a|]] == b)
  {}

  // ---------------------------------------------------------------- which lines are reported twice

  /** The candidates that have matches in them. */
  function Contributes(files: map<Bytes, Bytes>, glob: Bytes -> bool, hit: Bytes -> bool): Bytes -> bool {
    p => Adds(files, glob, hit, p) != []
  }

  ghost predicate OkLine(m: Match) { m.line >= 1 && |m.text| <= MAX_TEXT && Utf8.Valid(m.text) }

  /** Matches of one path, line after line. */
  ghost predicate LinesOf(path: Bytes, ms: seq<Match>) {
    && (forall m :: m in ms ==> m.path == path && OkLine(m))
    && (forall i, j :: 0 <= i < j < |ms| ==> ms[i].line < ms[j].line)
  }

  lemma AddsAreLines(files: map<Bytes, Bytes>, glob: Bytes -> bool, hit: Bytes -> bool, path: Bytes)
    ensures LinesOf(path, Adds(files, glob, hit, path))
  {
    if Adds(files, glob, hit, path) != [] {
      var f := FilePages.Scan(files[path]);
      MatchesInAre(path, f.lines, hit, |f.lines|);
    }
  }

  lemma {:induction false} AddedFrom(files: map<Bytes, Bytes>, glob: Bytes -> bool, hit: Bytes -> bool,
                                     paths: seq<Bytes>)
    ensures forall m :: m in AddAll(files, glob, hit, paths) ==>
              OkLine(m) && m.path in paths && m in Adds(files, glob, hit, m.path)
    ensures forall p, m :: p in paths && m in Adds(files, glob, hit, p) ==> m in AddAll(files, glob, hit, paths)
    decreases |paths|
  {
    if |paths| > 0 {
      var init, last := paths[..|paths| - 1], paths[|paths| - 1];
      AddedFrom(files, glob, hit, init);
      AddsAreLines(files, glob, hit, last);
      assert paths == init + [last];
    }
  }

  /** No key occurs in both. */
  ghost predicate Apart(a: seq<Match>, b: seq<Match>) {
    forall x, y :: x in a && y in b ==> !(x.path == y.path && x.line == y.line)
  }

  lemma KeysJoin(a: seq<Match>, path: Bytes, b: seq<Match>)
    requires LinesOf(path, b)
    ensures DistinctKeys(a + b) <==> DistinctKeys(a) && Apart(a, b)
  {
    var all := a + b;
    if DistinctKeys(all) {
      forall i, j | 0 <= i < j < |a| ensures !(a[i].path == a[j].path && a[i].line == a[j].line) {
        assert all[i] == a[i] && all[j] == a[j];
      }
      forall x, y | x in a && y in b ensures !(x.path == y.path && x.line == y.line) {
        var i :| 0 <= i < |a| && a[i] == x;
        var j :| 0 <= j < |b| && b[j] == y;
        assert all[i] == x && all[|a| + j] == y;
      }
    }
    if DistinctKeys(a) && Apart(a, b) {
      forall i, j | 0 <= i < j < |all| ensures !(all[i].path == all[j].path && all[i].line == all[j].line) {
        if i < |a| <= j { assert all[i] in a && all[j] in b; }
      }
    }
  }

  lemma {:induction false} PartIsFront(path: Bytes, lines: seq<Bytes>, hit: Bytes -> bool, n: nat, m: nat)
    requires n <= m <= |lines|
    ensures MatchesIn(path, lines, hit, n) <= MatchesIn(path, lines, hit, m)
    decreases m
  {
    if n < m { PartIsFront(path, lines, hit, n, m - 1); }
  }

  /** A whole file, or its first lines, has a line that was reported before exactly if it has any, and has been
      searched with success before. */
  lemma ApartIff(files: map<Bytes, Bytes>, glob: Bytes -> bool, hit: Bytes -> bool, done: seq<Bytes>, path: Bytes,
                 part: seq<Match>)
    requires part == Adds(files, glob, hit, path) || PartOf(files, glob, hit, path, part)
    ensures LinesOf(path, part)
    ensures Apart(AddAll(files, glob, hit, done), part)
            <==> part == [] || path !in done || Adds(files, glob, hit, path) == []
  {
    var whole := Adds(files, glob, hit, path);
    AddedFrom(files, glob, hit, done);
    AddsAreLines(files, glob, hit, path);
    if part != whole {
      var f := FilePages.Scan(files[path]);
      var n :| 0 <= n <= |f.lines| && PartAt(f, hit, path, part, n);
      MatchesInAre(path, f.lines, hit, n);
      PartIsFront(path, f.lines, hit, n, |f.lines|);
    }
    if part != [] && path in done && whole != [] {
      assert part <= whole;
      assert part[0] == whole[0] && part[0] in part && part[0] in whole;
      assert !Apart(AddAll(files, glob, hit, done), part);
    }
  }

  lemma OneFiltered(p: Bytes, test: Bytes -> bool)
    ensures Filter([p], test) == if test(p) then [p] else []
  {
    assert [p][1..] == [];
  }

  lemma DistinctLast(s: seq<Bytes>, x: Bytes)
    ensures Distinct(s + [x]) <==> Distinct(s) && x !in s
  {
    var r := s + [x];
    if Distinct(r) {
      FrontDistinct(s, [x]);
      forall i | 0 <= i < |s| ensures s[i] != x { assert r[i] == s[i] && r[|s|] == x; }
    }
  }

  lemma FilterOneMore(init: seq<Bytes>, last: Bytes, test: Bytes -> bool)
    ensures Distinct(Filter(init + [last], test)) <==> Distinct(Filter(init, test)) && (test(last) ==> last !in init)
  {
    FilterJoins(init, [last], test);
    OneFiltered(last, test);
    FilterHas(init, test, last);
    DistinctLast(Filter(init, test), last);
    assert Filter(init, test) + [] == Filter(init, test);
  }

  lemma KeysOfOneMore(files: map<Bytes, Bytes>, glob: Bytes -> bool, hit: Bytes -> bool, init: seq<Bytes>, last: Bytes)
    ensures DistinctKeys(AddAll(files, glob, hit, init + [last]))
            <==> DistinctKeys(AddAll(files, glob, hit, init)) && (Adds(files, glob, hit, last) == [] || last !in init)
  {
    AddOne(files, glob, hit, init, last);
    ApartIff(files, glob, hit, init, last, Adds(files, glob, hit, last));
    KeysJoin(AddAll(files, glob, hit, init), last, Adds(files, glob, hit, last));
  }

  /** No line is reported twice exactly if no candidate with matches was visited twice. */
  lemma {:induction false} KeysOfAll(files: map<Bytes, Bytes>, glob: Bytes -> bool, hit: Bytes -> bool,
                                     paths: seq<Bytes>)
    ensures DistinctKeys(AddAll(files, glob, hit, paths)) <==> Distinct(Filter(paths, Contributes(files, glob, hit)))
    decreases |paths|
  {
    if |paths| > 0 {
      var init, last := paths[..|paths| - 1], paths[|paths| - 1];
      assert paths == init + [last];
      KeysOfAll(files, glob, hit, init);
      KeysOfOneMore(files, glob, hit, init, last);
      FilterOneMore(init, last, Contributes(files, glob, hit));
    }
  }

  /** The first n paths have each been searched with success at most once, and what was found in the path after them
      was found in no earlier one. */
  ghost predicate NoneSearchedTwice(files: map<Bytes, Bytes>, glob: Bytes -> bool, hit: Bytes -> bool,
                                    paths: seq<Bytes>,
                                    n: nat, ms: seq<Match>)
    requires n <= |paths|
  {
    var before := Filter(paths[..n], Contributes(files, glob, hit));
    Distinct(before) && (ms != AddAll(files, glob, hit, paths[..n]) ==> n < |paths| && paths[n] !in before)
  }

  lemma KeysOfGathered(files: map<Bytes, Bytes>, glob: Bytes -> bool, hit: Bytes -> bool, paths: seq<Bytes>, n: nat,
                       ms: seq<Match>)
    requires GatheredUpTo(files, glob, hit, paths, n, ms)
    ensures DistinctKeys(ms) <==> NoneSearchedTwice(files, glob, hit, paths, n, ms)
    ensures forall m :: m in ms ==> OkLine(m) && m.path in paths
  {
    var done := paths[..n];
    var part := PartBehind(files, glob, hit, paths, n, ms);
    KeysOfAll(files, glob, hit, done);
    AddedFrom(files, glob, hit, done);
    if part != [] { KeysOfPart(files, glob, hit, done, paths[n], part); }
  }

  /** What was gathered is what all the first n paths add, and a part of what the next one does. */
  lemma PartBehind(files: map<Bytes, Bytes>, glob: Bytes -> bool, hit: Bytes -> bool, paths: seq<Bytes>, n: nat,
                   ms: seq<Match>) returns (part: seq<Match>)
    requires GatheredUpTo(files, glob, hit, paths, n, ms)
    ensures n <= |paths| && ms == AddAll(files, glob, hit, paths[..n]) + part
    ensures if part == [] then ms == AddAll(files, glob, hit, paths[..n])
            else ms != AddAll(files, glob, hit, paths[..n]) && n < |paths| && PartOf(files, glob, hit, paths[n], part)
  {
    var all := AddAll(files, glob, hit, paths[..n]);
    part := ms[|all|..];
    assert ms == all + part;
  }

  lemma KeysOfPart(files: map<Bytes, Bytes>, glob: Bytes -> bool, hit: Bytes -> bool, done: seq<Bytes>, path: Bytes,
                   part: seq<Match>)
    requires part != [] && PartOf(files, glob, hit, path, part)
    ensures var all := AddAll(files, glob, hit, done);
            DistinctKeys(all + part) <==> DistinctKeys(all) && path !in Filter(done, Contributes(files, glob, hit))
    ensures LinesOf(path, part)
  {
    ApartIff(files, glob, hit, done, path, part);
    KeysJoin(AddAll(files, glob, hit, done), path, part);
    FilterHas(done, Contributes(files, glob, hit), path);
  }

  lemma NotInBoth(a: seq<Bytes>, b: seq<Bytes>, x: Bytes)
    requires Distinct(a + b) && x in b
    ensures x !in a
  {
    var j :| 0 <= j < |b| && b[j] == x;
    forall i | 0 <= i < |a| ensures a[i] != x {
      assert (a + b)[i] == a[i] && (a + b)[|a| + j] == x;
    }
  }

  lemma NoneListedNoneSearched(files: map<Bytes, Bytes>, glob: Bytes -> bool, hit: Bytes -> bool, paths: seq<Bytes>,
                               n: nat, ms: seq<Match>)
    requires GatheredUpTo(files, glob, hit, paths, n, ms) && Distinct(Filter(paths, Contributes(files, glob, hit)))
    ensures NoneSearchedTwice(files, glob, hit, paths, n, ms)
  {
    var test := Contributes(files, glob, hit);
    var a, b := paths[..n], paths[n..];
    assert paths == a + b;
    FilterJoins(a, b, test);
    FrontDistinct(Filter(a, test), Filter(b, test));
    if ms != AddAll(files, glob, hit, a) && paths[n] in Filter(a, test) {
      FilterHas(a, test, paths[n]);
      FilterHas(b, test, paths[n]);
      assert b[0] == paths[n];
      NotInBoth(Filter(a, test), Filter(b, test), paths[n]);
      assert false;
    }
  }

  datatype GrepOutcome = Found(reply: GrepReply) | GrepCancelled

  /** What a finished search has to say, for the n it got to. */
  ghost predicate Reports(plain: Bytes -> bool, root: Bytes, l: Listing, files: map<Bytes, Bytes>, glob: Bytes -> bool,
                          hit: Bytes -> bool, limit: nat, reply: GrepReply, n: nat, ms: seq<Match>) {
    var paths := Visited(Steps(plain, root, l));
    && GatheredUpTo(files, glob, hit, paths, n, ms) && multiset(reply.matches) == multiset(ms)
    && (AcceptsGrep(plain, reply, root, limit) <==> NoneSearchedTwice(files, glob, hit, paths, n, ms))
  }

  /** Grep, past the checks of its request: it returns the matches of the candidates from the first on, sorted, and
      all of them unless it says that a limit was reached. The client accepts the result exactly if no candidate with
      matches came twice; in particular if none is listed twice, and if no limit was reached, exactly then. */
  method Grep(plain: Bytes -> bool, root: Bytes, l: Listing, files: map<Bytes, Bytes>, glob: Bytes -> bool,
              hit: Bytes -> bool, limit: nat)
    returns (r: GrepOutcome, ghost ms: seq<Match>, ghost n: nat, ghost m: nat, ghost skipped: nat)
    requires ProperListing(root, l) && 1 <= limit <= MAX_RESULTS
    ensures r.Found? ==>
              && Reports(plain, root, l, files, glob, hit, limit, r.reply, n, ms)
              && Accounts(Steps(plain, root, l), files, glob, hit, limit, skipped, r.reply.budgetReached, m, ms)
              && r.reply.skipped == skipped + if l.Git? then Unsupported(plain, l.names) else 0
    ensures r.Found? && NoneListedTwice(plain, root, l, Contributes(files, glob, hit)) ==>
              AcceptsGrep(plain, r.reply, root, limit)
    ensures r.Found? && !r.reply.budgetReached ==>
              && multiset(r.reply.matches) == multiset(AddAll(files, glob, hit, Visited(Steps(plain, root, l))))
              && (AcceptsGrep(plain, r.reply, root, limit)
                  <==> NoneListedTwice(plain, root, l, Contributes(files, glob, hit)))
  {
    var steps := Steps(plain, root, l);
    var s, stopped, cancelled;
    s, stopped, cancelled, n, m := GrepAll(steps, files, glob, hit, limit);
    ms, skipped := s.matches, s.skipped;
    if cancelled {
      r := GrepCancelled;
      return;
    }
    KeyOrder();
    var sorted := Sort(s.matches, KeyLe);
    r := Found(GrepReply(sorted, s.skipped + if l.Git? then Unsupported(plain, l.names) else 0, stopped));
    GrepReports(plain, root, l, files, glob, hit, limit, r.reply, n, s.matches);
  }

  lemma GrepReports(plain: Bytes -> bool, root: Bytes, l: Listing, files: map<Bytes, Bytes>, glob: Bytes -> bool,
                    hit: Bytes -> bool, limit: nat, reply: GrepReply, n: nat, ms: seq<Match>)
    requires ProperListing(root, l) && |ms| <= limit <= MAX_RESULTS && MatchBytes(ms) <= MAX_RESPONSE
    requires multiset(reply.matches) == multiset(ms) && Ordered(reply.matches, KeyLe)
    requires GatheredUpTo(files, glob, hit, Visited(Steps(plain, root, l)), n, ms)
    ensures Reports(plain, root, l, files, glob, hit, limit, reply, n, ms)
    ensures NoneListedTwice(plain, root, l, Contributes(files, glob, hit)) ==> AcceptsGrep(plain, reply, root, limit)
    ensures ms == AddAll(files, glob, hit, Visited(Steps(plain, root, l))) && Limit !in Steps(plain, root, l) ==>
              (AcceptsGrep(plain, reply, root, limit)
               <==> NoneListedTwice(plain, root, l, Contributes(files, glob, hit)))
  {
    var paths := Visited(Steps(plain, root, l));
    StepsAreCandidates(plain, root, l);
    KeysOfGathered(files, glob, hit, paths, n, ms);
    forall m | m in ms ensures MatchOk(plain, root, m) { assert m.path in paths; }
    GrepIsAcceptedIff(plain, root, ms, reply.matches, reply.skipped, reply.budgetReached, limit);
    HitsAreListed(plain, root, l, Contributes(files, glob, hit));
    if Distinct(Filter(paths, Contributes(files, glob, hit))) {
      NoneListedNoneSearched(files, glob, hit, paths, n, ms);
    }
    KeysOfAll(files, glob, hit, paths);
  }

  /** An unmerged file with a line that matches is reported twice: the client disconnects for all its matches. */
  lemma UnmergedMatchIsRejected(plain: Bytes -> bool, path: Bytes, files: map<Bytes, Bytes>, glob: Bytes -> bool,
                                hit: Bytes -> bool, limit: nat, reply: GrepReply)
    requires ValidRelative(plain, path, false) && Adds(files, glob, hit, path) != []
    requires multiset(reply.matches) == multiset(AddAll(files, glob, hit, Visited(Steps(plain, HERE, Unmerged(path)))))
    requires Ordered(reply.matches, KeyLe) && |reply.matches| <= limit <= MAX_RESULTS
             && MatchBytes(reply.matches) <= MAX_RESPONSE
    ensures !AcceptsGrep(plain, reply, HERE, limit)
  {
    var ms := AddAll(files, glob, hit, [path, path]);
    UnmergedHits(plain, path, Contributes(files, glob, hit));
    MatchBytesPermuted(reply.matches, ms);
    assert |multiset(reply.matches)| == |multiset(ms)|;
    AddedFrom(files, glob, hit, [path, path]);
    KeysOfAll(files, glob, hit, [path, path]);
    assert [path, path][0] == [path, path][1];
    GrepIsAcceptedIff(plain, HERE, ms, reply.matches, reply.skipped, reply.budgetReached, limit);
  }
}

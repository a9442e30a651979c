/** The static scan of SSH configuration: a depth-first walk over Include directives, within budgets. */
module ConfigDiscovery {
  import opened Wrappers

  const DEFAULT_MAX_FILES := 128
  const DEFAULT_MAX_BYTES := 4194304
  const MAX_FILE_BYTES := 1048576
  const MAX_DEPTH := 5

  /** Paths as they are written, sources by their canonical path, Include patterns, and directories. */
  type Name = nat
  type Source = nat
  type Pattern = nat
  type Base = nat

  /** What reading a source gives. text: it is valid UTF-8; parses: no directive in it is malformed. */
  datatype File = File(regular: bool, size: nat, text: bool, parses: bool, includes: seq<Pattern>)

  /** The file system: which source a path leads to, what the sources are, and what a pattern matches below a
      directory. A pattern that cannot be expanded matches nothing. */
  datatype World = World(canonical: Name -> Option<Source>, files: map<Source, File>,
                         expand: (Pattern, Base) -> seq<Name>)

  datatype Outcome = Ok | Budget | BadSource | ParseError

  // ---------------------------------------------------------------- what is included

  ghost predicate Named(w: World, n: Name, seen: set<Source>) {
    w.canonical(n).Some? && w.canonical(n).value in seen
  }

  /** All that the pattern matches has been seen. */
  ghost predicate Reached(w: World, base: Base, p: Pattern, seen: set<Source>) {
    forall k :: 0 <= k < |w.expand(p, base)| ==> Named(w, w.expand(p, base)[k], seen)
  }

  ghost predicate AllReached(w: World, base: Base, patterns: seq<Pattern>, n: nat, seen: set<Source>)
    requires n <= |patterns|
  {
    forall k :: 0 <= k < n ==> Reached(w, base, patterns[k], seen)
  }

  /** All that the source includes has been seen. */
  ghost predicate Done(w: World, base: Base, s: Source, seen: set<Source>) {
    s in w.files ==> AllReached(w, base, w.files[s].includes, |w.files[s].includes|, seen)
  }

  ghost predicate AllDone(w: World, base: Base, sources: set<Source>, seen: set<Source>) {
    forall s :: s in sources ==> Done(w, base, s, seen)
  }

  /** A set of sources that has everything its members include. */
  ghost predicate Closed(w: World, base: Base, c: set<Source>) { AllDone(w, base, c, c) }

  /** Source s has a pattern that matches a name of source t. */
  ghost predicate Includes(w: World, base: Base, s: Source, t: Source) {
    && s in w.files
    && exists p, k ::
      p in w.files[s].includes && 0 <= k < |w.expand(p, base)| && w.canonical(w.expand(p, base)[k]) == Some(t)
  }

  /** A chain of includes. */
  ghost predicate Trail(w: World, base: Base, trail: seq<Source>) {
    |trail| > 0 && forall k :: 1 <= k < |trail| ==> Includes(w, base, trail[k - 1], trail[k])
  }

  /** A chain of includes leads from root to t, past none of the sources in out. */
  ghost predicate Reachable(w: World, base: Base, out: set<Source>, root: Source, t: Source) {
    exists trail :: Trail(w, base, trail) && Avoids(trail, out) && trail[0] == root && trail[|trail| - 1] == t
  }

  ghost predicate Avoids(trail: seq<Source>, out: set<Source>) {
    |trail| > 0 && forall k :: 0 <= k < |trail| ==> trail[k] !in out
  }

  lemma RootIsReachable(w: World, base: Base, out: set<Source>, root: Source)
    requires root !in out
    ensures Reachable(w, base, out, root, root)
  {
    assert Trail(w, base, [root]) && Avoids([root], out);
  }

  /** A chain that keeps out of some sources stays inside a set in which all others are done. */
  lemma {:induction false} TrailStaysInside(w: World, base: Base, out: set<Source>, trail: seq<Source>, c: set<Source>)
    requires Trail(w, base, trail) && Avoids(trail, out) && AllDone(w, base, c - out, c) && trail[0] in c
    ensures trail[|trail| - 1] in c
    decreases |trail|
  {
    if |trail| > 1 {
      var front := trail[..|trail| - 1];
      assert Trail(w, base, front) by {
        forall k | 1 <= k < |front| ensures Includes(w, base, front[k - 1], front[k]) {
          assert Includes(w, base, trail[k - 1], trail[k]);
        }
      }
      TrailStaysInside(w, base, out, front, c);
      IncludedIsInside(w, base, out, c, front[|front| - 1], trail[|trail| - 1]);
    }
  }

  lemma IncludedIsInside(w: World, base: Base, out: set<Source>, c: set<Source>, s: Source, t: Source)
    requires AllDone(w, base, c - out, c) && s in c - out && Includes(w, base, s, t)
    ensures t in c
  {
    var p, k :| p in w.files[s].includes && 0 <= k < |w.expand(p, base)|
      && w.canonical(w.expand(p, base)[k]) == Some(t);
    assert Done(w, base, s, c) && Reached(w, base, p, c) && Named(w, w.expand(p, base)[k], c);
  }

  /** What is reachable is in every set that has the root and all that its members include. */
  lemma ReachableIsInside(w: World, base: Base, out: set<Source>, root: Source, t: Source, c: set<Source>)
    requires Reachable(w, base, out, root, t) && AllDone(w, base, c - out, c) && root in c
    ensures t in c
  {
    var trail :| Trail(w, base, trail) && Avoids(trail, out) && trail[0] == root && trail[|trail| - 1] == t;
    TrailStaysInside(w, base, out, trail, c);
  }

  lemma StillDone(w: World, base: Base, sources: set<Source>, seen: set<Source>, more: set<Source>)
    requires AllDone(w, base, sources, seen) && seen <= more
    ensures AllDone(w, base, sources, more)
  {
    forall s | s in sources ensures Done(w, base, s, more) {
      assert Done(w, base, s, seen);
      StillDoneOne(w, base, s, seen, more);
    }
  }

  lemma StillDoneOne(w: World, base: Base, s: Source, seen: set<Source>, more: set<Source>)
    requires Done(w, base, s, seen) && seen <= more
    ensures Done(w, base, s, more)
  {
    if s in w.files {
      forall k | 0 <= k < |w.files[s].includes| ensures Reached(w, base, w.files[s].includes[k], more) {
        StillReached(w, base, w.files[s].includes[k], seen, more);
      }
    }
  }

  lemma OneMoreReached(w: World, base: Base, patterns: seq<Pattern>, n: nat, seen: set<Source>, more: set<Source>)
    requires n < |patterns| && AllReached(w, base, patterns, n, seen) && seen <= more
             && Reached(w, base, patterns[n], more)
    ensures AllReached(w, base, patterns, n + 1, more)
  {
    forall k | 0 <= k < n ensures Reached(w, base, patterns[k], more) {
      StillReached(w, base, patterns[k], seen, more);
    }
  }

  lemma StillReached(w: World, base: Base, p: Pattern, seen: set<Source>, more: set<Source>)
    requires Reached(w, base, p, seen) && seen <= more
    ensures Reached(w, base, p, more)
  {
    forall k | 0 <= k < |w.expand(p, base)| ensures Named(w, w.expand(p, base)[k], more) {
      assert Named(w, w.expand(p, base)[k], seen);
    }
  }

  // ---------------------------------------------------------------- what can go wrong

  /** A chain of includes, each source once, from the one that root names to one that includes the name n; with no
      chain, n is the root itself. */
  ghost predicate LeadsTo(w: World, base: Base, root: Name, trail: seq<Source>, n: Name) {
    if trail == [] then n == root
    else
      && Trail(w, base, trail) && w.canonical(root) == Some(trail[0])
      && (forall i, j :: 0 <= i < j < |trail| ==> trail[i] != trail[j])
      && IncludesName(w, base, trail[|trail| - 1], n)
  }

  ghost predicate IncludesName(w: World, base: Base, s: Source, n: Name) {
    s in w.files && exists p :: p in w.files[s].includes && n in w.expand(p, base)
  }

  predicate Sound(f: File) { f.regular && f.size <= 1048576 && f.text && f.parses }

  /** What a scan that ends with an error has met at the name n: no source, or none that is a regular file; a source
      that is no text, or has a malformed directive; or too much: a sixth include in a chain, a file above 1 MiB, or a
      source for which there is no room, after those in seen, of which those in parsed count. */
  ghost predicate Blames(w: World, base: Base, root: Name, maxFiles: nat, maxBytes: nat, seen: set<Source>,
                         parsed: seq<Source>, r: Outcome, trail: seq<Source>, n: Name) {
    && LeadsTo(w, base, root, trail, n)
    && var s := w.canonical(n);
    match r
    case Ok => false
    case BadSource => s.None? || s.value !in w.files || !w.files[s.value].regular
    case ParseError => s.Some? && s.value in w.files && !(w.files[s.value].text && w.files[s.value].parses)
    case Budget =>
      || |trail| > 5
      || (s.Some? && s.value !in seen && |seen| >= maxFiles)
      || (s.Some? && s.value !in seen && s.value in w.files
          && (w.files[s.value].size > 1048576 || Sizes(w, parsed) + w.files[s.value].size > maxBytes))
  }

  // ---------------------------------------------------------------- the scan

  function Sizes(w: World, order: seq<Source>): nat {
    if |order| == 0 then 0
    else Sizes(w, order[..|order| - 1]) + if order[|order| - 1] in w.files then w.files[order[|order| - 1]].size else 0
  }

  /** The sources, each once. */
  ghost predicate Lists(order: seq<Source>, sources: set<Source>) {
    && (forall i, j :: 0 <= i < j < |order| ==> order[i] != order[j])
    && (forall s :: s in order <==> s in sources)
  }

  lemma OneMoreListed(order: seq<Source>, sources: set<Source>, s: Source)
    requires Lists(order, sources) && s !in sources
    ensures Lists(order + [s], sources + {s}) && |sources + {s}| == |sources| + 1
  {}

  class Scanner {
    const world: World
    const maxFiles: nat
    const maxBytes: nat
    var bytesRead: nat
    var fileCount: nat
    var seen: set<Source>

    /** The sources whose blocks have been added, in order. */
    var parsed: seq<Source>

    constructor (world: World, maxFiles: int, maxBytes: int)
      ensures this.world == world && Valid() && seen == {}
      ensures 0 < this.maxFiles <= DEFAULT_MAX_FILES && 0 < this.maxBytes <= DEFAULT_MAX_BYTES
    {
      this.world := world;
      this.maxFiles := if maxFiles <= 0 || maxFiles > DEFAULT_MAX_FILES then DEFAULT_MAX_FILES else maxFiles;
      this.maxBytes := if maxBytes <= 0 || maxBytes > DEFAULT_MAX_BYTES then DEFAULT_MAX_BYTES else maxBytes;
      bytesRead, fileCount, seen, parsed := 0, 0, {}, [];
    }

    /** Each source seen is sound and has been parsed once, and the counters are what they count, within the budgets. */
    ghost predicate Valid()
      reads this
    {
      && Lists(parsed, seen)
      && (forall s :: s in seen ==> s in world.files && Sound(world.files[s]))
      && fileCount == |seen| <= maxFiles
      && bytesRead == Sizes(world, parsed) <= maxBytes
    }

    /** Everything that a seen source includes has been seen, but for the sources in open, which are being worked on. */
    ghost predicate Complete(base: Base, open: set<Source>)
      reads this
    {
      AllDone(world, base, seen - open, seen)
    }

    /** The checks of load before a source is marked. */
    function Admission(s: Source): Outcome
      reads this
    {
      if fileCount >= maxFiles then Budget
      else if s !in world.files || !world.files[s].regular then BadSource
      else if world.files[s].size > MAX_FILE_BYTES || world.files[s].size + bytesRead > maxBytes then Budget
      else if !world.files[s].text then ParseError
      else Ok
    }

    /** The part of load before the includes: the checks, and the marking. */
    method Admit(s: Source) returns (r: Outcome)
      requires Valid() && s !in seen
      modifies this
      ensures r == if old(Admission(s)) == Ok && !world.files[s].parses then ParseError else old(Admission(s))
      ensures r == Ok ==> Valid() && s in world.files
      ensures seen == if old(Admission(s)) == Ok then old(seen) + {s} else old(seen)
      ensures r != Ok ==> parsed == old(parsed)
    {
      if fileCount >= maxFiles {
        return Budget;
      }
      if s !in world.files || !world.files[s].regular {
        return BadSource;
      }
      var file := world.files[s];
      var remaining := maxBytes - bytesRead;
      if file.size > MAX_FILE_BYTES || file.size > remaining {
        return Budget;
      }
      if !file.text {
        return ParseError;
      }
      OneMoreSize(world, parsed, s);
      OneMoreListed(parsed, seen, s);
      seen := seen + {s};
      fileCount := fileCount + 1;
      bytesRead := bytesRead + file.size;
      if !file.parses {
        return ParseError;
      }
      parsed := parsed + [s];
      return Ok;
    }

    /** load. It ends on cyclic includes. When it succeeds, all that the source includes, directly or not, has been
        seen, and in any case nothing else that was not seen before. When it fails, there is a chain of includes to what
        it says is wrong. */
    method Load(name: Name, base: Base, depth: nat, ghost open: set<Source>, ghost root: Name, ghost trail: seq<Source>)
      returns (r: Outcome, ghost at: seq<Source>, ghost n: Name)
      requires Valid() && depth <= MAX_DEPTH + 1 && open <= seen && Complete(base, open)
      requires |trail| == depth && LeadsTo(world, base, root, trail, name) && forall s :: s in trail ==> s in seen
      modifies this
      ensures old(seen) <= seen
      ensures r == Ok ==> Valid() && Complete(base, open) && Named(world, name, seen)
      ensures forall t :: t in seen - old(seen) ==>
                world.canonical(name).Some? && Reachable(world, base, old(seen), world.canonical(name).value, t)
      ensures r != Ok ==> Blames(world, base, root, maxFiles, maxBytes, seen, parsed, r, at, n)
      ensures depth > MAX_DEPTH ==> r == Budget
      decreases MAX_DEPTH + 1 - depth
    {
      at, n := trail, name;
      if depth > MAX_DEPTH {
        return Budget, at, n;
      }
      var canonical := world.canonical(name);
      if canonical.None? {
        return BadSource, at, n;
      }
      if canonical.value in seen {
        return Ok, at, n;
      }
      RootIsReachable(world, base, seen, canonical.value);
      r := Admit(canonical.value);
      if r == Ok {
        TrailGrows(world, base, root, trail, name, canonical.value);
        r, at, n := LoadIncludes(canonical.value, base, depth, old(seen), open, root, trail + [canonical.value]);
      }
    }

    /** The loop of load over the Include patterns of source s, which has just been marked. */
    method LoadIncludes(s: Source, base: Base, depth: nat, ghost before: set<Source>, ghost open: set<Source>,
                        ghost root: Name, ghost trail: seq<Source>)
      returns (r: Outcome, ghost at: seq<Source>, ghost n: Name)
      requires Valid() && depth <= MAX_DEPTH && s in world.files
      requires open <= before && s !in before && seen == before + {s} && AllDone(world, base, before - open, before)
      requires |trail| == depth + 1 && Chain(world, base, root, trail) && trail[depth] == s
      requires forall x :: x in trail ==> x in seen
      modifies this
      ensures old(seen) <= seen
      ensures r == Ok ==> Valid() && Complete(base, open)
      ensures forall t :: t in seen - before ==> Reachable(world, base, before, s, t)
      ensures r != Ok ==> Blames(world, base, root, maxFiles, maxBytes, seen, parsed, r, at, n)
      decreases MAX_DEPTH + 1 - depth, 2
    {
      at, n := [], root;
      var patterns := world.files[s].includes;
      MarkedOpen(world, base, before, open, s);
      RootIsReachable(world, base, before, s);
      for i := 0 to |patterns|
        invariant Valid() && old(seen) <= seen && Complete(base, open + {s})
        invariant AllReached(world, base, patterns, i, seen)
        invariant forall t :: t in seen - before ==> Reachable(world, base, before, s, t)
      {
        ghost var was := seen;
        r, at, n := LoadMatches(patterns[i], base, depth, s, before, open + {s}, root, trail);
        if r != Ok {
          return;
        }
        OneMoreReached(world, base, patterns, i, was, seen);
      }
      OneMoreDone(world, base, seen, open, s);
      return Ok, at, n;
    }

    /** The inner loop, over the matches of one pattern. */
    method LoadMatches(pattern: Pattern, base: Base, depth: nat, ghost s: Source, ghost before: set<Source>,
                       ghost open: set<Source>, ghost root: Name, ghost trail: seq<Source>)
      returns (r: Outcome, ghost at: seq<Source>, ghost n: Name)
      requires Valid() && depth <= MAX_DEPTH && open <= seen && Complete(base, open) && before <= seen && s !in before
      requires s in world.files && pattern in world.files[s].includes
      requires forall t :: t in seen - before ==> Reachable(world, base, before, s, t)
      requires |trail| == depth + 1 && Chain(world, base, root, trail) && trail[depth] == s
      requires forall x :: x in trail ==> x in seen
      modifies this
      ensures old(seen) <= seen
      ensures r == Ok ==> Valid() && Complete(base, open) && Reached(world, base, pattern, seen)
      ensures forall t :: t in seen - before ==> Reachable(world, base, before, s, t)
      ensures r != Ok ==> Blames(world, base, root, maxFiles, maxBytes, seen, parsed, r, at, n)
      decreases MAX_DEPTH + 1 - depth, 1
    {
      at, n := [], root;
      var matches := world.expand(pattern, base);
      for j := 0 to |matches|
        invariant Valid() && old(seen) <= seen && Complete(base, open)
        invariant forall k :: 0 <= k < j ==> Named(world, matches[k], seen)
        invariant forall t :: t in seen - before ==> Reachable(world, base, before, s, t)
      {
        ghost var was := seen;
        assert matches[j] in world.expand(pattern, base);
        r, at, n := Load(matches[j], base, depth + 1, open, root, trail);
        forall x | x in seen - was ensures Reachable(world, base, before, s, x) {
          ghost var t := world.canonical(matches[j]).value;
          assert Includes(world, base, s, t);
          Chained(world, base, before, was, s, t, x);
        }
        if r != Ok {
          return;
        }
      }
      return Ok, at, n;
    }

    /** loadRoot. A successful scan of a root that exists adds exactly what a chain of includes leads to from it, past
        no source that was seen before, and all that the sources added include has been seen then. Each source is
        parsed once, within the budgets. */
    method LoadRoot(name: Name, there: bool, base: Base) returns (r: Outcome, ghost at: seq<Source>, ghost n: Name)
      requires Valid()
      modifies this
      ensures old(seen) <= seen && (!there ==> r == Ok && seen == old(seen))
      ensures r != Ok ==> Blames(world, base, name, maxFiles, maxBytes, seen, parsed, r, at, n)
      ensures forall t :: t in seen - old(seen) ==>
                world.canonical(name).Some? && Reachable(world, base, old(seen), world.canonical(name).value, t)
      ensures r == Ok ==> Valid() && fileCount == |seen| == |parsed| <= maxFiles
                          && bytesRead == Sizes(world, parsed) <= maxBytes
      ensures r == Ok && there ==>
                && Named(world, name, seen) && AllDone(world, base, seen - old(seen), seen)
                && AddsReachable(world, base, name, old(seen), seen)
    {
      r, at, n := Ok, [], name;
      if there {
        r, at, n := Load(name, base, 0, seen, name, []);
      }
      if r == Ok {
        SameNumber(parsed, seen);
        if there {
          var root := world.canonical(name).value;
          forall t | Reachable(world, base, old(seen), root, t) ensures t in seen {
            ReachableIsInside(world, base, old(seen), root, t, seen);
          }
        }
      }
    }

    /** DiscoverSSHConfig, over the user's root and then the system's: what is seen is what the first root leads to,
        and what the second one then adds. */
    method Discover(user: Name, userThere: bool, userBase: Base, system: Name, systemThere: bool, systemBase: Base)
      returns (r: Outcome, ghost first: set<Source>)
      requires Valid() && seen == {}
      modifies this
      ensures r == Ok ==> Valid() && first <= seen
      ensures r == Ok ==> if userThere then Closed(world, userBase, first)
                                            && AddsReachable(world, userBase, user, {}, first)
                          else first == {}
      ensures r == Ok ==> if systemThere then AllDone(world, systemBase, seen - first, seen)
                                              && AddsReachable(world, systemBase, system, first, seen)
                          else seen == first
    {
      ghost var at, n;
      r, at, n := LoadRoot(user, userThere, userBase);
      first := seen;
      if r == Ok {
        assert first - {} == first;
        r, at, n := LoadRoot(system, systemThere, systemBase);
      }
    }
  }

  /** The later set of sources has what the earlier one has, and what a chain leads to from the name past it. */
  ghost predicate AddsReachable(w: World, base: Base, name: Name, before: set<Source>, after: set<Source>) {
    && w.canonical(name).Some?
    && forall t :: t in after <==> t in before || Reachable(w, base, before, w.canonical(name).value, t)
  }

  /** A chain of includes from the source that root names, each source once. */
  ghost predicate Chain(w: World, base: Base, root: Name, trail: seq<Source>) {
    && |trail| > 0 && Trail(w, base, trail) && w.canonical(root) == Some(trail[0])
    && forall i, j :: 0 <= i < j < |trail| ==> trail[i] != trail[j]
  }

  lemma TrailGrows(w: World, base: Base, root: Name, trail: seq<Source>, name: Name, s: Source)
    requires LeadsTo(w, base, root, trail, name) && w.canonical(name) == Some(s) && s !in trail
    ensures Chain(w, base, root, trail + [s])
  {
    var longer := trail + [s];
    forall k | 1 <= k < |longer| ensures Includes(w, base, longer[k - 1], longer[k]) {
      if k < |trail| {
        assert Includes(w, base, trail[k - 1], trail[k]);
      } else {
        NameIsIncluded(w, base, trail[k - 1], name, s);
      }
    }
  }

  lemma NameIsIncluded(w: World, base: Base, s: Source, n: Name, t: Source)
    requires IncludesName(w, base, s, n) && w.canonical(n) == Some(t)
    ensures Includes(w, base, s, t)
  {
    var p :| p in w.files[s].includes && n in w.expand(p, base);
    var k :| 0 <= k < |w.expand(p, base)| && w.expand(p, base)[k] == n;
  }

  /** A source that is marked is being worked on; the others are as done as before. */
  lemma MarkedOpen(w: World, base: Base, before: set<Source>, open: set<Source>, s: Source)
    requires AllDone(w, base, before - open, before) && s !in before
    ensures AllDone(w, base, before + {s} - (open + {s}), before + {s})
  {
    StillDone(w, base, before - open, before, before + {s});
  }

  lemma OneMoreDone(w: World, base: Base, seen: set<Source>, open: set<Source>, s: Source)
    requires AllDone(w, base, seen - (open + {s}), seen) && Done(w, base, s, seen)
    ensures AllDone(w, base, seen - open, seen)
  {}

  lemma ChainedTrail(w: World, base: Base, out: set<Source>, s: Source, trail: seq<Source>)
    requires Trail(w, base, trail) && Avoids(trail, out) && s !in out && Includes(w, base, s, trail[0])
    ensures Reachable(w, base, out, s, trail[|trail| - 1])
  {
    var longer := [s] + trail;
    forall k | 1 <= k < |longer| ensures Includes(w, base, longer[k - 1], longer[k]) {
      if k > 1 { assert longer[k - 1] == trail[k - 2] && longer[k] == trail[k - 1]; }
    }
    assert Trail(w, base, longer) && Avoids(longer, out);
    assert longer[0] == s && longer[|longer| - 1] == trail[|trail| - 1];
  }

  lemma Chained(w: World, base: Base, out: set<Source>, more: set<Source>, s: Source, t: Source, x: Source)
    requires s !in out && out <= more && Includes(w, base, s, t) && Reachable(w, base, more, t, x)
    ensures Reachable(w, base, out, s, x)
  {
    var trail :| Trail(w, base, trail) && Avoids(trail, more) && trail[0] == t && trail[|trail| - 1] == x;
    ChainedTrail(w, base, out, s, trail);
  }

  lemma OneMoreSize(w: World, order: seq<Source>, s: Source)
    requires s in w.files
    ensures Sizes(w, order + [s]) == Sizes(w, order) + w.files[s].size
  {
    assert (order + [s])[..|order|] == order;
  }

  lemma {:induction false} SameNumber(order: seq<Source>, sources: set<Source>)
    requires (forall i, j :: 0 <= i < j < |order| ==> order[i] != order[j]) && forall s :: s in order <==> s in sources
    ensures |order| == |sources|
    decreases |order|
  {
    if |order| == 0 {
      assert sources == {};
    } else {
      var last, front := order[|order| - 1], order[..|order| - 1];
      assert order == front + [last];
      SameNumber(front, sources - {last});
      assert sources == sources - {last} + {last};
    }
  }
}

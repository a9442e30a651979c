/** Making a directory with its parents on the helper, and the client's check of what the helper says it made. */
module MakeDirectories {
  import opened Bytes
  import opened Paths

  datatype Failure = InvalidPath | Conflict | WriteFailed | Cancelled | OutcomeUnknown

  datatype Reply = Made(path: Bytes, created: seq<Bytes>) | Failed(error: Failure)

  // ---------------------------------------------------------------- the client's check

  predicate HasPrefix(s: Bytes, prefix: Bytes) { |prefix| <= |s| && s[..|prefix|] == prefix }

  predicate Below(a: Bytes, b: Bytes) { HasPrefix(b + [SLASH], a + [SLASH]) }

  /** A valid path, an ancestor of the target, below the one before, and not there before. */
  ghost predicate AcceptsAt(plain: Bytes -> bool, created: seq<Bytes>, target: Bytes, k: nat)
    requires k < |created|
  {
    && ValidRelative(plain, created[k], false) && Below(created[k], target)
    && (k > 0 ==> Below(created[k - 1], created[k]))
    && created[k] !in created[..k]
  }

  /** What the client accepts. */
  ghost predicate Accepts(plain: Bytes -> bool, created: seq<Bytes>, target: Bytes) {
    forall k :: 0 <= k < |created| ==> AcceptsAt(plain, created, target, k)
  }

  /** validCreatedDirectories. */
  method ValidCreatedDirectories(plain: Bytes -> bool, created: seq<Bytes>, target: Bytes) returns (ok: bool)
    ensures ok <==> Accepts(plain, created, target)
  {
    var previous: Bytes := [];
    var seen: set<Bytes> := {};
    for i := 0 to |created|
      invariant forall k :: 0 <= k < i ==> AcceptsAt(plain, created, target, k)
      invariant forall d :: d in seen <==> d in created[..i]
      invariant if i == 0 then previous == [] else previous == created[i - 1] && previous != []
    {
      var directory := created[i];
      if !ValidRelative(plain, directory, false) || !Below(directory, target) {
        assert !AcceptsAt(plain, created, target, i);
        return false;
      }
      if directory in seen {
        assert !AcceptsAt(plain, created, target, i);
        return false;
      }
      if previous != [] && !Below(previous, directory) {
        assert !AcceptsAt(plain, created, target, i);
        return false;
      }
      seen := seen + {directory};
      assert created[..i + 1] == created[..i] + [directory];
      previous := directory;
    }
    return true;
  }

  // ---------------------------------------------------------------- the helper

  /** The ancestors of path at the depths ns. */
  ghost predicate Ancestors(path: Bytes, ns: seq<nat>, created: seq<Bytes>) {
    && |created| == |ns|
    && (forall k :: 0 <= k < |ns| ==> 0 < ns[k] <= |Split(path)| && created[k] == Ancestor(path, ns[k]))
    && (forall i, j :: 0 <= i < j < |ns| ==> ns[i] < ns[j])
  }

  lemma AncestorAccepted(plain: Bytes -> bool, path: Bytes, ns: seq<nat>, created: seq<Bytes>, k: nat)
    requires ValidRelative(plain, path, false) && Ancestors(path, ns, created) && k < |created|
    ensures AcceptsAt(plain, created, path, k)
  {
    var cs := Split(path);
    JoinSplit(path);
    assert cs[..|cs|] == cs;
    AncestorIsValid(plain, path, ns[k]);
    AncestorIsPrefix(cs, ns[k], |cs|);
    forall j | 0 <= j < k ensures created[..k][j] != created[k] && Below(created[j], created[k]) {
      AncestorIsPrefix(cs, ns[j], ns[k]);
    }
  }

  /** Any ancestors of a valid path, from the top down, are accepted. */
  lemma AncestorsAreAccepted(plain: Bytes -> bool, path: Bytes, ns: seq<nat>, created: seq<Bytes>)
    requires ValidRelative(plain, path, false) && Ancestors(path, ns, created)
    ensures Accepts(plain, created, path)
  {
    forall k | 0 <= k < |created| ensures AcceptsAt(plain, created, path, k) {
      AncestorAccepted(plain, path, ns, created, k);
    }
  }

  lemma BelowIsAncestor(path: Bytes, a: Bytes)
    requires Below(a, path)
    ensures |Split(a)| <= |Split(path)| && Ancestor(path, |Split(a)|) == a
  {
    PrefixOf(a, path);
    JoinSplit(a);
    if a != path {
      var b := path[|a| + 1..];
      assert path == a + [SLASH] + b;
      SplitJoined(a, b);
      assert Split(path)[..|Split(a)|] == Split(a);
    } else {
      assert Split(path)[..|Split(path)|] == Split(path);
    }
  }

  function Depths(created: seq<Bytes>): (ns: seq<nat>)
    ensures |ns| == |created| && forall k :: 0 <= k < |created| ==> ns[k] == |Split(created[k])|
  {
    if |created| == 0 then [] else Depths(created[..|created| - 1]) + [|Split(created[|created| - 1])|]
  }

  lemma DeeperNext(plain: Bytes -> bool, created: seq<Bytes>, path: Bytes, k: nat)
    requires Accepts(plain, created, path) && k + 1 < |created|
    ensures |Split(created[k])| < |Split(created[k + 1])|
  {
    var a, b := created[k], created[k + 1];
    assert AcceptsAt(plain, created, path, k) && AcceptsAt(plain, created, path, k + 1);
    assert created[..k + 1][k] == a;
    assert Split(b)[..|Split(b)|] == Split(b);
    JoinSplit(b);
    BelowIsAncestor(b, a);
  }

  lemma {:induction false} Deeper(plain: Bytes -> bool, created: seq<Bytes>, path: Bytes, i: nat, j: nat)
    requires Accepts(plain, created, path) && i < j < |created|
    ensures |Split(created[i])| < |Split(created[j])|
  {
    DeeperNext(plain, created, path, j - 1);
    if i + 1 < j { Deeper(plain, created, path, i, j - 1); }
  }

  /** The client accepts exactly the lists of ancestors of the target, or the target itself, from the top down. */
  lemma AcceptsIff(plain: Bytes -> bool, path: Bytes, created: seq<Bytes>)
    requires ValidRelative(plain, path, false)
    ensures Accepts(plain, created, path) <==> exists ns :: Ancestors(path, ns, created)
  {
    if Accepts(plain, created, path) {
      var ns := Depths(created);
      forall k | 0 <= k < |ns| ensures 0 < ns[k] <= |Split(path)| && created[k] == Ancestor(path, ns[k]) {
        assert AcceptsAt(plain, created, path, k);
        BelowIsAncestor(path, created[k]);
      }
      forall i, j | 0 <= i < j < |ns| ensures ns[i] < ns[j] { Deeper(plain, created, path, i, j); }
      assert Ancestors(path, ns, created);
    }
    if ns :| Ancestors(path, ns, created) { AncestorsAreAccepted(plain, path, ns, created); }
  }

  /** true: a directory; false: anything else. */
  type Nodes = map<Bytes, bool>

  ghost predicate Directories(nodes: Nodes, path: Bytes, n: nat)
    requires n <= |Split(path)|
  {
    forall k :: 0 < k <= n ==> Ancestor(path, k) in nodes && nodes[Ancestor(path, k)]
  }

  ghost predicate Keeps(before: Nodes, after: Nodes) {
    forall p :: p in before ==> p in after && after[p] == before[p]
  }

  /** What other programs do between any two looks at the tree: whatever they like. */
  type Others = nat -> Nodes -> Nodes

  /** They remove and replace nothing. */
  ghost predicate OnlyAdd(others: Others) {
    forall k, nodes :: Keeps(nodes, others(k)(nodes))
  }

  /** There are no other programs. */
  ghost predicate Still(others: Others) {
    forall k, nodes :: others(k)(nodes) == nodes
  }

  /** Nothing but directories where the first n ancestors of the path are to be. */
  ghost predicate Clear(nodes: Nodes, path: Bytes, n: nat)
    requires n <= |Split(path)|
  {
    forall k :: 0 < k <= n && Ancestor(path, k) in nodes ==> nodes[Ancestor(path, k)]
  }

  /** The first n ancestors of the path that are not there. */
  ghost predicate Missing(nodes: Nodes, path: Bytes, n: nat, d: Bytes)
    requires n <= |Split(path)|
  {
    d !in nodes && exists k :: 0 < k <= n && Ancestor(path, k) == d
  }

  /** The tree with these ancestors made. */
  ghost predicate MadeUpTo(before: Nodes, after: Nodes, path: Bytes, n: nat)
    requires n <= |Split(path)|
  {
    && (forall p :: p in after <==> p in before || Missing(before, path, n, p))
    && (forall p :: p in after ==> after[p] == if p in before then before[p] else true)
  }

  /** What comes of one round, when no system call fails and the caller waits: seen is what the first look sees, met
      what mkdir meets, left what the look after it sees. */
  function RoundOutcome(seen: Nodes, met: Nodes, left: Nodes, parent: Bytes, path: Bytes): seq<Failure> {
    if path in seen then (if seen[path] then [] else [Conflict])
    else if path in met then (if path in left && left[path] then [] else [Conflict])
    else if parent == [] || (parent in met && met[parent]) then []
    else [WriteFailed]
  }

  /** Mkdir after n rounds, with other programs that only add to the tree. */
  ghost predicate Growing(before: Nodes, nodes: Nodes, path: Bytes, n: nat, created: seq<Bytes>) {
    && n <= |Split(path)| && Directories(nodes, path, n) && Keeps(before, nodes)
    && forall d :: d in created ==> d !in before
  }

  lemma GrowingNext(before: Nodes, was: Nodes, nodes: Nodes, path: Bytes, n: nat, created: seq<Bytes>, isNew: bool)
    requires Growing(before, was, path, n, created) && n < |Split(path)| && Keeps(was, nodes)
    requires var a := Ancestor(path, n + 1); a in nodes && nodes[a] && (isNew ==> a !in was)
    ensures Growing(before, nodes, path, n + 1, if isNew then created + [Ancestor(path, n + 1)] else created)
  {}

  /** Mkdir after n rounds, with no other program. */
  ghost predicate Alone(before: Nodes, nodes: Nodes, path: Bytes, n: nat, created: seq<Bytes>) {
    && n <= |Split(path)| && Clear(before, path, n) && Directories(nodes, path, n)
    && (forall d :: d in created <==> Missing(before, path, n, d)) && MadeUpTo(before, nodes, path, n)
  }

  /** Mkdir with no other program: it makes exactly what is missing, or there is a conflict. */
  ghost predicate AloneReply(before: Nodes, after: Nodes, path: Bytes, r: Reply) {
    && (r.Made? <==> Clear(before, path, |Split(path)|)) && (!r.Made? ==> r == Failed(Conflict))
    && (r.Made? ==> && (forall d :: d in r.created <==> Missing(before, path, |Split(path)|, d))
                    && MadeUpTo(before, after, path, |Split(path)|))
  }

  lemma AloneMakes(before: Nodes, after: Nodes, path: Bytes, created: seq<Bytes>)
    requires Alone(before, after, path, |Split(path)|, created)
    ensures AloneReply(before, after, path, Made(path, created))
  {}

  /** One round with no other program. */
  ghost predicate AloneRound(nodes: Nodes, after: Nodes, parent: Bytes, path: Bytes, error: seq<Failure>, isNew: bool) {
    && error == RoundOutcome(nodes, nodes, nodes, parent, path) && (isNew <==> error == [] && path !in nodes)
    && after == if isNew then nodes[path := true] else nodes
  }

  lemma AloneNext(before: Nodes, nodes: Nodes, after: Nodes, path: Bytes, n: nat, created: seq<Bytes>,
                  error: seq<Failure>, isNew: bool)
    requires Alone(before, nodes, path, n, created) && n < |Split(path)|
    requires AloneRound(nodes, after, if n == 0 then [] else Ancestor(path, n), Ancestor(path, n + 1), error, isNew)
    ensures error == [] ==>
              Alone(before, after, path, n + 1, if isNew then created + [Ancestor(path, n + 1)] else created)
    ensures error != [] ==> error == [Conflict] && !Clear(before, path, |Split(path)|)
  {
    var a := Ancestor(path, n + 1);
    OtherAncestors(path, n);
    assert a in nodes <==> a in before;
    if a !in nodes {
      NextIsMade(before, nodes, path, n, created);
    } else if nodes[a] {
      NextIsThere(before, nodes, path, n, created);
    }
  }

  lemma NextIsThere(before: Nodes, nodes: Nodes, path: Bytes, n: nat, created: seq<Bytes>)
    requires Alone(before, nodes, path, n, created) && n < |Split(path)|
    requires var a := Ancestor(path, n + 1); a in before && a in nodes && nodes[a]
    ensures Alone(before, nodes, path, n + 1, created)
  {
    NextMade(before, nodes, path, n);
    MissingNext(before, path, n);
  }

  lemma NextIsMade(before: Nodes, nodes: Nodes, path: Bytes, n: nat, created: seq<Bytes>)
    requires Alone(before, nodes, path, n, created) && n < |Split(path)|
    requires var a := Ancestor(path, n + 1); a !in before && a !in nodes
    ensures var a := Ancestor(path, n + 1); Alone(before, nodes[a := true], path, n + 1, created + [a])
  {
    NextMade(before, nodes, path, n);
    MissingNext(before, path, n);
  }

  lemma MissingNext(before: Nodes, path: Bytes, n: nat)
    requires n < |Split(path)|
    ensures forall d :: Missing(before, path, n + 1, d)
                        <==> Missing(before, path, n, d) || (d == Ancestor(path, n + 1) && d !in before)
  {}

  /** The next ancestor is none of those above it. */
  lemma OtherAncestors(path: Bytes, n: nat)
    requires n < |Split(path)|
    ensures forall k :: 0 < k <= n ==> Ancestor(path, k) != Ancestor(path, n + 1)
  {
    forall k | 0 < k <= n ensures Ancestor(path, k) != Ancestor(path, n + 1) {
      AncestorIsPrefix(Split(path), k, n + 1);
    }
  }

  /** A directory that others make between the look and mkdir is as good as one of its own; anything else that they put
      there, or take away again, is a conflict. */
  lemma MadeByOthers(seen: Nodes, met: Nodes, left: Nodes, parent: Bytes, path: Bytes)
    requires path !in seen && path in met
    ensures RoundOutcome(seen, met, left, parent, path) == [] <==> path in left && left[path]
    ensures RoundOutcome(seen, met, left, parent, path) == [Conflict] <==> path !in left || !left[path]
  {}

  lemma NextMade(before: Nodes, after: Nodes, path: Bytes, n: nat)
    requires n < |Split(path)| && MadeUpTo(before, after, path, n)
    ensures var a := Ancestor(path, n + 1);
            MadeUpTo(before, if a in before || a in after then after else after[a := true], path, n + 1)
  {
    var a := Ancestor(path, n + 1);
    MissingNext(before, path, n);
  }

  lemma NextAncestor(path: Bytes, n: nat)
    requires n < |Split(path)|
    ensures Ancestor(path, n + 1) == if n == 0 then Split(path)[0] else Ancestor(path, n) + [SLASH] + Split(path)[n]
  {
    JoinOneMore(Split(path), n);
  }

  /** How far the loop has come: current is the nth ancestor, and created are some of those so far. */
  ghost predicate Came(path: Bytes, n: nat, current: Bytes, ns: seq<nat>, created: seq<Bytes>) {
    && n <= |Split(path)| && (if n == 0 then current == [] else current == Ancestor(path, n) && current != [])
    && Ancestors(path, ns, created) && forall k :: 0 <= k < |ns| ==> ns[k] <= n
  }

  lemma CameNext(plain: Bytes -> bool, path: Bytes, n: nat, current: Bytes, ns: seq<nat>, created: seq<Bytes>)
    requires ValidRelative(plain, path, false) && n < |Split(path)| && Came(path, n, current, ns, created)
    ensures var next := if current == [] then Split(path)[n] else current + [SLASH] + Split(path)[n];
            && next == Ancestor(path, n + 1) && Came(path, n + 1, next, ns, created)
            && Came(path, n + 1, next, ns + [n + 1], created + [next])
    ensures current == if n == 0 then [] else Ancestor(path, n)
  {
    NextAncestor(path, n);
    assert ValidComponent(plain, Split(path)[n]);
    AncestorsExtend(path, ns, created, n);
  }

  lemma JoinOneMore(cs: seq<Bytes>, n: nat)
    requires n < |cs|
    ensures Join(cs[..n + 1]) == if n == 0 then cs[0] else Join(cs[..n]) + [SLASH] + cs[n]
  {
    assert cs[..n + 1] == cs[..n] + [cs[n]];
    if n > 0 { JoinAppend(cs[..n], cs[n]); }
  }

  lemma AncestorsExtend(path: Bytes, ns: seq<nat>, created: seq<Bytes>, n: nat)
    requires Ancestors(path, ns, created) && n < |Split(path)| && forall k :: 0 <= k < |ns| ==> ns[k] <= n
    ensures Ancestors(path, ns + [n + 1], created + [Ancestor(path, n + 1)])
  {}

  class Root {
    var nodes: Nodes

    /** How many directories this root's own calls have made. */
    ghost var made: nat

    /** No system call has failed for reasons of its own, and no caller has given up. */
    ghost var calm: bool

    constructor ()
      ensures nodes == map[] && made == 0 && calm
    {
      nodes, made, calm := map[], 0, true;
    }

    method Foreign(others: Others, k: nat)
      modifies this`nodes
      ensures nodes == others(k)(old(nodes))
    {
      nodes := others(k)(nodes);
    }

    /** The system call: it needs the parent, and makes nothing where something is. */
    method MakeOne(parent: Bytes, path: Bytes) returns (made1: bool, exists1: bool)
      modifies this
      ensures made1 ==> path !in old(nodes) && nodes == old(nodes)[path := true] && made == old(made) + 1
      ensures made1 ==> parent == [] || (parent in old(nodes) && old(nodes)[parent])
      ensures !made1 ==> nodes == old(nodes) && made == old(made)
      ensures exists1 ==> !made1 && path in nodes
      ensures calm ==> old(calm) && (exists1 <==> path in old(nodes))
                       && (made1
                           <==> path !in old(nodes) && (parent == [] || (parent in old(nodes) && old(nodes)[parent])))
    {
      made1, exists1 := false, false;
      var ok := *;
      calm := calm && ok;
      if path in nodes {
        exists1 := ok;
      } else if ok && (parent == [] || (parent in nodes && nodes[parent])) {
        nodes, made, made1 := nodes[path := true], made + 1, true;
      }
    }

    /** One round of the loop. Other programs come before it, before the directory is made, and after that failed. */
    method Ensure(parent: Bytes, path: Bytes, others: Others, k: nat) returns (error: seq<Failure>, isNew: bool)
      modifies this
      ensures made == old(made) + if isNew then 1 else 0
      ensures isNew ==> error == []
      ensures Cancelled !in error && OutcomeUnknown !in error
      ensures error == [] ==> path in nodes && nodes[path]
      ensures OnlyAdd(others) ==> Keeps(old(nodes), nodes) && (isNew ==> path !in old(nodes))
      ensures calm ==> old(calm)
      ensures calm ==> var seen := others(k)(old(nodes));
                       var met := others(k + 1)(seen);
                       error == RoundOutcome(seen, met, others(k + 2)(met), parent, path)
                       && (isNew <==> error == [] && path !in seen && path !in met)
      ensures calm && Still(others) ==> AloneRound(old(nodes), nodes, parent, path, error, isNew)
    {
      isNew := false;
      Foreign(others, k);
      var ok := *;
      calm := calm && ok;
      if !ok {
        return [WriteFailed], false;
      }
      if path in nodes {
        return if nodes[path] then [] else [Conflict], false;
      }
      Foreign(others, k + 1);
      var made1, exists1 := MakeOne(parent, path);
      if made1 {
        return [], true;
      }
      if !exists1 {
        return [WriteFailed], false;
      }
      Foreign(others, k + 2);
      ok := *;
      calm := calm && ok;
      return if ok && path in nodes && nodes[path] then [] else [Conflict], false;
    }

    /** Mkdir, whatever other programs do meanwhile. What it says it made are as many directories as it has made,
        and they pass the client's check. When it says that it was cancelled, it has made nothing; when it says that
        the outcome is unknown, it has made some. If others remove nothing, then what it says it made was not there
        before, the path and all its ancestors are directories afterwards, and all that was there still is. */
    method Mkdir(plain: Bytes -> bool, path: Bytes, others: Others) returns (r: Reply)
      modifies this
      ensures r.Made? ==> r.path == path && Accepts(plain, r.created, path) && made == old(made) + |r.created|
      ensures r == Failed(Cancelled) ==> made == old(made)
      ensures r == Failed(OutcomeUnknown) ==> made > old(made)
      ensures !ValidRelative(plain, path, false) ==> r == Failed(InvalidPath)
      ensures OnlyAdd(others) ==>
                && Keeps(old(nodes), nodes)
                && (r.Made? ==> Directories(nodes, path, |Split(path)|) && forall d :: d in r.created ==>
                    d !in old(nodes))
      ensures calm ==> old(calm) && r != Failed(Cancelled) && r != Failed(OutcomeUnknown)
      ensures calm && Still(others) && ValidRelative(plain, path, false) ==> AloneReply(old(nodes), nodes, path, r)
    {
      if !ValidRelative(plain, path, false) {
        return Failed(InvalidPath);
      }
      var error, created, ns := MakeAll(plain, path, others, OnlyAdd(others), Still(others));
      if error != [] {
        return Failed(error[0]);
      }
      AncestorsAreAccepted(plain, path, ns, created);
      if calm && Still(others) { AloneMakes(old(nodes), nodes, path, created); }
      r := Made(path, created);
    }

    /** Mkdir's loop. adds: other programs only add; still: there are none. */
    method MakeAll(plain: Bytes -> bool, path: Bytes, others: Others, ghost adds: bool, ghost still: bool)
      returns (error: seq<Failure>, created: seq<Bytes>, ghost ns: seq<nat>)
      requires ValidRelative(plain, path, false) && (adds ==> OnlyAdd(others)) && (still ==> Still(others))
      modifies this
      ensures Ancestors(path, ns, created) && made == old(made) + |created| && (calm ==> old(calm))
      ensures error != [] ==> && (error[0] == Cancelled ==> created == [])
                              && (error[0] == OutcomeUnknown ==> created != [])
                              && (calm ==> error[0] != Cancelled && error[0] != OutcomeUnknown)
      ensures adds ==> Keeps(old(nodes), nodes)
      ensures adds && error == [] ==> Growing(old(nodes), nodes, path, |Split(path)|, created)
      ensures calm && still && error == [] ==> Alone(old(nodes), nodes, path, |Split(path)|, created)
      ensures calm && still && error != [] ==> error == [Conflict] && !Clear(old(nodes), path, |Split(path)|)
    {
      var components := Split(path);
      error, created, ns := [], [], [];
      var current: Bytes := [];
      for i := 0 to |components|
        invariant error == [] && Came(path, i, current, ns, created)
        invariant made == old(made) + |created| && (calm ==> old(calm))
        invariant adds ==> Growing(old(nodes), nodes, path, i, created)
        invariant calm && still ==> Alone(old(nodes), nodes, path, i, created)
      {
        var alive := *;
        calm := calm && alive;
        if !alive {
          return [if |created| > 0 then OutcomeUnknown else Cancelled], created, ns;
        }
        var isNew;
        error, current, isNew := MakeNext(plain, path, others, adds, still, i, current, old(nodes), ns, created);
        if error != [] {
          return;
        }
        created := if isNew then created + [current] else created;
        ns := if isNew then ns + [i + 1] else ns;
      }
    }

    /** The part of the loop's body that looks at one ancestor. */
    method MakeNext(plain: Bytes -> bool, path: Bytes, others: Others, ghost adds: bool, ghost still: bool, i: nat,
                    current: Bytes, ghost start: Nodes, ghost ns: seq<nat>, ghost created: seq<Bytes>)
      returns (error: seq<Failure>, next: Bytes, isNew: bool)
      requires ValidRelative(plain, path, false) && i < |Split(path)| && Came(path, i, current, ns, created)
      requires (adds ==> OnlyAdd(others)) && (still ==> Still(others))
      requires adds ==> Growing(start, nodes, path, i, created)
      requires calm && still ==> Alone(start, nodes, path, i, created)
      modifies this
      ensures next == Ancestor(path, i + 1) && made == old(made) + (if isNew then 1 else 0) && (isNew ==> error == [])
      ensures Came(path, i + 1, next, if isNew then ns + [i + 1] else ns, if isNew then created + [next] else created)
      ensures error != [] ==> error[0] != Cancelled && error[0] != OutcomeUnknown
      ensures adds ==> Keeps(start, nodes)
      ensures adds && error == [] ==>
                Growing(start, nodes, path, i + 1, if isNew then created + [next] else created)
      ensures calm ==> old(calm)
      ensures calm && still && error == [] ==>
                Alone(start, nodes, path, i + 1, if isNew then created + [next] else created)
      ensures calm && still && error != [] ==> error == [Conflict] && !Clear(start, path, |Split(path)|)
    {
      CameNext(plain, path, i, current, ns, created);
      next := if current == [] then Split(path)[i] else current + [SLASH] + Split(path)[i];
      ghost var before := nodes;
      error, isNew := Ensure(current, next, others, 3 * i);
      if error != [] {
        assert error[0] in error;
      } else if adds {
        GrowingNext(start, before, nodes, path, i, created, isNew);
      }
      if calm && still { AloneNext(start, before, nodes, path, i, created, error, isNew); }
    }
  }
}

/** One conditional write of a file: stage the content in a temporary, look at the target twice, commit by link or
    rename. It runs under the root's mutation lock; only another program can change the target between the looks, or
    between the second look and the commit. */
module ConditionalWrite {
  import opened Bytes

  const MAX_FILE := 16777216
  const NEW_FILE_MODE := 0x1A4 // rw-r--r--

  /** Temporaries have names of 128 random bits, which no caller asks for. */
  datatype Name = Target(path: Bytes) | Temporary(serial: nat)

  datatype Node = Regular(content: Bytes, perm: nat, uid: nat, gid: nat) | Irregular(directory: bool)

  /** pathValid: what the path check of the request said. */
  datatype Request = Request(path: Bytes, pathValid: bool, expectedAbsent: bool, expectedDigest: seq<Digest>)

  datatype Failure = InvalidPath | Conflict | WriteFailed | Unsupported | OutputLimit | Cancelled

  datatype Reply =
    | Written(path: Bytes, size: nat, digest: Digest, created: bool, metadataNotPreserved: bool)
    | Failed(error: Failure)

  datatype State = State(inode: nat, digest: Digest, perm: nat, uid: nat, gid: nat)

  datatype Inspection = Absent | Present(state: State) | NoAnswer(error: Failure)

  predicate ValidRequest(r: Request, content: Bytes) {
    && r.pathValid && |content| <= MAX_FILE && |r.expectedDigest| <= 1
    && r.expectedAbsent == (r.expectedDigest == [])
  }

  /** Names lead to nodes; nodes that no name leads to are free, or held open by somebody. */
  datatype Files = Files(names: map<Name, nat>, nodes: map<nat, Node>)

  ghost predicate Linked(f: Files) {
    forall n :: n in f.names ==> f.names[n] in f.nodes
  }

  /** What looking at a target says when no foreign call fails. */
  function Look(f: Files, target: Name): Inspection
    requires Linked(f)
  {
    if target !in f.names then Absent
    else match f.nodes[f.names[target]]
         case Irregular(_) => NoAnswer(Unsupported)
         case Regular(content, perm, uid, gid) =>
           if |content| > MAX_FILE then NoAnswer(OutputLimit)
           else Present(State(f.names[target], Sha256(content), perm, uid, gid))
  }

  /** What another program can make of the files while the call has its temporary: anything but that, whose node is
      inode. All nodes stay below next. */
  ghost predicate Allowed(before: Files, foreign: Files, inode: nat, next: nat) {
    && Linked(foreign) && SameTemporaries(before, foreign) && inode !in foreign.nodes && inode < next
    && forall i :: i in foreign.nodes ==> i < next
  }

  ghost predicate SameTemporaries(a: Files, b: Files) {
    forall n: Name :: n.Temporary? ==> (n in a.names <==> n in b.names)
  }

  /** The caller's expectation against what was found. */
  predicate Met(r: Request, seen: Inspection) {
    if r.expectedAbsent then seen.Absent? else seen.Present? && [seen.state.digest] == r.expectedDigest
  }

  function Receipt(r: Request, content: Bytes): Reply {
    Written(r.path, |content|, Sha256(content), r.expectedAbsent, !r.expectedAbsent)
  }

  /** What stands under the name of the target when the call commits. */
  datatype Ahead = Free | Replaceable | Blocked

  function AheadOf(f: Files, target: Name): Ahead
    requires Linked(f)
  {
    if target !in f.names then Free
    else if f.nodes[f.names[target]] == Irregular(true) then Blocked else Replaceable
  }

  /** A link fails on any name that is taken, and a rename on a directory. */
  function CommitFailure(r: Request, ahead: Ahead): seq<Failure> {
    if r.expectedAbsent then (if ahead == Free then [] else [Conflict])
    else if ahead == Blocked then [WriteFailed] else []
  }

  /** What the second look makes of what it sees. */
  function SecondLook(again: Inspection, seen: Inspection): seq<Failure> {
    match again
    case NoAnswer(e) => [e]
    case _ => if again == seen then [] else [Conflict]
  }

  /** What comes of a staged write. */
  function Outcome(again: Inspection, seen: Inspection, ahead: Ahead, r: Request): seq<Failure> {
    if SecondLook(again, seen) != [] then SecondLook(again, seen) else CommitFailure(r, ahead)
  }

  /** The reply when no foreign call fails and the caller does not give up, by what the two looks see and what the
      commit finds. */
  function Verdict(first: Inspection, second: Inspection, ahead: Ahead, r: Request, content: Bytes): Reply {
    if !ValidRequest(r, content) then Failed(InvalidPath)
    else if first.NoAnswer? then Failed(first.error)
    else if !Met(r, first) then Failed(Conflict)
    else if Outcome(second, first, ahead, r) != [] then Failed(Outcome(second, first, ahead, r)[0])
    else Receipt(r, content)
  }

  /** A file that another program changes after the second look is lost without a word exactly if it is there, is no
      directory, and the call was to replace a file: no creation ever overwrites anything. */
  lemma LateChangeIsLostIff(first: Inspection, second: Inspection, later: Files, r: Request, content: Bytes)
    requires Linked(later) && AheadOf(later, Target(r.path)) != Free
    ensures Verdict(first, second, AheadOf(later, Target(r.path)), r, content).Written?
            <==> ValidRequest(r, content) && Met(r, first) && second == first && !r.expectedAbsent
                 && later.nodes[later.names[Target(r.path)]] != Irregular(true)
  {}

  /** The target is a regular file of at most 16 MiB, and this is its node. */
  ghost predicate IsFile(f: Files, target: Name, node: Node) {
    && target in f.names && f.names[target] in f.nodes && f.nodes[f.names[target]] == node
    && node.Regular? && |node.content| <= 16777216
  }

  ghost predicate IsIrregular(f: Files, target: Name) {
    target in f.names && f.names[target] in f.nodes && f.nodes[f.names[target]].Irregular?
  }

  ghost predicate IsTooBig(f: Files, target: Name) {
    && target in f.names && f.names[target] in f.nodes && f.nodes[f.names[target]].Regular?
    && |f.nodes[f.names[target]].content| > 16777216
  }

  /** The target is still the same node, with the same content, mode and owner. */
  ghost predicate StillThere(before: Files, between: Files, target: Name) {
    && target in before.names && target in between.names && between.names[target] == before.names[target]
    && exists node :: IsFile(before, target, node) && IsFile(between, target, node)
  }

  /** What the caller expects of the target is so. */
  ghost predicate AsExpected(f: Files, target: Name, r: Request) {
    if r.expectedAbsent then target !in f.names
    else
      && |r.expectedDigest| == 1
      && exists node :: IsFile(f, target, node) && Sha256(node.content) == r.expectedDigest[0]
  }

  /** The request says what it expects in one of two ways, and asks for no more than 16 MiB below the root. */
  predicate Proper(r: Request, content: Bytes) {
    && r.pathValid && |content| <= 16777216 && |r.expectedDigest| == (if r.expectedAbsent then 0 else 1)
  }

  /** Which writes succeed if nothing fails, by the files alone: with a proper request, where the file is as the caller
      expects it, and still the same at the second look, and the commit finds no new file in its way, and no
      directory. */
  lemma SucceedsIff(before: Files, between: Files, later: Files, r: Request, content: Bytes)
    requires Linked(before) && Linked(between) && Linked(later)
    ensures var t := Target(r.path);
            Verdict(Look(before, t), Look(between, t), AheadOf(later, t), r, content).Written?
            <==> && Proper(r, content) && AsExpected(before, t, r)
                 && (if r.expectedAbsent then t !in between.names && t !in later.names
                     else StillThere(before, between, t)
                          && !(t in later.names && later.nodes[later.names[t]] == Irregular(true)))
  {
    var t := Target(r.path);
    LookIff(before, t);
    LookIff(between, t);
    if Look(before, t).Present? && Look(between, t) == Look(before, t) { SameNode(before, between, t); }
  }

  lemma LookIff(f: Files, target: Name)
    requires Linked(f)
    ensures Look(f, target).Absent? <==> target !in f.names
    ensures Look(f, target) == NoAnswer(Unsupported) <==> IsIrregular(f, target)
    ensures Look(f, target) == NoAnswer(OutputLimit) <==> IsTooBig(f, target)
    ensures Look(f, target).Present? ==>
              && target in f.names && IsFile(f, target, f.nodes[f.names[target]])
              && var n := f.nodes[f.names[target]];
                 Look(f, target).state == State(f.names[target], Sha256(n.content), n.perm, n.uid, n.gid)
    ensures Look(f, target).Absent? || Look(f, target).Present? || IsIrregular(f, target) || IsTooBig(f, target)
  {}

  lemma SameNode(before: Files, between: Files, target: Name)
    requires Linked(before) && Linked(between) && Look(before, target).Present?
    ensures Look(between, target) == Look(before, target) <==> StillThere(before, between, target)
  {
    LookIff(before, target);
    LookIff(between, target);
    if Look(between, target) == Look(before, target) {
      assert IsFile(before, target, before.nodes[before.names[target]]);
      assert IsFile(between, target, before.nodes[before.names[target]]);
    }
  }

  /** How the others fail: a bad request; a target that is no regular file or is too big, at one of the looks; a
      directory in the way of the rename; and anything else that is not as the caller expects. */
  lemma FailsBecause(before: Files, between: Files, later: Files, r: Request, content: Bytes)
    requires Linked(before) && Linked(between) && Linked(later)
    ensures var t := Target(r.path);
            var again := AsExpected(before, t, r) && !IsIrregular(before, t) && !IsTooBig(before, t);
            match Verdict(Look(before, t), Look(between, t), AheadOf(later, t), r, content)
            case Written(_, _, _, _, _) => true
            case Failed(error) =>
              if !Proper(r, content) then error == InvalidPath
              else if IsIrregular(before, t) || (again && IsIrregular(between, t)) then error == Unsupported
              else if IsTooBig(before, t) || (again && IsTooBig(between, t)) then error == OutputLimit
              else if again && !r.expectedAbsent && StillThere(before, between, t) then error == WriteFailed
              else error == Conflict
  {
    var t := Target(r.path);
    LookIff(before, t);
    LookIff(between, t);
    if Look(before, t).Present? { SameNode(before, between, t); }
  }

  /** Every target of a is as it is in a; b may have temporaries, and nodes of its own. */
  ghost predicate SameTargets(a: Files, b: Files) {
    && (forall n: Name :: n.Target? ==> (n in a.names <==> n in b.names))
    && (forall n: Name :: n.Target? && n in a.names ==> b.names[n] == a.names[n])
    && (forall i :: i in a.nodes ==> i in b.nodes && b.nodes[i] == a.nodes[i])
  }

  /** The target names a new node with the content, and with the metadata that the first look saw; all other targets
      are as they are in a. */
  ghost predicate Replaced(a: Files, b: Files, path: Bytes, content: Bytes, seen: Inspection) {
    var t := Target(path);
    && (forall n: Name :: n.Target? && n != t ==> (n in a.names <==> n in b.names))
    && (forall n: Name :: n.Target? && n != t && n in a.names ==> b.names[n] == a.names[n])
    && (forall i :: i in a.nodes ==> i in b.nodes && b.nodes[i] == a.nodes[i])
    && t in b.names && b.names[t] !in a.nodes && b.names[t] in b.nodes
    && b.nodes[b.names[t]].Regular? && b.nodes[b.names[t]].content == content
    && (seen.Present? ==> b.nodes[b.names[t]] == Regular(content, seen.state.perm, seen.state.uid, seen.state.gid))
  }

  /** What a call has done to the files: before it, as the other program left them for the second look and then for the
      commit, and after it. A failed call leaves the targets alone. A successful one was the second time met by what it
      saw the first time; it then replaces whatever its target is, or makes it if it was to be new and is still free. */
  ghost predicate Shows(before: Files, between: Files, later: Files, after: Files, path: Bytes, content: Bytes,
                        failed: bool)
    requires Linked(before)
  {
    var seen := Look(before, Target(path));
    && Linked(between)
    && if failed then SameTargets(before, after) || SameTargets(between, after) || SameTargets(later, after)
       else && Look(between, Target(path)) == seen && Replaced(later, after, path, content, seen)
            && (seen.Absent? ==> Target(path) !in later.names)
  }

  /** The files with a filled temporary beside them. */
  ghost predicate Staged(f: Files, g: Files, temporary: Name, inode: nat, content: Bytes, seen: Inspection) {
    && Linked(f) && Linked(g) && SameTargets(f, g) && temporary.Temporary? && inode !in f.nodes
    && temporary in g.names && g.names[temporary] == inode && g.nodes[inode].Regular?
    && g.nodes[inode].content == content
    && (seen.Present? ==> g.nodes[inode] == Regular(content, seen.state.perm, seen.state.uid, seen.state.gid))
  }

  /** The other program leaves the filled temporary alone. */
  lemma StaysStaged(f: Files, g: Files, foreign: Files, after: Files, temporary: Name, inode: nat, content: Bytes,
                    seen: Inspection)
    requires Staged(f, g, temporary, inode, content, seen)
    requires Linked(foreign) && temporary !in foreign.names && inode !in foreign.nodes
    requires after == Files(foreign.names[temporary := inode], foreign.nodes[inode := g.nodes[inode]])
    ensures Staged(foreign, after, temporary, inode, content, seen)
  {}

  lemma CommitShows(f: Files, g: Files, after: Files, temporary: Name, inode: nat, path: Bytes, content: Bytes,
                    seen: Inspection)
    requires Staged(f, g, temporary, inode, content, seen)
    requires after.nodes == g.nodes
             && (after.names == g.names[Target(path) := inode]
                 || after.names == g.names[Target(path) := inode] - {temporary})
    ensures Replaced(f, after, path, content, seen)
  {}

  lemma FailureShows(f: Files, g: Files, after: Files, temporary: Name)
    requires SameTargets(f, g) && temporary.Temporary? && after.nodes == g.nodes
    requires after.names == g.names || after.names == g.names - {temporary}
    ensures SameTargets(f, after)
  {}

  lemma SameLook(a: Files, b: Files, target: Name)
    requires Linked(a) && Linked(b) && SameTargets(a, b) && target.Target?
    ensures Look(a, target) == Look(b, target) && AheadOf(a, target) == AheadOf(b, target)
  {}

  class Root {
    var names: map<Name, nat>
    var nodes: map<nat, Node>
    var inodes: nat
    const uid: nat
    const gid: nat

    /** No foreign call has failed, and no caller has given up. */
    ghost var calm: bool

    function View(): Files
      reads this
    {
      Files(names, nodes)
    }

    ghost predicate Valid()
      reads this
    {
      Linked(View()) && forall i :: i in nodes ==> i < inodes
    }

    constructor (uid: nat, gid: nat)
      ensures Valid() && names == map[] && calm
    {
      this.uid, this.gid := uid, gid;
      names, nodes, inodes, calm := map[], map[], 0, true;
    }

    /** A call into the system, or a look at the context, that may fail. */
    method Foreign() returns (ok: bool)
      modifies this`calm
      ensures calm == (old(calm) && ok)
    {
      ok := *;
      calm := calm && ok;
    }

    /** inspectWriteTarget: it may fail, but it does not lie. */
    method Inspect(target: Name) returns (seen: Inspection)
      requires Valid()
      modifies this`calm
      ensures calm ==> old(calm)
      ensures calm || !seen.NoAnswer? ==> seen == Look(View(), target)
    {
      var ok := Foreign(); // Lstat
      if !ok {
        return NoAnswer(WriteFailed);
      }
      if target !in names {
        return Absent;
      }
      var node := nodes[names[target]];
      if node.Irregular? {
        return NoAnswer(Unsupported);
      }
      ok := Foreign(); // Open
      if !ok {
        return NoAnswer(WriteFailed);
      }
      ok := Foreign(); // Stat
      if !ok {
        return NoAnswer(Conflict);
      }
      if |node.content| > MAX_FILE {
        return NoAnswer(OutputLimit);
      }
      ok := Foreign(); // reading and hashing
      if !ok {
        var cancelled := *;
        return NoAnswer(if cancelled then Cancelled else WriteFailed);
      }
      return Present(State(names[target], Sha256(node.content), node.perm, node.uid, node.gid));
    }

    /** createWriteTemporary: at most four random names. */
    method CreateTemporary() returns (ok: bool, temporary: Name)
      requires Valid()
      modifies this
      ensures Valid() && (calm ==> old(calm) && ok)
      ensures ok ==> && temporary.Temporary? && temporary !in old(names) && inodes == old(inodes) + 1
                     && names == old(names)[temporary := old(inodes)]
                     && nodes == old(nodes)[old(inodes) := Regular([], NEW_FILE_MODE, uid, gid)]
      ensures !ok ==> names == old(names) && nodes == old(nodes)
    {
      temporary := Temporary(0);
      for attempt := 0 to 4
        invariant Valid() && names == old(names) && nodes == old(nodes) && inodes == old(inodes)
        invariant calm ==> old(calm) && attempt == 0
      {
        ok := Foreign();
        if !ok {
          return;
        }
        var serial: nat := *;
        temporary := Temporary(serial);
        if temporary !in names {
          nodes := nodes[inodes := Regular([], NEW_FILE_MODE, uid, gid)];
          names := names[temporary := inodes];
          inodes := inodes + 1;
          return;
        }
        calm := false;
      }
      ok := false;
    }

    /** writeContext: the system may take any part of what it is given. */
    method WriteContent(inode: nat, content: Bytes) returns (error: seq<Failure>)
      requires Valid() && inode in nodes && nodes[inode].Regular? && nodes[inode].content == []
      modifies this`nodes, this`calm
      ensures Valid() && (calm ==> old(calm) && error == [])
      ensures exists part :: IsPrefix(part, content) && (error == [] ==> part == content)
                             && nodes == old(nodes)[inode := old(nodes)[inode].(content := part)]
    {
      var rest := content;
      ghost var part: Bytes := [];
      while |rest| > 0
        invariant part + rest == content && (calm ==> old(calm))
        invariant nodes == old(nodes)[inode := old(nodes)[inode].(content := part)]
        decreases |rest|
      {
        assert IsPrefix(part, content);
        var ok := Foreign();
        if !ok {
          return [Cancelled];
        }
        ok := Foreign();
        if !ok {
          return [WriteFailed];
        }
        var written: int := *;
        if written <= 0 || written > |rest| {
          calm := false;
          return [WriteFailed];
        }
        nodes := nodes[inode := nodes[inode].(content := nodes[inode].content + rest[..written])];
        part := part + rest[..written];
        rest := rest[written..];
      }
      assert part == content;
      return [];
    }

    /** Fill the temporary and give it the metadata of the file it replaces. */
    method Stage(inode: nat, seen: Inspection, content: Bytes) returns (error: seq<Failure>)
      requires Valid() && inode in nodes && nodes[inode] == Regular([], NEW_FILE_MODE, uid, gid)
      modifies this`nodes, this`calm
      ensures Valid() && nodes.Keys == old(nodes).Keys && (calm ==> old(calm) && error == [])
      ensures forall i :: i in nodes && i != inode ==> nodes[i] == old(nodes)[i]
      ensures error == [] ==>
                nodes[inode] == if seen.Present? then Regular(content, seen.state.perm, seen.state.uid, seen.state.gid)
                                              else Regular(content, NEW_FILE_MODE, uid, gid)
    {
      error := WriteContent(inode, content);
      if error != [] {
        return;
      }
      if seen.Present? {
        var ok := Foreign(); // Chown, Chmod and reading both back
        if !ok {
          return [Unsupported];
        }
        nodes := nodes[inode := nodes[inode].(perm := seen.state.perm, uid := seen.state.uid, gid := seen.state.gid)];
      }
      var ok := Foreign(); // Sync and Close
      if !ok {
        return [WriteFailed];
      }
      ok := Foreign(); // the caller may have given up
      if !ok {
        return [Cancelled];
      }
    }

    /** Another program at work while the call has a temporary. */
    method Intrude(temporary: Name, between: Files, next: nat)
      requires Valid() && temporary in names
      requires Linked(between) && names[temporary] !in between.nodes && names[temporary] < next
      requires forall i :: i in between.nodes ==> i < next
      modifies this`names, this`nodes, this`inodes
      ensures Valid()
      ensures View() == Files(between.names[temporary := old(names)[temporary]],
                              between.nodes[old(names)[temporary] := old(nodes)[old(names)[temporary]]])
    {
      var inode := names[temporary];
      nodes := between.nodes[inode := nodes[inode]];
      names := between.names[temporary := inode];
      inodes := next;
    }

    /** The second look: it passes exactly if it sees what the first one saw. */
    method Recheck(r: Request, seen: Inspection) returns (error: seq<Failure>)
      requires Valid() && Met(r, seen)
      modifies this`calm
      ensures calm ==> old(calm)
      ensures error == [] ==> Look(View(), Target(r.path)) == seen
      ensures calm ==> error == SecondLook(Look(View(), Target(r.path)), seen)
    {
      var again := Inspect(Target(r.path));
      if again.NoAnswer? {
        return [again.error];
      }
      if r.expectedAbsent {
        if again.Present? {
          return [Conflict];
        }
      } else if again.Absent? || again.state.inode != seen.state.inode || [again.state.digest] != r.expectedDigest
                || again.state.perm != seen.state.perm || again.state.uid != seen.state.uid
                   || again.state.gid != seen.state.gid {
        return [Conflict];
      }
      return [];
    }

    /** Link a new file, or rename over what is there. */
    method Commit(temporary: Name, r: Request) returns (error: seq<Failure>, keepTemporary: bool)
      requires Valid() && temporary in names && temporary.Temporary?
      modifies this`names, this`calm
      ensures Valid() && (calm ==> old(calm) && error == CommitFailure(r, AheadOf(old(View()), Target(r.path))))
      ensures CommitFailure(r, AheadOf(old(View()), Target(r.path))) != [] ==> error != []
      ensures error != [] ==> keepTemporary && names == old(names)
      ensures error == [] ==> names == if keepTemporary then old(names)[Target(r.path) := old(names)[temporary]]
                                       else old(names)[Target(r.path) := old(names)[temporary]] - {temporary}
      ensures calm && error == [] ==> !keepTemporary
    {
      var ok := Foreign();
      if !ok {
        return [WriteFailed], true;
      }
      if r.expectedAbsent {
        if Target(r.path) in names {
          return [Conflict], true;
        }
        names := names[Target(r.path) := names[temporary]];
        ok := Foreign();
        keepTemporary := !ok;
        if ok {
          names := names - {temporary};
        }
      } else {
        if Target(r.path) in names && nodes[names[Target(r.path)]] == Irregular(true) {
          return [WriteFailed], true;
        }
        names := names[Target(r.path) := names[temporary]] - {temporary};
        keepTemporary := false;
      }
      error := [];
    }

    /** The deferred removal of the temporary. */
    method CleanUp(temporary: Name, keepTemporary: bool)
      requires Valid()
      modifies this`names, this`calm
      ensures Valid() && (calm ==> old(calm))
      ensures names == old(names) || (keepTemporary && names == old(names) - {temporary})
      ensures calm && keepTemporary ==> names == old(names) - {temporary}
    {
      if keepTemporary {
        var ok := Foreign();
        if ok {
          names := names - {temporary};
        }
      }
    }

    /** Write. It commits the content in one step, and only if both looks see what the caller expected; otherwise
        every file stays as it was, or as the other program left it. When nothing fails, the reply is the verdict on
        the two looks and on what stands in the way of the commit, and no temporary stays behind. */
    method Write(r: Request, content: Bytes, between: Files, later: Files, next: nat) returns (reply: Reply)
      requires Valid() && Allowed(View(), between, inodes, next) && Allowed(View(), later, inodes, next)
      modifies this
      ensures Valid() && (calm ==> old(calm))
      ensures Shows(old(View()), between, later, View(), r.path, content, reply.Failed?)
      ensures reply.Written? ==> reply == Receipt(r, content) && Met(r, Look(old(View()), Target(r.path)))
      ensures calm ==> reply == Verdict(Look(old(View()), Target(r.path)), Look(between, Target(r.path)),
                                        AheadOf(later, Target(r.path)), r, content)
      ensures calm ==> SameTemporaries(old(View()), View())
    {
      if !ValidRequest(r, content) {
        return Failed(InvalidPath);
      }
      var ok := Foreign(); // the caller may have given up while it waited for the lock
      if !ok {
        return Failed(Cancelled);
      }
      var seen := Inspect(Target(r.path));
      if seen.NoAnswer? {
        return Failed(seen.error);
      }
      if !Met(r, seen) {
        return Failed(Conflict);
      }
      var error := Replace(r, seen, content, between, later, next);
      if error != [] {
        return Failed(error[0]);
      }
      return Receipt(r, content);
    }

    /** From the temporary on. */
    method Replace(r: Request, seen: Inspection, content: Bytes, between: Files, later: Files, next: nat)
      returns (error: seq<Failure>)
      requires Valid() && Allowed(View(), between, inodes, next) && Allowed(View(), later, inodes, next)
      requires Look(View(), Target(r.path)) == seen && Met(r, seen)
      modifies this
      ensures Valid() && (calm ==> old(calm))
      ensures Shows(old(View()), between, later, View(), r.path, content, error != [])
      ensures calm ==> error == Outcome(Look(between, Target(r.path)), seen, AheadOf(later, Target(r.path)), r)
      ensures calm ==> SameTemporaries(old(View()), View())
    {
      var temporary: Name;
      error, temporary := Prepare(r, seen, content, between, next);
      if error != [] {
        return;
      }
      ghost var inode, staged := names[temporary], View();
      Intrude(temporary, later, next);
      StaysStaged(between, staged, later, View(), temporary, inode, content, seen);
      error := CommitAndCleanUp(temporary, r, seen, content, inode, later);
    }

    /** A filled temporary that has passed the second look, or nothing. */
    method Prepare(r: Request, seen: Inspection, content: Bytes, between: Files, next: nat)
      returns (error: seq<Failure>, temporary: Name)
      requires Valid() && Allowed(View(), between, inodes, next)
      requires Look(View(), Target(r.path)) == seen && Met(r, seen)
      modifies this
      ensures Valid() && (calm ==> old(calm))
      ensures error != [] ==> SameTargets(old(View()), View()) || SameTargets(between, View())
      ensures error == [] ==> && Look(between, Target(r.path)) == seen && temporary !in old(names)
                              && Staged(between, View(), temporary, old(inodes), content, seen)
      ensures calm ==> error == SecondLook(Look(between, Target(r.path)), seen)
      ensures calm ==> forall n: Name :: n.Temporary? && (error == [] ==> n != temporary) ==>
                         (n in names <==> n in old(names))
    {
      error, temporary := CreateAndStage(seen, content);
      if error != [] {
        return;
      }
      ghost var inode, staged := names[temporary], View();
      Intrude(temporary, between, next);
      StaysStaged(old(View()), staged, between, View(), temporary, inode, content, seen);
      error := RecheckOrCleanUp(temporary, r, seen, content, inode, between);
    }

    /** A filled temporary, or nothing. */
    method CreateAndStage(seen: Inspection, content: Bytes) returns (error: seq<Failure>, temporary: Name)
      requires Valid()
      modifies this
      ensures Valid() && (calm ==> old(calm) && error == [])
      ensures error != [] ==> SameTargets(old(View()), View())
      ensures error == [] ==>
                && Staged(old(View()), View(), temporary, old(inodes), content, seen) && inodes == old(inodes) + 1
                              && temporary !in old(names)
      ensures forall n: Name :: n.Temporary? && (error == [] ==> n != temporary) && (calm || error == []) ==>
                (n in names <==> n in old(names))
    {
      var ok;
      ok, temporary := CreateTemporary();
      if !ok {
        return [WriteFailed], temporary;
      }
      error := Stage(names[temporary], seen, content);
      if error != [] {
        CleanUp(temporary, true);
      }
    }

    /** The second look; if it fails, the temporary is removed. */
    method RecheckOrCleanUp(temporary: Name, r: Request, seen: Inspection, ghost content: Bytes, ghost inode: nat,
                            ghost between: Files)
      returns (error: seq<Failure>)
      requires Valid() && Met(r, seen) && Staged(between, View(), temporary, inode, content, seen)
      modifies this`names, this`calm
      ensures Valid() && (calm ==> old(calm))
      ensures error != [] ==> SameTargets(between, View()) && (calm ==> temporary !in names)
      ensures error == [] ==> Look(between, Target(r.path)) == seen && names == old(names)
      ensures calm ==> error == SecondLook(Look(between, Target(r.path)), seen)
      ensures forall n: Name :: n.Temporary? && n != temporary ==> (n in names <==> n in old(names))
    {
      ghost var staged := View();
      SameLook(between, View(), Target(r.path));
      error := Recheck(r, seen);
      if error != [] {
        CleanUp(temporary, true);
        FailureShows(between, staged, View(), temporary);
      }
    }

    /** The commit, and the removal of the temporary. */
    method CommitAndCleanUp(temporary: Name, r: Request, seen: Inspection, ghost content: Bytes, ghost inode: nat,
                            ghost later: Files)
      returns (error: seq<Failure>)
      requires Valid() && Met(r, seen) && Staged(later, View(), temporary, inode, content, seen)
      modifies this`names, this`calm
      ensures Valid() && (calm ==> old(calm))
      ensures error != [] ==> SameTargets(later, View())
      ensures error == [] ==> Replaced(later, View(), r.path, content, seen)
      ensures error == [] && r.expectedAbsent ==> Target(r.path) !in later.names
      ensures calm ==> error == CommitFailure(r, AheadOf(later, Target(r.path)))
      ensures forall n: Name :: n.Temporary? && n != temporary ==> (n in names <==> n in old(names))
      ensures calm ==> temporary !in names
    {
      ghost var staged := View();
      SameLook(later, View(), Target(r.path));
      var keepTemporary;
      error, keepTemporary := Commit(temporary, r);
      CleanUp(temporary, keepTemporary);
      if error == [] {
        CommitShows(later, staged, View(), temporary, inode, r.path, content, seen);
      } else {
        FailureShows(later, staged, View(), temporary);
      }
    }
  }
}

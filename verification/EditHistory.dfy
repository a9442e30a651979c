/** Any number of EditFileAll and WriteFile calls through one root, with every step of every call interleaved
    with the steps of the others: reading takes no lock, writing holds the root's mutation lock. */
module EditHistory {
  import opened Bytes
  import SpliceEdit
  import opened Wrappers

  type Path = Bytes
  type CallId = nat

  const MAX_WRITE := SpliceEdit.MAX_WRITE

  /** What a caller asks for: replacements, or a content for a file of which it knows the digest, or that must not
      exist. */
  datatype Wish = Edit(rs: seq<SpliceEdit.Replacement>) | Put(content: Bytes, expected: Option<Digest>)

  /** A write request as the helper gets it. */
  datatype Request = Request(expected: Option<Digest>, content: Bytes)

  /** seen: what the file held when it was opened. */
  datatype Phase =
    | Started
    | Opened(inode: nat, seen: Bytes)
    | Asked(request: Request)
    | Locked(request: Request)
    | Looked(request: Request)
    | Staging(request: Request, temporary: nat, done: nat)
    | Ready(request: Request, temporary: nat)
    | Committed
    | Succeeded
    | Failed

  datatype Call = Call(path: Path, wish: Wish, phase: Phase)

  datatype Commit = Commit(id: CallId, path: Path, wish: Wish, base: Option<Bytes>, result: Bytes)

  /** names and nodes are the file tree; a node that no name leads to is a temporary, or an old file still open. */
  datatype Root = Root(names: map<Path, nat>, nodes: map<nat, Bytes>, inodes: nat,
                       holder: Option<CallId>, calls: map<CallId, Call>, log: seq<Commit>)

  // ---------------------------------------------------------------- steps

  datatype Act =
    | Begin(id: CallId, path: Path, wish: Wish)
    | Open(id: CallId)
    | Read(id: CallId)
    | Lock(id: CallId)
    | Look(id: CallId)
    | Create(id: CallId)
    | Write(id: CallId, n: nat)
    | Recheck(id: CallId)
    | CommitNow(id: CallId)
    | Unlock(id: CallId)
    | Fail(id: CallId)

  predicate Holds(p: Phase) {
    p.Locked? || p.Looked? || p.Staging? || p.Ready? || p.Committed?
  }

  predicate Over(p: Phase) { p.Committed? || p.Succeeded? || p.Failed? }

  function Current(r: Root, path: Path): Option<Bytes> {
    if path in r.names && r.names[path] in r.nodes then Some(r.nodes[r.names[path]]) else None
  }

  function DigestOf(content: Option<Bytes>): Option<Digest> {
    if content.None? then None else Some(Sha256(content.value))
  }

  predicate Can(r: Root, a: Act) {
    match a
    case Begin(id, _, _) => id !in r.calls
    case Open(id) => id in r.calls && r.calls[id].phase.Started?
    case Read(id) => id in r.calls && r.calls[id].phase.Opened? && r.calls[id].phase.inode in r.nodes
         && r.calls[id].wish.Edit?
    case Lock(id) => id in r.calls && r.calls[id].phase.Asked? && r.holder.None?
    case Look(id) => id in r.calls && r.calls[id].phase.Locked?
    case Create(id) => id in r.calls && r.calls[id].phase.Looked?
    case Write(id, n) => id in r.calls && r.calls[id].phase.Staging? && 0 < n
                         && r.calls[id].phase.done + n <= |r.calls[id].phase.request.content|
    case Recheck(id) => id in r.calls && r.calls[id].phase.Staging?
                        && r.calls[id].phase.done == |r.calls[id].phase.request.content|
    case CommitNow(id) => id in r.calls && r.calls[id].phase.Ready?
    case Unlock(id) => id in r.calls && r.calls[id].phase.Committed?
    case Fail(id) => id in r.calls && !Over(r.calls[id].phase)
  }

  function Enter(r: Root, id: CallId, p: Phase): Root
    requires id in r.calls
  {
    r.(calls := r.calls[id := r.calls[id].(phase := p)])
  }

  /** A call that ends without a commit gives the lock back. */
  function GiveUp(r: Root, id: CallId): Root
    requires id in r.calls
  {
    Enter(r, id, Failed).(holder := if r.holder == Some(id) then None else r.holder)
  }

  predicate Met(r: Root, id: CallId)
    requires id in r.calls && Holds(r.calls[id].phase) && !r.calls[id].phase.Committed?
  {
    DigestOf(Current(r, r.calls[id].path)) == r.calls[id].phase.request.expected
  }

  function FirstPhase(wish: Wish): Phase {
    match wish
    case Edit(_) => Started
    case Put(content, expected) => if |content| > MAX_WRITE then Failed else Asked(Request(expected, content))
  }

  function AfterRead(rs: seq<SpliceEdit.Replacement>, content: Bytes): Phase {
    if |content| > MAX_WRITE then Failed
    else match SpliceEdit.EditAll(content, rs)
         case Edited(edited) => Asked(Request(Some(Sha256(content)), edited))
         case _ => Failed
  }

  function Do(r: Root, a: Act): Root
    requires Can(r, a)
  {
    match a
    case Begin(id, path, wish) => r.(calls := r.calls[id := Call(path, wish, FirstPhase(wish))])
    case Open(id) =>
      var c := Current(r, r.calls[id].path);
      if c.None? then GiveUp(r, id) else Enter(r, id, Opened(r.names[r.calls[id].path], c.value))
    case Read(id) => Enter(r, id, AfterRead(r.calls[id].wish.rs, r.nodes[r.calls[id].phase.inode]))
    case Lock(id) => Enter(r, id, Locked(r.calls[id].phase.request)).(holder := Some(id))
    case Look(id) => if Met(r, id) then Enter(r, id, Looked(r.calls[id].phase.request)) else GiveUp(r, id)
    case Create(id) =>
      Enter(r, id, Staging(r.calls[id].phase.request, r.inodes, 0))
        .(nodes := r.nodes[r.inodes := []], inodes := r.inodes + 1)
    case Write(id, n) =>
      var p := r.calls[id].phase;
      Enter(r, id, p.(done := p.done + n)).(nodes := r.nodes[p.temporary := p.request.content[..p.done + n]])
    case Recheck(id) =>
      var p := r.calls[id].phase;
      if Met(r, id) then Enter(r, id, Ready(p.request, p.temporary)) else GiveUp(r, id)
    case CommitNow(id) =>
      var c := r.calls[id];
      Enter(r, id, Committed).(
        names := r.names[c.path := c.phase.temporary],
        log := r.log + [Commit(id, c.path, c.wish, Current(r, c.path), c.phase.request.content)])
    case Unlock(id) => Enter(r, id, Succeeded).(holder := None)
    case Fail(id) => GiveUp(r, id)
  }

  // ---------------------------------------------------------------- what a call means on its own

  /** What a call makes of the file when it runs alone, in one step. */
  function Meaning(wish: Wish, current: Option<Bytes>): Option<Bytes> {
    match wish
    case Edit(rs) =>
      if current.None? || |current.value| > MAX_WRITE then None
      else (match SpliceEdit.EditAll(current.value, rs)
            case Edited(edited) => Some(edited)
            case _ => None)
    case Put(content, expected) =>
      if |content| <= MAX_WRITE && DigestOf(current) == expected then Some(content) else None
  }

  function Lookup(files: map<Path, Bytes>, path: Path): Option<Bytes> {
    if path in files then Some(files[path]) else None
  }

  /** The successful calls run one after the other. None if one of them would not succeed, or would not find
      the content it was based on. */
  function Serial(files: map<Path, Bytes>, log: seq<Commit>): Option<map<Path, Bytes>> {
    if |log| == 0 then Some(files)
    else
      var before := Serial(files, log[..|log| - 1]);
      var c := log[|log| - 1];
      if before.None? || Lookup(before.value, c.path) != c.base || Meaning(c.wish, c.base) != Some(c.result) then None
      else Some(before.value[c.path := c.result])
  }

  function Files(names: map<Path, nat>, nodes: map<nat, Bytes>): map<Path, Bytes> {
    map p | p in names && names[p] in nodes :: nodes[names[p]]
  }

  // ---------------------------------------------------------------- invariant

  /** The request is the one that the wish leads to. */
  ghost predicate Fulfils(q: Request, wish: Wish) {
    match wish
    case Put(content, expected) => q == Request(expected, content) && |content| <= MAX_WRITE
    case Edit(rs) => q.expected.Some? && Meaning(wish, Some(q.expected.value.preimage)) == Some(q.content)
  }

  predicate HasRequest(p: Phase) { p.Asked? || p.Locked? || p.Looked? || p.Staging? || p.Ready? }

  predicate HasTemporary(p: Phase) { p.Staging? || p.Ready? }

  ghost predicate TreeInv(names: map<Path, nat>, nodes: map<nat, Bytes>, inodes: nat) {
    && (forall p :: p in names ==> names[p] in nodes)
    && (forall i :: i in nodes ==> i < inodes)
  }

  /** Only the lock's holder has a temporary, which no name and no reader leads to. */
  ghost predicate CallInv(r: Root, id: CallId)
    requires id in r.calls
  {
    var c := r.calls[id];
    && (Holds(c.phase) <==> r.holder == Some(id))
    && (HasRequest(c.phase) ==> Fulfils(c.phase.request, c.wish))
    && (c.phase.Started? || c.phase.Opened? ==> c.wish.Edit?)
    && (c.phase.Opened? ==> c.phase.inode in r.nodes && r.nodes[c.phase.inode] == c.phase.seen)
    && (c.phase.Looked? || HasTemporary(c.phase) ==> DigestOf(Current(r, c.path)) == c.phase.request.expected)
    && (HasTemporary(c.phase) ==> c.phase.temporary in r.nodes && Unreached(r, c.phase.temporary))
    && (c.phase.Staging? ==> c.phase.done <= |c.phase.request.content|
                             && r.nodes[c.phase.temporary] == c.phase.request.content[..c.phase.done])
    && (c.phase.Ready? ==> r.nodes[c.phase.temporary] == c.phase.request.content)
  }

  ghost predicate Unreached(r: Root, inode: nat) {
    && (forall p :: p in r.names ==> r.names[p] != inode)
    && (forall id :: id in r.calls && r.calls[id].phase.Opened? ==> r.calls[id].phase.inode != inode)
  }

  ghost predicate LogInv(calls: map<CallId, Call>, log: seq<Commit>) {
    && (forall i, j :: 0 <= i < j < |log| ==> log[i].id != log[j].id)
    && (forall k :: 0 <= k < |log| ==> log[k].id in calls && CommitOf(calls[log[k].id], log[k]))
    && (forall id :: id in calls && (calls[id].phase.Committed? || calls[id].phase.Succeeded?) ==> Logged(log, id))
  }

  ghost predicate CommitOf(c: Call, k: Commit) {
    k.path == c.path && k.wish == c.wish && (c.phase.Committed? || c.phase.Succeeded?)
  }

  ghost predicate Logged(log: seq<Commit>, id: CallId) {
    exists k :: 0 <= k < |log| && log[k].id == id
  }

  ghost predicate Inv(r: Root, files: map<Path, Bytes>) {
    && TreeInv(r.names, r.nodes, r.inodes)
    && (forall id :: id in r.calls ==> CallInv(r, id))
    && (r.holder.Some? ==> r.holder.value in r.calls)
    && LogInv(r.calls, r.log)
    && Serial(files, r.log) == Some(Files(r.names, r.nodes))
  }

  // ---------------------------------------------------------------- every step keeps it

  lemma OthersKeepLog(calls: map<CallId, Call>, log: seq<Commit>, id: CallId, c: Call)
    requires LogInv(calls, log)
    requires id in calls ==> c.path == calls[id].path && c.wish == calls[id].wish
    requires id in calls && (calls[id].phase.Committed? || calls[id].phase.Succeeded?) ==>
               c.phase.Committed? || c.phase.Succeeded?
    requires c.phase.Committed? || c.phase.Succeeded? ==>
               id in calls && (calls[id].phase.Committed? || calls[id].phase.Succeeded?)
    ensures LogInv(calls[id := c], log)
  {}

  /** One call changes its phase; what the others rely on is as before. */
  ghost predicate OneCall(r: Root, s: Root, id: CallId) {
    && id in s.calls && s.calls.Keys == r.calls.Keys + {id}
    && (forall x :: x in r.calls && x != id ==> s.calls[x] == r.calls[x])
    && (id in r.calls ==> s.calls[id].path == r.calls[id].path && s.calls[id].wish == r.calls[id].wish)
  }

  /** Nothing in the file tree changes but perhaps the contents of nodes that nothing leads to. */
  ghost predicate TreeKept(r: Root, s: Root, scratch: nat) {
    && s.names == r.names && r.inodes <= s.inodes
    && (forall i :: i in r.nodes ==> i in s.nodes)
    && (forall i :: i in r.nodes && i != scratch ==> s.nodes[i] == r.nodes[i])
    && Unreached(r, scratch)
  }

  lemma TreeKeptFiles(r: Root, s: Root, scratch: nat)
    requires TreeInv(r.names, r.nodes, r.inodes) && TreeKept(r, s, scratch)
    ensures Files(s.names, s.nodes) == Files(r.names, r.nodes)
    ensures forall p :: Current(s, p) == Current(r, p)
  {}

  /** A call that is not the one that moves, and does not own the scratch node. */
  lemma OtherCall(r: Root, s: Root, id: CallId, scratch: nat, x: CallId)
    requires TreeInv(r.names, r.nodes, r.inodes) && OneCall(r, s, id) && TreeKept(r, s, scratch)
    requires x in r.calls && x != id && CallInv(r, x)
    requires (s.holder == Some(x) <==> r.holder == Some(x))
    requires HasTemporary(r.calls[x].phase) ==> r.calls[x].phase.temporary != scratch
    requires s.calls[id].phase.Opened? ==> exists p :: p in r.names && s.calls[id].phase.inode == r.names[p]
    ensures CallInv(s, x)
  {
    TreeKeptFiles(r, s, scratch);
    if HasTemporary(r.calls[x].phase) {
      var t := r.calls[x].phase.temporary;
      assert Unreached(s, t);
    }
  }

  /** At most one call has a temporary. */
  lemma OneHolder(r: Root, files: map<Path, Bytes>, id: CallId, x: CallId)
    requires Inv(r, files) && id in r.calls && x in r.calls && Holds(r.calls[id].phase) && x != id
    ensures !Holds(r.calls[x].phase)
  {
    assert CallInv(r, id) && CallInv(r, x);
  }

  /** Steps that leave the tree alone. */
  predicate Quiet(a: Act) { a.Begin? || a.Open? || a.Read? || a.Lock? || a.Look? || a.Recheck? || a.Unlock? || a.Fail? }

  lemma QuietShape(r: Root, a: Act)
    requires Can(r, a) && Quiet(a)
    ensures var s := Do(r, a);
            && s.names == r.names && s.nodes == r.nodes && s.inodes == r.inodes && s.log == r.log
            && OneCall(r, s, a.id)
  {}

  lemma Spare(r: Root) returns (scratch: nat)
    requires TreeInv(r.names, r.nodes, r.inodes) && forall id :: id in r.calls ==> CallInv(r, id)
    ensures scratch == r.inodes && scratch !in r.nodes && Unreached(r, scratch)
  {
    scratch := r.inodes;
  }

  lemma QuietHolder(r: Root, files: map<Path, Bytes>, a: Act, x: CallId)
    requires Inv(r, files) && Can(r, a) && Quiet(a) && x in r.calls && x != a.id
    ensures Do(r, a).holder == Some(x) <==> r.holder == Some(x)
  {
    if a.id in r.calls {
      assert CallInv(r, a.id) && CallInv(r, x);
    }
  }

  lemma QuietOthers(r: Root, files: map<Path, Bytes>, a: Act, x: CallId)
    requires Inv(r, files) && Can(r, a) && Quiet(a) && x in r.calls && x != a.id
    ensures CallInv(Do(r, a), x)
  {
    var s := Do(r, a);
    QuietShape(r, a);
    QuietHolder(r, files, a, x);
    var scratch := Spare(r);
    assert CallInv(r, x);
    OtherCall(r, s, a.id, scratch, x);
  }

  /** A call begins, or reads the file without the lock. */
  lemma ReaderSelf(r: Root, files: map<Path, Bytes>, a: Act)
    requires Inv(r, files) && Can(r, a) && (a.Begin? || a.Open? || a.Read?)
    ensures CallInv(Do(r, a), a.id)
  {
    if a.Begin? { assert r.holder != Some(a.id); } else { assert CallInv(r, a.id); }
  }

  /** A call takes the lock, or looks at the file, or gives the lock back. */
  lemma HolderSelf(r: Root, a: Act)
    requires Can(r, a) && (a.Lock? || a.Look? || a.Unlock? || a.Fail?)
    requires a.id in r.calls && CallInv(r, a.id)
    ensures CallInv(Do(r, a), a.id)
  {}

  /** The second look. */
  lemma RecheckSelf(r: Root, id: CallId)
    requires Can(r, Recheck(id)) && CallInv(r, id)
    ensures CallInv(Do(r, Recheck(id)), id)
  {
    assert Unreached(Do(r, Recheck(id)), r.calls[id].phase.temporary);
  }

  lemma QuietSelf(r: Root, files: map<Path, Bytes>, a: Act)
    requires Inv(r, files) && Can(r, a) && Quiet(a)
    ensures CallInv(Do(r, a), a.id)
  {
    if a.Begin? || a.Open? || a.Read? {
      ReaderSelf(r, files, a);
    } else {
      assert CallInv(r, a.id);
      if a.Recheck? { RecheckSelf(r, a.id); } else { HolderSelf(r, a); }
    }
  }

  lemma QuietKeeps(r: Root, files: map<Path, Bytes>, a: Act)
    requires Inv(r, files) && Can(r, a) && Quiet(a)
    ensures Inv(Do(r, a), files)
  {
    var s := Do(r, a);
    QuietShape(r, a);
    QuietSelf(r, files, a);
    forall x | x in s.calls ensures CallInv(s, x) {
      if x != a.id { QuietOthers(r, files, a, x); }
    }
    if a.id in r.calls { assert CallInv(r, a.id); }
    OthersKeepLog(r.calls, r.log, a.id, s.calls[a.id]);
    assert s.calls == r.calls[a.id := s.calls[a.id]];
  }

  lemma CreateSelf(r: Root, id: CallId)
    requires Can(r, Create(id)) && CallInv(r, id) && Unreached(r, r.inodes)
    requires TreeInv(r.names, r.nodes, r.inodes)
    ensures var s := Do(r, Create(id)); CallInv(s, id) && OneCall(r, s, id) && TreeKept(r, s, r.inodes)
  {
    var s := Do(r, Create(id));
    assert TreeKept(r, s, r.inodes);
    TreeKeptFiles(r, s, r.inodes);
  }

  lemma CreateKeeps(r: Root, files: map<Path, Bytes>, id: CallId)
    requires Inv(r, files) && Can(r, Create(id))
    ensures Inv(Do(r, Create(id)), files)
  {
    var s := Do(r, Create(id));
    var scratch := Spare(r);
    assert CallInv(r, id);
    CreateSelf(r, id);
    TreeKeptFiles(r, s, scratch);
    forall x | x in s.calls && x != id ensures CallInv(s, x) {
      OneHolder(r, files, id, x);
      OtherCall(r, s, id, scratch, x);
    }
    OthersKeepLog(r.calls, r.log, id, s.calls[id]);
  }

  lemma WriteKeeps(r: Root, files: map<Path, Bytes>, id: CallId, n: nat)
    requires Inv(r, files) && Can(r, Write(id, n))
    ensures Inv(Do(r, Write(id, n)), files)
  {
    var s := Do(r, Write(id, n));
    assert CallInv(r, id);
    var scratch := r.calls[id].phase.temporary;
    TreeKeptFiles(r, s, scratch);
    forall x | x in s.calls && x != id ensures CallInv(s, x) {
      OneHolder(r, files, id, x);
      OtherCall(r, s, id, scratch, x);
    }
    OthersKeepLog(r.calls, r.log, id, s.calls[id]);
  }

  /** The commit finds the content the call was based on. */
  lemma CommitIsMeant(r: Root, files: map<Path, Bytes>, id: CallId)
    requires Inv(r, files) && Can(r, CommitNow(id))
    ensures var c := r.calls[id]; Meaning(c.wish, Current(r, c.path)) == Some(c.phase.request.content)
  {
    assert CallInv(r, id);
  }

  lemma CommitSerial(r: Root, files: map<Path, Bytes>, id: CallId)
    requires Inv(r, files) && Can(r, CommitNow(id))
    ensures var s := Do(r, CommitNow(id)); Serial(files, s.log) == Some(Files(s.names, s.nodes))
  {
    var s, c := Do(r, CommitNow(id)), r.calls[id];
    CommitIsMeant(r, files, id);
    assert CallInv(r, id);
    var before := Files(r.names, r.nodes);
    assert Lookup(before, c.path) == Current(r, c.path);
    assert s.log[..|s.log| - 1] == r.log;
    assert Files(s.names, s.nodes) == before[c.path := c.phase.request.content];
  }

  lemma CommitOthers(r: Root, files: map<Path, Bytes>, id: CallId, x: CallId)
    requires Inv(r, files) && Can(r, CommitNow(id)) && x in r.calls && x != id
    ensures CallInv(Do(r, CommitNow(id)), x)
  {
    OneHolder(r, files, id, x);
    assert CallInv(r, x) && CallInv(r, id);
  }

  lemma CommitLog(r: Root, files: map<Path, Bytes>, id: CallId)
    requires Inv(r, files) && Can(r, CommitNow(id))
    ensures var s := Do(r, CommitNow(id)); LogInv(s.calls, s.log)
  {
    var s := Do(r, CommitNow(id));
    forall x | x in s.calls && (s.calls[x].phase.Committed? || s.calls[x].phase.Succeeded?) ensures Logged(s.log, x) {
      if x == id {
        assert s.log[|r.log|].id == id;
      } else {
        var k :| 0 <= k < |r.log| && r.log[k].id == x;
        assert s.log[k].id == x;
      }
    }
  }

  lemma CommitKeeps(r: Root, files: map<Path, Bytes>, id: CallId)
    requires Inv(r, files) && Can(r, CommitNow(id))
    ensures Inv(Do(r, CommitNow(id)), files)
  {
    var s := Do(r, CommitNow(id));
    CommitSerial(r, files, id);
    CommitLog(r, files, id);
    assert CallInv(r, id);
    forall x | x in s.calls && x != id ensures CallInv(s, x) { CommitOthers(r, files, id, x); }
    CommitSelf(r, id);
  }

  lemma CommitSelf(r: Root, id: CallId)
    requires Can(r, CommitNow(id)) && CallInv(r, id)
    ensures CallInv(Do(r, CommitNow(id)), id)
  {}

  lemma StepKeeps(r: Root, files: map<Path, Bytes>, a: Act)
    requires Inv(r, files) && Can(r, a)
    ensures Inv(Do(r, a), files)
  {
    match a
    case Create(id) => CreateKeeps(r, files, id);
    case Write(id, n) => WriteKeeps(r, files, id, n);
    case CommitNow(id) => CommitKeeps(r, files, id);
    case _ => QuietKeeps(r, files, a);
  }

  /** Only a commit shows: every other step, and so a call that fails, leaves every file as it was. */
  lemma OnlyCommitsShow(r: Root, files: map<Path, Bytes>, a: Act)
    requires Inv(r, files) && Can(r, a) && !a.CommitNow?
    ensures Files(Do(r, a).names, Do(r, a).nodes) == Files(r.names, r.nodes)
  {
    match a
    case Create(id) =>
      var scratch := Spare(r);
      TreeKeptFiles(r, Do(r, a), scratch);
    case Write(id, n) =>
      assert CallInv(r, id);
      TreeKeptFiles(r, Do(r, a), r.calls[id].phase.temporary);
    case _ => QuietShape(r, a);
  }

  // ---------------------------------------------------------------- every run

  function Start(names: map<Path, nat>, nodes: map<nat, Bytes>, inodes: nat): Root {
    Root(names, nodes, inodes, None, map[], [])
  }

  predicate CanRun(r: Root, acts: seq<Act>)
    decreases |acts|
  {
    |acts| == 0 || (Can(r, acts[0]) && CanRun(Do(r, acts[0]), acts[1..]))
  }

  function Run(r: Root, acts: seq<Act>): Root
    requires CanRun(r, acts)
    decreases |acts|
  {
    if |acts| == 0 then r else Run(Do(r, acts[0]), acts[1..])
  }

  lemma {:induction false} RunKeeps(r: Root, files: map<Path, Bytes>, acts: seq<Act>)
    requires Inv(r, files) && CanRun(r, acts)
    ensures Inv(Run(r, acts), files)
    decreases |acts|
  {
    if |acts| > 0 {
      StepKeeps(r, files, acts[0]);
      RunKeeps(Do(r, acts[0]), files, acts[1..]);
    }
  }

  /** No update is lost. However the calls interleave, the files are what the successful calls make of them
      when they run one after the other in the order of their commits, each on exactly the content that it
      read or whose digest it gave; the log has every successful call once and no other. */
  lemma NoLostUpdate(names: map<Path, nat>, nodes: map<nat, Bytes>, inodes: nat, acts: seq<Act>)
    requires TreeInv(names, nodes, inodes) && CanRun(Start(names, nodes, inodes), acts)
    ensures var r := Run(Start(names, nodes, inodes), acts);
            && Serial(Files(names, nodes), r.log) == Some(Files(r.names, r.nodes))
            && (forall i, j :: 0 <= i < j < |r.log| ==> r.log[i].id != r.log[j].id)
            && (forall id :: id in r.calls ==>
                (r.calls[id].phase.Succeeded? || r.calls[id].phase.Committed? <==> Logged(r.log, id)))
  {
    var s := Start(names, nodes, inodes);
    assert Serial(Files(names, nodes), []) == Some(Files(names, nodes));
    RunKeeps(s, Files(names, nodes), acts);
  }

  /** What an edit reads is what its file held when it was opened, whatever has been committed since. */
  lemma ReadsAreWhole(r: Root, files: map<Path, Bytes>, id: CallId)
    requires Inv(r, files) && Can(r, Read(id))
    ensures Do(r, Read(id)).calls[id].phase == AfterRead(r.calls[id].wish.rs, r.calls[id].phase.seen)
  {
    assert CallInv(r, id);
  }

  lemma {:induction false} RunsJoin(r: Root, a: seq<Act>, b: seq<Act>)
    requires CanRun(r, a) && CanRun(Run(r, a), b)
    ensures CanRun(r, a + b) && Run(r, a + b) == Run(Run(r, a), b)
    decreases |a|
  {
    if |a| == 0 {
      assert a + b == b;
    } else {
      assert (a + b)[1..] == a[1..] + b;
      RunsJoin(Do(r, a[0]), a[1..], b);
    }
  }

  lemma ThreeSteps(r: Root, a: Act, b: Act, c: Act)
    requires Can(r, a) && Can(Do(r, a), b) && Can(Do(Do(r, a), b), c)
    ensures CanRun(r, [a, b, c]) && Run(r, [a, b, c]) == Do(Do(Do(r, a), b), c)
  {
    var s := Do(r, a);
    var t := Do(s, b);
    assert [c][1..] == [] && [b, c][1..] == [c] && [a, b, c][1..] == [b, c];
    assert CanRun(t, [c]) && Run(t, [c]) == Do(t, c);
    assert CanRun(s, [b, c]) && Run(s, [b, c]) == Do(t, c);
  }

  /** What holds of a root where call id is at a phase and nothing else stands in its way. */
  ghost predicate At(r: Root, id: CallId, path: Path, current: Option<Bytes>, p: Phase) {
    && id in r.calls && r.calls[id].path == path && r.calls[id].phase == p
    && Current(r, path) == current && r.holder == (if Holds(p) then Some(id) else None)
  }

  /** The request that a wish comes to when the file is as it is now. */
  function RequestOf(wish: Wish, current: Option<Bytes>): Request
    requires Meaning(wish, current).Some?
  {
    Request(DigestOf(current), Meaning(wish, current).value)
  }

  lemma AsksAlone(r: Root, id: CallId, path: Path, wish: Wish) returns (acts: seq<Act>)
    requires id !in r.calls && r.holder.None? && Meaning(wish, Current(r, path)).Some?
    ensures CanRun(r, acts) && At(Run(r, acts), id, path, Current(r, path), Asked(RequestOf(wish, Current(r, path))))
    ensures Run(r, acts).names == r.names && Run(r, acts).nodes == r.nodes && Run(r, acts).inodes == r.inodes
  {
    if wish.Edit? {
      ThreeSteps(r, Begin(id, path, wish), Open(id), Read(id));
      acts := [Begin(id, path, wish), Open(id), Read(id)];
    } else {
      acts := [Begin(id, path, wish)];
      assert acts[1..] == [];
      assert Can(r, acts[0]) && CanRun(Do(r, acts[0]), acts[1..]);
      assert Run(r, acts) == Do(r, acts[0]);
    }
  }

  lemma StagesAlone(r: Root, id: CallId, path: Path, current: Option<Bytes>, q: Request) returns (acts: seq<Act>)
    requires At(r, id, path, current, Asked(q)) && DigestOf(current) == q.expected
    requires TreeInv(r.names, r.nodes, r.inodes)
    ensures CanRun(r, acts) && At(Run(r, acts), id, path, current, Staging(q, r.inodes, 0))
    ensures Run(r, acts).nodes == r.nodes[r.inodes := []] && Run(r, acts).names == r.names
  {
    ThreeSteps(r, Lock(id), Look(id), Create(id));
    acts := [Lock(id), Look(id), Create(id)];
  }

  lemma WritesAlone(r: Root, id: CallId, path: Path, current: Option<Bytes>, q: Request, t: nat)
    returns (acts: seq<Act>)
    requires At(r, id, path, current, Staging(q, t, 0)) && t in r.nodes && r.nodes[t] == []
    requires forall p :: p in r.names ==> r.names[p] != t
    ensures CanRun(r, acts) && At(Run(r, acts), id, path, current, Staging(q, t, |q.content|))
    ensures t in Run(r, acts).nodes && Run(r, acts).nodes[t] == q.content
  {
    if |q.content| == 0 {
      acts := [];
    } else {
      acts := [Write(id, |q.content|)];
      assert acts[1..] == [];
      assert q.content[..|q.content|] == q.content;
      assert Can(r, acts[0]) && CanRun(Do(r, acts[0]), acts[1..]);
      assert Run(r, acts) == Do(r, acts[0]);
    }
  }

  lemma CommitsAlone(r: Root, id: CallId, path: Path, current: Option<Bytes>, q: Request, t: nat)
    returns (acts: seq<Act>)
    requires At(r, id, path, current, Staging(q, t, |q.content|)) && DigestOf(current) == q.expected
    requires t in r.nodes && r.nodes[t] == q.content
    ensures CanRun(r, acts) && At(Run(r, acts), id, path, Some(q.content), Succeeded)
  {
    ThreeSteps(r, Recheck(id), CommitNow(id), Unlock(id));
    acts := [Recheck(id), CommitNow(id), Unlock(id)];
  }

  /** An edit or a write that nothing disturbs has a run to success, and does what it would do in one step. */
  lemma AloneIsMeaning(r: Root, id: CallId, path: Path, wish: Wish) returns (acts: seq<Act>)
    requires TreeInv(r.names, r.nodes, r.inodes) && id !in r.calls && r.holder.None?
    requires Meaning(wish, Current(r, path)).Some?
    ensures CanRun(r, acts) && At(Run(r, acts), id, path, Meaning(wish, Current(r, path)), Succeeded)
  {
    var current, q := Current(r, path), RequestOf(wish, Current(r, path));
    var a := AsksAlone(r, id, path, wish);
    var r1 := Run(r, a);
    var b := StagesAlone(r1, id, path, current, q);
    var r2 := Run(r1, b);
    var c := WritesAlone(r2, id, path, current, q, r1.inodes);
    var r3 := Run(r2, c);
    var d := CommitsAlone(r3, id, path, current, q, r1.inodes);
    RunsJoin(r, a, b);
    RunsJoin(r, a + b, c);
    RunsJoin(r, a + b + c, d);
    acts := a + b + c + d;
  }

  // ---------------------------------------------------------------- why a call gives up

  /** Each look lets the call go on exactly if its file has the content that the request expects, or is not there if it
      expects none. */
  lemma LooksPassIff(r: Root, id: CallId, a: Act)
    requires Can(r, a) && (a == Look(id) || a == Recheck(id))
    ensures var q, c := r.calls[id].phase.request, r.calls[id];
            var found := c.path in r.names && r.names[c.path] in r.nodes;
            Do(r, a).calls[id].phase.Failed?
            <==> !(match q.expected
                   case None => !found
                   case Some(d) => found && r.nodes[r.names[c.path]] == d.preimage)
    ensures Do(r, a).holder == if Do(r, a).calls[id].phase.Failed? && r.holder == Some(id) then None else r.holder
  {}

  /** Before it looks, a call fails for these reasons alone: there is no file to edit, it is above 16 MiB, the edit
      cannot be made, or what is to be written is above 16 MiB. */
  lemma FailsBeforeIff(r: Root, files: map<Path, Bytes>, id: CallId, path: Path, wish: Wish)
    requires Inv(r, files)
    ensures Can(r, Begin(id, path, wish)) ==>
              (Do(r, Begin(id, path, wish)).calls[id].phase.Failed? <==> wish.Put? && |wish.content| > 16777216)
    ensures Can(r, Open(id)) ==> (Do(r, Open(id)).calls[id].phase.Failed? <==> r.calls[id].path !in r.names)
    ensures Can(r, Read(id)) ==>
              (Do(r, Read(id)).calls[id].phase.Failed?
               <==> || |r.calls[id].phase.seen| > 16777216
                    || !SpliceEdit.EditAll(r.calls[id].phase.seen, r.calls[id].wish.rs).Edited?)
  {
    if id in r.calls { assert CallInv(r, id); }
  }

  lemma CurrentIsFile(r: Root, path: Path)
    requires TreeInv(r.names, r.nodes, r.inodes)
    ensures Lookup(Files(r.names, r.nodes), path) == Current(r, path)
  {}

  /** A step leaves the content of a file alone unless it commits to it. */
  lemma StepLeaves(r: Root, files: map<Path, Bytes>, a: Act, path: Path)
    requires Inv(r, files) && Can(r, a)
    ensures r.log <= Do(r, a).log
    ensures a.CommitNow? ==> Do(r, a).log[|r.log|..] != [] && Do(r, a).log[|r.log|].path == r.calls[a.id].path
    ensures !(a.CommitNow? && r.calls[a.id].path == path) ==> Current(Do(r, a), path) == Current(r, path)
  {
    if !a.CommitNow? {
      StepKeeps(r, files, a);
      OnlyCommitsShow(r, files, a);
      CurrentIsFile(r, path);
      CurrentIsFile(Do(r, a), path);
    }
  }

  ghost predicate NoCommit(log: seq<Commit>, from: nat, path: Path) {
    forall k :: from <= k < |log| ==> log[k].path != path
  }

  /** So a file that nobody commits to keeps its content. */
  lemma {:induction false} RunLeaves(r: Root, files: map<Path, Bytes>, acts: seq<Act>, path: Path)
    requires Inv(r, files) && CanRun(r, acts)
    ensures r.log <= Run(r, acts).log
    ensures NoCommit(Run(r, acts).log, |r.log|, path) ==> Current(Run(r, acts), path) == Current(r, path)
    decreases |acts|
  {
    if |acts| > 0 {
      var s := Do(r, acts[0]);
      StepKeeps(r, files, acts[0]);
      StepLeaves(r, files, acts[0], path);
      RunLeaves(s, files, acts[1..], path);
      assert s.log <= Run(r, acts).log;
      if acts[0].CommitNow? { assert Run(r, acts).log[|r.log|] == s.log[|r.log|]; }
    }
  }

  /** The call is about the content seen. */
  predicate Based(c: Call, seen: Bytes) {
    && (c.phase.Opened? ==> c.phase.seen == seen)
    && (HasRequest(c.phase) ==> c.phase.request.expected == Some(Sha256(seen)))
    && !c.phase.Started?
  }

  lemma StepKeepsBase(r: Root, files: map<Path, Bytes>, a: Act, id: CallId, seen: Bytes)
    requires Inv(r, files) && Can(r, a) && id in r.calls && Based(r.calls[id], seen)
    ensures id in Do(r, a).calls && Based(Do(r, a).calls[id], seen) && Do(r, a).calls[id].path == r.calls[id].path
  {
    assert CallInv(r, id);
  }

  lemma {:induction false} RunKeepsBase(r: Root, files: map<Path, Bytes>, acts: seq<Act>, id: CallId, seen: Bytes)
    requires Inv(r, files) && CanRun(r, acts) && id in r.calls && Based(r.calls[id], seen)
    ensures var s := Run(r, acts); id in s.calls && Based(s.calls[id], seen) && s.calls[id].path == r.calls[id].path
    decreases |acts|
  {
    if |acts| > 0 {
      StepKeeps(r, files, acts[0]);
      StepKeepsBase(r, files, acts[0], id, seen);
      RunKeepsBase(Do(r, acts[0]), files, acts[1..], id, seen);
    }
  }

  /** An edit gives up at one of its looks only if another call has committed to its file since it opened it. */
  lemma ConflictMeansCommit(r: Root, files: map<Path, Bytes>, acts: seq<Act>, id: CallId, a: Act)
    requires Inv(r, files) && id in r.calls && r.calls[id].phase.Opened?
    requires Current(r, r.calls[id].path) == Some(r.calls[id].phase.seen)
    requires CanRun(r, acts) && Can(Run(r, acts), a) && (a == Look(id) || a == Recheck(id))
    requires Do(Run(r, acts), a).calls[id].phase.Failed?
    ensures exists k :: |r.log| <= k < |Run(r, acts).log| && Run(r, acts).log[k].path == r.calls[id].path
  {
    var s, path := Run(r, acts), r.calls[id].path;
    RunKeepsBase(r, files, acts, id, r.calls[id].phase.seen);
    RunLeaves(r, files, acts, path);
    if NoCommit(s.log, |r.log|, path) {
      assert false;
    }
  }
}

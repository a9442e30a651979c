/** The request table of the remote helper server: active requests, and the tombstones that
    let a late cancel or credit for a completed request pass silently.
    The functions are the specification; the class Server holds the fields and updates them
    in place, as the helper does under its mutex. */
module RequestTable {

  // Identifiers are compared for equality only. The client's "prefix-n" identifiers are numbered by n.
  type Id = nat

  const MAX_CONCURRENT_REQUESTS := 64
  const MAX_CONCURRENT_PROCESSES := 16
  const MAX_TOMBSTONES := 1024
  const TOMBSTONE_TTL := 60_000_000_000 // nanoseconds

  datatype Kind = Process | Plain | Shutdown

  datatype Tombstone = Tombstone(id: Id, expires: int)

  datatype Table = Table(active: map<Id, Kind>, tombstones: map<Id, int>, queue: seq<Tombstone>)

  const EMPTY := Table(map[], map[], [])

  datatype Registration = Duplicate(pruned: Table) | Registered(table: Table, limited: bool)

  datatype Lookup = IsActive | IsCompleted | IsUnknown

  // ---------------------------------------------------------------- operations

  /** pruneTombstonesLocked: drop expired entries from the front of the queue. */
  function Prune(t: Table, now: int): Table
    decreases |t.queue|
  {
    if |t.queue| == 0 || now < t.queue[0].expires then t
    else Prune(DropExpired(t), now)
  }

  lemma {:induction false} PruneKeepsActive(t: Table, now: int)
    ensures Prune(t, now).active == t.active
    decreases |t.queue|
  {
    if |t.queue| > 0 && now >= t.queue[0].expires { PruneKeepsActive(DropExpired(t), now); }
  }

  function DropExpired(t: Table): (r: Table)
    requires |t.queue| > 0
    ensures |r.queue| == |t.queue| - 1
  {
    var oldest := t.queue[0];
    var live := oldest.id in t.tombstones && t.tombstones[oldest.id] == oldest.expires;
    t.(queue := t.queue[1..], tombstones := if live then t.tombstones - {oldest.id} else t.tombstones)
  }

  /** The eviction loop of addTombstoneLocked. */
  function Evict(t: Table): Table
    decreases |t.queue|
  {
    if |t.tombstones| < MAX_TOMBSTONES || |t.queue| == 0 then t
    else Evict(DropOldest(t))
  }

  function DropOldest(t: Table): (r: Table)
    requires |t.queue| > 0
    ensures |r.queue| == |t.queue| - 1
  {
    t.(queue := t.queue[1..], tombstones := t.tombstones - {t.queue[0].id})
  }

  function AddTombstone(t: Table, id: Id, now: int): Table {
    var e := Evict(Prune(t, now));
    e.(tombstones := e.tombstones[id := now + TOMBSTONE_TTL],
       queue := e.queue + [Tombstone(id, now + TOMBSTONE_TTL)])
  }

  function ProcessIds(active: map<Id, Kind>): set<Id> {
    set id | id in active && active[id] == Process
  }

  predicate Limited(active: map<Id, Kind>, kind: Kind) {
    || |active| >= MAX_CONCURRENT_REQUESTS
    || (kind == Process && |ProcessIds(active)| >= MAX_CONCURRENT_PROCESSES)
  }

  function Register(t: Table, id: Id, kind: Kind, now: int): Registration {
    var p := Prune(t, now);
    if id in p.active || id in p.tombstones then Duplicate(p)
    else Registered(p.(active := p.active[id := kind]), Limited(p.active, kind))
  }

  /** What handleClientEvent and cancelRequest see after pruning. */
  function Find(t: Table, id: Id, now: int): Lookup {
    var p := Prune(t, now);
    if id in p.active then IsActive else if id in p.tombstones then IsCompleted else IsUnknown
  }

  function Complete(t: Table, id: Id, now: int): Table
    requires id in t.active
  {
    AddTombstone(t.(active := t.active - {id}), id, now)
  }

  // ---------------------------------------------------------------- invariant

  /** The tombstone map that a queue stands for. */
  function Index(q: seq<Tombstone>): map<Id, int> {
    if |q| == 0 then map[] else Index(q[1..])[q[0].id := q[0].expires]
  }

  ghost predicate Has(q: seq<Tombstone>, id: Id) {
    exists k :: 0 <= k < |q| && q[k].id == id
  }

  ghost predicate DistinctIds(q: seq<Tombstone>) {
    forall i, j :: 0 <= i < j < |q| ==> q[i].id != q[j].id
  }

  ghost predicate SortedByExpiry(q: seq<Tombstone>) {
    forall i, j :: 0 <= i <= j < |q| ==> q[i].expires <= q[j].expires
  }

  /** The queue lists exactly the keys of the tombstone map, each once, oldest expiry first. */
  ghost predicate Valid(t: Table) {
    && t.active.Keys !! t.tombstones.Keys
    && DistinctIds(t.queue)
    && SortedByExpiry(t.queue)
    && t.tombstones == Index(t.queue)
    && |t.queue| <= MAX_TOMBSTONES
  }

  /** No tombstone was made after now. */
  ghost predicate MadeBy(t: Table, now: int) {
    forall k :: 0 <= k < |t.queue| ==> t.queue[k].expires <= now + TOMBSTONE_TTL
  }

  lemma {:induction false} IndexHas(q: seq<Tombstone>, id: Id)
    ensures id in Index(q) <==> Has(q, id)
  {
    if |q| > 0 {
      IndexHas(q[1..], id);
      if Has(q[1..], id) {
        var k :| 0 <= k < |q[1..]| && q[1..][k].id == id;
        assert q[k + 1].id == id;
      }
      if Has(q, id) && q[0].id != id {
        var k :| 0 <= k < |q| && q[k].id == id;
        assert q[1..][k - 1].id == id;
      }
    }
  }

  lemma {:induction false} IndexAt(q: seq<Tombstone>, k: nat)
    requires DistinctIds(q) && k < |q|
    ensures q[k].id in Index(q) && Index(q)[q[k].id] == q[k].expires
  {
    if k > 0 {
      IndexAt(q[1..], k - 1);
      assert q[1..][k - 1] == q[k];
    }
  }

  lemma {:induction false} IndexSize(q: seq<Tombstone>)
    requires DistinctIds(q)
    ensures |Index(q)| == |q|
  {
    if |q| > 0 {
      IndexSize(q[1..]);
      FrontNotInRest(q);
      assert Index(q).Keys == Index(q[1..]).Keys + {q[0].id};
      assert |Index(q).Keys| == |Index(q[1..]).Keys| + 1;
    }
  }

  lemma FrontNotInRest(q: seq<Tombstone>)
    requires DistinctIds(q) && |q| > 0
    ensures q[0].id !in Index(q[1..])
  {
    IndexHas(q[1..], q[0].id);
  }

  lemma {:induction false} IndexAppend(q: seq<Tombstone>, x: Tombstone)
    requires x.id !in Index(q)
    ensures Index(q + [x]) == Index(q)[x.id := x.expires]
  {
    if |q| == 0 {
      assert q + [x] == [x];
      assert [x][1..] == [];
    } else {
      IndexAppend(q[1..], x);
      assert (q + [x])[1..] == q[1..] + [x];
    }
  }

  /** Dropping the front of a valid table, by expiry or by eviction, is dropping the front of its queue. */
  lemma DropFront(t: Table)
    requires Valid(t) && |t.queue| > 0
    ensures Valid(DropOldest(t)) && DropExpired(t) == DropOldest(t)
    ensures DropOldest(t) == t.(queue := t.queue[1..], tombstones := Index(t.queue[1..]))
  {
    FrontNotInRest(t.queue);
    assert DropOldest(t).tombstones == Index(t.queue[1..]);
  }

  /** The entries of a queue that are left after expiry at now. */
  function Live(q: seq<Tombstone>, now: int): seq<Tombstone> {
    if |q| == 0 || now < q[0].expires then q else Live(q[1..], now)
  }

  lemma {:induction false} PruneIsLive(t: Table, now: int)
    requires Valid(t)
    ensures Valid(Prune(t, now))
    ensures Prune(t, now) == t.(queue := Live(t.queue, now), tombstones := Index(Live(t.queue, now)))
    decreases |t.queue|
  {
    if |t.queue| > 0 && now >= t.queue[0].expires {
      DropFront(t);
      PruneIsLive(DropOldest(t), now);
    }
  }

  lemma {:induction false} LiveIsSuffix(q: seq<Tombstone>, now: int)
    ensures |Live(q, now)| <= |q| && Live(q, now) == q[|q| - |Live(q, now)|..]
    ensures SortedByExpiry(q) ==> forall k :: 0 <= k < |q| ==> (k >= |q| - |Live(q, now)| <==> now < q[k].expires)
  {
    if |q| > 0 && now >= q[0].expires {
      LiveIsSuffix(q[1..], now);
      if SortedByExpiry(q) {
        forall k | 0 <= k < |q| ensures k >= |q| - |Live(q, now)| <==> now < q[k].expires {
          if k > 0 { assert q[k] == q[1..][k - 1]; }
        }
      }
    }
  }

  lemma SuffixIndex(q: seq<Tombstone>, d: nat, id: Id)
    requires d <= |q| && DistinctIds(q)
    ensures id in Index(q[d..]) ==> id in Index(q) && Index(q)[id] == Index(q[d..])[id]
    ensures id in Index(q) && id !in Index(q[d..]) ==> exists k :: 0 <= k < d && q[k].id == id
  {
    IndexHas(q, id);
    IndexHas(q[d..], id);
    if id in Index(q[d..]) {
      var j :| 0 <= j < |q[d..]| && q[d..][j].id == id;
      assert q[d + j].id == id;
      IndexAt(q, d + j);
      IndexAt(q[d..], j);
    } else if id in Index(q) {
      var k :| 0 <= k < |q| && q[k].id == id;
      forall j | d <= j < |q| ensures q[j].id != id {
        assert q[d..][j - d] == q[j];
      }
    }
  }

  lemma {:induction false} IndexAtLeast(q: seq<Tombstone>, id: Id, low: int)
    requires forall k :: 0 <= k < |q| ==> low <= q[k].expires
    ensures id in Index(q) ==> low <= Index(q)[id]
  {
    if |q| > 0 { IndexAtLeast(q[1..], id, low); }
  }

  lemma {:induction false} LiveIndex(q: seq<Tombstone>, id: Id, now: int)
    requires DistinctIds(q) && SortedByExpiry(q)
    ensures id in Index(Live(q, now)) <==> id in Index(q) && now < Index(q)[id]
    ensures id in Index(Live(q, now)) ==> Index(Live(q, now))[id] == Index(q)[id]
  {
    if |q| == 0 {
    } else if now < q[0].expires {
      IndexAtLeast(q, id, q[0].expires);
    } else {
      FrontNotInRest(q);
      LiveIndex(q[1..], id, now);
    }
  }

  /** Pruning keeps exactly the tombstones that have not expired. */
  lemma PruneKeepsUnexpired(t: Table, id: Id, now: int)
    requires Valid(t)
    ensures id in Prune(t, now).tombstones <==> id in t.tombstones && now < t.tombstones[id]
  {
    PruneIsLive(t, now);
    LiveIndex(t.queue, id, now);
  }

  function Room(q: seq<Tombstone>): seq<Tombstone> {
    if |q| < MAX_TOMBSTONES then q else q[1..]
  }

  lemma EvictIsRoom(t: Table)
    requires Valid(t)
    ensures Valid(Evict(t)) && Evict(t) == t.(queue := Room(t.queue), tombstones := Index(Room(t.queue)))
  {
    IndexSize(t.queue);
    if |t.queue| == MAX_TOMBSTONES {
      DropFront(t);
      IndexSize(t.queue[1..]);
      assert Evict(t) == Evict(DropOldest(t));
    }
  }

  /** The queue after a completion: expired entries go, the oldest goes if the table is full, id comes last. */
  function QueueAfter(q: seq<Tombstone>, id: Id, now: int): seq<Tombstone> {
    Room(Live(q, now)) + [Tombstone(id, now + TOMBSTONE_TTL)]
  }

  lemma RoomLiveIsSuffix(q: seq<Tombstone>, now: int) returns (d: nat)
    requires |q| <= MAX_TOMBSTONES
    ensures d <= |q| && Room(Live(q, now)) == q[d..] && |q[d..]| < MAX_TOMBSTONES
  {
    LiveIsSuffix(q, now);
    d := |q| - |Room(Live(q, now))|;
  }

  lemma AddTombstoneShape(t: Table, id: Id, now: int)
    requires Valid(t) && MadeBy(t, now) && id !in t.active && id !in t.tombstones
    ensures var q := QueueAfter(t.queue, id, now);
            && AddTombstone(t, id, now) == t.(queue := q, tombstones := Index(q))
            && DistinctIds(q) && SortedByExpiry(q) && |q| <= MAX_TOMBSTONES
  {
    PruneIsLive(t, now);
    EvictIsRoom(Prune(t, now));
    var d := RoomLiveIsSuffix(t.queue, now);
    var rest, entry := t.queue[d..], Tombstone(id, now + TOMBSTONE_TTL);
    SuffixIndex(t.queue, d, id);
    IndexHas(rest, id);
    IndexAppend(rest, entry);
    AppendKeepsQueue(rest, entry);
  }

  lemma AddTombstoneIs(t: Table, id: Id, now: int)
    requires Valid(t) && MadeBy(t, now) && id !in t.active && id !in t.tombstones
    ensures var q := QueueAfter(t.queue, id, now);
            && AddTombstone(t, id, now) == t.(queue := q, tombstones := Index(q))
            && Valid(AddTombstone(t, id, now)) && MadeBy(AddTombstone(t, id, now), now)
  {
    AddTombstoneShape(t, id, now);
    var d := RoomLiveIsSuffix(t.queue, now);
    SuffixIndex(t.queue, d, id);
    IndexAppend(t.queue[d..], Tombstone(id, now + TOMBSTONE_TTL));
    forall i | i in t.active ensures i !in Index(t.queue[d..]) {
      SuffixIndex(t.queue, d, i);
    }
  }

  lemma AppendKeepsQueue(q: seq<Tombstone>, x: Tombstone)
    requires DistinctIds(q) && SortedByExpiry(q) && !Has(q, x.id)
    requires forall k :: 0 <= k < |q| ==> q[k].expires <= x.expires
    ensures DistinctIds(q + [x]) && SortedByExpiry(q + [x])
  {}

  /** Registration refuses exactly the identifiers that are active or still tombstoned. What it registers is over the
      limit exactly if 64 requests are active already, or if it is a process and 16 of them are. */
  lemma RegisterValid(t: Table, id: Id, kind: Kind, now: int)
    requires Valid(t)
    ensures var r := Register(t, id, kind, now);
            && r.Duplicate? == (id in t.active || (id in t.tombstones && now < t.tombstones[id]))
            && Valid(if r.Duplicate? then r.pruned else r.table)
            && (r.Registered? ==>
                  && r.table.active == t.active[id := kind]
                  && r.table.queue == Live(t.queue, now)
                  && (r.limited <==> || |t.active| >= 64
                                     || (kind == Process && |set i | i in t.active && t.active[i] == Process| >= 16)))
  {
    PruneIsLive(t, now);
    PruneKeepsUnexpired(t, id, now);
    assert ProcessIds(t.active) == set i | i in t.active && t.active[i] == Process;
  }

  /** Completion moves the identifier from the active map to the end of the tombstone queue. */
  lemma CompleteValid(t: Table, id: Id, now: int)
    requires Valid(t) && MadeBy(t, now) && id in t.active
    ensures var r := Complete(t, id, now);
            && Valid(r) && MadeBy(r, now)
            && r.active == t.active - {id}
            && r.queue == QueueAfter(t.queue, id, now)
            && Find(r, id, now).IsCompleted?
  {
    var u := t.(active := t.active - {id});
    AddTombstoneIs(u, id, now);
    var r := Complete(t, id, now);
    IndexAt(r.queue, |r.queue| - 1);
    PruneKeepsUnexpired(r, id, now);
    PruneIsLive(r, now);
  }

  lemma FindIs(t: Table, id: Id, now: int)
    requires Valid(t)
    ensures Find(t, id, now) == if id in t.active then IsActive
                                else if id in t.tombstones && now < t.tombstones[id] then IsCompleted
                                else IsUnknown
  {
    PruneIsLive(t, now);
    PruneKeepsUnexpired(t, id, now);
  }

  // ---------------------------------------------------------------- runs of the serve loop

  /** What the serve loop is doing. While it answers a refused request, or waits for the others to end
      after a shutdown request, it reads nothing. */
  datatype Loop = Reading | Rejecting(id: Id) | ShuttingDown(id: Id) | Stopped

  datatype Serving = Serving(table: Table, loop: Loop, clock: int)

  datatype Event =
    | GotRequest(id: Id, kind: Kind, malformed: bool, at: int)
    | GotControl(id: Id, at: int)
    | WorkerDone(id: Id, at: int)
    | LoopDone(at: int)

  predicate Enabled(s: Serving, e: Event) {
    && s.clock <= e.at
    && match e
       case GotRequest(_, _, _, _) => s.loop == Reading
       case GotControl(_, _) => s.loop == Reading
       case WorkerDone(id, _) => id in s.table.active && s.loop != Rejecting(id) && s.loop != ShuttingDown(id)
       case LoopDone(_) =>
         || (s.loop.Rejecting? && s.loop.id in s.table.active)
         || (s.loop.ShuttingDown? && s.table.active.Keys == {s.loop.id})
  }

  function Advance(s: Serving, e: Event): Serving
    requires Enabled(s, e)
  {
    match e
    case GotRequest(id, kind, malformed, at) => (
      match Register(s.table, id, kind, at)
      case Duplicate(p) => Serving(p, Stopped, at)
      case Registered(t, limited) =>
        var loop := if kind == Shutdown then (if malformed then Rejecting(id) else ShuttingDown(id))
                    else if limited then Rejecting(id) else Reading;
        Serving(t, loop, at)
    )
    case GotControl(id, at) =>
      Serving(Prune(s.table, at), if Find(s.table, id, at) == IsUnknown then Stopped else Reading, at)
    case WorkerDone(id, at) => Serving(Complete(s.table, id, at), s.loop, at)
    case LoopDone(at) =>
      Serving(Complete(s.table, s.loop.id, at), if s.loop.Rejecting? then Reading else Stopped, at)
  }

  predicate EnabledRun(s: Serving, events: seq<Event>)
    decreases |events|
  {
    |events| == 0 || (Enabled(s, events[0]) && EnabledRun(Advance(s, events[0]), events[1..]))
  }

  function Run(s: Serving, events: seq<Event>): Serving
    requires EnabledRun(s, events)
    decreases |events|
  {
    if |events| == 0 then s else Run(Advance(s, events[0]), events[1..])
  }

  /** The requests that are being worked on: all active ones but the one the serve loop answers itself. */
  function Working(s: Serving): map<Id, Kind> {
    match s.loop
    case Rejecting(id) => s.table.active - {id}
    case ShuttingDown(id) => s.table.active - {id}
    case _ => s.table.active
  }

  ghost predicate Consistent(s: Serving) { Valid(s.table) && MadeBy(s.table, s.clock) }

  ghost predicate ServingInv(s: Serving) {
    && Consistent(s)
    && |Working(s)| <= MAX_CONCURRENT_REQUESTS
    && |ProcessIds(Working(s))| <= MAX_CONCURRENT_PROCESSES
    && (s.loop.Rejecting? || s.loop.ShuttingDown? ==> s.loop.id in s.table.active)
    && (s.loop.Stopped? || |s.table.active| <= MAX_CONCURRENT_REQUESTS + 1)
  }

  lemma MadeByLater(t: Table, now: int, later: int)
    requires Valid(t) && MadeBy(t, now) && now <= later
    ensures MadeBy(t, later) && MadeBy(Prune(t, later), later)
  {
    PruneIsLive(t, later);
    LiveIsSuffix(t.queue, later);
  }

  lemma SmallerMap(a: map<Id, Kind>, b: map<Id, Kind>)
    requires a.Keys <= b.Keys && forall id :: id in a ==> a[id] == b[id]
    ensures |a| <= |b| && |ProcessIds(a)| <= |ProcessIds(b)|
  {
    SubsetSize(a.Keys, b.Keys);
    SubsetSize(ProcessIds(a), ProcessIds(b));
  }

  lemma SubsetSize(a: set<Id>, b: set<Id>)
    requires a <= b
    ensures |a| <= |b|
  {
    assert b == a + (b - a);
  }

  lemma AddOneSize(a: map<Id, Kind>, id: Id, kind: Kind)
    requires id !in a
    ensures |a[id := kind]| == |a| + 1 && a[id := kind] - {id} == a
  {
    assert a[id := kind].Keys == a.Keys + {id};
    assert |a.Keys + {id}| == |a.Keys| + 1;
  }

  lemma AddOneProcess(a: map<Id, Kind>, id: Id, kind: Kind)
    requires id !in a
    ensures |ProcessIds(a[id := kind])| == |ProcessIds(a)| + if kind == Process then 1 else 0
  {
    var more := ProcessIds(a[id := kind]);
    if kind == Process {
      assert more == ProcessIds(a) + {id};
    } else {
      assert more == ProcessIds(a);
    }
  }

  /** Every event keeps the table consistent. */
  lemma TableStep(s: Serving, e: Event)
    requires Consistent(s) && Enabled(s, e)
    ensures Consistent(Advance(s, e)) && Advance(s, e).clock == e.at
  {
    MadeByLater(s.table, s.clock, e.at);
    PruneIsLive(s.table, e.at);
    match e
    case GotRequest(id, kind, _, at) => RegisterValid(s.table, id, kind, at);
    case GotControl(_, _) =>
    case WorkerDone(id, at) => CompleteStep(s, id, at);
    case LoopDone(at) => CompleteStep(s, s.loop.id, at);
  }

  lemma RegisterStep(s: Serving, e: Event)
    requires ServingInv(s) && Enabled(s, e) && e.GotRequest?
    ensures ServingInv(Advance(s, e))
  {
    TableStep(s, e);
    PruneIsLive(s.table, e.at);
    RegisterValid(s.table, e.id, e.kind, e.at);
    if Register(s.table, e.id, e.kind, e.at).Registered? {
      AddOneSize(s.table.active, e.id, e.kind);
      AddOneProcess(s.table.active, e.id, e.kind);
    }
  }

  lemma CompleteStep(s: Serving, id: Id, at: int)
    requires Valid(s.table) && MadeBy(s.table, s.clock) && s.clock <= at && id in s.table.active
    ensures var t := Complete(s.table, id, at);
            && Valid(t) && MadeBy(t, at) && t.active == s.table.active - {id} && |t.active| <= |s.table.active|
  {
    MadeByLater(s.table, s.clock, at);
    CompleteValid(s.table, id, at);
    SmallerMap(s.table.active - {id}, s.table.active);
  }

  lemma ServingStep(s: Serving, e: Event)
    requires ServingInv(s) && Enabled(s, e)
    ensures ServingInv(Advance(s, e))
  {
    TableStep(s, e);
    match e
    case GotRequest(_, _, _, _) => RegisterStep(s, e);
    case GotControl(_, at) => PruneIsLive(s.table, at);
    case WorkerDone(id, at) =>
      CompleteStep(s, id, at);
      SmallerMap(Working(Advance(s, e)), Working(s));
    case LoopDone(at) =>
      CompleteStep(s, s.loop.id, at);
  }

  lemma {:induction false} RunKeepsTable(s: Serving, events: seq<Event>)
    requires ServingInv(s) && EnabledRun(s, events)
    ensures ServingInv(Run(s, events))
    decreases |events|
  {
    if |events| > 0 {
      ServingStep(s, events[0]);
      RunKeepsTable(Advance(s, events[0]), events[1..]);
    }
  }

  function Start(clock: int): Serving { Serving(EMPTY, Reading, clock) }

  /** In every run of the serve loop the table stays consistent, at most 65 requests are active, at most 64
      are worked on, and at most 16 of those are processes. */
  lemma EveryRunKeepsTable(clock: int, events: seq<Event>)
    requires EnabledRun(Start(clock), events)
    ensures var r := Run(Start(clock), events);
            && Valid(r.table) && (r.loop.Stopped? || |r.table.active| <= 65)
            && |Working(r)| <= 64 && |set id | id in Working(r) && Working(r)[id] == Process| <= 16
  {
    assert ProcessIds(Working(Run(Start(clock), events)))
        == set id | id in Working(Run(Start(clock), events)) && Working(Run(Start(clock), events))[id] == Process;
    assert ProcessIds(EMPTY.active) == {};
    RunKeepsTable(Start(clock), events);
  }

  /** In which ways the serve loop goes on after a frame. It ends for a request whose identifier is active or still
      tombstoned, and for a control frame whose identifier is neither; it answers a request itself exactly if 64
      requests are active, or 16 processes and this is one, or if it asks for a shutdown in a wrong way. */
  lemma LoopDecides(s: Serving, e: Event)
    requires Consistent(s) && Enabled(s, e) && (e.GotRequest? || e.GotControl?)
    ensures var held := e.id in s.table.active || (e.id in s.table.tombstones && e.at < s.table.tombstones[e.id]);
            var full := || |s.table.active| >= 64
                        || (e.GotRequest? && e.kind == Process
                            && |set i | i in s.table.active && s.table.active[i] == Process| >= 16);
            Advance(s, e).loop
            == if e.GotControl? then (if held then Reading else Stopped)
               else if held then Stopped
               else if e.kind == Shutdown then (if e.malformed then Rejecting(e.id) else ShuttingDown(e.id))
               else if full then Rejecting(e.id) else Reading
  {
    FindIs(s.table, e.id, e.at);
    if e.GotRequest? { RegisterValid(s.table, e.id, e.kind, e.at); }
  }

  /** When a request has completed, the serve loop goes on if it was reading or has answered it itself, and ends if that
      was the shutdown, for which all others had to complete first. */
  lemma LoopGoesOn(s: Serving, e: Event)
    requires Consistent(s) && Enabled(s, e) && (e.WorkerDone? || e.LoopDone?)
    ensures var id := if e.WorkerDone? then e.id else s.loop.id;
            Advance(s, e).table.active == s.table.active - {id}
    ensures Advance(s, e).loop == if e.WorkerDone? then s.loop else if s.loop.Rejecting? then Reading else Stopped
    ensures e.LoopDone? && s.loop.ShuttingDown? ==> Advance(s, e).table.active == map[]
  {
    CompleteStep(s, if e.WorkerDone? then e.id else s.loop.id, e.at);
  }

  // ---------------------------------------------------------------- how long a late control frame is tolerated

  /** The events with which request id completes. */
  predicate Completes(s: Serving, e: Event, id: Id) {
    || (e.WorkerDone? && e.id == id)
    || (e.LoopDone? && (s.loop.Rejecting? || s.loop.ShuttingDown?) && s.loop.id == id)
  }

  function Completion(e: Event): nat { if e.WorkerDone? || e.LoopDone? then 1 else 0 }

  function Completions(events: seq<Event>): nat {
    if |events| == 0 then 0 else Completion(events[0]) + Completions(events[1..])
  }

  predicate AsksFor(e: Event, id: Id) { e.GotRequest? && e.id == id }

  predicate NotAskedAgain(events: seq<Event>, id: Id) {
    |events| == 0 || (!AsksFor(events[0], id) && NotAskedAgain(events[1..], id))
  }

  /** The tombstone of a request that completed at time since, after n later completions: n places from the end
      of the queue as long as it has not expired, and gone when the table has been filled after it. */
  ghost predicate StandsAt(t: Table, id: Id, since: int, n: nat, now: int) {
    && id !in t.active
    && (id in t.tombstones ==> t.tombstones[id] == since + TOMBSTONE_TTL)
    && (n >= MAX_TOMBSTONES ==> id !in t.tombstones)
    && (n < MAX_TOMBSTONES && now < since + TOMBSTONE_TTL ==> InPlace(t.queue, id, n))
  }

  ghost predicate InPlace(q: seq<Tombstone>, id: Id, n: nat) {
    n < |q| && q[|q| - 1 - n].id == id
  }

  lemma InPlaceIsHeld(t: Table, id: Id, n: nat)
    requires Valid(t) && InPlace(t.queue, id, n)
    ensures id in t.tombstones && t.tombstones[id] == t.queue[|t.queue| - 1 - n].expires
  {
    IndexAt(t.queue, |t.queue| - 1 - n);
  }

  lemma LiveInPlace(q: seq<Tombstone>, id: Id, n: nat, now: int)
    requires SortedByExpiry(q) && InPlace(q, id, n) && now < q[|q| - 1 - n].expires
    ensures InPlace(Live(q, now), id, n)
  {
    LiveIsSuffix(q, now);
    var live := Live(q, now);
    assert |q| - |live| <= |q| - 1 - n;
    assert live[|live| - 1 - n] == q[|q| - 1 - n];
  }

  /** Pruning leaves a tombstone that has not expired where it stands. */
  lemma PrunedStands(t: Table, id: Id, since: int, n: nat, now: int)
    requires Valid(t) && StandsAt(t, id, since, n, now)
    ensures var p := Prune(t, now);
            && StandsAt(p, id, since, n, now)
            && (id in p.tombstones ==> now < since + TOMBSTONE_TTL)
  {
    PruneIsLive(t, now);
    PruneKeepsUnexpired(t, id, now);
    LiveIndex(t.queue, id, now);
    if n < MAX_TOMBSTONES && now < since + TOMBSTONE_TTL {
      InPlaceIsHeld(t, id, n);
      LiveInPlace(t.queue, id, n, now);
    }
  }

  lemma OtherIsNew(t: Table, other: Id, now: int)
    requires Valid(t) && other !in t.tombstones
    ensures !Has(Live(t.queue, now), other) && DistinctIds(Live(t.queue, now))
  {
    LiveIndex(t.queue, other, now);
    IndexHas(t.queue, other);
    IndexHas(Live(t.queue, now), other);
    PruneIsLive(t, now);
  }

  /** One more completion moves the tombstone one place, or out. */
  lemma StandsOneFurther(t: Table, id: Id, since: int, n: nat, other: Id, now: int)
    requires Valid(t) && MadeBy(t, now) && other !in t.active && other !in t.tombstones && other != id
    requires StandsAt(t, id, since, n, now)
    ensures StandsAt(AddTombstone(t, other, now), id, since, n + 1, now)
  {
    AddTombstoneIs(t, other, now);
    PrunedStands(t, id, since, n, now);
    OtherIsNew(t, other, now);
    PruneIsLive(t, now);
    var p, x := Prune(t, now), Tombstone(other, now + TOMBSTONE_TTL);
    RoomStands(p, id, since, n, x, now);
  }

  lemma RoomIndex(q: seq<Tombstone>, x: Tombstone, id: Id)
    requires DistinctIds(q) && !Has(q, x.id) && x.id != id && |q| <= MAX_TOMBSTONES
    ensures id in Index(Room(q) + [x]) ==> id in Index(q) && Index(q)[id] == Index(Room(q) + [x])[id]
    ensures |q| == MAX_TOMBSTONES && q[0].id == id ==> id !in Index(Room(q) + [x])
  {
    var d := if |q| < MAX_TOMBSTONES then 0 else 1;
    assert Room(q) == q[d..];
    IndexHas(q, x.id);
    SuffixIndex(q, d, x.id);
    SuffixIndex(q, d, id);
    IndexAppend(q[d..], x);
    if d == 1 { FrontNotInRest(q); }
  }

  lemma RoomInPlace(q: seq<Tombstone>, x: Tombstone, id: Id, n: nat)
    requires InPlace(q, id, n) && n + 1 < MAX_TOMBSTONES
    ensures InPlace(Room(q) + [x], id, n + 1)
  {
    var r := Room(q);
    assert r[|r| - 1 - n] == q[|q| - 1 - n];
    assert (r + [x])[|r| - 1 - n] == r[|r| - 1 - n];
  }

  lemma RoomStands(p: Table, id: Id, since: int, n: nat, x: Tombstone, now: int)
    requires Valid(p) && StandsAt(p, id, since, n, now) && !Has(p.queue, x.id) && x.id != id
    requires id in p.tombstones ==> now < since + TOMBSTONE_TTL
    ensures var q := Room(p.queue) + [x];
            StandsAt(Table(p.active, Index(q), q), id, since, n + 1, now)
  {
    RoomIndex(p.queue, x, id);
    if n < MAX_TOMBSTONES && now < since + TOMBSTONE_TTL && n + 1 < MAX_TOMBSTONES {
      RoomInPlace(p.queue, x, id, n);
    }
  }

  lemma CompletedStands(s: Serving, e: Event, id: Id, since: int, n: nat)
    requires Consistent(s) && Enabled(s, e) && (e.WorkerDone? || e.LoopDone?)
    requires StandsAt(s.table, id, since, n, e.at)
    ensures StandsAt(Advance(s, e).table, id, since, n + 1, e.at)
  {
    var other := if e.WorkerDone? then e.id else s.loop.id;
    MadeByLater(s.table, s.clock, e.at);
    StandsOneFurther(s.table.(active := s.table.active - {other}), id, since, n, other, e.at);
  }

  lemma StepStands(s: Serving, e: Event, id: Id, since: int, n: nat)
    requires Consistent(s) && Enabled(s, e) && !AsksFor(e, id)
    requires StandsAt(s.table, id, since, n, s.clock)
    ensures var r := Advance(s, e); StandsAt(r.table, id, since, n + Completion(e), r.clock)
  {
    assert StandsAt(s.table, id, since, n, e.at);
    match e
    case GotRequest(_, _, _, at) => PrunedStands(s.table, id, since, n, at);
    case GotControl(_, at) => PrunedStands(s.table, id, since, n, at);
    case WorkerDone(_, _) => CompletedStands(s, e, id, since, n);
    case LoopDone(_) => CompletedStands(s, e, id, since, n);
  }

  lemma {:induction false} RunStands(s: Serving, events: seq<Event>, id: Id, since: int, n: nat)
    requires Consistent(s) && EnabledRun(s, events) && NotAskedAgain(events, id)
    requires StandsAt(s.table, id, since, n, s.clock)
    ensures var r := Run(s, events); StandsAt(r.table, id, since, n + Completions(events), r.clock)
    decreases |events|
  {
    if |events| > 0 {
      var e := events[0];
      StepStands(s, e, id, since, n);
      TableStep(s, e);
      RunStands(Advance(s, e), events[1..], id, since, n + Completion(e));
    }
  }

  lemma CompletionStands(s: Serving, e: Event, id: Id)
    requires Consistent(s) && Enabled(s, e) && Completes(s, e, id)
    ensures StandsAt(Advance(s, e).table, id, e.at, 0, e.at)
  {
    CompleteStep(s, id, e.at);
    CompleteValid(s.table, id, e.at);
    var q := QueueAfter(s.table.queue, id, e.at);
    IndexAt(q, |q| - 1);
  }

  lemma {:induction false} RunIsConsistent(s: Serving, events: seq<Event>)
    requires Consistent(s) && EnabledRun(s, events)
    ensures Consistent(Run(s, events))
    decreases |events|
  {
    if |events| > 0 {
      TableStep(s, events[0]);
      RunIsConsistent(Advance(s, events[0]), events[1..]);
    }
  }

  lemma StandingLookup(r: Serving, id: Id, since: int, n: nat, now: int)
    requires Consistent(r) && StandsAt(r.table, id, since, n, r.clock) && r.clock <= now
    ensures Find(r.table, id, now)
            == if n < MAX_TOMBSTONES && now < since + TOMBSTONE_TTL then IsCompleted else IsUnknown
  {
    FindIs(r.table, id, now);
    if n < MAX_TOMBSTONES && r.clock < since + TOMBSTONE_TTL {
      InPlaceIsHeld(r.table, id, n);
    }
  }

  lemma LookupAfter(s: Serving, id: Id, since: int, events: seq<Event>, now: int)
    requires Consistent(s) && StandsAt(s.table, id, since, 0, s.clock)
    requires EnabledRun(s, events) && NotAskedAgain(events, id) && Run(s, events).clock <= now
    ensures Find(Run(s, events).table, id, now)
            == if Completions(events) < MAX_TOMBSTONES && now < since + TOMBSTONE_TTL then IsCompleted else IsUnknown
  {
    RunStands(s, events, id, since, 0);
    RunIsConsistent(s, events);
    StandingLookup(Run(s, events), id, since, Completions(events), now);
  }

  /** Let request id complete, and let anything happen after it, at whatever times, but that the identifier is
      used again. A control frame for it is then tolerated if and only if it comes within the lifetime of the
      tombstone and fewer requests have completed since than the table has room for. */
  lemma LateControlToleratedIff(s: Serving, done: Event, id: Id, events: seq<Event>, now: int)
    requires Consistent(s) && Enabled(s, done) && Completes(s, done, id)
    requires EnabledRun(Advance(s, done), events) && NotAskedAgain(events, id)
             && Run(Advance(s, done), events).clock <= now
    ensures Find(Run(Advance(s, done), events).table, id, now)
            == if Completions(events) < 1024 && now < done.at + 60_000_000_000 then IsCompleted else IsUnknown
  {
    CompletionStands(s, done, id);
    TableStep(s, done);
    LookupAfter(Advance(s, done), id, done.at, events, now);
  }

  // ---------------------------------------------------------------- the fields, updated in place

  lemma CountOne(active: map<Id, Kind>, rest: set<Id>, id: Id)
    requires id in rest && rest <= active.Keys
    ensures |ProcessIds(active) - (rest - {id})| == |ProcessIds(active) - rest| + if active[id] == Process then 1 else 0
  {
    var before, after := ProcessIds(active) - rest, ProcessIds(active) - (rest - {id});
    assert after == before + if active[id] == Process then {id} else {};
  }

  class Server {
    var active: map<Id, Kind>
    var tombstones: map<Id, int>
    var tombstoneQ: seq<Tombstone>

    function View(): Table
      reads this
    {
      Table(active, tombstones, tombstoneQ)
    }

    constructor ()
      ensures View() == EMPTY
    {
      active, tombstones, tombstoneQ := map[], map[], [];
    }

    method PruneTombstones(now: int)
      modifies this
      ensures View() == Prune(old(View()), now)
    {
      while |tombstoneQ| > 0
        invariant Prune(View(), now) == Prune(old(View()), now)
        decreases |tombstoneQ|
      {
        var oldest := tombstoneQ[0];
        if now < oldest.expires {
          break;
        }
        tombstoneQ := tombstoneQ[1..];
        if oldest.id in tombstones && tombstones[oldest.id] == oldest.expires {
          tombstones := tombstones - {oldest.id};
        }
      }
    }

    method AddTombstoneLocked(id: Id, now: int)
      modifies this
      ensures View() == AddTombstone(old(View()), id, now)
    {
      PruneTombstones(now);
      ghost var pruned := View();
      while |tombstones| >= MAX_TOMBSTONES && |tombstoneQ| > 0
        invariant Evict(View()) == Evict(pruned)
        decreases |tombstoneQ|
      {
        var oldest := tombstoneQ[0];
        tombstoneQ := tombstoneQ[1..];
        tombstones := tombstones - {oldest.id};
      }
      var expires := now + TOMBSTONE_TTL;
      tombstones := tombstones[id := expires];
      tombstoneQ := tombstoneQ + [Tombstone(id, expires)];
    }

    method CountProcesses() returns (processes: nat)
      ensures processes == |ProcessIds(active)|
    {
      processes := 0;
      var rest := active.Keys;
      while rest != {}
        invariant rest <= active.Keys
        invariant processes == |ProcessIds(active) - rest|
        decreases |rest|
      {
        var id :| id in rest;
        CountOne(active, rest, id);
        if active[id] == Process {
          processes := processes + 1;
        }
        rest := rest - {id};
      }
      assert ProcessIds(active) - rest == ProcessIds(active);
    }

    method RegisterRequest(id: Id, kind: Kind, now: int) returns (duplicate: bool, limited: bool)
      modifies this
      ensures match Register(old(View()), id, kind, now)
              case Duplicate(p) => duplicate && View() == p
              case Registered(t, l) => !duplicate && View() == t && limited == l
      ensures !duplicate ==> active == old(active)[id := kind]
      ensures var processes := set i | i in old(active) && old(active)[i] == Process;
              !duplicate ==> (limited <==> |old(active)| >= 64 || (kind == Process && |processes| >= 16))
    {
      PruneKeepsActive(View(), now);
      assert ProcessIds(active) == set i | i in active && active[i] == Process;
      PruneTombstones(now);
      limited := false;
      if id in active || id in tombstones {
        duplicate := true;
        return;
      }
      duplicate := false;
      limited := |active| >= MAX_CONCURRENT_REQUESTS;
      if kind == Process {
        var processes := CountProcesses();
        limited := limited || processes >= MAX_CONCURRENT_PROCESSES;
      }
      active := active[id := kind];
    }

    /** cancelRequest, and the lookup of handleClientEvent. */
    method FindRequest(id: Id, now: int) returns (found: Lookup)
      modifies this
      ensures found == Find(old(View()), id, now) && View() == Prune(old(View()), now)
    {
      PruneTombstones(now);
      found := if id in active then IsActive else if id in tombstones then IsCompleted else IsUnknown;
    }

    method CompleteRequest(id: Id, now: int) returns (ok: bool)
      modifies this
      ensures ok == (id in old(active))
      ensures View() == if ok then Complete(old(View()), id, now) else old(View())
    {
      ok := id in active;
      if ok {
        active := active - {id};
        AddTombstoneLocked(id, now);
      }
    }
  }
}

/** The reference-counted lock per installed artifact: a registry of one-token gates, entered by any number of
    callers that acquire, give up and release in any order. */
module InstallLock {
  type Caller = nat
  type LockId = nat

  datatype Key = Key(hostAlias: string, sha256: string)

  // ---------------------------------------------------------------- the critical sections, on the objects

  /** gate: the tokens in the one-slot channel. */
  class Lock {
    var gate: nat
    var refs: nat

    constructor ()
      ensures gate == 1 && refs == 0
    {
      gate, refs := 1, 0;
    }

    /** The release's send into the one-slot channel. It would block if there were a token already. */
    method Send()
      requires gate == 0
      modifies this`gate
      ensures gate == 1
    {
      gate := gate + 1;
    }

    /** The receive, when its case of the select is chosen. */
    method Receive()
      requires gate == 1
      modifies this`gate
      ensures gate == 0
    {
      gate := gate - 1;
    }
  }

  class Registry {
    var locks: map<Key, Lock>

    constructor ()
      ensures locks == map[]
    {
      locks := map[];
    }

    ghost predicate Valid()
      reads this, set k | k in locks :: locks[k]
    {
      && (forall k :: k in locks ==> locks[k].refs > 0)
      && (forall j, k :: j in locks && k in locks && locks[j] == locks[k] ==> j == k)
    }

    /** The first critical section: find or make the lock, and count the reference. */
    method Reference(key: Key) returns (lock: Lock)
      requires Valid()
      modifies this, set k | k in locks :: locks[k]
      ensures Valid() && locks == old(locks)[key := lock]
      ensures if key in old(locks) then lock == old(locks)[key] && lock.refs == old(lock.refs) + 1
              && lock.gate == old(lock.gate)
              else fresh(lock) && lock.refs == 1 && lock.gate == 1
      ensures forall k :: k in old(locks) && k != key ==> unchanged(locks[k])
    {
      if key in locks {
        lock := locks[key];
      } else {
        lock := new Lock();
        locks := locks[key := lock];
      }
      lock.refs := lock.refs + 1;
    }

    /** The last critical section, of a release as of a cancelled wait. */
    method Unreference(key: Key, lock: Lock)
      requires Valid() && key in locks && locks[key] == lock
      modifies this, lock`refs
      ensures Valid() && lock.refs == old(lock.refs) - 1
      ensures locks == if old(lock.refs) == 1 then old(locks) - {key} else old(locks)
    {
      lock.refs := lock.refs - 1;
      if lock.refs == 0 && key in locks && locks[key] == lock {
        locks := locks - {key};
      }
    }

    /** acquireHelperInstallLock, when no other caller comes in between: it takes the token if there is one and the
        select chooses that case; it leaves no trace if the context ends first. */
    method Acquire(key: Key, ended: bool) returns (lock: Lock, held: bool)
      requires Valid() && forall k :: k in locks ==> locks[k].gate <= 1
      modifies this, set k | k in locks :: locks[k]
      ensures Valid() && held == (!ended && (key in old(locks) ==> old(locks[key].gate) == 1))
      ensures held ==> locks == old(locks)[key := lock] && lock.gate == 0
                       && lock.refs == if key in old(locks) then old(locks[key].refs) + 1 else 1
      ensures !held ==> locks == old(locks)
                        && (key in locks ==> lock == locks[key] && lock.refs == old(locks[key].refs)
                                             && lock.gate == old(locks[key].gate))
      ensures forall k :: k in old(locks) && k != key ==> unchanged(old(locks)[k])
    {
      lock := Reference(key);
      held := !ended && lock.gate == 1;
      if held {
        lock.Receive();
      } else {
        Unreference(key, lock);
        assert locks == old(locks);
      }
    }

    /** The release function that a successful acquire returns, the first time it is called. */
    method Release(key: Key, lock: Lock)
      requires Valid() && key in locks && locks[key] == lock && lock.gate == 0
      modifies this, lock
      ensures Valid() && lock.gate == 1 && lock.refs == old(lock.refs) - 1
      ensures locks == if old(lock.refs) == 1 then old(locks) - {key} else old(locks)
    {
      lock.Send();
      Unreference(key, lock);
    }
  }

  // ---------------------------------------------------------------- all callers together

  /** GivingUp: the context ended first. Released: the token is back, the reference is still counted. */
  datatype Phase = Waiting | Holding | GivingUp | Released

  datatype Use = Use(key: Key, lock: LockId, phase: Phase)

  datatype Gate = Gate(key: Key, tokens: nat, refs: nat)

  datatype State = State(registry: map<Key, LockId>, gates: map<LockId, Gate>, uses: map<Caller, Use>)

  datatype Act =
    | Acquire(c: Caller, key: Key, lock: LockId)
    | Take(c: Caller)
    | Cancel(c: Caller)
    | Release(c: Caller)
    | Leave(c: Caller)

  /** lock: the object that is allocated if the key has none. */
  predicate Can(s: State, a: Act) {
    match a
    case Acquire(c, key, lock) => c !in s.uses && lock !in s.gates && (key in s.registry ==> s.registry[key] in s.gates)
    case Take(c) => c in s.uses && s.uses[c].phase == Waiting && s.uses[c].lock in s.gates
         && s.gates[s.uses[c].lock].tokens > 0
    case Cancel(c) => c in s.uses && s.uses[c].phase == Waiting
    case Release(c) => c in s.uses && s.uses[c].phase == Holding && s.uses[c].lock in s.gates
    case Leave(c) => c in s.uses && (s.uses[c].phase == GivingUp || s.uses[c].phase == Released)
                     && s.uses[c].lock in s.gates && s.gates[s.uses[c].lock].refs > 0
  }

  function Move(s: State, c: Caller, p: Phase): State
    requires c in s.uses
  {
    s.(uses := s.uses[c := s.uses[c].(phase := p)])
  }

  function Do(s: State, a: Act): State
    requires Can(s, a)
  {
    match a
    case Acquire(c, key, lock) =>
      var l := if key in s.registry then s.registry[key] else lock;
      var g := if key in s.registry then s.gates[l] else Gate(key, 1, 0);
      State(s.registry[key := l], s.gates[l := g.(refs := g.refs + 1)], s.uses[c := Use(key, l, Waiting)])
    case Take(c) =>
      var l := s.uses[c].lock;
      Move(s, c, Holding).(gates := s.gates[l := s.gates[l].(tokens := s.gates[l].tokens - 1)])
    case Cancel(c) => Move(s, c, GivingUp)
    case Release(c) =>
      var l := s.uses[c].lock;
      Move(s, c, Released).(gates := s.gates[l := s.gates[l].(tokens := s.gates[l].tokens + 1)])
    case Leave(c) =>
      var u := s.uses[c];
      var g := s.gates[u.lock].(refs := s.gates[u.lock].refs - 1);
      var last := g.refs == 0 && u.key in s.registry && s.registry[u.key] == u.lock;
      State(if last then s.registry - {u.key} else s.registry, s.gates[u.lock := g], s.uses - {c})
  }

  function Users(uses: map<Caller, Use>, lock: LockId): set<Caller> {
    set c | c in uses && uses[c].lock == lock
  }

  function Holders(uses: map<Caller, Use>, lock: LockId): set<Caller> {
    set c | c in uses && uses[c].lock == lock && uses[c].phase == Holding
  }

  ghost predicate GateInv(s: State, l: LockId)
    requires l in s.gates
  {
    var g := s.gates[l];
    && g.refs == |Users(s.uses, l)|
    && g.tokens + |Holders(s.uses, l)| == 1
    && (g.refs > 0 <==> g.key in s.registry && s.registry[g.key] == l)
  }

  ghost predicate Inv(s: State) {
    && (forall k :: k in s.registry ==> s.registry[k] in s.gates && s.gates[s.registry[k]].key == k)
    && (forall c :: c in s.uses ==> s.uses[c].lock in s.gates && s.gates[s.uses[c].lock].key == s.uses[c].key)
    && (forall l :: l in s.gates ==> GateInv(s, l))
  }

  lemma UserCounted(s: State, c: Caller)
    requires Inv(s) && c in s.uses
    ensures s.gates[s.uses[c].lock].refs > 0
  {
    var l := s.uses[c].lock;
    assert GateInv(s, l);
    assert c in Users(s.uses, l);
  }

  /** All callers that refer to a key share one lock object, the registered one. */
  lemma OneLockPerKey(s: State, c: Caller)
    requires Inv(s) && c in s.uses
    ensures s.uses[c].key in s.registry && s.registry[s.uses[c].key] == s.uses[c].lock
  {
    UserCounted(s, c);
    assert GateInv(s, s.uses[c].lock);
  }

  lemma Single(x: set<Caller>, a: Caller, b: Caller)
    requires |x| <= 1 && a in x && b in x
    ensures a == b
  {
    assert x == {a} + (x - {a});
  }

  /** At most one caller holds a key. */
  lemma MutualExclusion(s: State, a: Caller, b: Caller)
    requires Inv(s) && a in s.uses && b in s.uses && s.uses[a].key == s.uses[b].key
    requires s.uses[a].phase == Holding && s.uses[b].phase == Holding
    ensures a == b
  {
    OneLockPerKey(s, a);
    OneLockPerKey(s, b);
    var l := s.uses[a].lock;
    assert GateInv(s, l);
    Single(Holders(s.uses, l), a, b);
  }

  /** The release's send finds the slot of the channel free: it never blocks. */
  lemma SendNeverBlocks(s: State, c: Caller)
    requires Inv(s) && c in s.uses && s.uses[c].phase == Holding
    ensures Can(s, Release(c)) && s.gates[s.uses[c].lock].tokens == 0
  {
    var l := s.uses[c].lock;
    assert GateInv(s, l);
    assert c in Holders(s.uses, l);
  }

  /** Who waits can take the token, or else some caller holds the key. */
  lemma WaitIsForAHolder(s: State, c: Caller)
    requires Inv(s) && c in s.uses && s.uses[c].phase == Waiting
    ensures Can(s, Take(c)) || exists h :: h in s.uses && s.uses[h].key == s.uses[c].key && s.uses[h].phase == Holding
  {
    var l := s.uses[c].lock;
    assert GateInv(s, l);
    if s.gates[l].tokens == 0 {
      assert |Holders(s.uses, l)| == 1;
      var h :| h in Holders(s.uses, l);
      assert s.uses[h].key == s.uses[c].key;
    }
  }

  lemma UsersAfter(uses: map<Caller, Use>, c: Caller, u: Use, l: LockId)
    requires c in uses ==> uses[c].lock == u.lock
    ensures Users(uses[c := u], l) == Users(uses, l) + (if u.lock == l then {c} else {})
    ensures Holders(uses[c := u], l) == Holders(uses, l) - {c} + (if u.lock == l && u.phase == Holding then {c} else {})
  {}

  lemma UsersWithout(uses: map<Caller, Use>, c: Caller, l: LockId)
    requires c in uses && uses[c].phase != Holding
    ensures Users(uses - {c}, l) == Users(uses, l) - {c} && Holders(uses - {c}, l) == Holders(uses, l)
  {}

  /** What an acquisition does to the users of a gate. */
  lemma AcquireCounts(uses: map<Caller, Use>, c: Caller, u: Use, l: LockId)
    requires c !in uses && u.phase == Waiting
    ensures |Users(uses[c := u], l)| == |Users(uses, l)| + (if u.lock == l then 1 else 0)
    ensures Holders(uses[c := u], l) == Holders(uses, l)
  {
    UsersAfter(uses, c, u, l);
    assert c !in Users(uses, l) && c !in Holders(uses, l);
  }

  lemma NoUsers(s: State, l: LockId)
    requires Inv(s) && l !in s.gates
    ensures Users(s.uses, l) == {} && Holders(s.uses, l) == {}
  {}

  lemma AcquireGate(s: State, c: Caller, key: Key, lock: LockId, l: LockId)
    requires Inv(s) && Can(s, Acquire(c, key, lock)) && l in Do(s, Acquire(c, key, lock)).gates
    ensures GateInv(Do(s, Acquire(c, key, lock)), l)
  {
    AcquireCounts(s.uses, c, Do(s, Acquire(c, key, lock)).uses[c], l);
    if l in s.gates {
      assert GateInv(s, l);
    } else {
      NoUsers(s, l);
    }
  }

  lemma AcquireKeeps(s: State, c: Caller, key: Key, lock: LockId)
    requires Inv(s) && Can(s, Acquire(c, key, lock))
    ensures Inv(Do(s, Acquire(c, key, lock)))
  {
    var r := Do(s, Acquire(c, key, lock));
    forall l | l in r.gates ensures GateInv(r, l) { AcquireGate(s, c, key, lock, l); }
  }

  lemma MoveCounts(s: State, a: Act, l: LockId)
    requires Can(s, a) && (a.Take? || a.Cancel? || a.Release?)
    ensures Users(Do(s, a).uses, l) == Users(s.uses, l)
    ensures s.uses[a.c].lock != l || a.Cancel? ==> Holders(Do(s, a).uses, l) == Holders(s.uses, l)
    ensures s.uses[a.c].lock == l && a.Take? ==> |Holders(Do(s, a).uses, l)| == |Holders(s.uses, l)| + 1
    ensures s.uses[a.c].lock == l && a.Release? ==> |Holders(Do(s, a).uses, l)| == |Holders(s.uses, l)| - 1
  {
    var u := Do(s, a).uses[a.c];
    assert Do(s, a).uses == s.uses[a.c := u];
    ChangeCounts(s.uses, a.c, u, l);
  }

  /** What a change of one use does to the users of a gate. */
  lemma ChangeCounts(uses: map<Caller, Use>, c: Caller, u: Use, l: LockId)
    requires c in uses && uses[c].lock == u.lock
    ensures Users(uses[c := u], l) == Users(uses, l)
    ensures u.lock != l || (u.phase == Holding <==> uses[c].phase == Holding) ==>
              Holders(uses[c := u], l) == Holders(uses, l)
    ensures u.lock == l && u.phase == Holding && uses[c].phase != Holding ==>
              |Holders(uses[c := u], l)| == |Holders(uses, l)| + 1
    ensures u.lock == l && u.phase != Holding && uses[c].phase == Holding ==>
              |Holders(uses[c := u], l)| == |Holders(uses, l)| - 1
  {
    UsersAfter(uses, c, u, l);
    assert c in Users(uses, l) <==> u.lock == l;
    assert c in Holders(uses, l) <==> u.lock == l && uses[c].phase == Holding;
  }

  lemma MoveGate(s: State, a: Act, l: LockId)
    requires Inv(s) && Can(s, a) && (a.Take? || a.Cancel? || a.Release?) && l in s.gates
    ensures GateInv(Do(s, a), l)
  {
    assert GateInv(s, l);
    MoveCounts(s, a, l);
  }

  lemma MoveKeeps(s: State, a: Act)
    requires Inv(s) && Can(s, a) && (a.Take? || a.Cancel? || a.Release?)
    ensures Inv(Do(s, a))
  {
    var r := Do(s, a);
    forall l | l in r.gates ensures GateInv(r, l) { MoveGate(s, a, l); }
  }

  lemma LeaveGate(s: State, c: Caller, l: LockId)
    requires Inv(s) && Can(s, Leave(c)) && l in s.gates
    ensures GateInv(Do(s, Leave(c)), l)
  {
    OneLockPerKey(s, c);
    assert GateInv(s, l);
    UsersWithout(s.uses, c, l);
    if l == s.uses[c].lock {
      assert c in Users(s.uses, l);
    } else {
      assert Users(s.uses - {c}, l) == Users(s.uses, l);
    }
  }

  lemma LeaveKeeps(s: State, c: Caller)
    requires Inv(s) && Can(s, Leave(c))
    ensures Inv(Do(s, Leave(c)))
  {
    var r := Do(s, Leave(c));
    forall l | l in r.gates ensures GateInv(r, l) { LeaveGate(s, c, l); }
  }

  lemma StepKeeps(s: State, a: Act)
    requires Inv(s) && Can(s, a)
    ensures Inv(Do(s, a))
  {
    match a
    case Acquire(c, key, lock) => AcquireKeeps(s, c, key, lock);
    case Leave(c) => LeaveKeeps(s, c);
    case _ => MoveKeeps(s, a);
  }

  predicate CanRun(s: State, acts: seq<Act>)
    decreases |acts|
  {
    |acts| == 0 || (Can(s, acts[0]) && CanRun(Do(s, acts[0]), acts[1..]))
  }

  function Run(s: State, acts: seq<Act>): State
    requires CanRun(s, acts)
    decreases |acts|
  {
    if |acts| == 0 then s else Run(Do(s, acts[0]), acts[1..])
  }

  lemma {:induction false} RunKeeps(s: State, acts: seq<Act>)
    requires Inv(s) && CanRun(s, acts)
    ensures Inv(Run(s, acts))
    decreases |acts|
  {
    if |acts| > 0 {
      StepKeeps(s, acts[0]);
      RunKeeps(Do(s, acts[0]), acts[1..]);
    }
  }

  /** However callers acquire, give up and release: at most one holds a key, all that refer to a key share its
      lock object, the token and the holder add up to one, and a key is registered exactly while it is referred to. */
  lemma EveryRunExcludes(acts: seq<Act>)
    requires CanRun(State(map[], map[], map[]), acts)
    ensures var s := Run(State(map[], map[], map[]), acts);
            && (forall a, b :: a in s.uses && b in s.uses && s.uses[a].key == s.uses[b].key ==>
                s.uses[a].lock == s.uses[b].lock)
            && (forall a, b :: (a in s.uses && b in s.uses && s.uses[a].key == s.uses[b].key
                                && s.uses[a].phase == Holding && s.uses[b].phase == Holding) ==> a == b)
            && (forall l :: l in s.gates ==> s.gates[l].tokens + |Holders(s.uses, l)| == 1)
            && (forall k :: k in s.registry <==> exists c :: c in s.uses && s.uses[c].key == k)
  {
    RunKeeps(State(map[], map[], map[]), acts);
    var s := Run(State(map[], map[], map[]), acts);
    forall a, b | a in s.uses && b in s.uses && s.uses[a].key == s.uses[b].key
      ensures s.uses[a].lock == s.uses[b].lock
      ensures s.uses[a].phase == Holding && s.uses[b].phase == Holding ==> a == b
    {
      OneLockPerKey(s, a);
      OneLockPerKey(s, b);
      if s.uses[a].phase == Holding && s.uses[b].phase == Holding { MutualExclusion(s, a, b); }
    }
    forall l | l in s.gates ensures s.gates[l].tokens + |Holders(s.uses, l)| == 1 { assert GateInv(s, l); }
    forall k ensures k in s.registry <==> exists c :: c in s.uses && s.uses[c].key == k {
      RegisteredIffUsed(s, k);
    }
  }

  lemma RegisteredIffUsed(s: State, k: Key)
    requires Inv(s)
    ensures k in s.registry <==> exists c :: c in s.uses && s.uses[c].key == k
  {
    if k in s.registry {
      var l := s.registry[k];
      assert GateInv(s, l);
      assert Users(s.uses, l) != {};
      var c :| c in Users(s.uses, l);
    }
    if c :| c in s.uses && s.uses[c].key == k { OneLockPerKey(s, c); }
  }

  /** No caller is ever stuck: who waits may give up, who holds may release, and who has given up or released may leave,
      and then refers to nothing. */
  lemma NobodyIsStuck(s: State, c: Caller)
    requires Inv(s) && c in s.uses
    ensures match s.uses[c].phase
            case Waiting => Can(s, Cancel(c)) && Do(s, Cancel(c)).uses[c].phase == GivingUp
            case Holding => Can(s, Release(c)) && Do(s, Release(c)).uses[c].phase == Released
            case _ => Can(s, Leave(c)) && Do(s, Leave(c)).uses == s.uses - {c}
  {
    UserCounted(s, c);
  }

  /** Anyone may come at any time, and waits for the registered lock of its key, or for a new one. */
  lemma AnyoneMayCome(s: State, c: Caller, key: Key, lock: LockId)
    requires Inv(s) && c !in s.uses && lock !in s.gates
    ensures Can(s, Acquire(c, key, lock))
    ensures Do(s, Acquire(c, key, lock)).uses
            == s.uses[c := Use(key, if key in s.registry then s.registry[key] else lock, Waiting)]
  {}

  /** The token goes to the caller that takes it, and comes back when that releases. */
  lemma TokenMoves(s: State, c: Caller)
    requires Inv(s) && c in s.uses && Can(s, Take(c))
    ensures var r := Do(s, Take(c));
            && r.uses == s.uses[c := s.uses[c].(phase := Holding)] && r.gates[s.uses[c].lock].tokens == 0
            && Can(r, Release(c)) && Do(r, Release(c)).gates[s.uses[c].lock].tokens == 1
  {
    assert GateInv(s, s.uses[c].lock);
  }
}

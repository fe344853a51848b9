/**
  The bounded connection pool (scripts/api/db_pool.py): its fields and lock regions, as a class, and
  the protocol of many tasks interleaving those regions with connects, rollbacks and closes that
  happen outside the lock.
*/
module ConnectionPool {
  import opened Prelude
  import opened TaskSets
  import ReadBudget

  type Conn = nat
  type Slot = nat

  datatype Config = Config(maxSize: nat, capacity: nat)

  /** The fields of the pool object that its lock protects. */
  datatype Fields = Fields(idle: seq<Conn>, count: int, leases: set<Conn>, closed: bool, connecting: bool,
                           retryAt: int, failures: nat)

  const NO_FIELDS := Fields([], 0, {}, false, false, 0, 0)

  // ----- the lock regions -----

  datatype Verdict = PoolClosed | Reuse(conn: Conn) | CircuitOpen | Create | Wait

  /** One evaluation of the loop in acquire, under the condition's lock. */
  function Admission(f: Fields, c: Config, now: int): (Fields, Verdict) {
    if f.closed then (f, PoolClosed)
    else if f.idle != [] then (f.(idle := f.idle[1..]), Reuse(f.idle[0]))
    else if now < f.retryAt then (f, CircuitOpen)
    else if f.count < c.maxSize && !f.connecting then (f.(count := f.count + 1, connecting := true), Create)
    else (f, Wait)
  }

  /** 5 * 2 ** (failures - 1) */
  function Doubled(failures: nat): (d: nat)
    ensures d >= 5
  {
    if failures <= 1 then 5 else 2 * Doubled(failures - 1)
  }

  function Backoff(failures: nat): nat {
    if Doubled(failures) < 60 then Doubled(failures) else 60
  }

  /** The failure region of acquire. */
  function AfterFailure(f: Fields, now: int): Fields {
    var failures := if f.failures + 1 < 5 then f.failures + 1 else 5;
    f.(count := f.count - 1, connecting := false, failures := failures, retryAt := now + Backoff(failures))
  }

  /** The last region of acquire: true when the connection becomes a lease. */
  function Finish(f: Fields, conn: Conn, created: bool): (Fields, bool) {
    var g := if created then f.(connecting := false, failures := 0, retryAt := 0) else f;
    if g.closed then (g.(count := g.count - 1), false)
    else (g.(leases := g.leases + {conn}), true)
  }

  /** The region of release: true when the connection goes back to the idle queue. */
  function Return(f: Fields, conn: Conn, reusable: bool): (Fields, bool) {
    var g := f.(leases := f.leases - {conn});
    if reusable && !g.closed then (g.(idle := g.idle + [conn]), true)
    else (g.(count := g.count - 1), false)
  }

  /** The region of close: the idle connections are taken out. */
  function Shutdown(f: Fields): (Fields, seq<Conn>) {
    (f.(closed := true, idle := [], count := f.count - |f.idle|), f.idle)
  }

  /** Members of the idle queue. */
  function Elements(cs: seq<Conn>): set<Conn> {
    set c | c in cs
  }

  ghost predicate NoDuplicates(cs: seq<Conn>) {
    forall i, j | 0 <= i < j < |cs| :: cs[i] != cs[j]
  }

  lemma IdleHead(cs: seq<Conn>)
    requires cs != [] && NoDuplicates(cs)
    ensures Elements(cs[1..]) == Elements(cs) - {cs[0]} && NoDuplicates(cs[1..])
  {
    assert cs == [cs[0]] + cs[1..];
    assert forall i | 0 <= i < |cs| - 1 :: cs[1..][i] == cs[i + 1];
  }

  lemma IdleAppend(cs: seq<Conn>, c: Conn)
    requires NoDuplicates(cs) && c !in cs
    ensures Elements(cs + [c]) == Elements(cs) + {c} && NoDuplicates(cs + [c])
  {
  }

  /** The fields agree: what is counted is idle, handed over, leased, or being created. */
  ghost predicate Agrees(f: Fields, handed: set<Conn>, maxSize: nat) {
    && f.count == |f.idle| + |handed| + |f.leases| + One(f.connecting)
    && f.count <= maxSize
    && NoDuplicates(f.idle)
    && Elements(f.idle) !! handed && Elements(f.idle) !! f.leases && handed !! f.leases
    && (f.closed ==> f.idle == [])
    && f.failures <= 5
  }

  lemma ReturnAgrees(f: Fields, conn: Conn, reusable: bool, handed: set<Conn>, maxSize: nat)
    requires Agrees(f, handed, maxSize) && conn in f.leases
    ensures Agrees(Return(f, conn, reusable).0, handed, maxSize)
  {
    assert conn !in Elements(f.idle);
    IdleAppend(f.idle, conn);
  }

  lemma FinishAgrees(f: Fields, conn: Conn, created: bool, handed: set<Conn>, maxSize: nat) returns (after: Fields)
    requires Agrees(f, handed, maxSize)
    requires if created then f.connecting && conn !in f.idle && conn !in handed && conn !in f.leases else conn in handed
    ensures after == Finish(f, conn, created).0 && Agrees(after, handed - {conn}, maxSize)
  {
    after := Finish(f, conn, created).0;
    assert created ==> handed - {conn} == handed;
    assert conn !in Elements(f.idle);
  }

  /**
    The pool object; each method is one lock region, and between two of them any other task may run
    any of them. The connections taken from the idle queue that are not leases yet are handed.
  */
  class ApiPostgresConnectionPool {
    const config: Config
    var idle: seq<Conn>
    var connectionCount: int
    var leases: set<Conn>
    var closed: bool
    var connecting: bool
    var retryAt: int
    var connectFailures: nat
    ghost var handed: set<Conn>

    ghost predicate Valid()
      reads this
    {
      Agrees(View(), handed, config.maxSize)
    }

    /** Both limits are one at least. */
    constructor (maxSize: int, budgetCapacity: int)
      ensures config.maxSize == (if maxSize > 1 then maxSize else 1) && config.capacity == (if budgetCapacity > 1 then budgetCapacity else 1)
      ensures View() == NO_FIELDS && Valid()
    {
      config := Config(if maxSize > 1 then maxSize else 1, if budgetCapacity > 1 then budgetCapacity else 1);
      idle, connectionCount, leases, closed, connecting, retryAt, connectFailures := [], 0, {}, false, false, 0, 0;
      handed := {};
    }

    function View(): Fields
      reads this
    {
      Fields(idle, connectionCount, leases, closed, connecting, retryAt, connectFailures)
    }

    /**
      The connection idle longest is handed over if there is one; otherwise a creation is reserved,
      only while none is under way, a place is free and the circuit is closed; otherwise nothing changes.
    */
    method AcquireAdmission(now: int) returns (verdict: Verdict)
      requires Valid()
      modifies this
      ensures Valid()
      ensures (View(), verdict) == Admission(old(View()), config, now)
      ensures verdict.Reuse? ==>
                && old(idle) == [verdict.conn] + idle && handed == old(handed) + {verdict.conn}
                && verdict.conn !in old(handed) && verdict.conn !in leases && connectionCount == old(connectionCount)
      ensures verdict.Create? ==>
                && !old(connecting) && connecting && old(connectionCount) + 1 == connectionCount <= config.maxSize
                && idle == [] && handed == old(handed)
      ensures !verdict.Reuse? && !verdict.Create? ==> View() == old(View()) && handed == old(handed)
      ensures verdict.PoolClosed? <==> old(closed)
      ensures verdict.Reuse? <==> !old(closed) && old(idle) != []
      ensures verdict.CircuitOpen? <==> !old(closed) && old(idle) == [] && now < old(retryAt)
      ensures verdict.Create? <==>
                !old(closed) && old(idle) == [] && old(retryAt) <= now && old(connectionCount) < config.maxSize && !old(connecting)
      ensures verdict.Wait? ==> connectionCount == config.maxSize || connecting
    {
      if closed {
        return PoolClosed;
      }
      if idle != [] {
        verdict := Reuse(idle[0]);
        IdleHead(idle);
        assert idle[0] in Elements(idle);
        idle := idle[1..];
        handed := handed + {verdict.conn};
        return;
      }
      if now < retryAt {
        return CircuitOpen;
      }
      if connectionCount < config.maxSize && !connecting {
        connectionCount := connectionCount + 1;
        connecting := true;
        return Create;
      }
      return Wait;
    }

    /** A failed creation gives back its place and lets the next one begin, when the circuit closes again. */
    method RecordFailure(now: int)
      requires Valid() && connecting
      modifies this
      ensures Valid()
      ensures View() == AfterFailure(old(View()), now)
      ensures !connecting && connectionCount == old(connectionCount) - 1 && now + 5 <= retryAt <= now + 60
      ensures idle == old(idle) && leases == old(leases) && handed == old(handed) && closed == old(closed)
    {
      connectionCount := connectionCount - 1;
      connecting := false;
      connectFailures := if connectFailures + 1 < 5 then connectFailures + 1 else 5;
      var delay := 5;
      for i := 1 to connectFailures
        invariant delay == Doubled(i) >= 5
      {
        delay := delay * 2;
      }
      retryAt := now + (if delay < 60 then delay else 60);
    }

    /**
      A created or handed connection becomes a lease, counted as before; if the pool was closed
      meanwhile it becomes nothing and its count is given back. A creation ends and closes the circuit.
    */
    method AcquireFinish(conn: Conn, created: bool) returns (leased: bool)
      requires Valid()
      requires if created then connecting && conn !in idle && conn !in handed && conn !in leases else conn in handed
      modifies this
      ensures Valid()
      ensures (View(), leased) == Finish(old(View()), conn, created)
      ensures leased <==> !old(closed)
      ensures leased ==> leases == old(leases) + {conn} && connectionCount == old(connectionCount)
      ensures !leased ==> leases == old(leases) && connectionCount == old(connectionCount) - 1
      ensures handed == old(handed) - {conn}
      ensures idle == old(idle)
      ensures connecting ==> old(connecting) && !created
      ensures created ==> connectFailures == 0 && retryAt == 0
    {
      ghost var after := FinishAgrees(View(), conn, created, handed, config.maxSize);
      if created {
        connecting := false;
        connectFailures := 0;
        retryAt := 0;
      }
      handed := handed - {conn};
      leased := !closed;
      if closed {
        connectionCount := connectionCount - 1;
      } else {
        leases := leases + {conn};
      }
      assert View() == after;
    }

    /** A lease ends: last in the idle queue and still counted, or gone and no longer counted. */
    method Release(conn: Conn, reusable: bool) returns (kept: bool)
      requires Valid() && conn in leases
      modifies this
      ensures Valid()
      ensures (View(), kept) == Return(old(View()), conn, reusable)
      ensures kept <==> reusable && !old(closed)
      ensures leases + {conn} == old(leases) && conn !in leases && handed == old(handed)
      ensures idle == old(idle) + (if kept then [conn] else [])
      ensures connectionCount == old(connectionCount) - One(!kept)
    {
      ReturnAgrees(View(), conn, reusable, handed, config.maxSize);
      leases := leases - {conn};
      if reusable && !closed {
        idle := idle + [conn];
        return true;
      }
      connectionCount := connectionCount - 1;
      return false;
    }

    /** Exactly the idle connections are taken out; what is counted then is handed, leased or being created. */
    method Close() returns (drained: seq<Conn>)
      requires Valid()
      modifies this
      ensures Valid()
      ensures (View(), drained) == Shutdown(old(View()))
      ensures drained == old(idle) && idle == [] && closed
      ensures leases == old(leases) && handed == old(handed) && connecting == old(connecting)
      ensures connectionCount == |handed| + |leases| + One(connecting)
    {
      closed := true;
      drained := idle;
      idle := [];
      connectionCount := connectionCount - |drained|;
    }
  }

  // ----- the protocol -----

  /** Where a task is, between two lock regions. */
  datatype Pc =
    | Outside
    | Admitted                                 // may create: try_permit comes next
    | Permitted(slot: Slot)                    // connecting, holding a host permit
    | Opened(slot: Slot, conn: Conn)           // the factory returned; the session is being set up
    | Connected(conn: Conn)                    // set up, and its permit recorded
    | Discarding(conn: Conn)                   // set-up failed: the permit is closed, the connection is not yet
    | Failing                                  // permit and connection closed, failure not yet recorded
    | HandedOver(conn: Conn)                   // taken from idle, not yet a lease
    | Leased(conn: Conn)
    | Releasing(conn: Conn, reusable: bool)    // rolled back, or closed after a failed rollback
    | Draining(conns: seq<Conn>)               // close is closing these

  /**
    The whole system: the pool, the permits it has recorded, the tasks, every slot locked on the
    host by this or another process, the open connections, and how many permits were taken and
    returned.
  */
  datatype State = State(fields: Fields, permits: map<Conn, Slot>, tasks: map<Task, Pc>, hostHeld: set<Slot>,
                         live: set<Conn>, known: set<Conn>, taken: nat, returned: nat)

  const START := State(NO_FIELDS, map[], map[], {}, {}, {}, 0, 0)

  function PcOf(tasks: map<Task, Pc>, t: Task): Pc {
    if t in tasks then tasks[t] else Outside
  }

  datatype Action =
    | Acquire(t: Task, now: int)
    | TryPermit(t: Task)
    | FactoryReturns(t: Task, conn: Conn)
    | ConnectSucceeds(t: Task)
    | ConnectFails(t: Task)
    | DiscardConnection(t: Task)
    | RecordFailure(t: Task, now: int)
    | FinishAcquire(t: Task)
    | Rollback(t: Task, works: bool)
    | FinishRelease(t: Task)
    | BeginClose(t: Task)
    | DrainOne(t: Task)
    | OtherProcessLocks(slot: Slot)
    | OtherProcessUnlocks(slot: Slot)

  function Moved(s: State, t: Task, pc: Pc): State {
    s.(tasks := s.tasks[t := pc])
  }

  /** The recorded permit of a connection is removed and closed. */
  function PermitReturned(s: State, conn: Conn): State {
    if conn in s.permits then
      s.(permits := s.permits - {conn}, hostHeld := s.hostHeld - {s.permits[conn]}, returned := s.returned + 1)
    else s
  }

  function ConnectionClosed(s: State, conn: Conn): State {
    s.(live := s.live - {conn})
  }

  ghost predicate OwnSlot(s: State, slot: Slot) {
    || (exists c | c in s.permits :: s.permits[c] == slot)
    || (exists t | t in s.tasks && IsPermitted(s.tasks[t]) :: s.tasks[t].slot == slot)
  }

  /** One atomic step; an action that is not possible in the state changes nothing. */
  ghost function Next(s: State, c: Config, a: Action): State {
    match a
    case Acquire(t, now) =>
      if !PcOf(s.tasks, t).Outside? then s
      else
        var (f, verdict) := Admission(s.fields, c, now);
        var s' := s.(fields := f);
        (match verdict
         case Reuse(conn) => Moved(s', t, HandedOver(conn))
         case Create => Moved(s', t, Admitted)
         case _ => s)
    case TryPermit(t) =>
      if !PcOf(s.tasks, t).Admitted? then s
      else
        var slot := ReadBudget.FirstFree(s.hostHeld, c.capacity, 0);
        if slot.None? then Moved(s, t, Failing)
        else Moved(s, t, Permitted(slot.value)).(hostHeld := s.hostHeld + {slot.value}, taken := s.taken + 1)
    case FactoryReturns(t, conn) =>
      var pc := PcOf(s.tasks, t);
      if !pc.Permitted? || conn in s.known then s
      else Moved(s, t, Opened(pc.slot, conn)).(live := s.live + {conn}, known := s.known + {conn})
    case ConnectSucceeds(t) =>
      var pc := PcOf(s.tasks, t);
      if !pc.Opened? then s else Moved(s, t, Connected(pc.conn)).(permits := s.permits[pc.conn := pc.slot])
    case ConnectFails(t) =>
      var pc := PcOf(s.tasks, t);
      if !pc.Permitted? && !pc.Opened? then s
      else Moved(s, t, if pc.Opened? then Discarding(pc.conn) else Failing).(hostHeld := s.hostHeld - {pc.slot}, returned := s.returned + 1)
    case DiscardConnection(t) =>
      var pc := PcOf(s.tasks, t);
      if !pc.Discarding? then s else ConnectionClosed(Moved(s, t, Failing), pc.conn)
    case RecordFailure(t, now) =>
      if !PcOf(s.tasks, t).Failing? then s
      else Moved(s, t, Outside).(fields := AfterFailure(s.fields, now))
    case FinishAcquire(t) =>
      var pc := PcOf(s.tasks, t);
      if !pc.Connected? && !pc.HandedOver? then s
      else
        var (f, leased) := Finish(s.fields, pc.conn, pc.Connected?);
        var s' := s.(fields := f);
        if leased then Moved(s', t, Leased(pc.conn))
        else PermitReturned(ConnectionClosed(Moved(s', t, Outside), pc.conn), pc.conn)
    case Rollback(t, works) =>
      var pc := PcOf(s.tasks, t);
      if !pc.Leased? then s
      else
        var s' := Moved(s, t, Releasing(pc.conn, works));
        if works then s' else ConnectionClosed(s', pc.conn)
    case FinishRelease(t) =>
      var pc := PcOf(s.tasks, t);
      if !pc.Releasing? then s
      else
        var (f, kept) := Return(s.fields, pc.conn, pc.reusable);
        var s' := Moved(s.(fields := f), t, Outside);
        if kept then s' else PermitReturned(ConnectionClosed(s', pc.conn), pc.conn)
    case BeginClose(t) =>
      if !PcOf(s.tasks, t).Outside? then s
      else
        var (f, drained) := Shutdown(s.fields);
        Moved(s.(fields := f), t, Draining(drained))
    case DrainOne(t) =>
      var pc := PcOf(s.tasks, t);
      if !pc.Draining? then s
      else if pc.conns == [] then Moved(s, t, Outside)
      else PermitReturned(ConnectionClosed(Moved(s, t, Draining(pc.conns[1..])), pc.conns[0]), pc.conns[0])
    case OtherProcessLocks(slot) =>
      if slot < c.capacity && slot !in s.hostHeld then s.(hostHeld := s.hostHeld + {slot}) else s
    case OtherProcessUnlocks(slot) =>
      if OwnSlot(s, slot) then s else s.(hostHeld := s.hostHeld - {slot})
  }

  ghost function Run(c: Config, actions: seq<Action>): State {
    if actions == [] then START else Next(Run(c, actions[..|actions| - 1]), c, actions[|actions| - 1])
  }

  // ----- counting tasks -----

  predicate IsCreating(pc: Pc) {
    pc.Admitted? || pc.Permitted? || pc.Opened? || pc.Connected? || pc.Discarding? || pc.Failing?
  }

  predicate IsCarrying(pc: Pc) {
    pc.HandedOver? || pc.Leased? || pc.Releasing?
  }

  predicate IsPermitted(pc: Pc) {
    pc.Permitted? || pc.Opened?
  }

  // ----- invariant 1: the count -----

  /** The count is idle plus handed over and leased plus being created, bounded, one connect at a time. */
  ghost predicate CountAgrees(s: State, c: Config) {
    && s.fields.count == |s.fields.idle| + |Members(s.tasks, IsCarrying)| + |Members(s.tasks, IsCreating)|
    && s.fields.count <= c.maxSize
    && |Members(s.tasks, IsCreating)| == One(s.fields.connecting)
    && s.fields.failures <= 5
    && (s.fields.closed ==> s.fields.idle == [])
  }

  /** A task moves: the count moves with idle, carrying and creating, connecting with creating. */
  lemma MoveKeepsCount(s: State, s': State, c: Config, t: Task, pc: Pc)
    requires CountAgrees(s, c) && s'.tasks == s.tasks[t := pc]
    requires var was := PcOf(s.tasks, t);
             && s'.fields.count - |s'.fields.idle| - One(IsCarrying(pc)) - One(IsCreating(pc)) ==
                s.fields.count - |s.fields.idle| - One(IsCarrying(was)) - One(IsCreating(was))
             && One(s'.fields.connecting) - One(IsCreating(pc)) == One(s.fields.connecting) - One(IsCreating(was))
    requires s'.fields.count <= c.maxSize && s'.fields.failures <= 5 && (s'.fields.closed ==> s'.fields.idle == [])
    ensures CountAgrees(s', c)
  {
    MembersMove(s.tasks, t, PcOf(s.tasks, t), pc, IsCarrying);
    MembersMove(s.tasks, t, PcOf(s.tasks, t), pc, IsCreating);
  }

  /** A creating task is the one the connecting flag stands for, and a count of one is reserved for it. */
  lemma CreatingIsCounted(s: State, c: Config, t: Task)
    requires CountAgrees(s, c) && IsCreating(PcOf(s.tasks, t))
    ensures s.fields.connecting && s.fields.count >= 1
  {
    assert t in Members(s.tasks, IsCreating);
  }

  lemma CountAfterAcquire(s: State, c: Config, t: Task, now: int)
    requires CountAgrees(s, c)
    ensures CountAgrees(Next(s, c, Acquire(t, now)), c)
  {
    var s' := Next(s, c, Acquire(t, now));
    if s'.tasks != s.tasks {
      MoveKeepsCount(s, s', c, t, PcOf(s'.tasks, t));
    }
  }

  lemma CountAfterConnect(s: State, c: Config, t: Task, a: Action)
    requires CountAgrees(s, c)
    requires a in {TryPermit(t), ConnectSucceeds(t), ConnectFails(t), DiscardConnection(t)} || (a.FactoryReturns? && a.t == t)
    ensures CountAgrees(Next(s, c, a), c)
  {
    var s' := Next(s, c, a);
    if s'.tasks != s.tasks {
      MoveKeepsCount(s, s', c, t, PcOf(s'.tasks, t));
    }
  }

  lemma CountAfterFailure(s: State, c: Config, t: Task, now: int)
    requires CountAgrees(s, c)
    ensures CountAgrees(Next(s, c, RecordFailure(t, now)), c)
  {
    if PcOf(s.tasks, t).Failing? {
      CreatingIsCounted(s, c, t);
      MoveKeepsCount(s, Next(s, c, RecordFailure(t, now)), c, t, Outside);
    }
  }

  lemma CountAfterFinish(s: State, c: Config, t: Task)
    requires CountAgrees(s, c)
    ensures CountAgrees(Next(s, c, FinishAcquire(t)), c)
  {
    var s', pc := Next(s, c, FinishAcquire(t)), PcOf(s.tasks, t);
    if pc.Connected? {
      CreatingIsCounted(s, c, t);
      MoveKeepsCount(s, s', c, t, PcOf(s'.tasks, t));
    } else if pc.HandedOver? {
      MoveKeepsCount(s, s', c, t, PcOf(s'.tasks, t));
    }
  }

  lemma CountAfterRelease(s: State, c: Config, t: Task, a: Action)
    requires CountAgrees(s, c)
    requires a == FinishRelease(t) || (a.Rollback? && a.t == t)
    ensures CountAgrees(Next(s, c, a), c)
  {
    var s' := Next(s, c, a);
    if s'.tasks != s.tasks {
      MoveKeepsCount(s, s', c, t, PcOf(s'.tasks, t));
    }
  }

  lemma CountAfterClose(s: State, c: Config, t: Task, a: Action)
    requires CountAgrees(s, c)
    requires a == BeginClose(t) || a == DrainOne(t)
    ensures CountAgrees(Next(s, c, a), c)
  {
    var s', pc := Next(s, c, a), PcOf(s.tasks, t);
    if (a.BeginClose? && pc.Outside?) || (a.DrainOne? && pc.Draining?) {
      MoveKeepsCount(s, s', c, t, PcOf(s'.tasks, t));
    }
  }

  lemma CountKept(s: State, c: Config, a: Action)
    requires CountAgrees(s, c)
    ensures CountAgrees(Next(s, c, a), c)
  {
    match a {
      case Acquire(t, now) => CountAfterAcquire(s, c, t, now);
      case TryPermit(t) => CountAfterConnect(s, c, t, a);
      case FactoryReturns(t, _) => CountAfterConnect(s, c, t, a);
      case ConnectSucceeds(t) => CountAfterConnect(s, c, t, a);
      case ConnectFails(t) => CountAfterConnect(s, c, t, a);
      case DiscardConnection(t) => CountAfterConnect(s, c, t, a);
      case RecordFailure(t, now) => CountAfterFailure(s, c, t, now);
      case FinishAcquire(t) => CountAfterFinish(s, c, t);
      case Rollback(t, _) => CountAfterRelease(s, c, t, a);
      case FinishRelease(t) => CountAfterRelease(s, c, t, a);
      case BeginClose(t) => CountAfterClose(s, c, t, a);
      case DrainOne(t) => CountAfterClose(s, c, t, a);
      case OtherProcessLocks(_) =>
      case OtherProcessUnlocks(_) =>
    }
  }

  /** At most one connect is in flight. */
  lemma OneConnectAtATime(s: State, c: Config, t: Task, u: Task)
    requires CountAgrees(s, c) && IsCreating(PcOf(s.tasks, t)) && IsCreating(PcOf(s.tasks, u))
    ensures t == u
  {
    var creating := Members(s.tasks, IsCreating);
    assert t in creating && u in creating;
    assert |creating - {t}| == 0;
    assert creating - {t} == {};
  }
}

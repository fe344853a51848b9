/**
  Invariants of the connection pool protocol over every interleaving: where each connection is, who
  owns which host permit, and what is left when the pool has been closed and all tasks are done.
*/
module PoolInvariants {
  import opened TaskSets
  import opened ConnectionPool

  // ----- invariant 2: every connection is in one place -----

  /** The connections a task is responsible for. */
  function Held(pc: Pc): set<Conn> {
    match pc
    case Opened(_, conn) => {conn}
    case Connected(conn) => {conn}
    case Discarding(conn) => {conn}
    case HandedOver(conn) => {conn}
    case Leased(conn) => {conn}
    case Releasing(conn, _) => {conn}
    case Draining(conns) => Elements(conns)
    case _ => {}
  }

  /** Those among them whose permit is recorded. */
  function HeldRecorded(pc: Pc): set<Conn> {
    if pc.Opened? || pc.Discarding? then {} else Held(pc)
  }

  /** Those among them that are still open. */
  function HeldOpen(pc: Pc): set<Conn> {
    if pc.Releasing? && !pc.reusable then {} else Held(pc)
  }

  /** Those among them with an entry in the leases dictionary. */
  function HeldLease(pc: Pc): set<Conn> {
    if pc.Leased? || pc.Releasing? then Held(pc) else {}
  }

  /** all is exactly base together with what the tasks hold. */
  ghost predicate Covers(all: set<Conn>, base: set<Conn>, tasks: map<Task, Pc>, held: Pc -> set<Conn>) {
    forall c :: c in all <==> c in base || exists t | t in tasks :: c in held(tasks[t])
  }

  /** The idle queue and the tasks hold different connections. */
  ghost predicate Apart(s: State) {
    var idle := Elements(s.fields.idle);
    && NoDuplicates(s.fields.idle)
    && (forall t | t in s.tasks :: Held(s.tasks[t]) !! idle && (s.tasks[t].Draining? ==> NoDuplicates(s.tasks[t].conns)))
    && (forall t, u | t in s.tasks && u in s.tasks && t != u :: Held(s.tasks[t]) !! Held(s.tasks[u]))
  }

  /** The recorded permits, the open connections and the leases are exactly those of the places. */
  ghost predicate Covered(s: State) {
    var idle := Elements(s.fields.idle);
    && Covers(s.permits.Keys, idle, s.tasks, HeldRecorded)
    && Covers(s.live, idle, s.tasks, HeldOpen)
    && Covers(s.fields.leases, {}, s.tasks, HeldLease)
  }

  /** Connections never come back under an old identity. */
  ghost predicate AllKnown(s: State) {
    s.permits.Keys <= s.known && forall t | t in s.tasks :: Held(s.tasks[t]) <= s.known
  }

  ghost predicate Places(s: State) {
    Apart(s) && Covered(s) && AllKnown(s)
  }

  lemma CoversMove(all: set<Conn>, all': set<Conn>, base: set<Conn>, base': set<Conn>,
                   tasks: map<Task, Pc>, t: Task, pc: Pc, held: Pc -> set<Conn>)
    requires held(Outside) == {}
    requires Covers(all, base, tasks, held)
    requires forall u | u in tasks && u != t :: held(tasks[u]) !! base + held(PcOf(tasks, t))
    requires all' == (all - base - held(PcOf(tasks, t))) + base' + held(pc)
    ensures Covers(all', base', tasks[t := pc], held)
  {
    var tasks' := tasks[t := pc];
    forall c
      ensures c in all' <==> c in base' || exists u | u in tasks' :: c in held(tasks'[u])
    {
      if c in all - base - held(PcOf(tasks, t)) {
        var u :| u in tasks && c in held(tasks[u]);
        assert u != t && u in tasks' && c in held(tasks'[u]);
      }
      if c in held(pc) {
        assert t in tasks';
      }
      if u :| u in tasks' && c in held(tasks'[u]) {
        if u != t {
          assert u in tasks && c in held(tasks[u]);
        }
      }
    }
  }

  /** What is known of a task and of the idle queue before the task's next step. */
  ghost predicate Ready(s: State, t: Task) {
    var was, idle := PcOf(s.tasks, t), Elements(s.fields.idle);
    && NoDuplicates(s.fields.idle) && (was.Draining? ==> NoDuplicates(was.conns))
    && Held(was) !! idle
    && idle <= s.permits.Keys && idle + Held(was) <= s.known
    && HeldRecorded(was) == Held(was) * s.permits.Keys
    && idle <= s.live && idle !! s.fields.leases
    && HeldOpen(was) == Held(was) * s.live
    && HeldLease(was) == Held(was) * s.fields.leases
  }

  lemma PlacesAreReady(s: State, t: Task)
    requires Places(s)
    ensures Ready(s, t)
  {
    var pc := PcOf(s.tasks, t);
    assert pc != Outside ==> t in s.tasks;
    OnlyHoldersRecord(s, t);
    OnlyHoldersLease(s, t);
    OnlyHoldersKeepOpen(s, t);
  }

  lemma OnlyHoldersRecord(s: State, t: Task)
    requires Places(s)
    ensures Elements(s.fields.idle) <= s.permits.Keys
    ensures HeldRecorded(PcOf(s.tasks, t)) == Held(PcOf(s.tasks, t)) * s.permits.Keys
  {
    var pc := PcOf(s.tasks, t);
    forall c | c in s.permits && c in Held(pc)
      ensures c in HeldRecorded(pc)
    {
      assert c !in Elements(s.fields.idle);
      var u :| u in s.tasks && c in HeldRecorded(s.tasks[u]);
      assert c in Held(s.tasks[u]);
    }
    forall c | c in HeldRecorded(pc)
      ensures c in s.permits
    {
      assert c in HeldRecorded(s.tasks[t]);
    }
  }

  lemma OnlyHoldersLease(s: State, t: Task)
    requires Places(s)
    ensures Elements(s.fields.idle) !! s.fields.leases
    ensures HeldLease(PcOf(s.tasks, t)) == Held(PcOf(s.tasks, t)) * s.fields.leases
  {
    var pc, idle := PcOf(s.tasks, t), Elements(s.fields.idle);
    forall c | c in s.fields.leases
      ensures c !in idle && (c in Held(pc) ==> c in HeldLease(pc))
    {
      var u :| u in s.tasks && c in HeldLease(s.tasks[u]);
      assert c in Held(s.tasks[u]);
    }
    forall c | c in HeldLease(pc)
      ensures c in s.fields.leases
    {
      assert c in HeldLease(s.tasks[t]);
    }
  }

  lemma OnlyHoldersKeepOpen(s: State, t: Task)
    requires Places(s)
    ensures Elements(s.fields.idle) <= s.live
    ensures HeldOpen(PcOf(s.tasks, t)) == Held(PcOf(s.tasks, t)) * s.live
  {
    var pc := PcOf(s.tasks, t);
    forall c | c in s.live && c in Held(pc)
      ensures c in HeldOpen(pc)
    {
      assert c !in Elements(s.fields.idle);
      var u :| u in s.tasks && c in HeldOpen(s.tasks[u]);
      assert c in Held(s.tasks[u]);
    }
    forall c | c in HeldOpen(pc)
      ensures c in s.live
    {
      assert c in HeldOpen(s.tasks[t]);
    }
  }

  /** What a task holds and what is idle change hands; connections may appear, unused before, or go away. */
  ghost predicate IsMove(s: State, s': State, t: Task) {
    var was, pc := PcOf(s.tasks, t), PcOf(s'.tasks, t);
    var idle, idle' := Elements(s.fields.idle), Elements(s'.fields.idle);
    && s'.tasks == s.tasks[t := pc]
    && NoDuplicates(s'.fields.idle) && (pc.Draining? ==> NoDuplicates(pc.conns))
    && Held(pc) !! idle'
    && idle' <= idle + Held(was)
    && Held(pc) - (idle + Held(was)) !! s.known
    && s'.known == s.known + Held(pc)
    && s'.permits.Keys == (s.permits.Keys - idle - HeldRecorded(was)) + idle' + HeldRecorded(pc)
    && s'.live == (s.live - idle - HeldOpen(was)) + idle' + HeldOpen(pc)
    && s'.fields.leases == (s.fields.leases - HeldLease(was)) + HeldLease(pc)
  }

  predicate Stutters(s: State, s': State) {
    && s'.fields.idle == s.fields.idle && s'.fields.leases == s.fields.leases
    && s'.permits == s.permits && s'.live == s.live && s'.known == s.known && s'.tasks == s.tasks
  }

  /** What the other tasks hold is apart from what moves. */
  lemma OthersApart(s: State, t: Task, held: Pc -> set<Conn>)
    requires Places(s) && forall pc: Pc :: held(pc) <= Held(pc)
    ensures forall u | u in s.tasks && u != t :: held(s.tasks[u]) !! Elements(s.fields.idle) + held(PcOf(s.tasks, t))
    ensures forall u | u in s.tasks && u != t :: held(s.tasks[u]) !! {} + held(PcOf(s.tasks, t))
  {
    forall u | u in s.tasks && u != t
      ensures held(s.tasks[u]) !! Elements(s.fields.idle) + held(PcOf(s.tasks, t))
    {
      OthersHold(s, t, u);
    }
  }

  lemma MoveKeepsRecorded(s: State, s': State, t: Task)
    requires Places(s) && Ready(s, t) && IsMove(s, s', t)
    ensures Covers(s'.permits.Keys, Elements(s'.fields.idle), s'.tasks, HeldRecorded)
  {
    OthersApart(s, t, HeldRecorded);
    CoversMove(s.permits.Keys, s'.permits.Keys, Elements(s.fields.idle), Elements(s'.fields.idle), s.tasks, t, PcOf(s'.tasks, t), HeldRecorded);
  }

  lemma MoveKeepsOpen(s: State, s': State, t: Task)
    requires Places(s) && Ready(s, t) && IsMove(s, s', t)
    ensures Covers(s'.live, Elements(s'.fields.idle), s'.tasks, HeldOpen)
  {
    OthersApart(s, t, HeldOpen);
    CoversMove(s.live, s'.live, Elements(s.fields.idle), Elements(s'.fields.idle), s.tasks, t, PcOf(s'.tasks, t), HeldOpen);
  }

  lemma MoveKeepsCovered(s: State, s': State, t: Task)
    requires Places(s) && Ready(s, t) && IsMove(s, s', t)
    ensures Covered(s')
  {
    MoveKeepsRecorded(s, s', t);
    MoveKeepsOpen(s, s', t);
    MoveKeepsLeased(s, s', t);
  }

  lemma MoveKeepsLeased(s: State, s': State, t: Task)
    requires Places(s) && Ready(s, t) && IsMove(s, s', t)
    ensures Covers(s'.fields.leases, {}, s'.tasks, HeldLease)
  {
    var was, pc := PcOf(s.tasks, t), PcOf(s'.tasks, t);
    OthersApart(s, t, HeldLease);
    assert s'.fields.leases == (s.fields.leases - {} - HeldLease(was)) + {} + HeldLease(pc);
    CoversMove(s.fields.leases, s'.fields.leases, {}, {}, s.tasks, t, pc, HeldLease);
  }

  lemma MoveKeepsPlaces(s: State, s': State, t: Task)
    requires Places(s) && Ready(s, t) && IsMove(s, s', t)
    ensures Places(s')
  {
    MoveKeepsCovered(s, s', t);
    MoveKeepsApart(s, s', t);
    assert s'.permits.Keys <= s'.known;
    forall u | u in s'.tasks
      ensures Held(s'.tasks[u]) <= s'.known
    {
      if u != t {
        assert s'.tasks[u] == s.tasks[u];
      }
    }
  }

  lemma MoveKeepsApart(s: State, s': State, t: Task)
    requires Places(s) && Ready(s, t) && IsMove(s, s', t)
    ensures Apart(s')
  {
    var pc, idle' := PcOf(s'.tasks, t), Elements(s'.fields.idle);
    forall u | u in s'.tasks && u != t
      ensures u in s.tasks && s'.tasks[u] == s.tasks[u]
      ensures Held(s'.tasks[u]) !! idle' && Held(s'.tasks[u]) !! Held(pc)
    {
      OthersHold(s, t, u);
      DisjointParts(Held(s.tasks[u]), Elements(s.fields.idle) + Held(PcOf(s.tasks, t)), s.known, idle', Held(pc));
    }
    forall u | u in s'.tasks
      ensures Held(s'.tasks[u]) !! idle' && (s'.tasks[u].Draining? ==> NoDuplicates(s'.tasks[u].conns))
    {
    }
  }

  lemma DisjointParts(mine: set<Conn>, others: set<Conn>, known: set<Conn>, idle: set<Conn>, held: set<Conn>)
    requires mine !! others && mine <= known && idle <= others && held - others !! known
    ensures mine !! idle && mine !! held
  {
  }

  lemma OthersHold(s: State, t: Task, u: Task)
    requires Places(s) && u in s.tasks && u != t
    ensures Held(s.tasks[u]) !! Elements(s.fields.idle) + Held(PcOf(s.tasks, t))
    ensures Held(s.tasks[u]) <= s.known
  {
    assert t in s.tasks ==> Held(s.tasks[u]) !! Held(s.tasks[t]);
  }

  // Each action either leaves every place alone or is a move of its task.

  lemma AcquireMoves(s: State, c: Config, t: Task, now: int)
    requires Ready(s, t)
    ensures var s' := Next(s, c, Acquire(t, now)); Stutters(s, s') || IsMove(s, s', t)
  {
    var s' := Next(s, c, Acquire(t, now));
    if PcOf(s.tasks, t).Outside? && !s.fields.closed && s.fields.idle != [] {
      IdleHead(s.fields.idle);
      assert s.fields.idle[0] in Elements(s.fields.idle);
      assert IsMove(s, s', t);
    }
  }

  lemma TryPermitMoves(s: State, c: Config, t: Task)
    requires Ready(s, t)
    ensures var s' := Next(s, c, TryPermit(t)); Stutters(s, s') || IsMove(s, s', t)
  {
    var s' := Next(s, c, TryPermit(t));
    if PcOf(s.tasks, t).Admitted? {
      assert IsMove(s, s', t);
    }
  }

  lemma ConnectMoves(s: State, c: Config, t: Task, a: Action)
    requires Ready(s, t) && ((a.FactoryReturns? && a.t == t) || a == ConnectSucceeds(t) || a == DiscardConnection(t))
    ensures var s' := Next(s, c, a); Stutters(s, s') || IsMove(s, s', t)
  {
    var s', pc := Next(s, c, a), PcOf(s.tasks, t);
    match a {
      case FactoryReturns(_, conn) =>
        if pc.Permitted? && conn !in s.known {
          assert IsMove(s, s', t);
        }
      case ConnectSucceeds(_) =>
        if pc.Opened? {
          assert pc.conn in Held(pc);
          assert IsMove(s, s', t);
        }
      case DiscardConnection(_) =>
        if pc.Discarding? {
          assert pc.conn in Held(pc);
          assert IsMove(s, s', t);
        }
    }
  }

  lemma FailureMoves(s: State, c: Config, t: Task, a: Action)
    requires Ready(s, t) && (a == ConnectFails(t) || (a.RecordFailure? && a.t == t))
    ensures var s' := Next(s, c, a); Stutters(s, s') || IsMove(s, s', t)
  {
    var s', pc := Next(s, c, a), PcOf(s.tasks, t);
    if (a.ConnectFails? && IsPermitted(pc)) || (a.RecordFailure? && pc.Failing?) {
      assert IsMove(s, s', t);
    }
  }

  lemma FinishMoves(s: State, c: Config, t: Task)
    requires Ready(s, t)
    ensures var s' := Next(s, c, FinishAcquire(t)); Stutters(s, s') || IsMove(s, s', t)
  {
    var s', pc := Next(s, c, FinishAcquire(t)), PcOf(s.tasks, t);
    if pc.Connected? || pc.HandedOver? {
      assert pc.conn in Held(pc);
      assert IsMove(s, s', t);
    }
  }

  lemma RollbackMoves(s: State, c: Config, t: Task, works: bool)
    requires Ready(s, t)
    ensures var s' := Next(s, c, Rollback(t, works)); Stutters(s, s') || IsMove(s, s', t)
  {
    var s', pc := Next(s, c, Rollback(t, works)), PcOf(s.tasks, t);
    if pc.Leased? {
      assert pc.conn in Held(pc);
      assert IsMove(s, s', t);
    }
  }

  lemma ReleaseMoves(s: State, c: Config, t: Task)
    requires Ready(s, t)
    ensures var s' := Next(s, c, FinishRelease(t)); Stutters(s, s') || IsMove(s, s', t)
  {
    var s', pc := Next(s, c, FinishRelease(t)), PcOf(s.tasks, t);
    if pc.Releasing? {
      assert pc.conn in Held(pc);
      IdleAppend(s.fields.idle, pc.conn);
      assert IsMove(s, s', t);
    }
  }

  lemma BeginCloseMoves(s: State, c: Config, t: Task)
    requires Ready(s, t)
    ensures var s' := Next(s, c, BeginClose(t)); Stutters(s, s') || IsMove(s, s', t)
  {
    var s' := Next(s, c, BeginClose(t));
    if PcOf(s.tasks, t).Outside? {
      assert Elements([]) == {};
      assert IsMove(s, s', t);
    }
  }

  lemma DrainMoves(s: State, c: Config, t: Task)
    requires Ready(s, t)
    ensures var s' := Next(s, c, DrainOne(t)); Stutters(s, s') || IsMove(s, s', t)
  {
    var s', pc := Next(s, c, DrainOne(t)), PcOf(s.tasks, t);
    if pc.Draining? {
      if pc.conns != [] {
        IdleHead(pc.conns);
        assert pc.conns[0] in Held(pc);
      }
      assert IsMove(s, s', t);
    }
  }

  lemma ActionMoves(s: State, c: Config, t: Task, a: Action)
    requires Ready(s, t)
    requires !a.OtherProcessLocks? && !a.OtherProcessUnlocks? && a.t == t
    ensures var s' := Next(s, c, a); Stutters(s, s') || IsMove(s, s', t)
  {
    match a {
      case Acquire(_, now) => AcquireMoves(s, c, t, now);
      case TryPermit(_) => TryPermitMoves(s, c, t);
      case FactoryReturns(_, _) => ConnectMoves(s, c, t, a);
      case ConnectSucceeds(_) => ConnectMoves(s, c, t, a);
      case DiscardConnection(_) => ConnectMoves(s, c, t, a);
      case ConnectFails(_) => FailureMoves(s, c, t, a);
      case RecordFailure(_, _) => FailureMoves(s, c, t, a);
      case FinishAcquire(_) => FinishMoves(s, c, t);
      case Rollback(_, works) => RollbackMoves(s, c, t, works);
      case FinishRelease(_) => ReleaseMoves(s, c, t);
      case BeginClose(_) => BeginCloseMoves(s, c, t);
      case DrainOne(_) => DrainMoves(s, c, t);
    }
  }

  lemma PlacesKept(s: State, c: Config, a: Action)
    requires Places(s)
    ensures Places(Next(s, c, a))
  {
    var s' := Next(s, c, a);
    if a.OtherProcessLocks? || a.OtherProcessUnlocks? {
      assert Stutters(s, s');
    } else {
      PlacesAreReady(s, a.t);
      ActionMoves(s, c, a.t, a);
      if !Stutters(s, s') {
        MoveKeepsPlaces(s, s', a.t);
      }
    }
  }
}

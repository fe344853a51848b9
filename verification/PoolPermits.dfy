/**
  Host permits of the connection pool over every interleaving, and what holds of every run: counts,
  places, permits, and nothing left behind once the pool is closed and its tasks are done.
*/
module PoolPermits {
  import opened Prelude
  import opened TaskSets
  import opened ConnectionPool
  import opened PoolInvariants

  // ----- invariant 3: who owns which slot -----

  /** Recorded permits and connecting tasks own different slots, all of them locked on the host. */
  ghost predicate Owned(s: State, c: Config) {
    && (forall slot | slot in s.hostHeld :: slot < c.capacity)
    && (forall conn | conn in s.permits :: s.permits[conn] in s.hostHeld)
    && (forall x, y | x in s.permits && y in s.permits && x != y :: s.permits[x] != s.permits[y])
    && (forall t | t in s.tasks && IsPermitted(s.tasks[t]) :: s.tasks[t].slot in s.hostHeld && s.tasks[t].slot !in s.permits.Values)
    && (forall t, u | t in s.tasks && u in s.tasks && t != u && IsPermitted(s.tasks[t]) && IsPermitted(s.tasks[u]) ::
          s.tasks[t].slot != s.tasks[u].slot)
  }

  /** Every permit taken is recorded for a connection, held by a connecting task, or returned. */
  ghost predicate PermitsCounted(s: State) {
    s.taken == s.returned + |s.permits| + |Members(s.tasks, IsPermitted)|
  }

  lemma OwnedAfterMove(s: State, c: Config, s': State, t: Task, pc: Pc)
    requires Owned(s, c) && s'.tasks == s.tasks[t := pc]
    requires IsPermitted(pc) ==> IsPermitted(PcOf(s.tasks, t)) && pc.slot == PcOf(s.tasks, t).slot
    requires s'.permits == s.permits && s'.hostHeld == s.hostHeld
    ensures Owned(s', c)
  {
    assert IsPermitted(PcOf(s.tasks, t)) ==> t in s.tasks;
    forall u | u in s'.tasks && u != t && IsPermitted(s'.tasks[u])
      ensures u in s.tasks && s'.tasks[u] == s.tasks[u]
    {
    }
  }

  lemma OwnedAfterReturn(s: State, c: Config, conn: Conn)
    requires Owned(s, c)
    ensures Owned(PermitReturned(s, conn), c)
  {
    var s' := PermitReturned(s, conn);
    if conn in s.permits {
      forall t | t in s'.tasks && IsPermitted(s'.tasks[t])
        ensures s'.tasks[t].slot in s'.hostHeld && s'.tasks[t].slot !in s'.permits.Values
      {
        assert s.tasks[t].slot !in s.permits.Values;
        assert s.permits[conn] in s.permits.Values;
        assert s'.permits.Values <= s.permits.Values;
      }
    }
  }

  lemma OwnedAfterTryPermit(s: State, c: Config, t: Task)
    requires Owned(s, c)
    ensures Owned(Next(s, c, TryPermit(t)), c)
  {
    var s' := Next(s, c, TryPermit(t));
    ReadBudget.FirstFreeMeaning(s.hostHeld, c.capacity, 0);
    var slot := ReadBudget.FirstFree(s.hostHeld, c.capacity, 0);
    if PcOf(s.tasks, t).Admitted? {
      if slot.None? {
        OwnedAfterMove(s, c, s', t, Failing);
      } else {
        assert slot.value !in s.permits.Values;
      }
    }
  }

  lemma OwnedAfterConnect(s: State, c: Config, t: Task)
    requires Owned(s, c) && Ready(s, t)
    ensures Owned(Next(s, c, ConnectSucceeds(t)), c)
  {
    var s' := Next(s, c, ConnectSucceeds(t));
    var pc := PcOf(s.tasks, t);
    if pc.Opened? {
      assert pc.conn in Held(pc) && pc.conn !in HeldRecorded(pc);
      assert t in s.tasks && pc.conn !in s.permits;
      assert forall x | x in s.permits :: s.permits[x] in s.permits.Values;
      assert s'.permits.Values <= s.permits.Values + {pc.slot};
    }
  }

  lemma OwnedAfterConnectFails(s: State, c: Config, t: Task)
    requires Owned(s, c)
    ensures Owned(Next(s, c, ConnectFails(t)), c)
  {
    var pc := PcOf(s.tasks, t);
    if IsPermitted(pc) {
      assert t in s.tasks;
      assert forall x | x in s.permits :: s.permits[x] in s.permits.Values;
    }
  }

  predicate IsLocal(a: Action) {
    a.Acquire? || a.RecordFailure? || a.FinishAcquire? || a.Rollback? || a.FinishRelease? || a.BeginClose? || a.DrainOne? ||
    a.FactoryReturns? || a.DiscardConnection?
  }

  /** A local step moves its task, which keeps its slot if it has one, and may then return one recorded permit. */
  lemma LocalStep(s: State, c: Config, a: Action) returns (moved: State, closed: Option<Conn>)
    requires IsLocal(a) && Next(s, c, a).tasks != s.tasks
    ensures var was, pc := PcOf(s.tasks, a.t), PcOf(moved.tasks, a.t);
            && moved.tasks == s.tasks[a.t := pc] && IsPermitted(pc) == IsPermitted(was)
            && (IsPermitted(pc) ==> pc.slot == was.slot)
    ensures moved.permits == s.permits && moved.hostHeld == s.hostHeld
    ensures moved.taken == s.taken && moved.returned == s.returned
    ensures Next(s, c, a) == if closed.None? then moved else PermitReturned(moved, closed.value)
  {
    var s', was := Next(s, c, a), PcOf(s.tasks, a.t);
    moved := s'.(permits := s.permits, hostHeld := s.hostHeld, returned := s.returned);
    closed := None;
    match a {
      case FinishAcquire(t) =>
        if !Finish(s.fields, was.conn, was.Connected?).1 {
          closed := Some(was.conn);
        }
      case FinishRelease(t) =>
        if !Return(s.fields, was.conn, was.reusable).1 {
          closed := Some(was.conn);
        }
      case DrainOne(t) =>
        if was.conns != [] {
          closed := Some(was.conns[0]);
        }
      case _ =>
    }
  }

  lemma OwnedAfterLocal(s: State, c: Config, a: Action)
    requires Owned(s, c) && IsLocal(a) && Next(s, c, a).tasks != s.tasks
    ensures Owned(Next(s, c, a), c)
  {
    var moved, closed := LocalStep(s, c, a);
    OwnedAfterMove(s, c, moved, a.t, PcOf(moved.tasks, a.t));
    if closed.Some? {
      OwnedAfterReturn(moved, c, closed.value);
    }
  }

  /** A local step that moves no task leaves permits and slots alone. */
  lemma LocalStutter(s: State, c: Config, a: Action)
    requires IsLocal(a) && Next(s, c, a).tasks == s.tasks
    ensures var s' := Next(s, c, a);
            s'.permits == s.permits && s'.hostHeld == s.hostHeld && s'.taken == s.taken && s'.returned == s.returned
  {
  }

  lemma OwnedKept(s: State, c: Config, a: Action)
    requires Owned(s, c) && Places(s)
    ensures Owned(Next(s, c, a), c)
  {
    match a {
      case TryPermit(t) => OwnedAfterTryPermit(s, c, t);
      case ConnectSucceeds(t) =>
        PlacesAreReady(s, t);
        OwnedAfterConnect(s, c, t);
      case ConnectFails(t) => OwnedAfterConnectFails(s, c, t);
      case OtherProcessLocks(_) => OwnedAfterOthers(s, c, a);
      case OtherProcessUnlocks(_) => OwnedAfterOthers(s, c, a);
      case _ => OwnedAfterLocalOrNone(s, c, a);
    }
  }

  lemma OwnedAfterOthers(s: State, c: Config, a: Action)
    requires Owned(s, c) && (a.OtherProcessLocks? || a.OtherProcessUnlocks?)
    ensures Owned(Next(s, c, a), c)
  {
  }

  lemma OwnedAfterLocalOrNone(s: State, c: Config, a: Action)
    requires Owned(s, c) && IsLocal(a)
    ensures Owned(Next(s, c, a), c)
  {
    if Next(s, c, a).tasks == s.tasks {
      LocalStutter(s, c, a);
    } else {
      OwnedAfterLocal(s, c, a);
    }
  }

  lemma CountedAfterReturn(s: State, conn: Conn)
    requires PermitsCounted(s)
    ensures PermitsCounted(PermitReturned(s, conn))
  {
    if conn in s.permits {
      assert (s.permits - {conn}).Keys == s.permits.Keys - {conn};
      assert |(s.permits - {conn}).Keys| == |s.permits.Keys| - 1;
    }
  }

  lemma CountedAfterMove(s: State, s': State, t: Task, pc: Pc)
    requires PermitsCounted(s) && s'.tasks == s.tasks[t := pc]
    requires s'.taken - s'.returned - |s'.permits| - One(IsPermitted(pc)) ==
             s.taken - s.returned - |s.permits| - One(IsPermitted(PcOf(s.tasks, t)))
    ensures PermitsCounted(s')
  {
    MembersMove(s.tasks, t, PcOf(s.tasks, t), pc, IsPermitted);
  }

  lemma PermitRecorded(permits: map<Conn, Slot>, conn: Conn, slot: Slot)
    requires conn !in permits
    ensures |permits[conn := slot]| == |permits| + 1
  {
    assert permits[conn := slot].Keys == permits.Keys + {conn};
    assert |permits.Keys + {conn}| == |permits.Keys| + 1;
  }

  lemma CountedAfterConnect(s: State, c: Config, a: Action)
    requires PermitsCounted(s) && (a.ConnectSucceeds? ==> Ready(s, a.t))
    requires a.TryPermit? || a.ConnectSucceeds? || a.ConnectFails?
    ensures PermitsCounted(Next(s, c, a))
  {
    var s' := Next(s, c, a);
    if s'.tasks != s.tasks {
      if a.ConnectSucceeds? {
        var pc := PcOf(s.tasks, a.t);
        assert pc.conn in Held(pc) && pc.conn !in HeldRecorded(pc);
        PermitRecorded(s.permits, pc.conn, pc.slot);
      }
      CountedAfterMove(s, s', a.t, PcOf(s'.tasks, a.t));
    }
  }

  lemma CountedAfterLocal(s: State, c: Config, a: Action)
    requires PermitsCounted(s) && IsLocal(a) && Next(s, c, a).tasks != s.tasks
    ensures PermitsCounted(Next(s, c, a))
  {
    var moved, closed := LocalStep(s, c, a);
    CountedAfterMove(s, moved, a.t, PcOf(moved.tasks, a.t));
    if closed.Some? {
      CountedAfterReturn(moved, closed.value);
    }
  }

  lemma PermitsCountedKept(s: State, c: Config, a: Action)
    requires PermitsCounted(s) && Places(s)
    ensures PermitsCounted(Next(s, c, a))
  {
    match a {
      case TryPermit(_) => CountedAfterConnect(s, c, a);
      case ConnectSucceeds(t) =>
        PlacesAreReady(s, t);
        CountedAfterConnect(s, c, a);
      case ConnectFails(_) => CountedAfterConnect(s, c, a);
      case OtherProcessLocks(_) =>
      case OtherProcessUnlocks(_) =>
      case _ =>
        if Next(s, c, a).tasks == s.tasks {
          LocalStutter(s, c, a);
        } else {
          CountedAfterLocal(s, c, a);
        }
    }
  }

  // ----- every run -----

  ghost predicate Sound(s: State, c: Config) {
    CountAgrees(s, c) && Places(s) && Owned(s, c) && PermitsCounted(s)
  }

  lemma StartIsSound(c: Config)
    ensures Sound(START, c)
  {
    assert Members(START.tasks, IsCreating) == {} && Members(START.tasks, IsCarrying) == {} && Members(START.tasks, IsPermitted) == {};
    assert Places(START);
    assert Owned(START, c);
  }

  /** Every reachable state, whatever the interleaving of tasks and of other processes' permits. */
  lemma {:induction false} EveryRunIsSound(c: Config, actions: seq<Action>)
    ensures Sound(Run(c, actions), c)
  {
    if actions == [] {
      StartIsSound(c);
    } else {
      var before, a := Run(c, actions[..|actions| - 1]), actions[|actions| - 1];
      EveryRunIsSound(c, actions[..|actions| - 1]);
      CountKept(before, c, a);
      PlacesKept(before, c, a);
      OwnedKept(before, c, a);
      PermitsCountedKept(before, c, a);
    }
  }

  lemma BoundedSet(slots: set<nat>, n: nat)
    requires forall slot | slot in slots :: slot < n
    ensures |slots| <= n
  {
    if n == 0 {
      assert slots == {};
    } else {
      BoundedSet(slots - {n - 1}, n - 1);
      assert |slots - {n - 1}| >= |slots| - 1;
    }
  }

  /** The pool is within its size, the host within its capacity, and one connect is in flight at most. */
  lemma EveryRunIsBounded(c: Config, actions: seq<Action>)
    ensures var s := Run(c, actions);
            && s.fields.count == |s.fields.idle| + |Members(s.tasks, IsCarrying)| + |Members(s.tasks, IsCreating)| <= c.maxSize
            && |Members(s.tasks, IsCreating)| <= 1
            && |s.hostHeld| <= c.capacity
  {
    EveryRunIsSound(c, actions);
    BoundedSet(Run(c, actions).hostHeld, c.capacity);
  }

  /**
    Every open connection owns a locked slot, recorded or held by the task that is setting it up, and
    no two recorded ones share one. The only exception is a connection whose set-up failed: its task
    has given back the slot and is about to close it, and there is at most one such connection.
  */
  lemma EveryOpenConnectionOwnsAPermit(c: Config, actions: seq<Action>, x: Conn, y: Conn)
    ensures var s := Run(c, actions);
            x in s.live ==>
              || (x in s.permits && s.permits[x] in s.hostHeld && s.permits[x] < c.capacity)
              || (exists t | t in s.tasks :: s.tasks[t].Opened? && s.tasks[t].conn == x && s.tasks[t].slot in s.hostHeld)
              || (exists t | t in s.tasks :: s.tasks[t] == Discarding(x))
    ensures var s := Run(c, actions);
            x in s.permits && y in s.permits && x != y ==> s.permits[x] != s.permits[y]
    ensures var s := Run(c, actions);
            (exists t | t in s.tasks :: s.tasks[t] == Discarding(x)) && (exists u | u in s.tasks :: s.tasks[u] == Discarding(y)) ==> x == y
  {
    EveryRunIsSound(c, actions);
    var s := Run(c, actions);
    if x in s.live && x !in s.permits {
      OpenHasPermit(s, x);
    }
    if (exists t | t in s.tasks :: s.tasks[t] == Discarding(x)) && (exists u | u in s.tasks :: s.tasks[u] == Discarding(y)) {
      var t :| t in s.tasks && s.tasks[t] == Discarding(x);
      var u :| u in s.tasks && s.tasks[u] == Discarding(y);
      OneConnectAtATime(s, c, t, u);
    }
  }

  lemma OpenHasPermit(s: State, x: Conn)
    requires Places(s) && x in s.live && x !in s.permits
    ensures exists t | t in s.tasks :: s.tasks[t] == Discarding(x) || (s.tasks[t].Opened? && s.tasks[t].conn == x)
  {
    assert x !in Elements(s.fields.idle);
    var t :| t in s.tasks && x in HeldOpen(s.tasks[t]);
    assert x !in HeldRecorded(s.tasks[t]);
  }

  /** Once close has run and every task is done, nothing is counted, open, leased, recorded or held. */
  lemma NothingIsLeftBehind(c: Config, actions: seq<Action>)
    requires Run(c, actions).fields.closed
    requires forall t | t in Run(c, actions).tasks :: Run(c, actions).tasks[t].Outside?
    ensures var s := Run(c, actions);
            s.fields.count == 0 && s.fields.idle == [] && s.fields.leases == {} && s.live == {} && s.permits == map[] &&
            s.taken == s.returned && !s.fields.connecting
  {
    var s := Run(c, actions);
    EveryRunIsSound(c, actions);
    assert Members(s.tasks, IsCarrying) == {} && Members(s.tasks, IsCreating) == {} && Members(s.tasks, IsPermitted) == {};
    assert Elements(s.fields.idle) == {};
    assert s.permits.Keys == {};
    assert s.permits == map[];
    assert s.live == {};
    assert s.fields.leases == {};
  }

  // ----- the circuit breaker -----

  /** The last of the actions fails a connect, or completes one. */
  ghost predicate IsFailure(c: Config, actions: seq<Action>)
    requires actions != []
  {
    var before, a := Run(c, actions[..|actions| - 1]), actions[|actions| - 1];
    a.RecordFailure? && PcOf(before.tasks, a.t).Failing?
  }

  ghost predicate IsSuccess(c: Config, actions: seq<Action>)
    requires actions != []
  {
    var before, a := Run(c, actions[..|actions| - 1]), actions[|actions| - 1];
    a.FinishAcquire? && PcOf(before.tasks, a.t).Connected?
  }

  /** Failed connects of the run since its last successful one. */
  ghost function FailedSince(c: Config, actions: seq<Action>): nat {
    if actions == [] || IsSuccess(c, actions) then 0
    else FailedSince(c, actions[..|actions| - 1]) + One(IsFailure(c, actions))
  }

  /** When the last connect of the run failed. */
  ghost function LastFailure(c: Config, actions: seq<Action>): int {
    if actions == [] then 0
    else if IsFailure(c, actions) then actions[|actions| - 1].now
    else LastFailure(c, actions[..|actions| - 1])
  }

  function Delay(failures: nat): int {
    if failures == 1 then 5 else if failures == 2 then 10 else if failures == 3 then 20 else if failures == 4 then 40 else 60
  }

  /**
    In every run the circuit is open for 5, 10, 20, 40 and then always 60 seconds from the last failed
    connect, as there were one, two or more since the last success, and closed when there was none.
  */
  lemma {:induction false} BreakerInEveryRun(c: Config, actions: seq<Action>)
    ensures var f, n := Run(c, actions).fields, FailedSince(c, actions);
            && f.failures == (if n < 5 then n else 5)
            && f.retryAt == if n == 0 then 0 else LastFailure(c, actions) + Delay(n)
  {
    if actions != [] {
      BreakerInEveryRun(c, actions[..|actions| - 1]);
      BreakerStep(Run(c, actions[..|actions| - 1]), c, actions[|actions| - 1]);
      DelayIsBackoff();
    }
  }

  lemma DelayIsBackoff()
    ensures forall n: nat | n > 0 :: Backoff(if n < 5 then n else 5) == Delay(n)
  {
    assert Doubled(1) == 5 && Doubled(2) == 10 && Doubled(3) == 20 && Doubled(4) == 40 && Doubled(5) == 80;
  }

  /** Only a failed connect and a successful one move the breaker. */
  lemma BreakerStep(s: State, c: Config, a: Action)
    ensures var f, f' := s.fields, Next(s, c, a).fields;
            if a.RecordFailure? && PcOf(s.tasks, a.t).Failing? then
              && f'.failures == (if f.failures + 1 < 5 then f.failures + 1 else 5)
              && f'.retryAt == a.now + Backoff(f'.failures)
            else if a.FinishAcquire? && PcOf(s.tasks, a.t).Connected? then f'.failures == 0 && f'.retryAt == 0
            else f'.failures == f.failures && f'.retryAt == f.retryAt
  {
  }

  /** While the circuit is open no task is let in to connect. */
  lemma OpenCircuitHoldsBack(c: Config, actions: seq<Action>, t: Task, now: int)
    requires FailedSince(c, actions) > 0 && now < LastFailure(c, actions) + Delay(FailedSince(c, actions))
    ensures var s := Run(c, actions); var s' := Next(s, c, Acquire(t, now));
            Members(s'.tasks, IsCreating) == Members(s.tasks, IsCreating) && s'.fields.count == s.fields.count
  {
    BreakerInEveryRun(c, actions);
    var s := Run(c, actions);
    var s' := Next(s, c, Acquire(t, now));
    if s'.tasks != s.tasks {
      assert PcOf(s'.tasks, t).HandedOver?;
    }
  }

  /**
    Once that time has passed, or when nothing failed since the last success, an acquire begins a
    connect if the pool is open, no connection is idle, a place is free and no connect is in flight.
  */
  lemma ClosedCircuitConnects(c: Config, actions: seq<Action>, t: Task, now: int)
    requires var s := Run(c, actions);
             && !s.fields.closed && s.fields.idle == [] && s.fields.count < c.maxSize
             && PcOf(s.tasks, t).Outside? && forall u | u in s.tasks :: !IsCreating(s.tasks[u])
    requires 0 <= now && (FailedSince(c, actions) > 0 ==> LastFailure(c, actions) + Delay(FailedSince(c, actions)) <= now)
    ensures var s := Run(c, actions); var s' := Next(s, c, Acquire(t, now));
            PcOf(s'.tasks, t).Admitted? && s'.fields.count == s.fields.count + 1 && s'.fields.connecting
  {
    var s := Run(c, actions);
    BreakerInEveryRun(c, actions);
    EveryRunIsSound(c, actions);
    NoneCreating(s, c);
    AcquireBegins(s, c, t, now);
  }

  lemma NoneCreating(s: State, c: Config)
    requires CountAgrees(s, c) && forall u | u in s.tasks :: !IsCreating(s.tasks[u])
    ensures !s.fields.connecting
  {
    assert Members(s.tasks, IsCreating) == {};
  }

  lemma AcquireBegins(s: State, c: Config, t: Task, now: int)
    requires !s.fields.closed && s.fields.idle == [] && s.fields.count < c.maxSize && !s.fields.connecting
    requires s.fields.retryAt <= now && PcOf(s.tasks, t).Outside?
    ensures Next(s, c, Acquire(t, now)) ==
            s.(fields := s.fields.(count := s.fields.count + 1, connecting := true), tasks := s.tasks[t := Admitted])
  {
  }

  // ----- the idle queue and closing -----

  /** The connections that k acquires in a row are handed, while the queue lasts. */
  function Reused(f: Fields, c: Config, now: int, k: nat): seq<Conn>
    requires !f.closed && k <= |f.idle|
    decreases k
  {
    if k == 0 then []
    else
      var (g, verdict) := Admission(f, c, now);
      [verdict.conn] + Reused(g, c, now, k - 1)
  }

  lemma {:induction false} ReusedInOrder(f: Fields, c: Config, now: int, k: nat)
    requires !f.closed && k <= |f.idle|
    ensures Reused(f, c, now, k) == f.idle[..k]
    decreases k
  {
    if k > 0 {
      ReusedInOrder(Admission(f, c, now).0, c, now, k - 1);
      assert f.idle[..k] == [f.idle[0]] + f.idle[1..][..k - 1];
    }
  }

  /** The connection idle longest is reused first, and one just released is reused last. */
  lemma ReleasedIsReusedLast(f: Fields, c: Config, conn: Conn, now: int)
    requires !f.closed
    ensures Reused(Return(f, conn, true).0, c, now, |f.idle| + 1) == f.idle + [conn]
  {
    ReusedInOrder(Return(f, conn, true).0, c, now, |f.idle| + 1);
  }

  /** A closed pool stays closed, and no step makes a lease or starts a connect. */
  lemma ClosedPoolGrantsNothing(s: State, c: Config, a: Action, t: Task)
    requires CountAgrees(s, c) && s.fields.closed
    ensures var s' := Next(s, c, a);
            && s'.fields.closed && s'.fields.count <= s.fields.count
            && (PcOf(s'.tasks, t).Leased? ==> PcOf(s.tasks, t).Leased?)
            && (PcOf(s'.tasks, t).Admitted? ==> PcOf(s.tasks, t).Admitted?)
  {
    if a.BeginClose? {
      assert s.fields.idle == [];
    }
  }

  /** From closing on, whatever the tasks do, only leases that were already there remain. */
  lemma {:induction false} NoLeaseAfterClose(c: Config, actions: seq<Action>, n: nat, t: Task)
    requires n <= |actions| && Run(c, actions[..n]).fields.closed
    ensures Run(c, actions).fields.closed
    ensures PcOf(Run(c, actions).tasks, t).Leased? ==> PcOf(Run(c, actions[..n]).tasks, t).Leased?
    decreases |actions|
  {
    if n == |actions| {
      assert actions[..n] == actions;
    } else {
      var before := actions[..|actions| - 1];
      assert before[..n] == actions[..n];
      NoLeaseAfterClose(c, before, n, t);
      EveryRunIsSound(c, before);
      ClosedPoolGrantsNothing(Run(c, before), c, actions[|actions| - 1], t);
    }
  }
}

/**
  What the connection pool's steps achieve when nothing stands in their way: an acquire ends in a lease,
  a release in an idle connection or in none, a failed connect in a place and a permit given back.
*/
module PoolProgress {
  import opened TaskSets
  import opened ConnectionPool
  import ReadBudget

  // ----- acquiring -----

  /** A connect may begin: the pool is open, nothing is idle or connecting, a place and the circuit are free. */
  predicate MayConnect(s: State, c: Config, t: Task, now: int) {
    && !s.fields.closed && s.fields.idle == [] && s.fields.count < c.maxSize && !s.fields.connecting
    && s.fields.retryAt <= now && PcOf(s.tasks, t).Outside?
  }

  /** The host slot a permit would take: the lowest that is not locked. */
  predicate IsLowestFree(slot: Slot, held: set<Slot>, capacity: nat) {
    slot < capacity && slot !in held && forall i | 0 <= i < slot :: i in held
  }

  lemma PermitIsLowestFree(s: State, c: Config, t: Task, slot: Slot)
    requires PcOf(s.tasks, t).Admitted? && IsLowestFree(slot, s.hostHeld, c.capacity)
    ensures Next(s, c, TryPermit(t)) ==
            s.(tasks := s.tasks[t := Permitted(slot)], hostHeld := s.hostHeld + {slot}, taken := s.taken + 1)
  {
    ReadBudget.FirstFreeMeaning(s.hostHeld, c.capacity, 0);
  }

  lemma NoSlotFails(s: State, c: Config, t: Task)
    requires PcOf(s.tasks, t).Admitted? && forall i | 0 <= i < c.capacity :: i in s.hostHeld
    ensures Next(s, c, TryPermit(t)) == s.(tasks := s.tasks[t := Failing])
  {
    ReadBudget.FirstFreeMeaning(s.hostHeld, c.capacity, 0);
  }

  /** From admission to the connection whose permit is recorded. */
  lemma ConnectRecords(s: State, c: Config, t: Task, slot: Slot, conn: Conn)
    requires PcOf(s.tasks, t).Admitted? && IsLowestFree(slot, s.hostHeld, c.capacity) && conn !in s.known
    ensures var s' := Next(Next(Next(s, c, TryPermit(t)), c, FactoryReturns(t, conn)), c, ConnectSucceeds(t));
            s' == s.(tasks := s.tasks[t := Connected(conn)], permits := s.permits[conn := slot], hostHeld := s.hostHeld + {slot},
                     live := s.live + {conn}, known := s.known + {conn}, taken := s.taken + 1)
  {
    PermitIsLowestFree(s, c, t, slot);
    var s1 := Next(s, c, TryPermit(t));
    var s2 := Next(s1, c, FactoryReturns(t, conn));
    assert s2.tasks == s.tasks[t := Opened(slot, conn)];
  }

  /** A created or handed connection becomes a lease of an open pool. */
  lemma FinishLeases(s: State, c: Config, t: Task)
    requires (PcOf(s.tasks, t).Connected? || PcOf(s.tasks, t).HandedOver?) && !s.fields.closed
    ensures var pc, s' := PcOf(s.tasks, t), Next(s, c, FinishAcquire(t));
            && PcOf(s'.tasks, t) == Leased(pc.conn) && s'.fields.leases == s.fields.leases + {pc.conn}
            && s'.fields.count == s.fields.count && s'.fields.idle == s.fields.idle
            && s'.live == s.live && s'.permits == s.permits && s'.hostHeld == s.hostHeld
            && (pc.Connected? ==> !s'.fields.connecting && s'.fields.failures == 0 && s'.fields.retryAt == 0)
  {
  }

  /** An acquire that may connect ends in a lease of the new connection, one more counted, with the lowest free slot. */
  lemma AcquireEndsInALease(s: State, c: Config, t: Task, now: int, slot: Slot, conn: Conn)
    requires MayConnect(s, c, t, now) && IsLowestFree(slot, s.hostHeld, c.capacity) && conn !in s.known
    ensures var admitted := Next(s, c, Acquire(t, now));
            var connected := Next(Next(Next(admitted, c, TryPermit(t)), c, FactoryReturns(t, conn)), c, ConnectSucceeds(t));
            var s' := Next(connected, c, FinishAcquire(t));
            && PcOf(s'.tasks, t) == Leased(conn) && s'.fields.leases == s.fields.leases + {conn}
            && s'.fields.count == s.fields.count + 1 && !s'.fields.connecting && s'.fields.retryAt == 0
            && s'.live == s.live + {conn} && s'.permits == s.permits[conn := slot] && s'.hostHeld == s.hostHeld + {slot}
  {
    var admitted := Next(s, c, Acquire(t, now));
    assert admitted == s.(fields := s.fields.(count := s.fields.count + 1, connecting := true), tasks := s.tasks[t := Admitted]);
    ConnectRecords(admitted, c, t, slot, conn);
    var connected := Next(Next(Next(admitted, c, TryPermit(t)), c, FactoryReturns(t, conn)), c, ConnectSucceeds(t));
    FinishLeases(connected, c, t);
  }

  /** An acquire of an open pool with idle connections ends in a lease of the one idle longest. */
  lemma ReuseEndsInALease(s: State, c: Config, t: Task, now: int)
    requires !s.fields.closed && s.fields.idle != [] && PcOf(s.tasks, t).Outside?
    ensures var s' := Next(Next(s, c, Acquire(t, now)), c, FinishAcquire(t));
            && PcOf(s'.tasks, t) == Leased(s.fields.idle[0]) && s'.fields.idle == s.fields.idle[1..]
            && s'.fields.leases == s.fields.leases + {s.fields.idle[0]} && s'.fields.count == s.fields.count
            && s'.live == s.live && s'.permits == s.permits
  {
    FinishLeases(Next(s, c, Acquire(t, now)), c, t);
  }

  // ----- failing -----

  /** A connect that fails before or after the connection opened gives back the slot and the place. */
  lemma FailureGivesBack(s: State, c: Config, t: Task, now: int)
    requires IsPermitted(PcOf(s.tasks, t))
    ensures var pc, failed := PcOf(s.tasks, t), Next(s, c, ConnectFails(t));
            var closed := if pc.Opened? then Next(failed, c, DiscardConnection(t)) else failed;
            var s' := Next(closed, c, RecordFailure(t, now));
            && PcOf(s'.tasks, t).Outside? && s'.hostHeld == s.hostHeld - {pc.slot} && s'.permits == s.permits
            && s'.live == (if pc.Opened? then s.live - {pc.conn} else s.live)
            && s'.fields.count == s.fields.count - 1 && !s'.fields.connecting && now < s'.fields.retryAt
  {
    var pc, failed := PcOf(s.tasks, t), Next(s, c, ConnectFails(t));
    if pc.Opened? {
      assert failed.tasks == s.tasks[t := Discarding(pc.conn)];
      var closed := Next(failed, c, DiscardConnection(t));
      assert closed.tasks == failed.tasks[t := Failing];
      FailureIsRecorded(closed, c, t, now);
    } else {
      assert failed.tasks == s.tasks[t := Failing];
      FailureIsRecorded(failed, c, t, now);
    }
  }

  lemma FailureIsRecorded(s: State, c: Config, t: Task, now: int)
    requires PcOf(s.tasks, t).Failing?
    ensures var s' := Next(s, c, RecordFailure(t, now));
            && PcOf(s'.tasks, t).Outside? && s'.hostHeld == s.hostHeld && s'.permits == s.permits && s'.live == s.live
            && s'.fields.count == s.fields.count - 1 && !s'.fields.connecting && now < s'.fields.retryAt
  {
  }

  // ----- releasing and closing -----

  /** A lease whose rollback works comes back idle, last in the queue, while the pool is open. */
  lemma ReleaseEndsIdle(s: State, c: Config, t: Task)
    requires PcOf(s.tasks, t).Leased? && !s.fields.closed
    ensures var conn, s' := PcOf(s.tasks, t).conn, Next(Next(s, c, Rollback(t, true)), c, FinishRelease(t));
            && PcOf(s'.tasks, t).Outside? && s'.fields.idle == s.fields.idle + [conn] && s'.fields.leases == s.fields.leases - {conn}
            && s'.fields.count == s.fields.count && s'.live == s.live && s'.permits == s.permits && s'.hostHeld == s.hostHeld
  {
  }

  /** One whose rollback fails, or that comes back to a closed pool, is closed and gives back its slot. */
  lemma ReleaseEndsClosed(s: State, c: Config, t: Task, works: bool)
    requires PcOf(s.tasks, t).Leased? && PcOf(s.tasks, t).conn in s.permits && (!works || s.fields.closed)
    ensures var conn, s' := PcOf(s.tasks, t).conn, Next(Next(s, c, Rollback(t, works)), c, FinishRelease(t));
            && PcOf(s'.tasks, t).Outside? && s'.fields.idle == s.fields.idle && s'.fields.leases == s.fields.leases - {conn}
            && s'.fields.count == s.fields.count - 1 && s'.live == s.live - {conn}
            && s'.permits == s.permits - {conn} && s'.hostHeld == s.hostHeld - {s.permits[conn]}
  {
  }

  /** A connection that was not a lease yet when the pool closed is closed and gives back its slot. */
  lemma AcquireOfClosedPool(s: State, c: Config, t: Task)
    requires (PcOf(s.tasks, t).Connected? || PcOf(s.tasks, t).HandedOver?) && PcOf(s.tasks, t).conn in s.permits && s.fields.closed
    ensures var conn, s' := PcOf(s.tasks, t).conn, Next(s, c, FinishAcquire(t));
            && PcOf(s'.tasks, t).Outside? && s'.fields.leases == s.fields.leases && s'.fields.count == s.fields.count - 1
            && s'.live == s.live - {conn} && s'.permits == s.permits - {conn} && s'.hostHeld == s.hostHeld - {s.permits[conn]}
  {
  }

  /** So many steps of a task that drains what close has taken out. */
  ghost function DrainSteps(s: State, c: Config, t: Task, n: nat): State
    decreases n
  {
    if n == 0 then s else DrainSteps(Next(s, c, DrainOne(t)), c, t, n - 1)
  }

  /** Closing ends: every connection that was idle is closed and its slot given back. */
  lemma {:induction false} DrainEnds(s: State, c: Config, t: Task)
    requires PcOf(s.tasks, t).Draining?
    ensures var conns := PcOf(s.tasks, t).conns;
            var s' := DrainSteps(s, c, t, |conns| + 1);
            && PcOf(s'.tasks, t).Outside? && (forall x | x in conns :: x !in s'.live && x !in s'.permits)
            && s'.live <= s.live && s'.permits.Keys <= s.permits.Keys && s'.fields == s.fields
    decreases |PcOf(s.tasks, t).conns|
  {
    var conns, next := PcOf(s.tasks, t).conns, Next(s, c, DrainOne(t));
    if conns == [] {
      assert DrainSteps(next, c, t, 0) == next;
    } else {
      assert PcOf(next.tasks, t) == Draining(conns[1..]);
      DrainEnds(next, c, t);
      assert forall x | x in conns :: x == conns[0] || x in conns[1..];
    }
  }

  lemma CloseTakesIdle(s: State, c: Config, t: Task)
    requires PcOf(s.tasks, t).Outside?
    ensures var s' := Next(s, c, BeginClose(t));
            PcOf(s'.tasks, t) == Draining(s.fields.idle) && s'.fields.closed && s'.fields.idle == []
  {
  }
}

/**
  What the steps of a snapshot refresh achieve when nothing stands in their way: an admitted task
  builds with a lease of 120 seconds, and its release gives back key and slot.
*/
module SnapshotProgress {
  import opened TaskSets
  import opened SnapshotAdmission
  import opened SnapshotProtocol

  /** A refresh that its process may run begins, with key and slot taken. */
  lemma AdmissionBegins(s: State, workers: nat, t: Task, p: Proc, key: Key, owner: Owner)
    requires PcOf(s, t).Outside? && owner !in s.used
    requires var l := LocalOf(s, workers, p); key !in l.refreshing && RetryOf(l.retryAt, key) <= s.now && l.free > 0
    ensures var l, s' := LocalOf(s, workers, p), Next(s, workers, Admit(t, p, key, owner));
            && PcOf(s', t) == Entered(p, key, owner) && s'.admitted == s.admitted + 1
            && LocalOf(s', workers, p) == l.(refreshing := l.refreshing + {key}, free := l.free - 1)
  {
  }

  /** When Redis answers and the key is not leased, or its lease is over, the task builds with a new lease. */
  lemma BuildBegins(s: State, workers: nat, t: Task, inThread: bool)
    requires PcOf(s, t).Entered? && (PcOf(s, t).key in s.leases ==> s.leases[PcOf(s, t).key].expires <= s.now)
    requires !inThread || !LocalOf(s, workers, PcOf(s, t).proc).stopped
    ensures var pc, s' := PcOf(s, t), Next(Next(s, workers, AskRedis(t, Answers)), workers, Begin(t, inThread));
            && PcOf(s', t) == Building(pc.proc, pc.key, pc.owner, true, s.now)
            && s'.leases == s.leases[pc.key := Lease(pc.owner, s.now + 120.0)]
  {
  }

  /** When Redis cannot be reached the task builds all the same, without a lease to release. */
  lemma BuildBeginsWithoutRedis(s: State, workers: nat, t: Task)
    requires PcOf(s, t).Entered?
    ensures var pc, s' := PcOf(s, t), Next(Next(s, workers, AskRedis(t, FailsBefore)), workers, Begin(t, false));
            PcOf(s', t) == Building(pc.proc, pc.key, pc.owner, false, s.now) && s'.leases == s.leases
  {
  }

  /** When another owner has the lease the task leaves without building. */
  lemma LeasedKeyIsLeft(s: State, workers: nat, t: Task)
    requires PcOf(s, t).Entered? && PcOf(s, t).key in s.leases && s.now < s.leases[PcOf(s, t).key].expires
    ensures var pc, s' := PcOf(s, t), Next(s, workers, AskRedis(t, Answers));
            PcOf(s', t) == Leaving(pc.proc, pc.key, false) && s'.leases == s.leases
  {
  }

  /** A refused thread ends the admission as failed. */
  lemma RefusedThreadFails(s: State, workers: nat, t: Task)
    requires PcOf(s, t).Admitted? && LocalOf(s, workers, PcOf(s, t).proc).stopped
    ensures var pc := PcOf(s, t);
            PcOf(Next(s, workers, Begin(t, true)), t) == Ending(pc.proc, pc.key, pc.owner, pc.client, pc.at, true)
  {
  }

  /** The end of a build tells Redis: the own lease goes after a success and stays 15 seconds after a failure. */
  lemma BuildEnds(s: State, workers: nat, t: Task, failed: bool)
    requires PcOf(s, t).Building? && PcOf(s, t).client && PcOf(s, t).key in s.leases
    requires s.now < s.leases[PcOf(s, t).key].expires && s.leases[PcOf(s, t).key].owner == PcOf(s, t).owner
    ensures var pc, s' := PcOf(s, t), Next(Next(s, workers, EndBuild(t, failed)), workers, TellRedis(t, Answers));
            && PcOf(s', t) == Leaving(pc.proc, pc.key, failed)
            && s'.leases == if failed then s.leases[pc.key := Lease(pc.owner, s.now + 15.0)] else s.leases - {pc.key}
  {
  }

  /** Leaving gives back the key and then the slot; the key cools down 15 seconds exactly after a failure. */
  lemma LeavingGivesBack(s: State, workers: nat, t: Task)
    requires PcOf(s, t).Leaving? && CooldownsFit(LocalOf(s, workers, PcOf(s, t).proc))
    ensures var pc := PcOf(s, t);
            var l := LocalOf(s, workers, pc.proc);
            var s' := Next(Next(s, workers, Forget(t)), workers, FreeSlot(t));
            var l' := LocalOf(s', workers, pc.proc);
            && PcOf(s', t).Outside? && s'.released == s.released + 1
            && l'.refreshing == l.refreshing - {pc.key} && l'.free == l.free + 1
            && RetryOf(l'.retryAt, pc.key) == if pc.failed then s.now + 15.0 else 0.0
  {
    var pc := PcOf(s, t);
    ForgetSetsCooldown(LocalOf(s, workers, pc.proc), pc.key, pc.failed, s.now);
  }

  /** A stopped process refuses threads from then on, others do not; and time passes for all. */
  lemma StoppingAndTime(s: State, workers: nat, p: Proc, q: Proc, seconds: real)
    requires seconds >= 0.0
    ensures LocalOf(Next(s, workers, Stop(p)), workers, p) == LocalOf(s, workers, p).(stopped := true)
    ensures q != p ==> LocalOf(Next(s, workers, Stop(p)), workers, q) == LocalOf(s, workers, q)
    ensures Next(s, workers, Pass(seconds)) == s.(now := s.now + seconds)
  {
  }
}

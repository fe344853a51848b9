/**
  Snapshot refreshes of several processes over one Redis (scripts/api/cache.py): every task moves
  through admission, build and release, and any other task may move between any two of its steps.
*/
module SnapshotProtocol {
  import opened TaskSets
  import opened SnapshotAdmission

  type Proc = nat

  /** Where a task is; at is when Redis granted its lease, if it has one. */
  datatype Pc =
    | Outside
    | Entered(proc: Proc, key: Key, owner: Owner)
    | Admitted(proc: Proc, key: Key, owner: Owner, client: bool, at: real)
    | Building(proc: Proc, key: Key, owner: Owner, client: bool, at: real)
    | Ending(proc: Proc, key: Key, owner: Owner, client: bool, at: real, failed: bool)
    | Leaving(proc: Proc, key: Key, failed: bool)
    | Freeing(proc: Proc)

  datatype State = State(now: real, locals: map<Proc, Local>, tasks: map<Task, Pc>, leases: map<Key, Lease>,
                         used: set<Owner>, admitted: nat, released: nat)

  const START := State(0.0, map[], map[], map[], {}, 0, 0)

  function PcOf(s: State, t: Task): Pc {
    if t in s.tasks then s.tasks[t] else Outside
  }

  function LocalOf(s: State, workers: nat, p: Proc): Local {
    if p in s.locals then s.locals[p] else Local({}, [], workers, false)
  }

  datatype Action =
    | Admit(t: Task, proc: Proc, key: Key, owner: Owner)
    | AskRedis(t: Task, reach: Reach)
    | Begin(t: Task, inThread: bool)
    | EndBuild(t: Task, failed: bool)
    | TellRedis(t: Task, reach: Reach)
    | Forget(t: Task)
    | FreeSlot(t: Task)
    | Stop(proc: Proc)
    | Pass(seconds: real)

  function Moved(s: State, t: Task, pc: Pc): State {
    s.(tasks := s.tasks[t := pc])
  }

  function Within(s: State, p: Proc, l: Local): State {
    s.(locals := s.locals[p := l])
  }

  function Asked(s: State, t: Task, pc: Pc, reach: Reach): State
    requires pc.Entered?
  {
    var (leased, isSet) := SetIfAbsent(s.leases, pc.key, pc.owner, s.now);
    var on := Moved(s, t, Admitted(pc.proc, pc.key, pc.owner, reach.Answers?, s.now));
    match reach
    case NoClient => on
    case FailsBefore => on
    case FailsAfter => on.(leases := leased)
    case Answers => if isSet then on.(leases := leased) else Moved(s, t, Leaving(pc.proc, pc.key, false))
  }

  function Told(s: State, t: Task, pc: Pc, reach: Reach): State
    requires pc.Ending?
  {
    var a := Admission(pc.key, pc.client, pc.owner);
    Moved(s, t, Leaving(pc.proc, pc.key, pc.failed)).(leases := AfterTelling(s.leases, a, pc.failed, s.now, reach))
  }

  /** One atomic step; an action that is not possible in the state changes nothing. */
  function Next(s: State, workers: nat, a: Action): State {
    match a
    case Admit(t, p, key, owner) =>
      var (l, ok) := LocalAdmit(LocalOf(s, workers, p), key, s.now);
      if !PcOf(s, t).Outside? || owner in s.used || !ok then s
      else Within(Moved(s, t, Entered(p, key, owner)), p, l).(used := s.used + {owner}, admitted := s.admitted + 1)
    case AskRedis(t, reach) =>
      var pc := PcOf(s, t);
      if pc.Entered? then Asked(s, t, pc, reach) else s
    case Begin(t, inThread) =>
      var pc := PcOf(s, t);
      if !pc.Admitted? then s
      else if inThread && LocalOf(s, workers, pc.proc).stopped then Moved(s, t, Ending(pc.proc, pc.key, pc.owner, pc.client, pc.at, true))
      else Moved(s, t, Building(pc.proc, pc.key, pc.owner, pc.client, pc.at))
    case EndBuild(t, failed) =>
      var pc := PcOf(s, t);
      if !pc.Building? then s else Moved(s, t, Ending(pc.proc, pc.key, pc.owner, pc.client, pc.at, failed))
    case TellRedis(t, reach) =>
      var pc := PcOf(s, t);
      if pc.Ending? then Told(s, t, pc, reach) else s
    case Forget(t) =>
      var pc := PcOf(s, t);
      if !pc.Leaving? then s
      else Within(Moved(s, t, Freeing(pc.proc)), pc.proc, LocalForget(LocalOf(s, workers, pc.proc), pc.key, pc.failed, s.now))
    case FreeSlot(t) =>
      var pc := PcOf(s, t);
      if !pc.Freeing? then s
      else Within(Moved(s, t, Outside), pc.proc, LocalFree(LocalOf(s, workers, pc.proc))).(released := s.released + 1)
    case Stop(p) => Within(s, p, LocalOf(s, workers, p).(stopped := true))
    case Pass(seconds) => if seconds < 0.0 then s else s.(now := s.now + seconds)
  }

  function RunFrom(s: State, workers: nat, actions: seq<Action>): State {
    if actions == [] then s else Next(RunFrom(s, workers, actions[..|actions| - 1]), workers, actions[|actions| - 1])
  }

  // ----- invariant 1: slots and keys -----

  predicate HoldsSlot(pc: Pc) {
    !pc.Outside?
  }

  predicate HoldsKey(pc: Pc) {
    !pc.Outside? && !pc.Freeing?
  }

  function KeyAt(p: Proc): Pc -> bool {
    (pc: Pc) => HoldsKey(pc) && pc.proc == p
  }

  function FreeingAt(p: Proc): Pc -> bool {
    (pc: Pc) => pc.Freeing? && pc.proc == p
  }

  /** Free slots, refreshing keys and releases between key and slot are the workers of the process. */
  ghost predicate SlotsOf(s: State, workers: nat, p: Proc) {
    var l := LocalOf(s, workers, p);
    && l.free + |l.refreshing| + |Members(s.tasks, FreeingAt(p))| == workers
    && |l.refreshing| == |Members(s.tasks, KeyAt(p))|
  }

  ghost predicate SlotsAgree(s: State, workers: nat) {
    && (forall p: Proc :: SlotsOf(s, workers, p))
    && s.admitted == s.released + |Members(s.tasks, HoldsSlot)|
  }

  /** Each key in use is refreshing, and no other task of the process uses it. */
  ghost predicate KeysAgree(s: State, workers: nat) {
    && (forall t | t in s.tasks && HoldsKey(s.tasks[t]) :: s.tasks[t].key in LocalOf(s, workers, s.tasks[t].proc).refreshing)
    && (forall t, u | t in s.tasks && u in s.tasks && t != u && HoldsKey(s.tasks[t]) && HoldsKey(s.tasks[u]) ::
          s.tasks[t].proc != s.tasks[u].proc || s.tasks[t].key != s.tasks[u].key)
  }

  predicate LocatedAt(pc: Pc, p: Proc) {
    pc.Outside? || pc.proc == p
  }

  /** The task moves within process p, and its slot and key move with it. */
  ghost predicate IsLocalMove(s: State, s': State, workers: nat, t: Task, p: Proc) {
    var was, pc := PcOf(s, t), PcOf(s', t);
    var l, l' := LocalOf(s, workers, p), LocalOf(s', workers, p);
    && s'.tasks == s.tasks[t := pc]
    && LocatedAt(was, p) && LocatedAt(pc, p)
    && (forall q: Proc | q != p :: LocalOf(s', workers, q) == LocalOf(s, workers, q))
    && l'.free + One(HoldsSlot(pc)) == l.free + One(HoldsSlot(was))
    && (HoldsKey(pc) ==> if HoldsKey(was) then was.key == pc.key else pc.key !in l.refreshing)
    && l'.refreshing == (if HoldsKey(pc) == HoldsKey(was) then l.refreshing
                         else if HoldsKey(pc) then l.refreshing + {pc.key} else l.refreshing - {was.key})
    && s'.admitted - s'.released - One(HoldsSlot(pc)) == s.admitted - s.released - One(HoldsSlot(was))
  }

  lemma MoveKeepsKeys(s: State, s': State, workers: nat, t: Task, p: Proc)
    requires KeysAgree(s, workers) && IsLocalMove(s, s', workers, t, p)
    ensures KeysAgree(s', workers)
  {
    var was, pc := PcOf(s, t), PcOf(s', t);
    forall u | u in s'.tasks && HoldsKey(s'.tasks[u])
      ensures s'.tasks[u].key in LocalOf(s', workers, s'.tasks[u].proc).refreshing
      ensures u != t && HoldsKey(pc) ==> s'.tasks[u].proc != pc.proc || s'.tasks[u].key != pc.key
    {
      if u != t {
        assert u in s.tasks && s'.tasks[u] == s.tasks[u];
        assert HoldsKey(was) ==> t in s.tasks;
      }
    }
  }

  lemma MoveKeepsSlots(s: State, s': State, workers: nat, t: Task, p: Proc)
    requires SlotsAgree(s, workers) && KeysAgree(s, workers) && IsLocalMove(s, s', workers, t, p)
    ensures SlotsAgree(s', workers)
  {
    var was, pc := PcOf(s, t), PcOf(s', t);
    MembersMove(s.tasks, t, was, pc, HoldsSlot);
    forall q: Proc
      ensures SlotsOf(s', workers, q)
    {
      MoveKeepsSlotsOf(s, s', workers, t, p, q);
    }
  }

  lemma MoveKeepsSlotsOf(s: State, s': State, workers: nat, t: Task, p: Proc, q: Proc)
    requires SlotsOf(s, workers, q) && KeysAgree(s, workers) && IsLocalMove(s, s', workers, t, p)
    ensures SlotsOf(s', workers, q)
  {
    var was, pc := PcOf(s, t), PcOf(s', t);
    MembersMove(s.tasks, t, was, pc, KeyAt(q));
    MembersMove(s.tasks, t, was, pc, FreeingAt(q));
    if q == p {
      MoveChangesKeys(s, s', workers, t, p);
    }
  }

  lemma MoveChangesKeys(s: State, s': State, workers: nat, t: Task, p: Proc)
    requires KeysAgree(s, workers) && IsLocalMove(s, s', workers, t, p)
    ensures |LocalOf(s', workers, p).refreshing| ==
            |LocalOf(s, workers, p).refreshing| + One(HoldsKey(PcOf(s', t))) - One(HoldsKey(PcOf(s, t)))
  {
    var was := PcOf(s, t);
    if HoldsKey(was) {
      assert was.key in LocalOf(s, workers, p).refreshing;
    }
  }

  lemma AdmitMoves(s: State, workers: nat, t: Task, p: Proc, key: Key, owner: Owner)
    ensures var s' := Next(s, workers, Admit(t, p, key, owner)); s' == s || IsLocalMove(s, s', workers, t, p)
  {
  }

  lemma StepMoves(s: State, workers: nat, a: Action)
    requires !a.Admit? && !a.Stop? && !a.Pass?
    ensures var s', was := Next(s, workers, a), PcOf(s, a.t); s' == s || (!was.Outside? && IsLocalMove(s, s', workers, a.t, was.proc))
  {
  }

  lemma SlotsKept(s: State, workers: nat, a: Action)
    requires SlotsAgree(s, workers) && KeysAgree(s, workers)
    ensures SlotsAgree(Next(s, workers, a), workers) && KeysAgree(Next(s, workers, a), workers)
  {
    var s' := Next(s, workers, a);
    if s' != s {
      if a.Stop? || a.Pass? {
        forall p: Proc
          ensures LocalOf(s', workers, p).(stopped := false) == LocalOf(s, workers, p).(stopped := false)
          ensures SlotsOf(s', workers, p)
        {
          assert SlotsOf(s, workers, p);
        }
      } else {
        var p := if a.Admit? then a.proc else PcOf(s, a.t).proc;
        if a.Admit? {
          AdmitMoves(s, workers, a.t, a.proc, a.key, a.owner);
        } else {
          StepMoves(s, workers, a);
        }
        MoveKeepsKeys(s, s', workers, a.t, p);
        MoveKeepsSlots(s, s', workers, a.t, p);
      }
    }
  }

  // ----- invariant 2: leases -----

  predicate HasOwner(pc: Pc) {
    pc.Entered? || HasAdmission(pc)
  }

  predicate HasAdmission(pc: Pc) {
    pc.Admitted? || pc.Building? || pc.Ending?
  }

  /** Admitted with an answer from Redis, no more than 120 seconds ago. */
  predicate WithinLease(pc: Pc, now: real) {
    HasAdmission(pc) && pc.client && now < pc.at + 120.0
  }

  ghost predicate LeasesAgree(s: State) {
    && (forall t | t in s.tasks && HasOwner(s.tasks[t]) :: s.tasks[t].owner in s.used)
    && (forall t, u | t in s.tasks && u in s.tasks && t != u && HasOwner(s.tasks[t]) && HasOwner(s.tasks[u]) ::
          s.tasks[t].owner != s.tasks[u].owner)
    && (forall t | t in s.tasks && WithinLease(s.tasks[t], s.now) ::
          s.tasks[t].key in s.leases && s.leases[s.tasks[t].key] == Lease(s.tasks[t].owner, s.tasks[t].at + LEASE_SECONDS))
  }

  /** A step of t changes the lease of its own key at most, and never one that belongs to another task. */
  ghost predicate IsLeaseMove(s: State, s': State, t: Task) {
    var was, pc := PcOf(s, t), PcOf(s', t);
    && s'.now == s.now && s.used <= s'.used && s'.tasks == s.tasks[t := pc]
    && (HasOwner(pc) ==> pc.owner in s'.used && if HasOwner(was) then pc.owner == was.owner else pc.owner !in s.used)
    && (forall k | k in s.leases && IsLeased(s.leases, k, s.now) && !(HasOwner(was) && s.leases[k].owner == was.owner) ::
          k in s'.leases && s'.leases[k] == s.leases[k])
    && (WithinLease(pc, s.now) ==> (pc.key in s'.leases && s'.leases[pc.key] == Lease(pc.owner, pc.at + LEASE_SECONDS)))
  }

  lemma MoveKeepsLeases(s: State, s': State, t: Task)
    requires LeasesAgree(s) && IsLeaseMove(s, s', t)
    ensures LeasesAgree(s')
  {
    var was := PcOf(s, t);
    forall u | u in s'.tasks && u != t
      ensures u in s.tasks && s'.tasks[u] == s.tasks[u]
      ensures HasOwner(s.tasks[u]) && HasOwner(was) ==> s.tasks[u].owner != was.owner
    {
      assert was != Outside ==> t in s.tasks;
    }
    forall u | u in s'.tasks && WithinLease(s'.tasks[u], s'.now)
      ensures s'.tasks[u].key in s'.leases && s'.leases[s'.tasks[u].key] == Lease(s'.tasks[u].owner, s'.tasks[u].at + LEASE_SECONDS)
    {
      if u != t {
        assert IsLeased(s.leases, s.tasks[u].key, s.now);
      }
    }
  }

  lemma AskMoves(s: State, workers: nat, t: Task, reach: Reach)
    ensures var s' := Next(s, workers, AskRedis(t, reach)); LeasesAgree(s) ==> s' == s || IsLeaseMove(s, s', t)
  {
    assert HasOwner(PcOf(s, t)) ==> t in s.tasks;
  }

  lemma TellMoves(s: State, workers: nat, t: Task, reach: Reach)
    ensures var s' := Next(s, workers, TellRedis(t, reach)); LeasesAgree(s) ==> s' == s || IsLeaseMove(s, s', t)
  {
  }

  lemma OtherMoves(s: State, workers: nat, a: Action)
    requires LeasesAgree(s) && !a.AskRedis? && !a.TellRedis? && !a.Stop? && !a.Pass?
    ensures var s' := Next(s, workers, a); s' == s || IsLeaseMove(s, s', a.t)
  {
    assert HasOwner(PcOf(s, a.t)) ==> a.t in s.tasks;
  }

  lemma LeasesKept(s: State, workers: nat, a: Action)
    requires LeasesAgree(s)
    ensures LeasesAgree(Next(s, workers, a))
  {
    var s' := Next(s, workers, a);
    if !a.Stop? && !a.Pass? && s' != s {
      if a.AskRedis? {
        AskMoves(s, workers, a.t, a.reach);
      } else if a.TellRedis? {
        TellMoves(s, workers, a.t, a.reach);
      } else {
        OtherMoves(s, workers, a);
      }
      MoveKeepsLeases(s, s', a.t);
    }
  }

  // ----- every run -----

  ghost predicate Sound(s: State, workers: nat) {
    SlotsAgree(s, workers) && KeysAgree(s, workers) && LeasesAgree(s)
  }

  lemma StartIsSound(workers: nat)
    ensures Sound(START, workers)
  {
    forall p: Proc
      ensures SlotsOf(START, workers, p)
    {
      assert Members(START.tasks, FreeingAt(p)) == {} && Members(START.tasks, KeyAt(p)) == {};
    }
    assert Members(START.tasks, HoldsSlot) == {};
  }

  lemma {:induction false} EveryRunIsSound(s: State, workers: nat, actions: seq<Action>)
    requires Sound(s, workers)
    ensures Sound(RunFrom(s, workers, actions), workers)
  {
    if actions != [] {
      var before, a := actions[..|actions| - 1], actions[|actions| - 1];
      EveryRunIsSound(s, workers, before);
      SlotsKept(RunFrom(s, workers, before), workers, a);
      LeasesKept(RunFrom(s, workers, before), workers, a);
    }
  }

  /** In every process of every reachable state: slots add up, and a key has one builder at most. */
  lemma SlotsAlwaysAddUp(workers: nat, actions: seq<Action>, p: Proc)
    ensures var s := RunFrom(START, workers, actions); var l := LocalOf(s, workers, p);
            l.free + |l.refreshing| + |Members(s.tasks, FreeingAt(p))| == workers
  {
    StartIsSound(workers);
    EveryRunIsSound(START, workers, actions);
    assert SlotsOf(RunFrom(START, workers, actions), workers, p);
  }

  lemma OneBuilderPerKeyAndProcess(workers: nat, actions: seq<Action>, t: Task, u: Task)
    requires var s := RunFrom(START, workers, actions); PcOf(s, t).Building? && PcOf(s, u).Building?
    requires var s := RunFrom(START, workers, actions); PcOf(s, t).key == PcOf(s, u).key && PcOf(s, t).proc == PcOf(s, u).proc
    ensures t == u
  {
    StartIsSound(workers);
    EveryRunIsSound(START, workers, actions);
    var s := RunFrom(START, workers, actions);
    assert t in s.tasks && u in s.tasks;
  }

  /** Each admission is released once: none is owed when every task is done, and all slots are back. */
  lemma EveryAdmissionIsReleasedOnce(workers: nat, actions: seq<Action>, p: Proc)
    requires forall t | t in RunFrom(START, workers, actions).tasks :: RunFrom(START, workers, actions).tasks[t].Outside?
    ensures var s := RunFrom(START, workers, actions); var l := LocalOf(s, workers, p);
            s.admitted == s.released && l.free == workers && l.refreshing == {}
  {
    StartIsSound(workers);
    EveryRunIsSound(START, workers, actions);
    var s := RunFrom(START, workers, actions);
    assert SlotsOf(s, workers, p);
    assert Members(s.tasks, FreeingAt(p)) == {} && Members(s.tasks, KeyAt(p)) == {} && Members(s.tasks, HoldsSlot) == {};
  }

  /** Two builders of one key, both admitted by Redis, in any processes: one has outlived its lease. */
  lemma BuildersExcludeEachOther(workers: nat, actions: seq<Action>, t: Task, u: Task)
    requires var s := RunFrom(START, workers, actions);
             t != u && PcOf(s, t).Building? && PcOf(s, u).Building? && PcOf(s, t).client && PcOf(s, u).client &&
             PcOf(s, t).key == PcOf(s, u).key
    ensures var s := RunFrom(START, workers, actions);
            PcOf(s, t).at + 120.0 <= s.now || PcOf(s, u).at + 120.0 <= s.now
  {
    StartIsSound(workers);
    EveryRunIsSound(START, workers, actions);
    var s := RunFrom(START, workers, actions);
    assert t in s.tasks && u in s.tasks && HasOwner(s.tasks[t]) && HasOwner(s.tasks[u]);
  }

  // ----- the distributed cooldown -----

  /** The key carries a lease that no task can release any more. */
  ghost predicate Orphaned(s: State, key: Key, lease: Lease) {
    && key in s.leases && s.leases[key] == lease && lease.owner in s.used
    && forall t | t in s.tasks && HasOwner(s.tasks[t]) :: s.tasks[t].owner != lease.owner
  }

  lemma OrphanStays(s: State, workers: nat, a: Action, key: Key, lease: Lease)
    requires Orphaned(s, key, lease) && s.now < lease.expires
    ensures Orphaned(Next(s, workers, a), key, lease)
  {
    var s' := Next(s, workers, a);
    assert !a.Stop? && !a.Pass? && HasOwner(PcOf(s, a.t)) ==> a.t in s.tasks;
  }

  lemma TimePasses(s: State, workers: nat, a: Action)
    ensures s.now <= Next(s, workers, a).now
  {
  }

  lemma {:induction false} OrphanBlocks(s: State, workers: nat, actions: seq<Action>, key: Key, lease: Lease)
    requires Orphaned(s, key, lease) && RunFrom(s, workers, actions).now < lease.expires
    ensures Orphaned(RunFrom(s, workers, actions), key, lease)
  {
    if actions != [] {
      var before := actions[..|actions| - 1];
      TimePasses(RunFrom(s, workers, before), workers, actions[|actions| - 1]);
      OrphanBlocks(s, workers, before, key, lease);
      OrphanStays(RunFrom(s, workers, before), workers, actions[|actions| - 1], key, lease);
    }
  }

  /**
    A failed build that still owns its lease blocks its key in every process for 15 seconds: whoever
    asks Redis in that time, after any steps of any task, is turned away and releases what it took.
  */
  lemma FailedBuildBlocksItsKey(workers: nat, actions: seq<Action>, t: Task, more: seq<Action>, u: Task)
    requires var s := RunFrom(START, workers, actions);
             var pc := PcOf(s, t);
             pc.Ending? && pc.failed && WithinLease(pc, s.now)
    requires var s := RunFrom(START, workers, actions); var later := RunFrom(Next(s, workers, TellRedis(t, Answers)), workers, more);
             later.now < s.now + 15.0 && PcOf(later, u).Entered? && PcOf(later, u).key == PcOf(s, t).key
    ensures var s := RunFrom(START, workers, actions); var later := RunFrom(Next(s, workers, TellRedis(t, Answers)), workers, more);
            Next(later, workers, AskRedis(u, Answers)) == Moved(later, u, Leaving(PcOf(later, u).proc, PcOf(later, u).key, false))
  {
    var s := RunFrom(START, workers, actions);
    StartIsSound(workers);
    EveryRunIsSound(START, workers, actions);
    var told, key, lease := Next(s, workers, TellRedis(t, Answers)), PcOf(s, t).key, Lease(PcOf(s, t).owner, s.now + COOLDOWN_SECONDS);
    FailureOrphans(s, workers, t);
    OrphanBlocks(told, workers, more, key, lease);
  }

  lemma FailureOrphans(s: State, workers: nat, t: Task)
    requires LeasesAgree(s) && PcOf(s, t).Ending? && PcOf(s, t).failed && WithinLease(PcOf(s, t), s.now)
    ensures Orphaned(Next(s, workers, TellRedis(t, Answers)), PcOf(s, t).key, Lease(PcOf(s, t).owner, s.now + COOLDOWN_SECONDS))
  {
    assert t in s.tasks && HasOwner(s.tasks[t]);
  }
}

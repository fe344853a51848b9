/**
  Admission of snapshot refreshes (scripts/api/cache.py and scripts/api/context.py): the slots, keys
  and cooldowns of one process, and the leases all processes share in Redis.
*/
module SnapshotAdmission {
  import opened Prelude

  type Key = string
  type Owner = nat

  // ----- one process -----

  datatype Cooldown = Cooldown(key: Key, until: real)

  /** snapshot_refreshing, snapshot_retry_at in insertion order, free snapshot_slots, and stopped. */
  datatype Local = Local(refreshing: set<Key>, retryAt: seq<Cooldown>, free: nat, stopped: bool)

  const COOLDOWNS: nat := 512
  const COOLDOWN_SECONDS: real := 15.0
  const LEASE_SECONDS: real := 120.0

  /** snapshot_retry_at.get(key, 0) */
  function RetryOf(cooldowns: seq<Cooldown>, key: Key): real {
    if cooldowns == [] then 0.0
    else if cooldowns[0].key == key then cooldowns[0].until
    else RetryOf(cooldowns[1..], key)
  }

  /** Assigning a key that is present keeps its place in the order. */
  function WithCooldown(cooldowns: seq<Cooldown>, key: Key, until: real): (r: seq<Cooldown>)
    ensures |cooldowns| <= |r| <= |cooldowns| + 1
  {
    if cooldowns == [] then [Cooldown(key, until)]
    else if cooldowns[0].key == key then [Cooldown(key, until)] + cooldowns[1..]
    else [cooldowns[0]] + WithCooldown(cooldowns[1..], key, until)
  }

  function WithoutCooldown(cooldowns: seq<Cooldown>, key: Key): (r: seq<Cooldown>)
    ensures |r| <= |cooldowns|
  {
    if cooldowns == [] then []
    else if cooldowns[0].key == key then cooldowns[1..]
    else [cooldowns[0]] + WithoutCooldown(cooldowns[1..], key)
  }

  function Newest(cooldowns: seq<Cooldown>): (r: seq<Cooldown>)
    ensures |r| <= COOLDOWNS
  {
    if |cooldowns| > COOLDOWNS then cooldowns[|cooldowns| - COOLDOWNS..] else cooldowns
  }

  /** The first lock region of _admit_snapshot. */
  function LocalAdmit(l: Local, key: Key, now: real): (Local, bool) {
    if key in l.refreshing || RetryOf(l.retryAt, key) > now || l.free == 0 then (l, false)
    else (l.(refreshing := l.refreshing + {key}, free := l.free - 1), true)
  }

  /** The lock region of _release_snapshot. */
  function LocalForget(l: Local, key: Key, failed: bool, now: real): Local {
    l.(refreshing := l.refreshing - {key},
       retryAt := if failed then Newest(WithCooldown(l.retryAt, key, now + COOLDOWN_SECONDS)) else WithoutCooldown(l.retryAt, key))
  }

  function LocalFree(l: Local): Local {
    l.(free := l.free + 1)
  }

  // ----- Redis -----

  datatype Lease = Lease(owner: Owner, expires: real)

  predicate IsLeased(leases: map<Key, Lease>, key: Key, now: real) {
    key in leases && now < leases[key].expires
  }

  /** SET key owner NX EX 120 */
  function SetIfAbsent(leases: map<Key, Lease>, key: Key, owner: Owner, now: real): (map<Key, Lease>, bool) {
    if IsLeased(leases, key, now) then (leases, false)
    else (leases[key := Lease(owner, now + LEASE_SECONDS)], true)
  }

  /** The release script: only a lease that still carries the owner changes. */
  function ReleaseLease(leases: map<Key, Lease>, key: Key, owner: Owner, failed: bool, now: real): map<Key, Lease> {
    if !IsLeased(leases, key, now) || leases[key].owner != owner then leases
    else if failed then leases[key := Lease(owner, now + COOLDOWN_SECONDS)]
    else leases - {key}
  }

  /** A call to Redis: no client, an answer, or an error before or after the command took effect. */
  datatype Reach = NoClient | Answers | FailsBefore | FailsAfter

  // ----- the operations, with no other task in between -----

  datatype Admission = Admission(key: Key, client: bool, owner: Owner)

  function AfterRelease(l: Local, key: Key, failed: bool, now: real): Local {
    LocalFree(LocalForget(l, key, failed, now))
  }

  /** The part of _release_snapshot that talks to Redis. */
  function AfterTelling(leases: map<Key, Lease>, a: Admission, failed: bool, now: real, reach: Reach): map<Key, Lease> {
    if a.client && (reach.Answers? || reach.FailsAfter?) then ReleaseLease(leases, a.key, a.owner, failed, now) else leases
  }

  /** What a process has in use at any time; releasing counts releases between key and slot. */
  ghost predicate Balanced(l: Local, releasing: nat, workers: nat) {
    l.free + |l.refreshing| + releasing == workers && CooldownsFit(l)
  }

  class RuntimeResources {
    const workers: nat
    var snapshotRefreshing: set<Key>
    var snapshotRetryAt: seq<Cooldown>
    var snapshotSlots: nat
    var stopped: bool
    ghost var releasing: nat

    ghost predicate Valid()
      reads this
    {
      Balanced(View(), releasing, workers)
    }

    constructor (workers: nat)
      ensures Valid() && this.workers == workers && View() == Local({}, [], workers, false)
    {
      this.workers := workers;
      snapshotRefreshing, snapshotRetryAt, snapshotSlots, stopped := {}, [], workers, false;
      releasing := 0;
    }

    function View(): Local
      reads this
    {
      Local(snapshotRefreshing, snapshotRetryAt, snapshotSlots, stopped)
    }

    method AdmitRegion(key: Key, now: real) returns (ok: bool)
      requires Valid()
      modifies this
      ensures Valid() && releasing == old(releasing) && stopped == old(stopped)
      ensures (View(), ok) == LocalAdmit(old(View()), key, now)
      ensures ok <==> key !in old(snapshotRefreshing) && RetryOf(old(snapshotRetryAt), key) <= now && old(snapshotSlots) > 0
    {
      if key in snapshotRefreshing || RetryOf(snapshotRetryAt, key) > now {
        return false;
      }
      if snapshotSlots == 0 {
        return false;
      }
      snapshotSlots := snapshotSlots - 1;
      snapshotRefreshing := snapshotRefreshing + {key};
      return true;
    }

    /** The key is free again; a failure starts its cooldown, a success ends it. */
    method ForgetRegion(key: Key, failed: bool, now: real)
      requires Valid() && key in snapshotRefreshing
      modifies this
      ensures Valid() && releasing == old(releasing) + 1
      ensures View() == LocalForget(old(View()), key, failed, now)
      ensures RetryOf(snapshotRetryAt, key) == if failed then now + 15.0 else 0.0
    {
      ForgetSetsCooldown(View(), key, failed, now);
      snapshotRefreshing := snapshotRefreshing - {key};
      releasing := releasing + 1;
      snapshotRetryAt := CooldownsAfter(snapshotRetryAt, key, failed, now);
    }

    /** The semaphore never holds more slots than workers. */
    method FreeSlot()
      requires Valid() && releasing > 0
      modifies this
      ensures Valid() && releasing == old(releasing) - 1 && snapshotSlots <= workers
      ensures View() == LocalFree(old(View()))
    {
      snapshotSlots := snapshotSlots + 1;
      releasing := releasing - 1;
    }

    /** The thread itself runs later; refused exactly when the service has stopped. */
    method StartThread() returns (started: bool)
      ensures started == !stopped
    {
      return !stopped;
    }

    method Close()
      requires Valid()
      modifies this
      ensures Valid() && View() == old(View()).(stopped := true)
    {
      stopped := true;
    }
  }

  /** The cooldown table after a release: assignment and eviction, or removal. */
  method CooldownsAfter(cooldowns: seq<Cooldown>, key: Key, failed: bool, now: real) returns (after: seq<Cooldown>)
    ensures after == if failed then Newest(WithCooldown(cooldowns, key, now + COOLDOWN_SECONDS)) else WithoutCooldown(cooldowns, key)
  {
    if !failed {
      return WithoutCooldown(cooldowns, key);
    }
    after := WithCooldown(cooldowns, key, now + COOLDOWN_SECONDS);
    ghost var all := after;
    while |after| > COOLDOWNS
      invariant |after| <= |all| && after == all[|all| - |after|..]
      invariant |all| > COOLDOWNS ==> |after| >= COOLDOWNS
      invariant |all| <= COOLDOWNS ==> after == all
    {
      after := after[1..];
    }
  }

  class Redis {
    var leases: map<Key, Lease>

    constructor ()
      ensures leases == map[]
    {
      leases := map[];
    }

    method SetNx(key: Key, owner: Owner, now: real) returns (isSet: bool)
      modifies this
      ensures (leases, isSet) == SetIfAbsent(old(leases), key, owner, now)
    {
      if IsLeased(leases, key, now) {
        return false;
      }
      leases := leases[key := Lease(owner, now + LEASE_SECONDS)];
      return true;
    }

    method EvalRelease(key: Key, owner: Owner, failed: bool, now: real)
      modifies this
      ensures leases == ReleaseLease(old(leases), key, owner, failed, now)
    {
      if IsLeased(leases, key, now) && leases[key].owner == owner {
        if failed {
          leases := leases[key := Lease(owner, now + COOLDOWN_SECONDS)];
        } else {
          leases := leases - {key};
        }
      }
    }
  }

  /** Redis still has the lease that the admission was given. */
  predicate StillOwns(leases: map<Key, Lease>, a: Admission, now: real) {
    a.client && a.key in leases && now < leases[a.key].expires && leases[a.key].owner == a.owner
  }

  /**
    Key and slot are given back whatever Redis does. Only the admission's own lease changes: after a
    failure it stays for 15 seconds, after a success it goes; a lease of anyone else is left alone.
  */
  method ReleaseSnapshot(resources: RuntimeResources, redis: Redis, a: Admission, failed: bool, now: real, reach: Reach)
    requires resources.Valid() && a.key in resources.snapshotRefreshing
    modifies resources, redis
    ensures resources.Valid() && resources.View() == AfterRelease(old(resources.View()), a.key, failed, now)
    ensures redis.leases == AfterTelling(old(redis.leases), a, failed, now, reach)
    ensures resources.snapshotRefreshing == old(resources.snapshotRefreshing) - {a.key}
    ensures resources.snapshotSlots == old(resources.snapshotSlots) + 1 <= resources.workers
    ensures resources.stopped == old(resources.stopped) && resources.releasing == old(resources.releasing)
    ensures RetryOf(resources.snapshotRetryAt, a.key) == if failed then now + 15.0 else 0.0
    ensures redis.leases - {a.key} == old(redis.leases) - {a.key}
    ensures !StillOwns(old(redis.leases), a, now) ==> redis.leases == old(redis.leases)
    ensures StillOwns(old(redis.leases), a, now) && reach.Answers? ==>
              if failed then a.key in redis.leases && redis.leases[a.key] == Lease(a.owner, now + 15.0)
              else a.key !in redis.leases
  {
    TellingMeans(redis.leases, a, failed, now, reach);
    if a.client && (reach.Answers? || reach.FailsAfter?) {
      redis.EvalRelease(a.key, a.owner, failed, now);
    }
    resources.ForgetRegion(a.key, failed, now);
    resources.FreeSlot();
  }

  lemma TellingMeans(leases: map<Key, Lease>, a: Admission, failed: bool, now: real, reach: Reach)
    ensures var after := AfterTelling(leases, a, failed, now, reach);
            && after - {a.key} == leases - {a.key}
            && (!StillOwns(leases, a, now) ==> after == leases)
            && (StillOwns(leases, a, now) && reach.Answers? ==>
                  if failed then a.key in after && after[a.key] == Lease(a.owner, now + 15.0) else a.key !in after)
  {
  }

  /**
    Refused exactly when the key is being refreshed or cooling down here, no slot is free, or Redis
    answers that another owner has the lease; and then every key, slot and lease is as it was.
    Otherwise key and slot are taken, and a client is returned exactly with a lease of 120 seconds.
  */
  method AdmitSnapshot(resources: RuntimeResources, redis: Redis, key: Key, owner: Owner, now: real, reach: Reach)
    returns (a: Option<Admission>)
    requires resources.Valid()
    modifies resources, redis
    ensures resources.Valid() && resources.stopped == old(resources.stopped) && resources.releasing == old(resources.releasing)
    ensures a.Some? <==> IsAdmitted(old(resources.View()), old(redis.leases), key, now, reach)
    ensures a.None? ==>
              && resources.snapshotRefreshing == old(resources.snapshotRefreshing)
              && resources.snapshotSlots == old(resources.snapshotSlots) && redis.leases == old(redis.leases)
    ensures a.Some? ==>
              && a.value == Admission(key, reach.Answers?, owner)
              && resources.snapshotRefreshing == old(resources.snapshotRefreshing) + {key}
              && resources.snapshotSlots == old(resources.snapshotSlots) - 1
    ensures a.Some? && a.value.client ==> key in redis.leases && redis.leases[key] == Lease(owner, now + 120.0)
    ensures redis.leases - {key} == old(redis.leases) - {key}
  {
    var ok := resources.AdmitRegion(key, now);
    if !ok {
      return None;
    }
    if reach.Answers? || reach.FailsAfter? {
      SettingMeans(redis.leases, key, owner, now);
      var isSet := redis.SetNx(key, owner, now);
      if reach.Answers? && !isSet {
        ReleaseSnapshot(resources, redis, Admission(key, false, owner), false, now, reach);
        return None;
      }
    }
    return Some(Admission(key, reach.Answers?, owner));
  }

  /** The process may refresh the key, and Redis, if it answers, has no lease for it. */
  predicate IsAdmitted(l: Local, leases: map<Key, Lease>, key: Key, now: real, reach: Reach) {
    && key !in l.refreshing && RetryOf(l.retryAt, key) <= now && l.free > 0
    && (reach.Answers? ==> key !in leases || leases[key].expires <= now)
  }

  lemma SettingMeans(leases: map<Key, Lease>, key: Key, owner: Owner, now: real)
    ensures var (after, isSet) := SetIfAbsent(leases, key, owner, now);
            && after - {key} == leases - {key} && (isSet <==> !IsLeased(leases, key, now))
            && (isSet ==> key in after && after[key] == Lease(owner, now + 120.0))
            && (!isSet ==> after == leases)
  {
  }

  // ----- what an admission and its release mean together -----

  predicate DistinctKeys(cooldowns: seq<Cooldown>) {
    forall i, j | 0 <= i < j < |cooldowns| :: cooldowns[i].key != cooldowns[j].key
  }

  lemma {:induction false} RetryAt(cooldowns: seq<Cooldown>, key: Key, i: nat)
    requires DistinctKeys(cooldowns) && i < |cooldowns| && cooldowns[i].key == key
    ensures RetryOf(cooldowns, key) == cooldowns[i].until
  {
    if i > 0 {
      RetryAt(cooldowns[1..], key, i - 1);
    }
  }

  /** The place of the key: its old one, or the end if it is new. */
  function Place(cooldowns: seq<Cooldown>, key: Key): (i: nat)
    ensures i <= |cooldowns| && (i < |cooldowns| ==> cooldowns[i].key == key)
    ensures forall j | 0 <= j < i :: cooldowns[j].key != key
  {
    if cooldowns == [] || cooldowns[0].key == key then 0 else Place(cooldowns[1..], key) + 1
  }

  function Put(cooldowns: seq<Cooldown>, i: nat, c: Cooldown): seq<Cooldown>
    requires i <= |cooldowns|
  {
    if i < |cooldowns| then cooldowns[i := c] else cooldowns + [c]
  }

  lemma PutFirst(first: Cooldown, rest: seq<Cooldown>, c: Cooldown)
    ensures Put([first] + rest, 0, c) == [c] + rest
  {
  }

  lemma PutAfter(first: Cooldown, rest: seq<Cooldown>, i: nat, c: Cooldown)
    requires i <= |rest|
    ensures [first] + Put(rest, i, c) == Put([first] + rest, i + 1, c)
  {
  }

  lemma {:induction false} CooldownPlace(cooldowns: seq<Cooldown>, key: Key, until: real)
    ensures WithCooldown(cooldowns, key, until) == Put(cooldowns, Place(cooldowns, key), Cooldown(key, until))
  {
    if cooldowns != [] {
      var rest, c := cooldowns[1..], Cooldown(key, until);
      assert cooldowns == [cooldowns[0]] + rest;
      PutFirst(cooldowns[0], rest, c);
      if cooldowns[0].key != key {
        CooldownPlace(rest, key, until);
        PutAfter(cooldowns[0], rest, Place(rest, key), c);
      }
    }
  }

  lemma CooldownsStayDistinct(cooldowns: seq<Cooldown>, key: Key, until: real)
    requires DistinctKeys(cooldowns)
    ensures var i, r := Place(cooldowns, key), WithCooldown(cooldowns, key, until);
            i < |r| && r[i] == Cooldown(key, until) && DistinctKeys(r) && (|r| > |cooldowns| ==> i == |cooldowns|)
  {
    CooldownPlace(cooldowns, key, until);
  }

  lemma {:induction false} CooldownIsGone(cooldowns: seq<Cooldown>, key: Key)
    requires DistinctKeys(cooldowns)
    ensures DistinctKeys(WithoutCooldown(cooldowns, key)) && forall c | c in WithoutCooldown(cooldowns, key) :: c in cooldowns && c.key != key
  {
    if cooldowns != [] && cooldowns[0].key != key {
      CooldownIsGone(cooldowns[1..], key);
    }
  }

  predicate CooldownsFit(l: Local) {
    DistinctKeys(l.retryAt) && |l.retryAt| <= 512
  }

  /**
    The cooldown table keeps at most 512 keys, and the failure just recorded is never the one dropped:
    in the state right after it the process admits nobody for the key. Later failures of other keys
    may drop it.
  */
  lemma FailureBlocksItsProcess(l: Local, key: Key, now: real, later: real)
    requires CooldownsFit(l)
    ensures var r := LocalForget(l, key, true, now);
            CooldownsFit(r) && RetryOf(r.retryAt, key) == now + 15.0 &&
            (later < now + 15.0 ==> LocalAdmit(r, key, later) == (r, false))
  {
    var all := WithCooldown(l.retryAt, key, now + 15.0);
    CooldownsStayDistinct(l.retryAt, key, now + 15.0);
    NewestKeeps(all, Place(l.retryAt, key), |all| - |Newest(all)|);
  }

  /** Dropping the oldest entries leaves the others where they can be found. */
  lemma NewestKeeps(all: seq<Cooldown>, i: nat, dropped: nat)
    requires DistinctKeys(all) && dropped <= i < |all| && Newest(all) == all[dropped..]
    ensures DistinctKeys(Newest(all)) && RetryOf(Newest(all), all[i].key) == all[i].until
  {
    assert forall j | 0 <= j < |all| - dropped :: Newest(all)[j] == all[j + dropped];
    RetryAt(Newest(all), all[i].key, i - dropped);
  }

  /** The cooldown ends after 15 seconds: the process admits the key again if a slot is free. */
  lemma CooldownEnds(l: Local, key: Key, now: real, later: real)
    requires CooldownsFit(l) && now + 15.0 <= later
    ensures LocalAdmit(AfterRelease(l, key, true, now), key, later).1
  {
    FailureBlocksItsProcess(l, key, now, later);
  }

  lemma {:induction false} AbsentKeyHasNoCooldown(cooldowns: seq<Cooldown>, key: Key)
    requires forall c | c in cooldowns :: c.key != key
    ensures RetryOf(cooldowns, key) == 0.0
  {
    if cooldowns != [] {
      assert cooldowns[0] in cooldowns;
      AbsentKeyHasNoCooldown(cooldowns[1..], key);
    }
  }

  /** A success leaves no cooldown for the key: the process admits it again if a slot is free. */
  lemma SuccessAdmitsAgain(l: Local, key: Key, now: real, later: real)
    requires CooldownsFit(l) && 0.0 <= later
    ensures var r := AfterRelease(l, key, false, now);
            CooldownsFit(r) && LocalAdmit(r, key, later).1 && LocalAdmit(r, key, later).0.refreshing == l.refreshing + {key}
  {
    CooldownIsGone(l.retryAt, key);
    AbsentKeyHasNoCooldown(WithoutCooldown(l.retryAt, key), key);
  }

  lemma ForgetSetsCooldown(l: Local, key: Key, failed: bool, now: real)
    requires CooldownsFit(l)
    ensures var r := LocalForget(l, key, failed, now);
            CooldownsFit(r) && RetryOf(r.retryAt, key) == if failed then now + 15.0 else 0.0
  {
    if failed {
      FailureBlocksItsProcess(l, key, now, now);
    } else {
      CooldownIsGone(l.retryAt, key);
      AbsentKeyHasNoCooldown(WithoutCooldown(l.retryAt, key), key);
    }
  }

  /** An admission followed by its release: keys and slots as before, whatever Redis does either time. */
  method AdmitThenRelease(resources: RuntimeResources, redis: Redis, key: Key, owner: Owner, now: real, reach: Reach,
                          failed: bool, later: real, endReach: Reach)
    returns (admitted: bool)
    requires resources.Valid()
    modifies resources, redis
    ensures resources.Valid()
    ensures resources.snapshotRefreshing == old(resources.snapshotRefreshing) && resources.snapshotSlots == old(resources.snapshotSlots)
    ensures admitted && reach.Answers? && endReach.Answers? && later < now + 120.0 ==> IsLeased(redis.leases, key, later) == failed
  {
    var a := AdmitSnapshot(resources, redis, key, owner, now, reach);
    admitted := a.Some?;
    if admitted {
      ReleaseSnapshot(resources, redis, a.value, failed, later, endReach);
    }
  }
}

/**
  Snapshot reads (get_snapshot_payload in scripts/api/cache.py) over the shared panel store
  (scripts/runtime/snapshot_store.py), while other tasks and processes build and store as they like.
*/
module SnapshotReads {
  import opened Prelude
  import opened SnapshotAdmission

  // ----- payloads and the store -----

  /** A JSON value, as far as reads look into it; the text stands for everything else in it. */
  datatype Payload =
    | Null
    | Listing(text: string)
    | Dict(error: bool, status: string, stale: bool, cacheStatus: string, text: string)

  predicate IsUnavailable(p: Payload) {
    p.Dict? && (p.error || p.status == "error" || p.status == "unavailable")
  }

  function MarkedStale(p: Payload): Payload
    requires p.Dict?
  {
    p.(stale := true, cacheStatus := "stale")
  }

  datatype Row = Row(payload: Payload, expiresAt: int)

  /**
    One builder that ran for a key: its result, and whether the store was busy when it was written.
    A direct write is a call of SnapshotStore.set, which has no check for error results.
  */
  datatype Build = Build(key: Key, result: Option<Payload>, now: int, ttl: int, busy: bool, direct: bool)

  function ExpiryOf(now: int, ttl: int): int {
    now + if ttl > 1 then ttl else 1
  }

  /** Succeeded, and passed the check for error results if there was one. */
  predicate IsAccepted(b: Build) {
    b.result.Some? && (b.direct || !IsUnavailable(b.result.value))
  }

  /** Accepted, and reached the table. */
  predicate IsStored(b: Build) {
    IsAccepted(b) && !b.busy
  }

  /** The most recent stored build of the key. */
  function LastStored(builds: seq<Build>, key: Key): (b: Option<Build>)
    ensures b.Some? ==> b.value.key == key && IsStored(b.value)
  {
    if builds == [] then None
    else
      var last := builds[|builds| - 1];
      if last.key == key && IsStored(last) then Some(last) else LastStored(builds[..|builds| - 1], key)
  }

  /** It is a stored build of the key after which none was stored; there is none only if none was stored. */
  lemma {:induction false} LastStoredMeaning(builds: seq<Build>, key: Key) returns (i: nat)
    ensures var b := LastStored(builds, key);
            b.None? ==> forall j | 0 <= j < |builds| :: !(builds[j].key == key && IsStored(builds[j]))
    ensures var b := LastStored(builds, key);
            b.Some? ==>
              && i < |builds| && builds[i] == b.value && b.value.key == key && IsStored(b.value)
              && forall j | i < j < |builds| :: !(builds[j].key == key && IsStored(builds[j]))
  {
    i := 0;
    if builds != [] {
      var before, last := builds[..|builds| - 1], builds[|builds| - 1];
      if last.key == key && IsStored(last) {
        i := |builds| - 1;
      } else {
        i := LastStoredMeaning(before, key);
        assert forall j | 0 <= j < |before| :: builds[j] == before[j];
      }
    }
  }

  /** A builder that fails, answers with an error or meets a busy store changes no key's last good build. */
  lemma RejectedBuildKeepsLastGood(builds: seq<Build>, b: Build, key: Key)
    requires !IsStored(b) || b.key != key
    ensures LastStored(builds + [b], key) == LastStored(builds, key)
  {
    assert (builds + [b])[..|builds|] == builds;
  }

  class SnapshotStore {
    var rows: map<Key, Row>
    ghost var builds: seq<Build>

    /** The table holds, for each key, exactly the last stored build. */
    ghost predicate Valid()
      reads this
    {
      forall key: Key ::
        var b := LastStored(builds, key);
        (key in rows <==> b.Some?) && (b.Some? ==> rows[key] == Row(b.value.result.value, ExpiryOf(b.value.now, b.value.ttl)))
    }

    constructor ()
      ensures Valid() && builds == []
    {
      rows := map[];
      builds := [];
    }

    /** None when nothing is stored, it has expired, it is a JSON null, or the store is busy. */
    method Get(key: Key, now: int, busy: bool) returns (p: Option<Payload>)
      requires Valid()
      ensures p == ServedFresh(builds, key, now, busy)
    {
      if busy || key !in rows || rows[key].expiresAt <= now || rows[key].payload.Null? {
        p := None;
      } else {
        p := Some(rows[key].payload);
      }
      assert key in rows <==> LastStored(builds, key).Some?;
    }

    method GetStale(key: Key, busy: bool) returns (p: Option<Payload>)
      requires Valid()
      ensures p == ServedStale(builds, key, busy)
    {
      if busy || key !in rows || !rows[key].payload.Dict? {
        p := None;
      } else {
        p := Some(rows[key].payload);
      }
      assert key in rows <==> LastStored(builds, key).Some?;
    }

    /**
      _store_snapshot_payload after a builder, or a direct write: false when the builder failed or the
      check found an error result.
    */
    method StoreBuild(b: Build) returns (accepted: bool)
      requires Valid()
      modifies this
      ensures Valid() && builds == old(builds) + [b]
      ensures accepted <==>
                b.result.Some? &&
                (b.direct || !(b.result.value.Dict? && (b.result.value.error || b.result.value.status in {"error", "unavailable"})))
    {
      accepted := b.result.Some? && (b.direct || !IsUnavailable(b.result.value));
      if accepted && !b.busy {
        rows := rows[b.key := Row(b.result.value, ExpiryOf(b.now, b.ttl))];
      }
      ghost var before := builds;
      builds := builds + [b];
      forall key: Key
        ensures LastStored(builds, key) == if b.key == key && IsStored(b) then Some(b) else LastStored(before, key)
      {
        assert (before + [b])[..|before|] == before;
      }
    }

    /** Whatever other tasks and processes build meanwhile. */
    method OthersBuild(others: seq<Build>)
      requires Valid()
      modifies this
      ensures Valid() && builds == old(builds) + others
    {
      for i := 0 to |others|
        invariant Valid() && builds == old(builds) + others[..i]
      {
        var _ := StoreBuild(others[i]);
        assert others[..i + 1] == others[..i] + [others[i]];
      }
      assert others[..|others|] == others;
    }
  }

  // ----- reads -----

  function ServedFresh(builds: seq<Build>, key: Key, now: int, busy: bool): Option<Payload> {
    var b := LastStored(builds, key);
    if busy || b.None? || ExpiryOf(b.value.now, b.value.ttl) <= now || b.value.result.value.Null? then None
    else b.value.result
  }

  function ServedStale(builds: seq<Build>, key: Key, busy: bool): Option<Payload> {
    var b := LastStored(builds, key);
    if busy || b.None? || !b.value.result.value.Dict? then None
    else b.value.result
  }

  datatype Served =
    | Cached(payload: Payload)
    | Stale(payload: Payload)
    | Built(payload: Payload)
    | Pending
    | BuilderFailed

  /** What a call meets: the store's clock and lock, Redis, and the builder's result. */
  datatype Meets = Meets(storeNow: int, busyGet: bool, busyStale: bool, now: real, reach: Reach, owner: Owner,
                         result: Option<Payload>, builtAt: int, busySet: bool, endReach: Reach, later: real)

  /**
    _refresh_snapshot_payload_async: the thread that was started builds, stores and releases later,
    with the admission taken here. If no thread can start, key and slot are back and the key cools down.
  */
  method RefreshSnapshotAsync(resources: RuntimeResources, redis: Redis, key: Key, m: Meets) returns (started: bool)
    requires resources.Valid()
    modifies resources, redis
    ensures resources.Valid()
    ensures started <==> !old(resources.stopped) && IsAdmitted(old(resources.View()), old(redis.leases), key, m.now, m.reach)
    ensures resources.snapshotRefreshing == old(resources.snapshotRefreshing) + (if started then {key} else {})
    ensures resources.snapshotSlots + (if started then 1 else 0) == old(resources.snapshotSlots)
    ensures started && m.reach.Answers? ==> key in redis.leases && redis.leases[key] == Lease(m.owner, m.now + 120.0)
    ensures !started && IsAdmitted(old(resources.View()), old(redis.leases), key, m.now, m.reach) ==>
              RetryOf(resources.snapshotRetryAt, key) == m.later + 15.0
    ensures redis.leases - {key} == old(redis.leases) - {key}
  {
    var a := AdmitSnapshot(resources, redis, key, m.owner, m.now, m.reach);
    if a.None? {
      return false;
    }
    started := resources.StartThread();
    if !started {
      ReleaseSnapshot(resources, redis, a.value, true, m.later, m.endReach);
    }
  }

  /** What get_snapshot_payload returns, from the builds made before its two reads and the admission. */
  ghost predicate IsServed(r: Served, key: Key, m: Meets, admitted: bool, first: seq<Build>, second: seq<Build>) {
    var found, stale := ServedFresh(first, key, m.storeNow, m.busyGet), ServedStale(second, key, m.busyStale);
    && (r.Cached? <==> found.Some?)
    && (r.Stale? <==> found.None? && stale.Some?)
    && (r.Pending? <==> found.None? && stale.None? && !admitted)
    && (r.Built? <==> found.None? && stale.None? && admitted && m.result.Some? && !IsUnavailable(m.result.value))
    && (r.Cached? ==> Some(r.payload) == found)
    && (r.Stale? ==> r.payload == MarkedStale(stale.value))
    && (r.Built? ==> Some(r.payload) == m.result)
  }

  /** The admitted part: build, store, release. Key and slot are back; a failure cools the key down. */
  method BuildAndStore(store: SnapshotStore, resources: RuntimeResources, redis: Redis, a: Admission, ttl: int, m: Meets)
    returns (r: Served)
    requires store.Valid() && resources.Valid() && a.key in resources.snapshotRefreshing
    modifies store, resources, redis
    ensures store.Valid() && store.builds == old(store.builds) + [Build(a.key, m.result, m.builtAt, ttl, m.busySet, false)]
    ensures resources.Valid() && resources.snapshotRefreshing == old(resources.snapshotRefreshing) - {a.key}
    ensures resources.snapshotSlots == old(resources.snapshotSlots) + 1
    ensures r == if m.result.Some? && !IsUnavailable(m.result.value) then Built(m.result.value) else BuilderFailed
    ensures RetryOf(resources.snapshotRetryAt, a.key) == if r.BuilderFailed? then m.later + 15.0 else 0.0
    ensures StillOwns(old(redis.leases), a, m.later) && m.endReach.Answers? ==> IsLeased(redis.leases, a.key, m.later) == r.BuilderFailed?
    ensures redis.leases - {a.key} == old(redis.leases) - {a.key}
  {
    var accepted := store.StoreBuild(Build(a.key, m.result, m.builtAt, ttl, m.busySet, false));
    ReleaseSnapshot(resources, redis, a, !accepted, m.later, m.endReach);
    r := if accepted then Built(m.result.value) else BuilderFailed;
  }

  /**
    What is returned is IsServed. A call that does not leave a refresh behind leaves keys and slots as
    they were; one that built leaves no cooldown, and one whose builder failed leaves one of 15 seconds.
  */
  method GetSnapshotPayload(store: SnapshotStore, resources: RuntimeResources, redis: Redis, key: Key, ttl: int, m: Meets,
                            before: seq<Build>, during: seq<Build>)
    returns (r: Served)
    requires store.Valid() && resources.Valid()
    modifies store, resources, redis
    ensures store.Valid() && resources.Valid()
    ensures IsServed(r, key, m, IsAdmitted(old(resources.View()), old(redis.leases), key, m.now, m.reach),
                     old(store.builds), old(store.builds) + before)
    ensures !r.Stale? ==>
              && resources.snapshotRefreshing == old(resources.snapshotRefreshing)
              && resources.snapshotSlots == old(resources.snapshotSlots)
    ensures r.Cached? || r.Pending? ==> redis.leases == old(redis.leases)
    ensures r.Built? ==> RetryOf(resources.snapshotRetryAt, key) == 0.0
    ensures r.BuilderFailed? ==> RetryOf(resources.snapshotRetryAt, key) == m.later + 15.0
    ensures store.builds == old(store.builds) +
              (if r.Cached? then []
               else if r.Stale? || r.Pending? then before
               else before + during + [Build(key, m.result, m.builtAt, ttl, m.busySet, false)])
  {
    var found := store.Get(key, m.storeNow, m.busyGet);
    if found.Some? {
      return Cached(found.value);
    }
    store.OthersBuild(before);
    var stale := store.GetStale(key, m.busyStale);
    if stale.Some? {
      var _ := RefreshSnapshotAsync(resources, redis, key, m);
      return Stale(MarkedStale(stale.value));
    }
    r := BuildIfAdmitted(store, resources, redis, key, ttl, m, during);
  }

  method BuildIfAdmitted(store: SnapshotStore, resources: RuntimeResources, redis: Redis, key: Key, ttl: int, m: Meets,
                         during: seq<Build>)
    returns (r: Served)
    requires store.Valid() && resources.Valid()
    modifies store, resources, redis
    ensures store.Valid() && resources.Valid()
    ensures r == if !IsAdmitted(old(resources.View()), old(redis.leases), key, m.now, m.reach) then Pending
                 else if m.result.Some? && !IsUnavailable(m.result.value) then Built(m.result.value)
                 else BuilderFailed
    ensures resources.snapshotRefreshing == old(resources.snapshotRefreshing)
    ensures resources.snapshotSlots == old(resources.snapshotSlots)
    ensures r.Pending? ==> redis.leases == old(redis.leases) && store.builds == old(store.builds)
    ensures !r.Pending? ==>
              && RetryOf(resources.snapshotRetryAt, key) == (if r.BuilderFailed? then m.later + 15.0 else 0.0)
              && store.builds == old(store.builds) + during + [Build(key, m.result, m.builtAt, ttl, m.busySet, false)]
  {
    var a := AdmitSnapshot(resources, redis, key, m.owner, m.now, m.reach);
    if a.None? {
      return Pending;
    }
    store.OthersBuild(during);
    r := BuildAndStore(store, resources, redis, a.value, ttl, m);
  }

  // ----- what a reader is promised -----

  /**
    A value is an unexpired stored build, a stored dictionary marked stale, or the result of this
    call's own builder. It is an error result exactly when the last stored build of the key is one,
    and then a process wrote it directly.
  */
  lemma EveryValueIsGood(r: Served, key: Key, m: Meets, admitted: bool, first: seq<Build>, second: seq<Build>)
    requires IsServed(r, key, m, admitted, first, second)
    ensures r.Cached? ==> exists b | b in first ::
              b.key == key && IsStored(b) && b.result == Some(r.payload) && m.storeNow < ExpiryOf(b.now, b.ttl) &&
              LastStored(first, key) == Some(b) && (IsUnavailable(r.payload) ==> b.direct)
    ensures r.Stale? ==> exists b | b in second ::
              b.key == key && IsStored(b) && b.result.value.Dict? && IsStaleCopy(r.payload, b.result.value) &&
              LastStored(second, key) == Some(b) && (IsUnavailable(r.payload) <==> b.direct && IsUnavailable(b.result.value))
    ensures r.Built? ==> m.result == Some(r.payload) && !IsUnavailable(r.payload)
    ensures (forall b | b in second && b.key == key :: !b.direct) && first <= second && (r.Cached? || r.Stale? || r.Built?) ==>
              !IsUnavailable(r.payload)
  {
    var i := LastStoredMeaning(first, key);
    var j := LastStoredMeaning(second, key);
    if r.Cached? {
      assert LastStored(first, key).value in first;
      assert first <= second ==> first[i] == second[i];
    } else if r.Stale? {
      assert LastStored(second, key).value in second;
    }
  }

  /** The same dictionary but for the two marks. */
  predicate IsStaleCopy(p: Payload, stored: Payload) {
    && p.Dict? && stored.Dict?
    && p.stale && p.cacheStatus == "stale"
    && p.error == stored.error && p.status == stored.status && p.text == stored.text
  }

  /** A stored build is served for its time to live, a second at least, and from then on its dictionary marked stale. */
  lemma StoredIsServed(builds: seq<Build>, b: Build, now: int)
    requires IsStored(b)
    ensures var after := builds + [b];
            && ServedStale(after, b.key, false) == (if b.result.value.Dict? then b.result else None)
            && ServedFresh(after, b.key, now, false) ==
               if b.result.value != Null && (now < b.now + b.ttl || now < b.now + 1) then b.result else None
  {
    assert (builds + [b])[..|builds|] == builds;
  }

  /** What SnapshotStore.set is given directly is served until it expires; a builder's error result never is. */
  lemma OnlyBuildersAreChecked(builds: seq<Build>, b: Build, now: int)
    requires b.result.Some? && IsUnavailable(b.result.value) && !b.busy && now < ExpiryOf(b.now, b.ttl)
    ensures ServedFresh(builds + [b], b.key, now, false) == if b.direct then b.result else ServedFresh(builds, b.key, now, false)
  {
    assert (builds + [b])[..|builds|] == builds;
  }

  predicate Rejected(builds: seq<Build>, key: Key) {
    forall b | b in builds && b.key == key :: !IsStored(b)
  }

  lemma {:induction false} RejectedBuildsKeepLastGood(builds: seq<Build>, more: seq<Build>, key: Key)
    requires Rejected(more, key)
    ensures LastStored(builds + more, key) == LastStored(builds, key)
  {
    if more == [] {
      assert builds + more == builds;
    } else {
      var before := more[..|more| - 1];
      assert builds + more == (builds + before) + [more[|more| - 1]];
      assert more[|more| - 1] in more;
      RejectedBuildsKeepLastGood(builds, before, key);
      RejectedBuildKeepsLastGood(builds + before, more[|more| - 1], key);
    }
  }

  /**
    However often its builder fails or answers with an error, a key with a stored dictionary goes on
    being served from it: while it is unexpired as it is, and afterwards marked stale.
  */
  lemma FailuresNeverHideTheLastGood(r: Served, key: Key, m: Meets, admitted: bool, builds: seq<Build>, more: seq<Build>, again: seq<Build>)
    requires LastStored(builds, key).Some? && LastStored(builds, key).value.result.value.Dict?
    requires Rejected(more, key) && Rejected(again, key) && !m.busyGet && !m.busyStale
    requires IsServed(r, key, m, admitted, builds + more, builds + more + again)
    ensures var b := LastStored(builds, key).value;
            r == if m.storeNow < ExpiryOf(b.now, b.ttl) then Cached(b.result.value) else Stale(MarkedStale(b.result.value))
  {
    var _ := LastStoredMeaning(builds, key);
    RejectedBuildsKeepLastGood(builds, more, key);
    RejectedBuildsKeepLastGood(builds + more, again, key);
  }
}

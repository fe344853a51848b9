/**
  How long a failed key cools down in its own process (snapshot_retry_at in scripts/api/cache.py): the
  table keeps 512 keys, a key that fails again keeps its old place, and the first one is evicted.
*/
module SnapshotCooldowns {
  import opened SnapshotAdmission

  predicate HasEntry(cooldowns: seq<Cooldown>, key: Key) {
    Place(cooldowns, key) < |cooldowns|
  }

  /** Free places, and the entries that would be evicted before the key's. */
  function Slack(cooldowns: seq<Cooldown>, key: Key): int {
    512 - |cooldowns| + Place(cooldowns, key)
  }

  lemma PlaceIs(cooldowns: seq<Cooldown>, key: Key, i: nat)
    requires DistinctKeys(cooldowns) && i < |cooldowns| && cooldowns[i].key == key
    ensures Place(cooldowns, key) == i && RetryOf(cooldowns, key) == cooldowns[i].until
  {
    RetryAt(cooldowns, key, i);
  }

  lemma PlaceOfAbsent(cooldowns: seq<Cooldown>, key: Key)
    requires forall i | 0 <= i < |cooldowns| :: cooldowns[i].key != key
    ensures !HasEntry(cooldowns, key)
  {
  }

  // ----- one step -----

  /** Assigning another key's entry moves nothing. */
  lemma AssignmentMovesNothing(cooldowns: seq<Cooldown>, a: Key, b: Key, until: real)
    requires DistinctKeys(cooldowns) && HasEntry(cooldowns, a) && a != b
    ensures var i, all := Place(cooldowns, a), WithCooldown(cooldowns, b, until);
            && DistinctKeys(all) && |all| == |cooldowns| + (if HasEntry(cooldowns, b) then 0 else 1)
            && i < |all| && all[i] == cooldowns[i]
  {
    CooldownPlace(cooldowns, b, until);
    CooldownsStayDistinct(cooldowns, b, until);
  }

  /**
    A failure of another key evicts the entry exactly when that key is new, the table is full and the
    entry is the first; otherwise the entry keeps its time and loses one place to a new key.
  */
  lemma FailureEvictsExactlyWhen(l: Local, a: Key, b: Key, now: real)
    requires CooldownsFit(l) && HasEntry(l.retryAt, a) && a != b
    ensures var r := LocalForget(l, b, true, now);
            && CooldownsFit(r)
            && (!HasEntry(r.retryAt, a) <==> !HasEntry(l.retryAt, b) && |l.retryAt| == 512 && Place(l.retryAt, a) == 0)
            && (HasEntry(r.retryAt, a) ==>
                  && RetryOf(r.retryAt, a) == RetryOf(l.retryAt, a)
                  && Slack(r.retryAt, a) == Slack(l.retryAt, a) - (if HasEntry(l.retryAt, b) then 0 else 1))
  {
    var i, all := Place(l.retryAt, a), WithCooldown(l.retryAt, b, now + COOLDOWN_SECONDS);
    AssignmentMovesNothing(l.retryAt, a, b, now + COOLDOWN_SECONDS);
    PlaceIs(l.retryAt, a, i);
    AfterEviction(all, a, i);
  }

  /** What eviction does to the entry at i. */
  lemma AfterEviction(all: seq<Cooldown>, a: Key, i: nat)
    requires DistinctKeys(all) && |all| <= 513 && i < |all| && all[i].key == a
    ensures var r := Newest(all);
            && DistinctKeys(r)
            && (!HasEntry(r, a) <==> |all| > 512 && i == 0)
            && (HasEntry(r, a) ==> RetryOf(r, a) == all[i].until && Slack(r, a) == 512 - |all| + i)
  {
    var r := Newest(all);
    if |all| > 512 {
      assert forall j | 0 <= j < |r| :: r[j] == all[j + 1];
      if i == 0 {
        PlaceOfAbsent(r, a);
      } else {
        PlaceIs(r, a, i - 1);
      }
    } else {
      PlaceIs(r, a, i);
    }
  }

  function Cut(cooldowns: seq<Cooldown>, p: nat): seq<Cooldown> {
    if p < |cooldowns| then cooldowns[..p] + cooldowns[p + 1..] else cooldowns
  }

  lemma CutAfter(first: Cooldown, rest: seq<Cooldown>, p: nat)
    ensures [first] + Cut(rest, p) == Cut([first] + rest, p + 1)
  {
  }

  lemma {:induction false} RemovedAt(cooldowns: seq<Cooldown>, key: Key)
    ensures WithoutCooldown(cooldowns, key) == Cut(cooldowns, Place(cooldowns, key))
  {
    if cooldowns != [] && cooldowns[0].key != key {
      RemovedAt(cooldowns[1..], key);
      CutAfter(cooldowns[0], cooldowns[1..], Place(cooldowns[1..], key));
      assert cooldowns == [cooldowns[0]] + cooldowns[1..];
    }
  }

  lemma RemovalKeeps(cooldowns: seq<Cooldown>, b: Key, i: nat) returns (i': nat)
    requires i < |cooldowns| && cooldowns[i].key != b
    ensures var p, r := Place(cooldowns, b), WithoutCooldown(cooldowns, b);
            && |r| == |cooldowns| - (if HasEntry(cooldowns, b) then 1 else 0)
            && i' == (if p < i then i - 1 else i) && i' < |r| && r[i'] == cooldowns[i]
  {
    RemovedAt(cooldowns, b);
    var p := Place(cooldowns, b);
    i' := if p < i then i - 1 else i;
    if p < |cooldowns| {
      CutKeeps(cooldowns, p, i);
    }
  }

  lemma CutKeeps(cooldowns: seq<Cooldown>, p: nat, i: nat)
    requires p < |cooldowns| && i < |cooldowns| && i != p
    ensures var r, i' := Cut(cooldowns, p), if p < i then i - 1 else i;
            |r| == |cooldowns| - 1 && r[i'] == cooldowns[i]
  {
  }

  /** A success of another key leaves the entry's time alone and never brings its eviction nearer. */
  lemma SuccessEvictsNothing(l: Local, a: Key, b: Key, now: real)
    requires CooldownsFit(l) && HasEntry(l.retryAt, a) && a != b
    ensures var r := LocalForget(l, b, false, now);
            && CooldownsFit(r) && HasEntry(r.retryAt, a)
            && RetryOf(r.retryAt, a) == RetryOf(l.retryAt, a) && Slack(r.retryAt, a) >= Slack(l.retryAt, a)
  {
    var i, r := Place(l.retryAt, a), WithoutCooldown(l.retryAt, b);
    var i' := RemovalKeeps(l.retryAt, b, i);
    CooldownIsGone(l.retryAt, b);
    PlaceIs(l.retryAt, a, i);
    PlaceIs(r, a, i');
  }

  // ----- any steps of the process -----

  datatype Step = Admit(key: Key, now: real) | Release(key: Key, failed: bool, now: real) | Free

  function After(l: Local, step: Step): Local {
    match step
    case Admit(key, now) => LocalAdmit(l, key, now).0
    case Release(key, failed, now) => LocalForget(l, key, failed, now)
    case Free => LocalFree(l)
  }

  function AfterAll(l: Local, steps: seq<Step>): Local {
    if steps == [] then l else After(AfterAll(l, steps[..|steps| - 1]), steps[|steps| - 1])
  }

  predicate IsNewFailure(l: Local, step: Step) {
    step.Release? && step.failed && !HasEntry(l.retryAt, step.key)
  }

  /** How often a key failed that had no entry at that moment. */
  function NewFailures(l: Local, steps: seq<Step>): nat {
    if steps == [] then 0
    else
      NewFailures(l, steps[..|steps| - 1]) +
      (if IsNewFailure(AfterAll(l, steps[..|steps| - 1]), steps[|steps| - 1]) then 1 else 0)
  }

  predicate ReleasesOthers(steps: seq<Step>, key: Key) {
    forall i | 0 <= i < |steps| :: steps[i].Release? ==> steps[i].key != key
  }

  lemma StepKeepsEntry(l: Local, step: Step, a: Key)
    requires CooldownsFit(l) && HasEntry(l.retryAt, a) && (step.Release? ==> step.key != a)
    requires IsNewFailure(l, step) ==> Slack(l.retryAt, a) > 0
    ensures var r := After(l, step);
            && CooldownsFit(r) && HasEntry(r.retryAt, a) && RetryOf(r.retryAt, a) == RetryOf(l.retryAt, a)
            && Slack(r.retryAt, a) >= Slack(l.retryAt, a) - (if IsNewFailure(l, step) then 1 else 0)
  {
    match step {
      case Admit(_, _) =>
      case Free =>
      case Release(b, failed, now) =>
        if failed {
          FailureEvictsExactlyWhen(l, a, b, now);
        } else {
          SuccessEvictsNothing(l, a, b, now);
        }
    }
  }

  /** An entry outlives as many new failures as its slack. */
  lemma {:induction false} EntryOutlives(l: Local, steps: seq<Step>, a: Key)
    requires CooldownsFit(l) && HasEntry(l.retryAt, a) && ReleasesOthers(steps, a)
    requires NewFailures(l, steps) <= Slack(l.retryAt, a)
    ensures var r := AfterAll(l, steps);
            && CooldownsFit(r) && HasEntry(r.retryAt, a) && RetryOf(r.retryAt, a) == RetryOf(l.retryAt, a)
            && Slack(r.retryAt, a) >= Slack(l.retryAt, a) - NewFailures(l, steps)
  {
    if steps != [] {
      var before := steps[..|steps| - 1];
      EntryOutlives(l, before, a);
      StepKeepsEntry(AfterAll(l, before), steps[|steps| - 1], a);
    }
  }

  /**
    After a failure, through any admissions and any releases of other keys, the process refuses the
    key for 15 seconds, unless more new keys have failed than there were free places and entries
    before it.
  */
  lemma FailureBlocksThroughRuns(l: Local, a: Key, now: real, steps: seq<Step>, later: real)
    requires CooldownsFit(l) && ReleasesOthers(steps, a) && later < now + 15.0
    requires var failed := LocalForget(l, a, true, now); NewFailures(failed, steps) <= Slack(failed.retryAt, a)
    ensures var r := AfterAll(LocalForget(l, a, true, now), steps); LocalAdmit(r, a, later) == (r, false)
  {
    var failed := LocalForget(l, a, true, now);
    FailureIsEntered(l, a, now);
    EntryOutlives(failed, steps, a);
  }

  /** A failure has an entry, at the end of the table if it is the key's first: then 511 new failures may follow. */
  lemma FailureIsEntered(l: Local, a: Key, now: real)
    requires CooldownsFit(l)
    ensures var r := LocalForget(l, a, true, now);
            && CooldownsFit(r) && HasEntry(r.retryAt, a) && RetryOf(r.retryAt, a) == now + 15.0
            && (!HasEntry(l.retryAt, a) ==> Slack(r.retryAt, a) == 511)
            && (HasEntry(l.retryAt, a) ==> Slack(r.retryAt, a) == Slack(l.retryAt, a))
  {
    var i, all := Place(l.retryAt, a), WithCooldown(l.retryAt, a, now + COOLDOWN_SECONDS);
    CooldownPlace(l.retryAt, a, now + COOLDOWN_SECONDS);
    CooldownsStayDistinct(l.retryAt, a, now + COOLDOWN_SECONDS);
    AfterEviction(all, a, i);
  }

  // ----- an input for which the cooldown ends early -----

  /** In a full table whose first key fails again, one failure of a new key lets the first in at once. */
  lemma EvictedKeyIsAdmittedEarly(l: Local, a: Key, b: Key, now: real, later: real)
    requires CooldownsFit(l) && |l.retryAt| == 512 && l.retryAt[0].key == a && !HasEntry(l.retryAt, b)
    requires a !in l.refreshing && l.free > 0 && 0.0 <= later < now + 15.0
    ensures LocalAdmit(LocalForget(LocalForget(l, a, true, now), b, true, now), a, later).1
  {
    var again := LocalForget(l, a, true, now);
    PlaceIs(l.retryAt, a, 0);
    FailureIsEntered(l, a, now);
    FullTableKeepsItsKeys(l.retryAt, a, b, now + COOLDOWN_SECONDS);
    FailureEvictsExactlyWhen(again, a, b, now);
    var r := LocalForget(again, b, true, now);
    AbsentKeyHasNoCooldown(r.retryAt, a);
  }

  lemma FullTableKeepsItsKeys(cooldowns: seq<Cooldown>, a: Key, b: Key, until: real)
    requires DistinctKeys(cooldowns) && |cooldowns| == 512 && Place(cooldowns, a) == 0 && !HasEntry(cooldowns, b)
    ensures var all := WithCooldown(cooldowns, a, until);
            Newest(all) == all && |all| == 512 && Place(all, a) == 0 && !HasEntry(all, b)
  {
    CooldownPlace(cooldowns, a, until);
    PlaceOfAbsent(WithCooldown(cooldowns, a, until), b);
  }

  function NthKey(n: nat): Key {
    seq(n, _ => 'k')
  }

  /** Such a table: 512 keys that failed at time 0, a free slot, and a key that has not failed yet. */
  lemma FullTableExists()
    ensures var l := Local({}, seq(512, i requires 0 <= i => Cooldown(NthKey(i), 15.0)), 1, false);
            LocalAdmit(LocalForget(LocalForget(l, NthKey(0), true, 20.0), NthKey(512), true, 20.0), NthKey(0), 20.0).1
  {
    var l := Local({}, seq(512, i requires 0 <= i => Cooldown(NthKey(i), 15.0)), 1, false);
    assert forall i, j: nat | i != j :: |NthKey(i)| != |NthKey(j)|;
    PlaceOfAbsent(l.retryAt, NthKey(512));
    EvictedKeyIsAdmittedEarly(l, NthKey(0), NthKey(512), 20.0, 20.0);
  }
}

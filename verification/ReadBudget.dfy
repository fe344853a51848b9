/**
  Host-wide read admission (scripts/api/read_budget.py): lock-file permits and the token bucket.
*/
module ReadBudget {
  import opened Prelude

  // ----- lock-file permits -----

  /** The first lock slot at or after from that nobody holds. */
  function FirstFree(held: set<nat>, capacity: nat, from: nat): Option<nat>
    decreases capacity - from
  {
    if from >= capacity then None
    else if from !in held then Some(from)
    else FirstFree(held, capacity, from + 1)
  }

  lemma {:induction false} FirstFreeMeaning(held: set<nat>, capacity: nat, from: nat)
    ensures var slot := FirstFree(held, capacity, from);
            && (slot.Some? ==> from <= slot.value < capacity && slot.value !in held && forall s | from <= s < slot.value :: s in held)
            && (slot.None? ==> forall s | from <= s < capacity :: s in held)
    decreases capacity - from
  {
    if from < capacity && from in held {
      FirstFreeMeaning(held, capacity, from + 1);
    }
  }

  /** The lock files of one source on the host; flock gives each to at most one holder. */
  class LockFiles {
    var held: set<nat>

    constructor ()
      ensures held == {}
    {
      held := {};
    }
  }

  class ReadPermit {
    const files: LockFiles
    const slot: nat
    var open: bool

    constructor (files: LockFiles, slot: nat)
      ensures this.files == files && this.slot == slot && open
    {
      this.files, this.slot, open := files, slot, true;
    }

    /** Gives the slot back the first time only. */
    method Close()
      modifies this, files
      ensures !open
      ensures files.held == if old(open) then old(files.held) - {slot} else old(files.held)
    {
      if open {
        files.held := files.held - {slot};
        open := false;
      }
    }
  }

  /** try_permit: probe the slots in order and lock the first free one. */
  method TryPermit(files: LockFiles, capacity: nat) returns (permit: ReadPermit?)
    modifies files
    ensures var free := FirstFree(old(files.held), capacity, 0);
            && (permit == null <==> free.None?)
            && (permit == null ==> files.held == old(files.held))
            && (permit != null ==> fresh(permit) && permit.open && permit.files == files && Some(permit.slot) == free &&
                                   files.held == old(files.held) + {permit.slot})
  {
    permit := null;
    for slot := 0 to capacity
      invariant permit == null && files.held == old(files.held)
      invariant FirstFree(files.held, capacity, 0) == FirstFree(files.held, capacity, slot)
    {
      if slot !in files.held {
        files.held := files.held + {slot};
        permit := new ReadPermit(files, slot);
        return;
      }
    }
  }

  // ----- token bucket -----

  /** The record in the rate file; None when it cannot be parsed. */
  datatype Bucket = Bucket(readAt: real, tokens: real)

  datatype Rate = Rate(perSecond: real, burst: nat)

  predicate ValidRate(r: Rate) {
    r.perSecond >= 0.0
  }

  function Min(a: real, b: real): real {
    if a <= b then a else b
  }

  /** Tokens refilled between two clock readings. */
  function Refill(from: real, to: real, r: Rate): real {
    (to - from) * r.perSecond
  }

  /** Tokens on hand at a time: refilled since the record, or a full burst for a fresh window. */
  function Available(b: Option<Bucket>, now: real, r: Rate): real {
    if b.None? || now < b.value.readAt then r.burst as real
    else Min(r.burst as real, b.value.tokens + Refill(b.value.readAt, now, r))
  }

  /** One call: its clock reading, and whether the rate file's lock was free. */
  datatype Call = Call(now: real, lockFree: bool)

  predicate Granted(b: Option<Bucket>, c: Call, r: Rate) {
    c.lockFree && Available(b, c.now, r) >= 1.0
  }

  function AfterCall(b: Option<Bucket>, c: Call, r: Rate): Option<Bucket> {
    if !c.lockFree then b
    else Some(Bucket(c.now, Available(b, c.now, r) - (if Granted(b, c, r) then 1.0 else 0.0)))
  }

  class RateFile {
    var record: Option<Bucket>

    constructor ()
      ensures record == None
    {
      record := None;
    }

    /** take_read_token */
    method TakeReadToken(c: Call, r: Rate) returns (allowed: bool)
      modifies this
      ensures allowed == Granted(old(record), c, r)
      ensures record == AfterCall(old(record), c, r)
    {
      if !c.lockFree {
        return false;
      }
      var tokens := r.burst as real;
      match record {
        case None =>
        case Some(b) =>
          if c.now >= b.readAt {
            var elapsed := if c.now - b.readAt > 0.0 then c.now - b.readAt else 0.0;
            var refill := elapsed * r.perSecond;
            assert refill == Refill(b.readAt, c.now, r);
            tokens := b.tokens + refill;
            if tokens > r.burst as real {
              tokens := r.burst as real;
            }
          }
      }
      assert tokens == Available(old(record), c.now, r);
      allowed := tokens >= 1.0;
      if allowed {
        tokens := tokens - 1.0;
      }
      record := Some(Bucket(c.now, tokens));
    }
  }

  function AfterCalls(b: Option<Bucket>, cs: seq<Call>, r: Rate): Option<Bucket> {
    if cs == [] then b else AfterCall(AfterCalls(b, cs[..|cs| - 1], r), cs[|cs| - 1], r)
  }

  /** Number of granted calls. */
  function Grants(b: Option<Bucket>, cs: seq<Call>, r: Rate): nat {
    if cs == [] then 0
    else Grants(b, cs[..|cs| - 1], r) +
         (if Granted(AfterCalls(b, cs[..|cs| - 1], r), cs[|cs| - 1], r) then 1 else 0)
  }

  ghost predicate ClockMovesOn(cs: seq<Call>) {
    forall i, j | 0 <= i <= j < |cs| :: cs[i].now <= cs[j].now
  }

  lemma RefillAdds(a: real, b: real, c: real, r: Rate)
    ensures Refill(a, c, r) == Refill(a, b, r) + Refill(b, c, r)
  {
    assert (c - a) * r.perSecond == (b - a) * r.perSecond + (c - b) * r.perSecond;
  }

  lemma RefillSign(a: real, b: real, r: Rate)
    requires ValidRate(r) && a <= b
    ensures Refill(a, b, r) >= 0.0 && Refill(a, a, r) == 0.0
  {
  }

  lemma AvailableGrowsSlowly(b: Option<Bucket>, now: real, later: real, r: Rate)
    requires ValidRate(r) && now <= later
    ensures Available(b, later, r) <= Available(b, now, r) + Refill(now, later, r)
  {
    RefillSign(now, later, r);
    if b.Some? && now >= b.value.readAt {
      RefillAdds(b.value.readAt, now, later, r);
    }
  }

  lemma CallSpends(b: Option<Bucket>, c: Call, r: Rate)
    ensures Available(AfterCall(b, c, r), c.now, r) + (if Granted(b, c, r) then 1.0 else 0.0) <= Available(b, c.now, r)
  {
    if c.lockFree {
      RecordHoldsWhatIsLeft(Available(b, c.now, r) - (if Granted(b, c, r) then 1.0 else 0.0), c.now, r);
    }
  }

  lemma RecordHoldsWhatIsLeft(tokens: real, now: real, r: Rate)
    ensures Available(Some(Bucket(now, tokens)), now, r) == Min(r.burst as real, tokens)
  {
    var elapsed := now - now;
    assert elapsed == 0.0 && elapsed * r.perSecond == 0.0;
  }

  lemma CallCovered(b: Option<Bucket>, c: Call, r: Rate, granted: real, start: real, end: real)
    requires ValidRate(r) && end <= c.now
    requires granted + Available(b, end, r) <= r.burst as real + Refill(start, end, r)
    ensures granted + (if Granted(b, c, r) then 1.0 else 0.0) + Available(AfterCall(b, c, r), c.now, r) <=
            r.burst as real + Refill(start, c.now, r)
  {
    CallSpends(b, c, r);
    AvailableGrowsSlowly(b, end, c.now, r);
    RefillAdds(start, end, c.now, r);
  }

  /** Grants and what is then on hand are covered by one burst and the refill since the first call. */
  lemma {:induction false} GrantsAreCovered(b: Option<Bucket>, cs: seq<Call>, r: Rate)
    requires ValidRate(r) && cs != [] && ClockMovesOn(cs)
    ensures var end := cs[|cs| - 1].now;
            Grants(b, cs, r) as real + Available(AfterCalls(b, cs, r), end, r) <= r.burst as real + Refill(cs[0].now, end, r)
  {
    var init, c := cs[..|cs| - 1], cs[|cs| - 1];
    var before := AfterCalls(b, init, r);
    if init == [] {
      RefillSign(c.now, c.now, r);
      AvailableIsBounded(b, c.now, r);
      CallCovered(b, c, r, 0.0, c.now, c.now);
    } else {
      GrantsAreCovered(b, init, r);
      assert init[0] == cs[0] && init[|init| - 1] == cs[|cs| - 2];
      CallCovered(before, c, r, Grants(b, init, r) as real, cs[0].now, init[|init| - 1].now);
    }
  }

  predicate ValidBucket(b: Option<Bucket>, r: Rate) {
    b.Some? ==> 0.0 <= b.value.tokens <= r.burst as real
  }

  lemma AvailableIsBounded(b: Option<Bucket>, now: real, r: Rate)
    requires ValidRate(r)
    ensures Available(b, now, r) <= r.burst as real
    ensures ValidBucket(b, r) ==> Available(b, now, r) >= 0.0
  {
    if b.Some? && now >= b.value.readAt {
      RefillSign(b.value.readAt, now, r);
    }
  }

  /** Stored tokens stay between zero and the burst. */
  lemma {:induction false} TokensStayBounded(b: Option<Bucket>, cs: seq<Call>, r: Rate)
    requires ValidRate(r) && ValidBucket(b, r)
    ensures ValidBucket(AfterCalls(b, cs, r), r)
  {
    if cs != [] {
      var init, c := cs[..|cs| - 1], cs[|cs| - 1];
      TokensStayBounded(b, init, r);
      AvailableIsBounded(AfterCalls(b, init, r), c.now, r);
    }
  }

  lemma {:induction false} CallsSplit(b: Option<Bucket>, cs: seq<Call>, ds: seq<Call>, r: Rate)
    ensures AfterCalls(b, cs + ds, r) == AfterCalls(AfterCalls(b, cs, r), ds, r)
    ensures Grants(b, cs + ds, r) == Grants(b, cs, r) + Grants(AfterCalls(b, cs, r), ds, r)
    decreases |ds|
  {
    if ds == [] {
      assert cs + ds == cs;
    } else {
      CallsSplit(b, cs, ds[..|ds| - 1], r);
      assert (cs + ds)[..|cs + ds| - 1] == cs + ds[..|ds| - 1];
    }
  }

  lemma ClockOfWindow(cs: seq<Call>, i: nat, j: nat)
    requires ClockMovesOn(cs) && i < j <= |cs|
    ensures ClockMovesOn(cs[i..j])
  {
    assert forall k | 0 <= k < j - i :: cs[i..j][k] == cs[i + k];
  }

  /** A run's grants are covered by the burst and the refill since its first call, whatever the record was. */
  lemma {:induction false} RunBound(b: Option<Bucket>, cs: seq<Call>, r: Rate)
    requires ValidRate(r) && ClockMovesOn(cs) && cs != []
    ensures Grants(b, cs, r) as real <= r.burst as real + Refill(cs[0].now, cs[|cs| - 1].now, r)
  {
    var init, c := cs[..|cs| - 1], cs[|cs| - 1];
    if Granted(AfterCalls(b, init, r), c, r) {
      GrantsAreCovered(b, cs, r);
      GrantLeavesNoDebt(AfterCalls(b, init, r), c, r);
    } else {
      RefillSign(cs[0].now, c.now, r);
      if init != [] {
        RunBound(b, init, r);
        assert init[0] == cs[0] && init[|init| - 1] == cs[|cs| - 2];
        RefillAdds(cs[0].now, cs[|cs| - 2].now, c.now, r);
        RefillSign(cs[|cs| - 2].now, c.now, r);
      }
    }
  }

  lemma GrantLeavesNoDebt(b: Option<Bucket>, c: Call, r: Rate)
    requires ValidRate(r) && Granted(b, c, r)
    ensures Available(AfterCall(b, c, r), c.now, r) >= 0.0
  {
    AvailableIsBounded(b, c.now, r);
    RecordHoldsWhatIsLeft(Available(b, c.now, r) - 1.0, c.now, r);
  }

  /**
    The token bucket bound: in any window of any run with a clock that never runs backwards, grants
    are at most the burst plus the refill over the window's length, whatever record it started from.
  */
  lemma WindowBound(b: Option<Bucket>, cs: seq<Call>, r: Rate, i: nat, j: nat)
    requires ValidRate(r) && ClockMovesOn(cs) && i < j <= |cs|
    ensures (Grants(b, cs[..j], r) - Grants(b, cs[..i], r)) as real <= r.burst as real + Refill(cs[i].now, cs[j - 1].now, r)
  {
    var before, window := AfterCalls(b, cs[..i], r), cs[i..j];
    ClockOfWindow(cs, i, j);
    CallsSplit(b, cs[..i], window, r);
    assert cs[..i] + window == cs[..j];
    RunBound(before, window, r);
    assert window[0] == cs[i] && window[|window| - 1] == cs[j - 1];
  }

  // ----- calls that must be granted -----

  /** A call is granted when the tokens left and those that have come in since make up one. */
  lemma GrantedWhenRefilled(b: Bucket, c: Call, r: Rate)
    requires c.lockFree && r.burst >= 1 && c.now >= b.readAt && b.tokens + (c.now - b.readAt) * r.perSecond >= 1.0
    ensures Granted(Some(b), c, r)
  {
    assert Refill(b.readAt, c.now, r) == (c.now - b.readAt) * r.perSecond;
    assert r.burst as real >= 1.0;
  }

  /** Without a readable record, or with one from before a restart of the clock, a whole burst is on hand. */
  lemma FreshWindowIsFull(b: Option<Bucket>, c: Call, r: Rate)
    requires c.lockFree && r.burst >= 1 && (b.None? || c.now < b.value.readAt)
    ensures Granted(b, c, r) && AfterCall(b, c, r) == Some(Bucket(c.now, r.burst as real - 1.0))
  {
  }

  /** A call that finds the lock taken is refused and leaves the record. */
  lemma BusyIsRefused(b: Option<Bucket>, c: Call, r: Rate)
    requires !c.lockFree
    ensures !Granted(b, c, r) && AfterCall(b, c, r) == b
  {
  }

  /** Consecutive calls are at least as far apart as one token takes to come in. */
  ghost predicate Spaced(cs: seq<Call>, r: Rate) {
    && (forall i | 0 <= i < |cs| :: cs[i].lockFree)
    && forall i | 0 < i < |cs| :: cs[i - 1].now <= cs[i].now && Refill(cs[i - 1].now, cs[i].now, r) >= 1.0
  }

  /** The record lets the first call in. */
  predicate IsReady(b: Option<Bucket>, now: real, r: Rate) {
    b.Some? && b.value.readAt <= now ==> b.value.tokens + Refill(b.value.readAt, now, r) >= 1.0
  }

  /** Calls that far apart are all granted, however long the run. */
  lemma {:induction false} SpacedCallsAreGranted(b: Option<Bucket>, cs: seq<Call>, r: Rate)
    requires r.burst >= 1 && Spaced(cs, r) && (cs != [] ==> IsReady(b, cs[0].now, r))
    ensures Grants(b, cs, r) == |cs|
    ensures cs != [] ==> var after := AfterCalls(b, cs, r); after.Some? && after.value.readAt == cs[|cs| - 1].now && after.value.tokens >= 0.0
  {
    if cs != [] {
      var init, c := cs[..|cs| - 1], cs[|cs| - 1];
      SpacedCallsAreGranted(b, init, r);
      var before := AfterCalls(b, init, r);
      if init == [] {
        assert cs[0] == c;
      } else {
        assert init[0] == cs[0] && init[|init| - 1] == cs[|cs| - 2];
      }
      assert IsReady(before, c.now, r);
      ReadyIsGranted(before, c, r);
    }
  }

  lemma ReadyIsGranted(b: Option<Bucket>, c: Call, r: Rate)
    requires c.lockFree && r.burst >= 1 && IsReady(b, c.now, r)
    ensures Granted(b, c, r)
    ensures var after := AfterCall(b, c, r); after.Some? && after.value.readAt == c.now && after.value.tokens >= 0.0
  {
    if b.Some? && b.value.readAt <= c.now {
      GrantedWhenRefilled(b.value, c, r);
    } else {
      FreshWindowIsFull(b, c, r);
    }
  }

  /** From a fresh window, as many calls as the burst are granted at once, and the next one is refused. */
  lemma {:induction false} BurstIsGranted(now: real, n: nat, r: Rate)
    requires ValidRate(r) && n <= r.burst
    ensures var cs := seq(n, _ => Call(now, true));
            Grants(None, cs, r) == n && (n > 0 ==> AfterCalls(None, cs, r) == Some(Bucket(now, (r.burst - n) as real)))
    ensures n == r.burst > 0 ==> !Granted(AfterCalls(None, seq(n, _ => Call(now, true)), r), Call(now, true), r)
  {
    var cs := seq(n, _ => Call(now, true));
    if n > 0 {
      var init := seq(n - 1, _ => Call(now, true));
      BurstIsGranted(now, n - 1, r);
      assert cs[..n - 1] == init && cs[n - 1] == Call(now, true);
      if n > 1 {
        RecordHoldsWhatIsLeft((r.burst - (n - 1)) as real, now, r);
      }
      RecordHoldsWhatIsLeft((r.burst - n) as real, now, r);
    }
  }
}

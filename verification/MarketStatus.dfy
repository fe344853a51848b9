/**
  The market lifecycle table: completion of a market from its oracle events, end date and gamma
  closure, and the incremental sync of market_status_snapshot over the oracle event watermark.
*/
module MarketStatus {
  import opened Prelude

  // ----- oracle events and settlements -----

  datatype EventStatus = Settle | Propose | Dispute | OtherStatus

  /** SettlementResult; code 1 is YES, 2 is NO, 3 is cancelled, 0 is unknown. */
  datatype Settlement = Settlement(code: nat, source: Option<string>, raw: Option<string>,
                                   eventId: Option<int>, time: Option<int>)

  const NO_SETTLEMENT := Settlement(0, None, None, None, None)

  /** A row of oracle_events; parsed is what parse_oracle_settlement_event makes of it. */
  datatype OracleEvent = OracleEvent(id: int, marketId: Option<int>, status: EventStatus,
                                     block: int, log: int, parsed: Settlement)

  predicate Known(s: Settlement) {
    s.code in {1, 2, 3}
  }

  /** choose_best_settlement */
  function ChooseBest(oracle: Option<Settlement>, fast: Option<Settlement>): Settlement {
    if oracle.Some? && Known(oracle.value) then oracle.value
    else if fast.Some? && Known(fast.value) then fast.value
    else if oracle.Some? && oracle.value.raw.Some? then oracle.value
    else if fast.Some? && fast.value.raw.Some? then fast.value
    else NO_SETTLEMENT
  }

  /** MAX(CASE WHEN event_status = status THEN 1 ELSE 0 END) of a market's events */
  predicate HasStatus(events: seq<OracleEvent>, m: int, status: EventStatus) {
    exists e | e in events :: e.marketId == Some(m) && e.status == status
  }

  /** ORDER BY block_number DESC, log_index DESC, id DESC: does a come before b? */
  predicate Precedes(a: OracleEvent, b: OracleEvent) {
    || a.block > b.block
    || (a.block == b.block && a.log > b.log)
    || (a.block == b.block && a.log == b.log && a.id > b.id)
  }

  /** The first settle row of the market in that order. */
  function LatestSettle(events: seq<OracleEvent>, m: int): Option<OracleEvent> {
    if events == [] then None
    else
      var rest, e := LatestSettle(events[..|events| - 1], m), events[|events| - 1];
      if e.marketId != Some(m) || e.status != Settle then rest
      else if rest.None? || Precedes(e, rest.value) then Some(e)
      else rest
  }

  lemma {:induction false} LatestSettleIsFirst(events: seq<OracleEvent>, m: int)
    ensures LatestSettle(events, m).Some? <==> HasStatus(events, m, Settle)
    ensures LatestSettle(events, m).Some? ==>
              var best := LatestSettle(events, m).value;
              && best in events && best.marketId == Some(m) && best.status == Settle
              && (forall e | e in events && e.marketId == Some(m) && e.status == Settle :: e == best || !Precedes(e, best))
              && forall e | e in events && e.marketId == Some(m) && e.status == Settle ::
                   e.block < best.block || (e.block == best.block && (e.log < best.log || (e.log == best.log && e.id <= best.id)))
  {
    if events != [] {
      var init, e := events[..|events| - 1], events[|events| - 1];
      LatestSettleIsFirst(init, m);
      assert events == init + [e];
      assert forall x :: x in events <==> x in init || x == e;
    }
  }

  // ----- completion of a market -----

  datatype Flags = Flags(settle: bool, propose: bool, dispute: bool)

  datatype CompletionStatus =
    | Open | EndedAwaitingOracle | GammaClosedFallback | ClosedUnresolved
    | Proposed | Disputed | Settled | Cancelled | Unknown

  datatype Completion = Completion(isTradingClosed: bool, isResolved: bool, isFinal: bool, status: CompletionStatus,
                                   source: Option<string>, time: Option<int>, gammaClosed: bool, gammaTime: Option<int>)

  /** Everything besides the oracle events that a row depends on. */
  datatype Surroundings = Surroundings(fast: Option<Settlement>, gammaTime: Option<int>, endDate: Option<int>, now: int)

  function FlagsOf(events: seq<OracleEvent>, m: int): Flags {
    Flags(HasStatus(events, m, Settle), HasStatus(events, m, Propose), HasStatus(events, m, Dispute))
  }

  function OracleSettlement(events: seq<OracleEvent>, m: int): Option<Settlement> {
    var e := LatestSettle(events, m);
    if e.None? then None else Some(e.value.parsed)
  }

  function SourceOr(s: Settlement, default: string): Option<string> {
    if s.source.Some? && s.source.value != "" then s.source else Some(default)
  }

  /** _market_completion_tuple */
  function MarketCompletion(flags: Flags, s: Settlement, sur: Surroundings): Completion {
    var gammaClosed := sur.gammaTime.Some?;
    var endDatePast := sur.endDate.Some? && sur.endDate.value <= sur.now;
    var closed := flags.settle || gammaClosed || endDatePast || flags.propose || flags.dispute;
    var (status, source, time) :=
      if flags.settle then
        (if s.code == 3 then Cancelled else if Known(s) then Settled else Unknown, SourceOr(s, "oracle_settle"), s.time)
      else if flags.dispute then (Disputed, Some("oracle_dispute"), None)
      else if flags.propose then (Proposed, Some("oracle_propose"), None)
      else if gammaClosed then
        (if Known(s) then GammaClosedFallback else ClosedUnresolved, SourceOr(s, "gamma_closed"), sur.gammaTime)
      else if endDatePast then (EndedAwaitingOracle, Some("end_date"), sur.endDate)
      else (Open, None, None);
    Completion(closed, Known(s), flags.settle, status, source, time, gammaClosed, sur.gammaTime)
  }

  datatype StatusRow = StatusRow(flags: Flags, settlement: Settlement, completion: Completion)

  /** The snapshot row of a market, computed from a whole event table. */
  function RowOf(events: seq<OracleEvent>, m: int, sur: Surroundings): StatusRow {
    var flags, s := FlagsOf(events, m), ChooseBest(OracleSettlement(events, m), sur.fast);
    StatusRow(flags, s, MarketCompletion(flags, s, sur))
  }

  // ----- the lifecycle only moves forward -----

  function Rank(status: CompletionStatus): nat {
    match status
    case Open => 0
    case EndedAwaitingOracle => 1
    case GammaClosedFallback => 2
    case ClosedUnresolved => 2
    case Proposed => 3
    case Disputed => 4
    case Settled => 5
    case Cancelled => 5
    case Unknown => 5
  }

  lemma FlagsGrow(events: seq<OracleEvent>, more: seq<OracleEvent>, m: int, status: EventStatus)
    ensures HasStatus(events, m, status) ==> HasStatus(events + more, m, status)
  {
    if HasStatus(events, m, status) {
      var e :| e in events && e.marketId == Some(m) && e.status == status;
      assert e in events + more;
    }
  }

  /**
    Appending events, letting time pass and never withdrawing a gamma closure, a recompute never
    lowers a market's rank or reopens its trading; the status is Open exactly while trading is open.
    The fast settlement may change in any way.
  */
  lemma LifecycleMovesForward(events: seq<OracleEvent>, more: seq<OracleEvent>, m: int,
                              before: Surroundings, after: Surroundings)
    requires before.now <= after.now && before.endDate == after.endDate
    requires before.gammaTime.Some? ==> after.gammaTime.Some?
    ensures var old', new' := RowOf(events, m, before).completion, RowOf(events + more, m, after).completion;
            && Rank(old'.status) <= Rank(new'.status)
            && (old'.isTradingClosed ==> new'.isTradingClosed)
            && (old'.isFinal ==> new'.isFinal)
            && (old'.status == Open <==> !old'.isTradingClosed)
            && (Rank(old'.status) == 5 <==> old'.isFinal)
    ensures Rank(Open) < Rank(EndedAwaitingOracle) < Rank(GammaClosedFallback) == Rank(ClosedUnresolved) < Rank(Proposed) < Rank(Disputed)
    ensures Rank(Disputed) < Rank(Settled) == Rank(Cancelled) == Rank(Unknown)
  {
    FlagsGrow(events, more, m, Settle);
    FlagsGrow(events, more, m, Propose);
    FlagsGrow(events, more, m, Dispute);
  }

  // ----- incremental sync -----

  /** The row of m is a recompute over the whole event table, in the surroundings noted for it. */
  ghost predicate Fresh(snapshot: map<int, StatusRow>, writtenIn: map<int, Surroundings>, events: seq<OracleEvent>, m: int) {
    m in snapshot && m in writtenIn && snapshot[m] == RowOf(events, m, writtenIn[m])
  }

  /** One of the market's events has the status. */
  ghost predicate Saw(events: seq<OracleEvent>, m: int, status: EventStatus) {
    exists i :: 0 <= i < |events| && events[i].marketId == Some(m) && events[i].status == status
  }

  /** The latest settle event's settlement if known, else the fast one if known, else the first with a raw value. */
  ghost predicate ShowsSettlement(s: Settlement, events: seq<OracleEvent>, m: int, fast: Option<Settlement>) {
    var e := LatestSettle(events, m);
    if e.Some? && e.value.parsed.code in {1, 2, 3} then s == e.value.parsed
    else if fast.Some? && fast.value.code in {1, 2, 3} then s == fast.value
    else if e.Some? && e.value.parsed.raw.Some? then s == e.value.parsed
    else if fast.Some? && fast.value.raw.Some? then s == fast.value
    else s == Settlement(0, None, None, None, None)
  }

  function SourceIs(s: Settlement, default: string): Option<string> {
    if s.source.None? || s.source == Some("") then Some(default) else s.source
  }

  /** The status, source and time of a market by what has happened to it, the most final first. */
  ghost predicate ShowsStatus(row: StatusRow, events: seq<OracleEvent>, m: int, sur: Surroundings) {
    var s, c := row.settlement, row.completion;
    && (Saw(events, m, Settle) ==>
          && (s.code == 3 <==> c.status == Cancelled)
          && (s.code == 1 || s.code == 2 <==> c.status == Settled)
          && (s.code !in {1, 2, 3} <==> c.status == Unknown)
          && c.source == SourceIs(s, "oracle_settle") && c.time == s.time)
    && (!Saw(events, m, Settle) && Saw(events, m, Dispute) ==>
          c.status == Disputed && c.source == Some("oracle_dispute") && c.time == None)
    && (!Saw(events, m, Settle) && !Saw(events, m, Dispute) && Saw(events, m, Propose) ==>
          c.status == Proposed && c.source == Some("oracle_propose") && c.time == None)
    && (!Saw(events, m, Settle) && !Saw(events, m, Dispute) && !Saw(events, m, Propose) && sur.gammaTime.Some? ==>
          && (s.code in {1, 2, 3} <==> c.status == GammaClosedFallback)
          && (s.code !in {1, 2, 3} <==> c.status == ClosedUnresolved)
          && c.source == SourceIs(s, "gamma_closed") && c.time == sur.gammaTime)
    && (!Saw(events, m, Settle) && !Saw(events, m, Dispute) && !Saw(events, m, Propose) && sur.gammaTime.None? ==>
          if sur.endDate.Some? && sur.endDate.value <= sur.now
          then c.status == EndedAwaitingOracle && c.source == Some("end_date") && c.time == sur.endDate
          else c.status == Open && c.source == None && c.time == None)
  }

  /**
    What a fresh row shows, in terms of the events and of the surroundings it was written in: the flags,
    the settlement, whether trading is closed, resolved, final and closed by gamma, and the status.
  */
  lemma FreshRowShows(snapshot: map<int, StatusRow>, writtenIn: map<int, Surroundings>, events: seq<OracleEvent>, m: int)
    requires Fresh(snapshot, writtenIn, events, m)
    ensures var row, sur := snapshot[m], writtenIn[m];
            && (row.flags.settle <==> Saw(events, m, Settle))
            && (row.flags.propose <==> Saw(events, m, Propose))
            && (row.flags.dispute <==> Saw(events, m, Dispute))
            && ShowsSettlement(row.settlement, events, m, sur.fast)
    ensures var row, sur := snapshot[m], writtenIn[m];
            && (row.completion.isFinal <==> Saw(events, m, Settle))
            && (row.completion.isResolved <==> row.settlement.code in {1, 2, 3})
            && (row.completion.gammaClosed <==> sur.gammaTime.Some?) && row.completion.gammaTime == sur.gammaTime
            && (row.completion.isTradingClosed <==>
                  || Saw(events, m, Settle) || Saw(events, m, Propose) || Saw(events, m, Dispute)
                  || sur.gammaTime.Some? || (sur.endDate.Some? && sur.endDate.value <= sur.now))
    ensures ShowsStatus(snapshot[m], events, m, writtenIn[m])
  {
    SawIsStatus(events, m, Settle);
    SawIsStatus(events, m, Propose);
    SawIsStatus(events, m, Dispute);
    LatestSettleIsFirst(events, m);
  }

  lemma SawIsStatus(events: seq<OracleEvent>, m: int, status: EventStatus)
    ensures Saw(events, m, status) <==> HasStatus(events, m, status)
  {
    if HasStatus(events, m, status) {
      var e :| e in events && e.marketId == Some(m) && e.status == status;
      var i :| 0 <= i < |events| && events[i] == e;
    }
  }

  ghost predicate IncreasingIds(events: seq<OracleEvent>) {
    forall i, j | 0 <= i < j < |events| :: events[i].id < events[j].id
  }

  /** WHERE id > seen AND market_id IS NOT NULL ORDER BY id */
  function Pending(events: seq<OracleEvent>, seen: int): seq<OracleEvent> {
    if events == [] then []
    else
      (if events[0].id > seen && events[0].marketId.Some? then [events[0]] else []) + Pending(events[1..], seen)
  }

  lemma {:induction false} PendingElements(events: seq<OracleEvent>, seen: int)
    ensures forall e :: e in Pending(events, seen) <==> e in events && e.id > seen && e.marketId.Some?
    ensures IncreasingIds(events) ==> IncreasingIds(Pending(events, seen))
  {
    if events != [] {
      PendingElements(events[1..], seen);
      assert events == [events[0]] + events[1..];
      if IncreasingIds(events) {
        forall e | e in events[1..]
          ensures events[0].id < e.id
        {
        }
      }
    }
  }

  lemma {:induction false} PendingAgain(events: seq<OracleEvent>, seen: int, later: int)
    requires seen <= later
    ensures Pending(Pending(events, seen), later) == Pending(events, later)
  {
    if events != [] {
      PendingAgain(events[1..], seen, later);
      var head := if events[0].id > seen && events[0].marketId.Some? then [events[0]] else [];
      assert head != [] ==> (head + Pending(events[1..], seen))[1..] == Pending(events[1..], seen);
      assert head == [] ==> head + Pending(events[1..], seen) == Pending(events[1..], seen);
    }
  }

  lemma {:induction false} PendingDrops(queue: seq<OracleEvent>, n: nat)
    requires IncreasingIds(queue) && 0 < n <= |queue|
    requires forall e | e in queue :: e.marketId.Some?
    ensures Pending(queue, queue[n - 1].id) == queue[n..]
  {
    var rest := queue[1..];
    assert forall i | 0 <= i < |rest| :: rest[i] == queue[i + 1];
    if n == 1 {
      AllPending(rest, queue[0].id);
    } else {
      PendingDrops(rest, n - 1);
      assert rest[n - 2] == queue[n - 1];
    }
  }

  lemma {:induction false} AllPending(queue: seq<OracleEvent>, seen: int)
    requires forall e | e in queue :: e.marketId.Some? && e.id > seen
    ensures Pending(queue, seen) == queue
  {
    if queue != [] {
      AllPending(queue[1..], seen);
    }
  }

  function MarketIds(events: seq<OracleEvent>): set<int> {
    set e | e in events && e.marketId.Some? :: e.marketId.value
  }

  /** SELECT ... LIMIT batchSize */
  function FetchEvents(events: seq<OracleEvent>, seen: int, batchSize: nat): seq<OracleEvent> {
    var queue := Pending(events, seen);
    if batchSize < |queue| then queue[..batchSize] else queue
  }

  /** After a batch, exactly the rest is pending. */
  lemma BatchAdvances(events: seq<OracleEvent>, seen: int, batchSize: nat)
    requires IncreasingIds(events) && FetchEvents(events, seen, batchSize) != []
    ensures var rows := FetchEvents(events, seen, batchSize);
            var next := rows[|rows| - 1].id;
            && next > seen && IncreasingIds(rows)
            && (forall e | e in rows :: e.id > seen)
            && Pending(events, next) == Pending(events, seen)[|rows|..]
            && MarketIds(Pending(events, seen)) == MarketIds(rows) + MarketIds(Pending(events, next))
  {
    var queue, rows := Pending(events, seen), FetchEvents(events, seen, batchSize);
    PendingElements(events, seen);
    assert rows == queue[..|rows|];
    PrefixOf(queue, |rows|);
    PendingAgain(events, seen, rows[|rows| - 1].id);
    PendingDrops(queue, |rows|);
    SplitMarketIds(rows, queue[|rows|..]);
  }

  lemma PrefixOf(queue: seq<OracleEvent>, n: nat)
    requires 0 < n <= |queue| && IncreasingIds(queue)
    ensures queue == queue[..n] + queue[n..] && queue[..n][n - 1] == queue[n - 1]
    ensures IncreasingIds(queue[..n]) && (forall e | e in queue[..n] :: e in queue)
  {
  }

  lemma SplitMarketIds(a: seq<OracleEvent>, b: seq<OracleEvent>)
    ensures MarketIds(a + b) == MarketIds(a) + MarketIds(b)
  {
  }

  /** latest_seen_event_id = max(latest_seen_event_id, int(row id)) over a batch */
  method MaxEventId(rows: seq<OracleEvent>, seen: int) returns (max: int)
    requires rows != [] && IncreasingIds(rows) && forall e | e in rows :: e.id > seen
    ensures max == rows[|rows| - 1].id
  {
    max := seen;
    for i := 0 to |rows|
      invariant max == if i == 0 then seen else rows[i - 1].id
    {
      if rows[i].id > max {
        max := rows[i].id;
      }
    }
  }

  // ----- the snapshot table -----

  const END_DATE_LIMIT: nat := 50_000

  /** sorted({int(id) for id in ids if id}): id 0 is falsy and dropped. */
  function Normalized(ids: set<int>): set<int> {
    ids - {0}
  }

  // ----- arrivals -----

  function LastEventId(events: seq<OracleEvent>): int {
    if events == [] then 0 else events[|events| - 1].id
  }

  /** Events the oracle indexer appends: their ids grow above everything before. */
  ghost predicate Follows(events: seq<OracleEvent>, arrivals: seq<OracleEvent>) {
    IncreasingIds(arrivals) && forall e | e in arrivals :: e.id > LastEventId(events)
  }

  ghost predicate FeedFollows(events: seq<OracleEvent>, feed: seq<seq<OracleEvent>>)
    decreases |feed|
  {
    feed != [] ==> Follows(events, feed[0]) && FeedFollows(events + feed[0], feed[1..])
  }

  lemma ArrivalsIncrease(events: seq<OracleEvent>, arrivals: seq<OracleEvent>)
    requires IncreasingIds(events) && Follows(events, arrivals)
    ensures IncreasingIds(events + arrivals) && LastEventId(events) <= LastEventId(events + arrivals)
  {
    assert forall i | 0 <= i < |arrivals| :: arrivals[i] in arrivals;
    if arrivals != [] {
      assert (events + arrivals)[|events + arrivals| - 1] == arrivals[|arrivals| - 1];
    } else {
      assert events + arrivals == events;
    }
  }

  lemma {:induction false} PendingAppend(a: seq<OracleEvent>, b: seq<OracleEvent>, seen: int)
    ensures Pending(a + b, seen) == Pending(a, seen) + Pending(b, seen)
  {
    if a == [] {
      assert a + b == b;
    } else {
      assert (a + b)[1..] == a[1..] + b;
      PendingAppend(a[1..], b, seen);
      var head := if a[0].id > seen && a[0].marketId.Some? then [a[0]] else [];
      Regroup(head, Pending(a[1..], seen), Pending(b, seen));
    }
  }

  /** Of events above both marks, the same are pending at either. */
  lemma {:induction false} PendingAbove(b: seq<OracleEvent>, seen: int, later: int)
    requires forall e | e in b :: e.id > seen && e.id > later
    ensures Pending(b, seen) == Pending(b, later)
  {
    if b != [] {
      PendingAbove(b[1..], seen, later);
    }
  }

  /** What was collected, and what is still pending, together are what was pending at the start. */
  ghost predicate IsCollected(events: seq<OracleEvent>, updated: set<int>, watermark: int, latestSeen: int) {
    updated + MarketIds(Pending(events, latestSeen)) == MarketIds(Pending(events, watermark))
  }

  lemma ArrivalsKeepCollected(events: seq<OracleEvent>, arrivals: seq<OracleEvent>, updated: set<int>, watermark: int, latestSeen: int)
    requires IsCollected(events, updated, watermark, latestSeen)
    requires Follows(events, arrivals) && watermark <= latestSeen <= LastEventId(events)
    ensures IsCollected(events + arrivals, updated, watermark, latestSeen)
  {
    PendingAppend(events, arrivals, latestSeen);
    PendingAppend(events, arrivals, watermark);
    PendingAbove(arrivals, watermark, latestSeen);
    SplitMarketIds(Pending(events, latestSeen), Pending(arrivals, latestSeen));
    SplitMarketIds(Pending(events, watermark), Pending(arrivals, watermark));
  }

  lemma FetchKeepsCollected(events: seq<OracleEvent>, updated: set<int>, watermark: int, latestSeen: int, batchSize: nat)
    requires IncreasingIds(events) && IsCollected(events, updated, watermark, latestSeen)
    requires FetchEvents(events, latestSeen, batchSize) != []
    ensures var rows := FetchEvents(events, latestSeen, batchSize);
            var next := rows[|rows| - 1].id;
            && IsCollected(events, updated + MarketIds(rows), watermark, next)
            && latestSeen < next <= LastEventId(events) && IncreasingIds(rows) && (forall e | e in rows :: e.id > latestSeen)
            && |Pending(events, next)| < |Pending(events, latestSeen)|
            && (|rows| < batchSize ==> Pending(events, next) == [])
  {
    var rows := FetchEvents(events, latestSeen, batchSize);
    BatchAdvances(events, latestSeen, batchSize);
    PendingElements(events, latestSeen);
    assert rows[|rows| - 1] in Pending(events, latestSeen);
    LastIdIsGreatest(events, rows[|rows| - 1]);
  }

  /** One fetch: more is false when the loop ends with it. */
  method CollectBatch(events: seq<OracleEvent>, updated: set<int>, ghost watermark: int, latestSeen: int, batchSize: nat)
    returns (updated': set<int>, latestSeen': int, more: bool)
    requires IncreasingIds(events) && IsCollected(events, updated, watermark, latestSeen) && latestSeen <= LastEventId(events)
    ensures IsCollected(events, updated', watermark, latestSeen') && latestSeen <= latestSeen' <= LastEventId(events)
    ensures more ==> |Pending(events, latestSeen')| < |Pending(events, latestSeen)|
    ensures batchSize > 0 && !more ==> Pending(events, latestSeen') == []
    ensures batchSize == 0 ==> updated' == updated && latestSeen' == latestSeen && !more
  {
    updated', latestSeen', more := updated, latestSeen, false;
    var rows := FetchEvents(events, latestSeen, batchSize);
    if rows != [] {
      FetchKeepsCollected(events, updated, watermark, latestSeen, batchSize);
      updated' := updated + MarketIds(rows);
      latestSeen' := MaxEventId(rows, latestSeen);
      more := |rows| >= batchSize;
    }
  }

  lemma LastIdIsGreatest(events: seq<OracleEvent>, e: OracleEvent)
    requires IncreasingIds(events) && e in events
    ensures e.id <= LastEventId(events)
  {
  }

  // ----- fresh tables -----

  /** Every market with an event, all of them counted as seen and none of them missed, has a fresh row. */
  ghost predicate AllFresh(snapshot: map<int, StatusRow>, writtenIn: map<int, Surroundings>, events: seq<OracleEvent>,
                           watermark: int, missed: set<int>)
  {
    forall m | m != 0 && m in MarketIds(events) && m !in MarketIds(Pending(events, watermark)) && m !in missed ::
      Fresh(snapshot, writtenIn, events, m)
  }

  ghost predicate AreRows(rows: map<int, StatusRow>, written: map<int, Surroundings>, ids: set<int>, events: seq<OracleEvent>) {
    && rows.Keys == ids && written.Keys == ids
    && forall m | m in ids :: rows[m] == RowOf(events, m, written[m])
  }

  /** Every market but 0 whose end date has passed has a row that shows closed trading. */
  ghost predicate AreClosed(rows: map<int, StatusRow>, around: Around, now: int) {
    forall m | m != 0 && m in around.endDates && around.endDates[m].Some? && around.endDates[m].value <= now ::
      m in rows && rows[m].completion.isTradingClosed
  }

  lemma ArrivalsKeepFresh(snapshot: map<int, StatusRow>, writtenIn: map<int, Surroundings>, events: seq<OracleEvent>,
                          arrivals: seq<OracleEvent>, watermark: int, missed: set<int>)
    requires AllFresh(snapshot, writtenIn, events, watermark, missed)
    requires forall e | e in arrivals :: e.id > watermark
    ensures AllFresh(snapshot, writtenIn, events + arrivals, watermark, missed)
  {
    forall m | m != 0 && m in MarketIds(events + arrivals) && m !in MarketIds(Pending(events + arrivals, watermark)) && m !in missed
      ensures Fresh(snapshot, writtenIn, events + arrivals, m)
    {
      UnaffectedMarket(events, arrivals, watermark, m);
    }
  }

  /** Markets with one of these arrivals whose row a recompute would change. */
  ghost function Missed(snapshot: map<int, StatusRow>, writtenIn: map<int, Surroundings>, events: seq<OracleEvent>,
                        arrivals: seq<OracleEvent>): set<int>
  {
    set m | m in MarketIds(arrivals) && !Fresh(snapshot, writtenIn, events, m)
  }

  /** Rows read from some events, and fresh after more arrived exactly when those keep them. */
  ghost predicate IsRefreshed(rows: map<int, StatusRow>, written: map<int, Surroundings>, read: seq<OracleEvent>, between: seq<OracleEvent>) {
    && AreRows(rows, written, rows.Keys, read)
    && forall m | m in rows :: Fresh(rows, written, read + between, m) <==> RowKept(read, between, m, written[m])
  }

  /** After a full refresh, by market: the row is fresh unless an event between the reads changes it. */
  lemma RefreshIsFresh(rows: map<int, StatusRow>, written: map<int, Surroundings>, ids: set<int>,
                       read: seq<OracleEvent>, between: seq<OracleEvent>, seen: int)
    requires AreRows(rows, written, ids, read) && MarketIds(read) <= ids
    ensures IsRefreshed(rows, written, read, between)
    ensures AllFresh(rows, written, read + between, seen, Missed(rows, written, read + between, between))
  {
    forall m | m in ids
      ensures Fresh(rows, written, read + between, m) <==> RowKept(read, between, m, written[m])
    {
      RowKeptExactlyWhen(read, between, m, written[m]);
    }
    SplitMarketIds(read, between);
    forall m | m in MarketIds(read + between) && m !in MarketIds(between)
      ensures Fresh(rows, written, read + between, m)
    {
      assert forall e | e in between :: e.marketId != Some(m);
      OtherMarkets(read, between, m);
    }
  }

  /** The rows an incremental sync writes, over those it leaves, are fresh at the watermark it moves to. */
  lemma IncrementIsFresh(snapshot: map<int, StatusRow>, writtenIn: map<int, Surroundings>, missed: set<int>, watermark: int,
                         read: seq<OracleEvent>, between: seq<OracleEvent>, updated: set<int>, latestSeen: int,
                         rows: map<int, StatusRow>, written: map<int, Surroundings>,
                         due: set<int>, dueRows: map<int, StatusRow>, dueWritten: map<int, Surroundings>)
    requires AllFresh(snapshot, writtenIn, read + between, watermark, missed)
    requires IsCollected(read + between, updated, watermark, latestSeen)
    requires forall e | e in between :: e.id > latestSeen
    requires AreRows(rows, written, Normalized(updated), read) && AreRows(dueRows, dueWritten, Normalized(due), read + between)
    ensures AllFresh(snapshot + rows + dueRows, writtenIn + written + dueWritten, read + between, latestSeen,
                     missed - Normalized(updated) - Normalized(due))
  {
    var events := read + between;
    forall m | m != 0 && m in MarketIds(events) && m !in MarketIds(Pending(events, latestSeen)) &&
               m !in missed - Normalized(updated) - Normalized(due)
      ensures Fresh(snapshot + rows + dueRows, writtenIn + written + dueWritten, events, m)
    {
      if m !in due && m in updated {
        UnaffectedMarket(read, between, latestSeen, m);
      }
    }
  }

  /** An incremental sync rewrites what it collected and what is due, and never row 0. */
  lemma IncrementWrites(snapshot: map<int, StatusRow>, writtenIn: map<int, Surroundings>, missed: set<int>, updated: set<int>,
                        rows: map<int, StatusRow>, written: map<int, Surroundings>,
                        due: set<int>, dueRows: map<int, StatusRow>, dueWritten: map<int, Surroundings>, around: Around, now: int)
    requires rows.Keys == Normalized(updated) && dueRows.Keys == Normalized(due)
    requires written == Noted(around, Normalized(updated), now) && dueWritten == Noted(around, Normalized(due), now)
    ensures AreRewritten(writtenIn + written + dueWritten, missed - Normalized(updated) - Normalized(due), Normalized(updated), around, now)
    ensures SameRow(snapshot, snapshot + rows + dueRows, 0)
  {
  }

  predicate SameRow(a: map<int, StatusRow>, b: map<int, StatusRow>, m: int) {
    (m in a <==> m in b) && (m in a ==> a[m] == b[m])
  }

  // ----- the snapshot and its sync -----

  /** What the other tables say of the markets: end dates, fast resolutions and gamma closing times. */
  datatype Around = Around(endDates: map<int, Option<int>>, fast: map<int, Settlement>, closedTimes: map<int, Option<int>>)

  function SurroundingsOf(around: Around, m: int, now: int): Surroundings {
    Surroundings(if m in around.fast then Some(around.fast[m]) else None,
                 if m in around.closedTimes then around.closedTimes[m] else None,
                 if m in around.endDates then around.endDates[m] else None, now)
  }

  /** The surroundings of some markets. */
  function Noted(around: Around, ids: set<int>, now: int): map<int, Surroundings> {
    map m | m in ids :: SurroundingsOf(around, m, now)
  }

  /** The markets that a full refresh writes: all that any of the tables knows. */
  function RefreshIds(around: Around, events: seq<OracleEvent>): set<int> {
    around.endDates.Keys + MarketIds(events) + around.fast.Keys + around.closedTimes.Keys
  }

  /** Exactly the markets of any table, each in its surroundings. */
  ghost predicate KnowsAll(writtenIn: map<int, Surroundings>, around: Around, events: seq<OracleEvent>, now: int) {
    && (forall m :: m in writtenIn <==>
          m in around.endDates || m in around.fast || m in around.closedTimes || exists e | e in events :: e.marketId == Some(m))
    && forall m | m in writtenIn :: IsIn(writtenIn[m], around, m, now)
  }

  lemma NotedKnowsAll(around: Around, events: seq<OracleEvent>, now: int)
    ensures KnowsAll(Noted(around, RefreshIds(around, events), now), around, events, now)
  {
  }

  predicate HasEnded(around: Around, m: int, now: int) {
    m in around.endDates && around.endDates[m].Some? && around.endDates[m].value <= now
  }

  /** Markets whose end date has passed but whose row, if any, still shows open trading. */
  function DueMarkets(around: Around, rows: map<int, StatusRow>, now: int): set<int> {
    set m | m in around.endDates.Keys && HasEnded(around, m, now) && (m in rows ==> !rows[m].completion.isTradingClosed)
  }

  /** The rows of these markets were computed in the present surroundings, and nothing of theirs is missed. */
  ghost predicate AreRewritten(writtenIn: map<int, Surroundings>, missed: set<int>, ms: set<int>, around: Around, now: int) {
    forall m | m in ms :: m in writtenIn && IsIn(writtenIn[m], around, m, now) && m !in missed
  }

  /** End date, fast settlement and gamma closing time of the market, and the time of writing. */
  predicate IsIn(sur: Surroundings, around: Around, m: int, now: int) {
    && sur.now == now
    && sur.endDate == (if m in around.endDates then around.endDates[m] else None)
    && sur.fast == (if m in around.fast then Some(around.fast[m]) else None)
    && sur.gammaTime == (if m in around.closedTimes then around.closedTimes[m] else None)
  }


  class StatusConnection {
    var events: seq<OracleEvent>
    var around: Around                         // markets and market_resolution_fast
    var snapshot: map<int, StatusRow>          // market_status_snapshot, committed
    var watermark: int                         // sync_state row, 0 when absent
    ghost var writtenIn: map<int, Surroundings>   // what each row was computed in
    ghost var missed: set<int>                 // markets with an event counted as seen but not read

    /** Markets with nothing above the watermark and nothing missed have rows that equal a recompute. */
    ghost predicate Valid()
      reads this
    {
      && IncreasingIds(events) && watermark <= LastEventId(events)
      && (watermark > 0 ==> AllFresh(snapshot, writtenIn, events, watermark, missed))
    }

    constructor ()
      ensures Valid() && events == [] && watermark == 0 && missed == {}
    {
      events, watermark := [], 0;
      around, snapshot := Around(map[], map[], map[]), map[];
      writtenIn, missed := map[], {};
    }

    method AppendEvents(arrivals: seq<OracleEvent>)
      requires Valid() && Follows(events, arrivals)
      modifies this`events
      ensures Valid() && events == old(events) + arrivals
    {
      ArrivalsIncrease(events, arrivals);
      if watermark > 0 {
        ArrivalsKeepFresh(snapshot, writtenIn, events, arrivals, watermark, missed);
      }
      events := events + arrivals;
    }

    /** Markets, fast resolutions and closed times change independently of the events. */
    method ChangeSurroundings(around': Around)
      requires Valid()
      modifies this`around
      ensures Valid() && around == around'
    {
      around := around';
    }

    /** _build_market_status_snapshot_rows for the given output ids */
    method BuildRows(ids: set<int>, now: int) returns (rows: map<int, StatusRow>, ghost written: map<int, Surroundings>)
      ensures written == Noted(around, ids, now)
      ensures AreRows(rows, written, ids, events)
    {
      written := Noted(around, ids, now);
      rows := map m | m in ids :: RowOf(events, m, SurroundingsOf(around, m, now));
    }

    /**
      _full_refresh_market_status_snapshot: the rows are read first and the greatest id afterwards.
      A row is a recompute over all events now counted as seen exactly when RowKept says so of the
      events that arrived between the two reads.
    */
    method FullRefresh(now: int, between: seq<OracleEvent>, raises: bool)
      requires Valid() && Follows(events, between)
      modifies this`events, this`snapshot, this`watermark, this`writtenIn, this`missed
      ensures Valid() && events == old(events) + between
      ensures raises ==> Holds(old(snapshot), old(watermark), old(writtenIn), old(missed))
      ensures !raises ==>
                && watermark == LastEventId(events) && Pending(events, watermark) == []
                && AllFresh(snapshot, writtenIn, events, watermark, missed)
                && missed == Missed(snapshot, writtenIn, events, between)
                && IsRefreshed(snapshot, writtenIn, old(events), between)
      ensures !raises ==> writtenIn == Noted(around, RefreshIds(around, old(events)), now) && KnowsAll(writtenIn, around, old(events), now)
    {
      ghost var read := events;
      var ids := RefreshIds(around, events);
      var rows, written := BuildRows(ids, now);
      AppendEvents(between);
      var latest := if events == [] then 0 else events[|events| - 1].id;
      RefreshIsFresh(rows, written, ids, read, between, latest);
      AllSeen(events, latest);
      NotedKnowsAll(around, read, now);
      if !raises {
        Store(rows, latest, written, Missed(rows, written, events, between));
      }
    }

    /** The commit of new rows and a new watermark. */
    method Store(rows: map<int, StatusRow>, mark: int, ghost written: map<int, Surroundings>, ghost miss: set<int>)
      requires IncreasingIds(events) && mark <= LastEventId(events) && AllFresh(rows, written, events, mark, miss)
      modifies this`snapshot, this`watermark, this`writtenIn, this`missed
      ensures Valid() && Holds(rows, mark, written, miss)
    {
      snapshot, watermark, writtenIn, missed := rows, mark, written, miss;
    }

    /** The snapshot, its watermark and what is noted of them. */
    ghost predicate Holds(rows: map<int, StatusRow>, mark: int, written: map<int, Surroundings>, miss: set<int>)
      reads this
    {
      snapshot == rows && watermark == mark && writtenIn == written && missed == miss
    }

    /** _fetch_markets_closed_by_end_date: the due markets, cut off at the limit. */
    method MarketsClosedByEndDate(rows: map<int, StatusRow>, now: int) returns (ids: set<int>)
      ensures ids <= DueMarkets(around, rows, now) && |ids| <= 50_000
      ensures |around.endDates| <= 50_000 ==> ids == DueMarkets(around, rows, now)
    {
      var due := DueMarkets(around, rows, now);
      ids := {};
      SubsetIsSmaller(due, around.endDates.Keys);
      while |ids| < END_DATE_LIMIT && due != {}
        invariant ids + due == DueMarkets(around, rows, now) && ids !! due && |ids| <= END_DATE_LIMIT
        decreases |due|
      {
        var m := AnyOf(due);
        ids, due := ids + {m}, due - {m};
      }
      assert |ids + due| == |ids| + |due|;
    }

    /** The loop over pending events, a batch at a time; a piece of the feed arrives before each fetch. */
    method CollectUpdated(batchSize: nat, feed: seq<seq<OracleEvent>>)
      returns (updated: set<int>, latestSeen: int, rest: seq<seq<OracleEvent>>)
      requires Valid() && FeedFollows(events, feed)
      modifies this`events
      ensures Valid() && old(events) <= events && FeedFollows(events, rest)
      ensures IsCollected(events, updated, watermark, latestSeen) && watermark <= latestSeen <= LastEventId(events)
      ensures batchSize > 0 ==> Pending(events, latestSeen) == []
      ensures batchSize == 0 ==> updated == {} && latestSeen == watermark
      ensures feed == [] ==> events == old(events) && rest == []
    {
      rest := feed;
      updated, latestSeen := {}, watermark;
      while true
        invariant Valid() && FeedFollows(events, rest) && old(events) <= events
        invariant IsCollected(events, updated, watermark, latestSeen) && watermark <= latestSeen <= LastEventId(events)
        invariant batchSize == 0 ==> updated == {} && latestSeen == watermark
        invariant feed == [] ==> rest == [] && events == old(events)
        decreases |rest|, |Pending(events, latestSeen)|
      {
        rest := Arrive(rest, updated, latestSeen);
        var more;
        updated, latestSeen, more := CollectBatch(events, updated, watermark, latestSeen, batchSize);
        if !more {
          break;
        }
      }
    }

    /** The next piece of the feed arrives, if there is one. */
    method Arrive(feed: seq<seq<OracleEvent>>, ghost updated: set<int>, ghost latestSeen: int) returns (rest: seq<seq<OracleEvent>>)
      requires Valid() && FeedFollows(events, feed)
      requires IsCollected(events, updated, watermark, latestSeen) && watermark <= latestSeen <= LastEventId(events)
      modifies this`events
      ensures Valid() && FeedFollows(events, rest) && old(events) <= events
      ensures IsCollected(events, updated, watermark, latestSeen) && latestSeen <= LastEventId(events)
      ensures feed == [] ==> rest == [] && events == old(events)
      ensures feed != [] ==> rest == feed[1..] && events == old(events) + feed[0]
      ensures forall e | e in events[|old(events)|..] :: e.id > latestSeen
    {
      rest := feed;
      if feed != [] {
        ArrivalsKeepCollected(events, feed[0], updated, watermark, latestSeen);
        ArrivalsIncrease(events, feed[0]);
        AppendEvents(feed[0]);
        rest := feed[1..];
      }
    }

    /**
      The incremental part: pieces of the feed arrive before each fetch, before the rows are read and
      before the due markets are. Whatever it counts as seen it has read, so nothing is missed.
    */
    method SyncIncrement(batchSize: nat, now: int, feed: seq<seq<OracleEvent>>, raises: bool)
      requires Valid() && watermark > 0 && FeedFollows(events, feed)
      modifies this`events, this`snapshot, this`watermark, this`writtenIn, this`missed
      ensures Valid() && old(events) <= events && watermark > 0
      ensures feed == [] ==> events == old(events)
      ensures raises ==> Holds(old(snapshot), old(watermark), old(writtenIn), old(missed))
      ensures !raises ==> missed <= old(missed) && old(watermark) <= watermark
      ensures !raises && batchSize > 0 ==>
                && Pending(old(events), watermark) == []
                && AreRewritten(writtenIn, missed, Normalized(MarketIds(Pending(old(events), old(watermark)))), around, now)
      ensures !raises && |around.endDates| <= 50_000 ==> AreClosed(snapshot, around, now)
      ensures SameRow(old(snapshot), snapshot, 0)
    {
      var updated, latestSeen, rest := CollectUpdated(batchSize, feed);
      CollectedAll(old(events), events, updated, watermark, latestSeen);
      rest := Arrive(rest, updated, latestSeen);
      WriteIncrement(updated, latestSeen, now, rest, raises);
    }

    /** The rows of the collected markets, then those of the due ones, and the new watermark. */
    method WriteIncrement(updated: set<int>, latestSeen: int, now: int, feed: seq<seq<OracleEvent>>, raises: bool)
      requires Valid() && 0 < watermark <= latestSeen <= LastEventId(events) && FeedFollows(events, feed)
      requires IsCollected(events, updated, watermark, latestSeen)
      modifies this`events, this`snapshot, this`watermark, this`writtenIn, this`missed
      ensures Valid() && old(events) <= events && (feed == [] ==> events == old(events))
      ensures raises ==> Holds(old(snapshot), old(watermark), old(writtenIn), old(missed))
      ensures !raises ==> watermark == latestSeen && missed <= old(missed) && AreRewritten(writtenIn, missed, Normalized(updated), around, now)
      ensures !raises && |around.endDates| <= 50_000 ==> AreClosed(snapshot, around, now)
      ensures SameRow(old(snapshot), snapshot, 0)
    {
      ghost var read := events;
      var rows, written := BuildRows(Normalized(updated), now);
      var rest := Arrive(feed, updated, latestSeen);
      var due, dueRows, dueWritten := BuildDue(snapshot + rows, now);
      assert events == read + events[|read|..];
      IncrementIsFresh(snapshot, writtenIn, missed, watermark, read, events[|read|..], updated, latestSeen,
                       rows, written, due, dueRows, dueWritten);
      IncrementWrites(snapshot, writtenIn, missed, updated, rows, written, due, dueRows, dueWritten, around, now);
      if !raises {
        Store(snapshot + rows + dueRows, latestSeen, writtenIn + written + dueWritten, missed - Normalized(updated) - Normalized(due));
      }
    }

    /** The rows of the due markets, over the rows that are there. */
    method BuildDue(rows: map<int, StatusRow>, now: int)
      returns (due: set<int>, dueRows: map<int, StatusRow>, ghost dueWritten: map<int, Surroundings>)
      ensures AreRows(dueRows, dueWritten, Normalized(due), events)
      ensures dueWritten == Noted(around, Normalized(due), now)
      ensures |around.endDates| <= 50_000 ==> AreClosed(rows + dueRows, around, now)
    {
      due := MarketsClosedByEndDate(rows, now);
      dueRows, dueWritten := BuildRows(Normalized(due), now);
    }

    /**
      _sync_market_status_snapshot and the commit that follows it, with events arriving in between
      (the pieces of the feed). When a statement raises, the rollback leaves snapshot and watermark as
      they were. After a commit every event that was there at the start is counted as seen, and every
      market but 0 whose events are all seen has a fresh row unless it is missed; only a full refresh
      adds missed markets, and only those whose row an event between its two reads changes.
    */
    method SyncMarketStatusSnapshot(batchSize: nat, now: int, feed: seq<seq<OracleEvent>>, raises: bool)
      requires Valid() && FeedFollows(events, feed)
      modifies this`events, this`snapshot, this`watermark, this`writtenIn, this`missed
      ensures Valid() && old(events) <= events && (feed == [] ==> events == old(events))
      ensures raises ==> Holds(old(snapshot), old(watermark), old(writtenIn), old(missed))
      ensures !raises && batchSize > 0 ==>
                Pending(old(events), watermark) == [] && AllFresh(snapshot, writtenIn, events, watermark, missed)
      ensures !raises && old(watermark) > 0 ==> missed <= old(missed)
      ensures !raises && old(watermark) > 0 && batchSize > 0 ==>
                AreRewritten(writtenIn, missed, Normalized(MarketIds(Pending(old(events), old(watermark)))), around, now)
      ensures !raises && old(watermark) <= 0 ==>
                && IsRefreshed(snapshot, writtenIn, old(events), events[|old(events)|..])
                && missed == Missed(snapshot, writtenIn, events, events[|old(events)|..])
      ensures !raises && |around.endDates| <= 50_000 ==> AreClosed(snapshot, around, now)
      ensures old(watermark) > 0 ==> SameRow(old(snapshot), snapshot, 0)
    {
      if watermark <= 0 {
        var between := if feed == [] then [] else feed[0];
        FullRefresh(now, between, raises);
        assert events[|old(events)|..] == between;
        SeenFromStart(old(events), between, watermark);
      } else {
        SyncIncrement(batchSize, now, feed, raises);
      }
    }
  }

  lemma SeenFromStart(events: seq<OracleEvent>, arrivals: seq<OracleEvent>, seen: int)
    ensures Pending(events + arrivals, seen) == [] ==> Pending(events, seen) == []
  {
    PendingAppend(events, arrivals, seen);
  }

  /** Everything pending at the start is among what was collected. */
  lemma CollectedAll(start: seq<OracleEvent>, events: seq<OracleEvent>, updated: set<int>, watermark: int, latestSeen: int)
    requires start <= events && IsCollected(events, updated, watermark, latestSeen)
    ensures Pending(events, latestSeen) == [] ==>
              Pending(start, latestSeen) == [] && MarketIds(Pending(start, watermark)) <= updated
  {
    assert events == start + events[|start|..];
    PendingAppend(start, events[|start|..], latestSeen);
    PendingAppend(start, events[|start|..], watermark);
    SplitMarketIds(Pending(start, watermark), Pending(events[|start|..], watermark));
  }

  lemma {:induction false} SubsetIsSmaller<T>(a: set<T>, b: set<T>)
    requires a <= b
    ensures |a| <= |b|
  {
    if a != {} {
      var x :| x in a;
      SubsetIsSmaller(a - {x}, b - {x});
    }
  }

  // ----- rows that are left alone while events arrive -----

  /** The later of two latest settle events, the second one from later arrivals. */
  function LaterSettle(a: Option<OracleEvent>, b: Option<OracleEvent>): Option<OracleEvent> {
    if b.None? then a else if a.None? || Precedes(b.value, a.value) then b else a
  }

  lemma {:induction false} LatestSettleAppend(a: seq<OracleEvent>, b: seq<OracleEvent>, m: int)
    ensures LatestSettle(a + b, m) == LaterSettle(LatestSettle(a, m), LatestSettle(b, m))
    decreases |b|
  {
    if b == [] {
      assert a + b == a;
    } else {
      LatestSettleAppend(a, b[..|b| - 1], m);
      assert (a + b)[..|a + b| - 1] == a + b[..|b| - 1] && (a + b)[|a + b| - 1] == b[|b| - 1];
    }
  }

  lemma StatusAppend(a: seq<OracleEvent>, b: seq<OracleEvent>, m: int, status: EventStatus)
    ensures HasStatus(a + b, m, status) == (HasStatus(a, m, status) || HasStatus(b, m, status))
  {
    FlagsGrow(a, b, m, status);
    if HasStatus(b, m, status) {
      var e :| e in b && e.marketId == Some(m) && e.status == status;
      assert e in a + b;
    }
  }

  /**
    The arrivals add no flag to the market, and if their latest settle event comes before the one
    that stands, either is chosen or passed over alike beside the fast settlement.
  */
  predicate RowKept(events: seq<OracleEvent>, arrivals: seq<OracleEvent>, m: int, sur: Surroundings) {
    && (HasStatus(arrivals, m, Settle) ==> HasStatus(events, m, Settle))
    && (HasStatus(arrivals, m, Propose) ==> HasStatus(events, m, Propose))
    && (HasStatus(arrivals, m, Dispute) ==> HasStatus(events, m, Dispute))
    && var standing, next := LatestSettle(events, m), LatestSettle(arrivals, m);
       standing.Some? && next.Some? && Precedes(next.value, standing.value) ==>
         ChooseBest(Some(next.value.parsed), sur.fast) == ChooseBest(Some(standing.value.parsed), sur.fast)
  }

  /** A row that stays as it was while events arrive is what a recompute would write exactly when RowKept holds. */
  lemma RowKeptExactlyWhen(events: seq<OracleEvent>, arrivals: seq<OracleEvent>, m: int, sur: Surroundings)
    ensures RowOf(events, m, sur) == RowOf(events + arrivals, m, sur) <==> RowKept(events, arrivals, m, sur)
  {
    StatusAppend(events, arrivals, m, Settle);
    StatusAppend(events, arrivals, m, Propose);
    StatusAppend(events, arrivals, m, Dispute);
    LatestSettleAppend(events, arrivals, m);
    LatestSettleIsFirst(events, m);
    LatestSettleIsFirst(arrivals, m);
    assert RowOf(events, m, sur).flags == FlagsOf(events, m);
    assert RowOf(events + arrivals, m, sur).flags == FlagsOf(events + arrivals, m);
  }

  // ----- inputs that fail -----

  const A_SETTLEMENT := OracleEvent(1, Some(7), Settle, 100, 0, Settlement(1, Some("oracle_settled_price"), Some("1"), Some(1), None))

  /**
    An input: the full refresh reads an open market 7, its settlement is inserted, and the greatest
    id read then counts it as seen. The row stays open, and no later increment reads the event.
  */
  lemma RefreshMissesSettlement(sur: Surroundings)
    requires sur == Surroundings(None, None, None, 0)
    ensures RowOf([], 7, sur).completion.status == Open
    ensures RowOf([A_SETTLEMENT], 7, sur).completion.status == Settled
    ensures Pending([A_SETTLEMENT], LastEventId([A_SETTLEMENT])) == [] && !RowKept([], [A_SETTLEMENT], 7, sur)
  {
    assert [A_SETTLEMENT][..0] == [];
    assert A_SETTLEMENT in [A_SETTLEMENT];
    NothingPending([A_SETTLEMENT], 1);
  }

  /**
    An input: the increment collects market 0 and drops it, so the settlement of market 0, inserted
    after the last full refresh, leaves its row stale for good.
  */
  lemma MarketZeroGoesStale(sur: Surroundings)
    requires sur == Surroundings(None, None, None, 0)
    ensures var settle := A_SETTLEMENT.(marketId := Some(0));
            && MarketIds([settle]) == {0} && Normalized(MarketIds([settle])) == {}
            && RowOf([], 0, sur).completion.status == Open && RowOf([settle], 0, sur).completion.status == Settled
  {
    var settle := A_SETTLEMENT.(marketId := Some(0));
    assert [settle][..0] == [];
    assert settle in [settle];
  }

  lemma AllSeen(events: seq<OracleEvent>, watermark: int)
    requires IncreasingIds(events) && (events != [] ==> watermark == events[|events| - 1].id)
    ensures Pending(events, watermark) == []
  {
    NothingPending(events, watermark);
  }

  lemma {:induction false} NothingPending(events: seq<OracleEvent>, watermark: int)
    requires forall e | e in events :: e.id <= watermark
    ensures Pending(events, watermark) == []
  {
    if events != [] {
      NothingPending(events[1..], watermark);
    }
  }

  /** Events of other markets leave a market's pending events and its row alone. */
  lemma UnaffectedMarket(events: seq<OracleEvent>, arrivals: seq<OracleEvent>, watermark: int, m: int)
    requires forall e | e in arrivals :: e.id > watermark
    requires m in MarketIds(events + arrivals) && m !in MarketIds(Pending(events + arrivals, watermark))
    ensures m in MarketIds(events) && m !in MarketIds(Pending(events, watermark))
    ensures forall sur :: RowOf(events + arrivals, m, sur) == RowOf(events, m, sur)
  {
    PendingElements(events + arrivals, watermark);
    PendingElements(events, watermark);
    forall e | e in arrivals
      ensures e.marketId != Some(m)
    {
      assert e in events + arrivals;
      assert e.marketId.Some? ==> e in Pending(events + arrivals, watermark);
    }
    assert forall e | e in Pending(events, watermark) :: e in events + arrivals && e in Pending(events + arrivals, watermark);
    OtherMarkets(events, arrivals, m);
  }

  lemma {:induction false} OtherMarkets(events: seq<OracleEvent>, arrivals: seq<OracleEvent>, m: int)
    requires forall e | e in arrivals :: e.marketId != Some(m)
    ensures FlagsOf(events + arrivals, m) == FlagsOf(events, m)
    ensures LatestSettle(events + arrivals, m) == LatestSettle(events, m)
    decreases |arrivals|
  {
    FlagsGrow(events, arrivals, m, Settle);
    FlagsGrow(events, arrivals, m, Propose);
    FlagsGrow(events, arrivals, m, Dispute);
    if arrivals == [] {
      assert events + arrivals == events;
    } else {
      OtherMarkets(events, arrivals[..|arrivals| - 1], m);
      assert (events + arrivals)[..|events + arrivals| - 1] == events + arrivals[..|arrivals| - 1];
    }
  }
}

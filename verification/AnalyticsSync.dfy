/**
  The connection that sync_trade_analytics works on: derived tables with a committed and an
  uncommitted state, and the sync cycle itself, in which any statement may raise.
*/
module AnalyticsSync {
  import opened Prelude
  import opened KeyedTables
  import opened TradeTables
  import opened LatestPrices
  import opened MarketServing
  import opened TradeBatch
  import opened TradeSync

  /** The derived tables and their sync_state rows. */
  datatype Tables = Tables(stats: TradeStats, serving: map<int, ServingRow>, servingDay: Option<int>, watermark: int)

  const NO_TABLES := Tables(NO_STATS, map[], None, 0)

  datatype Outcome = Completed | Raised

  datatype Step = Processed | Drained | Failed

  /** An exception is raised by the statement after the given number of successful ones. */
  type FaultPlan = Option<nat>

  function LastId(ts: seq<Trade>): int {
    if ts == [] then 0 else if ts[|ts| - 1].id < 0 then 0 else ts[|ts| - 1].id
  }

  /** Pieces of arrivals, each with ids above everything before it. */
  ghost predicate FeedContinues(trades: seq<Trade>, feed: seq<seq<Trade>>)
    decreases |feed|
  {
    feed != [] ==>
    && Increasing(feed[0])
    && (forall t | t in feed[0] :: t.id > LastId(trades))
    && FeedContinues(trades + feed[0], feed[1..])
  }

  /** The tables are what the processed batches give, and the batches are the trades up to the watermark. */
  ghost predicate Consistent(t: Tables, batches: seq<Batch>, trades: seq<Trade>, markets: set<int>) {
    && t.stats == Replay(batches)
    && 0 <= t.watermark <= LastId(trades)
    && AllTrades(batches) == UpTo(trades, t.watermark)
    && match t.servingDay
       case None => t.serving == map[]
       case Some(day) => ServingAgrees(t.serving, markets, t.stats.marketDaily, t.stats.latest, day)
  }

  /** The tables after one more batch. */
  ghost function AfterBatch(t: Tables, b: Batch, markets: set<int>, since: int): Tables
    requires b.trades != []
  {
    var stats := ApplyBatch(t.stats, b);
    Tables(stats,
           ServingUpserted(t.serving, Impacted(b.trades), markets, stats.marketDaily, stats.latest, since),
           t.servingDay, b.trades[|b.trades| - 1].id)
  }

  lemma BatchKeepsConsistent(t: Tables, batches: seq<Batch>, trades: seq<Trade>, markets: set<int>,
                             since: int, limit: nat, withAddresses: bool)
    requires Consistent(t, batches, trades, markets) && Increasing(trades) && t.servingDay == Some(since)
    requires FetchTradeBatch(trades, t.watermark, limit) != []
    ensures var b := Batch(FetchTradeBatch(trades, t.watermark, limit), withAddresses);
            Consistent(AfterBatch(t, b, markets, since), batches + [b], trades, markets)
  {
    var b := Batch(FetchTradeBatch(trades, t.watermark, limit), withAddresses);
    AllTradesSnoc(batches, b);
    assert (batches + [b])[..|batches|] == batches;
    FetchExtendsWatermark(trades, t.watermark, limit);
    LastFetched(trades, t.watermark, limit);
    assert b.trades[|b.trades| - 1].id <= LastId(trades);
    BatchKeepsServing(t.serving, markets, t.stats.marketDaily, t.stats.latest, since, b.trades);
  }

  lemma ArrivalsKeepConsistent(t: Tables, batches: seq<Batch>, trades: seq<Trade>, arrivals: seq<Trade>, markets: set<int>)
    requires Increasing(trades) && Consistent(t, batches, trades, markets)
    requires Increasing(arrivals) && forall a | a in arrivals :: a.id > LastId(trades)
    ensures Increasing(trades + arrivals) && Consistent(t, batches, trades + arrivals, markets)
  {
    ArrivalsAreAbove(trades, arrivals, t.watermark);
    ArrivalsIncrease(trades, arrivals);
  }

  lemma ArrivalsIncrease(trades: seq<Trade>, arrivals: seq<Trade>)
    requires Increasing(trades) && Increasing(arrivals) && forall a | a in arrivals :: a.id > LastId(trades)
    ensures Increasing(trades + arrivals) && LastId(trades) <= LastId(trades + arrivals)
  {
    assert forall i | 0 <= i < |arrivals| :: arrivals[i] in arrivals;
  }

  /** A fetched batch can be run, and running it keeps the tables consistent and shortens the backlog. */
  lemma FetchedBatchRuns(t: Tables, batches: seq<Batch>, trades: seq<Trade>, markets: set<int>,
                         since: int, limit: nat, b: Batch)
    returns (next: Tables)
    requires Consistent(t, batches, trades, markets) && Increasing(trades) && t.servingDay == Some(since)
    requires b.trades == FetchTradeBatch(trades, t.watermark, limit) != []
    ensures Increasing(b.trades) && forall x | x in b.trades :: x.id > t.watermark >= 0
    ensures next == AfterBatch(t, b, markets, since) && Consistent(next, batches + [b], trades, markets)
    ensures |b.trades| <= limit
  {
    next := AfterBatch(t, b, markets, since);
    FetchedSize(trades, t.watermark, limit);
    FetchedTrades(trades, t.watermark, limit);
    BatchKeepsConsistent(t, batches, trades, markets, since, limit, b.withAddresses);
  }

  lemma EmptyFetchMeansAll(t: Tables, batches: seq<Batch>, trades: seq<Trade>, markets: set<int>, limit: nat)
    requires Consistent(t, batches, trades, markets) && FetchTradeBatch(trades, t.watermark, limit) == []
    ensures limit > 0 ==> AllTrades(batches) == AllEligible(trades)
  {
    if limit > 0 {
      FetchedEverything(trades, t.watermark, limit);
    }
  }

  /** A batch gives each of its markets a serving row, and no market loses one. */
  lemma AfterBatchServes(t: Tables, b: Batch, markets: set<int>, since: int)
    requires b.trades != []
    ensures AfterBatch(t, b, markets, since).serving.Keys == t.serving.Keys + Impacted(b.trades) * markets
  {
  }

  /** Markets traded in the batches from n on: the serving rows they must have written. */
  function TradedSince(batches: seq<Batch>, n: nat): set<int>
    requires n <= |batches|
  {
    set b, t | b in batches[n..] && t in b.trades && t.marketId.Some? && t.marketId.value > 0 :: t.marketId.value
  }

  /** The cycle's new batches: how many, how large, and with address statistics or not. */
  ghost predicate AreNewBatches(batches: seq<Batch>, n: nat, batchSize: nat, withAddresses: bool)
    requires n <= |batches|
  {
    forall b | b in batches[n..] :: 0 < |b.trades| <= batchSize && b.withAddresses == withAddresses
  }

  lemma OneMoreBatch(batches: seq<Batch>, n: nat, b: Batch)
    requires n <= |batches|
    ensures TradedSince(batches + [b], n) == TradedSince(batches, n) + Impacted(b.trades)
    ensures (batches + [b])[n..] == batches[n..] + [b]
  {
    assert (batches + [b])[n..] == batches[n..] + [b];
    assert forall x :: x in batches[n..] + [b] <==> x in batches[n..] || x == b;
  }

  predicate IsWithin(n: int, max: Option<nat>) {
    0 <= n && (max.Some? ==> n <= max.value)
  }

  lemma StillNew(before: seq<Batch>, batches: seq<Batch>, n: nat, batchSize: nat, withAddresses: bool)
    requires n <= |before| && before <= batches && |batches| == |before| + 1
    requires AreNewBatches(before, n, batchSize, withAddresses) && AreNewBatches(batches, |before|, batchSize, withAddresses)
    ensures AreNewBatches(batches, n, batchSize, withAddresses)
  {
    var b := batches[|before|];
    assert batches == before + [b];
    OneMoreBatch(before, n, b);
    assert b in batches[|before|..];
  }

  /** The serving rows: those there were, and the traded markets'. */
  ghost predicate ServesNew(keys: set<int>, keys': set<int>, batches: seq<Batch>, n: nat, markets: set<int>)
    requires n <= |batches|
  {
    keys' == keys + TradedSince(batches, n) * markets
  }

  /** Batches run one after another: which are new, and which serving rows that makes. */
  ghost predicate Ran(before: seq<Batch>, after: seq<Batch>, keys: set<int>, keys': set<int>, batchSize: nat,
                      withAddresses: bool, markets: set<int>)
  {
    && before <= after
    && TradesWhere(after, !withAddresses) == TradesWhere(before, !withAddresses)
    && ServesNew(keys, keys', after, |before|, markets)
    && AreNewBatches(after, |before|, batchSize, withAddresses)
  }

  lemma RanNone(batches: seq<Batch>, keys: set<int>, batchSize: nat, withAddresses: bool, markets: set<int>)
    ensures Ran(batches, batches, keys, keys, batchSize, withAddresses, markets)
  {
    assert batches[|batches|..] == [];
  }

  lemma RanOne(t: Tables, b: Batch, before: seq<Batch>, trades: seq<Trade>, markets: set<int>, since: int, batchSize: nat)
    requires 0 < |b.trades| <= batchSize && Consistent(AfterBatch(t, b, markets, since), before + [b], trades, markets)
    ensures Ran(before, before + [b], t.serving.Keys, AfterBatch(t, b, markets, since).serving.Keys, batchSize, b.withAddresses, markets)
    ensures |AllTrades(before)| < |AllTrades(before + [b])| <= |AllEligible(trades)|
  {
    BacklogShrinks(AfterBatch(t, b, markets, since), before, b, trades, markets);
    AfterBatchServes(t, b, markets, since);
    NewBatchServes(before, b, t.serving.Keys, batchSize, markets);
  }

  lemma RanThen(b0: seq<Batch>, b1: seq<Batch>, b2: seq<Batch>, k0: set<int>, k1: set<int>, k2: set<int>,
                batchSize: nat, withAddresses: bool, markets: set<int>)
    requires Ran(b0, b1, k0, k1, batchSize, withAddresses, markets) && Ran(b1, b2, k1, k2, batchSize, withAddresses, markets)
    requires |b2| == |b1| + 1
    ensures Ran(b0, b2, k0, k2, batchSize, withAddresses, markets)
  {
    StillNew(b1, b2, |b0|, batchSize, withAddresses);
    StillServes(k0, k1, k2, b1, b2, |b0|, markets);
  }

  lemma NewBatchServes(before: seq<Batch>, b: Batch, keys: set<int>, batchSize: nat, markets: set<int>)
    requires 0 < |b.trades| <= batchSize
    ensures AreNewBatches(before + [b], |before|, batchSize, b.withAddresses)
    ensures ServesNew(keys, keys + Impacted(b.trades) * markets, before + [b], |before|, markets)
  {
    OneMoreBatch(before, |before|, b);
    assert TradedSince(before, |before|) == {};
  }

  lemma StillServes(keys: set<int>, keys': set<int>, keys'': set<int>, before: seq<Batch>, batches: seq<Batch>, n: nat, markets: set<int>)
    requires n <= |before| && before <= batches && |batches| == |before| + 1
    requires ServesNew(keys, keys', before, n, markets) && ServesNew(keys', keys'', batches, |before|, markets)
    ensures ServesNew(keys, keys'', batches, n, markets)
  {
    var b := batches[|before|];
    assert batches == before + [b];
    OneMoreBatch(before, n, b);
    OneMoreBatch(before, |before|, b);
    assert TradedSince(before, |before|) == {};
  }

  lemma BacklogShrinks(t: Tables, batches: seq<Batch>, b: Batch, trades: seq<Trade>, markets: set<int>)
    requires b.trades != [] && Consistent(t, batches + [b], trades, markets)
    ensures |AllTrades(batches)| < |AllTrades(batches + [b])| <= |AllEligible(trades)|
    ensures TradesWhere(batches + [b], !b.withAddresses) == TradesWhere(batches, !b.withAddresses)
  {
    AllTradesSnoc(batches, b);
    UpToIsPartial(trades, t.watermark);
    assert (batches + [b])[..|batches|] == batches;
  }

  class AnalyticsConnection {
    var trades: seq<Trade>
    var markets: set<int>
    var working: Tables
    var committed: Tables
    ghost var batches: seq<Batch>

    /** Between cycles: nothing uncommitted, and the committed tables are consistent. */
    ghost predicate Valid()
      reads this
    {
      && Increasing(trades)
      && Consistent(committed, batches, trades, markets)
      && working == committed
    }

    constructor ()
      ensures Valid() && batches == [] && trades == [] && committed == NO_TABLES
    {
      trades, markets := [], {};
      working, committed := NO_TABLES, NO_TABLES;
      batches := [];
    }

    /** The indexer appends trades with growing ids. */
    method AppendTrades(arrivals: seq<Trade>)
      requires Increasing(trades) && Consistent(committed, batches, trades, markets)
      requires Increasing(arrivals) && forall t | t in arrivals :: t.id > LastId(trades)
      modifies this`trades
      ensures trades == old(trades) + arrivals
      ensures Increasing(trades) && Consistent(committed, batches, trades, markets)
    {
      ArrivalsKeepConsistent(committed, batches, trades, arrivals, markets);
      trades := trades + arrivals;
    }

    /** Markets are added; none is removed. */
    method AddMarkets(ids: set<int>)
      requires Valid()
      modifies this`markets
      ensures Valid() && markets == old(markets) + ids
    {
      markets := markets + ids;
    }

    method Commit(ghost processed: seq<Batch>)
      requires Consistent(working, processed, trades, markets)
      modifies this`committed, this`batches
      ensures committed == working && batches == processed
      ensures Consistent(committed, batches, trades, markets)
    {
      committed := working;
      batches := processed;
    }

    method Rollback()
      modifies this`working
      ensures working == committed
    {
      working := committed;
    }

    /** All statements of one loop iteration, up to but not including its commit. */
    method ProcessBatch(batch: seq<Trade>, includeAddressStats: bool, since: int, faults: FaultPlan)
      returns (raised: bool, faults': FaultPlan)
      requires batch != [] && Increasing(batch) && forall t | t in batch :: t.id > working.watermark >= 0
      modifies this`working
      ensures !raised ==> working == AfterBatch(old(working), Batch(batch, includeAddressStats), markets, since)
      ensures faults.None? ==> !raised && faults'.None?
    {
      var stats, impacted;
      stats, impacted, raised, faults' := UpsertStatistics(working.stats, batch, includeAddressStats, faults);
      working := working.(stats := stats);
      if raised { return; }
      if impacted != {} {
        if faults' == Some(0) { raised := true; return; }
        var serving := UpsertMarketListServing(working.serving, impacted, markets, stats.marketDaily, stats.latest, since);
        working := working.(serving := serving);
        faults' := Countdown(faults');
      }
      if faults' == Some(0) { raised := true; return; }
      var latestSeen := MaxId(batch, working.watermark);
      working := working.(watermark := latestSeen);
      faults' := Countdown(faults');
    }

    /** The day check at the start of a cycle, its refresh and its commit. */
    method RefreshServing(statsSince: int, faults: FaultPlan) returns (raised: bool, faults': FaultPlan)
      requires Valid()
      modifies this`working, this`committed, this`batches
      ensures Valid() && batches == old(batches)
      ensures raised ==> committed == old(committed)
      ensures !raised ==> committed.servingDay == Some(statsSince)
      ensures !raised && old(committed.servingDay) != Some(statsSince) ==> committed.serving.Keys == markets
      ensures old(committed.servingDay) == Some(statsSince) ==> committed == old(committed)
      ensures faults.None? ==> !raised && faults'.None?
    {
      raised, faults' := true, faults;
      if committed.servingDay != Some(statsSince) {
        if faults' == Some(0) { return; }
        var serving := FullRefreshMarketListServing(markets, working.stats.marketDaily, working.stats.latest, statsSince);
        RefreshAgrees(markets, working.stats.marketDaily, working.stats.latest, statsSince);
        working := working.(serving := serving, servingDay := Some(statsSince));
        faults' := Countdown(faults');
      }
      if faults' == Some(0) {
        Rollback();
        return;
      }
      Commit(batches);
      raised, faults' := false, Countdown(faults');
    }

    /** One loop iteration: the fetched batch is committed as a whole or rolled back as a whole. */
    method RunBatch(batch: seq<Trade>, includeAddressStats: bool, since: int, ghost limit: nat, faults: FaultPlan)
      returns (raised: bool, faults': FaultPlan)
      requires Valid() && committed.servingDay == Some(since)
      requires batch == FetchTradeBatch(trades, committed.watermark, limit) != []
      modifies this`working, this`committed, this`batches
      ensures Valid() && committed.servingDay == Some(since)
      ensures raised ==> batches == old(batches) && committed == old(committed)
      ensures !raised ==> batches == old(batches) + [Batch(batch, includeAddressStats)] && |batch| <= limit
      ensures !raised ==> committed == AfterBatch(old(committed), Batch(batch, includeAddressStats), markets, since)
      ensures faults.None? ==> !raised && faults'.None?
    {
      ghost var b := Batch(batch, includeAddressStats);
      ghost var next := FetchedBatchRuns(working, batches, trades, markets, since, limit, b);
      raised, faults' := ProcessBatch(batch, includeAddressStats, since, faults);
      if raised || faults' == Some(0) {
        Rollback();
        raised := true;
        return;
      }
      assert working == next;
      Commit(batches + [b]);
      faults' := Countdown(faults');
    }

    /** Number of eligible trades not yet in a committed batch. */
    ghost function Backlog(): int
      reads this
    {
      |AllEligible(trades)| - |AllTrades(batches)|
    }

    /** Fetch the next batch and run it. */
    method NextBatch(batchSize: nat, includeAddressStats: bool, since: int, faults: FaultPlan)
      returns (step: Step, faults': FaultPlan)
      requires Valid() && committed.servingDay == Some(since)
      modifies this`working, this`committed, this`batches
      ensures Valid() && committed.servingDay == Some(since)
      ensures step.Processed? ==> 0 <= Backlog() < old(Backlog())
      ensures Ran(old(batches), batches, old(committed.serving.Keys), committed.serving.Keys, batchSize, includeAddressStats, markets)
      ensures |batches| == |old(batches)| + (if step.Processed? then 1 else 0)
      ensures !step.Processed? ==> batches == old(batches) && committed == old(committed)
      ensures step.Drained? && batchSize > 0 ==> AllTrades(batches) == AllEligible(trades)
      ensures faults.None? ==> !step.Failed? && faults'.None?
    {
      step, faults' := Failed, faults;
      RanNone(batches, committed.serving.Keys, batchSize, includeAddressStats, markets);
      if faults' == Some(0) {
        return;
      }
      var batch := FetchTradeBatch(trades, working.watermark, batchSize);
      faults' := Countdown(faults');
      if batch == [] {
        EmptyFetchMeansAll(committed, batches, trades, markets, batchSize);
        step := Drained;
        return;
      }
      var raised;
      raised, faults' := RunBatch(batch, includeAddressStats, since, batchSize, faults');
      if !raised {
        RanOne(old(committed), Batch(batch, includeAddressStats), old(batches), trades, markets, since, batchSize);
        step := Processed;
      }
    }

    /**
      One call of sync_trade_analytics. The parameters beyond the program's own: the UTC date of
      yesterday, the trades that arrive while the cycle runs (one piece before each batch), and
      after how many statements an exception is raised, if any. The serving rows at the end are those
      of all markets when the day changed, and else those that were there and the traded markets'.
    */
    method SyncTradeAnalytics(batchSize: nat, maxBatches: Option<nat>, includeAddressStats: bool,
                              statsSince: int, feed: seq<seq<Trade>>, faults: FaultPlan)
      returns (outcome: Outcome)
      requires Valid() && FeedContinues(trades, feed)
      modifies this
      ensures Valid() && markets == old(markets)
      ensures old(trades) <= trades && old(batches) <= batches
      ensures TradesWhere(batches, !includeAddressStats) == old(TradesWhere(batches, !includeAddressStats))
      ensures outcome.Completed? && maxBatches.None? && batchSize > 0 ==> AllTrades(batches) == AllEligible(trades)
      ensures outcome.Completed? && maxBatches != Some(0) ==> committed.servingDay == Some(statsSince)
      ensures outcome.Completed? && maxBatches != Some(0) ==>
                ServesNew(if old(committed.servingDay) == Some(statsSince) then old(committed.serving.Keys) else markets,
                          committed.serving.Keys, batches, |old(batches)|, markets)
      ensures AreNewBatches(batches, |old(batches)|, batchSize, includeAddressStats)
      ensures IsWithin(|batches| - |old(batches)|, maxBatches)
      ensures maxBatches == Some(0) ==> committed == old(committed)
      ensures outcome.Completed? && maxBatches.Some? && batchSize > 0 ==>
                |batches| == |old(batches)| + maxBatches.value || AllTrades(batches) == AllEligible(trades)
      ensures faults.None? ==> outcome.Completed?
    {
      RanNone(batches, markets, batchSize, includeAddressStats, markets);
      if maxBatches == Some(0) {
        return Completed;
      }
      var raised, pending := RefreshServing(statsSince, faults);
      if raised {
        return Raised;
      }
      outcome := ProcessAll(batchSize, maxBatches, includeAddressStats, statsSince, feed, pending);
    }

    /** The batch loop of a cycle. */
    method ProcessAll(batchSize: nat, maxBatches: Option<nat>, includeAddressStats: bool,
                      statsSince: int, feed: seq<seq<Trade>>, faults: FaultPlan)
      returns (outcome: Outcome)
      requires Valid() && FeedContinues(trades, feed) && committed.servingDay == Some(statsSince)
      modifies this`trades, this`working, this`committed, this`batches
      ensures Valid() && committed.servingDay == Some(statsSince)
      ensures old(trades) <= trades
      ensures Ran(old(batches), batches, old(committed.serving.Keys), committed.serving.Keys, batchSize, includeAddressStats, markets)
      ensures outcome.Completed? && maxBatches.None? && batchSize > 0 ==> AllTrades(batches) == AllEligible(trades)
      ensures IsWithin(|batches| - |old(batches)|, maxBatches)
      ensures outcome.Completed? && maxBatches.Some? && batchSize > 0 ==>
                |batches| == |old(batches)| + maxBatches.value || AllTrades(batches) == AllEligible(trades)
      ensures faults.None? ==> outcome.Completed?
    {
      var arriving, count, pending := feed, 0, faults;
      RanNone(batches, committed.serving.Keys, batchSize, includeAddressStats, markets);
      while true
        invariant Valid() && committed.servingDay == Some(statsSince)
        invariant FeedContinues(trades, arriving)
        invariant old(trades) <= trades
        invariant faults.None? ==> pending.None?
        invariant Ran(old(batches), batches, old(committed.serving.Keys), committed.serving.Keys, batchSize, includeAddressStats, markets)
        invariant count == |batches| - |old(batches)| && IsWithin(count, maxBatches)
        decreases |arriving|, Backlog()
      {
        if maxBatches.Some? && count >= maxBatches.value {
          return Completed;
        }
        var step;
        step, arriving, pending := ProcessOne(batchSize, includeAddressStats, statsSince, arriving, pending, old(batches), old(committed.serving.Keys));
        match step {
          case Failed => return Raised;
          case Drained => return Completed;
          case Processed => count := count + 1;
        }
      }
    }

    /** A piece of trades arrives, and the next batch is run after those since the start. */
    method ProcessOne(batchSize: nat, includeAddressStats: bool, since: int, arriving: seq<seq<Trade>>, faults: FaultPlan,
                      ghost start: seq<Batch>, ghost keys: set<int>)
      returns (step: Step, rest: seq<seq<Trade>>, faults': FaultPlan)
      requires Valid() && committed.servingDay == Some(since) && FeedContinues(trades, arriving)
      requires Ran(start, batches, keys, committed.serving.Keys, batchSize, includeAddressStats, markets)
      modifies this`trades, this`working, this`committed, this`batches
      ensures Valid() && committed.servingDay == Some(since) && FeedContinues(trades, rest) && old(trades) <= trades
      ensures Ran(start, batches, keys, committed.serving.Keys, batchSize, includeAddressStats, markets)
      ensures |batches| == |old(batches)| + (if step.Processed? then 1 else 0)
      ensures step.Drained? && batchSize > 0 ==> AllTrades(batches) == AllEligible(trades)
      ensures step.Processed? ==> |rest| < |arriving| || (|rest| == |arriving| && 0 <= Backlog() < old(Backlog()))
      ensures faults.None? ==> !step.Failed? && faults'.None?
    {
      rest := Arrive(arriving);
      ghost var before, keys' := batches, committed.serving.Keys;
      step, faults' := NextBatch(batchSize, includeAddressStats, since, faults);
      if step.Processed? {
        RanThen(start, before, batches, keys, keys', committed.serving.Keys, batchSize, includeAddressStats, markets);
      }
    }

    /** The next piece of trades arrives, if there is one. */
    method Arrive(arriving: seq<seq<Trade>>) returns (rest: seq<seq<Trade>>)
      requires Valid() && FeedContinues(trades, arriving)
      modifies this`trades
      ensures Valid() && FeedContinues(trades, rest) && old(trades) <= trades && committed == old(committed)
      ensures |rest| < |arriving| || (rest == arriving && trades == old(trades))
    {
      rest := arriving;
      if arriving != [] {
        AppendTrades(arriving[0]);
        rest := arriving[1..];
      }
    }
  }

  method ImpactedMarkets(batch: seq<Trade>, daily: map<(int, int), MarketDay>, latest: map<int, Entry<Option<Point>>>)
    returns (impacted: set<int>)
    requires daily == Table(MarketFills(batch), MarketDayKey, MarketDayOf) && latest == BatchEntries(batch)
    ensures impacted == Impacted(batch)
  {
    KeysAreImpacted(batch);
    impacted := (set k | k in daily :: k.1) + latest.Keys;
  }

  method LatestRows(batch: seq<Trade>, latest: map<int, Entry<Option<Point>>>) returns (rows: map<int, Entry<Columns>>)
    requires latest == BatchEntries(batch)
    ensures rows == BatchRows(batch)
  {
    rows := map m | m in latest :: StoredEntry(latest[m]);
  }

  /** The statistics upserts of one batch; on an exception the earlier ones have taken effect. */
  method UpsertStatistics(stats: TradeStats, batch: seq<Trade>, includeAddressStats: bool, faults: FaultPlan)
    returns (stats': TradeStats, impacted: set<int>, raised: bool, faults': FaultPlan)
    ensures !raised ==> stats' == ApplyBatch(stats, Batch(batch, includeAddressStats))
    ensures impacted == Impacted(batch)
    ensures faults.None? ==> !raised && faults'.None?
  {
    stats', raised, faults' := stats, false, faults;
    var daily, addressDaily, totals, perMarket, latest := BuildTradeAddressRows(batch, includeAddressStats);
    impacted := ImpactedMarkets(batch, daily, latest);
    if faults' == Some(0) { raised := true; return; }
    var upsertedDaily := Upsert(stats.marketDaily, daily, MergeMarketDay);
    stats' := stats'.(marketDaily := upsertedDaily);
    faults' := Countdown(faults');
    if includeAddressStats {
      stats', raised, faults' := UpsertAddressStatistics(stats', addressDaily, totals, perMarket, faults');
      if raised { return; }
    }
    if faults' == Some(0) { raised := true; return; }
    var rows := LatestRows(batch, latest);
    var upsertedLatest := Upsert(stats'.latest, rows, MergeEntry);
    stats' := stats'.(latest := upsertedLatest);
    faults' := Countdown(faults');
  }

  method UpsertAddressStatistics(stats: TradeStats, daily: map<(int, string), AddressDay>, totals: map<string, AddressTally>,
                                 perMarket: map<(string, int), AddressTally>, faults: FaultPlan)
    returns (stats': TradeStats, raised: bool, faults': FaultPlan)
    ensures !raised ==> stats' == stats.(addressDaily := Upserted(stats.addressDaily, daily, MergeAddressDay),
                                         addressTotals := Upserted(stats.addressTotals, totals, MergeAddressTally),
                                         addressMarket := Upserted(stats.addressMarket, perMarket, MergeAddressTally))
    ensures faults.None? ==> !raised && faults'.None?
  {
    stats', raised, faults' := stats, true, faults;
    if faults' == Some(0) { return; }
    var upsertedDaily := Upsert(stats.addressDaily, daily, MergeAddressDay);
    stats' := stats'.(addressDaily := upsertedDaily);
    faults' := Countdown(faults');
    if faults' == Some(0) { return; }
    var upsertedTotals := Upsert(stats.addressTotals, totals, MergeAddressTally);
    stats' := stats'.(addressTotals := upsertedTotals);
    faults' := Countdown(faults');
    if faults' == Some(0) { return; }
    var upsertedMarket := Upsert(stats.addressMarket, perMarket, MergeAddressTally);
    stats' := stats'.(addressMarket := upsertedMarket);
    faults' := Countdown(faults');
    raised := false;
  }

  function Countdown(faults: FaultPlan): FaultPlan {
    if faults.None? || faults.value == 0 then faults else Some(faults.value - 1)
  }

  /** max(int(row["id"]) or latestSeen for row in trades) */
  method MaxId(batch: seq<Trade>, latestSeen: int) returns (max: int)
    requires batch != [] && Increasing(batch) && forall t | t in batch :: t.id > latestSeen >= 0
    ensures max == batch[|batch| - 1].id
  {
    max := if batch[0].id == 0 then latestSeen else batch[0].id;
    for i := 1 to |batch|
      invariant max == batch[i - 1].id
    {
      var id := if batch[i].id == 0 then latestSeen else batch[i].id;
      if id > max {
        max := id;
      }
    }
  }

  // ----- what consistency means for the committed tables -----

  /**
    Exactly-once aggregation. Whatever the batch sizes, commits, rollbacks and exceptions so far,
    the committed statistics are the one-pass aggregates of all eligible trades at or below the
    committed watermark; the address tables are, when no cycle without address statistics met a
    participating address.
  */
  lemma CommittedStatisticsAreExactlyOnce(t: Tables, batches: seq<Batch>, trades: seq<Trade>, markets: set<int>)
    requires Consistent(t, batches, trades, markets)
    ensures t.stats.marketDaily == Table(MarketFills(UpTo(trades, t.watermark)), MarketDayKey, MarketDayOf)
    ensures var fills := AddressFills(UpTo(trades, t.watermark));
            AddressFills(TradesWhere(batches, false)) == [] ==>
              && t.stats.addressDaily == Table(fills, AddressDayKey, AddressDayOf)
              && t.stats.addressTotals == Table(fills, AddressKey, AddressTallyOf)
              && t.stats.addressMarket == Table(fills, AddressMarketKey, AddressTallyOf)
  {
    ReplayIsOnePass(batches);
    if AddressFills(TradesWhere(batches, false)) == [] {
      NothingSkipped(batches);
    }
  }

  /** In the committed tables, each address total is the sum of the address's per-market rows. */
  lemma CommittedTotalsSumMarkets(t: Tables, batches: seq<Batch>, trades: seq<Trade>, markets: set<int>, address: string)
    requires Consistent(t, batches, trades, markets)
    requires address in t.stats.addressTotals
    ensures t.stats.addressTotals[address] ==
            FoldRows(t.stats.addressMarket, RowsOfAddress(t.stats.addressMarket, address), NO_ADDRESS_TALLY, MergeAddressTally)
  {
    ReplayIsOnePass(batches);
    AddressTotalSumsMarkets(AddressFills(TradesWhere(batches, true)), address);
  }

  /** With every trade placed on the chain, the committed latest prices are those of a one-pass recompute. */
  lemma CommittedLatestIsOnePass(t: Tables, batches: seq<Batch>, trades: seq<Trade>, markets: set<int>)
    requires Consistent(t, batches, trades, markets)
    requires forall u | u in UpTo(trades, t.watermark) :: OnChain(u) && Placed(PointOf(u))
    ensures t.stats.latest == OnePassLatest(UpTo(trades, t.watermark))
  {
    ReplayIsOnePass(batches);
    LatestTableIsOnePass(TradesOf(batches));
  }

  /**
    Every committed serving row shows the newest YES price and latest trade time, and the number,
    notional and last time of exactly the market's processed trades dated on or after serving day.
  */
  lemma CommittedServingCountsTrades(t: Tables, batches: seq<Batch>, trades: seq<Trade>, markets: set<int>, m: int)
    requires Consistent(t, batches, trades, markets) && m in t.serving
    requires forall u | u in UpTo(trades, t.watermark) :: OnChain(u) && Placed(PointOf(u))
    ensures t.servingDay.Some?
    ensures var processed := UpTo(trades, t.watermark);
            var window := MarketDayOf(FillsSince(MarketFills(processed), m, t.servingDay.value));
            t.serving[m] == ServingRow(Stored(Best(Points(processed, m, Yes))).price,
                                       Stored(Best(Points(processed, m, Latest))).at,
                                       window.count, window.volume, window.lastAt)
  {
    var processed := UpTo(trades, t.watermark);
    CommittedStatisticsAreExactlyOnce(t, batches, trades, markets);
    CommittedLatestIsOnePass(t, batches, trades, markets);
    WindowCountsTrades(MarketFills(processed), m, t.servingDay.value);
    NoPointsOutsideMarkets(processed, m, Yes);
    NoPointsOutsideMarkets(processed, m, Latest);
  }

  /**
    When no cycle left out address statistics and all processed trades are two-sided, the committed
    address totals count as many buys as sells, one of each for every trade.
  */
  lemma CommittedTotalsBalance(t: Tables, batches: seq<Batch>, trades: seq<Trade>, markets: set<int>)
    requires Consistent(t, batches, trades, markets) && TradesWhere(batches, false) == []
    requires forall u | u in UpTo(trades, t.watermark) :: IsTwoSided(u)
    ensures var sum := FoldRows(t.stats.addressTotals, t.stats.addressTotals.Keys, NO_ADDRESS_TALLY, MergeAddressTally);
            sum.buys == |UpTo(trades, t.watermark)| == sum.sells
  {
    CommittedStatisticsAreExactlyOnce(t, batches, trades, markets);
    assert AddressFills([]) == [];
    TotalsBalance(UpTo(trades, t.watermark));
  }
}

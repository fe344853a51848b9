/**
  sync_trade_analytics: the watermark loop over the trade source, with commits, rollbacks and
  exceptions, and the theorem that the committed tables are one-pass aggregates.
*/
module TradeSync {
  import opened Prelude
  import opened KeyedTables
  import opened TradeTables
  import opened LatestPrices

  // ----- what the batches leave behind -----

  /** A processed batch and whether its cycle kept address statistics (not --market-only). */
  datatype Batch = Batch(trades: seq<Trade>, withAddresses: bool)

  datatype TradeStats = TradeStats(
    marketDaily: map<(int, int), MarketDay>,
    addressDaily: map<(int, string), AddressDay>,
    addressTotals: map<string, AddressTally>,
    addressMarket: map<(string, int), AddressTally>,
    latest: map<int, Entry<Columns>>)

  const NO_STATS := TradeStats(map[], map[], map[], map[], map[])

  function ApplyBatch(s: TradeStats, b: Batch): TradeStats {
    var fills := AddressFills(b.trades);
    TradeStats(
      Upserted(s.marketDaily, Table(MarketFills(b.trades), MarketDayKey, MarketDayOf), MergeMarketDay),
      if b.withAddresses then Upserted(s.addressDaily, Table(fills, AddressDayKey, AddressDayOf), MergeAddressDay) else s.addressDaily,
      if b.withAddresses then Upserted(s.addressTotals, Table(fills, AddressKey, AddressTallyOf), MergeAddressTally) else s.addressTotals,
      if b.withAddresses then Upserted(s.addressMarket, Table(fills, AddressMarketKey, AddressTallyOf), MergeAddressTally) else s.addressMarket,
      Upserted(s.latest, BatchRows(b.trades), MergeEntry))
  }

  function Replay(bs: seq<Batch>): TradeStats {
    if bs == [] then NO_STATS else ApplyBatch(Replay(bs[..|bs| - 1]), bs[|bs| - 1])
  }

  function TradesOf(bs: seq<Batch>): seq<seq<Trade>> {
    if bs == [] then [] else TradesOf(bs[..|bs| - 1]) + [bs[|bs| - 1].trades]
  }

  /** All trades of the batches, in order. */
  function AllTrades(bs: seq<Batch>): seq<Trade> {
    Flatten(TradesOf(bs))
  }

  /** The trades of the batches that kept, or did not keep, address statistics. */
  function TradesWhere(bs: seq<Batch>, withAddresses: bool): seq<Trade> {
    if bs == [] then []
    else
      var b := bs[|bs| - 1];
      TradesWhere(bs[..|bs| - 1], withAddresses) + (if b.withAddresses == withAddresses then b.trades else [])
  }

  /**
    The one-pass aggregates, computed from whole trade sequences. The latest prices are left as the fold
    over the batches; LatestTableIsOnePass says when that is a one-pass table.
  */
  function OnePass(all: seq<Trade>, addressed: seq<Trade>, batches: seq<seq<Trade>>): TradeStats {
    var fills := AddressFills(addressed);
    TradeStats(Table(MarketFills(all), MarketDayKey, MarketDayOf),
               Table(fills, AddressDayKey, AddressDayOf),
               Table(fills, AddressKey, AddressTallyOf),
               Table(fills, AddressMarketKey, AddressTallyOf),
               LatestTable(batches))
  }

  lemma AllTradesSnoc(bs: seq<Batch>, b: Batch)
    ensures TradesOf(bs + [b]) == TradesOf(bs) + [b.trades]
    ensures AllTrades(bs + [b]) == AllTrades(bs) + b.trades
  {
    assert (bs + [b])[..|bs|] == bs;
    assert (TradesOf(bs) + [b.trades])[..|TradesOf(bs)|] == TradesOf(bs);
  }

  /** Replaying any sequence of batches gives the one-pass aggregates of their trades. */
  lemma {:induction false} ReplayIsOnePass(bs: seq<Batch>)
    ensures Replay(bs) == OnePass(AllTrades(bs), TradesWhere(bs, true), TradesOf(bs))
  {
    if bs != [] {
      var init, b := bs[..|bs| - 1], bs[|bs| - 1];
      assert bs == init + [b];
      ReplayIsOnePass(init);
      AllTradesSnoc(init, b);
      MarketTableStep(AllTrades(init), b.trades);
      if b.withAddresses {
        AddressTablesStep(TradesWhere(init, true), b.trades);
      } else {
        assert TradesWhere(bs, true) == TradesWhere(init, true);
      }
      assert TradesOf(bs)[..|TradesOf(bs)| - 1] == TradesOf(init);
    }
  }

  lemma MarketTableStep(all: seq<Trade>, batch: seq<Trade>)
    ensures Table(MarketFills(all + batch), MarketDayKey, MarketDayOf) ==
            Upserted(Table(MarketFills(all), MarketDayKey, MarketDayOf),
                     Table(MarketFills(batch), MarketDayKey, MarketDayOf), MergeMarketDay)
  {
    FillsAppend(all, batch);
    MarketDayMergeable();
    TableAppend(MarketFills(all), MarketFills(batch), MarketDayKey, MarketDayOf, MergeMarketDay);
  }

  lemma AddressTablesStep(all: seq<Trade>, batch: seq<Trade>)
    ensures var a, b, ab := AddressFills(all), AddressFills(batch), AddressFills(all + batch);
            && Table(ab, AddressDayKey, AddressDayOf) ==
               Upserted(Table(a, AddressDayKey, AddressDayOf), Table(b, AddressDayKey, AddressDayOf), MergeAddressDay)
            && Table(ab, AddressKey, AddressTallyOf) ==
               Upserted(Table(a, AddressKey, AddressTallyOf), Table(b, AddressKey, AddressTallyOf), MergeAddressTally)
            && Table(ab, AddressMarketKey, AddressTallyOf) ==
               Upserted(Table(a, AddressMarketKey, AddressTallyOf), Table(b, AddressMarketKey, AddressTallyOf), MergeAddressTally)
  {
    var a, b := AddressFills(all), AddressFills(batch);
    FillsAppend(all, batch);
    AddressDayMergeable();
    AddressTallyMergeable();
    TableAppend(a, b, AddressDayKey, AddressDayOf, MergeAddressDay);
    TableAppend(a, b, AddressKey, AddressTallyOf, MergeAddressTally);
    TableAppend(a, b, AddressMarketKey, AddressTallyOf, MergeAddressTally);
  }

  // ----- address tables when some cycles were market-only -----

  lemma {:induction false} FillsOfAddressSplit(bs: seq<Batch>, address: string)
    ensures |Within(AddressFills(AllTrades(bs)), AddressKey, {address})| ==
            |Within(AddressFills(TradesWhere(bs, true)), AddressKey, {address})| +
            |Within(AddressFills(TradesWhere(bs, false)), AddressKey, {address})|
  {
    if bs != [] {
      var init, b := bs[..|bs| - 1], bs[|bs| - 1];
      assert bs == init + [b];
      FillsOfAddressSplit(init, address);
      AllTradesSnoc(init, b);
      FillsAppend(AllTrades(init), b.trades);
      FillsAppend(TradesWhere(init, b.withAddresses), b.trades);
      WithinAppend(AddressFills(AllTrades(init)), AddressFills(b.trades), AddressKey, {address});
      WithinAppend(AddressFills(TradesWhere(init, b.withAddresses)), AddressFills(b.trades), AddressKey, {address});
      assert TradesWhere(bs, !b.withAddresses) == TradesWhere(init, !b.withAddresses);
    }
  }

  lemma {:induction false} NothingSkipped(bs: seq<Batch>)
    requires AddressFills(TradesWhere(bs, false)) == []
    ensures AddressFills(TradesWhere(bs, true)) == AddressFills(AllTrades(bs))
  {
    if bs != [] {
      var init, b := bs[..|bs| - 1], bs[|bs| - 1];
      assert bs == init + [b];
      AllTradesSnoc(init, b);
      FillsAppend(AllTrades(init), b.trades);
      FillsAppend(TradesWhere(init, b.withAddresses), b.trades);
      assert TradesWhere(bs, !b.withAddresses) == TradesWhere(init, !b.withAddresses);
      NothingSkipped(init);
    }
  }

  /**
    The address totals cover all processed trades exactly when no market-only batch, processed
    under the same watermark, held a trade with a participating address.
  */
  lemma AddressTotalsCompleteExactlyWhen(bs: seq<Batch>)
    ensures Replay(bs).addressTotals == Table(AddressFills(AllTrades(bs)), AddressKey, AddressTallyOf) <==>
            AddressFills(TradesWhere(bs, false)) == []
  {
    ReplayIsOnePass(bs);
    var skipped := AddressFills(TradesWhere(bs, false));
    if skipped == [] {
      NothingSkipped(bs);
    } else {
      var address := skipped[0].address;
      assert AddressKey(skipped[0]).value in KeysOf(skipped, AddressKey);
      WithinNonempty(skipped, AddressKey, address);
      FillsOfAddressSplit(bs, address);
      TableRow(AddressFills(AllTrades(bs)), AddressKey, AddressTallyOf, address);
      TableRow(AddressFills(TradesWhere(bs, true)), AddressKey, AddressTallyOf, address);
    }
  }

  /** A single --market-only batch: the market tables are one-pass, the address tables stay empty. */
  lemma MarketOnlyReplay(ts: seq<Trade>)
    ensures var s := Replay([Batch(ts, false)]);
            s.addressTotals == map[] && s.marketDaily == Table(MarketFills(ts), MarketDayKey, MarketDayOf)
  {
    assert [Batch(ts, false)][..0] == [];
    assert Replay([Batch(ts, false)]) == ApplyBatch(NO_STATS, Batch(ts, false));
  }

  /** One two-sided trade without address statistics: the market has its row, the address totals none. */
  lemma MarketOnlyTrade(t: Trade)
    requires IsTwoSided(t) && t.time.Some?
    ensures var s := Replay([Batch([t], false)]);
            && (DateOf(t.time).value, t.marketId.value) in s.marketDaily && t.maker !in s.addressTotals
            && t.maker in Table(AddressFills([t]), AddressKey, AddressTallyOf)
  {
    MarketOnlyReplay([t]);
    MarketDayOfTrade(t);
    TotalsOfTrade(t);
  }

  /** An input: one --market-only batch with one trade; its market counts it, its maker never will. */
  lemma MarketOnlyBatchSkipsAddresses()
    ensures var t := Trade(1, Some(7), "maker", "taker", 0.5, 2.0, "BUY", "YES", Some(10), Some(0), Some(0));
            var s := Replay([Batch([t], false)]);
            (0, 7) in s.marketDaily && "maker" !in s.addressTotals && "maker" in Table(AddressFills([t]), AddressKey, AddressTallyOf)
  {
    var t := Trade(1, Some(7), "maker", "taker", 0.5, 2.0, "BUY", "YES", Some(10), Some(0), Some(0));
    assert t.maker[0] != t.taker[0] && t.maker[0] != '0' && t.taker[0] != '0';
    assert IsTwoSided(t);
    MarketOnlyTrade(t);
  }

  // ----- the trade source and its watermark -----

  /** Ids grow with insertion. */
  ghost predicate Increasing(ts: seq<Trade>) {
    forall i, j | 0 <= i < j < |ts| :: ts[i].id < ts[j].id
  }

  /** Trades that a sync started from an empty watermark is to count: positive id, usable market. */
  predicate Eligible(t: Trade) {
    t.id > 0 && HasMarket(t)
  }

  function AllEligible(ts: seq<Trade>): seq<Trade> {
    if ts == [] then [] else (if Eligible(ts[0]) then [ts[0]] else []) + AllEligible(ts[1..])
  }

  /** The eligible trades at or below a watermark. */
  function UpTo(ts: seq<Trade>, watermark: int): seq<Trade> {
    if ts == [] then []
    else (if Eligible(ts[0]) && ts[0].id <= watermark then [ts[0]] else []) + UpTo(ts[1..], watermark)
  }

  /** In terms of the rows: positive id at or below the watermark and a positive market, in the order of the rows. */
  lemma {:induction false} UpToMeaning(ts: seq<Trade>, watermark: int)
    ensures forall t :: t in UpTo(ts, watermark) <==>
              t in ts && 0 < t.id <= watermark && t.marketId.Some? && t.marketId.value > 0
    ensures Increasing(ts) ==> Increasing(UpTo(ts, watermark))
  {
    if ts != [] {
      var t, rest := ts[0], ts[1..];
      assert [t] + rest == ts;
      UpToMeaning(rest, watermark);
      if Increasing(ts) {
        IncreasingTail(t, rest);
        if Eligible(t) && t.id <= watermark {
          IncreasingCons(t, UpTo(rest, watermark));
        }
      }
    }
  }

  /** A batch has at most as many trades as asked for. */
  lemma {:induction false} FetchedSize(ts: seq<Trade>, last: int, limit: nat)
    ensures |FetchTradeBatch(ts, last, limit)| <= limit
  {
    if ts != [] && limit > 0 {
      FetchedSize(ts[1..], last, if ts[0].id > last && HasMarket(ts[0]) then limit - 1 else limit);
    }
  }

  /** WHERE id > last AND market_id IS NOT NULL AND market_id > 0 ORDER BY id LIMIT limit */
  function FetchTradeBatch(ts: seq<Trade>, last: int, limit: nat): seq<Trade> {
    if ts == [] || limit == 0 then []
    else if ts[0].id > last && HasMarket(ts[0]) then [ts[0]] + FetchTradeBatch(ts[1..], last, limit - 1)
    else FetchTradeBatch(ts[1..], last, limit)
  }

  lemma IncreasingCons(t: Trade, rest: seq<Trade>)
    requires Increasing(rest) && forall u | u in rest :: t.id < u.id
    ensures Increasing([t] + rest)
  {
    assert forall i | 0 <= i < |rest| :: rest[i] in rest;
  }

  lemma IncreasingTail(t: Trade, rest: seq<Trade>)
    requires Increasing([t] + rest)
    ensures Increasing(rest) && forall u | u in rest :: t.id < u.id
  {
    var ts := [t] + rest;
    assert ts[0] == t && forall i | 0 <= i < |rest| :: rest[i] == ts[i + 1];
  }

  lemma {:induction false} FetchedTrades(ts: seq<Trade>, last: int, limit: nat)
    requires Increasing(ts)
    ensures var batch := FetchTradeBatch(ts, last, limit);
            && Increasing(batch)
            && (forall t | t in batch :: t in ts && t.id > last && HasMarket(t))
  {
    if ts != [] && limit > 0 {
      var taken := ts[0].id > last && HasMarket(ts[0]);
      var rest := FetchTradeBatch(ts[1..], last, if taken then limit - 1 else limit);
      assert [ts[0]] + ts[1..] == ts;
      IncreasingTail(ts[0], ts[1..]);
      FetchedTrades(ts[1..], last, if taken then limit - 1 else limit);
      assert forall u | u in ts[1..] :: u in ts;
      if taken {
        IncreasingCons(ts[0], rest);
      }
    }
  }

  lemma {:induction false} NothingAtOrBelow(ts: seq<Trade>, watermark: int)
    requires forall t | t in ts :: t.id > watermark
    ensures UpTo(ts, watermark) == []
  {
    if ts != [] {
      NothingAtOrBelow(ts[1..], watermark);
    }
  }

  /** The last id of a nonempty batch lies above the watermark and above every earlier row. */
  lemma LastFetched(ts: seq<Trade>, last: int, limit: nat)
    requires Increasing(ts) && FetchTradeBatch(ts, last, limit) != []
    ensures var batch := FetchTradeBatch(ts, last, limit);
            batch[|batch| - 1] in ts && batch[|batch| - 1].id > last
  {
    var batch := FetchTradeBatch(ts, last, limit);
    FetchedTrades(ts, last, limit);
    assert batch[|batch| - 1] in batch;
  }

  lemma FetchStep(t: Trade, rest: seq<Trade>, last: int, limit: nat)
    requires limit > 0
    ensures FetchTradeBatch([t] + rest, last, limit) ==
            if t.id > last && HasMarket(t) then [t] + FetchTradeBatch(rest, last, limit - 1) else FetchTradeBatch(rest, last, limit)
  {
    assert ([t] + rest)[1..] == rest;
  }

  /** A batch is exactly the next stretch of eligible trades above the watermark. */
  lemma {:induction false} FetchExtendsWatermark(ts: seq<Trade>, last: int, limit: nat)
    requires Increasing(ts) && last >= 0
    requires FetchTradeBatch(ts, last, limit) != []
    ensures ExtendsWatermark(ts, last, FetchTradeBatch(ts, last, limit))
  {
    var t, rest := ts[0], ts[1..];
    assert [t] + rest == ts;
    IncreasingTail(t, rest);
    var taken := t.id > last && HasMarket(t);
    var next := if taken then limit - 1 else limit;
    var tail := FetchTradeBatch(rest, last, next);
    FetchStep(t, rest, last, limit);
    if tail != [] {
      FetchExtendsWatermark(rest, last, next);
      LastFetched(rest, last, next);
    }
    if taken {
      FirstFetched(t, rest, last, tail);
    } else {
      FirstSkipped(t, rest, last, tail);
    }
  }

  /** Moving the watermark to the end of the batch adds exactly the batch. */
  ghost predicate ExtendsWatermark(ts: seq<Trade>, last: int, batch: seq<Trade>)
    requires batch != []
  {
    UpTo(ts, batch[|batch| - 1].id) == UpTo(ts, last) + batch
  }

  lemma FirstFetched(t: Trade, rest: seq<Trade>, last: int, tail: seq<Trade>)
    requires last >= 0 && t.id > last && HasMarket(t)
    requires forall u | u in rest :: t.id < u.id
    requires tail != [] ==> t.id < tail[|tail| - 1].id && ExtendsWatermark(rest, last, tail)
    ensures ExtendsWatermark([t] + rest, last, [t] + tail)
  {
    assert ([t] + rest)[1..] == rest;
    NothingAtOrBelow(rest, last);
    if tail == [] {
      NothingAtOrBelow(rest, t.id);
    }
  }

  lemma FirstSkipped(t: Trade, rest: seq<Trade>, last: int, tail: seq<Trade>)
    requires tail != [] && last < tail[|tail| - 1].id && (t.id > last ==> !HasMarket(t))
    requires ExtendsWatermark(rest, last, tail)
    ensures ExtendsWatermark([t] + rest, last, tail)
  {
    var kept := if Eligible(t) && t.id <= last then [t] else [];
    assert ([t] + rest)[1..] == rest;
    Regroup(kept, UpTo(rest, last), tail);
  }

  lemma {:induction false} FetchedEverything(ts: seq<Trade>, last: int, limit: nat)
    requires limit > 0 && FetchTradeBatch(ts, last, limit) == []
    ensures UpTo(ts, last) == AllEligible(ts)
  {
    if ts != [] {
      FetchedEverything(ts[1..], last, limit);
    }
  }

  /** A batch that is not full is all there is above the watermark. */
  lemma {:induction false} FetchedShort(ts: seq<Trade>, last: int, limit: nat)
    requires Increasing(ts) && last >= 0 && |FetchTradeBatch(ts, last, limit)| < limit
    ensures UpTo(ts, last) + FetchTradeBatch(ts, last, limit) == AllEligible(ts)
  {
    if ts != [] {
      var t, rest := ts[0], ts[1..];
      assert [t] + rest == ts;
      IncreasingTail(t, rest);
      FetchStep(t, rest, last, limit);
      var taken := t.id > last && HasMarket(t);
      FetchedShort(rest, last, if taken then limit - 1 else limit);
      ShortStep(t, rest, last, FetchTradeBatch(rest, last, if taken then limit - 1 else limit));
    }
  }

  lemma ShortStep(t: Trade, rest: seq<Trade>, last: int, tail: seq<Trade>)
    requires last >= 0 && (forall u | u in rest :: t.id < u.id) && UpTo(rest, last) + tail == AllEligible(rest)
    ensures UpTo([t] + rest, last) + (if t.id > last && HasMarket(t) then [t] + tail else tail) == AllEligible([t] + rest)
  {
    assert ([t] + rest)[1..] == rest;
    if t.id > last && HasMarket(t) {
      NothingAtOrBelow(rest, last);
    } else {
      Regroup(if Eligible(t) && t.id <= last then [t] else [], UpTo(rest, last), tail);
    }
  }

  lemma {:induction false} UpToIsPartial(ts: seq<Trade>, watermark: int)
    ensures |UpTo(ts, watermark)| <= |AllEligible(ts)|
  {
    if ts != [] {
      UpToIsPartial(ts[1..], watermark);
    }
  }

  lemma {:induction false} ArrivalsAreAbove(ts: seq<Trade>, arrivals: seq<Trade>, watermark: int)
    requires forall t | t in arrivals :: t.id > watermark
    ensures UpTo(ts + arrivals, watermark) == UpTo(ts, watermark)
  {
    if ts == [] {
      assert ts + arrivals == arrivals;
      NothingAtOrBelow(arrivals, watermark);
    } else {
      assert (ts + arrivals)[1..] == ts[1..] + arrivals;
      ArrivalsAreAbove(ts[1..], arrivals, watermark);
    }
  }
}

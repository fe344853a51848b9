/**
  _build_trade_address_rows: the loop over a batch of trades that fills the in-batch dictionaries
  with setdefault and in-place updates, proved to build the one-pass tables of the batch.
*/
module TradeBatch {
  import opened Prelude
  import opened KeyedTables
  import opened TradeTables
  import opened LatestPrices

  /** A dictionary entry, or the setdefault row, summarises the fills of its key seen so far. */
  lemma RowOrDefault<K, V>(fs: seq<Fill>, keyOf: Fill -> Option<K>, summary: seq<Fill> -> V, zero: V, k: K)
    requires summary([]) == zero
    ensures var table := Table(fs, keyOf, summary);
            (if k in table then table[k] else zero) == summary(Within(fs, keyOf, {k}))
  {
    TableRow(fs, keyOf, summary, k);
  }

  method AddToMarketDay(entry: MarketDay, f: Fill, ghost mine: seq<Fill>) returns (result: MarketDay)
    requires entry == MarketDayOf(mine) && f.time.Some?
    ensures result == MarketDayOf(mine + [f])
  {
    MeasuresSnoc(mine, f, "");
    result := entry.(count := entry.count + 1, volume := entry.volume + f.notional);
    if result.lastAt.None? || f.time.value > result.lastAt.value {
      result := result.(lastAt := f.time);
    }
    if f.block.Some? && (result.lastBlock.None? || f.block.value > result.lastBlock.value) {
      result := result.(lastBlock := f.block);
    }
  }

  method AddToAddressDay(entry: AddressDay, f: Fill, ghost mine: seq<Fill>) returns (result: AddressDay)
    requires entry == AddressDayOf(mine) && f.time.Some?
    ensures result == AddressDayOf(mine + [f])
  {
    MeasuresSnoc(mine, f, "BUY");
    MeasuresSnoc(mine, f, "SELL");
    result := entry.(count := entry.count + 1,
                     buys := entry.buys + (if f.side == "BUY" then 1 else 0),
                     sells := entry.sells + (if f.side == "SELL" then 1 else 0),
                     volume := entry.volume + f.notional);
    if result.lastAt.None? || f.time.value > result.lastAt.value {
      result := result.(lastAt := f.time);
    }
  }

  method AddToAddressTally(entry: AddressTally, f: Fill, ghost mine: seq<Fill>) returns (result: AddressTally)
    requires entry == AddressTallyOf(mine)
    ensures result == AddressTallyOf(mine + [f])
  {
    MeasuresSnoc(mine, f, "BUY");
    MeasuresSnoc(mine, f, "SELL");
    result := entry.(count := entry.count + 1,
                     buys := entry.buys + (if f.side == "BUY" then 1 else 0),
                     sells := entry.sells + (if f.side == "SELL" then 1 else 0),
                     volume := entry.volume + f.notional);
    if f.time.Some? && (result.firstAt.None? || f.time.value < result.firstAt.value) {
      result := result.(firstAt := f.time);
    }
    if f.time.Some? && (result.lastAt.None? || f.time.value > result.lastAt.value) {
      result := result.(lastAt := f.time);
    }
  }

  method NoteMarketDay(daily: map<(int, int), MarketDay>, f: Fill, ghost fs: seq<Fill>)
    returns (result: map<(int, int), MarketDay>)
    requires daily == Table(fs, MarketDayKey, MarketDayOf)
    ensures result == Table(fs + [f], MarketDayKey, MarketDayOf)
  {
    result := daily;
    TableSnoc(fs, f, MarketDayKey, MarketDayOf);
    if f.time.Some? {
      var key := (DateOf(f.time).value, f.marketId);
      RowOrDefault(fs, MarketDayKey, MarketDayOf, NO_MARKET_DAY, key);
      var entry := AddToMarketDay(if key in daily then daily[key] else NO_MARKET_DAY, f, Within(fs, MarketDayKey, {key}));
      result := result[key := entry];
    }
  }

  method NoteAddressDay(daily: map<(int, string), AddressDay>, f: Fill, ghost fs: seq<Fill>)
    returns (result: map<(int, string), AddressDay>)
    requires daily == Table(fs, AddressDayKey, AddressDayOf)
    ensures result == Table(fs + [f], AddressDayKey, AddressDayOf)
  {
    result := daily;
    TableSnoc(fs, f, AddressDayKey, AddressDayOf);
    if f.time.Some? {
      var key := (DateOf(f.time).value, f.address);
      RowOrDefault(fs, AddressDayKey, AddressDayOf, NO_ADDRESS_DAY, key);
      var entry := AddToAddressDay(if key in daily then daily[key] else NO_ADDRESS_DAY, f, Within(fs, AddressDayKey, {key}));
      result := result[key := entry];
    }
  }

  method NoteAddressTally<K>(tallies: map<K, AddressTally>, key: K, f: Fill,
                             ghost fs: seq<Fill>, ghost keyOf: Fill -> Option<K>)
    returns (result: map<K, AddressTally>)
    requires keyOf(f) == Some(key)
    requires tallies == Table(fs, keyOf, AddressTallyOf)
    ensures result == Table(fs + [f], keyOf, AddressTallyOf)
  {
    TableSnoc(fs, f, keyOf, AddressTallyOf);
    RowOrDefault(fs, keyOf, AddressTallyOf, NO_ADDRESS_TALLY, key);
    var entry := AddToAddressTally(if key in tallies then tallies[key] else NO_ADDRESS_TALLY, f, Within(fs, keyOf, {key}));
    result := tallies[key := entry];
  }

  method NoteLatest(latest: map<int, Entry<Option<Point>>>, t: Trade, ghost ts: seq<Trade>)
    returns (result: map<int, Entry<Option<Point>>>)
    requires HasMarket(t)
    requires latest == BatchEntries(ts)
    ensures result == BatchEntries(ts + [t])
  {
    var m := t.marketId.value;
    var entry := if m in latest then latest[m] else Entry(None, None, None);
    assert entry == BestEntry(ts, m) by {
      NoPointsOutsideMarkets(ts, m, Latest);
      NoPointsOutsideMarkets(ts, m, Yes);
      NoPointsOutsideMarkets(ts, m, No);
    }
    var point := PointOf(t);
    if IsNewer(point, entry.latest) {
      entry := entry.(latest := Some(point));
    }
    if t.outcome == "YES" && IsNewer(point, entry.yes) {
      entry := entry.(yes := Some(point));
    }
    if t.outcome == "NO" && IsNewer(point, entry.no) {
      entry := entry.(no := Some(point));
    }
    result := latest[m := entry];
    BestEntrySnoc(ts, t, m);
    BatchEntriesSnoc(ts, t);
  }

  lemma BestSnoc(ts: seq<Trade>, t: Trade, m: int, slot: Slot)
    ensures Best(Points(ts + [t], m, slot)) ==
            var before := Best(Points(ts, m, slot));
            if Belongs(t, m, slot) && IsNewer(PointOf(t), before) then Some(PointOf(t)) else before
  {
    var ps := Points(ts, m, slot);
    assert (ts + [t])[..|ts|] == ts;
    assert Belongs(t, m, slot) ==> Points(ts + [t], m, slot) == ps + [PointOf(t)];
    assert !Belongs(t, m, slot) ==> Points(ts + [t], m, slot) == ps;
    assert (ps + [PointOf(t)])[..|ps|] == ps;
  }

  lemma BestEntrySnoc(ts: seq<Trade>, t: Trade, m: int)
    ensures BestEntry(ts + [t], m) ==
            var e, p := BestEntry(ts, m), PointOf(t);
            Entry(if Belongs(t, m, Latest) && IsNewer(p, e.latest) then Some(p) else e.latest,
                  if Belongs(t, m, Yes) && IsNewer(p, e.yes) then Some(p) else e.yes,
                  if Belongs(t, m, No) && IsNewer(p, e.no) then Some(p) else e.no)
  {
    BestSnoc(ts, t, m, Latest);
    BestSnoc(ts, t, m, Yes);
    BestSnoc(ts, t, m, No);
  }

  lemma MarketsSnoc(ts: seq<Trade>, t: Trade)
    requires HasMarket(t)
    ensures MarketsOf(ts + [t]) == MarketsOf(ts) + {t.marketId.value}
  {
  }

  lemma BatchEntriesSnoc(ts: seq<Trade>, t: Trade)
    requires HasMarket(t)
    ensures BatchEntries(ts + [t]) == BatchEntries(ts)[t.marketId.value := BestEntry(ts + [t], t.marketId.value)]
  {
    MarketsSnoc(ts, t);
    forall m | m in MarketsOf(ts) && m != t.marketId.value
      ensures BestEntry(ts + [t], m) == BestEntry(ts, m)
    {
      BestEntrySnoc(ts, t, m);
    }
  }

  /** The dictionaries of one batch equal the one-pass tables over the batch's trades. */
  method BuildTradeAddressRows(trades: seq<Trade>, includeAddressStats: bool)
    returns (marketDaily: map<(int, int), MarketDay>, addressDaily: map<(int, string), AddressDay>,
             addressTotals: map<string, AddressTally>, addressMarket: map<(string, int), AddressTally>,
             marketLatest: map<int, Entry<Option<Point>>>)
    ensures marketDaily == Table(MarketFills(trades), MarketDayKey, MarketDayOf)
    ensures marketLatest == BatchEntries(trades)
    ensures AreAddressTables(addressDaily, addressTotals, addressMarket, if includeAddressStats then AddressFills(trades) else [])
  {
    marketDaily, addressDaily, addressTotals, addressMarket, marketLatest := map[], map[], map[], map[], map[];
    for i := 0 to |trades|
      invariant marketDaily == Table(MarketFills(trades[..i]), MarketDayKey, MarketDayOf)
      invariant marketLatest == BatchEntries(trades[..i])
      invariant AreAddressTables(addressDaily, addressTotals, addressMarket,
                                 if includeAddressStats then AddressFills(trades[..i]) else [])
    {
      var t := trades[i];
      assert trades[..i + 1] == trades[..i] + [t];
      assert trades[..i + 1][..i] == trades[..i];
      if !HasMarket(t) {
        SkippedTrade(trades[..i], t);
        continue;
      }
      marketDaily := NoteMarketDay(marketDaily, FillFor(t, "", t.side), MarketFills(trades[..i]));
      marketLatest := NoteLatest(marketLatest, t, trades[..i]);
      if includeAddressStats {
        addressDaily, addressTotals, addressMarket :=
          NoteParticipants(addressDaily, addressTotals, addressMarket, t, AddressFills(trades[..i]));
      }
    }
    assert trades[..|trades|] == trades;
  }

  lemma SkippedTrade(ts: seq<Trade>, t: Trade)
    requires !HasMarket(t)
    ensures MarketFills(ts + [t]) == MarketFills(ts)
    ensures AddressFills(ts + [t]) == AddressFills(ts)
    ensures BatchEntries(ts + [t]) == BatchEntries(ts)
  {
    assert (ts + [t])[..|ts|] == ts;
    assert MarketsOf(ts + [t]) == MarketsOf(ts);
    forall m, slot
      ensures Points(ts + [t], m, slot) == Points(ts, m, slot)
    {
    }
  }

  /** One pass of the inner loop: the three tables of one participant. */
  method NoteParticipant(daily: map<(int, string), AddressDay>, totals: map<string, AddressTally>,
                         perMarket: map<(string, int), AddressTally>, f: Fill, ghost fs: seq<Fill>)
    returns (daily': map<(int, string), AddressDay>, totals': map<string, AddressTally>,
             perMarket': map<(string, int), AddressTally>)
    requires AreAddressTables(daily, totals, perMarket, fs)
    ensures AreAddressTables(daily', totals', perMarket', fs + [f])
  {
    daily' := NoteAddressDay(daily, f, fs);
    totals' := NoteAddressTally(totals, f.address, f, fs, AddressKey);
    perMarket' := NoteAddressTally(perMarket, (f.address, f.marketId), f, fs, AddressMarketKey);
  }

  /** The three address dictionaries are the one-pass tables over the fills. */
  ghost predicate AreAddressTables(daily: map<(int, string), AddressDay>, totals: map<string, AddressTally>,
                                   perMarket: map<(string, int), AddressTally>, fs: seq<Fill>)
  {
    && daily == Table(fs, AddressDayKey, AddressDayOf)
    && totals == Table(fs, AddressKey, AddressTallyOf)
    && perMarket == Table(fs, AddressMarketKey, AddressTallyOf)
  }

  /** Who takes part in a trade, and on which side. */
  method Participants(t: Trade) returns (participants: seq<(string, string)>)
    requires HasMarket(t)
    ensures |AddressFill(t)| == |participants|
    ensures forall j | 0 <= j < |participants| :: AddressFill(t)[j] == FillFor(t, participants[j].0, participants[j].1)
  {
    participants := [];
    if t.maker != "" && t.maker !in EXCHANGE_ADDRESSES {
      participants := participants + [(t.maker, if t.side == "" then "UNKNOWN" else t.side)];
    }
    if t.taker != "" && t.taker !in EXCHANGE_ADDRESSES && t.taker != t.maker {
      participants := participants + [(t.taker, OppositeSide(t.side))];
    }
  }

  /** The inner loop over a trade's participants. */
  method NoteParticipants(daily: map<(int, string), AddressDay>, totals: map<string, AddressTally>,
                          perMarket: map<(string, int), AddressTally>, t: Trade, ghost fs: seq<Fill>)
    returns (daily': map<(int, string), AddressDay>, totals': map<string, AddressTally>,
             perMarket': map<(string, int), AddressTally>)
    requires HasMarket(t) && AreAddressTables(daily, totals, perMarket, fs)
    ensures AreAddressTables(daily', totals', perMarket', fs + AddressFill(t))
  {
    daily', totals', perMarket' := daily, totals, perMarket;
    var participants := Participants(t);
    ghost var fills := AddressFill(t);
    assert fs + fills[..0] == fs;
    for j := 0 to |participants|
      invariant AreAddressTables(daily', totals', perMarket', fs + fills[..j])
    {
      var f := FillFor(t, participants[j].0, participants[j].1);
      daily', totals', perMarket' := NoteParticipant(daily', totals', perMarket', f, fs + fills[..j]);
      assert fs + fills[..j + 1] == (fs + fills[..j]) + [f];
    }
    assert fills[..|fills|] == fills;
  }
}

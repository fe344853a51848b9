/**
  The market list serving table: the row a batch's upsert writes for an impacted market, the table
  the daily full refresh writes, and why the incremental rows stay equal to a refresh.
*/
module MarketServing {
  import opened Prelude
  import opened KeyedTables
  import opened TradeTables
  import opened LatestPrices

  type DailyTable = map<(int, int), MarketDay>
  type LatestPriceTable = map<int, Entry<Columns>>

  /** A row of market_list_serving without price_24h_ago. */
  datatype ServingRow = ServingRow(latestPrice: Option<real>, latestAt: Option<int>,
                                   count24h: nat, volume24h: real, lastAt: Option<int>)

  /** WHERE trade_date >= since, and for the batch upsert also AND market_id IN ids */
  function WindowKeys(daily: DailyTable, since: int, ids: Option<set<int>>): set<(int, int)> {
    set k | k in daily.Keys && k.0 >= since && (ids.Some? ==> k.1 in ids.value)
  }

  function GroupKeys(keys: set<(int, int)>, m: int): set<(int, int)> {
    set k | k in keys && k.1 == m
  }

  /** SUM, SUM and MAX over one group of the window; an absent group reads as zeros and NULL. */
  ghost function Window(daily: DailyTable, since: int, ids: Option<set<int>>, m: int): MarketDay {
    FoldRows(daily, GroupKeys(WindowKeys(daily, since, ids), m), NO_MARKET_DAY, MergeMarketDay)
  }

  function JoinedRow(m: int, latest: LatestPriceTable, stats: MarketDay): ServingRow {
    ServingRow(if m in latest then latest[m].yes.price else None,
               if m in latest then latest[m].latest.at else None,
               stats.count, stats.volume, stats.lastAt)
  }

  // ----- the two ways the table is written -----

  /** _full_refresh_market_list_serving */
  ghost function FullRefresh(markets: set<int>, daily: DailyTable, latest: LatestPriceTable, since: int): map<int, ServingRow> {
    map m | m in markets :: SelectedRow(m, daily, latest, since, None)
  }

  /** _upsert_market_list_serving */
  ghost function ServingUpserted(serving: map<int, ServingRow>, ids: set<int>, markets: set<int>,
                                 daily: DailyTable, latest: LatestPriceTable, since: int): map<int, ServingRow>
  {
    serving + map m | m in ids * markets :: SelectedRow(m, daily, latest, since, Some(ids))
  }

  lemma MarketDaysAnyOrder()
    ensures AnyOrder(MergeMarketDay)
  {
  }

  /** One row of the SELECT of either statement. */
  ghost function SelectedRow(m: int, daily: DailyTable, latest: LatestPriceTable, since: int, ids: Option<set<int>>): ServingRow {
    JoinedRow(m, latest, Window(daily, since, ids, m))
  }

  method SelectRow(m: int, daily: DailyTable, latest: LatestPriceTable, since: int, ids: Option<set<int>>)
    returns (row: ServingRow)
    ensures row == SelectedRow(m, daily, latest, since, ids)
  {
    MarketDaysAnyOrder();
    var stats := Aggregate(daily, GroupKeys(WindowKeys(daily, since, ids), m), NO_MARKET_DAY, MergeMarketDay);
    row := JoinedRow(m, latest, stats);
  }

  /** The SELECT of either statement: one joined row per market, in any order. */
  method SelectRows(ms: set<int>, daily: DailyTable, latest: LatestPriceTable, since: int, ids: Option<set<int>>)
    returns (rows: map<int, ServingRow>)
    ensures rows.Keys == ms
    ensures forall m | m in ms :: rows[m] == SelectedRow(m, daily, latest, since, ids)
  {
    rows := map[];
    var todo := ms;
    while todo != {}
      invariant todo <= ms && rows.Keys == ms - todo
      invariant forall m | m in rows :: rows[m] == SelectedRow(m, daily, latest, since, ids)
      decreases |todo|
    {
      var m := AnyOf(todo);
      var row := SelectRow(m, daily, latest, since, ids);
      rows := rows[m := row];
      todo := todo - {m};
    }
  }

  method UpsertMarketListServing(serving: map<int, ServingRow>, ids: set<int>, markets: set<int>,
                                 daily: DailyTable, latest: LatestPriceTable, since: int)
    returns (result: map<int, ServingRow>)
    ensures result == ServingUpserted(serving, ids, markets, daily, latest, since)
  {
    var rows := SelectRows(ids * markets, daily, latest, since, Some(ids));
    result := serving + rows;
  }

  method FullRefreshMarketListServing(markets: set<int>, daily: DailyTable, latest: LatestPriceTable, since: int)
    returns (result: map<int, ServingRow>)
    ensures result == FullRefresh(markets, daily, latest, since)
  {
    result := SelectRows(markets, daily, latest, since, None);
  }

  // ----- agreement -----

  /** Every existing row is the one a full refresh of its market would write. */
  ghost predicate ServingAgrees(serving: map<int, ServingRow>, markets: set<int>, daily: DailyTable,
                                latest: LatestPriceTable, since: int)
  {
    && serving.Keys <= markets
    && forall m | m in serving :: serving[m] == FullRefresh(markets, daily, latest, since)[m]
  }

  /** The markets a batch touches. */
  function Impacted(batch: seq<Trade>): set<int> {
    MarketsOf(batch)
  }

  lemma {:induction false} KeysAreImpacted(batch: seq<Trade>)
    ensures forall k | k in Table(MarketFills(batch), MarketDayKey, MarketDayOf) :: k.1 in Impacted(batch)
    ensures forall f | f in MarketFills(batch) :: f.marketId in Impacted(batch)
  {
    if batch != [] {
      KeysAreImpacted(batch[..|batch| - 1]);
      assert batch == batch[..|batch| - 1] + [batch[|batch| - 1]];
      assert Impacted(batch[..|batch| - 1]) <= Impacted(batch);
    }
  }

  lemma {:induction false} FoldDependsOnRows<K, V>(a: map<K, V>, b: map<K, V>, ks: set<K>, zero: V, merge: (V, V) -> V)
    requires ks <= a.Keys && ks <= b.Keys && forall k | k in ks :: a[k] == b[k]
    ensures FoldRows(a, ks, zero, merge) == FoldRows(b, ks, zero, merge)
    decreases |ks|
  {
    if ks != {} {
      FoldDependsOnRows(a, b, ks - {PickOne(ks)}, zero, merge);
    }
  }

  lemma UntouchedWindow(daily: DailyTable, rows: DailyTable, since: int, m: int)
    requires forall k | k in rows :: k.1 != m
    ensures Window(Upserted(daily, rows, MergeMarketDay), since, None, m) == Window(daily, since, None, m)
  {
    var daily' := Upserted(daily, rows, MergeMarketDay);
    var ks, ks' := GroupKeys(WindowKeys(daily, since, None), m), GroupKeys(WindowKeys(daily', since, None), m);
    assert ks == ks';
    FoldDependsOnRows(daily', daily, ks, NO_MARKET_DAY, MergeMarketDay);
  }

  lemma FilterKeepsWindow(daily: DailyTable, since: int, ids: set<int>, m: int)
    requires m in ids
    ensures Window(daily, since, Some(ids), m) == Window(daily, since, None, m)
  {
    assert GroupKeys(WindowKeys(daily, since, Some(ids)), m) == GroupKeys(WindowKeys(daily, since, None), m);
  }

  /** A full refresh agrees with itself. */
  lemma RefreshAgrees(markets: set<int>, daily: DailyTable, latest: LatestPriceTable, since: int)
    ensures ServingAgrees(FullRefresh(markets, daily, latest, since), markets, daily, latest, since)
  {
  }

  /**
    After a batch is folded into the daily and latest tables and only its impacted markets are
    upserted, every existing serving row again equals what a full refresh would compute.
  */
  lemma BatchKeepsServing(serving: map<int, ServingRow>, markets: set<int>, daily: DailyTable,
                          latest: LatestPriceTable, since: int, batch: seq<Trade>)
    requires ServingAgrees(serving, markets, daily, latest, since)
    ensures var daily' := Upserted(daily, Table(MarketFills(batch), MarketDayKey, MarketDayOf), MergeMarketDay);
            var latest' := Upserted(latest, BatchRows(batch), MergeEntry);
            ServingAgrees(ServingUpserted(serving, Impacted(batch), markets, daily', latest', since),
                          markets, daily', latest', since)
  {
    var rows := Table(MarketFills(batch), MarketDayKey, MarketDayOf);
    var daily' := Upserted(daily, rows, MergeMarketDay);
    var latest' := Upserted(latest, BatchRows(batch), MergeEntry);
    var serving' := ServingUpserted(serving, Impacted(batch), markets, daily', latest', since);
    KeysAreImpacted(batch);
    forall m | m in serving'
      ensures serving'[m] == FullRefresh(markets, daily', latest', since)[m]
    {
      if m in Impacted(batch) {
        FilterKeepsWindow(daily', since, Impacted(batch), m);
      } else {
        assert serving'[m] == serving[m];
        UntouchedWindow(daily, rows, since, m);
      }
    }
  }

  // ----- what the window columns mean -----

  function FillsSince(fs: seq<Fill>, m: int, since: int): seq<Fill> {
    if fs == [] then []
    else
      var f := fs[|fs| - 1];
      FillsSince(fs[..|fs| - 1], m, since) +
      (if f.marketId == m && f.time.Some? && DateOf(f.time).value >= since then [f] else [])
  }

  lemma MarketDayAdditive<K(!new)>(fs: seq<Fill>, key: Fill -> Option<K>)
    ensures Additive(fs, key, MarketDayOf, NO_MARKET_DAY, MergeMarketDay)
  {
    forall k, ks: set<K> | k !in ks
      ensures MarketDayOf(Within(fs, key, ks + {k})) ==
              MergeMarketDay(MarketDayOf(Within(fs, key, {k})), MarketDayOf(Within(fs, key, ks)))
    {
      MeasuresPartition(fs, key, k, ks, "");
    }
  }

  lemma {:induction false} WindowFills(fs: seq<Fill>, m: int, since: int, keys: set<(int, int)>)
    requires forall k | k in keys :: k.1 == m && k.0 >= since
    requires forall f | f in fs && f.marketId == m && f.time.Some? && DateOf(f.time).value >= since ::
               (DateOf(f.time).value, m) in keys
    ensures Within(fs, MarketDayKey, keys) == FillsSince(fs, m, since)
  {
    if fs != [] {
      WindowFills(fs[..|fs| - 1], m, since, keys);
    }
  }

  /**
    Over a one-pass daily table, the window holds the number, the total notional and the last time
    of exactly the market's fills dated on or after since.
  */
  lemma WindowCountsTrades(fs: seq<Fill>, m: int, since: int)
    ensures Window(Table(fs, MarketDayKey, MarketDayOf), since, None, m) == MarketDayOf(FillsSince(fs, m, since))
  {
    var daily := Table(fs, MarketDayKey, MarketDayOf);
    var keys := GroupKeys(WindowKeys(daily, since, None), m);
    MarketDayAdditive(fs, MarketDayKey);
    FoldIsSummary(fs, MarketDayKey, MarketDayOf, NO_MARKET_DAY, MergeMarketDay, keys);
    forall f | f in fs && f.marketId == m && f.time.Some? && DateOf(f.time).value >= since
      ensures (DateOf(f.time).value, m) in keys
    {
      assert MarketDayKey(f).value in KeysOf(fs, MarketDayKey);
    }
    WindowFills(fs, m, since, keys);
  }
}

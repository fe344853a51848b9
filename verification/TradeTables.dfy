/**
  Trades, the fills they contribute, and the columns and upsert merges of the four
  trade statistics tables (scripts/db/sync_trade_analytics.py).
*/
module TradeTables {
  import opened Prelude
  import opened KeyedTables

  const MICROSECONDS_PER_DAY := 86_400_000_000
  const EXCHANGE_ADDRESSES: set<string> := {
    "0x4bfb41d5b3570defd03c39a9a4d8de6bd8b8982e",
    "0xc5d563a36ae78145c45a50134d48a1215220f80a"
  }

  /**
    A row of the trade source after field parsing: addresses lower-cased and stripped, side and
    outcome upper-cased, timestamp as microseconds since the epoch.
  */
  datatype Trade = Trade(id: int, marketId: Option<int>, maker: string, taker: string,
                         price: real, size: real, side: string, outcome: string,
                         block: Option<int>, logIndex: Option<int>, time: Option<int>)

  predicate HasMarket(t: Trade) {
    t.marketId.Some? && t.marketId.value > 0
  }

  function OppositeSide(side: string): string {
    if side == "BUY" then "SELL" else if side == "SELL" then "BUY" else "UNKNOWN"
  }

  function DateOf(time: Option<int>): Option<int> {
    if time.None? then None else Some(time.value / MICROSECONDS_PER_DAY)
  }

  // ----- the fills of a trade -----

  function FillFor(t: Trade, address: string, side: string): Fill
    requires HasMarket(t)
  {
    Fill(t.marketId.value, address, side, t.price * t.size, t.time, t.block)
  }

  /** The trade as its market counts it; rows without a usable market are skipped. */
  function MarketFill(t: Trade): seq<Fill> {
    if HasMarket(t) then [FillFor(t, "", t.side)] else []
  }

  predicate IsMaker(t: Trade) {
    t.maker != "" && t.maker !in EXCHANGE_ADDRESSES
  }

  predicate IsTaker(t: Trade) {
    t.taker != "" && t.taker !in EXCHANGE_ADDRESSES && t.taker != t.maker
  }

  /** The trade as its participants count it: exchanges are left out, a self trade counts once. */
  function AddressFill(t: Trade): seq<Fill> {
    if !HasMarket(t) then []
    else
      (if IsMaker(t) then [FillFor(t, t.maker, if t.side == "" then "UNKNOWN" else t.side)] else []) +
      (if IsTaker(t) then [FillFor(t, t.taker, OppositeSide(t.side))] else [])
  }

  function MarketFills(ts: seq<Trade>): seq<Fill> {
    if ts == [] then [] else MarketFills(ts[..|ts| - 1]) + MarketFill(ts[|ts| - 1])
  }

  function AddressFills(ts: seq<Trade>): seq<Fill> {
    if ts == [] then [] else AddressFills(ts[..|ts| - 1]) + AddressFill(ts[|ts| - 1])
  }

  lemma {:induction false} MarketFillsAppend(a: seq<Trade>, b: seq<Trade>)
    ensures MarketFills(a + b) == MarketFills(a) + MarketFills(b)
    decreases |b|
  {
    if b == [] {
      assert a + b == a;
    } else {
      var init, last := b[..|b| - 1], b[|b| - 1];
      MarketFillsAppend(a, init);
      assert (a + b)[..|a + b| - 1] == a + init && (a + b)[|a + b| - 1] == last;
      Regroup(MarketFills(a), MarketFills(init), MarketFill(last));
    }
  }

  lemma AddressFillsSnoc(init: seq<Trade>, last: Trade, all: seq<Trade>)
    requires all == init + [last]
    ensures AddressFills(all) == AddressFills(init) + AddressFill(last)
  {
    assert all[..|all| - 1] == init;
  }

  lemma {:induction false} AddressFillsAppend(a: seq<Trade>, b: seq<Trade>)
    ensures AddressFills(a + b) == AddressFills(a) + AddressFills(b)
    decreases |b|
  {
    if b == [] {
      assert a + b == a;
    } else {
      var init, last := b[..|b| - 1], b[|b| - 1];
      AddressFillsAppend(a, init);
      AddressFillsSnoc(init, last, b);
      Regroup(a, init, [last]);
      AddressFillsSnoc(a + init, last, a + b);
      Regroup(AddressFills(a), AddressFills(init), AddressFill(last));
    }
  }

  lemma FillsAppend(a: seq<Trade>, b: seq<Trade>)
    ensures MarketFills(a + b) == MarketFills(a) + MarketFills(b)
    ensures AddressFills(a + b) == AddressFills(a) + AddressFills(b)
  {
    MarketFillsAppend(a, b);
    AddressFillsAppend(a, b);
  }

  // ----- keys -----

  function MarketDayKey(f: Fill): Option<(int, int)> {
    if f.time.None? then None else Some((DateOf(f.time).value, f.marketId))
  }

  function AddressDayKey(f: Fill): Option<(int, string)> {
    if f.time.None? then None else Some((DateOf(f.time).value, f.address))
  }

  function AddressKey(f: Fill): Option<string> {
    Some(f.address)
  }

  function AddressMarketKey(f: Fill): Option<(string, int)> {
    Some((f.address, f.marketId))
  }

  // ----- columns -----

  /** market_trade_daily_stats, keyed by (trade_date, market_id) */
  datatype MarketDay = MarketDay(count: nat, volume: real, lastAt: Option<int>, lastBlock: Option<int>)

  /** address_trade_daily_stats, keyed by (trade_date, address) */
  datatype AddressDay = AddressDay(count: nat, buys: nat, sells: nat, volume: real, lastAt: Option<int>)

  /** address_trade_totals, keyed by address, and address_market_stats, keyed by (address, market_id) */
  datatype AddressTally = AddressTally(count: nat, buys: nat, sells: nat, volume: real,
                                       firstAt: Option<int>, lastAt: Option<int>)

  const NO_MARKET_DAY := MarketDay(0, 0.0, None, None)
  const NO_ADDRESS_DAY := AddressDay(0, 0, 0, 0.0, None)
  const NO_ADDRESS_TALLY := AddressTally(0, 0, 0, 0.0, None, None)

  function MarketDayOf(fs: seq<Fill>): MarketDay {
    MarketDay(|fs|, Volume(fs), LastTime(fs), LastBlock(fs))
  }

  function AddressDayOf(fs: seq<Fill>): AddressDay {
    AddressDay(|fs|, CountSide(fs, "BUY"), CountSide(fs, "SELL"), Volume(fs), LastTime(fs))
  }

  function AddressTallyOf(fs: seq<Fill>): AddressTally {
    AddressTally(|fs|, CountSide(fs, "BUY"), CountSide(fs, "SELL"), Volume(fs), FirstTime(fs), LastTime(fs))
  }

  // ----- what ON CONFLICT DO UPDATE sets, each expression read against the stored row -----

  /** CASE for a last_* column */
  function KeepGreater(stored: Option<int>, excluded: Option<int>): Option<int> {
    if stored.None? then excluded
    else if excluded.None? then stored
    else if excluded.value > stored.value then excluded
    else stored
  }

  /** CASE for a first_* column */
  function KeepLess(stored: Option<int>, excluded: Option<int>): Option<int> {
    if stored.None? then excluded
    else if excluded.None? then stored
    else if excluded.value < stored.value then excluded
    else stored
  }

  function MergeMarketDay(stored: MarketDay, excluded: MarketDay): MarketDay {
    MarketDay(stored.count + excluded.count, stored.volume + excluded.volume,
              KeepGreater(stored.lastAt, excluded.lastAt), KeepGreater(stored.lastBlock, excluded.lastBlock))
  }

  function MergeAddressDay(stored: AddressDay, excluded: AddressDay): AddressDay {
    AddressDay(stored.count + excluded.count, stored.buys + excluded.buys, stored.sells + excluded.sells,
               stored.volume + excluded.volume, KeepGreater(stored.lastAt, excluded.lastAt))
  }

  function MergeAddressTally(stored: AddressTally, excluded: AddressTally): AddressTally {
    AddressTally(stored.count + excluded.count, stored.buys + excluded.buys, stored.sells + excluded.sells,
                 stored.volume + excluded.volume,
                 KeepLess(stored.firstAt, excluded.firstAt), KeepGreater(stored.lastAt, excluded.lastAt))
  }

  lemma MarketDayMergeable()
    ensures Mergeable(MarketDayOf, MergeMarketDay)
  {
    forall a: seq<Fill>, b: seq<Fill> | a != [] && b != []
      ensures MarketDayOf(a + b) == MergeMarketDay(MarketDayOf(a), MarketDayOf(b))
    {
      MeasuresAppend(a, b);
    }
  }

  lemma AddressDayMergeable()
    ensures Mergeable(AddressDayOf, MergeAddressDay)
  {
    forall a: seq<Fill>, b: seq<Fill> | a != [] && b != []
      ensures AddressDayOf(a + b) == MergeAddressDay(AddressDayOf(a), AddressDayOf(b))
    {
      MeasuresAppend(a, b);
    }
  }

  lemma AddressTallyMergeable()
    ensures Mergeable(AddressTallyOf, MergeAddressTally)
  {
    forall a: seq<Fill>, b: seq<Fill> | a != [] && b != []
      ensures AddressTallyOf(a + b) == MergeAddressTally(AddressTallyOf(a), AddressTallyOf(b))
    {
      MeasuresAppend(a, b);
    }
  }

  ghost function RowsOfAddress(perMarket: map<(string, int), AddressTally>, address: string): set<(string, int)> {
    set k | k in perMarket.Keys && k.0 == address
  }

  /**
    Each address total is the sum of that address's per-market rows, column by column: counts and
    volume add up, the first time is the least and the last time the greatest.
  */
  lemma AddressTotalSumsMarkets(fs: seq<Fill>, address: string)
    requires address in Table(fs, AddressKey, AddressTallyOf)
    ensures var perMarket := Table(fs, AddressMarketKey, AddressTallyOf);
            Table(fs, AddressKey, AddressTallyOf)[address] ==
            FoldRows(perMarket, RowsOfAddress(perMarket, address), NO_ADDRESS_TALLY, MergeAddressTally)
  {
    var perMarket := Table(fs, AddressMarketKey, AddressTallyOf);
    var mine := RowsOfAddress(perMarket, address);
    assert FoldRows(perMarket, mine, NO_ADDRESS_TALLY, MergeAddressTally) ==
           AddressTallyOf(Within(fs, AddressMarketKey, mine)) by {
      AddressTallyAdditive(fs, AddressMarketKey);
      FoldIsSummary(fs, AddressMarketKey, AddressTallyOf, NO_ADDRESS_TALLY, MergeAddressTally, mine);
    }
    assert Within(fs, AddressKey, {address}) == Within(fs, AddressMarketKey, mine) by {
      forall f | f in fs && f.address == address
        ensures (address, f.marketId) in mine
      {
        assert AddressMarketKey(f).value in KeysOf(fs, AddressMarketKey);
      }
      SameFills(fs, address, mine);
    }
    TableRow(fs, AddressKey, AddressTallyOf, address);
  }

  lemma AddressTallyAdditive<K(!new)>(fs: seq<Fill>, key: Fill -> Option<K>)
    ensures Additive(fs, key, AddressTallyOf, NO_ADDRESS_TALLY, MergeAddressTally)
  {
    forall k, ks: set<K> | k !in ks
      ensures AddressTallyOf(Within(fs, key, ks + {k})) ==
              MergeAddressTally(AddressTallyOf(Within(fs, key, {k})), AddressTallyOf(Within(fs, key, ks)))
    {
      MeasuresPartition(fs, key, k, ks, "BUY");
      MeasuresPartition(fs, key, k, ks, "SELL");
    }
  }

  /** The fills of an address are those of all its (address, market) keys. */
  lemma {:induction false} SameFills(fs: seq<Fill>, address: string, keys: set<(string, int)>)
    requires forall f | f in fs && f.address == address :: (address, f.marketId) in keys
    requires forall k | k in keys :: k.0 == address
    ensures Within(fs, AddressKey, {address}) == Within(fs, AddressMarketKey, keys)
  {
    if fs != [] {
      SameFills(fs[..|fs| - 1], address, keys);
    }
  }

  // ----- what one trade contributes -----

  /** A day is 86,400 seconds, and a time belongs to the day it falls into, before the epoch too. */
  lemma DateIsTheDay(time: int, day: int)
    ensures DateOf(Some(time)) == Some(day) <==> day * 86_400_000_000 <= time < (day + 1) * 86_400_000_000
  {
  }

  /** A BUY or SELL trade in a market, between two different addresses that are not exchanges. */
  predicate IsTwoSided(t: Trade) {
    && t.marketId.Some? && t.marketId.value > 0 && t.side in {"BUY", "SELL"}
    && t.maker != t.taker && IsPerson(t.maker) && IsPerson(t.taker)
  }

  predicate IsPerson(address: string) {
    && address != ""
    && address != "0x4bfb41d5b3570defd03c39a9a4d8de6bd8b8982e"
    && address != "0xc5d563a36ae78145c45a50134d48a1215220f80a"
  }

  function Other(side: string): string
    requires side in {"BUY", "SELL"}
  {
    if side == "BUY" then "SELL" else "BUY"
  }

  /** The market counts the trade once, at price times size; the maker on its side, the taker on the other. */
  lemma FillsOfTrade(t: Trade)
    requires IsTwoSided(t)
    ensures var m, notional := t.marketId.value, t.price * t.size;
            && MarketFill(t) == [Fill(m, "", t.side, notional, t.time, t.block)]
            && AddressFill(t) == [Fill(m, t.maker, t.side, notional, t.time, t.block),
                                  Fill(m, t.taker, Other(t.side), notional, t.time, t.block)]
  {
    assert HasMarket(t) && IsMaker(t) && IsTaker(t);
    assert FillFor(t, "", t.side) == Fill(t.marketId.value, "", t.side, t.price * t.size, t.time, t.block);
  }

  /** Who is counted, of any trade in a market: each participant once, unless it has no address or is an exchange. */
  lemma WhoTakesPart(t: Trade, address: string)
    requires t.marketId.Some? && t.marketId.value > 0
    ensures (exists f :: f in AddressFill(t) && f.address == address) <==> IsPerson(address) && (address == t.maker || address == t.taker)
    ensures |AddressFill(t)| == (if IsPerson(t.maker) then 1 else 0) + (if IsPerson(t.taker) && t.taker != t.maker then 1 else 0)
    ensures IsPerson(t.maker) ==> AddressFill(t)[0].side == if t.side == "" then "UNKNOWN" else t.side
    ensures IsPerson(t.taker) && t.taker != t.maker ==>
              AddressFill(t)[|AddressFill(t)| - 1].side == if t.side in {"BUY", "SELL"} then Other(t.side) else "UNKNOWN"
  {
    var fs := AddressFill(t);
    if IsPerson(t.maker) {
      assert fs[0].address == t.maker && fs[0] in fs;
    }
    if IsPerson(t.taker) && t.taker != t.maker {
      assert fs[|fs| - 1].address == t.taker && fs[|fs| - 1] in fs;
    }
  }

  /** Trades without a market are counted nowhere. */
  lemma NoMarketNoFills(t: Trade)
    requires t.marketId.None? || t.marketId.value <= 0
    ensures MarketFill(t) == [] && AddressFill(t) == []
  {
  }

  lemma OneFill(f: Fill, side: string)
    ensures CountSide([f], side) == (if f.side == side then 1 else 0)
    ensures Volume([f]) == f.notional && FirstTime([f]) == f.time == LastTime([f]) && LastBlock([f]) == f.block
  {
    assert [f][..0] == [];
  }

  /** Of two fills with different keys, each makes a row of its own. */
  lemma RowsOfTwo<K, V>(f: Fill, g: Fill, key: Fill -> Option<K>, summary: seq<Fill> -> V)
    requires key(f).Some? && key(g).Some? && key(f) != key(g)
    ensures var table := Table([f, g], key, summary);
            && table.Keys == {key(f).value, key(g).value}
            && table[key(f).value] == summary([f]) && table[key(g).value] == summary([g])
  {
    var fs := [f, g];
    assert f in fs && g in fs;
    assert fs[..1] == [f] && [f][..0] == [];
    assert Within([f], key, {key(f).value}) == [f] && Within([f], key, {key(g).value}) == [];
    assert Within(fs, key, {key(f).value}) == [f] && Within(fs, key, {key(g).value}) == [g];
  }

  /** The tally of one fill. */
  lemma TallyOfOne(f: Fill)
    requires f.side in {"BUY", "SELL"}
    ensures AddressTallyOf([f]) == AddressTally(1, if f.side == "BUY" then 1 else 0, if f.side == "SELL" then 1 else 0,
                                                f.notional, f.time, f.time)
    ensures AddressDayOf([f]) == AddressDay(1, if f.side == "BUY" then 1 else 0, if f.side == "SELL" then 1 else 0,
                                            f.notional, f.time)
    ensures MarketDayOf([f]) == MarketDay(1, f.notional, f.time, f.block)
  {
    OneFill(f, "BUY");
    OneFill(f, "SELL");
  }

  /** The two fills of a two-sided trade: the buyer's and the seller's, in the order maker, taker. */
  lemma FillsOfOne(t: Trade) returns (f: Fill, g: Fill)
    requires IsTwoSided(t)
    ensures AddressFills([t]) == [f, g]
    ensures f == Fill(t.marketId.value, t.maker, t.side, t.price * t.size, t.time, t.block)
    ensures g == Fill(t.marketId.value, t.taker, Other(t.side), t.price * t.size, t.time, t.block)
  {
    FillsOfTrade(t);
    AddressFillsSnoc([], t, [t]);
    f, g := AddressFill(t)[0], AddressFill(t)[1];
  }

  function Buyer(t: Trade): string {
    if t.side == "BUY" then t.maker else t.taker
  }

  function Seller(t: Trade): string {
    if t.side == "BUY" then t.taker else t.maker
  }

  lemma TwoRows<K, V>(table: map<K, V>, a: K, b: K, buyer: K, seller: K, bought: V, sold: V)
    requires table.Keys == {a, b} && a != b && {a, b} == {buyer, seller}
    requires table[buyer] == bought && table[seller] == sold
    ensures table == map[buyer := bought, seller := sold]
  {
  }

  /** A two-sided trade is one buy of the one and one sell of the other in the address totals. */
  lemma TotalsOfTrade(t: Trade)
    requires IsTwoSided(t)
    ensures Table(AddressFills([t]), AddressKey, AddressTallyOf) ==
            map[Buyer(t) := AddressTally(1, 1, 0, t.price * t.size, t.time, t.time),
                Seller(t) := AddressTally(1, 0, 1, t.price * t.size, t.time, t.time)]
  {
    var f, g := FillsOfOne(t);
    RowsOfTwo(f, g, AddressKey, AddressTallyOf);
    TallyOfOne(f);
    TallyOfOne(g);
    TwoRows(Table([f, g], AddressKey, AddressTallyOf), f.address, g.address, Buyer(t), Seller(t),
            AddressTally(1, 1, 0, t.price * t.size, t.time, t.time), AddressTally(1, 0, 1, t.price * t.size, t.time, t.time));
  }

  /** The same in the rows per address and market. */
  lemma MarketTalliesOfTrade(t: Trade)
    requires IsTwoSided(t)
    ensures Table(AddressFills([t]), AddressMarketKey, AddressTallyOf) ==
            map[(Buyer(t), t.marketId.value) := AddressTally(1, 1, 0, t.price * t.size, t.time, t.time),
                (Seller(t), t.marketId.value) := AddressTally(1, 0, 1, t.price * t.size, t.time, t.time)]
  {
    var f, g := FillsOfOne(t);
    var m := t.marketId.value;
    RowsOfTwo(f, g, AddressMarketKey, AddressTallyOf);
    TallyOfOne(f);
    TallyOfOne(g);
    TwoRows(Table([f, g], AddressMarketKey, AddressTallyOf), (f.address, m), (g.address, m), (Buyer(t), m), (Seller(t), m),
            AddressTally(1, 1, 0, t.price * t.size, t.time, t.time), AddressTally(1, 0, 1, t.price * t.size, t.time, t.time));
  }

  /** The same in the daily rows of a dated trade. */
  lemma DaysOfTrade(t: Trade)
    requires IsTwoSided(t) && t.time.Some?
    ensures var day := DateOf(t.time).value;
            Table(AddressFills([t]), AddressDayKey, AddressDayOf) ==
            map[(day, Buyer(t)) := AddressDay(1, 1, 0, t.price * t.size, t.time),
                (day, Seller(t)) := AddressDay(1, 0, 1, t.price * t.size, t.time)]
  {
    var f, g := FillsOfOne(t);
    var day := DateOf(t.time).value;
    RowsOfTwo(f, g, AddressDayKey, AddressDayOf);
    TallyOfOne(f);
    TallyOfOne(g);
    TwoRows(Table([f, g], AddressDayKey, AddressDayOf), (day, f.address), (day, g.address), (day, Buyer(t)), (day, Seller(t)),
            AddressDay(1, 1, 0, t.price * t.size, t.time), AddressDay(1, 0, 1, t.price * t.size, t.time));
  }

  /** A dated trade in a market is one row of the market's day: its notional, time and block. */
  lemma MarketDayOfTrade(t: Trade)
    requires t.marketId.Some? && t.marketId.value > 0 && t.time.Some?
    ensures Table(MarketFills([t]), MarketDayKey, MarketDayOf) ==
            map[(DateOf(t.time).value, t.marketId.value) := MarketDay(1, t.price * t.size, t.time, t.block)]
  {
    var f := Fill(t.marketId.value, "", t.side, t.price * t.size, t.time, t.block);
    assert MarketFill(t) == [f] by {
      assert HasMarket(t) && FillFor(t, "", t.side) == f;
    }
    assert MarketFills([t]) == [f] by {
      assert [t][..0] == [] && MarketFills([]) == [];
    }
    RowOfOne(f, MarketDayKey, MarketDayOf);
    OneFill(f, "");
  }

  lemma RowOfOne<K, V>(f: Fill, key: Fill -> Option<K>, summary: seq<Fill> -> V)
    requires key(f).Some?
    ensures Table([f], key, summary) == map[key(f).value := summary([f])]
  {
    TableSnoc([], f, key, summary);
    assert [] + [f] == [f];
    assert Table([], key, summary).Keys == {};
  }

  // ----- buys and sells balance -----

  lemma {:induction false} FillsBalance(ts: seq<Trade>)
    requires forall t | t in ts :: IsTwoSided(t)
    ensures CountSide(AddressFills(ts), "BUY") == |ts| == CountSide(AddressFills(ts), "SELL")
  {
    if ts != [] {
      var init, t := ts[..|ts| - 1], ts[|ts| - 1];
      assert t in ts && forall u | u in init :: u in ts;
      FillsBalance(init);
      FillsOfTrade(t);
      MeasuresAppend(AddressFills(init), AddressFill(t));
      OneEach(AddressFill(t)[0], AddressFill(t)[1]);
    }
  }

  lemma OneEach(f: Fill, g: Fill)
    requires {f.side, g.side} == {"BUY", "SELL"}
    ensures CountSide([f, g], "BUY") == 1 == CountSide([f, g], "SELL")
  {
    assert "BUY" in {f.side, g.side} && "SELL" in {f.side, g.side};
    assert [f, g][..1] == [f];
    OneFill(f, "BUY");
    OneFill(f, "SELL");
  }

  lemma {:induction false} AllWithin<K>(fs: seq<Fill>, key: Fill -> Option<K>, keys: set<K>)
    requires forall f | f in fs :: key(f).Some? && key(f).value in keys
    ensures Within(fs, key, keys) == fs
  {
    if fs != [] {
      AllWithin(fs[..|fs| - 1], key, keys);
    }
  }

  /** Over two-sided trades, buys and sells summed over all addresses are both the number of trades. */
  lemma TotalsBalance(ts: seq<Trade>)
    requires forall t | t in ts :: IsTwoSided(t)
    ensures var totals := Table(AddressFills(ts), AddressKey, AddressTallyOf);
            var sum := FoldRows(totals, totals.Keys, NO_ADDRESS_TALLY, MergeAddressTally);
            sum.buys == |ts| == sum.sells
  {
    var fs := AddressFills(ts);
    var totals := Table(fs, AddressKey, AddressTallyOf);
    AddressTallyAdditive(fs, AddressKey);
    FoldIsSummary(fs, AddressKey, AddressTallyOf, NO_ADDRESS_TALLY, MergeAddressTally, totals.Keys);
    AllWithin(fs, AddressKey, totals.Keys);
    FillsBalance(ts);
  }
}

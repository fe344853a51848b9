/**
  The latest-price table: per market the newest trade overall, of outcome YES and of outcome NO,
  chosen inside a batch by _is_newer_trade and across batches by the upsert's CASE expressions.
*/
module LatestPrices {
  import opened Prelude
  import opened KeyedTables
  import opened TradeTables

  /** LatestTradePoint, built from one trade. */
  datatype Point = Point(at: Option<int>, block: Option<int>, log: Option<int>, price: real)

  /** The four stored columns of one slot; an absent slot is four NULLs. */
  datatype Columns = Columns(at: Option<int>, block: Option<int>, log: Option<int>, price: Option<real>)

  const NO_COLUMNS := Columns(None, None, None, None)

  datatype Slot = Latest | Yes | No

  /** market_latest[market_id] inside a batch, and a row of market_latest_prices. */
  datatype Entry<T> = Entry(latest: T, yes: T, no: T) {
    function At(slot: Slot): T {
      match slot case Latest => latest case Yes => yes case No => no
    }
  }

  function PointOf(t: Trade): Point {
    Point(t.time, t.block, t.logIndex, t.price)
  }

  /** COALESCE(x, -1) */
  function Coalesced(x: Option<int>): int {
    if x.None? then -1 else x.value
  }

  /** (block, log index) pairs compared lexicographically, NULL as -1. */
  predicate Exceeds(block: Option<int>, log: Option<int>, block': Option<int>, log': Option<int>) {
    || Coalesced(block) > Coalesced(block')
    || (Coalesced(block) == Coalesced(block') && Coalesced(log) > Coalesced(log'))
  }

  /** _is_newer_trade */
  predicate IsNewer(p: Point, current: Option<Point>) {
    if current.None? then true
    else
      var block, currentBlock := Coalesced(p.block), Coalesced(current.value.block);
      if block != currentBlock then block > currentBlock
      else Coalesced(p.log) > Coalesced(current.value.log)
  }

  // ----- the newest of a sequence of points -----

  function Best(ps: seq<Point>): Option<Point> {
    if ps == [] then None
    else
      var before := Best(ps[..|ps| - 1]);
      if IsNewer(ps[|ps| - 1], before) then Some(ps[|ps| - 1]) else before
  }

  /** p is the greatest by (block, log index), and the earliest seen among equals. */
  ghost predicate IsNewestAt(ps: seq<Point>, i: nat) {
    && i < |ps|
    && (forall j | 0 <= j < |ps| :: !Exceeds(ps[j].block, ps[j].log, ps[i].block, ps[i].log))
    && (forall j | 0 <= j < i :: Exceeds(ps[i].block, ps[i].log, ps[j].block, ps[j].log))
  }

  /** The in-batch choice is the earliest of the lexicographically greatest points, which is unique. */
  lemma {:induction false} BestIsNewest(ps: seq<Point>) returns (i: nat)
    ensures Best(ps).None? <==> ps == []
    ensures ps != [] ==> IsNewestAt(ps, i) && Best(ps) == Some(ps[i])
    ensures forall j | IsNewestAt(ps, j) :: j == i
  {
    i := 0;
    if ps != [] {
      var init := ps[..|ps| - 1];
      i := BestIsNewest(init);
      if IsNewer(ps[|ps| - 1], Best(init)) {
        i := |ps| - 1;
      }
    }
  }

  function Newer(a: Option<Point>, b: Option<Point>): Option<Point> {
    if b.None? then a else if IsNewer(b.value, a) then b else a
  }

  lemma {:induction false} BestAppend(a: seq<Point>, b: seq<Point>)
    ensures Best(a + b) == Newer(Best(a), Best(b))
    decreases |b|
  {
    if b == [] {
      assert a + b == a;
    } else {
      BestAppend(a, b[..|b| - 1]);
      assert (a + b)[..|a + b| - 1] == a + b[..|b| - 1];
    }
  }

  // ----- the points of a market -----

  predicate Belongs(t: Trade, m: int, slot: Slot) {
    && HasMarket(t)
    && t.marketId.value == m
    && match slot case Latest => true case Yes => t.outcome == "YES" case No => t.outcome == "NO"
  }

  function Points(ts: seq<Trade>, m: int, slot: Slot): seq<Point> {
    if ts == [] then []
    else
      var t := ts[|ts| - 1];
      Points(ts[..|ts| - 1], m, slot) + (if Belongs(t, m, slot) then [PointOf(t)] else [])
  }

  function MarketsOf(ts: seq<Trade>): set<int> {
    set t | t in ts && HasMarket(t) :: t.marketId.value
  }

  lemma {:induction false} PointsAppend(a: seq<Trade>, b: seq<Trade>, m: int, slot: Slot)
    ensures Points(a + b, m, slot) == Points(a, m, slot) + Points(b, m, slot)
    decreases |b|
  {
    if b == [] {
      assert a + b == a;
    } else {
      PointsAppend(a, b[..|b| - 1], m, slot);
      assert (a + b)[..|a + b| - 1] == a + b[..|b| - 1];
    }
  }

  lemma {:induction false} NoPointsOutsideMarkets(ts: seq<Trade>, m: int, slot: Slot)
    ensures m !in MarketsOf(ts) ==> Points(ts, m, slot) == []
    ensures m in MarketsOf(ts) <==> Points(ts, m, Latest) != []
  {
    if ts != [] {
      var init, t := ts[..|ts| - 1], ts[|ts| - 1];
      NoPointsOutsideMarkets(init, m, slot);
      assert ts == init + [t];
      assert m in MarketsOf(ts) <==> m in MarketsOf(init) || (HasMarket(t) && t.marketId.value == m);
    }
  }

  // ----- batch entries and the stored table -----

  function BestEntry(ts: seq<Trade>, m: int): Entry<Option<Point>> {
    Entry(Best(Points(ts, m, Latest)), Best(Points(ts, m, Yes)), Best(Points(ts, m, No)))
  }

  /** market_latest after the loop over a batch. */
  function BatchEntries(ts: seq<Trade>): map<int, Entry<Option<Point>>> {
    map m | m in MarketsOf(ts) :: BestEntry(ts, m)
  }

  function Stored(p: Option<Point>): Columns {
    if p.None? then NO_COLUMNS else Columns(p.value.at, p.value.block, p.value.log, Some(p.value.price))
  }

  function StoredEntry(e: Entry<Option<Point>>): Entry<Columns> {
    Entry(Stored(e.latest), Stored(e.yes), Stored(e.no))
  }

  /** Each of the four columns has its own CASE, all read against the stored row. */
  function MergeColumns(stored: Columns, excluded: Columns): Columns {
    Columns(
      if Coalesced(excluded.block) > Coalesced(stored.block) then excluded.at
      else if Coalesced(excluded.block) == Coalesced(stored.block) && Coalesced(excluded.log) > Coalesced(stored.log) then excluded.at
      else stored.at,
      if Coalesced(excluded.block) > Coalesced(stored.block) then excluded.block
      else if Coalesced(excluded.block) == Coalesced(stored.block) && Coalesced(excluded.log) > Coalesced(stored.log) then excluded.block
      else stored.block,
      if Coalesced(excluded.block) > Coalesced(stored.block) then excluded.log
      else if Coalesced(excluded.block) == Coalesced(stored.block) && Coalesced(excluded.log) > Coalesced(stored.log) then excluded.log
      else stored.log,
      if Coalesced(excluded.block) > Coalesced(stored.block) then excluded.price
      else if Coalesced(excluded.block) == Coalesced(stored.block) && Coalesced(excluded.log) > Coalesced(stored.log) then excluded.price
      else stored.price
    )
  }

  function MergeEntry(stored: Entry<Columns>, excluded: Entry<Columns>): Entry<Columns> {
    Entry(MergeColumns(stored.latest, excluded.latest), MergeColumns(stored.yes, excluded.yes),
          MergeColumns(stored.no, excluded.no))
  }

  function BatchRows(ts: seq<Trade>): map<int, Entry<Columns>> {
    map m | m in MarketsOf(ts) :: StoredEntry(BestEntry(ts, m))
  }

  function Flatten(batches: seq<seq<Trade>>): seq<Trade> {
    if batches == [] then [] else Flatten(batches[..|batches| - 1]) + batches[|batches| - 1]
  }

  /** market_latest_prices after upserting the batches in order. */
  function LatestTable(batches: seq<seq<Trade>>): map<int, Entry<Columns>> {
    if batches == [] then map[]
    else Upserted(LatestTable(batches[..|batches| - 1]), BatchRows(batches[|batches| - 1]), MergeEntry)
  }

  // ----- when a slot holds the newest trade -----

  /** A chain coordinate is a non-negative number when it is known. */
  predicate OnChain(t: Trade) {
    && (t.block.Some? ==> t.block.value >= 0)
    && (t.logIndex.Some? ==> t.logIndex.value >= 0)
  }

  /** The trade has at least one of block number and log index. */
  predicate Placed(p: Point) {
    p.block.Some? || p.log.Some?
  }

  /** The batch that created market m's row held a trade for this slot. */
  predicate FilledAtInsert(batches: seq<seq<Trade>>, m: int, slot: Slot) {
    batches != [] &&
    var init, last := batches[..|batches| - 1], batches[|batches| - 1];
    if m in MarketsOf(Flatten(init)) then FilledAtInsert(init, m, slot) else Points(last, m, slot) != []
  }

  lemma {:induction false} BestIsOfATrade(ts: seq<Trade>, m: int, slot: Slot)
    ensures var p := Best(Points(ts, m, slot));
            p.Some? ==> exists t :: t in ts && p.value == PointOf(t)
  {
    if ts != [] {
      var init, t := ts[..|ts| - 1], ts[|ts| - 1];
      BestIsOfATrade(init, m, slot);
      assert ts == init + [t];
      BestAppend(Points(init, m, slot), if Belongs(t, m, slot) then [PointOf(t)] else []);
      assert forall u | u in init :: u in ts;
    }
  }

  /** What a slot holds when p is its newest point: p, or nothing when p was missed. */
  function Held(p: Option<Point>, filled: bool): Columns {
    if p.None? || Placed(p.value) || filled then Stored(p) else NO_COLUMNS
  }

  predicate PointOnChain(p: Option<Point>) {
    p.Some? ==> (p.value.block.Some? ==> p.value.block.value >= 0) && (p.value.log.Some? ==> p.value.log.value >= 0)
  }

  /** The SQL merge of a held slot with a batch's choice holds the newer of the two points. */
  lemma MergeHeld(p: Option<Point>, q: Option<Point>, filled: bool)
    requires PointOnChain(p) && PointOnChain(q)
    requires filled ==> p.Some?
    ensures MergeColumns(Held(p, filled), Stored(q)) == Held(Newer(p, q), filled)
  {
  }

  ghost predicate SlotHolds(batches: seq<seq<Trade>>, m: int, slot: Slot) {
    var ts, table := Flatten(batches), LatestTable(batches);
    var filled := FilledAtInsert(batches, m, slot);
    && (m in table <==> m in MarketsOf(ts))
    && (m in table ==> table[m].At(slot) == Held(Best(Points(ts, m, slot)), filled))
    && (filled ==> Points(ts, m, slot) != [])
  }

  lemma RowStep(init: seq<seq<Trade>>, last: seq<Trade>, m: int, slot: Slot)
    ensures var stored, table := LatestTable(init), LatestTable(init + [last]);
            var added := Stored(Best(Points(last, m, slot)));
            && (m in table <==> m in stored || m in MarketsOf(last))
            && (m in table ==>
                  table[m].At(slot) ==
                  if m in stored && m in MarketsOf(last) then MergeColumns(stored[m].At(slot), added)
                  else if m in MarketsOf(last) then added
                  else stored[m].At(slot))
  {
    var batches := init + [last];
    assert batches[..|batches| - 1] == init;
    assert LatestTable(batches) == Upserted(LatestTable(init), BatchRows(last), MergeEntry);
  }

  lemma FlattenStep(init: seq<seq<Trade>>, last: seq<Trade>, m: int)
    ensures Flatten(init + [last]) == Flatten(init) + last
    ensures m in MarketsOf(Flatten(init + [last])) <==> m in MarketsOf(Flatten(init)) || m in MarketsOf(last)
  {
    assert (init + [last])[..|init|] == init;
    assert MarketsOf(Flatten(init) + last) == MarketsOf(Flatten(init)) + MarketsOf(last);
  }

  lemma {:induction false} SlotAfterBatches(batches: seq<seq<Trade>>, m: int, slot: Slot)
    requires forall t | t in Flatten(batches) :: OnChain(t)
    ensures SlotHolds(batches, m, slot)
  {
    if batches != [] {
      var init, last := batches[..|batches| - 1], batches[|batches| - 1];
      assert batches == init + [last];
      FlattenStep(init, last, m);
      assert forall t | t in Flatten(init) :: t in Flatten(batches);
      assert forall t | t in last :: t in Flatten(batches);
      SlotAfterBatches(init, m, slot);
      SlotStep(init, last, m, slot);
    }
  }

  lemma SlotStep(init: seq<seq<Trade>>, last: seq<Trade>, m: int, slot: Slot)
    requires forall t | t in Flatten(init) :: OnChain(t)
    requires forall t | t in last :: OnChain(t)
    requires SlotHolds(init, m, slot)
    ensures SlotHolds(init + [last], m, slot)
  {
    var ts, p, q := Flatten(init), Best(Points(Flatten(init), m, slot)), Best(Points(last, m, slot));
    var filled, filled' := FilledAtInsert(init, m, slot), FilledAtInsert(init + [last], m, slot);
    FlattenStep(init, last, m);
    RowStep(init, last, m, slot);
    PointsAppend(ts, last, m, slot);
    BestAppend(Points(ts, m, slot), Points(last, m, slot));
    BestIsSome(Points(ts, m, slot));
    BestIsSome(Points(last, m, slot));
    NoPointsOutsideMarkets(ts, m, slot);
    NoPointsOutsideMarkets(last, m, slot);
    assert (init + [last])[..|init|] == init;
    assert filled' == if m in MarketsOf(ts) then filled else Points(last, m, slot) != [];
    if m in MarketsOf(ts) {
      BestIsOfATrade(ts, m, slot);
      BestIsOfATrade(last, m, slot);
      MergeHeld(p, q, filled);
    }
  }

  lemma BestIsSome(ps: seq<Point>)
    ensures Best(ps).None? <==> ps == []
  {
    var _ := BestIsNewest(ps);
  }

  /**
    Exactly when a slot holds the newest of all its trades, whatever the batch boundaries: it has
    no trades, its newest trade is placed on the chain, or the market's row was inserted by a batch
    with a trade for the slot.
  */
  lemma SlotIsNewestExactlyWhen(batches: seq<seq<Trade>>, m: int, slot: Slot)
    requires forall t | t in Flatten(batches) :: OnChain(t)
    requires m in LatestTable(batches)
    ensures var newest := Best(Points(Flatten(batches), m, slot));
            LatestTable(batches)[m].At(slot) == Stored(newest) <==>
            newest.None? || Placed(newest.value) || FilledAtInsert(batches, m, slot)
  {
    SlotAfterBatches(batches, m, slot);
  }

  lemma {:induction false} LatestFilledAtInsert(batches: seq<seq<Trade>>, m: int)
    requires m in MarketsOf(Flatten(batches))
    ensures FilledAtInsert(batches, m, Latest)
  {
    var init, last := batches[..|batches| - 1], batches[|batches| - 1];
    assert MarketsOf(Flatten(batches)) == MarketsOf(Flatten(init)) + MarketsOf(last);
    if m in MarketsOf(Flatten(init)) {
      LatestFilledAtInsert(init, m);
    } else {
      NoPointsOutsideMarkets(last, m, Latest);
    }
  }

  /** The one-pass table: each slot the newest of all the market's trades for it. */
  function OnePassLatest(ts: seq<Trade>): map<int, Entry<Columns>> {
    BatchRows(ts)
  }

  /** When every trade has a block number or a log index, batch boundaries leave no trace in the table. */
  lemma LatestTableIsOnePass(batches: seq<seq<Trade>>)
    requires forall t | t in Flatten(batches) :: OnChain(t) && Placed(PointOf(t))
    ensures LatestTable(batches) == OnePassLatest(Flatten(batches))
  {
    var ts := Flatten(batches);
    forall m
      ensures m in LatestTable(batches) <==> m in MarketsOf(ts)
      ensures m in LatestTable(batches) ==> LatestTable(batches)[m] == StoredEntry(BestEntry(ts, m))
    {
      SlotOfPlacedTrades(batches, m, Latest);
      SlotOfPlacedTrades(batches, m, Yes);
      SlotOfPlacedTrades(batches, m, No);
    }
  }

  lemma SlotOfPlacedTrades(batches: seq<seq<Trade>>, m: int, slot: Slot)
    requires forall t | t in Flatten(batches) :: OnChain(t) && Placed(PointOf(t))
    ensures m in LatestTable(batches) <==> m in MarketsOf(Flatten(batches))
    ensures m in LatestTable(batches) ==>
              LatestTable(batches)[m].At(slot) == Stored(Best(Points(Flatten(batches), m, slot)))
  {
    SlotAfterBatches(batches, m, slot);
    BestIsOfATrade(Flatten(batches), m, slot);
  }

  /** The trade counts for the slot: its market, and for YES and NO also its outcome. */
  predicate CountsFor(t: Trade, m: int, slot: Slot) {
    && t.marketId == Some(m) && m > 0
    && (slot == Yes ==> t.outcome == "YES")
    && (slot == No ==> t.outcome == "NO")
  }

  /** By block number and then log index, unknown ones first, u is not after t. */
  predicate NotAfter(u: Trade, t: Trade) {
    var ub, tb := if u.block.Some? then u.block.value else -1, if t.block.Some? then t.block.value else -1;
    var ul, tl := if u.logIndex.Some? then u.logIndex.value else -1, if t.logIndex.Some? then t.logIndex.value else -1;
    ub < tb || (ub == tb && ul <= tl)
  }

  lemma {:induction false} PointsAreOfTrades(ts: seq<Trade>, m: int, slot: Slot, p: Point) returns (t: Trade)
    requires p in Points(ts, m, slot)
    ensures t in ts && CountsFor(t, m, slot) && p == PointOf(t)
  {
    var init, last := ts[..|ts| - 1], ts[|ts| - 1];
    if Belongs(last, m, slot) && p == PointOf(last) {
      t := last;
    } else {
      t := PointsAreOfTrades(init, m, slot, p);
    }
  }

  lemma {:induction false} TradesHavePoints(ts: seq<Trade>, m: int, slot: Slot, t: Trade)
    requires t in ts && CountsFor(t, m, slot)
    ensures PointOf(t) in Points(ts, m, slot)
  {
    var init, last := ts[..|ts| - 1], ts[|ts| - 1];
    if t in init {
      TradesHavePoints(init, m, slot, t);
    } else {
      assert t == last && Belongs(t, m, slot);
    }
  }

  /**
    In terms of the trades: when every trade is placed on the chain, a slot that has any trade shows
    time, block, log index and price of one of them that no other is after; else it is empty.
  */
  lemma SlotShowsNewestTrade(batches: seq<seq<Trade>>, m: int, slot: Slot) returns (t: Option<Trade>)
    requires forall u | u in Flatten(batches) :: OnChain(u) && Placed(PointOf(u))
    requires m in LatestTable(batches)
    ensures t.None? ==> LatestTable(batches)[m].At(slot) == Columns(None, None, None, None)
    ensures t.None? ==> forall u | u in Flatten(batches) :: !CountsFor(u, m, slot)
    ensures t.Some? ==>
              && t.value in Flatten(batches) && CountsFor(t.value, m, slot)
              && LatestTable(batches)[m].At(slot) ==
                 Columns(t.value.time, t.value.block, t.value.logIndex, Some(t.value.price))
              && forall u | u in Flatten(batches) && CountsFor(u, m, slot) :: NotAfter(u, t.value)
  {
    var ts := Flatten(batches);
    var ps := Points(ts, m, slot);
    SlotOfPlacedTrades(batches, m, slot);
    var i := BestIsNewest(ps);
    if ps == [] {
      t := None;
      forall u | u in ts
        ensures !CountsFor(u, m, slot)
      {
        if CountsFor(u, m, slot) {
          TradesHavePoints(ts, m, slot, u);
        }
      }
    } else {
      var newest := PointsAreOfTrades(ts, m, slot, ps[i]);
      t := Some(newest);
      forall u | u in ts && CountsFor(u, m, slot)
        ensures NotAfter(u, newest)
      {
        TradesHavePoints(ts, m, slot, u);
        var j :| 0 <= j < |ps| && ps[j] == PointOf(u);
        assert !Exceeds(ps[j].block, ps[j].log, ps[i].block, ps[i].log);
      }
    }
  }

  /** The market's overall latest slot never misses a trade, known block or not. */
  lemma LatestSlotAlwaysNewest(batches: seq<seq<Trade>>, m: int)
    requires forall t | t in Flatten(batches) :: OnChain(t)
    requires m in LatestTable(batches)
    ensures LatestTable(batches)[m].latest == Stored(Best(Points(Flatten(batches), m, Latest)))
  {
    SlotAfterBatches(batches, m, Latest);
    LatestFilledAtInsert(batches, m);
  }

  /**
    A trade without block and log index that reaches a slot for the first time after the market's
    row exists is lost, while the same two trades in one batch store it.
  */
  lemma UnplacedTradeIsLost(first: Trade, second: Trade, m: int, slot: Slot)
    requires OnChain(first) && OnChain(second) && !Placed(PointOf(second))
    requires Belongs(first, m, Latest) && !Belongs(first, m, slot) && Belongs(second, m, slot)
    ensures m in LatestTable([[first], [second]]) && m in LatestTable([[first, second]])
    ensures LatestTable([[first], [second]])[m].At(slot) == NO_COLUMNS
    ensures LatestTable([[first, second]])[m].At(slot) == Stored(Some(PointOf(second)))
  {
    PairFlattens(first, second);
    PointsOfPair(first, second, m, slot);
    FilledByPair(first, second, m, slot);
    var ts := [first, second];
    assert Best([PointOf(second)]) == Some(PointOf(second)) by {
      assert [PointOf(second)][..0] == [];
    }
    assert first in ts && m in MarketsOf(ts);
    SlotAfterBatches([[first], [second]], m, slot);
    SlotAfterBatches([ts], m, slot);
  }

  lemma PairFlattens(first: Trade, second: Trade)
    ensures Flatten([[first], [second]]) == [first, second] == Flatten([[first, second]])
  {
    assert [[first], [second]][..1] == [[first]];
    assert [[first]][..0] == [] && [[first, second]][..0] == [];
    assert Flatten([[first]]) == [first];
  }

  lemma FilledByPair(first: Trade, second: Trade, m: int, slot: Slot)
    requires Belongs(first, m, Latest)
    ensures FilledAtInsert([[first], [second]], m, slot) <==> Points([first], m, slot) != []
    ensures FilledAtInsert([[first, second]], m, slot) <==> Points([first, second], m, slot) != []
  {
    assert [[first], [second]][..1] == [[first]];
    assert [[first]][..0] == [] && [[first, second]][..0] == [];
    assert first in Flatten([[first]]);
  }

  /** An input: a placed NO trade, then a YES trade whose block and log index are both unreadable. */
  lemma UnplacedYesTradeIsLost()
    ensures var first := Trade(1, Some(7), "a", "b", 0.5, 1.0, "BUY", "NO", Some(10), Some(0), None);
            var second := Trade(2, Some(7), "a", "b", 0.6, 1.0, "BUY", "YES", None, None, None);
            && 7 in LatestTable([[first], [second]]) && 7 in LatestTable([[first, second]])
            && LatestTable([[first], [second]])[7].At(Yes) == NO_COLUMNS
            && LatestTable([[first, second]])[7].At(Yes) == Columns(None, None, None, Some(0.6))
  {
    var first := Trade(1, Some(7), "a", "b", 0.5, 1.0, "BUY", "NO", Some(10), Some(0), None);
    var second := Trade(2, Some(7), "a", "b", 0.6, 1.0, "BUY", "YES", None, None, None);
    UnplacedTradeIsLost(first, second, 7, Yes);
  }

  lemma PointsOfPair(t: Trade, u: Trade, m: int, slot: Slot)
    ensures Points([t], m, slot) == if Belongs(t, m, slot) then [PointOf(t)] else []
    ensures Points([t, u], m, slot) == Points([t], m, slot) + if Belongs(u, m, slot) then [PointOf(u)] else []
  {
    assert [t][..0] == [];
    assert [t, u][..1] == [t];
  }
}

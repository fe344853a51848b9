# Verified models of polyDB's stateful cores

This project models five parts of the repository whose correctness depends on whole runs rather than
on single calls, and proves what those runs keep. Each model follows the branches, constants and
error exits of its source; code that updates state is a class or a method with loops, proved against
a specification function, and the properties of whole runs are lemmas about those functions.

**Incremental trade analytics** (`KeyedTables`, `TradeTables`, `LatestPrices`, `TradeBatch`,
`TradeSync`, `MarketServing`, `AnalyticsSync`, `MarketStatus`). A watermark loop folds trades batch by
batch into daily, address, latest-price and serving tables; any statement may raise, which rolls the
batch back. The invariant `AnalyticsSync.Consistent` holds after every call, and from it the committed
tables are shown to be one-pass recomputes over exactly the trades up to the committed watermark. The
market status table is the same story over oracle events.

**Release apply and rollback** (`ReleaseFiles`, `ReleaseUnits`, `ReleaseBuild`, `ReleasePaths`,
`ReleaseApply`, `ReleaseRollback`). The serving tree is a map from path to content and mode. Every file
operation may work, raise, or be cut short by a crash. `Recoverable` describes every tree an
interruption can leave.

**Connection pool and host permits** (`ReadBudget`, `TaskSets`, `ConnectionPool`, `PoolInvariants`,
`PoolPermits`, `PoolProgress`). The methods of `ApiPostgresConnectionPool` are the pool's lock regions;
the protocol is a state machine in which any number of tasks interleave those regions with connects,
rollbacks and closes outside the lock, while other processes take and return host permits. Beside what
every run keeps, `PoolProgress` and `SnapshotProgress` say what the steps achieve.

**Snapshot refresh admission** (`SnapshotAdmission`, `SnapshotCooldowns`, `SnapshotProtocol`,
`SnapshotProgress`, `SnapshotReads`). Tasks of several processes move through local admission, the Redis
lease, the build and the release, with Redis unreachable or failing before or after a command took
effect; and readers meet a panel store that others keep writing.

**Encodings** (`Uint256`, `TsvCodec`, `Migration`). 256-bit integers as text and bytes, the
tab-separated chunk files with the reader their LOAD DATA clause asks for, and resumable migration
on top of them.

## Where the code does not do what one would hope

Each property below fails for some input. A lemma gives one, and beside it stands the exact condition
under which the property holds.

- An event inserted while the status table is rebuilt, between reading the rows and reading the
  greatest event id, is counted as seen without having been read. `RefreshMissesSettlement` is such a
  settlement; the row is right exactly when `RowKeptExactlyWhen` says so, and only full refreshes, not
  increments, can miss events (`SyncMarketStatusSnapshot`). It needs each statement to see the events
  committed by then, as in SQLite before the first write of the refresh and in PostgreSQL under READ
  COMMITTED. Under MySQL's REPEATABLE READ the greatest id comes from the snapshot of the first read,
  and nothing can arrive in between.
- The status increment drops market id 0, because it tests the id for truth: `MarketZeroGoesStale`,
  with the same exact condition. Both schemas number markets from 1, so an event of market 0 needs a
  market row with an explicit id of 0, or a store that does not enforce the foreign key.
- A trade whose block number and log index are both unreadable never replaces an empty YES or NO slot
  once the market's row exists, because the merge compares null as -1: `UnplacedYesTradeIsLost`, and
  exactly when in `SlotIsNewestExactlyWhen`. `log_index` is NOT NULL in both `trades` schemas, so with
  those tables the slots are always right (`LatestTableIsOnePass` asks for a block number or a log
  index). The input needs another read source, which `POLYDATA_TRADES_READ_SOURCE` allows, or a SQLite
  column that holds text which is not a number.
- Cycles run with `--market-only` advance the same watermark, so their trades are never counted for
  addresses: `MarketOnlyBatchSkipsAddresses`, and exactly when in `AddressTotalsCompleteExactlyWhen`.
- A resumed migration continues above the greatest id it finds. `RowsFromElsewhereHideARow` is a target
  to which something else wrote newer rows; `OutOfOrderRunLosesARow` is a first run that did not read
  in id order. SQLite reads a table keyed by an integer primary key in id order, unless the connection
  sets `reverse_unordered_selects` or a covering index is preferred, but a SELECT without ORDER BY does
  not promise it. The exact condition is `ResumeCompletesExactlyWhen`. After runs from an empty target
  the row-count check notices a loss (`CountsAgreeExactlyWhenComplete`).
- A failed key does not always cool down for 15 seconds in its own process. A key that fails again keeps
  its old place among the 512 cooldowns, so in a full table it can be the next one evicted:
  `FullTableExists`. What evicts an entry is exactly `FailureEvictsExactlyWhen`, and
  `FailureBlocksThroughRuns` says through which runs the key stays refused; a lease in Redis blocks it in
  any case (`FailedBuildBlocksItsKey`).
- 64 hex digits without a prefix are read as decimal when none of them is a letter:
  `DigitsAreNotReadAsHex`, and exactly when in `BareHexReadsAsHexExactlyWhen`. A prefix `0X` is never
  accepted, because the pattern allows only `0x`.

## Model

| member | source | states |
|---|---|---|
| TradeBatch.BuildTradeAddressRows | scripts/db/sync_trade_analytics.py:1045-1245 | The dictionaries built in the loop over a batch are the one-pass tables of its market fills and, when asked for, of its participants' fills; the latest entry of each market is the newest point per slot |
| TradeBatch.NoteParticipants | scripts/db/sync_trade_analytics.py:1132-1236 | Maker and taker each count once with their own side, exchanges are left out and a self trade counts once |
| TradeBatch.NoteLatest | scripts/db/sync_trade_analytics.py:1112-1127 | One more trade moves the latest, YES and NO entries of its own market to the newest point and no other entry |
| TradeTables.FillsOfTrade | scripts/db/sync_trade_analytics.py:1132-1138 | Of a BUY or SELL trade between two persons the market counts price times size once, the maker counts the trade on its own side and the taker on the other |
| TradeTables.WhoTakesPart | scripts/db/sync_trade_analytics.py:1132-1138 | Of any trade in a market exactly the maker and the taker are counted, once each, unless without address or one of the two exchange addresses |
| TradeTables.DateIsTheDay | scripts/db/sync_trade_analytics.py:151-154 | A trade belongs to a day exactly when its time lies within the 86,400 seconds of that day |
| TradeTables.TotalsOfTrade | scripts/db/sync_trade_analytics.py:1186-1209 | One such trade is one buy of the buyer and one sell of the seller in the address totals, with its notional and time |
| TradeTables.MarketTalliesOfTrade | scripts/db/sync_trade_analytics.py:1211-1236 | The same in the rows per address and market |
| TradeTables.DaysOfTrade | scripts/db/sync_trade_analytics.py:1163-1184 | The same in the daily address rows |
| TradeTables.MarketDayOfTrade | scripts/db/sync_trade_analytics.py:1088-1110 | One dated trade is one row of its market's day: count one, its notional, time and block |
| TradeTables.TotalsBalance | scripts/db/sync_trade_analytics.py:1132-1209 | Over such trades the address totals hold as many buys as sells, one of each per trade |
| KeyedTables.Upsert | scripts/db/sync_trade_analytics.py:1277-1318 | Upserting the rows one at a time, in whatever order, merges each conflicting key once and leaves other keys alone |
| KeyedTables.TableAppend | scripts/db/sync_trade_analytics.py:1277-1458 | For a mergeable summary, upserting a batch's table into the table of all earlier fills is the table of both together |
| KeyedTables.TimesAreBounds | scripts/db/sync_trade_analytics.py:1202-1209 | The first and last times of a group of fills are the least and the greatest that are known |
| KeyedTables.BlockIsBound | scripts/db/sync_trade_analytics.py:1107-1110 | The last block of a group of fills is the greatest that is known |
| TradeTables.MarketDayMergeable | scripts/db/sync_trade_analytics.py:1301-1317 | The market-day SET expressions merge the summaries of any two groups of fills into the summary of both |
| TradeTables.AddressDayMergeable | scripts/db/sync_trade_analytics.py:1347-1359 | The same for the address-day columns with their buy and sell counts |
| TradeTables.AddressTallyMergeable | scripts/db/sync_trade_analytics.py:1389-1456 | The same for the address totals and address-market columns with first and last times |
| TradeTables.AddressTotalSumsMarkets | scripts/db/sync_trade_analytics.py:1363-1458 | Each address total is the column-wise sum of that address's per-market rows |
| TradeSync.ReplayIsOnePass | scripts/db/sync_trade_analytics.py:1620-1653 | Folding any batches one after another gives the one-pass aggregate of their trades in the market-daily and the three address tables; for the latest prices see LatestPrices.LatestTableIsOnePass |
| TradeSync.AddressTotalsCompleteExactlyWhen | scripts/db/sync_trade_analytics.py:1644-1653 | The address totals cover all processed trades if and only if no batch processed without address statistics held a participating address |
| TradeSync.MarketOnlyBatchSkipsAddresses | scripts/db/sync_trade_analytics.py:1635-1653 | An input: a trade in one batch without address statistics has its market counted and its maker never |
| TradeSync.FetchExtendsWatermark | scripts/db/sync_trade_analytics.py:1013-1042 | A fetched batch is exactly the next stretch of eligible trades: moving the watermark to its last id adds the batch and nothing else |
| TradeSync.FetchedEverything | scripts/db/sync_trade_analytics.py:1013-1042 | An empty fetch means that no eligible trade lies above the watermark |
| TradeSync.FetchedShort | scripts/db/sync_trade_analytics.py:1013-1042 | A batch that is not full holds every eligible trade above the watermark |
| TradeSync.UpToMeaning | scripts/db/sync_trade_analytics.py:1013-1042 | The processed trades are exactly those with an id from 1 to the watermark and a positive market, in order |
| LatestPrices.BestIsNewest | scripts/db/sync_trade_analytics.py:157-170 | The running choice ends on a trade that no other trade is newer than, the earliest seen of equals |
| LatestPrices.SlotIsNewestExactlyWhen | scripts/db/sync_trade_analytics.py:1461-1590 | For any batch boundaries, a slot holds all four columns of the newest of its trades if and only if it has none, that one is placed on the chain, or the batch that inserted the row filled the slot |
| LatestPrices.LatestTableIsOnePass | scripts/db/sync_trade_analytics.py:1461-1590 | When every trade has a block number or a log index, none negative, the whole latest-price table is independent of the batch boundaries |
| LatestPrices.SlotShowsNewestTrade | scripts/db/sync_trade_analytics.py:1461-1590 | With placed trades, a latest, YES or NO slot shows time, block, log index and price of one trade of the market with that outcome that no other is after, and is empty exactly when there is none |
| LatestPrices.LatestSlotAlwaysNewest | scripts/db/sync_trade_analytics.py:1461-1500 | The overall latest slot is the newest trade of the market even when blocks are unknown |
| LatestPrices.UnplacedTradeIsLost | scripts/db/sync_trade_analytics.py:1112-1127 | Two trades of which the second has no block and log: in two batches the slot stays empty, in one batch it is filled |
| LatestPrices.UnplacedYesTradeIsLost | scripts/db/sync_trade_analytics.py:1461-1590 | An input for it: a NO trade on the chain, then a YES trade whose block and log index cannot be read |
| MarketServing.UpsertMarketListServing | scripts/db/sync_trade_analytics.py:850-948 | The rows selected for the impacted markets are merged into the serving table as the statement's join, grouping and coalescing say |
| MarketServing.BatchKeepsServing | scripts/db/sync_trade_analytics.py:850-1010 | After a batch, upserting only the impacted markets leaves every existing serving row equal to what a full refresh would write |
| MarketServing.WindowCountsTrades | scripts/db/sync_trade_analytics.py:951-1010 | The serving window over the daily table is the number, notional and last time of exactly the market's fills dated on or after the serving day |
| AnalyticsSync.BatchKeepsConsistent | scripts/db/sync_trade_analytics.py:1620-1653 | One fetched batch keeps all tables, the watermark and the serving rows consistent |
| AnalyticsSync.AnalyticsConnection.RunBatch | scripts/db/sync_trade_analytics.py:1620-1673 | A batch is committed as a whole, which gives each of its markets a serving row and takes none away, or, when any statement or the commit raises, rolled back as a whole |
| AnalyticsSync.AnalyticsConnection.RefreshServing | scripts/db/sync_trade_analytics.py:1614-1619 | On a new day the serving table has exactly one row for each market, on the same day it is left alone, and a raise changes nothing |
| AnalyticsSync.AnalyticsConnection.SyncTradeAnalytics | scripts/db/sync_trade_analytics.py:1593-1674 | Every sync cycle, with trades arriving between batches and an exception after any statement, keeps the committed tables consistent; it runs at most the given number of batches, each within the batch size, and stops before only when every eligible trade is processed; afterwards the serving rows are those of all markets on a new day, else those that were there, and those of the traded markets |
| AnalyticsSync.CommittedStatisticsAreExactlyOnce | scripts/db/sync_trade_analytics.py:1593-1674 | In any consistent state the committed tables are the one-pass aggregates of the eligible trades up to the committed watermark, each counted once; the address tables unless a cycle without address statistics met a participating address |
| AnalyticsSync.CommittedTotalsSumMarkets | scripts/db/sync_trade_analytics.py:1363-1458 | In any consistent state each committed address total is the sum of its per-market rows |
| AnalyticsSync.CommittedTotalsBalance | scripts/db/sync_trade_analytics.py:1363-1408 | In a consistent state over two-sided trades the committed address totals hold as many buys as sells, one of each per processed trade |
| AnalyticsSync.CommittedLatestIsOnePass | scripts/db/sync_trade_analytics.py:1461-1590 | With every trade placed on the chain, the committed latest prices are those of a one-pass recompute |
| AnalyticsSync.CommittedServingCountsTrades | scripts/db/sync_trade_analytics.py:850-1010 | Each committed serving row shows the newest YES price, the latest trade time, and the count, notional and last time of exactly the market's trades since the serving day |
| MarketStatus.LatestSettleIsFirst | scripts/db/sync_trade_analytics.py:384-434 | The settlement chosen for a market is the one with the greatest block, then log index, then id; there is one exactly when the market has a settle event |
| MarketStatus.LifecycleMovesForward | scripts/db/sync_trade_analytics.py:560-620 | As events are appended, time passes and gamma closures stay, a market's rank, closed flag and final flag never go back, and it is open exactly while trading is not closed |
| MarketStatus.FreshRowShows | scripts/db/sync_trade_analytics.py:565-679 | What a row shows, in terms of the events and the surroundings it was written in: the flags; the settlement, oracle before fast, known before raw; closed, resolved, final and gamma closed; and status, source and time in each case, Cancelled exactly for code 3 and Settled exactly for codes 1 and 2 with a settle event |
| MarketStatus.BatchAdvances | scripts/db/sync_trade_analytics.py:803-847 | After a batch of events exactly the rest is pending, and the markets to update split accordingly |
| MarketStatus.StatusConnection.SyncMarketStatusSnapshot | scripts/db/sync_trade_analytics.py:803-847 | With events arriving during the sync: after a commit every event that was there at the start is counted as seen, and every market but 0 whose events are all seen has the row a recompute over all events gives, unless it is missed; an increment misses nothing and rewrites exactly in the present surroundings, a full refresh misses exactly the markets whose row an event between its two reads changes; ended markets are closed; row 0 is left alone by increments; a raise changes nothing |
| MarketStatus.StatusConnection.FullRefresh | scripts/db/sync_trade_analytics.py:735-776 | The rows are read first and the greatest id afterwards: exactly the markets that any table knows get a recomputed row, and the row is still a recompute over all events counted as seen if and only if the events in between keep it |
| MarketStatus.RowKeptExactlyWhen | scripts/db/sync_trade_analytics.py:565-679 | A row that stays while events arrive is the one a recompute would write if and only if they add no flag and the settlement that would be chosen is the same |
| MarketStatus.RefreshMissesSettlement | scripts/db/sync_trade_analytics.py:735-776 | An input: market 7 is read as open, its settlement is inserted, and the greatest id counts it as seen, so it stays open |
| MarketStatus.MarketZeroGoesStale | scripts/db/sync_trade_analytics.py:653-664 | An input: a settlement of market 0 is collected and dropped, while a recompute would settle the row |
| ReleaseUnits.TargetGcpUnits | scripts/deploy/gcp_release.py:123-144 | The worklist returns exactly the units reachable from the root through dependency lines naming our units, and polydata.target, also on cyclic graphs; it fails exactly when the root is missing |
| ReleaseUnits.ClosureByLines | scripts/deploy/gcp_release.py:134-143 | In terms of the lines: the result is the least set with the root and polydata.target that holds whatever its units name after Wants=, Requires= or Unit= and starts with polydata- |
| ReleaseBuild.ClassifyPath | scripts/deploy/gcp_release.py:268-298 | Each considered path becomes an entry, an external note or an ignored note as its class says |
| ReleaseBuild.BuildRelease | scripts/deploy/gcp_release.py:243-327 | A manifest is built if and only if both revisions have the root unit and every approved override is for a selected path; it has exactly one entry for each selected path |
| ReleaseBuild.PreflightOfManifest | scripts/deploy/gcp_release.py:198-219 | Preflight of a built manifest passes if and only if every entry path is missing or holds an accepted version |
| ReleaseBuild.AppliedIsTarget | scripts/deploy/gcp_release.py:243-327 | A tree with the manifest applied equals the target revision on every deployable path of base or target and is unchanged off the entries and their temporaries, and entirely off the entries where no temporary lay about |
| ReleaseBuild.BuildAndApply | scripts/deploy/gcp_release.py:243-482 | Build, preflight and apply compose: without faults the release is applied if and only if the manifest is built and the tree holds an accepted version or no file for each entry, and then the tree is the target revision on every deployable path; otherwise it is unchanged |
| ReleasePaths.WeatherShips | scripts/deploy/gcp_release.py:147-152 | Every path below a backend directory, here scripts/weather/, ships |
| ReleasePaths.DatabaseShips | scripts/deploy/gcp_release.py:147-158 | Below scripts/db/ exactly the archive and the migration do not ship, being released elsewhere |
| ReleasePaths.UnitsShip | scripts/deploy/gcp_release.py:147-149 | A unit file ships exactly when its unit belongs to the target, although deploy/ is released elsewhere |
| ReleasePaths.RetiredAreRemoved | scripts/deploy/gcp_release.py:269-279 | Retired sources and files of retired units that are deleted from the repository are deleted from the applied tree |
| ReleasePaths.EveryPathIsNoted | scripts/deploy/gcp_release.py:268-279 | Every considered path is an entry, external or ignored, and only one of these; what was deleted and does not ship is external |
| ReleasePaths.WebpageIsExternal | scripts/deploy/gcp_release.py:155-158 | The frontend is released elsewhere and noted as external |
| ReleasePaths.QuantIsIgnored | scripts/deploy/gcp_release.py:269-279 | Quant sources in the target are shipped by nobody and ignored |
| ReleaseApply.PreflightPassesExactlyWhen | scripts/deploy/gcp_release.py:343-366 | There is no conflict if and only if every entry's path holds something the entry expects |
| ReleaseApply.PublishRelease | scripts/deploy/gcp_release.py:457-482 | Whatever operation raises or is cut short, the tree is the applied one, the original one, or one from which rollback restores the original |
| ReleaseApply.ApplyRelease | scripts/deploy/gcp_release.py:399-482 | From any tree, stray temporaries included: an applied release holds every entry's content and mode, nothing else changed and no new temporary is left; a refusal changes nothing; a completed automatic rollback restores; otherwise the backup describes the original tree and the tree can be recovered |
| ReleaseApply.ApplyThenRollBack | scripts/deploy/gcp_release.py:399-587 | After apply and any number of rollbacks that may be interrupted, the first that completes restores everything and later ones keep it, and with more attempts than faults one does complete |
| ReleaseRollback.RollbackEntry | scripts/deploy/gcp_release.py:569-587 | One receipt entry is restored touching only its path and temporaries, or is left unfinished in a way a further rollback can complete |
| ReleaseRollback.RollbackRelease | scripts/deploy/gcp_release.py:569-587 | From any recoverable tree a completed rollback restores content and mode of every entry and leaves no new temporary, exactly the original tree where none lay about before; an interrupted one leaves a recoverable tree and uses up a fault; a restored tree stays as it is |
| ReleaseFiles.TempNamesDiffer | scripts/deploy/gcp_release.py:464-467 | Different files have different temporary names, and staging and rollback names never coincide |
| ReleaseFiles.TempNamesOf | scripts/deploy/gcp_release.py:464-467 | The temporaries of a file lie beside it, hidden and with the kind at the end of the name |
| ReadBudget.TryPermit | scripts/api/read_budget.py:30-40 | The lowest free slot below the capacity is locked, and none if all are held |
| ReadBudget.ReadPermit.Close | scripts/api/read_budget.py:14-27 | Closing frees the slot once; closing again changes nothing |
| ReadBudget.RateFile.TakeReadToken | scripts/api/read_budget.py:43-63 | A call is allowed exactly when a token is available after refilling, and the stored record is what is left |
| ReadBudget.GrantedWhenRefilled | scripts/api/read_budget.py:51-59 | A call is granted whenever the tokens left and those that have come in since make up one |
| ReadBudget.FreshWindowIsFull | scripts/api/read_budget.py:53-59 | Without a readable record, or with one from before a restart of the clock, a whole burst is on hand |
| ReadBudget.GrantsAreCovered | scripts/api/read_budget.py:43-63 | In any run, grants plus what is then on hand are covered by one burst and the refill since the first call |
| ReadBudget.TokensStayBounded | scripts/api/read_budget.py:43-63 | Stored tokens stay between zero and the burst over every run |
| ReadBudget.WindowBound | scripts/api/read_budget.py:43-63 | With a clock that never runs backwards, any window has at most burst plus refill grants, whatever record the file held at the start |
| ReadBudget.SpacedCallsAreGranted | scripts/api/read_budget.py:43-63 | In any run, calls at least as far apart as one token takes to come in are all granted |
| ReadBudget.BurstIsGranted | scripts/api/read_budget.py:43-63 | From a fresh window exactly the burst is granted at once and the next call refused |
| ConnectionPool.ApiPostgresConnectionPool.AcquireAdmission | scripts/api/db_pool.py:77-102 | The answer is closed exactly for a closed pool, the connection idle longest exactly when there is one, circuit open exactly before retry_at, and a creation exactly when a place is free and no other is being created; the count stays idle plus handed over plus leased plus being created |
| ConnectionPool.ApiPostgresConnectionPool.RecordFailure | scripts/api/db_pool.py:119-132 | A failed creation gives back its place and ends, leaving idle and leased connections alone, and the circuit stays open 5 to 60 seconds |
| ConnectionPool.ApiPostgresConnectionPool.AcquireFinish | scripts/api/db_pool.py:133-145 | A created or handed connection becomes a lease if and only if the pool is still open, otherwise its count is given back; a creation ends and closes the circuit; the count equation is kept |
| ConnectionPool.ApiPostgresConnectionPool.Release | scripts/api/db_pool.py:158-169 | A lease ends: last in the idle queue and still counted if and only if it is reusable and the pool is open, otherwise gone and no longer counted; the count equation is kept |
| ConnectionPool.ApiPostgresConnectionPool.Close | scripts/api/db_pool.py:175-186 | Exactly the idle connections are taken out; what stays counted is handed over, leased or being created |
| ConnectionPool.CountKept | scripts/api/db_pool.py:74-186 | Every atomic step of every task keeps count equal to idle plus carried plus being created, within the maximum, with one creation at most |
| ConnectionPool.OneConnectAtATime | scripts/api/db_pool.py:86-91 | Two tasks that are creating a connection are the same task |
| PoolInvariants.PlacesKept | scripts/api/db_pool.py:74-186 | Every step keeps each connection in one place only, and recorded permits, open connections and leases exactly those of the places |
| PoolPermits.OwnedKept | scripts/api/db_pool.py:104-186 | Every step keeps recorded permits and connecting tasks on different slots, all of them locked on the host |
| PoolPermits.PermitsCountedKept | scripts/api/db_pool.py:104-186 | Every step keeps permits taken equal to returned plus recorded plus held by a connecting task |
| PoolPermits.EveryRunIsSound | scripts/api/db_pool.py:74-186 | All pool invariants hold in every reachable state, on every interleaving |
| PoolPermits.EveryRunIsBounded | scripts/api/db_pool.py:74-186 | In every run the count is idle, carried and being created together and at most the maximum, at most one connect is in flight, and host permits stay within capacity |
| PoolPermits.EveryOpenConnectionOwnsAPermit | scripts/api/db_pool.py:104-132 | In every run each open connection owns a locked slot of its own, recorded or held by the task setting it up, except one at most whose set-up failed and whose task is about to close it |
| PoolPermits.NothingIsLeftBehind | scripts/api/db_pool.py:133-186 | Once closed and with all tasks done, the count is zero, nothing is idle, leased, open or recorded, and every permit taken was returned |
| PoolPermits.BreakerInEveryRun | scripts/api/db_pool.py:119-138 | In every run the circuit is open for 5, 10, 20, 40 and then always 60 seconds from the last failed connect, by the number of failures since the last success, and closed when there were none |
| PoolPermits.OpenCircuitHoldsBack | scripts/api/db_pool.py:84-91 | In every run, while the circuit is open no acquire begins a connect or counts one |
| PoolPermits.ClosedCircuitConnects | scripts/api/db_pool.py:84-91 | In every run, once the delay since the last failure has passed, an acquire of an open pool with a free place, nothing idle and no connect in flight begins a connect |
| PoolPermits.ReleasedIsReusedLast | scripts/api/db_pool.py:81-83 | Idle connections are handed out in the order they became idle, the one just released last |
| PoolPermits.NoLeaseAfterClose | scripts/api/db_pool.py:139-144 | From the moment the pool is closed it stays closed, and whatever the tasks do only leases that were already there remain |
| PoolProgress.AcquireEndsInALease | scripts/api/db_pool.py:74-145 | An acquire that may connect ends in a lease of the new connection: one more counted, the lowest free host slot recorded for it, the breaker reset |
| PoolProgress.ReuseEndsInALease | scripts/api/db_pool.py:81-83 | An acquire with idle connections ends in a lease of the one idle longest |
| PoolProgress.NoSlotFails | scripts/api/db_pool.py:107-109 | A creation without a free host slot fails |
| PoolProgress.FailureGivesBack | scripts/api/db_pool.py:119-132 | A connect that fails, before or after the connection opened, gives back slot, connection and place, and the circuit opens |
| PoolProgress.ReleaseEndsIdle | scripts/api/db_pool.py:147-161 | A lease whose rollback works comes back idle and last while the pool is open |
| PoolProgress.ReleaseEndsClosed | scripts/api/db_pool.py:147-168 | A lease whose rollback fails, or that comes back to a closed pool, is closed, no longer counted, and its slot is free |
| PoolProgress.AcquireOfClosedPool | scripts/api/db_pool.py:139-143 | A connection that is not a lease yet when the pool closes is closed, no longer counted, and its slot is free |
| PoolProgress.DrainEnds | scripts/api/db_pool.py:182-186 | Closing ends with every drained connection closed and its permit returned |
| SnapshotAdmission.AdmitSnapshot | scripts/api/cache.py:137-162 | Refused if and only if the key is being refreshed or cooling down, no slot is free, or Redis answers that it is leased, and then no key, slot or lease changes; otherwise key and slot are taken and a client means a lease of 120 seconds; slots and keys keep adding up |
| SnapshotAdmission.ReleaseSnapshot | scripts/api/cache.py:165-183 | Key and slot are back whatever Redis does; the admission's own lease stays 15 seconds after a failure and goes after a success, any other lease is left alone; the key cools down 15 seconds exactly after a failure |
| SnapshotAdmission.RuntimeResources.ForgetRegion | scripts/api/cache.py:175-182 | The key is forgotten and waits for its slot; a failure starts its cooldown within the newest 512, a success ends it; slots, keys and releases keep adding up |
| SnapshotAdmission.CooldownsAfter | scripts/api/cache.py:177-182 | The eviction loop leaves exactly the newest 512 cooldowns |
| SnapshotAdmission.FailureBlocksItsProcess | scripts/api/cache.py:177-180 | The cooldown just recorded is never the one evicted, and in the state right after it the process does not admit the key for 15 seconds |
| SnapshotCooldowns.FailureEvictsExactlyWhen | scripts/api/cache.py:177-180 | A failure of another key evicts the entry if and only if that key is new, the table is full and the entry is the first; otherwise the entry keeps its time |
| SnapshotCooldowns.FailureBlocksThroughRuns | scripts/api/cache.py:140-182 | After a failure, through any admissions and releases of other keys, the process refuses the key for 15 seconds, unless more new keys have failed than there were free places and entries before it |
| SnapshotCooldowns.FailureIsEntered | scripts/api/cache.py:177-180 | A key's first failure goes to the end of the table, so that 511 new failures may follow it; a repeated one keeps its place |
| SnapshotCooldowns.EvictedKeyIsAdmittedEarly | scripts/api/cache.py:177-180 | In a full table whose first key fails again, one failure of a new key lets the first key in at once |
| SnapshotCooldowns.FullTableExists | scripts/api/cache.py:177-180 | An input for that: 512 keys that failed at time 0, and two failures at time 20 |
| SnapshotAdmission.SuccessAdmitsAgain | scripts/api/cache.py:181-183 | After a success the process admits the key again at once |
| SnapshotAdmission.CooldownEnds | scripts/api/cache.py:141-142 | After 15 seconds the process admits the failed key again if a slot is free |
| SnapshotAdmission.AdmitThenRelease | scripts/api/cache.py:137-183 | An admission followed by its release leaves keys and slots as they were, whatever Redis does, and the lease exactly after a failure |
| SnapshotProtocol.SlotsKept | scripts/api/cache.py:137-205 | Every step of every task in every process keeps slots and keys in agreement |
| SnapshotProtocol.SlotsAlwaysAddUp | scripts/api/cache.py:140-183 | In every reachable state free slots, refreshing keys and releases between key and slot are the worker count |
| SnapshotProtocol.OneBuilderPerKeyAndProcess | scripts/api/cache.py:140-150 | In every reachable state a key has at most one builder per process |
| SnapshotProtocol.EveryAdmissionIsReleasedOnce | scripts/api/cache.py:186-235 | When all tasks are done, by success, failure, lost Redis admission or refused thread, admissions equal releases and all slots and keys are back |
| SnapshotProtocol.LeasesKept | scripts/api/cache.py:151-174 | Every step keeps each admitted task, within 120 seconds of its grant, the owner of its key's lease |
| SnapshotProtocol.BuildersExcludeEachOther | scripts/api/cache.py:151-174 | Two builders of one key that Redis admitted, in any processes, exist only if one has outlived its 120 second lease |
| SnapshotProtocol.FailedBuildBlocksItsKey | scripts/api/cache.py:165-174 | A failed build that still owns its lease turns away every process that asks Redis for the key within 15 seconds, whatever else happens |
| SnapshotProgress.AdmissionBegins | scripts/api/cache.py:140-150 | A refresh that its process may run begins, with key and slot taken |
| SnapshotProgress.BuildBegins | scripts/api/cache.py:151-162 | When Redis answers and no lease of the key is in force, the task builds, in its call or in a thread, with a lease of 120 seconds |
| SnapshotProgress.BuildBeginsWithoutRedis | scripts/api/cache.py:159-162 | When Redis cannot be reached the task builds all the same, without a lease to release |
| SnapshotProgress.LeasedKeyIsLeft | scripts/api/cache.py:156-158 | When another lease is in force the task leaves without building |
| SnapshotProgress.RefusedThreadFails | scripts/api/context.py:98-100 | A refused thread ends the admission as failed |
| SnapshotProgress.StoppingAndTime | scripts/api/context.py:119-122 | A stopped process refuses threads from then on and no other does |
| SnapshotProgress.BuildEnds | scripts/api/cache.py:165-172 | At the end of a build its own lease goes after a success and stays 15 seconds after a failure |
| SnapshotProgress.LeavingGivesBack | scripts/api/cache.py:175-183 | A release gives back key and slot, and the key cools down 15 seconds exactly after a failure |
| SnapshotReads.SnapshotStore.StoreBuild | scripts/api/cache.py:131-134 | A dictionary with an error or with status error or unavailable is rejected, as is a failed builder, unless it is written directly, and nothing else; the table goes on holding exactly the last stored build of each key |
| SnapshotReads.RefreshSnapshotAsync | scripts/api/cache.py:186-204 | Key and slot stay taken if and only if a thread was started for an admitted refresh; when no thread can start they are back and the key cools down; no other key's lease changes |
| SnapshotReads.GetSnapshotPayload | scripts/api/cache.py:207-235 | What is returned or raised and what is stored, with other tasks storing in between; keys and slots are as before unless a refresh was left to a thread, and the key cools down exactly when this call's builder failed |
| SnapshotReads.LastStoredMeaning | scripts/runtime/snapshot_store.py:143-285 | The stored row of a key is an accepted build after which none was accepted, and there is none exactly when none ever was |
| SnapshotReads.StoredIsServed | scripts/runtime/snapshot_store.py:143-200 | A stored build is served for its time to live, a second at least, and its dictionary goes on being found afterwards |
| SnapshotReads.EveryValueIsGood | scripts/api/cache.py:207-235 | Every value returned is the last stored build of the key and unexpired, the last stored dictionary marked stale, or this call's own result; it would be an error result only if that build had been written directly |
| SnapshotReads.OnlyBuildersAreChecked | scripts/runtime/snapshot_store.py:240-285 | `SnapshotStore.set` has no check of its own: an error result given to it directly would be served until it expires, while one from a builder leaves what is served as it was |
| SnapshotReads.RejectedBuildKeepsLastGood | scripts/api/cache.py:131-134 | A failed, rejected or unwritten build changes no key's last good build |
| SnapshotReads.FailuresNeverHideTheLastGood | scripts/api/cache.py:207-218 | However often the builder fails, a stored dictionary is served, as it is until it expires and marked stale afterwards |
| TsvCodec.WriteChunkFile | scripts/db/migrate_sqlite_to_mysql.py:85-91 | The loop writes each row's escaped columns with tabs between them and a newline after them |
| TsvCodec.EscapeIsPerCharacter | scripts/db/migrate_sqlite_to_mysql.py:74-82 | The chain of four replacements escapes each character by itself, no replacement touching what an earlier one wrote |
| TsvCodec.EscapedFields | scripts/db/migrate_sqlite_to_mysql.py:74-82 | The four characters that are written as two, any other as itself, and null |
| TsvCodec.WrittenRow | scripts/db/migrate_sqlite_to_mysql.py:85-91 | A row is written with a tab between its fields and a newline after it |
| TsvCodec.FieldRoundTrip | scripts/db/migrate_sqlite_to_mysql.py:74-82 | Every value is read back as it was, null distinct from the text of a backslash and an N |
| TsvCodec.RowsRoundTrip | scripts/db/migrate_sqlite_to_mysql.py:85-104 | Reading a chunk file by the LOAD DATA clause gives back the rows it was written from, for every text |
| Migration.MysqlTable.LoadChunk | scripts/db/migrate_sqlite_to_mysql.py:94-105 | Loading adds the decoded rows and keeps rows whose id is already there |
| Migration.MigrateTable | scripts/db/migrate_sqlite_to_mysql.py:116-171 | A run refuses exactly when it is to resume a partly filled table without a key and without a limit, skips, or loads a prefix of the selected rows in whole chunks, within the limit and all of them unless it is interrupted |
| Migration.PlainRunCopiesAll | scripts/db/migrate_sqlite_to_mysql.py:153-171 | A run that is no resume selects every row, and the table then holds each of them under its id and nothing else |
| Migration.ResumeCompletesExactlyWhen | scripts/db/migrate_sqlite_to_mysql.py:133-153 | From any target a completed resume leaves exactly the source if and only if the target's rows are source rows and none is missing up to its greatest id |
| Migration.InterruptedThenResumed | scripts/db/migrate_sqlite_to_mysql.py:116-171 | With a source read in id order, any interrupted runs followed by a completed resume leave each source row once |
| Migration.ResumesComplete | scripts/db/migrate_sqlite_to_mysql.py:133-153 | Whatever order the source is read in without ORDER BY, interrupted runs that were all resumes and then a completed one leave each source row once |
| Migration.CountsAgreeExactlyWhenComplete | scripts/db/migrate_sqlite_to_mysql.py:174-181 | After any runs, in any reading order, the row counts agree if and only if the copy is complete |
| Migration.OutOfOrderRunLosesARow | scripts/db/migrate_sqlite_to_mysql.py:137-146 | An input: a first run that reads row 2 before row 1 and stops makes the resume skip row 1 |
| Migration.RowsFromElsewhereHideARow | scripts/db/migrate_sqlite_to_mysql.py:137-146 | An input: with the source in id order, rows 2 and 3 already in the target make the resume skip row 1 |
| Uint256.BytesAreOfDenoted | scripts/db/trade_v2.py:85-129 | For every text the stored bytes are the 32 big-endian bytes of the number it denotes, and there are none if it denotes none or one of 2^256 or more |
| Uint256.SpacesDoNotMatter | scripts/db/trade_v2.py:116-129 | Blanks, tabs and line ends around a number do not matter, and nothing inside it is taken away |
| Uint256.LowestByteLast | scripts/db/trade_v2.py:129-129 | The lowest byte comes last, before it the bytes of the rest |
| Uint256.NotationExamples | scripts/db/trade_v2.py:126-126 | The values of the digits in either case and of two-digit texts in either notation |
| Uint256.SameBytesExactlyWhen | scripts/db/trade_v2.py:116-129 | Two texts are stored as the same bytes if and only if they denote the same number in range |
| Uint256.TextRoundTrip | scripts/db/trade_v2.py:116-138 | A text in range, stored and read back, gives the canonical decimal of its number |
| Uint256.NumberRoundTrip | scripts/db/trade_v2.py:116-138 | Every number below 2^256 comes back as its canonical decimal |
| Uint256.StorageRoundTrip | scripts/db/trade_v2.py:116-138 | Any 32 bytes, read as text and stored again, are the same bytes |
| Uint256.BareHexReadsAsHexExactlyWhen | scripts/db/trade_v2.py:139-148 | 64 hex digits are read as hex if and only if one of them is a letter |
| Uint256.DigitsAreNotReadAsHex | scripts/db/trade_v2.py:139-148 | An input: 64 digits come back as they are and not as the number they denote in hex |
| Uint256.StoredTextDenotes | scripts/db/trade_v2.py:139-148 | Reading a stored text keeps the number it denotes: digits stay as they are, 0x and 64 hex digits become canonical decimal |
| Uint256.OtherStoredValues | scripts/db/trade_v2.py:132-148 | Missing and blank values are nothing, and a text that is neither decimal nor hex is kept |
| Uint256.HexBytesExactlyWhen | scripts/db/trade_v2.py:85-105 | A text becomes the given number of bytes exactly when it is twice as many hex digits, with or without 0x and in either case, and the bytes are those of the number |
| Uint256.NormalizedIsLower | scripts/db/trade_v2.py:85-98 | A normalised text has lower-case digits only, of the same number, and the prefix exactly when asked for |

## Left out

- SQL text, drivers, table definitions and dialect rewriting: tables are maps, and each `SET` expression reads the old row, as SQLite and PostgreSQL do; MySQL's left-to-right evaluation is not modelled.
- Parsing of row values: times are integers, amounts exact numbers, addresses and sides already normalised.
- TradeBatch.BuildTradeAddressRows: leaves out the rows and fees of the `trade_addresses` detail table, which is inserted once per key and never merged.
- MarketServing.UpsertMarketListServing: leaves out `price_24h_ago`, which depends on the wall clock and is not incremental.
- Negative block numbers and log indexes: the latest-price lemmas require `OnChain` trades.
- The status sync and the day's serving refresh share one transaction in the code; they touch different tables and are modelled as two.
- Several sync keys over the same tables, and markets being deleted.
- `parse_oracle_settlement_event` is not part of this model; an event carries what it parses to.
- AnalyticsSync.AnalyticsConnection.ProcessBatch: says nothing of the uncommitted tables after an exception, because they are rolled back.
- AnalyticsSync.AnalyticsConnection.RunBatch: a commit that raises is taken to have had no effect.
- AnalyticsSync.AnalyticsConnection.SyncTradeAnalytics: no second sync runs on the same watermark. The program reads the watermark on a connection of its own and does not lock it, so two cycles at once would add a batch twice.
- Trade and event ids become visible in increasing order; a lower id committed after a higher one has been fetched would be skipped.
- SnapshotReads.EveryValueIsGood: which processes write directly is not modelled. No writer in the repository puts an error result on a key that `get_snapshot_payload` reads; the watcher that shares such a key, for DeFi tokens, stores results with status ok or empty.
- MarketStatus.StatusConnection.SyncMarketStatusSnapshot: with more markets than the end-date limit some due rows wait for the next sync, in no particular order.
- MarketStatus.StatusConnection.BuildRows: the queries behind one set of rows see one event table; in an increment an event between them is read again by the next one, in a full refresh it counts as arriving after them.
- MarketStatus.Fresh: the end date, gamma closure and fast settlement are those at the time the row was written, because the sync does not revisit a market when only these change.
- Git, archives, systemd, directory creation, fsync, symbolic links and other non-regular files, and the text of unit files (a unit is a list of keys and words).
- ReleaseApply.Sha256: digests are taken to be injective.
- ReleaseApply.ApplyRelease: requires distinct manifest paths, none of which is a temporary name of another, which the code does not check.
- ReleaseApply.ApplyThenRollBack: the same.
- ReleaseBuild.BuildAndApply: requires the same of the paths of base and target; its manifests have distinct paths by themselves.
- ReleaseBuild.ClassifyPaths: the order of the manifest's paths is not modelled.
- Waiting in `acquire` is repeated admission; a time-out is a task that stops repeating. Lease owner names, held times and logging are left out.
- Exceptions from a connection's `close` and from `thread.start`, and a lease closed by two tasks at once.
- Connections get identities that were never used before, as objects do while the pool still refers to them.
- `fcntl.flock` is a set of held slots; a process that exits is another process unlocking its slots.
- ReadBudget.RateFile.TakeReadToken: tokens and clock readings are exact, not floating-point text.
- `RuntimeResources.submit` and the joins in `close`, which only wait.
- SnapshotProtocol.BuildersExcludeEachOther: one clock for all processes and Redis, and nothing is said of builders that Redis did not admit because it could not be reached.
- SnapshotAdmission.AdmitSnapshot: one clock reading stands for all readings within one admission.
- A payload is a null, a list or a dictionary with its error, status and stale fields. Store errors other than a busy database are builder failures; JSON text, namespaces and the retention limit of the store are left out.
- Migration.MigrateTable: batch sizes below one, missing source tables, and rows changing during a migration; `idOf` stands for reading the id column.
- TsvCodec.WriteChunkFile: values are texts already, as `str` gives them; UTF-8 encoding errors are left out.
- Uint256.Uint256TextToBytes32: Python's limit on the digits of very long decimal texts, which raises instead of answering.

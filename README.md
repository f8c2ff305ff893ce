# Stock ingestion: keyed-table model

A Dafny model of the ingestion core of a small stock dashboard. The system
fetches daily prices, issuer metadata and news for a watchlist of tickers
from a market-data provider and writes them to three PostgreSQL tables:

- `stocks`, keyed by (ticker, date). The date is the UTC calendar day of the bar.
- `lu_stock`, keyed by ticker.
- `stock_news`, keyed by uuid.

The model covers four parts:

- **Tables.** Each table is a Dafny `map` keyed by its UNIQUE constraint, so no two rows can share a key. `Store.Database` holds the three maps and updates them in place. Its methods are the insert functions and the two per-ticker loops: the live loader's `main` and the scheduled pipeline's `fetch_data`. Each method is proved equal to a pure function of the old tables (`Prices.UpsertBars`, `Metadata.UpsertMetadata`, `News.InsertStockNews`, `Ingest.LoadRun`, `Ingest.DagRun`). The lemmas about those functions state what the source promises: where each row goes, which write wins, idempotence, row counts and what is left unchanged.
- **News selection.** Articles are filtered on their related tickers. The thumbnail comes from the first resolution or is null. Inserts are first-write-wins by uuid.
- **Refresh gate.** The dashboard's 15-minute cooldown, and how it interacts with the loader, which never updates `last_updated`.
- **Watchlist helper.** The command-line helper appends a ticker to the watchlist file if it is absent, after a Y/N answer.

Notes on what the code does:

- Every run upserts the provider's whole history (`period="max"`, data/load_data.py:113). No date filter exists.
- Neither loop catches exceptions. A metadata mapping without `firstTradeDate` makes `fromtimestamp(None)` raise. An article whose `thumbnail.resolutions` is an empty list makes `[0]` raise. Either one ends the run right there. Earlier writes stay, because the connection autocommits. `Run.complete` and `Inserted.complete` model this.
- The live loader never refreshes `last_updated`. Its metadata upsert does not set `last_updated`, so the column default stamps only the first insert. Only the scheduled pipeline's commented-out variant stamps every upsert.
- When the selected ticker has no `lu_stock` row, the gate indexes an empty result and raises (`Outcome.Raised`). It does not allow the refresh.

Inputs that come from I/O are parameters:

- the fetched history, metadata and news of each ticker (`Ingest.TickerFetch`);
- the clock readings (`now`);
- the command-line arguments and the typed answer;
- whether the watchlist file exists.

## Model

| member | source | states |
|---|---|---|
| Common.DayOf | data/load_data.py:45 | the `stocks` date of a bar is the UTC calendar day holding its timestamp |
| Prices.UpsertBars | data/load_data.py:35-47 | the row-by-row upsert: each history row in order writes its OHLCV values at (ticker, UTC day), replacing any row there; its properties are the lemmas below |
| Prices.UpsertBarsOverlay | data/load_data.py:35-47 | upserting a history overlays the history's own rows on the table: other keys keep their rows, the history's keys take its values |
| Prices.UpsertBarsKeys | data/load_data.py:35-47 | the keys afterwards are the old keys plus one (ticker, UTC day) key per distinct day of the history; no key is duplicated or lost |
| Prices.UpsertBarsFrame | data/load_data.py:35-47 | rows of other tickers, and of this ticker on days the history does not cover, are not added, removed or changed |
| Prices.UpsertBarsLastWins | data/load_data.py:39-44 | every bar is stored at (ticker, its UTC day) with its OHLCV values unless a later bar of the same day overwrites it |
| Prices.UpsertBarsIdempotent | data/load_data.py:39-44 | upserting the same history twice gives the same table as once |
| Prices.UpsertBarsCount | data/load_data.py:35-47 | row count afterwards = row count before + number of distinct days of the history the ticker had no row for |
| Prices.RefetchScenario | data/load_data.py:35-47 | 3 bars for 2024-01-01..03 into an empty table give 3 rows; refetching 01-02..01-04 corrects 01-02 and 01-03, adds 01-04, keeps 01-01, and leaves 4 rows |
| Metadata.ToColumns | data/load_data.py:78-84 | the parameter tuple exists exactly when `firstTradeDate` is present; otherwise the conversion raises |
| Metadata.ColumnsRoundTrip | data/load_data.py:55-84 | the 16 written columns carry exactly the 16 values of the snapshot, no more and no less |
| Metadata.UpsertMetadata | data/load_data.py:54-76 | the live upsert on `ticker`: new row with the insert time as `last_updated`, or the 16 columns replaced and the stamp kept; its properties are the lemmas below |
| Metadata.UpsertMetadataStamped | airflow/only_dag.py:32-63 | the scheduled upsert on `ticker`: the 16 columns and `last_updated` all set to the new values on insert and on update |
| Metadata.UpsertMetadataEffect | data/load_data.py:54-76 | exactly one row for the ticker with all 16 columns replaced; `last_updated` kept on an existing row and set to the insert time only on a new one; other tickers unchanged |
| Metadata.UpsertMetadataIdempotent | data/load_data.py:60-76 | repeating the live upsert at any later time changes nothing |
| Metadata.UpsertMetadataStampedEffect | airflow/only_dag.py:32-63 | the scheduled upsert writes the new columns and the call time as `last_updated`, so the stamp strictly increases whenever the clock has |
| News.Related | airflow/only_dag.py:71 | an article is kept iff the ticker is in its related tickers (a missing list counts as empty) |
| News.RelatedAppend | airflow/only_dag.py:71 | filtering distributes over concatenation, so kept articles stay in input order |
| News.Resolutions | airflow/only_dag.py:75 | the `.get` chain with its defaults: a missing thumbnail or resolutions list reads as `[{}]` |
| News.DeriveThumb | airflow/only_dag.py:75-78 | no thumbnail or no resolutions: url, width and height all null; otherwise the first resolution's, each null if missing; a present but empty resolutions list raises |
| News.RowOf | airflow/only_dag.py:81-90 | the `stock_news` row of an article, stored under its uuid: ticker, insert time, title, publisher, link, publish time, type and the derived thumbnail |
| News.InsertArticles | airflow/only_dag.py:73-90 | the insert loop: article by article, stop at the first thumbnail that raises, insert under the uuid unless it is stored |
| News.InsertStockNews | airflow/only_dag.py:66-90 | `insert_stock_news`: the related-ticker filter followed by the insert loop |
| News.InsertArticlesOverlay | airflow/only_dag.py:73-90 | inserting a batch lays the stored rows over the batch's own rows (stored rows always win), and completing does not depend on what is stored |
| News.InsertArticlesKeepsRows | airflow/only_dag.py:83-86 | a row already stored under a uuid is left untouched |
| News.InsertArticlesIdempotent | airflow/only_dag.py:83-86 | inserting the same batch twice, at any time, leaves the table as inserting it once |
| News.InsertedKeys | airflow/only_dag.py:73-90 | the uuids afterwards are the stored ones plus those of the articles before the first one whose thumbnail raises |
| News.FirstBad | airflow/only_dag.py:73-78 | the position of the first article whose thumbnail raises: all earlier ones derive a thumbnail |
| News.InsertArticlesCompleteIff | airflow/only_dag.py:73-78 | the insert loop completes iff every article's thumbnail can be derived |
| News.InsertArticlesNewRows | airflow/only_dag.py:83-90 | every added row belongs to the ticker, carries the insert time and is the row of an article of the batch with that uuid |
| News.InsertArticlesFirstWins | airflow/only_dag.py:83-86 | an article the loop reaches, whose uuid is neither stored nor carried by an earlier article of the batch, is stored with its own row: the first write wins within a batch |
| News.InsertStockNewsStoresOnlyRelated | airflow/only_dag.py:71-90 | an article not naming the ticker among its related tickers is never stored for that ticker: every new row belongs to the ticker and is the row of a related article with that uuid |
| News.FirstTickerKeepsArticle | airflow/only_dag.py:83-86 | an article related to two tickers is stored under the first ticker processed; the second leaves the row as it is |
| News.InsertArticlesStopsAtBad | airflow/only_dag.py:73-90 | when a thumbnail raises, the rows of the earlier articles stay written and no later article is inserted |
| Ingest.LoadStep | data/load_data.py:111-128 | one ticker of the live loader: prices, then metadata when the mapping is non-empty; a missing `firstTradeDate` stops the run after the prices |
| Ingest.DagStep | airflow/only_dag.py:103-130 | one ticker of the scheduled pipeline: prices, stamped metadata when present, news when present; a raise in either stops the run |
| Ingest.RunAll | data/load_data.py:109-128 | the loop over the watchlist in order, ending at the first ticker whose step raises |
| Ingest.LoadRun | data/load_data.py:99-131 | the live loader's `main`: the loop over the watchlist with the live step |
| Ingest.DagRun | airflow/only_dag.py:92-134 | the scheduled pipeline's `fetch_data`: the same loop with the scheduled step |
| Ingest.RunAllSequential | data/load_data.py:109-128 | tickers are processed in watchlist order: a batch runs its first part and then, only if that completed, the rest |
| Ingest.LoadRunCompleteIff | data/load_data.py:124-125 | the live loader completes iff every fetched metadata mapping has a `firstTradeDate` |
| Ingest.DagRunCompleteIff | airflow/only_dag.py:102-130 | the scheduled run completes iff every fetched metadata mapping has a `firstTradeDate` and every related article's thumbnail can be derived |
| Ingest.LoadRunStopsAtFirstBadMetadata | data/load_data.py:109-128 | the live loader stops at the first ticker whose metadata raises, after writing that ticker's prices; earlier tickers are fully written, later ones not at all |
| Ingest.LoadRunKeepsStamps | data/load_data.py:60-76 | the live loader never removes a `lu_stock` row nor changes an existing `last_updated` |
| Ingest.LoadRunKeepsMetadataRow | data/load_data.py:124-125 | when no fetch of a ticker has metadata, the live loader leaves its `lu_stock` row exactly as it was |
| Ingest.LoadRunKeepsNews | data/load_data.py:99-131 | the live loader does not touch `stock_news` |
| Ingest.LoadRunWritesMetadata | data/load_data.py:124-125 | after a completed live run every ticker fetched with metadata has its `lu_stock` row |
| Ingest.RunAllLeavesOtherPrices | data/load_data.py:109-128 | a ticker not in the batch keeps its `stocks` rows exactly, in either loop |
| Ingest.RunAllLeavesOtherMetadata | data/load_data.py:109-128 | a ticker not in the batch keeps its `lu_stock` row exactly, in either loop |
| Ingest.DagRunKeepsMetadataRow | airflow/only_dag.py:120-122 | when no remaining fetch of a ticker has metadata, the scheduled run leaves its `lu_stock` row exactly as it was |
| Ingest.DagRunStampsLastWrite | airflow/only_dag.py:120-123 | after a completed scheduled run, a ticker's `last_updated` is the clock reading of its last fetch with metadata; later fetches of it without metadata leave it |
| Ingest.PricesAgree | airflow/only_dag.py:116-118 | if the scheduled run completes, the live run over the same fetches completes and writes the same `stocks` table |
| Store.Database.InsertStockData | data/load_data.py:31-47 | the row-by-row loop leaves `stocks` equal to `UpsertBars` of the old table and the history; the other tables unchanged |
| Store.Database.InsertStockMetadata | data/load_data.py:50-84 | writes `UpsertMetadata` of the old table, or nothing and false when `firstTradeDate` is missing |
| Store.Database.InsertStockMetadataStamped | airflow/only_dag.py:28-63 | writes `UpsertMetadataStamped` of the old table, or nothing and false when `firstTradeDate` is missing |
| Store.Database.InsertStockNews | airflow/only_dag.py:66-90 | the filter-then-insert loop leaves `stock_news` and the completion flag equal to `InsertStockNews` of the old table |
| Store.Database.LoadMain | data/load_data.py:99-131 | the ticker loop leaves the tables and the completion flag equal to `LoadRun` of the old tables |
| Store.Database.FetchData | airflow/only_dag.py:92-134 | the ticker loop leaves the tables and the completion flag equal to `DagRun` of the old tables |
| RefreshGate.MayRefresh | app.py:94 | a refresh may run iff strictly more than 15 minutes separate `last_updated` from now |
| RefreshGate.OnRefresh | app.py:90-99 | one press: raise when the selected ticker has no `lu_stock` row, run the live loader when the gate is open, otherwise deny and write nothing |
| RefreshGate.GateExamples | app.py:94 | 14 minutes after an update: denied; 16 minutes: allowed; exactly 15 minutes: denied |
| RefreshGate.FutureStampDenies | app.py:94 | a `last_updated` later than now is always denied |
| RefreshGate.GateMonotone | app.py:94 | once open for a stamp, the gate stays open as the clock advances |
| RefreshGate.OnRefreshDecision | app.py:90-99 | the live loader runs iff more than 15 minutes have passed; a denial leaves the store unchanged |
| RefreshGate.GateNeverClosesAgain | app.py:90-99 | in any session of presses, for this ticker or others, every press for a ticker made more than 15 minutes after its stamp refreshes, whatever denials, errors and refreshes come between; each press has one outcome |
| RefreshGate.ScheduledRunClosesGate | airflow/only_dag.py:55-63 | right after the scheduled pipeline writes a ticker's metadata, a press for it up to 15 minutes later is denied, whether or not its news insert then raises |
| Watchlist.AddIfAbsent | data/check.py:30-35 | the list as rewritten: unchanged when the ticker is listed, else the old list followed by the ticker |
| Watchlist.AddIfAbsentEffect | data/check.py:30-35 | a listed ticker leaves the list unchanged; otherwise the list is the old list followed by the ticker; the ticker is listed afterwards and the length grows by at most one |
| Watchlist.AddIfAbsentIdempotent | data/check.py:30-35 | adding a ticker twice gives the same list as adding it once |
| Watchlist.AddIfAbsentKeepsDistinct | data/check.py:30-35 | a duplicate-free list stays duplicate-free |
| Watchlist.StripStart | data/check.py:46 | `strip()` starts at the first non-whitespace character |
| Watchlist.StripEnd | data/check.py:46 | `strip()` ends after the last non-whitespace character |
| Watchlist.Strip | data/check.py:46 | `strip()`: the text between the leading and the trailing whitespace |
| Watchlist.StripIsTrim | data/check.py:46 | the stripped answer is a slice of the input with only whitespace cut away, and neither starts nor ends with whitespace |
| Watchlist.Upper | data/check.py:46 | `upper()` on ASCII: each letter a-z maps to A-Z, other characters stay, the length is kept |
| Watchlist.ParseAnswer | data/check.py:46-52 | the answer after `strip().upper()`: "Y" adds, "N" exits, anything else is invalid |
| Watchlist.ParseAnswerIff | data/check.py:46-52 | the ticker is added iff the stripped answer is "y" or "Y"; the helper exits iff it is "n" or "N"; anything else is invalid |
| Watchlist.WatchlistFile.AddStockToCsv | data/check.py:16-36 | a missing file fails with nothing written; otherwise the file holds `AddIfAbsent` of the old list, and the result says whether the ticker was already listed |
| Watchlist.WatchlistFile.Prompt | data/check.py:38-52 | with no argument it raises and the file is unchanged; "Y" attempts the add, with the add's result; "N" and invalid answers leave the file unchanged |

## Left out

- Database connections, environment loading and the cursor API are left out; the tables are maps.
- The provider calls that fetch history, metadata and news are left out; their results are inputs.
- `check_ticker`, which only prints the provider's metadata, is left out.
- Floating-point conversion and the NUMERIC(10,2) and NUMERIC(10,4) rounding of prices are left out; prices and volumes are opaque integers.
- `stocks.date` is a TIMESTAMPTZ column, and `date.date()` is stored as midnight of that day in the session's time zone. The model keys it by the UTC day number, which matches the stored value one-to-one only while the session time zone stays fixed.
- `fromtimestamp` and `utcfromtimestamp` are the identity on epoch seconds, and `tz_convert('UTC')` and `.date()` are `Common.DayOf`.
- The refresh gate runs on one clock in integer seconds. The US/Pacific localisation of `last_updated` and of the current time is left out, and so is any offset between the database clock and the app's clock.
- The Streamlit page is left out: layout, the five-second pause, clearing the message, and the reads of the three tables.
- `insert_stock_news` of the live loader (data/load_data.py:87-96) is left out. Nothing calls it, its conflict target (ticker, title) has no matching constraint, and its field names do not match the provider's articles.
- Schema creation is left out. Only its UNIQUE constraints are used, as map keys.
- The DAG definition and its schedule are left out.
- The regression script and the UI components are left out.
- A KeyError from a news article missing `uuid`, `title`, `publisher`, `link`, `providerPublishTime` or `type` is not modelled; the model assumes these keys are present.
- News.Related: a `relatedTickers` key present with value `None` makes `ticker in None` raise TypeError in the source. The model reads it as a missing list and keeps no article.
- News.DeriveThumb: a `resolutions` key present with value `None` makes `None[0]` raise in the source. The model reads it as missing and gives a null thumbnail.
- A `thumbnail` key present with value `None` raises in the source (`None.get`). The model does not represent it.
- `pd.read_csv` turns tickers such as "NA" into NaN when it reads the watchlist. The model does not capture this.
- Watchlist.Upper: models `upper()` for ASCII letters only, so the length is always kept. Python's full Unicode mapping can lengthen a string (`'ß'.upper()` is "SS"). This cannot change whether the answer is "Y" or "N".
- Idempotence is proved for each upsert and for the news insert, not for a whole run of either loop.
- News.InsertArticles: every row of one ticker's batch gets the same insert time `now`. In the source each autocommitted INSERT reads its own `CURRENT_TIMESTAMP`, so the `date` of later rows may be slightly later.

/** The per-ticker loops: `main` of the live loader and `fetch_data` of the
    scheduled pipeline. Both walk the watchlist in order and, for each
    ticker, always upsert prices and upsert metadata only when there is any;
    the scheduled one then inserts news when there is any. Neither loop
    catches exceptions: the first ticker whose metadata or news raises ends
    the run, and everything written before (autocommit) stays. */
module Ingest {
  import opened Common
  import opened Schema
  import opened Prices
  import opened Metadata
  import opened News

  /** What the provider returned for one watchlist ticker, and the clock
      reading when that ticker's rows are written. `metadata` is `None` when
      the mapping is `None` or empty (falsy). */
  datatype TickerFetch = TickerFetch(
    ticker: Ticker,
    hist: seq<HistRow>,
    metadata: Option<Snapshot>,
    news: seq<Article>,
    now: int)

  /** The store after a run, and whether the run reached its end. */
  datatype Run = Run(db: Db, complete: bool)

  /** The metadata of a fetch can be written (or there is none to write). */
  predicate MetadataWritable(f: TickerFetch)
  {
    f.metadata.Some? ==> f.metadata.value.firstTradeDate.Some?
  }

  /** The price upsert every ticker gets first. */
  function WithPrices(db: Db, f: TickerFetch): Db
  {
    db.(stocks := UpsertBars(db.stocks, f.ticker, f.hist))
  }

  /** One ticker of the live loader (`load_data.main`). */
  function LoadStep(db: Db, f: TickerFetch): Run
  {
    var priced := WithPrices(db, f);
    match f.metadata
    case None => Run(priced, true)
    case Some(snapshot) =>
      match ToColumns(snapshot)
      case Err(_) => Run(priced, false)
      case Ok(cols) => Run(priced.(luStock := UpsertMetadata(priced.luStock, f.ticker, cols, f.now)), true)
  }

  /** One ticker of the scheduled pipeline (`fetch_data`). */
  function DagStep(db: Db, f: TickerFetch): Run
  {
    var priced := WithPrices(db, f);
    var meta :=
      match f.metadata
      case None => Run(priced, true)
      case Some(snapshot) =>
        match ToColumns(snapshot)
        case Err(_) => Run(priced, false)
        case Ok(cols) => Run(priced.(luStock := UpsertMetadataStamped(priced.luStock, f.ticker, cols, f.now)), true);
    if !meta.complete || f.news == [] then meta
    else
      var inserted := InsertStockNews(meta.db.stockNews, f.ticker, f.news, f.now);
      Run(meta.db.(stockNews := inserted.table), inserted.complete)
  }

  /** A loop over the watchlist that stops at the first ticker whose step raises. */
  function RunAll(step: (Db, TickerFetch) -> Run, db: Db, batch: seq<TickerFetch>): Run
    decreases |batch|
  {
    if batch == [] then Run(db, true)
    else
      var first := step(db, batch[0]);
      if first.complete then RunAll(step, first.db, batch[1..]) else first
  }

  function LoadRun(db: Db, batch: seq<TickerFetch>): Run
  {
    RunAll(LoadStep, db, batch)
  }

  function DagRun(db: Db, batch: seq<TickerFetch>): Run
  {
    RunAll(DagStep, db, batch)
  }

  /** Tickers are processed in watchlist order: running a batch is running
      its first part and then, if that completed, the rest. */
  lemma {:induction false} RunAllSequential(step: (Db, TickerFetch) -> Run, db: Db, xs: seq<TickerFetch>, ys: seq<TickerFetch>)
    ensures var head := RunAll(step, db, xs);
            RunAll(step, db, xs + ys) == if head.complete then RunAll(step, head.db, ys) else head
    decreases |xs|
  {
    if xs == [] {
      assert xs + ys == ys;
    } else {
      assert (xs + ys)[0] == xs[0];
      assert (xs + ys)[1..] == xs[1..] + ys;
      var first := step(db, xs[0]);
      if first.complete {
        RunAllSequential(step, first.db, xs[1..], ys);
      }
    }
  }

  /** The live loader completes exactly when every fetched metadata mapping
      has a `firstTradeDate`. */
  lemma {:induction false} LoadRunCompleteIff(db: Db, batch: seq<TickerFetch>)
    ensures LoadRun(db, batch).complete <==> forall f | f in batch :: MetadataWritable(f)
    decreases |batch|
  {
    if batch != [] {
      var first := LoadStep(db, batch[0]);
      assert forall f | f in batch :: f == batch[0] || f in batch[1..];
      assert first.complete <==> MetadataWritable(batch[0]);
      assert LoadRun(db, batch) == if first.complete then LoadRun(first.db, batch[1..]) else first;
      if first.complete {
        LoadRunCompleteIff(first.db, batch[1..]);
      }
    }
  }

  /** A fetch the scheduled pipeline can write in full: its metadata, if any,
      converts, and every related article's thumbnail can be derived. */
  predicate DagWritable(f: TickerFetch)
  {
    MetadataWritable(f) && forall a | a in Related(f.ticker, f.news) :: DeriveThumb(a).Ok?
  }

  /** The scheduled pipeline completes exactly when every fetch's metadata
      converts and every related article's thumbnail can be derived. */
  lemma {:induction false} DagRunCompleteIff(db: Db, batch: seq<TickerFetch>)
    ensures DagRun(db, batch).complete <==> forall f | f in batch :: DagWritable(f)
    decreases |batch|
  {
    if batch != [] {
      var f := batch[0];
      var first := DagStep(db, f);
      var priced := WithPrices(db, f);
      var meta :=
        match f.metadata
        case None => Run(priced, true)
        case Some(snapshot) =>
          match ToColumns(snapshot)
          case Err(_) => Run(priced, false)
          case Ok(cols) => Run(priced.(luStock := UpsertMetadataStamped(priced.luStock, f.ticker, cols, f.now)), true);
      assert meta.complete <==> MetadataWritable(f);
      InsertArticlesCompleteIff(meta.db.stockNews, f.ticker, Related(f.ticker, f.news), f.now);
      assert first.complete <==> DagWritable(f);
      assert forall g | g in batch :: g == f || g in batch[1..];
      assert DagRun(db, batch) == if first.complete then DagRun(first.db, batch[1..]) else first;
      if first.complete {
        DagRunCompleteIff(first.db, batch[1..]);
      }
    }
  }

  /** When the live loader stops, it stops at the first ticker whose metadata
      lacks `firstTradeDate`, after that ticker's prices were written; the
      tickers before it were fully processed and none after it was. */
  lemma LoadRunStopsAtFirstBadMetadata(db: Db, batch: seq<TickerFetch>, j: int)
    requires 0 <= j < |batch| && !MetadataWritable(batch[j])
    requires forall i | 0 <= i < j :: MetadataWritable(batch[i])
    ensures var before := LoadRun(db, batch[..j]);
            before.complete && LoadRun(db, batch) == Run(WithPrices(before.db, batch[j]), false)
  {
    LoadRunCompleteIff(db, batch[..j]);
    assert batch == batch[..j] + batch[j..];
    RunAllSequential(LoadStep, db, batch[..j], batch[j..]);
    assert batch[j..][0] == batch[j];
  }

  /** The live loader never writes `last_updated` of an existing row and never
      removes a row: every ticker that had a stamp keeps it. */
  lemma {:induction false} LoadRunKeepsStamps(db: Db, batch: seq<TickerFetch>, ticker: Ticker)
    requires ticker in db.luStock
    ensures var after := LoadRun(db, batch).db.luStock;
            ticker in after && after[ticker].lastUpdated == db.luStock[ticker].lastUpdated
    decreases |batch|
  {
    if batch != [] {
      var first := LoadStep(db, batch[0]);
      if first.complete {
        LoadRunKeepsStamps(first.db, batch[1..], ticker);
      }
    }
  }

  /** The live loader does not touch `stock_news`. */
  lemma {:induction false} LoadRunKeepsNews(db: Db, batch: seq<TickerFetch>)
    ensures LoadRun(db, batch).db.stockNews == db.stockNews
    decreases |batch|
  {
    if batch != [] {
      var first := LoadStep(db, batch[0]);
      if first.complete {
        LoadRunKeepsNews(first.db, batch[1..]);
      }
    }
  }

  /** The live loader writes a ticker's `lu_stock` row only on a fetch of that
      ticker with metadata: when none of its fetches has any, the row is left
      exactly as it was. */
  lemma {:induction false} LoadRunKeepsMetadataRow(db: Db, batch: seq<TickerFetch>, ticker: Ticker)
    requires ticker in db.luStock
    requires forall j | 0 <= j < |batch| && batch[j].ticker == ticker :: batch[j].metadata.None?
    ensures var after := LoadRun(db, batch).db.luStock;
            ticker in after && after[ticker] == db.luStock[ticker]
    decreases |batch|
  {
    if batch != [] {
      var first := LoadStep(db, batch[0]);
      if first.complete {
        forall j | 0 <= j < |batch| - 1 && batch[1..][j].ticker == ticker
          ensures batch[1..][j].metadata.None?
        {
          assert batch[1..][j] == batch[j + 1];
        }
        LoadRunKeepsMetadataRow(first.db, batch[1..], ticker);
      }
    }
  }

  /** After a completed live run, every ticker that came with metadata has
      its `lu_stock` row. */
  lemma {:induction false} LoadRunWritesMetadata(db: Db, batch: seq<TickerFetch>, i: int)
    requires 0 <= i < |batch| && batch[i].metadata.Some?
    requires LoadRun(db, batch).complete
    ensures batch[i].ticker in LoadRun(db, batch).db.luStock
    decreases |batch|
  {
    var first := LoadStep(db, batch[0]);
    if i == 0 {
      LoadRunKeepsStamps(first.db, batch[1..], batch[0].ticker);
    } else {
      LoadRunWritesMetadata(first.db, batch[1..], i - 1);
    }
  }

  /** The `stocks` rows of a ticker that is not in the batch are left exactly
      as they were, by either loop. */
  lemma {:induction false} RunAllLeavesOtherPrices(step: (Db, TickerFetch) -> Run, db: Db, batch: seq<TickerFetch>, k: PriceKey)
    requires step == LoadStep || step == DagStep
    requires forall f | f in batch :: f.ticker != k.ticker
    ensures var after := RunAll(step, db, batch).db;
            && (k in after.stocks <==> k in db.stocks)
            && (k in db.stocks ==> after.stocks[k] == db.stocks[k])
    decreases |batch|
  {
    if batch != [] {
      var f := batch[0];
      var first := step(db, f);
      UpsertBarsFrame(db.stocks, f.ticker, f.hist, k);
      assert first.db.stocks == UpsertBars(db.stocks, f.ticker, f.hist);
      if first.complete {
        RunAllLeavesOtherPrices(step, first.db, batch[1..], k);
      }
    }
  }

  /** The `lu_stock` row of a ticker that is not in the batch is left exactly
      as it was, by either loop. */
  lemma {:induction false} RunAllLeavesOtherMetadata(step: (Db, TickerFetch) -> Run, db: Db, batch: seq<TickerFetch>, ticker: Ticker)
    requires step == LoadStep || step == DagStep
    requires forall f | f in batch :: f.ticker != ticker
    ensures var after := RunAll(step, db, batch).db;
            && (ticker in after.luStock <==> ticker in db.luStock)
            && (ticker in db.luStock ==> after.luStock[ticker] == db.luStock[ticker])
    decreases |batch|
  {
    if batch != [] {
      var first := step(db, batch[0]);
      if first.complete {
        RunAllLeavesOtherMetadata(step, first.db, batch[1..], ticker);
      }
    }
  }

  /** The scheduled pipeline writes a ticker's `lu_stock` row only on a fetch
      of that ticker with metadata: when no remaining fetch of it has any, the
      row is left exactly as it was. */
  lemma {:induction false} DagRunKeepsMetadataRow(db: Db, batch: seq<TickerFetch>, ticker: Ticker)
    requires ticker in db.luStock
    requires forall j | 0 <= j < |batch| && batch[j].ticker == ticker :: batch[j].metadata.None?
    ensures var after := DagRun(db, batch).db.luStock;
            ticker in after && after[ticker] == db.luStock[ticker]
    decreases |batch|
  {
    if batch != [] {
      var first := DagStep(db, batch[0]);
      if first.complete {
        forall j | 0 <= j < |batch| - 1 && batch[1..][j].ticker == ticker
          ensures batch[1..][j].metadata.None?
        {
          assert batch[1..][j] == batch[j + 1];
        }
        DagRunKeepsMetadataRow(first.db, batch[1..], ticker);
      }
    }
  }

  /** The scheduled pipeline stamps `last_updated` with the clock on every
      metadata write: after a completed run, a ticker's row carries the clock
      reading of its last fetch with metadata; later fetches of it without
      metadata leave the stamp alone. */
  lemma {:induction false} DagRunStampsLastWrite(db: Db, batch: seq<TickerFetch>, i: int)
    requires 0 <= i < |batch| && batch[i].metadata.Some? && MetadataWritable(batch[i])
    requires forall j | i < j < |batch| && batch[j].ticker == batch[i].ticker :: batch[j].metadata.None?
    requires DagRun(db, batch).complete
    ensures var after := DagRun(db, batch).db.luStock;
            batch[i].ticker in after && after[batch[i].ticker].lastUpdated == batch[i].now
    decreases |batch|
  {
    var first := DagStep(db, batch[0]);
    assert DagRun(db, batch) == DagRun(first.db, batch[1..]);
    if i == 0 {
      forall j | 0 <= j < |batch| - 1 && batch[1..][j].ticker == batch[0].ticker
        ensures batch[1..][j].metadata.None?
      {
        assert batch[1..][j] == batch[j + 1];
      }
      DagRunKeepsMetadataRow(first.db, batch[1..], batch[0].ticker);
    } else {
      assert batch[1..][i - 1] == batch[i];
      forall j | i - 1 < j < |batch| - 1 && batch[1..][j].ticker == batch[1..][i - 1].ticker
        ensures batch[1..][j].metadata.None?
      {
        assert batch[1..][j] == batch[j + 1];
      }
      DagRunStampsLastWrite(first.db, batch[1..], i - 1);
    }
  }

  /** Both loops write the same prices: when the scheduled run completes, the
      live run over the same fetches completes too and leaves the same
      `stocks` table. */
  lemma {:induction false} PricesAgree(live: Db, scheduled: Db, batch: seq<TickerFetch>)
    requires live.stocks == scheduled.stocks
    requires DagRun(scheduled, batch).complete
    ensures LoadRun(live, batch).complete
    ensures LoadRun(live, batch).db.stocks == DagRun(scheduled, batch).db.stocks
    decreases |batch|
  {
    if batch != [] {
      var a := LoadStep(live, batch[0]);
      var b := DagStep(scheduled, batch[0]);
      assert a.db.stocks == b.db.stocks;
      PricesAgree(a.db, b.db, batch[1..]);
    }
  }
}

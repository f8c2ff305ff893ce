/** The database as the ingestion code drives it through a cursor: three
    tables updated in place, row by row, by the insert functions and the two
    per-ticker loops. Each method is proved to leave the tables exactly as the
    corresponding function of the old tables says. */
module Store {
  import opened Common
  import opened Schema
  import opened Prices
  import opened Metadata
  import opened News
  import opened Ingest

  class Database {
    var stocks: map<PriceKey, Bar>
    var luStock: map<Ticker, MetaRow>
    var stockNews: map<string, NewsRow>

    /** The three tables as one value. */
    function Tables(): Db
      reads this
    {
      Db(stocks, luStock, stockNews)
    }

    constructor ()
      ensures Tables() == Db(map[], map[], map[])
    {
      stocks, luStock, stockNews := map[], map[], map[];
    }

    /** `insert_stock_data`: one upsert per history row, in order. */
    method InsertStockData(ticker: Ticker, hist: seq<HistRow>)
      modifies this
      ensures stocks == UpsertBars(old(stocks), ticker, hist)
      ensures luStock == old(luStock) && stockNews == old(stockNews)
    {
      var i := 0;
      while i < |hist|
        invariant 0 <= i <= |hist|
        invariant UpsertBars(stocks, ticker, hist[i..]) == UpsertBars(old(stocks), ticker, hist)
        invariant luStock == old(luStock) && stockNews == old(stockNews)
      {
        assert hist[i..][1..] == hist[i + 1..];
        stocks := stocks[KeyOf(ticker, hist[i]) := hist[i].bar];
        i := i + 1;
      }
    }

    /** `insert_stock_metadata` of the live loader; `now` is the database
        clock that the `last_updated` default reads on insert. Returns false
        when the conversion of `firstTradeDate` raises, writing nothing. */
    method InsertStockMetadata(ticker: Ticker, metadata: Snapshot, now: int) returns (ok: bool)
      modifies this
      ensures ok <==> metadata.firstTradeDate.Some?
      ensures luStock == if ok then UpsertMetadata(old(luStock), ticker, ToColumns(metadata).value, now)
                         else old(luStock)
      ensures stocks == old(stocks) && stockNews == old(stockNews)
    {
      var cols := ToColumns(metadata);
      if cols.Err? {
        return false;
      }
      luStock := UpsertMetadata(luStock, ticker, cols.value, now);
      ok := true;
    }

    /** `insert_stock_metadata` of the scheduled pipeline: `last_updated` is
        the call time `now` on insert and on update. */
    method InsertStockMetadataStamped(ticker: Ticker, metadata: Snapshot, now: int) returns (ok: bool)
      modifies this
      ensures ok <==> metadata.firstTradeDate.Some?
      ensures luStock == if ok then UpsertMetadataStamped(old(luStock), ticker, ToColumns(metadata).value, now)
                         else old(luStock)
      ensures stocks == old(stocks) && stockNews == old(stockNews)
    {
      var cols := ToColumns(metadata);
      if cols.Err? {
        return false;
      }
      luStock := UpsertMetadataStamped(luStock, ticker, cols.value, now);
      ok := true;
    }

    /** `insert_stock_news` of the scheduled pipeline: filter by related
        ticker, then insert each article unless its uuid is stored. Returns
        false when an article's thumbnail raises; rows written before stay. */
    method InsertStockNews(ticker: Ticker, news: seq<Article>, now: int) returns (complete: bool)
      modifies this
      ensures Inserted(stockNews, complete) == News.InsertStockNews(old(stockNews), ticker, news, now)
      ensures stocks == old(stocks) && luStock == old(luStock)
    {
      var kept := Related(ticker, news);
      var i := 0;
      while i < |kept|
        invariant 0 <= i <= |kept|
        invariant InsertArticles(stockNews, ticker, kept[i..], now) == InsertArticles(old(stockNews), ticker, kept, now)
        invariant stocks == old(stocks) && luStock == old(luStock)
      {
        var article := kept[i];
        assert kept[i..][0] == article && kept[i..][1..] == kept[i + 1..];
        var thumb := DeriveThumb(article);
        if thumb.Err? {
          return false;
        }
        if article.uuid !in stockNews {
          stockNews := stockNews[article.uuid := RowOf(ticker, article, thumb.value, now)];
        }
        i := i + 1;
      }
      complete := true;
    }

    /** `main` of the live loader: the watchlist in order, prices always,
        metadata when there is any; stops at the first ticker that raises. */
    method LoadMain(batch: seq<TickerFetch>) returns (complete: bool)
      modifies this
      ensures Run(Tables(), complete) == LoadRun(old(Tables()), batch)
    {
      var i := 0;
      while i < |batch|
        invariant 0 <= i <= |batch|
        invariant LoadRun(Tables(), batch[i..]) == LoadRun(old(Tables()), batch)
      {
        var f := batch[i];
        assert batch[i..][0] == f && batch[i..][1..] == batch[i + 1..];
        ghost var before := Tables();
        InsertStockData(f.ticker, f.hist);
        if f.metadata.Some? {
          var ok := InsertStockMetadata(f.ticker, f.metadata.value, f.now);
          if !ok {
            assert LoadStep(before, f) == Run(Tables(), false);
            return false;
          }
        }
        assert LoadStep(before, f) == Run(Tables(), true);
        i := i + 1;
      }
      complete := true;
    }

    /** `fetch_data` of the scheduled pipeline: prices always, metadata and
        news when there are any; stops at the first ticker that raises. */
    method FetchData(batch: seq<TickerFetch>) returns (complete: bool)
      modifies this
      ensures Run(Tables(), complete) == DagRun(old(Tables()), batch)
    {
      var i := 0;
      while i < |batch|
        invariant 0 <= i <= |batch|
        invariant DagRun(Tables(), batch[i..]) == DagRun(old(Tables()), batch)
      {
        var f := batch[i];
        assert batch[i..][0] == f && batch[i..][1..] == batch[i + 1..];
        ghost var before := Tables();
        InsertStockData(f.ticker, f.hist);
        if f.metadata.Some? {
          var ok := InsertStockMetadataStamped(f.ticker, f.metadata.value, f.now);
          if !ok {
            assert DagStep(before, f) == Run(Tables(), false);
            return false;
          }
        }
        if f.news != [] {
          var ok := InsertStockNews(f.ticker, f.news, f.now);
          if !ok {
            assert DagStep(before, f) == Run(Tables(), false);
            return false;
          }
        }
        assert DagStep(before, f) == Run(Tables(), true);
        i := i + 1;
      }
      complete := true;
    }
  }
}

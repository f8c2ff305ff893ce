/** The three tables the ingestion writes, each keyed by its UNIQUE
    constraint. A table is a map from key to row, so no two rows can share a
    key: the constraint holds by construction and every upsert keeps it. */
module Schema {
  import opened Common

  /** `stocks` is UNIQUE (ticker, date); the date is a UTC calendar day. */
  datatype PriceKey = PriceKey(ticker: Ticker, date: int)

  /** The OHLCV columns of one `stocks` row (numeric values kept opaque). */
  datatype Bar = Bar(open: int, close: int, high: int, low: int, volume: int)

  /** The sixteen snapshot columns of one `lu_stock` row. `first_trade_date`
      is never NULL here: a snapshot without it cannot be written. */
  datatype Columns = Columns(
    currency: Option<string>,
    exchangeName: Option<string>,
    fullExchangeName: Option<string>,
    instrumentType: Option<string>,
    firstTradeDate: int,
    regularMarketPrice: Option<int>,
    fiftyTwoWeekHigh: Option<int>,
    fiftyTwoWeekLow: Option<int>,
    regularMarketDayHigh: Option<int>,
    regularMarketDayLow: Option<int>,
    regularMarketVolume: Option<int>,
    longName: Option<string>,
    shortName: Option<string>,
    chartPreviousClose: Option<int>,
    timezone: Option<string>,
    exchangeTimezoneName: Option<string>)

  /** One `lu_stock` row (UNIQUE ticker): the snapshot columns and `last_updated`. */
  datatype MetaRow = MetaRow(cols: Columns, lastUpdated: int)

  /** The thumbnail columns of a `stock_news` row; each may be NULL. */
  datatype Thumb = Thumb(url: Option<string>, width: Option<int>, height: Option<int>)

  /** One `stock_news` row (UNIQUE uuid); `date` is the insert time. */
  datatype NewsRow = NewsRow(
    ticker: Ticker,
    date: int,
    title: string,
    publisher: string,
    link: string,
    providerPublishTime: int,
    kind: string,
    thumb: Thumb)

  /** The whole store: `stocks`, `lu_stock` and `stock_news`. */
  datatype Db = Db(
    stocks: map<PriceKey, Bar>,
    luStock: map<Ticker, MetaRow>,
    stockNews: map<string, NewsRow>)
}

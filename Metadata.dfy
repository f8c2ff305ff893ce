/** `insert_stock_metadata`: one `lu_stock` row per ticker, all sixteen
    snapshot columns overwritten on conflict. The two variants differ only in
    `last_updated`: the live loader never sets it, so the column default
    stamps the first insert and later upserts keep it; the scheduled variant
    sets it to the call time on insert and on update. */
module Metadata {
  import opened Common
  import opened Schema

  /** The provider's metadata mapping as the sixteen `metadata.get(key)`
      reads see it: each key may be missing. */
  datatype Snapshot = Snapshot(
    currency: Option<string>,
    exchangeName: Option<string>,
    fullExchangeName: Option<string>,
    instrumentType: Option<string>,
    firstTradeDate: Option<int>,
    regularMarketPrice: Option<int>,
    fiftyTwoWeekHigh: Option<int>,
    fiftyTwoWeekLow: Option<int>,
    regularMarketDayHigh: Option<int>,
    regularMarketDayLow: Option<int>,
    regularMarketVolume: Option<int>,
    longName: Option<string>,
    shortName: Option<string>,
    chartPreviousClose: Option<int>,
    timezone: Option<string>,
    exchangeTimezoneName: Option<string>)

  /** The parameter tuple of the upsert. A missing key becomes NULL, except
      `firstTradeDate`, which `fromtimestamp` cannot convert. */
  function ToColumns(s: Snapshot): (r: Result<Columns>)
    ensures r.Err? <==> s.firstTradeDate.None?
    ensures r.Err? ==> r.error == MissingFirstTradeDate
  {
    match s.firstTradeDate
    case None => Err(MissingFirstTradeDate)
    case Some(first) =>
      Ok(Columns(s.currency, s.exchangeName, s.fullExchangeName, s.instrumentType, first,
                 s.regularMarketPrice, s.fiftyTwoWeekHigh, s.fiftyTwoWeekLow,
                 s.regularMarketDayHigh, s.regularMarketDayLow, s.regularMarketVolume,
                 s.longName, s.shortName, s.chartPreviousClose, s.timezone, s.exchangeTimezoneName))
  }

  /** A stored row read back as the mapping it was written from. */
  function SnapshotOf(c: Columns): Snapshot
  {
    Snapshot(c.currency, c.exchangeName, c.fullExchangeName, c.instrumentType, Some(c.firstTradeDate),
             c.regularMarketPrice, c.fiftyTwoWeekHigh, c.fiftyTwoWeekLow,
             c.regularMarketDayHigh, c.regularMarketDayLow, c.regularMarketVolume,
             c.longName, c.shortName, c.chartPreviousClose, c.timezone, c.exchangeTimezoneName)
  }

  /** The sixteen columns carry exactly the snapshot's values: a snapshot is
      written as `c` exactly when `c` reads back as that snapshot. */
  lemma ColumnsRoundTrip(s: Snapshot, c: Columns)
    ensures ToColumns(s) == Ok(c) <==> SnapshotOf(c) == s
  {
  }

  /** The live loader's upsert: `last_updated` is not in the DO UPDATE list,
      so an existing row keeps its stamp and a new row gets the insert time. */
  function UpsertMetadata(table: map<Ticker, MetaRow>, ticker: Ticker, cols: Columns, now: int): map<Ticker, MetaRow>
  {
    table[ticker := MetaRow(cols, if ticker in table then table[ticker].lastUpdated else now)]
  }

  /** The scheduled variant's upsert: `last_updated = EXCLUDED.last_updated`,
      the call time, on insert and on update. */
  function UpsertMetadataStamped(table: map<Ticker, MetaRow>, ticker: Ticker, cols: Columns, now: int): map<Ticker, MetaRow>
  {
    table[ticker := MetaRow(cols, now)]
  }

  /** After the live upsert the ticker has exactly one row with the new
      columns; its stamp is the old one if the row existed and the insert time
      otherwise; every other ticker's row is unchanged. */
  lemma UpsertMetadataEffect(table: map<Ticker, MetaRow>, ticker: Ticker, cols: Columns, now: int)
    ensures var r := UpsertMetadata(table, ticker, cols, now);
            && ticker in r && r[ticker].cols == cols
            && (ticker in table ==> r[ticker].lastUpdated == table[ticker].lastUpdated)
            && (ticker !in table ==> r[ticker].lastUpdated == now)
            && r.Keys == table.Keys + {ticker}
            && (forall t | t in table && t != ticker :: r[t] == table[t])
  {
  }

  /** Repeating the live upsert, at any later time, changes nothing more. */
  lemma UpsertMetadataIdempotent(table: map<Ticker, MetaRow>, ticker: Ticker, cols: Columns, now: int, later: int)
    ensures UpsertMetadata(UpsertMetadata(table, ticker, cols, now), ticker, cols, later)
         == UpsertMetadata(table, ticker, cols, now)
  {
  }

  /** After the scheduled upsert the ticker's row has the new columns and the
      call time, so its stamp strictly increases whenever the clock has. */
  lemma UpsertMetadataStampedEffect(table: map<Ticker, MetaRow>, ticker: Ticker, cols: Columns, now: int)
    ensures var r := UpsertMetadataStamped(table, ticker, cols, now);
            && ticker in r && r[ticker] == MetaRow(cols, now)
            && (ticker in table && table[ticker].lastUpdated < now ==> table[ticker].lastUpdated < r[ticker].lastUpdated)
            && r.Keys == table.Keys + {ticker}
            && (forall t | t in table && t != ticker :: r[t] == table[t])
  {
  }
}

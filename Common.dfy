/** Values shared by every part of the ingestion model: optional values,
    the errors the Python code raises, tickers and UTC calendar days. */
module Common {

  /** A value that may be missing, as `dict.get(key)` returns `None` for a missing key. */
  datatype Option<T> = None | Some(value: T)

  /** The exceptions the modelled code raises instead of completing. */
  datatype Error =
    | MissingFirstTradeDate   // `fromtimestamp(None)` raises TypeError
    | EmptyResolutions        // `[][0]` raises IndexError
    | NoMetadataRow           // `frame['last_updated'][0]` on an empty result
    | MissingArgument         // `sys.argv[1]` with no argument raises IndexError
    | MissingWatchlist        // `pd.read_csv` on a file that does not exist

  datatype Result<T> = Ok(value: T) | Err(error: Error)

  /** An exchange symbol, as it appears in the watchlist and in every table. */
  type Ticker = string

  const SecondsPerDay: int := 86400

  /** The UTC calendar day (days since 1970-01-01) of an epoch timestamp in
      seconds: `ts.tz_convert('UTC').date()`. */
  function DayOf(time: int): (day: int)
    ensures day * SecondsPerDay <= time < (day + 1) * SecondsPerDay
  {
    time / SecondsPerDay
  }

  /** The day of a timestamp is the only `d` whose day interval holds it. */
  lemma DayUnique(time: int, d: int)
    ensures d * SecondsPerDay <= time < (d + 1) * SecondsPerDay <==> d == DayOf(time)
  {
    var e := DayOf(time);
    if d < e {
      assert (d + 1) * SecondsPerDay <= e * SecondsPerDay;
    } else if d > e {
      assert (e + 1) * SecondsPerDay <= d * SecondsPerDay;
    }
  }
}

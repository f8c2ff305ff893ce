/** The dashboard's "refresh data" button: a refresh of the whole watchlist
    runs only when the selected ticker's `last_updated` is more than fifteen
    minutes old; otherwise a message is shown and nothing is written. Times
    are seconds on one clock. */
module RefreshGate {
  import opened Common
  import opened Schema
  import opened Ingest

  const CooldownSeconds: int := 15 * 60

  /** The gate: denied when `last_updated >= now - 15 minutes`. */
  function MayRefresh(lastUpdated: int, now: int): (allowed: bool)
    ensures allowed <==> now - lastUpdated > CooldownSeconds
  {
    !(lastUpdated >= now - CooldownSeconds)
  }

  /** What one press of the button did. */
  datatype Outcome =
    | Denied                      // "data can only be refreshed once every 15 minutes."
    | Refreshed(complete: bool)   // the live loader ran; `false`: it raised
    | Raised(error: Error)        // the selected ticker has no `lu_stock` row

  datatype Press = Press(db: Db, outcome: Outcome)

  /** A press for `selected` at time `now`; `batch` is what the live loader
      would fetch for the watchlist. */
  function OnRefresh(db: Db, selected: Ticker, now: int, batch: seq<TickerFetch>): Press
  {
    if selected !in db.luStock then Press(db, Raised(NoMetadataRow))
    else if MayRefresh(db.luStock[selected].lastUpdated, now) then
      var run := LoadRun(db, batch);
      Press(run.db, Refreshed(run.complete))
    else Press(db, Denied)
  }

  /** The cases the gate is meant for: fourteen minutes after an update the
      refresh is denied, sixteen minutes after it runs, and at exactly fifteen
      minutes it is still denied. */
  lemma GateExamples(t0: int)
    ensures !MayRefresh(t0, t0 + 14 * 60)
    ensures MayRefresh(t0, t0 + 16 * 60)
    ensures !MayRefresh(t0, t0 + 15 * 60)
  {
  }

  /** A `last_updated` later than the clock always denies. */
  lemma FutureStampDenies(lastUpdated: int, now: int)
    requires lastUpdated > now
    ensures !MayRefresh(lastUpdated, now)
  {
  }

  /** Once the gate is open for a stamp it stays open as the clock advances. */
  lemma GateMonotone(lastUpdated: int, now: int, later: int)
    requires MayRefresh(lastUpdated, now) && now <= later
    ensures MayRefresh(lastUpdated, later)
  {
  }

  /** The refresh runs exactly when strictly more than fifteen minutes have
      passed since the selected ticker's stamp; a denial writes nothing. */
  lemma OnRefreshDecision(db: Db, selected: Ticker, now: int, batch: seq<TickerFetch>)
    requires selected in db.luStock
    ensures var press := OnRefresh(db, selected, now, batch);
            && (press.outcome.Refreshed? <==> now - db.luStock[selected].lastUpdated > CooldownSeconds)
            && (press.outcome.Denied? <==> now - db.luStock[selected].lastUpdated <= CooldownSeconds)
            && (press.outcome.Denied? ==> press.db == db)
            && (press.outcome.Refreshed? ==> press.db == LoadRun(db, batch).db)
  {
  }

  /** Successive presses, each on the store the previous one left. */
  function Session(db: Db, presses: seq<(Ticker, int, seq<TickerFetch>)>): seq<Outcome>
    decreases |presses|
  {
    if presses == [] then []
    else
      var press := OnRefresh(db, presses[0].0, presses[0].1, presses[0].2);
      [press.outcome] + Session(press.db, presses[1..])
  }

  /** The live loader never sets `last_updated` on an existing row, so once
      fifteen minutes have passed since a ticker's first insert the gate never
      blocks a press for it again, whatever presses for it or for other
      tickers, and whatever refreshes, come in between. */
  lemma {:induction false} GateNeverClosesAgain(db: Db, ticker: Ticker, presses: seq<(Ticker, int, seq<TickerFetch>)>)
    requires ticker in db.luStock
    ensures |Session(db, presses)| == |presses|
    ensures forall i | 0 <= i < |presses| && presses[i].0 == ticker
                       && presses[i].1 - db.luStock[ticker].lastUpdated > CooldownSeconds
              :: Session(db, presses)[i].Refreshed?
    decreases |presses|
  {
    if presses != [] {
      var press := OnRefresh(db, presses[0].0, presses[0].1, presses[0].2);
      LoadRunKeepsStamps(db, presses[0].2, ticker);
      GateNeverClosesAgain(press.db, ticker, presses[1..]);
      var rest := Session(press.db, presses[1..]);
      assert Session(db, presses) == [press.outcome] + rest;
      forall i | 0 < i < |presses|
        ensures presses[i] == presses[1..][i - 1] && Session(db, presses)[i] == rest[i - 1]
      {
      }
    }
  }

  /** The scheduled pipeline, in contrast, stamps `last_updated` with its
      clock: right after it writes a ticker's metadata, a press for that
      ticker within fifteen minutes is denied. The stamp is written before the
      news insert, so this holds even when a thumbnail then raises. */
  lemma ScheduledRunClosesGate(db: Db, f: TickerFetch, now: int, batch: seq<TickerFetch>)
    requires f.metadata.Some? && MetadataWritable(f)
    requires now <= f.now + CooldownSeconds
    ensures OnRefresh(DagRun(db, [f]).db, f.ticker, now, batch).outcome == Denied
  {
    var step := DagStep(db, f);
    assert [f][0] == f && [f][1..] == [];
    assert DagRun(db, [f]) == if step.complete then DagRun(step.db, []) else step;
    assert f.ticker in step.db.luStock && step.db.luStock[f.ticker].lastUpdated == f.now;
  }
}

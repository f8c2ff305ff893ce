/** `insert_stock_data`: every bar of a fetched price history is written to
    `stocks` with `ON CONFLICT (ticker, date) DO UPDATE`, in the history's
    order, so the last bar of each UTC day wins. */
module Prices {
  import opened Common
  import opened Schema

  /** One row of the fetched history: its index timestamp (epoch seconds,
      converted to UTC) and its OHLCV values. */
  datatype HistRow = HistRow(time: int, bar: Bar)

  /** The `stocks` key a history row is written under. */
  function KeyOf(ticker: Ticker, row: HistRow): PriceKey
  {
    PriceKey(ticker, DayOf(row.time))
  }

  /** The keys a history writes, one per distinct UTC day among its rows. */
  function HistKeys(ticker: Ticker, hist: seq<HistRow>): set<PriceKey>
  {
    set i | 0 <= i < |hist| :: KeyOf(ticker, hist[i])
  }

  /** The days of the history that the ticker has no row for yet. */
  function NewDates(table: map<PriceKey, Bar>, ticker: Ticker, hist: seq<HistRow>): set<int>
  {
    set i | 0 <= i < |hist| && KeyOf(ticker, hist[i]) !in table :: DayOf(hist[i].time)
  }

  /** The table after upserting the rows of `hist` one at a time, first to last. */
  function UpsertBars(table: map<PriceKey, Bar>, ticker: Ticker, hist: seq<HistRow>): map<PriceKey, Bar>
    decreases |hist|
  {
    if hist == [] then table
    else UpsertBars(table[KeyOf(ticker, hist[0]) := hist[0].bar], ticker, hist[1..])
  }

  /** What the history writes when nothing is stored yet. */
  function Incoming(ticker: Ticker, hist: seq<HistRow>): map<PriceKey, Bar>
  {
    UpsertBars(map[], ticker, hist)
  }

  /** Upserting a history overlays its own rows on the table: stored rows at
      other keys survive, and every key of the history takes the history's value. */
  lemma {:induction false} UpsertBarsOverlay(table: map<PriceKey, Bar>, ticker: Ticker, hist: seq<HistRow>)
    ensures UpsertBars(table, ticker, hist) == table + Incoming(ticker, hist)
    decreases |hist|
  {
    if hist != [] {
      var k, b := KeyOf(ticker, hist[0]), hist[0].bar;
      UpsertBarsOverlay(table[k := b], ticker, hist[1..]);
      UpsertBarsOverlay(map[k := b], ticker, hist[1..]);
      var rest := Incoming(ticker, hist[1..]);
      assert table[k := b] + rest == table + (map[k := b] + rest);
    }
  }

  /** The keys afterwards are the stored keys plus one key per UTC day of the history. */
  lemma {:induction false} UpsertBarsKeys(table: map<PriceKey, Bar>, ticker: Ticker, hist: seq<HistRow>)
    ensures UpsertBars(table, ticker, hist).Keys == table.Keys + HistKeys(ticker, hist)
    decreases |hist|
  {
    if hist != [] {
      var k := KeyOf(ticker, hist[0]);
      UpsertBarsKeys(table[k := hist[0].bar], ticker, hist[1..]);
      assert HistKeys(ticker, hist) == {k} + HistKeys(ticker, hist[1..]) by {
        forall key | key in HistKeys(ticker, hist) ensures key in {k} + HistKeys(ticker, hist[1..]) {
          var i :| 0 <= i < |hist| && key == KeyOf(ticker, hist[i]);
          if i > 0 {
            assert hist[1..][i - 1] == hist[i];
          }
        }
        forall key | key in HistKeys(ticker, hist[1..]) ensures key in HistKeys(ticker, hist) {
          var i :| 0 <= i < |hist[1..]| && key == KeyOf(ticker, hist[1..][i]);
          assert hist[1..][i] == hist[i + 1];
        }
      }
    }
  }

  /** Rows of other tickers, and rows of this ticker on days the history does
      not cover, are neither added, removed nor changed. */
  lemma {:induction false} UpsertBarsFrame(table: map<PriceKey, Bar>, ticker: Ticker, hist: seq<HistRow>, k: PriceKey)
    requires k.ticker != ticker || forall i | 0 <= i < |hist| :: DayOf(hist[i].time) != k.date
    ensures k in UpsertBars(table, ticker, hist) <==> k in table
    ensures k in table ==> UpsertBars(table, ticker, hist)[k] == table[k]
    decreases |hist|
  {
    if hist != [] {
      assert k != KeyOf(ticker, hist[0]);
      assert forall i | 0 <= i < |hist[1..]| :: hist[1..][i] == hist[i + 1];
      UpsertBarsFrame(table[KeyOf(ticker, hist[0]) := hist[0].bar], ticker, hist[1..], k);
    }
  }

  /** Every bar of the history is stored under its ticker and UTC day, unless
      a later bar of the same day overwrites it: the last bar of a day wins. */
  lemma {:induction false} UpsertBarsLastWins(table: map<PriceKey, Bar>, ticker: Ticker, hist: seq<HistRow>, i: int)
    requires 0 <= i < |hist|
    requires forall j | i < j < |hist| :: DayOf(hist[j].time) != DayOf(hist[i].time)
    ensures KeyOf(ticker, hist[i]) in UpsertBars(table, ticker, hist)
    ensures UpsertBars(table, ticker, hist)[KeyOf(ticker, hist[i])] == hist[i].bar
    decreases |hist|
  {
    var next := table[KeyOf(ticker, hist[0]) := hist[0].bar];
    assert forall j | 0 <= j < |hist[1..]| :: hist[1..][j] == hist[j + 1];
    if i == 0 {
      UpsertBarsFrame(next, ticker, hist[1..], KeyOf(ticker, hist[0]));
    } else {
      UpsertBarsLastWins(next, ticker, hist[1..], i - 1);
    }
  }

  /** Upserting the same history twice leaves the table as upserting it once. */
  lemma UpsertBarsIdempotent(table: map<PriceKey, Bar>, ticker: Ticker, hist: seq<HistRow>)
    ensures UpsertBars(UpsertBars(table, ticker, hist), ticker, hist) == UpsertBars(table, ticker, hist)
  {
    var once := UpsertBars(table, ticker, hist);
    UpsertBarsOverlay(table, ticker, hist);
    UpsertBarsOverlay(once, ticker, hist);
    assert (table + Incoming(ticker, hist)) + Incoming(ticker, hist) == table + Incoming(ticker, hist);
  }

  /** Tagging distinct days with one ticker gives distinct keys. */
  lemma {:induction false} TaggedDatesCount(ticker: Ticker, dates: set<int>)
    ensures |set d | d in dates :: PriceKey(ticker, d)| == |dates|
    decreases dates
  {
    if d :| d in dates {
      TaggedDatesCount(ticker, dates - {d});
      assert (set e | e in dates :: PriceKey(ticker, e))
          == (set e | e in dates - {d} :: PriceKey(ticker, e)) + {PriceKey(ticker, d)};
    } else {
      assert dates == {} by {
        forall e | e in dates ensures false { }
      }
    }
  }

  /** The row count grows by exactly the number of distinct UTC days of the
      history that the ticker had no row for. */
  lemma UpsertBarsCount(table: map<PriceKey, Bar>, ticker: Ticker, hist: seq<HistRow>)
    ensures |UpsertBars(table, ticker, hist)| == |table| + |NewDates(table, ticker, hist)|
  {
    var after := UpsertBars(table, ticker, hist);
    UpsertBarsKeys(table, ticker, hist);
    var added := HistKeys(ticker, hist) - table.Keys;
    assert added == set d | d in NewDates(table, ticker, hist) :: PriceKey(ticker, d) by {
      forall key | key in added ensures key in set d | d in NewDates(table, ticker, hist) :: PriceKey(ticker, d) {
        var i :| 0 <= i < |hist| && key == KeyOf(ticker, hist[i]);
        assert DayOf(hist[i].time) in NewDates(table, ticker, hist);
      }
    }
    TaggedDatesCount(ticker, NewDates(table, ticker, hist));
    assert after.Keys == table.Keys + added;
    assert table.Keys !! added;
    assert |after.Keys| == |table.Keys| + |added|;
  }

  /** Day number of 2024-01-01. */
  const Jan1st2024: int := 19723

  /** 05:00 UTC on the given day after 2024-01-01: a New York midnight bar. */
  function BarTime(offset: int): int
  {
    (Jan1st2024 + offset) * SecondsPerDay + 5 * 3600
  }

  /** Three bars dated 2024-01-01..03 into an empty table give three rows; a
      second fetch dated 01-02..01-04 corrects 01-02 and 01-03, adds 01-04 and
      leaves four rows, with 01-01 untouched. */
  lemma RefetchScenario(b1: Bar, b2: Bar, b3: Bar, c2: Bar, c3: Bar, c4: Bar)
    ensures var first := [HistRow(BarTime(0), b1), HistRow(BarTime(1), b2), HistRow(BarTime(2), b3)];
            var second := [HistRow(BarTime(1), c2), HistRow(BarTime(2), c3), HistRow(BarTime(3), c4)];
            var t1 := UpsertBars(map[], "ABC", first);
            var t2 := UpsertBars(t1, "ABC", second);
            && |t1| == 3 && |t2| == 4
            && PriceKey("ABC", Jan1st2024) in t2 && t2[PriceKey("ABC", Jan1st2024)] == b1
            && PriceKey("ABC", Jan1st2024 + 1) in t2 && t2[PriceKey("ABC", Jan1st2024 + 1)] == c2
            && PriceKey("ABC", Jan1st2024 + 2) in t2 && t2[PriceKey("ABC", Jan1st2024 + 2)] == c3
            && PriceKey("ABC", Jan1st2024 + 3) in t2 && t2[PriceKey("ABC", Jan1st2024 + 3)] == c4
  {
    var first := [HistRow(BarTime(0), b1), HistRow(BarTime(1), b2), HistRow(BarTime(2), b3)];
    var second := [HistRow(BarTime(1), c2), HistRow(BarTime(2), c3), HistRow(BarTime(3), c4)];
    var k0, k1, k2, k3 := PriceKey("ABC", Jan1st2024), PriceKey("ABC", Jan1st2024 + 1),
                          PriceKey("ABC", Jan1st2024 + 2), PriceKey("ABC", Jan1st2024 + 3);
    BarDay(0);
    BarDay(1);
    BarDay(2);
    BarDay(3);
    var t1 := UpsertBars(map[], "ABC", first);
    assert t1 == map[k0 := b1, k1 := b2, k2 := b3] by {
      assert first[1..] == [first[1], first[2]];
      assert [first[1], first[2]][1..] == [first[2]];
      assert [first[2]][1..] == [];
      assert KeyOf("ABC", first[0]) == k0 && KeyOf("ABC", first[1]) == k1 && KeyOf("ABC", first[2]) == k2;
      assert t1 == UpsertBars(map[k0 := b1], "ABC", [first[1], first[2]]);
      assert t1 == UpsertBars(map[k0 := b1, k1 := b2], "ABC", [first[2]]);
      assert t1 == UpsertBars(map[k0 := b1, k1 := b2, k2 := b3], "ABC", []);
    }
    assert |t1| == 3;
    var t2 := UpsertBars(t1, "ABC", second);
    assert t2 == t1[k1 := c2][k2 := c3][k3 := c4] by {
      assert KeyOf("ABC", second[0]) == k1 && KeyOf("ABC", second[1]) == k2 && KeyOf("ABC", second[2]) == k3;
      assert second[1..] == [second[1], second[2]];
      assert [second[1], second[2]][1..] == [second[2]];
      assert [second[2]][1..] == [];
      assert t2 == UpsertBars(t1[k1 := c2], "ABC", [second[1], second[2]]);
      assert t2 == UpsertBars(t1[k1 := c2][k2 := c3], "ABC", [second[2]]);
      assert t2 == UpsertBars(t1[k1 := c2][k2 := c3][k3 := c4], "ABC", []);
    }
    assert k3 !in t1;
  }

  lemma BarDay(offset: int)
    ensures DayOf(BarTime(offset)) == Jan1st2024 + offset
  {
    DayUnique(BarTime(offset), Jan1st2024 + offset);
  }
}

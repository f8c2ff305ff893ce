/** `insert_stock_news` of the scheduled pipeline: keep the articles whose
    related tickers name the ticker, derive each one's thumbnail from the
    first listed resolution, and insert it with `ON CONFLICT (uuid) DO
    NOTHING`, so the first row written for a uuid is never replaced. */
module News {
  import opened Common
  import opened Schema

  /** One entry of `thumbnail.resolutions`; each key may be missing. */
  datatype Resolution = Resolution(url: Option<string>, width: Option<int>, height: Option<int>)

  /** The `thumbnail` mapping; its `resolutions` list may be missing. */
  datatype Thumbnail = Thumbnail(resolutions: Option<seq<Resolution>>)

  /** One article of the provider's news list. The keys read with `[...]`
      are always present; `relatedTickers` and `thumbnail` may be missing. */
  datatype Article = Article(
    uuid: string,
    title: string,
    publisher: string,
    link: string,
    providerPublishTime: int,
    kind: string,
    relatedTickers: Option<seq<Ticker>>,
    thumbnail: Option<Thumbnail>)

  /** `article.get('relatedTickers', [])` */
  function RelatedTickers(a: Article): seq<Ticker>
  {
    match a.relatedTickers
    case None => []
    case Some(tickers) => tickers
  }

  predicate IsRelated(ticker: Ticker, a: Article)
  {
    ticker in RelatedTickers(a)
  }

  /** The filtering comprehension: the articles that name the ticker among
      their related tickers, in their original order. */
  function Related(ticker: Ticker, news: seq<Article>): (kept: seq<Article>)
    ensures forall a :: a in kept <==> a in news && IsRelated(ticker, a)
    ensures |kept| <= |news|
    decreases |news|
  {
    if news == [] then []
    else (if IsRelated(ticker, news[0]) then [news[0]] else []) + Related(ticker, news[1..])
  }

  /** Filtering keeps the input order: it distributes over concatenation. */
  lemma {:induction false} RelatedAppend(ticker: Ticker, xs: seq<Article>, ys: seq<Article>)
    ensures Related(ticker, xs + ys) == Related(ticker, xs) + Related(ticker, ys)
    decreases |xs|
  {
    var zs := xs + ys;
    if xs == [] {
      assert zs == ys;
    } else {
      var head := if IsRelated(ticker, xs[0]) then [xs[0]] else [];
      assert zs[0] == xs[0] && zs[1..] == xs[1..] + ys;
      RelatedAppend(ticker, xs[1..], ys);
      assert head + (Related(ticker, xs[1..]) + Related(ticker, ys))
          == (head + Related(ticker, xs[1..])) + Related(ticker, ys);
    }
  }

  /** `article.get('thumbnail', {}).get('resolutions', [{}])`: a missing
      thumbnail or list stands for one resolution with no keys. */
  function Resolutions(a: Article): seq<Resolution>
  {
    var thumbnail := if a.thumbnail.Some? then a.thumbnail.value else Thumbnail(None);
    match thumbnail.resolutions
    case None => [Resolution(None, None, None)]
    case Some(list) => list
  }

  /** The thumbnail columns, read from the first resolution with `.get`;
      an empty resolutions list cannot be indexed. */
  function DeriveThumb(a: Article): (r: Result<Thumb>)
    ensures r.Err? <==> a.thumbnail.Some? && a.thumbnail.value.resolutions == Some([])
    ensures r.Err? ==> r.error == EmptyResolutions
    ensures a.thumbnail.None? || a.thumbnail.value.resolutions.None? ==> r == Ok(Thumb(None, None, None))
    ensures a.thumbnail.Some? && a.thumbnail.value.resolutions.Some? && a.thumbnail.value.resolutions.value != [] ==>
              var first := a.thumbnail.value.resolutions.value[0];
              r == Ok(Thumb(first.url, first.width, first.height))
  {
    var list := Resolutions(a);
    if list == [] then Err(EmptyResolutions)
    else Ok(Thumb(list[0].url, list[0].width, list[0].height))
  }

  /** The row written for an article; `date` is the insert time. */
  function RowOf(ticker: Ticker, a: Article, thumb: Thumb, now: int): NewsRow
  {
    NewsRow(ticker, now, a.title, a.publisher, a.link, a.providerPublishTime, a.kind, thumb)
  }

  /** The table after an insertion loop, and whether the loop ran to the end
      (`false`: it raised on an article, keeping the rows written before it). */
  datatype Inserted = Inserted(table: map<string, NewsRow>, complete: bool)

  /** Insert-if-absent by uuid, article by article, first to last. */
  function InsertArticles(table: map<string, NewsRow>, ticker: Ticker, arts: seq<Article>, now: int): Inserted
    decreases |arts|
  {
    if arts == [] then Inserted(table, true)
    else match DeriveThumb(arts[0])
      case Err(_) => Inserted(table, false)
      case Ok(thumb) =>
        var next := if arts[0].uuid in table then table
                    else table[arts[0].uuid := RowOf(ticker, arts[0], thumb, now)];
        InsertArticles(next, ticker, arts[1..], now)
  }

  /** The whole of `insert_stock_news`: filter, then insert. */
  function InsertStockNews(table: map<string, NewsRow>, ticker: Ticker, news: seq<Article>, now: int): Inserted
  {
    InsertArticles(table, ticker, Related(ticker, news), now)
  }

  /** Inserting a batch lays the stored rows over the batch's own rows: a row
      already stored always wins, and whether the loop completes does not
      depend on what is stored. */
  lemma {:induction false} InsertArticlesOverlay(table: map<string, NewsRow>, ticker: Ticker, arts: seq<Article>, now: int)
    ensures var own := InsertArticles(map[], ticker, arts, now);
            InsertArticles(table, ticker, arts, now) == Inserted(own.table + table, own.complete)
    decreases |arts|
  {
    if arts != [] && DeriveThumb(arts[0]).Ok? {
      var a := arts[0];
      var row := RowOf(ticker, a, DeriveThumb(a).value, now);
      var next := if a.uuid in table then table else table[a.uuid := row];
      InsertArticlesOverlay(next, ticker, arts[1..], now);
      InsertArticlesOverlay(map[a.uuid := row], ticker, arts[1..], now);
      var rest := InsertArticles(map[], ticker, arts[1..], now).table;
      assert next == map[a.uuid := row] + table;
      assert rest + (map[a.uuid := row] + table) == (rest + map[a.uuid := row]) + table;
    } else if arts != [] {
      assert map[] + table == table;
    }
  }

  /** A row already stored under a uuid is left untouched. */
  lemma InsertArticlesKeepsRows(table: map<string, NewsRow>, ticker: Ticker, arts: seq<Article>, now: int, uuid: string)
    requires uuid in table
    ensures var r := InsertArticles(table, ticker, arts, now).table;
            uuid in r && r[uuid] == table[uuid]
  {
    InsertArticlesOverlay(table, ticker, arts, now);
  }

  /** Inserting the same batch twice leaves the table as inserting it once. */
  lemma InsertArticlesIdempotent(table: map<string, NewsRow>, ticker: Ticker, arts: seq<Article>, now: int, later: int)
    ensures var once := InsertArticles(table, ticker, arts, now);
            InsertArticles(once.table, ticker, arts, later).table == once.table
  {
    var own := InsertArticles(map[], ticker, arts, now);
    var ownLater := InsertArticles(map[], ticker, arts, later);
    InsertArticlesOverlay(table, ticker, arts, now);
    InsertArticlesOverlay(own.table + table, ticker, arts, later);
    KeysDoNotDependOnClock(ticker, arts, now, later);
    assert ownLater.table + (own.table + table) == own.table + table;
  }

  /** The uuids a batch writes do not depend on the insert time. */
  lemma {:induction false} KeysDoNotDependOnClock(ticker: Ticker, arts: seq<Article>, now: int, later: int)
    ensures InsertArticles(map[], ticker, arts, later).table.Keys == InsertArticles(map[], ticker, arts, now).table.Keys
  {
    InsertedKeys(map[], ticker, arts, now);
    InsertedKeys(map[], ticker, arts, later);
  }

  /** The uuids present afterwards: the stored ones plus the uuids of the
      articles before the first one whose thumbnail cannot be derived. */
  lemma {:induction false} InsertedKeys(table: map<string, NewsRow>, ticker: Ticker, arts: seq<Article>, now: int)
    ensures InsertArticles(table, ticker, arts, now).table.Keys == table.Keys + UuidsBefore(arts, FirstBad(arts))
    decreases |arts|
  {
    if arts != [] && DeriveThumb(arts[0]).Ok? {
      var a := arts[0];
      var next := if a.uuid in table then table else table[a.uuid := RowOf(ticker, a, DeriveThumb(a).value, now)];
      InsertedKeys(next, ticker, arts[1..], now);
      UuidsBeforeCons(arts);
    }
  }

  /** The index of the first article whose thumbnail raises, or the length. */
  function FirstBad(arts: seq<Article>): (i: nat)
    ensures i <= |arts|
    ensures forall j | 0 <= j < i :: DeriveThumb(arts[j]).Ok?
    ensures i < |arts| ==> DeriveThumb(arts[i]).Err?
    decreases |arts|
  {
    if arts == [] || DeriveThumb(arts[0]).Err? then 0 else 1 + FirstBad(arts[1..])
  }

  function UuidsBefore(arts: seq<Article>, n: nat): set<string>
    requires n <= |arts|
  {
    set j | 0 <= j < n :: arts[j].uuid
  }

  lemma UuidsBeforeCons(arts: seq<Article>)
    requires arts != [] && DeriveThumb(arts[0]).Ok?
    ensures FirstBad(arts) == 1 + FirstBad(arts[1..])
    ensures UuidsBefore(arts, FirstBad(arts)) == {arts[0].uuid} + UuidsBefore(arts[1..], FirstBad(arts[1..]))
  {
    var n := FirstBad(arts[1..]);
    forall j | 0 <= j < 1 + n
      ensures arts[j].uuid in {arts[0].uuid} + UuidsBefore(arts[1..], n)
    {
      if j > 0 {
        assert arts[1..][j - 1] == arts[j];
      }
    }
    forall j | 0 <= j < n
      ensures arts[1..][j].uuid in UuidsBefore(arts, 1 + n)
    {
      assert arts[1..][j] == arts[j + 1];
    }
  }

  /** The loop completes exactly when every article's thumbnail can be derived. */
  lemma {:induction false} InsertArticlesCompleteIff(table: map<string, NewsRow>, ticker: Ticker, arts: seq<Article>, now: int)
    ensures InsertArticles(table, ticker, arts, now).complete <==> forall a | a in arts :: DeriveThumb(a).Ok?
    decreases |arts|
  {
    if arts != [] {
      if DeriveThumb(arts[0]).Ok? {
        var a := arts[0];
        var next := if a.uuid in table then table else table[a.uuid := RowOf(ticker, a, DeriveThumb(a).value, now)];
        InsertArticlesCompleteIff(next, ticker, arts[1..], now);
        assert forall b | b in arts :: b == a || b in arts[1..];
      }
    }
  }

  /** Every row the loop adds belongs to the ticker, carries the insert time
      and is the row of an article of the batch carrying that uuid. */
  lemma {:induction false} InsertArticlesNewRows(table: map<string, NewsRow>, ticker: Ticker, arts: seq<Article>, now: int, uuid: string)
    requires uuid in InsertArticles(table, ticker, arts, now).table && uuid !in table
    ensures var row := InsertArticles(table, ticker, arts, now).table[uuid];
            row.ticker == ticker && row.date == now
            && exists a | a in arts :: a.uuid == uuid && DeriveThumb(a).Ok? && row == RowOf(ticker, a, DeriveThumb(a).value, now)
    decreases |arts|
  {
    var a := arts[0];
    var row := RowOf(ticker, a, DeriveThumb(a).value, now);
    var next := if a.uuid in table then table else table[a.uuid := row];
    if uuid in next {
      assert uuid == a.uuid;
      InsertArticlesKeepsRows(next, ticker, arts[1..], now, uuid);
    } else {
      InsertArticlesNewRows(next, ticker, arts[1..], now, uuid);
      var r := InsertArticles(table, ticker, arts, now).table[uuid];
      var b :| b in arts[1..] && b.uuid == uuid && DeriveThumb(b).Ok? && r == RowOf(ticker, b, DeriveThumb(b).value, now);
      assert b in arts;
    }
  }

  /** `DO NOTHING` makes the first write win within a batch too: an article
      the loop reaches, whose uuid is neither stored nor carried by an earlier
      article of the batch, leaves its own row under that uuid. */
  lemma {:induction false} InsertArticlesFirstWins(table: map<string, NewsRow>, ticker: Ticker, arts: seq<Article>, now: int, j: int)
    requires 0 <= j < FirstBad(arts)
    requires arts[j].uuid !in table
    requires forall k | 0 <= k < j :: arts[k].uuid != arts[j].uuid
    ensures var r := InsertArticles(table, ticker, arts, now).table;
            arts[j].uuid in r && r[arts[j].uuid] == RowOf(ticker, arts[j], DeriveThumb(arts[j]).value, now)
    decreases |arts|
  {
    var a := arts[0];
    var next := if a.uuid in table then table else table[a.uuid := RowOf(ticker, a, DeriveThumb(a).value, now)];
    assert InsertArticles(table, ticker, arts, now) == InsertArticles(next, ticker, arts[1..], now);
    if j == 0 {
      InsertArticlesKeepsRows(next, ticker, arts[1..], now, a.uuid);
    } else {
      assert arts[1..][j - 1] == arts[j];
      forall k | 0 <= k < j - 1
        ensures arts[1..][k].uuid != arts[1..][j - 1].uuid
      {
        assert arts[1..][k] == arts[k + 1];
      }
      InsertArticlesFirstWins(next, ticker, arts[1..], now, j - 1);
    }
  }

  /** An article that does not name the ticker among its related tickers is
      never stored for that ticker: every new row comes from a related article. */
  lemma InsertStockNewsStoresOnlyRelated(table: map<string, NewsRow>, ticker: Ticker, news: seq<Article>, now: int, uuid: string)
    requires uuid in InsertStockNews(table, ticker, news, now).table && uuid !in table
    ensures InsertStockNews(table, ticker, news, now).table[uuid].ticker == ticker
    ensures exists a | a in news && IsRelated(ticker, a) && a.uuid == uuid && DeriveThumb(a).Ok? ::
              InsertStockNews(table, ticker, news, now).table[uuid] == RowOf(ticker, a, DeriveThumb(a).value, now)
  {
    InsertArticlesNewRows(table, ticker, Related(ticker, news), now, uuid);
  }

  /** uuid is unique across tickers: an article related to two tickers is
      stored under the first ticker processed, and the second leaves it. */
  lemma FirstTickerKeepsArticle(table: map<string, NewsRow>, a: Article,
                                first: Ticker, news1: seq<Article>, now1: int,
                                second: Ticker, news2: seq<Article>, now2: int)
    requires a in news1 && IsRelated(first, a) && a.uuid !in table
    requires InsertStockNews(table, first, news1, now1).complete
    ensures var mid := InsertStockNews(table, first, news1, now1).table;
            var after := InsertStockNews(mid, second, news2, now2).table;
            a.uuid in mid && a.uuid in after && after[a.uuid] == mid[a.uuid] && after[a.uuid].ticker == first
  {
    var kept := Related(first, news1);
    var mid := InsertStockNews(table, first, news1, now1).table;
    InsertArticlesCompleteIff(table, first, kept, now1);
    InsertedKeys(table, first, kept, now1);
    var i :| 0 <= i < |kept| && kept[i] == a;
    assert a.uuid in UuidsBefore(kept, FirstBad(kept));
    InsertArticlesNewRows(table, first, kept, now1, a.uuid);
    InsertArticlesKeepsRows(mid, second, Related(second, news2), now2, a.uuid);
  }

  /** If an article's thumbnail raises, the rows of the articles before it
      stay written and nothing after it is inserted. */
  lemma {:induction false} InsertArticlesStopsAtBad(table: map<string, NewsRow>, ticker: Ticker, arts: seq<Article>, now: int)
    requires FirstBad(arts) < |arts|
    ensures InsertArticles(table, ticker, arts, now)
         == Inserted(InsertArticles(table, ticker, arts[..FirstBad(arts)], now).table, false)
    decreases |arts|
  {
    if DeriveThumb(arts[0]).Ok? {
      var a := arts[0];
      var next := if a.uuid in table then table else table[a.uuid := RowOf(ticker, a, DeriveThumb(a).value, now)];
      InsertArticlesStopsAtBad(next, ticker, arts[1..], now);
      assert arts[..FirstBad(arts)][1..] == arts[1..][..FirstBad(arts[1..])];
    } else {
      assert arts[..0] == [];
    }
  }
}

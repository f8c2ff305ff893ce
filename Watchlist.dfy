/** The watchlist file and the command-line helper that extends it: the
    ticker is appended unless already listed, after the user answers "Y". */
module Watchlist {
  import opened Common

  /** `stock in stocks`, then `stocks + [stock]` when it is not. */
  function AddIfAbsent(list: seq<Ticker>, stock: Ticker): seq<Ticker>
  {
    if stock in list then list else list + [stock]
  }

  predicate Distinct(list: seq<Ticker>)
  {
    forall i, j | 0 <= i < j < |list| :: list[i] != list[j]
  }

  /** A listed ticker leaves the list unchanged; otherwise it is appended
      after the existing tickers, in their order. Either way it is listed
      afterwards, nothing else is added, and the list grows by at most one. */
  lemma AddIfAbsentEffect(list: seq<Ticker>, stock: Ticker)
    ensures var after := AddIfAbsent(list, stock);
            && (stock in list ==> after == list)
            && (stock !in list ==> |after| == |list| + 1 && after[..|list|] == list && after[|list|] == stock)
            && stock in after
            && (forall t :: t in after <==> t in list || t == stock)
            && |list| <= |after| <= |list| + 1
  {
  }

  /** Adding the same ticker twice gives the list that adding it once gives. */
  lemma AddIfAbsentIdempotent(list: seq<Ticker>, stock: Ticker)
    ensures AddIfAbsent(AddIfAbsent(list, stock), stock) == AddIfAbsent(list, stock)
  {
  }

  /** A list without duplicates stays without duplicates. */
  lemma AddIfAbsentKeepsDistinct(list: seq<Ticker>, stock: Ticker)
    requires Distinct(list)
    ensures Distinct(AddIfAbsent(list, stock))
  {
  }

  /** Python's `str.isspace`, the characters `strip()` removes. */
  predicate IsSpace(c: char)
  {
    var n := c as int;
    (9 <= n <= 13) || (28 <= n <= 32) || n == 0x85 || n == 0xA0 || n == 0x1680
    || (0x2000 <= n <= 0x200A) || n == 0x2028 || n == 0x2029 || n == 0x202F
    || n == 0x205F || n == 0x3000
  }

  /** Where `strip()` starts cutting: the first non-space character. */
  function StripStart(s: string): (i: nat)
    ensures i <= |s|
    ensures forall k | 0 <= k < i :: IsSpace(s[k])
    ensures i < |s| ==> !IsSpace(s[i])
    decreases |s|
  {
    if s != [] && IsSpace(s[0]) then 1 + StripStart(s[1..]) else 0
  }

  /** Where `strip()` stops: just after the last non-space character at or after `from`. */
  function StripEnd(s: string, from: nat): (j: nat)
    requires from <= |s|
    ensures from <= j <= |s|
    ensures forall k | j <= k < |s| :: IsSpace(s[k])
    ensures j > from ==> !IsSpace(s[j - 1])
    decreases |s|
  {
    if |s| > from && IsSpace(s[|s| - 1]) then StripEnd(s[..|s| - 1], from) else |s|
  }

  /** `s.strip()`: the text between the leading and the trailing whitespace. */
  function Strip(s: string): string
  {
    var i := StripStart(s);
    s[i..StripEnd(s, i)]
  }

  /** The stripped text is a slice of the input with only whitespace cut
      away on either side, and it neither starts nor ends with whitespace. */
  lemma StripIsTrim(s: string)
    ensures var i, j := StripStart(s), StripEnd(s, StripStart(s));
            && Strip(s) == s[i..j]
            && (forall k | 0 <= k < i :: IsSpace(s[k]))
            && (forall k | j <= k < |s| :: IsSpace(s[k]))
            && (Strip(s) != [] ==> !IsSpace(Strip(s)[0]) && !IsSpace(Strip(s)[|Strip(s)| - 1]))
  {
  }

  /** `str.upper()` on ASCII letters. */
  function UpperChar(c: char): char
  {
    if 'a' <= c <= 'z' then (c as int - 'a' as int + 'A' as int) as char else c
  }

  function Upper(s: string): (r: string)
    ensures |r| == |s|
    ensures forall k | 0 <= k < |s| :: r[k] == UpperChar(s[k])
  {
    seq(|s|, k requires 0 <= k < |s| => UpperChar(s[k]))
  }

  /** The three answers `main` tells apart. */
  datatype Choice = AddStock | Quit | Invalid

  /** `input(...).strip().upper()` compared with 'Y' and 'N'. */
  function ParseAnswer(input: string): Choice
  {
    var answer := Upper(Strip(input));
    if answer == "Y" then AddStock else if answer == "N" then Quit else Invalid
  }

  /** The answer adds the ticker exactly when, without its surrounding
      whitespace, it is "y" or "Y", and exits exactly when it is "n" or "N". */
  lemma ParseAnswerIff(input: string)
    ensures ParseAnswer(input) == AddStock <==> Strip(input) == "y" || Strip(input) == "Y"
    ensures ParseAnswer(input) == Quit <==> Strip(input) == "n" || Strip(input) == "N"
  {
    var s := Strip(input);
    if |s| == 1 {
      assert Upper(s) == [UpperChar(s[0])];
      if s[0] == 'y' || s[0] == 'Y' {
        assert s == [s[0]];
      }
      if s[0] == 'n' || s[0] == 'N' {
        assert s == [s[0]];
      }
    }
  }

  /** What adding a ticker to the file did. */
  datatype AddResult = AlreadyListed | Added | Failed(error: Error)

  /** What one run of the helper did. */
  datatype PromptResult = Raised(error: Error) | Exited | InvalidAnswer | AddAttempted(result: AddResult)

  /** `data/stocks.csv`: whether it exists and its `ticker` column. */
  class WatchlistFile {
    var present: bool
    var tickers: seq<Ticker>

    constructor (present: bool, tickers: seq<Ticker>)
      ensures this.present == present && this.tickers == tickers
    {
      this.present, this.tickers := present, tickers;
    }

    /** `add_stock_to_csv`: read the list, and rewrite it with the ticker
        appended unless it is already listed. A missing file is reported and
        then fails to be read. */
    method AddStockToCsv(stock: Ticker) returns (result: AddResult)
      modifies this`tickers
      ensures !present ==> result == Failed(MissingWatchlist) && tickers == old(tickers)
      ensures present ==> tickers == AddIfAbsent(old(tickers), stock)
      ensures present ==> result == if stock in old(tickers) then AlreadyListed else Added
    {
      if !present {
        return Failed(MissingWatchlist);
      }
      var stocks := tickers;
      if stock in stocks {
        result := AlreadyListed;
      } else {
        tickers := stocks + [stock];
        result := Added;
      }
    }

    /** `main`: `argv[1]` is the ticker and `answer` is what the user typed.
        Without an argument, indexing `argv[1]` raises before the `None` test
        can run, and the file is left as it was. */
    method Prompt(argv: seq<string>, answer: string) returns (result: PromptResult)
      modifies this`tickers
      ensures |argv| < 2 ==> result == Raised(MissingArgument) && tickers == old(tickers)
      ensures |argv| >= 2 && ParseAnswer(answer) == Quit ==> result == Exited && tickers == old(tickers)
      ensures |argv| >= 2 && ParseAnswer(answer) == Invalid ==> result == InvalidAnswer && tickers == old(tickers)
      ensures |argv| >= 2 && ParseAnswer(answer) == AddStock ==>
                result.AddAttempted?
                && result.result == (if !present then Failed(MissingWatchlist)
                                     else if argv[1] in old(tickers) then AlreadyListed else Added)
                && tickers == (if present then AddIfAbsent(old(tickers), argv[1]) else old(tickers))
    {
      if |argv| < 2 {
        return Raised(MissingArgument);
      }
      var stock := argv[1];
      match ParseAnswer(answer)
      case AddStock =>
        var added := AddStockToCsv(stock);
        result := AddAttempted(added);
      case Quit =>
        result := Exited;
      case Invalid =>
        result := InvalidAnswer;
    }
  }
}

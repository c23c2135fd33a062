/**
 * Fetching the price history of every holding and stacking the results into
 * one flat table: `fetch_stock_history` and `DashboardPage.get_portfolio_data`
 * in main.py. The download itself is replaced by a `Market`: a map from a
 * ticker to the daily closes the data provider would return for the period.
 */
module History {
  import opened Results
  import opened Holdings

  /** One trading day of a downloaded history; dates are day numbers. */
  datatype PricePoint = PricePoint(date: int, close: real)

  /** One row of the stacked table: `Date`, `Close`, `Ticker` and `TotalValue`. */
  datatype Row = Row(ticker: string, date: int, close: real, totalValue: real)

  /**
   * Why the stacked table could not be built: a ticker without data (the
   * ValueError of `fetch_stock_history`), or nothing to concatenate (the
   * ValueError pandas raises for an empty list of frames).
   */
  datatype FetchError = NoData(ticker: string) | NothingToConcat

  /** What the provider returns per ticker; an unknown ticker returns no rows. */
  type Market = map<string, seq<PricePoint>>

  function Download(market: Market, ticker: string): seq<PricePoint> {
    if ticker in market then market[ticker] else []
  }

  predicate Available(market: Market, ticker: string) {
    Download(market, ticker) != []
  }

  /** `TotalValue` of one day: the close times the quantity held. */
  function Value(close: real, quantity: int): (v: real)
    ensures quantity == 0 ==> v == 0.0
    ensures quantity == 1 ==> v == close
    ensures close >= 0.0 && quantity >= 0 ==> v >= 0.0
  {
    close * quantity as real
  }

  /** The frame of one ticker: every history row tagged with the ticker and valued at `Close * quantity`. */
  function Valued(ticker: string, quantity: int, history: seq<PricePoint>): (rows: seq<Row>)
    ensures |rows| == |history|
    ensures forall i :: 0 <= i < |rows| ==> rows[i].ticker == ticker && rows[i].totalValue == Value(rows[i].close, quantity)
  {
    seq(|history|, i requires 0 <= i < |history| =>
      Row(ticker, history[i].date, history[i].close, Value(history[i].close, quantity)))
  }

  /** The frame keeps the provider's days in order: row `i` carries day `i`'s date and close. */
  lemma ValuedDays(ticker: string, quantity: int, history: seq<PricePoint>)
    ensures var rows := Valued(ticker, quantity, history);
      forall i :: 0 <= i < |rows| ==> rows[i].date == history[i].date && rows[i].close == history[i].close
  {
  }

  /** `fetch_stock_history`: the valued frame, or an error when the provider has no rows. */
  function FetchStockHistory(market: Market, ticker: string, quantity: int): (r: Result<seq<Row>, FetchError>)
    ensures r.Failure? <==> !Available(market, ticker)
    ensures r.Failure? ==> r.error == NoData(ticker)
    ensures r.Success? ==> |r.value| == |Download(market, ticker)| > 0
    ensures r.Success? ==> forall i :: 0 <= i < |r.value| ==>
      && r.value[i].ticker == ticker
      && r.value[i].date == Download(market, ticker)[i].date
      && r.value[i].close == Download(market, ticker)[i].close
      && r.value[i].totalValue == Value(r.value[i].close, quantity)
  {
    var history := Download(market, ticker);
    if history == [] then Failure(NoData(ticker)) else Success(Valued(ticker, quantity, history))
  }

  /** `ignore_index` concatenation of frames, in order. */
  function Concat(frames: seq<seq<Row>>): (rows: seq<Row>)
    ensures |frames| == 1 ==> rows == frames[0]
    ensures frames != [] && frames[|frames| - 1] != [] ==> rows != []
  {
    if frames == [] then []
    else
      assert |frames| == 1 ==> frames[..0] == [] && [] + frames[0] == frames[0];
      Concat(frames[..|frames| - 1]) + frames[|frames| - 1]
  }

  /**
   * The frames of `items` fetched in order; the first failing fetch ends the
   * loop with its error.
   */
  function FetchAll(market: Market, items: seq<Holding>): (r: Result<seq<seq<Row>>, FetchError>)
    ensures r.Success? ==> |r.value| == |items|
    ensures r.Failure? ==> r.error.NoData?
  {
    if items == [] then Success([])
    else
      match FetchAll(market, items[..|items| - 1])
      case Failure(e) => Failure(e)
      case Success(frames) =>
        var last := items[|items| - 1];
        match FetchStockHistory(market, last.ticker, last.quantity)
        case Failure(e) => Failure(e)
        case Success(frame) => Success(frames + [frame])
  }

  /** `get_portfolio_data`: all frames fetched, then concatenated. */
  function PortfolioData(market: Market, items: seq<Holding>): (r: Result<seq<Row>, FetchError>)
    ensures r == Failure(NothingToConcat) <==> items == []
    ensures r.Failure? && items != [] ==> r.error.NoData?
  {
    match FetchAll(market, items)
    case Failure(e) => Failure(e)
    case Success(frames) => if frames == [] then Failure(NothingToConcat) else Success(Concat(frames))
  }

  /** The loop of `get_portfolio_data`, fetching one holding after another. */
  method GetPortfolioData(market: Market, items: seq<Holding>) returns (r: Result<seq<Row>, FetchError>)
    ensures r == PortfolioData(market, items)
  {
    var frames: seq<seq<Row>> := [];
    var i := 0;
    while i < |items|
      invariant 0 <= i <= |items|
      invariant FetchAll(market, items[..i]) == Success(frames)
    {
      var item := items[i];
      var df := FetchStockHistory(market, item.ticker, item.quantity);
      assert items[..i + 1][..i] == items[..i];
      if df.Failure? {
        FailureSticks(market, items, i + 1);
        assert items[..|items|] == items;
        return Failure(df.error);
      }
      frames := frames + [df.value];
      i := i + 1;
    }
    assert items[..i] == items;
    if frames == [] {
      return Failure(NothingToConcat);
    }
    return Success(Concat(frames));
  }

  /** Once a prefix of the holdings fails, fetching more holdings keeps that error. */
  lemma {:induction false} FailureSticks(market: Market, items: seq<Holding>, n: nat)
    requires n <= |items| && FetchAll(market, items[..n]).Failure?
    ensures FetchAll(market, items) == FetchAll(market, items[..n])
    decreases |items| - n
  {
    if n < |items| {
      assert items[..n + 1][..n] == items[..n];
      FailureSticks(market, items, n + 1);
    } else {
      assert items[..n] == items;
    }
  }

  /** Fetching succeeds exactly when every holding's ticker has data; then there is one frame per holding. */
  lemma {:induction false} FetchAllSucceeds(market: Market, items: seq<Holding>)
    ensures FetchAll(market, items).Success? <==> forall i :: 0 <= i < |items| ==> Available(market, items[i].ticker)
    ensures FetchAll(market, items).Success? ==> |FetchAll(market, items).value| == |items|
    ensures FetchAll(market, items).Success? ==> forall i :: 0 <= i < |items| ==>
      FetchAll(market, items).value[i] == Valued(items[i].ticker, items[i].quantity, Download(market, items[i].ticker))
  {
    if items != [] {
      var front := items[..|items| - 1];
      FetchAllSucceeds(market, front);
      assert forall i :: 0 <= i < |front| ==> front[i] == items[i];
    }
  }

  /** A failure names the first holding, in list order, whose ticker has no data. */
  lemma {:induction false} FetchAllFirstFailure(market: Market, items: seq<Holding>)
    requires FetchAll(market, items).Failure?
    ensures exists k :: (0 <= k < |items| && !Available(market, items[k].ticker)
      && FetchAll(market, items).error == NoData(items[k].ticker)
      && forall j :: 0 <= j < k ==> Available(market, items[j].ticker))
  {
    var front := items[..|items| - 1];
    assert forall i :: 0 <= i < |front| ==> front[i] == items[i];
    if FetchAll(market, front).Failure? {
      FetchAllFirstFailure(market, front);
      var k :| 0 <= k < |front| && !Available(market, front[k].ticker)
        && FetchAll(market, front).error == NoData(front[k].ticker)
        && forall j :: 0 <= j < k ==> Available(market, front[j].ticker);
      assert items[k] == front[k];
    } else {
      FetchAllSucceeds(market, front);
      var k := |items| - 1;
      assert !Available(market, items[k].ticker);
    }
  }

  /** Every row of the concatenation comes from one of the frames, and every frame row is kept. */
  lemma {:induction false} ConcatRows(frames: seq<seq<Row>>, row: Row)
    ensures row in Concat(frames) <==> exists f :: 0 <= f < |frames| && row in frames[f]
  {
    if frames != [] {
      var front := frames[..|frames| - 1];
      ConcatRows(front, row);
      assert forall f :: 0 <= f < |front| ==> front[f] == frames[f];
    }
  }

  /** The concatenation of non-empty frames is non-empty. */
  lemma {:induction false} ConcatNonEmpty(frames: seq<seq<Row>>)
    requires frames != [] && frames[|frames| - 1] != []
    ensures Concat(frames) != []
  {
  }

  /**
   * `get_portfolio_data` is all or nothing: it yields a table exactly when the
   * list is non-empty and every ticker has data; otherwise it names the first
   * ticker without data or reports that there was nothing to concatenate.
   */
  lemma PortfolioDataAllOrNothing(market: Market, items: seq<Holding>)
    ensures PortfolioData(market, items).Success? <==>
      items != [] && forall i :: 0 <= i < |items| ==> Available(market, items[i].ticker)
    ensures PortfolioData(market, items) == Failure(NothingToConcat) <==> items == []
    ensures PortfolioData(market, items).Success? ==> PortfolioData(market, items).value != []
  {
    FetchAllSucceeds(market, items);
    if items != [] && FetchAll(market, items).Failure? {
      FetchAllFirstFailure(market, items);
    }
    if PortfolioData(market, items).Success? {
      var frames := FetchAll(market, items).value;
      var k := |items| - 1;
      assert frames[k] == Valued(items[k].ticker, items[k].quantity, Download(market, items[k].ticker));
      ConcatNonEmpty(frames);
    }
  }

  /**
   * Every row of a successful table belongs to a holding and is valued at its
   * close times that holding's quantity; every downloaded day of every holding
   * appears in the table.
   */
  lemma PortfolioRowsValued(market: Market, items: seq<Holding>)
    requires PortfolioData(market, items).Success?
    ensures forall row :: row in PortfolioData(market, items).value ==>
      exists i :: 0 <= i < |items| && ValuedFor(row, items[i])
    ensures forall i, d :: 0 <= i < |items| && 0 <= d < |Download(market, items[i].ticker)| ==>
      HoldingRow(market, items[i], d) in PortfolioData(market, items).value
  {
    forall row | row in PortfolioData(market, items).value
      ensures exists i :: 0 <= i < |items| && ValuedFor(row, items[i])
    {
      RowFromHolding(market, items, row);
    }
    forall i, d | 0 <= i < |items| && 0 <= d < |Download(market, items[i].ticker)|
      ensures HoldingRow(market, items[i], d) in PortfolioData(market, items).value
    {
      HoldingRowKept(market, items, i, d);
    }
  }

  /** `row` is a row of holding `h`'s frame: its ticker, valued at `Close * quantity`. */
  predicate ValuedFor(row: Row, h: Holding) {
    row.ticker == h.ticker && row.totalValue == Value(row.close, h.quantity)
  }

  /** The row the `d`-th downloaded day of holding `h` contributes. */
  function HoldingRow(market: Market, h: Holding, d: nat): Row
    requires d < |Download(market, h.ticker)|
  {
    var p := Download(market, h.ticker)[d];
    Row(h.ticker, p.date, p.close, Value(p.close, h.quantity))
  }

  lemma RowFromHolding(market: Market, items: seq<Holding>, row: Row)
    requires PortfolioData(market, items).Success?
    requires row in PortfolioData(market, items).value
    ensures exists i :: 0 <= i < |items| && ValuedFor(row, items[i])
  {
    FetchAllSucceeds(market, items);
    var frames := FetchAll(market, items).value;
    ConcatRows(frames, row);
    var f :| 0 <= f < |frames| && row in frames[f];
    assert frames[f] == Valued(items[f].ticker, items[f].quantity, Download(market, items[f].ticker));
    InValued(items[f], Download(market, items[f].ticker), row);
  }

  lemma HoldingRowKept(market: Market, items: seq<Holding>, i: nat, d: nat)
    requires PortfolioData(market, items).Success?
    requires i < |items| && d < |Download(market, items[i].ticker)|
    ensures HoldingRow(market, items[i], d) in PortfolioData(market, items).value
  {
    FetchAllSucceeds(market, items);
    var frames := FetchAll(market, items).value;
    assert frames[i][d] == HoldingRow(market, items[i], d);
    ConcatRows(frames, HoldingRow(market, items[i], d));
  }

  lemma InValued(h: Holding, history: seq<PricePoint>, row: Row)
    requires row in Valued(h.ticker, h.quantity, history)
    ensures ValuedFor(row, h)
  {
  }
}

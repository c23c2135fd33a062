/**
 * `DashboardPage.update_dashboard` and `load_and_display_data` in main.py:
 * what the dashboard shows for the current portfolio list, and how the
 * figures relate back to the holdings.
 */
module Dashboard {
  import opened Results
  import opened Holdings
  import opened History
  import opened Grouping
  import opened Metrics

  /**
   * What the dashboard can show: the empty-portfolio message, nothing at all
   * (the grid cleared and never refilled), the error message, or the charts.
   */
  datatype View = EmptyPortfolio | Blank | LoadError(error: FetchError) | Charts(report: Report)

  /**
   * The refresh as main.py writes it. An empty list shows the empty-portfolio
   * message; otherwise the grid is cleared and the stacked table is loaded. A
   * table shows the charts. A failure is meant to show the error, but the
   * deferred `show_error(e)` runs after Python has unbound `e` at the end of
   * the `except` block, so it raises instead and the cleared grid stays blank.
   */
  function UpdateDashboard(market: Market, items: seq<Holding>): (v: View)
    ensures v.EmptyPortfolio? <==> items == []
    ensures v.Charts? <==> items != [] && forall i :: 0 <= i < |items| ==> Available(market, items[i].ticker)
    ensures v.Blank? <==> exists k :: 0 <= k < |items| && !Available(market, items[k].ticker)
    ensures !v.LoadError?
  {
    if items == [] then EmptyPortfolio
    else
      PortfolioDataAllOrNothing(market, items);
      match PortfolioData(market, items)
      case Failure(_) => Blank
      case Success(rows) =>
        match DisplayCharts(rows)
        case Some(report) => Charts(report)
        case None => assert false; EmptyPortfolio
  }

  /**
   * The refresh as `load_and_display_data` evidently intends it: a failed
   * load shows the error, which names the first holding without data.
   */
  function UpdateDashboardIntended(market: Market, items: seq<Holding>): (v: View)
    ensures v.EmptyPortfolio? <==> items == []
    ensures v.Charts? <==> items != [] && forall i :: 0 <= i < |items| ==> Available(market, items[i].ticker)
    ensures v.LoadError? <==> exists k :: 0 <= k < |items| && !Available(market, items[k].ticker)
    ensures v.LoadError? ==> exists k :: (0 <= k < |items| && v.error == NoData(items[k].ticker)
      && !Available(market, items[k].ticker)
      && forall j :: 0 <= j < k ==> Available(market, items[j].ticker))
    ensures !v.Blank?
  {
    if items == [] then EmptyPortfolio
    else
      PortfolioDataAllOrNothing(market, items);
      match PortfolioData(market, items)
      case Failure(e) =>
        FetchAllFirstFailure(market, items);
        LoadError(e)
      case Success(rows) =>
        match DisplayCharts(rows)
        case Some(report) => Charts(report)
        case None => assert false; EmptyPortfolio
  }

  /**
   * The two refreshes differ only on a failed load: where the intended one
   * names the error, the one as written leaves the dashboard blank.
   */
  lemma BlankInsteadOfError(market: Market, items: seq<Holding>)
    ensures UpdateDashboard(market, items).Blank? <==> UpdateDashboardIntended(market, items).LoadError?
    ensures !UpdateDashboard(market, items).Blank? ==>
      UpdateDashboard(market, items) == UpdateDashboardIntended(market, items)
  {
  }

  /** A one-holding portfolio whose ticker has no history: blank, not an error. */
  lemma MissingTickerLeavesBlank()
    ensures UpdateDashboard(map[], [Holding("XYZ", 1)]) == Blank
    ensures UpdateDashboardIntended(map[], [Holding("XYZ", 1)]) == LoadError(NoData("XYZ"))
  {
    var items := [Holding("XYZ", 1)];
    assert !Available(map[], items[0].ticker);
  }

  /** A shown report is the one `display_charts` computes for the loaded table. */
  lemma ChartsShowLoadedTable(market: Market, items: seq<Holding>)
    requires UpdateDashboard(market, items).Charts?
    ensures PortfolioData(market, items).Success?
    ensures DisplayCharts(PortfolioData(market, items).value) == Some(UpdateDashboard(market, items).report)
  {
  }

  lemma {:induction false} RowsOfSplits(a: seq<Row>, b: seq<Row>, ticker: string)
    ensures RowsOf(a + b, ticker) == RowsOf(a, ticker) + RowsOf(b, ticker)
  {
    if b != [] {
      assert (a + b)[..|a + b| - 1] == a + b[..|b| - 1];
      RowsOfSplits(a, b[..|b| - 1], ticker);
    } else {
      assert a + b == a;
    }
  }

  lemma {:induction false} RowsOfAll(g: seq<Row>, ticker: string)
    requires forall j :: 0 <= j < |g| ==> g[j].ticker == ticker
    ensures RowsOf(g, ticker) == g
  {
    if g != [] {
      var n := |g| - 1;
      RowsOfAll(g[..n], ticker);
      assert g[..n] + [g[n]] == g;
    }
  }

  lemma {:induction false} RowsOfNone(g: seq<Row>, ticker: string)
    requires forall j :: 0 <= j < |g| ==> g[j].ticker != ticker
    ensures RowsOf(g, ticker) == []
  {
    if g != [] {
      RowsOfNone(g[..|g| - 1], ticker);
    }
  }

  /** Every row of frame `k` carries ticker `tickers[k]`. */
  ghost predicate FramesOf(frames: seq<seq<Row>>, tickers: seq<string>) {
    |frames| == |tickers|
    && forall k, j :: 0 <= k < |frames| && 0 <= j < |frames[k]| ==> frames[k][j].ticker == tickers[k]
  }

  lemma {:induction false} GroupAbsent(frames: seq<seq<Row>>, tickers: seq<string>, ticker: string)
    requires FramesOf(frames, tickers) && ticker !in tickers
    ensures RowsOf(Concat(frames), ticker) == []
  {
    if frames != [] {
      var n := |frames| - 1;
      GroupAbsent(frames[..n], tickers[..n], ticker);
      RowsOfSplits(Concat(frames[..n]), frames[n], ticker);
      assert tickers[n] in tickers;
      RowsOfNone(frames[n], ticker);
    }
  }

  /** With distinct tickers, the group of frame `i`'s ticker in the stacked frames is frame `i` itself. */
  lemma {:induction false} GroupOfFrames(frames: seq<seq<Row>>, tickers: seq<string>, i: nat)
    requires FramesOf(frames, tickers) && i < |frames|
    requires forall j, k :: 0 <= j < k < |tickers| ==> tickers[j] != tickers[k]
    ensures RowsOf(Concat(frames), tickers[i]) == frames[i]
  {
    var n := |frames| - 1;
    var t := tickers[i];
    RowsOfSplits(Concat(frames[..n]), frames[n], t);
    if i < n {
      assert tickers[n] != t;
      RowsOfNone(frames[n], t);
      GroupOfFrames(frames[..n], tickers[..n], i);
      assert frames[i] + [] == frames[i];
    } else {
      assert t !in tickers[..n];
      GroupAbsent(frames[..n], tickers[..n], t);
      RowsOfAll(frames[n], t);
      assert [] + frames[n] == frames[n];
    }
  }

  /** With unique tickers, a holding's group in the stacked table is exactly its own frame. */
  lemma GroupOfFetched(market: Market, items: seq<Holding>, i: nat)
    requires UniqueTickers(items) && FetchAll(market, items).Success? && i < |items|
    ensures RowsOf(Concat(FetchAll(market, items).value), items[i].ticker)
         == Valued(items[i].ticker, items[i].quantity, Download(market, items[i].ticker))
  {
    var frames: seq<seq<Row>> := FetchAll(market, items).value;
    FetchAllSucceeds(market, items);
    var tickers: seq<string> := seq(|items|, k requires 0 <= k < |items| => items[k].ticker);
    forall k: int, j: int | 0 <= k < |frames| && 0 <= j < |frames[k]| ensures frames[k][j].ticker == tickers[k] {
      InValued(items[k], Download(market, items[k].ticker), frames[k][j]);
    }
    GroupOfFrames(frames, tickers, i);
  }

  /** Valuing both days at the same quantity leaves the return of the closes, unless the quantity is zero. */
  lemma ValueReturn(from: real, to: real, quantity: int)
    ensures Percent(Value(from, quantity), Value(to, quantity))
         == if quantity == 0 then 0.0 else Percent(from, to)
  {
    if quantity != 0 {
      PercentScaleFree(from, to, quantity as real);
    }
  }

  /** A frame's return compares closes only: the quantity cancels out unless it is zero. */
  lemma FrameReturn(h: Holding, history: seq<PricePoint>)
    requires history != []
    ensures var g := Valued(h.ticker, h.quantity, history);
      TickerReturn(g) == if h.quantity == 0 then 0.0 else Percent(g[Earliest(g)].close, g[Latest(g)].close)
  {
    var g := Valued(h.ticker, h.quantity, history);
    var e, l := Earliest(g), Latest(g);
    assert g[e].totalValue == Value(g[e].close, h.quantity);
    assert g[l].totalValue == Value(g[l].close, h.quantity);
    ValueReturn(g[e].close, g[l].close, h.quantity);
  }

  /**
   * With unique tickers, a holding's entry in the performer ranking is the
   * price return of its own history between its earliest and latest day, the
   * same whatever non-zero quantity is held; a zero quantity ranks at 0.
   */
  lemma PerformanceIsPriceReturn(market: Market, items: seq<Holding>, i: nat)
    requires UniqueTickers(items) && PortfolioData(market, items).Success? && i < |items|
    ensures var g := RowsOf(PortfolioData(market, items).value, items[i].ticker);
      && g == Valued(items[i].ticker, items[i].quantity, Download(market, items[i].ticker))
      && g != []
      && TickerReturn(g) == if items[i].quantity == 0 then 0.0 else Percent(g[Earliest(g)].close, g[Latest(g)].close)
    ensures var table := PortfolioData(market, items).value;
      var g, perf := RowsOf(table, items[i].ticker), Performance(table);
      forall j :: 0 <= j < |perf| && perf[j].ticker == items[i].ticker ==>
        perf[j].pct == if items[i].quantity == 0 then 0.0 else Percent(g[Earliest(g)].close, g[Latest(g)].close)
  {
    PortfolioDataAllOrNothing(market, items);
    GroupOfFetched(market, items, i);
    FrameReturn(items[i], Download(market, items[i].ticker));
    var table := PortfolioData(market, items).value;
    var perf := Performance(table);
    forall j | 0 <= j < |perf| && perf[j].ticker == items[i].ticker
      ensures perf[j].pct == TickerReturn(RowsOf(table, items[i].ticker))
    {
    }
  }

  /** A ticker's share of the pie is the sum of its rows, which is exactly its own frame's total. */
  lemma {:induction false} SumForIsGroupTotal(rows: seq<Row>, ticker: string)
    ensures SumFor(rows, TickerOf, ticker) == Total(RowsOf(rows, ticker))
  {
    if rows != [] {
      var front := rows[..|rows| - 1];
      SumForIsGroupTotal(front, ticker);
      var last := rows[|rows| - 1];
      var tail := if last.ticker == ticker then [last] else [];
      assert RowsOf(rows, ticker) == RowsOf(front, ticker) + tail;
      TotalSplits(RowsOf(front, ticker), tail);
    }
  }

  lemma {:induction false} TotalSplits(a: seq<Row>, b: seq<Row>)
    ensures Total(a + b) == Total(a) + Total(b)
  {
    if b != [] {
      assert (a + b)[..|a + b| - 1] == a + b[..|b| - 1];
      TotalSplits(a, b[..|b| - 1]);
    } else {
      assert a + b == a;
    }
  }

  /** With unique tickers, a holding's composition sum is the total of its own frame over all its days. */
  lemma CompositionOfHolding(market: Market, items: seq<Holding>, i: nat)
    requires UniqueTickers(items) && PortfolioData(market, items).Success? && i < |items|
    ensures SumFor(PortfolioData(market, items).value, TickerOf, items[i].ticker)
         == Total(Valued(items[i].ticker, items[i].quantity, Download(market, items[i].ticker)))
  {
    PortfolioDataAllOrNothing(market, items);
    GroupOfFetched(market, items, i);
    SumForIsGroupTotal(PortfolioData(market, items).value, items[i].ticker);
  }
}

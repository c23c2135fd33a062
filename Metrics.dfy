/**
 * The figures `DashboardPage.display_charts` in main.py derives from the
 * stacked table: daily change, daily and overall return of the portfolio
 * series, and each ticker's start-to-end return with the top and flop
 * performer. Every percentage is zero-guarded as in the source.
 */
module Metrics {
  import opened Results
  import opened Ordering
  import opened History
  import opened Grouping

  /** `((to / from) - 1) * 100`, or 0 when `from` is zero. */
  function Percent(from: real, to: real): (p: real)
    ensures from == 0.0 ==> p == 0.0
    ensures from != 0.0 ==> (p == 0.0 <==> to == from)
  {
    if from != 0.0 then
      assert to / from == 1.0 ==> to == from;
      (to / from - 1.0) * 100.0
    else 0.0
  }

  /** A non-zero percentage gets back the end value from the start value. */
  lemma PercentReconstructs(from: real, to: real)
    requires from != 0.0
    ensures to == from * (1.0 + Percent(from, to) / 100.0)
  {
  }

  /** From a positive start the percentage is positive, zero or negative exactly as the value rose, stayed or fell. */
  lemma PercentSign(from: real, to: real)
    requires from > 0.0
    ensures Percent(from, to) > 0.0 <==> to > from
    ensures Percent(from, to) == 0.0 <==> to == from
  {
    PercentReconstructs(from, to);
  }

  /** Scaling both values by the same non-zero factor leaves the percentage unchanged. */
  lemma PercentScaleFree(from: real, to: real, q: real)
    requires q != 0.0
    ensures Percent(from * q, to * q) == Percent(from, to)
  {
    if from != 0.0 {
      assert (to * q) / (from * q) == to / from;
    }
  }

  /** The values of the series, oldest first. */
  function Values<K>(gs: seq<Group<K>>): seq<real> {
    seq(|gs|, i requires 0 <= i < |gs| => gs[i].total)
  }

  /** `total_values.diff().iloc[-1]`, or 0 with fewer than two dates. */
  function DailyChange(vals: seq<real>): (c: real)
    ensures |vals| < 2 ==> c == 0.0
    ensures |vals| >= 2 ==> vals[|vals| - 2] + c == vals[|vals| - 1]
  {
    if |vals| >= 2 then vals[|vals| - 1] - vals[|vals| - 2] else 0.0
  }

  /** The last day's percentage change, or 0 with fewer than two dates. */
  function DailyPercent(vals: seq<real>): (p: real)
    ensures |vals| < 2 || vals[|vals| - 2] == 0.0 ==> p == 0.0
    ensures |vals| >= 2 && vals[|vals| - 2] != 0.0 ==> (p == 0.0 <==> vals[|vals| - 1] == vals[|vals| - 2])
  {
    if |vals| >= 2 then Percent(vals[|vals| - 2], vals[|vals| - 1]) else 0.0
  }

  /** The percentage change from the first to the last date, or 0 with fewer than two dates. */
  function OverallReturn(vals: seq<real>): (p: real)
    ensures |vals| < 2 || vals[0] == 0.0 ==> p == 0.0
    ensures |vals| >= 2 && vals[0] != 0.0 ==> (p == 0.0 <==> vals[|vals| - 1] == vals[0])
  {
    if |vals| >= 2 then Percent(vals[0], vals[|vals| - 1]) else 0.0
  }

  /**
   * The absolute and the percentage daily change describe the same move:
   * with a non-zero previous value the change is that value times the
   * percentage, and from a positive previous value they have the same sign
   * (the label is green exactly when the percentage is not negative).
   */
  lemma DailyChangeMatchesPercent(vals: seq<real>)
    requires |vals| >= 2 && vals[|vals| - 2] != 0.0
    ensures DailyChange(vals) == vals[|vals| - 2] * DailyPercent(vals) / 100.0
    ensures vals[|vals| - 2] > 0.0 ==> (DailyChange(vals) >= 0.0 <==> DailyPercent(vals) >= 0.0)
  {
    var prev, last := vals[|vals| - 2], vals[|vals| - 1];
    PercentReconstructs(prev, last);
    if prev > 0.0 {
      PercentSign(prev, last);
    }
  }

  /** Without two dates there is no move to report. */
  lemma ShortSeriesIsFlat(vals: seq<real>)
    requires |vals| < 2
    ensures DailyChange(vals) == 0.0 && DailyPercent(vals) == 0.0 && OverallReturn(vals) == 0.0
  {
  }

  /** Over exactly two dates the overall return is the daily percentage. */
  lemma TwoDatesOverallIsDaily(vals: seq<real>)
    requires |vals| == 2
    ensures OverallReturn(vals) == DailyPercent(vals)
  {
  }

  /** The overall return rebuilds the last value from the first, when the first is not zero. */
  lemma OverallReconstructs(vals: seq<real>)
    requires |vals| >= 2 && vals[0] != 0.0
    ensures vals[|vals| - 1] == vals[0] * (1.0 + OverallReturn(vals) / 100.0)
  {
    PercentReconstructs(vals[0], vals[|vals| - 1]);
  }

  /** The rows of one ticker, in table order: a group of `groupby("Ticker")`. */
  function RowsOf(rows: seq<Row>, ticker: string): (g: seq<Row>)
    ensures forall r :: r in g <==> r in rows && r.ticker == ticker
  {
    if rows == [] then []
    else
      var last := rows[|rows| - 1];
      RowsOf(rows[..|rows| - 1], ticker) + (if last.ticker == ticker then [last] else [])
  }

  /**
   * A group holds each row of its ticker as often as the table does, and no
   * other row: grouping neither drops nor duplicates rows.
   */
  lemma {:induction false} RowsOfCounts(rows: seq<Row>, ticker: string)
    ensures forall r :: multiset(RowsOf(rows, ticker))[r] == if r.ticker == ticker then multiset(rows)[r] else 0
  {
    if rows != [] {
      var last := rows[|rows| - 1];
      RowsOfCounts(rows[..|rows| - 1], ticker);
      assert rows == rows[..|rows| - 1] + [last];
    }
  }

  /**
   * The row `sort_values("Date").iloc[0]` picks: the earliest date, the first
   * such row among equal dates.
   */
  function Earliest(g: seq<Row>): (i: nat)
    requires g != []
    ensures i < |g|
    ensures forall j :: 0 <= j < |g| ==> g[i].date <= g[j].date
    ensures forall j :: 0 <= j < i ==> g[j].date > g[i].date
  {
    if |g| == 1 then 0
    else
      var i := Earliest(g[..|g| - 1]);
      if g[|g| - 1].date < g[i].date then |g| - 1 else i
  }

  /**
   * The row `sort_values("Date").iloc[-1]` picks: the latest date, the last
   * such row among equal dates.
   */
  function Latest(g: seq<Row>): (i: nat)
    requires g != []
    ensures i < |g|
    ensures forall j :: 0 <= j < |g| ==> g[j].date <= g[i].date
    ensures forall j :: i < j < |g| ==> g[j].date < g[i].date
  {
    if |g| == 1 then 0
    else
      var i := Latest(g[..|g| - 1]);
      if g[|g| - 1].date >= g[i].date then |g| - 1 else i
  }

  /** A ticker's return over the period: its latest value against its earliest, zero-guarded. */
  function TickerReturn(g: seq<Row>): (p: real)
    requires g != []
    ensures g[Earliest(g)].totalValue == 0.0 ==> p == 0.0
    ensures g[Earliest(g)].totalValue != 0.0 ==> (p == 0.0 <==> g[Latest(g)].totalValue == g[Earliest(g)].totalValue)
  {
    Percent(g[Earliest(g)].totalValue, g[Latest(g)].totalValue)
  }

  /** One entry of `perf_dict`. */
  datatype Perf = Perf(ticker: string, pct: real)

  function Tickers(rows: seq<Row>): (ts: seq<string>)
    ensures Increasing(ts, StrLess)
    ensures forall t :: t in ts <==> exists r :: r in rows && r.ticker == t
  {
    StrLessIsStrictTotalOrder();
    var ts := SortedKeys(Column(rows, TickerOf), StrLess);
    forall t ensures t in ts <==> exists r :: r in rows && r.ticker == t {
      ColumnHolds(rows, TickerOf, t);
    }
    ts
  }

  /** `perf_dict` in insertion order: every ticker of the table, ascending, with its return. */
  function Performance(rows: seq<Row>): (perf: seq<Perf>)
    ensures |perf| == |Tickers(rows)|
    ensures forall i :: 0 <= i < |perf| ==> perf[i].ticker == Tickers(rows)[i]
    ensures forall i, j :: 0 <= i < j < |perf| ==> StrLess(perf[i].ticker, perf[j].ticker)
  {
    var ts := Tickers(rows);
    seq(|ts|, i requires 0 <= i < |ts| =>
      assert ts[i] in ts;
      Perf(ts[i], TickerReturn(RowsOf(rows, ts[i]))))
  }

  /** The loop that fills `perf_dict`, one ticker group after another. */
  method PerformanceTable(rows: seq<Row>) returns (perf: seq<Perf>)
    ensures perf == Performance(rows)
  {
    var ts := Tickers(rows);
    perf := [];
    var i := 0;
    while i < |ts|
      invariant 0 <= i <= |ts|
      invariant perf == Performance(rows)[..i]
    {
      var group := RowsOf(rows, ts[i]);
      assert ts[i] in ts;
      var start := Earliest(group);
      var end := Latest(group);
      var pct := Percent(group[start].totalValue, group[end].totalValue);
      perf := perf + [Perf(ts[i], pct)];
      i := i + 1;
    }
  }

  function PerfTickers(perf: seq<Perf>): seq<string> {
    seq(|perf|, i requires 0 <= i < |perf| => perf[i].ticker)
  }

  /** The tickers of the performance table are exactly those of the stacked table, each once, ascending. */
  lemma PerformanceCoversTickers(rows: seq<Row>)
    ensures forall t :: t in PerfTickers(Performance(rows)) <==> exists r :: r in rows && r.ticker == t
    ensures Increasing(PerfTickers(Performance(rows)), StrLess)
  {
    assert PerfTickers(Performance(rows)) == Tickers(rows);
  }

  /** Python's `max(perf_dict, key=perf_dict.get)`: the first entry holding the largest value. */
  function ArgMax(perf: seq<Perf>): (i: nat)
    requires perf != []
    ensures i < |perf|
    ensures forall j :: 0 <= j < |perf| ==> perf[j].pct <= perf[i].pct
    ensures forall j :: 0 <= j < i ==> perf[j].pct < perf[i].pct
  {
    if |perf| == 1 then 0
    else
      var i := ArgMax(perf[..|perf| - 1]);
      if perf[|perf| - 1].pct > perf[i].pct then |perf| - 1 else i
  }

  /** Python's `min(perf_dict, key=perf_dict.get)`: the first entry holding the smallest value. */
  function ArgMin(perf: seq<Perf>): (i: nat)
    requires perf != []
    ensures i < |perf|
    ensures forall j :: 0 <= j < |perf| ==> perf[i].pct <= perf[j].pct
    ensures forall j :: 0 <= j < i ==> perf[i].pct < perf[j].pct
  {
    if |perf| == 1 then 0
    else
      var i := ArgMin(perf[..|perf| - 1]);
      if perf[|perf| - 1].pct < perf[i].pct then |perf| - 1 else i
  }

  /** The top and flop performer shown on the dashboard. */
  datatype Performers = Performers(top: string, topPct: real, flop: string, flopPct: real)

  /** The best and worst entry of `perf_dict`, or `("n/a", 0, "n/a", 0)` when it is empty. */
  function TopFlop(perf: seq<Perf>): (r: Performers)
    ensures perf == [] ==> r == Performers("n/a", 0.0, "n/a", 0.0)
    ensures perf != [] ==> forall j :: 0 <= j < |perf| ==> r.flopPct <= perf[j].pct <= r.topPct
    ensures perf != [] ==> exists i :: (0 <= i < |perf| && perf[i] == Perf(r.top, r.topPct)
      && forall j :: 0 <= j < i ==> perf[j].pct < r.topPct)
    ensures perf != [] ==> exists i :: (0 <= i < |perf| && perf[i] == Perf(r.flop, r.flopPct)
      && forall j :: 0 <= j < i ==> r.flopPct < perf[j].pct)
  {
    if perf == [] then Performers("n/a", 0.0, "n/a", 0.0)
    else
      var top := perf[ArgMax(perf)];
      var flop := perf[ArgMin(perf)];
      Performers(top.ticker, top.pct, flop.ticker, flop.pct)
  }

  /** Everything the information panel and the two charts show. */
  datatype Report = Report(
    composition: seq<Group<string>>,
    series: seq<Group<int>>,
    dailyChange: real,
    dailyPercent: real,
    currentTotal: real,
    overallReturn: real,
    performers: Performers)

  /**
   * `display_charts`: the report for a stacked table, or None for an empty
   * table, on which reading the last daily total fails.
   */
  function DisplayCharts(rows: seq<Row>): (r: Option<Report>)
    ensures r.None? <==> rows == []
  {
    if rows == [] then None
    else
      var series := DailyTotals(rows);
      var vals := Values(series);
      assert rows[0].date in Keys(series);
      Some(Report(
        Composition(rows), series,
        DailyChange(vals), DailyPercent(vals),
        vals[|vals| - 1], OverallReturn(vals),
        TopFlop(Performance(rows))))
  }
}

/**
 * The two `groupby(...).sum()` aggregations of `DashboardPage.display_charts`
 * in main.py: `TotalValue` summed per ticker (the pie chart's composition)
 * and per date (the portfolio series). Groups come out in ascending key
 * order, as pandas sorts group keys.
 */
module Grouping {
  import opened Ordering
  import opened History

  /** One group of a `groupby(key)["TotalValue"].sum()`: its key and its sum. */
  datatype Group<K> = Group(key: K, total: real)

  function TickerOf(row: Row): string { row.ticker }

  function DateOf(row: Row): int { row.date }

  /** The key column of the table. */
  function Column<K>(rows: seq<Row>, key: Row -> K): (c: seq<K>)
  {
    seq(|rows|, i requires 0 <= i < |rows| => key(rows[i]))
  }

  lemma ColumnHolds<K>(rows: seq<Row>, key: Row -> K, k: K)
    ensures k in Column(rows, key) <==> exists r :: r in rows && key(r) == k
  {
    if k in Column(rows, key) {
      var i :| 0 <= i < |rows| && Column(rows, key)[i] == k;
      assert rows[i] in rows;
    }
    if r :| r in rows && key(r) == k {
      var i :| 0 <= i < |rows| && rows[i] == r;
      assert Column(rows, key)[i] == k;
    }
  }

  /** `TotalValue` summed over the rows whose key is `k`. */
  function SumFor<K(==)>(rows: seq<Row>, key: Row -> K, k: K): real
  {
    if rows == [] then 0.0
    else
      var last := rows[|rows| - 1];
      SumFor(rows[..|rows| - 1], key, k) + (if key(last) == k then last.totalValue else 0.0)
  }

  /** `TotalValue` summed over the whole table. */
  function Total(rows: seq<Row>): real
  {
    if rows == [] then 0.0 else Total(rows[..|rows| - 1]) + rows[|rows| - 1].totalValue
  }

  /** The groups for the keys `ks`, in that order. */
  function Totals<K(==)>(ks: seq<K>, rows: seq<Row>, key: Row -> K): (gs: seq<Group<K>>)
  {
    seq(|ks|, i requires 0 <= i < |ks| => Group(ks[i], SumFor(rows, key, ks[i])))
  }

  function Keys<K>(gs: seq<Group<K>>): seq<K> {
    seq(|gs|, i requires 0 <= i < |gs| => gs[i].key)
  }

  function Sums<K>(gs: seq<Group<K>>): real {
    if gs == [] then 0.0 else Sums(gs[..|gs| - 1]) + gs[|gs| - 1].total
  }

  /** `data.groupby("Ticker")["TotalValue"].sum()`. */
  function Composition(rows: seq<Row>): (gs: seq<Group<string>>)
    ensures Increasing(Keys(gs), StrLess)
    ensures forall t :: t in Keys(gs) <==> exists r :: r in rows && r.ticker == t
    ensures forall i :: 0 <= i < |gs| ==> gs[i].total == SumFor(rows, TickerOf, gs[i].key)
  {
    StrLessIsStrictTotalOrder();
    var ks := SortedKeys(Column(rows, TickerOf), StrLess);
    var gs := Totals(ks, rows, TickerOf);
    assert Keys(gs) == ks;
    forall t ensures t in ks <==> exists r :: r in rows && r.ticker == t {
      ColumnHolds(rows, TickerOf, t);
    }
    gs
  }

  /** `data.groupby("Date")["TotalValue"].sum()`: the portfolio value per day, oldest first. */
  function DailyTotals(rows: seq<Row>): (gs: seq<Group<int>>)
    ensures Increasing(Keys(gs), IntLess)
    ensures forall d :: d in Keys(gs) <==> exists r :: r in rows && r.date == d
    ensures forall i :: 0 <= i < |gs| ==> gs[i].total == SumFor(rows, DateOf, gs[i].key)
  {
    IntLessIsStrictTotalOrder();
    var ks := SortedKeys(Column(rows, DateOf), IntLess);
    var gs := Totals(ks, rows, DateOf);
    assert Keys(gs) == ks;
    forall d ensures d in ks <==> exists r :: r in rows && r.date == d {
      ColumnHolds(rows, DateOf, d);
    }
    gs
  }

  /** How much of `v` lands on the groups `ks` when one row with key `k` and value `v` is added. */
  function Share<K(==)>(ks: seq<K>, k: K, v: real): real {
    if ks == [] then 0.0 else Share(ks[..|ks| - 1], k, v) + (if ks[|ks| - 1] == k then v else 0.0)
  }

  lemma {:induction false} ShareAbsent<K>(ks: seq<K>, k: K, v: real)
    requires k !in ks
    ensures Share(ks, k, v) == 0.0
  {
    if ks != [] {
      ShareAbsent(ks[..|ks| - 1], k, v);
    }
  }

  /** With distinct keys, an added row lands on exactly one group. */
  lemma {:induction false} ShareOnce<K>(ks: seq<K>, k: K, v: real)
    requires Distinct(ks) && k in ks
    ensures Share(ks, k, v) == v
  {
    var front := ks[..|ks| - 1];
    assert Distinct(front);
    if ks[|ks| - 1] == k {
      assert k !in front;
      ShareAbsent(front, k, v);
    } else {
      assert k in front;
      ShareOnce(front, k, v);
    }
  }

  /** Adding a row to the table adds its share to the group sums. */
  lemma {:induction false} SumsStep<K>(ks: seq<K>, rows: seq<Row>, key: Row -> K)
    requires rows != []
    ensures var last := rows[|rows| - 1];
      Sums(Totals(ks, rows, key))
      == Sums(Totals(ks, rows[..|rows| - 1], key)) + Share(ks, key(last), last.totalValue)
  {
    if ks != [] {
      var front := ks[..|ks| - 1];
      SumsStep(front, rows, key);
      assert Totals(ks, rows, key)[..|ks| - 1] == Totals(front, rows, key);
      assert Totals(ks, rows[..|rows| - 1], key)[..|ks| - 1] == Totals(front, rows[..|rows| - 1], key);
    }
  }

  /**
   * Grouping by any key loses and duplicates nothing: when the group keys are
   * distinct and cover every row, the group sums add up to the table's total.
   */
  lemma {:induction false} GroupsPartitionTotal<K>(ks: seq<K>, rows: seq<Row>, key: Row -> K)
    requires Distinct(ks)
    requires forall r :: r in rows ==> key(r) in ks
    ensures Sums(Totals(ks, rows, key)) == Total(rows)
  {
    if rows == [] {
      ZeroGroups(ks, key);
    } else {
      var last := rows[|rows| - 1];
      assert last in rows;
      GroupsPartitionTotal(ks, rows[..|rows| - 1], key);
      SumsStep(ks, rows, key);
      ShareOnce(ks, key(last), last.totalValue);
    }
  }

  lemma {:induction false} ZeroGroups<K>(ks: seq<K>, key: Row -> K)
    ensures Sums(Totals(ks, [], key)) == 0.0
  {
    if ks != [] {
      ZeroGroups(ks[..|ks| - 1], key);
      assert Totals(ks, [], key)[..|ks| - 1] == Totals(ks[..|ks| - 1], [], key);
    }
  }

  /**
   * The pie chart and the portfolio series account for the same money: the
   * composition sums, the daily sums and the table's total all agree.
   */
  lemma CompositionMatchesSeries(rows: seq<Row>)
    ensures Sums(Composition(rows)) == Total(rows)
    ensures Sums(DailyTotals(rows)) == Total(rows)
  {
    StrLessIsStrictTotalOrder();
    IntLessIsStrictTotalOrder();
    var ts := SortedKeys(Column(rows, TickerOf), StrLess);
    IncreasingIsDistinct(ts, StrLess);
    forall r | r in rows ensures TickerOf(r) in ts {
      ColumnHolds(rows, TickerOf, r.ticker);
    }
    GroupsPartitionTotal(ts, rows, TickerOf);
    var ds := SortedKeys(Column(rows, DateOf), IntLess);
    IncreasingIsDistinct(ds, IntLess);
    forall r | r in rows ensures DateOf(r) in ds {
      ColumnHolds(rows, DateOf, r.date);
    }
    GroupsPartitionTotal(ds, rows, DateOf);
  }
}

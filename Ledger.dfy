/**
 * The SQLite position ledger of FinanceApp/database.py: a `portfolio` table
 * keyed by ticker, holding a quantity and a quantity-weighted average price.
 * The table is a map; SELECT/INSERT/UPDATE/DELETE on one ticker are a lookup,
 * an insertion, an update and a removal on that map.
 */
module Ledger {
  import opened Results
  import opened Ordering

  /** One row of the `portfolio` table (ticker is the key). */
  datatype Position = Position(quantity: int, avgPrice: real)

  /** One dictionary of the list `load_portfolio` returns. */
  datatype Entry = Entry(ticker: string, quantity: int, avgPrice: real)

  /** `save_item` divides by the new total quantity; a zero total raises and nothing is written. */
  datatype LedgerError = ZeroDivision

  type Table = map<string, Position>

  /** A purchase event passed to `save_item`. */
  datatype Purchase = Purchase(quantity: int, price: real)

  /** Every row other than `ticker`'s is the same, present or absent, in both tables. */
  ghost predicate OthersUnchanged(before: Table, after: Table, ticker: string) {
    forall k :: k != ticker ==> (k in after <==> k in before) && (k in before ==> after[k] == before[k])
  }

  /** The ledger invariant of a position: quantity and average price both positive. */
  ghost predicate AllPositive(table: Table) {
    forall k :: k in table ==> table[k].quantity > 0 && table[k].avgPrice > 0.0
  }

  /** Cost of the old holding plus cost of the purchase, over the new quantity. */
  function WeightedAverage(oldQty: int, oldAvg: real, quantity: int, price: real): (avg: real)
    requires oldQty + quantity != 0
    ensures avg * (oldQty + quantity) as real == oldQty as real * oldAvg + quantity as real * price
  {
    (oldQty as real * oldAvg + quantity as real * price) / (oldQty + quantity) as real
  }

  /** The row a SELECT on `ticker` finds, if any. */
  function Lookup(table: Table, ticker: string): Option<Position> {
    if ticker in table then Some(table[ticker]) else None
  }

  /**
   * The row `save_item` writes, given the row its SELECT found: a new ticker
   * is inserted at the purchase price; an existing one has the quantities
   * added and its total cost kept by the new average.
   */
  function MergeRow(row: Option<Position>, quantity: int, price: real): (r: Result<Position, LedgerError>)
    ensures r.Failure? <==> row.Some? && row.value.quantity + quantity == 0
    ensures r.Success? && row.None? ==> r.value == Position(quantity, price)
    ensures r.Success? && row.Some? ==>
      && r.value.quantity == row.value.quantity + quantity
      && r.value.avgPrice * r.value.quantity as real
         == row.value.quantity as real * row.value.avgPrice + quantity as real * price
  {
    match row
    case None => Success(Position(quantity, price))
    case Some(held) =>
      var totalQty := held.quantity + quantity;
      if totalQty == 0 then Failure(ZeroDivision)
      else Success(Position(totalQty, WeightedAverage(held.quantity, held.avgPrice, quantity, price)))
  }

  /** The table after `save_item(ticker, quantity, price)`: only `ticker`'s row is written. */
  function Merged(table: Table, ticker: string, quantity: int, price: real): (r: Result<Table, LedgerError>)
    ensures r.Failure? <==> ticker in table && table[ticker].quantity + quantity == 0
    ensures r.Success? ==> ticker in r.value && OthersUnchanged(table, r.value, ticker)
    ensures r.Success? && ticker !in table ==> r.value[ticker] == Position(quantity, price)
    ensures r.Success? && ticker in table ==>
      && r.value[ticker].quantity == table[ticker].quantity + quantity
      && r.value[ticker].avgPrice * r.value[ticker].quantity as real
         == table[ticker].quantity as real * table[ticker].avgPrice + quantity as real * price
  {
    match MergeRow(Lookup(table, ticker), quantity, price)
    case Failure(e) => Failure(e)
    case Success(row) => Success(table[ticker := row])
  }

  /**
   * The table after `remove_or_reduce_item(ticker, quantity)`: no quantity
   * deletes the row; a quantity reduces it, deleting it when nothing positive
   * is left and otherwise keeping its average price; an absent ticker is left absent.
   */
  function Reduced(table: Table, ticker: string, quantity: Option<int>): (r: Table)
    ensures OthersUnchanged(table, r, ticker)
    ensures ticker !in table ==> r == table
    ensures quantity.None? ==> ticker !in r
    ensures quantity.Some? && ticker in table ==> (ticker in r <==> table[ticker].quantity - quantity.value > 0)
    ensures ticker in r ==>
      (quantity.Some? && ticker in table &&
       r[ticker] == Position(table[ticker].quantity - quantity.value, table[ticker].avgPrice))
  {
    match quantity
    case None => table - {ticker}
    case Some(q) =>
      if ticker !in table then table
      else
        var row := table[ticker];
        var newQty := row.quantity - q;
        if newQty <= 0 then table - {ticker}
        else table[ticker := Position(newQty, row.avgPrice)]
  }

  /** The row a reduction leaves behind always has a positive quantity. */
  lemma ReduceNeverLeavesNonPositive(table: Table, ticker: string, quantity: int)
    requires ticker in table
    ensures var r := Reduced(table, ticker, Some(quantity));
      ticker in r ==> r[ticker].quantity > 0 && r[ticker].avgPrice == table[ticker].avgPrice
  {
  }

  lemma ProductPositive(a: real, b: real)
    requires a > 0.0 && b > 0.0
    ensures a * b > 0.0
  {
  }

  /** The new average lies between the old average and the purchase price. */
  lemma {:induction false} AverageBetween(oldQty: int, oldAvg: real, quantity: int, price: real)
    requires oldQty > 0 && quantity > 0
    ensures var avg := WeightedAverage(oldQty, oldAvg, quantity, price);
      (oldAvg <= price ==> oldAvg <= avg <= price) && (price <= oldAvg ==> price <= avg <= oldAvg)
  {
    var avg := WeightedAverage(oldQty, oldAvg, quantity, price);
    var n := (oldQty + quantity) as real;
    var a, b := oldQty as real, quantity as real;
    assert avg * n == a * oldAvg + b * price;
    assert n * (avg - oldAvg) == b * (price - oldAvg);
    assert n * (avg - price) == a * (oldAvg - price);
    if oldAvg <= price {
      SignOfQuotient(n, b * (price - oldAvg), avg - oldAvg);
      SignOfQuotient(n, a * (price - oldAvg), price - avg);
    } else {
      SignOfQuotient(n, b * (oldAvg - price), oldAvg - avg);
      SignOfQuotient(n, a * (oldAvg - price), avg - price);
    }
  }

  lemma SignOfQuotient(n: real, p: real, x: real)
    requires n > 0.0 && n * x == p
    ensures p >= 0.0 ==> x >= 0.0
  {
    if x < 0.0 {
      assert n * x < 0.0 by { ProductPositive(n, -x); }
    }
  }

  /** Buying a positive quantity at a positive price keeps every position positive. */
  lemma {:induction false} SavePreservesPositive(table: Table, ticker: string, quantity: int, price: real)
    requires AllPositive(table) && quantity > 0 && price > 0.0
    ensures Merged(table, ticker, quantity, price).Success?
    ensures AllPositive(Merged(table, ticker, quantity, price).value)
  {
    var r := Merged(table, ticker, quantity, price).value;
    if ticker in table {
      var row := table[ticker];
      AverageBetween(row.quantity, row.avgPrice, quantity, price);
    }
    forall k | k in r ensures r[k].quantity > 0 && r[k].avgPrice > 0.0 {
      if k != ticker {
        assert k in table;
      }
    }
  }

  /** Any reduction or removal keeps every remaining position positive. */
  lemma ReducePreservesPositive(table: Table, ticker: string, quantity: Option<int>)
    requires AllPositive(table)
    ensures AllPositive(Reduced(table, ticker, quantity))
  {
    var r := Reduced(table, ticker, quantity);
    forall k | k in r ensures r[k].quantity > 0 && r[k].avgPrice > 0.0 {
      if k != ticker {
        assert k in table;
      }
    }
  }

  /** Buying a new ticker and then selling the same quantity gives back the original table. */
  lemma SaveThenReduceNewTicker(table: Table, ticker: string, quantity: int, price: real)
    requires ticker !in table
    ensures Merged(table, ticker, quantity, price).Success?
    ensures Reduced(Merged(table, ticker, quantity, price).value, ticker, Some(quantity)) == table
  {
    var r := Reduced(Merged(table, ticker, quantity, price).value, ticker, Some(quantity));
    assert r.Keys == table.Keys;
  }

  /**
   * Buying more of a held ticker and then selling the same quantity restores
   * the quantity but keeps the averaged price: cost basis is not restored.
   */
  lemma SaveThenReduceHeldTicker(table: Table, ticker: string, quantity: int, price: real)
    requires ticker in table && table[ticker].quantity > 0 && quantity > 0
    ensures Merged(table, ticker, quantity, price).Success?
    ensures var m := Merged(table, ticker, quantity, price).value;
      var r := Reduced(m, ticker, Some(quantity));
      && ticker in r
      && r[ticker] == Position(table[ticker].quantity, m[ticker].avgPrice)
      && OthersUnchanged(table, r, ticker)
  {
  }

  function SumQuantity(ps: seq<Purchase>): int {
    if ps == [] then 0 else SumQuantity(ps[..|ps| - 1]) + ps[|ps| - 1].quantity
  }

  /** What one purchase costs: quantity times price. */
  function Cost(p: Purchase): real {
    p.quantity as real * p.price
  }

  function SumCost(ps: seq<Purchase>): real {
    if ps == [] then 0.0 else SumCost(ps[..|ps| - 1]) + Cost(ps[|ps| - 1])
  }

  /** `cost` is the position's quantity times its average price: its cost basis. */
  ghost predicate CostBasis(p: Position, cost: real) {
    p.avgPrice * p.quantity as real == cost
  }

  ghost predicate AllBuys(ps: seq<Purchase>) {
    forall i :: 0 <= i < |ps| ==> ps[i].quantity > 0
  }

  /** `save_item` called once per purchase, in order; the first failure stops the sequence. */
  function SaveAll(table: Table, ticker: string, ps: seq<Purchase>): Result<Table, LedgerError> {
    if ps == [] then Success(table)
    else
      match SaveAll(table, ticker, ps[..|ps| - 1])
      case Failure(e) => Failure(e)
      case Success(t) => Merged(t, ticker, ps[|ps| - 1].quantity, ps[|ps| - 1].price)
  }

  /** The same purchases seen on the one row they write. */
  function RowAfter(row: Option<Position>, ps: seq<Purchase>): Result<Option<Position>, LedgerError> {
    if ps == [] then Success(row)
    else
      match RowAfter(row, ps[..|ps| - 1])
      case Failure(e) => Failure(e)
      case Success(r) =>
        match MergeRow(r, ps[|ps| - 1].quantity, ps[|ps| - 1].price)
        case Failure(e) => Failure(e)
        case Success(p) => Success(Some(p))
  }

  /** Repeated `save_item` calls write `ticker`'s row and nothing else. */
  lemma {:induction false} SaveAllWritesOneRow(table: Table, ticker: string, ps: seq<Purchase>)
    ensures SaveAll(table, ticker, ps).Success? <==> RowAfter(Lookup(table, ticker), ps).Success?
    ensures SaveAll(table, ticker, ps).Success? ==>
      && Lookup(SaveAll(table, ticker, ps).value, ticker) == RowAfter(Lookup(table, ticker), ps).value
      && OthersUnchanged(table, SaveAll(table, ticker, ps).value, ticker)
  {
    if ps != [] {
      SaveAllWritesOneRow(table, ticker, ps[..|ps| - 1]);
    }
  }

  /**
   * Purchases with positive quantities, starting from no row: the quantity is
   * the sum of the quantities and the cost basis is the total cost paid.
   */
  lemma {:induction false} RowAfterKeepsCost(ps: seq<Purchase>)
    requires ps != [] && AllBuys(ps)
    ensures RowAfter(None, ps).Success? && RowAfter(None, ps).value.Some?
    ensures var p := RowAfter(None, ps).value.value;
      SumQuantity(ps) > 0 && p.quantity == SumQuantity(ps) && CostBasis(p, SumCost(ps))
  {
    var init := ps[..|ps| - 1];
    if init == [] {
      PurchaseStep(ps, None, 0.0);
    } else {
      assert AllBuys(init) by {
        forall i | 0 <= i < |init| ensures init[i].quantity > 0 {
          assert init[i] == ps[i];
        }
      }
      RowAfterKeepsCost(init);
      PurchaseStep(ps, RowAfter(None, init).value, SumCost(init));
    }
  }

  /** The last purchase of `ps` applied to the row the earlier ones left. */
  lemma PurchaseStep(ps: seq<Purchase>, held: Option<Position>, cost: real)
    requires ps != [] && ps[|ps| - 1].quantity > 0
    requires RowAfter(None, ps[..|ps| - 1]) == Success(held)
    requires held.None? ==> ps[..|ps| - 1] == [] && cost == 0.0
    requires held.Some? ==> && held.value.quantity == SumQuantity(ps[..|ps| - 1]) > 0
                            && CostBasis(held.value, cost) && cost == SumCost(ps[..|ps| - 1])
    ensures RowAfter(None, ps).Success? && RowAfter(None, ps).value.Some?
    ensures var p := RowAfter(None, ps).value.value;
      SumQuantity(ps) > 0 && p.quantity == SumQuantity(ps) && CostBasis(p, SumCost(ps))
  {
    var init, last := ps[..|ps| - 1], ps[|ps| - 1];
    MergeRowCost(held, cost, last);
    var p := MergeRow(held, last.quantity, last.price).value;
    assert RowAfter(None, ps) == Success(Some(p));
    assert SumQuantity(ps) == SumQuantity(init) + last.quantity;
    assert SumCost(ps) == SumCost(init) + Cost(last);
    assert SumCost(init) == cost by {
      if held.None? {
        assert init == [];
      }
    }
  }

  /** One purchase adds its quantity times its price to the cost basis. */
  lemma MergeRowCost(row: Option<Position>, cost: real, purchase: Purchase)
    requires row.None? ==> cost == 0.0
    requires row.Some? ==> CostBasis(row.value, cost) && row.value.quantity + purchase.quantity != 0
    ensures MergeRow(row, purchase.quantity, purchase.price).Success?
    ensures CostBasis(MergeRow(row, purchase.quantity, purchase.price).value, cost + Cost(purchase))
  {
  }

  /** A position with a positive quantity has cost basis over quantity as its average price. */
  lemma AverageFromCost(p: Position, cost: real)
    requires CostBasis(p, cost) && p.quantity > 0
    ensures p.avgPrice == cost / p.quantity as real
  {
  }

  /**
   * Repeated purchases of a ticker not yet held, with positive quantities:
   * the quantity is the sum of the quantities, the average price is the total
   * cost over that sum (Σ qᵢ·pᵢ / Σ qᵢ), and no other row changes.
   */
  lemma SaveAllAverages(table: Table, ticker: string, ps: seq<Purchase>)
    requires ticker !in table && ps != [] && AllBuys(ps)
    ensures SaveAll(table, ticker, ps).Success?
    ensures var r := SaveAll(table, ticker, ps).value;
      && ticker in r
      && SumQuantity(ps) > 0
      && r[ticker].quantity == SumQuantity(ps)
      && r[ticker].avgPrice == SumCost(ps) / SumQuantity(ps) as real
      && OthersUnchanged(table, r, ticker)
  {
    SaveAllWritesOneRow(table, ticker, ps);
    RowAfterKeepsCost(ps);
    AverageFromCost(RowAfter(None, ps).value.value, SumCost(ps));
  }

  /** `xs` without `x`, other elements in their order. */
  function Without(xs: seq<string>, x: string): (r: seq<string>)
    ensures forall y :: y in r <==> y in xs && y != x
    ensures Distinct(xs) ==> Distinct(r)
  {
    if xs == [] then []
    else if xs[0] == x then Without(xs[1..], x)
    else
      var tail := Without(xs[1..], x);
      assert Distinct(xs) ==> xs[0] !in xs[1..];
      [xs[0]] + tail
  }

  /**
   * The `portfolio` table of one database file. `order` is the order in which
   * a full-table SELECT meets the rows: a new ticker goes to the end, an
   * update keeps its place, a delete drops it.
   */
  class Database {
    var order: seq<string>
    var table: Table

    ghost predicate Valid()
      reads this
    {
      && Distinct(order)
      && (forall k :: k in table <==> k in order)
    }

    /** A freshly created `portfolio` table holds no rows. */
    constructor ()
      ensures Valid() && table == map[] && order == []
    {
      order := [];
      table := map[];
    }

    /** `save_item`: look the ticker up, then INSERT a new row or UPDATE the existing one. */
    method SaveItem(ticker: string, quantity: int, price: real) returns (r: Result<(), LedgerError>)
      requires Valid()
      modifies this
      ensures Valid()
      ensures var m := Merged(old(table), ticker, quantity, price);
        && (r.Success? <==> m.Success?)
        && table == (if m.Success? then m.value else old(table))
      ensures order == if ticker in old(table) then old(order) else old(order) + [ticker]
    {
      if ticker !in table {
        table := table[ticker := Position(quantity, price)];
        order := order + [ticker];
        r := Success(());
      } else {
        var row := table[ticker];
        var totalQty := row.quantity + quantity;
        if totalQty == 0 {
          r := Failure(ZeroDivision);
          return;
        }
        var newAvg := WeightedAverage(row.quantity, row.avgPrice, quantity, price);
        table := table[ticker := Position(totalQty, newAvg)];
        r := Success(());
      }
    }

    /** `remove_or_reduce_item`: DELETE the row, or reduce it and DELETE it once nothing positive is left. */
    method RemoveOrReduceItem(ticker: string, quantity: Option<int>)
      requires Valid()
      modifies this
      ensures Valid()
      ensures table == Reduced(old(table), ticker, quantity)
      ensures order == if ticker in old(table) && ticker !in table then Without(old(order), ticker) else old(order)
    {
      match quantity {
        case None =>
          if ticker in table {
            order := Without(order, ticker);
          }
          table := table - {ticker};
        case Some(q) =>
          if ticker in table {
            var row := table[ticker];
            var newQty := row.quantity - q;
            if newQty <= 0 {
              table := table - {ticker};
              order := Without(order, ticker);
            } else {
              table := table[ticker := Position(newQty, row.avgPrice)];
            }
          }
      }
    }

    /** `load_portfolio`: one entry per row, in scan order, each ticker once. */
    method LoadPortfolio() returns (entries: seq<Entry>)
      requires Valid()
      ensures |entries| == |order|
      ensures forall i :: 0 <= i < |entries| ==> entries[i].ticker == order[i]
      ensures forall i :: 0 <= i < |entries| ==>
        entries[i].ticker in table &&
        entries[i] == Entry(entries[i].ticker, table[entries[i].ticker].quantity, table[entries[i].ticker].avgPrice)
      ensures forall t :: t in table <==> exists i :: 0 <= i < |entries| && entries[i].ticker == t
      ensures forall i, j :: 0 <= i < j < |entries| ==> entries[i].ticker != entries[j].ticker
    {
      entries := [];
      var i := 0;
      while i < |order|
        invariant 0 <= i <= |order|
        invariant |entries| == i
        invariant forall j :: 0 <= j < i ==> entries[j] == Entry(order[j], table[order[j]].quantity, table[order[j]].avgPrice)
      {
        var ticker := order[i];
        var row := table[ticker];
        entries := entries + [Entry(ticker, row.quantity, row.avgPrice)];
        i := i + 1;
      }
      forall t | t in table ensures exists i :: 0 <= i < |entries| && entries[i].ticker == t {
        var k :| 0 <= k < |order| && order[k] == t;
        assert entries[k].ticker == t;
      }
    }
  }
}

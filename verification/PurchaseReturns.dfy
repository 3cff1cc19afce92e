/** Return requests that name a line twice: exactly when the checks on a return keep more from being
    returned than was received. */
module PurchaseReturns {
  import opened Results
  import opened Rounding
  import opened Sums
  import opened Purchase
  import opened PurchaseRuns
  import Books
  import opened Fifo
  import Stock
  import opened StockInvariants
  import opened StockRuns
  import opened StockEffects

  // ---------------------------------------------------------------- an order that single items fit

  /** The most that one item takes of a line. */
  function Biggest(items: seq<Item>, line: nat): (b: nat)
  {
    if items == [] then 0
    else
      var front, last := Biggest(items[..|items| - 1], line), items[|items| - 1];
      if last.line == line && last.quantity > front then last.quantity else front
  }

  lemma {:induction false} BiggestIsExceeded(items: seq<Item>, line: nat)
    requires AllPositive(items)
    ensures forall i :: 0 <= i < |items| && items[i].line == line ==> items[i].quantity <= Biggest(items, line)
    ensures Biggest(items, line) <= QuantityOf(items, line)
    ensures (exists i, j :: 0 <= i < j < |items| && items[i].line == line && items[j].line == line) ==>
              Biggest(items, line) < QuantityOf(items, line)
  {
    if items != [] {
      var front, last := items[..|items| - 1], items[|items| - 1];
      BiggestIsExceeded(front, line);
      if last.line == line {
        QuantityOfNamed(front, line);
        if i, j :| 0 <= i < j < |items| && items[i].line == line && items[j].line == line {
          assert front[i].line == line && front[i].quantity > 0;
        }
      } else if i, j :| 0 <= i < j < |items| && items[i].line == line && items[j].line == line {
        assert front[i].line == line && front[j].line == line;
      }
    }
  }

  /** An order every line of which has been received just often enough for each single item. */
  function TightOrder(items: seq<Item>, n: nat): Order
  {
    Order(PartiallyReceived, 0, 0,
          seq(n, k requires 0 <= k < n =>
            Line(0, None, None, Biggest(items, k) + 1, Biggest(items, k), 0, 0)), [], false)
  }

  /** All lines named are among the first so many. */
  function LinesNamed(items: seq<Item>): (n: nat)
    ensures forall i :: 0 <= i < |items| ==> items[i].line < n
  {
    if items == [] then 0
    else
      var front, last := LinesNamed(items[..|items| - 1]), items[|items| - 1].line;
      if last < front then front else last + 1
  }

  lemma TightOrderPassesChecks(items: seq<Item>, n: nat)
    requires AllPositive(items) && n == LinesNamed(items)
    ensures QuantitiesOk(TightOrder(items, n)) && ReturnsRefusal(TightOrder(items, n), items).None?
  {
    var o := TightOrder(items, n);
    assert forall k :: 0 <= k < |o.lines| ==> LineOk(o, k);
    forall i | 0 <= i < |items| ensures ReturnRefusal(o, items[i]).None? {
      BiggestIsExceeded(items, items[i].line);
    }
    NoRefusalMeans(o, items);
  }

  lemma TightOrderIsOverreturned(items: seq<Item>, n: nat, i: nat, j: nat)
    requires AllPositive(items) && n == LinesNamed(items)
    requires i < j < |items| && items[i].line == items[j].line
    ensures !QuantitiesOk(TightOrder(items, n).(returned := items))
  {
    var k := items[i].line;
    BiggestIsExceeded(items, k);
    assert !LineOk(TightOrder(items, n).(returned := items), k);
  }

  /** The checks on a return leave out the return under way. So they keep a request from returning more
      than was received, on every order, exactly if the request names no line twice. */
  lemma ReturnChecksSufficeExactly(items: seq<Item>)
    requires AllPositive(items)
    ensures NamesEachOnce(items) <==>
              forall o: Order :: QuantitiesOk(o) && ReturnsRefusal(o, items).None? ==>
                                   QuantitiesOk(o.(returned := o.returned + items))
  {
    if NamesEachOnce(items) {
      forall o: Order | QuantitiesOk(o) && ReturnsRefusal(o, items).None?
        ensures QuantitiesOk(o.(returned := o.returned + items))
      {
        ReturningKeepsQuantities(o, items);
      }
    } else {
      var n := LinesNamed(items);
      var i, j :| 0 <= i < j < |items| && items[i].line == items[j].line;
      TightOrderPassesChecks(items, n);
      TightOrderIsOverreturned(items, n, i, j);
      assert TightOrder(items, n).returned + items == items;
    }
  }

  lemma TightOrderIsAccurate(items: seq<Item>, n: nat, i: nat)
    requires AllPositive(items) && n == LinesNamed(items) && i < |items|
    ensures StatusAccurate(TightOrder(items, n))
  {
    BiggestIsExceeded(items, items[i].line);
    assert TightOrder(items, n).lines[items[i].line].received > 0;
  }

  // ---------------------------------------------------------------- a stock that has enough of everything

  function RowOf(warehouse: nat, l: Stock.ReceiptLine): Stock.Cell
  {
    Stock.Cell(l.product, l.variant, l.batch, warehouse)
  }

  /** Every row holds at least so much. */
  ghost predicate HoldsAtLeast(shelf: Stock.Shelf, amount: int)
  {
    WellFormed(shelf) && forall c :: c in shelf.created ==> Stock.Get(shelf, c) >= amount
  }

  predicate HasRows(shelf: Stock.Shelf, warehouse: nat, lines: seq<Stock.ReceiptLine>)
  {
    forall i :: 0 <= i < |lines| ==> RowOf(warehouse, lines[i]) in shelf.created
  }

  predicate NoneNegative(lines: seq<Stock.ReceiptLine>)
  {
    forall i :: 0 <= i < |lines| ==> lines[i].quantity >= 0
  }

  function AskedInAll(lines: seq<Stock.ReceiptLine>): int
  {
    Total(lines, (l: Stock.ReceiptLine) => l.quantity)
  }

  lemma {:induction false} AskedInAllIsNotNegative(lines: seq<Stock.ReceiptLine>)
    requires NoneNegative(lines)
    ensures AskedInAll(lines) >= 0
  {
    if lines != [] { AskedInAllIsNotNegative(lines[..|lines| - 1]); }
  }

  /** Moves on rows that exist create none. */
  lemma {:induction false} MovesOnRowsCreateNone(shelf: Stock.Shelf, moves: seq<Stock.Move>)
    requires forall i :: 0 <= i < |moves| ==> moves[i].cell in shelf.quantity
    ensures Stock.AddAll(shelf, moves).created == shelf.created
    ensures Stock.AddAll(shelf, moves).quantity.Keys == shelf.quantity.Keys
  {
    if moves != [] { MovesOnRowsCreateNone(shelf, moves[..|moves| - 1]); }
  }

  predicate MovesOn(moves: seq<Stock.Move>, cells: seq<Stock.Cell>)
  {
    forall i :: 0 <= i < |moves| ==> moves[i].cell in cells
  }

  lemma {:induction false} TakesAreFromRows(cells: seq<Stock.Cell>, takes: seq<int>, cost: int)
    requires |cells| == |takes|
    ensures MovesOn(Stock.TakeMoves(cells, takes, cost), cells)
  {
    if cells != [] {
      var n := |cells| - 1;
      TakesAreFromRows(cells[..n], takes[..n], cost);
      var front, all := Stock.TakeMoves(cells[..n], takes[..n], cost), Stock.TakeMoves(cells, takes, cost);
      forall i | 0 <= i < |all| ensures all[i].cell in cells {
        if i < |front| {
          assert all[i] == front[i] && front[i].cell in cells[..n];
        } else {
          assert all[i].cell == cells[n];
        }
      }
    }
  }

  lemma {:induction false} OneOfMany(t: seq<int>, i: nat)
    requires i < |t| && forall k :: 0 <= k < |t| ==> t[k] >= 0
    ensures Sum(t) >= t[i]
  {
    var last := |t| - 1;
    if i < last { OneOfMany(t[..last], i); } else { PositiveSum(t[..last]); }
  }

  /** A row loses at most what is asked for. */
  lemma DeductionIsBounded(shelf: Stock.Shelf, rows: seq<Stock.Cell>, requested: nat, cost: int, cell: Stock.Cell)
    requires DistinctCells(rows) && Stock.Available(shelf, rows) >= requested
    ensures Stock.Get(Stock.AddAll(shelf, Stock.DeductMoves(shelf, rows, requested, cost)), cell)
         >= Stock.Get(shelf, cell) - requested
  {
    if cell in rows {
      var i :| 0 <= i < |rows| && rows[i] == cell;
      var q := Stock.Quantities(shelf, rows);
      DeductionByRow(shelf, rows, requested, cost, i);
      TakesAreLegal(q, requested);
      CheckedTakesAreExact(q, requested);
      OneOfMany(Fifo.Takes(q, requested), i);
    } else {
      DeductionElsewhere(shelf, rows, requested, cost, cell);
    }
  }

  lemma RowsCover(shelf: Stock.Shelf, rows: seq<Stock.Cell>, cell: Stock.Cell, amount: nat)
    requires cell in rows && forall c :: c in rows ==> Stock.Get(shelf, c) >= amount
    ensures Stock.Available(shelf, rows) >= amount
  {
    var i :| 0 <= i < |rows| && rows[i] == cell;
    OneOfMany(Stock.Quantities(shelf, rows), i);
  }

  lemma OneLineServed(shelf: Stock.Shelf, warehouse: nat, l: Stock.ReceiptLine, amount: int)
    requires HoldsAtLeast(shelf, amount) && RowOf(warehouse, l) in shelf.created && 0 <= l.quantity <= amount
    ensures Stock.PurchaseReturnLineMoves(shelf, warehouse, l).Some?
    ensures var after := Stock.AddAll(shelf, Stock.PurchaseReturnLineMoves(shelf, warehouse, l).value);
            after.created == shelf.created && HoldsAtLeast(after, amount - l.quantity)
  {
    var p := Stock.OfReturn(l.product, l.variant, warehouse, l.batch);
    var rows := Stock.Filter(shelf.created, p);
    assert RowOf(warehouse, l) in rows;
    RowsCover(shelf, rows, RowOf(warehouse, l), l.quantity);
    FilterKeepsDistinct(shelf.created, p);
    var moves := Stock.DeductMoves(shelf, rows, l.quantity, l.unitCost);
    TakesAreFromRows(rows, Fifo.Takes(Stock.Quantities(shelf, rows), l.quantity), l.unitCost);
    forall i | 0 <= i < |moves| ensures moves[i].cell in shelf.quantity {
      assert moves[i].cell in rows;
    }
    MovesOnRowsCreateNone(shelf, moves);
    AddAllKeepsWellFormed(shelf, moves);
    forall c | c in shelf.created ensures Stock.Get(Stock.AddAll(shelf, moves), c) >= amount - l.quantity {
      DeductionIsBounded(shelf, rows, l.quantity, l.unitCost, c);
    }
  }

  /** Rows that each hold all that is asked for serve any return, batches named or not. */
  lemma {:induction false} AmpleStockServes(shelf: Stock.Shelf, warehouse: nat, lines: seq<Stock.ReceiptLine>, amount: int)
    requires HoldsAtLeast(shelf, amount) && HasRows(shelf, warehouse, lines) && NoneNegative(lines)
    requires AskedInAll(lines) <= amount
    ensures Stock.PurchaseReturnMoves(shelf, warehouse, lines).Some?
    ensures var after := Stock.AddAll(shelf, Stock.PurchaseReturnMoves(shelf, warehouse, lines).value);
            after.created == shelf.created && HoldsAtLeast(after, amount - AskedInAll(lines))
  {
    if lines != [] {
      var front, l := lines[..|lines| - 1], lines[|lines| - 1];
      AskedInAllIsNotNegative(front);
      AmpleStockServes(shelf, warehouse, front, amount);
      var before := Stock.PurchaseReturnMoves(shelf, warehouse, front).value;
      var now := Stock.AddAll(shelf, before);
      OneLineServed(now, warehouse, l, amount - AskedInAll(front));
      AddAllAppend(shelf, before, Stock.PurchaseReturnLineMoves(now, warehouse, l).value);
    }
  }

  // ---------------------------------------------------------------- the world of the tight order

  /** A delivery of so much of the batch of every item. */
  function Deliveries(items: seq<Item>, amount: int): (lines: seq<Stock.ReceiptLine>)
    ensures |lines| == |items|
    ensures forall i :: 0 <= i < |lines| ==> lines[i] == Stock.ReceiptLine(0, None, items[i].batch, amount, 0)
  {
    seq(|items|, i requires 0 <= i < |items| => Stock.ReceiptLine(0, None, items[i].batch, amount, 0))
  }

  function QuantityInAll(items: seq<Item>): int
  {
    Total(items, (i: Item) => i.quantity)
  }

  function AmpleStock(items: seq<Item>): Stock.State
  {
    Stock.Step(Stock.EMPTY, Stock.Receive(0, 0, Deliveries(items, QuantityInAll(items)), 0))
  }

  function TightWorld(items: seq<Item>): World
  {
    World(TightOrder(items, LinesNamed(items)), AmpleStock(items))
  }

  lemma {:induction false} DeliveredRows(moves: seq<Stock.Move>, amount: nat)
    requires forall i :: 0 <= i < |moves| ==> moves[i].quantity == amount
    ensures var shelf := Stock.AddAll(Stock.EMPTY.shelf, moves);
            && HoldsAtLeast(shelf, amount)
            && forall i :: 0 <= i < |moves| ==> moves[i].cell in shelf.created
  {
    AddAllKeepsWellFormed(Stock.EMPTY.shelf, moves);
    if moves != [] {
      var front, last := moves[..|moves| - 1], moves[|moves| - 1];
      DeliveredRows(front, amount);
      var before := Stock.AddAll(Stock.EMPTY.shelf, front);
      assert forall c :: c in before.created <==> c in before.quantity;
      forall i | 0 <= i < |front| ensures front[i].cell in before.created && front[i] == moves[i] {
      }
    }
  }

  lemma {:induction false} QuantityInAllIsNotNegative(items: seq<Item>)
    requires AllPositive(items)
    ensures QuantityInAll(items) >= 0
  {
    if items != [] { QuantityInAllIsNotNegative(items[..|items| - 1]); }
  }

  lemma AmpleStockIsReached(items: seq<Item>)
    ensures Inv(AmpleStock(items))
  {
    EmptyInv();
    StepKeepsInv(Stock.EMPTY, Stock.Receive(0, 0, Deliveries(items, QuantityInAll(items)), 0));
  }

  lemma AmpleStockIsDelivered(items: seq<Item>)
    ensures AmpleStock(items).transactions == {Stock.ReceiptTx(0)}
    ensures AmpleStock(items).shelf
         == Stock.AddAll(Stock.EMPTY.shelf, Stock.ReceiptMoves(0, Stock.InKeyOrder(Deliveries(items, QuantityInAll(items)))))
  {
    Books.PairPosts(Books.InventoryAsset, Books.AccountsPayable, 0, Books.Cogs);
  }

  lemma AmpleStockIsAmple(items: seq<Item>)
    requires AllPositive(items)
    ensures HoldsAtLeast(AmpleStock(items).shelf, QuantityInAll(items))
    ensures HasRows(AmpleStock(items).shelf, 0, Deliveries(items, QuantityInAll(items)))
  {
    var lines := Deliveries(items, QuantityInAll(items));
    var sorted := Stock.InKeyOrder(lines);
    var moves := Stock.ReceiptMoves(0, sorted);
    AmpleStockIsDelivered(items);
    InKeyOrderSorts(lines);
    QuantityInAllIsNotNegative(items);
    forall i | 0 <= i < |moves| ensures moves[i].quantity == QuantityInAll(items) {
      assert sorted[i] in multiset(sorted);
      assert sorted[i] in lines;
    }
    DeliveredRows(moves, QuantityInAll(items));
    forall i | 0 <= i < |lines| ensures RowOf(0, lines[i]) in AmpleStock(items).shelf.created {
      assert lines[i] in multiset(lines);
      assert lines[i] in sorted;
      var k :| 0 <= k < |sorted| && sorted[k] == lines[i];
      assert moves[k].cell == RowOf(0, lines[i]);
    }
  }

  lemma FreeUnit(l: Line, i: Item)
    requires l.product == 0 && l.variant == None && l.unit == None && l.cost == 0
    ensures InBaseUnits(l, i) == Stock.ReceiptLine(0, None, i.batch, i.quantity, 0)
  {
    RoundsToItself(i.quantity as real * Multiplier(l), i.quantity);
    RoundsToItself(l.cost as real / Multiplier(l), 0);
  }

  lemma TightIsConvertible(items: seq<Item>)
    ensures Convertible(TightOrder(items, LinesNamed(items)), items)
  {
  }

  lemma TightLines(items: seq<Item>)
    ensures Convertible(TightOrder(items, LinesNamed(items)), items)
    ensures forall i :: 0 <= i < |items| ==>
              ReturnLines(TightOrder(items, LinesNamed(items)), items)[i]
              == Stock.ReceiptLine(0, None, items[i].batch, items[i].quantity, 0)
  {
    var o := TightOrder(items, LinesNamed(items));
    TightIsConvertible(items);
    var lines := ReturnLines(o, items);
    forall i | 0 <= i < |items| ensures lines[i] == Stock.ReceiptLine(0, None, items[i].batch, items[i].quantity, 0) {
      FreeUnit(o.lines[items[i].line], items[i]);
    }
  }

  lemma TightReturnIsServed(items: seq<Item>)
    requires AllPositive(items)
    ensures var o := TightOrder(items, LinesNamed(items));
            Convertible(o, items) && Stock.PurchaseReturnMoves(AmpleStock(items).shelf, 0, ReturnLines(o, items)).Some?
  {
    var o, s := TightOrder(items, LinesNamed(items)), AmpleStock(items);
    TightLines(items);
    AmpleStockIsAmple(items);
    var lines := ReturnLines(o, items);
    TotalsAgree(lines, items, (l: Stock.ReceiptLine) => l.quantity, (i: Item) => i.quantity);
    forall i | 0 <= i < |lines| ensures RowOf(0, lines[i]) in s.shelf.created {
      assert RowOf(0, Deliveries(items, QuantityInAll(items))[i]) == RowOf(0, lines[i]);
    }
    AmpleStockServes(s.shelf, 0, lines, QuantityInAll(items));
  }

  /** A return that passes its checks and that the stock can serve goes through, under a new identifier. */
  lemma ReturnGoesThrough(w: World, uid: nat, items: seq<Item>)
    requires !w.order.status.Cancelled? && items != [] && ReturnsRefusal(w.order, items).None?
    requires Convertible(w.order, items) && Stock.PurchaseReturnTx(uid) !in w.stock.transactions
    requires Stock.PurchaseReturnMoves(w.stock.shelf, w.order.warehouse, ReturnLines(w.order, items)).Some?
    ensures SendGoodsBack(w, uid, items).Ok?
    ensures SendGoodsBack(w, uid, items).value.order == w.order.(returned := w.order.returned + items)
  {
    Books.PairPosts(Books.AccountsPayable, Books.InventoryAsset, Refund(w.order, items), Books.Cogs);
  }

  lemma TightReturnIsAccepted(items: seq<Item>)
    requires AllPositive(items) && items != []
    ensures SendGoodsBack(TightWorld(items), 0, items).Ok?
    ensures SendGoodsBack(TightWorld(items), 0, items).value.order == TightWorld(items).order.(returned := items)
  {
    hide *;
    TightWorldIs(items);
    TightOrderPassesChecks(items, LinesNamed(items));
    TightReturnIsServed(items);
    AmpleStockIsDelivered(items);
    ReturnGoesThrough(TightWorld(items), 0, items);
    assert [] + items == items;
  }

  /** Whatever the request, if two of its items name the same line there is an order with an accurate
      status and a stock that is reached, for which the return is accepted and more of the line is
      returned than was received. */
  lemma OverreturnIsAccepted(items: seq<Item>, i: nat, j: nat)
    requires AllPositive(items) && i < j < |items| && items[i].line == items[j].line
    ensures var w := TightWorld(items);
            && QuantitiesOk(w.order) && StatusAccurate(w.order) && Inv(w.stock)
            && SendGoodsBack(w, 0, items).Ok?
            && !QuantitiesOk(SendGoodsBack(w, 0, items).value.order)
  {
    hide *;
    var n := LinesNamed(items);
    TightWorldIs(items);
    TightOrderPassesChecks(items, n);
    TightOrderIsAccurate(items, n, i);
    TightOrderIsOverreturned(items, n, i, j);
    AmpleStockIsReached(items);
    TightReturnIsAccepted(items);
  }

  lemma TightWorldIs(items: seq<Item>)
    ensures TightWorld(items) == World(TightOrder(items, LinesNamed(items)), AmpleStock(items))
    ensures var o := TightOrder(items, LinesNamed(items)); o.status == PartiallyReceived && o.warehouse == 0 && o.returned == []
  {
  }

  const TWICE: seq<Item> := [Item(0, 1, None), Item(0, 1, None)]

  lemma TwiceOrder()
    ensures TightWorld(TWICE).order == Order(PartiallyReceived, 0, 0, [Line(0, None, None, 2, 1, 0, 0)], [], false)
    ensures QuantityOf(TWICE, 0) == 2
  {
    var one := [Item(0, 1, None)];
    assert TWICE[..1] == one && one[..0] == [];
    assert Biggest([], 0) == 0 && Biggest(one, 0) == 1 && Biggest(TWICE, 0) == 1;
    assert LinesNamed([]) == 0 && LinesNamed(one) == 1 && LinesNamed(TWICE) == 1;
    TotalOfOne(one[0], (i: Item) => if i.line == 0 then i.quantity else 0);
    assert TWICE == one + one;
    QuantityOfAppend(one, one, 0);
  }

  /** One unit received of two ordered, and a request that returns it twice: accepted. */
  lemma OneUnitReturnedTwice()
    ensures var w := TightWorld(TWICE);
            && w.order == Order(PartiallyReceived, 0, 0, [Line(0, None, None, 2, 1, 0, 0)], [], false)
            && QuantitiesOk(w.order) && StatusAccurate(w.order) && Inv(w.stock)
            && SendGoodsBack(w, 0, TWICE).Ok?
            && QuantityOf(SendGoodsBack(w, 0, TWICE).value.order.returned, 0) == 2
  {
    hide *;
    TwiceIsPositive();
    TwiceOrder();
    OverreturnIsAccepted(TWICE, 0, 1);
    TightReturnIsAccepted(TWICE);
  }

  lemma TwiceIsPositive()
    ensures AllPositive(TWICE) && |TWICE| == 2 && TWICE[0].line == TWICE[1].line
  {
  }

  /** An accepted return, on any order in any state of the stock, keeps what is returned within what was
      received exactly if the request names no line twice. */
  lemma ReturnIsSafeExactly(items: seq<Item>)
    ensures (AllPositive(items) ==> NamesEachOnce(items)) <==>
              forall w: World, uid: nat ::
                QuantitiesOk(w.order) && StatusAccurate(w.order) && Inv(w.stock) && SendGoodsBack(w, uid, items).Ok? ==>
                  QuantitiesOk(SendGoodsBack(w, uid, items).value.order)
  {
    if AllPositive(items) ==> NamesEachOnce(items) {
      forall w: World, uid: nat | QuantitiesOk(w.order) && SendGoodsBack(w, uid, items).Ok?
        ensures QuantitiesOk(SendGoodsBack(w, uid, items).value.order)
      {
        NoRefusalIsPositive(w.order, items);
        ReturningKeepsQuantities(w.order, items);
      }
    } else {
      var i, j :| 0 <= i < j < |items| && items[i].line == items[j].line;
      OverreturnIsAccepted(items, i, j);
    }
  }
}

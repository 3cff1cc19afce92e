/** Returns to the supplier that name batches, mixed with items that name none. An item with a batch is
    taken from the row of that batch, one without from all rows of its product in order of creation; so the
    order of the items decides. Exactly when a return is possible, in the order given and in every order,
    and what it leaves of each row. */
module PurchaseBatches {
  import opened Results
  import opened Sums
  import opened Fifo
  import Stock
  import opened StockInvariants
  import opened StockRuns
  import opened StockEffects
  import opened PurchaseReturns
  import opened PurchaseLedger

  // ---------------------------------------------------------------- what is asked for

  /** The rows of a product and variant in order of creation. */
  function Rows(shelf: Stock.Shelf, warehouse: nat, product: nat, variant: Option<nat>): seq<Stock.Cell>
  {
    Stock.Filter(shelf.created, Stock.OfItem(product, variant, warehouse))
  }

  function AskedOf(warehouse: nat, l: Stock.ReceiptLine, row: Stock.Cell): nat
  {
    if l.batch.Some? && RowOf(warehouse, l) == row then Max(0, l.quantity) else 0
  }

  /** What lines ask of the row whose batch they name. */
  function AskedOfRow(warehouse: nat, lines: seq<Stock.ReceiptLine>, row: Stock.Cell): int
  {
    Total(lines, (l: Stock.ReceiptLine) => AskedOf(warehouse, l, row))
  }

  function AskedAnywhere(l: Stock.ReceiptLine, product: nat, variant: Option<nat>): nat
  {
    if l.batch.None? && l.product == product && l.variant == variant then Max(0, l.quantity) else 0
  }

  /** What lines that name no batch ask for of a product and variant. */
  function AskedOfAny(lines: seq<Stock.ReceiptLine>, product: nat, variant: Option<nat>): int
  {
    Total(lines, (l: Stock.ReceiptLine) => AskedAnywhere(l, product, variant))
  }

  /** What rows hold beyond what is asked of them by name. */
  function Unnamed(shelf: Stock.Shelf, warehouse: nat, lines: seq<Stock.ReceiptLine>, rows: seq<Stock.Cell>): (u: seq<int>)
    ensures |u| == |rows|
    ensures forall k :: 0 <= k < |u| ==> u[k] == Stock.Get(shelf, rows[k]) - AskedOfRow(warehouse, lines, rows[k])
  {
    seq(|rows|, k requires 0 <= k < |rows| => Stock.Get(shelf, rows[k]) - AskedOfRow(warehouse, lines, rows[k]))
  }

  lemma {:induction false} TotalIsNotNegative<T>(s: seq<T>, f: T -> int)
    requires forall x :: f(x) >= 0
    ensures Total(s, f) >= 0
  {
    if s != [] { TotalIsNotNegative(s[..|s| - 1], f); }
  }

  lemma AsksAreNotNegative(warehouse: nat, lines: seq<Stock.ReceiptLine>, row: Stock.Cell, product: nat, variant: Option<nat>)
    ensures AskedOfRow(warehouse, lines, row) >= 0 && AskedOfAny(lines, product, variant) >= 0
  {
    TotalIsNotNegative(lines, (l: Stock.ReceiptLine) => AskedOf(warehouse, l, row));
    TotalIsNotNegative(lines, (l: Stock.ReceiptLine) => AskedAnywhere(l, product, variant));
  }

  // ---------------------------------------------------------------- one line

  lemma DeductionLeaves(shelf: Stock.Shelf, rows: seq<Stock.Cell>, requested: int, cost: int)
    requires DistinctCells(rows)
    ensures Stock.Quantities(Stock.AddAll(shelf, Stock.DeductMoves(shelf, rows, requested, cost)), rows)
         == Rest(Stock.Quantities(shelf, rows), requested)
  {
    forall i | 0 <= i < |rows|
      ensures Stock.Get(Stock.AddAll(shelf, Stock.DeductMoves(shelf, rows, requested, cost)), rows[i])
           == Stock.Get(shelf, rows[i]) - Fifo.Takes(Stock.Quantities(shelf, rows), requested)[i]
    {
      DeductionByRow(shelf, rows, requested, cost, i);
    }
  }

  lemma {:induction false} FilterOne(cells: seq<Stock.Cell>, p: Stock.Cell -> bool, cell: Stock.Cell)
    requires DistinctCells(cells) && forall c: Stock.Cell :: p(c) <==> c == cell
    ensures Stock.Filter(cells, p) == if cell in cells then [cell] else []
  {
    if cells != [] { FilterOne(cells[..|cells| - 1], p, cell); }
  }

  lemma BatchRow(shelf: Stock.Shelf, warehouse: nat, l: Stock.ReceiptLine)
    requires WellFormed(shelf) && l.batch.Some?
    ensures Stock.Filter(shelf.created, Stock.OfReturn(l.product, l.variant, warehouse, l.batch))
         == if RowOf(warehouse, l) in shelf.created then [RowOf(warehouse, l)] else []
  {
    FilterOne(shelf.created, Stock.OfReturn(l.product, l.variant, warehouse, l.batch), RowOf(warehouse, l));
  }

  lemma {:induction false} SameFilter(cells: seq<Stock.Cell>, p: Stock.Cell -> bool, q: Stock.Cell -> bool)
    requires forall c: Stock.Cell :: p(c) == q(c)
    ensures Stock.Filter(cells, p) == Stock.Filter(cells, q)
  {
    if cells != [] { SameFilter(cells[..|cells| - 1], p, q); }
  }

  lemma AnyRows(shelf: Stock.Shelf, warehouse: nat, l: Stock.ReceiptLine)
    requires l.batch.None?
    ensures Stock.Filter(shelf.created, Stock.OfReturn(l.product, l.variant, warehouse, l.batch))
         == Rows(shelf, warehouse, l.product, l.variant)
  {
    SameFilter(shelf.created, Stock.OfReturn(l.product, l.variant, warehouse, l.batch),
               Stock.OfItem(l.product, l.variant, warehouse));
  }

  lemma RowsAreDistinct(shelf: Stock.Shelf, warehouse: nat, product: nat, variant: Option<nat>)
    requires WellFormed(shelf)
    ensures DistinctCells(Rows(shelf, warehouse, product, variant))
  {
    FilterKeepsDistinct(shelf.created, Stock.OfItem(product, variant, warehouse));
  }

  function AfterLine(shelf: Stock.Shelf, warehouse: nat, l: Stock.ReceiptLine): Stock.Shelf
    requires Stock.PurchaseReturnLineMoves(shelf, warehouse, l).Some?
  {
    Stock.AddAll(shelf, Stock.PurchaseReturnLineMoves(shelf, warehouse, l).value)
  }

  lemma LineCreatesNone(shelf: Stock.Shelf, warehouse: nat, l: Stock.ReceiptLine)
    requires WellFormed(shelf) && Stock.PurchaseReturnLineMoves(shelf, warehouse, l).Some?
    ensures WellFormed(AfterLine(shelf, warehouse, l)) && AfterLine(shelf, warehouse, l).created == shelf.created
  {
    var rows := Stock.Filter(shelf.created, Stock.OfReturn(l.product, l.variant, warehouse, l.batch));
    var moves := Stock.DeductMoves(shelf, rows, l.quantity, l.unitCost);
    TakesAreFromRows(rows, Fifo.Takes(Stock.Quantities(shelf, rows), l.quantity), l.unitCost);
    forall i | 0 <= i < |moves| ensures moves[i].cell in shelf.quantity {
      assert moves[i].cell in rows;
    }
    MovesOnRowsCreateNone(shelf, moves);
    AddAllKeepsWellFormed(shelf, moves);
  }

  lemma OtherLine(shelf: Stock.Shelf, warehouse: nat, l: Stock.ReceiptLine, product: nat, variant: Option<nat>)
    requires WellFormed(shelf) && Stock.PurchaseReturnLineMoves(shelf, warehouse, l).Some?
    requires l.product != product || l.variant != variant
    ensures var rows := Rows(shelf, warehouse, product, variant);
            Stock.Quantities(AfterLine(shelf, warehouse, l), rows) == Stock.Quantities(shelf, rows)
  {
    var used := Stock.Filter(shelf.created, Stock.OfReturn(l.product, l.variant, warehouse, l.batch));
    var rows := Rows(shelf, warehouse, product, variant);
    forall k | 0 <= k < |rows| ensures Stock.Get(AfterLine(shelf, warehouse, l), rows[k]) == Stock.Get(shelf, rows[k]) {
      assert rows[k] in rows && rows[k] !in used;
      DeductionElsewhere(shelf, used, l.quantity, l.unitCost, rows[k]);
    }
  }

  lemma AnyLine(shelf: Stock.Shelf, warehouse: nat, l: Stock.ReceiptLine)
    requires WellFormed(shelf) && Stock.PurchaseReturnLineMoves(shelf, warehouse, l).Some? && l.batch.None?
    ensures var rows := Rows(shelf, warehouse, l.product, l.variant);
            Stock.Quantities(AfterLine(shelf, warehouse, l), rows) == Rest(Stock.Quantities(shelf, rows), Max(0, l.quantity))
  {
    var rows := Rows(shelf, warehouse, l.product, l.variant);
    AnyRows(shelf, warehouse, l);
    RowsAreDistinct(shelf, warehouse, l.product, l.variant);
    DeductionLeaves(shelf, rows, l.quantity, l.unitCost);
    if l.quantity < 0 {
      NothingIsTaken(Stock.Quantities(shelf, rows), l.quantity);
      NothingIsTaken(Stock.Quantities(shelf, rows), 0);
    }
  }

  /** A line with a batch takes all it asks for from the row of the batch. */
  lemma NamedLine(shelf: Stock.Shelf, warehouse: nat, l: Stock.ReceiptLine, cell: Stock.Cell)
    requires WellFormed(shelf) && l.batch.Some?
    ensures Stock.PurchaseReturnLineMoves(shelf, warehouse, l).Some? <==> Stock.Get(shelf, RowOf(warehouse, l)) >= l.quantity
    ensures Stock.PurchaseReturnLineMoves(shelf, warehouse, l).Some? ==>
              Stock.Get(AfterLine(shelf, warehouse, l), cell) == Stock.Get(shelf, cell) - AskedOf(warehouse, l, cell)
  {
    var row := RowOf(warehouse, l);
    var rows := Stock.Filter(shelf.created, Stock.OfReturn(l.product, l.variant, warehouse, l.batch));
    BatchRow(shelf, warehouse, l);
    AvailableOneMore(shelf, [], row);
    assert [] + [row] == [row];
    if cell in rows {
      DeductionLeaves(shelf, rows, l.quantity, l.unitCost);
      DeductionOfOne(Stock.Get(shelf, row), l.quantity);
    } else {
      DeductionElsewhere(shelf, rows, l.quantity, l.unitCost, cell);
    }
  }

  lemma DeductionOfOne(quantity: int, requested: int)
    ensures requested <= quantity ==> Rest([quantity], requested)[0] == quantity - Max(0, requested)
  {
    RestOfFront([quantity], requested);
  }

  // ---------------------------------------------------------------- what a return leaves

  function AfterReturn(shelf: Stock.Shelf, warehouse: nat, lines: seq<Stock.ReceiptLine>): Stock.Shelf
    requires Stock.PurchaseReturnMoves(shelf, warehouse, lines).Some?
  {
    Stock.AddAll(shelf, Stock.PurchaseReturnMoves(shelf, warehouse, lines).value)
  }

  lemma ReturnUnfolds(shelf: Stock.Shelf, warehouse: nat, lines: seq<Stock.ReceiptLine>)
    requires lines != []
    ensures var front, l := lines[..|lines| - 1], lines[|lines| - 1];
            && (Stock.PurchaseReturnMoves(shelf, warehouse, lines).Some? <==>
                  && Stock.PurchaseReturnMoves(shelf, warehouse, front).Some?
                  && Stock.PurchaseReturnLineMoves(AfterReturn(shelf, warehouse, front), warehouse, l).Some?)
            && (Stock.PurchaseReturnMoves(shelf, warehouse, lines).Some? ==>
                  AfterReturn(shelf, warehouse, lines) == AfterLine(AfterReturn(shelf, warehouse, front), warehouse, l))
  {
    var front, l := lines[..|lines| - 1], lines[|lines| - 1];
    if Stock.PurchaseReturnMoves(shelf, warehouse, lines).Some? {
      AddAllAppend(shelf, Stock.PurchaseReturnMoves(shelf, warehouse, front).value,
                   Stock.PurchaseReturnLineMoves(AfterReturn(shelf, warehouse, front), warehouse, l).value);
    }
  }

  lemma AsksUnfold(warehouse: nat, lines: seq<Stock.ReceiptLine>, row: Stock.Cell, product: nat, variant: Option<nat>)
    ensures if lines == [] then
              AskedOfRow(warehouse, lines, row) == 0 == AskedOfAny(lines, product, variant)
            else
              var front, l := lines[..|lines| - 1], lines[|lines| - 1];
              && AskedOfRow(warehouse, lines, row) == AskedOfRow(warehouse, front, row) + AskedOf(warehouse, l, row)
              && AskedOfAny(lines, product, variant) == AskedOfAny(front, product, variant) + AskedAnywhere(l, product, variant)
  {
  }

  /** Rows after the first lines, and what the last line does to them. */
  lemma AnyBatchNext(shelf: Stock.Shelf, warehouse: nat, front: seq<Stock.ReceiptLine>, lines: seq<Stock.ReceiptLine>,
                     rows: seq<Stock.Cell>, product: nat, variant: Option<nat>)
    requires lines != [] && front == lines[..|lines| - 1]
    requires lines[|lines| - 1].batch.None?
    ensures Unnamed(shelf, warehouse, lines, rows) == Unnamed(shelf, warehouse, front, rows)
  {
    forall k | 0 <= k < |rows|
      ensures AskedOfRow(warehouse, lines, rows[k]) == AskedOfRow(warehouse, front, rows[k])
    {
      AsksUnfold(warehouse, lines, rows[k], product, variant);
    }
  }

  lemma SoleRow(warehouse: nat, l: Stock.ReceiptLine, rows: seq<Stock.Cell>) returns (k: nat)
    requires DistinctCells(rows) && l.batch.Some? && RowOf(warehouse, l) in rows
    ensures k < |rows| && rows[k] == RowOf(warehouse, l)
    ensures forall j :: 0 <= j < |rows| ==> AskedOf(warehouse, l, rows[j]) == if j == k then Max(0, l.quantity) else 0
  {
    k :| 0 <= k < |rows| && rows[k] == RowOf(warehouse, l);
  }

  lemma UnnamedNext(shelf: Stock.Shelf, warehouse: nat, lines: seq<Stock.ReceiptLine>, rows: seq<Stock.Cell>, k: nat)
    requires lines != [] && k < |rows|
    requires var l := lines[|lines| - 1];
             forall j :: 0 <= j < |rows| ==> AskedOf(warehouse, l, rows[j]) == if j == k then Max(0, l.quantity) else 0
    ensures var front, l := lines[..|lines| - 1], lines[|lines| - 1];
            var before := Unnamed(shelf, warehouse, front, rows);
            Unnamed(shelf, warehouse, lines, rows) == before[k := before[k] - Max(0, l.quantity)]
  {
    hide AskedOfRow, AskedOf;
    forall j | 0 <= j < |rows|
      ensures AskedOfRow(warehouse, lines, rows[j])
           == AskedOfRow(warehouse, lines[..|lines| - 1], rows[j]) + AskedOf(warehouse, lines[|lines| - 1], rows[j])
    {
      AsksUnfold(warehouse, lines, rows[j], 0, None);
    }
  }

  lemma RestBeside(before: seq<int>, after: seq<int>, asked: int, k: nat, quantity: int)
    requires k < |before| == |after| && Rest(before, asked)[k] >= quantity
    requires forall j :: 0 <= j < |before| ==> after[j] == Rest(before, asked)[j] - if j == k then Max(0, quantity) else 0
    ensures after == Rest(before[k := before[k] - Max(0, quantity)], asked)
  {
    hide *;
    MaxIs(quantity);
    if quantity > 0 {
      TakenBeside(before, asked, k, quantity);
      assert after == Rest(before, asked)[k := Rest(before, asked)[k] - quantity];
    } else {
      assert before[k := before[k] - 0] == before && after == Rest(before, asked);
    }
  }

  lemma NamedNext(shelf: Stock.Shelf, warehouse: nat, lines: seq<Stock.ReceiptLine>, rows: seq<Stock.Cell>,
                  now: seq<int>, after: seq<int>, asked: int)
    requires lines != [] && DistinctCells(rows)
    requires lines[|lines| - 1].batch.Some? && RowOf(warehouse, lines[|lines| - 1]) in rows
    requires now == Rest(Unnamed(shelf, warehouse, lines[..|lines| - 1], rows), asked)
    requires |after| == |rows|
    requires forall k :: 0 <= k < |rows| ==> after[k] == now[k] - AskedOf(warehouse, lines[|lines| - 1], rows[k])
    requires forall k :: 0 <= k < |rows| && rows[k] == RowOf(warehouse, lines[|lines| - 1]) ==> now[k] >= lines[|lines| - 1].quantity
    ensures after == Rest(Unnamed(shelf, warehouse, lines, rows), asked)
  {
    var front, l := lines[..|lines| - 1], lines[|lines| - 1];
    hide *;
    var k := SoleRow(warehouse, l, rows);
    UnnamedNext(shelf, warehouse, lines, rows, k);
    RestBeside(Unnamed(shelf, warehouse, front, rows), after, asked, k, l.quantity);
  }

  lemma MaxIs(a: int)
    ensures Max(0, a) == if a > 0 then a else 0
  {
  }

  lemma {:induction false} ReturnLeaves(shelf: Stock.Shelf, warehouse: nat, lines: seq<Stock.ReceiptLine>,
                                        product: nat, variant: Option<nat>)
    requires WellFormed(shelf) && Stock.PurchaseReturnMoves(shelf, warehouse, lines).Some?
    ensures var after, rows := AfterReturn(shelf, warehouse, lines), Rows(shelf, warehouse, product, variant);
            && WellFormed(after) && after.created == shelf.created
            && Stock.Quantities(after, rows)
               == Rest(Unnamed(shelf, warehouse, lines, rows), AskedOfAny(lines, product, variant))
  {
    hide Stock.PurchaseReturnMoves, Stock.PurchaseReturnLineMoves, WellFormed, Stock.AddAll, AfterReturn, AfterLine, AskedOfRow, AskedOfAny;
    var rows := Rows(shelf, warehouse, product, variant);
    if lines == [] {
      NothingReturned(shelf, warehouse, rows, product, variant);
    } else {
      var front, l := lines[..|lines| - 1], lines[|lines| - 1];
      ReturnUnfolds(shelf, warehouse, lines);
      ReturnLeaves(shelf, warehouse, front, product, variant);
      var now := AfterReturn(shelf, warehouse, front);
      LineCreatesNone(now, warehouse, l);
      AsksUnfold(warehouse, lines, RowOf(warehouse, l), product, variant);
      LineLeaves(shelf, now, warehouse, lines, product, variant);
    }
  }

  lemma NothingReturned(shelf: Stock.Shelf, warehouse: nat, rows: seq<Stock.Cell>, product: nat, variant: Option<nat>)
    requires WellFormed(shelf)
    ensures Stock.PurchaseReturnMoves(shelf, warehouse, []).Some? && AfterReturn(shelf, warehouse, []) == shelf
    ensures Stock.Quantities(shelf, rows) == Rest(Unnamed(shelf, warehouse, [], rows), AskedOfAny([], product, variant))
  {
    forall k | 0 <= k < |rows| ensures AskedOfRow(warehouse, [], rows[k]) == 0 == AskedOfAny([], product, variant) {
      AsksUnfold(warehouse, [], rows[k], product, variant);
    }
    AsksUnfold(warehouse, [], Stock.Cell(0, None, None, 0), product, variant);
    NothingIsTaken(Unnamed(shelf, warehouse, [], rows), 0);
  }

  lemma LineLeaves(shelf: Stock.Shelf, now: Stock.Shelf, warehouse: nat, lines: seq<Stock.ReceiptLine>,
                   product: nat, variant: Option<nat>)
    requires lines != [] && WellFormed(now) && now.created == shelf.created
    requires Stock.PurchaseReturnLineMoves(now, warehouse, lines[|lines| - 1]).Some?
    requires var front, rows := lines[..|lines| - 1], Rows(shelf, warehouse, product, variant);
             Stock.Quantities(now, rows) == Rest(Unnamed(shelf, warehouse, front, rows), AskedOfAny(front, product, variant))
    ensures var rows := Rows(shelf, warehouse, product, variant);
            Stock.Quantities(AfterLine(now, warehouse, lines[|lines| - 1]), rows)
            == Rest(Unnamed(shelf, warehouse, lines, rows), AskedOfAny(lines, product, variant))
  {
    hide Stock.PurchaseReturnLineMoves, AfterLine, AskedOfRow, AskedOfAny, Fifo.Takes, Stock.Filter;
    var rows := Rows(shelf, warehouse, product, variant);
    var front, l := lines[..|lines| - 1], lines[|lines| - 1];
    AsksUnfold(warehouse, lines, RowOf(warehouse, l), product, variant);
    AsksAreNotNegative(warehouse, front, RowOf(warehouse, l), product, variant);
    if l.product != product || l.variant != variant {
      OtherLine(now, warehouse, l, product, variant);
      forall k | 0 <= k < |rows| ensures AskedOfRow(warehouse, lines, rows[k]) == AskedOfRow(warehouse, front, rows[k]) {
        assert rows[k] in rows;
        AsksUnfold(warehouse, lines, rows[k], product, variant);
      }
      assert Unnamed(shelf, warehouse, lines, rows) == Unnamed(shelf, warehouse, front, rows);
    } else if l.batch.None? {
      AnyLine(now, warehouse, l);
      AnyBatchNext(shelf, warehouse, front, lines, rows, product, variant);
      TakingTwice(Unnamed(shelf, warehouse, front, rows), AskedOfAny(front, product, variant), Max(0, l.quantity));
    } else {
      NamedLineLeaves(shelf, now, warehouse, lines);
    }
  }

  lemma NamedLineLeaves(shelf: Stock.Shelf, now: Stock.Shelf, warehouse: nat, lines: seq<Stock.ReceiptLine>)
    requires lines != [] && WellFormed(now) && now.created == shelf.created
    requires Stock.PurchaseReturnLineMoves(now, warehouse, lines[|lines| - 1]).Some? && lines[|lines| - 1].batch.Some?
    requires var front, l := lines[..|lines| - 1], lines[|lines| - 1];
             var rows := Rows(shelf, warehouse, l.product, l.variant);
             Stock.Quantities(now, rows) == Rest(Unnamed(shelf, warehouse, front, rows), AskedOfAny(front, l.product, l.variant))
    ensures var l := lines[|lines| - 1];
            var rows := Rows(shelf, warehouse, l.product, l.variant);
            Stock.Quantities(AfterLine(now, warehouse, l), rows)
            == Rest(Unnamed(shelf, warehouse, lines, rows), AskedOfAny(lines, l.product, l.variant))
  {
    hide Stock.PurchaseReturnLineMoves, AfterLine, AskedOfRow, AskedOfAny, Fifo.Takes, Stock.Filter;
    var front, l := lines[..|lines| - 1], lines[|lines| - 1];
    var row, rows := RowOf(warehouse, l), Rows(shelf, warehouse, l.product, l.variant);
    AsksUnfold(warehouse, lines, row, l.product, l.variant);
    var after := Stock.Quantities(AfterLine(now, warehouse, l), rows);
    forall k | 0 <= k < |rows| ensures after[k] == Stock.Get(now, rows[k]) - AskedOf(warehouse, l, rows[k]) {
      NamedLine(now, warehouse, l, rows[k]);
    }
    NamedLine(now, warehouse, l, row);
    RowsAreDistinct(now, warehouse, l.product, l.variant);
    if row in rows {
      NamedNext(shelf, warehouse, lines, rows, Stock.Quantities(now, rows), after, AskedOfAny(front, l.product, l.variant));
    } else {
      NoRow(shelf, warehouse, lines, rows);
      assert after == Stock.Quantities(now, rows);
    }
  }

  lemma NoRow(shelf: Stock.Shelf, warehouse: nat, lines: seq<Stock.ReceiptLine>, rows: seq<Stock.Cell>)
    requires lines != [] && RowOf(warehouse, lines[|lines| - 1]) !in rows
    ensures Unnamed(shelf, warehouse, lines, rows) == Unnamed(shelf, warehouse, lines[..|lines| - 1], rows)
  {
    forall k | 0 <= k < |rows|
      ensures AskedOfRow(warehouse, lines, rows[k]) == AskedOfRow(warehouse, lines[..|lines| - 1], rows[k])
    {
      AsksUnfold(warehouse, lines, rows[k], 0, None);
    }
  }

  /** Where a row stands among others. */
  function Place(rows: seq<Stock.Cell>, row: Stock.Cell): (k: nat)
    ensures k <= |rows| && (row in rows <==> k < |rows|) && (k < |rows| ==> rows[k] == row)
  {
    if rows == [] || rows[0] == row then 0 else 1 + Place(rows[1..], row)
  }

  /** What lines without a batch ask for beyond what the rows created before this one hold, when from those
      the batches that lines name have been taken. */
  function Spill(shelf: Stock.Shelf, warehouse: nat, lines: seq<Stock.ReceiptLine>, row: Stock.Cell): int
  {
    var rows := Rows(shelf, warehouse, row.product, row.variant);
    var before := rows[..Place(rows, row)];
    Max(0, AskedOfAny(lines, row.product, row.variant) - Sum(Positive(Unnamed(shelf, warehouse, lines, before))))
  }

  /** What lines leave of a row: first what names its batch is taken off, then what spills over to it. */
  function LeftOf(shelf: Stock.Shelf, warehouse: nat, lines: seq<Stock.ReceiptLine>, row: Stock.Cell): int
  {
    var free := Stock.Get(shelf, row) - AskedOfRow(warehouse, lines, row);
    free - Min(Spill(shelf, warehouse, lines, row), Max(0, free))
  }

  lemma TakeOfRow(quantities: seq<int>, requested: nat, k: nat)
    requires k < |quantities|
    ensures Fifo.Takes(quantities, requested)[k]
         == Min(Max(0, requested - Sum(Positive(quantities[..k]))), Max(0, quantities[k]))
  {
    TakeAt(quantities, requested, k);
    TakesOfPrefix(quantities, requested, k);
    TakenTotal(quantities[..k], requested);
    PositiveSum(Positive(quantities[..k]));
  }

  lemma RestIsLeft(shelf: Stock.Shelf, warehouse: nat, lines: seq<Stock.ReceiptLine>, row: Stock.Cell)
    requires row in Rows(shelf, warehouse, row.product, row.variant)
    ensures var rows := Rows(shelf, warehouse, row.product, row.variant);
            Rest(Unnamed(shelf, warehouse, lines, rows), AskedOfAny(lines, row.product, row.variant))[Place(rows, row)]
            == LeftOf(shelf, warehouse, lines, row)
  {
    hide AskedOfRow, AskedOfAny, Fifo.Takes, Rows;
    var rows := Rows(shelf, warehouse, row.product, row.variant);
    var k := Place(rows, row);
    var free := Unnamed(shelf, warehouse, lines, rows);
    AsksAreNotNegative(warehouse, lines, row, row.product, row.variant);
    TakeOfRow(free, AskedOfAny(lines, row.product, row.variant), k);
    assert free[..k] == Unnamed(shelf, warehouse, lines, rows[..k]);
  }

  lemma {:induction false} NamedRowsExist(shelf: Stock.Shelf, warehouse: nat, lines: seq<Stock.ReceiptLine>, row: Stock.Cell)
    requires WellFormed(shelf) && Stock.PurchaseReturnMoves(shelf, warehouse, lines).Some? && row !in shelf.created
    ensures AskedOfRow(warehouse, lines, row) == 0
  {
    hide Stock.PurchaseReturnMoves, Stock.PurchaseReturnLineMoves, Stock.AddAll, AfterReturn, AfterLine, AskedOfRow, AskedOfAny;
    AsksUnfold(warehouse, lines, row, 0, None);
    if lines != [] {
      var front, l := lines[..|lines| - 1], lines[|lines| - 1];
      ReturnUnfolds(shelf, warehouse, lines);
      NamedRowsExist(shelf, warehouse, front, row);
      ReturnLeaves(shelf, warehouse, front, 0, None);
      if l.batch.Some? { NamedLine(AfterReturn(shelf, warehouse, front), warehouse, l, row); }
    }
  }

  lemma NothingSpillsOnNothing(shelf: Stock.Shelf, warehouse: nat, lines: seq<Stock.ReceiptLine>, row: Stock.Cell)
    requires Stock.Get(shelf, row) == 0 == AskedOfRow(warehouse, lines, row)
    ensures LeftOf(shelf, warehouse, lines, row) == 0
  {
  }

  /** What a return leaves of any row of its warehouse is known from what its lines ask for together: their
      order does not show. */
  lemma ReturnLeavesOfRow(shelf: Stock.Shelf, warehouse: nat, lines: seq<Stock.ReceiptLine>, row: Stock.Cell)
    requires WellFormed(shelf) && Stock.PurchaseReturnMoves(shelf, warehouse, lines).Some? && row.warehouse == warehouse
    ensures Stock.Get(AfterReturn(shelf, warehouse, lines), row) == LeftOf(shelf, warehouse, lines, row)
  {
    hide Stock.PurchaseReturnMoves, Stock.AddAll, AfterReturn, AskedOfRow, AskedOfAny, LeftOf;
    var rows := Rows(shelf, warehouse, row.product, row.variant);
    var after := AfterReturn(shelf, warehouse, lines);
    ReturnLeaves(shelf, warehouse, lines, row.product, row.variant);
    if row in shelf.created {
      RestIsLeft(shelf, warehouse, lines, row);
      assert Stock.Quantities(after, rows)[Place(rows, row)] == Stock.Get(after, row);
    } else {
      NamedRowsExist(shelf, warehouse, lines, row);
      NothingSpillsOnNothing(shelf, warehouse, lines, row);
    }
  }

  // ---------------------------------------------------------------- when a return is possible

  /** There is enough for a line once the ones before it have been taken. */
  predicate LineFits(shelf: Stock.Shelf, warehouse: nat, before: seq<Stock.ReceiptLine>, l: Stock.ReceiptLine)
  {
    l.quantity <=
      if l.batch.Some? then LeftOf(shelf, warehouse, before, RowOf(warehouse, l))
      else Stocked(shelf, Stock.OfItem(l.product, l.variant, warehouse)) - UnitsAsked(before, l.product, l.variant)
  }

  predicate FitsInOrder(shelf: Stock.Shelf, warehouse: nat, lines: seq<Stock.ReceiptLine>)
  {
    forall i :: 0 <= i < |lines| ==> LineFits(shelf, warehouse, lines[..i], lines[i])
  }

  lemma FitsInOrderFront(shelf: Stock.Shelf, warehouse: nat, lines: seq<Stock.ReceiptLine>)
    requires lines != []
    ensures var front, l := lines[..|lines| - 1], lines[|lines| - 1];
            FitsInOrder(shelf, warehouse, lines) <==>
              FitsInOrder(shelf, warehouse, front) && LineFits(shelf, warehouse, front, l)
  {
    hide LineFits;
    var front := lines[..|lines| - 1];
    assert forall i :: 0 <= i < |front| ==> front[..i] == lines[..i];
  }

  lemma LastLineFitsExactly(shelf: Stock.Shelf, warehouse: nat, before: seq<Stock.ReceiptLine>, l: Stock.ReceiptLine)
    requires WellFormed(shelf) && Stock.PurchaseReturnMoves(shelf, warehouse, before).Some?
    ensures Stock.PurchaseReturnLineMoves(AfterReturn(shelf, warehouse, before), warehouse, l).Some?
       <==> LineFits(shelf, warehouse, before, l)
  {
    var now := AfterReturn(shelf, warehouse, before);
    ReturnLeaves(shelf, warehouse, before, l.product, l.variant);
    if l.batch.Some? {
      NamedLine(now, warehouse, l, RowOf(warehouse, l));
      ReturnLeavesOfRow(shelf, warehouse, before, RowOf(warehouse, l));
    } else {
      var p := Stock.OfItem(l.product, l.variant, warehouse);
      PurchaseReturnTotals(shelf, warehouse, before, l.product, l.variant, warehouse);
      StockedAddAll(shelf, Stock.PurchaseReturnMoves(shelf, warehouse, before).value, p);
      FilteredIsStocked(now, now.created, Stock.OfReturn(l.product, l.variant, warehouse, l.batch), p);
    }
  }

  /** Batches named or not, in the order given, whatever the quantities: a return is possible exactly if for
      each line there is enough once the lines before have been taken, told from the stock before it. */
  lemma {:induction false} ReturnFitsExactly(shelf: Stock.Shelf, warehouse: nat, lines: seq<Stock.ReceiptLine>)
    requires WellFormed(shelf)
    ensures Stock.PurchaseReturnMoves(shelf, warehouse, lines).Some? <==> FitsInOrder(shelf, warehouse, lines)
  {
    hide Stock.PurchaseReturnMoves, Stock.PurchaseReturnLineMoves, LineFits, FitsInOrder, AfterReturn;
    if lines == [] {
      NothingReturned(shelf, warehouse, [], 0, None);
      FitsNothing(shelf, warehouse);
    } else {
      var front, l := lines[..|lines| - 1], lines[|lines| - 1];
      ReturnUnfolds(shelf, warehouse, lines);
      ReturnFitsExactly(shelf, warehouse, front);
      FitsInOrderFront(shelf, warehouse, lines);
      if Stock.PurchaseReturnMoves(shelf, warehouse, front).Some? {
        LastLineFitsExactly(shelf, warehouse, front, l);
      }
    }
  }

  lemma FitsNothing(shelf: Stock.Shelf, warehouse: nat)
    ensures FitsInOrder(shelf, warehouse, [])
  {
  }

  // ---------------------------------------------------------------- named first, the rest after them

  /** A product and variant of which all that is asked for is there. */
  predicate Covered(shelf: Stock.Shelf, warehouse: nat, lines: seq<Stock.ReceiptLine>, product: nat, variant: Option<nat>)
  {
    Stocked(shelf, Stock.OfItem(product, variant, warehouse)) >= UnitsAsked(lines, product, variant)
  }

  predicate CoveredFrom(shelf: Stock.Shelf, warehouse: nat, lines: seq<Stock.ReceiptLine>, n: nat)
  {
    forall i :: n <= i < |lines| ==> Covered(shelf, warehouse, lines, lines[i].product, lines[i].variant)
  }

  /** Each row whose batch the first lines name holds all that they together ask of it. */
  predicate RowsCoverNamed(shelf: Stock.Shelf, warehouse: nat, lines: seq<Stock.ReceiptLine>)
  {
    forall i :: 0 <= i < |lines| ==>
      Stock.Get(shelf, RowOf(warehouse, lines[i])) >= AskedOfRow(warehouse, lines, RowOf(warehouse, lines[i]))
  }

  predicate Asking(lines: seq<Stock.ReceiptLine>)
  {
    forall i :: 0 <= i < |lines| ==> lines[i].quantity > 0
  }

  predicate AllNamed(lines: seq<Stock.ReceiptLine>)
  {
    forall i :: 0 <= i < |lines| ==> lines[i].batch.Some?
  }

  predicate Batchless(lines: seq<Stock.ReceiptLine>)
  {
    forall i :: 0 <= i < |lines| ==> lines[i].batch.None?
  }

  lemma CoveredFront(shelf: Stock.Shelf, warehouse: nat, lines: seq<Stock.ReceiptLine>, n: nat)
    requires n < |lines|
    ensures var front, last := lines[..|lines| - 1], lines[|lines| - 1];
            CoveredFrom(shelf, warehouse, lines, n) <==>
              CoveredFrom(shelf, warehouse, front, n) && Covered(shelf, warehouse, lines, last.product, last.variant)
  {
    var front, last := lines[..|lines| - 1], lines[|lines| - 1];
    if CoveredFrom(shelf, warehouse, lines, n) {
      forall i | n <= i < |front| ensures Covered(shelf, warehouse, front, front[i].product, front[i].variant) {
        assert Covered(shelf, warehouse, lines, lines[i].product, lines[i].variant);
      }
    }
    if CoveredFrom(shelf, warehouse, front, n) && Covered(shelf, warehouse, lines, last.product, last.variant) {
      forall i | n <= i < |lines| ensures Covered(shelf, warehouse, lines, lines[i].product, lines[i].variant) {
        if i < |front| { assert Covered(shelf, warehouse, front, front[i].product, front[i].variant); }
      }
    }
  }

  lemma {:induction false} NamedAskOfNone(lines: seq<Stock.ReceiptLine>, product: nat, variant: Option<nat>)
    requires AllNamed(lines)
    ensures AskedOfAny(lines, product, variant) == 0
  {
    TotalOfZero(lines, (l: Stock.ReceiptLine) => AskedAnywhere(l, product, variant));
  }

  lemma NothingSpills(shelf: Stock.Shelf, warehouse: nat, lines: seq<Stock.ReceiptLine>, row: Stock.Cell)
    requires AllNamed(lines)
    ensures Spill(shelf, warehouse, lines, row) == 0
    ensures LeftOf(shelf, warehouse, lines, row) == Stock.Get(shelf, row) - AskedOfRow(warehouse, lines, row)
  {
    NamedAskOfNone(lines, row.product, row.variant);
    var rows := Rows(shelf, warehouse, row.product, row.variant);
    PositiveSum(Positive(Unnamed(shelf, warehouse, lines, rows[..Place(rows, row)])));
  }

  lemma RowsCoverFront(shelf: Stock.Shelf, warehouse: nat, lines: seq<Stock.ReceiptLine>)
    requires lines != [] && AllNamed(lines) && Asking(lines)
    ensures var front, row := lines[..|lines| - 1], RowOf(warehouse, lines[|lines| - 1]);
            RowsCoverNamed(shelf, warehouse, lines) <==>
              && RowsCoverNamed(shelf, warehouse, front)
              && Stock.Get(shelf, row) >= AskedOfRow(warehouse, lines, row)
  {
    hide AskedOfRow;
    var front, l := lines[..|lines| - 1], lines[|lines| - 1];
    forall i | 0 <= i < |front|
      ensures front[i] == lines[i]
      ensures AskedOfRow(warehouse, lines, RowOf(warehouse, lines[i]))
           == AskedOfRow(warehouse, front, RowOf(warehouse, lines[i])) + AskedOf(warehouse, l, RowOf(warehouse, lines[i]))
    {
      AsksUnfold(warehouse, lines, RowOf(warehouse, lines[i]), 0, None);
    }
    if RowsCoverNamed(shelf, warehouse, front) && Stock.Get(shelf, RowOf(warehouse, l)) >= AskedOfRow(warehouse, lines, RowOf(warehouse, l)) {
      forall i | 0 <= i < |lines|
        ensures Stock.Get(shelf, RowOf(warehouse, lines[i])) >= AskedOfRow(warehouse, lines, RowOf(warehouse, lines[i]))
      {
        if i < |front| { assert front[i] == lines[i]; }
      }
    }
  }

  /** When every line names a batch: exactly if each row holds what the lines together ask of it. */
  lemma {:induction false} NamedReturnFitsExactly(shelf: Stock.Shelf, warehouse: nat, lines: seq<Stock.ReceiptLine>)
    requires WellFormed(shelf) && AllNamed(lines) && Asking(lines)
    ensures Stock.PurchaseReturnMoves(shelf, warehouse, lines).Some? <==> RowsCoverNamed(shelf, warehouse, lines)
  {
    hide Stock.PurchaseReturnMoves, Stock.PurchaseReturnLineMoves, AskedOfRow, AfterReturn, LeftOf, RowsCoverNamed;
    if lines == [] {
      NothingReturned(shelf, warehouse, [], 0, None);
      NoRowsToCover(shelf, warehouse);
    } else {
      var front, l := lines[..|lines| - 1], lines[|lines| - 1];
      ReturnUnfolds(shelf, warehouse, lines);
      NamedReturnFitsExactly(shelf, warehouse, front);
      RowsCoverFront(shelf, warehouse, lines);
      AsksUnfold(warehouse, lines, RowOf(warehouse, l), 0, None);
      NothingSpills(shelf, warehouse, front, RowOf(warehouse, l));
      if Stock.PurchaseReturnMoves(shelf, warehouse, front).Some? {
        LastLineFitsExactly(shelf, warehouse, front, l);
      }
    }
  }

  lemma NoRowsToCover(shelf: Stock.Shelf, warehouse: nat)
    ensures RowsCoverNamed(shelf, warehouse, [])
  {
  }

  lemma AskedUnfolds(lines: seq<Stock.ReceiptLine>, product: nat, variant: Option<nat>)
    requires lines != []
    ensures var l := lines[|lines| - 1];
            UnitsAsked(lines, product, variant) == UnitsAsked(lines[..|lines| - 1], product, variant)
              + (if l.product == product && l.variant == variant then Max(0, l.quantity) else 0)
  {
  }

  /** When the lines that name a batch come first: exactly if each row holds what they together ask of it,
      and of each product and variant of the others there is what all lines together ask for. */
  lemma {:induction false} NamedFirstFitsExactly(shelf: Stock.Shelf, warehouse: nat, lines: seq<Stock.ReceiptLine>, n: nat)
    requires WellFormed(shelf) && Asking(lines) && n <= |lines| && AllNamed(lines[..n]) && Batchless(lines[n..])
    ensures Stock.PurchaseReturnMoves(shelf, warehouse, lines).Some?
       <==> RowsCoverNamed(shelf, warehouse, lines[..n]) && CoveredFrom(shelf, warehouse, lines, n)
    decreases |lines|
  {
    hide Stock.PurchaseReturnMoves, Stock.PurchaseReturnLineMoves, AfterReturn, LeftOf, RowsCoverNamed, UnitsAsked;
    if n == |lines| {
      assert lines[..n] == lines;
      NamedReturnFitsExactly(shelf, warehouse, lines);
    } else {
      var front, l := lines[..|lines| - 1], lines[|lines| - 1];
      assert front[..n] == lines[..n] && l == lines[n..][|lines| - 1 - n];
      assert forall i :: 0 <= i < |front[n..]| ==> front[n..][i] == lines[n..][i];
      ReturnUnfolds(shelf, warehouse, lines);
      NamedFirstFitsExactly(shelf, warehouse, front, n);
      CoveredFront(shelf, warehouse, lines, n);
      AskedUnfolds(lines, l.product, l.variant);
      if Stock.PurchaseReturnMoves(shelf, warehouse, front).Some? {
        LastLineFitsExactly(shelf, warehouse, front, l);
      }
    }
  }

  /** When no line names a batch, the order does not matter. */
  lemma BatchlessReturnFitsExactly(shelf: Stock.Shelf, warehouse: nat, lines: seq<Stock.ReceiptLine>)
    requires WellFormed(shelf) && Asking(lines) && Batchless(lines)
    ensures Stock.PurchaseReturnMoves(shelf, warehouse, lines).Some? <==> CoveredFrom(shelf, warehouse, lines, 0)
  {
    assert lines[..0] == [] && lines[0..] == lines;
    NamedFirstFitsExactly(shelf, warehouse, lines, 0);
  }

  // ---------------------------------------------------------------- whatever the order

  /** Whatever lines come before it, there is enough for a line: of its product and variant all that is asked
      for, or in the row of its batch all that is asked of it and what may spill over to it. */
  predicate Spared(shelf: Stock.Shelf, warehouse: nat, lines: seq<Stock.ReceiptLine>, l: Stock.ReceiptLine)
  {
    if l.batch.Some? then
      Stock.Get(shelf, RowOf(warehouse, l))
        >= AskedOfRow(warehouse, lines, RowOf(warehouse, l)) + Spill(shelf, warehouse, lines, RowOf(warehouse, l))
    else Covered(shelf, warehouse, lines, l.product, l.variant)
  }

  lemma TotalOfPrefix<T>(s: seq<T>, f: T -> int, i: nat)
    requires i <= |s| && forall x :: f(x) >= 0
    ensures Total(s[..i], f) <= Total(s, f)
    ensures (forall j :: i <= j < |s| ==> f(s[j]) == 0) ==> Total(s[..i], f) == Total(s, f)
  {
    assert s == s[..i] + s[i..];
    TotalAppend(s[..i], s[i..], f);
    TotalIsNotNegative(s[i..], f);
    if forall j :: i <= j < |s| ==> f(s[j]) == 0 { TotalOfZero(s[i..], f); }
  }

  lemma AsksOfPrefix(warehouse: nat, lines: seq<Stock.ReceiptLine>, i: nat, row: Stock.Cell)
    requires i <= |lines|
    ensures AskedOfRow(warehouse, lines[..i], row) <= AskedOfRow(warehouse, lines, row)
    ensures AskedOfAny(lines[..i], row.product, row.variant) <= AskedOfAny(lines, row.product, row.variant)
  {
    TotalOfPrefix(lines, (l: Stock.ReceiptLine) => AskedOf(warehouse, l, row), i);
    TotalOfPrefix(lines, (l: Stock.ReceiptLine) => AskedAnywhere(l, row.product, row.variant), i);
  }

  lemma SpillGrows(shelf: Stock.Shelf, warehouse: nat, lines: seq<Stock.ReceiptLine>, i: nat, row: Stock.Cell)
    requires i <= |lines|
    ensures Spill(shelf, warehouse, lines[..i], row) <= Spill(shelf, warehouse, lines, row)
  {
    hide AskedOfRow, AskedOfAny;
    var rows := Rows(shelf, warehouse, row.product, row.variant);
    var before := rows[..Place(rows, row)];
    AsksOfPrefix(warehouse, lines, i, row);
    forall k | 0 <= k < |before| ensures AskedOfRow(warehouse, lines[..i], before[k]) <= AskedOfRow(warehouse, lines, before[k]) {
      AsksOfPrefix(warehouse, lines, i, before[k]);
    }
    SumMonotone(Positive(Unnamed(shelf, warehouse, lines, before)), Positive(Unnamed(shelf, warehouse, lines[..i], before)));
  }

  lemma SparedFits(shelf: Stock.Shelf, warehouse: nat, lines: seq<Stock.ReceiptLine>, i: nat)
    requires Asking(lines) && i < |lines| && Spared(shelf, warehouse, lines, lines[i])
    ensures LineFits(shelf, warehouse, lines[..i], lines[i])
  {
    hide AskedOfRow, AskedOfAny, UnitsAsked;
    var l, upTo := lines[i], lines[..i + 1];
    assert upTo[..i] == lines[..i];
    if l.batch.Some? {
      var row := RowOf(warehouse, l);
      SpillGrows(shelf, warehouse, lines, i, row);
      AsksOfPrefix(warehouse, lines, i + 1, row);
      AsksUnfold(warehouse, upTo, row, 0, None);
    } else {
      UnitsOfPrefix(lines, i + 1, l.product, l.variant);
      AskedUnfolds(upTo, l.product, l.variant);
    }
  }

  lemma UnitsOfPrefix(lines: seq<Stock.ReceiptLine>, i: nat, product: nat, variant: Option<nat>)
    requires i <= |lines|
    ensures UnitsAsked(lines[..i], product, variant) <= UnitsAsked(lines, product, variant)
    ensures (forall j :: i <= j < |lines| ==> !(lines[j].product == product && lines[j].variant == variant)) ==>
              UnitsAsked(lines[..i], product, variant) == UnitsAsked(lines, product, variant)
  {
    TotalOfPrefix(lines, (l: Stock.ReceiptLine) => if l.product == product && l.variant == variant then Max(0, l.quantity) else 0, i);
  }

  /** If every line is spared, the return is possible. */
  lemma SparedReturnFits(shelf: Stock.Shelf, warehouse: nat, lines: seq<Stock.ReceiptLine>)
    requires WellFormed(shelf) && Asking(lines)
    requires forall i :: 0 <= i < |lines| ==> Spared(shelf, warehouse, lines, lines[i])
    ensures Stock.PurchaseReturnMoves(shelf, warehouse, lines).Some?
  {
    forall i | 0 <= i < |lines| ensures LineFits(shelf, warehouse, lines[..i], lines[i]) {
      SparedFits(shelf, warehouse, lines, i);
    }
    ReturnFitsExactly(shelf, warehouse, lines);
  }

  /** No later line is of the same product. */
  predicate LastOfProduct(lines: seq<Stock.ReceiptLine>, i: nat)
    requires i < |lines|
  {
    forall j :: i < j < |lines| ==> lines[j].product != lines[i].product
  }

  lemma AsksOfLast(warehouse: nat, lines: seq<Stock.ReceiptLine>, i: nat, row: Stock.Cell)
    requires i < |lines| && LastOfProduct(lines, i) && row.product == lines[i].product && lines[i].batch.Some?
    ensures AskedOfRow(warehouse, lines, row) == AskedOfRow(warehouse, lines[..i], row) + AskedOf(warehouse, lines[i], row)
    ensures AskedOfAny(lines, row.product, row.variant) == AskedOfAny(lines[..i], row.product, row.variant)
  {
    var upTo := lines[..i + 1];
    assert upTo[..i] == lines[..i];
    TotalOfPrefix(lines, (l: Stock.ReceiptLine) => AskedOf(warehouse, l, row), i + 1);
    TotalOfPrefix(lines, (l: Stock.ReceiptLine) => AskedAnywhere(l, row.product, row.variant), i + 1);
    AsksUnfold(warehouse, upTo, row, row.product, row.variant);
  }

  lemma SpillAtLast(shelf: Stock.Shelf, warehouse: nat, lines: seq<Stock.ReceiptLine>, i: nat)
    requires WellFormed(shelf)
    requires i < |lines| && LastOfProduct(lines, i) && lines[i].batch.Some?
    ensures var row := RowOf(warehouse, lines[i]);
            Spill(shelf, warehouse, lines, row) == Spill(shelf, warehouse, lines[..i], row)
  {
    hide AskedOfRow, AskedOfAny, Stock.Filter;
    var row := RowOf(warehouse, lines[i]);
    var rows := Rows(shelf, warehouse, row.product, row.variant);
    var before := rows[..Place(rows, row)];
    RowsAreDistinct(shelf, warehouse, row.product, row.variant);
    AsksOfLast(warehouse, lines, i, row);
    forall k | 0 <= k < |before| ensures AskedOfRow(warehouse, lines, before[k]) == AskedOfRow(warehouse, lines[..i], before[k]) {
      assert before[k] in rows && before[k] != row;
      AsksOfLast(warehouse, lines, i, before[k]);
    }
    assert Unnamed(shelf, warehouse, lines, before) == Unnamed(shelf, warehouse, lines[..i], before);
  }

  /** If a line that comes last of its product fits, it is spared. */
  lemma LastIsSpared(shelf: Stock.Shelf, warehouse: nat, lines: seq<Stock.ReceiptLine>, i: nat)
    requires WellFormed(shelf) && Asking(lines) && i < |lines| && LastOfProduct(lines, i)
    requires LineFits(shelf, warehouse, lines[..i], lines[i])
    ensures Spared(shelf, warehouse, lines, lines[i])
  {
    hide AskedOfRow, AskedOfAny, UnitsAsked, WellFormed;
    var l, upTo := lines[i], lines[..i + 1];
    assert upTo[..i] == lines[..i];
    if l.batch.Some? {
      SpillAtLast(shelf, warehouse, lines, i);
      AsksOfLast(warehouse, lines, i, RowOf(warehouse, l));
    } else {
      UnitsOfPrefix(lines, i + 1, l.product, l.variant);
      AskedUnfolds(upTo, l.product, l.variant);
    }
  }
}

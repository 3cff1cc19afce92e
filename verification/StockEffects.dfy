/** What single operations come to: exactly when stock suffices, and what an adjustment, a count, a
    transfer and a customer return leave in the rows. */
module StockEffects {
  import opened Results
  import opened Sums
  import opened Fifo
  import Books
  import opened Stock
  import opened StockInvariants
  import opened StockRuns

  // ---------------------------------------------------------------- availability

  lemma {:induction false} FilteredIsStocked(shelf: Shelf, cells: seq<Cell>, p: Cell -> bool, q: Cell -> bool)
    requires forall c: Cell :: p(c) == q(c)
    ensures Available(shelf, Filter(cells, p))
         == Total(cells, (c: Cell) => if q(c) then Get(shelf, c) else 0)
  {
    if cells != [] {
      var front, last := cells[..|cells| - 1], cells[|cells| - 1];
      FilteredIsStocked(shelf, front, p, q);
      if p(last) {
        var rows := Filter(front, p);
        assert Quantities(shelf, rows + [last])[..|rows|] == Quantities(shelf, rows);
      }
    }
  }

  lemma AvailableOneMore(shelf: Shelf, cells: seq<Cell>, cell: Cell)
    ensures Available(shelf, cells + [cell]) == Available(shelf, cells) + Get(shelf, cell)
  {
    assert Quantities(shelf, cells + [cell])[..|cells|] == Quantities(shelf, cells);
  }

  lemma {:induction false} InsertKeepsAvailable(expiry: map<nat, int>, shelf: Shelf, sorted: seq<Cell>, cell: Cell)
    ensures Available(shelf, InsertByExpiry(expiry, sorted, cell)) == Available(shelf, sorted) + Get(shelf, cell)
  {
    if sorted == [] {
      AvailableOneMore(shelf, [], cell);
      assert [] + [cell] == [cell];
    } else {
      var front, last := sorted[..|sorted| - 1], sorted[|sorted| - 1];
      AvailableOneMore(shelf, sorted, cell);
      AvailableOneMore(shelf, front, last);
      assert front + [last] == sorted;
      InsertKeepsAvailable(expiry, shelf, front, cell);
      AvailableOneMore(shelf, InsertByExpiry(expiry, front, cell), last);
    }
  }

  lemma {:induction false} ByExpiryKeepsAvailable(expiry: map<nat, int>, shelf: Shelf, cells: seq<Cell>)
    ensures Available(shelf, ByExpiry(expiry, cells)) == Available(shelf, cells)
  {
    if cells != [] {
      var front, last := cells[..|cells| - 1], cells[|cells| - 1];
      ByExpiryKeepsAvailable(expiry, shelf, front);
      InsertKeepsAvailable(expiry, shelf, ByExpiry(expiry, front), last);
      AvailableOneMore(shelf, front, last);
      assert front + [last] == cells;
    }
  }

  /** What the deduction order has available is what there is of the product and variant, over all
      batches. */
  lemma AvailableIsStocked(expiry: map<nat, int>, shelf: Shelf, product: nat, variant: Option<nat>, warehouse: nat)
    ensures Available(shelf, FifoOrder(expiry, shelf, product, variant, warehouse))
         == Stocked(shelf, OfItem(product, variant, warehouse))
  {
    var p := OfItem(product, variant, warehouse);
    ByExpiryKeepsAvailable(expiry, shelf, Filter(shelf.created, p));
    FilteredIsStocked(shelf, shelf.created, p, p);
  }

  // ---------------------------------------------------------------- when an invoice fits

  /** What lines ask for of one product and variant. */
  function Asked(lines: seq<InvoiceLine>, product: nat, variant: Option<nat>): int
  {
    Total(lines, (l: InvoiceLine) => if l.product.id == product && l.variant == variant then Max(0, l.quantity) else 0)
  }

  lemma {:induction false} InvoiceTotals(s: State, warehouse: nat, lines: seq<InvoiceLine>,
                                         product: nat, variant: Option<nat>, place: nat)
    requires InvoiceMoves(s, warehouse, lines).Some?
    ensures Moved(InvoiceMoves(s, warehouse, lines).value, OfItem(product, variant, place))
         == if place == warehouse then -Asked(lines, product, variant) else 0
  {
    if lines != [] {
      var n := |lines| - 1;
      InvoiceTotals(s, warehouse, lines[..n], product, variant, place);
      var front, l, p := InvoiceMoves(s, warehouse, lines[..n]).value, lines[n], OfItem(product, variant, place);
      var now := AddAll(s.shelf, front);
      var order := FifoOrder(s.expiry, now, l.product.id, l.variant, warehouse);
      var inside := l.product.id == product && l.variant == variant && place == warehouse;
      FifoOrderIsOfItem(s.expiry, now, l.product.id, l.variant, warehouse, p, inside);
      DeductTotals(now, order, l.quantity, l.product.cost, p, inside);
      TotalAppend(front, DeductMoves(now, order, l.quantity, l.product.cost),
                  (m: Move) => if p(m.cell) then m.quantity else 0);
    }
  }

  /** There is as much of a product and variant as the lines ask for. */
  predicate Enough(shelf: Shelf, warehouse: nat, lines: seq<InvoiceLine>, product: nat, variant: Option<nat>)
  {
    Stocked(shelf, OfItem(product, variant, warehouse)) >= Asked(lines, product, variant)
  }

  predicate EnoughForAll(shelf: Shelf, warehouse: nat, lines: seq<InvoiceLine>)
  {
    forall i :: 0 <= i < |lines| ==> Enough(shelf, warehouse, lines, lines[i].product.id, lines[i].variant)
  }

  lemma EnoughForFront(shelf: Shelf, warehouse: nat, lines: seq<InvoiceLine>)
    requires lines != []
    ensures var front, last := lines[..|lines| - 1], lines[|lines| - 1];
            EnoughForAll(shelf, warehouse, lines) <==>
              EnoughForAll(shelf, warehouse, front) && Enough(shelf, warehouse, lines, last.product.id, last.variant)
  {
    var front, last := lines[..|lines| - 1], lines[|lines| - 1];
    if EnoughForAll(shelf, warehouse, lines) {
      forall i | 0 <= i < |front| ensures Enough(shelf, warehouse, front, front[i].product.id, front[i].variant) {
        assert Enough(shelf, warehouse, lines, lines[i].product.id, lines[i].variant);
      }
    }
    if EnoughForAll(shelf, warehouse, front) && Enough(shelf, warehouse, lines, last.product.id, last.variant) {
      forall i | 0 <= i < |lines| ensures Enough(shelf, warehouse, lines, lines[i].product.id, lines[i].variant) {
        if i < |front| { assert Enough(shelf, warehouse, front, front[i].product.id, front[i].variant); }
      }
    }
  }

  lemma LastLineFits(s: State, warehouse: nat, lines: seq<InvoiceLine>)
    requires WellFormed(s.shelf) && lines != [] && lines[|lines| - 1].quantity >= 0
    requires InvoiceMoves(s, warehouse, lines[..|lines| - 1]).Some?
    ensures InvoiceMoves(s, warehouse, lines).Some?
       <==> Enough(s.shelf, warehouse, lines, lines[|lines| - 1].product.id, lines[|lines| - 1].variant)
  {
    hide Stocked, Moved, FifoOrder, AddAll, DeductMoves, Available;
    var n := |lines| - 1;
    var front, l := InvoiceMoves(s, warehouse, lines[..n]).value, lines[n];
    InvoiceTotals(s, warehouse, lines[..n], l.product.id, l.variant, warehouse);
    StockedAddAll(s.shelf, front, OfItem(l.product.id, l.variant, warehouse));
    AvailableIsStocked(s.expiry, AddAll(s.shelf, front), l.product.id, l.variant, warehouse);
  }

  /** Whatever the batches, their dates and the order of the lines: an invoice can be deducted exactly if
      there is as much of each product and variant as its lines together ask for. */
  lemma {:induction false} InvoiceFitsExactly(s: State, warehouse: nat, lines: seq<InvoiceLine>)
    requires WellFormed(s.shelf) && forall i :: 0 <= i < |lines| ==> lines[i].quantity >= 0
    ensures InvoiceMoves(s, warehouse, lines).Some? <==> EnoughForAll(s.shelf, warehouse, lines)
  {
    if lines != [] {
      var front := lines[..|lines| - 1];
      InvoiceFitsExactly(s, warehouse, front);
      if InvoiceMoves(s, warehouse, front).Some? { LastLineFits(s, warehouse, lines); }
      EnoughForFront(s.shelf, warehouse, lines);
    }
  }

  /** Up to and with the item at `i` there is as much of its product and variant as is asked for. */
  predicate EnoughSoFar(shelf: Shelf, warehouse: nat, items: seq<SaleItem>, i: nat)
    requires i < |items|
  {
    Stocked(shelf, OfItem(items[i].product.id, items[i].variant, warehouse))
      >= UnitsOf(items[..i + 1], items[i].product.id, items[i].variant)
  }

  /** Every item is taken from stock, but only for tracked ones is availability checked. */
  predicate EnoughForTracked(shelf: Shelf, warehouse: nat, items: seq<SaleItem>)
  {
    forall i :: 0 <= i < |items| && items[i].product.tracked ==> EnoughSoFar(shelf, warehouse, items, i)
  }

  lemma EnoughForTrackedFront(shelf: Shelf, warehouse: nat, items: seq<SaleItem>)
    requires items != []
    ensures EnoughForTracked(shelf, warehouse, items)
       <==> EnoughForTracked(shelf, warehouse, items[..|items| - 1])
            && (items[|items| - 1].product.tracked ==> EnoughSoFar(shelf, warehouse, items, |items| - 1))
  {
    var front := items[..|items| - 1];
    forall i | 0 <= i < |front|
      ensures EnoughSoFar(shelf, warehouse, front, i) == EnoughSoFar(shelf, warehouse, items, i)
    {
      assert front[..i + 1] == items[..i + 1];
    }
  }

  lemma LastItemFits(s: State, warehouse: nat, items: seq<SaleItem>)
    requires WellFormed(s.shelf) && items != [] && SaleMoves(s, warehouse, items[..|items| - 1]).Some?
    ensures SaleMoves(s, warehouse, items).Some?
       <==> (items[|items| - 1].product.tracked ==> EnoughSoFar(s.shelf, warehouse, items, |items| - 1))
  {
    hide Stocked, Moved, FifoOrder, AddAll, DeductMoves, Available;
    var n := |items| - 1;
    var front, item := SaleMoves(s, warehouse, items[..n]).value, items[n];
    SaleTotals(s, warehouse, items[..n], item.product.id, item.variant, warehouse);
    StockedAddAll(s.shelf, front, OfItem(item.product.id, item.variant, warehouse));
    AvailableIsStocked(s.expiry, AddAll(s.shelf, front), item.product.id, item.variant, warehouse);
    assert items[..n + 1] == items;
  }

  /** A sale of any items, tracked or not, can be deducted exactly if for each tracked item there is, over
      all batches, as much of its product and variant as it and the items before it ask for. */
  lemma {:induction false} SaleFitsExactly(s: State, warehouse: nat, items: seq<SaleItem>)
    requires WellFormed(s.shelf)
    ensures SaleMoves(s, warehouse, items).Some? <==> EnoughForTracked(s.shelf, warehouse, items)
  {
    if items != [] {
      var front := items[..|items| - 1];
      SaleFitsExactly(s, warehouse, front);
      if SaleMoves(s, warehouse, front).Some? { LastItemFits(s, warehouse, items); }
      EnoughForTrackedFront(s.shelf, warehouse, items);
    }
  }

  /** When all items are tracked the order of the items does not matter either: it fits exactly if each
      product and variant has what the whole sale asks for. */
  lemma TrackedSaleFitsExactly(s: State, warehouse: nat, items: seq<SaleItem>)
    requires WellFormed(s.shelf) && forall i :: 0 <= i < |items| ==> items[i].product.tracked
    ensures SaleMoves(s, warehouse, items).Some? <==> EnoughForAll(s.shelf, warehouse, AsLines(items))
  {
    SaleAndInvoiceAgree(s, warehouse, items);
    InvoiceFitsExactly(s, warehouse, AsLines(items));
  }

  // ---------------------------------------------------------------- rows after single operations

  /** Approving an adjustment changes its row by the requested quantity, and no other. */
  lemma AdjustmentMovesItsRow(s: State, request: nat, move: Move, cell: Cell)
    requires AdjustmentTx(request) !in s.transactions
    ensures Get(Step(s, Adjust(request, move)).shelf, cell)
         == Get(s.shelf, cell) + if cell == move.cell then move.quantity else 0
  {
    AddAllGet(s.shelf, [move], cell);
    TotalOfOne(move, (m: Move) => if Only(cell)(m.cell) then m.quantity else 0);
  }

  function CountedCell(warehouse: nat, item: CountItem): Cell
  {
    Cell(item.product.id, item.variant, None, warehouse)
  }

  predicate CountsEachOnce(items: seq<CountItem>)
  {
    forall i, j :: 0 <= i < j < |items| ==>
      items[i].product.id != items[j].product.id || items[i].variant != items[j].variant
  }

  function VarianceFor(warehouse: nat, item: CountItem, cell: Cell): int
  {
    if CountedCell(warehouse, item) == cell then item.counted - item.expected else 0
  }

  lemma CountAppend(warehouse: nat, items: seq<CountItem>, cell: Cell)
    requires items != []
    ensures Moved(CountMoves(warehouse, items), Only(cell))
         == Moved(CountMoves(warehouse, items[..|items| - 1]), Only(cell)) + VarianceFor(warehouse, items[|items| - 1], cell)
  {
    var front, i := items[..|items| - 1], items[|items| - 1];
    var f := (m: Move) => if Only(cell)(m.cell) then m.quantity else 0;
    var m := Move(CountedCell(warehouse, i), i.counted - i.expected, i.product.cost);
    var moves := CountMoves(warehouse, front);
    TotalAppend(moves, [m], f);
    TotalOfOne(m, f);
    assert moves + [] == moves;
  }

  /** What a count does to a cell: the variances of all items that count it. */
  function VarianceOf(warehouse: nat, items: seq<CountItem>, cell: Cell): int
  {
    Total(items, (i: CountItem) => VarianceFor(warehouse, i, cell))
  }

  lemma {:induction false} CountMovesVariance(warehouse: nat, items: seq<CountItem>, cell: Cell)
    ensures Moved(CountMoves(warehouse, items), Only(cell)) == VarianceOf(warehouse, items, cell)
  {
    if items != [] {
      CountMovesVariance(warehouse, items[..|items| - 1], cell);
      CountAppend(warehouse, items, cell);
    }
  }

  lemma {:induction false} SoleVariance(warehouse: nat, items: seq<CountItem>, k: nat)
    requires CountsEachOnce(items) && k < |items|
    ensures VarianceOf(warehouse, items, CountedCell(warehouse, items[k])) == items[k].counted - items[k].expected
  {
    var front, last, cell := items[..|items| - 1], items[|items| - 1], CountedCell(warehouse, items[k]);
    if k < |front| {
      assert front[k] == items[k];
      SoleVariance(warehouse, front, k);
      assert CountedCell(warehouse, last) != cell;
    } else {
      forall i | 0 <= i < |front| ensures VarianceFor(warehouse, front[i], cell) == 0 {
        assert front[i] == items[i];
      }
      TotalOfZero(front, (i: CountItem) => VarianceFor(warehouse, i, cell));
    }
  }

  /** Finalizing a count shifts every row by the variances of the items that count it. A row that one
      item counts holds what was counted exactly if what was expected is still what it held. */
  lemma CountCorrectsExactly(s: State, count: nat, warehouse: nat, items: seq<CountItem>, cell: Cell, k: nat)
    requires CountTx(count) !in s.transactions
    ensures Step(s, Count(count, warehouse, items)).transactions == s.transactions + {CountTx(count)}
    ensures var after := Step(s, Count(count, warehouse, items)).shelf;
            && Get(after, cell) == Get(s.shelf, cell) + VarianceOf(warehouse, items, cell)
            && (CountsEachOnce(items) && k < |items| && cell == CountedCell(warehouse, items[k]) ==>
                  (Get(after, cell) == items[k].counted <==> Get(s.shelf, cell) == items[k].expected))
  {
    CountMovesVariance(warehouse, items, cell);
    AddAllGet(s.shelf, CountMoves(warehouse, items), cell);
    if CountsEachOnce(items) && k < |items| { SoleVariance(warehouse, items, k); }
  }

  // ---------------------------------------------------------------- receipts

  predicate SortedByKey(lines: seq<ReceiptLine>)
  {
    forall i, j :: 0 <= i < j < |lines| ==> !KeyBefore(lines[j], lines[i])
  }

  lemma {:induction false} InsertByKeyTotal(sorted: seq<ReceiptLine>, line: ReceiptLine, f: ReceiptLine -> int)
    ensures Total(InsertByKey(sorted, line), f) == Total(sorted, f) + f(line)
  {
    if sorted == [] {
      TotalOfOne(line, f);
    } else {
      var front, last := sorted[..|sorted| - 1], sorted[|sorted| - 1];
      InsertByKeyTotal(front, line, f);
      TotalOfOne(last, f);
      TotalOfOne(line, f);
      TotalAppend(InsertByKey(front, line), [last], f);
      TotalAppend(sorted, [line], f);
    }
  }

  lemma {:induction false} InKeyOrderTotal(lines: seq<ReceiptLine>, f: ReceiptLine -> int)
    ensures Total(InKeyOrder(lines), f) == Total(lines, f)
  {
    if lines != [] {
      InKeyOrderTotal(lines[..|lines| - 1], f);
      InsertByKeyTotal(InKeyOrder(lines[..|lines| - 1]), lines[|lines| - 1], f);
    }
  }

  lemma {:induction false} InsertByKeyKeepsElements(sorted: seq<ReceiptLine>, line: ReceiptLine)
    ensures multiset(InsertByKey(sorted, line)) == multiset(sorted) + multiset{line}
  {
    if sorted != [] {
      var front, last := sorted[..|sorted| - 1], sorted[|sorted| - 1];
      assert sorted == front + [last];
      InsertByKeyKeepsElements(front, line);
    }
  }

  lemma {:induction false} InsertByKeySorts(sorted: seq<ReceiptLine>, line: ReceiptLine)
    requires SortedByKey(sorted)
    ensures SortedByKey(InsertByKey(sorted, line))
  {
    if sorted != [] {
      var front, last := sorted[..|sorted| - 1], sorted[|sorted| - 1];
      InsertByKeySorts(front, line);
      if KeyBefore(line, last) {
        var r := InsertByKey(front, line);
        InsertByKeyKeepsElements(front, line);
        forall i | 0 <= i < |r| ensures !KeyBefore(last, r[i]) {
          assert r[i] in multiset(r);
          assert r[i] == line || r[i] in front;
        }
      }
    }
  }

  lemma {:induction false} InKeyOrderIsSorted(lines: seq<ReceiptLine>)
    ensures SortedByKey(InKeyOrder(lines)) && multiset(InKeyOrder(lines)) == multiset(lines)
  {
    if lines != [] {
      InKeyOrderIsSorted(lines[..|lines| - 1]);
      InsertByKeySorts(InKeyOrder(lines[..|lines| - 1]), lines[|lines| - 1]);
      InsertByKeyKeepsElements(InKeyOrder(lines[..|lines| - 1]), lines[|lines| - 1]);
      assert lines == lines[..|lines| - 1] + [lines[|lines| - 1]];
    }
  }

  /** A missing key comes before all others, which are compared by number. */
  predicate KeyNotAfter(a: Option<nat>, b: Option<nat>)
  {
    a.Some? ==> b.Some? && a.value <= b.value
  }

  /** Movements are applied by product, those of a product by variant, those of a variant by batch, all of
      them once. */
  lemma InKeyOrderSorts(lines: seq<ReceiptLine>)
    ensures multiset(InKeyOrder(lines)) == multiset(lines)
    ensures forall i, j :: 0 <= i < j < |InKeyOrder(lines)| ==>
              var a, b := InKeyOrder(lines)[i], InKeyOrder(lines)[j];
              && a.product <= b.product
              && (a.product == b.product ==> KeyNotAfter(a.variant, b.variant))
              && (a.product == b.product && a.variant == b.variant ==> KeyNotAfter(a.batch, b.batch))
  {
    InKeyOrderIsSorted(lines);
    var sorted := InKeyOrder(lines);
    forall i, j | 0 <= i < j < |sorted|
      ensures var a, b := sorted[i], sorted[j];
              && a.product <= b.product
              && (a.product == b.product ==> KeyNotAfter(a.variant, b.variant))
              && (a.product == b.product && a.variant == b.variant ==> KeyNotAfter(a.batch, b.batch))
    {
      assert !KeyBefore(sorted[j], sorted[i]);
    }
  }

  /** What movements bring in of one product and variant. */
  function Brought(lines: seq<ReceiptLine>, product: nat, variant: Option<nat>): int
  {
    Total(lines, (l: ReceiptLine) => if l.product == product && l.variant == variant then l.quantity else 0)
  }

  /** A receipt moves exactly what its movements bring in, of each product and variant. */
  lemma ReceiptTotals(warehouse: nat, lines: seq<ReceiptLine>, product: nat, variant: Option<nat>, place: nat)
    ensures Moved(ReceiptMoves(warehouse, InKeyOrder(lines)), OfItem(product, variant, place))
         == if place == warehouse then Brought(lines, product, variant) else 0
  {
    var sorted := InKeyOrder(lines);
    var moves, p := ReceiptMoves(warehouse, sorted), OfItem(product, variant, place);
    var f := (m: Move) => if p(m.cell) then m.quantity else 0;
    var g := (l: ReceiptLine) => if l.product == product && l.variant == variant then l.quantity else 0;
    if place == warehouse {
      TotalsAgree(moves, sorted, f, g);
      InKeyOrderTotal(lines, g);
    } else {
      TotalOfZero(moves, f);
    }
  }

  // ---------------------------------------------------------------- row by row

  /** A return to the supplier never drives a row that was not negative below zero. */
  lemma {:induction false} PurchaseReturnKeepsNonNegative(shelf: Shelf, warehouse: nat, lines: seq<ReceiptLine>, cell: Cell)
    requires WellFormed(shelf) && Get(shelf, cell) >= 0 && PurchaseReturnMoves(shelf, warehouse, lines).Some?
    ensures Get(AddAll(shelf, PurchaseReturnMoves(shelf, warehouse, lines).value), cell) >= 0
  {
    if lines != [] {
      var front, l := lines[..|lines| - 1], lines[|lines| - 1];
      PurchaseReturnKeepsNonNegative(shelf, warehouse, front, cell);
      var before := PurchaseReturnMoves(shelf, warehouse, front).value;
      var now := AddAll(shelf, before);
      AddAllKeepsWellFormed(shelf, before);
      var rows := Filter(now.created, OfReturn(l.product, l.variant, warehouse, l.batch));
      FilterKeepsDistinct(now.created, OfReturn(l.product, l.variant, warehouse, l.batch));
      DeductionKeepsNonNegative(now, rows, l.quantity, l.unitCost, cell);
      AddAllAppend(shelf, before, DeductMoves(now, rows, l.quantity, l.unitCost));
    }
  }

  /** The moves of a sale take, and those on rows of a batch take something. */
  predicate Takes(moves: seq<Move>, warehouse: nat)
  {
    forall i :: 0 <= i < |moves| ==>
      moves[i].quantity <= 0 && moves[i].cell.warehouse == warehouse && (moves[i].cell.batch.Some? ==> moves[i].quantity < 0)
  }

  lemma {:induction false} TakeMovesTake(cells: seq<Cell>, takes: seq<int>, cost: int, warehouse: nat)
    requires |cells| == |takes| && forall i :: 0 <= i < |cells| ==> cells[i].warehouse == warehouse
    ensures Takes(TakeMoves(cells, takes, cost), warehouse)
  {
    if cells != [] { TakeMovesTake(cells[..|cells| - 1], takes[..|cells| - 1], cost, warehouse); }
  }

  lemma {:induction false} SaleMovesTake(s: State, warehouse: nat, items: seq<SaleItem>)
    requires SaleMoves(s, warehouse, items).Some?
    ensures Takes(SaleMoves(s, warehouse, items).value, warehouse)
  {
    if items != [] {
      var front, item := items[..|items| - 1], items[|items| - 1];
      SaleMovesTake(s, warehouse, front);
      var shelf := AddAll(s.shelf, SaleMoves(s, warehouse, front).value);
      if item.product.tracked {
        var order := FifoOrder(s.expiry, shelf, item.product.id, item.variant, warehouse);
        OrderIsInWarehouse(s.expiry, shelf, item.product.id, item.variant, warehouse);
        TakeMovesTake(order, Fifo.Takes(Quantities(shelf, order), item.units), item.product.cost, warehouse);
      }
    }
  }

  lemma OrderIsInWarehouse(expiry: map<nat, int>, shelf: Shelf, product: nat, variant: Option<nat>, warehouse: nat)
    ensures forall i :: 0 <= i < |FifoOrder(expiry, shelf, product, variant, warehouse)| ==>
              FifoOrder(expiry, shelf, product, variant, warehouse)[i].warehouse == warehouse
  {
    FifoOrderIsOfItem(expiry, shelf, product, variant, warehouse, (c: Cell) => c.warehouse == warehouse, true);
  }

  lemma {:induction false} TakesFromRow(moves: seq<Move>, warehouse: nat, k: nat)
    requires Takes(moves, warehouse) && k < |moves| && moves[k].quantity < 0
    ensures Moved(moves, Only(moves[k].cell)) < 0
  {
    var front, cell := moves[..|moves| - 1], moves[k].cell;
    if k < |front| {
      TakesFromRow(front, warehouse, k);
    } else {
      TakesNothingAdds(front, warehouse, cell);
    }
  }

  lemma {:induction false} TakesNothingAdds(moves: seq<Move>, warehouse: nat, cell: Cell)
    requires Takes(moves, warehouse)
    ensures Moved(moves, Only(cell)) <= 0
  {
    if moves != [] { TakesNothingAdds(moves[..|moves| - 1], warehouse, cell); }
  }

  /** Moves on rows without a batch: a row's part is the part of its product and variant. */
  predicate Unbatched(moves: seq<Move>)
  {
    forall i :: 0 <= i < |moves| ==> moves[i].cell.batch.None?
  }

  lemma {:induction false} UnbatchedTotals(moves: seq<Move>, cell: Cell)
    requires Unbatched(moves)
    ensures Moved(moves, Only(cell))
         == if cell.batch.None? then Moved(moves, OfItem(cell.product, cell.variant, cell.warehouse)) else 0
  {
    if moves != [] {
      assert moves[|moves| - 1].cell.batch.None?;
      UnbatchedTotals(moves[..|moves| - 1], cell);
    }
  }

  lemma CancelIsUnbatched(s: State, sale: Sale)
    requires CancelOutcome(s, sale).Apply?
    ensures Unbatched(CancelOutcome(s, sale).moves)
  {
  }

  /** What a sale and its cancellation, however much later, together do to a row. */
  function RowChange(s: State, later: State, sale: Sale, cell: Cell): int
  {
    Get(Step(s, Sell(sale)).shelf, cell) - Get(s.shelf, cell)
      + Get(Step(later, Cancel(sale)).shelf, cell) - Get(later.shelf, cell)
  }

  lemma RowChangeIsMoved(s: State, later: State, sale: Sale, cell: Cell)
    requires SellOutcome(s, sale).Apply? && CancelOutcome(later, sale).Apply?
    ensures RowChange(s, later, sale, cell)
         == Moved(SellOutcome(s, sale).moves, Only(cell)) + Moved(CancelOutcome(later, sale).moves, Only(cell))
  {
    AddAllGet(s.shelf, SellOutcome(s, sale).moves, cell);
    AddAllGet(later.shelf, CancelOutcome(later, sale).moves, cell);
  }

  /** Cancelling restores the totals over batches; it restores every single row exactly if the sale drew
      only on rows without a batch. */
  lemma CancellationRestoresRowsExactly(s: State, later: State, sale: Sale)
    requires SellOutcome(s, sale).Apply? && CancelOutcome(later, sale).Apply?
    ensures (forall c :: RowChange(s, later, sale, c) == 0) <==> Unbatched(SellOutcome(s, sale).moves)
  {
    var sold, back := SellOutcome(s, sale).moves, CancelOutcome(later, sale).moves;
    CancelIsUnbatched(later, sale);
    if Unbatched(sold) {
      forall c ensures RowChange(s, later, sale, c) == 0 {
        RowChangeIsMoved(s, later, sale, c);
        UnbatchedTotals(sold, c);
        UnbatchedTotals(back, c);
        SellEffect(s, sale, c.product, c.variant, c.warehouse);
        CancelEffect(later, sale, c.product, c.variant, c.warehouse);
      }
    } else {
      SaleMovesTake(s, sale.warehouse.value, sale.items);
      var k :| 0 <= k < |sold| && sold[k].cell.batch.Some?;
      var c := sold[k].cell;
      RowChangeIsMoved(s, later, sale, c);
      TakesFromRow(sold, sale.warehouse.value, k);
      UnbatchedTotals(back, c);
    }
  }

  /** No entry of a transaction is on a row of a batch. */
  predicate RecordedUnbatched(ledger: seq<Record>, tx: TxId)
  {
    forall i :: 0 <= i < |ledger| && ledger[i].tx == tx ==> ledger[i].move.cell.batch.None?
  }

  lemma RecordsOfTransaction(before: seq<Record>, tx: TxId, moves: seq<Move>, later: seq<Record>)
    requires forall i :: 0 <= i < |before| ==> before[i].tx != tx
    requires SameRecords(before + Records(tx, moves), later, tx)
    ensures RecordedUnbatched(later, tx) <==> Unbatched(moves)
  {
    var all := before + Records(tx, moves);
    forall i | 0 <= i < |all| ensures later[i] == all[i] {
      assert later[..|all|][i] == all[i];
    }
    if RecordedUnbatched(later, tx) {
      forall i | 0 <= i < |moves| ensures moves[i].cell.batch.None? {
        assert later[|before| + i] == Record(tx, moves[i]);
      }
    }
    if Unbatched(moves) {
      forall i | 0 <= i < |later| && later[i].tx == tx ensures later[i].move.cell.batch.None? {
        assert |before| <= i < |all| && later[i] == Record(tx, moves[i - |before|]);
      }
    }
  }

  lemma SaleIsRecorded(s: State, sale: Sale)
    requires TransactionsOk(s) && SellOutcome(s, sale).Apply?
    ensures SaleTx(sale.id) in Step(s, Sell(sale)).transactions
    ensures Step(s, Sell(sale)).ledger == s.ledger + Records(SaleTx(sale.id), SellOutcome(s, sale).moves)
    ensures forall i :: 0 <= i < |s.ledger| ==> s.ledger[i].tx != SaleTx(sale.id)
  {
  }

  lemma SaleEntriesStay(s: State, sale: Sale, events: seq<Event>)
    requires TransactionsOk(s) && SellOutcome(s, sale).Apply?
    ensures RecordedUnbatched(Run(Step(s, Sell(sale)), events).ledger, SaleTx(sale.id))
       <==> Unbatched(SellOutcome(s, sale).moves)
  {
    hide *;
    SaleIsRecorded(s, sale);
    RunKeepsEntries(Step(s, Sell(sale)), events, SaleTx(sale.id));
    RecordsOfTransaction(s.ledger, SaleTx(sale.id), SellOutcome(s, sale).moves, Run(Step(s, Sell(sale)), events).ledger);
  }

  /** As a caller can tell before cancelling: whatever has happened since the sale, cancelling it restores
      every single row exactly if none of the sale's ledger entries is on a row of a batch. */
  lemma CancellingRestoresRowsExactly(s: State, sale: Sale, events: seq<Event>)
    requires TransactionsOk(s) && SellOutcome(s, sale).Apply?
    requires CancelOutcome(Run(Step(s, Sell(sale)), events), sale).Apply?
    ensures var later := Run(Step(s, Sell(sale)), events);
            (forall c :: RowChange(s, later, sale, c) == 0) <==> RecordedUnbatched(later.ledger, SaleTx(sale.id))
  {
    CancellationRestoresRowsExactly(s, Run(Step(s, Sell(sale)), events), sale);
    SaleEntriesStay(s, sale, events);
  }

  // ---------------------------------------------------------------- a sale from a dated batch

  const BATCH_ROW: Cell := Cell(0, None, Some(7), 0)

  /** One unit of a batch that expires on day 30. */
  function BatchStock(): State
  {
    Step(Step(EMPTY, Adjust(0, Move(BATCH_ROW, 1, 100))), DateBatch(7, 30))
  }

  /** It is sold for 150 cents. */
  function BatchSale(): Sale
  {
    Sale(0, Some(0), [SaleItem(Product(0, true, 100), None, 1)], Books.SaleAmounts(150.0, 0.0, 150.0, 0.0))
  }

  lemma BatchShelf()
    ensures BatchStock().shelf == Shelf(map[BATCH_ROW := 1], [BATCH_ROW])
    ensures BatchStock().expiry == map[7 := 30] && BatchStock().transactions == {AdjustmentTx(0)}
    ensures BatchStock().ledger == [Record(AdjustmentTx(0), Move(BATCH_ROW, 1, 100))] && BatchStock().books == []
  {
    var m := Move(BATCH_ROW, 1, 100);
    assert [m][..0] == [];
  }

  lemma BatchOrder()
    ensures FifoOrder(map[7 := 30], Shelf(map[BATCH_ROW := 1], [BATCH_ROW]), 0, None, 0) == [BATCH_ROW]
  {
    var p := OfItem(0, None, 0);
    assert [BATCH_ROW][..0] == [];
    assert Filter([], p) == [];
    assert Filter([BATCH_ROW], p) == [] + [BATCH_ROW];
    assert ByExpiry(map[7 := 30], []) == [];
  }

  lemma BatchTakes(shelf: Shelf)
    requires shelf == Shelf(map[BATCH_ROW := 1], [BATCH_ROW])
    ensures Available(shelf, [BATCH_ROW]) == 1
    ensures DeductMoves(shelf, [BATCH_ROW], 1, 100) == [Move(BATCH_ROW, -1, 100)]
  {
    var q := Quantities(shelf, [BATCH_ROW]);
    assert q == [1] && q[..0] == [] && [BATCH_ROW][..0] == [];
    assert Sum([]) == 0;
    var takes := Fifo.Takes(q, 1);
    assert takes[..0] == [];
    CheckedTakesAreExact(q, 1);
    assert TakeMoves([], [], 100) == [];
  }

  lemma BatchMoves()
    ensures SaleMoves(BatchStock(), 0, BatchSale().items) == Some([Move(BATCH_ROW, -1, 100)])
  {
    var s, items := BatchStock(), BatchSale().items;
    BatchShelf();
    BatchOrder();
    BatchTakes(s.shelf);
    assert items[..0] == [];
    assert AddAll(s.shelf, []) == s.shelf;
    assert SaleItemMoves(s.expiry, s.shelf, 0, items[0]) == Some([Move(BATCH_ROW, -1, 100)]);
    assert [] + [Move(BATCH_ROW, -1, 100)] == [Move(BATCH_ROW, -1, 100)];
  }

  lemma BatchSaleSells()
    ensures SellOutcome(BatchStock(), BatchSale()).Apply?
    ensures SellOutcome(BatchStock(), BatchSale()).moves == [Move(BATCH_ROW, -1, 100)]
  {
    BatchMoves();
    BatchShelf();
    WholeAmounts();
    Books.SalePostsExactly(Books.SaleCents(150, 0, 150, 0), SaleCogs([Move(BATCH_ROW, -1, 100)], BatchSale().items));
  }

  lemma WholeAmounts()
    ensures Books.Quantize(BatchSale().amounts) == Books.SaleCents(150, 0, 150, 0)
  {
  }

  /** A unit of a batch is sold and the sale cancelled: the unit is back, but on the row without a batch. */
  lemma BatchIsNotRestored()
    ensures var s, sale := BatchStock(), BatchSale();
            var later := Step(s, Sell(sale));
            && Inv(s) && SellOutcome(s, sale).Apply? && CancelOutcome(later, sale).Apply?
            && RowChange(s, later, sale, BATCH_ROW) == -1
            && RowChange(s, later, sale, Cell(0, None, None, 0)) == 1
  {
    BatchStockIsReached();
    BatchSaleSells();
    BatchShelf();
    var s, sale := BatchStock(), BatchSale();
    var later := Step(s, Sell(sale));
    hide *;
    BatchLater();
    SoldMeansCancellable(s, sale, later);
    RowChangeIsMoved(s, later, sale, BATCH_ROW);
    RowChangeIsMoved(s, later, sale, Cell(0, None, None, 0));
    BatchMoved();
  }

  lemma BatchStockIsReached()
    ensures Inv(BatchStock())
  {
    EmptyInv();
    StepKeepsInv(EMPTY, Adjust(0, Move(BATCH_ROW, 1, 100)));
    StepKeepsInv(Step(EMPTY, Adjust(0, Move(BATCH_ROW, 1, 100))), DateBatch(7, 30));
  }

  lemma SaleAddsItsTransaction(s: State, sale: Sale)
    requires SellOutcome(s, sale).Apply?
    ensures Step(s, Sell(sale)).transactions == s.transactions + {SaleTx(sale.id)}
  {
  }

  lemma BatchLater()
    requires SellOutcome(BatchStock(), BatchSale()).Apply?
    ensures CancelTx(BatchSale().id) !in Step(BatchStock(), Sell(BatchSale())).transactions
  {
    hide Step, SellOutcome;
    BatchShelf();
    SaleAddsItsTransaction(BatchStock(), BatchSale());
  }

  lemma BatchMoved()
    requires SellOutcome(BatchStock(), BatchSale()).Apply?
    requires SellOutcome(BatchStock(), BatchSale()).moves == [Move(BATCH_ROW, -1, 100)]
    requires CancelOutcome(Step(BatchStock(), Sell(BatchSale())), BatchSale()).Apply?
    ensures var sold := SellOutcome(BatchStock(), BatchSale()).moves;
            var back := CancelOutcome(Step(BatchStock(), Sell(BatchSale())), BatchSale()).moves;
            && Moved(sold, Only(BATCH_ROW)) + Moved(back, Only(BATCH_ROW)) == -1
            && Moved(sold, Only(Cell(0, None, None, 0))) + Moved(back, Only(Cell(0, None, None, 0))) == 1
  {
    var m := Move(BATCH_ROW, -1, 100);
    var n := Move(Cell(0, None, None, 0), 1, 100);
    assert RestoreMoves(0, BatchSale().items) == [n];
    TotalOfOne(m, (m: Move) => if Only(BATCH_ROW)(m.cell) then m.quantity else 0);
    TotalOfOne(n, (m: Move) => if Only(BATCH_ROW)(m.cell) then m.quantity else 0);
    TotalOfOne(m, (m: Move) => if Only(Cell(0, None, None, 0))(m.cell) then m.quantity else 0);
    TotalOfOne(n, (m: Move) => if Only(Cell(0, None, None, 0))(m.cell) then m.quantity else 0);
  }
}

/** Which rows are used up first, told from the dates and the order of creation, for single deductions and
    for whole sales and invoices. */
module StockOrder {
  import opened Results
  import opened Sums
  import opened Fifo
  import opened Stock
  import opened StockInvariants
  import opened StockRuns

  // ---------------------------------------------------------------- dates

  predicate Dated(expiry: map<nat, int>, cell: Cell)
  {
    cell.batch.Some? && cell.batch.value in expiry
  }

  /** If the second row has an expiry date, so has the first, and no later one. */
  predicate NoLater(expiry: map<nat, int>, a: Cell, b: Cell)
  {
    Dated(expiry, b) ==> Dated(expiry, a) && expiry[a.batch.value] <= expiry[b.batch.value]
  }

  /** The first row expires earlier, a row without a date never. */
  predicate Earlier(expiry: map<nat, int>, a: Cell, b: Cell)
  {
    Dated(expiry, a) && (Dated(expiry, b) ==> expiry[a.batch.value] < expiry[b.batch.value])
  }

  /** Both expire on the same day, or both never. */
  predicate SameDay(expiry: map<nat, int>, a: Cell, b: Cell)
  {
    if Dated(expiry, a) && Dated(expiry, b) then expiry[a.batch.value] == expiry[b.batch.value]
    else !Dated(expiry, a) && !Dated(expiry, b)
  }

  /** The deduction order is by date. */
  lemma OrderIsByDate(expiry: map<nat, int>, shelf: Shelf, product: nat, variant: Option<nat>, warehouse: nat, i: nat, j: nat)
    requires i < j < |FifoOrder(expiry, shelf, product, variant, warehouse)|
    ensures var order := FifoOrder(expiry, shelf, product, variant, warehouse); NoLater(expiry, order[i], order[j])
  {
    ByExpiryIsStableSort(expiry, Filter(shelf.created, OfItem(product, variant, warehouse)), None);
  }

  // ---------------------------------------------------------------- who comes first

  predicate Before(cells: seq<Cell>, a: Cell, b: Cell)
  {
    exists i, j :: 0 <= i < j < |cells| && cells[i] == a && cells[j] == b
  }

  lemma BeforeOneMore(cells: seq<Cell>, last: Cell, a: Cell, b: Cell)
    ensures Before(cells + [last], a, b) <==> Before(cells, a, b) || (a in cells && b == last)
  {
    var more := cells + [last];
    if Before(cells, a, b) {
      var i, j :| 0 <= i < j < |cells| && cells[i] == a && cells[j] == b;
      assert more[i] == a && more[j] == b;
    }
    if a in cells && b == last {
      var i :| 0 <= i < |cells| && cells[i] == a;
      assert more[i] == a && more[|cells|] == b;
    }
  }

  /** A query keeps the order of its rows. */
  lemma {:induction false} FilterKeepsBefore(cells: seq<Cell>, p: Cell -> bool, a: Cell, b: Cell)
    requires p(a) && p(b)
    ensures Before(Filter(cells, p), a, b) <==> Before(cells, a, b)
  {
    if cells != [] {
      var front, last := cells[..|cells| - 1], cells[|cells| - 1];
      FilterKeepsBefore(front, p, a, b);
      assert cells == front + [last];
      BeforeOneMore(front, last, a, b);
      BeforeOneMore(Filter(front, p), last, a, b);
    }
  }

  /** The first row is of the same product, variant and warehouse and to be used before the second: it
      expires earlier, or on the same day and was created earlier. */
  predicate Sooner(s: State, a: Cell, b: Cell)
  {
    && a.product == b.product && a.variant == b.variant && a.warehouse == b.warehouse
    && a in s.shelf.created && b in s.shelf.created
    && (Earlier(s.expiry, a, b) || (SameDay(s.expiry, a, b) && Before(s.shelf.created, a, b)))
  }

  lemma OneIsBefore(cells: seq<Cell>, a: Cell, b: Cell)
    requires a in cells && b in cells && a != b
    ensures Before(cells, a, b) || Before(cells, b, a)
  {
    var i :| 0 <= i < |cells| && cells[i] == a;
    var j :| 0 <= j < |cells| && cells[j] == b;
  }

  lemma NotBothBefore(cells: seq<Cell>, a: Cell, b: Cell)
    requires DistinctCells(cells) && Before(cells, a, b)
    ensures !Before(cells, b, a) && a != b
  {
  }

  /** The deduction order takes sooner rows first. */
  lemma SoonerIsBefore(s: State, a: Cell, b: Cell)
    requires WellFormed(s.shelf) && Sooner(s, a, b)
    ensures Before(FifoOrder(s.expiry, s.shelf, a.product, a.variant, a.warehouse), a, b)
  {
    var p := OfItem(a.product, a.variant, a.warehouse);
    var cells, order := Filter(s.shelf.created, p), FifoOrder(s.expiry, s.shelf, a.product, a.variant, a.warehouse);
    ByExpiryKeepsElements(s.expiry, cells);
    if Earlier(s.expiry, a, b) {
      OneIsBefore(order, a, b);
      if Before(order, b, a) {
        var i, j :| 0 <= i < j < |order| && order[i] == b && order[j] == a;
        OrderIsByDate(s.expiry, s.shelf, a.product, a.variant, a.warehouse, i, j);
      }
    } else {
      SameDayKeepsBefore(s, cells, a, b);
    }
  }

  lemma SameDayKeepsBefore(s: State, cells: seq<Cell>, a: Cell, b: Cell)
    requires WellFormed(s.shelf) && Before(s.shelf.created, a, b) && SameDay(s.expiry, a, b)
    requires a.product == b.product && a.variant == b.variant && a.warehouse == b.warehouse
    requires cells == Filter(s.shelf.created, OfItem(a.product, a.variant, a.warehouse))
    ensures Before(ByExpiry(s.expiry, cells), a, b)
  {
    var p := OfItem(a.product, a.variant, a.warehouse);
    var day := SameDate(s.expiry, ExpiryOf(s.expiry, a));
    FilterKeepsBefore(s.shelf.created, p, a, b);
    FilterKeepsBefore(cells, day, a, b);
    ByExpiryIsStableSort(s.expiry, cells, ExpiryOf(s.expiry, a));
    FilterKeepsBefore(ByExpiry(s.expiry, cells), day, a, b);
  }

  // ---------------------------------------------------------------- what that does to the rows

  lemma DeductionLowers(shelf: Shelf, cells: seq<Cell>, requested: int, cost: int, c: Cell)
    requires DistinctCells(cells)
    ensures Get(AddAll(shelf, DeductMoves(shelf, cells, requested, cost)), c) <= Get(shelf, c)
  {
    if c in cells {
      var i :| 0 <= i < |cells| && cells[i] == c;
      DeductionByRow(shelf, cells, requested, cost, i);
      TakesAreLegal(Quantities(shelf, cells), requested);
    } else {
      DeductionElsewhere(shelf, cells, requested, cost, c);
    }
  }

  /** In one deduction a row gives something only if no sooner row keeps anything. */
  lemma DeductionUsesSoonerFirst(shelf: Shelf, cells: seq<Cell>, requested: int, cost: int, a: Cell, b: Cell)
    requires DistinctCells(cells) && (a in cells && b in cells ==> Before(cells, a, b)) && (b in cells ==> a in cells)
    ensures var after := AddAll(shelf, DeductMoves(shelf, cells, requested, cost));
            Get(after, b) < Get(shelf, b) ==> Get(after, a) <= 0
  {
    if b in cells {
      var i, j :| 0 <= i < j < |cells| && cells[i] == a && cells[j] == b;
      DeductionByRow(shelf, cells, requested, cost, i);
      DeductionByRow(shelf, cells, requested, cost, j);
      if Takes(Quantities(shelf, cells), requested)[j] > 0 {
        EarlierRowsAreDrained(Quantities(shelf, cells), requested, i, j);
      }
    } else {
      DeductionElsewhere(shelf, cells, requested, cost, b);
    }
  }

  /** The state in the middle of a sale or an invoice. */
  function Midway(s: State, moves: seq<Move>): State
  {
    s.(shelf := AddAll(s.shelf, moves))
  }

  lemma {:induction false} CreatedGrows(shelf: Shelf, moves: seq<Move>)
    ensures shelf.created <= AddAll(shelf, moves).created
  {
    if moves != [] { CreatedGrows(shelf, moves[..|moves| - 1]); }
  }

  lemma SoonerStays(s: State, moves: seq<Move>, a: Cell, b: Cell)
    requires Sooner(s, a, b)
    ensures Sooner(Midway(s, moves), a, b)
  {
    CreatedGrows(s.shelf, moves);
    var more := AddAll(s.shelf, moves).created;
    assert forall i :: 0 <= i < |s.shelf.created| ==> more[i] == s.shelf.created[i];
    if Before(s.shelf.created, a, b) {
      var i, j :| 0 <= i < j < |s.shelf.created| && s.shelf.created[i] == a && s.shelf.created[j] == b;
      assert more[i] == a && more[j] == b;
    }
  }

  /** What a deduction, or several in turn, may do to two rows of which the first is the sooner. */
  predicate SoonerFirst(before: Shelf, after: Shelf, a: Cell, b: Cell)
  {
    && Get(after, a) <= Get(before, a) && Get(after, b) <= Get(before, b)
    && (Get(after, b) < Get(before, b) ==> Get(after, a) <= 0)
  }

  lemma LineUsesSoonerFirst(s: State, product: nat, variant: Option<nat>, warehouse: nat, requested: int, cost: int, a: Cell, b: Cell)
    requires WellFormed(s.shelf) && Sooner(s, a, b)
    ensures var order := FifoOrder(s.expiry, s.shelf, product, variant, warehouse);
            SoonerFirst(s.shelf, AddAll(s.shelf, DeductMoves(s.shelf, order, requested, cost)), a, b)
  {
    hide Takes, Quantities, DeductMoves, Earlier, SameDay;
    var order := FifoOrder(s.expiry, s.shelf, product, variant, warehouse);
    FifoOrderIsDistinct(s.expiry, s.shelf, product, variant, warehouse);
    ByExpiryKeepsElements(s.expiry, Filter(s.shelf.created, OfItem(product, variant, warehouse)));
    if b in order { SoonerIsBefore(s, a, b); }
    DeductionUsesSoonerFirst(s.shelf, order, requested, cost, a, b);
    DeductionLowers(s.shelf, order, requested, cost, a);
    DeductionLowers(s.shelf, order, requested, cost, b);
  }

  lemma {:induction false} InvoiceMovesSoonerFirst(s: State, warehouse: nat, lines: seq<InvoiceLine>, a: Cell, b: Cell)
    requires WellFormed(s.shelf) && Sooner(s, a, b) && InvoiceMoves(s, warehouse, lines).Some?
    ensures SoonerFirst(s.shelf, AddAll(s.shelf, InvoiceMoves(s, warehouse, lines).value), a, b)
  {
    hide Sooner, WellFormed, FifoOrder, DeductMoves, Available;
    if lines != [] {
      var front, l := InvoiceMoves(s, warehouse, lines[..|lines| - 1]).value, lines[|lines| - 1];
      var now := Midway(s, front);
      InvoiceMovesSoonerFirst(s, warehouse, lines[..|lines| - 1], a, b);
      SoonerStays(s, front, a, b);
      AddAllKeepsWellFormed(s.shelf, front);
      LineUsesSoonerFirst(now, l.product.id, l.variant, warehouse, l.quantity, l.product.cost, a, b);
      var order := FifoOrder(s.expiry, now.shelf, l.product.id, l.variant, warehouse);
      AddAllAppend(s.shelf, front, DeductMoves(now.shelf, order, l.quantity, l.product.cost));
    }
  }

  /** The product is tracked wherever the sale names it. */
  predicate TrackedIn(items: seq<SaleItem>, product: nat)
  {
    forall i :: 0 <= i < |items| && items[i].product.id == product ==> items[i].product.tracked
  }

  lemma SaleItemSoonerFirst(s: State, warehouse: nat, item: SaleItem, a: Cell, b: Cell)
    requires WellFormed(s.shelf) && Sooner(s, a, b) && (item.product.id == a.product ==> item.product.tracked)
    requires SaleItemMoves(s.expiry, s.shelf, warehouse, item).Some?
    ensures SoonerFirst(s.shelf, AddAll(s.shelf, SaleItemMoves(s.expiry, s.shelf, warehouse, item).value), a, b)
  {
    hide FifoOrder, DeductMoves, Available, WellFormed;
    if item.product.tracked {
      LineUsesSoonerFirst(s, item.product.id, item.variant, warehouse, item.units, item.product.cost, a, b);
    } else {
      var m := Move(DefaultCell(item, warehouse), 0 - item.units, item.product.cost);
      assert [m][..0] == [] && AddAll(s.shelf, [m]) == Add(s.shelf, m.cell, m.quantity);
    }
  }

  lemma {:induction false} SaleMovesSoonerFirst(s: State, warehouse: nat, items: seq<SaleItem>, a: Cell, b: Cell)
    requires WellFormed(s.shelf) && Sooner(s, a, b) && TrackedIn(items, a.product) && SaleMoves(s, warehouse, items).Some?
    ensures SoonerFirst(s.shelf, AddAll(s.shelf, SaleMoves(s, warehouse, items).value), a, b)
  {
    hide Sooner, WellFormed, SaleItemMoves;
    if items != [] {
      var front, item := SaleMoves(s, warehouse, items[..|items| - 1]).value, items[|items| - 1];
      var now := Midway(s, front);
      SaleMovesSoonerFirst(s, warehouse, items[..|items| - 1], a, b);
      SoonerStays(s, front, a, b);
      AddAllKeepsWellFormed(s.shelf, front);
      SaleItemSoonerFirst(now, warehouse, item, a, b);
      AddAllAppend(s.shelf, front, SaleItemMoves(s.expiry, now.shelf, warehouse, item).value);
    }
  }

  // ---------------------------------------------------------------- whole sales and invoices

  /** A sale of any items, and an invoice of any lines: no row of a tracked product gains, and a row that
      has given something, dated or not, leaves nothing in a row of the same product, variant and
      warehouse that expires earlier, or on the same day and was created earlier. */
  lemma SaleUsesSoonestFirst(s: State, sale: Sale, a: Cell, b: Cell)
    requires WellFormed(s.shelf) && Sooner(s, a, b) && TrackedIn(sale.items, a.product)
    ensures SoonerFirst(s.shelf, Step(s, Sell(sale)).shelf, a, b)
  {
    hide SaleMoves, Sooner, WellFormed;
    if SellOutcome(s, sale).Apply? && sale.warehouse.Some? {
      SaleMovesSoonerFirst(s, sale.warehouse.value, sale.items, a, b);
    }
  }

  lemma InvoiceUsesSoonestFirst(s: State, number: nat, warehouse: nat, lines: seq<InvoiceLine>, a: Cell, b: Cell)
    requires WellFormed(s.shelf) && Sooner(s, a, b)
    ensures SoonerFirst(s.shelf, Step(s, Invoice(number, warehouse, lines)).shelf, a, b)
  {
    hide InvoiceMoves, Sooner, WellFormed;
    if InvoiceOutcome(s, number, warehouse, lines).Apply? {
      InvoiceMovesSoonerFirst(s, warehouse, TrackedLines(lines), a, b);
    }
  }
}

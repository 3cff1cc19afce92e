/** What each service of a purchase order comes to, told from the order and the stock before it: exactly
    when it is accepted, what it then leaves in lines, rows and accounts, and which error it gives
    otherwise. */
module PurchaseSteps {
  import opened Results
  import opened Rounding
  import opened Sums
  import opened Purchase
  import opened PurchaseRuns
  import opened PurchaseCosts
  import opened PurchaseBatches
  import Books
  import Fifo
  import Stock
  import opened StockInvariants
  import opened StockRuns
  import opened StockEffects
  import opened StockSteps

  // ---------------------------------------------------------------- new lines

  /** A line without a unit counts base units. */
  function Factor(unit: Option<real>): real
  {
    if unit.Some? then unit.value else 1.0
  }

  /** A nearest whole number, the even one on a tie. */
  predicate NearestEven(x: real, n: int)
  {
    Abs(x - n as real) <= 0.5 && (Abs(x - n as real) == 0.5 ==> n % 2 == 0)
  }

  /** A new line: product, quantity and, where they are given, cost and discount are the client's. A cost
      that is not given is the catalogue's times the unit's factor, a missing discount none. */
  predicate AsGiven(l: Line, i: NewLine)
  {
    && l.product == i.product && l.variant == i.variant && l.unit == i.unit
    && l.ordered == i.quantity && l.received == 0
    && (if i.cost.Some? then l.cost == i.cost.value else NearestEven(i.catalogueCost as real * Factor(i.unit), l.cost))
    && l.discount == if i.discount.Some? then i.discount.value else 0
  }

  predicate AllAsGiven(lines: seq<Line>, items: seq<NewLine>)
  {
    |lines| == |items| && forall k :: 0 <= k < |lines| ==> AsGiven(lines[k], items[k])
  }

  /** An order is created exactly if every quantity is positive: with the lines as given, nothing returned
      and nothing paid. */
  lemma CreatesExactly(status: Status, vendor: nat, warehouse: nat, items: seq<NewLine>)
    ensures match CreateOrder(status, vendor, warehouse, items)
            case Ok(o) =>
              && (forall k :: 0 <= k < |items| ==> items[k].quantity > 0)
              && AllAsGiven(o.lines, items)
              && o == Order(status, vendor, warehouse, o.lines, [], false)
            case Err(e) => e == NotPositive && exists k :: 0 <= k < |items| && items[k].quantity <= 0
  {
  }

  predicate SomethingReceived(o: Order)
  {
    exists k :: 0 <= k < |o.lines| && o.lines[k].received > 0
  }

  /** The change gives another vendor or warehouse, or lines. */
  predicate TouchesFixed(o: Order, c: Change)
  {
    || (c.vendor.Some? && c.vendor.value != o.vendor)
    || (c.warehouse.Some? && c.warehouse.value != o.warehouse)
    || c.items.Some?
  }

  /** An update is refused exactly for a cancelled order, for one with received goods if it touches what they
      fix, and for a quantity that is not positive. Otherwise it sets the fields that are given, lines as
      given, and no other. */
  lemma UpdatesExactly(o: Order, c: Change)
    ensures match UpdateOrder(o, c)
            case Ok(p) =>
              && !o.status.Cancelled? && !(SomethingReceived(o) && TouchesFixed(o, c))
              && (c.status.Some? ==> p.status == c.status.value) && (c.status.None? ==> p.status == o.status)
              && (c.vendor.Some? ==> p.vendor == c.vendor.value) && (c.vendor.None? ==> p.vendor == o.vendor)
              && (c.warehouse.Some? ==> p.warehouse == c.warehouse.value) && (c.warehouse.None? ==> p.warehouse == o.warehouse)
              && (c.items.Some? ==> AllAsGiven(p.lines, c.items.value)) && (c.items.None? ==> p.lines == o.lines)
              && p.returned == o.returned && p.paid == o.paid
            case Err(e) =>
              if o.status.Cancelled? then e == OrderCancelled
              else if SomethingReceived(o) && TouchesFixed(o, c) then e == GoodsReceived
              else e == NotPositive && c.items.Some? && exists k :: 0 <= k < |c.items.value| && c.items.value[k].quantity <= 0
  {
    assert SomethingReceived(o) <==> AnyReceived(o.lines);
  }

  /** A new line is worth its quantity at its cost less its discount, and never less than nothing. */
  lemma NewLineIsWorth(l: Line, i: NewLine)
    requires AsGiven(l, i)
    ensures var n := i.quantity * l.cost - (if i.discount.Some? then i.discount.value else 0);
            OrderedValue(l) == if n < 0 then 0.0 else n as real
  {
  }

  /** What new lines with given costs are worth together. */
  function WorthGiven(items: seq<NewLine>): int
  {
    Total(items, (i: NewLine) =>
      Fifo.Max(0, i.quantity * (if i.cost.Some? then i.cost.value else 0) - (if i.discount.Some? then i.discount.value else 0)))
  }

  lemma {:induction false} LinesAreWorth(lines: seq<Line>, items: seq<NewLine>)
    requires AllAsGiven(lines, items) && forall k :: 0 <= k < |items| ==> items[k].cost.Some?
    ensures ValueOrdered(lines) == WorthGiven(items) as real
  {
    if items != [] {
      var n := |items| - 1;
      assert AllAsGiven(lines[..n], items[..n]) by {
        assert forall k :: 0 <= k < n ==> AsGiven(lines[k], items[k]);
      }
      LinesAreWorth(lines[..n], items[..n]);
      assert AsGiven(lines[n], items[n]);
      NewLineIsWorth(lines[n], items[n]);
    }
  }

  /** What the receipts of a created order cost once all has arrived, however it is split: what the client
      gave, discounts taken off line by line. */
  lemma CreatedOrderCosts(status: Status, vendor: nat, warehouse: nat, items: seq<NewLine>, stock: Stock.State, events: seq<Event>)
    requires CreateOrder(status, vendor, warehouse, items).Ok? && forall k :: 0 <= k < |items| ==> items[k].cost.Some?
    requires forall i :: 0 <= i < |events| ==> !events[i].Update?
    ensures var w := World(CreateOrder(status, vendor, warehouse, items).value, stock);
            AllReceived(Run(w, events).order.lines) ==> RunCost(w, events) == WorthGiven(items) as real
  {
    CreatesExactly(status, vendor, warehouse, items);
    var w := World(CreateOrder(status, vendor, warehouse, items).value, stock);
    assert LinesOk(w.order.lines) && !AnyReceived(w.order.lines) by {
      forall k | 0 <= k < |w.order.lines| ensures w.order.lines[k].received == 0 < w.order.lines[k].ordered {
        assert AsGiven(w.order.lines[k], items[k]);
      }
    }
    LinesAreWorth(w.order.lines, items);
    ReceiptsAddUpToOrder(w, events);
    RunKeepsTerms(w, events);
    SameTermsSameValue(w.order.lines, Run(w, events).order.lines);
  }

  lemma {:induction false} SameTermsSameValue(a: seq<Line>, b: seq<Line>)
    requires SameTerms(a, b)
    ensures ValueOrdered(a) == ValueOrdered(b)
  {
    if a != [] {
      var n := |a| - 1;
      assert forall k :: 0 <= k < n ==> a[..n][k] == b[..n][k].(received := a[..n][k].received);
      SameTermsSameValue(a[..n], b[..n]);
      assert a[n] == b[n].(received := a[n].received);
    }
  }

  lemma {:induction false} RunKeepsTerms(w: World, events: seq<Event>)
    requires forall i :: 0 <= i < |events| ==> !events[i].Update?
    ensures SameTerms(w.order.lines, Run(w, events).order.lines)
    decreases |events|
  {
    if events != [] {
      var next := Step(w, events[0]);
      if events[0].Receive? && ResultOf(w, events[0]).Ok? { ReceivingKeepsTerms(w.order.lines, events[0].items); }
      assert SameTerms(w.order.lines, next.order.lines);
      RunKeepsTerms(next, events[1..]);
      var a, b, c := w.order.lines, next.order.lines, Run(w, events).order.lines;
      forall k | 0 <= k < |a| ensures a[k] == c[k].(received := a[k].received) {
        assert a[k] == b[k].(received := a[k].received) && b[k] == c[k].(received := b[k].received);
      }
    }
  }

  // ---------------------------------------------------------------- receiving

  /** An item that can be received of its line: there is such a line, something arrives, and it converts. */
  predicate Sound(lines: seq<Line>, i: Item)
  {
    i.line < |lines| && i.quantity > 0 && Factor(lines[i.line].unit) != 0.0
  }

  /** No line gets more than was ordered. */
  predicate WithinOrdered(lines: seq<Line>, items: seq<Item>)
  {
    forall k :: 0 <= k < |lines| ==> lines[k].received + QuantityOf(items, k) <= lines[k].ordered
  }

  predicate Receivable(lines: seq<Line>, items: seq<Item>)
  {
    (forall n :: 0 <= n < |items| ==> Sound(lines, items[n])) && WithinOrdered(lines, items)
  }

  lemma ReceivableFront(lines: seq<Line>, items: seq<Item>)
    requires items != [] && LinesOk(lines)
    ensures var front, i := items[..|items| - 1], items[|items| - 1];
            Receivable(lines, items) <==>
              Receivable(lines, front) && Sound(lines, i)
              && lines[i.line].received + QuantityOf(front, i.line) + i.quantity <= lines[i.line].ordered
  {
    var front, i := items[..|items| - 1], items[|items| - 1];
    assert forall n :: 0 <= n < |front| ==> front[n] == items[n];
    if Receivable(lines, items) {
      assert Sound(lines, items[|items| - 1]);
      forall k | 0 <= k < |lines| ensures lines[k].received + QuantityOf(front, k) <= lines[k].ordered {
        assert QuantityOf(items, k) >= QuantityOf(front, k);
      }
    }
    if Receivable(lines, front) && Sound(lines, i) && lines[i.line].received + QuantityOf(front, i.line) + i.quantity <= lines[i.line].ordered {
      forall k | 0 <= k < |lines| ensures lines[k].received + QuantityOf(items, k) <= lines[k].ordered {
        assert QuantityOf(items, k) == QuantityOf(front, k) + if i.line == k then i.quantity else 0;
      }
    }
  }

  lemma NothingIsReceivable(lines: seq<Line>)
    requires LinesOk(lines)
    ensures Receivable(lines, [])
  {
  }

  /** Goods can be received exactly if every item is sound and no line gets more than was ordered, all its
      namings together. */
  lemma {:induction false} ReceivesExactly(lines: seq<Line>, items: seq<Item>)
    requires LinesOk(lines)
    ensures ReceiveItems(lines, items).Ok? <==> Receivable(lines, items)
  {
    hide Receivable;
    if items == [] {
      NothingIsReceivable(lines);
    } else {
      var front, i := items[..|items| - 1], items[|items| - 1];
      ReceivesExactly(lines, front);
      ReceivableFront(lines, items);
      if ReceiveItems(lines, front).Ok? {
        ReceivingKeepsTerms(lines, front);
        if i.line < |lines| { ReceivedOf(lines, front, i.line); }
      }
    }
  }

  /** Why an item cannot be received after the ones before it. */
  predicate ItemRefused(lines: seq<Line>, earlier: seq<Item>, i: Item, e: Error)
  {
    if i.line >= |lines| then e == UnknownLine
    else if i.quantity <= 0 then e == NotPositive
    else if lines[i.line].received + QuantityOf(earlier, i.line) + i.quantity > lines[i.line].ordered then e == TooMany
    else Factor(lines[i.line].unit) == 0.0 && e == ZeroMultiplier
  }

  /** Otherwise the first item that cannot decides the error. */
  lemma {:induction false} ReceivingFails(lines: seq<Line>, items: seq<Item>) returns (n: nat)
    requires LinesOk(lines) && ReceiveItems(lines, items).Err?
    ensures n < |items| && Receivable(lines, items[..n])
    ensures ItemRefused(lines, items[..n], items[n], ReceiveItems(lines, items).error)
  {
    hide Receivable;
    var front, i := items[..|items| - 1], items[|items| - 1];
    ReceivesExactly(lines, front);
    if ReceiveItems(lines, front).Err? {
      n := ReceivingFails(lines, front);
      assert front[..n] == items[..n];
    } else {
      n := |items| - 1;
      ReceivingKeepsTerms(lines, front);
      if i.line < |lines| { ReceivedOf(lines, front, i.line); }
    }
  }

  /** What a received or returned quantity of a line is in whole base units, and what one then costs: to the
      nearest, the even one on a tie. */
  function UnitsAt(quantity: int, factor: real): int
  {
    RoundHalfEven(quantity as real * factor)
  }

  function CostAt(cost: int, factor: real): int
    requires factor != 0.0
  {
    RoundHalfEven(cost as real / factor)
  }

  function LineUnits(l: Line, quantity: int): int
  {
    UnitsAt(quantity, Factor(l.unit))
  }

  function LineUnitCost(l: Line): int
    requires Factor(l.unit) != 0.0
  {
    CostAt(l.cost, Factor(l.unit))
  }

  lemma UnitsAgree(l: Line, i: Item)
    requires Factor(l.unit) != 0.0
    ensures Multiplier(l) != 0.0
    ensures InBaseUnits(l, i) == Stock.ReceiptLine(l.product, l.variant, i.batch, LineUnits(l, i.quantity), LineUnitCost(l))
  {
    hide RoundHalfEven, Multiplier, Factor, Converted, CostConverted, UnitsAt, CostAt;
    FactorIsMultiplier(l);
    ConvertedIs(i.quantity, l.cost, Factor(l.unit));
  }

  lemma ConvertedIs(quantity: int, cost: int, factor: real)
    requires factor != 0.0
    ensures Converted(quantity, factor) == UnitsAt(quantity, factor)
    ensures CostConverted(cost, factor) == CostAt(cost, factor)
  {
    hide RoundHalfEven;
  }

  lemma FactorIsMultiplier(l: Line)
    ensures Multiplier(l) == Factor(l.unit)
  {
  }

  /** What items of an order bring into a row, or ask of it: those of its product, variant and batch. */
  function UnitsForRow(o: Order, items: seq<Item>, cell: Stock.Cell): int
  {
    Total(items, (i: Item) => RowUnits(o, i, cell))
  }

  function RowUnits(o: Order, i: Item, cell: Stock.Cell): int
  {
    if i.line < |o.lines| && cell == Stock.Cell(o.lines[i.line].product, o.lines[i.line].variant, i.batch, o.warehouse)
    then LineUnits(o.lines[i.line], i.quantity) else 0
  }

  lemma MovementsAreItems(o: Order, items: seq<Item>, moves: seq<Stock.ReceiptLine>, cell: Stock.Cell)
    requires MovementsOf(o.lines, items, moves)
    ensures Arrived(moves, o.warehouse, cell) == UnitsForRow(o, items, cell)
  {
    var f := (l: Stock.ReceiptLine) => if Stock.Cell(l.product, l.variant, l.batch, o.warehouse) == cell then l.quantity else 0;
    forall n | 0 <= n < |items| ensures f(moves[n]) == RowUnits(o, items[n], cell) {
      assert MovementOf(o.lines, items[n], moves[n]);
      FactorIsMultiplier(o.lines[items[n].line]);
      UnitsAgree(o.lines[items[n].line], items[n]);
    }
    TotalsAgree(moves, items, f, (i: Item) => RowUnits(o, i, cell));
  }

  /** A receipt is accepted exactly if the order is not cancelled, something arrives, all of it can be
      received, and the receipt is new. Every row then gains what the items bring into it, of their batch;
      its status says what has arrived; vendor, warehouse and earlier returns stay. Otherwise nothing
      changes. */
  lemma ReceiptTakesPlaceExactly(w: World, uid: nat, items: seq<Item>, cell: Stock.Cell)
    requires LinesOk(w.order.lines)
    ensures var r, after := ResultOf(w, Receive(uid, items)), Step(w, Receive(uid, items));
            && (r.Ok? <==> !w.order.status.Cancelled? && items != [] && Receivable(w.order.lines, items)
                           && Stock.ReceiptTx(uid) !in w.stock.transactions)
            && if r.Ok? then
                 && LinesAfter(w.order.lines, items, after.order.lines)
                 && after.order == w.order.(lines := after.order.lines, status := after.order.status)
                 && Stock.Get(after.stock.shelf, cell) == Stock.Get(w.stock.shelf, cell) + UnitsForRow(w.order, items, cell)
                 && after.stock.transactions == w.stock.transactions + {Stock.ReceiptTx(uid)}
               else
                 && after == w
                 && if w.order.status.Cancelled? then r == Err(OrderCancelled)
                    else if items == [] then r == Err(NoItems)
                    else if Receivable(w.order.lines, items) then r == Err(StockRefused(Stock.DuplicateTransaction))
                    else exists n :: 0 <= n < |items| && Receivable(w.order.lines, items[..n])
                                     && ItemRefused(w.order.lines, items[..n], items[n], r.error)
  {
    hide Receivable, ItemRefused, LinesAfter, UnitsForRow, Stock.ReceiptOutcome, Arrived, BookNet;
    ReceivesExactly(w.order.lines, items);
    if ReceiveItems(w.order.lines, items).Ok? {
      var r := ReceiveItems(w.order.lines, items).value;
      ReceiveItemsEffect(w.order.lines, items);
      MovementsFollowItems(w.order.lines, items);
      MovementsAreItems(w.order, items, r.movements, cell);
      ReceiptApplies(w.stock, uid, w.order.warehouse, r.movements, RoundHalfEven(r.cost), cell, Books.Cogs);
    } else {
      var n := ReceivingFails(w.order.lines, items);
    }
  }

  /** The entries of a receipt are worth its base units at the lines' costs per base unit. */
  lemma ReceiptIsWorth(w: World, uid: nat, items: seq<Item>)
    requires TransactionsOk(w.stock) && ResultOf(w, Receive(uid, items)).Ok?
    ensures RecordedWorth(Step(w, Receive(uid, items)).stock.ledger, Stock.ReceiptTx(uid)) == WorthInUnits(w.order.lines, items)
  {
    var r := ReceiveItems(w.order.lines, items).value;
    var moves := Stock.ReceiptMoves(w.order.warehouse, Stock.InKeyOrder(r.movements));
    RecordedWorthAppend(w.stock.ledger, Stock.ReceiptTx(uid), moves);
    MovesAreWorth(w.order.warehouse, r.movements);
    MovementsFollowItems(w.order.lines, items);
    MovementsAreWorth(w.order.lines, items, r.movements);
  }

  function WorthInUnits(lines: seq<Line>, items: seq<Item>): int
  {
    Total(items, (i: Item) => ItemWorth(lines, i))
  }

  function ItemWorth(lines: seq<Line>, i: Item): int
  {
    if i.line < |lines| && Factor(lines[i.line].unit) != 0.0
    then LineUnits(lines[i.line], i.quantity) * LineUnitCost(lines[i.line]) else 0
  }

  lemma MovesAreWorth(warehouse: nat, lines: seq<Stock.ReceiptLine>)
    ensures Worth(Stock.ReceiptMoves(warehouse, Stock.InKeyOrder(lines)))
         == Total(lines, (l: Stock.ReceiptLine) => l.quantity * l.unitCost)
  {
    var f := (l: Stock.ReceiptLine) => l.quantity * l.unitCost;
    TotalsAgree(Stock.ReceiptMoves(warehouse, Stock.InKeyOrder(lines)), Stock.InKeyOrder(lines),
                (m: Stock.Move) => m.quantity * m.unitCost, f);
    InKeyOrderTotal(lines, f);
  }

  lemma MovementsAreWorth(lines: seq<Line>, items: seq<Item>, moves: seq<Stock.ReceiptLine>)
    requires MovementsOf(lines, items, moves)
    ensures Total(moves, (l: Stock.ReceiptLine) => l.quantity * l.unitCost) == WorthInUnits(lines, items)
  {
    forall n | 0 <= n < |items| ensures moves[n].quantity * moves[n].unitCost == ItemWorth(lines, items[n]) {
      assert MovementOf(lines, items[n], moves[n]);
      FactorIsMultiplier(lines[items[n].line]);
      UnitsAgree(lines[items[n].line], items[n]);
    }
    TotalsAgree(moves, items, (l: Stock.ReceiptLine) => l.quantity * l.unitCost, (i: Item) => ItemWorth(lines, i));
  }

  // ---------------------------------------------------------------- returning

  /** An item that may be returned, counting earlier returns only. */
  predicate Returnable(o: Order, i: Item)
  {
    i.line < |o.lines| && 0 < i.quantity <= o.lines[i.line].received - QuantityOf(o.returned, i.line)
  }

  /** Why an item may not. */
  predicate ReturnRefused(o: Order, i: Item, e: Error)
  {
    && !Returnable(o, i)
    && e == if i.line >= |o.lines| then UnknownLine else if i.quantity <= 0 then NotPositive else TooMany
  }

  /** A request passes exactly if every item may be returned; otherwise the first that may not decides the
      error. */
  lemma {:induction false} ReturnPassesExactly(o: Order, items: seq<Item>)
    ensures match ReturnsRefusal(o, items)
            case None => forall n :: 0 <= n < |items| ==> Returnable(o, items[n])
            case Some(e) => exists n :: 0 <= n < |items| && ReturnRefused(o, items[n], e) && forall m :: 0 <= m < n ==> Returnable(o, items[m])
  {
    if items != [] {
      var front := items[..|items| - 1];
      ReturnPassesExactly(o, front);
      assert forall n :: 0 <= n < |front| ==> front[n] == items[n];
      if ReturnsRefusal(o, front).None? && ReturnsRefusal(o, items).Some? {
        assert ReturnRefused(o, items[|items| - 1], ReturnsRefusal(o, items).value);
      }
    }
  }

  predicate Converts(o: Order, items: seq<Item>)
  {
    forall n :: 0 <= n < |items| ==> items[n].line < |o.lines| && Factor(o.lines[items[n].line].unit) != 0.0
  }

  /** What returned items ask of the stock. */
  function AskedBack(o: Order, items: seq<Item>): (r: seq<Stock.ReceiptLine>)
    requires Converts(o, items)
    ensures |r| == |items|
    ensures forall n :: 0 <= n < |r| ==>
              var l := o.lines[items[n].line];
              r[n] == Stock.ReceiptLine(l.product, l.variant, items[n].batch, LineUnits(l, items[n].quantity), LineUnitCost(l))
  {
    seq(|items|, n requires 0 <= n < |items| =>
      var l := o.lines[items[n].line];
      Stock.ReceiptLine(l.product, l.variant, items[n].batch, LineUnits(l, items[n].quantity), LineUnitCost(l)))
  }

  lemma ConvertsIs(o: Order, items: seq<Item>)
    ensures Converts(o, items) <==> Convertible(o, items)
  {
    hide Multiplier, Factor;
    forall n | 0 <= n < |items| && items[n].line < |o.lines|
      ensures Multiplier(o.lines[items[n].line]) == Factor(o.lines[items[n].line].unit)
    {
      FactorIsMultiplier(o.lines[items[n].line]);
    }
  }

  lemma AskedBackIs(o: Order, items: seq<Item>)
    requires Converts(o, items)
    ensures Convertible(o, items) && AskedBack(o, items) == ReturnLines(o, items)
  {
    hide Multiplier, Factor, LineUnits, LineUnitCost, InBaseUnits;
    ConvertsIs(o, items);
    var asked, lines := AskedBack(o, items), ReturnLines(o, items);
    forall n | 0 <= n < |items| ensures asked[n] == lines[n] {
      UnitsAgree(o.lines[items[n].line], items[n]);
    }
  }

  /** What is refunded: the undiscounted cost. */
  function CostReturned(o: Order, items: seq<Item>): int
  {
    Total(items, (i: Item) => if i.line < |o.lines| then i.quantity * o.lines[i.line].cost else 0)
  }

  lemma RefundIs(o: Order, items: seq<Item>)
    ensures Refund(o, items) == CostReturned(o, items)
  {
    TotalsAgree(items, items, (i: Item) => if i.line < |o.lines| then o.lines[i.line].cost * i.quantity else 0,
                (i: Item) => if i.line < |o.lines| then i.quantity * o.lines[i.line].cost else 0);
  }

  predicate MayReturn(w: World, uid: nat, items: seq<Item>)
  {
    && !w.order.status.Cancelled? && items != []
    && (forall n :: 0 <= n < |items| ==> Returnable(w.order, items[n]))
    && Converts(w.order, items)
    && Stock.PurchaseReturnTx(uid) !in w.stock.transactions
    && FitsInOrder(w.stock.shelf, w.order.warehouse, AskedBack(w.order, items))
  }

  /** A return is accepted exactly if the order is not cancelled, every item may be returned and converts, the
      return is new, and there is stock for each item once the ones before it are taken. Each row of the
      warehouse then keeps what the return leaves of it, the order remembers the items, and the undiscounted
      cost goes from inventory to payables. Otherwise nothing changes. */
  lemma ReturnTakesPlaceExactly(w: World, uid: nat, items: seq<Item>, row: Stock.Cell, account: Books.Account)
    requires WellFormed(w.stock.shelf) && row.warehouse == w.order.warehouse
    ensures var r, after := ResultOf(w, SendBack(uid, items)), Step(w, SendBack(uid, items));
            && (r.Ok? <==> MayReturn(w, uid, items))
            && if r.Ok? then
                 && after.order == w.order.(returned := w.order.returned + items)
                 && Stock.Get(after.stock.shelf, row) == LeftOf(w.stock.shelf, w.order.warehouse, AskedBack(w.order, items), row)
                 && BookNet(after.stock.books, account)
                    == BookNet(w.stock.books, account)
                       + Bought(account, -Fifo.Max(0, CostReturned(w.order, items)))
               else
                 && after == w
                 && if w.order.status.Cancelled? then r == Err(OrderCancelled)
                    else if items == [] then r == Err(NoItems)
                    else if exists n :: 0 <= n < |items| && !Returnable(w.order, items[n]) then
                      exists n :: 0 <= n < |items| && ReturnRefused(w.order, items[n], r.error) && forall m :: 0 <= m < n ==> Returnable(w.order, items[m])
                    else if !Converts(w.order, items) then r == Err(ZeroMultiplier)
                    else if Stock.PurchaseReturnTx(uid) in w.stock.transactions then r == Err(StockRefused(Stock.DuplicateTransaction))
                    else r == Err(StockRefused(Stock.OutOfStock))
  {
    hide LeftOf, FitsInOrder, Returnable, Converts, Convertible, Stock.PurchaseReturnOutcome, Bought, BookNet,
      WellFormed, ReceiveGoods, UpdateOrder, CancelOrder, ReturnsRefusal, Refund, CostReturned, Stock.Execute;
    ReturnPassesExactly(w.order, items);
    ConvertsIs(w.order, items);
    RefundIs(w.order, items);
    if Converts(w.order, items) {
      AskedBackIs(w.order, items);
      ReturnApplies(w.stock, uid, w.order.warehouse, AskedBack(w.order, items), Refund(w.order, items), row, account);
    }
  }

  lemma ReturnApplies(s: Stock.State, uid: nat, warehouse: nat, lines: seq<Stock.ReceiptLine>, refund: int, row: Stock.Cell,
                      account: Books.Account)
    requires WellFormed(s.shelf) && row.warehouse == warehouse
    ensures var o := Stock.PurchaseReturnOutcome(s, uid, warehouse, lines, refund);
            && (!o.Refused? <==> Stock.PurchaseReturnTx(uid) !in s.transactions && FitsInOrder(s.shelf, warehouse, lines))
            && (o.Refused? ==>
                  o.error == if Stock.PurchaseReturnTx(uid) in s.transactions then Stock.DuplicateTransaction else Stock.OutOfStock)
            && (!o.Refused? ==>
                  && Stock.Get(Stock.Execute(s, o).shelf, row) == LeftOf(s.shelf, warehouse, lines, row)
                  && BookNet(Stock.Execute(s, o).books, account)
                     == BookNet(s.books, account) + Bought(account, -Fifo.Max(0, refund)))
  {
    hide LeftOf, FitsInOrder, Stock.PurchaseReturnMoves, Stock.Post, BookNet;
    ReturnFitsExactly(s.shelf, warehouse, lines);
    if Stock.PurchaseReturnMoves(s.shelf, warehouse, lines).Some? {
      PairTakesPlace(s, Stock.PurchaseReturnTx(uid), Stock.PurchaseReturnMoves(s.shelf, warehouse, lines).value,
                     Books.AccountsPayable, Books.InventoryAsset, refund, account);
      ReturnLeavesOfRow(s.shelf, warehouse, lines, row);
    }
  }

  // ---------------------------------------------------------------- cancelling

  /** An order is cancelled exactly if it is draft or ordered, nothing has been received and no payment is
      active; nothing but its status changes. Otherwise the first reason that applies is given. */
  lemma CancelsExactly(w: World)
    ensures var r, after := ResultOf(w, Cancel), Step(w, Cancel);
            if w.order.status.Cancelled? then r == Err(OrderCancelled) && after == w
            else if !w.order.status.Draft? && !w.order.status.Ordered? then r == Err(NotCancellable) && after == w
            else if SomethingReceived(w.order) then r == Err(GoodsReceived) && after == w
            else if w.order.paid then r == Err(ActivePayments) && after == w
            else r.Ok? && after == w.(order := w.order.(status := Cancelled))
  {
    assert SomethingReceived(w.order) <==> AnyReceived(w.order.lines);
  }

  /** A draft or ordered order of which nothing has arrived can be cancelled again once its payment is
      void. */
  lemma PaymentDecidesCancelling(w: World, paid: bool)
    requires (w.order.status.Draft? || w.order.status.Ordered?) && !SomethingReceived(w.order)
    ensures Step(Step(w, SetPaid(paid)), Cancel).order.status.Cancelled? <==> !paid
  {
    CancelsExactly(Step(w, SetPaid(paid)));
  }
}

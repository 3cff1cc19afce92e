/** Receipts and returns in stock and books, over whole runs: the books hold the rounded costs less the
    refunds, the stock holds the rounded base units less what was sent back, and so both are within half
    a unit a rounding of the exact values. */
module PurchaseLedger {
  import opened Results
  import opened Rounding
  import opened Sums
  import opened Purchase
  import opened PurchaseRuns
  import opened PurchaseCosts
  import Books
  import Fifo
  import Stock
  import opened StockInvariants
  import opened StockRuns
  import opened StockEffects

  // ---------------------------------------------------------------- the books

  /** Replaced lines cost nothing negative. */
  predicate FairlyPriced(e: Event)
  {
    e.Update? && e.change.items.Some? && QuantitiesPositive(e.change.items.value) ==>
      CostsNotNegative(NewLines(e.change.items.value))
  }

  predicate FairlyPricedRun(events: seq<Event>)
  {
    forall i :: 0 <= i < |events| ==> FairlyPriced(events[i])
  }

  /** What other services post to an account in between, and what they move of a group of cells. */
  function OthersPosted(w: World, e: Event, account: Books.Account): int
  {
    if e.Elsewhere? then BookNet(Step(w, e).stock.books, account) - BookNet(w.stock.books, account) else 0
  }

  function OthersMoved(w: World, e: Event, p: Stock.Cell -> bool): int
  {
    if e.Elsewhere? then Stocked(Step(w, e).stock.shelf, p) - Stocked(w.stock.shelf, p) else 0
  }

  function RunOthersPosted(w: World, events: seq<Event>, account: Books.Account): int
    decreases |events|
  {
    if events == [] then 0
    else OthersPosted(w, events[0], account) + RunOthersPosted(Step(w, events[0]), events[1..], account)
  }

  function RunOthersMoved(w: World, events: seq<Event>, p: Stock.Cell -> bool): int
    decreases |events|
  {
    if events == [] then 0 else OthersMoved(w, events[0], p) + RunOthersMoved(Step(w, events[0]), events[1..], p)
  }

  predicate Undisturbed(events: seq<Event>)
  {
    forall i :: 0 <= i < |events| ==> !events[i].Elsewhere?
  }

  /** Where no other service comes in between, others move and post nothing. */
  lemma {:induction false} UndisturbedMovesNothingElse(w: World, events: seq<Event>, p: Stock.Cell -> bool, account: Books.Account)
    requires Undisturbed(events)
    ensures RunOthersMoved(w, events, p) == 0 && RunOthersPosted(w, events, account) == 0
    decreases |events|
  {
    if events != [] {
      assert !events[0].Elsewhere?;
      forall i | 0 <= i < |events[1..]| ensures !events[1..][i].Elsewhere? {
        assert !events[i + 1].Elsewhere?;
      }
      UndisturbedMovesNothingElse(Step(w, events[0]), events[1..], p, account);
    }
  }

  function RunRefund(w: World, events: seq<Event>): int
    decreases |events|
  {
    if events == [] then 0 else RefundOf(w, events[0]) + RunRefund(Step(w, events[0]), events[1..])
  }

  lemma StepKeepsCosts(w: World, e: Event)
    requires CostsNotNegative(w.order.lines) && FairlyPriced(e)
    ensures CostsNotNegative(Step(w, e).order.lines)
  {
    if ResultOf(w, e).Ok? && e.Receive? {
      ReceivingKeepsTerms(w.order.lines, e.items);
      var after := Step(w, e).order.lines;
      forall k | 0 <= k < |after| ensures after[k].cost >= 0 {
        assert w.order.lines[k].cost >= 0;
      }
    }
  }

  lemma StepBooks(w: World, e: Event, account: Books.Account)
    requires LinesOk(w.order.lines) && CostsNotNegative(w.order.lines)
    ensures BookNet(Step(w, e).stock.books, account)
         == BookNet(w.stock.books, account) + Bought(account, PostedOf(w, e) - RefundOf(w, e)) + OthersPosted(w, e, account)
  {
    if e.Elsewhere? {
      WholeNumbersAreFixed(0);
    } else {
      StepPosts(w, e, account);
    }
  }

  /** Over any run, whatever other services do in between: what inventory gains and the supplier is owed is
      what the receipts posted, each rounded by itself, less the refunds; beyond that an account only holds
      what the others post. */
  lemma {:induction false} BooksFollowReceipts(w: World, events: seq<Event>, account: Books.Account)
    requires LinesOk(w.order.lines) && CostsNotNegative(w.order.lines) && FairlyPricedRun(events)
    ensures BookNet(Run(w, events).stock.books, account)
         == BookNet(w.stock.books, account) + Bought(account, RunPosted(w, events) - RunRefund(w, events))
            + RunOthersPosted(w, events, account)
    decreases |events|
  {
    hide *;
    RunUnfolds(w, events, account);
    if events != [] {
      var e, rest, next := events[0], events[1..], Step(w, events[0]);
      FairlyPricedRest(events);
      StepKeepsLines(w, e);
      StepKeepsCosts(w, e);
      StepBooks(w, e, account);
      BooksFollowReceipts(next, rest, account);
      BoughtAdds(account, PostedOf(w, e) - RefundOf(w, e), RunPosted(next, rest) - RunRefund(next, rest));
    }
  }

  lemma FairlyPricedRest(events: seq<Event>)
    requires events != [] && FairlyPricedRun(events)
    ensures FairlyPriced(events[0]) && FairlyPricedRun(events[1..])
  {
    forall i | 0 <= i < |events[1..]| ensures FairlyPriced(events[1..][i]) {
      assert FairlyPriced(events[i + 1]);
    }
  }

  lemma BoughtAdds(account: Books.Account, a: int, b: int)
    ensures Bought(account, a) + Bought(account, b) == Bought(account, a + b)
  {
  }

  lemma RunUnfolds(w: World, events: seq<Event>, account: Books.Account)
    ensures if events == [] then
              && Run(w, events) == w && Bought(account, RunPosted(w, events) - RunRefund(w, events)) == 0
              && RunOthersPosted(w, events, account) == 0
            else
              var e, rest, next := events[0], events[1..], Step(w, events[0]);
              && Run(w, events) == Run(next, rest)
              && RunPosted(w, events) == PostedOf(w, e) + RunPosted(next, rest)
              && RunRefund(w, events) == RefundOf(w, e) + RunRefund(next, rest)
              && RunOthersPosted(w, events, account) == OthersPosted(w, e, account) + RunOthersPosted(next, rest, account)
  {
  }

  /** After n receipts the inventory account, refunds added back and what others posted taken off, is
      within n half-cents of what the order's lines have gained in exact value. */
  lemma InventoryIsNearValue(w: World, events: seq<Event>)
    requires LinesOk(w.order.lines) && CostsNotNegative(w.order.lines) && FairlyPricedRun(events)
    ensures Near(BookNet(Run(w, events).stock.books, Books.InventoryAsset)
                   - BookNet(w.stock.books, Books.InventoryAsset)
                   - RunOthersPosted(w, events, Books.InventoryAsset) + RunRefund(w, events),
                 Value(Run(w, events).order.lines) - Value(w.order.lines), RunReceipts(w, events))
  {
    hide Near, RunCost, RunPosted, RunRefund, RunReceipts, Run, RunOthersPosted;
    BooksFollowReceipts(w, events, Books.InventoryAsset);
    ReceiptsTelescope(w, events);
    PostedIsNearCost(w, events);
  }

  // ---------------------------------------------------------------- the stock

  /** The order's lines and warehouse stay: an update may set the status and the vendor. */
  predicate KeepsTerms(e: Event)
  {
    e.Update? ==> e.change.items.None? && e.change.warehouse.None?
  }

  predicate TermsKept(events: seq<Event>)
  {
    forall i :: 0 <= i < |events| ==> KeepsTerms(events[i])
  }

  lemma StepKeepsTerms(w: World, e: Event)
    requires KeepsTerms(e)
    ensures SameTerms(Step(w, e).order.lines, w.order.lines) && Step(w, e).order.warehouse == w.order.warehouse
  {
    if ResultOf(w, e).Ok? && e.Receive? { ReceivingKeepsTerms(w.order.lines, e.items); }
  }

  lemma {:induction false} RunKeepsTerms(w: World, events: seq<Event>)
    requires TermsKept(events)
    ensures SameTerms(Run(w, events).order.lines, w.order.lines) && Run(w, events).order.warehouse == w.order.warehouse
    decreases |events|
  {
    if events != [] {
      assert KeepsTerms(events[0]);
      StepKeepsTerms(w, events[0]);
      assert TermsKept(events[1..]);
      RunKeepsTerms(Step(w, events[0]), events[1..]);
    }
  }

  /** What return lines ask for of one product and variant. */
  function UnitsAsked(lines: seq<Stock.ReceiptLine>, product: nat, variant: Option<nat>): int
  {
    Total(lines, (l: Stock.ReceiptLine) => if l.product == product && l.variant == variant then Fifo.Max(0, l.quantity) else 0)
  }

  lemma ReturnRowsAreOfItem(shelf: Stock.Shelf, warehouse: nat, l: Stock.ReceiptLine, product: nat, variant: Option<nat>, place: nat)
    ensures Uniform(Stock.Filter(shelf.created, Stock.OfReturn(l.product, l.variant, warehouse, l.batch)),
                    Stock.OfItem(product, variant, place),
                    l.product == product && l.variant == variant && place == warehouse)
  {
    var rows := Stock.Filter(shelf.created, Stock.OfReturn(l.product, l.variant, warehouse, l.batch));
    forall i | 0 <= i < |rows|
      ensures Stock.OfItem(product, variant, place)(rows[i])
           == (l.product == product && l.variant == variant && place == warehouse)
    {
      assert rows[i] in rows;
    }
  }

  lemma {:induction false} PurchaseReturnTotals(shelf: Stock.Shelf, warehouse: nat, lines: seq<Stock.ReceiptLine>,
                                                product: nat, variant: Option<nat>, place: nat)
    requires Stock.PurchaseReturnMoves(shelf, warehouse, lines).Some?
    ensures Moved(Stock.PurchaseReturnMoves(shelf, warehouse, lines).value, Stock.OfItem(product, variant, place))
         == if place == warehouse then -UnitsAsked(lines, product, variant) else 0
  {
    if lines != [] {
      var n := |lines| - 1;
      PurchaseReturnTotals(shelf, warehouse, lines[..n], product, variant, place);
      var front, l := Stock.PurchaseReturnMoves(shelf, warehouse, lines[..n]).value, lines[n];
      var now := Stock.AddAll(shelf, front);
      var rows := Stock.Filter(now.created, Stock.OfReturn(l.product, l.variant, warehouse, l.batch));
      ReturnRowsAreOfItem(now, warehouse, l, product, variant, place);
      DeductTotals(now, rows, l.quantity, l.unitCost, Stock.OfItem(product, variant, place),
                   l.product == product && l.variant == variant && place == warehouse);
      TotalAppend(front, Stock.DeductMoves(now, rows, l.quantity, l.unitCost),
                  (m: Stock.Move) => if Stock.OfItem(product, variant, place)(m.cell) then m.quantity else 0);
    }
  }

  lemma MovesApplied(shelf: Stock.Shelf, moves: seq<Stock.Move>, p: Stock.Cell -> bool)
    requires WellFormed(shelf)
    ensures WellFormed(Stock.AddAll(shelf, moves))
    ensures Stocked(Stock.AddAll(shelf, moves), p) == Stocked(shelf, p) + Moved(moves, p)
  {
    AddAllKeepsWellFormed(shelf, moves);
    StockedAddAll(shelf, moves, p);
  }

  lemma ReturnApplied(s: Stock.State, uid: nat, warehouse: nat, lines: seq<Stock.ReceiptLine>, refund: int,
                      product: nat, variant: Option<nat>)
    requires WellFormed(s.shelf) && !Stock.PurchaseReturnOutcome(s, uid, warehouse, lines, refund).Refused?
    ensures var p := Stock.OfItem(product, variant, warehouse);
            var after := Stock.Execute(s, Stock.PurchaseReturnOutcome(s, uid, warehouse, lines, refund)).shelf;
            WellFormed(after) && Stocked(after, p) == Stocked(s.shelf, p) - UnitsAsked(lines, product, variant)
  {
    PurchaseReturnTotals(s.shelf, warehouse, lines, product, variant, warehouse);
    MovesApplied(s.shelf, Stock.PurchaseReturnMoves(s.shelf, warehouse, lines).value,
                 Stock.OfItem(product, variant, warehouse));
  }

  lemma ReceiptApplied(s: Stock.State, uid: nat, warehouse: nat, lines: seq<Stock.ReceiptLine>, cost: int,
                       product: nat, variant: Option<nat>)
    requires WellFormed(s.shelf) && !Stock.ReceiptOutcome(s, uid, warehouse, lines, cost).Refused?
    ensures var p := Stock.OfItem(product, variant, warehouse);
            var after := Stock.Execute(s, Stock.ReceiptOutcome(s, uid, warehouse, lines, cost)).shelf;
            WellFormed(after) && Stocked(after, p) == Stocked(s.shelf, p) + Brought(lines, product, variant)
  {
    ReceiptTotals(warehouse, lines, product, variant, warehouse);
    MovesApplied(s.shelf, Stock.ReceiptMoves(warehouse, Stock.InKeyOrder(lines)), Stock.OfItem(product, variant, warehouse));
  }

  /** The base units of a product and variant that a step brings in, and that it sends back. */
  function UnitsIn(w: World, e: Event, product: nat, variant: Option<nat>): int
  {
    if e.Receive? && ResultOf(w, e).Ok? then Brought(ReceiveItems(w.order.lines, e.items).value.movements, product, variant)
    else 0
  }

  function UnitsOut(w: World, e: Event, product: nat, variant: Option<nat>): int
  {
    if e.SendBack? && ResultOf(w, e).Ok? then UnitsAsked(ReturnLines(w.order, e.items), product, variant) else 0
  }

  function RunIn(w: World, events: seq<Event>, product: nat, variant: Option<nat>): int
    decreases |events|
  {
    if events == [] then 0
    else UnitsIn(w, events[0], product, variant) + RunIn(Step(w, events[0]), events[1..], product, variant)
  }

  function RunOut(w: World, events: seq<Event>, product: nat, variant: Option<nat>): int
    decreases |events|
  {
    if events == [] then 0
    else UnitsOut(w, events[0], product, variant) + RunOut(Step(w, events[0]), events[1..], product, variant)
  }

  lemma StepMovesStock(w: World, e: Event, product: nat, variant: Option<nat>)
    requires WellFormed(w.stock.shelf) && KeepsTerms(e)
    ensures var p := Stock.OfItem(product, variant, w.order.warehouse);
            && WellFormed(Step(w, e).stock.shelf)
            && Stocked(Step(w, e).stock.shelf, p)
               == Stocked(w.stock.shelf, p) + UnitsIn(w, e, product, variant) - UnitsOut(w, e, product, variant)
                  + OthersMoved(w, e, p)
  {
    if e.Elsewhere? {
      StepKeepsWellFormed(w.stock, e.event);
    } else if ResultOf(w, e).Ok? {
      if e.Receive? {
        var r := ReceiveItems(w.order.lines, e.items).value;
        ReceiptApplied(w.stock, e.uid, w.order.warehouse, r.movements, RoundHalfEven(r.cost), product, variant);
      } else if e.SendBack? {
        ReturnApplied(w.stock, e.uid, w.order.warehouse, ReturnLines(w.order, e.items), Refund(w.order, e.items), product, variant);
      }
    }
  }

  lemma MovesUnfold(w: World, events: seq<Event>, product: nat, variant: Option<nat>, p: Stock.Cell -> bool)
    ensures if events == [] then
              && Run(w, events) == w && RunIn(w, events, product, variant) == 0 == RunOut(w, events, product, variant)
              && RunOthersMoved(w, events, p) == 0
            else
              var e, rest, next := events[0], events[1..], Step(w, events[0]);
              && Run(w, events) == Run(next, rest)
              && RunIn(w, events, product, variant) == UnitsIn(w, e, product, variant) + RunIn(next, rest, product, variant)
              && RunOut(w, events, product, variant) == UnitsOut(w, e, product, variant) + RunOut(next, rest, product, variant)
              && RunOthersMoved(w, events, p) == OthersMoved(w, e, p) + RunOthersMoved(next, rest, p)
  {
  }

  /** Over any run that keeps the order's terms, whatever other services do in between: the stock of a
      product and variant moves by the base units received less those sent back, and by what the others
      move. */
  lemma {:induction false} StockFollowsReceipts(w: World, events: seq<Event>, product: nat, variant: Option<nat>)
    requires WellFormed(w.stock.shelf) && TermsKept(events)
    ensures var p := Stock.OfItem(product, variant, w.order.warehouse);
            && WellFormed(Run(w, events).stock.shelf)
            && Stocked(Run(w, events).stock.shelf, p)
               == Stocked(w.stock.shelf, p) + RunIn(w, events, product, variant) - RunOut(w, events, product, variant)
                  + RunOthersMoved(w, events, p)
    decreases |events|
  {
    hide *;
    MovesUnfold(w, events, product, variant, Stock.OfItem(product, variant, w.order.warehouse));
    if events != [] {
      TermsKeptRest(events);
      StepKeepsTerms(w, events[0]);
      StepMovesStock(w, events[0], product, variant);
      StockFollowsReceipts(Step(w, events[0]), events[1..], product, variant);
    }
  }

  // ---------------------------------------------------------------- the exact number of base units

  predicate IsOf(l: Line, product: nat, variant: Option<nat>)
  {
    l.product == product && l.variant == variant
  }

  /** Quantity received times multiplier, over the lines of a product and variant. */
  function ExactReceived(lines: seq<Line>, product: nat, variant: Option<nat>): real
  {
    if lines == [] then 0.0
    else
      var last := lines[|lines| - 1];
      ExactReceived(lines[..|lines| - 1], product, variant)
        + if IsOf(last, product, variant) then ExactUnits(last, last.received) else 0.0
  }

  /** How often items name a line of a product and variant. */
  function NamingsFor(lines: seq<Line>, items: seq<Item>, product: nat, variant: Option<nat>): int
  {
    Total(items, (i: Item) => if i.line < |lines| && IsOf(lines[i.line], product, variant) then 1 else 0)
  }

  lemma {:induction false} ExactReceivedUpdate(lines: seq<Line>, k: nat, quantity: nat, product: nat, variant: Option<nat>)
    requires k < |lines|
    ensures var l := lines[k];
            ExactReceived(lines[k := l.(received := l.received + quantity)], product, variant)
            == ExactReceived(lines, product, variant) + (if IsOf(l, product, variant) then ExactUnits(l, quantity) else 0.0)
  {
    var last := |lines| - 1;
    var l := lines[k].(received := lines[k].received + quantity);
    if k == last {
      assert lines[k := l][..last] == lines[..last];
      ExactUnitsAdd(lines[k], lines[k].received, quantity);
      assert ExactUnits(l, l.received) == ExactUnits(lines[k], lines[k].received + quantity);
    } else {
      assert lines[k := l][..last] == lines[..last][k := l];
      ExactReceivedUpdate(lines[..last], k, quantity, product, variant);
    }
  }

  /** One item: its base units, if it names such a line. */
  lemma ItemBrings(r: Receipt, i: Item, lines: seq<Line>, product: nat, variant: Option<nat>)
    requires ReceiveItem(r, i).Ok? && SameTerms(lines, r.lines)
    ensures i.line < |lines|
    ensures Brought(ReceiveItem(r, i).value.movements, product, variant)
         == Brought(r.movements, product, variant)
            + (if IsOf(lines[i.line], product, variant) then BaseUnits(lines[i.line], i.quantity) else 0)
  {
    var m := InBaseUnits(r.lines[i.line], i);
    SameInBaseUnits(lines[i.line], r.lines[i.line], i);
    var f := (l: Stock.ReceiptLine) => if l.product == product && l.variant == variant then l.quantity else 0;
    TotalOfOne(m, f);
    TotalAppend(r.movements, [m], f);
  }

  lemma SameExactUnits(a: Line, b: Line, quantity: int)
    requires a == b.(received := a.received)
    ensures ExactUnits(a, quantity) == ExactUnits(b, quantity)
  {
    assert Multiplier(a) == Multiplier(b);
  }

  /** And its exact units. */
  lemma ItemAdds(r: Receipt, i: Item, lines: seq<Line>, product: nat, variant: Option<nat>)
    requires ReceiveItem(r, i).Ok? && SameTerms(lines, r.lines)
    ensures i.line < |lines|
    ensures ExactReceived(ReceiveItem(r, i).value.lines, product, variant)
         == ExactReceived(r.lines, product, variant)
            + (if IsOf(lines[i.line], product, variant) then ExactUnits(lines[i.line], i.quantity) else 0.0)
  {
    hide ReceivedValue, InBaseUnits, ExactReceived;
    ExactReceivedUpdate(r.lines, i.line, i.quantity, product, variant);
    SameExactUnits(lines[i.line], r.lines[i.line], i.quantity);
  }

  lemma BaseUnitsAreNear(l: Line, quantity: int)
    ensures Near(BaseUnits(l, quantity), ExactUnits(l, quantity), 1)
  {
  }

  lemma NearNothing(lines: seq<Line>, product: nat, variant: Option<nat>)
    ensures Near(Brought([], product, variant), ExactReceived(lines, product, variant) - ExactReceived(lines, product, variant), 0)
  {
  }

  lemma {:induction false} ReceiptIsNear(lines: seq<Line>, items: seq<Item>, product: nat, variant: Option<nat>)
    requires ReceiveItems(lines, items).Ok?
    ensures var r := ReceiveItems(lines, items).value;
            Near(Brought(r.movements, product, variant),
                 ExactReceived(r.lines, product, variant) - ExactReceived(lines, product, variant),
                 NamingsFor(lines, items, product, variant))
  {
    hide Near, Brought, ExactReceived, ReceiveItem, BaseUnits, ExactUnits;
    if items == [] {
      NearNothing(lines, product, variant);
    } else {
      var front, i := items[..|items| - 1], items[|items| - 1];
      var r := ReceiveItems(lines, front).value;
      ReceiptIsNear(lines, front, product, variant);
      ReceivingKeepsTerms(lines, front);
      ItemBrings(r, i, lines, product, variant);
      ItemAdds(r, i, lines, product, variant);
      if IsOf(lines[i.line], product, variant) {
        NearAdd(Brought(r.movements, product, variant),
                ExactReceived(r.lines, product, variant) - ExactReceived(lines, product, variant),
                NamingsFor(lines, front, product, variant),
                BaseUnits(lines[i.line], i.quantity), ExactUnits(lines[i.line], i.quantity), 1) by {
          BaseUnitsAreNear(lines[i.line], i.quantity);
        }
      }
    }
  }

  function NamingsIn(w: World, e: Event, product: nat, variant: Option<nat>): int
  {
    if e.Receive? && ResultOf(w, e).Ok? then NamingsFor(w.order.lines, e.items, product, variant) else 0
  }

  function RunNamed(w: World, events: seq<Event>, product: nat, variant: Option<nat>): int
    decreases |events|
  {
    if events == [] then 0
    else NamingsIn(w, events[0], product, variant) + RunNamed(Step(w, events[0]), events[1..], product, variant)
  }

  lemma StepUnits(w: World, e: Event, product: nat, variant: Option<nat>)
    requires KeepsTerms(e)
    ensures if e.Receive? && ResultOf(w, e).Ok? then
              && ReceiveItems(w.order.lines, e.items).Ok?
              && var r := ReceiveItems(w.order.lines, e.items).value;
                 && Step(w, e).order.lines == r.lines
                 && UnitsIn(w, e, product, variant) == Brought(r.movements, product, variant)
                 && NamingsIn(w, e, product, variant) == NamingsFor(w.order.lines, e.items, product, variant)
            else
              && Step(w, e).order.lines == w.order.lines
              && UnitsIn(w, e, product, variant) == 0 == NamingsIn(w, e, product, variant)
  {
  }

  lemma StepInIsNear(w: World, e: Event, product: nat, variant: Option<nat>)
    requires KeepsTerms(e)
    ensures Near(UnitsIn(w, e, product, variant),
                 ExactReceived(Step(w, e).order.lines, product, variant) - ExactReceived(w.order.lines, product, variant),
                 NamingsIn(w, e, product, variant))
  {
    hide *;
    StepUnits(w, e, product, variant);
    if e.Receive? && ResultOf(w, e).Ok? {
      ReceiptIsNear(w.order.lines, e.items, product, variant);
    } else {
      NearZero(ExactReceived(Step(w, e).order.lines, product, variant) - ExactReceived(w.order.lines, product, variant));
    }
  }

  lemma RunInUnfolds(w: World, events: seq<Event>, product: nat, variant: Option<nat>)
    ensures if events == [] then
              Run(w, events) == w && RunIn(w, events, product, variant) == 0 == RunNamed(w, events, product, variant)
            else
              var e, rest, next := events[0], events[1..], Step(w, events[0]);
              && Run(w, events) == Run(next, rest)
              && RunIn(w, events, product, variant) == UnitsIn(w, e, product, variant) + RunIn(next, rest, product, variant)
              && RunNamed(w, events, product, variant)
                 == NamingsIn(w, e, product, variant) + RunNamed(next, rest, product, variant)
  {
  }

  lemma NearZero(x: real)
    requires x == 0.0
    ensures Near(0, x, 0)
  {
  }

  lemma TermsKeptRest(events: seq<Event>)
    requires events != [] && TermsKept(events)
    ensures KeepsTerms(events[0]) && TermsKept(events[1..])
  {
  }

  lemma {:induction false} RunInIsNear(w: World, events: seq<Event>, product: nat, variant: Option<nat>)
    requires TermsKept(events)
    ensures Near(RunIn(w, events, product, variant),
                 ExactReceived(Run(w, events).order.lines, product, variant)
                   - ExactReceived(w.order.lines, product, variant),
                 RunNamed(w, events, product, variant))
    decreases |events|
  {
    hide *;
    RunInUnfolds(w, events, product, variant);
    var before, after := ExactReceived(w.order.lines, product, variant), ExactReceived(Run(w, events).order.lines, product, variant);
    if events == [] {
      NearZero(after - before);
    } else {
      var e, rest, next := events[0], events[1..], Step(w, events[0]);
      var between := ExactReceived(next.order.lines, product, variant);
      TermsKeptRest(events);
      RunInIsNear(next, rest, product, variant);
      StepInIsNear(w, e, product, variant);
      NearAdd(UnitsIn(w, e, product, variant), between - before, NamingsIn(w, e, product, variant),
              RunIn(next, rest, product, variant), after - between, RunNamed(next, rest, product, variant));
      assert between - before + (after - between) == after - before;
    }
  }

  /** The stock of a product and variant, what was sent back added and what others moved taken off,
      differs from the exact base units received by at most half a unit for each time a receipt named one
      of its lines. */
  lemma StockIsNearExact(w: World, events: seq<Event>, product: nat, variant: Option<nat>)
    requires WellFormed(w.stock.shelf) && TermsKept(events)
    ensures var p := Stock.OfItem(product, variant, w.order.warehouse);
            Near(Stocked(Run(w, events).stock.shelf, p) - Stocked(w.stock.shelf, p)
                   - RunOthersMoved(w, events, p) + RunOut(w, events, product, variant),
                 ExactReceived(Run(w, events).order.lines, product, variant)
                   - ExactReceived(w.order.lines, product, variant),
                 RunNamed(w, events, product, variant))
  {
    hide *;
    StockFollowsReceipts(w, events, product, variant);
    RunInIsNear(w, events, product, variant);
  }

  /** For a line that alone is of its product and variant, these are its own quantity times multiplier. */
  lemma {:induction false} ExactOfSoleLine(lines: seq<Line>, k: nat)
    requires k < |lines|
    requires forall j :: 0 <= j < |lines| && j != k ==> !IsOf(lines[j], lines[k].product, lines[k].variant)
    ensures ExactReceived(lines, lines[k].product, lines[k].variant) == ExactUnits(lines[k], lines[k].received)
  {
    var last := |lines| - 1;
    if k < last {
      ExactOfSoleLine(lines[..last], k);
    } else {
      ExactOfNone(lines[..last], lines[k].product, lines[k].variant);
    }
  }

  lemma {:induction false} ExactOfNone(lines: seq<Line>, product: nat, variant: Option<nat>)
    requires forall j :: 0 <= j < |lines| ==> !IsOf(lines[j], product, variant)
    ensures ExactReceived(lines, product, variant) == 0.0
  {
    if lines != [] { ExactOfNone(lines[..|lines| - 1], product, variant); }
  }
}

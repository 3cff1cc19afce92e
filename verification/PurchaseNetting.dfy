/** Receiving an order and sending it back. With whole unit multipliers the stock follows what was
    received and not returned; without line discounts the books do, and with discounts they keep exactly
    the discount. So what returning everything restores is known exactly. */
module PurchaseNetting {
  import opened Results
  import opened Rounding
  import opened Sums
  import opened Purchase
  import opened PurchaseRuns
  import opened PurchaseCosts
  import opened PurchaseLedger
  import Books
  import Fifo
  import Stock
  import opened StockInvariants
  import opened StockEffects

  // ---------------------------------------------------------------- weighted quantities

  /** What a weight per unit of each line gives for some items, and for what was received. */
  function Weighted(items: seq<Item>, weight: nat -> int): int
  {
    Total(items, (i: Item) => i.quantity * weight(i.line))
  }

  function ReceivedWeighted(lines: seq<Line>, weight: nat -> int): int
  {
    if lines == [] then 0
    else
      var last := |lines| - 1;
      ReceivedWeighted(lines[..last], weight) + lines[last].received * weight(last)
  }

  lemma {:induction false} ReceivedWeightedUpdate(lines: seq<Line>, weight: nat -> int, k: nat, l: Line)
    requires k < |lines|
    ensures ReceivedWeighted(lines[k := l], weight)
         == ReceivedWeighted(lines, weight) + (l.received - lines[k].received) * weight(k)
  {
    var last := |lines| - 1;
    if k == last {
      assert lines[k := l][..last] == lines[..last];
    } else {
      assert lines[k := l][..last] == lines[..last][k := l];
      ReceivedWeightedUpdate(lines[..last], weight, k, l);
    }
  }

  lemma {:induction false} ReceivingAddsWeight(lines: seq<Line>, items: seq<Item>, weight: nat -> int)
    requires ReceiveItems(lines, items).Ok?
    ensures ReceivedWeighted(ReceiveItems(lines, items).value.lines, weight)
         == ReceivedWeighted(lines, weight) + Weighted(items, weight)
  {
    if items != [] {
      var front, i := items[..|items| - 1], items[|items| - 1];
      ReceivingAddsWeight(lines, front, weight);
      var before := ReceiveItems(lines, front).value.lines;
      var l := before[i.line];
      ReceivedWeightedUpdate(before, weight, i.line, l.(received := l.received + i.quantity));
    }
  }

  /** Some items are part of what was received. */
  predicate Within(items: seq<Item>, lines: seq<Line>)
  {
    && (forall i :: 0 <= i < |items| ==> items[i].line < |lines|)
    && forall k :: 0 <= k < |lines| ==> 0 <= QuantityOf(items, k) <= lines[k].received
  }

  /** The lines as they would be if the items had not been received. */
  function Without(lines: seq<Line>, items: seq<Item>): (r: seq<Line>)
    requires Within(items, lines)
    ensures |r| == |lines|
    ensures forall k :: 0 <= k < |r| ==> r[k] == lines[k].(received := lines[k].received - QuantityOf(items, k))
  {
    seq(|lines|, k requires 0 <= k < |lines| => lines[k].(received := lines[k].received - QuantityOf(items, k)))
  }

  lemma WithoutOneMore(lines: seq<Line>, items: seq<Item>)
    requires items != [] && AllPositive(items) && Within(items, lines)
    ensures var front, i := items[..|items| - 1], items[|items| - 1];
            && AllPositive(front) && Within(front, lines) && i.line < |lines|
            && var l := Without(lines, front)[i.line];
               && l.received >= i.quantity
               && Without(lines, items) == Without(lines, front)[i.line := l.(received := l.received - i.quantity)]
  {
    var front := items[..|items| - 1];
    forall k | 0 <= k < |lines| ensures 0 <= QuantityOf(front, k) <= lines[k].received {
      QuantityOfNamed(front, k);
    }
  }

  lemma TakingOff(lines: seq<Line>, weight: nat -> int, i: Item)
    requires i.line < |lines| && lines[i.line].received >= i.quantity
    ensures ReceivedWeighted(lines, weight)
         == i.quantity * weight(i.line)
            + ReceivedWeighted(lines[i.line := lines[i.line].(received := lines[i.line].received - i.quantity)], weight)
  {
    var l := lines[i.line];
    ReceivedWeightedUpdate(lines, weight, i.line, l.(received := l.received - i.quantity));
    assert (l.received - i.quantity - l.received) * weight(i.line) == -(i.quantity * weight(i.line));
  }

  /** What was received weighs as much as the items and the rest. */
  lemma {:induction false} WeightOfTheRest(lines: seq<Line>, items: seq<Item>, weight: nat -> int)
    requires AllPositive(items) && Within(items, lines)
    ensures ReceivedWeighted(lines, weight) == Weighted(items, weight) + ReceivedWeighted(Without(lines, items), weight)
  {
    if items == [] {
      assert Without(lines, items) == lines;
    } else {
      var front, i := items[..|items| - 1], items[|items| - 1];
      WithoutOneMore(lines, items);
      WeightOfTheRest(lines, front, weight);
      TakingOff(Without(lines, front), weight, i);
    }
  }

  lemma {:induction false} WeightIsNotNegative(lines: seq<Line>, weight: nat -> int)
    requires forall k :: 0 <= k < |lines| ==> weight(k) >= 0
    ensures ReceivedWeighted(lines, weight) >= 0
  {
    if lines != [] { WeightIsNotNegative(lines[..|lines| - 1], weight); }
  }

  lemma {:induction false} WeightOfNothing(lines: seq<Line>, weight: nat -> int)
    requires forall k :: 0 <= k < |lines| ==> lines[k].received == 0
    ensures ReceivedWeighted(lines, weight) == 0
  {
    if lines != [] { WeightOfNothing(lines[..|lines| - 1], weight); }
  }

  // ---------------------------------------------------------------- whole units, no discounts

  function Whole(l: Line): int
  {
    Multiplier(l).Floor
  }

  /** A whole number of base units in a unit. */
  predicate WholeLine(l: Line)
  {
    Multiplier(l) == Whole(l) as real && Whole(l) > 0
  }

  predicate WholeUnits(lines: seq<Line>)
  {
    forall k :: 0 <= k < |lines| ==> WholeLine(lines[k])
  }

  predicate Undiscounted(lines: seq<Line>)
  {
    forall k :: 0 <= k < |lines| ==> lines[k].discount == 0 && lines[k].cost >= 0
  }

  lemma WholeConversion(l: Line, quantity: int)
    requires WholeLine(l)
    ensures BaseUnits(l, quantity) == quantity * Whole(l)
  {
    RoundsToItself(quantity as real * Multiplier(l), quantity * Whole(l));
  }

  lemma UndiscountedValue(l: Line)
    requires l.discount == 0 && l.cost >= 0
    ensures ReceivedValue(l) == (l.received * l.cost) as real
  {
    assert (l.received * l.cost) as real == l.received as real * l.cost as real;
    assert l.received * l.cost >= 0;
  }

  /** Weights: cents of cost, and base units of one product and variant. */
  function CostWeight(lines: seq<Line>): nat -> int
  {
    (k: nat) => if k < |lines| then lines[k].cost else 0
  }

  function UnitWeight(lines: seq<Line>, product: nat, variant: Option<nat>): nat -> int
  {
    (k: nat) => if k < |lines| && lines[k].product == product && lines[k].variant == variant then Whole(lines[k]) else 0
  }

  predicate WeighsCost(weight: nat -> int, lines: seq<Line>)
  {
    forall k :: 0 <= k < |lines| ==> weight(k) == lines[k].cost
  }

  predicate WeighsUnits(weight: nat -> int, lines: seq<Line>, product: nat, variant: Option<nat>)
  {
    forall k :: 0 <= k < |lines| ==>
      weight(k) == if lines[k].product == product && lines[k].variant == variant then Whole(lines[k]) else 0
  }

  lemma {:induction false} UndiscountedValueIsWeight(lines: seq<Line>, weight: nat -> int)
    requires Undiscounted(lines) && WeighsCost(weight, lines)
    ensures Value(lines) == ReceivedWeighted(lines, weight) as real
  {
    if lines != [] {
      var last := |lines| - 1;
      UndiscountedValueIsWeight(lines[..last], weight);
      UndiscountedValue(lines[last]);
    }
  }

  lemma CostsKeep(a: seq<Line>, b: seq<Line>, cents: nat -> int)
    requires SameTerms(a, b) && WeighsCost(cents, b)
    ensures WeighsCost(cents, a)
    ensures Undiscounted(b) ==> Undiscounted(a)
    ensures CostsNotNegative(b) ==> CostsNotNegative(a)
  {
    forall k | 0 <= k < |a| ensures a[k].cost == b[k].cost && a[k].discount == b[k].discount {
      assert a[k] == b[k].(received := a[k].received);
    }
  }

  lemma UnitsKeep(a: seq<Line>, b: seq<Line>, units: nat -> int, product: nat, variant: Option<nat>)
    requires SameTerms(a, b) && WholeUnits(b) && WeighsUnits(units, b, product, variant)
    ensures WholeUnits(a) && WeighsUnits(units, a, product, variant)
  {
    forall k | 0 <= k < |a| ensures WholeLine(a[k]) && Whole(a[k]) == Whole(b[k]) {
      assert Multiplier(a[k]) == Multiplier(b[k]) && WholeLine(b[k]);
    }
  }

  // ---------------------------------------------------------------- the books of the order alone

  lemma TermsKeptFairlyPriced(events: seq<Event>)
    requires TermsKept(events)
    ensures FairlyPricedRun(events)
  {
    forall i | 0 <= i < |events| ensures FairlyPriced(events[i]) {
      assert KeepsTerms(events[i]);
    }
  }

  lemma RefundIsWeight(o: Order, items: seq<Item>, weight: nat -> int)
    requires WeighsCost(weight, o.lines) && forall i :: 0 <= i < |items| ==> items[i].line < |o.lines|
    ensures Refund(o, items) == Weighted(items, weight)
  {
    TotalsAgree(items, items, (i: Item) => if i.line < |o.lines| then o.lines[i.line].cost * i.quantity else 0,
                (i: Item) => i.quantity * weight(i.line));
  }

  /** Refunds are the undiscounted cost of what is returned. */
  lemma StepRefunds(w: World, e: Event, cents: nat -> int)
    requires KeepsTerms(e) && WeighsCost(cents, w.order.lines)
    ensures RefundOf(w, e) == Weighted(Step(w, e).order.returned, cents) - Weighted(w.order.returned, cents)
  {
    hide Stock.Execute, Stock.PurchaseReturnOutcome, Refund, ReturnLines, ReturnsRefusal, WeighsCost, ReceiveItems;
    if e.SendBack? && ResultOf(w, e).Ok? {
      RefundIsWeight(w.order, e.items, cents);
      TotalAppend(w.order.returned, e.items, (i: Item) => i.quantity * cents(i.line));
    }
  }

  lemma RefundUnfolds(w: World, events: seq<Event>)
    ensures if events == [] then Run(w, events) == w && RunRefund(w, events) == 0
            else
              var e, rest, next := events[0], events[1..], Step(w, events[0]);
              Run(w, events) == Run(next, rest) && RunRefund(w, events) == RefundOf(w, e) + RunRefund(next, rest)
  {
  }

  lemma {:induction false} RefundsAddUp(w: World, events: seq<Event>, cents: nat -> int)
    requires TermsKept(events) && WeighsCost(cents, w.order.lines)
    ensures RunRefund(w, events) == Weighted(Run(w, events).order.returned, cents) - Weighted(w.order.returned, cents)
    decreases |events|
  {
    hide *;
    RefundUnfolds(w, events);
    if events != [] {
      TermsKeptRest(events);
      StepKeepsTerms(w, events[0]);
      CostsKeep(Step(w, events[0]).order.lines, w.order.lines, cents);
      StepRefunds(w, events[0], cents);
      RefundsAddUp(Step(w, events[0]), events[1..], cents);
    }
  }

  lemma ReceiptPostsCost(lines: seq<Line>, items: seq<Item>, cents: nat -> int)
    requires LinesOk(lines) && Undiscounted(lines) && WeighsCost(cents, lines) && ReceiveItems(lines, items).Ok?
    ensures var r := ReceiveItems(lines, items).value;
            RoundHalfEven(r.cost) == ReceivedWeighted(r.lines, cents) - ReceivedWeighted(lines, cents)
  {
    var r := ReceiveItems(lines, items).value;
    ReceiptCostIsIncrease(lines, items);
    ReceivingKeepsTerms(lines, items);
    forall k | 0 <= k < |r.lines| ensures r.lines[k] == lines[k].(received := r.lines[k].received) {
      assert lines[k] == r.lines[k].(received := lines[k].received);
    }
    CostsKeep(r.lines, lines, cents);
    UndiscountedValueIsWeight(lines, cents);
    UndiscountedValueIsWeight(r.lines, cents);
    RoundsToItself(r.cost, ReceivedWeighted(r.lines, cents) - ReceivedWeighted(lines, cents));
  }

  lemma StepPostsCost(w: World, e: Event, cents: nat -> int)
    requires LinesOk(w.order.lines) && Undiscounted(w.order.lines) && KeepsTerms(e) && WeighsCost(cents, w.order.lines)
    ensures PostedOf(w, e) == ReceivedWeighted(Step(w, e).order.lines, cents) - ReceivedWeighted(w.order.lines, cents)
  {
    if e.Receive? && ResultOf(w, e).Ok? {
      ReceiptPostsCost(w.order.lines, e.items, cents);
    } else {
      WholeNumbersAreFixed(0);
    }
  }

  lemma PostedUnfolds(w: World, events: seq<Event>)
    ensures if events == [] then Run(w, events) == w && RunPosted(w, events) == 0
            else
              var e, rest, next := events[0], events[1..], Step(w, events[0]);
              Run(w, events) == Run(next, rest) && RunPosted(w, events) == PostedOf(w, e) + RunPosted(next, rest)
  {
  }

  /** Without discounts the receipts post exactly the cost of what is received: nothing is lost to
      rounding. */
  lemma {:induction false} PostedAddsUp(w: World, events: seq<Event>, cents: nat -> int)
    requires TermsKept(events) && LinesOk(w.order.lines) && Undiscounted(w.order.lines) && WeighsCost(cents, w.order.lines)
    ensures RunPosted(w, events)
         == ReceivedWeighted(Run(w, events).order.lines, cents) - ReceivedWeighted(w.order.lines, cents)
    decreases |events|
  {
    hide *;
    PostedUnfolds(w, events);
    if events != [] {
      TermsKeptRest(events);
      StepKeepsTerms(w, events[0]);
      CostsKeep(Step(w, events[0]).order.lines, w.order.lines, cents);
      StepKeepsLines(w, events[0]);
      StepPostsCost(w, events[0], cents);
      PostedAddsUp(Step(w, events[0]), events[1..], cents);
    }
  }

  // ---------------------------------------------------------------- the stock of the order alone

  /** The weight of what was received and not returned. */
  function Outstanding(o: Order, weight: nat -> int): int
  {
    ReceivedWeighted(o.lines, weight) - Weighted(o.returned, weight)
  }

  lemma ReceiptMovesUnits(lines: seq<Line>, items: seq<Item>, units: nat -> int, product: nat, variant: Option<nat>)
    requires WholeUnits(lines) && WeighsUnits(units, lines, product, variant) && ReceiveItems(lines, items).Ok?
    ensures Brought(ReceiveItems(lines, items).value.movements, product, variant) == Weighted(items, units)
  {
    var m := ReceiveItems(lines, items).value.movements;
    var f := (l: Stock.ReceiptLine) => if l.product == product && l.variant == variant then l.quantity else 0;
    var g := (i: Item) => i.quantity * units(i.line);
    MovementsFollowItems(lines, items);
    forall i | 0 <= i < |items| ensures f(m[i]) == g(items[i]) {
      assert MovementOf(lines, items[i], m[i]);
      WholeConversion(lines[items[i].line], items[i].quantity);
    }
    TotalsAgree(m, items, f, g);
  }

  lemma ReturnAsksUnits(o: Order, items: seq<Item>, weight: nat -> int, product: nat, variant: Option<nat>)
    requires WholeUnits(o.lines) && WeighsUnits(weight, o.lines, product, variant) && AllPositive(items) && Convertible(o, items)
    ensures UnitsAsked(ReturnLines(o, items), product, variant) == Weighted(items, weight)
  {
    var lines := ReturnLines(o, items);
    var f := (l: Stock.ReceiptLine) => if l.product == product && l.variant == variant then Fifo.Max(0, l.quantity) else 0;
    var g := (i: Item) => i.quantity * weight(i.line);
    forall i | 0 <= i < |items| ensures f(lines[i]) == g(items[i]) {
      var l := o.lines[items[i].line];
      WholeConversion(l, items[i].quantity);
      assert items[i].quantity * Whole(l) > 0;
    }
    TotalsAgree(lines, items, f, g);
  }

  /** What a step moves in stock is the change of what is outstanding, in base units. */
  lemma StepMovesUnits(w: World, e: Event, units: nat -> int, product: nat, variant: Option<nat>)
    requires WholeUnits(w.order.lines) && KeepsTerms(e) && WeighsUnits(units, w.order.lines, product, variant)
    ensures UnitsIn(w, e, product, variant) - UnitsOut(w, e, product, variant)
         == Outstanding(Step(w, e).order, units) - Outstanding(w.order, units)
  {
    if ResultOf(w, e).Ok? {
      if e.Receive? {
        ReceiptMovesUnits(w.order.lines, e.items, units, product, variant);
        ReceivingAddsWeight(w.order.lines, e.items, units);
      } else if e.SendBack? {
        NoRefusalIsPositive(w.order, e.items);
        ReturnAsksUnits(w.order, e.items, units, product, variant);
        TotalAppend(w.order.returned, e.items, (i: Item) => i.quantity * units(i.line));
      }
    }
  }

  /** Over any run that keeps the order's terms, whatever the discounts: beside what others move, the stock
      of a product and variant moves exactly with what is received and not returned. */
  lemma {:induction false} StockFollowsQuantities(w: World, events: seq<Event>, units: nat -> int,
                                                  product: nat, variant: Option<nat>)
    requires WholeUnits(w.order.lines) && WellFormed(w.stock.shelf) && TermsKept(events)
    requires WeighsUnits(units, w.order.lines, product, variant)
    ensures var p, after := Stock.OfItem(product, variant, w.order.warehouse), Run(w, events);
            && WholeUnits(after.order.lines) && WellFormed(after.stock.shelf)
            && WeighsUnits(units, after.order.lines, product, variant)
            && after.order.warehouse == w.order.warehouse
            && Stocked(after.stock.shelf, p) - Stocked(w.stock.shelf, p)
               == Outstanding(after.order, units) - Outstanding(w.order, units) + RunOthersMoved(w, events, p)
    decreases |events|
  {
    hide *;
    MovesUnfold(w, events, product, variant, Stock.OfItem(product, variant, w.order.warehouse));
    if events != [] {
      var e, next := events[0], Step(w, events[0]);
      TermsKeptRest(events);
      StepKeepsTerms(w, e);
      UnitsKeep(next.order.lines, w.order.lines, units, product, variant);
      StepMovesStock(w, e, product, variant);
      StepMovesUnits(w, e, units, product, variant);
      StockFollowsQuantities(next, events[1..], units, product, variant);
    }
  }

  // ---------------------------------------------------------------- returning everything

  predicate EverythingReturned(o: Order)
  {
    forall k :: 0 <= k < |o.lines| ==> QuantityOf(o.returned, k) == o.lines[k].received
  }

  lemma QuantitiesAreWithin(o: Order)
    requires QuantitiesOk(o)
    ensures AllPositive(o.returned) && Within(o.returned, o.lines)
  {
    forall k | 0 <= k < |o.lines| ensures 0 <= QuantityOf(o.returned, k) <= o.lines[k].received {
      assert LineOk(o, k);
    }
  }

  lemma OutstandingIsRest(o: Order, weight: nat -> int)
    requires QuantitiesOk(o)
    ensures Within(o.returned, o.lines)
    ensures Outstanding(o, weight) == ReceivedWeighted(Without(o.lines, o.returned), weight)
    ensures EverythingReturned(o) ==> Outstanding(o, weight) == 0
  {
    QuantitiesAreWithin(o);
    WeightOfTheRest(o.lines, o.returned, weight);
    if EverythingReturned(o) { WeightOfNothing(Without(o.lines, o.returned), weight); }
  }

  lemma NothingOutstandingAtFirst(o: Order, weight: nat -> int)
    requires QuantitiesOk(o) && !AnyReceived(o.lines)
    ensures Outstanding(o, weight) == 0
  {
    NothingReceivedNothingReturned(o);
    forall k | 0 <= k < |o.lines| ensures o.lines[k].received == 0 {
      assert o.lines[k].received <= 0;
    }
    WeightOfNothing(o.lines, weight);
  }

  /** An order as it is before its first receipt. */
  predicate Untouched(o: Order)
  {
    QuantitiesOk(o) && !AnyReceived(o.lines)
  }

  lemma UntouchedMeans(o: Order)
    requires Untouched(o)
    ensures QuantitiesOk(o) && LinesOk(o.lines) && !AnyReceived(o.lines)
  {
    QuantitiesBoundLines(o);
  }

  lemma NothingWeighsAtFirst(o: Order, weight: nat -> int)
    requires Untouched(o)
    ensures ReceivedWeighted(o.lines, weight) == 0
  {
    forall k | 0 <= k < |o.lines| ensures o.lines[k].received == 0 {
      assert o.lines[k].received <= 0;
    }
    WeightOfNothing(o.lines, weight);
  }

  lemma BoughtIs(cents: int)
    ensures Bought(Books.InventoryAsset, cents) == cents
    ensures forall a :: Bought(a, 0) == 0
  {
  }

  lemma UnitWeightWeighs(lines: seq<Line>, product: nat, variant: Option<nat>)
    ensures WeighsUnits(UnitWeight(lines, product, variant), lines, product, variant)
  {
  }

  lemma CostWeightWeighs(lines: seq<Line>)
    ensures WeighsCost(CostWeight(lines), lines)
  {
  }

  /** However goods were received and returned in between: once everything received has been returned,
      each product and variant is back at the stock it had over all batches, and what others moved. */
  lemma ReturningAllRestoresStock(w: World, events: seq<Event>, product: nat, variant: Option<nat>)
    requires Untouched(w.order) && WholeUnits(w.order.lines) && WellFormed(w.stock.shelf)
    requires TermsKept(events) && DistinctRun(events) && EverythingReturned(Run(w, events).order)
    ensures var p := Stock.OfItem(product, variant, w.order.warehouse);
            Stocked(Run(w, events).stock.shelf, p) == Stocked(w.stock.shelf, p) + RunOthersMoved(w, events, p)
  {
    var units := UnitWeight(w.order.lines, product, variant);
    UnitWeightWeighs(w.order.lines, product, variant);
    StockFollowsQuantities(w, events, units, product, variant);
    RunKeepsQuantities(w, events);
    NothingOutstandingAtFirst(w.order, units);
    OutstandingIsRest(Run(w, events).order, units);
  }

  /** What was received, at its undiscounted cost. */
  function CostReceived(lines: seq<Line>): int
  {
    ReceivedWeighted(lines, CostWeight(lines))
  }

  lemma {:induction false} SameWeight(lines: seq<Line>, a: nat -> int, b: nat -> int)
    requires forall k :: 0 <= k < |lines| ==> a(k) == b(k)
    ensures ReceivedWeighted(lines, a) == ReceivedWeighted(lines, b)
  {
    if lines != [] { SameWeight(lines[..|lines| - 1], a, b); }
  }

  lemma CostReceivedIs(lines: seq<Line>, cents: nat -> int)
    requires WeighsCost(cents, lines)
    ensures CostReceived(lines) == ReceivedWeighted(lines, cents)
  {
    SameWeight(lines, CostWeight(lines), cents);
  }

  /** Once everything is returned the refunds come to the undiscounted cost of all that was received. */
  lemma AllRefunded(w: World, events: seq<Event>)
    requires Untouched(w.order) && TermsKept(events) && DistinctRun(events) && EverythingReturned(Run(w, events).order)
    ensures RunRefund(w, events) == CostReceived(Run(w, events).order.lines)
  {
    var after, cents := Run(w, events).order, CostWeight(w.order.lines);
    CostWeightWeighs(w.order.lines);
    RefundsAddUp(w, events, cents);
    RunKeepsQuantities(w, events);
    RunKeepsTerms(w, events);
    CostsKeep(after.lines, w.order.lines, cents);
    CostReceivedIs(after.lines, cents);
    OutstandingIsRest(after, cents);
    NothingReceivedNothingReturned(w.order);
  }

  /** With any discounts and multipliers: returning everything leaves in the books, beside what others
      post, exactly what the receipts posted less the undiscounted cost of the goods. So they net to zero
      exactly if the receipts posted that cost. */
  lemma ReturningAllNetsExactly(w: World, events: seq<Event>, account: Books.Account)
    requires Untouched(w.order) && CostsNotNegative(w.order.lines)
    requires TermsKept(events) && DistinctRun(events) && EverythingReturned(Run(w, events).order)
    ensures BookNet(Run(w, events).stock.books, account) - BookNet(w.stock.books, account)
         == Bought(account, RunPosted(w, events) - CostReceived(Run(w, events).order.lines))
            + RunOthersPosted(w, events, account)
  {
    hide *;
    UntouchedMeans(w.order);
    TermsKeptFairlyPriced(events);
    BooksFollowReceipts(w, events, account);
    AllRefunded(w, events);
  }

  /** Without discounts they always do. */
  lemma ReturningAllRestoresBooks(w: World, events: seq<Event>, account: Books.Account)
    requires Untouched(w.order) && Undiscounted(w.order.lines)
    requires TermsKept(events) && DistinctRun(events) && EverythingReturned(Run(w, events).order)
    ensures BookNet(Run(w, events).stock.books, account)
         == BookNet(w.stock.books, account) + RunOthersPosted(w, events, account)
  {
    hide *;
    var after, cents := Run(w, events).order, CostWeight(w.order.lines);
    UntouchedMeans(w.order);
    UndiscountedCosts(w.order.lines);
    ReturningAllNetsExactly(w, events, account);
    CostWeightWeighs(w.order.lines);
    PostedAddsUp(w, events, cents);
    NothingWeighsAtFirst(w.order, cents);
    RunKeepsTerms(w, events);
    CostsKeep(after.lines, w.order.lines, cents);
    CostReceivedIs(after.lines, cents);
    BoughtIs(0);
  }

  lemma UndiscountedCosts(lines: seq<Line>)
    requires Undiscounted(lines)
    ensures CostsNotNegative(lines)
  {
  }

  // ---------------------------------------------------------------- discounts

  /** What a discount takes off a line: it cannot make the line's value negative. */
  function EffectiveDiscount(l: Line): int
  {
    l.ordered * l.cost - Fifo.Max(0, l.ordered * l.cost - l.discount)
  }

  function TotalDiscount(lines: seq<Line>): int
  {
    Total(lines, (l: Line) => EffectiveDiscount(l))
  }

  /** Fully received lines are worth their cost less their discounts. */
  lemma {:induction false} ValueIsCostLessDiscount(lines: seq<Line>, cents: nat -> int)
    requires LinesOk(lines) && AllReceived(lines) && WeighsCost(cents, lines)
    ensures Value(lines) == (ReceivedWeighted(lines, cents) - TotalDiscount(lines)) as real
  {
    if lines != [] {
      var front, l := lines[..|lines| - 1], lines[|lines| - 1];
      assert forall k :: 0 <= k < |front| ==> front[k] == lines[k];
      ValueIsCostLessDiscount(front, cents);
      FullValueIsOrderedValue(l);
    }
  }

  lemma {:induction false} DiscountsKeep(a: seq<Line>, b: seq<Line>)
    requires SameTerms(a, b)
    ensures TotalDiscount(a) == TotalDiscount(b)
  {
    forall k | 0 <= k < |a| ensures EffectiveDiscount(a[k]) == EffectiveDiscount(b[k]) {
      assert a[k] == b[k].(received := a[k].received);
    }
    TotalsAgree(a, b, (l: Line) => EffectiveDiscount(l), (l: Line) => EffectiveDiscount(l));
  }

  /** A single receipt is rounded once, as a whole. */
  lemma {:induction false} OneReceipt(w: World, events: seq<Event>)
    ensures RunReceipts(w, events) == 0 ==> RunCost(w, events) == 0.0 && RunPosted(w, events) == 0
    ensures RunReceipts(w, events) <= 1 ==> RunPosted(w, events) == RoundHalfEven(RunCost(w, events))
    decreases |events|
  {
    WholeNumbersAreFixed(0);
    if events != [] {
      OneReceipt(Step(w, events[0]), events[1..]);
      if ReceiptsOf(w, events[0]) == 0 {
        assert CostOf(w, events[0]) == 0.0;
        assert RunCost(w, events) == RunCost(Step(w, events[0]), events[1..]);
      } else if RunReceipts(w, events) <= 1 {
        assert RunCost(w, events) == CostOf(w, events[0]);
      }
    }
  }

  /** Everything received and everything returned: inventory is left short of the discounts, within half a
      cent for each receipt, because refunds do not take the discount off. */
  lemma DiscountsStayInBooks(w: World, events: seq<Event>)
    requires Untouched(w.order) && CostsNotNegative(w.order.lines) && TermsKept(events) && DistinctRun(events)
    requires AllReceived(Run(w, events).order.lines) && EverythingReturned(Run(w, events).order)
    ensures Near(BookNet(Run(w, events).stock.books, Books.InventoryAsset)
                   - BookNet(w.stock.books, Books.InventoryAsset) - RunOthersPosted(w, events, Books.InventoryAsset),
                 (-TotalDiscount(w.order.lines)) as real, RunReceipts(w, events))
  {
    hide *;
    var cost := CostReceived(Run(w, events).order.lines);
    FullValueAfter(w, events);
    ReturningAllNetsExactly(w, events, Books.InventoryAsset);
    BoughtIs(RunPosted(w, events) - cost);
    PostedIsNearCost(w, events);
    NearShift(RunPosted(w, events), RunCost(w, events), RunReceipts(w, events), cost);
    assert RunCost(w, events) - cost as real == (-TotalDiscount(w.order.lines)) as real;
  }

  lemma NearShift(a: int, x: real, n: int, shift: int)
    requires Near(a, x, n)
    ensures Near(a - shift, x - shift as real, n)
  {
    assert (a - shift) as real == a as real - shift as real;
  }

  lemma FullValueAfter(w: World, events: seq<Event>)
    requires Untouched(w.order) && TermsKept(events) && AllReceived(Run(w, events).order.lines)
    ensures RunCost(w, events) == (CostReceived(Run(w, events).order.lines) - TotalDiscount(w.order.lines)) as real
  {
    var after := Run(w, events).order.lines;
    QuantitiesBoundLines(w.order);
    ReceiptsAddUpToOrder(w, events);
    RunKeepsLines(w, events);
    RunKeepsTerms(w, events);
    CostWeightWeighs(after);
    ValueIsCostLessDiscount(after, CostWeight(after));
    DiscountsKeep(after, w.order.lines);
  }

  /** When everything came in one receipt it is exactly the discounts: no account changes exactly if they
      come to nothing. */
  lemma OneReceiptNetsExactly(w: World, events: seq<Event>, account: Books.Account)
    requires Untouched(w.order) && CostsNotNegative(w.order.lines) && TermsKept(events) && DistinctRun(events)
    requires RunReceipts(w, events) == 1
    requires AllReceived(Run(w, events).order.lines) && EverythingReturned(Run(w, events).order)
    ensures BookNet(Run(w, events).stock.books, account) - BookNet(w.stock.books, account)
         == Bought(account, -TotalDiscount(w.order.lines)) + RunOthersPosted(w, events, account)
    ensures BookNet(Run(w, events).stock.books, Books.InventoryAsset)
         == BookNet(w.stock.books, Books.InventoryAsset) + RunOthersPosted(w, events, Books.InventoryAsset)
       <==> TotalDiscount(w.order.lines) == 0
  {
    hide *;
    FullValueAfter(w, events);
    OneReceipt(w, events);
    RoundsToItself(RunCost(w, events), CostReceived(Run(w, events).order.lines) - TotalDiscount(w.order.lines));
    BoughtIs(-TotalDiscount(w.order.lines));
    ReturningAllNetsExactly(w, events, account);
    ReturningAllNetsExactly(w, events, Books.InventoryAsset);
  }
}

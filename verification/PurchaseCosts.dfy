/** What receipts cost: increments of a prorated value that telescope, each receipt rounded to a cent,
    and base units each rounded to a whole. */
module PurchaseCosts {
  import opened Rounding
  import opened Sums
  import opened Purchase
  import opened PurchaseRuns
  import Books
  import Stock
  import StockInvariants
  import opened StockSteps

  /** A whole number that so many roundings have taken off an exact one, each by at most a half. */
  predicate Near(whole: int, exact: real, roundings: int)
  {
    Abs(whole as real - exact) <= roundings as real / 2.0
  }

  lemma NearAdd(a: int, x: real, m: int, b: int, y: real, n: int)
    requires Near(a, x, m) && Near(b, y, n)
    ensures Near(a + b, x + y, m + n)
  {
    assert (a + b) as real == a as real + b as real;
    assert (m + n) as real == m as real + n as real;
  }

  // ---------------------------------------------------------------- the value of what was received

  /** What one received unit of a line is worth, its share of the discount taken off. */
  function UnitValue(l: Line): (v: real)
    requires l.ordered > 0
    ensures v >= 0.0
  {
    NotNegative(l.cost as real - l.discount as real / l.ordered as real)
  }

  lemma ScaledPart(n: real, x: real)
    requires n >= 0.0
    ensures NotNegative(n * x) == n * NotNegative(x)
  {
    if x < 0.0 { assert n * x <= 0.0; } else { assert n * x >= 0.0; }
  }

  /** Proration makes the value proportional to the quantity received. */
  lemma ValueIsLinear(l: Line)
    requires l.ordered > 0
    ensures ReceivedValue(l) == l.received as real * UnitValue(l)
  {
    var n, rate := l.received as real, l.discount as real / l.ordered as real;
    assert n * l.cost as real - rate * n == n * (l.cost as real - rate);
    ScaledPart(n, l.cost as real - rate);
  }

  /** Fully received, a line is worth its ordered value. */
  lemma FullValueIsOrderedValue(l: Line)
    requires l.ordered > 0 && l.received == l.ordered
    ensures ReceivedValue(l) == OrderedValue(l)
  {
    var n := l.ordered as real;
    assert l.discount as real / n * n == l.discount as real;
    assert (l.ordered * l.cost) as real == n * l.cost as real;
  }

  /** The increment of one receipt is never negative, so cutting it off at zero changes nothing. */
  lemma IncrementsAreNotNegative(l: Line, quantity: nat)
    requires l.ordered > 0
    ensures var after := l.(received := l.received + quantity);
            NotNegative(ReceivedValue(after) - ReceivedValue(l)) == ReceivedValue(after) - ReceivedValue(l)
            == quantity as real * UnitValue(l)
  {
    var after := l.(received := l.received + quantity);
    ValueIsLinear(l);
    ValueIsLinear(after);
    var a, q, u := l.received as real, quantity as real, UnitValue(l);
    assert (l.received + quantity) as real == a + q;
    assert (a + q) * u == a * u + q * u;
    assert q * u >= 0.0;
  }

  function Value(lines: seq<Line>): real
  {
    if lines == [] then 0.0 else Value(lines[..|lines| - 1]) + ReceivedValue(lines[|lines| - 1])
  }

  function ValueOrdered(lines: seq<Line>): real
  {
    if lines == [] then 0.0 else ValueOrdered(lines[..|lines| - 1]) + OrderedValue(lines[|lines| - 1])
  }

  lemma {:induction false} ValueUpdate(lines: seq<Line>, k: nat, l: Line)
    requires k < |lines|
    ensures Value(lines[k := l]) == Value(lines) - ReceivedValue(lines[k]) + ReceivedValue(l)
  {
    var last := |lines| - 1;
    if k == last {
      assert lines[k := l][..last] == lines[..last];
    } else {
      assert lines[k := l][..last] == lines[..last][k := l];
      ValueUpdate(lines[..last], k, l);
    }
  }

  lemma {:induction false} ValueOfNothing(lines: seq<Line>)
    requires !AnyReceived(lines)
    ensures Value(lines) == 0.0
  {
    if lines != [] {
      var front, last := lines[..|lines| - 1], lines[|lines| - 1];
      forall k | 0 <= k < |front| ensures front[k].received == 0 {
        assert lines[k].received <= 0;
      }
      ValueOfNothing(front);
      assert last.received <= 0;
      assert last.received as real == 0.0;
      assert ReceivedValue(last) == 0.0;
    }
  }

  lemma {:induction false} ValueOfEverything(lines: seq<Line>)
    requires LinesOk(lines) && AllReceived(lines)
    ensures Value(lines) == ValueOrdered(lines)
  {
    if lines != [] {
      var front, last := lines[..|lines| - 1], lines[|lines| - 1];
      assert forall k :: 0 <= k < |front| ==> front[k] == lines[k];
      ValueOfEverything(front);
      FullValueIsOrderedValue(last);
    }
  }

  lemma ItemCostIsIncrease(r: Receipt, i: Item)
    requires LinesOk(r.lines) && ReceiveItem(r, i).Ok?
    ensures var after := ReceiveItem(r, i).value;
            after.cost - r.cost == Value(after.lines) - Value(r.lines) && after.cost >= r.cost
  {
    var l := r.lines[i.line];
    IncrementsAreNotNegative(l, i.quantity);
    ValueUpdate(r.lines, i.line, l.(received := l.received + i.quantity));
  }

  /** What a receipt costs, unrounded, is what it adds to the value of the lines: never negative, and
      the same whether goods arrive together or apart. */
  lemma {:induction false} ReceiptCostIsIncrease(lines: seq<Line>, items: seq<Item>)
    requires LinesOk(lines) && ReceiveItems(lines, items).Ok?
    ensures var r := ReceiveItems(lines, items).value;
            r.cost == Value(r.lines) - Value(lines) && r.cost >= 0.0
  {
    if items != [] {
      var front := items[..|items| - 1];
      ReceiptCostIsIncrease(lines, front);
      ReceiveItemsEffect(lines, front);
      ItemCostIsIncrease(ReceiveItems(lines, front).value, items[|items| - 1]);
    }
  }

  // ---------------------------------------------------------------- runs

  /** The unrounded cost of a receipt that is accepted. */
  function CostOf(w: World, e: Event): real
  {
    if e.Receive? && ResultOf(w, e).Ok? then ReceiveItems(w.order.lines, e.items).value.cost else 0.0
  }

  /** What it posts. */
  function PostedOf(w: World, e: Event): int
  {
    RoundHalfEven(CostOf(w, e))
  }

  function ReceiptsOf(w: World, e: Event): nat
  {
    if e.Receive? && ResultOf(w, e).Ok? then 1 else 0
  }

  function RefundOf(w: World, e: Event): int
  {
    if e.SendBack? && ResultOf(w, e).Ok? then Refund(w.order, e.items) else 0
  }

  function RunCost(w: World, events: seq<Event>): real
    decreases |events|
  {
    if events == [] then 0.0 else CostOf(w, events[0]) + RunCost(Step(w, events[0]), events[1..])
  }

  /** What the receipts post: each is quantized by itself. */
  function RunPosted(w: World, events: seq<Event>): int
    decreases |events|
  {
    if events == [] then 0
    else PostedOf(w, events[0]) + RunPosted(Step(w, events[0]), events[1..])
  }

  function RunReceipts(w: World, events: seq<Event>): nat
    decreases |events|
  {
    if events == [] then 0 else ReceiptsOf(w, events[0]) + RunReceipts(Step(w, events[0]), events[1..])
  }

  lemma StepKeepsLines(w: World, e: Event)
    requires LinesOk(w.order.lines)
    ensures LinesOk(Step(w, e).order.lines)
  {
    if e.Receive? && ResultOf(w, e).Ok? { ReceiveItemsEffect(w.order.lines, e.items); }
  }

  lemma StepCost(w: World, e: Event)
    requires LinesOk(w.order.lines)
    ensures CostOf(w, e) == Value(Step(w, e).order.lines) - Value(w.order.lines)
    ensures CostOf(w, e) >= 0.0
  {
    if ResultOf(w, e).Ok? {
      match e
      case Receive(_, items) => ReceiptCostIsIncrease(w.order.lines, items);
      case Update(c) =>
        if c.items.Some? {
          ValueOfNothing(w.order.lines);
          ValueOfNothing(Step(w, e).order.lines);
        }
      case _ =>
    }
  }

  lemma StepRounding(w: World, e: Event)
    ensures Near(PostedOf(w, e), CostOf(w, e), ReceiptsOf(w, e))
  {
    if ReceiptsOf(w, e) == 0 { WholeNumbersAreFixed(0); }
  }

  /** Over any run the unrounded costs of the receipts add up to what the order's lines have gained in
      value. */
  lemma {:induction false} ReceiptsTelescope(w: World, events: seq<Event>)
    requires LinesOk(w.order.lines)
    ensures RunCost(w, events) == Value(Run(w, events).order.lines) - Value(w.order.lines)
    decreases |events|
  {
    if events != [] {
      StepKeepsLines(w, events[0]);
      StepCost(w, events[0]);
      ReceiptsTelescope(Step(w, events[0]), events[1..]);
    }
  }

  /** What is posted is within half a cent of that for each receipt. */
  lemma {:induction false} PostedIsNearCost(w: World, events: seq<Event>)
    ensures Near(RunPosted(w, events), RunCost(w, events), RunReceipts(w, events))
    decreases |events|
  {
    if events != [] {
      var e, rest, next := events[0], events[1..], Step(w, events[0]);
      StepRounding(w, e);
      PostedIsNearCost(next, rest);
      NearAdd(PostedOf(w, e), CostOf(w, e), ReceiptsOf(w, e),
              RunPosted(next, rest), RunCost(next, rest), RunReceipts(next, rest));
    }
  }

  lemma {:induction false} RunKeepsLines(w: World, events: seq<Event>)
    requires LinesOk(w.order.lines)
    ensures LinesOk(Run(w, events).order.lines)
    decreases |events|
  {
    if events != [] {
      StepKeepsLines(w, events[0]);
      RunKeepsLines(Step(w, events[0]), events[1..]);
    }
  }

  /** From an order with nothing received: the costs of all receipts, however the goods are split over
      them, add up to the received value, and to the ordered value once everything has arrived. */
  lemma ReceiptsAddUpToOrder(w: World, events: seq<Event>)
    requires LinesOk(w.order.lines) && !AnyReceived(w.order.lines)
    ensures RunCost(w, events) == Value(Run(w, events).order.lines)
    ensures AllReceived(Run(w, events).order.lines) ==> RunCost(w, events) == ValueOrdered(Run(w, events).order.lines)
  {
    ReceiptsTelescope(w, events);
    ValueOfNothing(w.order.lines);
    RunKeepsLines(w, events);
    if AllReceived(Run(w, events).order.lines) { ValueOfEverything(Run(w, events).order.lines); }
  }

  // ---------------------------------------------------------------- what reaches the books

  /** Debits less credits of an account for goods worth `cents` moved from supplier to inventory. */
  function Bought(account: Books.Account, cents: int): int
  {
    if account == Books.InventoryAsset then cents
    else if account == Books.AccountsPayable then -cents
    else 0
  }

  lemma RoundedCostIsNotNegative(x: real)
    requires x >= 0.0
    ensures RoundHalfEven(x) >= 0
  {
  }

  predicate CostsNotNegative(lines: seq<Line>)
  {
    forall k :: 0 <= k < |lines| ==> lines[k].cost >= 0
  }

  lemma {:induction false} RefundIsNotNegative(o: Order, items: seq<Item>)
    requires CostsNotNegative(o.lines) && AllPositive(items)
    ensures Refund(o, items) >= 0
  {
    if items != [] {
      var i := items[|items| - 1];
      RefundIsNotNegative(o, items[..|items| - 1]);
      if i.line < |o.lines| { assert o.lines[i.line].cost * i.quantity >= 0; }
    }
  }

  lemma ReceiptPosts(w: World, uid: nat, items: seq<Item>, account: Books.Account)
    requires LinesOk(w.order.lines) && ResultOf(w, Receive(uid, items)).Ok?
    ensures var e := Receive(uid, items);
            StockInvariants.BookNet(Step(w, e).stock.books, account)
            == StockInvariants.BookNet(w.stock.books, account) + Bought(account, PostedOf(w, e))
  {
    hide LinesOk;
    var r := ReceiveItems(w.order.lines, items).value;
    ReceiptCostIsIncrease(w.order.lines, items);
    RoundedCostIsNotNegative(r.cost);
    PairTakesPlace(w.stock, Stock.ReceiptTx(uid), Stock.ReceiptMoves(w.order.warehouse, Stock.InKeyOrder(r.movements)),
                   Books.InventoryAsset, Books.AccountsPayable, RoundHalfEven(r.cost), account);
  }

  lemma ReturnPosts(w: World, uid: nat, items: seq<Item>, account: Books.Account)
    requires CostsNotNegative(w.order.lines) && ResultOf(w, SendBack(uid, items)).Ok?
    ensures var e := SendBack(uid, items);
            StockInvariants.BookNet(Step(w, e).stock.books, account)
            == StockInvariants.BookNet(w.stock.books, account) + Bought(account, -RefundOf(w, e))
  {
    hide CostsNotNegative;
    NoRefusalIsPositive(w.order, items);
    RefundIsNotNegative(w.order, items);
    var moves := Stock.PurchaseReturnMoves(w.stock.shelf, w.order.warehouse, ReturnLines(w.order, items));
    PairTakesPlace(w.stock, Stock.PurchaseReturnTx(uid), moves.value,
                   Books.AccountsPayable, Books.InventoryAsset, Refund(w.order, items), account);
  }

  /** One step of the order moves its rounded cost, less its refund, from the supplier to inventory. */
  lemma StepPosts(w: World, e: Event, account: Books.Account)
    requires LinesOk(w.order.lines) && CostsNotNegative(w.order.lines) && !e.Elsewhere?
    ensures StockInvariants.BookNet(Step(w, e).stock.books, account)
         == StockInvariants.BookNet(w.stock.books, account)
            + Bought(account, PostedOf(w, e) - RefundOf(w, e))
  {
    hide LinesOk, CostsNotNegative, StockInvariants.BookNet;
    WholeNumbersAreFixed(0);
    if ResultOf(w, e).Ok? {
      match e
      case Receive(uid, items) => ReceiptPosts(w, uid, items, account);
      case SendBack(uid, items) => ReturnPosts(w, uid, items, account);
      case _ =>
    }
  }

  // ---------------------------------------------------------------- base units

  /** The base units that the movements of a receipt bring in for one line. */
  function UnitsFor(lines: seq<Line>, items: seq<Item>, k: nat): int
    requires k < |lines|
  {
    Total(items, (i: Item) => if i.line == k then BaseUnits(lines[k], i.quantity) else 0)
  }

  function Namings(items: seq<Item>, k: nat): (n: int)
  {
    Total(items, (i: Item) => if i.line == k then 1 else 0)
  }

  predicate MovementOf(lines: seq<Line>, i: Item, m: Stock.ReceiptLine)
  {
    i.line < |lines| && Multiplier(lines[i.line]) != 0.0 && m == InBaseUnits(lines[i.line], i)
  }

  predicate MovementsOf(lines: seq<Line>, items: seq<Item>, m: seq<Stock.ReceiptLine>)
  {
    |m| == |items| && forall i :: 0 <= i < |m| ==> MovementOf(lines, items[i], m[i])
  }

  /** The lines are the same but for what was received. */
  predicate SameTerms(a: seq<Line>, b: seq<Line>)
  {
    |a| == |b| && forall k :: 0 <= k < |a| ==> a[k] == b[k].(received := a[k].received)
  }

  lemma {:induction false} ReceivingKeepsTerms(lines: seq<Line>, items: seq<Item>)
    requires ReceiveItems(lines, items).Ok?
    ensures SameTerms(lines, ReceiveItems(lines, items).value.lines)
  {
    if items != [] { ReceivingKeepsTerms(lines, items[..|items| - 1]); }
  }

  lemma SameInBaseUnits(a: Line, b: Line, i: Item)
    requires a == b.(received := a.received) && Multiplier(b) != 0.0
    ensures Multiplier(a) != 0.0 && InBaseUnits(a, i) == InBaseUnits(b, i)
  {
    assert Multiplier(a) == Multiplier(b);
  }

  /** The movement of an item is in base units of its line, at the line's cost per base unit. */
  lemma {:induction false} MovementsFollowItems(lines: seq<Line>, items: seq<Item>)
    requires ReceiveItems(lines, items).Ok?
    ensures MovementsOf(lines, items, ReceiveItems(lines, items).value.movements)
  {
    if items != [] {
      var front, i := items[..|items| - 1], items[|items| - 1];
      MovementsFollowItems(lines, front);
      ReceivingKeepsTerms(lines, front);
      var r := ReceiveItems(lines, front).value;
      SameInBaseUnits(lines[i.line], r.lines[i.line], i);
      MovementsOneMore(lines, front, r.movements, i, InBaseUnits(lines[i.line], i));
      assert front + [i] == items;
    }
  }

  lemma MovementsOneMore(lines: seq<Line>, items: seq<Item>, moves: seq<Stock.ReceiptLine>, i: Item, m: Stock.ReceiptLine)
    requires MovementsOf(lines, items, moves) && MovementOf(lines, i, m)
    ensures MovementsOf(lines, items + [i], moves + [m])
  {
    var all := moves + [m];
    forall j | 0 <= j < |all| ensures MovementOf(lines, (items + [i])[j], all[j]) {
      if j < |moves| { assert MovementOf(lines, items[j], moves[j]); }
    }
  }

  /** The exact number of base units in a quantity. */
  function ExactUnits(l: Line, quantity: int): real
  {
    quantity as real * Multiplier(l)
  }

  lemma ExactUnitsAdd(l: Line, a: int, b: int)
    ensures ExactUnits(l, a + b) == ExactUnits(l, a) + ExactUnits(l, b)
  {
    assert (a + b) as real == a as real + b as real;
  }

  /** Each naming of a line in a receipt rounds by at most half a unit. */
  lemma {:induction false} UnitsAreNearExact(lines: seq<Line>, items: seq<Item>, k: nat)
    requires k < |lines|
    ensures Near(UnitsFor(lines, items, k), ExactUnits(lines[k], QuantityOf(items, k)), Namings(items, k))
  {
    if items != [] {
      var front, i := items[..|items| - 1], items[|items| - 1];
      UnitsAreNearExact(lines, front, k);
      if i.line == k {
        ExactUnitsAdd(lines[k], QuantityOf(front, k), i.quantity);
        NearAdd(UnitsFor(lines, front, k), ExactUnits(lines[k], QuantityOf(front, k)), Namings(front, k),
                BaseUnits(lines[k], i.quantity), ExactUnits(lines[k], i.quantity), 1);
      }
    } else {
      assert ExactUnits(lines[k], 0) == 0.0;
    }
  }

  function UnitsOf(w: World, e: Event, k: nat): int
  {
    if e.Receive? && ResultOf(w, e).Ok? && k < |w.order.lines| then UnitsFor(w.order.lines, e.items, k) else 0
  }

  function NamingsOf(w: World, e: Event, k: nat): int
  {
    if e.Receive? && ResultOf(w, e).Ok? && k < |w.order.lines| then Namings(e.items, k) else 0
  }

  function RunUnits(w: World, events: seq<Event>, k: nat): int
    decreases |events|
  {
    if events == [] then 0 else UnitsOf(w, events[0], k) + RunUnits(Step(w, events[0]), events[1..], k)
  }

  function RunNamings(w: World, events: seq<Event>, k: nat): int
    decreases |events|
  {
    if events == [] then 0 else NamingsOf(w, events[0], k) + RunNamings(Step(w, events[0]), events[1..], k)
  }

  /** `units` have come in for a line in `n` receipts: within half a unit a receipt of quantity times
      multiplier. */
  predicate UnitsFollow(o: Order, k: nat, units: int, n: int)
  {
    && (!AnyReceived(o.lines) ==> units == 0 && n == 0)
    && (k < |o.lines| ==> Near(units, ExactUnits(o.lines[k], o.lines[k].received), n))
  }

  lemma ReceiptFollows(before: Line, after: Line, quantity: int, units: int, n: int, more: int, namings: int)
    requires after.received == before.received + quantity && after == before.(received := after.received)
    requires Near(units, ExactUnits(before, before.received), n) && Near(more, ExactUnits(before, quantity), namings)
    ensures Near(units + more, ExactUnits(after, after.received), n + namings)
  {
    ExactUnitsAdd(before, before.received, quantity);
    NearAdd(units, ExactUnits(before, before.received), n, more, ExactUnits(before, quantity), namings);
    assert ExactUnits(after, after.received) == ExactUnits(before, before.received + quantity);
  }

  lemma ReceivedOf(lines: seq<Line>, items: seq<Item>, k: nat)
    requires LinesOk(lines) && ReceiveItems(lines, items).Ok? && k < |lines|
    ensures var after := ReceiveItems(lines, items).value.lines;
            |after| == |lines| && lines[k].received + QuantityOf(items, k) >= 0
            && after[k] == lines[k].(received := lines[k].received + QuantityOf(items, k))
  {
    ReceiveItemsEffect(lines, items);
  }

  lemma StepFollows(w: World, e: Event, k: nat, units: int, n: int)
    requires LinesOk(w.order.lines) && UnitsFollow(w.order, k, units, n)
    ensures UnitsFollow(Step(w, e).order, k, units + UnitsOf(w, e, k), n + NamingsOf(w, e, k))
  {
    if ResultOf(w, e).Ok? {
      if e.Receive? {
        ReceivedSomething(w.order.lines, e.items);
        ReceivingKeepsTerms(w.order.lines, e.items);
        if k < |w.order.lines| {
          var l := w.order.lines[k];
          ReceivedOf(w.order.lines, e.items, k);
          UnitsAreNearExact(w.order.lines, e.items, k);
          ReceiptFollows(l, Step(w, e).order.lines[k], QuantityOf(e.items, k), units, n, UnitsOf(w, e, k), NamingsOf(w, e, k));
        }
      } else if e.Update? && e.change.items.Some? && k < |Step(w, e).order.lines| {
        assert ExactUnits(Step(w, e).order.lines[k], 0) == 0.0;
      }
    }
  }

  /** Over any run the base units that came in for a line differ from quantity times multiplier by at
      most half a unit each time a receipt named the line. */
  lemma {:induction false} UnitsFollowQuantity(w: World, events: seq<Event>, k: nat, units: int, n: int)
    requires LinesOk(w.order.lines) && UnitsFollow(w.order, k, units, n)
    ensures UnitsFollow(Run(w, events).order, k, units + RunUnits(w, events, k), n + RunNamings(w, events, k))
    decreases |events|
  {
    if events != [] {
      StepKeepsLines(w, events[0]);
      StepFollows(w, events[0], k, units, n);
      UnitsFollowQuantity(Step(w, events[0]), events[1..], k, units + UnitsOf(w, events[0], k), n + NamingsOf(w, events[0], k));
    }
  }
}

/** Unit multipliers that are not whole: each receipt and each return rounds its base units. How far the
    stock may drift from the exact quantities, and what returning everything may leave behind. */
module PurchaseDrift {
  import opened Results
  import opened Purchase
  import opened PurchaseRuns
  import opened PurchaseCosts
  import opened PurchaseLedger
  import opened PurchaseNetting
  import Fifo
  import Stock
  import opened StockInvariants

  predicate PositiveUnits(lines: seq<Line>)
  {
    forall k :: 0 <= k < |lines| ==> Multiplier(lines[k]) > 0.0
  }

  /** Quantity times multiplier of an item, if its line is of the product and variant. */
  function ExactItem(lines: seq<Line>, i: Item, product: nat, variant: Option<nat>): real
  {
    if i.line < |lines| && IsOf(lines[i.line], product, variant) then ExactUnits(lines[i.line], i.quantity) else 0.0
  }

  function ExactReturned(lines: seq<Line>, items: seq<Item>, product: nat, variant: Option<nat>): real
  {
    if items == [] then 0.0
    else ExactReturned(lines, items[..|items| - 1], product, variant) + ExactItem(lines, items[|items| - 1], product, variant)
  }

  /** The exact base units received and not returned. */
  function ExactOutstanding(o: Order, product: nat, variant: Option<nat>): real
  {
    ExactReceived(o.lines, product, variant) - ExactReturned(o.lines, o.returned, product, variant)
  }

  lemma {:induction false} ExactReturnedAppend(lines: seq<Line>, a: seq<Item>, b: seq<Item>, product: nat, variant: Option<nat>)
    ensures ExactReturned(lines, a + b, product, variant)
         == ExactReturned(lines, a, product, variant) + ExactReturned(lines, b, product, variant)
  {
    if b == [] {
      assert a + b == a;
    } else {
      assert (a + b)[..|a + b| - 1] == a + b[..|b| - 1];
      ExactReturnedAppend(lines, a, b[..|b| - 1], product, variant);
    }
  }

  lemma {:induction false} ExactReturnedKeeps(a: seq<Line>, b: seq<Line>, items: seq<Item>, product: nat, variant: Option<nat>)
    requires SameTerms(a, b)
    ensures ExactReturned(a, items, product, variant) == ExactReturned(b, items, product, variant)
  {
    if items != [] {
      var i := items[|items| - 1];
      ExactReturnedKeeps(a, b, items[..|items| - 1], product, variant);
      if i.line < |a| { SameExactUnits(a[i.line], b[i.line], i.quantity); }
    }
  }

  lemma PositiveKeeps(a: seq<Line>, b: seq<Line>)
    requires SameTerms(a, b) && PositiveUnits(b)
    ensures PositiveUnits(a)
  {
    forall k | 0 <= k < |a| ensures Multiplier(a[k]) > 0.0 {
      assert Multiplier(a[k]) == Multiplier(b[k]);
    }
  }

  // ---------------------------------------------------------------- what goes out

  lemma PositiveBase(l: Line, quantity: nat)
    requires Multiplier(l) > 0.0
    ensures BaseUnits(l, quantity) >= 0
  {
    assert quantity as real * Multiplier(l) >= 0.0;
  }

  /** What return lines ask for is what is exactly returned, within half a unit a naming. */
  lemma {:induction false} ReturnIsNear(o: Order, items: seq<Item>, product: nat, variant: Option<nat>)
    requires Convertible(o, items) && AllPositive(items) && PositiveUnits(o.lines)
    ensures Near(UnitsAsked(ReturnLines(o, items), product, variant), ExactReturned(o.lines, items, product, variant),
                 NamingsFor(o.lines, items, product, variant))
  {
    hide Near, BaseUnits, ExactUnits;
    if items == [] {
      NearZero(0.0);
    } else {
      var front, i := items[..|items| - 1], items[|items| - 1];
      var l := o.lines[i.line];
      assert ReturnLines(o, items)[..|front|] == ReturnLines(o, front);
      ReturnIsNear(o, front, product, variant);
      PositiveBase(l, i.quantity);
      BaseUnitsAreNear(l, i.quantity);
      if IsOf(l, product, variant) {
        NearAdd(UnitsAsked(ReturnLines(o, front), product, variant), ExactReturned(o.lines, front, product, variant),
                NamingsFor(o.lines, front, product, variant), BaseUnits(l, i.quantity), ExactUnits(l, i.quantity), 1);
      }
    }
  }

  function NamingsBack(w: World, e: Event, product: nat, variant: Option<nat>): int
  {
    if e.SendBack? && ResultOf(w, e).Ok? then NamingsFor(w.order.lines, e.items, product, variant) else 0
  }

  function RunNamedBack(w: World, events: seq<Event>, product: nat, variant: Option<nat>): int
    decreases |events|
  {
    if events == [] then 0
    else NamingsBack(w, events[0], product, variant) + RunNamedBack(Step(w, events[0]), events[1..], product, variant)
  }

  function ReturnedOf(o: Order, product: nat, variant: Option<nat>): real
  {
    ExactReturned(o.lines, o.returned, product, variant)
  }

  lemma StepBack(w: World, e: Event, product: nat, variant: Option<nat>)
    requires KeepsTerms(e)
    ensures if e.SendBack? && ResultOf(w, e).Ok? then
              && Convertible(w.order, e.items) && AllPositive(e.items)
              && Step(w, e).order.returned == w.order.returned + e.items
              && UnitsOut(w, e, product, variant) == UnitsAsked(ReturnLines(w.order, e.items), product, variant)
              && NamingsBack(w, e, product, variant) == NamingsFor(w.order.lines, e.items, product, variant)
            else
              && Step(w, e).order.returned == w.order.returned
              && UnitsOut(w, e, product, variant) == 0 == NamingsBack(w, e, product, variant)
  {
    if e.SendBack? && ResultOf(w, e).Ok? { NoRefusalIsPositive(w.order, e.items); }
  }

  lemma ReturnedIs(o: Order, product: nat, variant: Option<nat>)
    ensures ReturnedOf(o, product, variant) == ExactReturned(o.lines, o.returned, product, variant)
  {
  }

  lemma StepOutIsNear(w: World, e: Event, product: nat, variant: Option<nat>)
    requires KeepsTerms(e) && PositiveUnits(w.order.lines)
    ensures PositiveUnits(Step(w, e).order.lines)
    ensures Near(UnitsOut(w, e, product, variant),
                 ReturnedOf(Step(w, e).order, product, variant) - ReturnedOf(w.order, product, variant),
                 NamingsBack(w, e, product, variant))
  {
    hide *;
    var after := Step(w, e).order;
    StepBack(w, e, product, variant);
    StepKeepsTerms(w, e);
    PositiveKeeps(after.lines, w.order.lines);
    ExactReturnedKeeps(after.lines, w.order.lines, after.returned, product, variant);
    ReturnedIs(w.order, product, variant);
    ReturnedIs(after, product, variant);
    if e.SendBack? && ResultOf(w, e).Ok? {
      ReturnIsNear(w.order, e.items, product, variant);
      ExactReturnedAppend(w.order.lines, w.order.returned, e.items, product, variant);
    } else {
      NearZero(ReturnedOf(after, product, variant) - ReturnedOf(w.order, product, variant));
    }
  }

  lemma RunOutUnfolds(w: World, events: seq<Event>, product: nat, variant: Option<nat>)
    ensures if events == [] then
              Run(w, events) == w && RunOut(w, events, product, variant) == 0 == RunNamedBack(w, events, product, variant)
            else
              var e, rest, next := events[0], events[1..], Step(w, events[0]);
              && Run(w, events) == Run(next, rest)
              && RunOut(w, events, product, variant) == UnitsOut(w, e, product, variant) + RunOut(next, rest, product, variant)
              && RunNamedBack(w, events, product, variant)
                 == NamingsBack(w, e, product, variant) + RunNamedBack(next, rest, product, variant)
  {
  }

  lemma {:induction false} RunOutIsNear(w: World, events: seq<Event>, product: nat, variant: Option<nat>)
    requires TermsKept(events) && PositiveUnits(w.order.lines)
    ensures Near(RunOut(w, events, product, variant),
                 ReturnedOf(Run(w, events).order, product, variant) - ReturnedOf(w.order, product, variant),
                 RunNamedBack(w, events, product, variant))
    decreases |events|
  {
    hide *;
    RunOutUnfolds(w, events, product, variant);
    var before, after := ReturnedOf(w.order, product, variant), ReturnedOf(Run(w, events).order, product, variant);
    if events == [] {
      NearZero(after - before);
    } else {
      var e, rest, next := events[0], events[1..], Step(w, events[0]);
      var between := ReturnedOf(next.order, product, variant);
      TermsKeptRest(events);
      StepOutIsNear(w, e, product, variant);
      RunOutIsNear(next, rest, product, variant);
      NearAdd(UnitsOut(w, e, product, variant), between - before, NamingsBack(w, e, product, variant),
              RunOut(next, rest, product, variant), after - between, RunNamedBack(next, rest, product, variant));
      assert between - before + (after - between) == after - before;
    }
  }

  lemma NearSubtract(a: int, x: real, m: int, b: int, y: real, n: int)
    requires Near(a, x, m) && Near(b, y, n)
    ensures Near(a - b, x - y, m + n)
  {
    assert (a - b) as real == a as real - b as real;
    assert (m + n) as real == m as real + n as real;
  }

  /** Over any run that keeps the order's terms, with any positive multipliers and beside what others move:
      the stock of a product and variant follows the exact base units received and not returned within half
      a unit for each time a receipt or a return named one of its lines. */
  lemma StockIsNearOutstanding(w: World, events: seq<Event>, product: nat, variant: Option<nat>)
    requires WellFormed(w.stock.shelf) && TermsKept(events) && PositiveUnits(w.order.lines)
    ensures var p := Stock.OfItem(product, variant, w.order.warehouse);
            Near(Stocked(Run(w, events).stock.shelf, p) - Stocked(w.stock.shelf, p) - RunOthersMoved(w, events, p),
                 ExactOutstanding(Run(w, events).order, product, variant) - ExactOutstanding(w.order, product, variant),
                 RunNamed(w, events, product, variant) + RunNamedBack(w, events, product, variant))
  {
    hide Near, Run, RunIn, RunOut, RunNamed, RunNamedBack, Stocked, RunOthersMoved, ExactReceived, ExactReturned, WellFormed, TermsKept;
    var after := Run(w, events).order;
    StockFollowsReceipts(w, events, product, variant);
    RunInIsNear(w, events, product, variant);
    RunOutIsNear(w, events, product, variant);
    NearSubtract(RunIn(w, events, product, variant),
                 ExactReceived(after.lines, product, variant) - ExactReceived(w.order.lines, product, variant),
                 RunNamed(w, events, product, variant), RunOut(w, events, product, variant),
                 ReturnedOf(after, product, variant) - ReturnedOf(w.order, product, variant),
                 RunNamedBack(w, events, product, variant));
  }

  // ---------------------------------------------------------------- returning everything

  lemma {:induction false} ExactOfNothing(lines: seq<Line>, product: nat, variant: Option<nat>)
    requires forall k :: 0 <= k < |lines| ==> lines[k].received == 0
    ensures ExactReceived(lines, product, variant) == 0.0
  {
    if lines != [] { ExactOfNothing(lines[..|lines| - 1], product, variant); }
  }

  lemma ExactTakenOff(lines: seq<Line>, i: Item, product: nat, variant: Option<nat>)
    requires i.line < |lines| && 0 < i.quantity <= lines[i.line].received
    ensures ExactReceived(lines, product, variant)
         == ExactItem(lines, i, product, variant)
            + ExactReceived(lines[i.line := lines[i.line].(received := lines[i.line].received - i.quantity)], product, variant)
  {
    var l := lines[i.line];
    var less := lines[i.line := l.(received := l.received - i.quantity)];
    ExactReceivedUpdate(less, i.line, i.quantity, product, variant);
    assert less[i.line := l] == lines;
    SameExactUnits(less[i.line], l, i.quantity);
  }

  lemma {:induction false} ExactOfTheRest(lines: seq<Line>, items: seq<Item>, product: nat, variant: Option<nat>)
    requires AllPositive(items) && Within(items, lines)
    ensures ExactReceived(lines, product, variant)
         == ExactReturned(lines, items, product, variant) + ExactReceived(Without(lines, items), product, variant)
  {
    hide ExactReceived;
    if items == [] {
      assert Without(lines, items) == lines;
    } else {
      var front, i := items[..|items| - 1], items[|items| - 1];
      WithoutOneMore(lines, items);
      ExactOfTheRest(lines, front, product, variant);
      ExactTakenOff(Without(lines, front), i, product, variant);
      SameExactUnits(Without(lines, front)[i.line], lines[i.line], i.quantity);
    }
  }

  lemma NothingExactlyOutstanding(o: Order, product: nat, variant: Option<nat>)
    requires QuantitiesOk(o) && EverythingReturned(o)
    ensures ExactOutstanding(o, product, variant) == 0.0
  {
    QuantitiesAreWithin(o);
    ExactOfTheRest(o.lines, o.returned, product, variant);
    ExactOfNothing(Without(o.lines, o.returned), product, variant);
  }

  lemma UntouchedIsReturned(o: Order)
    requires Untouched(o)
    ensures QuantitiesOk(o) && EverythingReturned(o)
  {
    NothingReceivedNothingReturned(o);
    forall k | 0 <= k < |o.lines| ensures QuantityOf(o.returned, k) == o.lines[k].received {
      assert o.lines[k].received <= 0;
    }
  }

  /** However goods were received and returned in between, with any positive multipliers: once everything
      received has been returned, the stock of a product and variant differs from what it was, and what
      others moved, by at most half a unit for each time a receipt or a return named one of its lines. */
  lemma ReturningAllIsNear(w: World, events: seq<Event>, product: nat, variant: Option<nat>)
    requires Untouched(w.order) && PositiveUnits(w.order.lines) && WellFormed(w.stock.shelf)
    requires TermsKept(events) && DistinctRun(events) && EverythingReturned(Run(w, events).order)
    ensures var p := Stock.OfItem(product, variant, w.order.warehouse);
            Near(Stocked(Run(w, events).stock.shelf, p) - Stocked(w.stock.shelf, p) - RunOthersMoved(w, events, p), 0.0,
                 RunNamed(w, events, product, variant) + RunNamedBack(w, events, product, variant))
  {
    hide *;
    UntouchedIsReturned(w.order);
    RunKeepsQuantities(w, events);
    NothingExactlyOutstanding(w.order, product, variant);
    NothingExactlyOutstanding(Run(w, events).order, product, variant);
    StockIsNearOutstanding(w, events, product, variant);
  }
}

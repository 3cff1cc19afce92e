/** What a purchase order keeps over whole runs: quantities in bounds, a status that tells the truth,
    and cancellation being final. Where the code does not keep it, exactly when it does. */
module PurchaseRuns {
  import opened Results
  import opened Sums
  import opened Purchase

  // ---------------------------------------------------------------- quantities of items

  lemma QuantityOfAppend(a: seq<Item>, b: seq<Item>, line: nat)
    ensures QuantityOf(a + b, line) == QuantityOf(a, line) + QuantityOf(b, line)
  {
    TotalAppend(a, b, (i: Item) => if i.line == line then i.quantity else 0);
  }

  predicate AllPositive(items: seq<Item>)
  {
    forall i :: 0 <= i < |items| ==> items[i].quantity > 0
  }

  predicate NamesEachOnce(items: seq<Item>)
  {
    forall i, j :: 0 <= i < j < |items| ==> items[i].line != items[j].line
  }

  /** A line asks for as much as any one item asks of it, and for more if two items do. */
  lemma {:induction false} QuantityOfNamed(items: seq<Item>, line: nat)
    requires AllPositive(items)
    ensures QuantityOf(items, line) >= 0
    ensures forall i :: 0 <= i < |items| && items[i].line == line ==> QuantityOf(items, line) >= items[i].quantity
    ensures NamesEachOnce(items) ==>
              forall i :: 0 <= i < |items| && items[i].line == line ==> QuantityOf(items, line) == items[i].quantity
    ensures (forall i :: 0 <= i < |items| ==> items[i].line != line) ==> QuantityOf(items, line) == 0
  {
    if items != [] { QuantityOfNamed(items[..|items| - 1], line); }
  }

  // ---------------------------------------------------------------- what the loops do

  /** The state of the lines after goods of `items` arrived. */
  predicate LinesAfter(before: seq<Line>, items: seq<Item>, after: seq<Line>)
  {
    && |after| == |before|
    && forall k :: 0 <= k < |after| ==>
         && after[k].received == before[k].received + QuantityOf(items, k)
         && after[k] == before[k].(received := after[k].received)
  }

  predicate LinesOk(lines: seq<Line>)
  {
    forall k :: 0 <= k < |lines| ==> lines[k].received <= lines[k].ordered && 0 < lines[k].ordered
  }

  /** All items at once, however often a line is named: each named line exists and got what was
      received for it, within what was ordered. */
  lemma {:induction false} ReceiveItemsEffect(lines: seq<Line>, items: seq<Item>)
    requires ReceiveItems(lines, items).Ok?
    requires LinesOk(lines)
    ensures var r := ReceiveItems(lines, items).value;
            && LinesAfter(lines, items, r.lines)
            && LinesOk(r.lines)
    ensures AllPositive(items) && forall i :: 0 <= i < |items| ==> items[i].line < |lines|
  {
    if items != [] {
      var front, i := items[..|items| - 1], items[|items| - 1];
      ReceiveItemsEffect(lines, front);
      assert items == front + [i];
      ReceiveItemEffect(lines, front, i, ReceiveItems(lines, front).value);
    }
  }

  lemma ReceiveItemEffect(lines: seq<Line>, front: seq<Item>, i: Item, r: Receipt)
    requires LinesOk(r.lines) && LinesAfter(lines, front, r.lines) && ReceiveItem(r, i).Ok?
    ensures i.quantity > 0 && i.line < |lines|
    ensures LinesOk(ReceiveItem(r, i).value.lines)
    ensures LinesAfter(lines, front + [i], ReceiveItem(r, i).value.lines)
  {
    var after := ReceiveItem(r, i).value.lines;
    assert (front + [i])[..|front|] == front;
    forall k | 0 <= k < |after|
      ensures QuantityOf(front + [i], k) == QuantityOf(front, k) + if i.line == k then i.quantity else 0
    {
    }
  }

  lemma {:induction false} NoRefusalMeans(o: Order, items: seq<Item>)
    ensures ReturnsRefusal(o, items).None? <==>
              forall i :: 0 <= i < |items| ==> ReturnRefusal(o, items[i]).None?
  {
    if items != [] {
      var front := items[..|items| - 1];
      NoRefusalMeans(o, front);
      assert forall i :: 0 <= i < |front| ==> front[i] == items[i];
    }
  }

  lemma NoRefusalIsPositive(o: Order, items: seq<Item>)
    requires ReturnsRefusal(o, items).None?
    ensures AllPositive(items)
  {
    NoRefusalMeans(o, items);
    forall i | 0 <= i < |items| ensures items[i].quantity > 0 {
      assert ReturnRefusal(o, items[i]).None?;
    }
  }

  // ---------------------------------------------------------------- 0 <= returned <= received <= ordered

  predicate LineOk(o: Order, k: nat)
    requires k < |o.lines|
  {
    && 0 <= QuantityOf(o.returned, k) <= o.lines[k].received <= o.lines[k].ordered
    && 0 < o.lines[k].ordered
  }

  predicate QuantitiesOk(o: Order)
  {
    && (forall k :: 0 <= k < |o.lines| ==> LineOk(o, k))
    && AllPositive(o.returned)
    && forall i :: 0 <= i < |o.returned| ==> o.returned[i].line < |o.lines|
  }

  lemma QuantitiesBoundLines(o: Order)
    requires QuantitiesOk(o)
    ensures LinesOk(o.lines)
  {
    forall k | 0 <= k < |o.lines| ensures o.lines[k].received <= o.lines[k].ordered && 0 < o.lines[k].ordered {
      assert LineOk(o, k);
    }
  }

  lemma NothingReceivedNothingReturned(o: Order)
    requires QuantitiesOk(o) && !AnyReceived(o.lines)
    ensures o.returned == []
  {
    if o.returned != [] {
      var k := o.returned[0].line;
      assert LineOk(o, k);
      QuantityOfNamed(o.returned, k);
    }
  }

  lemma ReceivingKeepsQuantities(o: Order, items: seq<Item>, status: Status)
    requires QuantitiesOk(o) && ReceiveItems(o.lines, items).Ok?
    ensures QuantitiesOk(o.(lines := ReceiveItems(o.lines, items).value.lines, status := status))
  {
    QuantitiesBoundLines(o);
    ReceiveItemsEffect(o.lines, items);
    var after := o.(lines := ReceiveItems(o.lines, items).value.lines, status := status);
    forall k | 0 <= k < |after.lines| ensures LineOk(after, k) {
      assert LineOk(o, k);
      QuantityOfNamed(items, k);
    }
  }

  lemma ReturningKeepsQuantities(o: Order, items: seq<Item>)
    requires QuantitiesOk(o) && ReturnsRefusal(o, items).None? && NamesEachOnce(items)
    ensures QuantitiesOk(o.(returned := o.returned + items))
  {
    NoRefusalMeans(o, items);
    NoRefusalIsPositive(o, items);
    var after := o.(returned := o.returned + items);
    forall k | 0 <= k < |after.lines| ensures LineOk(after, k) {
      assert LineOk(o, k);
      QuantityOfAppend(o.returned, items, k);
      QuantityOfNamed(items, k);
      if i :| 0 <= i < |items| && items[i].line == k {
        assert ReturnRefusal(o, items[i]).None?;
      }
    }
  }

  /** An accepted update keeps the bounds; if it replaces the lines, nothing has been received or returned,
      before or after. */
  lemma UpdatingKeepsQuantities(o: Order, c: Change)
    requires QuantitiesOk(o) && UpdateOrder(o, c).Ok?
    ensures QuantitiesOk(UpdateOrder(o, c).value)
    ensures c.items.Some? ==>
              !AnyReceived(o.lines) && !AnyReceived(UpdateOrder(o, c).value.lines) && UpdateOrder(o, c).value.returned == []
  {
    var after := UpdateOrder(o, c).value;
    if c.items.Some? { NothingReceivedNothingReturned(o); }
    forall k | 0 <= k < |after.lines| ensures LineOk(after, k) {
      if c.items.None? { assert LineOk(o, k); }
    }
  }

  /** A return request that names no line twice. */
  predicate Distinct(e: Event)
  {
    e.SendBack? ==> NamesEachOnce(e.items)
  }

  lemma SameQuantities(o: Order, p: Order)
    requires QuantitiesOk(o) && p.lines == o.lines && p.returned == o.returned
    ensures QuantitiesOk(p)
  {
    forall k | 0 <= k < |p.lines| ensures LineOk(p, k) {
      assert LineOk(o, k);
    }
  }

  lemma StepKeepsQuantities(w: World, e: Event)
    requires QuantitiesOk(w.order) && Distinct(e)
    ensures QuantitiesOk(Step(w, e).order)
  {
    if ResultOf(w, e).Ok? {
      match e
      case Receive(uid, items) =>
        var lines := ReceiveItems(w.order.lines, items).value.lines;
        ReceivingKeepsQuantities(w.order, items, StatusAfter(w.order.status, lines));
      case SendBack(uid, items) => ReturningKeepsQuantities(w.order, items);
      case Update(c) => UpdatingKeepsQuantities(w.order, c);
      case _ => SameQuantities(w.order, Step(w, e).order);
    }
  }

  predicate DistinctRun(events: seq<Event>)
  {
    forall i :: 0 <= i < |events| ==> Distinct(events[i])
  }

  /** For every line, 0 <= returned <= received <= ordered in every state that is reached, also when one
      receipt names a line several times; return requests name no line twice. */
  lemma {:induction false} RunKeepsQuantities(w: World, events: seq<Event>)
    requires QuantitiesOk(w.order) && DistinctRun(events)
    ensures QuantitiesOk(Run(w, events).order)
    decreases |events|
  {
    if events != [] {
      assert Distinct(events[0]);
      assert forall i :: 0 <= i < |events[1..]| ==> events[1..][i] == events[i + 1];
      StepKeepsQuantities(w, events[0]);
      RunKeepsQuantities(Step(w, events[0]), events[1..]);
    }
  }

  // ---------------------------------------------------------------- the status

  /** RECEIVED exactly when there are lines and all are fully received, PARTIALLY_RECEIVED exactly when
      something but not all has arrived, CANCELLED only when nothing has. */
  predicate StatusAccurate(o: Order)
  {
    && (o.status.Received? <==> o.lines != [] && AllReceived(o.lines))
    && (o.status.PartiallyReceived? <==> AnyReceived(o.lines) && !AllReceived(o.lines))
    && (o.status.Cancelled? ==> !AnyReceived(o.lines))
  }

  /** An update that leaves the status alone, or sets one that claims nothing about arrived goods
      when nothing has arrived. */
  predicate Truthful(o: Order, c: Change)
  {
    c.status.Some? ==>
      if AnyReceived(o.lines) then c.status.value == o.status
      else !c.status.value.PartiallyReceived? && !c.status.value.Received?
  }

  lemma NothingOfPositiveReceived(lines: seq<Line>)
    requires LinesOk(lines)
    ensures lines != [] && AllReceived(lines) ==> AnyReceived(lines)
  {
    if lines != [] && AllReceived(lines) { assert lines[0].received > 0; }
  }

  /** An accepted update leaves the status accurate exactly if it is truthful. */
  lemma UpdateIsAccurateExactly(o: Order, c: Change)
    requires QuantitiesOk(o) && StatusAccurate(o) && UpdateOrder(o, c).Ok?
    ensures StatusAccurate(UpdateOrder(o, c).value) <==> Truthful(o, c)
  {
    QuantitiesBoundLines(o);
    NothingOfPositiveReceived(o.lines);
    var after := UpdateOrder(o, c).value;
    UpdatingKeepsQuantities(o, c);
    QuantitiesBoundLines(after);
    if c.items.Some? { NothingOfPositiveReceived(after.lines); }
  }

  /** The same for the status a client creates an order with. */
  lemma CreateIsAccurateExactly(status: Status, vendor: nat, warehouse: nat, items: seq<NewLine>)
    requires CreateOrder(status, vendor, warehouse, items).Ok?
    ensures var o := CreateOrder(status, vendor, warehouse, items).value;
            QuantitiesOk(o) && (StatusAccurate(o) <==> !status.PartiallyReceived? && !status.Received?)
  {
    var o := CreateOrder(status, vendor, warehouse, items).value;
    assert forall k :: 0 <= k < |o.lines| ==> LineOk(o, k);
    NothingOfPositiveReceived(o.lines);
  }

  lemma ReceivedSomething(lines: seq<Line>, items: seq<Item>)
    requires LinesOk(lines) && items != [] && ReceiveItems(lines, items).Ok?
    ensures LinesOk(ReceiveItems(lines, items).value.lines) && AnyReceived(ReceiveItems(lines, items).value.lines)
  {
    ReceiveItemsEffect(lines, items);
    var k := items[0].line;
    QuantityOfNamed(items, k);
    assert ReceiveItems(lines, items).value.lines[k].received > 0;
  }

  lemma ReceivingIsAccurate(o: Order, items: seq<Item>)
    requires QuantitiesOk(o) && items != [] && ReceiveItems(o.lines, items).Ok?
    ensures var lines := ReceiveItems(o.lines, items).value.lines;
            StatusAccurate(o.(lines := lines, status := StatusAfter(o.status, lines)))
  {
    QuantitiesBoundLines(o);
    ReceivedSomething(o.lines, items);
    var lines := ReceiveItems(o.lines, items).value.lines;
    NothingOfPositiveReceived(lines);
  }

  predicate Fair(w: World, e: Event)
  {
    Distinct(e) && (e.Update? ==> Truthful(w.order, e.change))
  }

  lemma StepKeepsStatus(w: World, e: Event)
    requires QuantitiesOk(w.order) && StatusAccurate(w.order) && Fair(w, e)
    ensures StatusAccurate(Step(w, e).order)
  {
    if ResultOf(w, e).Ok? {
      match e
      case Receive(uid, items) => ReceivingIsAccurate(w.order, items);
      case Update(c) => UpdateIsAccurateExactly(w.order, c);
      case _ =>
    }
  }

  predicate FairRun(w: World, events: seq<Event>)
    decreases |events|
  {
    events != [] ==> Fair(w, events[0]) && FairRun(Step(w, events[0]), events[1..])
  }

  /** In every state reached without untruthful updates the status is accurate. */
  lemma {:induction false} RunKeepsStatus(w: World, events: seq<Event>)
    requires QuantitiesOk(w.order) && StatusAccurate(w.order) && FairRun(w, events)
    ensures QuantitiesOk(Run(w, events).order) && StatusAccurate(Run(w, events).order)
    decreases |events|
  {
    if events != [] {
      StepKeepsQuantities(w, events[0]);
      StepKeepsStatus(w, events[0]);
      RunKeepsStatus(Step(w, events[0]), events[1..]);
    }
  }

  /** An update can call an order received of which nothing has arrived, and it can cancel one of which
      something has, which `cancel_purchase_order` refuses. */
  lemma UpdateCanLie(o: Order, status: Status)
    requires QuantitiesOk(o) && StatusAccurate(o) && !o.status.Cancelled?
    requires if AnyReceived(o.lines) then status.Cancelled? else status.Received? && o.lines != []
    ensures var c := Change(Some(status), None, None, None);
            UpdateOrder(o, c).Ok? && !StatusAccurate(UpdateOrder(o, c).value)
    ensures AnyReceived(o.lines) ==> CancelOrder(o).Err?
  {
    var c := Change(Some(status), None, None, None);
    assert UpdateOrder(o, c).Ok?;
    UpdateIsAccurateExactly(o, c);
  }

  /** A cancelled order admits no further receipt, return, cancellation or update. */
  lemma {:induction false} CancelledIsFinal(w: World, events: seq<Event>)
    requires w.order.status.Cancelled?
    ensures Run(w, events).order == w.order.(paid := Run(w, events).order.paid)
    decreases |events|
  {
    if events != [] { CancelledIsFinal(Step(w, events[0]), events[1..]); }
  }

  /** Where the status is accurate, cancelling is possible exactly for a draft or ordered order without
      active payments: the check for received goods never decides. */
  lemma CancellableExactly(o: Order)
    requires QuantitiesOk(o) && StatusAccurate(o)
    ensures CancelOrder(o).Ok? <==> (o.status.Draft? || o.status.Ordered?) && !o.paid
  {
    if AnyReceived(o.lines) && AllReceived(o.lines) { assert o.lines != []; }
  }

  /** So a cancelled order has received nothing and returned nothing. */
  lemma CancelledHasNothing(w: World, events: seq<Event>)
    requires QuantitiesOk(w.order) && StatusAccurate(w.order) && FairRun(w, events)
    ensures Run(w, events).order.status.Cancelled? ==>
              !AnyReceived(Run(w, events).order.lines) && Run(w, events).order.returned == []
  {
    RunKeepsStatus(w, events);
    if Run(w, events).order.status.Cancelled? { NothingReceivedNothingReturned(Run(w, events).order); }
  }
}

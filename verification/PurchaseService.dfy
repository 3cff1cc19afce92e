/** The purchase services as they run: item rows updated in a loop, then stock and books through the
    store, everything rolled back when an exception is raised. */
module PurchaseService {
  import opened Results
  import opened Rounding
  import opened Sums
  import P = Purchase
  import Stock
  import StockStore
  import opened StockInvariants

  function ErrorOf(r: Result<P.World, P.Error>): Option<P.Error>
  {
    if r.Err? then Some(r.error) else None
  }

  lemma {:induction false} FailedReceiptStays(lines: seq<P.Line>, items: seq<P.Item>, k: nat)
    requires k <= |items| && P.ReceiveItems(lines, items[..k]).Err?
    ensures P.ReceiveItems(lines, items) == P.ReceiveItems(lines, items[..k])
  {
    if k < |items| {
      assert items[..|items| - 1][..k] == items[..k];
      FailedReceiptStays(lines, items[..|items| - 1], k);
    } else {
      assert items[..k] == items;
    }
  }

  lemma {:induction false} RefusedReturnStays(o: P.Order, items: seq<P.Item>, k: nat)
    requires k <= |items| && P.ReturnsRefusal(o, items[..k]).Some?
    ensures P.ReturnsRefusal(o, items) == P.ReturnsRefusal(o, items[..k])
  {
    if k < |items| {
      assert items[..|items| - 1][..k] == items[..k];
      RefusedReturnStays(o, items[..|items| - 1], k);
    } else {
      assert items[..k] == items;
    }
  }

  class PurchaseOrder {
    var status: P.Status
    var vendor: nat
    var warehouse: nat
    var lines: seq<P.Line>
    var returned: seq<P.Item>
    var paid: bool
    const store: StockStore.Store

    function Record(): P.Order
      reads this
    {
      P.Order(status, vendor, warehouse, lines, returned, paid)
    }

    function Contents(): P.World
      reads this, store
    {
      P.World(Record(), store.Contents())
    }

    constructor (store: StockStore.Store, o: P.Order)
      ensures this.store == store && Record() == o
    {
      this.store := store;
      status, vendor, warehouse, lines, returned, paid := o.status, o.vendor, o.warehouse, o.lines, o.returned, o.paid;
    }

    /** The loop over arrived items: each line is updated at once, so that a later item sees it. */
    method ReceiveLoop(items: seq<P.Item>) returns (error: Option<P.Error>, movements: seq<Stock.ReceiptLine>, cost: real)
      modifies this`lines
      ensures match P.ReceiveItems(old(lines), items)
              case Err(e) => error == Some(e)
              case Ok(r) => error == None && r == P.Receipt(lines, movements, cost)
    {
      movements, cost := [], 0.0;
      ghost var start := lines;
      assert items[..0] == [];
      for n := 0 to |items|
        invariant P.ReceiveItems(start, items[..n]) == Ok(P.Receipt(lines, movements, cost))
      {
        var i := items[n];
        assert items[..n + 1][..n] == items[..n];
        if P.ReceiveItem(P.Receipt(lines, movements, cost), i).Err? { FailedReceiptStays(start, items, n + 1); }
        if i.line >= |lines| { return Some(P.UnknownLine), movements, cost; }
        var l := lines[i.line];
        if i.quantity <= 0 { return Some(P.NotPositive), movements, cost; }
        if l.received + i.quantity > l.ordered { return Some(P.TooMany), movements, cost; }
        var previousValue := P.ReceivedValue(l);
        if P.Multiplier(l) == 0.0 { return Some(P.ZeroMultiplier), movements, cost; }
        lines := lines[i.line := l.(received := l.received + i.quantity)];
        cost := cost + P.NotNegative(P.ReceivedValue(lines[i.line]) - previousValue);
        movements := movements + [P.InBaseUnits(l, i)];
      }
      assert items[..|items|] == items;
      error := None;
    }

    method Receive(uid: nat, items: seq<P.Item>) returns (r: Option<P.Error>)
      requires WellFormed(store.Rows())
      modifies this, store
      ensures WellFormed(store.Rows()) && (old(store.Valid()) ==> store.Valid())
      ensures Contents() == P.Step(old(Contents()), P.Receive(uid, items))
      ensures r == ErrorOf(P.ResultOf(old(Contents()), P.Receive(uid, items)))
    {
      if status.Cancelled? { return Some(P.OrderCancelled); }
      if items == [] { return Some(P.NoItems); }
      var before := lines;
      var error, movements, cost := ReceiveLoop(items);
      if error.Some? {
        lines := before;
        return error;
      }
      var failed := store.Receive(uid, warehouse, movements, RoundHalfEven(cost));
      if failed.Some? {
        lines := before;
        return Some(P.StockRefused(failed.value));
      }
      if lines != [] && P.AllReceived(lines) {
        status := P.Received;
      } else if P.AnyReceived(lines) {
        status := P.PartiallyReceived;
      }
      r := None;
    }

    /** `already_returned` of a line. */
    method AlreadyReturned(line: nat) returns (total: int)
      ensures total == P.QuantityOf(returned, line)
    {
      total := 0;
      ghost var f := (i: P.Item) => if i.line == line then i.quantity else 0;
      assert returned[..0] == [];
      for n := 0 to |returned|
        invariant total == Total(returned[..n], f)
      {
        assert returned[..n + 1][..n] == returned[..n];
        if returned[n].line == line { total := total + returned[n].quantity; }
      }
      assert returned[..|returned|] == returned;
    }

    /** The loop over items to return, which adds up the refund. */
    method ReturnLoop(items: seq<P.Item>) returns (error: Option<P.Error>, refund: int)
      ensures error == P.ReturnsRefusal(Record(), items)
      ensures error.None? ==> refund == P.Refund(Record(), items)
    {
      refund := 0;
      ghost var o := Record();
      ghost var f := (i: P.Item) => if i.line < |o.lines| then o.lines[i.line].cost * i.quantity else 0;
      assert items[..0] == [];
      for n := 0 to |items|
        invariant P.ReturnsRefusal(o, items[..n]) == None
        invariant refund == Total(items[..n], f)
      {
        var i := items[n];
        assert items[..n + 1][..n] == items[..n];
        if P.ReturnRefusal(o, i).Some? { RefusedReturnStays(o, items, n + 1); }
        if i.line >= |lines| { return Some(P.UnknownLine), refund; }
        if i.quantity <= 0 { return Some(P.NotPositive), refund; }
        var already := AlreadyReturned(i.line);
        if i.quantity > lines[i.line].received - already { return Some(P.TooMany), refund; }
        refund := refund + lines[i.line].cost * i.quantity;
      }
      assert items[..|items|] == items;
      error := None;
    }

    method SendBack(uid: nat, items: seq<P.Item>) returns (r: Option<P.Error>)
      requires WellFormed(store.Rows())
      modifies this, store
      ensures WellFormed(store.Rows()) && (old(store.Valid()) ==> store.Valid())
      ensures Contents() == P.Step(old(Contents()), P.SendBack(uid, items))
      ensures r == ErrorOf(P.ResultOf(old(Contents()), P.SendBack(uid, items)))
    {
      if status.Cancelled? { return Some(P.OrderCancelled); }
      if items == [] { return Some(P.NoItems); }
      var error, refund := ReturnLoop(items);
      if error.Some? { return error; }
      if !P.Convertible(Record(), items) { return Some(P.ZeroMultiplier); }
      var failed := store.SendBack(uid, warehouse, P.ReturnLines(Record(), items), refund);
      if failed.Some? { return Some(P.StockRefused(failed.value)); }
      returned := returned + items;
      r := None;
    }

    method Cancel() returns (r: Option<P.Error>)
      modifies this
      ensures Contents() == P.Step(old(Contents()), P.Cancel)
      ensures r == ErrorOf(P.ResultOf(old(Contents()), P.Cancel))
    {
      if status.Cancelled? { return Some(P.OrderCancelled); }
      if !status.Draft? && !status.Ordered? { return Some(P.NotCancellable); }
      if P.AnyReceived(lines) { return Some(P.GoodsReceived); }
      if paid { return Some(P.ActivePayments); }
      status := P.Cancelled;
      r := None;
    }

    method Update(c: P.Change) returns (r: Option<P.Error>)
      modifies this
      ensures Contents() == P.Step(old(Contents()), P.Update(c))
      ensures r == ErrorOf(P.ResultOf(old(Contents()), P.Update(c)))
    {
      if status.Cancelled? { return Some(P.OrderCancelled); }
      var hasReceived := P.AnyReceived(lines);
      if c.vendor.Some? && c.vendor.value != vendor {
        if hasReceived { return Some(P.GoodsReceived); }
      }
      if c.warehouse.Some? && c.warehouse.value != warehouse {
        if hasReceived { return Some(P.GoodsReceived); }
      }
      if c.items.Some? {
        if hasReceived { return Some(P.GoodsReceived); }
        if !P.QuantitiesPositive(c.items.value) { return Some(P.NotPositive); }
      }
      if c.status.Some? { status := c.status.value; }
      if c.vendor.Some? { vendor := c.vendor.value; }
      if c.warehouse.Some? { warehouse := c.warehouse.value; }
      if c.items.Some? { lines := P.NewLines(c.items.value); }
      r := None;
    }
  }
}

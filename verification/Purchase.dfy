/** A purchase order and what its services do to it and to the stock. Each service is one transaction:
    it fails and changes nothing, or it is applied as a whole. Money is in cents: an integer where the
    program has two decimals, a real where a discount is prorated. */
module Purchase {
  import opened Results
  import opened Rounding
  import opened Sums
  import Stock

  datatype Status = Draft | Ordered | PartiallyReceived | Received | Cancelled

  /** A purchase item; `unit` is the multiplier of its unit of measurement, if it has one. */
  datatype Line = Line(
    product: nat, variant: Option<nat>, unit: Option<real>, ordered: nat, received: nat, cost: int, discount: int)

  /** What a client sends in: a new line, goods that arrived, goods to send back. A line is named by its
      position in the order. `catalogueCost` is the cost of a base unit in the catalogue: the variant's
      if it has one, else the product's. */
  datatype NewLine = NewLine(
    product: nat, variant: Option<nat>, unit: Option<real>, quantity: int,
    cost: Option<int>, catalogueCost: int, discount: Option<int>)

  /** Goods of a line, of a batch if one was resolved: as they arrive, or as they go back. */
  datatype Item = Item(line: nat, quantity: int, batch: Option<nat>)

  /** `returned` are the items of all returns so far; `paid`: it has a supplier payment that is not void. */
  datatype Order = Order(
    status: Status, vendor: nat, warehouse: nat, lines: seq<Line>, returned: seq<Item>, paid: bool)

  datatype World = World(order: Order, stock: Stock.State)

  datatype Error =
    | OrderCancelled | NoItems | UnknownLine | NotPositive | TooMany | ZeroMultiplier
    | NotCancellable | GoodsReceived | ActivePayments
    | StockRefused(error: Stock.Error)

  // ---------------------------------------------------------------- lines

  function Multiplier(l: Line): real
  {
    if l.unit.Some? then l.unit.value else 1.0
  }

  /** Quantities are converted to whole base units, and costs to cents per base unit. */
  function Converted(quantity: int, multiplier: real): int
  {
    RoundHalfEven(quantity as real * multiplier)
  }

  function CostConverted(cost: int, multiplier: real): int
    requires multiplier != 0.0
  {
    RoundHalfEven(cost as real / multiplier)
  }

  function BaseUnits(l: Line, quantity: int): int
  {
    Converted(quantity, Multiplier(l))
  }

  function BaseCost(l: Line): int
    requires Multiplier(l) != 0.0
  {
    CostConverted(l.cost, Multiplier(l))
  }

  /** An item of a line in base units. */
  function InBaseUnits(l: Line, i: Item): Stock.ReceiptLine
    requires Multiplier(l) != 0.0
  {
    Stock.ReceiptLine(l.product, l.variant, i.batch, BaseUnits(l, i.quantity), BaseCost(l))
  }

  function NotNegative(x: real): real
  {
    if x < 0.0 then 0.0 else x
  }

  /** `PurchaseItem.received_value`. */
  function ReceivedValue(l: Line): real
  {
    var prorated := if l.ordered != 0 then l.discount as real / l.ordered as real * l.received as real else 0.0;
    NotNegative(l.received as real * l.cost as real - prorated)
  }

  /** `PurchaseItem.ordered_value`. */
  function OrderedValue(l: Line): real
  {
    NotNegative((l.ordered * l.cost - l.discount) as real)
  }

  predicate AllReceived(lines: seq<Line>)
  {
    forall k :: 0 <= k < |lines| ==> lines[k].received >= lines[k].ordered
  }

  predicate AnyReceived(lines: seq<Line>)
  {
    exists k :: 0 <= k < |lines| && lines[k].received > 0
  }

  function QuantityOf(items: seq<Item>, line: nat): int
  {
    Total(items, (i: Item) => if i.line == line then i.quantity else 0)
  }

  // ---------------------------------------------------------------- receive_purchase_order

  /** What the loop over the arrived items has come to. */
  datatype Receipt = Receipt(lines: seq<Line>, movements: seq<Stock.ReceiptLine>, cost: real)

  function ReceiveItem(r: Receipt, i: Item): Result<Receipt, Error>
  {
    if i.line >= |r.lines| then Err(UnknownLine)
    else
      var l := r.lines[i.line];
      if i.quantity <= 0 then Err(NotPositive)
      else if l.received + i.quantity > l.ordered then Err(TooMany)
      else if Multiplier(l) == 0.0 then Err(ZeroMultiplier)
      else
        var after := l.(received := l.received + i.quantity);
        Ok(Receipt(r.lines[i.line := after],
                   r.movements + [InBaseUnits(l, i)],
                   r.cost + NotNegative(ReceivedValue(after) - ReceivedValue(l))))
  }

  function ReceiveItems(lines: seq<Line>, items: seq<Item>): Result<Receipt, Error>
  {
    if items == [] then Ok(Receipt(lines, [], 0.0))
    else
      var front := ReceiveItems(lines, items[..|items| - 1]);
      if front.Err? then front else ReceiveItem(front.value, items[|items| - 1])
  }

  function StatusAfter(status: Status, lines: seq<Line>): Status
  {
    if lines != [] && AllReceived(lines) then Received
    else if AnyReceived(lines) then PartiallyReceived
    else status
  }

  function ReceiveGoods(w: World, uid: nat, items: seq<Item>): Result<World, Error>
  {
    if w.order.status.Cancelled? then Err(OrderCancelled)
    else if items == [] then Err(NoItems)
    else
      match ReceiveItems(w.order.lines, items)
      case Err(e) => Err(e)
      case Ok(r) =>
        var o := Stock.ReceiptOutcome(w.stock, uid, w.order.warehouse, r.movements, RoundHalfEven(r.cost));
        if o.Refused? then Err(StockRefused(o.error))
        else Ok(World(w.order.(lines := r.lines, status := StatusAfter(w.order.status, r.lines)),
                      Stock.Execute(w.stock, o)))
  }

  // ---------------------------------------------------------------- create_purchase_return

  /** The checks on one item. What the return under way takes of the line elsewhere is not counted. */
  function ReturnRefusal(o: Order, i: Item): Option<Error>
  {
    if i.line >= |o.lines| then Some(UnknownLine)
    else if i.quantity <= 0 then Some(NotPositive)
    else if i.quantity > o.lines[i.line].received - QuantityOf(o.returned, i.line) then Some(TooMany)
    else None
  }

  /** The first refusal, in the order of the items. */
  function ReturnsRefusal(o: Order, items: seq<Item>): Option<Error>
  {
    if items == [] then None
    else
      var front := ReturnsRefusal(o, items[..|items| - 1]);
      if front.Some? then front else ReturnRefusal(o, items[|items| - 1])
  }

  function Refund(o: Order, items: seq<Item>): int
  {
    Total(items, (i: Item) => if i.line < |o.lines| then o.lines[i.line].cost * i.quantity else 0)
  }

  predicate Convertible(o: Order, items: seq<Item>)
  {
    forall i :: 0 <= i < |items| ==> items[i].line < |o.lines| && Multiplier(o.lines[items[i].line]) != 0.0
  }

  function ReturnLines(o: Order, items: seq<Item>): (r: seq<Stock.ReceiptLine>)
    requires Convertible(o, items)
    ensures |r| == |items|
    ensures forall i :: 0 <= i < |r| ==> r[i] == InBaseUnits(o.lines[items[i].line], items[i])
  {
    seq(|items|, i requires 0 <= i < |items| => InBaseUnits(o.lines[items[i].line], items[i]))
  }

  function SendGoodsBack(w: World, uid: nat, items: seq<Item>): Result<World, Error>
  {
    if w.order.status.Cancelled? then Err(OrderCancelled)
    else if items == [] then Err(NoItems)
    else
      var refusal := ReturnsRefusal(w.order, items);
      if refusal.Some? then Err(refusal.value)
      else if !Convertible(w.order, items) then Err(ZeroMultiplier)
      else
        var o := Stock.PurchaseReturnOutcome(w.stock, uid, w.order.warehouse, ReturnLines(w.order, items),
                                             Refund(w.order, items));
        if o.Refused? then Err(StockRefused(o.error))
        else Ok(World(w.order.(returned := w.order.returned + items), Stock.Execute(w.stock, o)))
  }

  // ---------------------------------------------------------------- create, update, cancel

  predicate QuantitiesPositive(items: seq<NewLine>)
  {
    forall i :: 0 <= i < |items| ==> items[i].quantity > 0
  }

  /** A cost that is not given is the catalogue's, for the multiplier's number of base units. */
  function NewLineOf(i: NewLine): Line
    requires i.quantity > 0
  {
    var multiplier := if i.unit.Some? then i.unit.value else 1.0;
    Line(i.product, i.variant, i.unit, i.quantity, 0,
         if i.cost.Some? then i.cost.value else RoundHalfEven(i.catalogueCost as real * multiplier),
         OrElse(i.discount, 0))
  }

  function NewLines(items: seq<NewLine>): (lines: seq<Line>)
    requires QuantitiesPositive(items)
    ensures |lines| == |items|
    ensures forall i :: 0 <= i < |lines| ==> lines[i] == NewLineOf(items[i])
  {
    seq(|items|, i requires 0 <= i < |items| => NewLineOf(items[i]))
  }

  /** `create_purchase_order`: the status is whatever the client sets. */
  function CreateOrder(status: Status, vendor: nat, warehouse: nat, items: seq<NewLine>): Result<Order, Error>
  {
    if !QuantitiesPositive(items) then Err(NotPositive)
    else Ok(Order(status, vendor, warehouse, NewLines(items), [], false))
  }

  /** The fields an update may set, each only if it is given. */
  datatype Change = Change(
    status: Option<Status>, vendor: Option<nat>, warehouse: Option<nat>, items: Option<seq<NewLine>>)

  function OrElse<T>(given: Option<T>, present: T): T
  {
    if given.Some? then given.value else present
  }

  /** Vendor, warehouse and lines are fixed once goods have been received. The status is not. */
  function UpdateOrder(o: Order, c: Change): Result<Order, Error>
  {
    if o.status.Cancelled? then Err(OrderCancelled)
    else if AnyReceived(o.lines)
            && (OrElse(c.vendor, o.vendor) != o.vendor || OrElse(c.warehouse, o.warehouse) != o.warehouse || c.items.Some?)
    then Err(GoodsReceived)
    else if c.items.Some? && !QuantitiesPositive(c.items.value) then Err(NotPositive)
    else Ok(o.(status := OrElse(c.status, o.status),
               vendor := OrElse(c.vendor, o.vendor),
               warehouse := OrElse(c.warehouse, o.warehouse),
               lines := if c.items.Some? then NewLines(c.items.value) else o.lines))
  }

  function CancelOrder(o: Order): Result<Order, Error>
  {
    if o.status.Cancelled? then Err(OrderCancelled)
    else if !o.status.Draft? && !o.status.Ordered? then Err(NotCancellable)
    else if AnyReceived(o.lines) then Err(GoodsReceived)
    else if o.paid then Err(ActivePayments)
    else Ok(o.(status := Cancelled))
  }

  // ---------------------------------------------------------------- runs

  datatype Event =
    | Receive(uid: nat, items: seq<Item>)
    | SendBack(uid: nat, items: seq<Item>)
    | Cancel
    | Update(change: Change)
    | SetPaid(paid: bool)
    | Elsewhere(event: Stock.Event)

  function ResultOf(w: World, e: Event): Result<World, Error>
  {
    match e
    case Receive(uid, items) => ReceiveGoods(w, uid, items)
    case SendBack(uid, items) => SendGoodsBack(w, uid, items)
    case Cancel =>
      (match CancelOrder(w.order)
       case Ok(o) => Ok(w.(order := o))
       case Err(e) => Err(e))
    case Update(c) =>
      (match UpdateOrder(w.order, c)
       case Ok(o) => Ok(w.(order := o))
       case Err(e) => Err(e))
    case SetPaid(paid) => Ok(w.(order := w.order.(paid := paid)))
    case Elsewhere(event) => Ok(w.(stock := Stock.Step(w.stock, event)))
  }

  function Step(w: World, e: Event): World
  {
    var r := ResultOf(w, e);
    if r.Ok? then r.value else w
  }

  function Run(w: World, events: seq<Event>): World
    decreases |events|
  {
    if events == [] then w else Run(Step(w, events[0]), events[1..])
  }
}

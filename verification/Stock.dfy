/** The stock engine: inventory rows, the append-only ledger they are a cache of, the books, and what
    each operation does to them. An operation is one atomic transaction: it is refused and changes
    nothing, or it is applied as a whole. Quantities are base units, money is in cents. */
module Stock {
  import opened Results
  import opened Sums
  import opened Fifo
  import Books
  import Rounding

  // ---------------------------------------------------------------- data

  /** A product as the operations see it; `cost` is its present purchase cost. */
  datatype Product = Product(id: nat, tracked: bool, cost: int)

  /** What an inventory row is for. */
  datatype Cell = Cell(product: nat, variant: Option<nat>, batch: Option<nat>, warehouse: nat)

  /** The unique transaction identifier: a document number or a fresh random one. */
  datatype TxId =
    | SaleTx(id: nat) | ReturnTx(id: nat) | CancelTx(id: nat)
    | OpeningTx(uid: nat) | AdjustmentTx(id: nat) | CountTx(id: nat)
    | TransferTx(uid: nat) | BulkTransferTx(uid: nat)
    | InvoiceTx(number: nat) | VoidTx(number: nat)
    | ReceiptTx(uid: nat) | PurchaseReturnTx(uid: nat)
    | PaymentTx(uid: nat) | SupplierPaymentTx(uid: nat)

  /** One stock movement, and its row in the ledger. */
  datatype Move = Move(cell: Cell, quantity: int, unitCost: int)
  datatype Record = Record(tx: TxId, move: Move)
  datatype BookLine = BookLine(tx: TxId, line: Books.Line)

  /** The inventory table: a quantity per row, and the rows in order of creation. */
  datatype Shelf = Shelf(quantity: map<Cell, int>, created: seq<Cell>)

  /** `expiry` gives the expiry date of the batches that have one. */
  datatype State = State(
    shelf: Shelf, ledger: seq<Record>, books: seq<BookLine>, transactions: set<TxId>, expiry: map<nat, int>)

  datatype Error =
    | DuplicateTransaction | OutOfStock | NoWarehouse | NoLocation | NoSourceRow
    | BooksRefused(reason: Books.Error)

  // ---------------------------------------------------------------- rows

  function Get(shelf: Shelf, cell: Cell): int
  {
    if cell in shelf.quantity then shelf.quantity[cell] else 0
  }

  /** `get_or_create` of a row, then `quantity += delta`. */
  function Add(shelf: Shelf, cell: Cell, delta: int): Shelf
  {
    Shelf(shelf.quantity[cell := Get(shelf, cell) + delta],
          if cell in shelf.quantity then shelf.created else shelf.created + [cell])
  }

  function AddAll(shelf: Shelf, moves: seq<Move>): Shelf
  {
    if moves == [] then shelf
    else
      var last := moves[|moves| - 1];
      Add(AddAll(shelf, moves[..|moves| - 1]), last.cell, last.quantity)
  }

  function Records(tx: TxId, moves: seq<Move>): (r: seq<Record>)
    ensures |r| == |moves| && forall i :: 0 <= i < |r| ==> r[i] == Record(tx, moves[i])
  {
    seq(|moves|, i requires 0 <= i < |moves| => Record(tx, moves[i]))
  }

  function BookLines(tx: TxId, lines: seq<Books.Line>): (r: seq<BookLine>)
    ensures |r| == |lines| && forall i :: 0 <= i < |r| ==> r[i] == BookLine(tx, lines[i])
  {
    seq(|lines|, i requires 0 <= i < |lines| => BookLine(tx, lines[i]))
  }

  // ---------------------------------------------------------------- the order in which rows are used up

  function ExpiryOf(expiry: map<nat, int>, cell: Cell): Option<int>
  {
    if cell.batch.Some? && cell.batch.value in expiry then Some(expiry[cell.batch.value]) else None
  }

  /** Ascending, rows without an expiry date last. */
  predicate ExpiresBefore(a: Option<int>, b: Option<int>)
  {
    a.Some? && (b.Some? ==> a.value < b.value)
  }

  function Filter(cells: seq<Cell>, p: Cell -> bool): (r: seq<Cell>)
    ensures forall c :: c in r <==> c in cells && p(c)
  {
    if cells == [] then []
    else
      var front, last := Filter(cells[..|cells| - 1], p), cells[|cells| - 1];
      if p(last) then front + [last] else front
  }

  function InsertByExpiry(expiry: map<nat, int>, sorted: seq<Cell>, cell: Cell): seq<Cell>
  {
    if sorted == [] then [cell]
    else
      var last := sorted[|sorted| - 1];
      if ExpiresBefore(ExpiryOf(expiry, cell), ExpiryOf(expiry, last)) then
        InsertByExpiry(expiry, sorted[..|sorted| - 1], cell) + [last]
      else
        sorted + [cell]
  }

  /** `order_by(F("batch__expiry_date").asc(nulls_last=True), "created_at")` of rows in creation order. */
  function ByExpiry(expiry: map<nat, int>, cells: seq<Cell>): seq<Cell>
  {
    if cells == [] then []
    else InsertByExpiry(expiry, ByExpiry(expiry, cells[..|cells| - 1]), cells[|cells| - 1])
  }

  /** All rows of a product (and variant) in a warehouse, whatever the batch. */
  function OfItem(product: nat, variant: Option<nat>, warehouse: nat): Cell -> bool
  {
    (c: Cell) => c.product == product && c.variant == variant && c.warehouse == warehouse
  }

  /** The same, of one batch if one is named. */
  function OfReturn(product: nat, variant: Option<nat>, warehouse: nat, batch: Option<nat>): Cell -> bool
  {
    (c: Cell) => c.product == product && c.variant == variant && c.warehouse == warehouse
                 && (batch.Some? ==> c.batch == batch)
  }

  function FifoOrder(expiry: map<nat, int>, shelf: Shelf, product: nat, variant: Option<nat>, warehouse: nat): seq<Cell>
  {
    ByExpiry(expiry, Filter(shelf.created, OfItem(product, variant, warehouse)))
  }

  function Quantities(shelf: Shelf, cells: seq<Cell>): (q: seq<int>)
    ensures |q| == |cells| && forall i :: 0 <= i < |q| ==> q[i] == Get(shelf, cells[i])
  {
    seq(|cells|, i requires 0 <= i < |cells| => Get(shelf, cells[i]))
  }

  function Available(shelf: Shelf, cells: seq<Cell>): int
  {
    Sum(Quantities(shelf, cells))
  }

  /** The ledger entries of a deduction: one for each row that gives something. */
  function TakeMoves(cells: seq<Cell>, takes: seq<int>, cost: int): seq<Move>
    requires |cells| == |takes|
  {
    if cells == [] then []
    else
      var n := |cells| - 1;
      TakeMoves(cells[..n], takes[..n], cost) + if takes[n] > 0 then [Move(cells[n], -takes[n], cost)] else []
  }

  function DeductMoves(shelf: Shelf, cells: seq<Cell>, requested: int, cost: int): seq<Move>
  {
    TakeMoves(cells, Takes(Quantities(shelf, cells), requested), cost)
  }

  // ---------------------------------------------------------------- outcomes

  /** What an operation comes to. */
  datatype Outcome =
    | Refused(error: Error)
    | Nothing
    | Apply(tx: TxId, moves: seq<Move>, lines: seq<Books.Line>)

  function Execute(s: State, o: Outcome): State
  {
    if o.Apply? then
      s.(shelf := AddAll(s.shelf, o.moves),
         ledger := s.ledger + Records(o.tx, o.moves),
         books := s.books + BookLines(o.tx, o.lines),
         transactions := s.transactions + {o.tx})
    else s
  }

  /** The stock part is done, now the financial entries are posted. */
  function Post(tx: TxId, moves: seq<Move>, entries: seq<Books.Line>): Outcome
  {
    match Books.Posting(entries)
    case Err(e) => Refused(BooksRefused(e))
    case Ok(lines) => Apply(tx, moves, lines)
  }

  function CostOut(moves: seq<Move>): int
  {
    Total(moves, (m: Move) => if m.quantity < 0 then -m.quantity * m.unitCost else 0)
  }

  function CostIn(moves: seq<Move>): int
  {
    Total(moves, (m: Move) => if m.quantity > 0 then m.quantity * m.unitCost else 0)
  }

  // ---------------------------------------------------------------- sales

  /** `units` is quantity times unit multiplier, a whole number of base units. */
  datatype SaleItem = SaleItem(product: Product, variant: Option<nat>, units: nat)

  /** `warehouse` is the sale's own, or else that of its location. */
  datatype Sale = Sale(id: nat, warehouse: Option<nat>, items: seq<SaleItem>, amounts: Books.SaleAmounts)

  function ItemsCost(items: seq<SaleItem>): int
  {
    Total(items, (i: SaleItem) => i.units * i.product.cost)
  }

  function DefaultCell(item: SaleItem, warehouse: nat): Cell
  {
    Cell(item.product.id, item.variant, None, warehouse)
  }

  function SaleItemMoves(expiry: map<nat, int>, shelf: Shelf, warehouse: nat, item: SaleItem): Option<seq<Move>>
  {
    var order := FifoOrder(expiry, shelf, item.product.id, item.variant, warehouse);
    if !item.product.tracked then Some([Move(DefaultCell(item, warehouse), 0 - item.units, item.product.cost)])
    else if Available(shelf, order) < item.units then None
    else Some(DeductMoves(shelf, order, item.units, item.product.cost))
  }

  /** All items one after the other, each on the rows that the ones before have left. */
  function SaleMoves(s: State, warehouse: nat, items: seq<SaleItem>): Option<seq<Move>>
  {
    if items == [] then Some([])
    else
      var front := SaleMoves(s, warehouse, items[..|items| - 1]);
      if front.None? then None
      else
        var more := SaleItemMoves(s.expiry, AddAll(s.shelf, front.value), warehouse, items[|items| - 1]);
        if more.None? then None else Some(front.value + more.value)
  }

  function SaleCogs(moves: seq<Move>, items: seq<SaleItem>): int
  {
    if moves == [] then ItemsCost(items) else CostOut(moves)
  }

  /** `process_sale_inventory_and_ledger`. */
  function SellOutcome(s: State, sale: Sale): Outcome
  {
    var tx := SaleTx(sale.id);
    if tx in s.transactions then Refused(DuplicateTransaction)
    else if sale.warehouse.None? then
      if exists i :: 0 <= i < |sale.items| && sale.items[i].product.tracked then Refused(NoWarehouse)
      else Post(tx, [], Books.SaleEntries(Books.Quantize(sale.amounts), SaleCogs([], sale.items)))
    else
      match SaleMoves(s, sale.warehouse.value, sale.items)
      case None => Refused(OutOfStock)
      case Some(moves) =>
        Post(tx, moves, Books.SaleEntries(Books.Quantize(sale.amounts), SaleCogs(moves, sale.items)))
  }

  function RestoreMoves(warehouse: nat, items: seq<SaleItem>): (r: seq<Move>)
    ensures |r| == |items|
    ensures forall i :: 0 <= i < |r| ==> r[i] == Move(DefaultCell(items[i], warehouse), items[i].units, items[i].product.cost)
  {
    seq(|items|, i requires 0 <= i < |items| =>
      Move(DefaultCell(items[i], warehouse), items[i].units, items[i].product.cost))
  }

  function RestockCost(moves: seq<Move>, items: seq<SaleItem>): int
  {
    if moves == [] then ItemsCost(items) else CostIn(moves)
  }

  /** `reverse_sale_inventory_and_ledger`: everything goes back to the row without a batch. */
  function CancelOutcome(s: State, sale: Sale): Outcome
  {
    var tx := CancelTx(sale.id);
    if tx in s.transactions then Refused(DuplicateTransaction)
    else
      var moves := if sale.warehouse.None? then [] else RestoreMoves(sale.warehouse.value, sale.items);
      Post(tx, moves, Books.CancellationEntries(Books.Quantize(sale.amounts), RestockCost(moves, sale.items)))
  }

  /** A returned item; only some go back to stock. */
  datatype ReturnItem = ReturnItem(item: SaleItem, restock: bool)

  datatype SaleReturn = SaleReturn(id: nat, warehouse: Option<nat>, items: seq<ReturnItem>, refund: real)

  function Restocked(items: seq<ReturnItem>): seq<SaleItem>
  {
    if items == [] then []
    else
      var last := items[|items| - 1];
      Restocked(items[..|items| - 1]) + if last.restock then [last.item] else []
  }

  function ReturnedItems(items: seq<ReturnItem>): seq<SaleItem>
  {
    seq(|items|, i requires 0 <= i < |items| => items[i].item)
  }

  /** `process_return_inventory_and_ledger`. When nothing is restocked, the cost of all items is used. */
  function ReturnOutcome(s: State, r: SaleReturn): Outcome
  {
    var tx := ReturnTx(r.id);
    if tx in s.transactions then Refused(DuplicateTransaction)
    else if Restocked(r.items) != [] && r.warehouse.None? then Refused(NoLocation)
    else
      var moves := if r.warehouse.None? then [] else RestoreMoves(r.warehouse.value, Restocked(r.items));
      Post(tx, moves,
           Books.SaleReturnEntries(Rounding.RoundHalfUp(r.refund), RestockCost(moves, ReturnedItems(r.items))))
  }

  // ---------------------------------------------------------------- adjustments, counts, transfers

  /** `approve_stock_adjustment`. Its transaction exists exactly when the request is no longer pending. */
  function AdjustOutcome(s: State, request: nat, move: Move): Outcome
  {
    if AdjustmentTx(request) in s.transactions then Refused(DuplicateTransaction)
    else Apply(AdjustmentTx(request), [move], [])
  }

  datatype CountItem = CountItem(product: Product, variant: Option<nat>, expected: int, counted: int)

  function CountMoves(warehouse: nat, items: seq<CountItem>): seq<Move>
  {
    if items == [] then []
    else
      var i := items[|items| - 1];
      CountMoves(warehouse, items[..|items| - 1])
        + if i.counted == i.expected then []
          else [Move(Cell(i.product.id, i.variant, None, warehouse), i.counted - i.expected, i.product.cost)]
  }

  /** `finalize_physical_stock_count`. Its transaction exists exactly when the count is no longer a draft. */
  function CountOutcome(s: State, count: nat, warehouse: nat, items: seq<CountItem>): Outcome
  {
    if CountTx(count) in s.transactions then Refused(DuplicateTransaction)
    else Apply(CountTx(count), CountMoves(warehouse, items), [])
  }

  datatype TransferItem = TransferItem(product: Product, variant: Option<nat>, batch: Option<nat>, quantity: int)

  function TransferPair(source: nat, destination: nat, i: TransferItem): seq<Move>
  {
    [Move(Cell(i.product.id, i.variant, i.batch, source), -i.quantity, i.product.cost),
     Move(Cell(i.product.id, i.variant, i.batch, destination), i.quantity, i.product.cost)]
  }

  /** The source row must exist; the destination row is created if need be. */
  function TransferMoves(shelf: Shelf, source: nat, destination: nat, items: seq<TransferItem>): Option<seq<Move>>
  {
    if items == [] then Some([])
    else
      var front := TransferMoves(shelf, source, destination, items[..|items| - 1]);
      var pair := TransferPair(source, destination, items[|items| - 1]);
      if front.None? || pair[0].cell !in AddAll(shelf, front.value).quantity then None
      else Some(front.value + pair)
  }

  function TransferOutcome(s: State, tx: TxId, source: nat, destination: nat, items: seq<TransferItem>): Outcome
  {
    if tx in s.transactions then Refused(DuplicateTransaction)
    else
      match TransferMoves(s.shelf, source, destination, items)
      case None => Refused(NoSourceRow)
      case Some(moves) => Apply(tx, moves, [])
  }

  /** `bulk_transfer_stock`. */
  function BulkTransferOutcome(s: State, uid: nat, source: nat, destination: nat, items: seq<TransferItem>): Outcome
  {
    if items == [] then Nothing else TransferOutcome(s, BulkTransferTx(uid), source, destination, items)
  }

  // ---------------------------------------------------------------- invoices

  datatype InvoiceLine = InvoiceLine(product: Product, variant: Option<nat>, quantity: int)

  function TrackedLines(lines: seq<InvoiceLine>): seq<InvoiceLine>
  {
    if lines == [] then []
    else
      var last := lines[|lines| - 1];
      TrackedLines(lines[..|lines| - 1]) + if last.product.tracked then [last] else []
  }

  function InvoiceLineMoves(expiry: map<nat, int>, shelf: Shelf, warehouse: nat, l: InvoiceLine): Option<seq<Move>>
  {
    var order := FifoOrder(expiry, shelf, l.product.id, l.variant, warehouse);
    if Available(shelf, order) < l.quantity then None
    else Some(DeductMoves(shelf, order, l.quantity, l.product.cost))
  }

  function InvoiceMoves(s: State, warehouse: nat, lines: seq<InvoiceLine>): Option<seq<Move>>
  {
    if lines == [] then Some([])
    else
      var front := InvoiceMoves(s, warehouse, lines[..|lines| - 1]);
      if front.None? then None
      else
        var more := InvoiceLineMoves(s.expiry, AddAll(s.shelf, front.value), warehouse, lines[|lines| - 1]);
        if more.None? then None else Some(front.value + more.value)
  }

  /** `process_invoice_stock_deduction`. */
  function InvoiceOutcome(s: State, number: nat, warehouse: nat, lines: seq<InvoiceLine>): Outcome
  {
    var tracked := TrackedLines(lines);
    if tracked == [] then Nothing
    else if InvoiceTx(number) in s.transactions then Refused(DuplicateTransaction)
    else
      match InvoiceMoves(s, warehouse, tracked)
      case None => Refused(OutOfStock)
      case Some(moves) => Apply(InvoiceTx(number), moves, [])
  }

  /** The deductions of an invoice read back from the ledger, reversed. */
  function ReversalMoves(ledger: seq<Record>, number: nat): seq<Move>
  {
    if ledger == [] then []
    else
      var last := ledger[|ledger| - 1];
      ReversalMoves(ledger[..|ledger| - 1], number)
        + if last.tx == InvoiceTx(number) && last.move.quantity < 0
          then [last.move.(quantity := -last.move.quantity)] else []
  }

  /** `reverse_invoice_stock_deduction`. */
  function VoidOutcome(s: State, number: nat): Outcome
  {
    var moves := ReversalMoves(s.ledger, number);
    if moves == [] then Nothing
    else if VoidTx(number) in s.transactions then Refused(DuplicateTransaction)
    else Apply(VoidTx(number), moves, [])
  }

  // ---------------------------------------------------------------- purchases

  datatype ReceiptLine = ReceiptLine(product: nat, variant: Option<nat>, batch: Option<nat>, quantity: int, unitCost: int)

  function ReceiptMoves(warehouse: nat, lines: seq<ReceiptLine>): (r: seq<Move>)
    ensures |r| == |lines|
    ensures forall i :: 0 <= i < |r| ==>
              r[i] == Move(Cell(lines[i].product, lines[i].variant, lines[i].batch, warehouse), lines[i].quantity, lines[i].unitCost)
  {
    seq(|lines|, i requires 0 <= i < |lines| =>
      Move(Cell(lines[i].product, lines[i].variant, lines[i].batch, warehouse), lines[i].quantity, lines[i].unitCost))
  }

  /** A missing variant or batch comes before all others. */
  function Rank(key: Option<nat>): nat
  {
    if key.None? then 0 else key.value + 1
  }

  /** By product, then variant, then batch. */
  predicate KeyBefore(a: ReceiptLine, b: ReceiptLine)
  {
    || a.product < b.product
    || (a.product == b.product && Rank(a.variant) < Rank(b.variant))
    || (a.product == b.product && a.variant == b.variant && Rank(a.batch) < Rank(b.batch))
  }

  function InsertByKey(sorted: seq<ReceiptLine>, line: ReceiptLine): seq<ReceiptLine>
  {
    if sorted == [] then [line]
    else
      var front, last := sorted[..|sorted| - 1], sorted[|sorted| - 1];
      if KeyBefore(line, last) then InsertByKey(front, line) + [last] else sorted + [line]
  }

  /** `sorted(movement_lines, key=...)`. */
  function InKeyOrder(lines: seq<ReceiptLine>): seq<ReceiptLine>
  {
    if lines == [] then [] else InsertByKey(InKeyOrder(lines[..|lines| - 1]), lines[|lines| - 1])
  }

  /** `record_purchase_receipt_inventory_and_ledger`. */
  function ReceiptOutcome(s: State, uid: nat, warehouse: nat, lines: seq<ReceiptLine>, cost: int): Outcome
  {
    if ReceiptTx(uid) in s.transactions then Refused(DuplicateTransaction)
    else Post(ReceiptTx(uid), ReceiptMoves(warehouse, InKeyOrder(lines)), Books.PurchaseEntries(cost))
  }

  /** One returned line: rows of the product in order of creation, of the named batch only if one is named. */
  function PurchaseReturnLineMoves(shelf: Shelf, warehouse: nat, l: ReceiptLine): Option<seq<Move>>
  {
    var rows := Filter(shelf.created, OfReturn(l.product, l.variant, warehouse, l.batch));
    if Available(shelf, rows) < l.quantity then None
    else Some(DeductMoves(shelf, rows, l.quantity, l.unitCost))
  }

  function PurchaseReturnMoves(shelf: Shelf, warehouse: nat, lines: seq<ReceiptLine>): Option<seq<Move>>
  {
    if lines == [] then Some([])
    else
      var front := PurchaseReturnMoves(shelf, warehouse, lines[..|lines| - 1]);
      if front.None? then None
      else
        var more := PurchaseReturnLineMoves(AddAll(shelf, front.value), warehouse, lines[|lines| - 1]);
        if more.None? then None else Some(front.value + more.value)
  }

  /** `process_purchase_return_inventory_and_ledger`. */
  function PurchaseReturnOutcome(s: State, uid: nat, warehouse: nat, lines: seq<ReceiptLine>, refund: int): Outcome
  {
    if PurchaseReturnTx(uid) in s.transactions then Refused(DuplicateTransaction)
    else
      match PurchaseReturnMoves(s.shelf, warehouse, lines)
      case None => Refused(OutOfStock)
      case Some(moves) => Post(PurchaseReturnTx(uid), moves, Books.PurchaseReturnEntries(refund))
  }

  // ---------------------------------------------------------------- payments

  /** What `record_invoice_payment` posts for a customer's payment. */
  function CollectOutcome(s: State, uid: nat, amount: real): Outcome
  {
    if PaymentTx(uid) in s.transactions then Refused(DuplicateTransaction)
    else Post(PaymentTx(uid), [], Books.PaymentEntries(Rounding.RoundHalfUp(amount)))
  }

  /** What `record_purchase_payment` posts for a payment to a supplier. */
  function PayOutcome(s: State, uid: nat, amount: real): Outcome
  {
    if SupplierPaymentTx(uid) in s.transactions then Refused(DuplicateTransaction)
    else Post(SupplierPaymentTx(uid), [], Books.PurchasePaymentEntries(Rounding.RoundHalfUp(amount)))
  }

  // ---------------------------------------------------------------- opening stock

  /** `create_opening_stock`: the ledger gets a movement, but the row is set, not added to. */
  function OpenStock(s: State, uid: nat, cell: Cell, quantity: int, cost: int): State
  {
    if OpeningTx(uid) in s.transactions then s
    else
      var row := Add(s.shelf, cell, 0);
      s.(shelf := row.(quantity := row.quantity[cell := quantity]),
         ledger := s.ledger + Records(OpeningTx(uid), [Move(cell, quantity, cost)]),
         transactions := s.transactions + {OpeningTx(uid)})
  }

  // ---------------------------------------------------------------- runs

  datatype Event =
    | Sell(sale: Sale)
    | Cancel(sale: Sale)
    | Return(saleReturn: SaleReturn)
    | Open(uid: nat, cell: Cell, quantity: int, cost: int)
    | Adjust(request: nat, move: Move)
    | Count(count: nat, warehouse: nat, counted: seq<CountItem>)
    | Transfer(uid: nat, source: nat, destination: nat, item: TransferItem)
    | BulkTransfer(uid: nat, source: nat, destination: nat, items: seq<TransferItem>)
    | Invoice(number: nat, warehouse: nat, invoiceLines: seq<InvoiceLine>)
    | Void(number: nat)
    | Receive(uid: nat, warehouse: nat, receiptLines: seq<ReceiptLine>, received: int)
    | SendBack(uid: nat, warehouse: nat, receiptLines: seq<ReceiptLine>, refund: int)
    | Collect(uid: nat, amount: real)
    | Pay(uid: nat, amount: real)
    | DateBatch(batch: nat, date: int)

  function OutcomeOf(s: State, e: Event): Outcome
  {
    match e
    case Sell(sale) => SellOutcome(s, sale)
    case Cancel(sale) => CancelOutcome(s, sale)
    case Return(r) => ReturnOutcome(s, r)
    case Open(_, _, _, _) => Nothing
    case Adjust(request, move) => AdjustOutcome(s, request, move)
    case Count(count, warehouse, items) => CountOutcome(s, count, warehouse, items)
    case Transfer(uid, source, destination, item) => TransferOutcome(s, TransferTx(uid), source, destination, [item])
    case BulkTransfer(uid, source, destination, items) => BulkTransferOutcome(s, uid, source, destination, items)
    case Invoice(number, warehouse, lines) => InvoiceOutcome(s, number, warehouse, lines)
    case Void(number) => VoidOutcome(s, number)
    case Receive(uid, warehouse, lines, cost) => ReceiptOutcome(s, uid, warehouse, lines, cost)
    case SendBack(uid, warehouse, lines, refund) => PurchaseReturnOutcome(s, uid, warehouse, lines, refund)
    case Collect(uid, amount) => CollectOutcome(s, uid, amount)
    case Pay(uid, amount) => PayOutcome(s, uid, amount)
    case DateBatch(_, _) => Nothing
  }

  function Step(s: State, e: Event): State
  {
    match e
    case Open(uid, cell, quantity, cost) => OpenStock(s, uid, cell, quantity, cost)
    case DateBatch(batch, date) => s.(expiry := s.expiry[batch := date])
    case _ => Execute(s, OutcomeOf(s, e))
  }

  function Run(s: State, events: seq<Event>): State
    decreases |events|
  {
    if events == [] then s else Run(Step(s, events[0]), events[1..])
  }

  const EMPTY: State := State(Shelf(map[], []), [], [], {}, map[])
}

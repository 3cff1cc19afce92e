/** What operations do to each other over whole runs: transfers conserve, voiding an invoice undoes it,
    cancelling a sale restores the totals. */
module StockRuns {
  import opened Results
  import opened Sums
  import opened Fifo
  import Books
  import opened Stock
  import opened StockInvariants

  // ---------------------------------------------------------------- cached totals of any kind

  lemma ExecuteTotals(s: State, o: Outcome, p: Cell -> bool)
    requires WellFormed(s.shelf)
    ensures Stocked(Execute(s, o).shelf, p) == Stocked(s.shelf, p) + if o.Apply? then Moved(o.moves, p) else 0
    ensures Recorded(Execute(s, o).ledger, p) == Recorded(s.ledger, p) + if o.Apply? then Moved(o.moves, p) else 0
  {
    if o.Apply? {
      StockedAddAll(s.shelf, o.moves, p);
      RecordedAppend(s.ledger, o.tx, o.moves, p);
    }
  }

  /** All cells that the table or the ledger knows, the table's first. */
  function KnownCells(created: seq<Cell>, ledger: seq<Record>): (cells: seq<Cell>)
    requires DistinctCells(created)
    ensures DistinctCells(cells) && |created| <= |cells| && cells[..|created|] == created
    ensures forall i :: 0 <= i < |ledger| ==> ledger[i].move.cell in cells
  {
    if ledger == [] then created
    else
      var front, last := KnownCells(created, ledger[..|ledger| - 1]), ledger[|ledger| - 1].move.cell;
      if last in front then front else front + [last]
  }

  /** A group's movements are those of its cells. */
  lemma {:induction false} RecordedByCell(ledger: seq<Record>, cells: seq<Cell>, p: Cell -> bool)
    requires DistinctCells(cells) && forall i :: 0 <= i < |ledger| ==> ledger[i].move.cell in cells
    ensures Recorded(ledger, p) == Total(cells, (c: Cell) => if p(c) then Recorded(ledger, Only(c)) else 0)
  {
    var f := (c: Cell) => if p(c) then Recorded(ledger, Only(c)) else 0;
    if ledger == [] {
      TotalOfZero(cells, f);
    } else {
      var front, last := ledger[..|ledger| - 1], ledger[|ledger| - 1];
      RecordedByCell(front, cells, p);
      TotalChange(cells, (c: Cell) => if p(c) then Recorded(front, Only(c)) else 0, f, last.move.cell);
    }
  }

  /** Agreement cell by cell is agreement for every group of cells. */
  lemma GroupsAgree(s: State, p: Cell -> bool)
    requires Inv(s)
    ensures Stocked(s.shelf, p) == Recorded(s.ledger, p)
  {
    var created := s.shelf.created;
    var cells := KnownCells(created, s.ledger);
    var f := (c: Cell) => if p(c) then Get(s.shelf, c) else 0;
    RecordedByCell(s.ledger, cells, p);
    TotalsAgree(cells, cells, (c: Cell) => if p(c) then Recorded(s.ledger, Only(c)) else 0, f);
    var rest := cells[|created|..];
    forall i | 0 <= i < |rest| ensures f(rest[i]) == 0 {
      assert cells[|created| + i] == rest[i] && forall k :: 0 <= k < |created| ==> created[k] == cells[k];
    }
    TotalOfZero(rest, f);
    TotalAppend(created, rest, f);
    assert created + rest == cells;
  }

  /** In every state that is reached, the table holds of every group of cells what the ledger says. */
  lemma EveryTotalAgrees(s: State, events: seq<Event>, p: Cell -> bool)
    requires Inv(s) && FreshRun(s, events)
    ensures Stocked(Run(s, events).shelf, p) == Recorded(Run(s, events).ledger, p)
  {
    RunKeepsInv(s, events);
    GroupsAgree(Run(s, events), p);
  }

  // ---------------------------------------------------------------- transfers

  /** One product, variant and batch in all warehouses. */
  function EverywhereOf(product: nat, variant: Option<nat>, batch: Option<nat>): Cell -> bool
  {
    (c: Cell) => c.product == product && c.variant == variant && c.batch == batch
  }

  lemma {:induction false} TransferMovesCancel(shelf: Shelf, source: nat, destination: nat, items: seq<TransferItem>,
                                               product: nat, variant: Option<nat>, batch: Option<nat>)
    requires TransferMoves(shelf, source, destination, items).Some?
    ensures Moved(TransferMoves(shelf, source, destination, items).value, EverywhereOf(product, variant, batch)) == 0
  {
    if items != [] {
      var front, pair := items[..|items| - 1], TransferPair(source, destination, items[|items| - 1]);
      TransferMovesCancel(shelf, source, destination, front, product, variant, batch);
      var p := EverywhereOf(product, variant, batch);
      var f := (m: Move) => if p(m.cell) then m.quantity else 0;
      assert pair == [pair[0]] + [pair[1]];
      TotalAppend([pair[0]], [pair[1]], f);
      TotalOfOne(pair[0], f);
      TotalOfOne(pair[1], f);
      TotalAppend(TransferMoves(shelf, source, destination, front).value, pair, f);
    }
  }

  /** A transfer, single or bulk, conserves what there is of each product, variant and batch over all
      warehouses. */
  lemma TransfersConserve(s: State, tx: TxId, source: nat, destination: nat, items: seq<TransferItem>,
                          product: nat, variant: Option<nat>, batch: Option<nat>)
    requires WellFormed(s.shelf)
    ensures Stocked(Execute(s, TransferOutcome(s, tx, source, destination, items)).shelf, EverywhereOf(product, variant, batch))
         == Stocked(s.shelf, EverywhereOf(product, variant, batch))
  {
    var o := TransferOutcome(s, tx, source, destination, items);
    ExecuteTotals(s, o, EverywhereOf(product, variant, batch));
    if o.Apply? { TransferMovesCancel(s.shelf, source, destination, items, product, variant, batch); }
  }

  // ---------------------------------------------------------------- voiding an invoice

  lemma {:induction false} ReversalUndoes(ledger: seq<Record>, number: nat, p: Cell -> bool)
    requires forall i :: 0 <= i < |ledger| && ledger[i].tx.InvoiceTx? ==> ledger[i].move.quantity < 0
    ensures Moved(ReversalMoves(ledger, number), p) == -RecordedBy(ledger, InvoiceTx(number), p)
  {
    if ledger != [] {
      var front, last := ledger[..|ledger| - 1], ledger[|ledger| - 1];
      ReversalUndoes(front, number, p);
      if last.tx == InvoiceTx(number) {
        var back := last.move.(quantity := -last.move.quantity);
        var f := (m: Move) => if p(m.cell) then m.quantity else 0;
        TotalAppend(ReversalMoves(front, number), [back], f);
        TotalOfOne(back, f);
      } else {
        assert ReversalMoves(ledger, number) == ReversalMoves(front, number);
      }
    }
  }

  /** Nothing is recorded for a transaction that did not take place. */
  lemma {:induction false} UnusedRecordsNothing(ledger: seq<Record>, tx: TxId, p: Cell -> bool)
    requires forall i :: 0 <= i < |ledger| ==> ledger[i].tx != tx
    ensures RecordedBy(ledger, tx, p) == 0
  {
    if ledger != [] { UnusedRecordsNothing(ledger[..|ledger| - 1], tx, p); }
  }

  /** A transaction that took place gets no more entries. */
  lemma ExecuteKeepsRecords(s: State, o: Outcome, tx: TxId, p: Cell -> bool)
    requires OutcomeOk(s, o) && tx in s.transactions
    ensures RecordedBy(Execute(s, o).ledger, tx, p) == RecordedBy(s.ledger, tx, p)
  {
    if o.Apply? { RecordedByAppend(s.ledger, o.tx, o.moves, tx, p); }
  }

  /** An invoice that has been voided contributes nothing, deduction and reversal together. */
  predicate VoidIsExact(s: State, number: nat, p: Cell -> bool)
  {
    VoidTx(number) in s.transactions ==>
      RecordedBy(s.ledger, InvoiceTx(number), p) + RecordedBy(s.ledger, VoidTx(number), p) == 0
  }

  lemma ExecuteKeepsVoidExact(s: State, o: Outcome, number: nat, p: Cell -> bool)
    requires TransactionsOk(s) && OutcomeOk(s, o) && VoidIsExact(s, number, p)
    ensures VoidIsExact(Execute(s, o), number, p)
  {
    if VoidTx(number) in s.transactions {
      ExecuteKeepsRecords(s, o, InvoiceTx(number), p);
      ExecuteKeepsRecords(s, o, VoidTx(number), p);
    } else if o.Apply? && o.tx == VoidTx(number) {
      RecordedByAppend(s.ledger, o.tx, o.moves, InvoiceTx(number), p);
      RecordedByAppend(s.ledger, o.tx, o.moves, VoidTx(number), p);
      ReversalUndoes(s.ledger, number, p);
      UnusedRecordsNothing(s.ledger, VoidTx(number), p);
    }
  }

  lemma StepKeepsVoidExact(s: State, e: Event, number: nat, p: Cell -> bool)
    requires TransactionsOk(s) && VoidIsExact(s, number, p)
    ensures VoidIsExact(Step(s, e), number, p)
  {
    if e.Open? {
      if OpeningTx(e.uid) !in s.transactions {
        var moves := [Move(e.cell, e.quantity, e.cost)];
        RecordedByAppend(s.ledger, OpeningTx(e.uid), moves, InvoiceTx(number), p);
        RecordedByAppend(s.ledger, OpeningTx(e.uid), moves, VoidTx(number), p);
      }
    } else if !e.DateBatch? {
      OutcomesAreOk(s, e);
      ExecuteKeepsVoidExact(s, OutcomeOf(s, e), number, p);
    }
  }

  /** Whatever else is interleaved: once an invoice is voided, its deduction and its reversal together
      contribute zero to every cell and every group of cells. Unique transaction ids make each happen
      at most once. */
  lemma {:induction false} VoidingIsExact(s: State, events: seq<Event>, number: nat, p: Cell -> bool)
    requires TransactionsOk(s) && VoidIsExact(s, number, p)
    ensures VoidIsExact(Run(s, events), number, p)
    decreases |events|
  {
    if events != [] {
      StepKeepsTransactions(s, events[0]);
      StepKeepsVoidExact(s, events[0], number, p);
      VoidingIsExact(Step(s, events[0]), events[1..], number, p);
    }
  }

  /** The identifier under which an operation runs. */
  function TxOf(e: Event): Option<TxId>
  {
    match e
    case Sell(sale) => Some(SaleTx(sale.id))
    case Cancel(sale) => Some(CancelTx(sale.id))
    case Return(r) => Some(ReturnTx(r.id))
    case Open(uid, _, _, _) => Some(OpeningTx(uid))
    case Adjust(request, _) => Some(AdjustmentTx(request))
    case Count(count, _, _) => Some(CountTx(count))
    case Transfer(uid, _, _, _) => Some(TransferTx(uid))
    case BulkTransfer(uid, _, _, _) => Some(BulkTransferTx(uid))
    case Invoice(number, _, _) => Some(InvoiceTx(number))
    case Void(number) => Some(VoidTx(number))
    case Receive(uid, _, _, _) => Some(ReceiptTx(uid))
    case SendBack(uid, _, _, _) => Some(PurchaseReturnTx(uid))
    case Collect(uid, _) => Some(PaymentTx(uid))
    case Pay(uid, _) => Some(SupplierPaymentTx(uid))
    case DateBatch(_, _) => None
  }

  /** What a transaction recorded stays as it was recorded. */
  predicate SameRecords(a: seq<Record>, b: seq<Record>, tx: TxId)
  {
    |a| <= |b| && b[..|a|] == a && forall i :: |a| <= i < |b| ==> b[i].tx != tx
  }

  lemma StepKeepsEntries(s: State, e: Event, tx: TxId)
    requires tx in s.transactions
    ensures SameRecords(s.ledger, Step(s, e).ledger, tx) && tx in Step(s, e).transactions
  {
    if !e.Open? && !e.DateBatch? { OutcomesAreOk(s, e); }
  }

  lemma RecordsChain(a: seq<Record>, b: seq<Record>, c: seq<Record>, tx: TxId)
    requires SameRecords(a, b, tx) && SameRecords(b, c, tx)
    ensures SameRecords(a, c, tx)
  {
    assert c[..|a|] == c[..|b|][..|a|];
    forall i | |a| <= i < |c| ensures c[i].tx != tx {
      if i < |b| { assert c[..|b|][i] == b[i]; }
    }
  }

  lemma {:induction false} RunKeepsEntries(s: State, events: seq<Event>, tx: TxId)
    requires tx in s.transactions
    ensures SameRecords(s.ledger, Run(s, events).ledger, tx)
    decreases |events|
  {
    hide Step, TransactionsOk;
    if events != [] {
      StepKeepsEntries(s, events[0], tx);
      RunKeepsEntries(Step(s, events[0]), events[1..], tx);
      RecordsChain(s.ledger, Step(s, events[0]).ledger, Run(s, events).ledger, tx);
    }
  }

  /** An operation whose identifier is used changes nothing any more, so each happens at most once. */
  lemma AtMostOnce(s: State, e: Event)
    ensures OutcomeOf(s, e).Apply? ==> TxOf(e) == Some(OutcomeOf(s, e).tx)
    ensures TxOf(e).Some? && TxOf(e).value in s.transactions ==> Step(s, e) == s
  {
  }

  // ---------------------------------------------------------------- what a deduction moves

  lemma {:induction false} TakeMovesTotal(cells: seq<Cell>, takes: seq<int>, cost: int, p: Cell -> bool, inside: bool)
    requires |cells| == |takes| && forall i :: 0 <= i < |takes| ==> takes[i] >= 0
    requires forall i :: 0 <= i < |cells| ==> p(cells[i]) == inside
    ensures Moved(TakeMoves(cells, takes, cost), p) == if inside then -Sum(takes) else 0
  {
    if cells != [] {
      var n := |cells| - 1;
      var front := TakeMoves(cells[..n], takes[..n], cost);
      TakeMovesTotal(cells[..n], takes[..n], cost, p, inside);
      if takes[n] > 0 {
        var f := (m: Move) => if p(m.cell) then m.quantity else 0;
        TotalAppend(front, [Move(cells[n], -takes[n], cost)], f);
        TotalOfOne(Move(cells[n], -takes[n], cost), f);
      } else {
        assert TakeMoves(cells, takes, cost) == front;
      }
    }
  }

  lemma {:induction false} TakeMovesCost(cells: seq<Cell>, takes: seq<int>, cost: int)
    requires |cells| == |takes| && forall i :: 0 <= i < |takes| ==> takes[i] >= 0
    ensures CostOut(TakeMoves(cells, takes, cost)) == Sum(takes) * cost
  {
    if cells != [] {
      var n := |cells| - 1;
      var front := TakeMoves(cells[..n], takes[..n], cost);
      TakeMovesCost(cells[..n], takes[..n], cost);
      assert (Sum(takes[..n]) + takes[n]) * cost == Sum(takes[..n]) * cost + takes[n] * cost;
      if takes[n] > 0 {
        var f := (m: Move) => if m.quantity < 0 then -m.quantity * m.unitCost else 0;
        TotalAppend(front, [Move(cells[n], -takes[n], cost)], f);
        TotalOfOne(Move(cells[n], -takes[n], cost), f);
      } else {
        assert TakeMoves(cells, takes, cost) == front;
      }
    }
  }

  lemma {:induction false} InsertKeepsElements(expiry: map<nat, int>, sorted: seq<Cell>, cell: Cell)
    ensures forall c :: c in InsertByExpiry(expiry, sorted, cell) <==> c == cell || c in sorted
  {
    if sorted != [] { InsertKeepsElements(expiry, sorted[..|sorted| - 1], cell); }
  }

  lemma {:induction false} ByExpiryKeepsElements(expiry: map<nat, int>, cells: seq<Cell>)
    ensures forall c :: c in ByExpiry(expiry, cells) <==> c in cells
  {
    if cells != [] {
      var n := |cells| - 1;
      ByExpiryKeepsElements(expiry, cells[..n]);
      InsertKeepsElements(expiry, ByExpiry(expiry, cells[..n]), cells[n]);
    }
  }

  /** A group that a deduction lies in wholly, or not at all. */
  predicate Uniform(cells: seq<Cell>, p: Cell -> bool, inside: bool)
  {
    forall i :: 0 <= i < |cells| ==> p(cells[i]) == inside
  }

  lemma DeductTotals(shelf: Shelf, cells: seq<Cell>, requested: int, cost: int, p: Cell -> bool, inside: bool)
    requires Available(shelf, cells) >= requested && Uniform(cells, p, inside)
    ensures Moved(DeductMoves(shelf, cells, requested, cost), p) == if inside then -Max(0, requested) else 0
    ensures CostOut(DeductMoves(shelf, cells, requested, cost)) == Max(0, requested) * cost
  {
    var q := Quantities(shelf, cells);
    TakesAreLegal(q, requested);
    CheckedTakesAreExact(q, requested);
    TakeMovesTotal(cells, Takes(q, requested), cost, p, inside);
    TakeMovesCost(cells, Takes(q, requested), cost);
  }

  lemma FifoOrderIsOfItem(expiry: map<nat, int>, shelf: Shelf, product: nat, variant: Option<nat>, warehouse: nat, p: Cell -> bool, inside: bool)
    requires forall c: Cell :: OfItem(product, variant, warehouse)(c) ==> p(c) == inside
    ensures Uniform(FifoOrder(expiry, shelf, product, variant, warehouse), p, inside)
  {
    var cells := Filter(shelf.created, OfItem(product, variant, warehouse));
    ByExpiryKeepsElements(expiry, cells);
    var order := ByExpiry(expiry, cells);
    forall i | 0 <= i < |order| ensures p(order[i]) == inside {
      assert order[i] in cells;
    }
  }

  // ---------------------------------------------------------------- cancelling a sale

  /** What the items of a sale ask for, of one product and variant. */
  function UnitsOf(items: seq<SaleItem>, product: nat, variant: Option<nat>): int
  {
    Total(items, (i: SaleItem) => if i.product.id == product && i.variant == variant then i.units else 0)
  }

  lemma SaleItemTotals(expiry: map<nat, int>, shelf: Shelf, warehouse: nat, item: SaleItem,
                       product: nat, variant: Option<nat>, place: nat)
    requires SaleItemMoves(expiry, shelf, warehouse, item).Some?
    ensures var moves := SaleItemMoves(expiry, shelf, warehouse, item).value;
            && Moved(moves, OfItem(product, variant, place))
               == (if warehouse == place && item.product.id == product && item.variant == variant then 0 - item.units else 0)
            && CostOut(moves) == item.units * item.product.cost
  {
    var p := OfItem(product, variant, place);
    var inside := warehouse == place && item.product.id == product && item.variant == variant;
    if item.product.tracked {
      FifoOrderIsOfItem(expiry, shelf, item.product.id, item.variant, warehouse, p, inside);
      DeductTotals(shelf, FifoOrder(expiry, shelf, item.product.id, item.variant, warehouse), item.units, item.product.cost, p, inside);
    } else {
      var m := Move(DefaultCell(item, warehouse), 0 - item.units, item.product.cost);
      TotalOfOne(m, (m: Move) => if p(m.cell) then m.quantity else 0);
      TotalOfOne(m, (m: Move) => if m.quantity < 0 then -m.quantity * m.unitCost else 0);
    }
  }

  /** A sale moves exactly what its items ask for, of each product and variant over all batches, and
      books exactly their cost. */
  lemma {:induction false} SaleTotals(s: State, warehouse: nat, items: seq<SaleItem>,
                                      product: nat, variant: Option<nat>, place: nat)
    requires SaleMoves(s, warehouse, items).Some?
    ensures Moved(SaleMoves(s, warehouse, items).value, OfItem(product, variant, place))
         == if warehouse == place then -UnitsOf(items, product, variant) else 0
    ensures CostOut(SaleMoves(s, warehouse, items).value) == ItemsCost(items)
  {
    if items != [] {
      var front, item := items[..|items| - 1], items[|items| - 1];
      SaleTotals(s, warehouse, front, product, variant, place);
      var before := SaleMoves(s, warehouse, front).value;
      var shelf := AddAll(s.shelf, before);
      SaleItemTotals(s.expiry, shelf, warehouse, item, product, variant, place);
      var more := SaleItemMoves(s.expiry, shelf, warehouse, item).value;
      var p := OfItem(product, variant, place);
      TotalAppend(before, more, (m: Move) => if p(m.cell) then m.quantity else 0);
      TotalAppend(before, more, (m: Move) => if m.quantity < 0 then -m.quantity * m.unitCost else 0);
    }
  }

  lemma RestoreTotals(warehouse: nat, items: seq<SaleItem>, product: nat, variant: Option<nat>, place: nat)
    ensures Moved(RestoreMoves(warehouse, items), OfItem(product, variant, place))
         == if warehouse == place then UnitsOf(items, product, variant) else 0
    ensures CostIn(RestoreMoves(warehouse, items)) == ItemsCost(items)
  {
    var moves := RestoreMoves(warehouse, items);
    var p := OfItem(product, variant, place);
    var f := (m: Move) => if p(m.cell) then m.quantity else 0;
    if warehouse == place {
      TotalsAgree(moves, items, f, (i: SaleItem) => if i.product.id == product && i.variant == variant then i.units else 0);
    } else {
      TotalOfZero(moves, f);
    }
    TotalsAgree(moves, items, (m: Move) => if m.quantity > 0 then m.quantity * m.unitCost else 0,
                (i: SaleItem) => i.units * i.product.cost);
  }

  /** Both postings of a sale use the same cost of goods: that of its items. */
  lemma CostsAgree(s: State, warehouse: nat, items: seq<SaleItem>)
    ensures SaleMoves(s, warehouse, items).Some? ==> SaleCogs(SaleMoves(s, warehouse, items).value, items) == ItemsCost(items)
    ensures RestockCost(RestoreMoves(warehouse, items), items) == ItemsCost(items)
  {
    if SaleMoves(s, warehouse, items).Some? { SaleTotals(s, warehouse, items, 0, None, 0); }
    RestoreTotals(warehouse, items, 0, None, 0);
  }

  lemma SellEffect(s: State, sale: Sale, product: nat, variant: Option<nat>, place: nat)
    requires SellOutcome(s, sale).Apply?
    ensures Moved(SellOutcome(s, sale).moves, OfItem(product, variant, place))
         == if sale.warehouse == Some(place) then -UnitsOf(sale.items, product, variant) else 0
    ensures Books.Posting(Books.SaleEntries(Books.Quantize(sale.amounts), ItemsCost(sale.items)))
         == Ok(SellOutcome(s, sale).lines)
  {
    if sale.warehouse.Some? {
      SaleTotals(s, sale.warehouse.value, sale.items, product, variant, place);
      CostsAgree(s, sale.warehouse.value, sale.items);
    }
  }

  lemma CancelEffect(s: State, sale: Sale, product: nat, variant: Option<nat>, place: nat)
    requires CancelOutcome(s, sale).Apply?
    ensures Moved(CancelOutcome(s, sale).moves, OfItem(product, variant, place))
         == if sale.warehouse == Some(place) then UnitsOf(sale.items, product, variant) else 0
    ensures Books.Posting(Books.CancellationEntries(Books.Quantize(sale.amounts), ItemsCost(sale.items)))
         == Ok(CancelOutcome(s, sale).lines)
  {
    if sale.warehouse.Some? {
      RestoreTotals(sale.warehouse.value, sale.items, product, variant, place);
      CostsAgree(s, sale.warehouse.value, sale.items);
    }
  }

  /** Cancelling a sale, however much later and with purchase costs unchanged: what it gives back to
      each product, variant and warehouse, over all batches, is what the sale took, and what it posts
      to each account takes back what the sale posted, cost of goods and inventory included. */
  lemma CancellationRestores(s: State, sale: Sale, later: State,
                             product: nat, variant: Option<nat>, place: nat, account: Books.Account)
    requires WellFormed(s.shelf) && WellFormed(later.shelf)
    requires SellOutcome(s, sale).Apply? && CancelOutcome(later, sale).Apply?
    ensures var sold, cancelled := Step(s, Sell(sale)), Step(later, Cancel(sale));
            var p := OfItem(product, variant, place);
            && Stocked(cancelled.shelf, p) - Stocked(later.shelf, p) == Stocked(s.shelf, p) - Stocked(sold.shelf, p)
            && BookNet(cancelled.books, account) - BookNet(later.books, account)
               == BookNet(s.books, account) - BookNet(sold.books, account)
  {
    var p := OfItem(product, variant, place);
    var sell, cancel := SellOutcome(s, sale), CancelOutcome(later, sale);
    SellEffect(s, sale, product, variant, place);
    CancelEffect(later, sale, product, variant, place);
    ExecuteTotals(s, sell, p);
    ExecuteTotals(later, cancel, p);
    BookNetAppend(s.books, sell.tx, sell.lines, account);
    BookNetAppend(later.books, cancel.tx, cancel.lines, account);
    Books.CancellationNetsToZero(Books.Quantize(sale.amounts), ItemsCost(sale.items), account);
  }

  /** A cancellation is accepted exactly when the sale was not cancelled before and its amounts fit. */
  lemma CancelAcceptedExactly(s: State, sale: Sale)
    ensures CancelOutcome(s, sale).Apply?
            <==> CancelTx(sale.id) !in s.transactions && Books.AmountsFit(Books.Quantize(sale.amounts))
  {
    if sale.warehouse.Some? { CostsAgree(s, sale.warehouse.value, sale.items); }
    Books.CancellationPostsExactly(Books.Quantize(sale.amounts), ItemsCost(sale.items));
  }

  /** So a sale that went through can always be cancelled, once. */
  lemma SoldMeansCancellable(s: State, sale: Sale, later: State)
    requires SellOutcome(s, sale).Apply?
    ensures CancelOutcome(later, sale).Apply? <==> CancelTx(sale.id) !in later.transactions
  {
    SellEffect(s, sale, 0, None, 0);
    Books.SalePostsExactly(Books.Quantize(sale.amounts), ItemsCost(sale.items));
    CancelAcceptedExactly(later, sale);
  }

  // ---------------------------------------------------------------- the deduction, row by row

  /** Lines of an invoice that ask for what the items of a sale ask for. */
  function AsLines(items: seq<SaleItem>): (l: seq<InvoiceLine>)
    ensures |l| == |items|
  {
    seq(|items|, i requires 0 <= i < |items| => InvoiceLine(items[i].product, items[i].variant, items[i].units))
  }

  lemma ItemAndLineAgree(expiry: map<nat, int>, shelf: Shelf, warehouse: nat, item: SaleItem)
    requires item.product.tracked
    ensures SaleItemMoves(expiry, shelf, warehouse, item)
         == InvoiceLineMoves(expiry, shelf, warehouse, InvoiceLine(item.product, item.variant, item.units))
  {
  }

  /** Sale and invoice deduct the same from the same rows. */
  lemma {:induction false} SaleAndInvoiceAgree(s: State, warehouse: nat, items: seq<SaleItem>)
    requires forall i :: 0 <= i < |items| ==> items[i].product.tracked
    ensures SaleMoves(s, warehouse, items) == InvoiceMoves(s, warehouse, AsLines(items))
  {
    if items != [] {
      var front, item := items[..|items| - 1], items[|items| - 1];
      SaleAndInvoiceAgree(s, warehouse, front);
      assert AsLines(items)[..|items| - 1] == AsLines(front);
      if SaleMoves(s, warehouse, front).Some? {
        ItemAndLineAgree(s.expiry, AddAll(s.shelf, SaleMoves(s, warehouse, front).value), warehouse, item);
      }
    }
  }

  predicate DistinctCells(cells: seq<Cell>)
  {
    forall i, j :: 0 <= i < j < |cells| ==> cells[i] != cells[j]
  }

  lemma {:induction false} TakeMovesAt(cells: seq<Cell>, takes: seq<int>, cost: int, i: nat)
    requires |cells| == |takes| && DistinctCells(cells) && i < |cells| && forall k :: 0 <= k < |takes| ==> takes[k] >= 0
    ensures Moved(TakeMoves(cells, takes, cost), Only(cells[i])) == -takes[i]
  {
    var n := |cells| - 1;
    var front := TakeMoves(cells[..n], takes[..n], cost);
    if i == n {
      TakeMovesTotal(cells[..n], takes[..n], cost, Only(cells[n]), false);
    } else {
      TakeMovesAt(cells[..n], takes[..n], cost, i);
    }
    if takes[n] > 0 {
      var f := (m: Move) => if Only(cells[i])(m.cell) then m.quantity else 0;
      TotalAppend(front, [Move(cells[n], -takes[n], cost)], f);
      TotalOfOne(Move(cells[n], -takes[n], cost), f);
    } else {
      assert TakeMoves(cells, takes, cost) == front;
    }
  }

  /** After a deduction each row of the order has given its take, and no row that was not negative has
      become negative. */
  lemma DeductionByRow(shelf: Shelf, cells: seq<Cell>, requested: int, cost: int, i: nat)
    requires DistinctCells(cells) && i < |cells|
    ensures var after := AddAll(shelf, DeductMoves(shelf, cells, requested, cost));
            && Get(after, cells[i]) == Get(shelf, cells[i]) - Takes(Quantities(shelf, cells), requested)[i]
            && (Get(shelf, cells[i]) >= 0 ==> Get(after, cells[i]) >= 0)
  {
    var q := Quantities(shelf, cells);
    TakesAreLegal(q, requested);
    AddAllGet(shelf, DeductMoves(shelf, cells, requested, cost), cells[i]);
    TakeMovesAt(cells, Takes(q, requested), cost, i);
  }

  /** No other row changes. */
  lemma DeductionElsewhere(shelf: Shelf, cells: seq<Cell>, requested: int, cost: int, cell: Cell)
    requires cell !in cells
    ensures Get(AddAll(shelf, DeductMoves(shelf, cells, requested, cost)), cell) == Get(shelf, cell)
  {
    var q := Quantities(shelf, cells);
    TakesAreLegal(q, requested);
    AddAllGet(shelf, DeductMoves(shelf, cells, requested, cost), cell);
    TakeMovesTotal(cells, Takes(q, requested), cost, Only(cell), false);
  }

  // ---------------------------------------------------------------- the order is by expiry date

  predicate SortedByExpiry(expiry: map<nat, int>, cells: seq<Cell>)
  {
    forall i, j :: 0 <= i < j < |cells| ==> !ExpiresBefore(ExpiryOf(expiry, cells[j]), ExpiryOf(expiry, cells[i]))
  }

  lemma {:induction false} InsertKeepsSorted(expiry: map<nat, int>, sorted: seq<Cell>, cell: Cell)
    requires SortedByExpiry(expiry, sorted)
    ensures SortedByExpiry(expiry, InsertByExpiry(expiry, sorted, cell))
  {
    if sorted != [] && ExpiresBefore(ExpiryOf(expiry, cell), ExpiryOf(expiry, sorted[|sorted| - 1])) {
      var front, last := sorted[..|sorted| - 1], sorted[|sorted| - 1];
      InsertKeepsSorted(expiry, front, cell);
      InsertKeepsElements(expiry, front, cell);
      var longer := InsertByExpiry(expiry, front, cell);
      forall i | 0 <= i < |longer| ensures !ExpiresBefore(ExpiryOf(expiry, last), ExpiryOf(expiry, longer[i])) {
        assert longer[i] in longer;
      }
    }
  }

  /** Rows of equal expiry date. */
  function SameDate(expiry: map<nat, int>, date: Option<int>): Cell -> bool
  {
    (c: Cell) => ExpiryOf(expiry, c) == date
  }

  lemma FilterOneMore(cells: seq<Cell>, cell: Cell, p: Cell -> bool)
    ensures Filter(cells + [cell], p) == if p(cell) then Filter(cells, p) + [cell] else Filter(cells, p)
  {
    assert (cells + [cell])[..|cells|] == cells;
  }

  lemma {:induction false} InsertIsStable(expiry: map<nat, int>, sorted: seq<Cell>, cell: Cell, p: Cell -> bool)
    requires forall c: Cell :: p(c) && p(cell) ==> ExpiryOf(expiry, c) == ExpiryOf(expiry, cell)
    ensures Filter(InsertByExpiry(expiry, sorted, cell), p) == Filter(sorted + [cell], p)
  {
    FilterOneMore(sorted, cell, p);
    if sorted == [] {
      assert [] + [cell] == [cell];
    } else if ExpiresBefore(ExpiryOf(expiry, cell), ExpiryOf(expiry, sorted[|sorted| - 1])) {
      var front, last := sorted[..|sorted| - 1], sorted[|sorted| - 1];
      assert sorted == front + [last];
      FilterOneMore(front, last, p);
      FilterOneMore(front, cell, p);
      FilterOneMore(InsertByExpiry(expiry, front, cell), last, p);
      InsertIsStable(expiry, front, cell, p);
    }
  }

  /** The order of deduction: rows sorted by expiry date, those without one last, and rows of the same
      date in the order of their creation. */
  lemma {:induction false} ByExpiryIsStableSort(expiry: map<nat, int>, cells: seq<Cell>, date: Option<int>)
    ensures SortedByExpiry(expiry, ByExpiry(expiry, cells))
    ensures Filter(ByExpiry(expiry, cells), SameDate(expiry, date)) == Filter(cells, SameDate(expiry, date))
  {
    if cells != [] {
      var n := |cells| - 1;
      ByExpiryIsStableSort(expiry, cells[..n], date);
      InsertKeepsSorted(expiry, ByExpiry(expiry, cells[..n]), cells[n]);
      InsertIsStable(expiry, ByExpiry(expiry, cells[..n]), cells[n], SameDate(expiry, date));
      FilterOneMore(ByExpiry(expiry, cells[..n]), cells[n], SameDate(expiry, date));
    }
  }

  // ---------------------------------------------------------------- no row is driven below zero

  lemma {:induction false} FilterKeepsDistinct(cells: seq<Cell>, p: Cell -> bool)
    requires DistinctCells(cells)
    ensures DistinctCells(Filter(cells, p))
  {
    if cells != [] { FilterKeepsDistinct(cells[..|cells| - 1], p); }
  }

  lemma {:induction false} InsertKeepsDistinct(expiry: map<nat, int>, sorted: seq<Cell>, cell: Cell)
    requires DistinctCells(sorted) && cell !in sorted
    ensures DistinctCells(InsertByExpiry(expiry, sorted, cell))
  {
    if sorted != [] {
      var front, last := sorted[..|sorted| - 1], sorted[|sorted| - 1];
      InsertKeepsDistinct(expiry, front, cell);
      InsertKeepsElements(expiry, front, cell);
      var longer := InsertByExpiry(expiry, front, cell);
      assert last in sorted && last !in front;
      forall i | 0 <= i < |longer| ensures longer[i] != last {
        assert longer[i] in longer;
      }
    }
  }

  lemma {:induction false} ByExpiryKeepsDistinct(expiry: map<nat, int>, cells: seq<Cell>)
    requires DistinctCells(cells)
    ensures DistinctCells(ByExpiry(expiry, cells))
  {
    if cells != [] {
      var n := |cells| - 1;
      ByExpiryKeepsDistinct(expiry, cells[..n]);
      ByExpiryKeepsElements(expiry, cells[..n]);
      InsertKeepsDistinct(expiry, ByExpiry(expiry, cells[..n]), cells[n]);
    }
  }

  lemma FifoOrderIsDistinct(expiry: map<nat, int>, shelf: Shelf, product: nat, variant: Option<nat>, warehouse: nat)
    requires WellFormed(shelf)
    ensures DistinctCells(FifoOrder(expiry, shelf, product, variant, warehouse))
    ensures forall c :: c in FifoOrder(expiry, shelf, product, variant, warehouse) ==> c in shelf.quantity
  {
    var cells := Filter(shelf.created, OfItem(product, variant, warehouse));
    FilterKeepsDistinct(shelf.created, OfItem(product, variant, warehouse));
    ByExpiryKeepsDistinct(expiry, cells);
    ByExpiryKeepsElements(expiry, cells);
  }

  lemma DeductionKeepsNonNegative(shelf: Shelf, cells: seq<Cell>, requested: int, cost: int, cell: Cell)
    requires DistinctCells(cells) && Get(shelf, cell) >= 0
    ensures Get(AddAll(shelf, DeductMoves(shelf, cells, requested, cost)), cell) >= 0
  {
    if cell in cells {
      var i :| 0 <= i < |cells| && cells[i] == cell;
      DeductionByRow(shelf, cells, requested, cost, i);
    } else {
      DeductionElsewhere(shelf, cells, requested, cost, cell);
    }
  }

  /** An invoice of any number of lines, and so a sale of tracked items, never drives a row that was not
      negative below zero. */
  lemma {:induction false} InvoiceKeepsNonNegative(s: State, warehouse: nat, lines: seq<InvoiceLine>, cell: Cell)
    requires WellFormed(s.shelf) && Get(s.shelf, cell) >= 0 && InvoiceMoves(s, warehouse, lines).Some?
    ensures Get(AddAll(s.shelf, InvoiceMoves(s, warehouse, lines).value), cell) >= 0
  {
    if lines != [] {
      var front, l := lines[..|lines| - 1], lines[|lines| - 1];
      InvoiceKeepsNonNegative(s, warehouse, front, cell);
      var before := InvoiceMoves(s, warehouse, front).value;
      var shelf := AddAll(s.shelf, before);
      AddAllKeepsWellFormed(s.shelf, before);
      FifoOrderIsDistinct(s.expiry, shelf, l.product.id, l.variant, warehouse);
      var order := FifoOrder(s.expiry, shelf, l.product.id, l.variant, warehouse);
      DeductionKeepsNonNegative(shelf, order, l.quantity, l.product.cost, cell);
      AddAllAppend(s.shelf, before, DeductMoves(shelf, order, l.quantity, l.product.cost));
    }
  }
}

/** What each operation of the stock engine comes to, told from the state before it: when it takes place,
    what every row holds afterwards and what every account has gained. */
module StockSteps {
  import opened Results
  import opened Rounding
  import opened Sums
  import Books
  import opened Stock
  import opened StockInvariants
  import opened StockRuns
  import opened StockEffects

  /** A transaction took place in this step. */
  predicate Happened(before: State, after: State, tx: TxId)
  {
    tx !in before.transactions && tx in after.transactions
  }

  // ---------------------------------------------------------------- voiding

  lemma {:induction false} ReversalIsEmptyExactly(ledger: seq<Record>, number: nat)
    requires forall i :: 0 <= i < |ledger| && ledger[i].tx.InvoiceTx? ==> ledger[i].move.quantity < 0
    ensures ReversalMoves(ledger, number) == [] <==> forall i :: 0 <= i < |ledger| ==> ledger[i].tx != InvoiceTx(number)
  {
    if ledger != [] { ReversalIsEmptyExactly(ledger[..|ledger| - 1], number); }
  }

  predicate Invoiced(ledger: seq<Record>, number: nat)
  {
    exists i :: 0 <= i < |ledger| && ledger[i].tx == InvoiceTx(number)
  }

  /** Voiding an invoice with entries that was not voided before: it takes place, every row gets back what
      the invoice's entries took from it, the void's entries say so, and the books stay as they are.
      Without entries nothing happens. */
  lemma VoidTakesPlace(s: State, number: nat)
    requires TransactionsOk(s) && VoidTx(number) !in s.transactions
    ensures var after := Step(s, Void(number));
            if Invoiced(s.ledger, number) then
              && after.transactions == s.transactions + {VoidTx(number)}
              && after.books == s.books && after.expiry == s.expiry
              && s.ledger <= after.ledger
              && (forall c :: Get(after.shelf, c) == Get(s.shelf, c) - RecordedBy(s.ledger, InvoiceTx(number), Only(c)))
              && (forall c :: RecordedBy(after.ledger, VoidTx(number), Only(c)) == -RecordedBy(s.ledger, InvoiceTx(number), Only(c)))
            else after == s
  {
    ReversalIsEmptyExactly(s.ledger, number);
    if Invoiced(s.ledger, number) {
      var moves, after := ReversalMoves(s.ledger, number), Step(s, Void(number));
      assert moves != [];
      assert after.books == s.books + [];
      forall c
        ensures Get(after.shelf, c) == Get(s.shelf, c) - RecordedBy(s.ledger, InvoiceTx(number), Only(c))
        ensures RecordedBy(after.ledger, VoidTx(number), Only(c)) == -RecordedBy(s.ledger, InvoiceTx(number), Only(c))
      {
        AddAllGet(s.shelf, moves, c);
        ReversalUndoes(s.ledger, number, Only(c));
        RecordedByAppend(s.ledger, VoidTx(number), moves, VoidTx(number), Only(c));
        UnusedRecordsNothing(s.ledger, VoidTx(number), Only(c));
      }
    }
  }

  /** What the entries of a transaction are worth at their unit costs. */
  function RecordedWorth(ledger: seq<Record>, tx: TxId): int
  {
    Total(ledger, (r: Record) => if r.tx == tx then r.move.quantity * r.move.unitCost else 0)
  }

  function Worth(moves: seq<Move>): int
  {
    Total(moves, (m: Move) => m.quantity * m.unitCost)
  }

  lemma {:induction false} ReversalIsWorth(ledger: seq<Record>, number: nat)
    requires forall i :: 0 <= i < |ledger| && ledger[i].tx.InvoiceTx? ==> ledger[i].move.quantity < 0
    ensures Worth(ReversalMoves(ledger, number)) == -RecordedWorth(ledger, InvoiceTx(number))
  {
    if ledger != [] {
      var front, last := ledger[..|ledger| - 1], ledger[|ledger| - 1];
      ReversalIsWorth(front, number);
      if last.tx == InvoiceTx(number) {
        var back, f := last.move.(quantity := -last.move.quantity), (m: Move) => m.quantity * m.unitCost;
        TotalAppend(ReversalMoves(front, number), [back], f);
        TotalOfOne(back, f);
        assert -last.move.quantity * last.move.unitCost == -(last.move.quantity * last.move.unitCost);
      } else {
        assert ReversalMoves(ledger, number) == ReversalMoves(front, number);
      }
    }
  }

  lemma RecordedWorthAppend(ledger: seq<Record>, tx: TxId, moves: seq<Move>)
    requires forall i :: 0 <= i < |ledger| ==> ledger[i].tx != tx
    ensures RecordedWorth(ledger + Records(tx, moves), tx) == Worth(moves)
  {
    var f := (r: Record) => if r.tx == tx then r.move.quantity * r.move.unitCost else 0;
    TotalAppend(ledger, Records(tx, moves), f);
    TotalOfZero(ledger, f);
    TotalsAgree(Records(tx, moves), moves, f, (m: Move) => m.quantity * m.unitCost);
  }

  /** The goods come back at the costs at which they were taken. */
  lemma VoidKeepsCosts(s: State, number: nat)
    requires TransactionsOk(s) && VoidTx(number) !in s.transactions && Invoiced(s.ledger, number)
    ensures RecordedWorth(Step(s, Void(number)).ledger, VoidTx(number)) == -RecordedWorth(s.ledger, InvoiceTx(number))
  {
    ReversalIsEmptyExactly(s.ledger, number);
    ReversalIsWorth(s.ledger, number);
    RecordedWorthAppend(s.ledger, VoidTx(number), ReversalMoves(s.ledger, number));
  }

  lemma {:induction false} SameRecordsSameTotal(a: seq<Record>, b: seq<Record>, tx: TxId, p: Cell -> bool)
    requires SameRecords(a, b, tx)
    ensures RecordedBy(b, tx, p) == RecordedBy(a, tx, p)
  {
    var f := (r: Record) => if r.tx == tx && p(r.move.cell) then r.move.quantity else 0;
    assert b == a + b[|a|..];
    TotalAppend(a, b[|a|..], f);
    TotalOfZero(b[|a|..], f);
  }

  /** An invoice is deducted, anything else happens, the invoice is voided: the void puts back into every
      row what the invoice took out of it. */
  lemma VoidIsInverse(s: State, number: nat, warehouse: nat, lines: seq<InvoiceLine>, events: seq<Event>, cell: Cell)
    requires TransactionsOk(s) && Happened(s, Step(s, Invoice(number, warehouse, lines)), InvoiceTx(number))
    requires VoidTx(number) !in Run(Step(s, Invoice(number, warehouse, lines)), events).transactions
    ensures var invoiced := Step(s, Invoice(number, warehouse, lines));
            var later := Run(invoiced, events);
            Get(Step(later, Void(number)).shelf, cell) - Get(later.shelf, cell) == Get(s.shelf, cell) - Get(invoiced.shelf, cell)
  {
    var e := Invoice(number, warehouse, lines);
    var invoiced := Step(s, e);
    var later := Run(invoiced, events);
    StepKeepsTransactions(s, e);
    BooksAlwaysBalance(invoiced, events);
    RunKeepsEntries(invoiced, events, InvoiceTx(number));
    SameRecordsSameTotal(invoiced.ledger, later.ledger, InvoiceTx(number), Only(cell));
    InvoiceIsRecorded(s, number, warehouse, lines, cell);
    hide Step, Run, TransactionsOk;
    VoidTakesPlace(later, number);
    if !Invoiced(later.ledger, number) { UnusedRecordsNothing(later.ledger, InvoiceTx(number), Only(cell)); }
  }

  lemma InvoiceIsRecorded(s: State, number: nat, warehouse: nat, lines: seq<InvoiceLine>, cell: Cell)
    requires TransactionsOk(s) && Happened(s, Step(s, Invoice(number, warehouse, lines)), InvoiceTx(number))
    ensures var invoiced := Step(s, Invoice(number, warehouse, lines));
            RecordedBy(invoiced.ledger, InvoiceTx(number), Only(cell)) == Get(invoiced.shelf, cell) - Get(s.shelf, cell)
  {
    hide TransactionsOk, RecordedBy, AddAll, InvoiceMoves;
    ExecutedIsRecorded(s, InvoiceOutcome(s, number, warehouse, lines), cell);
  }

  lemma ExecutedIsRecorded(s: State, o: Outcome, cell: Cell)
    requires TransactionsOk(s) && o.Apply? && o.tx !in s.transactions
    ensures RecordedBy(Execute(s, o).ledger, o.tx, Only(cell)) == Get(Execute(s, o).shelf, cell) - Get(s.shelf, cell)
  {
    AddAllGet(s.shelf, o.moves, cell);
    RecordedByAppend(s.ledger, o.tx, o.moves, o.tx, Only(cell));
    UnusedRecordsNothing(s.ledger, o.tx, Only(cell));
  }

  // ---------------------------------------------------------------- invoices

  /** What an invoice asks for of one product and variant; lines of untracked products move nothing. */
  function AskedTracked(lines: seq<InvoiceLine>, product: nat, variant: Option<nat>): int
  {
    Total(lines, (l: InvoiceLine) =>
      if l.product.tracked && l.product.id == product && l.variant == variant then Fifo.Max(0, l.quantity) else 0)
  }

  function TrackedCost(lines: seq<InvoiceLine>): int
  {
    Total(lines, (l: InvoiceLine) => if l.product.tracked then Fifo.Max(0, l.quantity) * l.product.cost else 0)
  }

  lemma {:induction false} TrackedLinesAre(lines: seq<InvoiceLine>, l: InvoiceLine)
    ensures l in TrackedLines(lines) <==> l in lines && l.product.tracked
  {
    if lines != [] {
      var front, last := lines[..|lines| - 1], lines[|lines| - 1];
      TrackedLinesAre(front, l);
      assert lines == front + [last];
    }
  }

  lemma {:induction false} TrackedTotal(lines: seq<InvoiceLine>, f: InvoiceLine -> int, g: InvoiceLine -> int)
    requires forall l: InvoiceLine :: g(l) == if l.product.tracked then f(l) else 0
    ensures Total(TrackedLines(lines), f) == Total(lines, g)
  {
    if lines != [] {
      var front, last := lines[..|lines| - 1], lines[|lines| - 1];
      TrackedTotal(front, f, g);
      if last.product.tracked {
        TotalAppend(TrackedLines(front), [last], f);
        TotalOfOne(last, f);
      } else {
        assert TrackedLines(lines) == TrackedLines(front);
      }
    }
  }

  lemma TrackedAsked(lines: seq<InvoiceLine>, product: nat, variant: Option<nat>)
    ensures Asked(TrackedLines(lines), product, variant) == AskedTracked(lines, product, variant)
  {
    TrackedTotal(lines,
                 (l: InvoiceLine) => if l.product.id == product && l.variant == variant then Fifo.Max(0, l.quantity) else 0,
                 (l: InvoiceLine) =>
                   if l.product.tracked && l.product.id == product && l.variant == variant then Fifo.Max(0, l.quantity) else 0);
  }

  /** For every tracked line there is as much of its product and variant as the invoice asks for. */
  predicate EnoughTracked(shelf: Shelf, warehouse: nat, lines: seq<InvoiceLine>)
  {
    forall i :: 0 <= i < |lines| && lines[i].product.tracked ==>
      Stocked(shelf, OfItem(lines[i].product.id, lines[i].variant, warehouse))
        >= AskedTracked(lines, lines[i].product.id, lines[i].variant)
  }

  lemma EnoughTrackedIs(shelf: Shelf, warehouse: nat, lines: seq<InvoiceLine>)
    ensures EnoughForAll(shelf, warehouse, TrackedLines(lines)) <==> EnoughTracked(shelf, warehouse, lines)
  {
    hide Stocked, Asked, AskedTracked;
    var tracked := TrackedLines(lines);
    forall l | l in lines && l.product.tracked
      ensures Enough(shelf, warehouse, tracked, l.product.id, l.variant)
         <==> Stocked(shelf, OfItem(l.product.id, l.variant, warehouse)) >= AskedTracked(lines, l.product.id, l.variant)
    {
      TrackedAsked(lines, l.product.id, l.variant);
    }
    forall l ensures l in tracked <==> l in lines && l.product.tracked {
      TrackedLinesAre(lines, l);
    }
    if EnoughForAll(shelf, warehouse, tracked) {
      forall i | 0 <= i < |lines| && lines[i].product.tracked
        ensures Enough(shelf, warehouse, tracked, lines[i].product.id, lines[i].variant)
      {
        assert lines[i] in tracked;
        var k :| 0 <= k < |tracked| && tracked[k] == lines[i];
        assert Enough(shelf, warehouse, tracked, tracked[k].product.id, tracked[k].variant);
      }
    }
    if EnoughTracked(shelf, warehouse, lines) {
      forall k | 0 <= k < |tracked| ensures Enough(shelf, warehouse, tracked, tracked[k].product.id, tracked[k].variant) {
        assert tracked[k] in lines;
        var i :| 0 <= i < |lines| && lines[i] == tracked[k];
        assert lines[i].product.tracked;
      }
    }
  }

  /** An invoice is deducted exactly if it was not before, it has a tracked line, and there is enough for
      every tracked line. Otherwise nothing changes. */
  lemma InvoiceTakesPlaceExactly(s: State, number: nat, warehouse: nat, lines: seq<InvoiceLine>)
    requires WellFormed(s.shelf) && forall i :: 0 <= i < |lines| ==> lines[i].quantity >= 0
    ensures var after := Step(s, Invoice(number, warehouse, lines));
            && (Happened(s, after, InvoiceTx(number)) <==>
                  && InvoiceTx(number) !in s.transactions
                  && (exists i :: 0 <= i < |lines| && lines[i].product.tracked)
                  && EnoughTracked(s.shelf, warehouse, lines))
            && (!Happened(s, after, InvoiceTx(number)) ==> after == s)
  {
    hide InvoiceMoves, EnoughForAll, EnoughTracked, WellFormed;
    var tracked := TrackedLines(lines);
    forall l ensures l in tracked <==> l in lines && l.product.tracked {
      TrackedLinesAre(lines, l);
    }
    EnoughTrackedIs(s.shelf, warehouse, lines);
    if i :| 0 <= i < |lines| && lines[i].product.tracked { assert lines[i] in tracked; }
    if tracked != [] { assert tracked[0] in lines; }
    forall k | 0 <= k < |tracked| ensures tracked[k].quantity >= 0 { assert tracked[k] in lines; }
    InvoiceFitsExactly(s, warehouse, tracked);
  }

  lemma {:induction false} InvoiceCosts(s: State, warehouse: nat, lines: seq<InvoiceLine>)
    requires InvoiceMoves(s, warehouse, lines).Some?
    ensures CostOut(InvoiceMoves(s, warehouse, lines).value)
         == Total(lines, (l: InvoiceLine) => Fifo.Max(0, l.quantity) * l.product.cost)
  {
    if lines != [] {
      var n := |lines| - 1;
      InvoiceCosts(s, warehouse, lines[..n]);
      var front, l := InvoiceMoves(s, warehouse, lines[..n]).value, lines[n];
      var now, p := AddAll(s.shelf, front), OfItem(l.product.id, l.variant, warehouse);
      var order := FifoOrder(s.expiry, now, l.product.id, l.variant, warehouse);
      FifoOrderIsOfItem(s.expiry, now, l.product.id, l.variant, warehouse, p, true);
      DeductTotals(now, order, l.quantity, l.product.cost, p, true);
      TotalAppend(front, DeductMoves(now, order, l.quantity, l.product.cost),
                  (m: Move) => if m.quantity < 0 then -m.quantity * m.unitCost else 0);
    }
  }

  lemma TrackedCostIs(lines: seq<InvoiceLine>)
    ensures Total(TrackedLines(lines), (l: InvoiceLine) => Fifo.Max(0, l.quantity) * l.product.cost) == TrackedCost(lines)
  {
    TrackedTotal(lines, (l: InvoiceLine) => Fifo.Max(0, l.quantity) * l.product.cost,
                 (l: InvoiceLine) => if l.product.tracked then Fifo.Max(0, l.quantity) * l.product.cost else 0);
  }

  lemma {:induction false} WorthOfTaken(moves: seq<Move>)
    requires forall i :: 0 <= i < |moves| ==> moves[i].quantity < 0
    ensures Worth(moves) == -CostOut(moves)
  {
    if moves != [] {
      WorthOfTaken(moves[..|moves| - 1]);
      var m := moves[|moves| - 1];
      assert -m.quantity * m.unitCost == -(m.quantity * m.unitCost);
    }
  }

  /** An invoice that is deducted takes what its tracked lines ask for, per product and variant, at their
      present cost, and posts nothing. */
  lemma InvoiceTakes(s: State, number: nat, warehouse: nat, lines: seq<InvoiceLine>, product: nat, variant: Option<nat>, place: nat)
    requires WellFormed(s.shelf) && TransactionsOk(s)
    requires Happened(s, Step(s, Invoice(number, warehouse, lines)), InvoiceTx(number))
    ensures var after, p := Step(s, Invoice(number, warehouse, lines)), OfItem(product, variant, place);
            && Stocked(after.shelf, p)
               == Stocked(s.shelf, p) - (if place == warehouse then AskedTracked(lines, product, variant) else 0)
            && RecordedWorth(after.ledger, InvoiceTx(number)) == -TrackedCost(lines)
            && after.books == s.books && after.transactions == s.transactions + {InvoiceTx(number)}
  {
    hide InvoiceMoves, Stocked, WellFormed;
    var moves, after := InvoiceMoves(s, warehouse, TrackedLines(lines)).value, Step(s, Invoice(number, warehouse, lines));
    assert after.books == s.books + [];
    InvoiceTotals(s, warehouse, TrackedLines(lines), product, variant, place);
    TrackedAsked(lines, product, variant);
    StockedAddAll(s.shelf, moves, OfItem(product, variant, place));
    InvoiceCosts(s, warehouse, TrackedLines(lines));
    TrackedCostIs(lines);
    InvoiceMovesAreNegative(s, warehouse, TrackedLines(lines));
    WorthOfTaken(moves);
    RecordedWorthAppend(s.ledger, InvoiceTx(number), moves);
  }

  // ---------------------------------------------------------------- sales and cancellations

  /** Whole cents, and nothing for what is not positive. */
  function Cents(x: real): int
  {
    if RoundHalfUp(x) > 0 then RoundHalfUp(x) else 0
  }

  predicate AmountsAgree(a: Books.SaleAmounts)
  {
    Cents(a.total) + Cents(a.discount) == Cents(a.subtotal) + Cents(a.tax)
  }

  /** What a sale adds to an account, debits less credits. */
  function SoldNet(a: Books.SaleAmounts, cost: int, account: Books.Account): int
  {
    match account
    case AccountsReceivable => Cents(a.total)
    case Discounts => Cents(a.discount)
    case SalesRevenue => -Cents(a.subtotal)
    case TaxPayable => -Cents(a.tax)
    case Cogs => Fifo.Max(0, cost)
    case InventoryAsset => -Fifo.Max(0, cost)
    case _ => 0
  }

  lemma SaleNets(a: Books.SaleAmounts, cost: int, account: Books.Account)
    ensures var entries := Books.SaleEntries(Books.Quantize(a), cost);
            && (Books.Posting(entries).Ok? <==> AmountsAgree(a))
            && (Books.Posting(entries).Ok? ==> Books.Net(Books.Posting(entries).value, account) == SoldNet(a, cost, account))
  {
    var cents := Books.Quantize(a);
    Books.SalePostsExactly(cents, cost);
    Books.SaleTotals(cents, cost, account);
    Books.PairTotals(Books.Cogs, Books.InventoryAsset, cost, account);
    Books.PostingAcceptsExactly(Books.SaleEntries(cents, cost), account);
  }

  /** Whether the stock part of a sale can be done: without a warehouse only if nothing is tracked. */
  predicate SaleFits(shelf: Shelf, sale: Sale)
  {
    if sale.warehouse.Some? then EnoughForTracked(shelf, sale.warehouse.value, sale.items)
    else forall i :: 0 <= i < |sale.items| ==> !sale.items[i].product.tracked
  }

  /** A sale takes place exactly if it did not before, its stock part can be done and its amounts agree.
      Otherwise nothing changes. */
  lemma SaleTakesPlaceExactly(s: State, sale: Sale)
    requires WellFormed(s.shelf)
    ensures var after := Step(s, Sell(sale));
            && (Happened(s, after, SaleTx(sale.id)) <==>
                  SaleTx(sale.id) !in s.transactions && SaleFits(s.shelf, sale) && AmountsAgree(sale.amounts))
            && (!Happened(s, after, SaleTx(sale.id)) ==> after == s)
  {
    hide SaleMoves, EnoughForTracked, WellFormed;
    if sale.warehouse.Some? {
      SaleFitsExactly(s, sale.warehouse.value, sale.items);
      CostsAgree(s, sale.warehouse.value, sale.items);
    }
    SaleNets(sale.amounts, ItemsCost(sale.items), Books.Cogs);
  }

  /** A sale that takes place takes what its items ask for, per product and variant over all batches, and
      posts its amounts and the cost of its items. */
  lemma SaleTakes(s: State, sale: Sale, product: nat, variant: Option<nat>, place: nat, account: Books.Account)
    requires WellFormed(s.shelf) && Happened(s, Step(s, Sell(sale)), SaleTx(sale.id))
    ensures var after, p := Step(s, Sell(sale)), OfItem(product, variant, place);
            && Stocked(after.shelf, p)
               == Stocked(s.shelf, p) - (if sale.warehouse == Some(place) then UnitsOf(sale.items, product, variant) else 0)
            && BookNet(after.books, account) == BookNet(s.books, account) + SoldNet(sale.amounts, ItemsCost(sale.items), account)
            && after.transactions == s.transactions + {SaleTx(sale.id)}
  {
    hide SaleMoves, Stocked, WellFormed, UnitsOf, ItemsCost;
    SellEffect(s, sale, product, variant, place);
    ExecuteTotals(s, SellOutcome(s, sale), OfItem(product, variant, place));
    SaleNets(sale.amounts, ItemsCost(sale.items), account);
    BookNetAppend(s.books, SaleTx(sale.id), SellOutcome(s, sale).lines, account);
  }

  /** The product is tracked nowhere in the sale. */
  predicate Untracked(items: seq<SaleItem>, product: nat)
  {
    forall i :: 0 <= i < |items| && items[i].product.id == product ==> !items[i].product.tracked
  }

  lemma {:induction false} UntrackedRow(s: State, warehouse: nat, items: seq<SaleItem>, cell: Cell)
    requires SaleMoves(s, warehouse, items).Some? && Untracked(items, cell.product)
    ensures Moved(SaleMoves(s, warehouse, items).value, Only(cell))
         == if cell.batch.None? && cell.warehouse == warehouse then -UnitsOf(items, cell.product, cell.variant) else 0
  {
    if items != [] {
      var front, item := SaleMoves(s, warehouse, items[..|items| - 1]).value, items[|items| - 1];
      UntrackedRow(s, warehouse, items[..|items| - 1], cell);
      var now := AddAll(s.shelf, front);
      var more := SaleItemMoves(s.expiry, now, warehouse, item).value;
      var f := (m: Move) => if Only(cell)(m.cell) then m.quantity else 0;
      TotalAppend(front, more, f);
      if item.product.tracked {
        var order := FifoOrder(s.expiry, now, item.product.id, item.variant, warehouse);
        FifoOrderIsOfItem(s.expiry, now, item.product.id, item.variant, warehouse, Only(cell), false);
        DeductTotals(now, order, item.units, item.product.cost, Only(cell), false);
      } else {
        TotalOfOne(Move(DefaultCell(item, warehouse), 0 - item.units, item.product.cost), f);
      }
    }
  }

  /** Of an untracked product a sale takes only from the row without a batch, below zero if need be. */
  lemma UntrackedSaleTakes(s: State, sale: Sale, cell: Cell)
    requires Happened(s, Step(s, Sell(sale)), SaleTx(sale.id)) && Untracked(sale.items, cell.product)
    ensures Get(Step(s, Sell(sale)).shelf, cell)
         == Get(s.shelf, cell)
            - if cell.batch.None? && sale.warehouse == Some(cell.warehouse) then UnitsOf(sale.items, cell.product, cell.variant) else 0
  {
    hide SaleMoves, UnitsOf;
    AddAllGet(s.shelf, SellOutcome(s, sale).moves, cell);
    if sale.warehouse.Some? { UntrackedRow(s, sale.warehouse.value, sale.items, cell); }
  }

  lemma RestoredRow(warehouse: nat, items: seq<SaleItem>, cell: Cell)
    ensures Moved(RestoreMoves(warehouse, items), Only(cell))
         == if cell.batch.None? && cell.warehouse == warehouse then UnitsOf(items, cell.product, cell.variant) else 0
  {
    UnbatchedTotals(RestoreMoves(warehouse, items), cell);
    RestoreTotals(warehouse, items, cell.product, cell.variant, cell.warehouse);
  }

  /** A cancellation takes place exactly if it did not before and the amounts agree. It puts the units of
      all items on the rows without a batch and takes back what a sale of them posts. */
  lemma CancelTakesPlace(s: State, sale: Sale, cell: Cell, account: Books.Account)
    ensures var after := Step(s, Cancel(sale));
            && (Happened(s, after, CancelTx(sale.id)) <==> CancelTx(sale.id) !in s.transactions && AmountsAgree(sale.amounts))
            && if Happened(s, after, CancelTx(sale.id)) then
                 && Get(after.shelf, cell)
                    == Get(s.shelf, cell) + (if cell.batch.None? && sale.warehouse == Some(cell.warehouse)
                                             then UnitsOf(sale.items, cell.product, cell.variant) else 0)
                 && BookNet(after.books, account) == BookNet(s.books, account) - SoldNet(sale.amounts, ItemsCost(sale.items), account)
               else after == s
  {
    hide UnitsOf, ItemsCost;
    CancelAcceptedExactly(s, sale);
    SaleNets(sale.amounts, ItemsCost(sale.items), account);
    var o := CancelOutcome(s, sale);
    if o.Apply? {
      CancelEffect(s, sale, cell.product, cell.variant, cell.warehouse);
      CancelIsUnbatched(s, sale);
      UnbatchedTotals(o.moves, cell);
      AddAllGet(s.shelf, o.moves, cell);
      Books.CancellationNetsToZero(Books.Quantize(sale.amounts), ItemsCost(sale.items), account);
      BookNetAppend(s.books, o.tx, o.lines, account);
    }
  }

  // ---------------------------------------------------------------- customer returns

  predicate AnyRestocked(items: seq<ReturnItem>)
  {
    exists i :: 0 <= i < |items| && items[i].restock
  }

  function MarkedUnits(items: seq<ReturnItem>, product: nat, variant: Option<nat>): int
  {
    Total(items, (i: ReturnItem) =>
      if i.restock && i.item.product.id == product && i.item.variant == variant then i.item.units else 0)
  }

  function MarkedCost(items: seq<ReturnItem>): int
  {
    Total(items, (i: ReturnItem) => if i.restock then i.item.units * i.item.product.cost else 0)
  }

  function CostOfAll(items: seq<ReturnItem>): int
  {
    Total(items, (i: ReturnItem) => i.item.units * i.item.product.cost)
  }

  /** What a return posts back to inventory: the cost of what is restocked or, if nothing is, of all. */
  function CostPutBack(items: seq<ReturnItem>): int
  {
    if AnyRestocked(items) then MarkedCost(items) else CostOfAll(items)
  }

  lemma {:induction false} RestockedAre(items: seq<ReturnItem>, product: nat, variant: Option<nat>)
    ensures Restocked(items) == [] <==> !AnyRestocked(items)
    ensures UnitsOf(Restocked(items), product, variant) == MarkedUnits(items, product, variant)
    ensures ItemsCost(Restocked(items)) == MarkedCost(items)
  {
    if items != [] {
      var front, last := items[..|items| - 1], items[|items| - 1];
      RestockedAre(front, product, variant);
      assert AnyRestocked(items) <==> AnyRestocked(front) || last.restock by {
        assert forall i :: 0 <= i < |front| ==> front[i] == items[i];
      }
      if last.restock {
        var f := (i: SaleItem) => if i.product.id == product && i.variant == variant then i.units else 0;
        var g := (i: SaleItem) => i.units * i.product.cost;
        TotalAppend(Restocked(front), [last.item], f);
        TotalOfOne(last.item, f);
        TotalAppend(Restocked(front), [last.item], g);
        TotalOfOne(last.item, g);
      } else {
        assert Restocked(items) == Restocked(front);
      }
    }
  }

  lemma ReturnCosts(r: SaleReturn)
    ensures var moves := if r.warehouse.None? then [] else RestoreMoves(r.warehouse.value, Restocked(r.items));
            AnyRestocked(r.items) ==> r.warehouse.Some? ==> RestockCost(moves, ReturnedItems(r.items)) == CostPutBack(r.items)
    ensures !AnyRestocked(r.items) ==> RestockCost([], ReturnedItems(r.items)) == CostPutBack(r.items)
  {
    RestockedAre(r.items, 0, None);
    if r.warehouse.Some? { RestoreTotals(r.warehouse.value, Restocked(r.items), 0, None, 0); }
    TotalsAgree(ReturnedItems(r.items), r.items, (i: SaleItem) => i.units * i.product.cost,
                (i: ReturnItem) => i.item.units * i.item.product.cost);
  }

  lemma ReturnOutcomeIs(s: State, r: SaleReturn)
    requires ReturnTx(r.id) !in s.transactions && (AnyRestocked(r.items) ==> r.warehouse.Some?)
    ensures var moves := if r.warehouse.None? then [] else RestoreMoves(r.warehouse.value, Restocked(r.items));
            ReturnOutcome(s, r) == Post(ReturnTx(r.id), moves, Books.SaleReturnEntries(RoundHalfUp(r.refund), CostPutBack(r.items)))
  {
    RestockedAre(r.items, 0, None);
    ReturnCosts(r);
    if !AnyRestocked(r.items) && r.warehouse.Some? { assert RestoreMoves(r.warehouse.value, []) == []; }
  }

  /** A customer return is refused only as a repetition, or when something is to be restocked and there is
      no place for it. It puts exactly the units of the items marked for restocking on the rows without a
      batch, and posts the refund and the cost it puts back. */
  lemma ReturnTakesPlace(s: State, r: SaleReturn, cell: Cell, account: Books.Account)
    ensures var after := Step(s, Return(r));
            && (Happened(s, after, ReturnTx(r.id)) <==>
                  ReturnTx(r.id) !in s.transactions && (AnyRestocked(r.items) ==> r.warehouse.Some?))
            && if Happened(s, after, ReturnTx(r.id)) then
                 && Get(after.shelf, cell)
                    == Get(s.shelf, cell) + (if cell.batch.None? && r.warehouse == Some(cell.warehouse)
                                             then MarkedUnits(r.items, cell.product, cell.variant) else 0)
                 && BookNet(after.books, account)
                    == BookNet(s.books, account) + (match account
                                                    case SalesRevenue => Cents(r.refund)
                                                    case AccountsReceivable => -Cents(r.refund)
                                                    case InventoryAsset => Fifo.Max(0, CostPutBack(r.items))
                                                    case Cogs => -Fifo.Max(0, CostPutBack(r.items))
                                                    case _ => 0)
               else after == s
  {
    hide UnitsOf, ItemsCost, MarkedUnits, CostPutBack, RestockCost, AnyRestocked;
    RestockedAre(r.items, cell.product, cell.variant);
    if ReturnTx(r.id) !in s.transactions && (AnyRestocked(r.items) ==> r.warehouse.Some?) {
      ReturnOutcomeIs(s, r);
      Books.SaleReturnPosts(RoundHalfUp(r.refund), CostPutBack(r.items), account);
      var o := ReturnOutcome(s, r);
      AddAllGet(s.shelf, o.moves, cell);
      if r.warehouse.Some? { RestoredRow(r.warehouse.value, Restocked(r.items), cell); }
      BookNetAppend(s.books, o.tx, o.lines, account);
    }
  }

  /** Inventory gains the cost of what goes back to stock exactly if, where nothing goes back, the items
      cost nothing, and where something does, its cost is not negative. */
  lemma ReturnBooksExactly(s: State, r: SaleReturn)
    requires Happened(s, Step(s, Return(r)), ReturnTx(r.id))
    ensures BookNet(Step(s, Return(r)).books, Books.InventoryAsset) == BookNet(s.books, Books.InventoryAsset) + MarkedCost(r.items)
       <==> if AnyRestocked(r.items) then MarkedCost(r.items) >= 0 else CostOfAll(r.items) <= 0
  {
    ReturnTakesPlace(s, r, Cell(0, None, None, 0), Books.InventoryAsset);
    RestockedAre(r.items, 0, None);
  }

  /** One damaged unit that cost a dollar is refunded and not restocked: no row changes, and inventory
      gains the dollar. */
  lemma DamagedReturnAddsInventory(s: State, id: nat, product: nat, warehouse: Option<nat>, cell: Cell)
    requires ReturnTx(id) !in s.transactions
    ensures var item := ReturnItem(SaleItem(Product(product, true, 100), None, 1), false);
            var after := Step(s, Return(SaleReturn(id, warehouse, [item], 150.0)));
            && Happened(s, after, ReturnTx(id)) && Get(after.shelf, cell) == Get(s.shelf, cell)
            && BookNet(after.books, Books.InventoryAsset) == BookNet(s.books, Books.InventoryAsset) + 100
  {
    var item := ReturnItem(SaleItem(Product(product, true, 100), None, 1), false);
    var r := SaleReturn(id, warehouse, [item], 150.0);
    assert !AnyRestocked(r.items);
    TotalOfOne(item, (i: ReturnItem) => i.item.units * i.item.product.cost);
    TotalOfOne(item, (i: ReturnItem) =>
      if i.restock && i.item.product.id == cell.product && i.item.variant == cell.variant then i.item.units else 0);
    ReturnTakesPlace(s, r, cell, Books.InventoryAsset);
  }

  // ---------------------------------------------------------------- adjustments and transfers

  lemma SameBooks(s: State, o: Outcome)
    requires o.Apply? ==> o.lines == []
    ensures Execute(s, o).books == s.books
  {
  }

  /** An adjustment is approved once: it changes its row by the requested quantity, no other, and leaves
      one entry. */
  lemma AdjustmentTakesPlace(s: State, request: nat, move: Move, cell: Cell)
    ensures var after := Step(s, Adjust(request, move));
            if AdjustmentTx(request) in s.transactions then after == s
            else
              && after.transactions == s.transactions + {AdjustmentTx(request)} && after.books == s.books
              && after.ledger == s.ledger + [Record(AdjustmentTx(request), move)]
              && Get(after.shelf, cell) == Get(s.shelf, cell) + if cell == move.cell then move.quantity else 0
  {
    if AdjustmentTx(request) !in s.transactions {
      AdjustmentMovesItsRow(s, request, move, cell);
      SameBooks(s, AdjustOutcome(s, request, move));
    }
  }

  function RowIn(warehouse: nat, i: TransferItem): Cell
  {
    Cell(i.product.id, i.variant, i.batch, warehouse)
  }

  /** What transferred items take from a row of their warehouse, or add to it. */
  function Carried(items: seq<TransferItem>, warehouse: nat, cell: Cell): int
  {
    Total(items, (i: TransferItem) => if RowIn(warehouse, i) == cell then i.quantity else 0)
  }

  lemma PairMoves(source: nat, destination: nat, i: TransferItem, cell: Cell)
    ensures Moved(TransferPair(source, destination, i), Only(cell))
         == (if RowIn(destination, i) == cell then i.quantity else 0) - (if RowIn(source, i) == cell then i.quantity else 0)
  {
    var pair, f := TransferPair(source, destination, i), (m: Move) => if Only(cell)(m.cell) then m.quantity else 0;
    assert pair == [pair[0]] + [pair[1]];
    TotalAppend([pair[0]], [pair[1]], f);
    TotalOfOne(pair[0], f);
    TotalOfOne(pair[1], f);
  }

  lemma {:induction false} TransferCarries(shelf: Shelf, source: nat, destination: nat, items: seq<TransferItem>, cell: Cell)
    requires TransferMoves(shelf, source, destination, items).Some?
    ensures Moved(TransferMoves(shelf, source, destination, items).value, Only(cell))
         == Carried(items, destination, cell) - Carried(items, source, cell)
  {
    if items != [] {
      var front := items[..|items| - 1];
      TransferCarries(shelf, source, destination, front, cell);
      PairMoves(source, destination, items[|items| - 1], cell);
      TotalAppend(TransferMoves(shelf, source, destination, front).value,
                  TransferPair(source, destination, items[|items| - 1]),
                  (m: Move) => if Only(cell)(m.cell) then m.quantity else 0);
    }
  }

  /** A row exists after moves if it did before or one of them is on it. */
  lemma {:induction false} RowsAfter(shelf: Shelf, moves: seq<Move>, cell: Cell)
    ensures cell in AddAll(shelf, moves).quantity
       <==> cell in shelf.quantity || exists i :: 0 <= i < |moves| && moves[i].cell == cell
  {
    if moves != [] {
      var front := moves[..|moves| - 1];
      RowsAfter(shelf, front, cell);
      assert forall i :: 0 <= i < |front| ==> front[i] == moves[i];
    }
  }

  predicate SourcesExist(shelf: Shelf, source: nat, items: seq<TransferItem>)
  {
    forall i :: 0 <= i < |items| ==> RowIn(source, items[i]) in shelf.quantity
  }

  lemma {:induction false} TransferRows(shelf: Shelf, source: nat, destination: nat, items: seq<TransferItem>)
    ensures TransferMoves(shelf, source, destination, items).Some? <==> SourcesExist(shelf, source, items)
    ensures TransferMoves(shelf, source, destination, items).Some? ==>
              forall k :: 0 <= k < |TransferMoves(shelf, source, destination, items).value| ==>
                var m := TransferMoves(shelf, source, destination, items).value[k];
                m.cell in shelf.quantity || (m.cell.warehouse == destination && source != destination)
  {
    if items != [] {
      var front, last := items[..|items| - 1], items[|items| - 1];
      TransferRows(shelf, source, destination, front);
      assert SourcesExist(shelf, source, items) <==> SourcesExist(shelf, source, front) && RowIn(source, last) in shelf.quantity by {
        assert forall i :: 0 <= i < |front| ==> front[i] == items[i];
      }
      if TransferMoves(shelf, source, destination, front).Some? {
        RowsAfter(shelf, TransferMoves(shelf, source, destination, front).value, RowIn(source, last));
      }
    }
  }

  /** A transfer, single or of many items: it takes place exactly if it did not before and all source rows
      exist. Every row loses what leaves it and gains what arrives in it; the books stay as they are. */
  lemma TransferTakesPlace(s: State, tx: TxId, source: nat, destination: nat, items: seq<TransferItem>, cell: Cell)
    ensures var after := Execute(s, TransferOutcome(s, tx, source, destination, items));
            && (Happened(s, after, tx) <==> tx !in s.transactions && SourcesExist(s.shelf, source, items))
            && if Happened(s, after, tx) then
                 && Get(after.shelf, cell) == Get(s.shelf, cell) - Carried(items, source, cell) + Carried(items, destination, cell)
                 && after.books == s.books && after.transactions == s.transactions + {tx}
               else after == s
  {
    hide Carried, SourcesExist, TransferMoves;
    TransferRows(s.shelf, source, destination, items);
    var o := TransferOutcome(s, tx, source, destination, items);
    if o.Apply? {
      TransferCarries(s.shelf, source, destination, items, cell);
      AddAllGet(s.shelf, o.moves, cell);
      SameBooks(s, o);
    }
  }

  /** A transfer of one item takes from the source row what it adds to the destination row, and touches no
      other; a transfer of a warehouse to itself changes nothing. It is refused exactly if the source row
      does not exist. */
  lemma TransferShifts(s: State, uid: nat, source: nat, destination: nat, item: TransferItem, cell: Cell)
    requires TransferTx(uid) !in s.transactions
    ensures var from, to := Cell(item.product.id, item.variant, item.batch, source), Cell(item.product.id, item.variant, item.batch, destination);
            var after := Step(s, Transfer(uid, source, destination, item));
            if from !in s.shelf.quantity then after == s
            else
              && TransferTx(uid) in after.transactions
              && Get(after.shelf, cell)
                 == Get(s.shelf, cell) - (if cell == from then item.quantity else 0) + (if cell == to then item.quantity else 0)
  {
    TransferTakesPlace(s, TransferTx(uid), source, destination, [item], cell);
    TotalOfOne(item, (i: TransferItem) => if RowIn(source, i) == cell then i.quantity else 0);
    TotalOfOne(item, (i: TransferItem) => if RowIn(destination, i) == cell then i.quantity else 0);
  }

  /** A bulk transfer is made for all items or none. */
  lemma BulkTransferTakesPlace(s: State, uid: nat, source: nat, destination: nat, items: seq<TransferItem>, cell: Cell)
    ensures var after := Step(s, BulkTransfer(uid, source, destination, items));
            if items != [] && BulkTransferTx(uid) !in s.transactions && SourcesExist(s.shelf, source, items) then
              && Get(after.shelf, cell) == Get(s.shelf, cell) - Carried(items, source, cell) + Carried(items, destination, cell)
              && after.books == s.books && after.transactions == s.transactions + {BulkTransferTx(uid)}
            else after == s
  {
    TransferTakesPlace(s, BulkTransferTx(uid), source, destination, items, cell);
  }

  lemma {:induction false} TransferEntry(shelf: Shelf, source: nat, destination: nat, items: seq<TransferItem>, k: nat)
    requires TransferMoves(shelf, source, destination, items).Some? && k < |items|
    ensures var moves, i := TransferMoves(shelf, source, destination, items).value, items[k];
            && |moves| == 2 * |items|
            && moves[2 * k] == Move(RowIn(source, i), -i.quantity, i.product.cost)
            && moves[2 * k + 1] == Move(RowIn(destination, i), i.quantity, i.product.cost)
  {
    var front := items[..|items| - 1];
    if front != [] { TransferEntry(shelf, source, destination, front, if k < |front| then k else 0); }
  }

  /** The entries of a transfer, two for each item: out of the source row and into the destination row, at
      the item's cost. */
  lemma TransferIsRecorded(s: State, tx: TxId, source: nat, destination: nat, items: seq<TransferItem>, k: nat)
    requires Happened(s, Execute(s, TransferOutcome(s, tx, source, destination, items)), tx) && k < |items|
    ensures var after, n, i := Execute(s, TransferOutcome(s, tx, source, destination, items)).ledger, |s.ledger|, items[k];
            && s.ledger <= after && |after| == n + 2 * |items|
            && after[n + 2 * k] == Record(tx, Move(Cell(i.product.id, i.variant, i.batch, source), -i.quantity, i.product.cost))
            && after[n + 2 * k + 1] == Record(tx, Move(Cell(i.product.id, i.variant, i.batch, destination), i.quantity, i.product.cost))
  {
    TransferEntry(s.shelf, source, destination, items, k);
  }

  lemma {:induction false} CountEntry(warehouse: nat, items: seq<CountItem>, m: Move)
    ensures m in CountMoves(warehouse, items) <==>
              exists i :: 0 <= i < |items| && items[i].counted != items[i].expected && m == VarianceMove(warehouse, items[i])
  {
    if items != [] {
      var front, last := items[..|items| - 1], items[|items| - 1];
      CountEntry(warehouse, front, m);
      assert items == front + [last];
    }
  }

  /** What a variance moves. */
  function VarianceMove(warehouse: nat, i: CountItem): Move
  {
    Move(Cell(i.product.id, i.variant, None, warehouse), i.counted - i.expected, i.product.cost)
  }

  /** A count leaves one entry for each item that was not as expected, at the item's cost, and nothing else;
      it leaves the books as they are. */
  lemma CountIsRecorded(s: State, count: nat, warehouse: nat, items: seq<CountItem>, m: Move)
    requires CountTx(count) !in s.transactions
    ensures var after := Step(s, Count(count, warehouse, items));
            && s.ledger <= after.ledger && after.books == s.books
            && |after.ledger| == |s.ledger| + Total(items, (i: CountItem) => if i.counted != i.expected then 1 else 0)
            && (Record(CountTx(count), m) in after.ledger[|s.ledger|..] <==>
                  exists i :: 0 <= i < |items| && items[i].counted != items[i].expected && m == VarianceMove(warehouse, items[i]))
  {
    var moves := CountMoves(warehouse, items);
    CountEntry(warehouse, items, m);
    CountEntries(warehouse, items);
    SameBooks(s, CountOutcome(s, count, warehouse, items));
    assert Step(s, Count(count, warehouse, items)).ledger[|s.ledger|..] == Records(CountTx(count), moves);
    assert m in moves <==> exists i :: 0 <= i < |moves| && moves[i] == m;
  }

  lemma {:induction false} CountEntries(warehouse: nat, items: seq<CountItem>)
    ensures |CountMoves(warehouse, items)| == Total(items, (i: CountItem) => if i.counted != i.expected then 1 else 0)
  {
    if items != [] { CountEntries(warehouse, items[..|items| - 1]); }
  }

  /** Opening stock is recorded once, at the given cost, and sets its row, no other. */
  lemma OpeningTakesPlace(s: State, uid: nat, row: Cell, quantity: int, cost: int, cell: Cell)
    ensures var after := Step(s, Open(uid, row, quantity, cost));
            if OpeningTx(uid) in s.transactions then after == s
            else
              && after.transactions == s.transactions + {OpeningTx(uid)} && after.books == s.books
              && after.ledger == s.ledger + [Record(OpeningTx(uid), Move(row, quantity, cost))]
              && Get(after.shelf, cell) == if cell == row then quantity else Get(s.shelf, cell)
  {
  }

  // ---------------------------------------------------------------- receipts, returns to suppliers, payments

  /** Two lines always post: the transaction goes through and its cents move between the two accounts. */
  lemma PairTakesPlace(s: State, tx: TxId, moves: seq<Move>, debited: Books.Account, credited: Books.Account, cents: int,
                       account: Books.Account)
    requires debited != credited
    ensures var o := Post(tx, moves, Books.Pair(debited, credited, cents));
            && o.Apply? && o.tx == tx && o.moves == moves
            && BookNet(Execute(s, o).books, account)
               == BookNet(s.books, account)
                  + (if account == debited then Fifo.Max(0, cents) else if account == credited then -Fifo.Max(0, cents) else 0)
  {
    Books.PairPosts(debited, credited, cents, account);
    var o := Post(tx, moves, Books.Pair(debited, credited, cents));
    BookNetAppend(s.books, tx, o.lines, account);
  }

  /** What movements bring into a row. */
  function Arrived(lines: seq<ReceiptLine>, warehouse: nat, cell: Cell): int
  {
    Total(lines, (l: ReceiptLine) => if Cell(l.product, l.variant, l.batch, warehouse) == cell then l.quantity else 0)
  }

  lemma MovementsArrive(lines: seq<ReceiptLine>, warehouse: nat, cell: Cell)
    ensures Moved(ReceiptMoves(warehouse, InKeyOrder(lines)), Only(cell)) == Arrived(lines, warehouse, cell)
  {
    var sorted, f := InKeyOrder(lines), (l: ReceiptLine) =>
      if Cell(l.product, l.variant, l.batch, warehouse) == cell then l.quantity else 0;
    var moves, g := ReceiptMoves(warehouse, sorted), (m: Move) => if Only(cell)(m.cell) then m.quantity else 0;
    forall i | 0 <= i < |sorted| ensures g(moves[i]) == f(sorted[i]) {
      assert moves[i].cell == Cell(sorted[i].product, sorted[i].variant, sorted[i].batch, warehouse);
    }
    TotalsAgree(moves, sorted, g, f);
    InKeyOrderTotal(lines, f);
  }

  lemma ReceiptApplies(s: State, uid: nat, warehouse: nat, lines: seq<ReceiptLine>, cost: int, cell: Cell, account: Books.Account)
    ensures var o := ReceiptOutcome(s, uid, warehouse, lines, cost);
            if ReceiptTx(uid) in s.transactions then o == Refused(DuplicateTransaction)
            else
              && o.Apply?
              && Execute(s, o).transactions == s.transactions + {ReceiptTx(uid)}
              && Get(Execute(s, o).shelf, cell) == Get(s.shelf, cell) + Arrived(lines, warehouse, cell)
              && BookNet(Execute(s, o).books, account)
                 == BookNet(s.books, account) + (match account
                                                 case InventoryAsset => Fifo.Max(0, cost)
                                                 case AccountsPayable => -Fifo.Max(0, cost)
                                                 case _ => 0)
  {
    hide Arrived, InKeyOrder, Post, BookNet;
    if ReceiptTx(uid) !in s.transactions {
      var moves := ReceiptMoves(warehouse, InKeyOrder(lines));
      PairTakesPlace(s, ReceiptTx(uid), moves, Books.InventoryAsset, Books.AccountsPayable, cost, account);
      AddAllGet(s.shelf, moves, cell);
      MovementsArrive(lines, warehouse, cell);
    }
  }

  /** A receipt takes place once. Every row gains what the movements bring into it, of its batch, and the
      cost goes from payables to inventory. */
  lemma ReceiptTakesPlace(s: State, uid: nat, warehouse: nat, lines: seq<ReceiptLine>, cost: int, cell: Cell, account: Books.Account)
    ensures var after := Step(s, Receive(uid, warehouse, lines, cost));
            if ReceiptTx(uid) in s.transactions then after == s
            else
              && after.transactions == s.transactions + {ReceiptTx(uid)}
              && Get(after.shelf, cell) == Get(s.shelf, cell) + Arrived(lines, warehouse, cell)
              && BookNet(after.books, account)
                 == BookNet(s.books, account) + (match account
                                                 case InventoryAsset => Fifo.Max(0, cost)
                                                 case AccountsPayable => -Fifo.Max(0, cost)
                                                 case _ => 0)
  {
    hide Arrived, BookNet, ReceiptOutcome;
    ReceiptApplies(s, uid, warehouse, lines, cost, cell, account);
  }

  /** A customer's payment posts its whole cents to cash against receivables, once, and moves no stock. */
  lemma CollectTakesPlace(s: State, uid: nat, amount: real, account: Books.Account)
    ensures var after := Step(s, Collect(uid, amount));
            if PaymentTx(uid) in s.transactions then after == s
            else
              && after.shelf == s.shelf && after.ledger == s.ledger && after.transactions == s.transactions + {PaymentTx(uid)}
              && BookNet(after.books, account)
                 == BookNet(s.books, account) + (match account
                                                 case CashBank => Cents(amount)
                                                 case AccountsReceivable => -Cents(amount)
                                                 case _ => 0)
  {
    hide Post, BookNet, RoundHalfUp;
    PairTakesPlace(s, PaymentTx(uid), [], Books.CashBank, Books.AccountsReceivable, RoundHalfUp(amount), account);
  }

  /** A payment to a supplier posts its whole cents from cash to payables, once, and moves no stock. */
  lemma PayTakesPlace(s: State, uid: nat, amount: real, account: Books.Account)
    ensures var after := Step(s, Pay(uid, amount));
            if SupplierPaymentTx(uid) in s.transactions then after == s
            else
              && after.shelf == s.shelf && after.ledger == s.ledger && after.transactions == s.transactions + {SupplierPaymentTx(uid)}
              && BookNet(after.books, account)
                 == BookNet(s.books, account) + (match account
                                                 case AccountsPayable => Cents(amount)
                                                 case CashBank => -Cents(amount)
                                                 case _ => 0)
  {
    hide Post, BookNet, RoundHalfUp;
    PairTakesPlace(s, SupplierPaymentTx(uid), [], Books.AccountsPayable, Books.CashBank, RoundHalfUp(amount), account);
  }

  // ---------------------------------------------------------------- refusals

  /** Why an operation is refused, if it is: as a repetition first. An invoice without tracked lines, a void
      of an invoice without entries and an empty bulk transfer succeed and do nothing. */
  function Refusal(s: State, e: Event): Option<Error>
  {
    match e
    case Sell(sale) =>
      if SaleTx(sale.id) in s.transactions then Some(DuplicateTransaction)
      else if !SaleFits(s.shelf, sale) then Some(if sale.warehouse.Some? then OutOfStock else NoWarehouse)
      else if !AmountsAgree(sale.amounts) then Some(BooksRefused(Books.Unbalanced))
      else None
    case Cancel(sale) =>
      if CancelTx(sale.id) in s.transactions then Some(DuplicateTransaction)
      else if !AmountsAgree(sale.amounts) then Some(BooksRefused(Books.Unbalanced))
      else None
    case Return(r) =>
      if ReturnTx(r.id) in s.transactions then Some(DuplicateTransaction)
      else if AnyRestocked(r.items) && r.warehouse.None? then Some(NoLocation)
      else None
    case Adjust(request, _) => if AdjustmentTx(request) in s.transactions then Some(DuplicateTransaction) else None
    case Count(count, _, _) => if CountTx(count) in s.transactions then Some(DuplicateTransaction) else None
    case Transfer(uid, source, _, item) =>
      if TransferTx(uid) in s.transactions then Some(DuplicateTransaction)
      else if RowIn(source, item) !in s.shelf.quantity then Some(NoSourceRow)
      else None
    case BulkTransfer(uid, source, _, items) =>
      if items == [] then None
      else if BulkTransferTx(uid) in s.transactions then Some(DuplicateTransaction)
      else if !SourcesExist(s.shelf, source, items) then Some(NoSourceRow)
      else None
    case Invoice(number, warehouse, lines) =>
      if !(exists i :: 0 <= i < |lines| && lines[i].product.tracked) then None
      else if InvoiceTx(number) in s.transactions then Some(DuplicateTransaction)
      else if !EnoughTracked(s.shelf, warehouse, lines) then Some(OutOfStock)
      else None
    case Void(number) => if Invoiced(s.ledger, number) && VoidTx(number) in s.transactions then Some(DuplicateTransaction) else None
    case Receive(uid, _, _, _) => if ReceiptTx(uid) in s.transactions then Some(DuplicateTransaction) else None
    case Collect(uid, _) => if PaymentTx(uid) in s.transactions then Some(DuplicateTransaction) else None
    case Pay(uid, _) => if SupplierPaymentTx(uid) in s.transactions then Some(DuplicateTransaction) else None
    case _ => None
  }

  predicate RefusedAsStated(s: State, e: Event)
  {
    match OutcomeOf(s, e)
    case Refused(error) => Refusal(s, e) == Some(error)
    case _ => Refusal(s, e) == None
  }

  lemma SaleRefuses(s: State, sale: Sale)
    requires WellFormed(s.shelf)
    ensures RefusedAsStated(s, Sell(sale))
  {
    hide SaleMoves, SaleCogs, EnoughForTracked, WellFormed, ItemsCost, AmountsAgree, Books.Posting, Books.SaleEntries;
    if sale.warehouse.Some? {
      SaleFitsExactly(s, sale.warehouse.value, sale.items);
      CostsAgree(s, sale.warehouse.value, sale.items);
    }
    CostWithoutMoves(sale.items);
    SalePostingErrors(sale.amounts, ItemsCost(sale.items));
  }

  lemma CostWithoutMoves(items: seq<SaleItem>)
    ensures SaleCogs([], items) == ItemsCost(items) == RestockCost([], items)
  {
  }

  lemma CancellationRefuses(s: State, sale: Sale)
    ensures RefusedAsStated(s, Cancel(sale))
  {
    hide RestockCost, ItemsCost, AmountsAgree, Books.Posting, Books.CancellationEntries, RestoreMoves;
    if sale.warehouse.Some? { CostsAgree(s, sale.warehouse.value, sale.items); }
    CostWithoutMoves(sale.items);
    SalePostingErrors(sale.amounts, ItemsCost(sale.items));
  }

  lemma SalePostingErrors(a: Books.SaleAmounts, cost: int)
    ensures var sold, cancelled := Books.Posting(Books.SaleEntries(Books.Quantize(a), cost)),
                                   Books.Posting(Books.CancellationEntries(Books.Quantize(a), cost));
            && (sold.Ok? <==> AmountsAgree(a)) && (cancelled.Ok? <==> AmountsAgree(a))
            && (sold.Err? ==> sold.error == Books.Unbalanced) && (cancelled.Err? ==> cancelled.error == Books.Unbalanced)
  {
    var cents := Books.Quantize(a);
    SaleNets(a, cost, Books.Cogs);
    Books.SalePostsExactly(cents, cost);
    Books.CancellationPostsExactly(cents, cost);
    Books.SaleTotals(cents, cost, Books.Cogs);
    Books.CancellationTotals(cents, cost, Books.Cogs);
    Books.PostingAcceptsExactly(Books.SaleEntries(cents, cost), Books.Cogs);
    Books.PostingAcceptsExactly(Books.CancellationEntries(cents, cost), Books.Cogs);
  }

  lemma InvoicesRefuse(s: State, number: nat, warehouse: nat, lines: seq<InvoiceLine>)
    requires WellFormed(s.shelf) && forall i :: 0 <= i < |lines| ==> lines[i].quantity >= 0
    ensures RefusedAsStated(s, Invoice(number, warehouse, lines))
  {
    hide InvoiceMoves, EnoughForAll, EnoughTracked, WellFormed;
    var tracked := TrackedLines(lines);
    forall l ensures l in tracked <==> l in lines && l.product.tracked {
      TrackedLinesAre(lines, l);
    }
    EnoughTrackedIs(s.shelf, warehouse, lines);
    if i :| 0 <= i < |lines| && lines[i].product.tracked { assert lines[i] in tracked; }
    if tracked != [] { assert tracked[0] in lines; }
    forall k | 0 <= k < |tracked| ensures tracked[k].quantity >= 0 { assert tracked[k] in lines; }
    InvoiceFitsExactly(s, warehouse, tracked);
  }

  lemma ReturnRefuses(s: State, r: SaleReturn)
    requires TransactionsOk(s)
    ensures RefusedAsStated(s, Return(r))
  {
    RestockedAre(r.items, 0, None);
    if ReturnTx(r.id) !in s.transactions && (AnyRestocked(r.items) ==> r.warehouse.Some?) {
      ReturnOutcomeIs(s, r);
      Books.SaleReturnPosts(RoundHalfUp(r.refund), CostPutBack(r.items), Books.Cogs);
    }
  }

  lemma TransfersRefuse(s: State, e: Event)
    requires TransactionsOk(s) && (e.Transfer? || e.BulkTransfer?)
    ensures RefusedAsStated(s, e)
  {
    match e
    case Transfer(uid, source, destination, item) =>
      TransferRows(s.shelf, source, destination, [item]);
      assert SourcesExist(s.shelf, source, [item]) <==> RowIn(source, [item][0]) in s.shelf.quantity;
    case BulkTransfer(uid, source, destination, items) => TransferRows(s.shelf, source, destination, items);
  }

  lemma PairsRefuse(s: State, e: Event)
    requires TransactionsOk(s) && (e.Receive? || e.Collect? || e.Pay?)
    ensures RefusedAsStated(s, e)
  {
    match e
    case Receive(uid, warehouse, lines, cost) =>
      PairTakesPlace(s, ReceiptTx(uid), ReceiptMoves(warehouse, InKeyOrder(lines)), Books.InventoryAsset, Books.AccountsPayable, cost, Books.Cogs);
    case Collect(uid, amount) =>
      PairTakesPlace(s, PaymentTx(uid), [], Books.CashBank, Books.AccountsReceivable, RoundHalfUp(amount), Books.Cogs);
    case Pay(uid, amount) =>
      PairTakesPlace(s, SupplierPaymentTx(uid), [], Books.AccountsPayable, Books.CashBank, RoundHalfUp(amount), Books.Cogs);
  }

  lemma PlainRefuse(s: State, e: Event)
    requires TransactionsOk(s) && (e.Open? || e.Adjust? || e.Count? || e.Void? || e.DateBatch?)
    ensures RefusedAsStated(s, e)
  {
    if e.Void? { ReversalIsEmptyExactly(s.ledger, e.number); }
  }

  /** Every operation is refused for the stated reason, or not at all. Returns to suppliers are stated with
      what they ask for. */
  lemma RefusesExactly(s: State, e: Event)
    requires WellFormed(s.shelf) && TransactionsOk(s) && !e.SendBack?
    requires e.Invoice? ==> forall i :: 0 <= i < |e.invoiceLines| ==> e.invoiceLines[i].quantity >= 0
    ensures RefusedAsStated(s, e)
  {
    hide RefusedAsStated, TransactionsOk, WellFormed;
    if e.Sell? {
      SaleRefuses(s, e.sale);
    } else if e.Cancel? {
      CancellationRefuses(s, e.sale);
    } else if e.Invoice? {
      InvoicesRefuse(s, e.number, e.warehouse, e.invoiceLines);
    } else if e.Return? {
      ReturnRefuses(s, e.saleReturn);
    } else if e.Transfer? || e.BulkTransfer? {
      TransfersRefuse(s, e);
    } else if e.Receive? || e.Collect? || e.Pay? {
      PairsRefuse(s, e);
    } else {
      PlainRefuse(s, e);
    }
  }
}

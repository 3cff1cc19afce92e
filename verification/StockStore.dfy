/** The stock services as they run: rows updated one by one, entries collected and written at the end,
    everything rolled back when an exception is raised. Each method is proved to have exactly the
    outcome that the stock engine says. */
module StockStore {
  import opened Results
  import opened Sums
  import Fifo
  import Books
  import Rounding
  import opened Stock
  import opened StockInvariants
  import opened StockRuns

  function ErrorOf(o: Outcome): Option<Error>
  {
    if o.Refused? then Some(o.error) else None
  }

  /** The loop that sums up what sold units cost. */
  method CostOfGoods(entries: seq<Move>, items: seq<SaleItem>) returns (cogs: int)
    ensures cogs == SaleCogs(entries, items)
  {
    cogs := 0;
    if entries != [] {
      ghost var f := (m: Move) => if m.quantity < 0 then -m.quantity * m.unitCost else 0;
      assert entries[..0] == [];
      for i := 0 to |entries|
        invariant cogs == Total(entries[..i], f)
      {
        assert entries[..i + 1][..i] == entries[..i];
        if entries[i].quantity < 0 {
          cogs := cogs + -entries[i].quantity * entries[i].unitCost;
        }
      }
      assert entries[..|entries|] == entries;
    } else {
      cogs := CostOfItems(items);
    }
  }

  method CostOfItems(items: seq<SaleItem>) returns (cost: int)
    ensures cost == ItemsCost(items)
  {
    cost := 0;
    ghost var f := (i: SaleItem) => i.units * i.product.cost;
    for i := 0 to |items|
      invariant cost == Total(items[..i], f)
    {
      assert items[..i + 1][..i] == items[..i];
      cost := cost + items[i].units * items[i].product.cost;
    }
    assert items[..|items|] == items;
  }

  /** The loop that sums up what restocked units cost. */
  method CostOfRestocked(entries: seq<Move>, items: seq<SaleItem>) returns (cost: int)
    ensures cost == RestockCost(entries, items)
  {
    cost := 0;
    if entries != [] {
      ghost var f := (m: Move) => if m.quantity > 0 then m.quantity * m.unitCost else 0;
      assert entries[..0] == [];
      for i := 0 to |entries|
        invariant cost == Total(entries[..i], f)
      {
        assert entries[..i + 1][..i] == entries[..i];
        if entries[i].quantity > 0 {
          cost := cost + entries[i].quantity * entries[i].unitCost;
        }
      }
      assert entries[..|entries|] == entries;
    } else {
      cost := CostOfItems(items);
    }
  }

  /** A loop over items stops at the first one that cannot be served. */
  lemma {:induction false} UnservedStays(s: State, warehouse: nat, items: seq<SaleItem>, k: nat)
    requires k <= |items| && SaleMoves(s, warehouse, items[..k]).None?
    ensures SaleMoves(s, warehouse, items).None?
  {
    if k < |items| {
      assert items[..|items| - 1][..k] == items[..k];
      UnservedStays(s, warehouse, items[..|items| - 1], k);
    } else {
      assert items[..k] == items;
    }
  }

  lemma {:induction false} UninvoicedStays(s: State, warehouse: nat, lines: seq<InvoiceLine>, k: nat)
    requires k <= |lines| && InvoiceMoves(s, warehouse, lines[..k]).None?
    ensures InvoiceMoves(s, warehouse, lines).None?
  {
    if k < |lines| {
      assert lines[..|lines| - 1][..k] == lines[..k];
      UninvoicedStays(s, warehouse, lines[..|lines| - 1], k);
    } else {
      assert lines[..k] == lines;
    }
  }

  lemma {:induction false} UntransferredStays(shelf: Shelf, source: nat, destination: nat, items: seq<TransferItem>, k: nat)
    requires k <= |items| && TransferMoves(shelf, source, destination, items[..k]).None?
    ensures TransferMoves(shelf, source, destination, items).None?
  {
    if k < |items| {
      assert items[..|items| - 1][..k] == items[..k];
      UntransferredStays(shelf, source, destination, items[..|items| - 1], k);
    } else {
      assert items[..k] == items;
    }
  }

  lemma {:induction false} UnreturnedStays(shelf: Shelf, warehouse: nat, lines: seq<ReceiptLine>, k: nat)
    requires k <= |lines| && PurchaseReturnMoves(shelf, warehouse, lines[..k]).None?
    ensures PurchaseReturnMoves(shelf, warehouse, lines).None?
  {
    if k < |lines| {
      assert lines[..|lines| - 1][..k] == lines[..k];
      UnreturnedStays(shelf, warehouse, lines[..|lines| - 1], k);
    } else {
      assert lines[..k] == lines;
    }
  }

  /** The table stays a table; a state in agreement stays one. */
  lemma StepKeeps(s: State, e: Event)
    requires WellFormed(s.shelf)
    ensures WellFormed(Step(s, e).shelf)
    ensures Inv(s) && Fresh(s, e) ==> Inv(Step(s, e))
  {
    StepKeepsWellFormed(s, e);
    if Inv(s) && Fresh(s, e) { StepKeepsInv(s, e); }
  }

  lemma OutcomeKeeps(s: State, e: Event)
    requires WellFormed(s.shelf) && !e.Open? && !e.DateBatch?
    ensures WellFormed(Execute(s, OutcomeOf(s, e)).shelf)
    ensures Inv(s) ==> Inv(Execute(s, OutcomeOf(s, e)))
  {
    hide Inv, WellFormed;
    StepKeeps(s, e);
  }

  lemma InvoiceKeeps(s: State, number: nat, warehouse: nat, lines: seq<InvoiceLine>, t: State)
    requires WellFormed(s.shelf) && t == Execute(s, InvoiceOutcome(s, number, warehouse, lines))
    ensures WellFormed(t.shelf) && (Inv(s) ==> Inv(t))
  {
    hide Inv, InvoiceOutcome, WellFormed;
    OutcomeKeeps(s, Stock.Invoice(number, warehouse, lines));
  }

  lemma VoidKeeps(s: State, number: nat, t: State)
    requires WellFormed(s.shelf) && t == Execute(s, VoidOutcome(s, number))
    ensures WellFormed(t.shelf) && (Inv(s) ==> Inv(t))
  {
    hide Inv, VoidOutcome, WellFormed;
    OutcomeKeeps(s, Stock.Void(number));
  }

  lemma SendBackKeeps(s: State, uid: nat, warehouse: nat, lines: seq<ReceiptLine>, refund: int, t: State)
    requires WellFormed(s.shelf) && t == Execute(s, PurchaseReturnOutcome(s, uid, warehouse, lines, refund))
    ensures WellFormed(t.shelf) && (Inv(s) ==> Inv(t))
  {
    hide Inv, PurchaseReturnOutcome, WellFormed;
    OutcomeKeeps(s, Stock.SendBack(uid, warehouse, lines, refund));
  }

  lemma OpeningKeeps(s: State, uid: nat, cell: Cell, amount: int, cost: int)
    requires WellFormed(s.shelf)
    ensures WellFormed(OpenStock(s, uid, cell, amount, cost).shelf)
    ensures Inv(s) ==>
              (Inv(OpenStock(s, uid, cell, amount, cost)) <==> OpeningTx(uid) in s.transactions || Get(s.shelf, cell) == 0)
  {
    StepKeepsWellFormed(s, Stock.Open(uid, cell, amount, cost));
    if Inv(s) && OpeningTx(uid) !in s.transactions {
      OpeningStockAgreesExactly(s, uid, cell, amount, cost);
      if Get(s.shelf, cell) == 0 { OpeningStockKeepsInv(s, uid, cell, amount, cost); }
    }
  }

  /** A loop over items does one more: its moves follow those made so far. */
  lemma SaleOneMore(s: State, warehouse: nat, items: seq<SaleItem>, i: nat, made: seq<Move>, more: Option<seq<Move>>)
    requires i < |items| && SaleMoves(s, warehouse, items[..i]) == Some(made)
    requires more == SaleItemMoves(s.expiry, AddAll(s.shelf, made), warehouse, items[i])
    ensures more.None? ==> SaleMoves(s, warehouse, items) == None
    ensures more.Some? ==> SaleMoves(s, warehouse, items[..i + 1]) == Some(made + more.value)
    ensures more.Some? ==> AddAll(s.shelf, made + more.value) == AddAll(AddAll(s.shelf, made), more.value)
  {
    assert items[..i + 1][..i] == items[..i];
    if more.None? { UnservedStays(s, warehouse, items, i + 1); } else { AddAllAppend(s.shelf, made, more.value); }
  }

  lemma InvoiceOneMore(s: State, warehouse: nat, lines: seq<InvoiceLine>, i: nat, made: seq<Move>, more: Option<seq<Move>>)
    requires i < |lines| && InvoiceMoves(s, warehouse, lines[..i]) == Some(made)
    requires more == InvoiceLineMoves(s.expiry, AddAll(s.shelf, made), warehouse, lines[i])
    ensures more.None? ==> InvoiceMoves(s, warehouse, lines) == None
    ensures more.Some? ==> InvoiceMoves(s, warehouse, lines[..i + 1]) == Some(made + more.value)
    ensures more.Some? ==> AddAll(s.shelf, made + more.value) == AddAll(AddAll(s.shelf, made), more.value)
  {
    assert lines[..i + 1][..i] == lines[..i];
    if more.None? { UninvoicedStays(s, warehouse, lines, i + 1); } else { AddAllAppend(s.shelf, made, more.value); }
  }

  lemma ReturnOneMore(shelf: Shelf, warehouse: nat, lines: seq<ReceiptLine>, i: nat, made: seq<Move>, more: Option<seq<Move>>)
    requires i < |lines| && PurchaseReturnMoves(shelf, warehouse, lines[..i]) == Some(made)
    requires more == PurchaseReturnLineMoves(AddAll(shelf, made), warehouse, lines[i])
    ensures more.None? ==> PurchaseReturnMoves(shelf, warehouse, lines) == None
    ensures more.Some? ==> PurchaseReturnMoves(shelf, warehouse, lines[..i + 1]) == Some(made + more.value)
    ensures more.Some? ==> AddAll(shelf, made + more.value) == AddAll(AddAll(shelf, made), more.value)
  {
    assert lines[..i + 1][..i] == lines[..i];
    if more.None? { UnreturnedStays(shelf, warehouse, lines, i + 1); } else { AddAllAppend(shelf, made, more.value); }
  }

  lemma AddAllOneMore(shelf: Shelf, moves: seq<Move>, m: Move)
    ensures AddAll(shelf, moves + [m]) == Add(AddAll(shelf, moves), m.cell, m.quantity)
  {
    assert (moves + [m])[..|moves|] == moves;
  }

  // ---------------------------------------------------------------- the deduction loop, turn by turn

  /** What is left to take after `k` turns. */
  function RemainingAfter(q: seq<int>, requested: int, k: nat): int
    requires k <= |q|
  {
    if k == 0 then requested
    else
      var before := RemainingAfter(q, requested, k - 1);
      before - Fifo.TakeFrom(q[k - 1], before)
  }

  /** The entries collected in `k` turns. */
  function EntriesAfter(order: seq<Cell>, q: seq<int>, requested: int, cost: int, k: nat): seq<Move>
    requires k <= |q| == |order|
  {
    if k == 0 then []
    else
      var take := Fifo.TakeFrom(q[k - 1], RemainingAfter(q, requested, k - 1));
      var before := EntriesAfter(order, q, requested, cost, k - 1);
      if take > 0 then before + [Move(order[k - 1], -take, cost)] else before
  }

  lemma {:induction false} RemainingIsUntaken(q: seq<int>, requested: int, k: nat)
    requires k <= |q|
    ensures RemainingAfter(q, requested, k) == requested - Sum(Fifo.Takes(q, requested)[..k])
  {
    if k > 0 {
      RemainingIsUntaken(q, requested, k - 1);
      Fifo.TakeAt(q, requested, k - 1);
      assert Fifo.Takes(q, requested)[..k][..k - 1] == Fifo.Takes(q, requested)[..k - 1];
    }
  }

  lemma {:induction false} EntriesAreTakeMoves(order: seq<Cell>, q: seq<int>, requested: int, cost: int, k: nat)
    requires k <= |q| == |order|
    ensures EntriesAfter(order, q, requested, cost, k) == TakeMoves(order[..k], Fifo.Takes(q, requested)[..k], cost)
  {
    if k > 0 {
      EntriesAreTakeMoves(order, q, requested, cost, k - 1);
      RemainingIsUntaken(q, requested, k - 1);
      Fifo.TakeAt(q, requested, k - 1);
      var takes := Fifo.Takes(q, requested);
      assert takes[..k][..k - 1] == takes[..k - 1] && order[..k][..k - 1] == order[..k - 1];
    }
  }

  lemma {:induction false} NothingMoreIsTaken(order: seq<Cell>, q: seq<int>, requested: int, cost: int, k: nat, n: nat)
    requires k <= n <= |q| == |order| && RemainingAfter(q, requested, k) <= 0
    ensures EntriesAfter(order, q, requested, cost, n) == EntriesAfter(order, q, requested, cost, k)
    ensures RemainingAfter(q, requested, n) == RemainingAfter(q, requested, k)
  {
    if k < n { NothingMoreIsTaken(order, q, requested, cost, k, n - 1); }
  }

  /** When the loop stops, at the end or because nothing remains, it has made the deduction. */
  lemma LoopMakesDeduction(shelf: Shelf, order: seq<Cell>, requested: int, cost: int, k: nat)
    requires k <= |order|
    requires k < |order| ==> RemainingAfter(Quantities(shelf, order), requested, k) <= 0
    ensures EntriesAfter(order, Quantities(shelf, order), requested, cost, k) == DeductMoves(shelf, order, requested, cost)
  {
    var q, n := Quantities(shelf, order), |order|;
    if k < n { NothingMoreIsTaken(order, q, requested, cost, k, n); }
    EntriesAreTakeMoves(order, q, requested, cost, n);
    assert order[..n] == order && Fifo.Takes(q, requested)[..n] == Fifo.Takes(q, requested);
  }

  class Store {
    var quantity: map<Cell, int>
    var created: seq<Cell>
    var ledger: seq<Record>
    var books: seq<BookLine>
    var transactions: set<TxId>
    var expiry: map<nat, int>

    function Rows(): Shelf
      reads this
    {
      Shelf(quantity, created)
    }

    ghost predicate Valid()
      reads this
    {
      Inv(Contents())
    }

    function Contents(): State
      reads this
    {
      State(Rows(), ledger, books, transactions, expiry)
    }

    constructor ()
      ensures Contents() == EMPTY && Valid()
    {
      EmptyInv();
      quantity, created, ledger, books, transactions, expiry := map[], [], [], [], {}, map[];
    }

    /** `get_or_create` and `quantity += delta`. */
    method AddToRow(cell: Cell, delta: int)
      modifies this`quantity, this`created
      ensures Rows() == Add(old(Rows()), cell, delta)
    {
      if cell !in quantity {
        quantity := quantity[cell := 0];
        created := created + [cell];
      }
      quantity := quantity[cell := quantity[cell] + delta];
    }

    /** The end of a transaction that succeeds. */
    method Commit(tx: TxId, entries: seq<Move>, lines: seq<Books.Line>)
      modifies this`ledger, this`books, this`transactions
      ensures ledger == old(ledger) + Records(tx, entries)
      ensures books == old(books) + BookLines(tx, lines)
      ensures transactions == old(transactions) + {tx}
    {
      ledger := ledger + Records(tx, entries);
      books := books + BookLines(tx, lines);
      transactions := transactions + {tx};
    }

    /** The financial entries of a transaction whose rows are updated: it succeeds or is rolled back as
        a whole. */
    method Conclude(tx: TxId, entries: seq<Move>, lines: seq<Books.Line>, before: Shelf, ghost start: State)
      returns (r: Option<Error>)
      requires before == start.shelf && Contents() == start.(shelf := AddAll(start.shelf, entries))
      modifies this
      ensures Contents() == Execute(start, Post(tx, entries, lines))
      ensures r == ErrorOf(Post(tx, entries, lines))
    {
      var posted := Books.CreateFinancialEntries(Books.Entries(lines));
      if posted.Err? {
        Rollback(before);
        return Some(BooksRefused(posted.error));
      }
      Commit(tx, entries, posted.value);
      r := None;
    }

    /** A transaction without financial entries. */
    method Register(tx: TxId, entries: seq<Move>, ghost start: State)
      requires Contents() == start.(shelf := AddAll(start.shelf, entries))
      modifies this
      ensures Contents() == Execute(start, Apply(tx, entries, []))
    {
      Commit(tx, entries, []);
    }

    method Rollback(rows: Shelf)
      modifies this`quantity, this`created
      ensures Rows() == rows
    {
      quantity, created := rows.quantity, rows.created;
    }

    /** The rows still to come hold what they held. */
    ghost predicate Untouched(order: seq<Cell>, q: seq<int>, k: nat)
      requires |q| == |order|
      reads this
    {
      forall j :: k <= j < |order| ==> order[j] in quantity && quantity[order[j]] == q[j]
    }

    /** The body of the sale's loop: the row at `k` gives what it can, with a ledger entry if that is something. */
    method SaleTurn(order: seq<Cell>, k: nat, remaining: int, entries: seq<Move>, cost: int,
                    ghost start: Shelf, ghost requested: int)
      returns (left: int, more: seq<Move>)
      requires k < |order| && DistinctCells(order) && Untouched(order, Quantities(start, order), k)
      requires remaining > 0 && remaining == RemainingAfter(Quantities(start, order), requested, k)
      requires entries == EntriesAfter(order, Quantities(start, order), requested, cost, k)
      requires Rows() == AddAll(start, entries)
      modifies this`quantity
      ensures left == RemainingAfter(Quantities(start, order), requested, k + 1)
      ensures more == EntriesAfter(order, Quantities(start, order), requested, cost, k + 1)
      ensures Rows() == AddAll(start, more)
      ensures Untouched(order, Quantities(start, order), k + 1)
    {
      left, more := remaining, entries;
      var take := Fifo.Min(remaining, quantity[order[k]]);
      if take > 0 {
        AddAllOneMore(start, entries, Move(order[k], -take, cost));
        quantity := quantity[order[k] := quantity[order[k]] - take];
        left := remaining - take;
        more := entries + [Move(order[k], -take, cost)];
      }
    }

    /** The sale's loop over the rows of an item. */
    method DeductForSale(order: seq<Cell>, requested: int, cost: int) returns (entries: seq<Move>)
      requires DistinctCells(order) && forall c :: c in order ==> c in quantity
      modifies this`quantity
      ensures entries == DeductMoves(old(Rows()), order, requested, cost)
      ensures Rows() == AddAll(old(Rows()), entries)
    {
      ghost var start := Rows();
      entries := [];
      var remaining := requested;
      var k := 0;
      while k < |order| && remaining > 0
        invariant 0 <= k <= |order|
        invariant entries == EntriesAfter(order, Quantities(start, order), requested, cost, k)
        invariant remaining == RemainingAfter(Quantities(start, order), requested, k)
        invariant Rows() == AddAll(start, entries)
        invariant Untouched(order, Quantities(start, order), k)
      {
        remaining, entries := SaleTurn(order, k, remaining, entries, cost, start, requested);
        k := k + 1;
      }
      LoopMakesDeduction(start, order, requested, cost, k);
    }

    /** The body of the loop of the invoice and of the purchase return, with its early `continue`. */
    method InvoiceTurn(order: seq<Cell>, k: nat, remaining: int, entries: seq<Move>, cost: int,
                       ghost start: Shelf, ghost requested: int)
      returns (left: int, more: seq<Move>)
      requires k < |order| && DistinctCells(order) && Untouched(order, Quantities(start, order), k)
      requires remaining > 0 && remaining == RemainingAfter(Quantities(start, order), requested, k)
      requires entries == EntriesAfter(order, Quantities(start, order), requested, cost, k)
      requires Rows() == AddAll(start, entries)
      modifies this`quantity
      ensures left == RemainingAfter(Quantities(start, order), requested, k + 1)
      ensures more == EntriesAfter(order, Quantities(start, order), requested, cost, k + 1)
      ensures Rows() == AddAll(start, more)
      ensures Untouched(order, Quantities(start, order), k + 1)
    {
      var take := Fifo.Min(remaining, quantity[order[k]]);
      if take <= 0 { return remaining, entries; }
      AddAllOneMore(start, entries, Move(order[k], -take, cost));
      quantity := quantity[order[k] := quantity[order[k]] - take];
      left := remaining - take;
      more := entries + [Move(order[k], -take, cost)];
    }

    /** The loop of the invoice and of the purchase return over the rows of a line. */
    method DeductForInvoice(order: seq<Cell>, requested: int, cost: int) returns (entries: seq<Move>)
      requires DistinctCells(order) && forall c :: c in order ==> c in quantity
      modifies this`quantity
      ensures entries == DeductMoves(old(Rows()), order, requested, cost)
      ensures Rows() == AddAll(old(Rows()), entries)
    {
      ghost var start := Rows();
      entries := [];
      var remaining := requested;
      for k := 0 to |order|
        invariant entries == EntriesAfter(order, Quantities(start, order), requested, cost, k)
        invariant remaining == RemainingAfter(Quantities(start, order), requested, k)
        invariant Rows() == AddAll(start, entries)
        invariant Untouched(order, Quantities(start, order), k)
      {
        if remaining <= 0 {
          LoopMakesDeduction(start, order, requested, cost, k);
          return;
        }
        remaining, entries := InvoiceTurn(order, k, remaining, entries, cost, start, requested);
      }
      LoopMakesDeduction(start, order, requested, cost, |order|);
    }

    // -------------------------------------------------------------- sales

    method SellItem(item: SaleItem, warehouse: nat) returns (entries: Option<seq<Move>>)
      requires WellFormed(Rows())
      modifies this`quantity, this`created
      ensures entries == SaleItemMoves(expiry, old(Rows()), warehouse, item)
      ensures Rows() == if entries.Some? then AddAll(old(Rows()), entries.value) else old(Rows())
    {
      var order := FifoOrder(expiry, Rows(), item.product.id, item.variant, warehouse);
      var available := Available(Rows(), order);
      if available < item.units && item.product.tracked { return None; }
      if !item.product.tracked {
        var m := Move(DefaultCell(item, warehouse), 0 - item.units, item.product.cost);
        AddAllOneMore(Rows(), [], m);
        assert [] + [m] == [m];
        AddToRow(m.cell, m.quantity);
        return Some([m]);
      }
      FifoOrderIsDistinct(expiry, Rows(), item.product.id, item.variant, warehouse);
      var made := DeductForSale(order, item.units, item.product.cost);
      entries := Some(made);
    }

    method SellItems(items: seq<SaleItem>, warehouse: nat) returns (entries: Option<seq<Move>>)
      requires WellFormed(Rows())
      modifies this`quantity, this`created
      ensures entries == SaleMoves(old(Contents()), warehouse, items)
      ensures entries.Some? ==> Rows() == AddAll(old(Rows()), entries.value)
    {
      ghost var start := Contents();
      var made: seq<Move> := [];
      assert items[..0] == [];
      for i := 0 to |items|
        invariant SaleMoves(start, warehouse, items[..i]) == Some(made)
        invariant Rows() == AddAll(start.shelf, made)
      {
        AddAllKeepsWellFormed(start.shelf, made);
        var more := SellItem(items[i], warehouse);
        SaleOneMore(start, warehouse, items, i, made, more);
        if more.None? { return None; }
        made := made + more.value;
      }
      assert items[..|items|] == items;
      entries := Some(made);
    }

    method Sell(sale: Sale) returns (r: Option<Error>)
      requires WellFormed(Rows())
      modifies this
      ensures WellFormed(Rows()) && (old(Valid()) ==> Valid())
      ensures Contents() == Execute(old(Contents()), SellOutcome(old(Contents()), sale))
      ensures r == ErrorOf(SellOutcome(old(Contents()), sale))
    {
      ghost var start := Contents();
      hide Inv, WellFormed;
      OutcomeKeeps(start, Stock.Sell(sale));
      if SaleTx(sale.id) in transactions { return Some(DuplicateTransaction); }
      var before := Rows();
      var entries: seq<Move> := [];
      if sale.warehouse.None? {
        if exists i :: 0 <= i < |sale.items| && sale.items[i].product.tracked { return Some(NoWarehouse); }
      } else {
        var made := SellItems(sale.items, sale.warehouse.value);
        if made.None? {
          Rollback(before);
          return Some(OutOfStock);
        }
        entries := made.value;
      }
      var cogs := CostOfGoods(entries, sale.items);
      r := Conclude(SaleTx(sale.id), entries,
                    Books.SaleEntries(Books.Quantize(sale.amounts), cogs), before, start);
    }

    /** One row of a restocking loop: the row is credited and an entry collected. */
    method Credit(m: Move, before: seq<Move>, ghost start: Shelf) returns (entries: seq<Move>)
      requires Rows() == AddAll(start, before)
      modifies this`quantity, this`created
      ensures entries == before + [m] && Rows() == AddAll(start, entries)
    {
      AddAllOneMore(start, before, m);
      AddToRow(m.cell, m.quantity);
      entries := before + [m];
    }

    method RestockItems(items: seq<SaleItem>, warehouse: nat) returns (entries: seq<Move>)
      modifies this`quantity, this`created
      ensures entries == RestoreMoves(warehouse, items)
      ensures Rows() == AddAll(old(Rows()), entries)
    {
      ghost var start := Rows();
      entries := [];
      for i := 0 to |items|
        invariant entries == RestoreMoves(warehouse, items[..i])
        invariant Rows() == AddAll(start, entries)
      {
        var m := Move(DefaultCell(items[i], warehouse), items[i].units, items[i].product.cost);
        assert RestoreMoves(warehouse, items[..i + 1]) == RestoreMoves(warehouse, items[..i]) + [m];
        entries := Credit(m, entries, start);
      }
      assert items[..|items|] == items;
    }

    method Cancel(sale: Sale) returns (r: Option<Error>)
      requires WellFormed(Rows())
      modifies this
      ensures WellFormed(Rows()) && (old(Valid()) ==> Valid())
      ensures Contents() == Execute(old(Contents()), CancelOutcome(old(Contents()), sale))
      ensures r == ErrorOf(CancelOutcome(old(Contents()), sale))
    {
      ghost var start := Contents();
      hide Inv, WellFormed;
      OutcomeKeeps(start, Stock.Cancel(sale));
      if CancelTx(sale.id) in transactions { return Some(DuplicateTransaction); }
      var before := Rows();
      var entries: seq<Move> := [];
      if sale.warehouse.Some? {
        entries := RestockItems(sale.items, sale.warehouse.value);
      }
      var cogs := CostOfRestocked(entries, sale.items);
      r := Conclude(CancelTx(sale.id), entries,
                    Books.CancellationEntries(Books.Quantize(sale.amounts), cogs), before, start);
    }

    method RestockReturned(items: seq<ReturnItem>, warehouse: nat) returns (entries: seq<Move>)
      modifies this`quantity, this`created
      ensures entries == RestoreMoves(warehouse, Restocked(items))
      ensures Rows() == AddAll(old(Rows()), entries)
    {
      ghost var start := Rows();
      entries := [];
      assert items[..0] == [];
      for i := 0 to |items|
        invariant entries == RestoreMoves(warehouse, Restocked(items[..i]))
        invariant Rows() == AddAll(start, entries)
      {
        assert items[..i + 1][..i] == items[..i];
        if items[i].restock {
          var item := items[i].item;
          var m := Move(DefaultCell(item, warehouse), item.units, item.product.cost);
          assert RestoreMoves(warehouse, Restocked(items[..i]) + [item]) == RestoreMoves(warehouse, Restocked(items[..i])) + [m];
          entries := Credit(m, entries, start);
        }
      }
      assert items[..|items|] == items;
    }

    method Return(ret: SaleReturn) returns (r: Option<Error>)
      requires WellFormed(Rows())
      modifies this
      ensures WellFormed(Rows()) && (old(Valid()) ==> Valid())
      ensures Contents() == Execute(old(Contents()), ReturnOutcome(old(Contents()), ret))
      ensures r == ErrorOf(ReturnOutcome(old(Contents()), ret))
    {
      ghost var start := Contents();
      hide Inv, WellFormed;
      OutcomeKeeps(start, Stock.Return(ret));
      if ReturnTx(ret.id) in transactions { return Some(DuplicateTransaction); }
      if Restocked(ret.items) != [] && ret.warehouse.None? { return Some(NoLocation); }
      var before := Rows();
      var entries: seq<Move> := [];
      if ret.warehouse.Some? {
        entries := RestockReturned(ret.items, ret.warehouse.value);
      }
      var cost := CostOfRestocked(entries, ReturnedItems(ret.items));
      r := Conclude(ReturnTx(ret.id), entries,
                    Books.SaleReturnEntries(Rounding.RoundHalfUp(ret.refund), cost), before, start);
    }

    // -------------------------------------------------------------- opening stock, adjustments, counts

    /** Sets the row. A valid store stays valid exactly when the row held nothing. */
    method Open(uid: nat, cell: Cell, amount: int, cost: int) returns (r: Option<Error>)
      requires WellFormed(Rows())
      modifies this
      ensures WellFormed(Rows())
      ensures Contents() == OpenStock(old(Contents()), uid, cell, amount, cost)
      ensures r == if OpeningTx(uid) in old(transactions) then Some(DuplicateTransaction) else None
      ensures old(Valid()) && r.None? ==> (Valid() <==> Get(old(Rows()), cell) == 0)
      ensures old(Valid()) && r.Some? ==> Valid()
    {
      ghost var start := Contents();
      OpeningKeeps(start, uid, cell, amount, cost);
      r := SetRow(uid, cell, amount, cost);
    }

    method SetRow(uid: nat, cell: Cell, amount: int, cost: int) returns (r: Option<Error>)
      modifies this
      ensures Contents() == OpenStock(old(Contents()), uid, cell, amount, cost)
      ensures r == if OpeningTx(uid) in old(transactions) then Some(DuplicateTransaction) else None
    {
      if OpeningTx(uid) in transactions { return Some(DuplicateTransaction); }
      Commit(OpeningTx(uid), [Move(cell, amount, cost)], []);
      AddToRow(cell, 0);
      quantity := quantity[cell := amount];
      r := None;
    }

    method Adjust(request: nat, move: Move) returns (r: Option<Error>)
      requires WellFormed(Rows())
      modifies this
      ensures WellFormed(Rows()) && (old(Valid()) ==> Valid())
      ensures Contents() == Execute(old(Contents()), AdjustOutcome(old(Contents()), request, move))
      ensures r == ErrorOf(AdjustOutcome(old(Contents()), request, move))
    {
      ghost var start := Contents();
      hide Inv, WellFormed;
      OutcomeKeeps(start, Stock.Adjust(request, move));
      if AdjustmentTx(request) in transactions { return Some(DuplicateTransaction); }
      var entries := Credit(move, [], Rows());
      assert entries == [move];
      Register(AdjustmentTx(request), entries, start);
      r := None;
    }

    method Count(count: nat, warehouse: nat, items: seq<CountItem>) returns (r: Option<Error>)
      requires WellFormed(Rows())
      modifies this
      ensures WellFormed(Rows()) && (old(Valid()) ==> Valid())
      ensures Contents() == Execute(old(Contents()), CountOutcome(old(Contents()), count, warehouse, items))
      ensures r == ErrorOf(CountOutcome(old(Contents()), count, warehouse, items))
    {
      ghost var start := Contents();
      hide Inv, WellFormed;
      OutcomeKeeps(start, Stock.Count(count, warehouse, items));
      if CountTx(count) in transactions { return Some(DuplicateTransaction); }
      var entries := CorrectRows(items, warehouse);
      Register(CountTx(count), entries, start);
      r := None;
    }

    method CorrectRows(items: seq<CountItem>, warehouse: nat) returns (entries: seq<Move>)
      modifies this`quantity, this`created
      ensures entries == CountMoves(warehouse, items)
      ensures Rows() == AddAll(old(Rows()), entries)
    {
      ghost var start := Rows();
      entries := [];
      assert items[..0] == [];
      for i := 0 to |items|
        invariant entries == CountMoves(warehouse, items[..i])
        invariant Rows() == AddAll(start, entries)
      {
        assert items[..i + 1][..i] == items[..i];
        var variance := items[i].counted - items[i].expected;
        if variance != 0 {
          entries := Credit(Move(Cell(items[i].product.id, items[i].variant, None, warehouse), variance, items[i].product.cost),
                            entries, start);
        }
      }
      assert items[..|items|] == items;
    }

    // -------------------------------------------------------------- transfers

    method TransferItems(source: nat, destination: nat, items: seq<TransferItem>) returns (entries: Option<seq<Move>>)
      modifies this`quantity, this`created
      ensures entries == TransferMoves(old(Rows()), source, destination, items)
      ensures entries.Some? ==> Rows() == AddAll(old(Rows()), entries.value)
    {
      ghost var start := Rows();
      var made: seq<Move> := [];
      assert items[..0] == [];
      for i := 0 to |items|
        invariant TransferMoves(start, source, destination, items[..i]) == Some(made)
        invariant Rows() == AddAll(start, made)
      {
        assert items[..i + 1][..i] == items[..i];
        var pair := TransferPair(source, destination, items[i]);
        if pair[0].cell !in quantity {
          UntransferredStays(start, source, destination, items, i + 1);
          return None;
        }
        ghost var before := made;
        made := Credit(pair[0], made, start);
        made := Credit(pair[1], made, start);
        assert made == before + pair;
      }
      assert items[..|items|] == items;
      entries := Some(made);
    }

    method TransferUnder(tx: TxId, source: nat, destination: nat, items: seq<TransferItem>) returns (r: Option<Error>)
      modifies this
      ensures Contents() == Execute(old(Contents()), TransferOutcome(old(Contents()), tx, source, destination, items))
      ensures r == ErrorOf(TransferOutcome(old(Contents()), tx, source, destination, items))
    {
      ghost var start := Contents();
      if tx in transactions { return Some(DuplicateTransaction); }
      var before := Rows();
      var entries := TransferItems(source, destination, items);
      if entries.None? {
        Rollback(before);
        return Some(NoSourceRow);
      }
      Register(tx, entries.value, start);
      r := None;
    }

    method SingleTransfer(uid: nat, source: nat, destination: nat, item: TransferItem) returns (r: Option<Error>)
      requires WellFormed(Rows())
      modifies this
      ensures WellFormed(Rows()) && (old(Valid()) ==> Valid())
      ensures Contents() == Step(old(Contents()), Transfer(uid, source, destination, item))
      ensures r == ErrorOf(OutcomeOf(old(Contents()), Transfer(uid, source, destination, item)))
    {
      StepKeeps(Contents(), Transfer(uid, source, destination, item));
      r := TransferUnder(TransferTx(uid), source, destination, [item]);
    }

    method BulkTransfer(uid: nat, source: nat, destination: nat, items: seq<TransferItem>) returns (r: Option<Error>)
      requires WellFormed(Rows())
      modifies this
      ensures WellFormed(Rows()) && (old(Valid()) ==> Valid())
      ensures Contents() == Step(old(Contents()), Stock.BulkTransfer(uid, source, destination, items))
      ensures r == ErrorOf(OutcomeOf(old(Contents()), Stock.BulkTransfer(uid, source, destination, items)))
    {
      StepKeeps(Contents(), Stock.BulkTransfer(uid, source, destination, items));
      if items == [] { return None; }
      r := TransferUnder(BulkTransferTx(uid), source, destination, items);
    }

    // -------------------------------------------------------------- invoices

    method InvoiceLineDeduction(l: InvoiceLine, warehouse: nat) returns (entries: Option<seq<Move>>)
      requires WellFormed(Rows())
      modifies this`quantity
      ensures entries == InvoiceLineMoves(expiry, old(Rows()), warehouse, l)
      ensures Rows() == if entries.Some? then AddAll(old(Rows()), entries.value) else old(Rows())
    {
      var order := FifoOrder(expiry, Rows(), l.product.id, l.variant, warehouse);
      if Available(Rows(), order) < l.quantity { return None; }
      FifoOrderIsDistinct(expiry, Rows(), l.product.id, l.variant, warehouse);
      var made := DeductForInvoice(order, l.quantity, l.product.cost);
      entries := Some(made);
    }

    method InvoiceLines(lines: seq<InvoiceLine>, warehouse: nat) returns (entries: Option<seq<Move>>)
      requires WellFormed(Rows())
      modifies this`quantity
      ensures entries == InvoiceMoves(old(Contents()), warehouse, lines)
      ensures entries.Some? ==> Rows() == AddAll(old(Rows()), entries.value)
    {
      ghost var start := Contents();
      var made: seq<Move> := [];
      assert lines[..0] == [];
      for i := 0 to |lines|
        invariant InvoiceMoves(start, warehouse, lines[..i]) == Some(made)
        invariant Rows() == AddAll(start.shelf, made)
      {
        AddAllKeepsWellFormed(start.shelf, made);
        var more := InvoiceLineDeduction(lines[i], warehouse);
        InvoiceOneMore(start, warehouse, lines, i, made, more);
        if more.None? { return None; }
        made := made + more.value;
      }
      assert lines[..|lines|] == lines;
      entries := Some(made);
    }

    method Invoice(number: nat, warehouse: nat, lines: seq<InvoiceLine>) returns (r: Option<Error>)
      requires WellFormed(Rows())
      modifies this
      ensures WellFormed(Rows()) && (old(Valid()) ==> Valid())
      ensures Contents() == Execute(old(Contents()), InvoiceOutcome(old(Contents()), number, warehouse, lines))
      ensures r == ErrorOf(InvoiceOutcome(old(Contents()), number, warehouse, lines))
    {
      ghost var start := Contents();
      r := DeductInvoice(number, warehouse, lines);
      InvoiceKeeps(start, number, warehouse, lines, Contents());
    }

    method DeductInvoice(number: nat, warehouse: nat, lines: seq<InvoiceLine>) returns (r: Option<Error>)
      requires WellFormed(Rows())
      modifies this
      ensures Contents() == Execute(old(Contents()), InvoiceOutcome(old(Contents()), number, warehouse, lines))
      ensures r == ErrorOf(InvoiceOutcome(old(Contents()), number, warehouse, lines))
    {
      ghost var start := Contents();
      var tracked := TrackedLines(lines);
      if tracked == [] { return None; }
      if InvoiceTx(number) in transactions { return Some(DuplicateTransaction); }
      var before := Rows();
      var entries := InvoiceLines(tracked, warehouse);
      if entries.None? {
        Rollback(before);
        return Some(OutOfStock);
      }
      Register(InvoiceTx(number), entries.value, start);
      r := None;
    }

    /** Reads the deductions back from the ledger and gives each row back what it gave. */
    method RestoreDeductions(number: nat) returns (entries: seq<Move>)
      modifies this`quantity, this`created
      ensures entries == ReversalMoves(ledger, number)
      ensures Rows() == AddAll(old(Rows()), entries)
    {
      ghost var start := Rows();
      entries := [];
      assert ledger[..0] == [];
      for i := 0 to |ledger|
        invariant entries == ReversalMoves(ledger[..i], number)
        invariant Rows() == AddAll(start, entries)
      {
        assert ledger[..i + 1][..i] == ledger[..i];
        if ledger[i].tx == InvoiceTx(number) && ledger[i].move.quantity < 0 {
          entries := Credit(ledger[i].move.(quantity := -ledger[i].move.quantity), entries, start);
        }
      }
      assert ledger[..|ledger|] == ledger;
    }

    method Void(number: nat) returns (r: Option<Error>)
      requires WellFormed(Rows())
      modifies this
      ensures WellFormed(Rows()) && (old(Valid()) ==> Valid())
      ensures Contents() == Execute(old(Contents()), VoidOutcome(old(Contents()), number))
      ensures r == ErrorOf(VoidOutcome(old(Contents()), number))
    {
      ghost var start := Contents();
      r := ReverseInvoice(number);
      VoidKeeps(start, number, Contents());
    }

    method ReverseInvoice(number: nat) returns (r: Option<Error>)
      modifies this
      ensures Contents() == Execute(old(Contents()), VoidOutcome(old(Contents()), number))
      ensures r == ErrorOf(VoidOutcome(old(Contents()), number))
    {
      ghost var start := Contents();
      if ReversalMoves(ledger, number) == [] { return None; }
      if VoidTx(number) in transactions { return Some(DuplicateTransaction); }
      var entries := RestoreDeductions(number);
      Register(VoidTx(number), entries, start);
      r := None;
    }

    // -------------------------------------------------------------- payments

    method Collect(uid: nat, amount: real) returns (r: Option<Error>)
      requires WellFormed(Rows())
      modifies this
      ensures WellFormed(Rows()) && (old(Valid()) ==> Valid())
      ensures Contents() == Execute(old(Contents()), CollectOutcome(old(Contents()), uid, amount))
      ensures r == ErrorOf(CollectOutcome(old(Contents()), uid, amount))
    {
      ghost var start := Contents();
      hide Inv, WellFormed;
      OutcomeKeeps(start, Stock.Collect(uid, amount));
      if PaymentTx(uid) in transactions { return Some(DuplicateTransaction); }
      assert AddAll(start.shelf, []) == start.shelf;
      r := Conclude(PaymentTx(uid), [], Books.PaymentEntries(Rounding.RoundHalfUp(amount)), Rows(), start);
    }

    method Pay(uid: nat, amount: real) returns (r: Option<Error>)
      requires WellFormed(Rows())
      modifies this
      ensures WellFormed(Rows()) && (old(Valid()) ==> Valid())
      ensures Contents() == Execute(old(Contents()), PayOutcome(old(Contents()), uid, amount))
      ensures r == ErrorOf(PayOutcome(old(Contents()), uid, amount))
    {
      ghost var start := Contents();
      hide Inv, WellFormed;
      OutcomeKeeps(start, Stock.Pay(uid, amount));
      if SupplierPaymentTx(uid) in transactions { return Some(DuplicateTransaction); }
      assert AddAll(start.shelf, []) == start.shelf;
      r := Conclude(SupplierPaymentTx(uid), [], Books.PurchasePaymentEntries(Rounding.RoundHalfUp(amount)), Rows(), start);
    }

    // -------------------------------------------------------------- purchases

    /** A receipt may name an existing batch with a new expiry date. */
    method Redate(batch: nat, date: int)
      requires WellFormed(Rows())
      modifies this`expiry
      ensures WellFormed(Rows()) && (old(Valid()) ==> Valid())
      ensures Contents() == Step(old(Contents()), DateBatch(batch, date))
    {
      StepKeeps(Contents(), DateBatch(batch, date));
      expiry := expiry[batch := date];
    }

    method ReceiveLines(lines: seq<ReceiptLine>, warehouse: nat) returns (entries: seq<Move>)
      modifies this`quantity, this`created
      ensures entries == ReceiptMoves(warehouse, lines)
      ensures Rows() == AddAll(old(Rows()), entries)
    {
      ghost var start := Rows();
      entries := [];
      for i := 0 to |lines|
        invariant entries == ReceiptMoves(warehouse, lines[..i])
        invariant Rows() == AddAll(start, entries)
      {
        var l := lines[i];
        var m := Move(Cell(l.product, l.variant, l.batch, warehouse), l.quantity, l.unitCost);
        assert ReceiptMoves(warehouse, lines[..i + 1]) == ReceiptMoves(warehouse, lines[..i]) + [m];
        entries := Credit(m, entries, start);
      }
      assert lines[..|lines|] == lines;
    }

    method Receive(uid: nat, warehouse: nat, lines: seq<ReceiptLine>, cost: int) returns (r: Option<Error>)
      requires WellFormed(Rows())
      modifies this
      ensures WellFormed(Rows()) && (old(Valid()) ==> Valid())
      ensures Contents() == Execute(old(Contents()), ReceiptOutcome(old(Contents()), uid, warehouse, lines, cost))
      ensures r == ErrorOf(ReceiptOutcome(old(Contents()), uid, warehouse, lines, cost))
    {
      ghost var start := Contents();
      hide Inv, WellFormed;
      OutcomeKeeps(start, Stock.Receive(uid, warehouse, lines, cost));
      if ReceiptTx(uid) in transactions { return Some(DuplicateTransaction); }
      var before := Rows();
      var entries := ReceiveLines(InKeyOrder(lines), warehouse);
      r := Conclude(ReceiptTx(uid), entries,
                    Books.PurchaseEntries(cost), before, start);
    }

    method SendBackLines(lines: seq<ReceiptLine>, warehouse: nat) returns (entries: Option<seq<Move>>)
      requires WellFormed(Rows())
      modifies this`quantity
      ensures entries == PurchaseReturnMoves(old(Rows()), warehouse, lines)
      ensures entries.Some? ==> Rows() == AddAll(old(Rows()), entries.value)
    {
      ghost var start := Rows();
      var made: seq<Move> := [];
      assert lines[..0] == [];
      for i := 0 to |lines|
        invariant PurchaseReturnMoves(start, warehouse, lines[..i]) == Some(made)
        invariant Rows() == AddAll(start, made)
      {
        AddAllKeepsWellFormed(start, made);
        var more := SendBackLine(lines[i], warehouse);
        ReturnOneMore(start, warehouse, lines, i, made, more);
        if more.None? { return None; }
        made := made + more.value;
      }
      assert lines[..|lines|] == lines;
      entries := Some(made);
    }

    method SendBackLine(l: ReceiptLine, warehouse: nat) returns (entries: Option<seq<Move>>)
      requires WellFormed(Rows())
      modifies this`quantity
      ensures entries == PurchaseReturnLineMoves(old(Rows()), warehouse, l)
      ensures Rows() == if entries.Some? then AddAll(old(Rows()), entries.value) else old(Rows())
    {
      var rows := Filter(created, OfReturn(l.product, l.variant, warehouse, l.batch));
      if Available(Rows(), rows) < l.quantity { return None; }
      FilterKeepsDistinct(created, OfReturn(l.product, l.variant, warehouse, l.batch));
      var made := DeductForInvoice(rows, l.quantity, l.unitCost);
      entries := Some(made);
    }

    method SendBack(uid: nat, warehouse: nat, lines: seq<ReceiptLine>, refund: int) returns (r: Option<Error>)
      requires WellFormed(Rows())
      modifies this
      ensures WellFormed(Rows()) && (old(Valid()) ==> Valid())
      ensures Contents() == Execute(old(Contents()), PurchaseReturnOutcome(old(Contents()), uid, warehouse, lines, refund))
      ensures r == ErrorOf(PurchaseReturnOutcome(old(Contents()), uid, warehouse, lines, refund))
    {
      ghost var start := Contents();
      r := DeductReturned(uid, warehouse, lines, refund);
      SendBackKeeps(start, uid, warehouse, lines, refund, Contents());
    }

    method DeductReturned(uid: nat, warehouse: nat, lines: seq<ReceiptLine>, refund: int) returns (r: Option<Error>)
      requires WellFormed(Rows())
      modifies this
      ensures Contents() == Execute(old(Contents()), PurchaseReturnOutcome(old(Contents()), uid, warehouse, lines, refund))
      ensures r == ErrorOf(PurchaseReturnOutcome(old(Contents()), uid, warehouse, lines, refund))
    {
      ghost var start := Contents();
      if PurchaseReturnTx(uid) in transactions { return Some(DuplicateTransaction); }
      var before := Rows();
      var entries := SendBackLines(lines, warehouse);
      if entries.None? {
        Rollback(before);
        return Some(OutOfStock);
      }
      r := Conclude(PurchaseReturnTx(uid), entries.value,
                    Books.PurchaseReturnEntries(refund), before, start);
    }
  }
}

/** The inventory table is a cache of the ledger, the books balance, and both survive every operation. */
module StockInvariants {
  import opened Results
  import opened Sums
  import Books
  import opened Stock

  // ---------------------------------------------------------------- totals over groups of cells

  /** What moves do to a group of cells. */
  function Moved(moves: seq<Move>, p: Cell -> bool): int
  {
    Total(moves, (m: Move) => if p(m.cell) then m.quantity else 0)
  }

  /** What the table holds in a group of cells. */
  function Stocked(shelf: Shelf, p: Cell -> bool): int
  {
    Total(shelf.created, (c: Cell) => if p(c) then Get(shelf, c) else 0)
  }

  /** What the ledger says about a group of cells. */
  function Recorded(ledger: seq<Record>, p: Cell -> bool): int
  {
    Total(ledger, (r: Record) => if p(r.move.cell) then r.move.quantity else 0)
  }

  /** The part of one transaction in that. */
  function RecordedBy(ledger: seq<Record>, tx: TxId, p: Cell -> bool): int
  {
    Total(ledger, (r: Record) => if r.tx == tx && p(r.move.cell) then r.move.quantity else 0)
  }

  function Only(cell: Cell): Cell -> bool
  {
    (c: Cell) => c == cell
  }

  /** Debits less credits of an account in the books; of one transaction over all accounts. */
  function BookNet(books: seq<BookLine>, account: Books.Account): int
  {
    Total(books, (b: BookLine) => if b.line.account == account then b.line.debit - b.line.credit else 0)
  }

  function TxImbalance(books: seq<BookLine>, tx: TxId): int
  {
    Total(books, (b: BookLine) => if b.tx == tx then b.line.debit - b.line.credit else 0)
  }

  function Imbalance(books: seq<BookLine>): int
  {
    Total(books, (b: BookLine) => b.line.debit - b.line.credit)
  }

  // ---------------------------------------------------------------- the table

  ghost predicate WellFormed(shelf: Shelf)
  {
    && (forall c :: c in shelf.created <==> c in shelf.quantity)
    && (forall i, j :: 0 <= i < j < |shelf.created| ==> shelf.created[i] != shelf.created[j])
  }

  lemma {:induction false} AddAllKeepsWellFormed(shelf: Shelf, moves: seq<Move>)
    requires WellFormed(shelf)
    ensures WellFormed(AddAll(shelf, moves))
  {
    if moves != [] { AddAllKeepsWellFormed(shelf, moves[..|moves| - 1]); }
  }

  lemma {:induction false} AddAllGet(shelf: Shelf, moves: seq<Move>, cell: Cell)
    ensures Get(AddAll(shelf, moves), cell) == Get(shelf, cell) + Moved(moves, Only(cell))
  {
    if moves != [] { AddAllGet(shelf, moves[..|moves| - 1], cell); }
  }

  lemma {:induction false} AddAllAppend(shelf: Shelf, a: seq<Move>, b: seq<Move>)
    ensures AddAll(shelf, a + b) == AddAll(AddAll(shelf, a), b)
  {
    if b == [] {
      assert a + b == a;
    } else {
      assert (a + b)[..|a + b| - 1] == a + b[..|b| - 1];
      AddAllAppend(shelf, a, b[..|b| - 1]);
    }
  }

  lemma {:induction false} TotalChange(cells: seq<Cell>, f: Cell -> int, g: Cell -> int, x: Cell)
    requires forall c :: c in cells && c != x ==> f(c) == g(c)
    requires forall i, j :: 0 <= i < j < |cells| ==> cells[i] != cells[j]
    ensures Total(cells, g) == Total(cells, f) + if x in cells then g(x) - f(x) else 0
  {
    if cells != [] { TotalChange(cells[..|cells| - 1], f, g, x); }
  }

  lemma StockedAdd(shelf: Shelf, cell: Cell, delta: int, p: Cell -> bool)
    requires WellFormed(shelf)
    ensures Stocked(Add(shelf, cell, delta), p) == Stocked(shelf, p) + if p(cell) then delta else 0
  {
    var after := Add(shelf, cell, delta);
    var f := (c: Cell) => if p(c) then Get(shelf, c) else 0;
    var g := (c: Cell) => if p(c) then Get(after, c) else 0;
    TotalChange(shelf.created, f, g, cell);
    if cell !in shelf.quantity { assert after.created[..|shelf.created|] == shelf.created; }
  }

  lemma {:induction false} StockedAddAll(shelf: Shelf, moves: seq<Move>, p: Cell -> bool)
    requires WellFormed(shelf)
    ensures Stocked(AddAll(shelf, moves), p) == Stocked(shelf, p) + Moved(moves, p)
  {
    if moves != [] {
      var front, last := moves[..|moves| - 1], moves[|moves| - 1];
      StockedAddAll(shelf, front, p);
      AddAllKeepsWellFormed(shelf, front);
      StockedAdd(AddAll(shelf, front), last.cell, last.quantity, p);
    }
  }

  lemma RecordedAppend(ledger: seq<Record>, tx: TxId, moves: seq<Move>, p: Cell -> bool)
    ensures Recorded(ledger + Records(tx, moves), p) == Recorded(ledger, p) + Moved(moves, p)
  {
    var f := (r: Record) => if p(r.move.cell) then r.move.quantity else 0;
    TotalAppend(ledger, Records(tx, moves), f);
    TotalsAgree(Records(tx, moves), moves, f, (m: Move) => if p(m.cell) then m.quantity else 0);
  }

  lemma RecordedByAppend(ledger: seq<Record>, tx: TxId, moves: seq<Move>, of: TxId, p: Cell -> bool)
    ensures RecordedBy(ledger + Records(tx, moves), of, p)
         == RecordedBy(ledger, of, p) + if of == tx then Moved(moves, p) else 0
  {
    var f := (r: Record) => if r.tx == of && p(r.move.cell) then r.move.quantity else 0;
    TotalAppend(ledger, Records(tx, moves), f);
    var g := (m: Move) => if of == tx && p(m.cell) then m.quantity else 0;
    TotalsAgree(Records(tx, moves), moves, f, g);
    if of == tx {
      TotalsAgree(moves, moves, g, (m: Move) => if p(m.cell) then m.quantity else 0);
    } else {
      TotalOfZero(moves, g);
    }
  }

  lemma {:induction false} TotalOfZero<T>(s: seq<T>, f: T -> int)
    requires forall i :: 0 <= i < |s| ==> f(s[i]) == 0
    ensures Total(s, f) == 0
  {
    if s != [] { TotalOfZero(s[..|s| - 1], f); }
  }

  // ---------------------------------------------------------------- the invariant

  /** Each cell's cached quantity is the sum of its ledger entries. */
  ghost predicate Agrees(s: State)
  {
    forall c :: Get(s.shelf, c) == Recorded(s.ledger, Only(c))
  }

  /** Entries belong to transactions that took place, and every transaction's lines balance. */
  ghost predicate TransactionsOk(s: State)
  {
    && (forall i :: 0 <= i < |s.ledger| ==> s.ledger[i].tx in s.transactions)
    && (forall i :: 0 <= i < |s.books| ==> s.books[i].tx in s.transactions)
    && (forall i :: 0 <= i < |s.ledger| && s.ledger[i].tx.InvoiceTx? ==> s.ledger[i].move.quantity < 0)
    && (forall n :: VoidTx(n) in s.transactions ==> InvoiceTx(n) in s.transactions)
    && (forall tx :: TxImbalance(s.books, tx) == 0)
    && Imbalance(s.books) == 0
  }

  ghost predicate Inv(s: State)
  {
    WellFormed(s.shelf) && Agrees(s) && TransactionsOk(s)
  }

  /** What every operation guarantees about what it applies. */
  ghost predicate OutcomeOk(s: State, o: Outcome)
  {
    o.Apply? ==>
      && o.tx !in s.transactions
      && Books.Balanced(o.lines)
      && (o.tx.InvoiceTx? ==> forall i :: 0 <= i < |o.moves| ==> o.moves[i].quantity < 0)
      && (o.tx.VoidTx? ==> o.moves == ReversalMoves(s.ledger, o.tx.number) && o.moves != [])
  }

  lemma ExecuteKeepsAgrees(s: State, o: Outcome)
    requires Agrees(s)
    ensures Agrees(Execute(s, o))
  {
    if o.Apply? {
      forall c ensures Get(Execute(s, o).shelf, c) == Recorded(Execute(s, o).ledger, Only(c)) {
        AddAllGet(s.shelf, o.moves, c);
        RecordedAppend(s.ledger, o.tx, o.moves, Only(c));
      }
    }
  }

  lemma BookNetAppend(books: seq<BookLine>, tx: TxId, lines: seq<Books.Line>, account: Books.Account)
    ensures BookNet(books + BookLines(tx, lines), account) == BookNet(books, account) + Books.Net(lines, account)
  {
    var net := (b: BookLine) => if b.line.account == account then b.line.debit - b.line.credit else 0;
    TotalAppend(books, BookLines(tx, lines), net);
    TotalsAgree(BookLines(tx, lines), lines, net, (l: Books.Line) => if l.account == account then l.debit - l.credit else 0);
  }

  lemma ImbalanceAppend(books: seq<BookLine>, tx: TxId, lines: seq<Books.Line>)
    ensures Imbalance(books + BookLines(tx, lines)) == Imbalance(books) + Books.Debits(lines) - Books.Credits(lines)
  {
    var all := (b: BookLine) => b.line.debit - b.line.credit;
    TotalAppend(books, BookLines(tx, lines), all);
    TotalsAgree(BookLines(tx, lines), lines, all, (l: Books.Line) => l.debit - l.credit);
    TotalDifference(lines);
  }

  lemma TxImbalanceAppend(books: seq<BookLine>, tx: TxId, lines: seq<Books.Line>, of: TxId)
    ensures TxImbalance(books + BookLines(tx, lines), of)
         == TxImbalance(books, of) + if of == tx then Books.Debits(lines) - Books.Credits(lines) else 0
  {
    var one := (b: BookLine) => if b.tx == of then b.line.debit - b.line.credit else 0;
    TotalAppend(books, BookLines(tx, lines), one);
    if of == tx {
      TotalsAgree(BookLines(tx, lines), lines, one, (l: Books.Line) => l.debit - l.credit);
      TotalDifference(lines);
    } else {
      TotalOfZero(BookLines(tx, lines), one);
    }
  }

  lemma {:induction false} TotalDifference(lines: seq<Books.Line>)
    ensures Total(lines, (l: Books.Line) => l.debit - l.credit) == Books.Debits(lines) - Books.Credits(lines)
  {
    if lines != [] { TotalDifference(lines[..|lines| - 1]); }
  }

  lemma {:induction false} ReversalNeedsInvoice(ledger: seq<Record>, number: nat)
    ensures ReversalMoves(ledger, number) != [] ==>
              exists i :: 0 <= i < |ledger| && ledger[i].tx == InvoiceTx(number)
  {
    if ledger != [] {
      var front := ledger[..|ledger| - 1];
      ReversalNeedsInvoice(front, number);
      if ReversalMoves(front, number) != [] {
        var i :| 0 <= i < |front| && front[i].tx == InvoiceTx(number);
        assert ledger[i].tx == InvoiceTx(number);
      } else if ReversalMoves(ledger, number) != [] {
        assert ledger[|ledger| - 1].tx == InvoiceTx(number);
      }
    }
  }

  lemma ExecuteKeepsTransactions(s: State, o: Outcome)
    requires TransactionsOk(s) && OutcomeOk(s, o)
    ensures TransactionsOk(Execute(s, o))
  {
    if o.Apply? {
      forall tx ensures TxImbalance(Execute(s, o).books, tx) == 0 {
        TxImbalanceAppend(s.books, o.tx, o.lines, tx);
      }
      ImbalanceAppend(s.books, o.tx, o.lines);
      if o.tx.VoidTx? { ReversalNeedsInvoice(s.ledger, o.tx.number); }
    }
  }

  // ---------------------------------------------------------------- every operation's outcome is in order

  lemma {:induction false} TakesAreNegativeMoves(cells: seq<Cell>, takes: seq<int>, cost: int)
    requires |cells| == |takes|
    ensures forall i :: 0 <= i < |TakeMoves(cells, takes, cost)| ==> TakeMoves(cells, takes, cost)[i].quantity < 0
  {
    if cells != [] { TakesAreNegativeMoves(cells[..|cells| - 1], takes[..|cells| - 1], cost); }
  }

  lemma {:induction false} InvoiceMovesAreNegative(s: State, warehouse: nat, lines: seq<InvoiceLine>)
    requires InvoiceMoves(s, warehouse, lines).Some?
    ensures forall i :: 0 <= i < |InvoiceMoves(s, warehouse, lines).value| ==>
              InvoiceMoves(s, warehouse, lines).value[i].quantity < 0
  {
    if lines != [] {
      InvoiceMovesAreNegative(s, warehouse, lines[..|lines| - 1]);
      var front := InvoiceMoves(s, warehouse, lines[..|lines| - 1]).value;
      var shelf := AddAll(s.shelf, front);
      var l := lines[|lines| - 1];
      var order := FifoOrder(s.expiry, shelf, l.product.id, l.variant, warehouse);
      TakesAreNegativeMoves(order, Fifo.Takes(Quantities(shelf, order), l.quantity), l.product.cost);
    }
  }

  lemma OutcomesAreOk(s: State, e: Event)
    ensures OutcomeOk(s, OutcomeOf(s, e))
  {
    if e.Invoice? && OutcomeOf(s, e).Apply? {
      InvoiceMovesAreNegative(s, e.warehouse, TrackedLines(e.invoiceLines));
    }
    assert Books.Balanced([]);
  }

  // ---------------------------------------------------------------- opening stock

  /** Opening stock sets the row instead of adding to it. On a state where cache and ledger agree,
      they still do exactly if the row held nothing. */
  lemma OpeningStockAgreesExactly(s: State, uid: nat, cell: Cell, quantity: int, cost: int)
    requires Agrees(s) && OpeningTx(uid) !in s.transactions
    ensures Agrees(OpenStock(s, uid, cell, quantity, cost)) <==> Get(s.shelf, cell) == 0
  {
    var t := OpenStock(s, uid, cell, quantity, cost);
    var m := Move(cell, quantity, cost);
    forall c ensures Recorded(t.ledger, Only(c)) == Recorded(s.ledger, Only(c)) + if c == cell then quantity else 0 {
      RecordedAppend(s.ledger, OpeningTx(uid), [m], Only(c));
      TotalOfOne(m, (m: Move) => if Only(c)(m.cell) then m.quantity else 0);
    }
    assert Get(t.shelf, cell) == quantity;
    assert Get(s.shelf, cell) == Recorded(s.ledger, Only(cell));
  }

  lemma OpeningStockKeepsInv(s: State, uid: nat, cell: Cell, quantity: int, cost: int)
    requires Inv(s) && Get(s.shelf, cell) == 0
    ensures Inv(OpenStock(s, uid, cell, quantity, cost))
  {
    if OpeningTx(uid) !in s.transactions {
      OpeningStockAgreesExactly(s, uid, cell, quantity, cost);
      var t := OpenStock(s, uid, cell, quantity, cost);
      assert WellFormed(Add(s.shelf, cell, 0));
    }
  }

  /** A second opening of a cell that holds something: the row forgets the first, the ledger does not. */
  lemma SecondOpeningDisagrees(cell: Cell, first: int, second: int, cost: int)
    requires first != 0
    ensures var once := Step(EMPTY, Open(0, cell, first, cost));
            var twice := Step(once, Open(1, cell, second, cost));
            && Inv(once) && !Agrees(twice)
            && Get(twice.shelf, cell) == second && Recorded(twice.ledger, Only(cell)) == first + second
  {
    var once := Step(EMPTY, Open(0, cell, first, cost));
    EmptyInv();
    OpeningStockKeepsInv(EMPTY, 0, cell, first, cost);
    assert Get(once.shelf, cell) == first == Recorded(once.ledger, Only(cell));
    var m := Move(cell, second, cost);
    RecordedAppend(once.ledger, OpeningTx(1), [m], Only(cell));
    TotalOfOne(m, (m: Move) => if Only(cell)(m.cell) then m.quantity else 0);
    OpeningStockAgreesExactly(once, 1, cell, second, cost);
  }

  // ---------------------------------------------------------------- runs

  /** Opening stock is only for products that are new. */
  predicate Fresh(s: State, e: Event)
  {
    e.Open? ==> Get(s.shelf, e.cell) == 0
  }

  predicate FreshRun(s: State, events: seq<Event>)
    decreases |events|
  {
    events != [] ==> Fresh(s, events[0]) && FreshRun(Step(s, events[0]), events[1..])
  }

  lemma ExecuteKeepsInv(s: State, o: Outcome)
    requires Inv(s) && OutcomeOk(s, o)
    ensures Inv(Execute(s, o))
  {
    ExecuteKeepsAgrees(s, o);
    ExecuteKeepsTransactions(s, o);
    if o.Apply? { AddAllKeepsWellFormed(s.shelf, o.moves); }
  }

  lemma StepKeepsInv(s: State, e: Event)
    requires Inv(s) && Fresh(s, e)
    ensures Inv(Step(s, e))
  {
    if e.Open? {
      OpeningStockKeepsInv(s, e.uid, e.cell, e.quantity, e.cost);
    } else if !e.DateBatch? {
      OutcomesAreOk(s, e);
      ExecuteKeepsInv(s, OutcomeOf(s, e));
    } else {
      assert Agrees(Step(s, e)) && TransactionsOk(Step(s, e));
    }
  }

  lemma StepKeepsTransactions(s: State, e: Event)
    requires TransactionsOk(s)
    ensures TransactionsOk(Step(s, e))
  {
    if e.Open? || e.DateBatch? {
      assert Step(s, e).books == s.books;
    } else {
      OutcomesAreOk(s, e);
      ExecuteKeepsTransactions(s, OutcomeOf(s, e));
    }
  }

  /** Whatever happens, opening stock on any row included: every transaction and the whole of the books
      balance, and no void is without its invoice. */
  lemma {:induction false} BooksAlwaysBalance(s: State, events: seq<Event>)
    requires TransactionsOk(s)
    ensures TransactionsOk(Run(s, events))
    decreases |events|
  {
    if events != [] {
      StepKeepsTransactions(s, events[0]);
      BooksAlwaysBalance(Step(s, events[0]), events[1..]);
    }
  }

  lemma StepKeepsWellFormed(s: State, e: Event)
    requires WellFormed(s.shelf)
    ensures WellFormed(Step(s, e).shelf)
  {
    if e.Open? {
      assert WellFormed(Add(s.shelf, e.cell, 0));
    } else if OutcomeOf(s, e).Apply? {
      AddAllKeepsWellFormed(s.shelf, OutcomeOf(s, e).moves);
    }
  }

  /** In every state reached by any interleaving of operations, each cell's cached quantity is the sum
      of its ledger entries, and every transaction and the whole of the books balance. */
  lemma {:induction false} RunKeepsInv(s: State, events: seq<Event>)
    requires Inv(s) && FreshRun(s, events)
    ensures Inv(Run(s, events))
    decreases |events|
  {
    if events != [] {
      StepKeepsInv(s, events[0]);
      RunKeepsInv(Step(s, events[0]), events[1..]);
    }
  }

  lemma EmptyInv()
    ensures Inv(EMPTY)
  {
  }
}

/** Orders at which a return falls short of what a reader would expect: stock that lacked a unit, a
    discount that is not refunded, items whose order decides, and half units. */
module PurchaseExamples {
  import opened Results
  import opened Rounding
  import opened Sums
  import opened Purchase
  import opened PurchaseRuns
  import opened PurchaseCosts
  import opened PurchaseReturns
  import opened PurchaseLedger
  import opened PurchaseBatches
  import opened PurchaseNetting
  import opened PurchaseClosing
  import Books
  import Fifo
  import Stock
  import opened StockInvariants

  // ---------------------------------------------------------------- receiving one item

  /** A receipt that passes its checks goes through, under a new identifier. */
  lemma ReceiptGoesThrough(w: World, uid: nat, items: seq<Item>)
    requires !w.order.status.Cancelled? && items != [] && ReceiveItems(w.order.lines, items).Ok?
    requires Stock.ReceiptTx(uid) !in w.stock.transactions
    ensures ReceiveGoods(w, uid, items).Ok?
    ensures var lines, after := ReceiveItems(w.order.lines, items).value.lines, ReceiveGoods(w, uid, items).value;
            && after.order == w.order.(lines := lines, status := StatusAfter(w.order.status, lines))
            && after.stock.transactions == w.stock.transactions + {Stock.ReceiptTx(uid)}
            && after.stock.shelf
               == Stock.AddAll(w.stock.shelf, Stock.ReceiptMoves(w.order.warehouse, Stock.InKeyOrder(ReceiveItems(w.order.lines, items).value.movements)))
  {
    var r := ReceiveItems(w.order.lines, items).value;
    Books.PairPosts(Books.InventoryAsset, Books.AccountsPayable, RoundHalfEven(r.cost), Books.Cogs);
  }

  lemma SingleMove(shelf: Stock.Shelf, warehouse: nat, l: Stock.ReceiptLine)
    ensures Stock.AddAll(shelf, Stock.ReceiptMoves(warehouse, Stock.InKeyOrder([l]))) == Stock.Add(shelf, RowOf(warehouse, l), l.quantity)
  {
    assert [l][..0] == [];
    assert Stock.InKeyOrder([]) == [] && Stock.InKeyOrder([l]) == [l];
    var moves := Stock.ReceiptMoves(warehouse, [l]);
    assert moves[..0] == [];
    assert Stock.AddAll(shelf, []) == shelf;
  }

  lemma SingleItem(lines: seq<Line>, i: Item)
    requires i.line < |lines| && Multiplier(lines[i.line]) != 0.0
    requires 0 < i.quantity <= lines[i.line].ordered - lines[i.line].received
    ensures var l, r := lines[i.line], ReceiveItems(lines, [i]);
            && r.Ok? && r.value.lines == lines[i.line := l.(received := l.received + i.quantity)]
            && r.value.movements == [InBaseUnits(l, i)]
  {
    assert [i][..0] == [];
    assert ReceiveItems(lines, []) == Ok(Receipt(lines, [], 0.0));
  }

  /** One item arrives: its row gets it. */
  lemma SingleReceipt(w: World, uid: nat, i: Item)
    requires !w.order.status.Cancelled? && Stock.ReceiptTx(uid) !in w.stock.transactions && i.line < |w.order.lines|
    requires var l := w.order.lines[i.line]; Multiplier(l) != 0.0 && 0 < i.quantity <= l.ordered - l.received
    ensures ReceiveGoods(w, uid, [i]).Ok?
    ensures var l, after := w.order.lines[i.line], ReceiveGoods(w, uid, [i]).value;
            var lines := w.order.lines[i.line := l.(received := l.received + i.quantity)];
            && after.order == w.order.(lines := lines, status := StatusAfter(w.order.status, lines))
            && after.stock.transactions == w.stock.transactions + {Stock.ReceiptTx(uid)}
            && after.stock.shelf == Stock.Add(w.stock.shelf, Stock.Cell(l.product, l.variant, i.batch, w.order.warehouse),
                                              BaseUnits(l, i.quantity))
  {
    hide ReceiveItems, ReceiveGoods, Stock.AddAll, Stock.InKeyOrder;
    SingleItem(w.order.lines, i);
    ReceiptGoesThrough(w, uid, [i]);
    SingleMove(w.stock.shelf, w.order.warehouse, InBaseUnits(w.order.lines[i.line], i));
  }

  lemma SinglesAreWhole(l: Line, quantity: int)
    requires l.unit.None?
    ensures BaseUnits(l, quantity) == quantity
  {
    RoundsToItself(quantity as real * Multiplier(l), quantity);
  }

  lemma TwoCalls(w: World, e: Event, f: Event)
    ensures Run(w, [e, f]) == Step(Step(w, e), f)
    ensures RunReceipts(w, [e, f]) == ReceiptsOf(w, e) + ReceiptsOf(Step(w, e), f)
  {
    assert [e, f][1..] == [f] && [f][1..] == [];
    assert Run(Step(Step(w, e), f), []) == Step(Step(w, e), f);
    assert RunReceipts(Step(Step(w, e), f), []) == 0;
    assert RunReceipts(Step(w, e), [f]) == ReceiptsOf(Step(w, e), f);
  }

  // ---------------------------------------------------------------- a unit that cannot go back

  /** An order for one unit, and a stock that lacks one. */
  const ONE_UNIT: seq<Item> := [Item(0, 1, None)]

  function ShortOrder(): Order
  {
    Order(Ordered, 0, 0, [Line(0, None, None, 1, 0, 100, 0)], [], false)
  }

  function ShortWorld(): World
  {
    World(ShortOrder(), Stock.Step(Stock.EMPTY, Stock.Adjust(0, Stock.Move(Stock.Cell(0, None, None, 0), -1, 100))))
  }

  lemma ShortStock()
    ensures Inv(ShortWorld().stock) && WellFormed(ShortWorld().stock.shelf)
  {
    hide Inv, WellFormed;
    var e := Stock.Adjust(0, Stock.Move(Stock.Cell(0, None, None, 0), -1, 100));
    EmptyInv();
    StepKeepsInv(Stock.EMPTY, e);
    InvIsWellFormed(Stock.Step(Stock.EMPTY, e));
  }

  lemma InvIsWellFormed(s: Stock.State)
    requires Inv(s)
    ensures WellFormed(s.shelf)
  {
  }

  lemma ShortStockLacksOne()
    ensures ShortWorld().stock.transactions == {Stock.AdjustmentTx(0)}
    ensures Stocked(ShortWorld().stock.shelf, Stock.OfItem(0, None, 0)) == -1
  {
    var m := Stock.Move(Stock.Cell(0, None, None, 0), -1, 100);
    StockedAddAll(Stock.EMPTY.shelf, [m], Stock.OfItem(0, None, 0));
    TotalOfOne(m, (m: Stock.Move) => if Stock.OfItem(0, None, 0)(m.cell) then m.quantity else 0);
  }

  lemma ShortReceipt()
    ensures ReceiveGoods(ShortWorld(), 0, ONE_UNIT).Ok?
    ensures var after := ReceiveGoods(ShortWorld(), 0, ONE_UNIT).value;
            && after.order == ShortOrder().(status := Received, lines := [Line(0, None, None, 1, 1, 100, 0)])
            && Stock.PurchaseReturnTx(0) !in after.stock.transactions
  {
    hide ReceiveGoods;
    ShortStockLacksOne();
    SingleReceipt(ShortWorld(), 0, ONE_UNIT[0]);
  }

  lemma ShortRequest(o: Order)
    requires o == ShortOrder().(status := Received, lines := [Line(0, None, None, 1, 1, 100, 0)])
    ensures Proper(o, ONE_UNIT) && TakesAll(o, ONE_UNIT)
  {
    NoRefusalMeans(o, ONE_UNIT);
    TotalOfOne(ONE_UNIT[0], (i: Item) => if i.line == 0 then i.quantity else 0);
  }

  lemma ShortOrderIsUntouched()
    ensures ShortWorld().order == ShortOrder() && Untouched(ShortOrder()) && WholeUnits(ShortOrder().lines)
  {
    assert LineOk(ShortOrder(), 0);
    assert WholeLine(ShortOrder().lines[0]);
  }

  /** The unit is received, and its return is a proper one that takes all; but it is refused. */
  lemma NegativeStockBlocksReturn()
    ensures var w := ShortWorld();
            var received := Step(w, Receive(0, ONE_UNIT));
            && Inv(w.stock) && Untouched(w.order) && WholeUnits(w.order.lines)
            && ReceiveGoods(w, 0, ONE_UNIT).Ok? && Proper(received.order, ONE_UNIT) && TakesAll(received.order, ONE_UNIT)
            && SendGoodsBack(received, 0, ONE_UNIT).Err?
  {
    hide ReceiveGoods, SendGoodsBack, ShortWorld, Proper, TakesAll, Inv;
    var w, events := ShortWorld(), [Receive(0, ONE_UNIT)];
    ShortStock();
    ShortReceipt();
    ShortRequest(ReceiveGoods(w, 0, ONE_UNIT).value.order);
    ShortOrderIsUntouched();
    assert events[1..] == [];
    assert Run(w, events) == Run(Step(w, events[0]), []) == Step(w, events[0]);
    ShortStockLacksOne();
    ReturnSucceedsExactly(w, events, 0, ONE_UNIT);
    UndisturbedMovesNothingElse(w, events, Stock.OfItem(0, None, 0), Books.Cogs);
    assert OtherStock(w, events, ONE_UNIT[0].line) == -1;
    assert Step(w, Receive(0, ONE_UNIT)) == ReceiveGoods(w, 0, ONE_UNIT).value;
    assert !SendGoodsBack(Run(w, events), 0, ONE_UNIT).Ok?;
  }

  // ---------------------------------------------------------------- a discounted unit

  /** One unit that costs a dollar, 30 cents off. */
  function DiscountedWorld(received: bool): World
  {
    World(Order(if received then Received else Ordered, 0, 0,
                [Line(0, None, None, 1, if received then 1 else 0, 100, 30)], [], false), Stock.EMPTY)
  }

  lemma DiscountedOrder()
    ensures Untouched(DiscountedWorld(false).order) && WholeUnits(DiscountedWorld(false).order.lines)
    ensures CostsNotNegative(DiscountedWorld(false).order.lines) && TotalDiscount(DiscountedWorld(false).order.lines) == 30
  {
    var o := DiscountedWorld(false).order;
    assert LineOk(o, 0);
    assert WholeLine(o.lines[0]);
    TotalOfOne(o.lines[0], (l: Line) => EffectiveDiscount(l));
  }

  lemma DiscountedReceipt()
    ensures var r := ReceiveGoods(DiscountedWorld(false), 0, ONE_UNIT);
            r.Ok? && r.value.order == DiscountedWorld(true).order && Stock.PurchaseReturnTx(0) !in r.value.stock.transactions
  {
    hide ReceiveGoods;
    SingleReceipt(DiscountedWorld(false), 0, ONE_UNIT[0]);
  }

  lemma DiscountedRequest()
    ensures Proper(DiscountedWorld(true).order, ONE_UNIT) && TakesAll(DiscountedWorld(true).order, ONE_UNIT)
    ensures QuantityOf(ONE_UNIT, 0) == 1 && QuantityOf([] + ONE_UNIT, 0) == 1
  {
    NoRefusalMeans(DiscountedWorld(true).order, ONE_UNIT);
    TotalOfOne(ONE_UNIT[0], (i: Item) => if i.line == 0 then i.quantity else 0);
    assert [] + ONE_UNIT == ONE_UNIT;
  }

  lemma EmptyStockFor(w: World)
    requires w.stock == Stock.EMPTY && |w.order.lines| == 1
    ensures StockFor(w, 0) == 0 && WellFormed(w.stock.shelf)
  {
  }

  lemma DiscountedReturn()
    ensures SendGoodsBack(Step(DiscountedWorld(false), Receive(0, ONE_UNIT)), 0, ONE_UNIT).Ok?
    ensures SendGoodsBack(Step(DiscountedWorld(false), Receive(0, ONE_UNIT)), 0, ONE_UNIT).value.order
         == DiscountedWorld(true).order.(returned := ONE_UNIT)
  {
    hide ReceiveGoods, Proper, TakesAll, Untouched, WholeUnits, WellFormed, StockFor, OtherStock, RunOthersMoved;
    var w, events := DiscountedWorld(false), [Receive(0, ONE_UNIT)];
    DiscountedOrder();
    DiscountedReceipt();
    DiscountedRequest();
    EmptyStockFor(w);
    assert events[1..] == [];
    assert Run(w, events) == Run(Step(w, events[0]), []) == Step(w, events[0]);
    UndisturbedStock(w, events, 0);
    ReturnSucceedsExactly(w, events, 0, ONE_UNIT);
    assert [] + ONE_UNIT == ONE_UNIT;
  }

  /** The unit is received and returned: both go through, and inventory is left 30 cents short. */
  lemma DiscountIsLost()
    ensures var w := DiscountedWorld(false);
            var received := Step(w, Receive(0, ONE_UNIT));
            var returned := Step(received, SendBack(0, ONE_UNIT));
            && ReceiveGoods(w, 0, ONE_UNIT).Ok? && SendGoodsBack(received, 0, ONE_UNIT).Ok?
            && EverythingReturned(returned.order)
            && BookNet(returned.stock.books, Books.InventoryAsset) == BookNet(w.stock.books, Books.InventoryAsset) - 30
  {
    var w, events := DiscountedWorld(false), [Receive(0, ONE_UNIT), SendBack(0, ONE_UNIT)];
    DiscountedOrder();
    DiscountedReceipt();
    DiscountedReturn();
    DiscountedRequest();
    TwoCalls(w, Receive(0, ONE_UNIT), SendBack(0, ONE_UNIT));
    DiscountedEnd(Run(w, events).order);
    hide *;
    PlainEvents(events);
    UndisturbedMovesNothingElse(w, events, Stock.OfItem(0, None, 0), Books.InventoryAsset);
    OneReceiptNetsExactly(w, events, Books.InventoryAsset);
    BoughtIs(-30);
  }

  lemma DiscountedEnd(o: Order)
    requires o == DiscountedWorld(true).order.(returned := ONE_UNIT)
    ensures AllReceived(o.lines) && EverythingReturned(o)
  {
    DiscountedRequest();
  }

  lemma PlainEvents(events: seq<Event>)
    requires events == [Receive(0, ONE_UNIT), SendBack(0, ONE_UNIT)]
    ensures TermsKept(events) && DistinctRun(events) && Undisturbed(events)
  {
  }

  // ---------------------------------------------------------------- a return that its order decides

  /** Two lines of one product, a unit each: the first arrives in a batch, the second without. */
  const OF_BATCH: Item := Item(0, 1, Some(7))
  const OF_ANY: Item := Item(1, 1, None)

  function PairLine(received: nat): Line
  {
    Line(0, None, None, 1, received, 100, 0)
  }

  function PairWorld(): World
  {
    World(Order(Ordered, 0, 0, [PairLine(0), PairLine(0)], [], false), Stock.EMPTY)
  }

  function PairReceipts(): seq<Event>
  {
    [Receive(0, [OF_BATCH]), Receive(1, [OF_ANY])]
  }

  const SEVEN: Stock.Cell := Stock.Cell(0, None, Some(7), 0)

  function PairShelf(): Stock.Shelf
  {
    Stock.Add(Stock.Add(Stock.EMPTY.shelf, SEVEN, 1), Stock.Cell(0, None, None, 0), 1)
  }

  lemma PairArrives()
    ensures var received := Run(PairWorld(), PairReceipts());
            && ReceiveGoods(PairWorld(), 0, [OF_BATCH]).Ok?
            && ReceiveGoods(Step(PairWorld(), Receive(0, [OF_BATCH])), 1, [OF_ANY]).Ok?
            && received.order == PairWorld().order.(status := Received, lines := [PairLine(1), PairLine(1)])
            && Stock.PurchaseReturnTx(0) !in received.stock.transactions && received.stock.shelf == PairShelf()
  {
    hide ReceiveGoods;
    var w := PairWorld();
    SinglesAreWhole(PairLine(0), 1);
    SingleReceipt(w, 0, OF_BATCH);
    var between := ReceiveGoods(w, 0, [OF_BATCH]).value;
    assert w.order.lines[0 := PairLine(1)] == [PairLine(1), PairLine(0)];
    assert between.order.lines[0].received > 0 && between.order.lines[1].received < between.order.lines[1].ordered;
    SingleReceipt(between, 1, OF_ANY);
    assert between.order.lines[1 := PairLine(1)] == [PairLine(1), PairLine(1)];
    TwoCalls(w, Receive(0, [OF_BATCH]), Receive(1, [OF_ANY]));
  }

  /** Both orders of the two items return everything that was received, as it was received. */
  lemma PairRequest(o: Order, items: seq<Item>)
    requires o == PairWorld().order.(status := Received, lines := [PairLine(1), PairLine(1)])
    requires items == [OF_ANY, OF_BATCH] || items == [OF_BATCH, OF_ANY]
    ensures Proper(o, items) && TakesAll(o, items)
  {
    NoRefusalMeans(o, items);
    forall k | 0 <= k < 2 ensures QuantityOf(items, k) == 1 {
      QuantityOfNamed(items, k);
      assert items[0].line == k || items[1].line == k;
    }
  }

  lemma PairRows()
    ensures WellFormed(PairShelf()) && Stock.Get(PairShelf(), SEVEN) == 1
    ensures Place(Rows(PairShelf(), 0, 0, None), SEVEN) == 0
    ensures Stocked(PairShelf(), Stock.OfItem(0, None, 0)) == 2
  {
    var none := Stock.Cell(0, None, None, 0);
    var one := Stock.Add(Stock.EMPTY.shelf, SEVEN, 1);
    assert one.created == [SEVEN] && PairShelf().created == [SEVEN, none];
    assert [SEVEN, none][..1] == [SEVEN] && [SEVEN][..0] == [];
    assert Stock.Filter([], Stock.OfItem(0, None, 0)) == [];
    assert Stock.Filter([SEVEN], Stock.OfItem(0, None, 0)) == [SEVEN];
    StockedAdd(Stock.EMPTY.shelf, SEVEN, 1, Stock.OfItem(0, None, 0));
    StockedAdd(one, none, 1, Stock.OfItem(0, None, 0));
  }

  function UnitBack(batch: Option<nat>): Stock.ReceiptLine
  {
    Stock.ReceiptLine(0, None, batch, 1, 100)
  }

  lemma OneAsked(l: Stock.ReceiptLine, row: Stock.Cell)
    ensures AskedOfRow(0, [l], row) == AskedOf(0, l, row)
    ensures AskedOfAny([l], row.product, row.variant) == AskedAnywhere(l, row.product, row.variant)
    ensures UnitsAsked([l], l.product, l.variant) == Fifo.Max(0, l.quantity)
  {
    AsksUnfold(0, [l], row, row.product, row.variant);
    AsksUnfold(0, [l][..0], row, row.product, row.variant);
    AskedUnfolds([l], l.product, l.variant);
    assert UnitsAsked([l][..0], l.product, l.variant) == 0;
  }

  /** The unit without a batch takes the oldest row, which is that of the batch; the other way round both fit. */
  lemma PairFits()
    ensures !FitsInOrder(PairShelf(), 0, [UnitBack(None), UnitBack(Some(7))])
    ensures FitsInOrder(PairShelf(), 0, [UnitBack(Some(7)), UnitBack(None)])
  {
    hide AskedOfRow, AskedOfAny, UnitsAsked, PairShelf, Stocked, Rows;
    var any, seven := UnitBack(None), UnitBack(Some(7));
    PairRows();
    OneAsked(any, SEVEN);
    OneAsked(seven, SEVEN);
    AsksUnfold(0, [], SEVEN, 0, None);
    assert [any, seven][..1] == [any] && [seven, any][..1] == [seven] && [seven, any][..0] == [];
    assert Sum(Fifo.Positive(Unnamed(PairShelf(), 0, [any], []))) == 0;
    assert LeftOf(PairShelf(), 0, [any], SEVEN) == 0;
    assert !LineFits(PairShelf(), 0, [any, seven][..1], [any, seven][1]);
    NothingSpills(PairShelf(), 0, [], SEVEN);
    assert LineFits(PairShelf(), 0, [seven, any][..1], any);
  }

  lemma PairLines(o: Order)
    requires o.lines == [PairLine(1), PairLine(1)]
    ensures Convertible(o, [OF_ANY, OF_BATCH]) && Convertible(o, [OF_BATCH, OF_ANY])
    ensures ReturnLines(o, [OF_ANY, OF_BATCH]) == [UnitBack(None), UnitBack(Some(7))]
    ensures ReturnLines(o, [OF_BATCH, OF_ANY]) == [UnitBack(Some(7)), UnitBack(None)]
  {
    RoundsToItself(1 as real * Multiplier(PairLine(1)), 1);
    RoundsToItself(100 as real / Multiplier(PairLine(1)), 100);
  }

  lemma RefusedForStock(w: World, uid: nat, items: seq<Item>)
    requires WellFormed(w.stock.shelf) && Passes(w.order, items) && Convertible(w.order, items)
    requires Stock.PurchaseReturnTx(uid) !in w.stock.transactions && !SendGoodsBack(w, uid, items).Ok?
    ensures SendGoodsBack(w, uid, items) == Err(StockRefused(Stock.OutOfStock))
  {
    Books.PairPosts(Books.AccountsPayable, Books.InventoryAsset, Refund(w.order, items), Books.Cogs);
  }

  lemma PairIsUntouched()
    ensures Untouched(PairWorld().order) && WholeUnits(PairWorld().order.lines) && Inv(PairWorld().stock)
    ensures StockFor(PairWorld(), 0) == 0 == StockFor(PairWorld(), 1)
    ensures TermsKept(PairReceipts()) && DistinctRun(PairReceipts()) && Undisturbed(PairReceipts())
  {
    EmptyInv();
    assert LineOk(PairWorld().order, 0) && LineOk(PairWorld().order, 1);
    assert WholeLine(PairLine(0));
  }

  /** Each line is returned as it was received, nothing else moves and no stock was negative; the return is
      refused for its order alone. */
  lemma OrderDecidesReturn()
    ensures var w, received := PairWorld(), Run(PairWorld(), PairReceipts());
            && Untouched(w.order) && WholeUnits(w.order.lines) && Inv(w.stock)
            && StockFor(w, 0) == 0 == StockFor(w, 1) && Undisturbed(PairReceipts())
            && ReceiveGoods(w, 0, [OF_BATCH]).Ok? && ReceiveGoods(Step(w, Receive(0, [OF_BATCH])), 1, [OF_ANY]).Ok?
            && Proper(received.order, [OF_ANY, OF_BATCH]) && TakesAll(received.order, [OF_ANY, OF_BATCH])
            && SendGoodsBack(received, 0, [OF_ANY, OF_BATCH]) == Err(StockRefused(Stock.OutOfStock))
            && SendGoodsBack(received, 0, [OF_BATCH, OF_ANY]).Ok?
  {
    hide *;
    PairArrives();
    PairIsUntouched();
    PairReturns(Run(PairWorld(), PairReceipts()));
  }

  lemma PairReturns(received: World)
    requires received.order == PairWorld().order.(status := Received, lines := [PairLine(1), PairLine(1)])
    requires received.stock.shelf == PairShelf() && Stock.PurchaseReturnTx(0) !in received.stock.transactions
    ensures Proper(received.order, [OF_ANY, OF_BATCH]) && TakesAll(received.order, [OF_ANY, OF_BATCH])
    ensures SendGoodsBack(received, 0, [OF_ANY, OF_BATCH]) == Err(StockRefused(Stock.OutOfStock))
    ensures SendGoodsBack(received, 0, [OF_BATCH, OF_ANY]).Ok?
  {
    PairRequest(received.order, [OF_ANY, OF_BATCH]);
    PairRequest(received.order, [OF_BATCH, OF_ANY]);
    hide SendGoodsBack, TakesAll, FitsInOrder, WellFormed, Passes, PairShelf, NamesEachOnce, LeftOf;
    PairRows();
    PairFits();
    PairLines(received.order);
    PassingReturnFitsExactly(received, 0, [OF_ANY, OF_BATCH]);
    PassingReturnFitsExactly(received, 0, [OF_BATCH, OF_ANY]);
    RefusedForStock(received, 0, [OF_ANY, OF_BATCH]);
  }

  // ---------------------------------------------------------------- half units

  /** Two boxes of which each is half a base unit. */
  function HalfLine(received: nat): Line
  {
    Line(0, None, Some(0.5), 2, received, 100, 0)
  }

  function HalfWorld(): World
  {
    World(Order(Ordered, 0, 0, [HalfLine(0)], [], false), Stock.EMPTY)
  }

  const TWO_UNITS: seq<Item> := [Item(0, 2, None)]

  function HalfReceipts(): seq<Event>
  {
    [Receive(0, ONE_UNIT), Receive(1, ONE_UNIT)]
  }

  lemma HalvesRound()
    ensures BaseUnits(HalfLine(0), 1) == 0 == BaseUnits(HalfLine(1), 1) && BaseUnits(HalfLine(2), 2) == 1
  {
    assert (1 as real * 0.5).Floor == 0;
    RoundsToItself(2 as real * 0.5, 1);
  }

  lemma HalvesArrive()
    ensures var received := Run(HalfWorld(), HalfReceipts());
            && ReceiveGoods(HalfWorld(), 0, ONE_UNIT).Ok?
            && ReceiveGoods(Step(HalfWorld(), Receive(0, ONE_UNIT)), 1, ONE_UNIT).Ok?
            && received.order == HalfWorld().order.(status := Received, lines := [HalfLine(2)])
            && Stock.PurchaseReturnTx(0) !in received.stock.transactions
            && WellFormed(received.stock.shelf) && Stocked(received.stock.shelf, Stock.OfItem(0, None, 0)) == 0
  {
    hide ReceiveGoods, BaseUnits, Stocked;
    var w, none := HalfWorld(), Stock.Cell(0, None, None, 0);
    HalvesRound();
    SingleReceipt(w, 0, ONE_UNIT[0]);
    var between := ReceiveGoods(w, 0, ONE_UNIT).value;
    assert between.order.lines == [HalfLine(1)];
    assert between.order.lines[0].received > 0 && between.order.lines[0].received < between.order.lines[0].ordered;
    SingleReceipt(between, 1, ONE_UNIT[0]);
    TwoCalls(w, Receive(0, ONE_UNIT), Receive(1, ONE_UNIT));
    NothingIsStocked(none);
  }

  lemma NothingIsStocked(none: Stock.Cell)
    requires none == Stock.Cell(0, None, None, 0)
    ensures var shelf := Stock.Add(Stock.Add(Stock.EMPTY.shelf, none, 0), none, 0);
            WellFormed(shelf) && Stocked(shelf, Stock.OfItem(0, None, 0)) == 0
  {
    StockedAdd(Stock.EMPTY.shelf, none, 0, Stock.OfItem(0, None, 0));
    StockedAdd(Stock.Add(Stock.EMPTY.shelf, none, 0), none, 0, Stock.OfItem(0, None, 0));
  }

  lemma HalvesAsked(o: Order)
    requires o == HalfWorld().order.(status := Received, lines := [HalfLine(2)])
    ensures Proper(o, TWO_UNITS) && TakesAll(o, TWO_UNITS) && Convertible(o, TWO_UNITS)
    ensures |ReturnLines(o, TWO_UNITS)| == 1
    ensures var l := ReturnLines(o, TWO_UNITS)[0]; l.product == 0 && l.variant == None == l.batch && l.quantity == 1
  {
    HalvesRound();
    NoRefusalMeans(o, TWO_UNITS);
    TotalOfOne(TWO_UNITS[0], (i: Item) => if i.line == 0 then i.quantity else 0);
  }

  lemma HalvesDoNotFit(shelf: Stock.Shelf, l: Stock.ReceiptLine)
    requires Stocked(shelf, Stock.OfItem(0, None, 0)) == 0
    requires l.product == 0 && l.variant == None == l.batch && l.quantity == 1
    ensures !FitsInOrder(shelf, 0, [l])
  {
    assert UnitsAsked([], 0, None) == 0;
    assert !LineFits(shelf, 0, [l][..0], [l][0]);
  }

  /** Each box rounds to nothing as it arrives, both together to one unit as they go back: the return of
      everything that was received is refused, though nothing else moves. */
  lemma HalfUnitsCannotGoBack()
    ensures var w, received := HalfWorld(), Run(HalfWorld(), HalfReceipts());
            && Inv(w.stock) && Untouched(w.order)
            && ReceiveGoods(w, 0, ONE_UNIT).Ok? && ReceiveGoods(Step(w, Receive(0, ONE_UNIT)), 1, ONE_UNIT).Ok?
            && Proper(received.order, TWO_UNITS) && TakesAll(received.order, TWO_UNITS)
            && SendGoodsBack(received, 0, TWO_UNITS) == Err(StockRefused(Stock.OutOfStock))
  {
    HalfOrderIsUntouched();
    hide HalfWorld, HalfReceipts, ReceiveGoods, SendGoodsBack, Run, Inv, Untouched, Stocked, FitsInOrder, WellFormed, TakesAll, Passes;
    HalvesArrive();
    var received := Run(HalfWorld(), HalfReceipts());
    HalfRefused(received);
  }

  lemma HalfRefused(received: World)
    requires received.order == HalfWorld().order.(status := Received, lines := [HalfLine(2)])
    requires Stock.PurchaseReturnTx(0) !in received.stock.transactions
    requires WellFormed(received.stock.shelf) && Stocked(received.stock.shelf, Stock.OfItem(0, None, 0)) == 0
    ensures Proper(received.order, TWO_UNITS) && TakesAll(received.order, TWO_UNITS)
    ensures SendGoodsBack(received, 0, TWO_UNITS) == Err(StockRefused(Stock.OutOfStock))
  {
    hide SendGoodsBack, Stocked, FitsInOrder, WellFormed, TakesAll, Passes;
    HalvesAsked(received.order);
    var lines := ReturnLines(received.order, TWO_UNITS);
    assert lines == [lines[0]];
    HalvesDoNotFit(received.stock.shelf, lines[0]);
    PassingReturnFitsExactly(received, 0, TWO_UNITS);
    RefusedForStock(received, 0, TWO_UNITS);
  }

  lemma HalfOrderIsUntouched()
    ensures Untouched(HalfWorld().order) && Inv(HalfWorld().stock)
  {
    EmptyInv();
    assert LineOk(HalfWorld().order, 0);
  }
}

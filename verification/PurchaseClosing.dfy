/** Returning an order's goods: exactly when a return goes through, in the order of its items and in every
    order, batches named or not; and that receiving and returning everything restores stock and books. */
module PurchaseClosing {
  import opened Results
  import opened Sums
  import opened Purchase
  import opened PurchaseRuns
  import opened PurchaseReturns
  import opened PurchaseLedger
  import opened PurchaseBatches
  import opened PurchaseNetting
  import Books
  import Fifo
  import Stock
  import opened StockInvariants

  // ---------------------------------------------------------------- whether a return succeeds

  /** A return request that passes the checks. */
  predicate Passes(o: Order, items: seq<Item>)
  {
    items != [] && !o.status.Cancelled? && ReturnsRefusal(o, items).None?
  }

  /** It also names no line twice. */
  predicate Proper(o: Order, items: seq<Item>)
  {
    Passes(o, items) && NamesEachOnce(items)
  }

  predicate NamesNoBatch(items: seq<Item>)
  {
    forall i :: 0 <= i < |items| ==> items[i].batch.None?
  }

  /** It leaves nothing to return. */
  predicate TakesAll(o: Order, items: seq<Item>)
  {
    forall k :: 0 <= k < |o.lines| ==> QuantityOf(o.returned, k) + QuantityOf(items, k) == o.lines[k].received
  }

  lemma ProperFitsRest(o: Order, items: seq<Item>)
    requires QuantitiesOk(o) && Proper(o, items)
    ensures AllPositive(items) && Within(o.returned, o.lines) && Within(items, Without(o.lines, o.returned))
  {
    NoRefusalIsPositive(o, items);
    NoRefusalMeans(o, items);
    QuantitiesAreWithin(o);
    forall i | 0 <= i < |items| ensures items[i].line < |o.lines| {
      assert ReturnRefusal(o, items[i]).None?;
    }
    forall k | 0 <= k < |o.lines| ensures 0 <= QuantityOf(items, k) <= o.lines[k].received - QuantityOf(o.returned, k) {
      QuantityOfNamed(items, k);
      if i :| 0 <= i < |items| && items[i].line == k {
        assert ReturnRefusal(o, items[i]).None?;
      }
    }
  }

  lemma WholeIsConvertible(o: Order, items: seq<Item>)
    requires WholeUnits(o.lines) && forall i :: 0 <= i < |items| ==> items[i].line < |o.lines|
    ensures Convertible(o, items)
  {
    forall i | 0 <= i < |items| ensures Multiplier(o.lines[items[i].line]) != 0.0 {
      assert WholeLine(o.lines[items[i].line]);
    }
  }

  lemma PassesMeans(o: Order, items: seq<Item>)
    requires Passes(o, items)
    ensures AllPositive(items) && forall i :: 0 <= i < |items| ==> items[i].line < |o.lines|
  {
    NoRefusalIsPositive(o, items);
    NoRefusalMeans(o, items);
    forall i | 0 <= i < |items| ensures items[i].line < |o.lines| {
      assert ReturnRefusal(o, items[i]).None?;
    }
  }

  /** A request that passes the checks goes through exactly if there is enough for each of its items once
      the ones before have been taken. */
  lemma PassingReturnFitsExactly(w: World, uid: nat, items: seq<Item>)
    requires WellFormed(w.stock.shelf) && Passes(w.order, items) && Convertible(w.order, items)
    requires Stock.PurchaseReturnTx(uid) !in w.stock.transactions
    ensures SendGoodsBack(w, uid, items).Ok? <==>
              FitsInOrder(w.stock.shelf, w.order.warehouse, ReturnLines(w.order, items))
  {
    ReturnFitsExactly(w.stock.shelf, w.order.warehouse, ReturnLines(w.order, items));
    Books.PairPosts(Books.AccountsPayable, Books.InventoryAsset, Refund(w.order, items), Books.Cogs);
  }

  lemma WholeLinesAsk(o: Order, items: seq<Item>)
    requires Passes(o, items) && WholeUnits(o.lines)
    ensures Convertible(o, items) && Asking(ReturnLines(o, items))
  {
    PassesMeans(o, items);
    WholeIsConvertible(o, items);
    var lines := ReturnLines(o, items);
    forall i | 0 <= i < |lines| ensures lines[i].quantity > 0 {
      var l := o.lines[items[i].line];
      WholeConversion(l, items[i].quantity);
      assert items[i].quantity * Whole(l) > 0;
    }
  }

  /** The stock of an item's product and variant, over all batches. */
  function StockFor(w: World, line: nat): int
    requires line < |w.order.lines|
  {
    Stocked(w.stock.shelf, Stock.OfItem(w.order.lines[line].product, w.order.lines[line].variant, w.order.warehouse))
  }

  /** The stock of an item's product and variant without the order's goods: what there was before the first
      receipt, and what others have moved since. */
  function OtherStock(w: World, events: seq<Event>, line: nat): int
    requires line < |w.order.lines|
  {
    var l := w.order.lines[line];
    StockFor(w, line) + RunOthersMoved(w, events, Stock.OfItem(l.product, l.variant, w.order.warehouse))
  }

  /** For one product and variant: the stock covers a proper request exactly if the stock without the
      order's goods and what the request leaves unreturned are together not negative. */
  lemma CoveredExactly(w: World, events: seq<Event>, items: seq<Item>, product: nat, variant: Option<nat>)
    requires Untouched(w.order) && WholeUnits(w.order.lines) && WellFormed(w.stock.shelf)
    requires TermsKept(events) && DistinctRun(events) && Proper(Run(w, events).order, items)
    ensures var now, units := Run(w, events), UnitWeight(w.order.lines, product, variant);
            && QuantitiesOk(now.order) && WholeUnits(now.order.lines) && WellFormed(now.stock.shelf)
            && Convertible(now.order, items) && Within(now.order.returned, now.order.lines)
            && Within(items, Without(now.order.lines, now.order.returned))
            && var left := ReceivedWeighted(Without(Without(now.order.lines, now.order.returned), items), units);
               && left >= 0
               && (TakesAll(now.order, items) ==> left == 0)
               && (Covered(now.stock.shelf, w.order.warehouse, ReturnLines(now.order, items), product, variant) <==>
                     Stocked(w.stock.shelf, Stock.OfItem(product, variant, w.order.warehouse))
                       + RunOthersMoved(w, events, Stock.OfItem(product, variant, w.order.warehouse)) + left >= 0)
  {
    var now, units := Run(w, events), UnitWeight(w.order.lines, product, variant);
    UnitWeightWeighs(w.order.lines, product, variant);
    StockFollowsQuantities(w, events, units, product, variant);
    RunKeepsQuantities(w, events);
    NothingOutstandingAtFirst(w.order, units);
    OutstandingIsRest(now.order, units);
    ProperFitsRest(now.order, items);
    WholeIsConvertible(now.order, items);
    ReturnAsksUnits(now.order, items, units, product, variant);
    RestAfterReturn(now.order, items, units, product, variant);
  }

  lemma RestAfterReturn(o: Order, items: seq<Item>, units: nat -> int, product: nat, variant: Option<nat>)
    requires WholeUnits(o.lines) && WeighsUnits(units, o.lines, product, variant) && AllPositive(items)
    requires Within(o.returned, o.lines) && Within(items, Without(o.lines, o.returned))
    ensures var rest := Without(o.lines, o.returned);
            var left := ReceivedWeighted(Without(rest, items), units);
            && ReceivedWeighted(rest, units) == Weighted(items, units) + left
            && left >= 0 && (TakesAll(o, items) ==> left == 0)
  {
    var rest := Without(o.lines, o.returned);
    WeightOfTheRest(rest, items, units);
    forall k | 0 <= k < |o.lines| ensures units(k) >= 0 {
      assert WholeLine(o.lines[k]);
    }
    WeightIsNotNegative(Without(rest, items), units);
    if TakesAll(o, items) { WeightOfNothing(Without(rest, items), units); }
  }

  /** What an item needs for its return to go through wherever it comes among the others. Without a batch:
      that the stock would not be negative without the order's goods. With one: that its row holds what is
      asked of it, and what the items without a batch may take of it. */
  predicate Served(w: World, events: seq<Event>, items: seq<Item>, i: nat)
    requires i < |items| && items[i].line < |w.order.lines| && Convertible(Run(w, events).order, items)
  {
    if items[i].batch.None? then OtherStock(w, events, items[i].line) >= 0
    else
      var now := Run(w, events);
      var lines := ReturnLines(now.order, items);
      Spared(now.stock.shelf, w.order.warehouse, lines, lines[i])
  }

  predicate AllServed(w: World, events: seq<Event>, items: seq<Item>)
    requires Convertible(Run(w, events).order, items) && forall i :: 0 <= i < |items| ==> items[i].line < |w.order.lines|
  {
    forall i :: 0 <= i < |items| ==> Served(w, events, items, i)
  }

  lemma ItemsAreOfOrder(w: World, events: seq<Event>, items: seq<Item>)
    requires WholeUnits(w.order.lines) && WellFormed(w.stock.shelf) && TermsKept(events) && Passes(Run(w, events).order, items)
    ensures WellFormed(Run(w, events).stock.shelf)
    ensures var now := Run(w, events).order;
            Convertible(now, items) && Asking(ReturnLines(now, items)) && now.warehouse == w.order.warehouse
    ensures forall i :: 0 <= i < |items| ==> items[i].line < |w.order.lines|
  {
    RunKeepsTerms(w, events);
    UnitWeightWeighs(w.order.lines, 0, None);
    UnitsKeep(Run(w, events).order.lines, w.order.lines, UnitWeight(w.order.lines, 0, None), 0, None);
    StockFollowsReceipts(w, events, 0, None);
    WholeLinesAsk(Run(w, events).order, items);
    PassesMeans(Run(w, events).order, items);
  }

  /** An item without a batch is served exactly if all that is asked for is there, when all is returned. */
  lemma ServedIsSpared(w: World, events: seq<Event>, items: seq<Item>, i: nat)
    requires Untouched(w.order) && WholeUnits(w.order.lines) && WellFormed(w.stock.shelf)
    requires TermsKept(events) && DistinctRun(events) && Proper(Run(w, events).order, items) && i < |items|
    ensures var now := Run(w, events);
            && Convertible(now.order, items) && items[i].line < |w.order.lines|
            && var lines := ReturnLines(now.order, items);
               && (Served(w, events, items, i) ==> Spared(now.stock.shelf, w.order.warehouse, lines, lines[i]))
               && (TakesAll(now.order, items) && Spared(now.stock.shelf, w.order.warehouse, lines, lines[i]) ==>
                     Served(w, events, items, i))
  {
    ItemsAreOfOrder(w, events, items);
    RunKeepsTerms(w, events);
    var lines := ReturnLines(Run(w, events).order, items);
    CoveredExactly(w, events, items, lines[i].product, lines[i].variant);
  }

  /** Whatever others did in between, a return that leaves every item served succeeds. A return of
      everything that names no batch succeeds exactly then: while the stock of its products would not be
      negative without the order's goods. */
  lemma ReturnSucceedsExactly(w: World, events: seq<Event>, uid: nat, items: seq<Item>)
    requires Untouched(w.order) && WholeUnits(w.order.lines) && WellFormed(w.stock.shelf)
    requires TermsKept(events) && DistinctRun(events) && Proper(Run(w, events).order, items)
    requires Stock.PurchaseReturnTx(uid) !in Run(w, events).stock.transactions
    ensures Convertible(Run(w, events).order, items) && forall i :: 0 <= i < |items| ==> items[i].line < |w.order.lines|
    ensures SendGoodsBack(Run(w, events), uid, items).Ok? <==>
              FitsInOrder(Run(w, events).stock.shelf, w.order.warehouse, ReturnLines(Run(w, events).order, items))
    ensures AllServed(w, events, items) ==> SendGoodsBack(Run(w, events), uid, items).Ok?
    ensures TakesAll(Run(w, events).order, items) && NamesNoBatch(items) ==>
              (SendGoodsBack(Run(w, events), uid, items).Ok? <==>
                 forall i :: 0 <= i < |items| ==> OtherStock(w, events, items[i].line) >= 0)
  {
    hide Run, SendGoodsBack, Stock.PurchaseReturnMoves, OtherStock, Untouched, WholeUnits, WellFormed, TermsKept, DistinctRun;
    hide TakesAll, FitsInOrder, Asking, Covered;
    var now := Run(w, events);
    ItemsAreOfOrder(w, events, items);
    PassingReturnFitsExactly(now, uid, items);
    var lines := ReturnLines(now.order, items);
    ReturnFitsExactly(now.stock.shelf, w.order.warehouse, lines);
    forall i | 0 <= i < |items|
      ensures Served(w, events, items, i) ==> Spared(now.stock.shelf, w.order.warehouse, lines, lines[i])
      ensures TakesAll(now.order, items) && Spared(now.stock.shelf, w.order.warehouse, lines, lines[i]) ==>
                Served(w, events, items, i)
    {
      ServedIsSpared(w, events, items, i);
    }
    if AllServed(w, events, items) { SparedReturnFits(now.stock.shelf, w.order.warehouse, lines); }
    if NamesNoBatch(items) { BatchlessReturnFitsExactly(now.stock.shelf, w.order.warehouse, lines); }
  }

  /** Where the items that name a batch come first, they need no more than their rows, told from those items
      alone. */
  lemma NamedFirstSucceedsExactly(w: World, events: seq<Event>, uid: nat, items: seq<Item>, n: nat)
    requires Untouched(w.order) && WholeUnits(w.order.lines) && WellFormed(w.stock.shelf)
    requires TermsKept(events) && DistinctRun(events) && Proper(Run(w, events).order, items)
    requires Stock.PurchaseReturnTx(uid) !in Run(w, events).stock.transactions
    requires TakesAll(Run(w, events).order, items)
    requires n <= |items| && NamesNoBatch(items[n..]) && forall i :: 0 <= i < n ==> items[i].batch.Some?
    ensures Convertible(Run(w, events).order, items) && forall i :: 0 <= i < |items| ==> items[i].line < |w.order.lines|
    ensures SendGoodsBack(Run(w, events), uid, items).Ok? <==>
              && RowsCoverNamed(Run(w, events).stock.shelf, w.order.warehouse, ReturnLines(Run(w, events).order, items)[..n])
              && forall i :: n <= i < |items| ==> OtherStock(w, events, items[i].line) >= 0
  {
    hide Run, SendGoodsBack, Stock.PurchaseReturnMoves, OtherStock, Untouched, WholeUnits, WellFormed, TermsKept, DistinctRun;
    hide TakesAll, FitsInOrder, RowsCoverNamed, Asking, Covered, AllNamed, Batchless;
    var now := Run(w, events);
    ItemsAreOfOrder(w, events, items);
    PassingReturnFitsExactly(now, uid, items);
    var lines := ReturnLines(now.order, items);
    ReturnFitsExactly(now.stock.shelf, w.order.warehouse, lines);
    NamedThenBatchless(now.order, items, n);
    NamedFirstFitsExactly(now.stock.shelf, w.order.warehouse, lines, n);
    forall i | n <= i < |items|
      ensures OtherStock(w, events, items[i].line) >= 0
         <==> Covered(now.stock.shelf, w.order.warehouse, lines, lines[i].product, lines[i].variant)
    {
      assert items[n..][i - n].batch.None?;
      CoveredIfAllTaken(w, events, items, i);
    }
  }

  lemma CoveredIfAllTaken(w: World, events: seq<Event>, items: seq<Item>, i: nat)
    requires Untouched(w.order) && WholeUnits(w.order.lines) && WellFormed(w.stock.shelf)
    requires TermsKept(events) && DistinctRun(events) && Proper(Run(w, events).order, items) && i < |items|
    requires TakesAll(Run(w, events).order, items) && items[i].batch.None?
    ensures Convertible(Run(w, events).order, items) && items[i].line < |w.order.lines|
    ensures var lines := ReturnLines(Run(w, events).order, items);
            (OtherStock(w, events, items[i].line) >= 0 <==>
               Covered(Run(w, events).stock.shelf, w.order.warehouse, lines, lines[i].product, lines[i].variant))
  {
    ServedIsSpared(w, events, items, i);
  }

  lemma NamedThenBatchless(o: Order, items: seq<Item>, n: nat)
    requires Convertible(o, items)
    requires n <= |items| && NamesNoBatch(items[n..]) && forall i :: 0 <= i < n ==> items[i].batch.Some?
    ensures AllNamed(ReturnLines(o, items)[..n]) && Batchless(ReturnLines(o, items)[n..])
  {
    var lines := ReturnLines(o, items);
    forall i | n <= i < |lines| ensures lines[i].batch.None? {
      assert items[n..][i - n].batch.None?;
    }
  }

  // ---------------------------------------------------------------- whatever the order of the items

  /** The program takes the items by product, in random order within a product. */
  function ProductOf(o: Order, i: Item): nat
  {
    if i.line < |o.lines| then o.lines[i.line].product else 0
  }

  predicate ByProduct(o: Order, items: seq<Item>)
  {
    forall i, j :: 0 <= i < j < |items| ==> ProductOf(o, items[i]) <= ProductOf(o, items[j])
  }

  predicate Reordered(o: Order, items: seq<Item>, order: seq<Item>)
  {
    multiset(order) == multiset(items) && ByProduct(o, order)
  }

  function Insert(o: Order, sorted: seq<Item>, item: Item): seq<Item>
  {
    if sorted == [] then [item]
    else
      var front, last := sorted[..|sorted| - 1], sorted[|sorted| - 1];
      if ProductOf(o, item) < ProductOf(o, last) then Insert(o, front, item) + [last] else sorted + [item]
  }

  function Sorted(o: Order, items: seq<Item>): seq<Item>
  {
    if items == [] then [] else Insert(o, Sorted(o, items[..|items| - 1]), items[|items| - 1])
  }

  predicate ComesLast(o: Order, items: seq<Item>, j: nat)
    requires j < |items|
  {
    forall k :: j < k < |items| ==> ProductOf(o, items[k]) != ProductOf(o, items[j])
  }

  lemma {:induction false} InsertKeepsItems(o: Order, sorted: seq<Item>, item: Item)
    ensures multiset(Insert(o, sorted, item)) == multiset(sorted) + multiset{item}
  {
    if sorted != [] {
      var front, last := sorted[..|sorted| - 1], sorted[|sorted| - 1];
      assert sorted == front + [last];
      if ProductOf(o, item) < ProductOf(o, last) { InsertKeepsItems(o, front, item); }
    }
  }

  predicate UpTo(o: Order, items: seq<Item>, product: nat)
  {
    forall i :: 0 <= i < |items| ==> ProductOf(o, items[i]) <= product
  }

  lemma SortedUpToLast(o: Order, front: seq<Item>, last: Item)
    requires ByProduct(o, front + [last])
    ensures ByProduct(o, front) && UpTo(o, front, ProductOf(o, last))
  {
    assert forall i :: 0 <= i < |front| ==> (front + [last])[i] == front[i];
    assert (front + [last])[|front|] == last;
  }

  lemma SortedOneMore(o: Order, front: seq<Item>, last: Item)
    requires ByProduct(o, front) && UpTo(o, front, ProductOf(o, last))
    ensures ByProduct(o, front + [last])
  {
  }

  lemma LastStays(o: Order, front: seq<Item>, last: Item, j: nat)
    requires j < |front| && ComesLast(o, front, j) && ProductOf(o, last) != ProductOf(o, front[j])
    ensures ComesLast(o, front + [last], j)
  {
  }

  /** An item can be put last of its product. */
  lemma {:induction false} InsertPutsLast(o: Order, sorted: seq<Item>, item: Item, bound: nat) returns (j: nat)
    requires ByProduct(o, sorted) && UpTo(o, sorted, bound) && ProductOf(o, item) <= bound
    ensures var all := Insert(o, sorted, item);
            ByProduct(o, all) && UpTo(o, all, bound) && j < |all| && all[j] == item && ComesLast(o, all, j)
  {
    hide ByProduct;
    if sorted == [] {
      j := 0;
      SortedNone(o);
      SortedOneMore(o, [], item);
      assert [] + [item] == [item];
    } else {
      var front, last := sorted[..|sorted| - 1], sorted[|sorted| - 1];
      assert sorted == front + [last];
      SortedUpToLast(o, front, last);
      if ProductOf(o, item) < ProductOf(o, last) {
        j := InsertPutsLast(o, front, item, ProductOf(o, last));
        SortedOneMore(o, Insert(o, front, item), last);
        LastStays(o, Insert(o, front, item), last, j);
      } else {
        j := |sorted|;
        SortedOneMore(o, sorted, item);
      }
    }
  }

  lemma SortedNone(o: Order)
    ensures ByProduct(o, [])
  {
  }

  function Bound(o: Order, items: seq<Item>): (b: nat)
    ensures UpTo(o, items, b)
  {
    if items == [] then 0
    else
      var front, last := Bound(o, items[..|items| - 1]), ProductOf(o, items[|items| - 1]);
      if last < front then front else last
  }

  lemma {:induction false} SortedSorts(o: Order, items: seq<Item>)
    ensures multiset(Sorted(o, items)) == multiset(items) && ByProduct(o, Sorted(o, items))
  {
    if items != [] {
      var front, last := items[..|items| - 1], items[|items| - 1];
      SortedSorts(o, front);
      InsertKeepsItems(o, Sorted(o, front), last);
      var j := InsertPutsLast(o, Sorted(o, front), last, Bound(o, Sorted(o, front) + [last]));
      assert items == front + [last];
    }
  }

  lemma OrderWithLast(o: Order, items: seq<Item>, i: nat) returns (order: seq<Item>, j: nat)
    requires i < |items|
    ensures Reordered(o, items, order) && j < |order| && order[j] == items[i] && ComesLast(o, order, j)
  {
    var rest := items[..i] + items[i + 1..];
    SortedSorts(o, rest);
    InsertKeepsItems(o, Sorted(o, rest), items[i]);
    j := InsertPutsLast(o, Sorted(o, rest), items[i], Bound(o, Sorted(o, rest) + [items[i]]));
    order := Insert(o, Sorted(o, rest), items[i]);
    ElementsWithout(items, i);
  }

  lemma ReorderedPasses(o: Order, items: seq<Item>, order: seq<Item>)
    requires multiset(order) == multiset(items) && Passes(o, items)
    ensures Passes(o, order) && |order| == |items|
    ensures forall i :: 0 <= i < |order| ==> order[i] in items
  {
    NoRefusalMeans(o, items);
    NoRefusalMeans(o, order);
    assert |multiset(order)| == |order| && |multiset(items)| == |items|;
    forall i | 0 <= i < |order| ensures order[i] in items && ReturnRefusal(o, order[i]).None? {
      assert order[i] in multiset(order);
      assert order[i] in multiset(items);
    }
  }

  /** What the lines of a request ask for does not depend on its order. */
  lemma SameAsked(o: Order, items: seq<Item>, order: seq<Item>, f: Stock.ReceiptLine -> int)
    requires multiset(order) == multiset(items) && Convertible(o, items) && Convertible(o, order)
    ensures Total(ReturnLines(o, order), f) == Total(ReturnLines(o, items), f)
  {
    var g := (i: Item) =>
      if i.line < |o.lines| && Multiplier(o.lines[i.line]) != 0.0 then f(InBaseUnits(o.lines[i.line], i)) else 0;
    TotalsAgree(ReturnLines(o, items), items, f, g);
    TotalsAgree(ReturnLines(o, order), order, f, g);
    TotalOfReordered(order, items, g);
  }

  lemma SameSpill(shelf: Stock.Shelf, o: Order, items: seq<Item>, order: seq<Item>, row: Stock.Cell)
    requires multiset(order) == multiset(items) && Convertible(o, items) && Convertible(o, order)
    ensures AskedOfRow(o.warehouse, ReturnLines(o, order), row) == AskedOfRow(o.warehouse, ReturnLines(o, items), row)
    ensures Spill(shelf, o.warehouse, ReturnLines(o, order), row) == Spill(shelf, o.warehouse, ReturnLines(o, items), row)
  {
    var a, b := ReturnLines(o, order), ReturnLines(o, items);
    var rows := Rows(shelf, o.warehouse, row.product, row.variant);
    var before := rows[..Place(rows, row)];
    forall c: Stock.Cell ensures AskedOfRow(o.warehouse, a, c) == AskedOfRow(o.warehouse, b, c) {
      SameAsked(o, items, order, (l: Stock.ReceiptLine) => AskedOf(o.warehouse, l, c));
    }
    SameAsked(o, items, order, (l: Stock.ReceiptLine) => AskedAnywhere(l, row.product, row.variant));
    assert Unnamed(shelf, o.warehouse, a, before) == Unnamed(shelf, o.warehouse, b, before);
  }

  lemma SameLeft(shelf: Stock.Shelf, o: Order, items: seq<Item>, order: seq<Item>, row: Stock.Cell)
    requires multiset(order) == multiset(items) && Convertible(o, items) && Convertible(o, order)
    ensures LeftOf(shelf, o.warehouse, ReturnLines(o, order), row) == LeftOf(shelf, o.warehouse, ReturnLines(o, items), row)
  {
    SameSpill(shelf, o, items, order, row);
  }

  lemma SameSpared(shelf: Stock.Shelf, o: Order, items: seq<Item>, order: seq<Item>, l: Stock.ReceiptLine)
    requires multiset(order) == multiset(items) && Convertible(o, items) && Convertible(o, order)
    ensures Spared(shelf, o.warehouse, ReturnLines(o, order), l) == Spared(shelf, o.warehouse, ReturnLines(o, items), l)
  {
    SameSpill(shelf, o, items, order, RowOf(o.warehouse, l));
    SameAsked(o, items, order, (m: Stock.ReceiptLine) =>
      if m.product == l.product && m.variant == l.variant then Fifo.Max(0, m.quantity) else 0);
  }

  lemma ReorderedAsks(o: Order, items: seq<Item>, order: seq<Item>)
    requires multiset(order) == multiset(items) && Convertible(o, items) && Asking(ReturnLines(o, items))
    ensures Convertible(o, order) && Asking(ReturnLines(o, order))
    ensures forall j :: 0 <= j < |order| ==> ReturnLines(o, order)[j] in ReturnLines(o, items)
  {
    forall j | 0 <= j < |order|
      ensures order[j].line < |o.lines| && Multiplier(o.lines[order[j].line]) != 0.0
      ensures InBaseUnits(o.lines[order[j].line], order[j]) in ReturnLines(o, items)
    {
      assert order[j] in multiset(order);
      assert order[j] in multiset(items);
      var i :| 0 <= i < |items| && items[i] == order[j];
      assert ReturnLines(o, items)[i] == InBaseUnits(o.lines[items[i].line], items[i]);
    }
  }

  /** One item, put last of its product: if the return goes through, there is enough for it wherever it comes. */
  lemma LastItemIsSpared(w: World, uid: nat, items: seq<Item>, order: seq<Item>, i: nat, j: nat)
    requires WellFormed(w.stock.shelf) && Passes(w.order, items)
    requires Convertible(w.order, items) && Asking(ReturnLines(w.order, items))
    requires Reordered(w.order, items, order) && SendGoodsBack(w, uid, order).Ok?
    requires i < |items| && j < |order| && order[j] == items[i] && ComesLast(w.order, order, j)
    ensures Spared(w.stock.shelf, w.order.warehouse, ReturnLines(w.order, items), ReturnLines(w.order, items)[i])
  {
    ReorderedPasses(w.order, items, order);
    ReorderedAsks(w.order, items, order);
    var lines := ReturnLines(w.order, order);
    PassingReturnFitsExactly(w, uid, order);
    assert LastOfProduct(lines, j) by {
      forall k | j < k < |lines| ensures lines[k].product != lines[j].product {
        assert ProductOf(w.order, order[k]) != ProductOf(w.order, order[j]);
      }
    }
    LastIsSpared(w.stock.shelf, w.order.warehouse, lines, j);
    SameSpared(w.stock.shelf, w.order, items, order, lines[j]);
  }

  predicate AllSpared(w: World, items: seq<Item>)
    requires Convertible(w.order, items)
  {
    var lines := ReturnLines(w.order, items);
    forall l :: l in lines ==> Spared(w.stock.shelf, w.order.warehouse, lines, l)
  }

  lemma SparedInEveryOrder(w: World, uid: nat, items: seq<Item>, order: seq<Item>)
    requires WellFormed(w.stock.shelf) && Passes(w.order, items)
    requires multiset(order) == multiset(items) && Stock.PurchaseReturnTx(uid) !in w.stock.transactions
    requires Convertible(w.order, items) && Asking(ReturnLines(w.order, items)) && AllSpared(w, items)
    ensures SendGoodsBack(w, uid, order).Ok?
  {
    ReorderedPasses(w.order, items, order);
    ReorderedAsks(w.order, items, order);
    var lines := ReturnLines(w.order, order);
    forall j | 0 <= j < |lines| ensures Spared(w.stock.shelf, w.order.warehouse, lines, lines[j]) {
      SameSpared(w.stock.shelf, w.order, items, order, lines[j]);
    }
    SparedReturnFits(w.stock.shelf, w.order.warehouse, lines);
    PassingReturnFitsExactly(w, uid, order);
    ReturnFitsExactly(w.stock.shelf, w.order.warehouse, lines);
  }

  /** Any request that passes its checks, in full or in part, batches named or not: it goes through in every
      order the program may take its items in exactly if for each there is enough wherever it comes. */
  lemma EveryOrderFitsExactly(w: World, uid: nat, items: seq<Item>)
    requires WellFormed(w.stock.shelf) && Passes(w.order, items)
    requires Convertible(w.order, items) && Asking(ReturnLines(w.order, items))
    requires Stock.PurchaseReturnTx(uid) !in w.stock.transactions
    ensures (forall order :: Reordered(w.order, items, order) ==> SendGoodsBack(w, uid, order).Ok?) <==> AllSpared(w, items)
  {
    hide SendGoodsBack, Spared, WellFormed, Passes, Asking;
    if forall order :: Reordered(w.order, items, order) ==> SendGoodsBack(w, uid, order).Ok? {
      var lines := ReturnLines(w.order, items);
      forall l | l in lines ensures Spared(w.stock.shelf, w.order.warehouse, lines, l) {
        var i :| 0 <= i < |lines| && lines[i] == l;
        var order, j := OrderWithLast(w.order, items, i);
        LastItemIsSpared(w, uid, items, order, i, j);
      }
    }
    if AllSpared(w, items) {
      forall order | Reordered(w.order, items, order) ensures SendGoodsBack(w, uid, order).Ok? {
        SparedInEveryOrder(w, uid, items, order);
      }
    }
  }

  lemma ProperPasses(o: Order, items: seq<Item>)
    requires Proper(o, items)
    ensures Passes(o, items)
  {
  }

  /** A return of everything goes through in every order exactly if every item is served. */
  lemma ReturnSucceedsInEveryOrder(w: World, events: seq<Event>, uid: nat, items: seq<Item>)
    requires Untouched(w.order) && WholeUnits(w.order.lines) && WellFormed(w.stock.shelf)
    requires TermsKept(events) && DistinctRun(events) && Proper(Run(w, events).order, items)
    requires Stock.PurchaseReturnTx(uid) !in Run(w, events).stock.transactions
    requires TakesAll(Run(w, events).order, items)
    ensures Convertible(Run(w, events).order, items) && forall i :: 0 <= i < |items| ==> items[i].line < |w.order.lines|
    ensures (forall order :: Reordered(Run(w, events).order, items, order) ==> SendGoodsBack(Run(w, events), uid, order).Ok?)
       <==> AllServed(w, events, items)
  {
    hide Run, SendGoodsBack, OtherStock, Untouched, WholeUnits, WellFormed, TermsKept, DistinctRun;
    hide TakesAll, Asking, Spared, Served, Proper, Passes, Reordered;
    var now := Run(w, events);
    ProperPasses(now.order, items);
    ItemsAreOfOrder(w, events, items);
    EveryOrderFitsExactly(now, uid, items);
    var lines := ReturnLines(now.order, items);
    forall i | 0 <= i < |lines|
      ensures Served(w, events, items, i) <==> Spared(now.stock.shelf, now.order.warehouse, lines, lines[i])
    {
      ServedIsSpared(w, events, items, i);
    }
    assert AllSpared(now, items) <==>
             forall i :: 0 <= i < |lines| ==> Spared(now.stock.shelf, now.order.warehouse, lines, lines[i]);
  }

  /** And all orders that go through leave the same in every row of the warehouse. */
  lemma OrdersLeaveTheSame(w: World, uid: nat, items: seq<Item>, order: seq<Item>, row: Stock.Cell)
    requires WellFormed(w.stock.shelf) && multiset(order) == multiset(items) && row.warehouse == w.order.warehouse
    requires SendGoodsBack(w, uid, items).Ok? && SendGoodsBack(w, uid, order).Ok?
    ensures Stock.Get(SendGoodsBack(w, uid, order).value.stock.shelf, row)
         == Stock.Get(SendGoodsBack(w, uid, items).value.stock.shelf, row)
  {
    var a, b := ReturnLines(w.order, order), ReturnLines(w.order, items);
    ReturnLeavesOfRow(w.stock.shelf, w.order.warehouse, a, row);
    ReturnLeavesOfRow(w.stock.shelf, w.order.warehouse, b, row);
    SameLeft(w.stock.shelf, w.order, items, order, row);
  }

  // ---------------------------------------------------------------- receiving and returning

  /** Receiving an order in any number of receipts and then returning all that is left, batches named or
      not, whatever other services do in between: where it succeeds it restores, beside what the others
      moved and posted, the stock of every product and variant and, without discounts, every account. It
      succeeds if every item is served, and without batches exactly if the stock of the products would not
      be negative without the order's goods. */
  lemma ReceivingAndReturningNets(w: World, events: seq<Event>, uid: nat, items: seq<Item>,
                                  product: nat, variant: Option<nat>, account: Books.Account)
    requires Untouched(w.order) && WholeUnits(w.order.lines) && WellFormed(w.stock.shelf)
    requires TermsKept(events) && DistinctRun(events)
    requires Proper(Run(w, events).order, items) && TakesAll(Run(w, events).order, items)
    requires Stock.PurchaseReturnTx(uid) !in Run(w, events).stock.transactions
    ensures Convertible(Run(w, events).order, items) && forall i :: 0 <= i < |items| ==> items[i].line < |w.order.lines|
    ensures AllServed(w, events, items) ==> SendGoodsBack(Run(w, events), uid, items).Ok?
    ensures NamesNoBatch(items) ==>
              (SendGoodsBack(Run(w, events), uid, items).Ok? <==>
                 forall i :: 0 <= i < |items| ==> OtherStock(w, events, items[i].line) >= 0)
    ensures SendGoodsBack(Run(w, events), uid, items).Ok? ==>
              && var r, p := SendGoodsBack(Run(w, events), uid, items).value, Stock.OfItem(product, variant, w.order.warehouse);
                 && Stocked(r.stock.shelf, p) == Stocked(w.stock.shelf, p) + RunOthersMoved(w, events, p)
                 && (Undiscounted(w.order.lines) ==>
                       BookNet(r.stock.books, account)
                       == BookNet(w.stock.books, account) + RunOthersPosted(w, events, account))
  {
    ReturnSucceedsExactly(w, events, uid, items);
    if SendGoodsBack(Run(w, events), uid, items).Ok? {
      ReturnOfAllNets(w, events, uid, items, product, variant, account);
    }
  }

  lemma AllIsReturned(w: World, uid: nat, items: seq<Item>)
    requires TakesAll(w.order, items) && SendGoodsBack(w, uid, items).Ok?
    ensures Step(w, SendBack(uid, items)) == SendGoodsBack(w, uid, items).value
    ensures EverythingReturned(SendGoodsBack(w, uid, items).value.order)
  {
    var after := SendGoodsBack(w, uid, items).value.order;
    forall k | 0 <= k < |after.lines| ensures QuantityOf(after.returned, k) == after.lines[k].received {
      QuantityOfAppend(w.order.returned, items, k);
    }
  }

  lemma OneMoreReturn(events: seq<Event>, uid: nat, items: seq<Item>)
    requires TermsKept(events) && DistinctRun(events) && NamesEachOnce(items)
    ensures TermsKept(events + [SendBack(uid, items)]) && DistinctRun(events + [SendBack(uid, items)])
  {
  }

  lemma ReturnOfAllNets(w: World, events: seq<Event>, uid: nat, items: seq<Item>,
                        product: nat, variant: Option<nat>, account: Books.Account)
    requires Untouched(w.order) && WholeUnits(w.order.lines) && WellFormed(w.stock.shelf)
    requires TermsKept(events) && DistinctRun(events)
    requires NamesEachOnce(items) && TakesAll(Run(w, events).order, items) && SendGoodsBack(Run(w, events), uid, items).Ok?
    ensures var r, p := SendGoodsBack(Run(w, events), uid, items).value, Stock.OfItem(product, variant, w.order.warehouse);
            && Stocked(r.stock.shelf, p) == Stocked(w.stock.shelf, p) + RunOthersMoved(w, events, p)
            && (Undiscounted(w.order.lines) ==>
                  BookNet(r.stock.books, account)
                  == BookNet(w.stock.books, account) + RunOthersPosted(w, events, account))
  {
    hide *;
    var last := SendBack(uid, items);
    var all := events + [last];
    RunAppend(w, events, last);
    OthersAppend(w, events, last, Stock.OfItem(product, variant, w.order.warehouse), account);
    AllIsReturned(Run(w, events), uid, items);
    OneMoreReturn(events, uid, items);
    ReturningAllRestoresStock(w, all, product, variant);
    if Undiscounted(w.order.lines) { ReturningAllRestoresBooks(w, all, account); }
  }

  /** With no other movement in between: where it succeeds, stock and accounts are as they were before the
      order. Without batches it succeeds exactly if no product of the order had negative stock then. */
  lemma UndisturbedOrderNets(w: World, events: seq<Event>, uid: nat, items: seq<Item>,
                             product: nat, variant: Option<nat>, account: Books.Account)
    requires Untouched(w.order) && WholeUnits(w.order.lines) && WellFormed(w.stock.shelf)
    requires TermsKept(events) && DistinctRun(events) && Undisturbed(events)
    requires Proper(Run(w, events).order, items) && TakesAll(Run(w, events).order, items)
    requires Stock.PurchaseReturnTx(uid) !in Run(w, events).stock.transactions
    ensures forall i :: 0 <= i < |items| ==> items[i].line < |w.order.lines|
    ensures NamesNoBatch(items) ==>
              (SendGoodsBack(Run(w, events), uid, items).Ok? <==>
                 forall i :: 0 <= i < |items| ==> StockFor(w, items[i].line) >= 0)
    ensures SendGoodsBack(Run(w, events), uid, items).Ok? ==>
              && var r, p := SendGoodsBack(Run(w, events), uid, items).value, Stock.OfItem(product, variant, w.order.warehouse);
                 && Stocked(r.stock.shelf, p) == Stocked(w.stock.shelf, p)
                 && (Undiscounted(w.order.lines) ==>
                       BookNet(r.stock.books, account) == BookNet(w.stock.books, account))
  {
    ReceivingAndReturningNets(w, events, uid, items, product, variant, account);
    forall i | 0 <= i < |items| ensures OtherStock(w, events, items[i].line) == StockFor(w, items[i].line) {
      UndisturbedStock(w, events, items[i].line);
    }
    UndisturbedMovesNothingElse(w, events, Stock.OfItem(product, variant, w.order.warehouse), account);
    hide *;
  }

  lemma UndisturbedStock(w: World, events: seq<Event>, line: nat)
    requires Undisturbed(events) && line < |w.order.lines|
    ensures OtherStock(w, events, line) == StockFor(w, line)
  {
    var l := w.order.lines[line];
    UndisturbedMovesNothingElse(w, events, Stock.OfItem(l.product, l.variant, w.order.warehouse), Books.Cogs);
  }

  lemma {:induction false} OthersAppend(w: World, events: seq<Event>, e: Event, p: Stock.Cell -> bool, account: Books.Account)
    requires !e.Elsewhere?
    ensures RunOthersMoved(w, events + [e], p) == RunOthersMoved(w, events, p)
    ensures RunOthersPosted(w, events + [e], account) == RunOthersPosted(w, events, account)
    decreases |events|
  {
    if events == [] {
      assert [] + [e] == [e] && [e][1..] == [];
      assert RunOthersMoved(Step(w, e), [], p) == 0 && RunOthersPosted(Step(w, e), [], account) == 0;
    } else {
      assert (events + [e])[1..] == events[1..] + [e];
      OthersAppend(Step(w, events[0]), events[1..], e, p, account);
    }
  }

  lemma {:induction false} RunAppend(w: World, events: seq<Event>, e: Event)
    ensures Run(w, events + [e]) == Step(Run(w, events), e)
    decreases |events|
  {
    if events == [] {
      assert [] + [e] == [e] && [e][1..] == [];
      assert Run(w, [e]) == Run(Step(w, e), []);
    } else {
      assert (events + [e])[1..] == events[1..] + [e];
      RunAppend(Step(w, events[0]), events[1..], e);
    }
  }
}

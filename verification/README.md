# Verification of the inventory, purchasing and team services

A Dafny model of the service layer of a multi-tenant inventory, purchasing and
invoicing backend, with machine-checked proofs of what it promises. Six parts
carry real algorithms or invariants over whole runs:

- **Stock engine** (`Fifo`, `Stock`, `StockInvariants`, `StockRuns`,
  `StockEffects`, `StockOrder`, `StockSteps`, `StockStore`). Inventory rows are
  a cache of an append-only ledger. Sales, returns, cancellations, opening
  stock, adjustments, counts, transfers, invoices, voids, purchase receipts and
  purchase returns all write both, and payments write the books. The cache agrees with the ledger in every reachable state, the expiry-ordered
  deduction is exact and optimal, and reversals undo what they should.
- **Money** (`Rounding`, `MoneyAllocation`, `Books`). Largest-remainder
  splitting is optimal and fair; double-entry posting accepts exactly what
  balances.
- **Purchase orders** (`Purchase`, `PurchaseRuns`, `PurchaseReturns`,
  `PurchaseCosts`, `PurchaseLedger`, `PurchaseBatches`, `PurchaseNetting`,
  `PurchaseClosing`, `PurchaseDrift`, `PurchaseExamples`, `PurchaseSteps`,
  `PurchaseService`).
  Quantities stay in bounds, receipt costs telescope, rounding drift in stock
  and books is bounded, and it is known exactly when receiving and returning
  succeeds, batches named or not, and nets to zero.
- **Members and invitations** (`Team`, `TeamInvariants`, `TeamRuns`,
  `TeamSteps`, `TeamService`). One Owner, seats within the plan, and the life of an
  invitation and of its token.
- **Seed registry** (`SeedRegistry`). The worklist closure and the dependency
  order.
- **Pure cores** (`InvoicePages`, `SchemaRefs`). Keyset pagination and the
  inlining of `$ref` in JSON schemas.

`Results` and `Sums` hold what the others share.

## How the model is built

Each stateful part is a state datatype, functions that say what one call comes
to, and an event type whose `Step` and `Run` give whole runs; refused calls
change nothing. Beside it stands a class with the fields and loops of the
services (`StockStore.Store`, `PurchaseService.PurchaseOrder`,
`TeamService.Organization`, `SeedRegistry.Registry`): every method is proved to
make exactly the step that the functions say, errors included, so what is
proved of all runs holds of the imperative form. What a step does is stated once
more apart from those functions (`StockOrder`, `StockSteps`, `PurchaseSteps`,
`TeamSteps`): exactly when it takes place, what every row and account then holds
and which error comes otherwise, told from the rows, dates and amounts before it. The stock methods ask only that
the table has one row for each cell, which every operation keeps; that cache,
ledger and books agree is kept beside it by every method but `Open`, which keeps
it exactly if the row held nothing.

Money is counted in cents, an integer once quantized and an exact real before
that. The 28-digit decimal context is idealised to exact arithmetic; the two
roundings in use (half-up for money, half-even for receipts) are modelled as
they are. A transaction becomes one atomic step; where the program takes no row
lock that is an assumption, listed under "Left out".

## Where the code does less than its documentation or intent

These are results: the code is modelled as it is, and each is stated with the
exact condition under which the intended property holds.

- Opening stock sets the row while the ledger gets a movement: cache and ledger
  agree afterwards exactly if the row held nothing
  (`StockInvariants.OpeningStockAgreesExactly`; two openings of a cell in
  `StockInvariants.SecondOpeningDisagrees`).
- Cancelling a sale puts everything on the row without a batch: totals over
  batches come back, single rows exactly if none of the sale's ledger entries is
  on a row of a batch (`StockEffects.CancellingRestoresRowsExactly`; a sale from a
  dated batch in `StockEffects.BatchIsNotRestored`).
- A customer return of which nothing is restocked posts the cost of all its items
  back to inventory: for costs that are not negative, inventory gains the cost of
  what goes back to stock exactly if something goes back or the items cost nothing
  (`StockSteps.ReturnBooksExactly`; a damaged unit in
  `StockSteps.DamagedReturnAddsInventory`).
- Reactivating a member checks no seat: a call pushes the seats over the plan
  exactly if it reactivates someone while no seat is free (`TeamRuns.SeatStep`; a
  run from creation that ends so in `TeamRuns.ReactivationOverfills`).
- The checks on a purchase return leave out the return under way: an accepted
  return keeps returned within received exactly if the request names no line
  twice (`PurchaseReturns.ReturnIsSafeExactly`; one unit returned twice in
  `PurchaseReturns.OneUnitReturnedTwice`).
- `update_purchase_order` and `create_purchase_order` let the client set any
  status: the status stays accurate exactly if the update claims nothing new
  about received goods (`PurchaseRuns.UpdateIsAccurateExactly`,
  `PurchaseRuns.UpdateCanLie`).
- A return of everything that was received can still be refused for stock. With
  whole multipliers and no batches named it succeeds exactly if no product of the
  order would have negative stock without the order's goods
  (`PurchaseClosing.ReturnSucceedsExactly`; a unit that cannot go back in
  `PurchaseExamples.NegativeStockBlocksReturn`). When it names batches the order of
  its items decides, and within a product the program's order is random. It
  succeeds in every order exactly if that holds for the items without a batch, and
  each row whose batch is named holds what is asked of it and what items without a
  batch ask for beyond the rows created before it
  (`PurchaseClosing.ReturnSucceedsInEveryOrder`). With the batches first it
  succeeds exactly if the rows hold what is asked of them by name and no product
  of the other items would have negative stock without the order's goods
  (`PurchaseClosing.NamedFirstSucceedsExactly`); in any given order exactly as
  `PurchaseBatches.ReturnFitsExactly` says. Two units that are received into an
  empty stock and returned as they were received, refused in one order of the items
  and accepted in the other: `PurchaseExamples.OrderDecidesReturn`.
- Receipts and returns round their base units one by one: with fractional
  multipliers, returning everything leaves the stock within half a unit for each
  naming of a line (`PurchaseDrift.ReturningAllIsNear`), and may be refused: two
  half units come in as nothing and go back as one
  (`PurchaseExamples.HalfUnitsCannotGoBack`).
- Refunds use the undiscounted cost: returning everything nets the books to zero
  exactly if the receipts posted that cost, and after a single full receipt
  exactly if the discounts come to nothing
  (`PurchaseNetting.ReturningAllNetsExactly`,
  `PurchaseNetting.OneReceiptNetsExactly`; a discounted unit in
  `PurchaseExamples.DiscountIsLost`).
- `allocate_amount` is documented to add up to exactly the amount; it adds up to
  the amount rounded to cents, so that holds exactly for whole cents
  (`MoneyAllocation.AllocationAddsUp`; half a cent in
  `MoneyAllocation.HalfCentIsLost`).
- `model_json_schema` inlines twice: its result has no resolvable reference, and is
  the full expansion, exactly if every definition that the walk through the schema
  meets refers to reference-free definitions only
  (`SchemaRefs.ModelJsonSchemaResolvesExactly`,
  `SchemaRefs.ModelJsonSchemaIsTheMeaning`; a schema over a chain of three
  references in `SchemaRefs.ThreeReferencesRemain`).

## Model

| member | source | states |
|---|---|---|
| `Fifo.CheckedTakesAreExact` | core/applications/inventory/services.py:112-171 | when the summed availability covers the request, the takes add up to exactly what was asked, even if some rows are negative |
| `Fifo.TakenTotal` | core/applications/inventory/services.py:139-171 | in any case the loop takes the smaller of the request and the sum of the positive rows |
| `Fifo.EarlierRowsAreDrained` | core/applications/inventory/services.py:139-171 | a later row gives something only after every earlier row has given all it had |
| `Fifo.TakesArePrefixOptimal` | core/applications/inventory/services.py:139-171 | no other legal deduction of the same total takes more from any prefix of the order |
| `Fifo.PrefixOptimalIsUnique` | core/applications/inventory/services.py:139-171 | and a legal deduction that takes as much from every prefix is this one |
| `Fifo.TakingTwice` | core/applications/inventory/services.py:139-171 | two deductions one after the other from the same rows leave in each what one of their sum leaves |
| `Stock.Filter` | core/applications/inventory/services.py:129-137 | the rows of a query are exactly those of the table that satisfy it |
| `StockOrder.OrderIsByDate` | core/applications/inventory/services.py:129-137 | of two rows in the deduction order, if the later one has an expiry date the earlier has one too, and no later one |
| `StockOrder.SaleUsesSoonestFirst` | core/applications/inventory/services.py:116-171 | over a whole sale, a row of a tracked product that has given something leaves nothing in a row of the same product, variant and warehouse that expires earlier, or on the same day and was created earlier; no such row gains |
| `StockOrder.InvoiceUsesSoonestFirst` | core/applications/inventory/services.py:701-730 | the same for a whole invoice |
| `StockRuns.DeductionByRow` | core/applications/inventory/services.py:139-171 | after a deduction each row of the order has given its take, and none that was not negative becomes negative |
| `StockRuns.DeductionElsewhere` | core/applications/inventory/services.py:139-171 | no row outside the order changes |
| `StockRuns.InvoiceKeepsNonNegative` | core/applications/inventory/services.py:701-730 | an invoice of any number of lines drives no row that was not negative below zero |
| `StockRuns.SaleAndInvoiceAgree` | core/applications/inventory/services.py:701-730 | over several items, each on the rows the ones before have left, sale and invoice refuse and deduct the same; their two loops are each proved to make that deduction in `StockStore.Store.DeductForSale` and `StockStore.Store.DeductForInvoice` |
| `StockRuns.SaleTotals` | core/applications/inventory/services.py:112-174 | a sale moves exactly the units its items ask for, per product and variant over all batches, and costs what its items cost |
| `StockSteps.SaleTakesPlaceExactly` | core/applications/inventory/services.py:83-186 | a sale takes place exactly if it did not before, there is stock for its tracked items (without a warehouse: it has none) and its whole-cent amounts agree; otherwise nothing changes |
| `StockSteps.SaleTakes` | core/applications/inventory/services.py:112-184 | a sale that takes place takes its items per product and variant and posts total, discount, subtotal, tax and the cost of its items, each to its account |
| `StockSteps.UntrackedSaleTakes` | core/applications/inventory/services.py:139-161 | of an untracked product a sale takes only from the row without a batch, below zero if need be |
| `StockSteps.CancelTakesPlace` | core/applications/inventory/services.py:236-283 | a cancellation takes place exactly if it did not before and the amounts agree; it puts all units on the rows without a batch and takes back what the sale of them posts |
| `StockSteps.InvoiceTakesPlaceExactly` | core/applications/inventory/services.py:678-733 | an invoice is deducted exactly if it was not before, it has a tracked line and there is enough for every tracked line; otherwise nothing changes |
| `StockSteps.InvoiceTakes` | core/applications/inventory/services.py:687-733 | it takes what its tracked lines ask for, per product and variant, at their present cost, and posts nothing |
| `StockInvariants.OpeningStockAgreesExactly` | core/applications/inventory/services.py:318-343 | opening stock keeps a cell equal to its ledger sum exactly if the cell held nothing |
| `StockInvariants.SecondOpeningDisagrees` | core/applications/inventory/services.py:318-343 | two openings of a cell: the row holds the second quantity, the ledger the sum |
| `StockInvariants.OutcomesAreOk` | core/applications/transactions/models.py:25-31 | every accepted operation uses a new transaction id and posts balanced lines; an invoice only takes, and a void is the reversal of its invoice's entries |
| `StockInvariants.ExecuteKeepsInv` | core/applications/inventory/services.py:129-174 | applying such an outcome keeps every cell equal to its ledger sum and every transaction balanced |
| `StockInvariants.StepKeepsInv` | core/applications/inventory/services.py:563-601 | so does every operation, opening stock on a new row included |
| `StockInvariants.RunKeepsInv` | core/applications/inventory/services.py:644-670 | in every state reached by any interleaving, each cell's quantity is the sum of its ledger entries, every transaction balances and so do the books as a whole |
| `StockInvariants.BooksAlwaysBalance` | core/applications/transactions/services.py:65-124 | whatever happens, payments and opening stock on any row included, every transaction and the books as a whole balance |
| `StockRuns.EveryTotalAgrees` | core/applications/inventory/services.py:829-860 | in every reached state the table holds of every group of cells, such as a product in all warehouses, what the ledger says |
| `StockRuns.TransfersConserve` | core/applications/inventory/services.py:511-535 | a transfer, single or bulk, keeps each product, variant and batch total over all warehouses |
| `StockRuns.VoidingIsExact` | core/applications/inventory/services.py:742-788 | whatever is interleaved, opening stock on any row included, once an invoice is voided its deduction and reversal together contribute nothing to any group of cells |
| `StockSteps.VoidTakesPlace` | core/applications/inventory/services.py:737-788 | voiding an invoice that has entries and was not voided: it takes place, every row gets back what those entries took, the books stay; without entries nothing happens |
| `StockSteps.VoidIsInverse` | core/applications/inventory/services.py:737-788 | an invoice is deducted, anything else happens, it is voided: the void puts back into every row what the invoice took out of it |
| `StockSteps.VoidKeepsCosts` | core/applications/inventory/services.py:770-785 | and at the costs at which it was taken |
| `StockRuns.ReversalUndoes` | core/applications/inventory/services.py:742-788 | the entries read back and negated are exactly what the invoice recorded, cell by cell |
| `StockRuns.AtMostOnce` | core/applications/transactions/models.py:25-31 | an operation whose transaction id is used changes nothing any more |
| `StockRuns.CancellationRestores` | core/applications/inventory/services.py:236-283 | cancelling a sale, however much later, gives back each product and variant total in the warehouse, and sale and cancellation net to zero in every account when purchase costs are unchanged |
| `StockEffects.CancellationRestoresRowsExactly` | core/applications/inventory/services.py:262-281 | every single row is restored exactly if the sale drew only on rows without a batch |
| `StockEffects.CancellingRestoresRowsExactly` | core/applications/inventory/services.py:262-281 | as told from the ledger before cancelling, whatever happened since the sale: every row is restored exactly if none of the sale's entries is on a row of a batch |
| `StockEffects.BatchIsNotRestored` | core/applications/inventory/services.py:262-281 | a unit sold from a dated batch and cancelled: the batch row is one short, the row without a batch one over |
| `StockRuns.RunKeepsEntries` | core/applications/inventory/services.py:742-752 | over any run the entries of a transaction that took place stay as they are and no others join them |
| `StockRuns.CancelAcceptedExactly` | core/applications/inventory/services.py:236-283 | a cancellation goes through exactly if the sale was not cancelled before and its amounts fit together |
| `StockRuns.SoldMeansCancellable` | core/applications/inventory/services.py:236-283 | a sale that went through can always be cancelled, once |
| `StockEffects.AvailableIsStocked` | core/applications/inventory/services.py:129-138 | the summed availability of the order is the stock of the product and variant over all batches |
| `StockEffects.InvoiceFitsExactly` | core/applications/inventory/services.py:701-712 | an invoice can be deducted exactly if each product and variant has, over all batches, what its lines together ask for, whatever their order |
| `StockEffects.SaleFitsExactly` | core/applications/inventory/services.py:112-171 | a sale of any items can be deducted exactly if for each tracked item there is, over all batches, what it and the items before it ask for |
| `StockEffects.TrackedSaleFitsExactly` | core/applications/inventory/services.py:112-171 | when all are tracked, exactly if each product and variant has what the whole sale asks for, whatever the order of items |
| `StockEffects.CountCorrectsExactly` | core/applications/inventory/services.py:644-670 | every row is shifted by the variances of all items that count it; a row counted once holds what was counted exactly if what was expected is still current |
| `StockSteps.AdjustmentTakesPlace` | core/applications/inventory/services.py:403-442 | an adjustment is approved once: it changes its row by the requested quantity, no other, and leaves one entry |
| `StockSteps.TransferShifts` | core/applications/inventory/services.py:511-535 | what leaves the source row arrives in the destination row, the same one included, no other row changes; refused exactly without a source row |
| `StockSteps.BulkTransferTakesPlace` | core/applications/inventory/services.py:539-601 | a bulk transfer is made exactly if it has items, was not made before and every source row exists; every row then loses what leaves it and gains what arrives in it |
| `StockSteps.TransferIsRecorded` | core/applications/inventory/services.py:511-601 | a transfer leaves two entries for each item, out of the source row and into the destination row, in the order of the items and at their costs |
| `StockSteps.CountIsRecorded` | core/applications/inventory/services.py:622-674 | a count leaves one entry for each item that was not as expected, at its cost, and nothing else; the books stay as they are |
| `StockSteps.OpeningTakesPlace` | core/applications/inventory/services.py:287-352 | opening stock is recorded once, at the given cost, and sets its row, no other |
| `StockSteps.ReturnTakesPlace` | core/applications/inventory/services.py:190-233 | a customer return is refused only as a repetition or for want of a place; it puts exactly the units marked for restocking on the rows without a batch, and posts the refund and the cost of those units or, if there are none, of all |
| `StockSteps.ReturnBooksExactly` | core/applications/transactions/services.py:358-372 | inventory gains the cost of what goes back to stock exactly if, where nothing goes back, the items cost nothing, and where something does, its cost is not negative |
| `StockSteps.DamagedReturnAddsInventory` | core/applications/transactions/services.py:367-372 | a damaged unit that is refunded and not restocked: no row changes and inventory gains its cost |
| `StockSteps.ReceiptTakesPlace` | core/applications/inventory/services.py:792-865 | a receipt takes place once: every row gains what the movements bring into it, of its batch, and the cost goes from payables to inventory |
| `StockSteps.CollectTakesPlace` | core/applications/transactions/services.py:222-245 | a customer payment posts its whole cents to cash against receivables, once, and moves no stock |
| `StockSteps.PayTakesPlace` | core/applications/transactions/services.py:418-443 | a payment to a supplier posts its whole cents from cash to payables, once, and moves no stock |
| `StockSteps.RefusesExactly` | core/applications/inventory/services.py:83-788 | each operation is refused exactly for the stated reason: as a repetition, for want of stock, of a warehouse, of a source row, or because amounts do not agree |
| `StockEffects.PurchaseReturnKeepsNonNegative` | core/applications/inventory/services.py:928-950 | a return to the supplier drives no row that was not negative below zero |
| `StockEffects.InKeyOrderSorts` | core/applications/inventory/services.py:821-828 | the movements of a receipt are applied by product, variant and batch, each once |
| `StockEffects.ReceiptTotals` | core/applications/inventory/services.py:829-860 | a receipt moves exactly what its movements bring in, per product and variant |
| `StockStore.LoopMakesDeduction` | core/applications/inventory/services.py:139-171 | wherever the loop stops, at the end or because nothing remains, its entries are the whole deduction |
| `StockStore.Store.constructor` | core/applications/transactions/models.py:18-31 | a new store is empty and in agreement |
| `StockStore.Store.DeductForSale` | core/applications/inventory/services.py:139-171 | the loop that updates rows in place leaves the rows and entries of the deduction |
| `StockStore.Store.DeductForInvoice` | core/applications/inventory/services.py:701-730 | the same for the loop with its early exits |
| `StockStore.Store.Sell` | core/applications/inventory/services.py:83-186 | all items in order on the rows the ones before have left, cost of goods, postings; or refused as a whole |
| `StockStore.Store.Return` | core/applications/inventory/services.py:190-233 | restocked items go to the row without a batch; refund and cost are posted |
| `StockStore.Store.Cancel` | core/applications/inventory/services.py:236-283 | all items go back to the row without a batch and the amounts are reversed |
| `StockStore.Store.Open` | core/applications/inventory/services.py:287-343 | the row is set and a movement logged; the store stays in agreement exactly if the row held nothing |
| `StockStore.Store.Adjust` | core/applications/inventory/services.py:403-442 | an approved adjustment moves row and ledger, once |
| `StockStore.Store.Count` | core/applications/inventory/services.py:622-675 | each variance of a count is added to its row and logged, once |
| `StockStore.Store.SingleTransfer` | core/applications/inventory/services.py:455-535 | a single transfer moves both rows, or is refused when the source row does not exist |
| `StockStore.Store.BulkTransfer` | core/applications/inventory/services.py:539-601 | a bulk transfer does so for all items or none |
| `StockStore.Store.Invoice` | core/applications/inventory/services.py:678-733 | tracked lines are deducted line after line, or the invoice is refused as a whole |
| `StockStore.Store.Void` | core/applications/inventory/services.py:737-788 | every deduction read back from the ledger is returned to its row |
| `StockStore.Store.Collect` | core/applications/payment/services/payments.py:293-305 | a customer's payment posts cash against receivables, once |
| `StockStore.Store.Pay` | core/applications/payment/services/payments.py:478-490 | a payment to a supplier posts payables against cash, once |
| `StockStore.Store.Receive` | core/applications/inventory/services.py:792-865 | every movement is added to its row, found or created, and the cost posted |
| `StockStore.Store.SendBack` | core/applications/inventory/services.py:869-953 | every line is taken from the rows of its product, of its batch only if one is named, and the refund posted |
| `Rounding.RoundHalfEven` | core/applications/purchase/services.py:439-441 | a nearest integer, and the even one on a tie |
| `Rounding.RoundHalfUp` | core/helper/money.py:11-27 | a nearest integer, and on a tie the one further from zero |
| `MoneyAllocation.HandOut` | core/helper/money.py:53-55 | the closing loop adds one cent to each of the first indices of the order and to no other |
| `MoneyAllocation.LeftoverBound` | core/helper/money.py:49-55 | the leftover is not negative and smaller than the number of shares with a fraction if there is one, else nothing, so each cent has a share to go to |
| `MoneyAllocation.AllocateAmount` | core/helper/money.py:30-56 | the parts are a largest-remainder split of the rounded amount over the effective weights |
| `MoneyAllocation.SplitIsUnique` | core/helper/money.py:48-56 | that description leaves no choice |
| `MoneyAllocation.AllocationAddsUp` | core/helper/money.py:30-56 | one part per weight; the sum is the amount exactly if the amount is whole cents |
| `MoneyAllocation.HalfCentIsLost` | core/helper/money.py:48-51 | the parts of half a cent add up to nothing |
| `MoneyAllocation.AllocationIsFair` | core/helper/money.py:48-56 | each part is within one cent of its exact share, and a zero weight gets nothing |
| `MoneyAllocation.PartIsNearExact` | core/helper/money.py:48-56 | that share is the amount times the weight over the sum of the weights |
| `MoneyAllocation.SplitIsOptimal` | core/helper/money.py:48-56 | no whole-cent split of the same total has a smaller sum of absolute deviations from the exact shares |
| `MoneyAllocation.AllocationFollowsWeights` | core/helper/money.py:52-55 | a larger weight never gets less of a non-negative amount; equal weights differ by at most a cent in favour of the earlier |
| `MoneyAllocation.PartsWithinWeights` | core/applications/sales/services/sales.py:155-161 | for whole-cent weights that cover the amount no part is negative or exceeds its weight, so a sale's discount never fails the check on its lines |
| `MoneyAllocation.HalfCentWeightIsExceeded` | core/helper/money.py:48-55 | of a cent over two weights of half a cent the first part is a whole cent, more than its weight |
| `MoneyAllocation.EvenSplit` | core/helper/money.py:43-46 | without positive total weight the split is even, the remainder a cent each to the first parts |
| `Books.CreateFinancialEntries` | core/applications/transactions/services.py:65-124 | the loop quantizes, refuses negatives, drops zeros and refuses an imbalance |
| `Books.PostingAcceptsExactly` | core/applications/transactions/services.py:80-124 | posting succeeds exactly if no quantized amount is negative and debits equal credits, and which error comes otherwise; what is written is balanced and has the net of the entries in every account |
| `Books.PostsNonZero` | core/applications/transactions/services.py:88-106 | the lines written are the entries that are not zero |
| `Books.SalePostsExactly` | core/applications/transactions/services.py:127-219 | a sale posts exactly if total + discount = subtotal + tax for non-negative amounts, whatever the cost of goods |
| `Books.CancellationPostsExactly` | core/applications/transactions/services.py:248-325 | a cancellation posts under exactly the same condition |
| `Books.CancellationNetsToZero` | core/applications/transactions/services.py:248-325 | sale and cancellation net to zero in every account, cost of goods and inventory included |
| `Books.SaleReturnPosts` | core/applications/transactions/services.py:328-387 | a customer return always posts, balanced: the refund from revenue to receivables, the restocked cost from cost of goods to inventory |
| `Books.TwoLinePostings` | core/applications/transactions/services.py:222-245 | customer payments, receipts, supplier payments and supplier returns always post, each moving its amount from the one account to the other |
| `PurchaseRuns.UpdatingKeepsQuantities` | core/applications/purchase/services.py:191-244 | an accepted update keeps 0 <= returned <= received <= ordered; if it replaces lines, nothing was or is received or returned |
| `PurchaseSteps.CreatesExactly` | core/applications/purchase/services.py:94-164 | an order is created exactly if every quantity is positive, each line with the client’s product, quantity, cost and discount; a missing cost is the catalogue’s times the unit’s multiplier, rounded half-even, a missing discount none |
| `PurchaseSteps.UpdatesExactly` | core/applications/purchase/services.py:178-244 | exactly when an update is accepted and which error comes otherwise; it sets the given fields, lines as given, and no other |
| `PurchaseSteps.NewLineIsWorth` | core/applications/purchase/models.py:310-312 | a new line is worth its quantity at its cost less its discount, never less than nothing |
| `PurchaseSteps.CreatedOrderCosts` | core/applications/purchase/services.py:432-436 | however the goods of a created order are split over receipts, once all has arrived their costs are what the client gave, discounts taken off line by line |
| `PurchaseSteps.ReceiptTakesPlaceExactly` | core/applications/purchase/services.py:364-476 | exactly when a receipt is accepted, all namings of a line together, what every row then gains, and which error comes otherwise |
| `PurchaseSteps.ReceivingFails` | core/applications/purchase/services.py:403-430 | the first item that cannot be received decides the error |
| `PurchaseSteps.ReceiptIsWorth` | core/applications/purchase/services.py:438-459 | the stock entries of a receipt are worth its base units at each line’s cost per base unit, both rounded half-even |
| `PurchaseSteps.ReturnPassesExactly` | core/applications/purchase/services.py:619-645 | a return request passes exactly if each item asks for no more than was received less earlier returns; the first that does not decides the error |
| `PurchaseSteps.ReturnTakesPlaceExactly` | core/applications/purchase/services.py:575-671 | exactly when a return is accepted, what it then leaves of every row of the warehouse and moves from inventory to payables, and which error comes otherwise |
| `PurchaseSteps.CancelsExactly` | core/applications/purchase/services.py:290-339 | an order is cancelled exactly if it is draft or ordered, with nothing received and no active payment; only its status changes |
| `PurchaseRuns.ReceiveItemsEffect` | core/applications/purchase/services.py:403-434 | a receipt adds to each line what all its items together bring, within what was ordered, however often a line is named |
| `PurchaseRuns.NoRefusalMeans` | core/applications/purchase/services.py:608-645 | a return request passes exactly if every single item does |
| `PurchaseRuns.RunKeepsQuantities` | core/applications/purchase/services.py:383-476 | over all runs 0 <= returned <= received <= ordered for every line, when return requests name no line twice |
| `PurchaseReturns.ReturnChecksSufficeExactly` | core/applications/purchase/services.py:629-645 | the checks protect every order from over-return exactly if the request names no line twice |
| `PurchaseReturns.AmpleStockServes` | core/applications/inventory/services.py:906-948 | rows that each hold all that is asked for serve any return, batches named or not |
| `PurchaseReturns.OverreturnIsAccepted` | core/applications/purchase/services.py:608-671 | for every request that names a line twice there is an order with accurate status and a reached stock on which it is accepted and returns more than was received |
| `PurchaseReturns.OneUnitReturnedTwice` | core/applications/purchase/services.py:608-671 | one unit received of two ordered, returned by two items of one request: accepted |
| `PurchaseReturns.ReturnIsSafeExactly` | core/applications/purchase/services.py:608-671 | on every order and stock an accepted return keeps returned within received exactly if the request names no line twice |
| `PurchaseRuns.ReceivingIsAccurate` | core/applications/purchase/services.py:468-473 | after a receipt the status is RECEIVED exactly if all lines are full, else PARTIALLY_RECEIVED |
| `PurchaseRuns.UpdateIsAccurateExactly` | core/applications/purchase/services.py:226-229 | an accepted update leaves the status accurate exactly if it claims nothing new about received goods |
| `PurchaseRuns.CreateIsAccurateExactly` | core/applications/purchase/services.py:118-164 | an order starts with an accurate status exactly if it is not created as received |
| `PurchaseRuns.UpdateCanLie` | core/applications/purchase/services.py:226-229 | an update can call any order with lines received, and cancel one with received goods, which cancelling refuses |
| `PurchaseRuns.RunKeepsStatus` | core/applications/purchase/services.py:468-476 | over all runs with truthful updates the status is accurate |
| `PurchaseRuns.CancelledIsFinal` | core/applications/purchase/services.py:383-388 | a cancelled order admits no receipt, return, cancellation or update ever after |
| `PurchaseRuns.CancellableExactly` | core/applications/purchase/services.py:303-325 | with an accurate status cancelling works exactly for a draft or ordered order without active payments |
| `PurchaseRuns.CancelledHasNothing` | core/applications/purchase/services.py:303-325 | a cancelled order has received and returned nothing |
| `PurchaseCosts.IncrementsAreNotNegative` | core/applications/purchase/services.py:432-436 | the cost increment of a receipt is never negative and is quantity times the discounted unit value |
| `PurchaseCosts.ReceiptCostIsIncrease` | core/applications/purchase/services.py:432-436 | a receipt costs, unrounded, exactly what it adds to the received value, also when it names a line several times |
| `PurchaseCosts.FullValueIsOrderedValue` | core/applications/purchase/models.py:301-312 | a fully received line is worth its ordered value |
| `PurchaseCosts.ReceiptsAddUpToOrder` | core/applications/purchase/services.py:432-436 | however goods are split over receipts, the costs add up to the received value, and to the ordered value once all has arrived |
| `PurchaseCosts.ReceiptsTelescope` | core/applications/purchase/services.py:432-436 | from any state of an order, over any run |
| `PurchaseCosts.PostedIsNearCost` | core/applications/purchase/services.py:461-466 | n roundings of receipt costs are together within n half-cents of their exact sum |
| `PurchaseLedger.BooksFollowReceipts` | core/applications/transactions/services.py:390-472 | over any run, other services in between included, each account moves by the posted receipts less the refunds and by what the others post |
| `PurchaseLedger.InventoryIsNearValue` | core/applications/purchase/services.py:461-466 | after n receipts the inventory account, refunds added back and what others posted taken off, is within n half-cents of the exact received value |
| `PurchaseCosts.StepPosts` | core/applications/transactions/services.py:390-415 | one step of the order moves exactly its rounded cost, less its refund, from payables to inventory and touches no other account |
| `PurchaseCosts.MovementsFollowItems` | core/applications/purchase/services.py:438-459 | each movement is its item in base units of its line at the line's cost per base unit |
| `PurchaseCosts.UnitsFollowQuantity` | core/applications/purchase/services.py:438-440 | over any run the base units converted for a line differ from quantity times multiplier by at most half a unit per naming in a receipt |
| `PurchaseLedger.StockFollowsReceipts` | core/applications/inventory/services.py:829-948 | over any run whose updates keep lines and warehouse, other services in between included, the stock of a product and variant moves by the base units received less those sent back and by what the others move |
| `PurchaseLedger.StockIsNearExact` | core/applications/purchase/services.py:438-440 | that stock, what was sent back added and what others moved taken off, is within half a unit per naming of the exact quantity times multiplier |
| `PurchaseLedger.ExactOfSoleLine` | core/applications/purchase/services.py:438-440 | for a line alone of its product and variant that is the line's own quantity times multiplier |
| `PurchaseDrift.StockIsNearOutstanding` | core/applications/purchase/services.py:438-440 | with any positive multipliers, over any run and what others moved taken off, stock follows the exact base units received and not returned within half a unit for each naming in a receipt or a return |
| `PurchaseDrift.ReturningAllIsNear` | core/applications/inventory/services.py:914-915 | so once everything is returned the stock differs from what it was, and what others moved, by at most that |
| `PurchaseLedger.PurchaseReturnTotals` | core/applications/inventory/services.py:906-948 | a purchase return takes exactly what its lines ask for, per product and variant |
| `PurchaseBatches.ReturnLeavesOfRow` | core/applications/inventory/services.py:906-948 | what an accepted return, batches named or not, leaves of each row: what names the row's batch is taken off, then what items without a batch ask for beyond the rows created before |
| `PurchaseBatches.ReturnFitsExactly` | core/applications/inventory/services.py:906-926 | batches named or not, in any order and with any quantities: a return fits exactly if for each line there is enough once the lines before it are taken, told from the stock before the return |
| `PurchaseBatches.NamedReturnFitsExactly` | core/applications/inventory/services.py:916-926 | when every line names a batch: exactly if each row holds what the lines together ask of it |
| `PurchaseBatches.NamedFirstFitsExactly` | core/applications/inventory/services.py:906-926 | when the lines that name a batch come first: exactly if each row holds what they together ask of it, and of each product and variant of the others there is what all lines ask for |
| `PurchaseBatches.BatchlessReturnFitsExactly` | core/applications/inventory/services.py:906-926 | when no line names a batch: exactly if each product and variant has, over all batches, what the lines together ask for |
| `PurchaseNetting.StockFollowsQuantities` | core/applications/purchase/services.py:403-466 | with whole multipliers, whatever the discounts and beside what others move, over any run stock moves by exactly what is received and not returned |
| `PurchaseNetting.PostedAddsUp` | core/applications/purchase/services.py:432-466 | without discounts the receipts post exactly the cost of what is received, whatever the split |
| `PurchaseNetting.RefundsAddUp` | core/applications/purchase/services.py:647-652 | refunds come to the undiscounted cost of what is returned |
| `PurchaseNetting.ReturningAllRestoresStock` | core/applications/purchase/services.py:608-671 | once everything received is returned, every product total is as before the first receipt, but for what others moved |
| `PurchaseNetting.ReturningAllNetsExactly` | core/applications/purchase/services.py:608-671 | then each account has moved, beside what others posted, by what the receipts posted less the undiscounted cost of the goods, with any discounts and multipliers |
| `PurchaseNetting.ReturningAllRestoresBooks` | core/applications/purchase/services.py:608-671 | without discounts every account is as before, but for what others posted |
| `PurchaseNetting.DiscountsStayInBooks` | core/applications/purchase/models.py:301-312 | all received and all returned in n receipts: inventory is short of the discounts, within n half-cents |
| `PurchaseNetting.OneReceiptNetsExactly` | core/applications/purchase/models.py:301-312 | with a single receipt exactly; the books net to zero exactly if the discounts come to nothing |
| `PurchaseExamples.DiscountIsLost` | core/applications/purchase/services.py:647-652 | a dollar's unit at 30 cents off is received and returned: inventory is left 30 cents short |
| `PurchaseClosing.PassingReturnFitsExactly` | core/applications/purchase/services.py:608-671 | with any multipliers that are not zero, a return that passes its checks goes through exactly if its base units fit, line after line |
| `PurchaseClosing.ReturnSucceedsExactly` | core/applications/inventory/services.py:906-926 | whatever others did in between: a proper return succeeds exactly if its lines fit in their order, and does if every item is served; a return of everything that names no batch succeeds exactly if stock without the order's goods is not negative |
| `PurchaseClosing.NamedFirstSucceedsExactly` | core/applications/inventory/services.py:906-926 | a return of everything with its batches first: exactly if their rows hold what is asked of them by name and stock without the order's goods is not negative for the other items |
| `PurchaseClosing.EveryOrderFitsExactly` | core/applications/inventory/services.py:897-904 | any request that passes its checks, in full or in part, goes through in every order by product exactly if for each item there is enough wherever it comes: all that is asked of its product and variant, or in the row of its batch all that is asked of it and what may spill over from items without |
| `PurchaseClosing.ReturnSucceedsInEveryOrder` | core/applications/inventory/services.py:897-904 | a return of everything goes through in every order by product exactly if every item is served: without a batch, stock without the order's goods is not negative; with one, its row holds what is asked of it and what may spill over from items without |
| `PurchaseClosing.OrdersLeaveTheSame` | core/applications/inventory/services.py:897-904 | all orders of a request that go through leave the same in every row of the warehouse |
| `PurchaseExamples.NegativeStockBlocksReturn` | core/applications/inventory/services.py:919-926 | a unit is received into stock that lacked one; its return passes all checks and is refused |
| `PurchaseExamples.OrderDecidesReturn` | core/applications/inventory/services.py:916-926 | a unit of a batch and a unit without are received into an empty stock and returned as received: refused with the unit without a batch first, accepted the other way round |
| `PurchaseExamples.HalfUnitsCannotGoBack` | core/applications/inventory/services.py:914-926 | two boxes of half a base unit arrive one by one; the return of both is refused though nothing else moves |
| `PurchaseClosing.ReceivingAndReturningNets` | core/applications/purchase/services.py:619-671 | receive in any number of receipts, return all that is left, batches named or not, others in between: where that succeeds it restores, beside what they did, stock and, without discounts, payables and inventory; it succeeds if every item is served, and without batches exactly then |
| `PurchaseClosing.UndisturbedOrderNets` | core/applications/purchase/services.py:619-671 | with no other movement in between: where it succeeds, stock and accounts are as they were; without batches it succeeds exactly if no product of the items had negative stock before the order |
| `PurchaseService.PurchaseOrder.ReceiveLoop` | core/applications/purchase/services.py:403-459 | lines updated in place item by item, the first failing item decides the error |
| `PurchaseService.PurchaseOrder.Receive` | core/applications/purchase/services.py:364-476 | a receipt updates lines, stock, books and status, or nothing |
| `PurchaseService.PurchaseOrder.SendBack` | core/applications/purchase/services.py:575-671 | a return is checked item by item, deducted, posted and kept, or refused as a whole |
| `PurchaseService.PurchaseOrder.Cancel` | core/applications/purchase/services.py:290-339 | cancels, or refuses with the first reason that applies |
| `PurchaseService.PurchaseOrder.Update` | core/applications/purchase/services.py:178-244 | sets the given fields; vendor, warehouse and lines are fixed once goods were received |
| `SeedRegistry.Closure` | core/seeding/registry.py:90-96 | the worklist ends on every registry and finds exactly the reachable seeds; it fails exactly when it reaches a name nobody registered |
| `SeedRegistry.TopologicalOrder` | core/seeding/registry.py:69-80 | every seed once, after its dependencies; fails exactly on an unknown dependency or a cycle |
| `SeedRegistry.OrderedIsAcyclic` | core/seeding/registry.py:77-80 | a registry that has such an order has no cycle |
| `SeedRegistry.StuckMeansCycle` | core/seeding/registry.py:77-80 | seeds none of which can come next hold a cycle |
| `SeedRegistry.Registry.Register` | core/seeding/registry.py:43-66 | a name is taken by one function; registering the same function again replaces its entry |
| `SeedRegistry.Registry.OrderedSeeds` | core/seeding/registry.py:83-98 | exactly the seeds reachable from the request less the skipped, once each, after their dependencies; dependency-closed without a skip; succeeds exactly for known names, known dependencies and no cycle |
| `TeamInvariants.StepKeepsInv` | core/applications/users/invitation_services.py:196-413 | every call keeps one pending invitation per address, none for a member, and one membership per accepted invitation |
| `TeamRuns.RunKeepsInv` | core/applications/users/invitation_services.py:124-189 | so it is in every reachable state |
| `TeamRuns.ExactlyOneOwner` | core/applications/users/services.py:206-213 | from creation on exactly one membership has the Owner role, it is active and the creator's; Administrator invitations and grants come from the Owner |
| `TeamRuns.AcceptSeats` | core/applications/users/invitation_services.py:332-413 | accepting leaves active members plus live invitations unchanged |
| `TeamSteps.AcceptJoinsExactly` | core/applications/users/invitation_services.py:332-413 | accepting makes a membership exactly if the organization is active, the token is that of a live invitation, the user is verified, has the invited address and no membership, the role is of the organization, and the plan covers the seats in use |
| `TeamSteps.AcceptMakesMember` | core/applications/users/invitation_services.py:384-398 | the new member has the invitation’s role, and the invitation is used up |
| `TeamSteps.AcceptOtherwise` | core/applications/users/invitation_services.py:340-382 | otherwise nothing changes: the user who accepted gets the membership back, and every refusal is the one that fits the case |
| `TeamSteps.InvitesExactly` | core/applications/users/invitation_services.py:196-240 | inviting succeeds exactly if the organization is active, the inviter may hand out the role, nobody with the address is or was a member, no live invitation is out for it and a seat is free; what it adds, and which error comes otherwise |
| `TeamSteps.ResendsExactly` | core/applications/users/invitation_services.py:244-282 | resending succeeds exactly for a pending invitation by who may manage it, a minute after it was last sent, and if it has expired only with a free seat; it gets a new token and seven more days |
| `TeamSteps.RevokesExactly` | core/applications/users/invitation_services.py:286-313 | revoking succeeds exactly for a pending invitation by who may manage it, and closes it |
| `TeamSteps.UpdatesExactly` | core/applications/users/services.py:428-464 | changing a member succeeds exactly for a manager who may change that member and hand out the role; what it sets, and which error comes otherwise |
| `TeamSteps.RemovesExactly` | core/applications/users/services.py:467-474 | removing succeeds exactly for who may change the member, and deactivates it |
| `TeamSteps.NormalizeMeans` | core/applications/users/invitation_services.py:207-207 | normalizing takes off all white space at both ends and turns capitals into small letters, nothing else |
| `TeamSteps.SeatsAreCounted` | core/applications/users/services.py:542-546 | the seats in use are the active members and the pending invitations that have not expired |
| `TeamSteps.InvitationLasts` | core/applications/users/invitation_services.py:356-359 | an invited user who is verified and no member can join for exactly seven days |
| `TeamSteps.DowngradeBlocksExactly` | core/applications/users/invitation_services.py:379-383 | after a change of plan a user who could join still can exactly if the new plan covers the seats in use |
| `TeamSteps.DeactivationCloses` | core/applications/users/invitation_services.py:78-85 | once an organization is deactivated nobody is invited, and no invitation is resent, revoked or accepted |
| `TeamRuns.SeatStep` | core/applications/users/services.py:542-546 | no call, tick or plan change raises that sum beyond the limit, except exactly a reactivation without a free seat |
| `TeamRuns.SeatsStayWithinLimit` | core/applications/users/invitation_services.py:130-133 | under a fixed limit the sum never exceeds it, over runs without reactivation |
| `TeamRuns.ReactivationOverfills` | core/applications/users/services.py:451-461 | from creation with two seats: a member joins and is removed, a third address is invited; reactivating the member then puts three seats in use |
| `TeamRuns.RunEvolves` | core/applications/users/invitation_services.py:253-270 | over whole runs status moves only from pending to accepted or revoked, and a changed token is always a new one |
| `TeamRuns.ResentTokenIsNeverAccepted` | core/applications/users/invitation_services.py:244-282 | the link an invitation had before it was resent is never accepted again |
| `TeamRuns.AcceptIsOnce` | core/applications/users/invitation_services.py:340-398 | after an accept, whatever follows, replaying it as the same user returns the same membership and changes nothing, and nobody else can use the token |
| `TeamRuns.RevokedIsNeverAccepted` | core/applications/users/invitation_services.py:286-313 | a revoked invitation is never accepted |
| `TeamService.Organization.constructor` | core/applications/users/services.py:181-213 | the creator is the one member, as Owner |
| `TeamService.Organization.SeatsInUse` | core/applications/users/services.py:542-546 | counts active members and live invitations |
| `TeamService.Organization.Create` | core/applications/users/invitation_services.py:196-240 | retires expired invitations for the address, checks member, seat and role, adds the invitation; or raises and changes nothing |
| `TeamService.Organization.Resend` | core/applications/users/invitation_services.py:244-282 | new token and expiry; an expired invitation needs a seat again |
| `TeamService.Organization.Revoke` | core/applications/users/invitation_services.py:286-313 | closes a pending invitation |
| `TeamService.Organization.Accept` | core/applications/users/invitation_services.py:332-413 | accepts, gives the membership back or refuses, in the order of the checks |
| `TeamService.Organization.UpdateMember` | core/applications/users/services.py:451-464 | changes role and active flag under the rules on who may change whom |
| `TeamService.Organization.RemoveMember` | core/applications/users/services.py:467-474 | deactivates under the same rules |
| `InvoicePages.ClampPageSize` | core/applications/invoice/queryset.py:91-92 | the limit itself between 1 and the maximum, otherwise the bound it is beyond |
| `InvoicePages.OrderByDescends` | core/applications/invoice/queryset.py:385-385 | the rows of the table, each as often as it is there, newest first |
| `InvoicePages.PageIsLimited` | core/applications/invoice/queryset.py:378-389 | a page is the first rows of what is to come, as many as asked for and at most 200; if it has fewer there are no more |
| `InvoicePages.PageIsNewest` | core/applications/invoice/queryset.py:378-389 | told from the columns: a page is newest first, older than the cursor, as long as asked for or all there is, and no row left out is newer than one of the page |
| `InvoicePages.RestAfterPage` | core/applications/invoice/queryset.py:378-389 | what is still to come after a page is what was to come less the page, whatever is inserted above the cursor |
| `InvoicePages.FollowIsPrefix` | core/applications/invoice/queryset.py:378-389 | from any cursor, the rows seen are the first of the descending rest, as many as the limits together allow or all |
| `InvoicePages.PaginationEnumerates` | core/applications/invoice/queryset.py:378-389 | following cursors from the first page with any limits yields every row exactly once in descending order, after at most as many fetches as there are rows |
| `InvoicePages.InsertionsAreInvisible` | core/applications/invoice/queryset.py:378-389 | rows inserted above the cursor never change the pages that follow |
| `SchemaRefs.InliningPreservesMeaning` | core/helper/interface.py:24-51 | one pass of inlining preserves the full expansion |
| `SchemaRefs.RewritingPreservesMeaning` | core/helper/interface.py:53-56 | so does rewriting the definitions first |
| `SchemaRefs.GetDefs` | core/helper/interface.py:53-56 | the prefixed definitions, each rewritten once; fails exactly if `$defs` is no dictionary or the walk through a definition raises |
| `SchemaRefs.DefinitionsFailExactly` | core/helper/interface.py:53-56 | no definitions if there is no `$defs`; it fails exactly if `$defs` is no dictionary or the walk through some definition meets a reference that is a list or a dictionary |
| `SchemaRefs.SchemaWithoutDefinitions` | core/helper/interface.py:58-68 | a schema without definitions stays as it is, or fails at a reference that is a list or a dictionary |
| `SchemaRefs.DefinitionsAreNamed` | core/helper/interface.py:53-56 | a definition goes by its name after `#/$defs/`, and nothing else goes by any name |
| `SchemaRefs.ReplacesExactly` | core/helper/interface.py:24-51 | `replace_ref` raises exactly if the walk meets a reference that is a list or a dictionary; otherwise every node it meets is a definition where it referred to one, keeps its length or keys, or stays as it is |
| `SchemaRefs.ModelJsonSchemaPreservesMeaning` | core/helper/interface.py:58-68 | the result means what the schema means |
| `SchemaRefs.InlineResolvesExactly` | core/helper/interface.py:24-51 | one pass leaves no resolvable reference exactly if the definitions it meets have none |
| `SchemaRefs.TwoPassesSufficeExactly` | core/helper/interface.py:53-68 | two passes leave none, for every schema, exactly if definitions refer to reference-free definitions only |
| `SchemaRefs.ModelJsonSchemaResolvesExactly` | core/helper/interface.py:58-68 | the result of a call has no resolvable reference exactly if every definition the walk through its schema meets refers to reference-free definitions only |
| `SchemaRefs.ThreeReferencesRemain` | core/helper/interface.py:58-68 | a schema that refers to the head of a chain of three references comes out as a resolvable reference to its third definition |
| `SchemaRefs.ChainIsAcyclic` | core/helper/interface.py:53-56 | and that chain is acyclic |
| `SchemaRefs.TwoPassesComputeTheMeaning` | core/helper/interface.py:53-68 | on acyclic definitions two passes keep the full expansion of every node, and return it exactly if every definition that the walk through the node meets refers to reference-free definitions only |
| `SchemaRefs.ModelJsonSchemaIsTheMeaning` | core/helper/interface.py:58-68 | the result is the full expansion exactly under that condition |

## Left out

- Database access, migrations, serializers, views, permissions tables, e-mail, audit records and document numbering: a service call is one atomic step, and whether an actor's role carries a permission is a parameter.
- Subscription and usage checks, and vendor, product, unit and warehouse belonging to the organization: the calls are modelled after these checks have passed.
- The tree `sketch/` and the invitation code in core/applications/users/services.py:313-425, which is not the live protocol.
- Supplier invoices and payments as documents: only what payments post and whether an order has an active one is kept. Deleting a purchase order is not modelled.
- Concurrency where the program takes no lock: `approve_stock_adjustment` (core/applications/inventory/services.py:438-442), the destination row of a transfer (core/applications/inventory/services.py:531-535, core/applications/inventory/services.py:596-601) and `create_opening_stock` (core/applications/inventory/services.py:339-343) update a row they have not locked, and `update_membership` and `remove_membership` lock the membership but not the organization (core/applications/users/services.py:428-434). That each is one atomic step is assumed.
- Adjustment requests and physical counts as documents: being pending or a draft is the same as their transaction not existing yet.
- Truncation of document ids in transaction ids, duplicate rows for keys with a null part, and batches or variants deleted after they were logged: ids are unique and a cell is one row.
- Sale and invoice quantities that are not whole base units: quantity times multiplier is taken to be an integer for sales; for receipts and purchase returns it is rounded as the code does.
- Unicode: addresses are lowered and stripped as ASCII, and addresses on file carry no surrounding white space.
- Tokens stand for their hashes and the generator never repeats one; time is in whole seconds.
- `StockStore.Store.Receive`: keys are numbers in the order of the program's key strings.
- `StockStore.Store.SendBack`: lines are deducted in the order given; the program orders them by product and then by a random key. `PurchaseClosing.ReturnSucceedsInEveryOrder` says exactly when every such order succeeds, and `PurchaseClosing.OrdersLeaveTheSame` that those that do leave the same rows.
- `StockStore.Store.Void`: entries are read back in ledger order; the program orders them by product, variant and batch.
- `StockStore.Store.Adjust`: does not model who approved the request and when.
- `PurchaseService.PurchaseOrder.SendBack`: a zero multiplier is reported before the stock is looked at; the program reports whichever of the two its loop meets first. Either way nothing changes.
- `PurchaseService.PurchaseOrder.Receive`: the batch of an item is given; finding or creating it by number, and dating it, is a separate step of the stock (`StockStore.Store.Redate`).
- `PurchaseService.PurchaseOrder.Cancel`: does not model that the order's supplier invoices are voided with it.
- `PurchaseService.PurchaseOrder.Update`: does not model fields that no other operation reads.
- `SeedRegistry.Registry.OrderedSeeds`: does not fix the order among seeds that do not depend on each other; the library sorter is replaced by a small one with the same contract.
- `SchemaRefs.ModelJsonSchemaPreservesMeaning`: dictionaries are maps, so the order of keys is not modelled; the variants that remove `$defs` from the result are left out.
- `TeamRuns.SeatsStayWithinLimit`: runs with a reactivation are excluded, because the code checks no seat there; `TeamRuns.SeatStep` says exactly when that breaks the limit.
- `PurchaseClosing.ReceivingAndReturningNets`: orders with fractional multipliers are excluded, because each receipt and each return rounds its units; `PurchaseDrift.ReturningAllIsNear` bounds what that leaves, for positive multipliers, and `PurchaseExamples.HalfUnitsCannotGoBack` shows that the return may be refused. What discounts do to the books is stated exactly in `PurchaseNetting.ReturningAllNetsExactly`.
- `PurchaseLedger.BooksFollowReceipts`: negative purchase costs are excluded, because nothing is posted for them.
- Non-negative stock after transfers, adjustments and counts: the code has no check there.

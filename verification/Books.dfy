/** Double-entry posting. Amounts are measured in cents: a real where the program holds a Decimal
    that is yet to be quantized, an integer afterwards. */
module Books {
  import opened Results
  import opened Rounding
  import opened Sums

  datatype Account =
    | CashBank | AccountsReceivable | AccountsPayable | SalesRevenue
    | Cogs | InventoryAsset | Discounts | TaxPayable

  /** `FinancialEntryData`. */
  datatype Entry = Entry(account: Account, debit: real, credit: real)

  /** `FinancialLedgerEntry`. */
  datatype Line = Line(account: Account, debit: int, credit: int)

  datatype Error = NegativeAmount | Unbalanced

  // ---------------------------------------------------------------- totals

  function Debits(lines: seq<Line>): int
  {
    Total(lines, (l: Line) => l.debit)
  }

  function Credits(lines: seq<Line>): int
  {
    Total(lines, (l: Line) => l.credit)
  }

  /** Debits less credits of one account. */
  function Net(lines: seq<Line>, account: Account): int
  {
    Total(lines, (l: Line) => if l.account == account then l.debit - l.credit else 0)
  }

  predicate Balanced(lines: seq<Line>)
  {
    Debits(lines) == Credits(lines)
  }

  lemma TotalsOfOne(q: Line, account: Account)
    ensures Debits([q]) == q.debit && Credits([q]) == q.credit
    ensures Net([q], account) == if q.account == account then q.debit - q.credit else 0
  {
    TotalOfOne(q, (l: Line) => l.debit);
    TotalOfOne(q, (l: Line) => l.credit);
    TotalOfOne(q, (l: Line) => if l.account == account then l.debit - l.credit else 0);
  }

  lemma TotalsAppend(a: seq<Line>, b: seq<Line>, account: Account)
    ensures Debits(a + b) == Debits(a) + Debits(b) && Credits(a + b) == Credits(a) + Credits(b)
    ensures Net(a + b, account) == Net(a, account) + Net(b, account)
  {
    TotalAppend(a, b, (l: Line) => l.debit);
    TotalAppend(a, b, (l: Line) => l.credit);
    TotalAppend(a, b, (l: Line) => if l.account == account then l.debit - l.credit else 0);
  }

  // ---------------------------------------------------------------- create_financial_entries

  /** A nearest whole number of cents, on a tie the one further from zero. */
  predicate HalfUp(x: real, n: int)
  {
    Abs(x - n as real) <= 0.5 && (Abs(x - n as real) == 0.5 ==> Abs(n as real) > Abs(x))
  }

  function Quantized(e: Entry): (q: Line)
    ensures q.account == e.account && HalfUp(e.debit, q.debit) && HalfUp(e.credit, q.credit)
  {
    Line(e.account, RoundHalfUp(e.debit), RoundHalfUp(e.credit))
  }

  function QuantizeAll(entries: seq<Entry>): (lines: seq<Line>)
    ensures |lines| == |entries| && forall i :: 0 <= i < |lines| ==> lines[i] == Quantized(entries[i])
  {
    seq(|entries|, i requires 0 <= i < |entries| => Quantized(entries[i]))
  }

  predicate Negative(q: Line)
  {
    q.debit < 0 || q.credit < 0
  }

  predicate NoneNegative(quantized: seq<Line>)
  {
    forall i :: 0 <= i < |quantized| ==> !Negative(quantized[i])
  }

  /** The lines written: none for an entry of zero. */
  function Written(quantized: seq<Line>): seq<Line>
  {
    if quantized == [] then []
    else
      var front, q := quantized[..|quantized| - 1], quantized[|quantized| - 1];
      if q.debit == 0 && q.credit == 0 then Written(front) else Written(front) + [q]
  }

  /** What `create_financial_entries` returns for entries that quantize so. */
  function Posting(quantized: seq<Line>): Result<seq<Line>, Error>
  {
    if !NoneNegative(quantized) then Err(NegativeAmount)
    else if !Balanced(Written(quantized)) then Err(Unbalanced)
    else Ok(Written(quantized))
  }

  method CreateFinancialEntries(entries: seq<Entry>) returns (r: Result<seq<Line>, Error>)
    ensures r == Posting(QuantizeAll(entries))
  {
    var valid: seq<Line> := [];
    var totalDebits, totalCredits := 0, 0;
    ghost var quantized := QuantizeAll(entries);
    assert quantized[..0] == [];
    for i := 0 to |entries|
      invariant valid == Written(quantized[..i])
      invariant totalDebits == Debits(valid) && totalCredits == Credits(valid)
      invariant forall j :: 0 <= j < i ==> !Negative(quantized[j])
    {
      var debit := RoundHalfUp(entries[i].debit);
      var credit := RoundHalfUp(entries[i].credit);
      assert quantized[i] == Line(entries[i].account, debit, credit);
      if debit < 0 || credit < 0 {
        assert Negative(quantized[i]);
        return Err(NegativeAmount);
      }
      assert quantized[..i + 1][..i] == quantized[..i];
      if debit != 0 || credit != 0 {
        assert (valid + [quantized[i]])[..|valid|] == valid;
        totalDebits := totalDebits + debit;
        totalCredits := totalCredits + credit;
        valid := valid + [Line(entries[i].account, debit, credit)];
      }
    }
    assert quantized[..|entries|] == quantized;
    if valid == [] { return Ok([]); }
    var difference := totalDebits - totalCredits;
    if difference >= 1 || difference <= -1 { return Err(Unbalanced); }
    r := Ok(valid);
  }

  lemma {:induction false} WrittenKeepsTotal(quantized: seq<Line>, f: Line -> int)
    requires forall l: Line :: l.debit == 0 && l.credit == 0 ==> f(l) == 0
    ensures Total(Written(quantized), f) == Total(quantized, f)
  {
    if quantized != [] {
      var front, q := quantized[..|quantized| - 1], quantized[|quantized| - 1];
      WrittenKeepsTotal(front, f);
      assert (Written(front) + [q])[..|Written(front)|] == Written(front);
    }
  }

  lemma WrittenKeepsTotals(quantized: seq<Line>, account: Account)
    ensures Debits(Written(quantized)) == Debits(quantized) && Credits(Written(quantized)) == Credits(quantized)
    ensures Net(Written(quantized), account) == Net(quantized, account)
  {
    WrittenKeepsTotal(quantized, (l: Line) => l.debit);
    WrittenKeepsTotal(quantized, (l: Line) => l.credit);
    WrittenKeepsTotal(quantized, (l: Line) => if l.account == account then l.debit - l.credit else 0);
  }

  /** The tolerance of a cent is no tolerance: posting succeeds exactly when no quantized amount is negative
      and quantized debits equal quantized credits. Posted lines are balanced and carry the net of the
      entries in every account. */
  lemma PostingAcceptsExactly(quantized: seq<Line>, account: Account)
    ensures Posting(quantized).Ok? <==>
              && (forall i :: 0 <= i < |quantized| ==> quantized[i].debit >= 0 && quantized[i].credit >= 0)
              && Debits(quantized) == Credits(quantized)
    ensures Posting(quantized).Err? ==>
              Posting(quantized).error
              == if exists i :: 0 <= i < |quantized| && (quantized[i].debit < 0 || quantized[i].credit < 0)
                 then NegativeAmount else Unbalanced
    ensures Posting(quantized).Ok? ==> Balanced(Posting(quantized).value)
    ensures Posting(quantized).Ok? ==> Net(Posting(quantized).value, account) == Net(quantized, account)
  {
    WrittenKeepsTotals(quantized, account);
    assert NoneNegative(quantized) <==>
             forall i :: 0 <= i < |quantized| ==> quantized[i].debit >= 0 && quantized[i].credit >= 0;
  }

  /** The lines posted are the entries that are not zero. */
  lemma {:induction false} PostsNonZero(quantized: seq<Line>, l: Line)
    ensures Posting(quantized).Ok? ==>
              (l in Posting(quantized).value <==> l in quantized && (l.debit != 0 || l.credit != 0))
  {
    WrittenAreNonZero(quantized, l);
  }

  lemma {:induction false} WrittenAreNonZero(quantized: seq<Line>, l: Line)
    ensures l in Written(quantized) <==> l in quantized && (l.debit != 0 || l.credit != 0)
  {
    if quantized != [] {
      var front, q := quantized[..|quantized| - 1], quantized[|quantized| - 1];
      WrittenAreNonZero(front, l);
      assert quantized == front + [q];
    }
  }

  /** Entries made of amounts that were quantized before. */
  function Entries(quantized: seq<Line>): (entries: seq<Entry>)
    ensures QuantizeAll(entries) == quantized
  {
    var entries := seq(|quantized|, i requires 0 <= i < |quantized| =>
      Entry(quantized[i].account, quantized[i].debit as real, quantized[i].credit as real));
    assert forall i :: 0 <= i < |quantized| ==> Quantized(entries[i]) == quantized[i];
    entries
  }

  // ---------------------------------------------------------------- entry lists

  /** A conditional `entries.append` of a quantized amount. */
  function Part(account: Account, cents: int, debit: bool): seq<Line>
  {
    if cents <= 0 then []
    else [if debit then Line(account, cents, 0) else Line(account, 0, cents)]
  }

  /** An amount debited to one account and credited to another. */
  function Pair(debited: Account, credited: Account, cents: int): seq<Line>
  {
    Part(debited, cents, true) + Part(credited, cents, false)
  }

  datatype SaleAmounts = SaleAmounts(total: real, discount: real, subtotal: real, tax: real)

  datatype SaleCents = SaleCents(total: int, discount: int, subtotal: int, tax: int)

  function Quantize(a: SaleAmounts): SaleCents
  {
    SaleCents(RoundHalfUp(a.total), RoundHalfUp(a.discount), RoundHalfUp(a.subtotal), RoundHalfUp(a.tax))
  }

  /** The four amounts of a sale: as sold, or reversed. */
  function AmountEntries(a: SaleCents, sold: bool): seq<Line>
  {
    Part(AccountsReceivable, a.total, sold) + Part(Discounts, a.discount, sold)
      + Part(SalesRevenue, a.subtotal, !sold) + Part(TaxPayable, a.tax, !sold)
  }

  function SaleEntries(a: SaleCents, cogs: int): seq<Line>
  {
    AmountEntries(a, true) + Pair(Cogs, InventoryAsset, cogs)
  }

  function CancellationEntries(a: SaleCents, cogs: int): seq<Line>
  {
    AmountEntries(a, false) + Pair(InventoryAsset, Cogs, cogs)
  }

  function SaleReturnEntries(refund: int, restocked: int): seq<Line>
  {
    Pair(SalesRevenue, AccountsReceivable, refund) + Pair(InventoryAsset, Cogs, restocked)
  }

  function PurchaseEntries(receivedCost: int): seq<Line>
  {
    Pair(InventoryAsset, AccountsPayable, receivedCost)
  }

  function PurchaseReturnEntries(refund: int): seq<Line>
  {
    Pair(AccountsPayable, InventoryAsset, refund)
  }

  function PaymentEntries(amount: int): seq<Line>
  {
    Pair(CashBank, AccountsReceivable, amount)
  }

  function PurchasePaymentEntries(amount: int): seq<Line>
  {
    Pair(AccountsPayable, CashBank, amount)
  }

  // ---------------------------------------------------------------- what the lists post

  lemma AppendTotals(a: seq<Line>, b: seq<Line>, account: Account)
    requires NoneNegative(a) && NoneNegative(b)
    ensures Debits(a + b) == Debits(a) + Debits(b) && Credits(a + b) == Credits(a) + Credits(b)
    ensures Net(a + b, account) == Net(a, account) + Net(b, account)
    ensures NoneNegative(a + b)
  {
    TotalsAppend(a, b, account);
  }

  /** What a conditional append posts. */
  function Posted(cents: int): int
  {
    if cents <= 0 then 0 else cents
  }

  lemma PartTotals(account: Account, cents: int, debit: bool, a: Account)
    ensures var p := Part(account, cents, debit);
            && NoneNegative(p)
            && Debits(p) == (if debit then Posted(cents) else 0)
            && Credits(p) == (if debit then 0 else Posted(cents))
            && Net(p, a) == if a != account then 0 else if debit then Posted(cents) else -Posted(cents)
  {
    if cents > 0 {
      var q := Part(account, cents, debit)[0];
      assert Part(account, cents, debit) == [q];
      TotalsOfOne(q, a);
    }
  }

  /** A pair is balanced. */
  lemma PairTotals(debited: Account, credited: Account, cents: int, account: Account)
    requires debited != credited
    ensures var p := Pair(debited, credited, cents);
            && NoneNegative(p)
            && Debits(p) == Posted(cents) && Credits(p) == Posted(cents)
            && Net(p, account) == (if account == debited then Posted(cents)
                                   else if account == credited then -Posted(cents) else 0)
  {
    PartTotals(debited, cents, true, account);
    PartTotals(credited, cents, false, account);
    AppendTotals(Part(debited, cents, true), Part(credited, cents, false), account);
  }

  function NetOfAmounts(a: SaleCents, account: Account): int
  {
    match account
    case AccountsReceivable => Posted(a.total)
    case Discounts => Posted(a.discount)
    case SalesRevenue => -Posted(a.subtotal)
    case TaxPayable => -Posted(a.tax)
    case _ => 0
  }

  lemma FourAppended(p1: seq<Line>, p2: seq<Line>, p3: seq<Line>, p4: seq<Line>, account: Account)
    requires NoneNegative(p1) && NoneNegative(p2) && NoneNegative(p3) && NoneNegative(p4)
    ensures var p := p1 + p2 + p3 + p4;
            && NoneNegative(p)
            && Debits(p) == Debits(p1) + Debits(p2) + Debits(p3) + Debits(p4)
            && Credits(p) == Credits(p1) + Credits(p2) + Credits(p3) + Credits(p4)
            && Net(p, account) == Net(p1, account) + Net(p2, account) + Net(p3, account) + Net(p4, account)
  {
    AppendTotals(p1, p2, account);
    AppendTotals(p1 + p2, p3, account);
    AppendTotals(p1 + p2 + p3, p4, account);
  }

  lemma AmountTotals(a: SaleCents, sold: bool, account: Account)
    ensures var p := AmountEntries(a, sold);
            var left, right := Posted(a.total) + Posted(a.discount), Posted(a.subtotal) + Posted(a.tax);
            && NoneNegative(p)
            && Debits(p) == (if sold then left else right)
            && Credits(p) == (if sold then right else left)
            && Net(p, account) == (if sold then NetOfAmounts(a, account) else -NetOfAmounts(a, account))
  {
    PartTotals(AccountsReceivable, a.total, sold, account);
    PartTotals(Discounts, a.discount, sold, account);
    PartTotals(SalesRevenue, a.subtotal, !sold, account);
    PartTotals(TaxPayable, a.tax, !sold, account);
    FourAppended(Part(AccountsReceivable, a.total, sold), Part(Discounts, a.discount, sold),
                 Part(SalesRevenue, a.subtotal, !sold), Part(TaxPayable, a.tax, !sold), account);
  }

  lemma SaleTotals(a: SaleCents, cogs: int, account: Account)
    ensures var p := SaleEntries(a, cogs);
            && NoneNegative(p)
            && Debits(p) == Posted(a.total) + Posted(a.discount) + Posted(cogs)
            && Credits(p) == Posted(a.subtotal) + Posted(a.tax) + Posted(cogs)
            && Net(p, account) == NetOfAmounts(a, account) + Net(Pair(Cogs, InventoryAsset, cogs), account)
  {
    AmountTotals(a, true, account);
    PairTotals(Cogs, InventoryAsset, cogs, account);
    AppendTotals(AmountEntries(a, true), Pair(Cogs, InventoryAsset, cogs), account);
  }

  lemma CancellationTotals(a: SaleCents, cogs: int, account: Account)
    ensures var p := CancellationEntries(a, cogs);
            && NoneNegative(p)
            && Debits(p) == Posted(a.subtotal) + Posted(a.tax) + Posted(cogs)
            && Credits(p) == Posted(a.total) + Posted(a.discount) + Posted(cogs)
            && Net(p, account) == -NetOfAmounts(a, account) + Net(Pair(InventoryAsset, Cogs, cogs), account)
  {
    AmountTotals(a, false, account);
    PairTotals(InventoryAsset, Cogs, cogs, account);
    AppendTotals(AmountEntries(a, false), Pair(InventoryAsset, Cogs, cogs), account);
  }

  /** Whether the amounts of a sale fit together; what is not positive is left out. */
  predicate AmountsFit(a: SaleCents)
  {
    Posted(a.total) + Posted(a.discount) == Posted(a.subtotal) + Posted(a.tax)
  }

  /** A sale posts exactly when its amounts fit, whatever the cost of goods: for non-negative amounts,
      exactly when total + discount = subtotal + tax. What it posts is balanced. */
  lemma SalePostsExactly(a: SaleCents, cogs: int)
    ensures Posting(SaleEntries(a, cogs)).Ok? <==> AmountsFit(a)
    ensures Posting(SaleEntries(a, cogs)).Ok? ==> Balanced(Posting(SaleEntries(a, cogs)).value)
    ensures a.total >= 0 && a.discount >= 0 && a.subtotal >= 0 && a.tax >= 0 ==>
              (AmountsFit(a) <==> a.total + a.discount == a.subtotal + a.tax)
  {
    SaleTotals(a, cogs, Cogs);
    PostingAcceptsExactly(SaleEntries(a, cogs), Cogs);
  }

  lemma CancellationPostsExactly(a: SaleCents, cogs: int)
    ensures Posting(CancellationEntries(a, cogs)).Ok? <==> AmountsFit(a)
    ensures Posting(CancellationEntries(a, cogs)).Ok? ==> Balanced(Posting(CancellationEntries(a, cogs)).value)
  {
    CancellationTotals(a, cogs, Cogs);
    PostingAcceptsExactly(CancellationEntries(a, cogs), Cogs);
  }

  /** With the same cost of goods, what a sale and its cancellation post nets to zero in every account. */
  lemma CancellationNetsToZero(a: SaleCents, cogs: int, account: Account)
    requires Posting(SaleEntries(a, cogs)).Ok? || Posting(CancellationEntries(a, cogs)).Ok?
    ensures Posting(SaleEntries(a, cogs)).Ok? && Posting(CancellationEntries(a, cogs)).Ok?
    ensures Net(Posting(SaleEntries(a, cogs)).value, account)
          + Net(Posting(CancellationEntries(a, cogs)).value, account) == 0
  {
    SalePostsExactly(a, cogs);
    CancellationPostsExactly(a, cogs);
    SaleTotals(a, cogs, account);
    CancellationTotals(a, cogs, account);
    PairTotals(Cogs, InventoryAsset, cogs, account);
    PairTotals(InventoryAsset, Cogs, cogs, account);
    PostingAcceptsExactly(SaleEntries(a, cogs), account);
    PostingAcceptsExactly(CancellationEntries(a, cogs), account);
  }

  /** A pair always posts, and moves its amount between its two accounts. */
  lemma PairPosts(debited: Account, credited: Account, cents: int, account: Account)
    requires debited != credited
    ensures Posting(Pair(debited, credited, cents)).Ok?
    ensures var lines := Posting(Pair(debited, credited, cents)).value;
            && Balanced(lines)
            && Net(lines, account) == (if account == debited then Posted(cents)
                                       else if account == credited then -Posted(cents) else 0)
  {
    PairTotals(debited, credited, cents, account);
    PostingAcceptsExactly(Pair(debited, credited, cents), account);
  }

  /** A customer return always posts: the refund from revenue to receivables, the restocked cost from
      cost of goods to inventory. */
  lemma SaleReturnPosts(refund: int, restocked: int, account: Account)
    ensures Posting(SaleReturnEntries(refund, restocked)).Ok?
    ensures var lines := Posting(SaleReturnEntries(refund, restocked)).value;
            && Balanced(lines)
            && Net(lines, account) == (match account
                                       case SalesRevenue => Posted(refund)
                                       case AccountsReceivable => -Posted(refund)
                                       case InventoryAsset => Posted(restocked)
                                       case Cogs => -Posted(restocked)
                                       case _ => 0)
  {
    PairTotals(SalesRevenue, AccountsReceivable, refund, account);
    PairTotals(InventoryAsset, Cogs, restocked, account);
    AppendTotals(Pair(SalesRevenue, AccountsReceivable, refund), Pair(InventoryAsset, Cogs, restocked), account);
    PostingAcceptsExactly(SaleReturnEntries(refund, restocked), account);
  }

  /** What a supplier delivery, a return to the supplier, a customer's payment and a payment to the
      supplier post: each always goes through and moves its amount from one account to another. */
  lemma TwoLinePostings(cents: int, account: Account)
    ensures Moves(PurchaseEntries(cents), AccountsPayable, InventoryAsset, cents, account)
    ensures Moves(PurchaseReturnEntries(cents), InventoryAsset, AccountsPayable, cents, account)
    ensures Moves(PaymentEntries(cents), AccountsReceivable, CashBank, cents, account)
    ensures Moves(PurchasePaymentEntries(cents), CashBank, AccountsPayable, cents, account)
  {
    PairPosts(InventoryAsset, AccountsPayable, cents, account);
    PairPosts(AccountsPayable, InventoryAsset, cents, account);
    PairPosts(CashBank, AccountsReceivable, cents, account);
    PairPosts(AccountsPayable, CashBank, cents, account);
  }

  /** Entries that post, balanced, and credit and debit an amount, as far as it is positive. */
  predicate Moves(entries: seq<Line>, credited: Account, debited: Account, cents: int, account: Account)
  {
    && Posting(entries).Ok? && Balanced(Posting(entries).value)
    && Net(Posting(entries).value, account)
       == (if account == debited then Posted(cents) else if account == credited then -Posted(cents) else 0)
  }
}

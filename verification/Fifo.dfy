/** The deduction loop: how much is taken from each stock row, given the rows in the order in which
    they are to be used up. The sale, the invoice and the purchase return all run it. */
module Fifo {
  import opened Sums

  function Max(a: int, b: int): int
  {
    if a > b then a else b
  }

  function Min(a: int, b: int): int
  {
    if a < b then a else b
  }

  /** What the rows have to give: rows with a negative quantity give nothing. */
  function Positive(quantities: seq<int>): (p: seq<nat>)
    ensures |p| == |quantities| && forall i :: 0 <= i < |p| ==> p[i] == Max(0, quantities[i])
  {
    seq(|quantities|, i requires 0 <= i < |quantities| => Max(0, quantities[i]))
  }

  /** One turn of the loop, with `remaining` still to take. */
  function TakeFrom(quantity: int, remaining: int): int
  {
    Max(0, Min(remaining, quantity))
  }

  /** The takes of the whole loop. */
  function Takes(quantities: seq<int>, requested: int): (t: seq<int>)
    ensures |t| == |quantities|
  {
    if quantities == [] then []
    else
      var n := |quantities| - 1;
      var front := Takes(quantities[..n], requested);
      front + [TakeFrom(quantities[n], requested - Sum(front))]
  }

  /** A deduction that never drives a row below zero, or further below it. */
  predicate Legal(quantities: seq<int>, takes: seq<int>)
  {
    |takes| == |quantities| && forall i :: 0 <= i < |takes| ==> 0 <= takes[i] <= Max(0, quantities[i])
  }

  lemma {:induction false} TakesAreLegal(quantities: seq<int>, requested: int)
    ensures Legal(quantities, Takes(quantities, requested))
  {
    if quantities != [] { TakesAreLegal(quantities[..|quantities| - 1], requested); }
  }

  lemma {:induction false} TakesOfPrefix(quantities: seq<int>, requested: int, k: nat)
    requires k <= |quantities|
    ensures Takes(quantities, requested)[..k] == Takes(quantities[..k], requested)
  {
    var n := |quantities| - 1;
    if k <= n {
      TakesOfPrefix(quantities[..n], requested, k);
      assert quantities[..n][..k] == quantities[..k];
    } else {
      assert quantities[..k] == quantities;
    }
  }

  lemma TakeOneMore(requested: int, available: nat, quantity: int)
    ensures Min(Max(0, requested), available)
              + TakeFrom(quantity, requested - Min(Max(0, requested), available))
         == Min(Max(0, requested), available + Max(0, quantity))
  {
  }

  lemma PositiveFront(quantities: seq<int>)
    requires quantities != []
    ensures var n := |quantities| - 1;
            Sum(Positive(quantities)) == Sum(Positive(quantities[..n])) + Max(0, quantities[n])
  {
    assert Positive(quantities)[..|quantities| - 1] == Positive(quantities[..|quantities| - 1]);
  }

  /** The loop takes all that is asked for, or all there is. */
  lemma {:induction false} TakenTotal(quantities: seq<int>, requested: int)
    ensures Sum(Takes(quantities, requested)) == Min(Max(0, requested), Sum(Positive(quantities)))
  {
    if quantities != [] {
      var n := |quantities| - 1;
      var front := Takes(quantities[..n], requested);
      TakenTotal(quantities[..n], requested);
      PositiveFront(quantities);
      PositiveSum(Positive(quantities[..n]));
      TakeOneMore(requested, Sum(Positive(quantities[..n])), quantities[n]);
      assert Takes(quantities, requested)[..n] == front;
    }
  }

  lemma {:induction false} PositiveSum(p: seq<nat>)
    ensures Sum(p) >= 0
  {
    if p != [] { PositiveSum(p[..|p| - 1]); }
  }

  /** The availability check sums all rows, negative ones too. When it passes, exactly the requested
      quantity is taken. */
  lemma CheckedTakesAreExact(quantities: seq<int>, requested: int)
    requires Sum(quantities) >= requested
    ensures Sum(Takes(quantities, requested)) == Max(0, requested)
  {
    TakenTotal(quantities, requested);
    SumMonotone(quantities, Positive(quantities));
    PositiveSum(Positive(quantities));
  }

  /** The turn of the loop at row `k`. */
  lemma TakeAt(quantities: seq<int>, requested: int, k: nat)
    requires k < |quantities|
    ensures var t := Takes(quantities, requested); t[k] == TakeFrom(quantities[k], requested - Sum(t[..k]))
  {
    var upTo := quantities[..k + 1];
    TakesOfPrefix(quantities, requested, k + 1);
    TakesOfPrefix(upTo, requested, k);
    assert Takes(upTo, requested)[k] == TakeFrom(upTo[k], requested - Sum(Takes(upTo[..k], requested)));
    assert Takes(quantities, requested)[..k + 1][..k] == Takes(quantities, requested)[..k];
  }

  lemma {:induction false} PrefixSumsGrow(t: seq<int>, i: nat, j: nat)
    requires i <= j <= |t| && forall k :: 0 <= k < |t| ==> t[k] >= 0
    ensures Sum(t[..i]) <= Sum(t[..j])
    decreases j
  {
    if i < j {
      PrefixSumsGrow(t, i, j - 1);
      assert t[..j][..j - 1] == t[..j - 1];
    }
  }

  /** A later row is used only after every earlier one that had anything is drained. */
  lemma EarlierRowsAreDrained(quantities: seq<int>, requested: int, i: nat, j: nat)
    requires i < j < |quantities| && Takes(quantities, requested)[j] > 0
    ensures Takes(quantities, requested)[i] == Max(0, quantities[i])
  {
    var t := Takes(quantities, requested);
    TakesAreLegal(quantities, requested);
    TakeAt(quantities, requested, i);
    TakeAt(quantities, requested, j);
    PrefixSumsGrow(t, i + 1, j);
    assert t[..i + 1][..i] == t[..i];
  }

  lemma LegalPrefixBound(quantities: seq<int>, x: seq<int>, k: nat)
    requires Legal(quantities, x) && k <= |x|
    ensures Sum(x[..k]) <= Sum(x)
    ensures Sum(x[..k]) <= Sum(Positive(quantities[..k]))
  {
    assert x == x[..k] + x[k..];
    SumAppend(x[..k], x[k..]);
    PositiveSum(x[k..]);
    SumMonotone(x[..k], Positive(quantities[..k]));
  }

  /** For every prefix of the order, no legal deduction of the same total takes more out of it, so
      none leaves less there. */
  lemma TakesArePrefixOptimal(quantities: seq<int>, requested: int, x: seq<int>, k: nat)
    requires Legal(quantities, x) && Sum(x) == Sum(Takes(quantities, requested)) && k <= |quantities|
    ensures Sum(x[..k]) <= Sum(Takes(quantities, requested)[..k])
  {
    LegalPrefixBound(quantities, x, k);
    TakesOfPrefix(quantities, requested, k);
    TakenTotal(quantities[..k], requested);
    TakenTotal(quantities, requested);
  }

  /** That makes the takes the only legal deduction which is best for every prefix. */
  lemma PrefixOptimalIsUnique(quantities: seq<int>, requested: int, x: seq<int>)
    requires Legal(quantities, x)
    requires forall k :: 0 <= k <= |quantities| ==> Sum(x[..k]) == Sum(Takes(quantities, requested)[..k])
    ensures x == Takes(quantities, requested)
  {
    var t := Takes(quantities, requested);
    forall i | 0 <= i < |x| ensures x[i] == t[i] {
      assert x[..i + 1][..i] == x[..i] && t[..i + 1][..i] == t[..i];
      assert Sum(x[..i + 1]) == Sum(t[..i + 1]) && Sum(x[..i]) == Sum(t[..i]);
    }
  }

  // ---------------------------------------------------------------- one deduction after another

  /** What a deduction leaves. */
  function Rest(quantities: seq<int>, requested: int): (r: seq<int>)
    ensures |r| == |quantities|
    ensures forall i :: 0 <= i < |r| ==> r[i] == quantities[i] - Takes(quantities, requested)[i]
  {
    seq(|quantities|, i requires 0 <= i < |quantities| => quantities[i] - Takes(quantities, requested)[i])
  }

  lemma {:induction false} RestIsPositive(quantities: seq<int>, requested: int)
    ensures Sum(Positive(Rest(quantities, requested))) == Sum(Positive(quantities)) - Sum(Takes(quantities, requested))
  {
    if quantities != [] {
      var n := |quantities| - 1;
      RestIsPositive(quantities[..n], requested);
      PositiveFront(quantities);
      PositiveFront(Rest(quantities, requested));
      RestOfFront(quantities, requested);
      assert Takes(quantities, requested)[..n] == Takes(quantities[..n], requested);
    }
  }

  lemma TakesUnfold(quantities: seq<int>, requested: int)
    requires quantities != []
    ensures var n := |quantities| - 1;
            var front := Takes(quantities[..n], requested);
            Takes(quantities, requested) == front + [TakeFrom(quantities[n], requested - Sum(front))]
  {
    hide TakeFrom, Sum;
  }

  lemma RestOfFront(quantities: seq<int>, requested: int)
    requires quantities != []
    ensures var n := |quantities| - 1;
            var front := quantities[..n];
            && Rest(quantities, requested)[..n] == Rest(front, requested)
            && Rest(quantities, requested)[n]
               == quantities[n] - TakeFrom(quantities[n], requested - Sum(Takes(front, requested)))
  {
    hide Takes, TakeFrom, Sum;
    var n := |quantities| - 1;
    var front, all := Takes(quantities[..n], requested), Takes(quantities, requested);
    TakesUnfold(quantities, requested);
    assert |front| == n && all[n] == TakeFrom(quantities[n], requested - Sum(front));
    assert forall i :: 0 <= i < n ==> all[i] == front[i];
  }

  lemma SameEnds(a: seq<int>, b: seq<int>)
    requires |a| == |b| > 0 && a[..|a| - 1] == b[..|b| - 1] && a[|a| - 1] == b[|b| - 1]
    ensures a == b
  {
    assert a == a[..|a| - 1] + [a[|a| - 1]];
  }

  lemma {:induction false} NothingIsTaken(quantities: seq<int>, requested: int)
    requires requested <= 0
    ensures Rest(quantities, requested) == quantities
    ensures Sum(Takes(quantities, requested)) == 0
  {
    if quantities != [] {
      var n := |quantities| - 1;
      NothingIsTaken(quantities[..n], requested);
      RestOfFront(quantities, requested);
      SameEnds(Rest(quantities, requested), quantities);
      assert Takes(quantities, requested)[..n] == Takes(quantities[..n], requested);
    }
  }

  /** At one row, where the rows before have given all they had or all that was asked for. */
  lemma TakeTwice(quantity: int, available: nat, first: nat, second: nat)
    ensures var taken := Min(first, available);
            var more := Min(second, available - taken);
            var left := quantity - TakeFrom(quantity, first - taken);
            left - TakeFrom(left, second - more)
            == quantity - TakeFrom(quantity, first + second - Min(first + second, available))
  {
  }

  /** Two deductions from the same rows leave what one of the sum leaves. */
  lemma {:induction false} TakingTwice(quantities: seq<int>, first: nat, second: nat)
    ensures Rest(Rest(quantities, first), second) == Rest(quantities, first + second)
  {
    hide Takes, TakeFrom, Sum, Positive;
    if quantities != [] {
      var n := |quantities| - 1;
      var front, once := quantities[..n], Rest(quantities, first);
      TakingTwice(front, first, second);
      RestOfFront(quantities, first);
      RestOfFront(once, second);
      RestOfFront(quantities, first + second);
      PositiveSum(Positive(front));
      RestIsPositive(front, first);
      TakenTotal(front, first);
      TakenTotal(Rest(front, first), second);
      TakenTotal(front, first + second);
      TakeTwice(quantities[n], Sum(Positive(front)), first, second);
      SameEnds(Rest(once, second), Rest(quantities, first + second));
    }
  }

  /** What a row keeps back, it may as well not have had. */
  lemma {:induction false} SlackIsUnused(quantities: seq<int>, requested: int, k: nat, quantity: int)
    requires k < |quantities| && Takes(quantities, requested)[k] <= quantity <= quantities[k]
    ensures Takes(quantities[k := quantity], requested) == Takes(quantities, requested)
  {
    var n := |quantities| - 1;
    if k == n {
      assert quantities[k := quantity][..n] == quantities[..n];
    } else {
      assert quantities[k := quantity][..n] == quantities[..n][k := quantity];
      SlackIsUnused(quantities[..n], requested, k, quantity);
    }
  }

  /** What a row is taken for beside the loop comes off what the loop leaves there, if it leaves as much. */
  lemma TakenBeside(quantities: seq<int>, requested: int, k: nat, amount: nat)
    requires k < |quantities| && 0 < amount <= Rest(quantities, requested)[k]
    ensures Rest(quantities[k := quantities[k] - amount], requested)
         == Rest(quantities, requested)[k := Rest(quantities, requested)[k] - amount]
  {
    hide Takes, TakeFrom, Sum;
    SlackIsUnused(quantities, requested, k, quantities[k] - amount);
  }
}

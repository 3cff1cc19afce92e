/** `allocate_amount`: splitting an amount of money over weights by the largest-remainder method. */
module MoneyAllocation {
  import opened Rounding
  import opened Sums

  // ---------------------------------------------------------------- sums

  function RealSum(s: seq<real>): real
  {
    if s == [] then 0.0 else RealSum(s[..|s| - 1]) + s[|s| - 1]
  }

  /** Integers that are pointwise at least the reals have at least their sum, and more if one of
      them is more. */
  lemma {:induction false} SumDominates(a: seq<int>, s: seq<real>)
    requires |a| == |s|
    requires forall i :: 0 <= i < |s| ==> a[i] as real >= s[i]
    ensures Sum(a) as real >= RealSum(s)
    ensures (exists i :: 0 <= i < |s| && a[i] as real > s[i]) ==> Sum(a) as real > RealSum(s)
  {
    if s != [] {
      SumDominates(a[..|s| - 1], s[..|s| - 1]);
      if i :| 0 <= i < |s| && a[i] as real > s[i] {
        if i < |s| - 1 {
          assert a[..|s| - 1][i] as real > s[..|s| - 1][i];
        }
      }
    }
  }

  function ToReals(a: seq<int>): (s: seq<real>)
    ensures |s| == |a|
    ensures forall i :: 0 <= i < |a| ==> s[i] == a[i] as real
  {
    seq(|a|, i requires 0 <= i < |a| => a[i] as real)
  }

  lemma {:induction false} RealSumOfInts(a: seq<int>)
    ensures RealSum(ToReals(a)) == Sum(a) as real
  {
    if a != [] {
      RealSumOfInts(a[..|a| - 1]);
      assert ToReals(a)[..|a| - 1] == ToReals(a[..|a| - 1]);
    }
  }

  // ---------------------------------------------------------------- exact shares

  function Ones(n: nat): (w: seq<real>)
    ensures |w| == n && forall i :: 0 <= i < n ==> w[i] == 1.0
  {
    seq(n, i => 1.0)
  }

  lemma {:induction false} RealSumOfOnes(n: nat)
    ensures RealSum(Ones(n)) == n as real
  {
    if n > 0 {
      assert Ones(n)[..n - 1] == Ones(n - 1);
      RealSumOfOnes(n - 1);
    }
  }

  /** The weights in use: the given ones, or equal ones when the given ones have no positive total. */
  function EffectiveWeights(weights: seq<real>): (w: seq<real>)
    ensures |w| == |weights|
    ensures weights != [] ==> RealSum(w) > 0.0
  {
    RealSumOfOnes(|weights|);
    if RealSum(weights) <= 0.0 then Ones(|weights|) else weights
  }

  function Share(cents: int, weight: real, total: real): real
    requires total > 0.0
  {
    cents as real * weight / total
  }

  function Scaled(cents: int, weights: seq<real>, total: real): (s: seq<real>)
    requires total > 0.0
    ensures |s| == |weights|
    ensures forall i :: 0 <= i < |s| ==> s[i] == Share(cents, weights[i], total)
  {
    seq(|weights|, i requires 0 <= i < |weights| => Share(cents, weights[i], total))
  }

  function Shares(cents: int, weights: seq<real>): (s: seq<real>)
    requires weights != []
    ensures |s| == |weights|
  {
    var w := EffectiveWeights(weights);
    Scaled(cents, w, RealSum(w))
  }

  lemma {:induction false} ScaledSum(cents: int, weights: seq<real>, total: real)
    requires total > 0.0
    ensures RealSum(Scaled(cents, weights, total)) == cents as real * RealSum(weights) / total
  {
    if weights != [] {
      var n := |weights| - 1;
      var s, rest := Scaled(cents, weights, total), Scaled(cents, weights[..n], total);
      assert s[..n] == rest by {
        assert forall i :: 0 <= i < n ==> s[i] == Share(cents, weights[..n][i], total) == rest[i];
      }
      ScaledSum(cents, weights[..n], total);
      Distribute(cents as real, RealSum(weights[..n]), weights[n], total);
    }
  }

  lemma Distribute(c: real, x: real, y: real, total: real)
    requires total > 0.0
    ensures c * x / total + c * y / total == c * (x + y) / total
  {
    assert c * x + c * y == c * (x + y);
  }

  lemma SharesSum(cents: int, weights: seq<real>)
    requires weights != []
    ensures RealSum(Shares(cents, weights)) == cents as real
  {
    var w := EffectiveWeights(weights);
    ScaledSum(cents, w, RealSum(w));
    Cancel(cents as real, RealSum(w));
  }

  lemma Cancel(c: real, total: real)
    requires total > 0.0
    ensures c * total / total == c
  {
  }

  // ---------------------------------------------------------------- specification

  function Frac(x: real): (r: real)
    ensures 0.0 <= r < 1.0
  {
    x - x.Floor as real
  }

  /** `i` comes before `j` in the order that hands out the leftover cents. */
  predicate Beats(s: seq<real>, i: nat, j: nat)
    requires i < |s| && j < |s|
  {
    Frac(s[i]) > Frac(s[j]) || (Frac(s[i]) == Frac(s[j]) && i < j)
  }

  predicate RoundedUp(s: seq<real>, a: seq<int>, i: nat)
    requires i < |s| == |a|
  {
    a[i] == s[i].Floor + 1
  }

  /** `a` splits `cents` by rounding every share down or up by one, and a share is rounded up only
      if it beats every share that is rounded down. */
  ghost predicate LargestRemainder(s: seq<real>, cents: int, a: seq<int>)
  {
    && |a| == |s|
    && Sum(a) == cents
    && (forall i :: 0 <= i < |s| ==> a[i] == s[i].Floor || RoundedUp(s, a, i))
    && (forall i, j :: 0 <= i < |s| && 0 <= j < |s| && RoundedUp(s, a, i) && !RoundedUp(s, a, j)
          ==> Beats(s, i, j))
  }

  // ---------------------------------------------------------------- the hand-out order

  predicate OrderedBy(s: seq<real>, order: seq<nat>)
  {
    && (forall k :: 0 <= k < |order| ==> order[k] < |s|)
    && (forall a, b :: 0 <= a < b < |order| ==> Beats(s, order[a], order[b]))
  }

  function InsertIndex(s: seq<real>, order: seq<nat>, i: nat): (r: seq<nat>)
    requires OrderedBy(s, order) && i < |s| && i !in order
    ensures OrderedBy(s, r) && |r| == |order| + 1
    ensures forall k :: k in r <==> k == i || k in order
  {
    if order == [] then [i]
    else if Beats(s, i, order[0]) then [i] + order
    else
      var rest := InsertIndex(s, order[1..], i);
      assert forall k :: 0 <= k < |rest| ==> Beats(s, order[0], rest[k]) by {
        forall k | 0 <= k < |rest| ensures Beats(s, order[0], rest[k]) {
          assert rest[k] in rest;
          if rest[k] != i {
            var j :| 1 <= j < |order| && order[j] == rest[k];
          }
        }
      }
      [order[0]] + rest
  }

  /** `sorted(range(n), key=lambda i: (fraction, -i), reverse=True)`: all indices below `n`, best first. */
  function HandOutOrder(s: seq<real>, n: nat): (order: seq<nat>)
    requires n <= |s|
    ensures OrderedBy(s, order) && |order| == n
    ensures forall k: nat :: k in order <==> k < n
  {
    if n == 0 then [] else InsertIndex(s, HandOutOrder(s, n - 1), n - 1)
  }

  function Floors(s: seq<real>): (a: seq<int>)
    ensures |a| == |s| && forall i :: 0 <= i < |s| ==> a[i] == s[i].Floor
  {
    seq(|s|, i requires 0 <= i < |s| => s[i].Floor)
  }

  /** How many shares have a fraction. */
  function Fractions(s: seq<real>): (n: nat)
    ensures n <= |s|
  {
    if s == [] then 0 else Fractions(s[..|s| - 1]) + if Frac(s[|s| - 1]) > 0.0 then 1 else 0
  }

  lemma {:induction false} FloorsBound(s: seq<real>)
    ensures Sum(Floors(s)) as real <= RealSum(s)
    ensures if Fractions(s) == 0 then RealSum(s) == Sum(Floors(s)) as real
            else RealSum(s) < (Sum(Floors(s)) + Fractions(s)) as real
  {
    if s != [] {
      assert Floors(s)[..|s| - 1] == Floors(s[..|s| - 1]);
      FloorsBound(s[..|s| - 1]);
    }
  }

  // ---------------------------------------------------------------- the method

  /** The closing loop: one more cent for each of the first `leftover` indices of the order. */
  method HandOut(floors: array<int>, order: seq<nat>, leftover: nat)
    requires leftover <= |order|
    requires forall k :: 0 <= k < |order| ==> order[k] < floors.Length
    requires forall a, b :: 0 <= a < b < |order| ==> order[a] != order[b]
    modifies floors
    ensures forall i :: 0 <= i < floors.Length ==>
              floors[i] == old(floors[i]) + (if i in order[..leftover] then 1 else 0)
    ensures Sum(floors[..]) == old(Sum(floors[..])) + leftover
  {
    for t := 0 to leftover
      invariant forall i :: 0 <= i < floors.Length ==>
                  floors[i] == old(floors[i]) + (if i in order[..t] then 1 else 0)
      invariant Sum(floors[..]) == old(Sum(floors[..])) + t
    {
      ghost var before := floors[..];
      assert order[..t + 1] == order[..t] + [order[t]];
      floors[order[t]] := floors[order[t]] + 1;
      SumUpdate(before, order[t], before[order[t]] + 1);
      assert floors[..] == before[order[t] := before[order[t]] + 1];
    }
  }

  method AllocateAmount(amount: real, weights: seq<real>) returns (parts: seq<int>)
    ensures weights == [] ==> parts == []
    ensures weights != [] ==>
              LargestRemainder(Shares(RoundHalfEven(amount), weights), RoundHalfEven(amount), parts)
  {
    var count := |weights|;
    if count == 0 {
      return [];
    }
    if amount == 0.0 {
      parts := seq(count, i => 0);
      ZeroSplit(weights);
      return;
    }
    var cents := RoundHalfEven(amount);
    var shares := Shares(cents, weights);
    var floors := new int[count](i requires 0 <= i < count => shares[i].Floor);
    assert floors[..] == Floors(shares);
    var leftover := cents - Sum(floors[..]);
    LeftoverBound(cents, weights);
    var order := HandOutOrder(shares, count);
    HandOut(floors, order, leftover);
    parts := floors[..];
    HandOutIsLargestRemainder(shares, cents, order, leftover, parts);
  }

  /** The leftover is not negative and smaller than the number of shares with a fraction, if there is one;
      without any nothing is left over. */
  lemma LeftoverBound(cents: int, weights: seq<real>)
    requires weights != []
    ensures var s := Shares(cents, weights);
            var leftover := cents - Sum(Floors(s));
            && 0 <= leftover <= |weights|
            && (if Fractions(s) == 0 then leftover == 0 else leftover < Fractions(s))
  {
    SharesSum(cents, weights);
    FloorsBound(Shares(cents, weights));
  }

  lemma HandOutIsLargestRemainder(s: seq<real>, cents: int, order: seq<nat>, leftover: nat, a: seq<int>)
    requires |a| == |s| == |order| && leftover <= |order| && OrderedBy(s, order)
    requires forall k: nat :: k in order <==> k < |s|
    requires forall i :: 0 <= i < |s| ==> a[i] == s[i].Floor + (if i in order[..leftover] then 1 else 0)
    requires Sum(a) == cents
    ensures LargestRemainder(s, cents, a)
  {
    forall i, j | 0 <= i < |s| && 0 <= j < |s| && RoundedUp(s, a, i) && !RoundedUp(s, a, j)
      ensures Beats(s, i, j)
    {
      assert i in order[..leftover] && j !in order[..leftover] && j in order;
      EarlierBeats(s, order, leftover, i, j);
    }
  }

  lemma EarlierBeats(s: seq<real>, order: seq<nat>, n: nat, i: nat, j: nat)
    requires OrderedBy(s, order) && n <= |order| && i < |s| && j < |s|
    requires i in order[..n] && j in order && j !in order[..n]
    ensures Beats(s, i, j)
  {
    var p :| 0 <= p < n && order[..n][p] == i;
    var q :| 0 <= q < |order| && order[q] == j;
    EarlyIsTaken(order, n, q);
  }

  lemma EarlyIsTaken(order: seq<nat>, n: nat, q: nat)
    requires n <= |order| && q < |order|
    ensures q < n ==> order[q] in order[..n]
  {
    if q < n { assert order[..n][q] == order[q]; }
  }

  lemma ZeroShare(weight: real, total: real)
    requires total > 0.0
    ensures Share(0, weight, total) == 0.0
  {
  }

  lemma ZeroSplit(weights: seq<real>)
    requires weights != []
    ensures LargestRemainder(Shares(0, weights), 0, seq(|weights|, i => 0))
  {
    SharesSum(0, weights);
    var z := seq(|weights|, i => 0);
    var w, s := EffectiveWeights(weights), Shares(0, weights);
    forall i | 0 <= i < |s| ensures ToReals(z)[i] == s[i] {
      ZeroShare(w[i], RealSum(w));
    }
    assert ToReals(z) == s;
    RealSumOfInts(z);
  }

  // ---------------------------------------------------------------- what the split guarantees

  lemma UpBeatsDown(s: seq<real>, cents: int, a: seq<int>, i: nat, j: nat)
    requires LargestRemainder(s, cents, a) && i < |s| && j < |s|
    ensures a[i] > s[i].Floor && a[j] == s[j].Floor ==> !Beats(s, j, i)
  {
    if a[i] > s[i].Floor && a[j] == s[j].Floor {
      assert RoundedUp(s, a, i) && !RoundedUp(s, a, j);
    }
  }

  lemma PartNotAbove(s: seq<real>, cents: int, a: seq<int>, b: seq<int>, i: nat)
    requires LargestRemainder(s, cents, a) && LargestRemainder(s, cents, b) && i < |s|
    ensures a[i] <= b[i]
  {
    forall j | 0 <= j < |s| ensures a[i] > b[i] ==> a[j] >= b[j] {
      UpBeatsDown(s, cents, a, i, j);
      UpBeatsDown(s, cents, b, j, i);
      assert RoundedUp(s, a, j) || a[j] == s[j].Floor;
    }
    if a[i] > b[i] {
      RealSumOfInts(b);
      SumDominates(a, ToReals(b));
    }
  }

  /** The predicate leaves no choice: it is a complete specification of the result. */
  lemma SplitIsUnique(s: seq<real>, cents: int, a: seq<int>, b: seq<int>)
    requires LargestRemainder(s, cents, a) && LargestRemainder(s, cents, b)
    ensures a == b
  {
    forall i | 0 <= i < |s| ensures a[i] == b[i] {
      PartNotAbove(s, cents, a, b, i);
      PartNotAbove(s, cents, b, a, i);
    }
  }

  /** Parts are within one cent of the exact share; a share that is already whole is kept as it is,
      so zero weights get nothing. */
  lemma PartsAreNearShares(s: seq<real>, cents: int, a: seq<int>, i: nat)
    requires LargestRemainder(s, cents, a) && RealSum(s) == cents as real && i < |s|
    ensures Abs(a[i] as real - s[i]) < 1.0
    ensures Frac(s[i]) == 0.0 ==> a[i] as real == s[i]
  {
    if Frac(s[i]) == 0.0 && RoundedUp(s, a, i) {
      forall j | 0 <= j < |s| ensures a[j] as real >= s[j] {
        if !RoundedUp(s, a, j) { assert Beats(s, i, j); }
      }
      assert a[i] as real > s[i];
      SumDominates(a, s);
    }
  }

  function Deviation(s: seq<real>, a: seq<int>): real
    requires |s| == |a|
  {
    if s == [] then 0.0
    else Deviation(s[..|s| - 1], a[..|s| - 1]) + Abs(a[|s| - 1] as real - s[|s| - 1])
  }

  /** `mu` is a price per cent between the marginal losses of rounding down and of rounding up. */
  predicate Priced(s: real, a: int, mu: real)
  {
    && -1.0 <= mu <= 1.0
    && (a == s.Floor || a == s.Floor + 1)
    && (if a == s.Floor then 1.0 - 2.0 * Frac(s) >= mu else 1.0 - 2.0 * Frac(s) <= mu)
  }

  /** `d` cents at the price `mu`, as a sum so that no proof below multiplies. */
  function Price(mu: real, d: int): real
    decreases if d < 0 then -d else d
  {
    if d == 0 then 0.0 else if d > 0 then Price(mu, d - 1) + mu else Price(mu, d + 1) - mu
  }

  lemma {:induction false} PriceAdds(mu: real, x: int, y: int)
    ensures Price(mu, x + y) == Price(mu, x) + Price(mu, y)
    decreases if x < 0 then -x else x
  {
    if x > 0 {
      PriceAdds(mu, x - 1, y);
      assert Price(mu, x - 1 + y + 1) == Price(mu, x - 1 + y) + mu;
    } else if x < 0 {
      PriceAdds(mu, x + 1, y);
      assert Price(mu, x + 1 + y - 1) == Price(mu, x + 1 + y) - mu;
    }
  }

  /** One index of the exchange argument: at that price no other part does better. */
  lemma {:induction false} PriceSupportsPart(s: real, a: int, x: int, mu: real)
    requires Priced(s, a, mu)
    ensures Abs(x as real - s) >= Abs(a as real - s) + Price(mu, x - a)
    decreases Abs(x as real - a as real).Floor
  {
    if x > a {
      PriceSupportsPart(s, a, x - 1, mu);
    } else if x < a {
      PriceSupportsPart(s, a, x + 1, mu);
    }
  }

  function Prices(mu: real, a: seq<int>, x: seq<int>): (g: seq<real>)
    requires |a| == |x|
    ensures |g| == |a|
  {
    seq(|a|, i requires 0 <= i < |a| => Price(mu, x[i] - a[i]))
  }

  /** The prices of the moves add up to the price of their sum. */
  lemma {:induction false} PricesAdd(mu: real, a: seq<int>, x: seq<int>)
    requires |a| == |x|
    ensures RealSum(Prices(mu, a, x)) == Price(mu, Sum(x) - Sum(a))
  {
    if a != [] {
      var n := |a| - 1;
      assert Prices(mu, a, x)[..n] == Prices(mu, a[..n], x[..n]);
      PricesAdd(mu, a[..n], x[..n]);
      PriceAdds(mu, Sum(x[..n]) - Sum(a[..n]), x[n] - a[n]);
    }
  }

  lemma {:induction false} DeviationsAdd(s: seq<real>, a: seq<int>, x: seq<int>, g: seq<real>)
    requires |s| == |a| == |x| == |g|
    requires forall i :: 0 <= i < |s| ==> Abs(x[i] as real - s[i]) >= Abs(a[i] as real - s[i]) + g[i]
    ensures Deviation(s, x) >= Deviation(s, a) + RealSum(g)
  {
    if s != [] { DeviationsAdd(s[..|s| - 1], a[..|s| - 1], x[..|s| - 1], g[..|s| - 1]); }
  }

  /** The share rounded up with the smallest fraction, if any is rounded up. */
  lemma {:induction false} LeastRoundedUp(s: seq<real>, a: seq<int>, n: nat) returns (t: int)
    requires n <= |s| == |a|
    ensures -1 <= t < n
    ensures t == -1 ==> forall i :: 0 <= i < n ==> !RoundedUp(s, a, i)
    ensures t >= 0 ==> RoundedUp(s, a, t)
    ensures t >= 0 ==> forall i :: 0 <= i < n && RoundedUp(s, a, i) ==> Frac(s[i]) >= Frac(s[t])
  {
    t := -1;
    if n > 0 {
      t := LeastRoundedUp(s, a, n - 1);
      if RoundedUp(s, a, n - 1) && (t == -1 || Frac(s[n - 1]) < Frac(s[t])) {
        t := n - 1;
      }
    }
  }

  /** No whole-cent split of the same total is closer to the exact shares. */
  lemma SplitIsOptimal(s: seq<real>, cents: int, a: seq<int>, x: seq<int>)
    requires LargestRemainder(s, cents, a)
    requires |x| == |s| && Sum(x) == cents
    ensures Deviation(s, a) <= Deviation(s, x)
  {
    var t := LeastRoundedUp(s, a, |s|);
    var mu := if t < 0 then -1.0 else 1.0 - 2.0 * Frac(s[t]);
    forall i | 0 <= i < |s|
      ensures Abs(x[i] as real - s[i]) >= Abs(a[i] as real - s[i]) + Prices(mu, a, x)[i]
    {
      assert a[i] == s[i].Floor || RoundedUp(s, a, i);
      if t >= 0 && !RoundedUp(s, a, i) { assert Beats(s, t, i); }
      PriceSupportsPart(s[i], a[i], x[i], mu);
    }
    DeviationsAdd(s, a, x, Prices(mu, a, x));
    PricesAdd(mu, a, x);
  }

  /** A larger share never gets less; of two equal shares the earlier one gets the same or a cent more. */
  lemma SplitFollowsShares(s: seq<real>, cents: int, a: seq<int>, i: nat, j: nat)
    requires LargestRemainder(s, cents, a) && i < |s| && j < |s|
    ensures s[i] > s[j] ==> a[i] >= a[j]
    ensures s[i] == s[j] && i < j ==> a[j] <= a[i] <= a[j] + 1
  {
    if RoundedUp(s, a, j) && !RoundedUp(s, a, i) {
      assert Beats(s, j, i);
    }
  }

  // ---------------------------------------------------------------- the promises, on amount and weights

  ghost predicate Allocated(amount: real, weights: seq<real>, parts: seq<int>)
    requires weights != []
  {
    LargestRemainder(Shares(RoundHalfEven(amount), weights), RoundHalfEven(amount), parts)
  }

  /** The parts add up to the amount rounded to cents, hence to the amount itself exactly when that is
      a whole number of cents. */
  lemma AllocationAddsUp(amount: real, weights: seq<real>, parts: seq<int>)
    requires weights != [] && Allocated(amount, weights, parts)
    ensures |parts| == |weights| && Abs(Sum(parts) as real - amount) <= 0.5
    ensures Sum(parts) as real == amount <==> amount == amount.Floor as real
  {
    if amount == amount.Floor as real { RoundsToItself(amount, amount.Floor); }
  }

  /** Half a cent rounds to nothing. */
  lemma HalfCentIsLost(parts: seq<int>)
    requires Allocated(0.5, [1.0], parts)
    ensures Sum(parts) == 0 && Sum(parts) as real != 0.5
  {
  }

  lemma NoWeightNoShare(cents: int, total: real)
    requires total > 0.0
    ensures Share(cents, 0.0, total) == 0.0
  {
  }

  lemma LargerWeightLargerShare(cents: int, x: real, y: real, total: real)
    requires cents > 0 && x > y && total > 0.0
    ensures Share(cents, x, total) > Share(cents, y, total)
  {
    assert cents as real * (x - y) > 0.0;
    assert cents as real * x > cents as real * y;
  }

  lemma NoCentsNoParts(weights: seq<real>, parts: seq<int>, i: nat)
    requires i < |weights| && LargestRemainder(Shares(0, weights), 0, parts)
    ensures parts[i] == 0
  {
    ZeroSplit(weights);
    SplitIsUnique(Shares(0, weights), 0, parts, seq(|weights|, i => 0));
  }

  /** Each part is within a cent of its exact share; zero weights get nothing. */
  lemma AllocationIsFair(amount: real, weights: seq<real>, parts: seq<int>, i: nat)
    requires weights != [] && Allocated(amount, weights, parts) && i < |weights|
    ensures Abs(parts[i] as real - Shares(RoundHalfEven(amount), weights)[i]) < 1.0
    ensures weights[i] == 0.0 && RealSum(weights) > 0.0 ==> parts[i] == 0
  {
    var cents := RoundHalfEven(amount);
    SharesSum(cents, weights);
    var s := Shares(cents, weights);
    PartsAreNearShares(s, cents, parts, i);
    if weights[i] == 0.0 && RealSum(weights) > 0.0 {
      NoWeightNoShare(cents, RealSum(weights));
    }
  }

  /** That share is the amount times the weight over the sum of the weights. */
  lemma PartIsNearExact(cents: int, weights: seq<real>, parts: seq<int>, i: nat, weight: real, total: real)
    requires weights != [] && LargestRemainder(Shares(cents, weights), cents, parts)
    requires i < |weights| && weight == weights[i] && total == RealSum(weights) > 0.0
    ensures Abs(parts[i] as real - cents as real * weight / total) < 1.0
  {
    hide LargestRemainder, Abs, Frac, Shares, RealSum;
    SharesSum(cents, weights);
    PartsAreNearShares(Shares(cents, weights), cents, parts, i);
    ShareAt(cents, weights, i);
    assert Share(cents, weight, total) == cents as real * weight / total;
  }

  /** For a non-negative amount a larger weight never receives less; equal weights differ by at most
      a cent, in favour of the earlier one. */
  lemma AllocationFollowsWeights(amount: real, weights: seq<real>, parts: seq<int>, i: nat, j: nat)
    requires weights != [] && Allocated(amount, weights, parts) && i < |weights| && j < |weights|
    ensures amount >= 0.0 && RealSum(weights) > 0.0 && weights[i] > weights[j] ==> parts[i] >= parts[j]
    ensures weights[i] == weights[j] && i < j ==> parts[j] <= parts[i] <= parts[j] + 1
  {
    var cents := RoundHalfEven(amount);
    var s := Shares(cents, weights);
    SplitFollowsShares(s, cents, parts, i, j);
    if amount >= 0.0 && RealSum(weights) > 0.0 && weights[i] > weights[j] {
      if cents == 0 {
        NoCentsNoParts(weights, parts, i);
        NoCentsNoParts(weights, parts, j);
      } else {
        LargerWeightLargerShare(cents, weights[i], weights[j], RealSum(weights));
        assert s[i] == Share(cents, weights[i], RealSum(weights));
      }
    }
  }

  lemma ShareWithinWeight(cents: int, weight: real, total: real)
    requires 0.0 <= cents as real <= total && 0.0 <= weight && total > 0.0
    ensures 0.0 <= Share(cents, weight, total) <= weight
  {
    var c := cents as real;
    var product, all := c * weight, weight * total;
    Products(c, total, weight);
    Quotients(product, all, total);
    Cancel(weight, total);
  }

  lemma Products(c: real, t: real, w: real)
    requires 0.0 <= c <= t && 0.0 <= w
    ensures 0.0 <= c * w <= w * t
  {
  }

  lemma Quotients(x: real, y: real, t: real)
    requires 0.0 <= x <= y && t > 0.0
    ensures 0.0 <= x / t <= y / t
  {
  }

  lemma PartBetween(part: int, share: real, weight: int)
    requires Abs(part as real - share) < 1.0 && 0.0 <= share <= weight as real
    ensures 0 <= part <= weight
  {
  }

  lemma RoundedBetween(amount: real, total: int)
    requires 0.0 <= amount <= total as real
    ensures 0 <= RoundHalfEven(amount) <= total
  {
  }

  lemma ShareAt(cents: int, weights: seq<real>, i: nat)
    requires i < |weights| && RealSum(weights) > 0.0
    ensures Shares(cents, weights)[i] == Share(cents, weights[i], RealSum(weights))
  {
  }

  /** For weights in whole cents that cover the amount, as the gross values of a sale's lines cover its
      discount, no part is negative or exceeds its weight. */
  lemma PartsWithinWeights(amount: real, weights: seq<int>, parts: seq<int>, i: nat)
    requires i < |weights| && forall k :: 0 <= k < |weights| ==> weights[k] >= 0
    requires 0.0 <= amount <= Sum(weights) as real && Allocated(amount, ToReals(weights), parts)
    ensures 0 <= parts[i] <= weights[i]
  {
    hide Share, Shares, RoundHalfEven, Abs, Frac, Sum, RealSum;
    var cents, w := RoundHalfEven(amount), ToReals(weights);
    RealSumOfInts(weights);
    RoundedBetween(amount, Sum(weights));
    if Sum(weights) > 0 {
      SharesSum(cents, w);
      ShareAt(cents, w, i);
      ShareWithinWeight(cents, w[i], RealSum(w));
      PartsAreNearShares(Shares(cents, w), cents, parts, i);
      PartBetween(parts[i], Shares(cents, w)[i], weights[i]);
    } else {
      NoCentsNoParts(w, parts, i);
    }
  }

  /** Weights of half a cent: a part of a whole cent exceeds its weight. */
  lemma HalfCentWeightIsExceeded(parts: seq<int>)
    requires Allocated(1.0, [0.5, 0.5], parts)
    ensures parts == [1, 0] && parts[0] as real > 0.5
  {
    var s := Shares(1, [0.5, 0.5]);
    assert [0.5, 0.5][..1] == [0.5] && [0.5][..0] == [];
    assert RealSum([0.5]) == 0.5 && RealSum([0.5, 0.5]) == 1.0;
    assert s == [0.5, 0.5];
    assert parts[..1] == [parts[0]] && parts[..1][..0] == [];
    assert Sum(parts) == Sum(parts[..1]) + parts[1] && Sum(parts[..1]) == parts[0];
    UpBeatsDown(s, 1, parts, 1, 0);
  }

  function EvenParts(cents: int, n: nat): (a: seq<int>)
    requires n > 0
    ensures |a| == n
    ensures forall i :: 0 <= i < n ==> a[i] == cents / n + (if i < cents % n then 1 else 0)
  {
    seq(n, i => cents / n + (if i < cents % n then 1 else 0))
  }

  lemma {:induction false} EvenPartsSum(q: int, r: nat, n: nat)
    ensures Sum(seq(n, i => q + (if i < r then 1 else 0))) == n * q + (if n < r then n else r)
  {
    if n > 0 {
      var f := i => q + (if i < r then 1 else 0);
      assert seq(n, f)[..n - 1] == seq(n - 1, f);
      EvenPartsSum(q, r, n - 1);
      assert n * q == (n - 1) * q + q;
    }
  }

  /** Without any positive total the split is even: the remainder goes to the first parts, a cent each. */
  lemma EvenSplit(cents: int, weights: seq<real>, parts: seq<int>)
    requires weights != [] && RealSum(weights) <= 0.0
    requires LargestRemainder(Shares(cents, weights), cents, parts)
    ensures parts == EvenParts(cents, |weights|)
  {
    var s := Shares(cents, weights);
    forall i | 0 <= i < |s| ensures s[i] == cents as real / |weights| as real {
      RealSumOfOnes(|weights|);
    }
    EvenPartsAreLargestRemainder(cents, s);
    SplitIsUnique(s, cents, parts, EvenParts(cents, |s|));
  }

  lemma EvenPartsAreLargestRemainder(cents: int, s: seq<real>)
    requires s != [] && forall i :: 0 <= i < |s| ==> s[i] == cents as real / |s| as real
    ensures LargestRemainder(s, cents, EvenParts(cents, |s|))
  {
    var n := |s|;
    EvenShare(cents, n);
    EvenPartsSum(cents / n, cents % n, n);
    assert EvenParts(cents, n) == seq(n, i => cents / n + (if i < cents % n then 1 else 0));
    assert n * (cents / n) + cents % n == cents;
  }

  lemma EvenShare(cents: int, n: nat)
    requires n > 0
    ensures (cents as real / n as real).Floor == cents / n
    ensures cents % n == 0 ==> cents as real / n as real == (cents / n) as real
  {
    var q, r := cents / n, cents % n;
    assert cents as real == q as real * n as real + r as real by { assert cents == q * n + r; }
    assert cents as real / n as real == q as real + r as real / n as real;
    assert 0.0 <= r as real / n as real < 1.0;
  }
}

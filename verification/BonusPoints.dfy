/** The bonus-point spender of core/internal/mam/service.go: autoBuy, BuyBonus and the splitter.
    Points are reals; which purchases succeed and what "max affordable" spends are outcomes. */
module BonusPoints {
  const POINTS_PER_GB := 500
  const GB_STEP := 100

  predicate Positive(intervals: seq<nat>) {
    forall i :: 0 <= i < |intervals| ==> intervals[i] > 0
  }

  function Sum(s: seq<nat>): nat {
    if s == [] then 0 else s[0] + Sum(s[1..])
  }

  function Copies(n: nat, x: nat): seq<nat> {
    if n == 0 then [] else Copies(n - 1, x) + [x]
  }

  function Amounts(n: nat, intervals: seq<nat>): seq<nat>
    requires Positive(intervals)
  {
    if intervals == [] then [] else Copies(n / intervals[0], intervals[0]) + Amounts(n % intervals[0], intervals[1..])
  }

  function Remainder(n: nat, intervals: seq<nat>): nat
    requires Positive(intervals)
  {
    if intervals == [] then n else Remainder(n % intervals[0], intervals[1..])
  }

  /** divideIntoMamGBAmounts over any list of intervals; the program passes [100]. */
  method DivideIntoAmounts(num: nat, intervals: seq<nat>) returns (result: seq<nat>)
    requires Positive(intervals)
    ensures result == Amounts(num, intervals)
  {
    hide Amounts;
    var n := num;
    result := [];
    NoIntervals(n);
    assert intervals[0..] == intervals;
    for k := 0 to |intervals|
      invariant n >= 0 && Amounts(num, intervals) == result + Amounts(n, intervals[k..])
    {
      var interval := intervals[k];
      var count := n / interval;
      ghost var result0, n0 := result, n;
      DivMod(n, interval);
      for i := 0 to count
        invariant result == result0 + Copies(i, interval)
        invariant n == n0 % interval + (count - i) * interval
      {
        OneLess(count - i, interval);
        result := result + [interval];
        n := n - interval;
      }
      NextInterval(n0, intervals, k, result0);
    }
    assert intervals[|intervals|..] == [];
    NoIntervals(n);
  }

  lemma NoIntervals(n: nat)
    ensures Amounts(n, []) == []
  {
  }

  lemma OneLess(c: nat, d: nat)
    requires c > 0
    ensures c * d == (c - 1) * d + d
  {
  }

  lemma NextInterval(n: nat, intervals: seq<nat>, k: nat, before: seq<nat>)
    requires Positive(intervals) && k < |intervals|
    ensures before + Amounts(n, intervals[k..])
         == before + Copies(n / intervals[k], intervals[k]) + Amounts(n % intervals[k], intervals[k + 1..])
  {
    assert intervals[k..][0] == intervals[k] && intervals[k..][1..] == intervals[k + 1..];
  }

  lemma DivMod(n: nat, d: nat)
    requires d > 0
    ensures n == (n / d) * d + n % d && n % d < d
  {
  }

  lemma {:induction false} SumConcat(a: seq<nat>, b: seq<nat>)
    ensures Sum(a + b) == Sum(a) + Sum(b)
    decreases |a|
  {
    if a == [] {
      assert a + b == b;
    } else {
      assert (a + b)[1..] == a[1..] + b;
      SumConcat(a[1..], b);
    }
  }

  lemma {:induction false} SumCopies(n: nat, x: nat)
    ensures Sum(Copies(n, x)) == n * x && |Copies(n, x)| == n && forall y :: y in Copies(n, x) ==> y == x
  {
    if n != 0 {
      SumCopies(n - 1, x);
      SumConcat(Copies(n - 1, x), [x]);
      assert [x][1..] == [];
    }
  }

  /** The splitter loses nothing: amounts and remainder make up the number, every amount is one of the
      intervals, and the remainder is smaller than the last one. */
  lemma {:induction false} SplitConserves(n: nat, intervals: seq<nat>)
    requires Positive(intervals)
    ensures Sum(Amounts(n, intervals)) + Remainder(n, intervals) == n
    ensures forall a :: a in Amounts(n, intervals) ==> a in intervals
    ensures intervals != [] ==> Remainder(n, intervals) < intervals[|intervals| - 1]
    decreases |intervals|
  {
    if intervals != [] {
      var x := intervals[0];
      DivMod(n, x);
      SumCopies(n / x, x);
      SplitConserves(n % x, intervals[1..]);
      SumConcat(Copies(n / x, x), Amounts(n % x, intervals[1..]));
      assert intervals == [x] + intervals[1..];
    }
  }

  // ---- buying ----

  /** buys: whether the n-th request succeeds; most: the points "Max Affordable" would spend. */
  datatype Outcome = Outcome(buys: nat -> bool, most: real)

  function Spent(amounts: seq<nat>, buys: nat -> bool, first: nat): nat {
    if amounts == [] then 0
    else (if buys(first) then POINTS_PER_GB * amounts[0] else 0) + Spent(amounts[1..], buys, first + 1)
  }

  /** The purchases that succeed, of n numbered from first on. */
  function Bought(first: nat, n: nat, buys: nat -> bool): set<nat> {
    set i: nat | first <= i < first + n && buys(i)
  }

  /** A failed purchase costs nothing and the ones after it are still made: the points spent are those of
      the purchases that succeed. */
  lemma {:induction false} SpentIsBought(amounts: seq<nat>, buys: nat -> bool, first: nat, size: nat)
    requires forall i :: 0 <= i < |amounts| ==> amounts[i] == size
    ensures Spent(amounts, buys, first) == |Bought(first, |amounts|, buys)| * (POINTS_PER_GB * size)
    decreases |amounts|
  {
    var all := Bought(first, |amounts|, buys);
    if amounts == [] {
      assert all == {};
    } else {
      var rest := Bought(first + 1, |amounts| - 1, buys);
      SpentIsBought(amounts[1..], buys, first + 1, size);
      assert all == rest + if buys(first) then {first} else {};
      OneLess(|rest| + 1, POINTS_PER_GB * size);
    }
  }

  lemma StepsOf(gb: nat)
    ensures |Amounts(gb, [GB_STEP])| == gb / GB_STEP
  {
    SumCopies(gb / GB_STEP, GB_STEP);
    assert [GB_STEP][1..] == [];
  }

  lemma AllOfOneSize(amounts: seq<nat>, size: nat)
    requires forall a :: a in amounts ==> a in [size]
    ensures forall i :: 0 <= i < |amounts| ==> amounts[i] == size
  {
    forall i | 0 <= i < |amounts| ensures amounts[i] == size {
      assert amounts[i] in amounts;
    }
  }

  /** The points one BuyBonus call spends. */
  function BonusSpent(gb: nat, out: Outcome): real {
    if gb == 0 then (if out.buys(0) then out.most else 0.0)
    else Spent(Amounts(gb, [GB_STEP]), out.buys, 0) as real
  }

  /** errs: the amounts whose request failed, latest first; 0 stands for "max affordable". */
  method BuyBonus(gb: nat, out: Outcome) returns (spent: real, errs: seq<nat>)
    ensures spent == BonusSpent(gb, out)
    ensures gb != 0 ==>
      spent == (|Bought(0, gb / 100, out.buys)| * 50000) as real
    ensures gb == 0 ==> spent == if out.buys(0) then out.most else 0.0
    ensures gb == 0 ==> errs == (if out.buys(0) then [] else [0])
    ensures gb != 0 ==> (errs == [] <==> spent == (POINTS_PER_GB * Sum(Amounts(gb, [GB_STEP]))) as real)
  {
    spent, errs := 0.0, [];
    if gb == 0 {
      if out.buys(0) { spent := out.most; } else { errs := [0]; }
      return;
    }
    var res := DivideIntoAmounts(gb, [GB_STEP]);
    SplitConserves(gb, [GB_STEP]);
    StepsOf(gb);
    AllOfOneSize(res, GB_STEP);
    SpentIsBought(res, out.buys, 0, GB_STEP);
    var total := 0;
    for i := 0 to |res|
      invariant Spent(res, out.buys, 0) == total + Spent(res[i..], out.buys, i)
      invariant total <= POINTS_PER_GB * Sum(res[..i])
      invariant errs == [] <==> total == POINTS_PER_GB * Sum(res[..i])
    {
      assert res[i] == GB_STEP by { assert res[i] in res; }
      assert res[..i + 1] == res[..i] + [res[i]] && res[i..][1..] == res[i + 1..];
      SumConcat(res[..i], [res[i]]);
      assert [res[i]][1..] == [];
      if out.buys(i) {
        total := total + POINTS_PER_GB * res[i];
      } else {
        errs := [res[i]] + errs;
      }
    }
    assert res[..|res|] == res && res[|res|..] == [];
    spent := total as real;
  }

  /** The balance autoBuy reckons with: what buying VIP reported, else the profile's, else nothing. */
  function Available(vip: (bool, real), profile: (bool, int)): real {
    if vip.0 && vip.1 != 0.0 then vip.1 else if profile.0 then profile.1 as real else 0.0
  }

  function GbToBuy(available: real, keep: int): int {
    ((available - keep as real) / POINTS_PER_GB as real).Floor
  }

  /** The points one autoBuy spends on upload credit. */
  function AutoBuySpent(available: real, keep: int, out: Outcome): real {
    if available > keep as real then
      FloorIsNat(available - keep as real);
      BonusSpent(GbToBuy(available, keep), out)
    else 0.0
  }

  method AutoBuy(buyVip: bool, buyBonus: bool, vip: (bool, real), profile: (bool, int), keep: int, out: Outcome) returns (spent: real)
    ensures spent == if buyBonus then AutoBuySpent(Available((buyVip && vip.0, vip.1), profile), keep, out) else 0.0
    ensures buyBonus && buyVip && vip.0 && vip.1 != 0.0 ==> spent == AutoBuySpent(vip.1, keep, out)
    ensures buyBonus && !(buyVip && vip.0 && vip.1 != 0.0) && profile.0 ==> spent == AutoBuySpent(profile.1 as real, keep, out)
    ensures buyBonus && !(buyVip && vip.0 && vip.1 != 0.0) && !profile.0 ==> spent == AutoBuySpent(0.0, keep, out)
  {
    var availableBonus := 0.0;
    spent := 0.0;
    if buyVip && vip.0 { availableBonus := vip.1; }
    if buyBonus {
      if availableBonus == 0.0 && profile.0 { availableBonus := profile.1 as real; }
      if availableBonus > keep as real {
        var gbToBuy := ((availableBonus - keep as real) / POINTS_PER_GB as real).Floor;
        FloorIsNat(availableBonus - keep as real);
        var errs;
        spent, errs := BuyBonus(gbToBuy, out);
      }
    }
  }

  lemma FloorIsNat(surplus: real)
    requires surplus > 0.0
    ensures (surplus / POINTS_PER_GB as real).Floor >= 0
    ensures (surplus / POINTS_PER_GB as real).Floor == 0 <==> surplus < POINTS_PER_GB as real
  {
    var q := surplus / POINTS_PER_GB as real;
    assert q > 0.0;
    assert q < 1.0 <==> surplus < POINTS_PER_GB as real;
  }

  lemma {:induction false} SpentAtMost(amounts: seq<nat>, buys: nat -> bool, first: nat)
    ensures Spent(amounts, buys, first) <= POINTS_PER_GB * Sum(amounts)
    ensures (forall n :: buys(n)) ==> Spent(amounts, buys, first) == POINTS_PER_GB * Sum(amounts)
    decreases |amounts|
  {
    if amounts != [] { SpentAtMost(amounts[1..], buys, first + 1); }
  }

  /** The points of whole steps of 100 GB that fit into a surplus. */
  function WholeSteps(surplus: real): int {
    POINTS_PER_GB * GB_STEP * (surplus / (POINTS_PER_GB * GB_STEP) as real).Floor
  }

  lemma FloorOfFloor(x: real)
    requires x >= 0.0
    ensures x.Floor / GB_STEP == (x / GB_STEP as real).Floor
  {
    var n := x.Floor;
    DivMod(n, GB_STEP);
    var q := n / GB_STEP;
    assert (q * GB_STEP) as real <= x < (q * GB_STEP + GB_STEP) as real;
    assert q as real <= x / GB_STEP as real < q as real + 1.0;
  }

  /** With a surplus of at least 500 points one auto-buy spends at most the whole 50000-point steps in
      it, whichever purchases fail, and exactly those if none does; so the reserve is kept. */
  lemma AutoBuyKeepsReserve(available: real, keep: int, out: Outcome)
    requires available - keep as real >= POINTS_PER_GB as real
    ensures var surplus := available - keep as real; var spent := AutoBuySpent(available, keep, out);
      && spent <= WholeSteps(surplus) as real <= surplus
      && ((forall n :: out.buys(n)) ==> spent == WholeSteps(surplus) as real)
      && available - spent >= keep as real
  {
    var surplus := available - keep as real;
    var perGb := surplus / POINTS_PER_GB as real;
    var gb := GbToBuy(available, keep);
    FloorIsNat(surplus);
    SplitConserves(gb, [GB_STEP]);
    SpentAtMost(Amounts(gb, [GB_STEP]), out.buys, 0);
    SingleStep(gb);
    FloorOfFloor(perGb);
    assert perGb / GB_STEP as real == surplus / (POINTS_PER_GB * GB_STEP) as real;
    var steps := (surplus / (POINTS_PER_GB * GB_STEP) as real).Floor;
    assert steps as real <= surplus / (POINTS_PER_GB * GB_STEP) as real;
  }

  lemma SingleStep(gb: nat)
    ensures Sum(Amounts(gb, [GB_STEP])) == GB_STEP * (gb / GB_STEP)
  {
    SplitConserves(gb, [GB_STEP]);
    assert [GB_STEP][1..] == [];
    assert Remainder(gb, [GB_STEP]) == gb % GB_STEP;
    DivMod(gb, GB_STEP);
  }

  /** The reserve is safe from every outcome, "max affordable" spending anything up to the balance, if
      and only if the surplus is not strictly between 0 and 500 or there is no reserve to keep. */
  lemma ReserveSafeIff(available: real, keep: int)
    requires available >= keep as real && available >= 0.0
    ensures (forall out: Outcome | 0.0 <= out.most <= available :: available - AutoBuySpent(available, keep, out) >= keep as real)
       <==> !(0.0 < available - keep as real < POINTS_PER_GB as real && keep > 0)
  {
    var surplus := available - keep as real;
    if 0.0 < surplus < POINTS_PER_GB as real {
      FloorIsNat(surplus);
      if keep > 0 {
        var all := Outcome(n => true, available);
        assert AutoBuySpent(available, keep, all) == available;
      }
    } else if surplus >= POINTS_PER_GB as real {
      forall out: Outcome | 0.0 <= out.most <= available
        ensures available - AutoBuySpent(available, keep, out) >= keep as real
      {
        AutoBuyKeepsReserve(available, keep, out);
      }
    }
  }
}

/** When src/denomination_functions.cpp selects anything at all: for every amount of whole coins,
    also when an exact choice exists but takes too many of them. */
module CoinComplete {
  import opened Arith
  import opened Denominations
  import opened CoinSelection
  import opened CoinLimit

  /** There is a coin that is worth more than the target, or the choice that tries to meet it from
      the top down comes out above it. */
  predicate Exceeds(vals: seq<nat>, held: Counts, target: int)
    requires Sized(vals, held)
  {
    FirstOver(vals, held, target, 0) >= 0 || Total(vals, Over(vals, held, |vals|, target)) > target
  }

  /** Greedy makes the target with at most `max` coins. */
  predicate Cheap(vals: seq<nat>, held: Counts, target: int, max: int)
    requires Sized(vals, held)
  {
    var c := Spend(vals, held, |vals|, target);
    Total(vals, c) == target && Count(c) <= max
  }

  /** A choice that comes out above `r` skips over it by one coin, which greedy below `r` leaves. */
  lemma {:induction false} LeftOver(vals: seq<nat>, held: Counts, n: nat, r: int) returns (k: nat)
    requires n <= |held| && n <= |vals| && Chain(vals) && r > 0 && Total(vals, Over(vals, held, n, r)) > r
    ensures var s := Spend(vals, held, n, r - 1);
            k < n && s[k] < held[k] && Total(vals, s) < r < Total(vals, s) + vals[k]
  {
    hide Total, Count, Chain, TakeOver, Take, Spend, Over;
    ChainPositive(vals);
    if n == 0 {
      TotalNone(vals);
      NoneTaken(vals, held, r);
    } else {
      var v, have := vals[n - 1], held[n - 1];
      var up, down := TakeOver(v, have, r), Take(v, have, r - 1);
      UpOrDown(v, have, r);
      TakenNext(vals, held, n, r);
      if up == down {
        k := LeftOver(vals, held, n - 1, r - up * v);
      } else {
        NothingOver(vals, held, n - 1, r - up * v);
        NothingTotal(vals, Over(vals, held, n - 1, r - up * v));
        SpendFits(vals, held, n - 1, r - 1 - down * v);
        k := n - 1;
      }
    }
  }

  lemma NoneTaken(vals: seq<nat>, held: Counts, r: int)
    requires Chain(vals)
    ensures Over(vals, held, 0, r) == []
  {
  }

  lemma TakenNext(vals: seq<nat>, held: Counts, n: nat, r: int)
    requires 0 < n <= |held| && n <= |vals| && Chain(vals)
    requires forall i :: 0 <= i < |vals| ==> vals[i] > 0
    ensures var v := vals[n - 1];
            var up, down := TakeOver(v, held[n - 1], r), Take(v, held[n - 1], r - 1);
            && Total(vals, Over(vals, held, n, r)) == Total(vals, Over(vals, held, n - 1, r - up * v)) + up * v
            && Total(vals, Spend(vals, held, n, r - 1))
               == Total(vals, Spend(vals, held, n - 1, r - up * v - 1 + (up - down) * v)) + down * v
            && Spend(vals, held, n, r - 1) == Spend(vals, held, n - 1, r - 1 - down * v) + [down]
            && r - up * v - 1 + (up - down) * v == r - 1 - down * v
  {
    hide Total, TakeOver, Take, Chain, Count;
    var v := vals[n - 1];
    var up, down := TakeOver(v, held[n - 1], r), Take(v, held[n - 1], r - 1);
    Distribute(up, down, v);
    TotalAppend(vals, Over(vals, held, n - 1, r - up * v), up);
    TotalAppend(vals, Spend(vals, held, n - 1, r - 1 - down * v), down);
  }

  /** Both choices take all coins of a denomination, or one takes one more than the other. */
  lemma UpOrDown(v: nat, have: nat, r: int)
    requires v > 0 && r > 0
    ensures var up, down := TakeOver(v, have, r), Take(v, have, r - 1);
            || (up == down == have && up * v < r)
            || (up == down + 1 && down < have && down * v < r <= up * v == down * v + v)
  {
    var q := (r - 1) / v;
    TakeSome(v, r - 1);
    Add(q, 1, v);
    if have <= q { Scale(have, q, v); }
  }

  lemma {:induction false} NothingTotal(vals: seq<nat>, c: Counts)
    requires |c| <= |vals| && Count(c) == 0
    ensures Total(vals, c) == 0
  {
    if c != [] { NothingTotal(vals, c[..|c| - 1]); }
  }

  /** Without coins above `n`, greedy is greedy up to there. */
  lemma {:induction false} SpendUp(vals: seq<nat>, held: Counts, n: nat, m: nat, r: int)
    requires n <= m <= |held| && m <= |vals| && forall i :: 0 <= i < |vals| ==> vals[i] > 0
    requires forall k :: n <= k < m ==> held[k] == 0
    ensures Spend(vals, held, m, r) == Spend(vals, held, n, r) + Zeros(m - n)
  {
    if n < m {
      assert Take(vals[m - 1], held[m - 1], r) == 0;
      hide Take;
      SpendUp(vals, held, n, m - 1, r);
      assert Zeros(m - n) == Zeros(m - 1 - n) + [0];
    }
  }

  // ------------------------------------------------------- when there is a cover

  /** What remains below the target is covered by some coin that is left. */
  lemma CoverFound(vals: seq<nat>, held: Counts, top: int, target: int, k: nat)
    requires Sized(vals, held) && -1 <= top < |vals| && k < |vals|
    requires var b := Below(vals, held, top, target);
             b[k] < held[k] && Total(vals, b) <= target < Total(vals, b) + vals[k]
    ensures Total(vals, Covered(vals, held, top, target)) > target
  {
    hide Total, Count, Chain, Below, Cover;
    var b := Below(vals, held, top, target);
    var d := Cover(vals, held, b, target - Total(vals, b), 0);
    assert d >= 0 && target - Total(vals, b) < vals[d];
    hide Covered;
    TotalUpdate(vals, b, d, b[d] + 1);
    assert (b[d] + 1 - b[d]) * vals[d] == vals[d];
  }

  /** Below a coin that is worth more, that coin covers. */
  lemma CoveredByOne(vals: seq<nat>, held: Counts, target: int)
    requires Sized(vals, held) && target > 0 && FirstOver(vals, held, target, 0) >= 0
    ensures var d := FirstOver(vals, held, target, 0);
            Total(vals, Covered(vals, held, TopHeld(held, d), target)) > target
  {
    hide Total, Chain, Covered, Below, FirstOver, TopHeld;
    var d := FirstOver(vals, held, target, 0);
    var top := TopHeld(held, d);
    NoneAbove(vals, held, top, target);
    CoverFound(vals, held, top, target, d);
  }

  /** Greedy below the target takes nothing above `top`. */
  lemma NoneAbove(vals: seq<nat>, held: Counts, top: int, target: int)
    requires Sized(vals, held) && -1 <= top < |vals| && target > 0
    ensures var b := Below(vals, held, top, target);
            Total(vals, b) < target && forall k :: 0 <= k < |vals| && k > top ==> b[k] == 0
  {
    hide Total, Chain, Spend;
    ChainPositive(vals);
    var s := Spend(vals, held, top + 1, target - 1);
    SpendFits(vals, held, top + 1, target - 1);
    ZeroTail(vals, s, |vals| - top - 1);
  }

  /** When the choice from the top down comes out above the target, some coin that is left covers. */
  lemma CoveredByLeft(vals: seq<nat>, held: Counts, target: int)
    requires Sized(vals, held) && target > 0 && Total(vals, Over(vals, held, |vals|, target)) > target
    ensures Total(vals, Covered(vals, held, TopHeld(held, |held|), target)) > target
  {
    hide Total, Spend, Over, Covered;
    ChainPositive(vals);
    var top := TopHeld(held, |held|);
    SpendUp(vals, held, top + 1, |vals|, target - 1);
    var k := LeftOver(vals, held, |vals|, target);
    CoverFound(vals, held, top, target, k);
  }

  /** Then minimising leaves some change, unless the target is met exactly by few enough coins. */
  lemma MinimizeMore(max: int, count: nat, top: int, target: int, vals: seq<nat>, held: Counts, saved: Counts)
    requires Sized(vals, held) && -1 <= top < |vals| && target > 0 && target % vals[0] == 0
    requires Total(vals, Covered(vals, held, top, target)) > target && count > 0
    requires !Cheap(vals, held, target, max)
    ensures Minimize(max, count, top, target, vals, held, saved).0 > 0
  {
    hide Total, Count, Change, Covered, Spend, Chain;
    ChainPositive(vals);
    var u := Covered(vals, held, top, target);
    var w := Trimmed(vals, held, top, target);
    var change := Change(vals, |vals|, Total(vals, u) - target);
    LessAtLeast(vals, u, change);
    ChangeTotal(vals, |vals|, Total(vals, u) - target);
    TrimmedFits(vals, held, top, target);
    SpendBest(vals, held, w, Total(vals, w));
    ChangePositive(vals, w, target);
  }

  // ------------------------------------------------------------------ the choice

  /** There is change to give exactly when the choice can exceed the target, unless the target is
      met exactly by few enough coins. */
  lemma CalculateMore(max: int, fMinimize: bool, target: int, vals: seq<nat>, held: Counts)
    requires Sized(vals, held) && target > 0 && target % vals[0] == 0 && !Cheap(vals, held, target, max)
    ensures Calculate(max, fMinimize, target, vals, held).0 > 0 <==> Exceeds(vals, held, target)
  {
    hide Over, Total, Chain, Change, Count, Minimize, Covered, Cheap, TopHeld;
    ChainPositive(vals);
    var d := FirstOver(vals, held, target, 0);
    if d >= 0 {
      var one := One(|vals|, d);
      OneTotal(vals, d);
      ChangePositive(vals, one, target);
      CoveredByOne(vals, held, target);
      MinimizeMore(max, ChangeCount(vals, one, target), TopHeld(held, d), target, vals, held, one);
    } else {
      CalculateOver(max, fMinimize, target, vals, held);
    }
  }

  lemma CalculateOver(max: int, fMinimize: bool, target: int, vals: seq<nat>, held: Counts)
    requires Sized(vals, held) && target > 0 && target % vals[0] == 0 && !Cheap(vals, held, target, max)
    requires FirstOver(vals, held, target, 0) < 0
    ensures Calculate(max, fMinimize, target, vals, held).0 > 0 <==>
            Total(vals, Over(vals, held, |vals|, target)) > target
  {
    hide Over, Total, Chain, Change, Count, ChangeCount, Covered, Cheap, TopHeld, FirstOver;
    var over, top := Over(vals, held, |vals|, target), TopHeld(held, |held|);
    ChangePositive(vals, over, target);
    if Total(vals, over) > target {
      CoveredByLeft(vals, held, target);
      MinimizeMore(max, ChangeCount(vals, over, target), top, target, vals, held, over);
    } else {
      MinimizeNone(max, top, target, vals, held, over);
    }
  }

  lemma MinimizeNone(max: int, top: int, target: int, vals: seq<nat>, held: Counts, saved: Counts)
    requires Sized(vals, held) && -1 <= top < |vals|
    ensures Minimize(max, 0, top, target, vals, held, saved) == (0, saved)
  {
    hide Trimmed, Spend, ChangeCount;
  }

  // ------------------------------------------------------------------- promises

  /** Something is selected for a positive amount of whole coins if and only if some of the unused
      mints make it exactly without exceeding the maximum, or the choice with change exceeds it.
      When no choice is exact, that is if and only if they are worth enough. */
  lemma SelectComplete(target: int, value: int, max: int, fMinimize: bool, vals: seq<nat>, mints: seq<Mint>)
    requires |vals| > 0 && Chain(vals) && target > 0 && target % vals[0] == 0
    ensures var held := HeldOf(mints, |vals|);
            && Ends(target, max, fMinimize, vals, mints, held)
            && var s := Select(target, value, max, fMinimize, vals, mints, held);
            && (s.mints != [] <==> Ideal(target, max, vals, mints) || Exceeds(vals, held, target))
            && (!Reachable(vals, held, target) ==> (s.mints != [] <==> Total(vals, held) >= target))
  {
    hide Calculate, Chain, Total, Change, Count, PickAll, Payable, Reachable, Exceeds, Spend;
    ChainPositive(vals);
    var held := HeldOf(mints, |vals|);
    PickAllWithin(mints, held);
    HeldEnds(target, max, fMinimize, vals, mints, held);
    SelectSound(target, value, max, fMinimize, vals, mints);
    var s := Select(target, value, max, fMinimize, vals, mints, held);
    if !Ideal(target, max, vals, mints) {
      NotCheap(target, max, vals, mints);
      CalculateMore(max, fMinimize, target, vals, held);
      SelectOther(target, value, max, fMinimize, vals, mints);
    } else {
      SelectIdeal(target, value, max, fMinimize, vals, mints);
    }
    WorthEnough(vals, held, target);
    SpendComplete(vals, held, target);
  }

  lemma NotCheap(target: int, max: int, vals: seq<nat>, mints: seq<Mint>)
    requires |vals| > 0 && Chain(vals) && !Ideal(target, max, vals, mints)
    ensures !Cheap(vals, HeldOf(mints, |vals|), target, max)
  {
  }

  lemma SelectIdeal(target: int, value: int, max: int, fMinimize: bool, vals: seq<nat>, mints: seq<Mint>)
    requires |vals| > 0 && Chain(vals) && target > 0 && Ideal(target, max, vals, mints)
    ensures var s := Select(target, value, max, fMinimize, vals, mints, HeldOf(mints, |vals|));
            s.mints != [] && s.nNeededSpends == 0
  {
    hide Total, PickAll, Payable, Calculate, Spend, Chain;
    ChainPositive(vals);
    var held := HeldOf(mints, |vals|);
    var ideal := Spend(vals, held, |vals|, target);
    SpendFits(vals, held, |vals|, target);
    PickAllWithin(mints, ideal);
    PickAllWorth(vals, mints, ideal);
    CountPositive(vals, ideal);
  }

  lemma SelectOther(target: int, value: int, max: int, fMinimize: bool, vals: seq<nat>, mints: seq<Mint>)
    requires |vals| > 0 && Chain(vals) && target > 0 && target % vals[0] == 0 && !Ideal(target, max, vals, mints)
    requires Ends(target, max, fMinimize, vals, mints, HeldOf(mints, |vals|))
    ensures var s := Select(target, value, max, fMinimize, vals, mints, HeldOf(mints, |vals|));
            s.mints != [] <==> Calculate(max, fMinimize, target, vals, HeldOf(mints, |vals|)).0 > 0
  {
    hide Total, PickAll, Payable, Calculate, Spend, Chain, Change, Count, ChangeCount;
    ChainPositive(vals);
    var held := HeldOf(mints, |vals|);
    SpendFits(vals, held, |vals|, target);
    CalculateSound(max, fMinimize, target, vals, held);
    var (count, used) := Calculate(max, fMinimize, target, vals, held);
    if count > 0 {
      PickAllWithin(mints, used);
      PickAllWorth(vals, mints, used);
      ChangePositive(vals, used, target);
      CountPositive(vals, used);
    }
  }

  /** Unless there is an exact choice, the choice exceeds the target exactly when the coins are
      worth it. */
  lemma WorthEnough(vals: seq<nat>, held: Counts, target: int)
    requires Sized(vals, held) && target > 0
    ensures Exceeds(vals, held, target) ==> Total(vals, held) >= target
    ensures !Reachable(vals, held, target) && Total(vals, held) >= target ==> Exceeds(vals, held, target)
  {
    hide Total, Over, Reachable, Chain;
    var d, over := FirstOver(vals, held, target, 0), Over(vals, held, |vals|, target);
    OverFits(vals, held, |vals|, target);
    TotalFits(vals, over, held);
    if d >= 0 { TotalPositive(vals, held, d); }
    assert held[..|vals|] == held;
    if Total(vals, held) >= target { OverReaches(vals, held, |vals|, target); }
    if !Reachable(vals, held, target) { NotExact(vals, held, over, target); }
  }

  lemma NotExact(vals: seq<nat>, held: Counts, c: Counts, target: int)
    requires |held| == |vals| == |c| && Fits(c, held) && !Reachable(vals, held, target)
    ensures Total(vals, c) != target
  {
  }

  /** Whenever some choice of at most `max` mints is worth the target, one is made. */
  lemma SelectAffordable(target: int, value: int, max: int, fMinimize: bool, vals: seq<nat>, mints: seq<Mint>)
    requires |vals| > 0 && Chain(vals) && target > 0 && target % vals[0] == 0
    requires Affordable(vals, HeldOf(mints, |vals|), target, max)
    ensures var held := HeldOf(mints, |vals|);
            && Ends(target, max, fMinimize, vals, mints, held)
            && var s := Select(target, value, max, fMinimize, vals, mints, held);
            0 < |s.mints| <= max
  {
    hide Select, Ends, Affordable, Chain, Total, Count, Over, Spend;
    var held := HeldOf(mints, |vals|);
    SelectComplete(target, value, max, fMinimize, vals, mints);
    SelectLimit(target, value, max, fMinimize, vals, mints);
    ChainPositive(vals);
    var c := AnOffer(vals, held, target, max);
    TotalFits(vals, c, held);
    assert held[..|vals|] == held;
    OverReaches(vals, held, |vals|, target);
    OverFewest(vals, held, c, target);
    var over := Over(vals, held, |vals|, target);
    OverFits(vals, held, |vals|, target);
    if Total(vals, over) == target { SpendBest(vals, held, over, target); }
  }

  lemma AnOffer(vals: seq<nat>, held: Counts, target: int, max: int) returns (c: Counts)
    requires |held| == |vals| && Affordable(vals, held, target, max)
    ensures |c| == |vals| && Fits(c, held) && Total(vals, c) >= target && Count(c) <= max
  {
    c :| IsOffer(vals, held, target, max, c);
  }

  predicate IsExact(vals: seq<nat>, held: Counts, target: int, c: Counts)
    requires |held| == |vals|
  {
    |c| == |vals| && Fits(c, held) && Total(vals, c) == target
  }

  /** No exact choice takes fewer coins than `n`, and one takes as many. */
  ghost predicate Fewest(vals: seq<nat>, held: Counts, target: int, n: nat)
    requires |held| == |vals|
  {
    && (exists c: Counts :: IsExact(vals, held, target, c) && Count(c) == n)
    && (forall c: Counts :: IsExact(vals, held, target, c) ==> n <= Count(c))
  }

  /** `n` is the fewest coins of an exact choice, if these are more than the maximum, and otherwise
      0; below zero there is no maximum. */
  ghost predicate IsNeeded(vals: seq<nat>, held: Counts, target: int, max: int, n: int)
    requires |held| == |vals|
  {
    || (n > max >= 0 && Fewest(vals, held, target, n))
    || (n == 0 && (max >= 0 ==> forall k: nat :: Fewest(vals, held, target, k) ==> k <= max))
  }

  /** That is what nNeededSpends is. When nothing is selected, nSelectedValue is the target if some
      choice is exact, and what it was before otherwise. */
  lemma NeededSpends(target: int, value: int, max: int, fMinimize: bool, vals: seq<nat>, mints: seq<Mint>)
    requires |vals| > 0 && Chain(vals) && target > 0
    ensures var held := HeldOf(mints, |vals|);
            && Ends(target, max, fMinimize, vals, mints, held)
            && var s := Select(target, value, max, fMinimize, vals, mints, held);
            && IsNeeded(vals, held, target, max, s.nNeededSpends)
            && (s.mints == [] ==> s.nSelectedValue == if Reachable(vals, held, target) then target else value)
  {
    hide Calculate, Chain, Total, Count, PickAll, Payable, Spend, Fewest, IsNeeded, Reachable;
    ChainPositive(vals);
    var held := HeldOf(mints, |vals|);
    PickAllWithin(mints, held);
    HeldEnds(target, max, fMinimize, vals, mints, held);
    var ideal := Spend(vals, held, |vals|, target);
    SpendFits(vals, held, |vals|, target);
    SpendComplete(vals, held, target);
    var exact := Total(vals, ideal) == target;
    var s := Select(target, value, max, fMinimize, vals, mints, held);
    assert s.nNeededSpends == if exact && max >= 0 && Count(ideal) > max then Count(ideal) else 0;
    GreedyNeeded(vals, held, target, max);
    if s.mints == [] { NothingPicked(target, value, max, fMinimize, vals, mints); }
  }

  lemma NothingPicked(target: int, value: int, max: int, fMinimize: bool, vals: seq<nat>, mints: seq<Mint>)
    requires |vals| > 0 && Chain(vals) && target > 0
    requires Ends(target, max, fMinimize, vals, mints, HeldOf(mints, |vals|))
    requires Select(target, value, max, fMinimize, vals, mints, HeldOf(mints, |vals|)).mints == []
    ensures var held := HeldOf(mints, |vals|);
            Select(target, value, max, fMinimize, vals, mints, held).nSelectedValue
            == if Total(vals, Spend(vals, held, |vals|, target)) == target then target else value
  {
    hide Chain, Total, Count, PickAll, Payable, Spend, Calculate, Change;
    ChainPositive(vals);
    var held := HeldOf(mints, |vals|);
    var ideal := Spend(vals, held, |vals|, target);
    SpendFits(vals, held, |vals|, target);
    var (count, used) := Calculate(max, fMinimize, target, vals, held);
    CalculateSound(max, fMinimize, target, vals, held);
    if count > 0 && !Ideal(target, max, vals, mints) {
      PickAllWithin(mints, used);
      PickAllWorth(vals, mints, used);
      ChangeNone(vals, |vals|, Total(vals, used) - target);
      CountPositive(vals, used);
    }
  }

  lemma GreedyNeeded(vals: seq<nat>, held: Counts, target: int, max: int)
    requires Sized(vals, held) && target > 0
    ensures var c := Spend(vals, held, |vals|, target);
            IsNeeded(vals, held, target, max,
                     if Total(vals, c) == target && max >= 0 && Count(c) > max then Count(c) else 0)
  {
    GreedyFewest(vals, held, target);
    hide Fewest, Total, Count, Spend, Chain;
  }

  /** Greedy takes the fewest coins, if there is an exact choice. */
  lemma GreedyFewest(vals: seq<nat>, held: Counts, target: int)
    requires Sized(vals, held) && target > 0
    ensures forall k: nat :: Fewest(vals, held, target, k) <==>
              var c := Spend(vals, held, |vals|, target); Total(vals, c) == target && Count(c) == k
  {
    hide Total, Count, Spend, Chain;
    ChainPositive(vals);
    var g := Spend(vals, held, |vals|, target);
    SpendFits(vals, held, |vals|, target);
    forall c: Counts | IsExact(vals, held, target, c) ensures IsExact(vals, held, target, g) && Count(g) <= Count(c) {
      SpendBest(vals, held, c, target);
    }
    assert Total(vals, g) == target ==> IsExact(vals, held, target, g);
  }

  /** Three coins of 10 for a target of 25, of which at most two may be spent: more than two
      are selected. */
  lemma LimitFails(value: int, fMinimize: bool)
    ensures var mints := [Mint(1, 2, false), Mint(2, 2, false), Mint(3, 2, false)];
            && Ends(25 * COIN, 2, fMinimize, AMOUNTS, mints, HeldOf(mints, 8))
            && |Select(25 * COIN, value, 2, fMinimize, AMOUNTS, mints, HeldOf(mints, 8)).mints| > 2
  {
    var mints := [Mint(1, 2, false), Mint(2, 2, false), Mint(3, 2, false)];
    var held := HeldOf(mints, 8);
    AmountsChain();
    hide HeldOf, Chain, Select, Ends, Affordable, Reachable, Total;
    ThreeTens(mints);
    NotReached(held);
    OnlyTens(held, held);
    SelectComplete(25 * COIN, value, 2, fMinimize, AMOUNTS, mints);
    SelectLimit(25 * COIN, value, 2, fMinimize, AMOUNTS, mints);
  }

  predicate Tens(held: Counts) {
    |held| == 8 && held[2] == 3 && forall i :: 0 <= i < 8 && i != 2 ==> held[i] == 0
  }

  lemma ThreeTens(mints: seq<Mint>)
    requires mints == [Mint(1, 2, false), Mint(2, 2, false), Mint(3, 2, false)]
    ensures Tens(HeldOf(mints, 8))
  {
    var two, one := mints[..2], mints[..1];
    assert two[..1] == one;
    forall d | 0 <= d < 8 ensures Unused(mints, d) == if d == 2 then 3 else 0 {
      assert Unused([], d) == 0;
      assert Unused(one, d) == if d == 2 then 1 else 0;
      assert Unused(two, d) == if d == 2 then 2 else 0;
    }
  }

  lemma OnlyTens(held: Counts, c: Counts)
    requires Tens(held) && |c| == 8 && Fits(c, held)
    ensures Total(AMOUNTS, c) == c[2] * AMOUNTS[2] && Count(c) == c[2] <= 3
  {
    hide Total, Count;
    assert c == Zeros(8)[2 := c[2]];
    ZerosTotal(AMOUNTS, 8);
    TotalUpdate(AMOUNTS, Zeros(8), 2, c[2]);
  }

  lemma NotReached(held: Counts)
    requires Tens(held)
    ensures !Reachable(AMOUNTS, held, 25 * COIN) && !Affordable(AMOUNTS, held, 25 * COIN, 2)
  {
    forall c: Counts | |c| == 8 && Fits(c, held)
      ensures Total(AMOUNTS, c) != 25 * COIN && !IsOffer(AMOUNTS, held, 25 * COIN, 2, c)
    {
      OnlyTens(held, c);
    }
  }

  /** Three coins of 10 for a target of 30, of which at most two may be spent: nothing is selected,
      although they are worth it, and three spends are said to be needed. */
  lemma TooManyFails(value: int, fMinimize: bool)
    ensures var mints := [Mint(1, 2, false), Mint(2, 2, false), Mint(3, 2, false)];
            && Total(AMOUNTS, HeldOf(mints, 8)) == 30 * COIN
            && Ends(30 * COIN, 2, fMinimize, AMOUNTS, mints, HeldOf(mints, 8))
            && var s := Select(30 * COIN, value, 2, fMinimize, AMOUNTS, mints, HeldOf(mints, 8));
            s.mints == [] && s.nNeededSpends == 3
  {
    var mints := [Mint(1, 2, false), Mint(2, 2, false), Mint(3, 2, false)];
    var held := HeldOf(mints, 8);
    AmountsChain();
    ChainPositive(AMOUNTS);
    hide HeldOf, Chain, Select, Ends, Total, Count, Spend, Over, Exceeds, Fewest, Ideal;
    ThreeTens(mints);
    OnlyTens(held, held);
    SelectComplete(30 * COIN, value, 2, fMinimize, AMOUNTS, mints);
    NeededSpends(30 * COIN, value, 2, fMinimize, AMOUNTS, mints);
    GreedyFewest(AMOUNTS, held, 30 * COIN);
    Thirty(held);
    NoIdeal(mints, held);
  }

  lemma NoIdeal(mints: seq<Mint>, held: Counts)
    requires held == HeldOf(mints, 8) && (forall i :: 0 <= i < 8 ==> AMOUNTS[i] > 0)
    requires Count(Spend(AMOUNTS, held, 8, 30 * COIN)) == 3
    ensures !Ideal(30 * COIN, 2, AMOUNTS, mints)
  {
  }

  lemma Thirty(held: Counts)
    requires Tens(held) && Chain(AMOUNTS)
    ensures Total(AMOUNTS, Spend(AMOUNTS, held, 8, 30 * COIN)) == 30 * COIN
    ensures Count(Spend(AMOUNTS, held, 8, 30 * COIN)) == 3 && !Exceeds(AMOUNTS, held, 30 * COIN)
  {
    ChainPositive(AMOUNTS);
    hide Chain, Total, Count, Spend, Over;
    OnlyTens(held, held);
    SpendBest(AMOUNTS, held, held, 30 * COIN);
    SpendFits(AMOUNTS, held, 8, 30 * COIN);
    OnlyTens(held, Spend(AMOUNTS, held, 8, 30 * COIN));
    OverFits(AMOUNTS, held, 8, 30 * COIN);
    OnlyTens(held, Over(AMOUNTS, held, 8, 30 * COIN));
    NoneOver(held);
  }

  lemma NoneOver(held: Counts)
    requires Tens(held)
    ensures FirstOver(AMOUNTS, held, 30 * COIN, 0) < 0
  {
    var d := FirstOver(AMOUNTS, held, 30 * COIN, 0);
    assert d >= 0 ==> d == 2;
  }
}

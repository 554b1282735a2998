/** What the flag fMinimizeChange of src/denomination_functions.cpp does: with it there is less
    change, without it fewer mints are spent. */
module CoinMinimize {
  import opened Arith
  import opened Denominations
  import opened CoinSelection
  import opened CoinLimit
  import opened CoinComplete

  /** No exact choice keeps to the maximum; below zero there is none. */
  ghost predicate NoneExact(vals: seq<nat>, held: Counts, target: int, max: int)
    requires |held| == |vals|
  {
    forall c: Counts :: IsExact(vals, held, target, c) ==> 0 <= max < Count(c)
  }

  lemma NotIdeal(target: int, max: int, vals: seq<nat>, mints: seq<Mint>)
    requires |vals| > 0 && Chain(vals) && NoneExact(vals, HeldOf(mints, |vals|), target, max)
    ensures !Ideal(target, max, vals, mints)
  {
    ChainPositive(vals);
    var held := HeldOf(mints, |vals|);
    SpendFits(vals, held, |vals|, target);
    assert Total(vals, Spend(vals, held, |vals|, target)) == target ==>
        IsExact(vals, held, target, Spend(vals, held, |vals|, target));
  }

  /** Without an exact choice the selection is what calculateChange chooses. */
  lemma SelectCalculated(target: int, value: int, max: int, fMinimize: bool, vals: seq<nat>, mints: seq<Mint>)
    requires |vals| > 0 && Chain(vals) && target > 0 && !Ideal(target, max, vals, mints)
    ensures var held := HeldOf(mints, |vals|);
            && Ends(target, max, fMinimize, vals, mints, held)
            && var s := Select(target, value, max, fMinimize, vals, mints, held);
            var (count, used) := Calculate(max, fMinimize, target, vals, held);
            && s.nCoinsReturned == count
            && (s.mints == [] <==> count == 0)
            && (count > 0 ==>
                  && |used| == |vals| && Fits(used, held) && Payable(mints, used) && s.mints == PickAll(mints, used)
                  && |s.mints| == Count(used) && Total(vals, used) >= target)
  {
    hide Calculate, Chain, Total, Change, Count, PickAll, Payable, Spend;
    ChainPositive(vals);
    var held := HeldOf(mints, |vals|);
    PickAllWithin(mints, held);
    HeldEnds(target, max, fMinimize, vals, mints, held);
    var (count, used) := Calculate(max, fMinimize, target, vals, held);
    CalculateSound(max, fMinimize, target, vals, held);
    SelectSound(target, value, max, fMinimize, vals, mints);
    if count > 0 {
      PickAllWithin(mints, used);
      PickAllWorth(vals, mints, used);
      ChangeNone(vals, |vals|, Total(vals, used) - target);
      CountPositive(vals, used);
    }
  }

  /** Without the flag, one coin that is worth more is the choice, if there is one. */
  lemma CalculateOne(max: int, target: int, vals: seq<nat>, held: Counts, k: nat)
    requires Sized(vals, held) && target > 0 && target % vals[0] == 0
    requires k < |vals| && held[k] > 0 && vals[k] > target
    ensures var d := FirstOver(vals, held, target, 0);
            && 0 <= d <= k && vals[d] > target && (forall i :: 0 <= i < d && held[i] > 0 ==> vals[i] <= target)
            && Calculate(max, false, target, vals, held).1 == One(|vals|, d)
            && Calculate(max, false, target, vals, held).0 > 0
  {
    hide Chain, Total, Change, Count, Minimize, One;
    ChainPositive(vals);
    var d := FirstOver(vals, held, target, 0);
    OneTotal(vals, d);
    ChangePositive(vals, One(|vals|, d), target);
  }

  lemma OneMint(mints: seq<Mint>, vals: seq<nat>, d: nat)
    requires d < |vals| && Payable(mints, One(|vals|, d)) && |PickAll(mints, One(|vals|, d))| == 1
    ensures PickAll(mints, One(|vals|, d))[0].denom == d
  {
    hide Payable, PickAll;
    var p := PickAll(mints, One(|vals|, d));
    PickAllCount(mints, One(|vals|, d), d);
    assert p[..|p| - 1] == [] && Unused([], d) == 0;
  }

  /** When no exact choice keeps to the maximum and some mint is worth more than the target, one
      mint is selected without the flag, of the smallest denomination that is worth more. */
  lemma SelectOne(target: int, value: int, max: int, vals: seq<nat>, mints: seq<Mint>, k: nat)
    requires |vals| > 0 && Chain(vals) && target > 0 && target % vals[0] == 0
    requires NoneExact(vals, HeldOf(mints, |vals|), target, max)
    requires k < |vals| && Unused(mints, k) > 0 && vals[k] > target
    ensures Ends(target, max, false, vals, mints, HeldOf(mints, |vals|))
    ensures var s := Select(target, value, max, false, vals, mints, HeldOf(mints, |vals|));
            && |s.mints| == 1 && 0 <= s.mints[0].denom <= k && vals[s.mints[0].denom] > target
            && forall d :: 0 <= d < s.mints[0].denom && Unused(mints, d) > 0 ==> vals[d] <= target
  {
    hide Chain, Total, Count, PickAll, Payable, Calculate, One, NoneExact, Select, Ends, Unused, Ideal;
    var held := HeldOf(mints, |vals|);
    NotIdeal(target, max, vals, mints);
    SelectCalculated(target, value, max, false, vals, mints);
    CalculateOne(max, target, vals, held, k);
    var d := FirstOver(vals, held, target, 0);
    OneTotal(vals, d);
    OneMint(mints, vals, d);
  }

  lemma CalculateFewest(max: int, target: int, vals: seq<nat>, held: Counts, c: Counts)
    requires Sized(vals, held) && target > 0 && |c| == |vals| && Fits(c, held) && Total(vals, c) >= target
    ensures Count(Calculate(max, false, target, vals, held).1) <= Count(c)
  {
    CountPositive(vals, c);
    OverFewest(vals, held, c, target);
    hide Chain, Total, Change, Count, Minimize, Over, One, TopHeld, ChangeCount;
    var d := FirstOver(vals, held, target, 0);
    if d >= 0 { OneTotal(vals, d); }
  }

  /** Without the flag no choice of unused mints that are worth the target has fewer mints than what
      is selected with change. */
  lemma SelectFewest(target: int, value: int, max: int, vals: seq<nat>, mints: seq<Mint>, c: Counts)
    requires |vals| > 0 && Chain(vals) && target > 0 && |c| == |vals|
    requires Fits(c, HeldOf(mints, |vals|)) && Total(vals, c) >= target
    ensures Ends(target, max, false, vals, mints, HeldOf(mints, |vals|))
    ensures var s := Select(target, value, max, false, vals, mints, HeldOf(mints, |vals|));
            s.nCoinsReturned > 0 ==> |s.mints| <= Count(c)
  {
    var held := HeldOf(mints, |vals|);
    CalculateFewest(max, target, vals, held, c);
    hide Chain, Total, Change, Count, PickAll, Payable, Calculate, Ideal, HeldOf;
    if Ideal(target, max, vals, mints) {
      IdealSame(target, value, max, false, vals, mints);
    } else {
      SelectCalculated(target, value, max, false, vals, mints);
    }
    hide Select, Ends;
  }

  lemma IdealSame(target: int, value: int, max: int, fMinimize: bool, vals: seq<nat>, mints: seq<Mint>)
    requires |vals| > 0 && Chain(vals) && Ideal(target, max, vals, mints)
    ensures var held := HeldOf(mints, |vals|);
            && Ends(target, max, fMinimize, vals, mints, held) && Ends(target, max, true, vals, mints, held)
            && Select(target, value, max, fMinimize, vals, mints, held).nCoinsReturned == 0
            && Select(target, value, max, fMinimize, vals, mints, held)
               == Select(target, value, max, true, vals, mints, held)
  {
    hide Chain, Total, Count, PickAll, Payable, Calculate, Spend;
  }

  /** One coin in all is worth its denomination. */
  lemma {:induction false} OneCoin(vals: seq<nat>, c: Counts) returns (e: nat)
    requires |c| <= |vals| && Count(c) == 1
    ensures e < |c| && c[e] > 0 && Total(vals, c) == vals[e]
  {
    hide Total, Count;
    var n := |c| - 1;
    if c == [] {
      TotalNone(vals);
    } else {
      TotalLast(vals, c);
      if c[n] > 0 {
        e := n;
        assert Count(c[..n]) == 0 && c[n] == 1;
        NothingTotal(vals, c[..n]);
      } else {
        e := OneCoin(vals, c[..n]);
      }
    }
  }

  /** Below a coin that is worth more than the target, what covers is less than two of it. */
  lemma CoveredUnderTwo(vals: seq<nat>, held: Counts, target: int)
    requires Sized(vals, held) && target > 0 && FirstOver(vals, held, target, 0) >= 0
    ensures var d := FirstOver(vals, held, target, 0);
            Total(vals, Covered(vals, held, TopHeld(held, d), target)) < vals[d] + vals[d]
  {
    hide Total, Count, Chain, Below, FirstOver, TopHeld, Cover;
    ChainPositive(vals);
    var d := FirstOver(vals, held, target, 0);
    var top := TopHeld(held, d);
    NoneAbove(vals, held, top, target);
    var b := Below(vals, held, top, target);
    var c := Cover(vals, held, b, target - Total(vals, b), 0);
    assert c <= d;
    if c >= 0 { CoveredTotal(vals, held, top, target, c); }
  }

  lemma CoveredTotal(vals: seq<nat>, held: Counts, top: int, target: int, c: nat)
    requires Sized(vals, held) && -1 <= top < |vals| && c < |vals|
    requires var b := Below(vals, held, top, target); Cover(vals, held, b, target - Total(vals, b), 0) == c
    ensures Total(vals, Covered(vals, held, top, target)) == Total(vals, Below(vals, held, top, target)) + vals[c]
  {
    hide Total, Count, Chain, Below, Cover;
    var b := Below(vals, held, top, target);
    TotalUpdate(vals, b, c, b[c] + 1);
    assert (b[c] + 1 - b[c]) * vals[c] == vals[c];
  }

  lemma NextDouble(vals: seq<nat>, d: nat, e: nat)
    requires Chain(vals) && d < e < |vals|
    ensures vals[e] >= vals[d] + vals[d]
  {
    ChainDivides(vals, d + 1);
    ModGap(vals[d + 1], vals[d], vals[d]);
  }

  /** So a single coin that leaves some change leaves as much as the smallest that is worth more. */
  lemma SingleSame(max: int, target: int, vals: seq<nat>, held: Counts)
    requires Sized(vals, held) && target > 0 && FirstOver(vals, held, target, 0) >= 0
    ensures var (more, u) := Calculate(max, true, target, vals, held);
            more > 0 && Count(u) == 1 ==> more == Calculate(max, false, target, vals, held).0
  {
    hide Total, Count, Chain, Change, FirstOver, TopHeld, Covered, Spend, One, Over;
    ChainPositive(vals);
    var d := FirstOver(vals, held, target, 0);
    var top := TopHeld(held, d);
    var w := Trimmed(vals, held, top, target);
    var final := Spend(vals, held, |vals|, Total(vals, w));
    TrimmedFits(vals, held, top, target);
    SpendBest(vals, held, w, Total(vals, w));
    SpendFits(vals, held, |vals|, Total(vals, w));
    CoveredUnderTwo(vals, held, target);
    TotalFits(vals, w, Covered(vals, held, top, target));
    if Count(final) == 1 {
      var e := OneCoin(vals, final);
      assert held[e] > 0;
      if e > d { NextDouble(vals, d, e); }
      if vals[e] <= target { ChangeNone(vals, |vals|, vals[e] - target); }
    }
  }

  /** With the flag there is no more change than without it, and the fewer mints are those without
      it; if they are as many, the change is the same. */
  lemma CalculateFlag(max: int, target: int, vals: seq<nat>, held: Counts)
    requires Sized(vals, held) && target > 0
    ensures var (more, u) := Calculate(max, true, target, vals, held);
            var (count, v) := Calculate(max, false, target, vals, held);
            && more <= count && (Count(u) > 0 ==> Count(v) <= Count(u))
            && (more > 0 && Count(u) == Count(v) ==> more == count)
  {
    hide Chain, Total, Change, Count, Over, One, TopHeld, ChangeCount, Minimize, Spend, FirstOver;
    var d := FirstOver(vals, held, target, 0);
    if d >= 0 {
      OneTotal(vals, d);
      SingleSame(max, target, vals, held);
    } else {
      MinimizeLess(max, ChangeCount(vals, Over(vals, held, |vals|, target), target), TopHeld(held, |held|), target,
                   vals, held, Over(vals, held, |vals|, target));
    }
  }

  lemma MinimizeLess(max: int, count: nat, top: int, target: int, vals: seq<nat>, held: Counts, saved: Counts)
    requires Sized(vals, held) && -1 <= top < |vals|
    ensures Minimize(max, count, top, target, vals, held, saved).0 <= count
  {
    hide Trimmed, Spend, ChangeCount, Count, Total, Chain;
  }

  /** Of two selections with change, that with the flag returns no more coins, and that without it
      spends no more mints; if they spend as many, they return as many. When there is no change the
      flag makes no difference. */
  lemma SelectFlag(target: int, value: int, max: int, vals: seq<nat>, mints: seq<Mint>)
    requires |vals| > 0 && Chain(vals) && target > 0
    ensures var held := HeldOf(mints, |vals|);
            && Ends(target, max, true, vals, mints, held) && Ends(target, max, false, vals, mints, held)
            && var s := Select(target, value, max, true, vals, mints, held);
            var t := Select(target, value, max, false, vals, mints, held);
            && (s.nCoinsReturned > 0 && t.nCoinsReturned > 0 ==>
                  && s.nCoinsReturned <= t.nCoinsReturned && |t.mints| <= |s.mints|
                  && (|t.mints| == |s.mints| ==> s.nCoinsReturned == t.nCoinsReturned))
            && (s.mints != [] && s.nCoinsReturned == 0 ==> s == t)
            && (t.mints != [] && t.nCoinsReturned == 0 ==> s == t)
  {
    var held := HeldOf(mints, |vals|);
    hide Chain, Total, Count, PickAll, Payable, Calculate, Ideal, HeldOf, Select, Ends;
    if Ideal(target, max, vals, mints) {
      IdealSame(target, value, max, false, vals, mints);
    } else {
      SelectCalculated(target, value, max, true, vals, mints);
      SelectCalculated(target, value, max, false, vals, mints);
      CalculateFlag(max, target, vals, held);
      var s := Select(target, value, max, true, vals, mints, held);
      if s.nCoinsReturned > 0 { assert |s.mints| > 0; }
    }
  }

  // -------------------------------------------------- coins that would come back

  /** Part of some change is the change for what it is worth. */
  lemma {:induction false} ChangePart(vals: seq<nat>, n: nat, r: int, c: Counts)
    requires Chain(vals) && |c| == n <= |vals| && Fits(c, Change(vals, n, r))
    ensures Change(vals, n, Total(vals, c)) == c
  {
    hide TakeFree, Total, Count, Chain;
    ChainPositive(vals);
    if n > 0 {
      var v, low, m := vals[n - 1], c[..n - 1], c[n - 1];
      var k := TakeFree(v, r);
      var rest := r - k * v;
      Add(k, 1, v);
      TotalLast(vals, c);
      ChangePart(vals, n - 1, rest, low);
      TotalFits(vals, low, Change(vals, n - 1, rest));
      ChangeTotal(vals, n - 1, rest);
      TakeFreeIs(v, Total(vals, low), m);
    }
  }

  lemma TakeFreeIs(v: nat, low: nat, k: nat)
    requires v > 0 && low < v
    ensures TakeFree(v, low + k * v) == k
  {
    DivUnique(low + k * v, v, k, low);
  }

  lemma {:induction false} LessBoth(vals: seq<nat>, c: Counts, d: Counts)
    requires |d| == |c| <= |vals|
    ensures Total(vals, Less(c, d)) - Total(vals, Less(d, c)) == Total(vals, c) - Total(vals, d)
  {
    hide Total, Count;
    if c == [] {
      TotalNone(vals);
    } else {
      var n := |c| - 1;
      TotalLast(vals, c);
      TotalLast(vals, d);
      TotalLast(vals, Less(c, d));
      TotalLast(vals, Less(d, c));
      assert Less(c, d)[..n] == Less(c[..n], d[..n]) && Less(d, c)[..n] == Less(d[..n], c[..n]);
      LessBoth(vals, c[..n], d[..n]);
      Distribute(c[n], d[n], vals[n]);
      Distribute(d[n], c[n], vals[n]);
    }
  }

  /** Removing the overlap of spends and change leaves nothing that is both spent and returned, and
      the change for it is what was not removed. */
  lemma TrimmedApart(vals: seq<nat>, held: Counts, top: int, target: int)
    requires Sized(vals, held) && -1 <= top < |vals| && target > 0 && target % vals[0] == 0
    requires Total(vals, Covered(vals, held, top, target)) >= target
    ensures var used := Covered(vals, held, top, target);
            var left := Trimmed(vals, held, top, target);
            var change := Change(vals, |vals|, Total(vals, left) - target);
            && Total(vals, left) >= target
            && change == Less(Change(vals, |vals|, Total(vals, used) - target), used)
            && forall i :: 0 <= i < |vals| ==> left[i] == 0 || change[i] == 0
  {
    hide Total, Count, Chain, Covered, Change;
    ChainPositive(vals);
    var used := Covered(vals, held, top, target);
    var r := Total(vals, used) - target;
    var change := Change(vals, |vals|, r);
    TotalMod(vals, used);
    ModSub(Total(vals, used), target, vals[0]);
    ChangeBest(vals, r, change);
    LessBoth(vals, used, change);
    ChangePart(vals, |vals|, r, Less(change, used));
  }

  lemma ModSub(a: nat, b: nat, w: nat)
    requires w > 0 && a % w == 0 && b % w == 0 && a >= b
    ensures (a - b) % w == 0
  {
    ExactQuotient(a, w);
    ExactQuotient(b, w);
    Distribute(a / w, b / w, w);
    if a / w < b / w { Scale(a / w + 1, b / w, w); Add(a / w, 1, w); }
    MulModSelf(a / w - b / w, w);
  }
}

/** How many mints src/denomination_functions.cpp selects, against the maximum number of spends
    it is given: the limit is kept exactly when some choice of the held coins keeps it. */
module CoinLimit {
  import opened Arith
  import opened Denominations
  import opened CoinSelection

  /** Some choice of at most `max` coins is worth the target. */
  ghost predicate Affordable(vals: seq<nat>, held: Counts, target: int, max: int)
    requires |held| == |vals|
  {
    exists c: Counts :: IsOffer(vals, held, target, max, c)
  }

  predicate IsOffer(vals: seq<nat>, held: Counts, target: int, max: int, c: Counts)
    requires |held| == |vals|
  {
    |c| == |vals| && Fits(c, held) && Total(vals, c) >= target && Count(c) <= max
  }

  /** Any `m` coins of at most `v` each can be given up for m * v at most. */
  lemma {:induction false} GiveUp(vals: seq<nat>, c: Counts, m: nat, v: nat) returns (rest: Counts)
    requires |c| <= |vals| && m <= Count(c) && forall i :: 0 <= i < |c| ==> vals[i] <= v
    ensures |rest| == |c| && Fits(rest, c)
    ensures Count(rest) == Count(c) - m && Total(vals, rest) >= Total(vals, c) - m * v
  {
    hide Total, Count;
    if c == [] {
      TotalNone(vals);
      rest := [];
    } else {
      var n := |c| - 1;
      TotalLast(vals, c);
      var k := Min(m, c[n]);
      var low := GiveUp(vals, c[..n], m - k, v);
      rest := low + [c[n] - k];
      TotalAppend(vals, low, c[n] - k);
      Distribute(c[n], k, vals[n]);
      ScaleRight(k, vals[n], v);
      Add(m - k, k, v);
    }
  }

  lemma NothingOver(vals: seq<nat>, held: Counts, n: nat, r: int)
    requires n <= |held| && n <= |vals| && Chain(vals) && r <= 0
    ensures Count(Over(vals, held, n, r)) == 0
  {
    if n > 0 {
      ChainPositive(vals);
      hide Chain, Count;
      TotalAppend(vals, Over(vals, held, n - 1, r), 0);
      NothingOver(vals, held, n - 1, r);
    } else {
      TotalNone(vals);
    }
  }

  /** No choice that reaches the amount has fewer coins than the one that calculateChange takes
      when no single coin will do. */
  lemma {:induction false} OverFewest(vals: seq<nat>, held: Counts, c: Counts, r: int)
    requires Chain(vals) && |c| <= |vals| && Fits(c, held) && Total(vals, c) >= r
    ensures Count(Over(vals, held, |c|, r)) <= Count(c)
    decreases |c|
  {
    hide TakeOver, Total, Count, Chain;
    ChainPositive(vals);
    var n := |c| - 1;
    if n < 0 {
      TotalNone(vals);
    } else {
      var v, low, top := vals[n], c[..n], c[n];
      var k := TakeOver(v, held[n], r);
      TotalLast(vals, c);
      TotalAppend(vals, Over(vals, held, n, r - k * v), k);
      if top > k {
        NothingOver(vals, held, n, r - k * v);
      } else {
        var m := k - top;
        Distribute(k, top, v);
        if m > 0 { Distribute(k - 1, top, v); }
        EnoughLeft(vals, low, m, v, r - top * v);
        var rest := GiveUp(vals, low, m, v);
        OverFewest(vals, held, rest, r - k * v);
      }
    }
  }

  lemma EnoughLeft(vals: seq<nat>, low: Counts, m: nat, v: nat, r: int)
    requires |low| <= |vals| && v > 0 && forall i :: 0 <= i < |low| ==> vals[i] <= v
    requires Total(vals, low) >= r && (m > 0 ==> (m - 1) * v < r)
    ensures m <= Count(low)
  {
    hide Total, Count;
    TotalAtMost(vals, low, v);
    if m > Count(low) { Scale(Count(low), m - 1, v); }
  }

  lemma CountPositive(vals: seq<nat>, c: Counts)
    requires |c| <= |vals| && Total(vals, c) > 0
    ensures Count(c) > 0
  {
    if c != [] && c[|c| - 1] == 0 { CountPositive(vals, c[..|c| - 1]); }
  }

  /** The choice with change keeps the limit whenever some choice does. */
  lemma CalculateLimit(max: int, fMinimize: bool, target: int, vals: seq<nat>, held: Counts)
    requires Sized(vals, held) && target > 0 && Affordable(vals, held, target, max)
    ensures Count(Calculate(max, fMinimize, target, vals, held).1) <= max
  {
    var c: Counts :| IsOffer(vals, held, target, max, c);
    CountPositive(vals, c);
    OverFewest(vals, held, c, target);
    hide Calculate, Total, Count, Chain, Over;
    CalculateAtMost(max, fMinimize, target, vals, held);
  }

  lemma CalculateAtMost(max: int, fMinimize: bool, target: int, vals: seq<nat>, held: Counts)
    requires Sized(vals, held) && 1 <= max && Count(Over(vals, held, |vals|, target)) <= max
    ensures Count(Calculate(max, fMinimize, target, vals, held).1) <= max
  {
    hide Minimize, Over, Total, Chain, Change, Count, TopHeld, FirstOver, ChangeCount, One;
    assert forall i :: 0 <= i < |vals| ==> vals[i] > 0 by { ChainPositive(vals); }
    var d := FirstOver(vals, held, target, 0);
    if d >= 0 {
      OneTotal(vals, d);
      MinimizeLimit(max, Count(Change(vals, |vals|, vals[d] - target)), TopHeld(held, d), target, vals, held,
                    One(|vals|, d));
    } else {
      var over := Over(vals, held, |vals|, target);
      MinimizeLimit(max, ChangeCount(vals, over, target), TopHeld(held, |held|), target, vals, held, over);
    }
  }

  lemma MinimizeLimit(max: int, count: nat, top: int, target: int, vals: seq<nat>, held: Counts, saved: Counts)
    requires Sized(vals, held) && -1 <= top < |vals| && Count(saved) <= max
    ensures Count(Minimize(max, count, top, target, vals, held, saved).1) <= max
  {
    hide Total, Count, Chain, Trimmed, Spend, Change;
  }

  /** What is selected has at most `max` mints if and only if some choice of at most `max` of
      the unused mints is worth the target. */
  lemma SelectLimit(target: int, value: int, max: int, fMinimize: bool, vals: seq<nat>, mints: seq<Mint>)
    requires |vals| > 0 && Chain(vals) && target > 0
    ensures var held := HeldOf(mints, |vals|);
            Ends(target, max, fMinimize, vals, mints, held) &&
            var s := Select(target, value, max, fMinimize, vals, mints, held);
            s.mints != [] ==> (|s.mints| <= max <==> Affordable(vals, held, target, max))
  {
    SelectSound(target, value, max, fMinimize, vals, mints);
    var held := HeldOf(mints, |vals|);
    var s := Select(target, value, max, fMinimize, vals, mints, held);
    var c := Chosen(target, value, max, fMinimize, vals, mints);
    if s.mints != [] {
      if |s.mints| <= max { assert IsOffer(vals, held, target, max, c); }
    }
  }

  /** The counts of what is selected. */
  lemma Chosen(target: int, value: int, max: int, fMinimize: bool, vals: seq<nat>, mints: seq<Mint>) returns (c: Counts)
    requires |vals| > 0 && Chain(vals) && target > 0
    ensures var held := HeldOf(mints, |vals|);
            && Ends(target, max, fMinimize, vals, mints, held) && |c| == |vals| && Fits(c, held)
            && var s := Select(target, value, max, fMinimize, vals, mints, held);
            s.mints != [] ==>
              && Count(c) == |s.mints| && Total(vals, c) >= target
              && (Affordable(vals, held, target, max) ==> Count(c) <= max)
  {
    hide Calculate, Total, Change, Count, PickAll, Payable, Affordable, Chain;
    ChainPositive(vals);
    var held := HeldOf(mints, |vals|);
    SelectSound(target, value, max, fMinimize, vals, mints);
    var ideal := Spend(vals, held, |vals|, target);
    SpendFits(vals, held, |vals|, target);
    PickAllWithin(mints, ideal);
    PickAllWorth(vals, mints, ideal);
    var (count, used) := Calculate(max, fMinimize, target, vals, held);
    CalculateSound(max, fMinimize, target, vals, held);
    PickAllWithin(mints, used);
    PickAllWorth(vals, mints, used);
    if Affordable(vals, held, target, max) {
      CalculateLimit(max, fMinimize, target, vals, held);
    }
    if Total(vals, ideal) == target && (max < 0 || Count(ideal) <= max) {
      c := ideal;
      if max < 0 { NoOffer(vals, held, target, max); }
    } else {
      c := used;
    }
  }

  lemma NoOffer(vals: seq<nat>, held: Counts, target: int, max: int)
    requires |held| == |vals| && max < 0
    ensures !Affordable(vals, held, target, max)
  {
  }
}

/** Four selections with change, worked out: what fMinimizeChange saves, and what removing coins that
    would come back as change saves. */
module CoinExamples {
  import opened Arith
  import opened Denominations
  import opened CoinSelection
  import opened CoinMinimize

  // ---------------------------------------------------------- working out a choice

  /** `k` of at most `have` coins of value `v` are taken from `r`, and `rest` remains. */
  predicate Taken(v: nat, have: nat, r: int, k: nat, rest: int) {
    rest == r - k * v && k <= have && (k > 0 ==> k * v <= r) && (k == have || r < k * v + v)
  }

  lemma TakenIs(v: nat, have: nat, r: int, k: nat, rest: int)
    requires Taken(v, have, r, k, rest) && v > 0
    ensures Take(v, have, r) == k
  {
    var t := Take(v, have, r);
    if t < k { Scale(t + 1, k, v); } else if k < t { Scale(k + 1, t, v); Add(k, 1, v); }
  }

  /** `rs[i]` is what remains when the choice `c` has come down to denomination `i`. */
  lemma {:induction false} SpendIs(vals: seq<nat>, held: Counts, c: Counts, rs: seq<int>)
    requires Chain(vals) && |c| <= |held| && |c| <= |vals| && |rs| == |c| + 1
    requires forall i :: 0 <= i < |c| ==> Taken(vals[i], held[i], rs[i + 1], c[i], rs[i])
    ensures Spend(vals, held, |c|, rs[|c|]) == c && Total(vals, c) == rs[|c|] - rs[0]
  {
    hide Take, Chain;
    ChainPositive(vals);
    var n := |c| - 1;
    if n >= 0 {
      assert Taken(vals[n], held[n], rs[n + 1], c[n], rs[n]);
      TakenIs(vals[n], held[n], rs[n + 1], c[n], rs[n]);
      SpendIs(vals, held, c[..n], rs[..n + 1]);
    }
  }

  function Many(r: nat): Counts {
    [r, r, r, r, r, r, r, r]
  }

  /** The same for change, for which there are coins enough. */
  lemma ChangeIs(r: nat, c: Counts, rs: seq<int>)
    requires Chain(AMOUNTS) && |c| == 8 && |rs| == 9 && rs[8] == r && rs[0] == 0
    requires forall i :: 0 <= i < 8 ==> Taken(AMOUNTS[i], r, rs[i + 1], c[i], rs[i])
    ensures Change(AMOUNTS, 8, r) == c && Total(AMOUNTS, c) == r
  {
    hide Chain, Taken;
    ChainPositive(AMOUNTS);
    ChangeIsSpend(AMOUNTS, Many(r), 8, r, r);
    SpendIs(AMOUNTS, Many(r), c, rs);
  }

  /** The choice when coin `d` alone is worth more than the target: `used` is the choice that the
      change is then taken off, `final` what is left of it. */
  lemma CalculateIs(max: int, target: int, held: Counts, d: nat, top: nat, used: Counts, change: Counts, final: Counts,
                    count: nat, alt: nat)
    requires Sized(AMOUNTS, held) && d < 8 && top < 8
    requires FirstOver(AMOUNTS, held, target, 0) == d && TopHeld(held, d) == top
    requires Covered(AMOUNTS, held, top, target) == used && Change(AMOUNTS, 8, Total(AMOUNTS, used) - target) == change
    requires |used| == |change| == 8 && Spend(AMOUNTS, held, 8, Total(AMOUNTS, Less(used, change))) == final
    requires Count(Change(AMOUNTS, 8, AMOUNTS[d] - target)) == count
    requires Count(Change(AMOUNTS, 8, Total(AMOUNTS, Less(used, change)) - target)) == alt
    ensures Calculate(max, false, target, AMOUNTS, held) == (count, One(8, d))
    ensures Calculate(max, true, target, AMOUNTS, held)
         == if alt < count && Count(final) <= max then (alt, final) else (count, One(8, d))
  {
    hide Covered, Change, Spend, Total, Count, FirstOver, TopHeld, Chain, Over, One;
  }

  /** The choice when no coin is worth more than the target. */
  lemma OverIs(max: int, target: int, held: Counts, top: nat, over: Counts, used: Counts, change: Counts, final: Counts,
               count: nat, alt: nat)
    requires Sized(AMOUNTS, held) && top < 8
    requires FirstOver(AMOUNTS, held, target, 0) < 0 && TopHeld(held, 8) == top
    requires Over(AMOUNTS, held, 8, target) == over
    requires Covered(AMOUNTS, held, top, target) == used && Change(AMOUNTS, 8, Total(AMOUNTS, used) - target) == change
    requires |used| == |change| == 8 && Spend(AMOUNTS, held, 8, Total(AMOUNTS, Less(used, change))) == final
    requires Count(Change(AMOUNTS, 8, Total(AMOUNTS, over) - target)) == count
    requires Count(Change(AMOUNTS, 8, Total(AMOUNTS, Less(used, change)) - target)) == alt
    ensures var best := if alt < count && Count(final) <= max then (alt, final) else (count, over);
            && Calculate(max, true, target, AMOUNTS, held) == best
            && Calculate(max, false, target, AMOUNTS, held)
               == if Count(over) < Count(best.1) then (count, over) else best
  {
    hide Covered, Change, Spend, Total, Count, FirstOver, TopHeld, Chain, Over, One;
  }

  /** `k` of at most `have` coins of value `v` are taken until `r` is reached. */
  predicate TakenOver(v: nat, have: nat, r: int, k: nat, rest: int) {
    rest == r - k * v && k <= have && (k > 0 ==> (k - 1) * v < r) && (k < have ==> r <= k * v)
  }

  lemma TakenOverIs(v: nat, have: nat, r: int, k: nat, rest: int)
    requires TakenOver(v, have, r, k, rest) && v > 0
    ensures TakeOver(v, have, r) == k
  {
    var t := TakeOver(v, have, r);
    if t < k { Scale(t, k - 1, v); } else if k < t { Scale(k, t - 1, v); }
  }

  lemma {:induction false} OverTaken(vals: seq<nat>, held: Counts, c: Counts, rs: seq<int>)
    requires Chain(vals) && |c| <= |held| && |c| <= |vals| && |rs| == |c| + 1
    requires forall i :: 0 <= i < |c| ==> TakenOver(vals[i], held[i], rs[i + 1], c[i], rs[i])
    ensures Over(vals, held, |c|, rs[|c|]) == c && Total(vals, c) == rs[|c|] - rs[0]
  {
    hide TakeOver, Chain;
    ChainPositive(vals);
    var n := |c| - 1;
    if n >= 0 {
      assert TakenOver(vals[n], held[n], rs[n + 1], c[n], rs[n]);
      TakenOverIs(vals[n], held[n], rs[n + 1], c[n], rs[n]);
      OverTaken(vals, held, c[..n], rs[..n + 1]);
    }
  }

  lemma NoneIs(held: Counts, target: int)
    requires |held| == 8 && forall k :: 0 <= k < 8 && held[k] > 0 ==> AMOUNTS[k] <= target
    ensures FirstOver(AMOUNTS, held, target, 0) == -1
  {
    hide FirstOver;
  }

  lemma FirstIs(held: Counts, target: int, d: nat)
    requires |held| == 8 && d < 8 && held[d] > 0 && target < AMOUNTS[d]
    requires forall k :: 0 <= k < d && held[k] > 0 ==> AMOUNTS[k] <= target
    ensures FirstOver(AMOUNTS, held, target, 0) == d
  {
    hide FirstOver;
  }

  lemma TopIs(held: Counts, n: nat, d: nat)
    requires d < n <= |held| && held[d] > 0 && forall k :: d < k < n ==> held[k] == 0
    ensures TopHeld(held, n) == d
  {
    hide TopHeld;
  }

  lemma CoverIs(held: Counts, used: Counts, r: nat, d: nat)
    requires |held| == |used| == 8 && d < 8 && used[d] < held[d] && r < AMOUNTS[d]
    requires forall k :: 0 <= k < d && used[k] < held[k] ==> AMOUNTS[k] <= r
    ensures Cover(AMOUNTS, held, used, r, 0) == d
  {
    hide Cover;
  }

  lemma BelowIs(held: Counts, top: nat, target: int, c: Counts, rs: seq<int>)
    requires Sized(AMOUNTS, held) && top < 8 && |c| == top + 1 && |rs| == top + 2 && rs[top + 1] == target - 1
    requires forall i :: 0 <= i <= top ==> Taken(AMOUNTS[i], held[i], rs[i + 1], c[i], rs[i])
    ensures Below(AMOUNTS, held, top, target) == c + Zeros(8 - top - 1)
    ensures Total(AMOUNTS, Below(AMOUNTS, held, top, target)) == target - 1 - rs[0]
  {
    hide Chain, Total, Spend, Taken;
    SpendIs(AMOUNTS, held, c, rs);
    ZeroTail(AMOUNTS, c, 8 - top - 1);
  }

  lemma Counted(a: nat, b: nat, c: nat, d: nat, e: nat, f: nat)
    ensures Count([a, b, c, d, e, f, 0, 0]) == a + b + c + d + e + f
  {
    var s := [a, b, c, d, e, f, 0, 0];
    assert s[..7] == [a, b, c, d, e, f, 0] && s[..7][..6] == s[..6] == [a, b, c, d, e, f];
    assert s[..6][..5] == s[..5] == [a, b, c, d, e] && s[..5][..4] == s[..4] == [a, b, c, d];
    assert s[..4][..3] == s[..3] == [a, b, c] && s[..3][..2] == s[..2] == [a, b] && s[..2][..1] == s[..1] == [a];
    assert s[..1][..0] == [] && Count(s[..1]) == a && Count(s[..2]) == a + b && Count(s[..3]) == a + b + c;
    assert Count(s[..4]) == a + b + c + d && Count(s[..5]) == a + b + c + d + e;
    assert Count(s[..6]) == a + b + c + d + e + f == Count(s[..7]);
  }

  // ------------------------------------------------- 12 out of a 5, a 10 and a 100

  const FEW: Counts := [0, 1, 1, 0, 1, 0, 0, 0]

  lemma FewFirst()
    requires Chain(AMOUNTS)
    ensures FirstOver(AMOUNTS, FEW, 12 * COIN, 0) == 4 && TopHeld(FEW, 4) == 2
  {
    hide Chain;
    FirstIs(FEW, 12 * COIN, 4);
    TopIs(FEW, 4, 2);
  }

  lemma FewOne()
    requires Chain(AMOUNTS)
    ensures Count(Change(AMOUNTS, 8, AMOUNTS[4] - 12 * COIN)) == 8
  {
    hide Chain, Change, Total, Count;
    var r := 88 * COIN;
    ChangeIs(r, [3, 1, 3, 1, 0, 0, 0, 0], [0, 3 * COIN, 8 * COIN, 38 * COIN, r, r, r, r, r]);
    Counted(3, 1, 3, 1, 0, 0);
  }

  lemma FewCovered()
    requires Chain(AMOUNTS)
    ensures Covered(AMOUNTS, FEW, 2, 12 * COIN) == [0, 1, 1, 0, 0, 0, 0, 0]
  {
    var left := 2 * COIN - 1;
    BelowIs(FEW, 2, 12 * COIN, [0, 0, 1], [left, left, left, 12 * COIN - 1]);
    CoverIs(FEW, [0, 0, 1, 0, 0, 0, 0, 0], 2 * COIN, 1);
    hide Chain, Below, Total, Cover;
    assert [0, 0, 1] + Zeros(5) == [0, 0, 1, 0, 0, 0, 0, 0];
  }

  lemma FewSpent(used: Counts)
    requires Chain(AMOUNTS) && used == [0, 1, 1, 0, 0, 0, 0, 0]
    ensures Total(AMOUNTS, used) == 15 * COIN && Spend(AMOUNTS, FEW, 8, 15 * COIN) == used && Count(used) == 2
  {
    hide Chain, Total, Spend, Count;
    var r := 15 * COIN;
    SpendIs(AMOUNTS, FEW, used, [0, 0, 5 * COIN, r, r, r, r, r, r]);
    Counted(0, 1, 1, 0, 0, 0);
  }

  lemma FewChange(change: Counts)
    requires Chain(AMOUNTS) && change == [3, 0, 0, 0, 0, 0, 0, 0]
    ensures Change(AMOUNTS, 8, 3 * COIN) == change && Count(change) == 3
  {
    hide Chain, Total, Change, Count;
    var q := 3 * COIN;
    ChangeIs(q, change, [0, q, q, q, q, q, q, q, q]);
    Counted(3, 0, 0, 0, 0, 0);
  }

  /** Nothing of 10 and 5 is among the change for them. */
  lemma FewLeft() returns (used: Counts, change: Counts)
    requires Chain(AMOUNTS)
    ensures used == [0, 1, 1, 0, 0, 0, 0, 0] && |change| == 8
    ensures && Covered(AMOUNTS, FEW, 2, 12 * COIN) == used
            && Change(AMOUNTS, 8, Total(AMOUNTS, used) - 12 * COIN) == change
            && Spend(AMOUNTS, FEW, 8, Total(AMOUNTS, Less(used, change))) == used && Count(used) == 2
            && Count(Change(AMOUNTS, 8, Total(AMOUNTS, Less(used, change)) - 12 * COIN)) == 3
  {
    FewCovered();
    used, change := [0, 1, 1, 0, 0, 0, 0, 0], [3, 0, 0, 0, 0, 0, 0, 0];
    assert Less(used, change) == used;
    FewSpent(used);
    FewChange(change);
    hide Chain, Total, Spend, Change, Count, Covered, Less;
  }

  lemma FewCalculated(max: int)
    requires Chain(AMOUNTS)
    ensures Calculate(max, false, 12 * COIN, AMOUNTS, FEW) == (8, One(8, 4))
    ensures Calculate(max, true, 12 * COIN, AMOUNTS, FEW)
         == if max >= 2 then (3, [0, 1, 1, 0, 0, 0, 0, 0]) else (8, One(8, 4))
  {
    FewOne();
    FewFirst();
    hide Chain, Change, Count, Total, Spend, Covered, Calculate, FirstOver, TopHeld, Less, One;
    var used, change := FewLeft();
    CalculateIs(max, 12 * COIN, FEW, 4, 2, used, change, used, 8, 3);
  }

  // ------------------------------------- 26 out of one 5, four of 10 and one of 500

  const SOME: Counts := [0, 1, 4, 0, 0, 1, 0, 0]

  lemma SomeFirst()
    requires Chain(AMOUNTS)
    ensures FirstOver(AMOUNTS, SOME, 26 * COIN, 0) == 5 && TopHeld(SOME, 5) == 2
  {
    hide Chain;
    FirstIs(SOME, 26 * COIN, 5);
    TopIs(SOME, 5, 2);
  }

  lemma SomeOne()
    requires Chain(AMOUNTS)
    ensures Count(Change(AMOUNTS, 8, AMOUNTS[5] - 26 * COIN)) == 11
  {
    hide Chain, Change, Total, Count;
    var r, q := 474 * COIN, 74 * COIN;
    ChangeIs(r, [4, 0, 2, 1, 4, 0, 0, 0], [0, 4 * COIN, 4 * COIN, 24 * COIN, q, r, r, r, r]);
    Counted(4, 0, 2, 1, 4, 0);
  }

  /** Two of 10 and the 5 are below the target, and another 10 covers it. */
  lemma SomeCovered()
    requires Chain(AMOUNTS)
    ensures Covered(AMOUNTS, SOME, 2, 26 * COIN) == [0, 1, 3, 0, 0, 0, 0, 0]
  {
    var left := COIN - 1;
    BelowIs(SOME, 2, 26 * COIN, [0, 1, 2], [left, left, 6 * COIN - 1, 26 * COIN - 1]);
    assert [0, 1, 2] + Zeros(5) == [0, 1, 2, 0, 0, 0, 0, 0];
    CoverIs(SOME, [0, 1, 2, 0, 0, 0, 0, 0], COIN, 2);
    hide Chain, Below, Total, Cover;
  }

  /** The 5 would come back as change, so it is not spent. */
  lemma SomeLeft()
    requires Chain(AMOUNTS)
    ensures var used, change, left := [0, 1, 3, 0, 0, 0, 0, 0], [4, 1, 0, 0, 0, 0, 0, 0], [0, 0, 3, 0, 0, 0, 0, 0];
            && Change(AMOUNTS, 8, Total(AMOUNTS, used) - 26 * COIN) == change
            && Spend(AMOUNTS, SOME, 8, Total(AMOUNTS, Less(used, change))) == left && Count(left) == 3
            && Count(Change(AMOUNTS, 8, Total(AMOUNTS, Less(used, change)) - 26 * COIN)) == 4
  {
    hide Chain, Total, Spend, Change, Count;
    var q, p, o := 9 * COIN, 30 * COIN, 4 * COIN;
    SomeUsed();
    ChangeIs(q, [4, 1, 0, 0, 0, 0, 0, 0], [0, o, q, q, q, q, q, q, q]);
    SpendIs(AMOUNTS, SOME, [0, 0, 3, 0, 0, 0, 0, 0], [0, 0, 0, p, p, p, p, p, p]);
    ChangeIs(o, [4, 0, 0, 0, 0, 0, 0, 0], [0, o, o, o, o, o, o, o, o]);
    Counted(4, 0, 0, 0, 0, 0);
    Counted(0, 0, 3, 0, 0, 0);
    assert Less([0, 1, 3, 0, 0, 0, 0, 0], [4, 1, 0, 0, 0, 0, 0, 0]) == [0, 0, 3, 0, 0, 0, 0, 0];
  }

  lemma SomeUsed()
    requires Chain(AMOUNTS)
    ensures Total(AMOUNTS, [0, 1, 3, 0, 0, 0, 0, 0]) == 35 * COIN
  {
    hide Chain, Total;
    var r := 35 * COIN;
    SpendIs(AMOUNTS, Many(3), [0, 1, 3, 0, 0, 0, 0, 0], [0, 0, 5 * COIN, r, r, r, r, r, r]);
  }

  lemma SomeCalculated(max: int)
    requires Chain(AMOUNTS)
    ensures Calculate(max, false, 26 * COIN, AMOUNTS, SOME) == (11, One(8, 5))
    ensures Calculate(max, true, 26 * COIN, AMOUNTS, SOME)
         == if max >= 3 then (4, [0, 0, 3, 0, 0, 0, 0, 0]) else (11, One(8, 5))
  {
    SomeOne();
    SomeCovered();
    SomeLeft();
    SomeFirst();
    hide Chain, Change, Count, Total, Spend, Covered, Calculate, FirstOver, TopHeld, Less, One;
    CalculateIs(max, 26 * COIN, SOME, 5, 2, [0, 1, 3, 0, 0, 0, 0, 0], [4, 1, 0, 0, 0, 0, 0, 0],
                [0, 0, 3, 0, 0, 0, 0, 0], 11, 4);
  }

  // ------------------------------------------------ 12 out of a 5 and two of 10

  const TENS: Counts := [0, 1, 2, 0, 0, 0, 0, 0]

  lemma TensOver()
    requires Chain(AMOUNTS)
    ensures FirstOver(AMOUNTS, TENS, 12 * COIN, 0) < 0 && TopHeld(TENS, 8) == 2
    ensures Over(AMOUNTS, TENS, 8, 12 * COIN) == [0, 0, 2, 0, 0, 0, 0, 0]
    ensures Count(Change(AMOUNTS, 8, Total(AMOUNTS, [0, 0, 2, 0, 0, 0, 0, 0]) - 12 * COIN)) == 4
    ensures Count([0, 0, 2, 0, 0, 0, 0, 0]) == 2
  {
    hide Chain, Change, Total, Count, Over;
    NoneIs(TENS, 12 * COIN);
    TopIs(TENS, 8, 2);
    var r, q, p := 12 * COIN, 8 * COIN, -8 * COIN;
    OverTaken(AMOUNTS, TENS, [0, 0, 2, 0, 0, 0, 0, 0], [p, p, p, r, r, r, r, r, r]);
    ChangeIs(q, [3, 1, 0, 0, 0, 0, 0, 0], [0, 3 * COIN, q, q, q, q, q, q, q]);
    Counted(3, 1, 0, 0, 0, 0);
    Counted(0, 0, 2, 0, 0, 0);
  }

  lemma TensCovered()
    requires Chain(AMOUNTS)
    ensures Covered(AMOUNTS, TENS, 2, 12 * COIN) == [0, 1, 1, 0, 0, 0, 0, 0]
  {
    var left := 2 * COIN - 1;
    BelowIs(TENS, 2, 12 * COIN, [0, 0, 1], [left, left, left, 12 * COIN - 1]);
    CoverIs(TENS, [0, 0, 1, 0, 0, 0, 0, 0], 2 * COIN, 1);
    hide Chain, Below, Total, Cover;
    assert [0, 0, 1] + Zeros(5) == [0, 0, 1, 0, 0, 0, 0, 0];
  }

  lemma TensSpent(used: Counts)
    requires Chain(AMOUNTS) && used == [0, 1, 1, 0, 0, 0, 0, 0]
    ensures Total(AMOUNTS, used) == 15 * COIN && Spend(AMOUNTS, TENS, 8, 15 * COIN) == used && Count(used) == 2
  {
    hide Chain, Total, Spend, Count;
    var r := 15 * COIN;
    SpendIs(AMOUNTS, TENS, used, [0, 0, 5 * COIN, r, r, r, r, r, r]);
    Counted(0, 1, 1, 0, 0, 0);
  }

  lemma TensLeft() returns (used: Counts, change: Counts)
    requires Chain(AMOUNTS)
    ensures used == [0, 1, 1, 0, 0, 0, 0, 0] && |change| == 8
    ensures && Covered(AMOUNTS, TENS, 2, 12 * COIN) == used
            && Change(AMOUNTS, 8, Total(AMOUNTS, used) - 12 * COIN) == change
            && Spend(AMOUNTS, TENS, 8, Total(AMOUNTS, Less(used, change))) == used && Count(used) == 2
            && Count(Change(AMOUNTS, 8, Total(AMOUNTS, Less(used, change)) - 12 * COIN)) == 3
  {
    TensCovered();
    used, change := [0, 1, 1, 0, 0, 0, 0, 0], [3, 0, 0, 0, 0, 0, 0, 0];
    assert Less(used, change) == used;
    TensSpent(used);
    FewChange(change);
    hide Chain, Total, Spend, Change, Count, Covered, Less;
  }

  lemma TensCalculated(max: int, fMinimize: bool)
    requires Chain(AMOUNTS)
    ensures Calculate(max, fMinimize, 12 * COIN, AMOUNTS, TENS)
         == if max >= 2 then (3, [0, 1, 1, 0, 0, 0, 0, 0]) else (4, [0, 0, 2, 0, 0, 0, 0, 0])
  {
    TensOver();
    hide Chain, Change, Count, Total, Spend, Covered, Calculate, FirstOver, TopHeld, Less, Over;
    var used, change := TensLeft();
    OverIs(max, 12 * COIN, TENS, 2, [0, 0, 2, 0, 0, 0, 0, 0], used, change, used, 4, 3);
  }

  // -------------------------------------------- 63 out of three of 5 and two of 50

  const FIFTIES: Counts := [0, 3, 0, 2, 0, 0, 0, 0]

  lemma FiftiesOver()
    requires Chain(AMOUNTS)
    ensures FirstOver(AMOUNTS, FIFTIES, 63 * COIN, 0) < 0 && TopHeld(FIFTIES, 8) == 3
    ensures Over(AMOUNTS, FIFTIES, 8, 63 * COIN) == [0, 0, 0, 2, 0, 0, 0, 0]
    ensures Count(Change(AMOUNTS, 8, Total(AMOUNTS, [0, 0, 0, 2, 0, 0, 0, 0]) - 63 * COIN)) == 6
    ensures Count([0, 0, 0, 2, 0, 0, 0, 0]) == 2
  {
    hide Chain, Change, Total, Count, Over;
    NoneIs(FIFTIES, 63 * COIN);
    TopIs(FIFTIES, 8, 3);
    var r, q, p := 63 * COIN, 37 * COIN, -37 * COIN;
    OverTaken(AMOUNTS, FIFTIES, [0, 0, 0, 2, 0, 0, 0, 0], [p, p, p, p, r, r, r, r, r]);
    ChangeIs(q, [2, 1, 3, 0, 0, 0, 0, 0], [0, 2 * COIN, 7 * COIN, q, q, q, q, q, q]);
    Counted(2, 1, 3, 0, 0, 0);
    Counted(0, 0, 0, 2, 0, 0);
  }

  lemma FiftiesCovered()
    requires Chain(AMOUNTS)
    ensures Covered(AMOUNTS, FIFTIES, 3, 63 * COIN) == [0, 3, 0, 1, 0, 0, 0, 0]
  {
    var left, r := 3 * COIN - 1, 13 * COIN - 1;
    BelowIs(FIFTIES, 3, 63 * COIN, [0, 2, 0, 1], [left, left, r, r, 63 * COIN - 1]);
    CoverIs(FIFTIES, [0, 2, 0, 1, 0, 0, 0, 0], 3 * COIN, 1);
    hide Chain, Below, Total, Cover;
    assert [0, 2, 0, 1] + Zeros(4) == [0, 2, 0, 1, 0, 0, 0, 0];
  }

  lemma FiftiesSpent(used: Counts)
    requires Chain(AMOUNTS) && used == [0, 3, 0, 1, 0, 0, 0, 0]
    ensures Total(AMOUNTS, used) == 65 * COIN && Spend(AMOUNTS, FIFTIES, 8, 65 * COIN) == used && Count(used) == 4
  {
    hide Chain, Total, Spend, Count;
    var r, q := 65 * COIN, 15 * COIN;
    SpendIs(AMOUNTS, FIFTIES, used, [0, 0, q, q, r, r, r, r, r]);
    Counted(0, 3, 0, 1, 0, 0);
  }

  lemma FiftiesLeft() returns (used: Counts, change: Counts)
    requires Chain(AMOUNTS)
    ensures used == [0, 3, 0, 1, 0, 0, 0, 0] && |change| == 8
    ensures && Covered(AMOUNTS, FIFTIES, 3, 63 * COIN) == used
            && Change(AMOUNTS, 8, Total(AMOUNTS, used) - 63 * COIN) == change
            && Spend(AMOUNTS, FIFTIES, 8, Total(AMOUNTS, Less(used, change))) == used && Count(used) == 4
            && Count(Change(AMOUNTS, 8, Total(AMOUNTS, Less(used, change)) - 63 * COIN)) == 2
  {
    FiftiesCovered();
    used, change := [0, 3, 0, 1, 0, 0, 0, 0], [2, 0, 0, 0, 0, 0, 0, 0];
    assert Less(used, change) == used;
    FiftiesSpent(used);
    FiftiesChange(change);
    hide Chain, Total, Spend, Change, Count, Covered, Less;
  }

  lemma FiftiesChange(change: Counts)
    requires Chain(AMOUNTS) && change == [2, 0, 0, 0, 0, 0, 0, 0]
    ensures Change(AMOUNTS, 8, 2 * COIN) == change && Count(change) == 2
  {
    hide Chain, Total, Change, Count;
    var q := 2 * COIN;
    ChangeIs(q, change, [0, q, q, q, q, q, q, q, q]);
    Counted(2, 0, 0, 0, 0, 0);
  }

  lemma FiftiesCalculated(max: int)
    requires Chain(AMOUNTS)
    ensures Calculate(max, false, 63 * COIN, AMOUNTS, FIFTIES) == (6, [0, 0, 0, 2, 0, 0, 0, 0])
    ensures Calculate(max, true, 63 * COIN, AMOUNTS, FIFTIES)
         == if max >= 4 then (2, [0, 3, 0, 1, 0, 0, 0, 0]) else (6, [0, 0, 0, 2, 0, 0, 0, 0])
  {
    FiftiesOver();
    hide Chain, Change, Count, Total, Spend, Covered, Calculate, FirstOver, TopHeld, Less, Over;
    var used, change := FiftiesLeft();
    OverIs(max, 63 * COIN, FIFTIES, 3, [0, 0, 0, 2, 0, 0, 0, 0], used, change, used, 6, 2);
  }

  // --------------------------------------------------------------- what is selected

  lemma PickedHeld(mints: seq<Mint>, c: Counts)
    requires Payable(mints, c)
    ensures HeldOf(PickAll(mints, c), |c|) == c
  {
    hide Payable, PickAll, Unused;
    forall d | 0 <= d < |c| ensures Unused(PickAll(mints, c), d) == c[d] {
      PickAllCount(mints, c, d);
    }
  }

  /** The selection is the choice `c` of calculateChange, when that gives change. */
  lemma SelectedIs(target: int, value: int, max: int, fMinimize: bool, mints: seq<Mint>, count: nat, c: Counts)
    requires Chain(AMOUNTS) && target > 0 && !Ideal(target, max, AMOUNTS, mints) && |c| == 8 && count > 0
    requires Calculate(max, fMinimize, target, AMOUNTS, HeldOf(mints, 8)) == (count, c)
    ensures var held := HeldOf(mints, 8);
            && Ends(target, max, fMinimize, AMOUNTS, mints, held)
            && var s := Select(target, value, max, fMinimize, AMOUNTS, mints, held);
            s.nCoinsReturned == count && HeldOf(s.mints, 8) == c
  {
    hide Calculate, Chain, HeldOf, Ideal, Payable, PickAll, Select, Ends, Total, Count;
    SelectCalculated(target, value, max, fMinimize, AMOUNTS, mints);
    PickedHeld(mints, c);
  }

  /** 12 out of a 5, a 10 and a 100: with the flag the 10 and the 5 are spent and three coins come
      back, as long as two mints may be spent; without it the 100 is spent and eight come back. */
  lemma FewSelected(value: int, max: int, mints: seq<Mint>)
    requires HeldOf(mints, 8) == FEW
    ensures Chain(AMOUNTS)
    ensures Ends(12 * COIN, max, true, AMOUNTS, mints, FEW) && Ends(12 * COIN, max, false, AMOUNTS, mints, FEW)
    ensures var s := Select(12 * COIN, value, max, true, AMOUNTS, mints, FEW);
            var t := Select(12 * COIN, value, max, false, AMOUNTS, mints, FEW);
            && t.nCoinsReturned == 8 && HeldOf(t.mints, 8) == One(8, 4)
            && (max >= 2 ==> s.nCoinsReturned == 3 && HeldOf(s.mints, 8) == [0, 1, 1, 0, 0, 0, 0, 0])
            && (max < 2 ==> s.nCoinsReturned == 8 && HeldOf(s.mints, 8) == One(8, 4))
  {
    AmountsChain();
    FewCalculated(max);
    FewNotIdeal(max, mints);
    hide Chain, HeldOf, Calculate, Ideal, Select, Ends, One;
    SelectedIs(12 * COIN, value, max, false, mints, 8, One(8, 4));
    if max >= 2 {
      SelectedIs(12 * COIN, value, max, true, mints, 3, [0, 1, 1, 0, 0, 0, 0, 0]);
    } else {
      SelectedIs(12 * COIN, value, max, true, mints, 8, One(8, 4));
    }
  }

  lemma FewNotIdeal(max: int, mints: seq<Mint>)
    requires HeldOf(mints, 8) == FEW && Chain(AMOUNTS)
    ensures !Ideal(12 * COIN, max, AMOUNTS, mints)
  {
    ChainPositive(AMOUNTS);
    hide Chain, HeldOf, Total, Spend, Count;
    var r, q := 12 * COIN, 2 * COIN;
    SpendIs(AMOUNTS, FEW, [0, 0, 1, 0, 0, 0, 0, 0], [q, q, q, r, r, r, r, r, r]);
  }

  /** 26 out of one 5, four of 10 and one of 500, where the source says that two of 10 and the 5 may
      come first, then a third 10 to cover, and that the 5 is no longer needed. Three of 10 are
      spent and four coins come back, if three mints may be spent. */
  lemma SomeSelected(value: int, max: int, mints: seq<Mint>)
    requires HeldOf(mints, 8) == SOME
    ensures Chain(AMOUNTS)
    ensures Ends(26 * COIN, max, true, AMOUNTS, mints, SOME) && Ends(26 * COIN, max, false, AMOUNTS, mints, SOME)
    ensures var s := Select(26 * COIN, value, max, true, AMOUNTS, mints, SOME);
            var t := Select(26 * COIN, value, max, false, AMOUNTS, mints, SOME);
            && t.nCoinsReturned == 11 && HeldOf(t.mints, 8) == One(8, 5)
            && (max >= 3 ==> s.nCoinsReturned == 4 && HeldOf(s.mints, 8) == [0, 0, 3, 0, 0, 0, 0, 0])
            && (max < 3 ==> s.nCoinsReturned == 11 && HeldOf(s.mints, 8) == One(8, 5))
  {
    AmountsChain();
    SomeCalculated(max);
    SomeNotIdeal(max, mints);
    hide Chain, HeldOf, Calculate, Ideal, Select, Ends, One;
    SelectedIs(26 * COIN, value, max, false, mints, 11, One(8, 5));
    if max >= 3 {
      SelectedIs(26 * COIN, value, max, true, mints, 4, [0, 0, 3, 0, 0, 0, 0, 0]);
    } else {
      SelectedIs(26 * COIN, value, max, true, mints, 11, One(8, 5));
    }
  }

  lemma SomeNotIdeal(max: int, mints: seq<Mint>)
    requires HeldOf(mints, 8) == SOME && Chain(AMOUNTS)
    ensures !Ideal(26 * COIN, max, AMOUNTS, mints)
  {
    ChainPositive(AMOUNTS);
    hide Chain, HeldOf, Total, Spend, Count;
    var r := 26 * COIN;
    SpendIs(AMOUNTS, SOME, [0, 1, 2, 0, 0, 0, 0, 0], [COIN, COIN, 6 * COIN, r, r, r, r, r, r]);
  }

  /** 12 out of a 5 and two of 10: with or without the flag the 10 and the 5 are spent and three
      coins come back, not two of 10 for four coins, if two mints may be spent. */
  lemma TensSelected(value: int, max: int, fMinimize: bool, mints: seq<Mint>)
    requires HeldOf(mints, 8) == TENS
    ensures Chain(AMOUNTS) && Ends(12 * COIN, max, fMinimize, AMOUNTS, mints, TENS)
    ensures var s := Select(12 * COIN, value, max, fMinimize, AMOUNTS, mints, TENS);
            if max >= 2 then s.nCoinsReturned == 3 && HeldOf(s.mints, 8) == [0, 1, 1, 0, 0, 0, 0, 0]
            else s.nCoinsReturned == 4 && HeldOf(s.mints, 8) == [0, 0, 2, 0, 0, 0, 0, 0]
  {
    AmountsChain();
    TensCalculated(max, fMinimize);
    TensNotIdeal(max, mints);
    hide Chain, HeldOf, Calculate, Ideal, Select, Ends;
    if max >= 2 {
      SelectedIs(12 * COIN, value, max, fMinimize, mints, 3, [0, 1, 1, 0, 0, 0, 0, 0]);
    } else {
      SelectedIs(12 * COIN, value, max, fMinimize, mints, 4, [0, 0, 2, 0, 0, 0, 0, 0]);
    }
  }

  lemma TensNotIdeal(max: int, mints: seq<Mint>)
    requires HeldOf(mints, 8) == TENS && Chain(AMOUNTS)
    ensures !Ideal(12 * COIN, max, AMOUNTS, mints)
  {
    ChainPositive(AMOUNTS);
    hide Chain, HeldOf, Total, Spend, Count;
    var r, q := 12 * COIN, 2 * COIN;
    SpendIs(AMOUNTS, TENS, [0, 0, 1, 0, 0, 0, 0, 0], [q, q, q, r, r, r, r, r, r]);
  }

  /** 63 out of three of 5 and two of 50: with the flag one of 50 and three of 5 are spent and two
      coins come back, if four mints may be spent; without it two of 50, and six come back. */
  lemma FiftiesSelected(value: int, max: int, mints: seq<Mint>)
    requires HeldOf(mints, 8) == FIFTIES
    ensures Chain(AMOUNTS)
    ensures Ends(63 * COIN, max, true, AMOUNTS, mints, FIFTIES) && Ends(63 * COIN, max, false, AMOUNTS, mints, FIFTIES)
    ensures var s := Select(63 * COIN, value, max, true, AMOUNTS, mints, FIFTIES);
            var t := Select(63 * COIN, value, max, false, AMOUNTS, mints, FIFTIES);
            && t.nCoinsReturned == 6 && HeldOf(t.mints, 8) == [0, 0, 0, 2, 0, 0, 0, 0]
            && (max >= 4 ==> s.nCoinsReturned == 2 && HeldOf(s.mints, 8) == [0, 3, 0, 1, 0, 0, 0, 0])
            && (max < 4 ==> s.nCoinsReturned == 6 && HeldOf(s.mints, 8) == [0, 0, 0, 2, 0, 0, 0, 0])
  {
    AmountsChain();
    FiftiesCalculated(max);
    FiftiesNotIdeal(max, mints);
    hide Chain, HeldOf, Calculate, Ideal, Select, Ends;
    SelectedIs(63 * COIN, value, max, false, mints, 6, [0, 0, 0, 2, 0, 0, 0, 0]);
    if max >= 4 {
      SelectedIs(63 * COIN, value, max, true, mints, 2, [0, 3, 0, 1, 0, 0, 0, 0]);
    } else {
      SelectedIs(63 * COIN, value, max, true, mints, 6, [0, 0, 0, 2, 0, 0, 0, 0]);
    }
  }

  lemma FiftiesNotIdeal(max: int, mints: seq<Mint>)
    requires HeldOf(mints, 8) == FIFTIES && Chain(AMOUNTS)
    ensures !Ideal(63 * COIN, max, AMOUNTS, mints)
  {
    ChainPositive(AMOUNTS);
    hide Chain, HeldOf, Total, Spend, Count;
    var r, q, p := 63 * COIN, 13 * COIN, 3 * COIN;
    SpendIs(AMOUNTS, FIFTIES, [0, 2, 0, 1, 0, 0, 0, 0], [p, p, q, q, r, r, r, r, r]);
  }
}

/** Choosing coins by denomination: the greedy choice of src/denomination_functions.cpp on
    values, and why it is the best there is when each denomination divides the next. */
module Denominations {
  import opened Arith

  const COIN: nat := 100000000

  /** The amounts of the coins in the order of zerocoinDenomList, smallest first. */
  const AMOUNTS: seq<nat> :=
    [COIN, 5 * COIN, 10 * COIN, 50 * COIN, 100 * COIN, 500 * COIN, 1000 * COIN, 5000 * COIN]

  /** Ascending amounts of which each divides the next. */
  predicate Chain(vals: seq<nat>) {
    && (forall i :: 0 <= i < |vals| ==> vals[i] > 0)
    && (forall i, j :: 0 <= i < j < |vals| ==> vals[i] < vals[j])
    && (forall i, j :: 0 < i < |vals| && j == i - 1 ==> vals[j] > 0 && vals[i] % vals[j] == 0)
  }

  lemma AmountsChain()
    ensures Chain(AMOUNTS)
  {
    hide AMOUNTS, Chain;
    AmountsSize();
    AmountsPrefix(8);
    assert AMOUNTS[..8] == AMOUNTS;
  }

  lemma AmountsSize()
    ensures |AMOUNTS| == 8
  {
  }

  lemma AmountNext(k: nat)
    requires k < 8
    ensures |AMOUNTS| == 8 && AMOUNTS[k] > 0
    ensures k > 0 ==> AMOUNTS[k - 1] > 0 && AMOUNTS[k] > AMOUNTS[k - 1] && AMOUNTS[k] % AMOUNTS[k - 1] == 0
  {
  }

  lemma {:induction false} AmountsPrefix(k: nat)
    requires k <= 8
    ensures |AMOUNTS| == 8 && Chain(AMOUNTS[..k])
  {
    hide AMOUNTS;
    AmountsSize();
    if k > 0 {
      AmountsPrefix(k - 1);
      hide Chain;
      AmountNext(k - 1);
      ChainMore(AMOUNTS[..k - 1], AMOUNTS[k - 1]);
      assert AMOUNTS[..k] == AMOUNTS[..k - 1] + [AMOUNTS[k - 1]];
    }
  }

  lemma ChainMore(vals: seq<nat>, v: nat)
    requires Chain(vals) && v > 0
    requires vals != [] ==> vals[|vals| - 1] > 0 && v > vals[|vals| - 1] && v % vals[|vals| - 1] == 0
    ensures Chain(vals + [v])
  {
  }

  lemma AmountsAre()
    ensures AMOUNTS == [100000000, 500000000, 1000000000, 5000000000,
                        10000000000, 50000000000, 100000000000, 500000000000]
  {
  }

  // ---------------------------------------------------------- counts of coins

  /** How many coins there are of each of the first |c| denominations. */
  type Counts = seq<nat>

  function Total(vals: seq<nat>, c: Counts): nat
    requires |c| <= |vals|
  {
    if c == [] then 0 else Total(vals, c[..|c| - 1]) + c[|c| - 1] * vals[|c| - 1]
  }

  function Count(c: Counts): nat {
    if c == [] then 0 else Count(c[..|c| - 1]) + c[|c| - 1]
  }

  /** `c` is a choice among the coins `held`. */
  predicate Fits(c: Counts, held: Counts) {
    |c| <= |held| && forall i :: 0 <= i < |c| ==> c[i] <= held[i]
  }

  function Zeros(n: nat): (c: Counts)
    ensures |c| == n && forall i :: 0 <= i < n ==> c[i] == 0
  {
    seq(n, _ => 0)
  }

  function Less(c: Counts, d: Counts): (r: Counts)
    requires |d| == |c|
    ensures |r| == |c| && forall i :: 0 <= i < |c| ==> r[i] == if c[i] > d[i] then c[i] - d[i] else 0
  {
    seq(|c|, i requires 0 <= i < |c| => if c[i] > d[i] then c[i] - d[i] else 0)
  }

  lemma {:induction false} LessTotals(vals: seq<nat>, c: Counts, d: Counts)
    requires |d| == |c| <= |vals| && Fits(d, c)
    ensures Total(vals, Less(c, d)) == Total(vals, c) - Total(vals, d)
    ensures Count(Less(c, d)) == Count(c) - Count(d)
  {
    hide Total, Count;
    if c == [] {
      TotalNone(vals);
    } else {
      var n := |c| - 1;
      TotalLast(vals, c);
      TotalLast(vals, d);
      TotalLast(vals, Less(c, d));
      assert Less(c, d)[..n] == Less(c[..n], d[..n]);
      LessTotals(vals, c[..n], d[..n]);
      Distribute(c[n], d[n], vals[n]);
    }
  }

  lemma {:induction false} ZerosTotal(vals: seq<nat>, n: nat)
    requires n <= |vals|
    ensures Total(vals, Zeros(n)) == 0 && Count(Zeros(n)) == 0
  {
    if n > 0 {
      assert Zeros(n)[..n - 1] == Zeros(n - 1);
      ZerosTotal(vals, n - 1);
    }
  }

  /** Changing one count. */
  lemma {:induction false} TotalUpdate(vals: seq<nat>, c: Counts, i: nat, k: nat)
    requires i < |c| <= |vals|
    ensures Total(vals, c[i := k]) == Total(vals, c) + (k - c[i]) * vals[i]
    ensures Count(c[i := k]) == Count(c) + k - c[i]
  {
    var n := |c| - 1;
    if i == n {
      assert c[i := k][..n] == c[..n];
      Distribute(k, c[n], vals[n]);
    } else {
      assert c[i := k][..n] == c[..n][i := k];
      TotalUpdate(vals, c[..n], i, k);
    }
  }

  lemma {:induction false} TotalPositive(vals: seq<nat>, c: Counts, i: nat)
    requires i < |c| <= |vals| && c[i] > 0
    ensures Total(vals, c) >= vals[i]
  {
    var n := |c| - 1;
    if i == n { Scale(1, c[n], vals[n]); } else { TotalPositive(vals, c[..n], i); }
  }

  lemma TotalAppend(vals: seq<nat>, s: Counts, k: nat)
    requires |s| < |vals|
    ensures Total(vals, s + [k]) == Total(vals, s) + k * vals[|s|] && Count(s + [k]) == Count(s) + k
  {
    assert (s + [k])[..|s|] == s;
  }

  lemma TotalLast(vals: seq<nat>, c: Counts)
    requires c != [] && |c| <= |vals|
    ensures Total(vals, c) == Total(vals, c[..|c| - 1]) + c[|c| - 1] * vals[|c| - 1]
    ensures Count(c) == Count(c[..|c| - 1]) + c[|c| - 1]
  {
  }

  lemma ChainPositive(vals: seq<nat>)
    requires Chain(vals)
    ensures forall i :: 0 <= i < |vals| ==> vals[i] > 0
    ensures forall i, j :: 0 <= i < j < |vals| ==> vals[i] < vals[j]
  {
  }

  lemma ChainDivides(vals: seq<nat>, n: nat)
    requires Chain(vals) && 0 < n < |vals|
    ensures vals[n - 1] > 0 && vals[n] % vals[n - 1] == 0
  {
  }

  // ------------------------------------------------------------ the greedy choice

  /** As many coins of value `v` as there are and as fit into the amount `r`. */
  function Take(v: nat, have: nat, r: int): (k: nat)
    requires v > 0
    ensures k <= have && (k > 0 ==> k * v <= r) && (k < have ==> r < (k + 1) * v)
  {
    if r <= 0 then TakeNone(v); 0 else
      TakeSome(v, r);
      TakeFewer(v, have, r / v);
      Min(have, r / v)
  }

  lemma TakeNone(v: nat)
    ensures 0 <= (0 + 1) * v
  {
  }

  lemma TakeFewer(v: nat, k: nat, q: nat)
    ensures k <= q ==> k * v <= q * v
  {
  }

  /** As many coins of value `v` as fit, were there enough of them. */
  function TakeFree(v: nat, r: int): (k: nat)
    requires v > 0
    ensures (k > 0 ==> k * v <= r) && r < (k + 1) * v
  {
    if r <= 0 then TakeNone(v); 0 else TakeSome(v, r); r / v
  }

  /** The largest denominations first, as many of each as there are and as fit. */
  function Spend(vals: seq<nat>, held: Counts, n: nat, r: int): (c: Counts)
    requires n <= |held| && n <= |vals| && forall i :: 0 <= i < |vals| ==> vals[i] > 0
    ensures |c| == n
  {
    if n == 0 then [] else
      var k := Take(vals[n - 1], held[n - 1], r);
      Spend(vals, held, n - 1, r - k * vals[n - 1]) + [k]
  }

  /** The same without a limit on the number of coins. */
  function Change(vals: seq<nat>, n: nat, r: int): (c: Counts)
    requires n <= |vals| && forall i :: 0 <= i < |vals| ==> vals[i] > 0
    ensures |c| == n
  {
    if n == 0 then [] else
      var k := TakeFree(vals[n - 1], r);
      Change(vals, n - 1, r - k * vals[n - 1]) + [k]
  }

  lemma TotalNone(vals: seq<nat>)
    ensures Total(vals, []) == 0 && Count([]) == 0
  {
  }

  lemma {:induction false} SpendFits(vals: seq<nat>, held: Counts, n: nat, r: int)
    requires n <= |held| && n <= |vals| && forall i :: 0 <= i < |vals| ==> vals[i] > 0
    ensures Fits(Spend(vals, held, n, r), held)
    ensures r >= 0 ==> Total(vals, Spend(vals, held, n, r)) <= r
    ensures r < 0 ==> Total(vals, Spend(vals, held, n, r)) == 0
  {
    hide Take, Total, Count;
    if n == 0 {
      assert Total(vals, []) == 0 by { TotalNone(vals); }
    } else {
      var k := Take(vals[n - 1], held[n - 1], r);
      SpendFits(vals, held, n - 1, r - k * vals[n - 1]);
      TotalAppend(vals, Spend(vals, held, n - 1, r - k * vals[n - 1]), k);
    }
  }

  lemma {:induction false} SpendPrefix(vals: seq<nat>, a: Counts, b: Counts, n: nat, r: int)
    requires n <= |a| && n <= |b| && n <= |vals| && a[..n] == b[..n]
    requires forall i :: 0 <= i < |vals| ==> vals[i] > 0
    ensures Spend(vals, a, n, r) == Spend(vals, b, n, r)
  {
    hide Take;
    if n > 0 {
      assert a[n - 1] == a[..n][n - 1] == b[n - 1];
      assert a[..n - 1] == a[..n][..n - 1] == b[..n - 1];
      SpendPrefix(vals, a, b, n - 1, r - Take(vals[n - 1], a[n - 1], r) * vals[n - 1]);
    }
  }

  /** What is left after taking all that fits of a divisor is nothing, or there are too few coins. */
  lemma TakeAll(v: nat, have: nat, r: nat)
    requires v > 0 && r % v == 0
    ensures var k := Take(v, have, r); k == have || r == k * v
  {
  }

  /** Any multiple of the largest denomination can be made from coins that are worth enough. */
  lemma {:induction false} Fill(vals: seq<nat>, c: Counts, n: nat, r: nat)
    requires Chain(vals) && n == |c| <= |vals| && r <= Total(vals, c)
    requires n > 0 ==> r % vals[n - 1] == 0
    ensures Total(vals, Spend(vals, c, n, r)) == r
  {
    hide Take, Total, Count, Chain;
    ChainPositive(vals);
    if n == 0 {
      TotalNone(vals);
    } else {
      var v := vals[n - 1];
      var k := Take(v, c[n - 1], r);
      TakeAll(v, c[n - 1], r);
      TotalLast(vals, c);
      var rest := r - k * v;
      TotalAppend(vals, Spend(vals, c, n - 1, rest), k);
      assert c[..n - 1] == c[..n - 1][..n - 1];
      SpendPrefix(vals, c, c[..n - 1], n - 1, rest);
      ModLess(r, k, v);
      if n > 1 {
        ChainDivides(vals, n - 1);
        ModTrans(rest, v, vals[n - 2]);
      }
      Fill(vals, c[..n - 1], n - 1, rest);
    }
  }

  /** Coins of at most `v` each: it takes at least m of them to make m * v. */
  lemma {:induction false} TotalAtMost(vals: seq<nat>, c: Counts, v: nat)
    requires |c| <= |vals| && forall i :: 0 <= i < |c| ==> vals[i] <= v
    ensures Total(vals, c) <= Count(c) * v
  {
    hide Total, Count;
    if c == [] {
      TotalNone(vals);
    } else {
      var n := |c| - 1;
      TotalLast(vals, c);
      TotalAtMost(vals, c[..n], v);
      ScaleRight(c[n], vals[n], v);
      Add(Count(c[..n]), c[n], v);
    }
  }

  /** The exchange. Any choice can give up coins that are worth m of the next denomination,
      at least m of them, in favour of m coins of that denomination. */
  lemma Exchange(vals: seq<nat>, low: Counts, m: nat) returns (rest: Counts)
    requires Chain(vals) && |low| < |vals| && m * vals[|low|] <= Total(vals, low)
    ensures |rest| == |low| && Fits(rest, low)
    ensures Total(vals, rest) == Total(vals, low) - m * vals[|low|]
    ensures Count(rest) + m <= Count(low)
  {
    hide Total, Count, Chain, Spend;
    ChainPositive(vals);
    var n, v := |low|, vals[|low|];
    if n > 0 {
      ChainDivides(vals, n);
      MulMod(m, v, vals[n - 1]);
    }
    var d := Spend(vals, low, n, m * v);
    SpendFits(vals, low, n, m * v);
    Fill(vals, low, n, m * v);
    TotalAtMost(vals, d, v);
    Cancel(m, Count(d), v);
    rest := Less(low, d);
    LessTotals(vals, low, d);
  }

  /** The greedy choice reaches every amount that some choice reaches, and with the fewest
      coins of all the choices that do. */
  lemma {:induction false} SpendBest(vals: seq<nat>, held: Counts, c: Counts, r: nat)
    requires Chain(vals) && |c| <= |vals| && Fits(c, held) && Total(vals, c) == r
    ensures Total(vals, Spend(vals, held, |c|, r)) == r
    ensures Count(Spend(vals, held, |c|, r)) <= Count(c)
    decreases |c|
  {
    hide Take, Total, Count, Chain;
    ChainPositive(vals);
    var n := |c|;
    if n == 0 {
      TotalNone(vals);
    } else {
      var v, low := vals[n - 1], c[..n - 1];
      var k := Take(v, held[n - 1], r);
      TotalLast(vals, c);
      TopAtMost(v, held[n - 1], r, c[n - 1]);
      var m := k - c[n - 1];
      Distribute(k, c[n - 1], v);
      var rest := Exchange(vals, low, m);
      SpendBest(vals, held, rest, r - k * v);
      TotalAppend(vals, Spend(vals, held, n - 1, r - k * v), k);
    }
  }

  lemma TopAtMost(v: nat, have: nat, r: nat, top: nat)
    requires v > 0 && top <= have && top * v <= r
    ensures top <= Take(v, have, r) && Take(v, have, r) * v <= r
  {
    var k := Take(v, have, r);
    if k < top { Scale(k + 1, top, v); }
  }

  /** Bounded greedy is complete. */
  ghost predicate Reachable(vals: seq<nat>, held: Counts, r: int)
    requires |held| == |vals|
  {
    exists c: Counts :: |c| == |vals| && Fits(c, held) && Total(vals, c) == r
  }

  lemma SpendComplete(vals: seq<nat>, held: Counts, r: int)
    requires Chain(vals) && |held| == |vals|
    ensures Reachable(vals, held, r) <==> Total(vals, Spend(vals, held, |vals|, r)) == r
  {
    SpendFits(vals, held, |vals|, r);
    if Reachable(vals, held, r) {
      var c: Counts :| |c| == |vals| && Fits(c, held) && Total(vals, c) == r;
      SpendBest(vals, held, c, r);
    }
  }

  // --------------------------------------------------------------------- change

  lemma {:induction false} ChangeIsSpend(vals: seq<nat>, held: Counts, n: nat, r: int, most: int)
    requires Chain(vals) && n <= |held| && n <= |vals| && r <= most
    requires forall i :: 0 <= i < n ==> most <= held[i]
    ensures Change(vals, n, r) == Spend(vals, held, n, r)
  {
    if n > 0 {
      var v := vals[n - 1];
      var k := Take(v, held[n - 1], r);
      TakeFreely(v, held[n - 1], r);
      hide Take, TakeFree, Chain;
      ChangeIsSpend(vals, held, n - 1, r - k * v, most);
    }
  }

  lemma TakeFreely(v: nat, have: nat, r: int)
    requires v > 0 && r <= have
    ensures Take(v, have, r) == TakeFree(v, r)
  {
    if r > 0 { QuotientAtMost(r, v); }
  }

  /** Change for a multiple of the smallest denomination is exact, and no other coins that
      make the same amount are fewer. */
  lemma ChangeBest(vals: seq<nat>, r: nat, c: Counts)
    requires Chain(vals) && |c| == |vals| > 0 && r % vals[0] == 0
    ensures Total(vals, Change(vals, |vals|, r)) == r
    ensures Total(vals, c) == r ==> Count(Change(vals, |vals|, r)) <= Count(c)
  {
    var n := |vals|;
    var held := Plenty(vals, r, c);
    ChangeIsSpend(vals, held, n, r, r);
    SmallOnly(vals, r);
    SpendBest(vals, held, Zeros(n)[0 := r / vals[0]], r);
    if Total(vals, c) == r { SpendBest(vals, held, c, r); }
  }

  function Plenty(vals: seq<nat>, r: nat, c: Counts): (held: Counts)
    requires |c| == |vals| > 0 && vals[0] > 0
    ensures |held| == |vals| && Fits(c, held) && forall i :: 0 <= i < |vals| ==> r <= held[i]
    ensures r / vals[0] <= held[0]
  {
    QuotientAtMost(r, vals[0]);
    seq(|vals|, i requires 0 <= i < |vals| => if c[i] > r then c[i] else r)
  }

  lemma SmallOnly(vals: seq<nat>, r: nat)
    requires Chain(vals) && |vals| > 0 && r % vals[0] == 0
    ensures r / vals[0] >= 0 && Total(vals, Zeros(|vals|)[0 := r / vals[0]]) == r
  {
    hide Total, Count;
    var q := r / vals[0];
    TakeSome(vals[0], r);
    ExactQuotient(r, vals[0]);
    ZerosTotal(vals, |vals|);
    TotalUpdate(vals, Zeros(|vals|), 0, q);
  }

  lemma TakeFreeNone(v: nat, r: int)
    requires v > 0
    ensures TakeFree(v, r) == 0 <==> r < v
  {
    var k := TakeFree(v, r);
    if k > 0 { Scale(1, k, v); }
  }

  /** There is change only for an amount that is worth a coin. */
  lemma {:induction false} ChangeNone(vals: seq<nat>, n: nat, r: int)
    requires Chain(vals) && n <= |vals|
    ensures Count(Change(vals, n, r)) > 0 <==> n > 0 && r >= vals[0]
  {
    hide TakeFree, Count, Chain;
    if n == 0 {
      TotalNone(vals);
    } else {
      FirstLeast(vals, n - 1);
      var v := vals[n - 1];
      var k := TakeFree(v, r);
      TakeFreeNone(v, r);
      TotalAppend(vals, Change(vals, n - 1, r - k * v), k);
      if k == 0 {
        assert r - k * v == r;
        ChangeNone(vals, n - 1, r);
      }
    }
  }

  lemma FirstLeast(vals: seq<nat>, i: nat)
    requires Chain(vals) && i < |vals|
    ensures vals[0] <= vals[i] && (forall i :: 0 <= i < |vals| ==> vals[i] > 0)
  {
  }

  lemma {:induction false} ChangeTotal(vals: seq<nat>, n: nat, r: int)
    requires Chain(vals) && n <= |vals|
    ensures r >= 0 ==> Total(vals, Change(vals, n, r)) <= r
    ensures r <= 0 ==> Total(vals, Change(vals, n, r)) == 0
  {
    hide TakeFree, Total, Count, Chain;
    ChainPositive(vals);
    if n == 0 {
      TotalNone(vals);
    } else {
      var v := vals[n - 1];
      var k := TakeFree(v, r);
      TotalAppend(vals, Change(vals, n - 1, r - k * v), k);
      ChangeTotal(vals, n - 1, r - k * v);
    }
  }
}

/** What src/denomination_functions.cpp selects, on values: the choice of the counts, the
    change, and the mints that are picked for the counts. */
module CoinSelection {
  import opened Arith
  import opened Denominations
  import opened Lists

  /** `denom` is an index into the amounts, or no such index when the mint's denomination is
      none of the list. */
  datatype Mint = Mint(serial: nat, denom: int, used: bool)

  predicate Matches(m: Mint, d: nat) {
    !m.used && m.denom == d
  }

  function Unused(mints: seq<Mint>, d: nat): nat {
    if mints == [] then 0
    else Unused(mints[..|mints| - 1], d) + if Matches(mints[|mints| - 1], d) then 1 else 0
  }

  /** How many unused mints there are of each denomination. */
  function HeldOf(mints: seq<Mint>, n: nat): (c: Counts)
    ensures |c| == n && forall d :: 0 <= d < n ==> c[d] == Unused(mints, d)
  {
    seq(n, d requires 0 <= d < n => Unused(mints, d))
  }

  // ------------------------------------------------------------- choosing counts

  predicate Sized(vals: seq<nat>, held: Counts) {
    |held| == |vals| > 0 && Chain(vals)
  }

  /** The smallest held coin that is worth more than the target; -1 for none. */
  function FirstOver(vals: seq<nat>, held: Counts, target: int, i: nat): (d: int)
    requires |held| == |vals| && i <= |vals|
    ensures d == -1 || i <= d < |vals|
    ensures d >= 0 ==> held[d] > 0 && target < vals[d]
    ensures forall k :: i <= k < d && held[k] > 0 ==> vals[k] <= target
    ensures d == -1 ==> forall k :: i <= k < |vals| && held[k] > 0 ==> vals[k] <= target
    decreases |vals| - i
  {
    if i == |vals| then -1
    else if target < vals[i] && held[i] > 0 then i
    else FirstOver(vals, held, target, i + 1)
  }

  /** The highest denomination below `n` that is held; -1 for none. */
  function TopHeld(held: Counts, n: nat): (d: int)
    requires n <= |held|
    ensures -1 <= d < n
    ensures d >= 0 ==> held[d] > 0
    ensures forall k :: d < k < n ==> held[k] == 0
  {
    if n == 0 then -1 else if held[n - 1] != 0 then n - 1 else TopHeld(held, n - 1)
  }

  /** Greedy with the denominations up to `top`, strictly less than the target. */
  function Below(vals: seq<nat>, held: Counts, top: int, target: int): (c: Counts)
    requires Sized(vals, held) && -1 <= top < |vals|
    ensures |c| == |vals|
  {
    Spend(vals, held, top + 1, target - 1) + Zeros(|vals| - top - 1)
  }

  /** The smallest coin left that is worth more than what remains; -1 for none. The search
      ends at once when nothing remains. */
  function Cover(vals: seq<nat>, held: Counts, used: Counts, r: int, i: nat): (d: int)
    requires |held| == |vals| == |used| && i <= |vals|
    ensures d == -1 || i <= d < |vals|
    ensures d >= 0 ==> used[d] < held[d] && r < vals[d]
    ensures forall k :: i <= k < d && used[k] < held[k] ==> vals[k] <= r
    ensures d == -1 && r >= 0 ==> forall k :: i <= k < |vals| && used[k] < held[k] ==> vals[k] <= r
    decreases |vals| - i
  {
    if i == |vals| then -1
    else if vals[i] > r && used[i] < held[i] then i
    else if r < 0 then -1
    else Cover(vals, held, used, r, i + 1)
  }

  /** A choice that is more than the target, by one coin that covers what was below it. */
  function Covered(vals: seq<nat>, held: Counts, top: int, target: int): (c: Counts)
    requires Sized(vals, held) && -1 <= top < |vals|
    ensures |c| == |vals|
  {
    var b := Below(vals, held, top, target);
    var d := Cover(vals, held, b, target - Total(vals, b), 0);
    if d < 0 then b else b[d := b[d] + 1]
  }

  /** ... without the coins that would come back as change. */
  function Trimmed(vals: seq<nat>, held: Counts, top: int, target: int): (c: Counts)
    requires Sized(vals, held) && -1 <= top < |vals|
    ensures |c| == |vals|
  {
    var u := Covered(vals, held, top, target);
    Less(u, Change(vals, |vals|, Total(vals, u) - target))
  }

  /** The number of coins in the change for the choice `c`. */
  function ChangeCount(vals: seq<nat>, c: Counts, target: int): nat
    requires Chain(vals) && |c| <= |vals|
  {
    Count(Change(vals, |vals|, Total(vals, c) - target))
  }

  function Minimize(max: int, count: nat, top: int, target: int, vals: seq<nat>, held: Counts,
                    saved: Counts): (nat, Counts)
    requires Sized(vals, held) && -1 <= top < |vals|
  {
    var w := Trimmed(vals, held, top, target);
    var final := Spend(vals, held, |vals|, Total(vals, w));
    var alt := ChangeCount(vals, w, target);
    if alt < count && Count(final) <= max then (alt, final) else (count, saved)
  }

  /** As many coins of value `v` as it takes to reach `r`, if there are so many. */
  function TakeOver(v: nat, have: nat, r: int): (k: nat)
    requires v > 0
    ensures k <= have && (k > 0 ==> (k - 1) * v < r) && (k < have ==> r <= k * v)
  {
    if r <= 0 then TakeNone(v); 0 else
      TakeSome(v, r - 1);
      if have > 0 then TakeFewer(v, have - 1, (r - 1) / v); Min(have, (r - 1) / v + 1) else 0
  }

  function Over(vals: seq<nat>, held: Counts, n: nat, r: int): (c: Counts)
    requires n <= |held| && n <= |vals| && Chain(vals)
    ensures |c| == n
  {
    if n == 0 then [] else
      var k := TakeOver(vals[n - 1], held[n - 1], r);
      Over(vals, held, n - 1, r - k * vals[n - 1]) + [k]
  }

  function One(n: nat, d: nat): (c: Counts)
    requires d < n
    ensures |c| == n
  {
    Zeros(n)[d := 1]
  }

  function Calculate(max: int, fMinimize: bool, target: int, vals: seq<nat>, held: Counts): (nat, Counts)
    requires Sized(vals, held)
  {
    var d := FirstOver(vals, held, target, 0);
    if d >= 0 then
      var one := One(|vals|, d);
      var count := Count(Change(vals, |vals|, vals[d] - target));
      var (alt, used) := Minimize(max, count, TopHeld(held, d), target, vals, held, one);
      if fMinimize && alt < count then (alt, used) else (count, one)
    else
      var over := Over(vals, held, |vals|, target);
      var count := ChangeCount(vals, over, target);
      var (alt, used) := Minimize(max, count, TopHeld(held, |held|), target, vals, held, over);
      if !fMinimize && Count(over) < Count(used) then (count, over) else (alt, used)
  }

  // --------------------------------------------------------------- picking mints

  /** One pass over the list: the first `k` unused mints of a denomination. */
  function Picks(mints: seq<Mint>, d: nat, k: nat): (p: seq<Mint>)
    ensures |p| == Min(k, Unused(mints, d))
  {
    if mints == [] then [] else
      var p := Picks(mints[..|mints| - 1], d, k);
      if Matches(mints[|mints| - 1], d) && |p| < k then p + [mints[|mints| - 1]] else p
  }

  /** The passes go on until `k` mints are picked. */
  function Passes(mints: seq<Mint>, d: nat, k: nat): (p: seq<Mint>)
    requires k == 0 || Unused(mints, d) > 0
    ensures |p| == k
    decreases k
  {
    var p := Picks(mints, d, k);
    if |p| == k then p else p + Passes(mints, d, k - |p|)
  }

  /** There is an unused mint of every denomination that is wanted. */
  predicate Payable(mints: seq<Mint>, c: Counts) {
    forall d :: 0 <= d < |c| && c[d] > 0 ==> Unused(mints, d) > 0
  }

  function PickAll(mints: seq<Mint>, c: Counts): (p: seq<Mint>)
    requires Payable(mints, c)
  {
    if c == [] then [] else
      var d := |c| - 1;
      Passes(mints, d, c[d]) + PickAll(mints, c[..d])
  }

  /** What is still wanted after `rounds` passes. */
  function Wanted(mints: seq<Mint>, d: nat, k: nat, rounds: nat): nat {
    if rounds == 0 then k else
      var left := Wanted(mints, d, k, rounds - 1);
      left - |Picks(mints, d, left)|
  }

  /** The do-while loop of getSpends ends if and only if nothing is wanted of the
      denomination or there is an unused mint of it. */
  lemma PassesEnd(mints: seq<Mint>, d: nat, k: nat)
    ensures (exists rounds: nat :: rounds >= 1 && Wanted(mints, d, k, rounds) == 0) <==> k == 0 || Unused(mints, d) > 0
  {
    if k == 0 {
      assert Wanted(mints, d, k, 0) == 0;
      assert Wanted(mints, d, k, 1) == 0;
    } else if Unused(mints, d) > 0 {
      WantedFalls(mints, d, k, k);
      assert Wanted(mints, d, k, k) == 0;
    } else {
      forall rounds: nat ensures Wanted(mints, d, k, rounds) == k {
        WantedStays(mints, d, k, rounds);
      }
    }
  }

  lemma {:induction false} WantedFalls(mints: seq<Mint>, d: nat, k: nat, rounds: nat)
    requires Unused(mints, d) > 0
    ensures Wanted(mints, d, k, rounds) <= if rounds < k then k - rounds else 0
  {
    if rounds > 0 { WantedFalls(mints, d, k, rounds - 1); }
  }

  lemma {:induction false} WantedStays(mints: seq<Mint>, d: nat, k: nat, rounds: nat)
    requires Unused(mints, d) == 0
    ensures Wanted(mints, d, k, rounds) == k
  {
    if rounds > 0 { WantedStays(mints, d, k, rounds - 1); }
  }

  /** What a list of mints is worth; a mint outside the list of denominations is worth 0. */
  function Worth(vals: seq<nat>, mints: seq<Mint>): nat {
    if mints == [] then 0
    else Worth(vals, mints[..|mints| - 1]) + MintValue(vals, mints[|mints| - 1])
  }

  function MintValue(vals: seq<nat>, m: Mint): nat {
    if 0 <= m.denom < |vals| then vals[m.denom] else 0
  }

  lemma {:induction false} WorthJoin(vals: seq<nat>, a: seq<Mint>, b: seq<Mint>)
    ensures Worth(vals, a + b) == Worth(vals, a) + Worth(vals, b)
  {
    if b == [] {
      assert a + b == a;
    } else {
      assert (a + b)[..|a + b| - 1] == a + b[..|b| - 1];
      WorthJoin(vals, a, b[..|b| - 1]);
    }
  }

  predicate AllMatch(mints: seq<Mint>, d: nat) {
    forall m :: m in mints ==> Matches(m, d)
  }

  lemma {:induction false} MatchingWorth(vals: seq<nat>, mints: seq<Mint>, d: nat)
    requires AllMatch(mints, d) && d < |vals|
    ensures Worth(vals, mints) == |mints| * vals[d]
  {
    if mints != [] {
      var n := |mints| - 1;
      MatchingWorth(vals, mints[..n], d);
      assert mints[n] in mints;
      Add(n, 1, vals[d]);
    }
  }

  lemma {:induction false} PicksMatch(mints: seq<Mint>, d: nat, k: nat)
    ensures AllMatch(Picks(mints, d, k), d)
    ensures multiset(Picks(mints, d, k)) <= multiset(mints)
  {
    if mints != [] {
      var n := |mints| - 1;
      PicksMatch(mints[..n], d, k);
      assert mints == mints[..n] + [mints[n]];
    }
  }

  lemma {:induction false} PassesMatch(mints: seq<Mint>, d: nat, k: nat)
    requires k == 0 || Unused(mints, d) > 0
    ensures AllMatch(Passes(mints, d, k), d)
    decreases k
  {
    var p := Picks(mints, d, k);
    PicksMatch(mints, d, k);
    if |p| != k { PassesMatch(mints, d, k - |p|); }
  }

  predicate NoneUsed(mints: seq<Mint>) {
    forall m :: m in mints ==> !m.used
  }

  /** The picked mints are worth what the counts say, however many passes it takes. */
  lemma {:induction false} PickAllWorth(vals: seq<nat>, mints: seq<Mint>, c: Counts)
    requires Payable(mints, c) && |c| <= |vals|
    ensures Worth(vals, PickAll(mints, c)) == Total(vals, c) && |PickAll(mints, c)| == Count(c)
    ensures NoneUsed(PickAll(mints, c))
  {
    if c != [] {
      var d := |c| - 1;
      var p := Passes(mints, d, c[d]);
      PickAllWorth(vals, mints, c[..d]);
      PassesMatch(mints, d, c[d]);
      MatchingWorth(vals, p, d);
      WorthJoin(vals, p, PickAll(mints, c[..d]));
    }
  }

  predicate AllUnder(mints: seq<Mint>, n: nat) {
    forall m :: m in mints ==> 0 <= m.denom < n
  }

  lemma {:induction false} PickAllUnder(mints: seq<Mint>, c: Counts)
    requires Payable(mints, c)
    ensures AllUnder(PickAll(mints, c), |c|)
  {
    if c != [] {
      var d := |c| - 1;
      PassesMatch(mints, d, c[d]);
      PickAllUnder(mints, c[..d]);
    }
  }

  /** No mint is picked more often than it is listed, if no count is more than there are. */
  lemma {:induction false} PickAllWithin(mints: seq<Mint>, c: Counts)
    requires Fits(c, HeldOf(mints, |c|))
    ensures Payable(mints, c) && multiset(PickAll(mints, c)) <= multiset(mints)
  {
    if c != [] {
      var d := |c| - 1;
      PickAllWithin(mints, c[..d]);
      PicksMatch(mints, d, c[d]);
      PickAllUnder(mints, c[..d]);
      var p, q := Picks(mints, d, c[d]), PickAll(mints, c[..d]);
      forall m | m in multiset(p + q) ensures multiset(p + q)[m] <= multiset(mints)[m] {
        if m in p { assert m !in q; } else { assert m !in multiset(p); }
      }
    }
  }

  /** Only then: a count that is more than there are makes some mint come twice. */
  lemma PickAllTwice(mints: seq<Mint>, c: Counts, d: nat)
    requires Payable(mints, c) && d < |c| && c[d] > Unused(mints, d)
    ensures !(multiset(PickAll(mints, c)) <= multiset(mints))
  {
    PickAllCount(mints, c, d);
    var p := PickAll(mints, c);
    if multiset(p) <= multiset(mints) {
      UnusedWithin(p, mints, d);
    }
  }

  lemma {:induction false} PickAllCount(mints: seq<Mint>, c: Counts, d: nat)
    requires Payable(mints, c)
    ensures Unused(PickAll(mints, c), d) == if d < |c| then c[d] else 0
  {
    if c != [] {
      var e := |c| - 1;
      var p := Passes(mints, e, c[e]);
      PassesMatch(mints, e, c[e]);
      PickAllCount(mints, c[..e], d);
      UnusedJoin(p, PickAll(mints, c[..e]), d);
      UnusedMatching(p, e, d);
    }
  }

  lemma {:induction false} UnusedJoin(a: seq<Mint>, b: seq<Mint>, d: nat)
    ensures Unused(a + b, d) == Unused(a, d) + Unused(b, d)
  {
    if b == [] {
      assert a + b == a;
    } else {
      assert (a + b)[..|a + b| - 1] == a + b[..|b| - 1];
      UnusedJoin(a, b[..|b| - 1], d);
    }
  }

  lemma {:induction false} UnusedMatching(mints: seq<Mint>, e: nat, d: nat)
    requires AllMatch(mints, e)
    ensures Unused(mints, d) == if d == e then |mints| else 0
  {
    if mints != [] {
      UnusedMatching(mints[..|mints| - 1], e, d);
      assert mints[|mints| - 1] in mints;
    }
  }

  lemma Without(b: seq<Mint>, i: nat, d: nat)
    requires i < |b|
    ensures var rest := b[..i] + b[i + 1..];
            && multiset(b) == multiset(rest) + multiset{b[i]}
            && Unused(b, d) == Unused(rest, d) + if Matches(b[i], d) then 1 else 0
  {
    assert b == b[..i] + [b[i]] + b[i + 1..];
    UnusedJoin(b[..i], b[i + 1..], d);
    UnusedJoin(b[..i] + [b[i]], b[i + 1..], d);
    assert (b[..i] + [b[i]])[..i] == b[..i];
  }

  /** Mints that come at most as often cannot be more. */
  lemma {:induction false} UnusedWithin(a: seq<Mint>, b: seq<Mint>, d: nat)
    requires multiset(a) <= multiset(b)
    ensures Unused(a, d) <= Unused(b, d)
  {
    hide Matches;
    if a != [] {
      var n := |a| - 1;
      assert a == a[..n] + [a[n]];
      assert multiset(a) == multiset(a[..n]) + multiset{a[n]};
      assert a[n] in multiset(b);
      var i :| 0 <= i < |b| && b[i] == a[n];
      Without(b, i, d);
      var rest := b[..i] + b[i + 1..];
      forall m | m in multiset(a[..n]) ensures multiset(a[..n])[m] <= multiset(rest)[m] {
        assert multiset(a)[m] <= multiset(b)[m];
      }
      UnusedWithin(a[..n], rest, d);
    }
  }

  // ------------------------------------------------------------- the whole choice

  datatype Selection = Selection(mints: seq<Mint>, nSelectedValue: int, nCoinsReturned: int, nNeededSpends: int)

  /** Whether the greedy choice makes the target with few enough coins. */
  predicate Ideal(target: int, max: int, vals: seq<nat>, mints: seq<Mint>)
    requires forall i :: 0 <= i < |vals| ==> vals[i] > 0
  {
    var c := Spend(vals, HeldOf(mints, |vals|), |vals|, target);
    Total(vals, c) == target && (max < 0 || Count(c) <= max)
  }

  /** Whether the mints for the choice can be picked, so that getSpends ends: see PassesEnd. */
  predicate Ends(target: int, max: int, fMinimize: bool, vals: seq<nat>, mints: seq<Mint>, held: Counts)
    requires Sized(vals, held)
  {
    Ideal(target, max, vals, mints) ||
    var (count, used) := Calculate(max, fMinimize, target, vals, held);
    count == 0 || Payable(mints, used)
  }

  /** `value` is what nSelectedValue was before the call. */
  function Select(target: int, value: int, max: int, fMinimize: bool, vals: seq<nat>, mints: seq<Mint>,
                  held: Counts): Selection
    requires Sized(vals, held) && Ends(target, max, fMinimize, vals, mints, held)
  {
    var ideal := Spend(vals, HeldOf(mints, |vals|), |vals|, target);
    SpendFits(vals, HeldOf(mints, |vals|), |vals|, target);
    var exact := Total(vals, ideal) == target;
    if exact && (max < 0 || Count(ideal) <= max) then
      Selection(PickAll(mints, ideal), target, 0, 0)
    else
      var needed := if exact then Count(ideal) else 0;
      var (count, used) := Calculate(max, fMinimize, target, vals, held);
      if count == 0 then
        Selection([], if exact then target else value, 0, needed)
      else
        CalculateSound(max, fMinimize, target, vals, held);
        Selection(PickAll(mints, used), Total(vals, used), count, needed)
  }

  lemma {:induction false} OverFits(vals: seq<nat>, held: Counts, n: nat, r: int)
    requires n <= |held| && n <= |vals| && Chain(vals)
    ensures Fits(Over(vals, held, n, r), held)
  {
    if n > 0 { OverFits(vals, held, n - 1, r - TakeOver(vals[n - 1], held[n - 1], r) * vals[n - 1]); }
  }

  lemma BelowFits(vals: seq<nat>, held: Counts, top: int, target: int)
    requires Sized(vals, held) && -1 <= top < |vals|
    ensures Fits(Below(vals, held, top, target), held)
  {
    SpendFits(vals, held, top + 1, target - 1);
  }

  lemma TrimmedFits(vals: seq<nat>, held: Counts, top: int, target: int)
    requires Sized(vals, held) && -1 <= top < |vals|
    ensures Fits(Covered(vals, held, top, target), held)
    ensures Fits(Trimmed(vals, held, top, target), held)
  {
    hide Below, Change, Total, Chain;
    BelowFits(vals, held, top, target);
  }

  /** A choice among the held coins, and the number of coins in its change. */
  predicate SoundChoice(vals: seq<nat>, held: Counts, target: int, choice: (nat, Counts)) {
    && |choice.1| == |vals| && Fits(choice.1, held)
    && Chain(vals) && choice.0 == ChangeCount(vals, choice.1, target)
  }

  /** The final greedy choice is worth the same as the trimmed one. */
  lemma MinimizeSound(max: int, count: nat, top: int, target: int, vals: seq<nat>, held: Counts, saved: Counts)
    requires Sized(vals, held) && -1 <= top < |vals|
    requires SoundChoice(vals, held, target, (count, saved))
    ensures SoundChoice(vals, held, target, Minimize(max, count, top, target, vals, held, saved))
  {
    hide Trimmed, Total, Chain, Change, Count;
    var w := Trimmed(vals, held, top, target);
    TrimmedFits(vals, held, top, target);
    ChainPositive(vals);
    SpendBest(vals, held, w, Total(vals, w));
    SpendFits(vals, held, |vals|, Total(vals, w));
  }

  lemma OneTotal(vals: seq<nat>, d: nat)
    requires d < |vals|
    ensures Total(vals, One(|vals|, d)) == vals[d] && Count(One(|vals|, d)) == 1
  {
    hide Total, Count;
    ZerosTotal(vals, |vals|);
    TotalUpdate(vals, Zeros(|vals|), d, 1);
  }

  lemma CalculateSound(max: int, fMinimize: bool, target: int, vals: seq<nat>, held: Counts)
    requires Sized(vals, held)
    ensures SoundChoice(vals, held, target, Calculate(max, fMinimize, target, vals, held))
  {
    hide Minimize, Over, Total, Chain, Change, Count;
    ChainPositive(vals);
    var d := FirstOver(vals, held, target, 0);
    if d >= 0 {
      OneTotal(vals, d);
      var one := One(|vals|, d);
      MinimizeSound(max, Count(Change(vals, |vals|, vals[d] - target)), TopHeld(held, d), target, vals, held, one);
    } else {
      var over := Over(vals, held, |vals|, target);
      OverFits(vals, held, |vals|, target);
      MinimizeSound(max, ChangeCount(vals, over, target), TopHeld(held, |held|), target, vals, held, over);
    }
  }

  lemma PayableFits(mints: seq<Mint>, c: Counts, held: Counts)
    requires Payable(mints, held) && Fits(c, held)
    ensures Payable(mints, c)
  {
    forall d | 0 <= d < |c| && c[d] > 0 ensures Unused(mints, d) > 0 {
      assert held[d] > 0;
    }
  }

  /** The mints can be picked when there is one of every denomination that is said to be held. */
  lemma HeldEnds(target: int, max: int, fMinimize: bool, vals: seq<nat>, mints: seq<Mint>, held: Counts)
    requires Sized(vals, held) && Payable(mints, held)
    ensures Ends(target, max, fMinimize, vals, mints, held)
  {
    hide Calculate, Payable, Ideal, Chain;
    CalculateSound(max, fMinimize, target, vals, held);
    PayableFits(mints, Calculate(max, fMinimize, target, vals, held).1, held);
  }

  // ------------------------------------------------------------------- promises

  /** A selection that is not empty: unused mints, none more often than listed, worth
      nSelectedValue, which is enough; and nCoinsReturned coins of change for the excess. */
  lemma SelectSound(target: int, value: int, max: int, fMinimize: bool, vals: seq<nat>, mints: seq<Mint>)
    requires |vals| > 0 && Chain(vals)
    ensures var held := HeldOf(mints, |vals|);
            Ends(target, max, fMinimize, vals, mints, held) &&
            var s := Select(target, value, max, fMinimize, vals, mints, held);
            s.mints != [] ==>
              && multiset(s.mints) <= multiset(mints) && NoneUsed(s.mints)
              && Worth(vals, s.mints) == s.nSelectedValue >= target
              && s.nCoinsReturned == Count(Change(vals, |vals|, s.nSelectedValue - target))
  {
    hide Calculate, Chain, Total, Change, Count, PickAll, Payable, Spend, NoneUsed, Worth, IsSound;
    ChainPositive(vals);
    var held := HeldOf(mints, |vals|);
    PickAllWithin(mints, held);
    HeldEnds(target, max, fMinimize, vals, mints, held);
    var ideal := Spend(vals, held, |vals|, target);
    SpendFits(vals, held, |vals|, target);
    if Total(vals, ideal) == target {
      ChangeNone(vals, |vals|, 0);
      ChoiceSound(vals, mints, target, ideal, 0, 0);
    }
    var (count, used) := Calculate(max, fMinimize, target, vals, held);
    CalculateSound(max, fMinimize, target, vals, held);
    if count > 0 {
      ChangeNone(vals, |vals|, Total(vals, used) - target);
      var needed := Select(target, value, max, fMinimize, vals, mints, held).nNeededSpends;
      ChoiceSound(vals, mints, target, used, count, needed);
    }
    SoundParts(vals, mints, target, Select(target, value, max, fMinimize, vals, mints, held));
  }

  ghost predicate IsSound(vals: seq<nat>, mints: seq<Mint>, target: int, s: Selection)
    requires forall i :: 0 <= i < |vals| ==> vals[i] > 0
  {
    && multiset(s.mints) <= multiset(mints) && NoneUsed(s.mints)
    && Worth(vals, s.mints) == s.nSelectedValue >= target
    && s.nCoinsReturned == Count(Change(vals, |vals|, s.nSelectedValue - target))
  }

  lemma SoundParts(vals: seq<nat>, mints: seq<Mint>, target: int, s: Selection)
    requires forall i :: 0 <= i < |vals| ==> vals[i] > 0
    ensures IsSound(vals, mints, target, s) ==>
              && multiset(s.mints) <= multiset(mints) && NoneUsed(s.mints)
              && Worth(vals, s.mints) == s.nSelectedValue >= target
              && s.nCoinsReturned == Count(Change(vals, |vals|, s.nSelectedValue - target))
  {
  }

  lemma ChoiceSound(vals: seq<nat>, mints: seq<Mint>, target: int, c: Counts, count: nat, needed: int)
    requires (forall i :: 0 <= i < |vals| ==> vals[i] > 0) && |c| == |vals| && Fits(c, HeldOf(mints, |vals|))
    requires Total(vals, c) >= target && count == Count(Change(vals, |vals|, Total(vals, c) - target))
    ensures Payable(mints, c)
    ensures IsSound(vals, mints, target, Selection(PickAll(mints, c), Total(vals, c), count, needed))
  {
    hide PickAll, Worth, Total, Count, NoneUsed, Payable, Change;
    PickSound(vals, mints, c);
  }

  lemma PickSound(vals: seq<nat>, mints: seq<Mint>, c: Counts)
    requires |c| == |vals| && Fits(c, HeldOf(mints, |vals|))
    ensures Payable(mints, c)
    ensures var p := PickAll(mints, c);
            && multiset(p) <= multiset(mints) && NoneUsed(p) && Worth(vals, p) == Total(vals, c) && |p| == Count(c)
  {
    hide PickAll, Worth, Total, Count, NoneUsed, Payable;
    PickAllWithin(mints, c);
    PickAllWorth(vals, mints, c);
  }

  /** ... so a list without duplicates gives a selection without duplicates. */
  lemma SelectDistinct(target: int, value: int, max: int, fMinimize: bool, vals: seq<nat>, mints: seq<Mint>)
    requires |vals| > 0 && Chain(vals) && Distinct(mints)
    ensures Ends(target, max, fMinimize, vals, mints, HeldOf(mints, |vals|))
    ensures Distinct(Select(target, value, max, fMinimize, vals, mints, HeldOf(mints, |vals|)).mints)
  {
    hide Select, Chain;
    SelectSound(target, value, max, fMinimize, vals, mints);
    var s := Select(target, value, max, fMinimize, vals, mints, HeldOf(mints, |vals|)).mints;
    if s != [] { DistinctWithin(s, mints); }
  }

  /** An exact choice is made whenever there is one with few enough coins, and then with the
      fewest coins possible; otherwise there is change or nothing. */
  lemma SelectExact(target: int, value: int, max: int, fMinimize: bool, vals: seq<nat>, mints: seq<Mint>, c: Counts)
    requires |vals| > 0 && Chain(vals)
    requires |c| == |vals| && Fits(c, HeldOf(mints, |vals|)) && Total(vals, c) == target
    requires max < 0 || Count(c) <= max
    ensures Ends(target, max, fMinimize, vals, mints, HeldOf(mints, |vals|))
    ensures var s := Select(target, value, max, fMinimize, vals, mints, HeldOf(mints, |vals|));
            && Worth(vals, s.mints) == s.nSelectedValue == target && s.nCoinsReturned == 0
            && |s.mints| <= Count(c)
  {
    hide Calculate, Chain, Total, Change, Count, PickAll, Payable;
    ChainPositive(vals);
    var held := HeldOf(mints, |vals|);
    PickAllWithin(mints, held);
    HeldEnds(target, max, fMinimize, vals, mints, held);
    SpendBest(vals, held, c, target);
    var ideal := Spend(vals, held, |vals|, target);
    SpendFits(vals, held, |vals|, target);
    PickAllWithin(mints, ideal);
    PickAllWorth(vals, mints, ideal);
  }

  lemma {:induction false} LessAtLeast(vals: seq<nat>, c: Counts, d: Counts)
    requires |d| == |c| <= |vals|
    ensures Total(vals, Less(c, d)) >= Total(vals, c) - Total(vals, d)
  {
    hide Total, Count;
    if c == [] {
      TotalNone(vals);
    } else {
      var n := |c| - 1;
      TotalLast(vals, c);
      TotalLast(vals, d);
      TotalLast(vals, Less(c, d));
      assert Less(c, d)[..n] == Less(c[..n], d[..n]);
      LessAtLeast(vals, c[..n], d[..n]);
      Distribute(c[n], d[n], vals[n]);
      if c[n] < d[n] { Scale(c[n], d[n], vals[n]); }
    }
  }

  lemma {:induction false} TotalMod(vals: seq<nat>, c: Counts)
    requires Chain(vals) && |c| <= |vals| && |vals| > 0
    ensures Total(vals, c) % vals[0] == 0
  {
    hide Total, Count, Chain;
    ChainPositive(vals);
    if c == [] {
      TotalNone(vals);
    } else {
      var n := |c| - 1;
      TotalLast(vals, c);
      TotalMod(vals, c[..n]);
      FirstDivides(vals, n);
      MulMod(c[n], vals[n], vals[0]);
      ModAdd(Total(vals, c[..n]), c[n] * vals[n], vals[0]);
    }
  }

  lemma {:induction false} FirstDivides(vals: seq<nat>, i: nat)
    requires Chain(vals) && i < |vals|
    ensures vals[i] % vals[0] == 0
  {
    if i > 0 {
      FirstDivides(vals, i - 1);
      ModTrans(vals[i], vals[i - 1], vals[0]);
    }
  }

  lemma ModAdd(a: nat, b: nat, w: nat)
    requires w > 0 && a % w == 0 && b % w == 0
    ensures (a + b) % w == 0
  {
    ExactQuotient(a, w);
    ExactQuotient(b, w);
    Add(a / w, b / w, w);
    MulModSelf(a / w + b / w, w);
  }

  /** The difference of two multiples is none or at least one whole. */
  lemma ModGap(a: nat, b: nat, w: nat)
    requires w > 0 && a % w == 0 && b % w == 0 && a > b
    ensures a - b >= w
  {
    ExactQuotient(a, w);
    ExactQuotient(b, w);
    if a / w <= b / w { Scale(a / w, b / w, w); }
    Scale(b / w + 1, a / w, w);
    Add(b / w, 1, w);
  }

  lemma {:induction false} TotalFits(vals: seq<nat>, c: Counts, held: Counts)
    requires |c| == |held| <= |vals| && Fits(c, held)
    ensures Total(vals, c) <= Total(vals, held)
  {
    hide Total, Count;
    if c == [] {
      TotalNone(vals);
    } else {
      var n := |c| - 1;
      TotalLast(vals, c);
      TotalLast(vals, held);
      TotalFits(vals, c[..n], held[..n]);
      Scale(c[n], held[n], vals[n]);
    }
  }

  lemma {:induction false} ZeroTail(vals: seq<nat>, s: Counts, m: nat)
    requires |s| + m <= |vals|
    ensures Total(vals, s + Zeros(m)) == Total(vals, s)
  {
    if m == 0 {
      assert s + Zeros(m) == s;
    } else {
      assert (s + Zeros(m))[..|s| + m - 1] == s + Zeros(m - 1);
      ZeroTail(vals, s, m - 1);
    }
  }

  lemma ChangePositive(vals: seq<nat>, c: Counts, target: int)
    requires Chain(vals) && |c| == |vals| > 0 && target > 0 && target % vals[0] == 0
    ensures ChangeCount(vals, c, target) > 0 <==> Total(vals, c) > target
  {
    hide Total, Change, Count, Chain;
    ChainPositive(vals);
    ChangeNone(vals, |vals|, Total(vals, c) - target);
    TotalMod(vals, c);
    if Total(vals, c) > target { ModGap(Total(vals, c), target, vals[0]); }
  }

  lemma {:induction false} OverReaches(vals: seq<nat>, held: Counts, n: nat, r: int)
    requires n <= |held| && n <= |vals| && Chain(vals) && r <= Total(vals, held[..n])
    ensures Total(vals, Over(vals, held, n, r)) >= r
  {
    hide TakeOver, Total, Count, Chain;
    ChainPositive(vals);
    if n == 0 {
      assert held[..0] == [];
      TotalNone(vals);
    } else {
      var v := vals[n - 1];
      var k := TakeOver(v, held[n - 1], r);
      assert held[..n][..n - 1] == held[..n - 1];
      TotalLast(vals, held[..n]);
      TotalAppend(vals, Over(vals, held, n - 1, r - k * v), k);
      if k == held[n - 1] { OverReaches(vals, held, n - 1, r - k * v); }
    }
  }
}

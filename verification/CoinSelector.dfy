/** The loops of src/denomination_functions.cpp. A do-while loop runs its body once before its
    condition is tested; `again` says whether it runs once more. */
module CoinSelector {
  import opened Arith
  import opened Denominations
  import opened CoinSelection

  method GetNumberOfCoinsUsed(c: Counts) returns (n: nat)
    ensures n == Count(c)
  {
    n := 0;
    for i := 0 to |c|
      invariant n == Count(c[..i])
    {
      assert c[..i + 1][..i] == c[..i];
      n := n + c[i];
    }
    assert c[..|c|] == c;
  }

  method GetMaxDenomHeld(held: Counts, below: nat) returns (d: int)
    requires below <= |held|
    ensures d == TopHeld(held, below)
  {
    for i := below downto 0
      invariant TopHeld(held, below) == TopHeld(held, i)
    {
      if held[i] != 0 { return i; }
    }
    d := -1;
  }

  /** Taking one coin more is possible exactly when the coins taken are not yet all that fit. */
  lemma TakeMore(v: nat, have: nat, r: int, u: nat)
    requires v > 0 && u <= Take(v, have, r)
    ensures r - u * v >= v && u < have <==> u < Take(v, have, r)
    ensures (u + 1) * v == u * v + v
  {
    var k := Take(v, have, r);
    Add(u, 1, v);
    if u < k { Scale(u + 1, k, v); }
  }

  lemma TakeOverMore(v: nat, have: nat, r: int, u: nat)
    requires v > 0 && u <= TakeOver(v, have, r)
    ensures r - u * v > 0 && u < have <==> u < TakeOver(v, have, r)
    ensures (u + 1) * v == u * v + v
  {
    var k := TakeOver(v, have, r);
    Add(u, 1, v);
    if u < k { Scale(u, k - 1, v); }
  }

  /** The inner loop of getSpendCoins. */
  method TakeCoins(v: nat, have: nat, r: int) returns (k: nat, remaining: int)
    requires v > 0
    ensures k == Take(v, have, r) && remaining == r - k * v
  {
    k, remaining := 0, r;
    var again := true;
    while again
      invariant k <= Take(v, have, r) && remaining == r - k * v
      invariant !again ==> k == Take(v, have, r)
      decreases Take(v, have, r) - k, again
    {
      TakeMore(v, have, r, k);
      if remaining >= v && k < have {
        k, remaining := k + 1, remaining - v;
        TakeMore(v, have, r, k);
      }
      again := remaining >= v && k < have;
    }
  }

  method GetSpendCoins(vals: seq<nat>, target: int, held: Counts) returns (used: Counts)
    requires Sized(vals, held)
    ensures used == Spend(vals, held, |vals|, target)
  {
    hide Take;
    used := Zeros(|vals|);
    var remaining := target;
    for i := |vals| downto 0
      invariant |used| == |vals|
      invariant Spend(vals, held, |vals|, target) == Spend(vals, held, i, remaining) + used[i..]
    {
      ghost var start := used;
      var k, rest := TakeCoins(vals[i], held[i], remaining);
      used, remaining := used[i := k], rest;
      Spread(Spend(vals, held, i, remaining), k, start, used, i);
    }
  }

  /** The counts from `i` on, after the count at `i` has been settled. */
  lemma Spread(low: Counts, k: nat, start: Counts, used: Counts, i: nat)
    requires i < |start| && used == start[i := k]
    ensures (low + [k]) + start[i + 1..] == low + used[i..]
  {
    assert used[i..] == [k] + start[i + 1..];
  }

  /** The inner loop of getChange. */
  method TakeChange(v: nat, r: int) returns (k: nat, remaining: int)
    requires v > 0
    ensures k == TakeFree(v, r) && remaining == r - k * v
  {
    hide TakeFree;
    k, remaining := 0, r;
    var again := true;
    while again
      invariant k <= TakeFree(v, r) && remaining == r - k * v
      invariant !again ==> k == TakeFree(v, r)
      decreases TakeFree(v, r) - k, again
    {
      TakeFreeMore(v, r, k);
      if remaining >= v {
        k, remaining := k + 1, remaining - v;
        TakeFreeMore(v, r, k);
      }
      again := remaining >= v;
    }
  }

  lemma TakeFreeMore(v: nat, r: int, u: nat)
    requires v > 0 && u <= TakeFree(v, r)
    ensures r - u * v >= v <==> u < TakeFree(v, r)
    ensures (u + 1) * v == u * v + v
  {
    hide TakeFree;
    var k := TakeFree(v, r);
    Add(u, 1, v);
    if u < k { Scale(u + 1, k, v); }
  }

  method GetChange(vals: seq<nat>, target: int) returns (change: Counts)
    requires Chain(vals)
    ensures change == Change(vals, |vals|, target)
  {
    change := Zeros(|vals|);
    var remaining := target;
    for i := |vals| downto 0
      invariant |change| == |vals|
      invariant Change(vals, |vals|, target) == Change(vals, i, remaining) + change[i..]
    {
      ghost var start := change;
      var k, rest := TakeChange(vals[i], remaining);
      change, remaining := change[i := k], rest;
      Spread(Change(vals, i, remaining), k, start, change, i);
    }
  }

  /** `target` is met exactly from the unused mints, or not. */
  method GetIdealSpends(vals: seq<nat>, target: int, mints: seq<Mint>) returns (exact: bool, used: Counts)
    requires |vals| > 0 && Chain(vals)
    ensures used == Spend(vals, HeldOf(mints, |vals|), |vals|, target)
    ensures exact <==> Reachable(vals, HeldOf(mints, |vals|), target)
  {
    hide SpentAt, HeldOf, Total, Reachable, Spend, Take;
    ChainPositive(vals);
    hide Chain;
    ghost var held := HeldOf(mints, |vals|);
    used := Zeros(|vals|);
    var remaining := target;
    NothingSpent(vals, held, target);
    for i := |vals| downto 0
      invariant SpentAt(vals, held, target, i, used, remaining)
    {
      SpentStep(vals, held, target, i, used, remaining);
      var taken := TakeMints(vals[i], remaining, mints, i);
      used := used[i := taken];
      remaining := remaining - taken * vals[i];
    }
    AllSpent(vals, held, target, used, remaining);
    SpendComplete(vals, held, target);
    exact := remaining == 0;
  }

  /** What the loop has chosen when the denominations from `i` on are done. */
  ghost predicate SpentAt(vals: seq<nat>, held: Counts, target: int, i: nat, used: Counts, remaining: int)
    requires |held| == |vals| && forall i :: 0 <= i < |vals| ==> vals[i] > 0
  {
    && i <= |used| == |vals| && (forall k :: 0 <= k < i ==> used[k] == 0)
    && remaining == target - Total(vals, used)
    && Spend(vals, held, |vals|, target) == Spend(vals, held, i, remaining) + used[i..]
  }

  lemma NothingSpent(vals: seq<nat>, held: Counts, target: int)
    requires |held| == |vals| && forall i :: 0 <= i < |vals| ==> vals[i] > 0
    ensures SpentAt(vals, held, target, |vals|, Zeros(|vals|), target)
  {
    hide Total, Spend;
    ZerosTotal(vals, |vals|);
    assert Zeros(|vals|)[|vals|..] == [];
  }

  lemma SpentStep(vals: seq<nat>, held: Counts, target: int, i: nat, used: Counts, remaining: int)
    requires |held| == |vals| && i < |vals| && forall i :: 0 <= i < |vals| ==> vals[i] > 0
    requires SpentAt(vals, held, target, i + 1, used, remaining)
    ensures |used| == |vals|
    ensures var k := Take(vals[i], held[i], remaining);
            SpentAt(vals, held, target, i, used[i := k], remaining - k * vals[i])
  {
    hide Take, Total;
    var k := Take(vals[i], held[i], remaining);
    TotalUpdate(vals, used, i, k);
    Spread(Spend(vals, held, i, remaining - k * vals[i]), k, used, used[i := k], i);
  }

  lemma AllSpent(vals: seq<nat>, held: Counts, target: int, used: Counts, remaining: int)
    requires |held| == |vals| && forall i :: 0 <= i < |vals| ==> vals[i] > 0
    requires SpentAt(vals, held, target, 0, used, remaining)
    ensures used == Spend(vals, held, |vals|, target) && remaining == target - Total(vals, used)
  {
    hide Total;
    assert used[0..] == used;
  }

  /** The inner loop of getIdealSpends, over the mints. */
  method TakeMints(v: nat, r: int, mints: seq<Mint>, d: nat) returns (taken: nat)
    requires v > 0
    ensures taken == Take(v, Unused(mints, d), r)
  {
    taken := 0;
    var remaining := r;
    for j := 0 to |mints|
      invariant taken == Take(v, Unused(mints[..j], d), r) && remaining == r - taken * v
    {
      assert mints[..j + 1][..j] == mints[..j];
      UnusedPrefix(mints, j + 1, d);
      UnusedPrefix(mints, j, d);
      TakeMore(v, Unused(mints[..j], d) + 1, r, taken);
      if !mints[j].used {
        if remaining >= v && mints[j].denom == d {
          TakeOneMore(v, Unused(mints[..j], d), r);
          taken := taken + 1;
          remaining := remaining - v;
        } else {
          TakeEnough(v, Unused(mints[..j], d), Unused(mints[..j + 1], d), r, taken);
        }
        if remaining < v {
          TakeEnough(v, Unused(mints[..j + 1], d), Unused(mints, d), r, taken);
          return;
        }
      }
    }
    assert mints[..|mints|] == mints;
  }

  lemma {:induction false} UnusedPrefix(mints: seq<Mint>, j: nat, d: nat)
    requires j <= |mints|
    ensures Unused(mints[..j], d) <= Unused(mints, d)
    decreases |mints|
  {
    if j < |mints| {
      assert mints[..|mints| - 1][..j] == mints[..j];
      UnusedPrefix(mints[..|mints| - 1], j, d);
    } else {
      assert mints[..j] == mints;
    }
  }

  lemma TakeOneMore(v: nat, have: nat, r: int)
    requires v > 0 && r - Take(v, have, r) * v >= v
    ensures Take(v, have + 1, r) == Take(v, have, r) + 1
  {
    var k := Take(v, have, r);
    Add(k, 1, v);
    var m := Take(v, have + 1, r);
    if m < k + 1 { Scale(m + 1, k + 1, v); }
  }

  /** More coins do not change what is taken when no more of them fit. */
  lemma TakeEnough(v: nat, have: nat, more: nat, r: int, k: nat)
    requires v > 0 && have <= more && k == Take(v, have, r)
    requires r - k * v < v || have == more
    ensures k == Take(v, more, r)
  {
    Add(k, 1, v);
    var m := Take(v, more, r);
    if m > k { Scale(k + 1, m, v); }
    if m < k { Scale(m + 1, k, v); }
  }

  /** The do-while loop of getSpends. */
  method PickSome(mints: seq<Mint>, d: nat, wanted: nat) returns (selected: seq<Mint>)
    requires wanted > 0 ==> Unused(mints, d) > 0
    ensures selected == Passes(mints, d, wanted)
  {
    hide Matches, Picks, Unused;
    selected := [];
    var left: nat := wanted;
    var again := true;
    while again
      invariant left > 0 ==> Unused(mints, d) > 0
      invariant again || left == 0
      invariant Passes(mints, d, wanted) == selected + Passes(mints, d, left)
      decreases left, again
    {
      var picked := Pass(mints, d, left);
      selected := selected + picked;
      left := left - |picked|;
      again := left != 0;
    }
  }

  method GetSpends(vals: seq<nat>, mints: seq<Mint>, c: Counts) returns (selected: seq<Mint>, value: int)
    requires |c| <= |vals| && Payable(mints, c)
    ensures selected == PickAll(mints, c) && value == Worth(vals, selected)
  {
    hide Matches, Passes, Unused, PickAll, Worth;
    selected, value := [], 0;
    NothingPicked(vals, mints, c);
    assert c[..|c|] == c;
    for i := |c| downto 0
      invariant PickAll(mints, c) == selected + PickAll(mints, c[..i])
      invariant value == Worth(vals, selected)
    {
      var picked := PickSome(mints, i, c[i]);
      PassesMatch(mints, i, c[i]);
      MatchingWorth(vals, picked, i);
      WorthJoin(vals, selected, picked);
      PickAllNext(mints, c, i);
      selected := selected + picked;
      value := value + |picked| * vals[i];
    }
  }

  lemma NothingPicked(vals: seq<nat>, mints: seq<Mint>, c: Counts)
    ensures Worth(vals, []) == 0 && PickAll(mints, c[..0]) == []
  {
  }

  lemma PickAllNext(mints: seq<Mint>, c: Counts, i: nat)
    requires i < |c| && Payable(mints, c)
    ensures PickAll(mints, c[..i + 1]) == Passes(mints, i, c[i]) + PickAll(mints, c[..i])
  {
    hide Passes;
    assert c[..i + 1][..i] == c[..i];
  }

  /** The for loop of getSpends. */
  method Pass(mints: seq<Mint>, d: nat, wanted: nat) returns (picked: seq<Mint>)
    ensures picked == Picks(mints, d, wanted)
  {
    picked := [];
    var left := wanted;
    for j := 0 to |mints|
      invariant picked == Picks(mints[..j], d, wanted) && left == wanted - |picked|
    {
      assert mints[..j + 1][..j] == mints[..j];
      if !mints[j].used {
        if d == mints[j].denom && left != 0 {
          picked := picked + [mints[j]];
          left := left - 1;
        }
      }
    }
    assert mints[..|mints|] == mints;
  }

  /** A do-while loop of minimizeChange: greedy for one unit less. */
  method TakeBelow(v: nat, have: nat, r: int) returns (k: nat, remaining: int)
    requires v > 0
    ensures k == Take(v, have, r - 1) && remaining == r - k * v
  {
    k, remaining := 0, r;
    var again := true;
    while again
      invariant k <= Take(v, have, r - 1) && remaining == r - k * v
      invariant !again ==> k == Take(v, have, r - 1)
      decreases Take(v, have, r - 1) - k, again
    {
      TakeMore(v, have, r - 1, k);
      if remaining > v && k < have {
        k, remaining := k + 1, remaining - v;
        TakeMore(v, have, r - 1, k);
      }
      again := remaining > v && k < have;
    }
  }

  /** The first loop of minimizeChange. */
  method CloseBelow(vals: seq<nat>, target: int, held: Counts, top: int) returns (used: Counts, remaining: int)
    requires Sized(vals, held) && -1 <= top < |vals|
    ensures used == Below(vals, held, top, target) && remaining == target - Total(vals, used)
  {
    hide ClosedAt;
    used := Zeros(|vals|);
    remaining := target;
    NothingClosed(vals, held, top, target);
    for i := |vals| downto 0
      invariant ClosedAt(vals, held, top, target, i, used, remaining)
    {
      ClosedStep(vals, held, top, target, i, used, remaining);
      if i <= top {
        var k, rest := TakeBelow(vals[i], held[i], remaining);
        used, remaining := used[i := k], rest;
      }
    }
    AllClosed(vals, held, top, target, used, remaining);
  }

  /** What the loop has chosen when the denominations from `i` on are done. */
  ghost predicate ClosedAt(vals: seq<nat>, held: Counts, top: int, target: int, i: nat, used: Counts, remaining: int)
    requires Sized(vals, held) && -1 <= top < |vals|
  {
    && i <= |used| == |vals| && (forall k :: 0 <= k < i ==> used[k] == 0)
    && remaining == target - Total(vals, used)
    && (i > top ==> remaining == target && used == Zeros(|vals|))
    && (i <= top + 1 ==> Below(vals, held, top, target) == Spend(vals, held, i, remaining - 1) + used[i..])
  }

  lemma NothingClosed(vals: seq<nat>, held: Counts, top: int, target: int)
    requires Sized(vals, held) && -1 <= top < |vals|
    ensures ClosedAt(vals, held, top, target, |vals|, Zeros(|vals|), target)
  {
    hide Total, Spend, Chain;
    ZerosTotal(vals, |vals|);
    assert Zeros(|vals|)[|vals|..] == Zeros(0);
  }

  lemma ClosedStep(vals: seq<nat>, held: Counts, top: int, target: int, i: nat, used: Counts, remaining: int)
    requires Sized(vals, held) && -1 <= top < |vals| && i < |vals|
    requires ClosedAt(vals, held, top, target, i + 1, used, remaining)
    ensures vals[i] > 0 && |used| == |vals|
    ensures i > top ==> ClosedAt(vals, held, top, target, i, used, remaining)
    ensures i <= top ==>
              var k := Take(vals[i], held[i], remaining - 1);
              ClosedAt(vals, held, top, target, i, used[i := k], remaining - k * vals[i])
  {
    ChainPositive(vals);
    hide ClosedAt, Take, Chain;
    if i > top {
      ClosedSkip(vals, held, top, target, i, used, remaining);
    } else {
      ClosedTake(vals, held, top, target, i, used, remaining);
    }
  }

  lemma ClosedSkip(vals: seq<nat>, held: Counts, top: int, target: int, i: nat, used: Counts, remaining: int)
    requires Sized(vals, held) && -1 <= top < |vals| && i < |vals| && i > top
    requires ClosedAt(vals, held, top, target, i + 1, used, remaining)
    ensures ClosedAt(vals, held, top, target, i, used, remaining) && |used| == |vals|
  {
    BelowIs(vals, held, top, target);
    hide Total, Chain, Below, Spend;
    assert used[i..] == Zeros(|vals| - i);
  }

  lemma ClosedTake(vals: seq<nat>, held: Counts, top: int, target: int, i: nat, used: Counts, remaining: int)
    requires Sized(vals, held) && -1 <= top < |vals| && i < |vals| && i <= top && vals[i] > 0
    requires ClosedAt(vals, held, top, target, i + 1, used, remaining)
    ensures |used| == |vals|
    ensures var k := Take(vals[i], held[i], remaining - 1);
            ClosedAt(vals, held, top, target, i, used[i := k], remaining - k * vals[i])
  {
    ChainPositive(vals);
    hide Take, Total, Chain, Below, Spend;
    var v := vals[i];
    var k := Take(v, held[i], remaining - 1);
    TotalUpdate(vals, used, i, k);
    SpendNext(vals, held, i, remaining - 1);
    assert remaining - 1 - k * v == remaining - k * v - 1;
    Spread(Spend(vals, held, i, remaining - k * v - 1), k, used, used[i := k], i);
  }

  lemma SpendNext(vals: seq<nat>, held: Counts, i: nat, r: int)
    requires i < |vals| && i < |held| && forall i :: 0 <= i < |vals| ==> vals[i] > 0
    ensures var k := Take(vals[i], held[i], r);
            Spend(vals, held, i + 1, r) == Spend(vals, held, i, r - k * vals[i]) + [k]
  {
  }

  lemma BelowIs(vals: seq<nat>, held: Counts, top: int, target: int)
    requires Sized(vals, held) && -1 <= top < |vals|
    ensures (forall i :: 0 <= i < |vals| ==> vals[i] > 0)
    ensures Below(vals, held, top, target)
         == Spend(vals, held, top + 1, target - 1) + Zeros(|vals| - top - 1)
  {
  }

  lemma AllClosed(vals: seq<nat>, held: Counts, top: int, target: int, used: Counts, remaining: int)
    requires Sized(vals, held) && -1 <= top < |vals| && ClosedAt(vals, held, top, target, 0, used, remaining)
    ensures used == Below(vals, held, top, target) && remaining == target - Total(vals, used)
  {
    hide Total, Below;
    assert used[0..] == used;
  }

  /** The second loop, which adds one coin that covers what remains. */
  method AddCover(vals: seq<nat>, held: Counts, below: Counts, r: int) returns (used: Counts)
    requires Sized(vals, held) && |below| == |vals|
    ensures var d := Cover(vals, held, below, r, 0);
            used == if d < 0 then below else below[d := below[d] + 1]
  {
    used := below;
    for i := 0 to |vals|
      invariant used == below && Cover(vals, held, below, r, 0) == Cover(vals, held, below, r, i)
    {
      if vals[i] > r && used[i] < held[i] {
        used := used[i := used[i] + 1];
        return;
      }
      if r < 0 { break; }
    }
  }

  /** The third loop, which drops coins that would come back as change. */
  method DropOverlap(vals: seq<nat>, used: Counts, change: Counts) returns (trimmed: Counts)
    requires |used| == |change|
    ensures trimmed == Less(used, change)
  {
    trimmed := used;
    var left := change;
    for i := 0 to |used|
      invariant |trimmed| == |left| == |used|
      invariant forall k :: 0 <= k < i ==> trimmed[k] == Less(used, change)[k]
      invariant forall k :: i <= k < |used| ==> trimmed[k] == used[k] && left[k] == change[k]
    {
      ghost var start := trimmed;
      var again := true;
      while again
        invariant |trimmed| == |left| == |used| && trimmed == start[i := trimmed[i]]
        invariant trimmed[i] <= used[i] && left[i] <= change[i] && used[i] - trimmed[i] == change[i] - left[i]
        invariant forall k :: i < k < |used| ==> left[k] == change[k]
        invariant again || left[i] == 0 || trimmed[i] == 0
        decreases left[i], again
      {
        if left[i] != 0 && trimmed[i] != 0 {
          trimmed := trimmed[i := trimmed[i] - 1];
          left := left[i := left[i] - 1];
        }
        again := left[i] != 0 && trimmed[i] != 0;
      }
    }
  }

  /** The running amount of the code is what the counts are worth. */
  method Worthiness(vals: seq<nat>, c: Counts) returns (amount: nat)
    requires |c| <= |vals|
    ensures amount == Total(vals, c)
  {
    amount := 0;
    for i := 0 to |c|
      invariant amount == Total(vals, c[..i])
    {
      assert c[..i + 1][..i] == c[..i];
      amount := amount + c[i] * vals[i];
    }
    assert c[..|c|] == c;
  }

  method MinimizeChange(max: int, count: nat, top: int, target: int, vals: seq<nat>, held: Counts, saved: Counts)
    returns (changeCount: nat, used: Counts)
    requires Sized(vals, held) && -1 <= top < |vals|
    ensures (changeCount, used) == Minimize(max, count, top, target, vals, held, saved)
  {
    hide Total, Chain, Below, Cover, Less, Spend, Change, Count;
    var below, remaining := CloseBelow(vals, target, held, top);
    used := AddCover(vals, held, below, remaining);
    var amountUsed := Worthiness(vals, used);
    var change := GetChange(vals, amountUsed - target);
    used := DropOverlap(vals, used, change);
    amountUsed := Worthiness(vals, used);
    used := GetSpendCoins(vals, amountUsed, held);
    var coinCount := GetNumberOfCoinsUsed(used);
    change := GetChange(vals, amountUsed - target);
    var altCount := GetNumberOfCoinsUsed(change);
    if altCount < count && coinCount <= max {
      changeCount := altCount;
    } else {
      changeCount, used := count, saved;
    }
  }

  /** A do-while loop of calculateChange. */
  method TakeUntil(v: nat, have: nat, r: int) returns (k: nat, remaining: int)
    requires v > 0
    ensures k == TakeOver(v, have, r) && remaining == r - k * v
  {
    k, remaining := 0, r;
    var again := true;
    while again
      invariant k <= TakeOver(v, have, r) && remaining == r - k * v
      invariant !again ==> k == TakeOver(v, have, r)
      invariant again ==> k == 0 || (remaining > 0 && k < have)
      decreases TakeOver(v, have, r) - k, again
    {
      TakeOverMore(v, have, r, k);
      if have != 0 && remaining > 0 {
        k, remaining := k + 1, remaining - v;
        TakeOverMore(v, have, r, k);
      }
      again := remaining > 0 && k < have;
    }
  }

  /** The loop of calculateChange that exceeds the target from the top. */
  method TakeUntilOver(vals: seq<nat>, target: int, held: Counts) returns (used: Counts)
    requires Sized(vals, held)
    ensures used == Over(vals, held, |vals|, target)
  {
    hide TakeOver;
    used := Zeros(|vals|);
    var remaining := target;
    for i := |vals| downto 0
      invariant |used| == |vals| && forall k :: 0 <= k < i ==> used[k] == 0
      invariant Over(vals, held, |vals|, target) == Over(vals, held, i, remaining) + used[i..]
    {
      ghost var start := used;
      var k, rest := TakeUntil(vals[i], held[i], remaining);
      used, remaining := used[i := k], rest;
      Spread(Over(vals, held, i, remaining), k, start, used, i);
      if remaining < 0 {
        OverNone(vals, held, i, remaining);
        assert used == Zeros(i) + used[i..];
        return;
      }
    }
  }

  lemma {:induction false} OverNone(vals: seq<nat>, held: Counts, n: nat, r: int)
    requires n <= |held| && n <= |vals| && Chain(vals) && r < 0
    ensures Over(vals, held, n, r) == Zeros(n)
  {
    if n > 0 { OverNone(vals, held, n - 1, r); }
  }

  method FindFirstOver(vals: seq<nat>, held: Counts, target: int) returns (d: int)
    requires |held| == |vals|
    ensures d == FirstOver(vals, held, target, 0)
  {
    for i := 0 to |vals|
      invariant FirstOver(vals, held, target, 0) == FirstOver(vals, held, target, i)
    {
      if target < vals[i] && held[i] > 0 { return i; }
    }
    d := -1;
  }

  method CalculateChange(max: int, fMinimize: bool, target: int, vals: seq<nat>, held: Counts)
    returns (changeCount: nat, used: Counts)
    requires Sized(vals, held)
    ensures (changeCount, used) == Calculate(max, fMinimize, target, vals, held)
  {
    hide Minimize, Over, Change, Count, Total;
    var d := FindFirstOver(vals, held, target);
    if d >= 0 {
      used := One(|vals|, d);
      var change := GetChange(vals, vals[d] - target);
      changeCount := GetNumberOfCoinsUsed(change);
      if fMinimize {
        var top := GetMaxDenomHeld(held, d);
        var newCount, newUsed := MinimizeChange(max, changeCount, top, target, vals, held, used);
        if newCount < changeCount { return newCount, newUsed; }
      }
    } else {
      var over := TakeUntilOver(vals, target, held);
      var amountUsed := Worthiness(vals, over);
      var change := GetChange(vals, amountUsed - target);
      changeCount := GetNumberOfCoinsUsed(change);
      var top := GetMaxDenomHeld(held, |held|);
      var newCount, newUsed := MinimizeChange(max, changeCount, top, target, vals, held, over);
      var coinCount := GetNumberOfCoinsUsed(over);
      var spends := GetNumberOfCoinsUsed(newUsed);
      if !fMinimize && coinCount < spends { return changeCount, over; }
      changeCount, used := newCount, newUsed;
    }
  }

  method SelectMintsFromList(target: int, value: int, max: int, fMinimize: bool, vals: seq<nat>, mints: seq<Mint>,
                             held: Counts)
    returns (s: Selection)
    requires Sized(vals, held) && Ends(target, max, fMinimize, vals, mints, held)
    ensures s == Select(target, value, max, fMinimize, vals, mints, held)
  {
    hide Calculate, PickAll, Chain;
    ChainPositive(vals);
    var needed, selected, nSelectedValue := 0, [], value;
    var exact, used := GetIdealSpends(vals, target, mints);
    SpendComplete(vals, HeldOf(mints, |vals|), target);
    if exact {
      SpendFits(vals, HeldOf(mints, |vals|), |vals|, target);
      PickAllWithin(mints, used);
      PickAllWorth(vals, mints, used);
      selected, nSelectedValue := GetSpends(vals, mints, used);
      if max < 0 || |selected| <= max {
        return Selection(selected, nSelectedValue, 0, 0);
      }
      needed := |selected|;
    }
    var count, choice := CalculateChange(max, fMinimize, target, vals, held);
    if count == 0 {
      return Selection([], nSelectedValue, 0, needed);
    }
    CalculateSound(max, fMinimize, target, vals, held);
    PickAllWorth(vals, mints, choice);
    selected, nSelectedValue := GetSpends(vals, mints, choice);
    s := Selection(selected, nSelectedValue, count, needed);
  }
}

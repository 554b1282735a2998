/** How many pointers of the skip list the search for an ancestor follows: at most 110 below height
    2^18, and never more than about a quarter of the square of the number of bits, which it needs. */
module SkipSteps {
  import opened Arith
  import opened Bits
  import opened SkipList

  // ------------------------------------------------------------------------ blocks

  /** The same number but for the lowest `e` bits. */
  predicate SameBlock(a: nat, b: nat, e: nat) {
    if e == 0 then a == b else SameBlock(a / 2, b / 2, e - 1)
  }

  /** The lowest `e` bits are off. */
  predicate BlockStart(n: nat, e: nat) {
    e == 0 || (n % 2 == 0 && BlockStart(n / 2, e - 1))
  }

  /** `h` is one of the 2^e heights from `mid` on. */
  predicate InBlock(h: nat, mid: nat, e: nat) {
    SameBlock(h, mid, e) && BlockStart(mid, e)
  }

  /** The first number of a block has the fewest bits, and no other has more than `e` more. */
  lemma {:induction false} OnesBlock(h: nat, mid: nat, e: nat)
    requires InBlock(h, mid, e)
    ensures mid <= h && Ones(mid) <= Ones(h) <= Ones(mid) + e
    ensures h > mid ==> Ones(h) > Ones(mid)
  {
    if e > 0 { OnesBlock(h / 2, mid / 2, e - 1); }
  }

  lemma {:induction false} BlockBetween(a: nat, x: nat, b: nat, e: nat)
    requires SameBlock(a, b, e) && a <= x <= b
    ensures SameBlock(x, b, e) && SameBlock(a, x, e)
  {
    if e > 0 { BlockBetween(a / 2, x / 2, b / 2, e - 1); }
  }

  lemma {:induction false} SameSymmetric(a: nat, b: nat, e: nat)
    requires SameBlock(a, b, e)
    ensures SameBlock(b, a, e)
  {
    if e > 0 { SameSymmetric(a / 2, b / 2, e - 1); }
  }

  lemma {:induction false} SameSelf(n: nat, e: nat)
    ensures SameBlock(n, n, e)
  {
    if e > 0 { SameSelf(n / 2, e - 1); }
  }

  lemma {:induction false} SameMore(a: nat, b: nat, e: nat, f: nat)
    requires SameBlock(a, b, e) && e <= f
    ensures SameBlock(a, b, f)
  {
    if e > 0 { SameMore(a / 2, b / 2, e - 1, f - 1); } else { SameSelf(a, f); }
  }

  /** Lower numbers of the block, down to its first one. */
  lemma BlockBelow(h: nat, mid: nat, e: nat, n: nat)
    requires InBlock(h, mid, e) && mid <= n <= h
    ensures InBlock(n, mid, e)
  {
    SameSymmetric(h, mid, e);
    BlockBetween(mid, n, h, e);
    SameSymmetric(mid, n, e);
  }

  /** Only the first number of a block leaves it when its lowest bit is taken off. */
  lemma {:induction false} OffInBlock(h: nat, mid: nat, e: nat)
    requires InBlock(h, mid, e) && h > mid
    ensures InvertLowestOne(h) >= mid
  {
    if h % 2 == 0 { OffInBlock(h / 2, mid / 2, e - 1); }
  }

  /** One bit less, still in the block. */
  lemma OffOne(h: nat, mid: nat, e: nat)
    requires InBlock(h, mid, e) && h > mid
    ensures var n := InvertLowestOne(h);
            && n < h && InBlock(n, mid, e) && Ones(n) == Ones(h) - 1
            && (n == mid <==> Ones(h) == Ones(mid) + 1)
  {
    hide SameBlock, BlockStart, Ones, InvertLowestOne;
    OffInBlock(h, mid, e);
    BlockBelow(h, mid, e, InvertLowestOne(h));
    OnesOff(h);
    OnesBlock(InvertLowestOne(h), mid, e);
  }

  /** Without the lowest three bits. */
  lemma BlockEighth(h: nat, mid: nat, e: nat)
    requires InBlock(h, mid, e) && e >= 3
    ensures mid == 8 * (mid / 8) && InBlock(h / 8, mid / 8, e - 3)
  {
    Halved(h, mid, e);
    Halved(h / 2, mid / 2, e - 1);
    Halved(h / 2 / 2, mid / 2 / 2, e - 2);
    assert h / 2 / 2 / 2 == h / 8 && mid / 2 / 2 / 2 == mid / 8;
  }

  lemma Halved(h: nat, mid: nat, e: nat)
    requires InBlock(h, mid, e) && e > 0
    ensures mid % 2 == 0 && InBlock(h / 2, mid / 2, e - 1)
  {
  }

  /** The first number of a block. */
  function Start(n: nat, e: nat): (s: nat)
    ensures InBlock(n, s, e)
  {
    if e == 0 then n else 2 * Start(n / 2, e - 1)
  }

  /** `mid` is the first number of the upper half of a block, the target is in the lower half. */
  predicate Splits(target: nat, mid: nat) {
    InvertLowestOne(mid) <= target < mid
  }

  lemma {:induction false} LowerHalf(h: nat, target: nat, e: nat)
    requires target < h && SameBlock(h, target, e + 1) && !SameBlock(h, target, e)
    ensures Splits(target, Start(h, e)) && SameBlock(Start(h, e) - 1, target, e)
  {
    if e > 0 {
      if h / 2 == target / 2 { SameSelf(h / 2, e - 1); }
      LowerHalf(h / 2, target / 2, e - 1);
      assert (Start(h, e) - 1) / 2 == Start(h / 2, e - 1) - 1;
    }
  }

  // --------------------------------------------------------------- single steps

  lemma StepsAtMost(h: nat, target: nat)
    requires target <= h
    ensures Steps(h, target) <= h - target
  {
  }

  /** The next step leads to the skip height. */
  lemma Skipped(h: nat, target: nat)
    requires target < h && GetSkipHeight(h) >= target && (h == 1 || GetSkipHeight(h - 1) >= GetSkipHeight(h) - 2)
    ensures Steps(h, target) == 1 + Steps(GetSkipHeight(h), target)
  {
    StepsNext(h, target);
  }

  /** ... to the parent, because the skip height is too low. */
  lemma SkipTooLow(h: nat, target: nat)
    requires GetSkipHeight(h) < target < h
    ensures Steps(h, target) == 1 + Steps(h - 1, target)
  {
    StepsNext(h, target);
  }

  /** ... to the parent, and then to where it skips, which is much further. */
  lemma SkippedFar(h: nat, target: nat)
    requires h % 2 == 0 && h > 1 && target < h && GetSkipHeight(h) > target
    requires GetSkipHeight(h) - 2 > GetSkipHeight(h - 1) >= target
    ensures Steps(h, target) == 2 + Steps(GetSkipHeight(h - 1), target)
  {
    FarPrevious(h, target);
    StepsNext(h, target);
    StepsNext(h - 1, target);
    hide Steps;
  }

  /** ... to the skip height, because that of the parent is too low. */
  lemma SkippedLow(h: nat, target: nat)
    requires h > 1 && GetSkipHeight(h) >= target && GetSkipHeight(h - 1) < target < h
    ensures Steps(h, target) == 1 + Steps(GetSkipHeight(h), target)
  {
    StepsNext(h, target);
  }

  // ---------------------------------------------------------------------- a half

  /** The half has at least eight heights, and the way on from below it takes `b` steps at most;
      it takes exactly the steps of the parent of `mid` when the target is not one of the
      lowest two of the lower half. */
  ghost predicate Half(target: nat, mid: nat, e: nat, b: nat) {
    && e >= 3 && BlockStart(mid, e) && Splits(target, mid) && mid > 0
    && 1 <= b && Steps(mid - 1, target) <= b
  }

  predicate High(target: nat, mid: nat) {
    target >= InvertLowestOne(mid) + 2
  }

  /** From the first height of the half. */
  lemma FromMid(target: nat, mid: nat, e: nat, b: nat)
    requires Half(target, mid, e, b)
    ensures Steps(mid, target) <= b + 1
    ensures High(target, mid) ==> Steps(mid, target) == Steps(mid - 1, target) + 1
  {
    hide Steps, InvertLowestOne, GetSkipHeight;
    OutOfHalf(target, mid, e);
    if GetSkipHeight(mid) < target {
      SkipTooLow(mid, target);
    } else {
      Skipped(mid, target);
      StepsNone(target);
    }
  }

  lemma BlockEighthOf(mid: nat, e: nat)
    requires BlockStart(mid, e) && e >= 3
    ensures mid == 8 * (mid / 8) && BlockStart(mid / 8, e - 3)
  {
    SameSelf(mid, e);
    BlockEighth(mid, mid, e);
  }

  /** From a multiple of eight: each step takes a bit away. */
  lemma {:induction false} EightChain(q: nat, target: nat, mid: nat, e: nat, b: nat)
    requires Half(target, mid, e, b) && InBlock(q, mid / 8, e - 3)
    ensures mid == 8 * (mid / 8) && Ones(q) >= Ones(mid / 8)
    ensures target < 8 * q && Steps(8 * q, target) <= b + 1 + Ones(q) - Ones(mid / 8)
    ensures High(target, mid) ==> Steps(8 * q, target) == Steps(mid - 1, target) + 1 + Ones(q) - Ones(mid / 8)
    decreases q
  {
    hide Steps, Ones, InvertLowestOne;
    BlockEighthOf(mid, e);
    OnesBlock(q, mid / 8, e - 3);
    if q == mid / 8 {
      FromMid(target, mid, e, b);
    } else {
      OffOne(q, mid / 8, e - 3);
      SkipForms(q);
      EightChain(InvertLowestOne(q), target, mid, e, b);
      Skipped(8 * q, target);
    }
  }

  /** Where the skip pointers lead that leave the half. */
  lemma OutOfHalf(target: nat, mid: nat, e: nat)
    requires e >= 3 && BlockStart(mid, e) && Splits(target, mid)
    ensures var f := InvertLowestOne(mid);
            && f <= mid - 8 && mid == 8 * (mid / 8) && GetSkipHeight(mid) == f && GetSkipHeight(mid - 1) == mid - 7
            && GetSkipHeight(mid + 1) <= f + 1 && GetSkipHeight(mid + 2) == GetSkipHeight(mid + 4) == mid
            && GetSkipHeight(mid + 3) == GetSkipHeight(mid + 5) == f + 1 && GetSkipHeight(mid + 6) == mid + 4
  {
    BlockEighthOf(mid, e);
    hide InvertLowestOne, GetSkipHeight, BlockStart, Splits;
    OutOfEights(target, mid, mid / 8);
  }

  lemma OutOfEights(target: nat, mid: nat, q: nat)
    requires mid == 8 * q && Splits(target, mid)
    ensures var f := InvertLowestOne(mid);
            && f <= mid - 8 && GetSkipHeight(mid) == f && GetSkipHeight(mid - 1) == mid - 7
            && GetSkipHeight(mid + 1) <= f + 1 && GetSkipHeight(mid + 2) == GetSkipHeight(mid + 4) == mid
            && GetSkipHeight(mid + 3) == GetSkipHeight(mid + 5) == f + 1 && GetSkipHeight(mid + 6) == mid + 4
  {
    hide InvertLowestOne, GetSkipHeight;
    SkipForms(q);
    OffEight(q);
    OffBelow(q);
    OffBelow(InvertLowestOne(q));
  }

  lemma Leaving(s: nat, target: nat, mid: nat)
    requires Splits(target, mid) && target <= s <= InvertLowestOne(mid) + 1
    ensures Steps(s, target) <= 1 && !High(target, mid)
  {
    StepsAtMost(s, target);
  }

  /** From mid + 1. */
  lemma OneAbove(target: nat, mid: nat, e: nat, b: nat)
    requires Half(target, mid, e, b)
    ensures Steps(mid + 1, target) <= b + 2
    ensures High(target, mid) ==> Steps(mid + 1, target) == Steps(mid - 1, target) + 2
  {
    hide Steps, InvertLowestOne, GetSkipHeight;
    OutOfHalf(target, mid, e);
    FromMid(target, mid, e, b);
    var s := GetSkipHeight(mid + 1);
    if s < target {
      SkipTooLow(mid + 1, target);
    } else {
      Skipped(mid + 1, target);
      Leaving(s, target, mid);
    }
  }

  /** From a height that skips to one in the half, unless its parent skips out of it. */
  lemma SkipOrLeave(h: nat, target: nat, mid: nat, e: nat, b: nat)
    requires Half(target, mid, e, b) && h % 2 == 0 && h > 1
    requires mid <= GetSkipHeight(h) < h && GetSkipHeight(h - 1) <= InvertLowestOne(mid) + 1
    ensures target < h
    ensures Steps(h, target) <= 3 || Steps(h, target) == 1 + Steps(GetSkipHeight(h), target)
    ensures High(target, mid) ==> Steps(h, target) == 1 + Steps(GetSkipHeight(h), target)
  {
    hide Steps, InvertLowestOne, GetSkipHeight;
    OutOfHalf(target, mid, e);
    var s := GetSkipHeight(h - 1);
    if s < target {
      SkippedLow(h, target);
    } else {
      SkippedFar(h, target);
      Leaving(s, target, mid);
    }
  }

  /** From the even heights close to `mid`. */
  lemma NearMid(j: nat, target: nat, mid: nat, e: nat, b: nat)
    requires Half(target, mid, e, b) && (j == 2 || j == 4 || j == 6)
    ensures Steps(mid + j, target) <= if j == 6 then b + 3 else b + 2
    ensures High(target, mid) && j < 6 ==> Steps(mid + j, target) == Steps(mid - 1, target) + 2
  {
    hide Steps, InvertLowestOne, GetSkipHeight;
    OutOfHalf(target, mid, e);
    FromMid(target, mid, e, b);
    MidEven(mid, e);
    EvenSum(mid, j);
    hide BlockStart;
    SkipOrLeave(mid + j, target, mid, e, b);
    if j == 6 { NearMid(4, target, mid, e, b); }
  }

  lemma EvenSum(a: nat, b: nat)
    requires a % 2 == 0 && b % 2 == 0
    ensures (a + b) % 2 == 0
  {
  }

  /** From an even height with one bit more than `mid`. */
  lemma OneBit(n: nat, target: nat, mid: nat, e: nat, b: nat)
    requires Half(target, mid, e, b) && InBlock(n, mid, e) && n % 2 == 0 && n > mid && InvertLowestOne(n) == mid
    ensures Steps(n, target) <= b + 2
    ensures High(target, mid) ==> Steps(n, target) == Steps(mid - 1, target) + 2
  {
    hide Steps, SameBlock, BlockStart, Ones, InvertLowestOne, GetSkipHeight;
    var q, j := Eighths(n);
    BlockEighth(n, mid, e);
    OffEight(q);
    if j == 0 {
      OffOne(q, mid / 8, e - 3);
      EightChain(q, target, mid, e, b);
    } else {
      NearMid(j, target, mid, e, b);
    }
  }

  /** From an odd height with two bits more. */
  lemma TwoAbove(h: nat, target: nat, mid: nat, e: nat, b: nat)
    requires h > mid + 1 && h % 2 == 1 && Half(target, mid, e, b) && InBlock(h - 1, mid, e)
    requires InvertLowestOne(h - 1) == mid
    ensures Steps(h, target) <= b + 3
    ensures High(target, mid) ==> Steps(h, target) == Steps(mid - 1, target) + 3
  {
    hide Steps, SameBlock, BlockStart, InvertLowestOne, GetSkipHeight;
    OneBit(h - 1, target, mid, e, b);
    SkipTwo((h - 1) / 2);
    var s := GetSkipHeight(h);
    if s < target {
      SkipTooLow(h, target);
    } else {
      Skipped(h, target);
      Leaving(s, target, mid);
    }
  }

  /** From an odd height: each step takes two bits away. */
  lemma {:induction false} OddChain(h: nat, target: nat, mid: nat, e: nat, b: nat)
    requires Half(target, mid, e, b) && InBlock(h, mid, e) && h % 2 == 1
    ensures target < h && Ones(h) > Ones(mid)
    ensures Steps(h, target) <= b + 2 + (Ones(h) - Ones(mid)) / 2
    ensures High(target, mid) ==> Steps(h, target) == Steps(mid - 1, target) + 2 + (Ones(h) - Ones(mid)) / 2
    decreases h
  {
    hide Steps, Ones, InvertLowestOne, SameBlock, BlockStart;
    OnesBlock(h, mid, e);
    MidEven(mid, e);
    var n := h - 1;
    Doubled(n / 2);
    BlockBelow(h, mid, e, n);
    if n == mid {
      OneAbove(target, mid, e, b);
    } else {
      OffOne(n, mid, e);
      OnesBlock(n, mid, e);
      var f := InvertLowestOne(n);
      OnesBlock(f, mid, e);
      if f == mid {
        TwoAbove(h, target, mid, e, b);
      } else {
        OffOne(f, mid, e);
        OnesBlock(f, mid, e);
        var g := InvertLowestOne(f);
        OnesBlock(g, mid, e);
        OffIsEven(n);
        OffIsEven(f);
        Doubled(g / 2);
        SkipTwo(n / 2);
        BlockBelow(h, mid, e, g + 1);
        OddChain(g + 1, target, mid, e, b);
        SkipOfParent(n);
        Skipped(h, target);
      }
    }
  }

  lemma MidEven(mid: nat, e: nat)
    requires BlockStart(mid, e) && e > 0
    ensures mid % 2 == 0
  {
  }

  lemma OffIsEven(n: nat)
    requires n % 2 == 0
    ensures InvertLowestOne(n) % 2 == 0
  {
  }

  lemma SkipOfParent(n: nat)
    requires n % 2 == 0 && n > 0
    ensures GetSkipHeight(n) == InvertLowestOne(n)
  {
  }

  /** From an even height that is no multiple of eight. */
  lemma EvenStart(h: nat, target: nat, mid: nat, e: nat, b: nat)
    requires Half(target, mid, e, b) && InBlock(h, mid, e) && h % 2 == 0 && h % 8 != 0
    ensures target < h && Steps(h, target) <= b + (e + 5) / 2
  {
    hide Steps, SameBlock, BlockStart, Ones, InvertLowestOne, GetSkipHeight;
    var q, low := h / 8, mid / 8;
    BlockEighth(h, mid, e);
    OnesBlock(h, mid, e);
    OnesBlock(q, low, e - 3);
    if q == low {
      NearMid(h % 8, target, mid, e, b);
    } else {
      OffOne(q, low, e - 3);
      var one := InvertLowestOne(q);
      OnesBlock(one, low, e - 3);
      SkipForms(q);
      if h % 8 != 2 {
        FarStart(h, one, target, mid, e, b);
      } else if one == low {
        OutOfHalf(target, mid, e);
        OffEight(low);
        EightChain(q, target, mid, e, b);
        SkipOrLeave(h, target, mid, e, b);
      } else {
        OffOne(one, low, e - 3);
        OnesBlock(InvertLowestOne(one), low, e - 3);
        FarStart(h, InvertLowestOne(one), target, mid, e, b);
      }
    }
  }

  /** ... when its parent skips to 8 * f + 1, far away but in the half. */
  lemma FarStart(h: nat, f: nat, target: nat, mid: nat, e: nat, b: nat)
    requires Half(target, mid, e, b) && InBlock(h, mid, e) && h % 2 == 0 && h > 1
    requires mid == 8 * (mid / 8) && f >= mid / 8 && Ones(f) < Ones(mid / 8) + e - 3
    requires GetSkipHeight(h - 1) == 8 * f + 1 < GetSkipHeight(h) - 2
    ensures target < h && Steps(h, target) <= b + (e + 5) / 2
  {
    hide Steps, SameBlock, BlockStart, Ones, InvertLowestOne, GetSkipHeight;
    OffEight(f);
    OffEight(mid / 8);
    SkipLower(h);
    BlockBelow(h, mid, e, 8 * f + 1);
    OddChain(8 * f + 1, target, mid, e, b);
    SkippedFar(h, target);
  }

  lemma SkipLower(h: nat)
    requires h > 1
    ensures GetSkipHeight(h - 1) < h - 1 && GetSkipHeight(h) < h
  {
  }

  // ------------------------------------------------------------------- all heights

  /** The steps from the last height of a block of 2^e to any height of the block, at most. */
  function FromTop(e: nat): nat {
    if e <= 3 then 4 else FromTop(e - 1) + (e - 1) / 2 + 2
  }

  /** The steps from any height of the upper half, down to below it. */
  function Entry(e: nat): nat {
    Max(Max(e - 2, (e + 5) / 2), 0)
  }

  /** The steps from any height of `m` bits to any other. */
  function Most(m: nat): nat {
    if m <= 3 then 4 else FromTop(m - 1) + Entry(m - 1)
  }

  /** In a block of eight it takes four steps at most. */
  lemma LowSteps(h: nat, target: nat)
    requires target <= h && h / 8 == target / 8
    ensures Steps(h, target) <= 4
    ensures h % 8 == 7 && target % 8 == 2 ==> Steps(h, target) == 4
  {
    hide Steps, InvertLowestOne, GetSkipHeight;
    var q := h / 8;
    SkipForms(q);
    OffBelow(q);
    if h % 8 <= 4 {
      StepsAtMost(h, target);
    } else if h % 8 == 5 {
      LowFive(q, target);
    } else if h % 8 == 6 {
      LowSix(q, target);
    } else {
      LowSeven(q, target);
    }
  }

  lemma OffBelow(q: nat)
    ensures q > 0 ==> InvertLowestOne(q) < q
    ensures InvertLowestOne(q) <= q
  {
  }

  lemma LowFour(q: nat, target: nat)
    requires 8 * q <= target <= 8 * q + 4
    ensures Steps(8 * q + 4, target) <= if target >= 8 * q + 2 then 2 else 3
    ensures target == 8 * q + 2 ==> Steps(8 * q + 4, target) == 2
  {
    hide Steps, InvertLowestOne, GetSkipHeight;
    SkipForms(q);
    OffBelow(q);
    StepsAtMost(8 * q + 4, target);
    if target == 8 * q {
      SkippedHere(8 * q + 4, target);
    } else if target == 8 * q + 2 {
      SkipTooLow(8 * q + 4, target);
      SkipTooLow(8 * q + 3, target);
      StepsNone(target);
    }
  }

  /** The skip height is the target. */
  lemma SkippedHere(h: nat, target: nat)
    requires target < h && GetSkipHeight(h) == target
    ensures Steps(h, target) == 1
  {
    StepsNext(h, target);
    StepsNone(target);
  }

  lemma LowFive(q: nat, target: nat)
    requires 8 * q <= target <= 8 * q + 5
    ensures Steps(8 * q + 5, target) <= 4
  {
    var h := 8 * q + 5;
    LowFour(q, if target == h then 8 * q else target);
    hide Steps, GetSkipHeight;
    if target == h {
      StepsNone(h);
    } else {
      StepsNext(h, target);
      var n := Next(h, target);
      if n < h - 1 { StepsAtMost(n, target); }
    }
  }

  lemma LowSix(q: nat, target: nat)
    requires 8 * q <= target <= 8 * q + 6
    ensures Steps(8 * q + 6, target) <= if target >= 8 * q + 2 then 3 else 4
    ensures target == 8 * q + 2 ==> Steps(8 * q + 6, target) == 3
  {
    hide Steps, InvertLowestOne, GetSkipHeight;
    var h := 8 * q + 6;
    SkipForms(q);
    OffBelow(q);
    if target >= h - 1 {
      StepsAtMost(h, target);
    } else {
      LowFour(q, target);
      if GetSkipHeight(h - 1) < target {
        SkippedLow(h, target);
      } else {
        SkippedFar(h, target);
        StepsAtMost(GetSkipHeight(h - 1), target);
      }
    }
  }

  lemma LowSeven(q: nat, target: nat)
    requires 8 * q <= target <= 8 * q + 7
    ensures Steps(8 * q + 7, target) <= 4
    ensures target == 8 * q + 2 ==> Steps(8 * q + 7, target) == 4
  {
    hide Steps, InvertLowestOne, GetSkipHeight;
    var h := 8 * q + 7;
    SkipForms(q);
    if target == h {
      StepsNone(h);
    } else if target <= 8 * q + 1 {
      Skipped(h, target);
      StepsAtMost(8 * q + 1, target);
    } else {
      SkipTooLow(h, target);
      LowSix(q, target);
    }
  }

  /** From the last height of a block. */
  lemma {:induction false} TopSteps(h: nat, target: nat, e: nat)
    requires target <= h && SameBlock(h, target, e) && BlockStart(h + 1, e)
    ensures Steps(h, target) <= FromTop(e)
    decreases e
  {
    hide Steps, SameBlock, BlockStart, Start, Splits;
    if e <= 3 {
      SameMore(h, target, e, 3);
      SameEight(h, target);
      LowSteps(h, target);
    } else if SameBlock(h, target, e - 1) {
      StartLess(h + 1, e);
      TopSteps(h, target, e - 1);
    } else {
      var f, mid := e - 1, Start(h, e - 1);
      if h == target { SameSelf(h, f); }
      SplitAt(h, target, f);
      TopSteps(mid - 1, target, f);
      StartLess(h + 1, e);
      TopOnes(h, mid, f);
      FromTopSome(f);
      OddChain(h, target, mid, f, FromTop(f));
    }
  }

  lemma SameEight(h: nat, target: nat)
    requires SameBlock(h, target, 3)
    ensures h / 8 == target / 8
  {
    assert h / 2 / 2 / 2 == h / 8 && target / 2 / 2 / 2 == target / 8;
    assert SameBlock(h / 2, target / 2, 2) && SameBlock(h / 2 / 2, target / 2 / 2, 1);
    assert SameBlock(h / 2 / 2 / 2, target / 2 / 2 / 2, 0);
  }

  lemma {:induction false} StartLess(n: nat, e: nat)
    requires BlockStart(n, e) && e > 0
    ensures BlockStart(n, e - 1) && n % 2 == 0
  {
    if e > 1 { StartLess(n / 2, e - 1); }
  }

  /** The last height of a block has all the bits. */
  lemma {:induction false} TopOnes(h: nat, mid: nat, e: nat)
    requires InBlock(h, mid, e) && BlockStart(h + 1, e)
    ensures Ones(h) == Ones(mid) + e && (e > 0 ==> h % 2 == 1)
  {
    if e > 0 {
      assert (h + 1) / 2 == h / 2 + 1;
      TopOnes(h / 2, mid / 2, e - 1);
    }
  }

  lemma {:induction false} FromTopSome(e: nat)
    ensures FromTop(e) >= 4
  {
    if e > 3 { FromTopSome(e - 1); }
  }

  lemma SplitAt(h: nat, target: nat, e: nat)
    requires target < h && SameBlock(h, target, e + 1) && !SameBlock(h, target, e)
    ensures var mid := Start(h, e);
            mid > 0 && Splits(target, mid) && InBlock(h, mid, e) && SameBlock(mid - 1, target, e) && BlockStart(mid, e)
  {
    LowerHalf(h, target, e);
  }

  lemma {:induction false} StepsInBlock(h: nat, target: nat, m: nat)
    requires target <= h && SameBlock(h, target, m)
    ensures Steps(h, target) <= Most(m)
    decreases m
  {
    hide Steps, SameBlock, BlockStart, Start, Splits, FromTop, Most;
    MostGrows(m);
    if m <= 3 {
      SameMore(h, target, m, 3);
      SameEight(h, target);
      LowSteps(h, target);
    } else if h == target {
      StepsNone(h);
    } else if SameBlock(h, target, m - 1) {
      StepsInBlock(h, target, m - 1);
    } else {
      var e, mid := m - 1, Start(h, m - 1);
      SplitAt(h, target, e);
      TopSteps(mid - 1, target, e);
      FromTopSome(e);
      Upper(h, target, mid, e, FromTop(e));
    }
  }

  lemma MostGrows(m: nat)
    ensures m <= 3 ==> Most(m) == 4
    ensures m > 3 ==> Most(m) == FromTop(m - 1) + Entry(m - 1) && Most(m - 1) <= Most(m)
  {
    if m > 3 { FromTopSome(m - 1); }
    if m > 4 { FromTopSome(m - 2); }
  }

  /** From any height of the upper half. */
  lemma Upper(h: nat, target: nat, mid: nat, e: nat, b: nat)
    requires Half(target, mid, e, b) && InBlock(h, mid, e)
    ensures target < h && Steps(h, target) <= b + Entry(e)
  {
    hide Steps, SameBlock, BlockStart, Ones;
    OnesBlock(h, mid, e);
    if h % 2 == 1 {
      OddChain(h, target, mid, e, b);
    } else if h % 8 != 0 {
      EvenStart(h, target, mid, e, b);
    } else {
      BlockEighth(h, mid, e);
      OnesBlock(h / 8, mid / 8, e - 3);
      EightChain(h / 8, target, mid, e, b);
    }
  }

  // ----------------------------------------------------------------------- bounds

  lemma {:induction false} SmallBlock(a: nat, b: nat, m: nat)
    requires a < Pow2(m) && b < Pow2(m)
    ensures SameBlock(a, b, m)
  {
    if m > 0 { SmallBlock(a / 2, b / 2, m - 1); }
  }

  /** From any height of `m` bits, any ancestor is found in Most(m) steps. */
  lemma StepsBound(h: nat, target: nat, m: nat)
    requires target <= h < Pow2(m)
    ensures Steps(h, target) <= Most(m)
  {
    SmallBlock(h, target, m);
    StepsInBlock(h, target, m);
  }

  lemma {:induction false} PowStart(m: nat, e: nat)
    requires e <= m
    ensures BlockStart(Pow2(m), e)
    decreases e
  {
    if e > 0 { PowStart(m - 1, e - 1); }
  }

  /** A power of two has one bit. */
  lemma {:induction false} PowOne(m: nat)
    ensures InvertLowestOne(Pow2(m)) == 0 && Ones(Pow2(m)) == 1
  {
    if m > 0 {
      PowOne(m - 1);
      Doubled(Pow2(m - 1));
    } else {
      assert Ones(1) == 1 + Ones(0);
    }
  }

  lemma {:induction false} PowBlock(m: nat, n: nat)
    requires Pow2(m) <= n < 2 * Pow2(m)
    ensures InBlock(n, Pow2(m), m)
  {
    if m > 0 { PowBlock(m - 1, n / 2); }
  }

  lemma OddPow(m: nat)
    requires m > 0
    ensures (Pow2(m) - 1) % 2 == 1 && Pow2(m) == 2 * Pow2(m - 1)
  {
  }

  /** The last height of m bits takes all the steps down to 2. */
  lemma {:induction false} TopReached(m: nat)
    requires m >= 3
    ensures Pow2(m) > 2 && Steps(Pow2(m) - 1, 2) == FromTop(m)
  {
    hide Steps, Ones, InvertLowestOne, SameBlock, BlockStart;
    if m == 3 {
      assert Pow2(3) == 8;
      LowSteps(7, 2);
    } else {
      var e, mid := m - 1, Pow2(m - 1);
      TopReached(e);
      PowOne(e);
      PowStart(e, e);
      TopOfPow(e);
      OddPow(m);
      FromTopSome(e);
      OddChain(Pow2(m) - 1, 2, mid, e, FromTop(e));
    }
  }

  /** From 2^m - 8 to 2 it does take Most(m) steps: the bound is exact from m = 9 on. */
  lemma MostReached(m: nat)
    requires m >= 9
    ensures Pow2(m) >= 10 && Steps(Pow2(m) - 8, 2) == Most(m)
  {
    hide Steps, Ones, InvertLowestOne, SameBlock, BlockStart, FromTop, Pow2;
    var e, mid, low := m - 1, Pow2(m - 1), Pow2(m - 4);
    TopReached(e);
    PowOne(e);
    PowStart(e, e);
    FromTopSome(e);
    var q := 2 * low - 1;
    PowEight(m);
    assert mid / 8 == low && Pow2(m) - 8 == 8 * q;
    TopOfPow(m - 4);
    EightChain(q, 2, mid, e, FromTop(e));
  }

  /** The heights of m + 1 bits are the upper half of a block, and the last has all bits. */
  lemma TopOfPow(m: nat)
    ensures InBlock(2 * Pow2(m) - 1, Pow2(m), m) && Ones(2 * Pow2(m) - 1) == Ones(Pow2(m)) + m
  {
    PowBlock(m, 2 * Pow2(m) - 1);
    PowStart(m + 1, m);
    TopOnes(2 * Pow2(m) - 1, Pow2(m), m);
  }

  lemma PowEight(m: nat)
    requires m >= 4
    ensures Pow2(m) == 8 * Pow2(m - 3) && Pow2(m - 1) == 8 * Pow2(m - 4) && Pow2(m - 3) == 2 * Pow2(m - 4)
  {
    assert Pow2(m) == 2 * Pow2(m - 1) && Pow2(m - 1) == 2 * Pow2(m - 2) && Pow2(m - 2) == 2 * Pow2(m - 3);
  }

  function Square(n: nat): nat {
    n * n
  }

  lemma SquareNext(n: nat)
    ensures Square(n + 1) == Square(n) + 2 * n + 1
  {
    Add(n, 1, n + 1);
    Add(n, 1, n);
  }

  lemma HalfOf(n: nat)
    ensures 2 * (n / 2) == n - n % 2 && (n + 1) % 2 == 1 - n % 2 && (n + 2) % 2 == n % 2
  {
  }

  lemma FromTopNext(e: nat)
    requires e > 3
    ensures FromTop(e) == FromTop(e - 1) + (e - 1) / 2 + 2
  {
  }

  lemma {:induction false} FromTopIs(e: nat)
    requires e >= 3
    ensures 4 * FromTop(e) == Square(e) + 6 * e - 11 - (e + 1) % 2
  {
    if e > 3 {
      hide Square, FromTop;
      FromTopIs(e - 1);
      FromTopNext(e);
      SquareNext(e - 1);
      HalfOf(e - 1);
    }
  }

  /** Most(m) is about a quarter of the square of m. */
  lemma MostIs(m: nat)
    requires m >= 9
    ensures 4 * Most(m) == Square(m) + 8 * m - 28 - m % 2
  {
    hide Square, FromTop;
    FromTopIs(m - 1);
    SquareNext(m - 1);
  }

  /** The promise for heights up to 2^18, which is exact. */
  lemma StepsPromise(h: nat, target: nat)
    ensures target <= h < 0x4_0000 ==> Steps(h, target) <= 110
    ensures Steps(0x4_0000 - 8, 2) == 110
  {
    hide Steps, Most;
    MostIs(18);
    PowEighteen();
    MostReached(18);
    if target <= h < 0x4_0000 { StepsBound(h, target, 18); }
  }

  lemma PowEighteen()
    ensures Pow2(18) == 0x4_0000
  {
    PowEight(18);
    PowEight(15);
    PowEight(12);
    PowEight(9);
    PowEight(6);
    assert Pow2(3) == 8;
  }

  /** No multiple of the number of bits is enough. */
  lemma NotLogarithmic(c: nat) returns (m: nat, h: nat)
    ensures 2 <= h < Pow2(m) && Steps(h, 2) > c * m
  {
    hide Steps, Most, Pow2;
    m := 4 * c + 9;
    MostIs(m);
    MostReached(m);
    h := Pow2(m) - 8;
    Add(4 * c, 9, m);
    Assoc(4, c, m);
  }
}

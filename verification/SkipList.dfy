/** The heights of the skip list of src/chain.cpp, and how far the search for an ancestor goes. */
module SkipList {
  import opened Bits

  /** A number without its lowest bit. */
  function InvertLowestOne(n: nat): (r: nat)
    ensures r <= n && (n > 0 ==> r < n)
  {
    if n == 0 then 0 else if n % 2 == 1 then n - 1 else 2 * InvertLowestOne(n / 2)
  }

  /** That is the number with one bit off, the lowest that is on. */
  lemma {:induction false} LowestOff(n: nat) returns (k: nat)
    requires n > 0
    ensures BitAt(n, k) && (forall p :: 0 <= p < k ==> !BitAt(n, p))
    ensures !BitAt(InvertLowestOne(n), k)
    ensures forall p: nat :: p != k ==> BitAt(InvertLowestOne(n), p) == BitAt(n, p)
    decreases n
  {
    var m := InvertLowestOne(n);
    if n % 2 == 1 {
      k := 0;
      forall p: nat | p != k ensures BitAt(m, p) == BitAt(n, p) {
        assert m / 2 == n / 2;
      }
    } else {
      var j := LowestOff(n / 2);
      k := j + 1;
      assert m / 2 == InvertLowestOne(n / 2) && m % 2 == 0;
      forall p: nat | p != k ensures BitAt(m, p) == BitAt(n, p) {
        if p > 0 { assert BitAt(m / 2, p - 1) == BitAt(n / 2, p - 1); }
      }
      forall p | 0 <= p < k ensures !BitAt(n, p) {
        if p > 0 { assert !BitAt(n / 2, p - 1); }
      }
    }
  }

  function GetSkipHeight(height: int): (h: nat)
    ensures height >= 1 ==> h < height
  {
    if height < 2 then 0
    else if height % 2 == 1 then InvertLowestOne(InvertLowestOne(height - 1)) + 1
    else InvertLowestOne(height)
  }

  // -------------------------------------------------------------- the way to an ancestor

  /** Whether the skip pointer is followed: it does not lead too far, and the parent's is not better. */
  predicate Skips(h: nat, target: nat) {
    var skip, skipPrev := GetSkipHeight(h), GetSkipHeight(h - 1);
    skip == target || (skip > target && !(skipPrev < skip - 2 && skipPrev >= target))
  }

  function Next(h: nat, target: nat): (n: nat)
    requires target < h
    ensures target <= n < h
  {
    if Skips(h, target) then GetSkipHeight(h) else h - 1
  }

  /** How many pointers are followed from height `h` to `target`. */
  function Steps(h: nat, target: nat): nat
    requires target <= h
  {
    if h == target then 0 else 1 + Steps(Next(h, target), target)
  }

  /** The number of bits that are on. */
  function Ones(n: nat): nat {
    if n == 0 then 0 else n % 2 + Ones(n / 2)
  }

  lemma {:induction false} OnesOff(n: nat)
    requires n > 0
    ensures Ones(InvertLowestOne(n)) == Ones(n) - 1
  {
    if n % 2 == 0 {
      OnesOff(n / 2);
    }
  }

  lemma Doubled(n: nat)
    ensures InvertLowestOne(2 * n) == 2 * InvertLowestOne(n) && InvertLowestOne(2 * n + 1) == 2 * n
    ensures Ones(2 * n) == Ones(n) && Ones(2 * n + 1) == Ones(n) + 1
  {
    assert 2 * n / 2 == n && (2 * n + 1) / 2 == n;
  }

  lemma OffEight(q: nat)
    ensures InvertLowestOne(8 * q) == 8 * InvertLowestOne(q)
    ensures InvertLowestOne(8 * q + 4) == 8 * q && InvertLowestOne(8 * q + 2) == 8 * q
    ensures InvertLowestOne(8 * q + 6) == 8 * q + 4
    ensures Ones(8 * q) == Ones(q) && Ones(8 * q + 1) == Ones(q) + 1 && Ones(8 * q + 2) == Ones(q) + 1
    ensures Ones(8 * q + 4) == Ones(q) + 1 && Ones(8 * q + 6) == Ones(q) + 2
  {
    hide InvertLowestOne, Ones;
    Doubled(q);
    Doubled(2 * q);
    Doubled(2 * q + 1);
    Doubled(4 * q);
    Doubled(4 * q + 1);
    Doubled(4 * q + 2);
    Doubled(4 * q + 3);
  }

  /** The skip pointers of eight heights. */
  lemma SkipForms(q: nat)
    ensures var one := InvertLowestOne(q);
            && (q > 0 ==> GetSkipHeight(8 * q) == 8 * one && GetSkipHeight(8 * q - 1) == 8 * q - 7)
            && (q > 0 ==> GetSkipHeight(8 * q + 1) == 8 * InvertLowestOne(one) + 1)
            && GetSkipHeight(8 * q + 2) == 8 * q && GetSkipHeight(8 * q + 3) == 8 * one + 1
            && GetSkipHeight(8 * q + 4) == 8 * q && GetSkipHeight(8 * q + 5) == 8 * one + 1
            && GetSkipHeight(8 * q + 6) == 8 * q + 4 && GetSkipHeight(8 * q + 7) == 8 * q + 1
  {
    hide InvertLowestOne, Ones, GetSkipHeight;
    SkipHigh(q);
    if q > 0 {
      SkipLow(q);
      SkipHigh(q - 1);
    }
  }

  lemma SkipHigh(q: nat)
    ensures GetSkipHeight(8 * q + 2) == 8 * q && GetSkipHeight(8 * q + 3) == 8 * InvertLowestOne(q) + 1
    ensures GetSkipHeight(8 * q + 4) == 8 * q && GetSkipHeight(8 * q + 5) == 8 * InvertLowestOne(q) + 1
    ensures GetSkipHeight(8 * q + 6) == 8 * q + 4 && GetSkipHeight(8 * q + 7) == 8 * q + 1
  {
    hide InvertLowestOne, Ones, GetSkipHeight;
    OffEight(q);
    SkipTwo(4 * q + 1);
    SkipTwo(4 * q + 2);
    SkipTwo(4 * q + 3);
  }

  lemma SkipLow(q: nat)
    requires q > 0
    ensures GetSkipHeight(8 * q) == 8 * InvertLowestOne(q)
    ensures GetSkipHeight(8 * q + 1) == 8 * InvertLowestOne(InvertLowestOne(q)) + 1
  {
    hide InvertLowestOne, Ones, GetSkipHeight;
    OffEight(q);
    OffEight(InvertLowestOne(q));
    SkipTwo(4 * q);
  }

  lemma SkipTwo(n: nat)
    requires n > 0
    ensures GetSkipHeight(2 * n) == InvertLowestOne(2 * n)
    ensures GetSkipHeight(2 * n + 1) == InvertLowestOne(InvertLowestOne(2 * n)) + 1
  {
    hide InvertLowestOne;
  }

  lemma Eighths(n: nat) returns (q: nat, j: nat)
    ensures q == n / 8 && j == n % 8 && n == 8 * q + j
    ensures n % 2 == 0 ==> j == 0 || j == 2 || j == 4 || j == 6
  {
    q, j := n / 8, n % 8;
    assert n == 8 * q + j;
    assert n % 2 == j % 2;
  }

  /** When the skip pointer of the parent leads much further, it too leads to fewer bits, and it is
      followed from the parent. */
  lemma FarPrevious(h: nat, target: nat)
    requires h % 2 == 0 && h > 1 && GetSkipHeight(h - 1) < GetSkipHeight(h) - 2 && GetSkipHeight(h - 1) >= target
    ensures Ones(GetSkipHeight(h - 1)) < Ones(h)
    ensures h - 1 > target && Skips(h - 1, target)
  {
    var q, j := Eighths(h);
    FarInEight(q, j, target);
  }

  lemma FarInEight(q: nat, j: nat, target: nat)
    requires (j == 0 || j == 2 || j == 4 || j == 6) && 8 * q + j > 1
    requires target <= GetSkipHeight(8 * q + j - 1) < GetSkipHeight(8 * q + j) - 2
    ensures var h := 8 * q + j;
            Ones(GetSkipHeight(h - 1)) < Ones(h) && h - 1 > target && Skips(h - 1, target)
  {
    hide InvertLowestOne, Ones, GetSkipHeight;
    var one := InvertLowestOne(q);
    SkipForms(q);
    OffEight(q);
    OffEight(one);
    OffEight(InvertLowestOne(one));
    FewerOnes(q);
    FewerOnes(one);
  }

  lemma FewerOnes(q: nat)
    ensures InvertLowestOne(q) <= q && (q > 0 ==> Ones(InvertLowestOne(q)) == Ones(q) - 1)
    ensures q == 0 ==> InvertLowestOne(q) == 0 && Ones(q) == 0
  {
    if q > 0 { OnesOff(q); }
  }

  lemma StepsNext(h: nat, target: nat)
    requires target < h
    ensures Steps(h, target) == 1 + Steps(Next(h, target), target)
  {
  }

  lemma StepsNone(h: nat)
    ensures Steps(h, h) == 0
  {
  }
}

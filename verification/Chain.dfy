/** The block tree and the active chain of src/chain.h and src/chain.cpp, with the skip list of
    src/main.cpp. Blocks are objects, so that comparing two is comparing their identity. */
module Chain {
  import opened Arith
  import opened Bits
  import opened SkipList

  class CBlockIndex {
    const hash: nat
    const nHeight: nat
    const pprev: CBlockIndex?
    const pskip: CBlockIndex?

    /** As a new block enters the block index; the skip pointer is built from the parent's. */
    constructor (hash: nat, pprev: CBlockIndex?)
      requires pprev != null ==> InTree(pprev)
      ensures this.hash == hash && this.pprev == pprev
      ensures nHeight == if pprev == null then 0 else pprev.nHeight + 1
      ensures InTree(this)
    {
      this.hash, this.pprev := hash, pprev;
      if pprev == null {
        this.nHeight, this.pskip := 0, null;
      } else {
        var height := pprev.nHeight + 1;
        var skip, _ := pprev.GetAncestor(GetSkipHeight(height));
        this.nHeight, this.pskip := height, skip;
      }
    }

    /** `steps` counts the pointers that are followed. */
    method GetAncestor(height: int) returns (p: CBlockIndex?, ghost steps: nat)
      requires InTree(this)
      ensures p == if 0 <= height <= nHeight then Ancestor(this, height) else null
      ensures steps == if 0 <= height <= nHeight then Steps(nHeight, height) else 0
    {
      TreeLinked(this);
      hide InTree, Linked, Skipping, Ancestor, Steps, GetSkipHeight;
      steps := 0;
      if height > nHeight || height < 0 { return null, steps; }
      var walk: CBlockIndex, heightWalk: int := this, nHeight;
      while heightWalk > height
        invariant InTree(walk) && walk.nHeight == heightWalk >= height
        invariant Ancestor(walk, height) == Ancestor(this, height)
        invariant steps + Steps(heightWalk, height) == Steps(nHeight, height)
        decreases heightWalk
      {
        StepsNext(heightWalk, height);
        ParentIsAncestor(walk, height);
        steps := steps + 1;
        var heightSkip := GetSkipHeight(heightWalk);
        var heightSkipPrev := GetSkipHeight(heightWalk - 1);
        if heightSkip == height
            || (heightSkip > height && !(heightSkipPrev < heightSkip - 2 && heightSkipPrev >= height)) {
          SkipIsAncestor(walk, height);
          walk := walk.pskip;
          heightWalk := heightSkip;
        } else {
          walk := walk.pprev;
          heightWalk := heightWalk - 1;
        }
      }
      StepsNone(height);
      TreeLinked(walk);
      AncestorSelf(walk);
      p := walk;
    }
  }

  /** Heights count the blocks below, down to a block without a parent. */
  predicate Linked(b: CBlockIndex)
    decreases b.nHeight
  {
    if b.pprev == null then b.nHeight == 0
    else b.nHeight == b.pprev.nHeight + 1 && Linked(b.pprev)
  }

  function Ancestor(b: CBlockIndex, h: nat): (a: CBlockIndex)
    requires Linked(b) && h <= b.nHeight
    ensures Linked(a) && a.nHeight == h
    decreases b.nHeight
  {
    if h == b.nHeight then b else Ancestor(b.pprev, h)
  }

  /** Skip pointers lead where they should, here and further down. */
  predicate Skipping(b: CBlockIndex)
    requires Linked(b)
    decreases b.nHeight
  {
    b.pprev != null ==>
      b.pskip != null && b.pskip == Ancestor(b.pprev, GetSkipHeight(b.nHeight)) && Skipping(b.pprev)
  }

  predicate InTree(b: CBlockIndex) {
    Linked(b) && Skipping(b)
  }

  lemma {:induction false} AncestorOfAncestor(b: CBlockIndex, k: nat, h: nat)
    requires Linked(b) && h <= k <= b.nHeight
    ensures Ancestor(Ancestor(b, k), h) == Ancestor(b, h)
    decreases b.nHeight
  {
    if k < b.nHeight { AncestorOfAncestor(b.pprev, k, h); }
  }

  lemma {:induction false} AncestorInTree(b: CBlockIndex, h: nat)
    requires InTree(b) && h <= b.nHeight
    ensures InTree(Ancestor(b, h))
    decreases b.nHeight
  {
    if h < b.nHeight { AncestorInTree(b.pprev, h); }
  }

  lemma ParentIsAncestor(b: CBlockIndex, h: nat)
    requires InTree(b) && h < b.nHeight
    ensures b.pprev != null && InTree(b.pprev) && b.pprev.nHeight == b.nHeight - 1
    ensures Ancestor(b.pprev, h) == Ancestor(b, h)
  {
  }

  lemma SkipIsAncestor(b: CBlockIndex, h: nat)
    requires InTree(b) && b.nHeight > 0 && h <= GetSkipHeight(b.nHeight)
    ensures b.pskip != null && InTree(b.pskip) && b.pskip.nHeight == GetSkipHeight(b.nHeight)
    ensures Ancestor(b.pskip, h) == Ancestor(b, h)
  {
    AncestorInTree(b.pprev, GetSkipHeight(b.nHeight));
    AncestorOfAncestor(b.pprev, GetSkipHeight(b.nHeight), h);
  }

  /** A block and all that it builds on, lowest first. */
  function Path(b: CBlockIndex): (p: seq<CBlockIndex?>)
    requires Linked(b)
    ensures |p| == b.nHeight + 1 && forall h :: 0 <= h <= b.nHeight ==> p[h] == Ancestor(b, h)
  {
    seq(b.nHeight + 1, h requires 0 <= h <= b.nHeight => Ancestor(b, h))
  }

  /** A vector that SetTip could have left: nothing, or the path of its last block. */
  predicate IsChain(v: seq<CBlockIndex?>) {
    v == [] || (var tip := v[|v| - 1]; tip != null && InTree(tip) && v == Path(tip))
  }

  // ------------------------------------------------------------------------ locators

  function Back(h: nat, step: nat): nat {
    Max(h - step, 0)
  }

  /** The heights in a locator. The step back doubles once more than ten are listed. */
  function LocatorHeights(h: nat, step: nat, count: nat): (l: seq<nat>)
    requires step > 0
    ensures l != [] && l[0] == h && l[|l| - 1] == 0
    ensures forall i :: 0 <= i < |l| ==> l[i] <= h
    decreases h
  {
    if h == 0 then [0] else
      [h] + LocatorHeights(Back(h, step), if count + 1 > 10 then step * 2 else step, count + 1)
  }

  predicate Descending(l: seq<nat>) {
    forall i, j :: 0 <= i < j < |l| ==> l[i] > l[j]
  }

  lemma {:induction false} LocatorDecreases(h: nat, step: nat, count: nat)
    requires step > 0
    ensures Descending(LocatorHeights(h, step, count))
    decreases h
  {
    if h > 0 {
      var rest := LocatorHeights(Back(h, step), if count + 1 > 10 then step * 2 else step, count + 1);
      LocatorDecreases(Back(h, step), if count + 1 > 10 then step * 2 else step, count + 1);
      DescendingMore(h, rest);
    }
  }

  lemma DescendingMore(h: nat, rest: seq<nat>)
    requires Descending(rest) && (rest != [] ==> rest[0] < h)
    ensures Descending([h] + rest)
  {
  }

  /** Once the step doubles every time, m more steps reach back step * (2^m - 1) blocks. */
  lemma {:induction false} LocatorLate(h: nat, step: nat, count: nat, m: nat)
    requires step > 0 && count >= 10
    ensures |LocatorHeights(h, step, count)| <= m + 1 <==> h <= step * (Pow2(m) - 1)
    decreases h
  {
    if h > 0 {
      if m == 0 {
        assert step * (Pow2(0) - 1) == 0;
      } else {
        LocatorLate(Back(h, step), step * 2, count + 1, m - 1);
        Doubling(step, Pow2(m - 1));
      }
    } else {
      ScaleRight(step, 0, Pow2(m) - 1);
    }
  }

  lemma Doubling(s: nat, p: nat)
    requires p > 0
    ensures s * (2 * p - 1) == s + (s * 2) * (p - 1)
    ensures (s * 2) * (p - 1) >= 0
  {
    ScaleRight(s * 2, 0, p - 1);
  }

  lemma {:induction false} LocatorEarly(h: nat, count: nat, m: nat)
    requires count <= 10
    ensures |LocatorHeights(h, 1, count)| <= 11 - count + m <==> h <= 9 - count + Pow2(m)
    decreases 10 - count
  {
    if count == 10 {
      LocatorLate(h, 1, count, m);
    } else if h > 0 {
      LocatorEarly(Back(h, 1), count + 1, m);
    }
  }

  /** A locator is logarithmic: it has at most 11 + m entries exactly when the block is at most
      2^m + 9 high. */
  lemma LocatorLength(h: nat, m: nat)
    ensures |LocatorHeights(h, 1, 0)| <= 11 + m <==> h <= 9 + Pow2(m)
  {
    LocatorEarly(h, 0, m);
  }

  // ------------------------------------------------------------------------ the chain

  class CChain {
    var vChain: seq<CBlockIndex?>

    constructor ()
      ensures vChain == []
    {
      vChain := [];
    }

    function Tip(): (p: CBlockIndex?)
      reads this
    {
      if |vChain| < 1 then null else vChain[|vChain| - 1]
    }

    function At(nHeight: int): CBlockIndex?
      reads this
    {
      if nHeight < 0 || nHeight >= |vChain| then null else vChain[nHeight]
    }

    predicate Contains(p: CBlockIndex)
      reads this
    {
      At(p.nHeight) == p
    }

    function Next(p: CBlockIndex): CBlockIndex?
      reads this
    {
      if Contains(p) then At(p.nHeight + 1) else null
    }

    function Height(): int
      reads this
    {
      |vChain| - 1
    }

    /** A block is contained exactly when it is in the chain, where it is at its height. */
    lemma ContainsIs(p: CBlockIndex)
      requires IsChain(vChain)
      ensures Contains(p) <==> p in vChain
      ensures Contains(p) ==> p.nHeight < |vChain| && vChain[p.nHeight] == p
      ensures Next(p) == if p in vChain && p.nHeight + 1 < |vChain| then vChain[p.nHeight + 1] else null
    {
      if p in vChain {
        var i :| 0 <= i < |vChain| && vChain[i] == p;
        AncestorInTree(Tip(), i);
      }
    }

    /** A contained block has its own ancestors in the chain, and its successor builds on it. */
    lemma ContainsBelow(p: CBlockIndex, h: nat)
      requires IsChain(vChain) && Contains(p) && h <= p.nHeight
      ensures InTree(p) && At(h) == Ancestor(p, h)
      ensures Next(p) != null ==> Next(p).pprev == p
      ensures Next(p) == null <==> p == Tip()
    {
      var tip := Tip();
      AncestorInTree(tip, p.nHeight);
      AncestorOfAncestor(tip, p.nHeight, h);
      if p.nHeight < tip.nHeight {
        AncestorOfAncestor(tip, p.nHeight + 1, p.nHeight);
      }
    }

    /** The same as rebuilding the chain from the new tip, although the loop stops at the first
        block that is in place. */
    method SetTip(pindex: CBlockIndex?)
      requires IsChain(vChain) && (pindex != null ==> InTree(pindex))
      modifies this
      ensures vChain == if pindex == null then [] else Path(pindex)
      ensures IsChain(vChain)
    {
      if pindex == null {
        vChain := [];
        return;
      }
      ghost var was := vChain;
      TreeLinked(pindex);
      AncestorSelf(pindex);
      hide InTree, Linked, Skipping, Ancestor, IsChain, Filling, Path;
      var n := pindex.nHeight + 1;
      vChain := if |vChain| >= n then vChain[..n] else vChain + seq(n - |vChain|, _ => null);
      FillingStarts(was, vChain, pindex);
      var p: CBlockIndex? := pindex;
      while p != null && vChain[p.nHeight] != p
        invariant |vChain| == n && Filling(was, vChain, pindex, p)
        invariant p != null ==> InTree(p) && p.nHeight < n && p == Ancestor(pindex, p.nHeight)
        decreases if p == null then 0 else p.nHeight + 1
      {
        Parent(pindex, p);
        FillingNext(was, vChain, pindex, p);
        vChain := vChain[p.nHeight := p];
        p := p.pprev;
      }
      FillingEnds(was, vChain, pindex, p);
    }

    /** No ancestor of `b` above height `k` is in the chain. */
    predicate NoneAbove(b: CBlockIndex, k: int)
      requires Linked(b)
      reads this
    {
      forall h :: 0 <= h <= b.nHeight && h > k ==> !Contains(Ancestor(b, h))
    }

    lemma NoneStart(b: CBlockIndex)
      requires Linked(b)
      ensures NoneAbove(b, b.nHeight) && NoneAbove(b, Height())
    {
    }

    lemma NoneNext(b: CBlockIndex, p: CBlockIndex)
      requires Linked(b) && p.nHeight <= b.nHeight && p == Ancestor(b, p.nHeight)
      requires NoneAbove(b, p.nHeight) && !Contains(p)
      ensures NoneAbove(b, p.nHeight - 1)
    {
    }

    lemma NoneIs(b: CBlockIndex, k: int)
      requires Linked(b) && IsChain(vChain) && NoneAbove(b, k)
      ensures forall h :: 0 <= h <= b.nHeight && h > k ==> Ancestor(b, h) !in vChain
    {
      hide IsChain, Contains;
      forall h | 0 <= h <= b.nHeight && h > k ensures Ancestor(b, h) !in vChain {
        ContainsIs(Ancestor(b, h));
      }
    }

    /** The highest common ancestor, if there is any. */
    method FindFork(pindex: CBlockIndex) returns (fork: CBlockIndex?)
      requires IsChain(vChain) && InTree(pindex)
      ensures fork != null ==>
              fork.nHeight <= pindex.nHeight && fork == Ancestor(pindex, fork.nHeight) && fork in vChain
      ensures forall h :: 0 <= h <= pindex.nHeight && (fork != null ==> h > fork.nHeight) ==>
              Ancestor(pindex, h) !in vChain
    {
      TreeLinked(pindex);
      AncestorSelf(pindex);
      NoneStart(pindex);
      hide InTree, Linked, Skipping, Ancestor, IsChain, Path, NoneAbove, Contains;
      fork := pindex;
      if pindex.nHeight > Height() {
        var ancestor, _ := pindex.GetAncestor(Height());
        fork := ancestor;
        if fork != null { AncestorInTree(pindex, Height()); }
      }
      while fork != null && !Contains(fork)
        invariant fork != null ==>
                InTree(fork) && fork.nHeight <= pindex.nHeight && fork == Ancestor(pindex, fork.nHeight)
        invariant NoneAbove(pindex, if fork == null then -1 else fork.nHeight)
        decreases if fork == null then 0 else fork.nHeight + 1
      {
        Parent(pindex, fork);
        NoneNext(pindex, fork);
        fork := fork.pprev;
      }
      NoneIs(pindex, if fork == null then -1 else fork.nHeight);
      if fork != null { ContainsIs(fork); }
    }

    /** By the index of the chain if the block is in it, and by the skip list otherwise. */
    method GoBack(p: CBlockIndex, nHeight: nat) returns (q: CBlockIndex)
      requires IsChain(vChain) && InTree(p) && nHeight <= p.nHeight
      ensures InTree(q) && q == Ancestor(p, nHeight)
    {
      AncestorInTree(p, nHeight);
      if Contains(p) {
        ContainsBelow(p, nHeight);
        q := At(nHeight);
      } else {
        var ancestor, _ := p.GetAncestor(nHeight);
        q := ancestor;
      }
    }

    /** The hashes at the heights of a locator, whether they are taken from the chain or from the
        skip list. Without a block it is the tip's; an empty chain has none. */
    method GetLocator(pindex: CBlockIndex?) returns (vHave: seq<nat>)
      requires IsChain(vChain) && (pindex != null ==> InTree(pindex))
      ensures var start := if pindex == null then Tip() else pindex;
              vHave == if start == null then [] else HashesAt(start, LocatorHeights(start.nHeight, 1, 0))
    {
      hide LocatorHeights, Back, HashesAt, InTree, Reached, IsChain, Path, Linked, Ancestor;
      var nStep := 1;
      vHave := [];
      var p: CBlockIndex? := pindex;
      if p == null {
        p := Tip();
        TipInTree(vChain);
      }
      if p == null { return; }
      ghost var start := p;
      TreeLinked(start);
      AncestorSelf(start);
      ghost var heights := LocatorHeights(p.nHeight, 1, 0);
      ghost var done, rest: seq<nat> := [], heights;
      NothingDone(start);
      while p != null
        invariant nStep > 0 && heights == done + rest && |done| == |vHave|
        invariant Reached(start, done) && vHave == HashesAt(start, done)
        invariant p == null ==> rest == []
        invariant p != null ==> InTree(p) && p.nHeight <= start.nHeight && p == Ancestor(start, p.nHeight)
        invariant p != null ==> rest == LocatorHeights(p.nHeight, nStep, |vHave|)
        decreases if p == null then 0 else p.nHeight + 1
      {
        LocatorStep(p.nHeight, nStep, |vHave|);
        HashesAppend(start, done, p.nHeight);
        vHave := vHave + [p.hash];
        done := done + [p.nHeight];
        rest := rest[1..];
        if p.nHeight == 0 {
          p := null;
          break;
        }
        var nHeight := Back(p.nHeight, nStep);
        TreeLinked(p);
        AncestorOfAncestor(start, p.nHeight, nHeight);
        p := GoBack(p, nHeight);
        if |vHave| > 10 { nStep := nStep * 2; }
      }
      assert done == heights;
    }
  }

  lemma TipInTree(v: seq<CBlockIndex?>)
    requires IsChain(v)
    ensures v != [] ==> v[|v| - 1] != null && InTree(v[|v| - 1])
  {
  }

  lemma AncestorSelf(b: CBlockIndex)
    requires Linked(b)
    ensures Ancestor(b, b.nHeight) == b
  {
  }

  lemma TreeLinked(b: CBlockIndex)
    requires InTree(b)
    ensures Linked(b)
  {
  }

  lemma LocatorStep(h: nat, step: nat, count: nat)
    requires step > 0
    ensures var l := LocatorHeights(h, step, count);
            && l[0] == h && (h == 0 ==> l[1..] == []) && (h > 0 ==> Back(h, step) < h)
            && (h > 0 ==> l[1..] == LocatorHeights(Back(h, step), if count + 1 > 10 then step * 2 else step, count + 1))
  {
  }

  lemma Parent(b: CBlockIndex, p: CBlockIndex)
    requires InTree(b) && InTree(p) && p.nHeight <= b.nHeight && p == Ancestor(b, p.nHeight)
    ensures p.pprev == null ==> p.nHeight == 0
    ensures p.pprev != null ==>
              p.nHeight == p.pprev.nHeight + 1 && InTree(p.pprev) && p.pprev == Ancestor(b, p.nHeight - 1)
  {
    if p.pprev != null { AncestorOfAncestor(b, p.nHeight, p.nHeight - 1); }
  }

  /** The vector above `p` is the path of `b`; from `p` on down it is as it was. */
  ghost predicate Filling(was: seq<CBlockIndex?>, now: seq<CBlockIndex?>, b: CBlockIndex, p: CBlockIndex?) {
    && Linked(b) && |now| == b.nHeight + 1
    && (forall h :: (if p == null then 0 else p.nHeight + 1) <= h < |now| ==> now[h] == Ancestor(b, h))
    && (p != null ==> forall h :: 0 <= h <= p.nHeight && h < |now| ==> now[h] == if h < |was| then was[h] else null)
  }

  lemma FillingStarts(was: seq<CBlockIndex?>, now: seq<CBlockIndex?>, b: CBlockIndex)
    requires Linked(b)
    requires var n := b.nHeight + 1;
             now == if |was| >= n then was[..n] else was + seq(n - |was|, _ => null)
    ensures Filling(was, now, b, b)
  {
  }

  lemma FillingNext(was: seq<CBlockIndex?>, now: seq<CBlockIndex?>, b: CBlockIndex, p: CBlockIndex)
    requires Filling(was, now, b, p) && p.nHeight < |now| && p == Ancestor(b, p.nHeight)
    requires if p.pprev == null then p.nHeight == 0 else p.pprev.nHeight == p.nHeight - 1
    ensures Filling(was, now[p.nHeight := p], b, p.pprev)
  {
  }

  lemma FillingEnds(was: seq<CBlockIndex?>, now: seq<CBlockIndex?>, b: CBlockIndex, p: CBlockIndex?)
    requires IsChain(was) && InTree(b) && Filling(was, now, b, p)
    requires p != null ==> p.nHeight < |now| && p == Ancestor(b, p.nHeight) && now[p.nHeight] == p
    ensures now == Path(b) && IsChain(now)
  {
    AncestorSelf(b);
    hide InTree, Linked, Skipping, Ancestor;
    if p != null {
      assert p.nHeight < |was| && was[p.nHeight] == p;
      Shared(was, b, p);
    }
    assert forall h :: 0 <= h < |now| ==> now[h] == Ancestor(b, h);
    assert now == Path(b);
  }

  /** Two paths that share a block share all below it. */
  lemma Shared(was: seq<CBlockIndex?>, b: CBlockIndex, p: CBlockIndex)
    requires IsChain(was) && InTree(b) && p.nHeight <= b.nHeight && p == Ancestor(b, p.nHeight)
    requires p.nHeight < |was| && was[p.nHeight] == p
    ensures forall h :: 0 <= h <= p.nHeight ==> was[h] == Ancestor(b, h)
  {
    var tip := was[|was| - 1];
    forall h | 0 <= h <= p.nHeight ensures was[h] == Ancestor(b, h) {
      AncestorOfAncestor(tip, p.nHeight, h);
      AncestorOfAncestor(b, p.nHeight, h);
    }
  }

  predicate Reached(b: CBlockIndex, heights: seq<nat>) {
    forall i :: 0 <= i < |heights| ==> heights[i] <= b.nHeight
  }

  lemma NothingDone(b: CBlockIndex)
    requires Linked(b)
    ensures Reached(b, []) && HashesAt(b, []) == []
  {
  }

  lemma HashesAppend(b: CBlockIndex, heights: seq<nat>, h: nat)
    requires Linked(b) && Reached(b, heights) && h <= b.nHeight
    ensures Reached(b, heights + [h])
    ensures HashesAt(b, heights + [h]) == HashesAt(b, heights) + [Ancestor(b, h).hash]
  {
    hide Ancestor;
  }

  function HashesAt(b: CBlockIndex, heights: seq<nat>): (h: seq<nat>)
    requires Linked(b) && Reached(b, heights)
    ensures |h| == |heights| && forall i :: 0 <= i < |h| ==> h[i] == Ancestor(b, heights[i]).hash
  {
    seq(|heights|, i requires 0 <= i < |heights| => Ancestor(b, heights[i]).hash)
  }
}

/** The views of src/coins.cpp, updated in place: each method is proved against the
    function of the same name on the value of the stack. */
module CoinsCache {
  import opened CoinsTrimmed
  import opened CoinsView
  import opened Wrappers

  /** CCoinsViewCache when it has a base, and the coin database when it has none. */
  class CCoinsView {
    const base: CCoinsView?
    var stored: map<Txid, Coins>
    var cacheCoins: map<Txid, Entry>
    var hasModifier: bool
    var hashBlock: Hash
    ghost const Repr: set<CCoinsView>

    /** The stack below is made of other objects. */
    ghost predicate Valid()
      reads this, Repr
      decreases Repr
    {
      this in Repr && (base != null ==> base in Repr && base.Repr <= Repr - {this} && base.Valid())
    }

    ghost function V(): View
      requires Valid()
      reads this, Repr
      decreases Repr
    {
      if base == null then Database(stored, hashBlock) else Cache(base.V(), cacheCoins, hashBlock)
    }

    constructor Open(stored: map<Txid, Coins>, best: Hash)
      ensures Valid() && fresh(Repr) && V() == Database(stored, best)
    {
      base := null;
      this.stored := stored;
      cacheCoins := map[];
      hasModifier := false;
      hashBlock := best;
      Repr := {this};
    }

    constructor (base: CCoinsView)
      requires base.Valid()
      ensures Valid() && fresh(Repr - base.Repr) && V() == Cache(base.V(), map[], 0) && !hasModifier
    {
      this.base := base;
      stored := map[];
      cacheCoins := map[];
      hasModifier := false;
      hashBlock := 0;
      Repr := {this} + base.Repr;
    }

    /** FetchCoins and GetCoins, and the database's GetCoins. */
    method GetCoins(tx: Txid) returns (found: Option<Coins>)
      requires Valid()
      modifies Repr
      ensures Valid() && (V(), found) == Fetch(old(V()), tx) && hasModifier == old(hasModifier)
      decreases Repr
    {
      if base == null {
        found := if tx in stored then Some(stored[tx]) else None;
        return;
      }
      if tx in cacheCoins {
        return Some(cacheCoins[tx].coins);
      }
      found := base.GetCoins(tx);
      if found.None? {
        return;
      }
      cacheCoins := cacheCoins[tx := Entry(found.value, false, IsPruned(found.value))];
    }

    /** Answers whether any output is stored, which for trimmed coins is whether coins are shown. */
    method HaveCoins(tx: Txid) returns (have: bool)
      requires Valid() && base != null
      modifies Repr
      ensures Valid() && V() == Fetch(old(V()), tx).0 && hasModifier == old(hasModifier)
      ensures have <==> Fetch(old(V()), tx).1.Some? && Fetch(old(V()), tx).1.value.vout != []
      ensures Inv(old(V())) && Trimmed(old(V())) ==> (have <==> Shown(old(V()), tx).Some?)
    {
      ghost var v := V();
      if Inv(v) && Trimmed(v) { HaveRight(v, tx); }
      var found := GetCoins(tx);
      have := found.Some? && found.value.vout != [];
    }

    /** The start of a modification; the cache allows one at a time. */
    method ModifyCoins(tx: Txid)
      requires Valid() && base != null && !hasModifier
      modifies Repr
      ensures Valid() && V() == Modify(old(V()), tx) && hasModifier
    {
      hide Fetch, IsPruned;
      if tx !in cacheCoins {
        var found := base.GetCoins(tx);
        if found.None? {
          cacheCoins := cacheCoins[tx := Entry(CLEAR, false, true)];
        } else if IsPruned(found.value) {
          cacheCoins := cacheCoins[tx := Entry(found.value, false, true)];
        } else {
          cacheCoins := cacheCoins[tx := Entry(found.value, false, false)];
        }
      }
      cacheCoins := cacheCoins[tx := cacheCoins[tx].(dirty := true)];
      hasModifier := true;
    }

    /** The end of a modification whose client has put `c` in place. */
    method EndModification(tx: Txid, c: Coins)
      requires Valid() && base != null && hasModifier && tx in cacheCoins
      modifies this
      ensures Valid() && V() == Commit(old(V()), tx, c) && !hasModifier
    {
      hasModifier := false;
      hide Cleanup, IsPruned;
      var e := cacheCoins[tx].(coins := Cleanup(c));
      if e.isFresh && IsPruned(e.coins) {
        cacheCoins := cacheCoins - {tx};
      } else {
        cacheCoins := cacheCoins[tx := e];
      }
    }

    /** Reads the best block, remembering what the base says. */
    method GetBestBlock() returns (h: Hash)
      requires Valid()
      modifies Repr
      ensures Valid() && h == BestBlock(old(V())) && hasModifier == old(hasModifier)
      ensures BestBlock(V()) == h && forall tx :: Shown(V(), tx) == Shown(old(V()), tx)
      decreases Repr
    {
      ghost var v := V();
      if base != null && hashBlock == 0 {
        hashBlock := base.GetBestBlock();
      }
      h := hashBlock;
    }

    method SetBestBlock(h: Hash)
      requires Valid() && base != null
      modifies this`hashBlock
      ensures Valid() && V() == old(V()).(best := h)
    {
      hashBlock := h;
    }

    /** Takes over the changed entries of a child. `order` lists the child's transactions in
        the order in which its hash table happens to give them. */
    method BatchWrite(mapCoins: map<Txid, Entry>, h: Hash, order: seq<Txid>)
      requires Valid() && !hasModifier
      requires forall tx :: tx in mapCoins <==> tx in order
      requires forall i, j :: 0 <= i < j < |order| ==> order[i] != order[j]
      requires base != null ==>
        forall tx :: tx in mapCoins && tx !in cacheCoins && mapCoins[tx].dirty && !IsPruned(mapCoins[tx].coins) ==>
            mapCoins[tx].isFresh
      modifies this
      ensures Valid() && V() == CoinsView.BatchWrite(old(V()), mapCoins, h) && !hasModifier
    {
      if base == null {
        stored := StoreAll(stored, mapCoins);
        if h != 0 {
          hashBlock := h;
        }
        return;
      }
      ghost var before := cacheCoins;
      for i := 0 to |order|
        invariant !hasModifier
        invariant Merging(before, mapCoins, order, i, cacheCoins)
      {
        var tx := order[i];
        var e := mapCoins[tx];
        MergingAt(before, mapCoins, order, i, cacheCoins);
        ghost var was := cacheCoins;
        if e.dirty {
          if tx !in cacheCoins {
            if !IsPruned(e.coins) {
              assert e.isFresh;
              cacheCoins := cacheCoins[tx := Entry(e.coins, true, true)];
            }
          } else if cacheCoins[tx].isFresh && IsPruned(e.coins) {
            cacheCoins := cacheCoins - {tx};
          } else {
            cacheCoins := cacheCoins[tx := Entry(e.coins, true, cacheCoins[tx].isFresh)];
          }
        }
        MergingNext(before, mapCoins, order, i, was, cacheCoins);
      }
      MergingDone(before, mapCoins, order, cacheCoins);
      hashBlock := h;
    }

    lemma IsCache()
      requires Valid() && base != null
      ensures V() == Cache(base.V(), cacheCoins, hashBlock)
    {
    }

    /** Writes the cache to its base and empties it. The assertion in BatchWrite holds. */
    method Flush(order: seq<Txid>)
      requires Valid() && base != null && !base.hasModifier && Inv(V())
      requires forall tx :: tx in cacheCoins <==> tx in order
      requires forall i, j :: 0 <= i < j < |order| ==> order[i] != order[j]
      modifies Repr
      ensures Valid() && V() == CoinsView.Flush(old(V())) && Inv(V())
    {
      ghost var v := V();
      FlushKeeps(v);
      if base.base != null {
        base.IsCache();
        forall tx | tx in cacheCoins && tx !in base.cacheCoins ensures cacheCoins[tx].isFresh {
          assert !Has(v.base, tx);
          FreshAssertHolds(v, tx);
        }
      }
      base.BatchWrite(cacheCoins, hashBlock, order);
      cacheCoins := map[];
    }
  }

  /** `now` is `before` with the first `n` transactions of `order` merged in. */
  ghost predicate Merging(before: map<Txid, Entry>, child: map<Txid, Entry>, order: seq<Txid>, n: nat,
                          now: map<Txid, Entry>)
    requires forall i :: 0 <= i < |order| ==> order[i] in child
    requires n <= |order|
  {
    forall tx :: Held(now, tx) ==
      if tx in order[..n] then Merge(Held(before, tx), child[tx]) else Held(before, tx)
  }

  lemma MergingAt(before: map<Txid, Entry>, child: map<Txid, Entry>, order: seq<Txid>, n: nat, now: map<Txid, Entry>)
    requires forall tx :: tx in child <==> tx in order
    requires forall i, j :: 0 <= i < j < |order| ==> order[i] != order[j]
    requires n < |order| && Merging(before, child, order, n, now)
    ensures Held(now, order[n]) == Held(before, order[n])
  {
  }

  lemma MergingNext(before: map<Txid, Entry>, child: map<Txid, Entry>, order: seq<Txid>, n: nat,
                    was: map<Txid, Entry>, now: map<Txid, Entry>)
    requires forall tx :: tx in child <==> tx in order
    requires n < |order| && Merging(before, child, order, n, was)
    requires Held(now, order[n]) == Merge(Held(before, order[n]), child[order[n]])
    requires forall tx :: tx != order[n] ==> Held(now, tx) == Held(was, tx)
    ensures Merging(before, child, order, n + 1, now)
  {
    assert order[..n + 1] == order[..n] + [order[n]];
  }

  lemma MergingDone(before: map<Txid, Entry>, child: map<Txid, Entry>, order: seq<Txid>, now: map<Txid, Entry>)
    requires forall tx :: tx in child <==> tx in order
    requires Merging(before, child, order, |order|, now)
    ensures now == MergeAll(before, child)
  {
    assert order[..|order|] == order;
    var all := MergeAll(before, child);
    forall tx ensures Held(now, tx) == Held(all, tx) {
    }
    forall tx ensures tx in now <==> tx in all {
      assert Held(now, tx).Some? <==> tx in now;
    }
    forall tx | tx in now ensures now[tx] == all[tx] {
      assert Held(now, tx) == Some(now[tx]);
    }
  }
}

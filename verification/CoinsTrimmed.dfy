/** Coins are kept without a spent tail, which CCoinsViewCache::HaveCoins (src/coins.cpp) relies on:
    it only looks whether any output is stored. */
module CoinsTrimmed {
  import opened CoinsView
  import opened Wrappers

  predicate IsTrimmed(c: Coins) {
    Cleanup(c) == c
  }

  /** All that is stored anywhere in the stack. */
  ghost predicate Trimmed(v: View) {
    match v
    case Database(stored, _) => forall tx :: tx in stored ==> IsTrimmed(stored[tx])
    case Cache(base, entries, _) => Trimmed(base) && forall tx :: tx in entries ==> IsTrimmed(entries[tx].coins)
  }

  /** Of trimmed coins, none but pruned ones have no output. */
  lemma TrimmedPruned(c: Coins)
    ensures IsTrimmed(c) <==> c.vout == [] || !c.vout[|c.vout| - 1].IsNull()
    ensures IsTrimmed(c) ==> (IsPruned(c) <==> c.vout == [])
  {
    if c.vout != [] && !c.vout[|c.vout| - 1].IsNull() { assert !IsPruned(c); }
  }

  lemma CleanupTrims(c: Coins)
    ensures IsTrimmed(Cleanup(c)) && IsTrimmed(CLEAR)
  {
    TrimmedPruned(Cleanup(c));
  }

  lemma {:induction false} FetchTrims(v: View, tx: Txid)
    requires Trimmed(v)
    ensures var (w, found) := Fetch(v, tx); Trimmed(w) && (found.Some? ==> IsTrimmed(found.value))
  {
    hide IsTrimmed;
    if v.Cache? && tx !in v.entries { FetchTrims(v.base, tx); }
  }

  lemma {:induction false} FetchAtTrims(v: View, depth: nat, tx: Txid)
    requires Trimmed(v)
    ensures Trimmed(FetchAt(v, depth, tx))
  {
    if depth == 0 || v.Database? {
      FetchTrims(v, tx);
    } else {
      FetchAtTrims(v.base, depth - 1, tx);
    }
  }

  lemma EditedTrims(v: View, tx: Txid, c: Coins)
    requires Trimmed(v) && v.Cache?
    ensures Trimmed(Edited(v, tx, c))
  {
    CleanupTrims(c);
    hide IsTrimmed, Cleanup;
    FetchTrims(v.base, tx);
  }

  lemma FlushTrims(v: View)
    requires Trimmed(v) && v.Cache?
    ensures Trimmed(Flush(v)) && Trimmed(Flush(v).base)
  {
    hide IsTrimmed;
  }

  lemma StepTrims(v: View, s: Step)
    requires Trimmed(v)
    ensures Trimmed(After(v, s))
  {
    hide IsTrimmed, Flush, Edited, FetchAt;
    match s
    case Read(depth, tx) => FetchAtTrims(v, depth, tx);
    case Edit(tx, c) => if v.Cache? { EditedTrims(v, tx, c); }
    case FlushTop => if v.Cache? { FlushTrims(v); }
    case Push =>
    case FlushPop => if v.Cache? { FlushTrims(v); }
    case SetBest(_) =>
  }

  /** Whatever clients do on a stack that is trimmed, it stays so, even when they put untrimmed
      coins. */
  lemma {:induction false} RunTrims(v: View, steps: seq<Step>)
    requires Trimmed(v)
    ensures Trimmed(Run(v, steps))
    decreases |steps|
  {
    hide After, Trimmed;
    if steps != [] {
      StepTrims(v, steps[0]);
      RunTrims(After(v, steps[0]), steps[1..]);
    }
  }

  /** So what HaveCoins answers is right: something is stored exactly when coins are shown. */
  lemma HaveRight(v: View, tx: Txid)
    requires Inv(v) && Trimmed(v)
    ensures var found := Fetch(v, tx).1;
            found.Some? && found.value.vout != [] <==> Shown(v, tx).Some?
  {
    FetchKeeps(v, tx);
    FetchTrims(v, tx);
    var found := Fetch(v, tx).1;
    if found.Some? { TrimmedPruned(found.value); }
  }

  /** Without that it may be wrong: a single spent output that was not trimmed. */
  lemma UntrimmedHave(tx: Txid)
    ensures var v := Cache(Database(map[tx := CLEAR.(vout := [NULL_OUT])], 0), map[], 0);
            && Inv(v) && Fetch(v, tx).1.Some? && Fetch(v, tx).1.value.vout != [] && Shown(v, tx).None?
  {
  }
}

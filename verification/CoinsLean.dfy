/** What the caches of src/coins.cpp do not do: write what was only read, keep coins that have come
    and gone, and lose the best block. */
module CoinsLean {
  import opened CoinsView
  import opened Wrappers

  // ------------------------------------------------------------------- reading

  /** `w` is `v` with more entries in its caches, none of which will be written, and which are FRESH
      exactly when nothing is left of the coins. */
  ghost predicate OnlyRead(v: View, w: View) {
    match v
    case Database(_, _) => w == v
    case Cache(base, entries, best) =>
      && w.Cache? && w.best == best && OnlyRead(base, w.base)
      && (forall tx :: tx in entries ==> tx in w.entries && w.entries[tx] == entries[tx])
      && (forall tx :: tx in w.entries && tx !in entries ==>
            !w.entries[tx].dirty && (w.entries[tx].isFresh <==> IsPruned(w.entries[tx].coins)))
  }

  lemma {:induction false} ReadSame(v: View)
    ensures OnlyRead(v, v)
  {
    if v.Cache? { ReadSame(v.base); }
  }

  /** Looking coins up, at any depth, leaves nothing to be written. */
  lemma {:induction false} FetchReads(v: View, tx: Txid)
    ensures OnlyRead(v, Fetch(v, tx).0)
  {
    ReadSame(v);
    if v.Cache? { FetchReads(v.base, tx); }
  }

  lemma {:induction false} FetchAtReads(v: View, depth: nat, tx: Txid)
    ensures OnlyRead(v, FetchAt(v, depth, tx))
  {
    if depth == 0 || v.Database? { FetchReads(v, tx); } else { FetchAtReads(v.base, depth - 1, tx); }
  }

  // ------------------------------------------------------- coins come and gone

  /** No cache holds changed coins that are gone, when its base does not have them either. */
  ghost predicate Lean(v: View) {
    v.Cache? ==>
      && Lean(v.base)
      && forall tx :: tx in v.entries && v.entries[tx].dirty && v.entries[tx].isFresh ==> !IsPruned(v.entries[tx].coins)
  }

  lemma {:induction false} ReadLean(v: View, w: View)
    requires Lean(v) && OnlyRead(v, w)
    ensures Lean(w)
  {
    hide IsPruned;
    if v.Cache? { ReadLean(v.base, w.base); }
  }

  lemma EditLean(v: View, tx: Txid, c: Coins)
    requires Lean(v) && v.Cache?
    ensures Lean(Edited(v, tx, c))
  {
    hide IsPruned, Modify, Commit;
    ModifyLean(v, tx);
    CommitLean(Modify(v, tx), tx, c);
  }

  /** Everything is as lean as before but for the entry that is being changed. */
  ghost predicate LeanBut(v: View, tx: Txid) {
    && v.Cache? && Lean(v.base)
    && forall t :: t in v.entries && t != tx && v.entries[t].dirty && v.entries[t].isFresh ==>
         !IsPruned(v.entries[t].coins)
  }

  lemma ModifyLean(v: View, tx: Txid)
    requires Lean(v) && v.Cache?
    ensures LeanBut(Modify(v, tx), tx)
  {
    hide IsPruned, Fetch;
    FetchReads(v.base, tx);
    ReadLean(v.base, Fetch(v.base, tx).0);
  }

  lemma CommitLean(v: View, tx: Txid, c: Coins)
    requires LeanBut(v, tx) && tx in v.entries
    ensures Lean(Commit(v, tx, c))
  {
    hide IsPruned, Cleanup;
  }

  lemma FlushLean(v: View)
    requires Lean(v) && v.Cache?
    ensures Lean(Flush(v))
  {
    hide IsPruned;
  }

  /** Every run of a client keeps the caches so. */
  lemma {:induction false} RunLean(v: View, steps: seq<Step>)
    requires Lean(v)
    ensures Lean(Run(v, steps))
    decreases |steps|
  {
    if steps != [] {
      match steps[0] {
        case Read(depth, tx) =>
          FetchAtReads(v, depth, tx);
          ReadLean(v, FetchAt(v, depth, tx));
        case Edit(tx, c) => if v.Cache? { EditLean(v, tx, c); }
        case FlushTop => if v.Cache? { FlushLean(v); }
        case Push =>
        case FlushPop => if v.Cache? { FlushLean(v); }
        case SetBest(_) =>
      }
      hide After;
      RunLean(After(v, steps[0]), steps[1..]);
    }
  }

  // -------------------------------------------------------------- the best block

  lemma {:induction false} ReadBest(v: View, w: View)
    requires OnlyRead(v, w)
    ensures BestBlock(w) == BestBlock(v)
  {
    if v.Cache? { ReadBest(v.base, w.base); }
  }

  /** The best block is what was set last, unless a cache without one of its own is flushed over one
      below that has: then that one is lost. */
  lemma StepBest(v: View, s: Step)
    ensures v.Cache? && s.SetBest? && s.hash != 0 ==> BestBlock(After(v, s)) == s.hash
    ensures !s.SetBest? && !s.FlushTop? && !s.FlushPop? ==> BestBlock(After(v, s)) == BestBlock(v)
    ensures v.Cache? && (s.FlushTop? || s.FlushPop?) ==>
              (BestBlock(After(v, s)) == BestBlock(v) <==>
                 v.best != 0 || v.base.Database? || BestBlock(v.base.base) == BestBlock(v.base))
  {
    match s
    case Read(depth, tx) =>
      FetchAtReads(v, depth, tx);
      ReadBest(v, FetchAt(v, depth, tx));
    case Edit(tx, c) =>
      if v.Cache? {
        FetchReads(v.base, tx);
        ReadBest(v.base, Fetch(v.base, tx).0);
      }
    case FlushTop => if v.Cache? { FlushBest(v); }
    case Push =>
    case FlushPop => if v.Cache? { FlushBest(v); }
    case SetBest(_) =>
  }

  // -------------------------------------------------------------- what is written

  /** What a view itself has stored for a transaction. */
  function Own(v: View, tx: Txid): Option<Coins> {
    match v
    case Database(stored, _) => if tx in stored then Some(stored[tx]) else None
    case Cache(_, entries, _) => if tx in entries then Some(entries[tx].coins) else None
  }

  /** A flush writes what was changed and nothing else. Coins that are gone are not stored in the
      database, nor in a cache whose base does not have them. */
  lemma FlushWrites(v: View, tx: Txid)
    requires Inv(v) && v.Cache?
    ensures var w := Flush(v).base;
            if tx in v.entries && v.entries[tx].dirty then
              var c := v.entries[tx].coins;
              && (Own(w, tx).Some? ==> Own(w, tx) == Some(c) && (w.Cache? ==> w.entries[tx].dirty))
              && (!IsPruned(c) ==> Own(w, tx).Some?)
              && (IsPruned(c) && w.Database? ==> Own(w, tx).None?)
              && (IsPruned(c) && w.Cache? && Shown(w.base, tx).Some? ==> Own(w, tx).Some?)
            else
              && Own(w, tx) == Own(v.base, tx)
              && (v.base.Cache? && tx in w.entries ==> w.entries[tx] == v.base.entries[tx])
  {
    hide IsPruned;
    FlushKeeps(v);
  }
}

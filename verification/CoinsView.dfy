/** The layered coin cache of src/coins.cpp and src/coins.h as a value: a database under a
    stack of write-back caches, and the proof that the stack shows one flat map. */
module CoinsView {
  import opened Wrappers


  type Txid = nat
  type Hash = nat          // 0 is the null hash
  type Script = seq<nat>

  datatype TxOut = TxOut(nValue: int, script: Script, nRounds: int) {
    predicate IsNull() {
      nValue == -1
    }
  }

  const NULL_OUT: TxOut := TxOut(-1, [], -10)

  /** CCoins: what is left of a transaction. */
  datatype Coins = Coins(fCoinBase: bool, fCoinStake: bool, vout: seq<TxOut>, nHeight: int, nVersion: int)

  const CLEAR: Coins := Coins(false, false, [], 0, 0)

  predicate IsPruned(c: Coins) {
    forall i :: 0 <= i < |c.vout| ==> c.vout[i].IsNull()
  }

  function TrimNulls(vout: seq<TxOut>): (r: seq<TxOut>)
    ensures r <= vout
    ensures |r| > 0 ==> !r[|r| - 1].IsNull()
    ensures forall i :: |r| <= i < |vout| ==> vout[i].IsNull()
  {
    if |vout| > 0 && vout[|vout| - 1].IsNull() then TrimNulls(vout[..|vout| - 1]) else vout
  }

  /** Removes spent outputs at the end. */
  function Cleanup(c: Coins): Coins {
    c.(vout := TrimNulls(c.vout))
  }

  /** What a view says of a transaction: pruned coins count as absent. */
  function Live(c: Coins): Option<Coins> {
    if IsPruned(c) then None else Some(c)
  }

  datatype Entry = Entry(coins: Coins, dirty: bool, isFresh: bool)

  /** A database, or a cache over another view. A null best block has not been read yet. */
  datatype View =
    | Database(stored: map<Txid, Coins>, best: Hash)
    | Cache(base: View, entries: map<Txid, Entry>, best: Hash)

  /** The coins the stack shows for a transaction. */
  function Shown(v: View, tx: Txid): Option<Coins> {
    match v
    case Database(stored, _) => if tx in stored then Live(stored[tx]) else None
    case Cache(base, entries, _) => if tx in entries then Live(entries[tx].coins) else Shown(base, tx)
  }

  function BestBlock(v: View): Hash {
    match v
    case Database(_, best) => best
    case Cache(base, _, best) => if best != 0 then best else BestBlock(base)
  }

  /** Whether `v` has something stored for `tx` itself. */
  predicate Has(v: View, tx: Txid) {
    match v
    case Database(stored, _) => tx in stored
    case Cache(_, entries, _) => tx in entries
  }

  /** The meaning of the flags: FRESH says that the base shows nothing; not DIRTY says that
      the base shows the same; and an entry that is not FRESH is held by the base too. */
  ghost predicate EntryOk(base: View, tx: Txid, e: Entry) {
    && (e.isFresh ==> Shown(base, tx) == None)
    && (!e.dirty ==> Shown(base, tx) == Live(e.coins))
    && (!e.isFresh && base.Cache? ==> Has(base, tx))
  }

  ghost predicate Inv(v: View) {
    v.Cache? ==> Inv(v.base) && forall tx :: tx in v.entries ==> EntryOk(v.base, tx, v.entries[tx])
  }

  /** `w` shows what `v` shows, and holds at least what it holds. */
  ghost predicate Agree(v: View, w: View) {
    && (forall tx :: Shown(w, tx) == Shown(v, tx))
    && (forall tx :: Has(v, tx) ==> Has(w, tx))
    && BestBlock(w) == BestBlock(v) && (w.Cache? <==> v.Cache?)
  }

  // ------------------------------------------------------------------- reading

  /** Looks a transaction up, filling every cache on the way. */
  function Fetch(v: View, tx: Txid): (View, Option<Coins>) {
    match v
    case Database(stored, _) => (v, if tx in stored then Some(stored[tx]) else None)
    case Cache(base, entries, best) =>
      if tx in entries then (v, Some(entries[tx].coins)) else
      match Fetch(base, tx)
      case (base', None) => (Cache(base', entries, best), None)
      case (base', Some(c)) => (Cache(base', entries[tx := Entry(c, false, IsPruned(c))], best), Some(c))
  }

  lemma AgreeEntries(v: View, base: View, entries: map<Txid, Entry>)
    requires v.Cache? && Inv(v) && Inv(base) && Agree(v.base, base)
    requires forall tx :: tx in entries ==> tx in v.entries && entries[tx] == v.entries[tx]
    ensures forall tx :: tx in entries ==> EntryOk(base, tx, entries[tx])
  {
    forall tx | tx in entries ensures EntryOk(base, tx, entries[tx]) {
      assert EntryOk(v.base, tx, v.entries[tx]);
      assert Shown(base, tx) == Shown(v.base, tx);
      assert Has(v.base, tx) ==> Has(base, tx);
    }
  }

  /** Reading changes nothing that can be seen, and answers what the stack shows. */
  lemma {:induction false} FetchKeeps(v: View, tx: Txid)
    requires Inv(v)
    ensures var (w, found) := Fetch(v, tx);
            && Inv(w) && Agree(v, w)
            && Shown(v, tx) == (if found.Some? then Live(found.value) else None)
            && (found.Some? ==> Has(w, tx))
  {
    if v.Cache? && tx !in v.entries {
      FetchKeeps(v.base, tx);
      var (base, found) := Fetch(v.base, tx);
      AgreeEntries(v, base, v.entries);
      var w := Fetch(v, tx).0;
      forall t ensures Shown(w, t) == Shown(v, t) {
        assert Shown(base, t) == Shown(v.base, t);
      }
    }
  }

  // ------------------------------------------------------------------- editing

  /** ModifyCoins: makes sure of an entry, and marks it as changed. */
  function Modify(v: View, tx: Txid): (w: View)
    requires v.Cache?
    ensures w.Cache? && tx in w.entries
  {
    if tx in v.entries then v.(entries := v.entries[tx := v.entries[tx].(dirty := true)])
    else
      match Fetch(v.base, tx)
      case (base', None) => Cache(base', v.entries[tx := Entry(CLEAR, true, true)], v.best)
      case (base', Some(c)) => Cache(base', v.entries[tx := Entry(c, true, IsPruned(c))], v.best)
  }

  /** The end of a modification that has put `c` in place. */
  function Commit(v: View, tx: Txid, c: Coins): View
    requires v.Cache? && tx in v.entries
  {
    var e := v.entries[tx].(coins := Cleanup(c));
    v.(entries := if e.isFresh && IsPruned(e.coins) then v.entries - {tx} else v.entries[tx := e])
  }

  lemma ModifyKeeps(v: View, tx: Txid)
    requires Inv(v) && v.Cache?
    ensures var w := Modify(v, tx);
            && Inv(w) && Agree(v, w) && tx in w.entries && w.entries[tx].dirty
            && Live(w.entries[tx].coins) == Shown(v, tx)
  {
    var w := Modify(v, tx);
    if tx !in v.entries {
      FetchKeeps(v.base, tx);
      var (base, found) := Fetch(v.base, tx);
      AgreeEntries(v, base, v.entries);
      forall t ensures Shown(w, t) == Shown(v, t) {
        assert Shown(base, t) == Shown(v.base, t);
      }
    }
  }

  /** A committed modification changes what is shown of its transaction, and of no other. */
  lemma CommitShows(v: View, tx: Txid, c: Coins)
    requires Inv(v) && v.Cache? && tx in v.entries && v.entries[tx].dirty
    ensures var w := Commit(v, tx, c);
            && Inv(w) && BestBlock(w) == BestBlock(v)
            && Shown(w, tx) == Live(Cleanup(c))
            && forall t :: t != tx ==> Shown(w, t) == Shown(v, t)
  {
    assert EntryOk(v.base, tx, v.entries[tx]);
  }

  // ------------------------------------------------------------------ flushing

  /** What the parent holds for a transaction after the child's entry is written to it. */
  function Merge(parent: Option<Entry>, child: Entry): Option<Entry> {
    if !child.dirty then parent else
    match parent
    case None => if IsPruned(child.coins) then None else Some(Entry(child.coins, true, true))
    case Some(e) =>
      if e.isFresh && IsPruned(child.coins) then None
      else Some(Entry(child.coins, true, e.isFresh))
  }

  function Held(entries: map<Txid, Entry>, tx: Txid): Option<Entry> {
    if tx in entries then Some(entries[tx]) else None
  }

  function MergeAll(parent: map<Txid, Entry>, child: map<Txid, Entry>): map<Txid, Entry> {
    map tx | tx in parent.Keys + child.Keys
             && (tx in child ==> Merge(Held(parent, tx), child[tx]).Some?)
           :: if tx in child then Merge(Held(parent, tx), child[tx]).value else parent[tx]
  }

  function StoreAll(stored: map<Txid, Coins>, child: map<Txid, Entry>): map<Txid, Coins> {
    map tx | tx in stored.Keys + child.Keys
             && (tx in child && child[tx].dirty ==> !IsPruned(child[tx].coins))
             && (tx !in stored ==> child[tx].dirty)
           :: if tx in child && child[tx].dirty then child[tx].coins else stored[tx]
  }

  function BatchWrite(v: View, child: map<Txid, Entry>, best: Hash): View {
    match v
    case Database(stored, was) => Database(StoreAll(stored, child), if best != 0 then best else was)
    case Cache(base, entries, _) => Cache(base, MergeAll(entries, child), best)
  }

  /** Writes a cache to its base and empties it. */
  function Flush(v: View): View
    requires v.Cache?
  {
    Cache(BatchWrite(v.base, v.entries, v.best), map[], v.best)
  }

  /** The assertion in BatchWrite: coins that the parent cache does not hold are FRESH. */
  predicate FreshAssert(v: View, tx: Txid)
    requires v.Cache? && tx in v.entries
  {
    var e := v.entries[tx];
    v.base.Cache? && !Has(v.base, tx) && e.dirty && !IsPruned(e.coins) ==> e.isFresh
  }

  lemma FreshAssertHolds(v: View, tx: Txid)
    requires Inv(v) && v.Cache? && tx in v.entries
    ensures FreshAssert(v, tx)
    ensures v.base.Cache? && !Has(v.base, tx) ==> v.entries[tx].isFresh
  {
    assert EntryOk(v.base, tx, v.entries[tx]);
  }

  lemma MergedOk(v: View, tx: Txid)
    requires Inv(v) && v.Cache? && v.base.Cache? && tx in v.entries
    ensures var parent := v.base;
            var m := Merge(Held(parent.entries, tx), v.entries[tx]);
            && (m.Some? ==> EntryOk(parent.base, tx, m.value) && Live(m.value.coins) == Live(v.entries[tx].coins))
            && (m.None? ==> Shown(parent.base, tx) == Live(v.entries[tx].coins))
  {
    var parent := v.base;
    assert EntryOk(parent, tx, v.entries[tx]);
    if tx in parent.entries {
      assert EntryOk(parent.base, tx, parent.entries[tx]);
    }
  }

  /** Flushing is invisible: the flushed stack shows the same coins. */
  lemma FlushKeeps(v: View)
    requires Inv(v) && v.Cache?
    ensures Inv(Flush(v)) && forall tx :: Shown(Flush(v), tx) == Shown(v, tx)
  {
    var base, w := v.base, BatchWrite(v.base, v.entries, v.best);
    forall tx ensures Shown(w, tx) == Shown(v, tx) {
      FlushShows(v, tx);
    }
    if base.Cache? {
      forall tx | tx in w.entries ensures EntryOk(w.base, tx, w.entries[tx]) {
        if tx in v.entries {
          MergedOk(v, tx);
        } else {
          assert EntryOk(base.base, tx, base.entries[tx]);
        }
      }
    }
  }

  lemma FlushShows(v: View, tx: Txid)
    requires Inv(v) && v.Cache?
    ensures Shown(BatchWrite(v.base, v.entries, v.best), tx) == Shown(v, tx)
  {
    if tx in v.entries {
      assert EntryOk(v.base, tx, v.entries[tx]);
      if v.base.Cache? {
        MergedOk(v, tx);
      }
    }
  }

  /** A cache below another one may be flushed only when the upper one has nothing but FRESH
      entries: otherwise the upper one would later fail the assertion in BatchWrite. */
  lemma FlushBelow(v: View)
    requires Inv(v) && v.Cache? && v.base.Cache?
    ensures Inv(v.(base := Flush(v.base))) <==> forall tx :: tx in v.entries ==> v.entries[tx].isFresh
  {
    FlushKeeps(v.base);
    var w := v.(base := Flush(v.base));
    forall tx | tx in v.entries ensures EntryOk(w.base, tx, v.entries[tx]) <==> v.entries[tx].isFresh {
      assert EntryOk(v.base, tx, v.entries[tx]);
      assert Shown(w.base, tx) == Shown(v.base, tx);
    }
  }

  /** Whatever coins are put for such an entry after that, the assertion fails when the upper
      cache is flushed. */
  lemma FlushBelowFails(v: View, tx: Txid, c: Coins)
    requires v.Cache? && v.base.Cache? && tx in v.entries && !v.entries[tx].isFresh && !IsPruned(c)
    ensures var w := Commit(Modify(v.(base := Flush(v.base)), tx), tx, c);
            tx in w.entries && !FreshAssert(w, tx)
  {
    var i :| 0 <= i < |c.vout| && !c.vout[i].IsNull();
    assert Cleanup(c).vout[i] == c.vout[i];
  }

  /** The best block survives a flush exactly when the cache had one, or there was no cache
      below, or the one below had nothing of its own to lose. */
  lemma FlushBest(v: View)
    requires v.Cache?
    ensures BestBlock(Flush(v)) == BestBlock(v) <==>
              v.best != 0 || v.base.Database? || BestBlock(v.base.base) == BestBlock(v.base)
  {
  }

  // ---------------------------------------------------------------------- runs

  /** Steps of a client that works on the top of the stack. It may read at any depth. */
  datatype Step =
    | Read(depth: nat, tx: Txid)
    | Edit(tx: Txid, coins: Coins)
    | FlushTop
    | Push
    | FlushPop
    | SetBest(hash: Hash)

  function FetchAt(v: View, depth: nat, tx: Txid): View {
    if depth == 0 || v.Database? then Fetch(v, tx).0
    else v.(base := FetchAt(v.base, depth - 1, tx))
  }

  function After(v: View, s: Step): View {
    match s
    case Read(depth, tx) => FetchAt(v, depth, tx)
    case Edit(tx, c) => if v.Cache? then Edited(v, tx, c) else v
    case FlushTop => if v.Cache? then Flush(v) else v
    case Push => Cache(v, map[], 0)
    case FlushPop => if v.Cache? then Flush(v).base else v
    case SetBest(h) => if v.Cache? then v.(best := h) else v
  }

  function Edited(v: View, tx: Txid, c: Coins): View
    requires v.Cache?
  {
    Commit(Modify(v, tx), tx, c)
  }

  /** The same steps on one flat map, which holds no pruned coins. */
  function FlatAfter(flat: map<Txid, Coins>, v: View, s: Step): map<Txid, Coins> {
    if !s.Edit? || v.Database? then flat
    else if IsPruned(Cleanup(s.coins)) then flat - {s.tx}
    else flat[s.tx := Cleanup(s.coins)]
  }

  ghost predicate Shows(v: View, flat: map<Txid, Coins>) {
    forall tx :: Shown(v, tx) == if tx in flat then Some(flat[tx]) else None
  }

  lemma {:induction false} FetchAtKeeps(v: View, depth: nat, tx: Txid)
    requires Inv(v)
    ensures var w := FetchAt(v, depth, tx); Inv(w) && Agree(v, w)
  {
    if depth == 0 || v.Database? {
      FetchKeeps(v, tx);
    } else {
      FetchAtKeeps(v.base, depth - 1, tx);
      var base := FetchAt(v.base, depth - 1, tx);
      AgreeEntries(v, base, v.entries);
      forall t ensures Shown(v.(base := base), t) == Shown(v, t) {
        assert Shown(base, t) == Shown(v.base, t);
      }
    }
  }

  lemma EditedShows(v: View, tx: Txid, c: Coins)
    requires Inv(v) && v.Cache?
    ensures var w := Edited(v, tx, c);
            && Inv(w) && Shown(w, tx) == Live(Cleanup(c))
            && forall t :: t != tx ==> Shown(w, t) == Shown(v, t)
  {
    ModifyKeeps(v, tx);
    CommitShows(Modify(v, tx), tx, c);
  }

  lemma StepShows(v: View, s: Step, flat: map<Txid, Coins>)
    requires Inv(v) && Shows(v, flat)
    ensures Inv(After(v, s)) && Shows(After(v, s), FlatAfter(flat, v, s))
  {
    match s
    case Read(depth, tx) => FetchAtKeeps(v, depth, tx);
    case Edit(tx, c) => if v.Cache? { EditedShows(v, tx, c); }
    case FlushTop => if v.Cache? { FlushKeeps(v); }
    case Push =>
    case FlushPop =>
      if v.Cache? {
        FlushKeeps(v);
        forall t ensures Shown(Flush(v).base, t) == Shown(Flush(v), t) {
        }
      }
    case SetBest(_) =>
      if v.Cache? {
        forall t ensures Shown(After(v, s), t) == Shown(v, t) {
        }
      }
  }

  function Run(v: View, steps: seq<Step>): View
    decreases |steps|
  {
    if steps == [] then v else Run(After(v, steps[0]), steps[1..])
  }

  function FlatRun(flat: map<Txid, Coins>, v: View, steps: seq<Step>): map<Txid, Coins>
    decreases |steps|
  {
    if steps == [] then flat
    else FlatRun(FlatAfter(flat, v, steps[0]), After(v, steps[0]), steps[1..])
  }

  /** A stack of caches behaves as one flat map, whatever is read, edited, flushed, pushed
      and popped, and the flags keep their meaning. */
  lemma {:induction false} RunShows(v: View, steps: seq<Step>, flat: map<Txid, Coins>)
    requires Inv(v) && Shows(v, flat)
    ensures Inv(Run(v, steps)) && Shows(Run(v, steps), FlatRun(flat, v, steps))
    decreases |steps|
  {
    if steps != [] {
      StepShows(v, steps[0], flat);
      hide Shows, Inv;
      RunShows(After(v, steps[0]), steps[1..], FlatAfter(flat, v, steps[0]));
    }
  }
}

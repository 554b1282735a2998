/** What CAddrMan::Serialize writes and what Unserialize makes of it (src/addrman.h), on values.
    The indexes of the manager are not written: reading builds them again. */
module AddrFile {
  import opened AddrLemmas
  import opened AddrOps
  import opened AddrRuns
  import opened AddrState

  const VERSION: nat := 1

  /** The part of an entry that is written. The time of the last try is not. */
  datatype Record = Record(service: Service, nServices: set<nat>, nTime: nat, source: NetAddr, nLastSuccess: int,
                           nAttempts: int)

  /** What a file holds: the counts as written, and what is read because of them. */
  datatype File = File(nVersion: nat, nNew: int, nTried: int, nUBuckets: int,
                       news: seq<Record>, trieds: seq<Record>, buckets: seq<seq<int>>)

  function RecordOf(e: AddrInfo): Record {
    Record(e.service, e.nServices, e.nTime, e.source, e.nLastSuccess, e.nAttempts)
  }

  // --------------------------------------------------------------------- loading

  /** A new entry for what was read, with the next id. */
  function Take(s: State, r: Record): State {
    var id := s.idCount;
    var t := Create(s, Address(r.service, r.nServices, r.nTime), r.source);
    SetInfo(t, id, t.info[id].(nLastSuccess := r.nLastSuccess, nAttempts := r.nAttempts))
  }

  /** When the table cannot be used, an entry is tried at the bucket of its own source. */
  function LoadNew(k: Keyed, s: State, r: Record, fPlace: bool): State {
    var t := Take(s, r).(nNew := s.nNew + 1);
    var sl := k.NewSlot(r.service, k.NewBucket(r.service, r.source));
    if fPlace && sl !in t.newTab then Enter(t, s.idCount, sl) else t
  }

  function LoadNews(k: Keyed, recs: seq<Record>, fPlace: bool): State {
    if recs == [] then EMPTY
    else LoadNew(k, LoadNews(k, recs[..|recs| - 1], fPlace), recs[|recs| - 1], fPlace)
  }

  /** An entry whose place in the tried table is taken is lost. */
  function LoadTried(k: Keyed, s: State, r: Record): State {
    var sl := k.TriedSlot(r.service);
    if sl in s.triedTab then s else Promote(Take(s, r), s.idCount, sl)
  }

  function LoadTrieds(k: Keyed, s: State, recs: seq<Record>): State {
    if recs == [] then s
    else LoadTried(k, LoadTrieds(k, s, recs[..|recs| - 1]), recs[|recs| - 1])
  }

  /** One index of a bucket; `fUse` is whether the table can be used as it is. */
  function LoadIndex(k: Keyed, s: State, nNew: int, bucket: nat, idx: int, fUse: bool): State {
    if 0 <= idx < nNew && idx in s.info then
      var sl := k.NewSlot(s.info[idx].service, bucket);
      if fUse && sl !in s.newTab && s.info[idx].nRefCount < NEW_BUCKETS_PER_ADDRESS then Enter(s, idx, sl) else s
    else s
  }

  function LoadBucket(k: Keyed, s: State, nNew: int, bucket: nat, idxs: seq<int>, fUse: bool): State {
    if idxs == [] then s
    else LoadIndex(k, LoadBucket(k, s, nNew, bucket, idxs[..|idxs| - 1], fUse), nNew, bucket, idxs[|idxs| - 1], fUse)
  }

  function LoadBuckets(k: Keyed, s: State, nNew: int, buckets: seq<seq<int>>, fUse: bool): State {
    if buckets == [] then s
    else
      var n := |buckets| - 1;
      LoadBucket(k, LoadBuckets(k, s, nNew, buckets[..n], fUse), nNew, n, buckets[n], fUse)
  }

  /** In neither table. */
  predicate IsLoose(s: State, id: int) {
    id in s.info && !s.info[id].fInTried && s.info[id].nRefCount == 0
  }

  function LooseIds(s: State): set<int> {
    set id | id in s.info && IsLoose(s, id)
  }

  /** Entries that are in neither table are removed, in the order of their ids. */
  function Prune(k: Keyed, s: State, n: nat): State
    requires Placed(k, s, LooseIds(s))
    decreases n, 0
  {
    if n == 0 then s else
      PruneShuffled(k, s, n - 1);
      var t := Prune(k, s, n - 1);
      if IsLoose(t, n - 1) then Delete(t, n - 1) else t
  }

  /** Whether the new table can be used as it was written. */
  predicate Usable(f: File) {
    f.nVersion == VERSION && f.nUBuckets == NEW_BUCKET_COUNT
  }

  /** The counters as they are read, less what is lost. */
  function Unpruned(k: Keyed, f: File): State {
    var t := LoadTrieds(k, LoadNews(k, f.news, !Usable(f)), f.trieds);
    LoadBuckets(k, t, f.nNew, f.buckets, Usable(f))
  }

  /** The counts are those of what follows, as whenever they are not negative. */
  predicate Counts(f: File) {
    f.nNew == |f.news| && f.nTried == |f.trieds| && (Usable(f) ==> f.nUBuckets == |f.buckets|)
  }

  function Load(k: Keyed, f: File): State
    requires Counts(f)
  {
    LoadPlaced(k, f);
    Prune(k, Unpruned(k, f), Unpruned(k, f).idCount)
  }

  // ---------------------------------------------------- loading keeps the structure

  lemma LoosePlaced(k: Keyed, s: State, limbo: set<int>)
    requires Placed(k, s, limbo)
    ensures Placed(k, s, LooseIds(s))
  {
    assert forall id :: id in limbo <==> IsLoose(s, id);
    hide Shuffled, TriedPlaced, NewPlaced;
  }

  /** While entries are loaded, a key of `mapAddr` leads to the last one with that address. */
  ghost predicate Latest(s: State) {
    && s.idCount >= 0
    && (forall id :: id in s.info ==>
          0 <= id < s.idCount && s.info[id].service.ip in s.addr && id <= s.addr[s.info[id].service.ip])
    && (forall ip :: ip in s.addr ==> var id := s.addr[ip]; id in s.info && s.info[id].service.ip == ip)
  }

  /** In order, but for the entries in neither table and for addresses that come again. */
  ghost predicate Loaded(k: Keyed, s: State) {
    Latest(s) && Placed(k, s, LooseIds(s)) && Totalled(s, 0)
  }

  lemma LoadedLatest(k: Keyed, s: State)
    requires Loaded(k, s)
    ensures Latest(s) && s.idCount >= 0 && s.idCount !in s.info
  {
  }

  lemma EmptyLoaded(k: Keyed)
    ensures Loaded(k, EMPTY)
  {
    assert SlotsOf(EMPTY.newTab, 0) == {};
    assert TriedIds(EMPTY) == {} && NewIds(EMPTY) == {} && LooseIds(EMPTY) == {};
  }

  lemma EntryLatest(s: State, id: int, e: AddrInfo, t: State)
    requires Latest(s) && id in s.info && e.service == s.info[id].service
    requires t.info == s.info[id := e] && t.addr == s.addr && t.idCount == s.idCount
    ensures Latest(t)
  {
  }

  lemma TakeLatest(s: State, r: Record)
    requires Latest(s)
    ensures Latest(Take(s, r))
  {
  }

  lemma TakePlaced(k: Keyed, s: State, r: Record)
    requires Loaded(k, s)
    ensures s.idCount !in s.info && Latest(Take(s, r))
    ensures Placed(k, Take(s, r), LooseIds(s) + {s.idCount}) && Totalled(Take(s, r), 1)
  {
    LoadedLatest(k, s);
    TakeLatest(s, r);
    hide Latest, Shuffled, TriedPlaced, NewPlaced, Counted, Totalled, LooseIds;
    var id, a, limbo := s.idCount, Address(r.service, r.nServices, r.nTime), LooseIds(s);
    CreatePlaced(k, s, a, r.source, limbo);
    CreateTotals(s, a, r.source);
    var t := Create(s, a, r.source);
    var e := t.info[id].(nLastSuccess := r.nLastSuccess, nAttempts := r.nAttempts);
    var u := SetInfo(t, id, e);
    EntryShuffled(t, id, e, u);
    EntryTried(k, t, id, e, u);
    SetInfoCounted(k, t, id, e, limbo + {id});
    TotalsEntry(t, u, id, 1, 1);
  }

  lemma LoadNewLoaded(k: Keyed, s: State, r: Record, fPlace: bool)
    requires Loaded(k, s)
    ensures Loaded(k, LoadNew(k, s, r, fPlace))
  {
    hide Latest, Shuffled, TriedPlaced, NewPlaced, Counted, Totalled, LooseIds;
    var id, limbo := s.idCount, LooseIds(s) + {s.idCount};
    TakePlaced(k, s, r);
    var u := Take(s, r);
    var t := u.(nNew := s.nNew + 1);
    CountPlaced(k, u, limbo, s.nNew + 1);
    TotalsEntry(u, t, id, 1, 0);
    var sl := k.NewSlot(r.service, k.NewBucket(r.service, r.source));
    if fPlace && sl !in t.newTab {
      EnterPlaced(k, t, id, sl, limbo);
      EntryLatest(t, id, Enter(t, id, sl).info[id], Enter(t, id, sl));
      TotalsEntry(t, Enter(t, id, sl), id, 0, 0);
      LoosePlaced(k, Enter(t, id, sl), limbo - {id});
    } else {
      LoosePlaced(k, t, limbo);
    }
  }

  lemma CountPlaced(k: Keyed, s: State, limbo: set<int>, nNew: int)
    requires Placed(k, s, limbo) && Latest(s)
    ensures Placed(k, s.(nNew := nNew), limbo) && Latest(s.(nNew := nNew))
  {
  }

  lemma LoadTriedLoaded(k: Keyed, s: State, r: Record)
    requires Loaded(k, s)
    ensures Loaded(k, LoadTried(k, s, r))
  {
    hide Latest, Shuffled, TriedPlaced, NewPlaced, Counted, Totalled, LooseIds;
    var id, limbo, sl := s.idCount, LooseIds(s) + {s.idCount}, k.TriedSlot(r.service);
    if sl !in s.triedTab {
      TakePlaced(k, s, r);
      var t := Take(s, r);
      PromotePlaced(k, t, id, sl, limbo);
      EntryLatest(t, id, Promote(t, id, sl).info[id], Promote(t, id, sl));
      PromoteTotals(k, t, id, sl);
      LoosePlaced(k, Promote(t, id, sl), limbo - {id});
    }
  }

  lemma LoadIndexLoaded(k: Keyed, s: State, nNew: int, bucket: nat, idx: int, fUse: bool)
    requires Loaded(k, s) && (fUse ==> bucket < NEW_BUCKET_COUNT)
    requires forall id :: id in s.info && id < nNew ==> !s.info[id].fInTried
    ensures Loaded(k, LoadIndex(k, s, nNew, bucket, idx, fUse))
  {
    hide Latest, Shuffled, TriedPlaced, NewPlaced, Counted, Totalled, LooseIds;
    if 0 <= idx < nNew && idx in s.info {
      var sl := k.NewSlot(s.info[idx].service, bucket);
      if fUse && sl !in s.newTab && s.info[idx].nRefCount < NEW_BUCKETS_PER_ADDRESS {
        var t := Enter(s, idx, sl);
        EnterPlaced(k, s, idx, sl, LooseIds(s));
        EntryLatest(s, idx, t.info[idx], t);
        TotalsEntry(s, t, idx, 0, 0);
        LoosePlaced(k, t, LooseIds(s) - {idx});
      }
    }
  }

  /** The first `n` ids are those of new entries. */
  predicate NewFirst(s: State, n: int) {
    s.idCount >= n && forall id :: id in s.info && id < n ==> !s.info[id].fInTried
  }

  /** What one record changes: at most one id, at most one address. */
  predicate Grown(s: State, t: State, r: Record) {
    && (t.idCount == s.idCount || t.idCount == s.idCount + 1)
    && (forall ip :: ip in t.addr ==> ip in s.addr || ip == r.service.ip)
    && (forall id :: id in t.info && id != s.idCount ==> id in s.info && t.info[id] == s.info[id])
    && (s.idCount in t.info ==> t.info[s.idCount].service == r.service)
  }

  lemma LoadNewGrown(k: Keyed, s: State, r: Record, fPlace: bool)
    ensures var t := LoadNew(k, s, r, fPlace);
            Grown(s, t, r) && t.idCount == s.idCount + 1 && t.triedTab == s.triedTab
            && s.idCount in t.info && !t.info[s.idCount].fInTried
  {
  }

  lemma LoadTriedGrown(k: Keyed, s: State, r: Record)
    requires s.idCount !in s.info
    ensures Grown(s, LoadTried(k, s, r), r)
  {
  }

  lemma GrownBelow(s: State, t: State, r: Record, n: int)
    requires Grown(s, t, r) && NewFirst(s, n)
    ensures s.idCount >= n && NewFirst(t, n)
    ensures t.idCount > s.idCount == n && s.idCount in t.info && !t.info[s.idCount].fInTried ==> NewFirst(t, n + 1)
  {
  }

  lemma {:induction false} LoadNewsLoaded(k: Keyed, recs: seq<Record>, fPlace: bool)
    ensures var s := LoadNews(k, recs, fPlace);
            Loaded(k, s) && s.idCount == |recs| && NewFirst(s, |recs|) && s.triedTab == map[]
  {
    hide Loaded, Grown, NewFirst, LoadNew;
    if recs == [] {
      EmptyLoaded(k);
      NothingNew();
    } else {
      var n := |recs| - 1;
      LoadNewsLoaded(k, recs[..n], fPlace);
      var s := LoadNews(k, recs[..n], fPlace);
      LoadNewLoaded(k, s, recs[n], fPlace);
      LoadNewGrown(k, s, recs[n], fPlace);
      GrownBelow(s, LoadNew(k, s, recs[n], fPlace), recs[n], n);
    }
  }

  lemma NothingNew()
    ensures NewFirst(EMPTY, 0)
  {
  }

  lemma {:induction false} LoadTriedsLoaded(k: Keyed, s: State, recs: seq<Record>, n: nat)
    requires Loaded(k, s) && NewFirst(s, n)
    ensures Loaded(k, LoadTrieds(k, s, recs)) && NewFirst(LoadTrieds(k, s, recs), n)
  {
    hide Loaded, Grown, NewFirst, LoadTried;
    if recs != [] {
      var last := |recs| - 1;
      LoadTriedsLoaded(k, s, recs[..last], n);
      var t := LoadTrieds(k, s, recs[..last]);
      LoadedLatest(k, t);
      LoadTriedLoaded(k, t, recs[last]);
      LoadTriedGrown(k, t, recs[last]);
      GrownBelow(t, LoadTried(k, t, recs[last]), recs[last], n);
    }
  }

  lemma {:induction false} LoadBucketLoaded(k: Keyed, s: State, nNew: int, bucket: nat, idxs: seq<int>, fUse: bool)
    requires Loaded(k, s) && (fUse ==> bucket < NEW_BUCKET_COUNT) && NewFirst(s, nNew)
    ensures var t := LoadBucket(k, s, nNew, bucket, idxs, fUse);
            Loaded(k, t) && NewFirst(t, nNew) && t.idCount == s.idCount
  {
    hide Loaded;
    if idxs != [] {
      LoadBucketLoaded(k, s, nNew, bucket, idxs[..|idxs| - 1], fUse);
      var t := LoadBucket(k, s, nNew, bucket, idxs[..|idxs| - 1], fUse);
      LoadIndexLoaded(k, t, nNew, bucket, idxs[|idxs| - 1], fUse);
    }
  }

  lemma {:induction false} LoadBucketsLoaded(k: Keyed, s: State, nNew: int, buckets: seq<seq<int>>, fUse: bool)
    requires Loaded(k, s) && (fUse ==> |buckets| <= NEW_BUCKET_COUNT) && NewFirst(s, nNew)
    ensures var t := LoadBuckets(k, s, nNew, buckets, fUse);
            Loaded(k, t) && NewFirst(t, nNew) && t.idCount == s.idCount
  {
    hide Loaded, NewFirst;
    if buckets != [] {
      var n := |buckets| - 1;
      LoadBucketsLoaded(k, s, nNew, buckets[..n], fUse);
      LoadBucketLoaded(k, LoadBuckets(k, s, nNew, buckets[..n], fUse), nNew, n, buckets[n], fUse);
    }
  }

  lemma LoadPlaced(k: Keyed, f: File)
    requires Counts(f)
    ensures Loaded(k, Unpruned(k, f)) && Unpruned(k, f).idCount >= 0
    ensures Placed(k, Unpruned(k, f), LooseIds(Unpruned(k, f)))
  {
    hide Loaded, NewFirst, Placed;
    LoadNewsLoaded(k, f.news, !Usable(f));
    var s := LoadNews(k, f.news, !Usable(f));
    LoadTriedsLoaded(k, s, f.trieds, |f.news|);
    LoadBucketsLoaded(k, LoadTrieds(k, s, f.trieds), f.nNew, f.buckets, Usable(f));
    LoadedPlaced(k, Unpruned(k, f));
  }

  // -------------------------------------------------------------------- pruning

  /** `t` is `s` without the loose entries below `n`, and without the keys of their addresses. */
  ghost predicate Pruned(s: State, t: State, n: int) {
    && t.idCount == s.idCount
    && (forall id :: id in t.info <==> id in s.info && !(IsLoose(s, id) && 0 <= id < n))
    && (forall id :: id in t.info ==> Alike(s.info[id], t.info[id]))
    && (forall ip :: ip in t.addr <==> ip in s.addr && !LooseBelow(s, ip, n))
    && (forall ip :: ip in t.addr ==> t.addr[ip] == s.addr[ip])
  }

  predicate LooseBelow(s: State, ip: NetAddr, n: int) {
    exists id :: 0 <= id < n && id in s.info && IsLoose(s, id) && s.info[id].service.ip == ip
  }

  lemma PrunedNext(s: State, t: State, n: nat)
    requires Shuffled(t) && Pruned(s, t, n)
    ensures IsLoose(t, n) ==> Pruned(s, Delete(t, n), n + 1)
    ensures !IsLoose(t, n) ==> Pruned(s, t, n + 1)
  {
    LooseNext(s, n);
    hide LooseBelow, Delete, Shuffled;
    if IsLoose(t, n) {
      DeleteFrame(t, n);
      DeletedKey(t, n);
      PrunedEntries(s, t, Delete(t, n), n);
    }
  }

  lemma PrunedEntries(s: State, t: State, u: State, n: nat)
    requires Pruned(s, t, n) && Forgotten(t, u, n) && IsLoose(t, n)
    ensures u.idCount == s.idCount
    ensures forall id :: id in u.info <==> id in s.info && !(IsLoose(s, id) && 0 <= id < n + 1)
    ensures forall id :: id in u.info ==> Alike(s.info[id], u.info[id])
  {
    hide LooseBelow;
  }

  lemma LooseNext(s: State, n: nat)
    ensures forall ip :: LooseBelow(s, ip, n + 1) <==>
              LooseBelow(s, ip, n) || (n in s.info && IsLoose(s, n) && s.info[n].service.ip == ip)
  {
    forall ip ensures LooseBelow(s, ip, n + 1) <==>
      LooseBelow(s, ip, n) || (n in s.info && IsLoose(s, n) && s.info[n].service.ip == ip) {
    }
  }

  /** Only the key of the entry's address goes with it. */
  lemma DeletedKey(s: State, id: int)
    requires Shuffled(s) && id in s.info
    ensures Delete(s, id).addr == s.addr - {s.info[id].service.ip}
  {
    hide Shuffled, Delete;
    var t := DeleteIs(s, id);
    assert Alike(s.info[id], t.info[id]);
  }

  lemma {:induction false} PrunePlaced(k: Keyed, s: State, n: nat)
    requires Placed(k, s, LooseIds(s))
    ensures var t := Prune(k, s, n);
            && Placed(k, t, LooseIds(t)) && Pruned(s, t, n)
            && (Totalled(s, 0) ==> Totalled(t, 0))
    decreases n, 1
  {
    hide Shuffled, TriedPlaced, NewPlaced, Counted, Totalled, Delete, LooseIds, Pruned;
    if n == 0 {
      NothingPruned(s);
    } else {
      PrunePlaced(k, s, n - 1);
      var t := Prune(k, s, n - 1);
      PrunedNext(s, t, n - 1);
      if IsLoose(t, n - 1) {
        LooseIn(t, n - 1);
        DeletePlaced(k, t, n - 1, LooseIds(t));
        LoosePlaced(k, Delete(t, n - 1), LooseIds(t) - {n - 1});
        if Totalled(s, 0) { DeleteTotals(t, n - 1); }
      }
    }
  }

  lemma PruneShuffled(k: Keyed, s: State, n: nat)
    requires Placed(k, s, LooseIds(s))
    ensures Shuffled(Prune(k, s, n))
    decreases n, 2
  {
    PrunePlaced(k, s, n);
    hide Shuffled, TriedPlaced, NewPlaced, Counted, Totalled, Pruned;
  }

  lemma NothingPruned(s: State)
    ensures Pruned(s, s, 0)
  {
  }

  lemma LooseIn(s: State, id: int)
    ensures IsLoose(s, id) <==> id in LooseIds(s)
  {
  }

  // ------------------------------------------------------------ what loading gives

  /** No entry that is kept has its address in common with another one, kept or pruned. */
  ghost predicate Unshared(s: State) {
    forall i, j :: i in s.info && j in s.info && i != j && !IsLoose(s, i) ==>
      s.info[i].service.ip != s.info[j].service.ip
  }

  /** Whatever is read, if its counts are right, gives a manager in which everything is in order
      but perhaps `mapAddr` and the time stamps, even when the table cannot be used; and `mapAddr`
      is in order exactly when no entry that is kept shares its address. */
  lemma LoadKeeps(k: Keyed, f: File)
    requires Counts(f)
    ensures Placed(k, Load(k, f), {}) && Totalled(Load(k, f), 0)
    ensures Structure(k, Load(k, f)) <==> Indexed(Load(k, f))
    ensures Indexed(Load(k, f)) <==> Unshared(Unpruned(k, f))
  {
    LoadPlaced(k, f);
    hide Shuffled, TriedPlaced, NewPlaced, Counted, Totalled, Pruned, Latest, Indexed, Unshared, Unpruned;
    var s := Unpruned(k, f);
    PrunePlaced(k, s, s.idCount);
    var t := Prune(k, s, s.idCount);
    AllPruned(s, t);
    PrunedIndexed(s, t);
  }

  lemma AllPruned(s: State, t: State)
    requires Latest(s) && Pruned(s, t, s.idCount)
    ensures LooseIds(t) == {}
  {
  }

  lemma PrunedIndexed(s: State, t: State)
    requires Latest(s) && Pruned(s, t, s.idCount)
    ensures Indexed(t) <==> Unshared(s)
  {
    if Indexed(t) { IndexedUnshared(s, t); }
    if Unshared(s) { UnsharedIndexed(s, t); }
  }

  lemma IndexedUnshared(s: State, t: State)
    requires Latest(s) && Pruned(s, t, s.idCount) && Indexed(t)
    ensures Unshared(s)
  {
    forall i, j | i in s.info && j in s.info && i != j && !IsLoose(s, i)
      ensures s.info[i].service.ip != s.info[j].service.ip
    {
      assert i in t.info;
      assert s.info[i].service.ip in t.addr && !LooseBelow(s, s.info[i].service.ip, s.idCount);
    }
  }

  lemma UnsharedIndexed(s: State, t: State)
    requires Latest(s) && Pruned(s, t, s.idCount) && Unshared(s)
    ensures Indexed(t)
  {
    forall id | id in t.info
      ensures 0 <= id < t.idCount && t.info[id].service.ip in t.addr && t.addr[t.info[id].service.ip] == id
    {
      KeyKept(s, t, id);
    }
    forall ip | ip in t.addr ensures var id := t.addr[ip]; id in t.info && t.info[id].service.ip == ip {
      KeyLeads(s, t, ip);
    }
    hide Pruned, Unshared, Latest;
  }

  lemma KeyKept(s: State, t: State, id: int)
    requires Latest(s) && Pruned(s, t, s.idCount) && Unshared(s) && id in t.info
    ensures 0 <= id < t.idCount && t.info[id].service.ip in t.addr && t.addr[t.info[id].service.ip] == id
  {
    var ip := s.info[id].service.ip;
    assert s.addr[ip] == id;
    assert !LooseBelow(s, ip, s.idCount);
  }

  lemma KeyLeads(s: State, t: State, ip: NetAddr)
    requires Latest(s) && Pruned(s, t, s.idCount) && ip in t.addr
    ensures var id := t.addr[ip]; id in t.info && t.info[id].service.ip == ip
  {
    var id := s.addr[ip];
    assert IsLoose(s, id) ==> LooseBelow(s, ip, s.idCount);
  }

  // --------------------------------------------------------------- no address twice

  predicate DistinctIps(recs: seq<Record>) {
    forall i, j :: 0 <= i < j < |recs| ==> recs[i].service.ip != recs[j].service.ip
  }

  /** A file that can have been written: the counts are right, and no address comes twice. */
  predicate Sane(f: File) {
    Counts(f) && DistinctIps(f.news + f.trieds)
  }

  predicate HasIp(recs: seq<Record>, ip: NetAddr) {
    exists i :: 0 <= i < |recs| && recs[i].service.ip == ip
  }

  /** Only addresses that were read are known, and each is that of one entry. */
  ghost predicate Known(s: State, recs: seq<Record>) {
    (forall ip :: ip in s.addr ==> HasIp(recs, ip)) && OneEach(s)
  }

  predicate OneEach(s: State) {
    forall i, j :: i in s.info && j in s.info && i != j ==> s.info[i].service.ip != s.info[j].service.ip
  }

  lemma LastUnknown(s: State, recs: seq<Record>)
    requires recs != [] && DistinctIps(recs) && Known(s, recs[..|recs| - 1])
    ensures recs[|recs| - 1].service.ip !in s.addr && DistinctIps(recs[..|recs| - 1])
  {
  }

  lemma GrownKnown(s: State, t: State, recs: seq<Record>, r: Record)
    requires Latest(s) && Known(s, recs) && Grown(s, t, r) && r.service.ip !in s.addr
    ensures Known(t, recs + [r])
  {
    var all := recs + [r];
    forall ip | ip in t.addr ensures HasIp(all, ip) {
      if ip in s.addr {
        var i :| 0 <= i < |recs| && recs[i].service.ip == ip;
        assert all[i].service.ip == ip;
      } else {
        assert all[|recs|].service.ip == ip;
      }
    }
  }

  lemma DistinctPrefix(recs: seq<Record>)
    requires recs != [] && DistinctIps(recs)
    ensures DistinctIps(recs[..|recs| - 1])
  {
  }

  lemma {:induction false} LoadNewsKnown(k: Keyed, recs: seq<Record>, fPlace: bool)
    requires DistinctIps(recs)
    ensures Known(LoadNews(k, recs, fPlace), recs)
  {
    hide Loaded, Known, DistinctIps, Grown, LoadNew, Latest;
    if recs == [] {
      NoneKnown();
    } else {
      var n := |recs| - 1;
      var first, r := recs[..n], recs[n];
      DistinctPrefix(recs);
      LoadNewsKnown(k, first, fPlace);
      LoadNewsLoaded(k, first, fPlace);
      var s := LoadNews(k, first, fPlace);
      LoadedLatest(k, s);
      LastUnknown(s, recs);
      LoadNewGrown(k, s, r, fPlace);
      GrownKnown(s, LoadNew(k, s, r, fPlace), first, r);
      assert first + [r] == recs;
    }
  }

  lemma NoneKnown()
    ensures Known(EMPTY, [])
  {
  }

  lemma {:induction false} LoadTriedsKnown(k: Keyed, s: State, news: seq<Record>, recs: seq<Record>)
    requires Loaded(k, s) && Known(s, news) && DistinctIps(news + recs) && NewFirst(s, 0)
    ensures Known(LoadTrieds(k, s, recs), news + recs)
  {
    hide Loaded, Known, DistinctIps, Grown, LoadTried, Latest, NewFirst;
    if recs == [] {
      assert news + recs == news;
    } else {
      var n := |recs| - 1;
      var all, first, r := news + recs, recs[..n], recs[n];
      assert all[..|all| - 1] == news + first;
      DistinctPrefix(all);
      LoadTriedsKnown(k, s, news, first);
      LoadTriedsLoaded(k, s, first, 0);
      var t := LoadTrieds(k, s, first);
      LoadedLatest(k, t);
      LastUnknown(t, all);
      LoadTriedGrown(k, t, r);
      GrownKnown(t, LoadTried(k, t, r), news + first, r);
      assert news + first + [r] == all;
    }
  }

  lemma LoadIndexOneEach(k: Keyed, s: State, nNew: int, bucket: nat, idx: int, fUse: bool)
    requires OneEach(s)
    ensures OneEach(LoadIndex(k, s, nNew, bucket, idx, fUse))
  {
  }

  lemma {:induction false} LoadBucketOneEach(k: Keyed, s: State, nNew: int, bucket: nat, idxs: seq<int>, fUse: bool)
    requires OneEach(s)
    ensures OneEach(LoadBucket(k, s, nNew, bucket, idxs, fUse))
  {
    hide OneEach, LoadIndex;
    if idxs != [] {
      var first := idxs[..|idxs| - 1];
      LoadBucketOneEach(k, s, nNew, bucket, first, fUse);
      LoadIndexOneEach(k, LoadBucket(k, s, nNew, bucket, first, fUse), nNew, bucket, idxs[|idxs| - 1], fUse);
    }
  }

  lemma {:induction false} LoadBucketsOneEach(k: Keyed, s: State, nNew: int, buckets: seq<seq<int>>, fUse: bool)
    requires OneEach(s)
    ensures OneEach(LoadBuckets(k, s, nNew, buckets, fUse))
  {
    hide OneEach, LoadBucket;
    if buckets != [] {
      var n := |buckets| - 1;
      LoadBucketsOneEach(k, s, nNew, buckets[..n], fUse);
      LoadBucketOneEach(k, LoadBuckets(k, s, nNew, buckets[..n], fUse), nNew, n, buckets[n], fUse);
    }
  }

  /** A file without an address that comes twice gives a manager with everything in order. */
  lemma SaneKeeps(k: Keyed, f: File)
    requires Sane(f)
    ensures Structure(k, Load(k, f))
  {
    hide Loaded, Known, DistinctIps, NewFirst, Load, Structure, OneEach;
    var s := LoadNews(k, f.news, !Usable(f));
    DistinctNews(f);
    LoadNewsKnown(k, f.news, !Usable(f));
    LoadNewsLoaded(k, f.news, !Usable(f));
    NewFirstNone(s, |f.news|);
    LoadTriedsKnown(k, s, f.news, f.trieds);
    var t := LoadTrieds(k, s, f.trieds);
    KnownOneEach(t, f.news + f.trieds);
    LoadBucketsOneEach(k, t, f.nNew, f.buckets, Usable(f));
    OneEachUnshared(Unpruned(k, f));
    LoadKeeps(k, f);
  }

  lemma DistinctNews(f: File)
    requires Sane(f)
    ensures DistinctIps(f.news) && DistinctIps(f.news + f.trieds)
  {
    forall i, j | 0 <= i < j < |f.news| ensures f.news[i].service.ip != f.news[j].service.ip {
      assert (f.news + f.trieds)[i] == f.news[i] && (f.news + f.trieds)[j] == f.news[j];
    }
  }

  lemma NewFirstNone(s: State, n: nat)
    requires NewFirst(s, n)
    ensures NewFirst(s, 0)
  {
  }

  lemma KnownOneEach(s: State, recs: seq<Record>)
    requires Known(s, recs)
    ensures OneEach(s)
  {
  }

  lemma OneEachUnshared(s: State)
    requires OneEach(s)
    ensures Unshared(s)
  {
  }

  // ------------------------------------------------------------ an address twice

  /** The new entries have the places of their records as ids. */
  predicate NewServices(s: State, recs: seq<Record>) {
    s.idCount >= |recs| && forall i :: 0 <= i < |recs| ==> i in s.info && s.info[i].service == recs[i].service
  }

  lemma {:induction false} NewsServices(k: Keyed, recs: seq<Record>, fPlace: bool)
    ensures NewServices(LoadNews(k, recs, fPlace), recs) && LoadNews(k, recs, fPlace).idCount == |recs|
  {
    if recs != [] { NewsServices(k, recs[..|recs| - 1], fPlace); }
  }

  lemma {:induction false} TriedsServices(k: Keyed, s: State, news: seq<Record>, recs: seq<Record>)
    requires NewServices(s, news)
    ensures NewServices(LoadTrieds(k, s, recs), news)
  {
    if recs != [] { TriedsServices(k, s, news, recs[..|recs| - 1]); }
  }

  lemma {:induction false} BucketServices(k: Keyed, s: State, nNew: int, bucket: nat, idxs: seq<int>, fUse: bool,
                                          news: seq<Record>)
    requires NewServices(s, news)
    ensures NewServices(LoadBucket(k, s, nNew, bucket, idxs, fUse), news)
  {
    if idxs != [] { BucketServices(k, s, nNew, bucket, idxs[..|idxs| - 1], fUse, news); }
  }

  lemma {:induction false} BucketsServices(k: Keyed, s: State, nNew: int, buckets: seq<seq<int>>, fUse: bool,
                                           news: seq<Record>)
    requires NewServices(s, news)
    ensures NewServices(LoadBuckets(k, s, nNew, buckets, fUse), news)
  {
    hide NewServices, LoadBucket;
    if buckets != [] {
      var n := |buckets| - 1;
      BucketsServices(k, s, nNew, buckets[..n], fUse, news);
      BucketServices(k, LoadBuckets(k, s, nNew, buckets[..n], fUse), nNew, n, buckets[n], fUse, news);
    }
  }

  /** Of two new records with the same address neither may be kept. */
  lemma RepeatedNew(k: Keyed, f: File, i: nat, j: nat)
    requires Counts(f) && i < |f.news| && j < |f.news| && i != j && f.news[i].service.ip == f.news[j].service.ip
    ensures Indexed(Load(k, f)) ==> i !in Load(k, f).info
  {
    var u := Unpruned(k, f);
    assert NewServices(u, f.news) by {
      hide NewServices;
      NewsServices(k, f.news, !Usable(f));
      var s := LoadNews(k, f.news, !Usable(f));
      TriedsServices(k, s, f.news, f.trieds);
      BucketsServices(k, LoadTrieds(k, s, f.trieds), f.nNew, f.buckets, Usable(f), f.news);
    }
    LoadKeeps(k, f);
    LoadPlaced(k, f);
    hide Unpruned, Indexed, Loaded;
    if Indexed(Load(k, f)) {
      assert IsLoose(u, i);
      PrunePlaced(k, u, u.idCount);
    }
  }

  /** When the table cannot be used, the first record always has a place: then the index is
      wrong whatever the second one is, if the address is the same. */
  lemma RepeatedNewFails(k: Keyed, r: Record, q: Record)
    requires r.service.ip == q.service.ip
    ensures var f := File(0, 2, 0, 0, [r, q], [], []);
            Counts(f) && !Indexed(Load(k, f))
    ensures !Indexed(LoadNews(k, [r, q], false))
  {
    var f := File(0, 2, 0, 0, [r, q], [], []);
    var u := Unpruned(k, f);
    assert f.news[..1] == [r] && [r][..0] == [];
    LoadPlaced(k, f);
    FirstPlaced(k, r, q);
    assert !IsLoose(u, 0);
    NewsServices(k, [r, q], false);
    assert 0 in u.info && 1 in u.info && u.info[0].service == r.service && u.info[1].service == q.service by {
      NewsServices(k, [r, q], true);
    }
    hide LoadNews, Unpruned, Indexed;
    LoadKeeps(k, f);
  }

  lemma FirstPlaced(k: Keyed, r: Record, q: Record)
    ensures !IsLoose(LoadNews(k, [r, q], true), 0)
  {
    assert [r, q][..1] == [r] && [r][..0] == [];
    assert LoadNews(k, [r], true) == LoadNew(k, EMPTY, r, true);
    var s := LoadNew(k, EMPTY, r, true);
    assert s.info[0].nRefCount == 1;
  }

  /** A tried record that comes twice is only lost: its place is taken by its first copy. */
  lemma RepeatedTried(k: Keyed, f: File, r: Record)
    requires Counts(f) && f.news == [] && f.trieds == [r, r]
    ensures Unpruned(k, f) == LoadTried(k, EMPTY, r) && Structure(k, Load(k, f)) && !Sane(f)
  {
    var t := LoadTried(k, EMPTY, r);
    assert f.trieds[..1] == [r] && [r][..0] == [];
    assert LoadTrieds(k, EMPTY, [r]) == t;
    assert LoadTrieds(k, EMPTY, f.trieds) == t;
    NoneNew(k, t, f.buckets, Usable(f));
    assert forall i :: i in t.info ==> i == 0;
    assert Unshared(t);
    LoadKeeps(k, f);
    assert f.news + f.trieds == [r, r];
    assert [r, r][0].service.ip == [r, r][1].service.ip;
  }

  lemma {:induction false} NoneNewIn(k: Keyed, s: State, bucket: nat, idxs: seq<int>, fUse: bool)
    ensures LoadBucket(k, s, 0, bucket, idxs, fUse) == s
  {
    if idxs != [] { NoneNewIn(k, s, bucket, idxs[..|idxs| - 1], fUse); }
  }

  lemma {:induction false} NoneNew(k: Keyed, s: State, buckets: seq<seq<int>>, fUse: bool)
    ensures LoadBuckets(k, s, 0, buckets, fUse) == s
  {
    if buckets != [] {
      var n := |buckets| - 1;
      NoneNew(k, s, buckets[..n], fUse);
      NoneNewIn(k, s, n, buckets[n], fUse);
    }
  }

  // ------------------------------------------------------------ a manager that was used

  /** What Clear leaves. */
  function Emptied(s: State): State {
    EMPTY.(info := s.info, addr := s.addr)
  }

  /** Clear leaves a right index only if there was nothing to forget. */
  lemma EmptiedIndexed(s: State)
    ensures Indexed(Emptied(s)) <==> s.info == map[] && s.addr == map[]
  {
    if Indexed(Emptied(s)) {
      assert forall id :: id !in s.info;
      assert forall ip :: ip !in s.addr;
    }
  }

  /** Reading a file without records into a manager that has been used leaves all its entries
      in `mapInfo`: none is pruned, and neither `mapAddr` nor `vRandom` has anything to do with them. */
  lemma UsedFails(k: Keyed, s: State, buckets: seq<seq<int>>, fUse: bool)
    requires Structure(k, s) && s.info != map[]
    ensures var t := Emptied(s);
            && LoadBuckets(k, LoadTrieds(k, t, []), 0, buckets, fUse) == t
            && (forall id :: !IsLoose(t, id)) && !Indexed(t) && !Shuffled(t)
  {
    var t := Emptied(s);
    NoneNew(k, t, buckets, fUse);
    EmptiedIndexed(s);
    forall id ensures !IsLoose(t, id) {
      assert id in s.info && !s.info[id].fInTried ==> s.info[id].nRefCount > 0;
    }
    if Shuffled(t) { assert forall id :: id !in s.info; }
  }

  // ---------------------------------------------------- for the loops that build

  lemma TakeTables(t: State, r: Record)
    ensures var u := Take(t, r);
            && u.newTab == t.newTab && u.triedTab == t.triedTab && u.nNew == t.nNew && u.nTried == t.nTried
            && u.idCount == t.idCount + 1 && t.idCount in u.info && forall id :: id in t.info ==> id in u.info
  {
  }

  lemma CountsAre(f: File)
    requires Counts(f)
    ensures f.nNew == |f.news| && f.nTried == |f.trieds| && (Usable(f) ==> |f.buckets| == NEW_BUCKET_COUNT)
  {
  }

  lemma NewsStep(k: Keyed, recs: seq<Record>, n: nat, fPlace: bool)
    requires n < |recs|
    ensures LoadNews(k, recs[..n + 1], fPlace) == LoadNew(k, LoadNews(k, recs[..n], fPlace), recs[n], fPlace)
    ensures LoadNew(k, LoadNews(k, recs[..n], fPlace), recs[n], fPlace).idCount
            == LoadNews(k, recs[..n], fPlace).idCount + 1
  {
    assert recs[..n + 1][..n] == recs[..n];
  }

  lemma TriedsStep(k: Keyed, s: State, recs: seq<Record>, n: nat)
    requires n < |recs|
    ensures LoadTrieds(k, s, recs[..n + 1]) == LoadTried(k, LoadTrieds(k, s, recs[..n]), recs[n])
  {
    assert recs[..n + 1][..n] == recs[..n];
  }

  lemma BucketsStep(k: Keyed, s: State, nNew: int, buckets: seq<seq<int>>, n: nat, fUse: bool)
    requires n < |buckets|
    ensures LoadBuckets(k, s, nNew, buckets[..n + 1], fUse)
         == LoadBucket(k, LoadBuckets(k, s, nNew, buckets[..n], fUse), nNew, n, buckets[n], fUse)
  {
    hide LoadBucket;
    assert buckets[..n + 1][..n] == buckets[..n];
  }

  lemma PlacedShuffled(k: Keyed, s: State, limbo: set<int>)
    requires Placed(k, s, limbo)
    ensures Shuffled(s)
  {
  }

  lemma LoadedPlaced(k: Keyed, s: State)
    requires Loaded(k, s)
    ensures Placed(k, s, LooseIds(s)) && s.idCount >= 0
  {
  }

  lemma CountsStep(k: Keyed, s: State, r: Record, fPlace: bool)
    ensures LoadNew(k, s, r, fPlace).nNew == s.nNew + 1 && LoadNew(k, s, r, fPlace).nTried == s.nTried
    ensures LoadTried(k, s, r).nNew == s.nNew
    ensures LoadTried(k, s, r).nTried == s.nTried + if k.TriedSlot(r.service) in s.triedTab then 0 else 1
  {
  }

  lemma {:induction false} BucketCounts(k: Keyed, s: State, nNew: int, bucket: nat, idxs: seq<int>, fUse: bool)
    ensures var t := LoadBucket(k, s, nNew, bucket, idxs, fUse);
            t.nNew == s.nNew && t.nTried == s.nTried && t.idCount == s.idCount
  {
    if idxs != [] { BucketCounts(k, s, nNew, bucket, idxs[..|idxs| - 1], fUse); }
  }
}

/** Loading what was saved loses nothing: the same entries are in the same places of both
    tables, under new ids. */
module AddrRestore {
  import opened AddrCheck
  import opened AddrFile
  import opened AddrState

  // ---------------------------------------------------------------------- saving

  /** Whether an entry is written among the new ones, or among the tried ones. */
  predicate Chosen(s: State, id: int, fTried: bool) {
    id in s.info && if fTried then s.info[id].fInTried else s.info[id].nRefCount != 0
  }

  /** The ids below `n` in the order in which the map is gone through. */
  function IdsBelow(s: State, n: nat, fTried: bool): (l: seq<int>)
    ensures forall i :: 0 <= i < |l| ==> 0 <= l[i] < n && Chosen(s, l[i], fTried)
    ensures forall i, j :: 0 <= i < j < |l| ==> l[i] < l[j]
  {
    if n == 0 then [] else
      IdsBelow(s, n - 1, fTried) + if Chosen(s, n - 1, fTried) then [n - 1] else []
  }

  /** The ids of all that is written: their positions are the new ids. */
  function Written(s: State): (ids: seq<int>)
    requires s.idCount >= 0
    ensures forall x :: 0 <= x < |ids| ==> ids[x] in s.info
  {
    IdsBelow(s, s.idCount, false) + IdsBelow(s, s.idCount, true)
  }

  /** mapUnkIds: how many new entries have a smaller id. */
  function Rank(s: State, id: int): nat
    requires id >= 0
  {
    |IdsBelow(s, id, false)|
  }

  function Records(s: State, ids: seq<int>): (recs: seq<Record>)
    requires forall i :: 0 <= i < |ids| ==> ids[i] in s.info
    ensures |recs| == |ids| && forall i :: 0 <= i < |ids| ==> recs[i] == RecordOf(s.info[ids[i]])
  {
    seq(|ids|, i requires 0 <= i < |ids| => RecordOf(s.info[ids[i]]))
  }

  /** The indices written for the first `i` places of a bucket. */
  function BucketIndices(s: State, bucket: nat, i: nat): seq<int> {
    if i == 0 then [] else
      var sl, rest := Slot(bucket, i - 1), BucketIndices(s, bucket, i - 1);
      if sl in s.newTab && s.newTab[sl] >= 0 then rest + [Rank(s, s.newTab[sl])] else rest
  }

  function Save(s: State): File
    requires s.idCount >= 0
  {
    File(VERSION, s.nNew, s.nTried, NEW_BUCKET_COUNT,
         Records(s, IdsBelow(s, s.idCount, false)), Records(s, IdsBelow(s, s.idCount, true)),
         seq(NEW_BUCKET_COUNT, b requires 0 <= b < NEW_BUCKET_COUNT => BucketIndices(s, b, BUCKET_SIZE)))
  }

  // ----------------------------------------------------------- what the lists hold

  lemma {:induction false} ListedAt(s: State, n: nat, fTried: bool, id: int)
    requires 0 <= id < n && Chosen(s, id, fTried)
    ensures |IdsBelow(s, id, fTried)| < |IdsBelow(s, n, fTried)|
            && IdsBelow(s, n, fTried)[|IdsBelow(s, id, fTried)|] == id
  {
    if id < n - 1 { ListedAt(s, n - 1, fTried, id); }
  }

  /** Under the invariant, exactly the entries that are not tried have references. */
  lemma ChosenNew(k: Keyed, s: State, id: int)
    requires Linked(k, s, {})
    ensures Chosen(s, id, false) <==> IsNew(s, id)
  {
    if id in s.info && s.info[id].fInTried {
      assert SlotsOf(s.newTab, id) == {} by {
        forall sl | sl in s.newTab ensures s.newTab[sl] != id {
        }
      }
    }
  }

  lemma {:induction false} ListedCount(k: Keyed, s: State, n: nat)
    requires Linked(k, s, {})
    ensures |IdsBelow(s, n, false)| == |AddrCheck.NewBelow(s, n)|
    ensures |IdsBelow(s, n, true)| == |TriedBelow(s, n)|
  {
    hide Linked, Chosen, AddrCheck.NewBelow, TriedBelow, IsNew, IsTried;
    if n == 0 {
      NoneBelow(k, s);
    } else {
      ListedCount(k, s, n - 1);
      BelowNext(s, n - 1);
      ChosenNew(k, s, n - 1);
      ChosenTried(s, n - 1);
      BelowFresh(s, n - 1);
    }
  }

  lemma NoneBelow(k: Keyed, s: State)
    requires Linked(k, s, {})
    ensures AddrCheck.NewBelow(s, 0) == {} && TriedBelow(s, 0) == {}
  {
  }

  lemma ChosenTried(s: State, id: int)
    ensures Chosen(s, id, true) <==> IsTried(s, id)
  {
  }

  lemma BelowFresh(s: State, n: int)
    ensures n !in AddrCheck.NewBelow(s, n) && n !in TriedBelow(s, n)
  {
  }

  /** The counters are the numbers of written records, so the writer's assertions hold. */
  lemma CountsWritten(k: Keyed, s: State)
    requires Structure(k, s)
    ensures s.idCount >= 0 && |IdsBelow(s, s.idCount, false)| == s.nNew && |IdsBelow(s, s.idCount, true)| == s.nTried
  {
    hide Shuffled, TriedPlaced, NewPlaced, Counted, IdsBelow;
    ListedCount(k, s, s.idCount);
    BelowAll(s);
  }

  /** Every entry is written once. */
  ghost predicate WritesAll(s: State, ids: seq<int>) {
    && (forall x :: 0 <= x < |ids| ==> ids[x] in s.info)
    && (forall x, y :: 0 <= x < y < |ids| ==> ids[x] != ids[y])
    && (forall id :: id in s.info ==> exists x :: 0 <= x < |ids| && ids[x] == id)
  }

  lemma WrittenAll(k: Keyed, s: State)
    requires Linked(k, s, {})
    ensures s.idCount >= 0 && WritesAll(s, Written(s))
  {
    LinkedIndexed(k, s);
    hide Linked, IdsBelow;
    var n, t := IdsBelow(s, s.idCount, false), IdsBelow(s, s.idCount, true);
    var ids := Written(s);
    forall x, y | 0 <= x < y < |ids| ensures ids[x] != ids[y] {
      ChosenNew(k, s, ids[x]);
    }
    forall id | id in s.info ensures exists x :: 0 <= x < |ids| && ids[x] == id {
      var x := WrittenPlace(k, s, id);
    }
  }

  lemma WrittenPlace(k: Keyed, s: State, id: int) returns (x: nat)
    requires Linked(k, s, {}) && s.idCount >= 0 && id in s.info
    ensures x < |Written(s)| && Written(s)[x] == id
  {
    LinkedIndexed(k, s);
    hide Linked, IdsBelow;
    ChosenNew(k, s, id);
    var n := IdsBelow(s, s.idCount, false);
    if IsNew(s, id) {
      ListedAt(s, s.idCount, false, id);
      x := |IdsBelow(s, id, false)|;
    } else {
      ListedAt(s, s.idCount, true, id);
      x := |n| + |IdsBelow(s, id, true)|;
    }
  }

  lemma WrittenAt(k: Keyed, s: State, x: nat)
    requires Linked(k, s, {}) && s.idCount >= 0 && x < |Written(s)|
    ensures s.info[Written(s)[x]].fInTried <==> x >= |IdsBelow(s, s.idCount, false)|
  {
    hide Linked, IdsBelow;
    var id, n := Written(s)[x], |IdsBelow(s, s.idCount, false)|;
    ChosenNew(k, s, id);
    if x >= n { assert Chosen(s, id, true); }
  }

  lemma WrittenInOrder(k: Keyed, s: State)
    requires Linked(k, s, {})
    ensures s.idCount >= 0 && InOrder(s, Written(s), |IdsBelow(s, s.idCount, false)|)
  {
    WrittenAll(k, s);
    assert |IdsBelow(s, s.idCount, false)| <= |Written(s)|;
    hide Linked, WritesAll, IdsBelow, Written;
    forall x: nat | x < |Written(s)| ensures s.info[Written(s)[x]].fInTried <==> x >= |IdsBelow(s, s.idCount, false)| {
      WrittenAt(k, s, x);
    }
  }

  /** A written id is found again by its rank. */
  lemma RankWritten(k: Keyed, s: State, id: int)
    requires Linked(k, s, {}) && IsNew(s, id)
    ensures s.idCount >= 0 && 0 <= id && Rank(s, id) < |IdsBelow(s, s.idCount, false)| && Written(s)[Rank(s, id)] == id
  {
    ChosenNew(k, s, id);
    ListedAt(s, s.idCount, false, id);
  }

  // ----------------------------------------------------------- copying the entries

  /** What is kept of an entry. */
  predicate CopyOf(e: AddrInfo, f: AddrInfo) {
    RecordOf(f) == RecordOf(e) && f.fInTried == e.fInTried && f.nLastTry == 0
  }

  /** The first `n` written entries have been copied, and have their positions as ids. */
  ghost predicate Copied(s: State, t: State, ids: seq<int>, n: nat)
    requires n <= |ids| && forall x :: 0 <= x < |ids| ==> ids[x] in s.info
  {
    && t.idCount == n
    && (forall x :: x in t.info <==> 0 <= x < n)
    && (forall x :: 0 <= x < n ==> CopyOf(s.info[ids[x]], t.info[x]))
  }

  lemma CopyUnknown(s: State, t: State, ids: seq<int>, n: nat)
    requires Indexed(s) && Latest(t) && WritesAll(s, ids) && n < |ids| && Copied(s, t, ids, n)
    ensures s.info[ids[n]].service.ip !in t.addr
  {
    var ip := s.info[ids[n]].service.ip;
    assert s.addr[ip] == ids[n];
    forall y | y in t.info ensures t.info[y].service.ip != ip {
      assert ids[y] != ids[n];
      assert s.addr[s.info[ids[y]].service.ip] == ids[y];
      assert RecordOf(t.info[y]).service == RecordOf(s.info[ids[y]]).service;
    }
  }

  lemma TakeCopies(s: State, t: State, ids: seq<int>, n: nat)
    requires n < |ids| && (forall x :: 0 <= x < |ids| ==> ids[x] in s.info) && Copied(s, t, ids, n)
    ensures var u := Take(t, RecordOf(s.info[ids[n]]));
            && u.idCount == n + 1 && (forall x :: x in u.info <==> 0 <= x < n + 1)
            && (forall x :: 0 <= x < n ==> u.info[x] == t.info[x])
            && CopyOf(s.info[ids[n]].(fInTried := false), u.info[n])
            && u.newTab == t.newTab && u.triedTab == t.triedTab && u.nNew == t.nNew && u.nTried == t.nTried
  {
  }

  /** `ids` lists `n` new entries and then tried ones, every entry once. */
  ghost predicate InOrder(s: State, ids: seq<int>, n: nat) {
    && WritesAll(s, ids) && n <= |ids|
    && (forall x :: 0 <= x < n ==> !s.info[ids[x]].fInTried)
    && (forall x :: n <= x < |ids| ==> s.info[ids[x]].fInTried)
  }

  function NewsUpTo(k: Keyed, s: State, ids: seq<int>, i: nat): State
    requires i <= |ids| && forall x :: 0 <= x < |ids| ==> ids[x] in s.info
  {
    LoadNews(k, Records(s, ids[..i]), false)
  }

  lemma NewsNext(k: Keyed, s: State, ids: seq<int>, i: nat)
    requires i < |ids| && forall x :: 0 <= x < |ids| ==> ids[x] in s.info
    ensures NewsUpTo(k, s, ids, i + 1) == LoadNew(k, NewsUpTo(k, s, ids, i), RecordOf(s.info[ids[i]]), false)
  {
    hide LoadNew;
    var recs := Records(s, ids[..i + 1]);
    assert recs[..i] == Records(s, ids[..i]);
  }

  /** Tried entries are loaded after `n` new ones. */
  function TriedsUpTo(k: Keyed, s: State, ids: seq<int>, n: nat, i: nat): State
    requires n <= i <= |ids| && forall x :: 0 <= x < |ids| ==> ids[x] in s.info
  {
    LoadTrieds(k, NewsUpTo(k, s, ids, n), Records(s, ids[n..i]))
  }

  lemma TriedsNext(k: Keyed, s: State, ids: seq<int>, n: nat, i: nat)
    requires n <= i < |ids| && forall x :: 0 <= x < |ids| ==> ids[x] in s.info
    ensures TriedsUpTo(k, s, ids, n, i + 1) == LoadTried(k, TriedsUpTo(k, s, ids, n, i), RecordOf(s.info[ids[i]]))
  {
    hide LoadTried, NewsUpTo;
    var recs := Records(s, ids[n..i + 1]);
    assert recs[..i - n] == Records(s, ids[n..i]);
    assert recs[i - n] == RecordOf(s.info[ids[i]]);
  }

  lemma CopyNew(k: Keyed, s: State, t: State, ids: seq<int>, n: nat)
    requires Indexed(s) && WritesAll(s, ids) && n < |ids| && !s.info[ids[n]].fInTried
    requires Loaded(k, t) && Copied(s, t, ids, n)
    ensures var u := LoadNew(k, t, RecordOf(s.info[ids[n]]), false);
            && Loaded(k, u) && Copied(s, u, ids, n + 1)
            && u.newTab == t.newTab && u.nNew == t.nNew + 1 && u.nTried == t.nTried
  {
    hide Loaded, Latest, CopyOf, Indexed;
    var r := RecordOf(s.info[ids[n]]);
    LoadedLatest(k, t);
    CopyUnknown(s, t, ids, n);
    LoadNewLoaded(k, t, r, false);
    TakeCopies(s, t, ids, n);
    assert s.info[ids[n]].(fInTried := false) == s.info[ids[n]];
    hide Take;
  }

  /** After the new entries. */
  lemma {:induction false} CopyNews(k: Keyed, s: State, ids: seq<int>, n: nat, i: nat)
    requires Indexed(s) && InOrder(s, ids, n) && i <= n
    ensures var t := NewsUpTo(k, s, ids, i);
            Loaded(k, t) && Copied(s, t, ids, i) && t.newTab == map[] && t.nNew == i && t.nTried == 0
  {
    hide Indexed, Loaded, LoadNew, NewsUpTo, CopyOf;
    if i == 0 {
      EmptyLoaded(k);
      assert NewsUpTo(k, s, ids, 0) == EMPTY by { NewsNone(k, s, ids); }
    } else {
      CopyNews(k, s, ids, n, i - 1);
      NewsNext(k, s, ids, i - 1);
      CopyNew(k, s, NewsUpTo(k, s, ids, i - 1), ids, i - 1);
    }
  }

  lemma NewsNone(k: Keyed, s: State, ids: seq<int>)
    requires forall x :: 0 <= x < |ids| ==> ids[x] in s.info
    ensures NewsUpTo(k, s, ids, 0) == EMPTY
  {
  }

  lemma LinkedIndexed(k: Keyed, s: State)
    requires Linked(k, s, {})
    ensures Indexed(s) && TriedPlaced(k, s)
  {
  }

  /** The place of a copy in the tried table is free, since it is only the original's. */
  lemma CopyTriedFree(k: Keyed, s: State, t: State, ids: seq<int>, n: nat)
    requires TriedPlaced(k, s) && TriedPlaced(k, t) && WritesAll(s, ids) && n < |ids| && Copied(s, t, ids, n)
    requires s.info[ids[n]].fInTried
    ensures k.TriedSlot(s.info[ids[n]].service) !in t.triedTab
  {
    var sl := k.TriedSlot(s.info[ids[n]].service);
    assert s.triedTab[sl] == ids[n];
    forall y | y in t.info && t.info[y].fInTried ensures k.TriedSlot(t.info[y].service) != sl {
      assert ids[y] != ids[n];
      assert s.triedTab[k.TriedSlot(s.info[ids[y]].service)] == ids[y];
      assert RecordOf(t.info[y]).service == RecordOf(s.info[ids[y]]).service;
    }
  }

  lemma LoadedTried(k: Keyed, t: State)
    requires Loaded(k, t)
    ensures TriedPlaced(k, t)
  {
  }

  lemma CopyTried(k: Keyed, s: State, t: State, ids: seq<int>, n: nat)
    requires Indexed(s) && TriedPlaced(k, s) && WritesAll(s, ids) && n < |ids| && s.info[ids[n]].fInTried
    requires Loaded(k, t) && Copied(s, t, ids, n)
    ensures var u := LoadTried(k, t, RecordOf(s.info[ids[n]]));
            && Loaded(k, u) && Copied(s, u, ids, n + 1)
            && u.newTab == t.newTab && u.nNew == t.nNew && u.nTried == t.nTried + 1
  {
    hide Loaded, Latest, CopyOf, Indexed, TriedPlaced, Take;
    LoadedLatest(k, t);
    LoadedTried(k, t);
    CopyUnknown(s, t, ids, n);
    CopyTriedFree(k, s, t, ids, n);
    LoadTriedLoaded(k, t, RecordOf(s.info[ids[n]]));
    PromoteCopies(k, s, t, ids, n);
  }

  /** After the tried entries. */
  lemma {:induction false} CopyTrieds(k: Keyed, s: State, ids: seq<int>, n: nat, i: nat)
    requires Indexed(s) && TriedPlaced(k, s) && InOrder(s, ids, n) && n <= i <= |ids|
    ensures var t := TriedsUpTo(k, s, ids, n, i);
            Loaded(k, t) && Copied(s, t, ids, i) && t.newTab == map[] && t.nNew == n && t.nTried == i - n
  {
    hide Indexed, TriedPlaced, Loaded, LoadTried, NewsUpTo, TriedsUpTo, CopyOf;
    if i == n {
      CopyNews(k, s, ids, n, n);
      TriedsNone(k, s, ids, n);
    } else {
      CopyTrieds(k, s, ids, n, i - 1);
      TriedsNext(k, s, ids, n, i - 1);
      CopyTried(k, s, TriedsUpTo(k, s, ids, n, i - 1), ids, i - 1);
    }
  }

  lemma TriedsNone(k: Keyed, s: State, ids: seq<int>, n: nat)
    requires n <= |ids| && forall x :: 0 <= x < |ids| ==> ids[x] in s.info
    ensures TriedsUpTo(k, s, ids, n, n) == NewsUpTo(k, s, ids, n)
  {
    hide NewsUpTo;
  }

  lemma PromoteCopies(k: Keyed, s: State, t: State, ids: seq<int>, n: nat)
    requires n < |ids| && (forall x :: 0 <= x < |ids| ==> ids[x] in s.info) && Copied(s, t, ids, n)
    requires s.info[ids[n]].fInTried && k.TriedSlot(s.info[ids[n]].service) !in t.triedTab
    ensures var u := LoadTried(k, t, RecordOf(s.info[ids[n]]));
            Copied(s, u, ids, n + 1) && u.newTab == t.newTab && u.nNew == t.nNew && u.nTried == t.nTried + 1
  {
    hide Take;
    TakeCopies(s, t, ids, n);
  }

  // --------------------------------------------------------- copying the new table

  /** The part of the new table that has been copied. */
  ghost predicate TableCopied(s: State, t: State, ids: seq<int>, part: map<Slot, int>) {
    && (forall sl :: sl in t.newTab <==> sl in part)
    && (forall sl :: sl in t.newTab ==> 0 <= t.newTab[sl] < |ids| && ids[t.newTab[sl]] == part[sl])
  }

  /** Copies hold as many slots as their originals do in that part. */
  lemma CopySlots(s: State, t: State, ids: seq<int>, part: map<Slot, int>, x: int)
    requires TableCopied(s, t, ids, part) && 0 <= x < |ids| && forall x, y :: 0 <= x < y < |ids| ==> ids[x] != ids[y]
    ensures SlotsOf(t.newTab, x) == SlotsOf(part, ids[x])
  {
    forall sl ensures sl in SlotsOf(t.newTab, x) <==> sl in SlotsOf(part, ids[x]) {
      if sl in part {
        var y := t.newTab[sl];
        assert ids[y] == part[sl];
        if x < y { assert ids[x] != ids[y]; } else if y < x { assert ids[y] != ids[x]; }
      }
    }
  }

  lemma PartCount(m: map<Slot, int>, b: nat, i: nat, id: int)
    requires Slot(b, i) in m && m[Slot(b, i)] == id
    ensures |SlotsOf(ScannedPart(m, b, i), id)| < |SlotsOf(m, id)|
  {
    ScannedCount(m, b, i, id);
    SubsetCount(SlotsOf(ScannedPart(m, b, i + 1), id), SlotsOf(m, id));
  }

  /** There is room for one more slot, since the original has it as well. */
  lemma CopyRoom(k: Keyed, s: State, t: State, ids: seq<int>, b: nat, i: nat, x: int)
    requires Linked(k, s, {}) && WritesAll(s, ids) && Loaded(k, t) && x in t.info
    requires TableCopied(s, t, ids, ScannedPart(s.newTab, b, i)) && 0 <= x < |ids|
    requires Slot(b, i) in s.newTab && s.newTab[Slot(b, i)] == ids[x]
    ensures t.info[x].nRefCount < NEW_BUCKETS_PER_ADDRESS
  {
    hide Linked, Placed, Loaded, TableCopied, ScannedPart, SlotsOf;
    CopySlots(s, t, ids, ScannedPart(s.newTab, b, i), x);
    PartCount(s.newTab, b, i, ids[x]);
    LinkedPlaced(k, s);
    LoadedPlaced(k, t);
    CountOf(k, s, {}, ids[x]);
    CountOf(k, t, LooseIds(t), x);
  }

  lemma LinkedPlaced(k: Keyed, s: State)
    requires Linked(k, s, {})
    ensures Placed(k, s, {})
  {
  }

  lemma CountOf(k: Keyed, s: State, limbo: set<int>, id: int)
    requires Placed(k, s, limbo) && id in s.info
    ensures s.info[id].nRefCount == |SlotsOf(s.newTab, id)| <= NEW_BUCKETS_PER_ADDRESS
  {
  }

  /** The copy is complete but for the new table, of which `part` has been copied. */
  ghost predicate Copying(k: Keyed, s: State, t: State, b: nat, i: nat)
    requires s.idCount >= 0
  {
    var ids := Written(s);
    && t.nNew == s.nNew && t.nTried == s.nTried
    && Loaded(k, t) && Copied(s, t, ids, |ids|) && TableCopied(s, t, ids, ScannedPart(s.newTab, b, i))
  }

  lemma EnterCopies(s: State, t: State, ids: seq<int>, b: nat, i: nat, x: int)
    requires (forall x :: 0 <= x < |ids| ==> ids[x] in s.info) && Copied(s, t, ids, |ids|) && 0 <= x < |ids|
    requires TableCopied(s, t, ids, ScannedPart(s.newTab, b, i))
    requires Slot(b, i) in s.newTab && s.newTab[Slot(b, i)] == ids[x]
    ensures var u := Enter(t, x, Slot(b, i));
            Copied(s, u, ids, |ids|) && TableCopied(s, u, ids, ScannedPart(s.newTab, b, i + 1))
  {
    ScannedNext(s.newTab, b, i);
    hide ScannedPart;
  }

  lemma CopySlot(k: Keyed, s: State, t: State, b: nat, i: nat)
    requires Linked(k, s, {}) && s.idCount >= 0 && b < NEW_BUCKET_COUNT && Copying(k, s, t, b, i)
    requires Slot(b, i) in s.newTab
    ensures s.newTab[Slot(b, i)] >= 0
    ensures var nNew, idx := |IdsBelow(s, s.idCount, false)|, Rank(s, s.newTab[Slot(b, i)]);
            Copying(k, s, LoadIndex(k, t, nNew, b, idx, true), b, i + 1)
  {
    hide Shuffled, TriedPlaced, Counted, IdsBelow, CopyOf, Indexed, TableCopied;
    var ids, id := Written(s), s.newTab[Slot(b, i)];
    WrittenAll(k, s);
    HolderNew(k, s, Slot(b, i));
    RankWritten(k, s, id);
    var x := Rank(s, id);
    CopiedAt(s, t, ids, x);
    SlotFree(s, t, ids, b, i);
    hide Written, Rank, Linked;
    CopyRoom(k, s, t, ids, b, i, x);
    NewsFirst(k, s, t, ids);
    LoadIndexLoaded(k, t, |IdsBelow(s, s.idCount, false)|, b, x, true);
    EnterCopies(s, t, ids, b, i, x);
  }

  lemma HolderNew(k: Keyed, s: State, sl: Slot)
    requires Linked(k, s, {}) && sl in s.newTab
    ensures IsNew(s, s.newTab[sl]) && s.newTab[sl] >= 0
    ensures sl.bucket < NEW_BUCKET_COUNT && sl.pos < BUCKET_SIZE
    ensures sl == k.NewSlot(s.info[s.newTab[sl]].service, sl.bucket)
  {
  }

  lemma CopiedAt(s: State, t: State, ids: seq<int>, x: nat)
    requires x < |ids| && (forall x :: 0 <= x < |ids| ==> ids[x] in s.info) && Copied(s, t, ids, |ids|)
    ensures x in t.info && t.info[x].service == s.info[ids[x]].service && t.info[x].fInTried == s.info[ids[x]].fInTried
  {
  }

  lemma SlotFree(s: State, t: State, ids: seq<int>, b: nat, i: nat)
    requires TableCopied(s, t, ids, ScannedPart(s.newTab, b, i))
    ensures Slot(b, i) !in t.newTab
  {
  }

  lemma NewsFirst(k: Keyed, s: State, t: State, ids: seq<int>)
    requires Linked(k, s, {}) && s.idCount >= 0 && ids == Written(s) && Copied(s, t, ids, |ids|)
    ensures NewFirst(t, |IdsBelow(s, s.idCount, false)|)
  {
    hide Linked;
    var n := IdsBelow(s, s.idCount, false);
    forall x | x in t.info && x < |n| ensures !t.info[x].fInTried {
      assert ids[x] == n[x];
      ChosenNew(k, s, n[x]);
    }
  }

  lemma {:induction false} CopyBucket(k: Keyed, s: State, t: State, b: nat, i: nat)
    requires Linked(k, s, {}) && s.idCount >= 0 && b < NEW_BUCKET_COUNT && Copying(k, s, t, b, 0)
    ensures Copying(k, s, LoadBucket(k, t, |IdsBelow(s, s.idCount, false)|, b, BucketIndices(s, b, i), true), b, i)
  {
    hide Linked, Copying, IdsBelow, Rank;
    if i > 0 {
      CopyBucket(k, s, t, b, i - 1);
      var nNew := |IdsBelow(s, s.idCount, false)|;
      var idxs, sl := BucketIndices(s, b, i - 1), Slot(b, i - 1);
      var u := LoadBucket(k, t, nNew, b, idxs, true);
      if sl in s.newTab {
        CopySlot(k, s, u, b, i - 1);
        assert (idxs + [Rank(s, s.newTab[sl])])[..|idxs|] == idxs;
      } else {
        CopyNothing(k, s, u, b, i - 1);
      }
    }
  }

  lemma CopyNothing(k: Keyed, s: State, t: State, b: nat, i: nat)
    requires s.idCount >= 0 && Copying(k, s, t, b, i) && Slot(b, i) !in s.newTab
    ensures Copying(k, s, t, b, i + 1)
  {
    ScannedNext(s.newTab, b, i);
    hide ScannedPart, Loaded;
  }

  /** A bucket has no more places. */
  lemma CopyNextBucket(k: Keyed, s: State, t: State, b: nat)
    requires Linked(k, s, {}) && s.idCount >= 0 && Copying(k, s, t, b, BUCKET_SIZE)
    ensures Copying(k, s, t, b + 1, 0)
  {
    hide Linked, Loaded, Copied, TableCopied, Written;
    assert ScannedPart(s.newTab, b, BUCKET_SIZE) == ScannedPart(s.newTab, b + 1, 0) by {
      forall sl | sl in s.newTab ensures Before(sl, b, BUCKET_SIZE) <==> Before(sl, b + 1, 0) {
        HolderNew(k, s, sl);
      }
    }
  }

  function AllBuckets(s: State, n: nat): (buckets: seq<seq<int>>)
    ensures |buckets| == n && forall b :: 0 <= b < n ==> buckets[b] == BucketIndices(s, b, BUCKET_SIZE)
  {
    seq(n, b requires 0 <= b < n => BucketIndices(s, b, BUCKET_SIZE))
  }

  lemma {:induction false} CopyBuckets(k: Keyed, s: State, t: State, n: nat)
    requires Linked(k, s, {}) && s.idCount >= 0 && n <= NEW_BUCKET_COUNT && Copying(k, s, t, 0, 0)
    ensures Copying(k, s, LoadBuckets(k, t, |IdsBelow(s, s.idCount, false)|, AllBuckets(s, n), true), n, 0)
  {
    hide Linked, Copying, IdsBelow, BucketIndices;
    if n > 0 {
      CopyBuckets(k, s, t, n - 1);
      assert AllBuckets(s, n)[..n - 1] == AllBuckets(s, n - 1);
      var u := LoadBuckets(k, t, |IdsBelow(s, s.idCount, false)|, AllBuckets(s, n - 1), true);
      CopyBucket(k, s, u, n - 1, BUCKET_SIZE);
      var idxs := BucketIndices(s, n - 1, BUCKET_SIZE);
      CopyNextBucket(k, s, LoadBucket(k, u, |IdsBelow(s, s.idCount, false)|, n - 1, idxs, true), n - 1);
    }
  }

  // ------------------------------------------------------------------ nothing is lost

  /** `t` is `s` with new ids: entry x of `t` is a copy of entry ids[x] of `s`, with as many
      references, and has its places in both tables. */
  ghost predicate Restored(s: State, t: State, ids: seq<int>) {
    && WritesAll(s, ids) && (forall x :: x in t.info <==> 0 <= x < |ids|)
    && (forall x :: x in t.info ==>
        CopyOf(s.info[ids[x]], t.info[x]) && t.info[x].nRefCount == s.info[ids[x]].nRefCount)
    && SameTable(s.triedTab, t.triedTab, ids) && SameTable(s.newTab, t.newTab, ids)
    && t.nNew == s.nNew && t.nTried == s.nTried
  }

  ghost predicate SameTable(m: map<Slot, int>, n: map<Slot, int>, ids: seq<int>) {
    && (forall sl :: sl in n <==> sl in m)
    && (forall sl :: sl in n ==> 0 <= n[sl] < |ids| && ids[n[sl]] == m[sl])
  }

  lemma SaveSane(k: Keyed, s: State)
    requires Structure(k, s)
    ensures s.idCount >= 0 && Sane(Save(s)) && Usable(Save(s))
    ensures Save(s).buckets == AllBuckets(s, NEW_BUCKET_COUNT)
    ensures var ids, n := Written(s), |IdsBelow(s, s.idCount, false)|;
            Save(s).news == Records(s, ids[..n]) && Save(s).trieds == Records(s, ids[n..])
  {
    CountsWritten(k, s);
    WrittenAll(k, s);
    LinkedIndexed(k, s);
    hide Linked, Structure, IdsBelow, BucketIndices;
    var ids, n, f := Written(s), |IdsBelow(s, s.idCount, false)|, Save(s);
    assert ids[..n] == IdsBelow(s, s.idCount, false) && ids[n..] == IdsBelow(s, s.idCount, true);
    assert f.news == Records(s, ids[..n]) && f.trieds == Records(s, ids[n..]);
    hide Written;
    DistinctRecords(s, ids, n);
  }

  lemma DistinctRecords(s: State, ids: seq<int>, n: nat)
    requires Indexed(s) && WritesAll(s, ids) && n <= |ids|
    ensures var all := Records(s, ids[..n]) + Records(s, ids[n..]);
            forall i, j :: 0 <= i < j < |all| ==> all[i].service.ip != all[j].service.ip
  {
    hide Records;
    var all := Records(s, ids[..n]) + Records(s, ids[n..]);
    forall i | 0 <= i < |all| ensures all[i] == RecordOf(s.info[ids[i]]) {
    }
    forall i, j | 0 <= i < j < |all| ensures all[i].service.ip != all[j].service.ip {
      var a, b := ids[i], ids[j];
      assert a != b;
      assert s.addr[s.info[a].service.ip] == a && s.addr[s.info[b].service.ip] == b;
    }
  }

  /** Loading into a fresh manager what was saved from a consistent one loses nothing, prunes
      nothing, and gives a consistent one, with time stamps as usable as they were. */
  lemma RoundTrip(k: Keyed, s: State)
    requires Structure(k, s)
    ensures s.idCount >= 0 && Sane(Save(s))
    ensures Restored(s, Load(k, Save(s)), Written(s)) && Structure(k, Load(k, Save(s)))
    ensures Inv(k, s) ==> Inv(k, Load(k, Save(s)))
  {
    hide Shuffled, TriedPlaced, NewPlaced, Counted, Totalled, Stamped, Indexed, Load, LoadNews, LoadTrieds, LoadBuckets;
    SaveSane(k, s);
    var ids, n := Written(s), |IdsBelow(s, s.idCount, false)|;
    CountsWritten(k, s);
    WrittenInOrder(k, s);
    LinkedIndexed(k, s);
    CopyTrieds(k, s, ids, n, |ids|);
    assert ids[n..|ids|] == ids[n..];
    var t := TriedsUpTo(k, s, ids, n, |ids|);
    StartCopying(k, s, t, ids);
    CopyBuckets(k, s, t, NEW_BUCKET_COUNT);
    var u := LoadBuckets(k, t, n, AllBuckets(s, NEW_BUCKET_COUNT), true);
    assert u == Unpruned(k, Save(s));
    hide Unpruned, Save;
    CopyingDone(k, s, u);
    UnprunedSame(k, Save(s));
    SaneKeeps(k, Save(s));
    WrittenAll(k, s);
    RestoredFrom(k, s, u, ids);
  }

  lemma StartCopying(k: Keyed, s: State, t: State, ids: seq<int>)
    requires s.idCount >= 0 && ids == Written(s) && Loaded(k, t) && Copied(s, t, ids, |ids|) && t.newTab == map[]
    requires t.nNew == s.nNew && t.nTried == s.nTried
    ensures Copying(k, s, t, 0, 0)
  {
    hide Loaded, Copied, Written;
    assert forall sl :: sl !in ScannedPart(s.newTab, 0, 0);
  }

  lemma AllScanned(k: Keyed, s: State)
    requires Linked(k, s, {})
    ensures ScannedPart(s.newTab, NEW_BUCKET_COUNT, 0) == s.newTab
  {
    hide Linked;
    forall sl | sl in s.newTab ensures Before(sl, NEW_BUCKET_COUNT, 0) {
      HolderNew(k, s, sl);
    }
  }

  /** With the whole table copied, a copy has as many references as its original. */
  lemma CopyCounts(k: Keyed, s: State, t: State, ids: seq<int>, x: int)
    requires Linked(k, s, {}) && WritesAll(s, ids) && Loaded(k, t) && Copied(s, t, ids, |ids|)
    requires TableCopied(s, t, ids, s.newTab) && x in t.info
    ensures 0 <= x < |ids| && t.info[x].nRefCount == s.info[ids[x]].nRefCount && !IsLoose(t, x)
  {
    hide Linked, Placed, Loaded, TableCopied, SlotsOf;
    CopySlots(s, t, ids, s.newTab, x);
    LinkedPlaced(k, s);
    LoadedPlaced(k, t);
    CountOf(k, s, {}, ids[x]);
    CountOf(k, t, LooseIds(t), x);
    ChosenNew(k, s, ids[x]);
  }

  lemma CopyingDone(k: Keyed, s: State, t: State)
    requires Linked(k, s, {}) && s.idCount >= 0 && Copying(k, s, t, NEW_BUCKET_COUNT, 0)
    ensures var ids := Written(s);
            && (forall x :: 0 <= x < |ids| ==> ids[x] in s.info) && Copied(s, t, ids, |ids|)
            && TableCopied(s, t, ids, s.newTab) && t.nNew == s.nNew && t.nTried == s.nTried
    ensures Loaded(k, t) && forall x :: x in t.info ==> !IsLoose(t, x)
    ensures SameCounts(s, t, Written(s))
  {
    hide Linked, Loaded, Copied, TableCopied, Written, IsLoose;
    var ids := Written(s);
    WrittenAll(k, s);
    AllScanned(k, s);
    forall x | x in t.info ensures 0 <= x < |ids| && t.info[x].nRefCount == s.info[ids[x]].nRefCount && !IsLoose(t, x) {
      CopyCounts(k, s, t, ids, x);
    }
  }

  predicate SameCounts(s: State, t: State, ids: seq<int>) {
    forall x :: x in t.info ==> 0 <= x < |ids| && ids[x] in s.info && t.info[x].nRefCount == s.info[ids[x]].nRefCount
  }

  /** Without entries in neither table, nothing is pruned. */
  lemma UnprunedSame(k: Keyed, f: File)
    requires Counts(f) && forall x :: x in Unpruned(k, f).info ==> !IsLoose(Unpruned(k, f), x)
    ensures Load(k, f) == Unpruned(k, f)
  {
    hide Unpruned;
    LoadPlaced(k, f);
    PruneNothing(k, Unpruned(k, f), Unpruned(k, f).idCount);
  }

  lemma {:induction false} PruneNothing(k: Keyed, s: State, n: nat)
    requires Placed(k, s, LooseIds(s)) && forall x :: x in s.info ==> !IsLoose(s, x)
    ensures Prune(k, s, n) == s
  {
    hide Placed;
    if n > 0 { PruneNothing(k, s, n - 1); }
  }

  lemma RestoredFrom(k: Keyed, s: State, t: State, ids: seq<int>)
    requires Structure(k, s) && Structure(k, t) && t.nNew == s.nNew && t.nTried == s.nTried
    requires WritesAll(s, ids) && Copied(s, t, ids, |ids|) && TableCopied(s, t, ids, s.newTab) && SameCounts(s, t, ids)
    ensures Restored(s, t, ids) && (Stamped(s) ==> Stamped(t))
  {
    hide Linked, Totalled, Stamped, WritesAll, CopyOf, Indexed, TriedPlaced, SameTable;
    LinkedIndexed(k, s);
    LinkedIndexed(k, t);
    TriedRestored(k, s, t, ids);
    TableRestored(s, t, ids);
    if Stamped(s) { StampsRestored(s, t, ids); }
  }

  lemma TableRestored(s: State, t: State, ids: seq<int>)
    requires TableCopied(s, t, ids, s.newTab)
    ensures SameTable(s.newTab, t.newTab, ids)
  {
  }

  /** The tried table follows from the entries, since each is at its own place. */
  lemma TriedRestored(k: Keyed, s: State, t: State, ids: seq<int>)
    requires TriedPlaced(k, s) && TriedPlaced(k, t) && WritesAll(s, ids) && Copied(s, t, ids, |ids|)
    ensures SameTable(s.triedTab, t.triedTab, ids)
  {
    forall sl | sl in t.triedTab
      ensures sl in s.triedTab && 0 <= t.triedTab[sl] < |ids| && ids[t.triedTab[sl]] == s.triedTab[sl]
    {
      var y := t.triedTab[sl];
      assert RecordOf(t.info[y]).service == RecordOf(s.info[ids[y]]).service;
      assert s.triedTab[k.TriedSlot(s.info[ids[y]].service)] == ids[y];
    }
    forall sl | sl in s.triedTab ensures sl in t.triedTab {
      var x :| 0 <= x < |ids| && ids[x] == s.triedTab[sl];
      assert RecordOf(t.info[x]).service == RecordOf(s.info[ids[x]]).service;
      assert t.triedTab[k.TriedSlot(t.info[x].service)] == x;
    }
  }

  lemma StampsRestored(s: State, t: State, ids: seq<int>)
    requires Stamped(s) && WritesAll(s, ids) && Copied(s, t, ids, |ids|)
    ensures Stamped(t)
  {
    forall x | x in t.info
      ensures t.info[x].nLastTry >= 0 && t.info[x].nLastSuccess >= 0
              && (t.info[x].fInTried ==> t.info[x].nLastSuccess != 0)
    {
      var id := ids[x];
      assert id in s.info && CopyOf(s.info[id], t.info[x]);
      assert RecordOf(t.info[x]).nLastSuccess == RecordOf(s.info[id]).nLastSuccess;
    }
  }

  // ---------------------------------------------------- for the loops that write

  lemma IdsInRange(k: Keyed, s: State)
    requires Structure(k, s)
    ensures s.idCount >= 0 && forall id :: id in s.info ==> 0 <= id < s.idCount
  {
  }

  lemma {:induction false} IdsGrow(s: State, m: nat, n: nat, fTried: bool)
    requires m < n
    ensures |IdsBelow(s, m, fTried)| <= |IdsBelow(s, n, fTried)|
    ensures Chosen(s, m, fTried) ==> |IdsBelow(s, m, fTried)| < |IdsBelow(s, n, fTried)|
  {
    hide Chosen;
    if m < n - 1 { IdsGrow(s, m, n - 1, fTried); }
  }

  lemma RecordsNext(s: State, n: nat, fTried: bool)
    ensures Records(s, IdsBelow(s, n + 1, fTried))
         == Records(s, IdsBelow(s, n, fTried)) + if Chosen(s, n, fTried) then [RecordOf(s.info[n])] else []
  {
  }

  lemma RankIs(s: State, id: nat)
    ensures Rank(s, id) == |IdsBelow(s, id, false)|
  {
  }

  lemma HolderKnown(k: Keyed, s: State, sl: Slot)
    requires Structure(k, s) && sl in s.newTab
    ensures s.newTab[sl] in s.info && s.newTab[sl] >= 0
  {
  }

  lemma SavedBuckets(s: State)
    requires s.idCount >= 0
    ensures Save(s).buckets == AllBuckets(s, NEW_BUCKET_COUNT)
  {
    hide BucketIndices;
  }
}

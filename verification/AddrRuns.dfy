/** Whole calls to the manager, and whole runs of calls. */
module AddrRuns {
  import opened Arith
  import opened Bits
  import opened AddrState
  import opened AddrLemmas
  import opened AddrOps
  import opened Wrappers

  // -------------------------------------------------- changing one's own record

  function SetInfo(s: State, id: int, e: AddrInfo): State {
    s.(info := s.info[id := e])
  }

  /** `e` is entry `id` with another record: same peer, same places. */
  predicate SamePlace(s: State, id: int, e: AddrInfo) {
    && id in s.info && e.service == s.info[id].service && e.fInTried == s.info[id].fInTried
    && e.nRefCount == s.info[id].nRefCount && e.nRandomPos == s.info[id].nRandomPos
  }

  lemma SetInfoCounted(k: Keyed, s: State, id: int, e: AddrInfo, limbo: set<int>)
    requires NewPlaced(k, s) && Counted(s, limbo) && SamePlace(s, id, e)
    ensures NewPlaced(k, SetInfo(s, id, e)) && Counted(SetInfo(s, id, e), limbo)
  {
  }

  lemma SetInfoKeeps(k: Keyed, s: State, id: int, e: AddrInfo)
    requires Structure(k, s) && SamePlace(s, id, e)
    ensures Structure(k, SetInfo(s, id, e))
  {
    hide Indexed, Shuffled, TriedPlaced, NewPlaced, Counted, Totalled;
    var t := SetInfo(s, id, e);
    EntryIndexed(s, id, e, t);
    EntryShuffled(s, id, e, t);
    EntryTried(k, s, id, e, t);
    SetInfoCounted(k, s, id, e, {});
    TotalsEntry(s, t, id, 0, 0);
  }

  // ---------------------------------------------------------------- Good, Attempt, Connected

  /** The entry for exactly this service: same address and same port. */
  function Match(s: State, a: Service): Option<int> {
    match Find(s, a.ip)
    case Some(id) => if s.info[id].service == a then Some(id) else None
    case None => None
  }

  function Succeeded(e: AddrInfo, time: int): AddrInfo {
    e.(nLastSuccess := time, nLastTry := time, nAttempts := 0)
  }

  function Good(k: Keyed, s: State, a: Service, time: int): State
    requires Structure(k, s)
  {
    match Match(s, a)
    case None => s
    case Some(id) =>
      var t := SetInfo(s, id, Succeeded(s.info[id], time));
      SetInfoKeeps(k, s, id, Succeeded(s.info[id], time));
      if s.info[id].fInTried then t else MakeTried(k, t, id)
  }

  function Attempt(s: State, a: Service, time: int): State {
    match Match(s, a)
    case None => s
    case Some(id) => SetInfo(s, id, s.info[id].(nLastTry := time, nAttempts := s.info[id].nAttempts + 1))
  }

  /** What an `unsigned int` keeps of a 64-bit value. */
  function Truncated(x: int): nat {
    x % 0x1_0000_0000
  }

  function Connected(s: State, a: Service, time: int): State {
    match Match(s, a)
    case None => s
    case Some(id) =>
      if time - s.info[id].nTime > 20 * 60 then SetInfo(s, id, s.info[id].(nTime := Truncated(time))) else s
  }

  lemma GoodKeeps(k: Keyed, s: State, a: Service, time: int)
    requires Structure(k, s)
    ensures Structure(k, Good(k, s, a, time))
  {
    hide Linked;
    match Match(s, a)
    case None =>
    case Some(id) =>
      SetInfoKeeps(k, s, id, Succeeded(s.info[id], time));
      if !s.info[id].fInTried {
        MakeTriedKeeps(k, SetInfo(s, id, Succeeded(s.info[id], time)), id);
      }
  }

  lemma AttemptKeeps(k: Keyed, s: State, a: Service, time: int)
    requires Structure(k, s)
    ensures Structure(k, Attempt(s, a, time))
  {
    hide Structure;
    match Match(s, a)
    case None =>
    case Some(id) => SetInfoKeeps(k, s, id, Attempt(s, a, time).info[id]);
  }

  lemma ConnectedKeeps(k: Keyed, s: State, a: Service, time: int)
    requires Structure(k, s)
    ensures Structure(k, Connected(s, a, time))
  {
    hide Structure;
    match Match(s, a)
    case None =>
    case Some(id) => SetInfoKeeps(k, s, id, s.info[id].(nTime := Truncated(time)));
  }

  // ------------------------------------------------------------------------- Add

  /** A known address seen again: its time is refreshed now and then, and its services grow. */
  function Refreshed(e: AddrInfo, a: Address, penalty: int, now: int): AddrInfo {
    var interval := if now - a.nTime < 24 * 60 * 60 then 60 * 60 else 24 * 60 * 60;
    var time := if a.nTime != 0 && (e.nTime == 0 || e.nTime < a.nTime - interval - penalty)
                then Truncated(Max(0, a.nTime - penalty)) else e.nTime;
    e.(nTime := time, nServices := e.nServices + a.nServices)
  }

  /** The stochastic test: with `count` references, one draw in 2^count passes. */
  predicate LuckyDraw(count: nat, draw: nat) {
    Pow2(count) > 1 ==> draw % Pow2(count) == 0
  }

  /** Whether a known address may get one more slot; `draw` is the random number. */
  predicate Wanted(e: AddrInfo, a: Address, draw: nat)
    requires e.nRefCount >= 0
  {
    && a.nTime != 0 && (e.nTime == 0 || a.nTime > e.nTime)
    && !e.fInTried
    && e.nRefCount != NEW_BUCKETS_PER_ADDRESS
    && LuckyDraw(e.nRefCount, draw)
  }

  /** Whether `id` may take slot `sl` from whoever is there. */
  predicate Yields(s: State, sl: Slot, id: int, now: int)
    requires id in s.info && (sl in s.newTab ==> s.newTab[sl] in s.info)
  {
    sl in s.newTab ==>
      var e := s.info[s.newTab[sl]];
      e.IsTerrible(now) || (e.nRefCount > 1 && s.info[id].nRefCount == 0)
  }

  /** The slot of the new table that `source` selects for `id`. */
  function SourceSlot(k: Keyed, s: State, id: int, source: NetAddr): Slot
    requires id in s.info
  {
    k.NewSlot(s.info[id].service, k.NewBucket(s.info[id].service, source))
  }

  /** An entry without references is in limbo until it is placed or dropped. */
  function LimboOf(s: State, id: int): set<int>
    requires id in s.info
  {
    if s.info[id].nRefCount == 0 then {id} else {}
  }

  /** Puts `id` into the slot its source selects if that slot is free or yields;
      otherwise forgets it, unless it has another slot. */
  function Place(k: Keyed, s: State, id: int, source: NetAddr, now: int): State
    requires IsNew(s, id) && Linked(k, s, LimboOf(s, id))
  {
    var sl := SourceSlot(k, s, id, source);
    ClearNewLinked(k, s, sl, LimboOf(s, id));
    if Holds(s, sl, id) then s
    else if Yields(s, sl, id, now) then
      PlaceRoom(k, s, id, sl);
      Enter(ClearNew(s, sl), id, sl)
    else if s.info[id].nRefCount == 0 then Delete(s, id)
    else s
  }

  lemma PlaceRoom(k: Keyed, s: State, id: int, sl: Slot)
    requires IsNew(s, id) && Linked(k, s, LimboOf(s, id)) && !Holds(s, sl, id)
    ensures sl in s.newTab ==> s.newTab[sl] in s.info
    ensures var t := ClearNew(s, sl);
            && Linked(k, t, LimboOf(s, id)) && sl !in t.newTab && id in t.info && Alike(s.info[id], t.info[id])
  {
    ClearNewLinked(k, s, sl, LimboOf(s, id));
    ClearNewFrame(s, sl);
    hide ClearNew, Linked;
  }

  lemma PlaceLinked(k: Keyed, s: State, id: int, source: NetAddr, now: int)
    requires IsNew(s, id) && Linked(k, s, LimboOf(s, id)) && s.info[id].nRefCount < NEW_BUCKETS_PER_ADDRESS
    ensures Linked(k, Place(k, s, id, source, now), {})
  {
    hide Indexed, Shuffled, TriedPlaced, NewPlaced, Counted;
    var sl, limbo := SourceSlot(k, s, id, source), LimboOf(s, id);
    ClearNewLinked(k, s, sl, limbo);
    if Holds(s, sl, id) {
      HolderFacts(k, s, sl, limbo);
    } else if Yields(s, sl, id, now) {
      PlaceRoom(k, s, id, sl);
      hide Linked, ClearNew;
      EnterLinked(k, ClearNew(s, sl), id, sl, limbo);
      assert limbo - {id} == {};
    } else if s.info[id].nRefCount == 0 {
      DeleteLinked(k, s, id, limbo);
      assert limbo - {id} == {};
    }
  }

  lemma DeleteTotals(s: State, id: int)
    requires Shuffled(s) && IsNew(s, id) && Totalled(s, 0)
    ensures Totalled(Delete(s, id), 0)
  {
    var t := Delete(s, id);
    DeleteFrame(s, id);
    hide Delete, Shuffled;
    assert forall x :: (IsTried(t, x) <==> IsTried(s, x)) && (IsNew(t, x) <==> IsNew(s, x) && x != id);
    hide IsTried, IsNew, TriedIds, NewIds;
    MarkCount(s, t, id);
  }

  lemma PlaceTotals(k: Keyed, s: State, id: int, source: NetAddr, now: int)
    requires IsNew(s, id) && Linked(k, s, LimboOf(s, id)) && Totalled(s, 0)
    ensures Totalled(Place(k, s, id, source, now), 0)
  {
    hide Indexed, TriedPlaced, NewPlaced, Counted, Totalled;
    var sl, limbo := SourceSlot(k, s, id, source), LimboOf(s, id);
    ClearNewLinked(k, s, sl, limbo);
    if Holds(s, sl, id) {
    } else if Yields(s, sl, id, now) {
      PlaceRoom(k, s, id, sl);
      ClearNewTotals(k, s, sl, limbo, 0);
      var c := ClearNew(s, sl);
      hide Linked, ClearNew;
      TotalsEntry(c, Enter(c, id, sl), id, 0, 0);
    } else if s.info[id].nRefCount == 0 {
      DeleteTotals(s, id);
    }
  }

  /** A new entry for `a`, counted, with its time set back by the penalty. */
  function Admit(s: State, a: Address, source: NetAddr, penalty: int): State {
    var t := Create(s, a, source);
    var e := t.info[s.idCount];
    SetInfo(t, s.idCount, e.(nTime := Truncated(Max(0, e.nTime - penalty)))).(nNew := t.nNew + 1)
  }

  lemma NextIdFree(s: State)
    requires Indexed(s)
    ensures s.idCount !in s.info
  {
  }

  lemma AdmitKeeps(k: Keyed, s: State, a: Address, source: NetAddr, penalty: int)
    requires Structure(k, s) && a.service.ip !in s.addr
    ensures var t := Admit(s, a, source, penalty);
            && IsNew(t, s.idCount) && t.info[s.idCount].nRefCount == 0
            && Linked(k, t, {s.idCount}) && Totalled(t, 0)
  {
    var id := s.idCount;
    hide Indexed, Shuffled, TriedPlaced, NewPlaced, Counted, Totalled;
    NextIdFree(s);
    CreateLinked(k, s, a, source, {});
    assert {} + {id} == {id};
    CreateTotals(s, a, source);
    var t := Create(s, a, source);
    AdmitLinked(k, t, id, Truncated(Max(0, t.info[id].nTime - penalty)), t.nNew + 1);
  }

  lemma CreateTotals(s: State, a: Address, source: NetAddr)
    requires s.idCount !in s.info && Totalled(s, 0)
    ensures Totalled(Create(s, a, source), 1)
  {
    var t := Create(s, a, source);
    assert forall x :: x != s.idCount ==> (IsTried(t, x) <==> IsTried(s, x)) && (IsNew(t, x) <==> IsNew(s, x));
    assert !IsTried(s, s.idCount) && !IsNew(s, s.idCount) && !IsTried(t, s.idCount) && IsNew(t, s.idCount);
    hide Create, IsTried, IsNew, TriedIds, NewIds;
    MarkCount(s, t, s.idCount);
  }

  lemma AdmitLinked(k: Keyed, s: State, id: int, time: nat, nNew: int)
    requires Linked(k, s, {id}) && Totalled(s, 1) && id in s.info && nNew == s.nNew + 1
    ensures var t := SetInfo(s, id, s.info[id].(nTime := time)).(nNew := nNew);
            Linked(k, t, {id}) && Totalled(t, 0)
  {
    hide Indexed, Shuffled, TriedPlaced, NewPlaced, Counted, Totalled;
    var e := s.info[id].(nTime := time);
    var t := SetInfo(s, id, e);
    EntryIndexed(s, id, e, t);
    EntryShuffled(s, id, e, t);
    EntryTried(k, s, id, e, t);
    SetInfoCounted(k, s, id, e, {id});
    NewCountLinked(k, t, {id}, nNew);
    TotalsEntry(s, t.(nNew := nNew), id, 1, 0);
  }

  /** Returns whether the address was unknown, even when there was no room for it. */
  function Add(k: Keyed, s: State, a: Address, source: NetAddr, penalty: int, now: int, draw: nat): (State, bool)
    requires Structure(k, s)
  {
    if !k.hashes.routable(a.service.ip) then (s, false)
    else match Find(s, a.service.ip)
    case Some(id) =>
      var e := Refreshed(s.info[id], a, penalty, now);
      SetInfoKeeps(k, s, id, e);
      NewEntry(k, s, id);
      var t := SetInfo(s, id, e);
      (if Wanted(e, a, draw) then Place(k, t, id, source, now) else t, false)
    case None =>
      FindNone(s, a.service.ip);
      AdmitKeeps(k, s, a, source, penalty);
      (Place(k, Admit(s, a, source, penalty), s.idCount, source, now), true)
  }

  /** The entry that was refreshed can be placed once more, if that is wanted. */
  lemma RefreshReady(k: Keyed, s: State, id: int, a: Address, penalty: int, now: int, draw: nat)
    requires Structure(k, s) && id in s.info
    ensures var e := Refreshed(s.info[id], a, penalty, now);
            var t := SetInfo(s, id, e);
            && s.info[id].nRefCount >= 0
            && (Wanted(e, a, draw) ==> IsNew(t, id) && Linked(k, t, LimboOf(t, id)))
  {
    var e := Refreshed(s.info[id], a, penalty, now);
    SetInfoKeeps(k, s, id, e);
    NewEntry(k, s, id);
    hide Indexed, Placed, Totalled;
  }

  lemma FindNone(s: State, ip: NetAddr)
    requires Indexed(s) && Find(s, ip).None?
    ensures ip !in s.addr
  {
  }

  lemma NewEntry(k: Keyed, s: State, id: int)
    requires Linked(k, s, {}) && id in s.info
    ensures s.info[id].nRefCount >= 0 && (IsNew(s, id) ==> s.info[id].nRefCount > 0)
    ensures s.info[id].nRefCount <= NEW_BUCKETS_PER_ADDRESS
  {
  }

  lemma AddKeeps(k: Keyed, s: State, a: Address, source: NetAddr, penalty: int, now: int, draw: nat)
    requires Structure(k, s)
    ensures Structure(k, Add(k, s, a, source, penalty, now, draw).0)
  {
    if k.hashes.routable(a.service.ip) {
      match Find(s, a.service.ip)
      case Some(id) =>
        hide Indexed, Shuffled, TriedPlaced, NewPlaced, Counted, Totalled;
        var e := Refreshed(s.info[id], a, penalty, now);
        SetInfoKeeps(k, s, id, e);
        NewEntry(k, s, id);
        if Wanted(e, a, draw) {
          PlaceLinked(k, SetInfo(s, id, e), id, source, now);
          PlaceTotals(k, SetInfo(s, id, e), id, source, now);
        }
      case None =>
        FindNone(s, a.service.ip);
        hide Indexed, Shuffled, TriedPlaced, NewPlaced, Counted, Totalled;
        AdmitKeeps(k, s, a, source, penalty);
        PlaceLinked(k, Admit(s, a, source, penalty), s.idCount, source, now);
        PlaceTotals(k, Admit(s, a, source, penalty), s.idCount, source, now);
    }
  }

  // --------------------------------------------------------------------- GetAddr

  const GETADDR_MAX_PCT: nat := 23
  const GETADDR_MAX: nat := 2500

  function GetAddrLimit(s: State): nat {
    var n := GETADDR_MAX_PCT * |s.random| / 100;
    if n > GETADDR_MAX then GETADDR_MAX else n
  }

  /** GetRandInt(size - n) + n. */
  function DrawFrom(n: nat, size: nat, draw: nat): (j: nat)
    requires n < size
    ensures n <= j < size
  {
    n + draw % (size - n)
  }

  /** One shuffled scan of `vRandom` from place `n`, collecting the ids of entries that
      are not terrible; `draws` are the random numbers. */
  function Scan(s: State, n: nat, found: seq<int>, limit: nat, draws: nat -> nat, now: int): (r: (State, seq<int>))
    requires Shuffled(s) && n <= |s.random|
    decreases |s.random| - n
  {
    if n == |s.random| || |found| >= limit then (s, found)
    else
      var j := DrawFrom(n, |s.random|, draws(n));
      SwapShuffled(s, n, j);
      var t := Swap(s, n, j);
      var id := t.random[n];
      Scan(t, n + 1, if t.info[id].IsTerrible(now) then found else found + [id], limit, draws, now)
  }

  /** `found` lists entries that are not terrible, in the order of their places in
      `vRandom`, all before place `n`. Hence no entry is listed twice. */
  ghost predicate Listed(s: State, n: nat, found: seq<int>, now: int) {
    && (forall i :: 0 <= i < |found| ==>
          var id := found[i]; id in s.info && !s.info[id].IsTerrible(now) && 0 <= s.info[id].nRandomPos < n)
    && (forall i, j :: 0 <= i < j < |found| ==>
          var a, b := found[i], found[j];
          a in s.info && b in s.info ==> s.info[a].nRandomPos < s.info[b].nRandomPos)
  }

  /** Everybody before place `n` that is not terrible is listed. */
  ghost predicate AllListed(s: State, n: nat, found: seq<int>, now: int) {
    forall id :: id in s.info && 0 <= s.info[id].nRandomPos < n && !s.info[id].IsTerrible(now) ==> id in found
  }

  /** `t` has the entries of `s`, and those before place `n` have not moved. */
  ghost predicate FixedBefore(s: State, t: State, n: nat) {
    && (forall id :: id in s.info <==> id in t.info)
    && (forall id :: id in t.info ==> Alike(s.info[id], t.info[id]))
    && (forall id :: id in t.info && (s.info[id].nRandomPos < n || t.info[id].nRandomPos < n) ==>
        t.info[id] == s.info[id])
  }

  lemma SwapFixes(s: State, n: nat, j: nat)
    requires Shuffled(s) && n <= j < |s.random|
    ensures FixedBefore(s, Swap(s, n, j), n)
  {
    SwapReorders(s, n, j);
  }

  lemma ListedNext(s: State, t: State, n: nat, found: seq<int>, now: int)
    requires FixedBefore(s, t, n) && Shuffled(t) && n < |t.random| && Listed(s, n, found, now)
    ensures var id := t.random[n];
            id in t.info &&
            Listed(t, n + 1, if t.info[id].IsTerrible(now) then found else found + [id], now)
  {
    var id := t.random[n];
    assert id in t.info && t.info[id].nRandomPos == n;
    assert Listed(t, n, found, now);
  }

  lemma AllListedNext(s: State, t: State, n: nat, found: seq<int>, now: int)
    requires FixedBefore(s, t, n) && Shuffled(t) && n < |t.random| && AllListed(s, n, found, now)
    ensures var id := t.random[n];
            id in t.info &&
            AllListed(t, n + 1, if t.info[id].IsTerrible(now) then found else found + [id], now)
  {
    var id := t.random[n];
    var more := if t.info[id].IsTerrible(now) then found else found + [id];
    forall x | x in t.info && 0 <= t.info[x].nRandomPos < n + 1 && !t.info[x].IsTerrible(now)
      ensures x in more
    {
      if t.info[x].nRandomPos < n {
        assert x in s.info && x in found;
      } else {
        assert x == id;
      }
    }
  }

  lemma ReorderedTransitive(s: State, t: State, u: State)
    requires Reordered(s, t) && Reordered(t, u)
    ensures Reordered(s, u)
  {
  }

  lemma SwapPermutes(s: State, i: nat, j: nat)
    requires Shuffled(s) && i < |s.random| && j < |s.random|
    ensures multiset(Swap(s, i, j).random) == multiset(s.random) && |Swap(s, i, j).random| == |s.random|
  {
  }

  /** What a scan from `s` returns: the manager reordered and nothing else; a list without
      repetition of at most `limit` entries, none terrible; and, when it is shorter than
      that, every entry that is not terrible. */
  ghost predicate Scanned(s: State, t: State, ids: seq<int>, limit: nat, now: int) {
    && Reordered(s, t) && Shuffled(t) && multiset(t.random) == multiset(s.random)
    && |ids| <= limit && Listed(t, |t.random|, ids, now)
    && (|ids| < limit ==> AllListed(t, |t.random|, ids, now))
  }

  lemma ScannedAfter(s: State, t: State, u: State, ids: seq<int>, limit: nat, now: int)
    requires Reordered(s, t) && multiset(t.random) == multiset(s.random) && Scanned(t, u, ids, limit, now)
    ensures Scanned(s, u, ids, limit, now)
  {
    hide Listed, AllListed, Shuffled;
    ReorderedTransitive(s, t, u);
  }

  lemma ScanStep(s: State, n: nat, j: nat, found: seq<int>, now: int)
    requires Shuffled(s) && n <= j < |s.random|
    requires Listed(s, n, found, now) && AllListed(s, n, found, now)
    ensures var t := Swap(s, n, j);
            && Shuffled(t) && Reordered(s, t) && multiset(t.random) == multiset(s.random) && |t.random| == |s.random|
            && t.random[n] in t.info
            && var more := if t.info[t.random[n]].IsTerrible(now) then found else found + [t.random[n]];
               Listed(t, n + 1, more, now) && AllListed(t, n + 1, more, now)
  {
    hide Shuffled, Reordered, Listed, AllListed;
    SwapShuffled(s, n, j);
    SwapReorders(s, n, j);
    SwapPermutes(s, n, j);
    SwapFixes(s, n, j);
    var t := Swap(s, n, j);
    hide Swap, FixedBefore;
    ListedNext(s, t, n, found, now);
    AllListedNext(s, t, n, found, now);
  }

  lemma {:induction false} ScanOutcome(s: State, n: nat, found: seq<int>, limit: nat, draws: nat -> nat, now: int)
    requires Shuffled(s) && n <= |s.random| && |found| <= limit
    requires Listed(s, n, found, now) && AllListed(s, n, found, now)
    ensures var (t, ids) := Scan(s, n, found, limit, draws, now);
            Scanned(s, t, ids, limit, now)
    decreases |s.random| - n
  {
    hide Shuffled, Listed, AllListed;
    if n == |s.random| || |found| >= limit {
      ScanEnd(s, n, found, now);
    } else {
      hide Scanned, Reordered;
      var j := DrawFrom(n, |s.random|, draws(n));
      ScanStep(s, n, j, found, now);
      var t := Swap(s, n, j);
      hide Swap;
      var id := t.random[n];
      var more := if t.info[id].IsTerrible(now) then found else found + [id];
      ScanOutcome(t, n + 1, more, limit, draws, now);
      var (u, ids) := Scan(t, n + 1, more, limit, draws, now);
      ScannedAfter(s, t, u, ids, limit, now);
    }
  }

  lemma ScanEnd(s: State, n: nat, found: seq<int>, now: int)
    requires Listed(s, n, found, now) && n <= |s.random|
    ensures Listed(s, |s.random|, found, now) && Reordered(s, s)
  {
  }

  function CAddress(e: AddrInfo): Address {
    Address(e.service, e.nServices, e.nTime)
  }

  /** The addresses given to a peer that asks for some. */
  function GetAddr(s: State, draws: nat -> nat, now: int): (State, seq<Address>)
    requires Shuffled(s)
  {
    ListedNone(s, now);
    ScanOutcome(s, 0, [], GetAddrLimit(s), draws, now);
    var (t, ids) := Scan(s, 0, [], GetAddrLimit(s), draws, now);
    assert forall i :: 0 <= i < |ids| ==> var id := ids[i]; id in t.info;
    (t, seq(|ids|, i requires 0 <= i < |ids| => CAddress(t.info[ids[i]])))
  }

  lemma ListedNone(s: State, now: int)
    ensures Listed(s, 0, [], now) && AllListed(s, 0, [], now)
  {
  }

  /** The answer to a peer: no more than 2500 addresses and no more than 23 in a hundred of
      the known ones; every one known and not terrible; no two with the same network
      address. When it is shorter than it may be, it leaves out only terrible ones. */
  lemma GetAddrOutcome(k: Keyed, s: State, draws: nat -> nat, now: int)
    requires Structure(k, s)
    ensures var (t, answer) := GetAddr(s, draws, now);
            && |answer| <= 2500 && 100 * |answer| <= 23 * (s.nTried + s.nNew)
            && (forall i :: 0 <= i < |answer| ==>
                  var ip := answer[i].service.ip;
                  && ip in s.addr && s.addr[ip] in s.info
                  && !s.info[s.addr[ip]].IsTerrible(now) && answer[i] == CAddress(s.info[s.addr[ip]]))
            && (forall i, j :: 0 <= i < j < |answer| ==> answer[i].service.ip != answer[j].service.ip)
            && multiset(t.random) == multiset(s.random) && Structure(k, t) && (Stamped(s) ==> Stamped(t))
  {
    StructureParts(k, s);
    hide Indexed, Shuffled, Scanned, Structure, CAddress, Stamped, GetAddrLimit, GetAddr, Reordered, Totalled;
    var limit := GetAddrLimit(s);
    LimitBound(s);
    RandomSize(s);
    var (t, answer) := GetAddr(s, draws, now);
    var ids := GetAddrScans(s, draws, now);
    ScannedParts(s, t, ids, limit, now);
    ReorderedStructure(k, s, t);
    AnswersKnown(k, s, t, ids, limit, now, answer);
  }

  lemma GetAddrScans(s: State, draws: nat -> nat, now: int) returns (ids: seq<int>)
    requires Shuffled(s)
    ensures var (t, answer) := GetAddr(s, draws, now);
            && Scanned(s, t, ids, GetAddrLimit(s), now) && |answer| == |ids|
            && forall i :: 0 <= i < |ids| ==> var id := ids[i]; id in t.info && answer[i] == CAddress(t.info[id])
  {
    ListedNone(s, now);
    hide Listed, AllListed, GetAddrLimit, CAddress;
    ScanOutcome(s, 0, [], GetAddrLimit(s), draws, now);
    ids := Scan(s, 0, [], GetAddrLimit(s), draws, now).1;
    hide Scan;
    ScannedParts(s, GetAddr(s, draws, now).0, ids, GetAddrLimit(s), now);
  }

  lemma LimitBound(s: State)
    ensures GetAddrLimit(s) <= 2500 && 100 * GetAddrLimit(s) <= 23 * |s.random|
  {
  }

  lemma AnswersKnown(k: Keyed, s: State, t: State, ids: seq<int>, limit: nat, now: int, answer: seq<Address>)
    requires Indexed(s) && Scanned(s, t, ids, limit, now) && |answer| == |ids|
    requires forall i :: 0 <= i < |ids| ==> var id := ids[i]; id in t.info && answer[i] == CAddress(t.info[id])
    ensures forall i :: 0 <= i < |answer| ==>
              var ip := answer[i].service.ip;
              && ip in s.addr && s.addr[ip] in s.info
              && !s.info[s.addr[ip]].IsTerrible(now) && answer[i] == CAddress(s.info[s.addr[ip]])
    ensures forall i, j :: 0 <= i < j < |answer| ==> answer[i].service.ip != answer[j].service.ip
  {
    ScannedParts(s, t, ids, limit, now);
    hide Indexed, Scanned, CAddress, Reordered, Shuffled;
    forall i | 0 <= i < |answer|
      ensures var ip := answer[i].service.ip;
              && ip in s.addr && s.addr[ip] == ids[i] && ids[i] in s.info
              && !s.info[ids[i]].IsTerrible(now) && answer[i] == CAddress(s.info[ids[i]])
    {
      ScannedEntry(k, s, t, ids, limit, now, i);
    }
  }

  lemma StructureParts(k: Keyed, s: State)
    requires Structure(k, s)
    ensures Indexed(s) && Shuffled(s) && Totalled(s, 0)
  {
    hide Indexed, Shuffled, TriedPlaced, NewPlaced, Counted, Totalled;
  }

  lemma ScannedParts(s: State, t: State, ids: seq<int>, limit: nat, now: int)
    requires Scanned(s, t, ids, limit, now)
    ensures Reordered(s, t) && Shuffled(t) && multiset(t.random) == multiset(s.random) && |ids| <= limit
    ensures forall i, j :: 0 <= i < j < |ids| ==> ids[i] != ids[j]
    ensures forall i :: 0 <= i < |ids| ==> ids[i] in t.info
  {
  }

  lemma ScannedEntry(k: Keyed, s: State, t: State, ids: seq<int>, limit: nat, now: int, i: nat)
    requires Indexed(s) && Scanned(s, t, ids, limit, now) && i < |ids|
    ensures var id := ids[i];
            && id in t.info && id in s.info && s.info[id].service.ip in s.addr && s.addr[s.info[id].service.ip] == id
            && !s.info[id].IsTerrible(now) && CAddress(t.info[id]) == CAddress(s.info[id])
            && CAddress(s.info[id]).service == s.info[id].service
  {
  }

  lemma {:induction false} DistinctCount(q: seq<int>)
    requires forall i, j :: 0 <= i < j < |q| ==> q[i] != q[j]
    ensures |q| == |set x | x in q|
  {
    if |q| == 0 {
      assert (set x | x in q) == {};
    } else {
      var last := |q| - 1;
      assert q == q[..last] + [q[last]];
      assert (set x | x in q) == (set x | x in q[..last]) + {q[last]};
      DistinctCount(q[..last]);
    }
  }

  /** `vRandom` has one place for every entry, so its size is the sum of the counters. */
  lemma RandomSize(s: State)
    requires Shuffled(s) && Totalled(s, 0)
    ensures |s.random| == s.nTried + s.nNew
  {
    forall i, j | 0 <= i < j < |s.random| ensures s.random[i] != s.random[j] {
      var a, b := s.random[i], s.random[j];
      assert s.info[a].nRandomPos == i && s.info[b].nRandomPos == j;
    }
    DistinctCount(s.random);
    RandomSet(s);
    hide Shuffled;
    BothCount(s);
  }

  lemma RandomSet(s: State)
    requires Shuffled(s)
    ensures (set x | x in s.random) == TriedIds(s) + NewIds(s)
  {
    forall i | 0 <= i < |s.random| ensures s.random[i] in TriedIds(s) + NewIds(s) {
      var id := s.random[i];
      assert IsTried(s, id) || IsNew(s, id);
    }
    forall id ensures IsTried(s, id) || IsNew(s, id) ==> id in s.random {
    }
    hide Shuffled;
  }


  lemma ReorderedStructure(k: Keyed, s: State, t: State)
    requires Structure(k, s) && Reordered(s, t) && Shuffled(t)
    ensures Structure(k, t) && (Stamped(s) ==> Stamped(t))
  {
    hide Indexed, Shuffled, TriedPlaced, NewPlaced, Counted, Totalled;
    ReorderedIndexed(s, t);
    ReorderedPlaced(k, s, t, {});
    ReorderedTotals(s, t);
  }

  lemma ReorderedTotals(s: State, t: State)
    requires Totalled(s, 0) && Reordered(s, t)
    ensures Totalled(t, 0)
  {
    assert forall x :: IsTried(t, x) <==> IsTried(s, x);
    assert forall x :: IsNew(t, x) <==> IsNew(s, x);
    assert TriedIds(t) == TriedIds(s) && NewIds(t) == NewIds(s);
  }

  // --------------------------------------------------------------- time stamps

  /** Every record of `t` is one of `s`, and no entry has become tried. */
  ghost predicate Shrunk(s: State, t: State) {
    forall x :: x in t.info ==>
        x in s.info && SameRecord(s.info[x], t.info[x]) && t.info[x].fInTried == s.info[x].fInTried
  }

  lemma ShrunkStamped(s: State, t: State)
    requires Stamped(s) && Shrunk(s, t)
    ensures Stamped(t)
  {
  }

  lemma EnterShrunk(s: State, c: State, id: int, sl: Slot)
    requires Cleared(s, c, sl) && id in c.info
    ensures Shrunk(s, Enter(c, id, sl))
  {
  }

  lemma ForgottenShrunk(s: State, t: State, id: int)
    requires Forgotten(s, t, id)
    ensures Shrunk(s, t)
  {
  }

  lemma PlaceShrinks(k: Keyed, s: State, id: int, source: NetAddr, now: int)
    requires IsNew(s, id) && Linked(k, s, LimboOf(s, id))
    ensures Shrunk(s, Place(k, s, id, source, now))
  {
    hide Indexed, TriedPlaced, NewPlaced, Counted, Cleared, Forgotten;
    var sl, limbo := SourceSlot(k, s, id, source), LimboOf(s, id);
    ClearNewLinked(k, s, sl, limbo);
    if Holds(s, sl, id) {
    } else if Yields(s, sl, id, now) {
      PlaceRoom(k, s, id, sl);
      ClearNewFrame(s, sl);
      EnterShrunk(s, ClearNew(s, sl), id, sl);
      hide ClearNew, Enter, Shrunk;
    } else if s.info[id].nRefCount == 0 {
      DeleteFrame(s, id);
      ForgottenShrunk(s, Delete(s, id), id);
      hide Delete, Shrunk;
    }
  }

  lemma AddStamped(k: Keyed, s: State, a: Address, source: NetAddr, penalty: int, now: int, draw: nat)
    requires Structure(k, s) && Stamped(s)
    ensures Stamped(Add(k, s, a, source, penalty, now, draw).0)
  {
    if k.hashes.routable(a.service.ip) {
      match Find(s, a.service.ip)
      case Some(id) =>
        hide Indexed, Shuffled, TriedPlaced, NewPlaced, Counted, Totalled, Place, Shrunk;
        var e := Refreshed(s.info[id], a, penalty, now);
        var t := SetInfo(s, id, e);
        SetInfoKeeps(k, s, id, e);
        NewEntry(k, s, id);
        SetInfoStamped(s, id, e);
        if Wanted(e, a, draw) {
          PlaceShrinks(k, t, id, source, now);
          ShrunkStamped(t, Place(k, t, id, source, now));
        }
      case None =>
        FindNone(s, a.service.ip);
        hide Indexed, Shuffled, TriedPlaced, NewPlaced, Counted, Totalled, Place, Shrunk;
        AdmitKeeps(k, s, a, source, penalty);
        AdmitStamped(s, a, source, penalty);
        var t := Admit(s, a, source, penalty);
        hide Admit;
        PlaceShrinks(k, t, s.idCount, source, now);
        ShrunkStamped(t, Place(k, t, s.idCount, source, now));
    }
  }

  lemma SetInfoStamped(s: State, id: int, e: AddrInfo)
    requires Stamped(s) && e.nLastTry >= 0 && e.nLastSuccess >= 0 && (e.fInTried ==> e.nLastSuccess != 0)
    ensures Stamped(SetInfo(s, id, e))
  {
  }

  lemma AdmitStamped(s: State, a: Address, source: NetAddr, penalty: int)
    requires Stamped(s)
    ensures Stamped(Admit(s, a, source, penalty))
  {
  }

  /** A success is recorded with a usable time stamp exactly when its time is positive. */
  lemma GoodStamped(k: Keyed, s: State, a: Service, time: int)
    requires Inv(k, s)
    ensures Stamped(Good(k, s, a, time)) <==> Match(s, a).None? || time > 0
  {
    hide Indexed, Shuffled, TriedPlaced, NewPlaced, Counted, Totalled, MadeTried;
    match Match(s, a)
    case None =>
    case Some(id) =>
      var e := Succeeded(s.info[id], time);
      var t := SetInfo(s, id, e);
      SetInfoKeeps(k, s, id, e);
      if !s.info[id].fInTried {
        MakeTriedOutcome(k, t, id);
        hide MakeTried;
        MadeTriedStamped(k, s, t, MakeTried(k, t, id), id, time);
      } else {
        assert t.info[id] == e;
      }
  }

  lemma MadeTriedStamped(k: Keyed, s: State, u: State, t: State, id: int, time: int)
    requires Stamped(s) && id in s.info && u == SetInfo(s, id, Succeeded(s.info[id], time)) && MadeTried(k, u, t, id)
    ensures Stamped(t) <==> time > 0
  {
    assert t.info[id].nLastSuccess == time && t.info[id].nLastTry == time;
    forall x | x in t.info && x != id
      ensures t.info[x].nLastTry >= 0 && t.info[x].nLastSuccess >= 0
              && (t.info[x].fInTried ==> t.info[x].nLastSuccess != 0)
    {
      assert x in u.info && SameRecord(u.info[x], t.info[x]) && u.info[x] == s.info[x];
    }
  }

  lemma AttemptStamped(k: Keyed, s: State, a: Service, time: int)
    requires Inv(k, s)
    ensures Stamped(Attempt(s, a, time)) <==> Match(s, a).None? || time >= 0
  {
    hide Structure;
    match Match(s, a)
    case None =>
    case Some(id) => assert Attempt(s, a, time).info[id].nLastTry == time;
  }

  lemma ConnectedStamped(s: State, a: Service, time: int)
    requires Stamped(s)
    ensures Stamped(Connected(s, a, time))
  {
  }

  // ------------------------------------------------------------------------ runs

  datatype Call =
    | CallAdd(a: Address, source: NetAddr, penalty: int, now: int, draw: nat)
    | CallGood(service: Service, time: int)
    | CallAttempt(service: Service, time: int)
    | CallConnected(service: Service, time: int)
    | CallGetAddr(draws: nat -> nat, now: int)

  /** Successes are given positive times, and attempts times that are not negative. */
  predicate Timely(c: Call) {
    && (c.CallGood? ==> c.time > 0)
    && (c.CallAttempt? ==> c.time >= 0)
  }

  ghost function After(k: Keyed, s: State, c: Call): State
    requires Structure(k, s)
  {
    match c
    case CallAdd(a, source, penalty, now, draw) => Add(k, s, a, source, penalty, now, draw).0
    case CallGood(a, time) => Good(k, s, a, time)
    case CallAttempt(a, time) => Attempt(s, a, time)
    case CallConnected(a, time) => Connected(s, a, time)
    case CallGetAddr(draws, now) => GetAddr(s, draws, now).0
  }

  lemma AfterKeeps(k: Keyed, s: State, c: Call)
    requires Structure(k, s)
    ensures Structure(k, After(k, s, c))
    ensures Stamped(s) && Timely(c) ==> Stamped(After(k, s, c))
  {
    hide Structure, Stamped;
    match c
    case CallAdd(a, source, penalty, now, draw) =>
      AddKeeps(k, s, a, source, penalty, now, draw);
      if Stamped(s) { AddStamped(k, s, a, source, penalty, now, draw); }
    case CallGood(a, time) =>
      GoodKeeps(k, s, a, time);
      if Stamped(s) { GoodStamped(k, s, a, time); }
    case CallAttempt(a, time) =>
      AttemptKeeps(k, s, a, time);
      if Stamped(s) { AttemptStamped(k, s, a, time); }
    case CallConnected(a, time) =>
      ConnectedKeeps(k, s, a, time);
      if Stamped(s) { ConnectedStamped(s, a, time); }
    case CallGetAddr(draws, now) =>
      GetAddrOutcome(k, s, draws, now);
  }

  /** The state after these calls, in this order. */
  ghost function Run(k: Keyed, s: State, calls: seq<Call>): State
    requires Structure(k, s)
    decreases |calls|
  {
    if calls == [] then s
    else
      AfterKeeps(k, s, calls[0]);
      Run(k, After(k, s, calls[0]), calls[1..])
  }

  lemma EmptyInv(k: Keyed)
    ensures Inv(k, EMPTY)
  {
    assert TriedIds(EMPTY) == {} && NewIds(EMPTY) == {};
  }

  lemma {:induction false} RunFrom(k: Keyed, s: State, calls: seq<Call>)
    requires Structure(k, s)
    ensures Structure(k, Run(k, s, calls))
    ensures Stamped(s) && (forall c :: c in calls ==> Timely(c)) ==> Stamped(Run(k, s, calls))
    decreases |calls|
  {
    hide Structure, Stamped;
    if calls != [] {
      assert calls[0] in calls;
      AfterKeeps(k, s, calls[0]);
      hide After;
      RunFrom(k, After(k, s, calls[0]), calls[1..]);
    }
  }

  /** From an empty manager every run of calls leaves the five structures in agreement;
      with timely calls `Check_` has nothing to report. */
  lemma RunKeepsInv(k: Keyed, calls: seq<Call>)
    ensures Structure(k, EMPTY) && Structure(k, Run(k, EMPTY, calls))
    ensures (forall c :: c in calls ==> Timely(c)) ==> Inv(k, Run(k, EMPTY, calls))
  {
    EmptyInv(k);
    hide Structure, Stamped;
    RunFrom(k, EMPTY, calls);
  }
}

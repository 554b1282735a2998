/** What the calls to an address manager come to, in the entries and tables alone. */
module AddrCalls {
  import opened AddrLemmas
  import opened AddrOps
  import opened AddrRuns
  import opened AddrOutcome
  import opened AddrState
  import opened Arith
  import opened Bits
  import opened Wrappers

  /** The entry for exactly this service, if the manager has one. */
  lemma MatchIs(k: Keyed, s: State, a: Service)
    requires Structure(k, s)
    ensures Match(s, a).Some? ==> Match(s, a).value in s.info && s.info[Match(s, a).value].service == a
    ensures forall id :: id in s.info && s.info[id].service == a ==> Match(s, a) == Some(id)
  {
    hide Placed, Totalled;
  }

  // ------------------------------------------------------------------------ Good

  /** Entry `id` after a success at `time`: it is tried, at no slot of the new table. */
  ghost predicate Successful(k: Keyed, s: State, t: State, id: int, time: int) {
    && id in s.info && id in t.info && SlotsOf(t.newTab, id) == {}
    && t.triedTab == s.triedTab[k.TriedSlot(s.info[id].service) := id]
    && t.info[id] == s.info[id].(nLastSuccess := time, nLastTry := time, nAttempts := 0, fInTried := true,
                                 nRefCount := 0, nRandomPos := t.info[id].nRandomPos)
  }

  /** Everybody else after `id` was moved to the tried slot `sl`. Whoever had the slot is in its own
      new slot again, and whoever had that one is forgotten if he had no other. */
  ghost predicate MovedTo(k: Keyed, s: State, t: State, id: int, sl: Slot) {
    && (forall x :: x in t.info ==> x in s.info)
    && (forall x :: x in t.info && x != id ==> SameRecord(s.info[x], t.info[x]))
    && t.nTried == s.nTried + (if sl in s.triedTab then 0 else 1)
    && (sl !in s.triedTab ==>
          && t.newTab == Without(s.newTab, id)
          && (forall x :: x in s.info ==> x in t.info))
    && (sl in s.triedTab ==>
          var out := s.triedTab[sl];
          && out != id && out in s.info && out in t.info && !t.info[out].fInTried && t.info[out].nRefCount == 1
          && var e := s.info[out]; var home := k.NewSlot(e.service, k.NewBucket(e.service, e.source));
          && t.newTab == Without(s.newTab, id)[home := out]
          && (forall x :: x in s.info && x !in t.info ==> Holds(s, home, x) && s.info[x].nRefCount == 1))
  }

  /** A success at a service that has no entry changes nothing. Otherwise its entry is tried from
      then on, with the time of the success. If it was tried before, that is all that changes;
      otherwise it is moved to its tried slot. */
  lemma GoodOutcome(k: Keyed, s: State, a: Service, time: int)
    requires Structure(k, s)
    ensures var t := Good(k, s, a, time);
            && Structure(k, t)
            && ((forall id :: id in s.info ==> s.info[id].service != a) ==> t == s)
            && forall id :: id in s.info && s.info[id].service == a ==>
                 && Successful(k, s, t, id, time)
                 && (s.info[id].fInTried ==> t == s.(info := s.info[id := t.info[id]]))
                 && (!s.info[id].fInTried ==> MovedTo(k, s, t, id, k.TriedSlot(a)))
  {
    hide Indexed, Placed, Totalled, Match, MakeTried, MadeTried, Successful, MovedTo, SetInfo;
    MatchIs(k, s, a);
    GoodKeeps(k, s, a, time);
    match Match(s, a)
    case None =>
    case Some(id) =>
      var u := SetInfo(s, id, Succeeded(s.info[id], time));
      SetInfoKeeps(k, s, id, Succeeded(s.info[id], time));
      if s.info[id].fInTried {
        GoodTried(k, s, id, time);
      } else {
        SetIs(s, id, Succeeded(s.info[id], time));
        MakeTriedOutcome(k, u, id);
        GoodMoved(k, s, u, MakeTried(k, u, id), id, time);
      }
  }

  lemma SetIs(s: State, id: int, e: AddrInfo)
    requires id in s.info
    ensures SetInfo(s, id, e) == s.(info := s.info[id := e])
  {
  }

  lemma GoodTried(k: Keyed, s: State, id: int, time: int)
    requires Structure(k, s) && id in s.info && s.info[id].fInTried
    ensures var t := SetInfo(s, id, Succeeded(s.info[id], time));
            Successful(k, s, t, id, time) && t == s.(info := s.info[id := t.info[id]])
  {
    hide Indexed, Shuffled, Totalled;
    assert forall sl :: sl in s.newTab ==> s.newTab[sl] != id;
    assert SlotsOf(s.newTab, id) == {};
  }

  lemma GoodMoved(k: Keyed, s: State, u: State, t: State, id: int, time: int)
    requires Structure(k, s) && Structure(k, u) && Structure(k, t) && id in s.info && !s.info[id].fInTried
    requires u == SetInfo(s, id, Succeeded(s.info[id], time)) && MadeTried(k, u, t, id)
    ensures Successful(k, s, t, id, time) && MovedTo(k, s, t, id, k.TriedSlot(s.info[id].service))
  {
    var sl := k.TriedSlot(s.info[id].service);
    MovedIn(k, u, t, id);
    NoSlots(k, t, id);
    OccupantOther(k, u, id, sl);
    hide Structure;
    MovedOthers(k, s, u, t, id, time);
    hide MadeTried;
    MovedIs(k, s, u, t, id, time);
  }

  lemma MovedIn(k: Keyed, s: State, t: State, id: int)
    requires MadeTried(k, s, t, id)
    ensures id in s.info && id in t.info && t.info[id].fInTried && SameRecord(s.info[id], t.info[id])
    ensures t.triedTab == s.triedTab[k.TriedSlot(s.info[id].service) := id]
  {
  }

  lemma MovedIs(k: Keyed, s: State, u: State, t: State, id: int, time: int)
    requires id in s.info && u == SetInfo(s, id, Succeeded(s.info[id], time)) && id in t.info
    requires SameRecord(u.info[id], t.info[id]) && t.info[id].fInTried && t.info[id].nRefCount == 0
    requires SlotsOf(t.newTab, id) == {} && t.triedTab == s.triedTab[k.TriedSlot(s.info[id].service) := id]
    ensures Successful(k, s, t, id, time)
  {
  }

  lemma MovedOthers(k: Keyed, s: State, u: State, t: State, id: int, time: int)
    requires id in s.info && u == SetInfo(s, id, Succeeded(s.info[id], time)) && MadeTried(k, u, t, id)
    requires var sl := k.TriedSlot(s.info[id].service);
             sl in s.triedTab ==> s.triedTab[sl] in s.info && s.triedTab[sl] != id
    ensures MovedTo(k, s, t, id, k.TriedSlot(s.info[id].service))
  {
    assert forall x :: x in u.info <==> x in s.info;
    assert forall x :: x in s.info && x != id ==> u.info[x] == s.info[x];
  }

  /** A tried entry is in no slot of the new table. */
  lemma NoSlots(k: Keyed, s: State, id: int)
    requires Structure(k, s) && id in s.info && s.info[id].fInTried
    ensures SlotsOf(s.newTab, id) == {} && s.info[id].nRefCount == 0
  {
    hide Indexed, Shuffled, Totalled, TriedPlaced;
    assert forall sl :: sl in s.newTab ==> s.newTab[sl] != id;
    assert SlotsOf(s.newTab, id) == {};
  }

  // ---------------------------------------------------------- Attempt, Connected

  /** An attempt is counted for the entry of exactly this service, with its time. */
  lemma AttemptOutcome(k: Keyed, s: State, a: Service, time: int)
    requires Structure(k, s)
    ensures var t := Attempt(s, a, time);
            && ((forall id :: id in s.info ==> s.info[id].service != a) ==> t == s)
            && forall id :: id in s.info && s.info[id].service == a ==>
                 t == s.(info := s.info[id := s.info[id].(nLastTry := time, nAttempts := s.info[id].nAttempts + 1)])
  {
    hide Structure, Match;
    MatchIs(k, s, a);
    forall id | id in s.info && s.info[id].service == a
      ensures Attempt(s, a, time)
           == s.(info := s.info[id := s.info[id].(nLastTry := time, nAttempts := s.info[id].nAttempts + 1)])
    {
      assert Match(s, a) == Some(id);
    }
  }

  /** The time of the entry of exactly this service is brought up to date when it is more than
      twenty minutes old, and is what fits into 32 bits. */
  lemma ConnectedOutcome(k: Keyed, s: State, a: Service, time: int)
    requires Structure(k, s)
    ensures var t := Connected(s, a, time);
            && ((forall id :: id in s.info ==> s.info[id].service != a) ==> t == s)
            && forall id :: id in s.info && s.info[id].service == a ==>
                 && (time <= s.info[id].nTime + 1200 ==> t == s)
                 && (time > s.info[id].nTime + 1200 ==>
                       t == s.(info := s.info[id := s.info[id].(nTime := time % 0x1_0000_0000)]))
  {
    hide Structure, Match, SetInfo;
    MatchIs(k, s, a);
    forall id | id in s.info && s.info[id].service == a
      ensures var t := Connected(s, a, time);
              && (time <= s.info[id].nTime + 1200 ==> t == s)
              && (time > s.info[id].nTime + 1200 ==>
                    t == s.(info := s.info[id := s.info[id].(nTime := time % 0x1_0000_0000)]))
    {
      assert Match(s, a) == Some(id);
      SetIs(s, id, s.info[id].(nTime := time % 0x1_0000_0000));
    }
  }

  // ------------------------------------------------------------------ IsTerrible

  /** When an entry may be thrown out: it was not tried within a minute, and it is from the
      future, or out of sight for thirty days, or failed three times without any success, or ten
      times and for a week. */
  lemma TerribleIff(e: AddrInfo, now: int)
    ensures e.IsTerrible(now) <==>
              && (e.nLastTry == 0 || now - e.nLastTry > 60)
              && (|| e.nTime == 0 || e.nTime - now > 600 || now - e.nTime > 2592000
                  || (e.nLastSuccess == 0 && e.nAttempts >= 3)
                  || (e.nAttempts >= 10 && now - e.nLastSuccess > 604800))
  {
  }

  /** A peer that has just answered is kept for a minute, whatever its record was, and after that
      only the time it was seen counts. */
  lemma GoodNotTerrible(k: Keyed, s: State, a: Service, time: int, now: int, id: int)
    requires Structure(k, s) && id in s.info && s.info[id].service == a && time != 0
    ensures var t := Good(k, s, a, time);
            && id in t.info
            && (now <= time + 60 ==> !t.info[id].IsTerrible(now))
            && (now > time + 60 ==>
                  var seen := s.info[id].nTime;
                  (t.info[id].IsTerrible(now) <==> seen == 0 || seen - now > 600 || now - seen > 2592000))
  {
    GoodOutcome(k, s, a, time);
    hide Structure, MovedTo;
    TerribleIff(Good(k, s, a, time).info[id], now);
    hide AddrInfo.IsTerrible;
  }

  // ------------------------------------------------------- Add for a known address

  /** How an address that is told again changes what is known of it: `penalty` is held against
      its time. */
  lemma RefreshedTime(e: AddrInfo, a: Address, penalty: nat, now: int)
    requires a.nTime < 0x1_0000_0000
    ensures var f := Refreshed(e, a, penalty, now);
            && f == e.(nTime := f.nTime, nServices := e.nServices + a.nServices)
            && e.nTime <= f.nTime
            && (f.nTime != e.nTime ==> f.nTime == if a.nTime > penalty then a.nTime - penalty else 0)
            && var interval := if now < a.nTime + 86400 then 3600 else 86400;
            && (f.nTime != e.nTime && e.nTime != 0 ==> f.nTime - e.nTime > interval)
            && (f.nTime == e.nTime ==>
                  a.nTime == 0 || a.nTime - penalty <= e.nTime + if e.nTime == 0 then 0 else interval)
  {
  }

  /** Whether an address that is told again gets one more slot of the new table: `f` is its
      refreshed entry, and `sl` the slot that its source selects. */
  predicate Grows(s: State, f: AddrInfo, a: Address, id: int, sl: Slot, now: int, draw: nat) {
    && a.nTime != 0 && (f.nTime == 0 || f.nTime < a.nTime)
    && !f.fInTried && 0 <= f.nRefCount < 8 && draw % Pow2(f.nRefCount) == 0
    && (sl in s.newTab ==>
          s.newTab[sl] != id && s.newTab[sl] in s.info && s.info[s.newTab[sl]].IsTerrible(now))
  }

  /** Giving an entry that has a slot one more, if that is free or its holder terrible. */
  lemma PlaceKnown(k: Keyed, s: State, id: int, source: NetAddr, now: int, sl: Slot)
    requires Linked(k, s, {}) && IsNew(s, id) && s.info[id].nRefCount > 0 && sl == SourceSlot(k, s, id, source)
    ensures LimboOf(s, id) == {}
    ensures sl in s.newTab ==> s.newTab[sl] in s.info
    ensures if sl in s.newTab && (s.newTab[sl] == id || !s.info[s.newTab[sl]].IsTerrible(now)) then
              Place(k, s, id, source, now) == s
            else Grown(s, Place(k, s, id, source, now), id, sl)
  {
    hide Indexed, Shuffled, TriedPlaced, NewPlaced, Counted, AddrInfo.IsTerrible;
    if sl in s.newTab { HolderFacts(k, s, sl, {}); }
    if !Holds(s, sl, id) && Yields(s, sl, id, now) {
      PlaceRoom(k, s, id, sl);
      ClearNewFrame(s, sl);
      if sl in s.newTab && s.info[s.newTab[sl]].nRefCount == 1 { HolderLost(s, sl); }
      hide ClearNew, Linked;
      GrownIs(s, ClearNew(s, sl), id, sl);
    }
  }

  /** `id` has slot `sl` besides, whose holder is gone if he had no other. */
  ghost predicate Grown(s: State, t: State, id: int, sl: Slot) {
    && t.triedTab == s.triedTab && t.newTab == s.newTab[sl := id] && id in s.info && id in t.info
    && Alike(s.info[id].(nRefCount := s.info[id].nRefCount + 1), t.info[id])
    && (forall x :: x in s.info && x != id && !Holds(s, sl, x) ==> x in t.info && Alike(s.info[x], t.info[x]))
    && (forall x :: x in s.info && Holds(s, sl, x) ==> (x in t.info <==> s.info[x].nRefCount > 1))
  }

  lemma GrownIs(s: State, c: State, id: int, sl: Slot)
    requires Cleared(s, c, sl) && id in s.info && id in c.info && Alike(s.info[id], c.info[id]) && !Holds(s, sl, id)
    requires sl in s.newTab ==>
               s.newTab[sl] in s.info && s.info[s.newTab[sl]].nRefCount > 0
               && (s.info[s.newTab[sl]].nRefCount == 1 ==> s.newTab[sl] !in c.info)
    ensures Grown(s, Enter(c, id, sl), id, sl)
  {
    assert c.newTab[sl := id] == s.newTab[sl := id];
  }

  lemma WantedIs(s: State, f: AddrInfo, a: Address, id: int, sl: Slot, now: int, draw: nat)
    requires 0 <= f.nRefCount <= 8
    ensures Grows(s, f, a, id, sl, now, draw) <==>
              && Wanted(f, a, draw)
              && (sl in s.newTab ==>
                    s.newTab[sl] != id && s.newTab[sl] in s.info && s.info[s.newTab[sl]].IsTerrible(now))
  {
    if Pow2(f.nRefCount) == 1 { assert draw % 1 == 0; }
  }

  /** An address that is told again is refreshed. It gets one more slot if its time is news, it is
      not tried, it has fewer than eight, the draw is lucky, and the slot is free or its holder is
      terrible, who is forgotten if he has no other. Nothing else changes. */
  lemma AddKnown(k: Keyed, s: State, a: Address, source: NetAddr, penalty: int, now: int, draw: nat, id: int)
    requires Structure(k, s) && k.hashes.routable(a.service.ip)
    requires id in s.info && s.info[id].service.ip == a.service.ip
    ensures var (t, fNew) := AddrRuns.Add(k, s, a, source, penalty, now, draw);
            var f := Refreshed(s.info[id], a, penalty, now);
            var sl := k.NewSlot(f.service, k.NewBucket(f.service, source));
            && !fNew
            && if Grows(s, f, a, id, sl, now, draw) then Grown(s.(info := s.info[id := f]), t, id, sl)
               else t == s.(info := s.info[id := f])
  {
    hide Indexed, Shuffled, TriedPlaced, NewPlaced, Counted, Totalled, Wanted, Refreshed, AddrInfo.IsTerrible;
    var f := Refreshed(s.info[id], a, penalty, now);
    FindIs(k, s, a.service.ip, id);
    var u := SetInfo(s, id, f);
    RefreshPlaces(s.info[id], a, penalty, now);
    SetInfoKeeps(k, s, id, f);
    NewEntry(k, s, id);
    var sl := k.NewSlot(f.service, k.NewBucket(f.service, source));
    WantedIs(s, f, a, id, sl, now, draw);
    if Wanted(f, a, draw) {
      RefreshReady(k, s, id, a, penalty, now, draw);
      PlaceKnown(k, u, id, source, now, sl);
    }
    hide Place, Grown, Linked;
  }

  lemma RefreshPlaces(e: AddrInfo, a: Address, penalty: int, now: int)
    ensures var f := Refreshed(e, a, penalty, now);
            && f.service == e.service && f.fInTried == e.fInTried && f.nRefCount == e.nRefCount
            && f.nRandomPos == e.nRandomPos
  {
  }

  lemma FindIs(k: Keyed, s: State, ip: NetAddr, id: int)
    requires Structure(k, s) && id in s.info && s.info[id].service.ip == ip
    ensures Find(s, ip) == Some(id)
  {
    hide Placed, Totalled;
  }

  // --------------------------------------------------------------------- GetAddr

  function Presentable(s: State, now: int): set<int> {
    set id | id in s.info && !s.info[id].IsTerrible(now)
  }

  lemma SubsetSize(a: set<int>, b: set<int>)
    requires a <= b
    ensures |a| <= |b| && (|a| == |b| ==> a == b)
  {
    assert b == a + (b - a);
  }

  /** A peer is given as many addresses as it may be: 23 in a hundred of the known ones, but at most
      2500, as long as there are so many that are not terrible. */
  lemma GetAddrSize(k: Keyed, s: State, draws: nat -> nat, now: int)
    requires Structure(k, s)
    ensures |GetAddr(s, draws, now).1| == Min(Min(2500, 23 * (s.nTried + s.nNew) / 100), |Presentable(s, now)|)
  {
    StructureParts(k, s);
    RandomSize(s);
    LimitIs(s);
    hide Structure, Indexed, Shuffled, Totalled, Scanned, GetAddr, GetAddrLimit, CAddress, Presentable;
    var ids := GetAddrScans(s, draws, now);
    ScannedCount(s, GetAddr(s, draws, now).0, ids, GetAddrLimit(s), now);
  }

  lemma ScannedCount(s: State, t: State, ids: seq<int>, limit: nat, now: int)
    requires Shuffled(s) && Scanned(s, t, ids, limit, now)
    ensures |ids| == Min(limit, |Presentable(s, now)|)
  {
    ScannedParts(s, t, ids, limit, now);
    DistinctCount(ids);
    ScannedGood(s, t, ids, limit, now);
    hide Shuffled, Scanned, Presentable;
    SubsetSize((set x | x in ids), Presentable(s, now));
  }

  lemma ScannedGood(s: State, t: State, ids: seq<int>, limit: nat, now: int)
    requires Shuffled(s) && Scanned(s, t, ids, limit, now)
    ensures (set x | x in ids) <= Presentable(s, now)
    ensures |ids| < limit ==> (set x | x in ids) == Presentable(s, now)
  {
    hide AddrInfo.IsTerrible;
    forall i | 0 <= i < |ids| ensures ids[i] in Presentable(s, now) {
      var id := ids[i];
      assert id in t.info && Alike(s.info[id], t.info[id]);
      TerribleAlike(s.info[id], t.info[id], now);
    }
    if |ids| < limit {
      forall id | id in Presentable(s, now) ensures id in ids {
        assert id in t.info && Alike(s.info[id], t.info[id]);
        TerribleAlike(s.info[id], t.info[id], now);
      }
    }
  }

  lemma TerribleAlike(e: AddrInfo, f: AddrInfo, now: int)
    requires Alike(e, f)
    ensures e.IsTerrible(now) <==> f.IsTerrible(now)
  {
  }

  /** One step of a scan. */
  lemma ScanStepIs(s: State, n: nat, found: seq<int>, limit: nat, draws: nat -> nat, now: int)
    requires Shuffled(s) && n < |s.random| && |found| < limit
    ensures var j := DrawFrom(n, |s.random|, draws(n));
            && s.random[n] in s.info && s.random[j] in s.info
            && var t := Swap(s, n, j);
            && Shuffled(t) && n < |t.random| == |s.random| && t.random[n] in t.info
            && Scan(s, n, found, limit, draws, now)
               == Scan(t, n + 1, if t.info[t.random[n]].IsTerrible(now) then found else found + [t.random[n]],
                       limit, draws, now)
  {
    SwapFree(s, n, DrawFrom(n, |s.random|, draws(n)));
    hide AddrInfo.IsTerrible, Swap;
  }

  lemma ScanDone(s: State, n: nat, found: seq<int>, limit: nat, draws: nat -> nat, now: int)
    requires Shuffled(s) && n <= |s.random| && (n == |s.random| || |found| >= limit)
    ensures Scan(s, n, found, limit, draws, now) == (s, found)
  {
  }

  lemma SwapFree(s: State, i: nat, j: nat)
    requires Shuffled(s) && i < |s.random| && j < |s.random|
    ensures s.random[i] in s.info && s.random[j] in s.info && Shuffled(Swap(s, i, j))
    ensures |Swap(s, i, j).random| == |s.random|
  {
    SwapShuffled(s, i, j);
  }

  /** A scan looks only at the draws for the places that it still comes to. */
  lemma {:induction false} ScanAgrees(s: State, n: nat, found: seq<int>, limit: nat, draws: nat -> nat,
                                      others: nat -> nat, now: int)
    requires Shuffled(s) && n <= |s.random| && forall m: nat :: m >= n ==> draws(m) == others(m)
    ensures Scan(s, n, found, limit, draws, now) == Scan(s, n, found, limit, others, now)
    decreases |s.random| - n
  {
    hide Shuffled, AddrInfo.IsTerrible, Swap, Scan;
    if n < |s.random| && |found| < limit {
      ScanStepIs(s, n, found, limit, draws, now);
      ScanStepIs(s, n, found, limit, others, now);
      var t := Swap(s, n, DrawFrom(n, |s.random|, draws(n)));
      var id := t.random[n];
      ScanAgrees(t, n + 1, if t.info[id].IsTerrible(now) then found else found + [id], limit, draws, others, now);
    } else {
      ScanDone(s, n, found, limit, draws, now);
      ScanDone(s, n, found, limit, others, now);
    }
  }

  /** The entries of `want` that are listed already are at the first places, in this order. */
  ghost predicate Wants(s: State, n: nat, want: seq<int>, limit: nat, now: int) {
    && n <= |want| <= |s.random| && |want| <= limit
    && (forall i :: 0 <= i < n ==> s.random[i] == want[i])
    && (forall i, j :: 0 <= i < j < |want| ==> want[i] != want[j])
    && (forall i :: 0 <= i < |want| ==> want[i] in Presentable(s, now))
    && (|want| < limit ==> forall id :: id in Presentable(s, now) ==> id in want)
  }

  lemma SwapPresentable(s: State, i: nat, j: nat, now: int)
    requires Shuffled(s) && i < |s.random| && j < |s.random|
    ensures Presentable(Swap(s, i, j), now) == Presentable(s, now)
  {
    SwapReorders(s, i, j);
    var t := Swap(s, i, j);
    hide Swap, Shuffled, AddrInfo.IsTerrible;
    forall id | id in s.info ensures id in t.info && (s.info[id].IsTerrible(now) <==> t.info[id].IsTerrible(now)) {
      TerribleAlike(s.info[id], t.info[id], now);
    }
  }

  lemma SwapPlaces(s: State, i: nat, j: nat)
    requires Shuffled(s) && i < |s.random| && j < |s.random|
    ensures Swap(s, i, j).random == s.random[i := s.random[j]][j := s.random[i]]
  {
  }

  lemma WantsNext(s: State, n: nat, want: seq<int>, limit: nat, now: int)
    requires Shuffled(s) && Wants(s, n, want, limit, now) && n < |want|
    ensures want[n] in s.info && n <= s.info[want[n]].nRandomPos < |s.random|
    ensures var t := Swap(s, n, s.info[want[n]].nRandomPos);
            && Wants(t, n + 1, want, limit, now) && |t.random| == |s.random|
            && t.random[n] == want[n] && want[n] in t.info && !t.info[want[n]].IsTerrible(now)
  {
    var id := want[n];
    assert id in Presentable(s, now);
    var j := s.info[id].nRandomPos;
    assert s.random[j] == id;
    SwapPresentable(s, n, j, now);
    SwapPlaces(s, n, j);
    hide Swap, Shuffled, AddrInfo.IsTerrible;
  }

  /** The draws that bring the entries of `want` to the front one after the other. */
  lemma {:induction false} ScanReaches(s: State, n: nat, want: seq<int>, limit: nat, now: int)
    returns (draws: nat -> nat)
    requires Shuffled(s) && Wants(s, n, want, limit, now)
    ensures n <= |want| && Scan(s, n, want[..n], limit, draws, now).1 == want
    decreases |want| - n
  {
    hide Shuffled, Swap, Scan, AddrInfo.IsTerrible, Wants;
    WantsRoom(s, n, want, limit, now);
    if n == |want| {
      draws := _ => 0;
      assert want[..n] == want;
      WantsEnd(s, want, limit, now);
      ScanRest(s, n, want, limit, draws, now);
    } else {
      WantsNext(s, n, want, limit, now);
      var j := s.info[want[n]].nRandomPos;
      SwapFree(s, n, j);
      var t := Swap(s, n, j);
      var rest := ScanReaches(t, n + 1, want, limit, now);
      draws := (m: nat) => if m == n then j - n else rest(m);
      assert want[..n] + [want[n]] == want[..n + 1];
      ScanAgrees(t, n + 1, want[..n + 1], limit, draws, rest, now);
      ScanStepIs(s, n, want[..n], limit, draws, now);
      DrawIs(n, |s.random|, j);
    }
  }

  lemma DrawIs(n: nat, size: nat, j: nat)
    requires n <= j < size
    ensures DrawFrom(n, size, j - n) == j
  {
  }

  lemma WantsRoom(s: State, n: nat, want: seq<int>, limit: nat, now: int)
    requires Wants(s, n, want, limit, now)
    ensures n <= |want| <= |s.random| && |want| <= limit
  {
  }

  /** Nobody from place `n` on may be listed. */
  ghost predicate NoneLeft(s: State, n: nat, now: int) {
    forall i :: n <= i < |s.random| ==> s.random[i] !in Presentable(s, now)
  }

  lemma WantsEnd(s: State, want: seq<int>, limit: nat, now: int)
    requires Shuffled(s) && Wants(s, |want|, want, limit, now)
    ensures |want| < limit ==> NoneLeft(s, |want|, now)
  {
    if |want| < limit {
      forall i | |want| <= i < |s.random| ensures s.random[i] !in Presentable(s, now) {
        assert s.info[s.random[i]].nRandomPos == i;
      }
    }
  }

  lemma NoneLeftNext(s: State, n: nat, j: nat, now: int)
    requires Shuffled(s) && NoneLeft(s, n, now) && n <= j < |s.random|
    ensures var t := Swap(s, n, j);
            && Shuffled(t) && NoneLeft(t, n + 1, now) && |t.random| == |s.random|
            && t.random[n] in t.info && t.info[t.random[n]].IsTerrible(now)
  {
    SwapShuffled(s, n, j);
    SwapPlaces(s, n, j);
    SwapPresentable(s, n, j, now);
    hide Swap, AddrInfo.IsTerrible;
    var t := Swap(s, n, j);
    assert t.random[n] == s.random[j] && t.random[n] !in Presentable(t, now);
    assert t.random[n] in t.info;
    hide Shuffled;
  }

  /** When all that may be listed are, the rest of the scan adds none. */
  lemma {:induction false} ScanRest(s: State, n: nat, want: seq<int>, limit: nat, draws: nat -> nat, now: int)
    requires Shuffled(s) && n <= |s.random| && |want| <= limit && (|want| < limit ==> NoneLeft(s, n, now))
    ensures Scan(s, n, want, limit, draws, now).1 == want
    decreases |s.random| - n
  {
    hide Shuffled, NoneLeft, AddrInfo.IsTerrible, Swap, Scan;
    if n < |s.random| && |want| < limit {
      var j := DrawFrom(n, |s.random|, draws(n));
      ScanStepIs(s, n, want, limit, draws, now);
      NoneLeftNext(s, n, j, now);
      ScanRest(Swap(s, n, j), n + 1, want, limit, draws, now);
    } else {
      ScanDone(s, n, want, limit, draws, now);
    }
  }

  /** Any list of the right length of different entries that are not terrible, in any order, is the
      answer for some draws. */
  lemma GetAddrReaches(k: Keyed, s: State, want: seq<int>, now: int) returns (draws: nat -> nat)
    requires Structure(k, s)
    requires |want| == Min(Min(2500, 23 * (s.nTried + s.nNew) / 100), |Presentable(s, now)|)
    requires forall i, j :: 0 <= i < j < |want| ==> want[i] != want[j]
    requires forall i :: 0 <= i < |want| ==> want[i] in s.info && !s.info[want[i]].IsTerrible(now)
    ensures GetAddr(s, draws, now).1 == seq(|want|, i requires 0 <= i < |want| => CAddress(s.info[want[i]]))
  {
    hide Structure, Indexed, Shuffled, Wants, GetAddrLimit, Totalled, GetAddr, Scan, AddrInfo.IsTerrible, CAddress;
    StructureParts(k, s);
    RandomSize(s);
    LimitIs(s);
    WantsStart(s, want, now);
    draws := ScanReaches(s, 0, want, GetAddrLimit(s), now);
    assert want[..0] == [];
    AnswerIs(s, draws, want, now);
  }

  lemma LimitIs(s: State)
    ensures GetAddrLimit(s) == Min(2500, 23 * |s.random| / 100) <= |s.random|
  {
  }

  lemma WantsStart(s: State, want: seq<int>, now: int)
    requires |want| == Min(GetAddrLimit(s), |Presentable(s, now)|)
    requires forall i, j :: 0 <= i < j < |want| ==> want[i] != want[j]
    requires forall i :: 0 <= i < |want| ==> want[i] in s.info && !s.info[want[i]].IsTerrible(now)
    ensures Wants(s, 0, want, GetAddrLimit(s), now)
  {
    DistinctCount(want);
    assert forall i :: 0 <= i < |want| ==> want[i] in Presentable(s, now);
    SubsetSize((set x | x in want), Presentable(s, now));
    if |want| < GetAddrLimit(s) {
      forall id | id in Presentable(s, now) ensures id in want {
        assert id in (set x | x in want);
      }
    }
  }

  lemma AnswerIs(s: State, draws: nat -> nat, want: seq<int>, now: int)
    requires Shuffled(s) && Scan(s, 0, [], GetAddrLimit(s), draws, now).1 == want
    requires forall i :: 0 <= i < |want| ==> want[i] in s.info
    ensures GetAddr(s, draws, now).1 == seq(|want|, i requires 0 <= i < |want| => CAddress(s.info[want[i]]))
  {
    hide Scan, Shuffled, Scanned, GetAddrLimit, Listed, AllListed;
    ListedNone(s, now);
    ScanOutcome(s, 0, [], GetAddrLimit(s), draws, now);
    var t := Scan(s, 0, [], GetAddrLimit(s), draws, now).0;
    ScannedParts(s, t, want, GetAddrLimit(s), now);
    forall i | 0 <= i < |want| ensures CAddress(t.info[want[i]]) == CAddress(s.info[want[i]]) {
      var id := want[i];
      assert id in t.info && Alike(s.info[id], t.info[id]);
    }
  }
}

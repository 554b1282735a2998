/** The address manager of src/addrman.h and src/addrman.cpp, updated in place.
    Every method is proved against the function of the same name on its value. */
module AddrMan {
  import opened Arith
  import opened Bits
  import opened AddrState
  import opened AddrLemmas
  import opened AddrOps
  import opened AddrRuns
  import opened AddrCheck
  import opened AddrFile
  import opened AddrRestore
  import opened AddrStream

  /** Array `a` holds the slots of `m`, and -1 everywhere else. */
  ghost predicate Shows(a: array2<int>, m: map<Slot, int>)
    reads a
  {
    && (forall b, p :: 0 <= b < a.Length0 && 0 <= p < a.Length1 ==>
          a[b, p] == if Slot(b, p) in m then m[Slot(b, p)] else -1)
    && (forall sl :: sl in m ==> sl.bucket < a.Length0 && sl.pos < a.Length1 && m[sl] != -1)
  }

  class CAddrMan {
    const hashes: Hashes
    var nKey: nat
    var nIdCount: int
    var mapInfo: map<int, AddrInfo>
    var mapAddr: map<NetAddr, int>
    var vRandom: seq<int>
    var nTried: int
    const vvTried: array2<int>
    var nNew: int
    const vvNew: array2<int>

    ghost var triedTab: map<Slot, int>
    ghost var newTab: map<Slot, int>

    /** The arrays show the two tables. */
    ghost predicate Rep()
      reads this, vvTried, vvNew
    {
      && vvTried.Length0 == TRIED_BUCKET_COUNT && vvTried.Length1 == BUCKET_SIZE
      && vvNew.Length0 == NEW_BUCKET_COUNT && vvNew.Length1 == BUCKET_SIZE
      && vvTried != vvNew
      && Shows(vvTried, triedTab) && Shows(vvNew, newTab)
    }

    ghost function S(): State
      reads this
    {
      State(mapInfo, mapAddr, vRandom, triedTab, newTab, nTried, nNew, nIdCount)
    }

    ghost function K(): Keyed
      reads this`nKey
    {
      Keyed(hashes, nKey)
    }

    /** An empty manager with key `key`. */
    constructor (hashes: Hashes, key: nat)
      ensures Rep() && S() == EMPTY && nKey == key && this.hashes == hashes
      ensures fresh(vvTried) && fresh(vvNew)
    {
      this.hashes := hashes;
      nKey := key;
      nIdCount := 0;
      mapInfo, mapAddr, vRandom := map[], map[], [];
      nTried, nNew := 0, 0;
      vvTried := new int[TRIED_BUCKET_COUNT, BUCKET_SIZE]((_, _) => -1);
      vvNew := new int[NEW_BUCKET_COUNT, BUCKET_SIZE]((_, _) => -1);
      triedTab, newTab := map[], map[];
    }

    method SwapRandom(i: nat, j: nat)
      requires Shuffled(S()) && i < |vRandom| && j < |vRandom|
      modifies this`mapInfo, this`vRandom
      ensures S() == Swap(old(S()), i, j)
    {
      if i == j {
        return;
      }
      var id1, id2 := vRandom[i], vRandom[j];
      assert id1 in mapInfo && id2 in mapInfo;
      mapInfo := mapInfo[id1 := mapInfo[id1].(nRandomPos := j)];
      mapInfo := mapInfo[id2 := mapInfo[id2].(nRandomPos := i)];
      vRandom := vRandom[i := id2];
      vRandom := vRandom[j := id1];
    }

    method Delete(id: int)
      requires Shuffled(S()) && id in mapInfo && !mapInfo[id].fInTried && mapInfo[id].nRefCount == 0
      modifies this`mapInfo, this`vRandom, this`mapAddr, this`nNew
      ensures S() == AddrState.Delete(old(S()), id)
    {
      hide Swap, Shuffled;
      ghost var s := S();
      SwapLast(s, id);
      var service := mapInfo[id].service;
      SwapRandom(mapInfo[id].nRandomPos, |vRandom| - 1);
      vRandom := vRandom[..|vRandom| - 1];
      mapAddr := mapAddr - {service.ip};
      mapInfo := mapInfo - {id};
      nNew := nNew - 1;
    }

    lemma NewSlotHolds(b: nat, p: nat)
      requires Rep() && b < NEW_BUCKET_COUNT && p < BUCKET_SIZE
      ensures vvNew[b, p] == if Slot(b, p) in newTab then newTab[Slot(b, p)] else -1
      ensures vvNew[b, p] != -1 <==> Slot(b, p) in newTab
    {
    }

    lemma TriedSlotHolds(b: nat, p: nat)
      requires Rep() && b < TRIED_BUCKET_COUNT && p < BUCKET_SIZE
      ensures vvTried[b, p] == if Slot(b, p) in triedTab then triedTab[Slot(b, p)] else -1
      ensures vvTried[b, p] != -1 <==> Slot(b, p) in triedTab
    {
    }

    /** Empties a slot of the new table; forgets its holder when that was its last slot. */
    method ClearNew(b: nat, p: nat, ghost limbo: set<int>)
      requires Rep() && b < NEW_BUCKET_COUNT && p < BUCKET_SIZE
      requires Linked(K(), S(), limbo)
      modifies this`mapInfo, this`vRandom, this`mapAddr, this`nNew, this`newTab, vvNew
      ensures Rep()
      ensures Slot(b, p) in old(newTab) ==> old(newTab)[Slot(b, p)] in old(mapInfo)
      ensures S() == AddrState.ClearNew(old(S()), Slot(b, p))
    {
      hide Shows, Indexed, TriedPlaced, NewPlaced, Counted;
      ghost var s, sl := S(), Slot(b, p);
      ClearNewLinked(K(), s, sl, limbo);
      NewSlotHolds(b, p);
      if vvNew[b, p] != -1 {
        var id := vvNew[b, p];
        assert s.newTab[sl] == id;
        HolderFacts(K(), s, sl, limbo);
        assert mapInfo[id].nRefCount > 0;
        UpdateShuffled(s, id, Drop(s, sl).info[id]);
        mapInfo := mapInfo[id := mapInfo[id].(nRefCount := mapInfo[id].nRefCount - 1)];
        EmptySlot(b, p);
        if mapInfo[id].nRefCount == 0 {
          Delete(id);
        }
      }
    }

    method EmptySlot(b: nat, p: nat)
      requires Rep() && b < NEW_BUCKET_COUNT && p < BUCKET_SIZE
      modifies this`newTab, vvNew
      ensures Rep() && newTab == old(newTab) - {Slot(b, p)}
    {
      vvNew[b, p] := -1;
      newTab := newTab - {Slot(b, p)};
    }

    method FillSlot(b: nat, p: nat, id: int)
      requires Rep() && b < NEW_BUCKET_COUNT && p < BUCKET_SIZE && id != -1
      modifies this`newTab, vvNew
      ensures Rep() && newTab == old(newTab)[Slot(b, p) := id]
    {
      vvNew[b, p] := id;
      newTab := newTab[Slot(b, p) := id];
    }

    method SetTried(b: nat, p: nat, id: int)
      requires Rep() && b < TRIED_BUCKET_COUNT && p < BUCKET_SIZE
      modifies this`triedTab, vvTried
      ensures Rep() && triedTab == if id == -1 then old(triedTab) - {Slot(b, p)} else old(triedTab)[Slot(b, p) := id]
    {
      vvTried[b, p] := id;
      triedTab := if id == -1 then triedTab - {Slot(b, p)} else triedTab[Slot(b, p) := id];
    }

    /** The manager is `s` with `id` taken out of the buckets below `bucket`. */
    ghost predicate Stripped(s: State, id: int, bucket: nat)
      reads this
    {
      && id in s.info && id in mapInfo
      && mapInfo == s.info[id := s.info[id].(nRefCount := mapInfo[id].nRefCount)]
      && newTab == StripUpTo(s.newTab, id, bucket)
      && mapInfo[id].nRefCount == |SlotsOf(newTab, id)|
    }

    method StripBucket(id: int, service: Service, bucket: nat, ghost s: State)
      requires Rep() && NewPlaced(K(), s) && Stripped(s, id, bucket) && bucket < NEW_BUCKET_COUNT
      requires service == s.info[id].service && id >= 0
      modifies this`mapInfo, this`newTab, vvNew
      ensures Rep() && Stripped(s, id, bucket + 1)
    {
      hide NewPlaced, Shows, StripUpTo, SlotsOf, Holds;
      var pos := Keyed(hashes, nKey).Position(true, bucket, service);
      ghost var sl := Slot(bucket, pos);
      assert sl == K().NewSlot(service, bucket);
      StripNext(K(), s, id, bucket);
      StripHolds(s, id, bucket, sl);
      NewSlotHolds(bucket, pos);
      hide Keyed.Position, Keyed.NewSlot;
      if vvNew[bucket, pos] == id {
        SlotsWithout(newTab, sl, id);
        EmptySlot(bucket, pos);
        mapInfo := mapInfo[id := mapInfo[id].(nRefCount := mapInfo[id].nRefCount - 1)];
      }
    }

    /** The loop at the head of MakeTried: takes `id` out of every new bucket. */
    method StripNew(id: int)
      requires Rep() && NewPlaced(K(), S()) && id in mapInfo && id >= 0
      requires mapInfo[id].nRefCount == |SlotsOf(newTab, id)|
      modifies this`mapInfo, this`newTab, vvNew
      ensures Rep() && S() == Strip(old(S()), id).(nNew := nNew)
      ensures id in mapInfo && mapInfo[id].nRefCount == 0
    {
      hide Shows, NewPlaced, StripUpTo, SlotsOf;
      ghost var s := S();
      var service := mapInfo[id].service;
      StripStart(s, id);
      for bucket := 0 to NEW_BUCKET_COUNT
        invariant Rep() && Stripped(s, id, bucket)
      {
        StripBucket(id, service, bucket, s);
      }
      StripDone(K(), s, id);
    }

    /** Moves the holder of a tried slot, if there is one, to the new table. */
    method EvictSlot(b: nat, p: nat, ghost limbo: set<int>)
      requires Rep() && b < TRIED_BUCKET_COUNT && p < BUCKET_SIZE
      requires Linked(K(), S(), limbo)
      modifies this`mapInfo, this`vRandom, this`mapAddr, this`nNew, this`nTried, this`newTab, this`triedTab
      modifies vvNew, vvTried
      ensures Rep() && S() == Evict(K(), old(S()), Slot(b, p), limbo)
    {
      hide Shows, Indexed, TriedPlaced, NewPlaced, Counted;
      ghost var s, sl := S(), Slot(b, p);
      TriedSlotHolds(b, p);
      if vvTried[b, p] != -1 {
        var id := vvTried[b, p];
        TriedNotLimbo(K(), s, sl, limbo);
        assert id in mapInfo;
        UntryLinked(K(), s, sl, limbo);
        mapInfo := mapInfo[id := mapInfo[id].(fInTried := false)];
        SetTried(b, p, -1);
        nTried := nTried - 1;
        assert S() == Untry(s, sl);
        ReenterSlot(id, limbo + {id});
      }
    }

    /** Gives an entry that is in neither table its own new slot again. */
    method ReenterSlot(id: int, ghost limbo: set<int>)
      requires Rep() && Linked(K(), S(), limbo) && id in limbo && id in mapInfo
      modifies this`mapInfo, this`vRandom, this`mapAddr, this`nNew, this`newTab, vvNew
      ensures Rep() && S() == Reenter(K(), old(S()), id, limbo)
    {
      hide Shows, Indexed, TriedPlaced, NewPlaced, Counted, AddrState.Delete, SlotsOf, AddrState.Drop;
      ghost var s := S();
      var k := Keyed(hashes, nKey);
      var bucket := k.NewBucket(mapInfo[id].service, mapInfo[id].source);
      var pos := k.Position(true, bucket, mapInfo[id].service);
      ghost var home := Slot(bucket, pos);
      ClearNewLinked(k, s, home, limbo);
      ClearNewHolds(k, s, home, limbo, id);
      LimboFacts(k, s, limbo, id);
      ClearNew(bucket, pos, limbo);
      hide Linked, AddrState.ClearNew;
      NewSlotHolds(bucket, pos);
      assert vvNew[bucket, pos] == -1;
      mapInfo := mapInfo[id := mapInfo[id].(nRefCount := 1)];
      FillSlot(bucket, pos, id);
      nNew := nNew + 1;
    }

    method MakeTried(id: int)
      requires Rep() && Linked(K(), S(), {}) && id in mapInfo && !mapInfo[id].fInTried
      modifies this`mapInfo, this`vRandom, this`mapAddr, this`nNew, this`nTried, this`newTab, this`triedTab
      modifies vvNew, vvTried
      ensures Rep() && S() == AddrOps.MakeTried(K(), old(S()), id)
    {
      hide Shows, Indexed, Shuffled, TriedPlaced, NewPlaced, Counted, Evicted;
      ghost var s := S();
      var k := Keyed(hashes, nKey);
      var service := mapInfo[id].service;
      var bucket := hashes.tried(nKey, service) % TRIED_BUCKET_COUNT;
      var pos := k.Position(false, bucket, service);
      EntryFacts(k, s, {}, id);
      StripNew(id);
      nNew := nNew - 1;
      assert mapInfo[id].nRefCount == 0;
      StripLinked(k, s, id, {});
      ghost var u, sl := S(), Slot(bucket, pos);
      assert u == Strip(s, id) && {} + {id} == {id};
      hide Strip;
      EvictSlot(bucket, pos, {id});
      EvictLinked(k, u, sl, {id});
      EvictFrame(k, u, sl, {id});
      EvictedLimbo(k, u, S(), sl, {id}, id);
      hide Evict, Linked;
      PromoteTo(bucket, pos, id);
    }

    method PromoteTo(b: nat, p: nat, id: int)
      requires Rep() && b < TRIED_BUCKET_COUNT && p < BUCKET_SIZE && id in mapInfo && id >= 0
      requires Slot(b, p) !in triedTab
      modifies this`mapInfo, this`nTried, this`triedTab, vvTried
      ensures Rep() && S() == Promote(old(S()), id, Slot(b, p))
    {
      hide Shows;
      TriedSlotHolds(b, p);
      assert vvTried[b, p] == -1;
      SetTried(b, p, id);
      nTried := nTried + 1;
      mapInfo := mapInfo[id := mapInfo[id].(fInTried := true)];
    }

    /** Looks for a new bucket that holds `id`, starting at a random one. */
    method FindBucket(id: int, start: nat) returns (found: bool)
      requires Rep() && Linked(K(), S(), {}) && IsNew(S(), id)
      ensures found
    {
      hide Shows, Indexed, Shuffled, TriedPlaced, NewPlaced, Counted;
      var k := Keyed(hashes, nKey);
      ghost var where := NewEntrySomewhere(k, S(), id);
      EntryFacts(k, S(), {}, id);
      hide Linked;
      found := false;
      for n := 0 to NEW_BUCKET_COUNT
        invariant forall m {:trigger Around(m, start)} :: 0 <= m < n ==> Around(m, start) != where
      {
        var bucket := Around(n, start);
        var pos := k.Position(true, bucket, mapInfo[id].service);
        NewSlotHolds(bucket, pos);
        if vvNew[bucket, pos] == id {
          found := true;
          break;
        }
      }
      if !found {
        AroundCovers(where, start);
        assert false;
      }
    }

    method Good(a: Service, time: int, start: nat)
      requires Rep() && Structure(K(), S())
      modifies this`mapInfo, this`vRandom, this`mapAddr, this`nNew, this`nTried, this`newTab, this`triedTab
      modifies vvNew, vvTried
      ensures Rep() && S() == AddrRuns.Good(K(), old(S()), a, time) && Structure(K(), S())
    {
      hide Shows, Indexed, Shuffled, TriedPlaced, NewPlaced, Counted, Totalled;
      ghost var s := S();
      GoodKeeps(K(), s, a, time);
      if a.ip !in mapAddr || mapAddr[a.ip] !in mapInfo {
        return;
      }
      var id := mapAddr[a.ip];
      if mapInfo[id].service != a {
        return;
      }
      SetInfoKeeps(K(), s, id, Succeeded(s.info[id], time));
      mapInfo := mapInfo[id := mapInfo[id].(nLastSuccess := time, nLastTry := time, nAttempts := 0)];
      assert S() == SetInfo(s, id, Succeeded(s.info[id], time));
      if mapInfo[id].fInTried {
        return;
      }
      var found := FindBucket(id, start);
      if !found {
        return;
      }
      MakeTried(id);
    }

    method Attempt(a: Service, time: int)
      requires Rep() && Structure(K(), S())
      modifies this`mapInfo
      ensures Rep() && S() == AddrRuns.Attempt(old(S()), a, time) && Structure(K(), S())
    {
      hide Shows, Structure;
      ghost var s := S();
      AttemptKeeps(K(), s, a, time);
      if a.ip in mapAddr && mapAddr[a.ip] in mapInfo {
        var id := mapAddr[a.ip];
        if mapInfo[id].service == a {
          mapInfo := mapInfo[id := mapInfo[id].(nLastTry := time, nAttempts := mapInfo[id].nAttempts + 1)];
        }
      }
    }

    method Connected(a: Service, time: int)
      requires Rep() && Structure(K(), S())
      modifies this`mapInfo
      ensures Rep() && S() == AddrRuns.Connected(old(S()), a, time) && Structure(K(), S())
    {
      hide Shows, Structure;
      ghost var s := S();
      ConnectedKeeps(K(), s, a, time);
      if a.ip in mapAddr && mapAddr[a.ip] in mapInfo {
        var id := mapAddr[a.ip];
        if mapInfo[id].service == a && time - mapInfo[id].nTime > 20 * 60 {
          mapInfo := mapInfo[id := mapInfo[id].(nTime := Truncated(time))];
        }
      }
    }

    method Create(a: Address, source: NetAddr) returns (id: int)
      modifies this`mapInfo, this`mapAddr, this`vRandom, this`nIdCount
      ensures S() == AddrState.Create(old(S()), a, source) && id == old(nIdCount)
    {
      id := nIdCount;
      nIdCount := nIdCount + 1;
      mapInfo := mapInfo[id := AddrInfo(a.service, a.nServices, a.nTime, source, 0, 0, 0, 0, false, -1)];
      mapAddr := mapAddr[a.service.ip := id];
      mapInfo := mapInfo[id := mapInfo[id].(nRandomPos := |vRandom|)];
      vRandom := vRandom + [id];
    }

    /** The end of Add_: gives `id` the slot its source selects, if it may have it. */
    method Place(id: int, source: NetAddr, now: int)
      requires Rep() && IsNew(S(), id) && Linked(K(), S(), LimboOf(S(), id))
      modifies this`mapInfo, this`vRandom, this`mapAddr, this`nNew, this`newTab, vvNew
      ensures Rep() && S() == AddrRuns.Place(K(), old(S()), id, source, now)
    {
      hide Shows, Indexed, Shuffled, TriedPlaced, NewPlaced, Counted, AddrState.Delete;
      ghost var s, limbo := S(), LimboOf(S(), id);
      var k := Keyed(hashes, nKey);
      var bucket := k.NewBucket(mapInfo[id].service, source);
      var pos := k.Position(true, bucket, mapInfo[id].service);
      ghost var sl := Slot(bucket, pos);
      ClearNewLinked(k, s, sl, limbo);
      EntryFacts(k, s, limbo, id);
      NewSlotHolds(bucket, pos);
      if vvNew[bucket, pos] != id {
        var insert := vvNew[bucket, pos] == -1;
        if !insert {
          var existing := mapInfo[vvNew[bucket, pos]];
          if existing.IsTerrible(now) || (existing.nRefCount > 1 && mapInfo[id].nRefCount == 0) {
            insert := true;
          }
        }
        assert insert <==> Yields(s, sl, id, now);
        if insert {
          PlaceRoom(k, s, id, sl);
          ClearNew(bucket, pos, limbo);
          hide Linked, AddrState.ClearNew;
          mapInfo := mapInfo[id := mapInfo[id].(nRefCount := mapInfo[id].nRefCount + 1)];
          FillSlot(bucket, pos, id);
        } else if mapInfo[id].nRefCount == 0 {
          Delete(id);
        }
      }
    }

    method Add(a: Address, source: NetAddr, penalty: int, now: int, draw: nat) returns (fNew: bool)
      requires Rep() && Structure(K(), S())
      modifies this`mapInfo, this`vRandom, this`mapAddr, this`nNew, this`nIdCount, this`newTab, vvNew
      ensures Rep() && (S(), fNew) == AddrRuns.Add(K(), old(S()), a, source, penalty, now, draw)
      ensures Structure(K(), S())
    {
      hide Shows, Structure, Refreshed, Wanted, AddrRuns.Place, Admit, Linked;
      ghost var s, k := S(), K();
      AddKeeps(k, s, a, source, penalty, now, draw);
      if !hashes.routable(a.service.ip) {
        return false;
      }
      if a.service.ip in mapAddr && mapAddr[a.service.ip] in mapInfo {
        var id := mapAddr[a.service.ip];
        RefreshReady(k, s, id, a, penalty, now, draw);
        fNew := false;
        var wanted := Refresh(id, a, penalty, now, draw);
        if wanted {
          Place(id, source, now);
        }
      } else {
        Unfound(s, a.service.ip);
        AdmitKeeps(k, s, a, source, penalty);
        fNew := true;
        var id := AdmitNew(a, source, penalty);
        Place(id, source, now);
      }
    }

    /** A new entry, not yet in the new table. */
    method AdmitNew(a: Address, source: NetAddr, penalty: int) returns (id: int)
      modifies this`mapInfo, this`mapAddr, this`vRandom, this`nNew, this`nIdCount
      ensures S() == Admit(old(S()), a, source, penalty) && id == old(nIdCount)
    {
      id := Create(a, source);
      mapInfo := mapInfo[id := mapInfo[id].(nTime := Truncated(Max(0, mapInfo[id].nTime - penalty)))];
      nNew := nNew + 1;
    }

    lemma Unfound(s: State, ip: NetAddr)
      requires Structure(K(), s) && !(ip in s.addr && s.addr[ip] in s.info)
      ensures ip !in s.addr
    {
    }

    /** A known address seen again; returns whether it should get one more slot. */
    method Refresh(id: int, a: Address, penalty: int, now: int, draw: nat) returns (wanted: bool)
      requires id in mapInfo && 0 <= mapInfo[id].nRefCount
      modifies this`mapInfo
      ensures mapInfo == old(mapInfo)[id := Refreshed(old(mapInfo)[id], a, penalty, now)]
      ensures wanted <==> Wanted(mapInfo[id], a, draw)
    {
      hide LuckyDraw;
      var e := mapInfo[id];
      var online := now - a.nTime < 24 * 60 * 60;
      var interval := if online then 60 * 60 else 24 * 60 * 60;
      if a.nTime != 0 && (e.nTime == 0 || e.nTime < a.nTime - interval - penalty) {
        e := e.(nTime := Truncated(Max(0, a.nTime - penalty)));
      }
      e := e.(nServices := e.nServices + a.nServices);
      mapInfo := mapInfo[id := e];
      if a.nTime == 0 || (e.nTime != 0 && a.nTime <= e.nTime) {
        return false;
      }
      if e.fInTried {
        return false;
      }
      if e.nRefCount == NEW_BUCKETS_PER_ADDRESS {
        return false;
      }
      wanted := Lucky(e.nRefCount, draw);
    }

    method Lucky(count: nat, draw: nat) returns (yes: bool)
      ensures yes <==> LuckyDraw(count, draw)
    {
      var factor := 1;
      for n := 0 to count
        invariant factor == Pow2(n)
      {
        factor := factor * 2;
      }
      yes := !(factor > 1 && draw % factor != 0);
    }

    /** Some of the known addresses that are not terrible, chosen by the draws. */
    method GetAddr(draws: nat -> nat, now: int) returns (answer: seq<Address>)
      requires Rep() && Structure(K(), S())
      modifies this`mapInfo, this`vRandom
      ensures Rep() && (S(), answer) == AddrRuns.GetAddr(old(S()), draws, now)
      ensures Structure(K(), S())
    {
      hide Shows, Linked, Totalled, Listed, AllListed, Scanned;
      ghost var s := S();
      assert Shuffled(s) by { RandomShuffled(K(), s); }
      var limit := GETADDR_MAX_PCT * |vRandom| / 100;
      if limit > GETADDR_MAX {
        limit := GETADDR_MAX;
      }
      ghost var ids;
      answer, ids := ScanFrom(limit, draws, now);
      assert Structure(K(), AddrRuns.GetAddr(s, draws, now).0) by {
        GetAddrOutcome(K(), s, draws, now);
      }
      hide AddrRuns.GetAddr, Scan, Answers, Structure, Shuffled;
      AnswersDone(s, S(), ids, answer, draws, now);
    }

    lemma RandomShuffled(k: Keyed, s: State)
      requires Structure(k, s)
      ensures Shuffled(s)
    {
    }

    method ScanFrom(limit: nat, draws: nat -> nat, now: int) returns (answer: seq<Address>, ghost ids: seq<int>)
      requires Shuffled(S())
      modifies this`mapInfo, this`vRandom
      ensures Scan(old(S()), 0, [], limit, draws, now) == (S(), ids) && Answers(S(), ids, answer)
    {
      hide Scan, Swap, Shuffled, Answers;
      ghost var goal := Scan(S(), 0, [], limit, draws, now);
      ids := [];
      answer := [];
      NoAnswers(S());
      for n := 0 to |vRandom|
        invariant |vRandom| == |old(vRandom)| && Shuffled(S()) && Answers(S(), ids, answer)
        invariant Scan(S(), n, ids, limit, draws, now) == goal
      {
        AnswersSize(S(), ids, answer);
        if |answer| >= limit {
          ScanEnd(S(), n, ids, limit, draws, now);
          return;
        }
        var j := DrawFrom(n, |vRandom|, draws(n));
        ghost var t := S();
        SwapShuffled(t, n, j);
        ScanNext(t, n, ids, limit, draws, now);
        SwapRandom(n, j);
        AnswersSwapped(t, n, j, ids, answer);
        InRandom(S(), n);
        SwapSize(t, n, j);
        var id := vRandom[n];
        if !mapInfo[id].IsTerrible(now) {
          AnswersMore(S(), ids, answer, id);
          answer := answer + [CAddress(mapInfo[id])];
          ids := ids + [id];
        }
      }
      ScanEnd(S(), |vRandom|, ids, limit, draws, now);
    }

    lemma ScanEnd(s: State, n: nat, found: seq<int>, limit: nat, draws: nat -> nat, now: int)
      requires Shuffled(s) && n <= |s.random| && (n == |s.random| || |found| >= limit)
      ensures Scan(s, n, found, limit, draws, now) == (s, found)
    {
    }

    lemma ScanNext(s: State, n: nat, found: seq<int>, limit: nat, draws: nat -> nat, now: int)
      requires Shuffled(s) && n < |s.random| && |found| < limit
      ensures var t := Swap(s, n, DrawFrom(n, |s.random|, draws(n)));
              && Shuffled(t) && |t.random| == |s.random| && t.random[n] in t.info
              && Scan(s, n, found, limit, draws, now)
              == Scan(t, n + 1, if t.info[t.random[n]].IsTerrible(now) then found else found + [t.random[n]],
                      limit, draws, now)
    {
      SwapShuffled(s, n, DrawFrom(n, |s.random|, draws(n)));
      SwapSize(s, n, DrawFrom(n, |s.random|, draws(n)));
    }

    lemma NoAnswers(s: State)
      ensures Answers(s, [], [])
    {
    }

    lemma AnswersSize(s: State, ids: seq<int>, answer: seq<Address>)
      requires Answers(s, ids, answer)
      ensures |answer| == |ids|
    {
    }

    lemma AnswersMore(s: State, ids: seq<int>, answer: seq<Address>, id: int)
      requires Answers(s, ids, answer) && id in s.info
      ensures Answers(s, ids + [id], answer + [CAddress(s.info[id])])
    {
    }

    lemma SwapSize(s: State, i: nat, j: nat)
      requires Shuffled(s) && i < |s.random| && j < |s.random|
      ensures |Swap(s, i, j).random| == |s.random|
    {
    }

    lemma AnswersDone(s: State, t: State, ids: seq<int>, answer: seq<Address>, draws: nat -> nat, now: int)
      requires Shuffled(s) && Scan(s, 0, [], GetAddrLimit(s), draws, now) == (t, ids) && Answers(t, ids, answer)
      ensures AddrRuns.GetAddr(s, draws, now) == (t, answer)
    {
      assert AddrRuns.GetAddr(s, draws, now).1 == answer;
    }

    lemma InRandom(s: State, n: nat)
      requires Shuffled(s) && n < |s.random|
      ensures s.random[n] in s.info
    {
    }

    /** `answer` gives the addresses of entries `ids`. */
    ghost predicate Answers(s: State, ids: seq<int>, answer: seq<Address>) {
      |answer| == |ids| &&
      forall i :: 0 <= i < |ids| ==> var id := ids[i]; id in s.info && answer[i] == CAddress(s.info[id])
    }

    lemma AnswersSwapped(s: State, n: nat, j: nat, ids: seq<int>, answer: seq<Address>)
      requires Shuffled(s) && n < |s.random| && j < |s.random| && Answers(s, ids, answer)
      ensures Answers(Swap(s, n, j), ids, answer)
    {
      SwapReorders(s, n, j);
      hide Swap;
    }

    /** The tests of one entry, with the code's error numbers. A missing key is looked up like
        any other, which puts it in. */
    method CheckEntry(n: int) returns (err: int)
      requires n in mapInfo
      modifies this`mapAddr
      ensures err == 0 <==> old(EntryOk(S(), n))
      ensures mapAddr == old(mapAddr) || mapAddr == LookedUp(old(mapAddr), mapInfo[n].service.ip)
      ensures err == 0 ==> mapAddr == LookedUp(old(mapAddr), mapInfo[n].service.ip)
    {
      var info := mapInfo[n];
      if info.fInTried {
        if info.nLastSuccess == 0 { return -1; }
        if info.nRefCount != 0 { return -2; }
      } else {
        if info.nRefCount < 0 || info.nRefCount > NEW_BUCKETS_PER_ADDRESS { return -3; }
        if info.nRefCount == 0 { return -4; }
      }
      mapAddr := LookedUp(mapAddr, info.service.ip);
      if mapAddr[info.service.ip] != n { return -5; }
      if info.nRandomPos < 0 || info.nRandomPos >= |vRandom| || vRandom[info.nRandomPos] != n { return -14; }
      if info.nLastTry < 0 { return -6; }
      if info.nLastSuccess < 0 { return -8; }
      return 0;
    }

    /** Tests every entry, in the order of their ids; collects the tried ids, and the reference
        counts of the others. */
    method CheckEntries() returns (err: int, setTried: set<int>, mapNew: map<int, int>)
      modifies this`mapAddr
      ensures Filled(old(S()), mapAddr)
      ensures err == 0 <==> forall id :: id in mapInfo ==> EntryOk(old(S()), id)
      ensures err == 0 ==> S() == Repaired(old(S())) && setTried == TriedIds(S()) && mapNew.Keys == NewIds(S())
      ensures err == 0 ==> forall id :: id in mapNew ==> id in mapInfo && mapNew[id] == mapInfo[id].nRefCount
    {
      ghost var s := S();
      DoneEnds(s);
      hide EntryOk, TriedDone, NewDone, TriedIds, NewIds, Filled, LookedUp;
      FilledStart(s);
      setTried, mapNew := {}, map[];
      var todo := mapInfo.Keys;
      while todo != {}
        invariant todo <= mapInfo.Keys && Filled(s, mapAddr)
        invariant forall id :: id in mapInfo && id !in todo ==> EntryOk(s, id)
        invariant mapAddr == if 0 in todo then s.addr else Repaired(s).addr
        invariant setTried == TriedDone(s, todo) && mapNew.Keys == NewDone(s, todo)
        invariant forall id :: id in mapNew ==> id in mapInfo && mapNew[id] == mapInfo[id].nRefCount
      {
        ghost var first := Smallest(todo);
        var n :| n in todo && forall m :: m in todo ==> n <= m;
        DoneNext(s, todo, n);
        FilledMore(s, mapAddr, n);
        err := CheckEntry(n);
        if err != 0 {
          return;
        }
        todo := todo - {n};
        if mapInfo[n].fInTried {
          setTried := setTried + {n};
        } else {
          KeysMore(mapNew, n, mapInfo[n].nRefCount);
          mapNew := mapNew[n := mapInfo[n].nRefCount];
        }
      }
      RepairedSets(s);
      err := 0;
    }

    method CheckTriedBucket(n: nat, seen: set<int>) returns (err: int, left: set<int>)
      requires Rep() && n < TRIED_BUCKET_COUNT && TriedScan(K(), S(), seen, n, 0)
      ensures err == 0 ==> TriedScan(K(), S(), left, n + 1, 0)
      ensures err != 0 ==> !AllOk(K(), S())
    {
      hide Shows, TriedScan, NewOk, EntryOk, TriedHome, Totalled;
      var k := Keyed(hashes, nKey);
      left := seen;
      for i := 0 to BUCKET_SIZE
        invariant TriedScan(k, S(), left, n, i)
      {
        TriedSlotHolds(n, i);
        TriedScanNext(k, S(), left, n, i);
        var id := vvTried[n, i];
        if id != -1 {
          if id !in left {
            return -11, left;
          }
          LeftTried(k, S(), left, n, i, id);
          if hashes.tried(nKey, mapInfo[id].service) % TRIED_BUCKET_COUNT != n {
            assert !TriedOk(k, S(), Slot(n, i));
            return -17, left;
          }
          if k.Position(false, n, mapInfo[id].service) != i {
            assert !TriedOk(k, S(), Slot(n, i));
            return -18, left;
          }
          left := left - {id};
        }
      }
      TriedInRange();
      TriedScanRow(k, S(), left, n);
      err := 0;
    }

    lemma KeysMore(m: map<int, int>, n: int, v: int)
      ensures m[n := v].Keys == m.Keys + {n}
    {
    }

    lemma TriedInRange()
      requires Rep()
      ensures forall sl :: sl in triedTab ==> sl.bucket < TRIED_BUCKET_COUNT && sl.pos < BUCKET_SIZE
      ensures forall sl :: sl in newTab ==> sl.bucket < NEW_BUCKET_COUNT && sl.pos < BUCKET_SIZE
    {
    }

    method CheckNewBucket(n: nat, seen: map<int, int>) returns (err: int, left: map<int, int>)
      requires Rep() && n < NEW_BUCKET_COUNT && NewScan(K(), S(), seen, n, 0)
      ensures err == 0 ==> NewScan(K(), S(), left, n + 1, 0)
      ensures err != 0 ==> !AllOk(K(), S())
    {
      hide Shows, NewScan, TriedOk, EntryOk, TriedHome, Totalled;
      var k := Keyed(hashes, nKey);
      left := seen;
      for i := 0 to BUCKET_SIZE
        invariant NewScan(k, S(), left, n, i)
      {
        NewSlotHolds(n, i);
        var id := vvNew[n, i];
        if id == -1 {
          NewScanEmpty(k, S(), left, n, i);
        } else {
          if id !in left {
            NewScanStuck(k, S(), left, n, i);
            return -12, left;
          }
          LeftNew(k, S(), left, n, i, id);
          if k.Position(true, n, mapInfo[id].service) != i {
            assert !NewOk(k, S(), Slot(n, i));
            return -19, left;
          }
          NewScanNext(k, S(), left, n, i);
          left := TakeOne(left, id);
        }
      }
      TriedInRange();
      NewScanRow(k, S(), left, n);
      err := 0;
    }

    method CheckTriedTable(seen: set<int>) returns (err: int, left: set<int>)
      requires Rep() && TriedScan(K(), S(), seen, 0, 0)
      ensures err == 0 ==> TriedScan(K(), S(), left, TRIED_BUCKET_COUNT, 0)
      ensures err != 0 ==> !AllOk(K(), S())
    {
      hide Rep, TriedScan, AllOk;
      err, left := 0, seen;
      for n := 0 to TRIED_BUCKET_COUNT
        invariant TriedScan(K(), S(), left, n, 0) && err == 0
      {
        err, left := CheckTriedBucket(n, left);
        if err != 0 {
          return;
        }
      }
    }

    method CheckNewTable(seen: map<int, int>) returns (err: int, left: map<int, int>)
      requires Rep() && NewScan(K(), S(), seen, 0, 0)
      ensures err == 0 ==> NewScan(K(), S(), left, NEW_BUCKET_COUNT, 0)
      ensures err != 0 ==> !AllOk(K(), S())
    {
      hide Rep, NewScan, AllOk;
      err, left := 0, seen;
      for n := 0 to NEW_BUCKET_COUNT
        invariant NewScan(K(), S(), left, n, 0) && err == 0
      {
        err, left := CheckNewBucket(n, left);
        if err != 0 {
          return;
        }
      }
    }

    /** The consistency check answers 0 exactly when all its tests hold; if what it does not look
        at is in order, exactly when it leaves a consistent manager. It only puts missing keys of
        entries into `mapAddr`. */
    method Check() returns (err: int)
      requires Rep()
      modifies this`mapAddr
      ensures Rep() && Filled(old(S()), mapAddr)
      ensures err == 0 <==> AllOk(K(), old(S())) && nKey != 0
      ensures err == 0 ==> S() == Repaired(old(S()))
      ensures Tidy(old(S())) ==> (err == 0 <==> Inv(K(), Repaired(old(S()))) && nKey != 0)
    {
      ghost var k, s := K(), S();
      ChecksDecide(k, s);
      RepairedOk(k, s);
      RepairedEntries(s);
      hide Shows, Inv, TriedOk, NewOk, TriedHome, EntryOk, TriedScan, NewScan, TriedIds, NewIds;
      hide Filled, Repaired, TablesOk, Tidy;
      FilledStart(s);
      if |vRandom| != nTried + nNew {
        return -7;
      }
      var setTried, mapNew;
      err, setTried, mapNew := CheckEntries();
      if err != 0 {
        return;
      }
      if |setTried| != nTried {
        return -9;
      }
      if |mapNew.Keys| != nNew {
        return -10;
      }
      TriedScanStart(k, S());
      EntriesCounted(S(), mapNew);
      NewScanStart(k, S(), mapNew);
      err := CheckTables(setTried, mapNew);
      if err != 0 {
        return;
      }
      if nKey == 0 {
        return -16;
      }
      return 0;
    }

    /** Both tables are gone through; what is not met there is left over. */
    method CheckTables(tried: set<int>, news: map<int, int>) returns (err: int)
      requires Rep() && TriedScan(K(), S(), tried, 0, 0) && NewScan(K(), S(), news, 0, 0)
      ensures err == 0 ==> TablesOk(K(), S())
      ensures err != 0 ==> !AllOk(K(), S())
    {
      ghost var k, s := K(), S();
      TriedInRange();
      hide Rep, TriedScan, NewScan, TablesOk, EntryOk, Totalled;
      var setTried, mapNew := tried, news;
      err, setTried := CheckTriedTable(setTried);
      if err != 0 {
        return;
      }
      err, mapNew := CheckNewTable(mapNew);
      if err != 0 {
        return;
      }
      ScansDecide(k, s, setTried, mapNew);
      if |setTried| != 0 {
        return -13;
      }
      if |mapNew.Keys| != 0 {
        return -15;
      }
      return 0;
    }

    // ------------------------------------------------------------ saving and loading

    /** Empties the tables. The indexes of the entries are not touched, so an object that has
        been used cannot be loaded into. */
    method Clear(key: nat)
      requires Rep()
      modifies this`nKey, this`vRandom, this`triedTab, this`newTab, this`nIdCount, this`nTried, this`nNew
      modifies vvTried, vvNew
      ensures Rep() && nKey == key
      ensures S() == Emptied(old(S()))
    {
      vRandom := [];
      nKey := key;
      ClearTables();
      nIdCount, nTried, nNew := 0, 0, 0;
    }

    method ClearTables()
      requires Rep()
      modifies this`triedTab, this`newTab, vvTried, vvNew
      ensures Rep() && triedTab == map[] && newTab == map[]
    {
      forall b, p | 0 <= b < NEW_BUCKET_COUNT && 0 <= p < BUCKET_SIZE {
        vvNew[b, p] := -1;
      }
      forall b, p | 0 <= b < TRIED_BUCKET_COUNT && 0 <= p < BUCKET_SIZE {
        vvTried[b, p] := -1;
      }
      newTab, triedTab := map[], map[];
    }

    /** The records of the new entries, or of the tried ones, with the assertion that the
        counter is not exceeded, and the number of new entries before each id. */
    method WriteRecords(fTried: bool) returns (recs: seq<Record>, mapUnkIds: map<int, nat>)
      requires Structure(K(), S())
      ensures recs == Records(S(), IdsBelow(S(), nIdCount, fTried))
      ensures !fTried ==> forall id :: id in mapInfo ==> id in mapUnkIds && id >= 0 && mapUnkIds[id] == Rank(S(), id)
    {
      hide Structure, Rank;
      CountsWritten(K(), S());
      IdsInRange(K(), S());
      recs, mapUnkIds := [], map[];
      var nIds := 0;
      for id := 0 to nIdCount
        invariant nIds == |recs| && recs == Records(S(), IdsBelow(S(), id, fTried))
        invariant !fTried ==> forall x :: x in mapInfo && x < id ==> x in mapUnkIds && mapUnkIds[x] == Rank(S(), x)
      {
        IdsGrow(S(), id, nIdCount, fTried);
        RecordsNext(S(), id, fTried);
        if id in mapInfo {
          mapUnkIds := mapUnkIds[id := nIds];
          RankIs(S(), id);
          if (if fTried then mapInfo[id].fInTried else mapInfo[id].nRefCount != 0) {
            assert nIds != if fTried then nTried else nNew;
            recs := recs + [RecordOf(mapInfo[id])];
            nIds := nIds + 1;
          }
        }
      }
    }

    method WriteBucket(bucket: nat, mapUnkIds: map<int, nat>) returns (idxs: seq<int>)
      requires Rep() && Structure(K(), S()) && bucket < NEW_BUCKET_COUNT
      requires forall id :: id in mapInfo ==> id in mapUnkIds && id >= 0 && mapUnkIds[id] == Rank(S(), id)
      ensures idxs == BucketIndices(S(), bucket, BUCKET_SIZE)
    {
      hide Shows, Structure, Rank;
      idxs := [];
      for i := 0 to BUCKET_SIZE
        invariant idxs == BucketIndices(S(), bucket, i)
      {
        NewSlotHolds(bucket, i);
        if vvNew[bucket, i] != -1 {
          HolderKnown(K(), S(), Slot(bucket, i));
          idxs := idxs + [mapUnkIds[vvNew[bucket, i]]];
        }
      }
    }

    method WriteTable(mapUnkIds: map<int, nat>) returns (s: seq<Token>)
      requires Rep() && Structure(K(), S())
      requires forall id :: id in mapInfo ==> id in mapUnkIds && id >= 0 && mapUnkIds[id] == Rank(S(), id)
      ensures s == BucketTokens(AllBuckets(S(), NEW_BUCKET_COUNT))
    {
      hide Rep, Structure, Rank, BucketIndices, BucketTokens, AllBuckets;
      s := [];
      NoBuckets(S());
      for bucket := 0 to NEW_BUCKET_COUNT
        invariant s == BucketTokens(AllBuckets(S(), bucket))
      {
        var idxs := WriteBucket(bucket, mapUnkIds);
        BucketsNext(S(), bucket);
        s := s + ([Num(|idxs|)] + NumTokens(idxs));
      }
    }

    method Serialize() returns (s: seq<Token>)
      requires Rep() && Structure(K(), S())
      ensures nIdCount >= 0 && s == Tokens(nKey, Save(S()))
    {
      hide Rep, Structure, BucketIndices, IdsBelow, Rank, Flip, Save, Tokens, AllBuckets, Records;
      IdsInRange(K(), S());
      TokensOf(nKey, S());
      s := [Num(VERSION), Num(KEY_SIZE), Num(nKey), Num(nNew), Num(nTried), Num(Flip(NEW_BUCKET_COUNT))];
      var news, mapUnkIds := WriteRecords(false);
      s := s + RecTokens(news);
      var trieds, _ := WriteRecords(true);
      s := s + RecTokens(trieds);
      var table := WriteTable(mapUnkIds);
      s := s + table;
    }

    /** The state `t` that is being built, but for the counters, which are read in advance. */
    ghost predicate Building(t: State)
      reads this
    {
      S() == t.(nNew := nNew, nTried := nTried, idCount := nIdCount)
    }

    method TakeEntry(n: nat, r: Record, ghost t: State)
      requires Building(t) && t.idCount == n
      modifies this`mapInfo, this`mapAddr, this`vRandom
      ensures Building(AddrFile.Take(t, r)) && n in mapInfo && mapInfo == AddrFile.Take(t, r).info
    {
      var info := AddrInfo(r.service, r.nServices, r.nTime, r.source, 0, r.nLastSuccess, r.nAttempts, 0, false,
                           |vRandom|);
      ghost var u := AddrFile.Take(t, r);
      mapInfo := mapInfo[n := info];
      mapAddr := mapAddr[r.service.ip := n];
      vRandom := vRandom + [n];
      assert mapInfo == u.info;
    }

    method LoadNewEntry(n: nat, r: Record, fPlace: bool, ghost t: State)
      requires Rep() && Building(t) && t.idCount == n
      modifies this`mapInfo, this`mapAddr, this`vRandom, this`newTab, vvNew
      ensures Rep() && Building(LoadNew(K(), t, r, fPlace))
      ensures n in mapInfo && forall id :: id in t.info ==> id in mapInfo
    {
      hide Shows, AddrFile.Take;
      TakeEntry(n, r, t);
      TakeTables(t, r);
      if fPlace {
        var k := Keyed(hashes, nKey);
        var b := k.NewBucket(r.service, r.source);
        var p := k.Position(true, b, r.service);
        NewSlotHolds(b, p);
        if vvNew[b, p] == -1 {
          FillSlot(b, p, n);
          mapInfo := mapInfo[n := mapInfo[n].(nRefCount := mapInfo[n].nRefCount + 1)];
        }
      }
    }

    method LoadTriedEntry(r: Record, ghost t: State) returns (fLost: bool)
      requires Rep() && Building(t) && t.idCount == nIdCount >= 0
      modifies this`mapInfo, this`mapAddr, this`vRandom, this`triedTab, this`nIdCount, vvTried
      ensures Rep() && Building(LoadTried(K(), t, r)) && LoadTried(K(), t, r).idCount == nIdCount >= 0
      ensures fLost <==> K().TriedSlot(r.service) in t.triedTab
      ensures forall id :: id in t.info ==> id in mapInfo
    {
      hide Shows, AddrFile.Take;
      var k := Keyed(hashes, nKey);
      var b := hashes.tried(nKey, r.service) % TRIED_BUCKET_COUNT;
      var p := k.Position(false, b, r.service);
      TriedSlotHolds(b, p);
      fLost := vvTried[b, p] != -1;
      if !fLost {
        var n := nIdCount;
        TakeTables(t, r);
        TakeEntry(n, r, t);
        mapInfo := mapInfo[n := mapInfo[n].(fInTried := true)];
        SetTried(b, p, n);
        nIdCount := nIdCount + 1;
      }
    }

    method LoadBucketIndex(bucket: nat, idx: int, fUse: bool, ghost t: State)
      requires Rep() && Building(t) && (fUse ==> bucket < NEW_BUCKET_COUNT)
      requires forall id :: 0 <= id < nNew ==> id in t.info
      modifies this`mapInfo, this`newTab, vvNew
      ensures Rep() && Building(LoadIndex(K(), t, nNew, bucket, idx, fUse))
      ensures forall id :: id in t.info ==> id in mapInfo
    {
      hide Shows;
      if 0 <= idx < nNew {
        var p := Keyed(hashes, nKey).Position(true, bucket, mapInfo[idx].service);
        if fUse {
          NewSlotHolds(bucket, p);
          if vvNew[bucket, p] == -1 && mapInfo[idx].nRefCount < NEW_BUCKETS_PER_ADDRESS {
            mapInfo := mapInfo[idx := mapInfo[idx].(nRefCount := mapInfo[idx].nRefCount + 1)];
            FillSlot(bucket, p, idx);
          }
        }
      }
    }

    method LoadBucketIndices(bucket: nat, idxs: seq<int>, fUse: bool, ghost t: State)
      requires Rep() && Building(t) && (fUse ==> bucket < NEW_BUCKET_COUNT)
      requires forall id :: 0 <= id < nNew ==> id in t.info
      modifies this`mapInfo, this`newTab, vvNew
      ensures Rep() && Building(LoadBucket(K(), t, nNew, bucket, idxs, fUse))
      ensures forall id :: 0 <= id < nNew ==> id in mapInfo
    {
      hide Rep, LoadIndex;
      ghost var u := t;
      for n := 0 to |idxs|
        invariant Rep() && Building(u) && u == LoadBucket(K(), t, nNew, bucket, idxs[..n], fUse)
        invariant forall id :: 0 <= id < nNew ==> id in u.info
      {
        assert idxs[..n + 1][..n] == idxs[..n];
        LoadBucketIndex(bucket, idxs[n], fUse, u);
        u := LoadIndex(K(), u, nNew, bucket, idxs[n], fUse);
      }
      assert idxs[..|idxs|] == idxs;
    }

    /** Entries that are in neither table are deleted. */
    method PruneAll(ghost t: State)
      requires S() == t && Placed(K(), t, LooseIds(t)) && nIdCount >= 0
      modifies this`mapInfo, this`vRandom, this`mapAddr, this`nNew
      ensures S() == Prune(K(), t, t.idCount)
    {
      hide Placed;
      for id := 0 to nIdCount
        invariant S() == Prune(K(), t, id)
      {
        PrunePlaced(K(), t, id);
        PlacedShuffled(K(), S(), LooseIds(S()));
        if id in mapInfo && !mapInfo[id].fInTried && mapInfo[id].nRefCount == 0 {
          Delete(id);
        }
      }
    }

    method BuildNews(f: File) returns (ghost t: State)
      requires Rep() && Building(EMPTY) && nIdCount == 0 && nNew == f.nNew == |f.news|
      modifies this`mapInfo, this`mapAddr, this`vRandom, this`newTab, vvNew
      ensures Rep() && Building(t) && t == LoadNews(K(), f.news, !Usable(f)) && t.idCount == nNew
      ensures t.nNew == nNew && t.nTried == 0 && forall id :: 0 <= id < nNew ==> id in mapInfo
    {
      hide LoadNew, Rep, Usable;
      var fPlace := !Usable(f);
      t := EMPTY;
      for n := 0 to |f.news|
        invariant Rep() && Building(t) && t == LoadNews(K(), f.news[..n], fPlace)
        invariant t.idCount == t.nNew == n && t.nTried == 0
        invariant forall id :: 0 <= id < n ==> id in mapInfo
      {
        NewsStep(K(), f.news, n, fPlace);
        CountsStep(K(), t, f.news[n], fPlace);
        LoadNewEntry(n, f.news[n], fPlace, t);
        t := LoadNew(K(), t, f.news[n], fPlace);
      }
      assert f.news[..|f.news|] == f.news;
    }

    method BuildTrieds(recs: seq<Record>, ghost s: State) returns (nLost: nat, ghost t: State)
      requires Rep() && Building(s) && s.idCount == nIdCount >= 0
      modifies this`mapInfo, this`mapAddr, this`vRandom, this`triedTab, this`nIdCount, vvTried
      ensures Rep() && Building(t) && t == LoadTrieds(K(), s, recs) && t.idCount == nIdCount >= 0
      ensures t.nNew == s.nNew && t.nTried == s.nTried + |recs| - nLost
      ensures forall id :: id in old(mapInfo) ==> id in mapInfo
    {
      hide LoadTried, Rep;
      nLost, t := 0, s;
      for n := 0 to |recs|
        invariant Rep() && Building(t) && t == LoadTrieds(K(), s, recs[..n]) && t.idCount == nIdCount >= 0
        invariant t.nNew == s.nNew && t.nTried == s.nTried + n - nLost
        invariant forall id :: id in old(mapInfo) ==> id in mapInfo
      {
        TriedsStep(K(), s, recs, n);
        CountsStep(K(), t, recs[n], false);
        var fLost := LoadTriedEntry(recs[n], t);
        t := LoadTried(K(), t, recs[n]);
        if fLost { nLost := nLost + 1; }
      }
      assert recs[..|recs|] == recs;
    }

    method BuildBuckets(buckets: seq<seq<int>>, fUse: bool, ghost s: State) returns (ghost t: State)
      requires Rep() && Building(s) && (fUse ==> |buckets| <= NEW_BUCKET_COUNT)
      requires forall id :: 0 <= id < nNew ==> id in mapInfo
      modifies this`mapInfo, this`newTab, vvNew
      ensures Rep() && Building(t) && t == LoadBuckets(K(), s, nNew, buckets, fUse)
      ensures t.nNew == s.nNew && t.nTried == s.nTried && t.idCount == s.idCount
    {
      hide LoadBucket, Rep;
      t := s;
      for n := 0 to |buckets|
        invariant Rep() && Building(t) && t == LoadBuckets(K(), s, nNew, buckets[..n], fUse)
        invariant t.nNew == s.nNew && t.nTried == s.nTried && t.idCount == s.idCount
        invariant forall id :: 0 <= id < nNew ==> id in mapInfo
      {
        BucketsStep(K(), s, nNew, buckets, n, fUse);
        BucketCounts(K(), t, nNew, n, buckets[n], fUse);
        LoadBucketIndices(n, buckets[n], fUse, t);
        t := LoadBucket(K(), t, nNew, n, buckets[n], fUse);
      }
      assert buckets[..|buckets|] == buckets;
    }

    /** Builds the tables and indexes from what was read. */
    method Build(key: nat, f: File)
      requires Rep() && S() == EMPTY && Counts(f)
      modifies this, vvTried, vvNew
      ensures Rep() && nKey == key && S() == Load(K(), f)
    {
      hide Shows, LoadNews, LoadTrieds, LoadBuckets, Counts, Placed, Loaded, Usable, Prune, LooseIds, IsLoose;
      nKey, nNew, nTried := key, f.nNew, f.nTried;
      CountsAre(f);
      ghost var t := BuildNews(f);
      nIdCount := nNew;
      var nLost;
      nLost, t := BuildTrieds(f.trieds, t);
      nTried := nTried - nLost;
      t := BuildBuckets(f.buckets, Usable(f), t);
      LoadPlaced(K(), f);
      assert t == Unpruned(K(), f);
      LoadedPlaced(K(), t);
      PruneAll(t);
    }

    /** Loading. The code reads and builds at the same time; the stream is read in the same
        order here, and what was read is then built from. */
    method Unserialize(s: seq<Token>) returns (ok: bool)
      requires Rep() && mapInfo == map[] && mapAddr == map[]
      requires Parse(s).Some? ==> Parse(s).value.1.nNew >= 0 && Parse(s).value.1.nTried >= 0
      modifies this, vvTried, vvNew
      ensures ok <==> Parse(s).Some?
      ensures Rep()
      ensures ok ==>
        var (key, f) := Parse(s).value;
        && nKey == key && Counts(f) && S() == Load(K(), f)
        && Placed(K(), S(), {}) && Totalled(S(), 0) && (Structure(K(), S()) <==> Unshared(Unpruned(K(), f)))
    {
      hide Load, Counts, Unpruned, Unshared, Structure, Placed, Totalled;
      Clear(nKey);
      var parsed := ReadFile(s);
      match parsed
      case None => ok := false;
      case Some((key, f)) =>
        ParseCounts(s);
        Build(key, f);
        LoadKeeps(K(), f);
        ok := true;
    }
  }

  /** Bucket number `n` when counting from `start`, around the table. */
  function Around(n: nat, start: nat): nat {
    (n + start) % NEW_BUCKET_COUNT
  }

  lemma AroundCovers(bucket: nat, start: nat)
    requires bucket < NEW_BUCKET_COUNT
    ensures exists m :: 0 <= m < NEW_BUCKET_COUNT && Around(m, start) == bucket
  {
    var m := (bucket - start) % NEW_BUCKET_COUNT;
    assert Around(m, start) == bucket;
  }
}

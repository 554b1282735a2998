/** What adding an unknown address to the manager comes to. */
module AddrOutcome {
  import opened AddrLemmas
  import opened AddrOps
  import opened AddrRuns
  import opened AddrState
  import opened Wrappers

  /** There is room at `sl` for an entry without references: the place is empty, or whoever is
      there is not worth keeping or has another place. */
  predicate HasRoom(s: State, sl: Slot, now: int) {
    sl in s.newTab ==>
      s.newTab[sl] in s.info && (s.info[s.newTab[sl]].IsTerrible(now) || s.info[s.newTab[sl]].nRefCount > 1)
  }

  lemma HolderLost(s: State, sl: Slot)
    requires Shuffled(s) && sl in s.newTab && s.newTab[sl] in s.info && s.info[s.newTab[sl]].nRefCount == 1
    ensures s.newTab[sl] !in ClearNew(s, sl).info
  {
    var id, t := s.newTab[sl], Drop(s, sl);
    UpdateShuffled(s, id, t.info[id]);
    DeleteFrame(t, id);
    hide Delete, Shuffled;
  }

  /** What was not touched: everybody but the holder of the place. */
  ghost predicate OthersKept(s: State, t: State, sl: Slot, room: bool) {
    && (forall x :: x in s.info && !(room && Holds(s, sl, x)) ==> x in t.info && Alike(s.info[x], t.info[x]))
    && (forall x :: x in s.info && room && Holds(s, sl, x) ==> (x in t.info <==> s.info[x].nRefCount > 1))
  }

  lemma PlacedOthers(k: Keyed, s: State, t0: State, id: int, sl: Slot, now: int)
    requires Linked(k, s, {}) && id !in s.info && id in t0.info && t0.newTab == s.newTab && Shuffled(t0)
    requires forall x :: x in s.info ==> x in t0.info && t0.info[x] == s.info[x]
    requires HasRoom(s, sl, now) && id in ClearNew(t0, sl).info && sl !in ClearNew(t0, sl).newTab
    ensures sl in t0.newTab ==> t0.newTab[sl] in t0.info
    ensures OthersKept(s, Enter(ClearNew(t0, sl), id, sl), sl, true)
  {
    hide Indexed, Shuffled, TriedPlaced, NewPlaced, Counted;
    ClearNewFrame(t0, sl);
    if sl in s.newTab {
      HolderFacts(k, s, sl, {});
      if s.info[s.newTab[sl]].nRefCount == 1 { HolderLost(t0, sl); }
    }
    hide ClearNew;
  }

  /** The entry of an address that has been told once, with the penalty held against its time. */
  function FirstSeen(a: Address, source: NetAddr, penalty: int): AddrInfo {
    var time := if a.nTime > penalty then a.nTime - penalty else 0;
    AddrInfo(a.service, a.nServices, time % 0x1_0000_0000, source, 0, 0, 0, 1, false, 0)
  }

  lemma AdmitIs(s: State, a: Address, source: NetAddr, penalty: int)
    ensures var t := Admit(s, a, source, penalty);
            && s.idCount in t.info && t.newTab == s.newTab && t.triedTab == s.triedTab
            && Alike(FirstSeen(a, source, penalty), t.info[s.idCount].(nRefCount := 1))
            && t.info[s.idCount].nRefCount == 0
  {
  }

  lemma EnteredIs(s: State, c: State, id: int, sl: Slot)
    requires Cleared(s, c, sl) && id in s.info && id in c.info && Alike(s.info[id], c.info[id])
    ensures var t := Enter(c, id, sl);
            && t.newTab == s.newTab[sl := id] && t.triedTab == s.triedTab
            && Alike(s.info[id].(nRefCount := s.info[id].nRefCount + 1), t.info[id])
  {
    assert c.newTab[sl := id] == s.newTab[sl := id];
  }

  /** An address that was not known is known afterwards exactly when there was room for it,
      and then has the one place that its source selects; nobody else is touched, but the
      holder of that place, who is lost exactly when it was his last. */
  lemma AddOutcome(k: Keyed, s: State, a: Address, source: NetAddr, penalty: int, now: int, draw: nat)
    requires Structure(k, s) && k.hashes.routable(a.service.ip) && Find(s, a.service.ip).None?
    ensures var (t, fNew) := Add(k, s, a, source, penalty, now, draw);
            var sl := k.NewSlot(a.service, k.NewBucket(a.service, source));
            var room := HasRoom(s, sl, now);
            && fNew && (Find(t, a.service.ip).Some? <==> room) && OthersKept(s, t, sl, room)
            && t.triedTab == s.triedTab && t.newTab == (if room then s.newTab[sl := s.idCount] else s.newTab)
            && (room ==> s.idCount in t.info && Alike(FirstSeen(a, source, penalty), t.info[s.idCount]))
  {
    hide Indexed, Shuffled, TriedPlaced, NewPlaced, Counted, Totalled, Delete, ClearNew;
    var id, t0 := s.idCount, Admit(s, a, source, penalty);
    var sl := k.NewSlot(a.service, k.NewBucket(a.service, source));
    FindNone(s, a.service.ip);
    NextIdFree(s);
    AdmitKeeps(k, s, a, source, penalty);
    AddKeeps(k, s, a, source, penalty, now, draw);
    var t := Place(k, t0, id, source, now);
    assert t == Add(k, s, a, source, penalty, now, draw).0;
    if sl in s.newTab { HolderOld(k, s, sl); }
    AdmitIs(s, a, source, penalty);
    if HasRoom(s, sl, now) {
      PlaceRoom(k, t0, id, sl);
      ClearNewFrame(t0, sl);
      EnteredIs(t0, ClearNew(t0, sl), id, sl);
      PlacedOthers(k, s, t0, id, sl, now);
      KnownIn(k, t, id);
    } else {
      DeleteFrame(t0, id);
      UnknownWithout(k, t0, t, id);
    }
  }

  lemma HolderOld(k: Keyed, s: State, sl: Slot)
    requires Linked(k, s, {}) && sl in s.newTab
    ensures s.newTab[sl] in s.info && s.newTab[sl] != s.idCount && s.info[s.newTab[sl]].nRefCount > 0
  {
    HolderFacts(k, s, sl, {});
  }

  lemma KnownIn(k: Keyed, t: State, id: int)
    requires Structure(k, t) && id in t.info
    ensures Find(t, t.info[id].service.ip) == Some(id)
  {
  }

  lemma UnknownWithout(k: Keyed, s: State, t: State, id: int)
    requires Linked(k, s, {id}) && Structure(k, t) && id in s.info && Forgotten(s, t, id)
    ensures Find(t, s.info[id].service.ip).None?
  {
    hide Shuffled, TriedPlaced, NewPlaced, Counted, Totalled;
    var ip := s.info[id].service.ip;
    forall y | y in t.info ensures t.info[y].service.ip != ip {
      assert Alike(s.info[y], t.info[y]) && s.addr[s.info[y].service.ip] == y && s.addr[ip] == id;
    }
  }
}

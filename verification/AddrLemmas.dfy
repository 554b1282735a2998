module AddrLemmas {
  import opened AddrState

  /** The same entry, perhaps at another place of `vRandom`. */
  predicate Alike(e: AddrInfo, f: AddrInfo) {
    f == e.(nRandomPos := f.nRandomPos)
  }

  /** Two states that differ only in how `vRandom` is ordered. */
  ghost predicate Reordered(s: State, t: State) {
    && t.addr == s.addr && t.triedTab == s.triedTab && t.newTab == s.newTab && t.idCount == s.idCount
    && t.nTried == s.nTried && t.nNew == s.nNew
    && (forall id :: id in s.info <==> id in t.info)
    && (forall id :: id in t.info ==> Alike(s.info[id], t.info[id]))
  }

  lemma SwapReorders(s: State, i: nat, j: nat)
    requires Shuffled(s) && i < |s.random| && j < |s.random|
    ensures Reordered(s, Swap(s, i, j))
  {
    if i != j {
      var a, b := s.random[i], s.random[j];
      var t := MoveTo(s, a, j);
      MoveReorders(s, a, j);
      MoveReorders(t, b, i);
      hide MoveTo;
    }
  }

  lemma MoveReorders(s: State, id: int, pos: nat)
    requires id in s.info
    ensures Reordered(s, MoveTo(s, id, pos))
  {
  }

  lemma ReorderedTried(k: Keyed, s: State, t: State)
    requires TriedPlaced(k, s) && Reordered(s, t)
    ensures TriedPlaced(k, t)
  {
  }

  lemma ReorderedNew(k: Keyed, s: State, t: State)
    requires NewPlaced(k, s) && Reordered(s, t)
    ensures NewPlaced(k, t)
  {
  }

  lemma ReorderedIndexed(s: State, t: State)
    requires Indexed(s) && Reordered(s, t)
    ensures Indexed(t)
  {
  }

  lemma ReorderedPlaced(k: Keyed, s: State, t: State, limbo: set<int>)
    requires Placed(k, s, limbo) && Reordered(s, t) && Shuffled(t)
    ensures Placed(k, t, limbo)
  {
    ReorderedTried(k, s, t);
    ReorderedNew(k, s, t);
    assert Counted(t, limbo);
  }

  // ---- sets of slots

  lemma SlotsWithout(m: map<Slot, int>, sl: Slot, id: int)
    requires sl in m
    ensures SlotsOf(m - {sl}, id) == SlotsOf(m, id) - {sl}
    ensures |SlotsOf(m - {sl}, id)| == |SlotsOf(m, id)| - (if m[sl] == id then 1 else 0)
  {
    assert SlotsOf(m - {sl}, id) == SlotsOf(m, id) - {sl};
  }

  lemma SlotsWith(m: map<Slot, int>, sl: Slot, id: int, x: int)
    requires sl !in m
    ensures |SlotsOf(m[sl := x], id)| == |SlotsOf(m, id)| + (if x == id then 1 else 0)
  {
    if x == id {
      assert SlotsOf(m[sl := x], id) == SlotsOf(m, id) + {sl};
    } else {
      assert SlotsOf(m[sl := x], id) == SlotsOf(m, id);
    }
  }

  // ---- one entry changed

  lemma EntryIndexed(s: State, id: int, e: AddrInfo, t: State)
    requires Indexed(s) && id in s.info && e.service == s.info[id].service
    requires t.info == s.info[id := e] && t.addr == s.addr && t.idCount == s.idCount
    ensures Indexed(t)
  {
  }

  lemma EntryShuffled(s: State, id: int, e: AddrInfo, t: State)
    requires Shuffled(s) && id in s.info && e.nRandomPos == s.info[id].nRandomPos
    requires t.info == s.info[id := e] && t.random == s.random
    ensures Shuffled(t)
  {
  }

  lemma EntryTried(k: Keyed, s: State, id: int, e: AddrInfo, t: State)
    requires TriedPlaced(k, s) && id in s.info && e.service == s.info[id].service && e.fInTried == s.info[id].fInTried
    requires t.info == s.info[id := e] && t.triedTab == s.triedTab
    ensures TriedPlaced(k, t)
  {
  }

  // ---- Forget

  lemma ForgetIndexed(s: State)
    requires Indexed(s) && Shuffled(s) && |s.random| > 0
    ensures Indexed(Forget(s))
  {
  }

  lemma ForgetShuffled(s: State)
    requires Shuffled(s) && |s.random| > 0
    ensures Shuffled(Forget(s))
  {
  }

  lemma ForgetTried(k: Keyed, s: State)
    requires TriedPlaced(k, s) && Shuffled(s) && |s.random| > 0 && !s.info[s.random[|s.random| - 1]].fInTried
    ensures TriedPlaced(k, Forget(s))
  {
  }

  lemma ForgetCounted(k: Keyed, s: State, limbo: set<int>)
    requires NewPlaced(k, s) && Counted(s, limbo) && Shuffled(s) && |s.random| > 0 && s.random[|s.random| - 1] in limbo
    ensures NewPlaced(k, Forget(s)) && Counted(Forget(s), limbo - {s.random[|s.random| - 1]})
  {
    var id := s.random[|s.random| - 1];
    assert SlotsOf(s.newTab, id) == {};
    forall sl | sl in s.newTab ensures s.newTab[sl] != id {
      assert sl !in SlotsOf(s.newTab, id);
    }
  }

  lemma ForgetPlaced(k: Keyed, s: State, id: int, limbo: set<int>)
    requires Placed(k, s, limbo) && id in limbo && |s.random| > 0 && s.random[|s.random| - 1] == id
    ensures Placed(k, Forget(s), limbo - {id})
  {
    ForgetShuffled(s);
    ForgetTried(k, s);
    ForgetCounted(k, s, limbo);
  }

  lemma DeletePlaced(k: Keyed, s: State, id: int, limbo: set<int>)
    requires Placed(k, s, limbo) && id in limbo && id in s.info
    ensures Placed(k, Delete(s, id), limbo - {id})
  {
    hide Placed, Shuffled, Swap, Reordered, Forget, Delete;
    PlacedShuffles(k, s, limbo);
    var t := DeleteIs(s, id);
    ReorderedPlaced(k, s, t, limbo);
    ForgetPlaced(k, t, id, limbo);
  }

  lemma PlacedShuffles(k: Keyed, s: State, limbo: set<int>)
    requires Placed(k, s, limbo)
    ensures Shuffled(s)
  {
  }

  lemma DeleteIndexed(s: State, id: int)
    requires Indexed(s) && Shuffled(s) && id in s.info
    ensures Indexed(Delete(s, id))
  {
    hide Indexed, Shuffled, Reordered, Swap, Forget, Delete;
    var t := DeleteIs(s, id);
    ReorderedIndexed(s, t);
    ForgetIndexed(t);
  }

  /** The entry is moved to the end of `vRandom` and forgotten. */
  lemma DeleteIs(s: State, id: int) returns (t: State)
    requires Shuffled(s) && id in s.info
    ensures 0 <= s.info[id].nRandomPos < |s.random| && s.random[s.info[id].nRandomPos] == id
    ensures s.random[|s.random| - 1] in s.info && t == Swap(s, s.info[id].nRandomPos, |s.random| - 1)
    ensures Shuffled(t) && Reordered(s, t) && |t.random| == |s.random| && t.random[|t.random| - 1] == id
    ensures id in t.info && Delete(s, id) == Forget(t)
  {
    hide Shuffled, Swap, Reordered, Forget;
    LastPlace(s, id);
    var i, j := s.info[id].nRandomPos, |s.random| - 1;
    SwapShuffled(s, i, j);
    SwapReorders(s, i, j);
    SwapPlaces(s, i, j);
    t := Swap(s, i, j);
    ReorderedIds(s, t, id);
  }

  lemma ReorderedIds(s: State, t: State, id: int)
    requires Reordered(s, t)
    ensures id in s.info <==> id in t.info
  {
  }

  lemma LastPlace(s: State, id: int)
    requires Shuffled(s) && id in s.info
    ensures 0 <= s.info[id].nRandomPos < |s.random| && s.random[s.info[id].nRandomPos] == id
    ensures s.random[|s.random| - 1] in s.info
  {
  }

  lemma SwapPlaces(s: State, i: nat, j: nat)
    requires i < |s.random| && j < |s.random| && s.random[i] in s.info && s.random[j] in s.info
    ensures |Swap(s, i, j).random| == |s.random| && Swap(s, i, j).random[j] == s.random[i]
  {
  }

  lemma DeleteLinked(k: Keyed, s: State, id: int, limbo: set<int>)
    requires Linked(k, s, limbo) && id in limbo && id in s.info
    ensures Linked(k, Delete(s, id), limbo - {id})
  {
    hide Indexed, Delete, TriedPlaced, NewPlaced, Counted;
    DeletePlaced(k, s, id, limbo);
    DeleteIndexed(s, id);
  }

  // ---- Drop, ClearNew, Enter

  lemma DropNew(k: Keyed, s: State, sl: Slot)
    requires NewPlaced(k, s) && sl in s.newTab
    ensures NewPlaced(k, Drop(s, sl))
  {
  }

  lemma DropCounted(k: Keyed, s: State, sl: Slot, limbo: set<int>)
    requires Counted(s, limbo) && sl in s.newTab && s.newTab[sl] in s.info && !s.info[s.newTab[sl]].fInTried
    ensures var id := s.newTab[sl];
            Counted(Drop(s, sl), if s.info[id].nRefCount == 1 then limbo + {id} else limbo)
  {
    var id, t := s.newTab[sl], Drop(s, sl);
    assert sl in SlotsOf(s.newTab, id);
    forall x | x in t.info ensures |SlotsOf(t.newTab, x)| == |SlotsOf(s.newTab, x)| - (if x == id then 1 else 0) {
      SlotsWithout(s.newTab, sl, x);
    }
  }

  lemma DropLinked(k: Keyed, s: State, sl: Slot, limbo: set<int>)
    requires Linked(k, s, limbo) && sl in s.newTab && s.newTab[sl] in s.info
    ensures var id := s.newTab[sl];
            Linked(k, Drop(s, sl), if s.info[id].nRefCount == 1 then limbo + {id} else limbo)
  {
    var id, t := s.newTab[sl], Drop(s, sl);
    DropNew(k, s, sl);
    hide Indexed, TriedPlaced, Shuffled;
    EntryIndexed(s, id, t.info[id], t);
    EntryShuffled(s, id, t.info[id], t);
    EntryTried(k, s, id, t.info[id], t);
    DropCounted(k, s, sl, limbo);
  }

  lemma ClearNewLinked(k: Keyed, s: State, sl: Slot, limbo: set<int>)
    requires Linked(k, s, limbo)
    ensures sl in s.newTab ==> s.newTab[sl] in s.info
    ensures Linked(k, ClearNew(s, sl), limbo)
  {
    if sl in s.newTab {
      var id := s.newTab[sl];
      assert sl in SlotsOf(s.newTab, id);
      assert id in s.info && s.info[id].nRefCount > 0 && id !in limbo;
      ClearNewCases(k, s, sl, limbo);
    }
  }

  lemma ClearNewCases(k: Keyed, s: State, sl: Slot, limbo: set<int>)
    requires Linked(k, s, limbo) && sl in s.newTab && s.newTab[sl] in s.info && s.newTab[sl] !in limbo
    ensures Linked(k, ClearNew(s, sl), limbo)
  {
    hide Indexed, TriedPlaced, NewPlaced, Counted;
    var id, t := s.newTab[sl], Drop(s, sl);
    DropLinked(k, s, sl, limbo);
    if t.info[id].nRefCount == 0 {
      DeleteLinked(k, t, id, limbo + {id});
      assert limbo + {id} - {id} == limbo;
    }
  }

  lemma EnterCounted(k: Keyed, s: State, id: int, sl: Slot, limbo: set<int>)
    requires NewPlaced(k, s) && Counted(s, limbo) && id in s.info && sl !in s.newTab
    requires s.info[id].nRefCount < NEW_BUCKETS_PER_ADDRESS && !s.info[id].fInTried
    requires sl.bucket < NEW_BUCKET_COUNT && sl == k.NewSlot(s.info[id].service, sl.bucket)
    ensures NewPlaced(k, Enter(s, id, sl)) && Counted(Enter(s, id, sl), limbo - {id})
  {
    var t := Enter(s, id, sl);
    EnterNew(k, s, id, sl);
    hide NewPlaced, SlotsOf;
    forall x | x in t.info ensures |SlotsOf(t.newTab, x)| == |SlotsOf(s.newTab, x)| + (if x == id then 1 else 0) {
      SlotsWith(s.newTab, sl, x, id);
    }
  }

  lemma EnterNew(k: Keyed, s: State, id: int, sl: Slot)
    requires NewPlaced(k, s) && id in s.info && !s.info[id].fInTried
    requires sl.bucket < NEW_BUCKET_COUNT && sl == k.NewSlot(s.info[id].service, sl.bucket)
    ensures NewPlaced(k, Enter(s, id, sl))
  {
  }

  lemma EnterPlaced(k: Keyed, s: State, id: int, sl: Slot, limbo: set<int>)
    requires Placed(k, s, limbo) && id in s.info && sl !in s.newTab
    requires s.info[id].nRefCount < NEW_BUCKETS_PER_ADDRESS && !s.info[id].fInTried
    requires sl.bucket < NEW_BUCKET_COUNT && sl == k.NewSlot(s.info[id].service, sl.bucket)
    ensures Placed(k, Enter(s, id, sl), limbo - {id})
  {
    hide TriedPlaced, Shuffled, NewPlaced, Counted;
    var t := Enter(s, id, sl);
    EntryShuffled(s, id, t.info[id], t);
    EntryTried(k, s, id, t.info[id], t);
    EnterCounted(k, s, id, sl, limbo);
  }

  lemma EnterLinked(k: Keyed, s: State, id: int, sl: Slot, limbo: set<int>)
    requires Linked(k, s, limbo) && id in s.info && sl !in s.newTab
    requires s.info[id].nRefCount < NEW_BUCKETS_PER_ADDRESS && !s.info[id].fInTried
    requires sl.bucket < NEW_BUCKET_COUNT && sl == k.NewSlot(s.info[id].service, sl.bucket)
    ensures Linked(k, Enter(s, id, sl), limbo - {id})
  {
    hide Indexed, Placed;
    var t := Enter(s, id, sl);
    EntryIndexed(s, id, t.info[id], t);
    EnterPlaced(k, s, id, sl, limbo);
  }

  // ---- Strip

  lemma StripCounted(k: Keyed, s: State, id: int, limbo: set<int>)
    requires NewPlaced(k, s) && Counted(s, limbo) && id in s.info && !s.info[id].fInTried
    ensures NewPlaced(k, Strip(s, id)) && Counted(Strip(s, id), limbo + {id})
  {
    var t := Strip(s, id);
    assert SlotsOf(t.newTab, id) == {};
    forall x | x in t.info && x != id ensures SlotsOf(t.newTab, x) == SlotsOf(s.newTab, x) {
    }
  }

  /** The new table while `id` is being removed from it, bucket by bucket. */
  ghost function StripUpTo(m: map<Slot, int>, id: int, bucket: nat): map<Slot, int> {
    map sl | sl in m && !(m[sl] == id && sl.bucket < bucket) :: m[sl]
  }

  /** In one bucket there is one place where `id` can be. */
  lemma StripNext(k: Keyed, s: State, id: int, b: nat)
    requires NewPlaced(k, s) && id in s.info
    ensures var sl := k.NewSlot(s.info[id].service, b);
            StripUpTo(s.newTab, id, b + 1) == StripUpTo(s.newTab, id, b) - (if Holds(s, sl, id) then {sl} else {})
  {
    forall x | x in s.newTab && s.newTab[x] == id && x.bucket == b ensures x == k.NewSlot(s.info[id].service, b) {
    }
  }

  lemma StripHolds(s: State, id: int, b: nat, sl: Slot)
    requires sl.bucket == b
    ensures var m := StripUpTo(s.newTab, id, b); (sl in m && m[sl] == id) <==> Holds(s, sl, id)
  {
  }

  lemma StripStart(s: State, id: int)
    ensures StripUpTo(s.newTab, id, 0) == s.newTab
  {
  }

  lemma StripDone(k: Keyed, s: State, id: int)
    requires NewPlaced(k, s) && id in s.info
    ensures StripUpTo(s.newTab, id, NEW_BUCKET_COUNT) == Strip(s, id).newTab
    ensures SlotsOf(StripUpTo(s.newTab, id, NEW_BUCKET_COUNT), id) == {}
  {
  }

  lemma StripLinked(k: Keyed, s: State, id: int, limbo: set<int>)
    requires Linked(k, s, limbo) && id in s.info && !s.info[id].fInTried
    ensures Linked(k, Strip(s, id), limbo + {id})
  {
    hide Indexed, TriedPlaced, Shuffled, NewPlaced, Counted;
    var t := Strip(s, id);
    EntryIndexed(s, id, t.info[id], t);
    EntryShuffled(s, id, t.info[id], t);
    EntryTried(k, s, id, t.info[id], t);
    StripCounted(k, s, id, limbo);
  }

  // ---- Untry

  lemma UntryTried(k: Keyed, s: State, sl: Slot)
    requires TriedPlaced(k, s) && sl in s.triedTab
    ensures TriedPlaced(k, Untry(s, sl))
  {
  }

  lemma UntryCounted(k: Keyed, s: State, sl: Slot, limbo: set<int>)
    requires TriedPlaced(k, s) && NewPlaced(k, s) && Counted(s, limbo) && sl in s.triedTab
    ensures NewPlaced(k, Untry(s, sl)) && Counted(Untry(s, sl), limbo + {s.triedTab[sl]})
  {
    var id := s.triedTab[sl];
    assert SlotsOf(s.newTab, id) == {};
  }

  lemma UntryLinked(k: Keyed, s: State, sl: Slot, limbo: set<int>)
    requires Linked(k, s, limbo) && sl in s.triedTab && s.triedTab[sl] in s.info
    ensures Linked(k, Untry(s, sl), limbo + {s.triedTab[sl]})
  {
    hide Indexed, Shuffled, TriedPlaced, NewPlaced, Counted;
    var id, t := s.triedTab[sl], Untry(s, sl);
    EntryIndexed(s, id, t.info[id], t);
    EntryShuffled(s, id, t.info[id], t);
    UntryTried(k, s, sl);
    UntryCounted(k, s, sl, limbo);
  }

  // ---- Promote

  lemma PromoteTried(k: Keyed, s: State, id: int, sl: Slot)
    requires TriedPlaced(k, s) && id in s.info && !s.info[id].fInTried
    requires sl !in s.triedTab && sl == k.TriedSlot(s.info[id].service)
    ensures TriedPlaced(k, Promote(s, id, sl))
  {
  }

  lemma PromoteCounted(k: Keyed, s: State, id: int, sl: Slot, limbo: set<int>)
    requires NewPlaced(k, s) && Counted(s, limbo) && id in limbo
    ensures NewPlaced(k, Promote(s, id, sl)) && Counted(Promote(s, id, sl), limbo - {id})
  {
    assert SlotsOf(s.newTab, id) == {};
    forall x | x in s.newTab ensures s.newTab[x] != id {
      assert x !in SlotsOf(s.newTab, id);
    }
  }

  lemma PromotePlaced(k: Keyed, s: State, id: int, sl: Slot, limbo: set<int>)
    requires Placed(k, s, limbo) && id in limbo && id in s.info && !s.info[id].fInTried
    requires sl !in s.triedTab && sl == k.TriedSlot(s.info[id].service)
    ensures Placed(k, Promote(s, id, sl), limbo - {id})
  {
    hide Shuffled, TriedPlaced, NewPlaced, Counted;
    var t := Promote(s, id, sl);
    EntryShuffled(s, id, t.info[id], t);
    PromoteTried(k, s, id, sl);
    PromoteCounted(k, s, id, sl, limbo);
  }

  lemma PromoteLinked(k: Keyed, s: State, id: int, sl: Slot, limbo: set<int>)
    requires Linked(k, s, limbo) && id in limbo && id in s.info && !s.info[id].fInTried
    requires sl !in s.triedTab && sl == k.TriedSlot(s.info[id].service)
    ensures Linked(k, Promote(s, id, sl), limbo - {id})
  {
    hide Indexed, Placed;
    var t := Promote(s, id, sl);
    EntryIndexed(s, id, t.info[id], t);
    PromotePlaced(k, s, id, sl, limbo);
  }

  // ---- Create

  lemma CreateIndexed(s: State, a: Address, source: NetAddr)
    requires Indexed(s) && a.service.ip !in s.addr
    ensures Indexed(Create(s, a, source))
  {
  }

  lemma CreateShuffled(s: State, a: Address, source: NetAddr)
    requires Shuffled(s) && s.idCount !in s.info
    ensures Shuffled(Create(s, a, source))
  {
  }

  lemma CreateTried(k: Keyed, s: State, a: Address, source: NetAddr)
    requires TriedPlaced(k, s) && s.idCount !in s.info
    ensures TriedPlaced(k, Create(s, a, source))
  {
  }

  lemma CreateCounted(k: Keyed, s: State, a: Address, source: NetAddr, limbo: set<int>)
    requires NewPlaced(k, s) && Counted(s, limbo) && s.idCount !in s.info
    ensures NewPlaced(k, Create(s, a, source)) && Counted(Create(s, a, source), limbo + {s.idCount})
  {
    assert SlotsOf(s.newTab, s.idCount) == {};
  }

  lemma CreatePlaced(k: Keyed, s: State, a: Address, source: NetAddr, limbo: set<int>)
    requires Placed(k, s, limbo) && s.idCount !in s.info
    ensures Placed(k, Create(s, a, source), limbo + {s.idCount})
  {
    hide Shuffled, TriedPlaced, NewPlaced, Counted;
    CreateShuffled(s, a, source);
    CreateTried(k, s, a, source);
    CreateCounted(k, s, a, source, limbo);
  }

  lemma CreateLinked(k: Keyed, s: State, a: Address, source: NetAddr, limbo: set<int>)
    requires Linked(k, s, limbo) && s.idCount !in s.info && a.service.ip !in s.addr
    ensures Linked(k, Create(s, a, source), limbo + {s.idCount})
  {
    hide Indexed, Placed;
    CreateIndexed(s, a, source);
    CreatePlaced(k, s, a, source, limbo);
  }

  // ---- what an operation leaves alone

  /** The same peer and the same history, wherever the entry is now. */
  predicate SameRecord(e: AddrInfo, f: AddrInfo) {
    f == e.(nRefCount := f.nRefCount, fInTried := f.fInTried, nRandomPos := f.nRandomPos)
  }

  predicate Holds(s: State, sl: Slot, id: int) {
    sl in s.newTab && s.newTab[sl] == id
  }

  /** `t` is `s` with slot `sl` of the new table emptied: nobody but its holder is
      touched, and the holder is lost only when that was its last slot. */
  ghost predicate Cleared(s: State, t: State, sl: Slot) {
    && t.newTab == s.newTab - {sl} && t.triedTab == s.triedTab && t.nTried == s.nTried && t.idCount == s.idCount
    && (forall id :: id in t.info ==> id in s.info && SameRecord(s.info[id], t.info[id]))
    && (forall id :: id in t.info ==> t.info[id].fInTried == s.info[id].fInTried)
    && (forall id :: id in s.info && !Holds(s, sl, id) ==> id in t.info && Alike(s.info[id], t.info[id]))
    && (forall id :: id in s.info && id !in t.info ==> s.info[id].nRefCount == 1)
    && t.nNew == s.nNew - (if sl in s.newTab && s.newTab[sl] !in t.info then 1 else 0)
  }

  /** `t` is `s` without entry `id`, which was in neither table. */
  ghost predicate Forgotten(s: State, t: State, id: int) {
    && t.triedTab == s.triedTab && t.newTab == s.newTab && t.nTried == s.nTried && t.idCount == s.idCount
    && t.nNew == s.nNew - 1
    && (forall x :: x in t.info <==> x in s.info && x != id)
    && (forall x :: x in t.info ==> Alike(s.info[x], t.info[x]))
  }

  lemma ForgetFrame(s: State, id: int)
    requires Shuffled(s) && |s.random| > 0 && s.random[|s.random| - 1] == id
    ensures Forgotten(s, Forget(s), id)
  {
  }

  lemma ReorderedForgotten(s: State, u: State, t: State, id: int)
    requires Reordered(s, u) && Forgotten(u, t, id)
    ensures Forgotten(s, t, id)
  {
  }

  /** The entry that is to be deleted comes to the end of `vRandom`. */
  lemma SwapLast(s: State, id: int)
    requires Shuffled(s) && id in s.info
    ensures 0 <= s.info[id].nRandomPos < |s.random|
    ensures var t := Swap(s, s.info[id].nRandomPos, |s.random| - 1);
            && Shuffled(t) && |t.random| == |s.random| && t.random[|t.random| - 1] == id
            && id in t.info && t.info[id].service == s.info[id].service
  {
    hide Reordered, Shuffled, Swap;
    var t := DeleteIs(s, id);
    ReorderedService(s, t, id);
  }

  lemma ReorderedService(s: State, t: State, id: int)
    requires Reordered(s, t) && id in s.info
    ensures id in t.info && t.info[id].service == s.info[id].service
  {
    assert id in t.info && Alike(s.info[id], t.info[id]);
  }

  lemma DeleteFrame(s: State, id: int)
    requires Shuffled(s) && id in s.info
    ensures Forgotten(s, Delete(s, id), id)
  {
    hide Reordered, Forgotten, Shuffled, Swap, Forget, Delete;
    var t := DeleteIs(s, id);
    ForgetFrame(t, id);
    ReorderedForgotten(s, t, Delete(s, id), id);
  }

  lemma DropCleared(s: State, sl: Slot)
    requires sl in s.newTab && s.newTab[sl] in s.info
    ensures Cleared(s, Drop(s, sl), sl)
  {
  }

  lemma ForgottenCleared(s: State, u: State, t: State, sl: Slot)
    requires sl in s.newTab && s.newTab[sl] in s.info && s.info[s.newTab[sl]].nRefCount == 1
    requires Cleared(s, u, sl) && s.newTab[sl] in u.info && Forgotten(u, t, s.newTab[sl])
    ensures Cleared(s, t, sl)
  {
  }

  lemma ClearNewFrame(s: State, sl: Slot)
    requires Shuffled(s) && (sl in s.newTab ==> s.newTab[sl] in s.info)
    ensures Cleared(s, ClearNew(s, sl), sl)
  {
    if sl in s.newTab {
      var id, t := s.newTab[sl], Drop(s, sl);
      EntryShuffled(s, id, t.info[id], t);
      DropCleared(s, sl);
      hide Cleared, Forgotten, Shuffled;
      if t.info[id].nRefCount == 0 {
        DeleteFrame(t, id);
        ForgottenCleared(s, t, Delete(t, id), sl);
      }
    } else {
      assert s.newTab == s.newTab - {sl};
    }
  }

  // ---- counters

  lemma TotalsCleared(s: State, t: State, sl: Slot, owed: int)
    requires Totalled(s, owed) && Cleared(s, t, sl)
    requires sl in s.newTab ==> s.newTab[sl] in s.info && !s.info[s.newTab[sl]].fInTried
    ensures Totalled(t, owed)
  {
    var id := if sl in s.newTab then s.newTab[sl] else 0;
    assert forall x :: (IsTried(t, x) <==> IsTried(s, x)) && (x != id ==> (IsNew(t, x) <==> IsNew(s, x)));
    assert sl in s.newTab ==> IsNew(s, id);
    assert sl !in s.newTab || id in t.info ==> (IsNew(t, id) <==> IsNew(s, id));
    assert id !in t.info ==> !IsNew(t, id);
    hide IsTried, IsNew, TriedIds, NewIds, Cleared;
    MarkCount(s, t, id);
  }

  /** One entry changes its mark, and the counters are adjusted by hand. */
  lemma TotalsEntry(s: State, t: State, id: int, owed: int, owed': int)
    requires Totalled(s, owed) && id in s.info
    requires forall x :: x in t.info <==> x in s.info
    requires forall x :: x in t.info && x != id ==> t.info[x].fInTried == s.info[x].fInTried
    requires t.nTried == s.nTried + (if t.info[id].fInTried then 1 else 0) - (if s.info[id].fInTried then 1 else 0)
    requires t.nNew + owed'
            == s.nNew + owed + (if t.info[id].fInTried then 0 else 1) - (if s.info[id].fInTried then 0 else 1)
    ensures Totalled(t, owed')
  {
    assert forall x :: x != id ==> (IsTried(t, x) <==> IsTried(s, x)) && (IsNew(t, x) <==> IsNew(s, x));
    assert (IsTried(s, id) <==> !IsNew(s, id)) && (IsTried(t, id) <==> !IsNew(t, id));
    MarkCount(s, t, id);
    hide IsTried, IsNew, TriedIds, NewIds;
  }

  /** The sets of marked ids when one entry may have changed its mark. */
  lemma MarkCount(s: State, t: State, id: int)
    requires forall x :: x != id ==> (IsTried(t, x) <==> IsTried(s, x)) && (IsNew(t, x) <==> IsNew(s, x))
    ensures |TriedIds(t)| == |TriedIds(s)| + (if IsTried(t, id) then 1 else 0) - (if IsTried(s, id) then 1 else 0)
    ensures |NewIds(t)| == |NewIds(s)| + (if IsNew(t, id) then 1 else 0) - (if IsNew(s, id) then 1 else 0)
  {
    TriedOf(s, id);
    TriedOf(t, id);
    NewOf(s, id);
    NewOf(t, id);
    assert (set x | x in s.info && IsTried(s, x) && x != id) == (set x | x in t.info && IsTried(t, x) && x != id);
    assert (set x | x in s.info && IsNew(s, x) && x != id) == (set x | x in t.info && IsNew(t, x) && x != id);
  }

  /** No entry is marked both ways. */
  lemma BothCount(s: State)
    ensures |TriedIds(s) + NewIds(s)| == |TriedIds(s)| + |NewIds(s)|
  {
    assert forall x :: !(IsTried(s, x) && IsNew(s, x));
    assert TriedIds(s) !! NewIds(s);
  }

  lemma TriedOf(s: State, id: int)
    ensures |TriedIds(s)| == |set x | x in s.info && IsTried(s, x) && x != id| + (if IsTried(s, id) then 1 else 0)
  {
    var rest := set x | x in s.info && IsTried(s, x) && x != id;
    if IsTried(s, id) {
      assert TriedIds(s) == rest + {id};
    } else {
      assert TriedIds(s) == rest;
    }
  }

  lemma NewOf(s: State, id: int)
    ensures |NewIds(s)| == |set x | x in s.info && IsNew(s, x) && x != id| + (if IsNew(s, id) then 1 else 0)
  {
    var rest := set x | x in s.info && IsNew(s, x) && x != id;
    if IsNew(s, id) {
      assert NewIds(s) == rest + {id};
    } else {
      assert NewIds(s) == rest;
    }
  }
}

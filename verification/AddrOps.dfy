/** The operations of src/addrman.cpp as functions of the manager's value, and the
    proof that every run of them keeps what `Check_` checks. */
module AddrOps {
  import opened AddrState
  import opened AddrLemmas

  // ------------------------------------------------------------------ eviction

  /** The new slot an entry has by default: the one its own source selects. */
  function HomeSlot(k: Keyed, e: AddrInfo): Slot {
    k.NewSlot(e.service, k.NewBucket(e.service, e.source))
  }

  /** Gives an entry in limbo its own new slot, at the expense of whoever is there. */
  function Reenter(k: Keyed, s: State, id: int, ghost limbo: set<int>): State
    requires Linked(k, s, limbo) && id in limbo && id in s.info
  {
    var home := HomeSlot(k, s.info[id]);
    ClearNewLinked(k, s, home, limbo);
    ClearNewHolds(k, s, home, limbo, id);
    var c := ClearNew(s, home);
    Enter(c, id, home).(nNew := c.nNew + 1)
  }

  /** Makes room in tried slot `sl`: whoever is there goes back to the new table. */
  function Evict(k: Keyed, s: State, sl: Slot, ghost limbo: set<int>): State
    requires Linked(k, s, limbo)
  {
    if sl !in s.triedTab then s else
    UntryLinked(k, s, sl, limbo);
    Reenter(k, Untry(s, sl), s.triedTab[sl], limbo + {s.triedTab[sl]})
  }

  /** The holder of a new slot is in the manager, is not tried and is not in limbo. */
  lemma HolderFacts(k: Keyed, s: State, sl: Slot, limbo: set<int>)
    requires Linked(k, s, limbo) && sl in s.newTab
    ensures var id := s.newTab[sl]; id in s.info && !s.info[id].fInTried && s.info[id].nRefCount > 0 && id !in limbo
  {
    assert sl in SlotsOf(s.newTab, s.newTab[sl]);
  }

  /** `ClearNew` does not touch an entry in limbo. */
  lemma ClearNewHolds(k: Keyed, s: State, sl: Slot, limbo: set<int>, id: int)
    requires Linked(k, s, limbo) && (sl in s.newTab ==> s.newTab[sl] in s.info) && id in limbo
    ensures var t := ClearNew(s, sl);
            id in s.info && id in t.info && Alike(s.info[id], t.info[id]) && sl !in t.newTab
  {
    if sl in s.newTab {
      HolderFacts(k, s, sl, limbo);
    }
    LimboFacts(k, s, limbo, id);
    ClearNewFrame(s, sl);
    hide ClearNew, Linked;
  }

  lemma ClearNewTotals(k: Keyed, s: State, sl: Slot, limbo: set<int>, owed: int)
    requires Linked(k, s, limbo) && Totalled(s, owed) && (sl in s.newTab ==> s.newTab[sl] in s.info)
    ensures Totalled(ClearNew(s, sl), owed)
  {
    if sl in s.newTab {
      HolderFacts(k, s, sl, limbo);
    }
    ClearNewFrame(s, sl);
    hide Cleared, Linked, ClearNew;
    TotalsCleared(s, ClearNew(s, sl), sl, owed);
  }

  lemma LimboFacts(k: Keyed, s: State, limbo: set<int>, id: int)
    requires Linked(k, s, limbo) && id in limbo
    ensures 0 <= id && id in s.info && s.info[id].nRefCount == 0 && !s.info[id].fInTried
  {
  }

  /** An entry that is not tried is in some new bucket, at its place there. */
  lemma NewEntrySomewhere(k: Keyed, s: State, id: int) returns (bucket: nat)
    requires Linked(k, s, {}) && IsNew(s, id)
    ensures bucket < NEW_BUCKET_COUNT && Holds(s, k.NewSlot(s.info[id].service, bucket), id)
  {
    assert |SlotsOf(s.newTab, id)| > 0;
    var sl :| sl in SlotsOf(s.newTab, id);
    bucket := sl.bucket;
  }

  lemma EntryFacts(k: Keyed, s: State, limbo: set<int>, id: int)
    requires Linked(k, s, limbo) && id in s.info
    ensures 0 <= id && s.info[id].nRefCount == |SlotsOf(s.newTab, id)| && NewPlaced(k, s)
  {
  }

  lemma ReenterLinked(k: Keyed, s: State, id: int, limbo: set<int>)
    requires Linked(k, s, limbo) && id in limbo && id in s.info
    ensures Linked(k, Reenter(k, s, id, limbo), limbo - {id})
  {
    hide Indexed, Shuffled, TriedPlaced, NewPlaced, Counted;
    var home := HomeSlot(k, s.info[id]);
    ClearNewLinked(k, s, home, limbo);
    ClearNewHolds(k, s, home, limbo, id);
    var c := ClearNew(s, home);
    hide ClearNew;
    LimboFacts(k, c, limbo, id);
    hide Linked, Enter;
    EnterLinked(k, c, id, home, limbo);
    NewCountLinked(k, Enter(c, id, home), limbo - {id}, c.nNew + 1);
  }

  lemma NewCountLinked(k: Keyed, s: State, limbo: set<int>, nNew: int)
    requires Linked(k, s, limbo)
    ensures Linked(k, s.(nNew := nNew), limbo)
  {
  }

  lemma ReenterTotals(k: Keyed, s: State, id: int, limbo: set<int>, owed: int)
    requires Linked(k, s, limbo) && id in limbo && id in s.info && Totalled(s, owed)
    ensures Totalled(Reenter(k, s, id, limbo), owed - 1)
  {
    hide Totalled, Indexed, TriedPlaced, NewPlaced, Counted;
    var home := HomeSlot(k, s.info[id]);
    ClearNewLinked(k, s, home, limbo);
    ClearNewHolds(k, s, home, limbo, id);
    ClearNewTotals(k, s, home, limbo, owed);
    var c := ClearNew(s, home);
    hide ClearNew;
    TotalsEntry(c, Reenter(k, s, id, limbo), id, owed, owed - 1);
  }

  /** `t` keeps every record of `s` but at most that of the holder of `home`, puts `id`
      into `home`, and touches nobody else in limbo. */
  ghost predicate Reentered(s: State, t: State, id: int, home: Slot, limbo: set<int>) {
    && t.triedTab == s.triedTab && t.nTried == s.nTried && t.newTab == s.newTab[home := id]
    && id in t.info && t.info[id].nRefCount == 1 && !t.info[id].fInTried
    && (forall x :: x in limbo && x != id ==> x in s.info && x in t.info && Alike(s.info[x], t.info[x]))
    && (forall x :: x in t.info ==> x in s.info && SameRecord(s.info[x], t.info[x]))
    && (forall x :: x in t.info ==> t.info[x].fInTried == s.info[x].fInTried)
    && (forall x :: x in s.info && x !in t.info ==> Holds(s, home, x) && s.info[x].nRefCount == 1)
  }

  lemma EnterFrame(s: State, c: State, id: int, home: Slot, limbo: set<int>)
    requires Cleared(s, c, home) && id in limbo && id in s.info && id in c.info
    requires s.info[id].nRefCount == 0 && !s.info[id].fInTried && Alike(s.info[id], c.info[id])
    requires forall x :: x in limbo ==> x in s.info && !Holds(s, home, x)
    ensures Reentered(s, Enter(c, id, home).(nNew := c.nNew + 1), id, home, limbo)
  {
    assert c.newTab[home := id] == s.newTab[home := id];
  }

  lemma LimboHoldsNothing(k: Keyed, s: State, sl: Slot, limbo: set<int>)
    requires Linked(k, s, limbo)
    ensures forall x :: x in limbo ==> x in s.info && !Holds(s, sl, x)
  {
    forall x | x in limbo ensures x in s.info && !Holds(s, sl, x) {
      LimboFacts(k, s, limbo, x);
      if sl in s.newTab {
        HolderFacts(k, s, sl, limbo);
      }
    }
  }

  lemma ReenterFrame(k: Keyed, s: State, id: int, limbo: set<int>)
    requires Linked(k, s, limbo) && id in limbo && id in s.info
    ensures Reentered(s, Reenter(k, s, id, limbo), id, HomeSlot(k, s.info[id]), limbo)
  {
    hide Indexed, TriedPlaced, NewPlaced, Counted, Cleared, Reentered;
    var home := HomeSlot(k, s.info[id]);
    LimboFacts(k, s, limbo, id);
    LimboHoldsNothing(k, s, home, limbo);
    ClearNewLinked(k, s, home, limbo);
    ClearNewHolds(k, s, home, limbo, id);
    ClearNewFrame(s, home);
    hide ClearNew, Linked, Enter;
    EnterFrame(s, ClearNew(s, home), id, home, limbo);
  }

  lemma EvictLinked(k: Keyed, s: State, sl: Slot, limbo: set<int>)
    requires Linked(k, s, limbo)
    ensures Linked(k, Evict(k, s, sl, limbo), limbo)
  {
    hide Indexed, Shuffled, TriedPlaced, NewPlaced, Counted;
    if sl in s.triedTab {
      var id := s.triedTab[sl];
      TriedNotLimbo(k, s, sl, limbo);
      UntryLinked(k, s, sl, limbo);
      ReenterLinked(k, Untry(s, sl), id, limbo + {id});
      assert limbo + {id} - {id} == limbo;
    }
  }

  lemma TriedNotLimbo(k: Keyed, s: State, sl: Slot, limbo: set<int>)
    requires Linked(k, s, limbo) && sl in s.triedTab
    ensures var id := s.triedTab[sl]; id in s.info && id !in limbo && s.info[id].fInTried
  {
  }

  lemma EvictTotals(k: Keyed, s: State, sl: Slot, limbo: set<int>, owed: int)
    requires Linked(k, s, limbo) && Totalled(s, owed)
    ensures Totalled(Evict(k, s, sl, limbo), owed)
  {
    if sl in s.triedTab {
      hide Linked, Totalled, Reenter, Untry;
      var id := s.triedTab[sl];
      TriedNotLimbo(k, s, sl, limbo);
      UntryLinked(k, s, sl, limbo);
      UntryTotals(s, sl, owed);
      ReenterTotals(k, Untry(s, sl), id, limbo + {id}, owed + 1);
    }
  }

  lemma UntryTotals(s: State, sl: Slot, owed: int)
    requires Totalled(s, owed) && sl in s.triedTab && s.triedTab[sl] in s.info && s.info[s.triedTab[sl]].fInTried
    ensures Totalled(Untry(s, sl), owed + 1)
  {
    TotalsEntry(s, Untry(s, sl), s.triedTab[sl], owed, owed + 1);
  }

  /** What eviction does: the holder of `sl` goes to its own new slot, whose last holder
      may be lost; nobody else leaves the manager and nobody in limbo is touched. */
  ghost predicate Evicted(k: Keyed, s: State, t: State, sl: Slot, limbo: set<int>) {
    && t.triedTab == s.triedTab - {sl} && t.nTried == s.nTried - (if sl in s.triedTab then 1 else 0)
    && (forall x :: x in limbo ==> x in s.info && x in t.info && Alike(s.info[x], t.info[x]))
    && (forall x :: x in t.info ==> x in s.info && SameRecord(s.info[x], t.info[x]))
    && (forall x :: x in t.info && t.info[x].fInTried ==> s.info[x].fInTried)
    && (sl !in s.triedTab ==> t == s)
    && (sl in s.triedTab ==>
          var id := s.triedTab[sl];
          && id in s.info && id in t.info && !t.info[id].fInTried && t.info[id].nRefCount == 1
          && t.newTab == s.newTab[HomeSlot(k, s.info[id]) := id]
          && forall x :: x in s.info && x !in t.info ==>
              Holds(s, HomeSlot(k, s.info[id]), x) && s.info[x].nRefCount == 1)
  }

  lemma EvictFrame(k: Keyed, s: State, sl: Slot, limbo: set<int>)
    requires Linked(k, s, limbo)
    ensures Evicted(k, s, Evict(k, s, sl, limbo), sl, limbo)
  {
    if sl in s.triedTab {
      var id, u := s.triedTab[sl], Untry(s, sl);
      TriedNotLimbo(k, s, sl, limbo);
      UntryLinked(k, s, sl, limbo);
      ReenterFrame(k, u, id, limbo + {id});
      hide Linked, Reenter;
      UntryReentered(k, s, u, Evict(k, s, sl, limbo), sl, limbo);
    } else {
      assert s.triedTab == s.triedTab - {sl};
      forall x | x in limbo ensures x in s.info { LimboFacts(k, s, limbo, x); }
    }
  }

  lemma UntryReentered(k: Keyed, s: State, u: State, t: State, sl: Slot, limbo: set<int>)
    requires sl in s.triedTab && s.triedTab[sl] in s.info && u == Untry(s, sl) && s.triedTab[sl] !in limbo
    requires s.info[s.triedTab[sl]].fInTried
    requires Reentered(u, t, s.triedTab[sl], HomeSlot(k, u.info[s.triedTab[sl]]), limbo + {s.triedTab[sl]})
    ensures Evicted(k, s, t, sl, limbo)
  {
  }

  // ---------------------------------------------------------- moving to "tried"

  function MakeTried(k: Keyed, s: State, id: int): State
    requires Linked(k, s, {}) && IsNew(s, id)
  {
    var sl := k.TriedSlot(s.info[id].service);
    StripLinked(k, s, id, {});
    EvictLinked(k, Strip(s, id), sl, {id});
    LimboFacts(k, Evict(k, Strip(s, id), sl, {id}), {id}, id);
    Promote(Evict(k, Strip(s, id), sl, {id}), id, sl)
  }

  lemma MakeTriedKeeps(k: Keyed, s: State, id: int)
    requires Structure(k, s) && IsNew(s, id)
    ensures Structure(k, MakeTried(k, s, id))
  {
    hide Indexed, Shuffled, TriedPlaced, NewPlaced, Counted, Totalled, Evicted;
    var sl := k.TriedSlot(s.info[id].service);
    var u := Strip(s, id);
    StripLinked(k, s, id, {});
    assert {} + {id} == {id};
    TotalsEntry(s, u, id, 0, 1);
    var t := Evict(k, u, sl, {id});
    EvictLinked(k, u, sl, {id});
    EvictTotals(k, u, sl, {id}, 1);
    EvictFrame(k, u, sl, {id});
    EvictedLimbo(k, u, t, sl, {id}, id);
    PromoteTotals(k, t, id, sl);
    assert {id} - {id} == {};
    hide Evict, Strip;
    PromoteLinked(k, t, id, sl, {id});
  }

  lemma EvictedLimbo(k: Keyed, s: State, t: State, sl: Slot, limbo: set<int>, id: int)
    requires Evicted(k, s, t, sl, limbo) && id in limbo
    ensures sl !in t.triedTab && id in s.info && id in t.info && Alike(s.info[id], t.info[id])
  {
  }

  lemma PromoteTotals(k: Keyed, s: State, id: int, sl: Slot)
    requires IsNew(s, id) && Totalled(s, 1)
    ensures Totalled(Promote(s, id, sl), 0)
  {
    TotalsEntry(s, Promote(s, id, sl), id, 1, 0);
  }

  /** The new table without the slots of `id`. */
  ghost function Without(newTab: map<Slot, int>, id: int): map<Slot, int> {
    map sl | sl in newTab && newTab[sl] != id :: newTab[sl]
  }

  /** What moving an entry to the tried table comes to. Everybody keeps his record; the
      entry is at its tried slot and no other; the one it displaced, if any, is in the new
      table again with one reference; and at most one address is forgotten, the sole
      reference of which was the slot that the displaced one got. */
  ghost predicate MadeTried(k: Keyed, s: State, t: State, id: int) {
    id in s.info &&
    var sl := k.TriedSlot(s.info[id].service);
    && t.triedTab == s.triedTab[sl := id] && t.nTried == s.nTried + (if sl in s.triedTab then 0 else 1)
    && id in t.info && t.info[id].fInTried
    && (sl !in s.triedTab ==> t.newTab == Without(s.newTab, id))
    && (forall x :: x in t.info ==> x in s.info && SameRecord(s.info[x], t.info[x]))
    && (forall x :: x in t.info && t.info[x].fInTried ==> x == id || s.info[x].fInTried)
    && (sl !in s.triedTab ==> forall x :: x in s.info ==> x in t.info)
    && (sl in s.triedTab ==>
          var out := s.triedTab[sl];
          && out in s.info && out in t.info && !t.info[out].fInTried && t.info[out].nRefCount == 1
          && t.newTab == Without(s.newTab, id)[HomeSlot(k, s.info[out]) := out]
          && forall x :: x in s.info && x !in t.info ==>
              Holds(s, HomeSlot(k, s.info[out]), x) && s.info[x].nRefCount == 1)
  }

  lemma MakeTriedOutcome(k: Keyed, s: State, id: int)
    requires Linked(k, s, {}) && IsNew(s, id)
    ensures MadeTried(k, s, MakeTried(k, s, id), id)
  {
    hide Indexed, Placed, Evict, Evicted, MadeTried;
    var sl := k.TriedSlot(s.info[id].service);
    var u := Strip(s, id);
    StripLinked(k, s, id, {});
    assert {} + {id} == {id};
    OccupantOther(k, s, id, sl);
    EvictFrame(k, u, sl, {id});
    EvictLinked(k, u, sl, {id});
    LimboFacts(k, Evict(k, u, sl, {id}), {id}, id);
    EvictedMadeTried(k, s, u, Evict(k, u, sl, {id}), id, sl);
  }

  /** Whoever is in the tried table is not the new entry. */
  lemma OccupantOther(k: Keyed, s: State, id: int, sl: Slot)
    requires Linked(k, s, {}) && IsNew(s, id)
    ensures sl in s.triedTab ==> s.triedTab[sl] in s.info && s.triedTab[sl] != id
  {
    if sl in s.triedTab { TriedNotLimbo(k, s, sl, {}); }
  }

  lemma EvictedMadeTried(k: Keyed, s: State, u: State, v: State, id: int, sl: Slot)
    requires IsNew(s, id) && u == Strip(s, id) && Evicted(k, u, v, sl, {id}) && id in v.info
    requires sl == k.TriedSlot(s.info[id].service)
    requires sl in s.triedTab ==> s.triedTab[sl] in s.info && s.triedTab[sl] != id
    ensures MadeTried(k, s, Promote(v, id, sl), id)
  {
    hide Evicted, MadeTried, Strip;
    Stripped(s, id);
    EvictedParts(k, u, v, id, sl);
    MadeTriedParts(k, s, u, v, id, sl);
  }

  /** Eviction on behalf of `id`, which is in limbo, part by part. */
  lemma EvictedParts(k: Keyed, s: State, t: State, id: int, sl: Slot)
    requires Evicted(k, s, t, sl, {id})
    ensures EvictedTables(k, s, t, sl) && EvictedRecords(s, t, id) && EvictedHolder(k, s, t, sl)
  {
    assert id in {id};
  }

  ghost predicate EvictedTables(k: Keyed, s: State, t: State, sl: Slot) {
    && t.triedTab == s.triedTab - {sl} && t.nTried == s.nTried - (if sl in s.triedTab then 1 else 0)
    && (sl !in s.triedTab ==> t == s)
    && (sl in s.triedTab ==>
          s.triedTab[sl] in s.info && t.newTab == s.newTab[HomeSlot(k, s.info[s.triedTab[sl]]) := s.triedTab[sl]])
  }

  ghost predicate EvictedRecords(s: State, t: State, id: int) {
    && id in s.info && id in t.info && Alike(s.info[id], t.info[id])
    && (forall x :: x in t.info ==> x in s.info && SameRecord(s.info[x], t.info[x]))
    && (forall x :: x in t.info && t.info[x].fInTried ==> s.info[x].fInTried)
  }

  ghost predicate EvictedHolder(k: Keyed, s: State, t: State, sl: Slot) {
    sl in s.triedTab ==>
      var id := s.triedTab[sl];
      && id in s.info && id in t.info && !t.info[id].fInTried && t.info[id].nRefCount == 1
      && forall x :: x in s.info && x !in t.info ==> Holds(s, HomeSlot(k, s.info[id]), x) && s.info[x].nRefCount == 1
  }

  /** `u` is `s` without the slots of `id`. */
  ghost predicate StrippedOf(s: State, u: State, id: int) {
    && u.triedTab == s.triedTab && u.nTried == s.nTried && u.newTab == Without(s.newTab, id)
    && (forall x :: x in u.info <==> x in s.info) && (forall x :: x in s.info && x != id ==> u.info[x] == s.info[x])
    && (forall x :: x in u.info ==> SameRecord(s.info[x], u.info[x]) && u.info[x].fInTried == s.info[x].fInTried)
  }

  lemma MadeTriedParts(k: Keyed, s: State, u: State, v: State, id: int, sl: Slot)
    requires IsNew(s, id) && id in v.info && sl == k.TriedSlot(s.info[id].service) && StrippedOf(s, u, id)
    requires sl in s.triedTab ==> s.triedTab[sl] in s.info && s.triedTab[sl] != id
    requires EvictedTables(k, u, v, sl) && EvictedRecords(u, v, id) && EvictedHolder(k, u, v, sl)
    ensures MadeTried(k, s, Promote(v, id, sl), id)
  {
    hide Without, EvictedTables, EvictedRecords, EvictedHolder, StrippedOf, Promote, SameRecord, Holds;
    MadeTables(k, s, u, v, id, sl);
    MadeRecords(s, u, v, id, sl);
    MadeHolder(k, s, u, v, id, sl);
  }

  lemma MadeTables(k: Keyed, s: State, u: State, v: State, id: int, sl: Slot)
    requires id in s.info && id in v.info && StrippedOf(s, u, id) && EvictedTables(k, u, v, sl)
    requires sl in s.triedTab ==> s.triedTab[sl] in s.info && s.triedTab[sl] != id
    ensures var t := Promote(v, id, sl);
            && t.triedTab == s.triedTab[sl := id] && t.nTried == s.nTried + (if sl in s.triedTab then 0 else 1)
            && id in t.info && t.info[id].fInTried
            && (sl !in s.triedTab ==> t.newTab == Without(s.newTab, id))
            && (sl in s.triedTab ==>
                  t.newTab == Without(s.newTab, id)[HomeSlot(k, s.info[s.triedTab[sl]]) := s.triedTab[sl]])
            && (sl !in s.triedTab ==> forall x :: x in s.info ==> x in t.info)
  {
    hide Without, SameRecord;
  }

  lemma MadeRecords(s: State, u: State, v: State, id: int, sl: Slot)
    requires id in s.info && id in v.info && StrippedOf(s, u, id) && EvictedRecords(u, v, id)
    ensures var t := Promote(v, id, sl);
            && (forall x :: x in t.info ==> x in s.info && SameRecord(s.info[x], t.info[x]))
            && (forall x :: x in t.info && t.info[x].fInTried ==> x == id || s.info[x].fInTried)
  {
    hide Without;
  }

  lemma MadeHolder(k: Keyed, s: State, u: State, v: State, id: int, sl: Slot)
    requires id in s.info && id in v.info && StrippedOf(s, u, id) && EvictedHolder(k, u, v, sl)
    requires sl in s.triedTab ==> s.triedTab[sl] in s.info && s.triedTab[sl] != id
    ensures var t := Promote(v, id, sl);
            sl in s.triedTab ==>
              var out := s.triedTab[sl];
              && out in t.info && !t.info[out].fInTried && t.info[out].nRefCount == 1
              && forall x :: x in s.info && x !in t.info ==>
                   Holds(s, HomeSlot(k, s.info[out]), x) && s.info[x].nRefCount == 1
  {
    hide SameRecord;
  }

  lemma Stripped(s: State, id: int)
    requires id in s.info
    ensures StrippedOf(s, Strip(s, id), id)
  {
  }
}

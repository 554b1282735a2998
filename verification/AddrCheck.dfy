/** What the executable consistency check of src/addrman.cpp decides. */
module AddrCheck {
  import opened AddrState
  import opened AddrLemmas
  import opened AddrRuns

  /** What operator[] gives for an address: 0, which may be an id, when the key is missing. */
  function Lookup(addr: map<NetAddr, int>, ip: NetAddr): int {
    if ip in addr then addr[ip] else 0
  }

  /** ... and what it leaves behind. */
  function LookedUp(addr: map<NetAddr, int>, ip: NetAddr): map<NetAddr, int> {
    if ip in addr then addr else addr[ip := 0]
  }

  /** The tests that `Check_` makes of one entry. */
  predicate EntryOk(s: State, id: int) {
    id in s.info &&
    var e := s.info[id];
    && (e.fInTried ==> e.nLastSuccess != 0 && e.nRefCount == 0)
    && (!e.fInTried ==> 0 < e.nRefCount <= NEW_BUCKETS_PER_ADDRESS)
    && Lookup(s.addr, e.service.ip) == id
    && 0 <= e.nRandomPos < |s.random| && s.random[e.nRandomPos] == id
    && e.nLastTry >= 0 && e.nLastSuccess >= 0
  }

  /** The tests that it makes of one slot of the tried table. */
  predicate TriedOk(k: Keyed, s: State, sl: Slot) {
    sl in s.triedTab ==> IsTried(s, s.triedTab[sl]) && sl == k.TriedSlot(s.info[s.triedTab[sl]].service)
  }

  predicate NewOk(k: Keyed, s: State, sl: Slot) {
    sl in s.newTab ==>
      IsNew(s, s.newTab[sl]) && sl.bucket < NEW_BUCKET_COUNT && sl == k.NewSlot(s.info[s.newTab[sl]].service, sl.bucket)
  }

  /** All the tests together: entries, sizes, both tables, and the two ways in which the
      tables must exhaust the entries. */
  ghost predicate AllOk(k: Keyed, s: State) {
    && |s.random| == s.nTried + s.nNew
    && (forall id :: id in s.info ==> EntryOk(s, id))
    && Totalled(s, 0) && TablesOk(k, s)
  }

  /** The tests of the tables. */
  ghost predicate TablesOk(k: Keyed, s: State) {
    && (forall sl :: TriedOk(k, s, sl)) && (forall sl :: NewOk(k, s, sl))
    && (forall id :: IsTried(s, id) ==> TriedHome(k, s, id))
    && (forall id :: IsNew(s, id) ==> s.info[id].nRefCount == |SlotsOf(s.newTab, id)|)
  }

  /** `id` is in the tried table at its place. */
  predicate TriedHome(k: Keyed, s: State, id: int) {
    id in s.info && var sl := k.TriedSlot(s.info[id].service); sl in s.triedTab && s.triedTab[sl] == id
  }

  lemma {:induction false} SetOfSeq(q: seq<int>, ids: set<int>)
    requires ids <= (set x | x in q)
    ensures |ids| <= |q|
    ensures |ids| == |q| ==> ids == (set x | x in q) && forall i, j :: 0 <= i < j < |q| ==> q[i] != q[j]
  {
    if q == [] {
      assert (set x | x in q) == {};
    } else {
      var last := |q| - 1;
      var rest := q[..last];
      assert q == rest + [q[last]];
      assert (set x | x in q) == (set x | x in rest) + {q[last]};
      SetOfSeq(rest, ids - {q[last]});
      if |ids| == |q| {
        assert q[last] in ids;
        assert ids == (ids - {q[last]}) + {q[last]};
        forall i | 0 <= i < last ensures q[i] != q[last] {
          assert rest[i] in (set x | x in rest);
        }
        forall i, j | 0 <= i < j < |q| ensures q[i] != q[j] {
          if j < last { assert rest[i] != rest[j]; }
        }
      }
    }
  }

  /** `vRandom` lists every entry, and as it is no longer than their number, only once. */
  lemma RandomIds(k: Keyed, s: State)
    requires AllOk(k, s)
    ensures TriedIds(s) + NewIds(s) == set x | x in s.random
    ensures forall i, j :: 0 <= i < j < |s.random| ==> s.random[i] != s.random[j]
  {
    hide TriedOk, NewOk, TriedHome;
    var ids := TriedIds(s) + NewIds(s);
    BothCount(s);
    forall id ensures IsTried(s, id) || IsNew(s, id) ==> id in s.random {
      if IsTried(s, id) || IsNew(s, id) { assert EntryOk(s, id); }
    }
    assert |ids| == |s.random|;
    SetOfSeq(s.random, ids);
  }

  lemma OkEntry(k: Keyed, s: State, id: int)
    requires AllOk(k, s) && id in s.info
    ensures 0 <= s.info[id].nRandomPos < |s.random| && s.random[s.info[id].nRandomPos] == id
  {
    hide TablesOk;
    assert EntryOk(s, id);
  }

  /** Sizes make up for a test that is not made: that every place of `vRandom` is used. */
  lemma RandomComplete(k: Keyed, s: State)
    requires AllOk(k, s)
    ensures Shuffled(s)
  {
    hide AllOk;
    RandomIds(k, s);
    forall i | 0 <= i < |s.random|
      ensures var id := s.random[i]; id in s.info && s.info[id].nRandomPos == i
    {
      var id := s.random[i];
      assert id in (set x | x in s.random);
      assert id in TriedIds(s) || id in NewIds(s);
      OkEntry(k, s, id);
    }
    forall id | id in s.info
      ensures 0 <= s.info[id].nRandomPos < |s.random| && s.random[s.info[id].nRandomPos] == id
    {
      OkEntry(k, s, id);
    }
  }

  /** What `Check_` does not look at: keys of `mapAddr` without an entry, and the next id. */
  predicate Tidy(s: State) {
    && s.idCount >= 0
    && (forall id :: id in s.info ==> 0 <= id < s.idCount)
    && (forall ip :: ip in s.addr ==> var id := s.addr[ip]; id in s.info && s.info[id].service.ip == ip)
  }

  /** Looking up the entry with id 0 puts in its key, if it is missing, and finds it right. */
  function Repaired(s: State): State {
    if 0 in s.info then s.(addr := LookedUp(s.addr, s.info[0].service.ip)) else s
  }

  /** The tests and what they leave out decide the invariant, of the manager as the tests leave it. */
  lemma ChecksDecide(k: Keyed, s: State)
    ensures AllOk(k, s) && Tidy(s) <==> Inv(k, Repaired(s))
  {
    var t := Repaired(s);
    RepairedOk(k, s);
    RepairedIndexed(s);
    assert AllOk(k, s) && Tidy(s) ==> Indexed(t);
    hide Repaired, AllOk, Tidy;
    if AllOk(k, t) {
      RandomComplete(k, t);
      OkPlaced(k, t);
      OkCounted(k, t);
      OkStamped(k, t);
      OkTotalled(k, t);
      hide Shuffled, Indexed, TriedPlaced, NewPlaced, Counted, Stamped, Totalled;
    }
    if Inv(k, t) {
      InvIndex(k, t);
      InvOk(k, t);
    }
  }

  lemma InvIndex(k: Keyed, s: State)
    requires Inv(k, s)
    ensures Indexed(s)
  {
  }

  lemma OkTotalled(k: Keyed, s: State)
    requires AllOk(k, s)
    ensures Totalled(s, 0)
  {
  }

  lemma OkStamped(k: Keyed, s: State)
    requires AllOk(k, s)
    ensures Stamped(s)
  {
    forall id | id in s.info
      ensures s.info[id].nLastTry >= 0 && s.info[id].nLastSuccess >= 0
              && (s.info[id].fInTried ==> s.info[id].nLastSuccess != 0)
    {
      assert EntryOk(s, id);
    }
  }

  /** The other tests do not look into `mapAddr`. */
  lemma TablesSame(k: Keyed, s: State, t: State)
    requires t == s.(addr := t.addr)
    ensures TablesOk(k, t) <==> TablesOk(k, s)
    ensures Totalled(t, 0) <==> Totalled(s, 0)
  {
    assert TriedIds(t) == TriedIds(s) && NewIds(t) == NewIds(s);
    assert forall sl :: TriedOk(k, t, sl) <==> TriedOk(k, s, sl);
    assert forall sl :: NewOk(k, t, sl) <==> NewOk(k, s, sl);
    assert forall id :: TriedHome(k, t, id) <==> TriedHome(k, s, id);
    assert forall id :: IsTried(t, id) <==> IsTried(s, id);
    assert forall id :: IsNew(t, id) <==> IsNew(s, id);
    hide TriedOk, NewOk, TriedHome, IsTried, IsNew;
  }

  lemma RepairedOk(k: Keyed, s: State)
    ensures AllOk(k, Repaired(s)) <==> AllOk(k, s)
  {
    var t := Repaired(s);
    TablesSame(k, s, t);
    RepairedEntries(s);
    hide TablesOk, EntryOk, Totalled;
  }

  lemma RepairedEntries(s: State)
    ensures forall id :: EntryOk(Repaired(s), id) <==> EntryOk(s, id)
  {
    var t := Repaired(s);
    assert forall ip :: Lookup(t.addr, ip) == Lookup(s.addr, ip);
    hide Lookup, LookedUp;
  }

  lemma RepairedIndexed(s: State)
    ensures (forall id :: id in s.info ==> EntryOk(s, id)) && Tidy(s) ==> Indexed(Repaired(s))
    ensures Indexed(Repaired(s)) ==> Tidy(s)
  {
    if (forall id :: id in s.info ==> EntryOk(s, id)) && Tidy(s) { OkIndexed(s); }
    if Indexed(Repaired(s)) { IndexedFrom(s); }
  }

  lemma OkIndexed(s: State)
    requires (forall id :: id in s.info ==> EntryOk(s, id)) && Tidy(s)
    ensures Indexed(Repaired(s))
  {
    var t := Repaired(s);
    forall id | id in t.info
      ensures 0 <= id < t.idCount && t.info[id].service.ip in t.addr && t.addr[t.info[id].service.ip] == id
    {
      RepairedEntry(s, id);
    }
    RepairedKeys(s);
    hide EntryOk, Repaired;
  }

  lemma RepairedEntry(s: State, id: int)
    requires EntryOk(s, id) && Tidy(s)
    ensures var t := Repaired(s);
            && id in t.info && 0 <= id < t.idCount
            && t.info[id].service.ip in t.addr && t.addr[t.info[id].service.ip] == id
  {
  }

  lemma RepairedKeys(s: State)
    requires Tidy(s)
    ensures var t := Repaired(s);
            && t.idCount >= 0 && t.info == s.info
            && forall ip :: ip in t.addr ==> var id := t.addr[ip]; id in t.info && t.info[id].service.ip == ip
  {
  }

  lemma IndexedFrom(s: State)
    requires Indexed(Repaired(s))
    ensures Tidy(s)
  {
    var t := Repaired(s);
    forall ip | ip in s.addr ensures ip in t.addr && t.addr[ip] == s.addr[ip] {
    }
  }

  /** `addr` is what looking up addresses of entries makes of `mapAddr`. */
  ghost predicate Filled(s: State, addr: map<NetAddr, int>) {
    && (forall ip :: ip in s.addr ==> ip in addr && addr[ip] == s.addr[ip])
    && (forall ip :: ip in addr && ip !in s.addr ==> addr[ip] == 0 && HasAddress(s, ip))
  }

  predicate HasAddress(s: State, ip: NetAddr) {
    exists id :: id in s.info && s.info[id].service.ip == ip
  }

  lemma FilledStart(s: State)
    ensures Filled(s, s.addr)
  {
  }

  /** The sets do not depend on `mapAddr`. */
  lemma RepairedSets(s: State)
    ensures TriedIds(Repaired(s)) == TriedIds(s) && NewIds(Repaired(s)) == NewIds(s)
  {
  }

  lemma FilledMore(s: State, addr: map<NetAddr, int>, n: int)
    requires Filled(s, addr) && n in s.info
    ensures Filled(s, LookedUp(addr, s.info[n].service.ip))
    ensures EntryOk(s.(addr := addr), n) <==> EntryOk(s, n)
    ensures EntryOk(s, n) && n != 0 ==> LookedUp(addr, s.info[n].service.ip) == addr
  {
    var ip := s.info[n].service.ip;
    assert HasAddress(s, ip);
    assert Lookup(addr, ip) == Lookup(s.addr, ip);
  }

  lemma Smallest(ids: set<int>) returns (n: int)
    requires ids != {}
    ensures n in ids && forall m :: m in ids ==> n <= m
  {
    var one := Member(ids);
    n := one;
    if ids - {one} != {} {
      var m := Smallest(ids - {one});
      if m < one { n := m; }
    }
    forall m | m in ids ensures n <= m {
      if m != one { assert m in ids - {one}; }
    }
  }

  /** The entries that have been tested, when those in `todo` are still to come. */
  ghost function TriedDone(s: State, todo: set<int>): set<int> {
    set id | id in s.info && IsTried(s, id) && id !in todo
  }

  ghost function NewDone(s: State, todo: set<int>): set<int> {
    set id | id in s.info && IsNew(s, id) && id !in todo
  }

  lemma DoneNext(s: State, todo: set<int>, n: int)
    requires n in todo && n in s.info
    ensures TriedDone(s, todo - {n}) == TriedDone(s, todo) + (if IsTried(s, n) then {n} else {})
    ensures NewDone(s, todo - {n}) == NewDone(s, todo) + (if IsNew(s, n) then {n} else {})
  {
  }

  lemma DoneEnds(s: State)
    ensures TriedDone(s, s.info.Keys) == {} && NewDone(s, s.info.Keys) == {}
    ensures TriedDone(s, {}) == TriedIds(s) && NewDone(s, {}) == NewIds(s)
  {
  }

  /** A key without an entry passes all tests. */
  lemma StaleKeyPasses(k: Keyed, s: State, ip: NetAddr, id: int)
    requires Inv(k, s) && ip !in s.addr
    ensures var t := s.(addr := s.addr[ip := id]);
            AllOk(k, t) && !Indexed(t) && !Tidy(t)
  {
    hide Inv, AllOk, EntryOk, TablesOk, Totalled, Indexed, Tidy;
    InvOk(k, s);
    InvIndex(k, s);
    var t := s.(addr := s.addr[ip := id]);
    StaleKey(s, ip, id);
    forall x | x in t.info ensures EntryOk(t, x) {
      OkEntries(k, s, x);
      StaleEntry(s, ip, id, x);
    }
    TablesSame(k, s, t);
    AllOkFrom(k, s, t);
  }

  lemma OkEntries(k: Keyed, s: State, id: int)
    requires AllOk(k, s) && id in s.info
    ensures EntryOk(s, id)
  {
    hide TablesOk, EntryOk;
  }

  lemma AllOkFrom(k: Keyed, s: State, t: State)
    requires AllOk(k, s) && t == s.(addr := t.addr) && (TablesOk(k, t) <==> TablesOk(k, s))
    requires (Totalled(t, 0) <==> Totalled(s, 0)) && forall id :: id in t.info ==> EntryOk(t, id)
    ensures AllOk(k, t)
  {
    hide TablesOk, EntryOk, Totalled;
  }

  lemma StaleKey(s: State, ip: NetAddr, id: int)
    requires Indexed(s) && ip !in s.addr
    ensures var t := s.(addr := s.addr[ip := id]); !Indexed(t) && !Tidy(t)
  {
    assert s.addr[ip := id][ip] == id;
  }

  lemma StaleEntry(s: State, ip: NetAddr, id: int, x: int)
    requires Indexed(s) && ip !in s.addr && x in s.info && EntryOk(s, x)
    ensures EntryOk(s.(addr := s.addr[ip := id]), x)
  {
    assert s.info[x].service.ip in s.addr;
  }

  /** So does the entry with id 0 without its key, which the tests put in. */
  lemma MissingKeyPasses(k: Keyed, s: State)
    requires Inv(k, s) && 0 in s.info
    ensures var t := s.(addr := s.addr - {s.info[0].service.ip});
            AllOk(k, t) && !Indexed(t) && Repaired(t) == s
  {
    InvOk(k, s);
    InvIndex(k, s);
    hide Inv, AllOk;
    RepairedOk(k, s.(addr := s.addr - {s.info[0].service.ip}));
    RepairedBack(s);
  }

  lemma RepairedBack(s: State)
    requires Indexed(s) && 0 in s.info
    ensures var t := s.(addr := s.addr - {s.info[0].service.ip});
            Repaired(t) == s && !Indexed(t)
  {
    var ip := s.info[0].service.ip;
    var t := s.(addr := s.addr - {ip});
    assert ip in s.addr && s.addr[ip] == 0;
    assert ip !in t.addr && 0 in t.info && t.info[0].service.ip == ip;
    assert LookedUp(t.addr, ip) == s.addr;
  }

  lemma OkPlaced(k: Keyed, s: State)
    requires AllOk(k, s)
    ensures TriedPlaced(k, s) && NewPlaced(k, s)
  {
    forall sl | sl in s.triedTab
      ensures var id := s.triedTab[sl];
              id in s.info && s.info[id].fInTried && sl == k.TriedSlot(s.info[id].service)
    {
      assert TriedOk(k, s, sl);
    }
    forall id | id in s.info && s.info[id].fInTried
      ensures var sl := k.TriedSlot(s.info[id].service); sl in s.triedTab && s.triedTab[sl] == id
    {
      assert IsTried(s, id);
    }
    forall sl | sl in s.newTab ensures NewOk(k, s, sl) {
    }
  }

  lemma OkCounted(k: Keyed, s: State)
    requires AllOk(k, s)
    ensures Counted(s, {})
  {
    forall id | id in s.info
      ensures s.info[id].nRefCount == |SlotsOf(s.newTab, id)| <= NEW_BUCKETS_PER_ADDRESS
      ensures !s.info[id].fInTried ==> s.info[id].nRefCount > 0
    {
      assert EntryOk(s, id);
      if IsTried(s, id) {
        forall sl | sl in s.newTab ensures s.newTab[sl] != id {
          assert NewOk(k, s, sl);
        }
        assert SlotsOf(s.newTab, id) == {};
      } else {
        assert IsNew(s, id);
      }
    }
  }

  lemma InvOk(k: Keyed, s: State)
    requires Inv(k, s)
    ensures AllOk(k, s)
  {
    hide Indexed, Shuffled, TriedPlaced, NewPlaced, Counted, Stamped, EntryOk, Totalled, TablesOk;
    RandomSize(s);
    forall id | id in s.info ensures EntryOk(s, id) {
      InvEntryOk(k, s, id);
    }
    InvTables(k, s);
  }

  lemma InvTables(k: Keyed, s: State)
    requires Inv(k, s)
    ensures TablesOk(k, s)
  {
    InvTablesOk(k, s);
    hide Indexed, Shuffled, TriedPlaced, NewPlaced, Stamped, Totalled, TriedOk, NewOk, TriedHome;
  }

  lemma InvEntryOk(k: Keyed, s: State, id: int)
    requires Inv(k, s) && id in s.info
    ensures EntryOk(s, id)
  {
    if s.info[id].fInTried {
      forall sl | sl in s.newTab ensures s.newTab[sl] != id {
        var x := s.newTab[sl];
        assert x in s.info && !s.info[x].fInTried;
      }
      assert SlotsOf(s.newTab, id) == {};
    }
  }

  lemma InvTablesOk(k: Keyed, s: State)
    requires TriedPlaced(k, s) && NewPlaced(k, s)
    ensures (forall sl :: TriedOk(k, s, sl)) && (forall sl :: NewOk(k, s, sl))
    ensures forall id :: IsTried(s, id) ==> TriedHome(k, s, id)
  {
  }

  ghost function TriedBelow(s: State, n: int): set<int> {
    set id | id in s.info && IsTried(s, id) && id < n
  }

  ghost function NewBelow(s: State, n: int): set<int> {
    set id | id in s.info && IsNew(s, id) && id < n
  }

  lemma BelowNext(s: State, n: int)
    ensures TriedBelow(s, n + 1) == TriedBelow(s, n) + (if IsTried(s, n) then {n} else {})
    ensures NewBelow(s, n + 1) == NewBelow(s, n) + (if IsNew(s, n) then {n} else {})
  {
  }

  lemma BelowAll(s: State)
    requires forall id :: id in s.info ==> 0 <= id < s.idCount
    ensures TriedBelow(s, 0) == {} && NewBelow(s, 0) == {}
    ensures TriedBelow(s, s.idCount) == TriedIds(s) && NewBelow(s, s.idCount) == NewIds(s)
  {
    forall id ensures IsTried(s, id) || IsNew(s, id) ==> 0 <= id < s.idCount {
    }
  }

  // ------------------------------------------------- the scans over the tables

  /** Slot `sl` comes before place `i` of bucket `n`. */
  predicate Before(sl: Slot, n: nat, i: nat) {
    sl.bucket < n || (sl.bucket == n && sl.pos < i)
  }

  /** The part of a table that has been scanned. */
  ghost function ScannedPart(m: map<Slot, int>, n: nat, i: nat): map<Slot, int> {
    map sl | sl in m && Before(sl, n, i) :: m[sl]
  }

  /** The scan of the tried table is at place `i` of bucket `n`; `left` is what it has not
      come across. */
  ghost predicate TriedScan(k: Keyed, s: State, left: set<int>, n: nat, i: nat) {
    && (forall sl :: Before(sl, n, i) ==> TriedOk(k, s, sl))
    && (forall id :: id in left <==>
          IsTried(s, id) && !(TriedHome(k, s, id) && Before(k.TriedSlot(s.info[id].service), n, i)))
  }

  lemma TriedScanNext(k: Keyed, s: State, left: set<int>, n: nat, i: nat)
    requires TriedScan(k, s, left, n, i)
    ensures var sl := Slot(n, i);
            && (sl !in s.triedTab ==> TriedScan(k, s, left, n, i + 1))
            && (sl in s.triedTab && s.triedTab[sl] in left && s.triedTab[sl] in s.info
                && sl == k.TriedSlot(s.info[s.triedTab[sl]].service) ==>
                  TriedScan(k, s, left - {s.triedTab[sl]}, n, i + 1))
            && (sl in s.triedTab && s.triedTab[sl] !in left ==> !TriedOk(k, s, sl))
  {
  }

  lemma TriedScanRow(k: Keyed, s: State, left: set<int>, n: nat)
    requires TriedScan(k, s, left, n, BUCKET_SIZE)
    requires forall sl :: sl in s.triedTab ==> sl.pos < BUCKET_SIZE
    ensures TriedScan(k, s, left, n + 1, 0)
  {
    forall sl | Before(sl, n + 1, 0) ensures TriedOk(k, s, sl) {
      if sl in s.triedTab { assert Before(sl, n, BUCKET_SIZE); }
    }
  }

  lemma Member(ids: set<int>) returns (id: int)
    requires ids != {}
    ensures id in ids
  {
    if x :| x in ids {
      id := x;
    } else {
      id := 0;
      assert forall x :: x !in ids;
      assert false;
    }
  }

  lemma TriedScanEnd(k: Keyed, s: State, left: set<int>)
    requires TriedScan(k, s, left, TRIED_BUCKET_COUNT, 0)
    requires forall sl :: sl in s.triedTab ==> sl.bucket < TRIED_BUCKET_COUNT
    ensures forall sl :: TriedOk(k, s, sl)
    ensures left == {} <==> forall id :: IsTried(s, id) ==> TriedHome(k, s, id)
  {
    forall sl ensures TriedOk(k, s, sl) {
      if sl in s.triedTab { assert Before(sl, TRIED_BUCKET_COUNT, 0); }
    }
    if forall id :: IsTried(s, id) ==> TriedHome(k, s, id) {
      if left != {} {
        var id := Member(left);
        assert IsTried(s, id);
      }
    }
  }

  lemma TriedScanStart(k: Keyed, s: State)
    ensures TriedScan(k, s, TriedIds(s), 0, 0)
  {
  }

  /** The scan of the new table is at place `i` of bucket `n`; `left` gives the references
      it has not come across, for the entries that have some. */
  ghost predicate NewScan(k: Keyed, s: State, left: map<int, int>, n: nat, i: nat) {
    && (forall sl :: Before(sl, n, i) ==> NewOk(k, s, sl))
    && (forall id :: IsNew(s, id) ==> |SlotsOf(ScannedPart(s.newTab, n, i), id)| <= s.info[id].nRefCount)
    && (forall id :: id in left <==>
          IsNew(s, id) && |SlotsOf(ScannedPart(s.newTab, n, i), id)| < s.info[id].nRefCount)
    && (forall id :: id in left ==> left[id] == s.info[id].nRefCount - |SlotsOf(ScannedPart(s.newTab, n, i), id)|)
  }

  lemma ScannedNext(m: map<Slot, int>, n: nat, i: nat)
    ensures var sl := Slot(n, i);
            ScannedPart(m, n, i + 1) == if sl in m then ScannedPart(m, n, i)[sl := m[sl]] else ScannedPart(m, n, i)
  {
    var sl := Slot(n, i);
    forall x: Slot ensures Before(x, n, i + 1) <==> Before(x, n, i) || x == sl {
    }
  }

  lemma NewScanEmpty(k: Keyed, s: State, left: map<int, int>, n: nat, i: nat)
    requires NewScan(k, s, left, n, i) && Slot(n, i) !in s.newTab
    ensures NewScan(k, s, left, n, i + 1)
  {
    ScannedNext(s.newTab, n, i);
  }

  lemma ScannedCount(m: map<Slot, int>, n: nat, i: nat, id: int)
    requires Slot(n, i) in m
    ensures |SlotsOf(ScannedPart(m, n, i + 1), id)|
         == |SlotsOf(ScannedPart(m, n, i), id)| + (if m[Slot(n, i)] == id then 1 else 0)
  {
    ScannedNext(m, n, i);
    SlotsWith(ScannedPart(m, n, i), Slot(n, i), id, m[Slot(n, i)]);
  }

  /** Takes one reference off `left`, and the entry with it when that was the last one. */
  function TakeOne(left: map<int, int>, id: int): map<int, int>
    requires id in left
  {
    if left[id] == 1 then left - {id} else left[id := left[id] - 1]
  }

  lemma NewScanNext(k: Keyed, s: State, left: map<int, int>, n: nat, i: nat)
    requires NewScan(k, s, left, n, i) && Slot(n, i) in s.newTab && s.newTab[Slot(n, i)] in left
    requires NewOk(k, s, Slot(n, i))
    ensures NewScan(k, s, TakeOne(left, s.newTab[Slot(n, i)]), n, i + 1)
  {
    forall id ensures |SlotsOf(ScannedPart(s.newTab, n, i + 1), id)|
                   == |SlotsOf(ScannedPart(s.newTab, n, i), id)| + (if s.newTab[Slot(n, i)] == id then 1 else 0)
    {
      ScannedCount(s.newTab, n, i, id);
    }
    hide ScannedPart, SlotsOf;
    forall sl | Before(sl, n, i + 1) ensures NewOk(k, s, sl) {
      assert Before(sl, n, i) || sl == Slot(n, i);
    }
  }

  /** A slot whose holder has no reference left shows that the counts are wrong. */
  lemma NewScanStuck(k: Keyed, s: State, left: map<int, int>, n: nat, i: nat)
    requires NewScan(k, s, left, n, i) && Slot(n, i) in s.newTab && s.newTab[Slot(n, i)] !in left
    ensures !AllOk(k, s)
  {
    var sl := Slot(n, i);
    var id := s.newTab[sl];
    if IsNew(s, id) {
      ScannedCount(s.newTab, n, i, id);
      SubsetCount(SlotsOf(ScannedPart(s.newTab, n, i + 1), id), SlotsOf(s.newTab, id));
    } else {
      assert !NewOk(k, s, sl);
    }
  }

  lemma SubsetCount(a: set<Slot>, b: set<Slot>)
    requires a <= b
    ensures |a| <= |b|
  {
    assert b == a + (b - a);
  }

  lemma NewScanRow(k: Keyed, s: State, left: map<int, int>, n: nat)
    requires NewScan(k, s, left, n, BUCKET_SIZE)
    requires forall sl :: sl in s.newTab ==> sl.pos < BUCKET_SIZE
    ensures NewScan(k, s, left, n + 1, 0)
  {
    assert ScannedPart(s.newTab, n + 1, 0) == ScannedPart(s.newTab, n, BUCKET_SIZE);
    forall sl | Before(sl, n + 1, 0) ensures NewOk(k, s, sl) {
      if sl in s.newTab { assert Before(sl, n, BUCKET_SIZE); }
    }
  }

  lemma NewScanStart(k: Keyed, s: State, left: map<int, int>)
    requires forall id :: id in left <==> IsNew(s, id)
    requires forall id :: id in left ==> id in s.info && left[id] == s.info[id].nRefCount && left[id] > 0
    ensures NewScan(k, s, left, 0, 0)
  {
    assert ScannedPart(s.newTab, 0, 0) == map[];
    forall id ensures SlotsOf(ScannedPart(s.newTab, 0, 0), id) == {} {
    }
  }

  lemma NewScanEnd(k: Keyed, s: State, left: map<int, int>)
    requires NewScan(k, s, left, NEW_BUCKET_COUNT, 0)
    requires forall sl :: sl in s.newTab ==> sl.bucket < NEW_BUCKET_COUNT
    ensures forall sl :: NewOk(k, s, sl)
    ensures left.Keys == {} <==> forall id :: IsNew(s, id) ==> s.info[id].nRefCount == |SlotsOf(s.newTab, id)|
  {
    forall sl ensures NewOk(k, s, sl) {
      if sl in s.newTab { assert Before(sl, NEW_BUCKET_COUNT, 0); }
    }
    assert ScannedPart(s.newTab, NEW_BUCKET_COUNT, 0) == s.newTab;
    if forall id :: IsNew(s, id) ==> s.info[id].nRefCount == |SlotsOf(s.newTab, id)| {
      if left.Keys != {} {
        var id := Member(left.Keys);
        assert id in left && IsNew(s, id);
      }
    }
  }

  /** The tables are in order exactly when nothing is left over after all buckets. */
  lemma ScansDecide(k: Keyed, s: State, tried: set<int>, news: map<int, int>)
    requires TriedScan(k, s, tried, TRIED_BUCKET_COUNT, 0) && NewScan(k, s, news, NEW_BUCKET_COUNT, 0)
    requires forall sl :: sl in s.triedTab ==> sl.bucket < TRIED_BUCKET_COUNT
    requires forall sl :: sl in s.newTab ==> sl.bucket < NEW_BUCKET_COUNT
    ensures tried == {} && news.Keys == {} <==> TablesOk(k, s)
  {
    hide TriedScan, NewScan, TriedOk, NewOk, TriedHome;
    TriedScanEnd(k, s, tried);
    NewScanEnd(k, s, news);
  }

  /** An id that the scan has yet to come across is a tried one. */
  lemma LeftTried(k: Keyed, s: State, left: set<int>, n: nat, i: nat, id: int)
    requires TriedScan(k, s, left, n, i) && id in left
    ensures IsTried(s, id)
  {
  }

  lemma LeftNew(k: Keyed, s: State, left: map<int, int>, n: nat, i: nat, id: int)
    requires NewScan(k, s, left, n, i) && id in left
    ensures IsNew(s, id)
  {
  }

  lemma EntriesCounted(s: State, left: map<int, int>)
    requires left.Keys == NewIds(s)
    requires forall id :: id in left ==> id in s.info && left[id] == s.info[id].nRefCount
    requires forall id :: id in s.info ==> EntryOk(s, id)
    ensures forall id :: id in left <==> IsNew(s, id)
    ensures forall id :: id in left ==> left[id] > 0
  {
    forall id ensures id in left <==> IsNew(s, id) {
      assert id in left.Keys <==> id in NewIds(s);
    }
    forall id | id in left ensures left[id] > 0 {
      assert IsNew(s, id) && EntryOk(s, id);
    }
  }
}

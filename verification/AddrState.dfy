/** The value of an address manager (src/addrman.h, CAddrInfo and CAddrMan), its
    consistency invariant, and one function per operation of src/addrman.cpp.
    Nothing here is executed in place: AddrMan.dfy holds the class whose methods
    update fields and are proved against these functions. */
module AddrState {
  import opened Wrappers

  const TRIED_BUCKET_COUNT: nat := 256
  const NEW_BUCKET_COUNT: nat := 1024
  const BUCKET_SIZE: nat := 64
  const NEW_BUCKETS_PER_ADDRESS: nat := 8
  const HORIZON_DAYS: nat := 30
  const RETRIES: nat := 3
  const MAX_FAILURES: nat := 10
  const MIN_FAIL_DAYS: nat := 7

  /** A network address: sixteen bytes, as a number. `mapAddr` is keyed by it. */
  type NetAddr = nat

  /** CService: a network address and a port. */
  datatype Service = Service(ip: NetAddr, port: nat)

  /** CAddress: a service with the services it offers, as the set of bits that are on,
      and the time it was seen. */
  datatype Address = Address(service: Service, nServices: set<nat>, nTime: nat)

  datatype AddrInfo = AddrInfo(
    service: Service, nServices: set<nat>, nTime: nat, source: NetAddr,
    nLastTry: int, nLastSuccess: int, nAttempts: int,
    nRefCount: int, fInTried: bool, nRandomPos: int)
  {
    predicate IsTerrible(now: int) {
      if nLastTry != 0 && nLastTry >= now - 60 then false
      else if nTime > now + 10 * 60 then true
      else if nTime == 0 || now - nTime > HORIZON_DAYS * 24 * 60 * 60 then true
      else if nLastSuccess == 0 && nAttempts >= RETRIES then true
      else now - nLastSuccess > MIN_FAIL_DAYS * 24 * 60 * 60 && nAttempts >= MAX_FAILURES
    }
  }

  datatype Slot = Slot(bucket: nat, pos: nat)

  /** The three salted hashes, and which addresses are routable. They are not interpreted:
      every result below holds whatever they compute. The code reduces each hash to its
      table's range. */
  datatype Hashes = Hashes(
    tried: (nat, Service) -> nat,
    newBucket: (nat, NetAddr, NetAddr) -> nat,
    position: (nat, bool, nat, Service) -> nat,
    routable: NetAddr -> bool)

  /** The hashes under one secret key. */
  datatype Keyed = Keyed(hashes: Hashes, key: nat) {
    function Position(fNew: bool, bucket: nat, a: Service): nat {
      hashes.position(key, fNew, bucket, a) % BUCKET_SIZE
    }

    function TriedSlot(a: Service): Slot {
      var b := hashes.tried(key, a) % TRIED_BUCKET_COUNT;
      Slot(b, Position(false, b, a))
    }

    function NewBucket(a: Service, source: NetAddr): nat {
      hashes.newBucket(key, a.ip, source) % NEW_BUCKET_COUNT
    }

    function NewSlot(a: Service, bucket: nat): Slot {
      Slot(bucket, Position(true, bucket, a))
    }
  }

  /** The tables hold only their occupied slots: an absent slot is the code's -1. */
  datatype State = State(
    info: map<int, AddrInfo>, addr: map<NetAddr, int>, random: seq<int>,
    triedTab: map<Slot, int>, newTab: map<Slot, int>,
    nTried: int, nNew: int, idCount: int)

  const EMPTY: State := State(map[], map[], [], map[], map[], 0, 0, 0)

  // ---------------------------------------------------------------- invariant

  /** `mapInfo` and `mapAddr` are inverse to each other, and ids are below the next id. */
  ghost predicate Indexed(s: State) {
    && s.idCount >= 0
    && (forall id :: id in s.info ==>
          0 <= id < s.idCount && s.info[id].service.ip in s.addr && s.addr[s.info[id].service.ip] == id)
    && (forall ip :: ip in s.addr ==>
          var id := s.addr[ip]; id in s.info && s.info[id].service.ip == ip)
  }

  /** `nRandomPos` inverts `vRandom`. */
  ghost predicate Shuffled(s: State) {
    && (forall id :: id in s.info ==>
          0 <= s.info[id].nRandomPos < |s.random| && s.random[s.info[id].nRandomPos] == id)
    && (forall i :: 0 <= i < |s.random| ==>
          var id := s.random[i]; id in s.info && s.info[id].nRandomPos == i)
  }

  /** The tried table holds exactly the entries marked tried, each at its hash position. */
  ghost predicate TriedPlaced(k: Keyed, s: State) {
    && (forall sl :: sl in s.triedTab ==>
          var id := s.triedTab[sl];
          id in s.info && s.info[id].fInTried && sl == k.TriedSlot(s.info[id].service))
    && (forall id :: id in s.info && s.info[id].fInTried ==>
          var sl := k.TriedSlot(s.info[id].service); sl in s.triedTab && s.triedTab[sl] == id)
  }

  /** The new table holds only entries that are not tried, each at its hash position. */
  ghost predicate NewPlaced(k: Keyed, s: State) {
    forall sl :: sl in s.newTab ==>
      var id := s.newTab[sl];
      && id in s.info && !s.info[id].fInTried
      && sl.bucket < NEW_BUCKET_COUNT && sl == k.NewSlot(s.info[id].service, sl.bucket)
  }

  /** The slots of the new table that hold `id`. */
  ghost function SlotsOf(newTab: map<Slot, int>, id: int): set<Slot> {
    set sl | sl in newTab && newTab[sl] == id
  }

  /** Reference counts count slots; every entry is somewhere, except those in `limbo`,
      which an operation has taken out of both tables and not yet put back. */
  ghost predicate Counted(s: State, limbo: set<int>) {
    && (forall id :: id in limbo ==> id in s.info)
    && forall id :: id in s.info ==>
         && s.info[id].nRefCount == |SlotsOf(s.newTab, id)| <= NEW_BUCKETS_PER_ADDRESS
         && (id in limbo ==> s.info[id].nRefCount == 0 && !s.info[id].fInTried)
         && (id !in limbo && !s.info[id].fInTried ==> s.info[id].nRefCount > 0)
  }

  predicate IsTried(s: State, id: int) {
    id in s.info && s.info[id].fInTried
  }

  predicate IsNew(s: State, id: int) {
    id in s.info && !s.info[id].fInTried
  }

  ghost function TriedIds(s: State): set<int> {
    set id | id in s.info && IsTried(s, id)
  }

  ghost function NewIds(s: State): set<int> {
    set id | id in s.info && IsNew(s, id)
  }

  /** The counters, when `owed` entries in limbo are not counted as new. */
  ghost predicate Totalled(s: State, owed: int) {
    && s.nTried == |TriedIds(s)|
    && s.nNew == |NewIds(s)| - owed
  }

  /** Time stamps that `Check_` insists on. */
  ghost predicate Stamped(s: State) {
    forall id :: id in s.info ==>
      && s.info[id].nLastTry >= 0 && s.info[id].nLastSuccess >= 0
      && (s.info[id].fInTried ==> s.info[id].nLastSuccess != 0)
  }

  /** All that does not depend on `mapAddr`, but for the counters and time stamps. */
  ghost predicate Placed(k: Keyed, s: State, limbo: set<int>) {
    Shuffled(s) && TriedPlaced(k, s) && NewPlaced(k, s) && Counted(s, limbo)
  }

  /** Everything but the counters and time stamps. */
  ghost predicate Linked(k: Keyed, s: State, limbo: set<int>) {
    Indexed(s) && Placed(k, s, limbo)
  }

  ghost predicate Structure(k: Keyed, s: State) {
    Linked(k, s, {}) && Totalled(s, 0)
  }

  /** What `Check_` checks. */
  ghost predicate Inv(k: Keyed, s: State) {
    Structure(k, s) && Stamped(s)
  }

  // --------------------------------------------------------------- operations

  function Find(s: State, ip: NetAddr): Option<int> {
    if ip in s.addr && s.addr[ip] in s.info then Some(s.addr[ip]) else None
  }

  function Create(s: State, a: Address, source: NetAddr): State {
    var id := s.idCount;
    s.(info := s.info[id := AddrInfo(a.service, a.nServices, a.nTime, source, 0, 0, 0, 0, false, |s.random|)],
       addr := s.addr[a.service.ip := id],
       random := s.random + [id],
       idCount := id + 1)
  }

  function MoveTo(s: State, id: int, pos: nat): State
    requires id in s.info
  {
    s.(info := s.info[id := s.info[id].(nRandomPos := pos)])
  }

  function Swap(s: State, i: nat, j: nat): State
    requires i < |s.random| && j < |s.random|
    requires s.random[i] in s.info && s.random[j] in s.info
  {
    if i == j then s else
    var a, b := s.random[i], s.random[j];
    MoveTo(MoveTo(s, a, j), b, i).(random := s.random[i := b][j := a])
  }

  /** Forgets the entry at the end of `vRandom`. */
  function Forget(s: State): State
    requires Shuffled(s) && |s.random| > 0
  {
    var id := s.random[|s.random| - 1];
    s.(random := s.random[..|s.random| - 1],
       addr := s.addr - {s.info[id].service.ip},
       info := s.info - {id},
       nNew := s.nNew - 1)
  }

  /** Takes an id that is in neither table out of the manager. */
  function Delete(s: State, id: int): State
    requires Shuffled(s) && id in s.info
  {
    SwapShuffled(s, s.info[id].nRandomPos, |s.random| - 1);
    Forget(Swap(s, s.info[id].nRandomPos, |s.random| - 1))
  }

  lemma SwapShuffled(s: State, i: nat, j: nat)
    requires Shuffled(s) && i < |s.random| && j < |s.random|
    ensures Shuffled(Swap(s, i, j))
  {
  }

  /** Changing an entry's position-independent fields leaves `vRandom` in order. */
  lemma UpdateShuffled(s: State, id: int, e: AddrInfo)
    requires Shuffled(s) && id in s.info && e.nRandomPos == s.info[id].nRandomPos
    ensures Shuffled(s.(info := s.info[id := e]))
  {
  }

  function Drop(s: State, sl: Slot): State
    requires sl in s.newTab && s.newTab[sl] in s.info
  {
    var id := s.newTab[sl];
    s.(info := s.info[id := s.info[id].(nRefCount := s.info[id].nRefCount - 1)], newTab := s.newTab - {sl})
  }

  function ClearNew(s: State, sl: Slot): State
    requires Shuffled(s) && (sl in s.newTab ==> s.newTab[sl] in s.info)
  {
    if sl !in s.newTab then s else
    var id := s.newTab[sl];
    var t := Drop(s, sl);
    assert Shuffled(t) by { UpdateShuffled(s, id, t.info[id]); }
    if t.info[id].nRefCount == 0 then Delete(t, id) else t
  }

  /** Puts `id` into an empty new slot. */
  function Enter(s: State, id: int, sl: Slot): State
    requires id in s.info
  {
    s.(info := s.info[id := s.info[id].(nRefCount := s.info[id].nRefCount + 1)], newTab := s.newTab[sl := id])
  }

  /** Removes `id` from every new bucket. */
  function Strip(s: State, id: int): State
    requires id in s.info
  {
    s.(info := s.info[id := s.info[id].(nRefCount := 0)],
       newTab := map sl | sl in s.newTab && s.newTab[sl] != id :: s.newTab[sl],
       nNew := s.nNew - 1)
  }

  /** Takes the entry in tried slot `sl` out of the tried table. */
  function Untry(s: State, sl: Slot): State
    requires sl in s.triedTab && s.triedTab[sl] in s.info
  {
    var id := s.triedTab[sl];
    s.(info := s.info[id := s.info[id].(fInTried := false)], triedTab := s.triedTab - {sl}, nTried := s.nTried - 1)
  }

  function Promote(s: State, id: int, sl: Slot): State
    requires id in s.info
  {
    s.(info := s.info[id := s.info[id].(fInTried := true)], triedTab := s.triedTab[sl := id], nTried := s.nTried + 1)
  }
}

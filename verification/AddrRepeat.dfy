/** What loading keeps of a file whose table cannot be used, said of the records that are read, and
    so for which of these files `mapAddr` is right. */
module AddrRepeat {
  import opened AddrFile
  import opened AddrState

  /** The slot at which a new record is tried. */
  function Home(k: Keyed, r: Record): Slot {
    k.NewSlot(r.service, k.NewBucket(r.service, r.source))
  }

  predicate FirstHome(k: Keyed, recs: seq<Record>, i: nat) {
    i < |recs| && forall j :: 0 <= j < i ==> Home(k, recs[j]) != Home(k, recs[i])
  }

  predicate FirstTried(k: Keyed, recs: seq<Record>, i: nat) {
    i < |recs| && forall j :: 0 <= j < i ==> k.TriedSlot(recs[j].service) != k.TriedSlot(recs[i].service)
  }

  // ----------------------------------------------------------------- new records

  predicate HomeTaken(k: Keyed, recs: seq<Record>, sl: Slot) {
    exists j :: 0 <= j < |recs| && Home(k, recs[j]) == sl
  }

  /** The entries of new records: a record is placed exactly when no earlier one has its slot. */
  ghost predicate NewsLoaded(k: Keyed, s: State, recs: seq<Record>) {
    && s.idCount == |recs| && s.triedTab == map[]
    && (forall id :: id in s.info <==> 0 <= id < |recs|)
    && (forall id :: 0 <= id < |recs| ==> s.info[id].service == recs[id].service && !s.info[id].fInTried)
    && (forall id :: 0 <= id < |recs| ==> (IsLoose(s, id) <==> !FirstHome(k, recs, id)))
    && (forall sl :: sl in s.newTab <==> HomeTaken(k, recs, sl))
  }

  lemma {:induction false} NewsPlaced(k: Keyed, recs: seq<Record>)
    ensures NewsLoaded(k, LoadNews(k, recs, true), recs)
  {
    hide NewsLoaded, LoadNew;
    if recs == [] {
      NoNews(k);
    } else {
      var n := |recs| - 1;
      NewsPlaced(k, recs[..n]);
      assert recs[..n] + [recs[n]] == recs;
      NextPlaced(k, LoadNews(k, recs[..n], true), recs[..n], recs[n]);
    }
  }

  lemma NoNews(k: Keyed)
    ensures NewsLoaded(k, EMPTY, [])
  {
  }

  lemma NextPlaced(k: Keyed, s: State, recs: seq<Record>, r: Record)
    requires NewsLoaded(k, s, recs)
    ensures NewsLoaded(k, LoadNew(k, s, r, true), recs + [r])
  {
    hide LoadNew, FirstHome, HomeTaken, Home;
    NextEntry(k, s, r);
    HomesMore(k, recs, r);
  }

  lemma HomesMore(k: Keyed, recs: seq<Record>, r: Record)
    ensures var all := recs + [r];
            && (forall i :: 0 <= i < |recs| ==> (FirstHome(k, all, i) <==> FirstHome(k, recs, i)))
            && (FirstHome(k, all, |recs|) <==> !HomeTaken(k, recs, Home(k, r)))
            && (forall sl :: HomeTaken(k, all, sl) <==> HomeTaken(k, recs, sl) || sl == Home(k, r))
  {
    hide Home;
    var all := recs + [r];
    assert all[|recs|] == r;
    assert forall i :: 0 <= i < |recs| ==> all[i] == recs[i];
    forall sl ensures HomeTaken(k, all, sl) <==> HomeTaken(k, recs, sl) || sl == Home(k, r) {
      HomeMore(k, recs, r, sl);
    }
  }

  lemma HomeMore(k: Keyed, recs: seq<Record>, r: Record, sl: Slot)
    ensures HomeTaken(k, recs + [r], sl) <==> HomeTaken(k, recs, sl) || sl == Home(k, r)
  {
    hide Home;
    var all := recs + [r];
    if sl == Home(k, r) { assert Home(k, all[|recs|]) == sl; }
    if HomeTaken(k, recs, sl) {
      var j :| 0 <= j < |recs| && Home(k, recs[j]) == sl;
      assert all[j] == recs[j];
    }
  }

  lemma NextEntry(k: Keyed, s: State, r: Record)
    requires forall id :: id in s.info <==> 0 <= id < s.idCount
    ensures var t := LoadNew(k, s, r, true);
            && t.idCount == s.idCount + 1 && t.triedTab == s.triedTab
            && (forall id :: id in t.info <==> id in s.info || id == s.idCount)
            && (forall id :: id in s.info ==> t.info[id] == s.info[id])
            && t.info[s.idCount].service == r.service && !t.info[s.idCount].fInTried
            && (IsLoose(t, s.idCount) <==> Home(k, r) in s.newTab)
            && (forall sl :: sl in t.newTab <==> sl in s.newTab || sl == Home(k, r))
  {
  }

  // --------------------------------------------------------------- tried records

  /** The places of the tried records that are kept. */
  function KeptTried(k: Keyed, recs: seq<Record>): (ids: seq<nat>)
    ensures forall x :: 0 <= x < |ids| ==> ids[x] < |recs|
    ensures forall x, y :: 0 <= x < y < |ids| ==> ids[x] < ids[y]
  {
    if recs == [] then [] else
      var n := |recs| - 1;
      KeptTried(k, recs[..n]) + if FirstTried(k, recs, n) then [n] else []
  }

  lemma {:induction false} KeptAre(k: Keyed, recs: seq<Record>, i: nat)
    ensures i in KeptTried(k, recs) <==> FirstTried(k, recs, i)
  {
    if recs != [] {
      var n := |recs| - 1;
      KeptAre(k, recs[..n], i);
      PrefixTried(k, recs, n, i);
      hide FirstTried;
      var kept := KeptTried(k, recs[..n]);
      assert i in KeptTried(k, recs) <==> i in kept || (i == n && FirstTried(k, recs, n));
    } else {
      assert !FirstTried(k, recs, i);
    }
  }

  lemma PrefixTried(k: Keyed, recs: seq<Record>, n: nat, i: nat)
    requires n <= |recs|
    ensures FirstTried(k, recs[..n], i) <==> i < n && FirstTried(k, recs, i)
    ensures i >= |recs| ==> !FirstTried(k, recs, i)
  {
    assert forall j :: 0 <= j < n ==> recs[..n][j] == recs[j];
  }

  predicate SlotTried(k: Keyed, recs: seq<Record>, sl: Slot) {
    exists j :: 0 <= j < |recs| && k.TriedSlot(recs[j].service) == sl
  }

  /** `t` is `s` with an entry for each tried record whose slot no earlier one has. */
  ghost predicate TriedsLoaded(k: Keyed, s: State, t: State, recs: seq<Record>) {
    var kept := KeptTried(k, recs);
    && t.idCount == s.idCount + |kept|
    && (forall id :: id in t.info <==> id in s.info || s.idCount <= id < s.idCount + |kept|)
    && (forall id :: id in s.info ==> t.info[id] == s.info[id])
    && (forall x :: s.idCount <= x < s.idCount + |kept| ==>
          t.info[x].fInTried && t.info[x].service == recs[kept[x - s.idCount]].service)
    && (forall sl :: sl in t.triedTab <==> SlotTried(k, recs, sl))
  }

  lemma {:induction false} TriedsPlaced(k: Keyed, s: State, recs: seq<Record>)
    requires s.triedTab == map[] && forall id :: id in s.info ==> id < s.idCount
    ensures TriedsLoaded(k, s, LoadTrieds(k, s, recs), recs)
  {
    hide TriedsLoaded, LoadTried;
    if recs == [] {
      NoTrieds(k, s);
    } else {
      var n := |recs| - 1;
      TriedsPlaced(k, s, recs[..n]);
      assert recs[..n] + [recs[n]] == recs;
      NextTried(k, s, LoadTrieds(k, s, recs[..n]), recs[..n], recs[n]);
    }
  }

  lemma NoTrieds(k: Keyed, s: State)
    requires s.triedTab == map[]
    ensures TriedsLoaded(k, s, s, [])
  {
  }

  lemma TriedEntry(k: Keyed, t: State, r: Record)
    ensures var u := LoadTried(k, t, r);
            if k.TriedSlot(r.service) in t.triedTab then u == t else
              && u.idCount == t.idCount + 1
              && (forall id :: id in u.info <==> id in t.info || id == t.idCount)
              && (forall id :: id in t.info && id != t.idCount ==> u.info[id] == t.info[id])
              && u.info[t.idCount].fInTried && u.info[t.idCount].service == r.service
              && (forall sl :: sl in u.triedTab <==> sl in t.triedTab || sl == k.TriedSlot(r.service))
  {
  }

  lemma NextTried(k: Keyed, s: State, t: State, recs: seq<Record>, r: Record)
    requires TriedsLoaded(k, s, t, recs) && forall id :: id in s.info ==> id < s.idCount
    ensures TriedsLoaded(k, s, LoadTried(k, t, r), recs + [r])
  {
    TriedEntry(k, t, r);
    hide LoadTried, FirstTried, KeptTried, SlotTried;
    TriedsMore(k, recs, r);
  }

  lemma TriedsMore(k: Keyed, recs: seq<Record>, r: Record)
    ensures var all, sl := recs + [r], k.TriedSlot(r.service);
            && KeptTried(k, all) == KeptTried(k, recs) + (if SlotTried(k, recs, sl) then [] else [|recs|])
            && (forall sl :: SlotTried(k, all, sl) <==> SlotTried(k, recs, sl) || sl == k.TriedSlot(r.service))
  {
    var all := recs + [r];
    assert all[..|recs|] == recs && all[|recs|] == r;
    assert FirstTried(k, all, |recs|) <==> !SlotTried(k, recs, k.TriedSlot(r.service)) by {
      assert forall i :: 0 <= i < |recs| ==> all[i] == recs[i];
    }
    forall sl ensures SlotTried(k, all, sl) <==> SlotTried(k, recs, sl) || sl == k.TriedSlot(r.service) {
      SlotMore(k, recs, r, sl);
    }
  }

  lemma SlotMore(k: Keyed, recs: seq<Record>, r: Record, sl: Slot)
    ensures SlotTried(k, recs + [r], sl) <==> SlotTried(k, recs, sl) || sl == k.TriedSlot(r.service)
  {
    var all := recs + [r];
    if sl == k.TriedSlot(r.service) { assert k.TriedSlot(all[|recs|].service) == sl; }
    if SlotTried(k, recs, sl) {
      var j :| 0 <= j < |recs| && k.TriedSlot(recs[j].service) == sl;
      assert all[j] == recs[j];
    }
  }

  // ------------------------------------------------------------------- the result

  lemma {:induction false} BucketUnused(k: Keyed, s: State, nNew: int, bucket: nat, idxs: seq<int>)
    ensures LoadBucket(k, s, nNew, bucket, idxs, false) == s
  {
    if idxs != [] { BucketUnused(k, s, nNew, bucket, idxs[..|idxs| - 1]); }
  }

  lemma {:induction false} TableUnused(k: Keyed, s: State, nNew: int, buckets: seq<seq<int>>)
    ensures LoadBuckets(k, s, nNew, buckets, false) == s
  {
    if buckets != [] {
      var n := |buckets| - 1;
      TableUnused(k, s, nNew, buckets[..n]);
      BucketUnused(k, s, nNew, n, buckets[n]);
    }
  }

  function Ip(r: Record): NetAddr {
    r.service.ip
  }

  /** No record that is kept has its address in common with another that gets an entry: all new
      ones do, and the first tried one of each slot. */
  predicate RecordsUnshared(k: Keyed, f: File) {
    && (forall i, j :: 0 <= i < |f.news| && 0 <= j < |f.news| && i != j && FirstHome(k, f.news, i) ==>
          Ip(f.news[i]) != Ip(f.news[j]))
    && (forall i, j :: 0 <= i < |f.news| && 0 <= j < |f.trieds| && FirstTried(k, f.trieds, j) ==>
          Ip(f.news[i]) != Ip(f.trieds[j]))
    && (forall i, j :: 0 <= i < j < |f.trieds| && FirstTried(k, f.trieds, i) && FirstTried(k, f.trieds, j) ==>
          Ip(f.trieds[i]) != Ip(f.trieds[j]))
  }

  /** When the table cannot be used, whether `mapAddr` is right can be told from the records. */
  lemma RecordsDecide(k: Keyed, f: File)
    requires Counts(f) && (f.nVersion != 1 || f.nUBuckets != 1024)
    ensures Indexed(Load(k, f)) <==> RecordsUnshared(k, f)
  {
    LoadKeeps(k, f);
    NewsPlaced(k, f.news);
    var s := LoadNews(k, f.news, true);
    TriedsPlaced(k, s, f.trieds);
    var t := LoadTrieds(k, s, f.trieds);
    TableUnused(k, t, f.nNew, f.buckets);
    assert t == Unpruned(k, f);
    hide LoadNews, LoadTrieds, Unpruned, Indexed, Unshared, RecordsUnshared, NewsLoaded, TriedsLoaded, Usable;
    if Unshared(t) { UnsharedRecords(k, f, s, t); }
    if RecordsUnshared(k, f) { RecordsShareNot(k, f, s, t); }
  }

  /** Where the entry of a kept tried record is. */
  lemma KeptAt(k: Keyed, s: State, t: State, recs: seq<Record>, j: nat) returns (id: int)
    requires TriedsLoaded(k, s, t, recs) && FirstTried(k, recs, j)
    ensures s.idCount <= id < t.idCount && KeptTried(k, recs)[id - s.idCount] == j
    ensures id in t.info && !IsLoose(t, id) && t.info[id].service == recs[j].service
  {
    KeptAre(k, recs, j);
    hide KeptTried, FirstTried;
    var kept := KeptTried(k, recs);
    var x :| 0 <= x < |kept| && kept[x] == j;
    id := s.idCount + x;
  }

  lemma UnsharedRecords(k: Keyed, f: File, s: State, t: State)
    requires NewsLoaded(k, s, f.news) && TriedsLoaded(k, s, t, f.trieds) && Unshared(t)
    ensures RecordsUnshared(k, f)
  {
    NewsKept(k, f, s, t);
    hide TriedsLoaded, NewsLoaded, FirstHome, FirstTried;
    forall i, j | 0 <= i < |f.news| && 0 <= j < |f.news| && i != j && FirstHome(k, f.news, i)
      ensures Ip(f.news[i]) != Ip(f.news[j])
    {
      assert i in t.info && j in t.info && !IsLoose(t, i);
    }
    forall i, j | 0 <= i < |f.news| && 0 <= j < |f.trieds| && FirstTried(k, f.trieds, j)
      ensures Ip(f.news[i]) != Ip(f.trieds[j])
    {
      var id := KeptAt(k, s, t, f.trieds, j);
      assert id in t.info && i in t.info && !IsLoose(t, id) && id != i;
    }
    forall i, j | 0 <= i < j < |f.trieds| && FirstTried(k, f.trieds, i) && FirstTried(k, f.trieds, j)
      ensures Ip(f.trieds[i]) != Ip(f.trieds[j])
    {
      var a := KeptAt(k, s, t, f.trieds, i);
      var b := KeptAt(k, s, t, f.trieds, j);
      assert a in t.info && b in t.info && !IsLoose(t, a) && a != b;
    }
  }

  /** The entries of new records stay as they are. */
  lemma NewsKept(k: Keyed, f: File, s: State, t: State)
    requires NewsLoaded(k, s, f.news) && TriedsLoaded(k, s, t, f.trieds)
    ensures s.idCount == |f.news|
    ensures forall i :: 0 <= i < |f.news| ==> i in t.info && t.info[i].service == f.news[i].service
    ensures forall i :: 0 <= i < |f.news| ==> (IsLoose(t, i) <==> !FirstHome(k, f.news, i))
  {
    hide FirstHome, KeptTried, HomeTaken, SlotTried;
  }

  /** Every other entry is that of a kept tried record. */
  lemma TriedsKept(k: Keyed, f: File, s: State, t: State, id: int) returns (j: nat)
    requires NewsLoaded(k, s, f.news) && TriedsLoaded(k, s, t, f.trieds) && id in t.info && !(0 <= id < |f.news|)
    ensures |f.news| <= id < t.idCount && FirstTried(k, f.trieds, j) && t.info[id].service == f.trieds[j].service
    ensures j == KeptTried(k, f.trieds)[id - |f.news|]
  {
    hide FirstHome, KeptTried, HomeTaken, SlotTried;
    j := KeptTried(k, f.trieds)[id - |f.news|];
    KeptAre(k, f.trieds, j);
  }

  lemma RecordsShareNot(k: Keyed, f: File, s: State, t: State)
    requires NewsLoaded(k, s, f.news) && TriedsLoaded(k, s, t, f.trieds) && RecordsUnshared(k, f)
    ensures Unshared(t)
  {
    NewsKept(k, f, s, t);
    forall a, b | a in t.info && b in t.info && a != b && !IsLoose(t, a)
      ensures t.info[a].service.ip != t.info[b].service.ip
    {
      ShareNot(k, f, s, t, a, b);
    }
  }

  lemma ShareNot(k: Keyed, f: File, s: State, t: State, a: int, b: int)
    requires NewsLoaded(k, s, f.news) && TriedsLoaded(k, s, t, f.trieds) && RecordsUnshared(k, f)
    requires a in t.info && b in t.info && a != b && !IsLoose(t, a)
    ensures t.info[a].service.ip != t.info[b].service.ip
  {
    NewsKept(k, f, s, t);
    hide TriedsLoaded, NewsLoaded, FirstHome, FirstTried, KeptTried;
    var n := |f.news|;
    if 0 <= a < n && 0 <= b < n {
      assert Ip(f.news[a]) != Ip(f.news[b]);
    } else if 0 <= a < n {
      var j := TriedsKept(k, f, s, t, b);
      assert Ip(f.news[a]) != Ip(f.trieds[j]);
    } else if 0 <= b < n {
      var j := TriedsKept(k, f, s, t, a);
      assert Ip(f.news[b]) != Ip(f.trieds[j]);
    } else {
      var i := TriedsKept(k, f, s, t, a);
      var j := TriedsKept(k, f, s, t, b);
      assert Ip(f.trieds[if i < j then i else j]) != Ip(f.trieds[if i < j then j else i]);
    }
  }
}

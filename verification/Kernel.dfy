/** The stake modifier of src/kernel.cpp: up to 64 rounds, each of which selects one of the
    candidate blocks that have not been selected and takes one bit from it. */
module Kernel {
  import opened Arith
  import opened Bits
  import opened Lists
  import opened Wrappers

  const MODIFIER_INTERVAL: nat := 60
  const MODIFIER_INTERVAL_RATIO: nat := 3
  const ROUNDS: nat := 64

  /** Hashes are numbers. `fGenerated` is the flag of a block whose modifier is a new one. */
  datatype Block = Block(hash: nat, nTime: nat, nHeight: nat, fProofOfStake: bool, fGenerated: bool,
                         nStakeModifier: nat)

  /** What vSortedByTimestamp holds. */
  datatype Item = Item(nTime: nat, hash: nat)

  // -------------------------------------------------------------------- sections

  function Section(n: nat): (s: nat)
    requires n < ROUNDS
  {
    MODIFIER_INTERVAL * 63 / (63 + (63 - n) * (MODIFIER_INTERVAL_RATIO - 1))
  }

  function Sections(n: nat): nat
    requires n <= ROUNDS
  {
    if n == 0 then 0 else Sections(n - 1) + Section(n - 1)
  }

  /** The sections grow, and the last is as many times as long as the first as the ratio says. */
  lemma SectionsGrow(m: nat, n: nat)
    requires m <= n < ROUNDS
    ensures 0 < Section(m) <= Section(n)
    ensures Section(n) * (189 - 2 * n) <= 3780 < (Section(n) + 1) * (189 - 2 * n)
    ensures Section(63) == MODIFIER_INTERVAL_RATIO * Section(0) == MODIFIER_INTERVAL
  {
    Quotients(MODIFIER_INTERVAL * 63, 63 + (63 - m) * 2, 63 + (63 - n) * 2);
    DivUnique(3780, 189, 20, 0);
    Quotients(3780, 189, 63 + (63 - m) * 2);
  }

  lemma Quotients(x: nat, a: nat, b: nat)
    requires 0 < b <= a
    ensures x / a <= x / b
  {
    var p, q := x / a, x / b;
    assert x == p * a + x % a && x == q * b + x % b;
    if p > q {
      Scale(q + 1, p, b);
      Add(q, 1, b);
      ScaleRight(p, b, a);
    }
  }

  method GetStakeModifierSelectionInterval() returns (interval: nat)
    ensures interval == Sections(ROUNDS)
  {
    interval := 0;
    for n := 0 to ROUNDS
      invariant interval == Sections(n)
    {
      interval := interval + Section(n);
    }
  }

  // ------------------------------------------------------------------- selection

  /** `hash` is the hash of a proof and the previous modifier; `fV2` whether the new
      calculation is used. */
  datatype Rule = Rule(hash: (nat, nat) -> nat, fV2: bool, previous: nat)

  /** A proof-of-stake block is favoured by dividing its selection hash. */
  function SelectionHash(r: Rule, b: Block): nat {
    var proof := if !r.fV2 && b.fProofOfStake then 0 else b.hash;
    var h := r.hash(proof, r.previous);
    if b.fProofOfStake then Shifted(h) else h
  }

  function Shifted(h: nat): nat {
    h / 0x1_0000_0000
  }

  /** A block finds its hash where it is indexed. */
  predicate Keyed(index: map<nat, Block>) {
    forall h :: h in index ==> index[h].hash == h
  }

  predicate Indexed(items: seq<Item>, index: map<nat, Block>) {
    forall i :: 0 <= i < |items| ==> items[i].hash in index && index[items[i].hash].nTime == items[i].nTime
  }

  predicate ByTime(items: seq<Item>) {
    forall i, j :: 0 <= i < j < |items| ==> items[i].nTime <= items[j].nTime
  }

  predicate DistinctItems(items: seq<Item>) {
    forall i, j :: 0 <= i < j < |items| ==> items[i].hash != items[j].hash
  }

  /** The candidate at `i` has not been selected. */
  predicate Free(items: seq<Item>, selected: set<nat>, i: int) {
    0 <= i < |items| && items[i].hash !in selected
  }

  predicate InTime(items: seq<Item>, selected: set<nat>, stop: int, i: int) {
    Free(items, selected, i) && items[i].nTime <= stop
  }

  function HashAt(r: Rule, items: seq<Item>, index: map<nat, Block>, i: nat): nat
    requires Indexed(items, index) && i < |items|
  {
    SelectionHash(r, index[items[i].hash])
  }

  /** `k` has the least selection hash of the free candidates up to `stop`, and is the first
      that has it; when there is none up to `stop`, it is the earliest free one. */
  predicate IsPick(r: Rule, items: seq<Item>, index: map<nat, Block>, selected: set<nat>, stop: int, k: nat)
    requires Indexed(items, index)
  {
    && Free(items, selected, k)
    && (InTime(items, selected, stop, k) ==>
          forall j :: 0 <= j < |items| && InTime(items, selected, stop, j) ==>
            HashAt(r, items, index, k) <= HashAt(r, items, index, j)
            && (j < k ==> HashAt(r, items, index, k) < HashAt(r, items, index, j)))
    && (!InTime(items, selected, stop, k) ==>
          forall j :: 0 <= j < |items| && Free(items, selected, j) ==> k <= j && items[j].nTime > stop)
  }

  /** There is one such candidate at most. */
  lemma PickUnique(r: Rule, items: seq<Item>, index: map<nat, Block>, selected: set<nat>, stop: int, k: nat, l: nat)
    requires Indexed(items, index)
    requires IsPick(r, items, index, selected, stop, k) && IsPick(r, items, index, selected, stop, l)
    ensures k == l
  {
    hide HashAt;
  }

  /** What the loop knows of the candidates before `i`. */
  predicate Seen(r: Rule, items: seq<Item>, index: map<nat, Block>, selected: set<nat>, stop: int, i: nat,
                 found: bool, k: nat)
    requires Indexed(items, index) && i <= |items|
  {
    if !found then forall j :: 0 <= j < i ==> !Free(items, selected, j)
    else if k < i && InTime(items, selected, stop, k) then
      forall j :: 0 <= j < i && Free(items, selected, j) ==>
        HashAt(r, items, index, k) <= HashAt(r, items, index, j)
        && (j < k ==> HashAt(r, items, index, k) < HashAt(r, items, index, j))
    else k < i && Free(items, selected, k) && forall j :: 0 <= j < i && Free(items, selected, j) ==> j == k
  }

  lemma SeenAll(r: Rule, items: seq<Item>, index: map<nat, Block>, selected: set<nat>, stop: int, i: nat, k: nat)
    requires Indexed(items, index) && ByTime(items) && i <= |items| && Seen(r, items, index, selected, stop, i, true, k)
    requires i == |items| || items[i].nTime > stop
    ensures IsPick(r, items, index, selected, stop, k)
  {
    hide HashAt, Indexed;
  }

  /** The blocks of the candidates that are in the index are as old as the candidates say. */
  predicate Timed(items: seq<Item>, index: map<nat, Block>) {
    forall i :: 0 <= i < |items| && items[i].hash in index ==> index[items[i].hash].nTime == items[i].nTime
  }

  /** How many candidates come before the first one that is not in the index. */
  function Found(items: seq<Item>, index: map<nat, Block>, i: nat): (m: nat)
    requires i <= |items|
    ensures i <= m <= |items| && forall j :: i <= j < m ==> items[j].hash in index
    ensures m < |items| ==> items[m].hash !in index
    decreases |items| - i
  {
    if i < |items| && items[i].hash in index then Found(items, index, i + 1) else i
  }

  lemma FoundAll(items: seq<Item>, index: map<nat, Block>)
    requires Indexed(items, index)
    ensures Timed(items, index) && Found(items, index, 0) == |items| && items[..Found(items, index, 0)] == items
  {
  }

  /** Whether the loop ends at one of the first `m` candidates: a free one comes before one that
      is too late. */
  predicate EndsBefore(items: seq<Item>, selected: set<nat>, stop: int, m: nat) {
    exists i, j :: 0 <= i < j < m && j < |items| && Free(items, selected, i) && items[j].nTime > stop
  }

  lemma NotEnding(items: seq<Item>, selected: set<nat>, stop: int, i: nat)
    requires i < |items| && !EndsBefore(items, selected, stop, i)
    requires items[i].nTime <= stop || forall j :: 0 <= j < i ==> !Free(items, selected, j)
    ensures !EndsBefore(items, selected, stop, i + 1)
  {
  }

  lemma NothingEnds(items: seq<Item>, selected: set<nat>, stop: int)
    ensures !EndsBefore(items, selected, stop, 0)
  {
  }

  lemma EndsAt(items: seq<Item>, selected: set<nat>, stop: int, k: nat, i: nat, m: nat)
    requires k < i < m && i < |items| && Free(items, selected, k) && items[i].nTime > stop
    ensures EndsBefore(items, selected, stop, m)
  {
  }

  lemma FreeBefore(items: seq<Item>, selected: set<nat>, m: nat, i: nat)
    requires i <= m <= |items|
    ensures forall j :: 0 <= j < i ==> (Free(items[..m], selected, j) <==> Free(items, selected, j))
  {
  }

  /** The pick among the candidates before the first one that is not in the index; `fSelected` is
      false when there is none, and for the error that the loop meets that one. */
  method SelectBlockFromCandidates(hash: (nat, nat) -> nat, previous: nat, upgradeHeight: nat, items: seq<Item>,
                                   index: map<nat, Block>, selected: set<nat>, stop: int)
    returns (fSelected: bool, pick: nat)
    requires ByTime(items) && Keyed(index)
    ensures fSelected ==> Free(items, selected, pick)
    ensures Timed(items, index) ==>
              var m := Found(items, index, 0);
              && (fSelected <==>
                    && (exists i :: 0 <= i < m && Free(items, selected, i))
                    && (m == |items| || EndsBefore(items, selected, stop, m)))
              && (fSelected ==>
                    && Indexed(items[..m], index)
                    && IsPick(RuleFor(hash, previous, upgradeHeight, items, index), items[..m], index,
                              selected, stop, pick))
  {
    hide SelectionHash, IsPick, EndsBefore;
    NothingEnds(items, selected, stop);
    var fModifierV2 := false;
    fSelected, pick := false, 0;
    var hashBest := 0;
    ghost var r, m := RuleFor(hash, previous, upgradeHeight, items, index), Found(items, index, 0);
    ghost var known := items[..m];
    for i := 0 to |items|
      invariant i <= m && (fSelected ==> pick < i && Free(items, selected, pick))
      invariant i > 0 ==> fModifierV2 == r.fV2
      invariant Timed(items, index) ==> Seen(r, known, index, selected, stop, i, fSelected, pick)
      invariant Timed(items, index) && fSelected ==> hashBest == HashAt(r, known, index, pick)
      invariant Timed(items, index) ==> !EndsBefore(items, selected, stop, i)
    {
      if items[i].hash !in index {
        return false, 0;
      }
      var b := index[items[i].hash];
      if fSelected && b.nTime > stop {
        if Timed(items, index) {
          SeenAll(r, known, index, selected, stop, i, pick);
          EndsAt(items, selected, stop, pick, i, m);
        }
        return;
      }
      if Timed(items, index) {
        FreeBefore(items, selected, m, i);
        NotEnding(items, selected, stop, i);
      }
      if i == 0 { fModifierV2 := b.nHeight >= upgradeHeight; }
      if b.hash in selected { continue; }
      var hashSelection := SelectionHash(Rule(hash, fModifierV2, previous), b);
      if fSelected && hashSelection < hashBest {
        hashBest, pick := hashSelection, i;
      } else if !fSelected {
        fSelected, hashBest, pick := true, hashSelection, i;
      }
    }
    if Timed(items, index) {
      FreeBefore(items, selected, m, |items|);
      if fSelected { SeenAll(r, known, index, selected, stop, |items|, pick); }
    }
  }

  /** The height of the first candidate decides about the calculation. */
  function RuleFor(hash: (nat, nat) -> nat, previous: nat, upgradeHeight: nat, items: seq<Item>,
                   index: map<nat, Block>): Rule {
    Rule(hash, items != [] && items[0].hash in index && index[items[0].hash].nHeight >= upgradeHeight, previous)
  }

  // ---------------------------------------------------------------------- sorting

  predicate Before(a: Item, b: Item) {
    a.nTime < b.nTime || (a.nTime == b.nTime && a.hash <= b.hash)
  }

  predicate Sorted(items: seq<Item>) {
    forall i, j :: 0 <= i < j < |items| ==> Before(items[i], items[j])
  }

  function Insert(x: Item, items: seq<Item>): (r: seq<Item>)
    ensures |r| == |items| + 1
  {
    if items == [] || Before(x, items[0]) then [x] + items else [items[0]] + Insert(x, items[1..])
  }

  /** What sort leaves: the items in ascending order. */
  function Sort(items: seq<Item>): (r: seq<Item>)
    ensures |r| == |items|
  {
    if items == [] then [] else Insert(items[0], Sort(items[1..]))
  }

  lemma BeforeTotal(a: Item, b: Item, c: Item)
    ensures Before(a, b) || Before(b, a)
    ensures Before(a, b) && Before(b, c) ==> Before(a, c)
  {
  }

  lemma {:induction false} InsertHolds(x: Item, items: seq<Item>)
    ensures multiset(Insert(x, items)) == multiset{x} + multiset(items)
  {
    if items != [] {
      assert items == [items[0]] + items[1..];
      InsertHolds(x, items[1..]);
    }
  }

  lemma {:induction false} InsertSorted(x: Item, items: seq<Item>)
    requires Sorted(items)
    ensures Sorted(Insert(x, items))
  {
    hide Before;
    if items == [] {
    } else if Before(x, items[0]) {
      forall j | 0 <= j < |items| ensures Before(x, items[j]) {
        BeforeTotal(x, items[0], items[j]);
      }
    } else {
      BeforeTotal(x, items[0], x);
      InsertSorted(x, items[1..]);
      InsertHolds(x, items[1..]);
      var r := Insert(x, items[1..]);
      forall j | 0 <= j < |r| ensures Before(items[0], r[j]) {
        assert r[j] in multiset(r);
      }
    }
  }

  lemma {:induction false} SortSorted(items: seq<Item>)
    ensures Sorted(Sort(items)) && multiset(Sort(items)) == multiset(items)
  {
    if items != [] {
      assert items == [items[0]] + items[1..];
      SortSorted(items[1..]);
      InsertSorted(items[0], Sort(items[1..]));
      InsertHolds(items[0], Sort(items[1..]));
    }
  }

  lemma SortKeeps(items: seq<Item>, index: map<nat, Block>)
    ensures ByTime(Sort(items))
    ensures Indexed(items, index) ==> Indexed(Sort(items), index)
    ensures DistinctItems(items) ==> DistinctItems(Sort(items))
  {
    SortSorted(items);
    var s := Sort(items);
    forall i | 0 <= i < |s| ensures s[i] in items {
      assert s[i] in multiset(s);
    }
    if DistinctItems(items) {
      var h, g := Hashes(items), Hashes(s);
      SortHashes(items);
      DistinctWithin(g, h);
      forall i, j | 0 <= i < j < |s| ensures s[i].hash != s[j].hash {
        assert g[i] != g[j];
      }
    }
  }

  function Hashes(items: seq<Item>): (h: seq<nat>)
    ensures |h| == |items| && forall i :: 0 <= i < |h| ==> h[i] == items[i].hash
  {
    seq(|items|, i requires 0 <= i < |items| => items[i].hash)
  }

  lemma {:induction false} InsertHashes(x: Item, items: seq<Item>)
    ensures multiset(Hashes(Insert(x, items))) == multiset{x.hash} + multiset(Hashes(items))
  {
    if items == [] || Before(x, items[0]) {
      assert Hashes([x] + items) == [x.hash] + Hashes(items);
    } else {
      InsertHashes(x, items[1..]);
      assert Hashes(items) == [items[0].hash] + Hashes(items[1..]);
      assert Hashes(Insert(x, items)) == [items[0].hash] + Hashes(Insert(x, items[1..]));
    }
  }

  lemma {:induction false} SortHashes(items: seq<Item>)
    ensures multiset(Hashes(Sort(items))) == multiset(Hashes(items))
  {
    if items != [] {
      SortHashes(items[1..]);
      InsertHashes(items[0], Sort(items[1..]));
      assert Hashes(items) == [items[0].hash] + Hashes(items[1..]);
    }
  }

  // ----------------------------------------------------------------------- rounds

  /** The hashes of the candidates that the first rounds selected. */
  function Selected(items: seq<Item>, picks: seq<nat>): (s: set<nat>)
    requires forall r :: 0 <= r < |picks| ==> picks[r] < |items|
    ensures forall r :: 0 <= r < |picks| ==> items[picks[r]].hash in s
    ensures forall h :: h in s ==> exists r :: 0 <= r < |picks| && items[picks[r]].hash == h
  {
    set r | 0 <= r < |picks| :: items[picks[r]].hash
  }

  /** Each pick is what its round must select, given the rounds before it. */
  predicate IsRun(rule: Rule, items: seq<Item>, index: map<nat, Block>, start: int, picks: seq<nat>)
    requires Indexed(items, index) && |picks| <= ROUNDS
  {
    && (forall r :: 0 <= r < |picks| ==> picks[r] < |items|)
    && forall r :: 0 <= r < |picks| ==> RoundIs(rule, items, index, start, picks, r)
  }

  predicate RoundIs(rule: Rule, items: seq<Item>, index: map<nat, Block>, start: int, picks: seq<nat>, r: nat)
    requires Indexed(items, index) && r < |picks| <= ROUNDS
    requires forall r :: 0 <= r < |picks| ==> picks[r] < |items|
  {
    IsPick(rule, items, index, Selected(items, picks[..r]), start + Sections(r + 1), picks[r])
  }

  /** A run is determined by its length. */
  lemma {:induction false} RunUnique(rule: Rule, items: seq<Item>, index: map<nat, Block>, start: int, p: seq<nat>,
                                     q: seq<nat>)
    requires Indexed(items, index) && |p| == |q| <= ROUNDS
    requires IsRun(rule, items, index, start, p) && IsRun(rule, items, index, start, q)
    ensures p == q
  {
    hide IsPick, Sections;
    if p != [] {
      var n := |p| - 1;
      RunPrefix(rule, items, index, start, p, n);
      RunPrefix(rule, items, index, start, q, n);
      RunUnique(rule, items, index, start, p[..n], q[..n]);
      assert RoundIs(rule, items, index, start, p, n) && RoundIs(rule, items, index, start, q, n);
      PickUnique(rule, items, index, Selected(items, p[..n]), start + Sections(n + 1), p[n], q[n]);
    }
  }

  lemma RunPrefix(rule: Rule, items: seq<Item>, index: map<nat, Block>, start: int, p: seq<nat>, n: nat)
    requires Indexed(items, index) && n <= |p| <= ROUNDS && IsRun(rule, items, index, start, p)
    ensures IsRun(rule, items, index, start, p[..n])
  {
    hide IsPick, Sections;
    forall r | 0 <= r < n ensures RoundIs(rule, items, index, start, p[..n], r) {
      assert RoundIs(rule, items, index, start, p, r);
      assert p[..n][..r] == p[..r];
    }
  }

  lemma RunAppend(rule: Rule, items: seq<Item>, index: map<nat, Block>, start: int, p: seq<nat>, k: nat)
    requires Indexed(items, index) && |p| < ROUNDS && IsRun(rule, items, index, start, p)
    requires IsPick(rule, items, index, Selected(items, p), start + Sections(|p| + 1), k)
    ensures IsRun(rule, items, index, start, p + [k])
  {
    hide Sections;
    var q := p + [k];
    assert k < |items| by { assert Free(items, Selected(items, p), k); }
    hide IsPick;
    forall r | 0 <= r < |q| ensures RoundIs(rule, items, index, start, q, r) {
      if r < |p| {
        assert RoundIs(rule, items, index, start, p, r);
        assert q[..r] == p[..r];
      } else {
        assert q[..r] == p;
      }
    }
  }

  /** No candidate is selected twice. */
  lemma RunDistinct(rule: Rule, items: seq<Item>, index: map<nat, Block>, start: int, p: seq<nat>)
    requires Indexed(items, index) && |p| <= ROUNDS && IsRun(rule, items, index, start, p)
    ensures Distinct(p)
  {
    hide Sections;
    forall i, j | 0 <= i < j < |p| ensures p[i] != p[j] {
      assert RoundIs(rule, items, index, start, p, j);
      assert Free(items, Selected(items, p[..j]), p[j]);
      assert p[..j][i] == p[i];
    }
  }

  /** As long as not all candidates are selected, one is free. */
  lemma SomeFree(items: seq<Item>, p: seq<nat>) returns (k: nat)
    requires DistinctItems(items) && |p| < |items| && forall r :: 0 <= r < |p| ==> p[r] < |items|
    ensures Free(items, Selected(items, p), k)
  {
    k := Missing(p, |items|);
    forall r | 0 <= r < |p| ensures items[p[r]].hash != items[k].hash {
      assert p[r] != k;
    }
  }

  lemma {:induction false} Missing(p: seq<nat>, n: nat) returns (k: nat)
    requires |p| < n
    ensures k < n && k !in p
    decreases n
  {
    if n - 1 !in p {
      k := n - 1;
    } else {
      var i :| 0 <= i < |p| && p[i] == n - 1;
      var q := p[..i] + p[i + 1..];
      k := Missing(q, n - 1);
      forall j | 0 <= j < |p| ensures p[j] != k {
        if j < i { assert p[j] == q[j]; } else if j > i { assert p[j] == q[j - 1]; }
      }
    }
  }

  function EntropyBit(b: Block): bool {
    b.hash % 2 == 1
  }

  /** The entropy bits of the picked blocks. */
  function PickBits(items: seq<Item>, index: map<nat, Block>, picks: seq<nat>): (bits: seq<bool>)
    requires Indexed(items, index) && forall r :: 0 <= r < |picks| ==> picks[r] < |items|
    ensures |bits| == |picks|
    ensures forall r :: 0 <= r < |picks| ==> bits[r] == EntropyBit(index[items[picks[r]].hash])
  {
    seq(|picks|, r requires 0 <= r < |picks| => EntropyBit(index[items[picks[r]].hash]))
  }

  /** All rounds. When the candidates are distinct and in the index, no round fails. */
  method SelectRounds(hash: (nat, nat) -> nat, previous: nat, upgradeHeight: nat, items: seq<Item>,
                      index: map<nat, Block>, start: int)
    returns (fOk: bool, modifier: nat, ghost picks: seq<nat>)
    requires ByTime(items) && Keyed(index)
    ensures Indexed(items, index) && DistinctItems(items) ==>
              && fOk && |picks| == Min(ROUNDS, |items|)
              && IsRun(RuleFor(hash, previous, upgradeHeight, items, index), items, index, start, picks)
              && modifier == Pack(PickBits(items, index, picks))
  {
    hide IsPick, IsRun, Sections, Section, Free, RuleFor, Selected, Pack;
    modifier, picks := 0, [];
    ghost var good := Indexed(items, index) && DistinctItems(items);
    ghost var rule := RuleFor(hash, previous, upgradeHeight, items, index);
    if good { FoundAll(items, index); }
    var stop, selected := start, {};
    NothingSelected(items);
    if good { RunEmpty(rule, items, index, start); }
    for round := 0 to Min(ROUNDS, |items|)
      invariant |picks| == round && forall r :: 0 <= r < |picks| ==> picks[r] < |items|
      invariant stop == start + Sections(round) && selected == Selected(items, picks)
      invariant good ==> IsRun(rule, items, index, start, picks) && modifier == Pack(PickBits(items, index, picks))
    {
      stop := stop + Section(round);
      SectionsNext(round);
      var fSelected, pick := SelectBlockFromCandidates(hash, previous, upgradeHeight, items, index, selected, stop);
      if good {
        ghost var free := SomeFree(items, picks);
        FreeInRange(items, selected, free);
      }
      if !fSelected { return false, 0, picks; }
      FreeInRange(items, selected, pick);
      if items[pick].hash !in index { return false, 0, picks; }
      var bit := EntropyBit(index[items[pick].hash]);
      if good {
        RunAppend(rule, items, index, start, picks, pick);
        BitsAppend(items, index, picks, pick);
      }
      SelectedAppend(items, picks, pick);
      // The bit is above all that are set so far, so that adding it is the bitwise or.
      modifier := modifier + if bit then Pow2(round) else 0;
      selected := selected + {items[pick].hash};
      picks := picks + [pick];
    }
    fOk := true;
  }

  lemma NothingSelected(items: seq<Item>)
    ensures Selected(items, []) == {} && Sections(0) == 0
  {
  }

  lemma SectionsNext(n: nat)
    requires n < ROUNDS
    ensures Sections(n + 1) == Sections(n) + Section(n)
  {
  }

  lemma RunEmpty(rule: Rule, items: seq<Item>, index: map<nat, Block>, start: int)
    requires Indexed(items, index)
    ensures IsRun(rule, items, index, start, []) && Pack(PickBits(items, index, [])) == 0
  {
  }

  lemma FreeInRange(items: seq<Item>, selected: set<nat>, k: nat)
    ensures Free(items, selected, k) ==> k < |items|
  {
  }

  lemma SelectedAppend(items: seq<Item>, p: seq<nat>, k: nat)
    requires k < |items| && forall r :: 0 <= r < |p| ==> p[r] < |items|
    ensures Selected(items, p + [k]) == Selected(items, p) + {items[k].hash}
  {
    var q := p + [k];
    forall h | h in Selected(items, p) + {items[k].hash} ensures h in Selected(items, q) {
      if h in Selected(items, p) {
        var r :| 0 <= r < |p| && items[p[r]].hash == h;
        assert q[r] == p[r];
      } else {
        assert q[|p|] == k;
      }
    }
  }

  lemma BitsAppend(items: seq<Item>, index: map<nat, Block>, p: seq<nat>, k: nat)
    requires Indexed(items, index) && k < |items| && forall r :: 0 <= r < |p| ==> p[r] < |items|
    ensures Pack(PickBits(items, index, p + [k]))
         == Pack(PickBits(items, index, p)) + if EntropyBit(index[items[k].hash]) then Pow2(|p|) else 0
  {
    hide Pack, Pow2, EntropyBit, PickBits;
    var bits, b, q := PickBits(items, index, p), EntropyBit(index[items[k].hash]), p + [k];
    var both := PickBits(items, index, q);
    forall r | 0 <= r < |q| ensures both[r] == (bits + [b])[r] {
      if r < |p| { assert q[r] == p[r]; } else { assert q[r] == k; }
    }
    assert both == bits + [b];
    PackAppend(bits, b);
  }

  /** Bit r of the modifier is the entropy bit of the r-th pick, and there are no others. */
  lemma ModifierBits(items: seq<Item>, index: map<nat, Block>, picks: seq<nat>, p: nat)
    requires Indexed(items, index) && forall r :: 0 <= r < |picks| ==> picks[r] < |items|
    ensures BitAt(Pack(PickBits(items, index, picks)), p)
         == (p < |picks| && EntropyBit(index[items[picks[p]].hash]))
  {
    PackAt(PickBits(items, index, picks), p);
  }

  // -------------------------------------------------------------- the next modifier

  datatype Outcome = Failed | Computed(nStakeModifier: nat, fGenerated: bool)

  /** A chain of blocks from the genesis block on, as the pprev pointers give it. */
  predicate Heights(chain: seq<Block>) {
    forall i :: 0 <= i < |chain| ==> chain[i].nHeight == i
  }

  predicate InIndex(chain: seq<Block>, index: map<nat, Block>) {
    forall i :: 0 <= i < |chain| ==> chain[i].hash in index && index[chain[i].hash] == chain[i]
  }

  /** The highest block of the first `n` that generated a modifier. */
  function LastGenerated(chain: seq<Block>, n: nat): (k: Option<nat>)
    requires n <= |chain|
    ensures k.None? ==> forall i :: 0 <= i < n ==> !chain[i].fGenerated
    ensures k.Some? ==> k.value < n && chain[k.value].fGenerated && forall i :: k.value < i < n ==> !chain[i].fGenerated
  {
    if n == 0 then None else if chain[n - 1].fGenerated then Some(n - 1) else LastGenerated(chain, n - 1)
  }

  /** From where on all of the first `n` blocks are not older than `start`. */
  function FirstCandidate(chain: seq<Block>, start: int, n: nat): (k: nat)
    requires n <= |chain|
    ensures k <= n && (k > 0 ==> chain[k - 1].nTime < start)
    ensures forall i :: k <= i < n ==> chain[i].nTime >= start
  {
    if n == 0 || chain[n - 1].nTime < start then n else FirstCandidate(chain, start, n - 1)
  }

  function Items(chain: seq<Block>): (items: seq<Item>)
    ensures |items| == |chain| && forall i :: 0 <= i < |chain| ==> items[i] == Item(chain[i].nTime, chain[i].hash)
  {
    seq(|chain|, i requires 0 <= i < |chain| => Item(chain[i].nTime, chain[i].hash))
  }

  lemma ItemsGood(chain: seq<Block>, index: map<nat, Block>, k: nat)
    requires Heights(chain) && InIndex(chain, index) && k <= |chain|
    ensures Indexed(Items(chain[k..]), index) && DistinctItems(Items(chain[k..]))
  {
    var items := Items(chain[k..]);
    forall i, j | 0 <= i < j < |items| ensures items[i].hash != items[j].hash {
      assert chain[k..][i] == chain[k + i] && chain[k..][j] == chain[k + j];
      assert index[chain[k + i].hash].nHeight == k + i && index[chain[k + j].hash].nHeight == k + j;
    }
  }

  function Interval(t: nat): nat {
    t / MODIFIER_INTERVAL
  }

  function SelectionStart(tip: Block): int {
    Interval(tip.nTime) * MODIFIER_INTERVAL - Sections(ROUNDS)
  }

  /** The candidates, oldest first. */
  function Candidates(chain: seq<Block>): seq<Item>
    requires chain != []
  {
    Sort(Items(chain[FirstCandidate(chain, SelectionStart(chain[|chain| - 1]), |chain|)..]))
  }

  /** These are the last blocks, back to the first one from the end that is too old, by time and
      then by hash. */
  lemma CandidatesAre(chain: seq<Block>) returns (k: nat)
    requires chain != []
    ensures var items, start := Candidates(chain), SelectionStart(chain[|chain| - 1]);
            && k <= |chain| && multiset(items) == multiset(Items(chain[k..]))
            && (k > 0 ==> chain[k - 1].nTime < start) && (forall i :: k <= i < |chain| ==> chain[i].nTime >= start)
            && forall i, j :: 0 <= i < j < |items| ==>
                 items[i].nTime < items[j].nTime || (items[i].nTime == items[j].nTime && items[i].hash <= items[j].hash)
  {
    hide SelectionStart, Sort;
    k := FirstCandidate(chain, SelectionStart(chain[|chain| - 1]), |chain|);
    SortSorted(Items(chain[k..]));
  }

  /** GetLastStakeModifier. */
  method GetLastStakeModifier(chain: seq<Block>) returns (k: Option<nat>)
    requires chain != []
    ensures k == LastGenerated(chain, |chain|)
  {
    var p := |chain| - 1;
    while p > 0 && !chain[p].fGenerated
      invariant 0 <= p < |chain| && LastGenerated(chain, |chain|) == LastGenerated(chain, p + 1)
    {
      p := p - 1;
    }
    k := if chain[p].fGenerated then Some(p) else None;
    if p == 0 { assert LastGenerated(chain, 0) == None; }
  }

  method FindCandidates(chain: seq<Block>, start: int) returns (items: seq<Item>)
    ensures items == Items(chain[FirstCandidate(chain, start, |chain|)..])
  {
    hide Items;
    items := [];
    var p := |chain|;
    assert Reversed([]) == Items(chain[p..]) by { NoItems(chain[p..]); }
    while p > 0 && chain[p - 1].nTime >= start
      invariant 0 <= p <= |chain| && FirstCandidate(chain, start, |chain|) == FirstCandidate(chain, start, p)
      invariant Reversed(items) == Items(chain[p..])
    {
      p := p - 1;
      ReversedMore(items, Item(chain[p].nTime, chain[p].hash));
      ItemsMore(chain, p);
      items := items + [Item(chain[p].nTime, chain[p].hash)];
    }
    items := Reversed(items);
  }

  function Reversed(items: seq<Item>): (r: seq<Item>)
    ensures |r| == |items| && forall i :: 0 <= i < |r| ==> r[i] == items[|items| - 1 - i]
  {
    seq(|items|, i requires 0 <= i < |items| => items[|items| - 1 - i])
  }

  lemma ReversedMore(items: seq<Item>, x: Item)
    ensures Reversed(items + [x]) == [x] + Reversed(items)
  {
  }

  lemma NoItems(chain: seq<Block>)
    requires chain == []
    ensures Reversed([]) == [] == Items(chain)
  {
  }

  lemma ItemsMore(chain: seq<Block>, p: nat)
    requires p < |chain|
    ensures Items(chain[p..]) == [Item(chain[p].nTime, chain[p].hash)] + Items(chain[p + 1..])
  {
  }

  /** `chain` ends with pindexPrev, and is empty when that is null; `first` is the modifier
      after the genesis block. */
  method ComputeNextStakeModifier(hash: (nat, nat) -> nat, fRegTest: bool, first: nat, upgradeHeight: nat,
                                  index: map<nat, Block>, chain: seq<Block>)
    returns (result: Outcome, ghost picks: seq<nat>)
    requires Keyed(index) && Heights(chain)
    ensures fRegTest ==> result == Computed(0, false)
    ensures !fRegTest && chain == [] ==> result == Computed(0, true)
    ensures !fRegTest && |chain| == 1 ==> result == Computed(first, true)
    ensures !fRegTest && |chain| > 1 ==>
              match LastGenerated(chain, |chain|)
              case None => result == Failed
              case Some(k) =>
                if Interval(chain[k].nTime) >= Interval(chain[|chain| - 1].nTime) then
                  result == Computed(chain[k].nStakeModifier, false)
                else
                  InIndex(chain, index) ==>
                    IsNext(RuleFor(hash, chain[k].nStakeModifier, upgradeHeight, Candidates(chain), index),
                           chain, index, picks, result)
  {
    hide Sort, Sections, RuleFor, IsRun, SelectionStart, FirstCandidate, Pack;
    picks := [];
    if fRegTest { return Computed(0, false), picks; }
    if chain == [] { return Computed(0, true), picks; }
    var tip := chain[|chain| - 1];
    if tip.nHeight == 0 { return Computed(first, true), picks; }
    var last := GetLastStakeModifier(chain);
    if last.None? { return Failed, picks; }
    var nStakeModifier := chain[last.value].nStakeModifier;
    if Interval(chain[last.value].nTime) >= Interval(tip.nTime) { return Computed(nStakeModifier, false), picks; }
    var interval := GetStakeModifierSelectionInterval();
    var start := Interval(tip.nTime) * MODIFIER_INTERVAL - interval;
    StartIs(tip, start);
    var found := FindCandidates(chain, start);
    var items := Sort(found);
    SortKeeps(found, index);
    if InIndex(chain, index) { ItemsGood(chain, index, FirstCandidate(chain, start, |chain|)); }
    var fOk, modifier;
    fOk, modifier, picks := SelectRounds(hash, nStakeModifier, upgradeHeight, items, index, start);
    result := if fOk then Computed(modifier, true) else Failed;
  }

  /** The last round ends with the last whole interval before the end of the chain. */
  lemma LastRoundEnds(tip: Block)
    ensures var stop := SelectionStart(tip) + Sections(ROUNDS);
            stop % 60 == 0 && stop <= tip.nTime < stop + 60
  {
    hide Sections;
  }

  lemma StartIs(tip: Block, start: int)
    requires start == Interval(tip.nTime) * MODIFIER_INTERVAL - Sections(ROUNDS)
    ensures start == SelectionStart(tip)
  {
  }

  /** The result is a new modifier, from a full run over the candidates. */
  predicate IsNext(rule: Rule, chain: seq<Block>, index: map<nat, Block>, picks: seq<nat>, result: Outcome)
    requires chain != []
  {
    var items := Candidates(chain);
    && Indexed(items, index)
    && |picks| == Min(ROUNDS, |items|)
    && IsRun(rule, items, index, SelectionStart(chain[|chain| - 1]), picks)
    && result == Computed(Pack(PickBits(items, index, picks)), true)
  }

  /** What a new modifier is: different candidates were picked, as many as the rounds and the
      candidates allow, and its bits are theirs; no other picks or result are possible. */
  lemma NextModifier(rule: Rule, chain: seq<Block>, index: map<nat, Block>, picks: seq<nat>, result: Outcome, p: nat)
    requires chain != [] && IsNext(rule, chain, index, picks, result)
    ensures Distinct(picks) && result.Computed?
    ensures BitAt(result.nStakeModifier, p)
         == (p < |picks| && index[Candidates(chain)[picks[p]].hash].hash % 2 == 1)
    ensures result.nStakeModifier < Pow2(|picks|) && |picks| == Min(64, |Candidates(chain)|)
    ensures forall qs: seq<nat>, other: Outcome :: IsNext(rule, chain, index, qs, other) ==>
            qs == picks && other == result
  {
    hide Candidates, SelectionStart, Pack, PickBits, BitAt;
    var items, start := Candidates(chain), SelectionStart(chain[|chain| - 1]);
    RunDistinct(rule, items, index, start, picks);
    ModifierBits(items, index, picks, p);
    PackBound(PickBits(items, index, picks));
    forall qs: seq<nat>, other: Outcome | IsNext(rule, chain, index, qs, other) ensures qs == picks && other == result {
      RunUnique(rule, items, index, start, qs, picks);
    }
  }
}

/** Partial Merkle trees (src/merkleblock.cpp, src/merkleblock.h; BIP 37, section "Partial
    Merkle branch format"): what the builder stores, what the reader takes out of it. */
module Merkle {
  import opened Arith
  import opened Bits

  type Hash = nat           // 0 is the null hash
  type Combine = (Hash, Hash) -> Hash

  /** MAX_BLOCK_SIZE_CURRENT / 60 */
  const MAX_TRANSACTIONS: nat := 2000000 / 60

  // ------------------------------------------------------------- shape of the tree

  /** CalcTreeWidth: the number of nodes at a height over `n` leaves. */
  function Width(n: nat, height: nat): nat {
    (n + Pow2(height) - 1) / Pow2(height)
  }

  lemma DivBounds(x: nat, p: nat, q: nat)
    requires p > 0
    ensures x / p == q <==> q * p <= x < q * p + p
  {
    var w := x / p;
    assert w * p <= x < w * p + p;
    if w < q {
      Scale(w + 1, q, p);
      Add(w, 1, p);
    }
    if w > q {
      Scale(q + 1, w, p);
      Add(q, 1, p);
    }
  }

  lemma HalfUp(n: nat, p: nat, w: nat)
    requires p > 0 && (n + p - 1) / p == w
    ensures (n + 2 * p - 1) / (2 * p) == (w + 1) / 2
  {
    var v := (w + 1) / 2;
    DivBounds(n + p - 1, p, w);
    Double(v, p);
    if w != 2 * v {
      assert w == 2 * v - 1;
      Distribute(2 * v, 1, p);
    }
    DivBounds(n + 2 * p - 1, 2 * p, v);
  }

  lemma WidthUp(n: nat, height: nat)
    ensures Width(n, height + 1) == (Width(n, height) + 1) / 2
  {
    HalfUp(n, Pow2(height), Width(n, height));
  }

  lemma WidthLeaves(n: nat)
    ensures Width(n, 0) == n
  {
  }

  /** The height of the tree: where it is one node wide. */
  function HeightFrom(n: nat, height: nat): nat
    decreases Width(n, height)
  {
    WidthUp(n, height);
    if Width(n, height) > 1 then HeightFrom(n, height + 1) else height
  }

  function Height(n: nat): nat {
    HeightFrom(n, 0)
  }

  /** The leaves below a node: from First up to, not including, First of the next node. */
  function First(n: nat, height: nat, pos: nat): (p: nat)
    ensures p <= n
  {
    if pos * Pow2(height) < n then pos * Pow2(height) else n
  }

  lemma FirstUp(n: nat, height: nat, pos: nat)
    ensures First(n, height + 1, pos) == First(n, height, 2 * pos)
  {
    Double(pos, Pow2(height));
  }

  /** A node is within the width of its level exactly when there are leaves below it. */
  lemma InWidth(n: nat, height: nat, pos: nat)
    ensures pos < Width(n, height) <==> pos * Pow2(height) < n
    ensures pos < Width(n, height) <==> First(n, height, pos) < First(n, height, pos + 1)
  {
    var p, w := Pow2(height), Width(n, height);
    hide Pow2;
    DivBounds(n + p - 1, p, w);
    Add(pos, 1, p);
    if pos < w { Scale(pos + 1, w, p); } else { Scale(w, pos, p); }
  }

  lemma Children(n: nat, height: nat, pos: nat)
    requires height > 0 && pos < Width(n, height)
    ensures 2 * pos < Width(n, height - 1)
    ensures First(n, height, pos) == First(n, height - 1, 2 * pos)
    ensures First(n, height, pos + 1) == First(n, height - 1, 2 * pos + 2)
    ensures 2 * pos + 1 >= Width(n, height - 1) ==>
            First(n, height - 1, 2 * pos + 1) == First(n, height - 1, 2 * pos + 2) == n
  {
    WidthUp(n, height - 1);
    FirstUp(n, height - 1, pos);
    FirstUp(n, height - 1, pos + 1);
    InWidth(n, height - 1, 2 * pos + 1);
    Add(2 * pos + 1, 1, Pow2(height - 1));
  }

  // --------------------------------------------------------------------- hashes

  function CalcHash(f: Combine, txids: seq<Hash>, height: nat, pos: nat): Hash
    requires pos < Width(|txids|, height)
    decreases height
  {
    if height == 0 then WidthLeaves(|txids|); txids[pos]
    else
      Children(|txids|, height, pos);
      var left := CalcHash(f, txids, height - 1, 2 * pos);
      var right :=
        if 2 * pos + 1 < Width(|txids|, height - 1) then CalcHash(f, txids, height - 1, 2 * pos + 1) else left;
      f(left, right)
  }

  /** Whether some leaf from `lo` up to `hi` is matched. */
  predicate AnyMatch(matched: seq<bool>, lo: nat, hi: nat)
    requires hi <= |matched|
  {
    exists p :: lo <= p < hi && matched[p]
  }

  predicate ParentOfMatch(matched: seq<bool>, height: nat, pos: nat) {
    AnyMatch(matched, First(|matched|, height, pos), First(|matched|, height, pos + 1))
  }

  /** The matched leaves from `lo` up to `hi`, in order. */
  function Matched(txids: seq<Hash>, matched: seq<bool>, lo: nat, hi: nat): seq<Hash>
    requires hi <= |txids| == |matched|
    decreases hi - lo
  {
    if lo >= hi then []
    else (if matched[lo] then [txids[lo]] else []) + Matched(txids, matched, lo + 1, hi)
  }

  lemma {:induction false} MatchedSplit(txids: seq<Hash>, matched: seq<bool>, lo: nat, mid: nat, hi: nat)
    requires lo <= mid <= hi <= |txids| == |matched|
    ensures Matched(txids, matched, lo, hi) == Matched(txids, matched, lo, mid) + Matched(txids, matched, mid, hi)
    decreases mid - lo
  {
    if lo < mid {
      MatchedSplit(txids, matched, lo + 1, mid, hi);
    } else {
      assert Matched(txids, matched, lo, mid) == [];
    }
  }

  lemma {:induction false} MatchedNone(txids: seq<Hash>, matched: seq<bool>, lo: nat, hi: nat)
    requires hi <= |txids| == |matched| && !AnyMatch(matched, lo, hi)
    ensures Matched(txids, matched, lo, hi) == []
    decreases hi - lo
  {
    if lo < hi {
      assert !matched[lo];
      MatchedNone(txids, matched, lo + 1, hi);
    }
  }

  // ------------------------------------------------------------------- building

  datatype Parts = Parts(bits: seq<bool>, hashes: seq<Hash>)

  /** What TraverseAndBuild stores for a node. */
  function Build(f: Combine, txids: seq<Hash>, matched: seq<bool>, height: nat, pos: nat): Parts
    requires |txids| == |matched| && pos < Width(|txids|, height)
    decreases height
  {
    var parent := ParentOfMatch(matched, height, pos);
    if height == 0 || !parent then Parts([parent], [CalcHash(f, txids, height, pos)])
    else
      Children(|txids|, height, pos);
      var left := Build(f, txids, matched, height - 1, 2 * pos);
      var right := if 2 * pos + 1 < Width(|txids|, height - 1)
                   then Build(f, txids, matched, height - 1, 2 * pos + 1) else Parts([], []);
      Parts([true] + left.bits + right.bits, left.hashes + right.hashes)
  }

  /** At most one hash for every leaf, and at least one bit for every hash. */
  lemma {:induction false} BuildSize(f: Combine, txids: seq<Hash>, matched: seq<bool>, height: nat, pos: nat)
    requires |txids| == |matched| && pos < Width(|txids|, height)
    ensures var b := Build(f, txids, matched, height, pos);
            && 1 <= |b.hashes| <= First(|txids|, height, pos + 1) - First(|txids|, height, pos)
            && |b.hashes| <= |b.bits|
    decreases height
  {
    hide Width, First, ParentOfMatch, CalcHash;
    InWidth(|txids|, height, pos);
    if height > 0 && ParentOfMatch(matched, height, pos) {
      Children(|txids|, height, pos);
      BuildSize(f, txids, matched, height - 1, 2 * pos);
      if 2 * pos + 1 < Width(|txids|, height - 1) {
        BuildSize(f, txids, matched, height - 1, 2 * pos + 1);
      }
    }
  }

  // ------------------------------------------------------------------ extracting

  /** How far the reader has come, whether it ran out of data, and what it has matched. */
  datatype Reader = Reader(bitsUsed: nat, hashUsed: nat, bad: bool, matches: seq<Hash>)

  /** What TraverseAndExtract returns, and the reader after it. */
  function Extract(f: Combine, n: nat, parts: Parts, height: nat, pos: nat, r: Reader): (Hash, Reader)
    decreases height
  {
    if r.bitsUsed >= |parts.bits| then (0, r.(bad := true))
    else
      var parent := parts.bits[r.bitsUsed];
      var r1 := r.(bitsUsed := r.bitsUsed + 1);
      if height == 0 || !parent then
        if r1.hashUsed >= |parts.hashes| then (0, r1.(bad := true))
        else
          var hash := parts.hashes[r1.hashUsed];
          (hash, r1.(hashUsed := r1.hashUsed + 1,
                     matches := if height == 0 && parent then r1.matches + [hash] else r1.matches))
      else
        var (left, r2) := Extract(f, n, parts, height - 1, 2 * pos, r1);
        var (right, r3) := if 2 * pos + 1 < Width(n, height - 1)
                           then Extract(f, n, parts, height - 1, 2 * pos + 1, r2) else (left, r2);
        (f(left, right), r3)
  }

  /** `part` stands in `all` from place `at` on. */
  ghost predicate At<T>(all: seq<T>, at: nat, part: seq<T>) {
    at + |part| <= |all| && forall i :: 0 <= i < |part| ==> all[at + i] == part[i]
  }

  lemma AtSplit<T>(all: seq<T>, at: nat, a: seq<T>, b: seq<T>)
    requires At(all, at, a + b)
    ensures At(all, at, a) && At(all, at + |a|, b)
  {
    forall i | 0 <= i < |a| ensures all[at + i] == a[i] {
      assert all[at + i] == (a + b)[i];
    }
    forall i | 0 <= i < |b| ensures all[at + |a| + i] == b[i] {
      assert all[at + (|a| + i)] == (a + b)[|a| + i];
    }
  }

  ghost predicate PartsAt(parts: Parts, r: Reader, b: Parts) {
    At(parts.bits, r.bitsUsed, b.bits) && At(parts.hashes, r.hashUsed, b.hashes)
  }

  /** The reader after taking `b`, and these matches. */
  function Taken(r: Reader, b: Parts, more: seq<Hash>): Reader {
    Reader(r.bitsUsed + |b.bits|, r.hashUsed + |b.hashes|, r.bad, r.matches + more)
  }

  function MatchedBelow(txids: seq<Hash>, matched: seq<bool>, height: nat, pos: nat): seq<Hash>
    requires |txids| == |matched|
  {
    Matched(txids, matched, First(|txids|, height, pos), First(|txids|, height, pos + 1))
  }

  lemma ExtractLeaf(f: Combine, txids: seq<Hash>, matched: seq<bool>, height: nat, pos: nat, parts: Parts, r: Reader)
    requires |txids| == |matched| && pos < Width(|txids|, height)
    requires height == 0 || !ParentOfMatch(matched, height, pos)
    requires PartsAt(parts, r, Build(f, txids, matched, height, pos))
    ensures Extract(f, |txids|, parts, height, pos, r) ==
              (CalcHash(f, txids, height, pos),
               Taken(r, Build(f, txids, matched, height, pos), MatchedBelow(txids, matched, height, pos)))
  {
    hide CalcHash, Width, First, Matched, ParentOfMatch;
    BelowLeaf(txids, matched, height, pos);
    ReadLeaf(parts, r, ParentOfMatch(matched, height, pos), CalcHash(f, txids, height, pos));
    LeafHash(f, txids, height, pos);
    var parent := ParentOfMatch(matched, height, pos);
    assert !(height == 0 && parent) ==> r.matches + [] == r.matches;
  }

  lemma LeafHash(f: Combine, txids: seq<Hash>, height: nat, pos: nat)
    requires pos < Width(|txids|, height)
    ensures height == 0 ==> pos < |txids| && CalcHash(f, txids, height, pos) == txids[pos]
  {
    if height == 0 { WidthLeaves(|txids|); }
  }

  lemma ReadLeaf(parts: Parts, r: Reader, bit: bool, hash: Hash)
    requires PartsAt(parts, r, Parts([bit], [hash]))
    ensures r.bitsUsed < |parts.bits| && parts.bits[r.bitsUsed] == bit
    ensures r.hashUsed < |parts.hashes| && parts.hashes[r.hashUsed] == hash
  {
    assert parts.bits[r.bitsUsed + 0] == [bit][0];
    assert parts.hashes[r.hashUsed + 0] == [hash][0];
  }

  lemma BelowLeaf(txids: seq<Hash>, matched: seq<bool>, height: nat, pos: nat)
    requires |txids| == |matched| && pos < Width(|txids|, height)
    ensures !ParentOfMatch(matched, height, pos) ==> MatchedBelow(txids, matched, height, pos) == []
    ensures height == 0 && ParentOfMatch(matched, height, pos) ==>
              pos < |txids| && MatchedBelow(txids, matched, height, pos) == [txids[pos]]
  {
    var lo, hi := First(|txids|, height, pos), First(|txids|, height, pos + 1);
    if !ParentOfMatch(matched, height, pos) {
      MatchedNone(txids, matched, lo, hi);
    } else if height == 0 {
      InWidth(|txids|, 0, pos);
      assert lo == pos && hi == pos + 1;
      assert Matched(txids, matched, hi, hi) == [];
      assert Matched(txids, matched, lo, hi) == [txids[pos]];
    }
  }

  /** The inner case of the reader. */
  lemma ExtractInner(f: Combine, n: nat, parts: Parts, height: nat, pos: nat, r: Reader,
                     left: (Hash, Reader), right: (Hash, Reader))
    requires height > 0 && r.bitsUsed < |parts.bits| && parts.bits[r.bitsUsed]
    requires left == Extract(f, n, parts, height - 1, 2 * pos, r.(bitsUsed := r.bitsUsed + 1))
    requires right == if 2 * pos + 1 < Width(n, height - 1)
                      then Extract(f, n, parts, height - 1, 2 * pos + 1, left.1) else left
    ensures Extract(f, n, parts, height, pos, r) == (f(left.0, right.0), right.1)
  {
  }

  lemma MatchedChildren(txids: seq<Hash>, matched: seq<bool>, height: nat, pos: nat)
    requires |txids| == |matched| && height > 0 && pos < Width(|txids|, height)
    ensures MatchedBelow(txids, matched, height, pos) == MatchedBelow(txids, matched, height - 1, 2 * pos) +
      (if 2 * pos + 1 < Width(|txids|, height - 1) then MatchedBelow(txids, matched, height - 1, 2 * pos + 1) else [])
  {
    var n := |txids|;
    Children(n, height, pos);
    InWidth(n, height - 1, 2 * pos);
    InWidth(n, height - 1, 2 * pos + 1);
    MatchedSplit(txids, matched, First(n, height, pos), First(n, height - 1, 2 * pos + 1), First(n, height, pos + 1));
  }

  lemma PartsSplit(parts: Parts, r: Reader, left: Parts, right: Parts)
    requires PartsAt(parts, r, Parts([true] + left.bits + right.bits, left.hashes + right.hashes))
    ensures r.bitsUsed < |parts.bits| && parts.bits[r.bitsUsed]
    ensures var r1 := r.(bitsUsed := r.bitsUsed + 1);
            PartsAt(parts, r1, left) && forall more :: PartsAt(parts, Taken(r1, left, more), right)
  {
    AtSplit(parts.bits, r.bitsUsed, [true] + left.bits, right.bits);
    AtSplit(parts.bits, r.bitsUsed, [true], left.bits);
    assert parts.bits[r.bitsUsed + 0] == [true][0];
    AtSplit(parts.hashes, r.hashUsed, left.hashes, right.hashes);
  }

  /** The parts and the hash of an inner node. */
  lemma BuildInner(f: Combine, txids: seq<Hash>, matched: seq<bool>, height: nat, pos: nat)
    requires |txids| == |matched| && pos < Width(|txids|, height)
    requires height > 0 && ParentOfMatch(matched, height, pos) && 2 * pos < Width(|txids|, height - 1)
    ensures var left := Build(f, txids, matched, height - 1, 2 * pos);
            var two := 2 * pos + 1 < Width(|txids|, height - 1);
            var right := if two then Build(f, txids, matched, height - 1, 2 * pos + 1) else Parts([], []);
            Build(f, txids, matched, height, pos)
              == Parts([true] + left.bits + right.bits, left.hashes + right.hashes)
    ensures var left := CalcHash(f, txids, height - 1, 2 * pos);
            CalcHash(f, txids, height, pos)
              == f(left, if 2 * pos + 1 < Width(|txids|, height - 1)
                         then CalcHash(f, txids, height - 1, 2 * pos + 1) else left)
  {
  }

  lemma TakenJoin(r: Reader, left: Parts, right: Parts, inLeft: seq<Hash>, inRight: seq<Hash>)
    ensures Taken(Taken(r.(bitsUsed := r.bitsUsed + 1), left, inLeft), right, inRight)
         == Taken(r, Parts([true] + left.bits + right.bits, left.hashes + right.hashes), inLeft + inRight)
  {
    assert (r.matches + inLeft) + inRight == r.matches + (inLeft + inRight);
  }

  lemma TakenNothing(r: Reader)
    ensures Taken(r, Parts([], []), []) == r
  {
    assert r.matches + [] == r.matches;
  }

  /** From where a node's parts begin, the reader takes exactly them, finds the node's hash,
      and matches the node's matched leaves in order. */
  lemma {:induction false} ExtractBuilt(f: Combine, txids: seq<Hash>, matched: seq<bool>, height: nat, pos: nat,
                                        parts: Parts, r: Reader)
    requires |txids| == |matched| && pos < Width(|txids|, height)
    requires PartsAt(parts, r, Build(f, txids, matched, height, pos))
    ensures Extract(f, |txids|, parts, height, pos, r) ==
              (CalcHash(f, txids, height, pos),
               Taken(r, Build(f, txids, matched, height, pos), MatchedBelow(txids, matched, height, pos)))
    decreases height
  {
    hide PartsAt, MatchedBelow, Width, First, ParentOfMatch, Extract, Build, CalcHash, Taken;
    if height == 0 || !ParentOfMatch(matched, height, pos) {
      ExtractLeaf(f, txids, matched, height, pos, parts, r);
    } else {
      var n := |txids|;
      Children(n, height, pos);
      MatchedChildren(txids, matched, height, pos);
      BuildInner(f, txids, matched, height, pos);
      var left := Build(f, txids, matched, height - 1, 2 * pos);
      var inLeft := MatchedBelow(txids, matched, height - 1, 2 * pos);
      var r1 := r.(bitsUsed := r.bitsUsed + 1);
      var leftResult := (CalcHash(f, txids, height - 1, 2 * pos), Taken(r1, left, inLeft));
      if 2 * pos + 1 < Width(n, height - 1) {
        var right := Build(f, txids, matched, height - 1, 2 * pos + 1);
        var inRight := MatchedBelow(txids, matched, height - 1, 2 * pos + 1);
        PartsSplit(parts, r, left, right);
        ExtractBuilt(f, txids, matched, height - 1, 2 * pos, parts, r1);
        ExtractBuilt(f, txids, matched, height - 1, 2 * pos + 1, parts, leftResult.1);
        TakenJoin(r, left, right, inLeft, inRight);
        ExtractInner(f, n, parts, height, pos, r, leftResult,
                     (CalcHash(f, txids, height - 1, 2 * pos + 1), Taken(leftResult.1, right, inRight)));
      } else {
        PartsSplit(parts, r, left, Parts([], []));
        ExtractBuilt(f, txids, matched, height - 1, 2 * pos, parts, r1);
        TakenJoin(r, left, Parts([], []), inLeft, []);
        TakenNothing(leftResult.1);
        ExtractInner(f, n, parts, height, pos, r, leftResult, leftResult);
      }
    }
  }

  // --------------------------------------------------------------- whole trees

  lemma {:induction false} HeightWidth(n: nat, height: nat)
    ensures Width(n, HeightFrom(n, height)) <= 1
    decreases Width(n, height)
  {
    WidthUp(n, height);
    if Width(n, height) > 1 { HeightWidth(n, height + 1); }
  }

  /** The root is over all the leaves. */
  lemma RootRange(n: nat)
    requires n > 0
    ensures Width(n, Height(n)) == 1 && First(n, Height(n), 0) == 0 && First(n, Height(n), 1) == n
  {
    var h := Height(n);
    HeightWidth(n, 0);
    InWidth(n, h, 0);
    InWidth(n, h, 1);
  }

  function BuildTree(f: Combine, txids: seq<Hash>, matched: seq<bool>): Parts
    requires |txids| == |matched| > 0
  {
    RootRange(|txids|);
    Build(f, txids, matched, Height(|txids|), 0)
  }

  function MerkleRoot(f: Combine, txids: seq<Hash>): Hash
    requires |txids| > 0
  {
    RootRange(|txids|);
    CalcHash(f, txids, Height(|txids|), 0)
  }

  const START: Reader := Reader(0, 0, false, [])

  /** Whether ExtractMatches accepts what the reader has left. */
  predicate Consumed(parts: Parts, r: Reader) {
    !r.bad && (r.bitsUsed + 7) / 8 == (|parts.bits| + 7) / 8 && r.hashUsed == |parts.hashes|
  }

  /** The Merkle root and the matched transactions; the null hash stands for failure. */
  function ExtractMatches(f: Combine, n: nat, parts: Parts): (Hash, seq<Hash>) {
    if n == 0 || n > MAX_TRANSACTIONS || |parts.hashes| > n || |parts.bits| < |parts.hashes| then (0, [])
    else
      var (root, r) := Extract(f, n, parts, Height(n), 0, START);
      (if Consumed(parts, r) then root else 0, r.matches)
  }

  /** Bits as they come back from bytes: padded with zeros to a multiple of eight. */
  ghost predicate Padded(bits: seq<bool>, more: seq<bool>) {
    bits <= more && (|more| + 7) / 8 == (|bits| + 7) / 8
  }

  /** Extracting from a built tree gives the Merkle root and exactly the matched
      transactions, in order, even after the bits were packed to bytes and back. */
  lemma RoundTrip(f: Combine, txids: seq<Hash>, matched: seq<bool>, bits: seq<bool>)
    requires 0 < |txids| == |matched| <= MAX_TRANSACTIONS
    requires Padded(BuildTree(f, txids, matched).bits, bits)
    ensures ExtractMatches(f, |txids|, Parts(bits, BuildTree(f, txids, matched).hashes))
         == (MerkleRoot(f, txids), Matched(txids, matched, 0, |txids|))
  {
    hide Width, First, Build, CalcHash, Extract, HeightFrom, Matched, PartsAt;
    var n := |txids|;
    var b := BuildTree(f, txids, matched);
    var parts := Parts(bits, b.hashes);
    RootRange(n);
    BuildSize(f, txids, matched, Height(n), 0);
    PaddedAt(b, bits);
    ExtractBuilt(f, txids, matched, Height(n), 0, parts, START);
    assert START.matches + Matched(txids, matched, 0, n) == Matched(txids, matched, 0, n);
  }

  lemma PaddedAt(b: Parts, bits: seq<bool>)
    requires Padded(b.bits, bits)
    ensures PartsAt(Parts(bits, b.hashes), START, b)
  {
  }

  // ------------------------------------------------------------------ guarantees

  function CountMatched(matched: seq<bool>, lo: nat, hi: nat): nat
    requires hi <= |matched|
    decreases hi - lo
  {
    if lo >= hi then 0 else (if matched[lo] then 1 else 0) + CountMatched(matched, lo + 1, hi)
  }

  lemma {:induction false} CountSplit(matched: seq<bool>, lo: nat, mid: nat, hi: nat)
    requires lo <= mid <= hi <= |matched|
    ensures CountMatched(matched, lo, hi) == CountMatched(matched, lo, mid) + CountMatched(matched, mid, hi)
    decreases mid - lo
  {
    if lo < mid { CountSplit(matched, lo + 1, mid, hi); }
  }

  lemma {:induction false} CountSome(matched: seq<bool>, lo: nat, hi: nat)
    requires hi <= |matched| && AnyMatch(matched, lo, hi)
    ensures CountMatched(matched, lo, hi) >= 1
    decreases hi - lo
  {
    if !matched[lo] {
      var p :| lo <= p < hi && matched[p];
      CountSome(matched, lo + 1, hi);
    }
  }

  function CountBelow(matched: seq<bool>, height: nat, pos: nat): nat {
    CountMatched(matched, First(|matched|, height, pos), First(|matched|, height, pos + 1))
  }

  lemma BoundStep(l: nat, r: nat, height: nat, inLeft: nat, inRight: nat)
    requires height > 0 && l + r > 0
    requires inLeft <= 1 + l * (height - 1) && inRight <= 1 + r * (height - 1)
    ensures inLeft + inRight <= 1 + (l + r) * height
  {
    Add(l, r, height);
    Distribute(height, 1, l);
    Distribute(height, 1, r);
  }

  /** The documented bound on the number of hashes: one more than the matched transactions
      times the height. */
  lemma {:induction false} HashBound(f: Combine, txids: seq<Hash>, matched: seq<bool>, height: nat, pos: nat)
    requires |txids| == |matched| && pos < Width(|txids|, height)
    ensures |Build(f, txids, matched, height, pos).hashes| <= 1 + CountBelow(matched, height, pos) * height
    decreases height
  {
    var n := |txids|;
    hide CountMatched, Pow2, CalcHash, Width, First;
    if height > 0 && ParentOfMatch(matched, height, pos) {
      CountSome(matched, First(n, height, pos), First(n, height, pos + 1));
      Children(n, height, pos);
      InWidth(n, height - 1, 2 * pos);
      InWidth(n, height - 1, 2 * pos + 1);
      CountSplit(matched, First(n, height, pos), First(n, height - 1, 2 * pos + 1), First(n, height, pos + 1));
      var l := CountBelow(matched, height - 1, 2 * pos);
      var r := CountBelow(matched, height - 1, 2 * pos + 1);
      HashBound(f, txids, matched, height - 1, 2 * pos);
      if 2 * pos + 1 < Width(n, height - 1) {
        HashBound(f, txids, matched, height - 1, 2 * pos + 1);
      }
      BoundStep(l, r, height, |Build(f, txids, matched, height - 1, 2 * pos).hashes|,
                if 2 * pos + 1 < Width(n, height - 1)
                then |Build(f, txids, matched, height - 1, 2 * pos + 1).hashes| else 0);
    }
  }

  lemma {:induction false} CountIs(txids: seq<Hash>, matched: seq<bool>, lo: nat, hi: nat)
    requires hi <= |txids| == |matched|
    ensures |Matched(txids, matched, lo, hi)| == CountMatched(matched, lo, hi)
    decreases hi - lo
  {
    if lo < hi { CountIs(txids, matched, lo + 1, hi); }
  }

  /** So a whole proof has at most one hash more than its matches times the height of the tree. */
  lemma TreeBound(f: Combine, txids: seq<Hash>, matched: seq<bool>)
    requires 0 < |txids| == |matched|
    ensures |BuildTree(f, txids, matched).hashes| <= 1 + |Matched(txids, matched, 0, |txids|)| * Height(|txids|)
  {
    hide Build, CountMatched, Matched, Width, First, Height;
    RootRange(|txids|);
    HashBound(f, txids, matched, Height(|txids|), 0);
    CountIs(txids, matched, 0, |txids|);
  }

  /** How many of the nodes that the builder descends into have only one child. */
  function OnlyChildren(matched: seq<bool>, height: nat, pos: nat): nat
    decreases height
  {
    if height == 0 || !ParentOfMatch(matched, height, pos) then 0
    else if 2 * pos + 1 < Width(|matched|, height - 1) then
      OnlyChildren(matched, height - 1, 2 * pos) + OnlyChildren(matched, height - 1, 2 * pos + 1)
    else 1 + OnlyChildren(matched, height - 1, 2 * pos)
  }

  /** The number of bits is not always at most 2N - 1 for N hashes, as the format's
      description says: each node with an only child costs one more. */
  lemma {:induction false} BitCount(f: Combine, txids: seq<Hash>, matched: seq<bool>, height: nat, pos: nat)
    requires |txids| == |matched| && pos < Width(|txids|, height)
    ensures var b := Build(f, txids, matched, height, pos);
            |b.bits| == 2 * |b.hashes| - 1 + OnlyChildren(matched, height, pos)
    decreases height
  {
    if height > 0 && ParentOfMatch(matched, height, pos) {
      Children(|txids|, height, pos);
      BitCount(f, txids, matched, height - 1, 2 * pos);
      if 2 * pos + 1 < Width(|txids|, height - 1) {
        BitCount(f, txids, matched, height - 1, 2 * pos + 1);
      }
    }
  }

  /** Three transactions, the last one matched: two hashes, and four bits. */
  lemma BitBoundFails(f: Combine, txids: seq<Hash>, matched: seq<bool>)
    requires |txids| == 3 && matched == [false, false, true]
    ensures var b := BuildTree(f, txids, matched); |b.hashes| == 2 && |b.bits| == 4
  {
    SmallTree();
    SmallOnly();
    hide Width, Height, HeightFrom, ParentOfMatch, Build, OnlyChildren;
    SmallHashes(f, txids, matched);
    BitCount(f, txids, matched, 2, 0);
  }

  lemma SmallOnly()
    ensures OnlyChildren([false, false, true], 2, 0) == 1
  {
    var matched := [false, false, true];
    SmallTree();
    hide Width, HeightFrom, ParentOfMatch;
    assert OnlyChildren(matched, 0, 2) == 0;
    assert OnlyChildren(matched, 1, 0) == 0;
    assert OnlyChildren(matched, 1, 1) == 1;
  }

  lemma SmallTree()
    ensures Width(3, 0) == 3 && Width(3, 1) == 2 && Width(3, 2) == 1 && Height(3) == 2
    ensures var matched := [false, false, true];
            && ParentOfMatch(matched, 2, 0) && ParentOfMatch(matched, 1, 1) && ParentOfMatch(matched, 0, 2)
            && !ParentOfMatch(matched, 1, 0)
  {
    assert Width(3, 0) == 3 && Width(3, 1) == 2 && Width(3, 2) == 1;
    assert Height(3) == HeightFrom(3, 1) == HeightFrom(3, 2) == 2;
    assert [false, false, true][2];
  }

  lemma SmallHashes(f: Combine, txids: seq<Hash>, matched: seq<bool>)
    requires |txids| == 3 && matched == [false, false, true]
    ensures 0 < Width(3, 2) && |Build(f, txids, matched, 2, 0).hashes| == 2
  {
    SmallTree();
    hide Width, ParentOfMatch, CalcHash;
    assert |Build(f, txids, matched, 1, 0).hashes| == 1;
    assert |Build(f, txids, matched, 0, 2).hashes| == 1;
    assert |Build(f, txids, matched, 1, 1).hashes| == 1;
  }

  // --------------------------------------------------------------------- soundness

  /** Different pairs have different hashes. */
  ghost predicate Injective(f: Combine) {
    forall a, b, c, d :: f(a, b) == f(c, d) ==> a == c && b == d
  }

  /** `found` lists leaves at these places, each further right than the one before, all from
      `lo` up to `hi`. */
  ghost predicate Picked(txids: seq<Hash>, found: seq<Hash>, places: seq<nat>, lo: nat, hi: nat) {
    && |places| == |found| && hi <= |txids|
    && (forall i :: 0 <= i < |places| ==> lo <= places[i] < hi && found[i] == txids[places[i]])
    && (forall i, j :: 0 <= i < j < |places| ==> places[i] < places[j])
  }

  lemma {:induction false} BadStays(f: Combine, n: nat, parts: Parts, height: nat, pos: nat, r: Reader)
    ensures r.bad ==> Extract(f, n, parts, height, pos, r).1.bad
    decreases height
  {
    if r.bitsUsed < |parts.bits| && height > 0 && parts.bits[r.bitsUsed] {
      var r1 := r.(bitsUsed := r.bitsUsed + 1);
      BadStays(f, n, parts, height - 1, 2 * pos, r1);
      if 2 * pos + 1 < Width(n, height - 1) {
        BadStays(f, n, parts, height - 1, 2 * pos + 1, Extract(f, n, parts, height - 1, 2 * pos, r1).1);
      }
    }
  }

  /** What the reader has matched between `r` and `t` are the leaves at these places. */
  ghost predicate Found(txids: seq<Hash>, r: Reader, t: Reader, places: seq<nat>, lo: nat, hi: nat) {
    r.matches <= t.matches && Picked(txids, t.matches[|r.matches|..], places, lo, hi)
  }

  lemma FoundHere(f: Combine, txids: seq<Hash>, parts: Parts, height: nat, pos: nat, r: Reader)
      returns (places: seq<nat>)
    requires pos < Width(|txids|, height) && r.bitsUsed < |parts.bits| && (height == 0 || !parts.bits[r.bitsUsed])
    requires var (hash, t) := Extract(f, |txids|, parts, height, pos, r);
             !t.bad && hash == CalcHash(f, txids, height, pos)
    ensures Found(txids, r, Extract(f, |txids|, parts, height, pos, r).1, places,
                  First(|txids|, height, pos), First(|txids|, height, pos + 1))
  {
    InWidth(|txids|, height, pos);
    if height == 0 && parts.bits[r.bitsUsed] {
      places := [pos];
    } else {
      places := [];
    }
  }

  lemma FoundJoin(txids: seq<Hash>, r: Reader, s: Reader, t: Reader, left: seq<nat>, right: seq<nat>, lo: nat,
                  mid: nat, hi: nat)
    requires Found(txids, r, s, left, lo, mid) && Found(txids, s, t, right, mid, hi) && lo <= mid <= hi
    ensures Found(txids, r, t, left + right, lo, hi)
  {
    PickedJoin(txids, r.matches, s.matches, t.matches, left, right, lo, mid, hi);
  }

  lemma InnerHash(f: Combine, txids: seq<Hash>, height: nat, pos: nat, a: Hash, b: Hash)
    requires Injective(f) && height > 0 && pos < Width(|txids|, height) && 2 * pos < Width(|txids|, height - 1)
    requires f(a, b) == CalcHash(f, txids, height, pos)
    ensures a == CalcHash(f, txids, height - 1, 2 * pos)
    ensures 2 * pos + 1 < Width(|txids|, height - 1) ==> b == CalcHash(f, txids, height - 1, 2 * pos + 1)
  {
  }

  /** Whatever the bits and hashes are: if the reader ends well with the true hash of a node,
      then what it has matched on the way are leaves below that node, in order. */
  lemma {:induction false} ExtractSound(f: Combine, txids: seq<Hash>, parts: Parts, height: nat, pos: nat, r: Reader)
    returns (places: seq<nat>)
    requires Injective(f) && pos < Width(|txids|, height)
    requires var (hash, t) := Extract(f, |txids|, parts, height, pos, r);
             !t.bad && hash == CalcHash(f, txids, height, pos)
    ensures Found(txids, r, Extract(f, |txids|, parts, height, pos, r).1, places,
                  First(|txids|, height, pos), First(|txids|, height, pos + 1))
    decreases height
  {
    hide Found, CalcHash, Width, First, Injective;
    var n := |txids|;
    if height == 0 || !parts.bits[r.bitsUsed] {
      places := FoundHere(f, txids, parts, height, pos, r);
    } else {
      Children(n, height, pos);
      InWidth(n, height - 1, 2 * pos);
      var r1 := r.(bitsUsed := r.bitsUsed + 1);
      var (a, r2) := Extract(f, n, parts, height - 1, 2 * pos, r1);
      if 2 * pos + 1 < Width(n, height - 1) {
        var (b, r3) := Extract(f, n, parts, height - 1, 2 * pos + 1, r2);
        InnerHash(f, txids, height, pos, a, b);
        BadStays(f, n, parts, height - 1, 2 * pos + 1, r2);
        InWidth(n, height - 1, 2 * pos + 1);
        hide Extract;
        var left := ExtractSound(f, txids, parts, height - 1, 2 * pos, r1);
        var right := ExtractSound(f, txids, parts, height - 1, 2 * pos + 1, r2);
        FoundFrom(txids, r, r1, r2, left, First(n, height - 1, 2 * pos), First(n, height - 1, 2 * pos + 1));
        FoundJoin(txids, r, r2, r3, left, right,
                  First(n, height - 1, 2 * pos), First(n, height - 1, 2 * pos + 1), First(n, height - 1, 2 * pos + 2));
        places := left + right;
        ExtractInner(f, n, parts, height, pos, r, (a, r2), (b, r3));
      } else {
        InnerHash(f, txids, height, pos, a, a);
        hide Extract;
        places := ExtractSound(f, txids, parts, height - 1, 2 * pos, r1);
        FoundFrom(txids, r, r1, r2, places, First(n, height - 1, 2 * pos), n);
        ExtractInner(f, n, parts, height, pos, r, (a, r2), (a, r2));
      }
    }
  }

  lemma FoundFrom(txids: seq<Hash>, r: Reader, r1: Reader, t: Reader, places: seq<nat>, lo: nat, hi: nat)
    requires r.matches == r1.matches && Found(txids, r1, t, places, lo, hi)
    ensures Found(txids, r, t, places, lo, hi)
  {
  }

  lemma PickedJoin(txids: seq<Hash>, a: seq<Hash>, b: seq<Hash>, c: seq<Hash>, left: seq<nat>, right: seq<nat>,
                   lo: nat, mid: nat, hi: nat)
    requires a <= b <= c && lo <= mid <= hi
    requires Picked(txids, b[|a|..], left, lo, mid) && Picked(txids, c[|b|..], right, mid, hi)
    ensures Picked(txids, c[|a|..], left + right, lo, hi)
  {
    assert c[|a|..] == b[|a|..] + c[|b|..];
  }

  /** If the hash does not collide, a proof for the true number of transactions that yields
      the true Merkle root matches only transactions of the block, in the block's order. */
  lemma Soundness(f: Combine, txids: seq<Hash>, parts: Parts)
    requires Injective(f) && |txids| > 0 && MerkleRoot(f, txids) != 0
    requires ExtractMatches(f, |txids|, parts).0 == MerkleRoot(f, txids)
    ensures exists places :: Picked(txids, ExtractMatches(f, |txids|, parts).1, places, 0, |txids|)
  {
    var n := |txids|;
    RootRange(n);
    var places := ExtractSound(f, txids, parts, Height(n), 0, START);
    var found := ExtractMatches(f, n, parts).1;
    assert found[0..] == found;
    assert Picked(txids, found, places, 0, n);
  }

  ghost predicate Within(txids: seq<Hash>, matches: seq<Hash>) {
    forall i :: 0 <= i < |matches| ==> matches[i] in txids
  }

  /** Whatever number of transactions `n` is announced: if the reader ends well at a node with the
      true hash of some node of the same height, what it has matched are transactions. */
  lemma {:induction false} ExtractWithin(f: Combine, txids: seq<Hash>, n: nat, parts: Parts, height: nat, pos: nat,
                                         at: nat, r: Reader)
    requires Injective(f) && at < Width(|txids|, height) && Within(txids, r.matches)
    requires var (hash, t) := Extract(f, n, parts, height, pos, r);
             !t.bad && hash == CalcHash(f, txids, height, at)
    ensures Within(txids, Extract(f, n, parts, height, pos, r).1.matches)
    decreases height
  {
    hide CalcHash, Width, Injective, Within;
    if height == 0 || !parts.bits[r.bitsUsed] {
      MatchedLeaf(f, txids, n, parts, height, pos, at, r);
    } else {
      Children(|txids|, height, at);
      var r1 := r.(bitsUsed := r.bitsUsed + 1);
      var (a, r2) := Extract(f, n, parts, height - 1, 2 * pos, r1);
      if 2 * pos + 1 < Width(n, height - 1) {
        var (b, r3) := Extract(f, n, parts, height - 1, 2 * pos + 1, r2);
        InnerHash(f, txids, height, at, a, b);
        BadStays(f, n, parts, height - 1, 2 * pos + 1, r2);
        var right := RightOf(f, txids, height, at, a, b);
        hide Extract;
        ExtractWithin(f, txids, n, parts, height - 1, 2 * pos, 2 * at, r1);
        ExtractWithin(f, txids, n, parts, height - 1, 2 * pos + 1, right, r2);
        ExtractInner(f, n, parts, height, pos, r, (a, r2), (b, r3));
      } else {
        InnerHash(f, txids, height, at, a, a);
        hide Extract;
        ExtractWithin(f, txids, n, parts, height - 1, 2 * pos, 2 * at, r1);
        ExtractInner(f, n, parts, height, pos, r, (a, r2), (a, r2));
      }
    }
  }

  /** The true node whose hash is the right half of an inner node's: the left one, when that is
      the only one. */
  lemma RightOf(f: Combine, txids: seq<Hash>, height: nat, at: nat, a: Hash, b: Hash) returns (right: nat)
    requires Injective(f) && height > 0 && at < Width(|txids|, height) && 2 * at < Width(|txids|, height - 1)
    requires f(a, b) == CalcHash(f, txids, height, at)
    ensures right < Width(|txids|, height - 1) && b == CalcHash(f, txids, height - 1, right)
  {
    right := if 2 * at + 1 < Width(|txids|, height - 1) then 2 * at + 1 else 2 * at;
  }

  lemma MatchedLeaf(f: Combine, txids: seq<Hash>, n: nat, parts: Parts, height: nat, pos: nat, at: nat, r: Reader)
    requires at < Width(|txids|, height) && Within(txids, r.matches) && r.bitsUsed < |parts.bits|
    requires height == 0 || !parts.bits[r.bitsUsed]
    requires var (hash, t) := Extract(f, n, parts, height, pos, r);
             !t.bad && hash == CalcHash(f, txids, height, at)
    ensures Within(txids, Extract(f, n, parts, height, pos, r).1.matches)
  {
    if height == 0 { WidthLeaves(|txids|); }
  }

  /** A receiver does not know the number of transactions: whatever is announced, as long as the
      tree has the same height, a proof with the true root matches only transactions of the block. */
  lemma SoundAnyCount(f: Combine, txids: seq<Hash>, n: nat, parts: Parts)
    requires Injective(f) && |txids| > 0 && MerkleRoot(f, txids) != 0 && Height(n) == Height(|txids|)
    requires ExtractMatches(f, n, parts).0 == MerkleRoot(f, txids)
    ensures Within(txids, ExtractMatches(f, n, parts).1)
  {
    hide Extract, CalcHash, Width, HeightFrom, Injective;
    RootRange(|txids|);
    ExtractWithin(f, txids, n, parts, Height(n), 0, 0, START);
  }

  /** With another height it may match an inner node: two transactions, of which one is announced. */
  lemma HeightMatters(f: Combine, a: Hash, b: Hash)
    requires f(a, b) != 0 && f(a, b) != a && f(a, b) != b
    ensures var parts := Parts([true], [f(a, b)]);
            && ExtractMatches(f, 1, parts) == (MerkleRoot(f, [a, b]), [f(a, b)])
            && !Within([a, b], ExtractMatches(f, 1, parts).1)
  {
    var parts := Parts([true], [f(a, b)]);
    TwoLeaves(f, a, b);
    OneLeaf(f, parts);
    hide HeightFrom, Extract, MerkleRoot;
    assert ExtractMatches(f, 1, parts).1[0] !in [a, b];
  }

  lemma TwoLeaves(f: Combine, a: Hash, b: Hash)
    ensures MerkleRoot(f, [a, b]) == f(a, b)
  {
    hide Width;
    WidthLeaves(2);
    WidthUp(2, 0);
    assert HeightFrom(2, 1) == 1;
    assert CalcHash(f, [a, b], 0, 0) == a && CalcHash(f, [a, b], 0, 1) == b;
  }

  lemma OneLeaf(f: Combine, parts: Parts)
    requires |parts.bits| == |parts.hashes| == 1 && parts.bits[0]
    ensures Height(1) == 0
    ensures Extract(f, 1, parts, 0, 0, START) == (parts.hashes[0], Reader(1, 1, false, [parts.hashes[0]]))
  {
    hide Width;
    WidthLeaves(1);
    assert START.matches + [parts.hashes[0]] == [parts.hashes[0]];
  }

  // --------------------------------------------------------------------- tampering

  /** Two readers at the same place. */
  predicate SamePlace(r: Reader, s: Reader) {
    r.bitsUsed == s.bitsUsed && r.hashUsed == s.hashUsed
  }

  ghost predicate SameHashes(p: Parts, q: Parts, lo: nat, hi: nat) {
    lo <= hi <= |p.hashes| && hi <= |q.hashes| && forall i :: lo <= i < hi ==> p.hashes[i] == q.hashes[i]
  }

  /** Two proofs with the same bits that both end well with the same hash have taken the same
      hashes. */
  lemma {:induction false} ExtractUnique(f: Combine, n: nat, p: Parts, q: Parts, height: nat, pos: nat, r: Reader,
                                         s: Reader)
    requires Injective(f) && p.bits == q.bits && SamePlace(r, s)
    requires var (a, r') := Extract(f, n, p, height, pos, r);
             var (b, s') := Extract(f, n, q, height, pos, s);
             !r'.bad && !s'.bad && a == b
    ensures var r' := Extract(f, n, p, height, pos, r).1;
            SamePlace(r', Extract(f, n, q, height, pos, s).1) && SameHashes(p, q, r.hashUsed, r'.hashUsed)
    decreases height
  {
    hide SameHashes, Width, Injective;
    if height == 0 || !p.bits[r.bitsUsed] {
      SameHash(p, q, r.hashUsed);
    } else {
      var r1, s1 := r.(bitsUsed := r.bitsUsed + 1), s.(bitsUsed := s.bitsUsed + 1);
      var left, left' := Extract(f, n, p, height - 1, 2 * pos, r1), Extract(f, n, q, height - 1, 2 * pos, s1);
      if 2 * pos + 1 < Width(n, height - 1) {
        var right := Extract(f, n, p, height - 1, 2 * pos + 1, left.1);
        var right' := Extract(f, n, q, height - 1, 2 * pos + 1, left'.1);
        BadStays(f, n, p, height - 1, 2 * pos + 1, left.1);
        BadStays(f, n, q, height - 1, 2 * pos + 1, left'.1);
        InjectiveAt(f, left.0, right.0, left'.0, right'.0);
        ExtractInner(f, n, p, height, pos, r, left, right);
        ExtractInner(f, n, q, height, pos, s, left', right');
        hide Extract;
        ExtractUnique(f, n, p, q, height - 1, 2 * pos, r1, s1);
        ExtractUnique(f, n, p, q, height - 1, 2 * pos + 1, left.1, left'.1);
        SameHashesJoin(p, q, r.hashUsed, left.1.hashUsed, right.1.hashUsed);
      } else {
        InjectiveAt(f, left.0, left.0, left'.0, left'.0);
        ExtractInner(f, n, p, height, pos, r, left, left);
        ExtractInner(f, n, q, height, pos, s, left', left');
        hide Extract;
        ExtractUnique(f, n, p, q, height - 1, 2 * pos, r1, s1);
      }
    }
  }

  lemma InjectiveAt(f: Combine, a: Hash, b: Hash, c: Hash, d: Hash)
    requires Injective(f)
    ensures f(a, b) == f(c, d) ==> a == c && b == d
  {
  }

  lemma SameHash(p: Parts, q: Parts, i: nat)
    ensures i < |p.hashes| && i < |q.hashes| && p.hashes[i] == q.hashes[i] ==> SameHashes(p, q, i, i + 1)
  {
  }

  lemma SameHashesJoin(p: Parts, q: Parts, lo: nat, mid: nat, hi: nat)
    requires SameHashes(p, q, lo, mid) && SameHashes(p, q, mid, hi)
    ensures SameHashes(p, q, lo, hi)
  {
  }

  /** If the hash does not collide, changing any of the hashes of a proof breaks it: it then
      fails, or yields another root. */
  lemma TamperEvident(f: Combine, n: nat, p: Parts, q: Parts)
    requires Injective(f) && p.bits == q.bits && ExtractMatches(f, n, p).0 != 0
    ensures ExtractMatches(f, n, q).0 == ExtractMatches(f, n, p).0 ==> q.hashes == p.hashes
  {
    if ExtractMatches(f, n, q).0 == ExtractMatches(f, n, p).0 {
      ExtractUnique(f, n, p, q, Height(n), 0, START, START);
      hide Extract;
    }
  }
}

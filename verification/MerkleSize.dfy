/** How long a partial Merkle tree is in bytes, and when the guarantee of src/merkleblock.h holds:
    at most 10 + ceil(32.25 * N) for N hashes. */
module MerkleSize {
  import opened Arith
  import opened Bits
  import opened Merkle

  /** The bytes of a count (WriteCompactSize). */
  function CountSize(n: nat): nat {
    if n < 253 then 1 else if n <= 0xFFFF then 3 else if n <= 0xFFFF_FFFF then 5 else 9
  }

  function FlagBytes(b: Parts): nat {
    (|b.bits| + 7) / 8
  }

  /** Number of transactions, hashes of 32 bytes, and flag bits. */
  function SizeOf(b: Parts): nat {
    4 + CountSize(|b.hashes|) + 32 * |b.hashes| + CountSize(FlagBytes(b)) + FlagBytes(b)
  }

  /** 10 + ceil(32.25 * n). */
  function Guarantee(n: nat): nat {
    10 + 32 * n + (n + 3) / 4
  }

  /** The size depends on the number of hashes and of nodes with an only child; the guarantee holds
      when there are none of these, and otherwise exactly when the flag bytes fit. */
  lemma SizeGuarantee(f: Combine, txids: seq<Hash>, matched: seq<bool>)
    requires |txids| == |matched| > 0
    ensures var b := BuildTree(f, txids, matched);
            var n, bytes := |b.hashes|, (2 * |b.hashes| + OnlyChildren(matched, Height(|txids|), 0) + 6) / 8;
            && SizeOf(b) == 4 + CountSize(n) + 32 * n + CountSize(bytes) + bytes
            && (SizeOf(b) <= Guarantee(n) <==> CountSize(n) + CountSize(bytes) + bytes <= 6 + (n + 3) / 4)
            && (OnlyChildren(matched, Height(|txids|), 0) == 0 && n <= 0xFFFF ==> SizeOf(b) <= Guarantee(n))
  {
    hide Build, OnlyChildren, HeightFrom, Width;
    RootRange(|txids|);
    BitCount(f, txids, matched, Height(|txids|), 0);
    BuildSize(f, txids, matched, Height(|txids|), 0);
  }

  // ------------------------------------------------------------ all of them matched

  predicate All(matched: seq<bool>) {
    forall i :: 0 <= i < |matched| ==> matched[i]
  }

  /** How many levels below `height` are of odd width. */
  function OddLevels(n: nat, height: nat): nat {
    if height == 0 then 0 else Width(n, height - 1) % 2 + OddLevels(n, height - 1)
  }

  lemma AllParents(matched: seq<bool>, height: nat, pos: nat)
    requires All(matched) && pos < Width(|matched|, height)
    ensures ParentOfMatch(matched, height, pos)
  {
    InWidth(|matched|, height, pos);
    assert matched[First(|matched|, height, pos)];
  }

  /** Only the last node of a level can have an only child. */
  lemma {:induction false} AllOnly(matched: seq<bool>, height: nat, pos: nat)
    requires All(matched) && pos < Width(|matched|, height)
    ensures OnlyChildren(matched, height, pos)
         == if pos == Width(|matched|, height) - 1 then OddLevels(|matched|, height) else 0
    decreases height
  {
    hide Width, ParentOfMatch;
    var n := |matched|;
    if height > 0 {
      AllParents(matched, height, pos);
      WidthUp(n, height - 1);
      Children(n, height, pos);
      AllOnly(matched, height - 1, 2 * pos);
      if 2 * pos + 1 < Width(n, height - 1) { AllOnly(matched, height - 1, 2 * pos + 1); }
    }
  }

  /** Every leaf is stored. */
  lemma {:induction false} AllHashes(f: Combine, txids: seq<Hash>, matched: seq<bool>, height: nat, pos: nat)
    requires |txids| == |matched| && All(matched) && pos < Width(|txids|, height)
    ensures |Build(f, txids, matched, height, pos).hashes|
         == First(|txids|, height, pos + 1) - First(|txids|, height, pos)
    decreases height
  {
    hide Width, ParentOfMatch, First, CalcHash;
    var n := |txids|;
    AllParents(matched, height, pos);
    if height > 0 {
      Children(n, height, pos);
      AllHashes(f, txids, matched, height - 1, 2 * pos);
      if 2 * pos + 1 < Width(n, height - 1) { AllHashes(f, txids, matched, height - 1, 2 * pos + 1); }
    } else {
      Leaf(n, pos);
    }
  }

  lemma Leaf(n: nat, pos: nat)
    requires pos < Width(n, 0)
    ensures First(n, 0, pos) == pos && First(n, 0, pos + 1) == pos + 1
  {
    WidthLeaves(n);
  }

  /** The levels of a tree of 1028 leaves: eight of them are of odd width. */
  lemma Levels()
    ensures Height(1028) == 11 && Width(1028, 11) == 1 && OddLevels(1028, 11) == 8
  {
    Widths();
    hide Width;
    assert OddLevels(1028, 3) == 1;
    assert OddLevels(1028, 6) == 4;
    assert OddLevels(1028, 9) == 7;
    hide OddLevels;
    HeightIs(1028, 0, 11);
  }

  lemma Widths()
    ensures Width(1028, 0) == 1028 && Width(1028, 1) == 514 && Width(1028, 2) == 257 && Width(1028, 3) == 129
    ensures Width(1028, 4) == 65 && Width(1028, 5) == 33 && Width(1028, 6) == 17 && Width(1028, 7) == 9
    ensures Width(1028, 8) == 5 && Width(1028, 9) == 3 && Width(1028, 10) == 2 && Width(1028, 11) == 1
  {
    hide Width;
    WidthLeaves(1028);
    WidthUp(1028, 0);
    WidthUp(1028, 1);
    WidthUp(1028, 2);
    WidthUp(1028, 3);
    WidthUp(1028, 4);
    WidthUp(1028, 5);
    WidthUp(1028, 6);
    WidthUp(1028, 7);
    WidthUp(1028, 8);
    WidthUp(1028, 9);
    WidthUp(1028, 10);
  }

  lemma {:induction false} HeightIs(n: nat, height: nat, top: nat)
    requires height <= top && Width(n, top) == 1 && forall h :: height <= h < top ==> Width(n, h) > 1
    ensures HeightFrom(n, height) == top
    decreases top - height
  {
    hide Width;
    if height < top { HeightIs(n, height + 1, top); }
  }

  /** All of 1028 transactions matched: 33164 bytes, one more than guaranteed. */
  lemma GuaranteeFails(f: Combine, txids: seq<Hash>, matched: seq<bool>)
    requires |txids| == |matched| == 1028 && All(matched)
    ensures var b := BuildTree(f, txids, matched);
            |b.hashes| == 1028 && SizeOf(b) == 33164 && Guarantee(1028) == 33163
  {
    hide Width, HeightFrom, Height, OnlyChildren, Build, OddLevels, First, All, SizeOf, CountSize, Guarantee;
    Levels();
    RootRange(1028);
    AllOnly(matched, 11, 0);
    AllHashes(f, txids, matched, 11, 0);
    SizeGuarantee(f, txids, matched);
    Numbers();
  }

  lemma Numbers()
    ensures CountSize(1028) == 3 && CountSize((2 * 1028 + 8 + 6) / 8) == 3 && Guarantee(1028) == 33163
  {
  }
}

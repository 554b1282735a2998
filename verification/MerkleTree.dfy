/** CPartialMerkleTree, updated in place. */
module MerkleTree {
  import opened Bits
  import opened Merkle

  /** Byte `k` of a row of bits. */
  function ByteOf(bits: seq<bool>, k: nat): nat
    requires 8 * k <= |bits|
  {
    Pack(bits[8 * k..if 8 * k + 8 <= |bits| then 8 * k + 8 else |bits|])
  }

  function ToBytes(bits: seq<bool>): seq<nat> {
    seq((|bits| + 7) / 8, k requires 0 <= k < (|bits| + 7) / 8 => ByteOf(bits, k))
  }

  function FromBytes(bytes: seq<nat>): (bits: seq<bool>)
    ensures |bits| == 8 * |bytes|
    ensures forall p :: 0 <= p < |bits| ==> bits[p] == BitAt(bytes[p / 8], p % 8)
  {
    seq(8 * |bytes|, p requires 0 <= p < 8 * |bytes| => BitAt(bytes[p / 8], p % 8))
  }

  /** Packing to bytes and back only pads. */
  lemma BytesPad(bits: seq<bool>)
    ensures Padded(bits, FromBytes(ToBytes(bits)))
  {
    var more := FromBytes(ToBytes(bits));
    forall p | 0 <= p < |bits| ensures more[p] == bits[p] {
      var k := p / 8;
      var hi := if 8 * k + 8 <= |bits| then 8 * k + 8 else |bits|;
      PackAt(bits[8 * k..hi], p % 8);
      assert ToBytes(bits)[k] == ByteOf(bits, k);
    }
  }

  class CPartialMerkleTree {
    var nTransactions: nat
    var vBits: seq<bool>
    var vHash: seq<Hash>
    var fBad: bool

    ghost function Stored(): Parts
      reads this
    {
      Parts(vBits, vHash)
    }

    constructor (f: Combine, txids: seq<Hash>, matched: seq<bool>)
      requires 0 < |txids| == |matched|
      ensures Stored() == BuildTree(f, txids, matched) && nTransactions == |txids| && !fBad
    {
      nTransactions := |txids|;
      fBad := false;
      vBits, vHash := [], [];
      new;
      RootRange(|txids|);
      var nHeight := CalcHeight();
      TraverseAndBuild(f, nHeight, 0, txids, matched);
    }

    constructor Empty()
      ensures nTransactions == 0 && fBad && Stored() == Parts([], [])
    {
      nTransactions := 0;
      fBad := true;
      vBits, vHash := [], [];
    }

    method CalcHeight() returns (nHeight: nat)
      ensures nHeight == Height(nTransactions)
    {
      nHeight := 0;
      while Width(nTransactions, nHeight) > 1
        invariant HeightFrom(nTransactions, nHeight) == Height(nTransactions)
        decreases Width(nTransactions, nHeight)
      {
        WidthUp(nTransactions, nHeight);
        nHeight := nHeight + 1;
      }
    }

    method FindMatch(height: nat, pos: nat, matched: seq<bool>) returns (parent: bool)
      requires nTransactions == |matched| && pos < Width(|matched|, height)
      ensures parent == ParentOfMatch(matched, height, pos)
    {
      InWidth(|matched|, height, pos);
      assert (pos + 1) * Pow2(height) == pos * Pow2(height) + Pow2(height);
      parent := false;
      var lo, end := pos * Pow2(height), (pos + 1) * Pow2(height);
      var p := lo;
      while p < end && p < nTransactions
        invariant lo <= p <= First(|matched|, height, pos + 1)
        invariant parent <==> exists q :: lo <= q < p && matched[q]
      {
        parent := parent || matched[p];
        p := p + 1;
      }
    }

    method TraverseAndBuild(f: Combine, height: nat, pos: nat, txids: seq<Hash>, matched: seq<bool>)
      requires nTransactions == |txids| == |matched| && pos < Width(|txids|, height)
      modifies this`vBits, this`vHash
      ensures var b := Build(f, txids, matched, height, pos);
              vBits == old(vBits) + b.bits && vHash == old(vHash) + b.hashes
      decreases height
    {
      hide Width, ParentOfMatch, CalcHash;
      var parent := FindMatch(height, pos, matched);
      vBits := vBits + [parent];
      if height == 0 || !parent {
        vHash := vHash + [CalcHash(f, txids, height, pos)];
      } else {
        Children(|txids|, height, pos);
        ghost var left := Build(f, txids, matched, height - 1, 2 * pos);
        ghost var right := Parts([], []);
        TraverseAndBuild(f, height - 1, 2 * pos, txids, matched);
        if 2 * pos + 1 < Width(nTransactions, height - 1) {
          right := Build(f, txids, matched, height - 1, 2 * pos + 1);
          TraverseAndBuild(f, height - 1, 2 * pos + 1, txids, matched);
        }
        Joined(old(vBits) + [true], left.bits, right.bits);
        Joined(old(vBits), [true], left.bits + right.bits);
        Joined([true], left.bits, right.bits);
        Joined(old(vHash), left.hashes, right.hashes);
      }
    }

    /** The reader state at the start of a traversal, given its reference parameters. */
    ghost function At(nBitsUsed: nat, nHashUsed: nat, vMatch: seq<Hash>): Reader
      reads this`fBad
    {
      Reader(nBitsUsed, nHashUsed, fBad, vMatch)
    }

    method TraverseAndExtract(f: Combine, height: nat, pos: nat, bitsUsed: nat, hashUsed: nat, matches: seq<Hash>)
      returns (hash: Hash, nBitsUsed: nat, nHashUsed: nat, vMatch: seq<Hash>)
      modifies this`fBad
      ensures (hash, At(nBitsUsed, nHashUsed, vMatch)) ==
                Extract(f, nTransactions, Stored(), height, pos, old(At(bitsUsed, hashUsed, matches)))
      decreases height
    {
      nBitsUsed, nHashUsed, vMatch := bitsUsed, hashUsed, matches;
      if nBitsUsed >= |vBits| {
        fBad := true;
        return 0, nBitsUsed, nHashUsed, vMatch;
      }
      var parent := vBits[nBitsUsed];
      nBitsUsed := nBitsUsed + 1;
      if height == 0 || !parent {
        if nHashUsed >= |vHash| {
          fBad := true;
          return 0, nBitsUsed, nHashUsed, vMatch;
        }
        hash := vHash[nHashUsed];
        nHashUsed := nHashUsed + 1;
        if height == 0 && parent {
          vMatch := vMatch + [hash];
        }
      } else {
        var left, right;
        left, nBitsUsed, nHashUsed, vMatch :=
          TraverseAndExtract(f, height - 1, 2 * pos, nBitsUsed, nHashUsed, vMatch);
        if 2 * pos + 1 < Width(nTransactions, height - 1) {
          right, nBitsUsed, nHashUsed, vMatch :=
            TraverseAndExtract(f, height - 1, 2 * pos + 1, nBitsUsed, nHashUsed, vMatch);
        } else {
          right := left;
        }
        hash := f(left, right);
      }
    }

    /** A tree that has failed once keeps failing. */
    method ExtractMatches(f: Combine) returns (root: Hash, vMatch: seq<Hash>)
      modifies this`fBad
      ensures old(fBad) ==> root == 0
      ensures !old(fBad) ==> (root, vMatch) == Merkle.ExtractMatches(f, nTransactions, Stored())
    {
      vMatch := [];
      if nTransactions == 0 || nTransactions > MAX_TRANSACTIONS || |vHash| > nTransactions || |vBits| < |vHash| {
        return 0, [];
      }
      var nHeight := CalcHeight();
      var nBitsUsed, nHashUsed;
      root, nBitsUsed, nHashUsed, vMatch := TraverseAndExtract(f, nHeight, 0, 0, 0, []);
      BadStays(f, nTransactions, Stored(), nHeight, 0, START.(bad := true));
      hide Extract, HeightFrom;
      if fBad || (nBitsUsed + 7) / 8 != (|vBits| + 7) / 8 || nHashUsed != |vHash| {
        return 0, vMatch;
      }
    }

    /** The flag bits as bytes, least significant bit first. */
    method WriteBits() returns (vBytes: seq<nat>)
      ensures vBytes == ToBytes(vBits)
    {
      vBytes := seq((|vBits| + 7) / 8, _ => 0);
      for p := 0 to |vBits|
        invariant |vBytes| == (|vBits| + 7) / 8
        invariant forall k :: 0 <= k < |vBytes| ==> vBytes[k] == PartialByte(vBits, k, p)
      {
        PartialByteNext(vBits, p);
        if vBits[p] {
          vBytes := vBytes[p / 8 := vBytes[p / 8] + Pow2(p % 8)];
        }
      }
      forall k | 0 <= k < |vBytes| ensures vBytes[k] == ByteOf(vBits, k) {
      }
    }

    /** Takes a serialised tree over: its bits come padded to whole bytes. */
    method ReadFrom(n: nat, hashes: seq<Hash>, vBytes: seq<nat>)
      modifies this
      ensures nTransactions == n && Stored() == Parts(FromBytes(vBytes), hashes) && !fBad
    {
      nTransactions, vHash := n, hashes;
      vBits := seq(8 * |vBytes|, _ => false);
      for p := 0 to |vBits|
        invariant |vBits| == 8 * |vBytes| && nTransactions == n && vHash == hashes
        invariant forall q :: 0 <= q < p ==> vBits[q] == BitAt(vBytes[q / 8], q % 8)
      {
        vBits := vBits[p := BitAt(vBytes[p / 8], p % 8)];
      }
      fBad := false;
    }
  }

  /** Byte `k` when the bits before `p` have been set. */
  function PartialByte(bits: seq<bool>, k: nat, p: nat): nat
    requires 8 * k <= |bits| && p <= |bits|
  {
    if p <= 8 * k then 0
    else if p <= 8 * k + 8 then Pack(bits[8 * k..p])
    else ByteOf(bits, k)
  }

  lemma PartialByteNext(bits: seq<bool>, p: nat)
    requires p < |bits|
    ensures forall k :: 0 <= k < (|bits| + 7) / 8 ==>
      PartialByte(bits, k, p + 1) == PartialByte(bits, k, p) + (if k == p / 8 && bits[p] then Pow2(p % 8) else 0)
  {
    hide PartialByte;
    forall k | 0 <= k < (|bits| + 7) / 8
      ensures PartialByte(bits, k, p + 1)
              == PartialByte(bits, k, p) + (if k == p / 8 && bits[p] then Pow2(p % 8) else 0)
    {
      PartialByteStep(bits, k, p);
    }
  }

  lemma PartialByteStep(bits: seq<bool>, k: nat, p: nat)
    requires p < |bits| && 8 * k < |bits|
    ensures PartialByte(bits, k, p + 1) == PartialByte(bits, k, p) + (if k == p / 8 && bits[p] then Pow2(p % 8) else 0)
  {
    if 8 * k <= p < 8 * k + 8 {
      var done := bits[8 * k..p];
      assert bits[8 * k..p + 1] == done + [bits[p]];
      PackAppend(done, bits[p]);
      assert |done| == p % 8;
    }
  }

  lemma Joined<T>(a: seq<T>, b: seq<T>, c: seq<T>)
    ensures a + b + c == a + (b + c)
    ensures c == [] ==> a + b + c == a + b
  {
  }

  /** From the constructor through the wire to ExtractMatches: the receiver learns the Merkle
      root and the matched transactions. */
  method Relay(f: Combine, txids: seq<Hash>, matched: seq<bool>) returns (root: Hash, vMatch: seq<Hash>)
    requires 0 < |txids| == |matched| <= MAX_TRANSACTIONS
    ensures root == MerkleRoot(f, txids) && vMatch == Matched(txids, matched, 0, |txids|)
  {
    var sent := new CPartialMerkleTree(f, txids, matched);
    var vBytes := sent.WriteBits();
    var received := new CPartialMerkleTree.Empty();
    received.ReadFrom(sent.nTransactions, sent.vHash, vBytes);
    root, vMatch := received.ExtractMatches(f);
    BytesPad(sent.vBits);
    RoundTrip(f, txids, matched, received.vBits);
  }
}

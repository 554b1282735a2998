/** What CPartialMerkleTree::ExtractMatches refuses (src/merkleblock.cpp): nothing of a proof may be
    left over or missing. */
module MerkleSurplus {
  import opened Merkle

  /** Proofs that are refused before anything is read of them. */
  lemma Refused(f: Combine, n: nat, parts: Parts)
    requires n == 0 || n > 33333 || |parts.hashes| > n || |parts.bits| < |parts.hashes|
    ensures ExtractMatches(f, n, parts) == (0, [])
  {
  }

  /** A proof that is read without running out of it is read the same when more follows. */
  lemma {:induction false} ExtractMore(f: Combine, n: nat, p: Parts, q: Parts, height: nat, pos: nat, r: Reader)
    requires p.bits <= q.bits && p.hashes <= q.hashes && !Extract(f, n, p, height, pos, r).1.bad
    ensures Extract(f, n, q, height, pos, r) == Extract(f, n, p, height, pos, r)
    decreases height
  {
    hide Width;
    if height > 0 && p.bits[r.bitsUsed] {
      var r1 := r.(bitsUsed := r.bitsUsed + 1);
      var left := Extract(f, n, p, height - 1, 2 * pos, r1);
      if 2 * pos + 1 < Width(n, height - 1) {
        BadStays(f, n, p, height - 1, 2 * pos + 1, left.1);
        ExtractMore(f, n, p, q, height - 1, 2 * pos + 1, left.1);
      }
      ExtractMore(f, n, p, q, height - 1, 2 * pos, r1);
    }
  }

  /** When a proof is accepted, it is accepted with more after it if and only if no hash is added
      and the bits still fill the same number of bytes; it then yields the same. */
  lemma NothingSurplus(f: Combine, n: nat, p: Parts, q: Parts)
    requires p.bits <= q.bits && p.hashes <= q.hashes && ExtractMatches(f, n, p).0 != 0
    ensures ExtractMatches(f, n, q).0 != 0 <==> q.hashes == p.hashes && (|q.bits| + 7) / 8 == (|p.bits| + 7) / 8
    ensures ExtractMatches(f, n, q).0 != 0 ==> ExtractMatches(f, n, q) == ExtractMatches(f, n, p)
  {
    hide Extract, Height;
    ExtractMore(f, n, p, q, Height(n), 0, START);
  }
}

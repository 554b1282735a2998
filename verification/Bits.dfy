/** Numbers as rows of bits, least significant bit first. */
module Bits {

  function Pow2(n: nat): (r: nat)
    ensures r > 0
  {
    if n == 0 then 1 else 2 * Pow2(n - 1)
  }

  function BitAt(x: nat, p: nat): bool {
    if p == 0 then x % 2 == 1 else BitAt(x / 2, p - 1)
  }

  function Pack(bits: seq<bool>): nat {
    if bits == [] then 0 else (if bits[0] then 1 else 0) + 2 * Pack(bits[1..])
  }

  function Unpack(x: nat, n: nat): seq<bool> {
    if n == 0 then [] else [x % 2 == 1] + Unpack(x / 2, n - 1)
  }

  lemma {:induction false} PackAt(bits: seq<bool>, p: nat)
    ensures BitAt(Pack(bits), p) == (p < |bits| && bits[p])
  {
    if bits == [] {
      ZeroAt(p);
    } else if p > 0 {
      PackAt(bits[1..], p - 1);
    }
  }

  lemma {:induction false} ZeroAt(p: nat)
    ensures !BitAt(0, p)
  {
    if p > 0 { ZeroAt(p - 1); }
  }

  lemma {:induction false} UnpackAt(x: nat, n: nat)
    ensures |Unpack(x, n)| == n
    ensures forall p :: 0 <= p < n ==> Unpack(x, n)[p] == BitAt(x, p)
  {
    if n > 0 {
      UnpackAt(x / 2, n - 1);
      forall p | 0 <= p < n ensures Unpack(x, n)[p] == BitAt(x, p) {
        if p > 0 { assert Unpack(x, n)[p] == Unpack(x / 2, n - 1)[p - 1]; }
      }
    }
  }

  /** Reading back the bits of a packed row, padded with zeros. */
  lemma UnpackPack(bits: seq<bool>, n: nat)
    requires |bits| <= n
    ensures |Unpack(Pack(bits), n)| == n
    ensures forall p :: 0 <= p < n ==> Unpack(Pack(bits), n)[p] == (p < |bits| && bits[p])
  {
    UnpackAt(Pack(bits), n);
    forall p | 0 <= p < n ensures Unpack(Pack(bits), n)[p] == (p < |bits| && bits[p]) {
      PackAt(bits, p);
    }
  }

  lemma {:induction false} PackZero(bits: seq<bool>)
    ensures Pack(bits) == 0 <==> forall p :: 0 <= p < |bits| ==> !bits[p]
  {
    if bits != [] {
      PackZero(bits[1..]);
      if forall p :: 0 <= p < |bits| ==> !bits[p] {
        forall p | 0 <= p < |bits[1..]| ensures !bits[1..][p] { assert bits[p + 1] == bits[1..][p]; }
      } else if !bits[0] {
        var p :| 0 <= p < |bits| && bits[p];
        assert bits[1..][p - 1];
      }
    }
  }

  lemma {:induction false} PackBound(bits: seq<bool>)
    ensures Pack(bits) < Pow2(|bits|)
  {
    if bits != [] { PackBound(bits[1..]); }
  }

  /** Setting the next bit of a row: `x |= 1 << n`. */
  lemma {:induction false} PackAppend(bits: seq<bool>, b: bool)
    ensures Pack(bits + [b]) == Pack(bits) + (if b then Pow2(|bits|) else 0)
  {
    if bits == [] {
      assert [] + [b] == [b];
      assert Pack([b]) == (if b then 1 else 0) + 2 * Pack([]);
    } else {
      assert (bits + [b])[1..] == bits[1..] + [b];
      PackAppend(bits[1..], b);
    }
  }
}

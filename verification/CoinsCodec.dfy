/** The serialised form of CCoins (src/coins.h and src/coins.cpp). A stream is a sequence of
    tokens: variable-length integers, raw bytes and compressed outputs. */
module CoinsCodec {
  import opened Bits
  import opened CoinsView
  import opened Wrappers
  import V = VarInt

  datatype Token = VarInt(n: nat) | Byte(b: nat) | Out(value: int, script: Script)

  predicate Avail(vout: seq<TxOut>, i: nat) {
    i < |vout| && !vout[i].IsNull()
  }

  /** Outputs from the third on are flagged in groups of eight: group `b`, as bits. */
  function Group(vout: seq<TxOut>, b: nat): seq<bool> {
    seq(8, i requires 0 <= i < 8 => Avail(vout, 2 + b * 8 + i))
  }

  predicate Used(vout: seq<TxOut>, b: nat) {
    Pack(Group(vout, b)) != 0
  }

  /** One more than the last used group below `n`. */
  function MaskSize(vout: seq<TxOut>, n: nat): (m: nat)
    ensures m <= n && (m > 0 ==> Used(vout, m - 1))
    ensures forall b :: m <= b < n ==> !Used(vout, b)
  {
    if n == 0 then 0 else if Used(vout, n - 1) then n else MaskSize(vout, n - 1)
  }

  /** How many of the groups from `b` up to `n` are used. */
  function UsedFrom(vout: seq<TxOut>, b: nat, n: nat): nat
    decreases n - b
  {
    if b >= n then 0 else (if Used(vout, b) then 1 else 0) + UsedFrom(vout, b + 1, n)
  }

  function GroupCount(vout: seq<TxOut>): nat {
    if |vout| <= 2 then 0 else (|vout| + 5) / 8
  }

  function Mask(vout: seq<TxOut>): nat {
    MaskSize(vout, GroupCount(vout))
  }

  // ------------------------------------------------------------------- writing

  function MaskBytes(vout: seq<TxOut>, b: nat, n: nat): seq<Token>
    decreases n - b
  {
    if b >= n then [] else [Byte(Pack(Group(vout, b)))] + MaskBytes(vout, b + 1, n)
  }

  function WriteOuts(vout: seq<TxOut>, i: nat, n: nat): seq<Token>
    decreases n - i
  {
    if i >= n then []
    else (if Avail(vout, i) then [Out(vout[i].nValue, vout[i].script)] else []) + WriteOuts(vout, i + 1, n)
  }

  const INT_LIMIT: int := 0x8000_0000

  /** The values of a signed integer of 32 bits. */
  predicate IsInt(n: int) {
    -INT_LIMIT <= n < INT_LIMIT
  }

  /** What such an integer keeps of a number. */
  function Int32(n: nat): (i: int)
    ensures IsInt(i) && (n < INT_LIMIT ==> i == n)
  {
    var m := n % (2 * INT_LIMIT);
    if m < INT_LIMIT then m else m - 2 * INT_LIMIT
  }

  function If(b: bool, n: nat): nat {
    if b then n else 0
  }

  /** The header: four flags, and the number of used mask bytes, one less when it cannot be
      zero. */
  function HeaderCode(c: Coins, used: nat): nat
    requires Avail(c.vout, 0) || Avail(c.vout, 1) || used > 0
  {
    var first, second := Avail(c.vout, 0), Avail(c.vout, 1);
    16 * (used - If(!first && !second, 1)) + If(c.fCoinBase, 1) + If(c.fCoinStake, 2) + If(first, 4) + If(second, 8)
  }

  function Serialize(c: Coins): seq<Token>
    requires !IsPruned(c)
  {
    var m := Mask(c.vout);
    SomethingUsed(c);
    [VarInt(V.Kept(c.nVersion)), VarInt(HeaderCode(c, UsedFrom(c.vout, 0, m)))]
    + MaskBytes(c.vout, 0, m) + WriteOuts(c.vout, 0, |c.vout|) + [VarInt(V.Kept(c.nHeight))]
  }

  // ------------------------------------------------------------------- reading

  /** Reads mask bytes until `need` of them were not zero. */
  function ReadMask(ts: seq<Token>, need: nat): Option<(seq<bool>, seq<Token>)>
    decreases |ts|
  {
    if need == 0 then Some(([], ts))
    else if ts == [] || !ts[0].Byte? then None
    else match ReadMask(ts[1..], if ts[0].b != 0 then need - 1 else need)
         case None => None
         case Some((bits, rest)) => Some((Unpack(ts[0].b, 8) + bits, rest))
  }

  function ReadOuts(avail: seq<bool>, ts: seq<Token>): Option<(seq<TxOut>, seq<Token>)> {
    if avail == [] then Some(([], ts))
    else if !avail[0] then
      match ReadOuts(avail[1..], ts)
      case None => None
      case Some((vout, rest)) => Some(([NULL_OUT] + vout, rest))
    else if ts == [] || !ts[0].Out? then None
    else
      match ReadOuts(avail[1..], ts[1..])
      case None => None
      case Some((vout, rest)) => Some(([TxOut(ts[0].value, ts[0].script, -10)] + vout, rest))
  }

  /** The coins read from the head of a stream, and the rest of it. */
  function Unserialize(ts: seq<Token>): Option<(Coins, seq<Token>)> {
    if |ts| < 2 || !ts[0].VarInt? || !ts[1].VarInt? then None
    else
      var code := ts[1].n;
      var first, second := BitAt(code, 2), BitAt(code, 3);
      match ReadMask(ts[2..], code / 16 + If(!first && !second, 1))
      case None => None
      case Some((bits, ts')) =>
        match ReadOuts([first, second] + bits, ts')
        case None => None
        case Some((vout, ts'')) =>
          if ts'' == [] || !ts''[0].VarInt? then None
          else
            var c := Coins(BitAt(code, 0), BitAt(code, 1), vout, Int32(ts''[0].n), Int32(ts[0].n));
            Some((Cleanup(c), ts''[1..]))
  }

  // ---------------------------------------------------------------- round trip

  lemma AvailUsed(vout: seq<TxOut>, b: nat, i: nat)
    requires i < 8 && Avail(vout, 2 + b * 8 + i)
    ensures Used(vout, b)
  {
    var g := Group(vout, b);
    PackZero(g);
    assert g[i];
  }

  /** No output beyond the announced mask is unspent. */
  lemma BeyondMask(vout: seq<TxOut>, i: nat)
    requires i >= 2 + 8 * Mask(vout)
    ensures !Avail(vout, i)
  {
    if Avail(vout, i) {
      var b := (i - 2) / 8;
      AvailUsed(vout, b, (i - 2) % 8);
    }
  }

  lemma {:induction false} UsedUpTo(vout: seq<TxOut>, b: nat, n: nat)
    ensures b < n && Used(vout, n - 1) ==> UsedFrom(vout, b, n) > 0
    ensures b >= n ==> UsedFrom(vout, b, n) == 0
    decreases n - b
  {
    if b < n { UsedUpTo(vout, b + 1, n); }
  }

  /** The assertion in Serialize: unpruned coins have an unspent output to announce. */
  lemma SomethingUsed(c: Coins)
    requires !IsPruned(c)
    ensures Avail(c.vout, 0) || Avail(c.vout, 1) || UsedFrom(c.vout, 0, Mask(c.vout)) > 0
  {
    var i :| 0 <= i < |c.vout| && !c.vout[i].IsNull();
    if i >= 2 {
      if Mask(c.vout) == 0 { BeyondMask(c.vout, i); }
      UsedUpTo(c.vout, 0, Mask(c.vout));
    }
  }

  function MaskFlags(vout: seq<TxOut>, b: nat, n: nat): seq<bool>
    decreases n - b
  {
    if b >= n then [] else Group(vout, b) + MaskFlags(vout, b + 1, n)
  }

  /** The reader counts the used bytes down, so it stops after the last one that was
      announced, whatever zero bytes come before. */
  lemma {:induction false} ReadMaskBytes(vout: seq<TxOut>, b: nat, n: nat, rest: seq<Token>)
    requires n == 0 || Used(vout, n - 1)
    ensures ReadMask(MaskBytes(vout, b, n) + rest, UsedFrom(vout, b, n)) == Some((MaskFlags(vout, b, n), rest))
    decreases n - b
  {
    hide Pack, Unpack;
    UsedUpTo(vout, b, n);
    if b < n {
      var ts := MaskBytes(vout, b, n) + rest;
      assert ts[1..] == MaskBytes(vout, b + 1, n) + rest;
      ReadMaskBytes(vout, b + 1, n, rest);
      var g := Group(vout, b);
      UnpackPack(g, 8);
      assert Unpack(Pack(g), 8) == g;
    } else {
      assert MaskBytes(vout, b, n) + rest == rest;
    }
  }

  lemma {:induction false} BitsAt(vout: seq<TxOut>, b: nat, n: nat)
    requires b <= n
    ensures |MaskFlags(vout, b, n)| == 8 * (n - b)
    ensures forall i :: 0 <= i < 8 * (n - b) ==> MaskFlags(vout, b, n)[i] == Avail(vout, 2 + 8 * b + i)
    decreases n - b
  {
    hide Avail;
    if b < n {
      BitsAt(vout, b + 1, n);
      forall i | 0 <= i < 8 * (n - b) ensures MaskFlags(vout, b, n)[i] == Avail(vout, 2 + 8 * b + i) {
        if i < 8 {
          assert MaskFlags(vout, b, n)[i] == Group(vout, b)[i];
        } else {
          assert MaskFlags(vout, b, n)[i] == MaskFlags(vout, b + 1, n)[i - 8];
          assert 2 + 8 * (b + 1) + (i - 8) == 2 + 8 * b + i;
        }
      }
    }
  }

  /** What reading leaves of an output: memory-only fields are reset. */
  function Stored(vout: seq<TxOut>, i: nat): TxOut {
    if Avail(vout, i) then vout[i].(nRounds := -10) else NULL_OUT
  }

  lemma {:induction false} ReadWrittenOuts(vout: seq<TxOut>, i: nat, avail: seq<bool>, rest: seq<Token>)
    requires forall k :: 0 <= k < |avail| ==> avail[k] == Avail(vout, i + k)
    requires forall k: nat :: k >= i + |avail| ==> !Avail(vout, k)
    ensures var outs := seq(|avail|, k requires 0 <= k < |avail| => Stored(vout, i + k));
            ReadOuts(avail, WriteOuts(vout, i, |vout|) + rest) == Some((outs, rest))
    decreases |avail|
  {
    var outs := seq(|avail|, k requires 0 <= k < |avail| => Stored(vout, i + k));
    var ts := WriteOuts(vout, i, |vout|) + rest;
    if avail == [] {
      NothingWritten(vout, i);
      assert ts == rest && outs == [];
    } else {
      var more := seq(|avail[1..]|, k requires 0 <= k < |avail[1..]| => Stored(vout, i + 1 + k));
      assert outs == [Stored(vout, i)] + more;
      ReadWrittenOuts(vout, i + 1, avail[1..], rest);
      if avail[0] {
        assert ts[1..] == WriteOuts(vout, i + 1, |vout|) + rest;
      } else if i < |vout| {
        assert ts == WriteOuts(vout, i + 1, |vout|) + rest;
      } else {
        assert ts == rest == WriteOuts(vout, i + 1, |vout|) + rest;
      }
    }
  }

  lemma {:induction false} NothingWritten(vout: seq<TxOut>, i: nat)
    requires forall k: nat :: k >= i ==> !Avail(vout, k)
    ensures WriteOuts(vout, i, |vout|) == []
    decreases |vout| - i
  {
    if i < |vout| { NothingWritten(vout, i + 1); }
  }

  lemma {:induction false} TrimIsPrefix(a: seq<TxOut>, n: nat)
    requires n <= |a| && (n > 0 ==> !a[n - 1].IsNull())
    requires forall i :: n <= i < |a| ==> a[i].IsNull()
    ensures TrimNulls(a) == a[..n]
    decreases |a|
  {
    if n < |a| {
      TrimIsPrefix(a[..|a| - 1], n);
      assert a[..|a| - 1][..n] == a[..n];
    } else {
      assert a[..n] == a;
    }
  }

  function StoredUpTo(vout: seq<TxOut>, n: nat): (r: seq<TxOut>)
    ensures |r| == n && forall i :: 0 <= i < n ==> r[i] == Stored(vout, i)
  {
    seq(n, i requires 0 <= i < n => Stored(vout, i))
  }

  /** Coins without what is not meant to be stored: the spent tail, and fields of outputs that are
      only for the memory. */
  function Reloaded(c: Coins): Coins {
    c.(vout := StoredUpTo(c.vout, |TrimNulls(c.vout)|))
  }

  /** Coins as they are after being stored and loaded. */
  function Loaded(c: Coins): Coins {
    Reloaded(c).(nVersion := V.Kept(c.nVersion), nHeight := V.Kept(c.nHeight))
  }

  lemma FourFlags(k: nat, a: bool, b: bool, d: bool, e: bool)
    ensures var code := 16 * k + If(a, 1) + If(b, 2) + If(d, 4) + If(e, 8);
            && BitAt(code, 0) == a && BitAt(code, 1) == b && BitAt(code, 2) == d && BitAt(code, 3) == e
            && code / 16 == k
  {
    var c0 := 16 * k + If(a, 1) + If(b, 2) + If(d, 4) + If(e, 8);
    var c1 := 8 * k + If(b, 1) + If(d, 2) + If(e, 4);
    var c2 := 4 * k + If(d, 1) + If(e, 2);
    var c3 := 2 * k + If(e, 1);
    assert c0 == 2 * c1 + If(a, 1) && c1 == 2 * c2 + If(b, 1) && c2 == 2 * c3 + If(d, 1);
    HalfBit(c1, a, 0); HalfBit(c1, a, 1); HalfBit(c1, a, 2); HalfBit(c1, a, 3);
    HalfBit(c2, b, 0); HalfBit(c2, b, 1); HalfBit(c2, b, 2);
    HalfBit(c3, d, 0); HalfBit(c3, d, 1);
    HalfBit(k, e, 0);
  }

  lemma HalfBit(half: nat, low: bool, p: nat)
    ensures BitAt(2 * half + If(low, 1), p) == if p == 0 then low else BitAt(half, p - 1)
  {
    assert (2 * half + If(low, 1)) / 2 == half;
  }

  lemma HeaderBits(c: Coins, used: nat)
    requires Avail(c.vout, 0) || Avail(c.vout, 1) || used > 0
    ensures var code := HeaderCode(c, used);
            && BitAt(code, 0) == c.fCoinBase && BitAt(code, 1) == c.fCoinStake
            && BitAt(code, 2) == Avail(c.vout, 0) && BitAt(code, 3) == Avail(c.vout, 1)
            && code / 16 + If(!BitAt(code, 2) && !BitAt(code, 3), 1) == used
  {
    var first, second := Avail(c.vout, 0), Avail(c.vout, 1);
    FourFlags(used - If(!first && !second, 1), c.fCoinBase, c.fCoinStake, first, second);
  }

  /** The body of a record: mask, outputs and height. */
  lemma ReadBody(vout: seq<TxOut>, tail: seq<Token>)
    ensures var m := Mask(vout);
            var avail := [Avail(vout, 0), Avail(vout, 1)] + MaskFlags(vout, 0, m);
            var outs := seq(|avail|, k requires 0 <= k < |avail| => Stored(vout, 0 + k));
            && ReadMask(MaskBytes(vout, 0, m) + (WriteOuts(vout, 0, |vout|) + tail), UsedFrom(vout, 0, m))
               == Some((MaskFlags(vout, 0, m), WriteOuts(vout, 0, |vout|) + tail))
            && ReadOuts(avail, WriteOuts(vout, 0, |vout|) + tail) == Some((outs, tail))
            && (forall i: nat :: i >= |avail| ==> !Avail(vout, i))
  {
    var m := Mask(vout);
    ReadMaskBytes(vout, 0, m, WriteOuts(vout, 0, |vout|) + tail);
    var avail := [Avail(vout, 0), Avail(vout, 1)] + MaskFlags(vout, 0, m);
    BitsAt(vout, 0, m);
    forall i: nat | i >= |avail| ensures !Avail(vout, i) { BeyondMask(vout, i); }
    ReadWrittenOuts(vout, 0, avail, tail);
  }

  /** Loading what was stored reads no more and no less than was written. It gives the coins
      without their spent tail if and only if the version and the height are not negative;
      otherwise the lowest seven bits are all that is left of these. */
  lemma RoundTrip(c: Coins, rest: seq<Token>)
    requires !IsPruned(c) && IsInt(c.nVersion) && IsInt(c.nHeight)
    ensures Unserialize(Serialize(c) + rest) == Some((Loaded(c), rest))
    ensures Loaded(c) == Reloaded(c) <==> c.nVersion >= 0 && c.nHeight >= 0
  {
    hide ReadMask, ReadOuts, MaskBytes, WriteOuts, MaskFlags, UsedFrom, Mask, HeaderCode, BitAt, Stored;
    hide Avail, IsPruned, Int32, V.Kept, Cleanup, Loaded, Reloaded;
    var vout, m := c.vout, Mask(c.vout);
    var used := UsedFrom(vout, 0, m);
    SomethingUsed(c);
    HeaderBits(c, used);
    var ts := Serialize(c) + rest;
    var tail := [VarInt(V.Kept(c.nHeight))] + rest;
    assert ts[2..] == MaskBytes(vout, 0, m) + (WriteOuts(vout, 0, |vout|) + tail);
    ReadBody(vout, tail);
    var avail := [Avail(vout, 0), Avail(vout, 1)] + MaskFlags(vout, 0, m);
    var outs := seq(|avail|, k requires 0 <= k < |avail| => Stored(vout, 0 + k));
    assert tail[1..] == rest;
    KeptInt(c.nVersion);
    KeptInt(c.nHeight);
    CleanLoaded(c, outs);
    LoadedIff(c);
  }

  lemma KeptInt(n: int)
    requires IsInt(n)
    ensures Int32(V.Kept(n)) == V.Kept(n)
  {
  }

  lemma CleanLoaded(c: Coins, outs: seq<TxOut>)
    requires forall i :: 0 <= i < |outs| ==> outs[i] == Stored(c.vout, i)
    requires forall i: nat :: i >= |outs| ==> !Avail(c.vout, i)
    ensures Cleanup(c.(vout := outs, nVersion := V.Kept(c.nVersion), nHeight := V.Kept(c.nHeight))) == Loaded(c)
  {
    hide TrimNulls, Avail, Stored, StoredUpTo;
    ReloadedOuts(c.vout, outs);
  }

  lemma LoadedIff(c: Coins)
    ensures Loaded(c) == Reloaded(c) <==> c.nVersion >= 0 && c.nHeight >= 0
  {
    hide StoredUpTo, TrimNulls;
  }

  /** Coins of version -1 come back with version 127. */
  lemma NegativeVersion(rest: seq<Token>)
    ensures var c := Coins(false, false, [TxOut(1, [], -10)], 0, -1);
            !IsPruned(c) && Unserialize(Serialize(c) + rest) == Some((c.(nVersion := 127), rest))
  {
    var c := Coins(false, false, [TxOut(1, [], -10)], 0, -1);
    assert !c.vout[0].IsNull();
    RoundTrip(c, rest);
    assert StoredUpTo(c.vout, 1) == c.vout;
  }

  lemma ReloadedOuts(vout: seq<TxOut>, outs: seq<TxOut>)
    requires forall i :: 0 <= i < |outs| ==> outs[i] == Stored(vout, i)
    requires forall i: nat :: i >= |outs| ==> !Avail(vout, i)
    ensures TrimNulls(outs) == StoredUpTo(vout, |TrimNulls(vout)|)
  {
    hide TrimNulls, Avail, Stored, StoredUpTo;
    var kept := TrimNulls(vout);
    KeptLength(vout, outs, kept);
    TrimIsPrefix(outs, |kept|);
    PrefixStored(vout, outs, |kept|);
  }

  lemma PrefixStored(vout: seq<TxOut>, outs: seq<TxOut>, n: nat)
    requires n <= |outs| && forall i :: 0 <= i < |outs| ==> outs[i] == Stored(vout, i)
    ensures outs[..n] == StoredUpTo(vout, n)
  {
    hide Stored;
  }

  lemma KeptLength(vout: seq<TxOut>, outs: seq<TxOut>, kept: seq<TxOut>)
    requires forall i :: 0 <= i < |outs| ==> outs[i] == Stored(vout, i)
    requires forall i: nat :: i >= |outs| ==> !Avail(vout, i)
    requires kept <= vout && (|kept| > 0 ==> !kept[|kept| - 1].IsNull())
    requires forall i :: |kept| <= i < |vout| ==> vout[i].IsNull()
    ensures |kept| <= |outs| && (|kept| > 0 ==> !outs[|kept| - 1].IsNull())
    ensures forall i :: |kept| <= i < |outs| ==> outs[i].IsNull()
  {
    if |kept| > 0 {
      assert kept[|kept| - 1] == vout[|kept| - 1];
      assert Avail(vout, |kept| - 1);
    }
  }

  // --------------------------------------------------------------- the loops

  lemma {:induction false} UsedSnoc(vout: seq<TxOut>, b: nat, n: nat)
    requires b <= n
    ensures UsedFrom(vout, b, n + 1) == UsedFrom(vout, b, n) + (if Used(vout, n) then 1 else 0)
    decreases n - b
  {
    if b < n { UsedSnoc(vout, b + 1, n); } else { assert UsedFrom(vout, n + 1, n + 1) == 0; }
  }

  /** The number of mask bytes, and how many of them are not zero. */
  method CalcMaskSize(vout: seq<TxOut>) returns (nBytes: nat, nNonzeroBytes: nat)
    ensures nBytes == Mask(vout) && nNonzeroBytes == UsedFrom(vout, 0, Mask(vout))
  {
    nBytes, nNonzeroBytes := 0, 0;
    var b := 0;
    while 2 + b * 8 < |vout|
      invariant b <= GroupCount(vout)
      invariant nBytes == MaskSize(vout, b)
      invariant nNonzeroBytes == UsedFrom(vout, 0, b) == UsedFrom(vout, 0, nBytes)
    {
      var fZero := true;
      ghost var g := Group(vout, b);
      for i := 0 to 8
        invariant fZero <==> forall k :: 0 <= k < i ==> !g[k]
      {
        assert g[i] == Avail(vout, 2 + b * 8 + i);
        if 2 + b * 8 + i < |vout| && !vout[2 + b * 8 + i].IsNull() {
          fZero := false;
        }
      }
      PackZero(g);
      UsedSnoc(vout, 0, b);
      if !fZero {
        nBytes := b + 1;
        nNonzeroBytes := nNonzeroBytes + 1;
      }
      b := b + 1;
    }
  }

  lemma {:induction false} MaskBytesSnoc(vout: seq<TxOut>, b: nat, n: nat)
    requires b <= n
    ensures MaskBytes(vout, b, n + 1) == MaskBytes(vout, b, n) + [Byte(Pack(Group(vout, n)))]
    decreases n - b
  {
    if b < n { MaskBytesSnoc(vout, b + 1, n); } else { assert MaskBytes(vout, n + 1, n + 1) == []; }
  }

  lemma {:induction false} WriteOutsSnoc(vout: seq<TxOut>, i: nat, n: nat)
    requires i <= n
    ensures WriteOuts(vout, i, n + 1) ==
            WriteOuts(vout, i, n) + (if Avail(vout, n) then [Out(vout[n].nValue, vout[n].script)] else [])
    decreases n - i
  {
    if i < n { WriteOutsSnoc(vout, i + 1, n); } else { assert WriteOuts(vout, n + 1, n + 1) == []; }
  }

  /** One mask byte, set bit by bit. */
  method MaskByte(vout: seq<TxOut>, b: nat) returns (chAvail: nat)
    ensures chAvail == Pack(Group(vout, b))
  {
    hide Pack, Pow2;
    chAvail := 0;
    ghost var g := Group(vout, b);
    PackNothing(g[..0]);
    for i := 0 to 8
      invariant chAvail == Pack(g[..i])
    {
      assert g[..i + 1] == g[..i] + [g[i]];
      PackAppend(g[..i], g[i]);
      assert g[i] == Avail(vout, 2 + b * 8 + i);
      if 2 + b * 8 + i < |vout| && !vout[2 + b * 8 + i].IsNull() {
        chAvail := chAvail + Pow2(i);
      }
    }
    assert g[..8] == g;
  }

  lemma PackNothing(bits: seq<bool>)
    requires bits == []
    ensures Pack(bits) == 0
  {
  }

  method Write(c: Coins) returns (s: seq<Token>)
    requires !IsPruned(c)
    ensures s == Serialize(c)
  {
    var nMaskSize, nMaskCode := CalcMaskSize(c.vout);
    SomethingUsed(c);
    s := [VarInt(V.Kept(c.nVersion)), VarInt(HeaderCode(c, nMaskCode))];
    ghost var head := s;
    for b := 0 to nMaskSize
      invariant s == head + MaskBytes(c.vout, 0, b)
    {
      MaskBytesSnoc(c.vout, 0, b);
      var chAvail := MaskByte(c.vout, b);
      s := s + [Byte(chAvail)];
    }
    ghost var body := s;
    for i := 0 to |c.vout|
      invariant s == body + WriteOuts(c.vout, 0, i)
    {
      WriteOutsSnoc(c.vout, 0, i);
      if !c.vout[i].IsNull() {
        s := s + [Out(c.vout[i].nValue, c.vout[i].script)];
      }
    }
    s := s + [VarInt(V.Kept(c.nHeight))];
  }

  /** A partial result put before the rest of it. */
  function Prepend<T>(done: seq<T>, more: Option<(seq<T>, seq<Token>)>): Option<(seq<T>, seq<Token>)> {
    match more
    case None => None
    case Some((x, rest)) => Some((done + x, rest))
  }

  lemma PrependNothing<T>(done: seq<T>, more: Option<(seq<T>, seq<Token>)>)
    ensures Prepend([], more) == more
    ensures more.Some? && more.value.0 == [] ==> Prepend(done, more) == Some((done, more.value.1))
  {
    if more.Some? {
      assert [] + more.value.0 == more.value.0;
      assert done + [] == done;
    }
  }

  lemma PrependMore<T>(first: seq<T>, next: seq<T>, more: Option<(seq<T>, seq<Token>)>)
    ensures Prepend(first, Prepend(next, more)) == Prepend(first + next, more)
  {
    if more.Some? { assert first + (next + more.value.0) == (first + next) + more.value.0; }
  }

  method ReadMaskLoop(ts: seq<Token>, need: nat) returns (r: Option<(seq<bool>, seq<Token>)>)
    ensures r == ReadMask(ts, need)
  {
    hide Unpack;
    var vAvail: seq<bool>, rest, nMaskCode := [], ts, need;
    PrependNothing(vAvail, ReadMask(ts, need));
    while nMaskCode > 0
      invariant Prepend(vAvail, ReadMask(rest, nMaskCode)) == ReadMask(ts, need)
      decreases |rest|
    {
      if rest == [] || !rest[0].Byte? {
        return None;
      }
      var chAvail := rest[0].b;
      PrependMore(vAvail, Unpack(chAvail, 8), ReadMask(rest[1..], if chAvail != 0 then nMaskCode - 1 else nMaskCode));
      vAvail := vAvail + Unpack(chAvail, 8);
      rest := rest[1..];
      if chAvail != 0 {
        nMaskCode := nMaskCode - 1;
      }
    }
    PrependNothing(vAvail, ReadMask(rest, 0));
    return Some((vAvail, rest));
  }

  method ReadOutsLoop(vAvail: seq<bool>, ts: seq<Token>) returns (r: Option<(seq<TxOut>, seq<Token>)>)
    ensures r == ReadOuts(vAvail, ts)
  {
    var vout: seq<TxOut>, rest := [], ts;
    PrependNothing(vout, ReadOuts(vAvail, ts));
    assert vAvail[0..] == vAvail;
    for i := 0 to |vAvail|
      invariant Prepend(vout, ReadOuts(vAvail[i..], rest)) == ReadOuts(vAvail, ts)
    {
      assert vAvail[i..][1..] == vAvail[i + 1..];
      var o := NULL_OUT;
      if vAvail[i] {
        if rest == [] || !rest[0].Out? {
          return None;
        }
        o := TxOut(rest[0].value, rest[0].script, -10);
        rest := rest[1..];
      }
      var more := ReadOuts(vAvail[i + 1..], rest);
      if more.Some? {
        assert vout + ([o] + more.value.0) == (vout + [o]) + more.value.0;
      }
      vout := vout + [o];
    }
    PrependNothing(vout, ReadOuts([], rest));
    return Some((vout, rest));
  }

  /** The code's order of reading; fails when the stream ends or holds something else. */
  method Read(ts: seq<Token>) returns (r: Option<(Coins, seq<Token>)>)
    ensures r == Unserialize(ts)
  {
    if |ts| < 2 || !ts[0].VarInt? || !ts[1].VarInt? {
      return None;
    }
    var code := ts[1].n;
    var first, second := BitAt(code, 2), BitAt(code, 3);
    var mask := ReadMaskLoop(ts[2..], code / 16 + If(!first && !second, 1));
    if mask.None? {
      return None;
    }
    var outs := ReadOutsLoop([first, second] + mask.value.0, mask.value.1);
    if outs.None? || outs.value.1 == [] || !outs.value.1[0].VarInt? {
      return None;
    }
    var c := Coins(BitAt(code, 0), BitAt(code, 1), outs.value.0, Int32(outs.value.1[0].n), Int32(ts[0].n));
    return Some((Cleanup(c), outs.value.1[1..]));
  }
}

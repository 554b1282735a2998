/** The bytes of stored coins: the tokens of CoinsCodec as variable-length integers and compressed
    outputs, and the size that CCoins::GetSerializeSize (src/coins.h) announces. */
module CoinsBytes {
  import opened Bits
  import opened CoinsCodec
  import opened CoinsView
  import opened Wrappers
  import K = Compressor
  import V = VarInt

  /** What the fields of a token can hold. */
  predicate Fits(t: Token) {
    match t
    case VarInt(n) => n < K.WIDTH32
    case Byte(b) => b < 256
    case Out(value, script) =>
      && 0 <= value <= K.MAX_U64 && K.Compress(value) <= K.MAX_U64
      && |script| + K.SPECIAL_SCRIPTS < K.WIDTH32
  }

  predicate AllFit(ts: seq<Token>) {
    forall i :: 0 <= i < |ts| ==> Fits(ts[i])
  }

  function TokenBytes(c: K.Curve, t: Token): seq<nat>
    requires Fits(t)
  {
    match t
    case VarInt(n) => V.Write(n)
    case Byte(b) => [b]
    case Out(value, script) => K.WriteOut(c, K.TxOut(value, script))
  }

  function Bytes(c: K.Curve, ts: seq<Token>): seq<nat>
    requires AllFit(ts)
  {
    if ts == [] then [] else TokenBytes(c, ts[0]) + Bytes(c, ts[1..])
  }

  // ------------------------------------------------------------------- reading

  function ReadFlags(b: seq<nat>, need: nat): Option<(seq<bool>, seq<nat>)> {
    if need == 0 then Some(([], b))
    else if b == [] then None
    else match ReadFlags(b[1..], if b[0] != 0 then need - 1 else need)
         case None => None
         case Some((bits, rest)) => Some((Unpack(b[0], 8) + bits, rest))
  }

  function ReadOutputs(c: K.Curve, avail: seq<bool>, b: seq<nat>): Option<(seq<TxOut>, seq<nat>)> {
    if avail == [] then Some(([], b))
    else if !avail[0] then
      match ReadOutputs(c, avail[1..], b)
      case None => None
      case Some((vout, rest)) => Some(([NULL_OUT] + vout, rest))
    else
      match K.ReadOut(c, [], b)
      case None => None
      case Some((o, more)) =>
        match ReadOutputs(c, avail[1..], more)
        case None => None
        case Some((vout, rest)) => Some(([TxOut(o.nValue, o.scriptPubKey, -10)] + vout, rest))
  }

  /** A number of 32 bits. */
  function ReadNumber(b: seq<nat>): Option<(nat, seq<nat>)> {
    match V.Read(b, 0)
    case None => None
    case Some((n, rest)) => Some((V.Wrap(n, K.WIDTH32), rest))
  }

  function ReadCoins(c: K.Curve, b: seq<nat>): Option<(Coins, seq<nat>)> {
    match ReadNumber(b)
    case None => None
    case Some((version, b1)) =>
      match ReadNumber(b1)
      case None => None
      case Some((code, b2)) =>
        var first, second := BitAt(code, 2), BitAt(code, 3);
        match ReadFlags(b2, code / 16 + If(!first && !second, 1))
        case None => None
        case Some((bits, b3)) =>
          match ReadOutputs(c, [first, second] + bits, b3)
          case None => None
          case Some((vout, b4)) =>
            match ReadNumber(b4)
            case None => None
            case Some((height, rest)) =>
              Some((Cleanup(Coins(BitAt(code, 0), BitAt(code, 1), vout, Int32(height), Int32(version))), rest))
  }

  // ------------------------------------------------- reading bytes is reading tokens

  lemma BytesNext(c: K.Curve, ts: seq<Token>, rest: seq<nat>)
    requires AllFit(ts) && ts != []
    ensures AllFit(ts[1..]) && Bytes(c, ts) + rest == TokenBytes(c, ts[0]) + (Bytes(c, ts[1..]) + rest)
  {
  }

  lemma NumberBack(c: K.Curve, t: Token, rest: seq<nat>)
    requires t.VarInt? && Fits(t)
    ensures ReadNumber(TokenBytes(c, t) + rest) == Some((t.n, rest))
  {
    V.ReadWrite(t.n, rest);
  }

  lemma {:induction false} FlagsBack(c: K.Curve, ts: seq<Token>, need: nat, rest: seq<nat>)
    requires AllFit(ts) && ReadMask(ts, need).Some?
    ensures var (bits, more) := ReadMask(ts, need).value;
            AllFit(more) && ReadFlags(Bytes(c, ts) + rest, need) == Some((bits, Bytes(c, more) + rest))
  {
    hide Unpack, Bytes;
    if need > 0 {
      BytesNext(c, ts, rest);
      var b := Bytes(c, ts) + rest;
      assert b[0] == ts[0].b && b[1..] == Bytes(c, ts[1..]) + rest;
      FlagsBack(c, ts[1..], if ts[0].b != 0 then need - 1 else need, rest);
    }
  }

  lemma {:induction false} OutputsBack(c: K.Curve, avail: seq<bool>, ts: seq<Token>, rest: seq<nat>)
    requires K.Inverse(c) && AllFit(ts) && ReadOuts(avail, ts).Some?
    ensures var (vout, more) := ReadOuts(avail, ts).value;
            AllFit(more) && ReadOutputs(c, avail, Bytes(c, ts) + rest) == Some((vout, Bytes(c, more) + rest))
  {
    hide Bytes, K.WriteOut, K.ReadOut, K.Inverse, K.Compress;
    if avail != [] {
      if !avail[0] {
        OutputsBack(c, avail[1..], ts, rest);
      } else {
        BytesNext(c, ts, rest);
        K.OutRoundTrip(c, [], K.TxOut(ts[0].value, ts[0].script), Bytes(c, ts[1..]) + rest);
        OutputsBack(c, avail[1..], ts[1..], rest);
      }
    }
  }

  /** Whatever coins the tokens stand for, their bytes stand for as well. */
  lemma CoinsBack(c: K.Curve, ts: seq<Token>, rest: seq<nat>)
    requires K.Inverse(c) && AllFit(ts) && Unserialize(ts).Some?
    ensures var (coins, more) := Unserialize(ts).value;
            AllFit(more) && ReadCoins(c, Bytes(c, ts) + rest) == Some((coins, Bytes(c, more) + rest))
  {
    hide Bytes, TokenBytes, ReadMask, ReadOuts, ReadFlags, ReadOutputs, ReadNumber, BitAt, Cleanup, K.Inverse;
    BytesNext(c, ts, rest);
    BytesNext(c, ts[1..], rest);
    NumberBack(c, ts[0], Bytes(c, ts[1..]) + rest);
    NumberBack(c, ts[1], Bytes(c, ts[2..]) + rest);
    var code := ts[1].n;
    var first, second := BitAt(code, 2), BitAt(code, 3);
    var need := code / 16 + If(!first && !second, 1);
    FlagsBack(c, ts[2..], need, rest);
    var (bits, ts3) := ReadMask(ts[2..], need).value;
    OutputsBack(c, [first, second] + bits, ts3, rest);
    var ts4 := ReadOuts([first, second] + bits, ts3).value.1;
    BytesNext(c, ts4, rest);
    NumberBack(c, ts4[0], Bytes(c, ts4[1..]) + rest);
  }

  // ---------------------------------------------------------------- round trip

  /** Coins whose fields fit the types they are stored as. */
  predicate Storable(c: Coins) {
    && IsInt(c.nVersion) && IsInt(c.nHeight) && 16 * GroupCount(c.vout) + 15 < K.WIDTH32
    && forall i :: 0 <= i < |c.vout| && !c.vout[i].IsNull() ==> Fits(Out(c.vout[i].nValue, c.vout[i].script))
  }

  lemma {:induction false} MaskFits(vout: seq<TxOut>, b: nat, n: nat)
    ensures AllFit(MaskBytes(vout, b, n)) && |MaskBytes(vout, b, n)| == if b < n then n - b else 0
    decreases n - b
  {
    if b < n {
      PackBound(Group(vout, b));
      assert Pow2(8) == 256;
      MaskFits(vout, b + 1, n);
    }
  }

  lemma {:induction false} OutsFit(c: Coins, i: nat, n: nat)
    requires Storable(c)
    ensures AllFit(WriteOuts(c.vout, i, n))
    decreases n - i
  {
    hide Fits;
    if i < n { OutsFit(c, i + 1, n); }
  }

  lemma SerializeFits(c: Coins)
    requires !IsPruned(c) && Storable(c)
    ensures AllFit(Serialize(c))
  {
    hide MaskBytes, WriteOuts, UsedFrom;
    var m := Mask(c.vout);
    SomethingUsed(c);
    UsedAtMost(c.vout, 0, m);
    MaskFits(c.vout, 0, m);
    OutsFit(c, 0, |c.vout|);
  }

  lemma {:induction false} UsedAtMost(vout: seq<TxOut>, b: nat, n: nat)
    ensures UsedFrom(vout, b, n) <= if b < n then n - b else 0
    decreases n - b
  {
    if b < n { UsedAtMost(vout, b + 1, n); }
  }

  /** Stored coins are loaded from their bytes, whatever follows these: just as they were, but for
      a negative version or height. */
  lemma RoundTripBytes(curve: K.Curve, c: Coins, rest: seq<nat>)
    requires K.Inverse(curve) && !IsPruned(c) && Storable(c)
    ensures AllFit(Serialize(c)) && ReadCoins(curve, Bytes(curve, Serialize(c)) + rest) == Some((Loaded(c), rest))
    ensures Loaded(c) == Reloaded(c) <==> c.nVersion >= 0 && c.nHeight >= 0
  {
    hide ReadCoins, Serialize, Unserialize, Reloaded, Loaded, Storable, IsPruned, IsInt, K.Inverse, Bytes, AllFit;
    StorableInts(c);
    SerializeFits(c);
    RoundTrip(c, []);
    NothingAfter(Serialize(c));
    CoinsBack(curve, Serialize(c), rest);
    NoBytes(curve, rest);
  }

  lemma StorableInts(c: Coins)
    requires Storable(c)
    ensures IsInt(c.nVersion) && IsInt(c.nHeight)
  {
    hide Fits;
  }

  lemma NothingAfter(ts: seq<Token>)
    ensures ts + [] == ts
  {
  }

  lemma NoBytes(c: K.Curve, rest: seq<nat>)
    ensures AllFit([]) && Bytes(c, []) + rest == rest
  {
  }

  // ------------------------------------------------------------- the announced size

  /** The header code that GetSerializeSize reckons with: the number of bytes counts for eight
      where the writer makes it sixteen. */
  function AnnouncedCode(c: Coins, used: nat): nat
    requires Avail(c.vout, 0) || Avail(c.vout, 1) || used > 0
  {
    var first, second := Avail(c.vout, 0), Avail(c.vout, 1);
    8 * (used - If(!first && !second, 1)) + If(c.fCoinBase, 1) + If(c.fCoinStake, 2) + If(first, 4) + If(second, 8)
  }

  function HeaderSize(c: Coins): nat
    requires !IsPruned(c)
  {
    SomethingUsed(c);
    V.Size(HeaderCode(c, UsedFrom(c.vout, 0, Mask(c.vout))))
  }

  function AnnouncedSize(c: Coins): nat
    requires !IsPruned(c)
  {
    SomethingUsed(c);
    V.Size(AnnouncedCode(c, UsedFrom(c.vout, 0, Mask(c.vout))))
  }

  lemma {:induction false} BytesJoin(c: K.Curve, s: seq<Token>, t: seq<Token>)
    requires AllFit(s) && AllFit(t)
    ensures AllFit(s + t) && Bytes(c, s + t) == Bytes(c, s) + Bytes(c, t)
  {
    hide TokenBytes;
    if s == [] {
      assert s + t == t;
    } else {
      assert (s + t)[1..] == s[1..] + t;
      BytesJoin(c, s[1..], t);
    }
  }

  lemma {:induction false} MaskLength(c: K.Curve, vout: seq<TxOut>, b: nat, n: nat)
    requires AllFit(MaskBytes(vout, b, n))
    ensures |Bytes(c, MaskBytes(vout, b, n))| == if b < n then n - b else 0
    decreases n - b
  {
    if b < n {
      assert MaskBytes(vout, b, n)[1..] == MaskBytes(vout, b + 1, n);
      MaskLength(c, vout, b + 1, n);
    }
  }

  /** What is written takes as many bytes as its parts. */
  lemma WrittenSize(curve: K.Curve, c: Coins)
    requires !IsPruned(c) && Storable(c)
    ensures AllFit(Serialize(c)) && AllFit(WriteOuts(c.vout, 0, |c.vout|))
    ensures |Bytes(curve, Serialize(c))|
            == V.Size(V.Kept(c.nVersion)) + HeaderSize(c) + Mask(c.vout)
               + |Bytes(curve, WriteOuts(c.vout, 0, |c.vout|))| + V.Size(V.Kept(c.nHeight))
  {
    var m := Mask(c.vout);
    SomethingUsed(c);
    var code := HeaderCode(c, UsedFrom(c.vout, 0, m));
    SerializeFits(c);
    MaskFits(c.vout, 0, m);
    OutsFit(c, 0, |c.vout|);
    MaskLength(curve, c.vout, 0, m);
    V.WriteSize(V.Kept(c.nVersion));
    V.WriteSize(code);
    V.WriteSize(V.Kept(c.nHeight));
    hide MaskBytes, WriteOuts, UsedFrom, HeaderCode, Mask, Storable, V.Size, V.Write, Bytes, Fits;
    var mask, outs := MaskBytes(c.vout, 0, m), WriteOuts(c.vout, 0, |c.vout|);
    var version, height := VarInt(V.Kept(c.nVersion)), VarInt(V.Kept(c.nHeight));
    assert Serialize(c) == [version, VarInt(code)] + mask + outs + [height];
    assert Fits(Serialize(c)[0]) && Fits(Serialize(c)[1]) && Fits(Serialize(c)[|Serialize(c)| - 1]);
    PartsSize(curve, version, VarInt(code), mask, outs, height);
  }

  lemma PartsSize(c: K.Curve, a: Token, b: Token, mask: seq<Token>, outs: seq<Token>, last: Token)
    requires Fits(a) && Fits(b) && AllFit(mask) && AllFit(outs) && Fits(last)
    ensures var all := [a, b] + mask + outs + [last];
            AllFit(all) && |Bytes(c, all)| == |TokenBytes(c, a)| + |TokenBytes(c, b)| + |Bytes(c, mask)|
                                              + |Bytes(c, outs)| + |TokenBytes(c, last)|
  {
    hide Bytes, TokenBytes, Fits;
    assert [a, b] == [a] + [b];
    OneToken(c, a);
    OneToken(c, b);
    OneToken(c, last);
    BytesJoin(c, [a], [b]);
    BytesJoin(c, [a, b], mask);
    BytesJoin(c, [a, b] + mask, outs);
    BytesJoin(c, [a, b] + mask + outs, [last]);
  }

  lemma OneToken(c: K.Curve, t: Token)
    requires Fits(t)
    ensures AllFit([t]) && Bytes(c, [t]) == TokenBytes(c, t)
  {
    assert Bytes(c, [t]) == TokenBytes(c, t) + Bytes(c, []);
  }

  lemma OutValue(c: Coins, i: nat)
    requires Storable(c) && i < |c.vout|
    ensures Avail(c.vout, i) ==> c.vout[i].nValue >= 0
  {
    if Avail(c.vout, i) { assert Fits(Out(c.vout[i].nValue, c.vout[i].script)); }
  }

  lemma NoOuts(curve: K.Curve, vout: seq<TxOut>)
    ensures AllFit(WriteOuts(vout, 0, 0)) && Bytes(curve, WriteOuts(vout, 0, 0)) == []
  {
  }

  lemma OutsMore(curve: K.Curve, vout: seq<TxOut>, i: nat)
    requires i < |vout| && AllFit(WriteOuts(vout, 0, i + 1)) && (Avail(vout, i) ==> vout[i].nValue >= 0)
    ensures AllFit(WriteOuts(vout, 0, i))
    ensures |Bytes(curve, WriteOuts(vout, 0, i + 1))| == |Bytes(curve, WriteOuts(vout, 0, i))|
            + if Avail(vout, i) then |K.WriteOut(curve, K.TxOut(vout[i].nValue, vout[i].script))| else 0
  {
    hide K.WriteOut, Fits;
    WriteOutsSnoc(vout, 0, i);
    var first, all := WriteOuts(vout, 0, i), WriteOuts(vout, 0, i + 1);
    var more := if Avail(vout, i) then [Out(vout[i].nValue, vout[i].script)] else [];
    assert all == first + more;
    assert forall j :: 0 <= j < |first| ==> first[j] == all[j];
    assert forall j :: 0 <= j < |more| ==> more[j] == all[|first| + j];
    BytesJoin(curve, first, more);
  }

  /** A smaller number takes no more bytes. */
  lemma SizeMono(a: nat, b: nat)
    requires a <= b
    ensures V.Size(a) <= V.Size(b)
  {
    V.SizeLimits(b, V.Size(b));
    V.SizeLimits(a, V.Size(b));
  }

  lemma AnnouncedBelow(c: Coins)
    requires !IsPruned(c)
    ensures AnnouncedSize(c) <= HeaderSize(c)
  {
    SomethingUsed(c);
    var used := UsedFrom(c.vout, 0, Mask(c.vout));
    SizeMono(AnnouncedCode(c, used), HeaderCode(c, used));
  }

  /** 66 unspent outputs are enough for that: there are eight mask bytes. */
  lemma AnnouncedFails(c: Coins)
    requires |c.vout| == 66 && forall i :: 0 <= i < 66 ==> !c.vout[i].IsNull()
    ensures !IsPruned(c) && AnnouncedSize(c) < HeaderSize(c)
  {
    assert !c.vout[0].IsNull();
    assert GroupCount(c.vout) == 8;
    AllUsed(c.vout, 8);
    AllUsedFrom(c.vout, 0);
    hide Used, UsedFrom, MaskSize;
    assert Mask(c.vout) == 8;
    var code, announced := HeaderCode(c, 8), AnnouncedCode(c, 8);
    V.SizeLimits(code, 1);
    V.SizeLimits(announced, 1);
    V.Limits();
  }

  lemma AllUsed(vout: seq<TxOut>, n: nat)
    requires |vout| == 66 && n <= 8 && forall i :: 0 <= i < 66 ==> !vout[i].IsNull()
    ensures forall b :: 0 <= b < n ==> Used(vout, b)
    ensures MaskSize(vout, n) == n
  {
    forall b | 0 <= b < n ensures Used(vout, b) {
      assert Avail(vout, 2 + b * 8 + 0);
      assert Group(vout, b)[0];
      PackZero(Group(vout, b));
    }
  }

  lemma {:induction false} AllUsedFrom(vout: seq<TxOut>, b: nat)
    requires b <= 8 && forall b :: 0 <= b < 8 ==> Used(vout, b)
    ensures UsedFrom(vout, b, 8) == 8 - b
    decreases 8 - b
  {
    if b < 8 { AllUsedFrom(vout, b + 1); }
  }

  /** The announced size is too small as soon as the two header codes take different numbers of
      bytes, and right otherwise. */
  method GetSerializeSize(curve: K.Curve, c: Coins) returns (nSize: nat)
    requires !IsPruned(c) && Storable(c)
    ensures AllFit(Serialize(c)) && nSize <= |Bytes(curve, Serialize(c))|
    ensures nSize == |Bytes(curve, Serialize(c))| <==> AnnouncedSize(c) == HeaderSize(c)
  {
    hide K.WriteOut, K.WriteScript, V.Size, Mask, MaskBytes, UsedFrom, Serialize, Bytes, GroupCount, Fits;
    WrittenSize(curve, c);
    AnnouncedBelow(c);
    var nMaskSize, nMaskCode := CalcMaskSize(c.vout);
    SomethingUsed(c);
    var nCode := AnnouncedCode(c, nMaskCode);
    nSize := V.Size(V.Kept(c.nVersion)) + V.Size(nCode) + nMaskSize;
    ghost var start := nSize;
    NoOuts(curve, c.vout);
    for i := 0 to |c.vout|
      invariant AllFit(WriteOuts(c.vout, 0, i))
      invariant nSize == start + |Bytes(curve, WriteOuts(c.vout, 0, i))|
    {
      OutsFit(c, 0, i + 1);
      OutValue(c, i);
      OutsMore(curve, c.vout, i);
      if !c.vout[i].IsNull() {
        nSize := nSize + |K.WriteOut(curve, K.TxOut(c.vout[i].nValue, c.vout[i].script))|;
      }
    }
    nSize := nSize + V.Size(V.Kept(c.nHeight));
  }
}

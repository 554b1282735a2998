/** The formats as src/serialize.h, src/coins.h and the tests of the repository describe them,
    apart from the code that writes and reads them. */
module Formats {
  import opened Arith
  import opened Radix
  import opened Wrappers
  import B = Base58
  import C = CoinsView
  import K = Compressor
  import M = CoinsBytes
  import T = CoinsCodec
  import V = VarInt

  // --------------------------------------------------- variable-length integers

  /** All bytes but the last have the high bit. */
  predicate IsVarInt(a: seq<nat>) {
    a != [] && a[|a| - 1] < 128 && forall i :: 0 <= i < |a| - 1 ==> 128 <= a[i] < 256
  }

  /** What the bytes stand for: seven bits each, one more in all but the last. */
  function Sum(a: seq<nat>): nat
    requires a != []
  {
    if |a| == 1 then a[0] % 128 else (a[0] % 128 + 1) * Pow(128, |a| - 1) + Sum(a[1..])
  }

  lemma {:induction false} ReadsOn(a: seq<nat>, t: seq<nat>, acc: nat)
    requires IsVarInt(a)
    ensures V.Read(a + t, acc) == Some((acc * Pow(128, |a|) + Sum(a), t))
  {
    var b, low := a + t, a[0] % 128;
    if |a| == 1 {
      assert b[1..] == t && Pow(128, 1) == 128 * Pow(128, 0);
    } else {
      var p := Pow(128, |a| - 1);
      assert b[1..] == a[1..] + t;
      ReadsOn(a[1..], t, acc * 128 + low + 1);
      Add(acc * 128, low + 1, p);
      Assoc(acc, 128, p);
    }
  }

  /** Reading gives the sum that the source documents, and so does what is written. */
  lemma VarIntSum(a: seq<nat>, t: seq<nat>, n: nat)
    requires IsVarInt(a)
    ensures V.Read(a + t, 0) == Some((Sum(a), t))
    ensures IsVarInt(V.Write(n)) && Sum(V.Write(n)) == n
  {
    hide V.Write, V.Read, Sum;
    ReadsOn(a, t, 0);
    ReadsOn(V.Write(n), t, 0);
    V.ReadWrite(n, t);
  }

  lemma WriteIs(a: seq<nat>)
    requires IsVarInt(a)
    ensures V.Write(Sum(a)) == a
  {
    hide Sum, V.Read, V.Write;
    ReadsOn(a, [], 0);
    assert a + [] == a;
    V.WriteRead(a);
  }

  lemma Powers()
    ensures Pow(128, 0) == 1 && Pow(128, 1) == 128 && Pow(128, 2) == 16384
    ensures Pow(128, 3) == 2097152 && Pow(128, 4) == 268435456
  {
    assert Pow(128, 1) == 128 * Pow(128, 0);
    assert Pow(128, 2) == 128 * Pow(128, 1);
    assert Pow(128, 3) == 128 * Pow(128, 2);
    assert Pow(128, 4) == 128 * Pow(128, 3);
  }

  lemma OneByte(a: nat)
    requires a < 128
    ensures Sum([a]) == a && V.Write(a) == [a]
  {
  }

  lemma TwoBytes(a: nat, b: nat)
    requires 128 <= a < 256 && b < 128
    ensures Sum([a, b]) == (a - 127) * 128 + b && V.Write((a - 127) * 128 + b) == [a, b]
  {
    Powers();
    OneByte(b);
    assert [a, b][1..] == [b];
    WriteIs([a, b]);
  }

  lemma ThreeBytes(a: nat, b: nat, c: nat)
    requires 128 <= a < 256 && 128 <= b < 256 && c < 128
    ensures Sum([a, b, c]) == (a - 127) * 16384 + (b - 127) * 128 + c
    ensures V.Write((a - 127) * 16384 + (b - 127) * 128 + c) == [a, b, c]
  {
    Powers();
    TwoBytes(b, c);
    assert [a, b, c][1..] == [b, c];
    WriteIs([a, b, c]);
  }

  lemma FiveBytes()
    ensures V.Write(0x1_0000_0000) == [0x8E, 0xFE, 0xFE, 0xFF, 0]
  {
    Powers();
    ThreeBytes(0xFE, 0xFF, 0);
    hide Pow, V.Write;
    var a := [0x8E, 0xFE, 0xFE, 0xFF, 0];
    assert a[1..] == [0xFE, 0xFE, 0xFF, 0] && a[1..][1..] == [0xFE, 0xFF, 0];
    assert Sum(a[1..]) == 127 * 2097152 + Sum([0xFE, 0xFF, 0]);
    assert Sum(a) == 15 * 268435456 + Sum(a[1..]);
    WriteIs(a);
  }

  /** The examples that the source documents. */
  lemma VarIntExamples()
    ensures V.Write(0) == [0] && V.Write(1) == [1] && V.Write(127) == [0x7F]
    ensures V.Write(128) == [0x80, 0] && V.Write(255) == [0x80, 0x7F] && V.Write(256) == [0x81, 0]
    ensures V.Write(16383) == [0xFE, 0x7F] && V.Write(16384) == [0xFF, 0]
    ensures V.Write(0x1_0000_0000) == [0x8E, 0xFE, 0xFE, 0xFF, 0]
  {
    hide V.Write, Sum;
    OneByte(0);
    OneByte(1);
    OneByte(127);
    TwoBytes(0x80, 0);
    TwoBytes(0x80, 0x7F);
    TwoBytes(0x81, 0);
    TwoBytes(0xFE, 0x7F);
    TwoBytes(0xFF, 0);
    FiveBytes();
  }

  /** Two of them are wrong: 16511 takes two bytes and the last but one byte of 65535 is 0xFE. The
      bytes that are documented stand for other numbers. */
  lemma VarIntWrong()
    ensures V.Write(16511) == [0xFF, 0x7F] && V.Read([0x80, 0xFF, 0x7F], 0) == Some((32895, []))
    ensures V.Write(65535) == [0x82, 0xFE, 0x7F] && V.Read([0x82, 0xFD, 0x7F], 0) == Some((65407, []))
  {
    TwoBytes(0xFF, 0x7F);
    ThreeBytes(0x82, 0xFE, 0x7F);
    ThreeBytes(0x80, 0xFF, 0x7F);
    ThreeBytes(0x82, 0xFD, 0x7F);
    V.ReadWrite(32895, []);
    V.ReadWrite(65407, []);
    assert [0x80, 0xFF, 0x7F] + [] == [0x80, 0xFF, 0x7F] && [0x82, 0xFD, 0x7F] + [] == [0x82, 0xFD, 0x7F];
  }

  // ----------------------------------------------------------------------- amounts

  /** The rule that the source documents: the amount less its zeros, of which at most nine count,
      with the last digit apart unless all nine do. */
  lemma ShortForm(n: nat, d: nat, e: nat)
    requires 1 <= d <= 9 && e < 9
    ensures K.Compress(0) == 0 && K.Compress((10 * n + d) * Pow(10, e)) == 1 + 10 * (9 * n + d - 1) + e
    ensures n > 0 ==> K.Compress(n * Pow(10, 9)) == 1 + 10 * (n - 1) + 9
  {
    hide Pow, K.Shorten;
    assert (10 * n + d) / 10 == n && (10 * n + d) % 10 == d;
    K.ShortenBack(10 * n + d, e, 0);
    if n > 0 { K.ShortenBack(n, 9, 0); }
  }

  lemma Tens()
    ensures Pow(10, 0) == 1 && Pow(10, 6) == 1000000 && Pow(10, 8) == 100000000 && Pow(10, 9) == 1000000000
  {
    assert Pow(10, 1) == 10 && Pow(10, 2) == 100 && Pow(10, 3) == 1000 && Pow(10, 4) == 10000 && Pow(10, 5) == 100000;
    assert Pow(10, 7) == 10000000;
  }

  /** The amounts of the unit test, and of the examples beside CCoins. */
  lemma ShortExamples()
    ensures K.Compress(0) == 0 && K.Compress(1) == 1 && K.Compress(1000000) == 7 && K.Compress(100000000) == 9
    ensures K.Compress(5000000000) == 0x32 && K.Compress(2100000000000000) == 0x1406f40
    ensures K.Compress(60000000000) == 600 && K.Compress(234925952) == 2114333561 && K.Compress(110397) == 993571
  {
    Tens();
    hide Pow, K.Compress;
    ShortForm(0, 1, 0);
    ShortForm(0, 1, 6);
    ShortForm(0, 1, 8);
    ShortForm(5, 1, 0);
    ShortForm(2100000, 1, 0);
    ShortForm(60, 1, 0);
    ShortForm(23492595, 2, 0);
    ShortForm(11039, 7, 0);
  }

  // ------------------------------------------------------------------------ coins

  /** The first example beside CCoins: version 1, one output unspent, 600 coins to the key hash `h`,
      height 203998. Documented is the second output. */
  function Example(h: seq<nat>, second: bool): C.Coins {
    var out := C.TxOut(60000000000, Script(h), -10);
    C.Coins(false, false, if second then [C.NULL_OUT, out] else [out], 203998, 1)
  }

  function Script(h: seq<nat>): seq<nat> {
    [118, 169, 20] + h + [136, 172]
  }

  lemma ExampleTokens(h: seq<nat>, second: bool)
    ensures var c := Example(h, second);
            && !C.IsPruned(c)
            && T.Serialize(c) == [T.VarInt(1), T.VarInt(if second then 8 else 4), T.Out(60000000000, Script(h)),
                                  T.VarInt(203998)]
  {
    hide Script;
    var c := Example(h, second);
    var n := |c.vout|;
    assert !c.vout[n - 1].IsNull();
    T.SomethingUsed(c);
    assert T.GroupCount(c.vout) == 0;
    assert T.WriteOuts(c.vout, n, n) == [];
    assert T.WriteOuts(c.vout, n - 1, n) == [T.Out(60000000000, Script(h))];
  }

  lemma ExampleOut(curve: K.Curve, h: seq<nat>)
    requires |h| == 20
    ensures M.Fits(T.Out(60000000000, Script(h)))
    ensures M.TokenBytes(curve, T.Out(60000000000, Script(h))) == [0x83, 0x58, 0] + h
  {
    hide V.Write, K.Compress, K.CompressScript, Sum;
    ShortExamples();
    TwoBytes(0x83, 0x58);
    K.ShortForms(curve, h, Zeros(32), 2);
    assert [0x83, 0x58] + ([0] + h) == [0x83, 0x58, 0] + h;
  }

  function Zeros(n: nat): (z: seq<nat>)
    ensures |z| == n
  {
    seq(n, _ => 0)
  }

  lemma FourTokens(curve: K.Curve, a: T.Token, b: T.Token, o: T.Token, z: T.Token)
    requires M.Fits(a) && M.Fits(b) && M.Fits(o) && M.Fits(z)
    ensures M.AllFit([a, b, o, z])
    ensures M.Bytes(curve, [a, b, o, z])
         == M.TokenBytes(curve, a) + M.TokenBytes(curve, b) + M.TokenBytes(curve, o) + M.TokenBytes(curve, z)
  {
    hide M.TokenBytes, M.Fits;
    assert [a, b, o, z][1..] == [b, o, z] && [b, o, z][1..] == [o, z] && [o, z][1..] == [z] && [z][1..] == [];
    assert M.Bytes(curve, [z]) == M.TokenBytes(curve, z);
    assert M.Bytes(curve, [o, z]) == M.TokenBytes(curve, o) + M.TokenBytes(curve, z);
    assert M.Bytes(curve, [b, o, z]) == M.TokenBytes(curve, b) + M.TokenBytes(curve, o) + M.TokenBytes(curve, z);
  }

  /** The documented bytes are those of the coins whose first output is unspent: since there is a flag
      for coin stake, those of the outputs have moved, and the second output has 8 and not 4. */
  lemma ExampleBytes(curve: K.Curve, h: seq<nat>, second: bool)
    requires |h| == 20
    ensures !C.IsPruned(Example(h, second)) && M.AllFit(T.Serialize(Example(h, second)))
    ensures M.Bytes(curve, T.Serialize(Example(h, second)))
         == [1, if second then 8 else 4, 0x83, 0x58, 0] + h + [0x8B, 0xB8, 0x5E]
  {
    hide M.Bytes, M.AllFit, M.Fits, M.TokenBytes, T.Serialize, C.IsPruned, Script, Example;
    var code := if second then 8 else 4;
    ExampleTokens(h, second);
    ExampleOut(curve, h);
    ExampleNumbers(curve, code);
    FourTokens(curve, T.VarInt(1), T.VarInt(code), T.Out(60000000000, Script(h)), T.VarInt(203998));
    Joined(code, h);
  }

  lemma ExampleNumbers(curve: K.Curve, code: nat)
    requires code < 128
    ensures M.Fits(T.VarInt(1)) && M.Fits(T.VarInt(code)) && M.Fits(T.VarInt(203998))
    ensures M.TokenBytes(curve, T.VarInt(1)) == [1] && M.TokenBytes(curve, T.VarInt(code)) == [code]
    ensures M.TokenBytes(curve, T.VarInt(203998)) == [0x8B, 0xB8, 0x5E]
  {
    hide V.Write, Sum;
    OneByte(1);
    OneByte(code);
    ThreeBytes(0x8B, 0xB8, 0x5E);
  }

  lemma Joined(code: nat, h: seq<nat>)
    ensures [1] + [code] + ([0x83, 0x58, 0] + h) + [0x8B, 0xB8, 0x5E]
         == [1, code, 0x83, 0x58, 0] + h + [0x8B, 0xB8, 0x5E]
  {
  }

  // ------------------------------------------------------------------------ Base58

  /** A string stands for the same number as the bytes, and starts with as many digits for zero as
      these do with zeros. */
  lemma EncodeValue(v: Digits)
    requires InBase(256, v)
    ensures B.InAlphabet(B.Encode(v)) && Value(58, B.Indices(B.Encode(v))) == Value(256, v)
    ensures Leading(0, B.Indices(B.Encode(v))) == Leading(0, v)
  {
    hide B.ALPHABET;
    var d := Convert(256, 58, v);
    B.CharsBack(d);
    var z, x := Leading(0, v), Value(256, v);
    LeadingIs(0, d, z);
    ValueZeros(58, z, ToDigits(58, x));
    ValueOfDigits(58, x);
  }
}

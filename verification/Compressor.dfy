/** src/compressor.cpp and src/compressor.h on values: the short forms of amounts and scripts. */
module Compressor {
  import opened Arith
  import opened Radix
  import opened VarInt
  import opened Wrappers

  // -------------------------------------------------------------------- amounts

  const MAX_U64: nat := 0xFFFF_FFFF_FFFF_FFFF
  const WIDTH32: nat := 0x1_0000_0000
  const WIDTH64: nat := 0x1_0000_0000_0000_0000
  const COIN: nat := 100000000

  /** The highest of the money limits, that of the test network; the main chain's is
      40000000 * COIN. */
  const MAX_MONEY_OUT: nat := 43199500 * COIN

  /** Divides by ten as long as it can, but at most until the exponent is 9. */
  function Shorten(n: nat, e: nat): (r: (nat, nat))
    requires n > 0 && e <= 9
    ensures r.0 > 0 && e <= r.1 <= 9
    ensures r.1 == 9 || r.0 % 10 != 0
    decreases 9 - e
  {
    if n % 10 == 0 && e < 9 then Shorten(n / 10, e + 1) else (n, e)
  }

  function Compress(n: nat): nat {
    if n == 0 then 0 else
      var (m, e) := Shorten(n, 0);
      if e < 9 then 1 + (m / 10 * 9 + m % 10 - 1) * 10 + e else 1 + (m - 1) * 10 + 9
  }

  /** The number whose digits before the zeros `x` tells, and how many zeros there are. */
  function Unpacked(x: nat): (r: (nat, nat))
    requires x > 0
    ensures r.0 > 0 && r.1 <= 9 && (r.1 == 9 || r.0 % 10 != 0)
  {
    var e, y := (x - 1) % 10, (x - 1) / 10;
    if e < 9 then (y / 9 * 10 + y % 9 + 1, e) else (y + 1, 9)
  }

  function Decompress(x: nat): nat {
    if x == 0 then 0 else
      var (m, e) := Unpacked(x);
      m * Pow(10, e)
  }

  lemma TenMore(m: nat, k: nat)
    ensures m * Pow(10, k + 1) == 10 * (m * Pow(10, k))
  {
    Assoc(10, m, Pow(10, k));
    Assoc(m, 10, Pow(10, k));
  }

  lemma {:induction false} ShortenValue(n: nat, e: nat)
    requires n > 0 && e <= 9
    ensures var (m, f) := Shorten(n, e); n == m * Pow(10, f - e)
    decreases 9 - e
  {
    if n % 10 == 0 && e < 9 {
      ShortenValue(n / 10, e + 1);
      var (m, f) := Shorten(n, e);
      TenMore(m, f - e - 1);
      hide Pow;
    }
  }

  lemma ShortenTen(n: nat, e: nat)
    requires n > 0 && e < 9
    ensures Shorten(10 * n, e) == Shorten(n, e + 1)
  {
    assert (10 * n) % 10 == 0 && (10 * n) / 10 == n;
  }

  lemma {:induction false} ShortenBack(m: nat, k: nat, e: nat)
    requires m > 0 && e + k <= 9 && (e + k == 9 || m % 10 != 0)
    ensures m * Pow(10, k) > 0 && Shorten(m * Pow(10, k), e) == (m, e + k)
    decreases k
  {
    if k > 0 {
      ShortenBack(m, k - 1, e + 1);
      TenMore(m, k - 1);
      ShortenTen(m * Pow(10, k - 1), e);
    } else {
      assert m * Pow(10, 0) == m;
    }
    hide Shorten, Pow;
  }

  /** Every amount is restored ... */
  lemma DecompressCompress(n: nat)
    ensures Decompress(Compress(n)) == n
  {
    if n > 0 {
      var (m, e) := Shorten(n, 0);
      UnpackedShort(m, e);
      ShortenValue(n, 0);
    }
  }

  lemma UnpackedShort(m: nat, e: nat)
    requires m > 0 && e <= 9 && (e == 9 || m % 10 != 0)
    ensures var x := if e < 9 then 1 + (m / 10 * 9 + m % 10 - 1) * 10 + e else 1 + (m - 1) * 10 + 9;
            Unpacked(x) == (m, e)
  {
    if e < 9 {
      var q, d := m / 10, m % 10;
      var y := q * 9 + d - 1;
      assert (1 + y * 10 + e - 1) % 10 == e && (1 + y * 10 + e - 1) / 10 == y;
      assert y / 9 == q && y % 9 == d - 1;
    }
  }

  lemma UnpackedBack(x: nat)
    requires x > 0
    ensures var (m, e) := Unpacked(x);
            x == if e < 9 then 1 + (m / 10 * 9 + m % 10 - 1) * 10 + e else 1 + (m - 1) * 10 + 9
  {
    var e, y := (x - 1) % 10, (x - 1) / 10;
    if e < 9 {
      var m := y / 9 * 10 + y % 9 + 1;
      assert m / 10 == y / 9 && m % 10 == y % 9 + 1;
    }
  }

  /** ... and every number is the short form of one. */
  lemma CompressDecompress(x: nat)
    ensures Compress(Decompress(x)) == x
  {
    if x > 0 {
      var (m, e) := Unpacked(x);
      ShortenBack(m, e, 0);
      UnpackedBack(x);
      hide Unpacked, Shorten, Pow;
    }
  }

  /** The short form is at most nine times the amount. */
  lemma CompressBound(n: nat)
    ensures Compress(n) <= 9 * n
  {
    if n > 0 {
      var (m, e) := Shorten(n, 0);
      ShortenValue(n, 0);
      TenTimes(m, e);
    }
  }

  lemma {:induction false} TenTimes(m: nat, e: nat)
    requires m > 0
    ensures m * Pow(10, e) >= m + e
    ensures e >= 9 ==> 9 * (m * Pow(10, e)) >= 10 * m
  {
    if e > 0 {
      TenTimes(m, e - 1);
      Assoc(10, m, Pow(10, e - 1));
      Assoc(m, 10, Pow(10, e - 1));
    }
  }

  /** So no amount up to the money limit overflows 64 bits, nor any up to a ninth of what
      64 bits hold; the next amount that ends in 9 does. */
  lemma CompressFits(n: nat)
    ensures 9 * n <= MAX_U64 ==> Compress(n) <= MAX_U64
    ensures n <= MAX_MONEY_OUT ==> Compress(n) <= MAX_U64
    ensures n % 10 == 9 ==> Compress(n) == 9 * n
  {
    CompressBound(n);
  }

  // -------------------------------------------------------------------- scripts

  type Script = seq<nat>

  const OP_DUP: nat := 0x76
  const OP_EQUAL: nat := 0x87
  const OP_EQUALVERIFY: nat := 0x88
  const OP_HASH160: nat := 0xa9
  const OP_CHECKSIG: nat := 0xac
  const SPECIAL_SCRIPTS: nat := 6

  predicate IsToKeyID(s: Script) {
    |s| == 25 && s[0] == OP_DUP && s[1] == OP_HASH160 && s[2] == 20 && s[23] == OP_EQUALVERIFY && s[24] == OP_CHECKSIG
  }

  predicate IsToScriptID(s: Script) {
    |s| == 23 && s[0] == OP_HASH160 && s[1] == 20 && s[22] == OP_EQUAL
  }

  predicate IsToShortKey(s: Script) {
    |s| == 35 && s[0] == 33 && s[34] == OP_CHECKSIG && (s[1] == 2 || s[1] == 3)
  }

  /** A script that pays to an uncompressed public key. */
  predicate IsToLongKey(s: Script) {
    |s| == 67 && s[0] == 65 && s[66] == OP_CHECKSIG && s[1] == 4
  }

  /** The elliptic curve: which 65 bytes are a key, and what a compressed key stands for. */
  datatype Curve = Curve(valid: Script -> bool, expand: Script -> Option<Script>)

  /** The first byte of the compressed key says whether the last one of the key is odd. */
  function Short(key: Script): Script
    requires |key| == 65
  {
    [2 + key[64] % 2] + key[1..33]
  }

  predicate KeyRestored(c: Curve, key: Script)
    requires |key| == 65
  {
    key[0] == 4 && c.valid(key) ==> c.expand(Short(key)) == Some(key)
  }

  /** Expanding a compressed key gives 65 bytes, and gives back every valid key. */
  ghost predicate Inverse(c: Curve) {
    && (forall key: Script :: |key| == 65 ==> KeyRestored(c, key))
    && (forall key: Script :: c.expand(key).Some? ==> |c.expand(key).value| == 65)
  }

  /** The tag and the bytes of the short form. */
  function CompressScript(c: Curve, s: Script): (r: Option<Script>)
    ensures r.Some? ==> |r.value| > 0 && r.value[0] < SPECIAL_SCRIPTS
    ensures r.Some? ==> |r.value| == 1 + SpecialSize(r.value[0])
  {
    if IsToKeyID(s) then Some([0] + s[3..23])
    else if IsToScriptID(s) then Some([1] + s[2..22])
    else if IsToShortKey(s) then Some(s[1..34])
    else if IsToLongKey(s) && c.valid(s[1..66]) then Some([4 + s[65] % 2] + s[2..34])
    else None
  }

  /** The short form of each kind of script, byte by byte; `h` and `x` are a hash and a coordinate. */
  lemma ShortForms(c: Curve, h: Script, x: Script, tag: nat)
    requires |h| == 20 && |x| == 32 && (tag == 2 || tag == 3)
    ensures CompressScript(c, [118, 169, 20] + h + [136, 172]) == Some([0] + h)
    ensures CompressScript(c, [169, 20] + h + [135]) == Some([1] + h)
    ensures CompressScript(c, [33, tag] + x + [172]) == Some([tag] + x)
  {
    var a, b, d := [118, 169, 20] + h + [136, 172], [169, 20] + h + [135], [33, tag] + x + [172];
    assert a[3..23] == h && b[2..22] == h && d[1..34] == [tag] + x;
  }

  /** The short form of a key of two coordinates is the first one, and whether the other is odd. */
  lemma LongForm(c: Curve, x: Script, y: Script)
    requires |x| == 32 && |y| == 32
    ensures CompressScript(c, [65, 4] + x + y + [172])
         == if c.valid([4] + x + y) then Some([4 + y[31] % 2] + x) else None
  {
    var s := [65, 4] + x + y + [172];
    assert s[1..66] == [4] + x + y && s[2..34] == x && s[65] == y[31];
  }

  /** No other script has a short form. */
  lemma OnlyForms(c: Curve, s: Script)
    requires CompressScript(c, s).Some?
    ensures || (|s| == 25 && s == [118, 169, 20] + s[3..23] + [136, 172])
            || (|s| == 23 && s == [169, 20] + s[2..22] + [135])
            || (|s| == 35 && 2 <= s[1] <= 3 && s == [33, s[1]] + s[2..34] + [172])
            || (|s| == 67 && s == [65, 4] + s[2..34] + s[34..66] + [172] && c.valid([4] + s[2..34] + s[34..66]))
  {
    if |s| == 67 { assert s[1..66] == [4] + s[2..34] + s[34..66]; }
  }

  function SpecialSize(tag: nat): nat {
    if tag <= 1 then 20 else if tag <= 5 then 32 else 0
  }

  function DecompressScript(c: Curve, tag: nat, b: Script): Option<Script>
    requires |b| == SpecialSize(tag)
  {
    if tag == 0 then Some([OP_DUP, OP_HASH160, 20] + b + [OP_EQUALVERIFY, OP_CHECKSIG])
    else if tag == 1 then Some([OP_HASH160, 20] + b + [OP_EQUAL])
    else if tag == 2 || tag == 3 then Some([33, tag] + b + [OP_CHECKSIG])
    else if tag == 4 || tag == 5 then
      match c.expand([tag - 2] + b)
      case None => None
      case Some(key) => Some([65] + key + [OP_CHECKSIG])
    else None
  }

  /** A script with a short form is restored byte for byte. */
  lemma ScriptRestored(c: Curve, s: Script)
    requires Inverse(c) && CompressScript(c, s).Some?
    ensures var t := CompressScript(c, s).value;
            DecompressScript(c, t[0], t[1..]) == Some(s)
  {
    if IsToKeyID(s) {
      assert s == [s[0], s[1], s[2]] + s[3..23] + [s[23], s[24]];
    } else if IsToScriptID(s) {
      assert s == [s[0], s[1]] + s[2..22] + [s[22]];
    } else if IsToShortKey(s) {
      assert s[1..34] == [s[1]] + s[2..34];
      assert s == [s[0], s[1]] + s[2..34] + [s[34]];
    } else {
      LongKeyRestored(c, s);
    }
  }

  lemma SliceOfSlice(s: Script, key: Script)
    requires |s| == 67 && key == s[1..66]
    ensures key[1..33] == s[2..34] && key[64] == s[65]
  {
  }

  lemma LongKeyRestored(c: Curve, s: Script)
    requires Inverse(c) && IsToLongKey(s) && c.valid(s[1..66])
    ensures DecompressScript(c, 4 + s[65] % 2, s[2..34]) == Some(s)
  {
    var key := s[1..66];
    assert KeyRestored(c, key);
    SliceOfSlice(s, key);
    assert [4 + s[65] % 2 - 2] + s[2..34] == Short(key);
    assert s == [s[0]] + key + [s[66]];
  }

  // ---------------------------------------------------------------- as a stream

  function WriteScript(c: Curve, s: Script): seq<nat> {
    match CompressScript(c, s)
    case Some(t) => t
    case None => Write(|s| + SPECIAL_SCRIPTS) + s
  }

  /** `was` is the script before; it stays when a compressed key stands for nothing. A size is
      read into 32 bits. */
  function ReadScript(c: Curve, was: Script, b: seq<nat>): Option<(Script, seq<nat>)> {
    match Read(b, 0)
    case None => None
    case Some((size, t)) =>
      var n := Wrap(size, WIDTH32);
      if n < SPECIAL_SCRIPTS then
        var k := SpecialSize(n);
        if |t| < k then None else
          var s := match DecompressScript(c, n, t[..k]) case Some(s) => s case None => was;
          Some((s, t[k..]))
      else
        var k := n - SPECIAL_SCRIPTS;
        if |t| < k then None else Some((t[..k], t[k..]))
  }

  /** A script is read back as it was written, whatever follows it. */
  lemma ScriptRoundTrip(c: Curve, was: Script, s: Script, rest: seq<nat>)
    requires Inverse(c) && |s| + SPECIAL_SCRIPTS < WIDTH32
    ensures ReadScript(c, was, WriteScript(c, s) + rest) == Some((s, rest))
  {
    hide Write, Read, DecompressScript, CompressScript, Inverse;
    match CompressScript(c, s)
    case Some(t) => TaggedRoundTrip(c, was, s, t, rest);
    case None => PlainRoundTrip(c, was, s, rest);
  }

  lemma TaggedRead(c: Curve, was: Script, b: seq<nat>, tag: nat, more: seq<nat>)
    requires tag < SPECIAL_SCRIPTS && |more| >= SpecialSize(tag) && Read(b, 0) == Some((tag, more))
    ensures var d := DecompressScript(c, tag, more[..SpecialSize(tag)]);
            ReadScript(c, was, b) == Some((if d.Some? then d.value else was, more[SpecialSize(tag)..]))
  {
    hide Read, DecompressScript, SpecialSize;
    assert Wrap(tag, WIDTH32) == tag;
  }

  lemma TaggedRoundTrip(c: Curve, was: Script, s: Script, t: Script, rest: seq<nat>)
    requires Inverse(c) && CompressScript(c, s) == Some(t)
    ensures ReadScript(c, was, t + rest) == Some((s, rest))
  {
    ScriptRestored(c, s);
    TagIsNumber(t[0]);
    hide Write, Read, ReadScript, DecompressScript, CompressScript, Inverse;
    var more := t[1..] + rest;
    assert t + rest == [t[0]] + more;
    ReadWrite(t[0], more);
    TaggedRead(c, was, t + rest, t[0], more);
    assert more[..|t| - 1] == t[1..] && more[|t| - 1..] == rest;
  }

  lemma PlainRoundTrip(c: Curve, was: Script, s: Script, rest: seq<nat>)
    requires |s| + SPECIAL_SCRIPTS < WIDTH32
    ensures ReadScript(c, was, Write(|s| + SPECIAL_SCRIPTS) + s + rest) == Some((s, rest))
  {
    hide Write, Read, DecompressScript;
    var n, more := |s| + SPECIAL_SCRIPTS, s + rest;
    assert Write(n) + s + rest == Write(n) + more;
    ReadWrite(n, more);
    assert more[..|s|] == s && more[|s|..] == rest;
  }

  lemma TagIsNumber(tag: nat)
    requires tag < 128
    ensures Write(tag) == [tag]
  {
  }

  /** Tags and lengths never collide: two scripts with the same written form are the same. */
  lemma WriteScriptInjective(c: Curve, s: Script, t: Script)
    requires Inverse(c) && WriteScript(c, s) == WriteScript(c, t)
    requires |s| + SPECIAL_SCRIPTS < WIDTH32 && |t| + SPECIAL_SCRIPTS < WIDTH32
    ensures s == t
  {
    ScriptRoundTrip(c, [], s, []);
    ScriptRoundTrip(c, [], t, []);
  }

  /** The lengths that the class comment states. */
  lemma ScriptSizes(c: Curve, s: Script)
    ensures IsToKeyID(s) || IsToScriptID(s) ==> |WriteScript(c, s)| == 21
    ensures IsToShortKey(s) ==> |WriteScript(c, s)| == 33
    ensures CompressScript(c, s).None? ==>
              && (|WriteScript(c, s)| <= 1 + |s| <==> |s| <= 121)
              && (|WriteScript(c, s)| <= 2 + |s| <==> |s| <= 16505)
  {
    var n := |s| + SPECIAL_SCRIPTS;
    WriteSize(n);
    SizeLimits(n, 1);
    SizeLimits(n, 2);
    Limits();
  }

  datatype TxOut = TxOut(nValue: nat, scriptPubKey: Script)

  function WriteOut(c: Curve, o: TxOut): seq<nat> {
    Write(Wrap(Compress(o.nValue), WIDTH64)) + WriteScript(c, o.scriptPubKey)
  }

  function ReadOut(c: Curve, was: Script, b: seq<nat>): Option<(TxOut, seq<nat>)> {
    match Read(b, 0)
    case None => None
    case Some((x, t)) =>
      match ReadScript(c, was, t)
      case None => None
      case Some((s, rest)) => Some((TxOut(Wrap(Decompress(Wrap(x, WIDTH64)), WIDTH64), s), rest))
  }

  /** An output is read back as it was written, if the short form of its amount fits into 64 bits. */
  lemma OutRoundTrip(c: Curve, was: Script, o: TxOut, rest: seq<nat>)
    requires Inverse(c) && o.nValue <= MAX_U64 && Compress(o.nValue) <= MAX_U64
    requires |o.scriptPubKey| + SPECIAL_SCRIPTS < WIDTH32
    ensures ReadOut(c, was, WriteOut(c, o) + rest) == Some((o, rest))
  {
    hide Write, Read, Compress, Decompress, WriteScript, ReadScript;
    var x, script := Compress(o.nValue), WriteScript(c, o.scriptPubKey);
    assert Write(x) + script + rest == Write(x) + (script + rest);
    ReadWrite(x, script + rest);
    ScriptRoundTrip(c, was, o.scriptPubKey, rest);
    DecompressCompress(o.nValue);
  }
}

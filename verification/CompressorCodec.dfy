/** The loops of src/compressor.cpp, and the script compressor as an object over a script. */
module CompressorCodec {
  import opened Arith
  import opened Compressor
  import opened Radix
  import opened VarInt
  import opened Wrappers

  /** Only the last expression can overflow. */
  method CompressAmount(amount: nat) returns (x: nat)
    requires amount <= MAX_U64
    ensures x == Wrap(Compress(amount), WIDTH64)
  {
    if amount == 0 { return 0; }
    var n: nat, e: nat := amount, 0;
    while n % 10 == 0 && e < 9
      invariant n > 0 && e <= 9 && Shorten(amount, 0) == Shorten(n, e)
      decreases 9 - e
    {
      n := n / 10;
      e := e + 1;
    }
    if e < 9 {
      var d := n % 10;
      assert 1 <= d <= 9;
      n := n / 10;
      x := Wrap(1 + (n * 9 + d - 1) * 10 + e, WIDTH64);
    } else {
      x := Wrap(1 + (n - 1) * 10 + 9, WIDTH64);
    }
  }

  lemma WrapTen(n: nat)
    ensures Wrap(Wrap(n, WIDTH64) * 10, WIDTH64) == Wrap(10 * n, WIDTH64)
  {
    WrapMore(n, 10, 0, WIDTH64);
  }

  method DecompressAmount(amount: nat) returns (n: nat)
    requires amount <= MAX_U64
    ensures n == Wrap(Decompress(amount), WIDTH64)
  {
    if amount == 0 { return 0; }
    var x := amount - 1;
    var e := x % 10;
    x := x / 10;
    if e < 9 {
      var d := x % 9 + 1;
      x := x / 9;
      n := x * 10 + d;
    } else {
      n := x + 1;
    }
    assert Unpacked(amount) == (n, e);
    n := AddZeros(n, e);
  }

  method AddZeros(m: nat, count: nat) returns (n: nat)
    requires m <= MAX_U64
    ensures n == Wrap(m * Pow(10, count), WIDTH64)
  {
    hide Wrap;
    n := m;
    var e: nat := count;
    WrapSmall(m);
    while e > 0
      invariant 0 <= e <= count && n == Wrap(m * Pow(10, count - e), WIDTH64)
    {
      MoreZeros(m, count - e);
      n := Wrap(n * 10, WIDTH64);
      e := e - 1;
    }
  }

  lemma WrapSmall(n: nat)
    requires n <= MAX_U64
    ensures Wrap(n, WIDTH64) == n && Pow(10, 0) == 1
  {
  }

  lemma MoreZeros(m: nat, k: nat)
    ensures Wrap(Wrap(m * Pow(10, k), WIDTH64) * 10, WIDTH64) == Wrap(m * Pow(10, k + 1), WIDTH64)
  {
    hide Wrap;
    WrapTen(m * Pow(10, k));
    Assoc(10, m, Pow(10, k));
    Assoc(m, 10, Pow(10, k));
  }

  lemma FirstReplaced(a: seq<nat>, b: seq<nat>, x: nat)
    requires |a| == 1
    ensures (a + b)[0 := x] == [x] + b
  {
  }

  class CScriptCompressor {
    var script: Script

    constructor (scriptIn: Script)
      ensures script == scriptIn
    {
      script := scriptIn;
    }

    method Compress(c: Curve) returns (ok: bool, out: seq<nat>)
      ensures ok <==> CompressScript(c, script).Some?
      ensures ok ==> CompressScript(c, script) == Some(out)
    {
      out := [];
      if IsToKeyID(script) {
        out := [0] + script[3..23];
        return true, out;
      }
      if IsToScriptID(script) {
        out := [1] + script[2..22];
        return true, out;
      }
      if IsToShortKey(script) || (IsToLongKey(script) && c.valid(script[1..66])) {
        var pubkey := script[1..|script| - 1];
        out := pubkey[..1] + pubkey[1..33];
        if pubkey[0] == 2 || pubkey[0] == 3 {
          assert out == script[1..34];
          return true, out;
        } else {
          SliceOfSlice(script, pubkey);
          out := out[0 := 4 + pubkey[64] % 2];
          FirstReplaced(pubkey[..1], script[2..34], 4 + script[65] % 2);
          return true, out;
        }
      }
      ok := false;
    }

    /** The script stays as it was when the bytes stand for none. */
    method Decompress(c: Curve, nSize: nat, b: seq<nat>) returns (ok: bool)
      requires |b| == SpecialSize(nSize)
      modifies this
      ensures ok <==> DecompressScript(c, nSize, b).Some?
      ensures script == if ok then DecompressScript(c, nSize, b).value else old(script)
    {
      ok := true;
      if nSize == 0 {
        script := [OP_DUP, OP_HASH160, 20] + b + [OP_EQUALVERIFY, OP_CHECKSIG];
      } else if nSize == 1 {
        script := [OP_HASH160, 20] + b + [OP_EQUAL];
      } else if nSize == 2 || nSize == 3 {
        script := [33, nSize] + b + [OP_CHECKSIG];
      } else if nSize == 4 || nSize == 5 {
        var pubkey := c.expand([nSize - 2] + b);
        if pubkey.None? { return false; }
        script := [65] + pubkey.value + [OP_CHECKSIG];
      } else {
        ok := false;
      }
    }

    method GetSerializeSize(c: Curve) returns (size: nat)
      ensures size == |WriteScript(c, script)|
    {
      var ok, out := Compress(c);
      if ok { return |out|; }
      size := GetSizeOfVarInt(|script| + SPECIAL_SCRIPTS);
      size := size + |script|;
    }

    method Serialize(c: Curve) returns (s: seq<nat>)
      requires |script| + SPECIAL_SCRIPTS < WIDTH32
      ensures s == WriteScript(c, script)
    {
      var ok, out := Compress(c);
      if ok { return out; }
      var nSize := |script| + SPECIAL_SCRIPTS;
      BufferSizes(nSize);
      s := WriteVarInt(nSize, (4 * 8 + 6) / 7);
      s := s + script;
    }

    /** Returns the rest of the stream, or nothing when it ended too early. */
    method Unserialize(c: Curve, s: seq<nat>) returns (rest: Option<seq<nat>>)
      modifies this
      ensures match ReadScript(c, old(script), s)
              case None => rest == None
              case Some((t, more)) => script == t && rest == Some(more)
    {
      var size := ReadVarInt(s, WIDTH32);
      if size.None? { return None; }
      var (nSize, t) := size.value;
      if nSize < SPECIAL_SCRIPTS {
        var k := SpecialSize(nSize);
        if |t| < k { return None; }
        var _ := Decompress(c, nSize, t[..k]);
        return Some(t[k..]);
      }
      nSize := nSize - SPECIAL_SCRIPTS;
      if |t| < nSize { return None; }
      script := t[..nSize];
      rest := Some(t[nSize..]);
    }
  }

  method WriteTxOut(c: Curve, o: TxOut) returns (s: seq<nat>)
    requires o.nValue <= MAX_U64 && |o.scriptPubKey| + SPECIAL_SCRIPTS < WIDTH32
    ensures s == WriteOut(c, o)
  {
    var nVal := CompressAmount(o.nValue);
    BufferSizes(nVal);
    s := WriteVarInt(nVal, (8 * 8 + 6) / 7);
    var cscript := new CScriptCompressor(o.scriptPubKey);
    var t := cscript.Serialize(c);
    s := s + t;
  }

  method ReadTxOut(c: Curve, was: Script, s: seq<nat>) returns (r: Option<(TxOut, seq<nat>)>)
    ensures r == ReadOut(c, was, s)
  {
    hide Decompress, ReadScript, Read;
    var nVal := ReadVarInt(s, WIDTH64);
    if nVal.None? { return None; }
    var (x, t) := nVal.value;
    WrapBound(Read(s, 0).value.0);
    var nValue := DecompressAmount(x);
    var cscript := new CScriptCompressor(was);
    var rest := cscript.Unserialize(c, t);
    r := if rest.None? then None else Some((TxOut(nValue, cscript.script), rest.value));
  }

  lemma WrapBound(n: nat)
    ensures Wrap(n, WIDTH64) <= MAX_U64
  {
  }
}

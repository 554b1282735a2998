/** Variable-length integers of src/serialize.h: seven bits a byte, most significant first, and
    one less in all but the last, so that every number has exactly one encoding. */
module VarInt {
  import opened Arith
  import opened Wrappers


  /** A number and what follows it in the stream. */
  type Parsed = Option<(nat, seq<nat>)>

  function Quotient(n: nat): (q: nat)
    ensures 128 * q <= n < 128 * q + 128
  {
    n / 128
  }

  /** The bytes before the last, all with the high bit. */
  function Flagged(n: nat): (b: seq<nat>)
    ensures |b| > 0 && forall i :: 0 <= i < |b| ==> 128 <= b[i] < 256
  {
    if n <= 127 then [n + 128] else Flagged(Quotient(n) - 1) + [n % 128 + 128]
  }

  function Write(n: nat): (b: seq<nat>)
    ensures |b| > 0 && b[|b| - 1] < 128
    ensures forall i :: 0 <= i < |b| - 1 ==> 128 <= b[i] < 256
  {
    if n <= 127 then [n] else Flagged(Quotient(n) - 1) + [n % 128]
  }

  function Size(n: nat): nat {
    if n <= 127 then 1 else Size(Quotient(n) - 1) + 1
  }

  /** Reads on from the number `acc`; none when the stream ends too early. */
  function Read(b: seq<nat>, acc: nat): Parsed {
    if b == [] then None else
      var n := acc * 128 + b[0] % 128;
      if b[0] >= 128 then Read(b[1..], n + 1) else Some((n, b[1..]))
  }

  lemma ReadOne(x: nat, t: seq<nat>, acc: nat)
    requires x < 256
    ensures Read([x] + t, acc) == if x < 128 then Some((acc * 128 + x, t)) else Read(t, acc * 128 + (x - 128) + 1)
  {
    assert ([x] + t)[1..] == t;
    assert x % 128 == if x < 128 then x else x - 128;
  }

  lemma {:induction false} ReadFlagged(n: nat, t: seq<nat>)
    ensures Read(Flagged(n) + t, 0) == Read(t, n + 1)
  {
    hide Read;
    var q, low := Quotient(n), n % 128 + 128;
    assert n == q * 128 + (low - 128);
    if n <= 127 {
      ReadOne(n + 128, t, 0);
    } else {
      ReadFlagged(q - 1, [low] + t);
      assert Flagged(n) + t == Flagged(q - 1) + ([low] + t);
      ReadOne(low, t, q);
    }
  }

  /** What was written is read back, whatever follows it. */
  lemma ReadWrite(n: nat, t: seq<nat>)
    ensures Read(Write(n) + t, 0) == Some((n, t))
  {
    hide Read;
    var q, low := Quotient(n), n % 128;
    assert n == q * 128 + low;
    if n <= 127 {
      ReadOne(n, t, 0);
    } else {
      ReadFlagged(q - 1, [low] + t);
      assert Write(n) + t == Flagged(q - 1) + ([low] + t);
      ReadOne(low, t, q);
    }
  }

  /** The bytes that have been read when the number is `acc`. */
  function Before(acc: nat): seq<nat> {
    if acc == 0 then [] else Flagged(acc - 1)
  }

  lemma OneMore(acc: nat, low: nat)
    requires low < 128
    ensures Write(acc * 128 + low) == Before(acc) + [low]
    ensures Flagged(acc * 128 + low) == Before(acc) + [low + 128]
  {
    var n := acc * 128 + low;
    if acc > 0 { assert Quotient(n) == acc; }
  }

  /** The first byte is the next one of a number that goes on, or the last one. */
  lemma FirstByte(b: seq<nat>, acc: nat)
    requires b != [] && b[0] < 256
    ensures var n := acc * 128 + b[0] % 128;
            Before(acc) + b == (if b[0] >= 128 then Flagged(n) else Write(n)) + b[1..]
  {
    hide Flagged, Write, Before;
    OneMore(acc, b[0] % 128);
    assert Before(acc) + b == (Before(acc) + [b[0]]) + b[1..];
  }

  lemma {:induction false} ReadTail(b: seq<nat>, acc: nat)
    requires Read(b, acc).Some? && forall i :: 0 <= i < |b| ==> b[i] < 256
    ensures var (n, t) := Read(b, acc).value;
            Before(acc) + b == Write(n) + t
  {
    hide Flagged, Write, Before;
    var low := b[0] % 128;
    var n := acc * 128 + low;
    FirstByte(b, acc);
    if b[0] >= 128 {
      ReadTail(b[1..], n + 1);
      BeforeNext(n);
    }
  }

  lemma BeforeNext(n: nat)
    ensures Before(n + 1) == Flagged(n)
  {
  }

  /** There is no other encoding: what was read is what writing the number gives. */
  lemma WriteRead(b: seq<nat>)
    requires Read(b, 0).Some? && forall i :: 0 <= i < |b| ==> b[i] < 256
    ensures var (n, t) := Read(b, 0).value; b == Write(n) + t
  {
    ReadTail(b, 0);
  }

  lemma {:induction false} FlaggedSize(n: nat)
    ensures |Flagged(n)| == Size(n)
  {
    if n > 127 { FlaggedSize(Quotient(n) - 1); }
  }

  lemma WriteSize(n: nat)
    ensures |Write(n)| == Size(n)
  {
    if n > 127 { FlaggedSize(Quotient(n) - 1); }
  }

  /** The least number that needs more than `k` bytes. */
  function Limit(k: nat): nat {
    if k == 0 then 0 else 128 * (Limit(k - 1) + 1)
  }

  /** The lengths that the format promises: one byte up to 127, two up to 16511, ... */
  lemma {:induction false} SizeLimits(n: nat, k: nat)
    ensures Size(n) <= k <==> n < Limit(k)
  {
    if n > 127 && k > 0 { SizeLimits(Quotient(n) - 1, k - 1); }
  }

  /** ... and the writer's buffer is long enough for 32 and for 64 bits. */
  lemma BufferSizes(n: nat)
    ensures n < 0x1_0000_0000 ==> Size(n) <= (4 * 8 + 6) / 7
    ensures n < 0x1_0000_0000_0000_0000 ==> Size(n) <= (8 * 8 + 6) / 7
  {
    SizeLimits(n, 5);
    SizeLimits(n, 10);
    Limits();
  }

  lemma Limits()
    ensures Limit(1) == 128 && Limit(2) == 16512 && Limit(3) == 2113664
    ensures Limit(5) >= 0x1_0000_0000 && Limit(10) >= 0x1_0000_0000_0000_0000
  {
    var a := Limit(2);
    assert Limit(1) == 128 * (Limit(0) + 1);
    assert Limit(3) == 128 * (a + 1);
    var b := Limit(5);
    assert b == 128 * (Limit(4) + 1) && Limit(4) == 128 * (Limit(3) + 1);
    assert Limit(6) == 128 * (b + 1) && Limit(7) == 128 * (Limit(6) + 1) && Limit(8) == 128 * (Limit(7) + 1);
    assert Limit(9) == 128 * (Limit(8) + 1) && Limit(10) == 128 * (Limit(9) + 1);
  }

  // ------------------------------------------------------------------- the loops

  /** The number that is read back for `n`: the loops stop at once for a negative one, and keep
      only its lowest seven bits. */
  function Kept(n: int): (k: nat)
    ensures k == n <==> n >= 0
    ensures n < 0 ==> k < 128
  {
    if n >= 0 then n else n % 128
  }

  method GetSizeOfVarInt(n: int) returns (size: nat)
    ensures size == |Write(Kept(n))|
  {
    WriteSize(Kept(n));
    var x := n;
    size := 1;
    while x > 127
      invariant Size(Kept(n)) == size - 1 + Size(Kept(x))
    {
      x := Quotient(x) - 1;
      size := size + 1;
    }
  }

  function Encoded(first: bool, n: nat): seq<nat> {
    if first then Write(n) else Flagged(n)
  }

  /** The last byte of what is still to be encoded. */
  function LastByte(first: bool, n: int): nat {
    n % 128 + if first then 0 else 128
  }

  lemma EncodedStep(first: bool, n: nat)
    ensures Encoded(first, n) == (if n <= 127 then [] else Encoded(false, Quotient(n) - 1)) + [LastByte(first, n)]
    ensures n > 127 ==> Size(n) == Size(Quotient(n) - 1) + 1
    ensures Size(n) > 0
  {
  }

  lemma LastKept(first: bool, n: int)
    ensures LastByte(first, n) == LastByte(first, Kept(n))
  {
  }

  function Reverse(s: seq<nat>): (r: seq<nat>) {
    if s == [] then [] else [s[|s| - 1]] + Reverse(s[..|s| - 1])
  }

  lemma ReversedMore(s: seq<nat>, x: nat, t: seq<nat>)
    requires |t| == |s| + 1 && t[..|s|] == s && t[|s|] == x
    ensures Reverse(t) == [x] + Reverse(s)
  {
  }

  /** The digits are found last first, in a buffer of `room` bytes, and written in reverse. */
  method WriteVarInt(n: int, room: nat) returns (os: seq<nat>)
    requires Size(Kept(n)) <= room
    ensures os == Write(Kept(n))
  {
    hide Write, Flagged, Size, Encoded, LastByte, Reverse;
    var tmp := new nat[room](_ => 0);
    var len: nat, x := 0, n;
    EncodedIs(Kept(n));
    NothingReversed(tmp[..len]);
    while x > 127
      invariant len + Size(Kept(x)) <= room
      invariant Write(Kept(n)) == Encoded(len == 0, Kept(x)) + Reverse(tmp[..len])
      decreases x
    {
      EncodedStep(len == 0, x);
      ghost var before := tmp[..len];
      tmp[len] := LastByte(len == 0, x);
      ReversedMore(before, tmp[len], tmp[..len + 1]);
      x := Quotient(x) - 1;
      len := len + 1;
    }
    EncodedStep(len == 0, Kept(x));
    LastKept(len == 0, x);
    ghost var before := tmp[..len];
    tmp[len] := LastByte(len == 0, x);
    ReversedMore(before, tmp[len], tmp[..len + 1]);
    os := WriteBackwards(tmp, len + 1);
  }

  lemma EncodedIs(n: nat)
    ensures Encoded(true, n) == Write(n)
  {
  }

  lemma NothingReversed(s: seq<nat>)
    requires s == []
    ensures Reverse(s) == []
  {
  }

  method WriteBackwards(tmp: array<nat>, len: nat) returns (os: seq<nat>)
    requires len <= tmp.Length
    ensures os == Reverse(tmp[..len])
  {
    os := [];
    for i := len downto 0
      invariant os + Reverse(tmp[..i]) == Reverse(tmp[..len])
    {
      ReversedMore(tmp[..i], tmp[i], tmp[..i + 1]);
      os := os + [tmp[i]];
    }
  }

  /** Reading wraps around at the width of the integer. */
  method ReadVarInt(s: seq<nat>, width: nat) returns (r: Parsed)
    requires width == 0x1_0000_0000 || width == 0x1_0000_0000_0000_0000
    ensures r.None? <==> Read(s, 0).None?
    ensures r.Some? ==> r.value == (Wrap(Read(s, 0).value.0, width), Read(s, 0).value.1)
  {
    hide Wrap;
    var n: nat, p: nat := Wrap(0, width), 0;
    ghost var exact: nat := 0;
    while p < |s|
      invariant p <= |s| && n == Wrap(exact, width) && Read(s, 0) == Read(s[p..], exact)
    {
      var ch := s[p];
      assert s[p..][1..] == s[p + 1..];
      WrapStep(exact, ch % 128, width);
      n := Wrap(n * 128 + ch % 128, width);
      exact := exact * 128 + ch % 128;
      p := p + 1;
      if ch < 128 { return Some((n, s[p..])); }
      n := Wrap(n + 1, width);
      exact := exact + 1;
    }
    r := None;
  }

  /** What an unsigned integer of that width keeps of a number. */
  function Wrap(n: nat, width: nat): nat
    requires width == 0x1_0000_0000 || width == 0x1_0000_0000_0000_0000
  {
    n % width
  }

  lemma WrapStep(n: nat, low: nat, width: nat)
    requires width == 0x1_0000_0000 || width == 0x1_0000_0000_0000_0000
    ensures Wrap(Wrap(n, width) * 128 + low, width) == Wrap(n * 128 + low, width)
    ensures Wrap(Wrap(n * 128 + low, width) + 1, width) == Wrap(n * 128 + low + 1, width)
  {
    WrapMore(n, 128, low, width);
    WrapMore(n * 128 + low, 1, 1, width);
  }

  /** Wrapping before is as good as wrapping only after. */
  lemma WrapMore(n: nat, f: nat, add: nat, width: nat)
    requires width == 0x1_0000_0000 || width == 0x1_0000_0000_0000_0000
    ensures Wrap(Wrap(n, width) * f + add, width) == Wrap(n * f + add, width)
  {
    var q, m := n / width, n % width;
    WrapParts(n, width);
    Add(q * width, m, f);
    Swap(q, width, f);
    AddMultiple(m * f + add, q * f, width);
  }

  lemma WrapParts(n: nat, width: nat)
    requires width > 0
    ensures n / width >= 0 && n == n / width * width + n % width
  {
  }

  lemma Swap(a: nat, b: nat, c: nat)
    ensures a * b * c == a * c * b
  {
  }
}

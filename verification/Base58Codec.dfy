/** The loops of src/base58.cpp. The carries run through a buffer in place, and it is always
    long enough. */
module Base58Codec {
  import opened Radix
  import opened Base58
  import opened Wrappers

  lemma {:induction false} ZerosValue(b: nat, d: Digits)
    requires forall i :: 0 <= i < |d| ==> d[i] == 0
    ensures Value(b, d) == 0
  {
    if d != [] { ZerosValue(b, d[..|d| - 1]); }
  }

  method NewBuffer(b: nat, n: nat) returns (buf: array<nat>)
    requires b > 0
    ensures fresh(buf) && buf.Length == n && InBase(b, buf[..]) && Value(b, buf[..]) == 0
  {
    buf := new nat[n](_ => 0);
    ZerosValue(b, buf[..]);
  }

  /** The digits up to `p` are worth less than what the buffer can hold. */
  lemma Room(from: nat, to: nat, d: Digits, p: nat, size: nat)
    requires from > 1 && to > 1 && InBase(from, d) && p < |d| && Pow(from, |d|) <= Pow(to, size)
    ensures Value(from, d[..p + 1]) == Value(from, d[..p]) * from + d[p]
    ensures Value(from, d[..p + 1]) < Pow(to, size)
  {
    assert d[..p + 1][..p] == d[..p];
    ValueBound(from, d[..p + 1]);
    PowExponent(from, p + 1, |d|);
  }

  /** What is left of the buffer without leading zeros. */
  method Strip(b: nat, buf: array<nat>) returns (d: Digits)
    requires b > 1 && InBase(b, buf[..])
    ensures d == ToDigits(b, Value(b, buf[..]))
  {
    var it := 0;
    while it < buf.Length && buf[it] == 0
      invariant it <= buf.Length && forall i :: 0 <= i < it ==> buf[i] == 0
    {
      it := it + 1;
    }
    LeadingIs(0, buf[..], it);
    StrippedDigits(b, buf[..]);
    d := buf[it..];
  }

  method EncodeBase58(v: Digits) returns (str: string)
    requires InBase(256, v)
    ensures str == Encode(v)
  {
    hide Pow, ALPHABET, ToDigits, Value;
    var zeroes := 0;
    while zeroes < |v| && v[zeroes] == 0
      invariant zeroes <= |v| && forall i :: 0 <= i < zeroes ==> v[i] == 0
    {
      zeroes := zeroes + 1;
    }
    ghost var d := v[zeroes..];
    var b58 := NewBuffer(58, (|v| - zeroes) * 138 / 100 + 1);
    EncodeLength(|d|);
    EmptyWorth(256, d);
    for p := zeroes to |v|
      invariant InBase(58, b58[..]) && Value(58, b58[..]) == Value(256, d[..p - zeroes])
    {
      Room(256, 58, d, p - zeroes, b58.Length);
      var carry := MultiplyAdd(b58, 58, 256, v[p]);
      assert carry == 0;
      assert d[..p + 1 - zeroes] == d[..p - zeroes + 1];
    }
    assert d[..|d|] == d;
    var digits := Strip(58, b58);
    LeadingIs(0, v, zeroes);
    LeadingSplit(0, v);
    ValueZeros(256, zeroes, d);
    str := Translate(zeroes, digits);
  }

  lemma EmptyWorth(b: nat, d: Digits)
    ensures Value(b, d[..0]) == 0
  {
  }

  /** The digits as characters, after `zeroes` times the character for zero. */
  method Translate(zeroes: nat, digits: Digits) returns (str: string)
    requires InBase(58, digits)
    ensures str == Chars(Repeat(0, zeroes) + digits)
  {
    hide ALPHABET;
    AlphabetFacts();
    str := Repeat('1', zeroes);
    for i := 0 to |digits|
      invariant |str| == zeroes + i
      invariant forall k :: 0 <= k < zeroes ==> str[k] == '1'
      invariant forall k :: 0 <= k < i ==> str[zeroes + k] == ALPHABET[digits[k]]
    {
      str := str + [ALPHABET[digits[i]]];
    }
    ghost var d := Repeat(0, zeroes) + digits;
    forall k | 0 <= k < |d| ensures str[k] == ALPHABET[d[k]] {
      if k >= zeroes { assert str[zeroes + (k - zeroes)] == ALPHABET[digits[k - zeroes]]; }
    }
  }

  method StrChr(s: string, c: char) returns (k: int)
    ensures k == Find(s, c)
  {
    k := 0;
    while k < |s| && s[k] != c
      invariant 0 <= k <= |s| && c !in s[..k]
    {
      k := k + 1;
    }
    FindIs(s, c, k);
    if k == |s| { k := -1; }
  }

  lemma {:induction false} FindIs(s: string, c: char, k: nat)
    requires k <= |s| && c !in s[..k] && (k < |s| ==> s[k] == c)
    ensures Find(s, c) == if k == |s| then -1 else k
  {
    if k > 0 {
      assert s[0] in s[..k];
      assert forall x :: x in s[1..][..k - 1] ==> x in s[..k];
      FindIs(s[1..], c, k - 1);
    }
  }

  // ------------------------------------------------------------------- decoding

  predicate Spaces(s: string, a: nat, e: nat)
    requires a <= e <= |s|
  {
    forall i :: a <= i < e ==> IsSpace(s[i])
  }

  predicate NoSpaces(s: string, a: nat, e: nat)
    requires a <= e <= |s|
  {
    forall i :: a <= i < e ==> !IsSpace(s[i])
  }

  lemma TrimIs(s: string, a: nat, e: nat)
    requires a <= e <= |s| && Spaces(s, 0, a) && NoSpaces(s, a, e) && Spaces(s, e, |s|)
    ensures Trim(s) == s[a..e]
  {
    if a < e {
      assert !IsSpace(s[a]) && !IsSpace(s[e - 1]);
    } else {
      assert forall i :: 0 <= i < |s| ==> IsSpace(s[i]);
      assert s[a..e] == "";
    }
  }

  lemma TrimHas(s: string, a: nat, k: nat)
    requires a <= k < |s| && Spaces(s, 0, a) && !IsSpace(s[a])
    requires exists j :: k <= j < |s| && !IsSpace(s[j])
    ensures s[k] in Trim(s)
  {
    assert First(s) == a && k < End(s);
    assert Trim(s)[k - a] == s[k];
  }

  lemma NotAlphabet(s: string, c: char)
    requires c in s && c !in ALPHABET
    ensures !InAlphabet(s)
  {
    var i :| 0 <= i < |s| && s[i] == c;
  }

  lemma SpaceNotIn(c: char)
    requires IsSpace(c)
    ensures c !in ALPHABET
  {
    hide ALPHABET;
    AlphabetFacts();
  }

  method SkipSpaces(s: string, from: nat) returns (p: nat)
    requires from <= |s|
    ensures from <= p <= |s| && Spaces(s, from, p) && (p < |s| ==> !IsSpace(s[p]))
  {
    p := from;
    while p < |s| && IsSpace(s[p])
      invariant from <= p <= |s| && Spaces(s, from, p)
    {
      p := p + 1;
    }
  }

  method SkipOnes(psz: string, from: nat) returns (p: nat)
    requires from <= |psz|
    ensures from <= p <= |psz| && (forall i :: from <= i < p ==> psz[i] == '1') && (p < |psz| ==> psz[p] != '1')
  {
    p := from;
    while p < |psz| && psz[p] == '1'
      invariant from <= p <= |psz| && forall i :: from <= i < p ==> psz[i] == '1'
    {
      p := p + 1;
    }
  }

  /** `d` are the digits of the characters from `ones` up to `p`, and the buffer holds their value. */
  ghost predicate Read(psz: string, ones: nat, p: nat, d: Digits, buffer: Digits) {
    && ones <= p <= |psz| && |d| == p - ones && InBase(58, d)
    && (forall i :: ones <= i < p ==> psz[i] in ALPHABET && d[i - ones] == Find(ALPHABET, psz[i]))
    && InBase(256, buffer) && Value(256, buffer) == Value(58, d)
  }

  lemma ReadNothing(psz: string, ones: nat, buffer: Digits)
    requires ones <= |psz| && InBase(256, buffer) && Value(256, buffer) == 0
    ensures Read(psz, ones, ones, [], buffer)
  {
    ZerosValue(58, []);
  }

  lemma ReadNext(psz: string, ones: nat, p: nat, d: Digits, was: Digits, ch: nat, now: Digits)
    requires Read(psz, ones, p, d, was) && p < |psz| && psz[p] in ALPHABET && ch == Find(ALPHABET, psz[p]) < 58
    requires InBase(256, now) && Value(256, now) == Value(58, d + [ch])
    ensures Read(psz, ones, p + 1, d + [ch], now)
  {
    hide ALPHABET, Find, Value;
  }

  /** The loop over the digits, up to a space or the end; None for a character that is no digit. */
  method TakeDigits(psz: string, start: nat, ones: nat, b256: array<nat>) returns (stop: Option<nat>, ghost d: Digits)
    requires start <= ones <= |psz| && Spaces(psz, 0, start) && (start < |psz| ==> !IsSpace(psz[start]))
    requires NoSpaces(psz, start, ones) && Read(psz, ones, ones, [], b256[..])
    requires Pow(58, |psz| - ones) <= Pow(256, b256.Length)
    modifies b256
    ensures stop.None? ==> !InAlphabet(Trim(psz))
    ensures stop.Some? ==>
              && ones <= stop.value <= |psz| && NoSpaces(psz, start, stop.value)
              && (stop.value < |psz| ==> IsSpace(psz[stop.value]))
              && Read(psz, ones, stop.value, d, b256[..])
  {
    hide ALPHABET, Trim, InAlphabet, Pow, Value, Find, Read, IsSpace;
    AlphabetFacts();
    var p := ones;
    d := [];
    while p < |psz| && !IsSpace(psz[p])
      invariant ones <= p <= |psz| && NoSpaces(psz, start, p) && Read(psz, ones, p, d, b256[..])
    {
      var ch := StrChr(ALPHABET, psz[p]);
      if ch < 0 {
        TrimHas(psz, start, p);
        NotAlphabet(Trim(psz), psz[p]);
        return None, d;
      }
      ghost var was := b256[..];
      ReadParts(psz, ones, p, d, was);
      Append(d, ch, |psz| - ones, b256.Length);
      var carry := MultiplyAdd(b256, 256, 58, ch);
      assert carry == 0;
      ReadNext(psz, ones, p, d, was, ch, b256[..]);
      d := d + [ch];
      p := p + 1;
    }
    stop := Some(p);
  }

  lemma ReadParts(psz: string, ones: nat, p: nat, d: Digits, buffer: Digits)
    requires Read(psz, ones, p, d, buffer)
    ensures ones <= p <= |psz| && |d| == p - ones && InBase(58, d)
    ensures forall i :: ones <= i < p ==> psz[i] in ALPHABET && d[i - ones] == Find(ALPHABET, psz[i])
    ensures InBase(256, buffer) && Value(256, buffer) == Value(58, d)
  {
  }

  lemma NotAtEnd(psz: string, start: nat, stop: nat, rest: nat)
    requires start <= stop <= rest < |psz| && Spaces(psz, 0, start) && NoSpaces(psz, start, stop)
    requires IsSpace(psz[stop]) && !IsSpace(psz[rest]) && !IsSpace(psz[start])
    ensures !InAlphabet(Trim(psz))
  {
    TrimHas(psz, start, stop);
    SpaceNotIn(psz[stop]);
    NotAlphabet(Trim(psz), psz[stop]);
  }

  /** `psz` is a C string, that is, without the character that ends it. */
  method DecodeBase58(psz: string) returns (v: Option<Digits>)
    requires CStr(psz) == psz
    ensures v == Decode(psz)
  {
    hide ALPHABET, Trim, InAlphabet, CStr, Pow, Value, ToDigits, Find, Leading, Read, IsSpace, Convert, Indices;
    var start := SkipSpaces(psz, 0);
    var ones := SkipOnes(psz, start);
    OnesNoSpaces(psz, start, ones);
    var b256 := NewBuffer(256, (|psz| - ones) * 733 / 1000 + 1);
    DecodeLength(|psz| - ones);
    ReadNothing(psz, ones, b256[..]);
    var stop, d := TakeDigits(psz, start, ones, b256);
    if stop.None? {
      return None;
    }
    var p := SkipSpaces(psz, stop.value);
    if p != |psz| {
      NotAtEnd(psz, start, stop.value, p);
      return None;
    }
    ReadParts(psz, ones, stop.value, d, b256[..]);
    TrimIs(psz, start, stop.value);
    var digits := Strip(256, b256);
    IndicesAre(psz[start..stop.value], ones - start, d);
    v := Some(Repeat(0, ones - start) + digits);
  }

  lemma OnesNoSpaces(psz: string, start: nat, ones: nat)
    requires start <= ones <= |psz| && forall i :: start <= i < ones ==> psz[i] == '1'
    ensures NoSpaces(psz, start, ones)
  {
  }

  lemma Append(d: Digits, ch: nat, n: nat, size: nat)
    requires InBase(58, d) && ch < 58 && |d| < n && Pow(58, n) <= Pow(256, size)
    ensures Value(58, d + [ch]) == Value(58, d) * 58 + ch < Pow(256, size)
  {
    assert (d + [ch])[..|d|] == d;
    ValueBound(58, d + [ch]);
    PowExponent(58, |d| + 1, n);
  }

  /** The leading ones of the string are the leading zeros of its digits. */
  lemma IndicesAre(t: string, z: nat, d: Digits)
    requires z + |d| == |t| && InBase(58, d) && (forall i :: 0 <= i < z ==> t[i] == '1')
    requires forall i :: z <= i < |t| ==> t[i] in ALPHABET && d[i - z] == Find(ALPHABET, t[i])
    requires z < |t| ==> t[z] != '1'
    ensures InAlphabet(t) && Convert(58, 256, Indices(t)) == Repeat(0, z) + ToDigits(256, Value(58, d))
  {
    hide ALPHABET, Find, Value, ToDigits, Leading;
    AlphabetFacts();
    FindAt(0);
    assert ALPHABET[0] in ALPHABET;
    var r := Indices(t);
    assert r == Repeat(0, z) + d;
    LeadingIs(0, r, z);
    ValueZeros(58, z, d);
  }

  // ------------------------------------------------------------------- checksum

  method EncodeBase58Check(hash: Digits -> Digits, v: Digits) returns (str: string)
    requires InBase(256, v) && IsHash(hash, v)
    ensures str == EncodeCheck(hash, v)
  {
    str := EncodeBase58(v + hash(v)[..4]);
  }

  method DecodeBase58Check(hash: Digits -> Digits, psz: string) returns (v: Option<Digits>)
    requires CStr(psz) == psz && forall v :: IsHash(hash, v)
    ensures v == DecodeCheck(hash, psz)
  {
    hide Decode;
    v := DecodeBase58(psz);
    if v.None? || |v.value| < 4 { return None; }
    var n := |v.value| - 4;
    assert IsHash(hash, v.value[..n]);
    if hash(v.value[..n])[..4] != v.value[n..] { return None; }
    v := Some(v.value[..n]);
  }
}

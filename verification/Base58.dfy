/** src/base58.cpp on values: bytes as strings of 58 characters, and back. */
module Base58 {
  import opened Radix
  import opened Wrappers

  /** The digits and letters except "0", "I", "O" and "l". */
  const ALPHABET: string := "123456789" + "ABCDEFGH" + "JKLMN" + "PQRSTUVWXYZ" + "abcdefghijk" + "mnopqrstuvwxyz"


  /** isspace in the C locale. */
  predicate IsSpace(c: char) {
    c == ' ' || 9 <= c as int <= 13
  }

  lemma Spaces(c: char)
    ensures IsSpace(c) <==> c in [' ', '\t', '\n', 11 as char, 12 as char, '\r']
  {
  }

  /** `n` characters in a row, from `a` on. */
  function Run(a: char, n: nat): (s: string)
    requires a as int + n < 256
    ensures |s| == n && forall i :: 0 <= i < n ==> s[i] == (a as int + i) as char
  {
    seq(n, i requires 0 <= i < n => (a as int + i) as char)
  }

  lemma Runs()
    ensures ALPHABET == Run('1', 9) + Run('A', 8) + Run('J', 5) + Run('P', 11) + Run('a', 11) + Run('m', 14)
  {
    assert "123456789" == Run('1', 9);
    assert "ABCDEFGH" == Run('A', 8);
    assert "JKLMN" == Run('J', 5);
    assert "PQRSTUVWXYZ" == Run('P', 11);
    assert "abcdefghijk" == Run('a', 11);
    assert "mnopqrstuvwxyz" == Run('m', 14);
  }

  lemma AlphabetFacts()
    ensures |ALPHABET| == 58 && ALPHABET[0] == '1'
    ensures forall i, j :: 0 <= i < j < 58 ==> ALPHABET[i] < ALPHABET[j]
    ensures forall i :: 0 <= i < 58 ==> !IsSpace(ALPHABET[i]) && ALPHABET[i] != '\0'
  {
    hide ALPHABET;
    Runs();
  }

  // ------------------------------------------------------------------- strings

  /** The position of a character, as strchr finds it; -1 for none. */
  function Find(s: string, c: char): (k: int)
    ensures -1 <= k < |s| && (k >= 0 ==> s[k] == c)
    ensures k == -1 <==> c !in s
  {
    if s == [] then -1 else if s[0] == c then 0 else
      var k := Find(s[1..], c);
      if k < 0 then -1 else k + 1
  }

  lemma FindAt(k: nat)
    requires k < 58
    ensures |ALPHABET| == 58 && Find(ALPHABET, ALPHABET[k]) == k
  {
    hide ALPHABET, Find;
    AlphabetFacts();
    assert ALPHABET[k] in ALPHABET;
  }

  predicate InAlphabet(s: string) {
    forall i :: 0 <= i < |s| ==> s[i] in ALPHABET
  }

  function Indices(s: string): (d: Digits)
    requires InAlphabet(s)
    ensures |d| == |s| && InBase(58, d)
    ensures forall i :: 0 <= i < |s| ==> d[i] == Find(ALPHABET, s[i])
  {
    AlphabetFacts();
    seq(|s|, i requires 0 <= i < |s| => Find(ALPHABET, s[i]))
  }

  function Chars(d: Digits): (s: string)
    requires InBase(58, d)
    ensures |s| == |d| && forall i :: 0 <= i < |d| ==> |ALPHABET| == 58 && s[i] == ALPHABET[d[i]]
  {
    AlphabetFacts();
    seq(|d|, i requires 0 <= i < |d| => ALPHABET[d[i]])
  }

  lemma CharsBack(d: Digits)
    requires InBase(58, d)
    ensures InAlphabet(Chars(d)) && Indices(Chars(d)) == d
  {
    hide Find, ALPHABET;
    forall i | 0 <= i < |d| ensures Find(ALPHABET, Chars(d)[i]) == d[i] && Chars(d)[i] in ALPHABET {
      FindAt(d[i]);
    }
  }

  lemma IndicesBack(s: string)
    requires InAlphabet(s)
    ensures Chars(Indices(s)) == s
  {
    hide Find, ALPHABET;
    var d := Indices(s);
    forall i | 0 <= i < |s| ensures Chars(d)[i] == s[i] {
      assert s[i] in ALPHABET;
    }
  }

  /** What a C function sees of a string. */
  function CStr(s: string): (r: string)
    ensures r <= s && forall i :: 0 <= i < |r| ==> r[i] != '\0'
    ensures |r| < |s| ==> s[|r|] == '\0'
  {
    if s == [] || s[0] == '\0' then [] else [s[0]] + CStr(s[1..])
  }

  function First(s: string): (n: nat)
    ensures n <= |s| && (n < |s| ==> !IsSpace(s[n]))
    ensures forall i :: 0 <= i < n ==> IsSpace(s[i])
  {
    if s == [] || !IsSpace(s[0]) then 0 else First(s[1..]) + 1
  }

  function End(s: string): (n: nat)
    ensures n <= |s| && (n > 0 ==> !IsSpace(s[n - 1]))
    ensures forall i :: n <= i < |s| ==> IsSpace(s[i])
  {
    if s == [] then 0 else if !IsSpace(s[|s| - 1]) then |s| else End(s[..|s| - 1])
  }

  /** A string without surrounding spaces. */
  function Trim(s: string): string {
    if First(s) < End(s) then s[First(s)..End(s)] else ""
  }

  // --------------------------------------------------------------- the encoding

  function Encode(v: Digits): string
    requires InBase(256, v)
  {
    Chars(Convert(256, 58, v))
  }

  function Decode(s: string): (v: Option<Digits>)
    ensures v.Some? ==> InBase(256, v.value)
  {
    var t := Trim(CStr(s));
    if InAlphabet(t) then Some(Convert(58, 256, Indices(t))) else None
  }

  lemma TrimAlphabet(s: string)
    requires InAlphabet(s)
    ensures CStr(s) == s && Trim(s) == s
  {
    hide ALPHABET;
    AlphabetFacts();
    forall i | 0 <= i < |s| ensures !IsSpace(s[i]) && s[i] != '\0' {
      assert s[i] in ALPHABET;
    }
  }

  /** Decoding what was encoded gives the same bytes. */
  lemma DecodeEncode(v: Digits)
    requires InBase(256, v)
    ensures Decode(Encode(v)) == Some(v)
  {
    hide ALPHABET, Find, Convert, CStr, Trim;
    var d := Convert(256, 58, v);
    CharsBack(d);
    TrimAlphabet(Chars(d));
    ConvertBack(256, 58, v);
  }

  /** Encoding what was decoded gives the same string without surrounding spaces. */
  lemma EncodeDecode(s: string)
    requires Decode(s).Some?
    ensures Encode(Decode(s).value) == Trim(CStr(s))
  {
    hide ALPHABET, Find, Convert, CStr, Trim;
    var t := Trim(CStr(s));
    ConvertBack(58, 256, Indices(t));
    IndicesBack(t);
  }

  /** A string is decoded if and only if what is between surrounding spaces is all of the
      alphabet, and two strings give the same bytes if and only if that is the same. */
  lemma DecodeInjective(s: string, t: string)
    ensures Decode(s).Some? <==> InAlphabet(Trim(CStr(s)))
    ensures Decode(s).Some? ==> (Decode(s) == Decode(t) <==> Trim(CStr(s)) == Trim(CStr(t)))
  {
    hide Encode, Convert, Trim, CStr, Indices;
    if Decode(s).Some? && Decode(s) == Decode(t) {
      EncodeDecode(s);
      EncodeDecode(t);
    }
  }

  // ------------------------------------------------------------------- checksum

  predicate IsHash(hash: Digits -> Digits, v: Digits) {
    |hash(v)| >= 4 && InBase(256, hash(v))
  }

  function EncodeCheck(hash: Digits -> Digits, v: Digits): string
    requires InBase(256, v) && IsHash(hash, v)
  {
    Encode(v + hash(v)[..4])
  }

  function DecodeCheck(hash: Digits -> Digits, s: string): Option<Digits>
    requires forall v :: IsHash(hash, v)
  {
    match Decode(s)
    case None => None
    case Some(v) =>
      if |v| < 4 then None else
        var n := |v| - 4;
        assert IsHash(hash, v[..n]);
        if hash(v[..n])[..4] == v[n..] then Some(v[..n]) else None
  }

  lemma CheckRoundTrip(hash: Digits -> Digits, v: Digits)
    requires (forall v :: IsHash(hash, v)) && InBase(256, v)
    ensures DecodeCheck(hash, EncodeCheck(hash, v)) == Some(v)
  {
    hide Encode, Decode;
    assert IsHash(hash, v);
    var w := v + hash(v)[..4];
    DecodeEncode(w);
    assert w[..|w| - 4] == v && w[|w| - 4..] == hash(v)[..4];
  }

  /** A string that passes the check is, but for surrounding spaces, the one encoding of its
      bytes with their checksum. */
  lemma CheckBack(hash: Digits -> Digits, s: string)
    requires (forall v :: IsHash(hash, v)) && DecodeCheck(hash, s).Some?
    ensures InBase(256, DecodeCheck(hash, s).value)
    ensures IsHash(hash, DecodeCheck(hash, s).value)
    ensures EncodeCheck(hash, DecodeCheck(hash, s).value) == Trim(CStr(s))
  {
    hide Encode, Decode;
    EncodeDecode(s);
    var w := Decode(s).value;
    assert w == w[..|w| - 4] + w[|w| - 4..];
  }

  // -------------------------------------------------------------- buffer lengths

  lemma EncodeLength(n: nat)
    ensures Pow(256, n) <= Pow(58, n * 138 / 100 + 1)
  {
    hide Pow;
    LogBound256();
    DigitsEnough(256, 58, 11, 8, n, n * 138 / 100 + 1);
  }

  lemma DecodeLength(n: nat)
    ensures Pow(58, n) <= Pow(256, n * 733 / 1000 + 1)
  {
    hide Pow;
    LogBound58();
    DigitsEnough(58, 256, 52, 71, n, n * 733 / 1000 + 1);
  }

  lemma PowTwice(b: nat, n: nat, p: nat)
    requires p == Pow(b, n)
    ensures Pow(b, 2 * n) == p * p
  {
    PowAdd(b, n, n);
  }

  lemma PowNext(b: nat, n: nat, p: nat)
    requires p == Pow(b, n)
    ensures Pow(b, n + 1) == b * p
  {
  }

  lemma LogBound256()
    ensures Pow(256, 8) <= Pow(58, 11)
  {
    Small(256);
    Small(58);
    PowTwice(256, 4, 0x1_0000_0000);
    PowTwice(58, 4, 11316496);
    PowAdd(58, 8, 3);
  }

  lemma Small(b: nat)
    ensures Pow(b, 1) == b && Pow(b, 2) == b * b && Pow(b, 3) == b * b * b && Pow(b, 4) == b * b * b * b
  {
    PowNext(b, 0, 1);
    PowNext(b, 1, b);
    PowNext(b, 2, b * b);
    PowNext(b, 3, b * b * b);
  }

  lemma LogBound58()
    ensures Pow(58, 71) <= Pow(256, 52)
  {
    Small(58);
    PowTwice(58, 4, 11316496);
    PowTwice(58, 8, 11316496 * 11316496);
    PowTwice(58, 16, Pow(58, 16));
    PowTwice(58, 32, Pow(58, 32));
    PowAdd(58, 64, 4);
    PowAdd(58, 68, 3);
    Small(256);
    PowTwice(256, 4, 0x1_0000_0000);
    PowTwice(256, 8, 0x1_0000_0000_0000_0000);
    PowTwice(256, 16, Pow(256, 16));
    PowAdd(256, 32, 16);
    PowAdd(256, 48, 4);
  }
}

/** Numbers as digits in a base, most significant digit first. */
module Radix {
  import opened Arith

  type Digits = seq<nat>

  predicate InBase(b: nat, d: Digits) {
    forall i :: 0 <= i < |d| ==> d[i] < b
  }

  function Pow(b: nat, n: nat): nat {
    if n == 0 then 1 else b * Pow(b, n - 1)
  }

  function Value(b: nat, d: Digits): nat {
    if d == [] then 0 else Value(b, d[..|d| - 1]) * b + d[|d| - 1]
  }

  /** The digits of a number, none of them a leading zero. */
  function ToDigits(b: nat, x: nat): (d: Digits)
    requires b > 1
    ensures InBase(b, d) && (d != [] ==> d[0] != 0)
    decreases x
  {
    if x == 0 then [] else
      DivSmaller(x, b);
      var q := ToDigits(b, x / b);
      FirstDigit(b, x, q);
      q + [x % b]
  }

  lemma DivSmaller(x: nat, b: nat)
    requires b > 1 && x > 0
    ensures 0 <= x / b < x && x == (x / b) * b + x % b && 0 <= x % b < b
    ensures x / b == 0 ==> x % b != 0
  {
    var q := x / b;
    if q >= x { Scale(x, q, b); Scale(2, b, x); }
  }

  lemma FirstDigit(b: nat, x: nat, q: Digits)
    requires b > 1 && x > 0 && (q == [] ==> x / b == 0)
    ensures q == [] ==> x % b != 0
  {
    DivSmaller(x, b);
  }

  // ------------------------------------------------------------------- powers

  lemma {:induction false} PowPositive(b: nat, n: nat)
    requires b > 0
    ensures Pow(b, n) > 0
  {
    if n > 0 {
      PowPositive(b, n - 1);
      Scale(1, b, Pow(b, n - 1));
    }
  }

  lemma {:induction false} PowAdd(b: nat, m: nat, n: nat)
    ensures Pow(b, m + n) == Pow(b, m) * Pow(b, n)
  {
    if m > 0 {
      PowAdd(b, m - 1, n);
      Assoc(b, Pow(b, m - 1), Pow(b, n));
    }
  }

  lemma {:induction false} PowMul(b: nat, m: nat, n: nat)
    ensures Pow(Pow(b, m), n) == Pow(b, m * n)
  {
    if n > 0 {
      PowMul(b, m, n - 1);
      PowAdd(b, m, m * (n - 1));
      assert m + m * (n - 1) == m * n;
    } else {
      assert m * n == 0;
    }
  }

  lemma {:induction false} PowMono(a: nat, b: nat, n: nat)
    requires a <= b
    ensures Pow(a, n) <= Pow(b, n)
  {
    if n > 0 {
      PowMono(a, b, n - 1);
      Scale(a, b, Pow(a, n - 1));
      ScaleRight(b, Pow(a, n - 1), Pow(b, n - 1));
    }
  }

  lemma {:induction false} PowStrict(a: nat, b: nat, n: nat)
    requires a < b && n > 0
    ensures Pow(a, n) < Pow(b, n)
  {
    PowMono(a, b, n - 1);
    PowPositive(b, n - 1);
    Scale(a + 1, b, Pow(b, n - 1));
    Add(a, 1, Pow(b, n - 1));
    ScaleRight(a, Pow(a, n - 1), Pow(b, n - 1));
  }

  lemma PowExponent(b: nat, m: nat, n: nat)
    requires b > 0 && m <= n
    ensures Pow(b, m) <= Pow(b, n)
  {
    PowAdd(b, m, n - m);
    PowPositive(b, n - m);
    ScaleRight(Pow(b, m), 1, Pow(b, n - m));
  }

  /** A rational bound on the logarithm of `a` to the base `b`, p / q, says how many digits in
      base `b` are enough for `n` digits in base `a`. */
  lemma DigitsEnough(a: nat, b: nat, p: nat, q: nat, n: nat, s: nat)
    requires b > 0 && q > 0 && Pow(a, q) <= Pow(b, p) && p * n <= s * q
    ensures Pow(a, n) <= Pow(b, s)
  {
    hide Pow;
    PowSwap(a, n, q);
    PowMono(Pow(a, q), Pow(b, p), n);
    PowMul(b, p, n);
    PowExponent(b, p * n, s * q);
    PowMul(b, s, q);
    Root(Pow(a, n), Pow(b, s), q);
  }

  lemma PowSwap(a: nat, n: nat, q: nat)
    ensures Pow(Pow(a, n), q) == Pow(Pow(a, q), n)
  {
    PowMul(a, n, q);
    PowMul(a, q, n);
    assert n * q == q * n;
  }

  lemma Root(x: nat, y: nat, q: nat)
    requires q > 0 && Pow(x, q) <= Pow(y, q)
    ensures x <= y
  {
    if x > y { PowStrict(y, x, q); }
  }

  // ------------------------------------------------------------ values and digits

  lemma {:induction false} ValueBound(b: nat, d: Digits)
    requires b > 1 && InBase(b, d)
    ensures Value(b, d) < Pow(b, |d|)
  {
    if d != [] {
      var n := |d| - 1;
      ValueBound(b, d[..n]);
      Scale(Value(b, d[..n]) + 1, Pow(b, n), b);
      Add(Value(b, d[..n]), 1, b);
    }
  }

  lemma {:induction false} ValueFront(b: nat, d: Digits)
    requires d != []
    ensures Value(b, d) == d[0] * Pow(b, |d| - 1) + Value(b, d[1..])
  {
    var n := |d| - 1;
    if n > 0 {
      ValueFront(b, d[..n]);
      assert d[..n][1..] == d[1..][..n - 1];
      Add(d[0] * Pow(b, n - 1), Value(b, d[1..n]), b);
      assert d[..n][1..] == d[1..n];
      Assoc(d[0], Pow(b, n - 1), b);
      assert d[1..][n - 1] == d[n];
    } else {
      assert d[..0] == [];
    }
  }

  /** Leading zeros have no value. */
  lemma {:induction false} ValueZeros(b: nat, z: nat, d: Digits)
    ensures Value(b, Repeat(0, z) + d) == Value(b, d)
  {
    if z > 0 {
      var w := Repeat(0, z) + d;
      assert w[1..] == Repeat(0, z - 1) + d;
      ValueFront(b, w);
      ValueZeros(b, z - 1, d);
    } else {
      assert Repeat(0, 0) + d == d;
    }
  }

  function Repeat<T>(x: T, n: nat): (s: seq<T>)
    ensures |s| == n && forall i :: 0 <= i < n ==> s[i] == x
  {
    seq(n, _ => x)
  }

  lemma {:induction false} ValueOfDigits(b: nat, x: nat)
    requires b > 1
    ensures Value(b, ToDigits(b, x)) == x
    decreases x
  {
    if x > 0 {
      DivSmaller(x, b);
      ValueOfDigits(b, x / b);
      var q := ToDigits(b, x / b);
      assert (q + [x % b])[..|q|] == q;
    }
  }

  lemma {:induction false} ValuePositive(b: nat, d: Digits)
    requires b > 1 && d != [] && d[0] != 0
    ensures Value(b, d) > 0
  {
    if |d| > 1 {
      ValuePositive(b, d[..|d| - 1]);
      Scale(1, Value(b, d[..|d| - 1]), b);
    }
  }

  lemma DigitsNext(b: nat, q: nat, r: nat)
    requires b > 1 && r < b && q + r > 0
    ensures q * b + r > 0 && ToDigits(b, q * b + r) == ToDigits(b, q) + [r]
  {
    Scale(0, q, b);
    if q > 0 { Scale(1, q, b); }
    DivUnique(q * b + r, b, q, r);
  }

  /** Digits without a leading zero are the digits of their value. */
  lemma {:induction false} DigitsOfValue(b: nat, d: Digits)
    requires b > 1 && InBase(b, d) && (d != [] ==> d[0] != 0)
    ensures ToDigits(b, Value(b, d)) == d
  {
    if d == [] {
      assert ToDigits(b, 0) == [];
    } else {
      var n := |d| - 1;
      hide ToDigits;
      DigitsOfValue(b, d[..n]);
      if n > 0 { ValuePositive(b, d[..n]); }
      DigitsNext(b, Value(b, d[..n]), d[n]);
    }
  }

  /** How many leading entries are `x`. */
  function Leading<T(==)>(x: T, d: seq<T>): (z: nat)
    ensures z <= |d| && (z < |d| ==> d[z] != x)
    ensures forall i :: 0 <= i < z ==> d[i] == x
  {
    if d == [] || d[0] != x then 0 else Leading(x, d[1..]) + 1
  }

  lemma LeadingSplit<T>(x: T, d: seq<T>)
    ensures d == Repeat(x, Leading(x, d)) + d[Leading(x, d)..]
  {
  }

  lemma LeadingIs<T>(x: T, d: seq<T>, z: nat)
    requires z <= |d| && (forall i :: 0 <= i < z ==> d[i] == x) && (z < |d| ==> d[z] != x)
    ensures Leading(x, d) == z
  {
  }

  /** Dropping leading zeros leaves the digits of the value. */
  lemma StrippedDigits(b: nat, d: Digits)
    requires b > 1 && InBase(b, d)
    ensures d[Leading(0, d)..] == ToDigits(b, Value(b, d))
  {
    var z := Leading(0, d);
    LeadingSplit(0, d);
    ValueZeros(b, z, d[z..]);
    DigitsOfValue(b, d[z..]);
  }

  /** Another base, with as many leading zeros. */
  function Convert(from: nat, to: nat, d: Digits): (r: Digits)
    requires from > 1 && to > 1
    ensures InBase(to, r)
  {
    Repeat(0, Leading(0, d)) + ToDigits(to, Value(from, d))
  }

  /** Converting back gives the same digits. */
  lemma ConvertBack(from: nat, to: nat, d: Digits)
    requires from > 1 && to > 1 && InBase(from, d)
    ensures Convert(to, from, Convert(from, to, d)) == d
  {
    var z, x := Leading(0, d), Value(from, d);
    var r := Convert(from, to, d);
    LeadingIs(0, r, z);
    ValueZeros(to, z, ToDigits(to, x));
    ValueOfDigits(to, x);
    StrippedDigits(from, d);
    LeadingSplit(0, d);
  }

  // ---------------------------------------------------------- arithmetic in place

  /** Makes the number in the buffer `mul` times as large and adds `carryIn`. The buffer can
      hold the result exactly when no carry is left. */
  method MultiplyAdd(buf: array<nat>, b: nat, mul: nat, carryIn: nat) returns (carry: nat)
    requires b > 1 && InBase(b, buf[..])
    modifies buf
    ensures InBase(b, buf[..])
    ensures carry * Pow(b, buf.Length) + Value(b, buf[..]) == old(Value(b, buf[..])) * mul + carryIn
    ensures carry == 0 <==> old(Value(b, buf[..])) * mul + carryIn < Pow(b, buf.Length)
  {
    hide Pow, Value;
    carry := carryIn;
    ghost var was := buf[..];
    EmptyValue(b, mul, carryIn);
    assert was[|was|..] == [] && buf[buf.Length..] == [];
    for i := buf.Length downto 0
      invariant InBase(b, buf[..]) && buf[..i] == was[..i]
      invariant CarriedTo(b, mul, carryIn, carry, was[i..], buf[i..])
    {
      assert buf[i] == buf[..i + 1][i] == was[i];
      ghost var rest, c := buf[i + 1..], carry;
      var digit: nat;
      digit, carry := DivMod(carry + mul * buf[i], b);
      buf[i] := digit;
      assert buf[i..] == [digit] + rest && was[i..] == [was[i]] + was[i + 1..];
      CarryStep(b, mul, carryIn, was[i], was[i + 1..], c, rest, carry, digit);
    }
    assert buf[0..] == buf[..] && was[0..] == was;
    ValueBound(b, buf[..]);
    if carry > 0 { Scale(1, carry, Pow(b, buf.Length)); }
  }

  method DivMod(x: nat, b: nat) returns (digit: nat, carry: nat)
    requires b > 0
    ensures digit < b && carry * b + digit == x
  {
    digit := x % b;
    carry := x / b;
    DivBase(x, b);
  }

  /** What holds of the digits that have been gone through. */
  predicate CarriedTo(b: nat, mul: nat, add: nat, carry: nat, was: Digits, now: Digits) {
    |was| == |now| && carry * Pow(b, |now|) + Value(b, now) == Value(b, was) * mul + add
  }

  lemma EmptyValue(b: nat, mul: nat, add: nat)
    ensures CarriedTo(b, mul, add, add, [], [])
  {
  }

  lemma DivBase(x: nat, b: nat)
    requires b > 0
    ensures x / b >= 0 && 0 <= x % b < b && x == (x / b) * b + x % b
  {
  }

  lemma CarryStep(b: nat, mul: nat, add: nat, d: nat, was: Digits, c: nat, now: Digits, carry: nat, digit: nat)
    requires CarriedTo(b, mul, add, c, was, now) && carry * b + digit == c + mul * d
    ensures CarriedTo(b, mul, add, carry, [d] + was, [digit] + now)
  {
    var p := Pow(b, |now|);
    ValueFront(b, [digit] + now);
    ValueFront(b, [d] + was);
    assert ([digit] + now)[1..] == now && ([d] + was)[1..] == was;
    CarrySum(b, mul, p, c, d, Value(b, now), Value(b, was), add, carry, digit);
  }

  lemma CarrySum(b: nat, mul: nat, p: nat, c: nat, d: nat, now: nat, was: nat, add: nat, carry: nat, digit: nat)
    requires c * p + now == was * mul + add
    requires carry * b + digit == c + mul * d
    ensures carry * (b * p) + (digit * p + now) == (d * p + was) * mul + add
  {
    Assoc(carry, b, p);
    Add(carry * b, digit, p);
    Add(c, mul * d, p);
    Add(d * p, was, mul);
    Assoc(mul, d, p);
  }
}

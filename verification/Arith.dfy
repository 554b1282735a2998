/** Products and quotients of variables, one fact at a time. */
module Arith {

  function Min(a: int, b: int): int { if a < b then a else b }

  function Max(a: int, b: int): int { if a > b then a else b }

  lemma Scale(a: int, b: int, v: nat)
    requires a <= b
    ensures a * v <= b * v
  {
  }

  lemma ScaleRight(a: nat, v: nat, w: nat)
    requires v <= w
    ensures a * v <= a * w
  {
  }

  lemma Cancel(a: nat, b: nat, v: nat)
    requires v > 0 && a * v <= b * v
    ensures a <= b
  {
    if b < a { Scale(b + 1, a, v); Add(b, 1, v); }
  }

  lemma Add(a: int, b: int, v: nat)
    ensures (a + b) * v == a * v + b * v
  {
  }

  lemma Distribute(a: int, b: int, v: int)
    ensures (a - b) * v == a * v - b * v
  {
  }

  lemma Assoc(a: nat, b: nat, c: nat)
    ensures a * (b * c) == (a * b) * c
  {
  }

  lemma Double(v: nat, p: nat)
    ensures v * (2 * p) == 2 * (v * p) && (2 * v) * p == 2 * (v * p)
  {
  }

  /** Multiples of the divisor do not change the remainder. */
  lemma AddMultiple(a: nat, k: nat, w: nat)
    requires w > 0
    ensures (a + k * w) % w == a % w
  {
    var q := a / w;
    assert a == q * w + a % w;
    Add(q, k, w);
    DivUnique(a + k * w, w, q + k, a % w);
  }

  lemma DivUnique(a: nat, w: nat, q: nat, r: nat)
    requires a == q * w + r && r < w
    ensures a / w == q && a % w == r
  {
    var p := a / w;
    assert a == p * w + a % w;
    if q < p {
      Scale(q + 1, p, w);
      Add(q, 1, w);
    } else if p < q {
      Scale(p + 1, q, w);
      Add(p, 1, w);
    }
  }

  lemma TakeSome(v: nat, r: nat)
    requires v > 0
    ensures r / v >= 0 && (r / v) * v <= r < (r / v + 1) * v
  {
    assert r == (r / v) * v + r % v;
  }

  lemma QuotientAtMost(r: nat, v: nat)
    requires v > 0
    ensures 0 <= r / v <= r
  {
    TakeSome(v, r);
    if r / v > r { Scale(r + 1, r / v, v); ScaleRight(r + 1, 1, v); }
  }

  lemma ExactQuotient(r: nat, v: nat)
    requires v > 0 && r % v == 0
    ensures (r / v) * v == r
  {
  }

  lemma MulModSelf(x: nat, w: nat)
    requires w > 0
    ensures (x * w) % w == 0 && (x * w) / w == x
  {
    DivUnique(x * w, w, x, 0);
  }

  lemma MulMod(m: nat, v: nat, w: nat)
    requires w > 0 && v % w == 0
    ensures (m * v) % w == 0
  {
    var q := v / w;
    assert v == q * w;
    Assoc(m, q, w);
    MulModSelf(m * q, w);
  }

  lemma ModTrans(r: nat, v: nat, w: nat)
    requires v > 0 && w > 0 && r % v == 0 && v % w == 0
    ensures r % w == 0
  {
    assert r == (r / v) * v;
    MulMod(r / v, v, w);
  }

  lemma ModLess(a: nat, k: nat, v: nat)
    requires v > 0 && a % v == 0 && k * v <= a
    ensures (a - k * v) % v == 0
  {
    var q := a / v;
    assert a == q * v;
    Distribute(q, k, v);
    if q < k { Scale(q + 1, k, v); Distribute(q + 1, 1, v); }
    MulModSelf(q - k, v);
  }
}

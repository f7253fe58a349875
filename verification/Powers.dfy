/** Powers of two, remainders, and bitwise operations on naturals in terms of them. */
module Powers {

  function Pow2(k: nat): (p: nat)
    ensures p >= 1
  {
    if k == 0 then 1 else 2 * Pow2(k - 1)
  }

  lemma {:induction false} Pow2Add(a: nat, b: nat)
    ensures Pow2(a + b) == Pow2(a) * Pow2(b)
  {
    if a > 0 {
      Pow2Add(a - 1, b);
      assert Pow2(a) * Pow2(b) == 2 * (Pow2(a - 1) * Pow2(b));
    }
  }

  lemma {:induction false} Pow2Monotone(a: nat, b: nat)
    requires a <= b
    ensures Pow2(a) <= Pow2(b)
  {
    if a < b { Pow2Monotone(a, b - 1); }
  }

  /** `x` modulo `n`. */
  function Rem(x: nat, n: nat): (r: nat)
    requires n > 0
    ensures r < n
  {
    if x < n then x else Rem(x - n, n)
  }

  /** Bitwise `a | b`. */
  function Or(a: nat, b: nat): nat
    decreases a + b
  {
    if a == 0 && b == 0 then 0
    else 2 * Or(a / 2, b / 2) + if a % 2 == 1 || b % 2 == 1 then 1 else 0
  }

  /** Bitwise `a & b`. */
  function And(a: nat, b: nat): (r: nat)
    ensures r <= b
    decreases a
  {
    if a == 0 then 0
    else 2 * And(a / 2, b / 2) + if a % 2 == 1 && b % 2 == 1 then 1 else 0
  }

  /** Leading zeros of `x` in a word of `width` bits. */
  function CountlZero(x: nat, width: nat): (n: nat)
    ensures n <= width
  {
    if width == 0 || x >= Pow2(width - 1) then 0 else 1 + CountlZero(x, width - 1)
  }

  /** Leading zeros locate the top bit. */
  lemma {:induction false} TopBit(x: nat, width: nat)
    requires 0 < x < Pow2(width)
    ensures CountlZero(x, width) < width
    ensures var e := width - 1 - CountlZero(x, width); Pow2(e) <= x < Pow2(e + 1)
  {
    if x < Pow2(width - 1) { TopBit(x, width - 1); }
  }

  /** The top bit is unique. */
  lemma TopBitIs(x: nat, width: nat, e: nat)
    requires Pow2(e) <= x < Pow2(e + 1) && x < Pow2(width)
    ensures CountlZero(x, width) < width && width - 1 - CountlZero(x, width) == e
  {
    TopBit(x, width);
    var t := width - 1 - CountlZero(x, width);
    if t < e { Pow2Monotone(t + 1, e); } else if e < t { Pow2Monotone(e + 1, t); }
  }

  /** `v` divided by `d`. */
  function Div(v: nat, d: nat): nat
    requires d > 0
  {
    if v < d then 0 else 1 + Div(v - d, d)
  }

  lemma {:induction false} DivRem(v: nat, d: nat)
    requires d > 0
    ensures v == Div(v, d) * d + Rem(v, d)
  {
    if v >= d {
      DivRem(v - d, d);
      assert (1 + Div(v - d, d)) * d == d + Div(v - d, d) * d;
    }
  }

  /** Quotient and remainder are unique. */
  lemma {:induction false} DivRemIs(v: nat, d: nat, q: nat, r: nat)
    requires v == q * d + r && r < d
    ensures Div(v, d) == q && Rem(v, d) == r
  {
    if q > 0 {
      assert q * d == (q - 1) * d + d;
      MulOrder(0, q - 1, d);
      DivRemIs(v - d, d, q - 1, r);
    }
  }

  /** Division bounds from products. */
  lemma DivBetween(v: nat, d: nat, lo: nat, hi: nat)
    requires d > 0 && lo * d <= v < hi * d
    ensures lo <= Div(v, d) < hi
  {
    DivRem(v, d);
    hide Div, Rem;
    var q := Div(v, d);
    assert (q + 1) * d == q * d + d;
    if q < lo {
      MulOrder(q + 1, lo, d);
    } else if q >= hi {
      MulOrder(hi, q, d);
    }
  }

  lemma MulOrder(a: nat, b: nat, d: nat)
    requires a <= b
    ensures a * d <= b * d
  {
  }

  /** Filling the low `k` bits with ones. */
  lemma {:induction false} OrMask(v: nat, k: nat)
    ensures Or(v, Pow2(k) - 1) == Div(v, Pow2(k)) * Pow2(k) + Pow2(k) - 1
  {
    if k == 0 {
      OrZero(v);
      DivRemIs(v, 1, v, 0);
    } else {
      var p := Pow2(k - 1);
      OrMask(v / 2, k - 1);
      assert Pow2(k) == 2 * p;
      OrOdd(v, 2 * p - 1);
      hide Pow2, Or, Div;
      HalveTwice(v, p);
      Double(Div(v, 2 * p), p);
    }
  }

  lemma OrOdd(v: nat, m: nat)
    requires m % 2 == 1
    ensures Or(v, m) == 2 * Or(v / 2, m / 2) + 1
  {
  }

  lemma Double(q: nat, p: nat)
    ensures q * (2 * p) == 2 * (q * p)
  {
  }

  lemma {:induction false} OrZero(v: nat)
    ensures Or(v, 0) == v
  {
    if v > 0 { OrZero(v / 2); }
  }

  lemma HalveTwice(v: nat, p: nat)
    requires p > 0
    ensures Div(v / 2, p) == Div(v, 2 * p) && Rem(v, 2 * p) == 2 * Rem(v / 2, p) + v % 2
  {
    var q, r := Div(v / 2, p), Rem(v / 2, p);
    DivRem(v / 2, p);
    Double(q, p);
    hide Div, Rem;
    DivRemIs(v, 2 * p, q, 2 * r + v % 2);
  }

  /** Keeping the low `k` bits. */
  lemma {:induction false} AndMask(v: nat, k: nat)
    ensures And(v, Pow2(k) - 1) == Rem(v, Pow2(k))
  {
    if k == 0 {
      AndZero(v);
      DivRemIs(v, 1, v, 0);
    } else {
      var p := Pow2(k - 1);
      AndMask(v / 2, k - 1);
      assert Pow2(k) == 2 * p;
      AndOdd(v, 2 * p - 1);
      hide Pow2, And, Div, Rem;
      HalveTwice(v, p);
    }
  }

  lemma AndOdd(v: nat, m: nat)
    requires m % 2 == 1
    ensures And(v, m) == 2 * And(v / 2, m / 2) + v % 2
  {
  }

  lemma {:induction false} AndZero(v: nat)
    ensures And(v, 0) == 0
  {
    if v > 0 { AndZero(v / 2); }
  }

  ghost predicate IsPow2(n: nat) {
    exists k: nat :: Pow2(k) == n
  }

  lemma DoubleIsPow2(n: nat)
    requires IsPow2(n)
    ensures IsPow2(2 * n)
  {
    var k: nat :| Pow2(k) == n;
    assert Pow2(k + 1) == 2 * n;
  }

  /** Masking with a power of two less one is the remainder. */
  lemma MaskIsRem(v: nat, n: nat)
    requires n > 0 && IsPow2(n)
    ensures And(v, n - 1) == Rem(v, n)
  {
    var k: nat :| Pow2(k) == n;
    AndMask(v, k);
  }
}

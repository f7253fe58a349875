/** The bucket layout of the latency histogram: which sub-bucket a value falls in, and which
    values a sub-bucket stands for. `mag` is the sub-bucket magnitude. */
module Buckets {
  import opened Powers

  const WIDTH: nat := 64

  function Half(mag: nat): (h: nat)
    ensures h >= 1
  {
    Pow2(mag)
  }

  /** The sub-bucket of a value, computed with shifts, masks and leading zeros. */
  function CountsIndex(mag: nat, v: nat): int
    requires mag < WIDTH
  {
    var bucket := WIDTH - (mag + 1) - CountlZero(Or(v, 2 * Half(mag) - 1), WIDTH);
    var b := if bucket < 0 then 0 else bucket;
    var sub := Div(v, Pow2(b));
    (b + 1) * Half(mag) + sub - Half(mag)
  }

  /** `i >> mag`: which half-bucket a sub-bucket belongs to. */
  function Row(mag: nat, i: nat): nat {
    Div(i, Half(mag))
  }

  /** The smallest value of a sub-bucket. */
  function ValueFromIndex(mag: nat, i: nat): nat {
    var bucket := Row(mag, i) - 1;
    var sub := And(i, Half(mag) - 1) + Half(mag);
    if bucket < 0 then (sub - Half(mag)) * Pow2(0) else sub * Pow2(bucket)
  }

  /** How many values a sub-bucket stands for. */
  function Span(mag: nat, i: nat): nat {
    var bucket := Row(mag, i) - 1;
    Pow2(if bucket < 0 then 0 else bucket)
  }

  /** The largest value of a sub-bucket. */
  function HighestEquivalent(mag: nat, i: nat): nat {
    ValueFromIndex(mag, i) + (Span(mag, i) - 1)
  }

  /** The index in closed form: `b` doublings above the exact range, `sub` steps of 2^b. */
  lemma IndexIs(mag: nat, v: nat) returns (b: nat, sub: nat)
    requires mag + 1 < WIDTH && v < Pow2(WIDTH)
    ensures sub * Pow2(b) <= v < (sub + 1) * Pow2(b)
    ensures sub < 2 * Half(mag) && (b > 0 ==> sub >= Half(mag))
    ensures CountsIndex(mag, v) == b * Half(mag) + sub
  {
    hide Pow2, Half, Div, CountlZero, Or;
    var e := TopBitOfMasked(mag, v, WIDTH);
    b := e - mag;
    sub := Div(v, Pow2(b));
    RowShift(b, Half(mag), sub);
    SubRange(mag, v, b);
  }

  lemma RowShift(b: nat, h: nat, sub: nat)
    ensures (b + 1) * h + sub - h == b * h + sub
  {
  }

  /** The top bit of `v | mask`: that of `v`, but no lower than the mask's. */
  lemma TopBitOfMasked(mag: nat, v: nat, width: nat) returns (e: nat)
    requires mag + 1 < width && v < Pow2(width)
    ensures e >= mag && e == width - 1 - CountlZero(Or(v, 2 * Half(mag) - 1), width)
    ensures v < Pow2(e + 1) && (e > mag ==> Pow2(e) <= v)
  {
    hide CountlZero, Or;
    var k := mag + 1;
    var y := Or(v, 2 * Half(mag) - 1);
    assert Pow2(k) == 2 * Half(mag);
    hide Pow2, Half;
    if v < Pow2(k) {
      e := mag;
    } else {
      TopBit(v, width);
      e := width - 1 - CountlZero(v, width);
    }
    MaskedRange(mag, v, e);
    Pow2Monotone(e + 1, width);
    TopBitIs(y, width, e);
  }

  lemma MaskedRange(mag: nat, v: nat, e: nat)
    requires if v < Pow2(mag + 1) then e == mag else Pow2(e) <= v < Pow2(e + 1)
    ensures e >= mag && (v >= Pow2(mag + 1) ==> e > mag)
    ensures Pow2(e) <= Or(v, 2 * Half(mag) - 1) < Pow2(e + 1)
  {
    var k := mag + 1;
    OrMask(v, k);
    assert Pow2(k) == 2 * Half(mag) && Pow2(k) == 2 * Pow2(mag);
    hide Pow2, Or;
    if v < Pow2(k) {
      DivRemIs(v, Pow2(k), 0, v);
    } else {
      MaskKeepsTopBit(v, k, e);
    }
  }

  lemma MaskKeepsTopBit(v: nat, k: nat, e: nat)
    requires Pow2(k) <= v && Pow2(e) <= v < Pow2(e + 1)
    ensures e >= k
    ensures var y := Div(v, Pow2(k)) * Pow2(k) + Pow2(k) - 1; Pow2(e) <= y < Pow2(e + 1)
  {
    hide Pow2;
    if e < k { Pow2Monotone(e + 1, k); }
    Pow2Add(e + 1 - k, k);
    hide Div;
    var p, q := Pow2(k), Div(v, Pow2(k));
    DivRem(v, p);
    DivBetween(v, p, 0, Pow2(e + 1 - k));
    MulOrder(q + 1, Pow2(e + 1 - k), p);
    assert (q + 1) * p == q * p + p;
  }

  lemma SubRange(mag: nat, v: nat, b: nat)
    requires v < Pow2(mag + b + 1) && (b > 0 ==> Pow2(mag + b) <= v)
    ensures var sub := Div(v, Pow2(b));
            && sub * Pow2(b) <= v < (sub + 1) * Pow2(b)
            && sub < 2 * Half(mag) && (b > 0 ==> sub >= Half(mag))
  {
    Pow2Add(mag + 1, b);
    Pow2Add(mag, b);
    assert Pow2(mag + 1) == 2 * Half(mag) && Pow2(mag) == Half(mag) && Pow2(0) == 1;
    hide Pow2, Half, Div;
    Quotient(v, Pow2(b), if b > 0 then Half(mag) else 0, 2 * Half(mag));
  }

  lemma Quotient(v: nat, p: nat, lo: nat, hi: nat)
    requires p > 0 && lo * p <= v < hi * p
    ensures var sub := Div(v, p); sub * p <= v < (sub + 1) * p && lo <= sub < hi
  {
    DivRem(v, p);
    DivBetween(v, p, lo, hi);
    assert (Div(v, p) + 1) * p == Div(v, p) * p + p;
  }

  /** The lower end of sub-bucket `r` of half-bucket `q`. */
  function LowEnd(h: nat, q: nat, r: nat): nat {
    if q == 0 then r else (h + r) * Pow2(q - 1)
  }

  function StepOf(q: nat): nat {
    Pow2(if q == 0 then 0 else q - 1)
  }

  /** A sub-bucket's lower end and span in closed form. */
  lemma ValueIs(mag: nat, i: nat)
    ensures ValueFromIndex(mag, i) == LowEnd(Half(mag), Row(mag, i), Rem(i, Half(mag)))
    ensures Span(mag, i) == StepOf(Row(mag, i))
  {
    AndMask(i, mag);
    assert Pow2(0) == 1;
    hide Pow2, Div;
  }

  lemma ValueAt(mag: nat, q: nat, r: nat)
    requires r < Half(mag)
    ensures ValueFromIndex(mag, q * Half(mag) + r) == LowEnd(Half(mag), q, r)
    ensures Span(mag, q * Half(mag) + r) == StepOf(q)
  {
    DivRemIs(q * Half(mag) + r, Half(mag), q, r);
    ValueIs(mag, q * Half(mag) + r);
    hide Pow2, Half, LowEnd, StepOf, ValueFromIndex, Span;
  }

  /** Adjacent steps of the layout touch, within a half-bucket and from one to the next. */
  lemma StepsTouch(h: nat, q: nat, r: nat)
    requires r < h
    ensures if r + 1 < h then LowEnd(h, q, r + 1) == LowEnd(h, q, r) + StepOf(q)
            else LowEnd(h, q + 1, 0) == LowEnd(h, q, r) + StepOf(q)
  {
    if q > 0 {
      var p := Pow2(q - 1);
      assert Pow2(q) == 2 * p;
      hide Pow2;
      assert (h + r + 1) * p == (h + r) * p + p;
      assert (h + h) * p == h * (2 * p);
    }
  }

  /** Adjacent sub-buckets touch: no value falls between them or in both. */
  lemma BucketsTouch(mag: nat, i: nat)
    ensures ValueFromIndex(mag, i + 1) == HighestEquivalent(mag, i) + 1
  {
    hide LowEnd, StepOf, ValueFromIndex, Span, Half;
    var h := Half(mag);
    var q, r := Row(mag, i), Rem(i, h);
    RowSplit(mag, i);
    StepsTouch(h, q, r);
    ValueAt(mag, q, r);
    if r + 1 < h {
      ValueAt(mag, q, r + 1);
    } else {
      ValueAt(mag, q + 1, 0);
      assert (q + 1) * h + 0 == q * h + h;
    }
  }

  lemma RowSplit(mag: nat, i: nat)
    ensures i == Row(mag, i) * Half(mag) + Rem(i, Half(mag))
  {
    DivRem(i, Half(mag));
  }

  lemma {:induction false} ValuesGrow(mag: nat, i: nat, j: nat)
    requires i < j
    ensures HighestEquivalent(mag, i) < ValueFromIndex(mag, j)
    decreases j
  {
    BucketsTouch(mag, j - 1);
    if i < j - 1 { ValuesGrow(mag, i, j - 1); }
  }

  /** Every value lies in its own sub-bucket. */
  lemma ValueInItsBucket(mag: nat, v: nat)
    requires mag + 1 < WIDTH && v < Pow2(WIDTH)
    ensures CountsIndex(mag, v) >= 0
    ensures ValueFromIndex(mag, CountsIndex(mag, v)) <= v <= HighestEquivalent(mag, CountsIndex(mag, v))
  {
    hide Pow2, Half, Div, CountsIndex, LowEnd, StepOf, ValueFromIndex, Span;
    var h := Half(mag);
    var b, sub := IndexIs(mag, v);
    var i := b * h + sub;
    assert CountsIndex(mag, v) == i;
    if sub < h {
      ValueAt(mag, 0, sub);
      ExactRow(h, sub, v);
    } else {
      RowShift(b, h, sub);
      ValueAt(mag, b + 1, sub - h);
      StepRow(h, b, sub, v);
    }
  }

  lemma ExactRow(h: nat, sub: nat, v: nat)
    requires sub * Pow2(0) <= v < (sub + 1) * Pow2(0)
    ensures LowEnd(h, 0, sub) == v && StepOf(0) == 1
  {
  }

  lemma StepRow(h: nat, b: nat, sub: nat, v: nat)
    requires h <= sub && sub * Pow2(b) <= v < (sub + 1) * Pow2(b)
    ensures LowEnd(h, b + 1, sub - h) <= v < LowEnd(h, b + 1, sub - h) + StepOf(b + 1)
  {
    hide Pow2;
    assert (sub + 1) * Pow2(b) == sub * Pow2(b) + Pow2(b);
  }

  /** ... and in no other: the sub-buckets partition the values, in order. */
  lemma IndexIffBetween(mag: nat, v: nat, i: nat)
    requires mag + 1 < WIDTH && v < Pow2(WIDTH)
    ensures CountsIndex(mag, v) == i <==> ValueFromIndex(mag, i) <= v <= HighestEquivalent(mag, i)
    ensures CountsIndex(mag, v) < i <==> v < ValueFromIndex(mag, i)
  {
    hide CountsIndex, ValueFromIndex, Span;
    ValueInItsBucket(mag, v);
    var c := CountsIndex(mag, v);
    if c < i { ValuesGrow(mag, c, i); } else if i < c { ValuesGrow(mag, i, c); }
  }

  lemma IndexIsMonotone(mag: nat, v: nat, w: nat)
    requires mag + 1 < WIDTH && v <= w < Pow2(WIDTH)
    ensures CountsIndex(mag, v) <= CountsIndex(mag, w)
  {
    hide CountsIndex, ValueFromIndex, Span;
    ValueInItsBucket(mag, w);
    IndexIffBetween(mag, v, CountsIndex(mag, w) + 1);
    BucketsTouch(mag, CountsIndex(mag, w));
  }

  /** The first value beyond an array of `buckets + 1` half-buckets. */
  function Untrackable(mag: nat, buckets: nat): nat {
    Pow2(mag + buckets)
  }

  function Slots(mag: nat, buckets: nat): nat {
    (buckets + 1) * Half(mag)
  }

  /** A value indexes inside the array exactly when it is below the untrackable bound. */
  lemma TrackableIff(mag: nat, buckets: nat, v: nat)
    requires mag + 1 < WIDTH && v < Pow2(WIDTH)
    ensures CountsIndex(mag, v) < Slots(mag, buckets) <==> v < Untrackable(mag, buckets)
  {
    ValueAtEnd(mag, buckets);
    IndexIffBetween(mag, v, Slots(mag, buckets));
  }

  lemma ValueAtEnd(mag: nat, buckets: nat)
    ensures ValueFromIndex(mag, Slots(mag, buckets)) == Untrackable(mag, buckets)
  {
    assert Slots(mag, buckets) == (buckets + 1) * Half(mag) + 0;
    ValueAt(mag, buckets + 1, 0);
    Pow2Add(mag, buckets);
  }

  /** Relative error: a sub-bucket's upper end exceeds any of its values by at most one part in
      the sub-bucket half-count. */
  lemma RelativeError(mag: nat, i: nat, x: nat)
    requires ValueFromIndex(mag, i) <= x <= HighestEquivalent(mag, i)
    ensures (HighestEquivalent(mag, i) - x) * Half(mag) <= x
  {
    ValueIs(mag, i);
    hide Half, ValueFromIndex, Span;
    ErrorOf(Half(mag), Row(mag, i), Rem(i, Half(mag)), x);
  }

  lemma ErrorOf(h: nat, q: nat, r: nat, x: nat)
    requires LowEnd(h, q, r) <= x < LowEnd(h, q, r) + StepOf(q)
    ensures (LowEnd(h, q, r) + StepOf(q) - 1 - x) * h <= x
  {
    var d := LowEnd(h, q, r) + StepOf(q) - 1 - x;
    if q > 0 {
      var p := Pow2(q - 1);
      MulOrder(d, p, h);
      MulOrder(h, h + r, p);
      assert p * h == h * p;
    } else {
      assert d == 0;
    }
  }
}

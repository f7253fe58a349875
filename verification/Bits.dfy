/** The 64-bit occupancy words of the bitset book and the bit-scan operations on them.

    Words are real 64-bit vectors; positions are naturals below 64. Everything the rest of the
    project needs is in `SetBits`, `ClearBits`, `ZeroWord` and `BitScans`; the lemmas before them
    keep each bit-vector fact small.
*/
module Bits {

  // --- bit positions as shift amounts -----------------------------------------------------

  /** The number with binary digits `d5 .. d0`. */
  function Pack(d5: bool, d4: bool, d3: bool, d2: bool, d1: bool, d0: bool): bv64 {
    (if d5 then 32 else 0) | (if d4 then 16 else 0) | (if d3 then 8 else 0) |
    (if d2 then 4 else 0) | (if d1 then 2 else 0) | (if d0 then 1 else 0)
  }

  /** What is left of `k` below the digit of weight `m`. */
  function Low(k: nat, m: nat): nat {
    if k >= m then k - m else k
  }

  /** The bit position `k` as a shift amount, digit by digit. */
  function Pos(k: nat): bv64
    requires k < 64
  {
    var k4 := Low(k, 32);
    var k3 := Low(k4, 16);
    var k2 := Low(k3, 8);
    var k1 := Low(k2, 4);
    var k0 := Low(k1, 2);
    Pack(k >= 32, k4 >= 16, k3 >= 8, k2 >= 4, k1 >= 2, k0 >= 1)
  }

  /** The number with the given digits. */
  function Weigh(d5: bool, d4: bool, d3: bool, d2: bool, d1: bool, d0: bool): (k: nat)
    ensures k < 64
  {
    (if d5 then 32 else 0) + (if d4 then 16 else 0) + (if d3 then 8 else 0) +
    (if d2 then 4 else 0) + (if d1 then 2 else 0) + (if d0 then 1 else 0)
  }

  /** The position whose shift amount is `p`. */
  function Index(p: bv64): (k: nat)
    ensures k < 64
  {
    Weigh(p & 32 != 0, p & 16 != 0, p & 8 != 0, p & 4 != 0, p & 2 != 0, p & 1 != 0)
  }

  lemma PackDigits(d5: bool, d4: bool, d3: bool, d2: bool, d1: bool, d0: bool)
    ensures var p := Pack(d5, d4, d3, d2, d1, d0);
            && p < 64
            && (p & 32 != 0) == d5 && (p & 16 != 0) == d4 && (p & 8 != 0) == d3
            && (p & 4 != 0) == d2 && (p & 2 != 0) == d1 && (p & 1 != 0) == d0
  {
  }

  lemma UnpackDigits(p: bv64)
    requires p < 64
    ensures Pack(p & 32 != 0, p & 16 != 0, p & 8 != 0, p & 4 != 0, p & 2 != 0, p & 1 != 0) == p
  {
  }

  lemma WeighDigits(k: nat)
    requires k < 64
    ensures var k4 := Low(k, 32);
            var k3 := Low(k4, 16);
            var k2 := Low(k3, 8);
            var k1 := Low(k2, 4);
            var k0 := Low(k1, 2);
            Weigh(k >= 32, k4 >= 16, k3 >= 8, k2 >= 4, k1 >= 2, k0 >= 1) == k
  {
  }

  /** `Pos` and `Index` are inverse, so distinct positions are distinct shift amounts. */
  lemma IndexPos(k: nat)
    requires k < 64
    ensures Pos(k) < 64 && Index(Pos(k)) == k
  {
    hide Pack, Weigh, Low;
    var k4 := Low(k, 32);
    var k3 := Low(k4, 16);
    var k2 := Low(k3, 8);
    var k1 := Low(k2, 4);
    var k0 := Low(k1, 2);
    PackDigits(k >= 32, k4 >= 16, k3 >= 8, k2 >= 4, k1 >= 2, k0 >= 1);
    WeighDigits(k);
  }

  lemma WeighLow(d5: bool, d4: bool, d3: bool, d2: bool, d1: bool, d0: bool)
    ensures var k := Weigh(d5, d4, d3, d2, d1, d0);
            var k4 := Low(k, 32);
            var k3 := Low(k4, 16);
            var k2 := Low(k3, 8);
            var k1 := Low(k2, 4);
            var k0 := Low(k1, 2);
            (k >= 32) == d5 && (k4 >= 16) == d4 && (k3 >= 8) == d3 && (k2 >= 4) == d2
            && (k1 >= 2) == d1 && (k0 >= 1) == d0
  {
  }

  lemma PosIndex(p: bv64)
    requires p < 64
    ensures Pos(Index(p)) == p
  {
    UnpackDigits(p);
    WeighLow(p & 32 != 0, p & 16 != 0, p & 8 != 0, p & 4 != 0, p & 2 != 0, p & 1 != 0);
  }

  // --- testing, setting and clearing a bit ----------------------------------------------------

  function One(k: nat): bv64
    requires k < 64
  {
    IndexPos(k);
    1 << Pos(k)
  }

  predicate Overlaps(w: bv64, mask: bv64) {
    w & mask != 0
  }

  predicate Bit(w: bv64, k: nat)
    requires k < 64
  {
    Overlaps(w, One(k))
  }

  predicate Apart(a: bv64, b: bv64) {
    a & b == 0
  }

  lemma ShiftedApart(p: bv64, q: bv64)
    requires p < 64 && q < 64
    ensures (1 as bv64 << p) != 0 && (p != q ==> (1 as bv64 << p) & (1 << q) == 0)
  {
  }

  lemma OnesApart(k: nat, j: nat)
    requires k < 64 && j < 64
    ensures Overlaps(One(k), One(k)) && (k != j ==> Apart(One(k), One(j)))
  {
    IndexPos(k);
    IndexPos(j);
    ShiftedApart(Pos(k), Pos(j));
  }

  lemma WithSame(w: bv64, a: bv64)
    requires Overlaps(a, a)
    ensures Overlaps(w | a, a)
  {
    assert (w | a) & a == a;
  }

  lemma WithoutSame(w: bv64, a: bv64)
    ensures !Overlaps(w & !a, a)
  {
  }

  lemma OrOutside(w: bv64, a: bv64, b: bv64)
    requires a & b == 0
    ensures (w | a) & b == w & b
  {
  }

  lemma AndNotOutside(w: bv64, a: bv64, b: bv64)
    requires a & b == 0
    ensures (w & !a) & b == w & b
  {
  }

  lemma WithOther(w: bv64, a: bv64, b: bv64)
    requires Apart(a, b)
    ensures Overlaps(w | a, b) <==> Overlaps(w, b)
  {
    OrOutside(w, a, b);
  }

  lemma WithoutOther(w: bv64, a: bv64, b: bv64)
    requires Apart(a, b)
    ensures Overlaps(w & !a, b) <==> Overlaps(w, b)
  {
    AndNotOutside(w, a, b);
  }

  lemma SetThis(w: bv64, k: nat)
    requires k < 64
    ensures Bit(w | One(k), k)
  {
    hide One, Overlaps, Apart;
    OnesApart(k, k);
    WithSame(w, One(k));
  }

  lemma ClearThis(w: bv64, k: nat)
    requires k < 64
    ensures !Bit(w & !One(k), k)
  {
    hide One, Overlaps, Apart;
    WithoutSame(w, One(k));
  }

  lemma SetAnother(w: bv64, k: nat, j: nat)
    requires k < 64 && j < 64 && k != j
    ensures Bit(w | One(k), j) == Bit(w, j)
  {
    hide One, Overlaps, Apart;
    OnesApart(k, j);
    WithOther(w, One(k), One(j));
  }

  lemma ClearAnother(w: bv64, k: nat, j: nat)
    requires k < 64 && j < 64 && k != j
    ensures Bit(w & !One(k), j) == Bit(w, j)
  {
    hide One, Overlaps, Apart;
    OnesApart(k, j);
    WithoutOther(w, One(k), One(j));
  }

  /** `w |= 1 << k` */
  function WithBit(w: bv64, k: nat): bv64
    requires k < 64
  {
    w | One(k)
  }

  /** `w &= ~(1 << k)` */
  function WithoutBit(w: bv64, k: nat): bv64
    requires k < 64
  {
    w & !One(k)
  }

  /** Setting a bit sets that bit and no other. */
  lemma SetBits(w: bv64, k: nat, j: nat)
    requires k < 64 && j < 64
    ensures Bit(WithBit(w, k), j) <==> j == k || Bit(w, j)
  {
    hide Bit, One;
    if k == j { SetThis(w, k); } else { SetAnother(w, k, j); }
  }

  /** Clearing a bit clears that bit and no other. */
  lemma ClearBits(w: bv64, k: nat, j: nat)
    requires k < 64 && j < 64
    ensures Bit(WithoutBit(w, k), j) <==> j != k && Bit(w, j)
  {
    hide Bit, One;
    if k == j { ClearThis(w, k); } else { ClearAnother(w, k, j); }
  }

  // --- a non-zero word has a set bit ------------------------------------------------------------

  /** `w` has a set bit under the mask `m` moved up by `p`. */
  predicate Hits(w: bv64, m: bv64, p: bv64)
    requires p < 64
  {
    w & (m << p) != 0
  }

  lemma Halve32(w: bv64, p: bv64) returns (r: bv64)
    requires p < 64 && p & 63 == 0 && Hits(w, 0xFFFF_FFFF_FFFF_FFFF, p)
    ensures r < 64 && r & 31 == 0 && Hits(w, 0xFFFF_FFFF, r)
  {
    r := if Hits(w, 0xFFFF_FFFF, p) then p else p + 32;
  }

  lemma Halve16(w: bv64, p: bv64) returns (r: bv64)
    requires p < 64 && p & 31 == 0 && Hits(w, 0xFFFF_FFFF, p)
    ensures r < 64 && r & 15 == 0 && Hits(w, 0xFFFF, r)
  {
    r := if Hits(w, 0xFFFF, p) then p else p + 16;
  }

  lemma Halve8(w: bv64, p: bv64) returns (r: bv64)
    requires p < 64 && p & 15 == 0 && Hits(w, 0xFFFF, p)
    ensures r < 64 && r & 7 == 0 && Hits(w, 0xFF, r)
  {
    r := if Hits(w, 0xFF, p) then p else p + 8;
  }

  lemma Halve4(w: bv64, p: bv64) returns (r: bv64)
    requires p < 64 && p & 7 == 0 && Hits(w, 0xFF, p)
    ensures r < 64 && r & 3 == 0 && Hits(w, 0xF, r)
  {
    r := if Hits(w, 0xF, p) then p else p + 4;
  }

  lemma Halve2(w: bv64, p: bv64) returns (r: bv64)
    requires p < 64 && p & 3 == 0 && Hits(w, 0xF, p)
    ensures r < 64 && r & 1 == 0 && Hits(w, 3, r)
  {
    r := if Hits(w, 3, p) then p else p + 2;
  }

  lemma Halve1(w: bv64, p: bv64) returns (r: bv64)
    requires p < 64 && p & 1 == 0 && Hits(w, 3, p)
    ensures r < 64 && r & 0 == 0 && Hits(w, 1, r)
  {
    r := if Hits(w, 1, p) then p else p + 1;
  }

  /** Halving the range that holds a set bit, down to one bit. */
  lemma AnyBit(w: bv64) returns (r: bv64)
    requires w != 0
    ensures r < 64 && Hits(w, 1, r)
  {
    assert Hits(w, 0xFFFF_FFFF_FFFF_FFFF, 0);
    hide Hits;
    r := Halve32(w, 0);
    r := Halve16(w, r);
    r := Halve8(w, r);
    r := Halve4(w, r);
    r := Halve2(w, r);
    r := Halve1(w, r);
  }

  /** A word is zero exactly when it has no set bit. */
  lemma ZeroWord(w: bv64)
    ensures w == 0 <==> forall k :: 0 <= k < 64 ==> !Bit(w, k)
  {
    if w != 0 {
      var r := AnyBit(w);
      PosIndex(r);
      assert Bit(w, Index(r));
    }
  }

  // --- bit scans -----------------------------------------------------------------------------------

  /** The digits of a word, bit 0 first. */
  function Digits(w: bv64): (b: seq<bool>)
    ensures |b| == 64
  {
    seq(64, k requires 0 <= k < 64 => Bit(w, k))
  }

  /** Clear digits at the high end. */
  function LeadingZeros(b: seq<bool>): (r: nat)
    ensures r <= |b|
    ensures forall k :: |b| - r <= k < |b| ==> !b[k]
    ensures r < |b| ==> b[|b| - 1 - r]
  {
    if b == [] || b[|b| - 1] then 0 else 1 + LeadingZeros(b[..|b| - 1])
  }

  /** Clear digits at the low end. */
  function TrailingZeros(b: seq<bool>): (r: nat)
    ensures r <= |b|
    ensures forall k :: 0 <= k < r ==> !b[k]
    ensures r < |b| ==> b[r]
  {
    if b == [] || b[0] then 0 else 1 + TrailingZeros(b[1..])
  }

  function CountlZero(w: bv64): nat {
    LeadingZeros(Digits(w))
  }

  function CountrZero(w: bv64): nat {
    TrailingZeros(Digits(w))
  }

  /** The bit scans of a non-zero word give its highest and its lowest set bit. */
  lemma BitScans(w: bv64)
    requires w != 0
    ensures var hi := 63 - CountlZero(w);
            0 <= hi < 64 && Bit(w, hi) && forall k :: hi < k < 64 ==> !Bit(w, k)
    ensures var lo := CountrZero(w);
            lo < 64 && Bit(w, lo) && forall k :: 0 <= k < lo ==> !Bit(w, k)
  {
    ZeroWord(w);
    hide Bit;
    var b := Digits(w);
    assert forall k :: 0 <= k < 64 ==> b[k] == Bit(w, k);
  }
}

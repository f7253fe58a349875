/** The latency histogram: recording, merging and reading percentiles, proved against the list
    of samples it stands for. */
module LatencyHistogram {
  import opened Powers
  import opened Buckets

  const UINT64_MAX: nat := 0xFFFF_FFFF_FFFF_FFFF

  // --- counting and ranking samples -----------------------------------------------------------

  /** How many samples satisfy `f`. */
  function Count(s: seq<nat>, f: nat -> bool): (n: nat)
    ensures n <= |s|
  {
    if s == [] then 0 else Count(s[..|s| - 1], f) + if f(s[|s| - 1]) then 1 else 0
  }

  lemma CountSnoc(s: seq<nat>, v: nat, f: nat -> bool)
    ensures Count(s + [v], f) == Count(s, f) + if f(v) then 1 else 0
  {
    assert (s + [v])[..|s|] == s;
  }

  lemma {:induction false} CountConcat(s: seq<nat>, t: seq<nat>, f: nat -> bool)
    ensures Count(s + t, f) == Count(s, f) + Count(t, f)
  {
    if t == [] {
      assert s + t == s;
    } else {
      assert s + t == (s + t[..|t| - 1]) + [t[|t| - 1]];
      CountSnoc(s + t[..|t| - 1], t[|t| - 1], f);
      CountConcat(s, t[..|t| - 1], f);
    }
  }

  lemma {:induction false} CountSame(s: seq<nat>, f: nat -> bool, g: nat -> bool)
    requires forall v :: v in s ==> f(v) == g(v)
    ensures Count(s, f) == Count(s, g)
  {
    if s != [] { CountSame(s[..|s| - 1], f, g); }
  }

  lemma {:induction false} CountAll(s: seq<nat>, f: nat -> bool)
    requires forall v :: v in s ==> f(v)
    ensures Count(s, f) == |s|
  {
    if s != [] { CountAll(s[..|s| - 1], f); }
  }

  function Less(y: nat): nat -> bool {
    v => v < y
  }

  function Insert(t: seq<nat>, x: nat): seq<nat> {
    if t == [] || t[|t| - 1] <= x then t + [x] else Insert(t[..|t| - 1], x) + [t[|t| - 1]]
  }

  /** The samples in ascending order. */
  function Sort(s: seq<nat>): seq<nat> {
    if s == [] then [] else Insert(Sort(s[..|s| - 1]), s[|s| - 1])
  }

  ghost predicate Ascending(t: seq<nat>) {
    forall i, j :: 0 <= i < j < |t| ==> t[i] <= t[j]
  }

  lemma {:induction false} InsertAscends(t: seq<nat>, x: nat, top: nat)
    requires Ascending(t) && x <= top && forall i :: 0 <= i < |t| ==> t[i] <= top
    ensures Ascending(Insert(t, x)) && forall i :: 0 <= i < |Insert(t, x)| ==> Insert(t, x)[i] <= top
  {
    if t != [] && t[|t| - 1] > x {
      InsertAscends(t[..|t| - 1], x, t[|t| - 1]);
    }
  }

  lemma Top(t: seq<nat>, x: nat) returns (top: nat)
    requires Ascending(t)
    ensures x <= top && forall i :: 0 <= i < |t| ==> t[i] <= top
  {
    top := if t == [] || t[|t| - 1] <= x then x else t[|t| - 1];
  }

  lemma {:induction false} InsertKeeps(t: seq<nat>, x: nat)
    ensures multiset(Insert(t, x)) == multiset(t) + multiset{x}
  {
    if t != [] && t[|t| - 1] > x {
      InsertKeeps(t[..|t| - 1], x);
      assert t == t[..|t| - 1] + [t[|t| - 1]];
    }
  }

  lemma {:induction false} SortSorts(s: seq<nat>)
    ensures Ascending(Sort(s)) && multiset(Sort(s)) == multiset(s) && |Sort(s)| == |s|
  {
    if s != [] {
      var t, x := Sort(s[..|s| - 1]), s[|s| - 1];
      SortSorts(s[..|s| - 1]);
      var top := Top(t, x);
      InsertAscends(t, x, top);
      InsertKeeps(t, x);
      assert s == s[..|s| - 1] + [x];
      assert |multiset(Sort(s))| == |Sort(s)| && |multiset(s)| == |s|;
    }
  }

  lemma {:induction false} CountInsert(t: seq<nat>, x: nat, f: nat -> bool)
    ensures Count(Insert(t, x), f) == Count(t, f) + if f(x) then 1 else 0
  {
    if t == [] || t[|t| - 1] <= x {
      CountSnoc(t, x, f);
    } else {
      CountInsert(t[..|t| - 1], x, f);
      CountSnoc(Insert(t[..|t| - 1], x), t[|t| - 1], f);
    }
  }

  lemma {:induction false} CountSort(s: seq<nat>, f: nat -> bool)
    ensures Count(Sort(s), f) == Count(s, f)
  {
    if s != [] {
      CountSort(s[..|s| - 1], f);
      CountInsert(Sort(s[..|s| - 1]), s[|s| - 1], f);
    }
  }

  lemma {:induction false} CountAscending(t: seq<nat>, y: nat, i: nat)
    requires Ascending(t) && i < |t|
    ensures t[i] < y <==> i < Count(t, Less(y))
  {
    var n := |t| - 1;
    if t[n] < y {
      CountAll(t, Less(y));
    } else if i < n {
      CountAscending(t[..n], y, i);
    }
  }

  /** The `k`-th smallest sample, counting from 1. */
  ghost function Kth(s: seq<nat>, k: nat): nat
    requires 1 <= k <= |s|
  {
    SortSorts(s);
    Sort(s)[k - 1]
  }

  /** The order statistic in terms of counts. */
  lemma KthBelow(s: seq<nat>, k: nat, y: nat)
    requires 1 <= k <= |s|
    ensures Kth(s, k) < y <==> k <= Count(s, Less(y))
  {
    hide Sort, Count, Ascending, Less;
    SortSorts(s);
    CountSort(s, Less(y));
    CountAscending(Sort(s), y, k - 1);
  }

  function Sum(s: seq<nat>): nat {
    if s == [] then 0 else Sum(s[..|s| - 1]) + s[|s| - 1]
  }

  function Least(s: seq<nat>): nat {
    if s == [] then UINT64_MAX
    else if s[|s| - 1] < Least(s[..|s| - 1]) then s[|s| - 1] else Least(s[..|s| - 1])
  }

  function Greatest(s: seq<nat>): nat {
    if s == [] then 0
    else if s[|s| - 1] > Greatest(s[..|s| - 1]) then s[|s| - 1] else Greatest(s[..|s| - 1])
  }

  /** The greatest sample bounds them all and is one of them. */
  lemma {:induction false} GreatestIsSample(s: seq<nat>) returns (k: nat)
    requires s != []
    ensures k < |s| && Greatest(s) == s[k]
    ensures forall i :: 0 <= i < |s| ==> s[i] <= Greatest(s)
  {
    k := |s| - 1;
    if k > 0 {
      var j := GreatestIsSample(s[..k]);
      assert forall i :: 0 <= i < k ==> s[..k][i] == s[i];
      if s[k] <= Greatest(s[..k]) { k := j; }
    }
  }

  lemma {:induction false} LeastIsSample(s: seq<nat>) returns (k: nat)
    requires s != [] && forall i :: 0 <= i < |s| ==> s[i] < UINT64_MAX
    ensures k < |s| && Least(s) == s[k]
    ensures forall i :: 0 <= i < |s| ==> Least(s) <= s[i]
  {
    k := |s| - 1;
    if k > 0 {
      var j := LeastIsSample(s[..k]);
      assert forall i :: 0 <= i < k ==> s[..k][i] == s[i];
      if s[k] >= Least(s[..k]) { k := j; }
    }
  }

  lemma {:induction false} TotalsConcat(s: seq<nat>, t: seq<nat>)
    ensures Sum(s + t) == Sum(s) + Sum(t)
    ensures Least(s + t) == if Least(t) < Least(s) then Least(t) else Least(s)
    ensures Greatest(s + t) == if Greatest(t) > Greatest(s) then Greatest(t) else Greatest(s)
  {
    if t == [] {
      assert s + t == s;
      LeastBound(s);
    } else {
      var t' := t[..|t| - 1];
      assert (s + t)[..|s + t| - 1] == s + t';
      TotalsConcat(s, t');
    }
  }

  lemma TotalsSnoc(s: seq<nat>, v: nat)
    ensures Sum(s + [v]) == Sum(s) + v
    ensures Least(s + [v]) == if v < Least(s) then v else Least(s)
    ensures Greatest(s + [v]) == if v > Greatest(s) then v else Greatest(s)
    ensures InRange(s) && v < Pow2(WIDTH) ==> InRange(s + [v])
  {
    hide Pow2;
    assert (s + [v])[..|s|] == s;
  }

  lemma {:induction false} LeastBound(s: seq<nat>)
    ensures Least(s) <= UINT64_MAX
  {
    if s != [] { LeastBound(s[..|s| - 1]); }
  }

  // --- samples by slot ---------------------------------------------------------------------------

  /** The slot a sample is counted in: its sub-bucket, or the last one if that is past the end. */
  function Slot(mag: nat, len: nat, v: nat): int
    requires mag < WIDTH
  {
    if CountsIndex(mag, v) >= len then len - 1 else CountsIndex(mag, v)
  }

  function At(mag: nat, len: nat, i: nat): nat -> bool
    requires mag < WIDTH
  {
    (v: nat) => Slot(mag, len, v) == i
  }

  function Before(mag: nat, len: nat, i: nat): nat -> bool
    requires mag < WIDTH
  {
    (v: nat) => Slot(mag, len, v) < i
  }

  ghost predicate Tallies(mag: nat, counts: seq<nat>, s: seq<nat>)
    requires mag < WIDTH
  {
    forall i :: 0 <= i < |counts| ==> counts[i] == Count(s, At(mag, |counts|, i))
  }

  function Running(counts: seq<nat>, i: nat): nat
    requires i <= |counts|
  {
    if i == 0 then 0 else Running(counts, i - 1) + counts[i - 1]
  }

  lemma {:induction false} BeforeNext(mag: nat, len: nat, s: seq<nat>, i: nat)
    requires mag < WIDTH
    ensures Count(s, Before(mag, len, i + 1)) == Count(s, Before(mag, len, i)) + Count(s, At(mag, len, i))
  {
    if s != [] { BeforeNext(mag, len, s[..|s| - 1], i); }
  }

  lemma {:induction false} BeforeFirst(mag: nat, len: nat, s: seq<nat>)
    requires mag + 1 < WIDTH && len > 0 && InRange(s)
    ensures Count(s, Before(mag, len, 0)) == 0
  {
    hide CountsIndex, Span, ValueFromIndex;
    if s != [] {
      ValueInItsBucket(mag, s[|s| - 1]);
      BeforeFirst(mag, len, s[..|s| - 1]);
    }
  }

  ghost predicate InRange(s: seq<nat>) {
    forall i :: 0 <= i < |s| ==> s[i] < Pow2(WIDTH)
  }

  /** Running totals count the samples in earlier slots. */
  lemma {:induction false} RunningCounts(mag: nat, counts: seq<nat>, s: seq<nat>, i: nat)
    requires mag + 1 < WIDTH && counts != [] && Tallies(mag, counts, s) && InRange(s) && i <= |counts|
    ensures Running(counts, i) == Count(s, Before(mag, |counts|, i))
  {
    hide Slot, InRange, Count, Before;
    if i == 0 {
      BeforeFirst(mag, |counts|, s);
    } else {
      RunningCounts(mag, counts, s, i - 1);
      BeforeNext(mag, |counts|, s, i - 1);
    }
  }

  /** ... which, short of the last slot, are the samples below the slot's lower end. */
  lemma BeforeIsBelow(mag: nat, len: nat, s: seq<nat>, i: nat)
    requires mag + 1 < WIDTH && InRange(s) && i < len
    ensures Count(s, Before(mag, len, i)) == Count(s, Less(ValueFromIndex(mag, i)))
  {
    forall v | v in s ensures Before(mag, len, i)(v) == Less(ValueFromIndex(mag, i))(v) {
      IndexIffBetween(mag, v, i);
    }
    CountSame(s, Before(mag, len, i), Less(ValueFromIndex(mag, i)));
  }

  lemma AllBeforeEnd(mag: nat, len: nat, s: seq<nat>)
    requires mag < WIDTH && len > 0
    ensures Count(s, Before(mag, len, len)) == |s|
  {
    CountAll(s, Before(mag, len, len));
  }

  /** The scan's answer: the slot where the running total reaches `k` holds the k-th smallest
      sample, unless that is the last slot and the sample was past the end. */
  ghost predicate Answers(mag: nat, buckets: nat, x: nat, r: nat) {
    && (x < Untrackable(mag, buckets) ==> x <= r && (r - x) * Half(mag) <= x)
    && (x >= Untrackable(mag, buckets) ==> r == Untrackable(mag, buckets) - 1)
  }

  lemma ScanAnswers(mag: nat, buckets: nat, counts: seq<nat>, s: seq<nat>, k: nat, i: nat)
    requires mag + 1 < WIDTH && |counts| == Slots(mag, buckets) && Tallies(mag, counts, s) && InRange(s)
    requires 1 <= k <= |s| && i < |counts| && Running(counts, i) < k <= Running(counts, i + 1)
    ensures Answers(mag, buckets, Kth(s, k), HighestEquivalent(mag, i))
    ensures Kth(s, k) <= HighestEquivalent(mag, i) <==> Kth(s, k) < Untrackable(mag, buckets)
  {
    hide CountsIndex, ValueFromIndex, Span, Running, Count, Kth, Slots, Untrackable;
    var x := Kth(s, k);
    RunningCounts(mag, counts, s, i);
    BeforeIsBelow(mag, |counts|, s, i);
    KthBelow(s, k, ValueFromIndex(mag, i));
    BucketsTouch(mag, i);
    ValueAtEnd(mag, buckets);
    if i + 1 < |counts| {
      RunningCounts(mag, counts, s, i + 1);
      BeforeIsBelow(mag, |counts|, s, i + 1);
      KthBelow(s, k, ValueFromIndex(mag, i + 1));
      ValuesGrow(mag, i, |counts|);
    }
    if x <= HighestEquivalent(mag, i) {
      RelativeError(mag, i, x);
    }
  }

  // --- sizing the array --------------------------------------------------------------------------

  /** The sizing loop's bound after `n` shifts, in a 64-bit word: what is shifted out is lost. */
  function Wrapped(mag: nat, n: nat): nat {
    Rem(Pow2(mag + 1 + n), Pow2(WIDTH))
  }

  lemma WrappedIs(mag: nat, n: nat, width: nat)
    ensures Rem(Pow2(mag + 1 + n), Pow2(width)) == if mag + 1 + n < width then Pow2(mag + 1 + n) else 0
  {
    var e := mag + 1 + n;
    if e < width {
      Pow2Monotone(e + 1, width);
    } else {
      Pow2Add(e - width, width);
      hide Pow2;
      DivRemIs(Pow2(e), Pow2(width), Pow2(e - width), 0);
    }
  }

  /** One more shift of the wrapped bound. */
  lemma ShiftWraps(mag: nat, n: nat, width: nat)
    ensures Rem(Pow2(mag + 1 + (n + 1)), Pow2(width)) == Rem(2 * Rem(Pow2(mag + 1 + n), Pow2(width)), Pow2(width))
  {
    WrappedIs(mag, n, width);
    WrappedIs(mag, n + 1, width);
    assert Pow2(mag + 1 + (n + 1)) == 2 * Pow2(mag + 1 + n);
  }

  /** `Wrapped` is what the loop computes: it starts at the sub-bucket count and doubles in 64 bits. */
  lemma WrappedSteps(mag: nat, n: nat)
    requires mag + 1 < WIDTH
    ensures Wrapped(mag, 0) == 2 * Half(mag)
    ensures Wrapped(mag, n + 1) == Rem(2 * Wrapped(mag, n), Pow2(WIDTH))
  {
    hide Pow2, Rem;
    ShiftWraps(mag, n, WIDTH);
    WrappedIs(mag, 0, WIDTH);
    Doubled(mag);
  }

  /** The loop reaches a bound that is large enough, and so ends, if and only if the value to be
      tracked is at most 2^63. Past that the bound is shifted out to zero for good. */
  lemma SizingEndsExactlyWhen(mag: nat, highest: nat)
    requires mag + 1 < WIDTH && highest < Pow2(WIDTH)
    ensures (exists n: nat :: Wrapped(mag, n) >= highest) <==> highest <= Pow2(WIDTH - 1)
  {
    hide Pow2, Rem;
    if highest <= Pow2(WIDTH - 1) {
      WrappedIs(mag, WIDTH - 2 - mag, WIDTH);
      assert Wrapped(mag, WIDTH - 2 - mag) >= highest;
    }
    forall n: nat ensures Wrapped(mag, n) <= Pow2(WIDTH - 1) {
      WrappedIs(mag, n, WIDTH);
      if mag + 1 + n < WIDTH { Pow2Monotone(mag + 1 + n, WIDTH - 1); }
    }
  }

  /** A concrete failure: asked to track 2^63 + 1 the loop never ends, whatever the magnitude. */
  lemma SizingNeverEnds(mag: nat, n: nat)
    requires mag + 1 < WIDTH
    ensures Wrapped(mag, n) < Pow2(WIDTH - 1) + 1 < Pow2(WIDTH)
  {
    Doubled(WIDTH - 1);
    Pow2Monotone(1, WIDTH - 1);
    assert Pow2(1) == 2;
    hide Pow2, Rem;
    SizingEndsExactlyWhen(mag, Pow2(WIDTH - 1) + 1);
  }

  /** The number of half-buckets: enough to track every value below `highest`, and no more. */
  method Sizing(mag: nat, highest: nat) returns (n: nat)
    requires mag + 1 < WIDTH && highest <= Pow2(WIDTH - 1)
    ensures n >= 1 && highest <= Untrackable(mag, n) <= Pow2(WIDTH - 1)
    ensures n > 1 ==> Untrackable(mag, n - 1) < highest
  {
    hide Pow2;
    var smallest := 2 * Half(mag);
    n := 1;
    Untracked(mag, 0);
    Pow2Monotone(mag + 1, WIDTH - 1);
    while smallest < highest
      invariant n >= 1 && smallest == Untrackable(mag, n) <= Pow2(WIDTH - 1)
      invariant n > 1 ==> Untrackable(mag, n - 1) < highest
      decreases highest - smallest
    {
      Untracked(mag, n);
      NotYetTop(mag + n, WIDTH - 1);
      Shifted(smallest, WIDTH);
      smallest := Rem(2 * smallest, Pow2(WIDTH));
      n := n + 1;
    }
  }

  /** A shift that stays below the top of the word loses nothing. */
  lemma Shifted(x: nat, width: nat)
    requires width > 0 && 2 * x <= Pow2(width - 1)
    ensures Rem(2 * x, Pow2(width)) == 2 * x
  {
    assert Pow2(width) == 2 * Pow2(width - 1);
  }

  class Histogram {
    const mag: nat
    const buckets: nat
    var counts: seq<nat>
    var total: nat
    var sum: nat
    var min: nat
    var max: nat

    ghost predicate Shaped()
      reads this
    {
      mag >= 1 && mag + 1 < WIDTH && |counts| == Slots(mag, buckets)
    }

    /** The histogram stands for the samples `s`. */
    ghost predicate Holds(s: seq<nat>)
      reads this
    {
      && Shaped() && InRange(s) && Tallies(mag, counts, s)
      && total == |s| && sum == Sum(s) && min == Least(s) && max == Greatest(s)
    }

    /** Enough half-buckets to track every value below `highest`, and no more. */
    constructor (subHalfMag: nat, highest: nat)
      requires 1 <= subHalfMag && subHalfMag + 1 < WIDTH && highest <= Pow2(WIDTH - 1)
      ensures Holds([]) && mag == subHalfMag
      ensures buckets >= 1 && highest <= Untrackable(mag, buckets) <= Pow2(WIDTH - 1)
      ensures buckets > 1 ==> Untrackable(mag, buckets - 1) < highest
    {
      hide Pow2, Tallies, CountsIndex, Count, Untrackable;
      mag := subHalfMag;
      var n := Sizing(subHalfMag, highest);
      buckets := n;
      counts := seq((n + 1) * Half(subHalfMag), _ => 0);
      total, sum, min, max := 0, 0, UINT64_MAX, 0;
      new;
      NoTallies(mag, counts);
    }

    method Record(value: nat, ghost s: seq<nat>)
      requires Holds(s) && value < Pow2(WIDTH)
      modifies this
      ensures Holds(s + [value])
    {
      hide CountsIndex, Pow2, Tallies, InRange, Slots, Sum, Least, Greatest, ValueFromIndex, Span;
      ghost var was := counts;
      ValueInItsBucket(mag, value);
      SlotsPositive(mag, buckets);
      var idx := CountsIndex(mag, value);
      if idx >= |counts| {
        counts := counts[|counts| - 1 := counts[|counts| - 1] + 1];
      } else {
        counts := counts[idx := counts[idx] + 1];
      }
      total := total + 1;
      sum := sum + value;
      if value < min {
        min := value;
      }
      if value > max {
        max := value;
      }
      TallySnoc(mag, was, counts, s, value);
      TotalsSnoc(s, value);
    }

    /** Adds the other's counts slot by slot. Between equal configurations the result stands for
        both lists of samples together. */
    method Merge(other: Histogram, ghost s: seq<nat>, ghost t: seq<nat>)
      requires Holds(s) && other.Holds(t)
      modifies this
      ensures |counts| == |old(counts)|
      ensures forall i :: 0 <= i < |counts| ==>
                counts[i] == old(counts)[i] + if i < |old(other.counts)| then old(other.counts)[i] else 0
      ensures total == old(total) + old(other.total)
      ensures other.mag == mag && other.buckets == buckets ==> Holds(s + t)
    {
      hide CountsIndex, Pow2, Sum, Least, Greatest;
      ghost var was, theirs := counts, other.counts;
      var n := if |counts| <= |other.counts| then |counts| else |other.counts|;
      for i := 0 to n
        invariant |counts| == |was| && |other.counts| == |theirs|
        invariant total == old(total) && sum == old(sum) && min == old(min) && max == old(max)
        invariant forall k :: 0 <= k < i ==> counts[k] == was[k] + theirs[k]
        invariant forall k :: i <= k < |counts| ==> counts[k] == was[k]
        invariant forall k :: i <= k < |theirs| ==> other.counts[k] == theirs[k]
      {
        counts := counts[i := counts[i] + other.counts[i]];
      }
      var otherMin, otherMax := other.min, other.max;
      total := total + other.total;
      sum := sum + other.sum;
      if otherMin < min {
        min := otherMin;
      }
      if otherMax > max {
        max := otherMax;
      }
      TotalsConcat(s, t);
      if other.mag == mag && other.buckets == buckets {
        TallyConcat(mag, was, theirs, counts, s, t);
      }
    }

    /** The first value the array cannot track. */
    method Bound() returns (b: nat)
      ensures b == Untrackable(mag, buckets)
    {
      b := Untrackable(mag, buckets);
    }

    method Reset()
      requires Shaped()
      modifies this
      ensures Holds([])
    {
      counts := seq(|counts|, _ => 0);
      total, sum, min, max := 0, 0, UINT64_MAX, 0;
      NoTallies(mag, counts);
    }

    /** The value at a rank. The answer is not below the sample of that rank if and only if the
        sample is trackable; it then exceeds it by at most one part in the half-count, and is the
        top value otherwise. */
    method Percentile(rank: nat, ghost s: seq<nat>) returns (r: nat)
      requires Holds(s)
      ensures s == [] ==> r == 0
      ensures var k := if rank == 0 then 1 else rank;
              && (1 <= k <= |s| ==> Answers(mag, buckets, Kth(s, k), r))
              && (1 <= k <= |s| ==> (Kth(s, k) <= r <==> Kth(s, k) < Untrackable(mag, buckets)))
              && (s != [] && k > |s| ==> r == Greatest(s))
    {
      hide CountsIndex, Pow2, Greatest, Count, Kth, Answers, ValueFromIndex, Span, Slots;
      if total == 0 {
        return 0;
      }
      var target := if rank == 0 then 1 else rank;
      var running: nat := 0;
      SlotsPositive(mag, buckets);
      for i := 0 to |counts|
        invariant running == Running(counts, i) < target
      {
        running := running + counts[i];
        if running >= target {
          EndOfRun(mag, counts, s, i + 1);
          ScanAnswers(mag, buckets, counts, s, target, i);
          return HighestEquivalent(mag, i);
        }
      }
      EndOfRun(mag, counts, s, |counts|);
      return max;
    }
  }

  /** A single sample, in any configuration, is under-reported if and only if it is untrackable. */
  method SingleSample(subHalfMag: nat, highest: nat, value: nat) returns (bound: nat, r: nat)
    requires 1 <= subHalfMag && subHalfMag + 1 < WIDTH && highest <= Pow2(WIDTH - 1)
    requires value < Pow2(WIDTH)
    ensures exists n: nat :: n >= 1 && bound == Untrackable(subHalfMag, n)
                             && (n > 1 ==> Untrackable(subHalfMag, n - 1) < highest)
    ensures highest <= bound && (r < value <==> bound <= value) && (bound <= value ==> r == bound - 1)
  {
    hide Pow2, Histogram.Holds, Histogram.Shaped, Untrackable, Kth, Answers, Greatest;
    var h := new Histogram(subHalfMag, highest);
    h.Record(value, []);
    KthOfOne(value);
    r := h.Percentile(1, [] + [value]);
    bound := h.Bound();
    AnswerForOne(h.mag, h.buckets, value, r);
  }

  lemma KthOfOne(x: nat)
    ensures [] + [x] == [x] && Kth([x], 1) == x
  {
    assert [x][..0] == [];
    assert Sort([x]) == [x];
  }

  lemma AnswerForOne(mag: nat, buckets: nat, x: nat, r: nat)
    requires Answers(mag, buckets, x, r)
    ensures var bound := Untrackable(mag, buckets); (r < x <==> bound <= x) && (bound <= x ==> r == bound - 1)
  {
    hide Untrackable, Half;
  }

  lemma Pow2Of36()
    ensures Pow2(35) == 34_359_738_368 && Pow2(36) == 68_719_476_736
  {
    assert Pow2(4) == 16;
    Pow2Add(4, 4);
    Pow2Add(8, 8);
    Pow2Add(16, 16);
    hide Pow2;
    assert Pow2(32) == 4_294_967_296;
    Doubled(32);
    Doubled(33);
    Doubled(34);
    Doubled(35);
  }

  lemma Doubled(k: nat)
    ensures Pow2(k + 1) == 2 * Pow2(k)
  {
  }

  /** A concrete failure in the default configuration (three figures, up to a minute): a sample of
      2^36 ns is reported as one nanosecond less. */
  method OverAMinuteIsUnderReported() returns (r: nat)
    ensures r == 68_719_476_735 < 68_719_476_736
  {
    Pow2Of36();
    Pow2Monotone(36, WIDTH - 1);
    Pow2Monotone(36, WIDTH);
    Doubled(WIDTH - 1);
    hide Pow2, Untrackable;
    var bound;
    bound, r := SingleSample(10, 60_000_000_000, 68_719_476_736);
    ghost var n: nat :| n >= 1 && bound == Untrackable(10, n) && (n > 1 ==> Untrackable(10, n - 1) < 60_000_000_000);
    OverAMinuteBound(n);
  }

  lemma OverAMinuteBound(n: nat)
    requires n >= 1 && 60_000_000_000 <= Untrackable(10, n) && (n > 1 ==> Untrackable(10, n - 1) < 60_000_000_000)
    ensures Untrackable(10, n) == 68_719_476_736
  {
    Pow2Of36();
    hide Pow2;
    if n <= 25 {
      Pow2Monotone(10 + n, 35);
    } else if n >= 27 {
      Pow2Monotone(36, 10 + n - 1);
    }
  }

  /** Running totals never exceed the number of samples, and end at it. */
  lemma EndOfRun(mag: nat, counts: seq<nat>, s: seq<nat>, i: nat)
    requires mag + 1 < WIDTH && counts != [] && Tallies(mag, counts, s) && InRange(s) && i <= |counts|
    ensures Running(counts, i) <= |s| && (i == |counts| ==> Running(counts, i) == |s|)
  {
    RunningCounts(mag, counts, s, i);
    AllBeforeEnd(mag, |counts|, s);
  }

  lemma SlotsPositive(mag: nat, buckets: nat)
    ensures Slots(mag, buckets) > 0
  {
    MulOrder(1, buckets + 1, Half(mag));
  }

  lemma NoTallies(mag: nat, counts: seq<nat>)
    requires mag < WIDTH && forall i :: 0 <= i < |counts| ==> counts[i] == 0
    ensures Tallies(mag, counts, [])
  {
  }

  lemma TallySnoc(mag: nat, was: seq<nat>, now: seq<nat>, s: seq<nat>, v: nat)
    requires mag < WIDTH && Tallies(mag, was, s) && |now| == |was| > 0
    requires var i := Slot(mag, |was|, v); 0 <= i < |was| && now == was[i := was[i] + 1]
    ensures Tallies(mag, now, s + [v])
  {
    hide Slot, Count;
    forall i | 0 <= i < |now| ensures now[i] == Count(s + [v], At(mag, |now|, i)) {
      CountSnoc(s, v, At(mag, |now|, i));
    }
  }

  lemma TallyConcat(mag: nat, a: seq<nat>, b: seq<nat>, sum: seq<nat>, s: seq<nat>, t: seq<nat>)
    requires mag < WIDTH && |a| == |b| == |sum| && Tallies(mag, a, s) && Tallies(mag, b, t)
    requires forall i :: 0 <= i < |sum| ==> sum[i] == a[i] + b[i]
    ensures Tallies(mag, sum, s + t)
  {
    hide Count;
    forall i | 0 <= i < |sum| ensures sum[i] == Count(s + t, At(mag, |sum|, i)) {
      CountConcat(s, t, At(mag, |sum|, i));
    }
  }

  lemma Untracked(mag: nat, n: nat)
    ensures Untrackable(mag, n + 1) == 2 * Untrackable(mag, n) && Untrackable(mag, 0) == Half(mag)
  {
    assert Pow2(mag + n + 1) == 2 * Pow2(mag + n);
  }

  lemma NotYetTop(a: nat, b: nat)
    requires Pow2(a) < Pow2(b)
    ensures 2 * Pow2(a) <= Pow2(b)
  {
    if b <= a { Pow2Monotone(b, a); } else { Pow2Monotone(a + 1, b); }
  }
}

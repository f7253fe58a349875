/** The two-level occupancy bitset: one bit per price level, one summary bit per word.

    `Summarizes` says that a summary bit is set exactly for the words that are not zero. It is
    kept by every change of a bit and is what lets a scan skip empty words without missing a
    set one.
*/
module Occupancy {
  import opened Bits

  /** Bit `k` of word `a`. */
  predicate Mark(v: seq<bv64>, a: nat, k: nat)
    requires a < |v| && k < 64
  {
    Bit(v[a], k)
  }

  predicate NonZero(x: bv64) {
    x != 0
  }

  /** The bit for position `i`. */
  predicate BitAt(v: seq<bv64>, i: nat)
    requires i / 64 < |v|
  {
    Mark(v, i / 64, i % 64)
  }

  /** A summary bit is set exactly when its word is non-zero. */
  ghost predicate Summarizes(words: seq<bv64>, summary: seq<bv64>) {
    && |summary| == (|words| + 63) / 64
    && forall a: nat, k: nat :: a < |summary| && k < 64 ==>
         (Mark(summary, a, k) <==> a * 64 + k < |words| && NonZero(words[a * 64 + k]))
  }

  /** `after` differs from `before` in one word, where bit `k` became `on`. */
  ghost predicate Changed(before: seq<bv64>, after: seq<bv64>, w: nat, k: nat, on: bool) {
    && |after| == |before|
    && forall a: nat, j: nat :: a < |before| && j < 64 ==>
         (Mark(after, a, j) <==> if a == w && j == k then on else Mark(before, a, j))
  }

  /** `v` with bit `k` of word `w` set: `v[w] |= 1 << k`. */
  function SetIn(v: seq<bv64>, w: nat, k: nat): (z: seq<bv64>)
    requires w < |v| && k < 64
    ensures |z| == |v|
  {
    v[w := WithBit(v[w], k)]
  }

  /** `v` with bit `k` of word `w` cleared: `v[w] &= ~(1 << k)`. */
  function ClearIn(v: seq<bv64>, w: nat, k: nat): (z: seq<bv64>)
    requires w < |v| && k < 64
    ensures |z| == |v|
  {
    v[w := WithoutBit(v[w], k)]
  }

  lemma SetChanges(v: seq<bv64>, w: nat, k: nat)
    requires w < |v| && k < 64
    ensures Changed(v, SetIn(v, w, k), w, k, true)
  {
    hide Bit, WithBit;
    var z := SetIn(v, w, k);
    forall a: nat, j: nat | a < |v| && j < 64
      ensures Mark(z, a, j) <==> if a == w && j == k then true else Mark(v, a, j)
    {
      if a == w { SetBits(v[w], k, j); }
    }
  }

  lemma ClearChanges(v: seq<bv64>, w: nat, k: nat)
    requires w < |v| && k < 64
    ensures Changed(v, ClearIn(v, w, k), w, k, false)
  {
    hide Bit, WithoutBit;
    var z := ClearIn(v, w, k);
    forall a: nat, j: nat | a < |v| && j < 64
      ensures Mark(z, a, j) <==> if a == w && j == k then false else Mark(v, a, j)
    {
      if a == w { ClearBits(v[w], k, j); }
    }
  }

  /** A word is non-zero exactly when one of its bits is set. */
  lemma WordOccupied(v: seq<bv64>, a: nat)
    requires a < |v|
    ensures !NonZero(v[a]) <==> forall k: nat :: k < 64 ==> !Mark(v, a, k)
  {
    ZeroWord(v[a]);
    hide Bit;
    if forall k: nat :: k < 64 ==> !Mark(v, a, k) {
      forall k | 0 <= k < 64 ensures !Bit(v[a], k) { assert !Mark(v, a, k); }
    }
  }

  lemma Split64(a: nat, k: nat, w: nat)
    requires k < 64
    ensures a * 64 + k == w <==> a == w / 64 && k == w % 64
  {
  }

  /** After one word changed, the summary is right again if its bit is set to whether the
      word is non-zero, and it may be left alone if that has not changed. */
  lemma Resummarize(words: seq<bv64>, words': seq<bv64>, summary: seq<bv64>, summary': seq<bv64>, w: nat)
    requires Summarizes(words, summary) && |words'| == |words| && w < |words|
    requires forall v :: 0 <= v < |words| && v != w ==> words'[v] == words[v]
    requires || (summary' == summary && NonZero(words'[w]) == NonZero(words[w]))
             || Changed(summary, summary', w / 64, w % 64, NonZero(words'[w]))
    ensures Summarizes(words', summary')
  {
    hide Mark, NonZero;
    forall a: nat, k: nat | a < |summary'| && k < 64
      ensures Mark(summary', a, k) <==> a * 64 + k < |words'| && NonZero(words'[a * 64 + k])
    {
      Split64(a, k, w);
      assert Mark(summary, a, k) <==> a * 64 + k < |words| && NonZero(words[a * 64 + k]);
    }
  }

  /** Marking position (`w`, `k`) in both levels. */
  lemma SetMarks(words: seq<bv64>, summary: seq<bv64>, w: nat, k: nat)
    requires Summarizes(words, summary) && w < |words| && k < 64
    ensures w / 64 < |summary|
    ensures Changed(words, SetIn(words, w, k), w, k, true)
    ensures Summarizes(SetIn(words, w, k), SetIn(summary, w / 64, w % 64))
  {
    var words' := SetIn(words, w, k);
    assert forall v :: 0 <= v < |words| && v != w ==> words'[v] == words[v];
    hide SetIn, Mark, NonZero, Changed;
    SetChanges(words, w, k);
    SetChanges(summary, w / 64, w % 64);
    NonZeroAfterSet(words, words', w, k);
    Resummarize(words, words', summary, SetIn(summary, w / 64, w % 64), w);
  }

  lemma NonZeroAfterSet(words: seq<bv64>, words': seq<bv64>, w: nat, k: nat)
    requires w < |words| && k < 64 && Changed(words, words', w, k, true)
    ensures NonZero(words'[w])
  {
    WordOccupied(words', w);
    hide Mark, NonZero;
    assert Mark(words', w, k);
  }

  lemma NonZeroBeforeClear(words: seq<bv64>, words': seq<bv64>, w: nat, k: nat)
    requires w < |words| && k < 64 && Changed(words, words', w, k, false) && NonZero(words'[w])
    ensures NonZero(words[w])
  {
    WordOccupied(words', w);
    WordOccupied(words, w);
    hide Mark, NonZero;
    var j: nat :| j < 64 && Mark(words', w, j);
    assert Mark(words, w, j);
  }

  /** Unmarking position (`w`, `k`); the summary bit goes only with the word's last bit. */
  lemma ClearMarks(words: seq<bv64>, summary: seq<bv64>, w: nat, k: nat)
    requires Summarizes(words, summary) && w < |words| && k < 64
    ensures w / 64 < |summary|
    ensures Changed(words, ClearIn(words, w, k), w, k, false)
    ensures var words' := ClearIn(words, w, k);
            Summarizes(words', if words'[w] == 0 then ClearIn(summary, w / 64, w % 64) else summary)
  {
    var words' := ClearIn(words, w, k);
    assert forall v :: 0 <= v < |words| && v != w ==> words'[v] == words[v];
    hide ClearIn, Mark, Changed;
    ClearChanges(words, w, k);
    ClearChanges(summary, w / 64, w % 64);
    if words'[w] == 0 {
      Resummarize(words, words', summary, ClearIn(summary, w / 64, w % 64), w);
    } else {
      NonZeroBeforeClear(words, words', w, k);
      Resummarize(words, words', summary, summary, w);
    }
  }

  /** Bit scans of a non-zero word, as marks. */
  lemma ScanMarks(v: seq<bv64>, a: nat)
    requires a < |v| && v[a] != 0
    ensures var hi := 63 - CountlZero(v[a]);
            0 <= hi < 64 && Mark(v, a, hi) && forall k: nat :: hi < k < 64 ==> !Mark(v, a, k)
    ensures var lo := CountrZero(v[a]);
            lo < 64 && Mark(v, a, lo) && forall k: nat :: k < lo ==> !Mark(v, a, k)
  {
    hide Bit, CountlZero, CountrZero;
    BitScans(v[a]);
    assert forall k: nat :: k < 64 ==> Mark(v, a, k) == Bit(v[a], k);
  }

  /** No position from word `w` up is marked. */
  ghost predicate NoneFrom(words: seq<bv64>, w: nat) {
    forall a: nat, k: nat :: w <= a < |words| && k < 64 ==> !Mark(words, a, k)
  }

  ghost predicate NoneBelow(words: seq<bv64>, w: nat) {
    forall a: nat, k: nat :: a < w && a < |words| && k < 64 ==> !Mark(words, a, k)
  }

  /** The words whose summary bits are clear have no marks. */
  lemma UnsummarizedWord(words: seq<bv64>, summary: seq<bv64>, s: nat, j: nat)
    requires Summarizes(words, summary) && s < |summary| && j < 64 && !Mark(summary, s, j)
    ensures var a := s * 64 + j; a < |words| ==> forall k: nat :: k < 64 ==> !Mark(words, a, k)
  {
    hide Mark;
    if s * 64 + j < |words| { WordOccupied(words, s * 64 + j); }
  }

  lemma ZeroSummary(words: seq<bv64>, summary: seq<bv64>, s: nat)
    requires Summarizes(words, summary) && s < |summary| && summary[s] == 0
    ensures forall a: nat, k: nat :: s * 64 <= a < s * 64 + 64 && a < |words| && k < 64 ==> !Mark(words, a, k)
  {
    WordOccupied(summary, s);
    hide Mark, Summarizes;
    forall a: nat, k: nat | s * 64 <= a < s * 64 + 64 && a < |words| && k < 64 ensures !Mark(words, a, k) {
      UnsummarizedWord(words, summary, s, a - s * 64);
    }
  }

  /** The top word found through the summary holds the highest mark. */
  lemma HighestFound(words: seq<bv64>, summary: seq<bv64>, s: nat, word: int)
    requires Summarizes(words, summary) && s < |summary| && summary[s] != 0 && NoneFrom(words, s * 64 + 64)
    requires word == s * 64 + (63 - CountlZero(summary[s]))
    ensures 0 <= word < |words| && words[word] != 0 && NoneFrom(words, word + 1)
  {
    ScanMarks(summary, s);
    var hi := 63 - CountlZero(summary[s]);
    hide Mark, CountlZero, Bit, Summarizes;
    MarkedWord(words, summary, s, hi);
    NoneAbove(words, summary, s, hi);
  }

  /** A summary mark points at a word that is not zero. */
  lemma MarkedWord(words: seq<bv64>, summary: seq<bv64>, s: nat, j: nat)
    requires Summarizes(words, summary) && s < |summary| && j < 64 && Mark(summary, s, j)
    ensures s * 64 + j < |words| && words[s * 64 + j] != 0
  {
    hide Mark;
    assert NonZero(words[s * 64 + j]);
  }

  lemma NoneAbove(words: seq<bv64>, summary: seq<bv64>, s: nat, j: nat)
    requires Summarizes(words, summary) && s < |summary| && NoneFrom(words, s * 64 + 64)
    requires forall i: nat :: j < i < 64 ==> !Mark(summary, s, i)
    ensures NoneFrom(words, s * 64 + j + 1)
  {
    hide Mark;
    forall a: nat, k: nat | s * 64 + j + 1 <= a < |words| && k < 64 ensures !Mark(words, a, k) {
      if a < s * 64 + 64 {
        assert !Mark(summary, s, a - s * 64);
        UnsummarizedWord(words, summary, s, a - s * 64);
      }
    }
  }

  /** The bottom word found through the summary holds the lowest mark. */
  lemma LowestFound(words: seq<bv64>, summary: seq<bv64>, s: nat, word: int)
    requires Summarizes(words, summary) && s < |summary| && summary[s] != 0 && NoneBelow(words, s * 64)
    requires word == s * 64 + CountrZero(summary[s])
    ensures 0 <= word < |words| && words[word] != 0 && NoneBelow(words, word)
  {
    ScanMarks(summary, s);
    var lo := CountrZero(summary[s]);
    MarkedWord(words, summary, s, lo);
    hide Mark, CountrZero, Bit, Summarizes;
    forall a: nat, k: nat | a < word && a < |words| && k < 64 ensures !Mark(words, a, k) {
      if a >= s * 64 { UnsummarizedWord(words, summary, s, a - s * 64); }
    }
  }

  lemma TopMark(words: seq<bv64>, word: nat, bit: int)
    requires word < |words| && words[word] != 0 && bit == 63 - CountlZero(words[word])
    ensures var r := word * 64 + bit;
            r >= 0 && r / 64 == word && Mark(words, r / 64, r % 64)
            && forall k: nat :: r % 64 < k < 64 ==> !Mark(words, r / 64, k)
  {
    ScanMarks(words, word);
    hide Mark, CountlZero;
    assert (word * 64 + bit) / 64 == word && (word * 64 + bit) % 64 == bit;
  }

  lemma BottomMark(words: seq<bv64>, word: nat, bit: nat)
    requires word < |words| && words[word] != 0 && bit == CountrZero(words[word])
    ensures var r := word * 64 + bit;
            r / 64 == word && Mark(words, r / 64, r % 64) && forall k: nat :: k < r % 64 ==> !Mark(words, r / 64, k)
  {
    ScanMarks(words, word);
    hide Mark, CountrZero;
    assert (word * 64 + bit) / 64 == word && (word * 64 + bit) % 64 == bit;
  }

  /** Highest marked position, or -1 when nothing is marked. */
  method HighestSet(words: seq<bv64>, summary: seq<bv64>) returns (r: int)
    requires Summarizes(words, summary)
    ensures -1 <= r < 64 * |words|
    ensures r == -1 ==> NoneFrom(words, 0)
    ensures r >= 0 ==> Mark(words, r / 64, r % 64) && NoneFrom(words, r / 64 + 1)
                       && forall k: nat :: r % 64 < k < 64 ==> !Mark(words, r / 64, k)
  {
    hide Mark, CountlZero;
    var w: nat := |summary|;
    while w > 0
      invariant w <= |summary| && NoneFrom(words, w * 64)
    {
      w := w - 1;
      if summary[w] == 0 {
        ZeroSummary(words, summary, w);
        continue;
      }
      var word := w * 64 + (63 - CountlZero(summary[w]));
      HighestFound(words, summary, w, word);
      var bit := 63 - CountlZero(words[word]);
      TopMark(words, word, bit);
      return word * 64 + bit;
    }
    return -1;
  }

  /** Lowest marked position, or -1 when nothing is marked. */
  method LowestSet(words: seq<bv64>, summary: seq<bv64>) returns (r: int)
    requires Summarizes(words, summary)
    ensures -1 <= r < 64 * |words|
    ensures r == -1 ==> NoneBelow(words, |words|)
    ensures r >= 0 ==> Mark(words, r / 64, r % 64) && NoneBelow(words, r / 64)
                       && forall k: nat :: k < r % 64 ==> !Mark(words, r / 64, k)
  {
    hide Mark, CountrZero;
    var w := 0;
    while w < |summary|
      invariant w <= |summary| && NoneBelow(words, w * 64)
    {
      if summary[w] == 0 {
        ZeroSummary(words, summary, w);
        w := w + 1;
        continue;
      }
      var word := w * 64 + CountrZero(summary[w]);
      LowestFound(words, summary, w, word);
      var bit := CountrZero(words[word]);
      BottomMark(words, word, bit);
      return word * 64 + bit;
    }
    return -1;
  }
}

/** One side of the bitset book: a dense array of levels over the price band, with a two-level
    occupancy bitset to find the best one. */
module OrderBookSide {
  import opened Types
  import opened Occupancy
  import opened ObjectPool
  import opened PriceLevel
  import opened Queues
  import opened SideBase

  /** The array cell for price `p`: its level if queued, an empty level if not. */
  ghost predicate Cell(mem: seq<Node>, l: Level, p: int, m: Ladder) {
    if p in m then LevelOk(mem, l, p, m[p]) else l == EMPTY
  }

  /** The dense array holds the level of every queued price at `price - lo`, empty elsewhere. */
  ghost predicate Dense(mem: seq<Node>, lo: int, levels: seq<Level>, m: Ladder) {
    && (forall p :: p in m ==> 0 <= p - lo < |levels|)
    && (forall i :: 0 <= i < |levels| ==> Cell(mem, levels[i], lo + i, m))
  }

  /** A bit is set exactly when its level is non-empty. */
  ghost predicate Marks(words: seq<bv64>, lo: int, span: nat, m: Ladder) {
    && |words| == (span + 63) / 64
    && (forall p :: p in m ==> lo <= p < lo + span)
    && forall a: nat, k: nat :: a < |words| && k < 64 ==> (Mark(words, a, k) <==> lo + a * 64 + k in m)
  }

  lemma MarksChange(words: seq<bv64>, words': seq<bv64>, lo: int, span: nat, m: Ladder, m': Ladder, i: nat, on: bool)
    requires Marks(words, lo, span, m) && i < span
    requires Changed(words, words', i / 64, i % 64, on)
    requires forall p :: p in m' <==> if p == lo + i then on else p in m
    ensures Marks(words', lo, span, m')
  {
    hide Mark;
    forall a: nat, k: nat | a < |words'| && k < 64 ensures Mark(words', a, k) <==> lo + a * 64 + k in m' {
      Split64(a, k, i);
    }
  }

  lemma AddDense(mem: seq<Node>, mem': seq<Node>, side: Side, lo: int, levels: seq<Level>, m: Ladder,
                 o: Ptr, lvl: Level)
    requires QueuesOk(mem, side, m) && Dense(mem, lo, levels, m)
    requires InStore(mem, o) && 0 <= mem[o].order.price - lo < |levels|
    requires var q := QueueAt(m, mem[o].order.price) + [o];
             OnlyLinks(mem, mem', q) && LevelOk(mem', lvl, mem[o].order.price, q)
    ensures var p := mem[o].order.price; Dense(mem', lo, levels[p - lo := lvl], AddTo(m, p, o))
  {
    var p := mem[o].order.price;
    var touched := QueueAt(m, p) + [o];
    AddOnlyAt(mem, mem', side, m, p, o);
    hide LevelOk, QueuesOk, OnlyLinks, OnlyAt;
    OtherCells(mem, mem', side, lo, levels, m, p, touched);
    var z, m' := levels[p - lo := lvl], AddTo(m, p, o);
    forall i | 0 <= i < |z| ensures Cell(mem', z[i], lo + i, m') {
      if i != p - lo { assert Cell(mem', levels[i], lo + i, m); }
    }
  }

  /** Relinking the cells of one price leaves every other array cell right. */
  lemma OtherCells(mem: seq<Node>, mem': seq<Node>, side: Side, lo: int, levels: seq<Level>, m: Ladder,
                   p: int, touched: seq<Ptr>)
    requires QueuesOk(mem, side, m) && Dense(mem, lo, levels, m) && OnlyAt(mem, mem', touched, p)
    ensures forall i :: 0 <= i < |levels| && lo + i != p ==> Cell(mem', levels[i], lo + i, m)
  {
    hide LevelOk, QueuesOk, OnlyAt;
    forall i | 0 <= i < |levels| && lo + i != p ensures Cell(mem', levels[i], lo + i, m) {
      if lo + i in m { OtherLevels(mem, mem', side, m, p, touched, lo + i, levels[i]); }
    }
  }

  lemma RemoveDense(mem: seq<Node>, mem': seq<Node>, side: Side, lo: int, levels: seq<Level>, m: Ladder,
                    p: int, k: nat, lvl: Level)
    requires QueuesOk(mem, side, m) && Dense(mem, lo, levels, m) && p in m && k < |m[p]|
    requires OnlyLinks(mem, mem', m[p]) && LevelOk(mem', lvl, p, Cut(m[p], k))
    ensures Empty(lvl) <==> |m[p]| == 1
    ensures Dense(mem', lo, levels[p - lo := if Empty(lvl) then lvl.(price := NO_PRICE) else lvl], RemoveFrom(m, p, k))
  {
    EmptyWhenCut(mem', lvl, p, m[p], k);
    RemoveOnlyAt(mem, mem', side, m, p);
    hide LevelOk, QueuesOk, OnlyLinks, OnlyAt, Cut, Cell;
    OtherCells(mem, mem', side, lo, levels, m, p, m[p]);
    var l := if Empty(lvl) then lvl.(price := NO_PRICE) else lvl;
    CellAfter(mem', l, p, m, k);
    forall i | 0 <= i < |levels| && i != p - lo ensures Cell(mem', levels[i], lo + i, RemoveFrom(m, p, k)) {
      CellBeside(mem', levels[i], lo + i, m, p, k);
    }
    DenseUpdate(mem', lo, levels, RemoveFrom(m, p, k), p, l);
  }

  lemma DenseUpdate(mem: seq<Node>, lo: int, levels: seq<Level>, m: Ladder, p: int, l: Level)
    requires 0 <= p - lo < |levels| && Cell(mem, l, p, m)
    requires forall p' :: p' in m ==> 0 <= p' - lo < |levels|
    requires forall i :: 0 <= i < |levels| && i != p - lo ==> Cell(mem, levels[i], lo + i, m)
    ensures Dense(mem, lo, levels[p - lo := l], m)
  {
    hide Cell;
  }

  lemma CellAfter(mem: seq<Node>, l: Level, p: int, m: Ladder, k: nat)
    requires p in m && k < |m[p]|
    requires if |m[p]| == 1 then l == EMPTY else LevelOk(mem, l, p, Cut(m[p], k))
    ensures Cell(mem, l, p, RemoveFrom(m, p, k))
  {
    hide LevelOk, Cut;
  }

  lemma CellBeside(mem: seq<Node>, l: Level, p': int, m: Ladder, p: int, k: nat)
    requires p in m && k < |m[p]| && p' != p && Cell(mem, l, p', m)
    ensures Cell(mem, l, p', RemoveFrom(m, p, k))
  {
    hide LevelOk, Cut;
  }

  lemma ReduceDense(mem: seq<Node>, side: Side, lo: int, levels: seq<Level>, m: Ladder, o: Ptr, n: nat)
    requires QueuesOk(mem, side, m) && Dense(mem, lo, levels, m)
    requires Queued(mem, m, o) && n <= mem[o].order.remaining
    ensures var i := mem[o].order.price - lo;
            && 0 <= i < |levels| && levels[i].totalQty >= n
            && Dense(Reduced(mem, o, n), lo, levels[i := levels[i].(totalQty := levels[i].totalQty - n)], m)
  {
    var p := mem[o].order.price;
    hide LevelOk;
    assert Cell(mem, levels[p - lo], lo + (p - lo), m);
    ReducedLevel(mem, side, m, o, n, p, levels[p - lo]);
    var z := levels[p - lo := levels[p - lo].(totalQty := levels[p - lo].totalQty - n)];
    forall i | 0 <= i < |z| ensures Cell(Reduced(mem, o, n), z[i], lo + i, m) {
      assert Cell(mem, levels[i], lo + i, m);
      if i != p - lo && lo + i in m { ReducedLevel(mem, side, m, o, n, lo + i, levels[i]); }
    }
  }

  /** The highest mark is the highest queued price, the lowest mark the lowest. */
  lemma HighestIsBest(words: seq<bv64>, lo: int, span: nat, m: Ladder, r: nat)
    requires Marks(words, lo, span, m) && r < 64 * |words|
    requires Mark(words, r / 64, r % 64) && NoneFrom(words, r / 64 + 1)
    requires forall k: nat :: r % 64 < k < 64 ==> !Mark(words, r / 64, k)
    ensures IsBest(Buy, m.Keys, lo + r)
  {
    hide Mark;
    assert lo + r / 64 * 64 + r % 64 == lo + r;
    forall p | p in m && p != lo + r ensures p < lo + r {
      var i := p - lo;
      assert Mark(words, i / 64, i % 64);
    }
  }

  lemma LowestIsBest(words: seq<bv64>, lo: int, span: nat, m: Ladder, r: nat)
    requires Marks(words, lo, span, m) && r < 64 * |words|
    requires Mark(words, r / 64, r % 64) && NoneBelow(words, r / 64)
    requires forall k: nat :: k < r % 64 ==> !Mark(words, r / 64, k)
    ensures IsBest(Sell, m.Keys, lo + r)
  {
    hide Mark;
    assert lo + r / 64 * 64 + r % 64 == lo + r;
    forall p | p in m && p != lo + r ensures p > lo + r {
      var i := p - lo;
      assert Mark(words, i / 64, i % 64);
    }
  }

  lemma NoMarksNoQueues(words: seq<bv64>, lo: int, span: nat, m: Ladder)
    requires Marks(words, lo, span, m)
    requires NoneFrom(words, 0) || NoneBelow(words, |words|)
    ensures m == map[]
  {
    if m != map[] {
      var p := Pick(m.Keys);
      MarkedSomewhere(words, lo, span, m, p);
    }
  }

  lemma MarkedSomewhere(words: seq<bv64>, lo: int, span: nat, m: Ladder, p: int)
    requires Marks(words, lo, span, m)
    ensures p in m ==> !NoneFrom(words, 0) && !NoneBelow(words, |words|)
  {
    hide Mark;
    if p in m {
      var i := p - lo;
      assert Mark(words, i / 64, i % 64);
    }
  }

  /** Every queued price not yet visited is no better than `from`, and vice versa. */
  ghost predicate Unvisited(side: Side, m: Ladder, left: Ladder, from: int) {
    && (forall p :: p in left ==> p in m && left[p] == m[p] && !Better(side, p, from))
    && (forall p :: p in m && p !in left ==> Better(side, p, from))
  }

  /** `r` is the best queued price strictly worse than `from`. */
  ghost predicate NextBest(side: Side, m: Ladder, from: int, r: int) {
    && r in m && Better(side, from, r)
    && forall p :: p in m && Better(side, from, p) && p != r ==> Better(side, r, p)
  }

  ghost predicate NothingWorse(side: Side, m: Ladder, from: int) {
    forall p :: p in m ==> !Better(side, from, p)
  }

  lemma StillWorse(side: Side, m: Ladder, left: Ladder, from: int, p: int)
    requires Unvisited(side, m, left, from) && from in left
    ensures p in left && p != from ==> p in m && Better(side, from, p)
  {
  }

  /** Moving the walk one price inward. */
  lemma WalkStep(side: Side, m: Ladder, left: Ladder, from: int, r: Option<int>)
    requires Unvisited(side, m, left, from) && from in left
    requires r.Some? ==> NextBest(side, m, from, r.value)
    requires r.None? ==> NothingWorse(side, m, from)
    ensures var rest := left - {from};
            && (r.Some? ==> Unvisited(side, m, rest, r.value) && r.value in rest)
            && (r.None? ==> rest == map[])
  {
    var rest := left - {from};
    if r.None? && rest != map[] {
      var p := Pick(rest.Keys);
      StillWorse(side, m, left, from, p);
    }
  }

  class BitsetSide {
    const side: Side
    const minPrice: int
    const maxPrice: int
    const span: nat
    var levels: seq<Level>
    var words: seq<bv64>
    var summary: seq<bv64>
    var count: nat
    ghost var queues: Ladder

    ghost predicate Valid(mem: seq<Node>)
      reads this
    {
      && SideOk(mem, side, minPrice, maxPrice, queues, count)
      && span == maxPrice - minPrice + 1 && |levels| == span
      && Dense(mem, minPrice, levels, queues)
      && Marks(words, minPrice, span, queues)
      && Summarizes(words, summary)
    }

    constructor (s: Side, lo: int, hi: int)
      requires lo <= hi
      ensures side == s && minPrice == lo && maxPrice == hi && queues == map[]
      ensures forall mem :: Valid(mem)
    {
      side, minPrice, maxPrice, span := s, lo, hi, hi - lo + 1;
      levels := seq(hi - lo + 1, i => EMPTY);
      words := seq((hi - lo + 1 + 63) / 64, i => 0);
      summary := seq(((hi - lo + 1 + 63) / 64 + 63) / 64, i => 0);
      count, queues := 0, map[];
      new;
      AllClear(words, summary);
      hide Mark;
    }

    /** Changes outside the queued cells do not matter. */
    lemma Frame(mem: seq<Node>, mem': seq<Node>)
      requires Valid(mem) && SameCells(mem, mem', queues)
      ensures Valid(mem')
    {
      FrameOk(mem, mem', side, minPrice, maxPrice, queues, count);
      hide LevelOk, QueueOk, SameCells, Flatten, Marks, Summarizes;
      forall i | 0 <= i < |levels| ensures Cell(mem', levels[i], minPrice + i, queues) {
        assert Cell(mem, levels[i], minPrice + i, queues);
        if minPrice + i in queues { FrameLevel(mem, mem', side, queues, minPrice + i, levels[i]); }
      }
    }

    method SetBit(i: nat)
      requires i < span && |words| == (span + 63) / 64 && Summarizes(words, summary)
      modifies this`words, this`summary
      ensures Changed(old(words), words, i / 64, i % 64, true) && Summarizes(words, summary)
    {
      hide Changed, Summarizes, SetIn;
      SetMarks(words, summary, i / 64, i % 64);
      words := SetIn(words, i / 64, i % 64);
      summary := SetIn(summary, i / 64 / 64, i / 64 % 64);
    }

    method ClearBit(i: nat)
      requires i < span && |words| == (span + 63) / 64 && Summarizes(words, summary)
      modifies this`words, this`summary
      ensures Changed(old(words), words, i / 64, i % 64, false) && Summarizes(words, summary)
    {
      hide Changed, Summarizes, ClearIn;
      ClearMarks(words, summary, i / 64, i % 64);
      var w := i / 64;
      words := ClearIn(words, w, i % 64);
      if words[w] == 0 {
        summary := ClearIn(summary, w / 64, w % 64);
      }
    }

    method Add(pool: Pool, o: Ptr)
      requires Valid(pool.storage) && InStore(pool.storage, o) && !Queued(pool.storage, queues, o)
      requires var x := pool.storage[o].order; x.side == side && minPrice <= x.price <= maxPrice && x.price != NO_PRICE
      modifies this, pool`storage
      ensures Valid(pool.storage) && Relinked(old(pool.storage), pool.storage, side)
      ensures queues == AddTo(old(queues), pool.storage[o].order.price, o)
    {
      hide QueuesOk, Flatten, Holds, OnlyLinks, Relinked, Summarizes, Mark;
      ghost var mem := pool.storage;
      ghost var was := words;
      var p := pool.storage[o].order.price;
      var i := p - minPrice;
      var lvl := levels[i];
      var wasEmpty := Empty(lvl);
      EmptyWhenAbsent(mem, side, minPrice, levels, queues, p);
      if wasEmpty {
        lvl := lvl.(price := p);
      }
      ReadyToPush(mem, side, queues, o, lvl);
      lvl := PushBack(lvl, pool, o, QueueAt(queues, p));
      AddDense(mem, pool.storage, side, minPrice, levels, queues, o, lvl);
      AddRelinks(mem, pool.storage, side, queues, o);
      AddedOk(mem, pool.storage, side, minPrice, maxPrice, queues, count, o);
      levels := levels[i := lvl];
      if wasEmpty {
        SetBit(i);
        MarksChange(was, words, minPrice, span, queues, AddTo(queues, p, o), i, true);
      } else {
        MarksSame(was, minPrice, span, queues, AddTo(queues, p, o));
      }
      count := count + 1;
      queues := AddTo(queues, p, o);
    }

    method Remove(pool: Pool, o: Ptr) returns (ghost k: nat)
      requires Valid(pool.storage) && Queued(pool.storage, queues, o)
      modifies this, pool`storage
      ensures Valid(pool.storage) && Relinked(old(pool.storage), pool.storage, side)
      ensures var p := pool.storage[o].order.price;
              && p in old(queues) && k < |old(queues)[p]| && old(queues)[p][k] == o
              && queues == RemoveFrom(old(queues), p, k)
    {
      hide QueuesOk, Flatten, Holds, OnlyLinks, Relinked, Summarizes, Mark, Bridged;
      ghost var mem := pool.storage;
      ghost var was := words;
      var p := pool.storage[o].order.price;
      var i := p - minPrice;
      k := PlaceOf(mem, side, queues, o);
      var lvl := Unlink(levels[i], pool, o, queues[p], k);
      RemoveRelinks(mem, pool.storage, side, queues, p);
      RemovedOk(mem, pool.storage, side, minPrice, maxPrice, queues, count, p, k);
      RemoveDense(mem, pool.storage, side, minPrice, levels, queues, p, k, lvl);
      count := count - 1;
      if Empty(lvl) {
        lvl := lvl.(price := NO_PRICE);
        ClearBit(i);
        MarksChange(was, words, minPrice, span, queues, RemoveFrom(queues, p, k), i, false);
      } else {
        MarksSame(was, minPrice, span, queues, RemoveFrom(queues, p, k));
      }
      levels := levels[i := lvl];
      queues := RemoveFrom(queues, p, k);
    }

    method ReduceInPlace(pool: Pool, o: Ptr, n: nat)
      requires Valid(pool.storage) && Queued(pool.storage, queues, o) && n <= pool.storage[o].order.remaining
      modifies this`levels, pool`storage
      ensures Valid(pool.storage) && pool.storage == Reduced(old(pool.storage), o, n)
    {
      hide QueuesOk, Flatten, Marks, Summarizes;
      var i := pool.storage[o].order.price - minPrice;
      ReduceDense(pool.storage, side, minPrice, levels, queues, o, n);
      ReducedOk(pool.storage, side, minPrice, maxPrice, queues, count, o, n);
      levels := levels[i := levels[i].(totalQty := levels[i].totalQty - n)];
      pool.storage := Reduced(pool.storage, o, n);
    }

    /** Index of the best occupied level, or -1. */
    method BestIndex(ghost mem: seq<Node>) returns (bi: int)
      requires Valid(mem)
      ensures bi == -1 ==> queues == map[]
      ensures bi != -1 ==> 0 <= bi < span && IsBest(side, queues.Keys, minPrice + bi)
    {
      hide SideOk, Dense, Mark, Summarizes;
      if side.Buy? {
        bi := HighestSet(words, summary);
        if bi < 0 {
          NoMarksNoQueues(words, minPrice, span, queues);
        } else {
          HighestIsBest(words, minPrice, span, queues, bi);
        }
      } else {
        bi := LowestSet(words, summary);
        if bi < 0 {
          NoMarksNoQueues(words, minPrice, span, queues);
        } else {
          LowestIsBest(words, minPrice, span, queues, bi);
        }
      }
    }

    method BestLevel(ghost mem: seq<Node>) returns (r: Option<Level>)
      requires Valid(mem)
      ensures r.None? <==> queues == map[]
      ensures r.Some? ==> var b := BestOf(side, queues.Keys); LevelOk(mem, r.value, b, queues[b])
    {
      hide SideOk, LevelOk, Marks, Summarizes;
      var bi := BestIndex(mem);
      if bi < 0 {
        return None;
      }
      BestIs(side, queues.Keys, minPrice + bi);
      return Some(levels[bi]);
    }

    /** The next occupied level strictly worse than `from`, walking away from the best. */
    method NextLevelTowardMid(from: int, ghost mem: seq<Node>) returns (r: Option<int>)
      requires Valid(mem) && (from == NO_PRICE || minPrice <= from <= maxPrice)
      ensures from == NO_PRICE ==> r.None?
      ensures from != NO_PRICE && r.Some? ==> NextBest(side, queues, from, r.value)
      ensures from != NO_PRICE && r.None? ==> NothingWorse(side, queues, from)
    {
      hide SideOk, Dense, Mark, Summarizes;
      if from == NO_PRICE {
        return None;
      }
      var i := from - minPrice;
      if side.Buy? {
        i := i - 1;
        while i >= 0
          invariant -1 <= i < from - minPrice
          invariant forall p :: p in queues && minPrice + i < p ==> from <= p
        {
          MarkOf(words, minPrice, span, queues, i);
          if BitAt(words, i) {
            return Some(minPrice + i);
          }
          i := i - 1;
        }
      } else {
        i := i + 1;
        while i < span
          invariant from - minPrice < i <= span
          invariant forall p :: p in queues && p < minPrice + i ==> p <= from
        {
          MarkOf(words, minPrice, span, queues, i);
          if BitAt(words, i) {
            return Some(minPrice + i);
          }
          i := i + 1;
        }
      }
      return None;
    }

    method MarketableQty(taker: Side, limit: int, ghost mem: seq<Node>) returns (total: nat)
      requires Valid(mem) && taker == Opposite(side)
      ensures total == MarketOf(mem, taker, limit, queues)
    {
      hide Holds, QueueOk, Flatten, Marks, Summarizes, NextBest, NothingWorse;
      total := 0;
      var bi := BestIndex(mem);
      var lvl: Option<int> := if bi < 0 then None else Some(minPrice + bi);
      ghost var left := queues;
      while lvl.Some?
        invariant QueuesOk(mem, side, left)
        invariant lvl.Some? ==> Unvisited(side, queues, left, lvl.value) && lvl.value in left
        invariant lvl.None? ==> left == map[]
        invariant MarketOf(mem, taker, limit, queues) == total + MarketOf(mem, taker, limit, left)
        decreases left
      {
        var p := lvl.value;
        var l := levels[p - minPrice];
        UnvisitedBest(side, queues, left, p);
        MarketCons(mem, taker, limit, left, p, l);
        if !Crosses(taker, limit, p) {
          return;
        }
        total := total + l.totalQty;
        lvl := NextLevelTowardMid(p, mem);
        WalkStep(side, queues, left, p, lvl);
        left := left - {p};
      }
    }

    method Snapshot(maxLevels: nat, ghost mem: seq<Node>) returns (out: seq<DepthEntry>)
      requires Valid(mem)
      ensures out == DepthOf(mem, side, queues, maxLevels)
    {
      hide Holds, QueueOk, Flatten, Marks, Summarizes, NextBest, NothingWorse, DepthOf;
      out := [];
      var bi := BestIndex(mem);
      var lvl: Option<int> := if bi < 0 then None else Some(minPrice + bi);
      ghost var left := queues;
      assert out + DepthOf(mem, side, left, maxLevels) == DepthOf(mem, side, left, maxLevels);
      while lvl.Some? && |out| < maxLevels
        invariant |out| <= maxLevels && QueuesOk(mem, side, left)
        invariant lvl.Some? ==> Unvisited(side, queues, left, lvl.value) && lvl.value in left
        invariant lvl.None? ==> left == map[]
        invariant DepthOf(mem, side, queues, maxLevels) == out + DepthOf(mem, side, left, maxLevels - |out|)
        decreases left
      {
        var p := lvl.value;
        var l := levels[p - minPrice];
        UnvisitedBest(side, queues, left, p);
        DepthOfCons(mem, side, left, maxLevels - |out|, p, l, out);
        out := out + [DepthEntry(p, l.totalQty, l.count)];
        lvl := NextLevelTowardMid(p, mem);
        WalkStep(side, queues, left, p, lvl);
        left := left - {p};
      }
      DepthOfEnds(mem, side, left, maxLevels - |out|, out);
    }
  }

  lemma UnvisitedBest(side: Side, m: Ladder, left: Ladder, from: int)
    requires Unvisited(side, m, left, from) && from in left
    ensures IsBest(side, left.Keys, from) && from in m && left[from] == m[from]
  {
  }

  lemma MarkOf(words: seq<bv64>, lo: int, span: nat, m: Ladder, i: nat)
    requires Marks(words, lo, span, m) && i < span
    ensures i / 64 < |words| && (BitAt(words, i) <==> lo + i in m)
  {
    hide Mark;
    assert lo + i / 64 * 64 + i % 64 == lo + i;
  }

  lemma MarksSame(words: seq<bv64>, lo: int, span: nat, m: Ladder, m': Ladder)
    requires Marks(words, lo, span, m) && m'.Keys == m.Keys
    ensures Marks(words, lo, span, m')
  {
    hide Mark;
    forall p ensures p in m' <==> p in m {
      assert p in m'.Keys <==> p in m.Keys;
    }
  }

  lemma EmptyWhenAbsent(mem: seq<Node>, side: Side, lo: int, levels: seq<Level>, m: Ladder, p: int)
    requires Dense(mem, lo, levels, m) && 0 <= p - lo < |levels|
    requires QueuesOk(mem, side, m)
    ensures Empty(levels[p - lo]) <==> p !in m
    ensures p !in m ==> levels[p - lo] == EMPTY
    ensures p in m ==> LevelOk(mem, levels[p - lo], p, m[p])
  {
    assert Cell(mem, levels[p - lo], lo + (p - lo), m);
  }

  lemma AllClear(words: seq<bv64>, summary: seq<bv64>)
    requires |summary| == (|words| + 63) / 64
    requires forall a :: 0 <= a < |words| ==> words[a] == 0
    requires forall a :: 0 <= a < |summary| ==> summary[a] == 0
    ensures Summarizes(words, summary)
    ensures forall a: nat, k: nat :: a < |words| && k < 64 ==> !Mark(words, a, k)
  {
    forall a: nat, k: nat | a < |words| && k < 64 ensures !Mark(words, a, k) { WordOccupied(words, a); }
    forall a: nat, k: nat | a < |summary| && k < 64 ensures !Mark(summary, a, k) { WordOccupied(summary, a); }
  }
}

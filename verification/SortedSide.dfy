/** One side of the sorted-vector book: levels in one vector, best price at the front.

    Prices are looked up by binary search; a new price is inserted at the split point and a price
    without orders is erased, so the vector always lists exactly the queued prices, in order, each
    with its level.
*/
module SortedSide {
  import opened Types
  import opened ObjectPool
  import opened PriceLevel
  import opened Queues
  import opened SideBase

  datatype Entry = Entry(price: int, level: Level)

  ghost predicate Ordered(side: Side, v: seq<Entry>) {
    forall i, j :: 0 <= i < j < |v| ==> Better(side, v[i].price, v[j].price)
  }

  /** The vector lists exactly the queued prices, in order, with their levels. */
  ghost predicate Represents(mem: seq<Node>, side: Side, v: seq<Entry>, m: Ladder) {
    && Ordered(side, v)
    && (forall i :: 0 <= i < |v| ==> v[i].price in m && LevelOk(mem, v[i].level, v[i].price, m[v[i].price]))
    && (forall p :: p in m ==> HasPrice(v, p))
  }

  ghost predicate HasPrice(v: seq<Entry>, p: int) {
    exists i :: 0 <= i < |v| && v[i].price == p
  }

  /** Position `i` splits the vector into prices better than `p` and the rest. */
  ghost predicate Splits(side: Side, v: seq<Entry>, p: int, i: nat) {
    && i <= |v|
    && (forall j :: 0 <= j < i ==> Better(side, v[j].price, p))
    && (forall j :: i <= j < |v| ==> !Better(side, v[j].price, p))
  }

  lemma LaterIsWorse(side: Side, v: seq<Entry>, i: nat, j: nat)
    requires j < |v| && Ordered(side, v)
    ensures i < j ==> Better(side, v[i].price, v[j].price)
  {
  }

  /** At the split point either the price itself sits there or it is nowhere. */
  lemma SplitFinds(mem: seq<Node>, side: Side, v: seq<Entry>, m: Ladder, p: int, i: nat)
    requires Represents(mem, side, v, m) && Splits(side, v, p, i)
    ensures p in m <==> i < |v| && v[i].price == p
    ensures p in m ==> LevelOk(mem, v[i].level, p, m[p])
    ensures forall j :: 0 <= j < |v| && j != i ==> v[j].price != p
  {
    hide LevelOk;
    if p in m {
      assert HasPrice(v, p);
      var j :| 0 <= j < |v| && v[j].price == p;
      LaterIsWorse(side, v, i, j);
    }
    forall j | 0 <= j < |v| && j != i ensures v[j].price != p {
      LaterIsWorse(side, v, i, j);
    }
  }

  lemma AddRepresents(mem: seq<Node>, mem': seq<Node>, side: Side, v: seq<Entry>, m: Ladder,
                      p: int, o: Ptr, i: nat, lvl: Level)
    requires QueuesOk(mem, side, m) && Represents(mem, side, v, m) && Splits(side, v, p, i)
    requires InStore(mem, o) && mem[o].order.price == p
    requires OnlyLinks(mem, mem', QueueAt(m, p) + [o]) && LevelOk(mem', lvl, p, QueueAt(m, p) + [o])
    ensures var e := Entry(p, lvl);
            Represents(mem', side, if p in m then v[i := e] else v[..i] + [e] + v[i..], AddTo(m, p, o))
  {
    SplitFinds(mem, side, v, m, p, i);
    var touched := QueueAt(m, p) + [o];
    AddOnlyAt(mem, mem', side, m, p, o);
    hide LevelOk, QueuesOk, Ordered, OnlyLinks, OnlyAt;
    forall j | 0 <= j < |v| && v[j].price != p ensures LevelOk(mem', v[j].level, v[j].price, m[v[j].price]) {
      OtherLevels(mem, mem', side, m, p, touched, v[j].price, v[j].level);
    }
    if p in m {
      KeepRepresents(mem', side, v, m, p, i, lvl, touched);
    } else {
      GrowRepresents(mem', side, v, m, p, i, lvl, touched);
    }
  }

  lemma OrderedGrow(side: Side, v: seq<Entry>, e: Entry, i: nat)
    requires Ordered(side, v) && Splits(side, v, e.price, i) && forall j :: 0 <= j < |v| ==> v[j].price != e.price
    ensures Ordered(side, v[..i] + [e] + v[i..])
  {
    var z := v[..i] + [e] + v[i..];
    forall j | 0 <= j < |z| ensures z[j] == if j == i then e else v[if j < i then j else j - 1] {
    }
  }

  lemma GrowRepresents(mem: seq<Node>, side: Side, v: seq<Entry>, m: Ladder, p: int, i: nat, lvl: Level, q: seq<Ptr>)
    requires Ordered(side, v) && Splits(side, v, p, i) && LevelOk(mem, lvl, p, q) && p !in m
    requires forall j :: 0 <= j < |v| ==>
               v[j].price != p && v[j].price in m && LevelOk(mem, v[j].level, v[j].price, m[v[j].price])
    requires forall x :: x in m ==> HasPrice(v, x)
    ensures Represents(mem, side, v[..i] + [Entry(p, lvl)] + v[i..], m[p := q])
  {
    OrderedGrow(side, v, Entry(p, lvl), i);
    PricesGrow(v, Entry(p, lvl), i);
    hide LevelOk, Ordered, Splits, HasPrice;
    var z := v[..i] + [Entry(p, lvl)] + v[i..];
    forall j | 0 <= j < |z| ensures z[j] == if j == i then Entry(p, lvl) else v[if j < i then j else j - 1] {
    }
  }

  lemma PricesGrow(v: seq<Entry>, e: Entry, i: nat)
    requires i <= |v|
    ensures forall x :: HasPrice(v, x) || x == e.price ==> HasPrice(v[..i] + [e] + v[i..], x)
  {
    var z := v[..i] + [e] + v[i..];
    forall x | HasPrice(v, x) || x == e.price ensures HasPrice(z, x) {
      if x == e.price {
        assert z[i].price == x;
      } else {
        var j :| 0 <= j < |v| && v[j].price == x;
        assert z[if j < i then j else j + 1] == v[j];
      }
    }
  }

  lemma RemoveRepresents(mem: seq<Node>, mem': seq<Node>, side: Side, v: seq<Entry>, m: Ladder,
                         p: int, k: nat, i: nat, lvl: Level)
    requires QueuesOk(mem, side, m) && Represents(mem, side, v, m) && p in m && k < |m[p]|
    requires i < |v| && v[i].price == p
    requires OnlyLinks(mem, mem', m[p]) && LevelOk(mem', lvl, p, Cut(m[p], k))
    ensures Represents(mem', side, if Empty(lvl) then v[..i] + v[i + 1..] else v[i := Entry(p, lvl)],
                       RemoveFrom(m, p, k))
  {
    EmptyWhenCut(mem', lvl, p, m[p], k);
    assert forall j :: 0 <= j < |v| && j != i ==> v[j].price != p;
    RemoveOnlyAt(mem, mem', side, m, p);
    hide LevelOk, QueuesOk, OnlyLinks, OnlyAt;
    forall j | 0 <= j < |v| && j != i ensures LevelOk(mem', v[j].level, v[j].price, m[v[j].price]) {
      OtherLevels(mem, mem', side, m, p, m[p], v[j].price, v[j].level);
    }
    if Empty(lvl) {
      DropRepresents(mem', side, v, m, p, i);
    } else {
      KeepRepresents(mem', side, v, m, p, i, lvl, Cut(m[p], k));
    }
  }

  lemma DropRepresents(mem: seq<Node>, side: Side, v: seq<Entry>, m: Ladder, p: int, i: nat)
    requires Ordered(side, v) && i < |v| && v[i].price == p
    requires forall j :: 0 <= j < |v| && j != i ==>
               v[j].price != p && v[j].price in m && LevelOk(mem, v[j].level, v[j].price, m[v[j].price])
    requires forall x :: x in m ==> HasPrice(v, x)
    ensures Represents(mem, side, v[..i] + v[i + 1..], m - {p})
  {
    hide LevelOk;
    var z := v[..i] + v[i + 1..];
    forall j | 0 <= j < |z| ensures z[j] == v[if j < i then j else j + 1] {
    }
    forall x | x in m - {p} ensures HasPrice(z, x) {
      assert HasPrice(v, x);
      var j :| 0 <= j < |v| && v[j].price == x;
      assert z[if j < i then j else j - 1] == v[j];
    }
  }

  lemma KeepRepresents(mem: seq<Node>, side: Side, v: seq<Entry>, m: Ladder, p: int, i: nat, lvl: Level, q: seq<Ptr>)
    requires Ordered(side, v) && i < |v| && v[i].price == p && LevelOk(mem, lvl, p, q)
    requires forall j :: 0 <= j < |v| && j != i ==>
               v[j].price != p && v[j].price in m && LevelOk(mem, v[j].level, v[j].price, m[v[j].price])
    requires forall x :: x in m ==> HasPrice(v, x)
    ensures Represents(mem, side, v[i := Entry(p, lvl)], m[p := q])
  {
    hide LevelOk;
    var z := v[i := Entry(p, lvl)];
    forall x | x in m[p := q] ensures HasPrice(z, x) {
      if x == p {
        assert z[i].price == x;
      } else {
        assert HasPrice(v, x);
        var j :| 0 <= j < |v| && v[j].price == x;
        assert z[j] == v[j];
      }
    }
  }

  lemma ReduceRepresents(mem: seq<Node>, side: Side, v: seq<Entry>, m: Ladder, o: Ptr, n: nat, i: nat)
    requires QueuesOk(mem, side, m) && Represents(mem, side, v, m)
    requires Queued(mem, m, o) && n <= mem[o].order.remaining
    requires Splits(side, v, mem[o].order.price, i)
    ensures i < |v| && v[i].level.totalQty >= n
    ensures Represents(Reduced(mem, o, n), side,
                       v[i := v[i].(level := v[i].level.(totalQty := v[i].level.totalQty - n))], m)
  {
    var p := mem[o].order.price;
    SplitFinds(mem, side, v, m, p, i);
    ReducedLevel(mem, side, m, o, n, p, v[i].level);
    hide LevelOk, QueueOk;
    forall j | 0 <= j < |v| && j != i ensures LevelOk(Reduced(mem, o, n), v[j].level, v[j].price, m[v[j].price]) {
      ReducedLevel(mem, side, m, o, n, v[j].price, v[j].level);
    }
    KeepRepresents(Reduced(mem, o, n), side, v, m, p, i, v[i].level.(totalQty := v[i].level.totalQty - n), m[p]);
    assert m[p := m[p]] == m;
  }

  lemma HasEntry(mem: seq<Node>, side: Side, v: seq<Entry>, m: Ladder, x: int)
    requires Represents(mem, side, v, m)
    ensures x in m ==> v != []
  {
    if x in m { assert HasPrice(v, x); }
  }

  lemma FrontBeats(side: Side, v: seq<Entry>, x: int)
    requires Ordered(side, v) && HasPrice(v, x) && v[0].price != x
    ensures Better(side, v[0].price, x)
  {
  }

  /** The front of the vector is the best price; dropping it leaves the rest. */
  lemma FrontIsBest(mem: seq<Node>, side: Side, v: seq<Entry>, m: Ladder)
    requires Represents(mem, side, v, m)
    ensures v == [] <==> m == map[]
    ensures v != [] ==> IsBest(side, m.Keys, v[0].price)
    ensures v != [] ==> Represents(mem, side, v[1..], m - {v[0].price})
  {
    hide LevelOk;
    if v == [] {
      if m != map[] {
        var x := Pick(m.Keys);
        HasEntry(mem, side, v, m, x);
      }
    } else {
      forall x | x in m && x != v[0].price ensures Better(side, v[0].price, x) {
        FrontBeats(side, v, x);
      }
      hide Ordered, HasPrice;
      DropRepresents(mem, side, v, m, v[0].price, 0);
      assert v[..0] + v[1..] == v[1..];
    }
  }

  /** Entry `i` is the best of what the entries from `i` on represent. */
  lemma StepIn(mem: seq<Node>, side: Side, v: seq<Entry>, i: nat, left: Ladder)
    requires i <= |v| && QueuesOk(mem, side, left) && Represents(mem, side, v[i..], left)
    ensures i == |v| <==> left == map[]
    ensures i < |v| ==>
              var p := v[i].price;
              && IsBest(side, left.Keys, p) && LevelOk(mem, v[i].level, p, left[p])
              && QueuesOk(mem, side, left - {p}) && Represents(mem, side, v[i + 1..], left - {p})
  {
    hide LevelOk, Ordered, QueueOk;
    FrontIsBest(mem, side, v[i..], left);
    if i < |v| {
      assert v[i..][0] == v[i] && v[i..][1..] == v[i + 1..];
    }
  }

  class SortedVectorSide {
    const side: Side
    const minPrice: int
    const maxPrice: int
    var nodes: seq<Entry>
    var count: nat
    ghost var queues: Ladder

    ghost predicate Valid(mem: seq<Node>)
      reads this
    {
      SideOk(mem, side, minPrice, maxPrice, queues, count) && Represents(mem, side, nodes, queues)
    }

    constructor (s: Side, lo: int, hi: int)
      ensures side == s && minPrice == lo && maxPrice == hi && queues == map[]
      ensures forall mem :: Valid(mem)
    {
      side, minPrice, maxPrice := s, lo, hi;
      nodes, count, queues := [], 0, map[];
    }

    /** Changes outside the queued cells do not matter. */
    lemma Frame(mem: seq<Node>, mem': seq<Node>)
      requires Valid(mem) && SameCells(mem, mem', queues)
      ensures Valid(mem')
    {
      FrameOk(mem, mem', side, minPrice, maxPrice, queues, count);
      hide LevelOk, QueueOk, SameCells, Flatten, Ordered;
      forall i | 0 <= i < |nodes| ensures LevelOk(mem', nodes[i].level, nodes[i].price, queues[nodes[i].price]) {
        FrameLevel(mem, mem', side, queues, nodes[i].price, nodes[i].level);
      }
    }

    /** Binary search for the first entry whose price is not better than `p`. */
    method Seek(p: int, ghost mem: seq<Node>) returns (i: nat)
      requires Valid(mem)
      ensures i <= |nodes| && Splits(side, nodes, p, i)
    {
      hide SideOk, LevelOk;
      var lo, hi := 0, |nodes|;
      while lo < hi
        invariant 0 <= lo <= hi <= |nodes|
        invariant forall j :: 0 <= j < lo ==> Better(side, nodes[j].price, p)
        invariant forall j :: hi <= j < |nodes| ==> !Better(side, nodes[j].price, p)
      {
        var mid := lo + (hi - lo) / 2;
        if Better(side, nodes[mid].price, p) {
          assert forall j :: 0 <= j < mid ==> Better(side, nodes[j].price, nodes[mid].price);
          lo := mid + 1;
        } else {
          assert forall j :: mid < j < |nodes| ==> Better(side, nodes[mid].price, nodes[j].price);
          hi := mid;
        }
      }
      i := lo;
    }

    method Add(pool: Pool, o: Ptr)
      requires Valid(pool.storage) && InStore(pool.storage, o) && !Queued(pool.storage, queues, o)
      requires var x := pool.storage[o].order; x.side == side && minPrice <= x.price <= maxPrice && x.price != NO_PRICE
      modifies this, pool`storage
      ensures Valid(pool.storage) && Relinked(old(pool.storage), pool.storage, side)
      ensures queues == AddTo(old(queues), pool.storage[o].order.price, o)
    {
      hide QueuesOk, Flatten, Ordered, Splits, OnlyLinks, Relinked, Holds, Represents;
      ghost var mem := pool.storage;
      var p := pool.storage[o].order.price;
      var i := Seek(p, mem);
      SplitFinds(mem, side, nodes, queues, p, i);
      var found := i < |nodes| && nodes[i].price == p;
      var lvl := if found then nodes[i].level else EMPTY.(price := p);
      ReadyToPush(mem, side, queues, o, lvl);
      lvl := PushBack(lvl, pool, o, QueueAt(queues, p));
      AddRepresents(mem, pool.storage, side, nodes, queues, p, o, i, lvl);
      AddRelinks(mem, pool.storage, side, queues, o);
      AddedOk(mem, pool.storage, side, minPrice, maxPrice, queues, count, o);
      if found {
        nodes := nodes[i := Entry(p, lvl)];
      } else {
        nodes := nodes[..i] + [Entry(p, lvl)] + nodes[i..];
      }
      count := count + 1;
      queues := AddTo(queues, p, o);
    }

    method Remove(pool: Pool, o: Ptr) returns (ghost k: nat)
      requires Valid(pool.storage) && Queued(pool.storage, queues, o)
      modifies this, pool`storage
      ensures Valid(pool.storage) && Relinked(old(pool.storage), pool.storage, side)
      ensures var p := pool.storage[o].order.price;
              && p in old(queues) && k < |old(queues)[p]| && old(queues)[p][k] == o
              && queues == RemoveFrom(old(queues), p, k)
    {
      hide QueuesOk, Flatten, Ordered, Splits, Holds, OnlyLinks, Relinked, Bridged;
      ghost var mem := pool.storage;
      var p := pool.storage[o].order.price;
      k := PlaceOf(mem, side, queues, o);
      var i := Seek(p, mem);
      SplitFinds(mem, side, nodes, queues, p, i);
      var lvl := Unlink(nodes[i].level, pool, o, queues[p], k);
      RemoveRelinks(mem, pool.storage, side, queues, p);
      RemovedOk(mem, pool.storage, side, minPrice, maxPrice, queues, count, p, k);
      RemoveRepresents(mem, pool.storage, side, nodes, queues, p, k, i, lvl);
      count := count - 1;
      if Empty(lvl) {
        nodes := nodes[..i] + nodes[i + 1..];
      } else {
        nodes := nodes[i := Entry(p, lvl)];
      }
      queues := RemoveFrom(queues, p, k);
    }

    method ReduceInPlace(pool: Pool, o: Ptr, n: nat)
      requires Valid(pool.storage) && Queued(pool.storage, queues, o) && n <= pool.storage[o].order.remaining
      modifies this`nodes, pool`storage
      ensures Valid(pool.storage) && pool.storage == Reduced(old(pool.storage), o, n)
    {
      hide LevelOk, QueueOk, Flatten, Ordered, Splits;
      var i := Seek(pool.storage[o].order.price, pool.storage);
      ReduceRepresents(pool.storage, side, nodes, queues, o, n, i);
      ReducedOk(pool.storage, side, minPrice, maxPrice, queues, count, o, n);
      nodes := nodes[i := nodes[i].(level := nodes[i].level.(totalQty := nodes[i].level.totalQty - n))];
      pool.storage := Reduced(pool.storage, o, n);
    }

    /** The front of the vector, if any. */
    method BestLevel(ghost mem: seq<Node>) returns (r: Option<Level>)
      requires Valid(mem)
      ensures r.None? <==> queues == map[]
      ensures r.Some? ==> var b := BestOf(side, queues.Keys); LevelOk(mem, r.value, b, queues[b])
    {
      hide LevelOk, QueueOk;
      FrontIsBest(mem, side, nodes, queues);
      if nodes == [] {
        return None;
      }
      BestIs(side, queues.Keys, nodes[0].price);
      return Some(nodes[0].level);
    }

    method MarketableQty(taker: Side, limit: int, ghost mem: seq<Node>) returns (total: nat)
      requires Valid(mem) && taker == Opposite(side)
      ensures total == MarketOf(mem, taker, limit, queues)
    {
      hide LevelOk, QueuesOk, Represents;
      total := 0;
      var i := 0;
      ghost var left := queues;
      assert nodes[0..] == nodes;
      while i < |nodes|
        invariant i <= |nodes| && QueuesOk(mem, side, left) && Represents(mem, side, nodes[i..], left)
        invariant MarketOf(mem, taker, limit, queues) == total + MarketOf(mem, taker, limit, left)
      {
        StepIn(mem, side, nodes, i, left);
        MarketCons(mem, taker, limit, left, nodes[i].price, nodes[i].level);
        if !Crosses(taker, limit, nodes[i].price) {
          return;
        }
        total := total + nodes[i].level.totalQty;
        left := left - {nodes[i].price};
        i := i + 1;
      }
      StepIn(mem, side, nodes, i, left);
    }

    method Snapshot(maxLevels: nat, ghost mem: seq<Node>) returns (out: seq<DepthEntry>)
      requires Valid(mem)
      ensures out == DepthOf(mem, side, queues, maxLevels)
    {
      hide LevelOk, QueuesOk, Represents, DepthOf;
      out := [];
      var i := 0;
      ghost var left := queues;
      assert out + DepthOf(mem, side, left, maxLevels) == DepthOf(mem, side, left, maxLevels);
      assert nodes[0..] == nodes;
      while i < |nodes| && |out| < maxLevels
        invariant i <= |nodes| && |out| <= maxLevels
        invariant QueuesOk(mem, side, left) && Represents(mem, side, nodes[i..], left)
        invariant DepthOf(mem, side, queues, maxLevels) == out + DepthOf(mem, side, left, maxLevels - |out|)
      {
        StepIn(mem, side, nodes, i, left);
        DepthOfCons(mem, side, left, maxLevels - |out|, nodes[i].price, nodes[i].level, out);
        out := out + [DepthEntry(nodes[i].price, nodes[i].level.totalQty, nodes[i].level.count)];
        left := left - {nodes[i].price};
        i := i + 1;
      }
      StepIn(mem, side, nodes, i, left);
      DepthOfEnds(mem, side, left, maxLevels - |out|, out);
    }
  }
}

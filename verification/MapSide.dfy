/** One side of the map-based book: an ordered map from price to level, best price first.

    The source relies on the order of its map for the best price and for walks inward; here the
    keys form a set and the best of them is chosen by `IsBest`, which is what the order of the
    source's map delivers.
*/
module MapSide {
  import opened Types
  import opened ObjectPool
  import opened PriceLevel
  import opened Queues
  import opened SideBase

  /** The map holds, for exactly the queued prices, their levels. */
  ghost predicate Represents(mem: seq<Node>, levels: map<int, Level>, m: Ladder) {
    && levels.Keys == m.Keys
    && forall p :: p in levels ==> LevelOk(mem, levels[p], p, m[p])
  }

  /** Every level is right except perhaps the one at `p`. */
  ghost predicate RightBut(mem: seq<Node>, levels: map<int, Level>, m: Ladder, p: int) {
    && levels.Keys == m.Keys
    && forall p' :: p' in levels && p' != p ==> LevelOk(mem, levels[p'], p', m[p'])
  }

  lemma SetRepresents(mem: seq<Node>, levels: map<int, Level>, m: Ladder, p: int, q: seq<Ptr>, lvl: Level)
    requires RightBut(mem, levels, m, p) && LevelOk(mem, lvl, p, q)
    ensures Represents(mem, levels[p := lvl], m[p := q])
  {
    hide LevelOk;
  }

  lemma DropRepresents(mem: seq<Node>, levels: map<int, Level>, m: Ladder, p: int)
    requires RightBut(mem, levels, m, p)
    ensures Represents(mem, levels - {p}, m - {p})
  {
    hide LevelOk;
  }

  lemma AddRepresents(mem: seq<Node>, mem': seq<Node>, side: Side, levels: map<int, Level>, m: Ladder, p: int, o: Ptr,
                      lvl: Level)
    requires QueuesOk(mem, side, m) && Represents(mem, levels, m)
    requires InStore(mem, o) && mem[o].order.price == p
    requires OnlyLinks(mem, mem', QueueAt(m, p) + [o]) && LevelOk(mem', lvl, p, QueueAt(m, p) + [o])
    ensures Represents(mem', levels[p := lvl], AddTo(m, p, o))
  {
    AddOnlyAt(mem, mem', side, m, p, o);
    hide LevelOk, QueuesOk, OnlyLinks, OnlyAt;
    forall p' | p' in levels && p' != p ensures LevelOk(mem', levels[p'], p', m[p']) {
      OtherLevels(mem, mem', side, m, p, QueueAt(m, p) + [o], p', levels[p']);
    }
    SetRepresents(mem', levels, m, p, QueueAt(m, p) + [o], lvl);
  }

  lemma RemoveRepresents(mem: seq<Node>, mem': seq<Node>, side: Side, levels: map<int, Level>, m: Ladder, p: int,
      k: nat, lvl: Level)
    requires QueuesOk(mem, side, m) && Represents(mem, levels, m) && p in m && k < |m[p]|
    requires OnlyLinks(mem, mem', m[p]) && LevelOk(mem', lvl, p, Cut(m[p], k))
    ensures Represents(mem', if Empty(lvl) then levels - {p} else levels[p := lvl], RemoveFrom(m, p, k))
  {
    RemoveOnlyAt(mem, mem', side, m, p);
    EmptyWhenCut(mem', lvl, p, m[p], k);
    hide LevelOk, QueuesOk, OnlyLinks, OnlyAt, Cut, Empty;
    forall p' | p' in levels && p' != p ensures LevelOk(mem', levels[p'], p', m[p']) {
      OtherLevels(mem, mem', side, m, p, m[p], p', levels[p']);
    }
    if Empty(lvl) {
      DropRepresents(mem', levels, m, p);
    } else {
      SetRepresents(mem', levels, m, p, Cut(m[p], k), lvl);
    }
  }

  /** Only the total of the order's own level changes, to that of `lvl`. */
  lemma ReduceRepresents(mem: seq<Node>, side: Side, levels: map<int, Level>, m: Ladder, o: Ptr, n: nat,
                         p: int, lvl: Level)
    requires QueuesOk(mem, side, m) && Represents(mem, levels, m)
    requires Queued(mem, m, o) && n <= mem[o].order.remaining && p == mem[o].order.price
    requires LevelOk(Reduced(mem, o, n), lvl, p, m[p])
    ensures Represents(Reduced(mem, o, n), levels[p := lvl], m)
  {
    hide LevelOk, QueuesOk;
    forall p' | p' in levels && p' != p ensures LevelOk(Reduced(mem, o, n), levels[p'], p', m[p']) {
      ReducedLevel(mem, side, m, o, n, p', levels[p']);
    }
  }

  class MapBookSide {
    const side: Side
    const minPrice: int
    const maxPrice: int
    var levels: map<int, Level>
    var count: nat
    ghost var queues: Ladder

    ghost predicate Valid(mem: seq<Node>)
      reads this
    {
      SideOk(mem, side, minPrice, maxPrice, queues, count) && Represents(mem, levels, queues)
    }

    constructor (s: Side, lo: int, hi: int)
      ensures side == s && minPrice == lo && maxPrice == hi && queues == map[]
      ensures forall mem :: Valid(mem)
    {
      side, minPrice, maxPrice := s, lo, hi;
      levels, count, queues := map[], 0, map[];
    }

    /** Changes outside the queued cells do not matter. */
    lemma Frame(mem: seq<Node>, mem': seq<Node>)
      requires Valid(mem) && SameCells(mem, mem', queues)
      ensures Valid(mem')
    {
      FrameOk(mem, mem', side, minPrice, maxPrice, queues, count);
      hide LevelOk, QueueOk, SameCells, Flatten;
      forall p | p in levels ensures LevelOk(mem', levels[p], p, queues[p]) {
        FrameLevel(mem, mem', side, queues, p, levels[p]);
      }
    }

    method Add(pool: Pool, o: Ptr)
      requires Valid(pool.storage) && InStore(pool.storage, o) && !Queued(pool.storage, queues, o)
      requires var x := pool.storage[o].order; x.side == side && minPrice <= x.price <= maxPrice && x.price != NO_PRICE
      modifies this, pool`storage
      ensures Valid(pool.storage) && Relinked(old(pool.storage), pool.storage, side)
      ensures queues == AddTo(old(queues), pool.storage[o].order.price, o)
    {
      hide QueuesOk, Flatten, Holds, OnlyLinks, Relinked;
      ghost var mem := pool.storage;
      var p := pool.storage[o].order.price;
      ghost var q := QueueAt(queues, p);
      var lvl := if p in levels then levels[p] else EMPTY;
      if lvl.head == NIL {
        lvl := lvl.(price := p);
      }
      ReadyToPush(mem, side, queues, o, lvl);
      lvl := PushBack(lvl, pool, o, q);
      AddRelinks(mem, pool.storage, side, queues, o);
      AddedOk(mem, pool.storage, side, minPrice, maxPrice, queues, count, o);
      AddRepresents(mem, pool.storage, side, levels, queues, p, o, lvl);
      levels := levels[p := lvl];
      count := count + 1;
      queues := AddTo(queues, p, o);
    }

    method Remove(pool: Pool, o: Ptr) returns (ghost k: nat)
      requires Valid(pool.storage) && Queued(pool.storage, queues, o)
      modifies this, pool`storage
      ensures Valid(pool.storage) && Relinked(old(pool.storage), pool.storage, side)
      ensures var p := pool.storage[o].order.price;
              && p in old(queues) && k < |old(queues)[p]| && old(queues)[p][k] == o
              && queues == RemoveFrom(old(queues), p, k)
    {
      hide QueuesOk, Flatten, Holds, OnlyLinks, Bridged, Relinked;
      ghost var mem := pool.storage;
      var p := pool.storage[o].order.price;
      k := PlaceOf(mem, side, queues, o);
      var lvl := Unlink(levels[p], pool, o, queues[p], k);
      RemoveRelinks(mem, pool.storage, side, queues, p);
      RemovedOk(mem, pool.storage, side, minPrice, maxPrice, queues, count, p, k);
      RemoveRepresents(mem, pool.storage, side, levels, queues, p, k, lvl);
      if Empty(lvl) {
        levels := levels - {p};
      } else {
        levels := levels[p := lvl];
      }
      count := count - 1;
      queues := RemoveFrom(queues, p, k);
    }

    method ReduceInPlace(pool: Pool, o: Ptr, n: nat)
      requires Valid(pool.storage) && Queued(pool.storage, queues, o) && n <= pool.storage[o].order.remaining
      modifies this`levels, pool`storage
      ensures Valid(pool.storage) && pool.storage == Reduced(old(pool.storage), o, n)
    {
      hide LevelOk, QueueOk, Flatten;
      var p := pool.storage[o].order.price;
      ReducedLevel(pool.storage, side, queues, o, n, p, levels[p]);
      var lvl := levels[p].(totalQty := levels[p].totalQty - n);
      ReduceRepresents(pool.storage, side, levels, queues, o, n, p, lvl);
      ReducedOk(pool.storage, side, minPrice, maxPrice, queues, count, o, n);
      levels := levels[p := lvl];
      pool.storage := Reduced(pool.storage, o, n);
    }

    /** The first entry of the map, if any. */
    method BestLevel(ghost mem: seq<Node>) returns (r: Option<Level>)
      requires Valid(mem)
      ensures r.None? <==> queues == map[]
      ensures r.Some? ==> var b := BestOf(side, queues.Keys); LevelOk(mem, r.value, b, queues[b])
    {
      if levels == map[] {
        return None;
      }
      HasBest(side, levels.Keys);
      var b :| b in levels.Keys && forall k :: k in levels.Keys && k != b ==> Better(side, b, k);
      BestIs(side, queues.Keys, b);
      return Some(levels[b]);
    }

    method MarketableQty(taker: Side, limit: int, ghost mem: seq<Node>) returns (total: nat)
      requires Valid(mem) && taker == Opposite(side)
      ensures total == MarketOf(mem, taker, limit, queues)
    {
      MarketOfNone(mem, taker, limit);
      hide LevelOk, QueuesOk, MarketOf;
      total := 0;
      var rest := levels;
      ghost var left := queues;
      while rest != map[]
        invariant QueuesOk(mem, side, left) && Represents(mem, rest, left)
        invariant MarketOf(mem, taker, limit, queues) == total + MarketOf(mem, taker, limit, left)
        decreases rest
      {
        HasBest(side, rest.Keys);
        var b :| b in rest.Keys && forall k :: k in rest.Keys && k != b ==> Better(side, b, k);
        MarketCons(mem, taker, limit, left, b, rest[b]);
        if !Crosses(taker, limit, b) {
          return;
        }
        total := total + rest[b].totalQty;
        rest := rest - {b};
        left := left - {b};
      }
    }

    method Snapshot(maxLevels: nat, ghost mem: seq<Node>) returns (out: seq<DepthEntry>)
      requires Valid(mem)
      ensures out == DepthOf(mem, side, queues, maxLevels)
    {
      hide LevelOk, QueueOk, DepthOf;
      out := [];
      var rest := levels;
      ghost var left := queues;
      assert out + DepthOf(mem, side, left, maxLevels) == DepthOf(mem, side, left, maxLevels);
      while rest != map[] && |out| < maxLevels
        invariant |out| <= maxLevels && QueuesOk(mem, side, left) && Represents(mem, rest, left)
        invariant DepthOf(mem, side, queues, maxLevels) == out + DepthOf(mem, side, left, maxLevels - |out|)
        decreases rest
      {
        HasBest(side, rest.Keys);
        var b :| b in rest.Keys && forall k :: k in rest.Keys && k != b ==> Better(side, b, k);
        DepthOfCons(mem, side, left, maxLevels - |out|, b, rest[b], out);
        out := out + [DepthEntry(b, rest[b].totalQty, rest[b].count)];
        rest := rest - {b};
        left := left - {b};
      }
      DepthOfEnds(mem, side, left, maxLevels - |out|, out);
    }
  }
}

/** The book a `BasicMatchingEngine` is instantiated with: one of three implementations of each
    side, behind one contract stated on the flat priority list of order pointers.

    The contract is what the engine's proof rests on; which implementation stands behind it is a
    choice made when the book is created. */
module Book {
  import opened Types
  import opened PriceTime
  import opened ObjectPool
  import opened PriceLevel
  import opened Queues
  import opened SideBase
  import OrderBookSide
  import SortedSide
  import MapSide

  datatype Kind = BitsetKind | SortedVectorKind | MapKind

  datatype BookSide =
    | Bitset(b: OrderBookSide.BitsetSide)
    | Sorted(v: SortedSide.SortedVectorSide)
    | Mapped(t: MapSide.MapBookSide)
  {
    ghost function Obj(): object {
      match this
      case Bitset(b) => b
      case Sorted(v) => v
      case Mapped(t) => t
    }

    ghost function Side(): Side {
      match this
      case Bitset(b) => b.side
      case Sorted(v) => v.side
      case Mapped(t) => t.side
    }

    ghost function Lo(): int {
      match this
      case Bitset(b) => b.minPrice
      case Sorted(v) => v.minPrice
      case Mapped(t) => t.minPrice
    }

    ghost function Hi(): int {
      match this
      case Bitset(b) => b.maxPrice
      case Sorted(v) => v.maxPrice
      case Mapped(t) => t.maxPrice
    }

    ghost function Queues(): Ladder
      reads Obj()
    {
      match this
      case Bitset(b) => b.queues
      case Sorted(v) => v.queues
      case Mapped(t) => t.queues
    }

    function Count(): nat
      reads Obj()
    {
      match this
      case Bitset(b) => b.count
      case Sorted(v) => v.count
      case Mapped(t) => t.count
    }

    ghost predicate Valid(mem: seq<Node>)
      reads Obj()
    {
      match this
      case Bitset(b) => b.Valid(mem)
      case Sorted(v) => v.Valid(mem)
      case Mapped(t) => t.Valid(mem)
    }

    /** Pointers to this side's orders, in price-time order. */
    ghost function Flat(): seq<Ptr>
      reads Obj()
    {
      Flatten(Side(), Queues())
    }

    /** What the flat list of a valid side is made of. */
    ghost predicate FlatOk(mem: seq<Node>, f: seq<Ptr>) {
      && AllIn(mem, f) && Distinct(f)
      && forall i :: 0 <= i < |f| ==>
           var o := mem[f[i]].order; o.side == Side() && Lo() <= o.price <= Hi() && o.price != NO_PRICE
    }

    lemma ValidSide(mem: seq<Node>)
      requires Valid(mem)
      ensures SideOk(mem, Side(), Lo(), Hi(), Queues(), Count())
    {
    }

    lemma ValidFlat(mem: seq<Node>)
      requires Valid(mem)
      ensures FlatOk(mem, Flat()) && Count() == |Flat()|
      ensures forall o :: o in Flat() <==> Queued(mem, Queues(), o)
    {
      ValidSide(mem);
      hide Valid, Queues, Side, Lo, Hi, Count;
      FlattenMembers(mem, Side(), Queues());
      FlattenDistinct(mem, Side(), Queues());
      hide Flatten;
      var f := Flat();
      forall i | 0 <= i < |f|
        ensures var o := mem[f[i]].order; o.side == Side() && Lo() <= o.price <= Hi() && o.price != NO_PRICE
      {
        assert f[i] in f;
        assert Queued(mem, Queues(), f[i]);
      }
    }

    /** The cached level of a queued price. */
    ghost function LevelAt(mem: seq<Node>, p: int): (l: Level)
      requires Valid(mem) && p in Queues()
      reads Obj()
      ensures LevelOk(mem, l, p, Queues()[p])
    {
      match this
      case Bitset(b) =>
        assert OrderBookSide.Cell(mem, b.levels[p - b.minPrice], b.minPrice + (p - b.minPrice), b.queues);
        b.levels[p - b.minPrice]
      case Sorted(v) =>
        assert SortedSide.HasPrice(v.nodes, p);
        var i :| 0 <= i < |v.nodes| && v.nodes[i].price == p;
        v.nodes[i].level
      case Mapped(t) => t.levels[p]
    }

    /** The link out of the front order leads to the second one if that has the same price. */
    lemma NextOfHead(mem: seq<Node>)
      requires Valid(mem) && Flat() != []
      ensures AllIn(mem, Flat())
      ensures var f := Flat();
              mem[f[0]].next == (if |f| > 1 && mem[f[1]].order.price == mem[f[0]].order.price then f[1] else NIL)
    {
      ValidSide(mem);
      hide Valid, Side, Lo, Hi;
      var m := Queues();
      assert m != map[];
      var b := BestOf(Side(), m.Keys);
      HeadNext(mem, Side(), m, LevelAt(mem, b));
    }

    /** A change that leaves this side's cells alone keeps it valid. */
    lemma Frame(mem: seq<Node>, mem': seq<Node>)
      requires Valid(mem) && |mem'| == |mem|
      requires forall i :: 0 <= i < |Flat()| && InStore(mem, Flat()[i]) ==> mem'[Flat()[i]] == mem[Flat()[i]]
      ensures Valid(mem')
    {
      ValidFlat(mem);
      ValidSide(mem);
      SameFromFlat(mem, mem', Side(), Queues());
      hide SameCells, SideOk, Flatten, Queued, FlatOk;
      match this
      case Bitset(b) => b.Frame(mem, mem');
      case Sorted(v) => v.Frame(mem, mem');
      case Mapped(t) => t.Frame(mem, mem');
    }

    /** Dispatch of `add`, in terms of the price queues. */
    method AddToQueue(pool: Pool, o: Ptr)
      requires Valid(pool.storage) && InStore(pool.storage, o) && !Queued(pool.storage, Queues(), o)
      requires var x := pool.storage[o].order; x.side == Side() && Lo() <= x.price <= Hi() && x.price != NO_PRICE
      modifies Obj(), pool`storage
      ensures Valid(pool.storage) && Relinked(old(pool.storage), pool.storage, Side())
      ensures InStore(pool.storage, o) && pool.storage[o].order == old(pool.storage[o].order)
      ensures Queues() == AddTo(old(Queues()), pool.storage[o].order.price, o)
    {
      hide SideOk, Queued;
      match this {
        case Bitset(b) => b.Add(pool, o);
        case Sorted(v) => v.Add(pool, o);
        case Mapped(t) => t.Add(pool, o);
      }
    }

    /** Dispatch of `remove`, in terms of the price queues. */
    method RemoveFromQueue(pool: Pool, o: Ptr) returns (ghost k: nat)
      requires Valid(pool.storage) && Queued(pool.storage, Queues(), o)
      modifies Obj(), pool`storage
      ensures Valid(pool.storage) && Relinked(old(pool.storage), pool.storage, Side())
      ensures InStore(pool.storage, o) && var p := pool.storage[o].order.price;
              && p in old(Queues()) && k < |old(Queues())[p]| && old(Queues())[p][k] == o
              && Queues() == RemoveFrom(old(Queues()), p, k)
    {
      hide SideOk;
      match this {
        case Bitset(b) => k := b.Remove(pool, o);
        case Sorted(v) => k := v.Remove(pool, o);
        case Mapped(t) => k := t.Remove(pool, o);
      }
    }

    method Add(pool: Pool, o: Ptr)
      requires Valid(pool.storage) && InStore(pool.storage, o) && o !in Flat()
      requires var x := pool.storage[o].order; x.side == Side() && Lo() <= x.price <= Hi() && x.price != NO_PRICE
      modifies Obj(), pool`storage
      ensures Valid(pool.storage) && Relinked(old(pool.storage), pool.storage, Side())
      ensures AllIn(pool.storage, Flat()) && AllIn(pool.storage, old(Flat()))
      ensures Deref(pool.storage, Flat()) == Insert(Deref(pool.storage, old(Flat())), pool.storage[o].order)
      ensures forall x :: x in Flat() <==> x in old(Flat()) || x == o
      ensures Count() == old(Count()) + 1
    {
      hide Valid, Flatten, QueuesOk, Relinked, Insert, Queues, Queued, Side, Count;
      ghost var mem, was := pool.storage, Queues();
      ValidFlat(mem);
      ValidSide(mem);
      AddToQueue(pool, o);
      AddedFlat(mem, pool.storage, Side(), was, o);
      ValidFlat(pool.storage);
      InsertLength(Deref(pool.storage, old(Flat())), pool.storage[o].order);
    }

    method Remove(pool: Pool, o: Ptr) returns (ghost i: nat)
      requires Valid(pool.storage) && o in Flat()
      modifies Obj(), pool`storage
      ensures Valid(pool.storage) && Relinked(old(pool.storage), pool.storage, Side())
      ensures i < |old(Flat())| && old(Flat())[i] == o && Flat() == Cut(old(Flat()), i)
      ensures Count() + 1 == old(Count())
    {
      hide Valid, Flatten, QueuesOk, Relinked, Queues, Queued, Side, Count;
      ghost var mem, was := pool.storage, Queues();
      ValidFlat(mem);
      ghost var k := RemoveFromQueue(pool, o);
      ValidFlat(pool.storage);
      i := RemoveCuts(Side(), was, pool.storage[o].order.price, k);
    }

    method ReduceInPlace(pool: Pool, o: Ptr, n: nat)
      requires Valid(pool.storage) && o in Flat()
      requires InStore(pool.storage, o) && n <= pool.storage[o].order.remaining
      modifies Obj(), pool`storage
      ensures Valid(pool.storage) && pool.storage == Reduced(old(pool.storage), o, n)
      ensures Flat() == old(Flat()) && Count() == old(Count())
    {
      hide Flatten, SideOk;
      ValidFlat(pool.storage);
      match this {
        case Bitset(b) => b.ReduceInPlace(pool, o, n);
        case Sorted(v) => v.ReduceInPlace(pool, o, n);
        case Mapped(t) => t.ReduceInPlace(pool, o, n);
      }
    }

    /** The best level: its price, its head (the front of the flat list) and its total. */
    method BestLevel(ghost mem: seq<Node>) returns (r: Option<Level>)
      requires Valid(mem)
      ensures AllIn(mem, Flat())
      ensures r.None? <==> Flat() == []
      ensures r.Some? ==> r.value.head == Flat()[0] && r.value.price == mem[Flat()[0]].order.price
      ensures r.Some? ==> r.value.totalQty == TopQty(Deref(mem, Flat()))
    {
      hide Flatten, SideOk, TopQty, Sum;
      ValidSide(mem);
      match this {
        case Bitset(b) => r := b.BestLevel(mem);
        case Sorted(v) => r := v.BestLevel(mem);
        case Mapped(t) => r := t.BestLevel(mem);
      }
      BestOfFlat(mem, Side(), Lo(), Hi(), Queues(), Count(), r);
    }

    method MarketableQty(taker: Side, limit: int, ghost mem: seq<Node>) returns (total: nat)
      requires Valid(mem) && taker == Opposite(Side())
      ensures AllIn(mem, Flat()) && total == Marketable(taker, limit, Deref(mem, Flat()))
    {
      hide Flatten, Marketable, MarketOf;
      ValidSide(mem);
      MarketIsMarketable(mem, taker, limit, Queues());
      match this {
        case Bitset(b) => total := b.MarketableQty(taker, limit, mem);
        case Sorted(v) => total := v.MarketableQty(taker, limit, mem);
        case Mapped(t) => total := t.MarketableQty(taker, limit, mem);
      }
    }

    method Snapshot(maxLevels: nat, ghost mem: seq<Node>) returns (out: seq<DepthEntry>)
      requires Valid(mem)
      ensures AllIn(mem, Flat()) && out == Depth(Deref(mem, Flat()), maxLevels)
    {
      hide Flatten, Depth, DepthOf;
      ValidSide(mem);
      DepthIsDepth(mem, Side(), Queues(), maxLevels);
      match this {
        case Bitset(b) => out := b.Snapshot(maxLevels, mem);
        case Sorted(v) => out := v.Snapshot(maxLevels, mem);
        case Mapped(t) => out := t.Snapshot(maxLevels, mem);
      }
    }
  }

  /** An empty side of the chosen kind. */
  method NewSide(kind: Kind, s: Side, lo: int, hi: int) returns (r: BookSide)
    requires lo <= hi
    ensures fresh(r.Obj()) && r.Side() == s && r.Lo() == lo && r.Hi() == hi
    ensures r.Flat() == [] && r.Count() == 0
    ensures forall mem :: r.Valid(mem)
  {
    match kind {
      case BitsetKind =>
        var b := new OrderBookSide.BitsetSide(s, lo, hi);
        r := Bitset(b);
      case SortedVectorKind =>
        var v := new SortedSide.SortedVectorSide(s, lo, hi);
        r := Sorted(v);
      case MapKind =>
        var t := new MapSide.MapBookSide(s, lo, hi);
        r := Mapped(t);
    }
    r.ValidFlat([]);
  }

  lemma InsertLength(q: seq<Order>, o: Order)
    ensures |Insert(q, o)| == |q| + 1
  {
  }

  lemma SameFromFlat(mem: seq<Node>, mem': seq<Node>, side: Side, m: Ladder)
    requires QueuesOk(mem, side, m) && |mem'| == |mem|
    requires forall i :: 0 <= i < |Flatten(side, m)| && InStore(mem, Flatten(side, m)[i]) ==>
               mem'[Flatten(side, m)[i]] == mem[Flatten(side, m)[i]]
    ensures SameCells(mem, mem', m)
  {
    FlattenMembers(mem, side, m);
    var f := Flatten(side, m);
    hide Flatten;
    forall p, k | p in m && 0 <= k < |m[p]| && InStore(mem, m[p][k]) ensures mem'[m[p][k]] == mem[m[p][k]] {
      assert QueueOk(mem, side, p, m[p]);
      assert Queued(mem, m, m[p][k]);
      assert m[p][k] in f;
      var i :| 0 <= i < |f| && f[i] == m[p][k];
    }
  }

  lemma AddedFlat(mem: seq<Node>, mem': seq<Node>, side: Side, m: Ladder, o: Ptr)
    requires QueuesOk(mem, side, m) && Relinked(mem, mem', side)
    requires InStore(mem, o) && mem[o].order.side == side && !Queued(mem, m, o)
    ensures var m' := AddTo(m, mem[o].order.price, o);
            && AllIn(mem', Flatten(side, m')) && AllIn(mem', Flatten(side, m))
            && Deref(mem', Flatten(side, m')) == Insert(Deref(mem', Flatten(side, m)), mem'[o].order)
            && forall x :: x in Flatten(side, m') <==> x in Flatten(side, m) || x == o
  {
    var p := mem[o].order.price;
    RelinkedQueuesOk(mem, mem', side, m);
    AddKeepsOk(mem', side, m, p, o);
    AddInserts(mem', side, m, p, o);
    FlattenMembers(mem', side, m);
    FlattenMembers(mem', side, AddTo(m, p, o));
    hide Flatten, Insert, QueuesOk;
  }

  lemma BestOfFlat(mem: seq<Node>, side: Side, lo: int, hi: int, m: Ladder, count: nat, r: Option<Level>)
    requires SideOk(mem, side, lo, hi, m, count)
    requires r.None? <==> m == map[]
    requires r.Some? ==> var b := BestOf(side, m.Keys); LevelOk(mem, r.value, b, m[b])
    ensures var f := Flatten(side, m);
            && AllIn(mem, f) && (r.None? <==> f == [])
            && (r.Some? ==> && r.value.head == f[0] && r.value.price == mem[f[0]].order.price
                            && r.value.totalQty == TopQty(Deref(mem, f)))
  {
    TopOfSide(mem, side, m);
    hide Flatten, TopQty;
    if r.Some? {
      var b := BestOf(side, m.Keys);
      assert QueueOk(mem, side, b, m[b]);
    }
  }

  /** The link out of the front order leads to the second one if that has the same price. */
  lemma HeadNext(mem: seq<Node>, side: Side, m: Ladder, l: Level)
    requires QueuesOk(mem, side, m) && m != map[]
    requires var b := BestOf(side, m.Keys); LevelOk(mem, l, b, m[b])
    ensures var f := Flatten(side, m);
            && AllIn(mem, f) && f != []
            && mem[f[0]].next == (if |f| > 1 && mem[f[1]].order.price == mem[f[0]].order.price then f[1] else NIL)
  {
    var b := BestOf(side, m.Keys);
    RestIsWorse(mem, side, m, b);
    var q, r := m[b], Flatten(side, m - {b});
    assert QueueOk(mem, side, b, q);
    assert LinkedAt(mem, q, 0);
    var f := q + r;
    assert |q| == 1 && |f| > 1 ==> f[1] == r[0];
  }
}

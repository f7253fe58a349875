/** The resting orders: both book sides, the id index and the order pool, kept in agreement.

    The four parts are separate objects that refer to each other's contents by cell number, so
    each change to one is matched by a change to the others before an operation returns:

    - an order at rest occupies one cell, one place in one price level and one index entry;
    - a cell without an order is blank and on the free list;
    - the flat list of a side, read through the cells, is what the engine's specification sees. */
module OrderStore {
  import opened Types
  import opened PriceTime
  import opened ObjectPool
  import opened PriceLevel
  import opened SideBase
  import opened Queues
  import opened Powers
  import opened Book
  import F = FlatPtrMap
  import S = EngineSpec

  // --- index, pool and book agree ----------------------------------------------------------

  ghost predicate Listed(fb: seq<Ptr>, fa: seq<Ptr>, p: Ptr) {
    p in fb || p in fa
  }

  /** The free list is the complement of the queued cells, and the index maps exactly the ids
      of the queued orders to their cells. */
  ghost predicate Linked(mem: seq<Node>, free: seq<Ptr>, fb: seq<Ptr>, fa: seq<Ptr>, entries: map<nat, Ptr>) {
    && AllIn(mem, fb) && AllIn(mem, fa)
    && (forall p :: InStore(mem, p) ==> (p in free <==> !Listed(fb, fa, p)))
    && (forall p :: Listed(fb, fa, p) ==>
          InStore(mem, p) && mem[p].order.id in entries && entries[mem[p].order.id] == p)
    && (forall id :: id in entries ==> Listed(fb, fa, entries[id]) && mem[entries[id]].order.id == id)
  }

  ghost predicate SameIds(mem: seq<Node>, mem': seq<Node>) {
    |mem'| == |mem| && forall p :: 0 <= p < |mem| ==> mem'[p].order.id == mem[p].order.id
  }

  lemma LinkedSameIds(mem: seq<Node>, mem': seq<Node>, free: seq<Ptr>, fb: seq<Ptr>, fa: seq<Ptr>,
                      entries: map<nat, Ptr>)
    requires Linked(mem, free, fb, fa, entries) && SameIds(mem, mem')
    ensures Linked(mem', free, fb, fa, entries)
  {
  }

  lemma LinkedEmpty(mem: seq<Node>, free: seq<Ptr>)
    requires forall p :: 0 <= p < |mem| ==> p in free
    ensures Linked(mem, free, [], [], map[])
  {
  }

  lemma CutMembers(f: seq<Ptr>, i: nat)
    requires i < |f| && Distinct(f)
    ensures forall p :: p in Cut(f, i) <==> p in f && p != f[i]
  {
    var z := Cut(f, i);
    forall p ensures p in z <==> p in f && p != f[i] {
      if p in f && p != f[i] {
        var j :| 0 <= j < |f| && f[j] == p;
        assert z[if j < i then j else j - 1] == p;
      }
      if p in z {
        var j :| 0 <= j < |z| && z[j] == p;
        assert f[if j < i then j else j + 1] == p;
      }
    }
  }

  /** Dropping the order at `p`: out of its list, out of the index, back to the free list. */
  lemma LinkedDrop(mem: seq<Node>, mem': seq<Node>, free: seq<Ptr>, fb: seq<Ptr>, fa: seq<Ptr>,
                   fb': seq<Ptr>, fa': seq<Ptr>, entries: map<nat, Ptr>, p: Ptr)
    requires Linked(mem, free, fb, fa, entries) && Listed(fb, fa, p)
    requires forall x :: Listed(fb', fa', x) <==> Listed(fb, fa, x) && x != p
    requires SameIds(mem, mem')
    ensures InStore(mem, p) && Linked(mem'[p := BLANK], free + [p], fb', fa', entries - {mem[p].order.id})
  {
    var id := mem[p].order.id;
    var mem2 := mem'[p := BLANK];
    forall x | InStore(mem2, x) ensures x in free + [p] <==> !Listed(fb', fa', x) {
      assert x in free + [p] <==> x in free || x == p;
    }
    forall i | 0 <= i < |fb'| ensures 0 <= fb'[i] < |mem2| { assert Listed(fb', fa', fb'[i]); }
    forall i | 0 <= i < |fa'| ensures 0 <= fa'[i] < |mem2| { assert Listed(fb', fa', fa'[i]); }
  }

  /** Listing the fresh cell `p`, taken from the free list, under a new id. */
  lemma LinkedAdd(mem: seq<Node>, mem': seq<Node>, free: seq<Ptr>, free': seq<Ptr>, fb: seq<Ptr>, fa: seq<Ptr>,
                  fb': seq<Ptr>, fa': seq<Ptr>, entries: map<nat, Ptr>, p: Ptr)
    requires Linked(mem, free, fb, fa, entries) && free == free' + [p] && p !in free' && InStore(mem, p)
    requires forall x :: Listed(fb', fa', x) <==> Listed(fb, fa, x) || x == p
    requires |mem'| == |mem| && forall x :: 0 <= x < |mem| && x != p ==> mem'[x].order == mem[x].order
    requires mem'[p].order.id !in entries
    ensures Linked(mem', free', fb', fa', entries[mem'[p].order.id := p])
  {
    forall x | InStore(mem', x) ensures x in free' <==> !Listed(fb', fa', x) {
      assert x in free <==> x in free' || x == p;
    }
    forall i | 0 <= i < |fb'| ensures 0 <= fb'[i] < |mem'| { assert Listed(fb', fa', fb'[i]); }
    forall i | 0 <= i < |fa'| ensures 0 <= fa'[i] < |mem'| { assert Listed(fb', fa', fa'[i]); }
  }

  lemma DerefCut(mem: seq<Node>, mem': seq<Node>, f: seq<Ptr>, i: nat)
    requires AllIn(mem, f) && i < |f| && |mem'| == |mem| && Distinct(f)
    requires forall k :: 0 <= k < |f| && k != i ==> mem'[f[k]].order == mem[f[k]].order
    ensures AllIn(mem', Cut(f, i)) && Deref(mem', Cut(f, i)) == RemoveAt(Deref(mem, f), i)
  {
  }

  lemma ListsAfterDrop(s: Side, mem: seq<Node>, mem1: seq<Node>, f: seq<Ptr>, g: seq<Ptr>, p: Ptr, i: nat,
                       fb: seq<Ptr>, fa: seq<Ptr>)
    requires AllIn(mem, fb) && AllIn(mem, fa)
    requires f == (if s.Buy? then fb else fa) && g == (if s.Buy? then fa else fb)
    requires i < |f| && f[i] == p && Distinct(f) && p !in g && Relinked(mem, mem1, s)
    ensures var mem2 := mem1[p := BLANK];
            && AllIn(mem, f) && AllIn(mem, g) && AllIn(mem2, Cut(f, i)) && AllIn(mem2, g)
            && Deref(mem2, Cut(f, i)) == RemoveAt(Deref(mem, f), i) && Deref(mem2, g) == Deref(mem, g)
  {
    DerefCut(mem, mem1[p := BLANK], f, i);
    DerefSame(mem, mem1[p := BLANK], g);
  }

  /** Cells of the other side are untouched by a relinking of this one. */
  lemma OtherCells(b: BookSide, mem: seq<Node>, mem': seq<Node>, s: Side, f: seq<Ptr>)
    requires b.FlatOk(mem, f) && b.Side() == Opposite(s) && Relinked(mem, mem', s)
    ensures forall i :: 0 <= i < |f| ==> mem'[f[i]] == mem[f[i]]
  {
  }

  lemma TopOfNone()
    ensures BestPrice([]) == NO_PRICE && TopQty([]) == 0
  {
  }

  lemma DistinctAt(f: seq<Ptr>, i: nat, j: nat)
    requires Distinct(f) && i < |f| && j < |f| && f[i] == f[j]
    ensures i == j
  {
  }

  class Store {
    const lo: int
    const hi: int
    const capacity: nat
    const bid: BookSide
    const ask: BookSide
    const pool: Pool
    const index: F.Index

    function Half(s: Side): BookSide {
      if s.Buy? then bid else ask
    }

    ghost function Repr(): set<object> {
      {pool, index, bid.Obj(), ask.Obj()}
    }

    /** The parts are distinct objects cut to the same band. */
    ghost predicate Wired() {
      && bid.Obj() != ask.Obj()
      && bid.Obj() != pool && bid.Obj() != index && ask.Obj() != pool && ask.Obj() != index
      && bid.Side() == Buy && ask.Side() == Sell
      && bid.Lo() == ask.Lo() == lo && bid.Hi() == ask.Hi() == hi
    }

    ghost predicate Valid()
      reads Repr()
    {
      && Wired() && pool.Valid() && index.Valid()
      && bid.Valid(pool.storage) && ask.Valid(pool.storage)
      && |pool.storage| == capacity
      && Linked(pool.storage, pool.free, bid.Flat(), ask.Flat(), index.entries)
      && pool.inUse == index.size == bid.Count() + ask.Count()
      && F.Presized(capacity, pool.peak, |index.slots|)
    }

    ghost function Flat(s: Side): seq<Ptr>
      reads Repr()
    {
      Half(s).Flat()
    }

    /** One side of the book as a flat list of orders. */
    ghost function List(s: Side): seq<Order>
      reads Repr()
    {
      if AllIn(pool.storage, Flat(s)) then Deref(pool.storage, Flat(s)) else []
    }

    constructor (lo: int, hi: int, capacity: nat, kind: Kind, hash: nat -> nat)
      requires lo <= hi
      ensures Valid() && fresh(Repr()) && this.lo == lo && this.hi == hi && this.capacity == capacity
      ensures List(Buy) == [] && List(Sell) == []
      ensures |index.slots| == F.InitialCapacity(capacity, 16) && pool.peak == 0
    {
      F.NotAwkwardZero();
      hide F.InitialCapacity, F.Awkward, F.Index.Valid, Pool.Valid, Linked, BookSide.Valid, BookSide.Flat;
      this.lo, this.hi, this.capacity := lo, hi, capacity;
      var b := NewSide(kind, Buy, lo, hi);
      var a := NewSide(kind, Sell, lo, hi);
      bid, ask := b, a;
      var p := new Pool(capacity);
      pool := p;
      var x := new F.Index(capacity, hash);
      index := x;
      new;
      LinkedEmpty(pool.storage, pool.free);
    }

    /** Facts about the two flat lists. */
    lemma Flats()
      requires Valid()
      ensures bid.FlatOk(pool.storage, bid.Flat()) && ask.FlatOk(pool.storage, ask.Flat())
      ensures bid.Count() == |bid.Flat()| && ask.Count() == |ask.Flat()|
      ensures pool.inUse == |List(Buy)| + |List(Sell)|
    {
      bid.ValidFlat(pool.storage);
      ask.ValidFlat(pool.storage);
    }

    lemma IdIndexed(s: Side, i: nat)
      requires Valid() && i < |Flat(s)|
      ensures var p := Flat(s)[i];
              && InStore(pool.storage, p) && pool.storage[p].order.id in index.entries
              && index.entries[pool.storage[p].order.id] == p
    {
      assert Listed(bid.Flat(), ask.Flat(), Flat(s)[i]);
    }

    /** Cell `p` holds the order `id`, at position `i` of side `s`. */
    ghost predicate RestsAt(s: Side, i: nat, p: Ptr, id: nat)
      reads Repr()
    {
      && InStore(pool.storage, p) && pool.storage[p].order.id == id && pool.storage[p].order.side == s
      && i < |Flat(s)| && Flat(s)[i] == p && i < |List(s)| && List(s)[i] == pool.storage[p].order
    }

    lemma PlaceOfId(id: nat) returns (s: Side, i: nat)
      requires Valid() && id in index.entries
      ensures RestsAt(s, i, index.entries[id], id)
    {
      Flats();
      var p := index.entries[id];
      assert Listed(bid.Flat(), ask.Flat(), p);
      s := if p in bid.Flat() then Buy else Sell;
      i :| 0 <= i < |Flat(s)| && Flat(s)[i] == p;
    }

    /** An id is unique across both sides. */
    lemma UniqueId(s: Side, i: nat, t: Side, j: nat)
      requires Valid() && i < |List(s)| && j < |List(t)| && List(s)[i].id == List(t)[j].id
      ensures s == t && i == j
    {
      Flats();
      hide BookSide.Valid, BookSide.Flat, F.Index.Valid, Pool.Valid, F.Presized, Linked, Distinct;
      IdIndexed(s, i);
      IdIndexed(t, j);
      var p := Flat(s)[i];
      assert Flat(t)[j] == p;
      assert pool.storage[p].order.side == s && pool.storage[p].order.side == t;
      DistinctAt(Flat(s), i, j);
    }

    /** The index knows an id exactly when an order with that id rests on some side. */
    lemma IndexedIff(id: nat)
      requires Valid()
      ensures id in index.entries <==> HasId(List(Buy), id) || HasId(List(Sell), id)
      ensures id in index.entries ==> InStore(pool.storage, index.entries[id])
    {
      if id in index.entries {
        var s, i := PlaceOfId(id);
        assert List(s)[i].id == id;
      }
      hide BookSide.Valid, BookSide.Flat, F.Index.Valid, Pool.Valid, F.Presized, Linked;
      if HasId(List(Buy), id) { HeldIsIndexed(Buy, id); }
      if HasId(List(Sell), id) { HeldIsIndexed(Sell, id); }
    }

    lemma HeldIsIndexed(s: Side, id: nat)
      requires Valid() && HasId(List(s), id)
      ensures id in index.entries
    {
      hide BookSide.Valid, BookSide.Flat, F.Index.Valid, Pool.Valid, F.Presized, Linked;
      IdIndexed(s, PosOf(List(s), id));
    }

    /** The queue a listed cell stands in: that of its own side and price, whose cached level is
        a well-formed doubly linked list with exact totals. */
    ghost predicate WellPlaced(s: Side, p: Ptr)
      requires Valid()
      reads Repr()
    {
      && InStore(pool.storage, p) && pool.storage[p].order.side == s
      && var price, m := pool.storage[p].order.price, Half(s).Queues();
         price in m && p in m[price] && LevelOk(pool.storage, Half(s).LevelAt(pool.storage, price), price, m[price])
    }

    /** Index, pool and book describe the same set of orders: the index holds exactly the resting
        ids, every cell is either free or queued in exactly one place, the level that place
        belongs to is sound, and the three counts coincide. */
    lemma EverythingAgrees()
      requires Valid()
      ensures forall id :: id in index.entries <==> HasId(List(Buy), id) || HasId(List(Sell), id)
      ensures forall p :: InStore(pool.storage, p) ==> (p !in pool.free <==> p in Flat(Buy) || p in Flat(Sell))
      ensures Distinct(pool.free) && Distinct(Flat(Buy)) && Distinct(Flat(Sell))
      ensures forall p :: p in Flat(Buy) ==> p !in Flat(Sell) && WellPlaced(Buy, p)
      ensures forall p :: p in Flat(Sell) ==> WellPlaced(Sell, p)
      ensures pool.inUse == index.size == |List(Buy)| + |List(Sell)|
    {
      Flats();
      forall id ensures id in index.entries <==> HasId(List(Buy), id) || HasId(List(Sell), id) {
        IndexedIff(id);
      }
      forall p | InStore(pool.storage, p) ensures p !in pool.free <==> p in Flat(Buy) || p in Flat(Sell) {
        assert p in pool.free <==> !Listed(bid.Flat(), ask.Flat(), p);
      }
      hide HasId, List, Flat, Linked, BookSide.Valid;
      forall p | p in Flat(Buy) ensures p !in Flat(Sell) && WellPlaced(Buy, p) {
        InUse(Buy, p);
        IsWellPlaced(Buy, p);
      }
      forall p | p in Flat(Sell) ensures WellPlaced(Sell, p) {
        IsWellPlaced(Sell, p);
      }
    }

    lemma IsWellPlaced(s: Side, p: Ptr)
      requires Valid() && p in Flat(s)
      ensures WellPlaced(s, p)
    {
      var mem := pool.storage;
      Half(s).ValidFlat(mem);
      Half(s).ValidSide(mem);
      hide BookSide.Valid, Linked, BookSide.Flat, BookSide.Queues;
      var k := PlaceOf(mem, s, Half(s).Queues(), p);
      assert p in Half(s).Queues()[mem[p].order.price];
    }

    /** The resting order with this id, or a null pointer. */
    method Find(id: nat) returns (p: Ptr, ghost s: Side, ghost i: nat)
      requires Valid()
      ensures p == NIL <==> !HasId(List(Buy), id) && !HasId(List(Sell), id)
      ensures p != NIL ==> RestsAt(s, i, p, id)
    {
      hide Linked, HasId, F.Table, F.Presized, F.Index.Valid, Pool.Valid, BookSide.Valid, BookSide.Flat;
      IndexedIff(id);
      p := index.Find(id);
      s, i := Buy, 0;
      if p != NIL {
        s, i := PlaceOfId(id);
      }
    }

    method Best(s: Side) returns (r: Option<Level>)
      requires Valid()
      ensures r.None? <==> List(s) == []
      ensures r.Some? ==> Flat(s) != [] && r.value.head == Flat(s)[0]
      ensures BestPrice(List(s)) == if r.None? then NO_PRICE else r.value.price
      ensures TopQty(List(s)) == if r.None? then 0 else r.value.totalQty
    {
      TopOfNone();
      hide Linked, TopQty, BookSide.Valid, BookSide.Flat, F.Index.Valid, F.Presized, Pool.Valid;
      r := Half(s).BestLevel(pool.storage);
    }

    method MarketableQty(taker: Side, limit: int) returns (total: nat)
      requires Valid()
      ensures total == Marketable(taker, limit, List(Opposite(taker)))
    {
      hide Linked, Marketable;
      total := Half(Opposite(taker)).MarketableQty(taker, limit, pool.storage);
    }

    method Snapshot(s: Side, levels: nat) returns (depth: seq<DepthEntry>)
      requires Valid()
      ensures depth == Depth(List(s), levels)
    {
      hide Linked, Depth;
      depth := Half(s).Snapshot(levels, pool.storage);
    }

    /** Following the links from the front order stays within its price level. */
    lemma NextOfHead(s: Side)
      requires Valid() && Flat(s) != []
      ensures InStore(pool.storage, Flat(s)[0])
      ensures var next := pool.storage[Flat(s)[0]].next;
              if |Flat(s)| > 1 && List(s)[1].price == List(s)[0].price then next == Flat(s)[1] != NIL else next == NIL
    {
      Flats();
      Half(s).NextOfHead(pool.storage);
      hide Linked;
    }

    /** Take an order out of its book side, leaving the other side valid. */
    method Unlist(s: Side, p: Ptr) returns (ghost i: nat)
      requires Wired() && bid.Valid(pool.storage) && ask.Valid(pool.storage) && p in Flat(s)
      modifies Half(s).Obj(), pool`storage
      ensures bid.Valid(pool.storage) && ask.Valid(pool.storage) && Relinked(old(pool.storage), pool.storage, s)
      ensures i < |old(Flat(s))| && old(Flat(s))[i] == p && Flat(s) == Cut(old(Flat(s)), i)
      ensures Flat(Opposite(s)) == old(Flat(Opposite(s)))
      ensures Half(s).Count() + 1 == old(Half(s).Count()) && Half(Opposite(s)).Count() == old(Half(Opposite(s)).Count())
    {
      hide Relinked, Cut, BookSide.Valid, BookSide.Flat, Distinct;
      ghost var mem := pool.storage;
      ghost var other := Half(Opposite(s));
      other.ValidFlat(mem);
      i := Half(s).Remove(pool, p);
      OtherCells(other, mem, pool.storage, s, other.Flat());
      RelinkedLength(mem, pool.storage, s);
      other.Frame(mem, pool.storage);
    }

    /** A listed cell is in use, indexed under its id and on one side only. */
    lemma InUse(s: Side, p: Ptr)
      requires Valid() && p in Flat(s)
      ensures InStore(pool.storage, p) && p !in pool.free && pool.inUse > 0
      ensures Listed(bid.Flat(), ask.Flat(), p) && p !in Flat(Opposite(s))
      ensures Distinct(Flat(s)) && pool.storage[p].order.id in index.entries
    {
      hide BookSide.Valid, F.Index.Valid, F.Presized;
      Flats();
      assert Listed(bid.Flat(), ask.Flat(), p);
      var i :| 0 <= i < |Flat(s)| && Flat(s)[i] == p;
      if j :| 0 <= j < |Flat(Opposite(s))| && Flat(Opposite(s))[j] == p {
        assert false;
      }
    }

    /** Take a resting order out of the book, the index and the pool. */
    method Drop(s: Side, p: Ptr) returns (ghost i: nat)
      requires Valid() && p in Flat(s)
      modifies pool, index, Half(s).Obj()
      ensures Valid() && pool.highWater == old(pool.highWater)
      ensures i < |old(Flat(s))| && old(Flat(s))[i] == p && Flat(s) == Cut(old(Flat(s)), i)
      ensures List(s) == RemoveAt(old(List(s)), i) && List(Opposite(s)) == old(List(Opposite(s)))
    {
      hide Cut, Relinked, F.Presized, F.Table, IsPow2, F.Used, F.Index.Valid, Linked, Listed;
      hide BookSide.Valid, BookSide.Flat, Distinct, RemoveAt;
      InUse(s, p);
      ghost var mem, free, fb, fa, entries := pool.storage, pool.free, bid.Flat(), ask.Flat(), index.entries;
      ghost var f, g := Flat(s), Flat(Opposite(s));
      var id := pool.storage[p].order.id;
      i := Unlist(s, p);
      ghost var mem1 := pool.storage;
      RelinkedLength(mem, mem1, s);
      var _ := index.Erase(id);
      pool.Release(p);
      AfterDrop(s, mem, mem1, free, fb, fa, f, g, entries, p, i);
    }

    /** The pieces after a drop fit together again. */
    lemma AfterDrop(s: Side, mem: seq<Node>, mem1: seq<Node>, free: seq<Ptr>, fb: seq<Ptr>, fa: seq<Ptr>,
                    f: seq<Ptr>, g: seq<Ptr>, entries: map<nat, Ptr>, p: Ptr, i: nat)
      requires Wired() && Linked(mem, free, fb, fa, entries) && Listed(fb, fa, p)
      requires f == (if s.Buy? then fb else fa) && g == (if s.Buy? then fa else fb)
      requires i < |f| && f[i] == p && Distinct(f) && p !in g
      requires Relinked(mem, mem1, s) && pool.storage == mem1[p := BLANK] && pool.free == free + [p]
      requires bid.Valid(mem1) && ask.Valid(mem1)
      requires Flat(s) == Cut(f, i) && Flat(Opposite(s)) == g
      requires index.entries == entries - {mem[p].order.id}
      ensures bid.Valid(pool.storage) && ask.Valid(pool.storage)
      ensures Linked(pool.storage, pool.free, bid.Flat(), ask.Flat(), index.entries)
      ensures AllIn(mem, f) && AllIn(mem, g) && AllIn(pool.storage, Flat(s)) && AllIn(pool.storage, g)
      ensures Deref(pool.storage, Flat(s)) == RemoveAt(Deref(mem, f), i) && Deref(pool.storage, g) == Deref(mem, g)
    {
      hide BookSide.Valid;
      CutMembers(f, i);
      ListsAfterDrop(s, mem, mem1, f, g, p, i, fb, fa);
      hide Cut, Distinct;
      LinkedDrop(mem, mem1, free, fb, fa, bid.Flat(), ask.Flat(), entries, p);
      hide Linked;
      FrameAt(bid, mem1, p);
      FrameAt(ask, mem1, p);
    }

    lemma FrameAt(b: BookSide, mem1: seq<Node>, p: Ptr)
      requires b.Valid(mem1) && InStore(mem1, p) && p !in b.Flat() && pool.storage == mem1[p := BLANK]
      ensures b.Valid(pool.storage)
    {
      b.Frame(mem1, pool.storage);
    }

    /** The front order of a side that is not empty. */
    lemma FrontIs(s: Side)
      requires Valid() && Flat(s) != []
      ensures InStore(pool.storage, Flat(s)[0]) && List(s) != [] && |List(s)| == |Flat(s)|
      ensures RestsAt(s, 0, Flat(s)[0], List(s)[0].id)
      ensures List(s)[0] == pool.storage[Flat(s)[0]].order
    {
      Flats();
    }

    /** Take the front order of a side out. */
    method DropFront(s: Side, p: Ptr)
      requires Valid() && Flat(s) != [] && p == Flat(s)[0]
      modifies pool, index, Half(s).Obj()
      ensures Valid() && pool.highWater == old(pool.highWater)
      ensures old(List(s)) != [] && Flat(s) == old(Flat(s))[1..] && List(s) == old(List(s))[1..]
      ensures List(Opposite(s)) == old(List(Opposite(s)))
    {
      hide Linked, BookSide.Valid, BookSide.Flat, F.Index.Valid, F.Presized, F.Used, F.Table;
      FrontIs(s);
      InUse(s, p);
      ghost var i := Drop(s, p);
    }

    /** Take out the order that rests at position `i`. */
    method DropAt(s: Side, p: Ptr, ghost i: nat)
      requires Valid() && i < |List(s)| && RestsAt(s, i, p, List(s)[i].id)
      modifies pool, index, Half(s).Obj()
      ensures Valid() && pool.highWater == old(pool.highWater)
      ensures List(s) == RemoveAt(old(List(s)), i) && List(Opposite(s)) == old(List(Opposite(s)))
    {
      hide Linked, BookSide.Valid, RemoveAt;
      InUse(s, p);
      ghost var k := Drop(s, p);
    }

    method TickHighWater()
      requires Valid()
      modifies pool`highWater
      ensures Valid() && List(Buy) == old(List(Buy)) && List(Sell) == old(List(Sell))
      ensures pool.highWater == if pool.inUse > old(pool.highWater) then pool.inUse else old(pool.highWater)
    {
      hide Linked, BookSide.Valid, BookSide.Flat, F.Index.Valid;
      pool.TickHighWater();
    }

    /** The index has doubled exactly if the capacity is awkward and the store has been full. */
    lemma SlotsOf()
      requires Valid()
      ensures var c := F.InitialCapacity(capacity, 16);
              |index.slots| == if F.Awkward(capacity) && pool.peak == capacity then 2 * c else c
    {
      hide Linked, BookSide.Valid, F.Index.Valid, F.Awkward, F.InitialCapacity;
    }

    /** Capacity of the order index. */
    method Slots() returns (n: nat)
      requires Valid()
      ensures n == |index.slots|
    {
      n := |index.slots|;
    }

    /** Number of resting orders, as the index counts them. */
    method Size() returns (n: nat)
      requires Valid()
      ensures n == |List(Buy)| + |List(Sell)|
    {
      Flats();
      n := index.size;
    }

    /** Cut a resting order down in place. */
    method Reduce(s: Side, p: Ptr, n: nat, ghost i: nat)
      requires Valid() && i < |List(s)| && RestsAt(s, i, p, List(s)[i].id) && n <= List(s)[i].remaining
      modifies Half(s).Obj(), pool`storage
      ensures Valid() && Flat(s) == old(Flat(s)) && pool.storage == Reduced(old(pool.storage), p, n)
      ensures List(s) == old(List(s))[i := old(List(s))[i].(remaining := old(List(s))[i].remaining - n)]
      ensures List(Opposite(s)) == old(List(Opposite(s)))
    {
      hide F.Index.Valid, F.Presized, Linked, BookSide.Valid, BookSide.Flat, Distinct, Listed, Pool.Valid;
      ghost var mem, f, g := pool.storage, Flat(s), Flat(Opposite(s));
      InUse(s, p);
      Lists();
      ReduceCell(s, p, n);
      assert Flat(s) == f && Flat(Opposite(s)) == g;
      ReducedLinked(mem, p, n, pool.free, bid.Flat(), ask.Flat(), index.entries);
      ReducedList(mem, p, n, f, i);
      ReducedOther(mem, p, n, g);
    }

    /** Cut an order down in its cell, leaving both sides valid. */
    method ReduceCell(s: Side, p: Ptr, n: nat)
      requires Wired() && pool.Valid() && bid.Valid(pool.storage) && ask.Valid(pool.storage)
      requires InStore(pool.storage, p) && p in Flat(s) && p !in Flat(Opposite(s))
      requires n <= pool.storage[p].order.remaining
      modifies Half(s).Obj(), pool`storage
      ensures pool.Valid() && bid.Valid(pool.storage) && ask.Valid(pool.storage)
      ensures pool.storage == Reduced(old(pool.storage), p, n)
      ensures bid.Flat() == old(bid.Flat()) && ask.Flat() == old(ask.Flat())
      ensures bid.Count() == old(bid.Count()) && ask.Count() == old(ask.Count())
    {
      hide BookSide.Valid, BookSide.Flat;
      ghost var mem, other := pool.storage, Half(Opposite(s));
      other.ValidFlat(mem);
      Half(s).ReduceInPlace(pool, p, n);
      other.Frame(mem, pool.storage);
    }

    lemma Lists()
      requires Valid()
      ensures AllIn(pool.storage, Flat(Buy)) && AllIn(pool.storage, Flat(Sell))
      ensures Distinct(Flat(Buy)) && Distinct(Flat(Sell))
    {
      Flats();
    }

    /** Same price, smaller size: reduce in place, then recompute the original size as the new
        open size plus what `filled()` now says. */
    method SizeDown(s: Side, p: Ptr, qty: nat, ghost i: nat)
      requires Valid() && i < |List(s)| && RestsAt(s, i, p, List(s)[i].id) && qty < List(s)[i].remaining
      modifies Half(s).Obj(), pool`storage
      ensures Valid() && Flat(s) == old(Flat(s))
      ensures List(s) == old(List(s))[i := S.SizedDown(old(List(s))[i], qty)]
      ensures List(Opposite(s)) == old(List(Opposite(s)))
      ensures RestsAt(s, i, p, old(List(s))[i].id)
    {
      hide F.Index.Valid, F.Presized, F.Table, F.Used, Pool.Valid, Linked;
      hide BookSide.Valid, BookSide.Flat, Deref, Distinct;
      var o := pool.storage[p].order;
      Reduce(s, p, o.remaining - qty, i);
      var n := pool.storage[p];
      var filled := n.order.quantity - n.order.remaining;
      pool.storage := pool.storage[p := n.(order := n.order.(quantity := qty + filled))];
      assert pool.storage == Reduced(old(pool.storage), p, o.remaining - qty);
    }

    /** Bring an incoming order to rest: a pool cell, a place in the book, an index entry. */
    method Rest(inc: Order) returns (ok: bool)
      requires Valid() && inc.id != 0 && !HasId(List(Buy), inc.id) && !HasId(List(Sell), inc.id)
      requires lo <= inc.price <= hi && inc.price != NO_PRICE
      modifies pool, index, Half(inc.side).Obj()
      ensures Valid() && pool.highWater == old(pool.highWater)
      ensures ok <==> |old(List(Buy))| + |old(List(Sell))| < capacity
      ensures List(Opposite(inc.side)) == old(List(Opposite(inc.side)))
      ensures List(inc.side) == if ok then Insert(old(List(inc.side)), inc) else old(List(inc.side))
      ensures var resting := |List(Buy)| + |List(Sell)|;
              pool.peak == if resting > old(pool.peak) then resting else old(pool.peak)
    {
      hide F.Index.Valid, F.SlotsAfter, F.Presized, F.Table, F.Used, Pool.Valid, Linked, Deref;
      hide BookSide.Valid, BookSide.Flat, Distinct, Insert, HasId, Listed, List;
      ghost var free, peak := pool.free, pool.peak;
      Counts();
      IndexedIff(inc.id);
      var p := Reserve();
      if p == NIL {
        return false;
      }
      F.PresizedStep(capacity, index.size, peak, |index.slots|);
      RestAt(inc, p, free);
      Counts();
      return true;
    }

    /** Take a cell from the pool, if it has one. */
    method Reserve() returns (p: Ptr)
      requires Valid()
      modifies pool
      ensures pool.storage == old(pool.storage) && pool.highWater == old(pool.highWater)
      ensures List(Buy) == old(List(Buy)) && List(Sell) == old(List(Sell))
      ensures p == NIL <==> old(pool.inUse) == capacity
      ensures p == NIL ==> Valid() && pool.peak == old(pool.peak)
      ensures p != NIL ==> Reserved(p, old(pool.free)) && pool.inUse == old(pool.inUse) + 1
      ensures p != NIL ==> pool.peak == if pool.inUse > old(pool.peak) then pool.inUse else old(pool.peak)
    {
      hide F.Index.Valid, F.Presized, Linked, BookSide.Valid, BookSide.Flat, Distinct;
      p := pool.Acquire();
    }

    /** The parts agree as `Valid` says, but `p` has been taken from the free list `free`. */
    ghost predicate Reserved(p: Ptr, free: seq<Ptr>)
      reads Repr()
    {
      && Wired() && pool.Valid() && index.Valid()
      && bid.Valid(pool.storage) && ask.Valid(pool.storage)
      && InStore(pool.storage, p) && free == pool.free + [p] && p !in pool.free
      && Linked(pool.storage, free, bid.Flat(), ask.Flat(), index.entries)
    }

    /** Fill a reserved cell: a place in the book and an index entry. */
    method RestAt(inc: Order, p: Ptr, ghost free: seq<Ptr>)
      requires Reserved(p, free) && inc.id != 0 && inc.id !in index.entries
      requires lo <= inc.price <= hi && inc.price != NO_PRICE
      modifies pool`storage, index, Half(inc.side).Obj()
      ensures Wired() && pool.Valid() && index.Valid() && |pool.storage| == |old(pool.storage)|
      ensures bid.Valid(pool.storage) && ask.Valid(pool.storage)
      ensures Linked(pool.storage, pool.free, bid.Flat(), ask.Flat(), index.entries)
      ensures index.size == old(index.size) + 1 && bid.Count() + ask.Count() == old(bid.Count() + ask.Count()) + 1
      ensures |index.slots| == F.SlotsAfter(old(index.size), old(|index.slots|))
      ensures List(Opposite(inc.side)) == old(List(Opposite(inc.side)))
      ensures List(inc.side) == Insert(old(List(inc.side)), inc)
    {
      hide F.Index.Valid, F.SlotsAfter, Pool.Valid, Linked;
      hide BookSide.Valid, BookSide.Flat, Distinct, Insert, HasId, Listed;
      ghost var mem, fb, fa, entries := pool.storage, bid.Flat(), ask.Flat(), index.entries;
      FreshCell(mem, free, fb, fa, entries, p, pool.free);
      Enlist(inc, p);
      index.Insert(inc.id, p);
      AfterRest(inc.side, mem, free, fb, fa, entries, p);
    }

    /** The pieces after an addition fit together again. */
    lemma AfterRest(s: Side, mem: seq<Node>, free: seq<Ptr>, fb: seq<Ptr>, fa: seq<Ptr>, entries: map<nat, Ptr>, p: Ptr)
      requires Linked(mem, free, fb, fa, entries) && InStore(mem, p) && |pool.storage| == |mem|
      requires free == pool.free + [p] && p !in pool.free
      requires Flat(Opposite(s)) == (if s.Buy? then fa else fb)
      requires forall x :: x in Flat(s) <==> x in (if s.Buy? then fb else fa) || x == p
      requires forall x :: 0 <= x < |mem| && x != p ==> pool.storage[x].order == mem[x].order
      requires pool.storage[p].order.id !in entries
      ensures Linked(pool.storage, pool.free, bid.Flat(), ask.Flat(), entries[pool.storage[p].order.id := p])
    {
      hide Linked, BookSide.Flat;
      assert bid.Flat() == Flat(Buy) && ask.Flat() == Flat(Sell);
      LinkedAdd(mem, pool.storage, free, pool.free, fb, fa, bid.Flat(), ask.Flat(), entries, p);
    }

    lemma Counts()
      requires Valid()
      ensures pool.inUse == |List(Buy)| + |List(Sell)| && pool.inUse <= pool.peak <= capacity
      ensures AllIn(pool.storage, bid.Flat()) && AllIn(pool.storage, ask.Flat())
    {
      Flats();
    }

    /** Write an order to the fresh cell `p` and add it to its book side. */
    method Enlist(inc: Order, p: Ptr)
      requires Wired() && pool.Valid() && bid.Valid(pool.storage) && ask.Valid(pool.storage)
      requires InStore(pool.storage, p) && p !in bid.Flat() && p !in ask.Flat()
      requires lo <= inc.price <= hi && inc.price != NO_PRICE
      modifies Half(inc.side).Obj(), pool`storage
      ensures |pool.storage| == |old(pool.storage)| && pool.Valid()
      ensures bid.Valid(pool.storage) && ask.Valid(pool.storage)
      ensures pool.storage[p].order == inc
      ensures forall x :: 0 <= x < |pool.storage| && x != p ==> pool.storage[x].order == old(pool.storage)[x].order
      ensures Flat(Opposite(inc.side)) == old(Flat(Opposite(inc.side)))
      ensures forall x :: x in Flat(inc.side) <==> x in old(Flat(inc.side)) || x == p
      ensures AllIn(old(pool.storage), old(Flat(inc.side))) && AllIn(pool.storage, Flat(inc.side))
      ensures Deref(pool.storage, Flat(inc.side)) == Insert(Deref(old(pool.storage), old(Flat(inc.side))), inc)
      ensures Half(inc.side).Count() == old(Half(inc.side).Count()) + 1
      ensures Half(Opposite(inc.side)).Count() == old(Half(Opposite(inc.side)).Count())
    {
      hide BookSide.Valid, Insert;
      ghost var other, f := Half(Opposite(inc.side)), Flat(inc.side);
      ghost var mem := pool.storage;
      bid.ValidFlat(mem);
      ask.ValidFlat(mem);
      pool.storage := pool.storage[p := Node(inc, NIL, NIL)];
      ghost var mem1 := pool.storage;
      bid.Frame(mem, mem1);
      ask.Frame(mem, mem1);
      Half(inc.side).Add(pool, p);
      other.ValidFlat(mem1);
      OtherCells(other, mem1, pool.storage, inc.side, other.Flat());
      other.Frame(mem1, pool.storage);
      DerefSame(mem, pool.storage, f);
    }
  }

  /** The order index never rehashes during any life of the store unless the capacity is an
      awkward one; then filling the store rehashes it. Here: fill a new store to the brim with
      orders at one price. */
  method FillToCapacity(lo: int, hi: int, price: int, capacity: nat, kind: Kind, hash: nat -> nat)
    returns (before: nat, after: nat)
    requires lo <= price <= hi && price != NO_PRICE
    ensures before == F.InitialCapacity(capacity, 16)
    ensures after == if F.Awkward(capacity) then 2 * before else before
  {
    hide Store.Valid, Store.List, F.Awkward, F.InitialCapacity, Insert;
    var st := new Store(lo, hi, capacity, kind, hash);
    before := st.Slots();
    for i := 0 to capacity
      invariant fresh(st.Repr()) && st.Valid()
      invariant |st.List(Buy)| == i && st.List(Sell) == []
      invariant forall j :: 0 <= j < |st.List(Buy)| ==> 1 <= st.List(Buy)[j].id <= i
      invariant st.pool.peak == i && st.capacity == capacity
    {
      ghost var was := st.List(Buy);
      var inc := Order(i + 1, 1, price, 1, 1, i + 1, Buy, Limit);
      var ok := st.Rest(inc);
      ghost var k := InsertSplits(was, inc);
    }
    after := st.Slots();
    st.SlotsOf();
  }

  lemma FreshCell(mem: seq<Node>, free: seq<Ptr>, fb: seq<Ptr>, fa: seq<Ptr>, entries: map<nat, Ptr>,
                  p: Ptr, free': seq<Ptr>)
    requires Linked(mem, free, fb, fa, entries) && free == free' + [p] && InStore(mem, p)
    ensures p !in fb && p !in fa
  {
    assert p in free;
    assert Listed(fb, fa, p) <==> p in fb || p in fa;
  }

  lemma ReducedLinked(mem: seq<Node>, p: Ptr, n: nat, free: seq<Ptr>, fb: seq<Ptr>, fa: seq<Ptr>,
                      entries: map<nat, Ptr>)
    requires Linked(mem, free, fb, fa, entries) && InStore(mem, p) && n <= mem[p].order.remaining
    ensures Linked(Reduced(mem, p, n), free, fb, fa, entries)
  {
    LinkedSameIds(mem, Reduced(mem, p, n), free, fb, fa, entries);
  }

  lemma ReducedList(mem: seq<Node>, p: Ptr, n: nat, f: seq<Ptr>, i: nat)
    requires AllIn(mem, f) && Distinct(f) && i < |f| && f[i] == p && n <= mem[p].order.remaining
    ensures var o := mem[p].order;
            Deref(Reduced(mem, p, n), f) == Deref(mem, f)[i := o.(remaining := o.remaining - n)]
  {
  }

  lemma ReducedOther(mem: seq<Node>, p: Ptr, n: nat, f: seq<Ptr>)
    requires AllIn(mem, f) && p !in f && InStore(mem, p) && n <= mem[p].order.remaining
    ensures Deref(Reduced(mem, p, n), f) == Deref(mem, f)
  {
  }

  lemma RelinkedLength(mem: seq<Node>, mem': seq<Node>, s: Side)
    requires Relinked(mem, mem', s)
    ensures |mem'| == |mem| && SameIds(mem, mem')
  {
  }
}

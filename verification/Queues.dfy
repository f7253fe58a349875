/** One side of the book as a sorted map from price to queue: the contract all three book
    classes implement. Flattening it best price first gives the engine's flat side.

    The lemmas say what queueing, removing, summing and listing on the map are on the flat
    list, so that nothing above the books needs the map.
*/
module Queues {
  import opened Types
  import opened PriceTime
  import opened ObjectPool
  import opened PriceLevel

  type Ladder = map<int, seq<Ptr>>

  // --- the best key ---------------------------------------------------------------------

  ghost predicate IsBest(side: Side, keys: set<int>, b: int) {
    b in keys && forall k :: k in keys && k != b ==> Better(side, b, k)
  }

  lemma Pick<X>(s: set<X>) returns (x: X)
    requires s != {}
    ensures x in s
  {
    x :| x in s;
  }

  lemma {:induction false} BestExists(side: Side, keys: set<int>) returns (b: int)
    requires keys != {}
    ensures IsBest(side, keys, b)
  {
    var a := Pick(keys);
    var rest := keys - {a};
    b := a;
    if rest != {} {
      var c := BestExists(side, rest);
      if Better(side, c, a) {
        b := c;
      }
    }
    forall k | k in keys && k != b ensures Better(side, b, k) {
      assert k == a || k in rest;
    }
  }

  lemma HasBest(side: Side, keys: set<int>)
    requires keys != {}
    ensures exists b :: IsBest(side, keys, b)
  {
    var b := BestExists(side, keys);
  }

  ghost function BestOf(side: Side, keys: set<int>): (b: int)
    requires keys != {}
    ensures IsBest(side, keys, b)
  {
    HasBest(side, keys);
    var b :| IsBest(side, keys, b);
    b
  }

  lemma BestIs(side: Side, keys: set<int>, b: int)
    requires IsBest(side, keys, b)
    ensures BestOf(side, keys) == b
  {
  }

  // --- well-formed queues ------------------------------------------------------------------

  ghost predicate QueueOk(mem: seq<Node>, side: Side, p: int, q: seq<Ptr>) {
    && q != [] && Distinct(q) && AllIn(mem, q)
    && forall k :: 0 <= k < |q| ==> mem[q[k]].order.price == p && mem[q[k]].order.side == side
  }

  ghost predicate QueuesOk(mem: seq<Node>, side: Side, m: Ladder) {
    forall p :: p in m ==> QueueOk(mem, side, p, m[p])
  }

  /** Order `o` is queued at its own price. */
  ghost predicate Queued(mem: seq<Node>, m: Ladder, o: Ptr) {
    InStore(mem, o) && mem[o].order.price in m && o in m[mem[o].order.price]
  }

  ghost function QueueAt(m: Ladder, p: int): seq<Ptr> {
    if p in m then m[p] else []
  }

  ghost function AddTo(m: Ladder, p: int, o: Ptr): Ladder {
    m[p := QueueAt(m, p) + [o]]
  }

  ghost function RemoveFrom(m: Ladder, p: int, k: nat): Ladder
    requires p in m && k < |m[p]|
  {
    if |m[p]| == 1 then m - {p} else m[p := Cut(m[p], k)]
  }

  /** All queued orders, best price first, oldest first within a price. */
  ghost function Flatten(side: Side, m: Ladder): seq<Ptr>
    decreases |m|
  {
    if m == map[] then []
    else
      var b := BestOf(side, m.Keys);
      m[b] + Flatten(side, m - {b})
  }

  lemma FlattenBest(side: Side, m: Ladder, b: int)
    requires IsBest(side, m.Keys, b)
    ensures m != map[] && Flatten(side, m) == m[b] + Flatten(side, m - {b})
  {
    BestIs(side, m.Keys, b);
  }

  lemma {:induction false} FlattenMembers(mem: seq<Node>, side: Side, m: Ladder)
    requires QueuesOk(mem, side, m)
    ensures AllIn(mem, Flatten(side, m))
    ensures forall o :: o in Flatten(side, m) <==> Queued(mem, m, o)
    ensures forall i :: 0 <= i < |Flatten(side, m)| ==> mem[Flatten(side, m)[i]].order.side == side
    decreases |m|
  {
    if m != map[] {
      var b := BestOf(side, m.Keys);
      var r := m - {b};
      FlattenMembers(mem, side, r);
      var f := Flatten(side, m);
      forall o ensures o in f <==> Queued(mem, m, o) {
        if o in m[b] { assert Queued(mem, m, o); }
        if o in Flatten(side, r) { assert Queued(mem, r, o); }
        if Queued(mem, m, o) && mem[o].order.price != b { assert Queued(mem, r, o); }
      }
    }
  }

  lemma {:induction false} FlattenDistinct(mem: seq<Node>, side: Side, m: Ladder)
    requires QueuesOk(mem, side, m)
    ensures Distinct(Flatten(side, m))
    decreases |m|
  {
    if m != map[] {
      var b := BestOf(side, m.Keys);
      var r := m - {b};
      FlattenDistinct(mem, side, r);
      FlattenMembers(mem, side, r);
      var a, f := m[b], Flatten(side, r);
      forall i, j | 0 <= i < |a| && 0 <= j < |f| ensures a[i] != f[j] {
        assert f[j] in f;
        assert Queued(mem, r, f[j]);
      }
    }
  }

  /** The orders of a side in price-time order. */
  ghost function OrdersOf(mem: seq<Node>, side: Side, m: Ladder): seq<Order>
    requires AllIn(mem, Flatten(side, m))
  {
    Deref(mem, Flatten(side, m))
  }

  // --- adding ---------------------------------------------------------------------------------

  lemma {:induction false} InsertBehind(a: seq<Order>, r: seq<Order>, o: Order)
    requires forall i :: 0 <= i < |a| ==> !Better(o.side, o.price, a[i].price)
    ensures Insert(a + r, o) == a + Insert(r, o)
  {
    if a == [] {
      assert a + r == r;
    } else {
      assert (a + r)[1..] == a[1..] + r;
      InsertBehind(a[1..], r, o);
    }
  }

  lemma DerefConcat(mem: seq<Node>, a: seq<Ptr>, b: seq<Ptr>)
    requires AllIn(mem, a) && AllIn(mem, b)
    ensures AllIn(mem, a + b) && Deref(mem, a + b) == Deref(mem, a) + Deref(mem, b)
  {
  }

  /** What lies behind the best price is strictly worse than it. */
  lemma RestIsWorse(mem: seq<Node>, side: Side, m: Ladder, b: int)
    requires QueuesOk(mem, side, m) && IsBest(side, m.Keys, b)
    ensures QueuesOk(mem, side, m - {b}) && AllIn(mem, Flatten(side, m - {b}))
    ensures forall i :: 0 <= i < |Flatten(side, m - {b})| ==>
              Better(side, b, mem[Flatten(side, m - {b})[i]].order.price)
  {
    var r := m - {b};
    FlattenMembers(mem, side, r);
    forall i | 0 <= i < |Flatten(side, r)| ensures Better(side, b, mem[Flatten(side, r)[i]].order.price) {
      assert Flatten(side, r)[i] in Flatten(side, r);
      assert Queued(mem, r, Flatten(side, r)[i]);
    }
  }

  /** A newcomer goes behind the orders of its own price and ahead of everything worse. */
  lemma InsertBetween(a: seq<Order>, r: seq<Order>, o: Order)
    requires forall i :: 0 <= i < |a| ==> a[i].price == o.price
    requires r == [] || Better(o.side, o.price, r[0].price)
    ensures Insert(a + r, o) == (a + [o]) + r
  {
    InsertBehind(a, r, o);
    calc {
      Insert(a + r, o);
      a + Insert(r, o);
      a + ([o] + r);
      (a + [o]) + r;
    }
  }

  /** The flat side before and after queueing at the best price. */
  lemma FlattenAddBest(mem: seq<Node>, side: Side, m: Ladder, p: int, o: Ptr)
    requires QueuesOk(mem, side, m) && IsBest(side, m.Keys + {p}, p)
    ensures Flatten(side, m) == QueueAt(m, p) + Flatten(side, m - {p})
    ensures Flatten(side, AddTo(m, p, o)) == (QueueAt(m, p) + [o]) + Flatten(side, m - {p})
    ensures QueuesOk(mem, side, m - {p}) && AllIn(mem, Flatten(side, m - {p}))
    ensures forall i :: 0 <= i < |Flatten(side, m - {p})| ==>
              Better(side, p, mem[Flatten(side, m - {p})[i]].order.price)
  {
    var m', r := AddTo(m, p, o), m - {p};
    assert m'.Keys == m.Keys + {p};
    FlattenBest(side, m', p);
    assert m' - {p} == r;
    FlattenMembers(mem, side, r);
    forall i | 0 <= i < |Flatten(side, r)| ensures Better(side, p, mem[Flatten(side, r)[i]].order.price) {
      assert Flatten(side, r)[i] in Flatten(side, r);
      assert Queued(mem, r, Flatten(side, r)[i]);
    }
    if p in m {
      FlattenBest(side, m, p);
    } else {
      assert r == m;
      assert [] + Flatten(side, r) == Flatten(side, r);
    }
  }

  lemma DerefInsert(mem: seq<Node>, q: seq<Ptr>, rest: seq<Ptr>, o: Ptr)
    requires AllIn(mem, q) && AllIn(mem, rest) && InStore(mem, o)
    requires forall i :: 0 <= i < |q| ==> mem[q[i]].order.price == mem[o].order.price
    requires rest == [] || Better(mem[o].order.side, mem[o].order.price, mem[rest[0]].order.price)
    ensures AllIn(mem, q + rest) && AllIn(mem, (q + [o]) + rest)
    ensures Deref(mem, (q + [o]) + rest) == Insert(Deref(mem, q + rest), mem[o].order)
  {
    InsertBetween(Deref(mem, q), Deref(mem, rest), mem[o].order);
    assert Deref(mem, q + rest) == Deref(mem, q) + Deref(mem, rest);
    assert Deref(mem, (q + [o]) + rest) == (Deref(mem, q) + [mem[o].order]) + Deref(mem, rest);
  }

  lemma AddAtBest(mem: seq<Node>, side: Side, m: Ladder, p: int, o: Ptr)
    requires QueuesOk(mem, side, m) && InStore(mem, o)
    requires mem[o].order.price == p && mem[o].order.side == side
    requires IsBest(side, m.Keys + {p}, p)
    ensures AllIn(mem, Flatten(side, AddTo(m, p, o))) && AllIn(mem, Flatten(side, m))
    ensures OrdersOf(mem, side, AddTo(m, p, o)) == Insert(OrdersOf(mem, side, m), mem[o].order)
  {
    FlattenAddBest(mem, side, m, p, o);
    DerefInsert(mem, QueueAt(m, p), Flatten(side, m - {p}), o);
  }

  /** Queueing at a price is insertion in price-time order. */
  lemma {:induction false} AddInserts(mem: seq<Node>, side: Side, m: Ladder, p: int, o: Ptr)
    requires QueuesOk(mem, side, m) && InStore(mem, o)
    requires mem[o].order.price == p && mem[o].order.side == side
    ensures AllIn(mem, Flatten(side, AddTo(m, p, o))) && AllIn(mem, Flatten(side, m))
    ensures OrdersOf(mem, side, AddTo(m, p, o)) == Insert(OrdersOf(mem, side, m), mem[o].order)
    decreases |m|
  {
    var b := BestOf(side, m.Keys + {p});
    if b == p {
      AddAtBest(mem, side, m, p, o);
    } else {
      var r := m - {b};
      FlattenAddWorse(side, m, p, o, b);
      AddInserts(mem, side, r, p, o);
      DerefConcat(mem, m[b], Flatten(side, r));
      DerefConcat(mem, m[b], Flatten(side, AddTo(r, p, o)));
      InsertBehind(Deref(mem, m[b]), OrdersOf(mem, side, r), mem[o].order);
    }
  }

  lemma FlattenAddWorse(side: Side, m: Ladder, p: int, o: Ptr, b: int)
    requires IsBest(side, m.Keys + {p}, b) && b != p
    ensures b in m && Better(side, b, p)
    ensures Flatten(side, m) == m[b] + Flatten(side, m - {b})
    ensures Flatten(side, AddTo(m, p, o)) == m[b] + Flatten(side, AddTo(m - {b}, p, o))
  {
    var m' := AddTo(m, p, o);
    assert m'.Keys == m.Keys + {p};
    assert IsBest(side, m.Keys, b);
    FlattenBest(side, m', b);
    FlattenBest(side, m, b);
    assert m' - {b} == AddTo(m - {b}, p, o);
  }

  // --- removing ---------------------------------------------------------------------------------

  lemma CutConcat(a: seq<Ptr>, b: seq<Ptr>, k: nat)
    requires k < |a| + |b|
    ensures Cut(a + b, k) == if k < |a| then Cut(a, k) + b else a + Cut(b, k - |a|)
  {
  }

  lemma RemoveAtBest(side: Side, m: Ladder, p: int, k: nat)
    requires IsBest(side, m.Keys, p) && k < |m[p]|
    ensures k < |Flatten(side, m)| && Flatten(side, m)[k] == m[p][k]
    ensures Flatten(side, RemoveFrom(m, p, k)) == Cut(Flatten(side, m), k)
  {
    var r, m' := m - {p}, RemoveFrom(m, p, k);
    FlattenBest(side, m, p);
    CutConcat(m[p], Flatten(side, r), k);
    if |m[p]| == 1 {
      assert Cut(m[p], k) == [];
    } else {
      assert m'.Keys == m.Keys;
      FlattenBest(side, m', p);
      assert m' - {p} == r;
    }
  }

  /** Taking `m[p][k]` out takes one position out of the flat side; at the best price it is
      position `k` itself. */
  lemma {:induction false} RemoveCuts(side: Side, m: Ladder, p: int, k: nat) returns (i: nat)
    requires p in m && k < |m[p]|
    ensures i < |Flatten(side, m)| && Flatten(side, m)[i] == m[p][k]
    ensures Flatten(side, RemoveFrom(m, p, k)) == Cut(Flatten(side, m), i)
    ensures p == BestOf(side, m.Keys) ==> i == k
    decreases |m|
  {
    var b := BestOf(side, m.Keys);
    if b == p {
      i := k;
      RemoveAtBest(side, m, p, k);
    } else {
      var r := m - {b};
      var j := RemoveCuts(side, r, p, k);
      i := |m[b]| + j;
      FlattenRemoveWorse(side, m, p, k, b);
      CutConcat(m[b], Flatten(side, r), i);
    }
  }

  lemma FlattenRemoveWorse(side: Side, m: Ladder, p: int, k: nat, b: int)
    requires p in m && k < |m[p]| && IsBest(side, m.Keys, b) && b != p
    ensures Flatten(side, m) == m[b] + Flatten(side, m - {b})
    ensures Flatten(side, RemoveFrom(m, p, k)) == m[b] + Flatten(side, RemoveFrom(m - {b}, p, k))
  {
    var m' := RemoveFrom(m, p, k);
    FlattenBest(side, m, b);
    FlattenBest(side, m', b);
    assert m' - {b} == RemoveFrom(m - {b}, p, k);
  }

  lemma RemoveKeepsOk(mem: seq<Node>, side: Side, m: Ladder, p: int, k: nat)
    requires QueuesOk(mem, side, m) && p in m && k < |m[p]|
    ensures QueuesOk(mem, side, RemoveFrom(m, p, k))
    ensures forall o :: Queued(mem, RemoveFrom(m, p, k), o) <==> Queued(mem, m, o) && o != m[p][k]
  {
    var q := m[p];
    var z := Cut(q, k);
    assert forall i :: 0 <= i < |z| ==> z[i] == q[if i < k then i else i + 1];
    forall o ensures Queued(mem, RemoveFrom(m, p, k), o) <==> Queued(mem, m, o) && o != q[k] {
      if o in q && o != q[k] {
        var i :| 0 <= i < |q| && q[i] == o;
        assert o == z[if i < k then i else i - 1];
      }
    }
  }

  lemma AddKeepsOk(mem: seq<Node>, side: Side, m: Ladder, p: int, o: Ptr)
    requires QueuesOk(mem, side, m) && InStore(mem, o) && !Queued(mem, m, o)
    requires mem[o].order.price == p && mem[o].order.side == side
    ensures QueuesOk(mem, side, AddTo(m, p, o))
    ensures forall x :: Queued(mem, AddTo(m, p, o), x) <==> Queued(mem, m, x) || x == o
  {
  }

  // --- changing one order in place -------------------------------------------------------------

  lemma FlattenSame(mem: seq<Node>, mem': seq<Node>, side: Side, m: Ladder)
    requires QueuesOk(mem, side, m) && |mem'| == |mem|
    requires forall p :: 0 <= p < |mem| ==>
               mem'[p].order.price == mem[p].order.price && mem'[p].order.side == mem[p].order.side
    ensures QueuesOk(mem', side, m)
    ensures AllIn(mem, Flatten(side, m)) && AllIn(mem', Flatten(side, m))
  {
    FlattenMembers(mem, side, m);
  }

  // --- the top and the depth of a side ---------------------------------------------------------

  lemma {:induction false} AtPriceConcat(a: seq<Order>, r: seq<Order>, p: int)
    requires forall i :: 0 <= i < |a| ==> a[i].price == p
    requires r == [] || r[0].price != p
    ensures AtPrice(a + r, p) == Sum(a)
  {
    if a == [] {
      assert a + r == r;
    } else {
      assert (a + r)[1..] == a[1..] + r;
      AtPriceConcat(a[1..], r, p);
    }
  }

  /** The best level is the front of the flat side, and its total is the size at the top. */
  lemma TopOfSide(mem: seq<Node>, side: Side, m: Ladder)
    requires QueuesOk(mem, side, m)
    ensures AllIn(mem, Flatten(side, m))
    ensures m == map[] <==> Flatten(side, m) == []
    ensures m != map[] ==>
              var b := BestOf(side, m.Keys);
              && Flatten(side, m)[0] == m[b][0] && BestPrice(OrdersOf(mem, side, m)) == b
              && TopQty(OrdersOf(mem, side, m)) == Sum(Deref(mem, m[b]))
  {
    FlattenMembers(mem, side, m);
    if m != map[] {
      var b := BestOf(side, m.Keys);
      RestIsWorse(mem, side, m, b);
      DerefConcat(mem, m[b], Flatten(side, m - {b}));
      AtPriceConcat(Deref(mem, m[b]), Deref(mem, Flatten(side, m - {b})), b);
    }
  }

  /** What an aggressor on `taker` can take, level by level from the best. */
  ghost function MarketOf(mem: seq<Node>, taker: Side, limit: int, m: Ladder): nat
    requires QueuesOk(mem, Opposite(taker), m)
    decreases |m|
  {
    if m == map[] then 0
    else
      var b := BestOf(Opposite(taker), m.Keys);
      if !Crosses(taker, limit, b) then 0
      else Sum(Deref(mem, m[b])) + MarketOf(mem, taker, limit, m - {b})
  }

  lemma {:induction false} ReachConcat(side: Side, limit: int, a: seq<Order>, r: seq<Order>)
    requires forall i :: 0 <= i < |a| ==> Crosses(side, limit, a[i].price)
    ensures Reach(side, limit, a + r) == |a| + Reach(side, limit, r)
  {
    if a == [] {
      assert a + r == r;
    } else {
      assert (a + r)[1..] == a[1..] + r;
      ReachConcat(side, limit, a[1..], r);
    }
  }

  lemma MarketableNone(taker: Side, limit: int, q: seq<Order>)
    requires q == [] || !Crosses(taker, limit, q[0].price)
    ensures Marketable(taker, limit, q) == 0
  {
    assert q[..0] == [];
  }

  /** Orders at one price in front: all of them count, or nothing does. */
  lemma {:induction false} MarketableConcat(taker: Side, limit: int, d: seq<Order>, e: seq<Order>, b: int)
    requires d != [] && forall i :: 0 <= i < |d| ==> d[i].price == b
    ensures Marketable(taker, limit, d + e)
         == if Crosses(taker, limit, b) then Sum(d) + Marketable(taker, limit, e) else 0
  {
    if Crosses(taker, limit, b) {
      var n := Reach(taker, limit, e);
      ReachConcat(taker, limit, d, e);
      hide Reach, Sum;
      assert (d + e)[..|d| + n] == d + e[..n];
      SumConcat(d, e[..n]);
    } else {
      assert (d + e)[0] == d[0];
      MarketableNone(taker, limit, d + e);
    }
  }

  lemma {:induction false} MarketIsMarketable(mem: seq<Node>, taker: Side, limit: int, m: Ladder)
    requires QueuesOk(mem, Opposite(taker), m)
    ensures AllIn(mem, Flatten(Opposite(taker), m))
    ensures MarketOf(mem, taker, limit, m) == Marketable(taker, limit, OrdersOf(mem, Opposite(taker), m))
    decreases |m|
  {
    MarketableNone(taker, limit, []);
    hide Sum, Marketable;
    var side := Opposite(taker);
    FlattenMembers(mem, side, m);
    if m != map[] {
      var b := BestOf(side, m.Keys);
      var r := m - {b};
      FlattenMembers(mem, side, r);
      DerefConcat(mem, m[b], Flatten(side, r));
      MarketableConcat(taker, limit, Deref(mem, m[b]), OrdersOf(mem, side, r), b);
      if Crosses(taker, limit, b) {
        MarketIsMarketable(mem, taker, limit, r);
      }
    }
  }

  datatype DepthEntry = DepthEntry(price: int, qty: nat, orders: nat)

  /** The depth of a side: its `n` best prices with their totals and order counts. */
  ghost function DepthOf(mem: seq<Node>, side: Side, m: Ladder, n: nat): seq<DepthEntry>
    requires QueuesOk(mem, side, m)
    decreases |m|
  {
    if m == map[] || n == 0 then []
    else
      var b := BestOf(side, m.Keys);
      [DepthEntry(b, Sum(Deref(mem, m[b])), |m[b]|)] + DepthOf(mem, side, m - {b}, n - 1)
  }

  /** Number of leading orders priced exactly `p`. */
  function CountAt(q: seq<Order>, p: int): (n: nat)
    ensures n <= |q|
  {
    if q == [] || q[0].price != p then 0 else 1 + CountAt(q[1..], p)
  }

  /** The depth of a flat side, price by price. */
  ghost function Depth(q: seq<Order>, n: nat): seq<DepthEntry>
    decreases n
  {
    if q == [] || n == 0 then []
    else
      var p := q[0].price;
      [DepthEntry(p, AtPrice(q, p), CountAt(q, p))] + Depth(q[CountAt(q, p)..], n - 1)
  }

  lemma {:induction false} CountConcat(a: seq<Order>, r: seq<Order>, p: int)
    requires forall i :: 0 <= i < |a| ==> a[i].price == p
    requires r == [] || r[0].price != p
    ensures CountAt(a + r, p) == |a|
  {
    if a == [] {
      assert a + r == r;
    } else {
      assert (a + r)[1..] == a[1..] + r;
      CountConcat(a[1..], r, p);
    }
  }

  lemma {:induction false} DepthNone(q: seq<Order>, n: nat)
    requires q == [] || n == 0
    ensures Depth(q, n) == []
  {
  }

  /** The first price of a flat side and the rest of it. */
  lemma DepthCons(d: seq<Order>, e: seq<Order>, b: int, n: nat)
    requires d != [] && forall i :: 0 <= i < |d| ==> d[i].price == b
    requires e == [] || e[0].price != b
    ensures Depth(d + e, n + 1) == [DepthEntry(b, Sum(d), |d|)] + Depth(e, n)
  {
    AtPriceConcat(d, e, b);
    CountConcat(d, e, b);
    assert (d + e)[|d|..] == e;
    assert (d + e)[0].price == b;
  }

  lemma {:induction false} DepthIsDepth(mem: seq<Node>, side: Side, m: Ladder, n: nat)
    requires QueuesOk(mem, side, m)
    ensures AllIn(mem, Flatten(side, m))
    ensures DepthOf(mem, side, m, n) == Depth(OrdersOf(mem, side, m), n)
    decreases |m|
  {
    hide AtPrice, CountAt, Sum, Depth;
    FlattenMembers(mem, side, m);
    if m == map[] || n == 0 {
      DepthNone(OrdersOf(mem, side, m), n);
    } else {
      var b := BestOf(side, m.Keys);
      var r := m - {b};
      RestIsWorse(mem, side, m, b);
      DerefConcat(mem, m[b], Flatten(side, r));
      DepthCons(Deref(mem, m[b]), OrdersOf(mem, side, r), b, n - 1);
      DepthIsDepth(mem, side, r, n - 1);
    }
  }
}

/** What every book side keeps, and how a change to one price level leaves the rest alone.

    The three book classes share these facts: each of them represents the same map from price to
    queue, caches one level per queued price, and touches only the cells of its own side when it
    relinks a list.
*/
module SideBase {
  import opened Types
  import opened PriceTime
  import opened ObjectPool
  import opened PriceLevel
  import opened Queues

  /** The abstract side: well-formed queues inside the price band, and the cached order count. */
  ghost predicate SideOk(mem: seq<Node>, side: Side, lo: int, hi: int, m: Ladder, count: nat) {
    && QueuesOk(mem, side, m)
    && (forall p :: p in m ==> lo <= p <= hi && p != NO_PRICE)
    && count == |Flatten(side, m)|
  }

  /** The cached level of every price in `m` is right. */
  ghost predicate LevelOk(mem: seq<Node>, l: Level, p: int, q: seq<Ptr>) {
    Holds(mem, l, q) && l.price == p
  }

  /** A change to one side's lists: no order changes, and no cell of the other side. */
  ghost predicate Relinked(mem: seq<Node>, mem': seq<Node>, side: Side) {
    && |mem'| == |mem|
    && (forall p :: 0 <= p < |mem| ==> mem'[p].order == mem[p].order)
    && (forall p :: 0 <= p < |mem| && mem[p].order.side != side ==> mem'[p] == mem[p])
  }

  lemma HoldsFrame(mem: seq<Node>, mem': seq<Node>, l: Level, q: seq<Ptr>)
    requires Holds(mem, l, q) && |mem'| == |mem|
    requires forall k :: 0 <= k < |q| ==> mem'[q[k]] == mem[q[k]]
    ensures Holds(mem', l, q)
  {
    forall k | 0 <= k < |q| ensures LinkedAt(mem', q, k) {
      assert LinkedAt(mem, q, k);
    }
    DerefSame(mem, mem', q);
  }

  /** Only links changed, and those only in cells with orders at price `p`. */
  ghost predicate OnlyAt(mem: seq<Node>, mem': seq<Node>, touched: seq<Ptr>, p: int) {
    && OnlyLinks(mem, mem', touched) && AllIn(mem, touched)
    && forall i :: 0 <= i < |touched| ==> mem[touched[i]].order.price == p
  }

  lemma AddOnlyAt(mem: seq<Node>, mem': seq<Node>, side: Side, m: Ladder, p: int, o: Ptr)
    requires QueuesOk(mem, side, m) && InStore(mem, o) && mem[o].order.price == p
    requires OnlyLinks(mem, mem', QueueAt(m, p) + [o])
    ensures OnlyAt(mem, mem', QueueAt(m, p) + [o], p)
  {
    hide OnlyLinks;
  }

  lemma RemoveOnlyAt(mem: seq<Node>, mem': seq<Node>, side: Side, m: Ladder, p: int)
    requires QueuesOk(mem, side, m) && p in m && OnlyLinks(mem, mem', m[p])
    ensures OnlyAt(mem, mem', m[p], p)
  {
    hide OnlyLinks;
  }

  /** Relinking cells of one price leaves every other price's level right. */
  lemma OtherLevels(mem: seq<Node>, mem': seq<Node>, side: Side, m: Ladder,
                    p: int, touched: seq<Ptr>, p': int, l: Level)
    requires QueuesOk(mem, side, m) && OnlyAt(mem, mem', touched, p)
    requires p' in m && p' != p && LevelOk(mem, l, p', m[p'])
    ensures LevelOk(mem', l, p', m[p'])
  {
    var q := m[p'];
    forall k | 0 <= k < |q| ensures mem'[q[k]] == mem[q[k]] {
      assert mem[q[k]].order.price == p';
      assert q[k] !in touched;
    }
    HoldsFrame(mem, mem', l, q);
  }

  lemma OnlyLinksRelinks(mem: seq<Node>, mem': seq<Node>, side: Side, touched: seq<Ptr>)
    requires OnlyLinks(mem, mem', touched) && AllIn(mem, touched)
    requires forall i :: 0 <= i < |touched| ==> mem[touched[i]].order.side == side
    ensures Relinked(mem, mem', side)
  {
    forall p | 0 <= p < |mem| && mem[p].order.side != side ensures mem'[p] == mem[p] {
      assert p !in touched;
    }
  }

  lemma RelinkedQueuesOk(mem: seq<Node>, mem': seq<Node>, side: Side, m: Ladder)
    requires QueuesOk(mem, side, m) && Relinked(mem, mem', side)
    ensures QueuesOk(mem', side, m)
  {
  }

  /** The abstract side after queueing `o`. */
  lemma AddedOk(mem: seq<Node>, mem': seq<Node>, side: Side, lo: int, hi: int, m: Ladder, count: nat, o: Ptr)
    requires SideOk(mem, side, lo, hi, m, count) && Relinked(mem, mem', side)
    requires InStore(mem, o) && mem[o].order.side == side && !Queued(mem, m, o)
    requires lo <= mem[o].order.price <= hi && mem[o].order.price != NO_PRICE
    ensures SideOk(mem', side, lo, hi, AddTo(m, mem[o].order.price, o), count + 1)
  {
    RelinkedQueuesOk(mem, mem', side, m);
    AddKeepsOk(mem', side, m, mem[o].order.price, o);
    AddInserts(mem', side, m, mem[o].order.price, o);
  }

  /** The abstract side after taking `m[p][k]` out. */
  lemma RemovedOk(mem: seq<Node>, mem': seq<Node>, side: Side, lo: int, hi: int, m: Ladder, count: nat, p: int, k: nat)
    requires SideOk(mem, side, lo, hi, m, count) && Relinked(mem, mem', side)
    requires p in m && k < |m[p]|
    ensures count > 0 && SideOk(mem', side, lo, hi, RemoveFrom(m, p, k), count - 1)
  {
    RelinkedQueuesOk(mem, mem', side, m);
    RemoveKeepsOk(mem', side, m, p, k);
    var i := RemoveCuts(side, m, p, k);
  }

  /** Storage with order `o` cut down by `n`. */
  function Reduced(mem: seq<Node>, o: Ptr, n: nat): seq<Node>
    requires 0 <= o < |mem| && n <= mem[o].order.remaining
  {
    mem[o := mem[o].(order := mem[o].order.(remaining := mem[o].order.remaining - n))]
  }

  lemma ReducedSum(mem: seq<Node>, q: seq<Ptr>, k: nat, n: nat)
    requires Chain(mem, q) && k < |q| && n <= mem[q[k]].order.remaining
    ensures Chain(Reduced(mem, q[k], n), q)
    ensures Sum(Deref(mem, q)) == Sum(Deref(Reduced(mem, q[k], n), q)) + n
  {
    var mem' := Reduced(mem, q[k], n);
    forall i | 0 <= i < |q| ensures LinkedAt(mem', q, i) {
      assert LinkedAt(mem, q, i);
    }
    var d, e := Deref(mem, q), Deref(mem', q);
    SumSplit(d, k);
    SumSplit(e, k);
    assert d[..k] == e[..k] && d[k + 1..] == e[k + 1..];
  }

  /** A reduction touches the total of the order's own level and nothing else. */
  lemma ReducedLevel(mem: seq<Node>, side: Side, m: Ladder, o: Ptr, n: nat, p: int, l: Level)
    requires QueuesOk(mem, side, m) && Queued(mem, m, o) && n <= mem[o].order.remaining
    requires p in m && LevelOk(mem, l, p, m[p])
    ensures p == mem[o].order.price ==>
              l.totalQty >= n && LevelOk(Reduced(mem, o, n), l.(totalQty := l.totalQty - n), p, m[p])
    ensures p != mem[o].order.price ==> LevelOk(Reduced(mem, o, n), l, p, m[p])
  {
    var q := m[p];
    if p == mem[o].order.price {
      var k :| 0 <= k < |q| && q[k] == o;
      ReducedSum(mem, q, k, n);
    } else {
      HoldsFrame(mem, Reduced(mem, o, n), l, q);
    }
  }

  lemma ReducedOk(mem: seq<Node>, side: Side, lo: int, hi: int, m: Ladder, count: nat, o: Ptr, n: nat)
    requires SideOk(mem, side, lo, hi, m, count) && InStore(mem, o) && n <= mem[o].order.remaining
    ensures SideOk(Reduced(mem, o, n), side, lo, hi, m, count)
  {
    FlattenSame(mem, Reduced(mem, o, n), side, m);
  }

  /** The level for `o`'s price, new or existing, is ready to take it. */
  lemma ReadyToPush(mem: seq<Node>, side: Side, m: Ladder, o: Ptr, l: Level)
    requires QueuesOk(mem, side, m) && InStore(mem, o) && !Queued(mem, m, o)
    requires var p := mem[o].order.price; if p in m then LevelOk(mem, l, p, m[p]) else l == EMPTY.(price := p)
    ensures Holds(mem, l, QueueAt(m, mem[o].order.price)) && o !in QueueAt(m, mem[o].order.price)
  {
    assert Deref(mem, []) == [];
  }

  lemma AddRelinks(mem: seq<Node>, mem': seq<Node>, side: Side, m: Ladder, o: Ptr)
    requires QueuesOk(mem, side, m) && InStore(mem, o) && mem[o].order.side == side
    requires OnlyLinks(mem, mem', QueueAt(m, mem[o].order.price) + [o])
    ensures Relinked(mem, mem', side)
  {
    OnlyLinksRelinks(mem, mem', side, QueueAt(m, mem[o].order.price) + [o]);
  }

  lemma RemoveRelinks(mem: seq<Node>, mem': seq<Node>, side: Side, m: Ladder, p: int)
    requires QueuesOk(mem, side, m) && p in m && OnlyLinks(mem, mem', m[p])
    ensures Relinked(mem, mem', side)
  {
    OnlyLinksRelinks(mem, mem', side, m[p]);
  }

  lemma EmptyWhenCut(mem: seq<Node>, l: Level, p: int, q: seq<Ptr>, k: nat)
    requires k < |q| && LevelOk(mem, l, p, Cut(q, k))
    ensures Empty(l) <==> |q| == 1
    ensures Empty(l) ==> l == EMPTY.(price := p)
  {
    assert Cut(q, k) == [] <==> |q| == 1;
  }

  /** One step of the walk from the best price inward. */
  lemma MarketCons(mem: seq<Node>, taker: Side, limit: int, m: Ladder, b: int, l: Level)
    requires QueuesOk(mem, Opposite(taker), m) && IsBest(Opposite(taker), m.Keys, b) && LevelOk(mem, l, b, m[b])
    ensures QueuesOk(mem, Opposite(taker), m - {b})
    ensures MarketOf(mem, taker, limit, m)
         == if Crosses(taker, limit, b) then l.totalQty + MarketOf(mem, taker, limit, m - {b}) else 0
  {
    BestIs(Opposite(taker), m.Keys, b);
  }

  lemma DepthOfCons(mem: seq<Node>, side: Side, m: Ladder, n: nat, b: int, l: Level, out: seq<DepthEntry>)
    requires QueuesOk(mem, side, m) && IsBest(side, m.Keys, b) && LevelOk(mem, l, b, m[b]) && n > 0
    ensures out + DepthOf(mem, side, m, n)
         == (out + [DepthEntry(b, l.totalQty, l.count)]) + DepthOf(mem, side, m - {b}, n - 1)
  {
    BestIs(side, m.Keys, b);
  }

  lemma MarketOfNone(mem: seq<Node>, taker: Side, limit: int)
    ensures MarketOf(mem, taker, limit, map[]) == 0
  {
  }

  lemma DepthOfEnds(mem: seq<Node>, side: Side, m: Ladder, n: nat, out: seq<DepthEntry>)
    requires QueuesOk(mem, side, m) && (m == map[] || n == 0)
    ensures out + DepthOf(mem, side, m, n) == out
  {
  }

  /** The place of a queued order in its price's queue. */
  lemma PlaceOf(mem: seq<Node>, side: Side, m: Ladder, o: Ptr) returns (k: nat)
    requires QueuesOk(mem, side, m) && Queued(mem, m, o)
    ensures var p := mem[o].order.price;
            p in m && k < |m[p]| && m[p][k] == o && mem[o].order.side == side
  {
    var q := m[mem[o].order.price];
    k :| 0 <= k < |q| && q[k] == o;
  }

  /** No cell queued in `m` differs between the two storages. */
  ghost predicate SameCells(mem: seq<Node>, mem': seq<Node>, m: Ladder) {
    && |mem'| == |mem|
    && forall p, k :: p in m && 0 <= k < |m[p]| && InStore(mem, m[p][k]) ==> mem'[m[p][k]] == mem[m[p][k]]
  }

  lemma FrameLevel(mem: seq<Node>, mem': seq<Node>, side: Side, m: Ladder, p: int, l: Level)
    requires QueuesOk(mem, side, m) && SameCells(mem, mem', m) && p in m && LevelOk(mem, l, p, m[p])
    ensures LevelOk(mem', l, p, m[p])
  {
    HoldsFrame(mem, mem', l, m[p]);
  }

  lemma FrameOk(mem: seq<Node>, mem': seq<Node>, side: Side, lo: int, hi: int, m: Ladder, count: nat)
    requires SideOk(mem, side, lo, hi, m, count) && SameCells(mem, mem', m)
    ensures SideOk(mem', side, lo, hi, m, count)
  {
    hide Flatten;
    forall p | p in m ensures QueueOk(mem', side, p, m[p]) {
      assert QueueOk(mem, side, p, m[p]);
    }
  }
}

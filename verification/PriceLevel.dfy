/** One price point: a FIFO of orders threaded through the pool's storage, with cached totals. */
module PriceLevel {
  import opened Types
  import opened PriceTime
  import opened ObjectPool

  datatype Level = Level(price: int, totalQty: nat, count: nat, head: Ptr, tail: Ptr)

  const EMPTY: Level := Level(NO_PRICE, 0, 0, NIL, NIL)

  predicate Empty(l: Level) {
    l.head == NIL
  }

  ghost predicate AllIn(mem: seq<Node>, q: seq<Ptr>) {
    forall k :: 0 <= k < |q| ==> 0 <= q[k] < |mem|
  }

  /** The orders behind a list of pointers. */
  ghost function Deref(mem: seq<Node>, q: seq<Ptr>): (r: seq<Order>)
    requires AllIn(mem, q)
    ensures |r| == |q| && forall k :: 0 <= k < |q| ==> r[k] == mem[q[k]].order
  {
    seq(|q|, k requires 0 <= k < |q| => mem[q[k]].order)
  }

  /** Cell `q[k]` is linked to its neighbours in `q`. */
  ghost predicate LinkedAt(mem: seq<Node>, q: seq<Ptr>, k: int)
    requires 0 <= k < |q| && InStore(mem, q[k])
  {
    && mem[q[k]].prev == (if k == 0 then NIL else q[k - 1])
    && mem[q[k]].next == (if k == |q| - 1 then NIL else q[k + 1])
  }

  /** The cells of `q`, in this order, form a well-linked doubly linked list. */
  ghost predicate Chain(mem: seq<Node>, q: seq<Ptr>) {
    && Distinct(q)
    && AllIn(mem, q)
    && (forall k :: 0 <= k < |q| ==> LinkedAt(mem, q, k))
  }

  /** The level's ends are those of the list, and its totals are the list's sums. */
  ghost predicate Holds(mem: seq<Node>, l: Level, q: seq<Ptr>) {
    && Chain(mem, q)
    && l.head == (if q == [] then NIL else q[0])
    && l.tail == (if q == [] then NIL else q[|q| - 1])
    && l.count == |q|
    && l.totalQty == Sum(Deref(mem, q))
  }

  /** Nothing but list links changed, and those only in the cells of `touched`. */
  ghost predicate OnlyLinks(before: seq<Node>, after: seq<Node>, touched: seq<Ptr>) {
    && |after| == |before|
    && (forall p :: 0 <= p < |after| ==> after[p].order == before[p].order)
    && (forall p :: 0 <= p < |after| && p !in touched ==> after[p] == before[p])
  }

  lemma SumSnoc(mem: seq<Node>, q: seq<Ptr>, o: Ptr)
    requires AllIn(mem, q)
    requires InStore(mem, o)
    ensures Deref(mem, q + [o]) == Deref(mem, q) + [mem[o].order]
    ensures Sum(Deref(mem, q + [o])) == Sum(Deref(mem, q)) + mem[o].order.remaining
  {
    SumConcat(Deref(mem, q), [mem[o].order]);
  }

  lemma DerefSame(mem: seq<Node>, mem': seq<Node>, q: seq<Ptr>)
    requires |mem'| == |mem| && AllIn(mem, q)
    requires forall k :: 0 <= k < |q| ==> mem'[q[k]].order == mem[q[k]].order
    ensures Deref(mem', q) == Deref(mem, q)
  {
  }

  lemma ChainAppend(mem: seq<Node>, q: seq<Ptr>, o: Ptr, mem': seq<Node>)
    requires Chain(mem, q) && InStore(mem, o) && o !in q
    requires |mem'| == |mem|
    requires mem'[o].next == NIL && mem'[o].prev == if q == [] then NIL else q[|q| - 1]
    requires forall k :: 0 <= k < |q| - 1 ==> mem'[q[k]] == mem[q[k]]
    requires q != [] ==> mem'[q[|q| - 1]] == mem[q[|q| - 1]].(next := o)
    ensures Chain(mem', q + [o])
  {
    var r := q + [o];
    forall k | 0 <= k < |r| ensures LinkedAt(mem', r, k) {
      if k < |q| { assert LinkedAt(mem, q, k); }
    }
  }

  /** Append an order to the tail. */
  method PushBack(l: Level, pool: Pool, o: Ptr, ghost q: seq<Ptr>) returns (r: Level)
    requires Holds(pool.storage, l, q) && InStore(pool.storage, o) && o !in q
    modifies pool`storage
    ensures Holds(pool.storage, r, q + [o]) && r.price == l.price
    ensures OnlyLinks(old(pool.storage), pool.storage, q + [o])
  {
    ghost var mem := pool.storage;
    pool.storage := pool.storage[o := pool.storage[o].(prev := l.tail, next := NIL)];
    if l.tail != NIL {
      pool.storage := pool.storage[l.tail := pool.storage[l.tail].(next := o)];
      r := l;
    } else {
      r := l.(head := o);
    }
    r := r.(tail := o, totalQty := l.totalQty + pool.storage[o].order.remaining, count := l.count + 1);
    ChainAppend(mem, q, o, pool.storage);
    SumSnoc(mem, q, o);
    DerefSame(mem, pool.storage, q + [o]);
  }

  ghost function Cut(q: seq<Ptr>, k: nat): seq<Ptr>
    requires k < |q|
  {
    q[..k] + q[k + 1..]
  }

  lemma SumCut(mem: seq<Node>, q: seq<Ptr>, k: nat)
    requires k < |q| && AllIn(mem, q)
    ensures Deref(mem, Cut(q, k)) == RemoveAt(Deref(mem, q), k)
    ensures Sum(Deref(mem, q)) == Sum(Deref(mem, Cut(q, k))) + mem[q[k]].order.remaining
  {
    var d := Deref(mem, q);
    SumSplit(d, k);
    SumConcat(d[..k], d[k + 1..]);
  }

  lemma ChainCut(mem: seq<Node>, q: seq<Ptr>, k: nat, mem': seq<Node>)
    requires Chain(mem, q) && k < |q| && |mem'| == |mem|
    requires forall i :: 0 <= i < |q| && i != k - 1 && i != k && i != k + 1 ==> mem'[q[i]] == mem[q[i]]
    requires k > 0 ==> mem'[q[k - 1]] == mem[q[k - 1]].(next := mem[q[k]].next)
    requires k + 1 < |q| ==> mem'[q[k + 1]] == mem[q[k + 1]].(prev := mem[q[k]].prev)
    ensures Chain(mem', Cut(q, k))
  {
    var r := Cut(q, k);
    assert LinkedAt(mem, q, k);
    assert forall i :: 0 <= i < |r| ==> r[i] == q[if i < k then i else i + 1];
    hide Cut;
    forall i | 0 <= i < |r| ensures LinkedAt(mem', r, i) {
      assert LinkedAt(mem, q, if i < k then i else i + 1);
    }
  }

  ghost predicate LinksIn(mem: seq<Node>, o: Ptr) {
    && InStore(mem, o)
    && (mem[o].prev == NIL || InStore(mem, mem[o].prev))
    && (mem[o].next == NIL || InStore(mem, mem[o].next))
  }

  /** The storage after `o` has been bridged over and its own links cleared. */
  ghost function Bridged(mem: seq<Node>, o: Ptr): seq<Node>
    requires LinksIn(mem, o)
  {
    var p, n := mem[o].prev, mem[o].next;
    var m1 := if p != NIL then mem[p := mem[p].(next := n)] else mem;
    var m2 := if n != NIL then m1[n := m1[n].(prev := p)] else m1;
    m2[o := m2[o].(prev := NIL, next := NIL)]
  }

  lemma BridgedChain(mem: seq<Node>, q: seq<Ptr>, k: nat)
    requires Chain(mem, q) && k < |q|
    ensures var o := q[k];
            && LinksIn(mem, o)
            && mem[o].prev == (if k == 0 then NIL else q[k - 1])
            && mem[o].next == (if k == |q| - 1 then NIL else q[k + 1])
            && Chain(Bridged(mem, o), Cut(q, k)) && OnlyLinks(mem, Bridged(mem, o), q)
            && Bridged(mem, o)[o].prev == NIL && Bridged(mem, o)[o].next == NIL
  {
    assert LinkedAt(mem, q, k);
    ChainCut(mem, q, k, Bridged(mem, q[k]));
  }

  /** The ends of the list once `q[k]` is gone. */
  lemma CutEnds(q: seq<Ptr>, k: nat)
    requires k < |q|
    ensures var z := Cut(q, k);
            && |z| == |q| - 1
            && (z != [] ==> z[0] == (if k == 0 then q[1] else q[0]))
            && (z != [] ==> z[|z| - 1] == (if k == |q| - 1 then q[k - 1] else q[|q| - 1]))
  {
  }

  lemma TotalAfterCut(mem: seq<Node>, q: seq<Ptr>, k: nat, mem': seq<Node>)
    requires AllIn(mem, q) && k < |q| && |mem'| == |mem|
    requires forall p :: 0 <= p < |mem| ==> mem'[p].order == mem[p].order
    ensures Sum(Deref(mem, q)) == Sum(Deref(mem', Cut(q, k))) + mem[q[k]].order.remaining
  {
    SumCut(mem, q, k);
    DerefSame(mem, mem', Cut(q, k));
  }

  /** The level after taking out the order whose links are `p` and `n`. */
  ghost predicate Bypassed(l: Level, r: Level, p: Ptr, n: Ptr, size: nat) {
    && r.price == l.price
    && r.head == (if p != NIL then l.head else n)
    && r.tail == (if n != NIL then l.tail else p)
    && r.totalQty == l.totalQty - size && r.count == l.count - 1
  }

  lemma BypassedHolds(mem: seq<Node>, l: Level, q: seq<Ptr>, k: nat)
    requires Holds(mem, l, q) && k < |q|
    ensures l.count > 0 && l.totalQty >= mem[q[k]].order.remaining
    ensures LinksIn(mem, q[k]) && OnlyLinks(mem, Bridged(mem, q[k]), q)
    ensures forall r :: Bypassed(l, r, mem[q[k]].prev, mem[q[k]].next, mem[q[k]].order.remaining) ==>
                          Holds(Bridged(mem, q[k]), r, Cut(q, k))
  {
    BridgedChain(mem, q, k);
    CutEnds(q, k);
    TotalAfterCut(mem, q, k, Bridged(mem, q[k]));
  }

  /** Rewire the neighbours of `o` around it. */
  method Bridge(pool: Pool, o: Ptr)
    requires LinksIn(pool.storage, o)
    modifies pool`storage
    ensures pool.storage == Bridged(old(pool.storage), o)
  {
    var prev, next := pool.storage[o].prev, pool.storage[o].next;
    if prev != NIL {
      pool.storage := pool.storage[prev := pool.storage[prev].(next := next)];
    }
    if next != NIL {
      pool.storage := pool.storage[next := pool.storage[next].(prev := prev)];
    }
    pool.storage := pool.storage[o := pool.storage[o].(prev := NIL, next := NIL)];
  }

  /** Take an order out of the middle, the head or the tail. */
  method Unlink(l: Level, pool: Pool, o: Ptr, ghost q: seq<Ptr>, ghost k: nat) returns (r: Level)
    requires Holds(pool.storage, l, q) && k < |q| && q[k] == o
    modifies pool`storage
    ensures Holds(pool.storage, r, Cut(q, k)) && r.price == l.price
    ensures LinksIn(old(pool.storage), o) && pool.storage == Bridged(old(pool.storage), o)
    ensures OnlyLinks(old(pool.storage), pool.storage, q)
  {
    BypassedHolds(pool.storage, l, q, k);
    var n := pool.storage[o];
    r := l.(totalQty := l.totalQty - n.order.remaining, count := l.count - 1);
    if n.prev == NIL {
      r := r.(head := n.next);
    }
    if n.next == NIL {
      r := r.(tail := n.prev);
    }
    assert Bypassed(l, r, n.prev, n.next, n.order.remaining);
    Bridge(pool, o);
  }
}

/** One side of the book as a single list: best price first, oldest first within a price.
    This is the simple form that every order-book class is proved to implement. */
module PriceTime {
  import opened Types

  /** Total open size of a list of orders. */
  function Sum(q: seq<Order>): nat {
    if q == [] then 0 else q[0].remaining + Sum(q[1..])
  }

  lemma {:induction false} SumConcat(a: seq<Order>, b: seq<Order>)
    ensures Sum(a + b) == Sum(a) + Sum(b)
  {
    if a == [] {
      assert a + b == b;
    } else {
      assert (a + b)[1..] == a[1..] + b;
      SumConcat(a[1..], b);
    }
  }

  lemma SumSplit(q: seq<Order>, i: nat)
    requires i < |q|
    ensures Sum(q) == Sum(q[..i]) + q[i].remaining + Sum(q[i + 1..])
  {
    assert q == q[..i] + q[i..];
    SumConcat(q[..i], q[i..]);
    assert q[i..][1..] == q[i + 1..];
  }

  /** `a` trades before `b`: a better price, or the same price and an earlier arrival. */
  predicate Ahead(side: Side, a: Order, b: Order) {
    Better(side, a.price, b.price) || (a.price == b.price && a.seqNo < b.seqNo)
  }

  /** Price-time priority of a whole side. */
  ghost predicate Sorted(side: Side, q: seq<Order>) {
    forall i, j :: 0 <= i < j < |q| ==> Ahead(side, q[i], q[j])
  }

  ghost predicate HasId(q: seq<Order>, id: nat) {
    exists i :: 0 <= i < |q| && q[i].id == id
  }

  ghost predicate DistinctIds(q: seq<Order>) {
    forall i, j :: 0 <= i < j < |q| ==> q[i].id != q[j].id
  }

  ghost function PosOf(q: seq<Order>, id: nat): (i: nat)
    requires HasId(q, id)
    ensures i < |q| && q[i].id == id
  {
    var i :| 0 <= i < |q| && q[i].id == id;
    i
  }

  lemma PosOfAt(q: seq<Order>, i: nat)
    requires DistinctIds(q) && i < |q|
    ensures HasId(q, q[i].id) && PosOf(q, q[i].id) == i
  {
    var p := PosOf(q, q[i].id);
    if p < i { assert false; } else if i < p { assert false; }
  }

  function RemoveAt(q: seq<Order>, i: nat): seq<Order>
    requires i < |q|
  {
    q[..i] + q[i + 1..]
  }

  /** Queue an order behind every order whose price is at least as good. */
  function Insert(q: seq<Order>, o: Order): (r: seq<Order>)
    ensures |r| == |q| + 1
  {
    if q == [] || Better(o.side, o.price, q[0].price) then [o] + q
    else [q[0]] + Insert(q[1..], o)
  }

  /** The insertion point of a new order. */
  lemma {:induction false} InsertSplits(q: seq<Order>, o: Order) returns (i: nat)
    ensures i <= |q| && Insert(q, o) == q[..i] + [o] + q[i..]
    ensures forall j :: 0 <= j < i ==> !Better(o.side, o.price, q[j].price)
    ensures i < |q| ==> Better(o.side, o.price, q[i].price)
  {
    if q == [] || Better(o.side, o.price, q[0].price) {
      i := 0;
    } else {
      var k := InsertSplits(q[1..], o);
      i := k + 1;
      forall j | 0 <= j < i ensures !Better(o.side, o.price, q[j].price) {
        if j > 0 { assert q[j] == q[1..][j - 1]; }
      }
      assert q[..i] == [q[0]] + q[1..][..k];
      assert q[i..] == q[1..][k..];
    }
  }

  /** The orders after an insertion, position by position. */
  lemma InsertPlaces(q: seq<Order>, o: Order) returns (i: nat)
    ensures i <= |q| && Insert(q, o)[i] == o
    ensures forall j :: 0 <= j < i ==> Insert(q, o)[j] == q[j] && !Better(o.side, o.price, q[j].price)
    ensures forall j :: i < j < |q| + 1 ==> Insert(q, o)[j] == q[j - 1]
    ensures i < |q| ==> Better(o.side, o.price, q[i].price)
  {
    hide Insert;
    i := InsertSplits(q, o);
  }

  lemma InsertKeepsIds(q: seq<Order>, o: Order)
    requires DistinctIds(q) && !HasId(q, o.id)
    ensures DistinctIds(Insert(q, o))
  {
    hide Insert;
    var i := InsertPlaces(q, o);
  }

  /** A newcomer that arrived after everyone else keeps the side in price-time order. */
  lemma InsertKeepsSorted(side: Side, q: seq<Order>, o: Order)
    requires Sorted(side, q) && o.side == side
    requires forall j :: 0 <= j < |q| ==> q[j].seqNo < o.seqNo
    ensures Sorted(side, Insert(q, o))
  {
    hide Insert;
    var i := InsertPlaces(q, o);
    var r := Insert(q, o);
    forall a, b | 0 <= a < b < |r| ensures Ahead(side, r[a], r[b]) {
      if a == i && b > i + 1 {
        assert Ahead(side, q[i], q[b - 1]);
      }
    }
  }

  lemma SumInsert(q: seq<Order>, o: Order)
    ensures Sum(Insert(q, o)) == Sum(q) + o.remaining
  {
    var i := InsertSplits(q, o);
    SumConcat(q[..i] + [o], q[i..]);
    SumConcat(q[..i], [o]);
    SumConcat(q[..i], q[i..]);
    assert q == q[..i] + q[i..];
  }

  /** Total open size at the best price: the aggregate shown at the top of the book. */
  function TopQty(q: seq<Order>): nat {
    if q == [] then 0 else AtPrice(q, q[0].price)
  }

  /** Open size of the leading orders priced exactly `p`. */
  function AtPrice(q: seq<Order>, p: int): nat {
    if q == [] || q[0].price != p then 0 else q[0].remaining + AtPrice(q[1..], p)
  }

  /** Total open size of all orders in `q` priced `p`, wherever they stand. */
  function SizeAt(q: seq<Order>, p: int): nat {
    if q == [] then 0 else (if q[0].price == p then q[0].remaining else 0) + SizeAt(q[1..], p)
  }

  lemma {:induction false} SizeAtNone(q: seq<Order>, p: int)
    requires forall i :: 0 <= i < |q| ==> q[i].price != p
    ensures SizeAt(q, p) == 0
  {
    if q != [] { SizeAtNone(q[1..], p); }
  }

  /** On a sorted side no order behind the leading ones at the best price has that price. */
  lemma {:induction false} AtPriceIsSizeAt(side: Side, q: seq<Order>, p: int)
    requires Sorted(side, q) && forall i :: 0 <= i < |q| ==> q[i].price == p || Better(side, p, q[i].price)
    ensures AtPrice(q, p) == SizeAt(q, p)
  {
    if q == [] {
    } else if q[0].price == p {
      AtPriceIsSizeAt(side, q[1..], p);
    } else {
      forall i | 0 <= i < |q| ensures q[i].price != p {
        if i > 0 { assert Ahead(side, q[0], q[i]); }
      }
      SizeAtNone(q, p);
    }
  }

  /** The size at the top of a sorted side is that of all orders at its best price. */
  lemma TopQtyIs(side: Side, q: seq<Order>)
    requires Sorted(side, q)
    ensures TopQty(q) == if q == [] then 0 else SizeAt(q, q[0].price)
    ensures forall i :: 0 <= i < |q| ==> q[i].price == q[0].price || Better(side, q[0].price, q[i].price)
  {
    forall i | 0 <= i < |q| ensures q[i].price == q[0].price || Better(side, q[0].price, q[i].price) {
      if i > 0 { assert Ahead(side, q[0], q[i]); }
    }
    if q != [] { AtPriceIsSizeAt(side, q, q[0].price); }
  }

  function BestPrice(q: seq<Order>): int {
    if q == [] then NO_PRICE else q[0].price
  }

  /** Number of leading orders an aggressor on `side` at `limit` can reach. */
  function Reach(side: Side, limit: int, q: seq<Order>): (n: nat)
    ensures n <= |q|
  {
    if q == [] || !Crosses(side, limit, q[0].price) then 0 else 1 + Reach(side, limit, q[1..])
  }

  /** In a sorted side the reachable orders are exactly the crossing ones. */
  lemma {:induction false} ReachIsCrossing(side: Side, limit: int, q: seq<Order>, i: nat)
    requires Sorted(Opposite(side), q) && i < |q|
    ensures i < Reach(side, limit, q) <==> Crosses(side, limit, q[i].price)
  {
    if i > 0 {
      assert Ahead(Opposite(side), q[0], q[i]);
      if Crosses(side, limit, q[0].price) {
        ReachIsCrossing(side, limit, q[1..], i - 1);
      }
    }
  }

  /** What an aggressor on `side` at `limit` could take from the side `q`. */
  function Marketable(side: Side, limit: int, q: seq<Order>): nat {
    Sum(q[..Reach(side, limit, q)])
  }
}

/** The aggregated depth of a side, in terms of all its orders rather than of its leading ones. */
module MarketDepth {
  import opened Types
  import opened PriceTime
  import opened Queues

  /** Number of orders in `q` priced `p`, wherever they stand. */
  function NumberAt(q: seq<Order>, p: int): nat {
    if q == [] then 0 else (if q[0].price == p then 1 else 0) + NumberAt(q[1..], p)
  }

  lemma {:induction false} NumberAtNone(q: seq<Order>, p: int)
    requires forall i :: 0 <= i < |q| ==> q[i].price != p
    ensures NumberAt(q, p) == 0
  {
    if q != [] { NumberAtNone(q[1..], p); }
  }

  /** Leading orders at one price, and strictly worse ones behind them. */
  lemma {:induction false} LeadingRun(side: Side, q: seq<Order>, p: int)
    requires Sorted(side, q) && forall i :: 0 <= i < |q| ==> q[i].price == p || Better(side, p, q[i].price)
    ensures var c := CountAt(q, p);
            && c == NumberAt(q, p) && Sorted(side, q[c..])
            && (forall i :: 0 <= i < c ==> q[i].price == p)
            && (forall i :: c <= i < |q| ==> Better(side, p, q[i].price))
  {
    if q == [] {
    } else if q[0].price == p {
      LeadingRun(side, q[1..], p);
      assert q[1..][CountAt(q[1..], p)..] == q[CountAt(q, p)..];
    } else {
      forall i | 0 <= i < |q| ensures q[i].price != p {
        if i > 0 { assert Ahead(side, q[0], q[i]); }
      }
      NumberAtNone(q, p);
    }
  }

  /** Orders at other prices in front do not matter. */
  lemma {:induction false} SkipOthers(q: seq<Order>, c: nat, p: int)
    requires c <= |q| && forall i :: 0 <= i < c ==> q[i].price != p
    ensures SizeAt(q, p) == SizeAt(q[c..], p) && NumberAt(q, p) == NumberAt(q[c..], p)
  {
    if c > 0 {
      SkipOthers(q[1..], c - 1, p);
      assert q[1..][c - 1..] == q[c..];
    } else {
      assert q[0..] == q;
    }
  }

  /** `e` gives the total size and the number of all orders of `q` at its price, and there are some. */
  ghost predicate Totals(q: seq<Order>, e: DepthEntry) {
    e.qty == SizeAt(q, e.price) && e.orders == NumberAt(q, e.price) > 0
  }

  ghost predicate Listed(d: seq<DepthEntry>, p: int) {
    exists k :: 0 <= k < |d| && d[k].price == p
  }

  ghost predicate AllTotals(q: seq<Order>, d: seq<DepthEntry>) {
    forall k :: 0 <= k < |d| ==> Totals(q, d[k])
  }

  ghost predicate BestFirst(side: Side, d: seq<DepthEntry>) {
    forall j, k :: 0 <= j < k < |d| ==> Better(side, d[j].price, d[k].price)
  }

  /** All entries are better than `p`. */
  ghost predicate AllBetter(side: Side, d: seq<DepthEntry>, p: int) {
    forall k :: 0 <= k < |d| ==> Better(side, d[k].price, p)
  }

  /** A price is left out only if `n` better ones are listed. */
  ghost predicate NothingMissed(side: Side, q: seq<Order>, n: nat, d: seq<DepthEntry>) {
    forall i :: 0 <= i < |q| && !Listed(d, q[i].price) ==> |d| == n && AllBetter(side, d, q[i].price)
  }

  /** Best prices first, each with its totals, none missed. */
  ghost predicate RightDepth(side: Side, q: seq<Order>, n: nat, d: seq<DepthEntry>) {
    |d| <= n && AllTotals(q, d) && BestFirst(side, d) && NothingMissed(side, q, n, d)
  }

  /** What the depth of a sorted side is, in terms of all its orders. */
  lemma {:induction false} DepthIsRight(side: Side, q: seq<Order>, n: nat)
    requires Sorted(side, q)
    ensures RightDepth(side, q, n, Depth(q, n))
    decreases n
  {
    if q != [] && n > 0 {
      var p := q[0].price;
      TopQtyIs(side, q);
      AtPriceIsSizeAt(side, q, p);
      LeadingRun(side, q, p);
      var c := CountAt(q, p);
      DepthIsRight(side, q[c..], n - 1);
      hide Depth, AtPrice, CountAt, SizeAt, NumberAt, Sorted;
      DepthRightCons(side, q, n, c, DepthEntry(p, SizeAt(q, p), c), Depth(q[c..], n - 1));
    }
  }

  /** The first `c` orders of `q` are priced `p` and the others worse. */
  ghost predicate Leads(side: Side, q: seq<Order>, c: nat, p: int) {
    && 0 < c <= |q|
    && (forall i :: 0 <= i < c ==> q[i].price == p)
    && (forall i :: c <= i < |q| ==> Better(side, p, q[i].price))
  }

  lemma DepthRightCons(side: Side, q: seq<Order>, n: nat, c: nat, e: DepthEntry, d: seq<DepthEntry>)
    requires Leads(side, q, c, e.price) && Totals(q, e) && n > 0 && RightDepth(side, q[c..], n - 1, d)
    ensures RightDepth(side, q, n, [e] + d)
  {
    forall k | 0 <= k < |d| ensures Totals(q, d[k]) && Better(side, e.price, d[k].price) {
      TotalsBehind(side, q, c, e.price, d[k]);
    }
    MissesNothing(side, q, n, c, e, d);
    hide Totals, Listed, Better, NothingMissed, Leads;
  }

  lemma MissesNothing(side: Side, q: seq<Order>, n: nat, c: nat, e: DepthEntry, d: seq<DepthEntry>)
    requires Leads(side, q, c, e.price) && n > 0 && NothingMissed(side, q[c..], n - 1, d)
    ensures NothingMissed(side, q, n, [e] + d)
  {
    hide Listed, Better, AllBetter;
    forall i | 0 <= i < |q| && !Listed([e] + d, q[i].price)
      ensures |d| == n - 1 && AllBetter(side, [e] + d, q[i].price)
    {
      ListedCons(e, d, q[i].price);
      assert q[i] == q[c..][i - c];
      BetterCons(side, e, d, q[i].price);
    }
  }

  lemma BetterCons(side: Side, e: DepthEntry, d: seq<DepthEntry>, p: int)
    requires Better(side, e.price, p) && AllBetter(side, d, p)
    ensures AllBetter(side, [e] + d, p)
  {
  }

  /** An entry of the orders behind the front price is one of the whole side. */
  lemma TotalsBehind(side: Side, q: seq<Order>, c: nat, p: int, e: DepthEntry)
    requires Leads(side, q, c, p) && Totals(q[c..], e)
    ensures Totals(q, e) && Better(side, p, e.price)
  {
    NumberedSomewhere(q[c..], e.price);
    var i :| 0 <= i < |q| - c && q[c..][i].price == e.price;
    assert q[c + i].price == e.price;
    SkipOthers(q, c, e.price);
  }

  lemma ListedCons(e: DepthEntry, d: seq<DepthEntry>, p: int)
    ensures Listed([e] + d, p) <==> e.price == p || Listed(d, p)
  {
    var z := [e] + d;
    if e.price == p { assert z[0].price == p; }
    if Listed(d, p) {
      var k :| 0 <= k < |d| && d[k].price == p;
      assert z[k + 1].price == p;
    }
  }

  lemma {:induction false} NumberedSomewhere(q: seq<Order>, p: int)
    requires NumberAt(q, p) > 0
    ensures exists i :: 0 <= i < |q| && q[i].price == p
  {
    if q[0].price != p {
      NumberedSomewhere(q[1..], p);
      var i :| 0 <= i < |q| - 1 && q[1..][i].price == p;
      assert q[i + 1].price == p;
    }
  }
}

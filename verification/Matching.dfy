/** One matching step against a flat, priority-ordered side, and what repeating it amounts to. */
module Matching {
  import opened Types
  import opened PriceTime

  /** An aggressor at work: itself, the side it eats into, the events so far and the totals. */
  datatype Sweep = Sweep(
    inc: Order, opp: seq<Order>, out: seq<Event>, seqNo: nat,
    trades: nat, shares: nat, withdrawn: nat)

  function Emit(w: Sweep, b: Body): (z: Sweep)
    ensures z == w.(seqNo := w.seqNo + 1, out := z.out)
  {
    w.(seqNo := w.seqNo + 1, out := w.out + [Event(w.seqNo + 1, b)])
  }

  predicate Blocked(w: Sweep) {
    || w.inc.remaining == 0
    || w.opp == []
    || (!w.inc.typ.Market? && !Crosses(w.inc.side, w.inc.price, w.opp[0].price))
  }

  /** The oldest order at the best price belongs to the aggressor's own client. */
  predicate MeetsOwn(w: Sweep, stp: StpMode)
    requires w.opp != []
  {
    !stp.StpNone? && w.opp[0].client == w.inc.client
  }

  function StopAggressor(w: Sweep): Sweep {
    var i := w.inc;
    Emit(w, Canceled(i.id, i.client, i.side, i.price, 0, 0, SelfTradePrevented))
      .(inc := i.(remaining := 0), withdrawn := w.withdrawn + i.remaining)
  }

  function PullResting(w: Sweep): Sweep
    requires w.opp != []
  {
    var r := w.opp[0];
    Emit(w, Canceled(r.id, r.client, r.side, r.price, 0, 0, SelfTradePrevented))
      .(opp := w.opp[1..], withdrawn := w.withdrawn + r.remaining)
  }

  /** One execution: two fill legs and a public trade print, all at the resting price. */
  function Execute(w: Sweep): Sweep
    requires w.opp != []
  {
    var i, r := w.inc, w.opp[0];
    var n := Min(i.remaining, r.remaining);
    var w1 := Emit(w, Fill(i.id, r.id, i.client, i.side, r.price, n, i.remaining - n, true));
    var w2 := Emit(w1, Fill(r.id, i.id, r.client, r.side, r.price, n, r.remaining - n, false));
    var w3 := Emit(w2, Trade(i.id, r.id, i.side, r.price, n));
    w3.(inc := i.(remaining := i.remaining - n),
        opp := if r.remaining == n then w.opp[1..] else [r.(remaining := r.remaining - n)] + w.opp[1..],
        trades := w.trades + 1, shares := w.shares + n)
  }

  /** The three events of one execution of `n` lots. */
  function Legs(i: Order, r: Order, n: nat, seqNo: nat): seq<Event>
    requires n <= i.remaining && n <= r.remaining
  {
    [Event(seqNo + 1, Fill(i.id, r.id, i.client, i.side, r.price, n, i.remaining - n, true)),
     Event(seqNo + 2, Fill(r.id, i.id, r.client, r.side, r.price, n, r.remaining - n, false)),
     Event(seqNo + 3, Trade(i.id, r.id, i.side, r.price, n))]
  }

  lemma ExecuteIs(w: Sweep)
    requires w.opp != []
    ensures var i, r := w.inc, w.opp[0];
            var n := Min(i.remaining, r.remaining);
            Execute(w) == Sweep(i.(remaining := i.remaining - n),
                                if r.remaining == n then w.opp[1..] else w.opp[0 := r.(remaining := r.remaining - n)],
                                w.out + Legs(i, r, n, w.seqNo), w.seqNo + 3, w.trades + 1, w.shares + n, w.withdrawn)
  {
    var r := w.opp[0];
    var n := Min(w.inc.remaining, r.remaining);
    assert [r.(remaining := r.remaining - n)] + w.opp[1..] == w.opp[0 := r.(remaining := r.remaining - n)];
  }

  function Step(w: Sweep, stp: StpMode): Sweep
    requires !Blocked(w)
  {
    if !MeetsOwn(w, stp) then Execute(w)
    else if stp.CancelAggressor? then StopAggressor(w)
    else PullResting(w)
  }

  function Run(w: Sweep, stp: StpMode): (z: Sweep)
    ensures Blocked(z)
    decreases |w.opp|, w.inc.remaining
  {
    if Blocked(w) then w else Run(Step(w, stp), stp)
  }

  lemma RunStep(w: Sweep, stp: StpMode)
    ensures Run(w, stp) == if Blocked(w) then w else Run(Step(w, stp), stp)
  {
  }

  // --- the shape of the result ------------------------------------------------------

  /** `z` is `q` with some orders gone from the front and at most the new front cut down. */
  ghost predicate Eaten(q: seq<Order>, z: seq<Order>, k: nat) {
    && k <= |q|
    && |z| == |q| - k
    && (forall j :: 1 <= j < |z| ==> z[j] == q[k + j])
    && (z != [] ==> 0 < z[0].remaining <= q[k].remaining && z[0] == q[k].(remaining := z[0].remaining))
  }

  ghost predicate Positive(q: seq<Order>) {
    forall i :: 0 <= i < |q| ==> q[i].remaining > 0
  }

  lemma EatenStep(q: seq<Order>, q': seq<Order>, z: seq<Order>, k: nat) returns (k': nat)
    requires q != [] && Eaten(q', z, k)
    requires || q' == q[1..]
             || (q[0].remaining > 0
                 && exists r: nat :: r <= q[0].remaining && q' == [q[0].(remaining := r)] + q[1..])
    ensures Eaten(q, z, k')
    ensures q' == q[1..] ==> k' == k + 1
    ensures q' != q[1..] ==> k' == k
  {
    if q' == q[1..] {
      k' := k + 1;
      assert forall j :: 0 <= j < |q'| ==> q'[j] == q[j + 1];
    } else {
      k' := k;
      assert forall j :: 1 <= j < |q'| ==> q'[j] == q[j];
    }
  }

  /** Orders leave only from the front; every one behind the front is untouched. */
  lemma {:induction false} RunEats(w: Sweep, stp: StpMode) returns (k: nat)
    requires Positive(w.opp)
    ensures Eaten(w.opp, Run(w, stp).opp, k)
    decreases |w.opp|, w.inc.remaining
  {
    if Blocked(w) {
      k := 0;
    } else {
      var s := Step(w, stp);
      if s.opp == w.opp {
        assert Blocked(s);
        k := 0;
      } else {
        k := RunEats(s, stp);
        k := EatenStep(w.opp, s.opp, Run(w, stp).opp, k);
      }
    }
  }

  /** Nothing is created or lost: what the aggressor and the side held is traded (once on
      each side), withdrawn by self-trade prevention, or still there. */
  lemma {:induction false} RunConserves(w: Sweep, stp: StpMode)
    ensures var z := Run(w, stp);
            w.inc.remaining + Sum(w.opp) + 2 * w.shares + w.withdrawn
            == z.inc.remaining + Sum(z.opp) + 2 * z.shares + z.withdrawn
    decreases |w.opp|, w.inc.remaining
  {
    if !Blocked(w) {
      RunConserves(Step(w, stp), stp);
    }
  }

  lemma {:induction false} RunKeepsIdentity(w: Sweep, stp: StpMode)
    ensures var z := Run(w, stp); z.inc == w.inc.(remaining := z.inc.remaining) && z.inc.remaining <= w.inc.remaining
    decreases |w.opp|, w.inc.remaining
  {
    if !Blocked(w) {
      RunKeepsIdentity(Step(w, stp), stp);
    }
  }

  // --- what is traded, in closed form --------------------------------------------------

  /** The public trade prints in an event stream, oldest first. */
  function Prints(out: seq<Event>): seq<Body> {
    if out == [] then []
    else
      var e := out[|out| - 1].body;
      Prints(out[..|out| - 1]) + if e.Trade? then [e] else []
  }

  lemma PrintsEmit(w: Sweep, b: Body)
    ensures Prints(Emit(w, b).out) == Prints(w.out) + if b.Trade? then [b] else []
  {
    assert (w.out + [Event(w.seqNo + 1, b)])[..|w.out|] == w.out;
  }

  lemma PrintsStep(w: Sweep, stp: StpMode)
    requires !Blocked(w)
    ensures Prints(Step(w, stp).out) == Prints(w.out) +
              if MeetsOwn(w, stp) then []
              else [Trade(w.inc.id, w.opp[0].id, w.inc.side, w.opp[0].price, Min(w.inc.remaining, w.opp[0].remaining))]
  {
    hide Emit, Prints;
    var i, r := w.inc, w.opp[0];
    if MeetsOwn(w, stp) {
      if stp.CancelAggressor? {
        PrintsEmit(w, Canceled(i.id, i.client, i.side, i.price, 0, 0, SelfTradePrevented));
      } else {
        PrintsEmit(w, Canceled(r.id, r.client, r.side, r.price, 0, 0, SelfTradePrevented));
      }
    } else {
      var n := Min(i.remaining, r.remaining);
      var f1 := Fill(i.id, r.id, i.client, i.side, r.price, n, i.remaining - n, true);
      var f2 := Fill(r.id, i.id, r.client, r.side, r.price, n, r.remaining - n, false);
      PrintsEmit(w, f1);
      PrintsEmit(Emit(w, f1), f2);
      PrintsEmit(Emit(Emit(w, f1), f2), Trade(i.id, r.id, i.side, r.price, n));
    }
  }

  /** Number of leading orders the aggressor can reach; a market order reaches them all. */
  function ReachOf(w: Sweep): (n: nat)
    ensures n <= |w.opp|
  {
    if w.inc.typ.Market? then |w.opp| else Reach(w.inc.side, w.inc.price, w.opp)
  }

  /** The share of order `i` when `n` lots are taken from the front of `q`. */
  function Share(q: seq<Order>, n: nat, i: nat): nat
    requires i < |q|
  {
    var before := Sum(q[..i]);
    if n <= before then 0 else Min(n - before, q[i].remaining)
  }

  /** The prints of taking `n` lots from the first `m` orders of `q`, each at its own price. */
  ghost function PrintsOf(inc: Order, q: seq<Order>, n: nat, m: nat): seq<Body>
    requires m <= |q|
  {
    seq(m, i requires 0 <= i < m => Trade(inc.id, q[i].id, inc.side, q[i].price, Share(q, n, i)))
  }

  /** `n` lots are gone from `q`: the first `k` orders whole, the rest of `n` from order `k`. */
  ghost predicate TakenFrom(q: seq<Order>, z: seq<Order>, n: nat, k: nat) {
    && Eaten(q, z, k)
    && Sum(q[..k]) <= n
    && (z != [] ==> z[0].remaining + n == Sum(q[..k]) + q[k].remaining)
    && (z == [] ==> Sum(q[..k]) == n)
  }

  lemma PrefixSum(q: seq<Order>, i: nat)
    requires 0 < i <= |q|
    ensures Sum(q[..i]) == q[0].remaining + Sum(q[1..][..i - 1])
  {
    assert q[..i][1..] == q[1..][..i - 1];
  }

  lemma PrintsOfTail(inc: Order, q: seq<Order>, n: nat, m: nat)
    requires q != [] && m < |q| && q[0].remaining <= n && q[0].remaining > 0
    ensures PrintsOf(inc, q, n, m + 1)
         == [Trade(inc.id, q[0].id, inc.side, q[0].price, q[0].remaining)]
            + PrintsOf(inc, q[1..], n - q[0].remaining, m)
  {
    var t := q[1..];
    forall i | 0 <= i < m ensures Share(q, n, i + 1) == Share(t, n - q[0].remaining, i) && q[i + 1] == t[i] {
      PrefixSum(q, i + 1);
    }
    assert q[..0] == [];
    assert Share(q, n, 0) == q[0].remaining;
  }

  /** Greedy price-time filling took `w` to `z`: the aggressor got min(its size, what it can
      reach) from the front of the queue, the first `k` orders in full and at most one more in
      part, each print at the resting order's own price. */
  ghost predicate Greedy(w: Sweep, z: Sweep, k: nat) {
    var c := ReachOf(w);
    var n := Min(w.inc.remaining, Sum(w.opp[..c]));
    && z.inc == w.inc.(remaining := w.inc.remaining - n)
    && z.shares == w.shares + n
    && z.withdrawn == w.withdrawn
    && k <= c
    && TakenFrom(w.opp, z.opp, n, k)
    && var m := if n == Sum(w.opp[..k]) then k else k + 1;
       m <= c && Prints(z.out) == Prints(w.out) + PrintsOf(w.inc, w.opp, n, m)
  }

  /** One execution, seen from outside: who is left, the totals and the print. */
  ghost predicate Executed(w: Sweep, s: Sweep)
    requires w.opp != []
  {
    var r, n := w.opp[0], Min(w.inc.remaining, w.opp[0].remaining);
    && s.inc == w.inc.(remaining := w.inc.remaining - n)
    && s.opp == (if n == r.remaining then w.opp[1..] else [r.(remaining := r.remaining - n)] + w.opp[1..])
    && s.shares == w.shares + n
    && s.withdrawn == w.withdrawn
    && Prints(s.out) == Prints(w.out) + [Trade(w.inc.id, r.id, w.inc.side, r.price, n)]
  }

  lemma ExecuteExecutes(w: Sweep, stp: StpMode)
    requires !Blocked(w) && !MeetsOwn(w, stp)
    ensures Executed(w, Step(w, stp))
  {
    PrintsStep(w, stp);
  }

  lemma PrintsCons(inc: Order, q: seq<Order>, n: nat, k: nat, head: seq<Body>, whole: seq<Body>)
    requires q != [] && 0 < q[0].remaining <= n
    requires var t, n' := q[1..], n - q[0].remaining;
             k <= |t| && var m' := if n' == Sum(t[..k]) then k else k + 1;
             m' <= |t| && whole == head + [Trade(inc.id, q[0].id, inc.side, q[0].price,
                 q[0].remaining)] + PrintsOf(inc, t, n', m')
    ensures var m := if n == Sum(q[..k + 1]) then k + 1 else k + 2;
            m <= |q| && whole == head + PrintsOf(inc, q, n, m)
  {
    var t, n' := q[1..], n - q[0].remaining;
    var m' := if n' == Sum(t[..k]) then k else k + 1;
    PrefixSum(q, k + 1);
    PrintsOfTail(inc, q, n, m');
  }

  /** Prefixing a completely filled front order to a greedy run gives a greedy run. */
  lemma {:induction false} GreedyCons(w: Sweep, s: Sweep, z: Sweep, k: nat)
    requires Positive(w.opp) && !Blocked(w) && w.opp[0].remaining <= w.inc.remaining
    requires Executed(w, s) && Greedy(s, z, k)
    ensures Greedy(w, z, k + 1)
  {
    hide Prints, Sum, TakenFrom;
    var r, c := w.opp[0], ReachOf(w);
    assert ReachOf(s) == c - 1;
    PrefixSum(w.opp, c);
    PrefixSum(w.opp, k + 1);
    var n := Min(w.inc.remaining, Sum(w.opp[..c]));
    var n' := n - r.remaining;
    var m' := if n' == Sum(s.opp[..k]) then k else k + 1;
    assert PrintsOf(s.inc, s.opp, n', m') == PrintsOf(w.inc, w.opp[1..], n', m');
    PrintsCons(w.inc, w.opp, n, k, Prints(w.out), Prints(z.out));
    TakenCons(w.opp, z.opp, n, k);
  }

  lemma TakenCons(q: seq<Order>, z: seq<Order>, n: nat, k: nat)
    requires q != [] && q[0].remaining <= n && TakenFrom(q[1..], z, n - q[0].remaining, k)
    ensures TakenFrom(q, z, n, k + 1)
  {
    PrefixSum(q, k + 1);
    hide Sum;
  }

  /** An aggressor smaller than the front order takes all it wants from it and is done. */
  lemma {:induction false} GreedyLast(w: Sweep)
    requires Positive(w.opp) && !Blocked(w) && w.inc.remaining < w.opp[0].remaining
    ensures Greedy(w, Step(w, StpNone), 0)
  {
    ExecuteExecutes(w, StpNone);
    PrefixSum(w.opp, ReachOf(w));
    PrintsOfPart(w.inc, w.opp, w.inc.remaining);
    assert w.opp[..0] == [];
    var s := Step(w, StpNone);
    TakenPart(w.opp, s.opp, w.inc.remaining);
    hide Prints, Step, PrintsOf, TakenFrom;
  }

  lemma TakenPart(q: seq<Order>, z: seq<Order>, n: nat)
    requires q != [] && n < q[0].remaining && z == [q[0].(remaining := q[0].remaining - n)] + q[1..]
    ensures TakenFrom(q, z, n, 0)
  {
    assert q[..0] == [];
  }

  lemma PrintsOfPart(inc: Order, q: seq<Order>, n: nat)
    requires q != [] && 0 < n < q[0].remaining
    ensures PrintsOf(inc, q, n, 1) == [Trade(inc.id, q[0].id, inc.side, q[0].price, n)]
  {
    assert q[..0] == [];
  }

  /** Without self-trade prevention the two nested loops are greedy price-time filling. */
  lemma {:induction false} GreedyFilling(w: Sweep) returns (k: nat)
    requires Positive(w.opp)
    ensures Greedy(w, Run(w, StpNone), k)
    decreases |w.opp|, w.inc.remaining
  {
    if Blocked(w) {
      k := 0;
      assert w.opp[..0] == [];
      assert PrintsOf(w.inc, w.opp, 0, 0) == [];
    } else if w.opp[0].remaining <= w.inc.remaining {
      k := GreedyFilling(Step(w, StpNone));
      ExecuteExecutes(w, StpNone);
      GreedyCons(w, Step(w, StpNone), Run(w, StpNone), k);
      k := k + 1;
    } else {
      k := 0;
      GreedyLast(w);
      assert Blocked(Step(w, StpNone));
    }
  }

  // --- self-trade prevention --------------------------------------------------------------

  /** The orders of everyone but `client`. */
  function Others(q: seq<Order>, client: nat): seq<Order> {
    if q == [] then []
    else if q[0].client == client then Others(q[1..], client)
    else [q[0]] + Others(q[1..], client)
  }

  lemma {:induction false} OthersElements(q: seq<Order>, client: nat)
    ensures forall o :: o in Others(q, client) <==> o in q && o.client != client
  {
    if q != [] { OthersElements(q[1..], client); }
  }

  lemma SortedFrom(side: Side, q: seq<Order>, r: nat)
    requires Sorted(side, q) && q != []
    ensures Sorted(side, q[1..]) && Sorted(side, [q[0].(remaining := r)] + q[1..])
  {
    var z := [q[0].(remaining := r)] + q[1..];
    forall i, j | 0 <= i < j < |z| ensures Ahead(side, z[i], z[j]) {
      assert Ahead(side, q[i], q[j]);
    }
  }

  lemma StepKeepsSorted(w: Sweep, stp: StpMode)
    requires !Blocked(w) && Sorted(Opposite(w.inc.side), w.opp)
    ensures Sorted(Opposite(w.inc.side), Step(w, stp).opp)
  {
    SortedFrom(Opposite(w.inc.side), w.opp, w.opp[0].remaining - Min(w.inc.remaining, w.opp[0].remaining));
  }

  /** If the front of a sorted side is out of reach, so is every order behind it. */
  lemma BlockedOnOthers(w: Sweep)
    requires Blocked(w) && Sorted(Opposite(w.inc.side), w.opp)
    ensures Blocked(w.(opp := Others(w.opp, w.inc.client)))
  {
    var f := Others(w.opp, w.inc.client);
    OthersElements(w.opp, w.inc.client);
    if w.inc.remaining != 0 && f != [] {
      assert f[0] in w.opp;
      var i :| 0 <= i < |w.opp| && w.opp[i] == f[0];
      if i > 0 { assert Ahead(Opposite(w.inc.side), w.opp[0], w.opp[i]); }
    }
  }

  /** Under CancelResting the aggressor trades exactly as if its client's own orders were not
      in the book, and every other client's order ends up exactly the same. */
  lemma {:induction false} CancelRestingIsGreedyOnOthers(w: Sweep, v: Sweep)
    requires Sorted(Opposite(w.inc.side), w.opp)
    requires v.inc == w.inc && v.opp == Others(w.opp, w.inc.client)
    requires v.trades == w.trades && v.shares == w.shares && Prints(v.out) == Prints(w.out)
    ensures var z, y := Run(w, CancelResting), Run(v, StpNone);
            && z.inc == y.inc && z.trades == y.trades && z.shares == y.shares
            && Prints(z.out) == Prints(y.out)
            && Others(z.opp, w.inc.client) == y.opp
    decreases |w.opp|, w.inc.remaining
  {
    hide Prints, Sorted;
    if Blocked(w) {
      BlockedOnOthers(w);
      assert Blocked(v);
    } else {
      var s := Step(w, CancelResting);
      StepKeepsSorted(w, CancelResting);
      PrintsStep(w, CancelResting);
      if MeetsOwn(w, CancelResting) {
        CancelRestingIsGreedyOnOthers(s, v);
      } else {
        assert !Blocked(v) && v.opp[0] == w.opp[0] && v.opp[1..] == Others(w.opp[1..], w.inc.client);
        PrintsStep(v, StpNone);
        var t := Step(v, StpNone);
        assert t.opp == Others(s.opp, w.inc.client) by {
          if s.opp != w.opp[1..] { assert s.opp[1..] == w.opp[1..]; }
        }
        CancelRestingIsGreedyOnOthers(s, t);
      }
    }
  }

  lemma HasIdTail(q: seq<Order>, id: nat)
    requires q != []
    ensures HasId(q, id) <==> q[0].id == id || HasId(q[1..], id)
  {
    if HasId(q, id) {
      var i :| 0 <= i < |q| && q[i].id == id;
      if i > 0 { assert q[1..][i - 1].id == id; }
    }
    if HasId(q[1..], id) {
      var i :| 0 <= i < |q[1..]| && q[1..][i].id == id;
      assert q[i + 1].id == id;
    }
  }

  lemma OthersPrefix(q: seq<Order>, client: nat, j: nat)
    requires 0 < j <= |q|
    ensures Sum(Others(q[..j], client))
         == (if q[0].client == client then 0 else q[0].remaining) + Sum(Others(q[1..][..j - 1], client))
  {
    assert q[..j][1..] == q[1..][..j - 1];
  }

  lemma {:induction false} GoneWhenAbsent(w: Sweep, stp: StpMode, id: nat)
    requires !HasId(w.opp, id)
    ensures !HasId(Run(w, stp).opp, id)
    decreases |w.opp|, w.inc.remaining
  {
    if !Blocked(w) {
      var s := Step(w, stp);
      HasIdTail(w.opp, id);
      if s.opp != [] { HasIdTail(s.opp, id); }
      assert s.opp != w.opp && s.opp != w.opp[1..] ==> s.opp[1..] == w.opp[1..];
      GoneWhenAbsent(s, stp, id);
    }
  }

  /** Under CancelResting an own order is pulled if and only if it is within reach and the
      other clients' orders ahead of it do not already exhaust the aggressor. */
  lemma {:induction false} PulledExactly(w: Sweep, j: nat)
    requires DistinctIds(w.opp) && Positive(w.opp)
    requires j < |w.opp| && w.opp[j].client == w.inc.client
    ensures HasId(Run(w, CancelResting).opp, w.opp[j].id)
       <==> !(j < ReachOf(w) && Sum(Others(w.opp[..j], w.inc.client)) < w.inc.remaining)
    decreases |w.opp|, w.inc.remaining
  {
    var own := w.opp[j].id;
    assert w.opp[..0] == [];
    if Blocked(w) {
      assert HasId(w.opp, own);
    } else {
      var s := Step(w, CancelResting);
      if j > 0 { OthersPrefix(w.opp, w.inc.client, j); }
      if MeetsOwn(w, CancelResting) {
        if j == 0 {
          assert !HasId(s.opp, own);
          GoneWhenAbsent(s, CancelResting, own);
        } else {
          PulledExactly(s, j - 1);
        }
      } else if s.opp == w.opp[1..] {
        PulledExactly(s, j - 1);
      } else {
        assert Blocked(s) && s.opp[j].id == own;
        assert HasId(s.opp, own);
      }
    }
  }

  /** The index of the first order of `client`, or the length of the list. */
  function FirstOwn(q: seq<Order>, client: nat): (p: nat)
    ensures p <= |q|
    ensures p < |q| ==> q[p].client == client
    ensures forall i :: 0 <= i < p ==> q[i].client != client
  {
    if q == [] || q[0].client == client then 0 else 1 + FirstOwn(q[1..], client)
  }

  /** `z` is `y` run with the orders `tail` standing behind it, the first of them an own order
      (reached if `reached`) that cancels whatever is left of the aggressor. */
  ghost predicate StoppedBy(z: Sweep, y: Sweep, tail: seq<Order>, reached: bool) {
    && Prints(z.out) == Prints(y.out) && z.shares == y.shares
    && z.opp == y.opp + tail
    && z.inc.remaining == (if reached then 0 else y.inc.remaining)
    && z.withdrawn == y.withdrawn + (y.inc.remaining - z.inc.remaining)
  }

  /** Under CancelAggressor the aggressor trades greedily with the orders ahead of its client's
      first one; reaching that one with anything left cancels the aggressor and leaves the rest
      of the book as it was. */
  lemma {:induction false} CancelAggressorStopsAtFirstOwn(w: Sweep, v: Sweep)
    requires v.inc == w.inc && v.opp == w.opp[..FirstOwn(w.opp, w.inc.client)]
    requires v.shares == w.shares && v.withdrawn == w.withdrawn && Prints(v.out) == Prints(w.out)
    ensures var p := FirstOwn(w.opp, w.inc.client);
            StoppedBy(Run(w, CancelAggressor), Run(v, StpNone), w.opp[p..], p < ReachOf(w))
    decreases |w.opp|, w.inc.remaining
  {
    if Blocked(w) || w.opp[0].client == w.inc.client {
      StoppedNow(w, v);
    } else {
      hide Prints, StoppedBy, Executed, Step;
      ExecuteExecutes(w, CancelAggressor);
      ExecuteExecutes(v, StpNone);
      var s, t := Step(w, CancelAggressor), Step(v, StpNone);
      FirstOwnStep(w, v, s, t);
      if w.inc.remaining < w.opp[0].remaining {
        StoppedLast(w, s, t);
      } else {
        CancelAggressorStopsAtFirstOwn(s, t);
      }
    }
  }

  lemma StoppedNow(w: Sweep, v: Sweep)
    requires v.inc == w.inc && v.opp == w.opp[..FirstOwn(w.opp, w.inc.client)]
    requires v.shares == w.shares && v.withdrawn == w.withdrawn && Prints(v.out) == Prints(w.out)
    requires Blocked(w) || w.opp[0].client == w.inc.client
    ensures var p := FirstOwn(w.opp, w.inc.client);
            StoppedBy(Run(w, CancelAggressor), Run(v, StpNone), w.opp[p..], p < ReachOf(w))
  {
    var p := FirstOwn(w.opp, w.inc.client);
    assert w.opp == w.opp[..p] + w.opp[p..];
    if Blocked(w) {
      assert Blocked(v);
    } else {
      PrintsStep(w, CancelAggressor);
      hide Prints;
      assert v.opp == [];
      assert Blocked(Step(w, CancelAggressor));
    }
  }

  lemma StoppedLast(w: Sweep, s: Sweep, t: Sweep)
    requires w.opp != [] && s.inc.remaining == 0 && t.inc == s.inc
    requires t.shares == s.shares && t.withdrawn == s.withdrawn && Prints(t.out) == Prints(s.out)
    requires var p := FirstOwn(w.opp, w.inc.client); s.opp == t.opp + w.opp[p..]
    ensures var p := FirstOwn(w.opp, w.inc.client);
            StoppedBy(Run(s, CancelAggressor), Run(t, StpNone), w.opp[p..], p < ReachOf(w))
  {
    hide Prints, FirstOwn, Reach;
    assert Blocked(s) && Blocked(t);
  }

  /** One execution keeps the two runs aligned. */
  lemma {:induction false} FirstOwnStep(w: Sweep, v: Sweep, s: Sweep, t: Sweep)
    requires !Blocked(w) && w.opp[0].client != w.inc.client
    requires v.inc == w.inc && v.opp == w.opp[..FirstOwn(w.opp, w.inc.client)]
    requires v.shares == w.shares && v.withdrawn == w.withdrawn && Prints(v.out) == Prints(w.out)
    requires Executed(w, s) && Executed(v, t)
    ensures t.inc == s.inc && t.shares == s.shares && t.withdrawn == s.withdrawn && Prints(t.out) == Prints(s.out)
    ensures var p := FirstOwn(w.opp, w.inc.client);
            if w.inc.remaining < w.opp[0].remaining then s.opp == t.opp + w.opp[p..] && s.inc.remaining == 0
            else && FirstOwn(s.opp, s.inc.client) == p - 1 && t.opp == s.opp[..p - 1]
                 && s.opp[p - 1..] == w.opp[p..] && ReachOf(s) == ReachOf(w) - 1
  {
    var p := FirstOwn(w.opp, w.inc.client);
    FirstOwnTail(w.opp, w.inc.client);
    hide FirstOwn, Prints, Reach;
    SliceTail(w.opp, p);
    AlignedSteps(w, v, s, t);
    hide Executed;
    if w.inc.remaining >= w.opp[0].remaining {
      ReachTail(w, s);
    } else {
      AlignedPart(w.opp, v.opp, s.opp[0], w.opp[p..]);
    }
  }

  /** Executions against the same front order differ only in what stands behind it. */
  lemma {:induction false} AlignedSteps(w: Sweep, v: Sweep, s: Sweep, t: Sweep)
    requires w.opp != [] && v.opp != [] && v.opp[0] == w.opp[0] && v.inc == w.inc
    requires v.shares == w.shares && v.withdrawn == w.withdrawn && Prints(v.out) == Prints(w.out)
    requires Executed(w, s) && Executed(v, t)
    ensures t.inc == s.inc && t.shares == s.shares && t.withdrawn == s.withdrawn && Prints(t.out) == Prints(s.out)
    ensures if w.inc.remaining >= w.opp[0].remaining then s.opp == w.opp[1..] && t.opp == v.opp[1..]
            else && s.inc.remaining == 0 && s.opp != []
                 && s.opp == [s.opp[0]] + w.opp[1..] && t.opp == [s.opp[0]] + v.opp[1..]
  {
    hide Prints;
  }

  lemma AlignedPart(q: seq<Order>, v: seq<Order>, cut: Order, tail: seq<Order>)
    requires q != [] && v != [] && q[1..] == v[1..] + tail
    ensures [cut] + q[1..] == ([cut] + v[1..]) + tail
  {
  }

  lemma ReachTail(w: Sweep, s: Sweep)
    requires !Blocked(w) && s.opp == w.opp[1..]
    requires s.inc.typ == w.inc.typ && s.inc.side == w.inc.side && s.inc.price == w.inc.price
    ensures ReachOf(s) == ReachOf(w) - 1
  {
  }

  lemma FirstOwnTail(q: seq<Order>, client: nat)
    requires q != [] && q[0].client != client
    ensures FirstOwn(q, client) == FirstOwn(q[1..], client) + 1
  {
  }

  lemma SliceTail(q: seq<Order>, p: nat)
    requires 0 < p <= |q|
    ensures q[..p][1..] == q[1..][..p - 1] && q[1..][p - 1..] == q[p..]
    ensures q[..p][0] == q[0] && q[1..] == q[..p][1..] + q[p..]
  {
  }

  /** Every taker leg is followed by its maker leg, and the two belong to different clients. */
  ghost predicate NoSelfTrade(out: seq<Event>) {
    forall i :: 0 <= i < |out| && out[i].body.Fill? && out[i].body.aggressor ==>
      && i + 1 < |out| && out[i + 1].body.Fill? && !out[i + 1].body.aggressor
      && out[i + 1].body.id == out[i].body.contra
      && out[i + 1].body.client != out[i].body.client
  }

  lemma {:induction false} NeverTradesWithItself(w: Sweep, stp: StpMode)
    requires !stp.StpNone? && NoSelfTrade(w.out)
    ensures NoSelfTrade(Run(w, stp).out)
    decreases |w.opp|, w.inc.remaining
  {
    if !Blocked(w) {
      StepTradesWithOthers(w, stp);
      hide NoSelfTrade;
      NeverTradesWithItself(Step(w, stp), stp);
    }
  }

  lemma StepTradesWithOthers(w: Sweep, stp: StpMode)
    requires !stp.StpNone? && NoSelfTrade(w.out) && !Blocked(w)
    ensures NoSelfTrade(Step(w, stp).out)
  {
    var i, r := w.inc, w.opp[0];
    ExecuteIs(w);
    hide Execute;
    if MeetsOwn(w, stp) {
      assert Step(w, stp).out == w.out + [Step(w, stp).out[|w.out|]];
    } else {
      LegsTradeWithOthers(w.out, Legs(i, r, Min(i.remaining, r.remaining), w.seqNo));
    }
  }

  lemma LegsTradeWithOthers(out: seq<Event>, legs: seq<Event>)
    requires NoSelfTrade(out) && |legs| == 3
    requires legs[0].body.Fill? && legs[1].body.Fill? && !legs[1].body.aggressor && legs[2].body.Trade?
    requires legs[1].body.id == legs[0].body.contra && legs[1].body.client != legs[0].body.client
    ensures NoSelfTrade(out + legs)
  {
  }

  // --- the order ledger -------------------------------------------------------------------

  /** Does the event report the open size of order `id`? */
  predicate Reports(b: Body, id: nat) {
    (b.Accepted? || b.Fill? || b.Canceled? || b.Replaced?) && b.id == id
  }

  /** The last reported open size of `id`, or `start` if the stream never mentions it. */
  function LastLeaves(out: seq<Event>, id: nat, start: nat): nat {
    if out == [] then start
    else
      var b := out[|out| - 1].body;
      if Reports(b, id) then b.leaves else LastLeaves(out[..|out| - 1], id, start)
  }

  lemma {:induction false} LastLeavesConcat(a: seq<Event>, b: seq<Event>, id: nat, start: nat)
    ensures LastLeaves(a + b, id, start) == LastLeaves(b, id, LastLeaves(a, id, start))
  {
    if b == [] {
      assert a + b == a;
    } else {
      assert (a + b)[..|a + b| - 1] == a + b[..|b| - 1];
      LastLeavesConcat(a, b[..|b| - 1], id, start);
    }
  }

  lemma LastLeavesEmit(w: Sweep, b: Body, id: nat, start: nat)
    ensures LastLeaves(Emit(w, b).out, id, start)
         == if Reports(b, id) then b.leaves else LastLeaves(w.out, id, start)
  {
    assert (w.out + [Event(w.seqNo + 1, b)])[..|w.out|] == w.out;
  }

  /** Open size of order `id` on a side, zero if it is not there. */
  function OpenQty(q: seq<Order>, id: nat): nat {
    if q == [] then 0
    else if q[0].id == id then q[0].remaining
    else OpenQty(q[1..], id)
  }

  /** Open size of `id` during a sweep: the aggressor's own or a resting order's. */
  function OpenIn(w: Sweep, id: nat): nat {
    if id == w.inc.id then w.inc.remaining else OpenQty(w.opp, id)
  }

  lemma {:induction false} OpenQtyAbsent(q: seq<Order>, id: nat)
    requires !HasId(q, id)
    ensures OpenQty(q, id) == 0
  {
    if q != [] {
      HasIdTail(q, id);
      OpenQtyAbsent(q[1..], id);
    }
  }

  lemma LedgerExecute(w: Sweep, id: nat, start: nat)
    requires !Blocked(w) && w.opp[0].id != w.inc.id && OpenQty(w.opp[1..], w.opp[0].id) == 0
    requires LastLeaves(w.out, id, start) == OpenIn(w, id)
    ensures LastLeaves(Execute(w).out, id, start) == OpenIn(Execute(w), id)
  {
    hide Emit, LastLeaves;
    var i, r := w.inc, w.opp[0];
    var n := Min(i.remaining, r.remaining);
    var f1 := Fill(i.id, r.id, i.client, i.side, r.price, n, i.remaining - n, true);
    var f2 := Fill(r.id, i.id, r.client, r.side, r.price, n, r.remaining - n, false);
    LastLeavesEmit(w, f1, id, start);
    LastLeavesEmit(Emit(w, f1), f2, id, start);
    LastLeavesEmit(Emit(Emit(w, f1), f2), Trade(i.id, r.id, i.side, r.price, n), id, start);
  }

  lemma LedgerStep(w: Sweep, stp: StpMode, id: nat, start: nat)
    requires !Blocked(w) && DistinctIds(w.opp) && !HasId(w.opp, w.inc.id)
    requires LastLeaves(w.out, id, start) == OpenIn(w, id)
    ensures LastLeaves(Step(w, stp).out, id, start) == OpenIn(Step(w, stp), id)
  {
    var i, r := w.inc, w.opp[0];
    assert r.id != i.id;
    assert !HasId(w.opp[1..], r.id);
    OpenQtyAbsent(w.opp[1..], r.id);
    hide HasId, LastLeaves, Emit;
    if !MeetsOwn(w, stp) {
      hide Execute;
      LedgerExecute(w, id, start);
    } else if stp.CancelAggressor? {
      LastLeavesEmit(w, Canceled(i.id, i.client, i.side, i.price, 0, 0, SelfTradePrevented), id, start);
    } else {
      LastLeavesEmit(w, Canceled(r.id, r.client, r.side, r.price, 0, 0, SelfTradePrevented), id, start);
    }
  }

  /** The events of a sweep keep the ledger in step with the orders' true open sizes. */
  lemma {:induction false} LedgerRun(w: Sweep, stp: StpMode, id: nat, start: nat)
    requires DistinctIds(w.opp) && !HasId(w.opp, w.inc.id)
    requires LastLeaves(w.out, id, start) == OpenIn(w, id)
    ensures LastLeaves(Run(w, stp).out, id, start) == OpenIn(Run(w, stp), id)
    decreases |w.opp|, w.inc.remaining
  {
    hide Emit, LastLeaves, OpenQty;
    if !Blocked(w) {
      var s := Step(w, stp);
      LedgerStep(w, stp, id, start);
      assert s.opp != w.opp && s.opp != w.opp[1..] ==> s.opp[1..] == w.opp[1..];
      HasIdTail(w.opp, w.inc.id);
      if s.opp != [] { HasIdTail(s.opp, w.inc.id); }
      LedgerRun(s, stp, id, start);
    }
  }

  /** An order that takes no part in the sweep keeps its last reported size. */
  lemma {:induction false} LedgerBystander(w: Sweep, stp: StpMode, id: nat, start: nat)
    requires id != w.inc.id && !HasId(w.opp, id)
    ensures LastLeaves(Run(w, stp).out, id, start) == LastLeaves(w.out, id, start)
    decreases |w.opp|, w.inc.remaining
  {
    hide Emit, LastLeaves, HasId;
    if !Blocked(w) {
      var s := Step(w, stp);
      var i, r := w.inc, w.opp[0];
      HasIdTail(w.opp, id);
      if s.opp != [] { HasIdTail(s.opp, id); }
      if MeetsOwn(w, stp) {
        if stp.CancelAggressor? {
          LastLeavesEmit(w, Canceled(i.id, i.client, i.side, i.price, 0, 0, SelfTradePrevented), id, start);
        } else {
          LastLeavesEmit(w, Canceled(r.id, r.client, r.side, r.price, 0, 0, SelfTradePrevented), id, start);
        }
      } else {
        var n := Min(i.remaining, r.remaining);
        var f1 := Fill(i.id, r.id, i.client, i.side, r.price, n, i.remaining - n, true);
        var f2 := Fill(r.id, i.id, r.client, r.side, r.price, n, r.remaining - n, false);
        LastLeavesEmit(w, f1, id, start);
        LastLeavesEmit(Emit(w, f1), f2, id, start);
        LastLeavesEmit(Emit(Emit(w, f1), f2), Trade(i.id, r.id, i.side, r.price, n), id, start);
      }
      assert s.opp != [] && s.opp != w.opp && s.opp != w.opp[1..] ==> s.opp[1..] == w.opp[1..];
      LedgerBystander(s, stp, id, start);
    }
  }
}

/** What each order type, self-trade mode and amendment guarantees.

    The claims are about one command or about whole runs; where a promise can fail, the exact
    condition is given together with an input that shows it. */
module Policies {
  import opened Types
  import opened PriceTime
  import opened EngineSpec
  import opened Conservation
  import M = Matching

  // --- how much an accepted order trades -----------------------------------------------------

  /** Quantity a new order trades on arrival, by the engine's own counter. */
  ghost function Filled(st: State, cmd: Command): int {
    HandleNew(st, cmd).stats.sharesTraded - st.stats.sharesTraded
  }

  lemma FilledInSweep(st: State, cmd: Command)
    ensures Filled(st, cmd) == if Refusal(st, cmd) != NoReason then 0
                               else M.Run(Opening(st, cmd), st.cfg.stp).shares - st.stats.sharesTraded
  {
    hide M.Run, Refusal, Insert;
  }

  lemma {:induction false} ReachEverything(side: Side, q: seq<Order>)
    ensures Reach(side, NO_PRICE, q) == |q|
  {
    if q != [] { ReachEverything(side, q[1..]); }
  }

  /** What the other clients offer within reach is the reachable part of what they offer. */
  lemma {:induction false} OthersWithinReach(side: Side, limit: int, q: seq<Order>, client: nat)
    requires Sorted(Opposite(side), q)
    ensures var f := M.Others(q, client);
            f[..Reach(side, limit, f)] == M.Others(q[..Reach(side, limit, q)], client)
  {
    var f := M.Others(q, client);
    var n := Reach(side, limit, q);
    if q == [] {
    } else if n == 0 {
      M.OthersElements(q, client);
      if f != [] {
        assert f[0] in q;
        var i :| 0 <= i < |q| && q[i] == f[0];
        ReachIsCrossing(side, limit, q, i);
      }
    } else {
      OthersWithinReach(side, limit, q[1..], client);
      assert q[..n][1..] == q[1..][..n - 1];
      if q[0].client != client {
        assert f[1..] == M.Others(q[1..], client);
        assert f[..Reach(side, limit, f)] == [q[0]] + f[1..][..Reach(side, limit, f[1..])];
      }
    }
  }

  lemma {:induction false} ReachOfPrefix(side: Side, limit: int, q: seq<Order>, p: nat)
    requires p <= |q|
    ensures Reach(side, limit, q[..p]) == Min(p, Reach(side, limit, q))
  {
    if p > 0 && Crosses(side, limit, q[0].price) {
      assert q[..p][1..] == q[1..][..p - 1];
      ReachOfPrefix(side, limit, q[1..], p - 1);
    }
  }

  /** Everything resting that the self-trade mode lets this order trade with. */
  ghost function Available(st: State, cmd: Command): nat {
    var q := Orders(st, Opposite(cmd.side));
    var within := q[..Reach(cmd.side, LimitOf(cmd), q)];
    match st.cfg.stp
    case StpNone => Sum(within)
    case CancelResting => Sum(M.Others(within, cmd.client))
    case CancelAggressor => Sum(within[..M.FirstOwn(within, cmd.client)])
  }

  lemma GreedyGets(w: M.Sweep)
    requires M.Positive(w.opp)
    ensures M.Run(w, StpNone).shares == w.shares + Min(w.inc.remaining, Sum(w.opp[..M.ReachOf(w)]))
  {
    var k := M.GreedyFilling(w);
  }

  lemma {:induction false} FirstOwnOfPrefix(q: seq<Order>, client: nat, n: nat)
    requires n <= |q|
    ensures M.FirstOwn(q[..n], client) == Min(n, M.FirstOwn(q, client))
  {
    if n > 0 && q[0].client != client {
      assert q[..n][1..] == q[1..][..n - 1];
      FirstOwnOfPrefix(q[1..], client, n - 1);
    }
  }

  lemma OpeningReach(st: State, cmd: Command)
    ensures M.ReachOf(Opening(st, cmd)) == Reach(cmd.side, LimitOf(cmd), Orders(st, Opposite(cmd.side)))
  {
    ReachEverything(cmd.side, Orders(st, Opposite(cmd.side)));
  }

  lemma GetsUnderCancelResting(w: M.Sweep)
    requires M.Positive(w.opp) && Sorted(Opposite(w.inc.side), w.opp)
    requires w.inc.typ.Market? ==> w.inc.price == NO_PRICE
    ensures M.Run(w, CancelResting).shares
         == w.shares + Min(w.inc.remaining, Sum(M.Others(w.opp[..Reach(w.inc.side, w.inc.price, w.opp)], w.inc.client)))
  {
    var v := w.(opp := M.Others(w.opp, w.inc.client));
    M.OthersElements(w.opp, w.inc.client);
    assert M.Positive(v.opp) by {
      forall i | 0 <= i < |v.opp| ensures v.opp[i].remaining > 0 { assert v.opp[i] in w.opp; }
    }
    M.CancelRestingIsGreedyOnOthers(w, v);
    GreedyGets(v);
    ReachEverything(w.inc.side, v.opp);
    OthersWithinReach(w.inc.side, w.inc.price, w.opp, w.inc.client);
  }

  lemma GetsUnderCancelAggressor(w: M.Sweep)
    requires M.Positive(w.opp)
    requires w.inc.typ.Market? ==> w.inc.price == NO_PRICE
    ensures var within := w.opp[..Reach(w.inc.side, w.inc.price, w.opp)];
            M.Run(w, CancelAggressor).shares ==
            w.shares + Min(w.inc.remaining, Sum(within[..M.FirstOwn(within, w.inc.client)]))
  {
    hide M.Run, M.Prints, Sum;
    var p, n := M.FirstOwn(w.opp, w.inc.client), Reach(w.inc.side, w.inc.price, w.opp);
    var v := w.(opp := w.opp[..p]);
    M.CancelAggressorStopsAtFirstOwn(w, v);
    GreedyGets(v);
    ReachEverything(w.inc.side, v.opp);
    ReachOfPrefix(w.inc.side, w.inc.price, w.opp, p);
    FirstOwnOfPrefix(w.opp, w.inc.client, n);
    assert w.opp[..p][..Min(p, n)] == w.opp[..n][..Min(n, p)];
  }

  /** In every mode an accepted order trades the smaller of its size and what the mode makes
      available to it; a refused one trades nothing. */
  lemma FilledExactly(st: State, cmd: Command)
    requires Inv(st)
    ensures Filled(st, cmd) == if Refusal(st, cmd) != NoReason then 0 else Min(cmd.quantity, Available(st, cmd))
  {
    hide HandleNew, Filled, Refusal;
    FilledInSweep(st, cmd);
    var w := Opening(st, cmd);
    InvFromSide(st, cmd.side);
    OpeningReach(st, cmd);
    match st.cfg.stp
    case StpNone => GreedyGets(w);
    case CancelResting => GetsUnderCancelResting(w);
    case CancelAggressor => GetsUnderCancelAggressor(w);
  }

  /** An accepted fill-or-kill fills completely if and only if the self-trade mode leaves it
      enough; with self-trade prevention off that is always so. */
  lemma FokFillsExactlyWhen(st: State, cmd: Command)
    requires Inv(st) && cmd.typ.Fok? && Refusal(st, cmd) == NoReason
    ensures Filled(st, cmd) == cmd.quantity <==> cmd.quantity <= Available(st, cmd)
    ensures st.cfg.stp.StpNone? ==> Filled(st, cmd) == cmd.quantity
  {
    hide HandleNew, Filled;
    FilledExactly(st, cmd);
  }

  /** The pre-check counts the client's own orders: after one resting sell of client 7, a buy
      fill-or-kill of the same client is acknowledged under CancelResting, pulls the sell, trades
      nothing and is cancelled whole. */
  lemma FokCanMissUnderStp()
    ensures var cfg := Config(1, 100, 10, CancelResting, false);
            var cmd := MakeNew(2, 7, Buy, Fok, 50, 5);
            var ins := [Submit(MakeNew(1, 7, Sell, Limit, 50, 5)), Submit(cmd)];
            var st, z := Drive(Initial(cfg), [ins[0]]), Drive(Initial(cfg), ins);
            && Refusal(st, cmd) == NoReason && Filled(st, cmd) == 0
            && z.out == [Event(2, Accepted(2, 7, Buy, 50, 5, 5)),
                         Event(3, Canceled(1, 7, Sell, 50, 0, 0, SelfTradePrevented)),
                         Event(4, Canceled(2, 7, Buy, 50, 5, 0, NoReason))]
  {
    var cfg := Config(1, 100, 10, CancelResting, false);
    var first, cmd := MakeNew(1, 7, Sell, Limit, 50, 5), MakeNew(2, 7, Buy, Fok, 50, 5);
    FirstOrderRests(cfg, first);
    TwoInputs(cfg, Submit(first), Submit(cmd));
    DriveKeepsInv(Initial(cfg), [Submit(first)]);
    hide Drive, Inv, Process, Refusal;
    OwnFokMisses(Drive(Initial(cfg), [Submit(first)]));
  }

  lemma OwnFokMisses(st: State)
    requires Inv(st) && st.cfg == Config(1, 100, 10, CancelResting, false) && !st.halted && st.seqNo == 1
    requires st.bids == [] && st.asks == [Order(1, 7, 50, 5, 5, 1, Sell, Limit)]
    ensures var cmd := MakeNew(2, 7, Buy, Fok, 50, 5);
            && Refusal(st, cmd) == NoReason && Filled(st, cmd) == 0
            && Process(st, cmd).out == [Event(2, Accepted(2, 7, Buy, 50, 5, 5)),
                                        Event(3, Canceled(1, 7, Sell, 50, 0, 0, SelfTradePrevented)),
                                        Event(4, Canceled(2, 7, Buy, 50, 5, 0, NoReason))]
  {
    var own, cmd := Order(1, 7, 50, 5, 5, 1, Sell, Limit), MakeNew(2, 7, Buy, Fok, 50, 5);
    assert st.asks[..1] == [own];
    assert Reach(Buy, 50, [own]) == 1;
    assert Sum([own]) == 5;
    assert M.Others([own], 7) == [];
    FilledExactly(st, cmd);
    var b := Begin(st, New);
    OneOwnIsPulled(Opening(b, cmd), own);
    hide M.Run, Inv;
    assert Refusal(b, cmd) == NoReason;
  }

  lemma OneOwnIsPulled(w: M.Sweep, own: Order)
    requires w.opp == [own] && own.client == w.inc.client && !M.Blocked(w)
    ensures M.Run(w, CancelResting) == M.PullResting(w)
  {
    assert M.Blocked(M.PullResting(w));
  }

  /** An accepted order that reaches nothing goes straight to its final disposition. */
  lemma BlockedGoesToSettle(st: State, cmd: Command)
    requires Refusal(st, cmd) == NoReason && M.Blocked(Opening(st, cmd))
    ensures HandleNew(st, cmd) == Settle(AfterSweep(st, Opening(st, cmd)), Incoming(st, cmd))
  {
  }

  /** An accepted post-only order never trades, in any mode: its acknowledgement is the only
      event and the whole order rests, or, if the pool is full, is cancelled whole. */
  lemma PostOnlyNeverTrades(st: State, cmd: Command)
    requires cmd.typ.PostOnly? && cmd.price != NO_PRICE && Refusal(st, cmd) == NoReason
    ensures Filled(st, cmd) == 0
    ensures var z := HandleNew(st, cmd);
            var a := Event(st.seqNo + 1, Accepted(cmd.id, cmd.client, cmd.side, cmd.price, cmd.quantity, cmd.quantity));
            var c := Event(st.seqNo + 2,
                           Canceled(cmd.id, cmd.client, cmd.side, cmd.price, cmd.quantity, 0, PoolExhausted));
            && Orders(z, Opposite(cmd.side)) == Orders(st, Opposite(cmd.side))
            && if Resting(st) < st.cfg.maxOrders
               then z.out == st.out + [a] && Orders(z, cmd.side) == Insert(Orders(st, cmd.side), Incoming(st, cmd))
               else z.out == st.out + [a] + [c] && Orders(z, cmd.side) == Orders(st, cmd.side)
  {
    assert M.Blocked(Opening(st, cmd));
    BlockedGoesToSettle(st, cmd);
  }

  // --- no client trades with itself -----------------------------------------------------------

  lemma EmitKeepsApart(st: State, b: Body)
    requires M.NoSelfTrade(st.out) && !b.Fill?
    ensures M.NoSelfTrade(Emit(st, b).out)
  {
  }

  lemma SettleKeepsApart(a: State, inc: Order)
    requires M.NoSelfTrade(a.out)
    ensures M.NoSelfTrade(Settle(a, inc).out)
  {
  }

  lemma NewNeverSelfTrades(st: State, cmd: Command)
    requires !st.cfg.stp.StpNone? && M.NoSelfTrade(st.out)
    ensures M.NoSelfTrade(HandleNew(st, cmd).out)
  {
    var why := Refusal(st, cmd);
    if why == NoReason {
      var w := Opening(st, cmd);
      EmitKeepsApart(st, Accepted(cmd.id, cmd.client, cmd.side, LimitOf(cmd), cmd.quantity, cmd.quantity));
      M.NeverTradesWithItself(w, st.cfg.stp);
      var z := M.Run(w, st.cfg.stp);
      SettleKeepsApart(AfterSweep(st, z), z.inc);
    } else {
      EmitKeepsApart(st, Rejected(cmd.id, cmd.client, cmd.side, cmd.price, cmd.quantity, why));
    }
  }

  lemma CancelNeverSelfTrades(st: State, cmd: Command)
    requires M.NoSelfTrade(st.out)
    ensures M.NoSelfTrade(HandleCancel(st, cmd).out)
  {
    hide M.NoSelfTrade;
    EmitKeepsApart(st, Rejected(cmd.id, cmd.client, cmd.side, cmd.price, cmd.quantity, UnknownOrder));
    if Known(st, cmd.id) {
      var o := Lookup(st, cmd.id);
      EmitKeepsApart(st, Canceled(o.id, o.client, o.side, o.price, o.remaining, 0, NoReason));
    }
  }

  lemma ModifyNeverSelfTrades(st: State, cmd: Command)
    requires !st.cfg.stp.StpNone? && M.NoSelfTrade(st.out)
    ensures M.NoSelfTrade(HandleModify(st, cmd).out)
  {
    hide HandleNew, HandleCancel, M.NoSelfTrade;
    if !Known(st, cmd.id) {
      EmitKeepsApart(st, Rejected(cmd.id, cmd.client, cmd.side, cmd.price, cmd.quantity, UnknownOrder));
    } else if cmd.quantity == 0 {
      CancelNeverSelfTrades(st, MakeCancel(cmd.id, cmd.client));
    } else {
      var o := Lookup(st, cmd.id);
      if IsSizeDown(o, cmd) {
        EmitKeepsApart(st, Replaced(o.id, o.client, o.side, o.price, cmd.quantity, cmd.quantity));
      } else {
        NewNeverSelfTrades(Without(st, cmd.id).(withdrawn := st.withdrawn + o.remaining), Replacement(o, cmd));
      }
    }
  }

  lemma HandleNeverSelfTrades(st: State, cmd: Command)
    requires !st.cfg.stp.StpNone? && M.NoSelfTrade(st.out)
    ensures M.NoSelfTrade(Handle(st, cmd).out)
  {
    hide HandleNew, HandleModify, HandleCancel, M.NoSelfTrade;
    EmitKeepsApart(st, Rejected(cmd.id, cmd.client, cmd.side, cmd.price, cmd.quantity, BookHalted));
    match cmd.kind
    case New => NewNeverSelfTrades(st, cmd);
    case Cancel => CancelNeverSelfTrades(st, cmd);
    case Modify => ModifyNeverSelfTrades(st, cmd);
  }

  lemma ProcessNeverSelfTrades(st: State, cmd: Command)
    requires !st.cfg.stp.StpNone?
    ensures M.NoSelfTrade(Process(st, cmd).out)
  {
    hide Handle;
    var h := Handle(Begin(st, cmd.kind), cmd);
    HandleNeverSelfTrades(Begin(st, cmd.kind), cmd);
    EmitKeepsApart(h, BookChanged(BestPrice(h.bids), TopQty(h.bids), BestPrice(h.asks), TopQty(h.asks)));
  }

  /** With self-trade prevention on, in either mode, no run ever matches a client with itself. */
  lemma {:induction false} NoRunSelfTrades(cfg: Config, ins: seq<Input>)
    requires !cfg.stp.StpNone?
    ensures M.NoSelfTrade(Trace(Initial(cfg), ins))
  {
    if ins != [] {
      var prev := ins[..|ins| - 1];
      NoRunSelfTrades(cfg, prev);
      DriveKeepsConfig(Initial(cfg), prev);
      if ins[|ins| - 1].Submit? { ProcessNeverSelfTrades(Drive(Initial(cfg), prev), ins[|ins| - 1].cmd); }
      hide Process;
      JoinKeepsApart(Trace(Initial(cfg), prev), Drive(Initial(cfg), ins).out);
    }
  }

  lemma JoinKeepsApart(a: seq<Event>, b: seq<Event>)
    requires M.NoSelfTrade(a) && M.NoSelfTrade(b)
    ensures M.NoSelfTrade(a + b)
  {
  }

  // --- amendments -----------------------------------------------------------------------------

  /** A sweep depends on the aggressor and the book, not on what was reported before. */
  lemma {:induction false} RunIgnoresStream(w: M.Sweep, v: M.Sweep, stp: StpMode)
    requires v.inc == w.inc && v.opp == w.opp
    requires v.trades == w.trades && v.shares == w.shares && v.withdrawn == w.withdrawn
    ensures var z, y := M.Run(w, stp), M.Run(v, stp);
            && y.inc == z.inc && y.opp == z.opp
            && y.trades == z.trades && y.shares == z.shares && y.withdrawn == z.withdrawn
    decreases |w.opp|, w.inc.remaining
  {
    if !M.Blocked(w) {
      RunIgnoresStream(M.Step(w, stp), M.Step(v, stp), stp);
    }
  }

  /** Same books, index, arrival counter, ghost counters; the event stream may differ. */
  ghost predicate SameBook(a: State, b: State) {
    a == b.(out := a.out, seqNo := a.seqNo)
  }

  lemma SettleIgnoresStream(a: State, b: State, inc: Order)
    requires SameBook(a, b)
    ensures SameBook(Settle(a, inc), Settle(b, inc))
  {
  }

  lemma NewIgnoresStream(a: State, b: State, cmd: Command)
    requires SameBook(a, b)
    ensures SameBook(HandleNew(a, cmd), HandleNew(b, cmd))
  {
    hide M.Run, Insert, Marketable, HasId;
    assert Refusal(a, cmd) == Refusal(b, cmd);
    hide Refusal, Settle;
    if Refusal(a, cmd) == NoReason {
      RunIgnoresStream(Opening(a, cmd), Opening(b, cmd), a.cfg.stp);
      var z, y := M.Run(Opening(a, cmd), a.cfg.stp), M.Run(Opening(b, cmd), a.cfg.stp);
      SettleIgnoresStream(AfterSweep(a, z), AfterSweep(b, y), z.inc);
    }
  }

  /** An amendment that names another price, or no smaller size, is a cancel followed by a new order
      with the original id, client, side and type: same books, same arrival counter, same totals. */
  lemma ModifyIsCancelThenNew(st: State, cmd: Command)
    requires Known(st, cmd.id) && cmd.quantity > 0
    requires var o := Lookup(st, cmd.id);
             (cmd.price != NO_PRICE && cmd.price != o.price) || cmd.quantity >= o.remaining
    ensures var o := Lookup(st, cmd.id);
            var price := if cmd.price == NO_PRICE then o.price else cmd.price;
            SameBook(HandleModify(st, cmd),
                     HandleNew(HandleCancel(st, MakeCancel(cmd.id, cmd.client)),
                               MakeNew(cmd.id, o.client, o.side, o.typ, price, cmd.quantity)))
  {
    hide HandleNew;
    var o := Lookup(st, cmd.id);
    var gone := Without(st, cmd.id).(withdrawn := st.withdrawn + o.remaining);
    var cancelled := HandleCancel(st, MakeCancel(cmd.id, cmd.client));
    assert SameBook(gone, cancelled);
    NewIgnoresStream(gone, cancelled, Replacement(o, cmd));
  }

  /** A same-price size-down keeps the order's place, its arrival number and, because the size
      is recomputed after the cut, its original quantity; nobody else is touched. */
  lemma SizeDownKeepsPlace(st: State, cmd: Command, s: Side, i: nat)
    requires Inv(st) && i < |Orders(st, s)| && Orders(st, s)[i].id == cmd.id
    requires cmd.price == NO_PRICE || cmd.price == Orders(st, s)[i].price
    requires 0 < cmd.quantity < Orders(st, s)[i].remaining
    ensures var z := HandleModify(st, cmd);
            && Orders(z, s) == Orders(st, s)[i := Orders(st, s)[i].(remaining := cmd.quantity)]
            && Orders(z, Opposite(s)) == Orders(st, Opposite(s))
            && z.arrival == st.arrival
  {
    InvFromSide(st, s);
    PosOfAt(Orders(st, s), i);
    assert !HasId(Orders(st, Opposite(s)), cmd.id);
    assert SideOf(st, cmd.id) == s;
  }

  // --- time priority -----------------------------------------------------------------------------

  /** `o` is the order `a` some time later: same identity and place, no larger. */
  predicate Later(a: Order, o: Order) {
    && o.id == a.id && o.client == a.client && o.price == a.price && o.seqNo == a.seqNo
    && o.side == a.side && o.typ == a.typ && o.remaining <= a.remaining
  }

  /** Every order of `z` that had arrived by `arrival` was already in `q`. */
  ghost predicate OldOnesFrom(q: seq<Order>, z: seq<Order>, arrival: nat) {
    forall j :: 0 <= j < |z| && z[j].seqNo <= arrival ==> exists i :: 0 <= i < |q| && Later(q[i], z[j])
  }

  lemma OldOnesSelf(q: seq<Order>, arrival: nat)
    ensures OldOnesFrom(q, q, arrival)
  {
    forall j | 0 <= j < |q| ensures exists i :: 0 <= i < |q| && Later(q[i], q[j]) {
      assert Later(q[j], q[j]);
    }
  }

  lemma OldOnesTrans(q: seq<Order>, y: seq<Order>, z: seq<Order>, arrival: nat)
    requires OldOnesFrom(q, y, arrival) && OldOnesFrom(y, z, arrival)
    ensures OldOnesFrom(q, z, arrival)
  {
    forall j | 0 <= j < |z| && z[j].seqNo <= arrival ensures exists i :: 0 <= i < |q| && Later(q[i], z[j]) {
      var m :| 0 <= m < |y| && Later(y[m], z[j]);
      var i :| 0 <= i < |q| && Later(q[i], y[m]);
    }
  }

  lemma OldOnesEaten(q: seq<Order>, z: seq<Order>, k: nat, arrival: nat)
    requires M.Eaten(q, z, k)
    ensures OldOnesFrom(q, z, arrival)
  {
    forall j | 0 <= j < |z| ensures exists i :: 0 <= i < |q| && Later(q[i], z[j]) {
      assert Later(q[k + j], z[j]);
    }
  }

  lemma OldOnesRemoved(q: seq<Order>, i: nat, arrival: nat)
    requires i < |q|
    ensures OldOnesFrom(q, RemoveAt(q, i), arrival)
  {
    var z := RemoveAt(q, i);
    forall j | 0 <= j < |z| ensures exists k :: 0 <= k < |q| && Later(q[k], z[j]) {
      assert Later(q[if j < i then j else j + 1], z[j]);
    }
  }

  lemma OldOnesInserted(q: seq<Order>, o: Order, arrival: nat)
    requires o.seqNo > arrival
    ensures OldOnesFrom(q, Insert(q, o), arrival)
  {
    var i := InsertSplits(q, o);
    var z := Insert(q, o);
    forall j | 0 <= j < |z| && z[j].seqNo <= arrival ensures exists k :: 0 <= k < |q| && Later(q[k], z[j]) {
      assert Later(q[if j < i then j else j - 1], z[j]);
    }
  }

  lemma OldOnesSizedDown(q: seq<Order>, i: nat, qty: nat, arrival: nat)
    requires i < |q| && qty < q[i].remaining
    ensures OldOnesFrom(q, q[i := SizedDown(q[i], qty)], arrival)
  {
    var z := q[i := SizedDown(q[i], qty)];
    forall j | 0 <= j < |z| ensures exists k :: 0 <= k < |q| && Later(q[k], z[j]) {
      assert Later(q[j], z[j]);
    }
  }

  /** Both sides of `st'` hold, of the orders that had arrived by `st.arrival`, only ones of `st`. */
  ghost predicate Follows(st: State, st': State, arrival: nat) {
    OldOnesFrom(st.bids, st'.bids, arrival) && OldOnesFrom(st.asks, st'.asks, arrival)
  }

  lemma FollowsFromSide(st: State, z: State, arrival: nat, s: Side)
    ensures Follows(st, z, arrival) <==>
              && OldOnesFrom(Orders(st, s), Orders(z, s), arrival)
              && OldOnesFrom(Orders(st, Opposite(s)), Orders(z, Opposite(s)), arrival)
  {
  }

  lemma SettleFollows(st: State, a: State, inc: Order)
    requires OldOnesFrom(Orders(st, Opposite(inc.side)), Orders(a, Opposite(inc.side)), st.arrival)
    requires Orders(a, inc.side) == Orders(st, inc.side) && inc.seqNo > st.arrival
    ensures Follows(st, Settle(a, inc), st.arrival)
  {
    var s := inc.side;
    OldOnesSelf(Orders(st, s), st.arrival);
    OldOnesInserted(Orders(st, s), inc, st.arrival);
    var z := Settle(a, inc);
    assert Orders(z, Opposite(s)) == Orders(a, Opposite(s));
    assert Orders(z, s) == Orders(st, s) || Orders(z, s) == Insert(Orders(st, s), inc);
    FollowsFromSide(st, z, st.arrival, s);
  }

  lemma NewFollows(st: State, cmd: Command)
    requires Inv(st)
    ensures Follows(st, HandleNew(st, cmd), st.arrival)
  {
    if Refusal(st, cmd) == NoReason {
      var w := Opening(st, cmd);
      InvFromSide(st, cmd.side);
      M.RunKeepsIdentity(w, st.cfg.stp);
      var k := M.RunEats(w, st.cfg.stp);
      var z := M.Run(w, st.cfg.stp);
      OldOnesEaten(w.opp, z.opp, k, st.arrival);
      SettleFollows(st, AfterSweep(st, z), z.inc);
    } else {
      OldOnesSelf(st.bids, st.arrival);
      OldOnesSelf(st.asks, st.arrival);
    }
  }

  lemma WithoutFollows(st: State, id: nat, arrival: nat)
    requires Known(st, id)
    ensures Follows(st, Without(st, id), arrival)
  {
    OldOnesSelf(st.bids, arrival);
    OldOnesSelf(st.asks, arrival);
    var q := Orders(st, SideOf(st, id));
    OldOnesRemoved(q, PosOf(q, id), arrival);
  }

  lemma FollowsTrans(a: State, b: State, c: State, arrival: nat)
    requires Follows(a, b, arrival) && Follows(b, c, arrival)
    ensures Follows(a, c, arrival)
  {
    OldOnesTrans(a.bids, b.bids, c.bids, arrival);
    OldOnesTrans(a.asks, b.asks, c.asks, arrival);
  }

  lemma ReplayFollows(st: State, cmd: Command, gone: State, repl: Command)
    requires Inv(st) && Known(st, cmd.id)
    requires gone == Without(st, cmd.id).(withdrawn := st.withdrawn + Lookup(st, cmd.id).remaining)
    ensures Follows(st, HandleNew(gone, repl), st.arrival)
  {
    WithoutFollows(st, cmd.id, st.arrival);
    WithoutKeepsInv(st, cmd.id);
    assert Inv(gone) && gone.arrival == st.arrival;
    NewFollows(gone, repl);
    FollowsTrans(st, gone, HandleNew(gone, repl), st.arrival);
  }

  lemma FollowsEqual(st: State, a: State, b: State, arrival: nat)
    requires a == b && Follows(st, a, arrival)
    ensures Follows(st, b, arrival)
  {
  }

  lemma RequeueFollows(st: State, cmd: Command)
    requires Inv(st) && Known(st, cmd.id) && cmd.quantity > 0 && !IsSizeDown(Lookup(st, cmd.id), cmd)
    ensures Follows(st, HandleModify(st, cmd), st.arrival)
  {
    hide HandleNew, OldOnesFrom;
    var o := Lookup(st, cmd.id);
    var gone := Without(st, cmd.id).(withdrawn := st.withdrawn + o.remaining);
    ReplayFollows(st, cmd, gone, Replacement(o, cmd));
    FollowsEqual(st, HandleNew(gone, Replacement(o, cmd)), HandleModify(st, cmd), st.arrival);
  }

  lemma SizeDownFollows(st: State, cmd: Command)
    requires Known(st, cmd.id) && IsSizeDown(Lookup(st, cmd.id), cmd)
    ensures Follows(st, SizeDown(st, cmd), st.arrival)
  {
    var s := SideOf(st, cmd.id);
    var q := Orders(st, s);
    OldOnesSelf(Orders(st, Opposite(s)), st.arrival);
    OldOnesSizedDown(q, PosOf(q, cmd.id), cmd.quantity, st.arrival);
    FollowsFromSide(st, SizeDown(st, cmd), st.arrival, s);
  }

  lemma CancelFollows(st: State, cmd: Command)
    ensures Follows(st, HandleCancel(st, cmd), st.arrival)
  {
    if Known(st, cmd.id) {
      WithoutFollows(st, cmd.id, st.arrival);
    } else {
      OldOnesSelf(st.bids, st.arrival);
      OldOnesSelf(st.asks, st.arrival);
    }
  }

  lemma RejectFollows(st: State, cmd: Command, why: RejectReason)
    ensures Follows(st, EmitReject(st, cmd, why), st.arrival)
  {
    OldOnesSelf(st.bids, st.arrival);
    OldOnesSelf(st.asks, st.arrival);
  }

  lemma ModifyFollows(st: State, cmd: Command)
    requires Inv(st)
    ensures Follows(st, HandleModify(st, cmd), st.arrival)
  {
    if !Known(st, cmd.id) {
      RejectFollows(st, cmd, UnknownOrder);
    } else if cmd.quantity == 0 {
      CancelFollows(st, MakeCancel(cmd.id, cmd.client));
    } else if IsSizeDown(Lookup(st, cmd.id), cmd) {
      SizeDownFollows(st, cmd);
    } else {
      RequeueFollows(st, cmd);
    }
  }

  lemma HandleFollows(st: State, cmd: Command)
    requires Inv(st)
    ensures Follows(st, Handle(st, cmd), st.arrival)
  {
    match cmd.kind
    case New => if st.halted { RejectFollows(st, cmd, BookHalted); } else { NewFollows(st, cmd); }
    case Cancel => CancelFollows(st, cmd);
    case Modify => ModifyFollows(st, cmd);
  }

  lemma ProcessFollows(st: State, cmd: Command)
    requires Inv(st)
    ensures Follows(st, Process(st, cmd), st.arrival)
  {
    var b := Begin(st, cmd.kind);
    HandleFollows(b, cmd);
    var h := Handle(b, cmd);
    assert Finish(h).bids == h.bids && Finish(h).asks == h.asks;
  }

  /** Two old orders of a sorted side stem from two orders in the same sequence before. */
  lemma StableOrder(s: Side, q: seq<Order>, z: seq<Order>, arrival: nat, i: nat, j: nat) returns (i': nat, j': nat)
    requires Sorted(s, q) && Sorted(s, z) && OldOnesFrom(q, z, arrival)
    requires i < j < |z| && z[i].seqNo <= arrival && z[j].seqNo <= arrival
    ensures i' < j' < |q| && Later(q[i'], z[i]) && Later(q[j'], z[j])
  {
    i' :| 0 <= i' < |q| && Later(q[i'], z[i]);
    j' :| 0 <= j' < |q| && Later(q[j'], z[j]);
    assert Ahead(s, z[i], z[j]);
    assert Ahead(s, q[i'], q[j']);
    assert !Ahead(s, q[j'], q[i']);
  }

  /** No command ever reorders the orders it leaves in place: two orders of a side that were
      resting before and still are kept their relative position, price and arrival number. */
  lemma QueueOrderIsStable(st: State, cmd: Command, s: Side, i: nat, j: nat) returns (i': nat, j': nat)
    requires Inv(st) && ValidCommand(cmd)
    requires var z := Orders(Process(st, cmd), s);
             i < j < |z| && z[i].seqNo <= st.arrival && z[j].seqNo <= st.arrival
    ensures var q, z := Orders(st, s), Orders(Process(st, cmd), s);
            i' < j' < |q| && Later(q[i'], z[i]) && Later(q[j'], z[j])
  {
    ProcessKeepsInv(st, cmd);
    ProcessFollows(st, cmd);
    InvFromSide(st, s);
    InvFromSide(Process(st, cmd), s);
    i', j' := StableOrder(s, Orders(st, s), Orders(Process(st, cmd), s), st.arrival, i, j);
  }
}

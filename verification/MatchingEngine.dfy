/** The engine itself: the stores, the event buffer and the counters, updated in place. Every
    operation is proved to take the abstract state exactly where `EngineSpec` says.

    Clients read the state through `Abs`; the lists in it are those of the two book sides, and
    what `EngineSpec` proves of its states therefore holds of every engine.

    The methods keep the order in which the engine checks, emits, relinks and counts. */
module MatchingEngine {
  import opened Types
  import opened PriceTime
  import opened ObjectPool
  import opened Queues
  import opened Book
  import F = FlatPtrMap
  import OrderStore
  import M = Matching
  import S = EngineSpec

  class Engine {
    const cfg: Config
    const store: OrderStore.Store
    var out: seq<Event>
    var seqNo: nat
    var arrival: nat
    var halted: bool
    var lastBid: int
    var lastAsk: int
    var stats: Stats
    ghost var withdrawn: nat

    ghost function Repr(): set<object> {
      {this} + store.Repr()
    }

    ghost predicate Valid()
      reads Repr()
    {
      && this !in store.Repr() && store.Valid()
      && store.lo == cfg.minPrice && store.hi == cfg.maxPrice && store.capacity == cfg.maxOrders
    }

    ghost function Abs(): S.State
      reads Repr()
    {
      S.State(cfg, store.List(Buy), store.List(Sell), out, seqNo, arrival, halted, lastBid, lastAsk, stats, withdrawn)
    }

    constructor (cfg: Config, kind: Kind, hash: nat -> nat)
      requires cfg.minPrice <= cfg.maxPrice
      ensures Valid() && fresh(Repr()) && Abs() == S.Initial(cfg)
    {
      hide OrderStore.Store.Valid, OrderStore.Store.List;
      this.cfg := cfg;
      var s := new OrderStore.Store(cfg.minPrice, cfg.maxPrice, cfg.maxOrders, kind, hash);
      store := s;
      out, seqNo, arrival, halted := [], 0, 0, false;
      lastBid, lastAsk := NO_PRICE, NO_PRICE;
      stats := Stats(0, 0, 0, 0, 0, 0, 0, 0);
      withdrawn := 0;
    }

    // --- events ----------------------------------------------------------------------------

    method NewEvent(b: Body)
      modifies this`out, this`seqNo
      ensures seqNo == old(seqNo) + 1 && out == old(out) + [Event(old(seqNo) + 1, b)]
    {
      seqNo := seqNo + 1;
      out := out + [Event(seqNo, b)];
    }

    method EmitReject(cmd: Command, why: RejectReason)
      requires Valid()
      modifies this`out, this`seqNo, this`stats
      ensures Valid() && Abs() == S.EmitReject(old(Abs()), cmd, why)
    {
      hide OrderStore.Store.Valid, OrderStore.Store.List, OrderStore.Store.Flat;
      stats := stats.(rejects := stats.rejects + 1);
      NewEvent(Rejected(cmd.id, cmd.client, cmd.side, cmd.price, cmd.quantity, why));
    }

    // --- matching --------------------------------------------------------------------------

    /** The aggressor `inc` facing the engine's opposite side. */
    ghost function Now(inc: Order): M.Sweep
      reads Repr()
    {
      M.Sweep(inc, store.List(Opposite(inc.side)), out, seqNo, stats.trades, stats.sharesTraded, withdrawn)
    }

    /** `p` is the front of the side that `inc` trades against. */
    ghost predicate Front(inc: Order, p: Ptr)
      reads Repr()
    {
      var s := Opposite(inc.side);
      store.Flat(s) != [] && store.Flat(s)[0] == p
    }

    /** What a matching step leaves alone. */
    twostate predicate Untouched(s: Side)
      reads Repr()
    {
      && store.List(s) == old(store.List(s))
      && store.pool.highWater == old(store.pool.highWater)
      && stats == old(stats).(trades := stats.trades, sharesTraded := stats.sharesTraded)
    }

    /** Self-trade prevention, CancelResting: pull the client's own resting order. */
    method PullOwn(inc: Order, p: Ptr)
      requires Valid() && Front(inc, p)
      modifies this`out, this`seqNo, this`withdrawn, store.Repr()
      ensures old(Now(inc)).opp != [] && Valid() && Now(inc) == M.PullResting(old(Now(inc)))
      ensures store.Flat(Opposite(inc.side)) == old(store.Flat(Opposite(inc.side)))[1..]
      ensures store.List(Opposite(inc.side)) == old(store.List(Opposite(inc.side)))[1..]
      ensures Untouched(inc.side)
    {
      hide OrderStore.Store.Valid, OrderStore.Store.List, OrderStore.Store.Flat;
      var s := Opposite(inc.side);
      store.FrontIs(s);
      var r := store.pool.storage[p].order;
      NewEvent(Canceled(r.id, r.client, r.side, r.price, 0, 0, SelfTradePrevented));
      withdrawn := withdrawn + r.remaining;
      store.DropFront(s, p);
    }

    method PrintExecution(inc: Order, r: Order, n: nat)
      requires n <= inc.remaining && n <= r.remaining
      modifies this`out, this`seqNo
      ensures out == old(out) + M.Legs(inc, r, n, old(seqNo)) && seqNo == old(seqNo) + 3
    {
      NewEvent(Fill(inc.id, r.id, inc.client, inc.side, r.price, n, inc.remaining - n, true));
      NewEvent(Fill(r.id, inc.id, r.client, r.side, r.price, n, r.remaining - n, false));
      NewEvent(Trade(inc.id, r.id, inc.side, r.price, n));
    }

    /** One execution against the front order: two fill legs and a print. */
    method Execute(inc: Order, p: Ptr) returns (left: Order, traded: nat)
      requires Valid() && Front(inc, p)
      modifies this`out, this`seqNo, this`stats, store.Repr()
      ensures old(Now(inc)).opp != [] && Valid() && Now(left) == M.Execute(old(Now(inc)))
      ensures traded <= inc.remaining && left == inc.(remaining := inc.remaining - traded)
      ensures stats.sharesTraded == old(stats.sharesTraded) + traded
      ensures |store.List(Opposite(inc.side))| <= |old(store.List(Opposite(inc.side)))|
      ensures left.remaining == 0 || store.List(Opposite(inc.side)) == old(store.List(Opposite(inc.side)))[1..]
      ensures left.remaining == 0 || store.Flat(Opposite(inc.side)) == old(store.Flat(Opposite(inc.side)))[1..]
      ensures Untouched(inc.side)
    {
      hide OrderStore.Store.Valid, OrderStore.Store.List, OrderStore.Store.Flat, M.Execute, M.Legs;
      var s := Opposite(inc.side);
      store.FrontIs(s);
      M.ExecuteIs(Now(inc));
      var r := store.pool.storage[p].order;
      traded := Min(inc.remaining, r.remaining);
      PrintExecution(inc, r, traded);
      left := inc.(remaining := inc.remaining - traded);
      stats := stats.(trades := stats.trades + 1, sharesTraded := stats.sharesTraded + traded);
      Deplete(s, p, r, traded);
    }

    /** Take `n` lots from the front order `r`, and the order out if nothing is left of it. */
    method Deplete(s: Side, p: Ptr, r: Order, n: nat)
      requires Valid() && store.List(s) != [] && store.RestsAt(s, 0, p, r.id)
      requires r == store.List(s)[0] && n <= r.remaining
      modifies store.Repr()
      ensures Valid() && store.pool.highWater == old(store.pool.highWater)
      ensures store.List(Opposite(s)) == old(store.List(Opposite(s)))
      ensures old(store.List(s)) != [] && old(store.Flat(s)) != []
      ensures if r.remaining == n
              then store.List(s) == old(store.List(s))[1..] && store.Flat(s) == old(store.Flat(s))[1..]
              else store.List(s) == old(store.List(s))[0 := r.(remaining := r.remaining - n)]
    {
      hide OrderStore.Store.Valid, OrderStore.Store.List, OrderStore.Store.Flat;
      if r.remaining == n {
        store.DropFront(s, p);
      } else {
        store.Reduce(s, p, n, 0);
      }
    }

    method StopAggressor(inc: Order) returns (left: Order)
      requires Valid()
      modifies this`out, this`seqNo, this`withdrawn
      ensures Valid() && Now(left) == M.StopAggressor(old(Now(inc))) && left == inc.(remaining := 0)
    {
      hide OrderStore.Store.Valid, OrderStore.Store.List, OrderStore.Store.Flat;
      NewEvent(Canceled(inc.id, inc.client, inc.side, inc.price, 0, 0, SelfTradePrevented));
      withdrawn := withdrawn + inc.remaining;
      left := inc.(remaining := 0);
    }

    /** The aggressor meets the front order `p`: self-trade prevention or an execution. The next
        order to meet, if any at this price, is the one `p` was linked to. */
    method Meet(inc: Order, p: Ptr) returns (left: Order, next: Ptr, traded: nat)
      requires Valid() && Front(inc, p) && !M.Blocked(Now(inc))
      modifies this`out, this`seqNo, this`stats, this`withdrawn, store.Repr()
      ensures Valid() && Now(left) == M.Step(old(Now(inc)), cfg.stp) && left.side == inc.side
      ensures next != NIL && left.remaining > 0 ==> Front(left, next) && !M.Blocked(Now(left))
      ensures Length(left) < old(Length(inc))
      ensures stats.sharesTraded == old(stats.sharesTraded) + traded && Untouched(inc.side)
    {
      hide OrderStore.Store.Valid, OrderStore.Store.List, OrderStore.Store.Flat;
      hide M.Execute, M.PullResting, M.StopAggressor;
      var s := Opposite(inc.side);
      store.NextOfHead(s);
      store.FrontIs(s);
      next := store.pool.storage[p].next;
      traded := 0;
      if !cfg.stp.StpNone? && store.pool.storage[p].order.client == inc.client {
        if cfg.stp.CancelAggressor? {
          left := StopAggressor(inc);
        } else {
          left := inc;
          PullOwn(left, p);
        }
      } else {
        left, traded := Execute(inc, p);
      }
    }

    /** Work left for an aggressor: the orders facing it, and itself while it is open. */
    ghost function Length(inc: Order): nat
      reads Repr()
    {
      |store.List(Opposite(inc.side))| + if inc.remaining > 0 then 1 else 0
    }

    /** The matching loops: best level by best level, oldest order first within a level. */
    method Match(inc: Order) returns (left: Order, filled: nat)
      requires Valid()
      modifies this`out, this`seqNo, this`stats, this`withdrawn, store.Repr()
      ensures Valid() && Now(left) == M.Run(old(Now(inc)), cfg.stp) && left.side == inc.side
      ensures filled == stats.sharesTraded - old(stats.sharesTraded)
      ensures Untouched(inc.side)
    {
      hide OrderStore.Store.Valid, OrderStore.Store.List, OrderStore.Store.Flat, M.Run, M.Step;
      ghost var w := Now(inc);
      left, filled := inc, 0;
      while left.remaining > 0
        invariant Valid() && left.side == inc.side && M.Run(Now(left), cfg.stp) == M.Run(w, cfg.stp)
        invariant Untouched(inc.side) && filled == stats.sharesTraded - old(stats.sharesTraded)
        decreases Length(left)
      {
        var best := store.Best(Opposite(inc.side));
        if best.None? || (!left.typ.Market? && !Crosses(left.side, left.price, best.value.price)) {
          break;
        }
        store.FrontIs(Opposite(inc.side));
        var resting := best.value.head;
        ghost var start, entered := Length(left), false;
        while resting != NIL && left.remaining > 0
          invariant Valid() && left.side == inc.side && M.Run(Now(left), cfg.stp) == M.Run(w, cfg.stp)
          invariant Untouched(inc.side) && filled == stats.sharesTraded - old(stats.sharesTraded)
          invariant resting != NIL && left.remaining > 0 ==> Front(left, resting) && !M.Blocked(Now(left))
          invariant if entered then Length(left) < start
                    else Length(left) == start && resting != NIL && left.remaining > 0
          decreases Length(left)
        {
          entered := true;
          M.RunStep(Now(left), cfg.stp);
          var traded;
          left, resting, traded := Meet(left, resting);
          filled := filled + traded;
        }
      }
      M.RunStep(Now(left), cfg.stp);
    }

    // --- commands --------------------------------------------------------------------------

    /** The checks made before a new order is acknowledged, in the engine's order. */
    method Refuse(cmd: Command) returns (why: RejectReason)
      requires Valid()
      ensures why == S.Refusal(Abs(), cmd)
    {
      hide OrderStore.Store.Valid, OrderStore.Store.List, OrderStore.Store.Flat, HasId, Marketable, TopQty, Crosses;
      if cmd.quantity == 0 {
        return ZeroQuantity;
      }
      if !S.IsMarket(cmd) && !S.InBand(cfg, cmd.price) {
        return PriceOutOfBand;
      }
      var p, _, _ := store.Find(cmd.id);
      if p != NIL {
        return DuplicateOrderId;
      }
      if cmd.typ.PostOnly? {
        var opp := store.Best(Opposite(cmd.side));
        if opp.Some? && Crosses(cmd.side, S.LimitOf(cmd), opp.value.price) {
          return PostOnlyWouldCross;
        }
      }
      if cmd.typ.Fok? {
        var reach := store.MarketableQty(cmd.side, S.LimitOf(cmd));
        if reach < cmd.quantity {
          return FokUnfillable;
        }
      }
      return NoReason;
    }

    /** The unfilled remainder is cancelled or comes to rest. */
    method Settle(inc: Order)
      requires Valid()
      requires inc.remaining > 0 && S.MayRest(inc.typ) ==>
                 && inc.id != 0 && !S.Known(Abs(), inc.id)
                 && S.InBand(cfg, inc.price) && inc.price != NO_PRICE
      modifies this`out, this`seqNo, this`withdrawn, store.Repr()
      ensures Valid() && Abs() == S.Settle(old(Abs()), inc)
      ensures store.pool.highWater == old(store.pool.highWater)
    {
      hide OrderStore.Store.Valid, OrderStore.Store.List, OrderStore.Store.Flat, HasId, Insert;
      if inc.remaining == 0 {
        return;
      }
      if !S.MayRest(inc.typ) {
        NewEvent(Canceled(inc.id, inc.client, inc.side, inc.price, inc.remaining, 0, NoReason));
        withdrawn := withdrawn + inc.remaining;
        return;
      }
      var ok := store.Rest(inc);
      if !ok {
        NewEvent(Canceled(inc.id, inc.client, inc.side, inc.price, inc.remaining, 0, PoolExhausted));
        withdrawn := withdrawn + inc.remaining;
      }
    }

    method HandleNew(cmd: Command)
      requires Valid() && S.Inv(Abs()) && ValidCommand(cmd.(kind := New))
      modifies this`out, this`seqNo, this`arrival, this`stats, this`withdrawn, store.Repr()
      ensures Valid() && Abs() == S.HandleNew(old(Abs()), cmd)
      ensures store.pool.highWater == old(store.pool.highWater)
    {
      hide OrderStore.Store.Valid, OrderStore.Store.List, OrderStore.Store.Flat, S.Refusal, S.Inv, S.Settle, M.Run;
      hide M.Blocked, S.Known, S.Opening, S.AfterSweep;
      ghost var st := Abs();
      var why := Refuse(cmd);
      if why != NoReason {
        EmitReject(cmd, why);
        return;
      }
      var left := Admit(cmd);
      S.RemainderMayRest(st, cmd);
      Settle(left);
    }

    /** Acknowledge a new order and match it. */
    method Admit(cmd: Command) returns (left: Order)
      requires Valid()
      modifies this`out, this`seqNo, this`arrival, this`stats, this`withdrawn, store.Repr()
      ensures Valid() && var z := M.Run(S.Opening(old(Abs()), cmd), cfg.stp);
              left == z.inc && Abs() == S.AfterSweep(old(Abs()), z)
      ensures store.pool.highWater == old(store.pool.highWater)
    {
      hide OrderStore.Store.Valid, OrderStore.Store.List, OrderStore.Store.Flat, M.Run;
      ghost var st := Abs();
      var limit := S.LimitOf(cmd);
      arrival := arrival + 1;
      var incoming := Order(cmd.id, cmd.client, limit, cmd.quantity, cmd.quantity, arrival, cmd.side, cmd.typ);
      NewEvent(Accepted(cmd.id, cmd.client, cmd.side, limit, cmd.quantity, cmd.quantity));
      assert Now(incoming) == S.Opening(st, cmd);
      var filled;
      left, filled := Match(incoming);
    }

    /** The id's entry found by the index is the one the abstract state looks up. */
    lemma Located(id: nat, s: Side, i: nat)
      requires Valid() && i < |store.List(s)| && store.List(s)[i].id == id
      ensures S.Known(Abs(), id) && S.SideOf(Abs(), id) == s && PosOf(store.List(s), id) == i
      ensures S.Lookup(Abs(), id) == store.List(s)[i]
    {
      hide OrderStore.Store.Valid, OrderStore.Store.List;
      assert HasId(store.List(s), id);
      store.UniqueId(s, i, s, PosOf(store.List(s), id));
      if s.Sell? && HasId(store.List(Buy), id) {
        store.UniqueId(s, i, Buy, PosOf(store.List(Buy), id));
      }
    }

    /** The resting order with this id, as the index finds it, or a null pointer. */
    method Locate(id: nat) returns (p: Ptr, ghost s: Side, ghost i: nat)
      requires Valid()
      ensures p == NIL <==> !S.Known(Abs(), id)
      ensures p != NIL ==> && store.RestsAt(s, i, p, id) && InStore(store.pool.storage, p)
                           && S.Lookup(Abs(), id) == store.pool.storage[p].order
    {
      hide OrderStore.Store.Valid, OrderStore.Store.List, OrderStore.Store.Flat, S.Lookup;
      p, s, i := store.Find(id);
      if p != NIL {
        Located(id, s, i);
      }
    }

    method HandleCancel(cmd: Command)
      requires Valid()
      modifies this`out, this`seqNo, this`stats, this`withdrawn, store.Repr()
      ensures Valid() && Abs() == S.HandleCancel(old(Abs()), cmd)
      ensures store.pool.highWater == old(store.pool.highWater)
    {
      hide OrderStore.Store.Valid, OrderStore.Store.List, OrderStore.Store.Flat, HasId, RemoveAt;
      hide S.Known, S.Lookup, S.SideOf, S.Without, PosOf, OrderStore.Store.RestsAt;
      var p, s, i := Locate(cmd.id);
      if p == NIL {
        EmitReject(cmd, UnknownOrder);
        return;
      }
      var o := store.pool.storage[p].order;
      NewEvent(Canceled(o.id, o.client, o.side, o.price, o.remaining, 0, NoReason));
      Withdraw(cmd.id, p, s, i);
    }

    /** Take the resting order `id`, found at `p`, out of the book. */
    method Withdraw(id: nat, p: Ptr, ghost s: Side, ghost i: nat)
      requires Valid() && store.RestsAt(s, i, p, id)
      modifies this`withdrawn, store.Repr()
      ensures S.Known(old(Abs()), id) && Valid()
      ensures Abs() == S.Without(old(Abs()), id)
                        .(withdrawn := old(withdrawn) + old(store.pool.storage)[p].order.remaining)
      ensures store.pool.highWater == old(store.pool.highWater)
    {
      hide OrderStore.Store.Valid, OrderStore.Store.List, OrderStore.Store.Flat, HasId, RemoveAt, PosOf;
      Located(id, s, i);
      var o := store.pool.storage[p].order;
      withdrawn := withdrawn + o.remaining;
      store.DropAt(o.side, p, i);
    }

    method HandleModify(cmd: Command)
      requires Valid() && S.Inv(Abs())
      modifies this`out, this`seqNo, this`arrival, this`stats, this`withdrawn, store.Repr()
      ensures Valid() && Abs() == S.HandleModify(old(Abs()), cmd)
      ensures store.pool.highWater == old(store.pool.highWater)
    {
      hide OrderStore.Store.Valid, OrderStore.Store.List, OrderStore.Store.Flat, HasId, RemoveAt;
      hide S.Inv, S.HandleNew, S.HandleCancel, S.SizeDown, S.Without, S.Known, S.Lookup, S.SideOf, PosOf;
      ghost var st := Abs();
      var p, s, i := Locate(cmd.id);
      if p == NIL {
        EmitReject(cmd, UnknownOrder);
        return;
      }
      if cmd.quantity == 0 {
        HandleCancel(MakeCancel(cmd.id, cmd.client));
        return;
      }
      var o := store.pool.storage[p].order;
      var price := if cmd.price == NO_PRICE then o.price else cmd.price;
      if price == o.price && cmd.quantity < o.remaining {
        ShrinkInPlace(cmd, p, s, i);
        return;
      }
      Withdraw(cmd.id, p, s, i);
      S.ReplacementIsValid(st, cmd);
      HandleNew(MakeNew(cmd.id, o.client, o.side, o.typ, price, cmd.quantity));
    }

    /** The size-down at an unchanged price: the order keeps its place in the queue. */
    method ShrinkInPlace(cmd: Command, p: Ptr, ghost s: Side, ghost i: nat)
      requires Valid() && store.RestsAt(s, i, p, cmd.id) && S.Known(Abs(), cmd.id)
      requires S.IsSizeDown(S.Lookup(Abs(), cmd.id), cmd)
      modifies this`out, this`seqNo, this`withdrawn, store.Repr()
      ensures Valid() && Abs() == S.SizeDown(old(Abs()), cmd)
      ensures store.pool.highWater == old(store.pool.highWater)
    {
      hide OrderStore.Store.Valid, OrderStore.Store.List, OrderStore.Store.Flat, HasId;
      Located(cmd.id, s, i);
      var o := store.pool.storage[p].order;
      store.SizeDown(o.side, p, cmd.quantity, i);
      withdrawn := withdrawn + (o.remaining - cmd.quantity);
      var n := store.pool.storage[p].order;
      NewEvent(Replaced(n.id, n.client, n.side, n.price, cmd.quantity, n.remaining));
    }

    /** Report the top of the book if either best price moved. */
    method EmitBookChanged()
      requires Valid()
      modifies this`out, this`seqNo, this`lastBid, this`lastAsk
      ensures Valid() && Abs() == S.NotifyTop(old(Abs()))
    {
      hide OrderStore.Store.Valid, OrderStore.Store.List, OrderStore.Store.Flat;
      hide TopQty, BestPrice;
      var bid, bidQty := Top(Buy);
      var ask, askQty := Top(Sell);
      if bid == lastBid && ask == lastAsk {
        return;
      }
      lastBid, lastAsk := bid, ask;
      NewEvent(BookChanged(bid, bidQty, ask, askQty));
    }

    /** Price and size of the best level, or nothing. */
    method Top(s: Side) returns (price: int, qty: nat)
      requires Valid()
      ensures price == BestPrice(S.Orders(Abs(), s)) && qty == TopQty(S.Orders(Abs(), s))
    {
      hide OrderStore.Store.Valid, OrderStore.Store.List, OrderStore.Store.Flat, TopQty, BestPrice;
      var b := store.Best(s);
      price := if b.None? then NO_PRICE else b.value.price;
      qty := if b.None? then 0 else b.value.totalQty;
    }

    /** The halt check and the dispatch on the command's kind. */
    method Dispatch(cmd: Command)
      requires Valid() && S.Inv(Abs()) && ValidCommand(cmd)
      modifies this`out, this`seqNo, this`arrival, this`stats, this`withdrawn, store.Repr()
      ensures Valid() && Abs() == S.Handle(old(Abs()), cmd)
      ensures store.pool.highWater == old(store.pool.highWater)
    {
      hide OrderStore.Store.Valid, OrderStore.Store.List, S.Inv, S.HandleNew, S.HandleCancel, S.HandleModify;
      match cmd.kind {
        case New =>
          if halted {
            EmitReject(cmd, BookHalted);
          } else {
            HandleNew(cmd);
          }
        case Cancel => HandleCancel(cmd);
        case Modify => HandleModify(cmd);
      }
    }

    method Begin(kind: CommandKind)
      requires Valid()
      modifies this`out, this`stats
      ensures Valid() && Abs() == S.Begin(old(Abs()), kind)
    {
      hide OrderStore.Store.Valid, OrderStore.Store.List;
      out := [];
      var t := stats.(commands := stats.commands + 1);
      match kind {
        case New => stats := t.(newOrders := t.newOrders + 1);
        case Cancel => stats := t.(cancelOrders := t.cancelOrders + 1);
        case Modify => stats := t.(modifyOrders := t.modifyOrders + 1);
      }
    }

    /** Top-of-book report and peak counters. */
    method Finish()
      requires Valid()
      modifies this`out, this`seqNo, this`lastBid, this`lastAsk, this`stats, store.pool`highWater
      ensures Valid() && Abs() == S.Finish(old(Abs()))
      ensures store.pool.inUse == old(store.pool.inUse)
      ensures var high := old(store.pool.highWater);
              store.pool.highWater == if store.pool.inUse > high then store.pool.inUse else high
    {
      hide OrderStore.Store.Valid, OrderStore.Store.List, S.NotifyTop;
      if cfg.emitBookChanged {
        EmitBookChanged();
      }
      store.TickHighWater();
      var resting := store.Size();
      stats := stats.(peakResting := if stats.peakResting >= resting then stats.peakResting else resting);
    }

    /** One command, start to finish: the abstract state steps exactly as specified. */
    method Process(cmd: Command) returns (events: seq<Event>)
      requires Valid() && S.Inv(Abs()) && ValidCommand(cmd)
      modifies Repr()
      ensures Valid() && Abs() == S.Process(old(Abs()), cmd) && S.Inv(Abs())
      ensures events == Abs().out
      ensures var high := old(store.pool.highWater);
              store.pool.highWater == if store.pool.inUse > high then store.pool.inUse else high
    {
      hide OrderStore.Store.Valid, OrderStore.Store.List, S.Inv, S.Handle, S.Begin, S.Finish;
      S.ProcessKeepsInv(Abs(), cmd);
      S.BeginKeepsInv(Abs(), cmd.kind);
      Begin(cmd.kind);
      Dispatch(cmd);
      Finish();
      events := out;
    }

    /** Sized once up front, the order index doubles over a run if and only if the pool holds exactly
        three times a power of two orders, from 12 up, and all its cells have once been in use. */
    lemma IndexRehashesExactlyWhen()
      requires Valid()
      ensures var c := F.InitialCapacity(cfg.maxOrders, 16);
              |store.index.slots| == if F.Awkward(cfg.maxOrders) && store.pool.peak == cfg.maxOrders then 2 * c else c
      ensures cfg.maxOrders == 1_000_000 ==> |store.index.slots| == F.InitialCapacity(cfg.maxOrders, 16)
    {
      hide OrderStore.Store.Valid, F.InitialCapacity;
      store.SlotsOf();
    }

    method SetHalted(on: bool)
      requires Valid()
      modifies this`halted, this`out
      ensures Valid() && Abs() == old(Abs()).(halted := on, out := [])
    {
      hide OrderStore.Store.Valid, OrderStore.Store.List;
      halted := on;
      out := [];
    }

    /** Aggregated depth of one side. */
    method Snapshot(s: Side, levels: nat) returns (depth: seq<DepthEntry>)
      requires Valid()
      ensures depth == Depth(S.Orders(Abs(), s), levels)
    {
      depth := store.Snapshot(s, levels);
    }
  }
}

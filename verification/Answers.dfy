/** What each command is answered with and what it does to the book, in terms of the command's own
    fields and of the orders at rest. */
module Answers {
  import opened Types
  import opened PriceTime
  import opened EngineSpec
  import opened Conservation
  import P = Policies
  import M = Matching

  /** The events say exactly this, up to a closing report of the top of the book. */
  ghost predicate Says(out: seq<Event>, said: seq<Body>) {
    && |said| <= |out| <= |said| + 1
    && (forall i :: 0 <= i < |said| ==> out[i].body == said[i])
    && (|out| > |said| ==> out[|said|].body.BookChanged?)
  }

  ghost predicate SameSides(a: State, b: State) {
    a.bids == b.bids && a.asks == b.asks
  }

  lemma FinishAdds(h: State)
    ensures SameSides(Finish(h), h) && Finish(h).arrival == h.arrival && Finish(h).halted == h.halted
    ensures Finish(h).cfg == h.cfg && Finish(h).withdrawn == h.withdrawn
    ensures h.out <= Finish(h).out && |Finish(h).out| <= |h.out| + 1
    ensures |Finish(h).out| > |h.out| ==> Finish(h).out[|h.out|].body.BookChanged?
  {
    hide TopQty, BestPrice;
  }

  /** A command handled as `h` from its cleared start is answered with what `h` says. */
  lemma Finished(st: State, cmd: Command, h: State)
    requires h == Handle(Begin(st, cmd.kind), cmd)
    ensures var z := Process(st, cmd);
            && SameSides(z, h) && z.arrival == h.arrival && z.halted == h.halted
            && h.out <= z.out && |z.out| <= |h.out| + 1 && (|z.out| > |h.out| ==> z.out[|h.out|].body.BookChanged?)
  {
    hide Handle;
    FinishAdds(h);
  }

  // --- finding an order ---------------------------------------------------------------------------

  /** The order at position `i` of side `s` is the one a command with its id is about. */
  lemma Found(st: State, s: Side, i: nat)
    requires Inv(st) && i < |Orders(st, s)|
    ensures var o := Orders(st, s)[i];
            && Known(st, o.id) && SideOf(st, o.id) == s && PosOf(Orders(st, s), o.id) == i
            && Lookup(st, o.id) == o && o.side == s && !HasId(Orders(st, Opposite(s)), o.id)
  {
    InvFromSide(st, s);
    PosOfAt(Orders(st, s), i);
    assert !HasId(Orders(st, Opposite(s)), Orders(st, s)[i].id);
  }

  /** No order at rest has this id. */
  ghost predicate Fresh(st: State, id: nat) {
    && (forall i :: 0 <= i < |st.bids| ==> st.bids[i].id != id)
    && (forall i :: 0 <= i < |st.asks| ==> st.asks[i].id != id)
  }

  // --- cancelling ------------------------------------------------------------------------------------

  /** Cancelling the order at position `i` of side `s`, as one step. */
  lemma CancelAt(st: State, cmd: Command, s: Side, i: nat)
    requires Inv(st) && i < |Orders(st, s)| && Orders(st, s)[i].id == cmd.id
    ensures var z, q := HandleCancel(st, cmd), Orders(st, s);
            && Orders(z, s) == q[..i] + q[i + 1..] && Orders(z, Opposite(s)) == Orders(st, Opposite(s))
            && z.out == st.out + [Event(st.seqNo + 1,
                                        Canceled(cmd.id, q[i].client, s, q[i].price, q[i].remaining, 0, NoReason))]
            && z.arrival == st.arrival && z.halted == st.halted
  {
    Found(st, s, i);
    hide Inv, Known, SideOf, Lookup, PosOf;
  }

  /** A cancel takes exactly its order out, halted or not, and reports it with its own fields. */
  lemma CancelRemoves(st: State, cmd: Command, s: Side, i: nat)
    requires Inv(st) && cmd.kind.Cancel? && i < |Orders(st, s)| && Orders(st, s)[i].id == cmd.id
    ensures var z, q := Process(st, cmd), Orders(st, s);
            && Orders(z, s) == q[..i] + q[i + 1..] && Orders(z, Opposite(s)) == Orders(st, Opposite(s))
            && Says(z.out, [Canceled(cmd.id, q[i].client, s, q[i].price, q[i].remaining, 0, NoReason)])
            && z.arrival == st.arrival && z.halted == st.halted
  {
    var b := Begin(st, cmd.kind);
    BeginKeepsInv(st, cmd.kind);
    CancelAt(b, cmd, s, i);
    hide HandleCancel, Finish, Inv;
    Finished(st, cmd, Handle(b, cmd));
  }

  /** An amendment to nothing is a cancel. */
  lemma AmendToNothing(st: State, cmd: Command, s: Side, i: nat)
    requires Inv(st) && cmd.kind.Modify? && i < |Orders(st, s)| && Orders(st, s)[i].id == cmd.id
    requires cmd.quantity == 0
    ensures var z, q := Process(st, cmd), Orders(st, s);
            && Orders(z, s) == q[..i] + q[i + 1..] && Orders(z, Opposite(s)) == Orders(st, Opposite(s))
            && Says(z.out, [Canceled(cmd.id, q[i].client, s, q[i].price, q[i].remaining, 0, NoReason)])
            && z.arrival == st.arrival && z.halted == st.halted
  {
    var b := Begin(st, cmd.kind);
    BeginKeepsInv(st, cmd.kind);
    CancelAt(b, MakeCancel(cmd.id, cmd.client), s, i);
    Found(b, s, i);
    hide HandleCancel, Finish, Inv, Known;
    Finished(st, cmd, Handle(b, cmd));
  }

  /** A cancel or amendment of an id that rests nowhere changes nothing. */
  lemma UnknownIsRejected(st: State, cmd: Command)
    requires !cmd.kind.New? && Fresh(st, cmd.id)
    ensures var z := Process(st, cmd);
            && SameSides(z, st) && z.arrival == st.arrival && z.halted == st.halted
            && Says(z.out, [Rejected(cmd.id, cmd.client, cmd.side, cmd.price, cmd.quantity, UnknownOrder)])
  {
    var b := Begin(st, cmd.kind);
    assert !Known(b, cmd.id);
    Finished(st, cmd, Handle(b, cmd));
    hide Finish, Known;
  }

  // --- the halt flag ----------------------------------------------------------------------------------

  /** A halted book takes no new orders: one rejection, and nothing moves. */
  lemma HaltedRefusesNew(st: State, cmd: Command)
    requires cmd.kind.New? && st.halted
    ensures var z := Process(st, cmd);
            && SameSides(z, st) && z.arrival == st.arrival && z.halted
            && Says(z.out, [Rejected(cmd.id, cmd.client, cmd.side, cmd.price, cmd.quantity, BookHalted)])
  {
    Finished(st, cmd, Handle(Begin(st, cmd.kind), cmd));
    hide Finish;
  }

  lemma SettleIgnoresHalt(st: State, inc: Order, on: bool)
    ensures Settle(st.(halted := on), inc) == Settle(st, inc).(halted := on)
  {
  }

  lemma NewIgnoresHalt(st: State, cmd: Command, on: bool)
    ensures HandleNew(st.(halted := on), cmd) == HandleNew(st, cmd).(halted := on)
  {
    var h := st.(halted := on);
    hide M.Run, Marketable, HasId, Settle;
    assert Refusal(h, cmd) == Refusal(st, cmd) && Opening(h, cmd) == Opening(st, cmd);
    hide Refusal, Opening;
    if Refusal(st, cmd) == NoReason {
      var z := M.Run(Opening(st, cmd), st.cfg.stp);
      assert AfterSweep(h, z) == AfterSweep(st, z).(halted := on);
      hide AfterSweep;
      SettleIgnoresHalt(AfterSweep(st, z), z.inc, on);
    }
  }

  lemma CancelIgnoresHalt(st: State, cmd: Command, on: bool)
    ensures HandleCancel(st.(halted := on), cmd) == HandleCancel(st, cmd).(halted := on)
  {
    hide HasId, PosOf, RemoveAt;
  }

  lemma SizeDownIgnoresHalt(st: State, cmd: Command, on: bool)
    requires Known(st, cmd.id) && IsSizeDown(Lookup(st, cmd.id), cmd)
    ensures SizeDown(st.(halted := on), cmd) == SizeDown(st, cmd).(halted := on)
  {
    hide HasId, PosOf;
  }

  lemma ModifyIgnoresHalt(st: State, cmd: Command, on: bool)
    ensures HandleModify(st.(halted := on), cmd) == HandleModify(st, cmd).(halted := on)
  {
    var h := st.(halted := on);
    CancelIgnoresHalt(st, MakeCancel(cmd.id, cmd.client), on);
    hide HasId, PosOf, RemoveAt, HandleNew, HandleCancel, SizeDown;
    if Known(st, cmd.id) && cmd.quantity > 0 {
      var o := Lookup(st, cmd.id);
      if IsSizeDown(o, cmd) {
        SizeDownIgnoresHalt(st, cmd, on);
      } else {
        NewIgnoresHalt(Without(st, cmd.id).(withdrawn := st.withdrawn + o.remaining), Replacement(o, cmd), on);
      }
    }
  }

  lemma FinishIgnoresHalt(h: State, on: bool)
    ensures Finish(h.(halted := on)) == Finish(h).(halted := on)
  {
    hide TopQty, BestPrice;
  }

  /** Cancels and amendments do not look at the halt flag: whatever it says, they do the same. */
  lemma HaltStopsOnlyNew(st: State, cmd: Command, on: bool)
    requires !cmd.kind.New?
    ensures Process(st.(halted := on), cmd) == Process(st, cmd).(halted := on)
  {
    var b := Begin(st, cmd.kind);
    CancelIgnoresHalt(b, cmd, on);
    ModifyIgnoresHalt(b, cmd, on);
    hide HandleCancel, HandleModify, Finish;
    FinishIgnoresHalt(Handle(b, cmd), on);
  }

  /** Only the owner of the book sets the flag: no command changes it. */
  lemma CommandsKeepHalt(st: State, cmd: Command)
    ensures Process(st, cmd).halted == st.halted
  {
    var b := Begin(st, cmd.kind);
    assert b.(halted := b.halted) == b;
    NewIgnoresHalt(b, cmd, b.halted);
    CancelIgnoresHalt(b, cmd, b.halted);
    ModifyIgnoresHalt(b, cmd, b.halted);
    hide HandleNew, HandleCancel, HandleModify;
    Finished(st, cmd, Handle(b, cmd));
  }

  /** What the flag was last set to. */
  function LastSet(ins: seq<Input>): bool {
    if ins == [] then false
    else
      var i := ins[|ins| - 1];
      if i.SetHalted? then i.on else LastSet(ins[..|ins| - 1])
  }

  /** Over any run the book is halted exactly when it was last told to be. */
  lemma {:induction false} HaltedAsSet(cfg: Config, ins: seq<Input>)
    ensures Drive(Initial(cfg), ins).halted == LastSet(ins)
  {
    if ins != [] {
      var prev, i := ins[..|ins| - 1], ins[|ins| - 1];
      HaltedAsSet(cfg, prev);
      if i.Submit? { CommandsKeepHalt(Drive(Initial(cfg), prev), i.cmd); }
      hide Process;
    }
  }

  // --- amending ------------------------------------------------------------------------------------------

  /** An amendment that names the order's own price, or none, and a smaller size keeps its place: the
      order stays where it is with its new open size, and one event says so. */
  lemma AmendInPlace(st: State, cmd: Command, s: Side, i: nat)
    requires Inv(st) && cmd.kind.Modify? && i < |Orders(st, s)| && Orders(st, s)[i].id == cmd.id
    requires (cmd.price == NO_PRICE || cmd.price == Orders(st, s)[i].price)
    requires 0 < cmd.quantity < Orders(st, s)[i].remaining
    ensures var z, q := Process(st, cmd), Orders(st, s);
            && Orders(z, s) == q[i := q[i].(remaining := cmd.quantity)]
            && Orders(z, Opposite(s)) == Orders(st, Opposite(s))
            && Says(z.out, [Replaced(cmd.id, q[i].client, s, q[i].price, cmd.quantity, cmd.quantity)])
            && z.arrival == st.arrival
  {
    var b := Begin(st, cmd.kind);
    BeginKeepsInv(st, cmd.kind);
    Found(b, s, i);
    Finished(st, cmd, Handle(b, cmd));
    hide Finish, Inv, Known, SideOf, Lookup, PosOf;
  }

  /** Without the order at position `i` of side `s`; its open size counts as withdrawn. */
  function Less(st: State, s: Side, i: nat): State
    requires i < |Orders(st, s)|
  {
    var q := Orders(st, s);
    WithOrders(st, s, q[..i] + q[i + 1..]).(withdrawn := st.withdrawn + q[i].remaining)
  }

  /** Any other amendment gives up the order's place: the order goes, and a new one with its id,
      client, side and type comes in at the new price (its own if none is named) and size. */
  lemma AmendIsNew(st: State, cmd: Command, s: Side, i: nat)
    requires Inv(st) && cmd.kind.Modify? && i < |Orders(st, s)| && Orders(st, s)[i].id == cmd.id
    requires cmd.quantity > 0
    requires var o := Orders(st, s)[i];
             !(cmd.price == NO_PRICE || cmd.price == o.price) || cmd.quantity >= o.remaining
    ensures var o, b := Orders(st, s)[i], Begin(st, cmd.kind);
            var price := if cmd.price == NO_PRICE then o.price else cmd.price;
            Handle(b, cmd) == HandleNew(Less(b, s, i), MakeNew(o.id, o.client, s, o.typ, price, cmd.quantity))
  {
    var b := Begin(st, cmd.kind);
    BeginKeepsInv(st, cmd.kind);
    ReplayAt(b, cmd, s, i);
    hide HandleNew, HandleModify, Less;
  }

  lemma ReplayAt(st: State, cmd: Command, s: Side, i: nat)
    requires Inv(st) && i < |Orders(st, s)| && Orders(st, s)[i].id == cmd.id && cmd.quantity > 0
    requires var o := Orders(st, s)[i];
             !(cmd.price == NO_PRICE || cmd.price == o.price) || cmd.quantity >= o.remaining
    ensures var o := Orders(st, s)[i];
            var price := if cmd.price == NO_PRICE then o.price else cmd.price;
            HandleModify(st, cmd) == HandleNew(Less(st, s, i), MakeNew(o.id, o.client, s, o.typ, price, cmd.quantity))
  {
    Found(st, s, i);
    LessIsWithout(st, s, i);
    ReplayIs(st, cmd, Orders(st, s)[i], Less(st, s, i));
  }

  lemma ReplayIs(st: State, cmd: Command, o: Order, gone: State)
    requires Known(st, cmd.id) && Lookup(st, cmd.id) == o && cmd.quantity > 0
    requires gone == Without(st, cmd.id).(withdrawn := st.withdrawn + o.remaining)
    requires !(cmd.price == NO_PRICE || cmd.price == o.price) || cmd.quantity >= o.remaining
    ensures var price := if cmd.price == NO_PRICE then o.price else cmd.price;
            HandleModify(st, cmd) == HandleNew(gone, MakeNew(o.id, o.client, o.side, o.typ, price, cmd.quantity))
  {
    hide HandleNew, HandleCancel, SizeDown, Known, Lookup, Without;
  }

  lemma LessIsWithout(st: State, s: Side, i: nat)
    requires Inv(st) && i < |Orders(st, s)|
    ensures var o := Orders(st, s)[i];
            && Known(st, o.id) && Less(st, s, i) == Without(st, o.id).(withdrawn := st.withdrawn + o.remaining)
            && Inv(Less(st, s, i)) && Fresh(Less(st, s, i), o.id)
  {
    var o := Orders(st, s)[i];
    Found(st, s, i);
    WithoutKeepsInv(st, o.id);
    hide Inv, SideOf, Lookup, PosOf;
    FreshIffUnknown(Without(st, o.id), o.id);
  }

  lemma FreshIffUnknown(st: State, id: nat)
    ensures Fresh(st, id) <==> !Known(st, id)
  {
  }

  /** No order at rest has this id and arrival number. */
  ghost predicate Gone(st: State, id: nat, seqNo: nat) {
    && (forall i :: 0 <= i < |st.bids| ==> st.bids[i].id != id || st.bids[i].seqNo != seqNo)
    && (forall i :: 0 <= i < |st.asks| ==> st.asks[i].id != id || st.asks[i].seqNo != seqNo)
  }

  /** ... so the order as it stood, with its arrival number, is gone. */
  lemma AmendLosesPlace(st: State, cmd: Command, s: Side, i: nat)
    requires Inv(st) && cmd.kind.Modify? && i < |Orders(st, s)| && Orders(st, s)[i].id == cmd.id
    requires cmd.quantity > 0
    requires var o := Orders(st, s)[i];
             !(cmd.price == NO_PRICE || cmd.price == o.price) || cmd.quantity >= o.remaining
    ensures Gone(Process(st, cmd), cmd.id, Orders(st, s)[i].seqNo)
  {
    var b, o := Begin(st, cmd.kind), Orders(st, s)[i];
    BeginKeepsInv(st, cmd.kind);
    LessIsWithout(b, s, i);
    AmendIsNew(st, cmd, s, i);
    var price := if cmd.price == NO_PRICE then o.price else cmd.price;
    var less, c := Less(b, s, i), MakeNew(o.id, o.client, s, o.typ, price, cmd.quantity);
    P.NewFollows(less, c);
    Finished(st, cmd, Handle(b, cmd));
    assert o.seqNo <= less.arrival by { InvFromSide(st, s); }
    hide Handle, HandleNew, Inv, Less, P.Follows, Gone, Fresh;
    StaysGone(less, HandleNew(less, c), cmd.id, o.seqNo);
    GoneFromSides(HandleNew(less, c), Process(st, cmd), cmd.id, o.seqNo);
  }

  lemma StaysGone(st: State, z: State, id: nat, seqNo: nat)
    requires P.Follows(st, z, st.arrival) && Fresh(st, id) && seqNo <= st.arrival
    ensures Gone(z, id, seqNo)
  {
  }

  lemma GoneFromSides(h: State, z: State, id: nat, seqNo: nat)
    requires Gone(h, id, seqNo) && SameSides(z, h)
    ensures Gone(z, id, seqNo)
  {
  }

  // --- accepting a new order ---------------------------------------------------------------------------------

  /** An order that takes on `taker` with this limit may trade at `price`. */
  predicate Within(taker: Side, limit: int, price: int) {
    limit == NO_PRICE || if taker.Buy? then price <= limit else limit <= price
  }

  /** The open size of all orders in `q` that such an order may trade with. */
  function Offered(taker: Side, limit: int, q: seq<Order>): nat {
    if q == [] then 0
    else (if Within(taker, limit, q[0].price) then q[0].remaining else 0) + Offered(taker, limit, q[1..])
  }

  lemma {:induction false} NothingOffered(taker: Side, limit: int, q: seq<Order>)
    requires forall i :: 0 <= i < |q| ==> !Within(taker, limit, q[i].price)
    ensures Offered(taker, limit, q) == 0
  {
    if q != [] { NothingOffered(taker, limit, q[1..]); }
  }

  /** Summing a sorted side up to the first order out of reach misses nothing. */
  lemma {:induction false} MarketableIsOffered(taker: Side, limit: int, q: seq<Order>)
    requires Sorted(Opposite(taker), q)
    ensures Marketable(taker, limit, q) == Offered(taker, limit, q)
  {
    if q == [] {
    } else if Within(taker, limit, q[0].price) {
      MarketableIsOffered(taker, limit, q[1..]);
      var n := Reach(taker, limit, q[1..]);
      assert q[..n + 1][1..] == q[1..][..n];
    } else {
      forall i | 0 <= i < |q| ensures !Within(taker, limit, q[i].price) {
        if i > 0 { assert Ahead(Opposite(taker), q[0], q[i]); }
      }
      NothingOffered(taker, limit, q);
    }
  }

  /** The limit of a new order: none if it is a market order or names no price. */
  function LimitFrom(cmd: Command): int {
    if cmd.typ.Market? then NO_PRICE else cmd.price
  }

  /** A size, a price inside the band if there is a limit, and an id that no resting order has. */
  ghost predicate WellFormed(st: State, cmd: Command) {
    && cmd.quantity > 0
    && (LimitFrom(cmd) != NO_PRICE ==> st.cfg.minPrice <= cmd.price <= st.cfg.maxPrice)
    && Fresh(st, cmd.id)
  }

  ghost predicate AnyWithin(taker: Side, limit: int, q: seq<Order>) {
    exists i :: 0 <= i < |q| && Within(taker, limit, q[i].price)
  }

  /** Some resting order is within the new order's reach. */
  ghost predicate Reaches(st: State, cmd: Command) {
    AnyWithin(cmd.side, LimitFrom(cmd), Orders(st, Opposite(cmd.side)))
  }

  /** Everything within the new order's reach, its client's own orders included. */
  function Supply(st: State, cmd: Command): nat {
    Offered(cmd.side, LimitFrom(cmd), Orders(st, Opposite(cmd.side)))
  }

  /** The conditions under which a book that is not halted takes a new order. */
  ghost predicate Acceptable(st: State, cmd: Command) {
    && WellFormed(st, cmd)
    && (cmd.typ.PostOnly? ==> !Reaches(st, cmd))
    && (cmd.typ.Fok? ==> cmd.quantity <= Supply(st, cmd))
  }

  lemma ReachesFront(st: State, cmd: Command)
    requires Inv(st)
    ensures var opp := Orders(st, Opposite(cmd.side));
            Reaches(st, cmd) <==> opp != [] && Crosses(cmd.side, LimitOf(cmd), opp[0].price)
  {
    InvFromSide(st, cmd.side);
    var opp := Orders(st, Opposite(cmd.side));
    assert LimitFrom(cmd) == LimitOf(cmd);
    if opp != [] && Crosses(cmd.side, LimitOf(cmd), opp[0].price) {
      assert Within(cmd.side, LimitFrom(cmd), opp[0].price);
    }
    if Reaches(st, cmd) {
      var i :| 0 <= i < |opp| && Within(cmd.side, LimitFrom(cmd), opp[i].price);
      if i > 0 { assert Ahead(Opposite(cmd.side), opp[0], opp[i]); }
    }
  }

  /** The one check that a refused new order fails first. */
  ghost predicate Reason(st: State, cmd: Command, why: RejectReason) {
    match why
    case ZeroQuantity => cmd.quantity == 0
    case PriceOutOfBand => && cmd.quantity > 0 && LimitFrom(cmd) != NO_PRICE
                           && !(st.cfg.minPrice <= cmd.price <= st.cfg.maxPrice)
    case DuplicateOrderId => && cmd.quantity > 0 && !Fresh(st, cmd.id)
                             && (LimitFrom(cmd) != NO_PRICE ==> st.cfg.minPrice <= cmd.price <= st.cfg.maxPrice)
    case PostOnlyWouldCross => WellFormed(st, cmd) && cmd.typ.PostOnly? && Reaches(st, cmd)
    case FokUnfillable => WellFormed(st, cmd) && cmd.typ.Fok? && Supply(st, cmd) < cmd.quantity
    case _ => false
  }

  lemma RefusedFor(st: State, cmd: Command)
    requires Inv(st)
    ensures Refusal(st, cmd) == NoReason <==> Acceptable(st, cmd)
    ensures Refusal(st, cmd) != NoReason ==> Reason(st, cmd, Refusal(st, cmd))
  {
    InvFromSide(st, cmd.side);
    MarketableIsOffered(cmd.side, LimitFrom(cmd), Orders(st, Opposite(cmd.side)));
    ReachesFront(st, cmd);
    FreshIffUnknown(st, cmd.id);
    hide Inv, SideOk, Apart, Known, Fresh, Reaches, Marketable, Offered;
  }

  lemma {:induction false} RunExtends(w: M.Sweep, stp: StpMode)
    ensures w.out <= M.Run(w, stp).out
    decreases |w.opp|, w.inc.remaining
  {
    if !M.Blocked(w) { RunExtends(M.Step(w, stp), stp); }
  }

  /** An accepted order's acknowledgement is the first thing said of it. */
  lemma AcceptedFirst(st: State, cmd: Command)
    requires Refusal(st, cmd) == NoReason
    ensures var z := HandleNew(st, cmd);
            && st.out + [Event(st.seqNo + 1, Accepted(cmd.id, cmd.client, cmd.side, LimitFrom(cmd), cmd.quantity,
                                                      cmd.quantity))] <= z.out
            && z.arrival == st.arrival + 1
  {
    hide Refusal, M.Run, Insert;
    RunExtends(Opening(st, cmd), st.cfg.stp);
  }

  /** A book that is not halted takes a new order if and only if the order is acceptable, and then
      acknowledges it first of all. Otherwise it rejects it, for the first check it fails, and
      nothing moves. */
  lemma AcceptedExactlyWhen(st: State, cmd: Command)
    requires Inv(st) && cmd.kind.New? && !st.halted
    ensures var z := Process(st, cmd);
            if Acceptable(st, cmd) then
              && z.out != [] && z.arrival == st.arrival + 1
              && z.out[0].body == Accepted(cmd.id, cmd.client, cmd.side, LimitFrom(cmd), cmd.quantity, cmd.quantity)
            else
              && SameSides(z, st) && z.arrival == st.arrival
              && exists why :: && Reason(st, cmd, why)
                               && Says(z.out, [Rejected(cmd.id, cmd.client, cmd.side, cmd.price, cmd.quantity, why)])
  {
    var b := Begin(st, cmd.kind);
    BeginKeepsInv(st, cmd.kind);
    SameConditions(st, b, cmd);
    RefusedFor(b, cmd);
    hide Refusal, Acceptable, Reason, Inv, Finish;
    Finished(st, cmd, Handle(b, cmd));
    if Refusal(b, cmd) == NoReason {
      AcceptedFirst(b, cmd);
    } else {
      assert Reason(st, cmd, Refusal(b, cmd));
    }
  }

  lemma SameConditions(st: State, b: State, cmd: Command)
    requires SameSides(b, st) && b.cfg == st.cfg
    ensures Acceptable(b, cmd) == Acceptable(st, cmd)
    ensures forall why :: Reason(b, cmd, why) == Reason(st, cmd, why)
  {
    hide Offered, AnyWithin;
    assert Fresh(b, cmd.id) == Fresh(st, cmd.id) && Reaches(b, cmd) == Reaches(st, cmd);
    assert Supply(b, cmd) == Supply(st, cmd) && WellFormed(b, cmd) == WellFormed(st, cmd);
    hide Fresh, Reaches, Supply, WellFormed;
  }

  /** For a fill-or-kill: it is refused as unfillable if and only if it is well-formed and, with
      self-trade prevention off, the same order sent as immediate-or-cancel would fill less than its
      size. */
  lemma FokRefusedExactlyWhen(st: State, cmd: Command)
    requires Inv(st) && cmd.kind.New? && cmd.typ.Fok? && !st.halted
    ensures var off, ioc := st.(cfg := st.cfg.(stp := StpNone)), cmd.(typ := Ioc);
            Says(Process(st, cmd).out, [Rejected(cmd.id, cmd.client, cmd.side, cmd.price, cmd.quantity, FokUnfillable)])
            <==> WellFormed(st, cmd) && P.Filled(off, ioc) < cmd.quantity
  {
    AcceptedExactlyWhen(st, cmd);
    if WellFormed(st, cmd) { IocFills(st, cmd); }
    hide P.Filled, Process, Inv, Reason, WellFormed, Supply;
    var z := Process(st, cmd);
    SaysFirst(z.out, Rejected(cmd.id, cmd.client, cmd.side, cmd.price, cmd.quantity, FokUnfillable));
    if !Acceptable(st, cmd) {
      var why :| && Reason(st, cmd, why)
                 && Says(z.out, [Rejected(cmd.id, cmd.client, cmd.side, cmd.price, cmd.quantity, why)]);
      FokReason(st, cmd, why);
      SaysFirst(z.out, Rejected(cmd.id, cmd.client, cmd.side, cmd.price, cmd.quantity, why));
    }
  }

  lemma SaysFirst(out: seq<Event>, b: Body)
    ensures Says(out, [b]) ==> out != [] && out[0].body == b
  {
    assert [b][0] == b;
  }

  lemma FokReason(st: State, cmd: Command, why: RejectReason)
    requires Reason(st, cmd, why) && cmd.typ.Fok?
    ensures why == FokUnfillable <==> WellFormed(st, cmd) && Supply(st, cmd) < cmd.quantity
  {
    hide Offered, Fresh;
  }

  /** A well-formed immediate-or-cancel order takes what it can reach, up to its size. */
  lemma IocFills(st: State, cmd: Command)
    requires Inv(st) && WellFormed(st, cmd) && cmd.typ.Fok?
    ensures P.Filled(st.(cfg := st.cfg.(stp := StpNone)), cmd.(typ := Ioc)) == Min(cmd.quantity, Supply(st, cmd))
  {
    var off, ioc := st.(cfg := st.cfg.(stp := StpNone)), cmd.(typ := Ioc);
    var opp := Orders(st, Opposite(cmd.side));
    assert Inv(off) && WellFormed(off, ioc) && Orders(off, Opposite(ioc.side)) == opp;
    InvFromSide(st, cmd.side);
    MarketableIsOffered(cmd.side, LimitFrom(ioc), opp);
    RefusedFor(off, ioc);
    hide P.Filled, Inv, Refusal, Sum, Offered, WellFormed;
    P.FilledExactly(off, ioc);
  }

  // --- what becomes of an accepted order ----------------------------------------------------------------------

  /** Every cancellation so far is self-trade prevention at work in mode `stp`: of the aggressor
      `id` under CancelAggressor, of somebody else under CancelResting. */
  ghost predicate OnlyPrevented(out: seq<Event>, id: nat, stp: StpMode) {
    forall i :: 0 <= i < |out| && out[i].body.Canceled? ==>
      out[i].body.reason.SelfTradePrevented? && !stp.StpNone? && (out[i].body.id == id <==> stp.CancelAggressor?)
  }

  lemma StepOnlyPrevents(w: M.Sweep, stp: StpMode)
    requires !M.Blocked(w) && !HasId(w.opp, w.inc.id) && OnlyPrevented(w.out, w.inc.id, stp)
    ensures var z := M.Step(w, stp);
            z.inc.id == w.inc.id && !HasId(z.opp, w.inc.id) && OnlyPrevented(z.out, w.inc.id, stp)
  {
    M.HasIdTail(w.opp, w.inc.id);
    M.ExecuteIs(w);
    hide M.Execute, HasId;
  }

  lemma {:induction false} RunOnlyPrevents(w: M.Sweep, stp: StpMode)
    requires !HasId(w.opp, w.inc.id) && OnlyPrevented(w.out, w.inc.id, stp)
    ensures OnlyPrevented(M.Run(w, stp).out, w.inc.id, stp)
    decreases |w.opp|, w.inc.remaining
  {
    if !M.Blocked(w) {
      StepOnlyPrevents(w, stp);
      RunOnlyPrevents(M.Step(w, stp), stp);
    }
  }

  /** Why an event cancels an order in the course of an accepted new order `cmd` that leaves `z`. */
  ghost predicate Justified(z: State, cmd: Command, c: Body)
    requires c.Canceled?
  {
    match c.reason
    case SelfTradePrevented => !z.cfg.stp.StpNone? && (c.id == cmd.id <==> z.cfg.stp.CancelAggressor?)
    case PoolExhausted => && c.id == cmd.id && (cmd.typ.Limit? || cmd.typ.PostOnly?)
                          && |z.bids| + |z.asks| >= z.cfg.maxOrders
    case NoReason => c.id == cmd.id && !cmd.typ.Limit? && !cmd.typ.PostOnly?
    case _ => false
  }

  ghost predicate AllJustified(z: State, cmd: Command) {
    forall i :: 0 <= i < |z.out| && z.out[i].body.Canceled? ==> Justified(z, cmd, z.out[i].body)
  }

  /** The order as it comes to rest with `open` lots left. */
  function AtRest(st: State, cmd: Command, open: nat): Order {
    Order(cmd.id, cmd.client, cmd.price, cmd.quantity, open, st.arrival + 1, cmd.side, cmd.typ)
  }

  /** The order's own side is as before, or has gained the order, with what is left of it, behind
      everyone at least as well priced; only a limit or post-only order can do that. */
  ghost predicate GainsAtMost(st: State, z: State, cmd: Command) {
    || Orders(z, cmd.side) == Orders(st, cmd.side)
    || ((cmd.typ.Limit? || cmd.typ.PostOnly?)
        && exists open: nat :: 0 < open <= cmd.quantity
             && Orders(z, cmd.side) == Insert(Orders(st, cmd.side), AtRest(st, cmd, open)))
  }

  /** An accepted order is cancelled only for a reason that holds, and rests, if at all, as itself. */
  lemma AcceptedEnds(st: State, cmd: Command)
    requires Inv(st) && ValidCommand(cmd) && cmd.kind.New? && !st.halted && Acceptable(st, cmd)
    ensures AllJustified(Process(st, cmd), cmd) && GainsAtMost(st, Process(st, cmd), cmd)
  {
    var b := Begin(st, cmd.kind);
    BeginKeepsInv(st, cmd.kind);
    SameConditions(st, b, cmd);
    RefusedFor(b, cmd);
    NewEnds(b, cmd);
    hide HandleNew, Finish, Refusal, Acceptable, Reason, Inv, AllJustified, GainsAtMost;
    Finished(st, cmd, Handle(b, cmd));
    EndsCarry(st, b, Handle(b, cmd), Process(st, cmd), cmd);
  }

  lemma EndsCarry(st: State, b: State, h: State, z: State, cmd: Command)
    requires SameSides(b, st) && b.arrival == st.arrival && SameSides(z, h) && z.cfg == h.cfg
    requires h.out <= z.out && |z.out| <= |h.out| + 1 && (|z.out| > |h.out| ==> z.out[|h.out|].body.BookChanged?)
    requires AllJustified(h, cmd) && GainsAtMost(b, h, cmd)
    ensures AllJustified(z, cmd) && GainsAtMost(st, z, cmd)
  {
    hide Justified, Insert;
    forall i | 0 <= i < |z.out| && z.out[i].body.Canceled? ensures Justified(z, cmd, z.out[i].body) {
      assert z.out[i] == h.out[i];
      SameJustified(h, z, cmd, z.out[i].body);
    }
    if Orders(h, cmd.side) != Orders(b, cmd.side) {
      var open: nat :| && 0 < open <= cmd.quantity
                       && Orders(h, cmd.side) == Insert(Orders(b, cmd.side), AtRest(b, cmd, open));
      assert AtRest(b, cmd, open) == AtRest(st, cmd, open);
    }
  }

  lemma SameJustified(h: State, z: State, cmd: Command, c: Body)
    requires SameSides(z, h) && z.cfg == h.cfg && c.Canceled?
    ensures Justified(h, cmd, c) == Justified(z, cmd, c)
  {
  }

  lemma NewEnds(st: State, cmd: Command)
    requires Inv(st) && ValidCommand(cmd.(kind := New)) && Refusal(st, cmd) == NoReason && st.out == []
    ensures AllJustified(HandleNew(st, cmd), cmd) && GainsAtMost(st, HandleNew(st, cmd), cmd)
  {
    var w := Opening(st, cmd);
    var z := M.Run(w, st.cfg.stp);
    RemainderMayRest(st, cmd);
    OpeningPrevents(st, cmd);
    RunOnlyPrevents(w, st.cfg.stp);
    M.RunKeepsIdentity(w, st.cfg.stp);
    hide M.Run, Refusal, Inv, Settle;
    SettleJustified(AfterSweep(st, z), z.inc, cmd);
    SettleGains(st, AfterSweep(st, z), z.inc, cmd);
  }

  lemma OpeningPrevents(st: State, cmd: Command)
    requires Inv(st) && Refusal(st, cmd) == NoReason && st.out == []
    ensures var w := Opening(st, cmd); !HasId(w.opp, w.inc.id) && OnlyPrevented(w.out, w.inc.id, st.cfg.stp)
  {
    hide Inv, Marketable;
  }

  lemma SettleJustified(a: State, inc: Order, cmd: Command)
    requires OnlyPrevented(a.out, cmd.id, a.cfg.stp) && inc.id == cmd.id && inc.typ == cmd.typ
    ensures AllJustified(Settle(a, inc), cmd)
  {
    hide Insert;
  }

  lemma SettleGains(st: State, a: State, inc: Order, cmd: Command)
    requires inc == Incoming(st, cmd).(remaining := inc.remaining) && inc.remaining <= cmd.quantity
    requires MayRest(cmd.typ) ==> inc.price == cmd.price
    requires Orders(a, cmd.side) == Orders(st, cmd.side)
    ensures GainsAtMost(st, Settle(a, inc), cmd)
  {
    hide Insert;
    if Orders(Settle(a, inc), cmd.side) != Orders(st, cmd.side) {
      assert inc == AtRest(st, cmd, inc.remaining);
    }
  }
}

/** The matching engine as a state machine over New, Cancel and Modify, on flat
    price-time-ordered sides. `MatchingEngine` is proved to implement it step by step. */
module EngineSpec {
  import opened Types
  import opened PriceTime
  import M = Matching

  datatype State = State(
    cfg: Config, bids: seq<Order>, asks: seq<Order>, out: seq<Event>,
    seqNo: nat, arrival: nat, halted: bool, lastBid: int, lastAsk: int,
    stats: Stats, withdrawn: nat)

  function Initial(cfg: Config): State {
    State(cfg, [], [], [], 0, 0, false, NO_PRICE, NO_PRICE, Stats(0, 0, 0, 0, 0, 0, 0, 0), 0)
  }

  function Emit(st: State, b: Body): State {
    st.(seqNo := st.seqNo + 1, out := st.out + [Event(st.seqNo + 1, b)])
  }

  function EmitReject(st: State, cmd: Command, reason: RejectReason): State {
    Emit(st, Rejected(cmd.id, cmd.client, cmd.side, cmd.price, cmd.quantity, reason))
      .(stats := st.stats.(rejects := st.stats.rejects + 1))
  }

  function Orders(st: State, s: Side): seq<Order> {
    if s.Buy? then st.bids else st.asks
  }

  function WithOrders(st: State, s: Side, q: seq<Order>): State {
    if s.Buy? then st.(bids := q) else st.(asks := q)
  }

  function Resting(st: State): nat {
    |st.bids| + |st.asks|
  }

  ghost predicate Known(st: State, id: nat) {
    HasId(st.bids, id) || HasId(st.asks, id)
  }

  /** The side on which a known order rests. */
  ghost function SideOf(st: State, id: nat): Side {
    if HasId(st.bids, id) then Buy else Sell
  }

  ghost function Lookup(st: State, id: nat): (o: Order)
    requires Known(st, id)
    ensures o.id == id
  {
    var q := Orders(st, SideOf(st, id));
    q[PosOf(q, id)]
  }

  ghost function Without(st: State, id: nat): State
    requires Known(st, id)
  {
    var s := SideOf(st, id);
    var q := Orders(st, s);
    WithOrders(st, s, RemoveAt(q, PosOf(q, id)))
  }

  predicate InBand(cfg: Config, p: int) {
    cfg.minPrice <= p <= cfg.maxPrice
  }

  predicate IsMarket(cmd: Command) {
    cmd.typ.Market? || cmd.price == NO_PRICE
  }

  function LimitOf(cmd: Command): int {
    if IsMarket(cmd) then NO_PRICE else cmd.price
  }

  /** Why a new order is refused, checked in the engine's order. */
  ghost function Refusal(st: State, cmd: Command): RejectReason {
    var opp := Orders(st, Opposite(cmd.side));
    if cmd.quantity == 0 then ZeroQuantity
    else if !IsMarket(cmd) && !InBand(st.cfg, cmd.price) then PriceOutOfBand
    else if Known(st, cmd.id) then DuplicateOrderId
    else if cmd.typ.PostOnly? && opp != [] && Crosses(cmd.side, LimitOf(cmd), opp[0].price) then PostOnlyWouldCross
    else if cmd.typ.Fok? && Marketable(cmd.side, LimitOf(cmd), opp) < cmd.quantity then FokUnfillable
    else NoReason
  }

  function Incoming(st: State, cmd: Command): Order {
    Order(cmd.id, cmd.client, LimitOf(cmd), cmd.quantity, cmd.quantity, st.arrival + 1, cmd.side, cmd.typ)
  }

  /** The aggressor facing the opposite side, right after its acknowledgement. */
  function Opening(st: State, cmd: Command): M.Sweep {
    var a := Emit(st, Accepted(cmd.id, cmd.client, cmd.side, LimitOf(cmd), cmd.quantity, cmd.quantity));
    M.Sweep(Incoming(st, cmd), Orders(st, Opposite(cmd.side)), a.out, a.seqNo,
            st.stats.trades, st.stats.sharesTraded, st.withdrawn)
  }

  /** The engine after a sweep that ended as `z`. */
  function AfterSweep(st: State, z: M.Sweep): State {
    WithOrders(st, Opposite(z.inc.side), z.opp)
      .(out := z.out, seqNo := z.seqNo, arrival := st.arrival + 1, withdrawn := z.withdrawn,
        stats := st.stats.(trades := z.trades, sharesTraded := z.shares))
  }

  predicate MayRest(t: OrderType) {
    t.Limit? || t.PostOnly?
  }

  /** What becomes of an aggressor's unfilled remainder. */
  function Settle(st: State, inc: Order): State {
    if inc.remaining == 0 then st
    else if !MayRest(inc.typ) then
      Emit(st, Canceled(inc.id, inc.client, inc.side, inc.price, inc.remaining, 0, NoReason))
        .(withdrawn := st.withdrawn + inc.remaining)
    else if Resting(st) >= st.cfg.maxOrders then
      Emit(st, Canceled(inc.id, inc.client, inc.side, inc.price, inc.remaining, 0, PoolExhausted))
        .(withdrawn := st.withdrawn + inc.remaining)
    else WithOrders(st, inc.side, Insert(Orders(st, inc.side), inc))
  }

  ghost function HandleNew(st: State, cmd: Command): (r: State)
    ensures r.cfg == st.cfg
  {
    var why := Refusal(st, cmd);
    if why != NoReason then EmitReject(st, cmd, why)
    else
      var z := M.Run(Opening(st, cmd), st.cfg.stp);
      Settle(AfterSweep(st, z), z.inc)
  }

  ghost function HandleCancel(st: State, cmd: Command): (r: State)
    ensures r.cfg == st.cfg
  {
    if !Known(st, cmd.id) then EmitReject(st, cmd, UnknownOrder)
    else
      var o := Lookup(st, cmd.id);
      var e := Emit(st, Canceled(o.id, o.client, o.side, o.price, o.remaining, 0, NoReason));
      Without(e, cmd.id).(withdrawn := st.withdrawn + o.remaining)
  }

  function NewPrice(o: Order, cmd: Command): int {
    if cmd.price == NO_PRICE then o.price else cmd.price
  }

  /** The one amendment that keeps queue position: same price, smaller size. */
  predicate IsSizeDown(o: Order, cmd: Command) {
    NewPrice(o, cmd) == o.price && cmd.quantity < o.remaining
  }

  /** The original size is recomputed from `filled()` after the open size has been cut. */
  function SizedDown(o: Order, qty: nat): Order
    requires qty < o.remaining
  {
    o.(remaining := qty, quantity := qty + (o.quantity - qty))
  }

  ghost function SizeDown(st: State, cmd: Command): State
    requires Known(st, cmd.id) && IsSizeDown(Lookup(st, cmd.id), cmd)
  {
    var s := SideOf(st, cmd.id);
    var q := Orders(st, s);
    var i := PosOf(q, cmd.id);
    var o := SizedDown(q[i], cmd.quantity);
    Emit(WithOrders(st, s, q[i := o]),
         Replaced(o.id, o.client, o.side, o.price, cmd.quantity, o.remaining))
      .(withdrawn := st.withdrawn + (q[i].remaining - cmd.quantity))
  }

  /** The replacement order a priority-losing amendment is replayed as. */
  function Replacement(o: Order, cmd: Command): Command {
    MakeNew(cmd.id, o.client, o.side, o.typ, NewPrice(o, cmd), cmd.quantity)
  }

  ghost function HandleModify(st: State, cmd: Command): (r: State)
    ensures r.cfg == st.cfg
  {
    if !Known(st, cmd.id) then EmitReject(st, cmd, UnknownOrder)
    else if cmd.quantity == 0 then HandleCancel(st, MakeCancel(cmd.id, cmd.client))
    else
      var o := Lookup(st, cmd.id);
      if IsSizeDown(o, cmd) then SizeDown(st, cmd)
      else
        var gone := Without(st, cmd.id).(withdrawn := st.withdrawn + o.remaining);
        HandleNew(gone, Replacement(o, cmd))
  }

  function NotifyTop(st: State): State {
    var bid, ask := BestPrice(st.bids), BestPrice(st.asks);
    if bid == st.lastBid && ask == st.lastAsk then st
    else Emit(st, BookChanged(bid, TopQty(st.bids), ask, TopQty(st.asks))).(lastBid := bid, lastAsk := ask)
  }

  function Max(a: nat, b: nat): nat {
    if a >= b then a else b
  }

  function Begin(st: State, kind: CommandKind): State {
    var t := st.stats.(commands := st.stats.commands + 1);
    st.(out := [],
        stats := match kind
                 case New => t.(newOrders := t.newOrders + 1)
                 case Cancel => t.(cancelOrders := t.cancelOrders + 1)
                 case Modify => t.(modifyOrders := t.modifyOrders + 1))
  }

  function Finish(st: State): State {
    var n := if st.cfg.emitBookChanged then NotifyTop(st) else st;
    n.(stats := n.stats.(peakResting := Max(n.stats.peakResting, Resting(n))))
  }

  ghost function Handle(st: State, cmd: Command): (r: State)
    ensures r.cfg == st.cfg
  {
    match cmd.kind
    case New => if st.halted then EmitReject(st, cmd, BookHalted) else HandleNew(st, cmd)
    case Cancel => HandleCancel(st, cmd)
    case Modify => HandleModify(st, cmd)
  }

  /** One command, start to finish; `out` holds its events. */
  ghost function Process(st: State, cmd: Command): (r: State)
    ensures r.cfg == st.cfg
  {
    Finish(Handle(Begin(st, cmd.kind), cmd))
  }

  // --- the invariant ----------------------------------------------------------------------

  ghost predicate OrderOk(cfg: Config, arrival: nat, s: Side, o: Order) {
    && o.side == s && o.id != 0 && o.seqNo <= arrival
    && 0 < o.remaining <= o.quantity
    && o.price != NO_PRICE && InBand(cfg, o.price) && MayRest(o.typ)
  }

  ghost predicate SideOk(cfg: Config, arrival: nat, s: Side, q: seq<Order>) {
    && Sorted(s, q) && DistinctIds(q)
    && forall i :: 0 <= i < |q| ==> OrderOk(cfg, arrival, s, q[i])
  }

  /** No order of side `s` reaches an order of the opposite side, and no id is on both. */
  ghost predicate Apart(s: Side, own: seq<Order>, opp: seq<Order>) {
    forall i, j :: 0 <= i < |own| && 0 <= j < |opp| ==>
      Better(Opposite(s), own[i].price, opp[j].price) && own[i].id != opp[j].id
  }

  ghost predicate PairOk(cfg: Config, arrival: nat, s: Side, own: seq<Order>, opp: seq<Order>) {
    SideOk(cfg, arrival, s, own) && SideOk(cfg, arrival, Opposite(s), opp) && Apart(s, own, opp)
  }

  /** Every reachable book is sorted by price and arrival on both sides, uncrossed, free of
      duplicate ids and within capacity. */
  ghost predicate Inv(st: State) {
    PairOk(st.cfg, st.arrival, Buy, st.bids, st.asks) && Resting(st) <= st.cfg.maxOrders
  }

  lemma InvFromSide(st: State, s: Side)
    ensures Inv(st) <==> PairOk(st.cfg, st.arrival, s, Orders(st, s), Orders(st, Opposite(s)))
                         && Resting(st) <= st.cfg.maxOrders
  {
  }

  lemma EatenKeepsSide(cfg: Config, arrival: nat, s: Side, q: seq<Order>, z: seq<Order>, k: nat)
    requires SideOk(cfg, arrival, s, q) && M.Eaten(q, z, k)
    ensures SideOk(cfg, arrival, s, z)
    ensures forall i :: 0 <= i < |z| ==> z[i].id == q[k + i].id && z[i].price == q[k + i].price
  {
    assert forall i :: 0 <= i < |z| ==> z[i] == q[k + i].(remaining := z[i].remaining);
    forall i, j | 0 <= i < j < |z| ensures Ahead(s, z[i], z[j]) {
      assert Ahead(s, q[k + i], q[k + j]);
    }
  }

  lemma RemoveKeepsSide(cfg: Config, arrival: nat, s: Side, q: seq<Order>, i: nat)
    requires SideOk(cfg, arrival, s, q) && i < |q|
    ensures SideOk(cfg, arrival, s, RemoveAt(q, i))
    ensures !HasId(RemoveAt(q, i), q[i].id)
  {
    var r := RemoveAt(q, i);
    assert forall j :: 0 <= j < |r| ==> r[j] == q[if j < i then j else j + 1];
    forall a, b | 0 <= a < b < |r| ensures Ahead(s, r[a], r[b]) {
      assert Ahead(s, q[if a < i then a else a + 1], q[if b < i then b else b + 1]);
    }
  }

  lemma InsertKeepsSide(cfg: Config, arrival: nat, s: Side, q: seq<Order>, o: Order)
    requires SideOk(cfg, arrival, s, q) && OrderOk(cfg, arrival + 1, s, o)
    requires o.seqNo == arrival + 1 && !HasId(q, o.id)
    ensures SideOk(cfg, arrival + 1, s, Insert(q, o))
  {
    InsertKeepsSorted(s, q, o);
    InsertKeepsIds(q, o);
    hide Insert, Sorted, DistinctIds;
    var i := InsertPlaces(q, o);
  }

  lemma WithoutKeepsInv(st: State, id: nat)
    requires Inv(st) && Known(st, id)
    ensures Inv(Without(st, id)) && !Known(Without(st, id), id)
    ensures Resting(Without(st, id)) == Resting(st) - 1
    ensures Lookup(st, id).side == SideOf(st, id)
  {
    var s := SideOf(st, id);
    var q := Orders(st, s);
    var i := PosOf(q, id);
    RemoveKeepsSide(st.cfg, st.arrival, s, q, i);
    var r := RemoveAt(q, i);
    assert forall j :: 0 <= j < |r| ==> r[j] == q[if j < i then j else j + 1];
  }

  lemma SizeDownKeepsInv(st: State, cmd: Command)
    requires Inv(st) && Known(st, cmd.id) && cmd.quantity > 0 && IsSizeDown(Lookup(st, cmd.id), cmd)
    ensures Inv(SizeDown(st, cmd))
  {
    var s := SideOf(st, cmd.id);
    var q := Orders(st, s);
    var i := PosOf(q, cmd.id);
    var z := q[i := SizedDown(q[i], cmd.quantity)];
    ShrinkKeepsSide(st.cfg, st.arrival, s, q, i, z[i]);
    hide SideOk, HasId;
    assert forall j :: 0 <= j < |z| ==> z[j].id == q[j].id && z[j].price == q[j].price;
  }

  lemma ShrinkKeepsSide(cfg: Config, arrival: nat, s: Side, q: seq<Order>, i: nat, o: Order)
    requires SideOk(cfg, arrival, s, q) && i < |q|
    requires o == q[i].(quantity := o.quantity, remaining := o.remaining) && 0 < o.remaining <= o.quantity
    ensures SideOk(cfg, arrival, s, q[i := o])
  {
    var z := q[i := o];
    forall a, b | 0 <= a < b < |z| ensures Ahead(s, z[a], z[b]) {
      assert Ahead(s, q[a], q[b]);
    }
  }

  lemma EatenKeepsPair(cfg: Config, arrival: nat, s: Side, own: seq<Order>, opp: seq<Order>, z: seq<Order>, k: nat)
    requires PairOk(cfg, arrival, s, own, opp) && M.Eaten(opp, z, k)
    ensures PairOk(cfg, arrival, s, own, z)
    ensures forall id :: !HasId(opp, id) ==> !HasId(z, id)
  {
    EatenKeepsSide(cfg, arrival, Opposite(s), opp, z, k);
    forall id | HasId(z, id) ensures HasId(opp, id) {
      var i := PosOf(z, id);
      assert opp[k + i].id == id;
    }
  }

  lemma InsertKeepsPair(cfg: Config, arrival: nat, s: Side, own: seq<Order>, opp: seq<Order>, o: Order)
    requires PairOk(cfg, arrival, s, own, opp)
    requires OrderOk(cfg, arrival + 1, s, o) && o.seqNo == arrival + 1
    requires !HasId(own, o.id) && !HasId(opp, o.id)
    requires forall j :: 0 <= j < |opp| ==> !Crosses(s, o.price, opp[j].price)
    ensures PairOk(cfg, arrival + 1, s, Insert(own, o), opp)
  {
    InsertKeepsSide(cfg, arrival, s, own, o);
    var i := InsertSplits(own, o);
    var r := Insert(own, o);
    forall a, b | 0 <= a < |r| && 0 <= b < |opp|
      ensures Better(Opposite(s), r[a].price, opp[b].price) && r[a].id != opp[b].id
    {
      if a != i { assert r[a] == own[if a < i then a else a - 1]; }
    }
  }

  /** An aggressor with anything left cannot reach what remains of the opposite side. */
  lemma SweepEnds(w: M.Sweep, stp: StpMode, cfg: Config, arrival: nat, own: seq<Order>) returns (z: M.Sweep)
    requires PairOk(cfg, arrival, w.inc.side, own, w.opp) && !HasId(w.opp, w.inc.id)
    ensures z == M.Run(w, stp)
    ensures PairOk(cfg, arrival, w.inc.side, own, z.opp) && !HasId(z.opp, w.inc.id)
    ensures |z.opp| <= |w.opp|
    ensures z.inc == w.inc.(remaining := z.inc.remaining) && z.inc.remaining <= w.inc.remaining
    ensures z.inc.remaining > 0 && !w.inc.typ.Market? ==>
              forall j :: 0 <= j < |z.opp| ==> !Crosses(w.inc.side, w.inc.price, z.opp[j].price)
  {
    z := M.Run(w, stp);
    M.RunKeepsIdentity(w, stp);
    var k := M.RunEats(w, stp);
    EatenKeepsPair(cfg, arrival, w.inc.side, own, w.opp, z.opp, k);
    forall j | 0 <= j < |z.opp| && z.inc.remaining > 0 && !w.inc.typ.Market?
      ensures !Crosses(w.inc.side, w.inc.price, z.opp[j].price)
    {
      if j > 0 { assert Ahead(Opposite(w.inc.side), z.opp[0], z.opp[j]); }
    }
  }

  lemma ArrivalGrows(cfg: Config, arrival: nat, s: Side, own: seq<Order>, opp: seq<Order>)
    requires PairOk(cfg, arrival, s, own, opp)
    ensures PairOk(cfg, arrival + 1, s, own, opp)
  {
  }

  lemma SettleKeepsInv(a: State, inc: Order)
    requires a.arrival > 0 && Resting(a) <= a.cfg.maxOrders
    requires PairOk(a.cfg, a.arrival - 1, inc.side, Orders(a, inc.side), Orders(a, Opposite(inc.side)))
    requires !HasId(a.bids, inc.id) && !HasId(a.asks, inc.id)
    requires inc.remaining > 0 && MayRest(inc.typ) ==>
               && OrderOk(a.cfg, a.arrival, inc.side, inc) && inc.seqNo == a.arrival
               && var opp := Orders(a, Opposite(inc.side));
                  forall j :: 0 <= j < |opp| ==> !Crosses(inc.side, inc.price, opp[j].price)
    ensures Inv(Settle(a, inc))
  {
    var own, opp := Orders(a, inc.side), Orders(a, Opposite(inc.side));
    ArrivalGrows(a.cfg, a.arrival - 1, inc.side, own, opp);
    InvFromSide(a, inc.side);
    if inc.remaining > 0 && MayRest(inc.typ) && Resting(a) < a.cfg.maxOrders {
      InsertKeepsPair(a.cfg, a.arrival - 1, inc.side, own, opp, inc);
      InvFromSide(Settle(a, inc), inc.side);
    }
  }

  lemma HandleNewKeepsInv(st: State, cmd: Command)
    requires Inv(st) && ValidCommand(cmd.(kind := New))
    ensures Inv(HandleNew(st, cmd))
  {
    if Refusal(st, cmd) == NoReason {
      InvFromSide(st, cmd.side);
      var own := Orders(st, cmd.side);
      var z := SweepEnds(Opening(st, cmd), st.cfg.stp, st.cfg, st.arrival, own);
      var a := AfterSweep(st, z);
      assert Orders(a, cmd.side) == own && Orders(a, Opposite(cmd.side)) == z.opp;
      SettleKeepsInv(a, z.inc);
    }
  }

  lemma RequeueKeepsInv(st: State, cmd: Command)
    requires Inv(st) && Known(st, cmd.id)
    ensures var o := Lookup(st, cmd.id);
            Inv(HandleNew(Without(st, cmd.id).(withdrawn := st.withdrawn + o.remaining), Replacement(o, cmd)))
  {
    hide HandleNew;
    var o := Lookup(st, cmd.id);
    var gone := Without(st, cmd.id).(withdrawn := st.withdrawn + o.remaining);
    assert OrderOk(st.cfg, st.arrival, SideOf(st, cmd.id), o);
    WithoutKeepsInv(st, cmd.id);
    HandleNewKeepsInv(gone, Replacement(o, cmd));
  }

  lemma HandleKeepsInv(st: State, cmd: Command)
    requires Inv(st) && ValidCommand(cmd)
    ensures Inv(Handle(st, cmd))
  {
    hide HandleNew, SideOk, Apart;
    if cmd.kind.New? {
      HandleNewKeepsInv(st, cmd);
    } else if Known(st, cmd.id) {
      WithoutKeepsInv(st, cmd.id);
      var o := Lookup(st, cmd.id);
      if cmd.kind.Modify? && cmd.quantity > 0 {
        if IsSizeDown(o, cmd) {
          SizeDownKeepsInv(st, cmd);
        } else {
          RequeueKeepsInv(st, cmd);
        }
      }
    }
  }

  /** Every command keeps the invariant, whatever the order type, the self-trade mode, the
      halt flag or the outcome. */
  lemma ProcessKeepsInv(st: State, cmd: Command)
    requires Inv(st) && ValidCommand(cmd)
    ensures Inv(Process(st, cmd))
  {
    HandleKeepsInv(Begin(st, cmd.kind), cmd);
  }

  lemma BeginKeepsInv(st: State, kind: CommandKind)
    requires Inv(st)
    ensures Inv(Begin(st, kind))
  {
  }

  /** What is left of an accepted aggressor may be put to rest: its id is in no list, and if
      its type can rest its price is a real one inside the band. */
  lemma RemainderMayRest(st: State, cmd: Command)
    requires Inv(st) && ValidCommand(cmd.(kind := New)) && Refusal(st, cmd) == NoReason
    ensures var z := M.Run(Opening(st, cmd), st.cfg.stp);
            && z.inc == Incoming(st, cmd).(remaining := z.inc.remaining)
            && !Known(AfterSweep(st, z), cmd.id)
            && (MayRest(cmd.typ) ==> z.inc.price == cmd.price && InBand(st.cfg, cmd.price) && cmd.price != NO_PRICE)
  {
    InvFromSide(st, cmd.side);
    var z := SweepEnds(Opening(st, cmd), st.cfg.stp, st.cfg, st.arrival, Orders(st, cmd.side));
  }

  /** An amendment that re-queues leaves a book that keeps the invariant and submits a
      replacement the engine can take. */
  lemma ReplacementIsValid(st: State, cmd: Command)
    requires Inv(st) && Known(st, cmd.id)
    ensures var o := Lookup(st, cmd.id);
            && ValidCommand(Replacement(o, cmd)) && Replacement(o, cmd).kind == New
            && Inv(Without(st, cmd.id).(withdrawn := st.withdrawn + o.remaining))
  {
    var o := Lookup(st, cmd.id);
    assert OrderOk(st.cfg, st.arrival, SideOf(st, cmd.id), o);
    WithoutKeepsInv(st, cmd.id);
  }
}

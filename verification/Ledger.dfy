/** The order ledger a client can keep from the event stream alone: for each order id, the
    open size in its last Accepted, Fill, Canceled or Replaced event. */
module Ledger {
  import opened Types
  import opened PriceTime
  import opened EngineSpec
  import opened Conservation
  import M = Matching

  /** The true open size of order `id`, zero when it is not resting. */
  function OpenAt(st: State, id: nat): nat {
    M.OpenQty(st.bids, id) + M.OpenQty(st.asks, id)
  }

  lemma {:induction false} OpenQtyAt(q: seq<Order>, i: nat)
    requires DistinctIds(q) && i < |q|
    ensures M.OpenQty(q, q[i].id) == q[i].remaining
  {
    if i > 0 { OpenQtyAt(q[1..], i - 1); }
  }

  lemma {:induction false} OpenQtyUpdate(q: seq<Order>, i: nat, o: Order, id: nat)
    requires DistinctIds(q) && i < |q| && o.id == q[i].id
    ensures M.OpenQty(q[i := o], id) == if id == o.id then o.remaining else M.OpenQty(q, id)
  {
    if i > 0 {
      assert q[i := o][1..] == q[1..][i - 1 := o];
      OpenQtyUpdate(q[1..], i - 1, o, id);
    }
  }

  lemma {:induction false} OpenQtyRemove(q: seq<Order>, i: nat, id: nat)
    requires DistinctIds(q) && i < |q|
    ensures M.OpenQty(RemoveAt(q, i), id) == if id == q[i].id then 0 else M.OpenQty(q, id)
  {
    if i == 0 {
      assert RemoveAt(q, 0) == q[1..];
      assert !HasId(q[1..], q[0].id);
      M.OpenQtyAbsent(q[1..], q[0].id);
    } else {
      assert RemoveAt(q, i)[1..] == RemoveAt(q[1..], i - 1);
      OpenQtyRemove(q[1..], i - 1, id);
    }
  }

  lemma {:induction false} OpenQtyInsert(q: seq<Order>, o: Order, id: nat)
    requires !HasId(q, o.id)
    ensures M.OpenQty(Insert(q, o), id) == if id == o.id then o.remaining else M.OpenQty(q, id)
  {
    if q == [] || Better(o.side, o.price, q[0].price) {
      assert Insert(q, o)[1..] == q;
    } else {
      M.HasIdTail(q, o.id);
      OpenQtyInsert(q[1..], o, id);
    }
  }

  /** The event stream `out` reports the true open size of `id`. */
  ghost predicate Agrees(st: State, id: nat, start: nat) {
    M.LastLeaves(st.out, id, start) == OpenAt(st, id)
  }

  lemma EmitLeaves(st: State, b: Body, id: nat, start: nat)
    ensures M.LastLeaves(Emit(st, b).out, id, start)
         == if M.Reports(b, id) then b.leaves else M.LastLeaves(st.out, id, start)
  {
    assert (st.out + [Event(st.seqNo + 1, b)])[..|st.out|] == st.out;
  }

  lemma SettleAgrees(a: State, inc: Order, id: nat, start: nat)
    requires !HasId(a.bids, inc.id) && !HasId(a.asks, inc.id)
    requires M.LastLeaves(a.out, id, start) == OpenAt(a, id) + if id == inc.id then inc.remaining else 0
    ensures Agrees(Settle(a, inc), id, start)
  {
    hide M.LastLeaves, M.OpenQty, Insert;
    M.OpenQtyAbsent(a.bids, inc.id);
    M.OpenQtyAbsent(a.asks, inc.id);
    OpenQtyInsert(Orders(a, inc.side), inc, id);
    EmitLeaves(a, Canceled(inc.id, inc.client, inc.side, inc.price, inc.remaining, 0, NoReason), id, start);
    EmitLeaves(a, Canceled(inc.id, inc.client, inc.side, inc.price, inc.remaining, 0, PoolExhausted), id, start);
  }

  lemma SweepAgrees(w: M.Sweep, stp: StpMode, own: seq<Order>, id: nat, start: nat)
    requires DistinctIds(w.opp) && !HasId(w.opp, w.inc.id) && !HasId(own, w.inc.id)
    requires HasId(own, id) ==> !HasId(w.opp, id)
    requires M.LastLeaves(w.out, id, start) == M.OpenQty(own, id) + M.OpenIn(w, id)
    ensures var z := M.Run(w, stp);
            M.LastLeaves(z.out, id, start) == M.OpenQty(own, id) + M.OpenIn(z, id)
  {
    M.RunKeepsIdentity(w, stp);
    if !HasId(own, id) {
      M.OpenQtyAbsent(own, id);
      M.LedgerRun(w, stp, id, start);
    } else {
      M.LedgerBystander(w, stp, id, start);
      M.GoneWhenAbsent(w, stp, id);
      M.OpenQtyAbsent(w.opp, id);
      M.OpenQtyAbsent(M.Run(w, stp).opp, id);
    }
  }

  lemma NewAgrees(st: State, cmd: Command, id: nat, start: nat)
    requires Inv(st) && Agrees(st, id, start)
    ensures Agrees(HandleNew(st, cmd), id, start)
  {
    var why := Refusal(st, cmd);
    if why != NoReason {
      EmitLeaves(st, Rejected(cmd.id, cmd.client, cmd.side, cmd.price, cmd.quantity, why), id, start);
    } else {
      var w := Opening(st, cmd);
      var own := Orders(st, cmd.side);
      InvFromSide(st, cmd.side);
      EmitLeaves(st, Accepted(cmd.id, cmd.client, cmd.side, LimitOf(cmd), cmd.quantity, cmd.quantity), id, start);
      M.OpenQtyAbsent(own, cmd.id);
      M.OpenQtyAbsent(w.opp, cmd.id);
      SweepAgrees(w, st.cfg.stp, own, id, start);
      var z := M.Run(w, st.cfg.stp);
      M.RunKeepsIdentity(w, st.cfg.stp);
      M.GoneWhenAbsent(w, st.cfg.stp, cmd.id);
      M.OpenQtyAbsent(z.opp, cmd.id);
      var a := AfterSweep(st, z);
      assert Orders(a, cmd.side) == own && Orders(a, Opposite(cmd.side)) == z.opp;
      SettleAgrees(a, z.inc, id, start);
    }
  }

  lemma WithoutOpen(st: State, gone: nat, id: nat)
    requires Inv(st) && Known(st, gone)
    ensures OpenAt(Without(st, gone), id) == if id == gone then 0 else OpenAt(st, id)
    ensures OpenAt(st, gone) == Lookup(st, gone).remaining > 0
  {
    var s := SideOf(st, gone);
    InvFromSide(st, s);
    var q, opp := Orders(st, s), Orders(st, Opposite(s));
    OpenQtyAt(q, PosOf(q, gone));
    OpenQtyRemove(q, PosOf(q, gone), id);
    assert !HasId(opp, gone);
    M.OpenQtyAbsent(opp, gone);
  }

  lemma CancelAgrees(st: State, cmd: Command, id: nat, start: nat)
    requires Inv(st) && Agrees(st, id, start)
    ensures Agrees(HandleCancel(st, cmd), id, start)
  {
    if Known(st, cmd.id) {
      var o := Lookup(st, cmd.id);
      var b := Canceled(o.id, o.client, o.side, o.price, o.remaining, 0, NoReason);
      EmitLeaves(st, b, id, start);
      WithoutOpen(Emit(st, b), cmd.id, id);
    } else {
      EmitLeaves(st, Rejected(cmd.id, cmd.client, cmd.side, cmd.price, cmd.quantity, UnknownOrder), id, start);
    }
  }

  lemma SizeDownAgrees(st: State, cmd: Command, id: nat, start: nat)
    requires Inv(st) && Agrees(st, id, start)
    requires Known(st, cmd.id) && IsSizeDown(Lookup(st, cmd.id), cmd)
    ensures Agrees(SizeDown(st, cmd), id, start)
  {
    var s := SideOf(st, cmd.id);
    InvFromSide(st, s);
    var q, opp := Orders(st, s), Orders(st, Opposite(s));
    var i := PosOf(q, cmd.id);
    var o := SizedDown(q[i], cmd.quantity);
    OpenQtyUpdate(q, i, o, id);
    assert !HasId(opp, cmd.id);
    M.OpenQtyAbsent(opp, cmd.id);
    var e := Replaced(o.id, o.client, o.side, o.price, cmd.quantity, o.remaining);
    EmitLeaves(WithOrders(st, s, q[i := o]), e, id, start);
  }

  /** An amendment that will remove its order and then be refused as a new one: the new price
      is out of band, or the order is post-only and the new price reaches the other side. */
  ghost predicate RequeueRefused(st: State, cmd: Command) {
    && cmd.kind.Modify? && Known(st, cmd.id) && cmd.quantity != 0
    && var o := Lookup(st, cmd.id);
       var opp := Orders(st, Opposite(o.side));
       && !IsSizeDown(o, cmd)
       && (!InBand(st.cfg, NewPrice(o, cmd))
           || (o.typ.PostOnly? && opp != [] && Crosses(o.side, NewPrice(o, cmd), opp[0].price)))
  }

  ghost function Requeued(st: State, cmd: Command): State
    requires Known(st, cmd.id)
  {
    Without(st, cmd.id).(withdrawn := st.withdrawn + Lookup(st, cmd.id).remaining)
  }

  /** The guard of `RequeueRefused` is exactly the refusal of the replayed order. */
  lemma RefusedExactly(st: State, cmd: Command)
    requires Inv(st) && cmd.kind.Modify? && Known(st, cmd.id) && cmd.quantity != 0
    requires !IsSizeDown(Lookup(st, cmd.id), cmd)
    ensures RequeueRefused(st, cmd) <==> Refusal(Requeued(st, cmd), Replacement(Lookup(st, cmd.id), cmd)) != NoReason
  {
    var o := Lookup(st, cmd.id);
    InvFromSide(st, SideOf(st, cmd.id));
    WithoutKeepsInv(st, cmd.id);
    assert OrderOk(st.cfg, st.arrival, SideOf(st, cmd.id), o);
  }

  /** A refused replay leaves the ledger showing an order that is gone; an accepted one, with
      its own Accepted event, sets it right. */
  lemma RequeueAgrees(st: State, cmd: Command, id: nat, start: nat)
    requires Inv(st) && Agrees(st, id, start) && cmd.kind.Modify? && Known(st, cmd.id) && cmd.quantity != 0
    requires !IsSizeDown(Lookup(st, cmd.id), cmd)
    ensures Agrees(HandleModify(st, cmd), id, start) <==> !(RequeueRefused(st, cmd) && id == cmd.id)
  {
    hide M.LastLeaves, M.OpenQty, M.Run, Settle, SideOk, Apart;
    var gone, repl := Requeued(st, cmd), Replacement(Lookup(st, cmd.id), cmd);
    RefusedExactly(st, cmd);
    WithoutOpen(st, cmd.id, id);
    WithoutKeepsInv(st, cmd.id);
    if id != cmd.id {
      NewAgrees(gone, repl, id, start);
    } else if RequeueRefused(st, cmd) {
      var why := Refusal(gone, repl);
      EmitLeaves(gone, Rejected(repl.id, repl.client, repl.side, repl.price, repl.quantity, why), id, start);
    } else {
      RequeueAcceptedAgrees(gone, repl, start);
    }
  }

  /** An accepted new order is reported right whatever the ledger said of its id before. */
  lemma RequeueAcceptedAgrees(st: State, cmd: Command, start: nat)
    requires Inv(st) && Refusal(st, cmd) == NoReason
    ensures Agrees(HandleNew(st, cmd), cmd.id, start)
  {
    var w := Opening(st, cmd);
    var own := Orders(st, cmd.side);
    InvFromSide(st, cmd.side);
    EmitLeaves(st, Accepted(cmd.id, cmd.client, cmd.side, LimitOf(cmd), cmd.quantity, cmd.quantity), cmd.id, start);
    M.OpenQtyAbsent(own, cmd.id);
    SweepAgrees(w, st.cfg.stp, own, cmd.id, start);
    var z := M.Run(w, st.cfg.stp);
    M.RunKeepsIdentity(w, st.cfg.stp);
    M.GoneWhenAbsent(w, st.cfg.stp, cmd.id);
    M.OpenQtyAbsent(z.opp, cmd.id);
    var a := AfterSweep(st, z);
    assert Orders(a, cmd.side) == own && Orders(a, Opposite(cmd.side)) == z.opp;
    SettleAgrees(a, z.inc, cmd.id, start);
  }

  lemma FinishAgrees(st: State, id: nat, start: nat)
    ensures Agrees(Finish(st), id, start) <==> Agrees(st, id, start)
  {
    EmitLeaves(st, BookChanged(BestPrice(st.bids), TopQty(st.bids), BestPrice(st.asks), TopQty(st.asks)), id, start);
  }

  lemma HandleAgrees(st: State, cmd: Command, id: nat, start: nat)
    requires Inv(st) && Agrees(st, id, start)
    ensures Agrees(Handle(st, cmd), id, start) <==> !(RequeueRefused(st, cmd) && id == cmd.id)
  {
    if cmd.kind.New? {
      EmitLeaves(st, Rejected(cmd.id, cmd.client, cmd.side, cmd.price, cmd.quantity, BookHalted), id, start);
      NewAgrees(st, cmd, id, start);
    } else if cmd.kind.Cancel? {
      CancelAgrees(st, cmd, id, start);
    } else if !Known(st, cmd.id) {
      EmitLeaves(st, Rejected(cmd.id, cmd.client, cmd.side, cmd.price, cmd.quantity, UnknownOrder), id, start);
    } else if cmd.quantity == 0 {
      CancelAgrees(st, MakeCancel(cmd.id, cmd.client), id, start);
    } else if IsSizeDown(Lookup(st, cmd.id), cmd) {
      SizeDownAgrees(st, cmd, id, start);
    } else {
      RequeueAgrees(st, cmd, id, start);
    }
  }

  /** One command keeps a right ledger right, for every order id, if and only if it is not a
      priority-losing amendment that gets refused. */
  lemma ProcessAgrees(st: State, cmd: Command, id: nat)
    requires Inv(st)
    ensures M.LastLeaves(Process(st, cmd).out, id, OpenAt(st, id)) == OpenAt(Process(st, cmd), id)
       <==> !(RequeueRefused(st, cmd) && id == cmd.id)
  {
    hide M.OpenQty, Handle, SideOk, Apart;
    var b := Begin(st, cmd.kind);
    assert Inv(b) && Agrees(b, id, OpenAt(st, id));
    HandleAgrees(b, cmd, id, OpenAt(st, id));
    FinishAgrees(Handle(b, cmd), id, OpenAt(st, id));
  }

  ghost predicate NoRefusedRequeue(st: State, ins: seq<Input>) {
    forall k :: 0 <= k < |ins| && ins[k].Submit? ==> !RequeueRefused(Drive(st, ins[..k]), ins[k].cmd)
  }

  /** An id shows a non-zero size exactly when it rests. */
  lemma OpenIffKnown(st: State, id: nat)
    requires Inv(st)
    ensures OpenAt(st, id) > 0 <==> Known(st, id)
  {
    if Known(st, id) {
      WithoutOpen(st, id, id);
    } else {
      M.OpenQtyAbsent(st.bids, id);
      M.OpenQtyAbsent(st.asks, id);
    }
  }

  /** For every run without a refused requeue, the last reported sizes are, id by id, exactly
      the open sizes of the resting orders; dropping the zeros leaves exactly the resting ids. */
  lemma LedgerIsExact(cfg: Config, ins: seq<Input>, id: nat)
    requires ValidInputs(ins) && NoRefusedRequeue(Initial(cfg), ins)
    ensures var st := Drive(Initial(cfg), ins);
            var shown := M.LastLeaves(Trace(Initial(cfg), ins), id, 0);
            shown == OpenAt(st, id) && (shown > 0 <==> Known(st, id))
  {
    assert Inv(Initial(cfg));
    hide Inv, OpenAt, M.LastLeaves, Drive, Trace, NoRefusedRequeue;
    LedgerFollows(cfg, ins, |ins|, id);
    assert ins[..|ins|] == ins;
    DriveKeepsInv(Initial(cfg), ins);
    OpenIffKnown(Drive(Initial(cfg), ins), id);
  }

  /** The ledger of a run is right for one id. */
  ghost predicate RightAfter(cfg: Config, ins: seq<Input>, id: nat) {
    M.LastLeaves(Trace(Initial(cfg), ins), id, 0) == OpenAt(Drive(Initial(cfg), ins), id)
  }

  /** One more input keeps a right ledger right unless it is a refused re-queue of that id. */
  lemma RightAfterOneMore(cfg: Config, ins: seq<Input>, i: Input, id: nat)
    requires ValidInputs(ins) && RightAfter(cfg, ins, id)
    ensures RightAfter(cfg, ins + [i], id)
       <==> !(i.Submit? && RequeueRefused(Drive(Initial(cfg), ins), i.cmd) && id == i.cmd.id)
  {
    DriveSnoc(Initial(cfg), ins, i);
    DriveKeepsInv(Initial(cfg), ins);
    hide Drive, Trace, M.LastLeaves, OpenAt, Process, RequeueRefused, Inv;
    var st, z := Drive(Initial(cfg), ins), Drive(Initial(cfg), ins + [i]);
    M.LastLeavesConcat(Trace(Initial(cfg), ins), z.out, id, 0);
    if i.Submit? {
      ProcessAgrees(st, i.cmd, id);
    } else {
      HaltReportsNothing(st, i.on, id);
    }
  }

  lemma HaltReportsNothing(st: State, on: bool, id: nat)
    ensures var z := Advance(st, SetHalted(on));
            OpenAt(z, id) == OpenAt(st, id) && M.LastLeaves(z.out, id, OpenAt(st, id)) == OpenAt(st, id)
  {
  }

  lemma {:induction false} LedgerFollows(cfg: Config, ins: seq<Input>, n: nat, id: nat)
    requires ValidInputs(ins) && NoRefusedRequeue(Initial(cfg), ins) && n <= |ins|
    ensures RightAfter(cfg, ins[..n], id)
  {
    if n > 0 {
      hide *;
      assert ins[n - 1].Submit? ==> !RequeueRefused(Drive(Initial(cfg), ins[..n - 1]), ins[n - 1].cmd);
      LedgerFollows(cfg, ins, n - 1, id);
      FollowsOneMore(cfg, ins, n - 1, id);
    }
  }

  lemma FollowsOneMore(cfg: Config, ins: seq<Input>, n: nat, id: nat)
    requires ValidInputs(ins) && n < |ins| && RightAfter(cfg, ins[..n], id)
    ensures RightAfter(cfg, ins[..n + 1], id)
       <==> !(ins[n].Submit? && RequeueRefused(Drive(Initial(cfg), ins[..n]), ins[n].cmd) && id == ins[n].cmd.id)
  {
    hide RightAfter, RequeueRefused, Drive;
    assert ins[..n + 1] == ins[..n] + [ins[n]];
    RightAfterOneMore(cfg, ins[..n], ins[n], id);
  }

  /** The ledger is right for every id after every input of a run. */
  ghost predicate RightThroughout(cfg: Config, ins: seq<Input>) {
    forall n: nat, id: nat :: n <= |ins| ==> RightAfter(cfg, ins[..n], id)
  }

  /** For every run, the ledger is right throughout if and only if no re-queueing amendment is
      refused on the way. */
  lemma LedgerIsRightExactlyWhen(cfg: Config, ins: seq<Input>)
    requires ValidInputs(ins)
    ensures RightThroughout(cfg, ins) <==> NoRefusedRequeue(Initial(cfg), ins)
  {
    hide RightAfter, RequeueRefused, Drive;
    if NoRefusedRequeue(Initial(cfg), ins) {
      forall n: nat, id: nat | n <= |ins| ensures RightAfter(cfg, ins[..n], id) {
        LedgerFollows(cfg, ins, n, id);
      }
    }
    if RightThroughout(cfg, ins) {
      forall k | 0 <= k < |ins| && ins[k].Submit? ensures !RequeueRefused(Drive(Initial(cfg), ins[..k]), ins[k].cmd) {
        var id := ins[k].cmd.id;
        assert RightAfter(cfg, ins[..k], id) && RightAfter(cfg, ins[..k + 1], id);
        FollowsOneMore(cfg, ins, k, id);
      }
    }
  }

  lemma OutOfBandLosesOrder(st: State, o: Order, cmd: Command)
    requires st.bids == [o] && st.asks == [] && !st.cfg.emitBookChanged
    requires cmd == MakeModify(o.id, o.client, cmd.price, cmd.quantity)
    requires cmd.quantity > 0 && cmd.price != NO_PRICE && !InBand(st.cfg, cmd.price) && cmd.price != o.price
    requires !o.typ.Market?
    ensures var z := Process(st, cmd);
            && z.bids == [] && z.asks == []
            && z.out == [Event(st.seqNo + 1, Rejected(o.id, o.client, o.side, cmd.price, cmd.quantity, PriceOutOfBand))]
  {
    hide M.Run, Settle, Sum, TopQty, Marketable;
    assert st.bids[0].id == o.id;
    assert Known(st, o.id) && Lookup(st, o.id) == o;
    assert Without(Begin(st, Modify), o.id).bids == [];
  }

  /** The restriction is real: order 1 rests, and amending it to a price outside the band removes
      it without any event that says so. The ledger still shows its five lots. */
  lemma RefusedRequeueLosesOrder()
    ensures var cfg := Config(1, 100, 10, StpNone, false);
            var ins := [Submit(MakeNew(1, 7, Buy, Limit, 50, 5)), Submit(MakeModify(1, 7, 200, 5))];
            var z := Drive(Initial(cfg), ins);
            && Drive(Initial(cfg), [ins[0]]).bids == [Order(1, 7, 50, 5, 5, 1, Buy, Limit)]
            && z.bids == [] && z.asks == []
            && z.out == [Event(2, Rejected(1, 7, Buy, 200, 5, PriceOutOfBand))]
            && M.LastLeaves(Trace(Initial(cfg), ins), 1, 0) == 5
  {
    var cfg := Config(1, 100, 10, StpNone, false);
    var o := Order(1, 7, 50, 5, 5, 1, Buy, Limit);
    var first, cmd := MakeNew(1, 7, Buy, Limit, 50, 5), MakeModify(1, 7, 200, 5);
    FirstOrderRests(cfg, first);
    TwoInputs(cfg, Submit(first), Submit(cmd));
    hide Drive, Process, Trace;
    var st := Drive(Initial(cfg), [Submit(first)]);
    OutOfBandLosesOrder(st, o, cmd);
    var z := Process(st, cmd);
    assert (st.out + z.out)[..1] == st.out && st.out[..0] == [];
  }
}

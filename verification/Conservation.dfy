/** Whole runs of the engine: reachable books, and conservation of quantity.

    What was acknowledged is traded, withdrawn or still resting, whatever the inputs. */
module Conservation {
  import opened Types
  import opened PriceTime
  import opened EngineSpec
  import M = Matching

  /** What the engine thread can be asked to do. */
  datatype Input = Submit(cmd: Command) | SetHalted(on: bool)

  ghost predicate ValidInputs(ins: seq<Input>) {
    forall i :: 0 <= i < |ins| && ins[i].Submit? ==> ValidCommand(ins[i].cmd)
  }

  ghost function Advance(st: State, i: Input): State {
    match i
    case Submit(cmd) => Process(st, cmd)
    case SetHalted(on) => st.(halted := on, out := [])
  }

  /** The state after a list of inputs. */
  ghost function Drive(st: State, ins: seq<Input>): State {
    if ins == [] then st else Advance(Drive(st, ins[..|ins| - 1]), ins[|ins| - 1])
  }

  /** Every event the engine emits over a list of inputs. */
  ghost function Trace(st: State, ins: seq<Input>): seq<Event> {
    if ins == [] then [] else Trace(st, ins[..|ins| - 1]) + Drive(st, ins).out
  }

  lemma {:induction false} DriveKeepsInv(st: State, ins: seq<Input>)
    requires Inv(st) && ValidInputs(ins)
    ensures Inv(Drive(st, ins))
  {
    if ins != [] {
      var i := ins[|ins| - 1];
      DriveKeepsInv(st, ins[..|ins| - 1]);
      if i.Submit? { ProcessKeepsInv(Drive(st, ins[..|ins| - 1]), i.cmd); }
    }
  }

  /** Every bid is below every ask. */
  ghost predicate Uncrossed(st: State) {
    forall i, j :: 0 <= i < |st.bids| && 0 <= j < |st.asks| ==> st.bids[i].price < st.asks[j].price
  }

  /** Higher bids and lower asks first; at one price, earlier arrivals first. */
  ghost predicate InPriority(st: State) {
    && (forall i, j :: 0 <= i < j < |st.bids| ==>
          || st.bids[i].price > st.bids[j].price
          || (st.bids[i].price == st.bids[j].price && st.bids[i].seqNo < st.bids[j].seqNo))
    && (forall i, j :: 0 <= i < j < |st.asks| ==>
          || st.asks[i].price < st.asks[j].price
          || (st.asks[i].price == st.asks[j].price && st.asks[i].seqNo < st.asks[j].seqNo))
  }

  /** A limit or post-only order of the right side, inside the band, with something left. */
  predicate Restable(cfg: Config, s: Side, o: Order) {
    && o.side == s && (o.typ.Limit? || o.typ.PostOnly?) && 0 < o.remaining <= o.quantity
    && cfg.minPrice <= o.price <= cfg.maxPrice && o.price != NO_PRICE
  }

  ghost predicate OnlyRestable(st: State) {
    && (forall i :: 0 <= i < |st.bids| ==> Restable(st.cfg, Buy, st.bids[i]))
    && (forall i :: 0 <= i < |st.asks| ==> Restable(st.cfg, Sell, st.asks[i]))
  }

  lemma InvInFull(st: State)
    requires Inv(st)
    ensures Uncrossed(st) && InPriority(st) && OnlyRestable(st)
  {
    SidesInPriority(st);
  }

  lemma SidesInPriority(st: State)
    requires Sorted(Buy, st.bids) && Sorted(Sell, st.asks)
    ensures InPriority(st)
  {
    forall i, j | 0 <= i < j < |st.bids|
      ensures || st.bids[i].price > st.bids[j].price
              || (st.bids[i].price == st.bids[j].price && st.bids[i].seqNo < st.bids[j].seqNo)
    {
      assert Ahead(Buy, st.bids[i], st.bids[j]);
    }
    forall i, j | 0 <= i < j < |st.asks|
      ensures || st.asks[i].price < st.asks[j].price
              || (st.asks[i].price == st.asks[j].price && st.asks[i].seqNo < st.asks[j].seqNo)
    {
      assert Ahead(Sell, st.asks[i], st.asks[j]);
    }
  }

  /** In every reachable state every bid is below every ask, and each side is in strict price-time
      order: better prices first, earlier arrivals first within a price. Only limit and post-only
      orders rest, inside the band and with something left. */
  lemma ReachableBookIsUncrossed(cfg: Config, ins: seq<Input>)
    requires ValidInputs(ins)
    ensures var st := Drive(Initial(cfg), ins);
            && st.cfg == cfg && Uncrossed(st) && InPriority(st) && OnlyRestable(st)
            && |st.bids| + |st.asks| <= cfg.maxOrders
  {
    DriveKeepsInv(Initial(cfg), ins);
    DriveKeepsConfig(Initial(cfg), ins);
    InvInFull(Drive(Initial(cfg), ins));
    hide Drive, Uncrossed, InPriority, OnlyRestable;
  }

  lemma {:induction false} DriveKeepsConfig(st: State, ins: seq<Input>)
    ensures Drive(st, ins).cfg == st.cfg
  {
    if ins != [] { DriveKeepsConfig(st, ins[..|ins| - 1]); }
  }

  /** A first order on an empty book comes to rest and is acknowledged, and the top is reported. */
  lemma FirstOrderRests(cfg: Config, cmd: Command)
    requires cmd.kind.New? && cmd.typ.Limit? && cmd.price != NO_PRICE && InBand(cfg, cmd.price)
    requires cmd.id != 0 && cmd.quantity > 0 && cfg.maxOrders > 0 && !cfg.emitBookChanged
    ensures var o := Order(cmd.id, cmd.client, cmd.price, cmd.quantity, cmd.quantity, 1, cmd.side, Limit);
            var st := Drive(Initial(cfg), [Submit(cmd)]);
            && st == Initial(cfg).(bids := if cmd.side.Buy? then [o] else [], asks := if cmd.side.Buy? then [] else [o],
                                   arrival := 1, seqNo := 1, out := st.out, stats := st.stats)
            && st.out == [Event(1, Accepted(cmd.id, cmd.client, cmd.side, cmd.price, cmd.quantity, cmd.quantity))]
  {
    var st := Begin(Initial(cfg), New);
    assert Refusal(st, cmd) == NoReason;
    assert M.Blocked(Opening(st, cmd));
    assert [Submit(cmd)][..0] == [];
    assert Drive(Initial(cfg), []) == Initial(cfg);
    assert Drive(Initial(cfg), [Submit(cmd)]) == Process(Initial(cfg), cmd);
  }

  lemma DriveSnoc(st: State, ins: seq<Input>, i: Input)
    ensures Drive(st, ins + [i]) == Advance(Drive(st, ins), i)
    ensures Trace(st, ins + [i]) == Trace(st, ins) + Drive(st, ins + [i]).out
  {
    hide Process;
    assert (ins + [i])[..|ins|] == ins;
  }

  lemma TwoInputs(cfg: Config, a: Input, b: Input)
    ensures var one := Drive(Initial(cfg), [a]);
            && Drive(Initial(cfg), [a, b]) == Advance(one, b)
            && Trace(Initial(cfg), [a, b]) == one.out + Advance(one, b).out
  {
    hide Process;
    assert [a, b][..1] == [a] && [a][..0] == [];
    assert Trace(Initial(cfg), [a]) == [] + Drive(Initial(cfg), [a]).out;
  }

  // --- conservation -----------------------------------------------------------------------

  datatype Column = Intake | Printed

  function Amount(b: Body, c: Column): nat {
    match c
    case Intake => if b.Accepted? then b.quantity else 0
    case Printed => if b.Trade? then b.quantity else 0
  }

  /** Total quantity acknowledged (Intake) or printed as traded (Printed) in a stream. */
  function Tally(out: seq<Event>, c: Column): nat {
    if out == [] then 0 else Tally(out[..|out| - 1], c) + Amount(out[|out| - 1].body, c)
  }

  lemma TallyAppend(out: seq<Event>, e: Event, c: Column)
    ensures Tally(out + [e], c) == Tally(out, c) + Amount(e.body, c)
  {
    assert (out + [e])[..|out|] == out;
  }

  lemma {:induction false} TallyConcat(a: seq<Event>, b: seq<Event>, c: Column)
    ensures Tally(a + b, c) == Tally(a, c) + Tally(b, c)
  {
    if b == [] {
      assert a + b == a;
    } else {
      var b' := b[..|b| - 1];
      assert a + b == (a + b') + [b[|b| - 1]];
      TallyAppend(a + b', b[|b| - 1], c);
      TallyConcat(a, b', c);
    }
  }

  lemma TallyEmit(w: M.Sweep, b: Body)
    ensures var z := M.Emit(w, b);
            && Tally(z.out, Intake) == Tally(w.out, Intake) + Amount(b, Intake)
            && Tally(z.out, Printed) == Tally(w.out, Printed) + Amount(b, Printed)
  {
    TallyAppend(w.out, Event(w.seqNo + 1, b), Intake);
    TallyAppend(w.out, Event(w.seqNo + 1, b), Printed);
  }

  lemma TallyExecute(w: M.Sweep)
    requires !M.Blocked(w)
    ensures var z := M.Execute(w);
            && Tally(z.out, Intake) == Tally(w.out, Intake)
            && Tally(z.out, Printed) + w.shares == Tally(w.out, Printed) + z.shares
  {
    hide Tally, M.Emit;
    var i, r := w.inc, w.opp[0];
    var n := Min(i.remaining, r.remaining);
    var f1 := Fill(i.id, r.id, i.client, i.side, r.price, n, i.remaining - n, true);
    var f2 := Fill(r.id, i.id, r.client, r.side, r.price, n, r.remaining - n, false);
    TallyEmit(w, f1);
    TallyEmit(M.Emit(w, f1), f2);
    TallyEmit(M.Emit(M.Emit(w, f1), f2), Trade(i.id, r.id, i.side, r.price, n));
  }

  lemma TallyStep(w: M.Sweep, stp: StpMode)
    requires !M.Blocked(w)
    ensures var z := M.Step(w, stp);
            && Tally(z.out, Intake) == Tally(w.out, Intake)
            && Tally(z.out, Printed) + w.shares == Tally(w.out, Printed) + z.shares
  {
    hide Tally, M.Emit;
    var i, r := w.inc, w.opp[0];
    if !M.MeetsOwn(w, stp) {
      hide M.Execute;
      TallyExecute(w);
    } else if stp.CancelAggressor? {
      TallyEmit(w, Canceled(i.id, i.client, i.side, i.price, 0, 0, SelfTradePrevented));
    } else {
      TallyEmit(w, Canceled(r.id, r.client, r.side, r.price, 0, 0, SelfTradePrevented));
    }
  }

  lemma {:induction false} TallyRun(w: M.Sweep, stp: StpMode)
    ensures var z := M.Run(w, stp);
            && Tally(z.out, Intake) == Tally(w.out, Intake)
            && Tally(z.out, Printed) + w.shares == Tally(w.out, Printed) + z.shares
    decreases |w.opp|, w.inc.remaining
  {
    if !M.Blocked(w) {
      TallyStep(w, stp);
      TallyRun(M.Step(w, stp), stp);
    }
  }

  /** Everything that ever came in: traded (once per side), withdrawn, or still resting. */
  function Account(st: State): nat {
    Sum(st.bids) + Sum(st.asks) + 2 * st.stats.sharesTraded + st.withdrawn
  }

  /** `st'` follows `st` with every acknowledged lot accounted for and every share printed. */
  ghost predicate Balanced(st: State, st': State) {
    && Account(st') + Tally(st.out, Intake) == Account(st) + Tally(st'.out, Intake)
    && st'.stats.sharesTraded + Tally(st.out, Printed) == st.stats.sharesTraded + Tally(st'.out, Printed)
  }

  lemma EmitTallies(st: State, b: Body)
    ensures Tally(Emit(st, b).out, Intake) == Tally(st.out, Intake) + Amount(b, Intake)
    ensures Tally(Emit(st, b).out, Printed) == Tally(st.out, Printed) + Amount(b, Printed)
  {
    TallyAppend(st.out, Event(st.seqNo + 1, b), Intake);
    TallyAppend(st.out, Event(st.seqNo + 1, b), Printed);
  }

  lemma SettleBalances(st: State, inc: Order)
    ensures var st' := Settle(st, inc);
            && Account(st') == Account(st) + inc.remaining
            && st'.stats == st.stats
            && Tally(st'.out, Intake) == Tally(st.out, Intake)
            && Tally(st'.out, Printed) == Tally(st.out, Printed)
  {
    hide Tally, Insert, Sum;
    SumInsert(Orders(st, inc.side), inc);
    EmitTallies(st, Canceled(inc.id, inc.client, inc.side, inc.price, inc.remaining, 0, NoReason));
    EmitTallies(st, Canceled(inc.id, inc.client, inc.side, inc.price, inc.remaining, 0, PoolExhausted));
  }

  lemma RejectBalances(st: State, cmd: Command, why: RejectReason)
    ensures Balanced(st, EmitReject(st, cmd, why))
  {
    EmitTallies(st, Rejected(cmd.id, cmd.client, cmd.side, cmd.price, cmd.quantity, why));
  }

  lemma NewBalances(st: State, cmd: Command)
    ensures Balanced(st, HandleNew(st, cmd))
  {
    hide Tally, Sum, Settle, M.Run, Marketable, HasId;
    var why := Refusal(st, cmd);
    if why != NoReason {
      RejectBalances(st, cmd, why);
    } else {
      var w := Opening(st, cmd);
      EmitTallies(st, Accepted(cmd.id, cmd.client, cmd.side, LimitOf(cmd), cmd.quantity, cmd.quantity));
      var z := M.Run(w, st.cfg.stp);
      M.RunConserves(w, st.cfg.stp);
      TallyRun(w, st.cfg.stp);
      M.RunKeepsIdentity(w, st.cfg.stp);
      SettleBalances(AfterSweep(st, z), z.inc);
    }
  }

  lemma WithoutAccounts(st: State, id: nat)
    requires Known(st, id)
    ensures Account(Without(st, id)) + Lookup(st, id).remaining == Account(st)
    ensures Without(st, id).withdrawn == st.withdrawn
    ensures Without(st, id).out == st.out && Without(st, id).stats == st.stats
  {
    var q := Orders(st, SideOf(st, id));
    var i := PosOf(q, id);
    SumSplit(q, i);
    SumConcat(q[..i], q[i + 1..]);
  }

  lemma CancelBalances(st: State, cmd: Command)
    ensures Balanced(st, HandleCancel(st, cmd))
  {
    if Known(st, cmd.id) {
      var o := Lookup(st, cmd.id);
      var b := Canceled(o.id, o.client, o.side, o.price, o.remaining, 0, NoReason);
      EmitTallies(st, b);
      WithoutAccounts(Emit(st, b), cmd.id);
    } else {
      RejectBalances(st, cmd, UnknownOrder);
    }
  }

  lemma SizeDownBalances(st: State, cmd: Command)
    requires Known(st, cmd.id) && IsSizeDown(Lookup(st, cmd.id), cmd)
    ensures Balanced(st, SizeDown(st, cmd))
  {
    var s := SideOf(st, cmd.id);
    var q := Orders(st, s);
    var i := PosOf(q, cmd.id);
    var o := SizedDown(q[i], cmd.quantity);
    var z := q[i := o];
    EmitTallies(WithOrders(st, s, z), Replaced(o.id, o.client, o.side, o.price, cmd.quantity, o.remaining));
    SumSplit(q, i);
    SumSplit(z, i);
    assert z[..i] == q[..i] && z[i + 1..] == q[i + 1..];
  }

  lemma BalancedAfter(st: State, gone: State, st': State)
    requires Account(gone) == Account(st) && gone.out == st.out && gone.stats == st.stats
    requires Balanced(gone, st')
    ensures Balanced(st, st')
  {
  }

  lemma RequeueBalances(st: State, cmd: Command, gone: State, repl: Command)
    requires Known(st, cmd.id)
    requires gone == Without(st, cmd.id).(withdrawn := st.withdrawn + Lookup(st, cmd.id).remaining)
    ensures Balanced(st, HandleNew(gone, repl))
  {
    WithoutAccounts(st, cmd.id);
    NewBalances(gone, repl);
    BalancedAfter(st, gone, HandleNew(gone, repl));
  }

  lemma ModifyBalances(st: State, cmd: Command)
    ensures Balanced(st, HandleModify(st, cmd))
  {
    hide Balanced, HandleNew, HandleCancel, SizeDown;
    if !Known(st, cmd.id) {
      RejectBalances(st, cmd, UnknownOrder);
    } else if cmd.quantity == 0 {
      CancelBalances(st, MakeCancel(cmd.id, cmd.client));
    } else if IsSizeDown(Lookup(st, cmd.id), cmd) {
      SizeDownBalances(st, cmd);
    } else {
      var o := Lookup(st, cmd.id);
      RequeueBalances(st, cmd, Without(st, cmd.id).(withdrawn := st.withdrawn + o.remaining), Replacement(o, cmd));
    }
  }

  lemma HandleBalances(st: State, cmd: Command)
    ensures Balanced(st, Handle(st, cmd))
  {
    hide Balanced, HandleNew, HandleCancel, HandleModify;
    match cmd.kind
    case New =>
      if st.halted { RejectBalances(st, cmd, BookHalted); } else { NewBalances(st, cmd); }
    case Cancel => CancelBalances(st, cmd);
    case Modify => ModifyBalances(st, cmd);
  }

  lemma FinishBalances(st: State)
    ensures Balanced(st, Finish(st))
  {
    EmitTallies(st, BookChanged(BestPrice(st.bids), TopQty(st.bids), BestPrice(st.asks), TopQty(st.asks)));
  }

  /** Each command adds to the account exactly the quantity it acknowledges. */
  lemma ProcessBalances(st: State, cmd: Command)
    ensures Balanced(st.(out := []), Process(st, cmd))
  {
    var b := Begin(st, cmd.kind);
    HandleBalances(b, cmd);
    FinishBalances(Handle(b, cmd));
  }

  /** Conservation over any run: everything ever acknowledged has been traded (counted once on
      each side), withdrawn, or is still resting, and the traded count is what was printed. */
  lemma {:induction false} QuantityIsConserved(cfg: Config, ins: seq<Input>)
    ensures var st, t := Drive(Initial(cfg), ins), Trace(Initial(cfg), ins);
            && Tally(t, Intake) == 2 * Tally(t, Printed) + Sum(st.bids) + Sum(st.asks) + st.withdrawn
            && st.stats.sharesTraded == Tally(t, Printed)
  {
    if ins != [] {
      var prev := ins[..|ins| - 1];
      var st, i := Drive(Initial(cfg), prev), ins[|ins| - 1];
      QuantityIsConserved(cfg, prev);
      if i.Submit? { ProcessBalances(st, i.cmd); }
      TallyConcat(Trace(Initial(cfg), prev), Drive(Initial(cfg), ins).out, Intake);
      TallyConcat(Trace(Initial(cfg), prev), Drive(Initial(cfg), ins).out, Printed);
    }
  }
}

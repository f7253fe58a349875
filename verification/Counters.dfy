/** The engine's counters count what they are named after, over any run. */
module Counters {
  import opened Types
  import opened PriceTime
  import opened EngineSpec
  import opened Conservation
  import M = Matching

  /** The events of a stream that a counter counts. */
  datatype Kind = Refusals | Executions

  predicate Is(b: Body, k: Kind) {
    match k
    case Refusals => b.Rejected?
    case Executions => b.Trade?
  }

  function Number(out: seq<Event>, k: Kind): nat {
    if out == [] then 0 else Number(out[..|out| - 1], k) + if Is(out[|out| - 1].body, k) then 1 else 0
  }

  lemma NumberEmit(out: seq<Event>, e: Event, k: Kind)
    ensures Number(out + [e], k) == Number(out, k) + if Is(e.body, k) then 1 else 0
  {
    assert (out + [e])[..|out|] == out;
  }

  lemma {:induction false} NumberConcat(a: seq<Event>, b: seq<Event>, k: Kind)
    ensures Number(a + b, k) == Number(a, k) + Number(b, k)
  {
    if b == [] {
      assert a + b == a;
    } else {
      var b' := b[..|b| - 1];
      assert a + b == (a + b') + [b[|b| - 1]];
      NumberEmit(a + b', b[|b| - 1], k);
      NumberConcat(a, b', k);
    }
  }

  function Counter(s: Stats, k: Kind): nat {
    match k
    case Refusals => s.rejects
    case Executions => s.trades
  }

  /** From `st` to `z` the counter has moved by the number of its events. */
  ghost predicate Counted(st: State, z: State, k: Kind) {
    Counter(z.stats, k) + Number(st.out, k) == Counter(st.stats, k) + Number(z.out, k)
  }

  lemma StepCounts(w: M.Sweep, stp: StpMode)
    requires !M.Blocked(w)
    ensures var z := M.Step(w, stp);
            && Number(z.out, Executions) + w.trades == Number(w.out, Executions) + z.trades
            && Number(z.out, Refusals) == Number(w.out, Refusals)
  {
    var z := M.Step(w, stp);
    if M.MeetsOwn(w, stp) {
      NumberEmit(w.out, z.out[|w.out|], Executions);
      NumberEmit(w.out, z.out[|w.out|], Refusals);
    } else {
      var i, r := w.inc, w.opp[0];
      M.ExecuteIs(w);
      hide M.Execute;
      LegsNumber(w.out, M.Legs(i, r, Min(i.remaining, r.remaining), w.seqNo));
    }
  }

  lemma LegsNumber(out: seq<Event>, legs: seq<Event>)
    requires |legs| == 3 && legs[0].body.Fill? && legs[1].body.Fill? && legs[2].body.Trade?
    ensures Number(out + legs, Executions) == Number(out, Executions) + 1
    ensures Number(out + legs, Refusals) == Number(out, Refusals)
  {
    forall k: Kind ensures Number(out + legs, k) == Number(out, k) + if k.Executions? then 1 else 0 {
      NumberEmit(out, legs[0], k);
      NumberEmit(out + [legs[0]], legs[1], k);
      NumberEmit(out + [legs[0]] + [legs[1]], legs[2], k);
      assert out + [legs[0]] + [legs[1]] + [legs[2]] == out + legs;
    }
  }

  lemma {:induction false} RunCounts(w: M.Sweep, stp: StpMode)
    ensures var z := M.Run(w, stp);
            && Number(z.out, Executions) + w.trades == Number(w.out, Executions) + z.trades
            && Number(z.out, Refusals) == Number(w.out, Refusals)
    decreases |w.opp|, w.inc.remaining
  {
    if !M.Blocked(w) {
      StepCounts(w, stp);
      RunCounts(M.Step(w, stp), stp);
    }
  }

  lemma SettleCounts(st: State, inc: Order, k: Kind)
    ensures Counted(st, Settle(st, inc), k)
  {
    hide Number, Insert;
    var z := Settle(st, inc);
    if z.out != st.out { NumberEmit(st.out, z.out[|st.out|], k); }
  }

  lemma RejectCounts(st: State, cmd: Command, why: RejectReason, k: Kind)
    ensures Counted(st, EmitReject(st, cmd, why), k)
  {
    NumberEmit(st.out, EmitReject(st, cmd, why).out[|st.out|], k);
  }

  lemma NewCounts(st: State, cmd: Command, k: Kind)
    ensures Counted(st, HandleNew(st, cmd), k)
  {
    var why := Refusal(st, cmd);
    hide Refusal, Number;
    if why != NoReason {
      RejectCounts(st, cmd, why, k);
    } else {
      var w := Opening(st, cmd);
      var z := M.Run(w, st.cfg.stp);
      NumberEmit(st.out, w.out[|st.out|], k);
      RunCounts(w, st.cfg.stp);
      hide M.Run, Settle;
      SettleCounts(AfterSweep(st, z), z.inc, k);
    }
  }

  lemma CancelCounts(st: State, cmd: Command, k: Kind)
    ensures Counted(st, HandleCancel(st, cmd), k)
  {
    hide Number, HasId, PosOf, RemoveAt;
    NumberEmit(st.out, HandleCancel(st, cmd).out[|st.out|], k);
  }

  lemma HandleCounts(st: State, cmd: Command, k: Kind)
    ensures Counted(st, Handle(st, cmd), k)
  {
    hide Number, HandleNew, HandleCancel, HasId, PosOf, RemoveAt;
    match cmd.kind
    case New =>
      if st.halted { RejectCounts(st, cmd, BookHalted, k); } else { NewCounts(st, cmd, k); }
    case Cancel => CancelCounts(st, cmd, k);
    case Modify => ModifyCounts(st, cmd, k);
  }

  lemma ModifyCounts(st: State, cmd: Command, k: Kind)
    ensures Counted(st, HandleModify(st, cmd), k)
  {
    hide Number, HandleNew, HandleCancel, HasId, PosOf, RemoveAt;
    if !Known(st, cmd.id) {
      RejectCounts(st, cmd, UnknownOrder, k);
    } else if cmd.quantity == 0 {
      CancelCounts(st, MakeCancel(cmd.id, cmd.client), k);
    } else {
      var o := Lookup(st, cmd.id);
      if IsSizeDown(o, cmd) {
        NumberEmit(st.out, SizeDown(st, cmd).out[|st.out|], k);
      } else {
        NewCounts(Without(st, cmd.id).(withdrawn := st.withdrawn + o.remaining), Replacement(o, cmd), k);
      }
    }
  }

  lemma FinishCounts(h: State, k: Kind)
    ensures Counted(h, Finish(h), k)
  {
    hide Number, TopQty, BestPrice;
    var z := Finish(h);
    if z.out != h.out { NumberEmit(h.out, z.out[|h.out|], k); }
  }

  lemma ProcessCounts(st: State, cmd: Command, k: Kind)
    ensures Counter(Process(st, cmd).stats, k) == Counter(st.stats, k) + Number(Process(st, cmd).out, k)
  {
    var b := Begin(st, cmd.kind);
    HandleCounts(b, cmd, k);
    hide Handle, Finish;
    FinishCounts(Handle(b, cmd), k);
  }

  // --- counters of commands and the peak ------------------------------------------------------------

  /** What handling a command leaves to the bookkeeping around it. */
  ghost predicate SameTotals(a: Stats, b: Stats) {
    && a.commands == b.commands && a.newOrders == b.newOrders && a.cancelOrders == b.cancelOrders
    && a.modifyOrders == b.modifyOrders && a.peakResting == b.peakResting
  }

  lemma NewKeepsTotals(st: State, cmd: Command)
    ensures SameTotals(HandleNew(st, cmd).stats, st.stats)
  {
    hide Refusal, M.Run, Insert, Opening;
  }

  lemma CancelKeepsTotals(st: State, cmd: Command)
    ensures SameTotals(HandleCancel(st, cmd).stats, st.stats)
  {
    hide HasId, PosOf, RemoveAt;
  }

  lemma SizeDownKeepsTotals(st: State, cmd: Command)
    requires Known(st, cmd.id) && IsSizeDown(Lookup(st, cmd.id), cmd)
    ensures SizeDown(st, cmd).stats == st.stats
  {
    hide HasId, PosOf;
  }

  lemma ModifyKeepsTotals(st: State, cmd: Command)
    ensures SameTotals(HandleModify(st, cmd).stats, st.stats)
  {
    hide HandleNew, HandleCancel, SizeDown, Known, SideOf, PosOf, RemoveAt;
    if Known(st, cmd.id) && cmd.quantity > 0 {
      var o := Lookup(st, cmd.id);
      if IsSizeDown(o, cmd) {
        SizeDownKeepsTotals(st, cmd);
      } else {
        NewKeepsTotals(Without(st, cmd.id).(withdrawn := st.withdrawn + o.remaining), Replacement(o, cmd));
      }
    } else {
      CancelKeepsTotals(st, MakeCancel(cmd.id, cmd.client));
    }
  }

  lemma HandleKeepsTotals(st: State, cmd: Command)
    ensures SameTotals(Handle(st, cmd).stats, st.stats)
  {
    NewKeepsTotals(st, cmd);
    CancelKeepsTotals(st, cmd);
    ModifyKeepsTotals(st, cmd);
    hide HandleNew, HandleCancel, HandleModify;
  }

  /** Number of submitted commands of a kind. */
  function Submitted(ins: seq<Input>, kind: CommandKind): nat {
    if ins == [] then 0
    else
      var i := ins[|ins| - 1];
      Submitted(ins[..|ins| - 1], kind) + if i.Submit? && i.cmd.kind == kind then 1 else 0
  }

  /** The most orders at rest after any of the inputs so far. */
  ghost function Peak(cfg: Config, ins: seq<Input>): nat {
    if ins == [] then 0 else Max(Peak(cfg, ins[..|ins| - 1]), Resting(Drive(Initial(cfg), ins)))
  }

  /** The peak bounds every moment of the run and is reached at one. */
  lemma {:induction false} PeakIsMost(cfg: Config, ins: seq<Input>) returns (k: nat)
    ensures k <= |ins| && Peak(cfg, ins) == Resting(Drive(Initial(cfg), ins[..k]))
    ensures forall n: nat :: n <= |ins| ==> Resting(Drive(Initial(cfg), ins[..n])) <= Peak(cfg, ins)
  {
    hide Advance;
    assert ins[..|ins|] == ins;
    if ins == [] {
      k := 0;
    } else {
      var prev := ins[..|ins| - 1];
      k := PeakIsMost(cfg, prev);
      assert forall n: nat :: n <= |prev| ==> prev[..n] == ins[..n];
      if Peak(cfg, ins) != Peak(cfg, prev) { k := |ins|; }
    }
  }

  lemma ProcessTotals(st: State, cmd: Command)
    ensures var s, z := st.stats, Process(st, cmd);
            && z.stats.commands == s.commands + 1
            && z.stats.newOrders == s.newOrders + (if cmd.kind.New? then 1 else 0)
            && z.stats.cancelOrders == s.cancelOrders + (if cmd.kind.Cancel? then 1 else 0)
            && z.stats.modifyOrders == s.modifyOrders + (if cmd.kind.Modify? then 1 else 0)
            && z.stats.peakResting == Max(s.peakResting, Resting(z))
  {
    HandleKeepsTotals(Begin(st, cmd.kind), cmd);
    hide Handle, TopQty, BestPrice;
  }

  lemma {:induction false} CommandsCounted(cfg: Config, ins: seq<Input>)
    ensures var s := Drive(Initial(cfg), ins).stats;
            && s.newOrders == Submitted(ins, New) && s.cancelOrders == Submitted(ins, Cancel)
            && s.modifyOrders == Submitted(ins, Modify)
            && s.commands == s.newOrders + s.cancelOrders + s.modifyOrders
            && s.peakResting == Peak(cfg, ins)
  {
    if ins != [] {
      var prev, i := ins[..|ins| - 1], ins[|ins| - 1];
      CommandsCounted(cfg, prev);
      PeakSoFar(cfg, prev);
      if i.Submit? { ProcessTotals(Drive(Initial(cfg), prev), i.cmd); }
      hide Process;
    }
  }

  lemma {:induction false} EventsCounted(cfg: Config, ins: seq<Input>, k: Kind)
    ensures Counter(Drive(Initial(cfg), ins).stats, k) == Number(Trace(Initial(cfg), ins), k)
  {
    if ins != [] {
      var prev, i := ins[..|ins| - 1], ins[|ins| - 1];
      EventsCounted(cfg, prev, k);
      NumberConcat(Trace(Initial(cfg), prev), Drive(Initial(cfg), ins).out, k);
      if i.Submit? { ProcessCounts(Drive(Initial(cfg), prev), i.cmd, k); }
      hide Process;
    }
  }

  /** Over any run every counter is the number of what it is named after: commands by kind,
      rejections and executions reported, and the most orders ever at rest. */
  lemma CountersAreRight(cfg: Config, ins: seq<Input>)
    ensures var s, t := Drive(Initial(cfg), ins).stats, Trace(Initial(cfg), ins);
            && s.newOrders == Submitted(ins, New) && s.cancelOrders == Submitted(ins, Cancel)
            && s.modifyOrders == Submitted(ins, Modify)
            && s.commands == s.newOrders + s.cancelOrders + s.modifyOrders
            && s.rejects == Number(t, Refusals) && s.trades == Number(t, Executions)
            && s.peakResting == Peak(cfg, ins)
  {
    hide Drive, Trace, Submitted, Number, Peak;
    CommandsCounted(cfg, ins);
    EventsCounted(cfg, ins, Refusals);
    EventsCounted(cfg, ins, Executions);
  }

  lemma PeakSoFar(cfg: Config, ins: seq<Input>)
    ensures Resting(Drive(Initial(cfg), ins)) <= Peak(cfg, ins)
  {
    hide Advance;
  }
}

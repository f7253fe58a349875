/** What a listener can rely on from the event stream of a whole run: sequence numbers without
    gaps, and top-of-book prices that are always current. */
module Feed {
  import opened Types
  import opened PriceTime
  import opened EngineSpec
  import opened Conservation
  import M = Matching

  // --- commands that say one thing, and commands handled as a new order ----------------------

  /** A new order, or an amendment that is replayed as one. */
  ghost predicate Submits(st: State, cmd: Command) {
    || (cmd.kind.New? && !st.halted)
    || (cmd.kind.Modify? && Known(st, cmd.id) && cmd.quantity != 0 && !IsSizeDown(Lookup(st, cmd.id), cmd))
  }

  /** The new order that a command is handled as, and the book it meets. */
  lemma HandledAsNew(st: State, cmd: Command) returns (s: State, c: Command)
    requires Submits(st, cmd)
    ensures Handle(st, cmd) == HandleNew(s, c)
    ensures s.cfg == st.cfg && s.out == st.out && s.seqNo == st.seqNo
    ensures s.lastBid == st.lastBid && s.lastAsk == st.lastAsk
    ensures Inv(st) ==> Inv(s)
  {
    hide HandleNew, HasId, PosOf, RemoveAt, Inv;
    if cmd.kind.New? {
      s, c := st, cmd;
    } else {
      var o := Lookup(st, cmd.id);
      s, c := Without(st, cmd.id).(withdrawn := st.withdrawn + o.remaining), Replacement(o, cmd);
      if Inv(st) { ReplacementIsValid(st, cmd); }
    }
  }

  /** `z` is what `st` becomes by one event that is no execution and no report of the top. */
  ghost predicate SaysOne(st: State, z: State, b: Body) {
    && z.out == st.out + [Event(st.seqNo + 1, b)] && z.seqNo == st.seqNo + 1
    && !b.Trade? && !b.Fill? && !b.BookChanged?
    && z.lastBid == st.lastBid && z.lastAsk == st.lastAsk
  }

  lemma CancelSaysOne(st: State, cmd: Command) returns (b: Body)
    ensures SaysOne(st, HandleCancel(st, cmd), b)
  {
    hide HasId, PosOf, RemoveAt;
    b := HandleCancel(st, cmd).out[|st.out|].body;
  }

  lemma OtherwiseSaysOne(st: State, cmd: Command) returns (b: Body)
    requires !Submits(st, cmd)
    ensures SaysOne(st, Handle(st, cmd), b)
  {
    hide HasId, PosOf, RemoveAt, HandleCancel;
    if cmd.kind.Cancel? {
      b := CancelSaysOne(st, cmd);
    } else if cmd.kind.Modify? && Known(st, cmd.id) && cmd.quantity == 0 {
      b := CancelSaysOne(st, MakeCancel(cmd.id, cmd.client));
    } else {
      b := Handle(st, cmd).out[|st.out|].body;
    }
  }

  // --- sequence numbers ----------------------------------------------------------------------

  /** The events are numbered `from + 1`, `from + 2`, ... up to `to`. */
  ghost predicate Numbered(out: seq<Event>, from: nat, to: nat) {
    |out| == to - from && forall i :: 0 <= i < |out| ==> out[i].seqNo == from + 1 + i
  }

  lemma {:induction false} RunIsNumbered(w: M.Sweep, stp: StpMode, from: nat)
    requires from <= w.seqNo && Numbered(w.out, from, w.seqNo)
    ensures var z := M.Run(w, stp); from <= z.seqNo && Numbered(z.out, from, z.seqNo)
    decreases |w.opp|, w.inc.remaining
  {
    if !M.Blocked(w) {
      RunIsNumbered(M.Step(w, stp), stp, from);
    }
  }

  lemma SettleIsNumbered(st: State, inc: Order, from: nat)
    requires from <= st.seqNo && Numbered(st.out, from, st.seqNo)
    ensures var r := Settle(st, inc); from <= r.seqNo && Numbered(r.out, from, r.seqNo)
  {
    hide Insert;
  }

  lemma NewIsNumbered(st: State, cmd: Command, from: nat)
    requires from <= st.seqNo && Numbered(st.out, from, st.seqNo)
    ensures var r := HandleNew(st, cmd); from <= r.seqNo && Numbered(r.out, from, r.seqNo)
  {
    if Refusal(st, cmd) == NoReason {
      RunIsNumbered(Opening(st, cmd), st.cfg.stp, from);
      hide M.Run, Refusal, Settle;
      var z := M.Run(Opening(st, cmd), st.cfg.stp);
      SettleIsNumbered(AfterSweep(st, z), z.inc, from);
    }
  }

  lemma HandleIsNumbered(st: State, cmd: Command, from: nat)
    requires from <= st.seqNo && Numbered(st.out, from, st.seqNo)
    ensures var r := Handle(st, cmd); from <= r.seqNo && Numbered(r.out, from, r.seqNo)
  {
    hide Handle, HandleNew, Submits;
    if Submits(st, cmd) {
      var s, c := HandledAsNew(st, cmd);
      NewIsNumbered(s, c, from);
    } else {
      var b := OtherwiseSaysOne(st, cmd);
    }
  }

  lemma ProcessIsNumbered(st: State, cmd: Command)
    ensures var r := Process(st, cmd); st.seqNo <= r.seqNo && Numbered(r.out, st.seqNo, r.seqNo)
  {
    hide Handle, TopQty;
    HandleIsNumbered(Begin(st, cmd.kind), cmd, st.seqNo);
  }

  /** Over any run from the start the events carry 1, 2, 3, ... with no gap and no repeat. */
  lemma {:induction false} SequenceHasNoGaps(cfg: Config, ins: seq<Input>)
    ensures Numbered(Trace(Initial(cfg), ins), 0, Drive(Initial(cfg), ins).seqNo)
  {
    if ins != [] {
      var st := Drive(Initial(cfg), ins[..|ins| - 1]);
      SequenceHasNoGaps(cfg, ins[..|ins| - 1]);
      match ins[|ins| - 1] {
        case Submit(cmd) => ProcessIsNumbered(st, cmd);
        case SetHalted(_) =>
      }
      hide Process;
    }
  }

  // --- top of book -----------------------------------------------------------------------------

  datatype Top = Top(bid: int, ask: int)

  const NO_TOP: Top := Top(NO_PRICE, NO_PRICE)

  /** The prices a listener remembers: those of the last top-of-book report. */
  function Remembered(out: seq<Event>, start: Top): Top {
    if out == [] then start
    else
      var b := out[|out| - 1].body;
      if b.BookChanged? then Top(b.bidPx, b.askPx) else Remembered(out[..|out| - 1], start)
  }

  ghost predicate Quiet(out: seq<Event>) {
    forall i :: 0 <= i < |out| ==> !out[i].body.BookChanged?
  }

  lemma {:induction false} QuietRemembers(out: seq<Event>, start: Top)
    requires Quiet(out)
    ensures Remembered(out, start) == start
  {
    if out != [] { QuietRemembers(out[..|out| - 1], start); }
  }

  lemma {:induction false} RememberedConcat(a: seq<Event>, b: seq<Event>, start: Top)
    ensures Remembered(a + b, start) == Remembered(b, Remembered(a, start))
  {
    if b == [] {
      assert a + b == a;
    } else {
      assert (a + b)[..|a + b| - 1] == a + b[..|b| - 1];
      RememberedConcat(a, b[..|b| - 1], start);
    }
  }

  lemma {:induction false} RunIsQuiet(w: M.Sweep, stp: StpMode)
    requires Quiet(w.out)
    ensures Quiet(M.Run(w, stp).out)
    decreases |w.opp|, w.inc.remaining
  {
    if !M.Blocked(w) {
      RunIsQuiet(M.Step(w, stp), stp);
    }
  }

  lemma NewIsQuiet(st: State, cmd: Command)
    requires Quiet(st.out)
    ensures var r := HandleNew(st, cmd); Quiet(r.out) && r.lastBid == st.lastBid && r.lastAsk == st.lastAsk
  {
    if Refusal(st, cmd) == NoReason {
      RunIsQuiet(Opening(st, cmd), st.cfg.stp);
      hide M.Run, Refusal, Settle;
      var z := M.Run(Opening(st, cmd), st.cfg.stp);
      SettleIsQuiet(AfterSweep(st, z), z.inc);
    }
  }

  lemma SettleIsQuiet(st: State, inc: Order)
    requires Quiet(st.out)
    ensures var r := Settle(st, inc); Quiet(r.out) && r.lastBid == st.lastBid && r.lastAsk == st.lastAsk
  {
    hide Insert;
  }

  lemma HandleIsQuiet(st: State, cmd: Command)
    requires Quiet(st.out)
    ensures var r := Handle(st, cmd); Quiet(r.out) && r.lastBid == st.lastBid && r.lastAsk == st.lastAsk
  {
    hide Handle, HandleNew, Submits;
    if Submits(st, cmd) {
      var s, c := HandledAsNew(st, cmd);
      NewIsQuiet(s, c);
    } else {
      var b := OtherwiseSaysOne(st, cmd);
    }
  }

  function TopOf(st: State): Top {
    Top(BestPrice(st.bids), BestPrice(st.asks))
  }

  function LastTop(st: State): Top {
    Top(st.lastBid, st.lastAsk)
  }

  lemma ProcessReportsTop(st: State, cmd: Command)
    requires st.cfg.emitBookChanged
    ensures var r := Process(st, cmd);
            LastTop(r) == TopOf(r) && Remembered(r.out, LastTop(st)) == LastTop(r)
  {
    var h := Handle(Begin(st, cmd.kind), cmd);
    HandleIsQuiet(Begin(st, cmd.kind), cmd);
    QuietRemembers(h.out, LastTop(st));
    hide Handle, TopQty;
    assert NotifyTop(h).out != h.out ==> NotifyTop(h).out[..|h.out|] == h.out;
  }

  /** A listener who remembers the last reported best prices always has the current ones. */
  lemma {:induction false} ListenerKnowsTheTop(cfg: Config, ins: seq<Input>)
    requires cfg.emitBookChanged
    ensures var st := Drive(Initial(cfg), ins);
            && Remembered(Trace(Initial(cfg), ins), NO_TOP) == TopOf(st)
            && LastTop(st) == TopOf(st) && st.cfg == cfg
  {
    if ins != [] {
      var st := Drive(Initial(cfg), ins[..|ins| - 1]);
      var t := Trace(Initial(cfg), ins[..|ins| - 1]);
      ListenerKnowsTheTop(cfg, ins[..|ins| - 1]);
      RememberedConcat(t, Drive(Initial(cfg), ins).out, NO_TOP);
      match ins[|ins| - 1] {
        case Submit(cmd) => ProcessReportsTop(st, cmd);
        case SetHalted(_) =>
      }
      hide Process;
    }
  }

  /** The best price of a side is none if it is empty, else that of some order, and no order beats it. */
  lemma BestPriceIs(st: State, s: Side)
    requires Inv(st)
    ensures var q := Orders(st, s);
            && (q == [] ==> BestPrice(q) == NO_PRICE)
            && (q != [] ==> exists i :: 0 <= i < |q| && q[i].price == BestPrice(q))
            && (forall i :: 0 <= i < |q| ==> if s.Buy? then q[i].price <= BestPrice(q) else q[i].price >= BestPrice(q))
  {
    InvFromSide(st, s);
    TopQtyIs(s, Orders(st, s));
  }

  /** The report of the top after a command, if a best price has moved. */
  function Report(st: State): Body {
    var bid, ask := BestPrice(st.bids), BestPrice(st.asks);
    BookChanged(bid, SizeAt(st.bids, bid), ask, SizeAt(st.asks, ask))
  }

  /** Over any run, a command is followed by a report of the top exactly when reports are on and a
      best price has moved; it comes last and gives the best prices and the sizes at them. */
  lemma TopIsReportedExactly(cfg: Config, ins: seq<Input>, cmd: Command)
    requires ValidInputs(ins) && ValidCommand(cmd)
    ensures var st := Drive(Initial(cfg), ins);
            var z := Process(st, cmd);
            if cfg.emitBookChanged && TopOf(z) != TopOf(st) then
              z.out != [] && z.out[|z.out| - 1].body == Report(z) && Quiet(z.out[..|z.out| - 1])
            else Quiet(z.out)
  {
    var st := Drive(Initial(cfg), ins);
    DriveKeepsConfig(Initial(cfg), ins);
    DriveKeepsInv(Initial(cfg), ins);
    BeginKeepsInv(st, cmd.kind);
    if cfg.emitBookChanged { ListenerKnowsTheTop(cfg, ins); }
    hide Drive, Trace, Remembered, Inv;
    ReportAfter(st, cmd);
  }

  lemma ReportAfter(st: State, cmd: Command)
    requires Inv(st) && ValidCommand(cmd) && (st.cfg.emitBookChanged ==> LastTop(st) == TopOf(st))
    ensures var z := Process(st, cmd);
            if st.cfg.emitBookChanged && TopOf(z) != TopOf(st) then
              z.out != [] && z.out[|z.out| - 1].body == Report(z) && Quiet(z.out[..|z.out| - 1])
            else Quiet(z.out)
  {
    var b := Begin(st, cmd.kind);
    BeginKeepsInv(st, cmd.kind);
    HandleKeepsInv(b, cmd);
    HandleIsQuiet(b, cmd);
    var h := Handle(b, cmd);
    InvFromSide(h, Buy);
    TopQtyIs(Buy, h.bids);
    TopQtyIs(Sell, h.asks);
    hide Handle, TopQty, SizeAt, Inv;
    assert SizeAt([], NO_PRICE) == 0;
  }

  // --- executions --------------------------------------------------------------------------------

  /** An acknowledgement whose order may take part in the print `t` as the taker. */
  predicate Acknowledges(a: Body, t: Body)
    requires t.Trade?
  {
    a.Accepted? && a.id == t.id && a.side == t.side && Crosses(a.side, a.price, t.price)
  }

  /** The two fill legs agree with the print: mirrored ids, opposite sides, one price and size. */
  predicate Legs(f: Body, g: Body, t: Body)
    requires t.Trade?
  {
    && f.Fill? && f.aggressor && f.id == t.id && f.contra == t.contra && f.side == t.side
    && g.Fill? && !g.aggressor && g.id == t.contra && g.contra == t.id && g.side == Opposite(t.side)
    && f.price == g.price == t.price && f.quantity == g.quantity == t.quantity
  }

  /** No order `id` is acknowledged strictly between positions `j` and `i`. */
  ghost predicate NotSince(out: seq<Event>, id: nat, j: int, i: int) {
    forall k :: j < k < i && 0 <= k < |out| ==> !(out[k].body.Accepted? && out[k].body.id == id)
  }

  /** The print at `i` follows its two legs, and the last acknowledgement of its taker before it
      has the print's side and a limit that the print respects. */
  ghost predicate Reported(out: seq<Event>, i: nat)
    requires i < |out| && out[i].body.Trade?
  {
    && i >= 2 && Legs(out[i - 2].body, out[i - 1].body, out[i].body)
    && exists j :: 0 <= j < i && Acknowledges(out[j].body, out[i].body) && NotSince(out, out[i].body.id, j, i)
  }

  /** The fill leg at `i` is followed by its print. */
  ghost predicate Printed(out: seq<Event>, i: nat)
    requires i < |out| && out[i].body.Fill?
  {
    var k := if out[i].body.aggressor then i + 2 else i + 1;
    k < |out| && out[k].body.Trade?
  }

  /** Every print is reported in full and every fill leg belongs to a print. */
  ghost predicate WellReported(out: seq<Event>) {
    && (forall i: nat :: i < |out| && out[i].body.Trade? ==> Reported(out, i))
    && (forall i: nat :: i < |out| && out[i].body.Fill? ==> Printed(out, i))
  }

  /** Joining well-reported streams gives one. */
  lemma ReportsConcat(a: seq<Event>, b: seq<Event>)
    requires WellReported(a) && WellReported(b)
    ensures WellReported(a + b)
  {
    var c := a + b;
    forall i: nat | i < |c| && c[i].body.Trade? ensures Reported(c, i) {
      if i < |a| {
        var j :| 0 <= j < i && Acknowledges(a[j].body, a[i].body) && NotSince(a, a[i].body.id, j, i);
        assert c[j] == a[j] && NotSince(c, c[i].body.id, j, i);
      } else {
        var k := i - |a|;
        assert Reported(b, k);
        var j :| 0 <= j < k && Acknowledges(b[j].body, b[k].body) && NotSince(b, b[k].body.id, j, k);
        assert c[|a| + j] == b[j];
        forall n | |a| + j < n < i ensures !(c[n].body.Accepted? && c[n].body.id == c[i].body.id) {
          assert c[n] == b[n - |a|];
        }
        assert NotSince(c, c[i].body.id, |a| + j, i);
      }
    }
    forall i: nat | i < |c| && c[i].body.Fill? ensures Printed(c, i) {
      if i < |a| {
        assert Printed(a, i);
      } else {
        assert Printed(b, i - |a|);
      }
    }
  }

  /** Events that are neither prints nor fills change nothing. */
  lemma ReportsEmit(out: seq<Event>, e: Event)
    requires WellReported(out) && !e.body.Trade? && !e.body.Fill?
    ensures WellReported(out + [e])
  {
    assert WellReported([e]);
    ReportsConcat(out, [e]);
  }

  /** The aggressor's acknowledgement is on record, and everyone opposite is on the other side. */
  ghost predicate OnRecord(w: M.Sweep, j: nat) {
    && j < |w.out| && w.out[j].body.Accepted? && w.out[j].body.id == w.inc.id
    && w.out[j].body.side == w.inc.side && w.out[j].body.price == w.inc.price
    && (w.inc.typ.Market? ==> w.inc.price == NO_PRICE)
    && NotSince(w.out, w.inc.id, j, |w.out|)
    && forall i :: 0 <= i < |w.opp| ==> w.opp[i].side == Opposite(w.inc.side)
  }

  lemma ExecutionIsReported(w: M.Sweep, j: nat)
    requires !M.Blocked(w) && OnRecord(w, j) && WellReported(w.out)
    ensures WellReported(M.Execute(w).out) && OnRecord(M.Execute(w), j)
  {
    M.ExecuteIs(w);
    hide M.Execute;
    var r := w.opp[0];
    ReportsLegs(w.out, M.Legs(w.inc, r, Min(w.inc.remaining, r.remaining), w.seqNo), j);
  }

  /** Two legs and their print, by a taker whose acknowledgement at `j` is still the latest. */
  lemma ReportsLegs(out: seq<Event>, legs: seq<Event>, j: nat)
    requires WellReported(out) && |legs| == 3 && j < |out| && legs[2].body.Trade?
    requires Legs(legs[0].body, legs[1].body, legs[2].body) && Acknowledges(out[j].body, legs[2].body)
    requires NotSince(out, legs[2].body.id, j, |out|)
    ensures WellReported(out + legs)
    ensures forall i :: |out| <= i < |out| + 3 ==> !(out + legs)[i].body.Accepted?
  {
    var c := out + legs;
    forall i: nat | i < |c| && c[i].body.Trade? ensures Reported(c, i) {
      if i < |out| {
        assert Reported(out, i);
        var k :| 0 <= k < i && Acknowledges(out[k].body, out[i].body) && NotSince(out, out[i].body.id, k, i);
        assert c[k] == out[k] && NotSince(c, c[i].body.id, k, i);
      } else {
        assert i == |out| + 2;
        assert Acknowledges(c[j].body, c[i].body);
        assert NotSince(c, c[i].body.id, j, i);
      }
    }
    forall i: nat | i < |c| && c[i].body.Fill? ensures Printed(c, i) {
      if i < |out| {
        assert Printed(out, i);
      } else {
        assert c[|out| + 2] == legs[2];
      }
    }
  }

  lemma {:induction false} RunIsReported(w: M.Sweep, stp: StpMode, j: nat)
    requires OnRecord(w, j) && WellReported(w.out)
    ensures WellReported(M.Run(w, stp).out)
    decreases |w.opp|, w.inc.remaining
  {
    if !M.Blocked(w) {
      if !M.MeetsOwn(w, stp) {
        ExecutionIsReported(w, j);
      } else if stp.CancelAggressor? {
        ReportsEmit(w.out, M.StopAggressor(w).out[|w.out|]);
      } else {
        ReportsEmit(w.out, M.PullResting(w).out[|w.out|]);
      }
      hide WellReported, M.Execute;
      RunIsReported(M.Step(w, stp), stp, j);
    }
  }

  lemma SettleIsReported(st: State, inc: Order)
    requires WellReported(st.out)
    ensures WellReported(Settle(st, inc).out)
  {
    hide WellReported, Insert;
    var z := Settle(st, inc);
    if z.out != st.out { ReportsEmit(st.out, z.out[|st.out|]); }
  }

  lemma NewIsReported(st: State, cmd: Command)
    requires Inv(st) && WellReported(st.out)
    ensures WellReported(HandleNew(st, cmd).out)
  {
    var why := Refusal(st, cmd);
    hide WellReported, Refusal, M.Run, Settle;
    if why != NoReason {
      ReportsEmit(st.out, EmitReject(st, cmd, why).out[|st.out|]);
    } else {
      var w := Opening(st, cmd);
      ReportsEmit(st.out, w.out[|st.out|]);
      RunIsReported(w, st.cfg.stp, |st.out|);
      SettleIsReported(AfterSweep(st, M.Run(w, st.cfg.stp)), M.Run(w, st.cfg.stp).inc);
    }
  }

  lemma HandleIsReported(st: State, cmd: Command)
    requires Inv(st) && WellReported(st.out)
    ensures WellReported(Handle(st, cmd).out)
  {
    hide WellReported, Handle, HandleNew, Submits, Inv;
    if Submits(st, cmd) {
      var s, c := HandledAsNew(st, cmd);
      NewIsReported(s, c);
    } else {
      var b := OtherwiseSaysOne(st, cmd);
      ReportsEmit(st.out, Event(st.seqNo + 1, b));
    }
  }

  lemma ProcessIsReported(st: State, cmd: Command)
    requires Inv(st) && ValidCommand(cmd)
    ensures WellReported(Process(st, cmd).out)
  {
    BeginKeepsInv(st, cmd.kind);
    assert WellReported(Begin(st, cmd.kind).out);
    HandleIsReported(Begin(st, cmd.kind), cmd);
    hide WellReported, Handle, Inv, TopQty;
    var h := Handle(Begin(st, cmd.kind), cmd);
    var z := Process(st, cmd);
    if z.out != h.out { ReportsEmit(h.out, z.out[|h.out|]); }
  }

  /** Over any run, every print is preceded by two agreeing fill legs, its price respects the limit
      in the last acknowledgement of its taker, and there are no stray fills. */
  lemma {:induction false} ExecutionsAreReported(cfg: Config, ins: seq<Input>)
    requires ValidInputs(ins)
    ensures WellReported(Trace(Initial(cfg), ins))
  {
    if ins != [] {
      var before := ins[..|ins| - 1];
      var st := Drive(Initial(cfg), before);
      ExecutionsAreReported(cfg, before);
      DriveKeepsInv(Initial(cfg), before);
      match ins[|ins| - 1] {
        case Submit(cmd) => ProcessIsReported(st, cmd);
        case SetHalted(_) => assert WellReported([]);
      }
      hide WellReported, Process, Inv;
      ReportsConcat(Trace(Initial(cfg), before), Drive(Initial(cfg), ins).out);
    }
  }
}

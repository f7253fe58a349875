/** What the event stream says of each order, from its acknowledgement to its end. */
module History {
  import opened Types
  import opened PriceTime
  import opened EngineSpec
  import opened Conservation
  import M = Matching

  // --- a monitor for one order id ---------------------------------------------------------------

  /** What a listener holds about one id: nothing yet, an acknowledged order and its open size, or
      a contradiction between an event and what was said before. */
  datatype File = Blank | Open(client: nat, side: Side, price: int, leaves: nat) | Broken

  /** The acknowledged limit allows a trade at `price`. */
  predicate Allows(f: File, price: int)
    requires f.Open?
  {
    f.price == NO_PRICE || if f.side.Buy? then price <= f.price else f.price <= price
  }

  /** The event is about the acknowledged order: its client, its side, its own price (or, for a
      taker, a price its limit allows), and sizes that add up. */
  predicate Fits(f: File, b: Body)
    requires f.Open?
  {
    match b
    case Fill(_, _, client, side, price, n, leaves, aggressor) =>
      && client == f.client && side == f.side && n > 0 && n + leaves == f.leaves
      && (if aggressor then Allows(f, price) else price == f.price)
    case Canceled(_, client, side, price, n, leaves, why) =>
      && client == f.client && side == f.side && price == f.price
      && leaves == 0 < f.leaves && n == (if why.SelfTradePrevented? then 0 else f.leaves)
    case Replaced(_, client, side, price, n, leaves) =>
      && client == f.client && side == f.side && price == f.price && 0 < n == leaves < f.leaves
    case _ => false
  }

  function Next(f: File, b: Body): File
    requires b.Accepted? || b.Fill? || b.Canceled? || b.Replaced?
  {
    if f.Broken? then Broken
    else if b.Accepted? then
      if 0 < b.quantity == b.leaves then Open(b.client, b.side, b.price, b.leaves) else Broken
    else if f.Open? && Fits(f, b) then f.(leaves := b.leaves)
    else Broken
  }

  /** The file on `id` after a stream of events. */
  function Story(out: seq<Event>, id: nat, f: File): File {
    if out == [] then f
    else
      var b, g := out[|out| - 1].body, Story(out[..|out| - 1], id, f);
      if M.Reports(b, id) then Next(g, b) else g
  }

  lemma {:induction false} StoryConcat(a: seq<Event>, b: seq<Event>, id: nat, f: File)
    ensures Story(a + b, id, f) == Story(b, id, Story(a, id, f))
  {
    if b == [] {
      assert a + b == a;
    } else {
      assert (a + b)[..|a + b| - 1] == a + b[..|b| - 1];
      StoryConcat(a, b[..|b| - 1], id, f);
    }
  }

  lemma StoryEmit(out: seq<Event>, e: Event, id: nat, f: File)
    ensures Story(out + [e], id, f)
         == if M.Reports(e.body, id) then Next(Story(out, id, f), e.body) else Story(out, id, f)
  {
    assert (out + [e])[..|out|] == out;
  }

  // --- the files are right about the book ---------------------------------------------------------

  function FileOf(o: Order): File {
    Open(o.client, o.side, o.price, o.remaining)
  }

  /** If the id rests in `q`, the file describes that order. */
  ghost predicate Held(q: seq<Order>, id: nat, f: File) {
    forall i :: 0 <= i < |q| && q[i].id == id ==> f == FileOf(q[i])
  }

  ghost predicate Filed(st: State, id: nat, start: File) {
    var f := Story(st.out, id, start);
    !f.Broken? && Held(st.bids, id, f) && Held(st.asks, id, f)
  }

  /** The same in the middle of a sweep, with the aggressor on file too. */
  ghost predicate Covered(w: M.Sweep, id: nat, start: File) {
    var f := Story(w.out, id, start);
    && !f.Broken? && Held(w.opp, id, f)
    && (id == w.inc.id ==> f == FileOf(w.inc))
  }

  /** Ids are distinct, sizes positive, and a market order has no limit. */
  ghost predicate Proper(w: M.Sweep) {
    && DistinctIds(w.opp) && !HasId(w.opp, w.inc.id) && M.Positive(w.opp)
    && (w.inc.typ.Market? ==> w.inc.price == NO_PRICE)
  }

  lemma StepKeepsProper(w: M.Sweep, stp: StpMode)
    requires Proper(w) && !M.Blocked(w)
    ensures Proper(M.Step(w, stp))
  {
    M.HasIdTail(w.opp, w.inc.id);
    M.ExecuteIs(w);
    hide M.Emit, M.Execute, M.Legs;
  }

  lemma ExecuteKeepsCovered(w: M.Sweep, id: nat, start: File)
    requires Proper(w) && !M.Blocked(w) && Covered(w, id, start)
    ensures Covered(M.Execute(w), id, start)
  {
    hide M.Execute, M.Legs, Story, DistinctIds;
    var i, r, f := w.inc, w.opp[0], Story(w.out, id, start);
    var n := Min(i.remaining, r.remaining);
    assert r.id != i.id && (id == r.id ==> f == FileOf(r));
    M.ExecuteIs(w);
    LegsTold(w.out, i, r, n, w.seqNo, id, start);
    HeldCut(w.opp, n, id, f, Story(M.Execute(w).out, id, start));
  }

  /** Each leg fits the file of its own order and brings it up to date. */
  lemma LegsFit(i: Order, r: Order, n: nat, seqNo: nat)
    requires 0 < n <= i.remaining && n <= r.remaining
    requires Crosses(i.side, i.price, r.price) || (i.typ.Market? && i.price == NO_PRICE)
    ensures var legs := M.Legs(i, r, n, seqNo);
            && Next(FileOf(i), legs[0].body) == FileOf(i.(remaining := i.remaining - n))
            && Next(FileOf(r), legs[1].body) == FileOf(r.(remaining := r.remaining - n))
  {
  }

  /** The front order gives up `n` lots, and leaves if those were its last. */
  lemma HeldCut(q: seq<Order>, n: nat, id: nat, f: File, g: File)
    requires q != [] && DistinctIds(q) && n <= q[0].remaining && Held(q, id, f)
    requires if id == q[0].id then g == FileOf(q[0].(remaining := q[0].remaining - n))
             else g == f || !HasId(q, id)
    ensures var r := q[0];
            Held(if r.remaining == n then q[1..] else q[0 := r.(remaining := r.remaining - n)], id, g)
  {
    if q[0].id == id {
      assert !HasId(q[1..], id);
    }
  }

  lemma LegsTold(out: seq<Event>, i: Order, r: Order, n: nat, seqNo: nat, id: nat, start: File)
    requires 0 < n <= i.remaining && n <= r.remaining && i.id != r.id
    requires Crosses(i.side, i.price, r.price) || (i.typ.Market? && i.price == NO_PRICE)
    requires id == i.id ==> Story(out, id, start) == FileOf(i)
    requires id == r.id ==> Story(out, id, start) == FileOf(r)
    ensures Story(out + M.Legs(i, r, n, seqNo), id, start) ==
              if id == i.id then FileOf(i.(remaining := i.remaining - n))
              else if id == r.id then FileOf(r.(remaining := r.remaining - n))
              else Story(out, id, start)
  {
    hide Story;
    var legs := M.Legs(i, r, n, seqNo);
    LegsFit(i, r, n, seqNo);
    StoryEmit(out, legs[0], id, start);
    StoryEmit(out + [legs[0]], legs[1], id, start);
    StoryEmit(out + [legs[0]] + [legs[1]], legs[2], id, start);
    assert out + [legs[0]] + [legs[1]] + [legs[2]] == out + legs;
  }

  lemma StepKeepsCovered(w: M.Sweep, stp: StpMode, id: nat, start: File)
    requires Proper(w) && !M.Blocked(w) && Covered(w, id, start)
    ensures Covered(M.Step(w, stp), id, start)
  {
    if !M.MeetsOwn(w, stp) {
      ExecuteKeepsCovered(w, id, start);
    } else {
      hide M.Execute;
      StoryEmit(w.out, M.Step(w, stp).out[|w.out|], id, start);
      hide Story;
    }
  }

  lemma {:induction false} RunKeepsCovered(w: M.Sweep, stp: StpMode, id: nat, start: File)
    requires Proper(w) && Covered(w, id, start)
    ensures Covered(M.Run(w, stp), id, start)
    decreases |w.opp|, w.inc.remaining
  {
    if !M.Blocked(w) {
      StepKeepsProper(w, stp);
      StepKeepsCovered(w, stp, id, start);
      RunKeepsCovered(M.Step(w, stp), stp, id, start);
    }
  }

  /** Matching says nothing about anyone but the aggressor and the orders it faces. */
  lemma {:induction false} RunSkips(w: M.Sweep, stp: StpMode, id: nat, start: File)
    requires id != w.inc.id && !HasId(w.opp, id)
    ensures Story(M.Run(w, stp).out, id, start) == Story(w.out, id, start)
    decreases |w.opp|, w.inc.remaining
  {
    if !M.Blocked(w) {
      StepSkips(w, stp, id, start);
      RunSkips(M.Step(w, stp), stp, id, start);
    }
  }

  lemma StepSkips(w: M.Sweep, stp: StpMode, id: nat, start: File)
    requires id != w.inc.id && !HasId(w.opp, id) && !M.Blocked(w)
    ensures var z := M.Step(w, stp);
            z.inc.id == w.inc.id && !HasId(z.opp, id) && Story(z.out, id, start) == Story(w.out, id, start)
  {
    hide M.Execute, M.Legs, Story;
    M.HasIdTail(w.opp, id);
    if M.MeetsOwn(w, stp) {
      StoryEmit(w.out, M.Step(w, stp).out[|w.out|], id, start);
    } else {
      var i, r := w.inc, w.opp[0];
      M.ExecuteIs(w);
      LegsSkip(w.out, i, r, Min(i.remaining, r.remaining), w.seqNo, id, start);
    }
  }

  lemma LegsSkip(out: seq<Event>, i: Order, r: Order, n: nat, seqNo: nat, id: nat, start: File)
    requires n <= i.remaining && n <= r.remaining && id != i.id && id != r.id
    ensures Story(out + M.Legs(i, r, n, seqNo), id, start) == Story(out, id, start)
  {
    hide Story;
    var legs := M.Legs(i, r, n, seqNo);
    StoryEmit(out, legs[0], id, start);
    StoryEmit(out + [legs[0]], legs[1], id, start);
    StoryEmit(out + [legs[0]] + [legs[1]], legs[2], id, start);
    assert out + [legs[0]] + [legs[1]] + [legs[2]] == out + legs;
  }

  // --- commands ------------------------------------------------------------------------------------

  lemma HeldFromSide(st: State, s: Side, id: nat, f: File)
    ensures Held(st.bids, id, f) && Held(st.asks, id, f)
       <==> Held(Orders(st, s), id, f) && Held(Orders(st, Opposite(s)), id, f)
  {
  }

  lemma HeldInsert(q: seq<Order>, o: Order, id: nat, f: File)
    requires Held(q, id, f) && (id == o.id ==> f == FileOf(o))
    ensures Held(Insert(q, o), id, f)
  {
    hide Insert;
    var i := InsertPlaces(q, o);
  }

  /** An event that reports no order leaves every file alone. */
  lemma OtherwiseFiled(st: State, b: Body, id: nat, start: File)
    requires Filed(st, id, start) && !M.Reports(b, id)
    ensures Filed(Emit(st, b), id, start)
  {
    StoryEmit(st.out, Event(st.seqNo + 1, b), id, start);
  }

  /** The aggressor's remainder is cancelled or rests; either way its file is right. */
  lemma SettleFiles(a: State, inc: Order, id: nat, start: File)
    requires Filed(a, id, start) && (id == inc.id ==> Story(a.out, id, start) == FileOf(inc))
    requires !HasId(a.bids, inc.id) && !HasId(a.asks, inc.id)
    ensures Filed(Settle(a, inc), id, start)
  {
    hide Insert, Story;
    var f := Story(a.out, id, start);
    HeldInsert(Orders(a, inc.side), inc, id, f);
    var c := Canceled(inc.id, inc.client, inc.side, inc.price, inc.remaining, 0, NoReason);
    var d := Canceled(inc.id, inc.client, inc.side, inc.price, inc.remaining, 0, PoolExhausted);
    StoryEmit(a.out, Event(a.seqNo + 1, c), id, start);
    StoryEmit(a.out, Event(a.seqNo + 1, d), id, start);
  }

  lemma OpeningCovered(st: State, cmd: Command, id: nat, start: File)
    requires Inv(st) && Filed(st, id, start) && Refusal(st, cmd) == NoReason
    ensures var w := Opening(st, cmd);
            && Proper(w) && Covered(w, id, start)
            && (id != cmd.id ==> Story(w.out, id, start) == Story(st.out, id, start))
  {
    hide Story, Marketable;
    InvFromSide(st, cmd.side);
    HeldFromSide(st, cmd.side, id, Story(st.out, id, start));
    var b := Accepted(cmd.id, cmd.client, cmd.side, LimitOf(cmd), cmd.quantity, cmd.quantity);
    StoryEmit(st.out, Event(st.seqNo + 1, b), id, start);
  }

  /** The own side is told of by nobody during the sweep. */
  lemma SweepFiles(st: State, cmd: Command, id: nat, start: File)
    requires Inv(st) && Filed(st, id, start) && Refusal(st, cmd) == NoReason
    ensures var z := M.Run(Opening(st, cmd), st.cfg.stp);
            && Filed(AfterSweep(st, z), id, start)
            && (id == cmd.id ==> Story(z.out, id, start) == FileOf(z.inc))
  {
    var w, own := Opening(st, cmd), Orders(st, cmd.side);
    OpeningCovered(st, cmd, id, start);
    RunKeepsCovered(w, st.cfg.stp, id, start);
    M.RunKeepsIdentity(w, st.cfg.stp);
    if HasId(own, id) {
      OwnIsElsewhere(st, cmd, id);
      RunSkips(w, st.cfg.stp, id, start);
    }
    hide Story, M.Run, Opening, Inv, Refusal;
    var z := M.Run(w, st.cfg.stp);
    HeldFromSide(st, cmd.side, id, Story(st.out, id, start));
    HeldFromSide(AfterSweep(st, z), cmd.side, id, Story(z.out, id, start));
  }

  lemma OwnIsElsewhere(st: State, cmd: Command, id: nat)
    requires Inv(st) && Refusal(st, cmd) == NoReason && HasId(Orders(st, cmd.side), id)
    ensures id != cmd.id && !HasId(Opening(st, cmd).opp, id)
  {
    hide Marketable;
    InvFromSide(st, cmd.side);
  }

  lemma NewFiles(st: State, cmd: Command, id: nat, start: File)
    requires Inv(st) && ValidCommand(cmd.(kind := New)) && Filed(st, id, start)
    ensures Filed(HandleNew(st, cmd), id, start)
  {
    var why := Refusal(st, cmd);
    hide Refusal, Story, Filed;
    if why != NoReason {
      OtherwiseFiled(st, Rejected(cmd.id, cmd.client, cmd.side, cmd.price, cmd.quantity, why), id, start);
      var b := Rejected(cmd.id, cmd.client, cmd.side, cmd.price, cmd.quantity, why);
      SameFiled(Emit(st, b), EmitReject(st, cmd, why), id, start);
    } else {
      var z := M.Run(Opening(st, cmd), st.cfg.stp);
      SweepFiles(st, cmd, id, start);
      RemainderMayRest(st, cmd);
      hide Settle, M.Run, Opening, Inv;
      SettleFiles(AfterSweep(st, z), z.inc, id, start);
    }
  }

  lemma SameFiled(a: State, b: State, id: nat, start: File)
    requires Filed(a, id, start) && b.out == a.out && b.bids == a.bids && b.asks == a.asks
    ensures Filed(b, id, start)
  {
  }

  lemma WithoutFiles(st: State, gone: nat, id: nat, start: File)
    requires Known(st, gone) && Filed(st, id, start)
    ensures Filed(Without(st, gone), id, start)
  {
    hide Story;
  }

  lemma CancelFiles(st: State, cmd: Command, id: nat, start: File)
    requires Inv(st) && Filed(st, id, start)
    ensures Filed(HandleCancel(st, cmd), id, start)
  {
    hide Filed, Without, Story, Inv;
    if Known(st, cmd.id) {
      KnownCancelFiles(st, cmd, id, start);
    } else {
      var b := Rejected(cmd.id, cmd.client, cmd.side, cmd.price, cmd.quantity, UnknownOrder);
      OtherwiseFiled(st, b, id, start);
      SameFiled(Emit(st, b), EmitReject(st, cmd, UnknownOrder), id, start);
    }
  }

  lemma KnownCancelFiles(st: State, cmd: Command, id: nat, start: File)
    requires Inv(st) && Filed(st, id, start) && Known(st, cmd.id)
    ensures Filed(HandleCancel(st, cmd), id, start)
  {
    hide Story, RemoveAt;
    var s := SideOf(st, cmd.id);
    var q, f := Orders(st, s), Story(st.out, id, start);
    var o := Lookup(st, cmd.id);
    InvFromSide(st, s);
    HeldFromSide(st, s, id, f);
    var b := Canceled(o.id, o.client, o.side, o.price, o.remaining, 0, NoReason);
    StoryEmit(st.out, Event(st.seqNo + 1, b), id, start);
    var z := HandleCancel(st, cmd);
    var g := Story(z.out, id, start);
    HeldRemoved(q, PosOf(q, cmd.id), id, f, g);
    HeldFromSide(z, s, id, g);
  }

  lemma HeldRemoved(q: seq<Order>, i: nat, id: nat, f: File, g: File)
    requires i < |q| && DistinctIds(q) && Held(q, id, f) && (id == q[i].id || g == f)
    ensures Held(RemoveAt(q, i), id, g)
  {
  }

  lemma SizeDownFiles(st: State, cmd: Command, id: nat, start: File)
    requires Inv(st) && Filed(st, id, start) && cmd.quantity > 0
    requires Known(st, cmd.id) && IsSizeDown(Lookup(st, cmd.id), cmd)
    ensures Filed(SizeDown(st, cmd), id, start)
  {
    hide Story;
    var s := SideOf(st, cmd.id);
    InvFromSide(st, s);
    HeldFromSide(st, s, id, Story(st.out, id, start));
    var z := SizeDown(st, cmd);
    StoryEmit(st.out, z.out[|st.out|], id, start);
    HeldFromSide(z, s, id, Story(z.out, id, start));
  }

  lemma HandleFiles(st: State, cmd: Command, id: nat, start: File)
    requires Inv(st) && ValidCommand(cmd) && Filed(st, id, start)
    ensures Filed(Handle(st, cmd), id, start)
  {
    hide Filed, HandleNew, HandleCancel, SizeDown, Without, Inv, Story;
    if cmd.kind.New? && !st.halted {
      NewFiles(st, cmd, id, start);
    } else if cmd.kind.Cancel? {
      CancelFiles(st, cmd, id, start);
    } else if cmd.kind.Modify? && Known(st, cmd.id) {
      var o := Lookup(st, cmd.id);
      if cmd.quantity == 0 {
        CancelFiles(st, MakeCancel(cmd.id, cmd.client), id, start);
      } else if IsSizeDown(o, cmd) {
        SizeDownFiles(st, cmd, id, start);
      } else {
        var gone := Without(st, cmd.id).(withdrawn := st.withdrawn + o.remaining);
        RequeueFiles(st, cmd, gone, Replacement(o, cmd), id, start);
      }
    } else {
      var why := if cmd.kind.New? then BookHalted else UnknownOrder;
      var b := Rejected(cmd.id, cmd.client, cmd.side, cmd.price, cmd.quantity, why);
      OtherwiseFiled(st, b, id, start);
      SameFiled(Emit(st, b), EmitReject(st, cmd, why), id, start);
    }
  }

  lemma RequeueFiles(st: State, cmd: Command, gone: State, repl: Command, id: nat, start: File)
    requires Inv(st) && Filed(st, id, start) && Known(st, cmd.id)
    requires gone == Without(st, cmd.id).(withdrawn := st.withdrawn + Lookup(st, cmd.id).remaining)
    requires repl == Replacement(Lookup(st, cmd.id), cmd)
    ensures Filed(HandleNew(gone, repl), id, start)
  {
    WithoutFiles(st, cmd.id, id, start);
    ReplacementIsValid(st, cmd);
    SameFiled(Without(st, cmd.id), gone, id, start);
    hide *;
    NewFiles(gone, repl, id, start);
  }

  /** One command keeps the file on every id free of contradictions and right about the book. */
  lemma ProcessFiles(st: State, cmd: Command, id: nat, f: File)
    requires Inv(st) && ValidCommand(cmd)
    requires !f.Broken? && Held(st.bids, id, f) && Held(st.asks, id, f)
    ensures var z := Process(st, cmd); z.cfg == st.cfg && Filed(z, id, f)
  {
    var b := Begin(st, cmd.kind);
    assert Filed(b, id, f);
    BeginKeepsInv(st, cmd.kind);
    HandleFiles(b, cmd, id, f);
    hide Handle, Filed, Inv, TopQty, BestPrice;
    FinishFiles(Handle(b, cmd), id, f);
  }

  lemma FinishFiles(h: State, id: nat, start: File)
    requires Filed(h, id, start)
    ensures Filed(Finish(h), id, start)
  {
    var b := BookChanged(BestPrice(h.bids), TopQty(h.bids), BestPrice(h.asks), TopQty(h.asks));
    hide Filed, TopQty, BestPrice;
    OtherwiseFiled(h, b, id, start);
    var z := Finish(h);
    if z.out == h.out {
      SameFiled(h, z, id, start);
    } else {
      SameFiled(Emit(h, b), z, id, start);
    }
  }

  // --- whole runs ------------------------------------------------------------------------------------

  /** Over any run no event contradicts what was said of its order before, and the file on a
      resting order gives its client, side, price and open size. */
  lemma {:induction false} NoContradictions(cfg: Config, ins: seq<Input>, id: nat)
    requires ValidInputs(ins)
    ensures var st, f := Drive(Initial(cfg), ins), Story(Trace(Initial(cfg), ins), id, Blank);
            !f.Broken? && Held(st.bids, id, f) && Held(st.asks, id, f)
  {
    if ins != [] {
      var prev, i := ins[..|ins| - 1], ins[|ins| - 1];
      NoContradictions(cfg, prev, id);
      DriveKeepsInv(Initial(cfg), prev);
      var t := Trace(Initial(cfg), prev);
      StoryConcat(t, Drive(Initial(cfg), ins).out, id, Blank);
      if i.Submit? { ProcessFiles(Drive(Initial(cfg), prev), i.cmd, id, Story(t, id, Blank)); }
      hide Process, Story, Inv;
    }
  }

  /** The last acknowledgement of `id` before position `n` is at `j`. */
  ghost predicate Latest(out: seq<Event>, id: nat, j: nat, n: nat) {
    && j < n <= |out| && out[j].body.Accepted? && out[j].body.id == id
    && forall k :: j < k < n ==> !(out[k].body.Accepted? && out[k].body.id == id)
  }

  /** An open file repeats the last acknowledgement and the last reported open size. */
  lemma {:induction false} OpenMeans(out: seq<Event>, id: nat) returns (j: nat)
    requires Story(out, id, Blank).Open?
    ensures Latest(out, id, j, |out|)
    ensures var f, a := Story(out, id, Blank), out[j].body;
            f == Open(a.client, a.side, a.price, M.LastLeaves(out, id, 0))
  {
    var n := |out| - 1;
    var b := out[n].body;
    if b.Accepted? && b.id == id {
      j := n;
    } else {
      j := OpenMeans(out[..n], id);
      hide Story, M.LastLeaves;
      assert forall k :: 0 <= k < n ==> out[..n][k] == out[k];
    }
  }

  lemma {:induction false} PrefixUnbroken(out: seq<Event>, id: nat, n: nat)
    requires !Story(out, id, Blank).Broken? && n <= |out|
    ensures !Story(out[..n], id, Blank).Broken?
  {
    if n < |out| {
      PrefixUnbroken(out[..|out| - 1], id, n);
      assert out[..|out| - 1][..n] == out[..n];
    } else {
      assert out[..n] == out;
    }
  }

  /** The limit of an acknowledgement allows a trade at `price`. */
  predicate Respects(a: Body, price: int)
    requires a.Accepted?
  {
    a.price == NO_PRICE || if a.side.Buy? then price <= a.price else a.price <= price
  }

  /** What the stream must have said before `b`, an event about an order: `a` is the last
      acknowledgement of its id and `open` the last reported open size. Client and side are those
      acknowledged; a maker trades at its own price and a taker within its limit; a fill takes what
      it reports off the open size; a cancellation reports what was open, or nothing if self-trade
      prevention took it; a reduction leaves what it reports. */
  predicate Accounted(a: Body, open: nat, b: Body)
    requires a.Accepted? && (b.Fill? || b.Canceled? || b.Replaced?)
  {
    && b.client == a.client && b.side == a.side
    && (b.Fill? && b.aggressor ==> Respects(a, b.price))
    && (!(b.Fill? && b.aggressor) ==> b.price == a.price)
    && (b.Fill? ==> b.quantity > 0 && b.quantity + b.leaves == open)
    && (b.Canceled? ==> b.leaves == 0 < open && b.quantity == if b.reason.SelfTradePrevented? then 0 else open)
    && (b.Replaced? ==> 0 < b.quantity == b.leaves < open)
  }

  /** Over any run every fill, cancellation and reduction is accounted for by the last
      acknowledgement of its id and the sizes reported since. */
  lemma EventsAreAccounted(cfg: Config, ins: seq<Input>, i: nat) returns (j: nat)
    requires ValidInputs(ins) && i < |Trace(Initial(cfg), ins)|
    requires var b := Trace(Initial(cfg), ins)[i].body; b.Fill? || b.Canceled? || b.Replaced?
    ensures var t := Trace(Initial(cfg), ins);
            && Latest(t, t[i].body.id, j, i)
            && Accounted(t[j].body, M.LastLeaves(t[..i], t[i].body.id, 0), t[i].body)
  {
    hide Story, Drive, Trace, M.LastLeaves, Accounted;
    var t := Trace(Initial(cfg), ins);
    NoContradictions(cfg, ins, t[i].body.id);
    PrefixUnbroken(t, t[i].body.id, i + 1);
    j := AccountedAt(t, i);
  }

  lemma AccountedAt(t: seq<Event>, i: nat) returns (j: nat)
    requires i < |t| && (t[i].body.Fill? || t[i].body.Canceled? || t[i].body.Replaced?)
    requires !Story(t[..i + 1], t[i].body.id, Blank).Broken?
    ensures Latest(t, t[i].body.id, j, i)
    ensures Accounted(t[j].body, M.LastLeaves(t[..i], t[i].body.id, 0), t[i].body)
  {
    var id := t[i].body.id;
    StoryEmit(t[..i], t[i], id, Blank);
    assert t[..i + 1] == t[..i] + [t[i]];
    hide Story, M.LastLeaves;
    j := OpenMeans(t[..i], id);
    assert forall k :: 0 <= k < i ==> t[..i][k] == t[k];
  }

  /** A resting order is the one last acknowledged under its id, with its last reported open size. */
  lemma RestingIsAcknowledged(cfg: Config, ins: seq<Input>, s: Side, i: nat) returns (j: nat)
    requires ValidInputs(ins) && i < |Orders(Drive(Initial(cfg), ins), s)|
    ensures var t, o := Trace(Initial(cfg), ins), Orders(Drive(Initial(cfg), ins), s)[i];
            && Latest(t, o.id, j, |t|) && o.client == t[j].body.client && o.side == t[j].body.side
            && o.price == t[j].body.price && o.remaining == M.LastLeaves(t, o.id, 0)
  {
    hide Story, Drive, Trace, M.LastLeaves;
    var o := Orders(Drive(Initial(cfg), ins), s)[i];
    NoContradictions(cfg, ins, o.id);
    j := OpenMeans(Trace(Initial(cfg), ins), o.id);
  }
}

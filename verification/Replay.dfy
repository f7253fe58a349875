/** Whole runs of the concrete engine, over any of the three books and any hash function. */
module Replay {
  import opened Types
  import opened Queues
  import opened Book
  import opened Conservation
  import MatchingEngine
  import S = EngineSpec

  /** What can be seen of a run: every event, and the aggregated depth it leaves behind. */
  datatype Outcome = Outcome(events: seq<Event>, bids: seq<DepthEntry>, asks: seq<DepthEntry>)

  ghost function OutcomeOf(cfg: Config, ins: seq<Input>, levels: nat): Outcome {
    var st := Drive(S.Initial(cfg), ins);
    Outcome(Trace(S.Initial(cfg), ins), Depth(st.bids, levels), Depth(st.asks, levels))
  }

  /** A fresh engine fed a list of inputs ends in exactly the state the specification gives, order
      by order and place by place, having emitted exactly the specified events. */
  method Run(cfg: Config, kind: Kind, hash: nat -> nat, ins: seq<Input>)
    returns (e: MatchingEngine.Engine, events: seq<Event>)
    requires cfg.minPrice <= cfg.maxPrice && ValidInputs(ins)
    ensures fresh(e.Repr()) && e.Valid() && e.cfg == cfg
    ensures e.Abs() == Drive(S.Initial(cfg), ins) && events == Trace(S.Initial(cfg), ins)
  {
    hide S.Inv, S.Process, MatchingEngine.Engine.Valid;
    ghost var st := S.Initial(cfg);
    e := new MatchingEngine.Engine(cfg, kind, hash);
    EmptyKeepsInv(cfg);
    events := [];
    for k := 0 to |ins|
      invariant fresh(e.Repr()) && e.Valid() && S.Inv(e.Abs())
      invariant e.Abs() == Drive(st, ins[..k]) && events == Trace(st, ins[..k])
    {
      DriveStep(st, ins, k);
      match ins[k] {
        case Submit(cmd) =>
          var out := e.Process(cmd);
          events := events + out;
        case SetHalted(on) =>
          HaltKeepsInv(e.Abs(), on);
          e.SetHalted(on);
      }
    }
    assert ins[..|ins|] == ins;
    DriveKeepsConfig(st, ins);
  }

  /** The same, seen from outside. */
  method Play(cfg: Config, kind: Kind, hash: nat -> nat, ins: seq<Input>, levels: nat) returns (r: Outcome)
    requires cfg.minPrice <= cfg.maxPrice && ValidInputs(ins)
    ensures r == OutcomeOf(cfg, ins, levels)
  {
    hide MatchingEngine.Engine.Valid, Depth, Drive, Trace;
    var e, events := Run(cfg, kind, hash, ins);
    var bids := e.Snapshot(Buy, levels);
    var asks := e.Snapshot(Sell, levels);
    r := Outcome(events, bids, asks);
  }

  /** The bitset book, the sorted vectors and the sorted maps are interchangeable: on the same
      inputs, and whatever the index hashes with, any two engines emit the same events and end
      with the same books, down to each order and its place in the queue. */
  method BooksAreInterchangeable(cfg: Config, ins: seq<Input>,
                                 kind1: Kind, hash1: nat -> nat, kind2: Kind, hash2: nat -> nat)
    returns (e1: MatchingEngine.Engine, e2: MatchingEngine.Engine, out1: seq<Event>, out2: seq<Event>)
    requires cfg.minPrice <= cfg.maxPrice && ValidInputs(ins)
    ensures fresh(e1.Repr()) && fresh(e2.Repr()) && e1.Valid() && e2.Valid()
    ensures out1 == out2 == Trace(S.Initial(cfg), ins)
    ensures e1.Abs() == e2.Abs() == Drive(S.Initial(cfg), ins)
  {
    hide MatchingEngine.Engine.Valid, MatchingEngine.Engine.Abs, Drive, Trace;
    e1, out1 := Run(cfg, kind1, hash1, ins);
    e2, out2 := Run(cfg, kind2, hash2, ins);
  }

  lemma EmptyKeepsInv(cfg: Config)
    ensures S.Inv(S.Initial(cfg))
  {
  }

  lemma HaltKeepsInv(st: S.State, on: bool)
    requires S.Inv(st)
    ensures S.Inv(st.(halted := on, out := []))
  {
  }

  lemma DriveStep(st: S.State, ins: seq<Input>, k: nat)
    requires k < |ins|
    ensures Drive(st, ins[..k + 1]) == Advance(Drive(st, ins[..k]), ins[k])
    ensures Trace(st, ins[..k + 1]) == Trace(st, ins[..k]) + Drive(st, ins[..k + 1]).out
  {
    hide Drive, Trace;
    DriveSnoc(st, ins[..k], ins[k]);
    assert ins[..k + 1] == ins[..k] + [ins[k]];
  }
}

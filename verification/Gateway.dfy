/** The framing loop: bytes arrive in chunks, whole frames become commands, the rest waits. */
module Gateway {
  import opened Types
  import opened Wire
  import WireCodec

  /** A decoded order-entry command. Side and order type are still the raw wire bytes. */
  datatype Inbound =
    | InNew(id: nat, client: nat, side: nat, typ: nat, price: int, quantity: nat)
    | InCancel(id: nat, client: nat)
    | InModify(id: nat, client: nat, price: int, quantity: nat)

  /** The command a message asks for; market data and reports are not commands. */
  function Request(m: Message): seq<Inbound> {
    match m
    case NewOrder(id, c, s, t, p, q, _) => [InNew(id, c, s, t, p, q)]
    case CancelOrder(id, c, _) => [InCancel(id, c)]
    case ModifyOrder(id, c, p, q, _) => [InModify(id, c, p, q)]
    case _ => []
  }

  function RequestOf(m: Option<Message>): seq<Inbound> {
    if m.None? then [] else Request(m.value)
  }

  /** What the loop makes of one complete frame whose header claims type `typ`. */
  function CommandsIn(typ: nat, f: seq<Byte>): seq<Inbound> {
    if typ == Code(TNew) then RequestOf(Decoded(TNew, f))
    else if typ == Code(TCancel) then RequestOf(Decoded(TCancel, f))
    else if typ == Code(TModify) then RequestOf(Decoded(TModify, f))
    else []
  }

  datatype Parsed = Parsed(cmds: seq<Inbound>, rest: seq<Byte>)

  /** One pass over a buffer. A header's length is at least 8, so the buffer shrinks. */
  function Reassemble(b: seq<Byte>): Parsed
    decreases |b|
  {
    var h := Peek(b);
    if h.None? then Parsed([], b)
    else
      var n := h.value.length;
      var p := Reassemble(b[n..]);
      Parsed(CommandsIn(h.value.typ, b[..n]) + p.cmds, p.rest)
  }

  lemma ReassembleStep(b: seq<Byte>)
    ensures Peek(b).None? ==> Reassemble(b) == Parsed([], b)
    ensures Peek(b).Some? ==>
              var n := Peek(b).value.length;
              var p := Reassemble(b[n..]);
              Reassemble(b) == Parsed(CommandsIn(Peek(b).value.typ, b[..n]) + p.cmds, p.rest)
  {
    hide Peek, CommandsIn;
  }

  lemma Shift(cmds: seq<Inbound>, got: seq<Inbound>, more: seq<Inbound>)
    ensures cmds + (got + more) == (cmds + got) + more
  {
  }

  function LastClient(cmds: seq<Inbound>, client: nat): nat {
    if cmds == [] then client else cmds[|cmds| - 1].client
  }

  class Connection {
    var buffer: seq<Byte>
    var client: nat

    constructor ()
      ensures buffer == [] && client == 0
    {
      buffer, client := [], 0;
    }

    /** Bytes arrive: append them, cut off every complete frame, keep the rest. */
    method Receive(chunk: seq<Byte>) returns (cmds: seq<Inbound>)
      modifies this
      ensures Parsed(cmds, buffer) == Reassemble(old(buffer) + chunk)
      ensures client == LastClient(cmds, old(client))
    {
      hide Peek, Decoded, Reassemble, CommandsIn;
      buffer := buffer + chunk;
      ghost var whole := buffer;
      cmds := [];
      var off := 0;
      while true
        invariant 0 <= off <= |buffer| && buffer == whole
        invariant client == LastClient(cmds, old(client))
        invariant var p := Reassemble(whole[off..]); Reassemble(whole) == Parsed(cmds + p.cmds, p.rest)
        decreases |buffer| - off
      {
        var rest := buffer[off..];
        var h := WireCodec.PeekHeader(rest);
        ReassembleStep(rest);
        if h.None? {
          break;
        }
        var n := h.value.length;
        var got := Dispatch(h.value.typ, rest[..n]);
        assert rest[n..] == whole[off + n..];
        Shift(cmds, got, Reassemble(rest[n..]).cmds);
        off := off + n;
        if got != [] {
          client := got[|got| - 1].client;
        }
        cmds := cmds + got;
      }
      if off > 0 {
        buffer := buffer[off..];
      }
    }

    /** The switch on the frame's type. */
    method Dispatch(typ: nat, f: seq<Byte>) returns (got: seq<Inbound>)
      ensures got == CommandsIn(typ, f)
    {
      hide Decoded;
      var m := None;
      if typ == Code(TNew) {
        m := WireCodec.DecodeNewOrder(f);
      } else if typ == Code(TCancel) {
        m := WireCodec.DecodeCancel(f);
      } else if typ == Code(TModify) {
        m := WireCodec.DecodeModify(f);
      }
      got := RequestOf(m);
    }
  }

  // --- chunking does not matter -------------------------------------------------------------

  /** More bytes never change a header that has been accepted. */
  lemma PeekStable(a: seq<Byte>, b: seq<Byte>)
    requires Peek(a).Some?
    ensures Peek(a + b) == Peek(a)
  {
    assert (a + b)[2..4] == a[2..4] && (a + b)[4..8] == a[4..8];
  }

  /** Parsing a prefix first and the leftover with the remaining bytes later loses nothing. */
  lemma {:induction false} ReassembleSplit(a: seq<Byte>, b: seq<Byte>)
    ensures var p := Reassemble(a);
            var q := Reassemble(p.rest + b);
            Reassemble(a + b) == Parsed(p.cmds + q.cmds, q.rest)
    decreases |a|
  {
    ReassembleStep(a);
    ReassembleStep(a + b);
    hide Peek, CommandsIn, Reassemble;
    if Peek(a).Some? {
      var n := Peek(a).value.length;
      PeekStable(a, b);
      ReassembleSplit(a[n..], b);
      assert (a + b)[n..] == a[n..] + b && (a + b)[..n] == a[..n];
      var p := Reassemble(a[n..]);
      Shift(CommandsIn(Peek(a).value.typ, a[..n]), p.cmds, Reassemble(p.rest + b).cmds);
    }
  }

  /** Feeding chunks one at a time into an initially empty buffer. */
  function Feed(chunks: seq<seq<Byte>>): Parsed {
    if chunks == [] then Parsed([], [])
    else
      var p := Feed(chunks[..|chunks| - 1]);
      var q := Reassemble(p.rest + chunks[|chunks| - 1]);
      Parsed(p.cmds + q.cmds, q.rest)
  }

  /** For every byte stream, well formed or not, and every way of cutting it up, the commands
      and the bytes left over are those of one pass over the whole stream. */
  lemma {:induction false} ChunkingDoesNotMatter(chunks: seq<seq<Byte>>)
    ensures Feed(chunks) == Reassemble(Concat(chunks))
  {
    if chunks == [] {
      assert Peek([]).None?;
    } else {
      var c := chunks[..|chunks| - 1];
      ChunkingDoesNotMatter(c);
      ReassembleSplit(Concat(c), chunks[|chunks| - 1]);
    }
  }

  /** The same for the object: a connection fed any chunks ends as if fed the whole stream. */
  method ReceiveAll(chunks: seq<seq<Byte>>) returns (cmds: seq<Inbound>, rest: seq<Byte>)
    ensures Parsed(cmds, rest) == Reassemble(Concat(chunks))
  {
    hide Reassemble;
    var c := new Connection();
    cmds := [];
    for i := 0 to |chunks|
      invariant fresh(c) && Parsed(cmds, c.buffer) == Feed(chunks[..i])
    {
      assert chunks[..i + 1][..i] == chunks[..i];
      var got := c.Receive(chunks[i]);
      cmds := cmds + got;
    }
    assert chunks[..|chunks|] == chunks;
    ChunkingDoesNotMatter(chunks);
    rest := c.buffer;
  }

  // --- frames come back as the messages they encode -----------------------------------------

  datatype Numbered = Numbered(seqNo: nat, msg: Message)

  ghost predicate Sendable(ms: seq<Numbered>) {
    forall i :: 0 <= i < |ms| ==> Representable(ms[i].msg) && ms[i].seqNo < 0x1_0000_0000
  }

  function Frames(ms: seq<Numbered>): seq<Byte>
    requires Sendable(ms)
  {
    if ms == [] then [] else Frame(ms[0].seqNo, ms[0].msg) + Frames(ms[1..])
  }

  function Requests(ms: seq<Numbered>): seq<Inbound> {
    if ms == [] then [] else Request(ms[0].msg) + Requests(ms[1..])
  }

  /** A message's frame yields its request. */
  lemma CommandsInFrame(seqNo: nat, m: Message)
    requires Representable(m)
    ensures CommandsIn(Code(TypeOf(m)), Frame(seqNo, m)) == Request(m)
  {
    DecodeFrame(seqNo, m, TNew);
    DecodeFrame(seqNo, m, TCancel);
    DecodeFrame(seqNo, m, TModify);
    hide Decoded, Frame, Representable;
  }

  lemma FrontFrame(f: seq<Byte>, more: seq<Byte>, h: Header)
    requires Peek(f + more) == Some(h) && h.length == |f|
    ensures var p := Reassemble(more);
            Reassemble(f + more) == Parsed(CommandsIn(h.typ, f) + p.cmds, p.rest)
  {
    ReassembleStep(f + more);
    hide Peek, CommandsIn, Reassemble;
    assert (f + more)[..|f|] == f && (f + more)[|f|..] == more;
  }

  lemma {:induction false} FramesCons(ms: seq<Numbered>, tail: seq<Byte>)
    requires Sendable(ms) && ms != []
    ensures Sendable(ms[1..])
    ensures Frames(ms) + tail == Frame(ms[0].seqNo, ms[0].msg) + (Frames(ms[1..]) + tail)
  {
    var f, r := Frame(ms[0].seqNo, ms[0].msg), Frames(ms[1..]);
    hide Frame, Representable;
    assert (f + r) + tail == f + (r + tail);
  }

  /** A concatenation of frames, followed by anything, parses back to the messages' requests in
      order and then continues with what follows. */
  lemma {:induction false} FramesComeBack(ms: seq<Numbered>, tail: seq<Byte>)
    requires Sendable(ms)
    ensures var p := Reassemble(tail);
            Reassemble(Frames(ms) + tail) == Parsed(Requests(ms) + p.cmds, p.rest)
    decreases |ms|
  {
    if ms == [] {
      assert Frames(ms) + tail == tail;
      assert Requests(ms) + Reassemble(tail).cmds == Reassemble(tail).cmds;
    } else {
      var s, m := ms[0].seqNo, ms[0].msg;
      OneFrame(s, m, Frames(ms[1..]) + tail);
      FramesCons(ms, tail);
      FramesComeBack(ms[1..], tail);
      hide Peek, CommandsIn, Frame, Frames, Representable, Reassemble, Request;
      assert Requests(ms) == Request(m) + Requests(ms[1..]);
      hide Requests, TypeOf;
      Shift([], Request(m), Requests(ms[1..]));
      Shift(Request(m), Requests(ms[1..]), Reassemble(tail).cmds);
    }
  }

  /** What each message becomes, field by field: a new order, a cancel or an amendment with the
      message's own fields, and nothing for the four kinds that do not come from clients. */
  lemma NewOrderBecomes(n: nat, id: nat, client: nat, side: nat, typ: nat, price: int, quantity: nat, ts: nat,
                        more: seq<Byte>)
    requires n < 0x1_0000_0000 && Representable(NewOrder(id, client, side, typ, price, quantity, ts))
    ensures var p := Reassemble(more);
            Reassemble(Frame(n, NewOrder(id, client, side, typ, price, quantity, ts)) + more)
            == Parsed([InNew(id, client, side, typ, price, quantity)] + p.cmds, p.rest)
  {
    OneFrame(n, NewOrder(id, client, side, typ, price, quantity, ts), more);
  }

  lemma CancelOrderBecomes(n: nat, id: nat, client: nat, ts: nat, more: seq<Byte>)
    requires n < 0x1_0000_0000 && Representable(CancelOrder(id, client, ts))
    ensures var p := Reassemble(more);
            Reassemble(Frame(n, CancelOrder(id, client, ts)) + more) == Parsed([InCancel(id, client)] + p.cmds, p.rest)
  {
    OneFrame(n, CancelOrder(id, client, ts), more);
  }

  lemma ModifyOrderBecomes(n: nat, id: nat, client: nat, price: int, quantity: nat, ts: nat, more: seq<Byte>)
    requires n < 0x1_0000_0000 && Representable(ModifyOrder(id, client, price, quantity, ts))
    ensures var p := Reassemble(more);
            Reassemble(Frame(n, ModifyOrder(id, client, price, quantity, ts)) + more)
            == Parsed([InModify(id, client, price, quantity)] + p.cmds, p.rest)
  {
    OneFrame(n, ModifyOrder(id, client, price, quantity, ts), more);
  }

  lemma OthersBecomeNothing(n: nat, m: Message, more: seq<Byte>)
    requires n < 0x1_0000_0000 && Representable(m) && !m.NewOrder? && !m.CancelOrder? && !m.ModifyOrder?
    ensures Reassemble(Frame(n, m) + more) == Reassemble(more)
  {
    OneFrame(n, m, more);
    assert [] + Reassemble(more).cmds == Reassemble(more).cmds;
  }

  lemma OneFrame(n: nat, m: Message, more: seq<Byte>)
    requires n < 0x1_0000_0000 && Representable(m)
    ensures var p := Reassemble(more); Reassemble(Frame(n, m) + more) == Parsed(Request(m) + p.cmds, p.rest)
  {
    FrameStart(n, m);
    PeekFrame(n, m, more);
    CommandsInFrame(n, m);
    hide Peek, CommandsIn, Frame, Representable, Reassemble, Request, Code, Length;
    FrontFrame(Frame(n, m), more, Header(Code(TypeOf(m)), VERSION, Length(TypeOf(m)), n));
  }

  // --- what is left in the buffer ---------------------------------------------------------------

  /** Whatever is kept is a suffix of the input with no acceptable frame at its front. */
  lemma {:induction false} LeftoverIsStuck(b: seq<Byte>)
    ensures var r := Reassemble(b).rest; |r| <= |b| && r == b[|b| - |r|..] && Peek(r).None?
    decreases |b|
  {
    hide Peek, CommandsIn;
    if Peek(b).Some? { LeftoverIsStuck(b[Peek(b).value.length..]); }
  }

  /** The length field has arrived and announces less than a header. */
  predicate ShortFront(b: seq<Byte>) {
    |b| >= 4 && UnLe(b[2..4]) < HEADER_SIZE
  }

  /** Nothing that can still arrive gets a command or a byte out of this buffer. */
  ghost predicate Stalled(b: seq<Byte>) {
    forall more: seq<Byte> :: Reassemble(b + more) == Parsed([], b + more)
  }

  lemma ShortLengthStalls(b: seq<Byte>, more: seq<Byte>)
    requires ShortFront(b)
    ensures Peek(b + more).None? && Reassemble(b + more) == Parsed([], b + more)
  {
    assert (b + more)[2..4] == b[2..4];
  }

  /** Any other buffer is released by enough further bytes. */
  lemma SomethingReleases(b: seq<Byte>) returns (more: seq<Byte>)
    requires !ShortFront(b)
    ensures Peek(b + more).Some?
  {
    more := seq(65600, _ => 255);
    var c := b + more;
    assert |b| >= 4 ==> c[2..4] == b[2..4];
    UnLeTwo(c[2..4]);
    assert c[2..4][0] == c[2] && c[2..4][1] == c[3];
    if |b| < 4 { assert c[3] == 255; }
  }

  /** A connection stalls for good, its buffer only growing, if and only if the buffer's length
      field has arrived and is below 8. */
  lemma StallsExactlyWhen(b: seq<Byte>)
    ensures Stalled(b) <==> ShortFront(b)
    ensures (forall more: seq<Byte> :: Peek(b + more).None?) <==> ShortFront(b)
  {
    hide Peek, Reassemble, ShortFront;
    if ShortFront(b) {
      forall more: seq<Byte> ensures Peek(b + more).None? && Reassemble(b + more) == Parsed([], b + more) {
        ShortLengthStalls(b, more);
      }
    } else {
      var more := SomethingReleases(b);
      ReassembleStep(b + more);
      LeftoverIsStuck((b + more)[Peek(b + more).value.length..]);
    }
  }

  /** For whole streams: after any bytes, nothing more ever comes out of the connection if and only
      if what it has left over has a short front. */
  lemma StreamStallsExactlyWhen(b: seq<Byte>)
    ensures (forall more: seq<Byte> ::
               Reassemble(b + more) == Parsed(Reassemble(b).cmds, Reassemble(b).rest + more))
            <==> ShortFront(Reassemble(b).rest)
  {
    hide Peek, Reassemble, ShortFront, CommandsIn;
    var p := Reassemble(b);
    StallsExactlyWhen(p.rest);
    forall more: seq<Byte>
      ensures Reassemble(b + more) == Parsed(p.cmds, p.rest + more)
         <==> Reassemble(p.rest + more) == Parsed([], p.rest + more)
    {
      ReassembleSplit(b, more);
      var q := Reassemble(p.rest + more);
      assert p.cmds + q.cmds == p.cmds <==> q.cmds == [];
    }
    if Stalled(p.rest) {
      forall more: seq<Byte> ensures Reassemble(b + more) == Parsed(p.cmds, p.rest + more) {
        assert Reassemble(p.rest + more) == Parsed([], p.rest + more);
      }
    } else {
      var more: seq<Byte> :| Reassemble(p.rest + more) != Parsed([], p.rest + more);
      assert Reassemble(b + more) != Parsed(p.cmds, p.rest + more);
    }
  }

  /** A concrete failure: six bytes announcing a frame of seven block whatever comes
      behind them. */
  lemma SevenByteFrameStalls(more: seq<Byte>)
    ensures Reassemble([1, 1, 7, 0, 0, 0] + more) == Parsed([], [1, 1, 7, 0, 0, 0] + more)
  {
    var b: seq<Byte> := [1, 1, 7, 0, 0, 0];
    UnLeTwo(b[2..4]);
    ShortLengthStalls(b, more);
  }
}

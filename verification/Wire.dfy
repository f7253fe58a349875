/** The binary wire protocol: little-endian fields behind an eight-byte header. Writers and
    readers work field by field; a frame is the packing of its fields. */
module Wire {
  import opened Types

  type Byte = b: int | 0 <= b < 256

  const VERSION: nat := 1
  const HEADER_SIZE: nat := 8

  // --- little-endian integers ----------------------------------------------------------------

  function Pow256(w: nat): (p: nat)
    ensures p >= 1
  {
    if w == 0 then 1 else 256 * Pow256(w - 1)
  }

  /** The low `w` bytes of `v`, least significant first. */
  function Le(v: nat, w: nat): (b: seq<Byte>)
    ensures |b| == w
  {
    if w == 0 then [] else [v % 256] + Le(v / 256, w - 1)
  }

  function UnLe(b: seq<Byte>): (v: nat)
    ensures v < Pow256(|b|)
  {
    if b == [] then 0 else b[0] + 256 * UnLe(b[1..])
  }

  lemma {:induction false} LeRoundTrip(v: nat, w: nat)
    requires v < Pow256(w)
    ensures UnLe(Le(v, w)) == v
  {
    if w > 0 {
      LeRoundTrip(v / 256, w - 1);
      assert Le(v, w)[1..] == Le(v / 256, w - 1);
    }
  }

  lemma LeCons(x: int, y: nat, w: nat)
    requires 0 <= x < 256
    ensures Le(x + 256 * y, w + 1) == [x] + Le(y, w)
  {
    assert (x + 256 * y) % 256 == x && (x + 256 * y) / 256 == y;
  }

  lemma UnLeCons(b: seq<Byte>)
    requires b != []
    ensures UnLe(b) == b[0] + 256 * UnLe(b[1..])
  {
  }

  lemma {:induction false} UnLeRoundTrip(b: seq<Byte>)
    ensures Le(UnLe(b), |b|) == b
  {
    if b != [] {
      var x, y := b[0] as int, UnLe(b[1..]);
      UnLeRoundTrip(b[1..]);
      hide Le, UnLe;
      LeCons(x, y, |b| - 1);
      UnLeCons(b);
    }
  }

  lemma {:induction false} UnLeSnoc(b: seq<Byte>, x: Byte)
    ensures UnLe(b + [x]) == UnLe(b) + x * Pow256(|b|)
  {
    if b == [] {
      assert b + [x] == [x];
      assert UnLe([x]) == x + 256 * UnLe([x][1..]);
    } else {
      UnLeSnoc(b[1..], x);
      Times256(x, |b|);
      assert (b + [x])[1..] == b[1..] + [x] && (b + [x])[0] == b[0];
    }
  }

  lemma Times256(x: nat, n: nat)
    requires n > 0
    ensures 256 * (x * Pow256(n - 1)) == x * Pow256(n)
  {
  }

  // --- fields ----------------------------------------------------------------------------------

  datatype Field = Field(width: nat, value: nat)

  function Widths(fs: seq<Field>): (ws: seq<nat>)
    ensures |ws| == |fs|
  {
    seq(|fs|, i requires 0 <= i < |fs| => fs[i].width)
  }

  function Values(fs: seq<Field>): (vs: seq<nat>)
    ensures |vs| == |fs|
  {
    seq(|fs|, i requires 0 <= i < |fs| => fs[i].value)
  }

  function Total(ws: seq<nat>): nat {
    if ws == [] then 0 else Total(ws[..|ws| - 1]) + ws[|ws| - 1]
  }

  /** Fields laid end to end. */
  function Pack(fs: seq<Field>): (b: seq<Byte>)
    ensures |b| == Total(Widths(fs))
  {
    if fs == [] then []
    else
      var f := fs[|fs| - 1];
      assert Widths(fs)[..|fs| - 1] == Widths(fs[..|fs| - 1]);
      Pack(fs[..|fs| - 1]) + Le(f.value, f.width)
  }

  /** Bytes cut into fields of the given widths. */
  function Unpack(ws: seq<nat>, b: seq<Byte>): (vs: seq<nat>)
    requires |b| == Total(ws)
    ensures |vs| == |ws|
  {
    if ws == [] then []
    else
      var n := |b| - ws[|ws| - 1];
      Unpack(ws[..|ws| - 1], b[..n]) + [UnLe(b[n..])]
  }

  ghost predicate Fit(fs: seq<Field>) {
    forall i :: 0 <= i < |fs| ==> fs[i].value < Pow256(fs[i].width)
  }

  lemma {:induction false} UnpackPack(fs: seq<Field>)
    requires Fit(fs)
    ensures Unpack(Widths(fs), Pack(fs)) == Values(fs)
  {
    if fs != [] {
      var k := |fs| - 1;
      UnpackPack(fs[..k]);
      LeRoundTrip(fs[k].value, fs[k].width);
      assert Widths(fs)[..k] == Widths(fs[..k]) && Values(fs) == Values(fs[..k]) + [fs[k].value];
      var b := Pack(fs);
      var n := |b| - fs[k].width;
      assert b[..n] == Pack(fs[..k]) && b[n..] == Le(fs[k].value, fs[k].width);
    }
  }

  lemma PackSnoc(fs: seq<Field>, f: Field)
    ensures Pack(fs + [f]) == Pack(fs) + Le(f.value, f.width)
  {
    assert (fs + [f])[..|fs|] == fs;
  }

  lemma TotalSnoc(ws: seq<nat>, w: nat)
    ensures Total(ws + [w]) == Total(ws) + w
  {
    assert (ws + [w])[..|ws|] == ws;
  }

  lemma UnpackSnoc(ws: seq<nat>, w: nat, b: seq<Byte>, c: seq<Byte>)
    requires |b| == Total(ws) && |c| == w
    ensures Total(ws + [w]) == |b + c| && Unpack(ws + [w], b + c) == Unpack(ws, b) + [UnLe(c)]
  {
    TotalSnoc(ws, w);
    assert (ws + [w])[..|ws|] == ws && (b + c)[..|b|] == b && (b + c)[|b|..] == c;
  }

  lemma {:induction false} PackConcat(a: seq<Field>, b: seq<Field>)
    ensures Pack(a + b) == Pack(a) + Pack(b)
  {
    assert Pack([]) == [];
    hide Pack, Le;
    if b == [] {
      assert a + b == a;
    } else {
      var b', f := b[..|b| - 1], b[|b| - 1];
      assert a + b == (a + b') + [f] && b == b' + [f];
      PackSnoc(a + b', f);
      PackSnoc(b', f);
      PackConcat(a, b');
    }
  }

  // --- messages ----------------------------------------------------------------------------------

  const TWO_63: int := 0x8000_0000_0000_0000
  const TWO_64: int := 0x1_0000_0000_0000_0000

  /** A signed 64-bit value as the unsigned one with the same bits. */
  function ToU64(p: int): nat
    requires -TWO_63 <= p < TWO_63
  {
    if p < 0 then p + TWO_64 else p
  }

  function FromU64(u: nat): int {
    if u < TWO_63 then u else u - TWO_64
  }

  /** Message bodies. Enumerations travel as raw bytes. */
  datatype Message =
    | NewOrder(orderId: nat, client: nat, side: nat, typ: nat, price: int, quantity: nat, tsClient: nat)
    | CancelOrder(orderId: nat, client: nat, tsClient: nat)
    | ModifyOrder(orderId: nat, client: nat, price: int, quantity: nat, tsClient: nat)
    | ExecReport(orderId: nat, contraId: nat, client: nat, event: nat, side: nat, reason: nat, flags: nat,
                 price: int, quantity: nat, leaves: nat, tsClient: nat, tsEngine: nat)
    | MdTrade(streamSeq: nat, price: int, quantity: nat, aggressor: nat, tsEngine: nat)
    | MdBookChange(streamSeq: nat, bidPx: int, bidQty: nat, askPx: int, askQty: nat, tsEngine: nat)
    | MdHeartbeat(streamSeq: nat, tsEngine: nat)

  datatype MsgType = TNew | TCancel | TModify | TExec | TTrade | TBook | TBeat

  function Code(t: MsgType): Byte {
    match t
    case TNew => 1 case TCancel => 2 case TModify => 3 case TExec => 10
    case TTrade => 20 case TBook => 21 case TBeat => 22
  }

  function TypeOf(m: Message): MsgType {
    match m
    case NewOrder(_, _, _, _, _, _, _) => TNew
    case CancelOrder(_, _, _) => TCancel
    case ModifyOrder(_, _, _, _, _) => TModify
    case ExecReport(_, _, _, _, _, _, _, _, _, _, _, _) => TExec
    case MdTrade(_, _, _, _, _) => TTrade
    case MdBookChange(_, _, _, _, _, _) => TBook
    case MdHeartbeat(_, _) => TBeat
  }

  /** Full frame lengths, header included. */
  function Length(t: MsgType): nat {
    match t
    case TNew => 48 case TCancel => 28 case TModify => 44 case TExec => 72
    case TTrade => 41 case TBook => 56 case TBeat => 24
  }

  /** The field widths of a body. */
  function Layout(t: MsgType): seq<nat> {
    match t
    case TNew => [8, 4, 1, 1, 1, 1, 8, 8, 8]
    case TCancel => [8, 4, 8]
    case TModify => [8, 4, 8, 8, 8]
    case TExec => [8, 8, 4, 1, 1, 1, 1, 8, 8, 8, 8, 8]
    case TTrade => [8, 8, 8, 1, 8]
    case TBook => [8, 8, 8, 8, 8, 8]
    case TBeat => [8, 8]
  }

  predicate IsI64(p: int) { -TWO_63 <= p < TWO_63 }
  predicate IsU64(v: nat) { v < TWO_64 }
  predicate IsU32(v: nat) { v < 0x1_0000_0000 }
  predicate IsU8(v: nat) { v < 256 }

  /** Every field is within its C++ type. */
  predicate Representable(m: Message) {
    match m
    case NewOrder(id, c, s, t, p, q, ts) => IsU64(id) && IsU32(c) && IsU8(s) && IsU8(t) && IsI64(p) && IsU64(q)
        && IsU64(ts)
    case CancelOrder(id, c, ts) => IsU64(id) && IsU32(c) && IsU64(ts)
    case ModifyOrder(id, c, p, q, ts) => IsU64(id) && IsU32(c) && IsI64(p) && IsU64(q) && IsU64(ts)
    case ExecReport(id, x, c, e, s, r, f, p, q, l, tc, te) =>
      IsU64(id) && IsU64(x) && IsU32(c) && IsU8(e) && IsU8(s) && IsU8(r) && IsU8(f)
      && IsI64(p) && IsU64(q) && IsU64(l) && IsU64(tc) && IsU64(te)
    case MdTrade(n, p, q, a, te) => IsU64(n) && IsI64(p) && IsU64(q) && IsU8(a) && IsU64(te)
    case MdBookChange(n, bp, bq, ap, aq, te) => IsU64(n) && IsI64(bp) && IsU64(bq) && IsI64(ap) && IsU64(aq)
        && IsU64(te)
    case MdHeartbeat(n, te) => IsU64(n) && IsU64(te)
  }

  function HeaderFields(t: MsgType, seqNo: nat): seq<Field> {
    [Field(1, Code(t)), Field(1, VERSION), Field(2, Length(t)), Field(4, seqNo)]
  }

  function BodyFields(m: Message): seq<Field>
    requires Representable(m)
  {
    match m
    case NewOrder(id, c, s, t, p, q, ts) =>
      [Field(8, id), Field(4, c), Field(1, s), Field(1, t), Field(1, 0), Field(1, 0), Field(8, ToU64(p)), Field(8, q),
          Field(8, ts)]
    case CancelOrder(id, c, ts) => [Field(8, id), Field(4, c), Field(8, ts)]
    case ModifyOrder(id, c, p, q, ts) => [Field(8, id), Field(4, c), Field(8, ToU64(p)), Field(8, q), Field(8, ts)]
    case ExecReport(id, x, c, e, s, r, f, p, q, l, tc, te) =>
      [Field(8, id), Field(8, x), Field(4, c), Field(1, e), Field(1, s), Field(1, r), Field(1, f),
       Field(8, ToU64(p)), Field(8, q), Field(8, l), Field(8, tc), Field(8, te)]
    case MdTrade(n, p, q, a, te) => [Field(8, n), Field(8, ToU64(p)), Field(8, q), Field(1, a), Field(8, te)]
    case MdBookChange(n, bp, bq, ap, aq, te) =>
      [Field(8, n), Field(8, ToU64(bp)), Field(8, bq), Field(8, ToU64(ap)), Field(8, aq), Field(8, te)]
    case MdHeartbeat(n, te) => [Field(8, n), Field(8, te)]
  }

  /** The message a list of field values stands for; padding is dropped. */
  function FromValues(t: MsgType, v: seq<nat>): (m: Message)
    requires |v| == |Layout(t)|
    ensures TypeOf(m) == t
  {
    match t
    case TNew => NewOrder(v[0], v[1], v[2], v[3], FromU64(v[6]), v[7], v[8])
    case TCancel => CancelOrder(v[0], v[1], v[2])
    case TModify => ModifyOrder(v[0], v[1], FromU64(v[2]), v[3], v[4])
    case TExec => ExecReport(v[0], v[1], v[2], v[3], v[4], v[5], v[6], FromU64(v[7]), v[8], v[9], v[10], v[11])
    case TTrade => MdTrade(v[0], FromU64(v[1]), v[2], v[3], v[4])
    case TBook => MdBookChange(v[0], FromU64(v[1]), v[2], FromU64(v[3]), v[4], v[5])
    case TBeat => MdHeartbeat(v[0], v[1])
  }

  /** The frame of a message. */
  function Frame(seqNo: nat, m: Message): seq<Byte>
    requires Representable(m)
  {
    Pack(HeaderFields(TypeOf(m), seqNo) + BodyFields(m))
  }

  datatype Header = Header(typ: nat, version: nat, length: nat, seqNo: nat)

  /** The header of the frame at the front of a stream, once the whole frame is there. */
  function Peek(b: seq<Byte>): (h: Option<Header>)
    ensures h.Some? ==> HEADER_SIZE <= h.value.length <= |b|
  {
    if |b| < HEADER_SIZE then None
    else
      var h := Header(b[0], b[1], UnLe(b[2..4]), UnLe(b[4..8]));
      if h.length < HEADER_SIZE || |b| < h.length then None else Some(h)
  }

  predicate HeaderMatches(f: seq<Byte>, t: MsgType) {
    |f| == Length(t) && f[0] == Code(t) && f[1] == VERSION
  }

  lemma TotalConcat3(ws: seq<nat>, a: nat, b: nat, c: nat)
    ensures Total(ws + [a, b, c]) == Total(ws) + a + b + c
  {
    TotalSnoc(ws, a);
    TotalSnoc(ws + [a], b);
    TotalSnoc(ws + [a] + [b], c);
    hide Total;
    assert ws + [a, b, c] == ws + [a] + [b] + [c];
  }

  lemma TotalConcat2(ws: seq<nat>, a: nat, b: nat)
    ensures Total(ws + [a, b]) == Total(ws) + a + b
  {
    TotalSnoc(ws, a);
    TotalSnoc(ws + [a], b);
    hide Total;
    assert ws + [a, b] == ws + [a] + [b];
  }

  lemma Totals3(a: nat, b: nat, c: nat)
    ensures Total([a, b, c]) == a + b + c
  {
    assert Total([]) == 0;
    TotalConcat3([], a, b, c);
    hide Total;
    assert [] + [a, b, c] == [a, b, c];
  }

  lemma Totals6(a: nat, b: nat, c: nat, d: nat, e: nat, f: nat)
    ensures Total([a, b, c, d, e, f]) == a + b + c + d + e + f
  {
    Totals3(a, b, c);
    TotalConcat3([a, b, c], d, e, f);
    hide Total;
    assert [a, b, c] + [d, e, f] == [a, b, c, d, e, f];
  }

  lemma Totals9(a: nat, b: nat, c: nat, d: nat, e: nat, f: nat, g: nat, h: nat, i: nat)
    ensures Total([a, b, c, d, e, f, g, h, i]) == a + b + c + d + e + f + g + h + i
  {
    Totals6(a, b, c, d, e, f);
    TotalConcat3([a, b, c, d, e, f], g, h, i);
    hide Total;
    assert [a, b, c, d, e, f] + [g, h, i] == [a, b, c, d, e, f, g, h, i];
  }

  lemma Totals5(a: nat, b: nat, c: nat, d: nat, e: nat)
    ensures Total([a, b, c, d, e]) == a + b + c + d + e
  {
    Totals3(a, b, c);
    TotalConcat2([a, b, c], d, e);
    hide Total;
    assert [a, b, c] + [d, e] == [a, b, c, d, e];
  }

  lemma Totals2(a: nat, b: nat)
    ensures Total([a, b]) == a + b
  {
    assert Total([]) == 0;
    TotalConcat2([], a, b);
    hide Total;
    assert [] + [a, b] == [a, b];
  }

  lemma Totals12()
    ensures Total([8, 8, 4, 1, 1, 1, 1, 8, 8, 8, 8, 8]) == 64
  {
    Totals9(8, 8, 4, 1, 1, 1, 1, 8, 8);
    TotalConcat3([8, 8, 4, 1, 1, 1, 1, 8, 8], 8, 8, 8);
    hide Total;
    assert [8, 8, 4, 1, 1, 1, 1, 8, 8] + [8, 8, 8] == [8, 8, 4, 1, 1, 1, 1, 8, 8, 8, 8, 8];
  }

  lemma LayoutTotals(t: MsgType)
    ensures HEADER_SIZE + Total(Layout(t)) == Length(t)
  {
    hide Total;
    match t
    case TNew => Totals9(8, 4, 1, 1, 1, 1, 8, 8, 8);
    case TCancel => Totals3(8, 4, 8);
    case TModify => Totals5(8, 4, 8, 8, 8);
    case TExec => Totals12();
    case TTrade => Totals5(8, 8, 8, 1, 8);
    case TBook => Totals6(8, 8, 8, 8, 8, 8);
    case TBeat => Totals2(8, 8);
  }

  // --- decoding ----------------------------------------------------------------------------------

  /** What a decoder for type `t` makes of one complete frame. */
  function Decoded(t: MsgType, f: seq<Byte>): (r: Option<Message>)
    ensures r.Some? ==> TypeOf(r.value) == t
  {
    if !HeaderMatches(f, t) then None
    else
      LayoutTotals(t);
      Some(FromValues(t, Unpack(Layout(t), f[HEADER_SIZE..])))
  }

  lemma Pow256Values()
    ensures Pow256(1) == 0x100 && Pow256(2) == 0x1_0000
    ensures Pow256(4) == 0x1_0000_0000 && Pow256(8) == TWO_64
  {
    assert Pow256(3) == 256 * Pow256(2);
    assert Pow256(5) == 256 * Pow256(4);
    assert Pow256(6) == 256 * Pow256(5);
    assert Pow256(7) == 256 * Pow256(6);
  }

  /** A body's fields have its type's layout, fit their widths and give the message back. */
  lemma BodyOk(m: Message)
    requires Representable(m)
    ensures Fit(BodyFields(m)) && Widths(BodyFields(m)) == Layout(TypeOf(m))
    ensures FromValues(TypeOf(m), Values(BodyFields(m))) == m
  {
    BodyBack(m);
    BodyFits(m);
    BodyWidths(m);
    hide *;
  }

  lemma BodyWidths(m: Message)
    requires Representable(m)
    ensures Widths(BodyFields(m)) == Layout(TypeOf(m))
  {
    var ws := Widths(BodyFields(m));
    hide IsU64, IsU32, IsU8, IsI64;
    assert |ws| == |Layout(TypeOf(m))|;
  }

  lemma BodyFits(m: Message)
    requires Representable(m)
    ensures Fit(BodyFields(m))
  {
    Pow256Values();
    hide Pow256;
  }

  lemma BodyBack(m: Message)
    requires Representable(m)
    ensures |BodyFields(m)| == |Layout(TypeOf(m))| && FromValues(TypeOf(m), Values(BodyFields(m))) == m
  {
  }

  lemma LeOne(v: nat)
    requires v < 256
    ensures Le(v, 1) == [v]
  {
    assert Le(v / 256, 0) == [];
  }

  lemma HeaderBytes(t: MsgType, seqNo: nat)
    ensures Pack(HeaderFields(t, seqNo)) == [Code(t), VERSION] + Le(Length(t), 2) + Le(seqNo, 4)
  {
    LeOne(Code(t));
    LeOne(VERSION);
    var f := HeaderFields(t, seqNo);
    PackSnoc([], f[0]);
    PackSnoc(f[..1], f[1]);
    PackSnoc(f[..2], f[2]);
    PackSnoc(f[..3], f[3]);
    assert [] + [f[0]] == f[..1] && f[..1] + [f[1]] == f[..2] && f[..2] + [f[2]] == f[..3] && f[..3] + [f[3]] == f;
  }

  /** A frame is the header's eight bytes and then the packed body. */
  lemma FrameShape(seqNo: nat, m: Message)
    requires Representable(m)
    ensures var t, f := TypeOf(m), Frame(seqNo, m);
            && |f| == Length(t) && f[..8] == [Code(t), VERSION] + Le(Length(t), 2) + Le(seqNo, 4)
            && f[8..] == Pack(BodyFields(m))
  {
    var t := TypeOf(m);
    PackConcat(HeaderFields(t, seqNo), BodyFields(m));
    HeaderBytes(t, seqNo);
    LayoutTotals(t);
    BodyOk(m);
    hide Pack, BodyFields, Le, Layout, Representable;
  }

  /** Decoding an encoded message gives the message; no other decoder takes the frame. */
  lemma DecodeFrame(seqNo: nat, m: Message, t: MsgType)
    requires Representable(m)
    ensures Decoded(t, Frame(seqNo, m)) == if t == TypeOf(m) then Some(m) else None
  {
    FrameStart(seqNo, m);
    hide Pack, BodyFields, Representable, Frame, Decoded, TypeOf;
    if t == TypeOf(m) {
      DecodeOwn(m, Frame(seqNo, m));
    } else {
      DecodeOther(Frame(seqNo, m), TypeOf(m), t);
    }
  }

  lemma FrameStart(seqNo: nat, m: Message)
    requires Representable(m)
    ensures var t, f := TypeOf(m), Frame(seqNo, m);
            |f| == Length(t) >= 8 && f[0] == Code(t) && f[1] == VERSION && f[8..] == Pack(BodyFields(m))
  {
    FrameShape(seqNo, m);
    hide Pack, BodyFields, Representable, Frame, Le;
    var t, f := TypeOf(m), Frame(seqNo, m);
    var h := [Code(t), VERSION] + Le(Length(t), 2) + Le(seqNo, 4);
    assert h[0] == Code(t) && h[1] == VERSION;
    assert f[0] == f[..8][0] && f[1] == f[..8][1];
  }

  lemma DecodeOwn(m: Message, f: seq<Byte>)
    requires Representable(m)
    requires |f| == Length(TypeOf(m)) && f[0] == Code(TypeOf(m)) && f[1] == VERSION && f[8..] == Pack(BodyFields(m))
    ensures Decoded(TypeOf(m), f) == Some(m)
  {
    UnpackBody(m);
    hide Pack, BodyFields, Representable, Unpack, FromValues, Layout, TypeOf;
  }

  lemma DecodeOther(f: seq<Byte>, own: MsgType, t: MsgType)
    requires f != [] && f[0] == Code(own) && own != t
    ensures Decoded(t, f) == None
  {
    hide Unpack, FromValues, Layout;
  }

  lemma UnpackBody(m: Message)
    requires Representable(m)
    ensures var t := TypeOf(m);
            && |Pack(BodyFields(m))| == Total(Layout(t))
            && FromValues(t, Unpack(Layout(t), Pack(BodyFields(m)))) == m
  {
    BodyOk(m);
    UnpackPack(BodyFields(m));
    hide Pack, BodyFields, Le, Layout, Representable, FromValues, Unpack;
  }

  /** The header of a frame is read back whatever follows the frame. */
  lemma PeekFrame(seqNo: nat, m: Message, rest: seq<Byte>)
    requires Representable(m) && seqNo < 0x1_0000_0000
    ensures Peek(Frame(seqNo, m) + rest) == Some(Header(Code(TypeOf(m)), VERSION, Length(TypeOf(m)), seqNo))
  {
    var t, f := TypeOf(m), Frame(seqNo, m);
    FrameShape(seqNo, m);
    Pow256Values();
    LeRoundTrip(Length(t), 2);
    LeRoundTrip(seqNo, 4);
    hide Pack, BodyFields, Le, UnLe, Layout, Representable, Frame, Pow256;
    var b := f + rest;
    assert |f| >= 8 && b[..8] == f[..8];
    HeadParts(b, Code(t), Le(Length(t), 2), Le(seqNo, 4));
  }

  lemma HeadParts(b: seq<Byte>, code: Byte, length: seq<Byte>, seqNo: seq<Byte>)
    requires |b| >= 8 && |length| == 2 && |seqNo| == 4 && b[..8] == [code, VERSION] + length + seqNo
    ensures b[0] == code && b[1] == VERSION && b[2..4] == length && b[4..8] == seqNo
  {
    var h := b[..8];
    assert b[2..4] == h[2..4] && b[4..8] == h[4..8] && b[0] == h[0] && b[1] == h[1];
  }

  function Zip(ws: seq<nat>, vs: seq<nat>): (fs: seq<Field>)
    requires |ws| == |vs|
    ensures |fs| == |ws|
  {
    seq(|ws|, i requires 0 <= i < |ws| => Field(ws[i], vs[i]))
  }

  lemma UnpackLast(ws: seq<nat>, b: seq<Byte>)
    requires |b| == Total(ws) && ws != []
    ensures var k := |ws| - 1;
            var n := |b| - ws[k];
            && n >= 0 && |b[..n]| == Total(ws[..k])
            && Unpack(ws, b) == Unpack(ws[..k], b[..n]) + [UnLe(b[n..])]
  {
  }

  lemma ZipSnoc(ws: seq<nat>, vs: seq<nat>, w: nat, v: nat)
    requires |ws| == |vs|
    ensures Zip(ws + [w], vs + [v]) == Zip(ws, vs) + [Field(w, v)]
    ensures Fit(Zip(ws, vs)) && v < Pow256(w) ==> Fit(Zip(ws, vs) + [Field(w, v)])
  {
  }

  lemma RepackLast(ws: seq<nat>, w: nat, b: seq<Byte>, c: seq<Byte>)
    requires |b| == Total(ws) && |c| == w
    requires Pack(Zip(ws, Unpack(ws, b))) == b && Fit(Zip(ws, Unpack(ws, b)))
    ensures var fs := Zip(ws + [w], Unpack(ws, b) + [UnLe(c)]); Pack(fs) == b + c && Fit(fs)
  {
    hide Le, UnLe, Pow256, Unpack, Total, Pack, Zip, Fit;
    var vs := Unpack(ws, b);
    UnLeRoundTrip(c);
    ZipSnoc(ws, vs, w, UnLe(c));
    PackSnoc(Zip(ws, vs), Field(w, UnLe(c)));
  }

  lemma {:induction false} PackUnpack(ws: seq<nat>, b: seq<Byte>)
    requires |b| == Total(ws)
    ensures Pack(Zip(ws, Unpack(ws, b))) == b && Fit(Zip(ws, Unpack(ws, b)))
  {
    if ws != [] {
      var k := |ws| - 1;
      var n := |b| - ws[k];
      hide Unpack, Pack, Zip, Fit;
      assert ws == ws[..k] + [ws[k]] && b == b[..n] + b[n..];
      hide Total;
      PackUnpack(ws[..k], b[..n]);
      PackUnpackSnoc(ws[..k], ws[k], b[..n], b[n..]);
    }
  }

  lemma PackUnpackSnoc(ws: seq<nat>, w: nat, b: seq<Byte>, c: seq<Byte>)
    requires |b| == Total(ws) && |c| == w
    requires Pack(Zip(ws, Unpack(ws, b))) == b && Fit(Zip(ws, Unpack(ws, b)))
    ensures |b + c| == Total(ws + [w])
    ensures var fs := Zip(ws + [w], Unpack(ws + [w], b + c)); Pack(fs) == b + c && Fit(fs)
  {
    UnpackSnoc(ws, w, b, c);
    RepackLast(ws, w, b, c);
  }

  lemma {:induction false} UnpackAt(ws: seq<nat>, b: seq<Byte>, i: nat)
    requires |b| == Total(ws) && i < |ws|
    ensures Total(ws[..i]) + ws[i] <= |b|
    ensures Unpack(ws, b)[i] == UnLe(b[Total(ws[..i])..Total(ws[..i]) + ws[i]])
  {
    hide UnLe, Unpack, Total;
    var k := |ws| - 1;
    var n := |b| - ws[k];
    UnpackLast(ws, b);
    if i < k {
      UnpackAt(ws[..k], b[..n], i);
      assert ws[..k][..i] == ws[..i];
      var o := Total(ws[..i]);
      assert b[..n][o..o + ws[i]] == b[o..o + ws[i]];
    } else {
      assert b[n..n + ws[k]] == b[n..];
    }
  }

  /** The two padding fields of a new order are bytes 14 and 15 of its body. */
  lemma PaddingFields(b: seq<Byte>)
    requires |b| == Total(Layout(TNew))
    ensures |b| == 40 && var v := Unpack(Layout(TNew), b); v[4] == b[14] && v[5] == b[15]
  {
    hide UnLe, Unpack, Total;
    LayoutTotals(TNew);
    var ws := Layout(TNew);
    UnpackAt(ws, b, 4);
    UnpackAt(ws, b, 5);
    Totals5(8, 4, 1, 1, 1);
    TotalSnoc([8, 4, 1, 1], 1);
    assert ws[..4] == [8, 4, 1, 1] && ws[..5] == [8, 4, 1, 1, 1] && [8, 4, 1, 1] + [1] == [8, 4, 1, 1, 1];
    UnLeOne(b[14..15]);
    UnLeOne(b[15..16]);
  }

  lemma UnLeOne(b: seq<Byte>)
    requires |b| == 1
    ensures UnLe(b) == b[0]
  {
    assert UnLe(b[1..]) == 0;
  }

  /** Field values that fit give a representable message with those fields, padding aside. */
  lemma FieldsBack(t: MsgType, v: seq<nat>)
    requires |v| == |Layout(t)| && Fit(Zip(Layout(t), v))
    ensures var m, fs := FromValues(t, v), Zip(Layout(t), v);
            Representable(m) && BodyFields(m) == if t.TNew? then fs[4 := Field(1, 0)][5 := Field(1, 0)] else fs
  {
    ValuesFit(t, v);
    hide Pow256, Fit, IsU64, IsU32, IsU8;
    match t
    case TNew => NewFieldsBack(v);
    case TExec => ExecFieldsBack(v);
    case _ =>
  }

  lemma NewFieldsBack(v: seq<nat>)
    requires |v| == 9 && Representable(FromValues(TNew, v)) && v[6] < TWO_64
    ensures BodyFields(FromValues(TNew, v)) == Zip(Layout(TNew), v)[4 := Field(1, 0)][5 := Field(1, 0)]
  {
  }

  lemma ExecFieldsBack(v: seq<nat>)
    requires |v| == 12 && Representable(FromValues(TExec, v)) && v[7] < TWO_64
    ensures BodyFields(FromValues(TExec, v)) == Zip(Layout(TExec), v)
  {
  }

  lemma ValuesFit(t: MsgType, v: seq<nat>)
    requires |v| == |Layout(t)| && Fit(Zip(Layout(t), v))
    ensures Representable(FromValues(t, v))
    ensures forall i :: 0 <= i < |v| && Layout(t)[i] == 8 ==> v[i] < TWO_64
  {
    Pow256Values();
    hide Pow256;
    var fs := Zip(Layout(t), v);
    assert forall i :: 0 <= i < |fs| ==> fs[i] == Field(Layout(t)[i], v[i]) && v[i] < Pow256(Layout(t)[i]);
  }

  /** Conversely a decoder accepts only frames whose body is the packing of the message it
      returns, except that it ignores the two padding bytes of a new order. */
  lemma DecodedIsPacked(t: MsgType, f: seq<Byte>)
    requires Decoded(t, f).Some?
    ensures var m := Decoded(t, f).value;
            && Representable(m)
            && (f[8..] == Pack(BodyFields(m)) <==> (t.TNew? ==> f[22] == 0 && f[23] == 0))
  {
    LayoutTotals(t);
    var b := f[HEADER_SIZE..];
    var v := Unpack(Layout(t), b);
    var m, fs := FromValues(t, v), Zip(Layout(t), v);
    PackUnpack(Layout(t), b);
    FieldsBack(t, v);
    if t.TNew? {
      PaddingFields(b);
      BodyOk(m);
      UnpackPack(BodyFields(m));
    }
    hide Pack, Unpack, BodyFields, FromValues, Fit, Representable;
    if t.TNew? {
      assert fs[4] == Field(1, v[4]) && fs[5] == Field(1, v[5]);
      if v[4] == 0 && v[5] == 0 {
        assert BodyFields(m) == fs;
      }
    }
  }

  // --- the bytes on the wire ----------------------------------------------------------------------

  /** The little-endian bytes of the widths in use, one by one. */
  lemma LeBytes(v: nat)
    ensures Le(v, 1) == [v % 256]
    ensures Le(v, 2) == [v % 256, v / 0x100 % 256]
    ensures Le(v, 4) == [v % 256, v / 0x100 % 256, v / 0x1_0000 % 256, v / 0x100_0000 % 256]
    ensures Le(v, 8) == Le(v, 4) + Le(v / 0x1_0000_0000, 4)
  {
    LeFour(v);
    LeFour(v / 0x1_0000_0000);
    LeSplit(v);
  }

  lemma LeFour(v: nat)
    ensures Le(v, 1) == [v % 256]
    ensures Le(v, 2) == [v % 256, v / 0x100 % 256]
    ensures Le(v, 4) == [v % 256, v / 0x100 % 256, v / 0x1_0000 % 256, v / 0x100_0000 % 256]
  {
    var a, b, c := v / 0x100, v / 0x1_0000, v / 0x100_0000;
    assert a / 256 == b && b / 256 == c;
    assert Le(c, 1) == [c % 256] + Le(c / 256, 0);
    assert Le(b, 2) == [b % 256] + Le(c, 1);
    assert Le(a, 3) == [a % 256] + Le(b, 2);
    assert Le(v, 1) == [v % 256] + Le(a, 0);
    assert Le(v, 2) == [v % 256] + Le(a, 1);
    assert Le(a, 1) == [a % 256] + Le(b, 0);
  }

  lemma LeSplit(v: nat)
    ensures Le(v, 8) == Le(v, 4) + Le(v / 0x1_0000_0000, 4)
  {
    var a, b, c, d := v / 0x100, v / 0x1_0000, v / 0x100_0000, v / 0x1_0000_0000;
    assert a / 256 == b && b / 256 == c && c / 256 == d;
    hide Le;
    LeFour(v);
    LeStep(v, 7);
    LeStep(a, 6);
    LeStep(b, 5);
    LeStep(c, 4);
    FourAhead(v % 256, a % 256, b % 256, c % 256, Le(d, 4));
  }

  lemma FourAhead(a: Byte, b: Byte, c: Byte, d: Byte, s: seq<Byte>)
    ensures [a] + ([b] + ([c] + ([d] + s))) == [a, b, c, d] + s
  {
  }

  lemma LeStep(v: nat, w: nat)
    ensures Le(v, w + 1) == [v % 256] + Le(v / 256, w)
  {
  }

  /** A negative price travels as its two's complement: -1 is eight bytes of 255. */
  lemma SignedBytes(p: int)
    requires -TWO_63 <= p < TWO_63
    ensures ToU64(p) < TWO_64 && ToU64(p) % TWO_64 == p % TWO_64
  {
  }

  /** Pieces laid end to end. */
  function Concat(chunks: seq<seq<Byte>>): seq<Byte> {
    if chunks == [] then [] else Concat(chunks[..|chunks| - 1]) + chunks[|chunks| - 1]
  }

  /** The bytes of each field. */
  function Pieces(fs: seq<Field>): (p: seq<seq<Byte>>)
    ensures |p| == |fs|
  {
    seq(|fs|, i requires 0 <= i < |fs| => Le(fs[i].value, fs[i].width))
  }

  lemma {:induction false} PackIsConcat(fs: seq<Field>)
    ensures Pack(fs) == Concat(Pieces(fs))
  {
    if fs != [] {
      var n := |fs| - 1;
      PackIsConcat(fs[..n]);
      assert Pieces(fs)[..n] == Pieces(fs[..n]);
    }
  }

  lemma FrameIsPieces(n: nat, m: Message, fs: seq<Field>)
    requires Representable(m) && fs == HeaderFields(TypeOf(m), n) + BodyFields(m)
    ensures Frame(n, m) == Concat(Pieces(fs))
  {
    PackIsConcat(fs);
  }

  /** The frame of each message, piece by piece: type, version, length and sequence number, then the
      fields in this order, little-endian, prices in two's complement. */
  lemma NewOrderBytes(n: nat, m: Message)
    requires Representable(m) && m.NewOrder?
    ensures Frame(n, m) == Concat([Le(1, 1), Le(1, 1), Le(48, 2), Le(n, 4), Le(m.orderId, 8), Le(m.client, 4),
                                   Le(m.side, 1), Le(m.typ, 1), Le(0, 1), Le(0, 1), Le(ToU64(m.price), 8),
                                   Le(m.quantity, 8), Le(m.tsClient, 8)])
  {
    hide IsU64, IsU32, IsU8, Le, Concat, ToU64;
    var fs := HeaderFields(TypeOf(m), n) + BodyFields(m);
    FrameIsPieces(n, m, fs);
    hide Frame;
    assert Pieces(fs) == [Le(1, 1), Le(1, 1), Le(48, 2), Le(n, 4), Le(m.orderId, 8), Le(m.client, 4), Le(m.side, 1),
                          Le(m.typ, 1), Le(0, 1), Le(0, 1), Le(ToU64(m.price), 8), Le(m.quantity, 8),
                          Le(m.tsClient, 8)];
  }

  lemma CancelOrderBytes(n: nat, m: Message)
    requires Representable(m) && m.CancelOrder?
    ensures Frame(n, m) == Concat([Le(2, 1), Le(1, 1), Le(28, 2), Le(n, 4), Le(m.orderId, 8), Le(m.client, 4),
                                   Le(m.tsClient, 8)])
  {
    hide IsU64, IsU32, IsU8, Le, Concat, ToU64;
    var fs := HeaderFields(TypeOf(m), n) + BodyFields(m);
    FrameIsPieces(n, m, fs);
    hide Frame;
    assert Pieces(fs) == [Le(2, 1), Le(1, 1), Le(28, 2), Le(n, 4), Le(m.orderId, 8), Le(m.client, 4),
                          Le(m.tsClient, 8)];
  }

  lemma ModifyOrderBytes(n: nat, m: Message)
    requires Representable(m) && m.ModifyOrder?
    ensures Frame(n, m) == Concat([Le(3, 1), Le(1, 1), Le(44, 2), Le(n, 4), Le(m.orderId, 8), Le(m.client, 4),
                                   Le(ToU64(m.price), 8), Le(m.quantity, 8), Le(m.tsClient, 8)])
  {
    hide IsU64, IsU32, IsU8, Le, Concat, ToU64;
    var fs := HeaderFields(TypeOf(m), n) + BodyFields(m);
    FrameIsPieces(n, m, fs);
    hide Frame;
    assert Pieces(fs) == [Le(3, 1), Le(1, 1), Le(44, 2), Le(n, 4), Le(m.orderId, 8), Le(m.client, 4),
                          Le(ToU64(m.price), 8), Le(m.quantity, 8), Le(m.tsClient, 8)];
  }

  lemma ExecReportBytes(n: nat, m: Message)
    requires Representable(m) && m.ExecReport?
    ensures Frame(n, m) == Concat([Le(10, 1), Le(1, 1), Le(72, 2), Le(n, 4), Le(m.orderId, 8), Le(m.contraId, 8),
                                   Le(m.client, 4), Le(m.event, 1), Le(m.side, 1), Le(m.reason, 1), Le(m.flags, 1),
                                   Le(ToU64(m.price), 8), Le(m.quantity, 8), Le(m.leaves, 8), Le(m.tsClient, 8),
                                   Le(m.tsEngine, 8)])
  {
    hide IsU64, IsU32, IsU8, Le, Concat, ToU64;
    var fs := HeaderFields(TypeOf(m), n) + BodyFields(m);
    FrameIsPieces(n, m, fs);
    hide Frame;
    assert Pieces(fs) == [Le(10, 1), Le(1, 1), Le(72, 2), Le(n, 4), Le(m.orderId, 8), Le(m.contraId, 8),
                          Le(m.client, 4), Le(m.event, 1), Le(m.side, 1), Le(m.reason, 1), Le(m.flags, 1),
                          Le(ToU64(m.price), 8), Le(m.quantity, 8), Le(m.leaves, 8), Le(m.tsClient, 8),
                          Le(m.tsEngine, 8)];
  }

  lemma MdTradeBytes(n: nat, m: Message)
    requires Representable(m) && m.MdTrade?
    ensures Frame(n, m) == Concat([Le(20, 1), Le(1, 1), Le(41, 2), Le(n, 4), Le(m.streamSeq, 8),
                                   Le(ToU64(m.price), 8), Le(m.quantity, 8), Le(m.aggressor, 1), Le(m.tsEngine, 8)])
  {
    hide IsU64, IsU32, IsU8, Le, Concat, ToU64;
    var fs := HeaderFields(TypeOf(m), n) + BodyFields(m);
    FrameIsPieces(n, m, fs);
    hide Frame;
    assert Pieces(fs) == [Le(20, 1), Le(1, 1), Le(41, 2), Le(n, 4), Le(m.streamSeq, 8), Le(ToU64(m.price), 8),
                          Le(m.quantity, 8), Le(m.aggressor, 1), Le(m.tsEngine, 8)];
  }

  lemma MdBookChangeBytes(n: nat, m: Message)
    requires Representable(m) && m.MdBookChange?
    ensures Frame(n, m) == Concat([Le(21, 1), Le(1, 1), Le(56, 2), Le(n, 4), Le(m.streamSeq, 8),
                                   Le(ToU64(m.bidPx), 8), Le(m.bidQty, 8), Le(ToU64(m.askPx), 8), Le(m.askQty, 8),
                                   Le(m.tsEngine, 8)])
  {
    hide IsU64, IsU32, IsU8, Le, Concat, ToU64;
    var fs := HeaderFields(TypeOf(m), n) + BodyFields(m);
    FrameIsPieces(n, m, fs);
    hide Frame;
    assert Pieces(fs) == [Le(21, 1), Le(1, 1), Le(56, 2), Le(n, 4), Le(m.streamSeq, 8), Le(ToU64(m.bidPx), 8),
                          Le(m.bidQty, 8), Le(ToU64(m.askPx), 8), Le(m.askQty, 8), Le(m.tsEngine, 8)];
  }

  lemma MdHeartbeatBytes(n: nat, m: Message)
    requires Representable(m) && m.MdHeartbeat?
    ensures Frame(n, m) == Concat([Le(22, 1), Le(1, 1), Le(24, 2), Le(n, 4), Le(m.streamSeq, 8), Le(m.tsEngine, 8)])
  {
    hide IsU64, IsU32, IsU8, Le, Concat, ToU64;
    var fs := HeaderFields(TypeOf(m), n) + BodyFields(m);
    FrameIsPieces(n, m, fs);
    hide Frame;
    assert Pieces(fs) == [Le(22, 1), Le(1, 1), Le(24, 2), Le(n, 4), Le(m.streamSeq, 8), Le(m.tsEngine, 8)];
  }

  /** A decoder takes exactly the frames of its own length, type byte and version 1. */
  lemma DecodedExactlyWhen(t: MsgType, f: seq<Byte>)
    ensures Decoded(t, f).Some? <==>
              match t
              case TNew => |f| == 48 && f[0] == 1 && f[1] == 1
              case TCancel => |f| == 28 && f[0] == 2 && f[1] == 1
              case TModify => |f| == 44 && f[0] == 3 && f[1] == 1
              case TExec => |f| == 72 && f[0] == 10 && f[1] == 1
              case TTrade => |f| == 41 && f[0] == 20 && f[1] == 1
              case TBook => |f| == 56 && f[0] == 21 && f[1] == 1
              case TBeat => |f| == 24 && f[0] == 22 && f[1] == 1
  {
    hide Unpack, FromValues, Total;
  }

  /** A header is read exactly when the length in bytes 2 and 3 is at least 8 and has arrived. */
  lemma PeekedExactlyWhen(b: seq<Byte>)
    ensures var n := if |b| >= 4 then (b[2] as int) + 256 * (b[3] as int) else 0;
            Peek(b).Some? <==> 8 <= n <= |b|
    ensures Peek(b).Some? ==>
              && Peek(b).value.typ == b[0] && Peek(b).value.version == b[1]
              && Peek(b).value.length == (b[2] as int) + 256 * (b[3] as int)
  {
    if |b| >= 4 {
      UnLeTwo(b[2..4]);
      assert b[2..4][0] == b[2] && b[2..4][1] == b[3];
    }
  }

  lemma UnLeTwo(b: seq<Byte>)
    requires |b| == 2
    ensures UnLe(b) == (b[0] as int) + 256 * (b[1] as int)
  {
    UnLeOne(b[1..]);
  }
}

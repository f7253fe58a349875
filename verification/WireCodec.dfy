/** The codec that runs: bounds-checked writers and readers moving a cursor over a buffer, the
    encoder and the seven decoders built on them. */
module WireCodec {
  import opened Types
  import opened Wire

  /** The bytes of an integer, peeled off by shifting. */
  method ToBytes(v: nat, w: nat) returns (tmp: seq<Byte>)
    ensures tmp == Le(v, w)
  {
    var rest := v;
    tmp := [];
    for i := 0 to w
      invariant |tmp| == i && tmp + Le(rest, w - i) == Le(v, w)
    {
      LeNext(rest, w - i);
      assert tmp + ([(rest % 256) as Byte] + Le(rest / 256, w - i - 1)) == (tmp + [rest % 256]) + Le(rest / 256,
          w - i - 1);
      tmp := tmp + [rest % 256];
      rest := rest / 256;
    }
  }

  lemma LeNext(v: nat, w: nat)
    requires w > 0
    ensures Le(v, w) == [(v % 256) as Byte] + Le(v / 256, w - 1)
  {
  }

  /** The integer of some bytes, put together by shifting. */
  method FromBytes(tmp: seq<Byte>) returns (v: nat)
    ensures v == UnLe(tmp)
  {
    v := 0;
    for i := 0 to |tmp|
      invariant v == UnLe(tmp[..i])
    {
      assert tmp[..i + 1] == tmp[..i] + [tmp[i]];
      UnLeSnoc(tmp[..i], tmp[i]);
      v := v + tmp[i] * Pow256(i);
    }
    assert tmp[..|tmp|] == tmp;
  }

  class Writer {
    const buf: array<Byte>
    const cap: nat
    var n: nat
    var ok: bool
    ghost var fields: seq<Field>

    /** While everything has fitted, the buffer starts with the packed fields. */
    ghost predicate Valid()
      reads this, buf
    {
      && cap <= buf.Length && n <= cap
      && n <= Total(Widths(fields))
      && (ok <==> Total(Widths(fields)) <= cap)
      && (ok ==> n == Total(Widths(fields)) && buf[..n] == Pack(fields))
    }

    constructor (buf: array<Byte>, cap: nat)
      requires cap <= buf.Length
      ensures Valid() && fields == [] && this.buf == buf && this.cap == cap
    {
      this.buf, this.cap := buf, cap;
      n, ok := 0, true;
      fields := [];
    }

    /** Copy bytes in, or note that they do not fit. */
    method Put(p: seq<Byte>)
      requires cap <= buf.Length && n <= cap
      modifies this`n, this`ok, buf
      ensures buf[cap..] == old(buf[cap..])
      ensures old(n) + |p| > cap ==> n == old(n) && !ok && buf[..] == old(buf[..])
      ensures old(n) + |p| <= cap ==> n == old(n) + |p| && ok == old(ok) && buf[..n] == old(buf[..n]) + p
    {
      if n + |p| > cap {
        ok := false;
        return;
      }
      for i := 0 to |p|
        invariant n == old(n) && ok == old(ok)
        invariant buf[n..n + i] == p[..i]
        invariant forall k :: 0 <= k < buf.Length && !(n <= k < n + i) ==> buf[k] == old(buf[k])
      {
        buf[n + i] := p[i];
      }
      assert buf[..n + |p|] == buf[..n] + buf[n..n + |p|];
      n := n + |p|;
    }

    /** Append the low `w` bytes of a value, least significant first. */
    method Int(v: nat, w: nat)
      requires Valid()
      modifies this`n, this`ok, this`fields, buf
      ensures Valid() && fields == old(fields) + [Field(w, v)] && buf[cap..] == old(buf[cap..])
    {
      var tmp := ToBytes(v, w);
      PackSnoc(fields, Field(w, v));
      WidthsSnoc(fields, Field(w, v));
      TotalSnoc(Widths(fields), w);
      hide Pack, Total, Widths, Le;
      Put(tmp);
      fields := fields + [Field(w, v)];
    }

    method U8(v: nat)
      requires Valid()
      modifies this`n, this`ok, this`fields, buf
      ensures Valid() && fields == old(fields) + [Field(1, v)] && buf[cap..] == old(buf[cap..])
    { Int(v, 1); }

    method U16(v: nat)
      requires Valid()
      modifies this`n, this`ok, this`fields, buf
      ensures Valid() && fields == old(fields) + [Field(2, v)] && buf[cap..] == old(buf[cap..])
    { Int(v, 2); }

    method U32(v: nat)
      requires Valid()
      modifies this`n, this`ok, this`fields, buf
      ensures Valid() && fields == old(fields) + [Field(4, v)] && buf[cap..] == old(buf[cap..])
    { Int(v, 4); }

    method U64(v: nat)
      requires Valid()
      modifies this`n, this`ok, this`fields, buf
      ensures Valid() && fields == old(fields) + [Field(8, v)] && buf[cap..] == old(buf[cap..])
    { Int(v, 8); }

    method I64(v: int)
      requires Valid() && IsI64(v)
      modifies this`n, this`ok, this`fields, buf
      ensures Valid() && fields == old(fields) + [Field(8, ToU64(v))] && buf[cap..] == old(buf[cap..])
    { Int(ToU64(v), 8); }
  }

  lemma WidthsSnoc(fs: seq<Field>, f: Field)
    ensures Widths(fs + [f]) == Widths(fs) + [f.width]
  {
  }

  method PutHeader(w: Writer, t: MsgType, seqNo: nat)
    requires w.Valid() && w.fields == []
    modifies w, w.buf
    ensures w.Valid() && w.fields == HeaderFields(t, seqNo) && w.buf[w.cap..] == old(w.buf[w.cap..])
  {
    hide Writer.Valid;
    w.U8(Code(t));
    w.U8(VERSION);
    w.U16(Length(t));
    w.U32(seqNo);
  }

  method PutNewOrder(w: Writer, m: Message)
    requires w.Valid() && Representable(m) && m.NewOrder?
    modifies w, w.buf
    ensures w.Valid() && w.fields == old(w.fields) + BodyFields(m) && w.buf[w.cap..] == old(w.buf[w.cap..])
  {
    hide Writer.Valid;
    w.U64(m.orderId);
    w.U32(m.client);
    w.U8(m.side);
    w.U8(m.typ);
    w.U8(0);
    w.U8(0);
    w.I64(m.price);
    w.U64(m.quantity);
    w.U64(m.tsClient);
  }

  method PutCancelOrder(w: Writer, m: Message)
    requires w.Valid() && Representable(m) && m.CancelOrder?
    modifies w, w.buf
    ensures w.Valid() && w.fields == old(w.fields) + BodyFields(m) && w.buf[w.cap..] == old(w.buf[w.cap..])
  {
    hide Writer.Valid;
    w.U64(m.orderId);
    w.U32(m.client);
    w.U64(m.tsClient);
  }

  method PutModifyOrder(w: Writer, m: Message)
    requires w.Valid() && Representable(m) && m.ModifyOrder?
    modifies w, w.buf
    ensures w.Valid() && w.fields == old(w.fields) + BodyFields(m) && w.buf[w.cap..] == old(w.buf[w.cap..])
  {
    hide Writer.Valid;
    w.U64(m.orderId);
    w.U32(m.client);
    w.I64(m.price);
    w.U64(m.quantity);
    w.U64(m.tsClient);
  }

  /** The identifiers and one-byte codes that open an execution report. */
  method PutExecCodes(w: Writer, m: Message)
    requires w.Valid() && Representable(m) && m.ExecReport?
    modifies w, w.buf
    ensures w.Valid() && w.fields == old(w.fields) + BodyFields(m)[..7] && w.buf[w.cap..] == old(w.buf[w.cap..])
  {
    hide Writer.Valid, ToU64;
    w.U64(m.orderId);
    w.U64(m.contraId);
    w.U32(m.client);
    w.U8(m.event);
    w.U8(m.side);
    w.U8(m.reason);
    w.U8(m.flags);
  }

  method PutExecReport(w: Writer, m: Message)
    requires w.Valid() && Representable(m) && m.ExecReport?
    modifies w, w.buf
    ensures w.Valid() && w.fields == old(w.fields) + BodyFields(m) && w.buf[w.cap..] == old(w.buf[w.cap..])
  {
    hide Writer.Valid, ToU64;
    PutExecCodes(w, m);
    w.I64(m.price);
    w.U64(m.quantity);
    w.U64(m.leaves);
    w.U64(m.tsClient);
    w.U64(m.tsEngine);
    assert BodyFields(m) == BodyFields(m)[..7] + BodyFields(m)[7..];
  }

  method PutMdTrade(w: Writer, m: Message)
    requires w.Valid() && Representable(m) && m.MdTrade?
    modifies w, w.buf
    ensures w.Valid() && w.fields == old(w.fields) + BodyFields(m) && w.buf[w.cap..] == old(w.buf[w.cap..])
  {
    hide Writer.Valid;
    w.U64(m.streamSeq);
    w.I64(m.price);
    w.U64(m.quantity);
    w.U8(m.aggressor);
    w.U64(m.tsEngine);
  }

  method PutMdBookChange(w: Writer, m: Message)
    requires w.Valid() && Representable(m) && m.MdBookChange?
    modifies w, w.buf
    ensures w.Valid() && w.fields == old(w.fields) + BodyFields(m) && w.buf[w.cap..] == old(w.buf[w.cap..])
  {
    hide Writer.Valid;
    w.U64(m.streamSeq);
    w.I64(m.bidPx);
    w.U64(m.bidQty);
    w.I64(m.askPx);
    w.U64(m.askQty);
    w.U64(m.tsEngine);
  }

  method PutMdHeartbeat(w: Writer, m: Message)
    requires w.Valid() && Representable(m) && m.MdHeartbeat?
    modifies w, w.buf
    ensures w.Valid() && w.fields == old(w.fields) + BodyFields(m) && w.buf[w.cap..] == old(w.buf[w.cap..])
  {
    hide Writer.Valid;
    w.U64(m.streamSeq);
    w.U64(m.tsEngine);
  }

  method PutBody(w: Writer, m: Message)
    requires w.Valid() && Representable(m)
    modifies w, w.buf
    ensures w.Valid() && w.fields == old(w.fields) + BodyFields(m) && w.buf[w.cap..] == old(w.buf[w.cap..])
  {
    hide Writer.Valid, Representable, BodyFields;
    match m {
      case NewOrder(_, _, _, _, _, _, _) => PutNewOrder(w, m);
      case CancelOrder(_, _, _) => PutCancelOrder(w, m);
      case ModifyOrder(_, _, _, _, _) => PutModifyOrder(w, m);
      case ExecReport(_, _, _, _, _, _, _, _, _, _, _, _) => PutExecReport(w, m);
      case MdTrade(_, _, _, _, _) => PutMdTrade(w, m);
      case MdBookChange(_, _, _, _, _, _) => PutMdBookChange(w, m);
      case MdHeartbeat(_, _) => PutMdHeartbeat(w, m);
    }
  }

  /** Encode a message. Zero means exactly that the capacity is below the frame length; either
      way nothing is written past the capacity. */
  method Encode(out: array<Byte>, cap: nat, seqNo: nat, m: Message) returns (size: nat)
    requires cap <= out.Length && Representable(m)
    modifies out
    ensures size == 0 <==> cap < Length(TypeOf(m))
    ensures size != 0 ==> size == Length(TypeOf(m)) && out[..size] == Frame(seqNo, m)
    ensures out[cap..] == old(out[cap..])
  {
    hide BodyFields, Pack, Total, Widths, Representable;
    var w := new Writer(out, cap);
    PutHeader(w, TypeOf(m), seqNo);
    PutBody(w, m);
    FrameShape(seqNo, m);
    size := if w.ok then w.n else 0;
  }

  class Reader {
    const buf: seq<Byte>
    var n: nat
    var ok: bool
    ghost var widths: seq<nat>
    ghost var values: seq<nat>

    /** While nothing has run short, the values read are the unpacked prefix. */
    ghost predicate Valid()
      reads this
    {
      && n <= |buf| && n <= Total(widths)
      && (ok <==> Total(widths) <= |buf|)
      && (ok ==> n == Total(widths) && values == Unpack(widths, buf[..n]))
    }

    constructor (buf: seq<Byte>)
      ensures Valid() && this.buf == buf && widths == [] && values == []
    {
      this.buf := buf;
      n, ok := 0, true;
      widths, values := [], [];
    }

    /** Copy `k` bytes out, or zeros if they are not there. */
    method Get(k: nat) returns (p: seq<Byte>)
      requires n <= |buf|
      modifies this`n, this`ok
      ensures |p| == k
      ensures old(n) + k > |buf| ==> n == old(n) && !ok && p == seq(k, _ => 0)
      ensures old(n) + k <= |buf| ==> n == old(n) + k && ok == old(ok) && p == buf[old(n)..n]
    {
      if n + k > |buf| {
        ok := false;
        return seq(k, _ => 0);
      }
      p := buf[n..n + k];
      n := n + k;
    }

    /** Read a `w`-byte integer, least significant byte first. */
    method Int(w: nat) returns (v: nat)
      requires Valid()
      modifies this
      ensures Valid() && widths == old(widths) + [w] && values == old(values) + [v]
    {
      var was := n;
      TotalSnoc(widths, w);
      var tmp := Get(w);
      v := FromBytes(tmp);
      if was + w <= |buf| && was == Total(widths) {
        UnpackSnoc(widths, w, buf[..was], tmp);
        assert buf[..was] + tmp == buf[..n];
      }
      widths, values := widths + [w], values + [v];
    }

    method U8() returns (v: nat)
      requires Valid()
      modifies this
      ensures Valid() && widths == old(widths) + [1] && values == old(values) + [v]
    { v := Int(1); }

    method U16() returns (v: nat)
      requires Valid()
      modifies this
      ensures Valid() && widths == old(widths) + [2] && values == old(values) + [v]
    { v := Int(2); }

    method U32() returns (v: nat)
      requires Valid()
      modifies this
      ensures Valid() && widths == old(widths) + [4] && values == old(values) + [v]
    { v := Int(4); }

    method U64() returns (v: nat)
      requires Valid()
      modifies this
      ensures Valid() && widths == old(widths) + [8] && values == old(values) + [v]
    { v := Int(8); }

    method I64() returns (v: int)
      requires Valid()
      modifies this
      ensures Valid() && widths == old(widths) + [8] && |values| == |old(values)| + 1
      ensures values == old(values) + [values[|old(values)|]] && v == FromU64(values[|old(values)|])
    {
      var u := Int(8);
      v := FromU64(u);
    }
  }

  /** After reading a whole layout the reader is still fine exactly when its input was long
      enough, and then holds the unpacked values. */
  lemma ReadAll(r: Reader, t: MsgType)
    requires r.Valid() && r.widths == Layout(t) && |r.buf| == Total(Layout(t))
    ensures r.ok && r.values == Unpack(Layout(t), r.buf)
  {
    assert r.buf[..r.n] == r.buf;
  }

  method DecodeNewOrder(f: seq<Byte>) returns (m: Option<Message>)
    ensures m == Decoded(TNew, f)
  {
    hide Reader.Valid, Unpack, Total;
    if !HeaderMatches(f, TNew) {
      return None;
    }
    LayoutTotals(TNew);
    var r := new Reader(f[HEADER_SIZE..]);
    var id := r.U64();
    var c := r.U32();
    var s := r.U8();
    var t := r.U8();
    var _ := r.U8();
    var _ := r.U8();
    var p := r.I64();
    var q := r.U64();
    var ts := r.U64();
    ReadAll(r, TNew);
    m := if r.ok then Some(NewOrder(id, c, s, t, p, q, ts)) else None;
  }

  method DecodeCancel(f: seq<Byte>) returns (m: Option<Message>)
    ensures m == Decoded(TCancel, f)
  {
    hide Reader.Valid, Unpack, Total;
    if !HeaderMatches(f, TCancel) {
      return None;
    }
    LayoutTotals(TCancel);
    var r := new Reader(f[HEADER_SIZE..]);
    var id := r.U64();
    var c := r.U32();
    var ts := r.U64();
    ReadAll(r, TCancel);
    m := if r.ok then Some(CancelOrder(id, c, ts)) else None;
  }

  method DecodeModify(f: seq<Byte>) returns (m: Option<Message>)
    ensures m == Decoded(TModify, f)
  {
    hide Reader.Valid, Unpack, Total;
    if !HeaderMatches(f, TModify) {
      return None;
    }
    LayoutTotals(TModify);
    var r := new Reader(f[HEADER_SIZE..]);
    var id := r.U64();
    var c := r.U32();
    var p := r.I64();
    var q := r.U64();
    var ts := r.U64();
    ReadAll(r, TModify);
    m := if r.ok then Some(ModifyOrder(id, c, p, q, ts)) else None;
  }

  method DecodeExecReport(f: seq<Byte>) returns (m: Option<Message>)
    ensures m == Decoded(TExec, f)
  {
    hide Reader.Valid, Unpack, Total, FromU64;
    if !HeaderMatches(f, TExec) {
      return None;
    }
    LayoutTotals(TExec);
    var r := new Reader(f[HEADER_SIZE..]);
    var id, x, c, e, s, why, flags := ReadExecHead(r);
    var p := r.I64();
    var q := r.U64();
    var l := r.U64();
    var tc := r.U64();
    var te := r.U64();
    ReadAll(r, TExec);
    m := if r.ok then Some(ExecReport(id, x, c, e, s, why, flags, p, q, l, tc, te)) else None;
  }

  /** The fields of an execution report ahead of its price. */
  method ReadExecHead(r: Reader) returns (id: nat, x: nat, c: nat, e: nat, s: nat, why: nat, flags: nat)
    requires r.Valid() && r.values == [] && r.widths == []
    modifies r
    ensures r.Valid() && r.values == [id, x, c, e, s, why, flags] && r.widths == Layout(TExec)[..7]
  {
    hide Reader.Valid;
    id := r.U64();
    x := r.U64();
    c := r.U32();
    e := r.U8();
    s := r.U8();
    why := r.U8();
    flags := r.U8();
  }

  method DecodeMdTrade(f: seq<Byte>) returns (m: Option<Message>)
    ensures m == Decoded(TTrade, f)
  {
    hide Reader.Valid, Unpack, Total;
    if !HeaderMatches(f, TTrade) {
      return None;
    }
    LayoutTotals(TTrade);
    var r := new Reader(f[HEADER_SIZE..]);
    var n := r.U64();
    var p := r.I64();
    var q := r.U64();
    var a := r.U8();
    var te := r.U64();
    ReadAll(r, TTrade);
    m := if r.ok then Some(MdTrade(n, p, q, a, te)) else None;
  }

  method DecodeMdBookChange(f: seq<Byte>) returns (m: Option<Message>)
    ensures m == Decoded(TBook, f)
  {
    hide Reader.Valid, Unpack, Total;
    if !HeaderMatches(f, TBook) {
      return None;
    }
    LayoutTotals(TBook);
    var r := new Reader(f[HEADER_SIZE..]);
    var n := r.U64();
    var bp := r.I64();
    var bq := r.U64();
    var ap := r.I64();
    var aq := r.U64();
    var te := r.U64();
    ReadAll(r, TBook);
    m := if r.ok then Some(MdBookChange(n, bp, bq, ap, aq, te)) else None;
  }

  method DecodeMdHeartbeat(f: seq<Byte>) returns (m: Option<Message>)
    ensures m == Decoded(TBeat, f)
  {
    hide Reader.Valid, Unpack, Total;
    if !HeaderMatches(f, TBeat) {
      return None;
    }
    LayoutTotals(TBeat);
    var r := new Reader(f[HEADER_SIZE..]);
    var n := r.U64();
    var te := r.U64();
    ReadAll(r, TBeat);
    m := if r.ok then Some(MdHeartbeat(n, te)) else None;
  }

  method PeekHeader(b: seq<Byte>) returns (h: Option<Header>)
    ensures h == Peek(b)
  {
    hide Reader.Valid, Unpack, Total;
    if |b| < HEADER_SIZE {
      return None;
    }
    var r := new Reader(b);
    var typ := r.U8();
    var version := r.U8();
    var length := r.U16();
    var seqNo := r.U32();
    ReadHeader(r);
    assert r.values == [typ, version, length, seqNo];
    if !r.ok || length < HEADER_SIZE {
      return None;
    }
    if |b| < length {
      return None;
    }
    h := Some(Header(typ, version, length, seqNo));
  }

  lemma ReadHeader(r: Reader)
    requires r.Valid() && r.widths == [1, 1, 2, 4] && |r.buf| >= HEADER_SIZE
    ensures r.ok && r.values == [r.buf[0], r.buf[1], UnLe(r.buf[2..4]), UnLe(r.buf[4..8])]
  {
    Totals2(1, 1);
    TotalConcat2([1, 1], 2, 4);
    hide Unpack, Total, UnLe;
    assert [1, 1] + [2, 4] == [1, 1, 2, 4];
    HeaderValues(r.buf[..8]);
    assert r.buf[..8][2..4] == r.buf[2..4] && r.buf[..8][4..8] == r.buf[4..8];
  }

  lemma HeaderValues(b: seq<Byte>)
    requires |b| == 8 && Total([1, 1, 2, 4]) == 8
    ensures Unpack([1, 1, 2, 4], b) == [b[0], b[1], UnLe(b[2..4]), UnLe(b[4..8])]
  {
    var ws := [1, 1, 2, 4];
    HeaderOffsets(ws);
    hide Unpack, Total, UnLe;
    var vs := Unpack(ws, b);
    HeaderField(ws, b, 0, 0);
    HeaderField(ws, b, 1, 1);
    HeaderField(ws, b, 2, 2);
    HeaderField(ws, b, 3, 4);
    UnLeOne(b[0..1]);
    UnLeOne(b[1..2]);
    assert vs[0] == b[0] && vs[1] == b[1] && vs[2] == UnLe(b[2..4]) && vs[3] == UnLe(b[4..8]);
  }

  lemma HeaderOffsets(ws: seq<nat>)
    requires ws == [1, 1, 2, 4]
    ensures Total(ws[..0]) == 0 && Total(ws[..1]) == 1 && Total(ws[..2]) == 2 && Total(ws[..3]) == 4
  {
    assert Total([]) == 0;
    hide Total;
    TotalSnoc([], 1);
    Totals2(1, 1);
    Totals3(1, 1, 2);
    assert ws[..0] == [] && ws[..1] == [] + [1] && ws[..2] == [1, 1] && ws[..3] == [1, 1, 2];
  }

  lemma HeaderField(ws: seq<nat>, b: seq<Byte>, i: nat, o: nat)
    requires |b| == Total(ws) && i < |ws| && Total(ws[..i]) == o
    ensures o + ws[i] <= |b| && Unpack(ws, b)[i] == UnLe(b[o..o + ws[i]])
  {
    UnpackAt(ws, b, i);
  }
}

/** What the receiver makes of frames, of garbage, and of damaged frames. */
module H5RoundTrip {
  import opened Bytes
  import opened H5Crc
  import opened H5Frame
  import opened H5State
  import opened H5Receive
  import opened Wrappers

  // ---- Resynchronisation ----

  /** A delimiter always leaves the receiver waiting for a frame. */
  lemma {:induction false} DelimiterResynchronises(h: H5)
    requires Ok(h)
    ensures Feed(h, DELIMITER).rx.state == W4Start
    decreases Rank(h.rx)
  {
    TurnOk(h, DELIMITER);
    var (h', consumed) := Turn(h, DELIMITER);
    if !consumed {
      DelimiterResynchronises(h');
    }
  }

  lemma FeedOne(h: H5, b: u8)
    requires Ok(h)
    ensures FeedAll(h, [b]) == Feed(h, b)
  {
    assert [b][1..] == [];
    assert FeedAll(Feed(h, b), []) == Feed(h, b);
  }

  /** From every state, after any bytes ending in a delimiter the receiver waits for a frame. */
  lemma SelfSynchronisation(h: H5, garbage: seq<u8>)
    requires Ok(h)
    ensures FeedAll(h, garbage + [DELIMITER]).rx.state == W4Start
  {
    FeedAppend(h, garbage, [DELIMITER]);
    FeedOne(FeedAll(h, garbage), DELIMITER);
    DelimiterResynchronises(FeedAll(h, garbage));
  }

  // ---- Reading escaped bytes ----

  predicate Idle(rx: Rx) { rx.state.W4Delimiter? || rx.state.W4Start? }

  function PutAll(rx: Rx, s: seq<u8>): (rx': Rx)
    requires rx.skb.Live? && |s| <= rx.count
    ensures rx' == rx.(skb := Live(rx.skb.data + s), count := rx.count - |s|, crc := rx'.crc)
    decreases |s|
  {
    if s == [] then
      assert rx.skb.data + s == rx.skb.data;
      rx
    else
      assert rx.skb.data + s == rx.skb.data + [s[0]] + s[1..];
      PutAll(PutByte(rx, s[0]), s[1..])
  }

  lemma FeedWhileReading(h: H5, b: u8)
    requires Ok(h) && h.rx.count > 0 && b != DELIMITER
    ensures FeedAll(h, [b]) == h.(rx := Unslip(h.rx, b))
  {
    FeedOne(h, b);
  }

  lemma EscapePair(rx: Rx, f: u8, c: u8)
    requires rx.skb.Live? && rx.count > 0 && !rx.esc
    requires Unescaped(f) == Some(c)
    ensures Unslip(rx, ESCAPE) == rx.(esc := true)
    ensures Unslip(rx.(esc := true), f) == PutByte(rx, c)
  {
  }

  lemma EscapedPairRead(h: H5, f: u8, c: u8, rx': Rx)
    requires Ok(h) && h.rx.count > 0 && !h.rx.esc && f != DELIMITER
    requires Unescaped(f) == Some(c) && rx' == PutByte(h.rx, c)
    ensures FeedAll(h, [ESCAPE, f]) == h.(rx := rx')
  {
    EscapePair(h.rx, f, c);
    assert [ESCAPE, f] == [ESCAPE] + [f];
    FeedAppend(h, [ESCAPE], [f]);
    FeedWhileReading(h, ESCAPE);
    FeedWhileReading(h.(rx := h.rx.(esc := true)), f);
  }

  /** An escaped byte puts that byte in the buffer. */
  lemma EscapedByteRead(h: H5, c: u8)
    requires Ok(h) && h.rx.count > 0 && !h.rx.esc
    ensures FeedAll(h, SlipByte(c)) == h.(rx := PutByte(h.rx, c))
  {
    var rx' := PutByte(h.rx, c);
    if c == 0xc0 {
      EscapedPairRead(h, 0xdc, c, rx');
    } else if c == 0xdb {
      EscapedPairRead(h, 0xdd, c, rx');
    } else if c == 0x11 {
      EscapedPairRead(h, 0xde, c, rx');
    } else if c == 0x13 {
      EscapedPairRead(h, 0xdf, c, rx');
    } else {
      PlainByteRead(h, c, rx');
    }
  }

  lemma PlainByteRead(h: H5, c: u8, rx': Rx)
    requires Ok(h) && h.rx.count > 0 && !h.rx.esc && c != ESCAPE && c != DELIMITER && rx' == PutByte(h.rx, c)
    ensures FeedAll(h, [c]) == h.(rx := rx')
  {
    FeedWhileReading(h, c);
  }

  /** Escaped bytes that fit the field being read all end up in the buffer. */
  lemma {:induction false} EscapedBytesRead(h: H5, s: seq<u8>)
    requires Ok(h) && |s| <= h.rx.count && !h.rx.esc && h.rx.skb.Live?
    ensures FeedAll(h, Slip(s)) == h.(rx := PutAll(h.rx, s))
    decreases |s|
  {
    if s != [] {
      EscapedByteRead(h, s[0]);
      FeedAppend(h, SlipByte(s[0]), Slip(s[1..]));
      EscapedBytesRead(h.(rx := PutByte(h.rx, s[0])), s[1..]);
    }
  }

  /** Between frames everything up to the next delimiter is skipped. */
  lemma {:induction false} SkippedBetweenFrames(h: H5, s: seq<u8>)
    requires Ok(h) && h.rx.state.W4Delimiter?
    requires DELIMITER !in s
    ensures FeedAll(h, s) == h
    decreases |s|
  {
    if s != [] {
      SkippedBetweenFrames(h, s[1..]);
    }
  }

  /** After power-up, whatever comes before the first delimiter is skipped. */
  lemma BeforeFirstDelimiter(crc: bool, s: seq<u8>)
    requires 0xc0 !in s
    ensures FeedAll(Initial(crc), s) == Initial(crc)
  {
    SkippedBetweenFrames(Initial(crc), s);
  }

  /** A completed field is acted on as soon as another byte arrives. */
  lemma FieldDoneAdvances(h: H5, s: seq<u8>)
    requires Ok(h) && FieldDone(h.rx) && s != []
    ensures Ok(Advance(h))
    ensures FeedAll(h, s) == FeedAll(Advance(h), s)
  {
    AdvanceOk(h);
  }

  // ---- One frame ----

  /** What a frame with this content does to the protocol state and to the packets handed up: the
      reference the receive loop is compared with. */
  function Verdict(a: Arq, up: seq<Packet>, header: seq<u8>, payload: seq<u8>, trailer: seq<u8>): (Arq, seq<Packet>)
    requires |header| == 4 && a.txseq < 8
  {
    if ReliableBit(header[0]) && NumberField(header[0]) != a.rxseq then
      (a.(ackReq := true), up)
    else if CrcBit(header[0]) && trailer != Trailer(header + payload) then
      (a, up)
    else
      (Accept(a, ReliableBit(header[0]), AckField(header[0])),
       match PassUp(ReliableBit(header[0]), ChannelField(header[1]))
       case Some(k) => up + [Packet(k, payload)]
       case None => up)
  }

  ghost predicate Reaches(h: H5, h': H5, state: RxState, verdict: (Arq, seq<Packet>)) {
    h'.rx.state == state && h'.useCrc == h.useCrc && (h'.arq, h'.up) == verdict
  }

  lemma ClosingDelimiter(h: H5, s: seq<u8>)
    requires Ok(h) && h.rx.state.W4Delimiter?
    requires DELIMITER !in s
    ensures FeedAll(h, s + [DELIMITER]) == h.(rx := h.rx.(state := W4Start))
  {
    FeedAppend(h, s, [DELIMITER]);
    SkippedBetweenFrames(h, s);
    FeedOne(h, DELIMITER);
  }

  /** The header field: four escaped bytes after a delimiter. */
  lemma HeaderRead(h: H5, header: seq<u8>, rest: seq<u8>) returns (g: H5)
    requires Ok(h) && h.rx.state.W4Start? && |header| == 4
    ensures g == h.(rx := g.rx) && Ok(g) && FieldDone(g.rx)
    ensures g.rx.state.W4Header? && g.rx.skb == Live(header) && !g.rx.esc
    ensures FeedAll(h, Slip(header) + rest) == FeedAll(g, rest)
  {
    var o := h.(rx := Open(h.rx));
    var t := Slip(header);
    assert t[0] in t;
    assert t[0] == (t + rest)[0];
    TurnOk(h, t[0]);
    assert Turn(h, t[0]) == (o, false);
    assert FeedAll(h, t) == FeedAll(o, t);
    FeedAppend(h, t, rest);
    EscapedBytesRead(o, header);
    g := o.(rx := PutAll(o.rx, header));
    assert [] + header == header;
  }

  /** The payload field. */
  lemma PayloadRead(g: H5, payload: seq<u8>, rest: seq<u8>) returns (p: H5)
    requires Ok(g) && FieldDone(g.rx) && g.rx.state.W4Header? && !g.rx.esc
    requires HeaderOk(g.rx.skb.data)
    requires ReliableBit(g.rx.skb.data[0]) ==> NumberField(g.rx.skb.data[0]) == g.arq.rxseq
    requires |payload| == LengthField(g.rx.skb.data[1], g.rx.skb.data[2])
    requires rest != []
    ensures p == g.(rx := p.rx) && Ok(p) && FieldDone(p.rx)
    ensures p.rx.state.W4Data? && p.rx.skb == Live(g.rx.skb.data + payload) && !p.rx.esc
    ensures FeedAll(g, Slip(payload) + rest) == FeedAll(p, rest)
  {
    FieldDoneAdvances(g, Slip(payload) + rest);
    var d := Advance(g);
    EscapedBytesRead(d, payload);
    FeedAppend(d, Slip(payload), rest);
    p := d.(rx := PutAll(d.rx, payload));
  }

  /** The CRC field. */
  lemma TrailerRead(p: H5, trailer: seq<u8>, rest: seq<u8>) returns (c: H5)
    requires Ok(p) && FieldDone(p.rx) && p.rx.state.W4Data? && !p.rx.esc
    requires CrcBit(p.rx.skb.data[0]) && |trailer| == 2
    requires rest != []
    ensures c == p.(rx := c.rx) && Ok(c) && FieldDone(c.rx)
    ensures c.rx.state.W4Crc? && c.rx.skb == Live(p.rx.skb.data + trailer)
    ensures FeedAll(p, Slip(trailer) + rest) == FeedAll(c, rest)
  {
    FieldDoneAdvances(p, Slip(trailer) + rest);
    var d := Advance(p);
    EscapedBytesRead(d, trailer);
    FeedAppend(d, Slip(trailer), rest);
    c := d.(rx := PutAll(d.rx, trailer));
  }

  lemma AcceptedContent(c: H5, header: seq<u8>, payload: seq<u8>) returns (a: H5)
    requires Accounted(c) && ArqOk(c.arq) && |header| == 4
    requires c.rx.skb == Live(header + payload)
    ensures a == Complete(c)
    ensures Reaches(c, a, W4Delimiter,
                    (Accept(c.arq, ReliableBit(header[0]), AckField(header[0])),
                     match PassUp(ReliableBit(header[0]), ChannelField(header[1]))
                     case Some(k) => c.up + [Packet(k, payload)]
                     case None => c.up))
  {
    var d := header + payload;
    assert d[4..] == payload && d[0] == header[0] && d[1] == header[1];
    a := Complete(c);
  }

  lemma UncheckedEnd(c: H5, header: seq<u8>, payload: seq<u8>) returns (a: H5)
    requires Ok(c) && FieldDone(c.rx) && |header| == 4
    requires c.rx.skb == Live(header + payload) && !CrcBit(header[0]) && c.rx.state.W4Data?
    requires ReliableBit(header[0]) ==> NumberField(header[0]) == c.arq.rxseq
    ensures a == Advance(c)
    ensures Reaches(c, a, W4Delimiter, Verdict(c.arq, c.up, header, payload, []))
  {
    assert (header + payload)[0] == header[0];
    a := AcceptedContent(c, header, payload);
  }

  lemma CheckedEnd(c: H5, header: seq<u8>, payload: seq<u8>, trailer: seq<u8>) returns (a: H5)
    requires Ok(c) && FieldDone(c.rx) && |header| == 4
    requires c.rx.skb == Live(header + payload + trailer) && CrcBit(header[0]) && c.rx.state.W4Crc? && |trailer| == 2
    requires ReliableBit(header[0]) ==> NumberField(header[0]) == c.arq.rxseq
    ensures a == Advance(c)
    ensures Reaches(c, a, W4Delimiter, Verdict(c.arq, c.up, header, payload, trailer))
  {
    var d := header + payload + trailer;
    assert d[..|d| - 2] == header + payload;
    assert d[|d| - 2..] == trailer;
    assert d[0] == header[0];
    var b := AcceptedContent(c.(rx := c.rx.(skb := Live(d[..|d| - 2]))), header, payload);
    a := Advance(c);
  }

  /** The end of the frame, once all its fields have been read. */
  lemma FrameEnds(c: H5, header: seq<u8>, payload: seq<u8>, trailer: seq<u8>) returns (e: H5)
    requires Ok(c) && FieldDone(c.rx) && |header| == 4
    requires c.rx.skb == Live(header + payload + trailer)
    requires if CrcBit(header[0]) then c.rx.state.W4Crc? && |trailer| == 2 else c.rx.state.W4Data? && trailer == []
    requires ReliableBit(header[0]) ==> NumberField(header[0]) == c.arq.rxseq
    ensures FeedAll(c, [DELIMITER]) == e
    ensures Reaches(c, e, W4Start, Verdict(c.arq, c.up, header, payload, trailer))
  {
    FieldDoneAdvances(c, [DELIMITER]);
    var a;
    if CrcBit(header[0]) {
      a := CheckedEnd(c, header, payload, trailer);
    } else {
      assert header + payload + trailer == header + payload;
      a := UncheckedEnd(c, header, payload);
    }
    ClosingDelimiter(a, []);
    assert [] + [DELIMITER] == [DELIMITER];
    e := a.(rx := a.rx.(state := W4Start));
  }

  lemma OpeningDelimiter(h: H5, rest: seq<u8>) returns (s: H5)
    requires Ok(h) && Idle(h.rx)
    ensures s == h.(rx := h.rx.(state := W4Start)) && Ok(s)
    ensures FeedAll(h, [DELIMITER] + rest) == FeedAll(s, rest)
  {
    s := h.(rx := h.rx.(state := W4Start));
    FeedAppend(h, [DELIMITER], rest);
    FeedOne(h, DELIMITER);
  }

  /** A reliable frame out of turn is dropped, and an acknowledgement is requested. */
  lemma OutOfTurnDropped(g: H5, s: seq<u8>) returns (e: H5)
    requires Ok(g) && FieldDone(g.rx) && g.rx.state.W4Header? && HeaderOk(g.rx.skb.data)
    requires ReliableBit(g.rx.skb.data[0]) && NumberField(g.rx.skb.data[0]) != g.arq.rxseq
    requires DELIMITER !in s
    ensures FeedAll(g, s + [DELIMITER]) == e
    ensures Reaches(g, e, W4Start, (g.arq.(ackReq := true), g.up))
  {
    FieldDoneAdvances(g, s + [DELIMITER]);
    ClosingDelimiter(Advance(g), s);
    e := FeedAll(g, s + [DELIMITER]);
  }

  ghost predicate WellFormed(header: seq<u8>, payload: seq<u8>, trailer: seq<u8>) {
    && |header| == 4 && HeaderOk(header)
    && |payload| == LengthField(header[1], header[2])
    && |trailer| == if CrcBit(header[0]) then 2 else 0
  }

  lemma InTurnReceived(g: H5, header: seq<u8>, payload: seq<u8>, trailer: seq<u8>)
    requires Ok(g) && FieldDone(g.rx) && g.rx.state.W4Header? && !g.rx.esc && g.rx.skb == Live(header)
    requires WellFormed(header, payload, trailer)
    requires ReliableBit(header[0]) ==> NumberField(header[0]) == g.arq.rxseq
    ensures Reaches(g, FeedAll(g, Slip(payload) + (Slip(trailer) + [DELIMITER])), W4Start,
                    Verdict(g.arq, g.up, header, payload, trailer))
  {
    var p := PayloadRead(g, payload, Slip(trailer) + [DELIMITER]);
    if CrcBit(header[0]) {
      var c := TrailerRead(p, trailer, [DELIMITER]);
      var e := FrameEnds(c, header, payload, trailer);
    } else {
      assert Slip(trailer) + [DELIMITER] == [DELIMITER];
      assert header + payload + trailer == header + payload;
      var e := FrameEnds(p, header, payload, trailer);
    }
  }

  lemma HeaderDecides(g: H5, header: seq<u8>, payload: seq<u8>, trailer: seq<u8>)
    requires Ok(g) && FieldDone(g.rx) && g.rx.state.W4Header? && !g.rx.esc && g.rx.skb == Live(header)
    requires WellFormed(header, payload, trailer)
    ensures Reaches(g, FeedAll(g, Slip(payload) + (Slip(trailer) + [DELIMITER])), W4Start,
                    Verdict(g.arq, g.up, header, payload, trailer))
  {
    if ReliableBit(header[0]) && NumberField(header[0]) != g.arq.rxseq {
      assert Slip(payload) + (Slip(trailer) + [DELIMITER]) == Slip(payload) + Slip(trailer) + [DELIMITER];
      var e := OutOfTurnDropped(g, Slip(payload) + Slip(trailer));
    } else {
      InTurnReceived(g, header, payload, trailer);
    }
  }

  /** A frame with a well-formed header, whatever its trailer, has exactly the effect of its verdict. */
  lemma ContentReceived(h: H5, header: seq<u8>, payload: seq<u8>, trailer: seq<u8>)
    requires Ok(h) && Idle(h.rx)
    requires WellFormed(header, payload, trailer)
    ensures Reaches(h, FeedAll(h, [DELIMITER] + Slip(header + payload + trailer) + [DELIMITER]), W4Start,
                    Verdict(h.arq, h.up, header, payload, trailer))
  {
    SlipFields(header, payload, trailer);
    Enclose([DELIMITER], Slip(header), Slip(payload), Slip(trailer));
    var fields := Slip(payload) + (Slip(trailer) + [DELIMITER]);
    var s := OpeningDelimiter(h, Slip(header) + fields);
    var g := HeaderRead(s, header, fields);
    HeaderDecides(g, header, payload, trailer);
  }

  // ---- Round trip ----

  /** Packets the transport keeps to itself. */
  predicate ForTransport(k: Kind) { k.Ack? || k.Link? }

  /** The effect of a frame as the sender meant it. */
  function Received(a: Arq, p: Packet, ack: nat, number: nat): Arq
    requires ack < 8 && a.txseq < 8
  {
    if IsReliable(p.kind) && number != a.rxseq then a.(ackReq := true) else Accept(a, IsReliable(p.kind), ack)
  }

  function HandedUp(a: Arq, p: Packet, number: nat): seq<Packet> {
    if ForTransport(p.kind) || (IsReliable(p.kind) && number != a.rxseq) then [] else [p]
  }

  lemma ChannelIdentifiesKind(k: Kind)
    requires !k.Unknown?
    ensures PassUp(IsReliable(k), Channel(k)) == if ForTransport(k) then None else Some(k)
  {
  }

  /** What a frame is handed up as, if at all, goes by its channel; data, events and commands must also have
      come reliably. */
  lemma PassedUpExactly(reliable: bool, channel: nat, k: Kind)
    ensures PassUp(reliable, channel) == Some(k) <==>
      || (reliable && ((k.Command? && channel == 1) || (k.Acl? && channel == 2) || (k.Event? && channel == 4)))
      || (k.Sco? && channel == 3) || (k.Vendor? && channel == 14)
  {
  }

  lemma VerdictOnPacket(a: Arq, up: seq<Packet>, p: Packet, crc: bool, ack: nat, number: nat, header: seq<u8>,
                        trailer: seq<u8>)
    requires Sendable(p) && ack < 8 && number < 8 && a.txseq < 8
    requires header == Header(p.kind, crc, ack, number, |p.data|)
    requires trailer == if crc then Trailer(header + p.data) else []
    ensures WellFormed(header, p.data, trailer)
    ensures Verdict(a, up, header, p.data, trailer) == (Received(a, p, ack, number), up + HandedUp(a, p, number))
  {
    HeaderFields(p.kind, crc, ack, number, |p.data|);
    ChannelIdentifiesKind(p.kind);
    assert Packet(p.kind, p.data) == p;
    assert up + [] == up;
  }

  /** Decoding undoes encoding: a frame built for a packet has, at any idle receiver, exactly the
      effect of that packet. */
  lemma FrameReceived(h: H5, p: Packet, crc: bool, ack: nat, number: nat)
    requires Ok(h) && Idle(h.rx)
    requires Sendable(p) && ack < 8 && number < 8
    ensures Reaches(h, FeedAll(h, Frame(p, crc, ack, number)), W4Start,
                    (Received(h.arq, p, ack, number), h.up + HandedUp(h.arq, p, number)))
  {
    var header := Header(p.kind, crc, ack, number, |p.data|);
    var trailer := if crc then Trailer(header + p.data) else [];
    VerdictOnPacket(h.arq, h.up, p, crc, ack, number, header, trailer);
    BodyFields(p, crc, ack, number, header, trailer);
    ContentReceived(h, header, p.data, trailer);
  }

  // ---- Streams of frames ----

  /** Frames for a list of packets, as the driver builds them one after the other. */
  function PrepareAll(a: Arq, crc: bool, ps: seq<Packet>): seq<u8>
    requires a.rxseq < 8 && a.txseq < 8
    requires forall p :: p in ps ==> Sendable(p)
    decreases |ps|
  {
    if ps == [] then []
    else Prepare(a, crc, ps[0]).1 + PrepareAll(Prepare(a, crc, ps[0]).0, crc, ps[1..])
  }

  function ForHost(ps: seq<Packet>): seq<Packet> {
    if ps == [] then []
    else (if ForTransport(ps[0].kind) then [] else [ps[0]]) + ForHost(ps[1..])
  }

  lemma ForHostOne(p: Packet)
    ensures ForHost([p]) == if ForTransport(p.kind) then [] else [p]
  {
    assert [p][1..] == [];
    assert ForHost([]) == [];
  }

  lemma ForHostHead(ps: seq<Packet>)
    requires ps != []
    ensures ForHost(ps) == ForHost([ps[0]]) + ForHost(ps[1..])
  {
    ForHostOne(ps[0]);
  }

  lemma InTurn(a: Arq, p: Packet, ack: nat, a': Arq)
    requires ack < 8 && a.txseq < 8 && a' == Received(a, p, ack, a.rxseq)
    ensures a'.rxseq == if IsReliable(p.kind) then (a.rxseq + 1) % 8 else a.rxseq
    ensures HandedUp(a, p, a.rxseq) == ForHost([p])
  {
    ForHostOne(p);
  }

  lemma PreparedNumber(a: Arq, crc: bool, p: Packet)
    requires a.rxseq < 8 && a.txseq < 8 && Sendable(p)
    ensures Prepare(a, crc, p).0.txseq == if IsReliable(p.kind) then (a.txseq + 1) % 8 else a.txseq
    ensures Prepare(a, crc, p).0.rxseq == a.rxseq
    ensures Prepare(a, crc, p).1 == Frame(p, crc, a.rxseq, a.txseq)
  {
  }

  lemma FrameInTurn(h: H5, p: Packet, crc: bool, ack: nat, h': H5)
    requires Ok(h) && Idle(h.rx) && Sendable(p) && ack < 8
    requires h' == FeedAll(h, Frame(p, crc, ack, h.arq.rxseq))
    ensures Idle(h'.rx)
    ensures h'.arq.rxseq == if IsReliable(p.kind) then (h.arq.rxseq + 1) % 8 else h.arq.rxseq
    ensures h'.up == h.up + ForHost([p])
  {
    var a' := Received(h.arq, p, ack, h.arq.rxseq);
    FrameEffect(h, p, crc, ack, h.arq.rxseq, h', a');
    InTurn(h.arq, p, ack, a');
  }

  lemma FrameEffect(h: H5, p: Packet, crc: bool, ack: nat, number: nat, h': H5, a': Arq)
    requires Ok(h) && Idle(h.rx) && Sendable(p) && ack < 8 && number < 8
    requires h' == FeedAll(h, Frame(p, crc, ack, number)) && a' == Received(h.arq, p, ack, number)
    ensures Idle(h'.rx) && h'.arq == a' && h'.up == h.up + HandedUp(h.arq, p, number)
  {
    FrameReceived(h, p, crc, ack, number);
  }

  lemma FrameThenRest(h: H5, f: seq<u8>, rest: seq<u8>, h': H5)
    requires Ok(h) && h' == FeedAll(h, f)
    ensures FeedAll(h, f + rest) == FeedAll(h', rest)
  {
    FeedAppend(h, f, rest);
  }

  lemma StreamStep(h: H5, a: Arq, crc: bool, ps: seq<Packet>, a': Arq, h': H5)
    requires Ok(h) && Idle(h.rx) && ps != []
    requires a.rxseq < 8 && a.txseq < 8 && h.arq.rxseq == a.txseq
    requires forall p :: p in ps ==> Sendable(p)
    requires a' == Prepare(a, crc, ps[0]).0 && h' == FeedAll(h, Prepare(a, crc, ps[0]).1)
    ensures Idle(h'.rx) && a'.rxseq < 8 && a'.txseq < 8 && h'.arq.rxseq == a'.txseq
    ensures h'.up == h.up + ForHost([ps[0]])
    ensures FeedAll(h, PrepareAll(a, crc, ps)) == FeedAll(h', PrepareAll(a', crc, ps[1..]))
  {
    PreparedInTurn(h, a, crc, ps[0], a', h');
    PreparedFirst(a, crc, ps);
    FrameThenRest(h, Prepare(a, crc, ps[0]).1, PrepareAll(a', crc, ps[1..]), h');
  }

  lemma PreparedInTurn(h: H5, a: Arq, crc: bool, p: Packet, a': Arq, h': H5)
    requires Ok(h) && Idle(h.rx) && Sendable(p)
    requires a.rxseq < 8 && a.txseq < 8 && h.arq.rxseq == a.txseq
    requires a' == Prepare(a, crc, p).0 && h' == FeedAll(h, Prepare(a, crc, p).1)
    ensures Idle(h'.rx) && a'.rxseq < 8 && a'.txseq < 8 && h'.arq.rxseq == a'.txseq
    ensures h'.up == h.up + ForHost([p])
  {
    PreparedNumber(a, crc, p);
    FrameInTurn(h, p, crc, a.rxseq, h');
  }

  lemma PreparedFirst(a: Arq, crc: bool, ps: seq<Packet>)
    requires a.rxseq < 8 && a.txseq < 8 && ps != [] && forall p :: p in ps ==> Sendable(p)
    ensures forall p :: p in ps[1..] ==> Sendable(p)
    ensures var (a', f) := Prepare(a, crc, ps[0]);
      a'.rxseq < 8 && a'.txseq < 8 && PrepareAll(a, crc, ps) == f + PrepareAll(a', crc, ps[1..])
  {
  }

  lemma ForHostSplit(up: seq<Packet>, ps: seq<Packet>)
    requires ps != []
    ensures up + ForHost([ps[0]]) + ForHost(ps[1..]) == up + ForHost(ps)
  {
    ForHostHead(ps);
  }

  /** The frames of any list of packets, one after the other, hand up exactly the packets that are
      not the transport's own, with their types and contents, in order. */
  lemma {:induction false} StreamRoundTrip(h: H5, a: Arq, crc: bool, ps: seq<Packet>, h': H5)
    requires Ok(h) && Idle(h.rx)
    requires a.rxseq < 8 && a.txseq < 8 && h.arq.rxseq == a.txseq
    requires forall p :: p in ps ==> Sendable(p)
    requires h' == FeedAll(h, PrepareAll(a, crc, ps))
    ensures h'.up == h.up + ForHost(ps)
    ensures Idle(h'.rx)
    decreases |ps|
  {
    if ps == [] {
      assert h.up + [] == h.up;
    } else {
      var a1, h1 := Prepare(a, crc, ps[0]).0, FeedAll(h, Prepare(a, crc, ps[0]).1);
      StreamStep(h, a, crc, ps, a1, h1);
      StreamRoundTrip(h1, a1, crc, ps[1..], h');
      ForHostSplit(h.up, ps);
    }
  }

  /** From two fresh endpoints, however the stream is cut into chunks. */
  lemma ChunkedRoundTrip(crcHere: bool, crcThere: bool, ps: seq<Packet>, chunks: seq<seq<u8>>, h': H5)
    requires forall p :: p in ps ==> Sendable(p)
    requires Flatten(chunks) == PrepareAll(INITIAL_ARQ, crcThere, ps)
    requires h' == FeedChunks(Initial(crcHere), chunks)
    ensures h'.up == ForHost(ps)
  {
    var h := Initial(crcHere);
    ChunksDoNotMatter(h, chunks);
    StreamRoundTrip(h, INITIAL_ARQ, crcThere, ps, h');
    assert h.up + ForHost(ps) == ForHost(ps);
  }

  /** A good frame is understood even after arbitrary garbage, once a delimiter has passed. */
  lemma UnderstoodAfterGarbage(h: H5, garbage: seq<u8>, p: Packet, crc: bool, ack: nat, number: nat)
    requires Ok(h)
    requires Sendable(p) && !ForTransport(p.kind) && ack < 8 && number < 8
    requires IsReliable(p.kind) ==> number == FeedAll(h, garbage + [DELIMITER]).arq.rxseq
    ensures FeedAll(h, garbage + [DELIMITER] + Frame(p, crc, ack, number)).up
      == FeedAll(h, garbage + [DELIMITER]).up + [p]
  {
    SelfSynchronisation(h, garbage);
    FeedAppend(h, garbage + [DELIMITER], Frame(p, crc, ack, number));
    FrameReceived(FeedAll(h, garbage + [DELIMITER]), p, crc, ack, number);
  }

  /** A checksummed frame whose payload was changed in one byte or in two adjacent ones is never
      handed up and never acknowledged. */
  lemma DamagedPayloadDropped(h: H5, p: Packet, ack: nat, number: nat, head: seq<u8>, u: seq<u8>, v: seq<u8>,
                              tail: seq<u8>)
    requires Ok(h) && Idle(h.rx)
    requires Sendable(p) && ack < 8 && number < 8
    requires p.data == head + u + tail && |u| == |v| <= 2 && u != v
    ensures var header := Header(p.kind, true, ack, number, |p.data|);
      var damaged := header + (head + v + tail) + Trailer(header + p.data);
      var h' := FeedAll(h, [DELIMITER] + Slip(damaged) + [DELIMITER]);
      && h'.up == h.up
      && h'.arq == h.arq.(ackReq := h'.arq.ackReq)
      && (!IsReliable(p.kind) || number == h.arq.rxseq ==> h'.arq == h.arq)
  {
    var header := Header(p.kind, true, ack, number, |p.data|);
    HeaderFields(p.kind, true, ack, number, |p.data|);
    DamageShows(header, p.data, head, u, v, tail);
    ContentReceived(h, header, head + v + tail, Trailer(header + p.data));
  }

  lemma DamageShows(header: seq<u8>, data: seq<u8>, head: seq<u8>, u: seq<u8>, v: seq<u8>, tail: seq<u8>)
    requires data == head + u + tail && |u| == |v| <= 2 && u != v
    ensures Trailer(header + data) != Trailer(header + (head + v + tail))
  {
    SplitPayload(header, head, u, tail);
    SplitPayload(header, head, v, tail);
    AdjacentChangeDetected(CRC_INIT, header + head, u, v, tail);
    TrailersDiffer(header + head + u + tail, header + head + v + tail);
  }

  lemma SplitPayload(a: seq<u8>, b: seq<u8>, c: seq<u8>, d: seq<u8>)
    ensures a + (b + c + d) == a + b + c + d
  {
  }

  lemma TrailersDiffer(s: seq<u8>, t: seq<u8>)
    requires Crc(CRC_INIT, s) != Crc(CRC_INIT, t)
    ensures Trailer(s) != Trailer(t)
  {
    if Trailer(s) == Trailer(t) {
      assert Trailer(s)[0] == Trailer(t)[0] && Trailer(s)[1] == Trailer(t)[1];
      TrailerInjective(Crc(CRC_INIT, s), Crc(CRC_INIT, t));
    }
  }
}

/** What the receiver makes of any bytes between two delimiters, and so of a frame that was damaged on
    its way. */
module H5Damage {
  import opened Bytes
  import opened H5Crc
  import opened H5Frame
  import opened H5State
  import opened H5Receive
  import opened H5RoundTrip
  import opened Wrappers

  // ---- Any content ----

  /** The two bytes at `k` are the checksum of those before. */
  predicate Agrees(c: seq<u8>, k: nat)
    requires k + 2 <= |c|
  {
    c[k..k + 2] == Trailer(c[..k])
  }

  /** A good header, and the number expected. */
  predicate Acceptable(a: Arq, c: seq<u8>) {
    |c| >= 4 && HeaderOk(c) && (ReliableBit(c[0]) ==> NumberField(c[0]) == a.rxseq)
  }

  /** All of a frame with `len` bytes of payload is there, and its checksum, if it has one, is right. */
  predicate Whole(c: seq<u8>, crc: bool, len: nat) {
    if crc then |c| >= 6 + len && Agrees(c, 4 + len) else |c| >= 4 + len
  }

  /** The frame at the start of the content is taken. */
  predicate Taken(a: Arq, c: seq<u8>) {
    Acceptable(a, c) && Whole(c, CrcBit(c[0]), LengthField(c[1], c[2]))
  }

  /** It is refused because of its number. */
  predicate OutOfTurn(a: Arq, c: seq<u8>) {
    |c| >= 4 && HeaderOk(c) && ReliableBit(c[0]) && NumberField(c[0]) != a.rxseq
  }

  /** The effect of any content on the protocol state and on the packets handed up.  What follows the
      frame that the header announces is ignored. */
  function Judged(a: Arq, up: seq<Packet>, c: seq<u8>): (Arq, seq<Packet>)
    requires a.txseq < 8
  {
    if Taken(a, c) then
      (Accept(a, ReliableBit(c[0]), AckField(c[0])),
       match PassUp(ReliableBit(c[0]), ChannelField(c[1]))
       case Some(k) => up + [Packet(k, c[4..4 + LengthField(c[1], c[2])])]
       case None => up)
    else if OutOfTurn(a, c) then (a.(ackReq := true), up)
    else (a, up)
  }

  /** A delimiter comes while a field is being read. */
  lemma CutShort(d: H5, s: seq<u8>)
    requires Ok(d) && d.rx.skb.Live? && !d.rx.esc && |s| < d.rx.count
    ensures Reaches(d, FeedAll(d, Slip(s) + [DELIMITER]), W4Start, (d.arq, d.up))
  {
    EscapedBytesRead(d, s);
    FeedAppend(d, Slip(s), [DELIMITER]);
    FeedOne(FeedAll(d, Slip(s)), DELIMITER);
  }

  lemma Opens(h: H5, x: seq<u8>)
    requires Ok(h) && h.rx.state.W4Start? && x != [] && x[0] != DELIMITER
    ensures Ok(h.(rx := Open(h.rx))) && FeedAll(h, x) == FeedAll(h.(rx := Open(h.rx)), x)
  {
    TurnOk(h, x[0]);
    assert Turn(h, x[0]) == (h.(rx := Open(h.rx)), false);
  }

  lemma ShortHeader(h: H5, c: seq<u8>)
    requires Ok(h) && h.rx.state.W4Start? && |c| < 4
    ensures Reaches(h, FeedAll(h, Slip(c) + [DELIMITER]), W4Start, (h.arq, h.up))
  {
    var x := Slip(c) + [DELIMITER];
    if c == [] {
      assert x == [DELIMITER];
      FeedOne(h, DELIMITER);
    } else {
      assert x[0] == SlipByte(c[0])[0] && SlipByte(c[0])[0] in SlipByte(c[0]);
      Opens(h, x);
      CutShort(h.(rx := Open(h.rx)), c);
    }
  }

  lemma BadHeader(g: H5, s: seq<u8>)
    requires Ok(g) && FieldDone(g.rx) && g.rx.state.W4Header? && !HeaderOk(g.rx.skb.data) && DELIMITER !in s
    ensures Reaches(g, FeedAll(g, s + [DELIMITER]), W4Start, (g.arq, g.up))
  {
    FieldDoneAdvances(g, s + [DELIMITER]);
    ClosingDelimiter(Advance(g), s);
  }

  lemma ShortPayload(g: H5, s: seq<u8>)
    requires Ok(g) && FieldDone(g.rx) && g.rx.state.W4Header? && !g.rx.esc && HeaderOk(g.rx.skb.data)
    requires ReliableBit(g.rx.skb.data[0]) ==> NumberField(g.rx.skb.data[0]) == g.arq.rxseq
    requires |s| < LengthField(g.rx.skb.data[1], g.rx.skb.data[2])
    ensures Reaches(g, FeedAll(g, Slip(s) + [DELIMITER]), W4Start, (g.arq, g.up))
  {
    FieldDoneAdvances(g, Slip(s) + [DELIMITER]);
    CutShort(Advance(g), s);
  }

  lemma ShortTrailer(p: H5, s: seq<u8>)
    requires Ok(p) && FieldDone(p.rx) && p.rx.state.W4Data? && !p.rx.esc && CrcBit(p.rx.skb.data[0])
    requires |s| < 2
    ensures Reaches(p, FeedAll(p, Slip(s) + [DELIMITER]), W4Start, (p.arq, p.up))
  {
    FieldDoneAdvances(p, Slip(s) + [DELIMITER]);
    CutShort(Advance(p), s);
  }

  /** The frame ends without a checksum; the rest up to the delimiter is skipped. */
  lemma EndsUnchecked(p: H5, header: seq<u8>, payload: seq<u8>, rest: seq<u8>)
    requires Ok(p) && FieldDone(p.rx) && |header| == 4 && p.rx.skb == Live(header + payload)
    requires !CrcBit(header[0]) && p.rx.state.W4Data? && DELIMITER !in rest
    requires ReliableBit(header[0]) ==> NumberField(header[0]) == p.arq.rxseq
    ensures Reaches(p, FeedAll(p, rest + [DELIMITER]), W4Start, Verdict(p.arq, p.up, header, payload, []))
  {
    FieldDoneAdvances(p, rest + [DELIMITER]);
    var a := UncheckedEnd(p, header, payload);
    ClosingDelimiter(a, rest);
  }

  lemma EndsChecked(c: H5, header: seq<u8>, payload: seq<u8>, trailer: seq<u8>, rest: seq<u8>)
    requires Ok(c) && FieldDone(c.rx) && |header| == 4 && c.rx.skb == Live(header + payload + trailer)
    requires CrcBit(header[0]) && c.rx.state.W4Crc? && |trailer| == 2 && DELIMITER !in rest
    requires ReliableBit(header[0]) ==> NumberField(header[0]) == c.arq.rxseq
    ensures Reaches(c, FeedAll(c, rest + [DELIMITER]), W4Start, Verdict(c.arq, c.up, header, payload, trailer))
  {
    FieldDoneAdvances(c, rest + [DELIMITER]);
    var a := CheckedEnd(c, header, payload, trailer);
    ClosingDelimiter(a, rest);
  }

  /** The payload has come, with or without everything behind it. */
  lemma AfterPayload(p: H5, header: seq<u8>, payload: seq<u8>, more: seq<u8>)
    requires Ok(p) && FieldDone(p.rx) && p.rx.state.W4Data? && !p.rx.esc
    requires |header| == 4 && p.rx.skb == Live(header + payload)
    requires ReliableBit(header[0]) ==> NumberField(header[0]) == p.arq.rxseq
    ensures Reaches(p, FeedAll(p, Slip(more) + [DELIMITER]), W4Start,
                    if CrcBit(header[0]) then
                      if |more| < 2 then (p.arq, p.up) else Verdict(p.arq, p.up, header, payload, more[..2])
                    else Verdict(p.arq, p.up, header, payload, []))
  {
    assert (header + payload)[0] == header[0];
    if !CrcBit(header[0]) {
      EndsUnchecked(p, header, payload, Slip(more));
    } else if |more| < 2 {
      ShortTrailer(p, more);
    } else {
      SlipCut(more, 2);
      var c := TrailerRead(p, more[..2], Slip(more[2..]) + [DELIMITER]);
      EndsChecked(c, header, payload, more[..2], Slip(more[2..]));
    }
  }

  lemma SlipCut(s: seq<u8>, n: nat)
    requires n <= |s|
    ensures Slip(s) + [DELIMITER] == Slip(s[..n]) + (Slip(s[n..]) + [DELIMITER])
  {
    assert s == s[..n] + s[n..];
    SlipAppend(s[..n], s[n..]);
    Associative(Slip(s[..n]), Slip(s[n..]), [DELIMITER]);
  }

  /** Taken or not, by the fields. */
  lemma JudgedByFields(a: Arq, up: seq<Packet>, c: seq<u8>, header: seq<u8>, payload: seq<u8>, more: seq<u8>)
    requires a.txseq < 8 && |header| == 4 && HeaderOk(header) && c == header + payload + more
    requires ReliableBit(header[0]) ==> NumberField(header[0]) == a.rxseq
    requires |payload| == LengthField(header[1], header[2])
    ensures Judged(a, up, c) ==
      if CrcBit(header[0]) then
        if |more| < 2 then (a, up) else Verdict(a, up, header, payload, more[..2])
      else Verdict(a, up, header, payload, [])
  {
    var n := 4 + |payload|;
    assert c[0] == header[0] && c[1] == header[1] && c[2] == header[2] && c[3] == header[3];
    assert c[4..n] == payload && c[..n] == header + payload;
    if |more| >= 2 {
      assert c[n..n + 2] == more[..2];
    }
  }

  /** The whole payload is there. */
  lemma WholePayload(g: H5, header: seq<u8>, payload: seq<u8>, more: seq<u8>, c: seq<u8>)
    requires Ok(g) && FieldDone(g.rx) && g.rx.state.W4Header? && !g.rx.esc && g.rx.skb == Live(header)
    requires |header| == 4 && HeaderOk(header) && (ReliableBit(header[0]) ==> NumberField(header[0]) == g.arq.rxseq)
    requires |payload| == LengthField(header[1], header[2]) && c == header + payload + more
    ensures Reaches(g, FeedAll(g, Slip(payload) + (Slip(more) + [DELIMITER])), W4Start, Judged(g.arq, g.up, c))
  {
    var p := PayloadRead(g, payload, Slip(more) + [DELIMITER]);
    AfterPayload(p, header, payload, more);
    JudgedByFields(g.arq, g.up, c, header, payload, more);
  }

  /** A part of the payload is missing. */
  lemma NotTaken(a: Arq, up: seq<Packet>, header: seq<u8>, rest: seq<u8>, c: seq<u8>)
    requires a.txseq < 8 && |header| == 4 && c == header + rest && |rest| < LengthField(header[1], header[2])
    requires HeaderOk(header) && (ReliableBit(header[0]) ==> NumberField(header[0]) == a.rxseq)
    ensures Judged(a, up, c) == (a, up)
  {
    assert c[0] == header[0] && c[1] == header[1] && c[2] == header[2];
  }

  lemma CutAt(header: seq<u8>, rest: seq<u8>, len: nat)
    requires len <= |rest|
    ensures header + rest == header + rest[..len] + rest[len..]
  {
    assert rest == rest[..len] + rest[len..];
    Associative(header, rest[..len], rest[len..]);
  }

  /** The header has come, and is good and in turn. */
  lemma AfterHeader(g: H5, header: seq<u8>, rest: seq<u8>, c: seq<u8>)
    requires Ok(g) && FieldDone(g.rx) && g.rx.state.W4Header? && !g.rx.esc && g.rx.skb == Live(header)
    requires |header| == 4 && HeaderOk(header) && (ReliableBit(header[0]) ==> NumberField(header[0]) == g.arq.rxseq)
    requires c == header + rest
    ensures Reaches(g, FeedAll(g, Slip(rest) + [DELIMITER]), W4Start, Judged(g.arq, g.up, c))
  {
    var len := LengthField(header[1], header[2]);
    if |rest| < len {
      ShortPayload(g, rest);
      NotTaken(g.arq, g.up, header, rest, c);
    } else {
      SlipCut(rest, len);
      CutAt(header, rest, len);
      WholePayload(g, header, rest[..len], rest[len..], c);
    }
  }

  lemma HeaderJudged(g: H5, header: seq<u8>, rest: seq<u8>, c: seq<u8>)
    requires Ok(g) && FieldDone(g.rx) && g.rx.state.W4Header? && !g.rx.esc && g.rx.skb == Live(header)
    requires |header| == 4 && c == header + rest
    ensures Reaches(g, FeedAll(g, Slip(rest) + [DELIMITER]), W4Start, Judged(g.arq, g.up, c))
  {
    assert c[0] == header[0] && c[1] == header[1] && c[2] == header[2] && c[3] == header[3];
    if !HeaderOk(header) {
      BadHeader(g, Slip(rest));
    } else if ReliableBit(header[0]) && NumberField(header[0]) != g.arq.rxseq {
      var e := OutOfTurnDropped(g, Slip(rest));
    } else {
      AfterHeader(g, header, rest, c);
    }
  }

  lemma LongContent(s: H5, header: seq<u8>, rest: seq<u8>, c: seq<u8>)
    requires Ok(s) && s.rx.state.W4Start? && |header| == 4 && c == header + rest
    ensures Reaches(s, FeedAll(s, Slip(header) + (Slip(rest) + [DELIMITER])), W4Start, Judged(s.arq, s.up, c))
  {
    var g := HeaderRead(s, header, Slip(rest) + [DELIMITER]);
    HeaderJudged(g, header, rest, c);
  }

  lemma ContentJudged(s: H5, c: seq<u8>)
    requires Ok(s) && s.rx.state.W4Start?
    ensures Reaches(s, FeedAll(s, Slip(c) + [DELIMITER]), W4Start, Judged(s.arq, s.up, c))
  {
    if |c| < 4 {
      ShortHeader(s, c);
    } else {
      SlipCut(c, 4);
      LongContent(s, c[..4], c[4..], c);
    }
  }

  /** Between two delimiters, any bytes whatever have exactly the effect they are judged to have, and
      leave the receiver waiting for a frame. */
  lemma AnyContentReceived(h: H5, c: seq<u8>)
    requires Ok(h) && Idle(h.rx)
    ensures Reaches(h, FeedAll(h, [DELIMITER] + Slip(c) + [DELIMITER]), W4Start, Judged(h.arq, h.up, c))
  {
    Associative([DELIMITER], Slip(c), [DELIMITER]);
    var s := OpeningDelimiter(h, Slip(c) + [DELIMITER]);
    ContentJudged(s, c);
  }

  // ---- Escapes that mean nothing ----

  lemma AfterEscape(e: H5, b: u8, f: H5)
    requires Ok(e) && e.rx.skb.Live? && e.rx.count > 0 && !e.rx.esc && b !in {0xc0, 0xdc, 0xdd, 0xde, 0xdf}
    requires f == FeedAll(e, [0xdb, b])
    ensures Ok(f) && f == e.(rx := f.rx) && f.rx.state.W4Delimiter? && f.rx.frees == e.rx.frees + 1
  {
    assert [0xdb, b] == [0xdb] + [b];
    FeedAppend(e, [0xdb], [b]);
    FeedWhileReading(e, 0xdb);
    FeedWhileReading(e.(rx := e.rx.(esc := true)), b);
  }

  lemma EscapeDrops(e: H5, b: u8, rest: seq<u8>, tail: seq<u8>)
    requires Ok(e) && e.rx.skb.Live? && e.rx.count > 0 && !e.rx.esc && b !in {0xc0, 0xdc, 0xdd, 0xde, 0xdf}
    requires DELIMITER !in rest && tail == [0xdb, b] + (rest + [DELIMITER])
    ensures Reaches(e, FeedAll(e, tail), W4Start, (e.arq, e.up))
  {
    var f := FeedAll(e, [0xdb, b]);
    AfterEscape(e, b, f);
    FeedAppend(e, [0xdb, b], rest + [DELIMITER]);
    ClosingDelimiter(f, rest);
  }

  lemma Later(d: H5, e: H5, h': H5, verdict: (Arq, seq<Packet>))
    requires e == d.(rx := e.rx) && Reaches(e, h', W4Start, verdict)
    ensures Reaches(d, h', W4Start, verdict)
  {
  }

  /** Anywhere in a frame, an escape byte followed by a byte that it cannot be followed by drops the frame,
      and what comes up to the next delimiter with it. */
  lemma BadEscapeDropped(d: H5, s: seq<u8>, b: u8, rest: seq<u8>, tail: seq<u8>)
    requires Ok(d) && d.rx.skb.Live? && !d.rx.esc && |s| < d.rx.count
    requires b !in {0xc0, 0xdc, 0xdd, 0xde, 0xdf} && DELIMITER !in rest
    requires tail == [0xdb, b] + (rest + [DELIMITER])
    ensures Reaches(d, FeedAll(d, Slip(s) + tail), W4Start, (d.arq, d.up))
  {
    var e := FeedAll(d, Slip(s));
    EscapedBytesRead(d, s);
    FeedAppend(d, Slip(s), tail);
    EscapeDrops(e, b, rest, tail);
    Later(d, e, FeedAll(e, tail), (d.arq, d.up));
  }

  // ---- Damage ----

  /** `d` is `c` with one byte or two adjacent bytes changed. */
  ghost predicate Damaged(c: seq<u8>, d: seq<u8>, i: nat, n: nat) {
    && n <= 2 && i + n <= |c| == |d| && c != d
    && c[..i] == d[..i] && c[i + n..] == d[i + n..]
  }

  /** The content of the checksummed frame of a packet: message and trailer. */
  ghost predicate Sends(p: Packet, ack: nat, number: nat, message: seq<u8>, c: seq<u8>) {
    && Sendable(p) && ack < 8 && number < 8
    && message == Header(p.kind, true, ack, number, |p.data|) + p.data
    && c == message + Trailer(message)
  }

  /** The header announces a checksum and `len` bytes of payload, which is what there is. */
  predicate Announces(c: seq<u8>, len: nat) {
    |c| == 6 + len && HeaderOk(c) && CrcBit(c[0]) && LengthField(c[1], c[2]) == len
  }

  lemma SentHeader(p: Packet, ack: nat, number: nat, message: seq<u8>, c: seq<u8>)
    requires Sends(p, ack, number, message, c)
    ensures Announces(c, |p.data|)
  {
    HeaderFields(p.kind, true, ack, number, |p.data|);
    var h := Header(p.kind, true, ack, number, |p.data|);
    assert c[0] == h[0] && c[1] == h[1] && c[2] == h[2] && c[3] == h[3];
  }

  /** Two bytes have changed, and the first of them is in the header. */
  predicate HeaderPair(c: seq<u8>, d: seq<u8>, i: nat, n: nat) {
    i < 3 && n == 2 && i + 2 <= |c| == |d| && c[i] != d[i] && c[i + 1] != d[i + 1]
  }

  /** Element by element, and in whole slices: nothing outside the damage differs. */
  lemma SameOutside<T>(c: seq<T>, d: seq<T>, i: nat, n: nat)
    requires i + n <= |c| == |d| && c[..i] == d[..i] && c[i + n..] == d[i + n..]
    ensures forall k :: 0 <= k < |c| && !(i <= k < i + n) ==> c[k] == d[k]
    ensures c[i..i + n] == d[i..i + n] ==> c == d
  {
    assert forall k :: 0 <= k < i ==> c[k] == c[..i][k] && d[k] == d[..i][k];
    assert forall k :: i + n <= k < |c| ==> c[k] == c[i + n..][k - i - n] && d[k] == d[i + n..][k - i - n];
    assert forall k :: i <= k < i + n ==> c[k] == c[i..i + n][k - i] && d[k] == d[i..i + n][k - i];
  }

  lemma SliceIn<T>(c: seq<T>, d: seq<T>, lo: nat, hi: nat)
    requires lo <= hi <= |c| == |d| && forall k :: lo <= k < hi ==> c[k] == d[k]
    ensures c[lo..hi] == d[lo..hi]
  {
  }

  lemma InMessage(c: seq<u8>, d: seq<u8>, i: nat, n: nat, k: nat)
    requires Damaged(c, d, i, n) && i + n <= k <= |c|
    ensures Trailer(c[..k]) != Trailer(d[..k]) && c[k..] == d[k..]
  {
    var u, v, tail := c[i..i + n], d[i..i + n], c[i + n..k];
    SameOutside(c, d, i, n);
    SliceIn(c, d, i + n, k);
    SliceIn(c, d, k, |c|);
    assert c[..k] == c[..i] + u + tail && d[..k] == c[..i] + v + tail;
    AdjacentChangeDetected(CRC_INIT, c[..i], u, v, tail);
    TrailersDiffer(c[..k], d[..k]);
  }

  /** The last byte of the message and the first of the trailer. */
  lemma Straddles(c: seq<u8>, d: seq<u8>, i: nat)
    requires i + 3 == |c| == |d| && c[..i] == d[..i] && c[i] != d[i] && c[i + 2] == d[i + 2]
    requires c[i + 1..] == Trailer(c[..i + 1])
    ensures d[i + 1..] != Trailer(d[..i + 1])
  {
    var r := Crc(CRC_INIT, c[..i]);
    assert c[..i + 1] == c[..i] + [c[i]] && d[..i + 1] == c[..i] + [d[i]];
    CrcSnoc(CRC_INIT, c[..i], c[i]);
    CrcSnoc(CRC_INIT, c[..i], d[i]);
    assert c[i + 1..][1] == c[i + 2] && d[i + 1..][1] == d[i + 2];
    if d[i + 1..] == Trailer(d[..i + 1]) {
      LastByteShows(r, c[i], d[i]);
    }
  }

  lemma SameHalves<T>(c: seq<T>, d: seq<T>, k: nat)
    requires k <= |c| == |d| && c[0..k] == d[0..k] && c != d
    ensures c[..k] == d[..k] && c[k..] != d[k..]
  {
    assert c == c[..k] + c[k..] && d == d[..k] + d[k..];
  }

  /** Damage in the trailer, or in both the message and the trailer. */
  lemma InTrailer(c: seq<u8>, d: seq<u8>, i: nat, n: nat, k: nat)
    requires Damaged(c, d, i, n) && k < i + n && k + 2 == |c| && c[k..] == Trailer(c[..k])
    ensures d[k..] != Trailer(d[..k])
  {
    SameOutside(c, d, i, n);
    if i < k && c[i] != d[i] {
      Straddles(c, d, i);
    } else {
      SliceIn(c, d, 0, k);
      SameHalves(c, d, k);
    }
  }

  /** As long as the header still announces the same checksummed frame, the checksum gives the damage
      away, wherever it is. */
  lemma ChecksumShows(c: seq<u8>, d: seq<u8>, i: nat, n: nat, k: nat)
    requires Damaged(c, d, i, n) && k + 2 == |c| && c[k..] == Trailer(c[..k])
    ensures d[k..] != Trailer(d[..k])
  {
    if i + n <= k {
      InMessage(c, d, i, n, k);
    } else {
      InTrailer(c, d, i, n, k);
    }
  }

  lemma OneAddend(x: u8, y: u8, rest: nat)
    requires x != y
    ensures (x + rest) % 0x100 != (y + rest) % 0x100
  {
    var s, t := x + rest, y + rest;
    assert 0 < s - t < 0x100 || 0 < t - s < 0x100;
  }

  /** One changed byte never keeps the sum of the header. */
  lemma OneHeaderByte(c: seq<u8>, d: seq<u8>, q: nat)
    requires |c| >= 4 && |d| >= 4 && q < 4 && c[q] != d[q] && HeaderOk(c)
    requires q != 0 ==> c[0] == d[0]
    requires q != 1 ==> c[1] == d[1]
    requires q != 2 ==> c[2] == d[2]
    requires q != 3 ==> c[3] == d[3]
    ensures !HeaderOk(d)
  {
    if q < 3 {
      var x: int, y: int, z: int := c[0], c[1], c[2];
      var others := if q == 0 then y + z else if q == 1 then x + z else x + y;
      OneAddend(c[q], d[q], others);
    }
  }

  /** Damage behind the header leaves it alone, and less than two changed bytes do not keep its sum. */
  lemma HeaderDamage(c: seq<u8>, d: seq<u8>, i: nat, n: nat, q: nat)
    requires n <= 2 && i + n <= |c| == |d| && |c| >= 4 && HeaderOk(c) && HeaderOk(d)
    requires forall k :: 0 <= k < |c| && !(i <= k < i + n) ==> c[k] == d[k]
    requires q < 4 && c[q] != d[q]
    ensures i < 3 && n == 2 && c[i] != d[i] && c[i + 1] != d[i + 1]
  {
    if (q == 0 || c[0] == d[0]) && (q == 1 || c[1] == d[1]) && (q == 2 || c[2] == d[2]) && (q == 3 || c[3] == d[3]) {
      OneHeaderByte(c, d, q);
    }
  }

  /** Bytes sent as a checksummed frame with `len` bytes of payload pass for a frame without checksum,
      or for a shorter one whose checksum is right. */
  predicate Mistaken(a: Arq, d: seq<u8>, len: nat) {
    |d| == 6 + len && Acceptable(a, d) && Elsewhere(d, CrcBit(d[0]), LengthField(d[1], d[2]), len)
  }

  predicate Elsewhere(d: seq<u8>, crc: bool, announced: nat, len: nat)
    requires |d| == 6 + len
  {
    if crc then announced < len && Agrees(d, 4 + announced) else announced <= len + 2
  }

  lemma WholeElsewhere(d: seq<u8>, crc: bool, announced: nat, len: nat)
    requires |d| == 6 + len && !Agrees(d, 4 + len)
    ensures Whole(d, crc, announced) <==> Elsewhere(d, crc, announced, len)
  {
  }

  /** When the last bytes are no trailer, there is no other way to be taken. */
  lemma TakenForAnother(a: Arq, d: seq<u8>, len: nat)
    requires |d| == 6 + len && !Agrees(d, 4 + len)
    ensures Taken(a, d) <==> Mistaken(a, d, len)
  {
    WholeElsewhere(d, CrcBit(d[0]), LengthField(d[1], d[2]), len);
  }

  /** Behind as much as the undamaged header announces, the damaged frame has no right checksum. */
  lemma DamagedSent(p: Packet, ack: nat, number: nat, message: seq<u8>, c: seq<u8>, d: seq<u8>, i: nat, n: nat)
    requires Sends(p, ack, number, message, c) && Damaged(c, d, i, n)
    ensures Announces(c, |p.data|) && |d| == 6 + |p.data| && !Agrees(d, 4 + |p.data|)
  {
    SentHeader(p, ack, number, message, c);
    var k := |message|;
    assert c[..k] == message && c[k..] == Trailer(message);
    ChecksumShows(c, d, i, n, k);
    assert d[k..k + 2] == d[k..];
  }

  lemma HeaderTouched(c: seq<u8>, d: seq<u8>, i: nat, n: nat, len: nat)
    requires Damaged(c, d, i, n) && Announces(c, len) && HeaderOk(d)
    requires !CrcBit(d[0]) || LengthField(d[1], d[2]) < len
    ensures HeaderPair(c, d, i, n)
  {
    SameOutside(c, d, i, n);
    var q := if c[0] != d[0] then 0 else if c[1] != d[1] then 1 else 2;
    HeaderDamage(c, d, i, n, q);
  }

  lemma TakenByHeader(a: Arq, c: seq<u8>, d: seq<u8>, i: nat, n: nat, len: nat)
    requires Damaged(c, d, i, n) && Announces(c, len) && !Agrees(d, 4 + len)
    ensures Taken(a, d) <==> Mistaken(a, d, len)
    ensures Taken(a, d) ==> HeaderPair(c, d, i, n)
  {
    TakenForAnother(a, d, len);
    if Mistaken(a, d, len) {
      HeaderTouched(c, d, i, n, len);
    }
  }

  /** A checksummed frame damaged in one byte or two adjacent ones is taken exactly when it passes for a
      frame without checksum or a shorter one; and then two bytes of the header have changed so that
      their sum is the same. */
  lemma DamageTaken(a: Arq, p: Packet, ack: nat, number: nat, message: seq<u8>, c: seq<u8>, d: seq<u8>, i: nat, n: nat)
    requires Sends(p, ack, number, message, c) && Damaged(c, d, i, n)
    ensures Taken(a, d) <==> Mistaken(a, d, |p.data|)
    ensures Taken(a, d) ==> HeaderPair(c, d, i, n)
  {
    var len := |p.data|;
    DamagedSent(p, ack, number, message, c, d, i, n);
    TakenByHeader(a, c, d, i, n, len);
  }

  /** All other damage of that size leaves a checksummed frame without effect, apart from an
      acknowledgement being asked for. */
  lemma DamagedFrameDropped(h: H5, p: Packet, ack: nat, number: nat, message: seq<u8>, c: seq<u8>, d: seq<u8>,
                            i: nat, n: nat, h': H5)
    requires Ok(h) && Idle(h.rx) && Sends(p, ack, number, message, c) && Damaged(c, d, i, n)
    requires h' == FeedAll(h, [DELIMITER] + Slip(d) + [DELIMITER])
    ensures Mistaken(h.arq, d, |p.data|)
      || (h'.up == h.up && h'.arq == h.arq.(ackReq := h.arq.ackReq || OutOfTurn(h.arq, d)))
  {
    AnyContentReceived(h, d);
    DamageTaken(h.arq, p, ack, number, message, c, d, i, n);
  }

  lemma ShortenedHeader(data: seq<u8>, number: nat, message: seq<u8>, c: seq<u8>, d: seq<u8>)
    requires |data| == 15 && Sends(Packet(Sco, data), 0, number, message, c)
    requires d == [0x00, 0x33] + c[2..]
    ensures |c| == |d| == 21 && c[0] == 0x40 && c[1] == 0xf3 && c[..0] == d[..0] && c[2..] == d[2..]
    ensures d[0] == 0x00 && d[1] == 0x33 && d[2] == 0x00 && d[3] == 0xcc && d[4..7] == data[..3]
  {
    var header := Header(Sco, true, 0, number, 15);
    assert header == [0x40, 0xf3, 0x00, 0xcc];
    assert c[..4] == header && c[4..19] == data;
    assert d[4..7] == c[4..7] == c[4..19][..3];
  }

  lemma ShortenedTaken(a: Arq, up: seq<Packet>, d: seq<u8>)
    requires a.txseq < 8 && |d| >= 7 && d[0] == 0x00 && d[1] == 0x33 && d[2] == 0x00 && d[3] == 0xcc
    ensures Judged(a, up, d) == (Accept(a, false, 0), up + [Packet(Sco, d[4..7])])
  {
    assert LengthField(d[1], d[2]) == 3 && Taken(a, d);
    assert PassUp(false, 3) == Some(Sco);
  }

  /** Such damage does get through: with two header bytes changed, a SCO packet of 15 bytes is handed up
      cut down to three. */
  lemma DamagedHeaderTaken(h: H5, data: seq<u8>, number: nat, message: seq<u8>, c: seq<u8>, d: seq<u8>, h': H5)
    requires Ok(h) && Idle(h.rx) && |data| == 15 && Sends(Packet(Sco, data), 0, number, message, c)
    requires d == [0x00, 0x33] + c[2..]
    requires h' == FeedAll(h, [DELIMITER] + Slip(d) + [DELIMITER])
    ensures Damaged(c, d, 0, 2) && h'.up == h.up + [Packet(Sco, data[..3])]
  {
    ShortenedHeader(data, number, message, c, d);
    AnyContentReceived(h, d);
    ShortenedTaken(h.arq, h.up, d);
  }
}

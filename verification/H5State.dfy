/** The state of one H5 endpoint and what each entry point of the driver does to it.

    `Rx` is the byte-driven receiver, `Arq` the retransmission protocol; an endpoint also has the
    list of packets handed up to the HCI core so far. */
module H5State {
  import opened Bytes
  import opened H5Crc
  import opened H5Frame
  import opened Wrappers

  datatype RxState = W4Delimiter | W4Start | W4Header | W4Data | W4Crc

  /** What `rx_skb` points to.  The driver does not always clear the pointer when it frees the
      buffer; `Freed` is the dangling pointer, which must never be used again. */
  datatype Buffer = NoBuffer | Freed | Live(data: seq<u8>)

  datatype Rx = Rx(state: RxState, esc: bool, count: nat, skb: Buffer, crc: Reg, allocs: nat, frees: nat)

  datatype Arq = Arq(unack: seq<Packet>, rel: seq<Packet>, unrel: seq<Packet>, timer: bool,
                     txseq: nat, rxack: nat, rxseq: nat, ackReq: bool)

  datatype H5 = H5(useCrc: bool, rx: Rx, arq: Arq, up: seq<Packet>)

  const BUFFER_SIZE: nat := 0x1005

  const INITIAL_RX := Rx(W4Delimiter, false, 0, NoBuffer, Reg(0), 0, 0)
  const INITIAL_ARQ := Arq([], [], [], false, 0, 0, 0, false)

  function Initial(useCrc: bool): H5 { H5(useCrc, INITIAL_RX, INITIAL_ARQ, []) }

  // ---- Sending ----

  /** Which packets a caller can queue. */
  predicate Queueable(p: Packet) {
    |p.data| <= MAX_PAYLOAD && !p.kind.Unknown? && !p.kind.Event?
  }

  function Enqueue(a: Arq, p: Packet): Arq {
    if !Queueable(p) then a
    else if IsReliable(p.kind) then a.(rel := a.rel + [p])
    else a.(unrel := a.unrel + [p])
  }

  predicate Sendable(p: Packet) {
    |p.data| <= MAX_PAYLOAD && !p.kind.Unknown?
  }

  /** The frame built for a packet, and the protocol state once it has been built. */
  function Prepare(a: Arq, crc: bool, p: Packet): (Arq, seq<u8>)
    requires a.rxseq < 8 && a.txseq < 8 && Sendable(p)
  {
    (if IsReliable(p.kind) then a.(ackReq := false, txseq := (a.txseq + 1) % 8) else a.(ackReq := false),
     Frame(p, crc, a.rxseq, a.txseq))
  }

  /** The next frame to send, if any.  Each of the three allocations may fail. */
  function Dequeue(a: Arq, crc: bool, ok1: bool, ok2: bool, ok3: bool): (Arq, Option<seq<u8>>)
    requires ArqOk(a)
  {
    if a.unrel != [] && ok1 then
      var (a', f) := Prepare(a.(unrel := a.unrel[1..]), crc, a.unrel[0]);
      (a', Some(f))
    else if |a.unack| < WINDOW && a.rel != [] && ok2 then
      var (a', f) := Prepare(a.(rel := a.rel[1..]), crc, a.rel[0]);
      (a'.(unack := a'.unack + [a.rel[0]], timer := true), Some(f))
    else if a.ackReq && ok3 then
      var (a', f) := Prepare(a, crc, Packet(Ack, []));
      (a', Some(f))
    else
      (a, None)
  }

  /** How many of the oldest `qlen` packets in flight the acknowledgement `ack` covers: those
      numbered before it, when it lies within the window that ends at `txseq`. */
  function Covered(ack: nat, txseq: nat, qlen: nat): (n: nat)
    requires ack < 8 && txseq < 8
    ensures n <= qlen
  {
    var outstanding := (txseq + 8 - ack) % 8;
    if outstanding <= qlen then qlen - outstanding else 0
  }

  function Cull(a: Arq): Arq
    requires a.rxack < 8 && a.txseq < 8
  {
    var unack := a.unack[Covered(a.rxack, a.txseq, |a.unack|)..];
    a.(unack := unack, timer := a.timer && unack != [])
  }

  /** Retransmission timeout: everything in flight goes back to the head of the queue. */
  function Timeout(a: Arq): Arq
    requires a.txseq < 8
  {
    a.(unack := [], rel := a.unack + a.rel, txseq := (a.txseq - |a.unack|) % 8, timer := false)
  }

  // ---- Receiving ----

  /** A payload byte goes into the buffer and, outside the CRC field, into the checksum. */
  function PutByte(rx: Rx, b: u8): Rx
    requires rx.skb.Live? && rx.count > 0
  {
    var d := rx.skb.data + [b];
    rx.(skb := Live(d), count := rx.count - 1,
        crc := if CrcBit(d[0]) && !rx.state.W4Crc? then Update(rx.crc, b) else rx.crc)
  }

  function Unescaped(b: u8): Option<u8> {
    if b == 0xdc then Some(0xc0)
    else if b == 0xdd then Some(0xdb)
    else if b == 0xde then Some(0x11)
    else if b == 0xdf then Some(0x13)
    else None
  }

  function Unslip(rx: Rx, b: u8): Rx
    requires rx.skb.Live? && rx.count > 0
  {
    if !rx.esc then
      if b == ESCAPE then rx.(esc := true) else PutByte(rx, b)
    else
      match Unescaped(b)
      case Some(c) => PutByte(rx, c).(esc := false)
      case None => rx.(skb := NoBuffer, frees := rx.frees + 1, state := W4Delimiter, count := 0)
  }

  /** The buffer is freed; the pointer is left dangling. */
  function Discard(rx: Rx, next: RxState): Rx
    requires rx.skb.Live?
  {
    rx.(skb := Freed, frees := rx.frees + 1, state := next, count := 0)
  }

  /** What the HCI core is given for a channel; `None` when the packet is for the transport itself
      or for nobody. */
  function PassUp(reliable: bool, channel: nat): Option<Kind> {
    if channel == 2 && reliable then Some(Acl)
    else if channel == 4 && reliable then Some(Event)
    else if channel == 3 then Some(Sco)
    else if channel == 15 && !reliable then None
    else if channel == 1 && reliable then Some(Command)
    else if channel == 14 then Some(Vendor)
    else None
  }

  /** The protocol's reaction to an accepted frame with the given header byte. */
  function Accept(a: Arq, reliable: bool, ack: nat): Arq
    requires ack < 8 && a.txseq < 8
  {
    var a' := if reliable then a.(rxseq := (a.rxseq + 1) % 8, ackReq := true) else a;
    Cull(a'.(rxack := ack))
  }

  function Complete(h: H5): H5
    requires h.rx.skb.Live? && |h.rx.skb.data| >= 4 && h.arq.txseq < 8
  {
    var d := h.rx.skb.data;
    var rx := h.rx.(state := W4Delimiter, skb := NoBuffer);
    var arq := Accept(h.arq, ReliableBit(d[0]), AckField(d[0]));
    match PassUp(ReliableBit(d[0]), ChannelField(d[1]))
    case Some(k) => h.(rx := rx, arq := arq, up := h.up + [Packet(k, d[4..])])
    case None => h.(rx := rx.(frees := rx.frees + 1), arq := arq)
  }

  /** A field of the frame has been read to its end. */
  predicate FieldDone(rx: Rx) {
    rx.count == 0 && (rx.state.W4Header? || rx.state.W4Data? || rx.state.W4Crc?)
  }

  /** What then happens, without consuming a byte. */
  function Advance(h: H5): H5
    requires Ok(h) && FieldDone(h.rx)
  {
    var d := h.rx.skb.data;
    if h.rx.state.W4Header? then
      if !HeaderOk(d) then
        h.(rx := Discard(h.rx, W4Delimiter))
      else if ReliableBit(d[0]) && NumberField(d[0]) != h.arq.rxseq then
        h.(rx := Discard(h.rx, W4Delimiter), arq := h.arq.(ackReq := true))
      else
        h.(rx := h.rx.(state := W4Data, count := LengthField(d[1], d[2])))
    else if h.rx.state.W4Data? then
      if CrcBit(d[0]) then h.(rx := h.rx.(state := W4Crc, count := 2)) else Complete(h)
    else
      if [TrailerHigh(h.rx.crc), TrailerLow(h.rx.crc)] != d[|d| - 2..] then
        h.(rx := Discard(h.rx, W4Delimiter))
      else
        Complete(h.(rx := h.rx.(skb := Live(d[..|d| - 2]))))
  }

  /** The first byte of a frame has been seen, but not yet consumed. */
  function Open(rx: Rx): Rx {
    rx.(state := W4Header, count := 4, esc := false, crc := CRC_INIT, skb := Live([]), allocs := rx.allocs + 1)
  }

  /** One turn of the receive loop: the new state, and whether the byte was consumed. */
  function Turn(h: H5, b: u8): (H5, bool)
    requires Ok(h)
  {
    var rx := h.rx;
    if rx.count > 0 then
      (h.(rx := if b == DELIMITER then Discard(rx, W4Start) else Unslip(rx, b)), true)
    else if FieldDone(rx) then
      (Advance(h), false)
    else if rx.state.W4Delimiter? then
      (if b == DELIMITER then h.(rx := rx.(state := W4Start)) else h, true)
    else if b == DELIMITER then
      (h, true)
    else
      (h.(rx := Open(rx)), false)
  }

  // ---- What every entry point keeps ----

  ghost predicate ArqOk(a: Arq) {
    && a.txseq < 8 && a.rxack < 8 && a.rxseq < 8
    && |a.unack| <= WINDOW
    && (forall p :: p in a.unack + a.rel ==> Sendable(p) && IsReliable(p.kind))
    && (forall p :: p in a.unrel ==> Sendable(p) && !IsReliable(p.kind))
    && (a.unack != [] <==> a.timer)
  }

  /** The header bytes are in the buffer from the data field on, and the buffer holds exactly the
      bytes the counters say. */
  ghost predicate RxOk(rx: Rx) {
    match rx.state
    case W4Delimiter => rx.count == 0 && !rx.skb.Live?
    case W4Start => rx.count == 0 && !rx.skb.Live?
    case W4Header => rx.skb.Live? && |rx.skb.data| + rx.count == 4 && ChecksumSoFar(rx, |rx.skb.data|)
    case W4Data =>
      && rx.skb.Live? && |rx.skb.data| >= 4
      && |rx.skb.data| + rx.count == 4 + LengthField(rx.skb.data[1], rx.skb.data[2])
      && ChecksumSoFar(rx, |rx.skb.data|)
    case W4Crc =>
      && rx.skb.Live? && |rx.skb.data| >= 4 && CrcBit(rx.skb.data[0])
      && rx.count <= 2
      && |rx.skb.data| + rx.count == 6 + LengthField(rx.skb.data[1], rx.skb.data[2])
      && ChecksumSoFar(rx, 4 + LengthField(rx.skb.data[1], rx.skb.data[2]))
  }

  ghost predicate ChecksumSoFar(rx: Rx, n: nat)
    requires rx.skb.Live? && n <= |rx.skb.data|
  {
    rx.crc == if n > 0 && CrcBit(rx.skb.data[0]) then Crc(CRC_INIT, rx.skb.data[..n]) else CRC_INIT
  }

  /** Every buffer allocated has been freed, handed up, or is the one being filled. */
  ghost predicate Accounted(h: H5) {
    h.rx.allocs == h.rx.frees + |h.up| + if h.rx.skb.Live? then 1 else 0
  }

  ghost predicate Ok(h: H5) {
    ArqOk(h.arq) && RxOk(h.rx) && Accounted(h)
  }
}

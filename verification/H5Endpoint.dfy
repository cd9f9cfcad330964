/** The H5 endpoint as the driver implements it: one object whose fields the entry points update in
    place.  Every method is proved to do exactly what `H5State` and `H5Receive` say. */
module H5Endpoint {
  import opened Bytes
  import opened H5Crc
  import opened H5Frame
  import opened H5State
  import opened H5Receive
  import opened H5Sender
  import opened Wrappers

  class Endpoint {
    var unack: seq<Packet>
    var rel: seq<Packet>
    var unrel: seq<Packet>
    var rxCount: nat
    var rxSkb: Buffer
    var retransPending: bool
    var rxState: RxState
    var rxEsc: bool
    var messageCrc: Reg
    var useCrc: bool
    var rxack: nat
    var rxseqTxack: nat
    var txackReq: bool
    var msgqTxseq: nat

    /** Packets handed to the HCI core, and the counts of receive buffers allocated and freed. */
    var up: seq<Packet>
    ghost var allocs: nat
    ghost var frees: nat

    ghost function ArqState(): Arq
      reads this
    {
      Arq(unack, rel, unrel, retransPending, msgqTxseq, rxack, rxseqTxack, txackReq)
    }

    ghost function RxPart(): Rx
      reads this
    {
      Rx(rxState, rxEsc, rxCount, rxSkb, messageCrc, allocs, frees)
    }

    ghost function State(): H5
      reads this
    {
      H5(useCrc, RxPart(), ArqState(), up)
    }

    ghost predicate Valid()
      reads this
    {
      Ok(State())
    }

    constructor (txcrc: bool)
      ensures Valid()
      ensures State() == Initial(txcrc)
    {
      unack, rel, unrel := [], [], [];
      rxCount, rxSkb, rxState, rxEsc, messageCrc := 0, NoBuffer, W4Delimiter, false, Reg(0);
      rxack, rxseqTxack, txackReq, msgqTxseq := 0, 0, false, 0;
      retransPending := false;
      useCrc := txcrc;
      up, allocs, frees := [], 0, 0;
    }

    // ---- Sending ----

    method EnqueuePacket(p: Packet)
      requires Valid()
      modifies this
      ensures Valid()
      ensures State() == old(State()).(arq := Enqueue(old(ArqState()), p))
      ensures rel == old(rel) + if ForReliable(p) then [p] else []
      ensures unrel == old(unrel) + if ForUnreliable(p) then [p] else []
    {
      EnqueueOk(ArqState(), p);
      EnqueueExactly(ArqState(), p);
      if |p.data| > MAX_PAYLOAD {
        return;
      }
      match p.kind
      case Acl => rel := rel + [p];
      case Command => rel := rel + [p];
      case Sco => unrel := unrel + [p];
      case Link => unrel := unrel + [p];
      case Ack => unrel := unrel + [p];
      case Vendor => unrel := unrel + [p];
      case Event =>
      case Unknown =>
    }

    static lemma OneMoreByte(skb: seq<u8>, bytes: seq<u8>, i: nat, crc: Reg)
      requires i < |bytes|
      ensures skb + Slip(bytes[..i]) + SlipByte(bytes[i]) == skb + Slip(bytes[..i + 1])
      ensures Crc(crc, bytes[..i + 1]) == Update(Crc(crc, bytes[..i]), bytes[i])
    {
      assert bytes[..i + 1] == bytes[..i] + [bytes[i]];
      SlipSnoc(bytes[..i], bytes[i]);
      CrcSnoc(crc, bytes[..i], bytes[i]);
    }

    /** Escapes and appends the bytes of one field, checksumming them as they go. */
    method PutField(skb: seq<u8>, bytes: seq<u8>, crc: Reg) returns (skb': seq<u8>, crc': Reg)
      ensures skb' == skb + Slip(bytes)
      ensures crc' == if useCrc then Crc(crc, bytes) else crc
    {
      skb', crc' := skb, crc;
      var i := 0;
      while i < |bytes|
        invariant 0 <= i <= |bytes|
        invariant skb' == skb + Slip(bytes[..i])
        invariant crc' == if useCrc then Crc(crc, bytes[..i]) else crc
      {
        OneMoreByte(skb, bytes, i, crc);
        skb' := skb' + SlipByte(bytes[i]);
        if useCrc {
          crc' := Update(crc', bytes[i]);
        }
        i := i + 1;
      }
      assert bytes[..i] == bytes;
    }

    /** The header of the next frame; a reliable packet takes the next number. */
    method NextHeader(k: Kind, len: nat) returns (header: seq<u8>)
      requires !k.Unknown? && len <= MAX_PAYLOAD
      requires rxseqTxack < 8 && msgqTxseq < 8
      modifies this`txackReq, this`msgqTxseq
      ensures header == Header(k, useCrc, rxseqTxack, old(msgqTxseq), len)
      ensures !txackReq
      ensures msgqTxseq == if IsReliable(k) then (old(msgqTxseq) + 1) % 8 else old(msgqTxseq)
    {
      var d0 := rxseqTxack * 8;
      txackReq := false;
      if IsReliable(k) {
        d0 := d0 + (0x80 + msgqTxseq);
        msgqTxseq := (msgqTxseq + 1) % 8;
      }
      if useCrc {
        d0 := d0 + 0x40;
      }
      var d1 := (len % 16) * 16 + Channel(k);
      var d2 := len / 16;
      header := [d0, d1, d2, Complement(d0, d1, d2)];
    }

    /** Header, payload and checksum, escaped, between two delimiters. */
    method Assemble(header: seq<u8>, data: seq<u8>) returns (skb: seq<u8>, ghost crc: Reg, ghost trailer: seq<u8>)
      ensures useCrc ==> crc == Crc(Crc(CRC_INIT, header), data)
      ensures trailer == if useCrc then [TrailerHigh(crc), TrailerLow(crc)] else []
      ensures skb == [DELIMITER] + Slip(header) + Slip(data) + Slip(trailer) + [DELIMITER]
    {
      var sum;
      skb, sum := PutField([DELIMITER], header, CRC_INIT);
      skb, sum := PutField(skb, data, sum);
      crc := sum;
      var closing := [];
      if useCrc {
        closing := [TrailerHigh(sum), TrailerLow(sum)];
      }
      trailer := closing;
      var unused;
      skb, unused := PutField(skb, closing, sum);
      skb := skb + [DELIMITER];
    }

    method BuildFrame(p: Packet) returns (skb: seq<u8>)
      requires |p.data| <= MAX_PAYLOAD && !p.kind.Unknown?
      requires rxseqTxack < 8 && msgqTxseq < 8
      modifies this`txackReq, this`msgqTxseq
      ensures skb == Frame(p, useCrc, rxseqTxack, old(msgqTxseq)) && |skb| <= (|p.data| + 6) * 2 + 2
      ensures !txackReq
      ensures msgqTxseq == if IsReliable(p.kind) then (old(msgqTxseq) + 1) % 8 else old(msgqTxseq)
    {
      ghost var number := msgqTxseq;
      var header := NextHeader(p.kind, |p.data|);
      ghost var crc, trailer;
      skb, crc, trailer := Assemble(header, p.data);
      FrameFields(p, useCrc, rxseqTxack, number, header, crc, trailer, skb);
      FrameFits(p, useCrc, rxseqTxack, number);
    }

    /** Builds the frame for a packet; `None` when the type is unknown or there is no memory. */
    method PreparePacket(p: Packet, memory: bool) returns (frame: Option<seq<u8>>)
      requires |p.data| <= MAX_PAYLOAD
      requires rxseqTxack < 8 && msgqTxseq < 8
      modifies this`txackReq, this`msgqTxseq
      ensures frame.None? <==> p.kind.Unknown? || !memory
      ensures frame.None? ==> ArqState() == old(ArqState())
      ensures frame.Some? ==> (ArqState(), frame.value) == Prepare(old(ArqState()), useCrc, p)
    {
      if p.kind.Unknown? || !memory {
        return None;
      }
      var skb := BuildFrame(p);
      frame := Some(skb);
    }

    method SendUnreliable(memory: bool) returns (frame: Option<seq<u8>>)
      requires unrel != [] && Sendable(unrel[0]) && !IsReliable(unrel[0].kind)
      requires rxseqTxack < 8 && msgqTxseq < 8
      modifies this`unrel, this`txackReq, this`msgqTxseq
      ensures !memory ==> frame.None? && ArqState() == old(ArqState())
      ensures memory ==> frame.Some?
      ensures memory ==>
        (ArqState(), frame.value) == Prepare(old(ArqState()).(unrel := old(unrel)[1..]), useCrc, old(unrel)[0])
    {
      var p := unrel[0];
      unrel := unrel[1..];
      frame := PreparePacket(p, memory);
      if frame.None? {
        unrel := [p] + unrel;
      }
    }

    method SendReliable(memory: bool) returns (frame: Option<seq<u8>>)
      requires rel != [] && Sendable(rel[0])
      requires rxseqTxack < 8 && msgqTxseq < 8
      modifies this`rel, this`unack, this`retransPending, this`txackReq, this`msgqTxseq
      ensures !memory ==> frame.None? && ArqState() == old(ArqState())
      ensures memory ==> frame.Some?
      ensures memory ==>
        var (a, f) := Prepare(old(ArqState()).(rel := old(rel)[1..]), useCrc, old(rel)[0]);
        (ArqState(), frame.value) == (a.(unack := a.unack + [old(rel)[0]], timer := true), f)
    {
      var p := rel[0];
      rel := rel[1..];
      frame := PreparePacket(p, memory);
      if frame.Some? {
        unack := unack + [p];
        retransPending := true;
      } else {
        rel := [p] + rel;
      }
    }

    lemma HeadsSendable()
      requires Valid()
      ensures rxseqTxack < 8 && msgqTxseq < 8
      ensures unrel != [] ==> Sendable(unrel[0]) && !IsReliable(unrel[0].kind)
      ensures rel != [] ==> Sendable(rel[0])
    {
      assert rel != [] ==> rel[0] in unack + rel;
    }

    /** A reliable packet if the window has room, else an acknowledgement if one is owed. */
    method NextWithoutUnreliable(ghost ok1: bool, ok2: bool, ok3: bool) returns (frame: Option<seq<u8>>)
      requires rxseqTxack < 8 && msgqTxseq < 8 && ArqOk(ArqState()) && (unrel == [] || !ok1)
      requires rel != [] ==> Sendable(rel[0])
      modifies this`unack, this`rel, this`retransPending, this`txackReq, this`msgqTxseq
      ensures (ArqState(), frame) == Dequeue(old(ArqState()), useCrc, ok1, ok2, ok3)
    {
      if |unack| < WINDOW && rel != [] {
        frame := SendReliable(ok2);
        if frame.Some? {
          return;
        }
      }
      if txackReq {
        frame := PreparePacket(Packet(Ack, []), ok3);
        return;
      }
      frame := None;
    }

    /** An unreliable packet first, then a reliable one if the window has room, then an
        acknowledgement if one is owed. */
    method NextFrame(ok1: bool, ok2: bool, ok3: bool) returns (frame: Option<seq<u8>>)
      requires rxseqTxack < 8 && msgqTxseq < 8 && ArqOk(ArqState())
      requires unrel != [] ==> Sendable(unrel[0]) && !IsReliable(unrel[0].kind)
      requires rel != [] ==> Sendable(rel[0])
      modifies this`unack, this`rel, this`unrel, this`retransPending, this`txackReq, this`msgqTxseq
      ensures (ArqState(), frame) == Dequeue(old(ArqState()), useCrc, ok1, ok2, ok3)
    {
      if unrel != [] {
        frame := SendUnreliable(ok1);
        if frame.Some? {
          return;
        }
      }
      frame := NextWithoutUnreliable(ok1, ok2, ok3);
    }

    /** The next frame to send, if any.  `ok1`, `ok2` and `ok3` say whether each allocation succeeds. */
    method DequeueFrame(ok1: bool, ok2: bool, ok3: bool) returns (frame: Option<seq<u8>>)
      requires Valid()
      modifies this`unack, this`rel, this`unrel, this`retransPending, this`txackReq, this`msgqTxseq
      ensures Valid()
      ensures (ArqState(), frame) == Dequeue(old(ArqState()), useCrc, ok1, ok2, ok3)
    {
      ghost var h := State();
      HeadsSendable();
      frame := NextFrame(ok1, ok2, ok3);
      Dequeued(h, ok1, ok2, ok3, ArqState(), frame, State());
    }

    static lemma Dequeued(h: H5, ok1: bool, ok2: bool, ok3: bool, a: Arq, frame: Option<seq<u8>>, h': H5)
      requires Ok(h) && (a, frame) == Dequeue(h.arq, h.useCrc, ok1, ok2, ok3) && h' == h.(arq := a)
      ensures Ok(h')
    {
      DequeueOk(h.arq, h.useCrc, ok1, ok2, ok3);
    }

    /** Drops the packets the peer's acknowledgement covers, found by counting back from the next
        number to be sent. */
    method CullAcknowledged()
      requires rxack < 8 && msgqTxseq < 8
      modifies this`unack, this`retransPending
      ensures ArqState() == Cull(old(ArqState()))
    {
      ghost var outstanding := (msgqTxseq + 8 - rxack) % 8;
      var n := |unack|;
      var number: int := msgqTxseq;
      while n > 0
        invariant 0 <= n <= |unack| && |unack| - n <= outstanding
        invariant number == (rxack + (outstanding - (|unack| - n))) % 8
      {
        if rxack == number {
          break;
        }
        n := n - 1;
        number := (number - 1) % 8;
      }
      assert n == Covered(rxack, msgqTxseq, |unack|);
      unack := unack[n..];
      if unack == [] {
        retransPending := false;
      }
    }

    static lemma MoveLast(u: seq<Packet>, r: seq<Packet>)
      requires u != []
      ensures u[..|u| - 1] + ([u[|u| - 1]] + r) == u + r
    {
    }

    /** Moves everything in flight back to the head of the queue, last packet first, taking back one
        number for each. */
    method RollBack()
      requires msgqTxseq < 8
      modifies this`unack, this`rel, this`msgqTxseq
      ensures unack == [] && rel == old(unack) + old(rel)
      ensures msgqTxseq == (old(msgqTxseq) - |old(unack)|) % 8
    {
      ghost var n, all, t := |unack|, unack + rel, msgqTxseq;
      while unack != []
        invariant |unack| <= n && unack + rel == all
        invariant msgqTxseq == (t - (n - |unack|)) % 8
      {
        var p := unack[|unack| - 1];
        MoveLast(unack, rel);
        unack := unack[..|unack| - 1];
        msgqTxseq := (msgqTxseq - 1) % 8;
        rel := [p] + rel;
      }
      assert [] + rel == rel;
    }

    /** The retransmission timer fires. */
    method TimedEvent()
      requires Valid()
      modifies this`unack, this`rel, this`msgqTxseq, this`retransPending
      ensures Valid()
      ensures ArqState() == Timeout(old(ArqState()))
    {
      TimeoutOk(ArqState());
      retransPending := false;
      RollBack();
    }

    // ---- Receiving ----

    method FreeBuffer(pointer: Buffer)
      requires rxSkb.Live? && !pointer.Live?
      modifies this`rxSkb, this`frees
      ensures rxSkb == pointer && frees == old(frees) + 1
    {
      rxSkb := pointer;
      frees := frees + 1;
    }

    /** A bad frame: the buffer is freed, and the pointer left as it is. */
    method DropBuffer(next: RxState)
      requires rxSkb.Live?
      modifies this`rxSkb, this`frees, this`rxState, this`rxCount
      ensures RxPart() == Discard(old(RxPart()), next)
    {
      FreeBuffer(Freed);
      rxState := next;
      rxCount := 0;
    }

    method Store(b: u8)
      requires rxSkb.Live? && rxCount > 0
      modifies this`rxSkb, this`rxCount, this`messageCrc
      ensures RxPart() == PutByte(old(RxPart()), b)
    {
      rxSkb := Live(rxSkb.data + [b]);
      if CrcBit(rxSkb.data[0]) && !rxState.W4Crc? {
        messageCrc := Update(messageCrc, b);
      }
      rxCount := rxCount - 1;
    }

    method UnslipOneByte(b: u8)
      requires rxSkb.Live? && rxCount > 0
      modifies this`rxSkb, this`rxCount, this`messageCrc, this`rxEsc, this`rxState, this`frees
      ensures RxPart() == Unslip(old(RxPart()), b)
    {
      if !rxEsc {
        if b == ESCAPE {
          rxEsc := true;
        } else {
          Store(b);
        }
      } else {
        if b == 0xdc {
          Store(0xc0);
          rxEsc := false;
        } else if b == 0xdd {
          Store(0xdb);
          rxEsc := false;
        } else if b == 0xde {
          Store(0x11);
          rxEsc := false;
        } else if b == 0xdf {
          Store(0x13);
          rxEsc := false;
        } else {
          FreeBuffer(NoBuffer);
          rxState := W4Delimiter;
          rxCount := 0;
        }
      }
    }

    /** What kind of packet the HCI core is given, if any. */
    method Classify(d0: u8, d1: u8) returns (kind: Option<Kind>)
      ensures kind == PassUp(ReliableBit(d0), ChannelField(d1))
    {
      if ChannelField(d1) == 2 && ReliableBit(d0) {
        kind := Some(Acl);
      } else if ChannelField(d1) == 4 && ReliableBit(d0) {
        kind := Some(Event);
      } else if ChannelField(d1) == 3 {
        kind := Some(Sco);
      } else if ChannelField(d1) == 15 && !ReliableBit(d0) {
        kind := None;
      } else if ChannelField(d1) == 1 && ReliableBit(d0) {
        kind := Some(Command);
      } else if ChannelField(d1) == 14 {
        kind := Some(Vendor);
      } else {
        kind := None;
      }
    }

    /** The protocol's side of an accepted frame. */
    method TakeAcknowledgement(d0: u8)
      requires msgqTxseq < 8
      modifies this`rxseqTxack, this`txackReq, this`rxack, this`unack, this`retransPending
      ensures State() == old(State()).(arq := Accept(old(ArqState()), ReliableBit(d0), AckField(d0)))
    {
      if ReliableBit(d0) {
        rxseqTxack := rxseqTxack + 1;
        rxseqTxack := rxseqTxack % 8;
        txackReq := true;
      }
      rxack := AckField(d0);
      CullAcknowledged();
    }

    /** The buffer's side of an accepted frame. */
    static function Disposed(h: H5, kind: Option<Kind>): H5
      requires h.rx.skb.Live? && |h.rx.skb.data| >= 4
    {
      var rx := h.rx.(state := W4Delimiter, skb := NoBuffer);
      match kind
      case Some(k) => h.(rx := rx, up := h.up + [Packet(k, h.rx.skb.data[4..])])
      case None => h.(rx := rx.(frees := rx.frees + 1))
    }

    /** Hands the buffer up, or frees it. */
    method DisposeOf(kind: Option<Kind>)
      requires rxSkb.Live? && |rxSkb.data| >= 4
      modifies this`up, this`rxSkb, this`frees, this`rxState
      ensures State() == Disposed(old(State()), kind)
    {
      if kind.Some? {
        up := up + [Packet(kind.value, rxSkb.data[4..])];
        rxSkb := NoBuffer;
      } else {
        FreeBuffer(NoBuffer);
      }
      rxState := W4Delimiter;
    }

    static lemma BothSides(h: H5, d: seq<u8>, kind: Option<Kind>)
      requires h.rx.skb == Live(d) && |d| >= 4 && h.arq.txseq < 8
      requires kind == PassUp(ReliableBit(d[0]), ChannelField(d[1]))
      ensures Complete(h) == Disposed(h.(arq := Accept(h.arq, ReliableBit(d[0]), AckField(d[0]))), kind)
    {
    }

    method CompletePacket()
      requires rxSkb.Live? && |rxSkb.data| >= 4 && msgqTxseq < 8
      modifies this`rxseqTxack, this`txackReq, this`rxack, this`unack, this`retransPending
      modifies this`up, this`rxSkb, this`frees, this`rxState
      ensures State() == Complete(old(State()))
    {
      ghost var h := State();
      var d := rxSkb.data;
      TakeAcknowledgement(d[0]);
      var kind := Classify(d[0], d[1]);
      BothSides(h, d, kind);
      DisposeOf(kind);
    }

    /** The header has been read: check it, and whether the packet is the one expected. */
    method FinishHeader()
      requires Valid() && FieldDone(RxPart()) && rxState.W4Header?
      modifies this`rxSkb, this`frees, this`rxState, this`rxCount, this`txackReq
      ensures State() == Advance(old(State()))
    {
      var d := rxSkb.data;
      if Complement(d[0], d[1], d[2]) != d[3] {
        DropBuffer(W4Delimiter);
      } else if ReliableBit(d[0]) && NumberField(d[0]) != rxseqTxack {
        txackReq := true;
        DropBuffer(W4Delimiter);
      } else {
        rxState := W4Data;
        rxCount := LengthField(d[1], d[2]);
      }
    }

    /** The payload has been read. */
    method FinishData()
      requires Valid() && FieldDone(RxPart()) && rxState.W4Data?
      modifies this
      ensures State() == Advance(old(State()))
    {
      if CrcBit(rxSkb.data[0]) {
        rxState := W4Crc;
        rxCount := 2;
      } else {
        CompletePacket();
      }
    }

    method CompleteTrimmed()
      requires rxSkb.Live? && |rxSkb.data| >= 6 && msgqTxseq < 8
      modifies this
      ensures var d := old(rxSkb).data;
        State() == Complete(old(State()).(rx := old(RxPart()).(skb := Live(d[..|d| - 2]))))
    {
      rxSkb := Live(rxSkb.data[..|rxSkb.data| - 2]);
      CompletePacket();
    }

    static lemma Checked(h: H5)
      requires Ok(h) && FieldDone(h.rx) && h.rx.state.W4Crc?
      ensures var d := h.rx.skb.data;
        && |d| >= 6
        && Advance(h) == if [TrailerHigh(h.rx.crc), TrailerLow(h.rx.crc)] != d[|d| - 2..]
             then h.(rx := Discard(h.rx, W4Delimiter))
             else Complete(h.(rx := h.rx.(skb := Live(d[..|d| - 2]))))
    {
    }

    /** Compares the checksum, and strips it. */
    method CompareTrailer()
      requires rxSkb.Live? && |rxSkb.data| >= 6 && msgqTxseq < 8
      modifies this
      ensures var h, d := old(State()), old(rxSkb).data;
        State() == if [TrailerHigh(h.rx.crc), TrailerLow(h.rx.crc)] != d[|d| - 2..]
          then h.(rx := Discard(h.rx, W4Delimiter))
          else Complete(h.(rx := h.rx.(skb := Live(d[..|d| - 2]))))
    {
      var d := rxSkb.data;
      if [TrailerHigh(messageCrc), TrailerLow(messageCrc)] != d[|d| - 2..] {
        DropBuffer(W4Delimiter);
      } else {
        CompleteTrimmed();
      }
    }

    /** The checksum has been read. */
    method FinishCrc()
      requires Valid() && FieldDone(RxPart()) && rxState.W4Crc?
      modifies this
      ensures State() == Advance(old(State()))
    {
      Checked(State());
      CompareTrailer();
    }

    method OpenBuffer()
      modifies this`rxState, this`rxCount, this`rxEsc, this`messageCrc, this`rxSkb, this`allocs
      ensures RxPart() == Open(old(RxPart()))
    {
      rxState := W4Header;
      rxCount := 4;
      rxEsc := false;
      messageCrc := CRC_INIT;
      rxSkb := Live([]);
      allocs := allocs + 1;
    }

    /** One turn of the receive loop. */
    method TakeTurn(b: u8) returns (consumed: bool)
      requires Valid()
      modifies this
      ensures (State(), consumed) == Turn(old(State()), b)
    {
      if rxCount > 0 {
        if b == DELIMITER {
          DropBuffer(W4Start);
        } else {
          UnslipOneByte(b);
        }
        return true;
      }
      match rxState
      case W4Header => FinishHeader(); return false;
      case W4Data => FinishData(); return false;
      case W4Crc => FinishCrc(); return false;
      case W4Delimiter =>
        if b == DELIMITER {
          rxState := W4Start;
        }
        return true;
      case W4Start =>
        if b == DELIMITER {
          return true;
        }
        OpenBuffer();
        return false;
    }

    /** Receives a chunk of bytes; returns how many are left, which is none. */
    method Recv(data: seq<u8>) returns (left: nat)
      requires Valid()
      modifies this
      ensures Valid()
      ensures left == 0
      ensures State() == FeedAll(old(State()), data)
    {
      var pos := 0;
      left := |data|;
      while left > 0
        invariant Valid()
        invariant pos + left == |data|
        invariant FeedAll(State(), data[pos..]) == FeedAll(old(State()), data)
        decreases left, Rank(RxPart())
      {
        TurnOk(State(), data[pos]);
        assert data[pos..][1..] == data[pos + 1..];
        var consumed := TakeTurn(data[pos]);
        if consumed {
          pos, left := pos + 1, left - 1;
        }
      }
    }
  }
}

/** The receiver: what every byte keeps, and why the receive loop ends. */
module H5Receive {
  import opened Bytes
  import opened H5Crc
  import opened H5Frame
  import opened H5State
  import opened Wrappers

  /** Bounds the turns that do not consume a byte: a state's rank is above that of every state such
      a turn can lead to. */
  function Rank(rx: Rx): nat {
    if rx.count > 0 then 0
    else match rx.state
      case W4Delimiter => 0
      case W4Start => 1
      case W4Crc => 1
      case W4Data => 2
      case W4Header => 3
  }

  lemma CrcSnoc(r: Reg, s: seq<u8>, b: u8)
    ensures Crc(r, s + [b]) == Update(Crc(r, s), b)
  {
    CrcAppend(r, s, [b]);
    assert [b][1..] == [];
    assert Crc(Crc(r, s), [b]) == Crc(Update(Crc(r, s), b), []);
  }

  lemma ChecksumGrows(rx: Rx, b: u8)
    requires rx.skb.Live? && rx.count > 0 && !rx.state.W4Crc?
    requires ChecksumSoFar(rx, |rx.skb.data|)
    ensures ChecksumSoFar(PutByte(rx, b), |rx.skb.data| + 1)
  {
    var d := rx.skb.data;
    var d' := d + [b];
    assert d'[..|d| + 1] == d' && d[..|d|] == d;
    CrcSnoc(CRC_INIT, d, b);
    if d != [] {
      assert d'[0] == d[0];
    } else {
      assert Crc(CRC_INIT, d) == CRC_INIT;
    }
  }

  lemma ChecksumStays(rx: Rx, b: u8, n: nat, rx': Rx)
    requires rx.skb.Live? && 0 < n <= |rx.skb.data| && ChecksumSoFar(rx, n)
    requires rx'.skb == Live(rx.skb.data + [b]) && rx'.crc == rx.crc
    ensures ChecksumSoFar(rx', n)
  {
    assert (rx.skb.data + [b])[..n] == rx.skb.data[..n];
  }

  lemma PutHeaderByte(rx: Rx, b: u8)
    requires RxOk(rx) && rx.state.W4Header? && rx.count > 0
    ensures RxOk(PutByte(rx, b))
  {
    ChecksumGrows(rx, b);
  }

  /** The length is that of the header, which a byte behind it leaves alone. */
  lemma LengthStays(d: seq<u8>, b: u8)
    requires |d| >= 4
    ensures |d + [b]| == |d| + 1 && CrcBit((d + [b])[0]) == CrcBit(d[0])
    ensures LengthField((d + [b])[1], (d + [b])[2]) == LengthField(d[1], d[2])
  {
    assert (d + [b])[0] == d[0] && (d + [b])[1] == d[1] && (d + [b])[2] == d[2];
  }

  lemma PutDataByte(rx: Rx, b: u8, rx': Rx)
    requires RxOk(rx) && rx.state.W4Data? && rx.count > 0 && rx' == PutByte(rx, b)
    ensures RxOk(rx')
  {
    ChecksumGrows(rx, b);
    LengthStays(rx.skb.data, b);
  }

  lemma TrailerByte(rx: Rx, b: u8, rx': Rx)
    requires RxOk(rx) && rx.state.W4Crc? && rx.count > 0
    requires rx' == rx.(skb := Live(rx.skb.data + [b]), count := rx.count - 1)
    ensures RxOk(rx')
  {
    ChecksumStays(rx, b, 4 + LengthField(rx.skb.data[1], rx.skb.data[2]), rx');
    LengthStays(rx.skb.data, b);
  }

  lemma PutCrcByte(rx: Rx, b: u8, rx': Rx)
    requires RxOk(rx) && rx.state.W4Crc? && rx.count > 0 && rx' == PutByte(rx, b)
    ensures RxOk(rx')
  {
    TrailerByte(rx, b, rx.(skb := Live(rx.skb.data + [b]), count := rx.count - 1));
  }

  lemma WithinBuffer(rx: Rx)
    requires RxOk(rx) && rx.skb.Live?
    ensures |rx.skb.data| + rx.count <= BUFFER_SIZE
  {
  }

  /** A stored byte keeps the accounting, and never lies beyond the buffer. */
  lemma PutByteOk(rx: Rx, b: u8)
    requires RxOk(rx) && rx.skb.Live? && rx.count > 0
    ensures RxOk(PutByte(rx, b))
    ensures PutByte(rx, b).skb == Live(rx.skb.data + [b]) && |rx.skb.data + [b]| <= BUFFER_SIZE
  {
    WithinBuffer(rx);
    match rx.state
    case W4Header => PutHeaderByte(rx, b);
    case W4Data => PutDataByte(rx, b, PutByte(rx, b));
    case W4Crc => PutCrcByte(rx, b, PutByte(rx, b));
  }

  lemma PutByteKeepsCounts(rx: Rx, b: u8, rx': Rx)
    requires RxOk(rx) && rx.skb.Live? && rx.count > 0
    requires rx' == PutByte(rx, b)
    ensures RxOk(rx'.(esc := false)) && RxOk(rx')
    ensures rx'.skb.Live? && rx'.allocs == rx.allocs && rx'.frees == rx.frees
  {
    PutByteOk(rx, b);
  }

  lemma UnslipOk(rx: Rx, b: u8)
    requires RxOk(rx) && rx.skb.Live? && rx.count > 0
    ensures RxOk(Unslip(rx, b))
    ensures Unslip(rx, b).allocs == rx.allocs
    ensures Unslip(rx, b).frees == rx.frees + if Unslip(rx, b).skb.Live? then 0 else 1
  {
    if !rx.esc {
      if b != ESCAPE { PutByteKeepsCounts(rx, b, PutByte(rx, b)); }
    } else {
      match Unescaped(b)
      case Some(c) => PutByteKeepsCounts(rx, c, PutByte(rx, c));
      case None =>
    }
  }

  lemma CullOk(a: Arq)
    requires ArqOk(a)
    ensures ArqOk(Cull(a))
  {
    var n := Covered(a.rxack, a.txseq, |a.unack|);
    assert a.unack == a.unack[..n] + a.unack[n..];
  }

  lemma CompleteOk(h: H5)
    requires Accounted(h) && ArqOk(h.arq)
    requires h.rx.skb.Live? && |h.rx.skb.data| >= 4 && h.rx.count == 0
    ensures Ok(Complete(h))
  {
    var d := h.rx.skb.data;
    var a' := if ReliableBit(d[0]) then h.arq.(rxseq := (h.arq.rxseq + 1) % 8, ackReq := true) else h.arq;
    CullOk(a'.(rxack := AckField(d[0])));
  }

  lemma HeaderDoneOk(h: H5)
    requires Ok(h) && FieldDone(h.rx) && h.rx.state.W4Header?
    ensures Ok(Advance(h))
    ensures Rank(Advance(h).rx) < Rank(h.rx)
  {
  }

  lemma DataDoneOk(h: H5)
    requires Ok(h) && FieldDone(h.rx) && h.rx.state.W4Data?
    ensures Ok(Advance(h))
    ensures Rank(Advance(h).rx) < Rank(h.rx)
  {
    if CrcBit(h.rx.skb.data[0]) { TrailerAwaited(h.rx, h.rx.(state := W4Crc, count := 2)); } else { CompleteOk(h); }
  }

  lemma TrailerAwaited(rx: Rx, rx': Rx)
    requires RxOk(rx) && FieldDone(rx) && rx.state.W4Data? && CrcBit(rx.skb.data[0])
    requires rx' == rx.(state := W4Crc, count := 2)
    ensures RxOk(rx')
  {
  }

  lemma CrcDoneOk(h: H5)
    requires Ok(h) && FieldDone(h.rx) && h.rx.state.W4Crc?
    ensures Ok(Advance(h))
    ensures Rank(Advance(h).rx) < Rank(h.rx)
  {
    var d := h.rx.skb.data;
    if [TrailerHigh(h.rx.crc), TrailerLow(h.rx.crc)] == d[|d| - 2..] {
      TrimmedOk(h, h.(rx := h.rx.(skb := Live(d[..|d| - 2]))));
    }
  }

  lemma TrimmedOk(h: H5, t: H5)
    requires Accounted(h) && ArqOk(h.arq) && h.rx.skb.Live? && |h.rx.skb.data| >= 6 && h.rx.count == 0
    requires t == h.(rx := h.rx.(skb := Live(h.rx.skb.data[..|h.rx.skb.data| - 2])))
    ensures Ok(Complete(t)) && Rank(Complete(t).rx) == 0
  {
    CompleteOk(t);
  }

  lemma AdvanceOk(h: H5)
    requires Ok(h) && FieldDone(h.rx)
    ensures Ok(Advance(h))
    ensures Rank(Advance(h).rx) < Rank(h.rx)
  {
    match h.rx.state
    case W4Header => HeaderDoneOk(h);
    case W4Data => DataDoneOk(h);
    case W4Crc => CrcDoneOk(h);
  }

  /** A turn of the receive loop keeps the endpoint consistent, and makes progress: it consumes the
      byte or lowers the rank. */
  lemma TurnOk(h: H5, b: u8)
    requires Ok(h)
    ensures Ok(Turn(h, b).0)
    ensures Turn(h, b).1 || Rank(Turn(h, b).0.rx) < Rank(h.rx)
  {
    if h.rx.count > 0 {
      if b != DELIMITER { UnslipOk(h.rx, b); }
    } else if FieldDone(h.rx) {
      AdvanceOk(h);
    }
  }

  /** One received byte. */
  function Feed(h: H5, b: u8): (h': H5)
    requires Ok(h)
    ensures Ok(h')
    decreases Rank(h.rx)
  {
    TurnOk(h, b);
    var (h', consumed) := Turn(h, b);
    if consumed then h' else Feed(h', b)
  }

  /** A chunk of received bytes. */
  function FeedAll(h: H5, s: seq<u8>): (h': H5)
    requires Ok(h)
    ensures Ok(h')
    decreases |s|
  {
    if s == [] then h else FeedAll(Feed(h, s[0]), s[1..])
  }

  /** How a byte stream is cut into chunks does not matter. */
  lemma {:induction false} FeedAppend(h: H5, s: seq<u8>, t: seq<u8>)
    requires Ok(h)
    ensures FeedAll(h, s + t) == FeedAll(FeedAll(h, s), t)
    decreases |s|
  {
    if s == [] {
      assert s + t == t;
    } else {
      assert (s + t)[1..] == s[1..] + t;
      FeedAppend(Feed(h, s[0]), s[1..], t);
    }
  }

  /** Chunk after chunk, as the serial line hands them over. */
  function FeedChunks(h: H5, chunks: seq<seq<u8>>): (h': H5)
    requires Ok(h)
    ensures Ok(h')
    decreases |chunks|
  {
    if chunks == [] then h else FeedChunks(FeedAll(h, chunks[0]), chunks[1..])
  }

  lemma {:induction false} ChunksDoNotMatter(h: H5, chunks: seq<seq<u8>>)
    requires Ok(h)
    ensures FeedChunks(h, chunks) == FeedAll(h, Flatten(chunks))
    decreases |chunks|
  {
    if chunks != [] {
      FeedAppend(h, chunks[0], Flatten(chunks[1..]));
      ChunksDoNotMatter(FeedAll(h, chunks[0]), chunks[1..]);
    }
  }
}

/** Packets of the H5 (three-wire UART) transport and their form on the wire: a four-byte
    checksummed header, the payload, an optional CRC, all SLIP-escaped between two delimiters.

    The driver's shifts and masks on single bytes are written as the equal divisions and
    remainders. */
module H5Frame {
  import opened Bytes
  import opened H5Crc

  /** Packet types as the driver numbers them; `Unknown` is every other number. */
  datatype Kind = Ack | Command | Acl | Sco | Event | Vendor | Link | Unknown

  datatype Packet = Packet(kind: Kind, data: seq<u8>)

  const MAX_PAYLOAD: nat := 0xFFF
  const WINDOW: nat := 4

  const DELIMITER: u8 := 0xc0
  const ESCAPE: u8 := 0xdb

  predicate IsReliable(k: Kind) { k.Acl? || k.Command? || k.Event? }

  function Channel(k: Kind): (c: u8)
    requires !k.Unknown?
    ensures c < 16
  {
    match k
    case Ack => 0
    case Command => 1
    case Acl => 2
    case Sco => 3
    case Event => 4
    case Vendor => 14
    case Link => 15
  }

  // ---- Header ----

  function Flags(reliable: bool, crc: bool, ack: nat, number: nat): u8
    requires ack < 8 && number < 8
  {
    ack * 8 + (if reliable then 0x80 + number else 0) + (if crc then 0x40 else 0)
  }

  function Complement(d0: u8, d1: u8, d2: u8): u8 { 0xff - (d0 + d1 + d2) % 0x100 }

  function Header(k: Kind, crc: bool, ack: nat, number: nat, len: nat): (h: seq<u8>)
    requires !k.Unknown? && ack < 8 && number < 8 && len <= MAX_PAYLOAD
    ensures |h| == 4
  {
    var d0 := Flags(IsReliable(k), crc, ack, number);
    var d1 := (len % 16) * 16 + Channel(k);
    var d2 := len / 16;
    [d0, d1, d2, Complement(d0, d1, d2)]
  }

  predicate ReliableBit(d0: u8) { d0 / 0x80 == 1 }

  predicate CrcBit(d0: u8) { d0 / 0x40 % 2 == 1 }

  function AckField(d0: u8): (n: nat)
    ensures n < 8
  {
    d0 / 8 % 8
  }

  function NumberField(d0: u8): (n: nat)
    ensures n < 8
  {
    d0 % 8
  }

  function ChannelField(d1: u8): nat { d1 % 16 }

  function LengthField(d1: u8, d2: u8): (n: nat)
    ensures n <= MAX_PAYLOAD
  {
    d1 / 16 + d2 * 16
  }

  predicate HeaderOk(d: seq<u8>)
    requires |d| >= 4
  {
    Complement(d[0], d[1], d[2]) == d[3]
  }

  lemma FlagFields(reliable: bool, crc: bool, ack: nat, number: nat, d0: u8)
    requires ack < 8 && number < 8 && d0 == Flags(reliable, crc, ack, number)
    ensures ReliableBit(d0) == reliable && CrcBit(d0) == crc && AckField(d0) == ack
    ensures reliable ==> NumberField(d0) == number
  {
    assert d0 / 8 == ack + (if reliable then 16 else 0) + (if crc then 8 else 0);
  }

  lemma LengthFields(len: nat, channel: nat, d1: u8, d2: u8)
    requires len <= MAX_PAYLOAD && channel < 16 && d1 == (len % 16) * 16 + channel && d2 == len / 16
    ensures ChannelField(d1) == channel && LengthField(d1, d2) == len
  {
  }

  /** Every field of a header reads back as it was written. */
  lemma HeaderFields(k: Kind, crc: bool, ack: nat, number: nat, len: nat)
    requires !k.Unknown? && ack < 8 && number < 8 && len <= MAX_PAYLOAD
    ensures var h := Header(k, crc, ack, number, len);
      && HeaderOk(h)
      && ReliableBit(h[0]) == IsReliable(k)
      && CrcBit(h[0]) == crc
      && AckField(h[0]) == ack
      && (IsReliable(k) ==> NumberField(h[0]) == number)
      && ChannelField(h[1]) == Channel(k)
      && LengthField(h[1], h[2]) == len
  {
    var h := Header(k, crc, ack, number, len);
    FlagFields(IsReliable(k), crc, ack, number, h[0]);
    LengthFields(len, Channel(k), h[1], h[2]);
  }

  // ---- Body and frame ----

  function Trailer(s: seq<u8>): seq<u8> {
    [TrailerHigh(Crc(CRC_INIT, s)), TrailerLow(Crc(CRC_INIT, s))]
  }

  /** What a frame carries, before escaping. */
  function Body(p: Packet, crc: bool, ack: nat, number: nat): seq<u8>
    requires !p.kind.Unknown? && ack < 8 && number < 8 && |p.data| <= MAX_PAYLOAD
  {
    var message := Header(p.kind, crc, ack, number, |p.data|) + p.data;
    if crc then message + Trailer(message) else message
  }

  function SlipByte(c: u8): (s: seq<u8>)
    ensures DELIMITER !in s
  {
    if c == 0xc0 then [ESCAPE, 0xdc]
    else if c == 0xdb then [ESCAPE, 0xdd]
    else if c == 0x11 then [ESCAPE, 0xde]
    else if c == 0x13 then [ESCAPE, 0xdf]
    else [c]
  }

  function Slip(s: seq<u8>): (t: seq<u8>)
    ensures DELIMITER !in t
  {
    if s == [] then [] else SlipByte(s[0]) + Slip(s[1..])
  }

  lemma {:induction false} SlipAppend(s: seq<u8>, t: seq<u8>)
    ensures Slip(s + t) == Slip(s) + Slip(t)
  {
    if s == [] {
      assert s + t == t;
    } else {
      assert (s + t)[1..] == s[1..] + t;
      SlipAppend(s[1..], t);
    }
  }

  lemma SlipSnoc(s: seq<u8>, b: u8)
    ensures Slip(s + [b]) == Slip(s) + SlipByte(b)
  {
    SlipAppend(s, [b]);
    assert [b][1..] == [];
    assert Slip([b]) == SlipByte(b) + Slip([]);
  }

  function Frame(p: Packet, crc: bool, ack: nat, number: nat): seq<u8>
    requires !p.kind.Unknown? && ack < 8 && number < 8 && |p.data| <= MAX_PAYLOAD
  {
    [DELIMITER] + Slip(Body(p, crc, ack, number)) + [DELIMITER]
  }

  lemma BodyFields(p: Packet, crc: bool, ack: nat, number: nat, header: seq<u8>, trailer: seq<u8>)
    requires !p.kind.Unknown? && ack < 8 && number < 8 && |p.data| <= MAX_PAYLOAD
    requires header == Header(p.kind, crc, ack, number, |p.data|)
    requires trailer == if crc then Trailer(header + p.data) else []
    ensures Body(p, crc, ack, number) == header + p.data + trailer
  {
  }

  lemma Enclose(d: seq<u8>, h: seq<u8>, p: seq<u8>, t: seq<u8>)
    ensures d + h + p + t + d == d + (h + p + t) + d
    ensures d + (h + p + t) + d == d + (h + (p + (t + d)))
  {
  }

  /** The escaped fields of a frame, one after the other. */
  lemma SlipFields(header: seq<u8>, payload: seq<u8>, trailer: seq<u8>)
    ensures Slip(header + payload + trailer) == Slip(header) + Slip(payload) + Slip(trailer)
  {
    SlipAppend(header + payload, trailer);
    SlipAppend(header, payload);
  }

  /** A frame is its escaped fields between delimiters; `c` is the checksum of the first two. */
  lemma FrameFields(p: Packet, crc: bool, ack: nat, number: nat, header: seq<u8>, c: Reg, trailer: seq<u8>,
                    skb: seq<u8>)
    requires !p.kind.Unknown? && ack < 8 && number < 8 && |p.data| <= MAX_PAYLOAD
    requires header == Header(p.kind, crc, ack, number, |p.data|)
    requires crc ==> c == Crc(Crc(CRC_INIT, header), p.data)
    requires trailer == if crc then [TrailerHigh(c), TrailerLow(c)] else []
    requires skb == [DELIMITER] + Slip(header) + Slip(p.data) + Slip(trailer) + [DELIMITER]
    ensures skb == Frame(p, crc, ack, number)
  {
    CrcAppend(CRC_INIT, header, p.data);
    BodyFields(p, crc, ack, number, header, trailer);
    SlipFields(header, p.data, trailer);
    Enclose([DELIMITER], Slip(header), Slip(p.data), Slip(trailer));
  }

  lemma {:induction false} SlipLength(s: seq<u8>)
    ensures |s| <= |Slip(s)| <= 2 * |s|
  {
    if s != [] {
      SlipLength(s[1..]);
    }
  }

  /** A frame fits the buffer the driver asks for, even if every byte has to be escaped. */
  lemma FrameFits(p: Packet, crc: bool, ack: nat, number: nat)
    requires !p.kind.Unknown? && ack < 8 && number < 8 && |p.data| <= MAX_PAYLOAD
    ensures |Frame(p, crc, ack, number)| <= (|p.data| + 6) * 2 + 2
  {
    SlipLength(Body(p, crc, ack, number));
  }

  // ---- The bytes themselves ----

  /** Where the fields of a header lie, and the number of each channel. */
  lemma HeaderLayout(k: Kind, crc: bool, ack: nat, number: nat, len: nat, h: seq<u8>)
    requires !k.Unknown? && ack < 8 && number < 8 && len <= 0xFFF && h == Header(k, crc, ack, number, len)
    ensures var reliable := k.Acl? || k.Command? || k.Event?;
      h[0] == (if reliable then 0x80 + number else 0) + (if crc then 0x40 else 0) + 8 * ack
    ensures h[1] as int + 0x100 * (h[2] as int) == 16 * len + (
      if k.Ack? then 0 else if k.Command? then 1 else if k.Acl? then 2 else if k.Sco? then 3
      else if k.Event? then 4 else if k.Vendor? then 14 else 15)
    ensures (h[0] as int + h[1] as int + h[2] as int + h[3] as int) % 0x100 == 0xff
  {
    SumAndComplement(h[0], h[1], h[2], h[3]);
    assert len == 16 * (len / 16) + len % 16;
  }

  lemma SumAndComplement(d0: u8, d1: u8, d2: u8, d3: u8)
    requires d3 == Complement(d0, d1, d2)
    ensures (d0 as int + d1 as int + d2 as int + d3 as int) % 0x100 == 0xff
  {
  }

  /** Neither the delimiter nor the two bytes of software flow control occur in an escaped field. */
  lemma {:induction false} NoControlBytes(s: seq<u8>)
    ensures 0xc0 !in Slip(s) && 0x11 !in Slip(s) && 0x13 !in Slip(s)
  {
    if s != [] {
      NoControlBytes(s[1..]);
    }
  }

  /** How each byte is escaped. */
  lemma StandardEscapes(b: u8)
    ensures Slip([b]) ==
      if b == 0xc0 then [0xdb, 0xdc] else if b == 0xdb then [0xdb, 0xdd]
      else if b == 0x11 then [0xdb, 0xde] else if b == 0x13 then [0xdb, 0xdf] else [b]
  {
    assert [b][1..] == [];
    assert Slip([b]) == SlipByte(b) + [];
  }

  lemma ResetHeaderCrc(s: seq<u8>)
    requires s == [0xc0, 0x31, 0x00, 0x0e]
    ensures Crc(Reg(0xffff), s) == Reg(0x0df4)
  {
    OneByte(0xffff, 0xc0, 0, 12, 0xf870, 0xc98b);
    OneByte(0xc98b, 0x31, 1, 3, 0xa992, 0x1a18);
    OneByte(0x1a18, 0x00, 0, 0, 0x85a9, 0x9cd3);
    OneByte(0x9cd3, 0x0e, 14, 0, 0xdf40, 0x0df4);
    Onwards(Reg(0xffff), [0xc0], Reg(0xc98b), [0x31], Reg(0x1a18));
    Onwards(Reg(0xffff), [0xc0] + [0x31], Reg(0x1a18), [0x00], Reg(0x9cd3));
    Onwards(Reg(0xffff), [0xc0] + [0x31] + [0x00], Reg(0x9cd3), [0x0e], Reg(0x0df4));
    assert s == [0xc0] + [0x31] + [0x00] + [0x0e];
  }

  lemma ResetDataCrc(s: seq<u8>)
    requires s == [0x03, 0x0c, 0x00]
    ensures Crc(Reg(0x0df4), s) == Reg(0x19e9)
  {
    OneByte(0x0df4, 0x03, 3, 0, 0x7358, 0x833d);
    OneByte(0x833d, 0x0c, 12, 0, 0x18b2, 0x2089);
    OneByte(0x2089, 0x00, 0, 0, 0x9681, 0x19e9);
    Onwards(Reg(0x0df4), [0x03], Reg(0x833d), [0x0c], Reg(0x2089));
    Onwards(Reg(0x0df4), [0x03] + [0x0c], Reg(0x2089), [0x00], Reg(0x19e9));
    assert s == [0x03] + [0x0c] + [0x00];
  }

  lemma ResetTrailer(s: seq<u8>)
    requires s == [0xc0, 0x31, 0x00, 0x0e, 0x03, 0x0c, 0x00]
    ensures Trailer(s) == [0x97, 0x98]
  {
    var a, b := s[..4], s[4..];
    ResetHeaderCrc(a);
    ResetDataCrc(b);
    Onwards(Reg(0xffff), a, Reg(0x0df4), b, Reg(0x19e9));
    assert s == a + b;
    assert BitReverse(0x19e9) == 0x9798;
  }

  lemma SlipFour(s: seq<u8>)
    requires s == [0xc0, 0x31, 0x00, 0x0e]
    ensures Slip(s) == [0xdb, 0xdc, 0x31, 0x00, 0x0e]
  {
    StandardEscapes(0xc0);
    SlipPlain(s[1..]);
    SlipAppend([0xc0], s[1..]);
    assert s == [0xc0] + s[1..];
  }

  lemma {:induction false} SlipPlain(s: seq<u8>)
    requires forall i :: 0 <= i < |s| ==> s[i] !in {0xc0, 0xdb, 0x11, 0x13}
    ensures Slip(s) == s
  {
    if s != [] {
      SlipPlain(s[1..]);
      assert s == [s[0]] + s[1..];
    }
  }

  lemma ResetHeader(h: seq<u8>)
    requires h == Header(Command, true, 0, 0, 3)
    ensures h == [0xc0, 0x31, 0x00, 0x0e]
  {
    assert h[0] == 0xc0 && h[1] == 0x31 && h[2] == 0x00;
  }

  lemma ResetBody(p: Packet, header: seq<u8>, rest: seq<u8>)
    requires p == Packet(Command, [0x03, 0x0c, 0x00])
    requires header == [0xc0, 0x31, 0x00, 0x0e] && rest == [0x03, 0x0c, 0x00, 0x97, 0x98]
    ensures Body(p, true, 0, 0) == header + rest
  {
    ResetHeader(Header(Command, true, 0, 0, 3));
    ResetTrailer(header + p.data);
    BodyFields(p, true, 0, 0, header, [0x97, 0x98]);
    assert rest == p.data + [0x97, 0x98];
  }

  lemma ResetSlipped(header: seq<u8>, rest: seq<u8>, escaped: seq<u8>)
    requires header == [0xc0, 0x31, 0x00, 0x0e] && rest == [0x03, 0x0c, 0x00, 0x97, 0x98]
    requires escaped == [0xdb, 0xdc, 0x31, 0x00, 0x0e]
    ensures Slip(header + rest) == escaped + rest
  {
    SlipAppend(header, rest);
    SlipFour(header);
    SlipPlain(rest);
  }

  /** The reset command, as the first packet with a checksum, on the wire. */
  lemma ResetFrame(p: Packet)
    requires p == Packet(Command, [0x03, 0x0c, 0x00])
    ensures Frame(p, true, 0, 0) ==
      [0xc0, 0xdb, 0xdc, 0x31, 0x00, 0x0e, 0x03, 0x0c, 0x00, 0x97, 0x98, 0xc0]
  {
    var header: seq<u8>, rest: seq<u8> := [0xc0, 0x31, 0x00, 0x0e], [0x03, 0x0c, 0x00, 0x97, 0x98];
    var escaped: seq<u8> := [0xdb, 0xdc, 0x31, 0x00, 0x0e];
    ResetBody(p, header, rest);
    ResetSlipped(header, rest, escaped);
    assert [0xc0] + (escaped + rest) + [0xc0] ==
      [0xc0, 0xdb, 0xdc, 0x31, 0x00, 0x0e, 0x03, 0x0c, 0x00, 0x97, 0x98, 0xc0];
  }
}

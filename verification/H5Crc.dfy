/** The message checksum of the H5 (three-wire UART) transport.

    The driver feeds each byte as two nibbles through a 16-entry table.  The reference is the
    reflected CCITT shift register of the Bluetooth Core Specification (Vol 4 Part D, section 5),
    which consumes one bit at a time, least significant bit first. */
module H5Crc {
  import opened Bytes

  /** The checksum register.  (Wrapped, so that proofs about strings of bytes treat it as a value
      and only the small lemmas below look at its bits.) */
  datatype Reg = Reg(w: bv16)

  const CRC_INIT: Reg := Reg(0xffff)

  /** A nibble as a word, and back.  (Spelt out: general conversions between integers and bit
      vectors are expensive for the verifier.) */
  function Hex(n: nat): bv16
    requires n < 16
  {
    if n == 0 then 0 else if n == 1 then 1 else if n == 2 then 2 else if n == 3 then 3
    else if n == 4 then 4 else if n == 5 then 5 else if n == 6 then 6 else if n == 7 then 7
    else if n == 8 then 8 else if n == 9 then 9 else if n == 10 then 10 else if n == 11 then 11
    else if n == 12 then 12 else if n == 13 then 13 else if n == 14 then 14 else 15
  }

  function HexValue(w: bv16): (n: nat)
    ensures n < 16
  {
    if w == 0 then 0 else if w == 1 then 1 else if w == 2 then 2 else if w == 3 then 3
    else if w == 4 then 4 else if w == 5 then 5 else if w == 6 then 6 else if w == 7 then 7
    else if w == 8 then 8 else if w == 9 then 9 else if w == 10 then 10 else if w == 11 then 11
    else if w == 12 then 12 else if w == 13 then 13 else if w == 14 then 14 else 15
  }

  lemma HexBound(n: nat)
    requires n < 16
    ensures Hex(n) < 16
  {
  }

  lemma HexInverse(n: nat)
    requires n < 16
    ensures HexValue(Hex(n)) == n
  {
  }

  lemma HexValueInjective(v: bv16, w: bv16)
    requires v < 16 && w < 16
    requires HexValue(v) == HexValue(w)
    ensures v == w
  {
  }

  // ---- The driver's table form ----

  function CrcTable(n: bv16): bv16 {
    if n == 0 then 0x0000 else if n == 1 then 0x1081 else if n == 2 then 0x2102 else if n == 3 then 0x3183
    else if n == 4 then 0x4204 else if n == 5 then 0x5285 else if n == 6 then 0x6306 else if n == 7 then 0x7387
    else if n == 8 then 0x8408 else if n == 9 then 0x9489 else if n == 10 then 0xa50a else if n == 11 then 0xb58b
    else if n == 12 then 0xc60c else if n == 13 then 0xd68d else if n == 14 then 0xe70e else 0xf78f
  }

  /** One nibble: the register moves down four places and the table supplies the feedback. */
  function NibbleWord(reg: bv16, n: bv16): bv16 {
    (reg >> 4) ^ CrcTable((reg ^ n) & 0x000f)
  }

  function Nibble(r: Reg, n: bv16): Reg { Reg(NibbleWord(r.w, n)) }

  /** One byte, low nibble first. */
  function Update(r: Reg, d: u8): Reg {
    Nibble(Nibble(r, Hex(d % 16)), Hex(d / 16))
  }

  /** A whole message. */
  function Crc(r: Reg, s: seq<u8>): Reg
    decreases |s|
  {
    if s == [] then r else Crc(Update(r, s[0]), s[1..])
  }

  lemma {:induction false} CrcAppend(r: Reg, s: seq<u8>, t: seq<u8>)
    ensures Crc(r, s + t) == Crc(Crc(r, s), t)
    decreases |s|
  {
    if s == [] {
      assert s + t == t;
    } else {
      assert (s + t)[1..] == s[1..] + t;
      CrcAppend(Update(r, s[0]), s[1..], t);
    }
  }

  // ---- The reference shift register ----

  /** The taps of the reflected polynomial 0x1021, that is 0x8408. */
  function Taps(b: bv16): bv16 { (b << 3) ^ (b << 10) ^ (b << 15) }

  lemma TapsArePolynomial()
    ensures Taps(0) == 0 && Taps(1) == 0x8408 == CrcTable(8)
  {
  }

  /** Shift right; the bit that falls out is fed back through the taps. */
  function ShiftWord(w: bv16): bv16 { (w >> 1) ^ Taps(w & 1) }

  function Shift(r: Reg): Reg { Reg(ShiftWord(r.w)) }

  /** One message bit enters the register. */
  function ClockWord(w: bv16, b: bv1): bv16 { ShiftWord(w ^ (b as bv16)) }

  function Clock(r: Reg, b: bv1): Reg { Reg(ClockWord(r.w, b)) }

  function CrcBits(r: Reg, bits: seq<bv1>): Reg
    decreases |bits|
  {
    if bits == [] then r else CrcBits(Clock(r, bits[0]), bits[1..])
  }

  function NibbleBits(n: bv16): (bits: seq<bv1>)
    ensures |bits| == 4
  {
    [(n & 1) as bv1, ((n >> 1) & 1) as bv1, ((n >> 2) & 1) as bv1, ((n >> 3) & 1) as bv1]
  }

  /** The bits of a byte in transmission order. */
  function BitsOf(d: u8): (bits: seq<bv1>)
    ensures |bits| == 8
  {
    NibbleBits(Hex(d % 16)) + NibbleBits(Hex(d / 16))
  }

  function MessageBits(s: seq<u8>): (bits: seq<bv1>)
    ensures |bits| == 8 * |s|
  {
    if s == [] then [] else BitsOf(s[0]) + MessageBits(s[1..])
  }

  // ---- The register as a sum of words ----

  function Shifts(n: nat, r: Reg): Reg
    decreases n
  {
    if n == 0 then r else Shifts(n - 1, Shift(r))
  }

  function Add(r: Reg, w: Reg): Reg { Reg(r.w ^ w.w) }

  function Cons(b: bv1, w: Reg): Reg { Reg((w.w << 1) | (b as bv16)) }

  /** Up to sixteen bits as a word, first bit in position 0. */
  function Word(bits: seq<bv1>): Reg {
    if bits == [] then Reg(0) else Cons(bits[0], Word(bits[1..]))
  }

  predicate Below(w: Reg, n: nat)
    requires n <= 15
  {
    w.w < (1 as bv16) << n
  }

  lemma ConsBelow(b: bv1, w: Reg, n: nat)
    requires n < 15
    requires Below(w, n)
    ensures Below(Cons(b, w), n + 1)
  {
  }

  lemma {:induction false} WordBelow(bits: seq<bv1>)
    requires |bits| <= 15
    ensures Below(Word(bits), |bits|)
  {
    if bits != [] {
      WordBelow(bits[1..]);
      ConsBelow(bits[0], Word(bits[1..]), |bits| - 1);
    }
  }

  lemma BelowFifteen(w: Reg, n: nat)
    requires n <= 15 && Below(w, n)
    ensures w.w < 0x8000
  {
  }

  lemma ShiftInjective(a: Reg, b: Reg)
    requires Shift(a) == Shift(b)
    ensures a == b
  {
  }

  lemma ClockInjective(a: Reg, b: Reg, c: bv1)
    requires Clock(a, c) == Clock(b, c)
    ensures a == b
  {
  }

  lemma ConsInjective(b: bv1, c: bv1, v: Reg, w: Reg)
    requires v.w < 0x8000 && w.w < 0x8000
    requires Cons(b, v) == Cons(c, w)
    ensures b == c && v == w
  {
  }

  lemma AddInjective(r: Reg, v: Reg, w: Reg)
    requires Add(r, v) == Add(r, w)
    ensures v == w
  {
  }

  lemma AddZero(r: Reg)
    ensures Add(r, Reg(0)) == r
  {
  }

  lemma LaterBitsStayPut(u: bv16, b: bv16, w: bv16)
    requires w < 0x8000 && b <= 1
    ensures (u ^ ((w << 1) | b)) >> 1 == ((u ^ b) >> 1) ^ w
    ensures (u ^ ((w << 1) | b)) & 1 == (u ^ b) & 1
  {
  }

  lemma XorSwaps(p: bv16, w: bv16, t: bv16)
    ensures (p ^ w) ^ t == (p ^ t) ^ w
  {
  }

  /** A later bit passes through the shift untouched: adding the bits one at a time and adding them
      all at once come to the same. */
  lemma ClockAddsLater(r: Reg, b: bv1, w: Reg)
    requires w.w < 0x8000
    ensures Shift(Add(r, Cons(b, w))) == Add(Clock(r, b), w)
  {
    LaterBitsStayPut(r.w, b as bv16, w.w);
    var p := r.w ^ (b as bv16);
    XorSwaps(p >> 1, w.w, Taps(p & 1));
  }

  lemma {:induction false} ShiftsInjective(n: nat, a: Reg, b: Reg)
    requires Shifts(n, a) == Shifts(n, b)
    ensures a == b
  {
    if n != 0 {
      ShiftsInjective(n - 1, Shift(a), Shift(b));
      ShiftInjective(a, b);
    }
  }

  lemma {:induction false} WordInjective(u: seq<bv1>, v: seq<bv1>)
    requires |u| == |v| <= 16
    requires Word(u) == Word(v)
    ensures u == v
  {
    if u != [] {
      WordBelow(u[1..]);
      WordBelow(v[1..]);
      BelowFifteen(Word(u[1..]), |u| - 1);
      BelowFifteen(Word(v[1..]), |v| - 1);
      ConsInjective(u[0], v[0], Word(u[1..]), Word(v[1..]));
      WordInjective(u[1..], v[1..]);
      assert u == [u[0]] + u[1..] && v == [v[0]] + v[1..];
    }
  }

  /** Clocking up to sixteen bits in is adding their word and shifting that many times. */
  lemma {:induction false} CrcBitsOfWord(r: Reg, bits: seq<bv1>)
    requires |bits| <= 16
    ensures CrcBits(r, bits) == Shifts(|bits|, Add(r, Word(bits)))
    decreases |bits|
  {
    if bits == [] {
      AddZero(r);
    } else {
      WordBelow(bits[1..]);
      BelowFifteen(Word(bits[1..]), |bits| - 1);
      ClockAddsLater(r, bits[0], Word(bits[1..]));
      CrcBitsOfWord(Clock(r, bits[0]), bits[1..]);
    }
  }

  lemma {:induction false} CrcBitsAppend(r: Reg, s: seq<bv1>, t: seq<bv1>)
    ensures CrcBits(r, s + t) == CrcBits(CrcBits(r, s), t)
    decreases |s|
  {
    if s == [] {
      assert s + t == t;
    } else {
      assert (s + t)[1..] == s[1..] + t;
      CrcBitsAppend(Clock(r, s[0]), s[1..], t);
    }
  }

  /** For a fixed message the final register determines the initial one. */
  lemma {:induction false} CrcBitsInjective(a: Reg, b: Reg, bits: seq<bv1>)
    requires CrcBits(a, bits) == CrcBits(b, bits)
    ensures a == b
    decreases |bits|
  {
    if bits != [] {
      CrcBitsInjective(Clock(a, bits[0]), Clock(b, bits[0]), bits[1..]);
      ClockInjective(a, b, bits[0]);
    }
  }

  /** Every error burst of at most sixteen bits changes the checksum, in a message of any length. */
  lemma BurstDetected(r: Reg, head: seq<bv1>, u: seq<bv1>, v: seq<bv1>, tail: seq<bv1>)
    requires |u| == |v| <= 16
    requires u != v
    ensures CrcBits(r, head + u + tail) != CrcBits(r, head + v + tail)
  {
    CrcBitsAppend(r, head + u, tail);
    CrcBitsAppend(r, head + v, tail);
    CrcBitsAppend(r, head, u);
    CrcBitsAppend(r, head, v);
    if CrcBits(r, head + u + tail) == CrcBits(r, head + v + tail) {
      var m := CrcBits(r, head);
      CrcBitsInjective(CrcBits(m, u), CrcBits(m, v), tail);
      CrcBitsOfWord(m, u);
      CrcBitsOfWord(m, v);
      ShiftsInjective(|u|, Add(m, Word(u)), Add(m, Word(v)));
      AddInjective(m, Word(u), Word(v));
      WordInjective(u, v);
    }
  }

  // ---- The table form is the shift register ----

  /** The sixteen table entries are sums of the entries for 1, 2, 4 and 8. */
  lemma TableIsLinear(n: bv16)
    requires n < 16
    ensures CrcTable(n) == n ^ (n << 7) ^ (n << 12)
  {
  }

  lemma FourShiftsAreALookup(w: bv16, n: bv16, m: bv16, w1: bv16, w2: bv16, w3: bv16, w4: bv16)
    requires n < 16 && m == (w ^ n) & 0x000f
    requires w1 == ClockWord(w, (n & 1) as bv1) && w2 == ClockWord(w1, ((n >> 1) & 1) as bv1)
    requires w3 == ClockWord(w2, ((n >> 2) & 1) as bv1) && w4 == ClockWord(w3, ((n >> 3) & 1) as bv1)
    ensures w4 == (w >> 4) ^ (m ^ (m << 7) ^ (m << 12))
  {
  }

  lemma LookupIsLinear(w: bv16, n: bv16, m: bv16, t: bv16)
    requires m == (w ^ n) & 0x000f
    requires t == m ^ (m << 7) ^ (m << 12)
    ensures NibbleWord(w, n) == (w >> 4) ^ t
  {
    assert m < 16;
    TableIsLinear(m);
  }

  lemma NibbleIsFourShifts(w: bv16, n: bv16)
    requires n < 16
    ensures var b0, b1 := (n & 1) as bv1, ((n >> 1) & 1) as bv1;
      var b2, b3 := ((n >> 2) & 1) as bv1, ((n >> 3) & 1) as bv1;
      NibbleWord(w, n) == ClockWord(ClockWord(ClockWord(ClockWord(w, b0), b1), b2), b3)
  {
    var m := (w ^ n) & 0x000f;
    LookupIsLinear(w, n, m, m ^ (m << 7) ^ (m << 12));
    var w1 := ClockWord(w, (n & 1) as bv1);
    var w2 := ClockWord(w1, ((n >> 1) & 1) as bv1);
    var w3 := ClockWord(w2, ((n >> 2) & 1) as bv1);
    var w4 := ClockWord(w3, ((n >> 3) & 1) as bv1);
    FourShiftsAreALookup(w, n, m, w1, w2, w3, w4);
  }

  lemma NibbleIsFourClocks(r: Reg, n: bv16)
    requires n < 16
    ensures var b0, b1 := (n & 1) as bv1, ((n >> 1) & 1) as bv1;
      var b2, b3 := ((n >> 2) & 1) as bv1, ((n >> 3) & 1) as bv1;
      Nibble(r, n) == Clock(Clock(Clock(Clock(r, b0), b1), b2), b3)
  {
    var w := r.w;
    NibbleIsFourShifts(w, n);
  }

  lemma FourClocks(r: Reg, bits: seq<bv1>)
    requires |bits| == 4
    ensures CrcBits(r, bits) == Clock(Clock(Clock(Clock(r, bits[0]), bits[1]), bits[2]), bits[3])
  {
    assert bits[1..][1..] == bits[2..] && bits[2..][1..] == bits[3..] && bits[3..][1..] == [];
    var c := Clock(r, bits[0]);
    assert CrcBits(c, bits[1..]) == CrcBits(Clock(c, bits[1]), bits[2..]);
    var e := Clock(c, bits[1]);
    assert CrcBits(e, bits[2..]) == CrcBits(Clock(e, bits[2]), bits[3..]);
    assert CrcBits(Clock(e, bits[2]), bits[3..]) == CrcBits(Clock(Clock(e, bits[2]), bits[3]), []);
  }

  /** The two table lookups clock the register exactly as the eight bits of the byte do. */
  lemma UpdateIsShiftRegister(r: Reg, d: u8)
    ensures Update(r, d) == CrcBits(r, BitsOf(d))
  {
    var lo, hi := Hex(d % 16), Hex(d / 16);
    HexBound(d % 16);
    HexBound(d / 16);
    CrcBitsAppend(r, NibbleBits(lo), NibbleBits(hi));
    FourClocks(r, NibbleBits(lo));
    FourClocks(Nibble(r, lo), NibbleBits(hi));
    NibbleIsFourClocks(r, lo);
    NibbleIsFourClocks(Nibble(r, lo), hi);
  }

  /** The table-driven checksum of a message is the shift-register checksum of its bits. */
  lemma {:induction false} CrcIsShiftRegister(r: Reg, s: seq<u8>)
    ensures Crc(r, s) == CrcBits(r, MessageBits(s))
    decreases |s|
  {
    if s != [] {
      UpdateIsShiftRegister(r, s[0]);
      CrcBitsAppend(r, BitsOf(s[0]), MessageBits(s[1..]));
      CrcIsShiftRegister(Update(r, s[0]), s[1..]);
    }
  }

  // ---- Error detection at byte level ----

  lemma {:induction false} MessageBitsAppend(s: seq<u8>, t: seq<u8>)
    ensures MessageBits(s + t) == MessageBits(s) + MessageBits(t)
  {
    if s == [] {
      assert s + t == t;
    } else {
      assert (s + t)[1..] == s[1..] + t;
      MessageBitsAppend(s[1..], t);
    }
  }

  lemma BitsDetermineNibble(c: bv16, d: bv16)
    requires c < 16 && d < 16
    requires (c & 1) as bv1 == (d & 1) as bv1 && ((c >> 1) & 1) as bv1 == ((d >> 1) & 1) as bv1
    requires ((c >> 2) & 1) as bv1 == ((d >> 2) & 1) as bv1 && ((c >> 3) & 1) as bv1 == ((d >> 3) & 1) as bv1
    ensures c == d
  {
  }

  lemma NibbleOfBits(m: nat, n: nat)
    requires m < 16 && n < 16
    requires NibbleBits(Hex(m)) == NibbleBits(Hex(n))
    ensures m == n
  {
    var u, v := NibbleBits(Hex(m)), NibbleBits(Hex(n));
    assert u[0] == v[0] && u[1] == v[1] && u[2] == v[2] && u[3] == v[3];
    HexBound(m);
    HexBound(n);
    BitsDetermineNibble(Hex(m), Hex(n));
    HexInverse(m);
    HexInverse(n);
  }

  lemma BitsDetermineByte(c: u8, d: u8)
    requires BitsOf(c) == BitsOf(d)
    ensures c == d
  {
    var u, v := BitsOf(c), BitsOf(d);
    assert NibbleBits(Hex(c % 16)) == u[..4] && NibbleBits(Hex(d % 16)) == v[..4];
    assert NibbleBits(Hex(c / 16)) == u[4..] && NibbleBits(Hex(d / 16)) == v[4..];
    NibbleOfBits(c % 16, d % 16);
    NibbleOfBits(c / 16, d / 16);
  }

  lemma {:induction false} MessageBitsInjective(s: seq<u8>, t: seq<u8>)
    requires |s| == |t|
    requires MessageBits(s) == MessageBits(t)
    ensures s == t
  {
    if s != [] {
      assert MessageBits(s)[..8] == BitsOf(s[0]) && MessageBits(t)[..8] == BitsOf(t[0]);
      assert MessageBits(s)[8..] == MessageBits(s[1..]) && MessageBits(t)[8..] == MessageBits(t[1..]);
      BitsDetermineByte(s[0], t[0]);
      MessageBitsInjective(s[1..], t[1..]);
      assert s == [s[0]] + s[1..] && t == [t[0]] + t[1..];
    }
  }

  /** A change confined to one byte or to two adjacent bytes always changes the checksum the driver
      computes, in a message of any length. */
  lemma AdjacentChangeDetected(r: Reg, head: seq<u8>, u: seq<u8>, v: seq<u8>, tail: seq<u8>)
    requires |u| == |v| <= 2
    requires u != v
    ensures Crc(r, head + u + tail) != Crc(r, head + v + tail)
  {
    CrcIsShiftRegister(r, head + u + tail);
    CrcIsShiftRegister(r, head + v + tail);
    MessageBitsAppend(head + u, tail);
    MessageBitsAppend(head + v, tail);
    MessageBitsAppend(head, u);
    MessageBitsAppend(head, v);
    if MessageBits(u) == MessageBits(v) {
      MessageBitsInjective(u, v);
    }
    BurstDetected(r, MessageBits(head), MessageBits(u), MessageBits(v), MessageBits(tail));
  }

  // ---- The transmitted form ----

  /** The register with its bits in the opposite order. */
  function BitReverse(w: bv16): bv16 {
    var a := ((w & 0x5555) << 1) | ((w >> 1) & 0x5555);
    var b := ((a & 0x3333) << 2) | ((a >> 2) & 0x3333);
    var c := ((b & 0x0f0f) << 4) | ((b >> 4) & 0x0f0f);
    (c << 8) | (c >> 8)
  }

  /** The two bytes that close a checksummed message: the reversed register, high byte first. */
  function TrailerHigh(r: Reg): u8 { HighByte(BitReverse(r.w)) }

  function TrailerLow(r: Reg): u8 { LowByte(BitReverse(r.w)) }

  function HighByte(w: bv16): u8 { LowByte(w >> 8) }

  function LowByte(w: bv16): u8 { HexValue((w >> 4) & 15) * 16 + HexValue(w & 15) }

  lemma BitReverseInvolution(w: bv16)
    ensures BitReverse(BitReverse(w)) == w
  {
  }

  lemma NibblesOfByte(v: bv16, w: bv16)
    requires (v >> 4) & 15 == (w >> 4) & 15 && v & 15 == w & 15
    ensures v & 255 == w & 255
  {
  }

  lemma LowByteDetermines(v: bv16, w: bv16)
    requires LowByte(v) == LowByte(w)
    ensures v & 255 == w & 255
  {
    HexValueInjective(v & 15, w & 15);
    HexValueInjective((v >> 4) & 15, (w >> 4) & 15);
    NibblesOfByte(v, w);
  }

  lemma HalvesDetermineWord(v: bv16, w: bv16)
    requires v >> 8 == w >> 8 && v & 255 == w & 255
    ensures v == w
  {
  }

  lemma ShiftedByte(v: bv16)
    ensures (v >> 8) & 255 == v >> 8
  {
  }

  lemma HighByteDetermines(v: bv16, w: bv16)
    requires HighByte(v) == HighByte(w)
    ensures v >> 8 == w >> 8
  {
    LowByteDetermines(v >> 8, w >> 8);
    ShiftedByte(v);
    ShiftedByte(w);
  }

  lemma BytesDetermineWord(v: bv16, w: bv16)
    requires HighByte(v) == HighByte(w) && LowByte(v) == LowByte(w)
    ensures v == w
  {
    HighByteDetermines(v, w);
    LowByteDetermines(v, w);
    HalvesDetermineWord(v, w);
  }

  lemma BitReverseInjective(a: bv16, b: bv16)
    requires BitReverse(a) == BitReverse(b)
    ensures a == b
  {
    BitReverseInvolution(a);
    BitReverseInvolution(b);
  }

  /** Different registers have different trailers. */
  lemma TrailerInjective(a: Reg, b: Reg)
    requires TrailerHigh(a) == TrailerHigh(b) && TrailerLow(a) == TrailerLow(b)
    ensures a == b
  {
    BytesDetermineWord(BitReverse(a.w), BitReverse(b.w));
    BitReverseInjective(a.w, b.w);
  }

  // ---- The order of the bits sent ----

  /** The bits of a byte, most significant first. */
  function MsbFirst(d: u8): (bits: seq<bv1>)
    ensures |bits| == 8
  {
    NibbleMsbFirst(d / 16) + NibbleMsbFirst(d % 16)
  }

  function NibbleMsbFirst(n: nat): (bits: seq<bv1>)
    requires n < 16
    ensures |bits| == 4
  {
    [Digit(n / 8), Digit(n / 4 % 2), Digit(n / 2 % 2), Digit(n % 2)]
  }

  function Digit(n: nat): bv1 { if n == 1 then 1 else 0 }

  /** The bits of the register from its lowest up. */
  function RegisterBits(r: Reg): (bits: seq<bv1>)
    ensures |bits| == 16
  {
    NibbleBits(r.w & 15) + NibbleBits((r.w >> 4) & 15) + NibbleBits((r.w >> 8) & 15) + NibbleBits((r.w >> 12) & 15)
  }

  lemma HexMsbFirst(n: bv16)
    requires n < 16
    ensures NibbleMsbFirst(HexValue(n)) ==
      [((n >> 3) & 1) as bv1, ((n >> 2) & 1) as bv1, ((n >> 1) & 1) as bv1, (n & 1) as bv1]
  {
  }

  /** One nibble is the other in the opposite order. */
  predicate Opposite(x: bv16, n: bv16) {
    && (x >> 3) & 1 == n & 1 && (x >> 2) & 1 == (n >> 1) & 1
    && (x >> 1) & 1 == (n >> 2) & 1 && x & 1 == (n >> 3) & 1
  }

  lemma OppositeBits(x: bv16, n: bv16)
    requires x < 16 && Opposite(x, n)
    ensures NibbleMsbFirst(HexValue(x)) == NibbleBits(n)
  {
    HexMsbFirst(x);
  }

  lemma ReversedNibbles(w: bv16, x: bv16)
    requires x == BitReverse(w)
    ensures Opposite((x >> 12) & 15, w & 15) && Opposite((x >> 8) & 15, (w >> 4) & 15)
    ensures Opposite((x >> 4) & 15, (w >> 8) & 15) && Opposite(x & 15, (w >> 12) & 15)
  {
  }

  lemma LowByteMsbFirst(x: bv16, n: bv16, m: bv16)
    requires Opposite((x >> 4) & 15, n) && Opposite(x & 15, m)
    ensures MsbFirst(LowByte(x)) == NibbleBits(n) + NibbleBits(m)
  {
    var high, low := (x >> 4) & 15, x & 15;
    OppositeBits(high, n);
    OppositeBits(low, m);
    assert LowByte(x) / 16 == HexValue(high) && LowByte(x) % 16 == HexValue(low);
  }

  lemma ReversedHigh(w: bv16, x: bv16)
    requires x == BitReverse(w)
    ensures Opposite(((x >> 8) >> 4) & 15, w & 15) && Opposite((x >> 8) & 15, (w >> 4) & 15)
  {
    ReversedNibbles(w, x);
    assert ((x >> 8) >> 4) & 15 == (x >> 12) & 15;
  }

  lemma TrailerHighBits(w: bv16)
    ensures MsbFirst(TrailerHigh(Reg(w))) == NibbleBits(w & 15) + NibbleBits((w >> 4) & 15)
  {
    ReversedHigh(w, BitReverse(w));
    LowByteMsbFirst(BitReverse(w) >> 8, w & 15, (w >> 4) & 15);
  }

  lemma TrailerLowBits(w: bv16)
    ensures MsbFirst(TrailerLow(Reg(w))) == NibbleBits((w >> 8) & 15) + NibbleBits((w >> 12) & 15)
  {
    ReversedNibbles(w, BitReverse(w));
    LowByteMsbFirst(BitReverse(w), (w >> 8) & 15, (w >> 12) & 15);
  }

  /** The two bytes sent, each most significant bit first, are the register from its lowest bit up. */
  lemma TrailerBits(r: Reg)
    ensures MsbFirst(TrailerHigh(r)) + MsbFirst(TrailerLow(r)) == RegisterBits(r)
  {
    var w := r.w;
    TrailerHighBits(w);
    TrailerLowBits(w);
    FourNibbles(NibbleBits(w & 15), NibbleBits((w >> 4) & 15), NibbleBits((w >> 8) & 15), NibbleBits((w >> 12) & 15));
  }

  lemma FourNibbles(a: seq<bv1>, b: seq<bv1>, c: seq<bv1>, d: seq<bv1>)
    ensures (a + b) + (c + d) == a + b + c + d
  {
  }

  /** So what closes a message is the shift register after all of its bits, lowest bit first. */
  lemma TrailerIsShiftRegister(s: seq<u8>, r: Reg)
    requires r == Crc(CRC_INIT, s)
    ensures MsbFirst(TrailerHigh(r)) + MsbFirst(TrailerLow(r)) == RegisterBits(CrcBits(Reg(0xffff), MessageBits(s)))
  {
    CrcIsShiftRegister(CRC_INIT, s);
    TrailerBits(r);
  }

  /** One byte, by its two nibbles. */
  lemma OneByte(w: bv16, d: u8, lo: bv16, hi: bv16, v: bv16, x: bv16)
    requires Hex(d % 16) == lo && Hex(d / 16) == hi && NibbleWord(w, lo) == v && NibbleWord(v, hi) == x
    ensures Crc(Reg(w), [d]) == Reg(x)
  {
    assert [d][1..] == [];
  }

  lemma Onwards(r: Reg, s: seq<u8>, r': Reg, t: seq<u8>, r'': Reg)
    requires Crc(r, s) == r' && Crc(r', t) == r''
    ensures Crc(r, s + t) == r''
  {
    CrcAppend(r, s, t);
  }

  lemma FirstDigits(s: seq<u8>)
    requires s == [0x31, 0x32, 0x33]
    ensures Crc(Reg(0xffff), s) == Reg(0x634b)
  {
    OneByte(0xffff, 0x31, 1, 3, 0xe8f1, 0x2f8d);
    OneByte(0x2f8d, 0x32, 2, 3, 0xf577, 0x4d53);
    OneByte(0x4d53, 0x33, 3, 3, 0x04d5, 0x634b);
    Onwards(Reg(0xffff), [0x31], Reg(0x2f8d), [0x32], Reg(0x4d53));
    Onwards(Reg(0xffff), [0x31] + [0x32], Reg(0x4d53), [0x33], Reg(0x634b));
    assert s == [0x31] + [0x32] + [0x33];
  }

  lemma MiddleDigits(s: seq<u8>)
    requires s == [0x34, 0x35, 0x36]
    ensures Crc(Reg(0x634b), s) == Reg(0x198d)
  {
    OneByte(0x634b, 0x34, 4, 3, 0xf1bb, 0x8b13);
    OneByte(0x8b13, 0x35, 5, 3, 0x6bb7, 0x44bf);
    OneByte(0x44bf, 0x36, 6, 3, 0x90c2, 0x198d);
    Onwards(Reg(0x634b), [0x34], Reg(0x8b13), [0x35], Reg(0x44bf));
    Onwards(Reg(0x634b), [0x34] + [0x35], Reg(0x44bf), [0x36], Reg(0x198d));
    assert s == [0x34] + [0x35] + [0x36];
  }

  lemma LastDigits(s: seq<u8>)
    requires s == [0x37, 0x38, 0x39]
    ensures Crc(Reg(0x198d), s) == Reg(0x6f91)
  {
    OneByte(0x198d, 0x37, 7, 3, 0xa492, 0x1ac8);
    OneByte(0x1ac8, 0x38, 8, 3, 0x01ac, 0xf795);
    OneByte(0xf795, 0x39, 9, 3, 0xc975, 0x6f91);
    Onwards(Reg(0x198d), [0x37], Reg(0x1ac8), [0x38], Reg(0xf795));
    Onwards(Reg(0x198d), [0x37] + [0x38], Reg(0xf795), [0x39], Reg(0x6f91));
    assert s == [0x37] + [0x38] + [0x39];
  }

  /** The checksum of the digits 1 to 9 is the check value that is published for this code. */
  lemma StandardCheck(s: seq<u8>)
    requires s == [0x31, 0x32, 0x33, 0x34, 0x35, 0x36, 0x37, 0x38, 0x39]
    ensures Crc(CRC_INIT, s) == Reg(0x6f91)
  {
    var a, b, c := s[..3], s[3..6], s[6..];
    FirstDigits(a);
    MiddleDigits(b);
    LastDigits(c);
    Onwards(Reg(0xffff), a, Reg(0x634b), b, Reg(0x198d));
    Onwards(Reg(0xffff), a + b, Reg(0x198d), c, Reg(0x6f91));
    assert s == a + b + c;
  }

  // ---- The last byte shows in the second byte of the trailer ----

  /** The highest nibble of the register is the last table index. */
  lemma TopNibble(w: bv16, m: bv16, x: bv16)
    requires m < 16 && x == (w >> 4) ^ (m ^ (m << 7) ^ (m << 12))
    ensures x >> 12 == m
    ensures (x >> 8) & 15 == (w >> 12) ^ (m >> 1)
  {
  }

  lemma SameIndexSameNibble(w: bv16, n: bv16, k: bv16)
    requires n < 16 && k < 16 && (w ^ n) & 15 == (w ^ k) & 15
    ensures n == k
  {
  }

  lemma HighNibbles(x: bv16, y: bv16)
    requires x >> 8 == y >> 8
    ensures x >> 12 == y >> 12 && (x >> 8) & 15 == (y >> 8) & 15
  {
    assert x >> 12 == (x >> 8) >> 4 && y >> 12 == (y >> 8) >> 4;
  }

  lemma XorCancels(a: bv16, b: bv16, c: bv16)
    requires a ^ c == b ^ c
    ensures a == b
  {
  }

  lemma NibbleTop(w: bv16, n: bv16, x: bv16, a: bv16)
    requires n < 16 && x == NibbleWord(w, n) && a == (w ^ n) & 15
    ensures x >> 12 == a && (x >> 8) & 15 == (w >> 12) ^ (a >> 1)
  {
    LookupIsLinear(w, n, a, a ^ (a << 7) ^ (a << 12));
    assert a < 16;
    TopNibble(w, a, x);
  }

  /** The second of two nibbles shows in the highest place, and the first behind it. */
  lemma SecondShows(u: bv16, v: bv16, m: bv16, j: bv16, x: bv16, y: bv16)
    requires m < 16 && j < 16 && x == NibbleWord(u, m) && y == NibbleWord(v, j) && x >> 8 == y >> 8
    ensures (u ^ m) & 15 == (v ^ j) & 15 && u >> 12 == v >> 12
  {
    var c, d := (u ^ m) & 15, (v ^ j) & 15;
    NibbleTop(u, m, x, c);
    NibbleTop(v, j, y, d);
    HighNibbles(x, y);
    XorCancels(u >> 12, v >> 12, c >> 1);
  }

  lemma FirstShows(w: bv16, n: bv16, k: bv16, u: bv16, v: bv16)
    requires n < 16 && k < 16 && u == NibbleWord(w, n) && v == NibbleWord(w, k) && u >> 12 == v >> 12
    ensures n == k
  {
    NibbleTop(w, n, u, (w ^ n) & 15);
    NibbleTop(w, k, v, (w ^ k) & 15);
    SameIndexSameNibble(w, n, k);
  }

  /** Two nibbles fed to the same register leave different high bytes, unless they are the same. */
  lemma NibblesShow(w: bv16, n: bv16, k: bv16, m: bv16, j: bv16, u: bv16, v: bv16, x: bv16, y: bv16)
    requires n < 16 && k < 16 && m < 16 && j < 16
    requires u == NibbleWord(w, n) && v == NibbleWord(w, k) && x == NibbleWord(u, m) && y == NibbleWord(v, j)
    requires x >> 8 == y >> 8
    ensures n == k && m == j
  {
    SecondShows(u, v, m, j, x, y);
    FirstShows(w, n, k, u, v);
    SameIndexSameNibble(u, m, j);
  }

  lemma ReversedHalves(v: bv16, w: bv16)
    requires BitReverse(v) & 255 == BitReverse(w) & 255
    ensures v >> 8 == w >> 8
  {
    BitReverseInvolution(v);
    BitReverseInvolution(w);
  }

  lemma TrailerLowDetermines(a: Reg, b: Reg)
    requires TrailerLow(a) == TrailerLow(b)
    ensures a.w >> 8 == b.w >> 8
  {
    LowByteDetermines(BitReverse(a.w), BitReverse(b.w));
    ReversedHalves(a.w, b.w);
  }

  lemma NibblesOfUpdate(r: Reg, c: u8, n: bv16, m: bv16, u: bv16, x: bv16)
    requires n == Hex(c % 16) && m == Hex(c / 16) && u == NibbleWord(r.w, n) && x == NibbleWord(u, m)
    ensures Update(r, c).w == x && n < 16 && m < 16
    ensures c == HexValue(n) + 16 * HexValue(m)
  {
    HexBound(c % 16);
    HexBound(c / 16);
    HexInverse(c % 16);
    HexInverse(c / 16);
  }

  /** After the same message, different last bytes have trailers that differ in their second byte. */
  lemma LastByteShows(r: Reg, c: u8, d: u8)
    requires TrailerLow(Update(r, c)) == TrailerLow(Update(r, d))
    ensures c == d
  {
    TrailerLowDetermines(Update(r, c), Update(r, d));
    var n, m, k, j := Hex(c % 16), Hex(c / 16), Hex(d % 16), Hex(d / 16);
    var u, v := NibbleWord(r.w, n), NibbleWord(r.w, k);
    var x, y := NibbleWord(u, m), NibbleWord(v, j);
    NibblesOfUpdate(r, c, n, m, u, x);
    NibblesOfUpdate(r, d, k, j, v, y);
    NibblesShow(r.w, n, k, m, j, u, v, x, y);
  }
}

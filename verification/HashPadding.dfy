/** Software padding of the last block of a hashed message.

    The reference is the padding of FIPS 180-4, sections 5.1.1 and 5.1.2, and, for MD5, of RFC 1321,
    sections 3.1 and 3.2. */
module HashPadding {
  import opened Bytes

  datatype Method = Md5 | Sha1 | Sha224 | Sha256 | Sha384 | Sha512

  const PAD_SIZE: nat := 256

  // ---- The standards ----

  predicate Wide(m: Method) { m.Sha384? || m.Sha512? }

  function BlockSize(m: Method): (n: nat)
    ensures n == 64 || n == 128
  {
    if Wide(m) then 128 else 64
  }

  /** What is left of a length when whole blocks are taken off. */
  function Rem(m: Method, n: int): (r: nat)
    ensures r < BlockSize(m)
  {
    if Wide(m) then n % 128 else n % 64
  }

  /** The size of the length field. */
  function LengthSize(m: Method): nat { if Wide(m) then 16 else 8 }

  function BigEndian(n: nat, size: nat): (s: seq<u8>)
    ensures |s| == size
  {
    if size == 0 then [] else BigEndian(n / 0x100, size - 1) + [n % 0x100]
  }

  function LittleEndian(n: nat, size: nat): (s: seq<u8>)
    ensures |s| == size
  {
    if size == 0 then [] else [n % 0x100] + LittleEndian(n / 0x100, size - 1)
  }

  function Zeros(n: nat): (s: seq<u8>)
    ensures |s| == n
  {
    seq(n, _ => 0)
  }

  /** The smallest number of zero bytes that brings message, marker and length to whole blocks. */
  function ZeroCount(m: Method, len: nat): nat {
    Rem(m, -(len + 1 + LengthSize(m)))
  }

  function LengthField(m: Method, len: nat): seq<u8> {
    if m.Md5? then LittleEndian(8 * len, LengthSize(m)) else BigEndian(8 * len, LengthSize(m))
  }

  /** What the standard appends to a message of `len` bytes. */
  function Suffix(m: Method, len: nat): seq<u8> {
    [0x80] + Zeros(ZeroCount(m, len)) + LengthField(m, len)
  }

  function Padded(m: Method, message: seq<u8>): seq<u8> { message + Suffix(m, |message|) }

  /** Message, marker, `k` zeros and length make whole blocks. */
  predicate WholeBlocks(m: Method, len: nat, k: nat) {
    Rem(m, len + 1 + k + LengthSize(m)) == 0
  }

  lemma LeastTo64(a: int, k: int)
    requires 0 <= a && 0 <= k
    ensures (a + (-a) % 64) % 64 == 0
    ensures (a + k) % 64 == 0 ==> (-a) % 64 <= k
  {
    assert a + k == 64 * ((a + k) / 64) + (a + k) % 64;
  }

  lemma LeastTo128(a: int, k: int)
    requires 0 <= a && 0 <= k
    ensures (a + (-a) % 128) % 128 == 0
    ensures (a + k) % 128 == 0 ==> (-a) % 128 <= k
  {
    assert a + k == 128 * ((a + k) / 128) + (a + k) % 128;
  }

  /** The zeros bring the message to whole blocks, and no smaller number of them would. */
  lemma ZeroCountIsLeast(m: Method, len: nat, k: nat)
    ensures WholeBlocks(m, len, ZeroCount(m, len))
    ensures WholeBlocks(m, len, k) ==> ZeroCount(m, len) <= k
  {
    if Wide(m) {
      LeastTo128(len + 17, k);
    } else {
      LeastTo64(len + 9, k);
    }
  }

  /** The bytes beyond the last whole block. */
  function Tail(m: Method, message: seq<u8>): (s: seq<u8>)
    ensures |s| == Rem(m, |message|)
  {
    message[|message| - Rem(m, |message|)..]
  }

  /** Hashing `last` after the whole blocks of the message is hashing the padded message. */
  predicate HashesAsStandard(m: Method, message: seq<u8>, last: seq<u8>) {
    message[..|message| - Rem(m, |message|)] + last == Padded(m, message)
  }

  // ---- The driver ----

  /** A 32-bit word with its bytes swapped, as it lies in memory. */
  function Swab(w: nat): (s: seq<u8>)
    requires w < TWO32
    ensures |s| == 4
  {
    [w / 0x100_0000, w / 0x1_0000 % 0x100, w / 0x100 % 0x100, w % 0x100]
  }

  /** What the driver keeps for a transform, which is made for one method and hashes any number of
      messages one after the other. */
  class HashCtx {
    const m: Method
    const pad: array<u8>
    var tailLen: nat
    /** Bytes hashed, an unsigned 32-bit number. */
    var cnt: nat

    ghost predicate Valid()
      reads this, pad
    {
      pad.Length == PAD_SIZE && cnt < TWO32 && tailLen < BlockSize(m)
    }

    constructor (hash: Method)
      ensures Valid() && fresh(pad) && m == hash && tailLen == 0 && cnt == 0
    {
      m := hash;
      pad := new u8[PAD_SIZE](i => 0);
      tailLen, cnt := 0, 0;
    }

    /** Begins a message: the count and the buffer are cleared, the length of the tail is not. */
    method Init()
      requires Valid()
      modifies this`cnt, pad
      ensures Valid() && cnt == 0 && pad[..] == Zeros(PAD_SIZE)
    {
      cnt := 0;
      forall i | 0 <= i < pad.Length {
        pad[i] := 0;
      }
    }

    method Copy(to: nat, data: seq<u8>)
      requires to + |data| <= pad.Length
      modifies pad
      ensures pad[..to + |data|] == old(pad[..to]) + data
    {
      for i := 0 to |data|
        invariant forall k :: 0 <= k < pad.Length ==>
          pad[k] == if to <= k < to + i then data[k - to] else old(pad[k])
      {
        pad[to + i] := data[i];
      }
    }

    /** Keeps the bytes of `message` beyond its last whole block.  `memory` says whether the scratch
        buffer could be allocated. */
    method SaveTail(message: seq<u8>, memory: bool)
      requires Valid()
      modifies this`tailLen, pad
      ensures Valid() && tailLen == Rem(m, |message|)
      ensures pad[..tailLen] == if memory then Tail(m, message) else old(pad[..Rem(m, |message|)])
    {
      tailLen := Rem(m, |message|);
      if tailLen == 0 || !memory {
        return;
      }
      Copy(0, message[|message| - tailLen..]);
    }

    /** Hashes the whole blocks of a message, whose length is a 32-bit number, and keeps the rest.  A
        message of no bytes changes nothing, not even the length of the tail. */
    method Update(message: seq<u8>, memory: bool)
      requires Valid() && |message| < TWO32
      modifies this`tailLen, this`cnt, pad
      ensures Valid() && cnt == (old(cnt) + |message|) % TWO32
      ensures tailLen == if message == [] then old(tailLen) else Rem(m, |message|)
      ensures pad[..tailLen] ==
        if message != [] && memory then Tail(m, message)
        else old(pad[..if message == [] then tailLen else Rem(m, |message|)])
    {
      if message == [] {
        return;
      }
      SaveTail(message, memory);
      cnt := (cnt + |message|) % TWO32;
    }

    /** The marker, and zeros up to the end of the last block; `p` is where the length goes. */
    method MarkAndClear(blkSize: nat) returns (p: nat)
      requires Valid() && (blkSize == 64 || blkSize == 128) && tailLen < blkSize
      modifies pad
      ensures p == PadEnd(blkSize, tailLen) - 8
      ensures pad[..p] == old(pad[..tailLen]) + [0x80] + Zeros(p - (tailLen + 1))
    {
      var threshold := if blkSize == 128 then 112 else 56;
      var n := tailLen;
      Copy(n, [0x80]);
      n := n + 1;
      ghost var marked := pad[..n];
      var end := if n > threshold then 2 * blkSize else blkSize;
      Copy(n, Zeros(end - n));
      p := end - 8;
      PrefixOfZeros(marked, end - n, p - n);
      assert pad[..p] == pad[..end][..p];
    }

    /** The two words of the bit count. */
    method PutLength(p: nat)
      requires Valid() && p + 8 <= PAD_SIZE
      modifies pad
      ensures pad[..p + 8] == old(pad[..p]) + LengthWords(m, cnt)
    {
      var lenL := cnt * 8 % TWO32;
      var lenH := cnt / 0x2000_0000;
      if m.Md5? {
        Copy(p, Word(lenL));
        Copy(p + 4, Word(lenH));
      } else {
        Copy(p, Swab(lenH));
        Copy(p + 4, Swab(lenL));
      }
    }

    /** Appends marker, zeros and length to the saved tail; returns the number of bytes to hash. */
    method SwPadding() returns (len: nat)
      requires Valid()
      modifies pad
      ensures Valid() && len <= PAD_SIZE
      ensures pad[..len] == old(pad[..tailLen]) + DriverSuffix(m, tailLen, cnt)
    {
      ghost var tail := pad[..tailLen];
      var p := MarkAndClear(BlockSize(m));
      PutLength(p);
      len := p + 8;
      Group(tail, [0x80], Zeros(p - (tailLen + 1)), LengthWords(m, cnt));
    }

    /** What is saved in front of the suffix: the tail, or zeros when it could not be saved. */
    method InitUpdate(message: seq<u8>, memory: bool)
      requires Valid() && |message| < TWO32
      modifies this`tailLen, this`cnt, pad
      ensures Valid() && cnt == |message|
      ensures tailLen == if message == [] then old(tailLen) else Rem(m, |message|)
      ensures pad[..tailLen] == if message != [] && memory then Tail(m, message) else Zeros(tailLen)
    {
      Init();
      ZerosPrefix(pad[..], if message == [] then tailLen else Rem(m, |message|));
      Update(message, memory);
    }

    /** Hashes one message: `len` bytes of `pad` are hashed after its whole blocks.  When the scratch
        buffer cannot be allocated the tail is not saved, and zeros take its place; when there are no
        bytes, the tail of the message before is still counted. */
    method Digest(message: seq<u8>, memory: bool) returns (len: nat)
      requires Valid() && |message| < TWO32
      modifies this`tailLen, this`cnt, pad
      ensures Valid() && len <= PAD_SIZE
      ensures tailLen == if message == [] then old(tailLen) else Rem(m, |message|)
      ensures HashesAsStandard(m, message, pad[..len]) <==>
        if message == [] then old(tailLen) == 0
        else memory || Tail(m, message) == Zeros(Rem(m, |message|))
    {
      InitUpdate(message, memory);
      ghost var saved := pad[..tailLen];
      len := SwPadding();
      if message == [] {
        EmptyMessage(m, tailLen, message, pad[..len]);
      } else {
        OneMessage(m, message, saved, pad[..len]);
      }
    }
  }

  lemma ZerosPrefix(s: seq<u8>, n: nat)
    requires n <= |s| && s == Zeros(|s|)
    ensures s[..n] == Zeros(n)
  {
  }

  lemma Group(a: seq<u8>, b: seq<u8>, c: seq<u8>, d: seq<u8>)
    ensures a + b + c + d == a + (b + c + d)
  {
  }

  lemma PrefixOfZeros(s: seq<u8>, n: nat, k: nat)
    requires k <= n
    ensures (s + Zeros(n))[..|s| + k] == s + Zeros(k)
  {
  }

  function PadEnd(blkSize: nat, tail: nat): nat
    requires tail < blkSize
  {
    if tail + 1 > (if blkSize == 128 then 112 else 56) then 2 * blkSize else blkSize
  }

  function LengthWords(m: Method, cnt: nat): (s: seq<u8>)
    requires cnt < TWO32
    ensures |s| == 8
  {
    var low, high := cnt * 8 % TWO32, cnt / 0x2000_0000;
    if m.Md5? then Word(low) + Word(high) else Swab(high) + Swab(low)
  }

  /** What the driver appends to a tail of `tail` bytes when `cnt` bytes have been hashed. */
  function DriverSuffix(m: Method, tail: nat, cnt: nat): seq<u8>
    requires tail < BlockSize(m) && cnt < TWO32
  {
    [0x80] + Zeros(PadEnd(BlockSize(m), tail) - 8 - (tail + 1)) + LengthWords(m, cnt)
  }

  // ---- The driver's padding is the standard's ----

  lemma SwabDigits(w: nat, d0: u8, d1: u8, d2: u8, d3: u8)
    requires w == d0 + 0x100 * d1 + 0x1_0000 * d2 + 0x100_0000 * d3
    ensures w < TWO32 && Swab(w) == [d3, d2, d1, d0] && Word(w) == [d0, d1, d2, d3]
  {
    assert w / 0x100_0000 == d3;
    assert w / 0x1_0000 == d2 + 0x100 * d3;
    assert w / 0x100 == d1 + 0x100 * (d2 + 0x100 * d3);
  }

  lemma RemainderDigits(n: nat, q: nat, r: nat)
    requires n == TWO32 * q + r && r < TWO32
    ensures n % TWO32 == r && n / TWO32 == q
  {
  }

  /** The low 32 bits of a number as four bytes of either order, and what is left above them. */
  lemma LowWord(n: nat, size: nat)
    ensures BigEndian(n, size + 4) == BigEndian(n / TWO32, size) + Swab(n % TWO32)
    ensures LittleEndian(n, size + 4) == Word(n % TWO32) + LittleEndian(n / TWO32, size)
  {
    var q0, d0 := n / 0x100, n % 0x100;
    var q1, d1 := q0 / 0x100, q0 % 0x100;
    var q2, d2 := q1 / 0x100, q1 % 0x100;
    var q3, d3 := q2 / 0x100, q2 % 0x100;
    var w := d0 + 0x100 * d1 + 0x1_0000 * d2 + 0x100_0000 * d3;
    SwabDigits(w, d0, d1, d2, d3);
    RemainderDigits(n, q3, w);
    assert BigEndian(n, size + 4) == BigEndian(q0, size + 3) + [d0];
    assert BigEndian(q0, size + 3) == BigEndian(q1, size + 2) + [d1];
    assert BigEndian(q1, size + 2) == BigEndian(q2, size + 1) + [d2];
    assert BigEndian(q2, size + 1) == BigEndian(q3, size) + [d3];
    assert LittleEndian(n, size + 4) == [d0] + LittleEndian(q0, size + 3);
    assert LittleEndian(q0, size + 3) == [d1] + LittleEndian(q1, size + 2);
    assert LittleEndian(q1, size + 2) == [d2] + LittleEndian(q2, size + 1);
    assert LittleEndian(q2, size + 1) == [d3] + LittleEndian(q3, size);
  }

  lemma {:induction false} NothingAbove(size: nat)
    ensures BigEndian(0, size) == Zeros(size)
  {
    if size > 0 { NothingAbove(size - 1); }
  }

  lemma BitCountWords(cnt: nat)
    requires cnt < TWO32
    ensures var n := 8 * cnt;
      n % TWO32 == cnt * 8 % TWO32 && n / TWO32 == cnt / 0x2000_0000 < TWO32 && n / TWO32 / TWO32 == 0
      && n / TWO32 % TWO32 == n / TWO32
  {
  }

  lemma LittleWords(cnt: nat, size: nat)
    requires cnt < TWO32
    ensures LittleEndian(8 * cnt, size + 8) == LengthWords(Md5, cnt) + LittleEndian(0, size)
  {
    BitCountWords(cnt);
    LowWord(8 * cnt, size + 4);
    LowWord(8 * cnt / TWO32, size);
  }

  lemma BigWords(cnt: nat, size: nat, m: Method)
    requires cnt < TWO32 && !m.Md5?
    ensures BigEndian(8 * cnt, size + 8) == Zeros(size) + LengthWords(m, cnt)
  {
    BitCountWords(cnt);
    LowWord(8 * cnt, size + 4);
    LowWord(8 * cnt / TWO32, size);
    NothingAbove(size);
  }

  /** The two words of the driver hold the bit count, for every byte count below 2^32. */
  lemma LengthWordsExact(m: Method, cnt: nat)
    requires cnt < TWO32
    ensures LengthField(m, cnt) == Zeros(LengthSize(m) - 8) + LengthWords(m, cnt)
  {
    if m.Md5? {
      LittleWords(cnt, LengthSize(m) - 8);
    } else {
      BigWords(cnt, LengthSize(m) - 8, m);
    }
  }

  lemma ZerosAgree64(len: int)
    requires 0 <= len
    ensures (-(len + 9)) % 64 + 8 == PadEnd(64, len % 64) - (len % 64 + 1)
  {
    var q, t := len / 64, len % 64;
    assert len == 64 * q + t;
    if t + 1 > 56 {
      assert -(len + 9) == 64 * (-q - 2) + (119 - t);
    } else {
      assert -(len + 9) == 64 * (-q - 1) + (55 - t);
    }
  }

  lemma ZerosAgree128(len: int)
    requires 0 <= len
    ensures (-(len + 17)) % 128 + 16 == PadEnd(128, len % 128) - (len % 128 + 1)
  {
    var q, t := len / 128, len % 128;
    assert len == 128 * q + t;
    if t + 1 > 112 {
      assert -(len + 17) == 128 * (-q - 2) + (239 - t);
    } else {
      assert -(len + 17) == 128 * (-q - 1) + (111 - t);
    }
  }

  /** The driver's choice between one and two last blocks leaves room for exactly the zeros of the
      standard. */
  lemma ZerosAgree(m: Method, len: nat)
    ensures var tail := Rem(m, len);
      ZeroCount(m, len) + LengthSize(m) == PadEnd(BlockSize(m), tail) - (tail + 1)
  {
    if Wide(m) { ZerosAgree128(len); } else { ZerosAgree64(len); }
  }

  lemma DriverSuffixIsStandard(m: Method, len: nat)
    requires len < TWO32
    ensures DriverSuffix(m, Rem(m, len), len) == Suffix(m, len)
  {
    ZerosAgree(m, len);
    LengthWordsExact(m, len);
    var z, w := ZeroCount(m, len), LengthSize(m) - 8;
    assert Zeros(z) + Zeros(w) == Zeros(z + w);
    assert [0x80] + Zeros(z) + (Zeros(w) + LengthWords(m, len)) == [0x80] + (Zeros(z) + Zeros(w)) + LengthWords(m, len);
  }

  lemma TailDecides(message: seq<u8>, whole: nat, saved: seq<u8>, suffix: seq<u8>)
    requires |message| == whole + |saved|
    ensures message[..whole] + (saved + suffix) == message + suffix <==> saved == message[whole..]
  {
    assert (message[..whole] + (saved + suffix))[whole..|message|] == saved;
    assert (message + suffix)[whole..|message|] == message[whole..];
    assert message == message[..whole] + message[whole..];
    assert message[..whole] + (message[whole..] + suffix) == message[..whole] + message[whole..] + suffix;
  }

  lemma PaddedByDriver(m: Method, message: seq<u8>, suffix: seq<u8>)
    requires |message| < TWO32
    requires suffix == DriverSuffix(m, Rem(m, |message|), |message|)
    ensures Padded(m, message) == message + suffix
  {
    DriverSuffixIsStandard(m, |message|);
  }

  /** The whole blocks of the message followed by what the driver hashes last are the padded message
      of the standard exactly when the tail it saved is the tail of the message. */
  lemma OneShotPadding(m: Method, message: seq<u8>, saved: seq<u8>, suffix: seq<u8>, last: seq<u8>,
                       padded: seq<u8>)
    requires |message| < TWO32 && |saved| == Rem(m, |message|) && last == saved + suffix
    requires padded == Padded(m, message) && padded == message + suffix
    ensures HashesAsStandard(m, message, last) <==> saved == Tail(m, message)
  {
    var whole := |message| - |saved|;
    TailDecides(message, whole, saved, suffix);
    WholeBlocksAndTail(m, message, last, whole, padded);
  }

  lemma WholeBlocksAndTail(m: Method, message: seq<u8>, last: seq<u8>, whole: nat, padded: seq<u8>)
    requires whole == |message| - Rem(m, |message|) && padded == Padded(m, message)
    ensures HashesAsStandard(m, message, last) <==> message[..whole] + last == padded
    ensures Tail(m, message) == message[whole..]
  {
  }

  lemma OneMessage(m: Method, message: seq<u8>, saved: seq<u8>, last: seq<u8>)
    requires |message| < TWO32 && |saved| == Rem(m, |message|)
    requires last == saved + DriverSuffix(m, Rem(m, |message|), |message|)
    ensures HashesAsStandard(m, message, last) <==> saved == Tail(m, message)
  {
    var suffix := DriverSuffix(m, Rem(m, |message|), |message|);
    PaddedByDriver(m, message, suffix);
    OneShotPadding(m, message, saved, suffix, last, message + suffix);
  }

  lemma NothingToHash(m: Method, message: seq<u8>, last: seq<u8>, suffix: seq<u8>)
    requires message == [] && suffix == DriverSuffix(m, 0, 0)
    ensures HashesAsStandard(m, message, last) <==> last == suffix
  {
    PaddedByDriver(m, message, suffix);
    assert message[..0] + last == last && message + suffix == suffix;
  }

  lemma SuffixBegins(m: Method, tail: nat, n: nat)
    requires n < BlockSize(m)
    ensures |DriverSuffix(m, n, 0)| > 0 && DriverSuffix(m, n, 0)[0] == 0x80
    ensures tail > 0 ==> (Zeros(tail) + DriverSuffix(m, n, 0))[0] == 0
    ensures tail == 0 ==> Zeros(tail) + DriverSuffix(m, n, 0) == DriverSuffix(m, n, 0)
  {
  }

  /** With no bytes to hash, `tail` cleared bytes in front of the suffix are right exactly when there
      are none. */
  lemma EmptyMessage(m: Method, tail: nat, message: seq<u8>, last: seq<u8>)
    requires message == [] && tail < BlockSize(m) && last == Zeros(tail) + DriverSuffix(m, tail, 0)
    ensures HashesAsStandard(m, message, last) <==> tail == 0
  {
    NothingToHash(m, message, last, DriverSuffix(m, 0, 0));
    SuffixBegins(m, tail, tail);
    SuffixBegins(m, tail, 0);
  }

  /** A buffer of zeros, left when there was no memory to save the tail, makes something else of the
      message `[1]`. */
  lemma StaleTailHashed(suffix: seq<u8>)
    requires suffix == DriverSuffix(Sha256, Rem(Sha256, 1), 1)
    ensures !HashesAsStandard(Sha256, [1], [0] + suffix)
  {
    var message: seq<u8> := [1];
    OneMessage(Sha256, message, [0], [0] + suffix);
    assert Tail(Sha256, message) == [1];
  }

  /** The message of no bytes, hashed after one of one byte: what is hashed last begins with a zero
      where the marker should be. */
  lemma StaleLengthHashed(last: seq<u8>)
    requires last == [0] + DriverSuffix(Sha256, Rem(Sha256, 1), 0)
    ensures last[0] != Padded(Sha256, [])[0] && !HashesAsStandard(Sha256, [], last)
  {
    assert Zeros(1) == [0];
    EmptyMessage(Sha256, 1, [], last);
  }

  // ---- Injectivity ----

  function Power(size: nat): nat { if size == 0 then 1 else 0x100 * Power(size - 1) }

  lemma {:induction false} BigEndianInjective(a: nat, b: nat, size: nat)
    requires a < Power(size) && b < Power(size)
    requires BigEndian(a, size) == BigEndian(b, size)
    ensures a == b
  {
    if size > 0 {
      var s, t := BigEndian(a, size), BigEndian(b, size);
      assert s[..size - 1] == BigEndian(a / 0x100, size - 1) && t[..size - 1] == BigEndian(b / 0x100, size - 1);
      assert s[size - 1] == a % 0x100 && t[size - 1] == b % 0x100;
      BigEndianInjective(a / 0x100, b / 0x100, size - 1);
    }
  }

  lemma {:induction false} LittleEndianInjective(a: nat, b: nat, size: nat)
    requires a < Power(size) && b < Power(size)
    requires LittleEndian(a, size) == LittleEndian(b, size)
    ensures a == b
  {
    if size > 0 {
      var s, t := LittleEndian(a, size), LittleEndian(b, size);
      assert s[1..] == LittleEndian(a / 0x100, size - 1) && t[1..] == LittleEndian(b / 0x100, size - 1);
      assert s[0] == a % 0x100 && t[0] == b % 0x100;
      LittleEndianInjective(a / 0x100, b / 0x100, size - 1);
    }
  }

  /** The longest message the length field of every method can describe. */
  const MAX_LENGTH: nat := 0x2000_0000_0000_0000

  lemma {:induction false} PowerGrows(size: nat)
    requires size >= 8
    ensures Power(size) >= 0x1_0000_0000_0000_0000
  {
    if size == 8 {
      assert Power(4) == 0x1_0000_0000;
    } else {
      PowerGrows(size - 1);
    }
  }

  lemma LengthFieldInjective(m: Method, a: nat, b: nat)
    requires a < MAX_LENGTH && b < MAX_LENGTH
    requires LengthField(m, a) == LengthField(m, b)
    ensures a == b
  {
    PowerGrows(8);
    PowerGrows(16);
    if m.Md5? {
      LittleEndianInjective(8 * a, 8 * b, LengthSize(m));
    } else {
      BigEndianInjective(8 * a, 8 * b, LengthSize(m));
    }
  }

  /** The number that bytes stand for, the most significant or the least significant first. */
  function ValueBig(s: seq<u8>): nat {
    if s == [] then 0 else 0x100 * ValueBig(s[..|s| - 1]) + s[|s| - 1] as nat
  }

  function ValueLittle(s: seq<u8>): nat {
    if s == [] then 0 else s[0] as nat + 0x100 * ValueLittle(s[1..])
  }

  lemma {:induction false} BigEndianValue(n: nat, size: nat)
    requires n < Power(size)
    ensures ValueBig(BigEndian(n, size)) == n
  {
    if size > 0 {
      BigEndianValue(n / 0x100, size - 1);
      assert BigEndian(n, size)[..size - 1] == BigEndian(n / 0x100, size - 1);
    }
  }

  lemma {:induction false} LittleEndianValue(n: nat, size: nat)
    requires n < Power(size)
    ensures ValueLittle(LittleEndian(n, size)) == n
  {
    if size > 0 {
      LittleEndianValue(n / 0x100, size - 1);
      assert LittleEndian(n, size)[1..] == LittleEndian(n / 0x100, size - 1);
    }
  }

  lemma LengthFieldValue(m: Method, len: nat, field: seq<u8>)
    requires len < MAX_LENGTH && field == LengthField(m, len)
    ensures |field| == if m.Sha384? || m.Sha512? then 16 else 8
    ensures (if m == Md5 then ValueLittle(field) else ValueBig(field)) == 8 * len
  {
    PowerGrows(8);
    PowerGrows(16);
    if m.Md5? {
      LittleEndianValue(8 * len, LengthSize(m));
    } else {
      BigEndianValue(8 * len, LengthSize(m));
    }
  }

  /** What the standards ask of a padded message: the message, the marker, fewer zeros than a block has bytes
      and the length in bits, in 8 bytes and blocks of 64 or, for the two long hashes, in 16 bytes and blocks
      of 128. */
  lemma PaddedAsStandard(m: Method, message: seq<u8>, block: nat) returns (k: nat, field: seq<u8>)
    requires |message| < MAX_LENGTH && block == if m.Sha384? || m.Sha512? then 128 else 64
    ensures Padded(m, message) == message + ([0x80] + Zeros(k) + field) && k < block
    ensures |Padded(m, message)| % block == 0
    ensures |field| == block / 8 && (if m == Md5 then ValueLittle(field) else ValueBig(field)) == 8 * |message|
  {
    k, field := ZeroCount(m, |message|), LengthField(m, |message|);
    LengthFieldValue(m, |message|, field);
    ZeroCountIsLeast(m, |message|, 0);
  }

  lemma EndsInLength(m: Method, message: seq<u8>)
    ensures var p := Padded(m, message);
      |p| >= LengthSize(m) && p[|p| - LengthSize(m)..] == LengthField(m, |message|)
  {
  }

  /** Different messages have different padded messages. */
  lemma PaddingInjective(m: Method, a: seq<u8>, b: seq<u8>)
    requires |a| < MAX_LENGTH && |b| < MAX_LENGTH
    requires Padded(m, a) == Padded(m, b)
    ensures a == b
  {
    EndsInLength(m, a);
    EndsInLength(m, b);
    LengthFieldInjective(m, |a|, |b|);
    assert a == Padded(m, a)[..|a|] && b == Padded(m, b)[..|b|];
  }
}

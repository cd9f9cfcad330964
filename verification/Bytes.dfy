/** Bytes, and 32-bit words as they lie in memory on the little-endian CPU. */
module Bytes {
  type u8 = x: int | 0 <= x < 0x100

  const TWO32: nat := 0x1_0000_0000

  function Word(w: nat): (s: seq<u8>)
    requires w < TWO32
    ensures |s| == 4
  {
    [w % 0x100, w / 0x100 % 0x100, w / 0x1_0000 % 0x100, w / 0x100_0000]
  }

  function WordValue(s: seq<u8>): (w: nat)
    requires |s| == 4
    ensures w < TWO32
  {
    s[0] as int + 0x100 * (s[1] as int) + 0x1_0000 * (s[2] as int) + 0x100_0000 * (s[3] as int)
  }

  lemma WordRoundTrip(w: nat)
    requires w < TWO32
    ensures WordValue(Word(w)) == w
  {
    var a := w / 0x100;
    var b := a / 0x100;
    assert w / 0x1_0000 == b && w / 0x100_0000 == b / 0x100;
  }

  /** Pieces put together. */
  function Flatten(pieces: seq<seq<u8>>): seq<u8> {
    if pieces == [] then [] else pieces[0] + Flatten(pieces[1..])
  }

  lemma Associative<T>(a: seq<T>, b: seq<T>, c: seq<T>)
    ensures (a + b) + c == a + (b + c)
  {
  }
}

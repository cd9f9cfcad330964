/** Reassembly of HCI packets from USB transfers.

    USB cuts the stream of ACL, SCO and event packets anywhere.  The driver keeps one partly filled
    buffer per packet type and copies as much as it can at a time.  The reference is a machine that
    takes one byte at a time. */
module HciReassembly {
  import opened Bytes
  import opened Wrappers

  const ACL: int := 2
  const SCO: int := 3
  const EVENT: int := 4

  const NUM_REASSEMBLY: nat := 4
  const EILSEQ: int := -84
  const ENOMEM: int := -12

  predicate Known(ptype: int) { ACL <= ptype <= EVENT }

  /** Sizes of the fixed header, and of the buffer the driver asks for. */
  function HeaderSize(ptype: int): (n: nat)
    requires Known(ptype)
    ensures 2 <= n <= 4
  {
    if ptype == ACL then 4 else if ptype == EVENT then 2 else 3
  }

  function BufferSize(ptype: int): nat
    requires Known(ptype)
  {
    if ptype == ACL then 1028 else if ptype == EVENT then 260 else 255
  }

  /** The payload length a header announces. */
  function PayloadSize(ptype: int, header: seq<u8>): (n: nat)
    requires Known(ptype) && |header| >= HeaderSize(ptype)
    ensures n <= 0xffff
  {
    if ptype == ACL then header[2] as int + 0x100 * (header[3] as int)
    else if ptype == EVENT then header[1]
    else header[2]
  }

  function PacketSize(ptype: int, header: seq<u8>): nat
    requires Known(ptype) && |header| >= HeaderSize(ptype)
  {
    HeaderSize(ptype) + PayloadSize(ptype, header)
  }

  /** A packet whose length is the one its header announces. */
  predicate WellFormed(ptype: int, p: seq<u8>)
    requires Known(ptype)
  {
    |p| >= HeaderSize(ptype) && |p| == PacketSize(ptype, p)
  }

  // ---- The reference: one byte at a time ----

  /** The start of a packet that is not complete yet, and whose buffer (of `room` bytes) is large
      enough as far as one can tell. */
  predicate Partial(ptype: int, room: nat, p: seq<u8>)
    requires Known(ptype)
  {
    |p| >= HeaderSize(ptype) ==> |p| < PacketSize(ptype, p) <= room
  }

  datatype Step = More(partial: seq<u8>) | Done(packet: seq<u8>) | TooLong

  function Push(ptype: int, room: nat, p: seq<u8>, b: u8): Step
    requires Known(ptype)
  {
    var q := p + [b];
    if |q| < HeaderSize(ptype) then More(q)
    else if |q| == HeaderSize(ptype) && PacketSize(ptype, q) > room then TooLong
    else if |q| >= PacketSize(ptype, q) then Done(q)
    else More(q)
  }

  /** What a fragment yields: the packets completed, the part of a packet left over, and whether the
      fragment was read to its end.  A packet too long for its buffer is dropped together with the
      rest of the fragment. */
  datatype Yield = Yield(packets: seq<seq<u8>>, rest: seq<u8>, ok: bool)

  function Cons(p: seq<u8>, y: Yield): Yield { y.(packets := [p] + y.packets) }

  function Read(ptype: int, room: nat, p: seq<u8>, s: seq<u8>): Yield
    requires Known(ptype)
    decreases |s|
  {
    if s == [] then Yield([], p, true)
    else
      match Push(ptype, room, p, s[0])
      case More(q) => Read(ptype, room, q, s[1..])
      case Done(q) => Cons(q, Read(ptype, room, [], s[1..]))
      case TooLong => Yield([], [], false)
  }

  /** How many more bytes the packet needs before its next boundary. */
  function Missing(ptype: int, p: seq<u8>): int
    requires Known(ptype)
  {
    if |p| < HeaderSize(ptype) then HeaderSize(ptype) - |p| else PacketSize(ptype, p) - |p|
  }

  lemma PushedHeader(ptype: int, p: seq<u8>, b: u8)
    requires Known(ptype) && |p| >= HeaderSize(ptype)
    ensures PacketSize(ptype, p + [b]) == PacketSize(ptype, p)
  {
  }

  lemma PushedWithin(ptype: int, room: nat, p: seq<u8>, b: u8)
    requires Known(ptype) && Partial(ptype, room, p) && Missing(ptype, p) > 1
    ensures Push(ptype, room, p, b) == More(p + [b]) && Partial(ptype, room, p + [b])
    ensures Missing(ptype, p + [b]) == Missing(ptype, p) - 1
    ensures |p| >= HeaderSize(ptype) ==> PacketSize(ptype, p + [b]) == PacketSize(ptype, p)
  {
    if |p| >= HeaderSize(ptype) { PushedHeader(ptype, p, b); }
  }

  lemma ShiftOne<T>(p: seq<T>, s: seq<T>, k: nat)
    requires 0 < k <= |s|
    ensures (p + [s[0]]) + s[1..][..k - 1] == p + s[..k] && s[1..][k - 1..] == s[k..]
  {
  }

  /** Bytes short of the next boundary are simply kept. */
  lemma {:induction false} ReadWithin(ptype: int, room: nat, p: seq<u8>, s: seq<u8>, k: nat)
    requires Known(ptype) && Partial(ptype, room, p)
    requires k <= |s| && k < Missing(ptype, p)
    ensures Partial(ptype, room, p + s[..k])
    ensures |p| >= HeaderSize(ptype) ==> PacketSize(ptype, p + s[..k]) == PacketSize(ptype, p)
    ensures Missing(ptype, p + s[..k]) == Missing(ptype, p) - k
    ensures Read(ptype, room, p, s) == Read(ptype, room, p + s[..k], s[k..])
    decreases k
  {
    if k == 0 {
      assert p + s[..k] == p;
    } else {
      var q := p + [s[0]];
      PushedWithin(ptype, room, p, s[0]);
      ReadWithin(ptype, room, q, s[1..], k - 1);
      ShiftOne(p, s, k);
    }
  }

  /** Bytes up to the next boundary. */
  lemma ReadToBoundary(ptype: int, room: nat, p: seq<u8>, s: seq<u8>, k: nat)
    requires Known(ptype) && Partial(ptype, room, p)
    requires k <= |s| && k == Missing(ptype, p)
    ensures k > 0
    ensures |p| >= HeaderSize(ptype) ==> PacketSize(ptype, p + s[..k]) == PacketSize(ptype, p)
    ensures var q := p + s[..k];
      && |q| >= HeaderSize(ptype)
      && Read(ptype, room, p, s) ==
         if |p| < HeaderSize(ptype) && PacketSize(ptype, q) > room then Yield([], [], false)
         else if |q| == PacketSize(ptype, q) then Cons(q, Read(ptype, room, [], s[k..]))
         else Read(ptype, room, q, s[k..])
  {
    ReadWithin(ptype, room, p, s, k - 1);
    var p', s' := p + s[..k - 1], s[k - 1..];
    assert p' + [s'[0]] == p + s[..k];
    assert s'[1..] == s[k..];
    if |p'| >= HeaderSize(ptype) { PushedHeader(ptype, p', s'[0]); }
  }

  /** One copy of as many bytes as the packet waits for or the data holds: `q` is the new buffer and
      `m` what it then waits for. */
  lemma Copy(ptype: int, room: nat, p: seq<u8>, s: seq<u8>, len: nat, q: seq<u8>, m: int)
    requires Known(ptype) && Partial(ptype, room, p) && s != []
    requires len == if Missing(ptype, p) < |s| then Missing(ptype, p) else |s|
    requires q == p + s[..len]
    requires m == if |q| == HeaderSize(ptype) then PayloadSize(ptype, q) else Missing(ptype, p) - len
    ensures len > 0
    ensures |q| == HeaderSize(ptype) && room - |q| < m ==> Read(ptype, room, p, s) == Yield([], [], false)
    ensures !(|q| == HeaderSize(ptype) && room - |q| < m) ==>
      if m == 0 then
        Read(ptype, room, p, s) == Cons(q, Read(ptype, room, [], s[len..]))
      else
        && Partial(ptype, room, q) && m == Missing(ptype, q) > 0
        && Read(ptype, room, p, s) == Read(ptype, room, q, s[len..])
  {
    if len < Missing(ptype, p) {
      ReadWithin(ptype, room, p, s, len);
    } else {
      ReadToBoundary(ptype, room, p, s, len);
    }
  }

  // ---- The driver ----

  /** A partly filled buffer and the count of bytes it waits for. */
  datatype Slot = Slot(data: seq<u8>, missing: nat)

  datatype Frame = Frame(ptype: int, data: seq<u8>)

  function Tag(ptype: int, packets: seq<seq<u8>>): seq<Frame> {
    seq(|packets|, (i: int) requires 0 <= i < |packets| => Frame(ptype, packets[i]))
  }

  function Pending(slot: Option<Slot>): seq<u8> {
    if slot.None? then [] else slot.value.data
  }

  function Prepend(packets: seq<seq<u8>>, y: Yield): Yield { y.(packets := packets + y.packets) }

  lemma PrependCons(packets: seq<seq<u8>>, p: seq<u8>, y: Yield)
    ensures Prepend(packets, Cons(p, y)) == Prepend(packets + [p], y)
  {
    assert packets + ([p] + y.packets) == packets + [p] + y.packets;
  }

  lemma TagSnoc(ptype: int, packets: seq<seq<u8>>, p: seq<u8>)
    ensures Tag(ptype, packets + [p]) == Tag(ptype, packets) + [Frame(ptype, p)]
  {
  }

  class Hdev {
    /** How much more room the allocator gives a buffer than was asked for. */
    const slack: nat
    const reassembly: array<Option<Slot>>
    /** Packets handed to the HCI core. */
    var frames: seq<Frame>

    function Room(ptype: int): nat
      requires Known(ptype)
    {
      BufferSize(ptype) + slack
    }

    ghost predicate SlotOk(ptype: int, slot: Option<Slot>)
      requires Known(ptype)
    {
      slot.Some? ==>
        && Partial(ptype, Room(ptype), slot.value.data)
        && slot.value.missing == Missing(ptype, slot.value.data) > 0
    }

    ghost predicate Valid()
      reads reassembly
    {
      && reassembly.Length == NUM_REASSEMBLY
      && SlotOk(ACL, reassembly[ACL - 1]) && SlotOk(SCO, reassembly[SCO - 1]) && SlotOk(EVENT, reassembly[EVENT - 1])
    }

    constructor (slack: nat)
      ensures Valid() && fresh(reassembly) && this.slack == slack
      ensures frames == [] && forall i :: 0 <= i < NUM_REASSEMBLY ==> reassembly[i] == None
    {
      this.slack := slack;
      reassembly := new Option<Slot>[NUM_REASSEMBLY](i => None);
      frames := [];
    }

    /** Copies bytes into a buffer until the packet is complete, found to be too long for the buffer,
        or the data is used up. */
    method Fill(ptype: int, slot: Slot, data: seq<u8>) returns (filled: Step, missing: nat, remain: nat)
      requires Known(ptype) && SlotOk(ptype, Some(slot))
      ensures remain <= |data| && (data != [] ==> remain < |data|)
      ensures var y := Read(ptype, Room(ptype), slot.data, data);
        && (filled.More? ==>
              remain == 0 && y == Yield([], filled.partial, true) && SlotOk(ptype, Some(Slot(filled.partial, missing))))
        && (filled.Done? ==> y == Cons(filled.packet, Read(ptype, Room(ptype), [], data[|data| - remain..])))
        && (filled.TooLong? ==> y == Yield([], [], false))
    {
      var skb, rest := slot.data, data;
      missing, remain := slot.missing, |data|;
      ghost var room := Room(ptype);
      while remain > 0
        invariant remain == |rest| <= |data| && rest == data[|data| - remain..]
        invariant Partial(ptype, room, skb) && missing == Missing(ptype, skb) > 0
        invariant Read(ptype, room, slot.data, data) == Read(ptype, room, skb, rest)
      {
        var len := if missing < remain then missing else remain;
        var q, m := skb + rest[..len], missing - len;
        if |q| == HeaderSize(ptype) {
          m := PayloadSize(ptype, q);
        }
        Copy(ptype, room, skb, rest, len, q, m);
        rest, remain := rest[len..], remain - len;
        if |q| == HeaderSize(ptype) && Room(ptype) - |q| < m {
          return TooLong, m, remain;
        }
        if m == 0 {
          return Done(q), m, remain;
        }
        skb, missing := q, m;
      }
      filled := More(skb);
    }

    /** Carries on with the buffer of this packet type, or a new one.  Returns the number of bytes
        left, or a negative error. */
    method Reassemble(ptype: int, data: seq<u8>, index: nat) returns (remain: int)
      requires Valid() && (Known(ptype) ==> index == ptype - 1)
      modifies this`frames, reassembly
      ensures Valid()
      ensures !Known(ptype) ==> remain == EILSEQ && frames == old(frames) && reassembly[..] == old(reassembly[..])
      ensures Known(ptype) ==>
        && (remain == ENOMEM || 0 <= remain <= |data|)
        && (data != [] ==> remain < |data|)
        && (forall i :: 0 <= i < NUM_REASSEMBLY && i != index ==> reassembly[i] == old(reassembly[i]))
        && var y := Read(ptype, Room(ptype), Pending(old(reassembly[index])), data);
           if remain == ENOMEM then
             y == Yield([], [], false) && frames == old(frames) && reassembly[index] == None
           else
             var z := Read(ptype, Room(ptype), Pending(reassembly[index]), data[|data| - remain..]);
             || (frames == old(frames) && y == z)
             || (y.packets != [] && frames == old(frames) + [Frame(ptype, y.packets[0])] && y == Cons(y.packets[0], z))
    {
      if !Known(ptype) || index >= NUM_REASSEMBLY {
        return EILSEQ;
      }
      var slot := reassembly[index];
      if slot.None? {
        slot := Some(Slot([], HeaderSize(ptype)));
      }
      assert SlotOk(ptype, slot);
      var filled, missing, left := Fill(ptype, slot.value, data);
      match filled
      case More(skb) =>
        reassembly[index] := Some(Slot(skb, missing));
        return left;
      case Done(skb) =>
        frames := frames + [Frame(ptype, skb)];
        reassembly[index] := None;
        return left;
      case TooLong =>
        reassembly[index] := None;
        return ENOMEM;
    }

    /** One USB transfer: hands up every packet it completes. */
    method RecvFragment(ptype: int, data: seq<u8>) returns (r: int)
      requires Valid()
      modifies this`frames, reassembly
      ensures Valid()
      ensures !Known(ptype) ==> r == -84 && frames == old(frames) && reassembly[..] == old(reassembly[..])
      ensures Known(ptype) ==>
        && (forall i :: 0 <= i < NUM_REASSEMBLY && i != ptype - 1 ==> reassembly[i] == old(reassembly[i]))
        && var y := Read(ptype, Room(ptype), Pending(old(reassembly[ptype - 1])), data);
           && frames == old(frames) + Tag(ptype, y.packets)
           && Pending(reassembly[ptype - 1]) == y.rest
           && r == if y.ok then 0 else -12
    {
      if !Known(ptype) {
        return EILSEQ;
      }
      var rest := data;
      var slot := ptype - 1;
      ghost var start, room := Pending(reassembly[slot]), Room(ptype);
      ghost var done: seq<seq<u8>> := [];
      r := 0;
      while rest != []
        invariant Valid()
        invariant forall i :: 0 <= i < NUM_REASSEMBLY && i != slot ==> reassembly[i] == old(reassembly[i])
        invariant frames == old(frames) + Tag(ptype, done)
        invariant Read(ptype, room, start, data) == Prepend(done, Read(ptype, room, Pending(reassembly[slot]), rest))
        invariant rest == [] ==> r == 0
        decreases |rest|
      {
        ghost var y := Read(ptype, room, Pending(reassembly[slot]), rest);
        r := Reassemble(ptype, rest, slot);
        if r < 0 {
          assert done + [] == done;
          return;
        }
        if y.packets != [] {
          TagSnoc(ptype, done, y.packets[0]);
          PrependCons(done, y.packets[0], Read(ptype, room, Pending(reassembly[slot]), rest[|rest| - r..]));
          if |frames| > |old(frames)| + |done| {
            done := done + [y.packets[0]];
          }
        }
        rest := rest[|rest| - r..];
      }
      assert done + [] == done;
    }
  }
}

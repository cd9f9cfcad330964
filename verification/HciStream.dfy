/** Streams of HCI packets: what the reassembler makes of them does not depend on how USB cut them. */
module HciStream {
  import opened Bytes
  import opened HciReassembly
  import opened Wrappers

  /** A sequence of transfers; after an error the next transfer starts afresh. */
  function ReadAll(ptype: int, room: nat, p: seq<u8>, fragments: seq<seq<u8>>): Yield
    requires Known(ptype)
    decreases |fragments|
  {
    if fragments == [] then Yield([], p, true)
    else
      var y := Read(ptype, room, p, fragments[0]);
      var z := ReadAll(ptype, room, y.rest, fragments[1..]);
      Yield(y.packets + z.packets, z.rest, y.ok && z.ok)
  }

  /** Cutting a stream in two makes no difference. */
  lemma {:induction false} ReadAppend(ptype: int, room: nat, p: seq<u8>, s: seq<u8>, t: seq<u8>)
    requires Known(ptype)
    ensures var y := Read(ptype, room, p, s);
      Read(ptype, room, p, s + t) == if y.ok then Prepend(y.packets, Read(ptype, room, y.rest, t)) else y
    decreases |s|
  {
    if s == [] {
      assert s + t == t;
      assert [] + Read(ptype, room, p, t).packets == Read(ptype, room, p, t).packets;
    } else {
      assert (s + t)[1..] == s[1..] + t;
      match Push(ptype, room, p, s[0])
      case More(q) => ReadAppend(ptype, room, q, s[1..], t);
      case Done(q) =>
        ReadAppend(ptype, room, [], s[1..], t);
        var y := Read(ptype, room, [], s[1..]);
        Associative([q], y.packets, Read(ptype, room, y.rest, t).packets);
      case TooLong =>
    }
  }

  /** As long as no packet is too long, cutting the stream anywhere makes no difference. */
  lemma {:induction false} CutAnywhere(ptype: int, room: nat, p: seq<u8>, fragments: seq<seq<u8>>)
    requires Known(ptype) && Read(ptype, room, p, Flatten(fragments)).ok
    ensures ReadAll(ptype, room, p, fragments) == Read(ptype, room, p, Flatten(fragments))
    decreases |fragments|
  {
    if fragments != [] {
      ReadAppend(ptype, room, p, fragments[0], Flatten(fragments[1..]));
      CutAnywhere(ptype, room, Read(ptype, room, p, fragments[0]).rest, fragments[1..]);
    }
  }

  lemma SameHeader(ptype: int, p: seq<u8>, k: nat)
    requires Known(ptype) && HeaderSize(ptype) <= k <= |p|
    ensures PacketSize(ptype, p[..k]) == PacketSize(ptype, p)
  {
  }

  /** A packet read from its `k`-th byte on. */
  lemma {:induction false} ReadPacketFrom(ptype: int, room: nat, p: seq<u8>, k: nat)
    requires Known(ptype) && WellFormed(ptype, p) && k < |p|
    requires k >= HeaderSize(ptype) ==> |p| <= room
    ensures Read(ptype, room, p[..k], p[k..]) == if |p| <= room then Yield([p], [], true) else Yield([], [], false)
    decreases |p| - k
  {
    var q := p[..k + 1];
    assert p[..k] + [p[k]] == q;
    assert p[k..][0] == p[k] && p[k..][1..] == p[k + 1..];
    if k + 1 >= HeaderSize(ptype) { SameHeader(ptype, p, k + 1); }
    if k + 1 == |p| {
      assert q == p;
      assert p[k + 1..] == [];
    } else if k + 1 == HeaderSize(ptype) && |p| > room {
    } else {
      ReadPacketFrom(ptype, room, p, k + 1);
    }
  }

  /** One packet is delivered if it fits its buffer, and refused otherwise. */
  lemma ReadPacket(ptype: int, room: nat, p: seq<u8>)
    requires Known(ptype) && WellFormed(ptype, p)
    ensures Read(ptype, room, [], p) == if |p| <= room then Yield([p], [], true) else Yield([], [], false)
  {
    ReadPacketFrom(ptype, room, p, 0);
    assert p[..0] == [] && p[0..] == p;
  }

  predicate AllFit(room: nat, ps: seq<seq<u8>>) {
    forall i :: 0 <= i < |ps| ==> |ps[i]| <= room
  }

  /** A stream of whole packets is read without error exactly when every packet fits, and then
      yields exactly those packets. */
  lemma {:induction false} ReadStream(ptype: int, room: nat, ps: seq<seq<u8>>)
    requires Known(ptype) && forall i :: 0 <= i < |ps| ==> WellFormed(ptype, ps[i])
    ensures Read(ptype, room, [], Flatten(ps)).ok <==> AllFit(room, ps)
    ensures AllFit(room, ps) ==> Read(ptype, room, [], Flatten(ps)) == Yield(ps, [], true)
    decreases |ps|
  {
    if ps != [] {
      ReadPacket(ptype, room, ps[0]);
      ReadAppend(ptype, room, [], ps[0], Flatten(ps[1..]));
      ReadStream(ptype, room, ps[1..]);
      assert AllFit(room, ps) <==> |ps[0]| <= room && AllFit(room, ps[1..]) by {
        assert AllFit(room, ps) ==> forall i :: 0 <= i < |ps[1..]| ==> ps[1..][i] == ps[i + 1];
        assert forall i :: 1 <= i < |ps| ==> ps[i] == ps[1..][i - 1];
      }
      assert [ps[0]] + ps[1..] == ps;
    }
  }

  /** For every list of packets that fit their buffers and every way USB may cut their
      concatenation, exactly those packets are delivered, in order, and nothing is left over. */
  lemma ChunkingIsInvisible(ptype: int, room: nat, ps: seq<seq<u8>>, fragments: seq<seq<u8>>)
    requires Known(ptype) && forall i :: 0 <= i < |ps| ==> WellFormed(ptype, ps[i])
    requires AllFit(room, ps)
    requires Flatten(fragments) == Flatten(ps)
    ensures ReadAll(ptype, room, [], fragments) == Yield(ps, [], true)
  {
    ReadStream(ptype, room, ps);
    CutAnywhere(ptype, room, [], fragments);
  }

  /** Which packets fit a buffer of the size the driver asks for (plus `slack`): every event, ACL
      packets with up to 1024 bytes of payload, but SCO packets only with up to 252 of the 255 bytes
      their length field can announce, because the buffer does not allow for the header. */
  lemma WhatFits(ptype: int, slack: nat, p: seq<u8>)
    requires Known(ptype) && WellFormed(ptype, p)
    ensures ptype == EVENT ==> |p| <= BufferSize(ptype) + slack
    ensures ptype == ACL ==> (|p| <= BufferSize(ptype) + slack <==> PayloadSize(ptype, p) <= 1024 + slack)
    ensures ptype == SCO ==> (|p| <= BufferSize(ptype) + slack <==> PayloadSize(ptype, p) <= 252 + slack)
  {
  }

  function LongestSco(): seq<u8> { [0, 0, 255] + seq(255, _ => 0) }

  /** Every SCO packet fits exactly when the allocator gives at least the three bytes of the header more
      than it was asked for. */
  lemma EveryScoFitsExactly(slack: nat)
    ensures (forall p :: WellFormed(SCO, p) ==> |p| <= BufferSize(SCO) + slack) <==> slack >= 3
  {
    var p := LongestSco();
    assert p[2] == 255 && WellFormed(SCO, p) && |p| == 258;
  }

  /** With less, the longest SCO packet is refused. */
  lemma LongScoRefused(slack: nat)
    requires slack < 3
    ensures WellFormed(SCO, LongestSco())
    ensures Read(SCO, BufferSize(SCO) + slack, [], LongestSco()) == Yield([], [], false)
  {
    var p := LongestSco();
    assert p[2] == 255;
    ReadPacket(SCO, BufferSize(SCO) + slack, p);
  }

  // ---- Transfers of all types, as they come ----

  datatype Transfer = Transfer(ptype: int, data: seq<u8>)

  /** The data of the transfers of one type, and the packets among `frames` of one type. */
  function OfType(t: int, ts: seq<Transfer>): seq<seq<u8>> {
    if ts == [] then [] else (if ts[0].ptype == t then [ts[0].data] else []) + OfType(t, ts[1..])
  }

  function FramesOf(t: int, frames: seq<Frame>): seq<seq<u8>> {
    if frames == [] then [] else (if frames[0].ptype == t then [frames[0].data] else []) + FramesOf(t, frames[1..])
  }

  lemma {:induction false} OfTypeSnoc(t: int, ts: seq<Transfer>, x: Transfer)
    ensures OfType(t, ts + [x]) == OfType(t, ts) + if x.ptype == t then [x.data] else []
  {
    if ts == [] {
      assert ts + [x] == [x] && [x][1..] == [];
    } else {
      assert (ts + [x])[1..] == ts[1..] + [x];
      OfTypeSnoc(t, ts[1..], x);
      var head, last := if ts[0].ptype == t then [ts[0].data] else [], if x.ptype == t then [x.data] else [];
      Associative(head, OfType(t, ts[1..]), last);
    }
  }

  lemma {:induction false} FramesOfAppend(t: int, f: seq<Frame>, g: seq<Frame>)
    ensures FramesOf(t, f + g) == FramesOf(t, f) + FramesOf(t, g)
  {
    if f == [] {
      assert f + g == g;
    } else {
      assert (f + g)[1..] == f[1..] + g;
      FramesOfAppend(t, f[1..], g);
      Associative(if f[0].ptype == t then [f[0].data] else [], FramesOf(t, f[1..]), FramesOf(t, g));
    }
  }

  lemma {:induction false} FramesOfTag(t: int, ptype: int, packets: seq<seq<u8>>)
    ensures FramesOf(t, Tag(ptype, packets)) == if ptype == t then packets else []
    decreases |packets|
  {
    if packets != [] {
      var front, last := packets[..|packets| - 1], packets[|packets| - 1];
      assert packets == front + [last];
      TagSnoc(ptype, front, last);
      FramesOfAppend(t, Tag(ptype, front), [Frame(ptype, last)]);
      FramesOfTag(t, ptype, front);
      assert [Frame(ptype, last)][1..] == [];
    }
  }

  lemma {:induction false} ReadAllSnoc(ptype: int, room: nat, p: seq<u8>, fragments: seq<seq<u8>>, f: seq<u8>)
    requires Known(ptype)
    ensures var y := ReadAll(ptype, room, p, fragments);
      var z := Read(ptype, room, y.rest, f);
      ReadAll(ptype, room, p, fragments + [f]) == Yield(y.packets + z.packets, z.rest, y.ok && z.ok)
    decreases |fragments|
  {
    var all := fragments + [f];
    if fragments == [] {
      assert all == [f] && all[1..] == [];
      var z := Read(ptype, room, p, f);
      assert z.packets + [] == z.packets && [] + z.packets == z.packets;
    } else {
      assert all[1..] == fragments[1..] + [f];
      var y := Read(ptype, room, p, fragments[0]);
      ReadAllSnoc(ptype, room, y.rest, fragments[1..], f);
      var w := ReadAll(ptype, room, y.rest, fragments[1..]);
      var z := Read(ptype, room, w.rest, f);
      assert y.packets + (w.packets + z.packets) == y.packets + w.packets + z.packets;
    }
  }

  /** What one type has come to: `got` the packets delivered beyond `had`, `rest` the part of a packet
      kept, when `start` was kept before. */
  ghost predicate Settled(t: int, room: nat, had: seq<seq<u8>>, start: seq<u8>, fragments: seq<seq<u8>>,
                          got: seq<seq<u8>>, rest: seq<u8>)
    requires Known(t)
  {
    var y := ReadAll(t, room, start, fragments);
    got == had + y.packets && rest == y.rest
  }

  /** One more transfer of the type. */
  lemma SettledNext(t: int, room: nat, had: seq<seq<u8>>, start: seq<u8>, ts: seq<Transfer>, x: Transfer,
                    frames: seq<Frame>, rest: seq<u8>, y: Yield)
    requires Known(t) && Settled(t, room, had, start, OfType(t, ts), FramesOf(t, frames), rest)
    requires x.ptype == t && y == Read(t, room, rest, x.data)
    ensures Settled(t, room, had, start, OfType(t, ts + [x]), FramesOf(t, frames + Tag(t, y.packets)), y.rest)
  {
    OfTypeSnoc(t, ts, x);
    FramesOfAppend(t, frames, Tag(t, y.packets));
    FramesOfTag(t, t, y.packets);
    ReadAllSnoc(t, room, start, OfType(t, ts), x.data);
    Associative(had, ReadAll(t, room, start, OfType(t, ts)).packets, y.packets);
  }

  /** A transfer of another type makes no difference. */
  lemma SettledOther(t: int, room: nat, had: seq<seq<u8>>, start: seq<u8>, ts: seq<Transfer>, x: Transfer,
                     frames: seq<Frame>, rest: seq<u8>, packets: seq<seq<u8>>)
    requires Known(t) && Settled(t, room, had, start, OfType(t, ts), FramesOf(t, frames), rest)
    requires x.ptype != t
    ensures OfType(t, ts + [x]) == OfType(t, ts)
    ensures FramesOf(t, frames + Tag(x.ptype, packets)) == FramesOf(t, frames)
  {
    OfTypeSnoc(t, ts, x);
    FramesOfAppend(t, frames, Tag(x.ptype, packets));
    FramesOfTag(t, x.ptype, packets);
    assert OfType(t, ts) + [] == OfType(t, ts) && FramesOf(t, frames) + [] == FramesOf(t, frames);
  }

  /** One transfer of any type, or of an unknown one, which is refused. */
  lemma SettledStep(t: int, room: nat, had: seq<seq<u8>>, start: seq<u8>, ts: seq<Transfer>, x: Transfer,
                    frames: seq<Frame>, rest: seq<u8>, y: Yield, frames': seq<Frame>, rest': seq<u8>)
    requires Known(t) && Settled(t, room, had, start, OfType(t, ts), FramesOf(t, frames), rest)
    requires x.ptype == t ==> y == Read(t, room, rest, x.data) && rest' == y.rest
    requires x.ptype != t ==> rest' == rest
    requires frames' == if Known(x.ptype) then frames + Tag(x.ptype, y.packets) else frames
    ensures Settled(t, room, had, start, OfType(t, ts + [x]), FramesOf(t, frames'), rest')
  {
    if x.ptype == t {
      SettledNext(t, room, had, start, ts, x, frames, rest, y);
    } else {
      SettledOther(t, room, had, start, ts, x, frames, rest, y.packets);
    }
  }

  ghost predicate SettledAt(t: int, slack: nat, frames0: seq<Frame>, slots0: seq<Option<Slot>>, ts: seq<Transfer>,
                            frames: seq<Frame>, slots: seq<Option<Slot>>)
    requires Known(t) && |slots0| == |slots| == NUM_REASSEMBLY
  {
    Settled(t, BufferSize(t) + slack, FramesOf(t, frames0), Pending(slots0[t - 1]), OfType(t, ts),
            FramesOf(t, frames), Pending(slots[t - 1]))
  }

  /** The same for all types at once: from `frames0` and `slots0` the transfers lead to `frames` and
      `slots`. */
  ghost predicate AllSettled(slack: nat, frames0: seq<Frame>, slots0: seq<Option<Slot>>, ts: seq<Transfer>,
                             frames: seq<Frame>, slots: seq<Option<Slot>>) {
    && |slots0| == |slots| == NUM_REASSEMBLY
    && forall t :: Known(t) ==> SettledAt(t, slack, frames0, slots0, ts, frames, slots)
  }

  lemma NothingReceived(slack: nat, frames: seq<Frame>, slots: seq<Option<Slot>>)
    requires |slots| == NUM_REASSEMBLY
    ensures AllSettled(slack, frames, slots, [], frames, slots)
  {
    forall t | Known(t)
      ensures SettledAt(t, slack, frames, slots, [], frames, slots)
    {
      assert FramesOf(t, frames) + [] == FramesOf(t, frames);
    }
  }

  /** What one transfer does to the device, as `Hdev.RecvFragment` promises it. */
  ghost predicate Fragment(slack: nat, x: Transfer, frames: seq<Frame>, slots: seq<Option<Slot>>,
                           frames': seq<Frame>, slots': seq<Option<Slot>>)
    requires |slots| == |slots'| == NUM_REASSEMBLY
  {
    if !Known(x.ptype) then frames' == frames && slots' == slots
    else
      var y := Read(x.ptype, BufferSize(x.ptype) + slack, Pending(slots[x.ptype - 1]), x.data);
      && frames' == frames + Tag(x.ptype, y.packets) && Pending(slots'[x.ptype - 1]) == y.rest
      && forall i :: 0 <= i < NUM_REASSEMBLY && i != x.ptype - 1 ==> slots'[i] == slots[i]
  }

  /** What a transfer of type `x.ptype` does to the part kept of type `t`. */
  lemma FragmentAt(t: int, slack: nat, x: Transfer, frames: seq<Frame>, slots: seq<Option<Slot>>,
                   frames': seq<Frame>, slots': seq<Option<Slot>>) returns (y: Yield)
    requires Known(t) && |slots| == |slots'| == NUM_REASSEMBLY
    requires Fragment(slack, x, frames, slots, frames', slots')
    ensures x.ptype == t ==>
      y == Read(t, BufferSize(t) + slack, Pending(slots[t - 1]), x.data) && Pending(slots'[t - 1]) == y.rest
    ensures x.ptype != t ==> Pending(slots'[t - 1]) == Pending(slots[t - 1])
    ensures frames' == if Known(x.ptype) then frames + Tag(x.ptype, y.packets) else frames
  {
    if Known(x.ptype) {
      y := Read(x.ptype, BufferSize(x.ptype) + slack, Pending(slots[x.ptype - 1]), x.data);
      assert x.ptype != t ==> slots'[t - 1] == slots[t - 1];
    } else {
      y := Yield([], [], false);
    }
  }

  lemma SettledAtNext(t: int, slack: nat, frames0: seq<Frame>, slots0: seq<Option<Slot>>, ts: seq<Transfer>,
                      x: Transfer,
                      frames: seq<Frame>, slots: seq<Option<Slot>>, frames': seq<Frame>, slots': seq<Option<Slot>>)
    requires Known(t) && |slots0| == |slots| == |slots'| == NUM_REASSEMBLY
    requires SettledAt(t, slack, frames0, slots0, ts, frames, slots)
    requires Fragment(slack, x, frames, slots, frames', slots')
    ensures SettledAt(t, slack, frames0, slots0, ts + [x], frames', slots')
  {
    var y := FragmentAt(t, slack, x, frames, slots, frames', slots');
    SettledStep(t, BufferSize(t) + slack, FramesOf(t, frames0), Pending(slots0[t - 1]), ts, x,
                frames, Pending(slots[t - 1]), y, frames', Pending(slots'[t - 1]));
  }

  lemma AllSettledNext(slack: nat, frames0: seq<Frame>, slots0: seq<Option<Slot>>, ts: seq<Transfer>, x: Transfer,
                       frames: seq<Frame>, slots: seq<Option<Slot>>, frames': seq<Frame>, slots': seq<Option<Slot>>)
    requires AllSettled(slack, frames0, slots0, ts, frames, slots) && |slots'| == NUM_REASSEMBLY
    requires Fragment(slack, x, frames, slots, frames', slots')
    ensures AllSettled(slack, frames0, slots0, ts + [x], frames', slots')
  {
    forall t | Known(t)
      ensures SettledAt(t, slack, frames0, slots0, ts + [x], frames', slots')
    {
      SettledAtNext(t, slack, frames0, slots0, ts, x, frames, slots, frames', slots');
    }
  }

  method RecvOne(hdev: Hdev, x: Transfer)
    requires hdev.Valid()
    modifies hdev`frames, hdev.reassembly
    ensures hdev.Valid()
    ensures Fragment(hdev.slack, x, old(hdev.frames), old(hdev.reassembly[..]), hdev.frames, hdev.reassembly[..])
  {
    var r := hdev.RecvFragment(x.ptype, x.data);
  }

  /** Transfers of all types, mixed as they come: each type gets exactly what its own transfers yield. */
  method RecvAll(hdev: Hdev, transfers: seq<Transfer>)
    requires hdev.Valid()
    modifies hdev`frames, hdev.reassembly
    ensures hdev.Valid()
    ensures AllSettled(hdev.slack, old(hdev.frames), old(hdev.reassembly[..]), transfers,
                       hdev.frames, hdev.reassembly[..])
  {
    ghost var frames0, slots0 := hdev.frames, hdev.reassembly[..];
    NothingReceived(hdev.slack, frames0, slots0);
    assert transfers[..0] == [];
    for i := 0 to |transfers|
      invariant hdev.Valid()
      invariant AllSettled(hdev.slack, frames0, slots0, transfers[..i], hdev.frames, hdev.reassembly[..])
    {
      var x := transfers[i];
      ghost var frames, slots := hdev.frames, hdev.reassembly[..];
      RecvOne(hdev, x);
      AllSettledNext(hdev.slack, frames0, slots0, transfers[..i], x, frames, slots, hdev.frames, hdev.reassembly[..]);
      assert transfers[..i + 1] == transfers[..i] + [x];
    }
    assert transfers[..|transfers|] == transfers;
  }

  /** A type whose transfers are a cut of a stream of packets that fit gets exactly those packets, whatever
      transfers of other types come in between. */
  lemma InterleavingIsInvisible(t: int, room: nat, had: seq<seq<u8>>, transfers: seq<Transfer>, ps: seq<seq<u8>>,
                                got: seq<seq<u8>>, rest: seq<u8>)
    requires Known(t) && Settled(t, room, had, [], OfType(t, transfers), got, rest)
    requires forall i :: 0 <= i < |ps| ==> WellFormed(t, ps[i])
    requires AllFit(room, ps) && Flatten(OfType(t, transfers)) == Flatten(ps)
    ensures got == had + ps && rest == []
  {
    ChunkingIsInvisible(t, room, ps, OfType(t, transfers));
  }

  // ---- Packets by their fields ----

  /** The packets of the HCI specification, each with the bytes of its header before the length. */
  datatype Hci = Data(h0: u8, h1: u8, d: seq<u8>) | Voice(h0: u8, h1: u8, d: seq<u8>) | Happened(code: u8, d: seq<u8>)

  /** Packet types 2, 3 and 4. */
  function TypeOf(p: Hci): int {
    if p.Data? then 2 else if p.Voice? then 3 else 4
  }

  /** The length has room in its field: two bytes for data, one otherwise. */
  predicate Announceable(p: Hci) { |p.d| <= if p.Data? then 0xffff else 0xff }

  /** The length field is little-endian. */
  function Wire(p: Hci): seq<u8>
    requires Announceable(p)
  {
    match p
    case Data(h0, h1, d) => [h0, h1, |d| % 0x100, |d| / 0x100] + d
    case Voice(h0, h1, d) => [h0, h1, |d|] + d
    case Happened(code, d) => [code, |d|] + d
  }

  /** What fits the buffers, with `slack` bytes more than asked for. */
  predicate FitsFields(p: Hci, slack: nat) {
    match p
    case Data(_, _, d) => |d| <= 1024 + slack
    case Voice(_, _, d) => |d| <= 252 + slack
    case Happened(_, _) => true
  }

  lemma WireHeader(p: Hci, slack: nat)
    requires Announceable(p)
    ensures Known(TypeOf(p)) && WellFormed(TypeOf(p), Wire(p))
    ensures |Wire(p)| <= BufferSize(TypeOf(p)) + slack <==> FitsFields(p, slack)
  {
  }

  /** One packet in one transfer is delivered exactly if it fits. */
  lemma WireRead(p: Hci, slack: nat)
    requires Announceable(p)
    ensures Read(TypeOf(p), BufferSize(TypeOf(p)) + slack, [], Wire(p)) ==
      if FitsFields(p, slack) then Yield([Wire(p)], [], true) else Yield([], [], false)
  {
    WireHeader(p, slack);
    ReadPacket(TypeOf(p), BufferSize(TypeOf(p)) + slack, Wire(p));
  }

  /** Packets of one type, of any contents that fit. */
  predicate Stream(t: int, slack: nat, ps: seq<Hci>) {
    forall i :: 0 <= i < |ps| ==> TypeOf(ps[i]) == t && Announceable(ps[i]) && FitsFields(ps[i], slack)
  }

  function Wires(t: int, slack: nat, ps: seq<Hci>): (w: seq<seq<u8>>)
    requires Stream(t, slack, ps)
    ensures |w| == |ps| && forall i :: 0 <= i < |ps| ==> w[i] == Wire(ps[i])
  {
    seq(|ps|, i requires 0 <= i < |ps| => Wire(ps[i]))
  }

  /** However the bytes of a stream of packets are cut, and whatever comes in between, exactly those packets
      are delivered. */
  lemma FieldsDelivered(t: int, slack: nat, had: seq<seq<u8>>, transfers: seq<Transfer>, ps: seq<Hci>,
                        got: seq<seq<u8>>, rest: seq<u8>)
    requires Known(t) && Settled(t, BufferSize(t) + slack, had, [], OfType(t, transfers), got, rest)
    requires Stream(t, slack, ps) && Flatten(OfType(t, transfers)) == Flatten(Wires(t, slack, ps))
    ensures got == had + Wires(t, slack, ps) && rest == []
  {
    forall i | 0 <= i < |ps|
      ensures WellFormed(t, Wire(ps[i])) && |Wire(ps[i])| <= BufferSize(t) + slack
    {
      WireHeader(ps[i], slack);
    }
    InterleavingIsInvisible(t, BufferSize(t) + slack, had, transfers, Wires(t, slack, ps), got, rest);
  }

  /** A new device is sent streams of packets of all three types, each cut in any way and mixed with the
      others in any way: it hands up exactly those packets, type by type in order. */
  method RecvStreams(slack: nat, transfers: seq<Transfer>, data: seq<Hci>, voice: seq<Hci>, events: seq<Hci>)
      returns (hdev: Hdev)
    requires Stream(2, slack, data) && Stream(3, slack, voice) && Stream(4, slack, events)
    requires Flatten(OfType(2, transfers)) == Flatten(Wires(2, slack, data))
    requires Flatten(OfType(3, transfers)) == Flatten(Wires(3, slack, voice))
    requires Flatten(OfType(4, transfers)) == Flatten(Wires(4, slack, events))
    ensures fresh(hdev) && hdev.Valid()
    ensures FramesOf(2, hdev.frames) == Wires(2, slack, data)
    ensures FramesOf(3, hdev.frames) == Wires(3, slack, voice)
    ensures FramesOf(4, hdev.frames) == Wires(4, slack, events)
  {
    hdev := new Hdev(slack);
    ghost var slots0 := hdev.reassembly[..];
    RecvAll(hdev, transfers);
    AllDelivered(2, slack, slots0, transfers, data, hdev.frames, hdev.reassembly[..]);
    AllDelivered(3, slack, slots0, transfers, voice, hdev.frames, hdev.reassembly[..]);
    AllDelivered(4, slack, slots0, transfers, events, hdev.frames, hdev.reassembly[..]);
  }

  lemma AllDelivered(t: int, slack: nat, slots0: seq<Option<Slot>>, transfers: seq<Transfer>, ps: seq<Hci>,
                     frames: seq<Frame>, slots: seq<Option<Slot>>)
    requires AllSettled(slack, [], slots0, transfers, frames, slots) && 2 <= t <= 4
    requires forall i :: 0 <= i < NUM_REASSEMBLY ==> slots0[i] == None
    requires Stream(t, slack, ps) && Flatten(OfType(t, transfers)) == Flatten(Wires(t, slack, ps))
    ensures FramesOf(t, frames) == Wires(t, slack, ps)
  {
    assert Known(t) && SettledAt(t, slack, [], slots0, transfers, frames, slots);
    FieldsDelivered(t, slack, [], transfers, ps, FramesOf(t, frames), Pending(slots[t - 1]));
    assert [] + Wires(t, slack, ps) == Wires(t, slack, ps);
  }
}

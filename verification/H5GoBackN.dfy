/** The sliding window, one direction at a time.

    Frames carry only three-bit numbers.  The proof gives each frame on the link its unbounded
    number `n`, the position of its packet in the sender's log, and its unbounded acknowledgement,
    the length of what its sender had received; the endpoints see both only modulo 8. */
module H5GoBackN {
  import opened Bytes
  import opened H5Frame
  import opened H5State
  import opened H5Sender
  import opened H5RoundTrip

  datatype Flight = Flight(p: Packet, n: nat, ack: nat)

  /** Stale retransmissions may still be on the link, but never so stale that a number could be
      taken for another one modulo 8. */
  ghost predicate DataOk(log: seq<Packet>, base: int, received: nat, data: seq<Flight>) {
    && (forall i :: 0 <= i < |data| && IsReliable(data[i].p.kind) ==>
          && data[i].n < |log| && data[i].p == log[data[i].n]
          && data[i].n < base + WINDOW && received <= data[i].n + WINDOW)
    && (forall i, j :: 0 <= i < j < |data| && IsReliable(data[i].p.kind) && IsReliable(data[j].p.kind) ==>
          data[i].n < data[j].n + WINDOW)
  }

  /** Acknowledgements on the link never run ahead of the receiver nor fall behind the sender, and
      never decrease. */
  ghost predicate AcksOk(base: int, received: nat, acks: seq<Flight>) {
    && (forall i :: 0 <= i < |acks| ==> base <= acks[i].ack <= received)
    && (forall i, j :: 0 <= i < j < |acks| ==> acks[i].ack <= acks[j].ack)
  }

  /** One direction: `snd` sends the packets of `log` over the link `data`, `rcv` has received `got`
      and acknowledges over the link `acks`. */
  ghost predicate Dir(snd: Arq, rcv: Arq, log: seq<Packet>, got: seq<Packet>, data: seq<Flight>, acks: seq<Flight>) {
    && LogInv(snd, log)
    && |got| <= |log| && got == log[..|got|]
    && rcv.rxseq == |got| % 8
    && Acked(snd, log) <= |got| <= Acked(snd, log) + WINDOW
    && DataOk(log, Acked(snd, log), |got|, data)
    && AcksOk(Acked(snd, log), |got|, acks)
  }

  // ---- The sender's steps ----

  lemma DirEnqueue(snd: Arq, rcv: Arq, log: seq<Packet>, got: seq<Packet>, data: seq<Flight>, acks: seq<Flight>,
                   p: Packet)
    requires Dir(snd, rcv, log, got, data, acks)
    ensures Dir(Enqueue(snd, p), rcv, Logged(log, p), got, data, acks)
  {
    EnqueueLog(snd, log, p);
    var log' := Logged(log, p);
    assert log'[..|got|] == log[..|got|];
    assert log' == log || log' == log + [p];
  }

  lemma DirTimeout(snd: Arq, rcv: Arq, log: seq<Packet>, got: seq<Packet>, data: seq<Flight>, acks: seq<Flight>)
    requires Dir(snd, rcv, log, got, data, acks) && snd.txseq < 8
    ensures Dir(Timeout(snd), rcv, log, got, data, acks)
  {
    TimeoutLog(snd, log);
  }

  lemma DataOneMore(log: seq<Packet>, base: int, received: nat, data: seq<Flight>, f: Flight)
    requires DataOk(log, base, received, data) && received <= base + WINDOW
    requires IsReliable(f.p.kind) ==> base <= f.n < base + WINDOW && f.n < |log| && f.p == log[f.n]
    ensures DataOk(log, base, received, data + [f])
  {
  }

  /** A frame leaves the sender: whatever is on the link already is less than a window ahead. */
  lemma DirSend(snd: Arq, rcv: Arq, log: seq<Packet>, got: seq<Packet>, data: seq<Flight>, acks: seq<Flight>,
                snd': Arq, f: Flight)
    requires Dir(snd, rcv, log, got, data, acks)
    requires LogInv(snd', log) && Acked(snd', log) == Acked(snd, log)
    requires IsReliable(f.p.kind) ==>
      |snd.unack| < WINDOW && snd.rel != [] && f.n == Sent(snd, log) < |log| && f.p == log[f.n]
    ensures Dir(snd', rcv, log, got, data + [f], acks)
  {
    DataOneMore(log, Acked(snd, log), |got|, data, f);
  }

  // ---- The receiver's steps ----

  /** The receiver sends a frame, which carries its acknowledgement. */
  lemma DirAck(snd: Arq, rcv: Arq, log: seq<Packet>, got: seq<Packet>, data: seq<Flight>, acks: seq<Flight>, rcv': Arq,
               f: Flight)
    requires Dir(snd, rcv, log, got, data, acks)
    requires rcv'.rxseq == rcv.rxseq && f.ack == |got|
    ensures Dir(snd, rcv', log, got, data, acks + [f])
  {
  }

  /** What is left of a link when a frame is lost. */
  function Without<T>(s: seq<T>, i: nat): seq<T>
    requires i < |s|
  {
    s[..i] + s[i + 1..]
  }

  lemma DirLoseData(snd: Arq, rcv: Arq, log: seq<Packet>, got: seq<Packet>, data: seq<Flight>, acks: seq<Flight>,
                    i: nat)
    requires Dir(snd, rcv, log, got, data, acks) && i < |data|
    ensures Dir(snd, rcv, log, got, Without(data, i), acks)
  {
    var d := Without(data, i);
    assert forall k :: 0 <= k < |d| ==> d[k] == data[if k < i then k else k + 1];
  }

  lemma DirLoseAck(snd: Arq, rcv: Arq, log: seq<Packet>, got: seq<Packet>, data: seq<Flight>, acks: seq<Flight>, i: nat)
    requires Dir(snd, rcv, log, got, data, acks) && i < |acks|
    ensures Dir(snd, rcv, log, got, data, Without(acks, i))
  {
    var d := Without(acks, i);
    assert forall k :: 0 <= k < |d| ==> d[k] == acks[if k < i then k else k + 1];
  }

  /** A reliable frame carries the expected number modulo 8 only if it is the expected packet. */
  lemma NumberNotAliased(n: nat, received: nat, base: nat)
    requires n < base + WINDOW && base <= received <= n + WINDOW
    ensures n % 8 == received % 8 <==> n == received
  {
  }

  /** What the receiver has once the frame has arrived. */
  function Got(rcv: Arq, got: seq<Packet>, f: Flight): seq<Packet> {
    if IsReliable(f.p.kind) && f.n % 8 == rcv.rxseq then got + [f.p] else got
  }

  lemma DataTaken(log: seq<Packet>, base: int, received: nat, received': nat, data: seq<Flight>)
    requires DataOk(log, base, received, data) && data != []
    requires received' == received ||
      (received' == received + 1 && IsReliable(data[0].p.kind) && data[0].n == received)
    ensures DataOk(log, base, received', data[1..])
  {
    assert forall i :: 0 <= i < |data[1..]| ==> data[1..][i] == data[i + 1];
  }

  lemma ReceivedNumber(a: Arq, p: Packet, ack: nat, number: nat)
    requires ack < 8 && a.txseq < 8
    ensures Received(a, p, ack, number).rxseq ==
      if IsReliable(p.kind) && number == a.rxseq then (a.rxseq + 1) % 8 else a.rxseq
  {
  }

  lemma AcksBehind(base: int, received: nat, received': nat, acks: seq<Flight>)
    requires AcksOk(base, received, acks) && received <= received'
    ensures AcksOk(base, received', acks)
  {
  }

  lemma NextNumber(number: nat, n: nat, n': nat)
    requires number == n % 8 && n' == n + 1
    ensures (number + 1) % 8 == n' % 8
  {
    var q := n / 8;
    assert n == 8 * q + number;
    if number == 7 {
      assert n' == 8 * (q + 1);
    } else {
      assert n' == 8 * q + (number + 1);
    }
  }

  lemma PrefixNext<T>(log: seq<T>, got: seq<T>)
    requires |got| < |log| && got == log[..|got|]
    ensures got + [log[|got|]] == log[..|got| + 1]
  {
  }

  lemma DirTaken(snd: Arq, rcv: Arq, log: seq<Packet>, got: seq<Packet>, data: seq<Flight>, acks: seq<Flight>,
                 rcv': Arq)
    requires Dir(snd, rcv, log, got, data, acks) && data != []
    requires IsReliable(data[0].p.kind) && data[0].n == |got|
    requires rcv'.rxseq == (rcv.rxseq + 1) % 8
    ensures Dir(snd, rcv', log, got + [data[0].p], data[1..], acks)
  {
    var got' := got + [data[0].p];
    PrefixNext(log, got);
    DataTaken(log, Acked(snd, log), |got|, |got'|, data);
    AcksBehind(Acked(snd, log), |got|, |got'|, acks);
    NextNumber(rcv.rxseq, |got|, |got'|);
  }

  lemma DirSkipped(snd: Arq, rcv: Arq, log: seq<Packet>, got: seq<Packet>, data: seq<Flight>, acks: seq<Flight>,
                   rcv': Arq)
    requires Dir(snd, rcv, log, got, data, acks) && data != []
    requires rcv'.rxseq == rcv.rxseq
    ensures Dir(snd, rcv', log, got, data[1..], acks)
  {
    DataTaken(log, Acked(snd, log), |got|, |got|, data);
  }

  /** A frame arrives at the receiver. */
  lemma DirReceive(snd: Arq, rcv: Arq, log: seq<Packet>, got: seq<Packet>, data: seq<Flight>, acks: seq<Flight>)
    requires Dir(snd, rcv, log, got, data, acks) && data != [] && rcv.txseq < 8
    ensures var f := data[0];
      Dir(snd, Received(rcv, f.p, f.ack % 8, f.n % 8), log, Got(rcv, got, f), data[1..], acks)
  {
    var f := data[0];
    var rcv' := Received(rcv, f.p, f.ack % 8, f.n % 8);
    ReceivedNumber(rcv, f.p, f.ack % 8, f.n % 8);
    if IsReliable(f.p.kind) && f.n % 8 == rcv.rxseq {
      NumberNotAliased(f.n, |got|, Acked(snd, log));
      DirTaken(snd, rcv, log, got, data, acks, rcv');
    } else {
      DirSkipped(snd, rcv, log, got, data, acks, rcv');
    }
  }

  lemma ModShift(base: nat, k: nat)
    ensures (base + k) % 8 == (base % 8 + k) % 8
  {
  }

  /** The window is small enough that an acknowledgement is never taken for another one: culling
      reaches exactly the acknowledged packet, or nothing if that packet has been taken back. */
  lemma AckNotAliased(ack: nat, base: nat, qlen: nat)
    requires base <= ack <= base + WINDOW && qlen <= WINDOW
    ensures Covered(ack % 8, (base + qlen) % 8, qlen) == if ack <= base + qlen then ack - base else 0
  {
    var b, k := base % 8, ack - base;
    ModShift(base, k);
    ModShift(base, qlen);
    Mod8(b + k);
    Mod8(b + qlen);
    Mod8((b + qlen) % 8 + 8 - (b + k) % 8);
  }

  /** A true acknowledgement drops no packet that the receiver does not have. */
  lemma AcceptCulls(snd: Arq, log: seq<Packet>, reliable: bool, ack: nat, snd': Arq)
    requires LogInv(snd, log) && snd.txseq < 8 && Acked(snd, log) <= ack <= Acked(snd, log) + WINDOW
    requires snd' == Accept(snd, reliable, ack % 8)
    ensures LogInv(snd', log) && Acked(snd, log) <= Acked(snd', log) <= ack
  {
    AckNotAliased(ack, Acked(snd, log), |snd.unack|);
    AcceptLog(snd, log, reliable, ack % 8, snd');
  }

  lemma AcksTaken(base: int, base': int, received: nat, acks: seq<Flight>)
    requires AcksOk(base, received, acks) && acks != [] && base' <= acks[0].ack
    ensures AcksOk(base', received, acks[1..])
  {
    assert forall i :: 0 <= i < |acks[1..]| ==> acks[1..][i] == acks[i + 1];
  }

  lemma DirAccept(snd: Arq, rcv: Arq, log: seq<Packet>, got: seq<Packet>, data: seq<Flight>, acks: seq<Flight>,
                  reliable: bool, snd': Arq)
    requires Dir(snd, rcv, log, got, data, acks) && acks != []
    requires snd.txseq < 8 && snd' == Accept(snd, reliable, acks[0].ack % 8)
    ensures Dir(snd', rcv, log, got, data, acks[1..])
  {
    AcceptCulls(snd, log, reliable, acks[0].ack, snd');
    AcksTaken(Acked(snd, log), Acked(snd', log), |got|, acks);
  }

  /** A frame arrives at the sender but is out of turn, so that its acknowledgement is ignored. */
  lemma DirIgnore(snd: Arq, rcv: Arq, log: seq<Packet>, got: seq<Packet>, data: seq<Flight>, acks: seq<Flight>)
    requires Dir(snd, rcv, log, got, data, acks) && acks != []
    ensures Dir(snd.(ackReq := true), rcv, log, got, data, acks[1..])
  {
    assert forall i :: 0 <= i < |acks[1..]| ==> acks[1..][i] == acks[i + 1];
  }

  lemma DirArrival(snd: Arq, rcv: Arq, log: seq<Packet>, got: seq<Packet>, data: seq<Flight>, acks: seq<Flight>)
    requires Dir(snd, rcv, log, got, data, acks) && acks != [] && snd.txseq < 8
    ensures Dir(Received(snd, acks[0].p, acks[0].ack % 8, acks[0].n % 8), rcv, log, got, data, acks[1..])
  {
    var f := acks[0];
    if IsReliable(f.p.kind) && f.n % 8 != snd.rxseq {
      DirIgnore(snd, rcv, log, got, data, acks);
    } else {
      DirAccept(snd, rcv, log, got, data, acks, IsReliable(f.p.kind), Received(snd, f.p, f.ack % 8, f.n % 8));
    }
  }

  /** A step of the receiver that neither takes nor sends a frame. */
  lemma DirReceiverIdle(snd: Arq, rcv: Arq, log: seq<Packet>, got: seq<Packet>, data: seq<Flight>, acks: seq<Flight>,
                        rcv': Arq)
    requires Dir(snd, rcv, log, got, data, acks) && rcv'.rxseq == rcv.rxseq
    ensures Dir(snd, rcv', log, got, data, acks)
  {
  }
}

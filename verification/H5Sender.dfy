/** The sending side of one endpoint: what every step keeps. */
module H5Sender {
  import opened Bytes
  import opened H5Frame
  import opened H5State
  import opened Wrappers

  lemma EnqueueOk(a: Arq, p: Packet)
    requires ArqOk(a)
    ensures ArqOk(Enqueue(a, p))
  {
  }

  /** What a user can have sent reliably: data and commands, of up to 4095 bytes. */
  predicate ForReliable(p: Packet) {
    (p.kind.Acl? || p.kind.Command?) && |p.data| <= 0xFFF
  }

  /** What a user can have sent without acknowledgement. */
  predicate ForUnreliable(p: Packet) {
    (p.kind.Sco? || p.kind.Vendor? || p.kind.Link? || p.kind.Ack?) && |p.data| <= 0xFFF
  }

  /** Each goes to the end of its queue, and nothing else goes anywhere. */
  lemma EnqueueExactly(a: Arq, p: Packet)
    ensures Enqueue(a, p).rel == a.rel + if ForReliable(p) then [p] else []
    ensures Enqueue(a, p).unrel == a.unrel + if ForUnreliable(p) then [p] else []
    ensures Enqueue(a, p) == a.(rel := Enqueue(a, p).rel, unrel := Enqueue(a, p).unrel)
  {
    assert a.rel + [] == a.rel && a.unrel + [] == a.unrel;
  }

  /** The queues hold only what may be in them, whatever is taken from one and put into another. */
  lemma QueuesOk(a: Arq, a': Arq)
    requires ArqOk(a) && a'.txseq < 8 && a'.rxack < 8 && a'.rxseq < 8
    requires |a'.unack| <= WINDOW && (a'.unack != [] <==> a'.timer)
    requires forall p :: p in a'.unack + a'.rel ==> p in a.unack + a.rel
    requires forall p :: p in a'.unrel ==> p in a.unrel
    ensures ArqOk(a')
  {
  }

  /** What taking a frame does to the reliable queues: nothing, or one packet moves into the window. */
  predicate Moved(a: Arq, a': Arq) {
    || (a'.unack == a.unack && a'.rel == a.rel && a'.txseq == a.txseq && a'.timer == a.timer)
    || (&& |a.unack| < WINDOW && a.rel != [] && a'.timer && a'.txseq == (a.txseq + 1) % 8
        && a'.unack == a.unack + [a.rel[0]] && a'.rel == a.rel[1..])
  }

  lemma DequeueEffect(a: Arq, crc: bool, ok1: bool, ok2: bool, ok3: bool, a': Arq)
    requires ArqOk(a) && a' == Dequeue(a, crc, ok1, ok2, ok3).0
    ensures Moved(a, a') && a'.rxseq == a.rxseq && a'.rxack == a.rxack
    ensures a'.unrel == a.unrel || (a.unrel != [] && a'.unrel == a.unrel[1..])
  {
  }

  /** No frame goes out exactly when none of the three kinds is there to be sent, with room in the window
      and with memory for it; and then nothing changes.  So memory that is lacking for one kind does not
      hold up the next. */
  lemma NothingSentExactly(a: Arq, crc: bool, ok1: bool, ok2: bool, ok3: bool, a': Arq, frame: Option<seq<u8>>)
    requires ArqOk(a) && (a', frame) == Dequeue(a, crc, ok1, ok2, ok3)
    ensures frame == None <==>
      && (a.unrel == [] || !ok1) && (a.rel == [] || |a.unack| >= 4 || !ok2) && (!a.ackReq || !ok3)
    ensures if frame == None then a' == a else !a'.ackReq
  {
    assert a.unrel != [] ==> a.unrel[0] in a.unrel;
    assert a.rel != [] ==> a.rel[0] in a.unack + a.rel;
  }

  lemma MovedOk(a: Arq, a': Arq)
    requires ArqOk(a) && Moved(a, a') && a'.rxseq == a.rxseq && a'.rxack == a.rxack
    requires a'.unrel == a.unrel || (a.unrel != [] && a'.unrel == a.unrel[1..])
    ensures ArqOk(a')
  {
    assert forall p :: p in a'.unrel ==> p in a.unrel;
    if a'.unack != a.unack {
      assert a.unack + a.rel == (a.unack + [a.rel[0]]) + a.rel[1..];
    }
    QueuesOk(a, a');
  }

  lemma DequeueOk(a: Arq, crc: bool, ok1: bool, ok2: bool, ok3: bool)
    requires ArqOk(a)
    ensures ArqOk(Dequeue(a, crc, ok1, ok2, ok3).0)
  {
    var a' := Dequeue(a, crc, ok1, ok2, ok3).0;
    DequeueEffect(a, crc, ok1, ok2, ok3, a');
    MovedOk(a, a');
  }

  lemma TimeoutOk(a: Arq)
    requires ArqOk(a)
    ensures ArqOk(Timeout(a))
  {
    assert [] + (a.unack + a.rel) == a.unack + a.rel;
  }

  // ---- Culling is exact ----

  /** The number the `i`-th packet in flight was sent with. */
  function NumberInFlight(txseq: nat, qlen: nat, i: nat): nat {
    (txseq - qlen + i) % 8
  }

  lemma Mod8(x: int)
    requires -8 <= x < 16
    ensures x % 8 == if x < 0 then x + 8 else if x < 8 then x else x - 8
  {
  }

  /** With at most seven packets in flight an acknowledgement matches at most one place in the
      window, and then exactly the packets sent before that place are dropped; an acknowledgement
      that matches no place drops nothing. */
  lemma CoveredExactly(ack: nat, txseq: nat, qlen: nat, i: nat)
    requires ack < 8 && txseq < 8 && qlen <= 7 && i <= qlen
    ensures NumberInFlight(txseq, qlen, i) == ack ==> Covered(ack, txseq, qlen) == i
    ensures Covered(ack, txseq, qlen) > 0 ==> NumberInFlight(txseq, qlen, Covered(ack, txseq, qlen)) == ack
  {
    Mod8(txseq - qlen + i);
    Mod8(txseq + 8 - ack);
    Mod8(txseq - qlen + Covered(ack, txseq, qlen));
  }

  // ---- The sender's log ----

  /** How many of the packets in `log` have been acknowledged, and how many have been sent and not
      taken back. */
  function Acked(a: Arq, log: seq<Packet>): int { |log| - |a.unack| - |a.rel| }

  function Sent(a: Arq, log: seq<Packet>): int { |log| - |a.rel| }

  /** `log` is the list of reliable packets accepted for sending.  What has been acknowledged, what
      is in flight and what is waiting make up the log, in order, and packet `n` of the log goes out
      with number `n` modulo 8. */
  ghost predicate LogInv(a: Arq, log: seq<Packet>) {
    && |a.unack| <= WINDOW
    && 0 <= Acked(a, log)
    && log == log[..Acked(a, log)] + a.unack + a.rel
    && a.txseq == Sent(a, log) % 8
    && (a.unack != [] <==> a.timer)
  }

  /** The log says nothing about the receiving half. */
  lemma LogSame(a: Arq, a': Arq, log: seq<Packet>)
    requires LogInv(a, log)
    requires a'.unack == a.unack && a'.rel == a.rel && a'.txseq == a.txseq && a'.timer == a.timer
    ensures LogInv(a', log) && Acked(a', log) == Acked(a, log)
  {
    assert Acked(a', log) == Acked(a, log);
  }

  function Logged(log: seq<Packet>, p: Packet): seq<Packet> {
    if Queueable(p) && IsReliable(p.kind) then log + [p] else log
  }

  lemma LoggedExactly(log: seq<Packet>, p: Packet)
    ensures Logged(log, p) == log + if ForReliable(p) then [p] else []
  {
    assert log + [] == log;
  }

  lemma EnqueueLog(a: Arq, log: seq<Packet>, p: Packet)
    requires LogInv(a, log)
    ensures LogInv(Enqueue(a, p), Logged(log, p))
    ensures Acked(Enqueue(a, p), Logged(log, p)) == Acked(a, log)
  {
    var n := Acked(a, log);
    if Queueable(p) && IsReliable(p.kind) {
      assert (log + [p])[..n] == log[..n];
      assert log + [p] == log[..n] + a.unack + (a.rel + [p]);
    }
  }

  lemma MoveBack<T>(log: seq<T>, n: nat, u: seq<T>, r: seq<T>, m: nat)
    requires n == m <= |log| && log == log[..n] + u + r
    ensures log == log[..m] + [] + (u + r)
  {
  }

  lemma TimeoutLog(a: Arq, log: seq<Packet>)
    requires LogInv(a, log) && a.txseq < 8
    ensures LogInv(Timeout(a), log)
    ensures Acked(Timeout(a), log) == Acked(a, log)
  {
    MoveBack(log, Acked(a, log), a.unack, a.rel, Acked(Timeout(a), log));
  }

  lemma NextInLog(a: Arq, log: seq<Packet>)
    requires LogInv(a, log) && a.rel != []
    ensures 0 <= Sent(a, log) < |log| && a.rel[0] == log[Sent(a, log)]
  {
    assert log == (log[..Acked(a, log)] + a.unack) + a.rel;
  }

  lemma SendLog(a: Arq, log: seq<Packet>, a': Arq)
    requires LogInv(a, log) && a.rel != [] && |a.unack| < WINDOW
    requires a'.unack == a.unack + [a.rel[0]] && a'.rel == a.rel[1..] && a'.timer
    requires a'.txseq == (a.txseq + 1) % 8
    ensures LogInv(a', log)
    ensures Acked(a', log) == Acked(a, log)
    ensures a.rel[0] == log[Sent(a, log)]
  {
    var n := Acked(a, log);
    assert a.unack + a.rel == (a.unack + [a.rel[0]]) + a.rel[1..];
    assert log == log[..n] + (a.unack + [a.rel[0]]) + a.rel[1..];
    assert log[..n] + a.unack + a.rel == (log[..n] + a.unack) + a.rel;
  }

  lemma DropHead<T>(log: seq<T>, n: nat, u: seq<T>, r: seq<T>, k: nat, m: nat)
    requires n <= |log| && log == log[..n] + u + r && k <= |u| && m == n + k
    ensures m <= |log| && log == log[..m] + u[k..] + r
  {
    assert log == (log[..n] + u[..k]) + u[k..] + r;
    assert log[..m] == log[..n] + u[..k];
  }

  lemma CullLog(a: Arq, log: seq<Packet>, a': Arq)
    requires LogInv(a, log) && a.rxack < 8 && a.txseq < 8 && a' == Cull(a)
    ensures LogInv(a', log)
    ensures Acked(a', log) == Acked(a, log) + Covered(a.rxack, a.txseq, |a.unack|)
  {
    var n, k := Acked(a, log), Covered(a.rxack, a.txseq, |a.unack|);
    DropHead(log, n, a.unack, a.rel, k, Acked(a', log));
  }

  /** An accepted frame, whether its acknowledgement is true or not, drops what it covers from the head of
      the window. */
  lemma AcceptLog(a: Arq, log: seq<Packet>, reliable: bool, ack: nat, a': Arq)
    requires LogInv(a, log) && a.txseq < 8 && ack < 8 && a' == Accept(a, reliable, ack)
    ensures LogInv(a', log) && Acked(a', log) == Acked(a, log) + Covered(ack, a.txseq, |a.unack|)
  {
    var s := if reliable then a.(rxseq := (a.rxseq + 1) % 8, ackReq := true) else a;
    var s' := s.(rxack := ack);
    LogSame(a, s', log);
    CullLog(s', log, a');
    assert s'.rxack == ack && s'.txseq == a.txseq && s'.unack == a.unack;
  }

  lemma DequeueLog(a: Arq, crc: bool, ok1: bool, ok2: bool, ok3: bool, log: seq<Packet>, a': Arq)
    requires ArqOk(a) && LogInv(a, log) && a' == Dequeue(a, crc, ok1, ok2, ok3).0
    ensures LogInv(a', log) && Acked(a', log) == Acked(a, log) && a'.rxseq == a.rxseq
  {
    DequeueEffect(a, crc, ok1, ok2, ok3, a');
    MoveKeepsLog(a, log, a');
  }

  lemma MoveKeepsLog(a: Arq, log: seq<Packet>, a': Arq)
    requires LogInv(a, log) && Moved(a, a')
    ensures LogInv(a', log) && Acked(a', log) == Acked(a, log)
  {
    if a'.unack == a.unack {
      LogSame(a, a', log);
    } else {
      SendLog(a, log, a');
    }
  }
}

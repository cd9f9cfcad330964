/** Two endpoints joined by two FIFO links that carry the very bytes the driver sends and may lose
    any frame: safety over every run. */
module H5Link {
  import opened Bytes
  import opened H5Frame
  import opened H5State
  import opened H5Receive
  import opened H5Sender
  import opened H5RoundTrip
  import opened H5GoBackN
  import opened Wrappers

  /** An endpoint, and the reliable packets its user has had accepted for sending. */
  datatype Node = Node(h: H5, log: seq<Packet>)

  /** `out` holds the frames from `x` to `y`, `back` those from `y` to `x`. */
  datatype System = System(x: Node, y: Node, out: seq<seq<u8>>, back: seq<seq<u8>>)

  /** What can happen at `x`: its user queues a packet, it is asked for a frame (with the outcome of
      each allocation), a frame arrives, a frame on its way is lost, the timer fires. */
  datatype Action =
    | Queue(p: Packet)
    | Send(ok1: bool, ok2: bool, ok3: bool)
    | Arrive
    | Lose(i: nat)
    | Expire

  datatype Move = AtX(act: Action) | AtY(act: Action)

  function Flip(s: System): System { System(s.y, s.x, s.back, s.out) }

  function Act(s: System, act: Action): System
    requires Ok(s.x.h)
  {
    var h := s.x.h;
    match act
    case Queue(p) =>
      s.(x := Node(h.(arq := Enqueue(h.arq, p)), Logged(s.x.log, p)))
    case Send(ok1, ok2, ok3) =>
      var (arq, frame) := Dequeue(h.arq, h.useCrc, ok1, ok2, ok3);
      s.(x := s.x.(h := h.(arq := arq)), out := s.out + if frame.Some? then [frame.value] else [])
    case Arrive =>
      if s.back == [] then s
      else s.(x := s.x.(h := FeedAll(h, s.back[0])), back := s.back[1..])
    case Lose(i) =>
      if i < |s.back| then s.(back := Without(s.back, i)) else s
    case Expire =>
      s.(x := s.x.(h := h.(arq := Timeout(h.arq))))
  }

  lemma ActOk(s: System, act: Action)
    requires Ok(s.x.h) && Ok(s.y.h)
    ensures Ok(Act(s, act).x.h) && Ok(Act(s, act).y.h)
  {
    var a := s.x.h.arq;
    match act
    case Queue(p) => EnqueueOk(a, p);
    case Send(ok1, ok2, ok3) => DequeueOk(a, s.x.h.useCrc, ok1, ok2, ok3);
    case Arrive =>
    case Lose(i) =>
    case Expire => TimeoutOk(a);
  }

  function Do(s: System, m: Move): (s': System)
    requires Ok(s.x.h) && Ok(s.y.h)
    ensures Ok(s'.x.h) && Ok(s'.y.h)
  {
    match m
    case AtX(act) => ActOk(s, act); Act(s, act)
    case AtY(act) => ActOk(Flip(s), act); Flip(Act(Flip(s), act))
  }

  function Run(s: System, moves: seq<Move>): (s': System)
    requires Ok(s.x.h) && Ok(s.y.h)
    ensures Ok(s'.x.h) && Ok(s'.y.h)
    decreases |moves|
  {
    if moves == [] then s else Run(Do(s, moves[0]), moves[1..])
  }

  function Start(crcX: bool, crcY: bool): System {
    System(Node(Initial(crcX), []), Node(Initial(crcY), []), [], [])
  }

  /** The packets of reliable kinds among those handed up. */
  function ReliableOnly(up: seq<Packet>): seq<Packet> {
    if up == [] then []
    else ReliableOnly(up[..|up| - 1]) + if IsReliable(up[|up| - 1].kind) then [up[|up| - 1]] else []
  }

  // ---- The invariant ----

  function OnWire(f: Flight, crc: bool): seq<u8>
    requires Sendable(f.p)
  {
    Frame(f.p, crc, f.ack % 8, f.n % 8)
  }

  ghost predicate Carries(link: seq<seq<u8>>, crc: bool, flights: seq<Flight>) {
    && |link| == |flights|
    && forall i :: 0 <= i < |link| ==> Sendable(flights[i].p) && link[i] == OnWire(flights[i], crc)
  }

  /** `fx` and `fy` are the frames on the two links with their unbounded numbers. */
  ghost predicate Inv(s: System, fx: seq<Flight>, fy: seq<Flight>) {
    && Ok(s.x.h) && Ok(s.y.h) && Idle(s.x.h.rx) && Idle(s.y.h.rx)
    && Carries(s.out, s.x.h.useCrc, fx) && Carries(s.back, s.y.h.useCrc, fy)
    && Dir(s.x.h.arq, s.y.h.arq, s.x.log, ReliableOnly(s.y.h.up), fx, fy)
    && Dir(s.y.h.arq, s.x.h.arq, s.y.log, ReliableOnly(s.x.h.up), fy, fx)
  }

  // ---- Each action keeps the invariant ----

  lemma QueueKeeps(s: System, p: Packet, fx: seq<Flight>, fy: seq<Flight>)
    requires Inv(s, fx, fy)
    ensures Inv(Act(s, Queue(p)), fx, fy)
  {
    ActOk(s, Queue(p));
    var a := s.x.h.arq;
    DirEnqueue(a, s.y.h.arq, s.x.log, ReliableOnly(s.y.h.up), fx, fy, p);
    DirReceiverIdle(s.y.h.arq, a, s.y.log, ReliableOnly(s.x.h.up), fy, fx, Enqueue(a, p));
  }

  lemma ExpireKeeps(s: System, fx: seq<Flight>, fy: seq<Flight>)
    requires Inv(s, fx, fy)
    ensures Inv(Act(s, Expire), fx, fy)
  {
    ActOk(s, Expire);
    var a := s.x.h.arq;
    DirTimeout(a, s.y.h.arq, s.x.log, ReliableOnly(s.y.h.up), fx, fy);
    DirReceiverIdle(s.y.h.arq, a, s.y.log, ReliableOnly(s.x.h.up), fy, fx, Timeout(a));
  }

  /** What the place `k` holds once the frame at `i` is gone. */
  lemma WithoutAt<T>(s: seq<T>, i: nat, k: nat) returns (m: nat)
    requires i < |s| && k < |s| - 1
    ensures m == (if k < i then k else k + 1) && Without(s, i)[k] == s[m]
  {
    m := if k < i then k else k + 1;
  }

  lemma CarriesOneLess(link: seq<seq<u8>>, crc: bool, flights: seq<Flight>, i: nat)
    requires Carries(link, crc, flights) && i < |link|
    ensures Carries(Without(link, i), crc, Without(flights, i))
  {
    var b, f := Without(link, i), Without(flights, i);
    forall k | 0 <= k < |b|
      ensures Sendable(f[k].p) && b[k] == OnWire(f[k], crc)
    {
      var m := WithoutAt(link, i, k);
      var m' := WithoutAt(flights, i, k);
      CarriedAt(link, crc, flights, m);
    }
  }

  lemma CarriedAt(link: seq<seq<u8>>, crc: bool, flights: seq<Flight>, m: nat)
    requires Carries(link, crc, flights) && m < |link|
    ensures Sendable(flights[m].p) && link[m] == OnWire(flights[m], crc)
  {
  }

  lemma LoseKeeps(s: System, i: nat, fx: seq<Flight>, fy: seq<Flight>)
    requires Inv(s, fx, fy) && i < |s.back|
    ensures Inv(Act(s, Lose(i)), fx, Without(fy, i))
  {
    DirLoseAck(s.x.h.arq, s.y.h.arq, s.x.log, ReliableOnly(s.y.h.up), fx, fy, i);
    DirLoseData(s.y.h.arq, s.x.h.arq, s.y.log, ReliableOnly(s.x.h.up), fy, fx, i);
    CarriesOneLess(s.back, s.y.h.useCrc, fy, i);
  }

  /** Which packet a frame carries, when the next number is `n` and `received` packets have come in. */
  lemma FrameTaken(a: Arq, crc: bool, ok1: bool, ok2: bool, ok3: bool, n: nat, received: nat,
                   a': Arq, frame: Option<seq<u8>>) returns (f: Flight)
    requires ArqOk(a) && a.txseq == n % 8 && a.rxseq == received % 8
    requires (a', frame) == Dequeue(a, crc, ok1, ok2, ok3) && frame.Some?
    ensures Sendable(f.p) && f.n == n && f.ack == received && frame.value == OnWire(f, crc)
    ensures IsReliable(f.p.kind) ==> |a.unack| < WINDOW && a.rel != [] && f.p == a.rel[0]
  {
    var p := if a.unrel != [] && ok1 then a.unrel[0]
      else if |a.unack| < WINDOW && a.rel != [] && ok2 then a.rel[0]
      else Packet(Ack, []);
    f := Flight(p, n, received);
  }

  /** What a frame taken from an endpoint means: its unbounded number and acknowledgement. */
  lemma FrameSent(a: Arq, crc: bool, ok1: bool, ok2: bool, ok3: bool, log: seq<Packet>, received: nat,
                  a': Arq, frame: Option<seq<u8>>) returns (f: Flight)
    requires ArqOk(a) && LogInv(a, log) && a.rxseq == received % 8
    requires (a', frame) == Dequeue(a, crc, ok1, ok2, ok3) && frame.Some?
    ensures Sendable(f.p) && f.ack == received && frame.value == OnWire(f, crc)
    ensures LogInv(a', log) && Acked(a', log) == Acked(a, log) && a'.rxseq == a.rxseq
    ensures IsReliable(f.p.kind) ==>
      |a.unack| < WINDOW && a.rel != [] && f.n == Sent(a, log) < |log| && f.p == log[f.n]
  {
    f := FrameTaken(a, crc, ok1, ok2, ok3, Sent(a, log), received, a', frame);
    DequeueLog(a, crc, ok1, ok2, ok3, log, a');
    if a.rel != [] {
      NextInLog(a, log);
    }
  }

  lemma CarriesOneMore(link: seq<seq<u8>>, crc: bool, flights: seq<Flight>, bytes: seq<u8>, f: Flight)
    requires Carries(link, crc, flights) && Sendable(f.p) && bytes == OnWire(f, crc)
    ensures Carries(link + [bytes], crc, flights + [f])
  {
  }

  lemma FrameSentKeeps(s: System, a': Arq, bytes: seq<u8>, f: Flight, fx: seq<Flight>, fy: seq<Flight>, s': System)
    requires Inv(s, fx, fy) && ArqOk(a')
    requires s' == s.(x := s.x.(h := s.x.h.(arq := a')), out := s.out + [bytes])
    requires Sendable(f.p) && f.ack == |ReliableOnly(s.x.h.up)| && bytes == OnWire(f, s.x.h.useCrc)
    requires LogInv(a', s.x.log) && Acked(a', s.x.log) == Acked(s.x.h.arq, s.x.log) && a'.rxseq == s.x.h.arq.rxseq
    requires IsReliable(f.p.kind) ==>
      && |s.x.h.arq.unack| < WINDOW && s.x.h.arq.rel != []
      && f.n == Sent(s.x.h.arq, s.x.log) < |s.x.log| && f.p == s.x.log[f.n]
    ensures Inv(s', fx + [f], fy)
  {
    var h := s.x.h;
    DirSend(h.arq, s.y.h.arq, s.x.log, ReliableOnly(s.y.h.up), fx, fy, a', f);
    DirAck(s.y.h.arq, h.arq, s.y.log, ReliableOnly(h.up), fy, fx, a', f);
    CarriesOneMore(s.out, h.useCrc, fx, bytes, f);
  }

  lemma SendKeeps(s: System, ok1: bool, ok2: bool, ok3: bool, fx: seq<Flight>, fy: seq<Flight>, s': System)
      returns (fx': seq<Flight>)
    requires Inv(s, fx, fy) && s' == Act(s, Send(ok1, ok2, ok3))
    ensures Inv(s', fx', fy)
  {
    var h := s.x.h;
    DequeueOk(h.arq, h.useCrc, ok1, ok2, ok3);
    var (a', frame) := Dequeue(h.arq, h.useCrc, ok1, ok2, ok3);
    if frame.None? {
      fx' := fx;
      assert s.out + [] == s.out;
      assert s' == s;
    } else {
      var f := FrameSent(h.arq, h.useCrc, ok1, ok2, ok3, s.x.log, |ReliableOnly(h.up)|, a', frame);
      fx' := fx + [f];
      FrameSentKeeps(s, a', frame.value, f, fx, fy, s');
    }
  }

  lemma ReliableOnlySnoc(up: seq<Packet>, p: Packet)
    ensures ReliableOnly(up + [p]) == if IsReliable(p.kind) then ReliableOnly(up) + [p] else ReliableOnly(up)
  {
    assert (up + [p])[..|up|] == up && (up + [p])[|up|] == p;
    assert ReliableOnly(up) + [] == ReliableOnly(up);
  }

  lemma HandedUpReliably(a: Arq, up: seq<Packet>, f: Flight)
    ensures ReliableOnly(up + HandedUp(a, f.p, f.n % 8)) == Got(a, ReliableOnly(up), f)
  {
    var more := HandedUp(a, f.p, f.n % 8);
    if more == [] {
      assert up + more == up;
    } else {
      assert more == [f.p];
      ReliableOnlySnoc(up, f.p);
    }
  }

  /** The frame at the head of the link arrives: the bytes have the effect of the flight. */
  lemma FrameArrives(h: H5, crc: bool, f: Flight, bytes: seq<u8>, h': H5)
    requires Ok(h) && Idle(h.rx) && Sendable(f.p) && bytes == OnWire(f, crc)
    requires h' == FeedAll(h, bytes)
    ensures Idle(h'.rx) && h'.useCrc == h.useCrc
    ensures h'.arq == Received(h.arq, f.p, f.ack % 8, f.n % 8)
    ensures ReliableOnly(h'.up) == Got(h.arq, ReliableOnly(h.up), f)
  {
    FrameReceived(h, f.p, crc, f.ack % 8, f.n % 8);
    HandedUpReliably(h.arq, h.up, f);
  }

  lemma ArriveKeeps(s: System, fx: seq<Flight>, fy: seq<Flight>)
    requires Inv(s, fx, fy) && s.back != []
    ensures Inv(Act(s, Arrive), fx, fy[1..])
  {
    var h := s.x.h;
    var h' := FeedAll(h, s.back[0]);
    FrameArrives(h, s.y.h.useCrc, fy[0], s.back[0], h');
    DirReceive(s.y.h.arq, h.arq, s.y.log, ReliableOnly(h.up), fy, fx);
    DirArrival(h.arq, s.y.h.arq, s.x.log, ReliableOnly(s.y.h.up), fx, fy);
  }

  lemma ActKeeps(s: System, act: Action, fx: seq<Flight>, fy: seq<Flight>) returns (fx': seq<Flight>, fy': seq<Flight>)
    requires Inv(s, fx, fy)
    ensures Inv(Act(s, act), fx', fy')
  {
    fx', fy' := fx, fy;
    match act
    case Queue(p) => QueueKeeps(s, p, fx, fy);
    case Send(ok1, ok2, ok3) => fx' := SendKeeps(s, ok1, ok2, ok3, fx, fy, Act(s, act));
    case Arrive =>
      if s.back != [] {
        ArriveKeeps(s, fx, fy);
        fy' := fy[1..];
      }
    case Lose(i) =>
      if i < |s.back| {
        LoseKeeps(s, i, fx, fy);
        fy' := Without(fy, i);
      }
    case Expire => ExpireKeeps(s, fx, fy);
  }

  lemma DoKeeps(s: System, m: Move, fx: seq<Flight>, fy: seq<Flight>) returns (fx': seq<Flight>, fy': seq<Flight>)
    requires Inv(s, fx, fy)
    ensures Inv(Do(s, m), fx', fy')
  {
    match m
    case AtX(act) => fx', fy' := ActKeeps(s, act, fx, fy);
    case AtY(act) => fy', fx' := ActKeeps(Flip(s), act, fy, fx);
  }

  lemma {:induction false} RunKeeps(s: System, moves: seq<Move>, fx: seq<Flight>, fy: seq<Flight>)
      returns (fx': seq<Flight>, fy': seq<Flight>)
    requires Inv(s, fx, fy)
    ensures Inv(Run(s, moves), fx', fy')
    decreases |moves|
  {
    if moves == [] {
      fx', fy' := fx, fy;
    } else {
      fx', fy' := DoKeeps(s, moves[0], fx, fy);
      fx', fy' := RunKeeps(Do(s, moves[0]), moves[1..], fx', fy');
    }
  }

  lemma StartDir()
    ensures Dir(INITIAL_ARQ, INITIAL_ARQ, [], [], [], [])
  {
  }

  lemma StartInv(crcX: bool, crcY: bool)
    ensures Inv(Start(crcX, crcY), [], [])
  {
    StartDir();
    var s := Start(crcX, crcY);
    assert ReliableOnly(s.x.h.up) == [] && ReliableOnly(s.y.h.up) == [];
    assert Ok(s.x.h) && Ok(s.y.h);
  }

  /** The packets the user at `x`, or the one at `y`, wants sent reliably, in order, as far as they are no
      longer than a frame allows. */
  function Offers(moves: seq<Move>, atX: bool): seq<Packet> {
    if moves == [] then [] else Offer(moves[0], atX) + Offers(moves[1..], atX)
  }

  function Offer(m: Move, atX: bool): seq<Packet> {
    if m.AtX? == atX && m.act.Queue? && ForReliable(m.act.p) then [m.act.p] else []
  }

  lemma ActLogs(s: System, act: Action, s': System)
    requires Ok(s.x.h) && s' == Act(s, act)
    ensures s'.x.log == s.x.log + (if act.Queue? && ForReliable(act.p) then [act.p] else [])
    ensures s'.y.log == s.y.log
  {
    assert s.x.log + [] == s.x.log;
    if act.Queue? { LoggedExactly(s.x.log, act.p); }
  }

  lemma DoLogs(s: System, m: Move, s': System)
    requires Ok(s.x.h) && Ok(s.y.h) && s' == Do(s, m)
    ensures s'.x.log == s.x.log + Offer(m, true) && s'.y.log == s.y.log + Offer(m, false)
  {
    assert s.x.log + [] == s.x.log && s.y.log + [] == s.y.log;
    match m
    case AtX(act) => ActLogs(s, act, s');
    case AtY(act) => ActLogs(Flip(s), act, Flip(s'));
  }

  /** What is accepted for sending is all that is offered. */
  lemma {:induction false} LogsAreOffers(s: System, moves: seq<Move>, s': System)
    requires Ok(s.x.h) && Ok(s.y.h) && s' == Run(s, moves)
    ensures s'.x.log == s.x.log + Offers(moves, true) && s'.y.log == s.y.log + Offers(moves, false)
    decreases |moves|
  {
    if moves == [] {
      assert s.x.log + [] == s.x.log && s.y.log + [] == s.y.log;
    } else {
      var t := Do(s, moves[0]);
      DoLogs(s, moves[0], t);
      LogsAreOffers(t, moves[1..], s');
      Associative(s.x.log, Offer(moves[0], true), Offers(moves[1..], true));
      Associative(s.y.log, Offer(moves[0], false), Offers(moves[1..], false));
    }
  }

  lemma OffersAccepted(crcX: bool, crcY: bool, moves: seq<Move>, s: System)
    requires s == Run(Start(crcX, crcY), moves)
    ensures s.x.log == Offers(moves, true) && s.y.log == Offers(moves, false)
  {
    LogsAreOffers(Start(crcX, crcY), moves, s);
    assert [] + Offers(moves, true) == Offers(moves, true) && [] + Offers(moves, false) == Offers(moves, false);
  }

  /** Safety.  After any interleaving of queueing, sending, losing, receiving and timing out, what
      each side has received reliably is a prefix of what the other side's user wanted sent: in
      order, nothing skipped, nothing twice.  And a sender drops a packet as acknowledged only after
      it has been received. */
  lemma ReliableDelivery(crcX: bool, crcY: bool, moves: seq<Move>, s: System)
    requires s == Run(Start(crcX, crcY), moves)
    ensures ReliableOnly(s.y.h.up) <= Offers(moves, true)
    ensures ReliableOnly(s.x.h.up) <= Offers(moves, false)
    ensures 0 <= Acked(s.x.h.arq, Offers(moves, true)) <= |ReliableOnly(s.y.h.up)|
    ensures 0 <= Acked(s.y.h.arq, Offers(moves, false)) <= |ReliableOnly(s.x.h.up)|
  {
    OffersAccepted(crcX, crcY, moves, s);
    StartInv(crcX, crcY);
    var fx, fy := RunKeeps(Start(crcX, crcY), moves, [], []);
  }
}

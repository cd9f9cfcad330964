/** The link never wedges: from every state the two endpoints can get into, however many frames have
    been lost, there is a way on after which everything accepted for sending has been received and
    acknowledged on both sides.  Nothing goes wrong on that way: every frame sent arrives, every
    allocation succeeds, and the timer fires only where it is armed. */
module H5Progress {
  import opened Bytes
  import opened H5Frame
  import opened H5State
  import opened H5Receive
  import opened H5Sender
  import opened H5RoundTrip
  import opened H5GoBackN
  import opened H5Link
  import opened H5Runs
  import opened Wrappers

  /** Packets not yet acknowledged, on one side and on both. */
  function Work(a: Arq): nat { |a.unack| + |a.rel| }

  function Pending(s: System): nat { Work(s.x.h.arq) + Work(s.y.h.arq) }

  /** No frames on either link. */
  ghost predicate Calm(s: System) { Inv(s, [], []) }

  // ---- Clearing the links ----

  /** What receiving frames may do to the queues: drop packets that were acknowledged, and ask for an
      acknowledgement. */
  predicate Shrunk(a: Arq, a': Arq) {
    a'.rel == a.rel && a'.unrel == a.unrel && |a'.unack| <= |a.unack| && (a.ackReq ==> a'.ackReq)
  }

  lemma ReceivedShrinks(a: Arq, p: Packet, ack: nat, number: nat)
    requires ack < 8 && a.txseq < 8
    ensures Shrunk(a, Received(a, p, ack, number))
    ensures IsReliable(p.kind) ==> Received(a, p, ack, number).ackReq
  {
  }

  /** The head of the link to `x` arrives: what that does to the links, and what to `x`. */
  lemma HeadArrives(s: System, fx: seq<Flight>, fy: seq<Flight>, t: System)
    requires Inv(s, fx, fy) && s.back != [] && t == Do(s, AtX(Arrive))
    ensures Inv(t, fx, fy[1..]) && t == s.(x := s.x.(h := t.x.h), back := s.back[1..])
    ensures t.x.h.arq == Received(s.x.h.arq, fy[0].p, fy[0].ack % 8, fy[0].n % 8)
    ensures ReliableOnly(t.x.h.up) == Got(s.x.h.arq, ReliableOnly(s.x.h.up), fy[0])
  {
    ArriveKeeps(s, fx, fy);
    FrameArrives(s.x.h, s.y.h.useCrc, fy[0], s.back[0], t.x.h);
  }

  lemma DeliverHead(s: System, fx: seq<Flight>, fy: seq<Flight>, t: System)
    requires Inv(s, fx, fy) && s.back != [] && t == Do(s, AtX(Arrive))
    ensures Inv(t, fx, fy[1..]) && t == s.(x := s.x.(h := t.x.h), back := s.back[1..])
    ensures Shrunk(s.x.h.arq, t.x.h.arq)
  {
    HeadArrives(s, fx, fy, t);
    ReceivedShrinks(s.x.h.arq, fy[0].p, fy[0].ack % 8, fy[0].n % 8);
  }

  /** The only frame on the links arrives at `x`. */
  lemma OnlyFrameArrives(s: System, f: Flight, t: System)
    requires Inv(s, [], [f]) && t == Do(s, AtX(Arrive))
    ensures Calm(t) && t == s.(x := s.x.(h := t.x.h), back := [])
    ensures t.x.h.arq == Received(s.x.h.arq, f.p, f.ack % 8, f.n % 8)
    ensures ReliableOnly(t.x.h.up) == Got(s.x.h.arq, ReliableOnly(s.x.h.up), f)
  {
    HeadArrives(s, [], [f], t);
    assert |s.back| == 1;
    assert [f][1..] == [] && s.back[1..] == [];
  }

  /** Everything on its way to `x` arrives. */
  lemma {:induction false} ClearBack(s: System, fx: seq<Flight>, fy: seq<Flight>) returns (moves: seq<Move>, s': System)
    requires Inv(s, fx, fy)
    ensures Leads(s, moves, s') && Inv(s', fx, []) && Shrunk(s.x.h.arq, s'.x.h.arq)
    ensures s' == s.(x := s.x.(h := s'.x.h), back := [])
    decreases |s.back|
  {
    if s.back == [] {
      moves, s' := [], s;
    } else {
      var t := Do(s, AtX(Arrive));
      DeliverHead(s, fx, fy, t);
      OneMove(s, AtX(Arrive), t);
      var more;
      more, s' := ClearBack(t, fx, fy[1..]);
      Chain(s, [AtX(Arrive)], t, more, s');
      moves := [AtX(Arrive)] + more;
    }
  }

  /** Everything on its way to `y` arrives. */
  lemma ClearOut(s: System, fx: seq<Flight>, fy: seq<Flight>) returns (moves: seq<Move>, s': System)
    requires Inv(s, fx, fy)
    ensures Leads(s, moves, s') && Inv(s', [], fy) && Shrunk(s.y.h.arq, s'.y.h.arq)
    ensures s' == s.(y := s.y.(h := s'.y.h), out := [])
  {
    var n, u := ClearBack(Flip(s), fy, fx);
    s' := Flip(u);
    MirrorLeads(s, n, s');
    moves := MirrorAll(n);
  }

  lemma ClearLinks(s: System, fx: seq<Flight>, fy: seq<Flight>) returns (moves: seq<Move>, s': System)
    requires Inv(s, fx, fy)
    ensures Leads(s, moves, s') && Calm(s')
  {
    var m, t := ClearBack(s, fx, fy);
    var n;
    n, s' := ClearOut(t, fx, []);
    Chain(s, m, t, n, s');
    moves := m + n;
  }

  const GO := Send(true, true, true)

  function Next(a: Arq, crc: bool): Arq
    requires ArqOk(a)
  {
    Dequeue(a, crc, true, true, true).0
  }

  lemma SendShape(s: System, t: System)
    requires Calm(s) && t == Do(s, AtX(GO))
    ensures t == s.(x := s.x.(h := s.x.h.(arq := Next(s.x.h.arq, s.x.h.useCrc))), out := t.out)
  {
  }

  /** `x` sends a frame, and it arrives. */
  lemma Push(s: System) returns (moves: seq<Move>, s': System)
    requires Calm(s)
    ensures Leads(s, moves, s') && Calm(s') && Shrunk(s.y.h.arq, s'.y.h.arq)
    ensures s'.x == s.x.(h := s.x.h.(arq := Next(s.x.h.arq, s.x.h.useCrc)))
  {
    var t := Do(s, AtX(GO));
    var fx := SendKeeps(s, true, true, true, [], [], t);
    SendShape(s, t);
    OneMove(s, AtX(GO), t);
    var more;
    more, s' := ClearOut(t, fx, []);
    Chain(s, [AtX(GO)], t, more, s');
    moves := [AtX(GO)] + more;
  }

  // ---- What the next frame is ----

  lemma NextIsUnreliable(a: Arq, crc: bool)
    requires ArqOk(a) && a.unrel != []
    ensures Dequeue(a, crc, true, true, true).0 == a.(unrel := a.unrel[1..], ackReq := false)
  {
  }

  lemma NextIsReliable(a: Arq, crc: bool)
    requires ArqOk(a) && a.unrel == [] && |a.unack| < WINDOW && a.rel != []
    ensures Dequeue(a, crc, true, true, true) ==
      (a.(unack := a.unack + [a.rel[0]], rel := a.rel[1..], timer := true, ackReq := false, txseq := (a.txseq + 1) % 8),
       Some(Frame(a.rel[0], crc, a.rxseq, a.txseq)))
  {
    assert a.rel[0] in a.unack + a.rel;
  }

  /** Nothing but acknowledgements can be sent. */
  predicate Saturated(a: Arq) { a.unrel == [] && (|a.unack| >= WINDOW || a.rel == []) }

  lemma NextIsAck(a: Arq, crc: bool)
    requires ArqOk(a) && Saturated(a) && a.ackReq
    ensures Dequeue(a, crc, true, true, true) ==
      (a.(ackReq := false), Some(Frame(Packet(Ack, []), crc, a.rxseq, a.txseq)))
  {
  }

  lemma NextFills(a: Arq, crc: bool, a': Arq)
    requires ArqOk(a) && a.unrel == [] && !Saturated(a) && a' == Next(a, crc)
    ensures a'.unrel == [] && |a'.rel| < |a.rel| && Work(a') == Work(a)
  {
    NextIsReliable(a, crc);
  }

  lemma SaturatedInFlight(a: Arq)
    requires Saturated(a) && Work(a) > 0
    ensures a.unack != []
  {
  }

  // ---- Emptying the queues that stand in the way ----

  /** All unreliable packets of `x` are sent. */
  lemma {:induction false} Flush(s: System) returns (moves: seq<Move>, s': System)
    requires Calm(s)
    ensures Leads(s, moves, s') && Calm(s') && Shrunk(s.y.h.arq, s'.y.h.arq)
    ensures s'.x.h.arq == s.x.h.arq.(unrel := [], ackReq := s'.x.h.arq.ackReq)
    decreases |s.x.h.arq.unrel|
  {
    if s.x.h.arq.unrel == [] {
      moves, s' := [], s;
    } else {
      NextIsUnreliable(s.x.h.arq, s.x.h.useCrc);
      var m, t := Push(s);
      var more;
      more, s' := Flush(t);
      Chain(s, m, t, more, s');
      moves := m + more;
    }
  }

  /** `x` sends whatever its window allows. */
  lemma {:induction false} FillWindow(s: System) returns (moves: seq<Move>, s': System)
    requires Calm(s) && s.x.h.arq.unrel == []
    ensures Leads(s, moves, s') && Calm(s') && Shrunk(s.y.h.arq, s'.y.h.arq)
    ensures Saturated(s'.x.h.arq) && Work(s'.x.h.arq) == Work(s.x.h.arq)
    decreases |s.x.h.arq.rel|
  {
    var a := s.x.h.arq;
    if Saturated(a) {
      moves, s' := [], s;
    } else {
      NextFills(a, s.x.h.useCrc, Next(a, s.x.h.useCrc));
      var m, t := Push(s);
      var more;
      more, s' := FillWindow(t);
      Chain(s, m, t, more, s');
      moves := m + more;
    }
  }

  lemma Saturate(s: System) returns (moves: seq<Move>, s': System)
    requires Calm(s)
    ensures Leads(s, moves, s') && Calm(s') && Shrunk(s.y.h.arq, s'.y.h.arq)
    ensures Saturated(s'.x.h.arq) && Work(s'.x.h.arq) == Work(s.x.h.arq)
  {
    var m, t := Flush(s);
    var n;
    n, s' := FillWindow(t);
    Chain(s, m, t, n, s');
    moves := m + n;
  }

  // ---- A window of packets crosses ----

  /** The flight of the next reliable packet. */
  function NextFlight(s: System): Flight
    requires s.x.h.arq.rel != [] && Sent(s.x.h.arq, s.x.log) >= 0
  {
    Flight(s.x.h.arq.rel[0], Sent(s.x.h.arq, s.x.log), |ReliableOnly(s.x.h.up)|)
  }

  ghost predicate ReadyToSend(s: System) {
    var a := s.x.h.arq;
    Calm(s) && a.unrel == [] && |a.unack| < WINDOW && a.rel != []
  }

  /** The frame that is sent next is the only one on the links. */
  lemma SentAlone(s: System, a': Arq, f: Flight, s': System)
    requires Calm(s) && Sendable(f.p) && f.ack == |ReliableOnly(s.x.h.up)| && s' == Do(s, AtX(GO))
    requires Dequeue(s.x.h.arq, s.x.h.useCrc, true, true, true) == (a', Some(OnWire(f, s.x.h.useCrc)))
    requires LogInv(a', s.x.log) && Acked(a', s.x.log) == Acked(s.x.h.arq, s.x.log) && a'.rxseq == s.x.h.arq.rxseq
    requires IsReliable(f.p.kind) ==>
      && |s.x.h.arq.unack| < WINDOW && s.x.h.arq.rel != []
      && f.n == Sent(s.x.h.arq, s.x.log) < |s.x.log| && f.p == s.x.log[f.n]
    ensures Inv(s', [f], [])
    ensures s' == s.(x := s.x.(h := s.x.h.(arq := a')), out := [OnWire(f, s.x.h.useCrc)])
  {
    DequeueOk(s.x.h.arq, s.x.h.useCrc, true, true, true);
    assert s.out == [];
    FrameSentKeeps(s, a', OnWire(f, s.x.h.useCrc), f, [], [], s');
    assert [] + [f] == [f];
  }

  lemma Leaves(s: System, s': System)
    requires ReadyToSend(s) && s' == Do(s, AtX(GO))
    ensures Inv(s', [NextFlight(s)], [])
    ensures s' == s.(x := s.x.(h := s.x.h.(arq := s'.x.h.arq)), out := [OnWire(NextFlight(s), s.x.h.useCrc)])
    ensures s'.x.h.arq.unack == s.x.h.arq.unack + [s.x.h.arq.rel[0]] && s'.x.h.arq.rel == s.x.h.arq.rel[1..]
    ensures s'.x.h.arq.unrel == []
    ensures IsReliable(NextFlight(s).p.kind)
  {
    var a, f := s.x.h.arq, NextFlight(s);
    var a' := Dequeue(a, s.x.h.useCrc, true, true, true).0;
    NextIsReliable(a, s.x.h.useCrc);
    assert a.rel[0] in a.unack + a.rel;
    SendLog(a, s.x.log, a');
    SentAlone(s, a', f, s');
  }

  /** The packet arrives, and the peer now has at least that much and owes an acknowledgement. */
  lemma Lands(s: System, f: Flight, s': System)
    requires Inv(s, [f], []) && s' == Do(s, AtY(Arrive)) && IsReliable(f.p.kind)
    requires f.n <= |ReliableOnly(s.y.h.up)|
    ensures Calm(s') && s' == s.(y := s.y.(h := s'.y.h), out := [])
    ensures s'.y.h.arq.ackReq && s'.y.h.arq.unrel == s.y.h.arq.unrel && s'.y.h.arq.rel == s.y.h.arq.rel
    ensures |s'.y.h.arq.unack| <= |s.y.h.arq.unack|
    ensures f.n < |ReliableOnly(s'.y.h.up)|
  {
    OnlyFrameArrives(Flip(s), f, Flip(s'));
    ReceivedShrinks(s.y.h.arq, f.p, f.ack % 8, f.n % 8);
    OnLinkNotAliased(s, f);
  }

  lemma OnLinkNotAliased(s: System, f: Flight)
    requires Inv(s, [f], []) && IsReliable(f.p.kind) && f.n <= |ReliableOnly(s.y.h.up)|
    ensures f.n % 8 == s.y.h.arq.rxseq <==> f.n == |ReliableOnly(s.y.h.up)|
  {
    var one := [f];
    assert one[0] == f;
    NumberNotAliased(f.n, |ReliableOnly(s.y.h.up)|, Acked(s.x.h.arq, s.x.log));
  }

  lemma Cross(s: System) returns (moves: seq<Move>, s': System)
    requires ReadyToSend(s)
    requires Sent(s.x.h.arq, s.x.log) <= |ReliableOnly(s.y.h.up)|
    ensures Leads(s, moves, s') && Calm(s')
    ensures s'.x.h.arq.unack == s.x.h.arq.unack + [s.x.h.arq.rel[0]] && s'.x.h.arq.rel == s.x.h.arq.rel[1..]
    ensures s'.x.h.arq.unrel == [] && s'.x.log == s.x.log
    ensures s'.y.h.arq.ackReq && s'.y.h.arq.unrel == s.y.h.arq.unrel && s'.y.h.arq.rel == s.y.h.arq.rel
    ensures |s'.y.h.arq.unack| <= |s.y.h.arq.unack|
    ensures Sent(s'.x.h.arq, s'.x.log) <= |ReliableOnly(s'.y.h.up)|
  {
    var t := Do(s, AtX(GO));
    Leaves(s, t);
    s' := Do(t, AtY(Arrive));
    Lands(t, NextFlight(s), s');
    OneMove(s, AtX(GO), t);
    OneMove(t, AtY(Arrive), s');
    Chain(s, [AtX(GO)], t, [AtY(Arrive)], s');
    moves := [AtX(GO)] + [AtY(Arrive)];
  }

  /** What `x` has sent so far has arrived, the peer owes an acknowledgement for it, and has nothing else to
      send. */
  ghost predicate Crossing(s: System) {
    && s.x.h.arq.unrel == [] && Saturated(s.y.h.arq)
    && (s.x.h.arq.unack != [] ==> s.y.h.arq.ackReq)
    && Sent(s.x.h.arq, s.x.log) <= |ReliableOnly(s.y.h.up)|
  }

  ghost predicate WindowSent(s: System) { Crossing(s) && Saturated(s.x.h.arq) }

  /** One more packet crosses, unless the peer finds some of its own packets acknowledged by it. */
  lemma CrossOne(s: System) returns (moves: seq<Move>, s': System)
    requires ReadyToSend(s) && Crossing(s)
    ensures Leads(s, moves, s') && Calm(s') && Pending(s') <= Pending(s)
    ensures |s'.x.h.arq.rel| < |s.x.h.arq.rel| && Work(s'.x.h.arq) == Work(s.x.h.arq)
    ensures Pending(s') == Pending(s) ==> Crossing(s')
  {
    moves, s' := Cross(s);
  }

  /** The whole window crosses, with the same proviso. */
  lemma {:induction false} CrossWindow(s: System) returns (moves: seq<Move>, s': System)
    requires Calm(s) && Crossing(s)
    ensures Leads(s, moves, s') && Calm(s') && Pending(s') <= Pending(s)
    ensures Pending(s') == Pending(s) ==> WindowSent(s') && Work(s'.x.h.arq) == Work(s.x.h.arq)
    decreases |s.x.h.arq.rel|
  {
    if Saturated(s.x.h.arq) {
      moves, s' := [], s;
    } else {
      var m, t := CrossOne(s);
      if Pending(t) < Pending(s) {
        moves, s' := m, t;
      } else {
        var n;
        n, s' := CrossWindow(t);
        Chain(s, m, t, n, s');
        moves := m + n;
      }
    }
  }

  /** `x` owes an acknowledgement and sends it. */
  lemma AckLeaves(s: System, f: Flight, s': System)
    requires Calm(s) && Saturated(s.x.h.arq) && s.x.h.arq.ackReq && s' == Do(s, AtX(GO))
    requires f == Flight(Packet(Ack, []), Sent(s.x.h.arq, s.x.log), |ReliableOnly(s.x.h.up)|)
    ensures Inv(s', [f], [])
    ensures s' == s.(x := s.x.(h := s.x.h.(arq := s.x.h.arq.(ackReq := false))), out := [OnWire(f, s.x.h.useCrc)])
  {
    var a := s.x.h.arq;
    NextIsAck(a, s.x.h.useCrc);
    LogSame(a, a.(ackReq := false), s.x.log);
    SentAlone(s, a.(ackReq := false), f, s');
  }

  /** The acknowledgement of everything sent empties the window. */
  lemma WindowEmptied(a: Arq, log: seq<Packet>, received: nat)
    requires LogInv(a, log) && a.txseq < 8
    requires Acked(a, log) <= received <= Acked(a, log) + WINDOW && Sent(a, log) <= received <= |log|
    requires Saturated(a)
    ensures var r := Received(a, Packet(Ack, []), received % 8, 0);
      r.unack == [] && r.rel == a.rel
  {
    AckNotAliased(received, Acked(a, log), |a.unack|);
  }

  lemma AckLands(s: System, f: Flight, s': System)
    requires Inv(s, [], [f]) && s' == Do(s, AtX(Arrive))
    requires f.p == Packet(Ack, []) && f.ack == |ReliableOnly(s.y.h.up)|
    requires Saturated(s.x.h.arq) && Sent(s.x.h.arq, s.x.log) <= |ReliableOnly(s.y.h.up)|
    ensures Calm(s') && s' == s.(x := s.x.(h := s'.x.h), back := [])
    ensures s'.x.h.arq.unack == [] && s'.x.h.arq.rel == s.x.h.arq.rel
  {
    OnlyFrameArrives(s, f, s');
    WindowEmptied(s.x.h.arq, s.x.log, f.ack);
  }

  lemma PeerAcknowledges(s: System, f: Flight, t: System)
    requires Calm(s) && Saturated(s.y.h.arq) && s.y.h.arq.ackReq && t == Do(s, AtY(GO))
    requires f == Flight(Packet(Ack, []), Sent(s.y.h.arq, s.y.log), |ReliableOnly(s.y.h.up)|)
    ensures Inv(t, [], [f]) && t.x == s.x && t.y.h.up == s.y.h.up
    ensures t.y.h.arq == s.y.h.arq.(ackReq := false)
  {
    AckLeaves(Flip(s), f, Flip(t));
  }

  /** The peer acknowledges: the whole window is dropped. */
  lemma AcknowledgeWindow(s: System) returns (moves: seq<Move>, s': System)
    requires Calm(s) && WindowSent(s) && s.x.h.arq.unack != []
    ensures Leads(s, moves, s') && Calm(s') && Pending(s') < Pending(s)
  {
    var f := Flight(Packet(Ack, []), Sent(s.y.h.arq, s.y.log), |ReliableOnly(s.y.h.up)|);
    var t := Do(s, AtY(GO));
    PeerAcknowledges(s, f, t);
    s' := Do(t, AtX(Arrive));
    AckLands(t, f, s');
    OneMove(s, AtY(GO), t);
    OneMove(t, AtX(Arrive), s');
    Chain(s, [AtY(GO)], t, [AtX(Arrive)], s');
    moves := [AtY(GO)] + [AtX(Arrive)];
  }

  // ---- Putting it together ----

  lemma TimerFires(s: System, s': System)
    requires Calm(s) && s.x.h.arq.timer && s' == Do(s, AtX(Expire))
    ensures Leads(s, [AtX(Expire)], s') && Calm(s') && s'.y == s.y
    ensures s'.x.h.arq.unack == [] && s'.x.h.arq.rel == s.x.h.arq.unack + s.x.h.arq.rel
  {
    ExpireKeeps(s, [], []);
    OneMove(s, AtX(Expire), s');
  }

  lemma FlipCalm(s: System)
    requires Calm(s)
    ensures Calm(Flip(s)) && Pending(Flip(s)) == Pending(s)
  {
  }

  lemma SaturatePeer(s: System) returns (moves: seq<Move>, s': System)
    requires Calm(s)
    ensures Leads(s, moves, s') && Calm(s') && Shrunk(s.x.h.arq, s'.x.h.arq)
    ensures Saturated(s'.y.h.arq) && Work(s'.y.h.arq) == Work(s.y.h.arq)
  {
    FlipCalm(s);
    var m, t := Saturate(Flip(s));
    s' := Flip(t);
    FlipCalm(t);
    MirrorLeads(s, m, s');
    moves := MirrorAll(m);
  }

  /** Anything in flight was lost, or its acknowledgement was; the timer is armed then, and fires. */
  lemma TakeBack(s: System) returns (moves: seq<Move>, s': System)
    requires Calm(s)
    ensures Leads(s, moves, s') && Calm(s') && s'.y == s.y
    ensures s'.x.h.arq.unack == [] && |s'.x.h.arq.rel| == Work(s.x.h.arq)
  {
    if s.x.h.arq.unack == [] {
      moves, s' := [], s;
    } else {
      moves, s' := [AtX(Expire)], Do(s, AtX(Expire));
      TimerFires(s, s');
    }
  }

  lemma TakeBackAndFlush(s: System) returns (moves: seq<Move>, s': System)
    requires Calm(s)
    ensures Leads(s, moves, s') && Calm(s') && Shrunk(s.y.h.arq, s'.y.h.arq)
    ensures s'.x.h.arq.unack == [] && s'.x.h.arq.unrel == [] && |s'.x.h.arq.rel| == Work(s.x.h.arq)
  {
    var m, t := TakeBack(s);
    var n;
    n, s' := Flush(t);
    Chain(s, m, t, n, s');
    moves := m + n;
  }

  /** The peer's queues are out of the way, and `x` is about to send its window (again), unless some
      packet was acknowledged on the way. */
  lemma Prepared(s: System) returns (moves: seq<Move>, s': System)
    requires Calm(s) && Work(s.x.h.arq) > 0
    ensures Leads(s, moves, s') && Calm(s') && Pending(s') <= Pending(s)
    ensures Pending(s') == Pending(s) ==> Crossing(s') && Work(s'.x.h.arq) > 0
  {
    var m, t := SaturatePeer(s);
    var n;
    n, s' := TakeBackAndFlush(t);
    Chain(s, m, t, n, s');
    moves := m + n;
  }

  lemma WindowCrossesOrProgress(s: System) returns (moves: seq<Move>, s': System)
    requires Calm(s) && Work(s.x.h.arq) > 0
    ensures Leads(s, moves, s') && Calm(s')
    ensures Pending(s') < Pending(s) || (Pending(s') == Pending(s) && WindowSent(s') && s'.x.h.arq.unack != [])
  {
    moves, s' := Prepared(s);
    if Pending(s') == Pending(s) {
      var t, n := s', moves;
      var k;
      k, s' := CrossWindow(t);
      if Pending(s') == Pending(s) { SaturatedInFlight(s'.x.h.arq); }
      Chain(s, n, t, k, s');
      moves := n + k;
    }
  }

  /** With something pending at `x`, some faultless run makes progress. */
  lemma MakeProgress(s: System) returns (moves: seq<Move>, s': System)
    requires Calm(s) && Work(s.x.h.arq) > 0
    ensures Leads(s, moves, s') && Calm(s') && Pending(s') < Pending(s)
  {
    moves, s' := WindowCrossesOrProgress(s);
    if Pending(s') == Pending(s) {
      var t := s';
      var k;
      k, s' := AcknowledgeWindow(t);
      Chain(s, moves, t, k, s');
      moves := moves + k;
    }
  }

  lemma {:induction false} DrainCalm(s: System) returns (moves: seq<Move>, s': System)
    requires Calm(s)
    ensures Leads(s, moves, s') && Calm(s') && Pending(s') == 0
    decreases Pending(s)
  {
    if Pending(s) == 0 {
      moves, s' := [], s;
    } else {
      var m, t;
      if Work(s.x.h.arq) > 0 {
        m, t := MakeProgress(s);
      } else {
        var n, u := MakeProgress(Flip(s));
        m, t := MirrorAll(n), Flip(u);
        MirrorLeads(s, n, t);
      }
      var more;
      more, s' := DrainCalm(t);
      Chain(s, m, t, more, s');
      moves := m + more;
    }
  }

  /** With nothing pending on calm links, everything has been received. */
  lemma NothingPending(s: System)
    requires Calm(s) && Pending(s) == 0
    ensures ReliableOnly(s.y.h.up) == s.x.log && ReliableOnly(s.x.h.up) == s.y.log
    ensures s.x.h.arq.unack == s.x.h.arq.rel == [] && s.y.h.arq.unack == s.y.h.arq.rel == []
  {
  }

  lemma DrainAll(crcX: bool, crcY: bool, past: seq<Move>, s: System) returns (moves: seq<Move>, s': System)
    requires s == Run(Start(crcX, crcY), past)
    ensures AllFaultless(s, moves) && s' == Run(s, moves)
    ensures ReliableOnly(s'.y.h.up) == s.x.log && ReliableOnly(s'.x.h.up) == s.y.log
    ensures s'.x.h.arq.unack == s'.x.h.arq.rel == [] && s'.y.h.arq.unack == s'.y.h.arq.rel == []
  {
    StartInv(crcX, crcY);
    var fx, fy := RunKeeps(Start(crcX, crcY), past, [], []);
    var m, t := ClearLinks(s, fx, fy);
    var n;
    n, s' := DrainCalm(t);
    Chain(s, m, t, n, s');
    moves := m + n;
    NothingPending(s');
    FaultlessKeepsLogs(s, moves);
  }

  /** From every reachable state there is a way on on which nothing is queued and nothing goes wrong, and
      after which each side has received exactly what the user of the other wanted sent reliably, and all of
      it has been acknowledged. */
  lemma NeverWedged(crcX: bool, crcY: bool, past: seq<Move>, s: System) returns (moves: seq<Move>, s': System)
    requires s == Run(Start(crcX, crcY), past)
    ensures AllFaultless(s, moves) && s' == Run(s, moves)
    ensures ReliableOnly(s'.y.h.up) == Offers(past, true) && ReliableOnly(s'.x.h.up) == Offers(past, false)
    ensures s'.x.h.arq.unack == s'.x.h.arq.rel == [] && s'.y.h.arq.unack == s'.y.h.arq.rel == []
  {
    moves, s' := DrainAll(crcX, crcY, past, s);
    OffersAccepted(crcX, crcY, past, s);
  }
}

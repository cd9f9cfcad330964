/** One endpoint on its own, with no assumption about the other end: whatever bytes arrive, the
    sender never loses, duplicates or reorders a packet it has accepted. */
module H5Log {
  import opened Bytes
  import opened H5Frame
  import opened H5State
  import opened H5Receive
  import opened H5Sender
  import opened Wrappers

  /** The sender's log is intact, and at least `acked` of its packets have been acknowledged. */
  ghost predicate LogAtLeast(a: Arq, log: seq<Packet>, acked: int) {
    LogInv(a, log) && Acked(a, log) >= acked
  }

  /** The end of a field leaves the protocol state alone, asks for an acknowledgement, or accepts. */
  lemma AdvanceEffect(h: H5, a': Arq)
    requires Ok(h) && FieldDone(h.rx) && a' == Advance(h).arq
    ensures var b := h.rx.skb.data[0];
      || a' == h.arq || a' == h.arq.(ackReq := true)
      || a' == Accept(h.arq, ReliableBit(b), AckField(b))
  {
  }

  /** Any acknowledgement, true or forged, only drops packets from the head of the window. */
  lemma EffectKeepsLog(a: Arq, a': Arq, log: seq<Packet>, acked: int, reliable: bool, ack: nat)
    requires LogAtLeast(a, log, acked) && a.txseq < 8 && ack < 8
    requires a' == a || a' == a.(ackReq := true) || a' == Accept(a, reliable, ack)
    ensures LogAtLeast(a', log, acked)
  {
    if a' == Accept(a, reliable, ack) {
      AcceptLog(a, log, reliable, ack, a');
    } else {
      LogSame(a, a', log);
    }
  }

  lemma AdvanceKeepsLog(h: H5, a': Arq, log: seq<Packet>, acked: int)
    requires Ok(h) && FieldDone(h.rx) && LogAtLeast(h.arq, log, acked) && a' == Advance(h).arq
    ensures LogAtLeast(a', log, acked)
  {
    var b := h.rx.skb.data[0];
    AdvanceEffect(h, a');
    EffectKeepsLog(h.arq, a', log, acked, ReliableBit(b), AckField(b));
  }

  lemma {:induction false} FeedKeepsLog(h: H5, b: u8, log: seq<Packet>, acked: int)
    requires Ok(h) && LogAtLeast(h.arq, log, acked)
    ensures LogAtLeast(Feed(h, b).arq, log, acked)
    decreases Rank(h.rx)
  {
    TurnOk(h, b);
    if h.rx.count == 0 && FieldDone(h.rx) {
      AdvanceKeepsLog(h, Advance(h).arq, log, acked);
    }
    var (h', consumed) := Turn(h, b);
    if !consumed {
      FeedKeepsLog(h', b, log, acked);
    }
  }

  lemma {:induction false} FeedAllKeepsLog(h: H5, s: seq<u8>, log: seq<Packet>, acked: int)
    requires Ok(h) && LogAtLeast(h.arq, log, acked)
    ensures LogAtLeast(FeedAll(h, s).arq, log, acked)
    decreases |s|
  {
    if s != [] {
      FeedKeepsLog(h, s[0], log, acked);
      FeedAllKeepsLog(Feed(h, s[0]), s[1..], log, acked);
    }
  }

  lemma DequeueKeepsLog(a: Arq, crc: bool, ok1: bool, ok2: bool, ok3: bool, log: seq<Packet>, acked: int)
    requires ArqOk(a) && LogAtLeast(a, log, acked)
    ensures LogAtLeast(Dequeue(a, crc, ok1, ok2, ok3).0, log, acked)
  {
    DequeueLog(a, crc, ok1, ok2, ok3, log, Dequeue(a, crc, ok1, ok2, ok3).0);
  }

  // ---- Runs ----

  datatype Event =
    | Queued(p: Packet)
    | Asked(ok1: bool, ok2: bool, ok3: bool)
    | Heard(bytes: seq<u8>)
    | TimedOut

  function Handle(h: H5, e: Event): (h': H5)
    requires Ok(h)
    ensures Ok(h')
  {
    match e
    case Queued(p) => EnqueueOk(h.arq, p); h.(arq := Enqueue(h.arq, p))
    case Asked(ok1, ok2, ok3) =>
      DequeueOk(h.arq, h.useCrc, ok1, ok2, ok3);
      h.(arq := Dequeue(h.arq, h.useCrc, ok1, ok2, ok3).0)
    case Heard(bytes) => FeedAll(h, bytes)
    case TimedOut => TimeoutOk(h.arq); h.(arq := Timeout(h.arq))
  }

  function HandleAll(h: H5, es: seq<Event>): (h': H5)
    requires Ok(h)
    ensures Ok(h')
    decreases |es|
  {
    if es == [] then h else HandleAll(Handle(h, es[0]), es[1..])
  }

  /** The reliable packets accepted for sending in a run. */
  function LogOf(log: seq<Packet>, es: seq<Event>): seq<Packet>
    decreases |es|
  {
    if es == [] then log
    else LogOf(if es[0].Queued? then Logged(log, es[0].p) else log, es[1..])
  }

  /** The packets a user wants sent reliably, in order, as far as they are no longer than a frame allows. */
  function ReliableOffers(es: seq<Event>): seq<Packet> {
    if es == [] then []
    else (if es[0].Queued? && ForReliable(es[0].p) then [es[0].p] else []) + ReliableOffers(es[1..])
  }

  /** And those to be sent without acknowledgement. */
  function UnreliableOffers(es: seq<Event>): seq<Packet> {
    if es == [] then []
    else (if es[0].Queued? && ForUnreliable(es[0].p) then [es[0].p] else []) + UnreliableOffers(es[1..])
  }

  /** What is accepted is all that is offered. */
  lemma {:induction false} LogIsOffers(log: seq<Packet>, es: seq<Event>)
    ensures LogOf(log, es) == log + ReliableOffers(es)
    decreases |es|
  {
    if es != [] {
      var one := if es[0].Queued? && ForReliable(es[0].p) then [es[0].p] else [];
      var log' := if es[0].Queued? then Logged(log, es[0].p) else log;
      LoggedEvent(log, es[0], log', one);
      LogIsOffers(log', es[1..]);
      Associative(log, one, ReliableOffers(es[1..]));
    } else {
      assert log + [] == log;
    }
  }

  lemma LoggedEvent(log: seq<Packet>, e: Event, log': seq<Packet>, one: seq<Packet>)
    requires log' == if e.Queued? then Logged(log, e.p) else log
    requires one == if e.Queued? && ForReliable(e.p) then [e.p] else []
    ensures log' == log + one
  {
    if e.Queued? { LoggedExactly(log, e.p); }
    assert log + [] == log;
  }

  lemma {:induction false} RunKeepsLog(h: H5, es: seq<Event>, log: seq<Packet>, acked: int)
    requires Ok(h) && LogAtLeast(h.arq, log, acked)
    ensures LogAtLeast(HandleAll(h, es).arq, LogOf(log, es), acked)
    decreases |es|
  {
    if es != [] {
      match es[0] {
        case Queued(p) => EnqueueLog(h.arq, log, p);
        case Asked(ok1, ok2, ok3) => DequeueKeepsLog(h.arq, h.useCrc, ok1, ok2, ok3, log, acked);
        case Heard(bytes) => FeedAllKeepsLog(h, bytes, log, acked);
        case TimedOut => TimeoutLog(h.arq, log);
      }
      RunKeepsLog(Handle(h, es[0]), es[1..], if es[0].Queued? then Logged(log, es[0].p) else log, acked);
    }
  }

  /** After every run from power-up, with arbitrary bytes arriving: what was acknowledged, what is in
      flight and what is waiting are exactly the packets offered, in order; at most four are in
      flight; the next number is the count of packets sent, modulo 8; and the retransmission timer
      runs whenever anything is in flight.  What has once been acknowledged stays so. */
  lemma SenderLog(crc: bool, es: seq<Event>, more: seq<Event>)
    ensures LogInv(HandleAll(Initial(crc), es).arq, ReliableOffers(es))
    ensures var h := HandleAll(Initial(crc), es);
      LogAtLeast(HandleAll(h, more).arq, ReliableOffers(es) + ReliableOffers(more), Acked(h.arq, ReliableOffers(es)))
  {
    LogFromStart(crc, es);
    LogAfterMore(HandleAll(Initial(crc), es), ReliableOffers(es), more);
  }

  lemma LogFromStart(crc: bool, es: seq<Event>)
    ensures LogInv(HandleAll(Initial(crc), es).arq, ReliableOffers(es))
  {
    OffersFromStart(es);
    RunKeepsLog(Initial(crc), es, [], 0);
  }

  lemma LogAfterMore(h: H5, log: seq<Packet>, more: seq<Event>)
    requires Ok(h) && LogInv(h.arq, log)
    ensures LogAtLeast(HandleAll(h, more).arq, log + ReliableOffers(more), Acked(h.arq, log))
  {
    LogIsOffers(log, more);
    RunKeepsLog(h, more, log, Acked(h.arq, log));
  }

  lemma OffersFromStart(es: seq<Event>)
    ensures LogOf([], es) == ReliableOffers(es)
  {
    LogIsOffers([], es);
    assert [] + ReliableOffers(es) == ReliableOffers(es);
  }

  // ---- What leaves without acknowledgement ----

  /** What a frame was built from, and whether the packet came from the queue of unreliable ones. */
  datatype Departure = Departure(p: Packet, ack: nat, number: nat, queued: bool)

  /** The frames that go out. */
  function Emitted(h: H5, e: Event): seq<seq<u8>>
    requires Ok(h)
  {
    if !e.Asked? then []
    else
      match Dequeue(h.arq, h.useCrc, e.ok1, e.ok2, e.ok3).1
      case Some(frame) => [frame]
      case None => []
  }

  function AllEmitted(h: H5, es: seq<Event>): seq<seq<u8>>
    requires Ok(h)
    decreases |es|
  {
    if es == [] then [] else Emitted(h, es[0]) + AllEmitted(Handle(h, es[0]), es[1..])
  }

  /** The frames are those of the departures, and each departure says truly where its packet came from. */
  ghost predicate Departs(frames: seq<seq<u8>>, crc: bool, ds: seq<Departure>) {
    && |frames| == |ds|
    && forall i :: 0 <= i < |ds| ==> DepartsAs(frames[i], crc, ds[i])
  }

  ghost predicate DepartsAs(frame: seq<u8>, crc: bool, d: Departure) {
    && Sendable(d.p) && d.ack < 8 && d.number < 8 && frame == Frame(d.p, crc, d.ack, d.number)
    && (if d.queued then ForUnreliable(d.p) else IsReliable(d.p.kind) || d.p == Packet(Ack, []))
  }

  function Unacknowledged(ds: seq<Departure>): seq<Packet> {
    if ds == [] then [] else (if ds[0].queued then [ds[0].p] else []) + Unacknowledged(ds[1..])
  }

  lemma {:induction false} UnacknowledgedAppend(c: seq<Departure>, d: seq<Departure>)
    ensures Unacknowledged(c + d) == Unacknowledged(c) + Unacknowledged(d)
  {
    if c == [] {
      assert c + d == d;
    } else {
      assert (c + d)[1..] == c[1..] + d && (c + d)[0] == c[0];
      UnacknowledgedAppend(c[1..], d);
      Associative(if c[0].queued then [c[0].p] else [], Unacknowledged(c[1..]), Unacknowledged(d));
    }
  }

  lemma {:induction false} FeedKeepsUnreliable(h: H5, b: u8)
    requires Ok(h)
    ensures Feed(h, b).arq.unrel == h.arq.unrel && Feed(h, b).useCrc == h.useCrc
    decreases Rank(h.rx)
  {
    TurnOk(h, b);
    if h.rx.count == 0 && FieldDone(h.rx) {
      AdvanceEffect(h, Advance(h).arq);
    }
    var (h', consumed) := Turn(h, b);
    if !consumed {
      FeedKeepsUnreliable(h', b);
    }
  }

  lemma {:induction false} FeedAllKeepsUnreliable(h: H5, s: seq<u8>)
    requires Ok(h)
    ensures FeedAll(h, s).arq.unrel == h.arq.unrel && FeedAll(h, s).useCrc == h.useCrc
    decreases |s|
  {
    if s != [] {
      FeedKeepsUnreliable(h, s[0]);
      FeedAllKeepsUnreliable(Feed(h, s[0]), s[1..]);
    }
  }

  /** The frame that goes out is that of the packet that leaves its queue, or of an acknowledgement. */
  lemma AskedDeparts(a: Arq, crc: bool, ok1: bool, ok2: bool, ok3: bool, a': Arq, frame: Option<seq<u8>>)
      returns (ds: seq<Departure>)
    requires ArqOk(a) && (a', frame) == Dequeue(a, crc, ok1, ok2, ok3)
    ensures frame.None? ==> ds == [] && a'.unrel == a.unrel
    ensures frame.Some? ==> |ds| == 1 && DepartsAs(frame.value, crc, ds[0])
    ensures frame.Some? ==> a.unrel == (if ds[0].queued then [ds[0].p] else []) + a'.unrel
  {
    if frame.None? {
      ds := [];
    } else if a.unrel != [] && ok1 {
      assert a.unrel[0] in a.unrel;
      ds := [Departure(a.unrel[0], a.rxseq, a.txseq, true)];
    } else {
      var p := if |a.unack| < WINDOW && a.rel != [] && ok2 then a.rel[0] else Packet(Ack, []);
      assert a.rel != [] ==> a.rel[0] in a.unack + a.rel;
      ds := [Departure(p, a.rxseq, a.txseq, false)];
      assert [] + a.unrel == a.unrel;
    }
  }

  lemma UnacknowledgedOne(d: Departure)
    ensures Unacknowledged([d]) == if d.queued then [d.p] else []
  {
    assert [d][1..] == [];
  }

  lemma FrameDeparts(h: H5, e: Event, a': Arq) returns (ds: seq<Departure>)
    requires Ok(h) && e.Asked? && a' == Dequeue(h.arq, h.useCrc, e.ok1, e.ok2, e.ok3).0
    ensures Departs(Emitted(h, e), h.useCrc, ds) && Unacknowledged(ds) + a'.unrel == h.arq.unrel
  {
    var frame := Dequeue(h.arq, h.useCrc, e.ok1, e.ok2, e.ok3).1;
    ds := AskedDeparts(h.arq, h.useCrc, e.ok1, e.ok2, e.ok3, a', frame);
    if frame.Some? {
      UnacknowledgedOne(ds[0]);
    } else {
      assert [] + a'.unrel == a'.unrel;
    }
  }

  lemma HandleDeparts(h: H5, e: Event, h': H5) returns (ds: seq<Departure>)
    requires Ok(h) && h' == Handle(h, e)
    ensures Departs(Emitted(h, e), h.useCrc, ds) && h'.useCrc == h.useCrc
    ensures Unacknowledged(ds) + h'.arq.unrel ==
      h.arq.unrel + if e.Queued? && ForUnreliable(e.p) then [e.p] else []
  {
    if e.Asked? {
      ds := FrameDeparts(h, e, h'.arq);
      assert h.arq.unrel + [] == h.arq.unrel;
    } else {
      ds := [];
      assert [] + h'.arq.unrel == h'.arq.unrel;
      QueueChanges(h, e, h');
    }
  }

  lemma QueueChanges(h: H5, e: Event, h': H5)
    requires Ok(h) && !e.Asked? && h' == Handle(h, e)
    ensures h'.arq.unrel == h.arq.unrel + if e.Queued? && ForUnreliable(e.p) then [e.p] else []
    ensures h'.useCrc == h.useCrc
  {
    match e
    case Queued(p) => EnqueueExactly(h.arq, p);
    case Heard(bytes) => FeedAllKeepsUnreliable(h, bytes);
    case TimedOut =>
  }

  lemma DepartsAppend(f: seq<seq<u8>>, g: seq<seq<u8>>, crc: bool, c: seq<Departure>, d: seq<Departure>)
    requires Departs(f, crc, c) && Departs(g, crc, d)
    ensures Departs(f + g, crc, c + d)
  {
    forall i | 0 <= i < |c + d|
      ensures DepartsAs((f + g)[i], crc, (c + d)[i])
    {
      if i < |c| {
        DepartsAt(f, crc, c, i);
      } else {
        DepartsAt(g, crc, d, i - |c|);
      }
    }
  }

  lemma DepartsAt(frames: seq<seq<u8>>, crc: bool, ds: seq<Departure>, i: nat)
    requires Departs(frames, crc, ds) && i < |ds|
    ensures DepartsAs(frames[i], crc, ds[i])
  {
  }

  lemma Shuffle<T>(a: seq<T>, b: seq<T>, q: seq<T>, q': seq<T>, q'': seq<T>, c: seq<T>, d: seq<T>)
    requires a + q' == q + c && b + q'' == q' + d
    ensures a + b + q'' == q + (c + d)
  {
    assert a + b + q'' == a + (b + q'');
    assert a + (q' + d) == a + q' + d;
    assert q + c + d == q + (c + d);
  }

  lemma {:induction false} RunDeparts(h: H5, es: seq<Event>) returns (ds: seq<Departure>)
    requires Ok(h)
    ensures Departs(AllEmitted(h, es), h.useCrc, ds)
    ensures Unacknowledged(ds) + HandleAll(h, es).arq.unrel == h.arq.unrel + UnreliableOffers(es)
    decreases |es|
  {
    ds := [];
    if es != [] {
      var h' := Handle(h, es[0]);
      var c := HandleDeparts(h, es[0], h');
      var d := RunDeparts(h', es[1..]);
      ds := c + d;
      DepartsAppend(Emitted(h, es[0]), AllEmitted(h', es[1..]), h.useCrc, c, d);
      UnacknowledgedAppend(c, d);
      var one := if es[0].Queued? && ForUnreliable(es[0].p) then [es[0].p] else [];
      Shuffle(Unacknowledged(c), Unacknowledged(d), h.arq.unrel, h'.arq.unrel, HandleAll(h', es[1..]).arq.unrel,
              one, UnreliableOffers(es[1..]));
    }
  }

  /** In every run from power-up, whatever arrives: the packets sent without acknowledgement leave in the
      order they were offered, one frame each, and those that have not left are still queued. */
  lemma UnreliableInOrder(crc: bool, es: seq<Event>) returns (ds: seq<Departure>)
    ensures Departs(AllEmitted(Initial(crc), es), crc, ds)
    ensures Unacknowledged(ds) + HandleAll(Initial(crc), es).arq.unrel == UnreliableOffers(es)
  {
    ds := RunDeparts(Initial(crc), es);
    assert [] + UnreliableOffers(es) == UnreliableOffers(es);
  }

  // ---- The receive buffer ----

  /** In every run, whatever bytes arrive: what has been received and what is still awaited make up the
      field being read and those before it, which never exceeds the buffer; bytes are awaited only while
      the buffer is there; and every buffer allocated has been freed or handed up once, or is that one. */
  lemma BufferAccounting(crc: bool, es: seq<Event>, h: H5)
    requires h == HandleAll(Initial(crc), es)
    ensures h.rx.skb.Live? ==> |h.rx.skb.data| + h.rx.count <= 0x1005
    ensures h.rx.skb.Live? <==> h.rx.state.W4Header? || h.rx.state.W4Data? || h.rx.state.W4Crc?
    ensures h.rx.count > 0 ==> h.rx.skb.Live?
    ensures h.rx.state.W4Header? ==> |h.rx.skb.data| + h.rx.count == 4
    ensures h.rx.state.W4Data? ==>
      (var d := h.rx.skb.data; |d| >= 4 && |d| + h.rx.count == 4 + LengthField(d[1], d[2]))
    ensures h.rx.state.W4Crc? ==>
      (var d := h.rx.skb.data; |d| >= 4 && |d| + h.rx.count == 6 + LengthField(d[1], d[2]))
    ensures h.rx.allocs == h.rx.frees + |h.up| + if h.rx.skb.Live? then 1 else 0
  {
    assert RxOk(h.rx) && Accounted(h);
  }
}

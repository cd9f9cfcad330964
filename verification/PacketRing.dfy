/** The ring of received packets behind the character device, and the byte stream a reader sees. */
module PacketRing {
  import opened Bytes
  import opened Wrappers

  const QUEUE_SIZE: nat := 500

  // ---- The reference: a bounded queue of packets, read as bytes ----

  /** A new packet goes to the end, unless the queue is full. */
  function Put(c: seq<seq<u8>>, p: seq<u8>): seq<seq<u8>> {
    if |c| < 499 then c + [p] else c
  }

  /** A reader gets at most `count` bytes, and never more than what is left of the oldest packet. */
  function Taken(c: seq<seq<u8>>, count: nat): seq<u8>
    requires c != []
  {
    if count >= |c[0]| then c[0] else c[0][..count]
  }

  function AfterTaking(c: seq<seq<u8>>, count: nat): seq<seq<u8>>
    requires c != []
  {
    if count >= |c[0]| then c[1..] else [c[0][count..]] + c[1..]
  }

  /** A read of the character device: the bytes returned, or `None` if the reader has to wait. */
  function Get(c: seq<seq<u8>>, count: nat): (Option<seq<u8>>, seq<seq<u8>>) {
    if count == 0 then (Some([]), c)
    else if c == [] then (None, c)
    else (Some(Taken(c, count)), AfterTaking(c, count))
  }

  // ---- The driver ----

  /** The `i`-th slot from `front`, going round. */
  function At(front: nat, i: nat): (k: nat)
    requires front < QUEUE_SIZE && i < QUEUE_SIZE
    ensures k < QUEUE_SIZE && k == (front + i) % QUEUE_SIZE
  {
    if front + i < QUEUE_SIZE then front + i else front + i - QUEUE_SIZE
  }

  class Ring {
    const slots: array<Option<seq<u8>>>
    var front: nat
    var rear: nat

    /** The packets in the ring, oldest first. */
    ghost var contents: seq<seq<u8>>

    /** Exactly the slots from `front` up to `rear`, going round, hold packets; one slot is always
        kept empty. */
    ghost predicate Valid()
      reads this, slots
    {
      && slots.Length == QUEUE_SIZE && front < QUEUE_SIZE && |contents| < QUEUE_SIZE
      && rear == At(front, |contents|)
      && (forall i :: 0 <= i < |contents| ==> slots[At(front, i)] == Some(contents[i]))
      && (forall i :: |contents| <= i < QUEUE_SIZE ==> slots[At(front, i)] == None)
    }

    constructor ()
      ensures Valid() && fresh(slots) && contents == []
    {
      slots := new Option<seq<u8>>[QUEUE_SIZE](i => None);
      front, rear := 0, 0;
      contents := [];
    }

    method Enqueue(skb: seq<u8>)
      requires Valid()
      modifies this`rear, this`contents, slots
      ensures Valid()
      ensures contents == if |old(contents)| < 499 then old(contents) + [skb] else old(contents)
    {
      if front == (rear + 1) % QUEUE_SIZE {
        return;
      }
      slots[rear] := Some(skb);
      rear := rear + 1;
      rear := rear % QUEUE_SIZE;
      contents := contents + [skb];
    }

    predicate IsEmpty()
      reads this
    {
      front == rear
    }

    /** The head slot is emptied. */
    method DropHead()
      requires Valid() && contents != []
      modifies this`front, this`contents, slots
      ensures Valid() && contents == old(contents)[1..]
    {
      assert slots[At(front, 0)] == slots[front];
      ghost var next := At(front, 1);
      assert forall i :: 0 <= i < QUEUE_SIZE - 1 ==> At(next, i) == At(front, i + 1);
      assert At(next, QUEUE_SIZE - 1) == front;
      slots[front] := None;
      front := front + 1;
      front := front % QUEUE_SIZE;
      contents := contents[1..];
    }

    /** Takes the oldest packet out if the reader asks for all of it; otherwise leaves what the reader
        will not get in the queue and returns a copy of the packet. */
    method DequeueTry(deqLen: nat) returns (skb: Option<seq<u8>>)
      requires Valid()
      modifies this`front, this`contents, slots
      ensures Valid()
      ensures skb.None? <==> old(contents) == []
      ensures skb.None? ==> contents == []
      ensures skb.Some? ==> skb.value == old(contents)[0] && contents == AfterTaking(old(contents), deqLen)
    {
      if IsEmpty() {
        return None;
      }
      assert slots[At(front, 0)] == slots[front];
      skb := slots[front];
      if deqLen >= |skb.value| {
        DropHead();
      } else {
        slots[front] := Some(skb.value[deqLen..]);
        contents := [skb.value[deqLen..]] + contents[1..];
      }
    }

    method Clear()
      requires Valid()
      modifies this`front, this`contents, slots
      ensures Valid() && contents == []
    {
      while !IsEmpty()
        invariant Valid()
        decreases |contents|
      {
        DropHead();
      }
    }

    /** A read of the character device: `None` means that the reader is put to sleep. */
    method Read(count: nat) returns (bytes: Option<seq<u8>>)
      requires Valid()
      modifies this`front, this`contents, slots
      ensures Valid()
      ensures (bytes, contents) == Get(old(contents), count)
    {
      if count == 0 {
        return Some([]);
      }
      if IsEmpty() {
        return None;
      }
      var skb := DequeueTry(count);
      var len := if |skb.value| < count then |skb.value| else count;
      assert skb.value[..|skb.value|] == skb.value;
      bytes := Some(skb.value[..len]);
    }
  }

  // ---- The byte stream ----

  lemma {:induction false} FlattenAppend(c: seq<seq<u8>>, d: seq<seq<u8>>)
    ensures Flatten(c + d) == Flatten(c) + Flatten(d)
  {
    if c == [] {
      assert c + d == d;
    } else {
      assert (c + d)[1..] == c[1..] + d;
      FlattenAppend(c[1..], d);
    }
  }

  datatype Op = Arrival(p: seq<u8>) | Reading(count: nat)

  /** The packets that found less than 499 packets unread, the bytes the reader got, and the queue at the
      end of a run. */
  datatype Trace = Trace(accepted: seq<seq<u8>>, got: seq<u8>, queue: seq<seq<u8>>)

  const FRESH := Trace([], [], [])

  function Next(t: Trace, op: Op): Trace {
    match op
    case Arrival(p) =>
      Trace(if |t.queue| < 499 then t.accepted + [p] else t.accepted, t.got, Put(t.queue, p))
    case Reading(count) =>
      var (bytes, q) := Get(t.queue, count);
      Trace(t.accepted, if bytes.Some? then t.got + bytes.value else t.got, q)
  }

  function RunFrom(t: Trace, ops: seq<Op>): Trace
    decreases |ops|
  {
    if ops == [] then t else RunFrom(Next(t, ops[0]), ops[1..])
  }

  ghost predicate Conserved(t: Trace) {
    |t.queue| < QUEUE_SIZE && t.got + Flatten(t.queue) == Flatten(t.accepted)
  }

  lemma FlattenHead(p: seq<u8>, c: seq<seq<u8>>)
    ensures Flatten([p] + c) == p + Flatten(c)
  {
    assert ([p] + c)[1..] == c;
  }

  lemma SplitHead(first: seq<u8>, rest: seq<u8>, c: seq<seq<u8>>)
    ensures Flatten([first + rest] + c) == first + Flatten([rest] + c)
  {
    FlattenHead(first + rest, c);
    FlattenHead(rest, c);
    assert first + rest + Flatten(c) == first + (rest + Flatten(c));
  }

  /** What a read takes off the front of the queue is what it returns. */
  lemma GetSplits(c: seq<seq<u8>>, count: nat, taken: seq<u8>, after: seq<seq<u8>>)
    requires c != [] && taken == Taken(c, count) && after == AfterTaking(c, count)
    ensures Flatten(c) == taken + Flatten(after)
    ensures |taken| == if count < |c[0]| then count else |c[0]|
  {
    if count < |c[0]| {
      var rest := c[0][count..];
      assert c == [taken + rest] + c[1..] by {
        assert taken + rest == c[0];
      }
      SplitHead(taken, rest, c[1..]);
    }
  }

  lemma PutConserves(t: Trace, p: seq<u8>)
    requires Conserved(t)
    ensures Conserved(Next(t, Arrival(p)))
  {
    if |t.queue| < QUEUE_SIZE - 1 {
      FlattenAppend(t.queue, [p]);
      FlattenAppend(t.accepted, [p]);
      assert t.got + (Flatten(t.queue) + Flatten([p])) == t.got + Flatten(t.queue) + Flatten([p]);
    }
  }

  lemma GetConserves(t: Trace, count: nat)
    requires Conserved(t)
    ensures Conserved(Next(t, Reading(count)))
  {
    if count > 0 && t.queue != [] {
      var first, after := Taken(t.queue, count), AfterTaking(t.queue, count);
      GetSplits(t.queue, count, first, after);
      var rest := Flatten(after);
      assert t.got + first + rest == t.got + (first + rest);
    } else {
      assert t.got + [] == t.got;
    }
  }

  lemma NextConserves(t: Trace, op: Op)
    requires Conserved(t)
    ensures Conserved(Next(t, op))
  {
    match op
    case Arrival(p) => PutConserves(t, p);
    case Reading(count) => GetConserves(t, count);
  }

  lemma {:induction false} RunConserves(t: Trace, ops: seq<Op>)
    requires Conserved(t)
    ensures Conserved(RunFrom(t, ops))
    decreases |ops|
  {
    if ops != [] {
      NextConserves(t, ops[0]);
      RunConserves(Next(t, ops[0]), ops[1..]);
    }
  }

  /** In every run of arrivals and reads, whatever the sizes asked for, the bytes read so far followed
      by those still queued are the accepted packets laid end to end. */
  lemma StreamIsConserved(ops: seq<Op>, t: Trace)
    requires t == RunFrom(FRESH, ops)
    ensures t.got + Flatten(t.queue) == Flatten(t.accepted)
    ensures t.got <= Flatten(t.accepted)
    ensures |t.queue| <= 499
  {
    assert [] + Flatten([]) == Flatten([]);
    RunConserves(FRESH, ops);
  }

  // ---- Nothing is lost while there is room ----

  function Arrivals(ops: seq<Op>): seq<seq<u8>> {
    if ops == [] then [] else (if ops[0].Arrival? then [ops[0].p] else []) + Arrivals(ops[1..])
  }

  /** What a read of `count` bytes leaves unread. */
  function Unread(c: seq<seq<u8>>, count: nat): seq<seq<u8>> {
    if c == [] || count == 0 then c
    else if count >= |c[0]| then c[1..]
    else [c[0][count..]] + c[1..]
  }

  /** The packets unread after a run if none were ever dropped. */
  function Mailbox(c: seq<seq<u8>>, ops: seq<Op>): seq<seq<u8>>
    decreases |ops|
  {
    if ops == [] then c
    else
      match ops[0]
      case Arrival(p) => Mailbox(c + [p], ops[1..])
      case Reading(count) => Mailbox(Unread(c, count), ops[1..])
  }

  /** At no moment of the run are more than 499 packets unread. */
  ghost predicate RoomThroughout(c: seq<seq<u8>>, ops: seq<Op>)
    decreases |ops|
  {
    && |c| <= 499
    && (ops != [] ==>
          match ops[0]
          case Arrival(p) => RoomThroughout(c + [p], ops[1..])
          case Reading(count) => RoomThroughout(Unread(c, count), ops[1..]))
  }

  lemma {:induction false} NothingDropped(t: Trace, ops: seq<Op>)
    requires RoomThroughout(t.queue, ops)
    ensures RunFrom(t, ops).accepted == t.accepted + Arrivals(ops)
    ensures RunFrom(t, ops).queue == Mailbox(t.queue, ops)
    decreases |ops|
  {
    if ops == [] {
      assert t.accepted + [] == t.accepted;
    } else {
      var u := Next(t, ops[0]);
      var one := if ops[0].Arrival? then [ops[0].p] else [];
      NextInRoom(t, ops[0], ops[1..], u, one);
      NothingDropped(u, ops[1..]);
      Associative(t.accepted, one, Arrivals(ops[1..]));
    }
  }

  lemma NextInRoom(t: Trace, op: Op, rest: seq<Op>, u: Trace, one: seq<seq<u8>>)
    requires |t.queue| <= 499 && u == Next(t, op) && one == if op.Arrival? then [op.p] else []
    requires RoomThroughout(if op.Arrival? then t.queue + [op.p] else Unread(t.queue, op.count), rest)
    ensures u.accepted == t.accepted + one
    ensures u.queue == if op.Arrival? then t.queue + [op.p] else Unread(t.queue, op.count)
  {
    assert t.accepted + [] == t.accepted;
  }

  /** With at most 499 packets unread at any moment, as counted from what arrived and what was asked for,
      every packet that arrived is accepted, and the bytes read so far followed by those unread are all
      that arrived. */
  lemma AllAccepted(ops: seq<Op>, t: Trace)
    requires t == RunFrom(FRESH, ops) && RoomThroughout([], ops)
    ensures t.accepted == Arrivals(ops) && t.queue == Mailbox([], ops)
    ensures t.got + Flatten(Mailbox([], ops)) == Flatten(Arrivals(ops))
  {
    NothingDropped(FRESH, ops);
    assert [] + Arrivals(ops) == Arrivals(ops);
    StreamIsConserved(ops, t);
  }

  /** A packet is dropped exactly when 499 are unread. */
  lemma DroppedExactly(ops: seq<Op>, p: seq<u8>, t: Trace, u: Trace)
    requires t == RunFrom(FRESH, ops) && u == RunFrom(FRESH, ops + [Arrival(p)])
    ensures u.queue == (if |t.queue| == 499 then t.queue else t.queue + [p])
    ensures |t.queue| == 499 <==> u.queue == t.queue
  {
    RunAppend(FRESH, ops, [Arrival(p)]);
    assert [Arrival(p)][1..] == [];
    assert RunFrom(Next(t, Arrival(p)), []) == Next(t, Arrival(p));
    StreamIsConserved(ops, t);
    assert |t.queue + [p]| != |t.queue|;
  }

  lemma {:induction false} RunAppend(t: Trace, m: seq<Op>, n: seq<Op>)
    ensures RunFrom(t, m + n) == RunFrom(RunFrom(t, m), n)
    decreases |m|
  {
    if m == [] {
      assert m + n == n;
    } else {
      assert (m + n)[1..] == m[1..] + n;
      RunAppend(Next(t, m[0]), m[1..], n);
    }
  }

  // ---- Reading on ----

  function Reads(count: nat, n: nat): seq<Op> {
    if n == 0 then [] else [Reading(count)] + Reads(count, n - 1)
  }

  /** How many reads are certain to be enough. */
  function ReadsLeft(c: seq<seq<u8>>): nat { |c| + |Flatten(c)| }

  lemma ReadShrinks(t: Trace, count: nat, u: Trace)
    requires count > 0 && t.queue != [] && u == Next(t, Reading(count))
    ensures ReadsLeft(u.queue) < ReadsLeft(t.queue) && u.accepted == t.accepted
  {
    GetSplits(t.queue, count, Taken(t.queue, count), AfterTaking(t.queue, count));
  }

  lemma {:induction false} ReadOut(t: Trace, count: nat, n: nat, u: Trace)
    requires count > 0 && n >= ReadsLeft(t.queue) && u == RunFrom(t, Reads(count, n))
    ensures u.queue == [] && u.accepted == t.accepted
    decreases n
  {
    if n > 0 {
      var v := Next(t, Reading(count));
      assert Reads(count, n)[1..] == Reads(count, n - 1);
      if t.queue != [] { ReadShrinks(t, count, v); }
      ReadOut(v, count, n - 1, u);
    }
  }

  /** Whatever happened before, enough reads of any size return the rest of what was accepted: when there
      was room throughout, the reader has then got all that arrived, in order. */
  lemma EnoughReads(ops: seq<Op>, count: nat, n: nat, t: Trace, u: Trace)
    requires t == RunFrom(FRESH, ops) && count > 0 && n >= ReadsLeft(t.queue)
    requires u == RunFrom(FRESH, ops + Reads(count, n))
    ensures u.queue == [] && u.got == Flatten(t.accepted)
    ensures RoomThroughout([], ops) ==> u.got == Flatten(Arrivals(ops))
  {
    RunAppend(FRESH, ops, Reads(count, n));
    ReadOut(t, count, n, u);
    StreamIsConserved(ops + Reads(count, n), u);
    assert u.got + [] == u.got;
    if RoomThroughout([], ops) { AllAccepted(ops, t); }
  }
}

/** Download of a firmware image in fragments, paced by the number of commands the controller grants. */
module FirmwareDownload {
  import opened Bytes

  const SEG_MAX: nat := 252
  const DATA_END: nat := 0x80
  const EIO: int := -5

  /** A download command: the fragment's index byte and data. */
  datatype Command = Command(index: u8, data: seq<u8>)

  /** A command as it went out, with the number of unacknowledged commands including this one and
      the last number granted. */
  datatype Sent = Sent(cmd: Command, outstanding: int, granted: nat)

  /** A command-complete event; reception fails (or times out) when there is none. */
  datatype Reply = Reply(status: u8, index: u8, ncmd: nat)

  /** The result; the commands that went out and the number of events that came in; and how many times
      each was tried. */
  datatype Outcome = Outcome(ret: int, log: seq<Sent>, used: nat, sends: nat, waits: nat)

  /** Nothing that was tried failed. */
  function Ended(ret: int, log: seq<Sent>, used: nat): Outcome { Outcome(ret, log, used, |log|, used) }

  // ---- Fragments ----

  function FragNum(fw: seq<u8>): (n: nat)
    ensures n > 0
  {
    |fw| / SEG_MAX + 1
  }

  function IndexByte(i: nat, n: nat): u8
    requires i < n
  {
    (if i > 0 then (i - 1) % 0x7f + 1 else 0) + (if i == n - 1 then DATA_END else 0)
  }

  function Fragment(fw: seq<u8>, i: nat): Command
    requires i < FragNum(fw)
  {
    var n := FragNum(fw);
    var len := if i == n - 1 then |fw| % SEG_MAX else SEG_MAX;
    Command(IndexByte(i, n), fw[i * SEG_MAX..i * SEG_MAX + len])
  }

  predicate EndBit(index: u8) { index >= DATA_END }

  // ---- The download, as a recursive account of the two loops ----

  /** The loop over fragments, at fragment `i` with `step` more commands allowed and `ncmd` events to
      wait for.  `replies` are the events the controller will send, and `sendOk` says whether the
      `k`-th command gets out. */
  function Loop(fw: seq<u8>, replies: seq<Reply>, sendOk: nat -> bool, i: nat, step: nat, ncmd: nat, granted: nat,
                log: seq<Sent>, used: nat): Outcome
    requires i <= FragNum(fw) && used <= |replies|
    decreases FragNum(fw) - i, |replies| - used, 1
  {
    var n := FragNum(fw);
    if i == n then Ended(|fw|, log, used)
    else if step > 0 then
      if !sendOk(|log|) then Outcome(EIO, log, used, |log| + 1, used)
      else
        var log' := log + [Sent(Fragment(fw, i), |log| + 1 - used, granted)];
        if step - 1 > 0 && i < n - 1 then Loop(fw, replies, sendOk, i + 1, step - 1, ncmd, granted, log', used)
        else Await(fw, replies, sendOk, i, ncmd, granted, log', used)
    else Await(fw, replies, sendOk, i, ncmd, granted, log, used)
  }

  /** The loop over events. */
  function Await(fw: seq<u8>, replies: seq<Reply>, sendOk: nat -> bool, i: nat, ncmd: nat, granted: nat,
                 log: seq<Sent>, used: nat): Outcome
    requires i < FragNum(fw) && used <= |replies|
    decreases FragNum(fw) - i, |replies| - used, 0
  {
    if ncmd > 0 then
      if used == |replies| then Outcome(EIO, log, used, |log|, used + 1)
      else
        var e := replies[used];
        if e.status != 0 then Ended(-1, log, used + 1)
        else if EndBit(e.index) || e.index == FragNum(fw) - 1 then Ended(|fw|, log, used + 1)
        else Await(fw, replies, sendOk, i, ncmd - 1, e.ncmd, log, used + 1)
    else
      Loop(fw, replies, sendOk, i + 1, granted, granted, granted, log, used)
  }

  function Download(fw: seq<u8>, replies: seq<Reply>, sendOk: nat -> bool): Outcome {
    Loop(fw, replies, sendOk, 0, 1, 1, 1, [], 0)
  }

  /** The driver's loops over local variables.  The result is the image size or a negative error; the
      commands sent and the number of events received are what the controller sees. */
  method DownloadData(fw: seq<u8>, replies: seq<Reply>, sendOk: nat -> bool)
      returns (ret: int, log: seq<Sent>, used: nat, sends: nat, waits: nat)
    ensures Outcome(ret, log, used, sends, waits) == Download(fw, replies, sendOk)
  {
    var ncmd, step, granted := 1, 1, 1;
    var pcur, fragLen := 0, SEG_MAX;
    var fragNum := |fw| / SEG_MAX + 1;
    log, used, sends, waits := [], 0, 0, 0;
    var i := 0;
    while i < fragNum
      invariant 0 <= i <= fragNum == FragNum(fw) && used <= |replies|
      invariant pcur == i * SEG_MAX
      invariant i < fragNum ==> fragLen == SEG_MAX
      invariant 0 <= step && 0 <= ncmd && 0 <= granted
      invariant sends == |log| && waits == used
      invariant Download(fw, replies, sendOk) == Loop(fw, replies, sendOk, i, step, ncmd, granted, log, used)
    {
      var index := if i > 0 then (i - 1) % 0x7f + 1 else 0;
      if i == fragNum - 1 {
        index := index + DATA_END;
        fragLen := |fw| % SEG_MAX;
      }
      var cmd := Command(index, fw[pcur..pcur + fragLen]);
      if step > 0 {
        sends := sends + 1;
        if !sendOk(|log|) {
          return EIO, log, used, sends, waits;
        }
        log := log + [Sent(cmd, |log| + 1 - used, granted)];
        step := step - 1;
        if step > 0 && i < fragNum - 1 {
          pcur := pcur + SEG_MAX;
          i := i + 1;
          continue;
        }
      }
      while ncmd > 0
        invariant 0 <= ncmd && 0 <= granted && used <= |replies|
        invariant sends == |log| && waits == used
        invariant Download(fw, replies, sendOk) == Await(fw, replies, sendOk, i, ncmd, granted, log, used)
      {
        waits := waits + 1;
        if used == |replies| {
          return EIO, log, used, sends, waits;
        }
        var e := replies[used];
        used := used + 1;
        ncmd := ncmd - 1;
        if e.status != 0 {
          return -1, log, used, sends, waits;
        }
        if EndBit(e.index) || e.index == fragNum - 1 {
          return |fw|, log, used, sends, waits;
        }
        granted := e.ncmd;
      }
      ncmd, step := granted, granted;
      pcur := pcur + SEG_MAX;
      i := i + 1;
    }
    ret := |fw|;
  }

  // ---- Pacing ----

  /** The last number granted. */
  function Credit(replies: seq<Reply>, used: nat): nat
    requires used <= |replies|
  {
    if used == 0 then 1 else replies[used - 1].ncmd
  }

  /** What each entry of the log says is true: so many replies had not been taken yet, and so many commands
      the last one taken had granted.  And there are never more outstanding than that. */
  ghost predicate Paced(replies: seq<Reply>, log: seq<Sent>) {
    forall k :: 0 <= k < |log| ==> PacedAt(replies, log[k], k)
  }

  predicate PacedAt(replies: seq<Reply>, x: Sent, k: nat) {
    && 0 <= k + 1 - x.outstanding <= |replies|
    && x.outstanding <= x.granted == Credit(replies, k + 1 - x.outstanding)
  }

  /** Whatever the controller answers, there are never more commands outstanding than it last
      granted. */
  lemma {:induction false} LoopPaced(fw: seq<u8>, replies: seq<Reply>, sendOk: nat -> bool, i: nat, step: nat,
                                     ncmd: nat, granted: nat, log: seq<Sent>, used: nat)
    requires i <= FragNum(fw) && used <= |replies| && Paced(replies, log) && granted == Credit(replies, used)
    requires |log| - used <= ncmd - step && ncmd <= granted
    ensures Paced(replies, Loop(fw, replies, sendOk, i, step, ncmd, granted, log, used).log)
    decreases FragNum(fw) - i, |replies| - used, 1
  {
    if i < FragNum(fw) {
      if step > 0 {
        if sendOk(|log|) {
          var log' := log + [Sent(Fragment(fw, i), |log| + 1 - used, granted)];
          if step - 1 > 0 && i < FragNum(fw) - 1 {
            LoopPaced(fw, replies, sendOk, i + 1, step - 1, ncmd, granted, log', used);
          } else {
            AwaitPaced(fw, replies, sendOk, i, ncmd, granted, log', used);
          }
        }
      } else {
        AwaitPaced(fw, replies, sendOk, i, ncmd, granted, log, used);
      }
    }
  }

  lemma {:induction false} AwaitPaced(fw: seq<u8>, replies: seq<Reply>, sendOk: nat -> bool, i: nat, ncmd: nat,
                                      granted: nat, log: seq<Sent>, used: nat)
    requires i < FragNum(fw) && used <= |replies| && Paced(replies, log) && granted == Credit(replies, used)
    requires |log| - used <= ncmd
    ensures Paced(replies, Await(fw, replies, sendOk, i, ncmd, granted, log, used).log)
    decreases FragNum(fw) - i, |replies| - used, 0
  {
    if ncmd > 0 {
      if used < |replies| {
        AwaitPaced(fw, replies, sendOk, i, ncmd - 1, replies[used].ncmd, log, used + 1);
      }
    } else {
      LoopPaced(fw, replies, sendOk, i + 1, granted, granted, granted, log, used);
    }
  }

  lemma NeverTooManyOutstanding(fw: seq<u8>, replies: seq<Reply>, sendOk: nat -> bool)
    ensures Paced(replies, Download(fw, replies, sendOk).log)
  {
    LoopPaced(fw, replies, sendOk, 0, 1, 1, 1, [], 0);
  }

  // ---- How it ends ----

  /** The reply that ends the download: its index has the end bit, or is that of the last fragment without
      it. */
  predicate LastEcho(fw: seq<u8>, e: Reply) { e.index >= 0x80 || e.index == |fw| / 252 }

  /** What is so at every moment of a download: fragments have gone out in order, and no reply taken so far
      ended it. */
  ghost predicate Underway(fw: seq<u8>, replies: seq<Reply>, sendOk: nat -> bool, log: seq<Sent>, used: nat) {
    && used <= |replies| && |log| <= FragNum(fw)
    && (forall k :: 0 <= k < |log| ==> sendOk(k) && log[k].cmd == Fragment(fw, k))
    && (forall k :: 0 <= k < used ==> replies[k].status == 0 && !LastEcho(fw, replies[k]))
  }

  /** How a download that did this much so far may end. */
  ghost predicate EndsWell(fw: seq<u8>, replies: seq<Reply>, sendOk: nat -> bool, o: Outcome) {
    && o.used <= |replies| && |o.log| <= FragNum(fw)
    && (forall k :: 0 <= k < |o.log| ==> sendOk(k) && o.log[k].cmd == Fragment(fw, k))
    && (forall k :: 0 <= k < o.used - 1 ==> replies[k].status == 0 && !LastEcho(fw, replies[k]))
    && (o.sends == |o.log| || (o.sends == |o.log| + 1 && !sendOk(|o.log|)))
    && (o.waits == o.used || (o.waits == o.used + 1 && o.used == |replies|))
    && o.ret in {|fw|, -1, -5}
    && (o.ret == -1 <==> o.used > 0 && replies[o.used - 1].status != 0)
    && (o.ret == -5 <==> o.sends > |o.log| || o.waits > o.used)
    && (o.used > 0 && replies[o.used - 1].status == 0 && LastEcho(fw, replies[o.used - 1]) ==> o.ret == |fw|)
    && (o.ret == |fw| ==>
          || |o.log| == FragNum(fw)
          || (o.used > 0 && (LastEcho(fw, replies[o.used - 1]) || replies[o.used - 1].ncmd == 0)))
  }

  lemma LoggedNext(fw: seq<u8>, replies: seq<Reply>, sendOk: nat -> bool, log: seq<Sent>, used: nat, x: Sent)
    requires Underway(fw, replies, sendOk, log, used) && |log| < FragNum(fw) && sendOk(|log|)
    requires x.cmd == Fragment(fw, |log|)
    ensures Underway(fw, replies, sendOk, log + [x], used)
  {
  }

  lemma {:induction false} LoopEnds(fw: seq<u8>, replies: seq<Reply>, sendOk: nat -> bool, i: nat, step: nat,
                                    ncmd: nat, granted: nat, log: seq<Sent>, used: nat)
    requires i <= FragNum(fw) && Underway(fw, replies, sendOk, log, used) && granted == Credit(replies, used)
    requires (step > 0 && |log| == i) || (step == ncmd == granted == 0 && |log| <= i)
    ensures EndsWell(fw, replies, sendOk, Loop(fw, replies, sendOk, i, step, ncmd, granted, log, used))
    decreases FragNum(fw) - i, |replies| - used, 1
  {
    if i < FragNum(fw) {
      if step > 0 {
        if sendOk(|log|) {
          var x := Sent(Fragment(fw, i), |log| + 1 - used, granted);
          LoggedNext(fw, replies, sendOk, log, used, x);
          if step - 1 > 0 && i < FragNum(fw) - 1 {
            LoopEnds(fw, replies, sendOk, i + 1, step - 1, ncmd, granted, log + [x], used);
          } else {
            AwaitEnds(fw, replies, sendOk, i, ncmd, granted, log + [x], used);
          }
        }
      } else {
        AwaitEnds(fw, replies, sendOk, i, ncmd, granted, log, used);
      }
    }
  }

  lemma {:induction false} AwaitEnds(fw: seq<u8>, replies: seq<Reply>, sendOk: nat -> bool, i: nat, ncmd: nat,
                                     granted: nat, log: seq<Sent>, used: nat)
    requires i < FragNum(fw) && Underway(fw, replies, sendOk, log, used) && granted == Credit(replies, used)
    requires |log| == i + 1 || (|log| <= i && ncmd == 0 && granted == 0)
    ensures EndsWell(fw, replies, sendOk, Await(fw, replies, sendOk, i, ncmd, granted, log, used))
    decreases FragNum(fw) - i, |replies| - used, 0
  {
    if ncmd > 0 {
      if used < |replies| && replies[used].status == 0 && !LastEcho(fw, replies[used]) {
        AwaitEnds(fw, replies, sendOk, i, ncmd - 1, replies[used].ncmd, log, used + 1);
      }
    } else {
      LoopEnds(fw, replies, sendOk, i + 1, granted, granted, granted, log, used);
    }
  }

  /** For every list of replies and every failure to send: the fragments go out in order, none after a
      failure; -1 is returned exactly when the last reply taken, and none before it, has an error status; the
      transport's error exactly when a command could not be sent or a reply did not come; and success
      otherwise, which needs the last index echoed, all fragments sent, or nothing granted any more. */
  lemma EndsExactly(fw: seq<u8>, replies: seq<Reply>, sendOk: nat -> bool, o: Outcome)
    requires o == Download(fw, replies, sendOk)
    ensures o.used <= |replies| && |o.log| <= FragNum(fw)
    ensures forall k :: 0 <= k < |o.log| ==> sendOk(k) && o.log[k].cmd == Fragment(fw, k)
    ensures o.ret == -1 <==> o.used > 0 && replies[o.used - 1].status != 0
    ensures o.ret == -5 <==> o.sends > |o.log| || o.waits > o.used
    ensures o.sends > |o.log| ==> o.sends == |o.log| + 1 && !sendOk(|o.log|)
    ensures o.waits > o.used ==> o.used == |replies|
    ensures o.ret == |fw| <==> o.ret != -1 && o.ret != -5
    ensures o.ret == |fw| ==> forall k :: 0 <= k < o.used ==> replies[k].status == 0
    ensures forall k :: 0 <= k < o.used - 1 ==> replies[k].status == 0 && !LastEcho(fw, replies[k])
    ensures o.used > 0 && replies[o.used - 1].status == 0 && LastEcho(fw, replies[o.used - 1]) ==> o.ret == |fw|
    ensures o.ret == |fw| ==>
      || |o.log| == FragNum(fw)
      || (o.used > 0 && (LastEcho(fw, replies[o.used - 1]) || replies[o.used - 1].ncmd == 0))
  {
    LoopEnds(fw, replies, sendOk, 0, 1, 1, 1, [], 0);
  }

  // ---- A faithful controller ----

  /** The controller acknowledges every fragment, in order, without error, echoing its index. */
  ghost predicate Faithful(fw: seq<u8>, replies: seq<Reply>) {
    && |replies| >= FragNum(fw)
    && forall k :: 0 <= k < FragNum(fw) ==> replies[k].status == 0 && replies[k].index == IndexByte(k, FragNum(fw))
  }

  /** No echo is mistaken for the last one, although the index byte wraps around. */
  lemma LastEchoOnly(k: nat, n: nat)
    requires k < n
    ensures (EndBit(IndexByte(k, n)) || IndexByte(k, n) == n - 1) <==> k == n - 1
  {
  }

  /** The image is cut into pieces of 252 bytes and a shorter last one; the indices count from 0 and then
      from 1 to 127 over and over, and the last has the end bit. */
  lemma FragmentLayout(fw: seq<u8>, i: nat)
    requires i < FragNum(fw)
    ensures FragNum(fw) == |fw| / 252 + 1
    ensures |Fragment(fw, i).data| == if i < |fw| / 252 then 252 else |fw| % 252
    ensures Fragment(fw, i).index >= 0x80 <==> i == |fw| / 252
    ensures Fragment(fw, i).index % 0x80 == if i == 0 then 0 else if i % 127 == 0 then 127 else i % 127
  {
  }

  /** The number of fragments sent: `i` fragments are out, all acknowledged but those of the current
      batch, of which `s` more may be sent. */
  function SentCount(i: nat, s: nat, n: nat, replies: seq<Reply>): nat
    requires i <= n <= |replies|
    decreases n - i
  {
    if i == n then n
    else if s == 0 then i
    else
      var e := if i + s < n then i + s else n;
      SentCount(e, replies[e - 1].ncmd, n, replies)
  }

  /** `i` fragments have been sent, in order. */
  ghost predicate InOrder(fw: seq<u8>, log: seq<Sent>, i: nat) {
    i <= FragNum(fw) && |log| == i && forall k :: 0 <= k < i ==> log[k].cmd == Fragment(fw, k)
  }

  /** The result of a download in which the first `c` fragments were sent and acknowledged. */
  ghost predicate Delivered(fw: seq<u8>, o: Outcome, c: nat) {
    o.ret == |fw| && o.used == c && InOrder(fw, o.log, c)
  }

  lemma {:induction false} AwaitLast(fw: seq<u8>, replies: seq<Reply>, sendOk: nat -> bool, ncmd: nat, granted: nat,
                                     log: seq<Sent>, used: nat)
    requires Faithful(fw, replies) && InOrder(fw, log, FragNum(fw))
    requires used < FragNum(fw) <= used + ncmd
    ensures Delivered(fw, Await(fw, replies, sendOk, FragNum(fw) - 1, ncmd, granted, log, used), FragNum(fw))
    decreases ncmd
  {
    LastEchoOnly(used, FragNum(fw));
    if used < FragNum(fw) - 1 {
      AwaitLast(fw, replies, sendOk, ncmd - 1, replies[used].ncmd, log, used + 1);
    }
  }

  /** The acknowledgements of a batch that does not contain the last fragment. */
  lemma {:induction false} AwaitBatch(fw: seq<u8>, replies: seq<Reply>, sendOk: nat -> bool, i: nat, ncmd: nat,
                                      granted: nat, log: seq<Sent>, used: nat)
    requires Faithful(fw, replies) && i + 1 < FragNum(fw)
    requires used + ncmd == i + 1 && (ncmd == 0 ==> granted == replies[i].ncmd)
    ensures var g := replies[i].ncmd;
      Await(fw, replies, sendOk, i, ncmd, granted, log, used) == Loop(fw, replies, sendOk, i + 1, g, g, g, log, i + 1)
    decreases ncmd
  {
    if ncmd > 0 {
      LastEchoOnly(used, FragNum(fw));
      AwaitBatch(fw, replies, sendOk, i, ncmd - 1, replies[used].ncmd, log, used + 1);
    }
  }

  /** With nothing granted the remaining fragments are passed over one by one. */
  lemma {:induction false} Stalled(fw: seq<u8>, replies: seq<Reply>, sendOk: nat -> bool, i: nat, log: seq<Sent>,
                                   used: nat)
    requires i <= FragNum(fw) && used <= |replies|
    ensures Loop(fw, replies, sendOk, i, 0, 0, 0, log, used) == Ended(|fw|, log, used)
    decreases FragNum(fw) - i
  {
    if i < FragNum(fw) {
      Stalled(fw, replies, sendOk, i + 1, log, used);
    }
  }

  lemma {:induction false} BatchSent(fw: seq<u8>, replies: seq<Reply>, sendOk: nat -> bool, i: nat, step: nat,
                                     ncmd: nat, granted: nat,
                  log: seq<Sent>, used: nat)
    requires Faithful(fw, replies) && forall k :: sendOk(k)
    requires i < FragNum(fw) && InOrder(fw, log, i)
    requires step > 0 ==> used + ncmd == i + step && used <= i
    requires step == 0 ==> ncmd == 0 && granted == 0 && used == i
    ensures var o := Loop(fw, replies, sendOk, i, step, ncmd, granted, log, used);
      Delivered(fw, o, SentCount(i, step, FragNum(fw), replies))
    decreases FragNum(fw) - i
  {
    var n := FragNum(fw);
    if step == 0 {
      Stalled(fw, replies, sendOk, i, log, used);
    } else {
      var log' := log + [Sent(Fragment(fw, i), |log| + 1 - used, granted)];
      assert InOrder(fw, log', i + 1);
      if i == n - 1 {
        AwaitLast(fw, replies, sendOk, ncmd, granted, log', used);
      } else if step > 1 {
        BatchSent(fw, replies, sendOk, i + 1, step - 1, ncmd, granted, log', used);
      } else {
        AwaitBatch(fw, replies, sendOk, i, ncmd, granted, log', used);
        var g := replies[i].ncmd;
        BatchSent(fw, replies, sendOk, i + 1, g, g, g, log', i + 1);
      }
    }
  }

  /** A grant of zero at the end of a batch ends the sending. */
  predicate NeverStalls(i: nat, s: nat, n: nat, replies: seq<Reply>)
    requires i <= n <= |replies|
    decreases n - i
  {
    i == n || (s > 0 && (var e := if i + s < n then i + s else n; NeverStalls(e, replies[e - 1].ncmd, n, replies)))
  }

  lemma {:induction false} SentCountComplete(i: nat, s: nat, n: nat, replies: seq<Reply>)
    requires i <= n <= |replies|
    ensures i <= SentCount(i, s, n, replies) <= n
    ensures SentCount(i, s, n, replies) == n <==> NeverStalls(i, s, n, replies)
    decreases n - i
  {
    if i < n && s > 0 {
      var e := if i + s < n then i + s else n;
      SentCountComplete(e, replies[e - 1].ncmd, n, replies);
    }
  }

  lemma {:induction false} PositiveGrantsNeverStall(i: nat, s: nat, n: nat, replies: seq<Reply>)
    requires i <= n <= |replies| && s > 0
    requires forall k :: 0 <= k < n ==> replies[k].ncmd > 0
    ensures NeverStalls(i, s, n, replies)
    decreases n - i
  {
    if i < n {
      var e := if i + s < n then i + s else n;
      PositiveGrantsNeverStall(e, replies[e - 1].ncmd, n, replies);
    }
  }

  // ---- The image ----

  function DataOf(log: seq<Sent>): seq<u8> {
    if log == [] then [] else DataOf(log[..|log| - 1]) + log[|log| - 1].cmd.data
  }

  /** The first `c` fragments laid end to end are the start of the image; all of them are the image. */
  lemma {:induction false} FragmentsAreImage(fw: seq<u8>, log: seq<Sent>, c: nat)
    requires InOrder(fw, log, c)
    ensures DataOf(log) == if c == FragNum(fw) then fw else fw[..c * SEG_MAX]
    decreases c
  {
    if c > 0 {
      FragmentsAreImage(fw, log[..c - 1], c - 1);
      assert log[c - 1].cmd == Fragment(fw, c - 1);
      var from := (c - 1) * SEG_MAX;
      if c < FragNum(fw) {
        assert fw[..from] + fw[from..from + SEG_MAX] == fw[..c * SEG_MAX];
      } else {
        assert from + |fw| % SEG_MAX == |fw|;
        assert fw[..from] + fw[from..|fw|] == fw;
      }
    }
  }

  /** Facing a faithful controller the download always reports success, and all that was sent has been
      acknowledged.  The image has been sent whole exactly when no batch before the last fragment ends
      with a grant of zero; otherwise the rest of it was silently skipped. */
  lemma FaithfulDownload(fw: seq<u8>, replies: seq<Reply>, sendOk: nat -> bool, o: Outcome)
    requires Faithful(fw, replies) && forall k :: sendOk(k)
    requires o == Download(fw, replies, sendOk)
    ensures o.ret == |fw| && o.used == |o.log|
    ensures InOrder(fw, o.log, |o.log|)
    ensures |o.log| == FragNum(fw) <==> NeverStalls(0, 1, FragNum(fw), replies)
    ensures NeverStalls(0, 1, FragNum(fw), replies) ==> DataOf(o.log) == fw
    ensures (forall k :: 0 <= k < FragNum(fw) ==> replies[k].ncmd > 0) ==> NeverStalls(0, 1, FragNum(fw), replies)
  {
    BatchSent(fw, replies, sendOk, 0, 1, 1, 1, [], 0);
    SentCountComplete(0, 1, FragNum(fw), replies);
    FragmentsAreImage(fw, o.log, |o.log|);
    if forall k :: 0 <= k < FragNum(fw) ==> replies[k].ncmd > 0 {
      PositiveGrantsNeverStall(0, 1, FragNum(fw), replies);
    }
  }

  /** A controller that stops granting after the first fragment of three gets only that fragment, and
      the download is still reported as a success. */
  lemma TruncatedYetSuccessful(fw: seq<u8>, sendOk: nat -> bool)
    requires |fw| == 600 && forall k :: sendOk(k)
    ensures var replies := [Reply(0, 0, 0), Reply(0, 1, 0), Reply(0, 0x82, 0)];
      var o := Download(fw, replies, sendOk);
      Faithful(fw, replies) && o.ret == 600 && |o.log| == 1
  {
    var replies := [Reply(0, 0, 0), Reply(0, 1, 0), Reply(0, 0x82, 0)];
    assert Faithful(fw, replies);
    BatchSent(fw, replies, sendOk, 0, 1, 1, 1, [], 0);
    assert SentCount(1, 0, 3, replies) == 1;
  }
}

/** The Bluetooth low-power protocol of the host: when the UART may be put to sleep.

    Work items, the reception timer and writes to the two procfs files are atomic steps.  GPIO levels
    are given as asserted or not, whatever the polarity. */
module Bluesleep {

  datatype State = State(
    proto: bool, asleep: bool, rxTimerFlag: bool,   // flags BT_PROTO, BT_ASLEEP, BT_RXTIMER
    timerPending: bool,
    extWake: bool,                                  // BT_WAKE, towards the controller, asserted
    hostWake: bool,                                 // HOST_WAKE, from the controller, asserted
    uport: bool,                                    // the UART port is known
    rts: bool,                                      // RTS as last driven
    openCount: int, lpmEnabled: bool)

  const INITIAL := State(false, false, false, false, true, false, false, true, 1, false)

  /** What can happen.  `On` carries whether the UART device is there and has a port, and whether the
      interrupt is granted. */
  datatype Event =
    | Work(txEmpty: bool)
    | HostLine(level: bool)
    | Outgoing
    | AllowSleep
    | TimerExpires
    | On(dev: bool, port: bool, irq: bool)
    | Off

  predicate CanSleep(s: State) {
    !s.extWake && !s.hostWake && !s.rxTimerFlag && s.uport
  }

  function Power(s: State, on: bool): State {
    if s.uport then s.(rts := on) else s
  }

  function SleepWork(s: State, txEmpty: bool): State {
    if CanSleep(s) then
      if s.asleep || !txEmpty then s else Power(s.(asleep := true), false)
    else if s.asleep then
      Power(s.(asleep := false, timerPending := true, rxTimerFlag := true), true)
    else s
  }

  function OutgoingData(s: State): State {
    if !s.extWake then Power(s.(extWake := true, asleep := false), true) else s
  }

  function Start(s: State, irq: bool): State {
    if s.proto || s.openCount != 1 then s
    else if irq then s.(openCount := 0, timerPending := true, extWake := true, proto := true)
    else s.(timerPending := false, extWake := true)
  }

  function Stop(s: State): State {
    if !s.proto then s
    else
      var t := s.(extWake := true, timerPending := false, proto := false, openCount := s.openCount + 1);
      if t.asleep then Power(t.(asleep := false), true) else t
  }

  function Step(s: State, e: Event): State {
    match e
    case Work(txEmpty) => SleepWork(s, txEmpty)
    case HostLine(level) => s.(hostWake := level)
    case Outgoing => OutgoingData(s)
    case AllowSleep => s.(extWake := false)
    case TimerExpires => if s.timerPending then s.(timerPending := false, rxTimerFlag := false) else s
    case On(dev, port, irq) =>
      if s.lpmEnabled then s else Start(s.(lpmEnabled := true, uport := if dev then port else s.uport), irq)
    case Off => Stop(s).(lpmEnabled := false, uport := false)
  }

  function Run(s: State, es: seq<Event>): State
    decreases |es|
  {
    if es == [] then s else Run(Step(s, es[0]), es[1..])
  }

  // ---- Safety ----

  /** RTS is dropped exactly while asleep, and then the controller is not being called, the protocol
      runs and the port is known; the protocol has at most one user; whenever the reception flag
      holds off sleep, the timer that clears it is running. */
  ghost predicate Safe(s: State) {
    && (s.asleep <==> !s.rts)
    && (s.asleep ==> !s.extWake && s.proto && s.uport)
    && s.openCount == (if s.proto then 0 else 1)
    && (s.proto && s.rxTimerFlag ==> s.timerPending)
  }

  /** What keeps it so.  After a refused interrupt the port may be known although the protocol does not
      run; that is harmless only because the reception flag holds off sleep, and no timer is left that
      would clear it. */
  ghost predicate Guarded(s: State) {
    && Safe(s) && (s.proto ==> s.lpmEnabled)
    && (s.uport && !s.proto ==> s.lpmEnabled && s.rxTimerFlag && !s.timerPending)
  }

  /** The interrupt is asked for and refused. */
  predicate Refused(s: State, e: Event) { e.On? && !e.irq && !s.lpmEnabled }

  /** The one kind of step that can do harm, as it can be told beforehand: the interrupt is refused, the
      UART device is there with its port, and the reception flag is clear. */
  predicate Dangerous(s: State, e: Event) {
    Refused(s, e) && e.dev && e.port && !s.rxTimerFlag
  }

  ghost predicate NeverRefused(es: seq<Event>) {
    forall i :: 0 <= i < |es| ==> (es[i].On? ==> es[i].irq)
  }

  predicate Harmless(s: State, es: seq<Event>)
    decreases |es|
  {
    es == [] || (!Dangerous(s, es[0]) && Harmless(Step(s, es[0]), es[1..]))
  }

  lemma HarmlessStep(s: State, e: Event)
    requires Guarded(s) && !Dangerous(s, e)
    ensures Guarded(Step(s, e))
  {
    match e
    case Work(txEmpty) =>
    case HostLine(level) =>
    case Outgoing =>
    case AllowSleep =>
    case TimerExpires =>
    case On(dev, port, irq) =>
    case Off =>
  }

  lemma {:induction false} HarmlessRun(s: State, es: seq<Event>)
    requires Guarded(s) && Harmless(s, es)
    ensures Guarded(Run(s, es))
    decreases |es|
  {
    if es != [] {
      HarmlessStep(s, es[0]);
      HarmlessRun(Step(s, es[0]), es[1..]);
    }
  }

  lemma {:induction false} GrantedIsHarmless(s: State, es: seq<Event>)
    requires NeverRefused(es)
    ensures Harmless(s, es)
    decreases |es|
  {
    if es != [] {
      GrantedIsHarmless(Step(s, es[0]), es[1..]);
    }
  }

  lemma RunOne(s: State, e: Event, es: seq<Event>)
    requires es != [] && es[0] == e
    ensures Run(s, es) == Run(Step(s, e), es[1..])
  {
  }

  lemma RunTwo(s: State, a: Event, b: Event)
    ensures Run(s, [a, b]) == Step(Step(s, a), b)
  {
    RunOne(s, a, [a, b]);
    assert [a, b][1..] == [b];
    RunOne(Step(s, a), b, [b]);
    assert [b][1..] == [];
  }

  lemma RunThree(s: State, a: Event, b: Event, c: Event)
    ensures Run(s, [a, b, c]) == Step(Step(Step(s, a), b), c)
  {
    RunOne(s, a, [a, b, c]);
    assert [a, b, c][1..] == [b, c];
    RunTwo(Step(s, a), b, c);
  }

  /** After a dangerous step, three ordinary events put the UART to sleep with no protocol to wake it. */
  lemma DangerShows(s: State, e: Event)
    requires Guarded(s) && Dangerous(s, e)
    ensures !Safe(Run(Step(s, e), [AllowSleep, HostLine(false), Work(true)]))
  {
    RunThree(Step(s, e), AllowSleep, HostLine(false), Work(true));
  }

  /** A step can be followed by nothing but safe states, as long as no interrupt is refused afterwards,
      exactly when it is not dangerous. */
  lemma StepSafeExactly(s: State, e: Event)
    requires Guarded(s)
    ensures !Dangerous(s, e) <==> forall more :: NeverRefused(more) ==> Safe(Run(Step(s, e), more))
  {
    if Dangerous(s, e) {
      DangerShows(s, e);
    } else {
      HarmlessStep(s, e);
      forall more | NeverRefused(more)
        ensures Safe(Run(Step(s, e), more))
      {
        GrantedIsHarmless(Step(s, e), more);
        HarmlessRun(Step(s, e), more);
      }
    }
  }

  /** Every state on the way through `es` is safe, and stays safe however one goes on from there without
      a refused interrupt. */
  ghost predicate SafeThroughout(s: State, es: seq<Event>) {
    forall k, more :: 0 <= k <= |es| && NeverRefused(more) ==> Safe(Run(Run(s, es[..k]), more))
  }

  lemma RunHead(s: State, es: seq<Event>, k: nat)
    requires k < |es|
    ensures Run(s, es[..k + 1]) == Run(Step(s, es[0]), es[1..][..k])
  {
    assert es[..k + 1][1..] == es[1..][..k];
  }

  lemma {:induction false} HarmlessPrefix(s: State, es: seq<Event>, k: nat)
    requires Harmless(s, es) && k <= |es|
    ensures Harmless(s, es[..k])
    decreases |es|
  {
    if k > 0 {
      HarmlessPrefix(Step(s, es[0]), es[1..], k - 1);
      assert es[..k][1..] == es[1..][..k - 1];
    }
  }

  lemma HarmlessIsSafe(s: State, es: seq<Event>)
    requires Guarded(s) && Harmless(s, es)
    ensures SafeThroughout(s, es)
  {
    forall k, more | 0 <= k <= |es| && NeverRefused(more)
      ensures Safe(Run(Run(s, es[..k]), more))
    {
      HarmlessPrefix(s, es, k);
      HarmlessRun(s, es[..k]);
      GrantedIsHarmless(Run(s, es[..k]), more);
      HarmlessRun(Run(s, es[..k]), more);
    }
  }

  lemma {:induction false} SafeIsHarmless(s: State, es: seq<Event>)
    requires Guarded(s) && SafeThroughout(s, es)
    ensures Harmless(s, es)
    decreases |es|
  {
    if es != [] {
      var t := Step(s, es[0]);
      if Dangerous(s, es[0]) {
        DangerShows(s, es[0]);
        RunHead(s, es, 0);
        assert es[1..][..0] == [] && es[..1] == es[..0 + 1];
        assert Run(s, es[..1]) == t;
        assert NeverRefused([AllowSleep, HostLine(false), Work(true)]);
        assert false;
      }
      HarmlessStep(s, es[0]);
      forall k, more | 0 <= k <= |es[1..]| && NeverRefused(more)
        ensures Safe(Run(Run(t, es[1..][..k]), more))
      {
        RunHead(s, es, k);
        assert Safe(Run(Run(s, es[..k + 1]), more));
      }
      SafeIsHarmless(t, es[1..]);
    }
  }

  /** From the start, a run is safe throughout exactly when it has no dangerous step. */
  lemma AlwaysSafeExactly(es: seq<Event>)
    ensures Harmless(INITIAL, es) <==> SafeThroughout(INITIAL, es)
  {
    if Harmless(INITIAL, es) {
      HarmlessIsSafe(INITIAL, es);
    }
    if SafeThroughout(INITIAL, es) {
      SafeIsHarmless(INITIAL, es);
    }
  }

  // ---- What a dangerous step leads to ----

  /** When the interrupt is refused, the UART can be put to sleep although the protocol does not run,
      and disabling the protocol then leaves RTS dropped. */
  lemma RefusedInterruptStrandsUart()
    ensures var s := Run(INITIAL, [On(true, true, false), AllowSleep, Work(true), Off]);
      s.asleep && !s.rts && !s.uport && !s.lpmEnabled && s.openCount == 1 && !s.proto && !Safe(s)
  {
    var es := [On(true, true, false), AllowSleep, Work(true), Off];
    RunOne(INITIAL, es[0], es);
    assert es[1..] == [AllowSleep, Work(true), Off];
    RunThree(Step(INITIAL, es[0]), AllowSleep, Work(true), Off);
  }

  lemma StrandedStep(s: State, e: Event)
    requires !s.uport && !s.rts && (e.On? ==> !e.dev || !e.port)
    ensures !Step(s, e).uport && !Step(s, e).rts
  {
    match e
    case Work(txEmpty) =>
    case HostLine(level) =>
    case Outgoing =>
    case AllowSleep =>
    case TimerExpires =>
    case On(dev, port, irq) =>
    case Off =>
  }

  /** Without the port RTS stays dropped, whatever happens, until low-power mode is switched on with the
      port there. */
  lemma {:induction false} StaysStranded(s: State, es: seq<Event>)
    requires !s.uport && !s.rts
    requires forall e :: e in es && e.On? ==> !e.dev || !e.port
    ensures !Run(s, es).uport && !Run(s, es).rts
    decreases |es|
  {
    if es != [] {
      assert es[0] in es;
      StrandedStep(s, es[0]);
      StaysStranded(Step(s, es[0]), es[1..]);
    }
  }

  /** Switching it on so makes RTS rise again with the events that follow by themselves.  With the
      interrupt granted the timer started then runs out and queues the work item, and all is well; with
      the interrupt refused nothing is queued, but the next transmission raises RTS. */
  lemma RescuedByNextOn(s: State, txEmpty: bool)
    requires s.asleep && !s.rts && !s.lpmEnabled && s.openCount == 1 && !s.proto
    ensures var t := Run(s, [On(true, true, true), TimerExpires, Work(txEmpty)]);
      t.rts && !t.asleep && Guarded(t)
    ensures var t := Run(s, [On(true, true, false), AllowSleep, Outgoing]);
      t.rts && !t.asleep
  {
    RunThree(s, On(true, true, true), TimerExpires, Work(txEmpty));
    RunThree(s, On(true, true, false), AllowSleep, Outgoing);
  }

  // ---- When RTS is driven ----

  /** RTS is dropped by a work item only, with nothing left to send, nobody calling, no reception lately and
      the port there. */
  lemma DropsExactly(s: State, e: Event)
    ensures s.rts && !Step(s, e).rts <==>
      s.rts && e == Work(true) && !s.asleep && !s.extWake && !s.hostWake && !s.rxTimerFlag && s.uport
  {
    match e
    case Work(txEmpty) =>
    case HostLine(level) =>
    case Outgoing =>
    case AllowSleep =>
    case TimerExpires =>
    case On(dev, port, irq) =>
    case Off =>
  }

  /** It is raised by a work item that finds a reason to wake, by outgoing data, or when the protocol is
      switched off. */
  lemma RaisesExactly(s: State, e: Event)
    ensures !s.rts && Step(s, e).rts <==>
      !s.rts && s.uport && (
        || (e.Work? && s.asleep && (s.extWake || s.hostWake || s.rxTimerFlag))
        || (e == Outgoing && !s.extWake)
        || (e == Off && s.proto && s.asleep))
  {
    match e
    case Work(txEmpty) =>
    case HostLine(level) =>
    case Outgoing =>
    case AllowSleep =>
    case TimerExpires =>
    case On(dev, port, irq) =>
    case Off =>
  }

  /** The controller is called by outgoing data and whenever the protocol is switched on or off, even when
      the interrupt is then refused; only the permission to sleep ends the call. */
  lemma CalledExactly(s: State, e: Event)
    ensures Step(s, e).extWake <==>
      || (s.extWake && e != AllowSleep)
      || e == Outgoing
      || (e.On? && !s.lpmEnabled && !s.proto && s.openCount == 1)
      || (e == Off && s.proto)
  {
    match e
    case Work(txEmpty) =>
    case HostLine(level) =>
    case Outgoing =>
    case AllowSleep =>
    case TimerExpires =>
    case On(dev, port, irq) =>
    case Off =>
  }

  lemma RunFour(s: State, a: Event, b: Event, c: Event, d: Event)
    ensures Run(s, [a, b, c, d]) == Step(Step(Step(Step(s, a), b), c), d)
  {
    RunOne(s, a, [a, b, c, d]);
    assert [a, b, c, d][1..] == [b, c, d];
    RunThree(Step(s, a), b, c, d);
  }

  /** From the start: on, asleep when there is nothing more to send and not before, awake when the controller
      calls, and off. */
  lemma FullCycle(asleep: State, off: State)
    requires asleep == Run(INITIAL, [On(true, true, true), AllowSleep, Work(false), Work(true)])
    requires off == Run(asleep, [HostLine(true), Work(true), Off])
    ensures asleep == State(true, true, false, true, false, false, true, false, 0, true)
    ensures off == State(false, false, true, false, true, true, false, true, 1, false)
  {
    RunFour(INITIAL, On(true, true, true), AllowSleep, Work(false), Work(true));
    RunThree(asleep, HostLine(true), Work(true), Off);
  }

  // ---- Progress ----

  /** While the protocol runs and the controller is quiet, sleep is always three steps away, whatever
      harmless steps came before: no flag can hold it off for ever. */
  lemma SleepWithinReach(es: seq<Event>)
    requires Harmless(INITIAL, es)
    ensures var s := Run(INITIAL, es);
      s.proto && s.uport && !s.hostWake ==> Run(s, [AllowSleep, TimerExpires, Work(true)]).asleep
  {
    HarmlessRun(INITIAL, es);
    RunThree(Run(INITIAL, es), AllowSleep, TimerExpires, Work(true));
  }

  /** A sleeping UART is woken by outgoing data at once, and by the controller's call through the next
      work item, which also arms the timer against falling asleep again. */
  lemma WakesUp(s: State, txEmpty: bool)
    requires Safe(s) && s.asleep
    ensures Step(s, Outgoing).rts && !Step(s, Outgoing).asleep && Step(s, Outgoing).extWake
    ensures s.hostWake ==> var t := Step(s, Work(txEmpty));
      t.rts && !t.asleep && t.rxTimerFlag && t.timerPending && !CanSleep(t)
  {
  }

  // ---- The driver ----

  /** The handlers.  Each is proved to be one step, and to keep the protocol guarded unless the step is
      dangerous. */
  class Driver {
    var proto: bool
    var asleep: bool
    var rxTimerFlag: bool
    var timerPending: bool
    var extWake: bool
    var hostWake: bool
    var uport: bool
    var rts: bool
    var openCount: int
    var lpmEnabled: bool

    ghost function Now(): State
      reads this
    {
      State(proto, asleep, rxTimerFlag, timerPending, extWake, hostWake, uport, rts, openCount, lpmEnabled)
    }

    constructor ()
      ensures Now() == INITIAL
    {
      proto, asleep, rxTimerFlag, timerPending := false, false, false, false;
      extWake, hostWake, uport, rts := true, false, false, true;
      openCount, lpmEnabled := 1, false;
    }

    lemma HarmlessIfGuarded(e: Event)
      ensures Guarded(Now()) && !Dangerous(Now(), e) ==> Guarded(Step(Now(), e))
    {
      if Guarded(Now()) && !Dangerous(Now(), e) {
        HarmlessStep(Now(), e);
      }
    }

    method HsuartPower(on: bool)
      modifies this`rts
      ensures Now() == Power(old(Now()), on)
    {
      if uport {
        rts := on;
      }
    }

    method SleepWorkItem(txEmpty: bool)
      modifies this
      ensures Now() == Step(old(Now()), Work(txEmpty))
      ensures old(Guarded(Now())) ==> Guarded(Now())
    {
      HarmlessIfGuarded(Work(txEmpty));
      if !extWake && !hostWake && !rxTimerFlag && uport {
        if asleep {
          return;
        }
        if txEmpty {
          asleep := true;
          HsuartPower(false);
        }
      } else if asleep {
        asleep := false;
        timerPending := true;
        rxTimerFlag := true;
        HsuartPower(true);
      }
    }

    method OutgoingDataReady()
      modifies this
      ensures Now() == Step(old(Now()), Outgoing)
      ensures old(Guarded(Now())) ==> Guarded(Now())
    {
      HarmlessIfGuarded(Outgoing);
      var powerOn := false;
      if !extWake {
        extWake := true;
        asleep := false;
        powerOn := true;
      }
      if powerOn {
        HsuartPower(true);
      }
    }

    method TxAllowSleep()
      modifies this`extWake
      ensures Now() == Step(old(Now()), AllowSleep)
      ensures old(Guarded(Now())) ==> Guarded(Now())
    {
      HarmlessIfGuarded(AllowSleep);
      extWake := false;
    }

    method RxTimerExpire()
      requires timerPending
      modifies this`timerPending, this`rxTimerFlag
      ensures Now() == Step(old(Now()), TimerExpires)
      ensures old(Guarded(Now())) ==> Guarded(Now())
    {
      HarmlessIfGuarded(TimerExpires);
      timerPending := false;
      rxTimerFlag := false;
    }

    /** Returns 0, or a negative error when the interrupt is refused or the protocol is in use. */
    method StartProtocol(irq: bool) returns (r: int)
      modifies this
      ensures Now() == Start(old(Now()), irq)
      ensures r < 0 <==> !old(proto) && (old(openCount) != 1 || !irq)
    {
      if proto {
        return 0;
      }
      openCount := openCount - 1;
      if openCount != 0 {
        openCount := openCount + 1;
        return -16;
      }
      timerPending := true;
      extWake := true;
      if !irq {
        timerPending := false;
        openCount := openCount + 1;
        return -22;
      }
      proto := true;
      r := 0;
    }

    method StopProtocol()
      modifies this
      ensures Now() == Stop(old(Now()))
    {
      if !proto {
        return;
      }
      extWake := true;
      timerPending := false;
      proto := false;
      if asleep {
        asleep := false;
        HsuartPower(true);
      }
      openCount := openCount + 1;
    }

    method SwitchOff()
      modifies this
      ensures Now() == Step(old(Now()), Off)
    {
      StopProtocol();
      lpmEnabled := false;
      uport := false;
    }

    method SwitchOn(dev: bool, port: bool, irq: bool)
      modifies this
      ensures Now() == Step(old(Now()), On(dev, port, irq))
    {
      if !lpmEnabled {
        lpmEnabled := true;
        if dev {
          uport := port;
        }
        var unused := StartProtocol(irq);
      }
    }

    /** A write to the lpm file: '0' disables the protocol, anything else enables it. */
    method WriteProcLpm(b: char, dev: bool, port: bool, irq: bool)
      modifies this
      ensures var e := if b == '0' then Off else On(dev, port, irq);
        && Now() == Step(old(Now()), e)
        && (old(Guarded(Now())) && !Dangerous(old(Now()), e) ==> Guarded(Now()))
    {
      HarmlessIfGuarded(if b == '0' then Off else On(dev, port, irq));
      if b == '0' {
        SwitchOff();
      } else {
        SwitchOn(dev, port, irq);
      }
    }

    /** A write to the btwrite file. */
    method WriteProcBtwrite(b: char)
      modifies this
      ensures Now() == Step(old(Now()), if b != '0' then Outgoing else AllowSleep)
      ensures old(Guarded(Now())) ==> Guarded(Now())
    {
      HarmlessIfGuarded(if b != '0' then Outgoing else AllowSleep);
      if b != '0' {
        OutgoingDataReady();
      } else {
        TxAllowSleep();
      }
    }
  }
}

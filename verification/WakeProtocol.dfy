/** Double-tap-to-wake as a protocol: the touch driver, the kernel's uevent socket, the wake
    daemon and init, running in any interleaving (dt2w/dt2w_uewake.c and its two .rc files).

    The driver forgets the gesture arm on every resume and refuses writes to the gesture node
    while suspended; the daemon re-arms by pulsing a property 0 -> 1; init turns property
    changes into service starts and stops and into writes to the gesture node. */
module WakeProtocol {
  import opened Text
  import opened UeventScan

  type Payload = seq<byte>

  function Received(p: Payload): Payload {
    if |p| <= RECV_LIMIT then p else p[..RECV_LIMIT]
  }

  /** The daemon asks for a re-arm on reading this. */
  ghost predicate Wakes(p: Payload) {
    IsDoubleTap(p) || IsScreenOn(p)
  }

  /** Starting: the process runs but its socket is not open yet. PulseLow and PulseHigh: about
      to set the arm property to 0, then to 1. */
  datatype Daemon =
    | Stopped
    | Starting
    | Polling
    | Handling(msg: Payload)
    | PulseLow
    | PulseHigh

  datatype PropEvent = ArmSet(on: bool) | EnabledSet(on: bool) | BootCompleted

  datatype Command = StartService | StopService | WriteGesture(on: bool)

  datatype State = State(
    awake: bool,             // panel resumed
    armed: bool,             // the driver's wake-gesture flag
    enabled: bool,           // persist.sys.dt2w.enabled == 1
    armProp: bool,           // sys.dt2w.arm == 1
    socket: seq<Payload>,    // uevents the daemon has not read
    daemon: Daemon,
    events: seq<PropEvent>,  // init: property changes not looked at yet
    commands: seq<Command>)  // init: commands of the event being handled

  datatype Action =
    // driver and user
    | Suspend
    | Resume(notice: Payload)
    | Uevent(payload: Payload)
    | SetEnabled(on: bool, echo: bool)
    | Boot
    // daemon
    | Started
    | Timeout
    | Receive
    | Classify
    | SetLow(ok: bool, echo: bool)
    | SetHigh(ok: bool, echo: bool)
    | Exit
    // init
    | TakeEvent(stopFirst: bool)
    | RunCommand
    // faults
    | LoseUevent
    | ResumeUnnoticed  // a resume whose notice, if any, was sent before it

  ghost predicate HasSocket(d: Daemon) {
    !d.Stopped? && !d.Starting?
  }

  /** A uevent reaches the daemon only while its socket is open. */
  ghost function Deliver(s: State, p: Payload): State {
    if HasSocket(s.daemon) then s.(socket := s.socket + [p]) else s
  }

  /** init queues a change of value; whether it also queues a set that repeats the value
      (echo) is left open. */
  ghost function Notify(s: State, changed: bool, echo: bool, e: PropEvent): State {
    if changed || echo then s.(events := s.events + [e]) else s
  }

  /** The driver accepts a write to the gesture node only while awake. */
  ghost function DriverWrite(s: State, on: bool): State {
    if s.awake then s.(armed := on) else s
  }

  /** The actions the two .rc files attach to a property change. The service block and the
      gesture writes live in different files, so the order of stop and write is open. */
  ghost function CommandsFor(e: PropEvent, enabled: bool, stopFirst: bool): seq<Command> {
    match e
    case ArmSet(on) => if on then [WriteGesture(true)] else []
    case EnabledSet(on) =>
      if on then [StartService]
      else if stopFirst then [StopService, WriteGesture(false)]
      else [WriteGesture(false), StopService]
    case BootCompleted => if enabled then [StartService] else []
  }

  ghost function Execute(s: State, c: Command): State {
    match c
    case StartService => if s.daemon.Stopped? then s.(daemon := Starting) else s
    case StopService => s.(daemon := Stopped, socket := [])
    case WriteGesture(on) => DriverWrite(s, on)
  }

  /** When an action can happen. */
  ghost predicate Enabled(s: State, a: Action) {
    match a
    case Suspend => s.awake
    case Resume(notice) => !s.awake && IsScreenOn(Received(notice))
    case Started => s.daemon.Starting?
    case Timeout => s.daemon.Polling?
    case Receive => s.daemon.Polling? && s.socket != []
    case Classify => s.daemon.Handling?
    case SetLow(_, _) => s.daemon.PulseLow?
    case SetHigh(_, _) => s.daemon.PulseHigh?
    case Exit => !s.daemon.Stopped?
    case TakeEvent(_) => s.commands == [] && s.events != []
    case RunCommand => s.commands != []
    case LoseUevent => s.socket != []
    case ResumeUnnoticed => !s.awake
    case _ => true
  }

  ghost function Next(s: State, a: Action): State
    requires Enabled(s, a)
  {
    match a
    case Suspend => s.(awake := false)
    case Resume(notice) =>
      // the driver clears the arm and reports the screen in one step
      Deliver(s.(awake := true, armed := false), notice)
    case Uevent(payload) => Deliver(s, payload)
    case SetEnabled(on, echo) => Notify(s.(enabled := on), on != s.enabled, echo, EnabledSet(on))
    case Boot => s.(events := s.events + [BootCompleted])
    case Started => s.(daemon := PulseLow, socket := [])
    case Timeout => s.(daemon := PulseLow)
    case Receive =>
      var p := Received(s.socket[0]);
      s.(socket := s.socket[1..], daemon := if p == [] then Polling else Handling(p))
    case Classify => s.(daemon := if Wakes(s.daemon.msg) then PulseLow else Polling)
    case SetLow(ok, echo) =>
      if ok then Notify(s.(daemon := PulseHigh, armProp := false), s.armProp, echo, ArmSet(false))
      else s.(daemon := PulseHigh)
    case SetHigh(ok, echo) =>
      if ok then Notify(s.(daemon := Polling, armProp := true), !s.armProp, echo, ArmSet(true))
      else s.(daemon := Polling)
    case Exit =>
      // not a oneshot service: init starts it again
      s.(daemon := Starting, socket := [])
    case TakeEvent(stopFirst) =>
      s.(events := s.events[1..], commands := CommandsFor(s.events[0], s.enabled, stopFirst))
    case RunCommand => Execute(s.(commands := s.commands[1..]), s.commands[0])
    case LoseUevent => s.(socket := s.socket[1..])
    case ResumeUnnoticed => s.(awake := true, armed := false)
  }

  ghost predicate Step(s: State, a: Action, t: State) {
    Enabled(s, a) && t == Next(s, a)
  }

  /** No lost uevent, no resume without its notice and no failed property set. */
  predicate Faultless(a: Action) {
    !a.LoseUevent? && !a.ResumeUnnoticed? && (a.SetLow? ==> a.ok) && (a.SetHigh? ==> a.ok)
  }

  /** At boot init first reports the stored setting. */
  ghost predicate Init(s: State) {
    && s.daemon.Stopped? && s.socket == [] && s.commands == [] && !s.armProp
    && s.events == [EnabledSet(s.enabled)]
  }

  // ---- What every run keeps, faults or not ----

  /** Whether the service runs once the given commands, then events, are worked off. */
  ghost function AfterCommands(running: bool, cs: seq<Command>): bool
    decreases |cs|
  {
    if cs == [] then running
    else AfterCommands((running || cs[0].StartService?) && !cs[0].StopService?, cs[1..])
  }

  ghost function AfterEvent(running: bool, enabled: bool, e: PropEvent): bool {
    match e
    case ArmSet(_) => running
    case EnabledSet(on) => on
    case BootCompleted => running || enabled
  }

  ghost function AfterEvents(running: bool, enabled: bool, es: seq<PropEvent>): bool
    decreases |es|
  {
    if es == [] then running else AfterEvents(AfterEvent(running, enabled, es[0]), enabled, es[1..])
  }

  ghost predicate WillRun(s: State) {
    AfterEvents(AfterCommands(!s.daemon.Stopped?, s.commands), s.enabled, s.events)
  }

  ghost predicate Consistent(s: State) {
    && (!HasSocket(s.daemon) ==> s.socket == [])
    && (WriteGesture(false) in s.commands && !s.daemon.Stopped? ==> StopService in s.commands)
    && (|s.commands| <= 1 || s.commands == [StopService, WriteGesture(false)]
        || s.commands == [WriteGesture(false), StopService])
    && (WillRun(s) <==> s.enabled)
  }

  /** The last change of the setting decides, whatever was queued before it. */
  lemma {:induction false} AppendEnabledSet(running: bool, enabled: bool, es: seq<PropEvent>, on: bool)
    ensures AfterEvents(running, enabled, es + [EnabledSet(on)]) == on
    decreases |es|
  {
    var all := es + [EnabledSet(on)];
    if es == [] {
      assert all[0] == EnabledSet(on) && all[1..] == [];
    } else {
      assert all[0] == es[0] && all[1..] == es[1..] + [EnabledSet(on)];
      AppendEnabledSet(AfterEvent(running, enabled, es[0]), enabled, es[1..], on);
    }
  }

  lemma {:induction false} AppendOther(running: bool, enabled: bool, es: seq<PropEvent>, e: PropEvent)
    requires !e.EnabledSet?
    ensures AfterEvents(running, enabled, es + [e]) ==
            (AfterEvents(running, enabled, es) || (e.BootCompleted? && enabled))
    decreases |es|
  {
    var all := es + [e];
    if es == [] {
      assert all[0] == e && all[1..] == [];
    } else {
      assert all[0] == es[0] && all[1..] == es[1..] + [e];
      AppendOther(AfterEvent(running, enabled, es[0]), enabled, es[1..], e);
    }
  }

  lemma CommandsDoWhatTheEventSays(running: bool, e: PropEvent, enabled: bool, stopFirst: bool)
    ensures AfterCommands(running, CommandsFor(e, enabled, stopFirst)) == AfterEvents(running, enabled, [e])
  {
    var cs := CommandsFor(e, enabled, stopFirst);
    if |cs| == 2 {
      assert cs[1..] == [cs[1]] && cs[1..][1..] == [];
      assert AfterCommands(running, cs) == AfterCommands(!stopFirst && running, cs[1..]);
      assert AfterCommands(!stopFirst && running, cs[1..]) == AfterCommands(false, cs[1..][1..]);
    }
  }

  lemma InitIsConsistent(s: State)
    requires Init(s)
    ensures Consistent(s)
  {
    AppendEnabledSet(false, s.enabled, [], s.enabled);
    assert [] + [EnabledSet(s.enabled)] == s.events;
  }

  lemma TakeEventKeepsConsistent(s: State, stopFirst: bool, t: State)
    requires Consistent(s) && Step(s, TakeEvent(stopFirst), t)
    ensures Consistent(t)
  {
    CommandsDoWhatTheEventSays(!s.daemon.Stopped?, s.events[0], s.enabled, stopFirst);
    assert s.events[..1] == [s.events[0]];
  }

  lemma CommandsNext(running: bool, cs: seq<Command>)
    requires cs != []
    ensures AfterCommands(running, cs) ==
            AfterCommands((running || cs[0].StartService?) && !cs[0].StopService?, cs[1..])
  {
  }

  lemma RunCommandKeepsConsistent(s: State, t: State)
    requires Consistent(s) && Step(s, RunCommand, t)
    ensures Consistent(t)
  {
    hide AfterEvents, AfterCommands, Wakes, Received, IsScreenOn, CommandsFor, Deliver;
    CommandsNext(!s.daemon.Stopped?, s.commands);
    assert t.commands == [] || t.commands == [s.commands[1]];
  }

  lemma EventQueuedKeepsConsistent(s: State, a: Action, t: State)
    requires Consistent(s) && Step(s, a, t)
    requires a.SetEnabled? || a.Boot? || a.SetLow? || a.SetHigh?
    ensures Consistent(t)
  {
    hide AfterEvents, AfterCommands, Wakes;
    var running := AfterCommands(!s.daemon.Stopped?, s.commands);
    match a
    case SetEnabled(on, echo) =>
      AppendEnabledSet(running, on, s.events, on);
    case Boot =>
      AppendOther(running, s.enabled, s.events, BootCompleted);
    case SetLow(ok, echo) =>
      AppendOther(running, s.enabled, s.events, ArmSet(false));
    case SetHigh(ok, echo) =>
      AppendOther(running, s.enabled, s.events, ArmSet(true));
  }

  lemma StepKeepsConsistent(s: State, a: Action, t: State)
    requires Consistent(s) && Step(s, a, t)
    ensures Consistent(t)
  {
    if a.TakeEvent? {
      TakeEventKeepsConsistent(s, a.stopFirst, t);
    } else if a.RunCommand? {
      RunCommandKeepsConsistent(s, t);
    } else if a.SetEnabled? || a.Boot? || a.SetLow? || a.SetHigh? {
      EventQueuedKeepsConsistent(s, a, t);
    } else {
      assert t.events == s.events && t.commands == s.commands;
      assert t.daemon.Stopped? == s.daemon.Stopped? && t.enabled == s.enabled;
    }
  }

  // ---- The promise ----

  ghost predicate StopAhead(s: State) {
    StopService in s.commands || EnabledSet(false) in s.events
  }

  /** Something already on its way will arm the gesture. */
  ghost predicate ArmOwed(s: State) {
    || s.daemon.Stopped? || s.daemon.Starting?  // a start, and so a start-up request, is due
    || StopAhead(s)                             // a stop, and then a start, is due
    || s.daemon.PulseLow?
    || (s.daemon.PulseHigh? && !s.armProp)
    || (s.daemon.Handling? && Wakes(s.daemon.msg))
    || (exists p :: p in s.socket && Wakes(Received(p)))
    || ArmSet(true) in s.events
    || WriteGesture(true) in s.commands
  }

  /** While enabled, an awake panel is armed or about to be. */
  ghost predicate Promise(s: State) {
    s.enabled && s.awake && !s.armed ==> ArmOwed(s)
  }

  lemma StopIsAheadWhenItWillNotRun(running: bool, enabled: bool, cs: seq<Command>, es: seq<PropEvent>)
    requires running && !AfterEvents(AfterCommands(running, cs), enabled, es)
    ensures StopService in cs || EnabledSet(false) in es
    decreases |cs| + |es|
  {
    if cs != [] {
      if !cs[0].StopService? {
        StopIsAheadWhenItWillNotRun(running, enabled, cs[1..], es);
      }
    } else if es != [] && es[0] != EnabledSet(false) {
      StopIsAheadWhenItWillNotRun(running, enabled, cs, es[1..]);
    }
  }

  lemma AppendKeepsMembers<T>(xs: seq<T>, x: T)
    ensures forall y :: y in xs ==> y in xs + [x]
    ensures x in xs + [x]
  {
    assert (xs + [x])[|xs|] == x;
  }

  /** The one step that uses an arm up: init writes 1 to the gesture node. */
  predicate WritesArm(s: State, a: Action) {
    a.RunCommand? && s.commands != [] && s.commands[0] == WriteGesture(true)
  }

  lemma OutsideKeepsOwed(s: State, a: Action, t: State)
    requires ArmOwed(s) && Step(s, a, t)
    requires a.Suspend? || a.Resume? || a.ResumeUnnoticed? || a.Uevent? || a.SetEnabled? || a.Boot?
    ensures ArmOwed(t)
  {
    hide Wakes, Received, IsScreenOn;
    match a
    case Resume(notice) => AppendKeepsMembers(s.socket, notice);
    case Uevent(payload) => AppendKeepsMembers(s.socket, payload);
    case SetEnabled(on, _) => AppendKeepsMembers(s.events, EnabledSet(on));
    case Boot => AppendKeepsMembers(s.events, BootCompleted);
    case _ =>
  }

  lemma DaemonKeepsOwed(s: State, a: Action, t: State)
    requires ArmOwed(s) && Step(s, a, t) && Faultless(a)
    requires a.Started? || a.Timeout? || a.Receive? || a.Classify? || a.Exit? || a.SetLow? || a.SetHigh?
    ensures ArmOwed(t)
  {
    match a
    case Receive =>
      if p :| p in s.socket && Wakes(Received(p)) && p != s.socket[0] {
        assert p in t.socket;
      }
      assert !Wakes([]) by { NothingWakesOnNothing(); }
    case SetLow(_, _) => AppendKeepsMembers(s.events, ArmSet(false));
    case SetHigh(_, _) => AppendKeepsMembers(s.events, ArmSet(true));
    case _ =>
  }

  lemma NothingWakesOnNothing()
    ensures !Wakes([])
  {
    assert forall i, e :: IsSegment([], i, e) ==> i == e == 0;
    assert |DOUBLE_TAP| > 0;
    forall k, i | 0 <= k < |SCREEN_ON_FORMS|
      ensures !OccursAt([], SCREEN_ON_FORMS[k], i)
    {
      assert |SCREEN_ON_FORMS[k]| > 0;
    }
  }

  lemma TakeEventKeepsOwed(s: State, stopFirst: bool, t: State)
    requires ArmOwed(s) && Step(s, TakeEvent(stopFirst), t)
    ensures ArmOwed(t)
  {
    hide Wakes;
    if s.events[0] == ArmSet(true) {
      assert WriteGesture(true) in t.commands;
    } else if s.events[0] == EnabledSet(false) {
      assert t.commands[0] == StopService || t.commands[1] == StopService;
    } else {
      assert forall e :: e in s.events && e != s.events[0] ==> e in t.events;
    }
  }

  lemma RunCommandKeepsOwed(s: State, t: State)
    requires ArmOwed(s) && Step(s, RunCommand, t) && !WritesArm(s, RunCommand)
    ensures ArmOwed(t)
  {
    hide Wakes, Received;
    assert forall c :: c in s.commands && c != s.commands[0] ==> c in t.commands;
  }

  /** An arm that is owed stays owed until it is written, whether or not the write is accepted. */
  lemma OwedUntilWritten(s: State, a: Action, t: State)
    requires ArmOwed(s) && Step(s, a, t) && !WritesArm(s, a)
    requires Faultless(a) || a.ResumeUnnoticed?
    ensures ArmOwed(t)
  {
    hide ArmOwed, Step;
    match a
    case TakeEvent(stopFirst) => TakeEventKeepsOwed(s, stopFirst, t);
    case RunCommand => RunCommandKeepsOwed(s, t);
    case Started => DaemonKeepsOwed(s, a, t);
    case Timeout => DaemonKeepsOwed(s, a, t);
    case Receive => DaemonKeepsOwed(s, a, t);
    case Classify => DaemonKeepsOwed(s, a, t);
    case SetLow(_, _) => DaemonKeepsOwed(s, a, t);
    case SetHigh(_, _) => DaemonKeepsOwed(s, a, t);
    case Exit => DaemonKeepsOwed(s, a, t);
    case _ => OutsideKeepsOwed(s, a, t);
  }

  /** A notice for the screen makes an arm owed, whenever it is sent. */
  lemma NoticeOwesArm(s: State, notice: Payload, t: State)
    requires Step(s, Uevent(notice), t) && IsScreenOn(Received(notice))
    ensures ArmOwed(t)
  {
    hide IsScreenOn, IsDoubleTap;
    AppendKeepsMembers(s.socket, notice);
    assert Wakes(Received(notice));
  }

  /** On resume the arm is gone, but the notice is in the socket, or a start-up request is due. */
  lemma ResumeOwesArm(s: State, t: State, notice: Payload)
    requires Step(s, Resume(notice), t)
    ensures ArmOwed(t)
  {
    hide IsScreenOn, IsDoubleTap;
    AppendKeepsMembers(s.socket, notice);
    assert Wakes(Received(notice));
  }

  /** A command that takes the arm away belongs to a stop. */
  lemma RunCommandKeepsPromise(s: State, t: State)
    requires Consistent(s) && Promise(s) && Step(s, RunCommand, t)
    ensures Promise(t)
  {
    if WritesArm(s, RunCommand) || !ArmOwed(s) {
      hide Wakes, WillRun, Received;
      assert forall c :: c in s.commands && c != s.commands[0] ==> c in t.commands;
    } else {
      RunCommandKeepsOwed(s, t);
    }
  }

  lemma SettingKeepsPromise(s: State, a: Action, t: State)
    requires Consistent(s) && Promise(s) && Step(s, a, t) && a.SetEnabled?
    ensures Promise(t)
  {
    if ArmOwed(s) {
      OutsideKeepsOwed(s, a, t);
    } else if !s.enabled {
      StopIsAheadWhenItWillNotRun(true, s.enabled, s.commands, s.events);
    }
  }

  lemma StepKeepsPromise(s: State, a: Action, t: State)
    requires Consistent(s) && Promise(s) && Step(s, a, t) && Faultless(a)
    ensures Promise(t)
  {
    match a
    case Resume(notice) => ResumeOwesArm(s, t, notice);
    case SetEnabled(_, _) => SettingKeepsPromise(s, a, t);
    case RunCommand => RunCommandKeepsPromise(s, t);
    case _ =>
      hide ArmOwed, Consistent;
      if ArmOwed(s) {
        OwedUntilWritten(s, a, t);
      }
  }

  /** A resume that comes without its notice keeps the promise exactly when an arm is owed
      already: it is enough that the driver "is about to" resume, as long as the daemon and init
      are not yet done with the notice. */
  lemma UnnoticedResumeKeepsPromiseIff(s: State, t: State)
    requires Step(s, ResumeUnnoticed, t)
    ensures Promise(t) <==> (s.enabled ==> ArmOwed(s))
  {
    hide Wakes, Received;
  }
}

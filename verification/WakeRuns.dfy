/** Whole runs of the wake protocol: safety from boot on, what a timeout repairs, when the queues
    drain, and what disabling achieves. */
module WakeRuns {
  import opened UeventScan
  import opened WakeProtocol

  // ---- Whole runs ----

  ghost predicate IsRun(states: seq<State>, actions: seq<Action>) {
    && |states| == |actions| + 1
    && forall i :: 0 <= i < |actions| ==> Step(states[i], actions[i], states[i + 1])
  }

  lemma RunKeepsConsistent(states: seq<State>, actions: seq<Action>, n: nat)
    requires IsRun(states, actions) && Init(states[0]) && n < |states|
    ensures Consistent(states[n])
  {
    InitIsConsistent(states[0]);
    for i := 0 to n
      invariant Consistent(states[i])
    {
      StepKeepsConsistent(states[i], actions[i], states[i + 1]);
    }
  }

  /** A step that keeps the promise: no fault, or a resume without its notice at a moment when an
      arm is owed anyhow. */
  ghost predicate Harmless(s: State, a: Action) {
    Faultless(a) || (a.ResumeUnnoticed? && (s.enabled ==> ArmOwed(s)))
  }

  /** Safety over whole runs, across enabling, disabling, restarts and every interleaving: from
      any point where the promise holds, it holds as long as every step is harmless, early notices
      included. */
  lemma HarmlessRunKeepsPromise(states: seq<State>, actions: seq<Action>, from: nat, n: nat)
    requires IsRun(states, actions) && Init(states[0]) && from <= n < |states|
    requires from == 0 || Promise(states[from])
    requires forall i :: from <= i < n ==> Harmless(states[i], actions[i])
    ensures Promise(states[n])
  {
    hide Consistent, Promise, Step, Init;
    if from == 0 {
      InitKeepsPromise(states[0]);
    }
    for i := from to n
      invariant Promise(states[i])
    {
      RunKeepsConsistent(states, actions, i);
      if Faultless(actions[i]) {
        StepKeepsPromise(states[i], actions[i], states[i + 1]);
      } else {
        UnnoticedResumeKeepsPromiseIff(states[i], states[i + 1]);
      }
    }
  }

  lemma InitKeepsPromise(s: State)
    requires Init(s)
    ensures Promise(s)
  {
  }

  lemma FaultlessRunKeepsPromise(states: seq<State>, actions: seq<Action>, from: nat, n: nat)
    requires IsRun(states, actions) && Init(states[0]) && from <= n < |states|
    requires from == 0 || Promise(states[from])
    requires forall i :: from <= i < n ==> Faultless(actions[i])
    ensures Promise(states[n])
  {
    hide Promise, Init, IsRun, Faultless;
    HarmlessRunKeepsPromise(states, actions, from, n);
  }

  /** A notice sent ahead of its resume does no harm as long as the resume comes before init
      writes the arm: then the promise holds at the resume. */
  lemma EarlyNoticeInTime(states: seq<State>, actions: seq<Action>, notice: nat, resume: nat)
    requires IsRun(states, actions) && notice < resume < |actions|
    requires actions[notice].Uevent? && IsScreenOn(Received(actions[notice].payload))
    requires actions[resume].ResumeUnnoticed?
    requires forall i :: notice < i < resume ==> Faultless(actions[i]) && !WritesArm(states[i], actions[i])
    ensures Harmless(states[resume], actions[resume]) && Promise(states[resume + 1])
  {
    hide Step, ArmOwed, Promise, IsScreenOn, WritesArm, Faultless;
    NoticeOwesArm(states[notice], actions[notice].payload, states[notice + 1]);
    for i := notice + 1 to resume
      invariant ArmOwed(states[i])
    {
      OwedUntilWritten(states[i], actions[i], states[i + 1]);
    }
    UnnoticedResumeKeepsPromiseIff(states[resume], states[resume + 1]);
  }

  /** Nothing is under way any more. */
  ghost predicate Drained(s: State) {
    s.socket == [] && s.events == [] && s.commands == [] && (s.daemon.Polling? || s.daemon.Stopped?)
  }

  /** Once drained the service runs exactly when the setting is on, and an awake panel is then
      armed, so the next suspend starts armed. */
  lemma DrainedAwakeIsArmed(states: seq<State>, actions: seq<Action>, n: nat)
    requires IsRun(states, actions) && Init(states[0]) && n < |states|
    requires forall i :: 0 <= i < n ==> Faultless(actions[i])
    requires Drained(states[n])
    ensures states[n].daemon.Polling? <==> states[n].enabled
    ensures states[n].enabled && states[n].awake ==> states[n].armed
    ensures n < |actions| && actions[n].Suspend? && states[n].enabled ==> states[n + 1].armed
  {
    RunKeepsConsistent(states, actions, n);
    FaultlessRunKeepsPromise(states, actions, 0, n);
  }

  lemma RepairOwesArm(s: State, a: Action, t: State)
    requires a.Timeout? || (a.Uevent? && IsScreenOn(Received(a.payload)))
    requires Step(s, a, t)
    ensures ArmOwed(t)
  {
    hide IsScreenOn, Received, Wakes;
    if a.Uevent? {
      NoticeOwesArm(s, a.payload, t);
    }
  }

  /** The poll timeout is a safety net: whatever uevents were lost and property sets failed
      before it, the promise holds from the timeout on if nothing fails after it, and so does it
      from a late notice on. Once everything is drained an awake panel is armed. */
  lemma RepairedIsArmed(states: seq<State>, actions: seq<Action>, k: nat, n: nat)
    requires IsRun(states, actions) && Init(states[0]) && k < n < |states|
    requires actions[k].Timeout? || (actions[k].Uevent? && IsScreenOn(Received(actions[k].payload)))
    requires forall i :: k < i < n ==> Faultless(actions[i])
    ensures Promise(states[n])
    ensures Drained(states[n]) && states[n].enabled && states[n].awake ==> states[n].armed
  {
    hide Step;
    assert Step(states[k], actions[k], states[k + 1]);
    RepairOwesArm(states[k], actions[k], states[k + 1]);
    assert Promise(states[k + 1]);
    RunKeepsConsistent(states, actions, n);
    FaultlessRunKeepsPromise(states, actions, k + 1, n);
    if Drained(states[n]) {
      DrainedArmed(states[n]);
    }
  }

  lemma DrainedArmed(s: State)
    requires Consistent(s) && Promise(s) && Drained(s)
    ensures s.enabled && s.awake ==> s.armed
    ensures s.daemon.Polling? <==> s.enabled
  {
    hide Wakes, Received;
  }

  /** One run after another. */
  lemma Joined(a: seq<State>, x: seq<Action>, b: seq<State>, y: seq<Action>)
    requires IsRun(a, x) && IsRun(b, y) && a[|a| - 1] == b[0]
    ensures var c := a + b[1..]; IsRun(c, x + y) && c[0] == a[0] && c[|c| - 1] == b[|b| - 1]
  {
    hide Step;
    var c, z := a + b[1..], x + y;
    forall i | 0 <= i < |z|
      ensures Step(c[i], z[i], c[i + 1])
    {
      assert i < |x| ==> c[i] == a[i] && c[i + 1] == a[i + 1];
      assert i >= |x| ==> c[i] == b[i - |x|] && c[i + 1] == b[i - |x| + 1];
    }
  }

  ghost predicate AllFaultless(actions: seq<Action>) {
    forall i :: 0 <= i < |actions| ==> Faultless(actions[i])
  }

  lemma NoticeIsHandled(s: State, notice: Payload) returns (states: seq<State>, actions: seq<Action>)
    requires Drained(s) && s.daemon.Polling?
    requires IsScreenOn(notice) && 0 < |notice| <= RECV_LIMIT
    ensures IsRun(states, actions) && AllFaultless(actions)
    ensures states[0] == s && states[|states| - 1] == s.(daemon := PulseLow)
  {
    hide IsScreenOn, IsDoubleTap;
    assert Wakes(notice) && Received(notice) == notice;
    hide Wakes, Received;
    assert s.socket + [notice] == [notice] && [notice][1..] == [];
    states := [s, s.(socket := [notice]), s.(daemon := Handling(notice)), s.(daemon := PulseLow)];
    actions := [Uevent(notice), Receive, Classify];
  }

  lemma ArmIsQueued(s: State, p: State) returns (states: seq<State>, actions: seq<Action>)
    requires p.daemon.PulseLow? && p.events == [] && s == p.(daemon := Polling, armProp := true)
    ensures IsRun(states, actions) && AllFaultless(actions)
    ensures states[0] == p
    ensures states[|states| - 1] == s.(events := if p.armProp then [ArmSet(false), ArmSet(true)] else [ArmSet(true)])
  {
    hide Wakes, Received, IsScreenOn;
    var low := if p.armProp then [ArmSet(false)] else [];
    assert [] + [ArmSet(false)] == [ArmSet(false)] && low + [ArmSet(true)] ==
           if p.armProp then [ArmSet(false), ArmSet(true)] else [ArmSet(true)];
    states := [p, p.(daemon := PulseHigh, armProp := false, events := low), s.(events := low + [ArmSet(true)])];
    actions := [SetLow(true, false), SetHigh(true, false)];
  }

  lemma ArmIsWritten(s: State) returns (states: seq<State>, actions: seq<Action>)
    requires s.events == [ArmSet(true)] && s.commands == []
    ensures IsRun(states, actions) && AllFaultless(actions)
    ensures states[0] == s && states[|states| - 1] == DriverWrite(s.(events := []), true)
  {
    hide Wakes, Received, IsScreenOn;
    assert s.events[1..] == [] && [WriteGesture(true)][1..] == [];
    states := [s, s.(events := [], commands := [WriteGesture(true)]), DriverWrite(s.(events := []), true)];
    actions := [TakeEvent(true), RunCommand];
  }

  lemma LowIsTaken(s: State) returns (states: seq<State>, actions: seq<Action>)
    requires s.events == [ArmSet(false), ArmSet(true)] && s.commands == []
    ensures IsRun(states, actions) && AllFaultless(actions)
    ensures states[0] == s && states[|states| - 1] == s.(events := [ArmSet(true)])
  {
    hide Wakes, Received, IsScreenOn;
    assert s.events[1..] == [ArmSet(true)];
    states := [s, s.(events := [ArmSet(true)])];
    actions := [TakeEvent(true)];
  }

  lemma JoinedFaultless(x: seq<Action>, y: seq<Action>)
    requires AllFaultless(x) && AllFaultless(y)
    ensures AllFaultless(x + y)
  {
    hide Faultless;
  }

  /** A notice that init is done with before the panel resumes. */
  lemma EarlyNoticeIsHandled(s: State, notice: Payload) returns (states: seq<State>, actions: seq<Action>)
    requires Drained(s) && s.daemon.Polling? && !s.awake && s.armProp
    requires IsScreenOn(notice) && 0 < |notice| <= RECV_LIMIT
    ensures IsRun(states, actions) && AllFaultless(actions) && states[0] == s && states[|states| - 1] == s
  {
    DrainedIs(s);
    hide *;
    var a, x := NoticeIsHandled(s, notice);
    var b, y := ArmIsQueued(s, s.(daemon := PulseLow));
    Joined(a, x, b, y);
    JoinedFaultless(x, y);
    var c, z := LowIsTaken(s.(events := [ArmSet(false), ArmSet(true)]));
    Joined(a + b[1..], x + y, c, z);
    JoinedFaultless(x + y, z);
    var d, w := ArmIsWritten(s.(events := [ArmSet(true)]));
    RefusedWhileAsleep(s);
    Joined(a + b[1..] + c[1..], x + y + z, d, w);
    JoinedFaultless(x + y + z, w);
    states, actions := a + b[1..] + c[1..] + d[1..], x + y + z + w;
  }

  lemma DrainedIs(s: State)
    requires Drained(s) && s.daemon.Polling?
    ensures s.events == [] && s.commands == [] && s.socket == [] && s.(daemon := Polling) == s
  {
  }

  lemma RefusedWhileAsleep(s: State)
    requires !s.awake
    ensures DriverWrite(s, true) == s
  {
  }

  /** The promise needs the notice to come with the resume: if the driver reports the screen
      before it resumes, the daemon's request is carried out too early and refused, and the panel
      wakes up unarmed with nothing under way, until the next timeout. */
  lemma EarlyNoticeBreaksPromise(s: State, notice: Payload) returns (states: seq<State>, actions: seq<Action>)
    requires Drained(s) && s.daemon.Polling? && s.enabled && !s.awake && s.armProp
    requires IsScreenOn(notice) && 0 < |notice| <= RECV_LIMIT
    ensures IsRun(states, actions) && states[0] == s
    ensures forall i :: 0 <= i < |actions| ==> (Faultless(actions[i]) <==> i < |actions| - 1)
    ensures var last := states[|states| - 1]; Drained(last) && last.enabled && last.awake && !last.armed
    ensures !Promise(states[|states| - 1])
  {
    hide IsScreenOn, IsDoubleTap, Wakes, Received, Deliver, CommandsFor, Execute, Notify;
    var a, x := EarlyNoticeIsHandled(s, notice);
    var awake := s.(awake := true, armed := false);
    assert Step(s, ResumeUnnoticed, awake);
    assert IsRun([s, awake], [ResumeUnnoticed]);
    assert Drained(awake) && !ArmOwed(awake);
    hide IsRun, ArmOwed, Drained;
    Joined(a, x, [s, awake], [ResumeUnnoticed]);
    states, actions := a + [s, awake][1..], x + [ResumeUnnoticed];
  }

  lemma ServiceStarts(s: State) returns (states: seq<State>, actions: seq<Action>)
    requires Init(s) && s.enabled
    ensures IsRun(states, actions) && AllFaultless(actions)
    ensures states[0] == s && states[|states| - 1] == s.(events := [], daemon := PulseLow)
  {
    hide Wakes, Received, IsScreenOn;
    assert s.events[1..] == [] && [StartService][1..] == [];
    states := [s, s.(events := [], commands := [StartService]), s.(events := [], daemon := Starting),
               s.(events := [], daemon := PulseLow)];
    actions := [TakeEvent(true), RunCommand, Started];
  }

  /** A settled state with the property at 1, as the failing runs start from, is reached from
      every boot with the setting on. */
  lemma SettledIsReachable(s: State) returns (states: seq<State>, actions: seq<Action>)
    requires Init(s) && s.enabled
    ensures IsRun(states, actions) && states[0] == s && AllFaultless(actions)
    ensures var last := states[|states| - 1];
            && Drained(last) && last.daemon.Polling? && last.enabled && last.armProp
            && last.awake == s.awake && (last.awake ==> last.armed)
  {
    var settled := s.(events := [], daemon := Polling, armProp := true);
    var armed := DriverWrite(settled, true);
    assert Drained(armed) && armed.daemon.Polling? && armed.enabled && armed.armProp;
    assert armed.awake == s.awake && (armed.awake ==> armed.armed) && !s.armProp;
    hide *;
    var a, x := ServiceStarts(s);
    var b, y := ArmIsQueued(settled, s.(events := [], daemon := PulseLow));
    Joined(a, x, b, y);
    JoinedFaultless(x, y);
    var c, z := ArmIsWritten(settled.(events := [ArmSet(true)]));
    Joined(a + b[1..], x + y, c, z);
    JoinedFaultless(x + y, z);
    states, actions := a + b[1..] + c[1..], x + y + z;
  }

  // ---- Draining comes to an end ----

  predicate Internal(a: Action) {
    a.Started? || a.Receive? || a.Classify? || a.SetLow? || a.SetHigh? || a.TakeEvent? || a.RunCommand?
  }

  ghost function CommandWork(cs: seq<Command>): nat
    decreases |cs|
  {
    if cs == [] then 0 else (if cs[0].StartService? then 7 else 1) + CommandWork(cs[1..])
  }

  ghost function EventCost(e: PropEvent): nat {
    match e
    case ArmSet(on) => if on then 2 else 1
    case EnabledSet(on) => if on then 8 else 3
    case BootCompleted => 8
  }

  ghost function EventWork(es: seq<PropEvent>): nat
    decreases |es|
  {
    if es == [] then 0 else EventCost(es[0]) + EventWork(es[1..])
  }

  ghost function DaemonWork(d: Daemon): nat {
    match d
    case Stopped => 0
    case Starting => 6
    case Polling => 0
    case Handling(_) => 6
    case PulseLow => 5
    case PulseHigh => 3
  }

  ghost function Work(s: State): nat {
    DaemonWork(s.daemon) + 7 * |s.socket| + EventWork(s.events) + CommandWork(s.commands)
  }

  lemma EventWorkAppend(es: seq<PropEvent>, e: PropEvent)
    ensures EventWork(es + [e]) == EventWork(es) + EventCost(e)
    decreases |es|
  {
    if es == [] {
      assert es + [e] == [e];
    } else {
      assert (es + [e])[1..] == es[1..] + [e];
      EventWorkAppend(es[1..], e);
    }
  }

  lemma TakenEventWork(es: seq<PropEvent>, enabled: bool, stopFirst: bool)
    requires es != []
    ensures CommandWork(CommandsFor(es[0], enabled, stopFirst)) + EventWork(es[1..]) < EventWork(es)
  {
    var cs := CommandsFor(es[0], enabled, stopFirst);
    if |cs| == 2 {
      assert cs[1..] == [cs[1]] && cs[1..][1..] == [];
      assert CommandWork(cs) == 1 + CommandWork(cs[1..]);
      assert CommandWork(cs[1..]) == 1 + CommandWork(cs[1..][1..]);
    }
  }

  /** Left alone, daemon and init finish: every internal step uses up work ... */
  lemma InternalStepUsesWork(s: State, a: Action, t: State)
    requires Internal(a) && Step(s, a, t)
    ensures Work(t) < Work(s)
  {
    if a.SetLow? || a.SetHigh? {
      PulseUsesWork(s, a, t);
    } else if a.TakeEvent? {
      TakenEventWork(s.events, s.enabled, a.stopFirst);
    } else if a.RunCommand? {
      CommandUsesWork(s, t);
    } else {
      assert t.events == s.events && t.commands == s.commands;
    }
  }

  lemma PulseUsesWork(s: State, a: Action, t: State)
    requires (a.SetLow? || a.SetHigh?) && Step(s, a, t)
    ensures Work(t) < Work(s)
  {
    hide EventWork, CommandWork, Step;
    var e := ArmSet(a.SetHigh?);
    PulseStep(s, a, t);
    EventWorkAppend(s.events, e);
  }

  lemma PulseStep(s: State, a: Action, t: State)
    requires (a.SetLow? || a.SetHigh?) && Step(s, a, t)
    ensures var e := ArmSet(a.SetHigh?);
            && t.socket == s.socket && t.commands == s.commands
            && (t.events == s.events || t.events == s.events + [e])
            && DaemonWork(t.daemon) + EventCost(e) < DaemonWork(s.daemon)
  {
    if a.SetLow? {
      SetLowStep(s, a, t);
    } else {
      SetHighStep(s, a, t);
    }
  }

  lemma SetLowStep(s: State, a: Action, t: State)
    requires a.SetLow? && Step(s, a, t)
    ensures t.socket == s.socket && t.commands == s.commands && s.daemon.PulseLow? && t.daemon.PulseHigh?
    ensures t.events == s.events || t.events == s.events + [ArmSet(false)]
  {
    hide Wakes, Received, IsScreenOn, CommandsFor, Execute, Deliver;
  }

  lemma SetHighStep(s: State, a: Action, t: State)
    requires a.SetHigh? && Step(s, a, t)
    ensures t.socket == s.socket && t.commands == s.commands && s.daemon.PulseHigh? && t.daemon.Polling?
    ensures t.events == s.events || t.events == s.events + [ArmSet(true)]
  {
    hide Wakes, Received, IsScreenOn, CommandsFor, Execute, Deliver;
  }

  lemma CommandUsesWork(s: State, t: State)
    requires Step(s, RunCommand, t)
    ensures Work(t) < Work(s)
  {
    assert t.commands == s.commands[1..];
  }

  lemma InternalStretchIsBounded(states: seq<State>, actions: seq<Action>, n: nat, m: nat)
    requires IsRun(states, actions) && n <= m < |states|
    requires forall i :: n <= i < m ==> Internal(actions[i])
    ensures m - n <= Work(states[n])
  {
    for i := n to m
      invariant Work(states[i]) + (i - n) <= Work(states[n])
    {
      InternalStepUsesWork(states[i], actions[i], states[i + 1]);
    }
  }

  /** ... and while anything is under way an internal step is possible. */
  lemma InternalStepPossible(s: State)
    requires Consistent(s)
    ensures Drained(s) <==> forall a :: Internal(a) ==> !Enabled(s, a)
  {
    assert Enabled(s, RunCommand) <==> s.commands != [];
    assert s.commands == [] ==> (Enabled(s, TakeEvent(true)) <==> s.events != []);
    assert Enabled(s, Started) <==> s.daemon.Starting?;
    assert Enabled(s, Receive) <==> s.daemon.Polling? && s.socket != [];
    assert Enabled(s, Classify) <==> s.daemon.Handling?;
    assert Enabled(s, SetLow(true, true)) <==> s.daemon.PulseLow?;
    assert Enabled(s, SetHigh(true, true)) <==> s.daemon.PulseHigh?;
  }

  // ---- Disabling ----

  /** The setting is off and the service is stopped; nothing queued can change that. */
  ghost predicate Off(s: State) {
    && !s.enabled && s.daemon.Stopped? && s.socket == []
    && StartService !in s.commands && WriteGesture(true) !in s.commands
    && EnabledSet(true) !in s.events && ArmSet(true) !in s.events
  }

  lemma DrainedDisabledIsOff(s: State)
    requires Consistent(s) && Drained(s) && !s.enabled
    ensures Off(s)
  {
  }

  lemma StepKeepsOff(s: State, a: Action, t: State)
    requires Off(s) && Step(s, a, t) && !(a.SetEnabled? && a.on)
    ensures Off(t)
    ensures t.armed ==> s.armed && !a.Resume? && !a.ResumeUnnoticed?
  {
    if a.TakeEvent? {
      assert s.events[0] in s.events;
    } else if a.RunCommand? {
      assert s.commands[0] in s.commands;
    }
  }

  /** Disabling is eventually final: once off, the first resume leaves the gesture unarmed,
      and it stays unarmed until the setting is switched on again. */
  lemma DisabledStaysUnarmedFromNextResume(
      states: seq<State>, actions: seq<Action>, off: nat, resume: nat, n: nat)
    requires IsRun(states, actions) && off <= resume < n < |states|
    requires Off(states[off]) && (actions[resume].Resume? || actions[resume].ResumeUnnoticed?)
    requires forall i :: off <= i < n ==> !(actions[i].SetEnabled? && actions[i].on)
    ensures Off(states[n]) && !states[n].armed
  {
    for i := off to n
      invariant Off(states[i])
      invariant resume < i ==> !states[i].armed
    {
      StepKeepsOff(states[i], actions[i], states[i + 1]);
    }
  }

  /** The commands of the disabling have run while the panel is awake: nothing can start the
      service, and no further write of 0 is due. */
  ghost predicate Disabled(s: State) {
    && !s.enabled && s.daemon.Stopped? && s.awake && s.socket == []
    && StartService !in s.commands && WriteGesture(false) !in s.commands
    && forall e :: e in s.events ==> !e.EnabledSet?
  }

  /** The gesture is armed, or an arm is still queued. */
  ghost predicate ArmLeft(s: State) {
    s.armed || ArmSet(true) in s.events || WriteGesture(true) in s.commands
  }

  predicate Interferes(a: Action) {
    a.Suspend? || a.SetEnabled?
  }

  lemma StepKeepsArmLeft(s: State, a: Action, t: State)
    requires Disabled(s) && Step(s, a, t) && !Interferes(a)
    ensures Disabled(t) && (ArmLeft(t) <==> ArmLeft(s))
  {
    hide Wakes, Received, IsScreenOn;
    match a
    case TakeEvent(_) =>
      assert s.events[0] in s.events;
      assert forall e :: e in s.events <==> e == s.events[0] || e in t.events;
    case RunCommand =>
      assert s.commands[0] in s.commands;
      assert forall c :: c in s.commands <==> c == s.commands[0] || c in t.commands;
    case Boot =>
      AppendKeepsMembers(s.events, BootCompleted);
    case _ =>
  }

  /** Exactly when a disabled, awake panel ends up armed: an arm was set or queued when the
      service had been stopped and 0 had been written. */
  lemma LeftArmedIff(states: seq<State>, actions: seq<Action>, stop: nat, n: nat)
    requires IsRun(states, actions) && stop <= n < |states| && Drained(states[n])
    requires var s := states[stop];
             && !s.enabled && s.daemon.Stopped? && s.awake && s.socket == []
             && StartService !in s.commands && WriteGesture(false) !in s.commands
             && forall e :: e in s.events ==> !e.EnabledSet?
    requires forall i :: stop <= i < n ==> !actions[i].Suspend? && !actions[i].SetEnabled?
    ensures var s := states[stop];
            && states[n].awake
            && (states[n].armed <==> s.armed || ArmSet(true) in s.events || WriteGesture(true) in s.commands)
  {
    for i := stop to n
      invariant Disabled(states[i]) && (ArmLeft(states[i]) <==> ArmLeft(states[stop]))
    {
      StepKeepsArmLeft(states[i], actions[i], states[i + 1]);
    }
  }

  lemma RaceUntilSwitch(s: State, s1: State, s2: State, s3: State, s4: State)
    requires s.daemon.Polling? && s.armProp && s.enabled && s.events == []
    requires s1 == s.(daemon := PulseLow)
    requires s2 == s.(daemon := PulseHigh, armProp := false, events := [ArmSet(false)])
    requires s3 == s2.(enabled := false, events := [ArmSet(false), EnabledSet(false)])
    requires s4 == s3.(daemon := Polling, armProp := true,
                       events := [ArmSet(false), EnabledSet(false), ArmSet(true)])
    ensures Step(s, Timeout, s1) && Step(s1, SetLow(true, false), s2)
    ensures Step(s2, SetEnabled(false, false), s3) && Step(s3, SetHigh(true, false), s4)
  {
  }

  lemma RaceAfterSwitch(s4: State, s5: State, s6: State, s7: State, s8: State, s9: State, s10: State)
    requires s4.events == [ArmSet(false), EnabledSet(false), ArmSet(true)] && s4.commands == []
    requires s4.awake && s4.socket == []
    requires s5 == s4.(events := [EnabledSet(false), ArmSet(true)])
    requires s6 == s4.(events := [ArmSet(true)], commands := [StopService, WriteGesture(false)])
    requires s7 == s4.(events := [ArmSet(true)], commands := [WriteGesture(false)], daemon := Stopped)
    requires s8 == s4.(events := [ArmSet(true)], daemon := Stopped, armed := false)
    requires s9 == s4.(events := [], daemon := Stopped, armed := false, commands := [WriteGesture(true)])
    requires s10 == s4.(events := [], daemon := Stopped, armed := true)
    ensures Step(s4, TakeEvent(true), s5) && Step(s5, TakeEvent(true), s6)
    ensures Step(s6, RunCommand, s7) && Step(s7, RunCommand, s8)
    ensures Step(s8, TakeEvent(true), s9) && Step(s9, RunCommand, s10)
  {
    assert s4.events[1..] == s5.events && s5.events[1..] == s6.events && s8.events[1..] == s9.events;
    assert s6.commands[1..] == s7.commands && s7.commands[1..] == [] && s9.commands[1..] == [];
  }

  /** Before that resume the gesture may still be armed, without any fault: from every settled
      state an arm pulse can straddle the switch, and init then writes 1 after it wrote 0. */
  lemma DisableMayLeaveArmedUntilResume(s: State) returns (states: seq<State>, actions: seq<Action>)
    requires Drained(s) && s.daemon.Polling? && s.enabled && s.awake && s.armProp
    ensures IsRun(states, actions) && states[0] == s && AllFaultless(actions)
    ensures var last := states[|states| - 1]; Drained(last) && Off(last) && last.awake && last.armed
  {
    hide Enabled, Next;
    var s1 := s.(daemon := PulseLow);
    var s2 := s.(daemon := PulseHigh, armProp := false, events := [ArmSet(false)]);
    var s3 := s2.(enabled := false, events := [ArmSet(false), EnabledSet(false)]);
    var s4 := s3.(daemon := Polling, armProp := true,
                  events := [ArmSet(false), EnabledSet(false), ArmSet(true)]);
    var s5 := s4.(events := [EnabledSet(false), ArmSet(true)]);
    var s6 := s4.(events := [ArmSet(true)], commands := [StopService, WriteGesture(false)]);
    var s7 := s4.(events := [ArmSet(true)], commands := [WriteGesture(false)], daemon := Stopped);
    var s8 := s4.(events := [ArmSet(true)], daemon := Stopped, armed := false);
    var s9 := s4.(events := [], daemon := Stopped, armed := false, commands := [WriteGesture(true)]);
    var s10 := s4.(events := [], daemon := Stopped, armed := true);
    RaceUntilSwitch(s, s1, s2, s3, s4);
    RaceAfterSwitch(s4, s5, s6, s7, s8, s9, s10);
    states := [s, s1, s2, s3, s4, s5, s6, s7, s8, s9, s10];
    actions := [Timeout, SetLow(true, false), SetEnabled(false, false), SetHigh(true, false),
                TakeEvent(true), TakeEvent(true), RunCommand, RunCommand, TakeEvent(true), RunCommand];
  }

  // ---- What can happen ----

  /** Boot can find the panel in any state and the setting at either value. */
  lemma BootStates(s: State)
    ensures Init(s) <==> s == State(s.awake, s.armed, s.enabled, false, [], Stopped, [EnabledSet(s.enabled)], [])
  {
  }

  /** Outside the daemon and init: the panel can be suspended whenever it is awake and resumed
      whenever it is not, with or without a notice; messages can be sent at any time and lost; the
      setting can be switched at any time. */
  lemma OutsideSteps(s: State, t: State, p: Payload)
    ensures Step(s, Suspend, t) <==> s.awake && t == s.(awake := false)
    ensures Step(s, ResumeUnnoticed, t) <==> !s.awake && t == s.(awake := true, armed := false)
    ensures Step(s, Resume(p), t) <==>
            && !s.awake && IsScreenOn(if |p| <= 4095 then p else p[..4095])
            && t == s.(awake := true, armed := false,
                       socket := if s.daemon.Stopped? || s.daemon.Starting? then s.socket else s.socket + [p])
  {
    hide IsScreenOn;
  }

  lemma MessageSteps(s: State, t: State, p: Payload)
    ensures Step(s, Uevent(p), t) <==>
            t == s.(socket := if s.daemon.Stopped? || s.daemon.Starting? then s.socket else s.socket + [p])
    ensures Step(s, LoseUevent, t) <==> s.socket != [] && t == s.(socket := s.socket[1..])
  {
  }

  lemma SettingSteps(s: State, t: State, on: bool, echo: bool)
    ensures Step(s, SetEnabled(on, echo), t) <==>
            t == s.(enabled := on,
                    events := if on != s.enabled || echo then s.events + [EnabledSet(on)] else s.events)
    ensures Step(s, Boot, t) <==> t == s.(events := s.events + [BootCompleted])
  {
  }

  /** What the daemon does with the messages it receives. */
  lemma ReadingSteps(s: State, t: State)
    ensures Step(s, Receive, t) <==>
            && s.daemon.Polling? && s.socket != []
            && var p := s.socket[0];
               t == s.(socket := s.socket[1..],
                       daemon := if p == [] then Polling else Handling(if |p| <= 4095 then p else p[..4095]))
    ensures Step(s, Classify, t) <==>
            && s.daemon.Handling?
            && t == s.(daemon := if HasSegment(s.daemon.msg, Bytes("double_tap=true")) || IsScreenOn(s.daemon.msg)
                                 then PulseLow else Polling)
  {
    WakingMessages(if s.daemon.Handling? then s.daemon.msg else []);
  }

  /** A request sets the property to 0 and then to 1; init sees what changes it, and may see more. */
  lemma PulseStepsAre(s: State, t: State, ok: bool, echo: bool)
    ensures Step(s, SetLow(ok, echo), t) <==>
            && s.daemon.PulseLow?
            && t == if !ok then s.(daemon := PulseHigh)
                    else s.(daemon := PulseHigh, armProp := false,
                            events := if s.armProp || echo then s.events + [ArmSet(false)] else s.events)
    ensures Step(s, SetHigh(ok, echo), t) <==>
            && s.daemon.PulseHigh?
            && t == if !ok then s.(daemon := Polling)
                    else s.(daemon := Polling, armProp := true,
                            events := if !s.armProp || echo then s.events + [ArmSet(true)] else s.events)
  {
  }

  /** Init takes one event at a time and runs its commands one by one before the next. */
  lemma EventSteps(s: State, t: State, stopFirst: bool)
    ensures Step(s, TakeEvent(stopFirst), t) <==>
            && s.commands == [] && s.events != []
            && t == s.(events := s.events[1..],
                       commands := match s.events[0]
                                   case ArmSet(on) => if on then [WriteGesture(true)] else []
                                   case EnabledSet(true) => [StartService]
                                   case EnabledSet(false) =>
                                     if stopFirst then [StopService, WriteGesture(false)]
                                     else [WriteGesture(false), StopService]
                                   case BootCompleted => if s.enabled then [StartService] else [])
  {
  }

  /** Starting a running service does nothing, and the gesture is not written while suspended. */
  lemma CommandSteps(s: State, t: State)
    ensures Step(s, RunCommand, t) <==>
            && s.commands != []
            && var rest := s.(commands := s.commands[1..]);
               t == match s.commands[0]
                    case StartService => if s.daemon.Stopped? then rest.(daemon := Starting) else rest
                    case StopService => rest.(daemon := Stopped, socket := [])
                    case WriteGesture(on) => if s.awake then rest.(armed := on) else rest
  {
  }

  /** The daemon can time out whenever it polls and stop whenever it runs; init starts it again. */
  lemma DaemonSteps(s: State, t: State)
    ensures Step(s, Timeout, t) <==> s.daemon.Polling? && t == s.(daemon := PulseLow)
    ensures Step(s, Exit, t) <==> !s.daemon.Stopped? && t == s.(daemon := Starting, socket := [])
    ensures Step(s, Started, t) <==> s.daemon.Starting? && t == s.(daemon := PulseLow, socket := [])
  {
  }

  // ---- Whole cycles ----

  ghost predicate Settled(s: State) {
    Drained(s) && s.daemon.Polling? && s.enabled
  }

  lemma NoticeIsRead(s: State, notice: Payload) returns (states: seq<State>, actions: seq<Action>)
    requires s.daemon.Polling? && s.socket == [notice] && Wakes(notice) && 0 < |notice| <= RECV_LIMIT
    ensures IsRun(states, actions) && AllFaultless(actions)
    ensures states[0] == s && states[|states| - 1] == s.(socket := [], daemon := PulseLow)
  {
    hide IsScreenOn, IsDoubleTap;
    assert Received(notice) == notice;
    hide Wakes, Received;
    assert [notice][1..] == [];
    states := [s, s.(socket := [], daemon := Handling(notice)), s.(socket := [], daemon := PulseLow)];
    actions := [Receive, Classify];
  }

  /** From a request on, daemon and init set the property and write the gesture. */
  lemma RequestArms(s: State) returns (states: seq<State>, actions: seq<Action>)
    requires s.daemon.PulseLow? && s.socket == [] && s.events == [] && s.commands == []
    ensures IsRun(states, actions) && AllFaultless(actions)
    ensures states[0] == s
    ensures states[|states| - 1] == DriverWrite(s.(daemon := Polling, armProp := true), true)
  {
    hide *;
    var done := s.(daemon := Polling, armProp := true);
    var a, x := ArmIsQueued(done, s);
    var mid := done.(events := [ArmSet(true)]);
    if s.armProp {
      var b, y := LowIsTaken(done.(events := [ArmSet(false), ArmSet(true)]));
      Joined(a, x, b, y);
      JoinedFaultless(x, y);
      RunsMatch(b, y);
      a, x := a + b[1..], x + y;
    }
    var c, z := ArmIsWritten(mid);
    SameWithoutEvents(done);
    RunsMatch(c, z);
    Joined(a, x, c, z);
    JoinedFaultless(x, z);
    states, actions := a + c[1..], x + z;
  }

  lemma SameWithoutEvents(s: State)
    requires s.events == []
    ensures s.(events := [ArmSet(true)]).(events := []) == s
  {
  }

  /** The promised cycle: from every settled, awake and armed panel a suspend and a resume with any
      notice for the screen lead, without a fault, back to a settled, awake and armed panel. */
  lemma SuspendResumeCycle(s: State, notice: Payload) returns (states: seq<State>, actions: seq<Action>)
    requires Settled(s) && s.awake && s.armed && IsScreenOn(notice) && 0 < |notice| <= RECV_LIMIT
    ensures IsRun(states, actions) && AllFaultless(actions) && |actions| > 2
    ensures actions[0] == Suspend && actions[1] == Resume(notice)
    ensures states[0] == s && states[1] == s.(awake := false) && states[2].awake && !states[2].armed
    ensures var last := states[|states| - 1]; Settled(last) && last.awake && last.armed
  {
    var asleep := s.(awake := false);
    var woken := s.(armed := false, socket := [notice]);
    CycleStarts(s, notice, asleep, woken);
    WakesIs(notice);
    var done := DriverWrite(s.(armed := false, armProp := true), true);
    assert Settled(done) && done.awake && done.armed;
    assert s.socket == [] && s.events == [] && s.commands == [] && s.daemon.Polling?;
    hide *;
    var b, y := NoticeIsRead(woken, notice);
    Joined([s, asleep, woken], [Suspend, Resume(notice)], b, y);
    JoinedFaultless([Suspend, Resume(notice)], y);
    var c, z := RequestArms(s.(armed := false, daemon := PulseLow));
    Joined([s, asleep, woken] + b[1..], [Suspend, Resume(notice)] + y, c, z);
    JoinedFaultless([Suspend, Resume(notice)] + y, z);
    states, actions := [s, asleep, woken] + b[1..] + c[1..], [Suspend, Resume(notice)] + y + z;
    RunsMatch(b, y);
  }

  lemma RunsMatch(a: seq<State>, x: seq<Action>)
    requires IsRun(a, x)
    ensures |a| == |x| + 1
  {
    hide Step;
  }

  lemma WakesIs(notice: Payload)
    requires IsScreenOn(notice)
    ensures Wakes(notice)
  {
    hide IsScreenOn, IsDoubleTap;
  }

  lemma CycleStarts(s: State, notice: Payload, asleep: State, woken: State)
    requires Settled(s) && s.awake && IsScreenOn(notice) && 0 < |notice| <= RECV_LIMIT
    requires asleep == s.(awake := false) && woken == s.(armed := false, socket := [notice])
    ensures IsRun([s, asleep, woken], [Suspend, Resume(notice)]) && AllFaultless([Suspend, Resume(notice)])
  {
    hide IsScreenOn, IsDoubleTap, Wakes;
    assert Received(notice) == notice && [] + [notice] == [notice];
    assert Step(s, Suspend, asleep) && Step(asleep, Resume(notice), woken);
  }

  /** Settled states are reached asleep as well, and then armed. */
  lemma SettledAsleepIsReachable(s: State) returns (states: seq<State>, actions: seq<Action>)
    requires Init(s) && s.enabled && s.awake
    ensures IsRun(states, actions) && states[0] == s && AllFaultless(actions)
    ensures var last := states[|states| - 1]; Settled(last) && last.armProp && !last.awake && last.armed
  {
    var a, x := SettledIsReachable(s);
    var last := a[|a| - 1];
    var asleep := last.(awake := false);
    assert Step(last, Suspend, asleep) && Settled(asleep) && asleep.armed;
    assert IsRun([last, asleep], [Suspend]) && AllFaultless([Suspend]);
    hide *;
    Joined(a, x, [last, asleep], [Suspend]);
    JoinedFaultless(x, [Suspend]);
    states, actions := a + [last, asleep][1..], x + [Suspend];
  }

  /** A daemon that stops is started again and re-arms an awake panel. */
  lemma RestartCycle(s: State) returns (states: seq<State>, actions: seq<Action>)
    requires Settled(s) && s.awake
    ensures IsRun(states, actions) && AllFaultless(actions) && |actions| > 0 && actions[0] == Exit && states[0] == s
    ensures var last := states[|states| - 1]; Settled(last) && last.awake && last.armed
  {
    var down, up := s.(daemon := Starting), s.(daemon := PulseLow);
    assert Step(s, Exit, down) && Step(down, Started, up);
    assert IsRun([s, down, up], [Exit, Started]) && AllFaultless([Exit, Started]);
    var done := DriverWrite(s.(armProp := true), true);
    assert Settled(done) && done.awake && done.armed;
    assert s.socket == [] && s.events == [] && s.commands == [] && s.daemon.Polling?;
    hide *;
    var c, z := RequestArms(up);
    Joined([s, down, up], [Exit, Started], c, z);
    JoinedFaultless([Exit, Started], z);
    states, actions := [s, down, up] + c[1..], [Exit, Started] + z;
  }

  /** Switching off disarms an awake panel and stops the service; switching on again starts it and
      arms. */
  lemma SwitchCycle(s: State, stopFirst: bool) returns (states: seq<State>, actions: seq<Action>, off: nat)
    requires Settled(s) && s.awake
    ensures IsRun(states, actions) && AllFaultless(actions) && 0 < off < |actions| && states[0] == s
    ensures actions[0] == SetEnabled(false, false) && actions[off] == SetEnabled(true, false)
    ensures Off(states[off]) && Drained(states[off]) && !states[off].armed
    ensures var last := states[|states| - 1]; Settled(last) && last.awake && last.armed
  {
    var down := s.(enabled := false, daemon := Stopped, armed := false);
    var up := s.(daemon := PulseLow, armed := false);
    var done := DriverWrite(s.(armed := false, armProp := true), true);
    assert Settled(done) && done.awake && done.armed && Off(down) && Drained(down) && !down.armed;
    assert s.socket == [] && s.events == [] && s.commands == [] && s.daemon.Polling?;
    var a, x := SwitchedOff(s, stopFirst, down);
    var b, y := SwitchedOn(s, down, up);
    hide *;
    off := |x|;
    Joined(a, x, b, y);
    JoinedFaultless(x, y);
    var c, z := RequestArms(up);
    Joined(a + b[1..], x + y, c, z);
    JoinedFaultless(x + y, z);
    states, actions := a + b[1..] + c[1..], x + y + z;
    RunsMatch(a, x);
  }

  lemma SwitchedOff(s: State, stopFirst: bool, down: State) returns (states: seq<State>, actions: seq<Action>)
    requires Settled(s) && s.awake && down == s.(enabled := false, daemon := Stopped, armed := false)
    ensures IsRun(states, actions) && AllFaultless(actions) && |actions| == 4 && actions[0] == SetEnabled(false, false)
    ensures states[0] == s && states[|states| - 1] == down
  {
    hide Wakes, Received, IsScreenOn;
    var cs := if stopFirst then [StopService, WriteGesture(false)] else [WriteGesture(false), StopService];
    var s1, s2 := s.(enabled := false, events := [EnabledSet(false)]), s.(enabled := false, commands := cs);
    var s3 := if stopFirst then s.(enabled := false, daemon := Stopped, commands := [WriteGesture(false)])
              else s.(enabled := false, armed := false, commands := [StopService]);
    assert [] + [EnabledSet(false)] == [EnabledSet(false)] && [EnabledSet(false)][1..] == [];
    assert cs[1..] == [cs[1]] && [cs[1]][1..] == [];
    assert Step(s, SetEnabled(false, false), s1) && Step(s1, TakeEvent(stopFirst), s2);
    assert Step(s2, RunCommand, s3) && Step(s3, RunCommand, down);
    hide Step;
    states := [s, s1, s2, s3, down];
    actions := [SetEnabled(false, false), TakeEvent(stopFirst), RunCommand, RunCommand];
  }

  lemma SwitchedOn(s: State, down: State, up: State) returns (states: seq<State>, actions: seq<Action>)
    requires Settled(s) && s.awake && down == s.(enabled := false, daemon := Stopped, armed := false)
    requires up == s.(daemon := PulseLow, armed := false)
    ensures IsRun(states, actions) && AllFaultless(actions) && |actions| == 4 && actions[0] == SetEnabled(true, false)
    ensures states[0] == down && states[|states| - 1] == up
  {
    hide Wakes, Received, IsScreenOn;
    var s1 := down.(enabled := true, events := [EnabledSet(true)]);
    var s2, s3 := down.(enabled := true, commands := [StartService]), down.(enabled := true, daemon := Starting);
    assert [] + [EnabledSet(true)] == [EnabledSet(true)] && [EnabledSet(true)][1..] == [] && [StartService][1..] == [];
    assert Step(down, SetEnabled(true, false), s1) && Step(s1, TakeEvent(true), s2);
    assert Step(s2, RunCommand, s3) && Step(s3, Started, up);
    hide Step;
    states := [down, s1, s2, s3, up];
    actions := [SetEnabled(true, false), TakeEvent(true), RunCommand, Started];
  }
}

/** The daemon's code and the daemon of the protocol: every turn of the loop is a run of protocol
    steps with the same effect on the arm property. */
module WakeRefinement {
  import opened UeventScan
  import opened WakeDaemon
  import opened WakeProtocol

  ghost predicate Runs(s: State, actions: seq<Action>, t: State)
    decreases |actions|
  {
    if actions == [] then s == t
    else Enabled(s, actions[0]) && Runs(Next(s, actions[0]), actions[1..], t)
  }

  /** How the two sets of one request turn out, and whether init repeats unchanged values. */
  datatype Outcome = Outcome(lowOk: bool, lowEcho: bool, highOk: bool, highEcho: bool)

  function PulseSteps(o: Outcome): seq<Action> {
    [SetLow(o.lowOk, o.lowEcho), SetHigh(o.highOk, o.highEcho)]
  }

  /** The protocol steps of one turn. */
  ghost function TurnSteps(turn: Turn, o: Outcome): seq<Action> {
    (match turn
     case PollTimeout => [Timeout]
     case Message(_) => [Receive, Classify]
     case EmptyMessage => [Receive]
     case _ => [])
    + (if AsksForArm(turn) then PulseSteps(o) else [])
  }

  /** The turn takes a message, if only an empty one, from the socket. */
  predicate Takes(turn: Turn) {
    turn.Message? || turn.EmptyMessage?
  }

  /** The turn is what poll and recv can hand a daemon that polls in this state. */
  ghost predicate Possible(s: State, turn: Turn) {
    && s.daemon.Polling?
    && (turn.Message? ==> s.socket != [] && turn.payload == Received(s.socket[0]) != [])
    && (turn.EmptyMessage? ==> s.socket != [] && Received(s.socket[0]) == [])
  }

  /** The property after a request: the last value that was set, if any was. */
  function LastOf(before: bool, history: seq<bool>): bool {
    if history == [] then before else history[|history| - 1]
  }

  /** The daemon asks on exactly those messages the protocol says it does. */
  lemma AsksIffWakes(p: Payload)
    ensures AsksForArm(Message(p)) <==> Wakes(p)
  {
  }

  ghost predicate SameButDaemonAndProperty(s: State, t: State, socket: seq<Payload>) {
    t.awake == s.awake && t.armed == s.armed && t.enabled == s.enabled && t.commands == s.commands
    && t.socket == socket && s.events <= t.events
  }

  lemma PulseRuns(s: State, o: Outcome) returns (t: State)
    requires s.daemon.PulseLow?
    ensures Runs(s, PulseSteps(o), t) && t.daemon.Polling?
    ensures t.armProp == LastOf(s.armProp, Pulse(o.lowOk, o.highOk)) && SameButDaemonAndProperty(s, t, s.socket)
  {
    hide Wakes, Deliver, Execute, CommandsFor;
    var low, high := SetLow(o.lowOk, o.lowEcho), SetHigh(o.highOk, o.highEcho);
    var mid := Next(s, low);
    t := Next(mid, high);
    assert [low, high][1..] == [high] && [high][1..] == [];
    assert Runs(t, [], t);
    assert Runs(mid, [high], t);
  }

  lemma {:induction false} RunsThen(s: State, a: seq<Action>, m: State, b: seq<Action>, t: State)
    requires Runs(s, a, m) && Runs(m, b, t)
    ensures Runs(s, a + b, t)
    decreases |a|
  {
    hide Enabled, Next;
    if a == [] {
      assert a + b == b;
    } else {
      assert (a + b)[1..] == a[1..] + b;
      RunsThen(Next(s, a[0]), a[1..], m, b, t);
    }
  }

  lemma FrontRuns(s: State, turn: Turn) returns (m: State, front: seq<Action>, rest: seq<Payload>)
    requires Possible(s, turn)
    ensures Runs(s, front, m) && m.armProp == s.armProp
    ensures forall o :: TurnSteps(turn, o) == front + (if AsksForArm(turn) then PulseSteps(o) else [])
    ensures if AsksForArm(turn) then m.daemon.PulseLow? else m.daemon.Polling?
    ensures Takes(turn) ==> s.socket != []
    ensures rest == if Takes(turn) then s.socket[1..] else s.socket
    ensures SameButDaemonAndProperty(s, m, rest)
  {
    rest := if Takes(turn) then s.socket[1..] else s.socket;
    hide Wakes, IsDoubleTap, IsScreenOn;
    match turn
    case PollTimeout =>
      front, m := [Timeout], Next(s, Timeout);
      assert [Timeout][1..] == [];
      assert Runs(m, [], m);
    case Message(p) =>
      AsksIffWakes(p);
      front := [Receive, Classify];
      var mid := Next(s, Receive);
      m := Next(mid, Classify);
      assert [Receive, Classify][1..] == [Classify] && [Classify][1..] == [];
      assert Runs(m, [], m);
      assert Runs(mid, [Classify], m);
    case EmptyMessage =>
      front, m := [Receive], Next(s, Receive);
      assert [Receive][1..] == [];
      assert Runs(m, [], m);
    case _ =>
      front, m := [], s;
  }

  /** Each turn of the code is a run of the protocol's daemon that ends polling again: it takes the
      same message, and leaves the arm property as the code's history says. */
  lemma TurnRefinesProtocol(s: State, turn: Turn, o: Outcome) returns (t: State)
    requires s.daemon.Polling?
    requires turn.Message? ==> s.socket != [] && turn.payload == Received(s.socket[0]) != []
    requires turn.EmptyMessage? ==> s.socket != [] && Received(s.socket[0]) == []
    ensures Runs(s, TurnSteps(turn, o), t) && t.daemon.Polling?
    ensures t.armProp ==
            LastOf(s.armProp, if AsksForArm(turn) then Pulse(o.lowOk, o.highOk) else [])
    ensures t.awake == s.awake && t.armed == s.armed && t.enabled == s.enabled && t.commands == s.commands
    ensures t.socket == (if turn.Message? || turn.EmptyMessage? then s.socket[1..] else s.socket)
    ensures s.events <= t.events
  {
    assert Possible(s, turn);
    hide *;
    var m, front, rest := FrontRuns(s, turn);
    if AsksForArm(turn) {
      t := PulseRuns(m, o);
      RunsThen(s, front, m, PulseSteps(o), t);
      SameThroughout(s, m, t, rest);
    } else {
      t := m;
      assert front + [] == front;
      NothingSet(s.armProp);
    }
  }

  lemma NothingSet(before: bool)
    ensures LastOf(before, []) == before
  {
  }

  lemma SameThroughout(s: State, m: State, t: State, socket: seq<Payload>)
    requires SameButDaemonAndProperty(s, m, socket) && SameButDaemonAndProperty(m, t, m.socket)
    ensures SameButDaemonAndProperty(s, t, socket)
  {
  }
}

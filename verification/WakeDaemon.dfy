/** The wake daemon's own code (dt2w/dt2w_uewake.c, main and the functions it calls), run over
    any finite stretch of what poll and recv hand it. */
module WakeDaemon {
  import opened Text
  import opened UeventScan

  /** One turn of the endless loop, as seen by the daemon. */
  datatype Turn =
    | PollError         // poll < 0, interrupted or not
    | PollTimeout       // poll == 0
    | NotReadable       // poll > 0 without POLLIN
    | RecvError         // recv < 0: nothing is taken from the socket
    | EmptyMessage      // recv == 0: an empty datagram is taken
    | Message(payload: seq<byte>)

  datatype InputEvent = KeyWakeup(value: int) | SynReport

  /** Key down, sync, key up, sync. */
  const WAKE_BLOCK := [KeyWakeup(1), SynReport, KeyWakeup(0), SynReport]

  /** The three reasons to ask for an arm, after the start-up request. */
  datatype Cause = TimedOut | DoubleTap | OtherScreenOn

  ghost predicate HasCause(t: Turn, c: Cause) {
    match c
    case TimedOut => t == PollTimeout
    case DoubleTap => t.Message? && IsDoubleTap(t.payload)
    case OtherScreenOn => t.Message? && !IsDoubleTap(t.payload) && IsScreenOn(t.payload)
  }

  ghost predicate AsksForArm(t: Turn) {
    HasCause(t, TimedOut) || HasCause(t, DoubleTap) || HasCause(t, OtherScreenOn)
  }

  ghost function Count(turns: seq<Turn>, c: Cause): nat
    decreases |turns|
  {
    if turns == [] then 0
    else Count(turns[..|turns| - 1], c) + (if HasCause(turns[|turns| - 1], c) then 1 else 0)
  }

  ghost function Repeat<T>(block: seq<T>, n: nat): seq<T> {
    if n == 0 then [] else Repeat(block, n - 1) + block
  }

  /** The number of 0 -> 1 transitions in a history of values that starts from `before`. */
  ghost function Rises(before: bool, history: seq<bool>): nat
    decreases |history|
  {
    if history == [] then 0
    else
      var n := |history| - 1;
      Rises(before, history[..n])
      + (if history[n] && !(if n == 0 then before else history[n - 1]) then 1 else 0)
  }

  lemma PulseRisesOnce(before: bool, history: seq<bool>)
    ensures Rises(before, history + [false, true]) == Rises(before, history) + 1
  {
    var low := history + [false];
    var high := history + [false, true];
    assert high[..|high| - 1] == low && low[..|low| - 1] == history;
  }

  ghost function Causes(turns: seq<Turn>): nat {
    Count(turns, TimedOut) + Count(turns, DoubleTap) + Count(turns, OtherScreenOn)
  }

  /** A turn has at most one cause. */
  lemma CountNext(turns: seq<Turn>, i: nat)
    requires i < |turns|
    ensures Causes(turns[..i + 1]) == Causes(turns[..i]) + (if AsksForArm(turns[i]) then 1 else 0)
    ensures Count(turns[..i + 1], DoubleTap) ==
            Count(turns[..i], DoubleTap) + (if HasCause(turns[i], DoubleTap) then 1 else 0)
  {
    assert turns[..i + 1][..i] == turns[..i];
    hide IsDoubleTap, IsScreenOn;
  }

  /** What one request adds to the history of the property. */
  function Pulse(lowOk: bool, highOk: bool): seq<bool> {
    (if lowOk then [false] else []) + (if highOk then [true] else [])
  }

  ghost function PulseAt(setOk: nat -> bool, sets: nat): seq<bool> {
    Pulse(setOk(sets), setOk(sets + 1))
  }

  /** What n requests add to it: the k-th one takes the outcomes 2k and 2k + 1. */
  ghost function Pulses(setOk: nat -> bool, n: nat): seq<bool> {
    if n == 0 then [] else Pulses(setOk, n - 1) + PulseAt(setOk, 2 * n - 2)
  }

  /** The events of one key block that get through, from the n-th write on. */
  function Block(writeOk: nat -> bool, n: nat): seq<InputEvent> {
    (if writeOk(n) then [KeyWakeup(1)] else []) + (if writeOk(n + 1) then [SynReport] else [])
    + (if writeOk(n + 2) then [KeyWakeup(0)] else []) + (if writeOk(n + 3) then [SynReport] else [])
  }

  ghost function Blocks(writeOk: nat -> bool, n: nat): seq<InputEvent> {
    if n == 0 then [] else Blocks(writeOk, n - 1) + Block(writeOk, 4 * n - 4)
  }

  /** What the start-up request and these turns add up to. */
  ghost predicate Tally(setOk: nat -> bool, writeOk: nat -> bool, turns: seq<Turn>,
                        requests: nat, sets: nat, writes: nat, armHistory: seq<bool>, keys: seq<InputEvent>) {
    var taps := Count(turns, DoubleTap);
    && requests == 1 + Causes(turns) && sets == 2 * requests && writes == 4 * taps
    && armHistory == Pulses(setOk, requests) && keys == Blocks(writeOk, taps)
  }

  lemma TallyFirst(setOk: nat -> bool, writeOk: nat -> bool, turns: seq<Turn>)
    ensures Tally(setOk, writeOk, turns[..0], 1, 2, 0, [] + PulseAt(setOk, 0), [])
  {
    assert Pulses(setOk, 0) == [];
  }

  lemma PulsesNext(setOk: nat -> bool, n: nat, asked: bool)
    ensures Pulses(setOk, n + (if asked then 1 else 0)) ==
            Pulses(setOk, n) + (if asked then PulseAt(setOk, 2 * n) else [])
  {
    hide PulseAt;
  }

  lemma BlocksNext(writeOk: nat -> bool, n: nat, tapped: bool)
    ensures Blocks(writeOk, n + (if tapped then 1 else 0)) ==
            Blocks(writeOk, n) + (if tapped then Block(writeOk, 4 * n) else [])
  {
    hide Block;
  }

  lemma TallyNext(setOk: nat -> bool, writeOk: nat -> bool, turns: seq<Turn>, i: nat,
                  requests: nat, sets: nat, writes: nat, armHistory: seq<bool>, keys: seq<InputEvent>)
    requires i < |turns| && Tally(setOk, writeOk, turns[..i], requests, sets, writes, armHistory, keys)
    ensures var asked, tapped := AsksForArm(turns[i]), HasCause(turns[i], DoubleTap);
            Tally(setOk, writeOk, turns[..i + 1], requests + (if asked then 1 else 0),
                  sets + (if asked then 2 else 0), writes + (if tapped then 4 else 0),
                  armHistory + (if asked then PulseAt(setOk, sets) else []),
                  keys + (if tapped then Block(writeOk, writes) else []))
  {
    hide AsksForArm, HasCause, Causes, Count, PulseAt, Block, Pulses, Blocks;
    CountNext(turns, i);
    PulsesNext(setOk, requests, AsksForArm(turns[i]));
    BlocksNext(writeOk, Count(turns[..i], DoubleTap), HasCause(turns[i], DoubleTap));
  }

  lemma {:induction false} AllPulses(setOk: nat -> bool, n: nat)
    requires forall k :: setOk(k)
    ensures Pulses(setOk, n) == Repeat([false, true], n)
  {
    if n > 0 {
      AllPulses(setOk, n - 1);
      assert Pulse(true, true) == [false, true];
    }
  }

  lemma {:induction false} AllBlocks(writeOk: nat -> bool, n: nat)
    requires forall k :: writeOk(k)
    ensures Blocks(writeOk, n) == Repeat(WAKE_BLOCK, n)
  {
    if n > 0 {
      AllBlocks(writeOk, n - 1);
      assert Block(writeOk, 4 * n - 4) == WAKE_BLOCK;
    }
  }

  /** When nothing fails, requests are whole pulses and taps whole key blocks. */
  lemma TallySays(setOk: nat -> bool, writeOk: nat -> bool, turns: seq<Turn>,
                  requests: nat, sets: nat, writes: nat, armHistory: seq<bool>, keys: seq<InputEvent>)
    requires Tally(setOk, writeOk, turns[..|turns|], requests, sets, writes, armHistory, keys)
    ensures requests == 1 + Count(turns, TimedOut) + Count(turns, DoubleTap) + Count(turns, OtherScreenOn)
    ensures armHistory == Pulses(setOk, requests) && keys == Blocks(writeOk, Count(turns, DoubleTap))
    ensures (forall k :: setOk(k)) ==> armHistory == Repeat([false, true], requests)
    ensures (forall k :: writeOk(k)) ==> keys == Repeat(WAKE_BLOCK, Count(turns, DoubleTap))
  {
    assert turns[..|turns|] == turns;
    hide Count, Pulses, Blocks, Repeat;
    if forall k :: setOk(k) {
      AllPulses(setOk, requests);
    }
    if forall k :: writeOk(k) {
      AllBlocks(writeOk, Count(turns, DoubleTap));
    }
  }

  class Daemon {
    /** Whether the k-th property set and the k-th uinput write succeed: the environment's choice. */
    const setOk: nat -> bool
    const writeOk: nat -> bool
    var sets: nat
    var writes: nat
    var requests: nat
    /** Every value the arm property took, and every event the input device took, in order. */
    var armHistory: seq<bool>
    var keys: seq<InputEvent>

    constructor (setOk: nat -> bool, writeOk: nat -> bool)
      ensures this.setOk == setOk && this.writeOk == writeOk
      ensures sets == writes == requests == 0 && armHistory == [] && keys == []
    {
      this.setOk, this.writeOk := setOk, writeOk;
      sets, writes, requests := 0, 0, 0;
      armHistory, keys := [], [];
    }

    method SetArmProp(value: bool) returns (ok: bool)
      modifies `sets, `armHistory
      ensures ok == setOk(old(sets)) && sets == old(sets) + 1
      ensures armHistory == if ok then old(armHistory) + [value] else old(armHistory)
    {
      ok := setOk(sets);
      sets := sets + 1;
      if ok {
        armHistory := armHistory + [value];
      }
    }

    /** The outcome of the first set is ignored, that of the second is only logged. */
    method ArmGesture()
      modifies `sets, `armHistory, `requests
      ensures requests == old(requests) + 1 && sets == old(sets) + 2
      ensures armHistory == old(armHistory) + PulseAt(setOk, old(sets))
    {
      var _ := SetArmProp(false);
      var _ := SetArmProp(true);
      requests := requests + 1;
    }

    /** The outcome of the write is ignored. */
    method Emit(e: InputEvent)
      modifies `writes, `keys
      ensures writes == old(writes) + 1
      ensures keys == if writeOk(old(writes)) then old(keys) + [e] else old(keys)
    {
      if writeOk(writes) {
        keys := keys + [e];
      }
      writes := writes + 1;
    }

    method InjectWakeup()
      modifies `writes, `keys
      ensures writes == old(writes) + 4
      ensures keys == old(keys) + Block(writeOk, old(writes))
      ensures (forall k :: writeOk(k)) ==>
                keys == old(keys) + [KeyWakeup(1), SynReport, KeyWakeup(0), SynReport]
    {
      Emit(KeyWakeup(1));
      Emit(SynReport);
      Emit(KeyWakeup(0));
      Emit(SynReport);
    }

    /** One turn of the loop. The buffer test order matters: a double tap that also mentions
        the screen counts as a double tap. */
    method HandleTurn(turn: Turn, buf: array<byte>)
      requires buf.Length == RECV_LIMIT + 1
      requires turn.Message? ==> 0 < |turn.payload| <= 4095
      modifies this, buf
      ensures requests == old(requests)
                          + (if AsksForArm(turn) then 1 else 0)
      ensures sets == old(sets) + (if AsksForArm(turn) then 2 else 0)
      ensures writes == old(writes) + (if HasCause(turn, DoubleTap) then 4 else 0)
      ensures armHistory == old(armHistory)
                            + (if AsksForArm(turn) then PulseAt(setOk, old(sets)) else [])
      ensures keys == old(keys) + (if HasCause(turn, DoubleTap) then Block(writeOk, old(writes)) else [])
    {
      match turn
      case PollTimeout =>
        ArmGesture();
      case Message(payload) =>
        var len := |payload|;
        forall i | 0 <= i < len {
          buf[i] := payload[i];
        }
        buf[len] := 0;
        assert buf[..len] == payload;
        var tapped := HasToken(buf, len, DOUBLE_TAP);
        if tapped {
          InjectWakeup();
          ArmGesture();
          return;
        }
        var on := IsScreenOnUevent(buf, len);
        if on {
          ArmGesture();
        }
      case _ =>
    }

    ghost predicate Adds(turns: seq<Turn>, i: nat)
      requires i <= |turns|
      reads this
    {
      Tally(setOk, writeOk, turns[..i], requests, sets, writes, armHistory, keys)
    }

    /** The daemon from its first line on: the start-up request, then the loop. Each request has
        exactly one cause and pulses the property once; each double tap, and nothing else,
        presses and releases the key once. */
    method Run(turns: seq<Turn>)
      requires requests == sets == writes == 0 && armHistory == [] && keys == []
      requires forall k :: 0 <= k < |turns| && turns[k].Message? ==> 0 < |turns[k].payload| <= 4095
      modifies this
      ensures requests == 1 + Count(turns, TimedOut) + Count(turns, DoubleTap) + Count(turns, OtherScreenOn)
      ensures armHistory == Pulses(setOk, requests) && keys == Blocks(writeOk, Count(turns, DoubleTap))
      ensures (forall k :: setOk(k)) ==> armHistory == Repeat([false, true], requests)
      ensures (forall k :: writeOk(k)) ==> keys == Repeat(WAKE_BLOCK, Count(turns, DoubleTap))
    {
      var buf := new byte[RECV_LIMIT + 1];
      hide Tally, Count, Causes, Pulses, Blocks, Repeat, HasCause, AsksForArm,
           IsDoubleTap, IsScreenOn, Block, Pulse, PulseAt, WAKE_BLOCK;
      ArmGesture();
      TallyFirst(setOk, writeOk, turns);
      for i := 0 to |turns|
        invariant Adds(turns, i)
      {
        TallyNext(setOk, writeOk, turns, i, requests, sets, writes, armHistory, keys);
        HandleTurn(turns[i], buf);
      }
      TallySays(setOk, writeOk, turns, requests, sets, writes, armHistory, keys);
    }
  }

  /** Whatever value the property had before, n requests make it rise exactly n times. */
  lemma {:induction false} PulsesRise(before: bool, n: nat)
    ensures Rises(before, Repeat([false, true], n)) == n
  {
    if n > 0 {
      PulsesRise(before, n - 1);
      PulseRisesOnce(before, Repeat([false, true], n - 1));
    }
  }
}

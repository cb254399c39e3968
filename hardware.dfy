/**
 * The hardware effects of WaveShareGPSLocator as a trace of events: the power pin (set up,
 * driven high and low, released), the sleeps between pin changes, the serial flush and the
 * AT commands sent. The driver's power phase is read off the trace.
 */
module Hardware {

  /** The AT commands the driver sends; their literals live in the device configuration. */
  datatype Command = PowerOnCmd | PowerOffCmd | GpsInformationCmd

  datatype Event =
    | SetupPin                              // GPIO.setmode(BCM), setwarnings(False), setup(POWER_PIN, OUT)
    | PinHigh                               // GPIO.output(POWER_PIN, HIGH)
    | PinLow                                // GPIO.output(POWER_PIN, LOW)
    | Sleep(ms: nat)                        // time.sleep, in milliseconds
    | FlushInput                            // serial_conn.flush_input()
    | SendAt(cmd: Command, timeoutSec: nat) // serial_conn.send_at(cmd, expected reply, timeout)
    | Cleanup                               // GPIO.cleanup()

  /** The settle time after every power pulse, whatever the pulse is for. */
  const SettleMs: nat := 2000

  /** The hold times of the power-on and power-off pulses. */
  const PowerOnHoldMs: nat := 2000
  const PowerOffHoldMs: nat := 3000

  /** Every send_at in the driver waits one second for its reply. */
  const ReplyTimeoutSec: nat := 1

  /** setup_power_pin: configure the pin, then wait 0.1 s. */
  function SetupTrace(): seq<Event> {
    [SetupPin, Sleep(100)]
  }

  /** set_power_pin_state(hold): a pulse on the power pin followed by the settle time. */
  function Pulse(holdMs: nat): seq<Event> {
    [PinHigh, Sleep(holdMs), PinLow, Sleep(SettleMs)]
  }

  /** power_on: set the pin up, pulse it for 2 s, drop stale serial input. */
  function PowerOnTrace(): seq<Event> {
    SetupTrace() + Pulse(PowerOnHoldMs) + [FlushInput]
  }

  /** power_down: ask the module to power off, pulse the pin for 3 s, release the pins. */
  function PowerDownTrace(): seq<Event> {
    [SendAt(PowerOffCmd, ReplyTimeoutSec)] + Pulse(PowerOffHoldMs) + [Cleanup]
  }

  /** The query get_new_coords sends. */
  const QueryEvent: Event := SendAt(GpsInformationCmd, ReplyTimeoutSec)

  function Repeat(e: Event, n: nat): (r: seq<Event>)
    ensures |r| == n && forall k :: 0 <= k < n ==> r[k] == e
  {
    if n == 0 then [] else Repeat(e, n - 1) + [e]
  }

  /** wait_for_gps: start the GPS session, wait 2 s, then query `polls` times. */
  function SessionTrace(polls: nat): seq<Event> {
    [SendAt(PowerOnCmd, ReplyTimeoutSec), Sleep(2000)] + Repeat(QueryEvent, polls)
  }

  /** The driver's lifecycle phase, not the module's physical power: READY once power_on has
      flushed the channel, UNPOWERED again once power_down has released the pins. A power
      pulse toggles the module itself, so a second power_on would switch a running module
      off; the phase does not follow that toggle. */
  datatype PowerState = Unpowered | Ready

  function Step(s: PowerState, e: Event): PowerState {
    match e
    case FlushInput => Ready
    case Cleanup => Unpowered
    case _ => s
  }

  /** The phase reached from `s` by the events of `t`, in order. */
  function Run(s: PowerState, t: seq<Event>): PowerState
    decreases |t|
  {
    if t == [] then s else Run(Step(s, t[0]), t[1..])
  }

  /** The phase of a locator whose whole history is `t`; a new locator is UNPOWERED. */
  function StateAfter(t: seq<Event>): PowerState {
    Run(Unpowered, t)
  }

  /** Events that leave the phase alone. */
  predicate Passive(e: Event) {
    !e.FlushInput? && !e.Cleanup?
  }

  function Count(t: seq<Event>, e: Event): nat
    decreases |t|
  {
    if t == [] then 0 else (if t[0] == e then 1 else 0) + Count(t[1..], e)
  }

  lemma {:induction false} RunAppend(s: PowerState, a: seq<Event>, b: seq<Event>)
    ensures Run(s, a + b) == Run(Run(s, a), b)
    decreases |a|
  {
    if a == [] {
      assert a + b == b;
    } else {
      assert (a + b)[1..] == a[1..] + b;
      RunAppend(Step(s, a[0]), a[1..], b);
    }
  }

  lemma {:induction false} RunPassive(s: PowerState, t: seq<Event>)
    requires forall k :: 0 <= k < |t| ==> Passive(t[k])
    ensures Run(s, t) == s
    decreases |t|
  {
    if t != [] {
      RunPassive(s, t[1..]);
    }
  }

  lemma {:induction false} CountAppend(a: seq<Event>, b: seq<Event>, e: Event)
    ensures Count(a + b, e) == Count(a, e) + Count(b, e)
    decreases |a|
  {
    if a == [] {
      assert a + b == b;
    } else {
      assert (a + b)[1..] == a[1..] + b;
      CountAppend(a[1..], b, e);
    }
  }

  lemma {:induction false} CountZero(t: seq<Event>)
    requires forall k :: 0 <= k < |t| ==> t[k] != Cleanup
    ensures Count(t, Cleanup) == 0
    decreases |t|
  {
    if t != [] {
      CountZero(t[1..]);
    }
  }

  /** Every pulse is high, hold, low, settle; only the hold depends on the pulse. */
  lemma PulseShape(hold: nat, other: nat)
    ensures |Pulse(hold)| == 4
    ensures Pulse(hold)[0] == PinHigh && Pulse(hold)[1] == Sleep(hold) && Pulse(hold)[2] == PinLow
    ensures Pulse(hold)[3] == Sleep(2000) && Pulse(hold)[2..] == Pulse(other)[2..]
  {
  }

  /** power_on ends in the READY phase whatever phase it started in, since its last event is
      the flush. */
  lemma PowerOnMakesReady(s: PowerState)
    ensures Run(s, PowerOnTrace()) == Ready
  {
    var body := SetupTrace() + Pulse(PowerOnHoldMs);
    assert PowerOnTrace() == body + [FlushInput];
    RunAppend(s, body, [FlushInput]);
  }

  /** power_down ends in the UNPOWERED phase with the pins released, whatever phase it
      started in and whatever the power-off command got back. */
  lemma PowerDownMakesUnpowered(s: PowerState)
    ensures Run(s, PowerDownTrace()) == Unpowered
    ensures PowerDownTrace()[|PowerDownTrace()| - 1] == Cleanup
    ensures Count(PowerDownTrace(), Cleanup) == 1
  {
    var body := [SendAt(PowerOffCmd, ReplyTimeoutSec)] + Pulse(PowerOffHoldMs);
    assert PowerDownTrace() == body + [Cleanup];
    RunAppend(s, body, [Cleanup]);
    CountZero(body);
    CountAppend(body, [Cleanup], Cleanup);
  }

  /** A session only sends commands and sleeps: it changes the phase neither way. */
  lemma SessionIsPassive(polls: nat)
    ensures forall k :: 0 <= k < |SessionTrace(polls)| ==> Passive(SessionTrace(polls)[k])
  {
  }

  /** A `with` block around passive work: the driver is READY at every point of the body,
      ends UNPOWERED, and the pins are released exactly once, as the very last event. */
  lemma {:induction false} ScopedUse(s: PowerState, body: seq<Event>)
    requires forall k :: 0 <= k < |body| ==> Passive(body[k])
    ensures forall m :: 0 <= m <= |body| ==> Run(s, PowerOnTrace() + body[..m]) == Ready
    ensures Run(s, PowerOnTrace() + body) == Ready
    ensures Run(s, PowerOnTrace() + body + PowerDownTrace()) == Unpowered
    ensures Count(PowerOnTrace() + body + PowerDownTrace(), Cleanup) == 1
    ensures (PowerOnTrace() + body + PowerDownTrace())[|PowerOnTrace() + body + PowerDownTrace()| - 1] == Cleanup
  {
    PowerOnMakesReady(s);
    forall m | 0 <= m <= |body|
      ensures Run(s, PowerOnTrace() + body[..m]) == Ready
    {
      RunAppend(s, PowerOnTrace(), body[..m]);
      RunPassive(Ready, body[..m]);
    }
    assert body[..|body|] == body;
    RunAppend(s, PowerOnTrace(), body);
    RunPassive(Ready, body);
    RunAppend(s, PowerOnTrace() + body, PowerDownTrace());
    PowerDownMakesUnpowered(Ready);
    assert forall k :: 0 <= k < |PowerOnTrace()| ==> PowerOnTrace()[k] != Cleanup;
    CountZero(body);
    CountAppend(PowerOnTrace(), body, Cleanup);
    CountAppend(PowerOnTrace() + body, PowerDownTrace(), Cleanup);
    CountZero(PowerOnTrace());
  }
}

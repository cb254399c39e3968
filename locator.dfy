/**
 * WaveShareGPSLocator: the driver object. Its state is the last known location, which
 * get_new_coords overwrites on a successful parse, and the trace of hardware effects its
 * methods have had so far. The driver's power phase (UNPOWERED or READY) is the ghost field
 * `power`, always the phase the trace leads to.
 */
module Locator {
  import opened Wrappers
  import opened PyStr
  import opened GpsInfo
  import opened Hardware
  import opened Acquisition

  class WaveShareGpsLocator {
    var lastKnownLocation: Location
    var trace: seq<Event>
    ghost var power: PowerState

    ghost predicate Valid()
      reads this
    {
      power == StateAfter(trace)
    }

    /** A new locator knows no location yet, has touched no hardware and is unpowered. */
    constructor ()
      ensures Valid()
      ensures lastKnownLocation == SentinelLocation && trace == [] && power == Unpowered
    {
      lastKnownLocation := SentinelLocation;
      trace := [];
      power := Unpowered;
    }

    /** Record hardware effects that do not change the power phase. */
    method Emit(events: seq<Event>)
      requires Valid()
      requires forall k :: 0 <= k < |events| ==> Passive(events[k])
      modifies this`trace
      ensures Valid() && trace == old(trace) + events
    {
      RunAppend(Unpowered, trace, events);
      RunPassive(power, events);
      trace := trace + events;
    }

    /** setup_power_pin. */
    method SetupPowerPin()
      requires Valid()
      modifies this`trace
      ensures Valid() && trace == old(trace) + SetupTrace()
    {
      Emit([SetupPin]);
      Emit([Sleep(100)]);
    }

    /** set_power_pin_state: pin high for `breakTimeoutMs`, pin low, settle. */
    method SetPowerPinState(breakTimeoutMs: nat)
      requires Valid()
      modifies this`trace
      ensures Valid() && trace == old(trace) + Pulse(breakTimeoutMs)
    {
      Emit([PinHigh]);
      Emit([Sleep(breakTimeoutMs)]);
      Emit([PinLow]);
      Emit([Sleep(SettleMs)]);
    }

    /** power_on: whatever phase it starts in, the driver is in the READY phase afterwards. */
    method PowerOn()
      requires Valid()
      modifies this`trace, this`power
      ensures Valid() && power == Ready
      ensures trace == old(trace) + PowerOnTrace()
    {
      SetupPowerPin();
      SetPowerPinState(PowerOnHoldMs);
      RunAppend(Unpowered, trace, [FlushInput]);
      trace := trace + [FlushInput];
      power := Ready;
    }

    /** power_down: the power-off command's reply `ack` is not looked at, so the pulse and the
        release of the pins happen whatever it is. */
    method PowerDown(ack: Response)
      requires Valid()
      modifies this`trace, this`power
      ensures Valid() && power == Unpowered
      ensures trace == old(trace) + PowerDownTrace()
    {
      Emit([SendAt(PowerOffCmd, ReplyTimeoutSec)]);
      SetPowerPinState(PowerOffHoldMs);
      RunAppend(Unpowered, trace, [Cleanup]);
      trace := trace + [Cleanup];
      power := Unpowered;
    }

    /** __enter__. */
    method Enter()
      requires Valid()
      modifies this`trace, this`power
      ensures Valid() && power == Ready
      ensures trace == old(trace) + PowerOnTrace()
      ensures lastKnownLocation == old(lastKnownLocation)
    {
      PowerOn();
    }

    /** __exit__: runs on every way out of the `with` block; the exception, if any, is not
        suppressed, so only the reply of the power-off command is a parameter here. */
    method Exit(ack: Response)
      requires Valid()
      modifies this`trace, this`power
      ensures Valid() && power == Unpowered
      ensures trace == old(trace) + PowerDownTrace()
      ensures lastKnownLocation == old(lastKnownLocation)
    {
      PowerDown(ack);
    }

    /** set_last_known_location. */
    method SetLastKnownLocation(datetime: string, lat: string, lng: string)
      requires Valid()
      modifies this`lastKnownLocation
      ensures Valid()
      ensures lastKnownLocation == Location(Str(datetime), Str(lat), Str(lng))
    {
      lastKnownLocation := Location(Str(datetime), Str(lat), Str(lng));
    }

    /** get_new_coords, with `resp` what send_at returned to the query. The stored location
        changes only on the parse path, and then to exactly what is returned. */
    method GetNewCoords(resp: Response) returns (coords: Result<Coords, ParseError>)
      requires Valid()
      modifies this`trace, this`lastKnownLocation
      ensures Valid() && trace == old(trace) + [QueryEvent]
      ensures coords == QueryOutcome(resp)
      ensures lastKnownLocation == NextLocation(old(lastKnownLocation), resp)
      ensures !resp.ok ==> coords == Ok(Sentinel) && lastKnownLocation == old(lastKnownLocation)
      ensures resp.ok && HasNoFixMarker(resp.msg) ==>
        coords == Ok(Sentinel) && lastKnownLocation == old(lastKnownLocation)
      ensures coords.Err? ==> lastKnownLocation == old(lastKnownLocation)
      ensures coords.Ok? && coords.value.Parsed? ==>
        exists datetime :: lastKnownLocation == Location(Str(datetime), Str(coords.value.lat), Str(coords.value.lng))
    {
      Emit([QueryEvent]);
      if resp.ok {
        if Contains(resp.msg, NoFixMarker) {
          return Ok(Sentinel);
        }
        match ParseGpsInformation(resp.msg)
        case Err(e) =>
          return Err(e);
        case Ok(fix) =>
          SetLastKnownLocation(fix.datetime, fix.lat, fix.lng);
          return Ok(Parsed(fix.lat, fix.lng));
      } else {
        return Ok(Sentinel);
      }
    }

    /** wait_for_gps over the clock readings `clock` and the query replies `responses`; the
        reply `sessionAck` to the begin-session command is not looked at. It does what
        Acquire says: the first non-sentinel poll inside the budget ends it. */
    method WaitForGps(timeout: int, sessionAck: Response, clock: seq<int>, responses: seq<Response>)
      returns (r: Result<bool, ParseError>)
      requires Valid() && Supplied(timeout, clock, responses)
      modifies this`trace, this`lastKnownLocation
      ensures Valid()
      ensures r == Acquire(timeout, clock, responses).result
      ensures trace == old(trace) + SessionTrace(Acquire(timeout, clock, responses).polls)
      ensures lastKnownLocation ==
        if r == Ok(true)
        then NextLocation(old(lastKnownLocation), responses[Acquire(timeout, clock, responses).polls - 1])
        else old(lastKnownLocation)
    {
      Emit([SendAt(PowerOnCmd, ReplyTimeoutSec)]);
      Emit([Sleep(2000)]);
      var start := clock[0];
      var i := 0;
      while clock[i + 1] - start < timeout
        invariant 0 <= i < |clock| - 1
        invariant forall j :: 1 <= j <= i ==> clock[j] - clock[0] < timeout
        invariant forall j :: 0 <= j < i ==> QueryOutcome(responses[j]) == Ok(Sentinel)
        invariant Valid() && trace == old(trace) + SessionTrace(i)
        invariant lastKnownLocation == old(lastKnownLocation)
        decreases |clock| - i
      {
        var coords := GetNewCoords(responses[i]);
        if coords != Ok(Sentinel) {
          AcquireStopsAt(timeout, clock, responses, i);
          return if coords.Err? then Err(coords.error) else Ok(true);
        }
        i := i + 1;
      }
      AcquireExhausted(timeout, clock, responses, i);
      return Ok(false);
    }

    /** `with locator: locator.wait_for_gps(...)`: power on, wait for a fix, and power down on
        the way out whether the wait succeeded, failed or raised. The pins are released
        exactly once, as the last hardware effect. */
    method WithSession(timeout: int, sessionAck: Response, clock: seq<int>, responses: seq<Response>,
                       powerOffAck: Response)
      returns (r: Result<bool, ParseError>)
      requires Valid() && Supplied(timeout, clock, responses)
      modifies this`trace, this`lastKnownLocation, this`power
      ensures Valid() && power == Unpowered
      ensures r == Acquire(timeout, clock, responses).result
      ensures trace == old(trace) + PowerOnTrace() + SessionTrace(Acquire(timeout, clock, responses).polls)
        + PowerDownTrace()
      ensures lastKnownLocation ==
        if r == Ok(true)
        then NextLocation(old(lastKnownLocation), responses[Acquire(timeout, clock, responses).polls - 1])
        else old(lastKnownLocation)
      ensures Count(trace, Cleanup) == Count(old(trace), Cleanup) + 1
      ensures trace[|trace| - 1] == Cleanup
    {
      Enter();
      r := WaitForGps(timeout, sessionAck, clock, responses);
      Exit(powerOffAck);
      var polls := Acquire(timeout, clock, responses).polls;
      SessionIsPassive(polls);
      ScopedUse(old(power), SessionTrace(polls));
      CountAppend(old(trace), PowerOnTrace() + SessionTrace(polls) + PowerDownTrace(), Cleanup);
      assert trace == old(trace) + (PowerOnTrace() + SessionTrace(polls) + PowerDownTrace());
    }
  }
}

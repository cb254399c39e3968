# WaveShare GPS locator, modelled in Dafny

This project models `WaveShareGPSLocator`, the driver of gps-tracker that talks to a
WaveShare GPS module over a serial link and drives its power pin. The model covers four parts:

- **Power sequencing.** `setup_power_pin`, `set_power_pin_state`, `power_on` and
  `power_down`, and the `with` protocol (`__enter__` / `__exit__`) built on them. Each
  hardware effect is an event appended to a trace: pin set-up, pin high, pin low, a sleep
  in milliseconds, a serial flush, an AT command, GPIO clean-up. The driver's power phase
  (UNPOWERED / READY) is a ghost field. It always equals the phase the trace leads to: READY
  after power_on's flush, UNPOWERED after power_down's clean-up.
- **The fix query.** `get_new_coords` takes the serial reply `(ok, msg)` as a parameter.
  There are four outcomes:
  - the channel failed: it returns the sentinel;
  - the reply holds the no-fix marker `,,,,,,`: it returns the sentinel;
  - the reply has fewer than five fields: it raises, where `parse_gps_information` unpacks;
  - otherwise it stores the parsed fields as the last known location and returns latitude
    and longitude.
- **The parse.** `parse_gps_information` is Python's `str.split(',', 5)` followed by taking
  fields 2, 3 and 4. Module `PyStr` models the split on `seq<char>` and proves it against
  `','.join`.
- **The acquisition loop.** `wait_for_gps` is a `while` loop over a sequence of clock
  readings (the successive values of `time.time()`) and a sequence of canned replies. It
  sends the begin-session command without looking at the reply. It is proved equal to
  `Acquisition.Acquire`, a search-based description of the same run: the first
  non-sentinel poll within the time budget decides the result.

Modules: `Wrappers` (Result), `PyStr` (split, join, substring test), `GpsInfo`
(reply, fix, location, parse, query outcome), `Hardware` (events, pulses, traces, power
phase), `Acquisition` (the specification of the loop), `Locator` (the class
`WaveShareGpsLocator`).

Details of the code the model keeps:

- `setup_power_pin` sleeps 0.1 s after configuring the pin. The power-on trace therefore
  holds `SetupPin, Sleep(100)` before the 2 s pulse.
- `wait_for_gps` ignores the begin-session reply entirely and sleeps 2 s after sending the
  command.
- A reply of fewer than five fields makes the parse fail. Unpacking `parts[2:5]` raises
  `ValueError`, and nothing in the class catches it. The model returns it as
  `Err(NotEnoughValues(got))` from `GetNewCoords`, `WaitForGps` and `WithSession`, and the
  stored location is left unchanged.
- Parsed coordinates are strings. The sentinel is the integer pair `(-1, -1)`. So no
  parsed reply, not even one whose fields read `-1`, compares equal to the sentinel.

## Model

| member | source | states |
|---|---|---|
| PyStr.Contains | gps_tracker/wave_share_gps_locator.py:74 | defines Python's `pat in s`: the pattern is a prefix of the string or occurs in its tail |
| PyStr.Split | gps_tracker/wave_share_gps_locator.py:85 | a split never yields an empty list, so parts can always be taken from its front |
| PyStr.SplitNoSeparator | gps_tracker/wave_share_gps_locator.py:85 | a reply without commas splits into itself alone |
| PyStr.SplitLength | gps_tracker/wave_share_gps_locator.py:85 | `split(',', 5)` yields min(number of commas, 5) + 1 parts: at most 6 parts, one comma consumed per split, at most 5 consumed |
| PyStr.SplitJoin | gps_tracker/wave_share_gps_locator.py:85 | joining the parts with the separator reproduces the input exactly |
| PyStr.SplitIsShaped | gps_tracker/wave_share_gps_locator.py:85 | every part but the last is comma-free; the last is too unless all five splits were made |
| PyStr.JoinSplit | gps_tracker/wave_share_gps_locator.py:85 | splitting the join of any such shaped list gives that list back, so the split is the only shaped decomposition of its input |
| PyStr.ContainsIff | gps_tracker/wave_share_gps_locator.py:74 | the `in` test holds exactly when the pattern occurs at some position of the reply |
| PyStr.ContainsCount | gps_tracker/wave_share_gps_locator.py:74 | a reply holding a pattern holds at least as many commas as the pattern |
| GpsInfo.ParseGpsInformation | gps_tracker/wave_share_gps_locator.py:84-88 | the parse: fields 2, 3 and 4 of `split(',', 5)`, each comma-free; when it raises, fewer than three values were there to unpack |
| GpsInfo.HasNoFixMarker | gps_tracker/wave_share_gps_locator.py:74 | defines the no-fix test `',,,,,,' in res_msg`: the reply holds six consecutive commas |
| GpsInfo.QueryOutcome | gps_tracker/wave_share_gps_locator.py:67-82 | defines what get_new_coords returns: the sentinel on failure or the no-fix marker, else the parsed lat/lng, or the exception the parse raises |
| GpsInfo.NextLocation | gps_tracker/wave_share_gps_locator.py:77-78 | defines the stored location after get_new_coords: the parsed triple on the parse path, set as set_last_known_location (line 91) sets it, else the old location |
| GpsInfo.ParseSucceedsIff | gps_tracker/wave_share_gps_locator.py:84-88 | the parse succeeds exactly when the reply has at least four commas; otherwise the slice holds one value fewer than the reply has commas, and none for a comma-free reply |
| GpsInfo.ParseReadsFields | gps_tracker/wave_share_gps_locator.py:84-88 | a successful parse returns fields 2, 3, 4 of a list of 5 or 6 fields, the first five comma-free, whose comma-join is the reply |
| GpsInfo.ParseOfFields | gps_tracker/wave_share_gps_locator.py:84-88 | for any such list, the join of its fields parses to fields 2, 3 and 4; a sixth field may hold commas |
| GpsInfo.ParseExample | gps_tracker/wave_share_gps_locator.py:84-88 | `"$GPS,OK,12:00:00,51.005,21.001,*CS"` parses to `12:00:00`, `51.005`, `21.001` |
| GpsInfo.NoFixMarkerCommas | gps_tracker/wave_share_gps_locator.py:74 | a reply holding the no-fix marker has at least six commas |
| GpsInfo.QuerySentinelIff | gps_tracker/wave_share_gps_locator.py:73-82 | get_new_coords returns `(-1, -1)` exactly when the channel failed or the reply holds `,,,,,,` |
| GpsInfo.QueryRaisesIff | gps_tracker/wave_share_gps_locator.py:73-86 | get_new_coords raises exactly when the reply came, holds no marker and has fewer than four commas |
| GpsInfo.QueryStoresWhatItReturns | gps_tracker/wave_share_gps_locator.py:77-79 | on the parse path the stored location is exactly the parsed triple, its lat/lng are the returned pair, and it is not the sentinel location |
| GpsInfo.QueryKeepsLocation | gps_tracker/wave_share_gps_locator.py:73-82 | failure, no fix and the exception all leave the stored location unchanged |
| GpsInfo.QueryExample | gps_tracker/wave_share_gps_locator.py:67-91 | the example reply, delivered in time, returns `("51.005", "21.001")` and stores datetime `12:00:00`, lat `51.005`, lng `21.001` |
| Hardware.SetupTrace | gps_tracker/wave_share_gps_locator.py:36-41 | defines setup_power_pin's effects: the pin set-up, then a 0.1 s sleep |
| Hardware.Pulse | gps_tracker/wave_share_gps_locator.py:43-48 | defines set_power_pin_state's effects: pin high, sleep for the hold, pin low, sleep 2 s |
| Hardware.PowerOnTrace | gps_tracker/wave_share_gps_locator.py:22-27 | defines power_on's effects: pin set-up and 0.1 s sleep, a 2 s pulse, the serial flush |
| Hardware.PowerDownTrace | gps_tracker/wave_share_gps_locator.py:29-34 | defines power_down's effects: the power-off command, a 3 s pulse, GPIO clean-up |
| Hardware.SessionTrace | gps_tracker/wave_share_gps_locator.py:52-57 | defines wait_for_gps's effects for a number of polls: the begin-session command, a 2 s sleep, one query per poll |
| Hardware.PulseShape | gps_tracker/wave_share_gps_locator.py:43-48 | a pulse is pin high, hold, pin low, a 2 s settle; everything after the hold is the same for every hold |
| Hardware.PowerOnMakesReady | gps_tracker/wave_share_gps_locator.py:22-27 | the power-on sequence ends in the READY phase from either phase |
| Hardware.PowerDownMakesUnpowered | gps_tracker/wave_share_gps_locator.py:29-34 | the power-down sequence ends in the UNPOWERED phase from either phase, with clean-up once and last |
| Hardware.ScopedUse | gps_tracker/wave_share_gps_locator.py:15-34 | power on, passive work, power down: READY at every point of the work, UNPOWERED after, clean-up exactly once and as the last event |
| Hardware.RunAppend | gps_tracker/wave_share_gps_locator.py:15-34 | the phase after two traces in a row is the phase the second trace reaches from the phase after the first |
| Acquisition.PollBudget | gps_tracker/wave_share_gps_locator.py:55-56 | the number of loop passes the clock allows: every earlier reading is inside the budget and the next one is not |
| Acquisition.FirstNonSentinel | gps_tracker/wave_share_gps_locator.py:56-62 | the first reply not answered with the sentinel: all before it are |
| Acquisition.Acquire | gps_tracker/wave_share_gps_locator.py:50-65 | the search description of a run; it never polls more often than the clock allows |
| Acquisition.AcquireTrueIff | gps_tracker/wave_share_gps_locator.py:56-62 | True exactly when some poll inside the budget gets a fix after only sentinels, and then exactly that many polls are made |
| Acquisition.AcquireFalseIff | gps_tracker/wave_share_gps_locator.py:56-65 | False exactly when every poll the budget allows gets the sentinel, and then the budget is used up |
| Acquisition.AcquireWithinBudget | gps_tracker/wave_share_gps_locator.py:56 | every poll is made while the elapsed time is below the timeout |
| Acquisition.AcquireZeroBudget | gps_tracker/wave_share_gps_locator.py:55-57 | with timeout <= 0 and a clock that does not go back, no query is sent and the result is False |
| Acquisition.AcquireStopsAt | gps_tracker/wave_share_gps_locator.py:56-62 | after only sentinels, the first other outcome inside the budget ends the run with True or the exception |
| Acquisition.AcquireExhausted | gps_tracker/wave_share_gps_locator.py:56-65 | all sentinels until the clock reaches the budget: the run returns False |
| Locator.WaveShareGpsLocator.constructor | gps_tracker/wave_share_gps_locator.py:10-13 | a new locator holds `{lat: -1, lng: -1, datetime: -1}`, has an empty trace and is UNPOWERED |
| Locator.WaveShareGpsLocator.SetupPowerPin | gps_tracker/wave_share_gps_locator.py:36-41 | appends pin set-up and a 0.1 s sleep |
| Locator.WaveShareGpsLocator.SetPowerPinState | gps_tracker/wave_share_gps_locator.py:43-48 | appends high, the hold, low, the 2 s settle |
| Locator.WaveShareGpsLocator.PowerOn | gps_tracker/wave_share_gps_locator.py:22-27 | appends set-up, a 2 s pulse and the flush, and the driver is in the READY phase |
| Locator.WaveShareGpsLocator.PowerDown | gps_tracker/wave_share_gps_locator.py:29-34 | appends the power-off command, a 3 s pulse and clean-up whatever the command's reply, and the driver is in the UNPOWERED phase |
| Locator.WaveShareGpsLocator.Enter | gps_tracker/wave_share_gps_locator.py:15-17 | runs power_on and nothing else |
| Locator.WaveShareGpsLocator.Exit | gps_tracker/wave_share_gps_locator.py:19-20 | runs power_down and nothing else |
| Locator.WaveShareGpsLocator.SetLastKnownLocation | gps_tracker/wave_share_gps_locator.py:90-91 | the stored location becomes exactly the given triple |
| Locator.WaveShareGpsLocator.GetNewCoords | gps_tracker/wave_share_gps_locator.py:67-82 | sends one query; failure or the no-fix marker gives the sentinel with the location unchanged, a short reply raises with it unchanged, a parse overwrites it with the returned fields |
| Locator.WaveShareGpsLocator.WaitForGps | gps_tracker/wave_share_gps_locator.py:50-65 | returns what Acquire describes, appends the session start and one query per poll, and changes the location only by the poll that found the fix |
| Locator.WaveShareGpsLocator.WithSession | gps_tracker/wave_share_gps_locator.py:15-20 | a `with` block around wait_for_gps powers on, waits and powers down on every outcome, releasing the pins exactly once and last |

## Left out

- GPIO, `time.sleep` and `time.time` are hardware and clock effects. Pin operations and sleeps are trace events. `time.time()` readings are an input sequence of integers, not floats.
- The `send_at` and `flush_input` internals of `SerialConnection` are not part of this model. `send_at`'s reply is an input `Response(ok, msg)`. A flush is an event. Exceptions raised inside the serial connection are not modelled.
- The command literals, expected replies and pin number of `WaveShareGPS` are not part of this model. Commands are the opaque values `PowerOnCmd`, `PowerOffCmd` and `GpsInformationCmd`.
- The `GPSLocator` base class (device id, authentication, publishing) is network I/O and not part of this model. The constructor takes none of `device_id`, `auth`, `serial_conn`.
- `setup_power_pin` makes three GPIO calls: `setmode`, `setwarnings(False)` and `setup`. They are one `SetupPin` event.
- `PowerState` is the driver's lifecycle phase, set by the serial flush at the end of power_on and by the GPIO clean-up at the end of power_down. It is not the module's physical power. The power pulse toggles the module on or off, and the model does not track that toggle, so it does not show that a power_on on a module already running switches it off.
- `wait_for_gps` has the default `timeout=10`. `WaitForGps` and `WithSession` take the timeout as an explicit argument, with no default.
- `__enter__` returns `self`; `Enter` returns nothing, since the caller already holds the object.
- The `print` diagnostics are not modelled.
- The `__main__` demo block is not modelled. `WithSession` stands for its `with` pattern around `wait_for_gps` only.
- `gps_tracker/utils/dummy_gps_locator.py` is not modelled. It is an endless publish-and-sleep loop over collaborators whose source is not shown.
- Acquisition.AcquireZeroBudget: it assumes the first clock reading after `start` is not earlier than `start`. `time.time()` is a wall clock and may go backwards, and then even a zero budget lets a poll through.
- Locator.WaveShareGpsLocator.WaitForGps: it requires a clock that eventually reaches the budget, with a reply for every poll before that. This stands in for the source's wall-clock bound on the loop.

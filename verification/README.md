# Mushroom chamber controller — Dafny model

This project models the decision logic of the ESP32 firmware in
`MushroomChamberController`. The firmware keeps a fruiting chamber at the
humidity, temperature and pressure of the current growth phase. The model covers four cores:

- **The adaptive four-state controller** (`actuators.cpp`, module `Adaptive`).
  - Ticks are rate-limited to one per second.
  - Humidity goes through an exponential filter seeded from the first reading.
  - A critical-low-humidity override is checked first, then a critical-high-temperature override.
  - A HUMIDIFYING / STABILIZING / VENTILATING / RECOVERING machine runs with timeouts.
  - It self-tunes the humidify and ventilation durations. The ventilation duration is clamped to [15 s, 60 s].
  - Pin writes happen only on change, behind the humidifier and fan mirrors.
- **The MIMO weighted-desire controller** (`actuators_mimo.cpp`, modules `MimoFilter` and `Mimo`). This is an alternative build of the same actuator interface.
  - Three five-slot moving-average filters smooth the readings.
  - Each error becomes a "need": zero inside its deadband, otherwise clamped.
  - Needs are mixed into linear per-actuator desires, then coordination rules and emergency clamps apply.
  - Desires are thresholded into commands, with two-fan exhaust staging.
  - A score lies in (0, 1].
  - Three weights get a multiplicative nudge once a minute.
- **The WiFi retry state machine** (`wifi_comm.cpp`, module `WifiComm`). It has five states and a retry counter. CONNECTION_FAILED is absorbing while the radio stays down, and a CONNECTED status is never left while the radio is down, so `wifiConnected` also asks the radio.
- **The light-window scheduler** (`led.cpp`, module `Led`). An hour-in-window test handles wrap past midnight, and a latch repaints the strip only on change.

Each control call is a pure function from the current state, the call's inputs and the current time to the next state and the side effects it would perform:

- `digitalWrite` calls become a list of `PinWrite`s.
- WiFi library calls become `RadioCommand`s.
- The LED strip is a frame buffer plus a `shown` flag.

`millis()` is a `nat` parameter read off a monotone clock (module `Clock`). Sensor values are reals. The firmware's float-to-`unsigned long` casts are the floor of the real product.

The support modules are:

- `Types`: `PhaseConfig`, CRGB colours and a sensor `Reading`.
- `Actuation`: the actuator pins and pin writes.
- `Numeric`: Arduino's `abs`, `min`, `max` and `constrain`, plus truncation.

Some behaviours are modelled exactly as written:

- The MIMO `SimpleFilter` divides by `index + 1` after advancing `index`. Until five readings have arrived, it returns the sum of the readings over their count plus one. Its first output is half its input. `MimoFilter.OutputIsWindowAverage` and `MimoFilter.FirstOutputIsHalf` state this.
- `humidifyDuration` is learned as 1.2 × the time spent humidifying. The code applies no clamp to it.
- In the MIMO score, pressure enters as `|pressure − target| / 100` on both sides of the target.
- The MIMO learner caps the grown exhaust-temperature weight at 1.0, but that weight is negative, so a better score moves it further from zero and the cap never applies. `Mimo.ExhaustWeightGrowsUncapped` states this; the weight only stays negative (`Mimo.RunKeepsWeightsBounded`).
- The WiFi loop never leaves CONNECTED while the radio is down, so a dropped link is not reconnected (`WifiComm.DropGoesUnnoticed`).

## Model

| member | source | states |
|---|---|---|
| `Adaptive.SetupActuators` | MushroomChamberController/src/actuators.cpp:67-88 | all four pins are driven LOW and both the state timer and the ventilation timer start at the current time; nothing else changes |
| `Adaptive.FilterValue` | MushroomChamberController/src/actuators.cpp:62-65 | the distance from the new sample shrinks by the factor 1 − α; for α in [0, 1] the result lies between the old and the new value |
| `Adaptive.SmoothConverges` | MushroomChamberController/src/actuators.cpp:156-163 | on a constant reading the filtered humidity's error after n ticks is 0.8ⁿ times the initial error, a factor in (0, 1] |
| `Adaptive.SetHumidifier` | MushroomChamberController/src/actuators.cpp:90-96 | afterwards the mirror equals the request; a request equal to the mirror writes nothing and changes nothing; otherwise exactly one humidifier write is appended and only the mirror changes |
| `Adaptive.SetFans` | MushroomChamberController/src/actuators.cpp:98-106 | the same write-on-change contract for the fan mirror, appending the three pin writes that switch both exhaust fans and the inlet fan together |
| `Adaptive.SetIdempotent` | MushroomChamberController/src/actuators.cpp:90-106 | driving either actuator twice with the same level equals driving it once |
| `Adaptive.ChangeState` | MushroomChamberController/src/actuators.cpp:118-143 | switching to the current state is a no-op; otherwise the state and its start time change, humidity-before-ventilation is recorded only on STABILIZING→VENTILATING, humidity-after-ventilation and the ventilation cycle count only on VENTILATING→RECOVERING, and nothing else changes |
| `Adaptive.ChangeStateIdempotent` | MushroomChamberController/src/actuators.cpp:118-119 | asking for the same state twice does not restart the state timer a second time |
| `Adaptive.TuneVentilation` | MushroomChamberController/src/actuators.cpp:272-284 | a drop above 1.5× the expected drop makes the duration ⌊0.9 d⌋ when 0.9 d is at least 15 s and exactly 15 s otherwise; a drop below half of it makes it ⌊1.1 d⌋ when 1.1 d is below 60 s and exactly 60 s otherwise; any other drop keeps it; a duration in [15 s, 60 s] stays there |
| `Adaptive.TuneVentilationAntitone` | MushroomChamberController/src/actuators.cpp:276-284 | inside the clamp, a larger humidity drop never leaves a longer ventilation duration |
| `Adaptive.HumidifyingTick` | MushroomChamberController/src/actuators.cpp:206-233 | humidifier on and fans off; reaching target + overshoot moves to STABILIZING, counts a cycle and adds the time in state, relearning the duration as ⌊1.2 t⌋ only when t > 5 s; the 3-minute timeout moves to STABILIZING without touching the duration, the cycle count or the total time; otherwise only the mirrors change; in every case no field other than the state, its timer, the mirrors, the cycle count, the total time and the humidify duration changes |
| `Adaptive.StabilizingTick` | MushroomChamberController/src/actuators.cpp:235-261 | both actuators off; the drift rate is filtered only after 10 s and for a delta over 0.05; then, in this priority order, humidity below target − 2 restarts humidifying, humidity above target + 5 after the stabilize duration only restarts the timer, an overdue ventilation starts ventilating and records the humidity, and otherwise the state and its timer stay; no field other than the state, its timer, the mirrors, the drift rate and the pre-ventilation humidity changes, and the pre-ventilation humidity changes only when ventilation starts |
| `Adaptive.VentilatingTick` | MushroomChamberController/src/actuators.cpp:263-289 | fans on and humidifier off; past the ventilation duration it stamps the ventilation time, counts a cycle, records the humidity after ventilation, retunes the duration from the drop against 15% of target, and moves to RECOVERING; before that only the mirrors change; the [15 s, 60 s] clamp is preserved; no field other than the state, its timer, the mirrors and those four ventilation fields changes |
| `Adaptive.RecoveringTick` | MushroomChamberController/src/actuators.cpp:291-306 | humidifier on and fans off; within 1 point of target or after the 2-minute timeout it moves to STABILIZING; otherwise only the mirrors change; no field other than the state, its timer and the mirrors ever changes |
| `Adaptive.HumidityOverride` | MushroomChamberController/src/actuators.cpp:180-189 | the critical-low-humidity override ends in HUMIDIFYING with the humidifier on and fans off; the state timer restarts only when the state was another one, and every other field (durations, counters, ventilation records) is left as it was |
| `Adaptive.HeatOverride` | MushroomChamberController/src/actuators.cpp:191-200 | the critical-high-temperature override ends in VENTILATING with fans on and the humidifier off; the state timer restarts only when the state was another one, the humidity before ventilation is recorded only when leaving STABILIZING, and every other field is left as it was |
| `Adaptive.StateMachine` | MushroomChamberController/src/actuators.cpp:202-307 | every state drives its own actuator levels and moves only along HUMIDIFYING→STABILIZING, STABILIZING→HUMIDIFYING or VENTILATING, VENTILATING→RECOVERING, RECOVERING→STABILIZING |
| `Adaptive.Accept` | MushroomChamberController/src/actuators.cpp:154-175 | an accepted tick stamps the time, clears the first-reading flag, stores the filtered humidity (the raw reading on the first call) and makes it the reference for the next delta, changing nothing else |
| `Adaptive.TickMoment` | MushroomChamberController/src/actuators.cpp:165-174 | the tick decides on the filtered humidity, its change since the previous tick (zero on the first reading), the time since the state and the ventilation timers started, and the phase target |
| `Adaptive.Decide` | MushroomChamberController/src/actuators.cpp:178-204 | humidity below the critical low ends in HUMIDIFYING with the humidifier on and fans off, whatever the temperature; otherwise a temperature above the critical high ends in VENTILATING with fans on and the humidifier off; neither override tunes or counts anything; without an emergency the state machine runs, driving the starting state's actuators along an allowed transition; only the mirrored pins are written |
| `Adaptive.UpdateActuators` | MushroomChamberController/src/actuators.cpp:145-307 | a call within 1000 ms of the last accepted tick changes nothing and writes nothing; an accepted tick stamps the time, seeds the filter with the raw reading on the first call and filters it afterwards, and decides on that filtered humidity with the state and ventilation timers measured at the current time; it applies the overrides in priority order, otherwise drives the starting state's actuators along an allowed transition, writes exactly the pins whose mirrors changed, keeps the ventilation clamp and never changes a fixed setting |
| `Adaptive.AcceptedTickTransitions` | MushroomChamberController/src/actuators.cpp:206-306 | on an accepted tick without emergency, each state's exit is read off the filtered humidity and the stored timers: the humidify target or the 3-minute timeout, the return to humidifying below target − 2, the stabilize extension above target + 5, the overdue ventilation, the end of the ventilation duration with its retuning, and the recovery target or 2-minute timeout, each with what it records |
| `Adaptive.RunKeepsVentilationBounded` | MushroomChamberController/src/actuators.cpp:276-284 | over any sequence of calls on a monotone clock, the ventilation duration stays in [15 s, 60 s] and the fixed settings never change |
| `Adaptive.InitialBounded` | MushroomChamberController/src/actuators.cpp:24-60 | the initial controller after setup lies inside the ventilation clamp and has no timestamp after the current time |
| `Adaptive.ExtensionDoesNotStarveVentilation` | MushroomChamberController/src/actuators.cpp:250-259 | once ventilation is overdue, a tick that extends stabilization instead is followed, within the stabilize duration, by a tick that starts ventilating unless humidity has meanwhile fallen below target − 2 |
| `MimoFilter.NewFilter` | MushroomChamberController/src/actuators_mimo.cpp:48-51 | a fresh filter has five zero slots, its write index at 0 and the filled flag clear |
| `MimoFilter.Update` | MushroomChamberController/src/actuators_mimo.cpp:53-64 | the input lands in the current slot, the other slots are unchanged, the index advances modulo 5, and `filled` becomes set on the fifth update and is never cleared |
| `MimoFilter.FeedHolds` | MushroomChamberController/src/actuators_mimo.cpp:53-56 | after any input history the ring holds the inputs in order followed by zeros until it wraps, and read from the write index it holds exactly the last five inputs after that |
| `MimoFilter.OutputIsWindowAverage` | MushroomChamberController/src/actuators_mimo.cpp:53-64 | the output is the mean of the last five inputs once five have arrived, and before that the sum of the inputs over their count plus one |
| `MimoFilter.FirstOutputIsHalf` | MushroomChamberController/src/actuators_mimo.cpp:58-63 | the first output of a fresh filter is half its input |
| `MimoFilter.ConstantInputSettles` | MushroomChamberController/src/actuators_mimo.cpp:53-64 | a constant input is reproduced exactly once the ring is full |
| `Mimo.SetupActuators` | MushroomChamberController/src/actuators_mimo.cpp:69-80 | the writes are exactly exhaust fan 1, exhaust fan 2, inlet fan and humidifier LOW, in that order, and the controller state is untouched |
| `Mimo.SetupMatchesMirrors` | MushroomChamberController/src/actuators_mimo.cpp:69-80 | from the initial state every pin setup writes is at the level the mirrors record, and every mirror is off |
| `Mimo.ExhaustStage` | MushroomChamberController/src/actuators_mimo.cpp:86-98 | fan 1 runs iff the speed is at least 0.1, fan 2 iff it is at least 0.6, so fan 2 never runs without fan 1 |
| `Mimo.StageMonotone` | MushroomChamberController/src/actuators_mimo.cpp:82-99 | a higher speed never runs fewer exhaust fans |
| `Mimo.SetExhaustFans` | MushroomChamberController/src/actuators_mimo.cpp:82-99 | the stored speed is the request clamped to [0, 1], both exhaust pins are written every call according to the staging, and nothing else changes |
| `Mimo.SetInletFan` | MushroomChamberController/src/actuators_mimo.cpp:101-106 | write-on-change for the inlet fan: the mirror ends equal to the request, an unchanged request writes nothing |
| `Mimo.SetHumidifier` | MushroomChamberController/src/actuators_mimo.cpp:108-113 | write-on-change for the humidifier: the mirror ends equal to the request, an unchanged request writes nothing |
| `Mimo.SetIdempotent` | MushroomChamberController/src/actuators_mimo.cpp:101-113 | switching the humidifier or the inlet fan twice to the same level equals switching it once |
| `Mimo.Penalty` | MushroomChamberController/src/actuators_mimo.cpp:117-121 | the summed relative error is non-negative and zero exactly when all three readings are on target |
| `Mimo.EnvironmentalScore` | MushroomChamberController/src/actuators_mimo.cpp:116-122 | with positive tolerances the score lies in (0, 1] and equals 1 exactly when humidity, temperature and pressure are all on target |
| `Mimo.ScoreMonotone` | MushroomChamberController/src/actuators_mimo.cpp:116-122 | moving each reading no further from its target never lowers the score |
| `Mimo.Need` | MushroomChamberController/src/actuators_mimo.cpp:151-161 | a need lies in [−1, 1], is zero exactly when the error is within a non-negative deadband, has the sign of the error, equals error/scale in the linear range and saturates at ±1 beyond it |
| `Mimo.ComputeNeeds` | MushroomChamberController/src/actuators_mimo.cpp:147-161 | the three needs use scales 10, 5 and 200 with the state's deadbands and each lies in [−1, 1] |
| `Mimo.ComputeDesires` | MushroomChamberController/src/actuators_mimo.cpp:165-193 | the humidifier desire is halved when the temperature need is below −0.3 and the humidifier warms; strong exhaust with low pressure lifts the inlet desire to at least 0.3; otherwise high pressure scales exhaust by 0.7 and lifts the inlet desire to at least 0.2; the inlet desire never drops below its linear value |
| `Mimo.Override` | MushroomChamberController/src/actuators_mimo.cpp:195-204 | pressure more than 200 above target sets exhaust to 1 and inlet to 0; temperature more than 3 above target then sets exhaust to the larger of its value and 0.7 and the humidifier to the smaller of its value and 0; each other desire passes unchanged, and without either emergency all pass unchanged |
| `Mimo.HotterNeverLessExhaust` | MushroomChamberController/src/actuators_mimo.cpp:165-204 | with a cooling exhaust weight, a lower temperature need (a hotter chamber) never yields less exhaust desire after the coordination rules and both clamps |
| `Mimo.Apply` | MushroomChamberController/src/actuators_mimo.cpp:206-209 | the humidifier is on iff its desire exceeds 0.3, the inlet fan iff its desire exceeds 0.2, the exhaust speed is the desire clamped to [0, 1], the writes are exactly the changed humidifier, both exhaust pins, and the changed inlet fan, and every write agrees with the resulting mirrors |
| `Mimo.Learn` | MushroomChamberController/src/actuators_mimo.cpp:215-251 | a worse score (with a positive previous score) scales each qualifying weight by 0.95, a better score scales each active weight by 1.02 capped at 2.0, 1.0 and 1.0, an equal score leaves the weights alone, only the three learnable weights ever move, and the score and learn time are always recorded |
| `Mimo.ExhaustWeightGrowsUncapped` | MushroomChamberController/src/actuators_mimo.cpp:238-241 | a better score with the exhaust above half speed multiplies the negative exhaust-temperature weight by 1.02, moving it further from zero; the cap of 1.0 never applies to it |
| `Mimo.FilterAndMeasure` | MushroomChamberController/src/actuators_mimo.cpp:134-142 | each reading passes through its own filter and the stored errors are target minus filtered reading |
| `Mimo.UpdateActuators` | MushroomChamberController/src/actuators_mimo.cpp:125-251 | a call within the 5000 ms update interval changes nothing; an accepted tick stamps the time, performs exactly the writes of applying the filtered, overridden desires, ends with full exhaust and the inlet off under over-pressure and with both exhaust fans on and the humidifier off under over-temperature, learns from the score of the filtered readings only when more than 60000 ms have passed since the last learn and otherwise keeps weights, score and learn time, and keeps the weights' signs and caps |
| `Mimo.RunKeepsWeightsBounded` | MushroomChamberController/src/actuators_mimo.cpp:231-246 | over any sequence of calls on a monotone clock, the humidifier-humidity weight stays in (0, 2], the exhaust-temperature weight stays negative and the inlet-pressure weight stays in (0, 1] |
| `Mimo.InitialBounded` | MushroomChamberController/src/actuators_mimo.cpp:27-35 | the initial weights satisfy those bounds and the initial filters are well formed |
| `WifiComm.WifiSetup` | MushroomChamberController/src/wifi_comm.cpp:17-32 | the credentials are stored with retry interval 10000 ms and 5 retries, the status is DISCONNECTED, the retry counter 0 and the error empty, and the radio is put in station mode |
| `WifiComm.RetryExpired` | MushroomChamberController/src/wifi_comm.cpp:62-92 | an expired retry timer counts one attempt; reaching the limit fails with the given message and no radio call, otherwise the radio is restarted and the machine is RECONNECTING with a fresh attempt time |
| `WifiComm.WifiRetryLoop` | MushroomChamberController/src/wifi_comm.cpp:34-103 | a connected radio makes the status CONNECTED and clears counter and error unless already CONNECTED; with the radio down DISCONNECTED starts connecting, CONNECTING and RECONNECTING wait for the retry interval and then count an attempt with their own error message, and CONNECTION_FAILED and CONNECTED stay put |
| `WifiComm.ConnectedAfterRadioUp` | MushroomChamberController/src/wifi_comm.cpp:38-46 | one poll with the radio up makes `wifiConnected` true from any status, resetting the counter when the status was not already CONNECTED |
| `WifiComm.DropGoesUnnoticed` | MushroomChamberController/src/wifi_comm.cpp:98-107 | a radio that drops while CONNECTED leaves the status CONNECTED, and `wifiConnected` is nevertheless false |
| `WifiComm.RunEndsConnected` | MushroomChamberController/src/wifi_comm.cpp:34-107 | after any run whose last poll saw the radio up, `wifiConnected` holds |
| `WifiComm.WifiConnected` | MushroomChamberController/src/wifi_comm.cpp:105-107 | true iff the radio is connected and the state machine records CONNECTED; the lemmas below say when that happens |
| `WifiComm.StatusString` | MushroomChamberController/src/wifi_comm.cpp:113-122 | every status is named by a non-empty string of capitals and underscores: DISCONNECTED, CONNECTING, CONNECTED, CONNECTION_FAILED and RECONNECTING, each name belonging to exactly its own status |
| `WifiComm.StatusStringInjective` | MushroomChamberController/src/wifi_comm.cpp:113-122 | every status has a non-empty name and different statuses have different names |
| `WifiComm.SetRetryInterval` | MushroomChamberController/src/wifi_comm.cpp:184-186 | only the retry interval changes |
| `WifiComm.SetMaxRetries` | MushroomChamberController/src/wifi_comm.cpp:188-190 | only the retry limit changes |
| `WifiComm.SetServerUrl` | MushroomChamberController/src/wifi_comm.cpp:192-194 | only the server URL changes |
| `WifiComm.SettersKeepBounded` | MushroomChamberController/src/wifi_comm.cpp:184-194 | the interval and URL setters keep the retry bound, and so does a new limit of at least 1 above the attempts already made |
| `WifiComm.LoweredLimitFailsAtNextExpiry` | MushroomChamberController/src/wifi_comm.cpp:62-72 | lowering the limit to at most one past the attempts made while still trying makes the next expired timer give up |
| `WifiComm.SetupReadsDisconnected` | MushroomChamberController/src/wifi_comm.cpp:17-26 | right after setup the status string is "DISCONNECTED" |
| `WifiComm.SetupBounded` | MushroomChamberController/src/wifi_comm.cpp:17-26 | setup establishes the retry bound: the counter is below a limit of at least 1 |
| `WifiComm.RetryLoopKeepsBounded` | MushroomChamberController/src/wifi_comm.cpp:61-93 | one loop iteration keeps the counter at most the limit, and strictly below it while still trying |
| `WifiComm.RunKeepsBounded` | MushroomChamberController/src/wifi_comm.cpp:34-103 | the retry bound holds after any sequence of loop iterations on a monotone clock |
| `WifiComm.DownRunKeepsStatus` | MushroomChamberController/src/wifi_comm.cpp:95-101 | while the radio stays down, CONNECTION_FAILED and CONNECTED are never left and nothing changes |
| `WifiComm.DownTickUsesAttempt` | MushroomChamberController/src/wifi_comm.cpp:53-93 | with the radio down and the timer expired, each iteration uses up exactly one remaining attempt |
| `WifiComm.DownRunFails` | MushroomChamberController/src/wifi_comm.cpp:53-97 | a radio that never comes up, polled no faster than the retry interval, ends in CONNECTION_FAILED after as many iterations as attempts remain |
| `WifiComm.SetupThenDownFails` | MushroomChamberController/src/wifi_comm.cpp:14-26 | from a fresh setup, six such iterations suffice to reach CONNECTION_FAILED |
| `Led.SetupLeds` | MushroomChamberController/src/led.cpp:12-16 | the strip starts with all 60 pixels black and the latch off |
| `Led.ShouldBeOn` | MushroomChamberController/src/led.cpp:31-37 | with start ≤ end the light is on iff start ≤ hour < end, with start > end iff hour ≥ start or hour < end; on a 24-hour clock both are one arc: lit iff (hour − start) mod 24 < (end − start) mod 24 |
| `Led.EmptyWindowNeverOn` | MushroomChamberController/src/led.cpp:32-33 | a window with start = end never turns the light on |
| `Led.WrapIsComplement` | MushroomChamberController/src/led.cpp:32-37 | a window wrapping past midnight is lit exactly when the reversed window is dark |
| `Led.SetLedColor` | MushroomChamberController/src/led.cpp:48-53 | every one of the 60 pixels shows the given colour |
| `Led.ControlLighting` | MushroomChamberController/src/led.cpp:18-46 | the latch ends equal to the window test; the strip is repainted and shown only when the latch changes, in the phase colour when turning on and in black when turning off; otherwise nothing changes |
| `Led.ControlLightingSettles` | MushroomChamberController/src/led.cpp:39-45 | a second call in the same hour with the same window shows nothing |

## Left out

- Pin numbers, `pinMode`, `Serial` logging, the periodic status log of the adaptive build (`actuators.cpp` lines 309-324) and the debug log of the MIMO build (`actuators_mimo.cpp` lines 253-263). These are output-only side effects. Pin writes are kept as abstract `PinWrite`s.
- `stateToString` and the status and legacy wrappers of both builds (`isHumidifierOn`, `areFansOn`, `getCurrentFanSpeed`, `isVentilating`, `turnFansOn`, `turnFansOff`, and the rest). They are one-line reads or forwards to the modelled setters.
- Float arithmetic. Readings, weights and scores are reals, so IEEE rounding is not modelled.
- The 49-day wrap-around of `millis()`. Every step function requires a monotone clock: no stored timestamp may lie after `now`.
- `changeState` reads `millis()` again. It is modelled as the same `now` as the tick that calls it.
- `Adaptive.UpdateActuators`: `rawPressure` is accepted but unused. In the source it only feeds the status log.
- `Adaptive.HumidifyingTick`: the relearned `humidifyDuration` is ⌊1.2 × time in state⌋ with no clamp, as in the code. Nothing in the shown code reads it.
- `Mimo.EnvironmentalScore`: requires positive humidity and temperature tolerances. The source divides by them, and the float division by zero it would perform has no real-number counterpart.
- `Mimo.UpdateActuators`: requires the same positive tolerances, because it computes the score.
- `WifiComm.WifiRetryLoop`: requires the last attempt time to be no later than `now`, the monotone-clock assumption above.
- The WiFi invariant `RetriesBounded` assumes a limit of at least 1 that `setMaxRetries` does not lower to the counter or below. `WifiComm.SettersKeepBounded` shows the setters keep it under that condition, and `WifiComm.LoweredLimitFailsAtNextExpiry` shows what a lower limit does.
- `sendPostRequest`, `sendSensorData`, `createSensorJson`, `printWiFiStatus` and `getLastError` in `wifi_comm.cpp`. They are HTTP, JSON and radio queries, or plain reads.
- `Adaptive.HumidifyingTick`: `totalHumidifyTime` (an `unsigned long`) and the `int` cycle counters are unbounded naturals, so their wrap-around after 2³² ms of humidifying or 2³¹ cycles is not modelled.
- `Led.SetupLeds`: the `FastLED.show()` that pushes the cleared strip out is not reported; `ControlLighting` reports its own shows.
- The "UNKNOWN" default of `getWiFiStatusString`. No value of the five-state enum reaches it.
- `led.cpp` reads the light window from `MushroomConfig`, which has no such fields. `led.h` declares `controlLighting(const PhaseConfig&)`, so the model takes the window and colour from a `PhaseConfig`. The hour from `localtime_r` is an input.
- `sensors.cpp`, `config.cpp`, `main.cpp`, the backend server, the dashboards and the hardware tests are not part of this model.

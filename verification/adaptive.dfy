/**
 * The adaptive four-state humidity controller
 * (MushroomChamberController/src/actuators.cpp).
 *
 * The source keeps one global `AdaptiveController` record and a static
 * `lastUpdate`; here both live in the immutable `Controller` value, and one
 * call of `updateActuators` is the pure function `UpdateActuators`, which
 * returns the next controller together with the pin writes it performs.
 * `millis()` becomes the parameter `now`, read off a monotone clock.
 */
module Adaptive {
  import opened Types
  import opened Actuation
  import opened Numeric
  import opened Clock

  datatype ControllerState = Humidifying | Stabilizing | Ventilating | Recovering

  /** The `AdaptiveController` struct plus the static `lastUpdate` of `updateActuators`. */
  datatype Controller = Controller(
    state: ControllerState,
    stateStartTime: nat,
    // actuator mirrors: the last commanded level, used to suppress redundant writes
    humidifierOn: bool,
    fansOn: bool,
    // adaptive parameters
    humidityOvershoot: real,
    humidifyDuration: nat,
    stabilizeDuration: nat,
    ventilationDuration: nat,
    ventilationInterval: nat,
    // learning variables
    lastVentilationTime: nat,
    humidityBeforeVentilation: real,
    humidityAfterVentilation: real,
    humidityBuildRate: real,
    humidityDecayRate: real,
    // safety limits
    criticalLowHumidity: real,
    criticalHighTemp: real,
    // statistics
    humidificationCycles: nat,
    ventilationCycles: nat,
    totalHumidifyTime: nat,
    // humidity filter
    filteredHumidity: real,
    lastHumidity: real,
    firstReading: bool,
    lastUpdate: nat)

  /** A controller together with the pin writes performed so far in this call. */
  datatype Tick = Tick(controller: Controller, writes: seq<PinWrite>)

  const TickInterval: nat := 1000
  const HumidityAlpha: real := 0.2
  const DecayAlpha: real := 0.1
  const MinLearnSample: nat := 5000
  const HumidifyTimeout: nat := 180000
  const RecoverTimeout: nat := 120000
  const DriftWatchDelay: nat := 10000
  const MinVentilationDuration: nat := 15000
  const MaxVentilationDuration: nat := 60000

  /** The static initialisers of `controller` and of `lastUpdate`. */
  function Initial(): Controller
  {
    Controller(Stabilizing, 0, false, false,
               3.0, 60000, 300000, 30000, 900000,
               0, 0.0, 0.0, 0.0, 0.0,
               70.0, 30.0,
               0, 0, 0,
               0.0, 0.0, true, 0)
  }

  /** The clamp the ventilation tuner maintains. */
  predicate VentilationBounded(c: Controller)
  {
    MinVentilationDuration <= c.ventilationDuration <= MaxVentilationDuration
  }

  /** The latest timestamp the controller has stored. */
  function Latest(c: Controller): nat
  {
    var t := if c.lastUpdate < c.stateStartTime then c.stateStartTime else c.lastUpdate;
    if t < c.lastVentilationTime then c.lastVentilationTime else t
  }

  /** Monotone clock: no stored timestamp lies after `now`. */
  predicate ClockAfter(c: Controller, now: nat)
  {
    Latest(c) <= now
  }

  /** `setupActuators`: every pin LOW, both timers started at `now`. */
  function SetupActuators(c: Controller, now: nat): (r: Tick)
    ensures r.writes == AllLow
    ensures r.controller.stateStartTime == now && r.controller.lastVentilationTime == now
    ensures r.controller.(stateStartTime := c.stateStartTime, lastVentilationTime := c.lastVentilationTime) == c
    ensures c.lastUpdate <= now ==> ClockAfter(r.controller, now)
  {
    Tick(c.(stateStartTime := now, lastVentilationTime := now), AllLow)
  }

  /** `filterValue`: the exponential filter `alpha * new + (1 - alpha) * old`. */
  function FilterValue(newValue: real, oldValue: real, alpha: real): (r: real)
    // the distance to the new sample shrinks by the factor 1 - alpha
    ensures r - newValue == (1.0 - alpha) * (oldValue - newValue)
    ensures 0.0 <= alpha <= 1.0 ==> Min(newValue, oldValue) <= r <= Max(newValue, oldValue)
  {
    var r := alpha * newValue + (1.0 - alpha) * oldValue;
    var k, d := 1.0 - alpha, oldValue - newValue;
    assert r == newValue + k * d;
    ScaledBetween(k, d);
    r
  }

  /** A factor in [0, 1] scales `d` to a value between 0 and `d`. */
  lemma ScaledBetween(k: real, d: real)
    ensures 0.0 <= k <= 1.0 && d >= 0.0 ==> 0.0 <= k * d <= d
    ensures 0.0 <= k <= 1.0 && d <= 0.0 ==> d <= k * d <= 0.0
  {
    if 0.0 <= k <= 1.0 {
      if d >= 0.0 {
        assert k * d <= 1.0 * d;
      } else {
        assert k * d >= 1.0 * d;
      }
    }
  }

  /** `filterValue` applied `n` times to the constant sample `v`, starting from `f`. */
  function Smooth(f: real, v: real, n: nat): real
  {
    if n == 0 then f else FilterValue(v, Smooth(f, v, n - 1), HumidityAlpha)
  }

  function Pow(x: real, n: nat): real
  {
    if n == 0 then 1.0 else x * Pow(x, n - 1)
  }

  /** On a constant input the humidity filter's error decays geometrically. */
  lemma {:induction false} SmoothConverges(f: real, v: real, n: nat)
    ensures Smooth(f, v, n) - v == Pow(0.8, n) * (f - v)
    ensures 0.0 < Pow(0.8, n) <= 1.0
  {
    if n > 0 {
      SmoothConverges(f, v, n - 1);
    }
  }

  /** The three fan pins `setFans` drives together. */
  function FanWrites(on: bool): seq<PinWrite>
  {
    [PinWrite(ExhaustFan1, on), PinWrite(ExhaustFan2, on), PinWrite(InletFan, on)]
  }

  /** `setHumidifier`: write the pin and the mirror only when the level changes. */
  function SetHumidifier(t: Tick, on: bool): (r: Tick)
    ensures r.controller.humidifierOn == on
    ensures t.controller.humidifierOn == on ==> r == t
    ensures r.controller.(humidifierOn := t.controller.humidifierOn) == t.controller
    ensures t.controller.humidifierOn != on ==> r.writes == t.writes + [PinWrite(Humidifier, on)]
  {
    if on != t.controller.humidifierOn then
      Tick(t.controller.(humidifierOn := on), t.writes + [PinWrite(Humidifier, on)])
    else
      t
  }

  /** `setFans`: both exhaust fans and the inlet fan switch together, on change only. */
  function SetFans(t: Tick, on: bool): (r: Tick)
    ensures r.controller.fansOn == on
    ensures t.controller.fansOn == on ==> r == t
    ensures r.controller.(fansOn := t.controller.fansOn) == t.controller
    ensures t.controller.fansOn != on ==> r.writes == t.writes + FanWrites(on)
  {
    if on != t.controller.fansOn then
      Tick(t.controller.(fansOn := on), t.writes + FanWrites(on))
    else
      t
  }

  /** Driving an actuator twice with the same level is the same as driving it once. */
  lemma SetIdempotent(t: Tick, on: bool)
    ensures SetHumidifier(SetHumidifier(t, on), on) == SetHumidifier(t, on)
    ensures SetFans(SetFans(t, on), on) == SetFans(t, on)
  {
  }

  /** The pin writes of one tick, given the mirrors before and after it. */
  function MirrorWrites(before: Controller, after: Controller): seq<PinWrite>
  {
    (if before.humidifierOn == after.humidifierOn then [] else [PinWrite(Humidifier, after.humidifierOn)])
    + (if before.fansOn == after.fansOn then [] else FanWrites(after.fansOn))
  }

  /** `changeState`: a no-op for the current state; otherwise restart the state timer and record ventilation data. */
  function ChangeState(c: Controller, newState: ControllerState, currentHumidity: real, now: nat): (r: Controller)
    ensures newState == c.state ==> r == c
    ensures r.state == newState
    ensures newState != c.state ==> r.stateStartTime == now
    ensures r.humidityBeforeVentilation
            == if c.state == Stabilizing && newState == Ventilating then currentHumidity else c.humidityBeforeVentilation
    ensures r.humidityAfterVentilation
            == if c.state == Ventilating && newState == Recovering then currentHumidity else c.humidityAfterVentilation
    ensures r.ventilationCycles
            == if c.state == Ventilating && newState == Recovering then c.ventilationCycles + 1 else c.ventilationCycles
    ensures newState != c.state ==>
              r == c.(state := newState, stateStartTime := now,
                      humidityBeforeVentilation := r.humidityBeforeVentilation,
                      humidityAfterVentilation := r.humidityAfterVentilation,
                      ventilationCycles := r.ventilationCycles)
  {
    if newState == c.state then c
    else
      var leavingVentilation := c.state == Ventilating && newState == Recovering;
      c.(state := newState,
         stateStartTime := now,
         humidityBeforeVentilation :=
           if c.state == Stabilizing && newState == Ventilating then currentHumidity else c.humidityBeforeVentilation,
         humidityAfterVentilation :=
           if leavingVentilation then currentHumidity else c.humidityAfterVentilation,
         ventilationCycles :=
           if leavingVentilation then c.ventilationCycles + 1 else c.ventilationCycles)
  }

  /**
   * The ventilation-duration tuner: shrink by 10% (floor 15 s) after a drop
   * above 1.5x the expected one, grow by 10% (ceiling 60 s) after a drop
   * below half of it, otherwise keep the duration.
   */
  function TuneVentilation(duration: nat, actualDrop: real, expectedDrop: real): (r: nat)
    // shrink: ten percent off, truncated, but never below 15 s
    ensures actualDrop > expectedDrop * 1.5 && duration as real * 0.9 >= MinVentilationDuration as real ==>
              r as real <= duration as real * 0.9 < r as real + 1.0
    ensures actualDrop > expectedDrop * 1.5 && duration as real * 0.9 < MinVentilationDuration as real ==>
              r == MinVentilationDuration
    // grow: ten percent on, truncated, but never above 60 s
    ensures !(actualDrop > expectedDrop * 1.5) && actualDrop < expectedDrop * 0.5
            && duration as real * 1.1 < MaxVentilationDuration as real ==>
              r as real <= duration as real * 1.1 < r as real + 1.0
    ensures !(actualDrop > expectedDrop * 1.5) && actualDrop < expectedDrop * 0.5
            && duration as real * 1.1 >= MaxVentilationDuration as real ==>
              r == MaxVentilationDuration
    ensures !(actualDrop > expectedDrop * 1.5) && !(actualDrop < expectedDrop * 0.5) ==> r == duration
    ensures MinVentilationDuration <= duration <= MaxVentilationDuration ==>
              MinVentilationDuration <= r <= MaxVentilationDuration
  {
    if actualDrop > expectedDrop * 1.5 then
      var shrunk := Truncate(duration as real * 0.9);
      if shrunk < MinVentilationDuration then MinVentilationDuration else shrunk
    else if actualDrop < expectedDrop * 0.5 then
      var grown := Truncate(duration as real * 1.1);
      if grown < MaxVentilationDuration then grown else MaxVentilationDuration
    else
      duration
  }

  /** Asking twice for the same state is the same as asking once: the timer is not restarted. */
  lemma ChangeStateIdempotent(c: Controller, s: ControllerState, h1: real, h2: real, t1: nat, t2: nat)
    ensures ChangeState(ChangeState(c, s, h1, t1), s, h2, t2) == ChangeState(c, s, h1, t1)
  {
  }

  /**
   * Within the clamp the tuner reacts monotonically: a larger humidity drop
   * never leaves a longer ventilation duration than a smaller one.
   */
  lemma TuneVentilationAntitone(duration: nat, drop1: real, drop2: real, expectedDrop: real)
    requires MinVentilationDuration <= duration <= MaxVentilationDuration
    requires expectedDrop >= 0.0 && drop1 <= drop2
    ensures TuneVentilation(duration, drop2, expectedDrop) <= TuneVentilation(duration, drop1, expectedDrop)
  {
    var shrunk := Truncate(duration as real * 0.9);
    var grown := Truncate(duration as real * 1.1);
    assert shrunk <= duration;
    assert grown as real > duration as real * 1.1 - 1.0 >= duration as real - 1.0;
    assert grown >= duration;
  }

  /** The quantities `updateActuators` derives before it decides anything. */
  datatype Moment = Moment(
    now: nat,
    humidity: real,              // filtered humidity
    humidityDelta: real,         // change of filtered humidity since the last tick
    timeInState: nat,
    timeSinceVentilation: nat,
    targetHumidity: real)

  /** The actuator levels (humidifier, fans) each state drives. */
  function Outputs(s: ControllerState): (bool, bool)
  {
    match s
    case Humidifying => (true, false)
    case Stabilizing => (false, false)
    case Ventilating => (false, true)
    case Recovering => (true, false)
  }

  predicate Drives(c: Controller, s: ControllerState)
  {
    (c.humidifierOn, c.fansOn) == Outputs(s)
  }

  /** The HUMIDIFYING case: stop at target + overshoot (learning the duration) or after the 3-minute timeout. */
  function HumidifyingTick(c: Controller, m: Moment): (r: Tick)
    requires c.state == Humidifying
    ensures Drives(r.controller, Humidifying)
    ensures Framed(c, r, m.now)
    ensures m.humidity >= m.targetHumidity + c.humidityOvershoot ==>
              && r.controller.state == Stabilizing
              && r.controller.stateStartTime == m.now
              && r.controller.humidificationCycles == c.humidificationCycles + 1
              && r.controller.totalHumidifyTime == c.totalHumidifyTime + m.timeInState
              && (m.timeInState > MinLearnSample ==>
                    r.controller.humidifyDuration as real <= m.timeInState as real * 1.2
                    < r.controller.humidifyDuration as real + 1.0)
              && (m.timeInState <= MinLearnSample ==> r.controller.humidifyDuration == c.humidifyDuration)
    ensures !(m.humidity >= m.targetHumidity + c.humidityOvershoot) && m.timeInState > HumidifyTimeout ==>
              && r.controller.state == Stabilizing
              && r.controller.stateStartTime == m.now
              && r.controller.humidifyDuration == c.humidifyDuration
              && r.controller.humidificationCycles == c.humidificationCycles
              && r.controller.totalHumidifyTime == c.totalHumidifyTime
    ensures !(m.humidity >= m.targetHumidity + c.humidityOvershoot) && m.timeInState <= HumidifyTimeout ==>
              r.controller == c.(humidifierOn := true, fansOn := false)
    ensures r.controller.ventilationDuration == c.ventilationDuration
    ensures r.controller.lastVentilationTime == c.lastVentilationTime
    // only the state, the mirrors and the humidifying statistics and duration change
    ensures r.controller.(state := c.state, stateStartTime := c.stateStartTime,
                          humidifierOn := c.humidifierOn, fansOn := c.fansOn,
                          humidificationCycles := c.humidificationCycles,
                          totalHumidifyTime := c.totalHumidifyTime,
                          humidifyDuration := c.humidifyDuration) == c
  {
    var t := SetFans(SetHumidifier(Tick(c, []), true), false);
    var c1 := t.controller;
    if m.humidity >= m.targetHumidity + c1.humidityOvershoot then
      var c2 := c1.(totalHumidifyTime := c1.totalHumidifyTime + m.timeInState,
                    humidificationCycles := c1.humidificationCycles + 1);
      var c3 := if m.timeInState > MinLearnSample
                then c2.(humidifyDuration := Truncate(m.timeInState as real * 1.2))
                else c2;
      Tick(ChangeState(c3, Stabilizing, m.humidity, m.now), t.writes)
    else if m.timeInState > HumidifyTimeout then
      Tick(ChangeState(c1, Stabilizing, m.humidity, m.now), t.writes)
    else
      t
  }

  /**
   * The STABILIZING case: track the drift rate, then, in this order,
   * restart humidifying when 2 points below target, extend the stay when
   * 5 points above target past the stabilize duration, or start the
   * scheduled ventilation.
   */
  function StabilizingTick(c: Controller, m: Moment): (r: Tick)
    requires c.state == Stabilizing
    ensures Drives(r.controller, Stabilizing)
    ensures Framed(c, r, m.now)
    ensures m.humidity < m.targetHumidity - 2.0 ==>
              r.controller.state == Humidifying && r.controller.stateStartTime == m.now
    ensures !(m.humidity < m.targetHumidity - 2.0)
            && m.humidity > m.targetHumidity + 5.0 && m.timeInState > c.stabilizeDuration ==>
              r.controller.state == Stabilizing && r.controller.stateStartTime == m.now
    ensures !(m.humidity < m.targetHumidity - 2.0)
            && !(m.humidity > m.targetHumidity + 5.0 && m.timeInState > c.stabilizeDuration)
            && m.timeSinceVentilation > c.ventilationInterval ==>
              && r.controller.state == Ventilating
              && r.controller.stateStartTime == m.now
              && r.controller.humidityBeforeVentilation == m.humidity
    ensures !(m.humidity < m.targetHumidity - 2.0)
            && !(m.humidity > m.targetHumidity + 5.0 && m.timeInState > c.stabilizeDuration)
            && !(m.timeSinceVentilation > c.ventilationInterval) ==>
              r.controller.state == Stabilizing && r.controller.stateStartTime == c.stateStartTime
    ensures m.timeInState > DriftWatchDelay && Abs(m.humidityDelta) > 0.05 ==>
              r.controller.humidityDecayRate == FilterValue(Abs(m.humidityDelta), c.humidityDecayRate, DecayAlpha)
    ensures !(m.timeInState > DriftWatchDelay && Abs(m.humidityDelta) > 0.05) ==>
              r.controller.humidityDecayRate == c.humidityDecayRate
    ensures r.controller.ventilationDuration == c.ventilationDuration
    ensures r.controller.humidifyDuration == c.humidifyDuration
    ensures r.controller.lastVentilationTime == c.lastVentilationTime
    // only the state, the mirrors, the drift rate and the pre-ventilation humidity change
    ensures r.controller.(state := c.state, stateStartTime := c.stateStartTime,
                          humidifierOn := c.humidifierOn, fansOn := c.fansOn,
                          humidityDecayRate := c.humidityDecayRate,
                          humidityBeforeVentilation := c.humidityBeforeVentilation) == c
    // the humidity before ventilation is recorded only when ventilation starts
    ensures r.controller.humidityBeforeVentilation
            == if r.controller.state == Ventilating then m.humidity else c.humidityBeforeVentilation
  {
    var t := SetFans(SetHumidifier(Tick(c, []), false), false);
    var c1 := t.controller;
    var c2 := if m.timeInState > DriftWatchDelay && Abs(m.humidityDelta) > 0.05
              then c1.(humidityDecayRate := FilterValue(Abs(m.humidityDelta), c1.humidityDecayRate, DecayAlpha))
              else c1;
    if m.humidity < m.targetHumidity - 2.0 then
      Tick(ChangeState(c2, Humidifying, m.humidity, m.now), t.writes)
    else if m.humidity > m.targetHumidity + 5.0 && m.timeInState > c2.stabilizeDuration then
      Tick(c2.(stateStartTime := m.now), t.writes)
    else if m.timeSinceVentilation > c2.ventilationInterval then
      Tick(ChangeState(c2, Ventilating, m.humidity, m.now), t.writes)
    else
      Tick(c2, t.writes)
  }

  /** The VENTILATING case: after the ventilation duration, tune it from the humidity drop and start recovering. */
  function VentilatingTick(c: Controller, m: Moment): (r: Tick)
    requires c.state == Ventilating
    ensures Drives(r.controller, Ventilating)
    ensures Framed(c, r, m.now)
    ensures m.timeInState > c.ventilationDuration ==>
              && r.controller.state == Recovering
              && r.controller.stateStartTime == m.now
              && r.controller.lastVentilationTime == m.now
              && r.controller.ventilationCycles == c.ventilationCycles + 1
              && r.controller.humidityAfterVentilation == m.humidity
              && r.controller.ventilationDuration
                 == TuneVentilation(c.ventilationDuration, c.humidityBeforeVentilation - m.humidity,
                                    m.targetHumidity * 0.15)
    ensures m.timeInState <= c.ventilationDuration ==>
              r.controller == c.(humidifierOn := false, fansOn := true)
    ensures VentilationBounded(c) ==> VentilationBounded(r.controller)
    ensures r.controller.humidifyDuration == c.humidifyDuration
    // only the state, the mirrors and the ventilation record and tuning change
    ensures r.controller.(state := c.state, stateStartTime := c.stateStartTime,
                          humidifierOn := c.humidifierOn, fansOn := c.fansOn,
                          lastVentilationTime := c.lastVentilationTime,
                          ventilationDuration := c.ventilationDuration,
                          ventilationCycles := c.ventilationCycles,
                          humidityAfterVentilation := c.humidityAfterVentilation) == c
  {
    var t := SetFans(SetHumidifier(Tick(c, []), false), true);
    var c1 := t.controller;
    if m.timeInState > c1.ventilationDuration then
      var expectedDrop := m.targetHumidity * 0.15;
      var actualDrop := c1.humidityBeforeVentilation - m.humidity;
      var c2 := c1.(lastVentilationTime := m.now,
                    ventilationDuration := TuneVentilation(c1.ventilationDuration, actualDrop, expectedDrop));
      Tick(ChangeState(c2, Recovering, m.humidity, m.now), t.writes)
    else
      t
  }

  /** The RECOVERING case: back to stabilizing within 1 point of target or after the 2-minute timeout. */
  function RecoveringTick(c: Controller, m: Moment): (r: Tick)
    requires c.state == Recovering
    ensures Drives(r.controller, Recovering)
    ensures Framed(c, r, m.now)
    ensures m.humidity >= m.targetHumidity - 1.0 || m.timeInState > RecoverTimeout ==>
              r.controller.state == Stabilizing && r.controller.stateStartTime == m.now
    ensures !(m.humidity >= m.targetHumidity - 1.0 || m.timeInState > RecoverTimeout) ==>
              r.controller == c.(humidifierOn := true, fansOn := false)
    ensures r.controller.ventilationDuration == c.ventilationDuration
    ensures r.controller.humidifyDuration == c.humidifyDuration
    ensures r.controller.lastVentilationTime == c.lastVentilationTime
    // only the state and the mirrors change
    ensures r.controller.(state := c.state, stateStartTime := c.stateStartTime,
                          humidifierOn := c.humidifierOn, fansOn := c.fansOn) == c
  {
    var t := SetFans(SetHumidifier(Tick(c, []), true), false);
    if m.humidity >= m.targetHumidity - 1.0 then
      Tick(ChangeState(t.controller, Stabilizing, m.humidity, m.now), t.writes)
    else if m.timeInState > RecoverTimeout then
      Tick(ChangeState(t.controller, Stabilizing, m.humidity, m.now), t.writes)
    else
      t
  }

  /** The successors the state machine itself allows (emergencies aside). */
  predicate NormalSuccessor(from: ControllerState, to: ControllerState)
  {
    from == to ||
    match from
    case Humidifying => to == Stabilizing
    case Stabilizing => to == Humidifying || to == Ventilating
    case Ventilating => to == Recovering
    case Recovering => to == Stabilizing
  }

  /** The filtered humidity a tick accepted at this point would act on. */
  function FilteredHumidity(c: Controller, rawHumidity: real): real
  {
    if c.firstReading then rawHumidity else FilterValue(rawHumidity, c.filteredHumidity, HumidityAlpha)
  }

  predicate HumidityEmergency(c: Controller, rawHumidity: real)
  {
    FilteredHumidity(c, rawHumidity) < c.criticalLowHumidity
  }

  predicate HeatEmergency(c: Controller, rawHumidity: real, rawTemperature: real)
  {
    !HumidityEmergency(c, rawHumidity) && rawTemperature > c.criticalHighTemp
  }

  /** Every setting no tuner touches. */
  predicate SameSettings(a: Controller, b: Controller)
  {
    a.humidityOvershoot == b.humidityOvershoot
    && a.stabilizeDuration == b.stabilizeDuration
    && a.ventilationInterval == b.ventilationInterval
    && a.criticalLowHumidity == b.criticalLowHumidity
    && a.criticalHighTemp == b.criticalHighTemp
  }

  /** What every branch of `updateActuators` after filtering leaves alone. */
  predicate Framed(c: Controller, r: Tick, now: nat)
  {
    && r.writes == MirrorWrites(c, r.controller)
    && (VentilationBounded(c) ==> VentilationBounded(r.controller))
    && SameSettings(c, r.controller)
    && r.controller.lastUpdate == c.lastUpdate
    && r.controller.filteredHumidity == c.filteredHumidity
    && r.controller.lastHumidity == c.lastHumidity
    && r.controller.firstReading == c.firstReading
    && (r.controller.stateStartTime == c.stateStartTime || r.controller.stateStartTime == now)
    && (r.controller.lastVentilationTime == c.lastVentilationTime || r.controller.lastVentilationTime == now)
  }

  /** The critical-low-humidity override: humidify, fans off, no tuning. */
  function HumidityOverride(c: Controller, m: Moment): (r: Tick)
    ensures r.controller.state == Humidifying && Drives(r.controller, Humidifying)
    // the timer restarts only on a real change of state; nothing is tuned or counted
    ensures r.controller == c.(state := Humidifying,
                               stateStartTime := if c.state == Humidifying then c.stateStartTime else m.now,
                               humidifierOn := true, fansOn := false)
    ensures Framed(c, r, m.now)
  {
    var c1 := if c.state != Humidifying then ChangeState(c, Humidifying, m.humidity, m.now) else c;
    SetFans(SetHumidifier(Tick(c1, []), true), false)
  }

  /** The critical-high-temperature override: ventilate, humidifier off, no tuning. */
  function HeatOverride(c: Controller, m: Moment): (r: Tick)
    ensures r.controller.state == Ventilating && Drives(r.controller, Ventilating)
    // leaving STABILIZING records the humidity before ventilation; nothing is tuned or counted
    ensures r.controller == c.(state := Ventilating,
                               stateStartTime := if c.state == Ventilating then c.stateStartTime else m.now,
                               humidifierOn := false, fansOn := true,
                               humidityBeforeVentilation :=
                                 if c.state == Stabilizing then m.humidity else c.humidityBeforeVentilation)
    ensures Framed(c, r, m.now)
  {
    var c1 := if c.state != Ventilating then ChangeState(c, Ventilating, m.humidity, m.now) else c;
    SetFans(SetHumidifier(Tick(c1, []), false), true)
  }

  /** The `switch` over the controller state. */
  function StateMachine(c: Controller, m: Moment): (r: Tick)
    ensures Drives(r.controller, c.state) && NormalSuccessor(c.state, r.controller.state)
    ensures Framed(c, r, m.now)
  {
    match c.state
    case Humidifying => HumidifyingTick(c, m)
    case Stabilizing => StabilizingTick(c, m)
    case Ventilating => VentilatingTick(c, m)
    case Recovering => RecoveringTick(c, m)
  }

  /**
   * The part of `updateActuators` after filtering: the two emergency
   * overrides, humidity-low first, each returning before the state machine.
   */
  function Decide(c: Controller, m: Moment, rawTemperature: real): (r: Tick)
    // low humidity wins: humidify with the fans off, whatever the state was
    ensures m.humidity < c.criticalLowHumidity ==>
              && r.controller.state == Humidifying && Drives(r.controller, Humidifying)
              && r.controller.stateStartTime == (if c.state == Humidifying then c.stateStartTime else m.now)
              && r.controller.(state := c.state, stateStartTime := c.stateStartTime,
                               humidifierOn := c.humidifierOn, fansOn := c.fansOn) == c
    // then heat: ventilate with the humidifier off
    ensures !(m.humidity < c.criticalLowHumidity) && rawTemperature > c.criticalHighTemp ==>
              && r.controller.state == Ventilating && Drives(r.controller, Ventilating)
              && r.controller.stateStartTime == (if c.state == Ventilating then c.stateStartTime else m.now)
              && r.controller.humidityBeforeVentilation
                 == (if c.state == Stabilizing then m.humidity else c.humidityBeforeVentilation)
              && r.controller.(state := c.state, stateStartTime := c.stateStartTime,
                               humidifierOn := c.humidifierOn, fansOn := c.fansOn,
                               humidityBeforeVentilation := c.humidityBeforeVentilation) == c
    // otherwise the state machine runs: it drives the actuators of the state it
    // started in and moves at most one edge along the cycle
    ensures !(m.humidity < c.criticalLowHumidity) && !(rawTemperature > c.criticalHighTemp) ==>
              && r == StateMachine(c, m)
              && Drives(r.controller, c.state) && NormalSuccessor(c.state, r.controller.state)
    ensures Framed(c, r, m.now)
  {
    if m.humidity < c.criticalLowHumidity then HumidityOverride(c, m)
    else if rawTemperature > c.criticalHighTemp then HeatOverride(c, m)
    else StateMachine(c, m)
  }

  /** The controller once a tick is accepted: stamped, with the filtered humidity stored as the new reference. */
  function Accept(c: Controller, rawHumidity: real, now: nat): (r: Controller)
    ensures r.lastUpdate == now && !r.firstReading
    ensures r.filteredHumidity == FilteredHumidity(c, rawHumidity) && r.lastHumidity == r.filteredHumidity
    ensures c.firstReading ==> r.filteredHumidity == rawHumidity
    ensures r.(lastUpdate := c.lastUpdate, filteredHumidity := c.filteredHumidity,
               lastHumidity := c.lastHumidity, firstReading := c.firstReading) == c
  {
    var humidity := FilteredHumidity(c, rawHumidity);
    c.(lastUpdate := now, filteredHumidity := humidity, lastHumidity := humidity, firstReading := false)
  }

  /**
   * The quantities an accepted tick decides on. On the first reading the
   * filter is seeded with the raw sample, so the humidity delta is zero.
   */
  function TickMoment(c: Controller, cfg: PhaseConfig, rawHumidity: real, now: nat): (m: Moment)
    requires ClockAfter(c, now)
    ensures m.now == now && m.humidity == FilteredHumidity(c, rawHumidity)
    ensures c.firstReading ==> m.humidity == rawHumidity && m.humidityDelta == 0.0
    ensures !c.firstReading ==> m.humidityDelta == m.humidity - c.lastHumidity
    ensures m.timeInState as int == now - c.stateStartTime
    ensures m.timeSinceVentilation as int == now - c.lastVentilationTime
    ensures m.targetHumidity == cfg.targetHumidity
  {
    var humidity := FilteredHumidity(c, rawHumidity);
    var previous := if c.firstReading then rawHumidity else c.lastHumidity;
    Moment(now, humidity, humidity - previous, now - c.stateStartTime, now - c.lastVentilationTime, cfg.targetHumidity)
  }

  /**
   * `updateActuators`: one control tick. `rawPressure` only feeds the
   * status log, which is not modelled.
   */
  function UpdateActuators(c: Controller, cfg: PhaseConfig, rawHumidity: real, rawTemperature: real,
                           rawPressure: real, now: nat): (r: Tick)
    requires ClockAfter(c, now)
    // rate limit: nothing happens within a second of the last accepted tick
    ensures now - c.lastUpdate < TickInterval ==> r == Tick(c, [])
    // an accepted tick decides on the filtered humidity and the timers measured at `now`
    ensures now - c.lastUpdate >= TickInterval ==>
              r == Decide(Accept(c, rawHumidity, now), TickMoment(c, cfg, rawHumidity, now), rawTemperature)
    ensures now - c.lastUpdate >= TickInterval ==>
              && r.controller.lastUpdate == now
              && !r.controller.firstReading
              && r.controller.filteredHumidity == FilteredHumidity(c, rawHumidity)
              && r.controller.lastHumidity == r.controller.filteredHumidity
              && (c.firstReading ==> r.controller.filteredHumidity == rawHumidity)
    // emergencies: humidity-low first, then temperature-high
    ensures now - c.lastUpdate >= TickInterval && HumidityEmergency(c, rawHumidity) ==>
              r.controller.state == Humidifying && Drives(r.controller, Humidifying)
              && r.controller.ventilationDuration == c.ventilationDuration
              && r.controller.humidifyDuration == c.humidifyDuration
              && r.controller.lastVentilationTime == c.lastVentilationTime
    ensures now - c.lastUpdate >= TickInterval && HeatEmergency(c, rawHumidity, rawTemperature) ==>
              r.controller.state == Ventilating && Drives(r.controller, Ventilating)
              && r.controller.ventilationDuration == c.ventilationDuration
              && r.controller.humidifyDuration == c.humidifyDuration
              && r.controller.lastVentilationTime == c.lastVentilationTime
    // otherwise the state machine drives the actuators of the state it started in
    ensures now - c.lastUpdate >= TickInterval
            && !HumidityEmergency(c, rawHumidity) && !HeatEmergency(c, rawHumidity, rawTemperature) ==>
              Drives(r.controller, c.state) && NormalSuccessor(c.state, r.controller.state)
    ensures r.writes == MirrorWrites(c, r.controller)
    ensures VentilationBounded(c) ==> VentilationBounded(r.controller)
    ensures SameSettings(c, r.controller)
    ensures ClockAfter(r.controller, now)
  {
    if now - c.lastUpdate < TickInterval then
      Tick(c, [])
    else
      Decide(Accept(c, rawHumidity, now), TickMoment(c, cfg, rawHumidity, now), rawTemperature)
  }

  /**
   * An accepted tick without emergency, read against the stored timers and
   * the filtered humidity: each state's exit condition and what it records.
   */
  lemma AcceptedTickTransitions(c: Controller, cfg: PhaseConfig, rawHumidity: real, rawTemperature: real,
                                rawPressure: real, now: nat)
    requires ClockAfter(c, now) && now - c.lastUpdate >= TickInterval
    requires !HumidityEmergency(c, rawHumidity) && rawTemperature <= c.criticalHighTemp
    ensures var r := UpdateActuators(c, cfg, rawHumidity, rawTemperature, rawPressure, now).controller;
            var h := FilteredHumidity(c, rawHumidity);
            && (c.state == Humidifying && h >= cfg.targetHumidity + c.humidityOvershoot ==>
                  && r.state == Stabilizing && r.stateStartTime == now
                  && r.humidificationCycles == c.humidificationCycles + 1
                  && r.totalHumidifyTime == c.totalHumidifyTime + (now - c.stateStartTime))
            && (c.state == Humidifying && h < cfg.targetHumidity + c.humidityOvershoot
                && now - c.stateStartTime > HumidifyTimeout ==>
                  && r.state == Stabilizing && r.stateStartTime == now
                  && r.humidificationCycles == c.humidificationCycles
                  && r.humidifyDuration == c.humidifyDuration)
            && (c.state == Stabilizing && h < cfg.targetHumidity - 2.0 ==>
                  r.state == Humidifying && r.stateStartTime == now)
            && (c.state == Stabilizing && !(h < cfg.targetHumidity - 2.0)
                && h > cfg.targetHumidity + 5.0 && now - c.stateStartTime > c.stabilizeDuration ==>
                  r.state == Stabilizing && r.stateStartTime == now)
            && (c.state == Stabilizing && !(h < cfg.targetHumidity - 2.0)
                && !(h > cfg.targetHumidity + 5.0 && now - c.stateStartTime > c.stabilizeDuration)
                && now - c.lastVentilationTime > c.ventilationInterval ==>
                  r.state == Ventilating && r.stateStartTime == now && r.humidityBeforeVentilation == h)
            && (c.state == Ventilating && now - c.stateStartTime > c.ventilationDuration ==>
                  && r.state == Recovering && r.lastVentilationTime == now
                  && r.ventilationCycles == c.ventilationCycles + 1
                  && r.ventilationDuration
                     == TuneVentilation(c.ventilationDuration, c.humidityBeforeVentilation - h,
                                        cfg.targetHumidity * 0.15))
            && (c.state == Recovering && (h >= cfg.targetHumidity - 1.0 || now - c.stateStartTime > RecoverTimeout) ==>
                  r.state == Stabilizing && r.stateStartTime == now)
  {
  }

  /** The controller after `updateActuators` has been called once per sample. */
  function Run(c: Controller, cfg: PhaseConfig, samples: seq<Timed<Reading>>): Controller
    requires Monotone(Latest(c), samples)
    decreases |samples|
  {
    if |samples| == 0 then c
    else
      var s := samples[0];
      var r := UpdateActuators(c, cfg, s.value.humidity, s.value.temperature, s.value.pressure, s.now).controller;
      MonotoneFromEarlier(Latest(r), s.now, samples[1..]);
      Run(r, cfg, samples[1..])
  }

  /** The ventilation duration stays within [15 s, 60 s] however long the controller runs. */
  lemma {:induction false} RunKeepsVentilationBounded(c: Controller, cfg: PhaseConfig, samples: seq<Timed<Reading>>)
    requires Monotone(Latest(c), samples)
    requires VentilationBounded(c)
    ensures VentilationBounded(Run(c, cfg, samples))
    ensures SameSettings(c, Run(c, cfg, samples))
    decreases |samples|
  {
    if |samples| > 0 {
      var s := samples[0];
      var r := UpdateActuators(c, cfg, s.value.humidity, s.value.temperature, s.value.pressure, s.now).controller;
      MonotoneFromEarlier(Latest(r), s.now, samples[1..]);
      RunKeepsVentilationBounded(r, cfg, samples[1..]);
    }
  }

  /** The initial controller, after setup, satisfies the tuner's clamp. */
  lemma InitialBounded(now: nat)
    ensures VentilationBounded(SetupActuators(Initial(), now).controller)
    ensures ClockAfter(SetupActuators(Initial(), now).controller, now)
  {
  }

  /**
   * Extending stabilization cannot starve ventilation: once a ventilation
   * is overdue, a tick that resets the stabilize timer instead is followed,
   * within `stabilizeDuration`, by a tick that starts ventilating (unless
   * humidity has meanwhile dropped below target - 2).
   */
  lemma ExtensionDoesNotStarveVentilation(c: Controller, m1: Moment, m2: Moment)
    requires c.state == Stabilizing
    requires !(m1.humidity < m1.targetHumidity - 2.0)
    requires m1.timeSinceVentilation > c.ventilationInterval
    requires StabilizingTick(c, m1).controller.state == Stabilizing
    requires !(m2.humidity < m2.targetHumidity - 2.0)
    requires m2.timeInState <= c.stabilizeDuration
    requires m2.timeSinceVentilation >= m1.timeSinceVentilation
    ensures StabilizingTick(StabilizingTick(c, m1).controller, m2).controller.state == Ventilating
  {
  }
}

/**
 * The MIMO weighted-desire controller
 * (MushroomChamberController/src/actuators_mimo.cpp), an alternative build
 * of the same actuator interface as the adaptive controller.
 *
 * Each accepted tick filters the three readings, turns their errors into
 * "needs" in [-1, 1] (zero inside a deadband), mixes the needs into one
 * "desire" per actuator through a table of effect weights, applies the
 * coordination rules and the two emergency clamps, thresholds the desires
 * into commands, and once a minute nudges three of the weights according to
 * whether the environmental score got better or worse.
 */
module Mimo {
  import opened Types
  import opened Actuation
  import opened Numeric
  import opened Clock
  import MimoFilter

  /** How strongly each actuator is believed to move each variable. */
  datatype Weights = Weights(
    humidifierAffectsHumidity: real,
    humidifierAffectsTemperature: real,
    exhaustAffectsHumidity: real,
    exhaustAffectsTemperature: real,
    exhaustAffectsPressure: real,
    inletAffectsHumidity: real,
    inletAffectsTemperature: real,
    inletAffectsPressure: real)

  /**
   * The `MIMOState` struct, the three `SimpleFilter`s and the statics
   * `lastScore` and `lastLearnTime` of `updateActuators`.
   */
  datatype MimoState = MimoState(
    humidifierOn: bool,
    exhaustFanSpeed: real,
    inletFanOn: bool,
    humidityError: real,
    temperatureError: real,
    pressureError: real,
    weights: Weights,
    humidityDeadband: real,
    temperatureDeadband: real,
    pressureDeadband: real,
    lastUpdate: nat,
    updateInterval: nat,
    humidityFilter: MimoFilter.Filter,
    temperatureFilter: MimoFilter.Filter,
    pressureFilter: MimoFilter.Filter,
    lastScore: real,
    lastLearnTime: nat)

  /** A state together with the pin writes performed so far in this call. */
  datatype Step = Step(state: MimoState, writes: seq<PinWrite>)

  const LearnInterval: nat := 60000
  const HumidityScale: real := 10.0
  const TemperatureScale: real := 5.0
  const PressureScale: real := 200.0

  /** The static initialisers. */
  function Initial(): MimoState
  {
    MimoState(false, 0.0, false, 0.0, 0.0, 0.0,
              Weights(1.0, 0.2, -0.4, -0.3, -1.0, -0.1, 0.1, 0.3),
              2.0, 1.0, 50.0,
              0, 5000,
              MimoFilter.NewFilter(), MimoFilter.NewFilter(), MimoFilter.NewFilter(),
              0.0, 0)
  }

  predicate Valid(s: MimoState)
  {
    MimoFilter.Valid(s.humidityFilter) && MimoFilter.Valid(s.temperatureFilter) && MimoFilter.Valid(s.pressureFilter)
  }

  /** The learned weights keep their signs and never pass their caps (2.0, 1.0, 1.0). */
  predicate WeightsBounded(w: Weights)
  {
    && 0.0 < w.humidifierAffectsHumidity <= 2.0
    && w.exhaustAffectsTemperature < 0.0
    && 0.0 < w.inletAffectsPressure <= 1.0
  }

  /** Monotone clock: neither stored timestamp lies after `now`. */
  predicate ClockAfter(s: MimoState, now: nat)
  {
    s.lastUpdate <= now && s.lastLearnTime <= now
  }

  function Latest(s: MimoState): nat
  {
    if s.lastUpdate < s.lastLearnTime then s.lastLearnTime else s.lastUpdate
  }

  /** `setupActuators`: every pin LOW, exhaust fans first; the controller state is untouched. */
  function SetupActuators(s: MimoState): (r: Step)
    ensures r.state == s
    ensures r.writes == [PinWrite(ExhaustFan1, false), PinWrite(ExhaustFan2, false),
                         PinWrite(InletFan, false), PinWrite(Humidifier, false)]
  {
    Step(s, AllLow)
  }

  /** Which exhaust fans run at a given speed. */
  datatype Stage = Stage(fan1: bool, fan2: bool)

  /** The staging in `setExhaustFans`: off below 0.1, fan 1 alone below 0.6, both fans above. */
  function ExhaustStage(speed: real): (st: Stage)
    ensures st.fan2 ==> st.fan1
    ensures st.fan1 <==> speed >= 0.1
    ensures st.fan2 <==> speed >= 0.6
  {
    if speed < 0.1 then Stage(false, false)
    else if speed < 0.6 then Stage(true, false)
    else Stage(true, true)
  }

  /** The level the state's mirrors say a pin is at. */
  function Mirror(s: MimoState, p: Pin): bool
  {
    match p
    case ExhaustFan1 => ExhaustStage(s.exhaustFanSpeed).fan1
    case ExhaustFan2 => ExhaustStage(s.exhaustFanSpeed).fan2
    case InletFan => s.inletFanOn
    case Humidifier => s.humidifierOn
  }

  /** Every write in `writes` puts its pin at the level the mirrors of `s` record. */
  predicate WritesMatch(s: MimoState, writes: seq<PinWrite>)
  {
    forall i :: 0 <= i < |writes| ==> writes[i].high == Mirror(s, writes[i].pin)
  }

  /** From the static initialisers, setup leaves every pin where the mirrors say it is. */
  lemma SetupMatchesMirrors()
    ensures WritesMatch(Initial(), SetupActuators(Initial()).writes)
    ensures forall p: Pin :: !Mirror(Initial(), p)
  {
  }

  function Running(st: Stage): nat
  {
    (if st.fan1 then 1 else 0) + (if st.fan2 then 1 else 0)
  }

  /** A higher speed never runs fewer exhaust fans. */
  lemma StageMonotone(a: real, b: real)
    requires a <= b
    ensures Running(ExhaustStage(a)) <= Running(ExhaustStage(b))
  {
  }

  /** `setExhaustFans`: clamp the speed, store it, and drive both fan pins every time. */
  function SetExhaustFans(t: Step, speed: real): (r: Step)
    ensures 0.0 <= r.state.exhaustFanSpeed <= 1.0
    ensures 0.0 <= speed <= 1.0 ==> r.state.exhaustFanSpeed == speed
    ensures speed < 0.0 ==> r.state.exhaustFanSpeed == 0.0
    ensures speed > 1.0 ==> r.state.exhaustFanSpeed == 1.0
    ensures r.state.(exhaustFanSpeed := t.state.exhaustFanSpeed) == t.state
    ensures r.writes == t.writes + [PinWrite(ExhaustFan1, ExhaustStage(r.state.exhaustFanSpeed).fan1),
                                    PinWrite(ExhaustFan2, ExhaustStage(r.state.exhaustFanSpeed).fan2)]
  {
    var clamped := Constrain(speed, 0.0, 1.0);
    var stage := ExhaustStage(clamped);
    Step(t.state.(exhaustFanSpeed := clamped),
         t.writes + [PinWrite(ExhaustFan1, stage.fan1), PinWrite(ExhaustFan2, stage.fan2)])
  }

  /** `setInletFan`: write pin and mirror only on change. */
  function SetInletFan(t: Step, on: bool): (r: Step)
    ensures r.state.inletFanOn == on
    ensures t.state.inletFanOn == on ==> r == t
    ensures r.state.(inletFanOn := t.state.inletFanOn) == t.state
    ensures t.state.inletFanOn != on ==> r.writes == t.writes + [PinWrite(InletFan, on)]
  {
    if on != t.state.inletFanOn then Step(t.state.(inletFanOn := on), t.writes + [PinWrite(InletFan, on)])
    else t
  }

  /** `setHumidifier`: write pin and mirror only on change. */
  function SetHumidifier(t: Step, on: bool): (r: Step)
    ensures r.state.humidifierOn == on
    ensures t.state.humidifierOn == on ==> r == t
    ensures r.state.(humidifierOn := t.state.humidifierOn) == t.state
    ensures t.state.humidifierOn != on ==> r.writes == t.writes + [PinWrite(Humidifier, on)]
  {
    if on != t.state.humidifierOn then Step(t.state.(humidifierOn := on), t.writes + [PinWrite(Humidifier, on)])
    else t
  }

  /** Switching the humidifier or the inlet fan twice to the same level writes once. */
  lemma SetIdempotent(t: Step, on: bool)
    ensures SetHumidifier(SetHumidifier(t, on), on) == SetHumidifier(t, on)
    ensures SetInletFan(SetInletFan(t, on), on) == SetInletFan(t, on)
  {
  }

  /** `calculateEnvironmentalScore`: 1 / (1 + hErr + tErr + 0.5 pErr), errors relative to tolerance (pressure: to 100 hPa). */
  function EnvironmentalScore(humidity: real, temperature: real, pressure: real, cfg: PhaseConfig): (score: real)
    requires cfg.humidityTolerance > 0.0 && cfg.temperatureTolerance > 0.0
    ensures 0.0 < score <= 1.0
    ensures score == 1.0 <==>
              humidity == cfg.targetHumidity && temperature == cfg.targetTemperature && pressure == cfg.targetPressure
  {
    var penalty := Penalty(humidity, temperature, pressure, cfg);
    ReciprocalBounds(penalty);
    1.0 / (1.0 + penalty)
  }

  /** The summed, tolerance-relative error inside the score. */
  function Penalty(humidity: real, temperature: real, pressure: real, cfg: PhaseConfig): (p: real)
    requires cfg.humidityTolerance > 0.0 && cfg.temperatureTolerance > 0.0
    ensures p >= 0.0
    ensures p == 0.0 <==>
              humidity == cfg.targetHumidity && temperature == cfg.targetTemperature && pressure == cfg.targetPressure
  {
    var hError := Abs(humidity - cfg.targetHumidity) / cfg.humidityTolerance;
    var tError := Abs(temperature - cfg.targetTemperature) / cfg.temperatureTolerance;
    var pError := Abs(pressure - cfg.targetPressure) / 100.0;
    hError + tError + 0.5 * pError
  }

  lemma ReciprocalBounds(p: real)
    requires p >= 0.0
    ensures 0.0 < 1.0 / (1.0 + p) <= 1.0
    ensures 1.0 / (1.0 + p) == 1.0 <==> p == 0.0
  {
    if p > 0.0 {
      assert 1.0 / (1.0 + p) * (1.0 + p) == 1.0;
    }
  }

  /** Moving any reading no further from its target never lowers the score. */
  lemma ScoreMonotone(h1: real, t1: real, p1: real, h2: real, t2: real, p2: real, cfg: PhaseConfig)
    requires cfg.humidityTolerance > 0.0 && cfg.temperatureTolerance > 0.0
    requires Abs(h1 - cfg.targetHumidity) <= Abs(h2 - cfg.targetHumidity)
    requires Abs(t1 - cfg.targetTemperature) <= Abs(t2 - cfg.targetTemperature)
    requires Abs(p1 - cfg.targetPressure) <= Abs(p2 - cfg.targetPressure)
    ensures EnvironmentalScore(h1, t1, p1, cfg) >= EnvironmentalScore(h2, t2, p2, cfg)
  {
    var a := Penalty(h1, t1, p1, cfg);
    var b := Penalty(h2, t2, p2, cfg);
    DivideMonotone(Abs(h1 - cfg.targetHumidity), Abs(h2 - cfg.targetHumidity), cfg.humidityTolerance);
    DivideMonotone(Abs(t1 - cfg.targetTemperature), Abs(t2 - cfg.targetTemperature), cfg.temperatureTolerance);
    assert a <= b;
    ReciprocalAntitone(a, b);
  }

  lemma DivideMonotone(x: real, y: real, d: real)
    requires d > 0.0 && x <= y
    ensures x / d <= y / d
  {
    assert y / d - x / d == (y - x) / d;
  }

  lemma ReciprocalAntitone(a: real, b: real)
    requires 0.0 <= a <= b
    ensures 1.0 / (1.0 + a) >= 1.0 / (1.0 + b)
  {
    var x, y := 1.0 / (1.0 + a), 1.0 / (1.0 + b);
    assert x * (1.0 + a) == 1.0;
    assert y * (1.0 + b) == 1.0;
    assert x - y == (b - a) * x * y;
    assert x > 0.0 && y > 0.0;
  }

  /**
   * One "need": zero while the error is within its deadband, otherwise the
   * error over its scale, clamped to [-1, 1].
   */
  function Need(error: real, deadband: real, scale: real): (n: real)
    requires scale > 0.0
    ensures -1.0 <= n <= 1.0
    ensures Abs(error) <= deadband ==> n == 0.0
    ensures deadband >= 0.0 ==> (n == 0.0 <==> Abs(error) <= deadband)
    ensures n > 0.0 ==> error > 0.0
    ensures n < 0.0 ==> error < 0.0
    ensures Abs(error) > deadband && Abs(error) <= scale ==> n == error / scale
    ensures Abs(error) > deadband && error >= scale ==> n == 1.0
    ensures Abs(error) > deadband && error <= -scale ==> n == -1.0
  {
    if Abs(error) > deadband then
      QuotientFacts(error, scale);
      Constrain(error / scale, -1.0, 1.0)
    else
      0.0
  }

  lemma QuotientFacts(error: real, scale: real)
    requires scale > 0.0
    ensures error > 0.0 <==> error / scale > 0.0
    ensures error < 0.0 <==> error / scale < 0.0
    ensures error >= scale <==> error / scale >= 1.0
    ensures error <= -scale <==> error / scale <= -1.0
    ensures error <= scale <==> error / scale <= 1.0
    ensures error >= -scale <==> error / scale >= -1.0
  {
    var q := error / scale;
    assert q * scale == error;
    assert error - scale == (q - 1.0) * scale;
    assert error + scale == (q + 1.0) * scale;
    PositiveFactor(q, scale);
    PositiveFactor(q - 1.0, scale);
    PositiveFactor(q + 1.0, scale);
    assert error >= scale <==> (q - 1.0) * scale >= 0.0;
    assert error <= -scale <==> (q + 1.0) * scale <= 0.0;
    assert error <= scale <==> (q - 1.0) * scale <= 0.0;
    assert error >= -scale <==> (q + 1.0) * scale >= 0.0;
  }

  lemma PositiveFactor(a: real, b: real)
    requires b > 0.0
    ensures a * b > 0.0 <==> a > 0.0
    ensures a * b < 0.0 <==> a < 0.0
    ensures a * b >= 0.0 <==> a >= 0.0
    ensures a * b <= 0.0 <==> a <= 0.0
  {
  }

  datatype Needs = Needs(humidity: real, temperature: real, pressure: real)

  datatype Desires = Desires(humidifier: real, exhaust: real, inlet: real)

  /** The needs computed from the errors stored in the state (lines 147-161). */
  function ComputeNeeds(s: MimoState): (n: Needs)
    ensures -1.0 <= n.humidity <= 1.0 && -1.0 <= n.temperature <= 1.0 && -1.0 <= n.pressure <= 1.0
    ensures n.humidity == Need(s.humidityError, s.humidityDeadband, HumidityScale)
    ensures n.temperature == Need(s.temperatureError, s.temperatureDeadband, TemperatureScale)
    ensures n.pressure == Need(s.pressureError, s.pressureDeadband, PressureScale)
  {
    Needs(Need(s.humidityError, s.humidityDeadband, HumidityScale),
          Need(s.temperatureError, s.temperatureDeadband, TemperatureScale),
          Need(s.pressureError, s.pressureDeadband, PressureScale))
  }

  /** The weighted sums of the needs, one per actuator, before any rule. */
  function Linear(n: Needs, w: Weights): Desires
  {
    Desires(n.humidity * w.humidifierAffectsHumidity,
            n.humidity * w.exhaustAffectsHumidity + n.temperature * w.exhaustAffectsTemperature
              + n.pressure * w.exhaustAffectsPressure,
            n.humidity * w.inletAffectsHumidity + n.temperature * w.inletAffectsTemperature
              + n.pressure * w.inletAffectsPressure)
  }

  /**
   * The desires with the temperature-aware humidifier cut and the
   * inlet/exhaust coordination applied (lines 166-193).
   */
  function ComputeDesires(n: Needs, w: Weights): (d: Desires)
    ensures var lin := Linear(n, w);
            && (n.temperature < -0.3 && w.humidifierAffectsTemperature > 0.0 ==> d.humidifier == lin.humidifier * 0.5)
            && (!(n.temperature < -0.3 && w.humidifierAffectsTemperature > 0.0) ==> d.humidifier == lin.humidifier)
            && (lin.exhaust > 0.5 && n.pressure < -0.2 ==>
                  d.exhaust == lin.exhaust && d.inlet == Max(lin.inlet, 0.3))
            && (!(lin.exhaust > 0.5 && n.pressure < -0.2) && n.pressure > 0.2 ==>
                  d.exhaust == lin.exhaust * 0.7 && d.inlet == Max(lin.inlet, 0.2))
            && (!(lin.exhaust > 0.5 && n.pressure < -0.2) && !(n.pressure > 0.2) ==>
                  d.exhaust == lin.exhaust && d.inlet == lin.inlet)
    ensures d.inlet >= Linear(n, w).inlet
  {
    var lin := Linear(n, w);
    var humidifier := if n.temperature < -0.3 && w.humidifierAffectsTemperature > 0.0
                      then lin.humidifier * 0.5 else lin.humidifier;
    if lin.exhaust > 0.5 && n.pressure < -0.2 then
      Desires(humidifier, lin.exhaust, Max(lin.inlet, 0.3))
    else if n.pressure > 0.2 then
      Desires(humidifier, lin.exhaust * 0.7, Max(lin.inlet, 0.2))
    else
      Desires(humidifier, lin.exhaust, lin.inlet)
  }

  /** The two emergency clamps on the filtered pressure and temperature (lines 196-204). */
  function Override(d: Desires, pressure: real, temperature: real, cfg: PhaseConfig): (r: Desires)
    ensures pressure > cfg.targetPressure + 200.0 ==> r.exhaust == 1.0 && r.inlet == 0.0
    ensures temperature > cfg.targetTemperature + 3.0 ==>
              r.exhaust >= 0.7 && r.humidifier <= 0.0 && r.humidifier <= d.humidifier
    ensures !(temperature > cfg.targetTemperature + 3.0) ==> r.humidifier == d.humidifier
    ensures !(pressure > cfg.targetPressure + 200.0) ==> r.inlet == d.inlet
    ensures !(pressure > cfg.targetPressure + 200.0) && !(temperature > cfg.targetTemperature + 3.0) ==> r == d
    // the values each clamp leaves
    ensures pressure > cfg.targetPressure + 200.0 && !(temperature > cfg.targetTemperature + 3.0) ==>
              r == d.(exhaust := 1.0, inlet := 0.0)
    ensures pressure > cfg.targetPressure + 200.0 && temperature > cfg.targetTemperature + 3.0 ==>
              r == d.(exhaust := 1.0, inlet := 0.0, humidifier := Min(d.humidifier, 0.0))
    ensures !(pressure > cfg.targetPressure + 200.0) && temperature > cfg.targetTemperature + 3.0 ==>
              r == d.(exhaust := Max(d.exhaust, 0.7), humidifier := Min(d.humidifier, 0.0))
  {
    var d1 := if pressure > cfg.targetPressure + 200.0 then d.(exhaust := 1.0, inlet := 0.0) else d;
    if temperature > cfg.targetTemperature + 3.0 then
      d1.(exhaust := Max(d1.exhaust, 0.7), humidifier := Min(d1.humidifier, 0.0))
    else
      d1
  }

  /** Apply the desires: humidifier above 0.3, exhaust at the clamped desire, inlet above 0.2 (lines 207-209). */
  function Apply(s: MimoState, d: Desires): (r: Step)
    ensures r.state.humidifierOn <==> d.humidifier > 0.3
    ensures r.state.inletFanOn <==> d.inlet > 0.2
    ensures r.state.exhaustFanSpeed == Constrain(d.exhaust, 0.0, 1.0)
    ensures r.state.(humidifierOn := s.humidifierOn, exhaustFanSpeed := s.exhaustFanSpeed, inletFanOn := s.inletFanOn) == s
    ensures r.writes ==
              (if s.humidifierOn == r.state.humidifierOn then [] else [PinWrite(Humidifier, r.state.humidifierOn)])
              + [PinWrite(ExhaustFan1, ExhaustStage(r.state.exhaustFanSpeed).fan1),
                 PinWrite(ExhaustFan2, ExhaustStage(r.state.exhaustFanSpeed).fan2)]
              + (if s.inletFanOn == r.state.inletFanOn then [] else [PinWrite(InletFan, r.state.inletFanOn)])
    ensures WritesMatch(r.state, r.writes)
  {
    var t := SetHumidifier(Step(s, []), d.humidifier > 0.3);
    var t' := SetExhaustFans(t, Constrain(d.exhaust, 0.0, 1.0));
    SetInletFan(t', d.inlet > 0.2)
  }

  /**
   * The once-a-minute weight nudge (lines 218-250): on a worse score shrink
   * the weights of the actuators that ran against their variable's error, on
   * a better score grow the weights of the running actuators up to their
   * caps, on an equal score change nothing; always remember the score.
   */
  function Learn(s: MimoState, currentScore: real, now: nat): (r: MimoState)
    ensures r.lastScore == currentScore && r.lastLearnTime == now
    ensures r.(weights := s.weights, lastScore := s.lastScore, lastLearnTime := s.lastLearnTime) == s
    // only the three learnable weights ever move
    ensures r.weights.(humidifierAffectsHumidity := s.weights.humidifierAffectsHumidity,
                       exhaustAffectsTemperature := s.weights.exhaustAffectsTemperature,
                       inletAffectsPressure := s.weights.inletAffectsPressure) == s.weights
    ensures currentScore == s.lastScore ==> r.weights == s.weights
    ensures currentScore < s.lastScore && !(s.lastScore > 0.0) ==> r.weights == s.weights
    ensures currentScore < s.lastScore && s.lastScore > 0.0 ==>
              && r.weights.humidifierAffectsHumidity
                 == (if s.humidifierOn && s.humidityError > 0.0 then 0.95 else 1.0) * s.weights.humidifierAffectsHumidity
              && r.weights.exhaustAffectsTemperature
                 == (if s.exhaustFanSpeed > 0.5 && s.temperatureError > 0.0 then 0.95 else 1.0) * s.weights.exhaustAffectsTemperature
              && r.weights.inletAffectsPressure
                 == (if s.inletFanOn && s.pressureError < 0.0 then 0.95 else 1.0) * s.weights.inletAffectsPressure
    ensures currentScore > s.lastScore ==>
              && r.weights.humidifierAffectsHumidity
                 == (if s.humidifierOn then Min(s.weights.humidifierAffectsHumidity * 1.02, 2.0)
                     else s.weights.humidifierAffectsHumidity)
              && r.weights.exhaustAffectsTemperature
                 == (if s.exhaustFanSpeed > 0.5 then Min(s.weights.exhaustAffectsTemperature * 1.02, 1.0)
                     else s.weights.exhaustAffectsTemperature)
              && r.weights.inletAffectsPressure
                 == (if s.inletFanOn then Min(s.weights.inletAffectsPressure * 1.02, 1.0)
                     else s.weights.inletAffectsPressure)
    ensures WeightsBounded(s.weights) ==> WeightsBounded(r.weights)
  {
    var w := s.weights;
    var w' :=
      if currentScore < s.lastScore && s.lastScore > 0.0 then
        w.(humidifierAffectsHumidity :=
             if s.humidifierOn && s.humidityError > 0.0 then w.humidifierAffectsHumidity * 0.95
             else w.humidifierAffectsHumidity,
           exhaustAffectsTemperature :=
             if s.exhaustFanSpeed > 0.5 && s.temperatureError > 0.0 then w.exhaustAffectsTemperature * 0.95
             else w.exhaustAffectsTemperature,
           inletAffectsPressure :=
             if s.inletFanOn && s.pressureError < 0.0 then w.inletAffectsPressure * 0.95
             else w.inletAffectsPressure)
      else if currentScore > s.lastScore then
        w.(humidifierAffectsHumidity :=
             if s.humidifierOn then Min(w.humidifierAffectsHumidity * 1.02, 2.0) else w.humidifierAffectsHumidity,
           exhaustAffectsTemperature :=
             if s.exhaustFanSpeed > 0.5 then Min(w.exhaustAffectsTemperature * 1.02, 1.0) else w.exhaustAffectsTemperature,
           inletAffectsPressure :=
             if s.inletFanOn then Min(w.inletAffectsPressure * 1.02, 1.0) else w.inletAffectsPressure)
      else
        w;
    s.(weights := w', lastScore := currentScore, lastLearnTime := now)
  }

  /**
   * The growth cap on `exhaust_affects_temperature` is `min(w * 1.02, 1.0)`,
   * but the weight is negative: a better-scoring minute with the exhaust
   * above half speed moves it further from zero and the cap never binds.
   */
  lemma ExhaustWeightGrowsUncapped(s: MimoState, currentScore: real, now: nat)
    requires s.weights.exhaustAffectsTemperature < 0.0
    requires currentScore > s.lastScore && s.exhaustFanSpeed > 0.5
    ensures Learn(s, currentScore, now).weights.exhaustAffectsTemperature == s.weights.exhaustAffectsTemperature * 1.02
    ensures Learn(s, currentScore, now).weights.exhaustAffectsTemperature < s.weights.exhaustAffectsTemperature
  {
  }

  /** The filtered readings of an accepted tick and the filters after it. */
  datatype Filtered = Filtered(state: MimoState, reading: Reading)

  /** Feed the raw readings through the three moving-average filters and store the errors (lines 135-142). */
  function FilterAndMeasure(s: MimoState, raw: Reading, cfg: PhaseConfig): (r: Filtered)
    requires Valid(s)
    ensures Valid(r.state)
    ensures r.reading.humidity == MimoFilter.Update(s.humidityFilter, raw.humidity).value
    ensures r.reading.temperature == MimoFilter.Update(s.temperatureFilter, raw.temperature).value
    ensures r.reading.pressure == MimoFilter.Update(s.pressureFilter, raw.pressure).value
    ensures r.state.humidityError == cfg.targetHumidity - r.reading.humidity
    ensures r.state.temperatureError == cfg.targetTemperature - r.reading.temperature
    ensures r.state.pressureError == cfg.targetPressure - r.reading.pressure
    ensures r.state.(humidityFilter := s.humidityFilter, temperatureFilter := s.temperatureFilter,
                     pressureFilter := s.pressureFilter, humidityError := s.humidityError,
                     temperatureError := s.temperatureError, pressureError := s.pressureError) == s
  {
    var h := MimoFilter.Update(s.humidityFilter, raw.humidity);
    var t := MimoFilter.Update(s.temperatureFilter, raw.temperature);
    var p := MimoFilter.Update(s.pressureFilter, raw.pressure);
    Filtered(
      s.(humidityFilter := h.filter, temperatureFilter := t.filter, pressureFilter := p.filter,
         humidityError := cfg.targetHumidity - h.value,
         temperatureError := cfg.targetTemperature - t.value,
         pressureError := cfg.targetPressure - p.value),
      Reading(h.value, t.value, p.value))
  }

  /** The desires an accepted tick acts on, from the stored errors and the filtered readings. */
  function Decide(s: MimoState, reading: Reading, cfg: PhaseConfig): Desires
  {
    Override(ComputeDesires(ComputeNeeds(s), s.weights), reading.pressure, reading.temperature, cfg)
  }

  /**
   * With a cooling exhaust (negative temperature weight), a hotter chamber
   * (a lower temperature need, all else equal) never gets less exhaust, through
   * the coordination rules and both emergency clamps.
   */
  lemma {:induction false} HotterNeverLessExhaust(n: Needs, hotter: real, w: Weights, pressure: real,
                                                  temperature: real, cfg: PhaseConfig)
    requires w.exhaustAffectsTemperature < 0.0 && hotter <= n.temperature
    ensures Override(ComputeDesires(n.(temperature := hotter), w), pressure, temperature, cfg).exhaust
            >= Override(ComputeDesires(n, w), pressure, temperature, cfg).exhaust
  {
    var cool, hot := Linear(n, w), Linear(n.(temperature := hotter), w);
    PositiveFactor(n.temperature - hotter, -w.exhaustAffectsTemperature);
    assert hot.exhaust - cool.exhaust == (n.temperature - hotter) * -w.exhaustAffectsTemperature;
    assert hot.exhaust >= cool.exhaust;
  }

  /** `updateActuators` of the MIMO build: one control tick every `updateInterval` ms. */
  function UpdateActuators(s: MimoState, cfg: PhaseConfig, raw: Reading, now: nat): (r: Step)
    requires Valid(s) && ClockAfter(s, now)
    requires cfg.humidityTolerance > 0.0 && cfg.temperatureTolerance > 0.0
    ensures Valid(r.state) && ClockAfter(r.state, now)
    // rate limit
    ensures now - s.lastUpdate < s.updateInterval ==> r == Step(s, [])
    ensures now - s.lastUpdate >= s.updateInterval ==>
              var f := FilterAndMeasure(s.(lastUpdate := now), raw, cfg);
              var d := Decide(f.state, f.reading, cfg);
              && r.state.lastUpdate == now
              && r.state.humidifierOn == (d.humidifier > 0.3)
              && r.state.inletFanOn == (d.inlet > 0.2)
              && r.state.exhaustFanSpeed == Constrain(d.exhaust, 0.0, 1.0)
              // emergencies
              && (f.reading.pressure > cfg.targetPressure + 200.0 ==>
                    r.state.exhaustFanSpeed == 1.0 && !r.state.inletFanOn)
              && (f.reading.temperature > cfg.targetTemperature + 3.0 ==>
                    r.state.exhaustFanSpeed >= 0.7 && !r.state.humidifierOn
                    && ExhaustStage(r.state.exhaustFanSpeed) == Stage(true, true))
              // learning
              && (now - s.lastLearnTime > LearnInterval ==>
                    r.state.lastLearnTime == now
                    && r.state.lastScore
                       == EnvironmentalScore(f.reading.humidity, f.reading.temperature, f.reading.pressure, cfg))
              && (!(now - s.lastLearnTime > LearnInterval) ==>
                    r.state.lastLearnTime == s.lastLearnTime && r.state.lastScore == s.lastScore
                    && r.state.weights == s.weights)
    // an accepted tick performs exactly the writes of applying its desires, then maybe learns
    ensures now - s.lastUpdate >= s.updateInterval ==>
              var f := FilterAndMeasure(s.(lastUpdate := now), raw, cfg);
              var a := Apply(f.state, Decide(f.state, f.reading, cfg));
              && r.writes == a.writes
              && WritesMatch(r.state, r.writes)
              && (now - s.lastLearnTime > LearnInterval ==>
                    r.state == Learn(a.state, EnvironmentalScore(f.reading.humidity, f.reading.temperature,
                                                                 f.reading.pressure, cfg), now))
              && (!(now - s.lastLearnTime > LearnInterval) ==> r.state == a.state)
    ensures WeightsBounded(s.weights) ==> WeightsBounded(r.state.weights)
    ensures r.state.updateInterval == s.updateInterval
  {
    if now - s.lastUpdate < s.updateInterval then
      Step(s, [])
    else
      var f := FilterAndMeasure(s.(lastUpdate := now), raw, cfg);
      var d := Decide(f.state, f.reading, cfg);
      var applied := Apply(f.state, d);
      if now - s.lastLearnTime > LearnInterval then
        var score := EnvironmentalScore(f.reading.humidity, f.reading.temperature, f.reading.pressure, cfg);
        Step(Learn(applied.state, score, now), applied.writes)
      else
        applied
  }

  /** The state after `updateActuators` has been called once per timed reading. */
  function Run(s: MimoState, cfg: PhaseConfig, samples: seq<Timed<Reading>>): MimoState
    requires Valid(s) && Monotone(Latest(s), samples)
    requires cfg.humidityTolerance > 0.0 && cfg.temperatureTolerance > 0.0
    decreases |samples|
  {
    if |samples| == 0 then s
    else
      var r := UpdateActuators(s, cfg, samples[0].value, samples[0].now).state;
      MonotoneFromEarlier(Latest(r), samples[0].now, samples[1..]);
      Run(r, cfg, samples[1..])
  }

  /** However long the controller runs, the learned weights keep their signs and caps. */
  lemma {:induction false} RunKeepsWeightsBounded(s: MimoState, cfg: PhaseConfig, samples: seq<Timed<Reading>>)
    requires Valid(s) && Monotone(Latest(s), samples)
    requires cfg.humidityTolerance > 0.0 && cfg.temperatureTolerance > 0.0
    requires WeightsBounded(s.weights)
    ensures WeightsBounded(Run(s, cfg, samples).weights)
    decreases |samples|
  {
    if |samples| > 0 {
      var r := UpdateActuators(s, cfg, samples[0].value, samples[0].now).state;
      MonotoneFromEarlier(Latest(r), samples[0].now, samples[1..]);
      RunKeepsWeightsBounded(r, cfg, samples[1..]);
    }
  }

  lemma InitialBounded()
    ensures Valid(Initial()) && WeightsBounded(Initial().weights)
  {
  }
}

/** What a run looks like at any moment (simulator/src/scenario.cpp, simulation.cpp, drivetrain.cpp), in
    numbers: pedal, load, throttle, pressure and mixture as functions of the simulated time. */
module ScriptedDrive {
  import opened Prelude
  import opened Arithmetic
  import opened VehicleModel
  import opened Drivetrain
  import opened VehicleDynamics
  import opened VehicleSimulation
  import Cal = Calibration

  /** The part of a state that the script alone decides. */
  datatype Demand = Demand(accelerator: real, requestedLoad: real, load: real, throttle: real, pressureFraction: real)

  predicate Meets(s: VehicleState, d: Demand, e: Environment) {
    && s.accelerator == d.accelerator && s.requestedLoad == d.requestedLoad
    && s.load == d.load && s.throttle == d.throttle
    && s.ambientPressure == e.pressure && s.manifoldPressure == e.pressure * d.pressureFraction
    && s.requestedBoost == 0.0 && s.lambda_ == 1.0 && s.ignition == 8.0 && s.timingCorrection == 0.0
  }

  const IDLING := Demand(0.0, 0.10, 0.18, 0.06, 0.40)

  /** The demand of CITY at the second `t`: two departures, each followed by a cruise, a coasting phase and
      a stop. */
  function CityDemand(t: real): Demand {
    if 5.0 <= t < 20.0 then Demand(0.45, 0.50, 0.58, 0.33, 2.0 / 3.0)
    else if 20.0 <= t < 32.0 then Demand(0.30, 0.35, 0.43, 0.24, 17.0 / 30.0)
    else if 55.0 <= t < 75.0 then Demand(0.55, 0.60, 0.68, 0.39, 11.0 / 15.0)
    else if 75.0 <= t < 88.0 then Demand(0.36, 0.40, 0.48, 0.276, 0.60)
    else IDLING
  }

  predicate CityStops(t: real) {
    t < 5.0 || 45.0 <= t < 55.0 || 100.0 <= t
  }

  /** How much of the cold-start increase is left at the second `t`: all of it when the engine is started
      at 1 s, nothing from 21 s on. */
  function ColdShare(t: real): real {
    if t < 21.0 then (21.0 - t) / 20.0 else 0.0
  }

  function ColdDemand(t: real): Demand {
    var f := ColdShare(t);
    Demand(0.0, 0.10 + 0.30 * f, 0.18 + 0.30 * f, 0.06 + 0.04 * f, 0.40)
  }

  function TimeOf(k: nat, step: nat): real {
    (k * step) as real / 1_000_000.0
  }

  /** IDLE and WARMUP never leave the idling demand, from the first state on. */
  lemma {:induction false} IdlingIsExact(exp: real -> real, c: Config, k: nat)
    requires ValidConfig(c) && (c.scenario.Idle? || c.scenario.Warmup?)
    ensures var s := StateAt(exp, c, k);
            Meets(s, IDLING, c.environment) && s.running && s.speed == 0.0 && s.gear == 0
  {
    hide ValidCalibration, Evolve, Seconds, ActiveFaultsAt;
    if k > 0 {
      IdlingIsExact(exp, c, k - 1);
      IdlingTick(exp, StateAt(exp, c, k - 1), c, k * c.step, ActiveFaultsAt(c.faults, k * c.step));
    }
  }

  lemma {:induction false} IdlingTick(exp: real -> real, s: VehicleState, c: Config, t: nat, f: ActiveFaults)
    requires ValidConfig(c) && (c.scenario.Idle? || c.scenario.Warmup?) && s.running
    ensures var r := Evolve(exp, s, InputsFor(c.scenario, t), c.scenario, c.environment, c.profile, c.calibration, f,
                            Seconds(c.step));
            Meets(r, IDLING, c.environment) && r.running && r.speed == 0.0 && r.gear == 0
  {
    hide Approach, ValidCalibration, Seconds;
  }

  /** A run starts as its initial conditions say; from then on every state is stamped with its tick, and the
      last one is completed. */
  lemma {:induction false} StateIsStamped(exp: real -> real, c: Config, k: nat)
    requires ValidConfig(c)
    ensures var s, i := StateAt(exp, c, k), c.initial;
            && s.timestamp == k * c.step
            && (s.runState == if k > 0 && k * c.step == c.duration then RunState.Completed else RunState.Running)
            && (k == 0 ==>
                  && s.running == i.running && s.rpm == i.rpm && s.speed == i.speed && s.gear == i.gear
                  && s.coolant == i.coolant && s.oil == i.oil && s.intakeAir == i.intakeAir && s.battery == i.battery)
  {
    hide ValidCalibration, Evolve, Seconds, ActiveFaultsAt, InputsFor;
  }

  lemma {:induction false} CityScript(t: nat)
    ensures var i, d := CityInputs(t), CityDemand(t as real / 1_000_000.0);
            && i.accelerator == d.accelerator && i.requestedLoad == d.requestedLoad
            && (i.stationary <==> CityStops(t as real / 1_000_000.0))
  {
  }

  lemma {:induction false} CityLoads(t: nat)
    ensures var d := CityDemand(t as real / 1_000_000.0);
            && Clamp(CITY_LOAD_OFFSET + d.requestedLoad, 0.0, 1.0) == d.load
            && Clamp(IDLE_THROTTLE + CITY_THROTTLE_PER_ACCELERATOR * d.accelerator, 0.0, 1.0) == d.throttle
            && CityManifoldFraction(d.requestedLoad) == d.pressureFraction
  {
  }

  lemma {:induction false} CityMeets(exp: real -> real, s: VehicleState, c: Config, t: nat, f: ActiveFaults)
    requires ValidConfig(c) && c.scenario.City? && s.running
    ensures Meets(Evolve(exp, s, InputsFor(City, t), City, c.environment, c.profile, c.calibration, f, Seconds(c.step)),
                  CityDemand(t as real / 1_000_000.0), c.environment)
  {
    hide Approach, ValidCalibration, Seconds, CityInputs, CityDemand, EvolveCity, CityManifoldFraction, Clamp;
    CityScript(t);
    CityLoads(t);
  }

  /** CITY follows its timetable, whatever the step, profile, calibration and faults. */
  lemma {:induction false} CityIsExact(exp: real -> real, c: Config, k: nat)
    requires ValidConfig(c) && c.scenario.City?
    ensures Meets(StateAt(exp, c, k), CityDemand(TimeOf(k, c.step)), c.environment)
  {
    hide ValidCalibration, Evolve, Seconds, CityInputs, ActiveFaultsAt;
    if k > 0 {
      CitySpeedIsScripted(exp, c, k - 1);
      CityMeets(exp, StateAt(exp, c, k - 1), c, k * c.step, ActiveFaultsAt(c.faults, k * c.step));
    } else {
      CityStarts(c);
    }
  }

  lemma {:induction false} CityStarts(c: Config)
    requires ValidConfig(c) && c.scenario.City?
    ensures Meets(InitialState(c), CityDemand(TimeOf(0, c.step)), c.environment)
  {
    hide ValidCalibration;
    assert 0 * c.step == 0;
  }

  lemma {:induction false} ColdScript(t: nat)
    requires t >= 1_000_000
    ensures var i, f := ColdStartInputs(t), ColdShare(t as real / 1_000_000.0);
            && i.accelerator == 0.0 && i.requestedLoad == 0.10 + 0.30 * f && i.stationary && i.startRequested
            && ColdStartFraction(i.requestedLoad) == f
  {
  }

  lemma {:induction false} ColdTick(exp: real -> real, s: VehicleState, c: Config, t: nat, f: ActiveFaults)
    requires ValidConfig(c) && c.scenario.ColdStart? && t >= 1_000_000
    ensures var r := Evolve(exp, s, InputsFor(ColdStart, t), ColdStart, c.environment, c.profile, c.calibration, f,
                            Seconds(c.step));
            var share := ColdShare(t as real / 1_000_000.0);
            && Meets(r, ColdDemand(t as real / 1_000_000.0), c.environment)
            && r.running && r.speed == 0.0 && r.gear == 0
            && r.rpm == Approach(exp, s.rpm, 750.0 + 450.0 * share, if share > 0.0 then 0.75 else 1.5, Seconds(c.step))
  {
    hide Approach, ValidCalibration, Seconds, ColdStartInputs, ColdStartFraction, ColdShare;
    ColdScript(t);
  }

  lemma {:induction false} ColdWait(exp: real -> real, s: VehicleState, c: Config, t: nat, f: ActiveFaults)
    requires ValidConfig(c) && c.scenario.ColdStart? && t < 1_000_000 && !s.running
    ensures var r := Evolve(exp, s, InputsFor(ColdStart, t), ColdStart, c.environment, c.profile, c.calibration, f,
                            Seconds(c.step));
            && Meets(r, Demand(0.0, 0.0, 0.0, 0.0, 1.0), c.environment)
            && !r.running && r.speed == s.speed && r.gear == s.gear && r.rpm == 0.0
  {
    hide Approach, ValidCalibration, Seconds;
  }

  /** A cold engine stands still for a second; started, its load, throttle and target speed are raised at
      first and come down in a line over 20 seconds. */
  lemma {:induction false} ColdIsExact(exp: real -> real, c: Config, k: nat)
    requires ValidConfig(c) && c.scenario.ColdStart?
    ensures var s, t := StateAt(exp, c, k), TimeOf(k, c.step);
            && s.speed == 0.0 && s.gear == 0 && (s.running <==> t >= 1.0)
            && Meets(s, if t < 1.0 then Demand(0.0, 0.0, 0.0, 0.0, 1.0) else ColdDemand(t), c.environment)
            && (t < 1.0 ==> s.rpm == 0.0)
            && (t >= 1.0 && k > 0 ==>
                  var f := ColdShare(t);
                  s.rpm == Approach(exp, StateAt(exp, c, k - 1).rpm, 750.0 + 450.0 * f, if f > 0.0 then 0.75 else 1.5,
                                    Seconds(c.step)))
  {
    hide ValidCalibration, Evolve, Seconds, ColdStartInputs, ActiveFaultsAt, Approach, ColdShare;
    if k > 0 {
      ColdIsExact(exp, c, k - 1);
      var s, t := StateAt(exp, c, k - 1), k * c.step;
      MulKeepsOrder(k - 1, k, c.step);
      if t >= 1_000_000 {
        ColdTick(exp, s, c, t, ActiveFaultsAt(c.faults, t));
      } else {
        ColdWait(exp, s, c, t, ActiveFaultsAt(c.faults, t));
      }
    } else {
      ColdStarts(c);
    }
  }

  lemma {:induction false} ColdStarts(c: Config)
    requires ValidConfig(c) && c.scenario.ColdStart?
    ensures var s := InitialState(c);
            && Meets(s, Demand(0.0, 0.0, 0.0, 0.0, 1.0), c.environment)
            && !s.running && s.speed == 0.0 && s.gear == 0 && s.rpm == 0.0
  {
    hide ValidCalibration;
  }

  // ---- the drivetrain ----

  /** The engine speed of a moving vehicle is its speed times the factor of the gear, kept between 750 rpm
      and the redline; at rest or in neutral it is 750 rpm. */
  lemma {:induction false} EngineSpeedIsExact(speed: real, gear: int, p: Profile)
    requires p.redline >= 750.0 && 0 <= gear <= 6
    ensures var rpm := EngineSpeedForGear(speed, gear, p);
            var coupled := speed * [0.0, 310.0, 200.0, 145.0, 110.0, 90.0, 75.0][gear];
            && (speed <= 0.0 || gear == 0 ==> rpm == 750.0)
            && (speed > 0.0 && gear > 0 ==>
                  && (750.0 <= coupled <= p.redline ==> rpm == coupled)
                  && (coupled < 750.0 ==> rpm == 750.0) && (coupled > p.redline ==> rpm == p.redline))
  {
  }

  /** One second's worth of CITY driving: told to stop, the vehicle loses 1.5 m/s and stands still at 0.05
      m/s or less; otherwise it gains twice the pedal and, when moving, loses 0.45 and a fortieth of its
      speed. */
  lemma {:induction false} CitySpeedIsExact(v: real, pedal: real, stationary: bool, dt: real)
    requires v >= 0.0 && dt >= 0.0
    ensures var after := CitySpeed(v, pedal, stationary, dt);
            && (stationary ==> after == if v - 1.5 * dt <= 0.05 then 0.0 else v - 1.5 * dt)
            && (!stationary && v > 0.0 ==> after == Max(0.0, v + (2.0 * pedal - 0.45 - v / 40.0) * dt))
            && (!stationary && v == 0.0 ==> after == Max(0.0, 2.0 * pedal * dt))
  {
    if stationary && v > 0.0 {
      assert CityAcceleration(v, pedal, true) * dt == -(1.5 * dt);
    } else if stationary {
      assert CityAcceleration(v, pedal, true) * dt == 0.0;
      assert 1.5 * dt >= 0.0;
    }
  }

  /** The speed, gear and engine speed of every CITY state follow from the state before it. */
  lemma {:induction false} CityDrivesExactly(exp: real -> real, c: Config, k: nat)
    requires ValidConfig(c) && c.scenario.City? && k > 0
    ensures var before, s, t := StateAt(exp, c, k - 1), StateAt(exp, c, k), TimeOf(k, c.step);
            && s.speed == CitySpeed(before.speed, CityDemand(t).accelerator, CityStops(t), Seconds(c.step))
            && s.gear == CityGear(s.speed, CityStops(t)) && s.rpm == EngineSpeedForGear(s.speed, s.gear, c.profile)
  {
    hide ValidCalibration, StateAt, CitySpeed, CityGear, EngineSpeedForGear, CityInputs, CityDemand, CityStops;
    CitySpeedIsScripted(exp, c, k - 1);
    CityTick(exp, c, k);
    CityScript(k * c.step);
  }

  // ---- the full-throttle pull ----

  /** What a pull demands at the second `t`: a light pedal for two seconds, then everything. */
  function PullPedal(t: real): real {
    if t < 2.0 then 0.12 else 1.0
  }

  function PullRequest(t: real): real {
    if t < 2.0 then 0.18 else 1.0
  }

  lemma {:induction false} PullScript(t: nat)
    ensures var i, u := InputsFor(WideOpenThrottlePull, t), t as real / 1_000_000.0;
            i == Inputs(PullPedal(u), PullRequest(u), false, false)
  {
  }

  lemma {:induction false} PullLoad(c: CalibrationProfile, t: nat)
    requires ValidCalibration(c)
    ensures var i, u := InputsFor(WideOpenThrottlePull, t), t as real / 1_000_000.0;
            && WotLoad(c, i) == Min(1.0, 0.08 + Max(Cal.Lookup1D(c.throttle, PullPedal(u)), PullRequest(u)))
            && (u >= 2.0 ==> WotLoad(c, i) == 1.0)
            && forall rpm: real :: BoostTarget(c, rpm, i) == if u < 2.0 then 0.0 else Cal.Lookup2D(c.boost, rpm, 1.0)
  {
    hide Cal.Lookup1D, Cal.Lookup2D, ValidCalibration;
  }

  /** Boost is asked for from a fifth of the pedal on, at loads above 0.3. */
  lemma {:induction false} BoostIsExact(c: CalibrationProfile, rpm: real, i: Inputs)
    requires ValidCalibration(c)
    ensures var load := WotLoad(c, i);
            && (i.accelerator < 0.20 || load <= 0.30 ==> BoostTarget(c, rpm, i) == 0.0)
            && (i.accelerator >= 0.20 && load > 0.30 ==> BoostTarget(c, rpm, i) == Cal.Lookup2D(c.boost, rpm, load))
  {
    hide Cal.Lookup2D, WotLoad, ValidCalibration;
  }

  /** Pedal, load, throttle and boost of every pull state after the first. */
  lemma {:induction false} PullIsExact(exp: real -> real, c: Config, k: nat)
    requires ValidConfig(c) && c.scenario.WideOpenThrottlePull? && k > 0
    ensures var before, s, t, dt := StateAt(exp, c, k - 1), StateAt(exp, c, k), TimeOf(k, c.step), Seconds(c.step);
            var demand := Cal.Lookup1D(c.calibration.throttle, PullPedal(t));
            && s.accelerator == PullPedal(t) && s.requestedLoad == PullRequest(t)
            && s.load == Min(1.0, 0.08 + Max(demand, PullRequest(t)))
            && s.throttle == Clamp(0.06 + 0.94 * demand, 0.0, 1.0)
            && s.requestedBoost == (if t < 2.0 then 0.0 else Cal.Lookup2D(c.calibration.boost, before.rpm, 1.0))
            && s.ambientPressure == c.environment.pressure
            && s.manifoldPressure ==
               Max(0.0, c.environment.pressure + Approach(exp, before.manifoldPressure - c.environment.pressure,
                                                          s.requestedBoost, c.calibration.boostTau, dt))
            && s.lambda_ == Approach(exp, before.lambda_, Cal.Lookup1D(c.calibration.lambdaTarget, s.load), 0.25, dt)
            && s.ignition ==
               Approach(exp, before.ignition, Cal.Lookup2D(c.calibration.ignition, s.rpm, s.load), 0.20, dt)
            && s.timingCorrection == 0.0 && s.running
  {
    hide Cal.Lookup1D, Cal.Lookup2D, ValidCalibration, Approach, WotLoad, BoostTarget, WotOutput, EvolveWot, InputsFor,
      ActiveFaultsAt, Seconds, PullPedal, PullRequest, Clamp, Max, Min;
    PullScript(k * c.step);
    PullLoad(c.calibration, k * c.step);
    PullAmbient(exp, c, k - 1);
  }

  /** The throttle's demand times the multiplier, raised by 35 percent for boost as high as the ambient
      pressure. */
  function PullOutput(c: CalibrationProfile, pedal: real, pressure: real, boost: real): real
    requires ValidCalibration(c)
  {
    Cal.Lookup1D(c.throttle, pedal) * c.outputMultiplier * (1.0 + 0.35 * Max(0.0, boost) / Max(1.0, pressure))
  }

  /** The speed after `dt` seconds: three times the output, up to 2, against the resistance of the road. */
  function PullSpeed(v: real, output: real, dt: real): real {
    Max(0.0, v + (3.0 * Clamp(output, 0.0, 2.0) - 0.45 - v / 40.0) * dt)
  }

  /** Its motion: in third gear throughout. */
  lemma {:induction false} PullDrivesExactly(exp: real -> real, c: Config, k: nat)
    requires ValidConfig(c) && c.scenario.WideOpenThrottlePull? && k > 0
    ensures var before, s, t, dt := StateAt(exp, c, k - 1), StateAt(exp, c, k), TimeOf(k, c.step), Seconds(c.step);
            var boost := Approach(exp, before.manifoldPressure - c.environment.pressure, s.requestedBoost,
                                  c.calibration.boostTau, dt);
            var output := PullOutput(c.calibration, PullPedal(t), c.environment.pressure, boost);
            && s.speed == PullSpeed(before.speed, output, dt)
            && s.gear == 3 && s.rpm == EngineSpeedForGear(s.speed, 3, c.profile)
  {
    hide Cal.Lookup1D, Cal.Lookup2D, Cal.Valid1D, Cal.Valid2D, Approach, InputsFor, StateAt, Seconds, PullPedal,
      PullRequest, Clamp, Max, EvolveWot, WotOutput, PullOutput, PullSpeed;
    var before, i, e := StateAt(exp, c, k - 1), InputsFor(c.scenario, k * c.step), c.environment;
    var s, dt := StateAt(exp, c, k), Seconds(c.step);
    PullScript(k * c.step);
    PullAmbient(exp, c, k - 1);
    PullStep(exp, c, k);
    var boost := Approach(exp, before.manifoldPressure - e.pressure, s.requestedBoost, c.calibration.boostTau, dt);
    OutputIsExact(c.calibration, i, e, boost);
    PullMotion(before.speed, WotOutput(c.calibration, i, e, boost), dt, c.profile);
  }

  lemma {:induction false} PullStep(exp: real -> real, c: Config, k: nat)
    requires ValidConfig(c) && c.scenario.WideOpenThrottlePull? && k > 0
    ensures var before, s, dt := StateAt(exp, c, k - 1), StateAt(exp, c, k), Seconds(c.step);
            var boost := Approach(exp, before.manifoldPressure - before.ambientPressure, s.requestedBoost,
                                  c.calibration.boostTau, dt);
            var output := WotOutput(c.calibration, InputsFor(c.scenario, k * c.step), c.environment, boost);
            EvolveWot(before.speed, output, dt, c.profile) == DrivetrainState(s.speed, s.gear, s.rpm)
  {
    hide Cal.Lookup1D, Cal.Lookup2D, ValidCalibration, Approach, WotLoad, BoostTarget, InputsFor, ActiveFaultsAt,
      Seconds, Clamp, Max, EvolveWot, WotOutput;
    PullAmbient(exp, c, k - 1);
  }

  lemma {:induction false} PullAmbient(exp: real -> real, c: Config, k: nat)
    requires ValidConfig(c) && c.scenario.WideOpenThrottlePull?
    ensures StateAt(exp, c, k).ambientPressure == c.environment.pressure && StateAt(exp, c, k).running
  {
    hide ValidCalibration, Approach, InputsFor, ActiveFaultsAt, Seconds, EvolveWot, WotLoad, WotOutput, BoostTarget;
    if k > 0 {
      PullAmbient(exp, c, k - 1);
    }
  }

  lemma {:induction false} OutputIsExact(c: CalibrationProfile, i: Inputs, e: Environment, boost: real)
    requires ValidCalibration(c)
    ensures WotOutput(c, i, e, boost) == PullOutput(c, i.accelerator, e.pressure, boost)
  {
    hide Cal.Lookup1D, ValidCalibration;
  }

  lemma {:induction false} PullMotion(v: real, output: real, dt: real, p: Profile)
    ensures var d := EvolveWot(v, output, dt, p);
            && d.speed == PullSpeed(v, output, dt)
            && d.gear == 3 && d.rpm == EngineSpeedForGear(d.speed, 3, p)
  {
    hide Clamp, EngineSpeedForGear;
    assert ROLLING_DECELERATION + DRAG_PER_SPEED * v == 0.45 + v / 40.0;
  }
}

/** The simulation run (simulator/src/simulation.cpp, simulation_clock.cpp): a fixed-step clock, and a
    vehicle state that depends on nothing but the number of ticks. */
module VehicleSimulation {
  import opened Prelude
  import opened VehicleModel
  import opened Drivetrain
  import opened VehicleDynamics
  import opened Arithmetic
  import Cal = Calibration

  const MICROSECONDS := 1_000_000.0

  datatype Config = Config(
    profile: Profile,
    scenario: Scenario,
    duration: nat,
    step: nat,
    environment: Environment,
    initial: InitialConditions,
    calibration: CalibrationProfile,
    faults: seq<Fault>)

  predicate ConsistentStart(c: Config) {
    && (if c.scenario.WideOpenThrottlePull? then c.initial.speed > 0.0 && c.initial.gear == WOT_GEAR
        else c.initial.speed == 0.0 && c.initial.gear == 0)
    && c.initial.running == !c.scenario.ColdStart?
  }

  /** `validate_configuration`. */
  predicate ValidConfig(c: Config) {
    && ValidProfile(c.profile) && ValidEnvironment(c.environment) && ValidInitial(c.initial, c.profile)
    && ValidFaults(c.faults) && ValidCalibration(c.calibration)
    && 0 < c.duration <= MAX_U64 && c.step > 0 && c.duration % c.step == 0
    && (c.scenario.ColdStart? ==> COLD_START_REQUEST % c.step == 0 && COLD_START_STABILIZATION % c.step == 0)
    && ConsistentStart(c)
  }

  /** What is refused, beyond a bad vehicle, environment, start, fault list or calibration: no duration, no step,
      a duration the step does not divide, a cold start the step does not divide into 1 and 20 seconds, a
      pull that does not roll in third gear, anything else that is not at rest in neutral, and an engine that
      runs exactly when the scenario starts cold. */
  lemma {:induction false} ConfigurationIsExact(c: Config)
    requires ValidEnvironment(c.environment) && ValidInitial(c.initial, c.profile) && ValidFaults(c.faults)
    requires ValidCalibration(c.calibration) && c.duration <= MAX_U64
    ensures !ValidConfig(c) <==>
            || c.duration == 0 || c.step == 0 || c.duration % c.step != 0
            || (c.scenario.ColdStart? && (1_000_000 % c.step != 0 || 20_000_000 % c.step != 0))
            || (c.scenario.WideOpenThrottlePull? && (c.initial.speed == 0.0 || c.initial.gear != 3))
            || (!c.scenario.WideOpenThrottlePull? && (c.initial.speed != 0.0 || c.initial.gear != 0))
            || (c.initial.running <==> c.scenario.ColdStart?)
  {
    hide ValidCalibration, ValidFaults;
  }

  /** `make_initial_state`. */
  function InitialState(c: Config): VehicleState {
    var i := InputsFor(c.scenario, 0);
    var f := ColdStartFraction(i.requestedLoad);
    VehicleState(
      0, RunState.Running, i.accelerator, i.requestedLoad, c.initial.running, c.initial.rpm,
      if c.initial.running then IDLE_LOAD + COLD_LOAD_INCREASE * f else 0.0,
      if c.initial.running then IDLE_THROTTLE + COLD_THROTTLE_INCREASE * f else 0.0,
      c.initial.speed, c.initial.gear, c.environment.pressure,
      if c.initial.running then c.environment.pressure * IDLE_MANIFOLD_FRACTION else c.environment.pressure,
      0.0, c.initial.coolant, c.initial.oil, c.initial.intakeAir, IDLE_LAMBDA, IDLE_IGNITION, 0.0, c.initial.battery)
  }

  /** The constructor's last check never fires: every accepted configuration starts in a valid state. */
  lemma {:induction false} InitialStateIsValid(c: Config)
    requires ValidConfig(c)
    ensures ValidState(InitialState(c), c.profile) && Powered(InitialState(c), c.scenario)
  {
    hide ValidCalibration, InputsFor, ColdStartFraction;
    InputsAreNormalized(c.scenario, 0);
    FractionOfPressure(c.environment.pressure, IDLE_MANIFOLD_FRACTION);
  }

  function Seconds(step: nat): (dt: real)
    ensures dt >= 0.0
  {
    step as real / MICROSECONDS
  }

  /** The state after `k` ticks. */
  function StateAt(exp: real -> real, c: Config, k: nat): VehicleState
    requires ValidCalibration(c.calibration)
  {
    if k == 0 then InitialState(c)
    else
      var t := k * c.step;
      var s := Evolve(exp, StateAt(exp, c, k - 1), InputsFor(c.scenario, t), c.scenario, c.environment, c.profile,
                      c.calibration, ActiveFaultsAt(c.faults, t), Seconds(c.step));
      s.(timestamp := t, runState := if t == c.duration then RunState.Completed else RunState.Running)
  }

  // ---- the contract, over every run ----

  lemma {:induction false} EveryStateIsValid(exp: real -> real, c: Config, k: nat)
    requires IsExp(exp) && ValidConfig(c) && Drivable(c.scenario, c.profile)
    ensures ValidState(StateAt(exp, c, k), c.profile) && Powered(StateAt(exp, c, k), c.scenario)
  {
    hide IsExp, Evolve, InputsFor, ActiveFaultsAt, ValidCalibration, Seconds;
    if k == 0 {
      InitialStateIsValid(c);
    } else {
      EveryStateIsValid(exp, c, k - 1);
      var t := k * c.step;
      StepKeepsContract(exp, StateAt(exp, c, k - 1), t, c.scenario, c.environment, c.profile, c.calibration,
                        ActiveFaultsAt(c.faults, t), Seconds(c.step));
    }
  }

  // ---- exactly which CITY runs exceed 26 m/s ----

  /** The speed after `k` ticks of CITY: it depends on nothing but the step and the tick count. */
  function CitySpeedAt(step: nat, k: nat): (v: real)
    ensures v >= 0.0
  {
    if k == 0 then 0.0
    else
      var i := CityInputs(k * step);
      CitySpeed(CitySpeedAt(step, k - 1), i.accelerator, i.stationary, Seconds(step))
  }

  lemma {:induction false} CityTick(exp: real -> real, c: Config, k: nat)
    requires ValidConfig(c) && c.scenario.City? && k > 0 && StateAt(exp, c, k - 1).running
    ensures var i := CityInputs(k * c.step);
            var s := StateAt(exp, c, k);
            && s.speed == CitySpeed(StateAt(exp, c, k - 1).speed, i.accelerator, i.stationary, Seconds(c.step))
            && s.gear == CityGear(s.speed, i.stationary)
            && s.rpm == EngineSpeedForGear(s.speed, s.gear, c.profile)
            && s.running
  {
    hide CitySpeed, CityGear, ValidCalibration, CityInputs, EngineSpeedForGear, Clamp, Approach, CityManifoldFraction;
  }

  lemma {:induction false} CitySpeedIsScripted(exp: real -> real, c: Config, k: nat)
    requires ValidConfig(c) && c.scenario.City?
    ensures StateAt(exp, c, k).speed == CitySpeedAt(c.step, k) && StateAt(exp, c, k).running
  {
    hide CitySpeed, ValidCalibration, CityInputs, Evolve, InputsFor, ActiveFaultsAt, Seconds;
    if k > 0 {
      CitySpeedIsScripted(exp, c, k - 1);
      CityTick(exp, c, k);
    }
  }

  /** The gear selected at tick `k` of CITY. */
  function ScriptedGear(step: nat, k: nat): int8 {
    CityGear(CitySpeedAt(step, k), CityInputs(k * step).stationary)
  }

  lemma {:induction false} CityNeverSpeeds(step: nat, k: nat)
    requires Seconds(step) <= LONGEST_SAFE_STEP
    ensures CitySpeedAt(step, k) <= CITY_SPEED_LIMIT
  {
    hide CitySpeed, CityInputs, Seconds;
    if k > 0 {
      CityNeverSpeeds(step, k - 1);
      InputsAreNormalized(City, k * step);
      var i := CityInputs(k * step);
      assert InputsFor(City, k * step) == i;
      CitySpeedStaysBounded(CitySpeedAt(step, k - 1), i.accelerator, i.stationary, Seconds(step));
    }
  }

  /** Steps with which a CITY run of `n` ticks meets its strongest departures after too long a step. */
  predicate DepartsTooFast(step: nat, n: nat) {
    || (Seconds(step) > LONGEST_SAFE_STEP && step < 25_000_000 && n >= 3)
    || (32_000_000 <= step < 44_000_000 && n >= 2)
    || (55_000_000 <= step < 88_000_000 && n >= 1)
  }

  /** The first tick departs from rest. */
  lemma {:induction false} FirstSpeed(step: nat)
    ensures var i := CityInputs(step);
            CitySpeedAt(step, 1) == if i.stationary then 0.0 else i.accelerator * 2.0 * Seconds(step)
  {
    hide CitySpeed, CityInputs, Seconds;
    NextSpeed(step, 1);
  }

  /** A tick from rest departs or stays, a tick of 18 s or more told to stop stops from any speed within
      the limit, and a tick on the move of at most 40 s stays within the limit. */
  lemma {:induction false} NextSpeed(step: nat, k: nat)
    requires k > 0
    ensures var i := CityInputs(k * step);
            var before, after := CitySpeedAt(step, k - 1), CitySpeedAt(step, k);
            && (before == 0.0 ==> after == if i.stationary then 0.0 else i.accelerator * 2.0 * Seconds(step))
            && (i.stationary ==> after <= before)
            && (i.stationary && before <= CITY_SPEED_LIMIT && step >= 18_000_000 ==> after == 0.0)
            && (0.0 < before <= CITY_SPEED_LIMIT && step <= 40_000_000 ==> after <= CITY_SPEED_LIMIT)
  {
    hide CitySpeed, CityInputs, CitySpeedAt, Seconds;
    InputsAreNormalized(City, k * step);
    var i := CityInputs(k * step);
    assert InputsFor(City, k * step) == i;
    var before, dt := CitySpeedAt(step, k - 1), Seconds(step);
    SpeedRecurrence(step, k);
    SecondsKeepOrder(step);
    if i.stationary {
      StoppingSlows(before, i.accelerator, dt);
    } else if before == 0.0 {
      DepartingSpeed(i.accelerator, dt);
    } else if before <= CITY_SPEED_LIMIT && step <= 40_000_000 {
      MovingSpeed(before, i.accelerator, dt);
      MovingStaysBelow(before, i.accelerator, dt);
    }
  }

  lemma {:induction false} SpeedRecurrence(step: nat, k: nat)
    requires k > 0
    ensures var i := CityInputs(k * step);
            CitySpeedAt(step, k) == CitySpeed(CitySpeedAt(step, k - 1), i.accelerator, i.stationary, Seconds(step))
    ensures CitySpeedAt(step, 0) == 0.0
  {
    hide CitySpeed, CityInputs, Seconds;
  }

  lemma {:induction false} SecondsKeepOrder(step: nat)
    ensures step >= 18_000_000 ==> CITY_SPEED_LIMIT <= STOP_DECELERATION * Seconds(step)
    ensures step <= 40_000_000 ==> Seconds(step) <= 40.0
  {
  }

  /** The three kinds of too long a step: each meets a departure that outruns the limit. */
  lemma {:induction false} TooFastDepartures(step: nat)
    ensures Seconds(step) > LONGEST_SAFE_STEP && step < 25_000_000 ==> CitySpeedAt(step, 3) > CITY_SPEED_LIMIT
    ensures 32_000_000 <= step < 44_000_000 ==> CitySpeedAt(step, 2) > CITY_SPEED_LIMIT
    ensures 55_000_000 <= step < 88_000_000 ==> CitySpeedAt(step, 1) > CITY_SPEED_LIMIT
  {
    hide CitySpeed, CitySpeedAt;
    FirstSpeed(step);
    if 20_000_000 <= step < 44_000_000 {
      NextSpeed(step, 2);
      NextSpeed(step, 3);
    }
  }

  /** All other steps longer than 260/11 s: the first three ticks stay within the limit. */
  lemma {:induction false} LongStepsStart(step: nat, k: nat)
    requires Seconds(step) > LONGEST_SAFE_STEP && k <= 3 && !DepartsTooFast(step, k)
    ensures CitySpeedAt(step, k) <= CITY_SPEED_LIMIT
  {
    hide CitySpeed, CitySpeedAt;
    SpeedRecurrence(step, 1);
    FirstSpeed(step);
    NextSpeed(step, 2);
    NextSpeed(step, 3);
  }

  /** From 100 s on the script says stop: no later tick is faster. */
  lemma {:induction false} ScriptEnds(step: nat, k: nat)
    requires step >= 25_000_000 && k >= 3
    ensures CitySpeedAt(step, k) <= CitySpeedAt(step, 3)
  {
    hide CitySpeed, CitySpeedAt, CityInputs;
    if k > 3 {
      ScriptEnds(step, k - 1);
      MulKeepsOrder(4, k, step);
      assert CityInputs(k * step).stationary by {
        StationaryFromEnd(k * step);
      }
      NextSpeed(step, k);
    }
  }

  lemma {:induction false} StationaryFromEnd(t: nat)
    requires t >= 100_000_000
    ensures CityInputs(t).stationary
  {
  }

  lemma {:induction false} ScriptStaysBelow(step: nat, k: nat)
    requires !DepartsTooFast(step, k)
    ensures CitySpeedAt(step, k) <= CITY_SPEED_LIMIT
  {
    hide CitySpeedAt;
    if Seconds(step) <= LONGEST_SAFE_STEP {
      CityNeverSpeeds(step, k);
    } else if k <= 3 {
      LongStepsStart(step, k);
    } else {
      LongStepsStart(step, 3);
      ScriptEnds(step, k);
    }
  }

  /** A CITY run of `n` ticks exceeds 26 m/s exactly when its step is between 260/11 s and 25 s and it
      has at least three ticks, from 32 s to below 44 s with at least two, or from 55 s to below 88 s.
      Profile, calibration, environment and faults make no difference. */
  lemma {:induction false} CitySpeedingIsExact(exp: real -> real, c: Config, n: nat)
    requires ValidConfig(c) && c.scenario.City?
    ensures (exists k :: 0 <= k <= n && StateAt(exp, c, k).speed > CITY_SPEED_LIMIT) <==> DepartsTooFast(c.step, n)
  {
    hide StateAt, CitySpeedAt, Seconds, ValidCalibration;
    if DepartsTooFast(c.step, n) {
      TooFastDepartures(c.step);
      var k := if c.step < 25_000_000 then 3 else if c.step < 44_000_000 then 2 else 1;
      CitySpeedIsScripted(exp, c, k);
      assert StateAt(exp, c, k).speed > CITY_SPEED_LIMIT;
    } else {
      forall k | 0 <= k <= n
        ensures StateAt(exp, c, k).speed <= CITY_SPEED_LIMIT
      {
        ScriptStaysBelow(c.step, k);
        CitySpeedIsScripted(exp, c, k);
      }
    }
  }

  // ---- step-size independence of the idling scenarios ----

  predicate Idling(c: Config) {
    (c.scenario.Idle? || c.scenario.Warmup?) && c.faults == []
  }

  /** What one tick does to an idling engine. */
  lemma {:induction false} IdleTick(exp: real -> real, c: Config, s: VehicleState, t: nat)
    requires ValidConfig(c) && Idling(c) && s.running
    ensures var r := Evolve(exp, s, InputsFor(c.scenario, t), c.scenario, c.environment, c.profile, c.calibration,
                            ActiveFaultsAt(c.faults, t), Seconds(c.step));
            && r.running
            && r.rpm == Approach(exp, s.rpm, IDLE_TARGET_RPM, IDLE_RPM_TAU, Seconds(c.step))
            && r.coolant == Approach(exp, s.coolant, COOLANT_EQUILIBRIUM, COOLANT_TAU, Seconds(c.step))
            && r.oil == Approach(exp, s.oil, OIL_EQUILIBRIUM, OIL_TAU, Seconds(c.step))
            && r.intakeAir ==
               Approach(exp, s.intakeAir, c.environment.temperature + INTAKE_ABOVE_AMBIENT, INTAKE_TAU, Seconds(c.step))
            && r.battery == Approach(exp, s.battery, CHARGING_VOLTAGE, BATTERY_TAU, Seconds(c.step))
  {
    hide Approach, ValidCalibration;
  }

  /** The idling quantities after `k` ticks, written as repeated first-order responses. */
  lemma {:induction false} IdleIsRepeatedApproach(exp: real -> real, c: Config, k: nat)
    requires ValidConfig(c) && Idling(c)
    ensures var s := StateAt(exp, c, k);
            var dt := Seconds(c.step);
            && s.running
            && s.rpm == ApproachMany(exp, c.initial.rpm, IDLE_TARGET_RPM, IDLE_RPM_TAU, dt, k)
            && s.coolant == ApproachMany(exp, c.initial.coolant, COOLANT_EQUILIBRIUM, COOLANT_TAU, dt, k)
            && s.oil == ApproachMany(exp, c.initial.oil, OIL_EQUILIBRIUM, OIL_TAU, dt, k)
            && s.intakeAir ==
               ApproachMany(exp, c.initial.intakeAir, c.environment.temperature + INTAKE_ABOVE_AMBIENT, INTAKE_TAU, dt,
                            k)
            && s.battery == ApproachMany(exp, c.initial.battery, CHARGING_VOLTAGE, BATTERY_TAU, dt, k)
  {
    hide Evolve, InputsFor, ActiveFaultsAt, ValidCalibration, Approach, Seconds;
    if k > 0 {
      IdleIsRepeatedApproach(exp, c, k - 1);
      IdleTick(exp, c, StateAt(exp, c, k - 1), k * c.step);
    }
  }

  /** Closed form: each quantity is one first-order response over the elapsed time. */
  lemma {:induction false} IdleClosedForm(exp: real -> real, c: Config, k: nat)
    requires IsExp(exp) && ValidConfig(c) && Idling(c)
    ensures var s := StateAt(exp, c, k);
            var t := Elapsed(k, Seconds(c.step));
            && s.rpm == Approach(exp, c.initial.rpm, IDLE_TARGET_RPM, IDLE_RPM_TAU, t)
            && s.coolant == Approach(exp, c.initial.coolant, COOLANT_EQUILIBRIUM, COOLANT_TAU, t)
            && s.oil == Approach(exp, c.initial.oil, OIL_EQUILIBRIUM, OIL_TAU, t)
            && s.intakeAir ==
               Approach(exp, c.initial.intakeAir, c.environment.temperature + INTAKE_ABOVE_AMBIENT, INTAKE_TAU, t)
            && s.battery == Approach(exp, c.initial.battery, CHARGING_VOLTAGE, BATTERY_TAU, t)
  {
    hide IsExp, StateAt, Approach, ApproachMany, Elapsed, Seconds, ValidCalibration;
    var dt := Seconds(c.step);
    IdleIsRepeatedApproach(exp, c, k);
    ApproachManyIsOne(exp, c.initial.rpm, IDLE_TARGET_RPM, IDLE_RPM_TAU, dt, k);
    ApproachManyIsOne(exp, c.initial.coolant, COOLANT_EQUILIBRIUM, COOLANT_TAU, dt, k);
    ApproachManyIsOne(exp, c.initial.oil, OIL_EQUILIBRIUM, OIL_TAU, dt, k);
    ApproachManyIsOne(exp, c.initial.intakeAir, c.environment.temperature + INTAKE_ABOVE_AMBIENT, INTAKE_TAU, dt, k);
    ApproachManyIsOne(exp, c.initial.battery, CHARGING_VOLTAGE, BATTERY_TAU, dt, k);
  }

  lemma {:induction false} SameElapsed(k: nat, step: nat, m: nat, other: nat)
    requires k * step == m * other
    ensures Elapsed(k, Seconds(step)) == Elapsed(m, Seconds(other))
  {
    assert k as real * step as real == (k * step) as real;
    assert m as real * other as real == (m * other) as real;
  }

  /** Fault-free IDLE and WARMUP do not depend on the fixed step: at the same simulated time, two runs
      that differ only in their step agree on rpm, temperatures and voltage. */
  lemma {:induction false} StepSizeDoesNotMatter(exp: real -> real, c: Config, d: Config, k: nat, m: nat)
    requires IsExp(exp) && ValidConfig(c) && ValidConfig(d) && Idling(c)
    requires d == c.(step := d.step, duration := d.duration) && k * c.step == m * d.step
    ensures var s, r := StateAt(exp, c, k), StateAt(exp, d, m);
            s.rpm == r.rpm && s.coolant == r.coolant && s.oil == r.oil && s.intakeAir == r.intakeAir
            && s.battery == r.battery
  {
    hide IsExp, StateAt, Approach, Elapsed, Seconds, ValidConfig;
    IdleClosedForm(exp, c, k);
    IdleClosedForm(exp, d, m);
    SameElapsed(k, c.step, m, d.step);
  }

  predicate Toward(before: real, after: real, target: real) {
    (before <= target ==> before <= after <= target) && (before >= target ==> target <= after <= before)
  }

  /** Between any two moments each quantity has moved toward its equilibrium, never past it. */
  lemma {:induction false} IdleMovesTowardEquilibrium(exp: real -> real, c: Config, k: nat, m: nat)
    requires IsExp(exp) && ValidConfig(c) && Idling(c) && k <= m
    ensures var s, r := StateAt(exp, c, k), StateAt(exp, c, m);
            && Toward(s.rpm, r.rpm, IDLE_TARGET_RPM)
            && Toward(s.coolant, r.coolant, COOLANT_EQUILIBRIUM)
            && Toward(s.oil, r.oil, OIL_EQUILIBRIUM)
            && Toward(s.intakeAir, r.intakeAir, c.environment.temperature + INTAKE_ABOVE_AMBIENT)
            && Toward(s.battery, r.battery, CHARGING_VOLTAGE)
  {
    hide IsExp, Approach, Seconds, ValidCalibration, Evolve, InputsFor, ActiveFaultsAt;
    if k < m {
      IdleMovesTowardEquilibrium(exp, c, k, m - 1);
      IdleIsRepeatedApproach(exp, c, m - 1);
      var s := StateAt(exp, c, m - 1);
      var dt := Seconds(c.step);
      IdleTick(exp, c, s, m * c.step);
      ApproachDoesNotOvershoot(exp, s.rpm, IDLE_TARGET_RPM, IDLE_RPM_TAU, dt);
      ApproachDoesNotOvershoot(exp, s.coolant, COOLANT_EQUILIBRIUM, COOLANT_TAU, dt);
      ApproachDoesNotOvershoot(exp, s.oil, OIL_EQUILIBRIUM, OIL_TAU, dt);
      ApproachDoesNotOvershoot(exp, s.intakeAir, c.environment.temperature + INTAKE_ABOVE_AMBIENT, INTAKE_TAU, dt);
      ApproachDoesNotOvershoot(exp, s.battery, CHARGING_VOLTAGE, BATTERY_TAU, dt);
    }
  }

  // ---- the full-throttle pull stays inside its calibration ----

  /** Bounds of the calibrated mixture, ignition and boost that include the idle values a pull starts
      from. */
  datatype Ranges = Ranges(lowLambda: real, highLambda: real, lowIgnition: real, highIgnition: real, highBoost: real)

  predicate Bounds(c: CalibrationProfile, r: Ranges)
    requires ValidCalibration(c)
  {
    && Cal.AllWithin(c.lambdaTarget.values, r.lowLambda, r.highLambda) && r.lowLambda <= IDLE_LAMBDA <= r.highLambda
    && Cal.AllWithin(c.ignition.values, r.lowIgnition, r.highIgnition)
    && r.lowIgnition <= IDLE_IGNITION <= r.highIgnition
    && Cal.AllWithin(c.boost.values, 0.0, r.highBoost) && 0.0 <= r.highBoost
  }

  predicate InRanges(s: VehicleState, r: Ranges) {
    && r.lowLambda <= s.lambda_ <= r.highLambda
    && r.lowIgnition <= s.ignition <= r.highIgnition
    && s.ambientPressure * IDLE_MANIFOLD_FRACTION <= s.manifoldPressure <= s.ambientPressure + r.highBoost
    && 0.0 <= s.requestedBoost <= r.highBoost
  }

  lemma {:induction false} BoostTargetInRange(c: CalibrationProfile, rpm: real, i: Inputs, r: Ranges)
    requires ValidCalibration(c) && Bounds(c, r)
    ensures 0.0 <= BoostTarget(c, rpm, i) <= r.highBoost
  {
    hide Cal.Lookup2D, Cal.Lookup1D, Cal.AllWithin, WotLoad;
    Cal.Lookup2DStaysWithin(c.boost, rpm, WotLoad(c, i), 0.0, r.highBoost);
  }

  lemma {:induction false} PullTickStaysInRange(exp: real -> real, s: VehicleState, i: Inputs, e: Environment,
                                                p: Profile, c: CalibrationProfile,
                             dt: real, r: Ranges)
    requires IsExp(exp) && dt >= 0.0 && ValidCalibration(c) && Bounds(c, r) && InRanges(s, r)
    requires s.ambientPressure == e.pressure
    requires ValidEnvironment(e)
    ensures InRanges(EvolveWotPart(exp, s, i, e, p, c, dt), r)
  {
    hide IsExp, Approach, Cal.Lookup2D, Cal.Lookup1D, Cal.AllWithin, WotLoad, WotOutput, BoostTarget, EvolveWot,
      Cal.Valid1D, Cal.Valid2D;
    var load := WotLoad(c, i);
    var after := EvolveWotPart(exp, s, i, e, p, c, dt);
    var target := BoostTarget(c, s.rpm, i);
    BoostTargetInRange(c, s.rpm, i, r);
    var boost := s.manifoldPressure - s.ambientPressure;
    ApproachStaysAtMost(exp, boost, target, c.boostTau, dt, r.highBoost);
    ApproachStaysAtLeast(exp, boost, target, c.boostTau, dt, e.pressure * IDLE_MANIFOLD_FRACTION - e.pressure);
    FractionOfPressure(e.pressure, IDLE_MANIFOLD_FRACTION);
    var lambdaTarget := Cal.Lookup1D(c.lambdaTarget, load);
    Cal.LookupStaysWithin(c.lambdaTarget, load, r.lowLambda, r.highLambda);
    ApproachStaysAtMost(exp, s.lambda_, lambdaTarget, WOT_LAMBDA_TAU, dt, r.highLambda);
    ApproachStaysAtLeast(exp, s.lambda_, lambdaTarget, WOT_LAMBDA_TAU, dt, r.lowLambda);
    var ignitionTarget := Cal.Lookup2D(c.ignition, after.rpm, load);
    Cal.Lookup2DStaysWithin(c.ignition, after.rpm, load, r.lowIgnition, r.highIgnition);
    ApproachStaysAtMost(exp, s.ignition, ignitionTarget, WOT_IGNITION_TAU, dt, r.highIgnition);
    ApproachStaysAtLeast(exp, s.ignition, ignitionTarget, WOT_IGNITION_TAU, dt, r.lowIgnition);
  }

  lemma {:induction false} ThermalKeepsRanges(exp: real -> real, s: VehicleState, e: Environment,
                                              f: ActiveFaults, dt: real, r: Ranges)
    requires InRanges(s, r)
    ensures InRanges(EvolveThermal(exp, s, WideOpenThrottlePull, e, f, dt), r)
    ensures EvolveThermal(exp, s, WideOpenThrottlePull, e, f, dt).ambientPressure == s.ambientPressure
    ensures EvolveThermal(exp, s, WideOpenThrottlePull, e, f, dt).running == s.running
  {
    hide Approach;
  }

  /** Throughout a full-throttle pull, mixture, ignition and boost never leave the range of their
      calibration tables, and the manifold pressure never falls below its idle fraction of the ambient
      pressure, faults or not. */
  lemma {:induction false} PullStaysInRange(exp: real -> real, c: Config, k: nat, r: Ranges)
    requires IsExp(exp) && ValidConfig(c) && c.scenario.WideOpenThrottlePull? && Bounds(c.calibration, r)
    ensures var s := StateAt(exp, c, k); InRanges(s, r) && s.running && s.ambientPressure == c.environment.pressure
  {
    hide IsExp, InputsFor, ActiveFaultsAt, ValidCalibration, EvolveThermal, EvolveWotPart, Seconds, Bounds;
    if k == 0 {
      PullStartsInRange(c, r);
    } else {
      PullStaysInRange(exp, c, k - 1, r);
      var t := k * c.step;
      var i := InputsFor(c.scenario, t);
      var s1 := WithInputs(StateAt(exp, c, k - 1), i, c.environment);
      PullTickStaysInRange(exp, s1, i, c.environment, c.profile, c.calibration, Seconds(c.step), r);
      PullKeepsAmbient(exp, s1, i, c.environment, c.profile, c.calibration, Seconds(c.step));
      ThermalKeepsRanges(exp, EvolveWotPart(exp, s1, i, c.environment, c.profile, c.calibration, Seconds(c.step)),
                         c.environment, ActiveFaultsAt(c.faults, t), Seconds(c.step), r);
    }
  }

  lemma {:induction false} PullStartsInRange(c: Config, r: Ranges)
    requires ValidConfig(c) && c.scenario.WideOpenThrottlePull? && Bounds(c.calibration, r)
    ensures var s := InitialState(c); InRanges(s, r) && s.running && s.ambientPressure == c.environment.pressure
  {
    hide ValidCalibration, Cal.AllWithin;
  }

  lemma {:induction false} PullKeepsAmbient(exp: real -> real, s: VehicleState, i: Inputs, e: Environment,
                                            p: Profile, c: CalibrationProfile, dt: real)
    requires ValidCalibration(c)
    ensures EvolveWotPart(exp, s, i, e, p, c, dt).ambientPressure == s.ambientPressure
    ensures EvolveWotPart(exp, s, i, e, p, c, dt).running == s.running
  {
    hide Approach, ValidCalibration;
  }
}
